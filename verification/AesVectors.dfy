/** Vectors of FIPS 197: the words of appendix A.3 and the cipher of appendix C.3, which fix the
key schedule, every step of a round, their number and the order of the bytes. */
module AesVectors {
  import opened AesBytes
  import opened AesMix
  import opened AesState
  import opened AesRounds
  import opened AesLoad
  import opened AesCipher
  import opened AesKeySchedule
  import Aes256

  function W(a: bv8, b: bv8, c: bv8, d: bv8): Column {
    Column(Byte(a), Byte(b), Byte(c), Byte(d))
  }

  function Bytes(c: Column): (b: seq<Byte>)
    ensures |b| == 4
  {
    [c.b0, c.b1, c.b2, c.b3]
  }

  /** A key of eight words. */
  function KeyOf(p: Column, q: Column, r: Column, s: Column, t: Column, u: Column, v: Column, w: Column): (key: seq<Byte>)
    ensures |key| == 32
  {
    Bytes(p) + Bytes(q) + Bytes(r) + Bytes(s) + Bytes(t) + Bytes(u) + Bytes(v) + Bytes(w)
  }

  lemma KeyWords(p: Column, q: Column, r: Column, s: Column, t: Column, u: Column, v: Column, w: Column)
    ensures
      var key := KeyOf(p, q, r, s, t, u, v, w);
      && ExpandedWord(key, 8, 0) == p && ExpandedWord(key, 8, 1) == q && ExpandedWord(key, 8, 2) == r
      && ExpandedWord(key, 8, 3) == s && ExpandedWord(key, 8, 4) == t && ExpandedWord(key, 8, 5) == u
      && ExpandedWord(key, 8, 6) == v && ExpandedWord(key, 8, 7) == w
  {
  }

  // --- Appendix A.3

  function KeyA3(): (key: seq<Byte>)
    ensures |key| == 32
  {
    KeyOf(W(0x60, 0x3d, 0xeb, 0x10), W(0x15, 0xca, 0x71, 0xbe),
          W(0x2b, 0x73, 0xae, 0xf0), W(0x85, 0x7d, 0x77, 0x81),
          W(0x1f, 0x35, 0x2c, 0x07), W(0x3b, 0x61, 0x08, 0xd7),
          W(0x2d, 0x98, 0x10, 0xa3), W(0x09, 0x14, 0xdf, 0xf4))
  }

  /** The first word that is rotated, and the first that is only substituted. */
  lemma ExpansionA3()
    ensures ExpandedWord(KeyA3(), 8, 8) == W(0x9b, 0xa3, 0x54, 0x11)
    ensures ExpandedWord(KeyA3(), 8, 12) == W(0xa8, 0xb0, 0x9c, 0x1a)
  {
    hide ExpandedWord;
    RoundConstants();
    KeyWords(W(0x60, 0x3d, 0xeb, 0x10), W(0x15, 0xca, 0x71, 0xbe),
             W(0x2b, 0x73, 0xae, 0xf0), W(0x85, 0x7d, 0x77, 0x81),
             W(0x1f, 0x35, 0x2c, 0x07), W(0x3b, 0x61, 0x08, 0xd7),
             W(0x2d, 0x98, 0x10, 0xa3), W(0x09, 0x14, 0xdf, 0xf4));
    NextExpanded(KeyA3(), 8, 8);
    NextExpanded(KeyA3(), 8, 9);
    NextExpanded(KeyA3(), 8, 10);
    NextExpanded(KeyA3(), 8, 11);
    NextExpanded(KeyA3(), 8, 12);
  }

  // --- Appendix C.3

  function KeyC3(): (key: seq<Byte>)
    ensures |key| == 32
  {
    KeyOf(W(0x00, 0x01, 0x02, 0x03), W(0x04, 0x05, 0x06, 0x07),
          W(0x08, 0x09, 0x0a, 0x0b), W(0x0c, 0x0d, 0x0e, 0x0f),
          W(0x10, 0x11, 0x12, 0x13), W(0x14, 0x15, 0x16, 0x17),
          W(0x18, 0x19, 0x1a, 0x1b), W(0x1c, 0x1d, 0x1e, 0x1f))
  }

  /** A block in the order of the message. */
  function Message(p: Column, q: Column, r: Column, s: Column): Block {
    Bytes(p) + Bytes(q) + Bytes(r) + Bytes(s)
  }

  function PlainC3(): Block {
    Message(W(0x00, 0x11, 0x22, 0x33), W(0x44, 0x55, 0x66, 0x77),
            W(0x88, 0x99, 0xaa, 0xbb), W(0xcc, 0xdd, 0xee, 0xff))
  }

  /** Word i of the expanded key. */
  function K(i: nat): Column {
    ExpandedWord(KeyC3(), 8, i)
  }

  lemma Words0()
    ensures K(0) == W(0x00, 0x01, 0x02, 0x03) && K(1) == W(0x04, 0x05, 0x06, 0x07)
    ensures K(2) == W(0x08, 0x09, 0x0a, 0x0b) && K(3) == W(0x0c, 0x0d, 0x0e, 0x0f)
    ensures K(4) == W(0x10, 0x11, 0x12, 0x13) && K(5) == W(0x14, 0x15, 0x16, 0x17)
    ensures K(6) == W(0x18, 0x19, 0x1a, 0x1b) && K(7) == W(0x1c, 0x1d, 0x1e, 0x1f)
  {
    hide ExpandedWord;
    KeyWords(W(0x00, 0x01, 0x02, 0x03), W(0x04, 0x05, 0x06, 0x07),
             W(0x08, 0x09, 0x0a, 0x0b), W(0x0c, 0x0d, 0x0e, 0x0f),
             W(0x10, 0x11, 0x12, 0x13), W(0x14, 0x15, 0x16, 0x17),
             W(0x18, 0x19, 0x1a, 0x1b), W(0x1c, 0x1d, 0x1e, 0x1f));
  }

  lemma Words8()
    ensures K(8) == W(0xa5, 0x73, 0xc2, 0x9f) && K(9) == W(0xa1, 0x76, 0xc4, 0x98)
    ensures K(10) == W(0xa9, 0x7f, 0xce, 0x93) && K(11) == W(0xa5, 0x72, 0xc0, 0x9c)
    ensures K(12) == W(0x16, 0x51, 0xa8, 0xcd) && K(13) == W(0x02, 0x44, 0xbe, 0xda)
    ensures K(14) == W(0x1a, 0x5d, 0xa4, 0xc1) && K(15) == W(0x06, 0x40, 0xba, 0xde)
  {
    hide ExpandedWord;
    Words0();
    RoundConstants();
    NextExpanded(KeyC3(), 8, 8); NextExpanded(KeyC3(), 8, 9); NextExpanded(KeyC3(), 8, 10); NextExpanded(KeyC3(), 8, 11);
    NextExpanded(KeyC3(), 8, 12); NextExpanded(KeyC3(), 8, 13); NextExpanded(KeyC3(), 8, 14); NextExpanded(KeyC3(), 8, 15);
  }

  lemma Words16()
    ensures K(16) == W(0xae, 0x87, 0xdf, 0xf0) && K(17) == W(0x0f, 0xf1, 0x1b, 0x68)
    ensures K(18) == W(0xa6, 0x8e, 0xd5, 0xfb) && K(19) == W(0x03, 0xfc, 0x15, 0x67)
    ensures K(20) == W(0x6d, 0xe1, 0xf1, 0x48) && K(21) == W(0x6f, 0xa5, 0x4f, 0x92)
    ensures K(22) == W(0x75, 0xf8, 0xeb, 0x53) && K(23) == W(0x73, 0xb8, 0x51, 0x8d)
  {
    hide ExpandedWord;
    Words8();
    RoundConstants();
    NextExpanded(KeyC3(), 8, 16); NextExpanded(KeyC3(), 8, 17); NextExpanded(KeyC3(), 8, 18); NextExpanded(KeyC3(), 8, 19);
    NextExpanded(KeyC3(), 8, 20); NextExpanded(KeyC3(), 8, 21); NextExpanded(KeyC3(), 8, 22); NextExpanded(KeyC3(), 8, 23);
  }

  lemma Words24()
    ensures K(24) == W(0xc6, 0x56, 0x82, 0x7f) && K(25) == W(0xc9, 0xa7, 0x99, 0x17)
    ensures K(26) == W(0x6f, 0x29, 0x4c, 0xec) && K(27) == W(0x6c, 0xd5, 0x59, 0x8b)
    ensures K(28) == W(0x3d, 0xe2, 0x3a, 0x75) && K(29) == W(0x52, 0x47, 0x75, 0xe7)
    ensures K(30) == W(0x27, 0xbf, 0x9e, 0xb4) && K(31) == W(0x54, 0x07, 0xcf, 0x39)
  {
    hide ExpandedWord;
    Words16();
    RoundConstants();
    NextExpanded(KeyC3(), 8, 24); NextExpanded(KeyC3(), 8, 25); NextExpanded(KeyC3(), 8, 26); NextExpanded(KeyC3(), 8, 27);
    NextExpanded(KeyC3(), 8, 28); NextExpanded(KeyC3(), 8, 29); NextExpanded(KeyC3(), 8, 30); NextExpanded(KeyC3(), 8, 31);
  }

  lemma Words32()
    ensures K(32) == W(0x0b, 0xdc, 0x90, 0x5f) && K(33) == W(0xc2, 0x7b, 0x09, 0x48)
    ensures K(34) == W(0xad, 0x52, 0x45, 0xa4) && K(35) == W(0xc1, 0x87, 0x1c, 0x2f)
    ensures K(36) == W(0x45, 0xf5, 0xa6, 0x60) && K(37) == W(0x17, 0xb2, 0xd3, 0x87)
    ensures K(38) == W(0x30, 0x0d, 0x4d, 0x33) && K(39) == W(0x64, 0x0a, 0x82, 0x0a)
  {
    hide ExpandedWord;
    Words24();
    RoundConstants();
    NextExpanded(KeyC3(), 8, 32); NextExpanded(KeyC3(), 8, 33); NextExpanded(KeyC3(), 8, 34); NextExpanded(KeyC3(), 8, 35);
    NextExpanded(KeyC3(), 8, 36); NextExpanded(KeyC3(), 8, 37); NextExpanded(KeyC3(), 8, 38); NextExpanded(KeyC3(), 8, 39);
  }

  lemma Words40()
    ensures K(40) == W(0x7c, 0xcf, 0xf7, 0x1c) && K(41) == W(0xbe, 0xb4, 0xfe, 0x54)
    ensures K(42) == W(0x13, 0xe6, 0xbb, 0xf0) && K(43) == W(0xd2, 0x61, 0xa7, 0xdf)
    ensures K(44) == W(0xf0, 0x1a, 0xfa, 0xfe) && K(45) == W(0xe7, 0xa8, 0x29, 0x79)
    ensures K(46) == W(0xd7, 0xa5, 0x64, 0x4a) && K(47) == W(0xb3, 0xaf, 0xe6, 0x40)
  {
    hide ExpandedWord;
    Words32();
    RoundConstants();
    NextExpanded(KeyC3(), 8, 40); NextExpanded(KeyC3(), 8, 41); NextExpanded(KeyC3(), 8, 42); NextExpanded(KeyC3(), 8, 43);
    NextExpanded(KeyC3(), 8, 44); NextExpanded(KeyC3(), 8, 45); NextExpanded(KeyC3(), 8, 46); NextExpanded(KeyC3(), 8, 47);
  }

  lemma Words48()
    ensures K(48) == W(0x25, 0x41, 0xfe, 0x71) && K(49) == W(0x9b, 0xf5, 0x00, 0x25)
    ensures K(50) == W(0x88, 0x13, 0xbb, 0xd5) && K(51) == W(0x5a, 0x72, 0x1c, 0x0a)
    ensures K(52) == W(0x4e, 0x5a, 0x66, 0x99) && K(53) == W(0xa9, 0xf2, 0x4f, 0xe0)
    ensures K(54) == W(0x7e, 0x57, 0x2b, 0xaa) && K(55) == W(0xcd, 0xf8, 0xcd, 0xea)
  {
    hide ExpandedWord;
    Words40();
    RoundConstants();
    NextExpanded(KeyC3(), 8, 48); NextExpanded(KeyC3(), 8, 49); NextExpanded(KeyC3(), 8, 50); NextExpanded(KeyC3(), 8, 51);
    NextExpanded(KeyC3(), 8, 52); NextExpanded(KeyC3(), 8, 53); NextExpanded(KeyC3(), 8, 54); NextExpanded(KeyC3(), 8, 55);
  }

  lemma Words56()
    ensures K(56) == W(0x24, 0xfc, 0x79, 0xcc) && K(57) == W(0xbf, 0x09, 0x79, 0xe9)
    ensures K(58) == W(0x37, 0x1a, 0xc2, 0x3c) && K(59) == W(0x6d, 0x68, 0xde, 0x36)
  {
    hide ExpandedWord;
    Words48();
    RoundConstants();
    NextExpanded(KeyC3(), 8, 56); NextExpanded(KeyC3(), 8, 57); NextExpanded(KeyC3(), 8, 58); NextExpanded(KeyC3(), 8, 59);
  }

  /** A block by its columns. */
  function Columns(p: Column, q: Column, r: Column, s: Column): Block {
    [p.b0, q.b0, r.b0, s.b0, p.b1, q.b1, r.b1, s.b1, p.b2, q.b2, r.b2, s.b2, p.b3, q.b3, r.b3, s.b3]
  }

  lemma RoundKeyC3(n: nat)
    requires n < 15
    ensures Aes256.RoundKeys(KeyC3())[n] == Columns(K(4 * n), K(4 * n + 1), K(4 * n + 2), K(4 * n + 3))
  {
    hide ExpandedWord;
  }

  /** The column of the next state that these four columns go into. */
  function NextColumn(p: Column, q: Column, r: Column, s: Column, k: Column): Column {
    var x, y, z, u := Sub(p.b0), Sub(q.b1), Sub(r.b2), Sub(s.b3);
    AddWord(Column(Sum(Sum(Sum(XTime(x), Sum(XTime(y), y)), z), u), Sum(Sum(Sum(XTime(y), Sum(XTime(z), z)), u), x),
                   Sum(Sum(Sum(XTime(z), Sum(XTime(u), u)), x), y), Sum(Sum(Sum(XTime(u), Sum(XTime(x), x)), y), z)), k)
  }

  lemma Step(p: Column, q: Column, r: Column, s: Column, k: Column, l: Column, m: Column, n: Column)
    ensures AddBlock(MixBlock(ShiftBlock(SubBlock(Columns(p, q, r, s), false), false), false), Columns(k, l, m, n))
            == Columns(NextColumn(p, q, r, s, k), NextColumn(q, r, s, p, l), NextColumn(r, s, p, q, m), NextColumn(s, p, q, r, n))
  {
    hide Sub, Sum, Times, XTime, MixBlock, ShiftBlock, SubBlock, AddBlock, AddWord, NextColumn;
    var b := Columns(p, q, r, s);
    var t := MixBlock(ShiftBlock(SubBlock(b, false), false), false);
    StepColumn(b, 0, p, q, r, s, k);
    StepColumn(b, 1, q, r, s, p, l);
    StepColumn(b, 2, r, s, p, q, m);
    StepColumn(b, 3, s, p, q, r, n);
    ColumnsOfBlock(t);
    AddColumns(Column(t[0], t[4], t[8], t[12]), Column(t[1], t[5], t[9], t[13]),
               Column(t[2], t[6], t[10], t[14]), Column(t[3], t[7], t[11], t[15]), k, l, m, n);
  }

  lemma StepColumn(b: Block, c: nat, p: Column, q: Column, r: Column, s: Column, k: Column)
    requires c < 4
    requires b[c] == p.b0 && b[4 + (c + 1) % 4] == q.b1 && b[8 + (c + 2) % 4] == r.b2 && b[12 + (c + 3) % 4] == s.b3
    ensures
      var t := MixBlock(ShiftBlock(SubBlock(b, false), false), false);
      AddWord(Column(t[c], t[4 + c], t[8 + c], t[12 + c]), k) == NextColumn(p, q, r, s, k)
  {
    hide Sub, Sum, Times, XTime, MixBlock, ShiftBlock, SubBlock;
    RoundColumn(b, c);
    var x, y, z, u := Sub(p.b0), Sub(q.b1), Sub(r.b2), Sub(s.b3);
    Times02(x); Times02(y); Times02(z); Times02(u);
    Times03(x); Times03(y); Times03(z); Times03(u);
  }

  lemma ColumnsOfBlock(t: Block)
    ensures t == Columns(Column(t[0], t[4], t[8], t[12]), Column(t[1], t[5], t[9], t[13]),
                         Column(t[2], t[6], t[10], t[14]), Column(t[3], t[7], t[11], t[15]))
  {
  }

  lemma AddColumns(p: Column, q: Column, r: Column, s: Column, k: Column, l: Column, m: Column, n: Column)
    ensures AddBlock(Columns(p, q, r, s), Columns(k, l, m, n))
            == Columns(AddWord(p, k), AddWord(q, l), AddWord(r, m), AddWord(s, n))
  {
    hide Sum;
  }

  lemma LoadedColumns(p: Column, q: Column, r: Column, s: Column)
    ensures Transposed(Message(p, q, r, s)) == Columns(p, q, r, s)
    ensures Transposed(Columns(p, q, r, s)) == Message(p, q, r, s)
  {
    var b := Message(p, q, r, s);
    TransposedIs(b);
    TransposedTwice(b);
    hide Transposed;
  }

  lemma TransposedIs(b: Block)
    ensures Transposed(b) == [b[0], b[4], b[8], b[12], b[1], b[5], b[9], b[13],
                              b[2], b[6], b[10], b[14], b[3], b[7], b[11], b[15]]
  {
  }

  lemma LastStep(p: Column, q: Column, r: Column, s: Column, k: Column, l: Column, m: Column, n: Column)
    ensures AddBlock(ShiftBlock(SubBlock(Columns(p, q, r, s), false), false), Columns(k, l, m, n))
            == Columns(AddWord(Column(Sub(p.b0), Sub(q.b1), Sub(r.b2), Sub(s.b3)), k),
                       AddWord(Column(Sub(q.b0), Sub(r.b1), Sub(s.b2), Sub(p.b3)), l),
                       AddWord(Column(Sub(r.b0), Sub(s.b1), Sub(p.b2), Sub(q.b3)), m),
                       AddWord(Column(Sub(s.b0), Sub(p.b1), Sub(q.b2), Sub(r.b3)), n))
  {
    hide Sub, Sum;
  }

  function StateC3(n: nat): Block
    requires n < 15
  {
    Rounds(Transposed(PlainC3()), Aes256.RoundKeys(KeyC3()), n)
  }

  lemma State0()
    ensures StateC3(0) ==
      Columns(W(0x00, 0x10, 0x20, 0x30), W(0x40, 0x50, 0x60, 0x70),
              W(0x80, 0x90, 0xa0, 0xb0), W(0xc0, 0xd0, 0xe0, 0xf0))
  {
    hide ExpandedWord, Aes256.RoundKeys, AddBlock, Transposed, Message, Columns;
    Words0(); RoundKeyC3(0);
    LoadedColumns(W(0x00, 0x11, 0x22, 0x33), W(0x44, 0x55, 0x66, 0x77), W(0x88, 0x99, 0xaa, 0xbb), W(0xcc, 0xdd, 0xee, 0xff));
    AddColumns(W(0x00, 0x11, 0x22, 0x33), W(0x44, 0x55, 0x66, 0x77), W(0x88, 0x99, 0xaa, 0xbb), W(0xcc, 0xdd, 0xee, 0xff),
               W(0x00, 0x01, 0x02, 0x03), W(0x04, 0x05, 0x06, 0x07), W(0x08, 0x09, 0x0a, 0x0b), W(0x0c, 0x0d, 0x0e, 0x0f));
  }

  lemma State1()
    ensures StateC3(1) ==
      Columns(W(0x4f, 0x63, 0x76, 0x06), W(0x43, 0xe0, 0xaa, 0x85),
              W(0xef, 0xa7, 0x21, 0x32), W(0x01, 0xa4, 0xe7, 0x05))
  {
    hide ExpandedWord, Rounds, Aes256.RoundKeys, AddBlock, MixBlock, ShiftBlock, SubBlock;
    State0(); NextState(1); RoundKeyC3(1); Words0();
    Step(W(0x00, 0x10, 0x20, 0x30), W(0x40, 0x50, 0x60, 0x70), W(0x80, 0x90, 0xa0, 0xb0), W(0xc0, 0xd0, 0xe0, 0xf0),
         W(0x10, 0x11, 0x12, 0x13), W(0x14, 0x15, 0x16, 0x17), W(0x18, 0x19, 0x1a, 0x1b), W(0x1c, 0x1d, 0x1e, 0x1f));
  }

  lemma State2()
    ensures StateC3(2) ==
      Columns(W(0x18, 0x59, 0xfb, 0xc2), W(0x8a, 0x1c, 0x00, 0xa0),
              W(0x78, 0xed, 0x8a, 0xad), W(0xc4, 0x2f, 0x61, 0x09))
  {
    hide ExpandedWord, Rounds, Aes256.RoundKeys, AddBlock, MixBlock, ShiftBlock, SubBlock;
    State1(); NextState(2); RoundKeyC3(2); Words8();
    Step(W(0x4f, 0x63, 0x76, 0x06), W(0x43, 0xe0, 0xaa, 0x85), W(0xef, 0xa7, 0x21, 0x32), W(0x01, 0xa4, 0xe7, 0x05),
         W(0xa5, 0x73, 0xc2, 0x9f), W(0xa1, 0x76, 0xc4, 0x98), W(0xa9, 0x7f, 0xce, 0x93), W(0xa5, 0x72, 0xc0, 0x9c));
  }

  lemma State3()
    ensures StateC3(3) ==
      Columns(W(0x97, 0x5c, 0x66, 0xc1), W(0xcb, 0x9f, 0x3f, 0xa8),
              W(0xa9, 0x3a, 0x28, 0xdf), W(0x8e, 0xe1, 0x0f, 0x63))
  {
    hide ExpandedWord, Rounds, Aes256.RoundKeys, AddBlock, MixBlock, ShiftBlock, SubBlock;
    State2(); NextState(3); RoundKeyC3(3); Words8();
    Step(W(0x18, 0x59, 0xfb, 0xc2), W(0x8a, 0x1c, 0x00, 0xa0), W(0x78, 0xed, 0x8a, 0xad), W(0xc4, 0x2f, 0x61, 0x09),
         W(0x16, 0x51, 0xa8, 0xcd), W(0x02, 0x44, 0xbe, 0xda), W(0x1a, 0x5d, 0xa4, 0xc1), W(0x06, 0x40, 0xba, 0xde));
  }

  lemma State4()
    ensures StateC3(4) ==
      Columns(W(0x1c, 0x05, 0xf2, 0x71), W(0xa4, 0x17, 0xe0, 0x4f),
              W(0xf9, 0x21, 0xc5, 0xc1), W(0x04, 0x70, 0x15, 0x54))
  {
    hide ExpandedWord, Rounds, Aes256.RoundKeys, AddBlock, MixBlock, ShiftBlock, SubBlock;
    State3(); NextState(4); RoundKeyC3(4); Words16();
    Step(W(0x97, 0x5c, 0x66, 0xc1), W(0xcb, 0x9f, 0x3f, 0xa8), W(0xa9, 0x3a, 0x28, 0xdf), W(0x8e, 0xe1, 0x0f, 0x63),
         W(0xae, 0x87, 0xdf, 0xf0), W(0x0f, 0xf1, 0x1b, 0x68), W(0xa6, 0x8e, 0xd5, 0xfb), W(0x03, 0xfc, 0x15, 0x67));
  }

  lemma State5()
    ensures StateC3(5) ==
      Columns(W(0xc3, 0x57, 0xaa, 0xe1), W(0x1b, 0x45, 0xb7, 0xb0),
              W(0xa2, 0xc7, 0xbd, 0x28), W(0xa8, 0xdc, 0x99, 0xfa))
  {
    hide ExpandedWord, Rounds, Aes256.RoundKeys, AddBlock, MixBlock, ShiftBlock, SubBlock;
    State4(); NextState(5); RoundKeyC3(5); Words16();
    Step(W(0x1c, 0x05, 0xf2, 0x71), W(0xa4, 0x17, 0xe0, 0x4f), W(0xf9, 0x21, 0xc5, 0xc1), W(0x04, 0x70, 0x15, 0x54),
         W(0x6d, 0xe1, 0xf1, 0x48), W(0x6f, 0xa5, 0x4f, 0x92), W(0x75, 0xf8, 0xeb, 0x53), W(0x73, 0xb8, 0x51, 0x8d));
  }

  lemma State6()
    ensures StateC3(6) ==
      Columns(W(0x7f, 0x07, 0x41, 0x43), W(0xcb, 0x4e, 0x24, 0x3e),
              W(0xc1, 0x0c, 0x81, 0x5d), W(0x83, 0x75, 0xd5, 0x4c))
  {
    hide ExpandedWord, Rounds, Aes256.RoundKeys, AddBlock, MixBlock, ShiftBlock, SubBlock;
    State5(); NextState(6); RoundKeyC3(6); Words24();
    Step(W(0xc3, 0x57, 0xaa, 0xe1), W(0x1b, 0x45, 0xb7, 0xb0), W(0xa2, 0xc7, 0xbd, 0x28), W(0xa8, 0xdc, 0x99, 0xfa),
         W(0xc6, 0x56, 0x82, 0x7f), W(0xc9, 0xa7, 0x99, 0x17), W(0x6f, 0x29, 0x4c, 0xec), W(0x6c, 0xd5, 0x59, 0x8b));
  }

  lemma State7()
    ensures StateC3(7) ==
      Columns(W(0xd6, 0x53, 0xa4, 0x69), W(0x6c, 0xa0, 0xbc, 0x0f),
              W(0x5a, 0xca, 0xab, 0x5d), W(0xb9, 0x6c, 0x5e, 0x7d))
  {
    hide ExpandedWord, Rounds, Aes256.RoundKeys, AddBlock, MixBlock, ShiftBlock, SubBlock;
    State6(); NextState(7); RoundKeyC3(7); Words24();
    Step(W(0x7f, 0x07, 0x41, 0x43), W(0xcb, 0x4e, 0x24, 0x3e), W(0xc1, 0x0c, 0x81, 0x5d), W(0x83, 0x75, 0xd5, 0x4c),
         W(0x3d, 0xe2, 0x3a, 0x75), W(0x52, 0x47, 0x75, 0xe7), W(0x27, 0xbf, 0x9e, 0xb4), W(0x54, 0x07, 0xcf, 0x39));
  }

  lemma State8()
    ensures StateC3(8) ==
      Columns(W(0x5a, 0xa8, 0x58, 0x39), W(0x5f, 0xd2, 0x8d, 0x7d),
              W(0x05, 0xe1, 0xa3, 0x88), W(0x68, 0xf3, 0xb9, 0xc5))
  {
    hide ExpandedWord, Rounds, Aes256.RoundKeys, AddBlock, MixBlock, ShiftBlock, SubBlock;
    State7(); NextState(8); RoundKeyC3(8); Words32();
    Step(W(0xd6, 0x53, 0xa4, 0x69), W(0x6c, 0xa0, 0xbc, 0x0f), W(0x5a, 0xca, 0xab, 0x5d), W(0xb9, 0x6c, 0x5e, 0x7d),
         W(0x0b, 0xdc, 0x90, 0x5f), W(0xc2, 0x7b, 0x09, 0x48), W(0xad, 0x52, 0x45, 0xa4), W(0xc1, 0x87, 0x1c, 0x2f));
  }

  lemma State9()
    ensures StateC3(9) ==
      Columns(W(0x4a, 0x82, 0x48, 0x51), W(0xc5, 0x7e, 0x7e, 0x47),
              W(0x64, 0x3d, 0xe5, 0x0c), W(0x2a, 0xf3, 0xe8, 0xc9))
  {
    hide ExpandedWord, Rounds, Aes256.RoundKeys, AddBlock, MixBlock, ShiftBlock, SubBlock;
    State8(); NextState(9); RoundKeyC3(9); Words32();
    Step(W(0x5a, 0xa8, 0x58, 0x39), W(0x5f, 0xd2, 0x8d, 0x7d), W(0x05, 0xe1, 0xa3, 0x88), W(0x68, 0xf3, 0xb9, 0xc5),
         W(0x45, 0xf5, 0xa6, 0x60), W(0x17, 0xb2, 0xd3, 0x87), W(0x30, 0x0d, 0x4d, 0x33), W(0x64, 0x0a, 0x82, 0x0a));
  }

  lemma State10()
    ensures StateC3(10) ==
      Columns(W(0xc1, 0x49, 0x07, 0xf6), W(0xca, 0x3b, 0x3a, 0xa0),
              W(0x70, 0xe9, 0xaa, 0x31), W(0x3b, 0x52, 0xb5, 0xec))
  {
    hide ExpandedWord, Rounds, Aes256.RoundKeys, AddBlock, MixBlock, ShiftBlock, SubBlock;
    State9(); NextState(10); RoundKeyC3(10); Words40();
    Step(W(0x4a, 0x82, 0x48, 0x51), W(0xc5, 0x7e, 0x7e, 0x47), W(0x64, 0x3d, 0xe5, 0x0c), W(0x2a, 0xf3, 0xe8, 0xc9),
         W(0x7c, 0xcf, 0xf7, 0x1c), W(0xbe, 0xb4, 0xfe, 0x54), W(0x13, 0xe6, 0xbb, 0xf0), W(0xd2, 0x61, 0xa7, 0xdf));
  }

  lemma State11()
    ensures StateC3(11) ==
      Columns(W(0x5f, 0x9c, 0x6a, 0xbf), W(0xba, 0xc6, 0x34, 0xaa),
              W(0x50, 0x40, 0x9f, 0xa7), W(0x66, 0x67, 0x76, 0x53))
  {
    hide ExpandedWord, Rounds, Aes256.RoundKeys, AddBlock, MixBlock, ShiftBlock, SubBlock;
    State10(); NextState(11); RoundKeyC3(11); Words40();
    Step(W(0xc1, 0x49, 0x07, 0xf6), W(0xca, 0x3b, 0x3a, 0xa0), W(0x70, 0xe9, 0xaa, 0x31), W(0x3b, 0x52, 0xb5, 0xec),
         W(0xf0, 0x1a, 0xfa, 0xfe), W(0xe7, 0xa8, 0x29, 0x79), W(0xd7, 0xa5, 0x64, 0x4a), W(0xb3, 0xaf, 0xe6, 0x40));
  }

  lemma State12()
    ensures StateC3(12) ==
      Columns(W(0x51, 0x66, 0x04, 0x95), W(0x43, 0x53, 0x95, 0x03),
              W(0x14, 0xfb, 0x86, 0xe4), W(0x01, 0x92, 0x25, 0x21))
  {
    hide ExpandedWord, Rounds, Aes256.RoundKeys, AddBlock, MixBlock, ShiftBlock, SubBlock;
    State11(); NextState(12); RoundKeyC3(12); Words48();
    Step(W(0x5f, 0x9c, 0x6a, 0xbf), W(0xba, 0xc6, 0x34, 0xaa), W(0x50, 0x40, 0x9f, 0xa7), W(0x66, 0x67, 0x76, 0x53),
         W(0x25, 0x41, 0xfe, 0x71), W(0x9b, 0xf5, 0x00, 0x25), W(0x88, 0x13, 0xbb, 0xd5), W(0x5a, 0x72, 0x1c, 0x0a));
  }

  lemma State13()
    ensures StateC3(13) ==
      Columns(W(0x62, 0x7b, 0xce, 0xb9), W(0x99, 0x9d, 0x5a, 0xaa),
              W(0xc9, 0x45, 0xec, 0xf4), W(0x23, 0xf5, 0x6d, 0xa5))
  {
    hide ExpandedWord, Rounds, Aes256.RoundKeys, AddBlock, MixBlock, ShiftBlock, SubBlock;
    State12(); NextState(13); RoundKeyC3(13); Words48();
    Step(W(0x51, 0x66, 0x04, 0x95), W(0x43, 0x53, 0x95, 0x03), W(0x14, 0xfb, 0x86, 0xe4), W(0x01, 0x92, 0x25, 0x21),
         W(0x4e, 0x5a, 0x66, 0x99), W(0xa9, 0xf2, 0x4f, 0xe0), W(0x7e, 0x57, 0x2b, 0xaa), W(0xcd, 0xf8, 0xcd, 0xea));
  }

  lemma NextState(n: nat)
    requires 0 < n < 15
    ensures StateC3(n) ==
      AddBlock(MixBlock(ShiftBlock(SubBlock(StateC3(n - 1), false), false), false), Aes256.RoundKeys(KeyC3())[n])
  {
    hide ExpandedWord, Aes256.RoundKeys, AddBlock, MixBlock, ShiftBlock, SubBlock;
  }

  /** The ciphertext of appendix C.3. */
  lemma CipherC3()
    ensures Aes256.EncryptBlock(KeyC3(), PlainC3()) == Message(W(0x8e, 0xa2, 0xb7, 0xca), W(0x51, 0x67, 0x45, 0xbf),
              W(0xea, 0xfc, 0x49, 0x90), W(0x4b, 0x49, 0x60, 0x89))
  {
    hide ExpandedWord, Rounds, Aes256.RoundKeys, AddBlock, ShiftBlock, SubBlock, Transposed, Message, Columns;
    State13(); RoundKeyC3(14); Words56();
    LastStep(W(0x62, 0x7b, 0xce, 0xb9), W(0x99, 0x9d, 0x5a, 0xaa), W(0xc9, 0x45, 0xec, 0xf4), W(0x23, 0xf5, 0x6d, 0xa5),
             W(0x24, 0xfc, 0x79, 0xcc), W(0xbf, 0x09, 0x79, 0xe9), W(0x37, 0x1a, 0xc2, 0x3c), W(0x6d, 0x68, 0xde, 0x36));
    LoadedColumns(W(0x8e, 0xa2, 0xb7, 0xca), W(0x51, 0x67, 0x45, 0xbf), W(0xea, 0xfc, 0x49, 0x90), W(0x4b, 0x49, 0x60, 0x89));
  }

  /** And back. */
  lemma PlainOfC3()
    ensures Aes256.DecryptBlock(KeyC3(), Message(W(0x8e, 0xa2, 0xb7, 0xca), W(0x51, 0x67, 0x45, 0xbf),
              W(0xea, 0xfc, 0x49, 0x90), W(0x4b, 0x49, 0x60, 0x89))) == PlainC3()
  {
    hide Aes256.EncryptBlock, Aes256.DecryptBlock, Message, PlainC3, KeyC3;
    CipherC3();
    Aes256.BlockRoundTrip(KeyC3(), PlainC3());
  }
}
