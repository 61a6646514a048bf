/** The key schedule on the slices, against the word recurrence of section 5.2 of FIPS 197. */
module AesKeySchedule {
  import opened AesWords
  import opened AesBytes
  import opened AesState
  import opened AesMix
  import opened AesColumns
  import opened AesRounds
  import opened AesLoad
  import opened AesCipher
  import Numbers

  // --- The recurrence

  /** One word of the expanded key, a column of the state. */
  datatype Column = Column(b0: Byte, b1: Byte, b2: Byte, b3: Byte)

  function RotWord(w: Column): Column {
    Column(w.b1, w.b2, w.b3, w.b0)
  }

  function SubWord(w: Column): Column {
    Column(Sub(w.b0), Sub(w.b1), Sub(w.b2), Sub(w.b3))
  }

  function AddWord(v: Column, w: Column): Column {
    Column(Sum(v.b0, w.b0), Sum(v.b1, w.b1), Sum(v.b2, w.b2), Sum(v.b3, w.b3))
  }

  /** x to the power n in GF(2^8). */
  function Power(n: int): Byte {
    if n <= 0 then Byte(1) else XTime(Power(n - 1))
  }

  function Rcon(j: nat): Column
    requires j > 0
  {
    Column(Power(j - 1), Byte(0), Byte(0), Byte(0))
  }

  /** What section 5.2 does to the previous word before adding it. */
  function Transformed(w: Column, nk: nat, i: nat): Column
    requires 0 < nk <= i
  {
    if i % nk == 0 then AddWord(SubWord(RotWord(w)), Rcon(i / nk))
    else if nk > 6 && i % nk == 4 then SubWord(w)
    else w
  }

  /** Word i of the expanded key. */
  function ExpandedWord(key: seq<Byte>, nk: nat, i: nat): Column
    requires nk > 0 && |key| == 4 * nk
  {
    if i < nk then Column(key[4 * i], key[4 * i + 1], key[4 * i + 2], key[4 * i + 3])
    else AddWord(ExpandedWord(key, nk, i - nk), Transformed(ExpandedWord(key, nk, i - 1), nk, i))
  }

  /** Section 5.2 for one word, byte by byte: the key itself, or the word nk places before plus
  what the previous word turns into. */
  lemma NextExpanded(key: seq<Byte>, nk: nat, i: nat)
    requires nk > 0 && |key| == 4 * nk
    ensures i < nk ==> ExpandedWord(key, nk, i) == Column(key[4 * i], key[4 * i + 1], key[4 * i + 2], key[4 * i + 3])
    ensures i >= nk ==>
      var u, w, v := ExpandedWord(key, nk, i - nk), ExpandedWord(key, nk, i - 1), ExpandedWord(key, nk, i);
      if i % nk == 0 then
        v == Column(Sum(u.b0, Sum(Sub(w.b1), Power(i / nk - 1))), Sum(u.b1, Sub(w.b2)), Sum(u.b2, Sub(w.b3)), Sum(u.b3, Sub(w.b0)))
      else if nk > 6 && i % nk == 4 then
        v == Column(Sum(u.b0, Sub(w.b0)), Sum(u.b1, Sub(w.b1)), Sum(u.b2, Sub(w.b2)), Sum(u.b3, Sub(w.b3)))
      else
        v == Column(Sum(u.b0, w.b0), Sum(u.b1, w.b1), Sum(u.b2, w.b2), Sum(u.b3, w.b3))
  {
    hide Sub, Sum, Power;
    if i >= nk && i % nk == 0 {
      WholeTurn(i, nk);
      var w := ExpandedWord(key, nk, i - 1);
      PlusNothing(Sub(w.b2));
      PlusNothing(Sub(w.b3));
      PlusNothing(Sub(w.b0));
    }
  }

  lemma PlusNothing(x: Byte)
    ensures Sum(x, Byte(0)) == x
  {}

  /** The round constants of section 5.2 of FIPS 197. */
  lemma RoundConstants()
    ensures Power(0) == Byte(0x01) && Power(1) == Byte(0x02) && Power(2) == Byte(0x04) && Power(3) == Byte(0x08)
    ensures Power(4) == Byte(0x10) && Power(5) == Byte(0x20) && Power(6) == Byte(0x40) && Power(7) == Byte(0x80)
    ensures Power(8) == Byte(0x1b) && Power(9) == Byte(0x36)
  {
    assert Power(1) == XTime(Power(0)) && Power(2) == XTime(Power(1)) && Power(3) == XTime(Power(2));
    assert Power(4) == XTime(Power(3)) && Power(5) == XTime(Power(4)) && Power(6) == XTime(Power(5));
    assert Power(7) == XTime(Power(6)) && Power(8) == XTime(Power(7)) && Power(9) == XTime(Power(8));
  }

  /** The column c of a state. */
  function ColumnOf(w: seq<Word>, c: nat): Column
    requires |w| == 8
  {
    Column(Lane(w, c), Lane(w, 4 + c), Lane(w, 8 + c), Lane(w, 12 + c))
  }

  // --- Columns of slices

  function Turned(x: Word, c: nat): Word
    decreases c
  {
    if c == 0 then x else Turned(Turn(x), c - 1)
  }

  lemma {:induction false} TurnedLane(x: Word, c: nat, k: nat)
    ensures At(Turned(x, c), k) == At(x, k + c)
    decreases c
  {
    hide Turn, Low;
    if c > 0 {
      TurnedLane(Turn(x), c - 1, k);
    }
  }

  /** Column c of a slice, moved to column 0. */
  function FirstColumn(w: Word, c: nat): Word
    requires c < 4
  {
    Word((w.v >> c) & 0x1111)
  }

  /** Column 0 of a slice alone, moved to column c. */
  function MovedColumn(w: Word, c: nat): Word
    requires c < 4
  {
    Word((w.v & 0x1111) << c)
  }

  lemma TurnOnce(v: bv16)
    ensures Turn(Word(v)) == Word((v >> 1) | (v << 15))
  {}

  lemma TurnAgain(v: bv16)
    ensures Turn(Word((v >> 1) | (v << 15))) == Word((v >> 2) | (v << 14))
  {}

  lemma TurnOnceMore(v: bv16)
    ensures Turn(Word((v >> 2) | (v << 14))) == Word((v >> 3) | (v << 13))
  {}

  /** The words turned by at most three lanes. */
  lemma TurnedBits(v: bv16)
    ensures Turned(Word(v), 0) == Word(v)
    ensures Turned(Word(v), 1) == Word((v >> 1) | (v << 15))
    ensures Turned(Word(v), 2) == Word((v >> 2) | (v << 14))
    ensures Turned(Word(v), 3) == Word((v >> 3) | (v << 13))
  {
    TurnOnce(v);
    TurnAgain(v);
    TurnOnceMore(v);
    hide Turn;
    var w := Word(v);
    assert Turned(w, 1) == Turned(Turn(w), 0);
    assert Turned(w, 2) == Turned(Turn(w), 1) == Turned(Turn(Turn(w)), 0);
    assert Turned(w, 3) == Turned(Turn(w), 2) == Turned(Turn(Turn(w)), 1) == Turned(Turn(Turn(Turn(w))), 0);
  }

  lemma FirstColumn0(v: bv16)
    ensures FirstColumn(Word(v), 0) == And(Word(v), Word(0x1111))
  {}

  lemma FirstColumn1(v: bv16)
    ensures FirstColumn(Word(v), 1) == And(Word((v >> 1) | (v << 15)), Word(0x1111))
  {}

  lemma FirstColumn2(v: bv16)
    ensures FirstColumn(Word(v), 2) == And(Word((v >> 2) | (v << 14)), Word(0x1111))
  {}

  lemma FirstColumn3(v: bv16)
    ensures FirstColumn(Word(v), 3) == And(Word((v >> 3) | (v << 13)), Word(0x1111))
  {}

  lemma MovedColumn0(v: bv16)
    ensures Word(((v & 0x1111) << 0)) == And(Word(v), Word(0x1111))
  {}

  lemma MovedColumn1(v: bv16)
    ensures Word((((v & 0x1111) << 1) >> 1) | (((v & 0x1111) << 1) << 15)) == And(Word(v), Word(0x1111))
  {}

  lemma MovedColumn2(v: bv16)
    ensures Word((((v & 0x1111) << 2) >> 2) | (((v & 0x1111) << 2) << 14)) == And(Word(v), Word(0x1111))
  {}

  lemma MovedColumn3(v: bv16)
    ensures Word((((v & 0x1111) << 3) >> 3) | (((v & 0x1111) << 3) << 13)) == And(Word(v), Word(0x1111))
  {}

  lemma FirstColumnTurned(w: Word, c: nat)
    requires c < 4
    ensures FirstColumn(w, c) == And(Turned(w, c), Word(0x1111))
  {
    TurnedBits(w.v);
    FirstColumn0(w.v);
    FirstColumn1(w.v);
    FirstColumn2(w.v);
    FirstColumn3(w.v);
    hide Turned, FirstColumn, And;
  }

  lemma MovedColumnTurned(w: Word, c: nat)
    requires c < 4
    ensures Turned(MovedColumn(w, c), c) == And(w, Word(0x1111))
  {
    TurnedBits((w.v & 0x1111) << 0);
    TurnedBits((w.v & 0x1111) << 1);
    TurnedBits((w.v & 0x1111) << 2);
    TurnedBits((w.v & 0x1111) << 3);
    MovedColumn0(w.v);
    MovedColumn1(w.v);
    MovedColumn2(w.v);
    MovedColumn3(w.v);
    assert MovedColumn(w, 0) == Word((w.v & 0x1111) << 0) && MovedColumn(w, 1) == Word((w.v & 0x1111) << 1);
    assert MovedColumn(w, 2) == Word((w.v & 0x1111) << 2) && MovedColumn(w, 3) == Word((w.v & 0x1111) << 3);
    hide Turned, MovedColumn, And;
  }

  lemma ColumnMask(k: nat)
    requires k < 16
    ensures At(Word(0x1111), k) == Wire(k % 4 == 0)
  {
    LiteralBits(Word(0x1111));
    ColumnMaskTests();
    hide Bit, Test;
  }

  lemma ColumnMaskTests()
    ensures
      var m := Word(0x1111);
      && Test(m, 0x0001) && !Test(m, 0x0002) && !Test(m, 0x0004) && !Test(m, 0x0008)
      && Test(m, 0x0010) && !Test(m, 0x0020) && !Test(m, 0x0040) && !Test(m, 0x0080)
      && Test(m, 0x0100) && !Test(m, 0x0200) && !Test(m, 0x0400) && !Test(m, 0x0800)
      && Test(m, 0x1000) && !Test(m, 0x2000) && !Test(m, 0x4000) && !Test(m, 0x8000)
  {}

  lemma MaskedLane(x: Wire)
    ensures AndBit(x, Wire(true)) == x && AndBit(x, Wire(false)) == Wire(false)
  {}

  lemma FirstColumnLane(w: Word, c: nat, k: nat)
    requires c < 4 && k < 16
    ensures At(FirstColumn(w, c), k) == if k % 4 == 0 then At(w, k + c) else Wire(false)
  {
    hide At, And, AndBit, FirstColumn, Turned;
    FirstColumnTurned(w, c);
    GateLaws();
    TurnedLane(w, c, k);
    ColumnMask(k);
    MaskedLane(At(w, k + c));
  }

  lemma MovedColumnLane(w: Word, c: nat, k: nat)
    requires c < 4 && k < 16
    ensures At(MovedColumn(w, c), k) == if k % 4 == c then At(w, k - c) else Wire(false)
  {
    hide At, And, AndBit, MovedColumn, Turned;
    MovedColumnTurned(w, c);
    GateLaws();
    var j := if c <= k then k - c else k + 16 - c;
    TurnedLane(MovedColumn(w, c), c, j);
    RotatedLane(MovedColumn(w, c), k);
    ColumnMask(j);
    MaskedLane(At(w, j));
  }

  // --- The steps of the schedule

  lemma PackEither(x: Bits, y: Bits, z: Bits)
    requires z == Bits(OrBit(x.b0, y.b0), OrBit(x.b1, y.b1), OrBit(x.b2, y.b2), OrBit(x.b3, y.b3),
                       OrBit(x.b4, y.b4), OrBit(x.b5, y.b5), OrBit(x.b6, y.b6), OrBit(x.b7, y.b7))
    ensures Pack(z) == Either(Pack(x), Pack(y))
  {
    hide OrBit, Pack, Unpack, Tap, Either;
    UnpackPack(y);
    Taps(Pack(y));
    LitBits(x, Pack(y), z);
  }

  /** One column of a state, alone in column 0. */
  method GetOneColumn(s: array<Word>, a: array<Word>, c: nat)
    requires s.Length == 8 && a.Length == 8 && s != a && c < 4
    modifies s
    ensures ColumnOf(s[..], 0) == ColumnOf(a[..], c)
  {
    hide FirstColumn, At, Pack;
    for b := 0 to 8
      invariant forall j :: 0 <= j < b ==> s[j] == FirstColumn(a[j], c)
    {
      s[b] := FirstColumn(a[b], c);
    }
    forall j, k: nat | 0 <= j < 8 && k < 16
      ensures At(s[j], k) == if k % 4 == 0 then At(a[j], k + c) else Wire(false)
    {
      FirstColumnLane(a[j], c, k);
    }
  }

  /** Column 0 of s joined into column c of r, the other columns kept. */
  ghost predicate Stored(r: seq<Word>, s: seq<Word>, after: seq<Word>, c: nat)
    requires |r| == |s| == |after| == 8
  {
    forall k: nat | k < 16 ::
      Lane(after, k) == if k % 4 == c then Either(Lane(r, k), Lane(s, k - c)) else Lane(r, k)
  }

  method KeySetupColumnMix(s: array<Word>, r: array<Word>, a: array<Word>, c1: nat, c2: nat)
    requires s.Length == 8 && r.Length == 8 && a.Length == 8 && s != r && s != a && r != a
    requires c1 < 4 && c2 < 4
    modifies s, r
    ensures ColumnOf(s[..], 0) == AddWord(old(ColumnOf(s[..], 0)), ColumnOf(a[..], c2))
    ensures Stored(old(r[..]), s[..], r[..], c1)
  {
    hide FirstColumn, MovedColumn, Xor, Or, Lane, AddWord;
    for b := 0 to 8
      invariant forall j :: 0 <= j < b ==>
        s[j] == Xor(old(s[j]), FirstColumn(a[j], c2)) && r[j] == Or(old(r[j]), MovedColumn(s[j], c1))
      invariant forall j :: b <= j < 8 ==> s[j] == old(s[j]) && r[j] == old(r[j])
    {
      s[b] := Xor(s[b], FirstColumn(a[b], c2));
      r[b] := Or(r[b], MovedColumn(s[b], c1));
    }
    AddedColumn(old(s[..]), a[..], s[..], c2);
    StoredColumn(old(r[..]), s[..], r[..], c1);
  }

  lemma AddedColumn(v: seq<Word>, a: seq<Word>, w: seq<Word>, c: nat)
    requires |v| == |a| == |w| == 8 && c < 4
    requires forall j :: 0 <= j < 8 ==> w[j] == Xor(v[j], FirstColumn(a[j], c))
    ensures ColumnOf(w, 0) == AddWord(ColumnOf(v, 0), ColumnOf(a, c))
  {
    hide FirstColumn, At, Pack, Xor, XorBit, Sum;
    GateLaws();
    forall k: nat | k == 0 || k == 4 || k == 8 || k == 12
      ensures Lane(w, k) == Sum(Lane(v, k), Lane(a, k + c))
    {
      forall j | 0 <= j < 8 ensures At(FirstColumn(a[j], c), k) == At(a[j], k + c) {
        FirstColumnLane(a[j], c, k);
      }
      PackSum(LaneOf(v[0], v[1], v[2], v[3], v[4], v[5], v[6], v[7], k),
              LaneOf(a[0], a[1], a[2], a[3], a[4], a[5], a[6], a[7], k + c));
    }
  }

  lemma StoredColumn(r: seq<Word>, s: seq<Word>, w: seq<Word>, c: nat)
    requires |r| == |s| == |w| == 8 && c < 4
    requires forall j :: 0 <= j < 8 ==> w[j] == Or(r[j], MovedColumn(s[j], c))
    ensures Stored(r, s, w, c)
  {
    hide MovedColumn, At, Pack, Or, OrBit, Either;
    GateLaws();
    forall k: nat | k < 16
      ensures Lane(w, k) == if k % 4 == c then Either(Lane(r, k), Lane(s, k - c)) else Lane(r, k)
    {
      forall j | 0 <= j < 8
        ensures At(w[j], k) == if k % 4 == c then OrBit(At(r[j], k), At(s[j], k - c)) else At(r[j], k)
      {
        MovedColumnLane(s[j], c, k);
        OrFalse(At(r[j], k));
      }
      if k % 4 == c {
        PackEither(LaneOf(r[0], r[1], r[2], r[3], r[4], r[5], r[6], r[7], k),
                   LaneOf(s[0], s[1], s[2], s[3], s[4], s[5], s[6], s[7], k - c),
                   LaneOf(w[0], w[1], w[2], w[3], w[4], w[5], w[6], w[7], k));
      }
    }
  }

  method KeySetupTransform(s: array<Word>, r: array<Word>)
    requires s.Length == 8 && r.Length == 8 && s != r
    modifies s
    ensures ColumnOf(s[..], 0) == AddWord(RotWord(old(ColumnOf(s[..], 0))), ColumnOf(r[..], 0))
  {
    hide Rot1, Xor, Lane, AddWord, RotWord;
    for b := 0 to 8
      invariant forall j :: 0 <= j < 8 ==> s[j] == if j < b then Xor(Rot1(old(s[j])), r[j]) else old(s[j])
    {
      s[b] := Xor(Rot1(s[b]), r[b]);
    }
    TransformedColumn(old(s[..]), r[..], s[..]);
  }

  lemma TransformedColumn(v: seq<Word>, r: seq<Word>, w: seq<Word>)
    requires |v| == |r| == |w| == 8
    requires forall j :: 0 <= j < 8 ==> w[j] == Xor(Rot1(v[j]), r[j])
    ensures ColumnOf(w, 0) == AddWord(RotWord(ColumnOf(v, 0)), ColumnOf(r, 0))
  {
    hide At, Pack, Xor, XorBit, Sum, Rot1;
    GateLaws();
    RowLaws();
    forall k: nat | k < 16
      ensures Lane(w, k) == Sum(Lane(v, k + 4), Lane(r, k))
    {
      PackSum(LaneOf(v[0], v[1], v[2], v[3], v[4], v[5], v[6], v[7], k + 4),
              LaneOf(r[0], r[1], r[2], r[3], r[4], r[5], r[6], r[7], k));
    }
    LaneAround(v, 12, 16);
  }

  /** Every lane times x. */
  method MultX(s: array<Word>)
    requires s.Length == 8
    modifies s
    ensures forall k: nat :: Lane(s[..], k) == XTime(Lane(old(s[..]), k))
  {
    hide Xor;
    ghost var v := s[..];
    var top := s[7];
    s[7] := s[6];
    s[6] := s[5];
    s[5] := s[4];
    s[4] := Xor(s[3], top);
    s[3] := Xor(s[2], top);
    s[2] := s[1];
    s[1] := Xor(s[0], top);
    s[0] := top;
    DoubledLanes(v, s[..]);
  }

  lemma DoubledLanes(v: seq<Word>, w: seq<Word>)
    requires |v| == |w| == 8
    requires w[0] == v[7] && w[1] == Xor(v[0], v[7]) && w[2] == v[1] && w[3] == Xor(v[2], v[7])
    requires w[4] == Xor(v[3], v[7]) && w[5] == v[4] && w[6] == v[5] && w[7] == v[6]
    ensures forall k: nat :: Lane(w, k) == XTime(Lane(v, k))
  {
    hide At, Pack, Xor, XorBit, XTime;
    GateLaws();
    forall k: nat ensures Lane(w, k) == XTime(Lane(v, k)) {
      var x := LaneOf(v[0], v[1], v[2], v[3], v[4], v[5], v[6], v[7], k);
      XorCommutes(x.b7, x.b0);
      XorCommutes(x.b7, x.b2);
      XorCommutes(x.b7, x.b3);
      PackDouble(x);
    }
  }

  lemma XorCommutes(x: Wire, y: Wire)
    ensures XorBit(x, y) == XorBit(y, x)
  {}

  // --- The whole schedule

  /** The states are eight slices each, no two the same object. */
  ghost predicate Separate(rounds: seq<array<Word>>) {
    && Schedule(rounds)
    && (forall i, j :: 0 <= i < j < |rounds| ==> rounds[i] != rounds[j])
  }

  ghost function Snapshot(rounds: seq<array<Word>>): (w: seq<seq<Word>>)
    requires Schedule(rounds)
    reads rounds
    ensures |w| == |rounds| && forall i :: 0 <= i < |w| ==> w[i] == rounds[i][..]
  {
    seq(|rounds|, i requires 0 <= i < |rounds| reads rounds => rounds[i][..])
  }

  const NoWord := Column(Byte(0), Byte(0), Byte(0), Byte(0))

  ghost predicate Wide(w: seq<seq<Word>>) {
    forall i :: 0 <= i < |w| ==> |w[i]| == 8
  }

  /** The first i words are in place and the rest is empty. */
  ghost predicate Expanded(w: seq<seq<Word>>, key: seq<Byte>, nk: nat, i: nat)
    requires Wide(w) && nk > 0 && |key| == 4 * nk
  {
    forall j: nat | j < 4 * |w| ::
      ColumnOf(w[j / 4], j % 4) == if j < i then ExpandedWord(key, nk, j) else NoWord
  }

  /** One more word, written into its own column. */
  lemma OneMoreWord(w: seq<seq<Word>>, x: seq<seq<Word>>, key: seq<Byte>, nk: nat, i: nat)
    requires Wide(w) && Wide(x) && |x| == |w| && nk > 0 && |key| == 4 * nk && i < 4 * |w|
    requires Expanded(w, key, nk, i)
    requires forall n :: 0 <= n < |w| && n != i / 4 ==> x[n] == w[n]
    requires forall k: nat | k < 16 && k % 4 != i % 4 :: Lane(x[i / 4], k) == Lane(w[i / 4], k)
    requires ColumnOf(x[i / 4], i % 4) == ExpandedWord(key, nk, i)
    ensures Expanded(x, key, nk, i + 1)
  {
    hide Lane, ExpandedWord;
    forall j: nat | j < 4 * |x|
      ensures ColumnOf(x[j / 4], j % 4) == if j < i + 1 then ExpandedWord(key, nk, j) else NoWord
    {
      if j == i {
      } else if j / 4 != i / 4 {
        assert x[j / 4] == w[j / 4];
      } else {
        assert j % 4 != i % 4;
        OtherColumn(w[i / 4], x[i / 4], i % 4, j % 4);
      }
    }
  }

  lemma OtherColumn(v: seq<Word>, w: seq<Word>, c: nat, d: nat)
    requires |v| == |w| == 8 && c < 4 && d < 4 && c != d
    requires forall k: nat | k < 16 && k % 4 != c :: Lane(w, k) == Lane(v, k)
    ensures ColumnOf(w, d) == ColumnOf(v, d)
  {
    hide Lane;
    assert d % 4 == d && (4 + d) % 4 == d && (8 + d) % 4 == d && (12 + d) % 4 == d;
  }

  lemma EmptyWord(w: seq<Word>, k: nat)
    requires |w| == 8
    requires forall j :: 0 <= j < 8 ==> w[j] == Word(0)
    ensures Lane(w, k) == Byte(0)
  {
    hide At, Pack;
    ZeroWord(k);
    EmptyLane();
  }

  /** All states emptied. */
  method ClearRounds(rounds: seq<array<Word>>)
    requires Separate(rounds)
    modifies rounds
    ensures forall n, k: nat | 0 <= n < |rounds| :: Lane(rounds[n][..], k) == Byte(0)
  {
    hide Lane;
    for i := 0 to |rounds|
      invariant forall n, b :: 0 <= n < i && 0 <= b < 8 ==> rounds[n][b] == Word(0)
    {
      for b := 0 to 8
        invariant forall n, b' :: 0 <= n < i && 0 <= b' < 8 ==> rounds[n][b'] == Word(0)
        invariant forall b' :: 0 <= b' < b ==> rounds[i][b'] == Word(0)
      {
        rounds[i][b] := Word(0);
      }
    }
    forall n, k: nat | 0 <= n < |rounds| ensures Lane(rounds[n][..], k) == Byte(0) {
      EmptyWord(rounds[n][..], k);
    }
  }

  /** Four bytes down one empty column of a state. */
  method LoadColumn(s: array<Word>, data: seq<Byte>, c: nat)
    requires s.Length == 8 && |data| == 4 && c < 4
    requires ColumnOf(s[..], c) == NoWord
    modifies s
    ensures ColumnOf(s[..], c) == Column(data[0], data[1], data[2], data[3])
    ensures forall k: nat | k < 16 && k % 4 != c :: Lane(s[..], k) == Lane(old(s[..]), k)
  {
    hide Lane, Either;
    ghost var before := s[..];
    for r := 0 to 4
      invariant forall k: nat | k < 16 ::
        Lane(s[..], k) == if k % 4 == c && k / 4 < r then data[k / 4] else Lane(before, k)
    {
      LoadByte(s, data[r], r, c);
      EitherEmpty(data[r]);
      assert Lane(before, r * 4 + c) == Byte(0);
    }
    assert c % 4 == c && (4 + c) % 4 == c && (8 + c) % 4 == c && (12 + c) % 4 == c;
  }

  /** The words of the key itself. */
  method LoadKey(rounds: seq<array<Word>>, key: seq<Byte>, nk: nat)
    requires Separate(rounds) && 0 < nk <= 4 * |rounds| && |key| == 4 * nk
    requires Expanded(Snapshot(rounds), key, nk, 0)
    modifies rounds
    ensures Expanded(Snapshot(rounds), key, nk, nk)
  {
    hide ColumnOf, Lane, Expanded;
    for i := 0 to nk
      invariant Expanded(Snapshot(rounds), key, nk, i)
    {
      ghost var before := Snapshot(rounds);
      NextIsEmpty(before, key, nk, i);
      LoadColumn(rounds[i / 4], key[4 * i..4 * i + 4], i % 4);
      OneMoreWord(before, Snapshot(rounds), key, nk, i);
    }
  }

  lemma NextIsEmpty(w: seq<seq<Word>>, key: seq<Byte>, nk: nat, i: nat)
    requires Wide(w) && nk > 0 && |key| == 4 * nk && i < 4 * |w|
    requires Expanded(w, key, nk, i)
    ensures ColumnOf(w[i / 4], i % 4) == NoWord
  {
    hide ColumnOf;
  }

  /** The round constant as the code keeps it: one state whose first column holds
  the current power of x. */
  ghost predicate HoldsPower(rcon: seq<Word>, n: nat)
    requires |rcon| == 8
  {
    ColumnOf(rcon, 0) == Column(Power(n), Byte(0), Byte(0), Byte(0))
  }

  lemma PowerColumn(v: seq<Word>, n: nat)
    requires |v| == 8 && HoldsPower(v, n)
    ensures ColumnOf(v, 0) == Rcon(n + 1)
  {
    hide ColumnOf;
  }

  lemma PowerStep(v: seq<Word>, w: seq<Word>, n: nat)
    requires |v| == |w| == 8
    requires HoldsPower(v, n)
    requires forall k: nat :: Lane(w, k) == XTime(Lane(v, k))
    ensures HoldsPower(w, n + 1)
  {
    assert XTime(Byte(0)) == Byte(0);
    hide Lane, XTime;
  }

  method InitialRcon() returns (rcon: array<Word>)
    ensures fresh(rcon) && rcon.Length == 8 && HoldsPower(rcon[..], 0)
  {
    hide Lane;
    rcon := new Word[8](i => Word(0));
    forall k: nat ensures Lane(rcon[..], k) == Byte(0) {
      EmptyWord(rcon[..], k);
    }
    ghost var empty := rcon[..];
    rcon[0] := Word(1);
    FirstPower(empty, rcon[..]);
  }

  lemma FirstPower(v: seq<Word>, w: seq<Word>)
    requires |v| == |w| == 8
    requires forall j :: 0 <= j < 8 ==> v[j] == Word(0)
    requires w[0] == Word(1) && forall j :: 1 <= j < 8 ==> w[j] == Word(0)
    ensures HoldsPower(w, 0)
  {
    ZeroWord(0);
    ZeroWord(4);
    ZeroWord(8);
    ZeroWord(12);
    Masks();
    MaskLane(0, 0);
    MaskLane(0, 4);
    MaskLane(0, 8);
    MaskLane(0, 12);
    hide At, Mask;
    OneBits();
    EmptyLane();
    hide Pack;
  }

  lemma OneBits()
    ensures
      var z := Wire(false);
      Pack(Bits(Wire(true), z, z, z, z, z, z, z)) == Byte(1)
  {}

  /** The round constant that the next multiple of nk from i on will use. */
  ghost predicate RconFor(rcon: seq<Word>, nk: nat, i: nat)
    requires |rcon| == 8 && 0 < nk && 0 < i
  {
    HoldsPower(rcon, (i - 1) / nk)
  }

  /** How far word i is from the last multiple of nk, which is what `pos` counts. */
  ghost function Phase(i: nat, nk: nat): nat
    requires nk > 0
  {
    i % nk
  }

  /** The word before word i, brought to what section 5.2 adds to word i - nk. */
  method TransformColumn(column: array<Word>, rcon: array<Word>, nk: nat, pos: nat, ghost i: nat)
    requires column.Length == 8 && rcon.Length == 8 && column != rcon
    requires 0 < nk <= i && pos == Phase(i, nk) && RconFor(rcon[..], nk, i)
    modifies column, rcon
    ensures ColumnOf(column[..], 0) == Transformed(old(ColumnOf(column[..], 0)), nk, i)
    ensures RconFor(rcon[..], nk, i + 1)
  {
    hide Lane, Sub, HoldsPower;
    if pos == 0 {
      ghost var word := ColumnOf(column[..], 0);
      SubBytes(column, false);
      assert ColumnOf(column[..], 0) == SubWord(word);
      KeySetupTransform(column, rcon);
      ghost var power := rcon[..];
      MultX(rcon);
      PowerStep(power, rcon[..], (i - 1) / nk);
      WholeTurn(i, nk);
      PowerColumn(power, (i - 1) / nk);
      assert ColumnOf(power, 0) == Rcon(i / nk);
    } else {
      PartTurn(i, nk);
      if nk > 6 && pos == 4 {
        SubBytes(column, false);
      }
    }
  }

  lemma WholeTurn(i: nat, nk: nat)
    requires 0 < nk <= i && i % nk == 0
    ensures i / nk > 0 && (i - 1) / nk == i / nk - 1
  {
    var q := i / nk;
    assert i - 1 == (q - 1) * nk + (nk - 1);
    Numbers.DivModUnique(i - 1, nk, q - 1, nk - 1);
  }

  lemma PartTurn(i: nat, nk: nat)
    requires 0 < nk <= i && i % nk != 0
    ensures (i - 1) / nk == i / nk
  {
    Numbers.DivModUnique(i - 1, nk, i / nk, i % nk - 1);
  }

  /** Row r of a word. */
  function RowByte(w: Column, r: nat): Byte
    requires r < 4
  {
    if r == 0 then w.b0 else if r == 1 then w.b1 else if r == 2 then w.b2 else w.b3
  }

  /** Round key n: words 4n to 4n + 3 as the columns of a block. */
  function RoundKey(key: seq<Byte>, nk: nat, n: nat): Block
    requires nk > 0 && |key| == 4 * nk
  {
    seq(16, k requires 0 <= k < 16 => RowByte(ExpandedWord(key, nk, 4 * n + k % 4), k / 4))
  }

  lemma FirstRcon(rcon: seq<Word>, nk: nat)
    requires |rcon| == 8 && nk > 0 && HoldsPower(rcon, 0)
    ensures RconFor(rcon, nk, nk)
  {
    hide HoldsPower;
    Numbers.DivModUnique(nk - 1, nk, 0, nk - 1);
  }

  lemma NothingExpanded(w: seq<seq<Word>>, key: seq<Byte>, nk: nat)
    requires Wide(w) && nk > 0 && |key| == 4 * nk
    requires forall n, k: nat | 0 <= n < |w| :: Lane(w[n], k) == Byte(0)
    ensures Expanded(w, key, nk, 0)
  {
    hide Lane;
  }

  lemma LatestWord(w: seq<seq<Word>>, key: seq<Byte>, nk: nat, i: nat, j: nat)
    requires Wide(w) && nk > 0 && |key| == 4 * nk && j < i <= 4 * |w|
    requires Expanded(w, key, nk, i)
    ensures ColumnOf(w[j / 4], j % 4) == ExpandedWord(key, nk, j)
  {
    hide ColumnOf, ExpandedWord;
  }

  lemma NextPosition(i: nat, nk: nat)
    requires nk > 0
    ensures Phase(i + 1, nk) == if Phase(i, nk) + 1 == nk then 0 else Phase(i, nk) + 1
    ensures Phase(nk, nk) == 0
  {
    var q, p := i / nk, i % nk;
    assert i == q * nk + p;
    if p + 1 == nk {
      assert i + 1 == (q + 1) * nk;
      Numbers.DivModUnique(i + 1, nk, q + 1, 0);
    } else {
      Numbers.DivModUnique(i + 1, nk, q, p + 1);
    }
  }

  /** The word just computed, stored into its empty column. */
  lemma NextWord(w: seq<seq<Word>>, x: seq<seq<Word>>, column: seq<Word>, key: seq<Byte>, nk: nat, i: nat)
    requires Wide(w) && Wide(x) && |x| == |w| && |column| == 8 && nk > 0 && |key| == 4 * nk && nk <= i < 4 * |w|
    requires Expanded(w, key, nk, i)
    requires ColumnOf(column, 0) == ExpandedWord(key, nk, i)
    requires forall n :: 0 <= n < |w| && n != i / 4 ==> x[n] == w[n]
    requires Stored(w[i / 4], column, x[i / 4], i % 4)
    ensures Expanded(x, key, nk, i + 1)
  {
    hide Lane, ExpandedWord, Expanded, Stored;
    NextIsEmpty(w, key, nk, i);
    StoredInEmpty(w[i / 4], column, x[i / 4], i % 4);
    OneMoreWord(w, x, key, nk, i);
  }

  lemma StoredInEmpty(r: seq<Word>, s: seq<Word>, after: seq<Word>, c: nat)
    requires |r| == |s| == |after| == 8 && c < 4
    requires Stored(r, s, after, c) && ColumnOf(r, c) == NoWord
    ensures ColumnOf(after, c) == ColumnOf(s, 0)
    ensures forall k: nat | k < 16 && k % 4 != c :: Lane(after, k) == Lane(r, k)
  {
    hide Lane, Either;
    assert c % 4 == c && (4 + c) % 4 == c && (8 + c) % 4 == c && (12 + c) % 4 == c;
    EitherEmpty(Lane(s, 0));
    EitherEmpty(Lane(s, 4));
    EitherEmpty(Lane(s, 8));
    EitherEmpty(Lane(s, 12));
  }

  lemma RoundKeysExpanded(w: seq<seq<Word>>, key: seq<Byte>, nk: nat)
    requires Wide(w) && nk > 0 && |key| == 4 * nk
    requires Expanded(w, key, nk, 4 * |w|)
    ensures forall n :: 0 <= n < |w| ==> Lanes(w[n]) == RoundKey(key, nk, n)
  {
    hide Lane, ExpandedWord, Expanded;
    forall n, k: nat | 0 <= n < |w| && k < 16
      ensures Lane(w[n], k) == RowByte(ExpandedWord(key, nk, 4 * n + k % 4), k / 4)
    {
      var j := 4 * n + k % 4;
      assert j / 4 == n && j % 4 == k % 4;
      LatestWord(w, key, nk, 4 * |w|, j);
      assert k == 4 * (k / 4) + k % 4;
    }
  }

  lemma KeysExpanded(rounds: seq<array<Word>>, key: seq<Byte>, nk: nat)
    requires Schedule(rounds) && nk > 0 && |key| == 4 * nk
    requires Expanded(Snapshot(rounds), key, nk, 4 * |rounds|)
    ensures Keys(rounds) == seq(|rounds|, n requires 0 <= n < |rounds| => RoundKey(key, nk, n))
  {
    hide Expanded, RoundKey;
    RoundKeysExpanded(Snapshot(rounds), key, nk);
  }

  lemma NthWord(key: seq<Byte>, nk: nat, i: nat)
    requires 0 < nk <= i && |key| == 4 * nk
    ensures ExpandedWord(key, nk, i) ==
      AddWord(Transformed(ExpandedWord(key, nk, i - 1), nk, i), ExpandedWord(key, nk, i - nk))
  {
    hide Transformed, Sum;
    var v, w := ExpandedWord(key, nk, i - nk), Transformed(ExpandedWord(key, nk, i - 1), nk, i);
    Commutes(v.b0, w.b0);
    Commutes(v.b1, w.b1);
    Commutes(v.b2, w.b2);
    Commutes(v.b3, w.b3);
  }

  /** Adding word i - nk to the transformed column and storing the sum as word i. */
  method AddAndStore(column: array<Word>, rounds: seq<array<Word>>, nk: nat, i: nat, ghost key: seq<Byte>)
    requires Separate(rounds) && column !in rounds && column.Length == 8
    requires 4 <= nk <= i < 4 * |rounds| && |key| == 4 * nk
    requires Expanded(Snapshot(rounds), key, nk, i)
    requires ColumnOf(column[..], 0) == Transformed(ExpandedWord(key, nk, i - 1), nk, i)
    modifies column, rounds
    ensures Expanded(Snapshot(rounds), key, nk, i + 1)
    ensures ColumnOf(column[..], 0) == ExpandedWord(key, nk, i)
  {
    hide ColumnOf, Lane, Expanded, ExpandedWord, Transformed, Stored, AddWord;
    ghost var before := Snapshot(rounds);
    KeySetupColumnMix(column, rounds[i / 4], rounds[(i - nk) / 4], i % 4, (i - nk) % 4);
    LatestWord(before, key, nk, i, i - nk);
    NthWord(key, nk, i);
    NextWord(before, Snapshot(rounds), column[..], key, nk, i);
  }

  /** The key's own words in place, and the last of them in the working column. */
  method StartSchedule(rounds: seq<array<Word>>, column: array<Word>, key: seq<Byte>, nk: nat)
    requires Separate(rounds) && column !in rounds && column.Length == 8
    requires 0 < nk <= 4 * |rounds| && |key| == 4 * nk
    modifies rounds, column
    ensures Expanded(Snapshot(rounds), key, nk, nk)
    ensures ColumnOf(column[..], 0) == ExpandedWord(key, nk, nk - 1)
  {
    hide ColumnOf, Lane, Expanded, ExpandedWord;
    ClearRounds(rounds);
    NothingExpanded(Snapshot(rounds), key, nk);
    LoadKey(rounds, key, nk);
    var last := nk - 1;
    LatestWord(Snapshot(rounds), key, nk, nk, last);
    GetOneColumn(column, rounds[last / 4], last % 4);
  }

  /** The words of the key, and then one new word after the other. */
  method ExpandKey(rounds: seq<array<Word>>, key: seq<Byte>, nkeywords: nat, nrounds: nat)
    requires Separate(rounds) && |rounds| == nrounds + 1
    requires 4 <= nkeywords <= 4 * (nrounds + 1) && |key| == 4 * nkeywords
    modifies rounds
    ensures Schedule(rounds) && Expanded(Snapshot(rounds), key, nkeywords, 4 * |rounds|)
  {
    hide ColumnOf, Lane, Expanded, ExpandedWord, Transformed, HoldsPower, RconFor, Phase;
    var rcon := InitialRcon();
    var pos := 0;
    var column := new Word[8](i => Word(0));
    StartSchedule(rounds, column, key, nkeywords);
    var i := nkeywords;
    FirstRcon(rcon[..], nkeywords);
    NextPosition(nkeywords - 1, nkeywords);
    while i < 4 * (nrounds + 1)
      invariant nkeywords <= i <= 4 * (nrounds + 1) && pos == Phase(i, nkeywords)
      invariant Expanded(Snapshot(rounds), key, nkeywords, i)
      invariant ColumnOf(column[..], 0) == ExpandedWord(key, nkeywords, i - 1)
      invariant RconFor(rcon[..], nkeywords, i)
    {
      TransformColumn(column, rcon, nkeywords, pos, i);
      NextPosition(i, nkeywords);
      pos := pos + 1;
      if pos == nkeywords {
        pos := 0;
      }
      AddAndStore(column, rounds, nkeywords, i, key);
      i := i + 1;
    }
  }

  /** The key expansion: every round key is the one of section 5.2 of FIPS 197. The words are the
  columns of the round keys. */
  method Setup(rounds: seq<array<Word>>, key: seq<Byte>, nkeywords: nat, nrounds: nat) returns (ghost words: seq<Column>)
    requires Separate(rounds) && |rounds| == nrounds + 1
    requires 4 <= nkeywords <= 4 * (nrounds + 1) && |key| == 4 * nkeywords
    modifies rounds
    ensures Schedule(rounds)
    ensures Keys(rounds) == seq(nrounds + 1, n requires 0 <= n <= nrounds => RoundKey(key, nkeywords, n))
    ensures |words| == 4 * (nrounds + 1) && forall i :: 0 <= i < |words| ==> words[i] == ColumnOf(rounds[i / 4][..], i % 4)
    ensures forall i :: 0 <= i < nkeywords ==>
      words[i] == Column(key[4 * i], key[4 * i + 1], key[4 * i + 2], key[4 * i + 3])
    ensures forall i :: nkeywords <= i < |words| ==>
      var u, w := words[i - nkeywords], words[i - 1];
      words[i] ==
        if i % nkeywords == 0 then
          Column(Sum(u.b0, Sum(Sub(w.b1), Power(i / nkeywords - 1))),
                 Sum(u.b1, Sub(w.b2)), Sum(u.b2, Sub(w.b3)), Sum(u.b3, Sub(w.b0)))
        else if nkeywords > 6 && i % nkeywords == 4 then
          Column(Sum(u.b0, Sub(w.b0)), Sum(u.b1, Sub(w.b1)), Sum(u.b2, Sub(w.b2)), Sum(u.b3, Sub(w.b3)))
        else Column(Sum(u.b0, w.b0), Sum(u.b1, w.b1), Sum(u.b2, w.b2), Sum(u.b3, w.b3))
  {
    hide Expanded, ExpandedWord, RoundKey, Keys, ColumnOf, Sub, Sum, Power;
    ExpandKey(rounds, key, nkeywords, nrounds);
    KeysExpanded(rounds, key, nkeywords);
    words := AllWords(Snapshot(rounds), key, nkeywords);
  }

  lemma AllWords(w: seq<seq<Word>>, key: seq<Byte>, nk: nat) returns (words: seq<Column>)
    requires Wide(w) && nk > 0 && |key| == 4 * nk && nk <= 4 * |w| && Expanded(w, key, nk, 4 * |w|)
    ensures |words| == 4 * |w| && forall i :: 0 <= i < |words| ==> words[i] == ColumnOf(w[i / 4], i % 4)
    ensures forall i :: 0 <= i < nk ==>
      words[i] == Column(key[4 * i], key[4 * i + 1], key[4 * i + 2], key[4 * i + 3])
    ensures forall i :: nk <= i < |words| ==>
      var u, w := words[i - nk], words[i - 1];
      words[i] ==
        if i % nk == 0 then
          Column(Sum(u.b0, Sum(Sub(w.b1), Power(i / nk - 1))),
                 Sum(u.b1, Sub(w.b2)), Sum(u.b2, Sub(w.b3)), Sum(u.b3, Sub(w.b0)))
        else if nk > 6 && i % nk == 4 then
          Column(Sum(u.b0, Sub(w.b0)), Sum(u.b1, Sub(w.b1)), Sum(u.b2, Sub(w.b2)), Sum(u.b3, Sub(w.b3)))
        else Column(Sum(u.b0, w.b0), Sum(u.b1, w.b1), Sum(u.b2, w.b2), Sum(u.b3, w.b3))
  {
    hide ColumnOf, ExpandedWord, Expanded, Sub, Sum, Power;
    words := seq(4 * |w|, i requires 0 <= i < 4 * |w| => ExpandedWord(key, nk, i));
    forall i | 0 <= i < |words| ensures words[i] == ColumnOf(w[i / 4], i % 4) {
      LatestWord(w, key, nk, 4 * |w|, i);
    }
    forall i | 0 <= i < nk ensures words[i] == Column(key[4 * i], key[4 * i + 1], key[4 * i + 2], key[4 * i + 3]) {
      NextExpanded(key, nk, i);
    }
    forall i | nk <= i < |words|
      ensures
        var u, w := words[i - nk], words[i - 1];
        words[i] ==
          if i % nk == 0 then
            Column(Sum(u.b0, Sum(Sub(w.b1), Power(i / nk - 1))),
                   Sum(u.b1, Sub(w.b2)), Sum(u.b2, Sub(w.b3)), Sum(u.b3, Sub(w.b0)))
          else if nk > 6 && i % nk == 4 then
            Column(Sum(u.b0, Sub(w.b0)), Sum(u.b1, Sub(w.b1)), Sum(u.b2, Sub(w.b2)), Sum(u.b3, Sub(w.b3)))
          else Column(Sum(u.b0, w.b0), Sum(u.b1, w.b1), Sum(u.b2, w.b2), Sum(u.b3, w.b3))
    {
      NextExpanded(key, nk, i);
    }
  }
}
