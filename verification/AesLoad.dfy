/** Loading bytes into the slices and saving them back. */
module AesLoad {
  import opened AesWords
  import opened AesBytes
  import opened AesState
  import opened AesRounds

  // --- The bits of a byte, taken off one at a time from the bottom

  function Half(x: Byte): Byte {
    Byte(x.v >> 1)
  }

  predicate Odd(x: Byte) {
    x.v & 1 != 0
  }

  function Either(x: Byte, y: Byte): Byte {
    Byte(x.v | y.v)
  }

  function Tap(x: Byte, i: nat): Wire
    decreases i
  {
    if i == 0 then Wire(Odd(x)) else Tap(Half(x), i - 1)
  }

  predicate Has(x: Byte, m: bv8) {
    x.v & m != 0
  }

  lemma HalfHas(x: Byte, m: bv8)
    ensures Has(Half(x), m) == Has(x, m << 1)
  {}

  lemma {:induction false} TapHas(x: Byte, i: nat, m: bv8)
    requires i < 8 && m == ByteMask(i)
    ensures Tap(x, i) == Wire(Has(x, m))
    decreases i
  {
    if i == 0 {
      assert Odd(x) == Has(x, 1);
    } else {
      TapHas(Half(x), i - 1, ByteMask(i - 1));
      HalfHas(x, ByteMask(i - 1));
    }
  }

  function ByteMask(i: nat): bv8 {
    if i == 0 then 0x01 else ByteMask(i - 1) << 1
  }

  lemma Taps(x: Byte)
    ensures Unpack(x.v) == Bits(Tap(x, 0), Tap(x, 1), Tap(x, 2), Tap(x, 3), Tap(x, 4), Tap(x, 5), Tap(x, 6), Tap(x, 7))
  {
    ByteMasks();
    hide ByteMask, Tap;
    TapHas(x, 0, 0x01);
    TapHas(x, 1, 0x02);
    TapHas(x, 2, 0x04);
    TapHas(x, 3, 0x08);
    TapHas(x, 4, 0x10);
    TapHas(x, 5, 0x20);
    TapHas(x, 6, 0x40);
    TapHas(x, 7, 0x80);
  }

  lemma ByteMasks()
    ensures ByteMask(0) == 0x01 && ByteMask(1) == 0x02 && ByteMask(2) == 0x04 && ByteMask(3) == 0x08
    ensures ByteMask(4) == 0x10 && ByteMask(5) == 0x20 && ByteMask(6) == 0x40 && ByteMask(7) == 0x80
  {}

  lemma EitherHalf(x: Byte, y: Byte)
    ensures Half(Either(x, y)) == Either(Half(x), Half(y)) && Odd(Either(x, y)) == (Odd(x) || Odd(y))
  {}

  lemma {:induction false} TapEither(x: Byte, y: Byte, i: nat)
    ensures Tap(Either(x, y), i) == OrBit(Tap(x, i), Tap(y, i))
    decreases i
  {
    hide Either, Half, Odd;
    EitherHalf(x, y);
    if i != 0 {
      TapEither(Half(x), Half(y), i - 1);
    }
  }

  /** The lowest bit of a byte, moved to lane n. */
  function Place(x: Byte, n: nat): Word
    requires n < 16
  {
    Word(((x.v & 1) as bv16) << n)
  }

  lemma PlacedMask(x: Byte, n: nat)
    requires n < 16
    ensures Place(x, n) == if Odd(x) then Word(Mask(n)) else Word(0)
  {
    Masks();
    hide Mask;
    if n == 0 {} else if n == 1 {} else if n == 2 {} else if n == 3 {}
    else if n == 4 {} else if n == 5 {} else if n == 6 {} else if n == 7 {}
    else if n == 8 {} else if n == 9 {} else if n == 10 {} else if n == 11 {}
    else if n == 12 {} else if n == 13 {} else if n == 14 {} else {}
  }

  lemma {:induction false} ZeroWord(k: nat)
    ensures At(Word(0), k) == Wire(false)
    decreases k
  {
    assert Turn(Word(0)) == Word(0) && !Low(Word(0));
    hide Turn, Low;
    if k != 0 {
      ZeroWord(k - 1);
    }
  }

  lemma UpTurns(m: bv16)
    ensures !Low(Word(Up(m))) && (m < 0x8000 ==> Turn(Word(Up(m))) == Word(m))
  {}

  lemma OneTurns()
    ensures Turn(Word(Mask(0))) == Word(Mask(15)) && Low(Word(Mask(0)))
  {
    Masks();
    hide Mask;
  }

  lemma {:induction false} MaskLane(n: nat, k: nat)
    requires n < 16 && k < 16
    ensures At(Word(Mask(n)), k) == Wire(k == n)
    decreases k
  {
    hide Turn, Low, Up, Mask;
    OneTurns();
    if n > 0 {
      UpTurns(Mask(n - 1));
      ShiftedMask(n);
      MaskBelow(n - 1);
    }
    if k > 0 {
      MaskLane(if n > 0 then n - 1 else 15, k - 1);
    }
  }

  lemma PlacedLane(x: Byte, n: nat, k: nat)
    requires n < 16 && k < 16
    ensures At(Place(x, n), k) == if k == n then Tap(x, 0) else Wire(false)
  {
    hide Place, Mask, At;
    PlacedMask(x, n);
    MaskLane(n, k);
    ZeroWord(k);
  }

  lemma LitBits(x: Bits, y: Byte, z: Bits)
    requires z == Bits(OrBit(x.b0, Tap(y, 0)), OrBit(x.b1, Tap(y, 1)), OrBit(x.b2, Tap(y, 2)), OrBit(x.b3, Tap(y, 3)),
                       OrBit(x.b4, Tap(y, 4)), OrBit(x.b5, Tap(y, 5)), OrBit(x.b6, Tap(y, 6)), OrBit(x.b7, Tap(y, 7)))
    ensures Pack(z) == Either(Pack(x), y)
  {
    hide OrBit, Pack, Unpack, Tap, Either;
    var w := Either(Pack(x), y);
    Taps(w);
    Taps(Pack(x));
    UnpackPack(x);
    forall i: nat | i < 8 ensures Tap(w, i) == OrBit(Tap(Pack(x), i), Tap(y, i)) {
      TapEither(Pack(x), y, i);
    }
    PackUnpack(w.v);
  }

  /** One byte into its lane; the other lanes keep their bytes. */
  method LoadByte(s: array<Word>, x: Byte, r: nat, c: nat)
    requires s.Length == 8 && r < 4 && c < 4
    modifies s
    ensures forall k: nat | k < 16 ::
      Lane(s[..], k) == if k == r * 4 + c then Either(Lane(old(s[..]), k), x) else Lane(old(s[..]), k)
  {
    hide Or, At, OrBit, Place, Tap, Pack, Either, Half;
    var b := x;
    for i := 0 to 8
      invariant b == Halved(x, i)
      invariant forall j :: i <= j < 8 ==> s[j] == old(s[j])
      invariant forall j, k: nat {:trigger At(s[j], k)} :: 0 <= j < i && k < 16 ==>
        At(s[j], k) == if k == r * 4 + c then OrBit(At(old(s[j]), k), Tap(x, j)) else At(old(s[j]), k)
    {
      LitSlice(s[i], b, r * 4 + c);
      TapHalved(x, i, 0);
      s[i] := Or(s[i], Place(b, r * 4 + c));
      b := Half(b);
    }
    forall k: nat | k < 16
      ensures Lane(s[..], k) == if k == r * 4 + c then Either(Lane(old(s[..]), k), x) else Lane(old(s[..]), k)
    {
      if k == r * 4 + c {
        LitBits(LaneOf(old(s[0]), old(s[1]), old(s[2]), old(s[3]), old(s[4]), old(s[5]), old(s[6]), old(s[7]), k), x,
                LaneOf(s[0], s[1], s[2], s[3], s[4], s[5], s[6], s[7], k));
      }
    }
  }

  /** A byte shifted down i times. */
  function Halved(x: Byte, i: nat): Byte {
    if i == 0 then x else Half(Halved(x, i - 1))
  }

  lemma {:induction false} TapHalved(x: Byte, i: nat, j: nat)
    ensures Tap(Halved(x, i), j) == Tap(x, i + j)
    decreases i
  {
    if i > 0 {
      TapHalved(x, i - 1, j + 1);
    }
  }

  lemma LitSlice(w: Word, b: Byte, n: nat)
    requires n < 16
    ensures forall k: nat | k < 16 ::
      At(Or(w, Place(b, n)), k) == if k == n then OrBit(At(w, k), Tap(b, 0)) else At(w, k)
  {
    hide Or, At, OrBit, Place, Tap;
    forall k: nat | k < 16
      ensures At(Or(w, Place(b, n)), k) == if k == n then OrBit(At(w, k), Tap(b, 0)) else At(w, k)
    {
      GateLaws();
      PlacedLane(b, n, k);
      OrFalse(At(w, k));
    }
  }

  lemma OrFalse(x: Wire)
    ensures OrBit(x, Wire(false)) == x
  {}

  /** Sixteen bytes, column by column. */
  method LoadBytes(s: array<Word>, data: seq<Byte>)
    requires s.Length == 8 && |data| == 16
    modifies s
    ensures forall k: nat | k < 16 :: Lane(s[..], k) == Either(Lane(old(s[..]), k), data[4 * (k % 4) + k / 4])
  {
    hide Lane, Either;
    for c := 0 to 4
      invariant forall k: nat | k < 16 ::
        Lane(s[..], k) == if k % 4 < c then Either(Lane(old(s[..]), k), data[4 * (k % 4) + k / 4]) else Lane(old(s[..]), k)
    {
      for r := 0 to 4
        invariant forall k: nat | k < 16 ::
          Lane(s[..], k) ==
          if k % 4 < c || (k % 4 == c && k / 4 < r) then Either(Lane(old(s[..]), k), data[4 * (k % 4) + k / 4])
          else Lane(old(s[..]), k)
      {
        LoadByte(s, data[4 * c + r], r, c);
      }
    }
  }

  /** One bit of a slice, read out and moved to place b of a byte. */
  function Taken(w: Word, n: nat, b: nat): Byte
    requires n < 16 && b < 8
  {
    Byte((((w.v >> n) & 1) as bv8) << b)
  }

  predicate Nth(w: Word, n: nat)
    requires n < 16
  {
    (w.v >> n) & 1 != 0
  }

  lemma NthTest(w: Word, n: nat)
    requires n < 16
    ensures Nth(w, n) == Test(w, Mask(n))
  {
    Masks();
    hide Mask;
    if n == 0 {} else if n == 1 {} else if n == 2 {} else if n == 3 {}
    else if n == 4 {} else if n == 5 {} else if n == 6 {} else if n == 7 {}
    else if n == 8 {} else if n == 9 {} else if n == 10 {} else if n == 11 {}
    else if n == 12 {} else if n == 13 {} else if n == 14 {} else {}
  }

  lemma OneOrZero(u: bv16)
    ensures u & 1 == 0 || u & 1 == 1
  {}

  lemma TakenMask(w: Word, n: nat, b: nat)
    requires n < 16 && b < 8
    ensures Taken(w, n, b) == if Nth(w, n) then Byte(ByteMask(b)) else Byte(0)
  {
    OneOrZero(w.v >> n);
    BitShifted(((w.v >> n) & 1) as bv8, b);
    hide ByteMask;
  }

  lemma BitShifted(x: bv8, b: nat)
    requires (x == 0 || x == 1) && b < 8
    ensures x << b == if x == 1 then ByteMask(b) else 0
  {
    ByteMasks();
    hide ByteMask;
    if b == 0 {} else if b == 1 {} else if b == 2 {} else if b == 3 {}
    else if b == 4 {} else if b == 5 {} else if b == 6 {} else {}
  }

  lemma {:induction false} ZeroTap(j: nat)
    ensures Tap(Byte(0), j) == Wire(false)
    decreases j
  {
    assert Half(Byte(0)) == Byte(0) && !Odd(Byte(0));
    hide Half, Odd;
    if j != 0 {
      ZeroTap(j - 1);
    }
  }

  lemma HalfMask(b: nat)
    requires b < 8
    ensures Odd(Byte(ByteMask(b))) == (b == 0)
    ensures Half(Byte(ByteMask(b))) == if b == 0 then Byte(0) else Byte(ByteMask(b - 1))
  {
    ByteMasks();
    hide ByteMask;
    if b == 0 {} else if b == 1 {} else if b == 2 {} else if b == 3 {}
    else if b == 4 {} else if b == 5 {} else if b == 6 {} else {}
  }

  lemma {:induction false} MaskTap(b: nat, j: nat)
    requires b < 8
    ensures Tap(Byte(ByteMask(b)), j) == Wire(j == b)
    decreases j
  {
    hide Half, Odd, ByteMask;
    HalfMask(b);
    if j != 0 {
      if b == 0 {
        ZeroTap(j - 1);
      } else {
        MaskTap(b - 1, j - 1);
      }
    }
  }

  lemma TakenTap(w: Word, n: nat, b: nat, j: nat)
    requires n < 16 && b < 8
    ensures Tap(Taken(w, n, b), j) == if j == b then At(w, n) else Wire(false)
  {
    TakenMask(w, n, b);
    BitNth(w, n);
    hide Taken, Nth, ByteMask, Tap, Bit;
    MaskTap(b, j);
    ZeroTap(j);
  }

  lemma {:induction false} BitNth(w: Word, n: nat)
    requires n < 16
    ensures Bit(w, n) == Nth(w, n)
  {
    hide Bit, Nth, Test;
    BitMask(w, n);
    NthTest(w, n);
  }

  lemma BitSaved(v: Byte, w: Word, n: nat, b: nat)
    requires n < 16 && b < 8
    ensures forall j: nat | j < 8 ::
      Tap(Either(v, Taken(w, n, b)), j) == if j == b then OrBit(Tap(v, j), At(w, n)) else Tap(v, j)
  {
    hide Tap, Either, Taken, At, OrBit;
    forall j: nat | j < 8
      ensures Tap(Either(v, Taken(w, n, b)), j) == if j == b then OrBit(Tap(v, j), At(w, n)) else Tap(v, j)
    {
      TapEither(v, Taken(w, n, b), j);
      TakenTap(w, n, b, j);
      OrFalse(Tap(v, j));
    }
  }

  /** One lane, gathered into a byte. */
  method SaveByte(s: array<Word>, n: nat) returns (v: Byte)
    requires s.Length == 8 && n < 16
    ensures v == Lane(s[..], n)
  {
    v := Byte(0);
    hide Tap, Either, Taken, At, OrBit, Pack, Unpack;
    forall j: nat | j < 8 ensures Tap(v, j) == Wire(false) {
      ZeroTap(j);
    }
    for b := 0 to 8
      invariant forall j: nat | j < 8 :: Tap(v, j) == if j < b then At(s[j], n) else Wire(false)
    {
      BitSaved(v, s[b], n, b);
      FalseOr(At(s[b], n));
      v := Either(v, Taken(s[b], n, b));
    }
    Taps(v);
    PackUnpack(v.v);
  }

  lemma FalseOr(x: Wire)
    ensures OrBit(Wire(false), x) == x
  {}

  /** A block in the order of the message: column by column. */
  function Transposed(b: Block): Block {
    seq(16, i requires 0 <= i < 16 => b[4 * (i % 4) + i / 4])
  }

  lemma TransposedTwice(b: Block)
    ensures Transposed(Transposed(b)) == b
  {
    forall i | 0 <= i < 16 ensures Transposed(Transposed(b))[i] == b[i] {
      var j := 4 * (i % 4) + i / 4;
      assert j % 4 == i / 4 && j / 4 == i % 4;
    }
  }

  /** Sixteen bytes, column by column. */
  method SaveBytes(s: array<Word>) returns (data: seq<Byte>)
    requires s.Length == 8
    ensures data == Transposed(Lanes(s[..]))
  {
    hide Lane;
    data := [];
    for c := 0 to 4
      invariant |data| == 4 * c
      invariant forall i :: 0 <= i < 4 * c ==> data[i] == Lane(s[..], 4 * (i % 4) + i / 4)
    {
      for r := 0 to 4
        invariant |data| == 4 * c + r
        invariant forall i :: 0 <= i < 4 * c + r ==> data[i] == Lane(s[..], 4 * (i % 4) + i / 4)
      {
        var v := SaveByte(s, r * 4 + c);
        data := data + [v];
      }
    }
  }
}
