/** Words of sixteen bits seen as sixteen lanes, and the gates that act on every lane alike. */
module AesWords {
  /** One slice of an AES state. */
  datatype Word = Word(v: bv16)

  /** The same gates on one bit. */
  datatype Wire = Wire(on: bool)

  function Xor(x: Word, y: Word): Word {
    Word(x.v ^ y.v)
  }

  function And(x: Word, y: Word): Word {
    Word(x.v & y.v)
  }

  function Or(x: Word, y: Word): Word {
    Word(x.v | y.v)
  }

  function Not(x: Word): Word {
    Word(!x.v)
  }

  function XorBit(a: Wire, b: Wire): Wire {
    Wire(a.on != b.on)
  }

  function AndBit(a: Wire, b: Wire): Wire {
    Wire(a.on && b.on)
  }

  function OrBit(a: Wire, b: Wire): Wire {
    Wire(a.on || b.on)
  }

  function NotBit(a: Wire): Wire {
    Wire(!a.on)
  }

  // --- Lanes, counted round and round by turning the word

  /** The word turned by one lane. */
  function Turn(x: Word): Word {
    Word((x.v >> 1) | (x.v << 15))
  }

  predicate Low(x: Word) {
    x.v & 1 != 0
  }

  /** Lane k of a word; lane 16 is lane 0 again. */
  predicate Bit(x: Word, k: nat)
    decreases k
  {
    if k == 0 then Low(x) else Bit(Turn(x), k - 1)
  }

  function At(x: Word, k: nat): Wire {
    Wire(Bit(x, k))
  }

  lemma TurnXor(x: Word, y: Word)
    ensures Turn(Xor(x, y)) == Xor(Turn(x), Turn(y)) && Low(Xor(x, y)) == (Low(x) != Low(y))
  {}

  lemma TurnAnd(x: Word, y: Word)
    ensures Turn(And(x, y)) == And(Turn(x), Turn(y)) && Low(And(x, y)) == (Low(x) && Low(y))
  {}

  lemma TurnOr(x: Word, y: Word)
    ensures Turn(Or(x, y)) == Or(Turn(x), Turn(y)) && Low(Or(x, y)) == (Low(x) || Low(y))
  {}

  lemma TurnNot(x: Word)
    ensures Turn(Not(x)) == Not(Turn(x)) && Low(Not(x)) == !Low(x)
  {}

  /** A gate on words is the gate on bits in every lane. */
  lemma {:induction false} Gates(x: Word, y: Word, k: nat)
    ensures Bit(Xor(x, y), k) == (Bit(x, k) != Bit(y, k))
    ensures Bit(And(x, y), k) == (Bit(x, k) && Bit(y, k))
    ensures Bit(Or(x, y), k) == (Bit(x, k) || Bit(y, k))
    ensures Bit(Not(x), k) == !Bit(x, k)
    decreases k
  {
    hide Xor, And, Or, Not, Turn, Low;
    TurnXor(x, y);
    TurnAnd(x, y);
    TurnOr(x, y);
    TurnNot(x);
    if k != 0 {
      Gates(Turn(x), Turn(y), k - 1);
    }
  }

  // --- Lanes as masks

  function Up(m: bv16): bv16 {
    m << 1
  }

  function Mask(k: nat): bv16 {
    if k == 0 then 0x0001 else Up(Mask(k - 1))
  }

  lemma Masks()
    ensures Mask(0) == 0x0001 && Mask(1) == 0x0002 && Mask(2) == 0x0004 && Mask(3) == 0x0008
    ensures Mask(4) == 0x0010 && Mask(5) == 0x0020 && Mask(6) == 0x0040 && Mask(7) == 0x0080
    ensures Mask(8) == 0x0100 && Mask(9) == 0x0200 && Mask(10) == 0x0400 && Mask(11) == 0x0800
    ensures Mask(12) == 0x1000 && Mask(13) == 0x2000 && Mask(14) == 0x4000 && Mask(15) == 0x8000
  {}

  predicate Test(x: Word, m: bv16) {
    x.v & m != 0
  }

  lemma TurnTest(x: Word, m: bv16)
    requires m < 0x8000
    ensures Test(Turn(x), m) == Test(x, Up(m))
  {}

  lemma MaskBelow(k: nat)
    requires k < 15
    ensures Mask(k) < 0x8000
  {
    Masks();
    hide Mask;
  }

  lemma LowTest(x: Word)
    ensures Low(x) == Test(x, 0x0001)
  {}

  lemma ShiftedMask(k: nat)
    requires 0 < k
    ensures Mask(k) == Up(Mask(k - 1))
  {}

  lemma {:induction false} BitMask(x: Word, k: nat)
    requires k < 16
    ensures Bit(x, k) == Test(x, Mask(k))
    decreases k
  {
    hide Mask, Test, Turn, Low, Up;
    if k == 0 {
      LowTest(x);
      Masks();
    } else {
      BitMask(Turn(x), k - 1);
      MaskBelow(k - 1);
      TurnTest(x, Mask(k - 1));
      ShiftedMask(k);
    }
  }

  lemma LiteralBits(x: Word)
    ensures Bit(x, 0) == Test(x, 0x0001) && Bit(x, 1) == Test(x, 0x0002)
    ensures Bit(x, 2) == Test(x, 0x0004) && Bit(x, 3) == Test(x, 0x0008)
    ensures Bit(x, 4) == Test(x, 0x0010) && Bit(x, 5) == Test(x, 0x0020)
    ensures Bit(x, 6) == Test(x, 0x0040) && Bit(x, 7) == Test(x, 0x0080)
    ensures Bit(x, 8) == Test(x, 0x0100) && Bit(x, 9) == Test(x, 0x0200)
    ensures Bit(x, 10) == Test(x, 0x0400) && Bit(x, 11) == Test(x, 0x0800)
    ensures Bit(x, 12) == Test(x, 0x1000) && Bit(x, 13) == Test(x, 0x2000)
    ensures Bit(x, 14) == Test(x, 0x4000) && Bit(x, 15) == Test(x, 0x8000)
  {
    hide Bit, Mask, Test;
    Masks();
    forall k: nat | k < 16 ensures Bit(x, k) == Test(x, Mask(k)) {
      BitMask(x, k);
    }
    assert Bit(x, 0) == Test(x, Mask(0)) && Bit(x, 1) == Test(x, Mask(1)) && Bit(x, 2) == Test(x, Mask(2));
    assert Bit(x, 3) == Test(x, Mask(3)) && Bit(x, 4) == Test(x, Mask(4)) && Bit(x, 5) == Test(x, Mask(5));
    assert Bit(x, 6) == Test(x, Mask(6)) && Bit(x, 7) == Test(x, Mask(7)) && Bit(x, 8) == Test(x, Mask(8));
    assert Bit(x, 9) == Test(x, Mask(9)) && Bit(x, 10) == Test(x, Mask(10)) && Bit(x, 11) == Test(x, Mask(11));
    assert Bit(x, 12) == Test(x, Mask(12)) && Bit(x, 13) == Test(x, Mask(13)) && Bit(x, 14) == Test(x, Mask(14));
    assert Bit(x, 15) == Test(x, Mask(15));
  }
}
