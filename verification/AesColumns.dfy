/** The words of MixColumns, lane by lane (ctaes.c). */
module AesColumns {
  import opened AesWords
  import opened AesBytes
  import opened AesState
  import opened AesMix

  /** A word with its rows rotated upwards by one, two or three. */
  function Rot1(x: Word): Word {
    Word((x.v >> 4) | (x.v << 12))
  }

  function Rot2(x: Word): Word {
    Word((x.v >> 8) | (x.v << 8))
  }

  function Rot3(x: Word): Word {
    Word((x.v >> 12) | (x.v << 4))
  }

  lemma Rot1Turns(x: Word)
    ensures Rot1(x) == Turn(Turn(Turn(Turn(x))))
  {}

  lemma Rot2Twice(x: Word)
    ensures Rot2(x) == Rot1(Rot1(x))
  {}

  lemma Rot3Thrice(x: Word)
    ensures Rot3(x) == Rot1(Rot2(x))
  {}

  lemma RotAround(x: Word)
    ensures Rot1(Rot3(x)) == x
  {}

  lemma RotatedLane(x: Word, k: nat)
    ensures At(Rot1(x), k) == At(x, k + 4)
    ensures At(Rot2(x), k) == At(x, k + 8)
    ensures At(Rot3(x), k) == At(x, k + 12)
    ensures At(x, k + 16) == At(x, k)
  {
    hide Rot1, Rot2, Rot3, Turn, Low;
    FourTurns(x, k);
    FourTurns(Rot1(x), k);
    FourTurns(x, k + 4);
    FourTurns(Rot2(x), k);
    FourTurns(x, k + 8);
    FourTurns(Rot1(x), k + 4);
    FourTurns(Rot3(x), k);
    FourTurns(x, k + 12);
    Rot2Twice(x);
    Rot3Thrice(x);
    RotAround(x);
    FourTurns(Rot2(x), k + 4);
    FourTurns(Rot1(x), k + 8);
  }

  lemma FourTurns(x: Word, k: nat)
    ensures At(Rot1(x), k) == At(x, k + 4)
  {
    Rot1Turns(x);
    hide Rot1, Turn, Low;
    assert Bit(x, k + 4) == Bit(Turn(x), k + 3);
    assert Bit(Turn(x), k + 3) == Bit(Turn(Turn(x)), k + 2);
    assert Bit(Turn(Turn(x)), k + 2) == Bit(Turn(Turn(Turn(x))), k + 1);
  }

  lemma RowLaws()
    ensures forall x, k: nat {:trigger At(Rot1(x), k)} :: At(Rot1(x), k) == At(x, k + 4)
    ensures forall x, k: nat {:trigger At(Rot2(x), k)} :: At(Rot2(x), k) == At(x, k + 8)
    ensures forall x, k: nat {:trigger At(Rot3(x), k)} :: At(Rot3(x), k) == At(x, k + 12)
  {
    hide Rot1, Rot2, Rot3, At;
    forall x, k: nat ensures At(Rot1(x), k) == At(x, k + 4) { RotatedLane(x, k); }
    forall x, k: nat ensures At(Rot2(x), k) == At(x, k + 8) { RotatedLane(x, k); }
    forall x, k: nat ensures At(Rot3(x), k) == At(x, k + 12) { RotatedLane(x, k); }
  }

  /** Sums and doublings on the bits of a byte, as the code spells them. */
  function SumBits(x: Bits, y: Bits): Bits {
    Bits(XorBit(x.b0, y.b0), XorBit(x.b1, y.b1), XorBit(x.b2, y.b2), XorBit(x.b3, y.b3),
         XorBit(x.b4, y.b4), XorBit(x.b5, y.b5), XorBit(x.b6, y.b6), XorBit(x.b7, y.b7))
  }

  function DoubleBits(x: Bits): Bits {
    Bits(x.b7, XorBit(x.b7, x.b0), x.b1, XorBit(x.b7, x.b2), XorBit(x.b7, x.b3), x.b4, x.b5, x.b6)
  }

  /** A byte plus {04} times another. */
  function PlusFour(x: Bits, t: Bits): Bits {
    Bits(XorBit(x.b0, t.b6), XorBit(x.b1, XorBit(t.b6, t.b7)), XorBit(x.b2, XorBit(t.b0, t.b7)),
         XorBit(x.b3, XorBit(t.b1, t.b6)), XorBit(x.b4, XorBit(XorBit(t.b2, t.b6), t.b7)),
         XorBit(x.b5, XorBit(t.b3, t.b7)),
         XorBit(x.b6, t.b4), XorBit(x.b7, t.b5))
  }

  lemma UnpackSum(p: bv8, q: bv8)
    ensures SumBits(Unpack(p), Unpack(q)) == Unpack(p ^ q)
  {}

  lemma PackSum(x: Bits, y: Bits)
    ensures Pack(SumBits(x, y)) == Sum(Pack(x), Pack(y))
  {
    hide SumBits, Pack, Unpack;
    var p, q := Pack(x).v, Pack(y).v;
    UnpackPack(x);
    UnpackPack(y);
    UnpackSum(p, q);
    PackUnpack(p ^ q);
  }

  lemma PackDouble(x: Bits)
    ensures Pack(DoubleBits(x)) == XTime(Pack(x))
  {}

  lemma PackPlusFour(x: Bits, t: Bits)
    ensures Pack(PlusFour(x, t)) == Sum(Pack(x), XTime(XTime(Pack(t))))
  {
    PlusFourIsDoubled(x, t);
    hide PlusFour, SumBits, DoubleBits, Pack, Sum, XTime;
    PackSum(x, DoubleBits(DoubleBits(t)));
    PackDouble(DoubleBits(t));
    PackDouble(t);
  }

  lemma PlusFourIsDoubled(x: Bits, t: Bits)
    ensures PlusFour(x, t) == SumBits(x, DoubleBits(DoubleBits(t)))
  {}

  /** The forward transform on eight words. */
  method MixGates(s0: Word, s1: Word, s2: Word, s3: Word, s4: Word, s5: Word, s6: Word, s7: Word)
    returns (o0: Word, o1: Word, o2: Word, o3: Word, o4: Word, o5: Word, o6: Word, o7: Word)
    ensures forall k: nat {:trigger LaneOf(o0, o1, o2, o3, o4, o5, o6, o7, k)} ::
      Pack(LaneOf(o0, o1, o2, o3, o4, o5, o6, o7, k)) ==
      Factored(Pack(LaneOf(s0, s1, s2, s3, s4, s5, s6, s7, k)), Pack(LaneOf(s0, s1, s2, s3, s4, s5, s6, s7, k + 4)),
               Pack(LaneOf(s0, s1, s2, s3, s4, s5, s6, s7, k + 8)), Pack(LaneOf(s0, s1, s2, s3, s4, s5, s6, s7, k + 12)))
  {
    hide At, Xor, XorBit, Pack, Factored, Rot1, Rot2, Rot3;
    GateLaws();
    RowLaws();
    var s0_01 := Xor(s0, Rot1(s0));
    var s0_123 := Xor(Rot1(s0_01), Rot3(s0));
    var s1_01 := Xor(s1, Rot1(s1));
    var s1_123 := Xor(Rot1(s1_01), Rot3(s1));
    var s2_01 := Xor(s2, Rot1(s2));
    var s2_123 := Xor(Rot1(s2_01), Rot3(s2));
    var s3_01 := Xor(s3, Rot1(s3));
    var s3_123 := Xor(Rot1(s3_01), Rot3(s3));
    var s4_01 := Xor(s4, Rot1(s4));
    var s4_123 := Xor(Rot1(s4_01), Rot3(s4));
    var s5_01 := Xor(s5, Rot1(s5));
    var s5_123 := Xor(Rot1(s5_01), Rot3(s5));
    var s6_01 := Xor(s6, Rot1(s6));
    var s6_123 := Xor(Rot1(s6_01), Rot3(s6));
    var s7_01 := Xor(s7, Rot1(s7));
    var s7_123 := Xor(Rot1(s7_01), Rot3(s7));
    o0 := Xor(s7_01, s0_123);
    o1 := Xor(Xor(s7_01, s0_01), s1_123);
    o2 := Xor(s1_01, s2_123);
    o3 := Xor(Xor(s7_01, s2_01), s3_123);
    o4 := Xor(Xor(s7_01, s3_01), s4_123);
    o5 := Xor(s4_01, s5_123);
    o6 := Xor(s5_01, s6_123);
    o7 := Xor(s6_01, s7_123);
    forall k: nat
      ensures Pack(LaneOf(o0, o1, o2, o3, o4, o5, o6, o7, k)) ==
        Factored(Pack(LaneOf(s0, s1, s2, s3, s4, s5, s6, s7, k)), Pack(LaneOf(s0, s1, s2, s3, s4, s5, s6, s7, k + 4)),
                 Pack(LaneOf(s0, s1, s2, s3, s4, s5, s6, s7, k + 8)), Pack(LaneOf(s0, s1, s2, s3, s4, s5, s6, s7, k + 12)))
    {
      var a, b, c, d := LaneOf(s0, s1, s2, s3, s4, s5, s6, s7, k), LaneOf(s0, s1, s2, s3, s4, s5, s6, s7, k + 4),
                        LaneOf(s0, s1, s2, s3, s4, s5, s6, s7, k + 8), LaneOf(s0, s1, s2, s3, s4, s5, s6, s7, k + 12);
      assert LaneOf(o0, o1, o2, o3, o4, o5, o6, o7, k) == SumBits(DoubleBits(SumBits(a, b)), SumBits(SumBits(b, c), d));
      FactoredBits(a, b, c, d);
    }
  }

  lemma FactoredBits(a: Bits, b: Bits, c: Bits, d: Bits)
    ensures Pack(SumBits(DoubleBits(SumBits(a, b)), SumBits(SumBits(b, c), d))) == Factored(Pack(a), Pack(b), Pack(c), Pack(d))
  {
    hide SumBits, DoubleBits, Pack, Sum, XTime;
    PackSum(a, b);
    PackDouble(SumBits(a, b));
    PackSum(b, c);
    PackSum(SumBits(b, c), d);
    PackSum(DoubleBits(SumBits(a, b)), SumBits(SumBits(b, c), d));
  }

  /** The correction by {04}x^2 + {05}, on eight words. */
  method CorrectGates(s0: Word, s1: Word, s2: Word, s3: Word, s4: Word, s5: Word, s6: Word, s7: Word)
    returns (o0: Word, o1: Word, o2: Word, o3: Word, o4: Word, o5: Word, o6: Word, o7: Word)
    ensures forall k: nat {:trigger LaneOf(o0, o1, o2, o3, o4, o5, o6, o7, k)} ::
      Pack(LaneOf(o0, o1, o2, o3, o4, o5, o6, o7, k)) ==
      Corrected(Pack(LaneOf(s0, s1, s2, s3, s4, s5, s6, s7, k)), Pack(LaneOf(s0, s1, s2, s3, s4, s5, s6, s7, k + 8)))
  {
    hide At, Xor, XorBit, Pack, Corrected, Rot1, Rot2, Rot3;
    GateLaws();
    RowLaws();
    var t0_02 := Xor(s0, Rot2(s0));
    var t1_02 := Xor(s1, Rot2(s1));
    var t2_02 := Xor(s2, Rot2(s2));
    var t3_02 := Xor(s3, Rot2(s3));
    var t4_02 := Xor(s4, Rot2(s4));
    var t5_02 := Xor(s5, Rot2(s5));
    var t6_02 := Xor(s6, Rot2(s6));
    var t7_02 := Xor(s7, Rot2(s7));
    o0 := Xor(s0, t6_02);
    o1 := Xor(s1, Xor(t6_02, t7_02));
    o2 := Xor(s2, Xor(t0_02, t7_02));
    o3 := Xor(s3, Xor(t1_02, t6_02));
    o4 := Xor(s4, Xor(Xor(t2_02, t6_02), t7_02));
    o5 := Xor(s5, Xor(t3_02, t7_02));
    o6 := Xor(s6, t4_02);
    o7 := Xor(s7, t5_02);
    forall k: nat
      ensures Pack(LaneOf(o0, o1, o2, o3, o4, o5, o6, o7, k)) ==
        Corrected(Pack(LaneOf(s0, s1, s2, s3, s4, s5, s6, s7, k)), Pack(LaneOf(s0, s1, s2, s3, s4, s5, s6, s7, k + 8)))
    {
      var x, z := LaneOf(s0, s1, s2, s3, s4, s5, s6, s7, k), LaneOf(s0, s1, s2, s3, s4, s5, s6, s7, k + 8);
      assert LaneOf(o0, o1, o2, o3, o4, o5, o6, o7, k) == PlusFour(x, SumBits(x, z));
      CorrectedBits(x, z);
    }
  }

  lemma CorrectedBits(x: Bits, z: Bits)
    ensures Pack(PlusFour(x, SumBits(x, z))) == Corrected(Pack(x), Pack(z))
  {
    hide SumBits, PlusFour, Pack, Sum, XTime;
    PackSum(x, z);
    PackPlusFour(x, SumBits(x, z));
  }
}
