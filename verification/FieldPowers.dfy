/** Inversion and square roots in the field by addition chains (field_impl.h). */
module FieldPowers {
  import opened Numbers
  import opened Field10x26
  import opened FieldNormalize
  import opened Powers

  /** An operand of the chain: magnitude at most 8, a known power of the input. */
  ghost predicate Holds(v: Fe, x: int, e: nat) {
    HasMagnitude(v, 8) && IsPower(Value(v), x, e, P)
  }

  lemma OneIsSmall(v: Fe)
    requires HasMagnitude(v, 1)
    ensures HasMagnitude(v, 8)
  {}

  method Times(v: Fe, w: Fe, ghost x: int, ghost e: nat, ghost f: nat) returns (u: Fe)
    requires Holds(v, x, e) && Holds(w, x, f)
    ensures Holds(u, x, e + f) && HasMagnitude(u, 1)
  {
    hide HasMagnitude, Value, IsPower, IsFactor;
    MagnitudeOfFactors(v);
    MagnitudeOfFactors(w);
    u := MulInner(v, w);
    ProductPower(Value(v), Value(w), Value(u), x, e, f, P);
    OneIsSmall(u);
  }

  method Square(v: Fe, ghost x: int, ghost e: nat) returns (u: Fe)
    requires Holds(v, x, e)
    ensures Holds(u, x, 2 * e) && HasMagnitude(u, 1)
  {
    hide HasMagnitude, Value, IsPower, IsFactor;
    MagnitudeOfFactors(v);
    u := SqrInner(v);
    ProductPower(Value(v), Value(v), Value(u), x, e, e, P);
    OneIsSmall(u);
  }

  /** A link of the chain: n squarings and a multiplication. */
  method Link(v: Fe, n: nat, w: Fe, ghost x: int, ghost e: nat, ghost shift: nat, ghost f: nat)
    returns (u: Fe, ghost g: nat)
    requires Holds(v, x, e) && Holds(w, x, f) && shift == Pow2(n)
    ensures g == e * shift + f && Holds(u, x, g) && HasMagnitude(u, 1)
  {
    hide Holds, HasMagnitude;
    var t := v;
    ghost var d := e;
    for j := 0 to n
      invariant d == e * Pow2(j) && Holds(t, x, d)
    {
      PowTwo(j);
      Doubled(e, Pow2(j), Pow2(j + 1));
      t := Square(t, x, d);
      d := 2 * d;
    }
    u := Times(t, w, x, d, f);
    g := d + f;
  }

  /** The exponent made of 223 ones. */
  const ONES_223: nat := 0x7FFFFFFF_FFFFFFFF_FFFFFFFF_FFFFFFFF_FFFFFFFF_FFFFFFFF_FFFFFFFF

  /** The blocks of ones that both chains share. */
  method Blocks(a: Fe, ghost x: int) returns (x2: Fe, x22: Fe, x223: Fe)
    requires Holds(a, x, 1)
    ensures Holds(x2, x, 3) && Holds(x22, x, 0x3FFFFF)
    ensures Holds(x223, x, ONES_223)
  {
    hide Holds, Pow2, HasMagnitude;
    ChainShifts();
    x2 := Square(a, x, 1);
    x2 := Times(x2, a, x, 2, 1);
    var x3 := Square(x2, x, 3);
    x3 := Times(x3, a, x, 6, 1);
    var x6, x9, x11, x44, x88, x176, x220;
    ghost var e2, e3 := 3, 7;
    ghost var e6, e9, e11, e22, e44, e88, e176, e220, e223;
    x6, e6 := Link(x3, 3, x3, x, e3, 8, e3);
    x9, e9 := Link(x6, 3, x3, x, e6, 8, e3);
    x11, e11 := Link(x9, 2, x2, x, e9, 4, e2);
    x22, e22 := Link(x11, 11, x11, x, e11, 0x800, e11);
    x44, e44 := Link(x22, 22, x22, x, e22, 0x400000, e22);
    x88, e88 := Link(x44, 44, x44, x, e44, 0x1000_00000000, e44);
    x176, e176 := Link(x88, 88, x88, x, e88, 0x1000000_00000000_00000000, e88);
    x220, e220 := Link(x176, 44, x44, x, e176, 0x1000_00000000, e44);
    x223, e223 := Link(x220, 3, x3, x, e220, 8, e3);
  }

  /** `secp256k1_fe_inv`: the power p - 2. */
  method Inv(a: Fe) returns (r: Fe)
    requires HasMagnitude(a, 8)
    ensures HasMagnitude(r, 1) && IsPower(Value(r), Value(a), P - 2, P)
  {
    ghost var x := Value(a);
    FirstPower(x, P);
    assert Holds(a, x, 1);
    hide Pow2, HasMagnitude, Value, IsPower;
    ChainShifts();
    var x2, x22, x223 := Blocks(a, x);
    var t1;
    ghost var e := ONES_223;
    t1, e := Link(x223, 23, x22, x, e, 0x800000, 0x3FFFFF);
    t1, e := Link(t1, 5, a, x, e, 32, 1);
    t1, e := Link(t1, 3, x2, x, e, 8, 3);
    r, e := Link(t1, 2, a, x, e, 4, 1);
  }

  /** `secp256k1_fe_sqrt`: the power (p + 1) / 4, and whether its square is the input. */
  method Sqrt(a: Fe) returns (found: bool, r: Fe)
    requires HasMagnitude(a, 8)
    ensures HasMagnitude(r, 1) && IsPower(Value(r), Value(a), (P + 1) / 4, P)
    ensures found <==> Cong(Value(r) * Value(r), Value(a), P)
  {
    ghost var x := Value(a);
    FirstPower(x, P);
    assert Holds(a, x, 1);
    hide Pow2, HasMagnitude, Value, IsPower;
    ChainShifts();
    var x2, x22, x223 := Blocks(a, x);
    var t1;
    ghost var e := ONES_223;
    t1, e := Link(x223, 23, x22, x, e, 0x800000, 0x3FFFFF);
    t1, e := Link(t1, 6, x2, x, e, 64, 3);
    t1 := Square(t1, x, e);
    r := Square(t1, x, 2 * e);
    found := IsRoot(r, a);
  }

  /** The check that a square root was found. */
  method IsRoot(r: Fe, a: Fe) returns (found: bool)
    requires HasMagnitude(r, 1) && HasMagnitude(a, 8)
    ensures found <==> Cong(Value(r) * Value(r), Value(a), P)
  {
    hide HasMagnitude, Value, Cong, IsFactor;
    OneIsSmall(r);
    MagnitudeOfFactors(r);
    var sq := SqrInner(r);
    found := Equal(sq, a, 8);
    EqualSquare(Value(sq), Value(r) * Value(r), Value(a));
  }

  lemma EqualSquare(s: int, t: int, x: int)
    requires Cong(s, t, P)
    ensures Cong(s, x, P) <==> Cong(t, x, P)
  {
    hide Cong;
    CongSymm(s, t, P);
    if Cong(s, x, P) {
      CongTrans(t, s, x, P);
    }
    if Cong(t, x, P) {
      CongTrans(s, t, x, P);
    }
  }

  /** `secp256k1_fe_equal`: the first operand is negated, so its magnitude is one. */
  method Equal(a: Fe, b: Fe, ghost m: nat) returns (equal: bool)
    requires HasMagnitude(a, 1) && HasMagnitude(b, m) && m <= 29
    ensures equal <==> Cong(Value(a), Value(b), P)
  {
    hide HasMagnitude, Value, Cong;
    var na := Negate(a, 1);
    ghost var minus := Value(na);
    na := Add(na, b, 2, m);
    FewerThan(na, m + 2);
    equal := NormalizesToZero(na);
    EqualByDifference(Value(a), Value(b), minus);
  }

  lemma FewerThan(v: Fe, m: nat)
    requires HasMagnitude(v, m) && m <= 31
    ensures HasMagnitude(v, 31)
  {
    Weaken(m, M);
    Weaken(m, TOP_MASK);
  }

  lemma Weaken(m: nat, b: nat)
    requires m <= 31
    ensures 2 * m * b <= 2 * 31 * b
  {}

  lemma EqualByDifference(a: int, b: int, minus: int)
    requires Cong(minus, -a, P)
    ensures (minus + b) % P == 0 <==> Cong(a, b, P)
  {
    hide Cong;
    CongWitness(a, a, P, 0);
    CongWitness(b, b, P, 0);
    CongAdd(minus, -a, b, b, P);
    CongIffModEqual(minus + b, 0, P);
    if Cong(minus + b, 0, P) {
      CongSymm(minus + b, -a + b, P);
      CongTrans(-a + b, minus + b, 0, P);
      CongAdd(-a + b, 0, a, a, P);
      CongSymm(b, a, P);
    }
    if Cong(a, b, P) {
      CongAdd(b, b, a, b, P);
      CongTrans(minus + b, -a + b, 0, P);
    }
  }

  // --- What the powers mean when the characteristic is prime

  /** By Fermat's little theorem the chain inverts, and takes zero to zero. */
  lemma InverseOf(v: int, a: int)
    requires Fermat(P) && IsPower(v, a, P - 2, P)
    ensures a % P != 0 ==> Cong(a * v, 1, P)
    ensures a % P == 0 ==> v % P == 0
  {
    hide IsPower, Fermat;
    if a % P != 0 {
      PowerInverts(v, a, P);
    } else {
      PowerOfZero(v, a, P - 2, P);
    }
  }

  /** A square root is found exactly when there is one. */
  lemma RootOf(v: int, a: int, y: int)
    requires Fermat(P) && IsPower(v, a, (P + 1) / 4, P)
    requires Cong(y * y, a, P)
    ensures Cong(v * v, a, P)
  {
    hide Pow, Fermat;
    var e := (P + 1) / 4;
    assert 2 * e == (P + 1) / 2 && 2 * (2 * e) == P + 1;
    // v * v is a^((p+1)/2), which is y^(p+1).
    CongMul(v, Pow(a, e), v, Pow(a, e), P);
    PowAdd(a, e, e);
    CongSymm(y * y, a, P);
    PowCong(a, y * y, 2 * e, P);
    CongTrans(v * v, Pow(a, 2 * e), Pow(y * y, 2 * e), P);
    PowOfProduct(y, y, 2 * e);
    PowAdd(y, 2 * e, 2 * e);
    PrimeRoot(y);
    CongTrans(v * v, Pow(y, P + 1), y * y, P);
    CongTrans(v * v, y * y, a, P);
  }

  lemma PrimeRoot(y: int)
    requires Fermat(P)
    ensures Cong(Pow(y, P + 1), y * y, P)
  {
    PowAdd(y, 2, P - 1);
    SquarePower(y);
    hide Cong, Pow;
    if y % P != 0 {
      CongWitness(y * y, y * y, P, 0);
      CongMul(y * y, y * y, Pow(y, P - 1), 1, P);
    } else {
      CongIffModEqual(y, 0, P);
      DivModUnique(0, P, 0, 0);
      CongMul(y, 0, y, 0, P);
      CongWitness(Pow(y, P - 1), Pow(y, P - 1), P, 0);
      CongMul(y * y, 0, Pow(y, P - 1), Pow(y, P - 1), P);
      CongSymm(y * y, 0, P);
      CongTrans(Pow(y, P + 1), 0, y * y, P);
    }
  }

  lemma SquarePower(y: int)
    ensures Pow(y, 2) == y * y
  {
    assert Pow(y, 2) == y * Pow(y, 1) == y * (y * Pow(y, 0));
  }
}
