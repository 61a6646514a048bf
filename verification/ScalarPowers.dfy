/** Inversion modulo the group order by an addition chain (scalar_impl.h). */
module ScalarPowers {
  import opened Numbers
  import opened Scalar8x32
  import opened ScalarOps
  import opened Powers

  /** A known power of the input. */
  ghost predicate Holds(v: Scalar, x: int, e: nat) {
    IsPower(Value(v), x, e, N)
  }

  lemma HeldPower(v: Scalar, x: int, e: nat)
    requires Holds(v, x, e)
    ensures IsPower(Value(v), x, e, N)
  {}

  method Times(v: Scalar, w: Scalar, ghost x: int, ghost e: nat, ghost f: nat) returns (u: Scalar)
    requires Holds(v, x, e) && Holds(w, x, f)
    ensures Holds(u, x, e + f) && Value(u) < N
  {
    hide Value, IsPower;
    u := Mul(v, w);
    CongMod(Value(v) * Value(w), N);
    ProductPower(Value(v), Value(w), Value(u), x, e, f, N);
  }

  method Square(v: Scalar, ghost x: int, ghost e: nat) returns (u: Scalar)
    requires Holds(v, x, e)
    ensures Holds(u, x, 2 * e)
  {
    hide Value, IsPower;
    u := Sqr(v);
    CongMod(Value(v) * Value(v), N);
    ProductPower(Value(v), Value(v), Value(u), x, e, e, N);
  }

  /** A link of the chain: n squarings and a multiplication. */
  method Link(v: Scalar, n: nat, w: Scalar, ghost x: int, ghost e: nat, ghost shift: nat, ghost f: nat)
    returns (u: Scalar, ghost g: nat)
    requires Holds(v, x, e) && Holds(w, x, f) && shift == Pow2(n)
    ensures g == e * shift + f && Holds(u, x, g) && Value(u) < N
  {
    hide Holds;
    var t := v;
    ghost var d := e;
    for j := 0 to n
      invariant d == e * Pow2(j) && Holds(t, x, d)
    {
      PowTwo(j);
      Doubled(e, Pow2(j), Pow2(j + 1));
      t := Square(t, x, d);
      d := 2 * d;
    }
    u := Times(t, w, x, d, f);
    g := d + f;
  }

  /** The exponent made of 126 ones. */
  const ONES_126: nat := 0x3FFFFFFF_FFFFFFFF_FFFFFFFF_FFFFFFFF

  /** The exponent half way. */
  const MIDDLE: nat := 0x7FFFF_FFFFFFFF_FFFFFFFF_FFFFFFFF_FFF5D576_E7357A45

  /** The chain up to the first 126 ones. */
  method Blocks(a: Scalar, x2: Scalar, u11: Scalar, u13: Scalar, ghost x: int)
    returns (x6: Scalar, x8: Scalar, x126: Scalar)
    requires Holds(a, x, 1) && Holds(x2, x, 3) && Holds(u11, x, 11) && Holds(u13, x, 13)
    ensures Holds(x6, x, 63) && Holds(x8, x, 255) && Holds(x126, x, ONES_126)
  {
    hide Holds, Pow2;
    ChainShifts();
    var x14, x28, x56, x112;
    ghost var e;
    x6, e := Link(u13, 2, u11, x, 13, 4, 11);
    x8, e := Link(x6, 2, x2, x, 63, 4, 3);
    x14, e := Link(x8, 6, x6, x, 0xFF, 64, 63);
    x28, e := Link(x14, 14, x14, x, 0x3FFF, 0x4000, 0x3FFF);
    x56, e := Link(x28, 28, x28, x, 0xFFFFFFF, 0x10000000, 0xFFFFFFF);
    x112, e := Link(x56, 56, x56, x, 0xFFFFFF_FFFFFFFF, 0x1000000_00000000, 0xFFFFFF_FFFFFFFF);
    x126, e := Link(x112, 14, x14, x, 0xFFFF_FFFFFFFF_FFFFFFFF_FFFFFFFF, 0x4000, 0x3FFF);
  }

  method Accumulate(x126: Scalar, x3: Scalar, u5: Scalar, u9: Scalar, u11: Scalar, u13: Scalar, ghost x: int)
    returns (t: Scalar)
    requires Holds(x126, x, ONES_126) && Holds(x3, x, 7)
    requires Holds(u5, x, 5) && Holds(u9, x, 9) && Holds(u11, x, 11) && Holds(u13, x, 13)
    ensures Holds(t, x, MIDDLE)
  {
    hide Holds, Pow2;
    ChainShifts();
    t := x126;
    ghost var e := ONES_126;
    t, e := Link(t, 3, u5, x, e, 8, 5);
    t, e := Link(t, 4, x3, x, e, 16, 7);
    t, e := Link(t, 4, u5, x, e, 16, 5);
    t, e := Link(t, 5, u11, x, e, 32, 11);
    t, e := Link(t, 4, u11, x, e, 16, 11);
    t, e := Link(t, 4, x3, x, e, 16, 7);
    t, e := Link(t, 5, x3, x, e, 32, 7);
    t, e := Link(t, 6, u13, x, e, 64, 13);
    t, e := Link(t, 4, u5, x, e, 16, 5);
    t, e := Link(t, 3, x3, x, e, 8, 7);
    t, e := Link(t, 5, u9, x, e, 32, 9);
    t, e := Link(t, 6, u5, x, e, 64, 5);
  }

  /** `secp256k1_scalar_inverse`: the power n - 2. */
  method Inverse(a: Scalar) returns (r: Scalar)
    ensures Value(r) < N && IsPower(Value(r), Value(a), N - 2, N)
  {
    ghost var x := Value(a);
    FirstPower(x, N);
    assert Holds(a, x, 1);
    hide Holds, Pow2, Value;
    var u2 := Square(a, x, 1);
    var x2 := Times(u2, a, x, 2, 1);
    var u5 := Times(u2, x2, x, 2, 3);
    var x3 := Times(u5, u2, x, 5, 2);
    var u9 := Times(x3, u2, x, 7, 2);
    var u11 := Times(u9, u2, x, 9, 2);
    var u13 := Times(u11, u2, x, 11, 2);
    var x6, x8, x126 := Blocks(a, x2, u11, u13, x);
    var t := Accumulate(x126, x3, u5, u9, u11, u13, x);
    r := Finish(a, t, x2, x3, x6, x8, u9, u11, u13, x);
    HeldPower(r, x, N - 2);
  }

  method Finish(a: Scalar, t0: Scalar, x2: Scalar, x3: Scalar, x6: Scalar, x8: Scalar,
      u9: Scalar, u11: Scalar, u13: Scalar, ghost x: int)
    returns (r: Scalar)
    requires Holds(a, x, 1) && Holds(t0, x, MIDDLE)
    requires Holds(x2, x, 3) && Holds(x3, x, 7) && Holds(x6, x, 63) && Holds(x8, x, 255)
    requires Holds(u9, x, 9) && Holds(u11, x, 11) && Holds(u13, x, 13)
    ensures Holds(r, x, N - 2) && Value(r) < N
  {
    hide Holds, Pow2, Value;
    ChainShifts();
    var t := t0;
    ghost var e := MIDDLE;
    t, e := Link(t, 10, x3, x, e, 0x400, 7);
    t, e := Link(t, 4, x3, x, e, 16, 7);
    t, e := Link(t, 9, x8, x, e, 0x200, 0xFF);
    t, e := Link(t, 5, u9, x, e, 32, 9);
    t, e := Link(t, 6, u11, x, e, 64, 11);
    t, e := Link(t, 4, u13, x, e, 16, 13);
    t, e := Link(t, 5, x2, x, e, 32, 3);
    t, e := Link(t, 6, u13, x, e, 64, 13);
    t, e := Link(t, 10, u13, x, e, 0x400, 13);
    t, e := Link(t, 4, u9, x, e, 16, 9);
    t, e := Link(t, 6, a, x, e, 64, 1);
    r, e := Link(t, 8, x6, x, e, 0x100, 63);
  }

  /** By Fermat's little theorem for the group order the chain inverts. */
  lemma InverseOf(v: int, a: int)
    requires Fermat(N) && IsPower(v, a, N - 2, N)
    ensures a % N != 0 ==> a * v % N == 1
    ensures a % N == 0 ==> v % N == 0
  {
    hide IsPower, Fermat;
    if a % N != 0 {
      PowerInverts(v, a, N);
      CongIffModEqual(a * v, 1, N);
      DivModUnique(1, N, 0, 1);
    } else {
      PowerOfZero(v, a, N - 2, N);
    }
  }
}
