/** Exponents followed through chains of squarings and multiplications. */
module Powers {
  import opened Numbers

  function Pow(x: int, e: nat): int {
    if e == 0 then 1 else x * Pow(x, e - 1)
  }

  /** v is the power x^e modulo m. */
  ghost predicate IsPower(v: int, x: int, e: nat, m: int) {
    Cong(v, Pow(x, e), m)
  }

  lemma {:induction false} PowAdd(x: int, e: nat, f: nat)
    ensures Pow(x, e) * Pow(x, f) == Pow(x, e + f)
  {
    if e > 0 {
      PowAdd(x, e - 1, f);
      Regroup(x, Pow(x, e - 1), Pow(x, f));
    }
  }

  lemma Regroup(x: int, p: int, q: int)
    ensures (x * p) * q == x * (p * q)
  {}

  lemma FirstPower(x: int, m: int)
    ensures IsPower(x, x, 1, m)
  {
    assert Pow(x, 1) == x * Pow(x, 0);
    CongWitness(x, x, m, 0);
  }

  lemma ProductPower(v: int, w: int, u: int, x: int, e: nat, f: nat, m: int)
    requires IsPower(v, x, e, m) && IsPower(w, x, f, m) && Cong(u, v * w, m)
    ensures IsPower(u, x, e + f, m)
  {
    hide Cong, Pow;
    CongMul(v, Pow(x, e), w, Pow(x, f), m);
    PowAdd(x, e, f);
    CongTrans(u, v * w, Pow(x, e + f), m);
  }

  /** Powers of congruent numbers are congruent. */
  lemma {:induction false} PowCong(x: int, y: int, e: nat, m: int)
    requires Cong(x, y, m)
    ensures Cong(Pow(x, e), Pow(y, e), m)
  {
    hide Cong;
    if e == 0 {
      CongWitness(1, 1, m, 0);
    } else {
      PowCong(x, y, e - 1, m);
      CongMul(x, y, Pow(x, e - 1), Pow(y, e - 1), m);
    }
  }

  lemma {:induction false} PowOfProduct(x: int, y: int, e: nat)
    ensures Pow(x * y, e) == Pow(x, e) * Pow(y, e)
  {
    if e > 0 {
      PowOfProduct(x, y, e - 1);
      Interchange(x, y, Pow(x, e - 1), Pow(y, e - 1));
    }
  }

  lemma Interchange(x: int, y: int, p: int, q: int)
    ensures (x * y) * (p * q) == (x * p) * (y * q)
  {}

  /** What Fermat's little theorem says of a modulus. */
  ghost predicate Fermat(m: int) {
    m > 1 && forall a: int {:trigger Pow(a, m - 1)} :: a % m != 0 ==> Cong(Pow(a, m - 1), 1, m)
  }

  /** The exponent m - 2 inverts. */
  lemma PowerInverts(v: int, x: int, m: int)
    requires Fermat(m) && x % m != 0 && IsPower(v, x, m - 2, m)
    ensures Cong(x * v, 1, m)
  {
    hide Cong;
    assert Pow(x, m - 1) == x * Pow(x, m - 2);
    CongWitness(x, x, m, 0);
    CongMul(x, x, v, Pow(x, m - 2), m);
    CongTrans(x * v, Pow(x, m - 1), 1, m);
  }

  /** Zero stays zero. */
  lemma PowerOfZero(v: int, x: int, e: nat, m: int)
    requires m > 0 && x % m == 0 && e > 0 && IsPower(v, x, e, m)
    ensures v % m == 0
  {
    hide Cong;
    CongIffModEqual(x, 0, m);
    DivModUnique(0, m, 0, 0);
    PowCong(x, 0, e, m);
    assert Pow(0, e) == 0 * Pow(0, e - 1) == 0;
    CongTrans(v, Pow(x, e), 0, m);
    CongIffModEqual(v, 0, m);
  }

  lemma PowTwo(n: nat)
    ensures Pow2(n + 1) == 2 * Pow2(n)
  {}

  lemma Doubled(e: nat, p: nat, q: nat)
    requires q == 2 * p
    ensures 2 * (e * p) == e * q
  {}

  /** The powers of two that the chains use. */
  lemma ChainShifts()
    ensures Pow2(1) == 2 && Pow2(2) == 4 && Pow2(3) == 8 && Pow2(4) == 16 && Pow2(5) == 32 && Pow2(6) == 64
    ensures Pow2(8) == 0x100 && Pow2(9) == 0x200 && Pow2(10) == 0x400 && Pow2(11) == 0x800 && Pow2(14) == 0x4000
    ensures Pow2(22) == 0x40_0000 && Pow2(23) == 0x80_0000 && Pow2(28) == 0x1000_0000
    ensures Pow2(44) == 0x1000_0000_0000 && Pow2(56) == 0x100_0000_0000_0000
    ensures Pow2(88) == 0x100_0000_0000_0000_0000_0000
  {
    ShortShifts();
    hide Pow2;
    Pow2Square(11, 0x800);
    Pow2Square(14, 0x4000);
    Pow2Square(22, 0x40_0000);
    Pow2Square(28, 0x1000_0000);
    Pow2Square(44, 0x1000_0000_0000);
    PowTwo(22);
  }

  lemma ShortShifts()
    ensures Pow2(1) == 2 && Pow2(2) == 4 && Pow2(3) == 8 && Pow2(4) == 16 && Pow2(5) == 32 && Pow2(6) == 64
    ensures Pow2(8) == 0x100 && Pow2(9) == 0x200 && Pow2(10) == 0x400 && Pow2(11) == 0x800 && Pow2(14) == 0x4000
  {}
}
