/** Residues modulo the characteristic of the field, represented by any integers. */
module Field {
  import opened Numbers

  /** The characteristic of the field. The formulas divide by two, and need nothing else of it. */
  type Characteristic = m: nat | m > 2 && m % 2 == 1 witness 3

  const CHAR: Characteristic

  /** a and b are the same field element. */
  ghost predicate Eq(a: int, b: int) {
    Cong(a, b, CHAR)
  }

  /** `secp256k1_fe_normalizes_to_zero_var` */
  predicate IsZero(a: int) {
    a % CHAR == 0
  }

  lemma ZeroIffEq(a: int)
    ensures IsZero(a) <==> Eq(a, 0)
  {
    CongIffModEqual(a, 0, CHAR);
    DivModUnique(0, CHAR, 0, 0);
  }

  lemma EqRefl(a: int)
    ensures Eq(a, a)
  {
    CongWitness(a, a, CHAR, 0);
  }

  lemma EqSymm(a: int, b: int)
    requires Eq(a, b)
    ensures Eq(b, a)
  {
    CongSymm(a, b, CHAR);
  }

  lemma EqTrans(a: int, b: int, c: int)
    requires Eq(a, b) && Eq(b, c)
    ensures Eq(a, c)
  {
    CongTrans(a, b, c, CHAR);
  }

  lemma EqAdd(a: int, b: int, c: int, d: int)
    requires Eq(a, b) && Eq(c, d)
    ensures Eq(a + c, b + d)
  {
    CongAdd(a, b, c, d, CHAR);
  }

  lemma EqSub(a: int, b: int, c: int, d: int)
    requires Eq(a, b) && Eq(c, d)
    ensures Eq(a - c, b - d)
  {
    CongAdd(a, b, c, d, CHAR);
  }

  lemma EqMul(a: int, b: int, c: int, d: int)
    requires Eq(a, b) && Eq(c, d)
    ensures Eq(a * c, b * d)
  {
    CongMul(a, b, c, d, CHAR);
  }

  lemma EqScale(a: int, b: int, c: int)
    requires Eq(a, b)
    ensures Eq(a * c, b * c)
  {
    EqRefl(c);
    EqMul(a, b, c, c);
  }

  // ---------- inversion ----------

  /** inv inverts a, and maps zero to zero as an exponentiation does. That every other element
  has an inverse means that it is prime, which is an assumption of the model. */
  ghost predicate InverseAt(inv: int -> int, a: int) {
    if IsZero(a) then IsZero(inv(a)) else Eq(a * inv(a), 1)
  }

  ghost predicate IsInverse(inv: int -> int) {
    forall a :: InverseAt(inv, a)
  }

  lemma Inverts(inv: int -> int, a: int)
    requires IsInverse(inv) && !IsZero(a)
    ensures Eq(a * inv(a), 1)
  {
    assert InverseAt(inv, a);
  }

  lemma InverseOfZero(inv: int -> int, a: int)
    requires IsInverse(inv) && IsZero(a)
    ensures IsZero(inv(a))
  {
    assert InverseAt(inv, a);
  }

  /** Factors other than zero can be cancelled. */
  lemma Cancel(inv: int -> int, a: int, b: int, c: int)
    requires IsInverse(inv) && !IsZero(c) && Eq(a * c, b * c)
    ensures Eq(a, b)
  {
    Inverts(inv, c);
    hide Eq, IsZero, IsInverse;
    var ci := inv(c);
    EqScale(a * c, b * c, ci);
    EqScale(c * ci, 1, a);
    EqScale(c * ci, 1, b);
    Regroup(a, c, ci);
    Regroup(b, c, ci);
    EqSymm(c * ci * a, 1 * a);
    EqTrans(a, a * c * ci, b * c * ci);
    EqTrans(a, b * c * ci, b);
  }

  lemma Regroup(a: int, c: int, d: int)
    ensures a * c * d == c * d * a
  {
  }

  /** There are no divisors of zero. */
  lemma NonzeroProduct(inv: int -> int, a: int, b: int)
    requires IsInverse(inv) && !IsZero(a)
    ensures IsZero(a * b) <==> IsZero(b)
  {
    hide IsZero, IsInverse, Eq;
    ZeroIffEq(a * b);
    ZeroIffEq(b);
    ZeroFactor(b, a);
    if Eq(a * b, 0) {
      assert b * a == a * b && 0 * a == 0;
      Cancel(inv, b, 0, a);
    }
  }

  lemma ZeroEq(a: int, b: int)
    requires Eq(a, b)
    ensures IsZero(a) <==> IsZero(b)
  {
    CongIffModEqual(a, b, CHAR);
  }

  lemma EqDifference(a: int, b: int)
    ensures IsZero(a - b) <==> Eq(a, b)
  {
    ZeroIffEq(a - b);
    EqRefl(b);
    if Eq(a - b, 0) { EqAdd(a - b, 0, b, b); }
    if Eq(a, b) { EqSub(a, b, b, b); }
  }

  lemma ZeroFactor(a: int, c: int)
    ensures IsZero(a) ==> IsZero(a * c)
  {
    ZeroIffEq(a);
    ZeroIffEq(a * c);
    if IsZero(a) { EqScale(a, 0, c); }
  }
}
