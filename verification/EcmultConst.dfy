/** Constant-time multiplication of a point by a scalar (ecmult_const_impl.h). */
module EcmultConst {
  import opened Groups
  import opened Numbers
  import opened Recoding
  import opened RecodingConst
  import opened OddTables

  const WINDOW_A: nat := 5

  /** The absolute value of a scalar, which is what the size argument bounds. */
  function Magnitude(q: nat): nat
    requires q < N
  {
    if IsHigh(q) then N - q else q
  }

  /** A scalar whose magnitude has fewer than `size` bits fits the recoding for `size`. */
  lemma MagnitudeFits(q: nat, size: nat, w: nat)
    requires q < N && size > 0 && w >= 2 && Magnitude(q) < Pow2(size - 1)
    ensures Adjusted(q) < Pow2(w * (SizeBits(size, w) + 1))
  {
    hide Pow2;
    SizeBitsBounds(size, w);
    var words := SizeBits(size, w);
    assert w * (words + 1) == w * words + w;
    Pow2Monotone(size + 2, w * (words + 1));
    Pow2Last(size + 2);
    Pow2Last(size + 1);
    Pow2Last(size);
    AdjustedMagnitude(q);
  }

  lemma AdjustedMagnitude(q: nat)
    requires q < N
    ensures Adjusted(q) <= Magnitude(q) + 2
  {
    assert Pow2(0) == 1 && Pow2(1) == 2;
  }

  /** Every scalar is allowed at the full size. */
  lemma FullSize(q: nat)
    requires q < N
    ensures Magnitude(q) < Pow2(WNAF_BITS - 1)
  {
    Pow2Values();
  }

  /** `secp256k1_gej_double_nonzero`, which must not be called on infinity. */
  method DoubleNonzero(g: Group, p: Point) returns (r: Point)
    requires p != g.zero
    ensures r == g.add(p, p)
  {
    r := g.add(p, p);
  }

  /** `secp256k1_gej_add_ge`, whose second operand must not be infinity. */
  method AddAffine(g: Group, p: Point, q: Point) returns (r: Point)
    requires q != g.zero
    ensures r == g.add(p, q)
  {
    r := g.add(p, q);
  }

  /** The multiple that the accumulator holds before digit i - 1 is processed: never zero, of
  one sign, and small enough that doubling it w times cannot reach infinity. */
  ghost predicate Partial(v: int, sign: int) {
    0 < sign * v <= N / 2 + 2
  }

  lemma {:induction false} OddValue(ds: seq<int>, w: nat)
    requires w >= 1 && AreOddDigits(ds, w) && |ds| > 0
    ensures Value(ds, w) % 2 == 1
  {
    Pow2Even(w);
    var p, v := Pow2(w), Value(ds[1..], w);
    assert p == 2 * (p / 2) && p * v == 2 * (p / 2 * v);
  }

  /** Dropping the lowest digit keeps the sign of the rest and does not make it larger. */
  lemma TailPartial(ds: seq<int>, sign: int, w: nat)
    requires w >= 1 && AreOddDigits(ds, w) && |ds| > 1 && (sign == 1 || sign == -1)
    requires Partial(Value(ds, w), sign)
    ensures Partial(Value(ds[1..], w), sign)
    ensures sign * Value(ds[1..], w) * Pow2(w) <= N / 2 + 1 + Pow2(w)
  {
    OddValue(ds[1..], w);
    TailBound(ds[0], Value(ds[1..], w), sign, Pow2(w));
  }

  lemma TailBound(d: int, v: int, sign: int, p: int)
    requires p >= 2 && -p < d < p && v % 2 == 1 && (sign == 1 || sign == -1)
    requires 0 < sign * (d + p * v) <= N / 2 + 2
    ensures 0 < sign * v <= N / 2 + 2
    ensures sign * v * p <= N / 2 + 1 + p
  {
    SignedSum(d, v, sign, p);
    TailPositive(sign * d, sign * v, p);
  }

  lemma SignedSum(d: int, v: int, sign: int, p: int)
    requires sign == 1 || sign == -1
    ensures sign * (d + p * v) == sign * d + p * (sign * v)
    ensures sign * v == v || sign * v == -v
    ensures sign * d == d || sign * d == -d
  {
  }

  lemma TailPositive(e: int, t: int, p: int)
    requires p >= 2 && -p < e < p && t % 2 == 1
    requires 0 < e + p * t <= N / 2 + 2
    ensures 0 < t <= N / 2 + 2 && t * p <= N / 2 + 1 + p
  {
    if t <= 0 { MulMonotone(t, -1, p); }
    MulMonotone(2, p, t);
  }

  lemma {:induction false} TailsPartial(ds: seq<int>, i: nat, sign: int, w: nat)
    requires w >= 1 && AreOddDigits(ds, w) && i < |ds| && (sign == 1 || sign == -1)
    requires Partial(Value(ds, w), sign)
    ensures Partial(Value(ds[i..], w), sign) && 0 < sign * Value(ds[i..], w)
    ensures i > 0 ==> sign * Value(ds[i..], w) * Pow2(w) <= N / 2 + 1 + Pow2(w)
  {
    if i == 0 {
      assert ds[0..] == ds;
    } else {
      TailsPartial(ds, i - 1, sign, w);
      hide Value, Partial;
      assert ds[i - 1..][1..] == ds[i..];
      TailPartial(ds[i - 1..], sign, w);
    }
  }

  /** What the recoding stands for has the sign of the recoding and at most half the order's size. */
  lemma WholePartial(q: nat, v: int)
    requires q < N && v == q + Pow2(SkewBit(q)) - (if IsHigh(q) then N else 0)
    ensures exists sign :: (sign == 1 || sign == -1) && Partial(v, sign)
  {
    AdjustedMeaning(q);
    var s := AdjustedSign(q);
    assert s * (s * Adjusted(q)) == Adjusted(q);
    assert Partial(v, s);
  }

  /** `secp256k1_ecmult_const` without the endomorphism: q * a for every scalar q. */
  method EcmultConst(g: Group, a: Point, q: nat, size: nat) returns (r: Point)
    requires IsAbelian(g) && HasOrderN(g, a)
    requires q < N && 0 < size <= WNAF_BITS && Magnitude(q) < Pow2(size - 1)
    ensures r == Mul(g, q, a)
  {
    hide Value, SizeBits, Pow2, IsAbelian, HasOrderN, AreOddDigits, Partial, Mul;
    var w := WINDOW_A - 1;
    var words := SizeBits(size, w);
    MagnitudeFits(q, size, w);
    var wnaf := new int[words + 1];
    var skew, rest := WnafConst(wnaf, q, w, size);
    DigitNotInfinity(g, 1, a);
    MulOne(g, a);
    var pre := new Point[TableSize(WINDOW_A)](_ => g.zero);
    OddMultiples(g, pre, 0, TableSize(WINDOW_A), a);
    assert pre[0..TableSize(WINDOW_A)] == pre[..];
    ghost var ds := wnaf[..];
    WholePartial(q, Value(ds, w));
    ghost var sign :| (sign == 1 || sign == -1) && Partial(Value(ds, w), sign);

    DigitOf(ds, words, w);
    r := TableGetConst(g, pre, wnaf[words], WINDOW_A, a);
    var i := words;
    LastValue(ds, words, w);
    while i > 0
      invariant 0 <= i <= words
      invariant wnaf[..] == ds && IsOddTable(g, pre[..], a)
      invariant r == Mul(g, Value(ds[i..], w), a)
    {
      i := i - 1;
      TailsPartial(ds, i + 1, sign, w);
      r := DoubleTimes(g, r, a, Value(ds[i + 1..], w), sign);
      DigitOf(ds, i, w);
      var p := TableGetConst(g, pre, wnaf[i], WINDOW_A, a);
      DigitNotInfinity(g, wnaf[i], a);
      r := AddAffine(g, r, p);
      HornerStep(g, ds, i, a, w);
    }
    assert ds[0..] == ds;
    var correction := a;
    var twice := g.add(a, a);
    if skew == 2 { correction := twice; }
    Correction(g, a, q, skew);
    r := AddAffine(g, r, g.neg(correction));
  }

  lemma DigitOf(ds: seq<int>, i: nat, w: nat)
    requires i < |ds| && AreOddDigits(ds, w) && w == WINDOW_A - 1
    ensures ds[i] % 2 == 1 && -Pow2(WINDOW_A - 1) < ds[i] < Pow2(WINDOW_A - 1) == 16
  {
    Pow2Small();
  }

  lemma DigitNotInfinity(g: Group, n: int, a: Point)
    requires HasOrderN(g, a) && n % 2 == 1 && -16 < n < 16
    ensures Mul(g, n, a) != g.zero
  {
    SmallMultiple(g, n, a);
  }

  lemma LastValue(ds: seq<int>, i: nat, w: nat)
    requires |ds| == i + 1
    ensures Value(ds[i..], w) == ds[i]
  {
    assert ds[i..] == [ds[i]];
    assert Value([ds[i]], w) == ds[i] + Pow2(w) * Value([ds[i]][1..], w);
  }

  /** WINDOW_A - 1 doublings, none of them of infinity. */
  method DoubleTimes(g: Group, p: Point, ghost a: Point, ghost v: int, ghost sign: int) returns (r: Point)
    requires IsAbelian(g) && HasOrderN(g, a) && p == Mul(g, v, a)
    requires (sign == 1 || sign == -1) && 0 < sign * v && sign * v * 16 <= N / 2 + 1 + 16
    ensures r == Mul(g, 16 * v, a)
  {
    hide IsAbelian, HasOrderN, Mul;
    r := p;
    ghost var m := v;
    var j := 0;
    while j < WINDOW_A - 1
      invariant 0 <= j <= WINDOW_A - 1
      invariant m == [1, 2, 4, 8, 16][j] * v && r == Mul(g, m, a)
    {
      SmallMultiple(g, m, a);
      MulAdd(g, m, m, a);
      r := DoubleNonzero(g, r);
      m := m + m;
      j := j + 1;
    }
  }

  lemma HornerStep(g: Group, ds: seq<int>, i: nat, a: Point, w: nat)
    requires IsAbelian(g) && w == WINDOW_A - 1 && i < |ds|
    ensures Mul(g, Value(ds[i..], w), a) == g.add(Mul(g, 16 * Value(ds[i + 1..], w), a), Mul(g, ds[i], a))
  {
    Pow2Small();
    hide Pow2;
    assert ds[i..][1..] == ds[i + 1..];
    MulAdd(g, 16 * Value(ds[i + 1..], w), ds[i], a);
  }

  /** Taking the skew away leaves the multiple by q, since the order kills the point. */
  lemma Correction(g: Group, a: Point, q: nat, skew: nat)
    requires IsAbelian(g) && HasOrderN(g, a) && q < N && 1 <= skew <= 2
    ensures var v := q + skew - (if IsHigh(q) then N else 0);
            g.add(Mul(g, v, a), g.neg(if skew == 2 then g.add(a, a) else a)) == Mul(g, q, a)
    ensures g.neg(if skew == 2 then g.add(a, a) else a) != g.zero
  {
    hide IsAbelian, HasOrderN, Mul;
    var v := q + skew - (if IsHigh(q) then N else 0);
    MulOne(g, a);
    MulNeg(g, skew, a);
    SmallMultiple(g, 0 - skew, a);
    MulAdd(g, v, 0 - skew, a);
    OrderVanishes(g, a);
    if IsHigh(q) {
      MulCongruent(g, N, q, -1, a);
      assert q + -1 * N == v - skew;
    }
  }
}
