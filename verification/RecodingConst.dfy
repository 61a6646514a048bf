/** The recoding of ecmult_const_impl.h, in which every digit is odd, so that the
multiplication performs the same operations for every scalar. */
module RecodingConst {
  import opened Numbers
  import opened Recoding

  /** `secp256k1_scalar_is_high`: above half the order. */
  predicate IsHigh(s: nat) {
    s > N / 2
  }

  /** `secp256k1_scalar_negate`. */
  function Negate(s: nat): nat
    requires s < N
  {
    if s == 0 then 0 else N - s
  }

  /** Position of the bit that is added: 1 is added to even scalars and 2 to odd ones,
  the other way round when the scalar is going to be negated. */
  function SkewBit(q: nat): nat {
    if IsHigh(q) == (q % 2 == 1) then 0 else 1
  }

  /** The odd number that is recoded, and the sign that goes with it. */
  function Adjusted(q: nat): (s: nat)
    requires q < N
    ensures s % 2 == 1 && s <= N / 2 + 2
  {
    var t := if q == N - 1 then q else q + Pow2(SkewBit(q));
    assert Pow2(0) == 1 && Pow2(1) == 2;
    if IsHigh(q) then Negate(t) else t
  }

  function AdjustedSign(q: nat): int {
    if q == N - 1 then 1 else if IsHigh(q) then -1 else 1
  }

  /** The recoded number is the scalar plus the skew, up to a multiple of the order. */
  lemma AdjustedMeaning(q: nat)
    requires q < N
    ensures AdjustedSign(q) * Adjusted(q) == q + Pow2(SkewBit(q)) - (if IsHigh(q) then N else 0)
    ensures Cong(AdjustedSign(q) * Adjusted(q), q + Pow2(SkewBit(q)), N)
  {
    assert Pow2(0) == 1 && Pow2(1) == 2;
    CongWitness(AdjustedSign(q) * Adjusted(q), q + Pow2(SkewBit(q)), N, if IsHigh(q) then -1 else 0);
  }

  /** Every scalar fits the digits of a recoding of 256 bits. */
  lemma AdjustedFits(q: nat, w: nat)
    requires q < N && w >= 1
    ensures Adjusted(q) < Pow2(w * (SizeBits(WNAF_BITS, w) + 1))
  {
    SizeBitsBounds(WNAF_BITS, w);
    Pow2Values();
    var words := SizeBits(WNAF_BITS, w);
    assert w * (words + 1) == w * words + w;
    Pow2Monotone(WNAF_BITS, w * (words + 1));
  }

  /** All digits are odd and below 2^w in absolute value. */
  ghost predicate AreOddDigits(ds: seq<int>, w: nat) {
    forall j :: 0 <= j < |ds| ==> ds[j] % 2 == 1 && -Pow2(w) < ds[j] < Pow2(w)
  }

  /** The loop of `WnafConst` after `word` digits: the digits and the pending odd window
  `last` stand for the low word + 1 windows of the adjusted scalar. */
  ghost predicate ConstSoFar(ds: seq<int>, adjusted: nat, sign: int, word: nat, last: int, w: nat) {
    && word < |ds| && (sign == 1 || sign == -1)
    && Value(ds[..word], w) + Term(sign * last, w, word) == sign * Low(adjusted, w, word + 1)
    && AreOddDigits(ds[..word], w)
    && last % 2 == 1 && 0 < last < Pow2(w)
  }

  /** `secp256k1_wnaf_const`. The scalar that is left over, `rest`, is zero after the loop, as
  the C function checks, because the adjusted scalar fits the digits. */
  method WnafConst(wnaf: array<int>, q: nat, w: nat, size: nat) returns (skew: nat, ghost rest: nat)
    requires q < N && 1 <= w <= 15 && size > 0
    requires wnaf.Length == SizeBits(size, w) + 1
    requires Adjusted(q) < Pow2(w * wnaf.Length)
    modifies wnaf
    ensures Value(wnaf[..], w) == q + skew - (if IsHigh(q) then N else 0)
    ensures AreOddDigits(wnaf[..], w)
    ensures skew == Pow2(SkewBit(q)) && 1 <= skew <= 2
    ensures rest == 0
  {
    hide Value, Term, Low, Field, Bits, ConstSoFar, Adjusted, SizeBits;
    assert Pow2(0) == 1 && Pow2(1) == 2;
    var s := q;
    var flip := IsHigh(s);
    var even := s % 2 == 0;
    var bit := if flip != !even then 1 else 0;
    var notMinusOne := Negate(s) != 1;
    var sign := 1;
    s := Adjust(q, flip, bit, notMinusOne);
    if flip { sign := -1; }
    if !notMinusOne { sign := -sign; }
    skew := Pow2(bit);
    hide Pow2;

    ghost var adjusted := s;
    var last := s % Pow2(w);
    s := s / Pow2(w);
    ConstStart(wnaf[..], adjusted, sign, w);
    SizeBitsBounds(size, w);
    var word, u := 0, 0;
    while word * w < size
      invariant 0 <= word <= wnaf.Length - 1
      invariant word > 0 ==> u == last
      invariant s == Above(adjusted, w, word + 1)
      invariant ConstSoFar(wnaf[..], adjusted, sign, word, last, w)
      decreases wnaf.Length - word
    {
      WordsLeft(word, w, size);
      AboveNext(adjusted, w, word + 1);
      AboveNonNegative(adjusted, w, word + 2);
      ConstStep(wnaf[..], adjusted, sign, word, last, w);
      u := s % Pow2(w);
      s := s / Pow2(w);
      var even := 1 - u % 2;
      var up := if last > 0 then 1 else -1;
      u := u + up * even;
      last := last - up * even * Pow2(w);
      ghost var before := wnaf[..];
      wnaf[word] := last * sign;
      assert wnaf[..] == before[word := last * sign];
      word := word + 1;
      last := u;
    }
    WordsDone(word, w, size);
    ghost var before := wnaf[..];
    wnaf[word] := u * sign;
    assert wnaf[..] == before[word := u * sign];
    ConstDone(before, adjusted, sign, word, last, w);
    AdjustedMeaning(q);
    NothingAbove(adjusted, w, word + 1);
    rest := s;
  }

  lemma NothingAbove(s: nat, w: nat, k: nat)
    requires s < Pow2(w * k)
    ensures Above(s, w, k) == 0
  {
    hide Pow2;
    DivModUnique(s, Pow2(w * k), 0, s);
  }

  /** Adding the skew and negating high scalars; -1 is only negated. */
  method Adjust(q: nat, flip: bool, bit: nat, notMinusOne: bool) returns (s: nat)
    requires q < N && flip == IsHigh(q) && bit == SkewBit(q) && notMinusOne == (q != N - 1)
    ensures s == Adjusted(q)
  {
    assert Pow2(0) == 1 && Pow2(1) == 2;
    s := q;
    if notMinusOne {
      s := s + Pow2(bit);
    }
    if flip {
      s := Negate(s);
    }
  }

  /** What is left of s after k windows. */
  function Above(s: nat, w: nat, k: nat): int {
    s / Pow2(w * k)
  }

  lemma AboveNonNegative(s: nat, w: nat, k: nat)
    ensures Above(s, w, k) >= 0
  {
    hide Pow2;
    Quotient(s, Pow2(w * k));
  }

  lemma Quotient(s: nat, d: int)
    requires d > 0
    ensures s / d >= 0
  {
  }

  lemma AboveNext(s: nat, w: nat, k: nat)
    ensures Above(s, w, k + 1) == Above(s, w, k) / Pow2(w)
    ensures Field(s, w, k) == Above(s, w, k) % Pow2(w)
  {
    assert w * (k + 1) == w * k + w;
    AboveNextAt(s, w * k, w, w * (k + 1));
  }

  lemma AboveNextAt(s: nat, offset: nat, w: nat, next: nat)
    requires next == offset + w
    ensures s / Pow2(next) == s / Pow2(offset) / Pow2(w)
  {
    BitsSplit(s, offset, w);
  }

  lemma WordsLeft(word: nat, w: nat, size: nat)
    requires w >= 1 && word * w < size
    ensures word < SizeBits(size, w)
  {
    SizeBitsBounds(size, w);
    if word >= SizeBits(size, w) { MulMonotone(SizeBits(size, w), word, w); }
  }

  lemma WordsDone(word: nat, w: nat, size: nat)
    requires w >= 1 && word * w >= size && word <= SizeBits(size, w)
    ensures word == SizeBits(size, w)
  {
    SizeBitsBounds(size, w);
    if word < SizeBits(size, w) { MulMonotone(word, SizeBits(size, w) - 1, w); }
  }

  lemma ConstStart(ds: seq<int>, adjusted: nat, sign: int, w: nat)
    requires |ds| > 0 && w >= 1 && (sign == 1 || sign == -1) && adjusted % 2 == 1
    ensures ConstSoFar(ds, adjusted, sign, 0, adjusted % Pow2(w), w)
    ensures adjusted / Pow2(w) == Above(adjusted, w, 1)
  {
    OddRemainder(adjusted, w);
    assert w * 0 == 0 && w * 1 == w && Pow2(0) == 1;
    assert ds[..0] == [] && Value(ds[..0], w) == 0;
    hide Value, Pow2;
  }

  lemma OddRemainder(a: nat, w: nat)
    requires w >= 1 && a % 2 == 1
    ensures (a % Pow2(w)) % 2 == 1 && 0 < a % Pow2(w) < Pow2(w)
  {
    BitsParity(a, 0, w);
    assert Pow2(0) == 1 && Pow2(1) == 2;
  }

  /** One round: an even window is filled up to an odd one at the cost of the pending digit. */
  lemma ConstStep(ds: seq<int>, adjusted: nat, sign: int, word: nat, last: int, w: nat)
    requires w >= 1 && word + 1 < |ds| && ConstSoFar(ds, adjusted, sign, word, last, w)
    ensures var field := Field(adjusted, w, word + 1);
            var fill := 1 - field % 2;
            ConstSoFar(ds[word := (last - fill * Pow2(w)) * sign], adjusted, sign, word + 1, field + fill, w)
    ensures last > 0
  {
    Pow2Even(w);
    hide Value, Term, Low, Field, Bits, Pow2;
    var field := Field(adjusted, w, word + 1);
    var fill := 1 - field % 2;
    LowNext(adjusted, w, word + 1);
    var digit := (last - fill * Pow2(w)) * sign;
    ConstSum(ds, adjusted, sign, word, last, fill, field, digit, w);
    FilledDigits(last, fill, field, sign, Pow2(w));
    OddDigitWritten(ds, word, digit, w);
  }

  lemma ConstSum(ds: seq<int>, adjusted: nat, sign: int, word: nat, last: int, fill: int, field: int, digit: int, w: nat)
    requires word < |ds| && (sign == 1 || sign == -1)
    requires Value(ds[..word], w) + Term(sign * last, w, word) == sign * Low(adjusted, w, word + 1)
    requires field == Field(adjusted, w, word + 1) && digit == (last - fill * Pow2(w)) * sign
    ensures Value(ds[word := digit][..word + 1], w) + Term(sign * (field + fill), w, word + 1)
            == sign * Low(adjusted, w, word + 2)
  {
    hide Value, Term, Low, Field, Pow2;
    var es := ds[word := digit];
    ValueNext(es, word, w);
    assert es[..word] == ds[..word];
    ConstTerms(sign, last, fill, field, w, word);
    LowNext(adjusted, w, word + 1);
    Distribute(sign, Low(adjusted, w, word + 1), Term(field, w, word + 1));
  }

  /** Filling an even window keeps the window and the pending digit odd and in range. */
  lemma FilledDigits(last: int, fill: int, field: int, sign: int, p: int)
    requires last % 2 == 1 && 0 < last < p && p % 2 == 0 && fill == 1 - field % 2
    requires 0 <= field < p && (sign == 1 || sign == -1)
    ensures (field + fill) % 2 == 1 && 0 < field + fill < p
    ensures ((last - fill * p) * sign) % 2 == 1 && -p < (last - fill * p) * sign < p
  {
    if fill == 0 {
      SignedOdd(last, sign, p);
    } else {
      SignedOdd(last - p, sign, p);
    }
  }

  lemma SignedOdd(d: int, sign: int, p: int)
    requires d % 2 == 1 && -p < d < p && (sign == 1 || sign == -1)
    ensures (d * sign) % 2 == 1 && -p < d * sign < p && d * sign == sign * d
  {
  }

  lemma OddDigitWritten(ds: seq<int>, word: nat, digit: int, w: nat)
    requires word < |ds| && AreOddDigits(ds[..word], w)
    requires digit % 2 == 1 && -Pow2(w) < digit < Pow2(w)
    ensures AreOddDigits(ds[word := digit][..word + 1], w)
  {
    hide Pow2;
    assert ds[word := digit][..word + 1] == ds[..word] + [digit];
  }

  /** The contributions before and after a round, for either sign. */
  lemma ConstTerms(sign: int, last: int, fill: int, field: int, w: nat, word: nat)
    requires sign == 1 || sign == -1
    ensures Term((last - fill * Pow2(w)) * sign, w, word) + Term(sign * (field + fill), w, word + 1)
            == Term(sign * last, w, word) + sign * Term(field, w, word + 1)
  {
    var f, moved := sign * fill, sign * fill * Pow2(w);
    TermShift(f, w, word);
    TermAdd(sign * last, -moved, w, word);
    TermAdd(moved, 0, w, word);
    TermAdd(sign * field, f, w, word + 1);
    TermAdd(field, 0, w, word + 1);
    SignProducts(sign, last, fill, field, Pow2(w));
    hide Term, Pow2;
  }

  lemma SignProducts(sign: int, last: int, fill: int, field: int, p: int)
    requires sign == 1 || sign == -1
    ensures (last - fill * p) * sign == sign * last + -(sign * fill * p)
    ensures sign * (field + fill) == sign * field + sign * fill
    ensures sign * field == if sign == 1 then field else -field
  {
  }

  lemma ConstDone(ds: seq<int>, adjusted: nat, sign: int, word: nat, last: int, w: nat)
    requires word + 1 == |ds| && ConstSoFar(ds, adjusted, sign, word, last, w)
    requires adjusted < Pow2(w * |ds|)
    ensures Value(ds[word := last * sign], w) == sign * adjusted
    ensures AreOddDigits(ds[word := last * sign], w)
  {
    LowAll(adjusted, w, |ds|);
    hide Value, Term, Low, Pow2;
    var es := ds[word := last * sign];
    ValueNext(es, word, w);
    assert es[..word] == ds[..word] && es[..word + 1] == es;
    SignedOdd(last, sign, Pow2(w));
    OddDigitWritten(ds, word, last * sign, w);
  }

  lemma LowAll(s: nat, w: nat, k: nat)
    requires s < Pow2(w * k)
    ensures Low(s, w, k) == s
  {
    DivModUnique(s, Pow2(w * k), 0, s);
  }
}
