/** Reduction and the other operations on scalars (scalar_8x32_impl.h). */
module ScalarOps {
  import opened Numbers
  import opened Accumulator
  import opened Scalar8x32

  lemma ValueRange(s: Scalar)
    ensures 0 <= Value(s) < WORD8
  {
  }

  // ---------- comparison with the order ----------

  /** `secp256k1_scalar_check_overflow`, comparing from the top word down. */
  method CheckOverflow(a: Scalar) returns (yes: bool)
    ensures yes <==> Value(a) >= N
  {
    yes := false;
    var no := false;
    no := no || a.d7 < N_7;
    no := no || a.d6 < N_6;
    no := no || a.d5 < N_5;
    no := no || a.d4 < N_4;
    yes := yes || (a.d4 > N_4 && !no);
    no := no || (a.d3 < N_3 && !yes);
    yes := yes || (a.d3 > N_3 && !no);
    no := no || (a.d2 < N_2 && !yes);
    yes := yes || (a.d2 > N_2 && !no);
    no := no || (a.d1 < N_1 && !yes);
    yes := yes || (a.d1 > N_1 && !no);
    yes := yes || (a.d0 >= N_0 && !no);
    OrderWords();
  }

  // Words of half the order.
  const H_0: Word := 0x681B20A0
  const H_1: Word := 0xDFE92F46
  const H_2: Word := 0x57A4501D
  const H_3: Word := 0x5D576E73
  const H_4: Word := 0xFFFFFFFF
  const H_5: Word := 0xFFFFFFFF
  const H_6: Word := 0xFFFFFFFF
  const H_7: Word := 0x7FFFFFFF

  /** `secp256k1_scalar_is_high` */
  method IsHigh(a: Scalar) returns (yes: bool)
    ensures yes <==> Value(a) > N / 2
  {
    yes := false;
    var no := false;
    no := no || a.d7 < H_7;
    yes := yes || (a.d7 > H_7 && !no);
    no := no || (a.d6 < H_6 && !yes);
    no := no || (a.d5 < H_5 && !yes);
    no := no || (a.d4 < H_4 && !yes);
    no := no || (a.d3 < H_3 && !yes);
    yes := yes || (a.d3 > H_3 && !no);
    no := no || (a.d2 < H_2 && !yes);
    yes := yes || (a.d2 > H_2 && !no);
    no := no || (a.d1 < H_1 && !yes);
    yes := yes || (a.d1 > H_1 && !no);
    yes := yes || (a.d0 > H_0 && !no);
    assert Value(Scalar(H_0, H_1, H_2, H_3, H_4, H_5, H_6, H_7)) == N / 2;
  }

  // ---------- sums with carries ----------

  /** Adds eight words to eight words, carrying in 64 bits. */
  method AddWords(a: Scalar, x0: nat, x1: nat, x2: nat, x3: nat, x4: nat, x5: nat, x6: nat, x7: nat)
    returns (r: Scalar, carry: nat)
    requires x0 <= 2 * WORD && x1 <= 2 * WORD && x2 <= 2 * WORD && x3 <= 2 * WORD
    requires x4 <= 2 * WORD && x5 <= 2 * WORD && x6 <= 2 * WORD && x7 <= 2 * WORD
    ensures Value(r) + WORD8 * carry == Value(a) + Eight(x0, x1, x2, x3, x4, x5, x6, x7)
  {
    var t := a.d0 + x0;
    var r0: Word := t % WORD; t := t / WORD;
    t := t + a.d1 + x1;
    var r1: Word := t % WORD; t := t / WORD;
    t := t + a.d2 + x2;
    var r2: Word := t % WORD; t := t / WORD;
    t := t + a.d3 + x3;
    var r3: Word := t % WORD; t := t / WORD;
    t := t + a.d4 + x4;
    var r4: Word := t % WORD; t := t / WORD;
    t := t + a.d5 + x5;
    var r5: Word := t % WORD; t := t / WORD;
    t := t + a.d6 + x6;
    var r6: Word := t % WORD; t := t / WORD;
    t := t + a.d7 + x7;
    var r7: Word := t % WORD; t := t / WORD;
    r := Scalar(r0, r1, r2, r3, r4, r5, r6, r7);
    carry := t;
  }

  /** `secp256k1_scalar_reduce`: subtracts the order once or not at all, by adding its
  complement modulo 2^256. */
  method Reduce(a: Scalar, overflow: nat) returns (r: Scalar)
    requires overflow <= 1
    ensures Value(r) == (Value(a) + overflow * NC) % WORD8
  {
    var carry;
    r, carry := AddWords(a, overflow * NC_0, overflow * NC_1, overflow * NC_2, overflow * NC_3, overflow * NC_4, 0, 0, 0);
    OrderWords();
    assert Eight(overflow * NC_0, overflow * NC_1, overflow * NC_2, overflow * NC_3, overflow * NC_4, 0, 0, 0) == overflow * NC;
    ValueRange(r);
    hide Value, Eight;
    DivModUnique(Value(a) + overflow * NC, WORD8, carry, Value(r));
  }

  /** `secp256k1_scalar_add`: the sum modulo the order, for scalars below it. */
  method Add(a: Scalar, b: Scalar) returns (r: Scalar, overflow: nat)
    requires Value(a) < N && Value(b) < N
    ensures Value(r) == (Value(a) + Value(b)) % N && Value(r) < N
    ensures overflow == if Value(a) + Value(b) >= N then 1 else 0
  {
    hide Value, Eight;
    var t, carry := AddWords(a, b.d0, b.d1, b.d2, b.d3, b.d4, b.d5, b.d6, b.d7);
    ValueEight(b);
    var over := CheckOverflow(t);
    ValueRange(a);
    ValueRange(b);
    ValueRange(t);
    OrderWords();
    assert carry <= 1 && (carry == 1 ==> !over);
    overflow := carry + (if over then 1 else 0);
    r := Reduce(t, overflow);
    Reduced(Value(a) + Value(b), Value(t), carry, overflow, Value(r));
  }

  /** What is left after one subtraction of the order. */
  lemma Reduced(sum: int, t: int, carry: nat, overflow: nat, r: int)
    requires sum == t + WORD8 * carry && 0 <= sum < 2 * N && 0 <= t < WORD8
    requires overflow == carry + (if t >= N then 1 else 0) && overflow <= 1
    requires r == (t + overflow * NC) % WORD8
    ensures r == sum % N && 0 <= r < N && overflow == if sum >= N then 1 else 0
  {
    assert NC == WORD8 - N;
    DivModUnique(sum, N, overflow, sum - overflow * N);
    DivModUnique(t + overflow * NC, WORD8, overflow - carry, sum - overflow * N);
  }

  // ---------- reducing a product ----------

  /** First stage of `secp256k1_scalar_reduce_512`: 512 bits become 385, with m12 at most 1. */
  method Reduce385(l: Wide) returns (m: Scalar, m8: Word, m9: Word, m10: Word, m11: Word, m12: Word)
    ensures m12 <= 1
    ensures Above8(m.d0, m.d1, m.d2, m.d3, m.d4, m.d5, m.d6, m.d7, Eight(m8, m9, m10, m11, m12, 0, 0, 0))
            == LowHalf(l) + HighHalf(l) * NC
  {
    var low, n := LowWords(l), HighWords(l);
    var m0, m1, m2, m3, m4, m5, m6, m7, c;
    m0, m1, m2, c := Fold0To2(low, n);
    ghost var t1 := Total(c);
    m3, m4, c := Fold3To4(low, n, c);
    ghost var t2 := Total(c);
    m5, m6, c := Fold5To6(low, n, c);
    ghost var t3 := Total(c);
    m7, m8, c := Fold7To8(low, n, c);
    ghost var t4 := Total(c);
    m9, m10, m11, c := Fold9To11(low, n, c);
    m12 := c.c0;
    m := Scalar(m0, m1, m2, m3, m4, m5, m6, m7);
    hide ColumnsOfFold, FoldValue, Value, Above8;
    FoldColumnsValue(low, n);
    JoinFold(ColumnsOfFold(low, n), m, m8, m9, m10, m11, m12, t1, t2, t3, t4);
    TopWord(low, n, m, m8, m9, m10, m11, m12);
  }

  function LowWords(l: Wide): Scalar {
    Scalar(l.l0, l.l1, l.l2, l.l3, l.l4, l.l5, l.l6, l.l7)
  }

  function HighWords(l: Wide): Scalar {
    Scalar(l.l8, l.l9, l.l10, l.l11, l.l12, l.l13, l.l14, l.l15)
  }

  function LowHalf(l: Wide): int {
    Value(LowWords(l))
  }

  function HighHalf(l: Wide): int {
    Value(HighWords(l))
  }

  lemma Halves(l: Wide)
    ensures WideValue(l) == LowHalf(l) + WORD8 * HighHalf(l)
    ensures 0 <= LowHalf(l) < WORD8 && 0 <= HighHalf(l) < WORD8
  {
    ValueRange(LowWords(l));
    ValueRange(HighWords(l));
  }

  lemma JoinFold(q: FoldColumns, m: Scalar, m8: int, m9: int, m10: int, m11: int, m12: int, t1: int, t2: int, t3: int, t4: int)
    requires m.d0 + WORD * (m.d1 + WORD * (m.d2 + WORD * t1)) == q.q0 + WORD * (q.q1 + WORD * q.q2)
    requires m.d3 + WORD * (m.d4 + WORD * t2) == t1 + q.q3 + WORD * q.q4
    requires m.d5 + WORD * (m.d6 + WORD * t3) == t2 + q.q5 + WORD * q.q6
    requires m.d7 + WORD * (m8 + WORD * t4) == t3 + q.q7 + WORD * q.q8
    requires m9 + WORD * (m10 + WORD * (m11 + WORD * m12)) == t4 + q.q9 + WORD * (q.q10 + WORD * q.q11)
    ensures Above8(m.d0, m.d1, m.d2, m.d3, m.d4, m.d5, m.d6, m.d7, Eight(m8, m9, m10, m11, m12, 0, 0, 0)) == FoldValue(q)
  {
  }

  /** The sum is below 2^385. */
  lemma TopWord(low: Scalar, n: Scalar, m: Scalar, m8: Word, m9: Word, m10: Word, m11: Word, m12: Word)
    requires Above8(m.d0, m.d1, m.d2, m.d3, m.d4, m.d5, m.d6, m.d7, Eight(m8, m9, m10, m11, m12, 0, 0, 0))
             == Value(low) + Value(n) * NC
    ensures m12 <= 1
  {
    ValueRange(low);
    ValueRange(n);
    SplitAbove(m, m8, m9, m10, m11, m12);
    hide Value, Above8;
  }

  lemma SplitAbove(m: Scalar, m8: Word, m9: Word, m10: Word, m11: Word, m12: Word)
    ensures Above8(m.d0, m.d1, m.d2, m.d3, m.d4, m.d5, m.d6, m.d7, Eight(m8, m9, m10, m11, m12, 0, 0, 0))
            >= m12 * (WORD8 * 0x1_00000000_00000000_00000000_00000000)
    ensures Above8(m.d0, m.d1, m.d2, m.d3, m.d4, m.d5, m.d6, m.d7, Eight(m8, m9, m10, m11, m12, 0, 0, 0))
            == Value(m) + WORD8 * Value(Scalar(m8, m9, m10, m11, m12, 0, 0, 0))
  {
  }

  // The second fold has fewer words to add. Its columns are those of the first fold with the
  // upper words zero.

  method SecondFold0To2(m: Scalar, m8: Word, m9: Word, m10: Word) returns (p0: Word, p1: Word, p2: Word, c: Acc)
    ensures c.c2 == 0 && Total(c) <= 5 * WORD
    ensures p0 + WORD * (p1 + WORD * (p2 + WORD * Total(c)))
            == m.d0 + Times(m8, NC_0)
               + WORD * (m.d1 + Times(m9, NC_0) + Times(m8, NC_1)
               + WORD * (m.d2 + Times(m10, NC_0) + Times(m9, NC_1) + Times(m8, NC_2)))
  {
    hide Times, Total;
    SmallTotal(m.d0);
    c := Acc(m.d0, 0, 0);
    c := MulAddFast(c, m8, NC_0);
    p0, c := ExtractFast(c);
    c := SumAddFast(c, m.d1);
    c := MulAdd(c, m9, NC_0);
    c := MulAdd(c, m8, NC_1);
    p1, c := Extract(c);
    c := SumAdd(c, m.d2);
    c := MulAdd(c, m10, NC_0);
    c := MulAdd(c, m9, NC_1);
    c := MulAdd(c, m8, NC_2);
    p2, c := Extract(c);
  }

  method SecondFold3To4(m: Scalar, m8: Word, m9: Word, m10: Word, m11: Word, m12: Word, acc: Acc) returns (p3: Word, p4: Word, c: Acc)
    requires m12 <= 1
    requires Total(acc) <= 5 * WORD && acc.c2 == 0
    ensures c.c2 == 0 && Total(c) <= 5 * WORD
    ensures p3 + WORD * (p4 + WORD * Total(c))
            == Total(acc) + m.d3 + Times(m11, NC_0) + Times(m10, NC_1) + Times(m9, NC_2) + Times(m8, NC_3)
               + WORD * (m.d4 + Times(m12, NC_0) + Times(m11, NC_1) + Times(m10, NC_2) + Times(m9, NC_3) + m8)
  {
    hide Times, Total;
    SmallTimes(m12, NC_0); SmallTimes(m12, NC_1); SmallTimes(m12, NC_2); SmallTimes(m12, NC_3);
    c := acc;
    c := SumAdd(c, m.d3);
    c := MulAdd(c, m11, NC_0);
    c := MulAdd(c, m10, NC_1);
    c := MulAdd(c, m9, NC_2);
    c := MulAdd(c, m8, NC_3);
    p3, c := Extract(c);
    c := SumAdd(c, m.d4);
    c := MulAdd(c, m12, NC_0);
    c := MulAdd(c, m11, NC_1);
    c := MulAdd(c, m10, NC_2);
    c := MulAdd(c, m9, NC_3);
    c := SumAdd(c, m8);
    p4, c := Extract(c);
  }

  method SecondFold5To7(m: Scalar, m9: Word, m10: Word, m11: Word, m12: Word, acc: Acc) returns (p5: Word, p6: Word, p7: Word, c: Acc)
    requires m12 <= 1
    requires Total(acc) <= 5 * WORD && acc.c2 == 0
    ensures c.c2 == 0 && c.c1 == 0
    ensures p5 + WORD * (p6 + WORD * (p7 + WORD * Total(c)))
            == Total(acc) + m.d5 + Times(m12, NC_1) + Times(m11, NC_2) + Times(m10, NC_3) + m9
               + WORD * (m.d6 + Times(m12, NC_2) + Times(m11, NC_3) + m10
               + WORD * (m.d7 + Times(m12, NC_3) + m11))
  {
    hide Times, Total;
    SmallTimes(m12, NC_0); SmallTimes(m12, NC_1); SmallTimes(m12, NC_2); SmallTimes(m12, NC_3);
    c := acc;
    c := SumAdd(c, m.d5);
    c := MulAdd(c, m12, NC_1);
    c := MulAdd(c, m11, NC_2);
    c := MulAdd(c, m10, NC_3);
    c := SumAdd(c, m9);
    p5, c := Extract(c);
    c := SumAdd(c, m.d6);
    c := MulAdd(c, m12, NC_2);
    c := MulAdd(c, m11, NC_3);
    c := SumAdd(c, m10);
    p6, c := Extract(c);
    c := SumAddFast(c, m.d7);
    c := MulAddFast(c, m12, NC_3);
    c := SumAddFast(c, m11);
    p7, c := ExtractFast(c);
  }

  lemma SmallTimes(x: Word, y: Word)
    ensures x <= 1 ==> Times(x, y) <= y
  {
  }

  lemma ZeroTimes(x: Word)
    ensures Times(0, x) == 0
  {
  }

  lemma SecondColumns(m: Scalar, high: Scalar)
    requires high.d5 == 0 && high.d6 == 0 && high.d7 == 0
    ensures var q := ColumnsOfFold(m, high);
            && q.q3 == m.d3 + Times(high.d3, NC_0) + Times(high.d2, NC_1) + Times(high.d1, NC_2) + Times(high.d0, NC_3)
            && q.q4 == m.d4 + Times(high.d4, NC_0) + Times(high.d3, NC_1) + Times(high.d2, NC_2) + Times(high.d1, NC_3) + high.d0
            && q.q5 == m.d5 + Times(high.d4, NC_1) + Times(high.d3, NC_2) + Times(high.d2, NC_3) + high.d1
            && q.q6 == m.d6 + Times(high.d4, NC_2) + Times(high.d3, NC_3) + high.d2
            && q.q7 == m.d7 + Times(high.d4, NC_3) + high.d3
            && q.q8 == high.d4 && q.q9 == 0 && q.q10 == 0 && q.q11 == 0
  {
    ZeroTimes(NC_0); ZeroTimes(NC_1); ZeroTimes(NC_2); ZeroTimes(NC_3);
    hide Times;
  }

  lemma JoinSecond(q: FoldColumns, p: Scalar, c: int, t1: int, t2: int)
    requires p.d0 + WORD * (p.d1 + WORD * (p.d2 + WORD * t1)) == q.q0 + WORD * (q.q1 + WORD * q.q2)
    requires p.d3 + WORD * (p.d4 + WORD * t2) == t1 + q.q3 + WORD * q.q4
    requires p.d5 + WORD * (p.d6 + WORD * (p.d7 + WORD * c)) == t2 + q.q5 + WORD * (q.q6 + WORD * q.q7)
    requires q.q9 == 0 && q.q10 == 0 && q.q11 == 0
    ensures Value(p) + WORD8 * (c + q.q8) == FoldValue(q)
  {
  }

  lemma SecondTop(vm: int, vh: int, vp: int, p8: int)
    requires 0 <= vm && 0 <= vh && 0 <= vp < WORD8 && vp + WORD8 * p8 == vm + vh * NC && vm < WORD8
    requires vm + WORD8 * vh <= (WORD8 - 1) * (NC + 1)
    ensures p8 <= 2 && vp + NC * p8 < 2 * N
  {
    assert vh <= NC;
    MulMonotone(vh, NC, NC);
  }

  /** Second stage: 385 bits become 258, with p8 at most 2. */
  method Reduce258(m: Scalar, m8: Word, m9: Word, m10: Word, m11: Word, m12: Word) returns (p: Scalar, p8: nat)
    requires m12 <= 1
    requires Value(m) + WORD8 * Value(Scalar(m8, m9, m10, m11, m12, 0, 0, 0)) <= (WORD8 - 1) * (NC + 1)
    ensures p8 <= 2 && Value(p) + NC * p8 < 2 * N
    ensures Value(p) + WORD8 * p8 == Value(m) + Value(Scalar(m8, m9, m10, m11, m12, 0, 0, 0)) * NC
  {
    hide FoldValue, Value, Times, Total;
    var p0, p1, p2, p3, p4, p5, p6, p7, c;
    p0, p1, p2, c := SecondFold0To2(m, m8, m9, m10);
    ghost var t1 := Total(c);
    p3, p4, c := SecondFold3To4(m, m8, m9, m10, m11, m12, c);
    ghost var t2 := Total(c);
    p5, p6, p7, c := SecondFold5To7(m, m9, m10, m11, m12, c);
    p8 := c.c0 + m12;
    p := Scalar(p0, p1, p2, p3, p4, p5, p6, p7);
    ghost var high := Scalar(m8, m9, m10, m11, m12, 0, 0, 0);
    SecondColumns(m, high);
    SmallTotal(c.c0);
    JoinSecond(ColumnsOfFold(m, high), p, c.c0, t1, t2);
    FoldColumnsValue(m, high);
    ValueRange(m);
    ValueRange(high);
    ValueRange(p);
    SecondTop(Value(m), Value(high), Value(p), p8);
  }

  /** Third stage and the final subtraction of the order, which is due at most once. */
  method Reduce256(p: Scalar, p8: nat) returns (r: Scalar)
    requires p8 <= 2 && Value(p) + NC * p8 < 2 * N
    ensures Value(r) == (Value(p) + WORD8 * p8) % N && Value(r) < N
  {
    hide Value, Eight;
    var t, carry := AddWords(p, NC_0 * p8, NC_1 * p8, NC_2 * p8, NC_3 * p8, p8, 0, 0, 0);
    TimesNC(p8);
    var over := CheckOverflow(t);
    ValueRange(t);
    ValueRange(p);
    OrderWords();
    assert carry <= 1 && (carry == 1 ==> !over);
    r := Reduce(t, carry + (if over then 1 else 0));
    Reduced(Value(p) + NC * p8, Value(t), carry, carry + (if over then 1 else 0), Value(r));
    DropOrders(Value(p) + NC * p8, p8);
  }

  lemma TimesNC(k: int)
    ensures Eight(NC_0 * k, NC_1 * k, NC_2 * k, NC_3 * k, k, 0, 0, 0) == NC * k
  {
  }

  /** Multiples of the order do not change the residue; 2^256 is the order and NC. */
  lemma DropOrders(a: int, k: int)
    ensures a % N == (a + k * N) % N
    ensures k * N == WORD8 * k - NC * k
  {
    CongWitness(a, a + k * N, N, -k);
    CongIffModEqual(a, a + k * N, N);
  }

  /** `secp256k1_scalar_reduce_512`: the canonical residue of any 512-bit number. */
  method Reduce512(l: Wide) returns (r: Scalar)
    ensures Value(r) == WideValue(l) % N && Value(r) < N
  {
    hide Value, WideValue, Eight, Above8, LowHalf, HighHalf;
    var m, m8, m9, m10, m11, m12 := Reduce385(l);
    SplitAbove(m, m8, m9, m10, m11, m12);
    Halves(l);
    ghost var high := Scalar(m8, m9, m10, m11, m12, 0, 0, 0);
    FirstBound(LowHalf(l), HighHalf(l));
    var p, p8 := Reduce258(m, m8, m9, m10, m11, m12);
    r := Reduce256(p, p8);
    DropOrders(Value(m) + Value(high) * NC, Value(high));
    DropOrders(LowHalf(l) + HighHalf(l) * NC, HighHalf(l));
  }

  lemma FirstBound(low: int, high: int)
    requires low < WORD8 && 0 <= high < WORD8
    ensures low + high * NC <= (WORD8 - 1) * (NC + 1)
    ensures high * NC == NC * high
  {
    MulMonotone(high, WORD8 - 1, NC);
  }

  /** `secp256k1_scalar_mul`: the product modulo the order, fully reduced. */
  method Mul(a: Scalar, b: Scalar) returns (r: Scalar)
    ensures Value(r) == (Value(a) * Value(b)) % N && Value(r) < N
  {
    hide Value, WideValue;
    var l := Mul512(a, b);
    r := Reduce512(l);
  }

  /** `secp256k1_scalar_sqr` */
  method Sqr(a: Scalar) returns (r: Scalar)
    ensures Value(r) == (Value(a) * Value(a)) % N && Value(r) < N
  {
    hide Value, WideValue;
    var l := Sqr512(a);
    r := Reduce512(l);
  }

  // ---------- negation and single bits ----------

  function Complement(x: Word): Word {
    WORD - 1 - x
  }

  lemma ComplementValue(a: Scalar)
    ensures Value(Scalar(Complement(a.d0), Complement(a.d1), Complement(a.d2), Complement(a.d3),
                         Complement(a.d4), Complement(a.d5), Complement(a.d6), Complement(a.d7))) == WORD8 - 1 - Value(a)
    ensures Eight(N_0 + 1, N_1, N_2, N_3, N_4, N_5, N_6, N_7) == N + 1
  {
  }

  predicate IsZero(a: Scalar) {
    a.d0 == 0 && a.d1 == 0 && a.d2 == 0 && a.d3 == 0 && a.d4 == 0 && a.d5 == 0 && a.d6 == 0 && a.d7 == 0
  }

  lemma ZeroValue(a: Scalar)
    ensures IsZero(a) <==> Value(a) == 0
  {
  }

  /** `secp256k1_scalar_cond_negate`; with the flag set also `secp256k1_scalar_negate`. The sum
  with the order wraps around at 2^256, and a mask keeps zero at zero. */
  method CondNegate(a: Scalar, flag: bool) returns (r: Scalar, sign: int)
    requires Value(a) < N
    ensures Value(r) == (if flag then (N - Value(a)) % N else Value(a)) && Value(r) < N
    ensures sign == if flag then -1 else 1
  {
    hide Value, Eight;
    ZeroValue(a);
    ValueRange(a);
    var x := a;
    var carry;
    if flag {
      x := Scalar(Complement(a.d0), Complement(a.d1), Complement(a.d2), Complement(a.d3),
                  Complement(a.d4), Complement(a.d5), Complement(a.d6), Complement(a.d7));
      r, carry := AddWords(x, N_0 + 1, N_1, N_2, N_3, N_4, N_5, N_6, N_7);
      ComplementValue(a);
    } else {
      r, carry := AddWords(x, 0, 0, 0, 0, 0, 0, 0, 0);
      assert Eight(0, 0, 0, 0, 0, 0, 0, 0) == 0 by { ZeroWords(); }
    }
    ValueRange(r);
    if IsZero(a) {
      r := Scalar(0, 0, 0, 0, 0, 0, 0, 0);
    }
    ZeroValue(r);
    sign := if flag then -1 else 1;
    if flag && Value(a) != 0 {
      DivModUnique(N - Value(a), N, 0, N - Value(a));
    }
  }

  lemma ZeroWords()
    ensures Eight(0, 0, 0, 0, 0, 0, 0, 0) == 0
  {
  }

  /** `secp256k1_scalar_cadd_bit`: adds 2^bit if the flag is set; the sum stays below the order. */
  method CaddBit(a: Scalar, bit0: nat, flag: bool) returns (r: Scalar)
    requires bit0 < 256 && Value(a) < N && (flag ==> Value(a) + Pow2(bit0) < N)
    ensures Value(r) == Value(a) + (if flag then Pow2(bit0) else 0)
  {
    hide Value, Eight, Pow2;
    var bit := if flag then bit0 else bit0 + 0x100;
    var q := bit / 32;
    var p := Pow2(bit % 32);
    Pow2Values();
    Pow2Monotone(bit % 32, 32);
    var carry;
    r, carry := AddWords(a, if q == 0 then p else 0, if q == 1 then p else 0, if q == 2 then p else 0, if q == 3 then p else 0,
                         if q == 4 then p else 0, if q == 5 then p else 0, if q == 6 then p else 0, if q == 7 then p else 0);
    OneBit(bit, q, p);
    ValueRange(r);
    ValueRange(a);
  }

  lemma OneBit(bit: nat, q: nat, p: int)
    requires q == bit / 32 && p == Pow2(bit % 32)
    ensures Eight(if q == 0 then p else 0, if q == 1 then p else 0, if q == 2 then p else 0, if q == 3 then p else 0,
                  if q == 4 then p else 0, if q == 5 then p else 0, if q == 6 then p else 0, if q == 7 then p else 0)
            == if bit < 256 then Pow2(bit) else 0
  {
    hide Pow2;
    Pow2Add(32 * q, bit % 32);
    WordPowers(q);
  }

  lemma WordPowers(q: nat)
    ensures q == 0 ==> Pow2(32 * q) == 1
    ensures q == 1 ==> Pow2(32 * q) == WORD
    ensures q == 2 ==> Pow2(32 * q) == WORD * WORD
    ensures q == 3 ==> Pow2(32 * q) == WORD * WORD * WORD
    ensures q == 4 ==> Pow2(32 * q) == WORD * WORD * WORD * WORD
    ensures q == 5 ==> Pow2(32 * q) == WORD * WORD * WORD * WORD * WORD
    ensures q == 6 ==> Pow2(32 * q) == WORD * WORD * WORD * WORD * WORD * WORD
    ensures q == 7 ==> Pow2(32 * q) == WORD * WORD * WORD * WORD * WORD * WORD * WORD
  {
    hide Pow2;
    Pow2Values();
    Pow2Add(32, 32);
    Pow2Add(64, 32);
    Pow2Add(96, 32);
    Pow2Add(128, 32);
    Pow2Add(160, 32);
    Pow2Add(192, 32);
  }
}
