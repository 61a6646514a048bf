/** Field elements as ten limbs of 26 bits (field_10x26_impl.h). Limbs and accumulators are
numbers; that every one stays below 2^32 or 2^64 is proved where it is computed. */
module Field10x26 {
  import opened Numbers

  /** The characteristic of the field (section 2.4.1 of SEC 2). */
  const P: nat := 0xFFFFFFFF_FFFFFFFF_FFFFFFFF_FFFFFFFF_FFFFFFFF_FFFFFFFF_FFFFFFFE_FFFFFC2F

  /** The weight of a limb: masking and shifting by 26 bits are remainder and quotient by it. */
  const BASE: nat := 0x400_0000
  const M: nat := 0x3FF_FFFF
  const TOP_MASK: nat := 0x3F_FFFF
  const R0: nat := 0x3D10
  const R1: nat := 0x400
  const UINT32: nat := 0x1_0000_0000
  const UINT64: nat := 0x1_0000_0000_0000_0000

  /** `secp256k1_fe`, least significant limb first. */
  datatype Fe = Fe(n0: nat, n1: nat, n2: nat, n3: nat, n4: nat, n5: nat, n6: nat, n7: nat, n8: nat, n9: nat)

  /** The number with ten given digits. */
  function Ten(x0: int, x1: int, x2: int, x3: int, x4: int, x5: int, x6: int, x7: int, x8: int, x9: int): int {
    x0 + BASE * (x1 + BASE * (x2 + BASE * (x3 + BASE * (x4 + BASE * (x5 + BASE * (x6 + BASE * (x7 + BASE * (x8 + BASE * x9))))))))
  }

  function Value(f: Fe): int {
    Ten(f.n0, f.n1, f.n2, f.n3, f.n4, f.n5, f.n6, f.n7, f.n8, f.n9)
  }

  /** The bounds that the magnitude of an element stands for. */
  predicate HasMagnitude(f: Fe, m: nat) {
    && f.n0 <= 2 * m * M && f.n1 <= 2 * m * M && f.n2 <= 2 * m * M && f.n3 <= 2 * m * M && f.n4 <= 2 * m * M
    && f.n5 <= 2 * m * M && f.n6 <= 2 * m * M && f.n7 <= 2 * m * M && f.n8 <= 2 * m * M && f.n9 <= 2 * m * TOP_MASK
  }

  // ---------- columns of the product ----------

  /** The operands of a multiplication: limbs below 2^30, the top limb below 2^26. */
  predicate IsFactor(f: Fe) {
    && f.n0 < 0x4000_0000 && f.n1 < 0x4000_0000 && f.n2 < 0x4000_0000 && f.n3 < 0x4000_0000 && f.n4 < 0x4000_0000
    && f.n5 < 0x4000_0000 && f.n6 < 0x4000_0000 && f.n7 < 0x4000_0000 && f.n8 < 0x4000_0000 && f.n9 < 0x400_0000
  }

  /** Elements of magnitude up to 8 are operands. */
  lemma MagnitudeOfFactors(f: Fe)
    requires HasMagnitude(f, 8)
    ensures IsFactor(f)
  {
  }

  function Times(x: nat, y: nat): nat {
    x * y
  }

  lemma TimesBound(x: nat, y: nat, bx: nat, bY: nat)
    requires x <= bx && y <= bY
    ensures Times(x, y) <= bx * bY
  {
    MulMonotone(x, bx, y);
    MulMonotone(y, bY, bx);
  }

  /** p0 to p18: pk collects the products of limbs whose indices add up to k. */
  datatype Columns = Columns(
    p0: nat, p1: nat, p2: nat, p3: nat, p4: nat, p5: nat, p6: nat, p7: nat, p8: nat, p9: nat,
    p10: nat, p11: nat, p12: nat, p13: nat, p14: nat, p15: nat, p16: nat, p17: nat, p18: nat)

  // The largest products of two full limbs, of a full limb and a top limb, and of two top limbs.
  const FULL: nat := 0x3FFFFFFF * 0x3FFFFFFF
  const MIXED: nat := 0x3FFFFFFF * 0x3FFFFFF
  const TOP: nat := 0x3FFFFFF * 0x3FFFFFF

  predicate InRange(ps: Columns) {
    && ps.p0 <= FULL && ps.p1 <= 2 * FULL && ps.p2 <= 3 * FULL && ps.p3 <= 4 * FULL && ps.p4 <= 5 * FULL
    && ps.p5 <= 6 * FULL && ps.p6 <= 7 * FULL && ps.p7 <= 8 * FULL && ps.p8 <= 9 * FULL
    && ps.p9 <= 8 * FULL + 2 * MIXED && ps.p10 <= 7 * FULL + 2 * MIXED && ps.p11 <= 6 * FULL + 2 * MIXED
    && ps.p12 <= 5 * FULL + 2 * MIXED && ps.p13 <= 4 * FULL + 2 * MIXED && ps.p14 <= 3 * FULL + 2 * MIXED
    && ps.p15 <= 2 * FULL + 2 * MIXED && ps.p16 <= FULL + 2 * MIXED && ps.p17 <= 2 * MIXED && ps.p18 <= TOP
  }

  function ProductColumns(a: Fe, b: Fe): Columns {
    Columns(
      Times(a.n0, b.n0),
      Times(a.n0, b.n1) + Times(a.n1, b.n0),
      Times(a.n0, b.n2) + Times(a.n1, b.n1) + Times(a.n2, b.n0),
      Times(a.n0, b.n3) + Times(a.n1, b.n2) + Times(a.n2, b.n1) + Times(a.n3, b.n0),
      Times(a.n0, b.n4) + Times(a.n1, b.n3) + Times(a.n2, b.n2) + Times(a.n3, b.n1) + Times(a.n4, b.n0),
      Times(a.n0, b.n5) + Times(a.n1, b.n4) + Times(a.n2, b.n3) + Times(a.n3, b.n2) + Times(a.n4, b.n1) +
        Times(a.n5, b.n0),
      Times(a.n0, b.n6) + Times(a.n1, b.n5) + Times(a.n2, b.n4) + Times(a.n3, b.n3) + Times(a.n4, b.n2) +
        Times(a.n5, b.n1) + Times(a.n6, b.n0),
      Times(a.n0, b.n7) + Times(a.n1, b.n6) + Times(a.n2, b.n5) + Times(a.n3, b.n4) + Times(a.n4, b.n3) +
        Times(a.n5, b.n2) + Times(a.n6, b.n1) + Times(a.n7, b.n0),
      Times(a.n0, b.n8) + Times(a.n1, b.n7) + Times(a.n2, b.n6) + Times(a.n3, b.n5) + Times(a.n4, b.n4) +
        Times(a.n5, b.n3) + Times(a.n6, b.n2) + Times(a.n7, b.n1) + Times(a.n8, b.n0),
      Times(a.n0, b.n9) + Times(a.n1, b.n8) + Times(a.n2, b.n7) + Times(a.n3, b.n6) + Times(a.n4, b.n5) +
        Times(a.n5, b.n4) + Times(a.n6, b.n3) + Times(a.n7, b.n2) + Times(a.n8, b.n1) + Times(a.n9, b.n0),
      Times(a.n1, b.n9) + Times(a.n2, b.n8) + Times(a.n3, b.n7) + Times(a.n4, b.n6) + Times(a.n5, b.n5) +
        Times(a.n6, b.n4) + Times(a.n7, b.n3) + Times(a.n8, b.n2) + Times(a.n9, b.n1),
      Times(a.n2, b.n9) + Times(a.n3, b.n8) + Times(a.n4, b.n7) + Times(a.n5, b.n6) + Times(a.n6, b.n5) +
        Times(a.n7, b.n4) + Times(a.n8, b.n3) + Times(a.n9, b.n2),
      Times(a.n3, b.n9) + Times(a.n4, b.n8) + Times(a.n5, b.n7) + Times(a.n6, b.n6) + Times(a.n7, b.n5) +
        Times(a.n8, b.n4) + Times(a.n9, b.n3),
      Times(a.n4, b.n9) + Times(a.n5, b.n8) + Times(a.n6, b.n7) + Times(a.n7, b.n6) + Times(a.n8, b.n5) +
        Times(a.n9, b.n4),
      Times(a.n5, b.n9) + Times(a.n6, b.n8) + Times(a.n7, b.n7) + Times(a.n8, b.n6) + Times(a.n9, b.n5),
      Times(a.n6, b.n9) + Times(a.n7, b.n8) + Times(a.n8, b.n7) + Times(a.n9, b.n6),
      Times(a.n7, b.n9) + Times(a.n8, b.n8) + Times(a.n9, b.n7),
      Times(a.n8, b.n9) + Times(a.n9, b.n8),
      Times(a.n9, b.n9))
  }

  /** The columns of a square, in which equal products are computed once and doubled. */
  function SquareColumns(a: Fe): Columns {
    Columns(
      Times(a.n0, a.n0),
      Times(a.n0 * 2, a.n1),
      Times(a.n0 * 2, a.n2) + Times(a.n1, a.n1),
      Times(a.n0 * 2, a.n3) + Times(a.n1 * 2, a.n2),
      Times(a.n0 * 2, a.n4) + Times(a.n1 * 2, a.n3) + Times(a.n2, a.n2),
      Times(a.n0 * 2, a.n5) + Times(a.n1 * 2, a.n4) + Times(a.n2 * 2, a.n3),
      Times(a.n0 * 2, a.n6) + Times(a.n1 * 2, a.n5) + Times(a.n2 * 2, a.n4) + Times(a.n3, a.n3),
      Times(a.n0 * 2, a.n7) + Times(a.n1 * 2, a.n6) + Times(a.n2 * 2, a.n5) + Times(a.n3 * 2, a.n4),
      Times(a.n0 * 2, a.n8) + Times(a.n1 * 2, a.n7) + Times(a.n2 * 2, a.n6) + Times(a.n3 * 2, a.n5) +
        Times(a.n4, a.n4),
      Times(a.n0 * 2, a.n9) + Times(a.n1 * 2, a.n8) + Times(a.n2 * 2, a.n7) + Times(a.n3 * 2, a.n6) +
        Times(a.n4 * 2, a.n5),
      Times(a.n1 * 2, a.n9) + Times(a.n2 * 2, a.n8) + Times(a.n3 * 2, a.n7) + Times(a.n4 * 2, a.n6) +
        Times(a.n5, a.n5),
      Times(a.n2 * 2, a.n9) + Times(a.n3 * 2, a.n8) + Times(a.n4 * 2, a.n7) + Times(a.n5 * 2, a.n6),
      Times(a.n3 * 2, a.n9) + Times(a.n4 * 2, a.n8) + Times(a.n5 * 2, a.n7) + Times(a.n6, a.n6),
      Times(a.n4 * 2, a.n9) + Times(a.n5 * 2, a.n8) + Times(a.n6 * 2, a.n7),
      Times(a.n5 * 2, a.n9) + Times(a.n6 * 2, a.n8) + Times(a.n7, a.n7),
      Times(a.n6 * 2, a.n9) + Times(a.n7 * 2, a.n8),
      Times(a.n7 * 2, a.n9) + Times(a.n8, a.n8),
      Times(a.n8 * 2, a.n9),
      Times(a.n9, a.n9))
  }

  lemma SquareColumnsAreProducts(a: Fe)
    ensures SquareColumns(a) == ProductColumns(a, a)
  {
    forall x: nat, y: nat ensures Times(x * 2, y) == Times(x, y) + Times(y, x) { Twice(x, y); }
    hide Times;
  }

  lemma Twice(x: nat, y: nat)
    ensures Times(x * 2, y) == Times(x, y) + Times(y, x)
  {
  }

  lemma ColumnsInRange(a: Fe, b: Fe)
    requires IsFactor(a) && IsFactor(b)
    ensures InRange(ProductColumns(a, b))
  {
    forall x: nat, y: nat | x <= 0x3FFFFFFF && y <= 0x3FFFFFFF ensures Times(x, y) <= FULL {
      TimesBound(x, y, 0x3FFFFFFF, 0x3FFFFFFF);
    }
    forall x: nat, y: nat | x <= 0x3FFFFFFF && y <= 0x3FFFFFF ensures Times(x, y) <= MIXED {
      TimesBound(x, y, 0x3FFFFFFF, 0x3FFFFFF);
    }
    forall x: nat, y: nat | x <= 0x3FFFFFF && y <= 0x3FFFFFFF ensures Times(x, y) <= MIXED {
      TimesBound(x, y, 0x3FFFFFF, 0x3FFFFFFF);
    }
    forall x: nat, y: nat | x <= 0x3FFFFFF && y <= 0x3FFFFFF ensures Times(x, y) <= TOP {
      TimesBound(x, y, 0x3FFFFFF, 0x3FFFFFF);
    }
    hide Times;
  }

  // 2^260 is congruent to R1 * 2^26 + R0.
  const BASE10: nat := 0x10 * 0x1_00000000_00000000_00000000_00000000_00000000_00000000_00000000_00000000

  /** The number that the columns stand for. */
  function Weighted(ps: Columns): int {
    Ten(ps.p0, ps.p1, ps.p2, ps.p3, ps.p4, ps.p5, ps.p6, ps.p7, ps.p8, ps.p9)
    + BASE10 * Ten(ps.p10, ps.p11, ps.p12, ps.p13, ps.p14, ps.p15, ps.p16, ps.p17, ps.p18, 0)
  }

  /** One row of the schoolbook multiplication. */
  function RowOf(x: nat, b: Fe): Fe {
    Fe(Times(x, b.n0), Times(x, b.n1), Times(x, b.n2), Times(x, b.n3), Times(x, b.n4),
       Times(x, b.n5), Times(x, b.n6), Times(x, b.n7), Times(x, b.n8), Times(x, b.n9))
  }

  lemma Row(x: nat, b: Fe)
    ensures x * Value(b) == Value(RowOf(x, b))
  {
    Distribute10(x, b.n0, b.n1, b.n2, b.n3, b.n4, b.n5, b.n6, b.n7, b.n8, b.n9);
  }

  lemma Distribute10(x: int, y0: int, y1: int, y2: int, y3: int, y4: int, y5: int, y6: int, y7: int, y8: int, y9: int)
    ensures x * Ten(y0, y1, y2, y3, y4, y5, y6, y7, y8, y9)
            == Ten(x * y0, x * y1, x * y2, x * y3, x * y4, x * y5, x * y6, x * y7, x * y8, x * y9)
  {
  }

  /** Rows added up: ten columns, and the number above them. */
  datatype Sum = Sum(u0: int, u1: int, u2: int, u3: int, u4: int, u5: int, u6: int, u7: int, u8: int, u9: int, rest: int)

  function SumValue(s: Sum): int {
    Ten(s.u0, s.u1, s.u2, s.u3, s.u4, s.u5, s.u6, s.u7, s.u8, s.u9) + BASE10 * s.rest
  }

  function FirstRow(r: Fe): Sum {
    Sum(r.n0, r.n1, r.n2, r.n3, r.n4, r.n5, r.n6, r.n7, r.n8, r.n9, 0)
  }

  /** One more row, below rows that start one column further up. */
  function AddRow(r: Fe, s: Sum): Sum {
    Sum(r.n0, r.n1 + s.u0, r.n2 + s.u1, r.n3 + s.u2, r.n4 + s.u3, r.n5 + s.u4, r.n6 + s.u5, r.n7 + s.u6, r.n8 + s.u7,
        r.n9 + s.u8, s.u9 + BASE * s.rest)
  }

  lemma AddRowValue(r: Fe, s: Sum)
    ensures SumValue(AddRow(r, s)) == Value(r) + BASE * SumValue(s)
  {
  }

  lemma FirstRowValue(r: Fe)
    ensures SumValue(FirstRow(r)) == Value(r)
  {
  }

  /** Horner's rule over ten rows. */
  lemma AddRows(r0: Fe, r1: Fe, r2: Fe, r3: Fe, r4: Fe, r5: Fe, r6: Fe, r7: Fe, r8: Fe, r9: Fe,
                s0: Sum, s1: Sum, s2: Sum, s3: Sum, s4: Sum, s5: Sum, s6: Sum, s7: Sum, s8: Sum, s9: Sum)
    requires s9 == FirstRow(r9) && s8 == AddRow(r8, s9) && s7 == AddRow(r7, s8) && s6 == AddRow(r6, s7)
    requires s5 == AddRow(r5, s6) && s4 == AddRow(r4, s5) && s3 == AddRow(r3, s4) && s2 == AddRow(r2, s3)
    requires s1 == AddRow(r1, s2) && s0 == AddRow(r0, s1)
    ensures SumValue(s0) == Ten(Value(r0), Value(r1), Value(r2), Value(r3), Value(r4),
                                Value(r5), Value(r6), Value(r7), Value(r8), Value(r9))
  {
    hide SumValue, AddRow, FirstRow, Value;
    FirstRowValue(r9);
    AddRowValue(r8, s9); AddRowValue(r7, s8); AddRowValue(r6, s7); AddRowValue(r5, s6); AddRowValue(r4, s5);
    AddRowValue(r3, s4); AddRowValue(r2, s3); AddRowValue(r1, s2); AddRowValue(r0, s1);
  }

  /** The columns of a product add up to the product. */
  lemma ColumnsAreProduct(a: Fe, b: Fe)
    ensures Weighted(ProductColumns(a, b)) == Value(a) * Value(b)
  {
    var s9 := FirstRow(RowOf(a.n9, b));
    var s8 := AddRow(RowOf(a.n8, b), s9);
    var s7 := AddRow(RowOf(a.n7, b), s8);
    var s6 := AddRow(RowOf(a.n6, b), s7);
    var s5 := AddRow(RowOf(a.n5, b), s6);
    var s4 := AddRow(RowOf(a.n4, b), s5);
    var s3 := AddRow(RowOf(a.n3, b), s4);
    var s2 := AddRow(RowOf(a.n2, b), s3);
    var s1 := AddRow(RowOf(a.n1, b), s2);
    var s0 := AddRow(RowOf(a.n0, b), s1);
    ColumnsOfSums(a, b, s0, s1, s2, s3, s4, s5, s6, s7, s8, s9);
    hide Times, Value, Weighted, Ten, ProductColumns, SumValue, AddRow, FirstRow, RowOf;
    Row(a.n0, b); Row(a.n1, b); Row(a.n2, b); Row(a.n3, b); Row(a.n4, b);
    Row(a.n5, b); Row(a.n6, b); Row(a.n7, b); Row(a.n8, b); Row(a.n9, b);
    AddRows(RowOf(a.n0, b), RowOf(a.n1, b), RowOf(a.n2, b), RowOf(a.n3, b), RowOf(a.n4, b),
            RowOf(a.n5, b), RowOf(a.n6, b), RowOf(a.n7, b), RowOf(a.n8, b), RowOf(a.n9, b),
            s0, s1, s2, s3, s4, s5, s6, s7, s8, s9);
    ValueTen(a);
    var v := Value(b);
    Distribute10(v, a.n0, a.n1, a.n2, a.n3, a.n4, a.n5, a.n6, a.n7, a.n8, a.n9);
    Commute10(v, a.n0, a.n1, a.n2, a.n3, a.n4, a.n5, a.n6, a.n7, a.n8, a.n9);
  }

  /** The columns read off the sums: the low ten from the last, the others as each is passed on. */
  lemma ColumnsOfSums(a: Fe, b: Fe, s0: Sum, s1: Sum, s2: Sum, s3: Sum, s4: Sum, s5: Sum, s6: Sum, s7: Sum, s8: Sum, s9: Sum)
    requires s9 == FirstRow(RowOf(a.n9, b)) && s8 == AddRow(RowOf(a.n8, b), s9) && s7 == AddRow(RowOf(a.n7, b), s8)
    requires s6 == AddRow(RowOf(a.n6, b), s7) && s5 == AddRow(RowOf(a.n5, b), s6) && s4 == AddRow(RowOf(a.n4, b), s5)
    requires s3 == AddRow(RowOf(a.n3, b), s4) && s2 == AddRow(RowOf(a.n2, b), s3) && s1 == AddRow(RowOf(a.n1, b), s2)
    requires s0 == AddRow(RowOf(a.n0, b), s1)
    ensures SumValue(s0) == Weighted(ProductColumns(a, b))
  {
    hide Times, SumValue, Weighted;
    var ps := ProductColumns(a, b);
    assert ps.p0 == s0.u0 && ps.p1 == s0.u1 && ps.p2 == s0.u2 && ps.p3 == s0.u3 && ps.p4 == s0.u4;
    assert ps.p5 == s0.u5 && ps.p6 == s0.u6 && ps.p7 == s0.u7 && ps.p8 == s0.u8 && ps.p9 == s0.u9;
    assert ps.p10 == s1.u9 && ps.p11 == s2.u9 && ps.p12 == s3.u9 && ps.p13 == s4.u9 && ps.p14 == s5.u9;
    assert ps.p15 == s6.u9 && ps.p16 == s7.u9 && ps.p17 == s8.u9 && ps.p18 == s9.u9;
    PassedOn(ps, s0, s1, s2, s3, s4, s5, s6, s7, s8, s9);
  }

  lemma PassedOn(ps: Columns, s0: Sum, s1: Sum, s2: Sum, s3: Sum, s4: Sum, s5: Sum, s6: Sum, s7: Sum, s8: Sum, s9: Sum)
    requires ps.p0 == s0.u0 && ps.p1 == s0.u1 && ps.p2 == s0.u2 && ps.p3 == s0.u3 && ps.p4 == s0.u4
    requires ps.p5 == s0.u5 && ps.p6 == s0.u6 && ps.p7 == s0.u7 && ps.p8 == s0.u8 && ps.p9 == s0.u9
    requires s0.rest == ps.p10 + BASE * s1.rest && s1.rest == ps.p11 + BASE * s2.rest && s2.rest == ps.p12 + BASE * s3.rest
    requires s3.rest == ps.p13 + BASE * s4.rest && s4.rest == ps.p14 + BASE * s5.rest && s5.rest == ps.p15 + BASE * s6.rest
    requires s6.rest == ps.p16 + BASE * s7.rest && s7.rest == ps.p17 + BASE * s8.rest && s8.rest == ps.p18 + BASE * s9.rest
    requires s9.rest == 0
    ensures SumValue(s0) == Weighted(ps)
  {
  }

  lemma Commute10(v: int, x0: int, x1: int, x2: int, x3: int, x4: int, x5: int, x6: int, x7: int, x8: int, x9: int)
    ensures v * x0 == x0 * v && v * x1 == x1 * v && v * x2 == x2 * v && v * x3 == x3 * v && v * x4 == x4 * v
    ensures v * x5 == x5 * v && v * x6 == x6 * v && v * x7 == x7 * v && v * x8 == x8 * v && v * x9 == x9 * v
    ensures v * Ten(x0, x1, x2, x3, x4, x5, x6, x7, x8, x9) == Ten(x0, x1, x2, x3, x4, x5, x6, x7, x8, x9) * v
  {
  }

  lemma ValueTen(f: Fe)
    ensures Value(f) == Ten(f.n0, f.n1, f.n2, f.n3, f.n4, f.n5, f.n6, f.n7, f.n8, f.n9)
  {
  }

  // ---------- reduction ----------

  /** One round: a high column joins d and a low column joins c; the low limb u of d is moved
  down ten places, where it counts R0 and, one place further up, R1. No sum reaches 2^64. */
  method Round(c: nat, d: nat, low: nat, high: nat) returns (c': nat, d': nat, t: nat, u: nat)
    requires d + high < UINT64 && c + low + M * R0 < UINT64
    ensures d + high == d' * BASE + u && u <= M
    ensures c' >= u * R1 && c + low + u * R0 == (c' - u * R1) * BASE + t && t <= M
    ensures c' <= (c + low + M * R0) / BASE + M * R1 < UINT64
  {
    d' := d + high;
    u := d' % BASE;
    d' := d' / BASE;
    c' := c + low;
    c' := c' + u * R0;
    t := c' % BASE;
    c' := c' / BASE;
    c' := c' + u * R1;
  }

  /** The columns from p9 on, with the limbs that were split off. */
  lemma HighColumns(ps: Columns, t9: int, d0: int, d1: int, d2: int, d3: int, d4: int, d5: int, d6: int, d7: int, d8: int,
                    d9: int, u0: int, u1: int, u2: int, u3: int, u4: int, u5: int, u6: int, u7: int, u8: int)
    requires ps.p9 == d0 * BASE + t9 && d0 + ps.p10 == d1 * BASE + u0 && d1 + ps.p11 == d2 * BASE + u1
    requires d2 + ps.p12 == d3 * BASE + u2 && d3 + ps.p13 == d4 * BASE + u3 && d4 + ps.p14 == d5 * BASE + u4
    requires d5 + ps.p15 == d6 * BASE + u5 && d6 + ps.p16 == d7 * BASE + u6 && d7 + ps.p17 == d8 * BASE + u7
    requires d8 + ps.p18 == d9 * BASE + u8
    ensures ps.p9 + BASE * Ten(ps.p10, ps.p11, ps.p12, ps.p13, ps.p14, ps.p15, ps.p16, ps.p17, ps.p18, 0)
            == t9 + BASE * Ten(u0, u1, u2, u3, u4, u5, u6, u7, u8, d9)
  {
  }

  /** The columns up to p8, to which the limbs u were added ten places down. */
  lemma LowColumns(ps: Columns, c1: int, c2: int, c3: int, c4: int, c5: int, c6: int, c7: int, c8: int, c9: int,
                   t0: int, t1: int, t2: int, t3: int, t4: int, t5: int, t6: int, t7: int, t8: int,
                   u0: int, u1: int, u2: int, u3: int, u4: int, u5: int, u6: int, u7: int, u8: int)
    requires ps.p0 + u0 * R0 == (c1 - u0 * R1) * BASE + t0 && c1 + ps.p1 + u1 * R0 == (c2 - u1 * R1) * BASE + t1
    requires c2 + ps.p2 + u2 * R0 == (c3 - u2 * R1) * BASE + t2 && c3 + ps.p3 + u3 * R0 == (c4 - u3 * R1) * BASE + t3
    requires c4 + ps.p4 + u4 * R0 == (c5 - u4 * R1) * BASE + t4 && c5 + ps.p5 + u5 * R0 == (c6 - u5 * R1) * BASE + t5
    requires c6 + ps.p6 + u6 * R0 == (c7 - u6 * R1) * BASE + t6 && c7 + ps.p7 + u7 * R0 == (c8 - u7 * R1) * BASE + t7
    requires c8 + ps.p8 + u8 * R0 == (c9 - u8 * R1) * BASE + t8
    ensures Ten(ps.p0, ps.p1, ps.p2, ps.p3, ps.p4, ps.p5, ps.p6, ps.p7, ps.p8, 0)
              + (R0 + R1 * BASE) * Ten(u0, u1, u2, u3, u4, u5, u6, u7, u8, 0)
            == Ten(t0, t1, t2, t3, t4, t5, t6, t7, t8, c9)
  {
  }

  /** What moving down and folding at 2^256 leave is congruent to the columns. */
  lemma Folded(ps: Columns, t: Fe, c9: int, d9: int, us: int, k: int, r: Fe)
    requires Ten(ps.p0, ps.p1, ps.p2, ps.p3, ps.p4, ps.p5, ps.p6, ps.p7, ps.p8, 0) + (R0 + R1 * BASE) * us
             == Ten(t.n0, t.n1, t.n2, t.n3, t.n4, t.n5, t.n6, t.n7, t.n8, c9)
    requires ps.p9 + BASE * Ten(ps.p10, ps.p11, ps.p12, ps.p13, ps.p14, ps.p15, ps.p16, ps.p17, ps.p18, 0)
             == t.n9 + BASE * (us + Ten(0, 0, 0, 0, 0, 0, 0, 0, 0, d9))
    requires c9 + d9 * R0 + t.n9 == (k - d9 * (R1 * 16)) * 0x40_0000 + r.n9
    requires r.n3 == t.n3 && r.n4 == t.n4 && r.n5 == t.n5 && r.n6 == t.n6 && r.n7 == t.n7 && r.n8 == t.n8
    requires r.n0 + BASE * (r.n1 + BASE * r.n2) == k * (R0 / 16) + t.n0 + BASE * (k * (R1 / 16) + t.n1 + BASE * t.n2)
    ensures Weighted(ps) == Value(r) + P * (16 * (us + Ten(0, 0, 0, 0, 0, 0, 0, 0, 0, d9)) + k)
  {
    var pl := Ten(ps.p0, ps.p1, ps.p2, ps.p3, ps.p4, ps.p5, ps.p6, ps.p7, ps.p8, 0);
    var ph := Ten(ps.p10, ps.p11, ps.p12, ps.p13, ps.p14, ps.p15, ps.p16, ps.p17, ps.p18, 0);
    var tl := Ten(t.n0, t.n1, t.n2, t.n3, t.n4, t.n5, t.n6, t.n7, t.n8, 0);
    TopOf(ps.p0, ps.p1, ps.p2, ps.p3, ps.p4, ps.p5, ps.p6, ps.p7, ps.p8, ps.p9);
    TopOf(t.n0, t.n1, t.n2, t.n3, t.n4, t.n5, t.n6, t.n7, t.n8, c9);
    TopOf(0, 0, 0, 0, 0, 0, 0, 0, 0, d9);
    LowLimbs(t, r, k);
    hide Ten;
    FoldIdentity(pl, ps.p9, ph, tl, t.n9, c9, d9, us, k, r.n9);
  }

  // The weight of the top limb, 2^234.
  const BASE9: nat := 0x400_00000000_00000000_00000000_00000000_00000000_00000000_00000000

  lemma TopOf(x0: int, x1: int, x2: int, x3: int, x4: int, x5: int, x6: int, x7: int, x8: int, x9: int)
    ensures Ten(x0, x1, x2, x3, x4, x5, x6, x7, x8, x9) == Ten(x0, x1, x2, x3, x4, x5, x6, x7, x8, 0) + BASE9 * x9
    ensures Ten(0, 0, 0, 0, 0, 0, 0, 0, 0, 0) == 0
  {
  }

  lemma LowLimbs(t: Fe, r: Fe, k: int)
    requires r.n3 == t.n3 && r.n4 == t.n4 && r.n5 == t.n5 && r.n6 == t.n6 && r.n7 == t.n7 && r.n8 == t.n8
    requires r.n0 + BASE * (r.n1 + BASE * r.n2) == k * (R0 / 16) + t.n0 + BASE * (k * (R1 / 16) + t.n1 + BASE * t.n2)
    ensures Value(r) == Ten(t.n0, t.n1, t.n2, t.n3, t.n4, t.n5, t.n6, t.n7, t.n8, 0) + BASE9 * r.n9
                        + k * 0x3D1 + BASE * (k * 0x40)
  {
    TopOf(r.n0, r.n1, r.n2, r.n3, r.n4, r.n5, r.n6, r.n7, r.n8, r.n9);
  }

  /** 2^260 is folded to R0 + R1 * 2^26, and 2^256 to a sixteenth of that. */
  lemma FoldIdentity(pl: int, p9: int, ph: int, tl: int, t9: int, c9: int, d9: int, us: int, k: int, r9: int)
    requires pl + (R0 + R1 * BASE) * us == tl + BASE9 * c9
    requires p9 + BASE * ph == t9 + BASE * (us + BASE9 * d9)
    requires c9 + d9 * R0 + t9 == (k - d9 * (R1 * 16)) * 0x40_0000 + r9
    ensures pl + BASE9 * p9 + BASE10 * ph
            == tl + BASE9 * r9 + k * 0x3D1 + BASE * (k * 0x40) + P * (16 * (us + BASE9 * d9) + k)
  {
  }

  /** The reduction shared by multiplication and squaring. The result has magnitude 1 and is
  congruent to the number that the columns stand for; no 64-bit sum overflows. */
  method ReduceColumns(ps: Columns) returns (r: Fe)
    requires InRange(ps)
    ensures HasMagnitude(r, 1)
    ensures Cong(Value(r), Weighted(ps), P)
  {
    hide Weighted, Value, Cong;
    var c, d, u0, u1, u2, u3, u4, u5, u6, u7, u8, t0, t1, t2, t3, t4, t5, t6, t7, t8, t9;
    d := ps.p9;
    assert d < UINT64;
    t9 := d % BASE;
    d := d / BASE;
    ghost var d0 := d;
    c, d, t0, u0 := Round(0, d, ps.p0, ps.p10);
    ghost var c1, d1 := c, d;
    assert c < 0x20_0000_0000 && d < 0x20_0000_0000;
    c, d, t1, u1 := Round(c, d, ps.p1, ps.p11);
    ghost var c2, d2 := c, d;
    assert c < 0x40_0000_0000 && d < 0x20_0000_0000;
    c, d, t2, u2 := Round(c, d, ps.p2, ps.p12);
    ghost var c3, d3 := c, d;
    assert c < 0x40_0000_0000 && d < 0x20_0000_0000;
    c, d, t3, u3 := Round(c, d, ps.p3, ps.p13);
    ghost var c4, d4 := c, d;
    assert c < 0x80_0000_0000 && d < 0x20_0000_0000;
    c, d, t4, u4 := Round(c, d, ps.p4, ps.p14);
    ghost var c5, d5 := c, d;
    assert c < 0x80_0000_0000 && d < 0x10_0000_0000;
    c, d, t5, u5 := Round(c, d, ps.p5, ps.p15);
    ghost var c6, d6 := c, d;
    assert c < 0x80_0000_0000 && d < 0x10_0000_0000;
    c, d, t6, u6 := Round(c, d, ps.p6, ps.p16);
    ghost var c7, d7 := c, d;
    assert c < 0x80_0000_0000 && d < 0x8_0000_0000;
    assert c + ps.p7 <= 0x8000_007C_0000_0007;
    c, d, t7, u7 := Round(c, d, ps.p7, ps.p17);
    ghost var c8, d8 := c, d;
    assert c < 0x80_0000_0000 && d < 0x1_0000_0000;
    assert c + ps.p8 <= 0x9000_007B_8000_0008;
    c, d, t8, u8 := Round(c, d, ps.p8, ps.p18);
    ghost var c9, d9 := c, d;
    assert c < 0x80_0000_0000 && d < 0x8000_0000;
    HighColumns(ps, t9, d0, d1, d2, d3, d4, d5, d6, d7, d8, d9, u0, u1, u2, u3, u4, u5, u6, u7, u8);
    LowColumns(ps, c1, c2, c3, c4, c5, c6, c7, c8, c9, t0, t1, t2, t3, t4, t5, t6, t7, t8,
               u0, u1, u2, u3, u4, u5, u6, u7, u8);
    ghost var us := Ten(u0, u1, u2, u3, u4, u5, u6, u7, u8, 0);
    TopDigit(u0, u1, u2, u3, u4, u5, u6, u7, u8, d9);
    r := FoldTop(c, d, t0, t1, t2, t3, t4, t5, t6, t7, t8, t9, ps, us);
  }

  lemma TopDigit(u0: int, u1: int, u2: int, u3: int, u4: int, u5: int, u6: int, u7: int, u8: int, d9: int)
    ensures Ten(u0, u1, u2, u3, u4, u5, u6, u7, u8, d9)
            == Ten(u0, u1, u2, u3, u4, u5, u6, u7, u8, 0) + Ten(0, 0, 0, 0, 0, 0, 0, 0, 0, d9)
  {
  }

  /** The end of the reduction: folds what is above 2^256. */
  method FoldTop(c0: nat, d0: nat, t0: nat, t1: nat, t2: nat, t3: nat, t4: nat, t5: nat, t6: nat, t7: nat, t8: nat, t9: nat,
                 ghost ps: Columns, ghost us: int)
    returns (r: Fe)
    requires c0 < 0x80_0000_0000 && d0 < 0x8000_0000
    requires t0 <= M && t1 <= M && t2 <= M && t3 <= M && t4 <= M && t5 <= M && t6 <= M && t7 <= M && t8 <= M && t9 <= M
    requires Ten(ps.p0, ps.p1, ps.p2, ps.p3, ps.p4, ps.p5, ps.p6, ps.p7, ps.p8, 0) + (R0 + R1 * BASE) * us
             == Ten(t0, t1, t2, t3, t4, t5, t6, t7, t8, c0)
    requires ps.p9 + BASE * Ten(ps.p10, ps.p11, ps.p12, ps.p13, ps.p14, ps.p15, ps.p16, ps.p17, ps.p18, 0)
             == t9 + BASE * (us + Ten(0, 0, 0, 0, 0, 0, 0, 0, 0, d0))
    ensures HasMagnitude(r, 1)
    ensures Cong(Value(r), Weighted(ps), P)
  {
    hide Ten, Cong, Value, Weighted;
    var c := c0 + (d0 * R0 + t9);
    assert c < 0x2000_0000_0000;
    var r9 := c % 0x40_0000;
    c := c / 0x40_0000;
    c := c + d0 * (R1 * 16);
    assert c < 0x2000_0080_0000;
    var d := c * (R0 / 16) + t0;
    assert d < 0x100_0000_0000_0000;
    var r0 := d % BASE;
    d := d / BASE;
    assert d < 0x4000_0000;
    ghost var e := d;
    d := d + (c * (R1 / 16) + t1);
    assert d <= 0x10_0000_03FF_FFBF;
    var r1 := d % BASE;
    d := d / BASE;
    d := d + t2;
    r := Fe(r0, r1, d, t3, t4, t5, t6, t7, t8, r9);
    Folded(ps, Fe(t0, t1, t2, t3, t4, t5, t6, t7, t8, t9), c0, d0, us, c, r);
    CongWitness(Value(r), Weighted(ps), P, -(16 * (us + Ten(0, 0, 0, 0, 0, 0, 0, 0, 0, d0)) + c));
  }

  /** `secp256k1_fe_mul_inner` */
  method MulInner(a: Fe, b: Fe) returns (r: Fe)
    requires IsFactor(a) && IsFactor(b)
    ensures HasMagnitude(r, 1)
    ensures Cong(Value(r), Value(a) * Value(b), P)
  {
    hide IsFactor, Value, Weighted, ProductColumns, Cong, HasMagnitude, InRange;
    ColumnsInRange(a, b);
    ColumnsAreProduct(a, b);
    r := ReduceColumns(ProductColumns(a, b));
  }

  /** `secp256k1_fe_sqr_inner` */
  method SqrInner(a: Fe) returns (r: Fe)
    requires IsFactor(a)
    ensures HasMagnitude(r, 1)
    ensures Cong(Value(r), Value(a) * Value(a), P)
  {
    hide IsFactor, Value, Weighted, ProductColumns, SquareColumns, Cong, HasMagnitude, InRange;
    SquareColumnsAreProducts(a);
    ColumnsInRange(a, a);
    ColumnsAreProduct(a, a);
    r := ReduceColumns(SquareColumns(a));
  }
}
