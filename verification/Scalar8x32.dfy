/** Scalars modulo the group order as eight words of 32 bits (scalar_8x32_impl.h). */
module Scalar8x32 {
  import opened Numbers
  import opened Accumulator

  /** `secp256k1_scalar`, least significant word first. */
  datatype Scalar = Scalar(d0: Word, d1: Word, d2: Word, d3: Word, d4: Word, d5: Word, d6: Word, d7: Word)

  /** A 512-bit product. */
  datatype Wide = Wide(l0: Word, l1: Word, l2: Word, l3: Word, l4: Word, l5: Word, l6: Word, l7: Word,
                       l8: Word, l9: Word, l10: Word, l11: Word, l12: Word, l13: Word, l14: Word, l15: Word)

  /** The number with eight given digits. */
  function Eight(x0: int, x1: int, x2: int, x3: int, x4: int, x5: int, x6: int, x7: int): int {
    x0 + 0x1_0000_0000 * (x1 + 0x1_0000_0000 * (x2 + 0x1_0000_0000 * (x3 + 0x1_0000_0000 * (x4 + 0x1_0000_0000 * (x5 + 0x1_0000_0000 * (x6 + 0x1_0000_0000 * x7))))))
  }

  function Value(s: Scalar): int {
    Eight(s.d0, s.d1, s.d2, s.d3, s.d4, s.d5, s.d6, s.d7)
  }

  const WORD8: nat := 0x1_00000000_00000000_00000000_00000000_00000000_00000000_00000000_00000000

  /** The number with eight given low digits and a given rest. */
  function Above8(x0: int, x1: int, x2: int, x3: int, x4: int, x5: int, x6: int, x7: int, rest: int): int {
    x0 + 0x1_0000_0000 * (x1 + 0x1_0000_0000 * (x2 + 0x1_0000_0000 * (x3 + 0x1_0000_0000 * (x4 + 0x1_0000_0000 * (x5 + 0x1_0000_0000 * (x6 + 0x1_0000_0000 * (x7 + 0x1_0000_0000 * rest)))))))
  }

  function WideValue(l: Wide): int {
    Above8(l.l0, l.l1, l.l2, l.l3, l.l4, l.l5, l.l6, l.l7, Eight(l.l8, l.l9, l.l10, l.l11, l.l12, l.l13, l.l14, l.l15))
  }

  // ---------- the product ----------

  /** The columns of the product: pk collects the products of words whose indices add up to k. */
  datatype Columns = Columns(p0: nat, p1: nat, p2: nat, p3: nat, p4: nat, p5: nat, p6: nat, p7: nat,
                             p8: nat, p9: nat, p10: nat, p11: nat, p12: nat, p13: nat, p14: nat)

  function ProductColumns(a: Scalar, b: Scalar): Columns {
    Columns(
      Times(a.d0, b.d0),
      Times(a.d0, b.d1) + Times(a.d1, b.d0),
      Times(a.d0, b.d2) + Times(a.d1, b.d1) + Times(a.d2, b.d0),
      Times(a.d0, b.d3) + Times(a.d1, b.d2) + Times(a.d2, b.d1) + Times(a.d3, b.d0),
      Times(a.d0, b.d4) + Times(a.d1, b.d3) + Times(a.d2, b.d2) + Times(a.d3, b.d1) + Times(a.d4, b.d0),
      Times(a.d0, b.d5) + Times(a.d1, b.d4) + Times(a.d2, b.d3) + Times(a.d3, b.d2) + Times(a.d4, b.d1) +
        Times(a.d5, b.d0),
      Times(a.d0, b.d6) + Times(a.d1, b.d5) + Times(a.d2, b.d4) + Times(a.d3, b.d3) + Times(a.d4, b.d2) +
        Times(a.d5, b.d1) + Times(a.d6, b.d0),
      Times(a.d0, b.d7) + Times(a.d1, b.d6) + Times(a.d2, b.d5) + Times(a.d3, b.d4) + Times(a.d4, b.d3) +
        Times(a.d5, b.d2) + Times(a.d6, b.d1) + Times(a.d7, b.d0),
      Times(a.d1, b.d7) + Times(a.d2, b.d6) + Times(a.d3, b.d5) + Times(a.d4, b.d4) + Times(a.d5, b.d3) +
        Times(a.d6, b.d2) + Times(a.d7, b.d1),
      Times(a.d2, b.d7) + Times(a.d3, b.d6) + Times(a.d4, b.d5) + Times(a.d5, b.d4) + Times(a.d6, b.d3) +
        Times(a.d7, b.d2),
      Times(a.d3, b.d7) + Times(a.d4, b.d6) + Times(a.d5, b.d5) + Times(a.d6, b.d4) + Times(a.d7, b.d3),
      Times(a.d4, b.d7) + Times(a.d5, b.d6) + Times(a.d6, b.d5) + Times(a.d7, b.d4),
      Times(a.d5, b.d7) + Times(a.d6, b.d6) + Times(a.d7, b.d5),
      Times(a.d6, b.d7) + Times(a.d7, b.d6),
      Times(a.d7, b.d7))
  }

  function Weighted(ps: Columns): int {
    Above8(ps.p0, ps.p1, ps.p2, ps.p3, ps.p4, ps.p5, ps.p6, ps.p7,
           Eight(ps.p8, ps.p9, ps.p10, ps.p11, ps.p12, ps.p13, ps.p14, 0))
  }

  /** One row of the schoolbook multiplication. */
  datatype Row = Row(n0: nat, n1: nat, n2: nat, n3: nat, n4: nat, n5: nat, n6: nat, n7: nat)

  function RowValue(r: Row): int {
    Eight(r.n0, r.n1, r.n2, r.n3, r.n4, r.n5, r.n6, r.n7)
  }

  function RowOf(x: Word, b: Scalar): Row {
    Row(Times(x, b.d0), Times(x, b.d1), Times(x, b.d2), Times(x, b.d3),
        Times(x, b.d4), Times(x, b.d5), Times(x, b.d6), Times(x, b.d7))
  }

  lemma Distribute8(x: int, y0: int, y1: int, y2: int, y3: int, y4: int, y5: int, y6: int, y7: int)
    ensures x * Eight(y0, y1, y2, y3, y4, y5, y6, y7)
            == Eight(x * y0, x * y1, x * y2, x * y3, x * y4, x * y5, x * y6, x * y7)
  {
  }

  lemma RowIsProduct(x: Word, b: Scalar)
    ensures x * Value(b) == RowValue(RowOf(x, b))
  {
    Distribute8(x, b.d0, b.d1, b.d2, b.d3, b.d4, b.d5, b.d6, b.d7);
  }

  /** Adding up the upper four of eight shifted rows column by column, and the lower four. */
  lemma UpperRows(r4: Row, r5: Row, r6: Row, r7: Row)
    ensures RowValue(r4) + 0x1_0000_0000 * (RowValue(r5) + 0x1_0000_0000 * (RowValue(r6) + 0x1_0000_0000 * RowValue(r7)))
            == Above8(r4.n0, r4.n1 + r5.n0, r4.n2 + r5.n1 + r6.n0, r4.n3 + r5.n2 + r6.n1 + r7.n0,
                      r4.n4 + r5.n3 + r6.n2 + r7.n1, r4.n5 + r5.n4 + r6.n3 + r7.n2, r4.n6 + r5.n5 + r6.n4 + r7.n3,
                      r4.n7 + r5.n6 + r6.n5 + r7.n4, Eight(r5.n7 + r6.n6 + r7.n5, r6.n7 + r7.n6, r7.n7, 0, 0, 0, 0, 0))
  {
  }

  lemma LowerRows(r0: Row, r1: Row, r2: Row, r3: Row, ps: Columns, h0: int, h1: int, h2: int, h3: int, upper: int)
    requires ps.p0 == r0.n0 && ps.p1 == r0.n1 + r1.n0 && ps.p2 == r0.n2 + r1.n1 + r2.n0
    requires ps.p3 == r0.n3 + r1.n2 + r2.n1 + r3.n0 && ps.p4 == r0.n4 + r1.n3 + r2.n2 + r3.n1 + h0
    requires ps.p5 == r0.n5 + r1.n4 + r2.n3 + r3.n2 + h1 && ps.p6 == r0.n6 + r1.n5 + r2.n4 + r3.n3 + h2
    requires ps.p7 == r0.n7 + r1.n6 + r2.n5 + r3.n4 + h3
    requires upper == Above8(h0, h1, h2, h3, ps.p8 - (r1.n7 + r2.n6 + r3.n5), ps.p9 - (r2.n7 + r3.n6), ps.p10 - r3.n7,
                             ps.p11, Eight(ps.p12, ps.p13, ps.p14, 0, 0, 0, 0, 0))
    ensures RowValue(r0) + 0x1_0000_0000 * (RowValue(r1) + 0x1_0000_0000 * (RowValue(r2)
              + 0x1_0000_0000 * (RowValue(r3) + 0x1_0000_0000 * upper))) == Weighted(ps)
  {
  }

  /** The columns of eight rows, each shifted by one place against the one before. */
  function DiagonalSums(r0: Row, r1: Row, r2: Row, r3: Row, r4: Row, r5: Row, r6: Row, r7: Row): Columns {
    Columns(
      r0.n0,
      r0.n1 + r1.n0,
      r0.n2 + r1.n1 + r2.n0,
      r0.n3 + r1.n2 + r2.n1 + r3.n0,
      r0.n4 + r1.n3 + r2.n2 + r3.n1 + r4.n0,
      r0.n5 + r1.n4 + r2.n3 + r3.n2 + r4.n1 + r5.n0,
      r0.n6 + r1.n5 + r2.n4 + r3.n3 + r4.n2 + r5.n1 + r6.n0,
      r0.n7 + r1.n6 + r2.n5 + r3.n4 + r4.n3 + r5.n2 + r6.n1 + r7.n0,
      r1.n7 + r2.n6 + r3.n5 + r4.n4 + r5.n3 + r6.n2 + r7.n1,
      r2.n7 + r3.n6 + r4.n5 + r5.n4 + r6.n3 + r7.n2,
      r3.n7 + r4.n6 + r5.n5 + r6.n4 + r7.n3,
      r4.n7 + r5.n6 + r6.n5 + r7.n4,
      r5.n7 + r6.n6 + r7.n5,
      r6.n7 + r7.n6,
      r7.n7)
  }

  lemma Diagonals(r0: Row, r1: Row, r2: Row, r3: Row, r4: Row, r5: Row, r6: Row, r7: Row)
    ensures Eight(RowValue(r0), RowValue(r1), RowValue(r2), RowValue(r3),
                  RowValue(r4), RowValue(r5), RowValue(r6), RowValue(r7)) == Weighted(DiagonalSums(r0, r1, r2, r3, r4, r5, r6, r7))
  {
    var ps := DiagonalSums(r0, r1, r2, r3, r4, r5, r6, r7);
    UpperRows(r4, r5, r6, r7);
    hide RowValue, Above8, Weighted;
    LowerRows(r0, r1, r2, r3, ps, r4.n0, r4.n1 + r5.n0, r4.n2 + r5.n1 + r6.n0, r4.n3 + r5.n2 + r6.n1 + r7.n0,
              RowValue(r4) + 0x1_0000_0000 * (RowValue(r5) + 0x1_0000_0000 * (RowValue(r6) + 0x1_0000_0000 * RowValue(r7))));
  }

  /** The columns of a product add up to the product. */
  lemma ColumnsAreProduct(a: Scalar, b: Scalar)
    ensures Weighted(ProductColumns(a, b)) == Value(a) * Value(b)
  {
    RowIsProduct(a.d0, b); RowIsProduct(a.d1, b); RowIsProduct(a.d2, b); RowIsProduct(a.d3, b);
    RowIsProduct(a.d4, b); RowIsProduct(a.d5, b); RowIsProduct(a.d6, b); RowIsProduct(a.d7, b);
    var v := Value(b);
    hide Times, Value, RowValue, Weighted, Eight;
    Diagonals(RowOf(a.d0, b), RowOf(a.d1, b), RowOf(a.d2, b), RowOf(a.d3, b),
              RowOf(a.d4, b), RowOf(a.d5, b), RowOf(a.d6, b), RowOf(a.d7, b));
    ValueEight(a);
    Distribute8(v, a.d0, a.d1, a.d2, a.d3, a.d4, a.d5, a.d6, a.d7);
    Commute8(v, a.d0, a.d1, a.d2, a.d3, a.d4, a.d5, a.d6, a.d7);
  }

  lemma Commute8(v: int, x0: int, x1: int, x2: int, x3: int, x4: int, x5: int, x6: int, x7: int)
    ensures v * x0 == x0 * v && v * x1 == x1 * v && v * x2 == x2 * v && v * x3 == x3 * v
    ensures v * x4 == x4 * v && v * x5 == x5 * v && v * x6 == x6 * v && v * x7 == x7 * v
    ensures v * Eight(x0, x1, x2, x3, x4, x5, x6, x7) == Eight(x0, x1, x2, x3, x4, x5, x6, x7) * v
  {
  }

  lemma ValueEight(s: Scalar)
    ensures Value(s) == Eight(s.d0, s.d1, s.d2, s.d3, s.d4, s.d5, s.d6, s.d7)
  {
  }

  // `secp256k1_scalar_mul_512`, in five parts: the accumulator runs through all columns.

  method MulColumns0To4(a: Scalar, b: Scalar) returns (l0: Word, l1: Word, l2: Word, l3: Word, l4: Word, c: Acc)
    ensures Total(c) <= 5 * WORD - 6
    ensures var ps := ProductColumns(a, b);
            l0 + WORD * (l1 + WORD * (l2 + WORD * (l3 + WORD * (l4 + WORD * Total(c)))))
            == ps.p0 + WORD * (ps.p1 + WORD * (ps.p2 + WORD * (ps.p3 + WORD * ps.p4)))
  {
    hide Times, Total;
    SmallTotal(0);
    c := Acc(0, 0, 0);
    c := MulAddFast(c, a.d0, b.d0);
    l0, c := ExtractFast(c);
    c := MulAdd(c, a.d0, b.d1);
    c := MulAdd(c, a.d1, b.d0);
    l1, c := Extract(c);
    c := MulAdd(c, a.d0, b.d2);
    c := MulAdd(c, a.d1, b.d1);
    c := MulAdd(c, a.d2, b.d0);
    l2, c := Extract(c);
    c := MulAdd(c, a.d0, b.d3);
    c := MulAdd(c, a.d1, b.d2);
    c := MulAdd(c, a.d2, b.d1);
    c := MulAdd(c, a.d3, b.d0);
    l3, c := Extract(c);
    c := MulAdd(c, a.d0, b.d4);
    c := MulAdd(c, a.d1, b.d3);
    c := MulAdd(c, a.d2, b.d2);
    c := MulAdd(c, a.d3, b.d1);
    c := MulAdd(c, a.d4, b.d0);
    l4, c := Extract(c);
  }

  method MulColumns5To6(a: Scalar, b: Scalar, c0: Acc) returns (l5: Word, l6: Word, c: Acc)
    requires Total(c0) <= 5 * WORD - 6
    ensures Total(c) <= 7 * WORD - 8
    ensures var ps := ProductColumns(a, b);
            l5 + WORD * (l6 + WORD * Total(c))
            == Total(c0) + ps.p5 + WORD * ps.p6
  {
    hide Times, Total;
    c := c0;
    c := MulAdd(c, a.d0, b.d5);
    c := MulAdd(c, a.d1, b.d4);
    c := MulAdd(c, a.d2, b.d3);
    c := MulAdd(c, a.d3, b.d2);
    c := MulAdd(c, a.d4, b.d1);
    c := MulAdd(c, a.d5, b.d0);
    l5, c := Extract(c);
    c := MulAdd(c, a.d0, b.d6);
    c := MulAdd(c, a.d1, b.d5);
    c := MulAdd(c, a.d2, b.d4);
    c := MulAdd(c, a.d3, b.d3);
    c := MulAdd(c, a.d4, b.d2);
    c := MulAdd(c, a.d5, b.d1);
    c := MulAdd(c, a.d6, b.d0);
    l6, c := Extract(c);
  }

  method MulColumns7To8(a: Scalar, b: Scalar, c0: Acc) returns (l7: Word, l8: Word, c: Acc)
    requires Total(c0) <= 7 * WORD - 8
    ensures Total(c) <= 7 * WORD - 7
    ensures var ps := ProductColumns(a, b);
            l7 + WORD * (l8 + WORD * Total(c))
            == Total(c0) + ps.p7 + WORD * ps.p8
  {
    hide Times, Total;
    c := c0;
    c := MulAdd(c, a.d0, b.d7);
    c := MulAdd(c, a.d1, b.d6);
    c := MulAdd(c, a.d2, b.d5);
    c := MulAdd(c, a.d3, b.d4);
    c := MulAdd(c, a.d4, b.d3);
    c := MulAdd(c, a.d5, b.d2);
    c := MulAdd(c, a.d6, b.d1);
    c := MulAdd(c, a.d7, b.d0);
    l7, c := Extract(c);
    c := MulAdd(c, a.d1, b.d7);
    c := MulAdd(c, a.d2, b.d6);
    c := MulAdd(c, a.d3, b.d5);
    c := MulAdd(c, a.d4, b.d4);
    c := MulAdd(c, a.d5, b.d3);
    c := MulAdd(c, a.d6, b.d2);
    c := MulAdd(c, a.d7, b.d1);
    l8, c := Extract(c);
  }

  method MulColumns9To11(a: Scalar, b: Scalar, c0: Acc) returns (l9: Word, l10: Word, l11: Word, c: Acc)
    requires Total(c0) <= 7 * WORD - 7
    ensures Total(c) <= 4 * WORD - 4
    ensures var ps := ProductColumns(a, b);
            l9 + WORD * (l10 + WORD * (l11 + WORD * Total(c)))
            == Total(c0) + ps.p9 + WORD * (ps.p10 + WORD * ps.p11)
  {
    hide Times, Total;
    c := c0;
    c := MulAdd(c, a.d2, b.d7);
    c := MulAdd(c, a.d3, b.d6);
    c := MulAdd(c, a.d4, b.d5);
    c := MulAdd(c, a.d5, b.d4);
    c := MulAdd(c, a.d6, b.d3);
    c := MulAdd(c, a.d7, b.d2);
    l9, c := Extract(c);
    c := MulAdd(c, a.d3, b.d7);
    c := MulAdd(c, a.d4, b.d6);
    c := MulAdd(c, a.d5, b.d5);
    c := MulAdd(c, a.d6, b.d4);
    c := MulAdd(c, a.d7, b.d3);
    l10, c := Extract(c);
    c := MulAdd(c, a.d4, b.d7);
    c := MulAdd(c, a.d5, b.d6);
    c := MulAdd(c, a.d6, b.d5);
    c := MulAdd(c, a.d7, b.d4);
    l11, c := Extract(c);
  }

  method MulColumns12To14(a: Scalar, b: Scalar, c0: Acc) returns (l12: Word, l13: Word, l14: Word, c: Acc)
    requires Total(c0) <= 4 * WORD - 4
    ensures c.c1 == 0 && c.c2 == 0
    ensures var ps := ProductColumns(a, b);
            l12 + WORD * (l13 + WORD * (l14 + WORD * Total(c)))
            == Total(c0) + ps.p12 + WORD * (ps.p13 + WORD * ps.p14)
  {
    hide Times, Total;
    c := c0;
    c := MulAdd(c, a.d5, b.d7);
    c := MulAdd(c, a.d6, b.d6);
    c := MulAdd(c, a.d7, b.d5);
    l12, c := Extract(c);
    c := MulAdd(c, a.d6, b.d7);
    c := MulAdd(c, a.d7, b.d6);
    l13, c := Extract(c);
    c := MulAddFast(c, a.d7, b.d7);
    l14, c := ExtractFast(c);
  }

  // `secp256k1_scalar_sqr_512`: equal products are added once, doubled.

  lemma TimesCommutes(x: Word, y: Word)
    ensures Times(x, y) == Times(y, x)
  {
  }

  method SqrColumns0To4(a: Scalar) returns (l0: Word, l1: Word, l2: Word, l3: Word, l4: Word, c: Acc)
    ensures Total(c) <= 5 * WORD - 6
    ensures var ps := ProductColumns(a, a);
            l0 + WORD * (l1 + WORD * (l2 + WORD * (l3 + WORD * (l4 + WORD * Total(c)))))
            == ps.p0 + WORD * (ps.p1 + WORD * (ps.p2 + WORD * (ps.p3 + WORD * ps.p4)))
  {
    hide Times, Total;
    SmallTotal(0);
    c := Acc(0, 0, 0);
    c := MulAddFast(c, a.d0, a.d0);
    l0, c := ExtractFast(c);
    TimesCommutes(a.d0, a.d1);
    c := MulAdd2(c, a.d0, a.d1);
    l1, c := Extract(c);
    TimesCommutes(a.d0, a.d2);
    c := MulAdd2(c, a.d0, a.d2);
    c := MulAdd(c, a.d1, a.d1);
    l2, c := Extract(c);
    TimesCommutes(a.d0, a.d3);
    c := MulAdd2(c, a.d0, a.d3);
    TimesCommutes(a.d1, a.d2);
    c := MulAdd2(c, a.d1, a.d2);
    l3, c := Extract(c);
    TimesCommutes(a.d0, a.d4);
    c := MulAdd2(c, a.d0, a.d4);
    TimesCommutes(a.d1, a.d3);
    c := MulAdd2(c, a.d1, a.d3);
    c := MulAdd(c, a.d2, a.d2);
    l4, c := Extract(c);
  }

  method SqrColumns5To6(a: Scalar, c0: Acc) returns (l5: Word, l6: Word, c: Acc)
    requires Total(c0) <= 5 * WORD - 6
    ensures Total(c) <= 7 * WORD - 8
    ensures var ps := ProductColumns(a, a);
            l5 + WORD * (l6 + WORD * Total(c))
            == Total(c0) + ps.p5 + WORD * ps.p6
  {
    hide Times, Total;
    c := c0;
    TimesCommutes(a.d0, a.d5);
    c := MulAdd2(c, a.d0, a.d5);
    TimesCommutes(a.d1, a.d4);
    c := MulAdd2(c, a.d1, a.d4);
    TimesCommutes(a.d2, a.d3);
    c := MulAdd2(c, a.d2, a.d3);
    l5, c := Extract(c);
    TimesCommutes(a.d0, a.d6);
    c := MulAdd2(c, a.d0, a.d6);
    TimesCommutes(a.d1, a.d5);
    c := MulAdd2(c, a.d1, a.d5);
    TimesCommutes(a.d2, a.d4);
    c := MulAdd2(c, a.d2, a.d4);
    c := MulAdd(c, a.d3, a.d3);
    l6, c := Extract(c);
  }

  method SqrColumns7To8(a: Scalar, c0: Acc) returns (l7: Word, l8: Word, c: Acc)
    requires Total(c0) <= 7 * WORD - 8
    ensures Total(c) <= 7 * WORD - 7
    ensures var ps := ProductColumns(a, a);
            l7 + WORD * (l8 + WORD * Total(c))
            == Total(c0) + ps.p7 + WORD * ps.p8
  {
    hide Times, Total;
    c := c0;
    TimesCommutes(a.d0, a.d7);
    c := MulAdd2(c, a.d0, a.d7);
    TimesCommutes(a.d1, a.d6);
    c := MulAdd2(c, a.d1, a.d6);
    TimesCommutes(a.d2, a.d5);
    c := MulAdd2(c, a.d2, a.d5);
    TimesCommutes(a.d3, a.d4);
    c := MulAdd2(c, a.d3, a.d4);
    l7, c := Extract(c);
    TimesCommutes(a.d1, a.d7);
    c := MulAdd2(c, a.d1, a.d7);
    TimesCommutes(a.d2, a.d6);
    c := MulAdd2(c, a.d2, a.d6);
    TimesCommutes(a.d3, a.d5);
    c := MulAdd2(c, a.d3, a.d5);
    c := MulAdd(c, a.d4, a.d4);
    l8, c := Extract(c);
  }

  method SqrColumns9To11(a: Scalar, c0: Acc) returns (l9: Word, l10: Word, l11: Word, c: Acc)
    requires Total(c0) <= 7 * WORD - 7
    ensures Total(c) <= 4 * WORD - 4
    ensures var ps := ProductColumns(a, a);
            l9 + WORD * (l10 + WORD * (l11 + WORD * Total(c)))
            == Total(c0) + ps.p9 + WORD * (ps.p10 + WORD * ps.p11)
  {
    hide Times, Total;
    c := c0;
    TimesCommutes(a.d2, a.d7);
    c := MulAdd2(c, a.d2, a.d7);
    TimesCommutes(a.d3, a.d6);
    c := MulAdd2(c, a.d3, a.d6);
    TimesCommutes(a.d4, a.d5);
    c := MulAdd2(c, a.d4, a.d5);
    l9, c := Extract(c);
    TimesCommutes(a.d3, a.d7);
    c := MulAdd2(c, a.d3, a.d7);
    TimesCommutes(a.d4, a.d6);
    c := MulAdd2(c, a.d4, a.d6);
    c := MulAdd(c, a.d5, a.d5);
    l10, c := Extract(c);
    TimesCommutes(a.d4, a.d7);
    c := MulAdd2(c, a.d4, a.d7);
    TimesCommutes(a.d5, a.d6);
    c := MulAdd2(c, a.d5, a.d6);
    l11, c := Extract(c);
  }

  method SqrColumns12To14(a: Scalar, c0: Acc) returns (l12: Word, l13: Word, l14: Word, c: Acc)
    requires Total(c0) <= 4 * WORD - 4
    ensures c.c1 == 0 && c.c2 == 0
    ensures var ps := ProductColumns(a, a);
            l12 + WORD * (l13 + WORD * (l14 + WORD * Total(c)))
            == Total(c0) + ps.p12 + WORD * (ps.p13 + WORD * ps.p14)
  {
    hide Times, Total;
    c := c0;
    TimesCommutes(a.d5, a.d7);
    c := MulAdd2(c, a.d5, a.d7);
    c := MulAdd(c, a.d6, a.d6);
    l12, c := Extract(c);
    TimesCommutes(a.d6, a.d7);
    c := MulAdd2(c, a.d6, a.d7);
    l13, c := Extract(c);
    c := MulAddFast(c, a.d7, a.d7);
    l14, c := ExtractFast(c);
  }

  /** Joining the five parts. */
  lemma JoinParts(ps: Columns, l: Wide, t1: int, t2: int, t3: int, t4: int)
    requires l.l0 + WORD * (l.l1 + WORD * (l.l2 + WORD * (l.l3 + WORD * (l.l4 + WORD * t1))))
             == ps.p0 + WORD * (ps.p1 + WORD * (ps.p2 + WORD * (ps.p3 + WORD * ps.p4)))
    requires l.l5 + WORD * (l.l6 + WORD * t2) == t1 + ps.p5 + WORD * ps.p6
    requires l.l7 + WORD * (l.l8 + WORD * t3) == t2 + ps.p7 + WORD * ps.p8
    requires l.l9 + WORD * (l.l10 + WORD * (l.l11 + WORD * t4)) == t3 + ps.p9 + WORD * (ps.p10 + WORD * ps.p11)
    requires l.l12 + WORD * (l.l13 + WORD * (l.l14 + WORD * l.l15)) == t4 + ps.p12 + WORD * (ps.p13 + WORD * ps.p14)
    ensures WideValue(l) == Weighted(ps)
  {
  }

  /** `secp256k1_scalar_mul_512`: the exact product. */
  method Mul512(a: Scalar, b: Scalar) returns (l: Wide)
    ensures WideValue(l) == Value(a) * Value(b)
  {
    hide Value, WideValue, Weighted, ProductColumns;
    var l0, l1, l2, l3, l4, l5, l6, l7, l8, l9, l10, l11, l12, l13, l14, c;
    l0, l1, l2, l3, l4, c := MulColumns0To4(a, b);
    ghost var t1 := Total(c);
    l5, l6, c := MulColumns5To6(a, b, c);
    ghost var t2 := Total(c);
    l7, l8, c := MulColumns7To8(a, b, c);
    ghost var t3 := Total(c);
    l9, l10, l11, c := MulColumns9To11(a, b, c);
    ghost var t4 := Total(c);
    l12, l13, l14, c := MulColumns12To14(a, b, c);
    assert c.c1 == 0;
    l := Wide(l0, l1, l2, l3, l4, l5, l6, l7, l8, l9, l10, l11, l12, l13, l14, c.c0);
    JoinParts(ProductColumns(a, b), l, t1, t2, t3, t4);
    ColumnsAreProduct(a, b);
  }

  /** `secp256k1_scalar_sqr_512`: the exact square. */
  method Sqr512(a: Scalar) returns (l: Wide)
    ensures WideValue(l) == Value(a) * Value(a)
  {
    hide Value, WideValue, Weighted, ProductColumns;
    var l0, l1, l2, l3, l4, l5, l6, l7, l8, l9, l10, l11, l12, l13, l14, c;
    l0, l1, l2, l3, l4, c := SqrColumns0To4(a);
    ghost var t1 := Total(c);
    l5, l6, c := SqrColumns5To6(a, c);
    ghost var t2 := Total(c);
    l7, l8, c := SqrColumns7To8(a, c);
    ghost var t3 := Total(c);
    l9, l10, l11, c := SqrColumns9To11(a, c);
    ghost var t4 := Total(c);
    l12, l13, l14, c := SqrColumns12To14(a, c);
    assert c.c1 == 0;
    l := Wide(l0, l1, l2, l3, l4, l5, l6, l7, l8, l9, l10, l11, l12, l13, l14, c.c0);
    JoinParts(ProductColumns(a, a), l, t1, t2, t3, t4);
    ColumnsAreProduct(a, a);
  }

  // ---------- reduction ----------

  // The words of the order, and of its complement NC == 2^256 - N.
  const N_0: Word := 0xD0364141
  const N_1: Word := 0xBFD25E8C
  const N_2: Word := 0xAF48A03B
  const N_3: Word := 0xBAAEDCE6
  const N_4: Word := 0xFFFFFFFE
  const N_5: Word := 0xFFFFFFFF
  const N_6: Word := 0xFFFFFFFF
  const N_7: Word := 0xFFFFFFFF
  const NC_0: Word := 0x2FC9BEBF
  const NC_1: Word := 0x402DA173
  const NC_2: Word := 0x50B75FC4
  const NC_3: Word := 0x45512319
  const NC_4: Word := 1
  const NC: nat := 0x1_45512319_50B75FC4_402DA173_2FC9BEBF

  lemma OrderWords()
    ensures Value(Scalar(N_0, N_1, N_2, N_3, N_4, N_5, N_6, N_7)) == N
    ensures Eight(NC_0, NC_1, NC_2, NC_3, NC_4, 0, 0, 0) == NC == WORD8 - N
  {
  }

  /** The columns of low + high * NC, where 2^256 counts NC. */
  datatype FoldColumns = FoldColumns(q0: nat, q1: nat, q2: nat, q3: nat, q4: nat, q5: nat,
                                     q6: nat, q7: nat, q8: nat, q9: nat, q10: nat, q11: nat)

  function ColumnsOfFold(low: Scalar, high: Scalar): FoldColumns {
    FoldColumns(
      low.d0 + Times(high.d0, NC_0),
      low.d1 + Times(high.d1, NC_0) + Times(high.d0, NC_1),
      low.d2 + Times(high.d2, NC_0) + Times(high.d1, NC_1) + Times(high.d0, NC_2),
      low.d3 + Times(high.d3, NC_0) + Times(high.d2, NC_1) + Times(high.d1, NC_2) + Times(high.d0, NC_3),
      low.d4 + Times(high.d4, NC_0) + Times(high.d3, NC_1) + Times(high.d2, NC_2) + Times(high.d1, NC_3) + high.d0,
      low.d5 + Times(high.d5, NC_0) + Times(high.d4, NC_1) + Times(high.d3, NC_2) + Times(high.d2, NC_3) + high.d1,
      low.d6 + Times(high.d6, NC_0) + Times(high.d5, NC_1) + Times(high.d4, NC_2) + Times(high.d3, NC_3) + high.d2,
      low.d7 + Times(high.d7, NC_0) + Times(high.d6, NC_1) + Times(high.d5, NC_2) + Times(high.d4, NC_3) + high.d3,
      Times(high.d7, NC_1) + Times(high.d6, NC_2) + Times(high.d5, NC_3) + high.d4,
      Times(high.d7, NC_2) + Times(high.d6, NC_3) + high.d5,
      Times(high.d7, NC_3) + high.d6,
      high.d7)
  }

  function FoldValue(q: FoldColumns): int {
    Above8(q.q0, q.q1, q.q2, q.q3, q.q4, q.q5, q.q6, q.q7, Eight(q.q8, q.q9, q.q10, q.q11, 0, 0, 0, 0))
  }

  /** One row: a word of the high part times NC. */
  function FoldRow(x: Word): Row {
    Row(Times(x, NC_0), Times(x, NC_1), Times(x, NC_2), Times(x, NC_3), x, 0, 0, 0)
  }

  lemma FoldRowValue(x: Word)
    ensures NC * x == RowValue(FoldRow(x))
  {
  }

  lemma AddLow(low: Scalar, ps: Columns, q: FoldColumns)
    requires q.q0 == low.d0 + ps.p0 && q.q1 == low.d1 + ps.p1 && q.q2 == low.d2 + ps.p2 && q.q3 == low.d3 + ps.p3
    requires q.q4 == low.d4 + ps.p4 && q.q5 == low.d5 + ps.p5 && q.q6 == low.d6 + ps.p6 && q.q7 == low.d7 + ps.p7
    requires q.q8 == ps.p8 && q.q9 == ps.p9 && q.q10 == ps.p10 && q.q11 == ps.p11
    requires ps.p12 == 0 && ps.p13 == 0 && ps.p14 == 0
    ensures FoldValue(q) == Value(low) + Weighted(ps)
  {
  }

  lemma FoldColumnsValue(low: Scalar, high: Scalar)
    ensures FoldValue(ColumnsOfFold(low, high)) == Value(low) + Value(high) * NC
  {
    FoldRowValue(high.d0); FoldRowValue(high.d1); FoldRowValue(high.d2); FoldRowValue(high.d3);
    FoldRowValue(high.d4); FoldRowValue(high.d5); FoldRowValue(high.d6); FoldRowValue(high.d7);
    ValueEight(high);
    hide Times, FoldValue, Value, Eight, RowValue, Weighted;
    var r0, r1, r2, r3 := FoldRow(high.d0), FoldRow(high.d1), FoldRow(high.d2), FoldRow(high.d3);
    var r4, r5, r6, r7 := FoldRow(high.d4), FoldRow(high.d5), FoldRow(high.d6), FoldRow(high.d7);
    Diagonals(r0, r1, r2, r3, r4, r5, r6, r7);
    var ps := DiagonalSums(r0, r1, r2, r3, r4, r5, r6, r7);
    AddLow(low, ps, ColumnsOfFold(low, high));
    Distribute8(NC, high.d0, high.d1, high.d2, high.d3, high.d4, high.d5, high.d6, high.d7);
    Commute8(NC, high.d0, high.d1, high.d2, high.d3, high.d4, high.d5, high.d6, high.d7);
  }

  method Fold0To2(low: Scalar, n: Scalar) returns (m0: Word, m1: Word, m2: Word, c: Acc)
    ensures Total(c) <= 5 * WORD
    ensures var q := ColumnsOfFold(low, n);
            m0 + WORD * (m1 + WORD * (m2 + WORD * Total(c)))
            == q.q0 + WORD * (q.q1 + WORD * q.q2)
  {
    hide Times, Total;
    SmallTotal(low.d0);
    c := Acc(low.d0, 0, 0);
    c := MulAddFast(c, n.d0, NC_0);
    m0, c := ExtractFast(c);
    c := SumAddFast(c, low.d1);
    c := MulAdd(c, n.d1, NC_0);
    c := MulAdd(c, n.d0, NC_1);
    m1, c := Extract(c);
    c := SumAdd(c, low.d2);
    c := MulAdd(c, n.d2, NC_0);
    c := MulAdd(c, n.d1, NC_1);
    c := MulAdd(c, n.d0, NC_2);
    m2, c := Extract(c);
  }

  method Fold3To4(low: Scalar, n: Scalar, acc: Acc) returns (m3: Word, m4: Word, c: Acc)
    requires Total(acc) <= 5 * WORD
    ensures Total(c) <= 5 * WORD
    ensures var q := ColumnsOfFold(low, n);
            m3 + WORD * (m4 + WORD * Total(c))
            == Total(acc) + q.q3 + WORD * q.q4
  {
    hide Times, Total;
    c := acc;
    c := SumAdd(c, low.d3);
    c := MulAdd(c, n.d3, NC_0);
    c := MulAdd(c, n.d2, NC_1);
    c := MulAdd(c, n.d1, NC_2);
    c := MulAdd(c, n.d0, NC_3);
    m3, c := Extract(c);
    c := SumAdd(c, low.d4);
    c := MulAdd(c, n.d4, NC_0);
    c := MulAdd(c, n.d3, NC_1);
    c := MulAdd(c, n.d2, NC_2);
    c := MulAdd(c, n.d1, NC_3);
    c := SumAdd(c, n.d0);
    m4, c := Extract(c);
  }

  method Fold5To6(low: Scalar, n: Scalar, acc: Acc) returns (m5: Word, m6: Word, c: Acc)
    requires Total(acc) <= 5 * WORD
    ensures Total(c) <= 5 * WORD
    ensures var q := ColumnsOfFold(low, n);
            m5 + WORD * (m6 + WORD * Total(c))
            == Total(acc) + q.q5 + WORD * q.q6
  {
    hide Times, Total;
    c := acc;
    c := SumAdd(c, low.d5);
    c := MulAdd(c, n.d5, NC_0);
    c := MulAdd(c, n.d4, NC_1);
    c := MulAdd(c, n.d3, NC_2);
    c := MulAdd(c, n.d2, NC_3);
    c := SumAdd(c, n.d1);
    m5, c := Extract(c);
    c := SumAdd(c, low.d6);
    c := MulAdd(c, n.d6, NC_0);
    c := MulAdd(c, n.d5, NC_1);
    c := MulAdd(c, n.d4, NC_2);
    c := MulAdd(c, n.d3, NC_3);
    c := SumAdd(c, n.d2);
    m6, c := Extract(c);
  }

  method Fold7To8(low: Scalar, n: Scalar, acc: Acc) returns (m7: Word, m8: Word, c: Acc)
    requires Total(acc) <= 5 * WORD
    ensures Total(c) <= 5 * WORD
    ensures var q := ColumnsOfFold(low, n);
            m7 + WORD * (m8 + WORD * Total(c))
            == Total(acc) + q.q7 + WORD * q.q8
  {
    hide Times, Total;
    c := acc;
    c := SumAdd(c, low.d7);
    c := MulAdd(c, n.d7, NC_0);
    c := MulAdd(c, n.d6, NC_1);
    c := MulAdd(c, n.d5, NC_2);
    c := MulAdd(c, n.d4, NC_3);
    c := SumAdd(c, n.d3);
    m7, c := Extract(c);
    c := MulAdd(c, n.d7, NC_1);
    c := MulAdd(c, n.d6, NC_2);
    c := MulAdd(c, n.d5, NC_3);
    c := SumAdd(c, n.d4);
    m8, c := Extract(c);
  }

  method Fold9To11(low: Scalar, n: Scalar, acc: Acc) returns (m9: Word, m10: Word, m11: Word, c: Acc)
    requires Total(acc) <= 5 * WORD
    ensures c.c1 == 0 && c.c2 == 0
    ensures var q := ColumnsOfFold(low, n);
            m9 + WORD * (m10 + WORD * (m11 + WORD * Total(c)))
            == Total(acc) + q.q9 + WORD * (q.q10 + WORD * q.q11)
  {
    hide Times, Total;
    c := acc;
    c := MulAdd(c, n.d7, NC_2);
    c := MulAdd(c, n.d6, NC_3);
    c := SumAdd(c, n.d5);
    m9, c := Extract(c);
    c := MulAdd(c, n.d7, NC_3);
    c := SumAdd(c, n.d6);
    m10, c := Extract(c);
    c := SumAddFast(c, n.d7);
    m11, c := ExtractFast(c);
  }

}
