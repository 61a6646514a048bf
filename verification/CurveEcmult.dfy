/** Strauss' method and the constant-time multiplication in coordinates (ecmult_impl.h,
ecmult_const_impl.h). The tables have one common z, which the additions pretend to be 1; the
result is multiplied by it once, at the end. */
module CurveEcmult {
  import opened Numbers
  import opened Groups
  import opened Field
  import opened Coordinates
  import opened Curve
  import opened CurveTables
  import opened CurveMultiples
  import opened Recoding
  import opened RecodingConst
  import opened OddTables
  import opened Wrappers
  import Strauss
  import EcmultConst

  // ---------- looking up affine points ----------

  lemma NegatedGe(c: Curve, b: Ge, p: Point, f: int)
    requires IsCurve(c) && RepresentsGe(c, b, p, f) && !b.infinity
    ensures RepresentsGe(c, b.(y := -b.y), c.group.neg(p), f)
  {
    PointFacts(c, p);
    hide IsCurve, Eq;
    var n, f2, f3 := c.group.neg(p), f * f, f * f * f;
    EqSymm(c.x(n), c.x(p));
    EqScale(c.x(p), c.x(n), f2);
    EqTrans(b.x, c.x(p) * f2, c.x(n) * f2);
    EqScale(b.y, c.y(p) * f3, -1);
    EqScale(c.y(n), -c.y(p), f3);
    EqSymm(c.y(n) * f3, -c.y(p) * f3);
    NegScaled(b.y, c.y(p), f3);
    EqTrans(-b.y, -c.y(p) * f3, c.y(n) * f3);
  }

  lemma NegScaled(b: int, y: int, f: int)
    ensures b * -1 == -b && y * f * -1 == -y * f
  {
  }

  /** A multiple of p that is not zero, over the common z f. */
  ghost predicate IsMultiple(c: Curve, b: Ge, n: int, p: Point, f: int) {
    RepresentsGe(c, b, Mul(c.group, n, p), f) && !b.infinity
  }

  lemma NegatedMultiple(c: Curve, b: Ge, n: int, p: Point, f: int)
    requires IsCurve(c) && IsMultiple(c, b, n, p, f)
    ensures IsMultiple(c, b.(y := -b.y), -n, p, f)
  {
    Facts(c);
    NegatedGe(c, b, Mul(c.group, n, p), f);
    MulNeg(c.group, n, p);
  }

  /** The entry of a table of odd multiples, all over the common z f. */
  lemma Entry(c: Curve, pre: seq<Ge>, np: nat, p: Point, f: int, k: nat)
    requires HasOrderN(c.group, p) && TableAt(c, pre, np, p, f) && k < 8
    ensures IsMultiple(c, pre[8 * np + k], 2 * k + 1, p, f)
  {
    SmallMultiple(c.group, 2 * k + 1, p);
    hide Mul, HasOrderN;
    assert pre[8 * np..8 * np + 8][k] == pre[8 * np + k];
  }

  /** `ECMULT_TABLE_GET_GE` on the table number np. */
  method TableGetGe(c: Curve, pre: array<Ge>, np: nat, n: int, ghost p: Point, ghost f: int) returns (r: Ge)
    requires IsCurve(c) && HasOrderN(c.group, p) && TableAt(c, pre[..], np, p, f)
    requires n % 2 == 1 && -16 < n < 16
    ensures IsMultiple(c, r, n, p, f)
  {
    assert 8 * np + 8 <= pre.Length;
    hide IsCurve, HasOrderN, IsMultiple, TableAt;
    if n > 0 {
      Entry(c, pre[..], np, p, f, (n - 1) / 2);
      r := pre[8 * np + (n - 1) / 2];
    } else {
      Entry(c, pre[..], np, p, f, (-n - 1) / 2);
      r := pre[8 * np + (-n - 1) / 2];
      NegatedMultiple(c, r, -n, p, f);
      r := r.(y := -r.y);
    }
  }

  /** `ECMULT_CONST_TABLE_GET_GE`, which reads every entry of the table. */
  method TableGetGeConst(c: Curve, pre: array<Ge>, n: int, ghost p: Point, ghost f: int) returns (r: Ge)
    requires IsCurve(c) && HasOrderN(c.group, p) && pre.Length == 8 && TableAt(c, pre[..], 0, p, f)
    requires n % 2 == 1 && -16 < n < 16
    ensures IsMultiple(c, r, n, p, f)
  {
    hide IsCurve, HasOrderN, IsMultiple;
    var abs := n * ((if n > 0 then 1 else 0) * 2 - 1);
    assert abs == if n > 0 then n else -n;
    var index := abs / 2;
    Entry(c, pre[..], 0, p, f, index);
    NotInfiniteMultiple(c, pre[index], abs, p, f);
    r := Ge(0, 0, false);
    for m := 0 to 8
      invariant index < m ==> r.x == pre[index].x && r.y == pre[index].y
    {
      if m == index { r := Ge(pre[m].x, pre[m].y, r.infinity); }
    }
    r := r.(infinity := false);
    var negY := -r.y;
    if n != abs {
      NegatedMultiple(c, r, abs, p, f);
      r := r.(y := negY);
    }
  }

  lemma NotInfiniteMultiple(c: Curve, b: Ge, n: int, p: Point, f: int)
    requires IsMultiple(c, b, n, p, f)
    ensures !b.infinity
  {
  }

  /** The affine odd multiples of the generator. */
  ghost predicate IsGeneratorTable(c: Curve, pre: seq<Storage>, generator: Point) {
    forall k :: 0 <= k < |pre| ==> IsStored(c, pre[k], Mul(c.group, 2 * k + 1, generator))
  }

  lemma StoredMultiple(c: Curve, s: Storage, n: int, p: Point)
    requires IsStored(c, s, Mul(c.group, n, p))
    ensures IsMultiple(c, Ge(s.x, s.y, false), n, p, 1)
  {
    var q := Mul(c.group, n, p);
    assert c.x(q) * (1 * 1) == c.x(q) && c.y(q) * (1 * 1 * 1) == c.y(q);
  }

  /** `ECMULT_TABLE_GET_GE_STORAGE` for the window of the generator. */
  method TableGetGeStorage(c: Curve, pre: array<Storage>, n: int, ghost generator: Point) returns (r: Ge)
    requires IsCurve(c) && pre.Length == TableSize(Strauss.WINDOW_G) && IsGeneratorTable(c, pre[..], generator)
    requires n % 2 == 1 && -Pow2(Strauss.WINDOW_G - 1) < n < Pow2(Strauss.WINDOW_G - 1)
    ensures IsMultiple(c, r, n, generator, 1)
  {
    hide IsCurve, IsStored, IsMultiple, Pow2, Mul;
    DigitIndex(n, Strauss.WINDOW_G);
    var k := if n > 0 then (n - 1) / 2 else (-n - 1) / 2;
    var entry := pre[k];
    assert IsStored(c, pre[..][k], Mul(c.group, 2 * k + 1, generator));
    StoredMultiple(c, entry, 2 * k + 1, generator);
    r := Ge(entry.x, entry.y, false);
    if n < 0 {
      NegatedMultiple(c, r, -n, generator, 1);
      r := r.(y := -r.y);
    }
  }

  // ---------- Strauss' method ----------

  /** Adds digit i of one point, from its table over the common z f. */
  method AddDigit(c: Curve, r0: Gej, pre: array<Ge>, np: nat, digits: seq<int>, bits: nat, i: nat,
                  ghost na: nat, ghost p: Point, ghost f: int, ghost sum: Point)
    returns (r: Gej)
    requires IsCurve(c) && HasOrderN(c.group, p) && Strauss.Recodes(digits, bits, na, Strauss.WINDOW_A) && i < 256
    requires TableAt(c, pre[..], np, p, f) && Represents(c, r0, sum, f) && !IsZero(f)
    ensures Represents(c, r, c.group.add(sum, Mul(c.group, digits[i], p)), f)
  {
    Strauss.DigitFacts(digits, bits, na, Strauss.WINDOW_A, i);
    Pow2Small();
    Facts(c);
    hide IsCurve, IsAbelian, HasOrderN, Represents, RepresentsGe, TableAt, IsZero, Strauss.Recodes, Pow2;
    r := r0;
    if i < bits {
      var n := digits[i];
      if n != 0 {
        var tmp := TableGetGe(c, pre, np, n, p, f);
        var ratio;
        r, ratio := GejAddGeVar(c, r, tmp, sum, Mul(c.group, n, p), f);
        return;
      }
    }
    Unit(c.group, sum);
  }

  /** Adds digit i of the generator, whose affine table is moved to the common z f. */
  method AddGeneratorDigit(c: Curve, r0: Gej, pre: array<Storage>, digits: seq<int>, bits: nat, i: nat, f: int,
                           ghost ng: nat, ghost generator: Point, ghost sum: Point)
    returns (r: Gej)
    requires IsCurve(c) && Strauss.Recodes(digits, bits, ng, Strauss.WINDOW_G) && i < 256
    requires pre.Length == TableSize(Strauss.WINDOW_G) && IsGeneratorTable(c, pre[..], generator)
    requires Represents(c, r0, sum, f) && !IsZero(f)
    ensures Represents(c, r, c.group.add(sum, Mul(c.group, digits[i], generator)), f)
  {
    Strauss.DigitFacts(digits, bits, ng, Strauss.WINDOW_G, i);
    Facts(c);
    hide IsCurve, IsAbelian, IsGeneratorTable, Represents, RepresentsGe, IsZero, Strauss.Recodes, Pow2;
    r := r0;
    if i < bits {
      var n := digits[i];
      if n != 0 {
        var tmp := TableGetGeStorage(c, pre, n, generator);
        Relocated(c, tmp, Mul(c.group, n, generator), f);
        r := GejAddZinvVar(c, r, tmp, f, sum, Mul(c.group, n, generator), f);
        return;
      }
    }
    Unit(c.group, sum);
  }

  /** An affine point, scaled to f. */
  lemma Relocated(c: Curve, b: Ge, q: Point, f: int)
    requires RepresentsGe(c, b, q, 1) && !b.infinity
    ensures Finite(c, q) && Scaled(b.x * (f * f), b.y * (f * f * f), f, c.x(q), c.y(q))
  {
    ScaleUp(b.x, b.y, 1, f, c.x(q), c.y(q));
    assert b.y * (f * f) * f == b.y * (f * f * f) && f * 1 == f;
  }

  /** Adds the digits i of all points. */
  method AddColumn(c: Curve, r0: Gej, preA: array<Ge>, ps: array<Strauss.PointState>, no: nat, i: nat, ghost bits: nat,
                   ghost na: seq<nat>, ghost a: seq<Point>, ghost f: int, ghost sum: Point)
    returns (r: Gej)
    requires IsCurve(c) && no <= ps.Length && i < 256 && Strauss.Recoded(ps[..no], na, a, c.group, bits)
    requires forall k :: 0 <= k < no ==> ps[..no][k].inputPos < |a| && |ps[..no][k].wnafNa| == 256
    requires forall k :: 0 <= k < no ==> HasOrderN(c.group, Strauss.Points(ps[..no], a)[k])
    requires forall k :: 0 <= k < no ==> TableAt(c, preA[..], k, Strauss.Points(ps[..no], a)[k], f)
    requires Represents(c, r0, sum, f) && !IsZero(f)
    ensures Represents(c, r,
      c.group.add(sum, Lin(c.group, Strauss.Column(Strauss.Rows(ps[..no]), i), Strauss.Points(ps[..no], a))), f)
  {
    Facts(c);
    hide IsCurve, IsAbelian, HasOrderN, Represents, TableAt, IsZero, Lin, Mul, Strauss.Column, Strauss.Recodes;
    r := r0;
    ghost var g, states := c.group, ps[..no];
    assert Strauss.Column(Strauss.Rows(states[..0]), i) == [] by { Strauss.ColumnEmpty(i); }
    assert Strauss.Points(states[..0], a) == [];
    LinEmpty(g);
    Unit(g, sum);
    for np := 0 to no
      invariant Represents(c, r,
        g.add(sum, Lin(g, Strauss.Column(Strauss.Rows(states[..np]), i), Strauss.Points(states[..np], a))), f)
    {
      var state := ps[np];
      assert state == states[np] && Strauss.RecodedAt(state, na, a, g, bits);
      assert Strauss.Points(states, a)[np] == a[state.inputPos];
      ghost var partial := Lin(g, Strauss.Column(Strauss.Rows(states[..np]), i), Strauss.Points(states[..np], a));
      r := AddDigit(c, r, preA, np, state.wnafNa, state.bitsNa, i, na[state.inputPos], a[state.inputPos], f,
                    g.add(sum, partial));
      Strauss.ColumnSnoc(g, states, np, a, i);
      Assoc(g, sum, partial, Mul(g, state.wnafNa[i], a[state.inputPos]));
    }
    assert states[..no] == states;
  }

  /** Every point of the curve group that is not zero has the order of the group. */
  ghost predicate OfOrder(c: Curve, p: Point) {
    Finite(c, p) ==> HasOrderN(c.group, p)
  }

  lemma OrderKills(c: Curve, p: Point)
    requires IsCurve(c) && OfOrder(c, p)
    ensures Mul(c.group, N, p) == c.group.zero
  {
    Facts(c);
    if Finite(c, p) {
      OrderVanishes(c.group, p);
    } else {
      MulZeroPoint(c.group, N);
    }
  }

  /** The inputs: scalars below the order, and coordinates of points of the curve. */
  ghost predicate AreTerms(c: Curve, na: seq<nat>, a: seq<Gej>, qs: seq<Point>) {
    && |na| == |a| == |qs|
    && forall k :: 0 <= k < |na| ==> na[k] < N && Represents(c, a[k], qs[k], 1) && OfOrder(c, qs[k])
  }

  lemma TermFacts(c: Curve, na: seq<nat>, a: seq<Gej>, qs: seq<Point>)
    requires IsCurve(c) && AreTerms(c, na, a, qs)
    ensures forall k :: 0 <= k < |na| ==>
      na[k] < N && Mul(c.group, N, qs[k]) == c.group.zero && (a[k].infinity <==> qs[k] == c.group.zero)
  {
    hide IsCurve, Mul, OfOrder, Eq, IsZero;
    forall k | 0 <= k < |na|
      ensures na[k] < N && Mul(c.group, N, qs[k]) == c.group.zero && (a[k].infinity <==> qs[k] == c.group.zero)
    {
      OrderKills(c, qs[k]);
    }
  }

  /** The kept points are finite, hence of full order. */
  lemma KeptPoints(c: Curve, ps: seq<Strauss.PointState>, na: seq<nat>, a: seq<Gej>, qs: seq<Point>, bits: nat)
    requires AreTerms(c, na, a, qs) && Strauss.Recoded(ps, na, qs, c.group, bits)
    requires forall k :: 0 <= k < |ps| ==> ps[k].inputPos < |qs|
    ensures forall k :: 0 <= k < |ps| ==> HasOrderN(c.group, Strauss.Points(ps, qs)[k])
    ensures forall k :: 0 <= k < |ps| ==>
      Represents(c, a[ps[k].inputPos], Strauss.Points(ps, qs)[k], 1) && !a[ps[k].inputPos].infinity
  {
    hide HasOrderN, Eq, IsZero;
    Strauss.RecodedBounds(ps, na, qs, c.group, bits);
    forall k | 0 <= k < |ps|
      ensures HasOrderN(c.group, Strauss.Points(ps, qs)[k])
      ensures Represents(c, a[ps[k].inputPos], Strauss.Points(ps, qs)[k], 1) && !a[ps[k].inputPos].infinity
    {
      var j := ps[k].inputPos;
      assert OfOrder(c, qs[j]) && Represents(c, a[j], qs[j], 1);
    }
  }

  /** Multiplying z by the common factor takes it out of the representation. */
  lemma FactorMoved(c: Curve, r: Gej, p: Point, f: int)
    requires Represents(c, r, p, f)
    ensures r.infinity ==> Represents(c, r, p, 1)
    ensures Represents(c, r.(z := r.z * f), p, 1)
  {
    assert r.z * f * 1 == r.z * f;
  }

  /** Which points the recodings belong to. */
  ghost predicate Indexed(ps: seq<Strauss.PointState>, qs: seq<Point>) {
    forall k :: 0 <= k < |ps| ==> ps[k].inputPos < |qs| && |ps[k].wnafNa| == 256
  }

  /** The kept scalars are recoded, and their points have tables over the common z f. */
  ghost predicate Prepared(c: Curve, ps: seq<Strauss.PointState>, pre: seq<Ge>, f: int, na: seq<nat>, qs: seq<Point>,
                           bits: nat)
  {
    && !IsZero(f) && Strauss.Recoded(ps, na, qs, c.group, bits) && Indexed(ps, qs)
    && (forall k :: 0 <= k < |ps| ==> HasOrderN(c.group, Strauss.Points(ps, qs)[k]))
    && (forall k :: 0 <= k < |ps| ==> TableAt(c, pre, k, Strauss.Points(ps, qs)[k], f))
  }

  /** Recodes the scalars that contribute and builds the tables of their points. */
  method Prepare(c: Curve, preA: array<Ge>, ps: array<Strauss.PointState>, na: seq<nat>, a: seq<Gej>, ghost qs: seq<Point>)
    returns (no: nat, bits: nat, globalz: int)
    requires IsCurve(c) && AreTerms(c, na, a, qs)
    requires |na| <= ps.Length && 8 * |na| <= preA.Length && preA as object != ps as object
    modifies preA, ps
    ensures no <= ps.Length && bits <= 256 && Indexed(ps[..no], qs)
    ensures Prepared(c, ps[..no], preA[..], globalz, na, qs, bits)
    ensures Lin(c.group, na, qs) == Lin(c.group, Strauss.Values(ps[..no]), Strauss.Points(ps[..no], qs))
  {
    Facts(c);
    TermFacts(c, na, a, qs);
    hide IsCurve, IsAbelian, OfOrder, Represents, IsZero, Lin, Mul, Prepared,
      Strauss.Recoded, Strauss.Points, Strauss.Values;
    no, bits := Strauss.RecodeAll(c.group, ps, na, seq(|a|, k requires 0 <= k < |a| => a[k].infinity), qs);
    var states := ps[..no];
    Strauss.RecodedBounds(states, na, qs, c.group, bits);
    globalz := Tables(c, preA, states, na, a, qs, bits);
    assert ps[..no] == states;
  }

  /** The tables of the points that were kept. */
  method Tables(c: Curve, preA: array<Ge>, ps: seq<Strauss.PointState>, ghost na: seq<nat>, a: seq<Gej>,
                ghost qs: seq<Point>, ghost bits: nat)
    returns (globalz: int)
    requires IsCurve(c) && AreTerms(c, na, a, qs) && Strauss.Recoded(ps, na, qs, c.group, bits)
    requires Indexed(ps, qs) && 8 * |ps| <= preA.Length
    modifies preA
    ensures Prepared(c, ps, preA[..], globalz, na, qs, bits)
  {
    KeptPoints(c, ps, na, a, qs, bits);
    hide IsCurve, OfOrder, HasOrderN, Represents, TableAt, IsZero, Strauss.Recoded, Strauss.Points;
    var kept := seq(|ps|, k requires 0 <= k < |ps| => a[ps[k].inputPos]);
    globalz := StraussTables(c, preA, kept, Strauss.Points(ps, qs));
  }

  /** What the digits from position i on add up to. */
  ghost function Remaining(c: Curve, ps: seq<Strauss.PointState>, digitsG: seq<int>, qs: seq<Point>, generator: Point,
                           i: nat): Point
    requires i <= 256 == |digitsG| && Indexed(ps, qs)
  {
    Lin(c.group, Strauss.Tails(Strauss.Rows(ps) + [digitsG], i), Strauss.Points(ps, qs) + [generator])
  }

  /** Above all recodings nothing remains, and from the lowest position on everything. */
  lemma RemainingEnds(c: Curve, ps: seq<Strauss.PointState>, pre: seq<Ge>, f: int, na: seq<nat>, qs: seq<Point>, bitsA: nat,
                      digitsG: seq<int>, bitsG: nat, bits: nat, ng: nat, generator: Point)
    requires IsCurve(c) && OfOrder(c, generator) && Prepared(c, ps, pre, f, na, qs, bitsA)
    requires Strauss.Recodes(digitsG, bitsG, ng, Strauss.WINDOW_G) && bitsA <= bits && bitsG <= bits <= 256
    requires |na| == |qs|
    requires Lin(c.group, na, qs) == Lin(c.group, Strauss.Values(ps), Strauss.Points(ps, qs))
    ensures |digitsG| == 256 && Remaining(c, ps, digitsG, qs, generator, bits) == c.group.zero
    ensures Remaining(c, ps, digitsG, qs, generator, 0)
            == c.group.add(Lin(c.group, na, qs), Mul(c.group, ng, generator))
  {
    Facts(c);
    OrderKills(c, generator);
    Strauss.RecodesFacts(digitsG, bitsG, bits, ng, Strauss.WINDOW_G);
    hide IsCurve, IsAbelian, HasOrderN, TableAt, IsZero, Lin, Mul, Value, Strauss.Recodes, Strauss.Blank, Strauss.Tails,
      Strauss.Points, Strauss.Values;
    Strauss.RowLengths(ps, digitsG);
    Strauss.AllBlank(ps, digitsG, na, qs, c.group, bitsA, bits);
    Strauss.TailsEnd(c.group, Strauss.Rows(ps) + [digitsG], Strauss.Points(ps, qs) + [generator], bits);
    Strauss.WholeRows(c.group, ps, digitsG, qs, generator);
    Strauss.SignedMultiple(c.group, ng, generator);
  }

  /** One position down: doubles, and adds the digits of all points and of the generator. */
  method StraussStep(c: Curve, r0: Gej, preG: array<Storage>, preA: array<Ge>, ps: array<Strauss.PointState>, no: nat,
                     i: nat, digitsG: seq<int>, bitsG: nat, f: int,
                     ghost bits: nat, ghost na: seq<nat>, ghost qs: seq<Point>, ghost ng: nat, ghost generator: Point)
    returns (r: Gej)
    requires IsCurve(c) && no <= ps.Length && i < 256 && Indexed(ps[..no], qs)
    requires Prepared(c, ps[..no], preA[..], f, na, qs, bits)
    requires Strauss.Recodes(digitsG, bitsG, ng, Strauss.WINDOW_G) && |digitsG| == 256
    requires preG.Length == TableSize(Strauss.WINDOW_G) && IsGeneratorTable(c, preG[..], generator)
    requires Represents(c, r0, Remaining(c, ps[..no], digitsG, qs, generator, i + 1), f)
    ensures Represents(c, r, Remaining(c, ps[..no], digitsG, qs, generator, i), f)
  {
    Facts(c);
    hide IsCurve, IsAbelian, HasOrderN, Represents, TableAt, IsGeneratorTable, IsZero, Lin, Mul,
      Strauss.Column, Strauss.Tails, Strauss.Recoded, Strauss.Recodes, Strauss.Points;
    ghost var g, states := c.group, ps[..no];
    Strauss.RowLengths(states, digitsG);
    Strauss.TailsStep(g, Strauss.Rows(states) + [digitsG], Strauss.Points(states, qs) + [generator], i);
    Strauss.AppendRow(g, states, digitsG, qs, generator, i);
    ghost var above := Remaining(c, states, digitsG, qs, generator, i + 1);
    ghost var doubled := g.add(above, above);
    ghost var column := Lin(g, Strauss.Column(Strauss.Rows(states), i), Strauss.Points(states, qs));
    var ratio;
    r, ratio := GejDoubleVar(c, r0, above, f);
    r := AddColumn(c, r, preA, ps, no, i, bits, na, qs, f, doubled);
    r := AddGeneratorDigit(c, r, preG, digitsG, bitsG, i, f, ng, generator, g.add(doubled, column));
    Assoc(g, doubled, column, Mul(g, digitsG[i], generator));
  }

  /** The main loop, over the common z f. */
  method StraussLoop(c: Curve, preG: array<Storage>, preA: array<Ge>, ps: array<Strauss.PointState>, no: nat,
                     bits: nat, digitsG: seq<int>, bitsG: nat, f: int,
                     ghost bitsA: nat, ghost na: seq<nat>, ghost qs: seq<Point>, ghost ng: nat, ghost generator: Point)
    returns (r: Gej)
    requires IsCurve(c) && no <= ps.Length && bits <= 256 && Indexed(ps[..no], qs)
    requires Prepared(c, ps[..no], preA[..], f, na, qs, bitsA)
    requires Strauss.Recodes(digitsG, bitsG, ng, Strauss.WINDOW_G) && |digitsG| == 256
    requires preG.Length == TableSize(Strauss.WINDOW_G) && IsGeneratorTable(c, preG[..], generator)
    requires Remaining(c, ps[..no], digitsG, qs, generator, bits) == c.group.zero
    ensures Represents(c, r, Remaining(c, ps[..no], digitsG, qs, generator, 0), f)
  {
    hide IsCurve, Represents, Prepared, Indexed, IsGeneratorTable, Remaining, Strauss.Recodes, Pow2;
    r := Gej(0, 0, 0, true);
    InfinityZero(c, r, f);
    var i := bits;
    while i > 0
      invariant 0 <= i <= bits
      invariant Represents(c, r, Remaining(c, ps[..no], digitsG, qs, generator, i), f)
    {
      i := i - 1;
      r := StraussStep(c, r, preG, preA, ps, no, i, digitsG, bitsG, f, bitsA, na, qs, ng, generator);
    }
  }

  /** `secp256k1_ecmult_strauss_wnaf` in coordinates: na[0] * a[0] + na[1] * a[1] + ... + ng * G. */
  method StraussWnaf(c: Curve, preG: array<Storage>, preA: array<Ge>, ps: array<Strauss.PointState>,
                     na: seq<nat>, a: seq<Gej>, ng: Option<nat>, ghost qs: seq<Point>, ghost generator: Point)
    returns (r: Gej)
    requires IsCurve(c) && OfOrder(c, generator) && AreTerms(c, na, a, qs) && Strauss.ScalarOf(ng) < N
    requires preG.Length == TableSize(Strauss.WINDOW_G) && IsGeneratorTable(c, preG[..], generator)
    requires |na| <= ps.Length && 8 * |na| <= preA.Length
    requires preA as object != preG as object && preA as object != ps as object && preG as object != ps as object
    modifies preA, ps
    ensures Represents(c, r,
      c.group.add(Lin(c.group, na, qs), Mul(c.group, Strauss.ScalarOf(ng), generator)), 1)
  {
    assert |na| == |qs|;
    hide IsCurve, OfOrder, AreTerms, Represents, Prepared, Indexed, IsGeneratorTable, Lin, Mul, Remaining,
      Strauss.Recodes, Strauss.Values, Strauss.Points, Pow2;
    var no, bitsA, globalz := Prepare(c, preA, ps, na, a, qs);
    ghost var states, tables := ps[..no], preA[..];
    var digitsG, bitsG := Strauss.RecodeGenerator(ng);
    Strauss.RecodesFacts(digitsG, bitsG, bitsG, Strauss.ScalarOf(ng), Strauss.WINDOW_G);
    var bits := if bitsG > bitsA then bitsG else bitsA;
    RemainingEnds(c, states, tables, globalz, na, qs, bitsA, digitsG, bitsG, bits, Strauss.ScalarOf(ng), generator);
    r := StraussLoop(c, preG, preA, ps, no, bits, digitsG, bitsG, globalz, bitsA, na, qs, Strauss.ScalarOf(ng), generator);
    FactorMoved(c, r, Remaining(c, states, digitsG, qs, generator, 0), globalz);
    if !r.infinity {
      r := r.(z := r.z * globalz);
    }
  }

  lemma InfinityZero(c: Curve, r: Gej, f: int)
    requires r.infinity
    ensures Represents(c, r, c.group.zero, f)
  {
  }

  // ---------- constant-time multiplication ----------

  lemma AffineIsJacobian(c: Curve, b: Ge, p: Point, f: int)
    requires RepresentsGe(c, b, p, f) && !IsZero(f)
    ensures Represents(c, Gej(b.x, b.y, 1, b.infinity), p, f)
  {
    assert 1 * f == f;
  }

  /** WINDOW_A - 1 doublings by `secp256k1_gej_double_nonzero`, which must not see infinity. */
  method DoubleTimes(c: Curve, r0: Gej, ghost p: Point, ghost v: int, ghost sign: int, ghost f: int) returns (r: Gej)
    requires IsCurve(c) && HasOrderN(c.group, p) && Represents(c, r0, Mul(c.group, v, p), f)
    requires (sign == 1 || sign == -1) && 0 < sign * v && sign * v * 16 <= N / 2 + 1 + 16
    ensures Represents(c, r, Mul(c.group, 16 * v, p), f)
  {
    Facts(c);
    hide IsCurve, IsAbelian, HasOrderN, Represents, Mul;
    r := r0;
    ghost var m := v;
    var j := 0;
    while j < EcmultConst.WINDOW_A - 1
      invariant 0 <= j <= EcmultConst.WINDOW_A - 1
      invariant m == [1, 2, 4, 8, 16][j] * v && Represents(c, r, Mul(c.group, m, p), f)
    {
      SmallMultiple(c.group, m, p);
      FiniteNotInfinite(c, r, Mul(c.group, m, p), f);
      MulAdd(c.group, m, m, p);
      r := DoubleNonzero(c, r, Mul(c.group, m, p), f);
      m := m + m;
      j := j + 1;
    }
  }

  lemma FiniteNotInfinite(c: Curve, r: Gej, p: Point, f: int)
    requires Represents(c, r, p, f) && p != c.group.zero
    ensures !r.infinity
  {
  }

  method DoubleNonzero(c: Curve, a: Gej, ghost p: Point, ghost f: int) returns (r: Gej)
    requires IsCurve(c) && Represents(c, a, p, f) && !a.infinity
    ensures Represents(c, r, c.group.add(p, p), f)
  {
    var ratio;
    r, ratio := GejDoubleVar(c, a, p, f);
  }

  /** 2a as an affine point: doubled and inverted back. */
  method AffineDouble(c: Curve, a: Ge, ghost p: Point) returns (r: Ge)
    requires IsCurve(c) && HasOrderN(c.group, p) && RepresentsGe(c, a, p, 1) && !a.infinity
    ensures IsMultiple(c, r, 2, p, 1)
  {
    Facts(c);
    OneIsNonzero();
    AffineIsJacobian(c, a, p, 1);
    DoubleIsTwo(c, p);
    SmallMultiple(c.group, 2, p);
    hide IsCurve, IsAbelian, HasOrderN, IsInverse, IsZero, Eq, Mul;
    var d, ratio := GejDoubleVar(c, Gej(a.x, a.y, 1, a.infinity), p, 1);
    FiniteZ(c, d, c.group.add(p, p));
    var zi := c.inv(d.z);
    Inverts(c.inv, d.z);
    assert d.z * 1 * zi == d.z * zi;
    ZinvAffine(c, d, zi, c.group.add(p, p), 1);
    r := GeSetGejZinv(d, zi);
    AffineStored(c, r, Mul(c.group, 2, p));
    StoredMultiple(c, Storage(r.x, r.y), 2, p);
  }

  /** The skew is taken out again: one or two times the point. */
  method Correct(c: Curve, r0: Gej, a: Ge, q: nat, skew: nat, ghost p: Point) returns (r: Gej)
    requires IsCurve(c) && HasOrderN(c.group, p) && RepresentsGe(c, a, p, 1) && !a.infinity
    requires q < N && 1 <= skew <= 2
    requires Represents(c, r0, Mul(c.group, q + skew - (if IsHigh(q) then N else 0), p), 1)
    ensures Represents(c, r, Mul(c.group, q, p), 1)
  {
    Facts(c);
    OneIsNonzero();
    EcmultConst.Correction(c.group, p, q, skew);
    DoubleIsTwo(c, p);
    hide IsCurve, IsAbelian, HasOrderN, Represents, RepresentsGe, IsZero, Mul;
    var correction := a;
    var twice := AffineDouble(c, a, p);
    if skew == 2 { correction := twice; }
    NegatedMultiple(c, correction, skew, p, 1);
    assert 0 - skew == -(skew as int);
    correction := correction.(y := -correction.y);
    MulNeg(c.group, skew, p);
    r := GejAddGe(c, r0, correction, Mul(c.group, q + skew - (if IsHigh(q) then N else 0), p),
                  Mul(c.group, 0 - skew, p), 1);
  }

  /** One digit down: four doublings, and the digit times the point. */
  method ConstStep(c: Curve, r0: Gej, pre: array<Ge>, n: int, ghost ds: seq<int>, ghost i: nat, ghost sign: int,
                   ghost p: Point, ghost f: int)
    returns (r: Gej)
    requires IsCurve(c) && HasOrderN(c.group, p) && pre.Length == 8 && TableAt(c, pre[..], 0, p, f) && !IsZero(f)
    requires i + 1 < |ds| && AreOddDigits(ds, 4) && n == ds[i]
    requires (sign == 1 || sign == -1) && EcmultConst.Partial(Value(ds, 4), sign)
    requires Represents(c, r0, Mul(c.group, Value(ds[i + 1..], 4), p), f)
    ensures Represents(c, r, Mul(c.group, Value(ds[i..], 4), p), f)
  {
    Facts(c);
    hide IsCurve, IsAbelian, HasOrderN, Represents, TableAt, IsZero, Value, AreOddDigits, EcmultConst.Partial, Mul;
    EcmultConst.TailsPartial(ds, i + 1, sign, 4);
    EcmultConst.DigitOf(ds, i, 4);
    EcmultConst.HornerStep(c.group, ds, i, p, 4);
    Pow2Small();
    hide Pow2;
    r := DoubleTimes(c, r0, p, Value(ds[i + 1..], 4), sign, f);
    var tmp := TableGetGeConst(c, pre, n, p, f);
    r := GejAddGe(c, r, tmp, Mul(c.group, 16 * Value(ds[i + 1..], 4), p), Mul(c.group, n, p), f);
  }

  /** The digits of a scalar with the sign that all their partial sums have. */
  method RecodeConst(q: nat, size: nat) returns (wnaf: array<int>, skew: nat, ghost sign: int)
    requires q < N && 0 < size <= WNAF_BITS && EcmultConst.Magnitude(q) < Pow2(size - 1)
    ensures fresh(wnaf) && wnaf.Length > 0 && AreOddDigits(wnaf[..], 4) && 1 <= skew <= 2
    ensures Value(wnaf[..], 4) == q + skew - (if IsHigh(q) then N else 0)
    ensures (sign == 1 || sign == -1) && EcmultConst.Partial(Value(wnaf[..], 4), sign)
  {
    hide Value, SizeBits, Pow2, AreOddDigits, EcmultConst.Partial, EcmultConst.Magnitude, IsHigh, Adjusted, SkewBit;
    EcmultConst.MagnitudeFits(q, size, 4);
    wnaf := new int[SizeBits(size, 4) + 1];
    ghost var rest;
    skew, rest := WnafConst(wnaf, q, 4, size);
    EcmultConst.WholePartial(q, Value(wnaf[..], 4));
    sign :| (sign == 1 || sign == -1) && EcmultConst.Partial(Value(wnaf[..], 4), sign);
  }

  /** The digits from the highest to the lowest, all over the common z f. */
  method ConstLoop(c: Curve, pre: array<Ge>, wnaf: array<int>, ghost sign: int, ghost p: Point, ghost f: int)
    returns (r: Gej)
    requires IsCurve(c) && HasOrderN(c.group, p) && pre.Length == 8 && TableAt(c, pre[..], 0, p, f) && !IsZero(f)
    requires wnaf.Length > 0 && AreOddDigits(wnaf[..], 4)
    requires (sign == 1 || sign == -1) && EcmultConst.Partial(Value(wnaf[..], 4), sign)
    ensures Represents(c, r, Mul(c.group, Value(wnaf[..], 4), p), f)
  {
    hide IsCurve, HasOrderN, Represents, TableAt, IsZero, Value, AreOddDigits, EcmultConst.Partial, Mul;
    ghost var ds := wnaf[..];
    var i := wnaf.Length - 1;
    EcmultConst.DigitOf(ds, i, 4);
    EcmultConst.LastValue(ds, i, 4);
    Pow2Small();
    var tmp := TableGetGeConst(c, pre, wnaf[i], p, f);
    AffineIsJacobian(c, tmp, Mul(c.group, ds[i], p), f);
    r := Gej(tmp.x, tmp.y, 1, tmp.infinity);
    while i > 0
      invariant 0 <= i < wnaf.Length && Represents(c, r, Mul(c.group, Value(ds[i..], 4), p), f)
    {
      i := i - 1;
      r := ConstStep(c, r, pre, wnaf[i], ds, i, sign, p, f);
    }
    assert ds[0..] == ds;
  }

  /** `secp256k1_ecmult_const` in coordinates: q * a for every scalar q of the given size. */
  method EcmultConstGej(c: Curve, a: Ge, q: nat, size: nat, ghost p: Point) returns (r: Gej)
    requires IsCurve(c) && HasOrderN(c.group, p) && RepresentsGe(c, a, p, 1) && !a.infinity
    requires q < N && 0 < size <= WNAF_BITS && EcmultConst.Magnitude(q) < Pow2(size - 1)
    ensures Represents(c, r, Mul(c.group, q, p), 1)
  {
    OneIsNonzero();
    AffineIsJacobian(c, a, p, 1);
    hide IsCurve, HasOrderN, Represents, RepresentsGe, TableAt, IsZero, Value, SizeBits, Pow2, AreOddDigits,
      EcmultConst.Partial, EcmultConst.Magnitude, IsHigh, Adjusted, SkewBit, Mul;
    var wnaf, skew, sign := RecodeConst(q, size);
    var pre := new Ge[8](_ => Ge(0, 0, true));
    var globalz := OddMultiplesGlobalz(c, pre, 8, Gej(a.x, a.y, 1, a.infinity), p);
    WholeTable(c, pre[..], p, globalz);
    r := ConstLoop(c, pre, wnaf, sign, p, globalz);
    FactorMoved(c, r, Mul(c.group, Value(wnaf[..], 4), p), globalz);
    r := r.(z := r.z * globalz);
    r := Correct(c, r, a, q, skew, p);
  }

  lemma WholeTable(c: Curve, pre: seq<Ge>, p: Point, f: int)
    requires |pre| == 8 && forall k :: 0 <= k < 8 ==> RepresentsGe(c, pre[k], Mul(c.group, 2 * k + 1, p), f)
    ensures TableAt(c, pre, 0, p, f)
  {
    hide RepresentsGe, Mul;
    assert pre[8 * 0..8 * 0 + 8] == pre;
  }
}
