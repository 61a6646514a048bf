/** Strauss' interleaved multiplication (`secp256k1_ecmult_strauss_wnaf` of ecmult_impl.h). */
module Strauss {
  import opened Groups
  import opened Numbers
  import opened Recoding
  import opened OddTables
  import opened Wrappers

  const WINDOW_A: nat := 5
  const WINDOW_G: nat := 16

  /** `struct secp256k1_strauss_point_state`; the digits are an array inside the structure. */
  datatype PointState = PointState(wnafNa: seq<int>, bitsNa: nat, inputPos: nat)

  // ---------- interleaved digits ----------

  /** What the digits from position i on stand for, row by row. */
  function Tails(rows: seq<seq<int>>, i: nat): (r: seq<int>)
    requires forall k :: 0 <= k < |rows| ==> i <= |rows[k]|
    ensures |r| == |rows|
  {
    seq(|rows|, k requires 0 <= k < |rows| => Value(rows[k][i..], 1))
  }

  function Column(rows: seq<seq<int>>, i: nat): (r: seq<int>)
    requires forall k :: 0 <= k < |rows| ==> i < |rows[k]|
    ensures |r| == |rows|
  {
    seq(|rows|, k requires 0 <= k < |rows| => rows[k][i])
  }

  /** One position down: double and add the column. */
  lemma TailsStep(g: Group, rows: seq<seq<int>>, qs: seq<Point>, i: nat)
    requires IsAbelian(g) && |qs| == |rows| && forall k :: 0 <= k < |rows| ==> i < |rows[k]|
    ensures var above := Lin(g, Tails(rows, i + 1), qs);
            Lin(g, Tails(rows, i), qs) == g.add(g.add(above, above), Lin(g, Column(rows, i), qs))
  {
    hide IsAbelian, Lin, Mul, Value;
    var above := Tails(rows, i + 1);
    LinScale(g, 2, above, qs);
    MulOne(g, Lin(g, above, qs));
    forall k | 0 <= k < |rows| ensures Tails(rows, i)[k] == Multiplied(2, above)[k] + Column(rows, i)[k] {
      ValueDown(rows[k], i);
    }
    LinAdd(g, Multiplied(2, above), Column(rows, i), Tails(rows, i), qs);
  }

  lemma ValueDown(ds: seq<int>, i: nat)
    requires i < |ds|
    ensures Value(ds[i..], 1) == ds[i] + 2 * Value(ds[i + 1..], 1)
  {
    assert ds[i..][1..] == ds[i + 1..] && Pow2(1) == 2;
  }

  lemma TailsEnd(g: Group, rows: seq<seq<int>>, qs: seq<Point>, bits: nat)
    requires IsAbelian(g) && |qs| == |rows|
    requires forall k :: 0 <= k < |rows| ==> bits <= |rows[k]|
    requires forall k :: 0 <= k < |rows| ==> Blank(rows[k], bits)
    ensures Lin(g, Tails(rows, bits), qs) == g.zero
  {
    hide IsAbelian, Value;
    forall k | 0 <= k < |rows| ensures Tails(rows, bits)[k] == 0 {
      BlankValue(rows[k], bits);
    }
    LinZeros(g, Tails(rows, bits), qs);
  }

  /** No digits from position `bits` on. */
  ghost predicate Blank(ds: seq<int>, bits: nat) {
    forall j :: bits <= j < |ds| ==> ds[j] == 0
  }

  lemma BlankValue(ds: seq<int>, bits: nat)
    requires bits <= |ds| && Blank(ds, bits)
    ensures Value(ds[bits..], 1) == 0
  {
    var es := ds[bits..];
    ValueZeros(es, 0, |es|, 1);
    assert es[..|es|] == es;
  }

  // ---------- recoding the inputs ----------

  /** A recoding of the scalar na with windows of w bits, of which the digits from `bits` on are zero. */
  ghost predicate Recodes(ds: seq<int>, bits: nat, na: nat, w: nat)
    requires w >= 1
  {
    na < N && |ds| == 256 && Value(ds, 1) == Signed(na) && IsWnaf(ds, w) && bits <= 256 && Blank(ds, bits)
  }

  ghost predicate Recoded(ps: seq<PointState>, na: seq<nat>, a: seq<Point>, g: Group, bits: nat) {
    forall k :: 0 <= k < |ps| ==> RecodedAt(ps[k], na, a, g, bits)
  }

  ghost predicate RecodedAt(st: PointState, na: seq<nat>, a: seq<Point>, g: Group, bits: nat) {
    && st.inputPos < |na| && st.inputPos < |a| && a[st.inputPos] != g.zero
    && st.bitsNa <= bits
    && Recodes(st.wnafNa, st.bitsNa, na[st.inputPos], WINDOW_A)
  }

  /** The points that contribute. */
  function Points(ps: seq<PointState>, a: seq<Point>): (r: seq<Point>)
    requires forall k :: 0 <= k < |ps| ==> ps[k].inputPos < |a|
    ensures |r| == |ps|
  {
    seq(|ps|, k requires 0 <= k < |ps| => a[ps[k].inputPos])
  }

  function Rows(ps: seq<PointState>): (r: seq<seq<int>>)
    ensures |r| == |ps|
  {
    seq(|ps|, k requires 0 <= k < |ps| => ps[k].wnafNa)
  }

  /** The scalars as the recodings represent them. */
  function Values(ps: seq<PointState>): (r: seq<int>)
    ensures |r| == |ps|
  {
    seq(|ps|, k requires 0 <= k < |ps| => Value(ps[k].wnafNa, 1))
  }

  /** A recoding of len 256 with window size w. */
  method Recode(na: nat, w: nat) returns (digits: seq<int>, bits: nat)
    requires na < N && 2 <= w <= 31
    ensures Recodes(digits, bits, na, w)
  {
    hide Value, Pow2, IsWnaf;
    var wnaf := new int[256];
    SignedBound(na);
    bits := EcmultWnaf(wnaf, na, w);
    digits := wnaf[..];
  }

  /** A multiple by the signed form of a scalar is the multiple by the scalar. */
  lemma SignedMultiple(g: Group, na: nat, p: Point)
    requires IsAbelian(g) && na < N && Mul(g, N, p) == g.zero
    ensures Mul(g, Signed(na), p) == Mul(g, na, p)
  {
    hide Bits, IsAbelian, Mul;
    if Signed(na) != na {
      assert na + -1 * N == na - N;
      MulCongruent(g, N, na, -1, p);
    }
  }

  lemma ActiveStep(g: Group, ps: seq<PointState>, st: PointState, na: seq<nat>, a: seq<Point>, np: nat)
    requires IsAbelian(g) && |na| == |a| && np < |na| && na[np] < N && Mul(g, N, a[np]) == g.zero
    requires st.inputPos == np && Value(st.wnafNa, 1) == Signed(na[np])
    requires forall k :: 0 <= k < |ps| ==> ps[k].inputPos < |a|
    requires Lin(g, na[..np], a[..np]) == Lin(g, Values(ps), Points(ps, a))
    ensures Lin(g, na[..np + 1], a[..np + 1]) == Lin(g, Values(ps + [st]), Points(ps + [st], a))
  {
    hide IsAbelian, Lin, Mul, Signed, Value;
    assert na[..np + 1] == na[..np] + [na[np]] && a[..np + 1] == a[..np] + [a[np]];
    LinSnoc(g, na[..np], a[..np], na[np], a[np]);
    assert Values(ps + [st]) == Values(ps) + [Value(st.wnafNa, 1)] && Points(ps + [st], a) == Points(ps, a) + [a[np]];
    LinSnoc(g, Values(ps), Points(ps, a), Signed(na[np]), a[np]);
    SignedMultiple(g, na[np], a[np]);
  }

  lemma RecodedSnoc(ps: seq<PointState>, st: PointState, na: seq<nat>, a: seq<Point>, g: Group, bits: nat, more: nat)
    requires Recoded(ps, na, a, g, bits) && bits <= more && RecodedAt(st, na, a, g, more)
    ensures Recoded(ps + [st], na, a, g, more)
  {
    hide Recodes;
    forall k | 0 <= k < |ps| + 1 ensures RecodedAt((ps + [st])[k], na, a, g, more) {
      if k < |ps| { assert RecodedAt(ps[k], na, a, g, bits); }
    }
  }

  lemma RecodedBounds(ps: seq<PointState>, na: seq<nat>, a: seq<Point>, g: Group, bits: nat)
    requires Recoded(ps, na, a, g, bits)
    ensures forall k :: 0 <= k < |ps| ==> ps[k].inputPos < |a| && ps[k].inputPos < |na| && a[ps[k].inputPos] != g.zero
    ensures forall k :: 0 <= k < |ps| ==> |ps[k].wnafNa| == 256 && ps[k].bitsNa <= 256
  {
    hide Value, IsWnaf, Blank;
    forall k | 0 <= k < |ps|
      ensures ps[k].inputPos < |a| && ps[k].inputPos < |na| && a[ps[k].inputPos] != g.zero
      ensures |ps[k].wnafNa| == 256 && ps[k].bitsNa <= 256
    {
      assert RecodedAt(ps[k], na, a, g, bits);
    }
  }

  /** The first loop: recodes every scalar that contributes. Of the points it looks at nothing
  but whether they are infinite. */
  method RecodeAll(ghost g: Group, ps: array<PointState>, na: seq<nat>, infinite: seq<bool>, ghost a: seq<Point>)
    returns (no: nat, bits: nat)
    requires IsAbelian(g) && |na| == |infinite| == |a| <= ps.Length
    requires forall k :: 0 <= k < |na| ==> na[k] < N && Mul(g, N, a[k]) == g.zero && (infinite[k] <==> a[k] == g.zero)
    modifies ps
    ensures no <= |na| && bits <= 256 && Recoded(ps[..no], na, a, g, bits)
    ensures forall k :: 0 <= k < no ==> ps[..no][k].inputPos < |a|
    ensures Lin(g, na, a) == Lin(g, Values(ps[..no]), Points(ps[..no], a))
  {
    hide IsAbelian, Lin, Mul, Values, Points, Recoded, Signed, Value, IsWnaf, Blank;
    no, bits := 0, 0;
    assert ps[..0] == [] && na[..0] == [] && a[..0] == [];
    RecodedEmpty(na, a, g);
    var np := 0;
    while np < |na|
      invariant 0 <= no <= np <= |na| && bits <= 256
      invariant Recoded(ps[..no], na, a, g, bits)
      invariant forall k :: 0 <= k < no ==> ps[..no][k].inputPos < |a|
      invariant Lin(g, na[..np], a[..np]) == Lin(g, Values(ps[..no]), Points(ps[..no], a))
    {
      if na[np] == 0 || infinite[np] {
        LinPrefix(g, na, a, np);
        np := np + 1;
        continue;
      }
      ghost var states := ps[..no];
      var digits, bitsNa := Recode(na[np], WINDOW_A);
      ps[no] := PointState(digits, bitsNa, np);
      assert ps[..no + 1] == states + [ps[no]];
      RecodedSnoc(states, ps[no], na, a, g, bits, if bitsNa > bits then bitsNa else bits);
      ActiveStep(g, states, ps[no], na, a, np);
      if bitsNa > bits {
        bits := bitsNa;
      }
      no := no + 1;
      np := np + 1;
    }
    assert na[..np] == na && a[..np] == a;
  }

  lemma RecodedEmpty(na: seq<nat>, a: seq<Point>, g: Group)
    ensures Recoded([], na, a, g, 0)
  {
  }

  // ---------- tables ----------

  ghost predicate TableAt(g: Group, preA: seq<Point>, k: nat, p: Point) {
    k * 8 + 8 <= |preA| && IsOddTable(g, preA[k * 8..k * 8 + 8], p)
  }

  /** The tables of all active points, one after the other. */
  method BuildTables(g: Group, preA: array<Point>, qs: seq<Point>)
    requires IsAbelian(g) && 8 * |qs| <= preA.Length
    requires forall k :: 0 <= k < |qs| ==> qs[k] != g.zero
    modifies preA
    ensures forall k :: 0 <= k < |qs| ==> TableAt(g, preA[..], k, qs[k])
  {
    hide IsOddTable;
    for np := 0 to |qs|
      invariant forall k :: 0 <= k < np ==> TableAt(g, preA[..], k, qs[k])
    {
      ghost var before := preA[..];
      OddMultiples(g, preA, np * 8, 8, qs[np]);
      assert preA[..][np * 8..np * 8 + 8] == preA[np * 8..np * 8 + 8];
      forall k | 0 <= k < np ensures TableAt(g, preA[..], k, qs[k]) {
        assert TableAt(g, before, k, qs[k]);
        assert preA[..][k * 8..k * 8 + 8] == before[k * 8..k * 8 + 8];
      }
    }
  }

  // ---------- the main loop ----------

  lemma ColumnSnoc(g: Group, ps: seq<PointState>, np: nat, a: seq<Point>, i: nat)
    requires np < |ps| && forall k :: 0 <= k < |ps| ==> ps[k].inputPos < |a| && i < |ps[k].wnafNa|
    ensures Lin(g, Column(Rows(ps[..np + 1]), i), Points(ps[..np + 1], a))
            == g.add(Lin(g, Column(Rows(ps[..np]), i), Points(ps[..np], a)),
                     Mul(g, ps[np].wnafNa[i], a[ps[np].inputPos]))
  {
    hide Lin, Mul;
    assert Column(Rows(ps[..np + 1]), i) == Column(Rows(ps[..np]), i) + [ps[np].wnafNa[i]];
    assert Points(ps[..np + 1], a) == Points(ps[..np], a) + [a[ps[np].inputPos]];
    LinSnoc(g, Column(Rows(ps[..np]), i), Points(ps[..np], a), ps[np].wnafNa[i], a[ps[np].inputPos]);
  }

  lemma DigitFacts(ds: seq<int>, bits: nat, na: nat, w: nat, i: nat)
    requires w >= 2 && Recodes(ds, bits, na, w) && i < 256
    ensures i >= bits ==> ds[i] == 0
    ensures ds[i] != 0 ==> ds[i] % 2 == 1 && -Pow2(w - 1) < ds[i] < Pow2(w - 1)
  {
    hide Value, Pow2;
  }

  /** Adds the digit at position i of one recoding, looked up in its table. */
  method AddDigit(g: Group, r0: Point, pre: array<Point>, base: nat, digits: seq<int>, bits: nat, i: nat,
                  w: nat, ghost na: nat, ghost p: Point)
    returns (r: Point)
    requires IsAbelian(g) && w >= 2 && Recodes(digits, bits, na, w) && i < 256
    requires base + TableSize(w) <= pre.Length && IsOddTable(g, pre[base..base + TableSize(w)], p)
    ensures r == g.add(r0, Mul(g, digits[i], p))
  {
    DigitFacts(digits, bits, na, w, i);
    hide IsAbelian, Recodes, IsOddTable, Pow2;
    r := r0;
    if i < bits {
      var n := digits[i];
      if n != 0 {
        var q := TableGet(g, pre, base, n, w, p);
        r := g.add(r, q);
        return;
      }
    }
    Unit(g, r0);
  }

  /** Adds the digits at position i of all points. */
  method AddColumn(g: Group, r0: Point, preA: array<Point>, ps: array<PointState>, no: nat, i: nat, ghost bits: nat,
                   ghost na: seq<nat>, ghost a: seq<Point>)
    returns (r: Point)
    requires IsAbelian(g) && no <= ps.Length && i < 256 && Recoded(ps[..no], na, a, g, bits)
    requires forall k :: 0 <= k < no ==> ps[..no][k].inputPos < |a| && |ps[..no][k].wnafNa| == 256
    requires forall k :: 0 <= k < no ==> TableAt(g, preA[..], k, Points(ps[..no], a)[k])
    ensures r == g.add(r0, Lin(g, Column(Rows(ps[..no]), i), Points(ps[..no], a)))
  {
    hide IsAbelian, IsOddTable, Lin, Mul, Column, Recodes, Pow2;
    r := r0;
    ghost var states := ps[..no];
    assert Column(Rows(states[..0]), i) == [] by { ColumnEmpty(i); }
    assert Points(states[..0], a) == [];
    LinEmpty(g);
    Unit(g, r0);
    for np := 0 to no
      invariant r == g.add(r0, Lin(g, Column(Rows(states[..np]), i), Points(states[..np], a)))
    {
      var state := ps[np];
      assert state == states[np] && RecodedAt(state, na, a, g, bits);
      assert TableAt(g, preA[..], np, Points(states, a)[np]);
      assert preA[..][np * 8..np * 8 + 8] == preA[np * 8..np * 8 + 8];
      ghost var partial := Lin(g, Column(Rows(states[..np]), i), Points(states[..np], a));
      Pow2Small();
      Pow2Last(3);
      r := AddDigit(g, r, preA, np * 8, state.wnafNa, state.bitsNa, i, WINDOW_A, na[state.inputPos], a[state.inputPos]);
      ColumnSnoc(g, states, np, a, i);
      Assoc(g, r0, partial, Mul(g, state.wnafNa[i], a[state.inputPos]));
    }
    assert states[..no] == states;
  }

  lemma ColumnEmpty(i: nat)
    ensures Column(Rows([]), i) == []
  {
  }

  /** The points together with the generator. */
  lemma AppendRow(g: Group, ps: seq<PointState>, row: seq<int>, a: seq<Point>, p: Point, i: nat)
    requires forall k :: 0 <= k < |ps| ==> ps[k].inputPos < |a| && i < |ps[k].wnafNa|
    requires i < |row|
    ensures Lin(g, Column(Rows(ps) + [row], i), Points(ps, a) + [p])
            == g.add(Lin(g, Column(Rows(ps), i), Points(ps, a)), Mul(g, row[i], p))
  {
    hide Lin, Mul;
    assert Column(Rows(ps) + [row], i) == Column(Rows(ps), i) + [row[i]];
    LinSnoc(g, Column(Rows(ps), i), Points(ps, a), row[i], p);
  }

  lemma WholeRows(g: Group, ps: seq<PointState>, row: seq<int>, a: seq<Point>, p: Point)
    requires forall k :: 0 <= k < |ps| ==> ps[k].inputPos < |a|
    ensures Lin(g, Tails(Rows(ps) + [row], 0), Points(ps, a) + [p])
            == g.add(Lin(g, Values(ps), Points(ps, a)), Mul(g, Value(row, 1), p))
  {
    hide Lin, Mul, Value;
    forall k | 0 <= k < |ps| ensures Tails(Rows(ps) + [row], 0)[k] == Values(ps)[k] {
      assert ps[k].wnafNa[0..] == ps[k].wnafNa;
    }
    assert row[0..] == row;
    assert Tails(Rows(ps) + [row], 0) == Values(ps) + [Value(row, 1)];
    LinSnoc(g, Values(ps), Points(ps, a), Value(row, 1), p);
  }

  /** Above the longest recoding there are no digits. */
  lemma AllBlank(ps: seq<PointState>, row: seq<int>, na: seq<nat>, a: seq<Point>, g: Group, bitsA: nat, bits: nat)
    requires Recoded(ps, na, a, g, bitsA) && bitsA <= bits && Blank(row, bits)
    ensures forall k :: 0 <= k < |ps| + 1 ==> Blank((Rows(ps) + [row])[k], bits)
  {
    hide Value, IsWnaf;
    forall k | 0 <= k < |ps| + 1 ensures Blank((Rows(ps) + [row])[k], bits) {
      if k < |ps| { assert RecodedAt(ps[k], na, a, g, bitsA); }
    }
  }

  lemma ActivePoints(g: Group, ps: seq<PointState>, na: seq<nat>, a: seq<Point>, bits: nat)
    requires Recoded(ps, na, a, g, bits) && forall k :: 0 <= k < |ps| ==> ps[k].inputPos < |a|
    ensures forall k :: 0 <= k < |ps| ==> Points(ps, a)[k] != g.zero
  {
    RecodedBounds(ps, na, a, g, bits);
  }

  lemma RowLengths(ps: seq<PointState>, row: seq<int>)
    requires |row| == 256 && forall k :: 0 <= k < |ps| ==> |ps[k].wnafNa| == 256
    ensures |Rows(ps) + [row]| == |ps| + 1
    ensures forall k :: 0 <= k < |ps| + 1 ==> |(Rows(ps) + [row])[k]| == 256
  {
  }

  lemma RecodesFacts(ds: seq<int>, bits: nat, more: nat, na: nat, w: nat)
    requires w >= 1 && Recodes(ds, bits, na, w) && bits <= more
    ensures Blank(ds, more) && |ds| == 256 && bits <= 256
    ensures Value(ds, 1) == Signed(na)
  {
  }

  function ScalarOf(ng: Option<nat>): nat {
    match ng
    case None => 0
    case Some(n) => n
  }

  /** The digits of the generator; without a scalar for it there are none. */
  method RecodeGenerator(ng: Option<nat>) returns (digits: seq<int>, bits: nat)
    requires ScalarOf(ng) < N
    ensures Recodes(digits, bits, ScalarOf(ng), WINDOW_G)
  {
    match ng
    case None =>
      digits, bits := seq(256, _ => 0), 0;
      ValueZeros(digits, 0, 256, 1);
      assert digits[..256] == digits;
      TopBit(0);
    case Some(n) =>
      digits, bits := Recode(n, WINDOW_G);
  }

  /** `secp256k1_ecmult_strauss_wnaf` returns na[0] * a[0] + na[1] * a[1] + ... + ng * G. */
  method StraussWnaf(g: Group, preG: array<Point>, generator: Point, preA: array<Point>, ps: array<PointState>,
                     na: seq<nat>, a: seq<Point>, ng: Option<nat>)
    returns (r: Point)
    requires IsAbelian(g) && Mul(g, N, generator) == g.zero
    requires |na| == |a| && forall k :: 0 <= k < |na| ==> na[k] < N && Mul(g, N, a[k]) == g.zero
    requires ScalarOf(ng) < N
    requires preG.Length == TableSize(WINDOW_G) && IsOddTable(g, preG[..], generator)
    requires |na| <= ps.Length && TableSize(WINDOW_A) * |na| <= preA.Length
    requires preA != preG && preA as object != ps as object && preG as object != ps as object
    modifies preA, ps
    ensures r == g.add(Lin(g, na, a), Mul(g, ScalarOf(ng), generator))
  {
    hide IsAbelian, IsOddTable, Lin, Mul, Column, Tails, Recoded, Recodes, Blank, Points, Values, Pow2, Value, Signed;
    Pow2Small();
    Pow2Last(3);
    var no, bitsA := RecodeAll(g, ps, na, seq(|a|, k requires 0 <= k < |a| => a[k] == g.zero), a);
    ghost var states := ps[..no];
    RecodedBounds(states, na, a, g, bitsA);
    ActivePoints(g, states, na, a, bitsA);
    BuildTables(g, preA, Points(ps[..no], a));
    assert ps[..no] == states;
    ghost var tables := preA[..];
    var digitsG, bitsG := RecodeGenerator(ng);
    var bits := if bitsG > bitsA then bitsG else bitsA;
    RecodesFacts(digitsG, bitsG, bits, ScalarOf(ng), WINDOW_G);
    ghost var rows, qs := Rows(states) + [digitsG], Points(states, a) + [generator];
    RowLengths(states, digitsG);
    AllBlank(states, digitsG, na, a, g, bitsA, bits);
    TailsEnd(g, rows, qs, bits);
    assert preG[0..0 + TableSize(WINDOW_G)] == preG[..];

    r := g.zero;
    var i := bits;
    while i > 0
      invariant 0 <= i <= bits && ps[..no] == states && preA[..] == tables
      invariant r == Lin(g, Tails(rows, i), qs)
    {
      i := i - 1;
      TailsStep(g, rows, qs, i);
      AppendRow(g, states, digitsG, a, generator, i);
      r := g.add(r, r);
      ghost var doubled := r;
      r := AddColumn(g, r, preA, ps, no, i, bitsA, na, a);
      r := AddDigit(g, r, preG, 0, digitsG, bitsG, i, WINDOW_G, ScalarOf(ng), generator);
      Assoc(g, doubled, Lin(g, Column(Rows(states), i), Points(states, a)), Mul(g, digitsG[i], generator));
    }
    WholeRows(g, states, digitsG, a, generator);
    SignedMultiple(g, ScalarOf(ng), generator);
  }
}
