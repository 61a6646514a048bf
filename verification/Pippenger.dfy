/** Pippenger's bucket method (`secp256k1_ecmult_pippenger_wnaf` of ecmult_impl.h). */
module Pippenger {
  import opened Groups
  import opened Numbers
  import opened Recoding
  import opened OddTables

  /** `struct secp256k1_pippenger_point_state` */
  datatype PointState = PointState(skew: int, inputPos: nat)

  // ---------- sums over buckets ----------

  /** k * bs[0] + (k + 2) * bs[1] + (k + 4) * bs[2] + ... */
  function Weighted(g: Group, k: int, bs: seq<Point>): Point
    decreases bs
  {
    if bs == [] then g.zero else g.add(Mul(g, k, bs[0]), Weighted(g, k + 2, bs[1..]))
  }

  function Total(g: Group, bs: seq<Point>): Point {
    if bs == [] then g.zero else g.add(Total(g, bs[1..]), bs[0])
  }

  /** The sum of the totals of all tails, which is what adding up a running sum gives. */
  function Ramp(g: Group, bs: seq<Point>): Point {
    if bs == [] then g.zero else g.add(Ramp(g, bs[1..]), Total(g, bs))
  }

  lemma {:induction false} WeightedEmpty(g: Group, k: int, bs: seq<Point>)
    requires IsAbelian(g) && forall j :: 0 <= j < |bs| ==> bs[j] == g.zero
    ensures Weighted(g, k, bs) == g.zero
    decreases bs
  {
    if bs != [] {
      WeightedEmpty(g, k + 2, bs[1..]);
      MulZeroPoint(g, k);
      Unit(g, g.zero);
    }
  }

  /** Adding a point to bucket j adds it k + 2j times to the sum. */
  lemma {:induction false} WeightedAdd(g: Group, k: int, bs: seq<Point>, j: nat, p: Point)
    requires IsAbelian(g) && j < |bs|
    ensures Weighted(g, k, bs[j := g.add(bs[j], p)]) == g.add(Weighted(g, k, bs), Mul(g, k + 2 * j, p))
    decreases bs
  {
    hide IsAbelian, Mul;
    var cs := bs[j := g.add(bs[j], p)];
    if j == 0 {
      assert cs[1..] == bs[1..];
      MulDistributes(g, k, bs[0], p);
      SwapLast(g, Mul(g, k, bs[0]), Mul(g, k, p), Weighted(g, k + 2, bs[1..]));
    } else {
      WeightedAdd(g, k + 2, bs[1..], j - 1, p);
      assert cs[1..] == bs[1..][j - 1 := g.add(bs[1..][j - 1], p)];
      Assoc(g, Mul(g, k, bs[0]), Weighted(g, k + 2, bs[1..]), Mul(g, k + 2 * j, p));
    }
  }

  lemma {:induction false} WeightedShift(g: Group, k: int, bs: seq<Point>)
    requires IsAbelian(g)
    ensures Weighted(g, k + 2, bs) == g.add(Weighted(g, k, bs), Mul(g, 2, Total(g, bs)))
    decreases bs
  {
    hide IsAbelian, Mul;
    if bs == [] {
      MulZeroPoint(g, 2);
      Unit(g, g.zero);
    } else {
      var t := Total(g, bs[1..]);
      WeightedShift(g, k + 2, bs[1..]);
      MulAdd(g, k, 2, bs[0]);
      MulDistributes(g, 2, t, bs[0]);
      Commutes(g, Mul(g, 2, t), Mul(g, 2, bs[0]));
      Swap(g, Mul(g, k, bs[0]), Mul(g, 2, bs[0]), Weighted(g, k + 2, bs[1..]), Mul(g, 2, t));
    }
  }

  /** b0 + 3 b1 + 5 b2 + ... == (b0 + b1 + ...) + 2 * (b1 + 2 b2 + ...) */
  lemma {:induction false} OddSum(g: Group, bs: seq<Point>)
    requires IsAbelian(g) && |bs| > 0
    ensures Weighted(g, 1, bs) == g.add(Total(g, bs), Mul(g, 2, Ramp(g, bs[1..])))
  {
    hide IsAbelian, Mul;
    var tail := bs[1..];
    MulOne(g, bs[0]);
    if tail == [] {
      MulZeroPoint(g, 2);
      Unit(g, bs[0]);
    } else {
      OddSum(g, tail);
      WeightedShift(g, 1, tail);
      var t, u := Total(g, tail), Ramp(g, tail[1..]);
      assert Ramp(g, tail) == g.add(u, t);
      MulDistributes(g, 2, u, t);
      Assoc(g, t, Mul(g, 2, u), Mul(g, 2, t));
      Assoc(g, bs[0], t, Mul(g, 2, g.add(u, t)));
      Commutes(g, bs[0], t);
    }
  }

  // ---------- the digits of all points ----------

  function Row(wnaf: seq<int>, k: nat, size: nat): seq<int>
    requires k * size + size <= |wnaf|
  {
    wnaf[k * size..k * size + size]
  }

  /** The digits in row k and the skew stand for the scalar they were made from. */
  ghost predicate RecodedAt(wnaf: seq<int>, st: PointState, sc: seq<nat>, k: nat, size: nat, w: nat) {
    && k * size + size <= |wnaf| && st.inputPos < |sc|
    && Value(Row(wnaf, k, size), w) - st.skew == sc[st.inputPos]
    && AreFixedDigits(Row(wnaf, k, size), w)
    && (st.skew == 0 || st.skew == 1)
  }

  ghost predicate Recoded(wnaf: seq<int>, ps: seq<PointState>, sc: seq<nat>, size: nat, w: nat) {
    forall k :: 0 <= k < |ps| ==> RecodedAt(wnaf, ps[k], sc, k, size, w)
  }

  function Points(ps: seq<PointState>, pt: seq<Point>): (r: seq<Point>)
    requires forall k :: 0 <= k < |ps| ==> ps[k].inputPos < |pt|
    ensures |r| == |ps|
  {
    seq(|ps|, k requires 0 <= k < |ps| => pt[ps[k].inputPos])
  }

  function Scalars(ps: seq<PointState>, sc: seq<nat>): (r: seq<int>)
    requires forall k :: 0 <= k < |ps| ==> ps[k].inputPos < |sc|
    ensures |r| == |ps|
  {
    seq(|ps|, k requires 0 <= k < |ps| => sc[ps[k].inputPos] as int)
  }

  lemma RowFits(k: nat, num: nat, size: nat, length: nat)
    requires k < num && num * size <= length
    ensures k * size + size <= length
  {
    MulMonotone(k + 1, num, size);
    assert (k + 1) * size == k * size + size;
  }

  /** Writing row `no` does not touch the rows below it. */
  lemma RowKept(before: seq<int>, after: seq<int>, k: nat, no: nat, size: nat)
    requires k < no && |before| == |after| && no * size <= |before|
    requires forall j :: 0 <= j < no * size ==> after[j] == before[j]
    ensures k * size + size <= |before| && Row(after, k, size) == Row(before, k, size)
  {
    RowFits(k, no, size, no * size);
  }

  lemma RecodedSnoc(before: seq<int>, after: seq<int>, ps: seq<PointState>, st: PointState, sc: seq<nat>, size: nat, w: nat)
    requires |before| == |after| && |ps| * size <= |before|
    requires Recoded(before, ps, sc, size, w)
    requires forall j :: 0 <= j < |ps| * size ==> after[j] == before[j]
    requires RecodedAt(after, st, sc, |ps|, size, w)
    ensures Recoded(after, ps + [st], sc, size, w)
  {
    hide Value, Row, AreFixedDigits;
    forall k | 0 <= k < |ps| + 1 ensures RecodedAt(after, (ps + [st])[k], sc, k, size, w) {
      if k < |ps| {
        assert RecodedAt(before, ps[k], sc, k, size, w);
        RowKept(before, after, k, |ps|, size);
      }
    }
  }

  lemma RecodedEmpty(wnaf: seq<int>, sc: seq<nat>, size: nat, w: nat)
    ensures Recoded(wnaf, [], sc, size, w)
  {
  }

  /** A new active point extends the sum by its own term. */
  lemma LinActive(g: Group, ps: seq<PointState>, st: PointState, sc: seq<nat>, pt: seq<Point>)
    requires |sc| == |pt| && st.inputPos < |sc|
    requires forall k :: 0 <= k < |ps| ==> ps[k].inputPos < |sc|
    ensures Lin(g, Scalars(ps + [st], sc), Points(ps + [st], pt))
            == g.add(Lin(g, Scalars(ps, sc), Points(ps, pt)), Mul(g, sc[st.inputPos], pt[st.inputPos]))
  {
    hide Lin, Mul;
    assert Scalars(ps + [st], sc) == Scalars(ps, sc) + [sc[st.inputPos] as int];
    assert Points(ps + [st], pt) == Points(ps, pt) + [pt[st.inputPos]];
    LinSnoc(g, Scalars(ps, sc), Points(ps, pt), sc[st.inputPos], pt[st.inputPos]);
  }

  /** The first loop: recodes the scalars of all points that contribute. */
  method RecodeAll(g: Group, wnaf: array<int>, ps: array<PointState>, sc: seq<nat>, pt: seq<Point>, w: nat)
    returns (no: nat)
    requires IsAbelian(g) && 1 <= w <= 31
    requires |sc| == |pt| && forall k :: 0 <= k < |sc| ==> sc[k] < N
    requires |sc| * SizeBits(WNAF_BITS, w) <= wnaf.Length && |sc| <= ps.Length
    requires wnaf as object != ps as object
    modifies wnaf, ps
    ensures no <= |sc| && Recoded(wnaf[..], ps[..no], sc, SizeBits(WNAF_BITS, w), w)
    ensures forall k :: 0 <= k < no ==> ps[..no][k].inputPos < |sc|
    ensures Lin(g, sc, pt) == Lin(g, Scalars(ps[..no], sc), Points(ps[..no], pt))
  {
    hide Value, AreFixedDigits, SizeBits, IsAbelian, Lin, Mul, Recoded, Scalars, Points;
    var size := SizeBits(WNAF_BITS, w);
    no := 0;
    assert ps[..0] == [] && sc[..0] == [] && pt[..0] == [];
    RecodedEmpty(wnaf[..], sc, size, w);
    var np := 0;
    while np < |sc|
      invariant 0 <= no <= np <= |sc|
      invariant Recoded(wnaf[..], ps[..no], sc, size, w)
      invariant forall k :: 0 <= k < no ==> ps[..no][k].inputPos < |sc|
      invariant Lin(g, sc[..np], pt[..np]) == Lin(g, Scalars(ps[..no], sc), Points(ps[..no], pt))
    {
      LinPrefix(g, sc, pt, np);
      if sc[np] == 0 || pt[np] == g.zero {
        np := np + 1;
        continue;
      }
      RowFits(no, |sc|, size, wnaf.Length);
      ghost var before, states := wnaf[..], ps[..no];
      var skew := WnafFixed(wnaf, no * size, sc[np], w);
      ps[no] := PointState(skew, np);
      assert ps[..no + 1] == states + [PointState(skew, np)];
      assert Row(wnaf[..], no, size) == wnaf[no * size..no * size + size];
      RecodedSnoc(before, wnaf[..], states, PointState(skew, np), sc, size, w);
      LinActive(g, states, PointState(skew, np), sc, pt);
      no := no + 1;
      np := np + 1;
    }
    assert sc[..np] == sc && pt[..np] == pt;
  }

  // ---------- one window ----------

  /** What the points contribute at position i: their digits, less the skew at the lowest. */
  function Column(wnaf: seq<int>, ps: seq<PointState>, size: nat, i: nat): (r: seq<int>)
    requires i < size && |ps| * size <= |wnaf|
    ensures |r| == |ps|
  {
    seq(|ps|, k requires 0 <= k < |ps| => Entry(wnaf, ps[k], k, size, i))
  }

  function Entry(wnaf: seq<int>, st: PointState, k: nat, size: nat, i: nat): int
    requires i < size
  {
    if k * size + i < |wnaf| then wnaf[k * size + i] - (if i == 0 then st.skew else 0) else 0
  }

  lemma MulNegPoint(g: Group, k: int, p: Point)
    requires IsAbelian(g)
    ensures Mul(g, k, g.neg(p)) == Mul(g, 0 - k, p)
  {
    MulMul(g, k, -1, p);
    MulOne(g, p);
  }

  method AddToBucket(g: Group, buckets: array<Point>, index: nat, p: Point)
    requires IsAbelian(g) && index < buckets.Length
    modifies buckets
    ensures Weighted(g, 1, buckets[..]) == g.add(old(Weighted(g, 1, buckets[..])), Mul(g, 1 + 2 * index, p))
  {
    hide IsAbelian, Weighted, Mul;
    WeightedAdd(g, 1, buckets[..], index, p);
    ghost var before := buckets[..];
    buckets[index] := g.add(buckets[index], p);
    assert buckets[..] == before[index := g.add(before[index], p)];
  }

  /** A digit n adds n * p to the sum over the buckets; its bucket exists. */
  method AddDigit(g: Group, buckets: array<Point>, n: int, p: Point, bucketWindow: nat)
    requires IsAbelian(g) && buckets.Length == TableSize(bucketWindow + 2)
    requires IsFixedDigit(n, bucketWindow + 1)
    modifies buckets
    ensures Weighted(g, 1, buckets[..]) == g.add(old(Weighted(g, 1, buckets[..])), Mul(g, n, p))
  {
    hide IsAbelian, Weighted, Mul, Pow2;
    Pow2Last(bucketWindow + 1);
    if n > 0 {
      var idx := (n - 1) / 2;
      AddToBucket(g, buckets, idx, p);
    } else if n < 0 {
      var idx := -(n + 1) / 2;
      MulNegPoint(g, 1 + 2 * idx, p);
      AddToBucket(g, buckets, idx, g.neg(p));
    } else {
      MulZero(g, p);
      Unit(g, Weighted(g, 1, buckets[..]));
    }
  }

  lemma MulZero(g: Group, p: Point)
    ensures Mul(g, 0, p) == g.zero
  {
  }

  lemma ColumnSnoc(g: Group, wnaf: seq<int>, ps: seq<PointState>, np: nat, pt: seq<Point>, size: nat, i: nat)
    requires i < size && np < |ps| && |ps| * size <= |wnaf|
    requires forall k :: 0 <= k < |ps| ==> ps[k].inputPos < |pt|
    ensures Prefixes(np, |ps|, size, |wnaf|)
    ensures Lin(g, Column(wnaf, ps[..np + 1], size, i), Points(ps[..np + 1], pt))
            == g.add(Lin(g, Column(wnaf, ps[..np], size, i), Points(ps[..np], pt)),
                     Mul(g, Entry(wnaf, ps[np], np, size, i), pt[ps[np].inputPos]))
  {
    hide Lin, Mul;
    PrefixesFit(np, |ps|, size, |wnaf|);
    assert ps[..np + 1][..np] == ps[..np];
    assert Column(wnaf, ps[..np + 1], size, i) == Column(wnaf, ps[..np], size, i) + [Entry(wnaf, ps[np], np, size, i)];
    assert Points(ps[..np + 1], pt) == Points(ps[..np], pt) + [pt[ps[np].inputPos]];
    LinSnoc(g, Column(wnaf, ps[..np], size, i), Points(ps[..np], pt),
            Entry(wnaf, ps[np], np, size, i), pt[ps[np].inputPos]);
  }

  predicate Prefixes(np: nat, no: nat, size: nat, length: nat) {
    np * size <= length && (np < no ==> (np + 1) * size <= length)
  }

  lemma PrefixesFit(np: nat, no: nat, size: nat, length: nat)
    requires np <= no && no * size <= length
    ensures Prefixes(np, no, size, length)
  {
    MulMonotone(np, no, size);
    if np < no { MulMonotone(np + 1, no, size); }
  }

  /** Every digit at position i selects a bucket or none. */
  ghost predicate GoodColumn(wnaf: seq<int>, no: nat, size: nat, i: nat, w: nat) {
    forall k :: 0 <= k < no && k * size + i < |wnaf| ==> IsFixedDigit(wnaf[k * size + i], w)
  }

  lemma GoodDigit(wnaf: seq<int>, no: nat, size: nat, i: nat, w: nat, k: nat)
    requires GoodColumn(wnaf, no, size, i, w) && k < no && k * size + i < |wnaf|
    ensures IsFixedDigit(wnaf[k * size + i], w)
  {
  }

  /** Adds every point to the bucket its digit at position i selects, and at the lowest
  position takes the skew out of the first bucket. */
  method Scatter(g: Group, buckets: array<Point>, wnaf: array<int>, ps: array<PointState>, pt: seq<Point>,
                 no: nat, size: nat, i: nat, bucketWindow: nat)
    requires IsAbelian(g) && i < size && no <= ps.Length && no * size <= wnaf.Length
    requires buckets.Length == TableSize(bucketWindow + 2)
    requires forall k :: 0 <= k < no ==> ps[..no][k].inputPos < |pt| && 0 <= ps[..no][k].skew <= 1
    requires GoodColumn(wnaf[..], no, size, i, bucketWindow + 1)
    requires buckets as object != wnaf as object && buckets as object != ps as object
    modifies buckets
    ensures Weighted(g, 1, buckets[..]) == Lin(g, Column(wnaf[..], ps[..no], size, i), Points(ps[..no], pt))
  {
    hide IsAbelian, Weighted, Lin, Mul, Pow2, GoodColumn;
    for j := 0 to buckets.Length
      invariant forall k :: 0 <= k < j ==> buckets[k] == g.zero
    {
      buckets[j] := g.zero;
    }
    WeightedEmpty(g, 1, buckets[..]);
    LinEmpty(g);
    ghost var states, digits := ps[..no], wnaf[..];
    PrefixesFit(0, no, size, |digits|);
    assert Column(digits, states[..0], size, i) == [] && Points(states[..0], pt) == [];
    for np := 0 to no
      invariant wnaf[..] == digits && ps[..no] == states && Prefixes(np, no, size, |digits|)
      invariant Weighted(g, 1, buckets[..]) == Lin(g, Column(digits, states[..np], size, i), Points(states[..np], pt))
    {
      RowFits(np, no, size, wnaf.Length);
      PrefixesFit(np + 1, no, size, |digits|);
      GoodDigit(digits, no, size, i, bucketWindow + 1, np);
      ColumnSnoc(g, digits, states, np, pt, size, i);
      var state := ps[np];
      assert state == states[np];
      AddPoint(g, buckets, state, wnaf[np * size + i], i == 0, pt[state.inputPos], bucketWindow);
    }
    assert states[..no] == states;
  }

  method AddPoint(g: Group, buckets: array<Point>, state: PointState, n: int, lowest: bool, p: Point, bucketWindow: nat)
    requires IsAbelian(g) && buckets.Length == TableSize(bucketWindow + 2)
    requires IsFixedDigit(n, bucketWindow + 1) && 0 <= state.skew <= 1
    modifies buckets
    ensures Weighted(g, 1, buckets[..])
            == g.add(old(Weighted(g, 1, buckets[..])), Mul(g, n - (if lowest then state.skew else 0), p))
  {
    hide IsAbelian, Weighted, Mul, Pow2;
    ghost var sum := Weighted(g, 1, buckets[..]);
    if lowest {
      if state.skew != 0 {
        AddToBucket(g, buckets, 0, g.neg(p));
        MulNegPoint(g, 1, p);
        Assoc(g, sum, Mul(g, -1, p), Mul(g, n, p));
        MulAdd(g, -1, n, p);
      }
    }
    AddDigit(g, buckets, n, p, bucketWindow);
  }

  /** Shifts the accumulator by one window and adds b0 + 3 b1 + 5 b2 + ... to it; the last
  doubling of the shift also doubles the sums of the tails. */
  method Accumulate(g: Group, buckets: array<Point>, r0: Point, bucketWindow: nat) returns (r: Point)
    requires IsAbelian(g) && buckets.Length == TableSize(bucketWindow + 2)
    ensures r == g.add(Mul(g, Pow2(bucketWindow + 1), r0), Weighted(g, 1, buckets[..]))
  {
    hide IsAbelian, Weighted, Mul, Pow2, Total, Ramp;
    r := r0;
    MulOne(g, r0);
    Pow2Small();
    for j := 0 to bucketWindow
      invariant r == Mul(g, Pow2(j), r0)
    {
      Pow2Last(j + 1);
      MulAdd(g, Pow2(j), Pow2(j), r0);
      r := g.add(r, r);
    }
    ghost var shifted, bs := r, buckets[..];
    var runningSum := g.zero;
    EmptyTail(g, bs);
    Unit(g, r);
    var j := buckets.Length - 1;
    while j > 0
      invariant 0 <= j < buckets.Length
      invariant runningSum == Total(g, bs[j + 1..])
      invariant r == g.add(shifted, Ramp(g, bs[j + 1..]))
    {
      TailStep(g, bs, j);
      runningSum := g.add(runningSum, buckets[j]);
      Assoc(g, shifted, Ramp(g, bs[j + 1..]), runningSum);
      r := g.add(r, runningSum);
      j := j - 1;
    }
    TailStep(g, bs, 0);
    runningSum := g.add(runningSum, buckets[0]);
    r := g.add(r, r);
    r := g.add(r, runningSum);
    assert bs[0..] == bs;
    Deferred(g, shifted, Ramp(g, bs[1..]), runningSum, r0, bucketWindow);
    OddSum(g, bs);
  }

  lemma EmptyTail(g: Group, bs: seq<Point>)
    ensures bs[|bs|..] == [] && Total(g, bs[|bs|..]) == g.zero && Ramp(g, bs[|bs|..]) == g.zero
  {
  }

  lemma TailStep(g: Group, bs: seq<Point>, j: nat)
    requires j < |bs|
    ensures Total(g, bs[j..]) == g.add(Total(g, bs[j + 1..]), bs[j])
    ensures Ramp(g, bs[j..]) == g.add(Ramp(g, bs[j + 1..]), Total(g, bs[j..]))
  {
    assert bs[j..][1..] == bs[j + 1..];
  }

  lemma Deferred(g: Group, shifted: Point, ramp: Point, total: Point, r0: Point, bucketWindow: nat)
    requires IsAbelian(g) && shifted == Mul(g, Pow2(bucketWindow), r0)
    ensures g.add(g.add(g.add(shifted, ramp), g.add(shifted, ramp)), total)
            == g.add(Mul(g, Pow2(bucketWindow + 1), r0), g.add(total, Mul(g, 2, ramp)))
  {
    hide IsAbelian, Mul;
    Swap(g, shifted, ramp, shifted, ramp);
    MulOne(g, ramp);
    MulAdd(g, Pow2(bucketWindow), Pow2(bucketWindow), r0);
    Pow2Last(bucketWindow + 1);
    Assoc(g, g.add(shifted, shifted), g.add(ramp, ramp), total);
    Commutes(g, g.add(ramp, ramp), total);
  }

  // ---------- all windows ----------

  /** The part of each scalar that the digits from position i on stand for. */
  function Tails(wnaf: seq<int>, ps: seq<PointState>, size: nat, i: nat, w: nat): (r: seq<int>)
    requires i <= size && |ps| * size <= |wnaf|
    ensures |r| == |ps|
  {
    seq(|ps|, k requires 0 <= k < |ps| => TailValue(wnaf, ps[k], k, size, i, w))
  }

  function TailValue(wnaf: seq<int>, st: PointState, k: nat, size: nat, i: nat, w: nat): int
    requires i <= size
  {
    if k * size + size <= |wnaf| then Value(Row(wnaf, k, size)[i..], w) - (if i == 0 then st.skew else 0) else 0
  }

  /** One more window below: shift and add. */
  lemma TailsStep(g: Group, wnaf: seq<int>, ps: seq<PointState>, qs: seq<Point>, size: nat, i: nat, w: nat)
    requires IsAbelian(g) && i < size && |ps| * size <= |wnaf| && |qs| == |ps|
    ensures Lin(g, Tails(wnaf, ps, size, i, w), qs)
            == g.add(Mul(g, Pow2(w), Lin(g, Tails(wnaf, ps, size, i + 1, w), qs)), Lin(g, Column(wnaf, ps, size, i), qs))
  {
    hide IsAbelian, Lin, Mul, Pow2, TailValue, Entry;
    var above := Tails(wnaf, ps, size, i + 1, w);
    LinScale(g, Pow2(w), above, qs);
    forall k | 0 <= k < |ps|
      ensures Tails(wnaf, ps, size, i, w)[k] == Multiplied(Pow2(w), above)[k] + Column(wnaf, ps, size, i)[k]
    {
      TailStepAt(wnaf, ps[k], k, |ps|, size, i, w);
    }
    LinAdd(g, Multiplied(Pow2(w), above), Column(wnaf, ps, size, i), Tails(wnaf, ps, size, i, w), qs);
  }

  lemma TailStepAt(wnaf: seq<int>, st: PointState, k: nat, no: nat, size: nat, i: nat, w: nat)
    requires k < no && no * size <= |wnaf| && i < size
    ensures TailValue(wnaf, st, k, size, i, w)
            == Pow2(w) * TailValue(wnaf, st, k, size, i + 1, w) + Entry(wnaf, st, k, size, i)
  {
    hide Pow2;
    RowFits(k, no, size, |wnaf|);
    var row := Row(wnaf, k, size);
    assert row[i] == wnaf[k * size + i];
    hide Row;
    ValueTail(row, i, w);
  }

  lemma ValueTail(row: seq<int>, i: nat, w: nat)
    requires i < |row|
    ensures Value(row[i..], w) == row[i] + Pow2(w) * Value(row[i + 1..], w)
  {
    assert row[i..][1..] == row[i + 1..];
  }

  lemma TailsEnd(g: Group, wnaf: seq<int>, ps: seq<PointState>, qs: seq<Point>, size: nat, w: nat)
    requires IsAbelian(g) && |ps| * size <= |wnaf| && |qs| == |ps| && size > 0
    ensures Lin(g, Tails(wnaf, ps, size, size, w), qs) == g.zero
  {
    var zeros := Tails(wnaf, ps, size, size, w);
    forall k | 0 <= k < |ps| ensures zeros[k] == 0 {
      RowFits(k, |ps|, size, |wnaf|);
      assert Row(wnaf, k, size)[size..] == [];
    }
    LinZeros(g, zeros, qs);
  }

  /** All digits together, less the skew, are the scalars. */
  lemma TailsWhole(wnaf: seq<int>, ps: seq<PointState>, sc: seq<nat>, size: nat, w: nat)
    requires |ps| * size <= |wnaf| && size > 0 && Recoded(wnaf, ps, sc, size, w)
    requires forall k :: 0 <= k < |ps| ==> ps[k].inputPos < |sc|
    ensures Tails(wnaf, ps, size, 0, w) == Scalars(ps, sc)
  {
    hide Value, AreFixedDigits;
    forall k | 0 <= k < |ps| ensures Tails(wnaf, ps, size, 0, w)[k] == sc[ps[k].inputPos] {
      assert RecodedAt(wnaf, ps[k], sc, k, size, w);
      assert Row(wnaf, k, size)[0..] == Row(wnaf, k, size);
    }
  }

  lemma RecodedDigits(wnaf: seq<int>, ps: seq<PointState>, sc: seq<nat>, size: nat, i: nat, w: nat)
    requires Recoded(wnaf, ps, sc, size, w) && i < size
    ensures forall k :: 0 <= k < |ps| ==> 0 <= ps[k].skew <= 1
    ensures GoodColumn(wnaf, |ps|, size, i, w)
  {
    hide Value, IsFixedDigit;
    forall k | 0 <= k < |ps|
      ensures 0 <= ps[k].skew <= 1 && k * size + i < |wnaf| && IsFixedDigit(wnaf[k * size + i], w)
    {
      assert RecodedAt(wnaf, ps[k], sc, k, size, w);
      assert Row(wnaf, k, size)[i] == wnaf[k * size + i];
    }
  }

  /** `secp256k1_ecmult_pippenger_wnaf` returns sc[0] * pt[0] + sc[1] * pt[1] + ... */
  method PippengerWnaf(g: Group, buckets: array<Point>, bucketWindow: nat, wnaf: array<int>, ps: array<PointState>,
                       sc: seq<nat>, pt: seq<Point>)
    returns (r: Point)
    requires IsAbelian(g) && 1 <= bucketWindow <= 12
    requires |sc| == |pt| && forall k :: 0 <= k < |sc| ==> sc[k] < N
    requires buckets.Length == TableSize(bucketWindow + 2)
    requires |sc| * SizeBits(WNAF_BITS, bucketWindow + 1) <= wnaf.Length && |sc| <= ps.Length
    requires buckets as object != wnaf as object && buckets as object != ps as object && wnaf as object != ps as object
    modifies buckets, wnaf, ps
    ensures r == Lin(g, sc, pt)
  {
    hide IsAbelian, Lin, Mul, Recoded, SizeBits, Value, Weighted, Column, Tails, TableSize, Pow2, Points, Scalars, GoodColumn;
    var w := bucketWindow + 1;
    var nWnaf := SizeBits(WNAF_BITS, w);
    SizeBitsBounds(WNAF_BITS, w);
    var no := RecodeAll(g, wnaf, ps, sc, pt, w);
    ghost var digits, states := wnaf[..], ps[..no];
    r := g.zero;
    PrefixesFit(no, |sc|, nWnaf, wnaf.Length);
    if no == 0 {
      LinZeros(g, Scalars(states, sc), Points(states, pt));
      return;
    }
    ghost var qs := Points(states, pt);
    TailsEnd(g, digits, states, qs, nWnaf, w);
    var i := nWnaf;
    while i > 0
      invariant 0 <= i <= nWnaf
      invariant wnaf[..] == digits && ps[..no] == states
      invariant r == Lin(g, Tails(digits, states, nWnaf, i, w), qs)
    {
      i := i - 1;
      RecodedDigits(digits, states, sc, nWnaf, i, w);
      Scatter(g, buckets, wnaf, ps, pt, no, nWnaf, i, bucketWindow);
      r := Accumulate(g, buckets, r, bucketWindow);
      TailsStep(g, digits, states, qs, nWnaf, i, w);
    }
    TailsWhole(digits, states, sc, nWnaf, w);
  }
}
