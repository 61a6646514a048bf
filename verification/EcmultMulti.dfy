/** Multiplication of many points in batches over a scratch space (`secp256k1_ecmult_multi_var`
of ecmult_impl.h). */
module EcmultMulti {
  import opened Groups
  import opened Numbers
  import opened Recoding
  import opened OddTables
  import opened ScratchSpace
  import opened BatchSizes
  import opened Wrappers
  import Strauss
  import Pippenger

  /** What the callback delivers for an index. */
  datatype Term = Term(scalar: nat, point: Point)

  type Callback = nat -> Option<Term>

  /** The callback delivers scalars below the order and points of the group. */
  ghost predicate IsCallback(g: Group, cb: Callback) {
    forall k :: cb(k).Some? ==> cb(k).value.scalar < N && Mul(g, N, cb(k).value.point) == g.zero
  }

  /** The callback does not fail on n indices from `offset` on. */
  ghost predicate Delivers(cb: Callback, offset: nat, n: nat) {
    forall k :: offset <= k < offset + n ==> cb(k).Some?
  }

  ghost function Scalars(cb: Callback, offset: nat, n: nat): (r: seq<nat>)
    requires Delivers(cb, offset, n)
    ensures |r| == n
  {
    seq<nat>(n, k requires 0 <= k < n => cb(offset + k).value.scalar)
  }

  ghost function Points(cb: Callback, offset: nat, n: nat): (r: seq<Point>)
    requires Delivers(cb, offset, n)
    ensures |r| == n
  {
    seq(n, k requires 0 <= k < n => cb(offset + k).value.point)
  }

  /** The sum that everything below computes in one way or another. */
  ghost function MultiSum(g: Group, cb: Callback, offset: nat, n: nat): Point
    requires Delivers(cb, offset, n)
  {
    Lin(g, Scalars(cb, offset, n), Points(cb, offset, n))
  }

  lemma SumStep(g: Group, cb: Callback, offset: nat, n: nat)
    requires Delivers(cb, offset, n + 1)
    ensures Delivers(cb, offset, n)
    ensures MultiSum(g, cb, offset, n + 1)
            == g.add(MultiSum(g, cb, offset, n), Mul(g, cb(offset + n).value.scalar, cb(offset + n).value.point))
  {
    hide Lin, Mul;
    assert Scalars(cb, offset, n + 1) == Scalars(cb, offset, n) + [cb(offset + n).value.scalar];
    assert Points(cb, offset, n + 1) == Points(cb, offset, n) + [cb(offset + n).value.point];
    LinSnoc(g, Scalars(cb, offset, n), Points(cb, offset, n), cb(offset + n).value.scalar, cb(offset + n).value.point);
  }

  /** Consecutive batches add up. */
  lemma SumSplit(g: Group, cb: Callback, offset: nat, m: nat, n: nat)
    requires IsAbelian(g) && Delivers(cb, offset, m) && Delivers(cb, offset + m, n)
    ensures Delivers(cb, offset, m + n)
    ensures MultiSum(g, cb, offset, m + n) == g.add(MultiSum(g, cb, offset, m), MultiSum(g, cb, offset + m, n))
  {
    hide Lin, IsAbelian;
    assert Scalars(cb, offset, m + n) == Scalars(cb, offset, m) + Scalars(cb, offset + m, n);
    assert Points(cb, offset, m + n) == Points(cb, offset, m) + Points(cb, offset + m, n);
    LinAppend(g, Scalars(cb, offset, m), Points(cb, offset, m), Scalars(cb, offset + m, n), Points(cb, offset + m, n));
  }

  lemma SumEmpty(g: Group, cb: Callback, offset: nat)
    ensures Delivers(cb, offset, 0) && MultiSum(g, cb, offset, 0) == g.zero
  {
  }

  /** The scalar for the generator, if there is one. */
  function ScalarOf(ng: Option<nat>): nat {
    Strauss.ScalarOf(ng)
  }

  /** offset, offset + 1, ..., offset + n - 1 */
  ghost function Indices(offset: nat, n: nat): seq<nat> {
    seq(n, k => offset + k)
  }

  /** What a batch promises, apart from when it succeeds. */
  ghost predicate BatchResult(g: Group, generator: Point, ng: Option<nat>, cb: Callback, offset: nat, n: nat,
                              r: Point, calls: seq<nat>)
  {
    && Delivers(cb, offset, n)
    && r == g.add(MultiSum(g, cb, offset, n), Mul(g, ScalarOf(ng), generator))
    && calls == Indices(offset, n)
  }

  /** The result of all batches: every index is asked once, in order, and the sum is over what
  the callback delivers, plus the multiple of the generator if its scalar is given. */
  lemma ResultMeans(g: Group, generator: Point, ng: Option<nat>, cb: Callback, n: nat, r: Point, calls: seq<nat>,
                    ks: seq<int>, ps: seq<Point>)
    requires IsAbelian(g) && BatchResult(g, generator, ng, cb, 0, n, r, calls)
    requires |ks| == |ps| == n
    requires forall k :: 0 <= k < n && cb(k).Some? ==> ks[k] == cb(k).value.scalar && ps[k] == cb(k).value.point
    ensures |calls| == n && forall k :: 0 <= k < n ==> calls[k] == k && cb(k).Some?
    ensures r == match ng case None => Lin(g, ks, ps) case Some(k) => g.add(Lin(g, ks, ps), Mul(g, k, generator))
  {
    hide Lin, Mul, IsAbelian;
    assert Scalars(cb, 0, n) == ks && Points(cb, 0, n) == ps;
    NoGenerator(g, generator, Lin(g, ks, ps));
  }

  /** A context with its table of odd multiples of the generator, as read by the methods below. */
  ghost predicate IsContext(g: Group, preG: array<Point>, generator: Point)
    reads preG
  {
    && IsAbelian(g) && Mul(g, N, generator) == g.zero
    && preG.Length == TableSize(Strauss.WINDOW_G) && IsOddTable(g, preG[..], generator)
  }

  // ---------- one point at a time ----------

  /** `secp256k1_ecmult`: na * a + ng * G. */
  method Ecmult(g: Group, preG: array<Point>, generator: Point, a: Point, na: nat, ng: Option<nat>) returns (r: Point)
    requires IsContext(g, preG, generator)
    requires na < N && ScalarOf(ng) < N && Mul(g, N, a) == g.zero
    ensures r == g.add(Mul(g, na, a), Mul(g, ScalarOf(ng), generator))
  {
    hide IsAbelian, IsOddTable, Mul, Lin;
    var preA := new Point[TableSize(Strauss.WINDOW_A)](_ => g.zero);
    var ps := new Strauss.PointState[1](_ => Strauss.PointState([], 0, 0));
    r := Strauss.StraussWnaf(g, preG, generator, preA, ps, [na], [a], ng);
    LinSingle(g, na, a);
  }

  lemma LinSingle(g: Group, k: int, p: Point)
    requires IsAbelian(g)
    ensures Lin(g, [k], [p]) == Mul(g, k, p)
  {
    LinSnoc(g, [], [], k, p);
    LinEmpty(g);
    assert [] + [k] == [k] && [] + [p] == [p];
    Unit(g, Mul(g, k, p));
  }

  /** `secp256k1_ecmult_multi_simple_var`, which fails only when the callback does. */
  method MultiSimple(g: Group, preG: array<Point>, generator: Point, ng: Option<nat>, cb: Callback, n: nat)
    returns (ok: bool, r: Point, ghost calls: seq<nat>)
    requires IsContext(g, preG, generator) && IsCallback(g, cb) && ScalarOf(ng) < N
    ensures ok <==> Delivers(cb, 0, n)
    ensures ok ==> BatchResult(g, generator, ng, cb, 0, n, r, calls)
  {
    hide IsAbelian, IsOddTable, Mul, MultiSum;
    ghost var base := Mul(g, ScalarOf(ng), generator);
    MulZeroPoint(g, N);
    MulZeroPoint(g, 0);
    Unit(g, base);
    SumEmpty(g, cb, 0);
    r := Ecmult(g, preG, generator, g.zero, 0, ng);
    calls := [];
    var index := 0;
    while index < n
      invariant 0 <= index <= n && Delivers(cb, 0, index)
      invariant r == g.add(MultiSum(g, cb, 0, index), base)
      invariant calls == Indices(0, index)
    {
      var t := cb(index);
      calls := calls + [index];
      if t.None? {
        return false, r, calls;
      }
      var m := Ecmult(g, preG, generator, t.value.point, t.value.scalar, None);
      SumStep(g, cb, 0, index);
      NoGenerator(g, generator, Mul(g, t.value.scalar, t.value.point));
      SwapLast(g, MultiSum(g, cb, 0, index), base, m);
      r := g.add(r, m);
      index := index + 1;
    }
    ok := true;
  }

  lemma NoGenerator(g: Group, generator: Point, p: Point)
    requires IsAbelian(g)
    ensures g.add(p, Mul(g, ScalarOf(None), generator)) == p
  {
    Unit(g, p);
  }

  // ---------- batches ----------

  /** The six objects of a batch fit its frame, whatever rounding does to each of them. */
  method AllocateObjects(scratch: Scratch, sizes: seq<nat>, total: nat)
    requires scratch.Valid() && scratch.frame > 0 && |sizes| == SCRATCH_OBJECTS
    requires scratch.frameSize[scratch.frame - 1] == total + SCRATCH_OBJECTS * ALIGNMENT <= SIZE_MOD / 2
    requires scratch.offset[scratch.frame - 1] == 0
    requires sizes[0] + sizes[1] + sizes[2] + sizes[3] + sizes[4] + sizes[5] <= total
    modifies scratch`offset
    ensures scratch.Valid()
  {
    ghost var used := 0;
    for i := 0 to SCRATCH_OBJECTS
      invariant scratch.Valid()
      invariant used == Partial(sizes, i) && scratch.offset[scratch.frame - 1] <= used + i * ALIGNMENT
    {
      PartialStep(sizes, i);
      ObjectsFit(scratch.offset[scratch.frame - 1], sizes[i], used, total, i);
      var at := scratch.Alloc(sizes[i]);
      assert at.Some?;
      used := used + sizes[i];
    }
  }

  ghost function Partial(sizes: seq<nat>, i: nat): nat
    requires i <= |sizes|
  {
    Sum(sizes[..i])
  }

  lemma PartialStep(sizes: seq<nat>, i: nat)
    requires |sizes| == SCRATCH_OBJECTS && i < SCRATCH_OBJECTS
    ensures Partial(sizes, i + 1) == Partial(sizes, i) + sizes[i]
    ensures Partial(sizes, i) + sizes[i] <= sizes[0] + sizes[1] + sizes[2] + sizes[3] + sizes[4] + sizes[5]
  {
    assert forall k :: 0 <= k < SCRATCH_OBJECTS ==> sizes[..k + 1][..k] == sizes[..k];
    assert Partial(sizes, 0) == 0;
    assert Partial(sizes, 1) == sizes[0];
    assert Partial(sizes, 2) == sizes[0] + sizes[1];
    assert Partial(sizes, 3) == sizes[0] + sizes[1] + sizes[2];
    assert Partial(sizes, 4) == sizes[0] + sizes[1] + sizes[2] + sizes[3];
    assert Partial(sizes, 5) == sizes[0] + sizes[1] + sizes[2] + sizes[3] + sizes[4];
    assert Partial(sizes, 6) == sizes[0] + sizes[1] + sizes[2] + sizes[3] + sizes[4] + sizes[5];
  }

  /** Fetches the terms of a batch behind those already stored. */
  method Fetch(g: Group, cb: Callback, offset: nat, n: nat, scalars: array<nat>, points: array<Point>, start: nat)
    returns (ok: bool, ghost calls: seq<nat>)
    requires IsCallback(g, cb) && start + n <= scalars.Length && start + n <= points.Length
    requires scalars as object != points as object
    modifies scalars, points
    ensures ok <==> Delivers(cb, offset, n)
    ensures scalars[..start] == old(scalars[..start]) && points[..start] == old(points[..start])
    ensures ok ==> scalars[start..start + n] == Scalars(cb, offset, n) && points[start..start + n] == Points(cb, offset, n)
    ensures ok ==> calls == Indices(offset, n)
  {
    hide Mul;
    calls := [];
    var index := 0;
    while index < n
      invariant 0 <= index <= n && Delivers(cb, offset, index)
      invariant scalars[..start] == old(scalars[..start]) && points[..start] == old(points[..start])
      invariant scalars[start..start + index] == Scalars(cb, offset, index)
      invariant points[start..start + index] == Points(cb, offset, index)
      invariant calls == Indices(offset, index)
    {
      var t := cb(index + offset);
      calls := calls + [index + offset];
      if t.None? {
        return false, calls;
      }
      scalars[start + index] := t.value.scalar;
      points[start + index] := t.value.point;
      assert scalars[start..start + index + 1] == scalars[start..start + index] + [t.value.scalar];
      assert points[start..start + index + 1] == points[start..start + index] + [t.value.point];
      index := index + 1;
    }
    ok := true;
  }

  lemma ResultDelivers(g: Group, generator: Point, ng: Option<nat>, cb: Callback, offset: nat, n: nat,
                       r: Point, calls: seq<nat>)
    requires BatchResult(g, generator, ng, cb, offset, n, r, calls)
    ensures Delivers(cb, offset, n)
  {
  }

  lemma EmptyResult(g: Group, generator: Point, cb: Callback, offset: nat)
    requires IsAbelian(g)
    ensures BatchResult(g, generator, None, cb, offset, 0, g.zero, [])
  {
    SumEmpty(g, cb, offset);
    Unit(g, g.zero);
  }

  /** The part of a batch that works in the frame: fetches the terms and multiplies. */
  method StraussInFrame(g: Group, preG: array<Point>, generator: Point, ng: Option<nat>, cb: Callback, n: nat, offset: nat)
    returns (ok: bool, r: Point, ghost calls: seq<nat>)
    requires IsContext(g, preG, generator) && IsCallback(g, cb) && ScalarOf(ng) < N
    ensures ok <==> Delivers(cb, offset, n)
    ensures ok ==> BatchResult(g, generator, ng, cb, offset, n, r, calls)
  {
    hide IsAbelian, IsOddTable, Mul, Lin, MultiSum, IsCallback, Delivers, Indices;
    r := g.zero;
    var points := new Point[n](_ => g.zero);
    var scalars := new nat[n](_ => 0);
    ok, calls := Fetch(g, cb, offset, n, scalars, points, 0);
    if !ok {
      return;
    }
    var preA := new Point[n * 8](_ => g.zero);
    var ps := new Strauss.PointState[n](_ => Strauss.PointState([], 0, 0));
    assert scalars[0..0 + n] == scalars[..] && points[0..0 + n] == points[..];
    Pow2Small();
    Pow2Last(3);
    TermsAreGood(g, cb, offset, n);
    r := Strauss.StraussWnaf(g, preG, generator, preA, ps, scalars[..], points[..], ng);
    SumIsLin(g, cb, offset, n);
  }

  function StraussObjects(n: nat): seq<nat> {
    [n * SIZE_GEJ, n * SIZE_SCALAR, n * 8 * SIZE_GEJ, n * 8 * SIZE_FE, n * 8 * SIZE_GE, n * SIZE_STRAUSS_POINT]
  }

  /** `secp256k1_ecmult_strauss_batch`; every exit leaves the frames as they were. */
  method StraussBatch(g: Group, preG: array<Point>, generator: Point, scratch: Scratch, memory: bool,
                      ng: Option<nat>, cb: Callback, n: nat, offset: nat)
    returns (ok: bool, r: Point, ghost calls: seq<nat>)
    requires IsContext(g, preG, generator) && IsCallback(g, cb) && ScalarOf(ng) < N
    requires scratch.Valid() && scratch.frame < MAX_FRAMES && n <= MAX_POINTS_PER_BATCH
    modifies scratch
    ensures scratch.Valid() && scratch.frame == old(scratch.frame)
    ensures scratch.frameSize[..scratch.frame] == old(scratch.frameSize[..scratch.frame])
    ensures ok <==> (ng.None? && n == 0)
                    || (StraussScratchSize(n) <= old(scratch.Available(SCRATCH_OBJECTS)) && memory && Delivers(cb, offset, n))
    ensures ok ==> BatchResult(g, generator, ng, cb, offset, n, r, calls)
  {
    hide IsAbelian, IsOddTable, Mul, IsCallback, Delivers, BatchResult, BucketWindow;
    r, calls := g.zero, [];
    if ng.None? && n == 0 {
      EmptyResult(g, generator, cb, offset);
      return true, r, calls;
    }
    FramesAreSmall(n);
    ok := scratch.AllocateFrame(StraussScratchSize(n), SCRATCH_OBJECTS, memory);
    if !ok {
      return;
    }
    AllocateObjects(scratch, StraussObjects(n), StraussScratchSize(n));
    ok, r, calls := StraussInFrame(g, preG, generator, ng, cb, n, offset);
    scratch.DeallocateFrame();
  }

  lemma TermsAreGood(g: Group, cb: Callback, offset: nat, n: nat)
    requires IsCallback(g, cb) && Delivers(cb, offset, n)
    ensures forall k :: 0 <= k < n ==> Scalars(cb, offset, n)[k] < N
    ensures forall k :: 0 <= k < n ==> Mul(g, N, Points(cb, offset, n)[k]) == g.zero
  {
    hide Mul;
  }

  lemma SumIsLin(g: Group, cb: Callback, offset: nat, n: nat)
    requires Delivers(cb, offset, n)
    ensures MultiSum(g, cb, offset, n) == Lin(g, Scalars(cb, offset, n), Points(cb, offset, n))
  {
  }

  lemma EntryTerms(entries: nat, size: nat)
    ensures entries * (SIZE_GE + SIZE_SCALAR + SIZE_PIPPENGER_POINT + (size + 1) * SIZE_INT)
            == entries * SIZE_GE + entries * SIZE_SCALAR + entries * SIZE_PIPPENGER_POINT
               + entries * size * SIZE_INT + entries * SIZE_INT
    ensures entries * size >= 0
  {
  }

  /** The part of a batch that works in the frame: fetches the terms and multiplies. */
  method PippengerInFrame(g: Group, generator: Point, ng: Option<nat>, cb: Callback, n: nat, offset: nat, w: nat)
    returns (ok: bool, r: Point, ghost calls: seq<nat>)
    requires IsAbelian(g) && IsCallback(g, cb) && ScalarOf(ng) < N && 1 <= w <= MAX_BUCKET_WINDOW
    ensures ok <==> Delivers(cb, offset, n)
    ensures ok ==> BatchResult(g, generator, ng, cb, offset, n, r, calls)
  {
    hide IsAbelian, Mul, Lin, MultiSum, IsCallback, Delivers, SizeBits, Pow2, Indices;
    r := g.zero;
    var entries := n + 1;
    var points := new Point[entries](_ => g.zero);
    var scalars := new nat[entries](_ => 0);
    var idx := 0;
    if ng.Some? {
      scalars[0] := ng.value;
      points[0] := generator;
      idx := 1;
    }
    ghost var first, firstPoint := scalars[..idx], points[..idx];
    ok, calls := Fetch(g, cb, offset, n, scalars, points, idx);
    if !ok {
      return;
    }
    var sc, pt := scalars[..idx + n], points[..idx + n];
    assert sc == first + Scalars(cb, offset, n) && pt == firstPoint + Points(cb, offset, n);
    TermsAreGood(g, cb, offset, n);
    WithGenerator(g, generator, ng, cb, offset, n);
    assert first == (if ng.Some? then [ng.value] else []) && firstPoint == (if ng.Some? then [generator] else []);
    r := PippengerSum(g, sc, pt, entries, w);
  }

  /** Multiplies with working space for `entries` points. */
  method PippengerSum(g: Group, sc: seq<nat>, pt: seq<Point>, entries: nat, w: nat) returns (r: Point)
    requires IsAbelian(g) && 1 <= w <= MAX_BUCKET_WINDOW && |sc| == |pt| <= entries
    requires forall k :: 0 <= k < |sc| ==> sc[k] < N
    ensures r == Lin(g, sc, pt)
  {
    hide IsAbelian, Lin, SizeBits, Pow2;
    var size := SizeBits(WNAF_BITS, w + 1);
    var ps := new Pippenger.PointState[entries](_ => Pippenger.PointState(0, 0));
    MulMonotone(|sc|, entries, size);
    var wnaf := new int[entries * size](_ => 0);
    var buckets := new Point[Pow2(w)](_ => g.zero);
    r := Pippenger.PippengerWnaf(g, buckets, w, wnaf, ps, sc, pt);
  }

  function PippengerObjects(n: nat, w: nat): seq<nat> {
    [(n + 1) * SIZE_GE, (n + 1) * SIZE_SCALAR, SIZE_PIPPENGER_STATE, (n + 1) * SIZE_PIPPENGER_POINT,
     (n + 1) * SizeBits(WNAF_BITS, w + 1) * SIZE_INT, BucketSize(w)]
  }

  /** The objects of the bucket method fit the size of its frame. */
  lemma PippengerFrame(n: nat, w: nat)
    ensures var sizes := PippengerObjects(n, w);
            |sizes| == SCRATCH_OBJECTS
            && sizes[0] + sizes[1] + sizes[2] + sizes[3] + sizes[4] + sizes[5] <= PippengerScratchSize(n, w)
  {
    hide SizeBits, BucketSize;
    EntryTerms(n + 1, SizeBits(WNAF_BITS, w + 1));
  }

  /** `secp256k1_ecmult_pippenger_batch`; every exit leaves the frames as they were. */
  method PippengerBatch(g: Group, generator: Point, scratch: Scratch, memory: bool,
                        ng: Option<nat>, cb: Callback, n: nat, offset: nat)
    returns (ok: bool, r: Point, ghost calls: seq<nat>)
    requires IsAbelian(g) && IsCallback(g, cb) && ScalarOf(ng) < N
    requires scratch.Valid() && scratch.frame < MAX_FRAMES && n <= MAX_POINTS_PER_BATCH
    modifies scratch
    ensures scratch.Valid() && scratch.frame == old(scratch.frame)
    ensures scratch.frameSize[..scratch.frame] == old(scratch.frameSize[..scratch.frame])
    ensures ok <==> (ng.None? && n == 0)
                    || (Fits(n, old(scratch.Available(SCRATCH_OBJECTS))) && memory && Delivers(cb, offset, n))
    ensures ok ==> BatchResult(g, generator, ng, cb, offset, n, r, calls)
  {
    hide IsAbelian, Mul, IsCallback, Delivers, BatchResult, BucketWindow, PippengerScratchSize, PippengerObjects;
    r, calls := g.zero, [];
    if ng.None? && n == 0 {
      EmptyResult(g, generator, cb, offset);
      return true, r, calls;
    }
    var w := BucketWindow(n);
    FramesAreSmall(n);
    ok := scratch.AllocateFrame(PippengerScratchSize(n, w), SCRATCH_OBJECTS, memory);
    if !ok {
      return;
    }
    PippengerFrame(n, w);
    AllocateObjects(scratch, PippengerObjects(n, w), PippengerScratchSize(n, w));
    ok, r, calls := PippengerInFrame(g, generator, ng, cb, n, offset, w);
    scratch.DeallocateFrame();
  }

  lemma WithGenerator(g: Group, generator: Point, ng: Option<nat>, cb: Callback, offset: nat, n: nat)
    requires IsAbelian(g) && Delivers(cb, offset, n)
    ensures ng.Some? ==> Lin(g, [ng.value] + Scalars(cb, offset, n), [generator] + Points(cb, offset, n))
                         == g.add(MultiSum(g, cb, offset, n), Mul(g, ScalarOf(ng), generator))
    ensures ng.None? ==> Lin(g, [] + Scalars(cb, offset, n), [] + Points(cb, offset, n))
                         == g.add(MultiSum(g, cb, offset, n), Mul(g, ScalarOf(ng), generator))
  {
    hide IsAbelian, Lin;
    var sc, pt := Scalars(cb, offset, n), Points(cb, offset, n);
    if ng.Some? {
      LinAppend(g, [ng.value], [generator], sc, pt);
      LinSingle(g, ng.value, generator);
      Commutes(g, Mul(g, ng.value, generator), Lin(g, sc, pt));
    } else {
      assert [] + sc == sc && [] + pt == pt;
      Unit(g, Lin(g, sc, pt));
    }
  }

  // ---------- all batches ----------

  const PIPPENGER_THRESHOLD: nat := 160

  /** A space that holds one point by Strauss' method holds one by the bucket method. */
  lemma OnePoint(space: nat)
    ensures StraussScratchSize(1) <= space ==> Fits(1, space)
  {
    assert SizeBits(WNAF_BITS, 2) == 128 && Pow2(1) == 2;
  }

  /** A space that holds 160 points by the bucket method holds one by Strauss' method. */
  lemma ManyPoints(space: nat)
    requires Fits(PIPPENGER_THRESHOLD, space)
    ensures StraussScratchSize(1) <= space
  {
    assert BucketWindow(PIPPENGER_THRESHOLD) == 5 && SizeBits(WNAF_BITS, 6) == 43;
    assert EntrySize(5) == 308;
    hide EntrySize, BucketSize, BucketWindow;
  }

  /** Every batch up to the planned size has its frame. */
  ghost predicate BatchesFit(points: nat, space: nat, pippenger: bool) {
    forall m: nat :: 1 <= m <= points ==> BatchFits(m, space, pippenger)
  }

  predicate BatchFits(m: nat, space: nat, pippenger: bool) {
    if pippenger then Fits(m, space) else StraussScratchSize(m) <= space
  }

  lemma BatchesFitAt(points: nat, space: nat, pippenger: bool, m: nat)
    requires BatchesFit(points, space, pippenger) && 1 <= m <= points
    ensures if pippenger then Fits(m, space) else StraussScratchSize(m) <= space
  {
    assert BatchFits(m, space, pippenger);
  }

  lemma DeliversPart(cb: Callback, n: nat, offset: nat, m: nat)
    requires Delivers(cb, 0, n) && offset + m <= n
    ensures Delivers(cb, offset, m)
  {
  }

  /** Where the next batch starts. */
  lemma NextBatch(plan: Plan, n: nat, i: nat)
    requires Splits(plan, plan.points, n) && i < plan.batches
    ensures plan.points * i < n
    ensures i + 1 < plan.batches ==> plan.points * i + plan.points == plan.points * (i + 1) < n
    ensures i + 1 == plan.batches ==> n <= plan.points * i + plan.points
  {
    MulMonotone(i, plan.batches - 1, plan.points);
    assert plan.points * (i + 1) == plan.points * i + plan.points == (i + 1) * plan.points;
    if i + 1 < plan.batches { MulMonotone(i + 1, plan.batches - 1, plan.points); }
  }

  /** The scalar of the generator is given to the first batch only. */
  lemma Combine(g: Group, generator: Point, ng: Option<nat>, first: bool, cb: Callback, done: nat, m: nat,
                r: Point, calls: seq<nat>, tmp: Point, more: seq<nat>)
    requires IsAbelian(g)
    requires BatchResult(g, generator, if first then None else ng, cb, 0, done, r, calls)
    requires BatchResult(g, generator, if first then ng else None, cb, done, m, tmp, more)
    ensures BatchResult(g, generator, ng, cb, 0, done + m, g.add(r, tmp), calls + more)
  {
    hide IsAbelian, Mul, MultiSum;
    var base := Mul(g, ScalarOf(ng), generator);
    SumSplit(g, cb, 0, done, m);
    var a, b := MultiSum(g, cb, 0, done), MultiSum(g, cb, done, m);
    NoGenerator(g, generator, a);
    NoGenerator(g, generator, b);
    if first {
      Assoc(g, a, b, base);
    } else {
      SwapLast(g, a, base, b);
    }
    assert Indices(0, done) + Indices(done, m) == Indices(0, done + m);
  }

  /** The loop over the batches. */
  method RunBatches(g: Group, preG: array<Point>, generator: Point, scratch: Scratch, memory: nat -> bool,
                    ng: Option<nat>, cb: Callback, n: nat, plan: Plan, pippenger: bool)
    returns (ok: bool, r: Point, ghost calls: seq<nat>)
    requires IsContext(g, preG, generator) && IsCallback(g, cb) && ScalarOf(ng) < N
    requires scratch.Valid() && scratch.frame < MAX_FRAMES && n > 0
    requires Splits(plan, plan.points, n) && BatchesFit(plan.points, scratch.Available(SCRATCH_OBJECTS), pippenger)
    modifies scratch
    ensures scratch.Valid() && scratch.frame == old(scratch.frame)
    ensures scratch.frameSize[..scratch.frame] == old(scratch.frameSize[..scratch.frame])
    ensures ok <==> Delivers(cb, 0, n) && forall i :: 0 <= i < plan.batches ==> memory(i)
    ensures ok ==> BatchResult(g, generator, ng, cb, 0, n, r, calls)
  {
    hide IsAbelian, IsOddTable, Mul, Lin, MultiSum, IsCallback, Delivers, Fits, StraussScratchSize, Indices, Sum, MaxAllocation, BatchResult, BatchesFit;
    r, calls := g.zero, [];
    var left := n;
    var done := 0;
    EmptyResult(g, generator, cb, 0);
    var i := 0;
    while i < plan.batches
      invariant 0 <= i <= plan.batches && left + done == n
      invariant i < plan.batches ==> done == plan.points * i && left > 0
      invariant i == plan.batches ==> left == 0
      invariant scratch.Valid() && scratch.frame == old(scratch.frame)
      invariant scratch.frameSize[..scratch.frame] == old(scratch.frameSize[..scratch.frame])
      invariant forall k :: 0 <= k < i ==> memory(k)
      invariant BatchResult(g, generator, if i == 0 then None else ng, cb, 0, done, r, calls)
    {
      NextBatch(plan, n, i);
      var nbp := if left < plan.points then left else plan.points;
      var offset := plan.points * i;
      BatchesFitAt(plan.points, scratch.Available(SCRATCH_OBJECTS), pippenger, nbp);
      ghost var more;
      var tmp;
      if pippenger {
        ok, tmp, more := PippengerBatch(g, generator, scratch, memory(i), if i == 0 then ng else None, cb, nbp, offset);
      } else {
        ok, tmp, more := StraussBatch(g, preG, generator, scratch, memory(i), if i == 0 then ng else None, cb, nbp, offset);
      }
      if !ok {
        if Delivers(cb, 0, n) { DeliversPart(cb, n, offset, nbp); }
        return;
      }
      Combine(g, generator, ng, i == 0, cb, offset, nbp, r, calls, tmp, more);
      r := g.add(r, tmp);
      calls := calls + more;
      left := left - nbp;
      done := done + nbp;
      i := i + 1;
    }
    ok := true;
    assert Delivers(cb, 0, n) by { ResultDelivers(g, generator, ng, cb, 0, n, r, calls); }
  }

  /** `secp256k1_ecmult_multi_var`. The sum is that of `MultiSimple`; `memory` says for each
  batch whether malloc succeeds. A scratch space without room for a single point by Strauss'
  method fails, and nothing else fails besides callback and malloc. */
  method MultiVar(g: Group, preG: array<Point>, generator: Point, scratch: Scratch?, memory: nat -> bool,
                  ng: Option<nat>, cb: Callback, n: nat)
    returns (ok: bool, r: Point, ghost calls: seq<nat>)
    requires IsContext(g, preG, generator) && IsCallback(g, cb) && ScalarOf(ng) < N
    requires scratch != null ==> scratch.Valid() && scratch.frame < MAX_FRAMES
    modifies scratch
    ensures scratch != null ==> scratch.Valid() && scratch.frame == old(scratch.frame)
    ensures scratch != null ==> scratch.frameSize[..scratch.frame] == old(scratch.frameSize[..scratch.frame])
    ensures ok ==> BatchResult(g, generator, ng, cb, 0, n, r, calls)
    ensures ok ==> n == 0 || scratch == null || StraussScratchSize(1) <= old(scratch.Available(SCRATCH_OBJECTS))
    ensures Delivers(cb, 0, n) && (forall i :: memory(i))
            && (n == 0 || scratch == null || StraussScratchSize(1) <= old(scratch.Available(SCRATCH_OBJECTS)))
            ==> ok
  {
    hide IsAbelian, IsOddTable, Mul, Lin, MultiSum, IsCallback, Delivers, Fits, PippengerScratchSize, StraussScratchSize,
      Indices, BatchResult, MaxAllocation, Sum;
    r, calls := g.zero, [];
    EmptyResult(g, generator, cb, 0);
    if ng.None? && n == 0 {
      return true, r, calls;
    } else if n == 0 {
      r := OnlyGenerator(g, preG, generator, ng, cb);
      return true, r, calls;
    }
    if scratch == null {
      ok, r, calls := MultiSimple(g, preG, generator, ng, cb, n);
      return;
    }
    var space := scratch.MaxAllocationNow(SCRATCH_OBJECTS);
    var maxPoints := PippengerMaxPoints(space);
    var plan := BatchSizeHelper(maxPoints, n);
    OnePoint(space);
    if plan.None? {
      return false, r, calls;
    }
    var pippenger := plan.value.points >= PIPPENGER_THRESHOLD;
    if pippenger {
      ManyPoints(space);
    } else {
      maxPoints := StraussMaxPoints(space);
      plan := BatchSizeHelper(maxPoints, n);
      if plan.None? {
        return false, r, calls;
      }
    }
    assert BatchesFit(plan.value.points, space, pippenger) by { UpToMaxPoints(plan.value.points, maxPoints, space, pippenger); }
    ok, r, calls := RunBatches(g, preG, generator, scratch, memory, ng, cb, n, plan.value, pippenger);
  }

  lemma UpToMaxPoints(points: nat, maxPoints: nat, space: nat, pippenger: bool)
    requires points <= maxPoints
    requires if pippenger then forall n :: 1 <= n <= maxPoints ==> Fits(n, space)
             else forall n: nat :: n <= maxPoints <==> StraussScratchSize(n) <= space
    ensures BatchesFit(points, space, pippenger)
  {
    hide Fits, StraussScratchSize;
  }

  method OnlyGenerator(g: Group, preG: array<Point>, generator: Point, ng: Option<nat>, cb: Callback) returns (r: Point)
    requires IsContext(g, preG, generator) && ScalarOf(ng) < N
    ensures BatchResult(g, generator, ng, cb, 0, 0, r, [])
  {
    hide IsAbelian, IsOddTable, Mul;
    MulZeroPoint(g, N);
    MulZeroPoint(g, 0);
    SumEmpty(g, cb, 0);
    r := Ecmult(g, preG, generator, g.zero, 0, ng);
  }
}
