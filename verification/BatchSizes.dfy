/** How many points a scratch space can hold, and how points are divided into batches
(ecmult_impl.h). Object sizes are those of a 64-bit machine with 32-bit limbs. */
module BatchSizes {
  import opened Numbers
  import opened Recoding
  import opened ScratchSpace
  import opened Wrappers

  const SIZE_GE: nat := 84
  const SIZE_GEJ: nat := 124
  const SIZE_FE: nat := 40
  const SIZE_SCALAR: nat := 32
  const SIZE_INT: nat := 4
  const SIZE_PIPPENGER_STATE: nat := 16
  const SIZE_PIPPENGER_POINT: nat := 16
  const SIZE_STRAUSS_POINT: nat := 1040

  const MAX_POINTS_PER_BATCH: nat := 10_000_000
  const MAX_BUCKET_WINDOW: nat := 12
  const SCRATCH_OBJECTS: nat := 6

  /** `secp256k1_pippenger_bucket_window` */
  function BucketWindow(n: nat): (w: nat)
    ensures 1 <= w <= MAX_BUCKET_WINDOW
  {
    if n <= 1 then 1
    else if n <= 11 then 2
    else if n <= 45 then 3
    else if n <= 100 then 4
    else if n <= 275 then 5
    else if n <= 625 then 6
    else if n <= 1850 then 7
    else if n <= 3400 then 8
    else if n <= 9630 then 9
    else if n <= 17900 then 10
    else if n <= 32800 then 11
    else MAX_BUCKET_WINDOW
  }

  /** `secp256k1_pippenger_bucket_window_inv` */
  function BucketWindowInv(w: nat): nat {
    match w
    case 1 => 1
    case 2 => 11
    case 3 => 45
    case 4 => 100
    case 5 => 275
    case 6 => 625
    case 7 => 1850
    case 8 => 3400
    case 9 => 9630
    case 10 => 17900
    case 11 => 32800
    case 12 => SIZE_MOD - 1
    case _ => 0
  }

  /** The two tables are inverse: w is the window for exactly the counts between the inverse
  of w - 1 and the inverse of w. */
  lemma BucketWindowInverse(n: nat, w: nat)
    requires 1 <= w <= MAX_BUCKET_WINDOW && 1 <= n < SIZE_MOD
    ensures BucketWindow(n) == w <==> BucketWindowInv(w - 1) < n <= BucketWindowInv(w)
  {
  }

  function EntrySize(w: nat): nat {
    SIZE_GE + SIZE_SCALAR + SIZE_PIPPENGER_POINT + (SizeBits(WNAF_BITS, w + 1) + 1) * SIZE_INT
  }

  function BucketSize(w: nat): (r: nat) {
    assert Pow2(w) > 0;
    SIZE_GEJ * Pow2(w)
  }

  /** `secp256k1_pippenger_scratch_size` */
  function PippengerScratchSize(n: nat, w: nat): nat {
    BucketSize(w) + SIZE_PIPPENGER_STATE + (n + 1) * EntrySize(w)
  }

  /** `secp256k1_strauss_scratch_size` */
  function StraussScratchSize(n: nat): nat {
    n * ((SIZE_GE + SIZE_GEJ + SIZE_FE) * 8 + SIZE_STRAUSS_POINT + SIZE_GEJ + SIZE_SCALAR)
  }

  /** n points can be multiplied by the bucket method in a frame of the given size. */
  predicate Fits(n: nat, space: nat) {
    PippengerScratchSize(n, BucketWindow(n)) <= space
  }

  /** A count that belongs to window w fits exactly if there is space for its entries. */
  lemma WindowFits(w: nat, n: nat, space: nat)
    requires 1 <= w <= MAX_BUCKET_WINDOW && BucketWindowInv(w - 1) < n <= BucketWindowInv(w)
    ensures EntrySize(w) >= SIZE_GE
    ensures var overhead := BucketSize(w) + EntrySize(w) + SIZE_PIPPENGER_STATE;
            Fits(n, space) <==> overhead <= space && n <= (space - overhead) / EntrySize(w)
  {
    BucketWindowInverse(n, w);
    hide BucketWindow, BucketWindowInv, BucketSize;
    EntrySizePositive(w);
    hide EntrySize;
    var overhead := BucketSize(w) + EntrySize(w) + SIZE_PIPPENGER_STATE;
    assert (n + 1) * EntrySize(w) == n * EntrySize(w) + EntrySize(w);
    if overhead <= space {
      QuotientAtLeast(n, space - overhead, EntrySize(w));
    }
  }

  lemma QuotientAtLeast(n: nat, space: nat, size: nat)
    requires size > 0
    ensures n * size <= space <==> n <= space / size
  {
    if n <= space / size {
      MulMonotone(n, space / size, size);
    } else {
      MulMonotone(space / size + 1, n, size);
    }
  }

  lemma EntrySizePositive(w: nat)
    ensures EntrySize(w) >= SIZE_GE
  {
  }

  lemma WindowsIncrease(w: nat)
    requires 1 <= w <= MAX_BUCKET_WINDOW
    ensures BucketWindowInv(w - 1) < BucketWindowInv(w) < SIZE_MOD
    ensures w == MAX_BUCKET_WINDOW <==> BucketWindowInv(w) == SIZE_MOD - 1
    ensures BucketWindowInv(0) == 0
  {
  }

  lemma SmallQuotient(space: nat, overhead: nat, size: nat)
    requires 2 <= size && 0 < overhead <= space < SIZE_MOD
    ensures 0 <= (space - overhead) / size < SIZE_MOD - 1
  {
    DivLess(space - overhead, size, SIZE_MOD - 1);
  }

  /** `secp256k1_pippenger_max_points`: a batch fits exactly up to this number of points, and
  so do all smaller batches. */
  method PippengerMaxPoints(space: nat) returns (res: nat)
    requires space < SIZE_MOD
    ensures forall n :: 1 <= n <= res ==> Fits(n, space)
    ensures res < SIZE_MOD - 1 && !Fits(res + 1, space)
  {
    WindowsIncrease(1);
    hide BucketWindow, BucketWindowInv, PippengerScratchSize, EntrySize, BucketSize, Fits;
    res := 0;
    var w := 1;
    while w <= MAX_BUCKET_WINDOW
      invariant 1 <= w <= MAX_BUCKET_WINDOW
      invariant res == BucketWindowInv(w - 1)
      invariant forall n :: 1 <= n <= res ==> Fits(n, space)
    {
      var maxPoints := BucketWindowInv(w);
      var entrySize := EntrySize(w);
      var overhead := BucketSize(w) + entrySize + SIZE_PIPPENGER_STATE;
      WindowsIncrease(w);
      EntrySizePositive(w);
      forall n | BucketWindowInv(w - 1) < n <= BucketWindowInv(w)
        ensures Fits(n, space) <==> overhead <= space && n <= (space - overhead) / entrySize
      {
        WindowFits(w, n, space);
      }
      if overhead > space {
        assert !Fits(res + 1, space);
        break;
      }
      var nPoints := (space - overhead) / entrySize;
      SmallQuotient(space, overhead, entrySize);
      nPoints := if nPoints > maxPoints then maxPoints else nPoints;
      if nPoints > res {
        res := nPoints;
      }
      if nPoints < maxPoints {
        assert !Fits(res + 1, space);
        break;
      }
      w := w + 1;
    }
  }

  /** `secp256k1_strauss_max_points` */
  function StraussMaxPoints(space: nat): (res: nat)
    ensures forall n: nat :: n <= res <==> StraussScratchSize(n) <= space
  {
    forall n: nat ensures n <= space / StraussScratchSize(1) <==> StraussScratchSize(n) <= space {
      QuotientAtLeast(n, space, StraussScratchSize(1));
    }
    space / StraussScratchSize(1)
  }

  /** Number of batches and points per batch. */
  datatype Plan = Plan(batches: nat, points: nat)

  /** n points split into this many batches of this size, of which only the last may be
  smaller, none is empty, and no batch exceeds the maximum. */
  ghost predicate Splits(plan: Plan, maxPoints: nat, n: nat) {
    && 1 <= plan.points <= maxPoints && plan.points <= MAX_POINTS_PER_BATCH && 1 <= plan.batches
    && (plan.batches - 1) * plan.points < n <= plan.batches * plan.points
  }

  function Limit(maxPoints: nat): nat {
    if maxPoints > MAX_POINTS_PER_BATCH then MAX_POINTS_PER_BATCH else maxPoints
  }

  /** `secp256k1_ecmult_multi_batch_size_helper` fails only without space; fewer batches, or
  smaller ones, would not cover n points. */
  method BatchSizeHelper(maxPoints: nat, n: nat) returns (plan: Option<Plan>)
    ensures plan.None? <==> maxPoints == 0
    ensures plan.Some? && n == 0 ==> plan.value == Plan(0, 0)
    ensures plan.Some? && n > 0 ==> Splits(plan.value, maxPoints, n)
    ensures plan.Some? && n > 0 ==> (plan.value.batches - 1) * Limit(maxPoints) < n && plan.value.batches * (plan.value.points - 1) < n
  {
    if maxPoints == 0 {
      return None;
    }
    var max := maxPoints;
    if max > MAX_POINTS_PER_BATCH {
      max := MAX_POINTS_PER_BATCH;
    }
    if n == 0 {
      return Some(Plan(0, 0));
    }
    var batches := 1 + (n - 1) / max;
    var points := 1 + (n - 1) / batches;
    CeilDiv(n, max);
    CeilDiv(n, batches);
    // As max * batches covers n, no batch needs more than max points.
    if points > max { MulMonotone(max, points - 1, batches); }
    MulMonotone(points, max, batches - 1);
    return Some(Plan(batches, points));
  }

  lemma CeilDiv(n: nat, d: nat)
    requires n > 0 && d > 0
    ensures var q := 1 + (n - 1) / d; d * (q - 1) < n <= d * q && (q - 1) * d < n <= q * d
  {
    var q := (n - 1) / d;
    assert n - 1 == d * q + (n - 1) % d;
    assert d * (q + 1) == d * q + d;
  }

  /** Frame sizes stay far from wrapping around. */
  lemma FramesAreSmall(n: nat)
    requires n <= MAX_POINTS_PER_BATCH
    ensures StraussScratchSize(n) <= SIZE_MOD / 4
    ensures PippengerScratchSize(n, BucketWindow(n)) <= SIZE_MOD / 4
  {
    var w := BucketWindow(n);
    BucketSizeBound(w);
    EntrySizeBound(w);
    hide BucketWindow, EntrySize, BucketSize;
    MulMonotone(EntrySize(w), 2000, n + 1);
  }

  lemma EntrySizeBound(w: nat)
    ensures SIZE_GE <= EntrySize(w) <= 2000
  {
    SizeBitsBounds(WNAF_BITS, w + 1);
    SizeBitsSmall(SizeBits(WNAF_BITS, w + 1), w);
  }

  lemma SizeBitsSmall(size: nat, w: nat)
    requires (w + 1) * size < WNAF_BITS + w + 1
    ensures size <= WNAF_BITS
  {
    if size > WNAF_BITS { MulMonotone(WNAF_BITS + 1, size, w + 1); }
  }

  lemma BucketSizeBound(w: nat)
    requires w <= MAX_BUCKET_WINDOW
    ensures BucketSize(w) <= SIZE_GEJ * 0x1_0000
  {
    Pow2Values();
    Pow2Monotone(w, 16);
  }
}
