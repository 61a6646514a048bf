/** Tables of odd multiples in coordinates: the builders of ecmult_impl.h and
`secp256k1_ge_globalz_set_table_gej` of group_impl.h. */
module CurveMultiples {
  import opened Numbers
  import opened Groups
  import opened Field
  import opened Coordinates
  import opened Curve
  import opened CurveTables
  import opened Recoding
  import opened OddTables

  /** The coordinates stand for p when z is t. */
  ghost predicate At(c: Curve, j: Gej, t: int, p: Point) {
    !j.infinity && Finite(c, p) && !IsZero(t) && Scaled(j.x, j.y, t, c.x(p), c.y(p))
  }

  lemma RestStep(t: int, ratio: int, rest: int)
    ensures t * ratio * rest == t * (ratio * rest) && rest * ratio == ratio * rest
  {
  }

  lemma LastAt(c: Curve, a: Gej, t: int, p: Point)
    requires At(c, a, t, p) && t == a.z
    ensures RepresentsGe(c, Ge(a.x, a.y, false), p, a.z) && !IsZero(a.z)
  {
  }

  lemma ScaledTo(c: Curve, a: Gej, t: int, k: int, p: Point)
    requires At(c, a, t, p)
    ensures RepresentsGe(c, Ge(a.x * (k * k), a.y * (k * k * k), a.infinity), p, t * k)
  {
    ScaleBy(a.x, a.y, t, c.x(p), c.y(p), k);
    assert a.y * (k * k) * k == a.y * (k * k * k);
  }

  // ---------- the odd multiples ----------

  /** Neighbouring odd multiples of a point of large order never meet 2p in a degenerate way. */
  lemma NotDegenerate(c: Curve, p: Point, k: nat)
    requires IsCurve(c) && HasOrderN(c.group, p) && 2 * k + 3 < N
    ensures Finite(c, Mul(c.group, 2 * k + 1, p)) && Finite(c, Mul(c.group, 2, p))
    ensures !Eq(c.x(Mul(c.group, 2 * k + 1, p)), c.x(Mul(c.group, 2, p)))
    ensures c.group.add(Mul(c.group, 2 * k + 1, p), Mul(c.group, 2, p)) == Mul(c.group, 2 * (k + 1) + 1, p)
  {
    var g := c.group;
    Facts(c);
    SmallMultiple(g, 2 * k + 1, p);
    SmallMultiple(g, 2, p);
    SmallMultiple(g, 2 * k + 3, p);
    SmallMultiple(g, 2 * k - 1, p);
    MulAdd(g, 2 * k + 1, 2, p);
    MulAdd(g, 2 * k - 1, 2, p);
    assert 2 * k - 1 + 2 == 2 * k + 1;
    var a, b := Mul(g, 2 * k + 1, p), Mul(g, 2, p);
    hide IsCurve, IsAbelian, HasOrderN, Mul, Eq;
    if Eq(c.x(a), c.x(b)) {
      SameXCases(c, a, b);
      if Eq(c.y(b), c.y(a)) {
        EqSymm(c.y(b), c.y(a));
        SamePoint(c, a, b);
        AddNegCancels(g, Mul(g, 2 * k - 1, p), b);
        Unit(g, b);
      } else {
        OppositePoint(c, a, b);
      }
      assert false;
    }
  }

  lemma DoubleIsTwo(c: Curve, p: Point)
    requires IsCurve(c)
    ensures c.group.add(p, p) == Mul(c.group, 2, p) && Mul(c.group, 1, p) == p
  {
    Facts(c);
    MulOne(c.group, p);
  }

  /** The point a on the curve where 2a is affine. */
  lemma FirstMultiple(c: Curve, a: Gej, p: Point, dz: int)
    requires IsCurve(c) && Represents(c, a, p, 1) && !a.infinity && !IsZero(dz)
    ensures Represents(c, Gej(a.x * (dz * dz), a.y * (dz * dz * dz), a.z, false), p, dz)
  {
    Facts(c);
    assert a.z * 1 == a.z;
    ScaleBy(a.x, a.y, a.z, c.x(p), c.y(p), dz);
    assert a.y * (dz * dz) * dz == a.y * (dz * dz * dz);
    NonzeroProduct(c.inv, a.z, dz);
  }

  lemma DoubledAffine(c: Curve, d: Gej, q: Point)
    requires Represents(c, d, q, 1) && !d.infinity
    ensures RepresentsGe(c, Ge(d.x, d.y, false), q, d.z) && !IsZero(d.z)
  {
    assert d.z * 1 == d.z;
  }

  /** Coordinates of the points qs with true z ts, and the ratios rs of neighbouring z. */
  ghost predicate Chain(c: Curve, js: seq<Gej>, rs: seq<int>, ts: seq<int>, qs: seq<Point>) {
    && |js| == |rs| == |ts| == |qs|
    && (forall k :: 0 <= k < |ts| ==> At(c, js[k], ts[k], qs[k]))
    && (forall k :: 0 < k < |ts| ==> ts[k] == ts[k - 1] * rs[k])
  }

  /** p, 3p, 5p, ... */
  ghost function OddPoints(c: Curve, p: Point, n: nat): (qs: seq<Point>)
    ensures |qs| == n
  {
    seq(n, k => Mul(c.group, 2 * k + 1, p))
  }

  lemma ChainAppend(c: Curve, js: seq<Gej>, rs: seq<int>, ts: seq<int>, qs: seq<Point>,
                    js2: seq<Gej>, rs2: seq<int>, ts2: seq<int>, qs2: seq<Point>)
    requires Chain(c, js, rs, ts, qs) && Chain(c, js2, rs2, ts2, qs2)
    requires |ts| > 0 && |ts2| > 0 ==> ts2[0] == ts[|ts| - 1] * rs2[0]
    ensures Chain(c, js + js2, rs + rs2, ts + ts2, qs + qs2)
  {
    hide At;
    forall k | 0 < k < |ts| + |ts2| ensures (ts + ts2)[k] == (ts + ts2)[k - 1] * (rs + rs2)[k] {
      if k < |ts| {
        assert ts[k] == ts[k - 1] * rs[k];
      } else if k > |ts| {
        assert ts2[k - |ts|] == ts2[k - |ts| - 1] * rs2[k - |ts|];
      }
    }
  }

  lemma ChainLastZ(c: Curve, js: seq<Gej>, rs: seq<int>, ts: seq<int>, qs: seq<Point>)
    requires Chain(c, js, rs, ts, qs) && |ts| > 0
    ensures Chain(c, js[|ts| - 1 := js[|ts| - 1].(z := ts[|ts| - 1])], rs, ts, qs)
  {
    hide Eq, IsZero;
  }

  /** The first ratio belongs to no pair. */
  lemma ChainFirstRatio(c: Curve, js: seq<Gej>, rs: seq<int>, ts: seq<int>, qs: seq<Point>, r: int)
    requires Chain(c, js, rs, ts, qs) && |ts| > 0
    ensures Chain(c, js, rs[0 := r], ts, qs)
  {
    hide At;
  }

  lemma ChainOne(c: Curve, j: Gej, r: int, t: int, p: Point)
    requires At(c, j, t, p)
    ensures Chain(c, [j], [r], [t], [p])
  {
  }

  lemma OddPointsSnoc(c: Curve, p: Point, n: nat)
    ensures OddPoints(c, p, n + 1) == OddPoints(c, p, n) + [Mul(c.group, 2 * n + 1, p)]
    ensures OddPoints(c, p, 1) == [Mul(c.group, 1, p)]
  {
    hide Mul;
  }

  /** `secp256k1_ge_globalz_set_table_gej`: from the ratios of neighbouring z alone, all points
  are brought to the z of the last one. The true z are the ghost argument ts. */
  method GeGlobalzSetTableGej(c: Curve, r: array<Ge>, a: seq<Gej>, zr: seq<int>, ghost ts: seq<int>, ghost ps: seq<Point>)
    returns (globalz: int)
    requires Chain(c, a, zr, ts, ps) && |a| > 0 && |a| <= r.Length && ts[|a| - 1] == a[|a| - 1].z
    modifies r
    ensures globalz == a[|a| - 1].z && !IsZero(globalz)
    ensures forall k :: 0 <= k < |a| ==> RepresentsGe(c, r[k], ps[k], globalz)
  {
    hide IsCurve, Eq, IsZero, Scaled, RepresentsGe, At;
    var i := |a| - 1;
    r[i] := Ge(a[i].x, a[i].y, false);
    globalz := a[i].z;
    LastAt(c, a[i], ts[i], ps[i]);
    var zs := zr[i];
    ghost var rest := 1;
    while i > 0
      invariant 0 <= i < |a|
      invariant i == |a| - 1 ==> zs == zr[i] && rest == 1
      invariant i < |a| - 1 ==> zs == rest
      invariant ts[i] * rest == globalz
      invariant forall k :: i <= k < |a| ==> RepresentsGe(c, r[k], ps[k], globalz)
    {
      if i != |a| - 1 {
        zs := zs * zr[i];
      }
      RestStep(ts[i - 1], zr[i], rest);
      rest := zr[i] * rest;
      assert zs == rest;
      i := i - 1;
      r[i] := GeSetGejZinv(a[i], zs);
      ScaledTo(c, a[i], ts[i], zs, ps[i]);
    }
  }

  /** The next odd multiple, on the curve where 2p is affine. */
  method NextMultiple(c: Curve, prev: Gej, dGe: Ge, ghost dz: int, ghost k: nat, ghost p: Point) returns (next: Gej, ratio: int)
    requires IsCurve(c) && HasOrderN(c.group, p) && 2 * k + 3 < N
    requires Represents(c, prev, Mul(c.group, 2 * k + 1, p), dz) && !prev.infinity
    requires RepresentsGe(c, dGe, Mul(c.group, 2, p), dz) && !IsZero(dz)
    ensures Represents(c, next, Mul(c.group, 2 * (k + 1) + 1, p), dz) && !next.infinity
    ensures At(c, next, next.z * dz, Mul(c.group, 2 * (k + 1) + 1, p))
    ensures ratio == dGe.x * (prev.z * prev.z) - prev.x
    ensures next.z * dz == prev.z * dz * ratio
  {
    NotDegenerate(c, p, k);
    hide IsCurve, HasOrderN, Represents, RepresentsGe, IsZero, Eq, Mul;
    next, ratio := GejAddGeVar(c, prev, dGe, Mul(c.group, 2 * k + 1, p), Mul(c.group, 2, p), dz);
    RatioStep(prev.z, ratio, dz);
    RepresentsAt(c, next, dz, Mul(c.group, 2 * (k + 1) + 1, p));
  }

  lemma RatioStep(z: int, ratio: int, dz: int)
    ensures z * ratio * dz == z * dz * ratio
  {
  }

  lemma RepresentsAt(c: Curve, j: Gej, f: int, p: Point)
    requires Represents(c, j, p, f) && !j.infinity
    ensures At(c, j, j.z * f, p)
  {
  }

  /** Doubles a, and moves it to the curve where 2a is affine. */
  method FirstTwo(c: Curve, a: Gej, ghost p: Point) returns (d: Gej, first: Gej)
    requires IsCurve(c) && Represents(c, a, p, 1) && !a.infinity
    ensures !d.infinity && Represents(c, d, Mul(c.group, 2, p), 1)
    ensures RepresentsGe(c, Ge(d.x, d.y, false), Mul(c.group, 2, p), d.z) && !IsZero(d.z)
    ensures first.z == a.z && !first.infinity
    ensures Represents(c, first, Mul(c.group, 1, p), d.z) && At(c, first, a.z * d.z, Mul(c.group, 1, p))
  {
    DoubleIsTwo(c, p);
    hide IsCurve, Represents, RepresentsGe, IsZero, Eq, Mul;
    var ratio;
    d, ratio := GejDoubleVar(c, a, p, 1);
    DoubledAffine(c, d, Mul(c.group, 2, p));
    var aGe := GeSetGejZinv(a, d.z);
    FirstMultiple(c, a, p, d.z);
    first := Gej(aGe.x, aGe.y, a.z, false);
    RepresentsAt(c, first, d.z, p);
  }

  /** `secp256k1_ecmult_odd_multiples_table` for the n entries from `base` on: a, 3a, 5a, ...
  with the ratios of their z. The result ts are the true z, from which all but the last entry
  lack the z of 2a. */
  method OddMultiplesTable(c: Curve, prej: array<Gej>, zr: array<int>, base: nat, n: nat, a: Gej, ghost p: Point)
    returns (ghost ts: seq<int>)
    requires IsCurve(c) && HasOrderN(c.group, p) && Represents(c, a, p, 1) && !a.infinity
    requires 1 <= n && 2 * n + 1 < N && base + n <= prej.Length && base + n <= zr.Length
    requires prej as object != zr as object
    modifies prej, zr
    ensures |ts| == n && Chain(c, prej[base..base + n], zr[base..base + n], ts, OddPoints(c, p, n))
    ensures ts[0] == a.z * zr[base] && ts[n - 1] == prej[base + n - 1].z
    ensures forall j :: 0 <= j < prej.Length && !(base <= j < base + n) ==> prej[j] == old(prej[j])
    ensures forall j :: 0 <= j < zr.Length && !(base <= j < base + n) ==> zr[j] == old(zr[j])
  {
    hide IsCurve, HasOrderN, Represents, RepresentsGe, At, Chain, IsZero, Eq, Mul, OddPoints;
    var d, first := FirstTwo(c, a, p);
    prej[base] := first;
    zr[base] := d.z;
    ts := [a.z * d.z];
    assert prej[base..base + 1] == [first] && zr[base..base + 1] == [d.z];
    ChainOne(c, first, d.z, a.z * d.z, Mul(c.group, 1, p));
    OddPointsSnoc(c, p, 0);
    var i := 1;
    while i < n
      invariant 1 <= i <= n && |ts| == i
      invariant zr[base] == d.z && ts[0] == a.z * d.z
      invariant Chain(c, prej[base..base + i], zr[base..base + i], ts, OddPoints(c, p, i))
      invariant ts[i - 1] == prej[base + i - 1].z * d.z && !prej[base + i - 1].infinity
      invariant Represents(c, prej[base + i - 1], Mul(c.group, 2 * (i - 1) + 1, p), d.z)
      invariant forall j :: 0 <= j < prej.Length && !(base <= j < base + n) ==> prej[j] == old(prej[j])
      invariant forall j :: 0 <= j < zr.Length && !(base <= j < base + n) ==> zr[j] == old(zr[j])
    {
      ghost var js, rs := prej[base..base + i], zr[base..base + i];
      var next, ratio := NextMultiple(c, prej[base + i - 1], Ge(d.x, d.y, false), d.z, i - 1, p);
      ChainOne(c, next, ratio, next.z * d.z, Mul(c.group, 2 * i + 1, p));
      OddPointsSnoc(c, p, i);
      ChainAppend(c, js, rs, ts, OddPoints(c, p, i), [next], [ratio], [next.z * d.z], [Mul(c.group, 2 * i + 1, p)]);
      prej[base + i] := next;
      zr[base + i] := ratio;
      assert prej[base..base + i + 1] == js + [next] && zr[base..base + i + 1] == rs + [ratio];
      ts := ts + [next.z * d.z];
      i := i + 1;
    }
    var last := prej[base + n - 1];
    ghost var js := prej[base..base + n];
    ChainLastZ(c, js, zr[base..base + n], ts, OddPoints(c, p, n));
    prej[base + n - 1] := last.(z := last.z * d.z);
    assert prej[base..base + n] == js[n - 1 := js[n - 1].(z := ts[n - 1])];
  }

  /** `secp256k1_ecmult_odd_multiples_table_globalz_windowa`, for a table of any size: all odd
  multiples with one z. */
  method OddMultiplesGlobalz(c: Curve, pre: array<Ge>, n: nat, a: Gej, ghost p: Point) returns (globalz: int)
    requires IsCurve(c) && HasOrderN(c.group, p) && Represents(c, a, p, 1) && !a.infinity
    requires 1 <= n && 2 * n + 1 < N && n <= pre.Length
    modifies pre
    ensures !IsZero(globalz)
    ensures forall k :: 0 <= k < n ==> RepresentsGe(c, pre[k], Mul(c.group, 2 * k + 1, p), globalz)
  {
    hide IsCurve, HasOrderN, Represents, RepresentsGe, At, Chain, IsZero, Eq, Mul;
    var prej, zr := new Gej[n](_ => Gej(0, 0, 0, false)), new int[n](_ => 0);
    ghost var ts := OddMultiplesTable(c, prej, zr, 0, n, a, p);
    assert prej[0..0 + n] == prej[..] && zr[0..0 + n] == zr[..];
    globalz := GeGlobalzSetTableGej(c, pre, prej[..], zr[..], ts, OddPoints(c, p, n));
    forall k | 0 <= k < n ensures RepresentsGe(c, pre[k], Mul(c.group, 2 * k + 1, p), globalz) {
      assert OddPoints(c, p, n)[k] == Mul(c.group, 2 * k + 1, p);
    }
  }

  // ---------- the tables of Strauss' method ----------

  /** The points of all tables, one table after the other. */
  ghost function AllPoints(c: Curve, ps: seq<Point>): (qs: seq<Point>)
    ensures |qs| == 8 * |ps|
  {
    if ps == [] then [] else AllPoints(c, ps[..|ps| - 1]) + OddPoints(c, ps[|ps| - 1], 8)
  }

  lemma {:induction false} AllPointsAt(c: Curve, ps: seq<Point>, np: nat, k: nat)
    requires np < |ps| && k < 8
    ensures AllPoints(c, ps)[8 * np + k] == Mul(c.group, 2 * k + 1, ps[np])
  {
    if np < |ps| - 1 {
      AllPointsAt(c, ps[..|ps| - 1], np, k);
    }
  }

  lemma AllPointsNext(c: Curve, ps: seq<Point>, np: nat)
    requires np < |ps|
    ensures AllPoints(c, ps[..np + 1]) == AllPoints(c, ps[..np]) + OddPoints(c, ps[np], 8)
  {
    assert ps[..np + 1][..np] == ps[..np];
  }

  lemma ScaleZ(az: int, z: int, dz: int)
    ensures az * z * dz == z * (dz * az)
  {
  }

  /** The odd multiples of p, all with z globalz, in the table number np. */
  ghost predicate TableAt(c: Curve, pre: seq<Ge>, np: nat, p: Point, globalz: int) {
    && 8 * np + 8 <= |pre|
    && forall k :: 0 <= k < 8 ==> RepresentsGe(c, pre[8 * np..8 * np + 8][k], Mul(c.group, 2 * k + 1, p), globalz)
  }

  /** Adds the table of one more point behind the others: the point is first scaled by the z
  that the table before it ends with, so that the ratios continue from table to table. */
  method AppendTable(c: Curve, prej: array<Gej>, zr: array<int>, np: nat, a: Gej, ghost p: Point,
                     ghost ts: seq<int>, ghost qs: seq<Point>)
    returns (ghost all: seq<int>)
    requires IsCurve(c) && HasOrderN(c.group, p) && Represents(c, a, p, 1) && !a.infinity
    requires np >= 1 && 8 * np + 8 <= prej.Length && 8 * np + 8 <= zr.Length && prej as object != zr as object
    requires |ts| == 8 * np && Chain(c, prej[..8 * np], zr[..8 * np], ts, qs) && ts[8 * np - 1] == prej[8 * np - 1].z
    modifies prej, zr
    ensures |all| == 8 * (np + 1) && all[8 * np + 7] == prej[8 * np + 7].z
    ensures Chain(c, prej[..8 * (np + 1)], zr[..8 * (np + 1)], all, qs + OddPoints(c, p, 8))
  {
    hide IsCurve, HasOrderN, Represents, RepresentsGe, At, Chain, IsZero, Eq, Mul, OddPoints;
    ghost var js, rs := prej[..8 * np], zr[..8 * np];
    ChainNonzero(c, js, rs, ts, qs, 8 * np - 1);
    var z := prej[8 * np - 1].z;
    var tmp := GejRescale(c, a, z, p);
    ghost var more := OddMultiplesTable(c, prej, zr, 8 * np, 8, tmp, p);
    ghost var js2, rs2 := prej[8 * np..8 * np + 8], zr[8 * np..8 * np + 8];
    ScaleZ(a.z, z, zr[8 * np]);
    zr[8 * np] := zr[8 * np] * a.z;
    ChainFirstRatio(c, js2, rs2, more, OddPoints(c, p, 8), zr[8 * np]);
    ChainAppend(c, js, rs, ts, qs, js2, rs2[0 := zr[8 * np]], more, OddPoints(c, p, 8));
    assert prej[..8 * (np + 1)] == js + js2;
    assert zr[..8 * (np + 1)] == rs + rs2[0 := zr[8 * np]];
    all := ts + more;
  }

  /** The tables for all points on one z. */
  method StraussTables(c: Curve, preA: array<Ge>, a: seq<Gej>, ghost ps: seq<Point>) returns (globalz: int)
    requires IsCurve(c) && |a| == |ps| && 8 * |a| <= preA.Length
    requires forall k :: 0 <= k < |a| ==> Represents(c, a[k], ps[k], 1) && !a[k].infinity && HasOrderN(c.group, ps[k])
    modifies preA
    ensures !IsZero(globalz)
    ensures forall np :: 0 <= np < |a| ==> TableAt(c, preA[..], np, ps[np], globalz)
  {
    hide IsCurve, HasOrderN, Represents, RepresentsGe, At, Chain, IsZero, Eq, Mul, AllPoints, OddPoints, TableAt;
    if |a| == 0 {
      OneIsNonzero();
      return 1;
    }
    var prej, zr := new Gej[8 * |a|](_ => Gej(0, 0, 0, false)), new int[8 * |a|](_ => 0);
    ghost var ts := OddMultiplesTable(c, prej, zr, 0, 8, a[0], ps[0]);
    FirstTable(c, ps);
    assert prej[0..0 + 8] == prej[..8] && zr[0..0 + 8] == zr[..8];
    var np := 1;
    while np < |a|
      invariant 1 <= np <= |a| && |ts| == 8 * np
      invariant Chain(c, prej[..8 * np], zr[..8 * np], ts, AllPoints(c, ps[..np]))
      invariant ts[8 * np - 1] == prej[8 * np - 1].z
    {
      AllPointsNext(c, ps, np);
      ts := AppendTable(c, prej, zr, np, a[np], ps[np], ts, AllPoints(c, ps[..np]));
      np := np + 1;
    }
    assert ps[..np] == ps && prej[..8 * np] == prej[..] && zr[..8 * np] == zr[..];
    globalz := GeGlobalzSetTableGej(c, preA, prej[..], zr[..], ts, AllPoints(c, ps));
    forall n | 0 <= n < |a| ensures TableAt(c, preA[..], n, ps[n], globalz) {
      TableOf(c, preA[..], ps, n, globalz);
    }
  }

  lemma TableOf(c: Curve, pre: seq<Ge>, ps: seq<Point>, np: nat, globalz: int)
    requires np < |ps| && 8 * |ps| <= |pre|
    requires forall k :: 0 <= k < 8 * |ps| ==> RepresentsGe(c, pre[k], AllPoints(c, ps)[k], globalz)
    ensures TableAt(c, pre, np, ps[np], globalz)
  {
    hide RepresentsGe, Mul, AllPoints;
    forall k | 0 <= k < 8 ensures RepresentsGe(c, pre[8 * np..8 * np + 8][k], Mul(c.group, 2 * k + 1, ps[np]), globalz) {
      AllPointsAt(c, ps, np, k);
    }
  }

  lemma FirstTable(c: Curve, ps: seq<Point>)
    requires |ps| > 0
    ensures AllPoints(c, ps[..1]) == OddPoints(c, ps[0], 8)
  {
    AllPointsNext(c, ps, 0);
    assert AllPoints(c, ps[..0]) == [];
  }

  lemma ChainNonzero(c: Curve, js: seq<Gej>, rs: seq<int>, ts: seq<int>, qs: seq<Point>, k: nat)
    requires Chain(c, js, rs, ts, qs) && k < |ts|
    ensures !IsZero(ts[k])
  {
    hide IsZero;
  }

  // ---------- the table that stores y and the ratio ----------

  /** `secp256k1_ge_storage` */
  datatype Storage = Storage(x: int, y: int)

  /** While the points are added, entry k holds the y of the k-th point j and the ratio to the
  next z. */
  ghost predicate StoredAt(c: Curve, s: Storage, j: Gej, next: Gej, d: Gej, p: Point) {
    && s.y == j.y && s.x == d.x * (j.z * j.z) - j.x && next.z * d.z == j.z * d.z * s.x
    && At(c, j, j.z * d.z, p)
  }

  /** From y and the ratio back to both affine coordinates, given the inverse zi of the true z
  and the inverse di of d.z. */
  lemma Restore(c: Curve, s: Storage, j: Gej, next: Gej, d: Gej, p: Point, zi: int, di: int)
    requires StoredAt(c, s, j, next, d, p) && Eq(j.z * d.z * zi, 1) && Eq(d.z * di, 1)
    ensures Eq(d.x * (di * di) - s.x * (zi * zi), c.x(p)) && Eq(s.y * (zi * zi * zi), c.y(p))
  {
    hide Eq, IsZero;
    Unscale(j.x, j.y, j.z * d.z, zi, c.x(p), c.y(p));
    // j.z * zi is an inverse of d.z, like di.
    InverseSquares(j.z, d.z, zi, di);
    EqScale(j.z * zi * (j.z * zi), di * di, d.x);
    EqSymm(j.z * zi * (j.z * zi) * d.x, di * di * d.x);
    EqRefl(s.x * (zi * zi));
    EqSub(di * di * d.x, j.z * zi * (j.z * zi) * d.x, s.x * (zi * zi), s.x * (zi * zi));
    RestoreIdentity(d.x, j.x, j.z, zi, di);
    EqTrans(d.x * (di * di) - s.x * (zi * zi), j.x * (zi * zi), c.x(p));
  }

  lemma RestoreIdentity(dx: int, x: int, z: int, zi: int, di: int)
    ensures z * zi * (z * zi) * dx - (dx * (z * z) - x) * (zi * zi) == x * (zi * zi)
    ensures di * di * dx == dx * (di * di)
  {
    assert z * zi * (z * zi) * dx == dx * (z * z) * (zi * zi);
  }

  lemma InverseSquares(z: int, dz: int, zi: int, di: int)
    requires Eq(z * dz * zi, 1) && Eq(dz * di, 1)
    ensures Eq(z * zi * (z * zi), di * di)
  {
    hide Eq;
    var a := z * zi;
    EqScale(z * dz * zi, 1, di);
    EqScale(dz * di, 1, a);
    assert z * dz * zi * di == dz * di * a;
    EqSymm(dz * di * a, 1 * a);
    EqTrans(1 * a, dz * di * a, 1 * di);
    EqMul(a, di, a, di);
  }

  /** A stored entry holds the affine coordinates of p. */
  ghost predicate IsStored(c: Curve, s: Storage, p: Point) {
    Finite(c, p) && Eq(s.x, c.x(p)) && Eq(s.y, c.y(p))
  }

  /** The first loop: adds 2a again and again, storing y and the ratio of z for all but the last. */
  method StoreRatios(c: Curve, pre: array<Storage>, n: nat, first: Gej, d: Gej, ghost p: Point)
    returns (last: Gej, ghost js: seq<Gej>)
    requires IsCurve(c) && HasOrderN(c.group, p) && 1 <= n <= pre.Length && 2 * n + 1 < N
    requires Represents(c, first, Mul(c.group, 1, p), d.z) && At(c, first, first.z * d.z, Mul(c.group, 1, p))
    requires RepresentsGe(c, Ge(d.x, d.y, false), Mul(c.group, 2, p), d.z) && !IsZero(d.z)
    modifies pre
    ensures |js| == n && js[n - 1] == last && !last.infinity
    ensures Represents(c, last, Mul(c.group, 2 * (n - 1) + 1, p), d.z)
    ensures forall k :: 0 <= k < n - 1 ==> StoredAt(c, pre[k], js[k], js[k + 1], d, Mul(c.group, 2 * k + 1, p))
  {
    NotInfinite(c, first, first.z * d.z, Mul(c.group, 1, p));
    hide IsCurve, HasOrderN, Represents, RepresentsGe, At, IsZero, Eq, Mul, StoredAt;
    last := first;
    js := [first];
    var i := 0;
    while i < n - 1
      invariant 0 <= i <= n - 1 && |js| == i + 1 && js[i] == last && !last.infinity
      invariant Represents(c, last, Mul(c.group, 2 * i + 1, p), d.z)
      invariant At(c, last, last.z * d.z, Mul(c.group, 2 * i + 1, p))
      invariant forall k :: 0 <= k < i ==> StoredAt(c, pre[k], js[k], js[k + 1], d, Mul(c.group, 2 * k + 1, p))
    {
      pre[i] := pre[i].(y := last.y);
      var next, ratio := NextMultiple(c, last, Ge(d.x, d.y, false), d.z, i, p);
      pre[i] := pre[i].(x := ratio);
      StoredNow(c, pre[i], last, next, d, Mul(c.group, 2 * i + 1, p));
      js := js + [next];
      last := next;
      i := i + 1;
    }
  }

  lemma NotInfinite(c: Curve, j: Gej, t: int, p: Point)
    requires At(c, j, t, p)
    ensures !j.infinity && !IsZero(t)
  {
  }

  lemma StoredNow(c: Curve, s: Storage, j: Gej, next: Gej, d: Gej, p: Point)
    requires s.y == j.y && s.x == d.x * (j.z * j.z) - j.x && next.z * d.z == j.z * d.z * s.x
    requires At(c, j, j.z * d.z, p)
    ensures StoredAt(c, s, j, next, d, p)
  {
  }

  /** The second loop: backwards from the inverse of the last z, every ratio gives the inverse
  of the z before it, and with it both coordinates. */
  method RestorePoints(c: Curve, pre: array<Storage>, n: nat, d: Gej, zi0: int, dx: int, ghost di: int,
                       ghost js: seq<Gej>, ghost p: Point)
    requires 1 <= n <= pre.Length && |js| == n
    requires forall k :: 0 <= k < n - 1 ==> StoredAt(c, pre[k], js[k], js[k + 1], d, Mul(c.group, 2 * k + 1, p))
    requires IsStored(c, pre[n - 1], Mul(c.group, 2 * (n - 1) + 1, p))
    requires Eq(js[n - 1].z * d.z * zi0, 1) && Eq(d.z * di, 1) && dx == di * di * d.x
    modifies pre
    ensures forall k :: 0 <= k < n ==> IsStored(c, pre[k], Mul(c.group, 2 * k + 1, p))
  {
    hide Eq, Mul, StoredAt, IsStored;
    var zi := zi0;
    var i := n - 1;
    while i > 0
      invariant 0 <= i < n && Eq(js[i].z * d.z * zi, 1)
      invariant forall k :: 0 <= k < i ==> StoredAt(c, pre[k], js[k], js[k + 1], d, Mul(c.group, 2 * k + 1, p))
      invariant forall k :: i <= k < n ==> IsStored(c, pre[k], Mul(c.group, 2 * k + 1, p))
    {
      i := i - 1;
      var entry := pre[i];
      var rzr := entry.x;
      StoredRatio(c, entry, js[i], js[i + 1], d, Mul(c.group, 2 * i + 1, p));
      Regroup3(js[i].z * d.z, rzr, zi);
      zi := zi * rzr;
      var zi2 := zi * zi;
      var zi3 := zi2 * zi;
      var x := rzr * zi2;
      x := -x;
      x := x + dx;
      var y := entry.y * zi3;
      RestoredEntry(c, entry, js[i], js[i + 1], d, Mul(c.group, 2 * i + 1, p), zi, di, x, y);
      pre[i] := Storage(x, y);
    }
  }

  lemma Regroup3(a: int, b: int, c: int)
    ensures a * b * c == a * (c * b)
  {
  }

  lemma StoredRatio(c: Curve, s: Storage, j: Gej, next: Gej, d: Gej, p: Point)
    requires StoredAt(c, s, j, next, d, p)
    ensures next.z * d.z == j.z * d.z * s.x
  {
  }

  lemma RestoredEntry(c: Curve, s: Storage, j: Gej, next: Gej, d: Gej, p: Point, zi: int, di: int, x: int, y: int)
    requires StoredAt(c, s, j, next, d, p) && Eq(j.z * d.z * zi, 1) && Eq(d.z * di, 1)
    requires x == -(s.x * (zi * zi)) + di * di * d.x && y == s.y * (zi * zi * zi)
    ensures IsStored(c, Storage(x, y), p)
  {
    Restore(c, s, j, next, d, p, zi, di);
    hide Eq, IsZero;
    assert d.x * (di * di) - s.x * (zi * zi) == x;
  }

  /** `secp256k1_ecmult_odd_multiples_table_storage_var`: the affine coordinates of a, 3a, 5a, ...
  with a single inversion and no more space than the table itself. */
  method OddMultiplesTableStorageVar(c: Curve, n: nat, pre: array<Storage>, a: Gej, ghost p: Point)
    requires IsCurve(c) && HasOrderN(c.group, p) && Represents(c, a, p, 1) && !a.infinity
    requires 1 <= n <= pre.Length && 2 * n + 1 < N
    modifies pre
    ensures forall k :: 0 <= k < n ==> IsStored(c, pre[k], Mul(c.group, 2 * k + 1, p))
  {
    Facts(c);
    hide IsCurve, HasOrderN, Represents, RepresentsGe, IsInverse, IsZero, Eq, Mul, StoredAt, IsStored;
    var d, first := FirstTwo(c, a, p);
    var pj: Gej;
    ghost var js;
    pj, js := StoreRatios(c, pre, n, first, d, p);
    RepresentsAt(c, pj, d.z, Mul(c.group, 2 * (n - 1) + 1, p));
    NotInfinite(c, pj, pj.z * d.z, Mul(c.group, 2 * (n - 1) + 1, p));
    var zi := pj.z * d.z;
    zi := c.inv(zi);
    Inverts(c.inv, pj.z * d.z);
    var pGe := GeSetGejZinv(pj, zi);
    ZinvAffine(c, pj, zi, Mul(c.group, 2 * (n - 1) + 1, p), d.z);
    pre[n - 1] := Storage(pGe.x, pGe.y);
    AffineStored(c, pGe, Mul(c.group, 2 * (n - 1) + 1, p));
    var di := zi * pj.z;
    var dx := di * di;
    dx := dx * d.x;
    Regroup(pj.z, d.z, zi);
    assert pj.z * d.z * zi == d.z * di;
    RestorePoints(c, pre, n, d, zi, dx, di, js, p);
  }

  lemma AffineStored(c: Curve, b: Ge, p: Point)
    requires IsAffine(c, b, p) && !b.infinity
    ensures IsStored(c, Storage(b.x, b.y), p)
  {
  }
}
