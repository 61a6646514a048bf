/** Conversions and tables that share one inversion (group_impl.h, field_impl.h, ecmult_impl.h). */
module CurveTables {
  import opened Numbers
  import opened Groups
  import opened Field
  import opened Coordinates
  import opened Curve
  import opened Recoding
  import opened OddTables

  // ---------- single points ----------

  /** Dividing out a z whose inverse is known. */
  lemma Unscale(X: int, Y: int, z: int, zi: int, x: int, y: int)
    requires Scaled(X, Y, z, x, y) && Eq(z * zi, 1)
    ensures Eq(X * (zi * zi), x) && Eq(Y * (zi * zi * zi), y)
  {
    hide Eq;
    EqMul(z * zi, 1, z * zi, 1);
    EqMul(z * zi * (z * zi), 1, z * zi, 1);
    EqScale(z * zi * (z * zi), 1, x);
    EqScale(z * zi * (z * zi) * (z * zi), 1, y);
    EqScale(X, x * (z * z), zi * zi);
    EqScale(Y, y * (z * z * z), zi * zi * zi);
    ScaleTermsBack(x, y, z, zi);
    EqTrans(X * (zi * zi), x * (z * z) * (zi * zi), x);
    EqTrans(Y * (zi * zi * zi), y * (z * z * z) * (zi * zi * zi), y);
  }

  lemma ScaleTermsBack(x: int, y: int, z: int, zi: int)
    ensures x * (z * z) * (zi * zi) == z * zi * (z * zi) * x
    ensures y * (z * z * z) * (zi * zi * zi) == z * zi * (z * zi) * (z * zi) * y
  {
    Powers(x, z, zi);
    Powers(y, z, zi);
  }

  /** Affine coordinates of a point. */
  ghost predicate IsAffine(c: Curve, b: Ge, p: Point) {
    && (b.infinity <==> !Finite(c, p))
    && (!b.infinity ==> Eq(b.x, c.x(p)) && Eq(b.y, c.y(p)))
  }

  /** `secp256k1_ge_set_gej_zinv`, given the inverse of z. */
  method GeSetGejZinv(a: Gej, zi: int) returns (r: Ge)
    ensures r == Ge(a.x * (zi * zi), a.y * (zi * zi * zi), a.infinity)
  {
    var zi2 := zi * zi;
    var zi3 := zi2 * zi;
    return Ge(a.x * zi2, a.y * zi3, a.infinity);
  }

  lemma ZinvAffine(c: Curve, a: Gej, zi: int, p: Point, f: int)
    requires Represents(c, a, p, f) && (!a.infinity ==> Eq(a.z * f * zi, 1))
    ensures IsAffine(c, Ge(a.x * (zi * zi), a.y * (zi * zi * zi), a.infinity), p)
  {
    if !a.infinity { Unscale(a.x, a.y, a.z * f, zi, c.x(p), c.y(p)); }
  }

  /** `secp256k1_gej_rescale` changes the coordinates but not the point. */
  method GejRescale(c: Curve, a: Gej, s: int, ghost p: Point) returns (r: Gej)
    requires IsCurve(c) && Represents(c, a, p, 1) && !IsZero(s)
    ensures Represents(c, r, p, 1) && r.z == a.z * s && r.infinity == a.infinity
  {
    var zz := s * s;
    r := Gej(a.x * zz, a.y * zz * s, a.z * s, a.infinity);
    Facts(c);
    if !a.infinity {
      ScaleBy(a.x, a.y, a.z, c.x(p), c.y(p), s);
      NonzeroProduct(c.inv, a.z, s);
    }
  }

  /** `secp256k1_gej_eq_x_var` compares x with X / Z^2 without dividing. */
  method GejEqXVar(c: Curve, x: int, a: Gej, ghost p: Point) returns (equal: bool)
    requires IsCurve(c) && Represents(c, a, p, 1) && !a.infinity
    ensures equal <==> Eq(x, c.x(p))
  {
    var r := a.z * a.z;
    r := r * x;
    var r2 := a.x;
    equal := IsZero(r - r2);
    Facts(c);
    SquareNonzero(c.inv, a.z);
    EqRefl(x * (a.z * a.z));
    assert r == x * (a.z * a.z);
    SameCoordinate(c.inv, r2, r, c.x(p), x, a.z * a.z);
    EqSymm2(x, c.x(p));
  }

  // ---------- one inversion for many ----------

  /** The product of the first n elements that are not left out. */
  function Product(zs: seq<int>, skip: seq<bool>, n: nat): int
    requires |skip| == |zs| && n <= |zs|
  {
    if n == 0 then 1
    else if skip[n - 1] then Product(zs, skip, n - 1)
    else Product(zs, skip, n - 1) * zs[n - 1]
  }

  lemma {:induction false} ProductNonzero(inv: int -> int, zs: seq<int>, skip: seq<bool>, n: nat)
    requires IsInverse(inv) && |skip| == |zs| && n <= |zs|
    requires forall k :: 0 <= k < n && !skip[k] ==> !IsZero(zs[k])
    ensures !IsZero(Product(zs, skip, n))
  {
    if n == 0 {
      OneIsNonzero();
    } else {
      ProductNonzero(inv, zs, skip, n - 1);
      if !skip[n - 1] { NonzeroProduct(inv, Product(zs, skip, n - 1), zs[n - 1]); }
    }
  }

  /** Elements left out do not change the product. */
  lemma {:induction false} ProductSkips(zs: seq<int>, skip: seq<bool>, m: nat, n: nat)
    requires |skip| == |zs| && m <= n <= |zs|
    requires forall k :: m <= k < n ==> skip[k]
    ensures Product(zs, skip, n) == Product(zs, skip, m)
  {
    if m < n { ProductSkips(zs, skip, m, n - 1); }
  }

  /** From the inverse of a product a b: the inverse of b, and that of a. */
  lemma SplitInverse(a: int, b: int, u: int)
    requires Eq(a * b * u, 1)
    ensures Eq(b * (a * u), 1) && Eq(a * (u * b), 1)
  {
    assert b * (a * u) == a * b * u == a * (u * b) by { Regroup(a, b, u); }
  }

  predicate SomeFinite(a: seq<Gej>) {
    exists k :: 0 <= k < |a| && !a[k].infinity
  }

  ghost function Zs(a: seq<Gej>): (r: seq<int>)
    ensures |r| == |a| && forall k :: 0 <= k < |a| ==> r[k] == a[k].z
  {
    seq(|a|, k requires 0 <= k < |a| => a[k].z)
  }

  ghost function Infinities(a: seq<Gej>): (r: seq<bool>)
    ensures |r| == |a| && forall k :: 0 <= k < |a| ==> r[k] == a[k].infinity
  {
    seq(|a|, k requires 0 <= k < |a| => a[k].infinity)
  }

  /** First loop: the x fields of finite points collect the products of all z so far. */
  method CollectProducts(r: array<Ge>, a: seq<Gej>) returns (last: int)
    requires r.Length == |a|
    modifies r
    ensures -1 <= last < |a| && (last == -1 ==> r[..] == old(r[..]))
    ensures last >= 0 ==> !a[last].infinity
    ensures forall k :: last < k < |a| ==> a[k].infinity
    ensures forall k :: 0 <= k < |a| && !a[k].infinity ==> r[k].x == Product(Zs(a), Infinities(a), k + 1)
  {
    hide Zs, Infinities;
    last := -1;
    var i := 0;
    while i < |a|
      invariant 0 <= i <= |a| && -1 <= last < i
      invariant forall k :: last < k < i ==> a[k].infinity
      invariant last >= 0 ==> !a[last].infinity
      invariant forall k :: 0 <= k < i && !a[k].infinity ==> r[k].x == Product(Zs(a), Infinities(a), k + 1)
      invariant last == -1 ==> r[..] == old(r[..])
    {
      if !a[i].infinity {
        ProductSkips(Zs(a), Infinities(a), last + 1, i);
        if last == -1 {
          r[i] := r[i].(x := a[i].z);
        } else {
          r[i] := r[i].(x := r[last].x * a[i].z);
        }
        last := i;
      }
      i := i + 1;
    }
  }

  /** Second loop: from the inverse u of the whole product to the inverses of all z. */
  method DistributeInverse(r: array<Ge>, a: seq<Gej>, last0: nat, u0: int)
    requires r.Length == |a| && last0 < |a| && !a[last0].infinity
    requires forall k :: last0 < k < |a| ==> a[k].infinity
    requires forall k :: 0 <= k < |a| && !a[k].infinity ==> r[k].x == Product(Zs(a), Infinities(a), k + 1)
    requires Eq(Product(Zs(a), Infinities(a), last0 + 1) * u0, 1)
    modifies r
    ensures forall k :: 0 <= k < |a| && !a[k].infinity ==> Eq(a[k].z * r[k].x, 1)
  {
    hide Eq, Zs, Infinities, Product;
    var last, u := last0, u0;
    var i := last;
    while i > 0
      invariant 0 <= i <= last < |a| && !a[last].infinity
      invariant forall k :: i <= k < last ==> a[k].infinity
      invariant forall k :: 0 <= k <= last && !a[k].infinity ==> r[k].x == Product(Zs(a), Infinities(a), k + 1)
      invariant Eq(Product(Zs(a), Infinities(a), last + 1) * u, 1)
      invariant forall k :: last < k < |a| && !a[k].infinity ==> Eq(a[k].z * r[k].x, 1)
    {
      i := i - 1;
      if !a[i].infinity {
        ProductSkips(Zs(a), Infinities(a), i + 1, last);
        ProductNext(Zs(a), Infinities(a), last);
        SplitInverse(Product(Zs(a), Infinities(a), i + 1), a[last].z, u);
        r[last] := r[last].(x := r[i].x * u);
        u := u * a[last].z;
        last := i;
      }
    }
    ProductSkips(Zs(a), Infinities(a), 0, last);
    ProductNext(Zs(a), Infinities(a), last);
    assert Product(Zs(a), Infinities(a), last + 1) == a[last].z;
    r[last] := r[last].(x := u);
  }

  lemma ProductNext(zs: seq<int>, skip: seq<bool>, n: nat)
    requires |skip| == |zs| && n < |zs|
    ensures Product(zs, skip, n + 1) == if skip[n] then Product(zs, skip, n) else Product(zs, skip, n) * zs[n]
    ensures Product(zs, skip, 0) == 1
  {
  }

  /** Third loop: converts every point with the inverse in its x field. */
  method ApplyInverses(c: Curve, r: array<Ge>, a: seq<Gej>, ghost ps: seq<Point>)
    requires r.Length == |a| == |ps| && forall k :: 0 <= k < |a| ==> Represents(c, a[k], ps[k], 1)
    requires forall k :: 0 <= k < |a| && !a[k].infinity ==> Eq(a[k].z * r[k].x, 1)
    modifies r
    ensures forall k :: 0 <= k < |a| ==> IsAffine(c, r[k], ps[k])
  {
    hide Represents, IsAffine, Eq;
    var i := 0;
    while i < |a|
      invariant 0 <= i <= |a|
      invariant forall k :: 0 <= k < i ==> IsAffine(c, r[k], ps[k])
      invariant forall k :: i <= k < |a| && !a[k].infinity ==> Eq(a[k].z * r[k].x, 1)
    {
      r[i] := r[i].(infinity := a[i].infinity);
      if !a[i].infinity {
        ghost var zi := r[i].x;
        r[i] := GeSetGejZinv(a[i], r[i].x);
        assert a[i].z * 1 * zi == a[i].z * zi;
        ZinvAffine(c, a[i], zi, ps[i], 1);
      } else {
        InfiniteAffine(c, a[i], r[i], ps[i]);
      }
      i := i + 1;
    }
  }

  /** `secp256k1_ge_set_all_gej_var` converts all points with a single inversion; infinities
  may be anywhere. Only when every point is infinite does it return early, without setting the
  infinity flags of the result, which is then right just where the flags were set before. */
  method GeSetAllGejVar(c: Curve, r: array<Ge>, a: seq<Gej>, ghost ps: seq<Point>)
    requires IsCurve(c) && r.Length == |a| == |ps|
    requires forall k :: 0 <= k < |a| ==> Represents(c, a[k], ps[k], 1)
    modifies r
    ensures forall k :: 0 <= k < |a| ==> (IsAffine(c, r[k], ps[k]) <==> SomeFinite(a) || old(r[k]).infinity)
  {
    hide IsCurve, Represents, IsAffine, Eq, IsZero, IsInverse, Product;
    Facts(c);
    var last := CollectProducts(r, a);
    if last == -1 {
      forall k | 0 <= k < |a| ensures IsAffine(c, r[k], ps[k]) <==> r[k].infinity {
        InfiniteAffine(c, a[k], r[k], ps[k]);
      }
      return;
    }
    forall k | 0 <= k < |a| ensures !a[k].infinity ==> !IsZero(a[k].z) { FiniteZ(c, a[k], ps[k]); }
    ProductNonzero(c.inv, Zs(a), Infinities(a), last + 1);
    var u := c.inv(r[last].x);
    Inverts(c.inv, r[last].x);
    DistributeInverse(r, a, last, u);
    ApplyInverses(c, r, a, ps);
  }

  /** A single infinite point, converted into an entry that was finite: it stays so. */
  method FlagLeftClear(c: Curve) returns (r: array<Ge>)
    requires IsCurve(c)
    ensures r.Length == 1 && !r[0].infinity && !IsAffine(c, r[0], c.group.zero)
  {
    r := new Ge[1](_ => Ge(0, 0, false));
    var a := [Gej(0, 0, 0, true)];
    assert Represents(c, a[0], c.group.zero, 1);
    hide IsCurve;
    GeSetAllGejVar(c, r, a, [c.group.zero]);
    InfiniteAffine(c, a[0], r[0], c.group.zero);
  }

  lemma FiniteZ(c: Curve, a: Gej, p: Point)
    requires Represents(c, a, p, 1)
    ensures !a.infinity ==> !IsZero(a.z)
  {
    assert a.z * 1 == a.z;
  }

  lemma InfiniteAffine(c: Curve, a: Gej, b: Ge, p: Point)
    requires Represents(c, a, p, 1) && a.infinity
    ensures IsAffine(c, b, p) <==> b.infinity
  {
  }

  /** The same for field elements, none left out. */
  function Prefix(a: seq<int>, n: nat): int
    requires n <= |a|
  {
    if n == 0 then 1 else Prefix(a, n - 1) * a[n - 1]
  }

  lemma {:induction false} PrefixZero(inv: int -> int, a: seq<int>, n: nat)
    requires IsInverse(inv) && n <= |a|
    ensures IsZero(Prefix(a, n)) <==> exists k :: 0 <= k < n && IsZero(a[k])
  {
    hide IsZero, IsInverse;
    if n == 0 {
      OneIsNonzero();
    } else {
      PrefixZero(inv, a, n - 1);
      ZeroFactor(Prefix(a, n - 1), a[n - 1]);
      if !IsZero(Prefix(a, n - 1)) { NonzeroProduct(inv, Prefix(a, n - 1), a[n - 1]); }
    }
  }

  /** `secp256k1_fe_inv_all_var` returns the inverses of all elements. A single zero among them,
  whose inverse is taken to be zero, makes all results zero. */
  method FeInvAllVar(r: array<int>, a: seq<int>, inv: int -> int)
    requires IsInverse(inv) && r.Length == |a|
    modifies r
    ensures (forall k :: 0 <= k < |a| ==> !IsZero(a[k])) ==> forall k :: 0 <= k < |a| ==> Eq(a[k] * r[k], 1)
    ensures (exists k :: 0 <= k < |a| && IsZero(a[k])) ==> forall k :: 0 <= k < |a| ==> IsZero(r[k])
  {
    hide IsInverse, Eq, IsZero, Prefix;
    if |a| < 1 {
      return;
    }
    r[0] := a[0];
    PrefixNext(a, 0);
    var i := 1;
    while i < |a|
      invariant 1 <= i <= |a|
      invariant forall k :: 0 <= k < i ==> r[k] == Prefix(a, k + 1)
    {
      PrefixNext(a, i);
      r[i] := r[i - 1] * a[i];
      i := i + 1;
    }
    i := i - 1;
    PrefixZero(inv, a, |a|);
    ghost var zero := IsZero(Prefix(a, |a|));
    var u := inv(r[i]);
    if zero { InverseOfZero(inv, r[i]); } else { Inverts(inv, r[i]); }
    while i > 0
      invariant 0 <= i < |a|
      invariant forall k :: 0 <= k < i ==> r[k] == Prefix(a, k + 1)
      invariant zero ==> IsZero(u) && forall k :: i < k < |a| ==> IsZero(r[k])
      invariant !zero ==> Eq(Prefix(a, i + 1) * u, 1) && forall k :: i < k < |a| ==> Eq(a[k] * r[k], 1)
    {
      var j := i;
      i := i - 1;
      r[j] := r[i] * u;
      PrefixNext(a, j);
      if zero {
        ZeroFactor(u, r[i]);
        ZeroFactor(u, a[j]);
        assert r[i] * u == u * r[i];
      } else {
        SplitInverse(Prefix(a, j), a[j], u);
      }
      u := u * a[j];
    }
    PrefixNext(a, 0);
    r[0] := u;
  }

  lemma PrefixNext(a: seq<int>, n: nat)
    requires n < |a|
    ensures Prefix(a, n + 1) == Prefix(a, n) * a[n]
    ensures n == 0 ==> Prefix(a, 1) == a[0]
  {
  }
}
