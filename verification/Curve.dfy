/** The operations of group_impl.h compute the group law of the curve. */
module Curve {
  import opened Numbers
  import opened Groups
  import opened Field
  import opened Coordinates

  /** The group of points with their affine coordinates, and inversion in the field. */
  datatype Curve = Curve(group: Group, x: Point -> int, y: Point -> int, inv: int -> int)

  function Finite(c: Curve, p: Point): bool {
    p != c.group.zero
  }

  // The curve group (section 2.4.1 of SEC 2): y^2 = x^3 + 7 with the chord and tangent law.

  ghost predicate PointAt(c: Curve, p: Point) {
    Finite(c, p) ==>
      && Eq(c.y(p) * c.y(p), c.x(p) * c.x(p) * c.x(p) + 7) && !IsZero(c.y(p))
      && Finite(c, c.group.neg(p)) && Eq(c.x(c.group.neg(p)), c.x(p)) && Eq(c.y(c.group.neg(p)), -c.y(p))
  }

  ghost predicate UniqueAt(c: Curve, p: Point, q: Point) {
    Finite(c, p) && Finite(c, q) && Eq(c.x(p), c.x(q)) && Eq(c.y(p), c.y(q)) ==> p == q
  }

  ghost predicate DoubleAt(c: Curve, p: Point) {
    Finite(c, p) ==>
      && Finite(c, c.group.add(p, p))
      && exists l :: Tangent(l, c.x(p), c.y(p)) && Sum(c, l, p, p)
  }

  ghost predicate AddAt(c: Curve, p: Point, q: Point) {
    Finite(c, p) && Finite(c, q) && !Eq(c.x(p), c.x(q)) ==>
      && Finite(c, c.group.add(p, q))
      && exists l :: Chord(l, c.x(p), c.y(p), c.x(q), c.y(q)) && Sum(c, l, p, q)
  }

  ghost predicate Sum(c: Curve, l: int, p: Point, q: Point) {
    Line(l, c.x(p), c.y(p), c.x(q), c.x(c.group.add(p, q)), c.y(c.group.add(p, q)))
  }

  ghost predicate IsCurve(c: Curve) {
    && IsAbelian(c.group) && IsInverse(c.inv)
    && (forall p :: PointAt(c, p)) && (forall p, q :: UniqueAt(c, p, q))
    && (forall p :: DoubleAt(c, p)) && (forall p, q :: AddAt(c, p, q))
  }

  /** The coordinates j stand for the point p, after multiplying z by the factor f. The factor
  is 1 for ordinary points; the table builders work with points whose z lacks a factor. */
  ghost predicate Represents(c: Curve, j: Gej, p: Point, f: int) {
    && (j.infinity <==> !Finite(c, p))
    && (!j.infinity ==> !IsZero(j.z * f) && Scaled(j.x, j.y, j.z * f, c.x(p), c.y(p)))
  }

  /** The same for coordinates without z. */
  ghost predicate RepresentsGe(c: Curve, b: Ge, q: Point, f: int) {
    && (b.infinity <==> !Finite(c, q))
    && (!b.infinity ==> Scaled(b.x, b.y, f, c.x(q), c.y(q)))
  }

  // ---------- elementary facts ----------

  lemma Facts(c: Curve)
    requires IsCurve(c)
    ensures IsAbelian(c.group) && IsInverse(c.inv)
  {
  }

  lemma SumOf(c: Curve, p: Point, q: Point) returns (l: int)
    requires IsCurve(c) && Finite(c, p) && Finite(c, q) && !Eq(c.x(p), c.x(q))
    ensures Chord(l, c.x(p), c.y(p), c.x(q), c.y(q)) && Sum(c, l, p, q) && Finite(c, c.group.add(p, q))
  {
    assert AddAt(c, p, q);
    l :| Chord(l, c.x(p), c.y(p), c.x(q), c.y(q)) && Sum(c, l, p, q);
  }

  lemma DoubleOf(c: Curve, p: Point) returns (l: int)
    requires IsCurve(c) && Finite(c, p)
    ensures Tangent(l, c.x(p), c.y(p)) && Sum(c, l, p, p) && Finite(c, c.group.add(p, p))
  {
    assert DoubleAt(c, p);
    l :| Tangent(l, c.x(p), c.y(p)) && Sum(c, l, p, p);
  }

  lemma PointFacts(c: Curve, p: Point)
    requires IsCurve(c) && Finite(c, p)
    ensures Eq(c.y(p) * c.y(p), c.x(p) * c.x(p) * c.x(p) + 7) && !IsZero(c.y(p))
    ensures Finite(c, c.group.neg(p)) && Eq(c.x(c.group.neg(p)), c.x(p)) && Eq(c.y(c.group.neg(p)), -c.y(p))
  {
    assert PointAt(c, p);
  }

  lemma SamePoint(c: Curve, p: Point, q: Point)
    requires IsCurve(c) && Finite(c, p) && Finite(c, q) && Eq(c.x(p), c.x(q)) && Eq(c.y(p), c.y(q))
    ensures p == q
  {
    assert UniqueAt(c, p, q);
  }

  /** Points with the same x are equal or opposite. */
  lemma OppositePoint(c: Curve, p: Point, q: Point)
    requires IsCurve(c) && Finite(c, p) && Finite(c, q) && Eq(c.x(p), c.x(q)) && Eq(c.y(q), -c.y(p))
    ensures q == c.group.neg(p) && c.group.add(p, q) == c.group.zero
  {
    PointFacts(c, p);
    var n := c.group.neg(p);
    hide Eq, IsZero, IsCurve, Finite;
    EqTrans(c.x(n), c.x(p), c.x(q));
    EqSymm(c.y(q), -c.y(p));
    EqTrans(c.y(n), -c.y(p), c.y(q));
    SamePoint(c, n, q);
    Facts(c);
    Unit(c.group, p);
  }

  lemma SameXCases(c: Curve, p: Point, q: Point)
    requires IsCurve(c) && Finite(c, p) && Finite(c, q) && Eq(c.x(p), c.x(q))
    ensures Eq(c.y(q), c.y(p)) || Eq(c.y(q), -c.y(p))
  {
    PointFacts(c, p);
    PointFacts(c, q);
    Facts(c);
    hide *;
    SquareRoots(c.inv, c.x(p), c.y(p), c.x(q), c.y(q));
  }

  /** An x coordinate leaves two possibilities for y. */
  lemma SquareRoots(inv: int -> int, x: int, y: int, u: int, v: int)
    requires IsInverse(inv) && Eq(y * y, x * x * x + 7) && Eq(v * v, u * u * u + 7) && Eq(x, u)
    ensures Eq(v, y) || Eq(v, -y)
  {
    hide *;
    EqMul(x, u, x, u);
    EqMul(x * x, u * u, x, u);
    EqRefl(7);
    EqAdd(x * x * x, u * u * u, 7, 7);
    EqTrans(y * y, x * x * x + 7, u * u * u + 7);
    EqSymm(v * v, u * u * u + 7);
    EqTrans(y * y, u * u * u + 7, v * v);
    EqSymm(y * y, v * v);
    EqDifference(v * v, y * y);
    Squares(v, y);
    EqDifference(v, -y);
    EqDifference(v, y);
    if !IsZero(v - y) {
      NonzeroProduct(inv, v - y, v - -y);
    }
  }

  lemma Squares(v: int, y: int)
    ensures v * v - y * y == (v - y) * (v - -y)
  {
  }

  /** Differences of scaled coordinates vanish exactly when the coordinates agree. */
  lemma SameCoordinate(inv: int -> int, a: int, b: int, x: int, y: int, s: int)
    requires IsInverse(inv) && !IsZero(s) && Eq(a, x * s) && Eq(b, y * s)
    ensures IsZero(b - a) <==> Eq(x, y)
  {
    hide Eq, IsZero, IsInverse;
    EqDifference(b, a);
    EqSymm(a, x * s);
    EqSymm(b, y * s);
    if Eq(b, a) {
      EqTrans(y * s, b, a);
      EqTrans(y * s, a, x * s);
      Cancel(inv, y, x, s);
      EqSymm(y, x);
    }
    if Eq(x, y) {
      EqScale(x, y, s);
      EqTrans(a, x * s, y * s);
      EqTrans(a, y * s, b);
      EqSymm(a, b);
    }
  }

  lemma SquareNonzero(inv: int -> int, z: int)
    requires IsInverse(inv) && !IsZero(z)
    ensures !IsZero(z * z) && !IsZero(z * z * z)
  {
    NonzeroProduct(inv, z, z);
    NonzeroProduct(inv, z * z, z);
  }

  // ---------- doubling ----------

  /** `secp256k1_gej_double_var`; rzr is the ratio of the new z to the old one. */
  method GejDoubleVar(c: Curve, a: Gej, ghost p: Point, ghost f: int) returns (r: Gej, rzr: int)
    requires IsCurve(c) && Represents(c, a, p, f)
    ensures Represents(c, r, c.group.add(p, p), f)
    ensures !a.infinity ==> !r.infinity && r.z == a.z * rzr
  {
    hide IsCurve, Eq, IsZero;
    if a.infinity {
      Facts(c);
      Unit(c.group, p);
      return a, 1;
    }
    ghost var l := DoubleOf(c, p);
    rzr := a.y * 2;
    var z := a.z * a.y * 2;
    var t1 := a.x * a.x * 3;
    var t2 := t1 * t1;
    var t3 := a.y * a.y * 2;
    var t4 := t3 * t3 * 2;
    t3 := t3 * a.x;
    var x := t3 * 4;
    x := -x;
    x := x + t2;
    t2 := -t2;
    t3 := t3 * 6;
    t3 := t3 + t2;
    var y := t1 * t3;
    t2 := -t4;
    y := y + t2;
    r := Gej(x, y, z, false);
    DoubleRepresents(c, a, p, f, l, t1, r);
  }

  lemma DoubleRepresents(c: Curve, a: Gej, p: Point, f: int, l: int, t: int, r: Gej)
    requires IsCurve(c) && Represents(c, a, p, f) && !a.infinity
    requires Tangent(l, c.x(p), c.y(p)) && Sum(c, l, p, p) && Finite(c, c.group.add(p, p))
    requires t == a.x * a.x * 3 && r.z == a.z * a.y * 2 && !r.infinity
    requires r.x == t * t - a.y * a.y * 2 * a.x * 4
    requires r.y == t * (a.y * a.y * 2 * a.x * 6 - t * t) - a.y * a.y * 2 * (a.y * a.y * 2) * 2
    ensures Represents(c, r, c.group.add(p, p), f)
  {
    var d := c.group.add(p, p);
    var X, Y, z := a.x, a.y, a.z * f;
    PointFacts(c, p);
    Facts(c);
    hide IsCurve, Eq, IsZero;
    SlopeOfTangent(X, Y, z, c.x(p), c.y(p), l);
    DoubleX(X, Y, z, c.x(p), c.x(d), l, t);
    DoubleY(X, Y, z, c.x(p), c.y(p), c.x(d), c.y(d), l, t, t * t - 8 * (X * (Y * Y)));
    DoubleTerms(X, Y, t);
    NonzeroY(c.inv, Y, z, c.y(p));
    NewZ(a.z, f, Y);
  }

  lemma NewZ(z: int, f: int, y: int)
    ensures z * f * y * 2 == z * y * 2 * f
  {
  }

  lemma DoubleTerms(X: int, Y: int, t: int)
    ensures t * t - Y * Y * 2 * X * 4 == t * t - 8 * (X * (Y * Y))
    ensures Y * Y * 2 * X * 6 == 12 * (X * (Y * Y))
    ensures Y * Y * 2 * (Y * Y * 2) * 2 == 8 * (Y * Y * (Y * Y))
  {
  }

  lemma NonzeroY(inv: int -> int, Y: int, z: int, y: int)
    requires IsInverse(inv) && !IsZero(z) && !IsZero(y) && Eq(Y, y * (z * z * z))
    ensures !IsZero(Y) && !IsZero(z * Y * 2)
  {
    hide Eq, IsInverse;
    SquareNonzero(inv, z);
    NonzeroProduct(inv, y, z * z * z);
    ZeroEq(Y, y * (z * z * z));
    NonzeroProduct(inv, z, Y);
    NonzeroProduct(inv, z * Y, 2);
    DivModUnique(2, CHAR, 0, 2);
  }

  // ---------- addition ----------

  /** The common end of the addition formulas: u1, s1 and u2, s2 are the coordinates of p and
  q scaled to the same z, and the points have different x. */
  lemma SumRepresents(c: Curve, p: Point, q: Point, z: int, u1: int, s1: int, u2: int, s2: int, h: int, i: int,
                      x3: int, y3: int)
    requires IsCurve(c) && Finite(c, p) && Finite(c, q) && !IsZero(z) && !IsZero(h)
    requires Scaled(u1, s1, z, c.x(p), c.y(p)) && Scaled(u2, s2, z, c.x(q), c.y(q))
    requires h == u2 - u1 && i == s2 - s1
    requires x3 == -(u1 * (h * h) * 2 + h * h * h) + i * i
    requires y3 == (-x3 + u1 * (h * h)) * i - h * h * h * s1
    ensures var r := c.group.add(p, q);
            Finite(c, r) && !IsZero(z * h) && Scaled(x3, y3, z * h, c.x(r), c.y(r))
  {
    var r := c.group.add(p, q);
    Facts(c);
    hide IsCurve, Eq, IsZero;
    SquareNonzero(c.inv, z);
    SameCoordinate(c.inv, u1, u2, c.x(p), c.x(q), z * z);
    var l := SumOf(c, p, q);
    SlopeOfSum(u1, s1, z, c.x(p), c.y(p), c.x(q), c.y(q), l, u2, s2);
    SumX(u1, z, c.x(p), c.x(q), c.x(r), l, u2, i);
    assert i * i - (h * h * h + 2 * (u1 * (h * h))) == x3;
    SumY(u1, s1, z, c.x(p), c.y(p), c.x(r), c.y(r), l, h, i, x3);
    assert (u1 * (h * h) - x3) * i - h * h * h * s1 == y3;
    NonzeroProduct(c.inv, z, h);
  }

  /** When h is zero, i decides between doubling and infinity. */
  lemma SameXRepresents(c: Curve, p: Point, q: Point, z: int, u1: int, s1: int, u2: int, s2: int)
    requires IsCurve(c) && Finite(c, p) && Finite(c, q) && !IsZero(z) && IsZero(u2 - u1)
    requires Scaled(u1, s1, z, c.x(p), c.y(p)) && Scaled(u2, s2, z, c.x(q), c.y(q))
    ensures IsZero(s2 - s1) ==> p == q
    ensures !IsZero(s2 - s1) ==> c.group.add(p, q) == c.group.zero
  {
    Facts(c);
    hide IsCurve, Eq, IsZero, IsInverse, IsAbelian;
    SquareNonzero(c.inv, z);
    SameCoordinate(c.inv, u1, u2, c.x(p), c.x(q), z * z);
    SameCoordinate(c.inv, s1, s2, c.y(p), c.y(q), z * z * z);
    if IsZero(s2 - s1) {
      SamePoint(c, p, q);
    } else {
      SameXCases(c, p, q);
      if Eq(c.y(q), c.y(p)) { EqSymm(c.y(q), c.y(p)); }
      OppositePoint(c, p, q);
    }
  }

  /** Coordinates b over f, scaled to z * f. */
  lemma ScaleUp(bX: int, bY: int, f: int, z: int, x: int, y: int)
    requires Scaled(bX, bY, f, x, y)
    ensures Scaled(bX * (z * z), bY * (z * z) * z, z * f, x, y)
  {
    hide Eq;
    EqScale(bX, x * (f * f), z * z);
    EqScale(bY, y * (f * f * f), z * z * z);
    ScaleTerms(x, y, f, z);
    assert bY * (z * z) * z == bY * (z * z * z);
  }

  lemma ScaleTerms(x: int, y: int, f: int, z: int)
    ensures x * (f * f) * (z * z) == x * (z * f * (z * f))
    ensures y * (f * f * f) * (z * z * z) == y * (z * f * (z * f) * (z * f))
  {
  }

  /** `secp256k1_gej_add_ge_var`; rzr is the ratio of the new z to the old one. */
  method GejAddGeVar(c: Curve, a: Gej, b: Ge, ghost p: Point, ghost q: Point, ghost f: int) returns (r: Gej, rzr: int)
    requires IsCurve(c) && Represents(c, a, p, f) && RepresentsGe(c, b, q, f) && !IsZero(f)
    ensures Represents(c, r, c.group.add(p, q), f)
    ensures !a.infinity && !r.infinity ==> r.z == a.z * rzr
    ensures Finite(c, p) && Finite(c, q) && !Eq(c.x(p), c.x(q)) ==> rzr == b.x * (a.z * a.z) - a.x && !r.infinity
  {
    Facts(c);
    hide IsCurve, Eq, IsZero, IsInverse, IsAbelian;
    if a.infinity {
      Unit(c.group, q);
      assert 1 * f == f;
      return Gej(b.x, b.y, 1, b.infinity), 1;
    }
    if b.infinity {
      Unit(c.group, p);
      return a, 1;
    }
    var z12 := a.z * a.z;
    var u1 := a.x;
    var u2 := b.x * z12;
    var s1 := a.y;
    var s2 := b.y * z12;
    s2 := s2 * a.z;
    var h := -u1;
    h := h + u2;
    var i := -s1;
    i := i + s2;
    ScaleUp(b.x, b.y, f, a.z, c.x(q), c.y(q));
    if IsZero(h) {
      SameXRepresents(c, p, q, a.z * f, u1, s1, u2, s2);
      SameX(c, p, q, a.z * f, u1, u2);
      if IsZero(i) {
        r, rzr := GejDoubleVar(c, a, p, f);
      } else {
        r, rzr := Gej(a.x, a.y, a.z, true), 0;
      }
      return;
    }
    rzr := h;
    var z := a.z * h;
    var x, y := SumCoordinates(u1, s1, h, i);
    r := Gej(x, y, z, false);
    SumRepresents(c, p, q, a.z * f, u1, s1, u2, s2, h, i, x, y);
    NewZByH(a.z, f, h);
  }

  lemma NewZByH(z: int, f: int, h: int)
    ensures z * f * h == z * h * f
  {
  }

  /** The common end of the three additions: x and y from the differences h and i. */
  method SumCoordinates(u1: int, s1: int, h: int, i: int) returns (x: int, y: int)
    ensures x == -(u1 * (h * h) * 2 + h * h * h) + i * i
    ensures y == (-x + u1 * (h * h)) * i - h * h * h * s1
  {
    var i2 := i * i;
    var h2 := h * h;
    var h3 := h * h2;
    assert h3 == h * h * h;
    var t := u1 * h2;
    x := t * 2;
    x := x + h3;
    x := -x;
    x := x + i2;
    y := -x;
    y := y + t;
    y := y * i;
    h3 := h3 * s1;
    h3 := -h3;
    y := y + h3;
  }

  lemma OneIsNonzero()
    ensures !IsZero(1) && !IsZero(1 * 1)
  {
    DivModUnique(1, CHAR, 0, 1);
  }

  lemma SameX(c: Curve, p: Point, q: Point, z: int, u1: int, u2: int)
    requires IsCurve(c) && !IsZero(z) && Eq(u1, c.x(p) * (z * z)) && Eq(u2, c.x(q) * (z * z))
    ensures IsZero(u2 - u1) <==> Eq(c.x(p), c.x(q))
  {
    SquareNonzero(c.inv, z);
    SameCoordinate(c.inv, u1, u2, c.x(p), c.x(q), z * z);
  }

  /** u, s are the coordinates of p, scaled from z by another factor. */
  lemma ScaleBy(X: int, Y: int, z: int, x: int, y: int, k: int)
    requires Scaled(X, Y, z, x, y)
    ensures Scaled(X * (k * k), Y * (k * k) * k, z * k, x, y)
  {
    ScaleUp(X, Y, z, k, x, y);
    assert k * z == z * k;
  }

  /** `secp256k1_gej_add_var` */
  method GejAddVar(c: Curve, a: Gej, b: Gej, ghost p: Point, ghost q: Point) returns (r: Gej, rzr: int)
    requires IsCurve(c) && Represents(c, a, p, 1) && Represents(c, b, q, 1)
    ensures Represents(c, r, c.group.add(p, q), 1)
    ensures !a.infinity && !r.infinity ==> r.z == a.z * rzr
  {
    Facts(c);
    hide IsCurve, Eq, IsZero, IsInverse, IsAbelian;
    if a.infinity {
      Unit(c.group, q);
      return b, 1;
    }
    if b.infinity {
      Unit(c.group, p);
      return a, 1;
    }
    var z22 := b.z * b.z;
    var z12 := a.z * a.z;
    var u1 := a.x * z22;
    var u2 := b.x * z12;
    var s1 := a.y * z22;
    s1 := s1 * b.z;
    var s2 := b.y * z12;
    s2 := s2 * a.z;
    var h := -u1;
    h := h + u2;
    var i := -s1;
    i := i + s2;
    ghost var zz := a.z * b.z;
    NonzeroProduct(c.inv, a.z, b.z);
    ScaleBy(a.x, a.y, a.z, c.x(p), c.y(p), b.z);
    ScaleBy(b.x, b.y, b.z, c.x(q), c.y(q), a.z);
    assert b.z * a.z == zz;
    if IsZero(h) {
      SameXRepresents(c, p, q, zz, u1, s1, u2, s2);
      if IsZero(i) {
        r, rzr := GejDoubleVar(c, a, p, 1);
      } else {
        r, rzr := Gej(a.x, a.y, a.z, true), 0;
      }
      return;
    }
    rzr := h * b.z;
    var z := a.z * rzr;
    var x, y := SumCoordinates(u1, s1, h, i);
    r := Gej(x, y, z, false);
    SumRepresents(c, p, q, zz, u1, s1, u2, s2, h, i, x, y);
    NewZFrom(a.z, b.z, h);
  }

  lemma NewZFrom(z: int, k: int, h: int)
    ensures z * k * h == z * (h * k)
  {
  }

  /** `secp256k1_gej_add_zinv_var`: b has the z coordinate whose inverse is t, on the curve on
  which a lacks the factor f. */
  method GejAddZinvVar(c: Curve, a: Gej, b: Ge, t: int, ghost p: Point, ghost q: Point, ghost f: int) returns (r: Gej)
    requires IsCurve(c) && Represents(c, a, p, f) && !IsZero(f) && (b.infinity <==> !Finite(c, q))
    requires !b.infinity ==> Scaled(b.x * (t * t), b.y * (t * t * t), f, c.x(q), c.y(q))
    ensures Represents(c, r, c.group.add(p, q), f)
  {
    Facts(c);
    hide IsCurve, Eq, IsZero, IsInverse, IsAbelian;
    if b.infinity {
      Unit(c.group, p);
      return a;
    }
    if a.infinity {
      Unit(c.group, q);
      assert 1 * f == f;
      var t2 := t * t;
      var t3 := t2 * t;
      return Gej(b.x * t2, b.y * t3, 1, b.infinity);
    }
    var az := a.z * t;
    var z12 := az * az;
    var u1 := a.x;
    var u2 := b.x * z12;
    var s1 := a.y;
    var s2 := b.y * z12;
    s2 := s2 * az;
    var h := -u1;
    h := h + u2;
    var i := -s1;
    i := i + s2;
    ScaleUp(b.x * (t * t), b.y * (t * t * t), f, a.z, c.x(q), c.y(q));
    Isomorphism(b.x, b.y, t, a.z);
    if IsZero(h) {
      SameXRepresents(c, p, q, a.z * f, u1, s1, u2, s2);
      if IsZero(i) {
        var ratio;
        r, ratio := GejDoubleVar(c, a, p, f);
      } else {
        r := Gej(a.x, a.y, a.z, true);
      }
      return;
    }
    var z := a.z;
    z := z * h;
    var x, y := SumCoordinates(u1, s1, h, i);
    r := Gej(x, y, z, false);
    SumRepresents(c, p, q, a.z * f, u1, s1, u2, s2, h, i, x, y);
    NewZByH(a.z, f, h);
  }

  /** Moving the factor t from the coordinates to z. */
  lemma Isomorphism(x: int, y: int, t: int, z: int)
    ensures x * (z * t * (z * t)) == x * (t * t) * (z * z)
    ensures y * (z * t * (z * t)) * (z * t) == y * (t * t * t) * (z * z) * z
  {
  }

  // ---------- the unified addition ----------

  /** The slope from p to q, in the form that also holds for doubling. */
  lemma UnifiedSlopeOf(c: Curve, p: Point, q: Point) returns (l: int)
    requires IsCurve(c) && Finite(c, p) && Finite(c, q) && c.group.add(p, q) != c.group.zero
    ensures UnifiedSlope(l, c.x(p), c.y(p), c.x(q), c.y(q)) && Sum(c, l, p, q)
    ensures !Eq(c.x(p), c.x(q)) ==> Chord(l, c.x(p), c.y(p), c.x(q), c.y(q))
    ensures Eq(2 * c.y(c.group.add(p, q)),
               l * (c.x(p) + c.x(q) - 2 * c.x(c.group.add(p, q))) - (c.y(p) + c.y(q)))
  {
    Facts(c);
    PointFacts(c, p);
    PointFacts(c, q);
    hide IsCurve, Eq, IsZero, IsInverse, IsAbelian;
    var r := c.group.add(p, q);
    if Eq(c.x(p), c.x(q)) {
      SameXCases(c, p, q);
      if Eq(c.y(q), -c.y(p)) { OppositePoint(c, p, q); }
      EqSymm(c.y(q), c.y(p));
      SamePoint(c, p, q);
      l := DoubleOf(c, p);
      TangentUnified(l, c.x(p), c.y(p));
      TwiceY(l, c.x(p), c.y(p), c.x(p), c.y(p), c.x(r), c.y(r));
    } else {
      l := SumOf(c, p, q);
      ChordUnified(c.inv, l, c.x(p), c.y(p), c.x(q), c.y(q));
      EqSymm2(c.x(q), c.x(p));
      TwiceY(l, c.x(p), c.y(p), c.x(q), c.y(q), c.x(r), c.y(r));
    }
  }

  lemma EqSymm2(a: int, b: int)
    ensures Eq(a, b) <==> Eq(b, a)
  {
    if Eq(a, b) { EqSymm(a, b); }
    if Eq(b, a) { EqSymm(b, a); }
  }

  lemma TangentUnified(l: int, x: int, y: int)
    requires Tangent(l, x, y)
    ensures UnifiedSlope(l, x, y, x, y) && Chord(l, x, y, x, y)
  {
    assert x * x + x * x + x * x == 3 * (x * x) && y + y == 2 * y;
    EqRefl(0);
    assert l * (x - x) == 0;
  }

  /** On the curve (y2 - y1)(y2 + y1) == (x2 - x1)(x1^2 + x1 x2 + x2^2). */
  lemma ChordUnified(inv: int -> int, l: int, x1: int, y1: int, x2: int, y2: int)
    requires IsInverse(inv) && Chord(l, x1, y1, x2, y2) && !Eq(x1, x2)
    requires Eq(y1 * y1, x1 * x1 * x1 + 7) && Eq(y2 * y2, x2 * x2 * x2 + 7)
    ensures UnifiedSlope(l, x1, y1, x2, y2)
  {
    hide Eq, IsZero, IsInverse;
    var d, s, quad := x2 - x1, y1 + y2, x1 * x1 + x1 * x2 + x2 * x2;
    EqScale(l * d, y2 - y1, s);
    EqSub(y2 * y2, x2 * x2 * x2 + 7, y1 * y1, x1 * x1 * x1 + 7);
    CubicDifference(x1, y1, x2, y2, l);
    EqTrans(l * s * d, y2 * y2 - y1 * y1, quad * d);
    EqDifference(x2, x1);
    EqSymm2(x1, x2);
    Cancel(inv, l * s, quad, d);
  }

  lemma CubicDifference(x1: int, y1: int, x2: int, y2: int, l: int)
    ensures (y2 - y1) * (y1 + y2) == y2 * y2 - y1 * y1
    ensures x2 * x2 * x2 + 7 - (x1 * x1 * x1 + 7) == (x1 * x1 + x1 * x2 + x2 * x2) * (x2 - x1)
    ensures l * (x2 - x1) * (y1 + y2) == l * (y1 + y2) * (x2 - x1)
  {
  }

  /** Both ends of the chord give y3, hence so does their mean. */
  lemma TwiceY(l: int, x1: int, y1: int, x2: int, y2: int, x3: int, y3: int)
    requires Chord(l, x1, y1, x2, y2) && Line(l, x1, y1, x2, x3, y3)
    ensures Eq(2 * y3, l * (x1 + x2 - 2 * x3) - (y1 + y2))
  {
    hide Eq;
    var e := l * (x1 - x3) - y1;
    EqAdd(y3, e, y3, e);
    EqSymm(l * (x2 - x1), y2 - y1);
    EqAdd(y3 + y3, e + e, y2 - y1, l * (x2 - x1));
    EqRefl(y2 - y1);
    EqSub(y3 + y3 + (y2 - y1), e + e + l * (x2 - x1), y2 - y1, y2 - y1);
    MeanOfEnds(l, x1, x2, x3);
  }

  lemma MeanOfEnds(l: int, x1: int, x2: int, x3: int)
    ensures l * (x1 - x3) + l * (x1 - x3) + l * (x2 - x1) == l * (x1 + x2 - 2 * x3)
  {
  }

  /** Multiplying by 2 z m instead of z m. */
  lemma Quadruple(t: int, s: int, w: int, x: int, y: int)
    requires Eq(t, x * (w * w)) && Eq(s, -2 * y * (w * w * w))
    ensures Scaled(t * 4, -s * 4, w * 2, x, y)
  {
    hide Eq;
    EqScale(t, x * (w * w), 4);
    EqScale(s, -2 * y * (w * w * w), -4);
    Eightfold(w, x, y);
  }

  lemma Eightfold(w: int, x: int, y: int)
    ensures x * (w * w) * 4 == x * (w * 2 * (w * 2))
    ensures -2 * y * (w * w * w) * -4 == y * (w * 2 * (w * 2) * (w * 2))
  {
  }

  /** The fourth power of m = S1 + S2, scaled. */
  lemma FourthPower(m: int, z: int, sy: int)
    requires Eq(m, sy * (z * z * z))
    ensures Eq(m * m * (m * m), sy * (z * m * (z * m) * (z * m)))
  {
    hide Eq;
    EqScale(m, sy * (z * z * z), m * m * m);
    assert sy * (z * z * z) * (m * m * m) == sy * (z * m * (z * m) * (z * m)) by { ScaleTerms(0, sy, z, m); assert m * z == z * m; }
    assert m * (m * m * m) == m * m * (m * m);
  }

  /** When S1 + S2 vanishes, so does everything it multiplies. */
  lemma ZeroSum(m: int, z: int, k: int, sy: int)
    requires Eq(m, sy * (z * z * z)) && IsZero(m)
    ensures Eq(m, sy * (z * k * (z * k) * (z * k)))
  {
    hide Eq, IsZero;
    ZeroEq(m, sy * (z * z * z));
    ZeroFactor(sy * (z * z * z), k * k * k);
    assert sy * (z * z * z) * (k * k * k) == sy * (z * k * (z * k) * (z * k)) by { ScaleTerms(0, sy, z, k); assert k * z == z * k; }
    ZeroIffEq(m);
    ZeroIffEq(sy * (z * k * (z * k) * (z * k)));
    EqSymm2(sy * (z * k * (z * k) * (z * k)), 0);
    EqTrans(m, 0, sy * (z * k * (z * k) * (z * k)));
  }

  /** For S1 + S2 == 0 the alternative numerator is the slope times its denominator. */
  lemma AlternativeSlope(s1: int, s2: int, l: int, z: int, h: int)
    requires IsZero(s1 + s2) && Eq(s2 - s1, l * (z * h))
    ensures Eq(s1 * 2, l * (z * -h))
  {
    hide Eq, IsZero;
    ZeroIffEq(s1 + s2);
    EqSub(s1 + s2, 0, s2 - s1, l * (z * h));
    assert 0 - l * (z * h) == l * (z * -h) by { assert z * -h == -(z * h); }
  }

  /** y1 + y2 scaled; it vanishes exactly for opposite y. */
  lemma SumOfY(c: Curve, p: Point, q: Point, z: int, s1: int, s2: int)
    requires IsCurve(c) && !IsZero(z) && Eq(s1, c.y(p) * (z * z * z)) && Eq(s2, c.y(q) * (z * z * z))
    ensures Eq(s1 + s2, (c.y(p) + c.y(q)) * (z * z * z))
    ensures IsZero(s1 + s2) <==> Eq(c.y(q), -c.y(p))
  {
    Facts(c);
    hide IsCurve, Eq, IsZero, IsInverse;
    var k := z * z * z;
    EqAdd(s1, c.y(p) * k, s2, c.y(q) * k);
    assert c.y(p) * k + c.y(q) * k == (c.y(p) + c.y(q)) * k;
    SquareNonzero(c.inv, z);
    ZeroEq(s1 + s2, (c.y(p) + c.y(q)) * k);
    NonzeroProduct(c.inv, k, c.y(p) + c.y(q));
    assert k * (c.y(p) + c.y(q)) == (c.y(p) + c.y(q)) * k;
    EqDifference(c.y(q), -c.y(p));
    assert c.y(q) - -c.y(p) == c.y(p) + c.y(q);
  }

  /** Numerator and denominator of the slope as the unified addition selects them. */
  datatype Slope = Slope(degenerate: bool, r: int, m: int, n: int)

  function Selected(u1: int, s1: int, u2: int, s2: int): Slope {
    var m, rr := s1 + s2, (u1 + u2) * (u1 + u2) - u1 * u2;
    if IsZero(m) && IsZero(rr) then Slope(true, s1 * 2, u1 - u2, m) else Slope(false, rr, m, m * m * (m * m))
  }

  /** Opposite points: the denominator vanishes. */
  lemma SelectedOpposite(c: Curve, p: Point, q: Point, z: int, u1: int, s1: int, u2: int, s2: int)
    requires IsCurve(c) && Finite(c, p) && Finite(c, q) && !IsZero(z) && c.group.add(p, q) == c.group.zero
    requires Scaled(u1, s1, z, c.x(p), c.y(p)) && Scaled(u2, s2, z, c.x(q), c.y(q))
    ensures IsZero(z * Selected(u1, s1, u2, s2).m)
  {
    Facts(c);
    PointFacts(c, p);
    NegIsUnique(c.group, p, q);
    SumOfY(c, p, q, z, s1, s2);
    SameX(c, p, q, z, u1, u2);
    hide IsCurve, Eq, IsZero, IsInverse, IsAbelian;
    EqSymm2(c.x(p), c.x(q));
    EqDifference(u2, u1);
    EqDifference(u1, u2);
    EqSymm2(u1, u2);
    NonzeroProduct(c.inv, z, Selected(u1, s1, u2, s2).m);
  }

  /** Otherwise it does not, and the quotient is the slope. */
  lemma SelectedSlope(c: Curve, p: Point, q: Point, z: int, u1: int, s1: int, u2: int, s2: int, l: int)
    requires IsCurve(c) && Finite(c, p) && Finite(c, q) && !IsZero(z) && c.group.add(p, q) != c.group.zero
    requires Scaled(u1, s1, z, c.x(p), c.y(p)) && Scaled(u2, s2, z, c.x(q), c.y(q))
    requires UnifiedSlope(l, c.x(p), c.y(p), c.x(q), c.y(q))
    requires !Eq(c.x(p), c.x(q)) ==> Chord(l, c.x(p), c.y(p), c.x(q), c.y(q))
    ensures var s := Selected(u1, s1, u2, s2);
            && Eq(s.r, l * (z * s.m)) && !IsZero(z * s.m)
            && Eq(s.n, (c.y(p) + c.y(q)) * (z * s.m * (z * s.m) * (z * s.m)))
  {
    Facts(c);
    SumOfY(c, p, q, z, s1, s2);
    SameX(c, p, q, z, u1, u2);
    UnifiedNumerator(u1, s1, z, c.x(p), c.y(p), c.x(q), c.y(q), l, u2, s2);
    if Eq(c.x(p), c.x(q)) && Eq(c.y(q), -c.y(p)) { OppositePoint(c, p, q); }
    if !Eq(c.x(p), c.x(q)) { SlopeOfSum(u1, s1, z, c.x(p), c.y(p), c.x(q), c.y(q), l, u2, s2); }
    var s := Selected(u1, s1, u2, s2);
    hide IsCurve, Eq, IsZero, IsInverse, IsAbelian, Scaled;
    NonzeroProduct(c.inv, z, s.m);
    if s.degenerate {
      AlternativeSlope(s1, s2, l, z, u2 - u1);
      ZeroSum(s1 + s2, z, s.m, c.y(p) + c.y(q));
      EqDifference(u2, u1);
      EqDifference(u1, u2);
      EqSymm2(u1, u2);
    } else {
      FourthPower(s1 + s2, z, c.y(p) + c.y(q));
      ZeroNumerator((u1 + u2) * (u1 + u2) - u1 * u2, l, z, s1 + s2);
    }
  }

  lemma ZeroNumerator(r: int, l: int, z: int, m: int)
    requires Eq(r, l * (z * m))
    ensures IsZero(m) ==> IsZero(r)
  {
    hide Eq, IsZero;
    ZeroFactor(m, l * z);
    ZeroEq(r, l * (z * m));
    assert m * (l * z) == l * (z * m);
  }

  /** `secp256k1_gej_add_ge`: one formula for every pair of points with finite b. */
  method GejAddGe(c: Curve, a: Gej, b: Ge, ghost p: Point, ghost q: Point, ghost f: int) returns (r: Gej)
    requires IsCurve(c) && Represents(c, a, p, f) && RepresentsGe(c, b, q, f) && !IsZero(f) && !b.infinity
    ensures Represents(c, r, c.group.add(p, q), f)
  {
    Facts(c);
    hide IsCurve, Eq, IsZero, IsInverse, IsAbelian, Sum;
    var zz := a.z * a.z;
    var u1 := a.x;
    var u2 := b.x * zz;
    var s1 := a.y;
    var s2 := b.y * zz;
    s2 := s2 * a.z;
    var t := u1 + u2;
    var m := s1 + s2;
    var rr := t * t;
    var mAlt := -u2;
    var tt := u1 * mAlt;
    rr := rr + tt;
    var degenerate := IsZero(m) && IsZero(rr);
    var rrAlt := s1 * 2;
    mAlt := mAlt + u1;
    rrAlt := if !degenerate then rr else rrAlt;
    mAlt := if !degenerate then m else mAlt;
    ghost var slope := Selected(u1, s1, u2, s2);
    assert rr == (u1 + u2) * (u1 + u2) - u1 * u2 by { NegProduct(u1, u2); }
    assert slope.r == rrAlt && slope.m == mAlt;
    var n := mAlt * mAlt;
    ghost var sum := t;
    var q1 := n * t;
    n := n * n;
    n := if degenerate then m else n;
    assert slope.n == n;
    t := rrAlt * rrAlt;
    var z := a.z * mAlt;
    var infinity := IsZero(z) && !a.infinity;
    z := z * 2;
    q1 := -q1;
    t := t + q1;
    var x := t;
    ghost var t0 := t;
    t := t * 2;
    t := t + q1;
    t := t * rrAlt;
    t := t + n;
    var y := -t;
    x := x * 4;
    y := y * 4;
    x := if a.infinity then b.x else x;
    y := if a.infinity then b.y else y;
    z := if a.infinity then 1 else z;
    r := Gej(x, y, z, infinity);
    if a.infinity {
      Unit(c.group, q);
      assert 1 * f == f;
    } else {
      ScaleUp(b.x, b.y, f, a.z, c.x(q), c.y(q));
      UnifiedSum(c, p, q, a.z, f, u1, s1, u2, s2, slope, t0, t);
    }
  }

  /** The end of the unified addition: u1, s1 and u2, s2 are p and q scaled to z * f. */
  lemma UnifiedSum(c: Curve, p: Point, q: Point, z: int, f: int, u1: int, s1: int, u2: int, s2: int, s: Slope,
                   t: int, y: int)
    requires IsCurve(c) && Finite(c, p) && Finite(c, q) && !IsZero(f) && !IsZero(z * f)
    requires Scaled(u1, s1, z * f, c.x(p), c.y(p)) && Scaled(u2, s2, z * f, c.x(q), c.y(q))
    requires s == Selected(u1, s1, u2, s2)
    requires t == s.r * s.r - s.m * s.m * (u1 + u2)
    requires y == (t * 2 - s.m * s.m * (u1 + u2)) * s.r + s.n
    ensures Represents(c, Gej(t * 4, -y * 4, z * s.m * 2, IsZero(z * s.m)), c.group.add(p, q), f)
  {
    Facts(c);
    hide IsCurve, Eq, IsZero, IsInverse, IsAbelian, Sum;
    NewZByH(z, f, s.m);
    NonzeroProduct(c.inv, f, z * s.m);
    assert f * (z * s.m) == z * s.m * f;
    if c.group.add(p, q) == c.group.zero {
      SelectedOpposite(c, p, q, z * f, u1, s1, u2, s2);
    } else {
      var l := UnifiedSlopeOf(c, p, q);
      SelectedSlope(c, p, q, z * f, u1, s1, u2, s2, l);
      UnifiedRepresents(c, p, q, z * f, u1, u2, l, s, t, y);
      TimesTwo(c.inv, z * s.m * f);
      assert z * s.m * 2 * f == z * s.m * f * 2;
    }
  }

  lemma NegProduct(a: int, b: int)
    ensures a * -b == -(a * b)
  {
  }

  lemma TimesTwo(inv: int -> int, w: int)
    requires IsInverse(inv) && !IsZero(w)
    ensures !IsZero(w * 2)
  {
    NonzeroProduct(inv, w, 2);
    DivModUnique(2, CHAR, 0, 2);
  }

  lemma UnifiedRepresents(c: Curve, p: Point, q: Point, z: int, u1: int, u2: int, l: int, s: Slope, t: int, y: int)
    requires Eq(u1, c.x(p) * (z * z)) && Eq(u2, c.x(q) * (z * z)) && Sum(c, l, p, q)
    requires Eq(2 * c.y(c.group.add(p, q)), l * (c.x(p) + c.x(q) - 2 * c.x(c.group.add(p, q))) - (c.y(p) + c.y(q)))
    requires Eq(s.r, l * (z * s.m)) && Eq(s.n, (c.y(p) + c.y(q)) * (z * s.m * (z * s.m) * (z * s.m)))
    requires t == s.r * s.r - s.m * s.m * (u1 + u2)
    requires y == (t * 2 - s.m * s.m * (u1 + u2)) * s.r + s.n
    ensures Scaled(t * 4, -y * 4, z * s.m * 2, c.x(c.group.add(p, q)), c.y(c.group.add(p, q)))
  {
    hide Eq;
    var r := c.group.add(p, q);
    UnifiedX(u1, z, c.x(p), c.x(q), c.x(r), l, u2, s.m, s.r);
    UnifiedY(z, c.x(p), c.y(p), c.x(q), c.y(q), c.x(r), c.y(r), l, s.m, s.r, s.m * s.m * (u1 + u2), t, s.n);
    assert 2 * t == t * 2;
    Quadruple(t, y, z * s.m, c.x(r), c.y(r));
  }
}
