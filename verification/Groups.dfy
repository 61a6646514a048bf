/** Commutative groups and integer multiples of their elements.

The curve points form such a group; that chord-and-tangent addition is associative is an
assumption of the model, carried by `IsAbelian` wherever it is used. */
module Groups {

  // Any type of points: nothing below depends on how a point is represented.
  type Point(==, !new)

  datatype Group = Group(zero: Point, add: (Point, Point) -> Point, neg: Point -> Point)

  // Each law is a predicate of its own, so that a proof instantiates it by naming it.
  ghost predicate AssocAt(g: Group, a: Point, b: Point, c: Point) {
    g.add(g.add(a, b), c) == g.add(a, g.add(b, c))
  }

  ghost predicate CommAt(g: Group, a: Point, b: Point) {
    g.add(a, b) == g.add(b, a)
  }

  ghost predicate UnitAt(g: Group, a: Point) {
    g.add(g.zero, a) == a && g.add(a, g.neg(a)) == g.zero
  }

  ghost predicate IsAbelian(g: Group) {
    && (forall a, b, c :: AssocAt(g, a, b, c))
    && (forall a, b :: CommAt(g, a, b))
    && (forall a :: UnitAt(g, a))
  }

  /** The integer multiple k * p, by repeated addition of p or of its inverse. */
  function Mul(g: Group, k: int, p: Point): Point
    decreases if k < 0 then -k else k
  {
    if k == 0 then g.zero
    else if k > 0 then g.add(Mul(g, k - 1, p), p)
    else g.add(Mul(g, k + 1, p), g.neg(p))
  }

  /** The linear combination ks[0]*ps[0] + ks[1]*ps[1] + ... */
  function Lin(g: Group, ks: seq<int>, ps: seq<Point>): Point
    requires |ks| == |ps|
  {
    if ks == [] then g.zero
    else g.add(Lin(g, ks[..|ks| - 1], ps[..|ks| - 1]), Mul(g, ks[|ks| - 1], ps[|ks| - 1]))
  }

  // ---------- elementary rearrangements ----------

  /** (a + b) + (c + d) == (a + c) + (b + d) */
  lemma Swap(g: Group, a: Point, b: Point, c: Point, d: Point)
    requires IsAbelian(g)
    ensures g.add(g.add(a, b), g.add(c, d)) == g.add(g.add(a, c), g.add(b, d))
  {
    assert AssocAt(g, a, b, g.add(c, d)) && AssocAt(g, b, c, d) && CommAt(g, b, c);
    assert AssocAt(g, c, b, d) && AssocAt(g, a, c, g.add(b, d));
  }

  /** (a + b) + c == (a + c) + b */
  lemma SwapLast(g: Group, a: Point, b: Point, c: Point)
    requires IsAbelian(g)
    ensures g.add(g.add(a, b), c) == g.add(g.add(a, c), b)
  {
    assert AssocAt(g, a, b, c) && CommAt(g, b, c) && AssocAt(g, a, c, b);
  }

  lemma Assoc(g: Group, a: Point, b: Point, c: Point)
    requires IsAbelian(g)
    ensures g.add(g.add(a, b), c) == g.add(a, g.add(b, c))
  {
    assert AssocAt(g, a, b, c);
  }

  lemma Commutes(g: Group, a: Point, b: Point)
    requires IsAbelian(g)
    ensures g.add(a, b) == g.add(b, a)
  {
    assert CommAt(g, a, b);
  }

  lemma Unit(g: Group, a: Point)
    requires IsAbelian(g)
    ensures g.add(g.zero, a) == a && g.add(a, g.zero) == a
    ensures g.add(a, g.neg(a)) == g.zero && g.add(g.neg(a), a) == g.zero
  {
    assert UnitAt(g, a) && CommAt(g, g.zero, a) && CommAt(g, a, g.neg(a));
  }

  lemma AddNegCancels(g: Group, a: Point, b: Point)
    requires IsAbelian(g)
    ensures g.add(g.add(a, b), g.neg(b)) == a
    ensures g.add(g.add(a, g.neg(b)), b) == a
  {
    assert AssocAt(g, a, b, g.neg(b)) && AssocAt(g, a, g.neg(b), b);
    Unit(g, b);
    Unit(g, a);
  }

  lemma NegIsUnique(g: Group, a: Point, b: Point)
    requires IsAbelian(g)
    requires g.add(a, b) == g.zero
    ensures b == g.neg(a)
  {
    AddNegCancels(g, b, a);
    assert CommAt(g, a, b);
    Unit(g, g.neg(a));
  }

  // ---------- integer multiples ----------

  lemma MulSucc(g: Group, k: int, p: Point)
    requires IsAbelian(g)
    ensures Mul(g, k + 1, p) == g.add(Mul(g, k, p), p)
    ensures Mul(g, k - 1, p) == g.add(Mul(g, k, p), g.neg(p))
  {
    if k < 0 { AddNegCancels(g, Mul(g, k + 1, p), p); }
    if k > 0 { AddNegCancels(g, Mul(g, k - 1, p), p); }
  }

  /** (a + b) * p == a * p + b * p */
  lemma {:induction false} MulAdd(g: Group, a: int, b: int, p: Point)
    requires IsAbelian(g)
    ensures Mul(g, a + b, p) == g.add(Mul(g, a, p), Mul(g, b, p))
    decreases if b < 0 then -b else b
  {
    if b == 0 {
      Unit(g, Mul(g, a, p));
    } else if b > 0 {
      MulAdd(g, a, b - 1, p);
      MulSucc(g, a + b - 1, p);
      assert AssocAt(g, Mul(g, a, p), Mul(g, b - 1, p), p);
    } else {
      MulAdd(g, a, b + 1, p);
      MulSucc(g, a + b + 1, p);
      assert AssocAt(g, Mul(g, a, p), Mul(g, b + 1, p), g.neg(p));
    }
  }

  lemma MulOne(g: Group, p: Point)
    requires IsAbelian(g)
    ensures Mul(g, 1, p) == p && Mul(g, -1, p) == g.neg(p) && Mul(g, 2, p) == g.add(p, p)
  {
    MulSucc(g, 0, p);
    MulSucc(g, 1, p);
    Unit(g, p);
    Unit(g, g.neg(p));
  }

  lemma MulNeg(g: Group, k: int, p: Point)
    requires IsAbelian(g)
    ensures Mul(g, -k, p) == g.neg(Mul(g, k, p))
  {
    MulAdd(g, k, -k, p);
    NegIsUnique(g, Mul(g, k, p), Mul(g, -k, p));
  }

  /** k * (p + q) == k * p + k * q */
  lemma {:induction false} MulDistributes(g: Group, k: int, p: Point, q: Point)
    requires IsAbelian(g)
    ensures Mul(g, k, g.add(p, q)) == g.add(Mul(g, k, p), Mul(g, k, q))
    decreases if k < 0 then -k else k
  {
    if k == 0 {
      Unit(g, g.zero);
    } else if k > 0 {
      MulDistributes(g, k - 1, p, q);
      Swap(g, Mul(g, k - 1, p), Mul(g, k - 1, q), p, q);
    } else {
      MulDistributes(g, k + 1, p, q);
      NegDistributes(g, p, q);
      Swap(g, Mul(g, k + 1, p), Mul(g, k + 1, q), g.neg(p), g.neg(q));
    }
  }

  lemma NegDistributes(g: Group, p: Point, q: Point)
    requires IsAbelian(g)
    ensures g.neg(g.add(p, q)) == g.add(g.neg(p), g.neg(q))
  {
    Swap(g, p, q, g.neg(p), g.neg(q));
    Unit(g, p);
    Unit(g, q);
    Unit(g, g.zero);
    NegIsUnique(g, g.add(p, q), g.add(g.neg(p), g.neg(q)));
  }

  /** (a * b) * p == a * (b * p) */
  lemma {:induction false} MulMul(g: Group, a: int, b: int, p: Point)
    requires IsAbelian(g)
    ensures Mul(g, a * b, p) == Mul(g, a, Mul(g, b, p))
    decreases if a < 0 then -a else a
  {
    if a == 0 {
    } else if a > 0 {
      MulMul(g, a - 1, b, p);
      assert a * b == (a - 1) * b + b;
      MulAdd(g, (a - 1) * b, b, p);
    } else {
      MulMul(g, a + 1, b, p);
      assert a * b == (a + 1) * b + (-b);
      MulAdd(g, (a + 1) * b, -b, p);
      MulNeg(g, b, p);
    }
  }

  lemma {:induction false} MulZeroPoint(g: Group, k: int)
    requires IsAbelian(g)
    ensures Mul(g, k, g.zero) == g.zero
  {
    MulMul(g, k, 0, g.zero);
  }

  /** Multiples of a point killed by n only depend on the multiplier modulo n. */
  lemma MulCongruent(g: Group, n: int, a: int, q: int, p: Point)
    requires IsAbelian(g)
    requires Mul(g, n, p) == g.zero
    ensures Mul(g, a + q * n, p) == Mul(g, a, p)
  {
    MulAdd(g, a, q * n, p);
    MulMul(g, q, n, p);
    MulZeroPoint(g, q);
    Unit(g, Mul(g, a, p));
  }

  // ---------- linear combinations ----------

  lemma LinSnoc(g: Group, ks: seq<int>, ps: seq<Point>, k: int, p: Point)
    requires |ks| == |ps|
    ensures Lin(g, ks + [k], ps + [p]) == g.add(Lin(g, ks, ps), Mul(g, k, p))
  {
    assert (ks + [k])[..|ks|] == ks && (ps + [p])[..|ps|] == ps;
  }

  /** Multiplying a linear combination multiplies its coefficients. */
  lemma {:induction false} LinScale(g: Group, m: int, ks: seq<int>, ps: seq<Point>)
    requires IsAbelian(g)
    requires |ks| == |ps|
    ensures Mul(g, m, Lin(g, ks, ps)) == Lin(g, Multiplied(m, ks), ps)
  {
    if ks == [] {
      MulZeroPoint(g, m);
    } else {
      var h := |ks| - 1;
      LinScale(g, m, ks[..h], ps[..h]);
      assert Multiplied(m, ks)[..h] == Multiplied(m, ks[..h]);
      MulDistributes(g, m, Lin(g, ks[..h], ps[..h]), Mul(g, ks[h], ps[h]));
      MulMul(g, m, ks[h], ps[h]);
    }
  }

  function Multiplied(m: int, ks: seq<int>): (r: seq<int>)
    ensures |r| == |ks|
  {
    seq(|ks|, i requires 0 <= i < |ks| => m * ks[i])
  }

  /** Adding two combinations of the same points adds their coefficients. */
  lemma {:induction false} LinAdd(g: Group, ks: seq<int>, ls: seq<int>, ms: seq<int>, ps: seq<Point>)
    requires IsAbelian(g)
    requires |ks| == |ls| == |ms| == |ps|
    requires forall i :: 0 <= i < |ks| ==> ms[i] == ks[i] + ls[i]
    ensures Lin(g, ms, ps) == g.add(Lin(g, ks, ps), Lin(g, ls, ps))
  {
    if ks == [] {
      Unit(g, g.zero);
    } else {
      var h := |ks| - 1;
      LinAdd(g, ks[..h], ls[..h], ms[..h], ps[..h]);
      MulAdd(g, ks[h], ls[h], ps[h]);
      Swap(g, Lin(g, ks[..h], ps[..h]), Lin(g, ls[..h], ps[..h]), Mul(g, ks[h], ps[h]), Mul(g, ls[h], ps[h]));
    }
  }

  lemma LinEmpty(g: Group)
    ensures Lin(g, [], []) == g.zero
  {
  }

  lemma {:induction false} LinZeros(g: Group, ks: seq<int>, ps: seq<Point>)
    requires IsAbelian(g) && |ks| == |ps| && forall k :: 0 <= k < |ks| ==> ks[k] == 0
    ensures Lin(g, ks, ps) == g.zero
  {
    if ks != [] {
      LinZeros(g, ks[..|ks| - 1], ps[..|ps| - 1]);
      Unit(g, g.zero);
    }
  }

  /** The next term of a linear combination; one with a zero factor can be skipped. */
  lemma LinPrefix(g: Group, ks: seq<int>, ps: seq<Point>, i: nat)
    requires IsAbelian(g) && |ks| == |ps| && i < |ks|
    ensures Lin(g, ks[..i + 1], ps[..i + 1]) == g.add(Lin(g, ks[..i], ps[..i]), Mul(g, ks[i], ps[i]))
    ensures ks[i] == 0 || ps[i] == g.zero ==> Lin(g, ks[..i + 1], ps[..i + 1]) == Lin(g, ks[..i], ps[..i])
  {
    hide IsAbelian, Lin;
    assert ks[..i + 1] == ks[..i] + [ks[i]] && ps[..i + 1] == ps[..i] + [ps[i]];
    LinSnoc(g, ks[..i], ps[..i], ks[i], ps[i]);
    MulZeroPoint(g, ks[i]);
    Unit(g, Lin(g, ks[..i], ps[..i]));
  }

  /** The terms of a linear combination can be split anywhere. */
  lemma {:induction false} LinAppend(g: Group, ks: seq<int>, ps: seq<Point>, ls: seq<int>, qs: seq<Point>)
    requires IsAbelian(g) && |ks| == |ps| && |ls| == |qs|
    ensures Lin(g, ks + ls, ps + qs) == g.add(Lin(g, ks, ps), Lin(g, ls, qs))
  {
    hide IsAbelian, Mul;
    if ls == [] {
      assert ks + ls == ks && ps + qs == ps;
      Unit(g, Lin(g, ks, ps));
    } else {
      var h := |ls| - 1;
      LinAppend(g, ks, ps, ls[..h], qs[..h]);
      assert ks + ls == ks + ls[..h] + [ls[h]] && ps + qs == ps + qs[..h] + [qs[h]];
      LinSnoc(g, ks + ls[..h], ps + qs[..h], ls[h], qs[h]);
      Assoc(g, Lin(g, ks, ps), Lin(g, ls[..h], qs[..h]), Mul(g, ls[h], qs[h]));
    }
  }
}
