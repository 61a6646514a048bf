/** The formulas of group_impl.h for points in Jacobian coordinates. */
module Coordinates {
  import opened Numbers
  import opened Field

  /** `secp256k1_gej` and `secp256k1_ge` */
  datatype Gej = Gej(x: int, y: int, z: int, infinity: bool)
  datatype Ge = Ge(x: int, y: int, infinity: bool)

  /** X / Z^2 and Y / Z^3 are x and y. */
  ghost predicate Scaled(X: int, Y: int, z: int, x: int, y: int) {
    Eq(X, x * (z * z)) && Eq(Y, y * (z * z * z))
  }

  /** The line of slope l through (x1, y1) meets the curve again below or above (x3, y3), where
  x2 is the third root: the group law, for addition and doubling. */
  ghost predicate Line(l: int, x1: int, y1: int, x2: int, x3: int, y3: int) {
    Eq(x3, l * l - x1 - x2) && Eq(y3, l * (x1 - x3) - y1)
  }

  /** The slope between two points. */
  ghost predicate Chord(l: int, x1: int, y1: int, x2: int, y2: int) {
    Eq(l * (x2 - x1), y2 - y1)
  }

  /** The slope of the curve y^2 = x^3 + 7 at a point. */
  ghost predicate Tangent(l: int, x: int, y: int) {
    Eq(l * (2 * y), 3 * (x * x))
  }

  // ---------- addition of different points ----------

  /** The numerator of the slope is the slope times the new z. */
  lemma SlopeOfSum(X: int, Y: int, z: int, x1: int, y1: int, x2: int, y2: int, l: int, u2: int, s2: int)
    requires Scaled(X, Y, z, x1, y1) && Scaled(u2, s2, z, x2, y2) && Chord(l, x1, y1, x2, y2)
    ensures Eq(s2 - Y, l * (z * (u2 - X)))
  {
    hide Eq;
    var zz, zzz := z * z, z * z * z;
    EqSub(u2, x2 * zz, X, x1 * zz);
    EqSub(s2, y2 * zzz, Y, y1 * zzz);
    EqScale(l * (x2 - x1), y2 - y1, zzz);
    EqScale(u2 - X, x2 * zz - x1 * zz, l * z);
    assert y2 * zzz - y1 * zzz == (y2 - y1) * zzz;
    EqSymm(l * (x2 - x1) * zzz, (y2 - y1) * zzz);
    EqTrans(s2 - Y, (y2 - y1) * zzz, l * (x2 - x1) * zzz);
    assert (x2 * zz - x1 * zz) * (l * z) == l * (x2 - x1) * zzz;
    assert (u2 - X) * (l * z) == l * (z * (u2 - X));
    EqSymm((u2 - X) * (l * z), l * (x2 - x1) * zzz);
    EqTrans(s2 - Y, l * (x2 - x1) * zzz, (u2 - X) * (l * z));
  }

  /** I^2 - H^3 - 2 U1 H^2 over (z H)^2. */
  lemma SumX(X: int, z: int, x1: int, x2: int, x3: int, l: int, u2: int, i: int)
    requires Eq(X, x1 * (z * z)) && Eq(u2, x2 * (z * z)) && Eq(x3, l * l - x1 - x2)
    requires Eq(i, l * (z * (u2 - X)))
    ensures var h := u2 - X; Eq(i * i - (h * h * h + 2 * (X * (h * h))), x3 * (z * h * (z * h)))
  {
    hide Eq;
    var h, zz := u2 - X, z * z;
    var w := z * h;
    EqMul(i, l * w, i, l * w);
    EqAdd(X, x1 * zz, u2, x2 * zz);
    EqScale(X + u2, x1 * zz + x2 * zz, h * h);
    EqSub(i * i, l * w * (l * w), (X + u2) * (h * h), (x1 * zz + x2 * zz) * (h * h));
    EqScale(x3, l * l - x1 - x2, w * w);
    EqSymm(x3 * (w * w), (l * l - x1 - x2) * (w * w));
    SumXIdentity(X, z, x1, x2, l, h);
    EqTrans(i * i - (X + u2) * (h * h), (l * l - x1 - x2) * (w * w), x3 * (w * w));
    assert (X + u2) * (h * h) == h * h * h + 2 * (X * (h * h));
  }

  lemma SumXIdentity(X: int, z: int, x1: int, x2: int, l: int, h: int)
    ensures l * (z * h) * (l * (z * h)) - (x1 * (z * z) + x2 * (z * z)) * (h * h)
            == (l * l - x1 - x2) * (z * h * (z * h))
  {
    var a, b := z * z, h * h;
    assert z * h * (z * h) == a * b;
    assert l * (z * h) * (l * (z * h)) == l * l * (a * b);
    assert (x1 * a + x2 * a) * b == x1 * (a * b) + x2 * (a * b);
  }

  /** I (U1 H^2 - X3) - S1 H^3 over (z H)^3. */
  lemma SumY(X: int, Y: int, z: int, x1: int, y1: int, x3: int, y3: int, l: int, h: int, i: int, X3: int)
    requires Scaled(X, Y, z, x1, y1) && Eq(y3, l * (x1 - x3) - y1)
    requires Eq(i, l * (z * h)) && Eq(X3, x3 * (z * h * (z * h)))
    ensures Eq((X * (h * h) - X3) * i - h * h * h * Y, y3 * (z * h * (z * h) * (z * h)))
  {
    hide Eq;
    var w := z * h;
    EqScale(X, x1 * (z * z), h * h);
    EqSub(X * (h * h), x1 * (z * z) * (h * h), X3, x3 * (w * w));
    EqMul(X * (h * h) - X3, x1 * (z * z) * (h * h) - x3 * (w * w), i, l * w);
    EqScale(Y, y1 * (z * z * z), h * h * h);
    EqSub((X * (h * h) - X3) * i, (x1 * (z * z) * (h * h) - x3 * (w * w)) * (l * w),
          Y * (h * h * h), y1 * (z * z * z) * (h * h * h));
    EqScale(y3, l * (x1 - x3) - y1, w * w * w);
    EqSymm(y3 * (w * w * w), (l * (x1 - x3) - y1) * (w * w * w));
    SumYIdentity(z, h, x1, y1, x3, l);
    assert Y * (h * h * h) == h * h * h * Y;
    EqTrans((X * (h * h) - X3) * i - Y * (h * h * h), (l * (x1 - x3) - y1) * (w * w * w), y3 * (w * w * w));
  }

  lemma SumYIdentity(z: int, h: int, x1: int, y1: int, x3: int, l: int)
    ensures var w := z * h;
            (x1 * (z * z) * (h * h) - x3 * (w * w)) * (l * w) - y1 * (z * z * z) * (h * h * h)
            == (l * (x1 - x3) - y1) * (w * w * w)
  {
    Powers(x1, z, h);
    Powers(y1, z, h);
    CubeFactor(z * h, x1, x3, l, y1);
  }

  lemma Powers(a: int, z: int, h: int)
    ensures a * (z * z) * (h * h) == a * (z * h * (z * h))
    ensures a * (z * z * z) * (h * h * h) == a * (z * h * (z * h) * (z * h))
  {
  }

  lemma CubeFactor(w: int, x1: int, x3: int, l: int, y1: int)
    ensures (x1 * (w * w) - x3 * (w * w)) * (l * w) - y1 * (w * w * w) == (l * (x1 - x3) - y1) * (w * w * w)
  {
  }

  // ---------- doubling ----------

  /** Three times X^2 is the slope times the new z. */
  lemma SlopeOfTangent(X: int, Y: int, z: int, x: int, y: int, l: int)
    requires Scaled(X, Y, z, x, y) && Tangent(l, x, y)
    ensures Eq(3 * (X * X), l * (z * Y * 2))
  {
    hide Eq;
    var zz, zzz := z * z, z * z * z;
    EqMul(X, x * zz, X, x * zz);
    EqScale(X * X, x * zz * (x * zz), 3);
    EqScale(l * (2 * y), 3 * (x * x), zz * zz);
    EqScale(Y, y * zzz, l * (z * 2));
    assert x * zz * (x * zz) * 3 == 3 * (x * x) * (zz * zz);
    assert l * (2 * y) * (zz * zz) == y * zzz * (l * (z * 2));
    EqSymm(l * (2 * y) * (zz * zz), 3 * (x * x) * (zz * zz));
    EqSymm(Y * (l * (z * 2)), y * zzz * (l * (z * 2)));
    EqTrans(3 * (x * x) * (zz * zz), y * zzz * (l * (z * 2)), Y * (l * (z * 2)));
    EqTrans(X * X * 3, 3 * (x * x) * (zz * zz), Y * (l * (z * 2)));
    assert Y * (l * (z * 2)) == l * (z * Y * 2);
  }

  /** 9 X^4 - 8 X Y^2 over (2 Y Z)^2, where t is 3 X^2. */
  lemma DoubleX(X: int, Y: int, z: int, x: int, x3: int, l: int, t: int)
    requires Eq(X, x * (z * z)) && Eq(x3, l * l - x - x) && Eq(t, l * (z * Y * 2))
    ensures var w := z * Y * 2; Eq(t * t - 8 * (X * (Y * Y)), x3 * (w * w))
  {
    hide Eq;
    var w := z * Y * 2;
    EqMul(t, l * w, t, l * w);
    EqScale(X, x * (z * z), 8 * (Y * Y));
    EqSub(t * t, l * w * (l * w), X * (8 * (Y * Y)), x * (z * z) * (8 * (Y * Y)));
    EqScale(x3, l * l - x - x, w * w);
    EqSymm(x3 * (w * w), (l * l - x - x) * (w * w));
    assert x * (z * z) * (8 * (Y * Y)) == 2 * x * (w * w);
    assert l * w * (l * w) - 2 * x * (w * w) == (l * l - x - x) * (w * w);
    assert X * (8 * (Y * Y)) == 8 * (X * (Y * Y));
    EqTrans(t * t - 8 * (X * (Y * Y)), (l * l - x - x) * (w * w), x3 * (w * w));
  }

  /** 3 X^2 (12 X Y^2 - 9 X^4) - 8 Y^4 over (2 Y Z)^3. */
  lemma DoubleY(X: int, Y: int, z: int, x: int, y: int, x3: int, y3: int, l: int, t: int, X3: int)
    requires Scaled(X, Y, z, x, y) && Eq(y3, l * (x - x3) - y) && Eq(t, l * (z * Y * 2))
    requires X3 == t * t - 8 * (X * (Y * Y)) && Eq(X3, x3 * (z * Y * 2 * (z * Y * 2)))
    ensures var w := z * Y * 2; Eq(t * (12 * (X * (Y * Y)) - t * t) - 8 * (Y * Y * (Y * Y)), y3 * (w * w * w))
  {
    hide Eq;
    var w, ww, www := z * Y * 2, z * Y * 2 * (z * Y * 2), z * Y * 2 * (z * Y * 2) * (z * Y * 2);
    DoublePowers(X, Y, z, x, y);
    EqScale(X, x * (z * z), 4 * (Y * Y));
    EqSub(X * (4 * (Y * Y)), x * ww, X3, x3 * ww);
    EqMul(t, l * w, X * (4 * (Y * Y)) - X3, x * ww - x3 * ww);
    EqScale(Y, y * (z * z * z), 8 * (Y * Y * Y));
    EqSub(t * (X * (4 * (Y * Y)) - X3), l * w * (x * ww - x3 * ww), Y * (8 * (Y * Y * Y)), y * www);
    EqScale(y3, l * (x - x3) - y, www);
    EqSymm(y3 * www, (l * (x - x3) - y) * www);
    CubeFactor(w, x, x3, l, y);
    assert l * w * (x * ww - x3 * ww) == (x * (w * w) - x3 * (w * w)) * (l * w);
    EqTrans(t * (X * (4 * (Y * Y)) - X3) - Y * (8 * (Y * Y * Y)), (l * (x - x3) - y) * www, y3 * www);
  }

  lemma DoublePowers(X: int, Y: int, z: int, x: int, y: int)
    ensures x * (z * z) * (4 * (Y * Y)) == x * (z * Y * 2 * (z * Y * 2))
    ensures y * (z * z * z) * (8 * (Y * Y * Y)) == y * (z * Y * 2 * (z * Y * 2) * (z * Y * 2))
    ensures X * (4 * (Y * Y)) == 4 * (X * (Y * Y))
    ensures Y * (8 * (Y * Y * Y)) == 8 * (Y * Y * (Y * Y))
  {
  }

  // ---------- the unified formula ----------

  /** Where y1 + y2 is not zero, the slope is (x1^2 + x1 x2 + x2^2) / (y1 + y2), for equal and
  for different points. */
  ghost predicate UnifiedSlope(l: int, x1: int, y1: int, x2: int, y2: int) {
    Eq(l * (y1 + y2), x1 * x1 + x1 * x2 + x2 * x2)
  }

  /** R is the slope times z M. */
  lemma UnifiedNumerator(X: int, Y: int, z: int, x1: int, y1: int, x2: int, y2: int, l: int, u2: int, s2: int)
    requires Scaled(X, Y, z, x1, y1) && Scaled(u2, s2, z, x2, y2) && UnifiedSlope(l, x1, y1, x2, y2)
    ensures Eq((X + u2) * (X + u2) - X * u2, l * (z * (Y + s2)))
  {
    hide Eq;
    var zz, zzz := z * z, z * z * z;
    var a, b, c := x1 * zz, x2 * zz, x1 * x1 + x1 * x2 + x2 * x2;
    EqAdd(X, a, u2, b);
    EqMul(X + u2, a + b, X + u2, a + b);
    EqMul(X, a, u2, b);
    EqSub((X + u2) * (X + u2), (a + b) * (a + b), X * u2, a * b);
    QuadraticScale(x1, x2, zz);
    EqScale(l * (y1 + y2), c, zz * zz);
    EqAdd(Y, y1 * zzz, s2, y2 * zzz);
    EqScale(Y + s2, y1 * zzz + y2 * zzz, l * z);
    UnifiedTerms(y1, y2, z, l, Y + s2);
    EqSymm((Y + s2) * (l * z), l * (y1 + y2) * (zz * zz));
    EqSymm(l * (y1 + y2) * (zz * zz), c * (zz * zz));
    EqTrans((X + u2) * (X + u2) - X * u2, c * (zz * zz), l * (y1 + y2) * (zz * zz));
    EqTrans((X + u2) * (X + u2) - X * u2, l * (y1 + y2) * (zz * zz), l * (z * (Y + s2)));
  }

  lemma UnifiedTerms(y1: int, y2: int, z: int, l: int, m: int)
    ensures (y1 * (z * z * z) + y2 * (z * z * z)) * (l * z) == l * (y1 + y2) * (z * z * (z * z))
    ensures m * (l * z) == l * (z * m)
  {
    var w := z * z * z;
    assert y1 * w + y2 * w == (y1 + y2) * w;
    assert (y1 + y2) * w * (l * z) == l * (y1 + y2) * (w * z);
    assert w * z == z * z * (z * z);
  }

  lemma QuadraticScale(x1: int, x2: int, zz: int)
    ensures (x1 * zz + x2 * zz) * (x1 * zz + x2 * zz) - x1 * zz * (x2 * zz) == (x1 * x1 + x1 * x2 + x2 * x2) * (zz * zz)
  {
    assert (x1 * zz + x2 * zz) == (x1 + x2) * zz;
  }

  /** The unified formula, for numerator r and denominator m of the slope: t is X3 / 4. */
  lemma UnifiedX(X: int, z: int, x1: int, x2: int, x3: int, l: int, u2: int, m: int, r: int)
    requires Eq(X, x1 * (z * z)) && Eq(u2, x2 * (z * z)) && Eq(x3, l * l - x1 - x2) && Eq(r, l * (z * m))
    ensures Eq(m * m * (X + u2), (x1 + x2) * (z * m * (z * m)))
    ensures Eq(r * r - m * m * (X + u2), x3 * (z * m * (z * m)))
  {
    hide Eq;
    var w := z * m;
    EqAdd(X, x1 * (z * z), u2, x2 * (z * z));
    EqScale(X + u2, x1 * (z * z) + x2 * (z * z), m * m);
    assert (x1 * (z * z) + x2 * (z * z)) * (m * m) == (x1 + x2) * (w * w);
    assert (X + u2) * (m * m) == m * m * (X + u2);
    EqMul(r, l * w, r, l * w);
    EqSub(r * r, l * w * (l * w), m * m * (X + u2), (x1 + x2) * (w * w));
    EqScale(x3, l * l - x1 - x2, w * w);
    EqSymm(x3 * (w * w), (l * l - x1 - x2) * (w * w));
    assert l * w * (l * w) - (x1 + x2) * (w * w) == (l * l - x1 - x2) * (w * w);
    EqTrans(r * r - m * m * (X + u2), (l * l - x1 - x2) * (w * w), x3 * (w * w));
  }

  /** -Y3 / 4, where n stands for (S1 + S2) m^3. */
  lemma UnifiedY(z: int, x1: int, y1: int, x2: int, y2: int, x3: int, y3: int, l: int, m: int, r: int, q: int, t: int, n: int)
    requires Eq(r, l * (z * m)) && Eq(q, (x1 + x2) * (z * m * (z * m))) && Eq(t, x3 * (z * m * (z * m)))
    requires Eq(n, (y1 + y2) * (z * m * (z * m) * (z * m)))
    requires Eq(2 * y3, l * (x1 + x2 - 2 * x3) - (y1 + y2))
    ensures Eq((2 * t - q) * r + n, -2 * y3 * (z * m * (z * m) * (z * m)))
  {
    hide Eq;
    var w, ww, www := z * m, z * m * (z * m), z * m * (z * m) * (z * m);
    EqAdd(t, x3 * ww, t, x3 * ww);
    EqSub(t + t, x3 * ww + x3 * ww, q, (x1 + x2) * ww);
    EqMul(t + t - q, x3 * ww + x3 * ww - (x1 + x2) * ww, r, l * w);
    EqAdd((t + t - q) * r, (x3 * ww + x3 * ww - (x1 + x2) * ww) * (l * w), n, (y1 + y2) * www);
    EqScale(2 * y3, l * (x1 + x2 - 2 * x3) - (y1 + y2), -www);
    EqSymm(2 * y3 * -www, (l * (x1 + x2 - 2 * x3) - (y1 + y2)) * -www);
    UnifiedIdentity(w, x1 + x2, x3, y1 + y2, l);
    assert 2 * y3 * -www == -2 * y3 * www;
    EqTrans((2 * t - q) * r + n, (l * (x1 + x2 - 2 * x3) - (y1 + y2)) * -www, -2 * y3 * www);
  }

  lemma UnifiedIdentity(w: int, sx: int, x3: int, sy: int, l: int)
    ensures (x3 * (w * w) + x3 * (w * w) - sx * (w * w)) * (l * w) + sy * (w * w * w)
            == (l * (sx - 2 * x3) - sy) * -(w * w * w)
  {
  }
}
