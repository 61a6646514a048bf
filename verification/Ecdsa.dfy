/** Signing and verification (ecdsa_impl.h; sections 4.1.3 and 4.1.4 of SEC 1). */
module Ecdsa {
  import opened Groups
  import opened Numbers
  import opened Field
  import opened Coordinates
  import opened Curve
  import opened CurveTables
  import opened Recoding
  import opened RecodingConst
  import opened OddTables
  import opened Wrappers
  import Field10x26
  import EcmultGen
  import EcmultMulti

  /** The curve, the Jacobian coordinates that the point multiplications happen to return, and
  inversion of scalars. */
  datatype Domain = Domain(curve: Curve, coordinates: Point -> Gej, inverse: nat -> nat)

  ghost predicate CoordinatesAt(d: Domain, p: Point) {
    Represents(d.curve, d.coordinates(p), p, 1)
  }

  ghost predicate ScalarInverseAt(d: Domain, s: nat) {
    0 < s < N ==> 0 < d.inverse(s) < N && Cong(s * d.inverse(s), 1, N)
  }

  const P := Field10x26.P

  /** The field of secp256k1, its curve, coordinates for every point, and inverses of scalars. */
  ghost predicate IsDomain(d: Domain) {
    CHAR == P && IsCurve(d.curve) && (forall p :: CoordinatesAt(d, p)) && (forall s :: ScalarInverseAt(d, s))
  }

  /** The x coordinate as a number below the characteristic. */
  function XOf(d: Domain, p: Point): (x: nat)
    ensures x < CHAR
  {
    d.curve.x(p) % CHAR
  }

  function YIsOdd(d: Domain, p: Point): bool {
    d.curve.y(p) % CHAR % 2 == 1
  }

  /** The point that verification recomputes. */
  ghost function Recomputed(d: Domain, generator: Point, r: nat, s: nat, pubkey: Point, message: nat): Point {
    var sn := d.inverse(s);
    d.curve.group.add(Mul(d.curve.group, (sn * r) % N, pubkey), Mul(d.curve.group, (sn * message) % N, generator))
  }

  /** A valid signature: the recomputed point is finite and its x, modulo the order, is r. */
  ghost predicate IsValid(d: Domain, generator: Point, r: nat, s: nat, pubkey: Point, message: nat) {
    var p := Recomputed(d, generator, r, s, pubkey, message);
    r != 0 && s != 0 && Finite(d.curve, p) && XOf(d, p) % N == r
  }

  // ---------- verification ----------

  lemma SameResidue(x: int, px: int)
    requires 0 <= x < CHAR
    ensures Eq(x, px) <==> x == px % CHAR
  {
    CongIffModEqual(x, px, CHAR);
    DivModUnique(x, CHAR, 0, x);
  }

  /** The two candidates for x are all there are, as the field has fewer than 2 N elements. */
  lemma Candidates(x: nat, r: nat)
    requires x < P && r < N
    ensures x % N == r <==> x == r || (r < P - N && x == r + N)
  {
    DivModUnique(x, N, if x < N then 0 else 1, if x < N then x else x - N);
  }

  /** The verification of section 4.1.4 of SEC 1, in one formula. */
  lemma ValidMeans(d: Domain, generator: Point, r: nat, s: nat, pubkey: Point, message: nat)
    requires IsDomain(d)
    ensures var w := d.inverse(s);
            var p := d.curve.group.add(Mul(d.curve.group, (message * w) % N, generator),
                                       Mul(d.curve.group, (r * w) % N, pubkey));
            IsValid(d, generator, r, s, pubkey, message)
            <==> r != 0 && s != 0 && p != d.curve.group.zero && d.curve.x(p) % Field10x26.P % N == r
  {
    Facts(d.curve);
    var w := d.inverse(s);
    assert CHAR == P && message * w == w * message && r * w == w * r;
    Commutes(d.curve.group, Mul(d.curve.group, (message * w) % N, generator), Mul(d.curve.group, (r * w) % N, pubkey));
    hide IsDomain, IsAbelian, Mul;
  }

  /** `secp256k1_ecdsa_sig_verify` accepts exactly the valid signatures. */
  method Verify(d: Domain, preG: array<Point>, generator: Point, r: nat, s: nat, pubkey: Point, message: nat)
    returns (valid: bool)
    requires IsDomain(d) && EcmultMulti.IsContext(d.curve.group, preG, generator)
    requires r < N && s < N && message < N && Mul(d.curve.group, N, pubkey) == d.curve.group.zero
    ensures valid <==> IsValid(d, generator, r, s, pubkey, message)
    ensures var w := d.inverse(s);
            var p := d.curve.group.add(Mul(d.curve.group, (message * w) % N, generator),
                                       Mul(d.curve.group, (r * w) % N, pubkey));
            valid <==> r != 0 && s != 0 && p != d.curve.group.zero && d.curve.x(p) % Field10x26.P % N == r
  {
    ValidMeans(d, generator, r, s, pubkey, message);
    hide IsAbelian, IsOddTable, Mul, IsCurve, Represents, Eq, P;
    if r == 0 || s == 0 {
      return false;
    }
    var sn := d.inverse(s);
    var u1 := (sn * message) % N;
    var u2 := (sn * r) % N;
    var pr := EcmultMulti.Ecmult(d.curve.group, preG, generator, pubkey, u2, Some(u1));
    var prj := d.coordinates(pr);
    assert CoordinatesAt(d, pr);
    RepresentsInfinity(d.curve, prj, pr);
    if prj.infinity {
      return false;
    }
    var xr := r;
    OrderBelowField();
    SameResidue(r, d.curve.x(pr));
    SameResidue(if r < P - N then r + N else r, d.curve.x(pr));
    Candidates(XOf(d, pr), r);
    var equal := GejEqXVar(d.curve, xr, prj, pr);
    if equal {
      return true;
    }
    if xr >= P - N {
      return false;
    }
    xr := xr + N;
    valid := GejEqXVar(d.curve, xr, prj, pr);
  }

  lemma RepresentsInfinity(c: Curve, j: Gej, p: Point)
    requires Represents(c, j, p, 1)
    ensures j.infinity <==> !Finite(c, p)
  {
  }

  lemma OrderBelowField()
    ensures N < P < 2 * N
  {
  }

  // ---------- signing ----------

  /** k s == m + r d modulo the order makes the recomputed point k * G. */
  lemma RecomputesNonce(d: Domain, generator: Point, r: nat, s: nat, key: nat, message: nat, k: int)
    requires IsDomain(d) && HasOrderN(d.curve.group, generator) && 0 < s < N
    requires Cong(k * s, message + r * key, N)
    ensures Recomputed(d, generator, r, s, Mul(d.curve.group, key, generator), message) == Mul(d.curve.group, k, generator)
  {
    var g, sn := d.curve.group, d.inverse(s);
    assert ScalarInverseAt(d, s);
    Facts(d.curve);
    hide IsAbelian, HasOrderN, IsDomain, Mul, ScalarInverseAt, Cong;
    var u1, u2 := (sn * message) % N, (sn * r) % N;
    MulMul(g, u2, key, generator);
    MulAdd(g, u2 * key, u1, generator);
    NonceCongruence(k, s, sn, message, r, key);
    SameMultiple(g, u2 * key + u1, k, generator);
  }

  lemma NonceCongruence(k: int, s: int, sn: int, m: int, r: int, d: int)
    requires Cong(k * s, m + r * d, N) && Cong(s * sn, 1, N)
    ensures Cong((sn * r) % N * d + (sn * m) % N, k, N)
  {
    hide Cong;
    var u2d, u1 := (sn * r) % N * d, (sn * m) % N;
    CongMod(sn * r, N);
    CongRefl(d, N);
    CongMul((sn * r) % N, sn * r, d, d, N);
    CongMod(sn * m, N);
    CongAdd(u2d, sn * r * d, u1, sn * m, N);
    Factor(m, r, d, sn, k, s);
    CongRefl(sn, N);
    CongSymm(k * s, m + r * d, N);
    CongMul(m + r * d, k * s, sn, sn, N);
    CongRefl(k, N);
    CongMul(k, k, s * sn, 1, N);
    CongTrans(u2d + u1, (m + r * d) * sn, k * s * sn, N);
    CongTrans(u2d + u1, k * (s * sn), k * 1, N);
  }

  lemma Factor(m: int, r: int, d: int, sn: int, k: int, s: int)
    ensures (m + r * d) * sn == sn * r * d + sn * m && k * s * sn == k * (s * sn)
  {
  }

  lemma SameMultiple(g: Group, a: int, b: int, p: Point)
    requires IsAbelian(g) && HasOrderN(g, p) && Cong(a, b, N)
    ensures Mul(g, a, p) == Mul(g, b, p)
  {
    var q :| a - b == q * N;
    OrderVanishes(g, p);
    MulCongruent(g, N, b, q, p);
  }

  /** r and the recovery identifier determine the point: its x and the parity of its y. */
  ghost predicate Recovers(d: Domain, p: Point, r: nat, recid: nat) {
    XOf(d, p) == r + (if recid / 2 == 1 then N else 0) && YIsOdd(d, p) == (recid % 2 == 1)
  }

  /** `secp256k1_ecdsa_sig_sign`. A signature it returns is low, and unless r is zero, which
  the caller excludes, valid for the matching public key; the recovery identifier tells the
  recomputed point apart from all others with the same r. */
  method Sign(d: Domain, ctx: EcmultGen.Context, seckey: nat, message: nat, nonce: nat)
    returns (ok: bool, r: nat, s: nat, recid: nat)
    requires ctx.Valid() && ctx.IsBuilt() && IsDomain(d) && d.curve.group == ctx.setting.group
    requires 0 < seckey < N && message < N && 0 < nonce < N
    ensures r < N && s < N && recid < 4
    ensures var x := d.curve.x(Mul(d.curve.group, nonce, ctx.setting.generator)) % Field10x26.P;
            r == x % N && (recid >= 2 <==> x >= N)
    ensures Cong(nonce * s, message + r * seckey, N) || Cong((0 - nonce) * s, message + r * seckey, N)
    ensures ok <==> s != 0
    ensures !IsHigh(s) && s <= N / 2
    ensures ok && r != 0 ==>
      IsValid(d, ctx.setting.generator, r, s, Mul(d.curve.group, seckey, ctx.setting.generator), message)
    ensures ok ==>
      Recovers(d, Recomputed(d, ctx.setting.generator, r, s, Mul(d.curve.group, seckey, ctx.setting.generator), message),
               r, recid)
  {
    assert CHAR == P;
    hide IsAbelian, HasOrderN, IsDomain, Mul, Recomputed, EcmultGen.IsTable, EcmultGen.IsNums, XOf, YIsOdd, Cong;
    var c := d.curve;
    ghost var generator := ctx.setting.generator;
    var rp := ctx.Gen(nonce);
    NoncePoint(d, generator, nonce);
    var x, yOdd := AffineOf(d, rp);
    OrderBelowField();
    var overflow := x >= N;
    r := if overflow then x - N else x;
    recid := (if overflow then 2 else 0) + (if yOdd then 1 else 0);
    var n := (r * seckey) % N;
    n := (n + message) % N;
    s := d.inverse(nonce);
    s := (s * n) % N;
    SignCongruence(d, nonce, r, seckey, message, s);
    DivModUnique(x, N, if overflow then 1 else 0, r);
    if s == 0 {
      return false, r, s, recid;
    }
    ghost var k: int := nonce;
    if IsHigh(s) {
      s := Negate(s);
      recid := if recid % 2 == 0 then recid + 1 else recid - 1;
      k := 0 - k;
      NegatedCongruence(nonce, N - s, message + r * seckey);
    }
    RecomputesNonce(d, generator, r, s, seckey, message, k);
    ok := true;
  }

  /** `secp256k1_ge_set_gej` and normalisation: the affine coordinates as numbers. */
  method AffineOf(d: Domain, p: Point) returns (x: nat, yOdd: bool)
    requires IsDomain(d) && Finite(d.curve, p)
    ensures x == XOf(d, p) && yOdd == YIsOdd(d, p)
  {
    Facts(d.curve);
    var j := d.coordinates(p);
    assert CoordinatesAt(d, p);
    FiniteZ(d.curve, j, p);
    hide IsDomain, IsInverse, IsZero, Eq;
    var zi := d.curve.inv(j.z);
    Inverts(d.curve.inv, j.z);
    var a := GeSetGejZinv(j, zi);
    assert j.z * 1 * zi == j.z * zi;
    ZinvAffine(d.curve, j, zi, p, 1);
    CongIffModEqual(a.x, d.curve.x(p), CHAR);
    CongIffModEqual(a.y, d.curve.y(p), CHAR);
    return a.x % CHAR, a.y % CHAR % 2 == 1;
  }

  /** The nonce's point and its negative: the same x, and y of different parity. */
  lemma NoncePoint(d: Domain, generator: Point, nonce: nat)
    requires IsDomain(d) && HasOrderN(d.curve.group, generator) && 0 < nonce < N
    ensures var p, q := Mul(d.curve.group, nonce, generator), Mul(d.curve.group, 0 - nonce, generator);
            Finite(d.curve, p) && Finite(d.curve, q) && XOf(d, q) == XOf(d, p) && YIsOdd(d, q) == !YIsOdd(d, p)
  {
    var g := d.curve.group;
    Facts(d.curve);
    SmallMultiple(g, nonce, generator);
    SmallMultiple(g, 0 - nonce, generator);
    MulNeg(g, nonce, generator);
    var p, q := Mul(g, nonce, generator), Mul(g, 0 - nonce, generator);
    PointFacts(d.curve, p);
    CongIffModEqual(d.curve.x(q), d.curve.x(p), CHAR);
    NegatedParity(d.curve.y(p), d.curve.y(q));
  }

  lemma NegatedParity(y: int, z: int)
    requires Eq(z, -y) && !IsZero(y)
    ensures (z % CHAR % 2 == 1) == !(y % CHAR % 2 == 1)
  {
    CongIffModEqual(z, -y, CHAR);
    var q, r := y / CHAR, y % CHAR;
    DivModUnique(-y, CHAR, -q - 1, CHAR - r);
  }

  lemma SignCongruence(d: Domain, k: nat, r: nat, key: nat, m: nat, s: nat)
    requires IsDomain(d) && 0 < k < N && s == (d.inverse(k) * (((r * key) % N + m) % N)) % N
    ensures Cong(k * s, m + r * key, N)
  {
    assert ScalarInverseAt(d, k);
    hide *;
    NonceSum(r * key, m);
    NonceTimes(k, d.inverse(k), ((r * key) % N + m) % N, r * key + m);
  }

  lemma NonceSum(rd: nat, m: nat)
    ensures Cong((rd % N + m) % N, rd + m, N)
  {
    hide Cong;
    CongMod(rd, N);
    CongRefl(m, N);
    CongAdd(rd % N, rd, m, m, N);
    CongMod(rd % N + m, N);
    CongTrans((rd % N + m) % N, rd % N + m, rd + m, N);
  }

  lemma NonceTimes(k: nat, ki: nat, n: nat, t: int)
    requires Cong(k * ki, 1, N) && Cong(n, t, N)
    ensures Cong(k * ((ki * n) % N), t, N)
  {
    hide Cong;
    CongMod(ki * n, N);
    CongRefl(k, N);
    CongMul(k, k, (ki * n) % N, ki * n, N);
    CongMul(k * ki, 1, n, t, N);
    assert k * (ki * n) == k * ki * n;
    CongTrans(k * ((ki * n) % N), k * ki * n, 1 * t, N);
  }

  lemma NegatedCongruence(k: nat, s: nat, t: int)
    requires Cong(k * s, t, N) && s < N
    ensures Cong((0 - k) * (N - s), t, N)
  {
    CongWitness((0 - k) * (N - s), k * s, N, 0 - k);
    CongTrans((0 - k) * (N - s), k * s, t, N);
  }

  lemma CongRefl(a: int, m: int)
    ensures Cong(a, a, m)
  {
    CongWitness(a, a, m, 0);
  }
}
