/** Normalisation, zero tests and the linear operations of field_10x26_impl.h. */
module FieldNormalize {
  import opened Numbers
  import opened Bitwise
  import opened Field10x26

  /** The only limbs of a number below 2^256, and of one below P. */
  predicate IsReduced(f: Fe) {
    && f.n0 <= M && f.n1 <= M && f.n2 <= M && f.n3 <= M && f.n4 <= M
    && f.n5 <= M && f.n6 <= M && f.n7 <= M && f.n8 <= M && f.n9 <= TOP_MASK
  }

  predicate IsNormalized(f: Fe) {
    IsReduced(f) && Value(f) < P
  }

  /** Moves every carry one limb up. */
  method Carry(f: Fe) returns (r: Fe)
    requires f.n0 < UINT32 && f.n1 + 0x40 <= UINT32 && f.n2 + 0x40 <= UINT32 && f.n3 + 0x40 <= UINT32
    requires f.n4 + 0x40 <= UINT32 && f.n5 + 0x40 <= UINT32 && f.n6 + 0x40 <= UINT32 && f.n7 + 0x40 <= UINT32
    requires f.n8 + 0x40 <= UINT32
    ensures r.n0 <= M && r.n1 <= M && r.n2 <= M && r.n3 <= M && r.n4 <= M
    ensures r.n5 <= M && r.n6 <= M && r.n7 <= M && r.n8 <= M && f.n9 <= r.n9 <= f.n9 + 0x3F
    ensures Value(r) == Value(f)
    ensures r.n0 == f.n0 % BASE
  {
    var t0, t1, t2, t3, t4 := f.n0, f.n1, f.n2, f.n3, f.n4;
    var t5, t6, t7, t8, t9 := f.n5, f.n6, f.n7, f.n8, f.n9;
    t1 := t1 + t0 / BASE; t0 := t0 % BASE;
    t2 := t2 + t1 / BASE; t1 := t1 % BASE;
    t3 := t3 + t2 / BASE; t2 := t2 % BASE;
    t4 := t4 + t3 / BASE; t3 := t3 % BASE;
    t5 := t5 + t4 / BASE; t4 := t4 % BASE;
    t6 := t6 + t5 / BASE; t5 := t5 % BASE;
    t7 := t7 + t6 / BASE; t6 := t6 % BASE;
    t8 := t8 + t7 / BASE; t7 := t7 % BASE;
    t9 := t9 + t8 / BASE; t8 := t8 % BASE;
    r := Fe(t0, t1, t2, t3, t4, t5, t6, t7, t8, t9);
  }

  /** Limbs after one pass: all but the top one in range, the top one hardly above it. */
  predicate IsAlmostReduced(f: Fe) {
    && f.n0 <= M && f.n1 <= M && f.n2 <= M && f.n3 <= M && f.n4 <= M
    && f.n5 <= M && f.n6 <= M && f.n7 <= M && f.n8 <= M && f.n9 <= TOP_MASK + 0x3F
  }

  /** Folds x * 2^256, where 2^256 counts 0x1000003D1. */
  function FoldIn(f: Fe, x: nat): Fe {
    Fe(f.n0 + x * 0x3D1, f.n1 + x * 0x40, f.n2, f.n3, f.n4, f.n5, f.n6, f.n7, f.n8, f.n9)
  }

  lemma FoldInValue(f: Fe, x: nat)
    ensures Value(FoldIn(f, x)) == Value(f) + x * 0x1_0000_03D1
  {
  }

  /** `secp256k1_fe_normalize_weak`: one pass makes the magnitude 1, without overflow for
  magnitudes up to 31. */
  method NormalizeWeak(f: Fe) returns (r: Fe)
    requires HasMagnitude(f, 31)
    ensures IsAlmostReduced(r) && HasMagnitude(r, 1)
    ensures Cong(Value(r), Value(f), P)
    ensures r.n0 == (f.n0 + f.n9 / 0x40_0000 * 0x3D1) % BASE
  {
    hide Value, Cong;
    var x := f.n9 / 0x40_0000;
    assert x <= 0x3E;
    var g := Fe(f.n0, f.n1, f.n2, f.n3, f.n4, f.n5, f.n6, f.n7, f.n8, f.n9 % 0x40_0000);
    assert g.n0 + x * 0x3D1 < UINT32;
    r := Carry(FoldIn(g, x));
    FoldInValue(g, x);
    SplitTop(f, x, g);
    CongWitness(Value(r), Value(f), P, 0 - x);
  }

  lemma SplitTop(f: Fe, x: int, g: Fe)
    requires x == f.n9 / 0x40_0000 && g == Fe(f.n0, f.n1, f.n2, f.n3, f.n4, f.n5, f.n6, f.n7, f.n8, f.n9 % 0x40_0000)
    ensures Value(f) == Value(g) + x * (P + 0x1_0000_03D1)
  {
    TopOf(f.n0, f.n1, f.n2, f.n3, f.n4, f.n5, f.n6, f.n7, f.n8, f.n9);
    TopOf(g.n0, g.n1, g.n2, g.n3, g.n4, g.n5, g.n6, g.n7, g.n8, g.n9);
    hide Ten;
    assert f.n9 == x * 0x40_0000 + g.n9;
  }

  /** The comparison with P that the code makes limb by limb. */
  predicate ReachesP(f: Fe) {
    f.n9 / 0x40_0000 != 0
    || (f.n9 == TOP_MASK && f.n8 == M && f.n7 == M && f.n6 == M && f.n5 == M && f.n4 == M && f.n3 == M && f.n2 == M
        && f.n1 + 0x40 + (f.n0 + 0x3D1) / BASE > M)
  }

  lemma ReachesPExactly(f: Fe)
    requires IsAlmostReduced(f)
    ensures ReachesP(f) <==> Value(f) >= P
    ensures Value(f) < 2 * P
  {
  }

  /** The unique limbs of the residue. */
  ghost predicate IsNormalForm(r: Fe, f: Fe) {
    IsNormalized(r) && Value(r) == Value(f) % P
  }

  /** Subtracting P, by adding its complement and dropping bit 256, which has to be set. */
  lemma DropTop(f: Fe, x: nat, g: Fe, r: Fe)
    requires IsAlmostReduced(f) && x == (if ReachesP(f) then 1 else 0)
    requires Value(g) == Value(FoldIn(f, x))
    requires g.n0 <= M && g.n1 <= M && g.n2 <= M && g.n3 <= M && g.n4 <= M && g.n5 <= M && g.n6 <= M && g.n7 <= M && g.n8 <= M
    requires r == Fe(g.n0, g.n1, g.n2, g.n3, g.n4, g.n5, g.n6, g.n7, g.n8, g.n9 % 0x40_0000)
    ensures g.n9 / 0x40_0000 == x && IsReduced(r)
    ensures Value(r) == Value(f) - x * P && 0 <= Value(r) < P
  {
    FoldInValue(f, x);
    ReachesPExactly(f);
    SplitTop(g, g.n9 / 0x40_0000, r);
    ValueBounds(r);
    hide Value, ReachesP;
  }

  lemma ValueBounds(r: Fe)
    requires r.n0 <= M && r.n1 <= M && r.n2 <= M && r.n3 <= M && r.n4 <= M && r.n5 <= M && r.n6 <= M && r.n7 <= M && r.n8 <= M
    requires r.n9 <= TOP_MASK
    ensures 0 <= Value(r) < P + 0x1_0000_03D1
  {
  }

  /** `secp256k1_fe_normalize` */
  method Normalize(f: Fe) returns (r: Fe)
    requires HasMagnitude(f, 31)
    ensures IsNormalForm(r, f) && IsReduced(r) && Value(r) == Value(f) % P
  {
    hide Value, Cong, ReachesP;
    var t := NormalizeWeak(f);
    var x := if ReachesP(t) then 1 else 0;
    var g := Carry(FoldIn(t, x));
    r := Fe(g.n0, g.n1, g.n2, g.n3, g.n4, g.n5, g.n6, g.n7, g.n8, g.n9 % 0x40_0000);
    DropTop(t, x, g, r);
    CongIffModEqual(Value(t), Value(f), P);
    DivModUnique(Value(t), P, x, Value(r));
  }

  /** `secp256k1_fe_normalize_var`, which skips the second pass when it would change nothing. */
  method NormalizeVar(f: Fe) returns (r: Fe)
    requires HasMagnitude(f, 31)
    ensures IsNormalForm(r, f) && IsReduced(r) && Value(r) == Value(f) % P
  {
    hide Value, Cong, ReachesP;
    r := NormalizeWeak(f);
    CongIffModEqual(Value(r), Value(f), P);
    ghost var t := r;
    if ReachesP(r) {
      var g := Carry(FoldIn(r, 1));
      r := Fe(g.n0, g.n1, g.n2, g.n3, g.n4, g.n5, g.n6, g.n7, g.n8, g.n9 % 0x40_0000);
      DropTop(t, 1, g, r);
      DivModUnique(Value(t), P, 1, Value(r));
    } else {
      FoldInValue(r, 0);
      DropTopNot(r);
      DivModUnique(Value(r), P, 0, Value(r));
    }
  }

  lemma DropTopNot(f: Fe)
    requires IsAlmostReduced(f) && !ReachesP(f)
    ensures IsReduced(f) && 0 <= Value(f) < P
  {
    ReachesPExactly(f);
  }

  /** The limbs of P and of zero. */
  predicate IsRawZero(f: Fe) {
    f.n0 == 0 && f.n1 == 0 && f.n2 == 0 && f.n3 == 0 && f.n4 == 0 && f.n5 == 0 && f.n6 == 0 && f.n7 == 0 && f.n8 == 0 && f.n9 == 0
  }

  predicate IsRawP(f: Fe) {
    f.n0 == M - 0x3D0 && f.n1 == M - 0x40 && f.n2 == M && f.n3 == M && f.n4 == M && f.n5 == M && f.n6 == M && f.n7 == M
    && f.n8 == M && f.n9 == TOP_MASK
  }

  lemma RawValues(f: Fe)
    requires IsAlmostReduced(f)
    ensures IsRawZero(f) <==> Value(f) == 0
    ensures IsRawP(f) <==> Value(f) == P
    ensures 0 <= Value(f) < 2 * P
  {
    if Value(f) == P { RawP(f); }
  }

  lemma RawP(f: Fe)
    requires IsAlmostReduced(f) && Value(f) == P
    ensures IsRawP(f)
  {
    var g := Fe(M - 0x3D0, M - 0x40, M, M, M, M, M, M, M, TOP_MASK);
    assert Value(g) == P;
    SameLimbs(f, g);
  }

  /** Numbers in this range determine their limbs. */
  lemma SameLimbs(f: Fe, g: Fe)
    requires IsAlmostReduced(f) && IsAlmostReduced(g) && Value(f) == Value(g)
    ensures f == g
  {
    var low, high := Five(f.n0, f.n1, f.n2, f.n3, f.n4), Five(f.n5, f.n6, f.n7, f.n8, f.n9);
    var low', high' := Five(g.n0, g.n1, g.n2, g.n3, g.n4), Five(g.n5, g.n6, g.n7, g.n8, g.n9);
    assert Value(f) == low + BASE5 * high && Value(g) == low' + BASE5 * high';
    assert 0 <= low < BASE5 && 0 <= low' < BASE5;
    hide Value, Five;
    PeelFive(low, high, low', high');
    SameFive(f.n0, f.n1, f.n2, f.n3, f.n4, g.n0, g.n1, g.n2, g.n3, g.n4);
    SameFive(f.n5, f.n6, f.n7, f.n8, f.n9, g.n5, g.n6, g.n7, g.n8, g.n9);
  }

  // The weight of five limbs, 2^130.
  const BASE5: nat := 0x4_00000000_00000000_00000000_00000000

  function Five(x0: int, x1: int, x2: int, x3: int, x4: int): int {
    x0 + BASE * (x1 + BASE * (x2 + BASE * (x3 + BASE * x4)))
  }

  lemma PeelFive(x: int, y: int, u: int, v: int)
    requires 0 <= x < BASE5 && 0 <= u < BASE5 && x + BASE5 * y == u + BASE5 * v
    ensures x == u && y == v
  {
  }

  lemma SameFive(x0: int, x1: int, x2: int, x3: int, x4: int, y0: int, y1: int, y2: int, y3: int, y4: int)
    requires 0 <= x0 < BASE && 0 <= x1 < BASE && 0 <= x2 < BASE && 0 <= x3 < BASE
    requires 0 <= y0 < BASE && 0 <= y1 < BASE && 0 <= y2 < BASE && 0 <= y3 < BASE
    requires Five(x0, x1, x2, x3, x4) == Five(y0, y1, y2, y3, y4)
    ensures x0 == y0 && x1 == y1 && x2 == y2 && x3 == y3 && x4 == y4
  {
    Peel(x0, x1 + BASE * (x2 + BASE * (x3 + BASE * x4)), y0, y1 + BASE * (y2 + BASE * (y3 + BASE * y4)));
    Peel(x1, x2 + BASE * (x3 + BASE * x4), y1, y2 + BASE * (y3 + BASE * y4));
    Peel(x2, x3 + BASE * x4, y2, y3 + BASE * y4);
    Peel(x3, x4, y3, y4);
  }

  lemma Peel(x: int, y: int, u: int, v: int)
    requires 0 <= x < BASE && 0 <= u < BASE && x + BASE * y == u + BASE * v
    ensures x == u && y == v
  {
  }

  lemma LimbBits()
    ensures Pow2(26) == BASE
  {
    Pow2Values();
    Pow2Add(16, 8);
    Pow2Add(24, 2);
  }

  /** All ones in both z and the limb, up to the bits c in which P differs from them. */
  lemma OnesStep(z: nat, t: nat, c: nat)
    requires z <= M && t <= M && c <= M
    ensures And(z, Xor(t, c)) <= M
    ensures And(z, Xor(t, c)) == M <==> z == M && t == M - c
  {
    LimbBits();
    hide Pow2;
    XorOnes(t, c, 26);
    AndOnes(z, Xor(t, c), 26);
  }

  /** A limb of P that is all ones is taken as it is. */
  lemma PlainOnesStep(z: nat, t: nat)
    requires z <= M && t <= M
    ensures And(z, t) <= M
    ensures And(z, t) == M <==> z == M && t == M
  {
    LimbBits();
    hide Pow2;
    AndOnes(z, t, 26);
  }

  /** z0 collects the bits that are set in any limb, z1 those set in all limbs as in P. */
  method CollectLimbs(t: Fe, first0: nat, first1: nat) returns (zero: bool)
    requires IsAlmostReduced(t) && first0 == t.n0 && first1 <= M && (first1 == M <==> t.n0 == M - 0x3D0)
    ensures zero <==> IsRawZero(t) || IsRawP(t)
  {
    hide Or, And, Xor;
    var z0, z1 := first0, first1;
    OrZero(z0, t.n1); OnesStep(z1, t.n1, 0x40);
    z0 := Or(z0, t.n1); z1 := And(z1, Xor(t.n1, 0x40));
    OrZero(z0, t.n2); PlainOnesStep(z1, t.n2);
    z0 := Or(z0, t.n2); z1 := And(z1, t.n2);
    OrZero(z0, t.n3); PlainOnesStep(z1, t.n3);
    z0 := Or(z0, t.n3); z1 := And(z1, t.n3);
    OrZero(z0, t.n4); PlainOnesStep(z1, t.n4);
    z0 := Or(z0, t.n4); z1 := And(z1, t.n4);
    OrZero(z0, t.n5); PlainOnesStep(z1, t.n5);
    z0 := Or(z0, t.n5); z1 := And(z1, t.n5);
    OrZero(z0, t.n6); PlainOnesStep(z1, t.n6);
    z0 := Or(z0, t.n6); z1 := And(z1, t.n6);
    OrZero(z0, t.n7); PlainOnesStep(z1, t.n7);
    z0 := Or(z0, t.n7); z1 := And(z1, t.n7);
    OrZero(z0, t.n8); PlainOnesStep(z1, t.n8);
    z0 := Or(z0, t.n8); z1 := And(z1, t.n8);
    OrZero(z0, t.n9); OnesStep(z1, t.n9, 0x3C0_0000);
    z0 := Or(z0, t.n9); z1 := And(z1, Xor(t.n9, 0x3C0_0000));
    return z0 == 0 || z1 == M;
  }

  lemma LowestOnes(t0: nat)
    requires t0 <= M
    ensures Xor(t0, 0x3D0) <= M
    ensures Xor(t0, 0x3D0) == M <==> t0 == M - 0x3D0
  {
    LimbBits();
    XorOnes(t0, 0x3D0, 26);
  }

  /** `secp256k1_fe_normalizes_to_zero`: is the element zero? */
  method NormalizesToZero(f: Fe) returns (zero: bool)
    requires HasMagnitude(f, 31)
    ensures zero <==> Value(f) % P == 0
  {
    hide Value, Cong, Xor;
    var t := NormalizeWeak(f);
    CongIffModEqual(Value(t), Value(f), P);
    RawValues(t);
    ZeroOrP(Value(t));
    LowestOnes(t.n0);
    zero := CollectLimbs(t, t.n0, Xor(t.n0, 0x3D0));
  }

  lemma ZeroOrP(v: int)
    requires 0 <= v < 2 * P
    ensures v % P == 0 <==> v == 0 || v == P
  {
  }

  /** The lowest limb after the first pass, computed before it: of 0 or of P if P divides f. */
  lemma LowLimb(f: Fe, low: nat)
    requires HasMagnitude(f, 31) && low == (f.n0 + f.n9 / 0x40_0000 * 0x3D1) % BASE
    requires Value(f) % P == 0
    ensures low == 0 || low == M - 0x3D0
  {
    var x := f.n9 / 0x40_0000;
    var g := Fe(f.n0, f.n1, f.n2, f.n3, f.n4, f.n5, f.n6, f.n7, f.n8, f.n9 % 0x40_0000);
    var v := Value(FoldIn(g, x));
    FirstPass(f, x, g);
    LowestOf(FoldIn(g, x));
    hide Value, HasMagnitude;
    Divisible(v, Value(f), x, low);
  }

  lemma Divisible(v: int, w: int, x: nat, low: nat)
    requires 0 <= v < 2 * P && v == w - x * P && w % P == 0 && low == v % BASE
    ensures low == 0 || low == M - 0x3D0
  {
    CongWitness(v, w, P, 0 - x);
    CongIffModEqual(v, w, P);
    ZeroOrP(v);
  }

  lemma FirstPass(f: Fe, x: nat, g: Fe)
    requires HasMagnitude(f, 31) && x == f.n9 / 0x40_0000
    requires g == Fe(f.n0, f.n1, f.n2, f.n3, f.n4, f.n5, f.n6, f.n7, f.n8, f.n9 % 0x40_0000)
    ensures 0 <= Value(FoldIn(g, x)) < 2 * P && Value(FoldIn(g, x)) == Value(f) - x * P
  {
    assert x <= 0x3E;
    FoldInValue(g, x);
    SplitTop(f, x, g);
  }

  lemma LowestOf(f: Fe)
    ensures Value(f) % BASE == f.n0 % BASE
  {
    var rest := f.n1 + BASE * (f.n2 + BASE * (f.n3 + BASE * (f.n4 + BASE * (f.n5 + BASE * (f.n6 + BASE * (f.n7 + BASE * (f.n8 + BASE * f.n9)))))));
    assert Value(f) == f.n0 + BASE * rest;
    hide Value;
    DivModUnique(Value(f), BASE, rest + f.n0 / BASE, f.n0 % BASE);
  }

  /** `secp256k1_fe_normalizes_to_zero_var`, which looks at the lowest limb first. */
  method NormalizesToZeroVar(f: Fe) returns (zero: bool)
    requires HasMagnitude(f, 31)
    ensures zero <==> Value(f) % P == 0
  {
    hide Value, Cong, Xor;
    var x := f.n9 / 0x40_0000;
    var t0 := f.n0 + x * 0x3D1;
    var z0 := t0 % BASE;
    var z1 := Xor(z0, 0x3D0);
    LowestOnes(z0);
    if z0 != 0 && z1 != M {
      if Value(f) % P == 0 { LowLimb(f, z0); }
      return false;
    }
    var t := NormalizeWeak(f);
    CongIffModEqual(Value(t), Value(f), P);
    RawValues(t);
    ZeroOrP(Value(t));
    zero := CollectLimbs(t, z0, z1);
  }

  // ---------- linear operations ----------

  /** `secp256k1_fe_negate`: no limb becomes negative, no limb overflows. */
  method Negate(a: Fe, m: nat) returns (r: Fe)
    requires HasMagnitude(a, m) && m <= 31
    ensures HasMagnitude(r, m + 1)
    ensures Cong(Value(r), -Value(a), P)
  {
    var k := 2 * (m + 1);
    assert M * k < UINT32;
    r := Fe(0x3FFFC2F * k - a.n0, 0x3FFFFBF * k - a.n1, M * k - a.n2, M * k - a.n3, M * k - a.n4,
            M * k - a.n5, M * k - a.n6, M * k - a.n7, M * k - a.n8, TOP_MASK * k - a.n9);
    NegateValue(a, k, r);
    CongWitness(Value(r), -Value(a), P, k);
  }

  lemma NegateValue(a: Fe, k: nat, r: Fe)
    requires r.n0 == 0x3FFFC2F * k - a.n0 && r.n1 == 0x3FFFFBF * k - a.n1 && r.n2 == M * k - a.n2 && r.n3 == M * k - a.n3
    requires r.n4 == M * k - a.n4 && r.n5 == M * k - a.n5 && r.n6 == M * k - a.n6 && r.n7 == M * k - a.n7
    requires r.n8 == M * k - a.n8 && r.n9 == TOP_MASK * k - a.n9
    ensures Value(r) == k * P - Value(a)
  {
  }

  /** `secp256k1_fe_add` */
  method Add(r0: Fe, a: Fe, ghost m: nat, ghost n: nat) returns (r: Fe)
    requires HasMagnitude(r0, m) && HasMagnitude(a, n) && m + n <= 32
    ensures HasMagnitude(r, m + n)
    ensures Value(r) == Value(r0) + Value(a)
  {
    assert 2 * (m + n) * M < UINT32;
    r := Fe(r0.n0 + a.n0, r0.n1 + a.n1, r0.n2 + a.n2, r0.n3 + a.n3, r0.n4 + a.n4,
            r0.n5 + a.n5, r0.n6 + a.n6, r0.n7 + a.n7, r0.n8 + a.n8, r0.n9 + a.n9);
  }

  /** `secp256k1_fe_mul_int` */
  method MulInt(f: Fe, a: nat, ghost m: nat) returns (r: Fe)
    requires HasMagnitude(f, m) && m * a <= 32
    ensures HasMagnitude(r, m * a)
    ensures Value(r) == a * Value(f)
  {
    r := Multiple(f, a);
    MultipleBounds(f, a, m, m * a);
    hide HasMagnitude;
    Distribute10(a, f.n0, f.n1, f.n2, f.n3, f.n4, f.n5, f.n6, f.n7, f.n8, f.n9);
    hide Ten;
  }

  function Multiple(f: Fe, a: nat): Fe {
    Fe(f.n0 * a, f.n1 * a, f.n2 * a, f.n3 * a, f.n4 * a, f.n5 * a, f.n6 * a, f.n7 * a, f.n8 * a, f.n9 * a)
  }

  lemma MultipleBounds(f: Fe, a: nat, m: nat, k: nat)
    requires HasMagnitude(f, m) && k == m * a && k <= 32
    ensures HasMagnitude(Multiple(f, a), k) && 2 * k * M < UINT32
  {
    LimbBound(f.n0, m, a, k); LimbBound(f.n1, m, a, k); LimbBound(f.n2, m, a, k); LimbBound(f.n3, m, a, k);
    LimbBound(f.n4, m, a, k); LimbBound(f.n5, m, a, k); LimbBound(f.n6, m, a, k); LimbBound(f.n7, m, a, k);
    LimbBound(f.n8, m, a, k);
    MulMonotone(f.n9, 2 * m * TOP_MASK, a);
  }

  lemma LimbBound(x: nat, m: nat, a: nat, k: nat)
    requires x <= 2 * m * M && k == m * a
    ensures x * a <= 2 * k * M
  {
    MulMonotone(x, 2 * m * M, a);
    assert 2 * m * M * a == 2 * k * M;
  }
}
