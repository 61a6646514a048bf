/** Multiplication of the generator with precomputed, blinded tables (ecmult_gen_impl.h). */
module EcmultGen {
  import opened Groups
  import opened Numbers
  import opened OddTables
  import EcmultConst

  /** Multiple of the point `nums` that is hidden in row j of the table. */
  function Offset(j: nat): int {
    if j < 63 then Pow2(j) else 1 - Pow2(63)
  }

  /** The first j offsets together. */
  function OffsetSum(j: nat): int {
    if j == 0 then 0 else OffsetSum(j - 1) + Offset(j - 1)
  }

  /** Entry i of row j: i * 16^j * G, offset by a multiple of nums. */
  function Entry(g: Group, generator: Point, nums: Point, j: nat, i: nat): Point {
    g.add(Mul(g, Offset(j), nums), Mul(g, i * Pow2(4 * j), generator))
  }

  lemma {:induction false} OffsetSums(j: nat)
    requires j <= 63
    ensures OffsetSum(j) == Pow2(j) - 1
  {
    if j > 0 {
      OffsetSums(j - 1);
      Pow2Last(j);
    }
  }

  /** All 64 offsets cancel. */
  lemma OffsetsCancel()
    ensures OffsetSum(64) == 0
  {
    OffsetSums(63);
    hide Pow2;
  }

  /** What is known of the point nums: it has no known relation to the generator, so that no
  entry of the table is infinity. */
  ghost predicate IsNums(g: Group, generator: Point, nums: Point) {
    forall j, i :: 0 <= j < 64 && 0 <= i < 16 ==> Entry(g, generator, nums, j, i) != g.zero
  }

  /** Group, generator and nums point, which never change. */
  datatype Setting = Setting(group: Group, generator: Point, nums: Point)

  ghost predicate IsSetting(s: Setting) {
    IsAbelian(s.group) && HasOrderN(s.group, s.generator) && IsNums(s.group, s.generator, s.nums)
  }

  class Context {
    var prec: array2?<Point>
    var blind: nat
    var initial: Point
    const setting: Setting

    predicate IsBuilt()
      reads this
    {
      prec != null
    }

    /** A built context has its table, and the initial point takes the blinding back out. */
    ghost predicate Valid()
      reads this, prec
    {
      && IsSetting(setting)
      && (IsBuilt() ==> IsTable(prec, setting) && Blinded())
    }

    ghost predicate Blinded()
      reads this
    {
      blind < N && initial == Mul(setting.group, -(blind as int), setting.generator)
    }

    /** `secp256k1_ecmult_gen_context_init` */
    constructor (setting: Setting)
      requires IsSetting(setting)
      ensures Valid() && !IsBuilt() && this.setting == setting
    {
      this.setting := setting;
      prec, blind, initial := null, 0, setting.group.zero;
    }

    /** `secp256k1_ecmult_gen_context_build`; b is the random blinding factor. */
    method Build(b: nat)
      requires Valid() && 0 < b < N
      modifies this
      ensures Valid() && IsBuilt()
      ensures old(IsBuilt()) ==> prec == old(prec) && blind == old(blind) && initial == old(initial)
      ensures !old(IsBuilt()) ==> fresh(prec) && blind == N - b
    {
      if prec != null {
        return;
      }
      var table := FillTable(setting);
      prec := table;
      Blind(true, b);
    }

    /** `secp256k1_ecmult_gen_blind`; without a seed the blinding is reset first. */
    method Blind(reset: bool, b: nat)
      requires IsSetting(setting) && IsBuilt() && IsTable(prec, setting) && (reset || Blinded()) && 0 < b < N
      modifies this`blind, this`initial
      ensures Valid() && blind == N - b
    {
      hide IsAbelian, HasOrderN, IsNums, IsTable, Mul;
      if reset {
        initial := setting.group.neg(setting.generator);
        blind := 1;
        MulOneOf(setting);
      }
      var gb := Gen(b);
      BlindingFactor(setting, b);
      blind := N - b;
      initial := gb;
    }

    /** `secp256k1_ecmult_gen`: gn * G, whatever the blinding. */
    method Gen(gn: nat) returns (r: Point)
      requires Valid() && IsBuilt() && gn < N
      ensures r == Mul(setting.group, gn, setting.generator)
    {
      hide IsAbelian, HasOrderN, IsNums, IsTable, Mul, RowSum, Entry, Pow2, Bits, Offset, OffsetSum;
      var g := setting.group;
      var adds := g.zero;
      r := initial;
      var gnb := (gn + blind) % N;
      SumStart(setting, initial, gnb);
      TableShape(prec, setting);
      for j := 0 to 64
        invariant r == g.add(initial, RowSum(setting, gnb, j))
      {
        var bits := Bits(gnb, j * 4, 4);
        Nibble(gnb, j);
        for i := 0 to 16
          invariant bits < i ==> adds == prec[j, bits]
        {
          if i == bits { adds := prec[j, i]; }
        }
        TableEntry(prec, setting, j, bits);
        r := EcmultConst.AddAffine(g, r, adds);
        SumStep(setting, initial, gnb, j);
      }
      Unblind(setting, initial, blind, gn);
    }

    /** `secp256k1_ecmult_gen_context_clone` */
    method CloneFrom(src: Context)
      requires src.Valid() && setting == src.setting && IsSetting(setting)
      modifies this
      ensures Valid() && IsBuilt() == old(src.IsBuilt())
      ensures IsBuilt() ==> fresh(prec) && blind == old(src.blind) && initial == old(src.initial)
    {
      hide IsSetting, Mul;
      if src.prec == null {
        prec := null;
      } else {
        var from := src.prec;
        ghost var wasTable := IsTable(from, setting);
        var copy := new Point[64, 16]((j, i) requires 0 <= j < 64 && 0 <= i < 16 reads from => from[j, i]);
        prec, initial, blind := copy, src.initial, src.blind;
      }
    }

    /** `secp256k1_ecmult_gen_context_clear` */
    method Clear()
      requires Valid()
      modifies this
      ensures Valid() && !IsBuilt() && blind == 0
    {
      prec, blind, initial := null, 0, setting.group.zero;
    }
  }

  ghost predicate IsTable(prec: array2<Point>, s: Setting)
    reads prec
  {
    && prec.Length0 == 64 && prec.Length1 == 16
    && forall j, i :: 0 <= j < 64 && 0 <= i < 16 ==> prec[j, i] == Entry(s.group, s.generator, s.nums, j, i)
  }

  lemma TableShape(prec: array2<Point>, s: Setting)
    requires IsTable(prec, s)
    ensures prec.Length0 == 64 && prec.Length1 == 16
  {
  }

  lemma TableEntry(prec: array2<Point>, s: Setting, j: nat, i: nat)
    requires IsSetting(s) && IsTable(prec, s) && j < 64 && i < 16
    ensures prec[j, i] == Entry(s.group, s.generator, s.nums, j, i) != s.group.zero
  {
    hide IsAbelian, HasOrderN, Entry;
  }

  // ---------- building the table ----------

  lemma EntryStep(g: Group, generator: Point, nums: Point, j: nat, i: nat)
    requires IsAbelian(g)
    ensures Entry(g, generator, nums, j, i + 1)
            == g.add(Entry(g, generator, nums, j, i), Mul(g, Pow2(4 * j), generator))
  {
    var p := Pow2(4 * j);
    hide IsAbelian, Mul, Pow2, Offset;
    assert (i + 1) * p == i * p + p;
    MulAdd(g, i * p, p, generator);
    Assoc(g, Mul(g, Offset(j), nums), Mul(g, i * p, generator), Mul(g, p, generator));
  }

  lemma EntryStart(g: Group, generator: Point, nums: Point, j: nat)
    requires IsAbelian(g)
    ensures Entry(g, generator, nums, j, 0) == Mul(g, Offset(j), nums)
  {
    Unit(g, Mul(g, Offset(j), nums));
    assert 0 * Pow2(4 * j) == 0;
  }

  /** Multiplies the base of a row by 16. */
  method NextBase(g: Group, base: Point, ghost j: nat, ghost p: Point) returns (r: Point)
    requires IsAbelian(g) && base == Mul(g, Pow2(4 * j), p)
    ensures r == Mul(g, Pow2(4 * (j + 1)), p)
  {
    hide IsAbelian, Mul, Pow2;
    r := base;
    for i := 0 to 4
      invariant r == Mul(g, Pow2(4 * j + i), p)
    {
      MulAdd(g, Pow2(4 * j + i), Pow2(4 * j + i), p);
      Pow2Last(4 * j + i + 1);
      r := g.add(r, r);
    }
  }

  /** Doubles the offset; the last one is chosen so that all offsets cancel. */
  method NextOffset(g: Group, offset: Point, nums: Point, j: nat) returns (r: Point)
    requires IsAbelian(g) && j < 63 && offset == Mul(g, Offset(j), nums)
    ensures r == Mul(g, Offset(j + 1), nums)
  {
    hide IsAbelian, Mul, Pow2;
    r := g.add(offset, offset);
    MulAdd(g, Pow2(j), Pow2(j), nums);
    Pow2Last(j + 1);
    if j == 62 {
      r := g.neg(r);
      MulNeg(g, Pow2(63), nums);
      MulAdd(g, -Pow2(63), 1, nums);
      MulOne(g, nums);
      r := g.add(r, nums);
    }
  }

  method FillTable(s: Setting) returns (prec: array2<Point>)
    requires IsAbelian(s.group)
    ensures fresh(prec) && IsTable(prec, s)
  {
    hide IsAbelian, Mul, Pow2, Entry, Offset;
    var g := s.group;
    prec := new Point[64, 16]((_, _) => g.zero);
    var base, offset := s.generator, s.nums;
    FirstRow(s);
    for j := 0 to 64
      invariant base == Mul(g, Pow2(4 * j), s.generator)
      invariant j < 64 ==> offset == Mul(g, Offset(j), s.nums)
      invariant forall k, i :: 0 <= k < j && 0 <= i < 16 ==> prec[k, i] == Entry(g, s.generator, s.nums, k, i)
    {
      EntryStart(g, s.generator, s.nums, j);
      prec[j, 0] := offset;
      for i := 1 to 16
        invariant forall k, l :: 0 <= k < j && 0 <= l < 16 ==> prec[k, l] == Entry(g, s.generator, s.nums, k, l)
        invariant forall l :: 0 <= l < i ==> prec[j, l] == Entry(g, s.generator, s.nums, j, l)
      {
        EntryStep(g, s.generator, s.nums, j, i - 1);
        prec[j, i] := g.add(prec[j, i - 1], base);
      }
      base := NextBase(g, base, j, s.generator);
      if j < 63 {
        offset := NextOffset(g, offset, s.nums, j);
      }
    }
  }

  lemma FirstRow(s: Setting)
    requires IsAbelian(s.group)
    ensures Mul(s.group, Pow2(4 * 0), s.generator) == s.generator
    ensures Mul(s.group, Offset(0), s.nums) == s.nums
  {
    MulOne(s.group, s.generator);
    MulOne(s.group, s.nums);
    assert Pow2(0) == 1;
  }

  // ---------- adding up the rows ----------

  /** What the first j rows add: offsets, and the low j digits of gnb times G. */
  ghost function RowSum(s: Setting, gnb: nat, j: nat): Point {
    s.group.add(Mul(s.group, OffsetSum(j), s.nums), Mul(s.group, gnb % Pow2(4 * j), s.generator))
  }

  lemma SumStart(s: Setting, initial: Point, gnb: nat)
    requires IsAbelian(s.group)
    ensures initial == s.group.add(initial, RowSum(s, gnb, 0))
  {
    assert Pow2(4 * 0) == 1 && gnb % 1 == 0;
    Unit(s.group, s.group.zero);
    Unit(s.group, initial);
  }

  lemma Nibble(gnb: nat, j: nat)
    ensures Bits(gnb, j * 4, 4) < 16
  {
    Pow2Small();
  }

  lemma RowStep(s: Setting, gnb: nat, j: nat)
    requires IsAbelian(s.group)
    ensures RowSum(s, gnb, j + 1)
            == s.group.add(RowSum(s, gnb, j), Entry(s.group, s.generator, s.nums, j, Bits(gnb, j * 4, 4)))
  {
    var g, digit, p := s.group, Bits(gnb, j * 4, 4), Pow2(4 * j);
    RowDigits(gnb, 4 * j, j * 4, 4 * (j + 1));
    hide IsAbelian, Mul, Pow2, Bits, Offset;
    MulAdd(g, OffsetSum(j), Offset(j), s.nums);
    MulAdd(g, gnb % p, digit * p, s.generator);
    Swap(g, Mul(g, OffsetSum(j), s.nums), Mul(g, gnb % p, s.generator),
         Mul(g, Offset(j), s.nums), Mul(g, digit * p, s.generator));
  }

  lemma RowDigits(gnb: nat, offset: nat, position: nat, next: nat)
    requires position == offset && next == offset + 4
    ensures gnb % Pow2(next) == gnb % Pow2(offset) + Bits(gnb, position, 4) * Pow2(offset)
  {
    BitsSplit(gnb, offset, 4);
  }

  lemma SumStep(s: Setting, initial: Point, gnb: nat, j: nat)
    requires IsAbelian(s.group)
    ensures s.group.add(s.group.add(initial, RowSum(s, gnb, j)), Entry(s.group, s.generator, s.nums, j, Bits(gnb, j * 4, 4)))
            == s.group.add(initial, RowSum(s, gnb, j + 1))
  {
    RowStep(s, gnb, j);
    Assoc(s.group, initial, RowSum(s, gnb, j), Entry(s.group, s.generator, s.nums, j, Bits(gnb, j * 4, 4)));
  }

  lemma AllRows(s: Setting, gnb: nat)
    requires IsAbelian(s.group) && gnb < N
    ensures RowSum(s, gnb, 64) == Mul(s.group, gnb, s.generator)
  {
    OffsetsCancel();
    Pow2Values();
    hide Pow2, OffsetSum, IsAbelian;
    DivModUnique(gnb, Pow2(256), 0, gnb);
    assert 4 * 64 == 256;
    Unit(s.group, Mul(s.group, gnb, s.generator));
  }

  /** After all rows only gnb * G is left, and the initial point takes the blinding out. */
  lemma Unblind(s: Setting, initial: Point, blind: nat, gn: nat)
    requires IsAbelian(s.group) && HasOrderN(s.group, s.generator)
    requires blind < N && gn < N && initial == Mul(s.group, -(blind as int), s.generator)
    ensures s.group.add(initial, RowSum(s, (gn + blind) % N, 64)) == Mul(s.group, gn, s.generator)
  {
    var gnb := (gn + blind) % N;
    hide IsAbelian, HasOrderN, Mul, RowSum;
    AllRows(s, gnb);
    MulAdd(s.group, -(blind as int), gnb, s.generator);
    OrderVanishes(s.group, s.generator);
    var q := WrapSum(gn, blind);
    MulCongruent(s.group, N, gn, q, s.generator);
  }

  lemma WrapSum(a: nat, b: nat) returns (q: int)
    ensures -(b as int) + (a + b) % N == a + q * N
  {
    q := -((a + b) / N);
  }

  lemma BlindingFactor(s: Setting, b: nat)
    requires IsAbelian(s.group) && HasOrderN(s.group, s.generator) && b < N
    ensures Mul(s.group, b, s.generator) == Mul(s.group, -((N - b) as int), s.generator)
  {
    OrderVanishes(s.group, s.generator);
    MulCongruent(s.group, N, b, -1, s.generator);
  }

  lemma MulOneOf(s: Setting)
    requires IsAbelian(s.group)
    ensures s.group.neg(s.generator) == Mul(s.group, -1, s.generator)
  {
    MulOne(s.group, s.generator);
  }
}
