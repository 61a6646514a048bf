/** Tables of odd multiples and the two ways of looking a signed digit up in them. */
module OddTables {
  import opened Groups
  import opened Numbers

  /** Number of entries for windows of w bits. */
  function TableSize(w: nat): int
    requires w >= 2
  {
    Pow2(w - 2)
  }

  /** pre holds a, 3a, 5a, ... */
  ghost predicate IsOddTable(g: Group, pre: seq<Point>, a: Point) {
    forall i :: 0 <= i < |pre| ==> pre[i] == Mul(g, 2 * i + 1, a)
  }

  /** `ECMULT_TABLE_GET_GE` and its storage variant, on the table that starts at `base`: one
  access, negated for negative digits. */
  method TableGet(g: Group, pre: array<Point>, base: nat, n: int, w: nat, ghost a: Point) returns (r: Point)
    requires IsAbelian(g) && w >= 2
    requires base + TableSize(w) <= pre.Length && IsOddTable(g, pre[base..base + TableSize(w)], a)
    requires n % 2 == 1 && -Pow2(w - 1) < n < Pow2(w - 1)
    ensures r == Mul(g, n, a)
  {
    DigitIndex(n, w);
    ghost var table := pre[base..base + TableSize(w)];
    if n > 0 {
      r := pre[base + (n - 1) / 2];
      assert r == table[(n - 1) / 2];
    } else {
      r := g.neg(pre[base + (-n - 1) / 2]);
      assert pre[base + (-n - 1) / 2] == table[(-n - 1) / 2];
      MulNeg(g, -n, a);
    }
  }

  lemma DigitIndex(n: int, w: nat)
    requires w >= 2 && n % 2 == 1 && -Pow2(w - 1) < n < Pow2(w - 1)
    ensures n > 0 ==> 0 <= (n - 1) / 2 < TableSize(w) && 2 * ((n - 1) / 2) + 1 == n
    ensures n < 0 ==> 0 <= (-n - 1) / 2 < TableSize(w) && 2 * ((-n - 1) / 2) + 1 == -n
    ensures n != 0
  {
    Pow2Last(w - 1);
  }

  /** `ECMULT_CONST_TABLE_GET_GE`: the same lookup, reading every entry of the table. */
  method TableGetConst(g: Group, pre: array<Point>, n: int, w: nat, ghost a: Point) returns (r: Point)
    requires IsAbelian(g) && w >= 2
    requires pre.Length == TableSize(w) && IsOddTable(g, pre[..], a)
    requires n % 2 == 1 && -Pow2(w - 1) < n < Pow2(w - 1)
    ensures r == Mul(g, n, a)
  {
    var abs := n * ((if n > 0 then 1 else 0) * 2 - 1);
    assert abs == if n > 0 then n else -n;
    var index := abs / 2;
    DigitIndex(n, w);
    r := g.zero;
    for m := 0 to pre.Length
      invariant index < m ==> r == pre[index]
    {
      if m == index { r := pre[m]; }
    }
    assert pre[index] == pre[..][index];
    if n != abs {
      MulNeg(g, abs, a);
      r := g.neg(r);
    }
  }

  /** `secp256k1_ecmult_odd_multiples_table`, apart from coordinates: adds 2a again and again.
  The n entries from `base` on are written. */
  method OddMultiples(g: Group, pre: array<Point>, base: nat, n: nat, a: Point)
    requires IsAbelian(g) && n >= 1 && base + n <= pre.Length && a != g.zero
    modifies pre
    ensures IsOddTable(g, pre[base..base + n], a)
    ensures forall j :: 0 <= j < base || base + n <= j < pre.Length ==> pre[j] == old(pre[j])
  {
    hide IsAbelian, Mul;
    var d := g.add(a, a);
    MulOne(g, a);
    pre[base] := a;
    var i := 1;
    while i < n
      invariant 1 <= i <= n
      invariant IsOddTable(g, pre[base..base + i], a)
      invariant forall j :: 0 <= j < base || base + n <= j < pre.Length ==> pre[j] == old(pre[j])
    {
      ghost var table := pre[base..base + i];
      assert pre[base + i - 1] == table[i - 1];
      MulAdd(g, 2 * i - 1, 2, a);
      pre[base + i] := g.add(pre[base + i - 1], d);
      assert pre[base..base + i + 1] == table + [pre[base + i]];
      i := i + 1;
    }
  }

  /** The multiples of a point of order N that vanish. */
  ghost predicate VanishesAt(g: Group, k: int, a: Point) {
    Mul(g, k, a) == g.zero <==> Cong(k, 0, N)
  }

  ghost predicate HasOrderN(g: Group, a: Point) {
    forall k :: VanishesAt(g, k, a)
  }

  lemma SmallMultiple(g: Group, k: int, a: Point)
    requires HasOrderN(g, a) && (0 < k < N || 0 < -k < N)
    ensures Mul(g, k, a) != g.zero
  {
    assert VanishesAt(g, k, a);
    CongIffModEqual(k, 0, N);
    DivModUnique(k, N, if k > 0 then 0 else -1, if k > 0 then k else k + N);
    DivModUnique(0, N, 0, 0);
  }

  lemma OrderVanishes(g: Group, a: Point)
    requires HasOrderN(g, a)
    ensures Mul(g, N, a) == g.zero && Mul(g, 0 - N, a) == g.zero
  {
    assert VanishesAt(g, N, a) && VanishesAt(g, 0 - N, a);
    CongWitness(N, 0, N, 1);
    CongWitness(0 - N, 0, N, -1);
  }
}
