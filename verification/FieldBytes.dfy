/** Conversion of field elements from and to 32 bytes (field_10x26_impl.h). Fields of bits that
do not overlap are added where the C code combines them with |. */
module FieldBytes {
  import opened Numbers
  import opened Field10x26
  import opened FieldNormalize

  ghost predicate AreBytes(s: seq<nat>) {
    forall i :: 0 <= i < |s| ==> s[i] < 0x100
  }

  /** The number that a sequence of bytes stands for, most significant byte first. */
  function BigEndian(s: seq<nat>): nat {
    if s == [] then 0 else BigEndian(s[..|s| - 1]) * 0x100 + s[|s| - 1]
  }

  /** The first byte has the highest weight. */
  lemma {:induction false} FirstByte(s: seq<nat>)
    requires s != []
    ensures BigEndian(s) == s[0] * Pow2(8 * (|s| - 1)) + BigEndian(s[1..])
  {
    if |s| == 1 {
      assert s[..0] == [] && s[1..] == [] && Pow2(0) == 1;
    } else {
      var h := |s| - 1;
      FirstByte(s[..h]);
      assert s[..h][1..] == s[1..][..h - 1] && s[1..][h - 1] == s[h];
      hide Pow2;
      Pow2Add(8 * (h - 1), 8);
      Pow2Small();
      Weights(s[0], Pow2(8 * (h - 1)));
    }
  }

  lemma Weights(x: nat, p: int)
    ensures x * p * 0x100 == x * (p * 0x100)
  {
  }

  lemma NextByte(s: seq<nat>, k: nat)
    requires k < |s|
    ensures BigEndian(s[..k + 1]) == BigEndian(s[..k]) * 0x100 + s[k]
  {
    assert s[..k + 1][..k] == s[..k];
  }

  /** Bytes are determined by the number and the length. */
  lemma {:induction false} SameBytes(s: seq<nat>, t: seq<nat>)
    requires AreBytes(s) && AreBytes(t) && |s| == |t| && BigEndian(s) == BigEndian(t)
    ensures s == t
  {
    if s != [] {
      var h := |s| - 1;
      SameBytes(s[..h], t[..h]);
      assert s == s[..h] + [s[h]] && t == t[..h] + [t[h]];
    }
  }

  // The limbs share the bytes where they meet; thirteen bytes make four limbs.

  function Limb0(b3: nat, b2: nat, b1: nat, b0: nat): nat {
    b0 + b1 * 0x100 + b2 * 0x1_0000 + b3 % 4 * 0x100_0000
  }

  function Limb1(b3: nat, b2: nat, b1: nat, b0: nat): nat {
    b0 / 4 % 0x40 + b1 * 0x40 + b2 * 0x4000 + b3 % 0x10 * 0x40_0000
  }

  function Limb2(b3: nat, b2: nat, b1: nat, b0: nat): nat {
    b0 / 0x10 % 0x10 + b1 * 0x10 + b2 * 0x1000 + b3 % 0x40 * 0x10_0000
  }

  function Limb3(b3: nat, b2: nat, b1: nat, b0: nat): nat {
    b0 / 0x40 % 4 + b1 * 4 + b2 * 0x400 + b3 * 0x4_0000
  }

  /** The four limbs in thirteen bytes from byte k on stand for the same number. */
  lemma FourLimbs(s: seq<nat>, k: nat, n0: nat, n1: nat, n2: nat, n3: nat)
    requires k + 13 <= |s| && AreBytes(s)
    requires n0 == Limb0(s[k + 9], s[k + 10], s[k + 11], s[k + 12]) && n1 == Limb1(s[k + 6], s[k + 7], s[k + 8], s[k + 9])
    requires n2 == Limb2(s[k + 3], s[k + 4], s[k + 5], s[k + 6]) && n3 == Limb3(s[k], s[k + 1], s[k + 2], s[k + 3])
    ensures n0 <= M && n1 <= M && n2 <= M && n3 <= M
    ensures BigEndian(s[..k + 13]) == n0 + BASE * (n1 + BASE * (n2 + BASE * (n3 + BASE * BigEndian(s[..k]))))
  {
    hide BigEndian, Limb0, Limb1, Limb2, Limb3;
    NextByte(s, k); NextByte(s, k + 1); NextByte(s, k + 2); NextByte(s, k + 3);
    NextByte(s, k + 4); NextByte(s, k + 5); NextByte(s, k + 6);
    NextByte(s, k + 7); NextByte(s, k + 8); NextByte(s, k + 9);
    NextByte(s, k + 10); NextByte(s, k + 11); NextByte(s, k + 12);
    LimbsFromBytes(BigEndian(s[..k]), s[k], s[k + 1], s[k + 2], s[k + 3], s[k + 4], s[k + 5], s[k + 6],
                   s[k + 7], s[k + 8], s[k + 9], s[k + 10], s[k + 11], s[k + 12]);
  }

  lemma LimbsFromBytes(v: nat, b0: nat, b1: nat, b2: nat, b3: nat, b4: nat, b5: nat, b6: nat, b7: nat, b8: nat, b9: nat,
                       b10: nat, b11: nat, b12: nat)
    requires b0 < 0x100 && b1 < 0x100 && b2 < 0x100 && b3 < 0x100 && b4 < 0x100 && b5 < 0x100 && b6 < 0x100
    requires b7 < 0x100 && b8 < 0x100 && b9 < 0x100 && b10 < 0x100 && b11 < 0x100 && b12 < 0x100
    ensures Limb0(b9, b10, b11, b12) <= M && Limb1(b6, b7, b8, b9) <= M
    ensures Limb2(b3, b4, b5, b6) <= M && Limb3(b0, b1, b2, b3) <= M
    ensures var high := (((((v * 0x100 + b0) * 0x100 + b1) * 0x100 + b2) * 0x100 + b3) * 0x100 + b4) * 0x100 + b5;
            ((((((high * 0x100 + b6) * 0x100 + b7) * 0x100 + b8) * 0x100 + b9) * 0x100 + b10) * 0x100 + b11) * 0x100 + b12
            == Limb0(b9, b10, b11, b12) + BASE * (Limb1(b6, b7, b8, b9)
               + BASE * (Limb2(b3, b4, b5, b6) + BASE * (Limb3(b0, b1, b2, b3) + BASE * v)))
  {
    SharedByte(b9, 4);
    SharedByte(b6, 0x10);
    SharedByte(b3, 0x40);
    var l9, h9 := b9 % 4, b9 / 4 % 0x40;
    var l6, h6 := b6 % 0x10, b6 / 0x10 % 0x10;
    var l3, h3 := b3 % 0x40, b3 / 0x40 % 4;
    SplitBytes(v, b0, b1, b2, b3, b4, b5, b6, b7, b8, b9, b10, b11, b12, l9, h9, l6, h6, l3, h3);
  }

  lemma SplitBytes(v: nat, b0: nat, b1: nat, b2: nat, b3: nat, b4: nat, b5: nat, b6: nat, b7: nat, b8: nat, b9: nat,
                   b10: nat, b11: nat, b12: nat, l9: nat, h9: nat, l6: nat, h6: nat, l3: nat, h3: nat)
    requires b9 == l9 + 4 * h9 && b6 == l6 + 0x10 * h6 && b3 == l3 + 0x40 * h3
    ensures var high := (((((v * 0x100 + b0) * 0x100 + b1) * 0x100 + b2) * 0x100 + b3) * 0x100 + b4) * 0x100 + b5;
            ((((((high * 0x100 + b6) * 0x100 + b7) * 0x100 + b8) * 0x100 + b9) * 0x100 + b10) * 0x100 + b11) * 0x100 + b12
            == (b12 + b11 * 0x100 + b10 * 0x1_0000 + l9 * 0x100_0000)
               + BASE * ((h9 + b8 * 0x40 + b7 * 0x4000 + l6 * 0x40_0000)
               + BASE * ((h6 + b5 * 0x10 + b4 * 0x1000 + l3 * 0x10_0000)
               + BASE * ((h3 + b2 * 4 + b1 * 0x400 + b0 * 0x4_0000) + BASE * v)))
  {
  }

  lemma SharedByte(b: nat, d: nat)
    requires b < 0x100 && (d == 4 || d == 0x10 || d == 0x40)
    ensures b == b % d + d * (b / d % (0x100 / d)) && b / d == b / d % (0x100 / d)
  {
  }

  /** The limbs of 32 bytes. */
  function LimbsOf(a: seq<nat>): Fe
    requires |a| == 32
  {
    Fe(Limb0(a[28], a[29], a[30], a[31]), Limb1(a[25], a[26], a[27], a[28]), Limb2(a[22], a[23], a[24], a[25]),
       Limb3(a[19], a[20], a[21], a[22]), Limb0(a[15], a[16], a[17], a[18]), Limb1(a[12], a[13], a[14], a[15]),
       Limb2(a[9], a[10], a[11], a[12]), Limb3(a[6], a[7], a[8], a[9]), Limb0(a[2], a[3], a[4], a[5]),
       a[2] / 4 % 0x40 + a[1] * 0x40 + a[0] * 0x4000)
  }

  lemma LimbsOfValue(a: seq<nat>)
    requires |a| == 32 && AreBytes(a)
    ensures Value(LimbsOf(a)) == BigEndian(a) && IsReduced(LimbsOf(a))
  {
    hide BigEndian, Limb0, Limb1, Limb2, Limb3;
    var f := LimbsOf(a);
    FourLimbs(a, 19, f.n0, f.n1, f.n2, f.n3);
    FourLimbs(a, 6, f.n4, f.n5, f.n6, f.n7);
    TopLimbs(a);
    hide LimbsOf, Value;
    assert a[..19 + 13] == a && a[..6 + 13] == a[..19];
    JoinLimbs(f, BigEndian(a[..6]), BigEndian(a[..19]), BigEndian(a));
  }

  lemma JoinLimbs(f: Fe, top: int, middle: int, all: int)
    requires top == f.n8 + BASE * f.n9
    requires middle == f.n4 + BASE * (f.n5 + BASE * (f.n6 + BASE * (f.n7 + BASE * top)))
    requires all == f.n0 + BASE * (f.n1 + BASE * (f.n2 + BASE * (f.n3 + BASE * middle)))
    ensures Value(f) == all
  {
  }

  /** `secp256k1_fe_set_b32` fails exactly for numbers from P on. */
  method SetB32(a: seq<nat>) returns (r: Fe, ok: bool)
    requires |a| == 32 && AreBytes(a)
    ensures Value(r) == BigEndian(a) && IsReduced(r)
    ensures ok <==> BigEndian(a) < P
  {
    r := LimbsOf(a);
    LimbsOfValue(a);
    hide BigEndian, LimbsOf;
    ReachesPExactly(r);
    NoTopBit(r);
    return r, !ReachesP(r);
  }

  lemma NoTopBit(r: Fe)
    requires IsReduced(r)
    ensures IsAlmostReduced(r) && r.n9 / 0x40_0000 == 0
  {
  }

  lemma TopLimbs(a: seq<nat>)
    requires |a| >= 6 && AreBytes(a)
    ensures var n8, n9 := Limb0(a[2], a[3], a[4], a[5]), a[2] / 4 % 0x40 + a[1] * 0x40 + a[0] * 0x4000;
            n8 <= M && n9 <= TOP_MASK && BigEndian(a[..6]) == n8 + BASE * n9
  {
    NextByte(a, 0); NextByte(a, 1); NextByte(a, 2); NextByte(a, 3); NextByte(a, 4); NextByte(a, 5);
    assert BigEndian(a[..0]) == 0;
    hide BigEndian;
    SharedByte(a[2], 4);
  }

  /** The thirteen bytes of four limbs. */
  function FourLimbBytes(n0: nat, n1: nat, n2: nat, n3: nat): (r: seq<nat>)
    ensures |r| == 13
  {
    [n3 / 0x4_0000 % 0x100, n3 / 0x400 % 0x100, n3 / 4 % 0x100, n3 % 4 * 0x40 + n2 / 0x10_0000 % 0x40,
     n2 / 0x1000 % 0x100, n2 / 0x10 % 0x100, n2 % 0x10 * 0x10 + n1 / 0x40_0000 % 0x10,
     n1 / 0x4000 % 0x100, n1 / 0x40 % 0x100, n1 % 0x40 * 4 + n0 / 0x100_0000 % 4,
     n0 / 0x1_0000 % 0x100, n0 / 0x100 % 0x100, n0 % 0x100]
  }

  /** A number cut into a low part of size x, two bytes and the rest. */
  lemma Cuts(n: nat, x: nat, y: nat, z: nat)
    requires x > 0 && y == x * 0x100 && z == y * 0x100
    ensures n == n % x + x * (n / x % 0x100) + y * (n / y % 0x100) + z * (n / z)
  {
    Cut(n, x, y);
    Cut(n, y, z);
  }

  lemma Cut(n: nat, x: nat, y: nat)
    requires x > 0 && y == x * 0x100
    ensures n % y == n % x + x * (n / x % 0x100)
    ensures n == n % y + y * (n / y)
  {
    ModSplit(n, x, 0x100);
  }

  /** A byte shared by two limbs gives both parts back. */
  lemma Share(high: nat, low: nat, d: nat)
    requires d > 0 && low < d
    ensures (high * d + low) % d == low && (high * d + low) / d == high
  {
    DivModUnique(high * d + low, d, high, low);
  }

  lemma BytesOfLimb0(n: nat, rest: nat)
    requires n <= M && rest < 0x40
    ensures Limb0(rest * 4 + n / 0x100_0000 % 4, n / 0x1_0000 % 0x100, n / 0x100 % 0x100, n % 0x100) == n
    ensures rest * 4 + n / 0x100_0000 % 4 < 0x100
  {
    Cuts(n, 0x100, 0x1_0000, 0x100_0000);
    Share(rest, n / 0x100_0000 % 4, 4);
  }

  lemma BytesOfLimb1(n: nat, rest: nat, low: nat)
    requires n <= M && rest < 0x10 && low < 4
    ensures Limb1(rest * 0x10 + n / 0x40_0000 % 0x10, n / 0x4000 % 0x100, n / 0x40 % 0x100, n % 0x40 * 4 + low) == n
    ensures rest * 0x10 + n / 0x40_0000 % 0x10 < 0x100
  {
    Cuts(n, 0x40, 0x4000, 0x40_0000);
    Share(rest, n / 0x40_0000 % 0x10, 0x10);
    Share(n % 0x40, low, 4);
  }

  lemma BytesOfLimb2(n: nat, rest: nat, low: nat)
    requires n <= M && rest < 4 && low < 0x10
    ensures Limb2(rest * 0x40 + n / 0x10_0000 % 0x40, n / 0x1000 % 0x100, n / 0x10 % 0x100, n % 0x10 * 0x10 + low) == n
    ensures rest * 0x40 + n / 0x10_0000 % 0x40 < 0x100
  {
    Cuts(n, 0x10, 0x1000, 0x10_0000);
    Share(rest, n / 0x10_0000 % 0x40, 0x40);
    Share(n % 0x10, low, 0x10);
  }

  lemma TopByte(n: nat)
    requires n <= M
    ensures n / 0x4_0000 % 0x100 == n / 0x4_0000
  {
  }

  lemma BytesOfLimb3(n: nat, low: nat)
    requires n <= M && low < 0x40
    ensures Limb3(n / 0x4_0000 % 0x100, n / 0x400 % 0x100, n / 4 % 0x100, n % 4 * 0x40 + low) == n
  {
    Cuts(n, 4, 0x400, 0x4_0000);
    TopByte(n);
    Share(n % 4, low, 0x40);
  }

  lemma BytesOfLimbs(n0: nat, n1: nat, n2: nat, n3: nat)
    requires n0 <= M && n1 <= M && n2 <= M && n3 <= M
    ensures var b := FourLimbBytes(n0, n1, n2, n3);
            && AreBytes(b) && Limb0(b[9], b[10], b[11], b[12]) == n0 && Limb1(b[6], b[7], b[8], b[9]) == n1
            && Limb2(b[3], b[4], b[5], b[6]) == n2 && Limb3(b[0], b[1], b[2], b[3]) == n3
  {
    BytesOfLimb0(n0, n1 % 0x40);
    BytesOfLimb1(n1, n2 % 0x10, n0 / 0x100_0000 % 4);
    BytesOfLimb2(n2, n3 % 4, n1 / 0x40_0000 % 0x10);
    BytesOfLimb3(n3, n2 / 0x10_0000 % 0x40);
    hide Limb0, Limb1, Limb2, Limb3;
  }

  lemma BytesOfTop(n8: nat, n9: nat)
    requires n8 <= M && n9 <= TOP_MASK
    ensures var b2 := n9 % 0x40 * 4 + n8 / 0x100_0000 % 4;
            && Limb0(b2, n8 / 0x1_0000 % 0x100, n8 / 0x100 % 0x100, n8 % 0x100) == n8
            && b2 / 4 % 0x40 + n9 / 0x40 % 0x100 * 0x40 + n9 / 0x4000 % 0x100 * 0x4000 == n9
            && b2 < 0x100
  {
    BytesOfLimb0(n8, n9 % 0x40);
    Share(n9 % 0x40, n8 / 0x100_0000 % 4, 4);
    TopCut(n9);
    hide Limb0;
  }

  lemma TopCut(n9: nat)
    requires n9 <= TOP_MASK
    ensures n9 == n9 % 0x40 + n9 / 0x40 % 0x100 * 0x40 + n9 / 0x4000 % 0x100 * 0x4000
  {
    Cut(n9, 0x40, 0x4000);
  }

  /** `secp256k1_fe_get_b32` */
  method GetB32(f: Fe) returns (r: seq<nat>)
    requires IsReduced(f)
    ensures |r| == 32 && AreBytes(r) && BigEndian(r) == Value(f)
  {
    hide BigEndian, Limb0, Limb1, Limb2, Limb3, FourLimbBytes;
    BytesOfLimbs(f.n0, f.n1, f.n2, f.n3);
    BytesOfLimbs(f.n4, f.n5, f.n6, f.n7);
    BytesOfTop(f.n8, f.n9);
    r := [f.n9 / 0x4000 % 0x100, f.n9 / 0x40 % 0x100, f.n9 % 0x40 * 4 + f.n8 / 0x100_0000 % 4,
          f.n8 / 0x1_0000 % 0x100, f.n8 / 0x100 % 0x100, f.n8 % 0x100]
         + FourLimbBytes(f.n4, f.n5, f.n6, f.n7) + FourLimbBytes(f.n0, f.n1, f.n2, f.n3);
    LimbsOfValue(r);
    assert LimbsOf(r) == f;
  }

  /** Reading back what was written gives the same element, and the same bytes. */
  lemma BytesRoundTrip(a: seq<nat>, r: seq<nat>)
    requires |a| == 32 && AreBytes(a) && |r| == 32 && AreBytes(r) && BigEndian(r) == Value(LimbsOf(a))
    ensures r == a
  {
    LimbsOfValue(a);
    SameBytes(r, a);
  }
}
