/** Powers of two, division with remainder and congruences: the arithmetic the other modules share. */
module Numbers {

  /** Order of the group (section 2.4.1 of SEC 2). */
  const N: nat := 0xFFFFFFFF_FFFFFFFF_FFFFFFFF_FFFFFFFE_BAAEDCE6_AF48A03B_BFD25E8C_D0364141

  function Pow2(n: nat): (r: int)
    ensures r > 0
  {
    if n == 0 then 1 else 2 * Pow2(n - 1)
  }

  lemma {:induction false} Pow2Add(a: nat, b: nat)
    ensures Pow2(a + b) == Pow2(a) * Pow2(b)
  {
    if b > 0 { Pow2Add(a, b - 1); }
  }

  lemma {:induction false} Pow2Monotone(a: nat, b: nat)
    requires a <= b
    ensures Pow2(a) <= Pow2(b)
    ensures a < b ==> 2 * Pow2(a) <= Pow2(b)
  {
    if a < b { Pow2Monotone(a, b - 1); }
  }

  /** The powers that occur as word and scalar sizes. */
  lemma Pow2Values()
    ensures Pow2(0) == 1 && Pow2(1) == 2 && Pow2(2) == 4
    ensures Pow2(8) == 0x100 && Pow2(16) == 0x1_0000 && Pow2(32) == 0x1_0000_0000
    ensures Pow2(64) == 0x1_0000_0000_0000_0000
    ensures Pow2(128) == 0x1_00000000_00000000_00000000_00000000
    ensures Pow2(255) == 0x80000000_00000000_00000000_00000000_00000000_00000000_00000000_00000000
    ensures Pow2(256) == 0x1_00000000_00000000_00000000_00000000_00000000_00000000_00000000_00000000
  {
    Pow2Small();
    hide Pow2;
    Pow2Square(8, 0x100);
    Pow2Square(16, 0x1_0000);
    Pow2Square(32, 0x1_0000_0000);
    Pow2Square(64, 0x1_0000_0000_0000_0000);
    Pow2Square(128, 0x1_00000000_00000000_00000000_00000000);
    Pow2Last(256);
  }

  lemma Pow2Small()
    ensures Pow2(0) == 1 && Pow2(1) == 2 && Pow2(2) == 4 && Pow2(4) == 16 && Pow2(8) == 0x100
  {
  }

  lemma Pow2Square(n: nat, v: int)
    requires Pow2(n) == v
    ensures Pow2(2 * n) == v * v
  {
    Pow2Add(n, n);
  }

  lemma Pow2Last(n: nat)
    requires n > 0
    ensures Pow2(n) == 2 * Pow2(n - 1)
  {
  }

  /** Quotient and remainder are unique. */
  lemma DivModUnique(a: int, d: int, q: int, r: int)
    requires 0 <= r < d
    requires a == q * d + r
    ensures a / d == q && a % d == r
  {
    var q', r' := a / d, a % d;
    assert (q - q') * d == r' - r;
    if q > q' {
      MulMonotone(1, q - q', d);
    } else if q < q' {
      MulMonotone(q - q', -1, d);
    }
  }

  lemma MulMonotone(a: int, b: int, d: int)
    requires a <= b && 0 <= d
    ensures a * d <= b * d
  {
    assert 0 <= (b - a) * d;
  }

  lemma DivLess(a: nat, x: nat, y: nat)
    requires x > 0 && a < x * y
    ensures a / x < y
  {
    if a / x >= y {
      MulMonotone(y, a / x, x);
    }
  }

  /** a mod xy, digit by digit. */
  lemma ModSplit(a: nat, x: nat, y: nat)
    requires x > 0 && y > 0
    ensures x * y > 0
    ensures a % (x * y) == a % x + x * ((a / x) % y)
    ensures a / (x * y) == (a / x) / y
  {
    var q, r := a / x, a % x;
    var q2, r2 := q / y, q % y;
    assert a == q2 * (x * y) + (r + x * r2) by {
      assert a == q * x + r && q == q2 * y + r2;
      assert q * x == q2 * y * x + r2 * x;
      assert q2 * y * x == q2 * (x * y);
    }
    assert 0 <= r + x * r2 < x * y by {
      MulMonotone(r2, y - 1, x);
    }
    DivModUnique(a, x * y, q2, r + x * r2);
  }

  /** The field of `count` bits that starts at bit `offset`. */
  function Bits(s: nat, offset: nat, count: nat): (r: nat)
    ensures r < Pow2(count)
  {
    (s / Pow2(offset)) % Pow2(count)
  }

  lemma BitsSplit(s: nat, offset: nat, count: nat)
    ensures s % Pow2(offset + count) == s % Pow2(offset) + Pow2(offset) * Bits(s, offset, count)
    ensures s / Pow2(offset + count) == s / Pow2(offset) / Pow2(count)
  {
    Pow2Add(offset, count);
    ModSplit(s, Pow2(offset), Pow2(count));
  }

  /** The lowest bit of a nonempty field is the bit at its offset. */
  lemma BitsParity(s: nat, offset: nat, count: nat)
    requires count > 0
    ensures Bits(s, offset, count) % 2 == Bits(s, offset, 1)
  {
    var q := s / Pow2(offset);
    assert Pow2(count) == 2 * Pow2(count - 1) && Pow2(1) == 2 by { Pow2Add(1, count - 1); }
    ModSplit(q, 2, Pow2(count - 1));
    DivModUnique(q % Pow2(count), 2, (q / 2) % Pow2(count - 1), q % 2);
  }

  /** Above the length of the number all bits are zero. */
  lemma BitsAbove(s: nat, length: nat, offset: nat, count: nat)
    requires s < Pow2(length) && length <= offset
    ensures Bits(s, offset, count) == 0 && s % Pow2(offset) == s
  {
    Pow2Monotone(length, offset);
    DivModUnique(s, Pow2(offset), 0, s);
    DivModUnique(0, Pow2(count), 0, 0);
  }

  /** A field whose top bits lie above the length of the number is small. */
  lemma BitsCrossing(s: nat, length: nat, offset: nat, count: nat)
    requires s < Pow2(length) && offset <= length <= offset + count
    ensures Bits(s, offset, count) < Pow2(length - offset)
  {
    hide Pow2;
    Pow2Add(offset, length - offset);
    Pow2Monotone(length - offset, count);
    DivLess(s, Pow2(offset), Pow2(length - offset));
    DivModUnique(s / Pow2(offset), Pow2(count), 0, s / Pow2(offset));
  }

  // ---------- congruences ----------

  /** a and b leave the same residue modulo m. */
  ghost predicate Cong(a: int, b: int, m: int) {
    exists k: int :: a - b == k * m
  }

  lemma CongWitness(a: int, b: int, m: int, k: int)
    requires a - b == k * m
    ensures Cong(a, b, m)
  {
  }

  lemma CongSymm(a: int, b: int, m: int)
    requires Cong(a, b, m)
    ensures Cong(b, a, m)
  {
    var k :| a - b == k * m;
    CongWitness(b, a, m, -k);
  }

  lemma CongTrans(a: int, b: int, c: int, m: int)
    requires Cong(a, b, m) && Cong(b, c, m)
    ensures Cong(a, c, m)
  {
    var k :| a - b == k * m;
    var l :| b - c == l * m;
    CongWitness(a, c, m, k + l);
  }

  lemma CongAdd(a: int, b: int, c: int, d: int, m: int)
    requires Cong(a, b, m) && Cong(c, d, m)
    ensures Cong(a + c, b + d, m) && Cong(a - c, b - d, m)
  {
    var k :| a - b == k * m;
    var l :| c - d == l * m;
    assert (k + l) * m == k * m + l * m && (k - l) * m == k * m - l * m;
    CongWitness(a + c, b + d, m, k + l);
    CongWitness(a - c, b - d, m, k - l);
  }

  lemma CongMul(a: int, b: int, c: int, d: int, m: int)
    requires Cong(a, b, m) && Cong(c, d, m)
    ensures Cong(a * c, b * d, m)
  {
    var k :| a - b == k * m;
    var l :| c - d == l * m;
    calc {
      a * c - b * d;
      (a - b) * c + b * (c - d);
      k * m * c + b * (l * m);
      { assert k * m * c == (k * c) * m && b * (l * m) == (b * l) * m; }
      (k * c + b * l) * m;
    }
    CongWitness(a * c, b * d, m, k * c + b * l);
  }

  lemma CongMod(a: int, m: int)
    requires m > 0
    ensures Cong(a, a % m, m) && Cong(a % m, a, m)
  {
    CongWitness(a, a % m, m, a / m);
    CongWitness(a % m, a, m, -(a / m));
  }

  /** Congruence is equality of remainders. */
  lemma CongIffModEqual(a: int, b: int, m: int)
    requires m > 0
    ensures Cong(a, b, m) <==> a % m == b % m
  {
    if Cong(a, b, m) {
      var k :| a - b == k * m;
      assert a == (k + b / m) * m + b % m;
      DivModUnique(a, m, k + b / m, b % m);
    }
    if a % m == b % m {
      CongWitness(a, b, m, a / m - b / m);
    }
  }
}
