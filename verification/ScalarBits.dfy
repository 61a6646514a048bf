/** Shifting scalars, reading fields of bits, and the byte form (scalar_8x32_impl.h). */
module ScalarBits {
  import opened Numbers
  import opened Accumulator
  import opened Scalar8x32
  import opened ScalarOps
  import opened FieldBytes

  // ---------- shifting ----------

  /** Two powers of two that make up a word. */
  lemma WordFactors(n: nat)
    requires 0 < n < 32
    ensures Pow2(n) * Pow2(32 - n) == WORD && Pow2(n) > 1 && Pow2(32 - n) > 1
  {
    Pow2Values();
    hide Pow2;
    Pow2Add(n, 32 - n);
    Pow2Monotone(1, n);
    Pow2Monotone(1, 32 - n);
  }

  /** A word with the low bits of the next one moved into its top. */
  function Shifted(x: Word, next: Word, p: int, q: int): int
    requires p > 0
  {
    x / p + (next * q) % WORD
  }

  /** p times the shifted word is the word without its low bits, and the low bits of the next
  word one place up. */
  lemma ShiftedValue(x: Word, next: Word, p: int, q: int)
    requires p > 1 && q > 1 && p * q == WORD
    ensures 0 <= Shifted(x, next, p, q) < WORD
    ensures p * Shifted(x, next, p, q) == x - x % p + WORD * (next % p)
  {
    // next * q drops whatever exceeds a word: only its low bits are left.
    var h, l := next / p, next % p;
    assert next * q == h * WORD + l * q by { assert next == h * p + l; Regroup(h, p, l, q); }
    MulMonotone(l, p - 1, q);
    DistributeSub(p, q);
    DivModUnique(next * q, WORD, h, l * q);
    DivLess(x, p, q);
    assert x == p * (x / p) + x % p;
    Spread(p, q, x / p, l);
  }

  lemma Regroup(h: int, p: int, l: int, q: int)
    ensures (h * p + l) * q == h * (p * q) + l * q
  {
  }

  lemma DistributeSub(p: int, q: int)
    ensures (p - 1) * q == p * q - q
  {
  }

  lemma Spread(p: int, q: int, h: int, l: int)
    ensures p * (h + l * q) == p * h + p * q * l
  {
  }

  /** `secp256k1_scalar_shr_int`: quotient and remainder by 2^n. */
  method ShrInt(a: Scalar, n: nat) returns (r: Scalar, ret: nat)
    requires 0 < n < 16
    ensures ret == Value(a) % Pow2(n)
    ensures Value(r) == Value(a) / Pow2(n)
  {
    hide Pow2, Value, Shifted;
    WordFactors(n);
    var p, q := Pow2(n), Pow2(32 - n);
    ret := a.d0 % p;
    ShiftedValue(a.d0, a.d1, p, q); ShiftedValue(a.d1, a.d2, p, q); ShiftedValue(a.d2, a.d3, p, q);
    ShiftedValue(a.d3, a.d4, p, q); ShiftedValue(a.d4, a.d5, p, q); ShiftedValue(a.d5, a.d6, p, q);
    ShiftedValue(a.d6, a.d7, p, q); ShiftedValue(a.d7, 0, p, q);
    LastShift(a.d7, p, q);
    r := Scalar(Shifted(a.d0, a.d1, p, q), Shifted(a.d1, a.d2, p, q), Shifted(a.d2, a.d3, p, q), Shifted(a.d3, a.d4, p, q),
                Shifted(a.d4, a.d5, p, q), Shifted(a.d5, a.d6, p, q), Shifted(a.d6, a.d7, p, q), a.d7 / p);
    Distribute8(p, r.d0, r.d1, r.d2, r.d3, r.d4, r.d5, r.d6, r.d7);
    ValueEight(r);
    ValueEight(a);
    Telescope(a, p * r.d0, p * r.d1, p * r.d2, p * r.d3, p * r.d4, p * r.d5, p * r.d6, p * r.d7,
              a.d0 % p, a.d1 % p, a.d2 % p, a.d3 % p, a.d4 % p, a.d5 % p, a.d6 % p, a.d7 % p);
    hide Eight;
    Remainder(a.d0, p);
    assert Value(a) == p * Value(r) + ret;
    assert p * Value(r) == Value(r) * p;
    DivModUnique(Value(a), p, Value(r), ret);
  }

  lemma Remainder(x: nat, p: int)
    requires p > 0
    ensures 0 <= x % p < p
  {
  }

  lemma LastShift(x: Word, p: int, q: int)
    requires p > 0
    ensures Shifted(x, 0, p, q) == x / p
  {
    assert 0 * q == 0;
  }

  /** The low bits that leave one word enter the one below. */
  lemma Telescope(a: Scalar, y0: int, y1: int, y2: int, y3: int, y4: int, y5: int, y6: int, y7: int,
                  l0: int, l1: int, l2: int, l3: int, l4: int, l5: int, l6: int, l7: int)
    requires y0 == a.d0 - l0 + WORD * l1 && y1 == a.d1 - l1 + WORD * l2 && y2 == a.d2 - l2 + WORD * l3
    requires y3 == a.d3 - l3 + WORD * l4 && y4 == a.d4 - l4 + WORD * l5 && y5 == a.d5 - l5 + WORD * l6
    requires y6 == a.d6 - l6 + WORD * l7 && y7 == a.d7 - l7
    ensures Eight(y0, y1, y2, y3, y4, y5, y6, y7) == Value(a) - l0
  {
  }

  // ---------- fields of bits ----------

  function WordAt(a: Scalar, k: nat): Word
    requires k < 8
  {
    match k
    case 0 => a.d0
    case 1 => a.d1
    case 2 => a.d2
    case 3 => a.d3
    case 4 => a.d4
    case 5 => a.d5
    case 6 => a.d6
    case 7 => a.d7
  }

  /** What is left of a scalar above its first k words. */
  function Above(a: Scalar, k: nat): int
    requires k <= 8
    decreases 8 - k
  {
    if k == 8 then 0 else WordAt(a, k) + WORD * Above(a, k + 1)
  }

  lemma AboveZero(a: Scalar)
    ensures Above(a, 0) == Value(a)
  {
    assert Above(a, 6) == a.d6 + WORD * a.d7;
    assert Above(a, 4) == a.d4 + WORD * (a.d5 + WORD * Above(a, 6));
    assert Above(a, 2) == a.d2 + WORD * (a.d3 + WORD * Above(a, 4));
  }

  lemma {:induction false} AboveShift(a: Scalar, k: nat)
    requires k <= 8
    ensures Above(a, k) == Value(a) / Pow2(32 * k) && Above(a, k) >= 0
  {
    hide Pow2, Value;
    ValueRange(a);
    if k == 0 {
      Pow2Values();
      AboveZero(a);
    } else {
      AboveShift(a, k - 1);
      Pow2Values();
      DivModUnique(Above(a, k - 1), WORD, Above(a, k), WordAt(a, k - 1));
      assert 32 * k == 32 * (k - 1) + 32;
      Pow2Add(32 * (k - 1), 32);
      ModSplit(Value(a), Pow2(32 * (k - 1)), WORD);
    }
  }

  /** A field that lies within a word can be read from that word. */
  lemma FieldInWord(word: Word, rest: nat, s: nat, count: nat)
    requires s + count <= 32
    ensures (word + WORD * rest) / Pow2(s) % Pow2(count) == word / Pow2(s) % Pow2(count)
  {
    Pow2Values();
    hide Pow2;
    Pow2Add(s, 32 - s);
    Pow2Add(count, 32 - s - count);
    ShiftWord(word, rest, Pow2(s), Pow2(32 - s));
    FieldCong(word / Pow2(s), Pow2(count), Pow2(32 - s - count), rest, Pow2(32 - s));
  }

  /** Shifting a number right shifts its lowest word and brings in multiples of the rest. */
  lemma ShiftWord(word: nat, rest: nat, p: int, q: int)
    requires p > 0 && q > 0 && p * q == WORD
    ensures (word + WORD * rest) / p == word / p + q * rest
  {
    var h, l := word / p, word % p;
    assert word == h * p + l;
    FieldSum(p, q, h, l, rest);
    DivModUnique(word + WORD * rest, p, h + q * rest, l);
  }

  lemma FieldSum(p: int, q: int, h: int, l: int, rest: int)
    ensures h * p + l + p * q * rest == (h + q * rest) * p + l
  {
  }

  /** Multiples of the field size above do not show. */
  lemma FieldCong(h: int, c: int, d: int, rest: int, q: int)
    requires c > 0 && q == c * d
    ensures (h + q * rest) % c == h % c
  {
    assert h + q * rest - h == (d * rest) * c by { assert c * d * rest == d * rest * c; }
    CongWitness(h + q * rest, h, c, d * rest);
    CongIffModEqual(h + q * rest, h, c);
  }

  /** `secp256k1_scalar_get_bits`: the field may not cross a word. */
  method GetBits(a: Scalar, offset: nat, count: nat) returns (r: nat)
    requires count > 0 && offset + count <= 256 && (offset + count - 1) / 32 == offset / 32
    ensures r == Bits(Value(a), offset, count) == Value(a) / Pow2(offset) % Pow2(count)
  {
    hide Pow2, Value, Above, WordAt;
    var k, s := offset / 32, offset % 32;
    r := WordAt(a, k) / Pow2(s) % Pow2(count);
    ValueRange(a);
    AboveShift(a, k);
    AboveNext(a, k);
    AboveShift(a, k + 1);
    FieldInWord(WordAt(a, k), Above(a, k + 1), s, count);
    FieldOf(Value(a), k, s, offset, count);
  }

  lemma AboveNext(a: Scalar, k: nat)
    requires k < 8
    ensures Above(a, k) == WordAt(a, k) + WORD * Above(a, k + 1)
  {
  }

  lemma FieldOf(v: nat, k: nat, s: nat, offset: nat, count: nat)
    requires offset == 32 * k + s
    ensures Bits(v, offset, count) == v / Pow2(32 * k) / Pow2(s) % Pow2(count)
  {
    BitsSplit(v, 32 * k, s);
  }

  /** A field that crosses into the next word. */
  lemma FieldAcrossWords(word: Word, next: Word, rest: nat, s: nat, count: nat)
    requires 0 < s < 32 && count <= 32
    ensures (word + WORD * (next + WORD * rest)) / Pow2(s) % Pow2(count)
            == (word / Pow2(s) + next * Pow2(32 - s) % WORD) % Pow2(count)
  {
    hide Pow2;
    WordFactors(s);
    Pow2Values();
    Pow2Add(count, 32 - count);
    FieldAcross(word, next, rest, Pow2(s), Pow2(32 - s), Pow2(count), Pow2(32 - count));
  }

  lemma FieldAcross(word: Word, next: Word, rest: nat, p: int, q: int, c: int, e: int)
    requires p > 0 && q > 0 && c > 0 && p * q == WORD && c * e == WORD
    ensures (word + WORD * (next + WORD * rest)) / p % c == (word / p + next * q % WORD) % c
  {
    ShiftWord(word, next + WORD * rest, p, q);
    Crossing(word / p, next, rest, q, c, e);
  }

  /** The two parts do not overlap, so that | adds them: one is below 2^(32 - s), the other a
  multiple of it. */
  lemma NoOverlap(word: Word, next: Word, s: nat)
    requires 0 < s < 32
    ensures 0 <= word / Pow2(s) < Pow2(32 - s)
    ensures next * Pow2(32 - s) % WORD == next % Pow2(s) * Pow2(32 - s)
  {
    hide Pow2;
    WordFactors(s);
    var p, q := Pow2(s), Pow2(32 - s);
    DivLess(word, p, q);
    var h, l := next / p, next % p;
    assert next == h * p + l;
    Regroup(h, p, l, q);
    MulMonotone(l, p - 1, q);
    DistributeSub(p, q);
    DivModUnique(next * q, WORD, h, l * q);
  }

  lemma Crossing(h: int, next: int, rest: int, q: int, c: int, e: int)
    requires c > 0 && c * e == WORD
    ensures (h + q * (next + WORD * rest)) % c == (h + next * q % WORD) % c
  {
    var k := next * q / WORD;
    assert next * q == k * WORD + next * q % WORD;
    var x, y := h + q * (next + WORD * rest), h + next * q % WORD;
    CrossingTerms(q, next, rest, k, c, e);
    CongWitness(x, y, c, e * (k + q * rest));
    CongIffModEqual(x, y, c);
  }

  lemma CrossingTerms(q: int, next: int, rest: int, k: int, c: int, e: int)
    requires c * e == WORD
    ensures q * (next + WORD * rest) - next * q + k * WORD == e * (k + q * rest) * c
  {
    assert q * (WORD * rest) == WORD * (q * rest);
    assert e * (k + q * rest) * c == c * e * (k + q * rest);
  }

  /** `secp256k1_scalar_get_bits_var` */
  method GetBitsVar(a: Scalar, offset: nat, count: nat) returns (r: nat)
    requires 0 < count < 32 && offset + count <= 256
    ensures r == Bits(Value(a), offset, count) == Value(a) / Pow2(offset) % Pow2(count)
  {
    hide Pow2, Value, Above, WordAt;
    if (offset + count - 1) / 32 == offset / 32 {
      r := GetBits(a, offset, count);
    } else {
      var k, s := offset / 32, offset % 32;
      assert k + 1 < 8 && s > 0;
      r := (WordAt(a, k) / Pow2(s) + WordAt(a, k + 1) * Pow2(32 - s) % WORD) % Pow2(count);
      ValueRange(a);
      AboveShift(a, k);
      AboveNext(a, k);
      AboveNext(a, k + 1);
      AboveShift(a, k + 2);
      NoOverlap(WordAt(a, k), WordAt(a, k + 1), s);
      FieldAcrossWords(WordAt(a, k), WordAt(a, k + 1), Above(a, k + 2), s, count);
      FieldOf(Value(a), k, s, offset, count);
    }
  }

  // ---------- bytes ----------

  function WordOf(b0: nat, b1: nat, b2: nat, b3: nat): (w: nat)
    requires b0 < 0x100 && b1 < 0x100 && b2 < 0x100 && b3 < 0x100
    ensures w < WORD
  {
    b3 + b2 * 0x100 + b1 * 0x1_0000 + b0 * 0x100_0000
  }

  lemma FourBytes(s: seq<nat>, k: nat)
    requires k + 4 <= |s| && AreBytes(s)
    ensures BigEndian(s[..k + 4]) == BigEndian(s[..k]) * WORD + WordOf(s[k], s[k + 1], s[k + 2], s[k + 3])
  {
    NextByte(s, k); NextByte(s, k + 1); NextByte(s, k + 2); NextByte(s, k + 3);
    hide BigEndian;
  }

  function WordsOf(s: seq<nat>): Scalar
    requires |s| == 32 && AreBytes(s)
  {
    Scalar(WordOf(s[28], s[29], s[30], s[31]), WordOf(s[24], s[25], s[26], s[27]), WordOf(s[20], s[21], s[22], s[23]),
           WordOf(s[16], s[17], s[18], s[19]), WordOf(s[12], s[13], s[14], s[15]), WordOf(s[8], s[9], s[10], s[11]),
           WordOf(s[4], s[5], s[6], s[7]), WordOf(s[0], s[1], s[2], s[3]))
  }

  lemma SixteenBytes(s: seq<nat>, k: nat, w0: int, w1: int, w2: int, w3: int)
    requires k + 16 <= |s| && AreBytes(s)
    requires w0 == WordOf(s[k + 12], s[k + 13], s[k + 14], s[k + 15]) && w1 == WordOf(s[k + 8], s[k + 9], s[k + 10], s[k + 11])
    requires w2 == WordOf(s[k + 4], s[k + 5], s[k + 6], s[k + 7]) && w3 == WordOf(s[k], s[k + 1], s[k + 2], s[k + 3])
    ensures BigEndian(s[..k + 16]) == w0 + WORD * (w1 + WORD * (w2 + WORD * (w3 + WORD * BigEndian(s[..k]))))
  {
    hide BigEndian, WordOf;
    FourBytes(s, k); FourBytes(s, k + 4); FourBytes(s, k + 8); FourBytes(s, k + 12);
  }

  lemma JoinHalves(w: Scalar, low: int, all: int)
    requires all == w.d0 + WORD * (w.d1 + WORD * (w.d2 + WORD * (w.d3 + WORD * low)))
    requires low == w.d4 + WORD * (w.d5 + WORD * (w.d6 + WORD * w.d7))
    ensures Value(w) == all
  {
  }

  lemma WordsOfValue(s: seq<nat>)
    requires |s| == 32 && AreBytes(s)
    ensures Value(WordsOf(s)) == BigEndian(s)
  {
    assert BigEndian(s[..0]) == 0;
    hide BigEndian, WordOf, Value;
    var w := WordsOf(s);
    SixteenBytes(s, 0, w.d4, w.d5, w.d6, w.d7);
    SixteenBytes(s, 16, w.d0, w.d1, w.d2, w.d3);
    hide WordsOf;
    assert s[..16 + 16] == s && s[..0 + 16] == s[..16];
    JoinHalves(w, BigEndian(s[..16]), BigEndian(s));
  }

  /** `secp256k1_scalar_set_b32`: reads a number and reduces it, telling whether it had to. */
  method SetB32(b: seq<nat>) returns (r: Scalar, overflow: bool)
    requires |b| == 32 && AreBytes(b)
    ensures Value(r) == BigEndian(b) % N && Value(r) < N
    ensures overflow <==> BigEndian(b) >= N
  {
    hide Value, BigEndian, WordsOf;
    WordsOfValue(b);
    var t := WordsOf(b);
    overflow := CheckOverflow(t);
    r := Reduce(t, if overflow then 1 else 0);
    ValueRange(t);
    OrderWords();
    Reduced(Value(t), Value(t), 0, if overflow then 1 else 0, Value(r));
  }

  function BytesOf(d: Word): (r: seq<nat>)
    ensures |r| == 4
  {
    [d / 0x100_0000 % 0x100, d / 0x1_0000 % 0x100, d / 0x100 % 0x100, d % 0x100]
  }

  lemma BytesOfWord(d: Word)
    ensures var b := BytesOf(d); AreBytes(b) && WordOf(b[0], b[1], b[2], b[3]) == d
  {
    Cuts(d, 0x100, 0x1_0000, 0x100_0000);
  }

  /** `secp256k1_scalar_get_b32` */
  method GetB32(a: Scalar) returns (b: seq<nat>)
    ensures |b| == 32 && AreBytes(b) && BigEndian(b) == Value(a)
  {
    hide Value, BigEndian, BytesOf, WordOf;
    BytesOfWord(a.d0); BytesOfWord(a.d1); BytesOfWord(a.d2); BytesOfWord(a.d3);
    BytesOfWord(a.d4); BytesOfWord(a.d5); BytesOfWord(a.d6); BytesOfWord(a.d7);
    b := BytesOf(a.d7) + BytesOf(a.d6) + BytesOf(a.d5) + BytesOf(a.d4)
         + BytesOf(a.d3) + BytesOf(a.d2) + BytesOf(a.d1) + BytesOf(a.d0);
    WordsOfValue(b);
    assert WordsOf(b) == a;
  }
}
