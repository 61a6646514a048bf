/** Signed-digit recodings of scalars: the sliding window form of ecmult_impl.h, its fixed
window form, and the all-odd form of ecmult_const_impl.h. */
module Recoding {
  import opened Numbers

  /** Number of scalar bits. */
  const WNAF_BITS: nat := 256

  /** Number of w-bit digits that cover `bits` bits. */
  function SizeBits(bits: nat, w: nat): nat
    requires w > 0
  {
    (bits + w - 1) / w
  }

  lemma SizeBitsBounds(bits: nat, w: nat)
    requires w > 0
    ensures bits <= w * SizeBits(bits, w) < bits + w
  {
    var q := SizeBits(bits, w);
    assert bits + w - 1 == w * q + (bits + w - 1) % w;
  }

  /** The number written by the digits ds, least significant first, in base 2^w. */
  function Value(ds: seq<int>, w: nat): int
  {
    if ds == [] then 0 else ds[0] + Pow2(w) * Value(ds[1..], w)
  }

  /** What digit d contributes at position k. */
  function Term(d: int, w: nat, k: nat): int {
    d * Pow2(w * k)
  }

  lemma {:induction false} ValueSnoc(ds: seq<int>, d: int, w: nat)
    ensures Value(ds + [d], w) == Value(ds, w) + Term(d, w, |ds|)
  {
    if ds == [] {
      assert Value([d], w) == d + Pow2(w) * Value([d][1..], w);
      assert w * |ds| == 0;
    } else {
      ValueSnoc(ds[1..], d, w);
      assert (ds + [d])[1..] == ds[1..] + [d];
      TermShift(d, w, |ds| - 1);
      hide Term, Pow2;
      Distribute(Pow2(w), Value(ds[1..], w), Term(d, w, |ds| - 1));
    }
  }

  /** One position up, a digit contributes 2^w times as much. */
  lemma TermShift(d: int, w: nat, k: nat)
    ensures Term(d, w, k + 1) == Pow2(w) * Term(d, w, k)
    ensures Term(d * Pow2(w), w, k) == Term(d, w, k + 1)
  {
    Pow2Next(w, k);
    Reassociate(Pow2(w), d, Pow2(w * k));
  }

  lemma Pow2Next(w: nat, k: nat)
    ensures Pow2(w * (k + 1)) == Pow2(w) * Pow2(w * k)
  {
    assert w * (k + 1) == w + w * k;
    Pow2Add(w, w * k);
  }

  lemma Reassociate(p: int, d: int, q: int)
    ensures d * (p * q) == p * (d * q) == (d * p) * q
  {
  }

  lemma TermAdd(d: int, e: int, w: nat, k: nat)
    ensures Term(d + e, w, k) == Term(d, w, k) + Term(e, w, k)
    ensures Term(0, w, k) == 0 && Term(-d, w, k) == -Term(d, w, k)
  {
    var q := Pow2(w * k);
    assert (d + e) * q == d * q + e * q && -d * q == -(d * q);
  }

  lemma Distribute(p: int, v: int, t: int)
    ensures p * (v + t) == p * v + p * t
  {
  }

  /** The value up to digit k, in terms of a sequence that holds more digits. */
  lemma ValueNext(ds: seq<int>, k: nat, w: nat)
    requires k < |ds|
    ensures Value(ds[..k + 1], w) == Value(ds[..k], w) + Term(ds[k], w, k)
  {
    assert ds[..k + 1] == ds[..k] + [ds[k]];
    ValueSnoc(ds[..k], ds[k], w);
  }

  /** Digits that are zero from k on do not contribute. */
  lemma {:induction false} ValueZeros(ds: seq<int>, k: nat, m: nat, w: nat)
    requires k <= m <= |ds|
    requires forall j :: k <= j < m ==> ds[j] == 0
    ensures Value(ds[..m], w) == Value(ds[..k], w)
    decreases m
  {
    if k < m {
      ValueZeros(ds, k, m - 1, w);
      ValueNext(ds, m - 1, w);
      TermAdd(0, 0, w, m - 1);
    }
  }

  lemma {:induction false} ValueScaled(ds: seq<int>, es: seq<int>, c: int, w: nat)
    requires |ds| == |es|
    requires forall j :: 0 <= j < |ds| ==> es[j] == c * ds[j]
    ensures Value(es, w) == c * Value(ds, w)
  {
    if ds != [] {
      ValueScaled(ds[1..], es[1..], c, w);
      var p, v := Pow2(w), Value(ds[1..], w);
      assert c * (ds[0] + p * v) == c * ds[0] + p * (c * v);
    }
  }

  // ---------- sliding windows ----------

  /** What `secp256k1_ecmult_wnaf` promises of its digits, apart from their sum. */
  ghost predicate IsWnaf(ds: seq<int>, w: nat)
    requires w >= 1
  {
    && (forall j :: 0 <= j < |ds| && ds[j] != 0 ==> ds[j] % 2 == 1 && -Pow2(w - 1) < ds[j] < Pow2(w - 1))
    && (forall j, k :: 0 <= j < k < |ds| && ds[j] != 0 && ds[k] != 0 ==> w <= k - j)
  }

  /** The scalar as a number of absolute value below 2^255. */
  function Signed(a: nat): int
    requires a < N
  {
    if Bits(a, 255, 1) == 1 then a - N else a
  }

  lemma SignedBound(a: nat)
    requires a < N
    ensures -Pow2(255) < Signed(a) < Pow2(255)
    ensures Cong(Signed(a), a, N)
  {
    CongWitness(Signed(a), a, N, if Signed(a) == a then 0 else -1);
    TopBit(a);
  }

  lemma TopBit(a: nat)
    requires a < N
    ensures Bits(a, 255, 1) == (if a >= Pow2(255) then 1 else 0)
    ensures N < 2 * Pow2(255) == Pow2(256)
  {
    Pow2Values();
    hide Pow2;
    if a >= Pow2(255) {
      DivModUnique(a, Pow2(255), 1, a - Pow2(255));
    } else {
      DivModUnique(a, Pow2(255), 0, a);
    }
  }

  /** The loop of `EcmultWnaf` after `bit` positions: the digits written so far and the carry
  make up the low bits of s, the rest is still zero, and a carry never passes the top of s. */
  ghost predicate WnafSoFar(ds: seq<int>, s: nat, sign: int, carry: int, bit: nat, bits: nat, w: nat)
    requires w >= 1
  {
    && bits <= bit <= |ds| && 0 <= carry <= 1 && (sign == 1 || sign == -1)
    && sign * Value(ds[..bit], 1) + carry * Pow2(bit) == s % Pow2(bit)
    && (forall j :: bits <= j < |ds| ==> ds[j] == 0)
    && (bits > 0 ==> ds[bits - 1] != 0 && (bits - 1 + w <= bit || bit == |ds|))
    && IsWnaf(ds, w)
    && (forall length: nat :: s < Pow2(length) ==> bits <= length + 1 && (carry == 1 ==> bit <= length))
  }

  /** `secp256k1_ecmult_wnaf`: writes the digits into `wnaf` and returns the position after
  the last nonzero one. The caller must leave room for a final carry, as the checks at the
  end of the C function demand; for 256 digits every scalar satisfies this. */
  method EcmultWnaf(wnaf: array<int>, a: nat, w: nat) returns (bits: nat)
    requires a < N
    requires 2 <= w <= 31
    requires 1 <= wnaf.Length <= 256
    requires -Pow2(wnaf.Length - 1) < Signed(a) < Pow2(wnaf.Length - 1)
    modifies wnaf
    ensures Value(wnaf[..], 1) == Signed(a)
    ensures IsWnaf(wnaf[..], w)
    ensures bits <= wnaf.Length && forall j :: bits <= j < wnaf.Length ==> wnaf[j] == 0
    ensures bits > 0 ==> wnaf[bits - 1] != 0
    ensures forall length: nat :: -Pow2(length) < Signed(a) < Pow2(length) ==> bits <= length + 1
  {
    hide WnafSoFar, IsWnaf, Value, Pow2, Bits, Signed;
    var len := wnaf.Length;
    forall i | 0 <= i < len { wnaf[i] := 0; }
    var s: nat, sign, carry, bit := a, 1, 0, 0;
    bits := 0;
    TopBit(a);
    if Bits(s, 255, 1) == 1 {
      s := N - s;
      sign := -1;
    }
    SignedParts(a, s, sign);
    WnafStart(wnaf[..], s, sign, w);
    while bit < len
      invariant bit <= len && 0 <= carry <= 1
      invariant WnafSoFar(wnaf[..], s, sign, carry, bit, bits, w)
    {
      if Bits(s, bit, 1) == carry {
        CarryOn(wnaf[..], s, sign, carry, bit, bits, w);
        bit := bit + 1;
        continue;
      }
      var now := if w > len - bit then len - bit else w;
      var word := Bits(s, bit, now) + carry;
      WindowWrite(wnaf[..], s, sign, carry, bit, bits, now, w);
      carry := (word / Pow2(w - 1)) % 2;
      word := word - carry * Pow2(w);
      ghost var before := wnaf[..];
      wnaf[bit] := sign * word;
      assert wnaf[..] == before[bit := sign * word];
      bits := bit + 1;
      bit := bit + now;
    }
    WnafDone(wnaf[..], s, sign, carry, bits, w);
    WnafShape(wnaf[..], s, sign, carry, bit, bits, w);
  }

  lemma SignedParts(a: nat, s: nat, sign: int)
    requires a < N
    requires if Bits(a, 255, 1) == 1 then s == N - a && sign == -1 else s == a && sign == 1
    ensures Signed(a) == sign * s
  {
  }

  lemma WnafStart(ds: seq<int>, s: nat, sign: int, w: nat)
    requires w >= 1 && (sign == 1 || sign == -1)
    requires forall j :: 0 <= j < |ds| ==> ds[j] == 0
    ensures WnafSoFar(ds, s, sign, 0, 0, 0, w)
  {
    assert Value(ds[..0], 1) == 0 && Pow2(0) == 1;
  }

  /** Once every digit is written there is no carry left. */
  lemma WnafDone(ds: seq<int>, s: nat, sign: int, carry: int, bits: nat, w: nat)
    requires 1 <= w && 1 <= |ds| && s < Pow2(|ds| - 1)
    requires WnafSoFar(ds, s, sign, carry, |ds|, bits, w)
    ensures Value(ds, 1) == sign * s
  {
    hide Value, Pow2, IsWnaf;
    assert ds[..|ds|] == ds && carry == 0;
    BitsAbove(s, |ds| - 1, |ds|, 1);
    Signs(sign, Value(ds, 1), 0, 0);
  }

  lemma WnafShape(ds: seq<int>, s: nat, sign: int, carry: int, bit: nat, bits: nat, w: nat)
    requires 1 <= w
    requires WnafSoFar(ds, s, sign, carry, bit, bits, w)
    ensures IsWnaf(ds, w)
    ensures bits <= |ds| && forall j :: bits <= j < |ds| ==> ds[j] == 0
    ensures bits > 0 ==> ds[bits - 1] != 0
    ensures forall length: nat :: s < Pow2(length) ==> bits <= length + 1
  {
  }

  /** A bit equal to the carry is passed over and keeps the carry. */
  lemma CarryOn(ds: seq<int>, s: nat, sign: int, carry: int, bit: nat, bits: nat, w: nat)
    requires w >= 1 && bit < |ds|
    requires WnafSoFar(ds, s, sign, carry, bit, bits, w)
    requires Bits(s, bit, 1) == carry
    ensures WnafSoFar(ds, s, sign, carry, bit + 1, bits, w)
  {
    ValueNext(ds, bit, 1);
    TermAdd(0, 0, 1, bit);
    BitsSplit(s, bit, 1);
    assert Pow2(bit + 1) == 2 * Pow2(bit);
    forall length: nat | s < Pow2(length) && carry == 1 ensures bit + 1 <= length {
      if length <= bit { BitsAbove(s, length, bit, 1); }
    }
  }

  /** Any other bit starts a window, whose digit is written and whose overflow is carried. */
  lemma WindowWrite(ds: seq<int>, s: nat, sign: int, carry: int, bit: nat, bits: nat, now: nat, w: nat)
    requires w >= 2 && bit < |ds| && now == if w > |ds| - bit then |ds| - bit else w
    requires WnafSoFar(ds, s, sign, carry, bit, bits, w)
    requires Bits(s, bit, 1) != carry
    ensures var digit := Digit(s, bit, now, w, carry);
            WnafSoFar(ds[bit := sign * digit], s, sign, Over(s, bit, now, w, carry), bit + now, bit + 1, w)
  {
    var digit := Digit(s, bit, now, w, carry);
    WindowDigit(s, bit, now, w, carry);
    WindowWriteSum(ds, s, sign, carry, bit, now, w);
    hide Value, Pow2, Bits, Over, Digit;
    forall length: nat | s < Pow2(length)
      ensures bit <= length && (Over(s, bit, now, w, carry) == 1 ==> bit + now <= length)
    {
      WindowReach(s, length, bit, now, w, carry);
    }
    SignedDigit(sign, digit);
    WindowSpacing(ds, sign * digit, bit, bits, w);
  }

  lemma SignedDigit(sign: int, digit: int)
    requires (sign == 1 || sign == -1) && digit % 2 == 1
    ensures (sign * digit) % 2 == 1
    ensures sign * digit == digit || sign * digit == -digit
  {
  }

  lemma WindowWriteSum(ds: seq<int>, s: nat, sign: int, carry: int, bit: nat, now: nat, w: nat)
    requires w >= 1 && 1 <= now && bit + now <= |ds| && (sign == 1 || sign == -1)
    requires Over(s, bit, now, w, carry) == 0 || now == w
    requires forall j :: bit <= j < |ds| ==> ds[j] == 0
    requires sign * Value(ds[..bit], 1) + carry * Pow2(bit) == s % Pow2(bit)
    ensures sign * Value(ds[bit := sign * Digit(s, bit, now, w, carry)][..bit + now], 1)
              + Over(s, bit, now, w, carry) * Pow2(bit + now)
            == s % Pow2(bit + now)
  {
    hide Value, Pow2, Bits, Over, Digit;
    var digit := Digit(s, bit, now, w, carry);
    WindowSum(s, bit, now, w, carry);
    ValueWrite(ds, ds[bit := sign * digit], bit, now, sign * digit);
    Signs(sign, Value(ds[..bit], 1), digit, Pow2(bit));
  }

  lemma WindowSpacing(ds: seq<int>, d: int, bit: nat, bits: nat, w: nat)
    requires w >= 2 && bits <= bit < |ds| && IsWnaf(ds, w)
    requires forall j :: bits <= j < |ds| ==> ds[j] == 0
    requires bits > 0 ==> bits - 1 + w <= bit
    requires d % 2 == 1 && 0 - Pow2(w - 1) < d < Pow2(w - 1)
    ensures IsWnaf(ds[bit := d], w)
  {
  }

  lemma Signs(sign: int, v: int, digit: int, p: int)
    requires sign == 1 || sign == -1
    ensures sign * (v + sign * digit * p) == sign * v + digit * p
    ensures sign * (sign * v) == v
  {
  }

  /** What a window of `now` bits at position `bit`, together with the carry from below,
  leaves to be carried above. */
  function Over(s: nat, bit: nat, now: nat, w: nat, carry: int): int
    requires w >= 1
  {
    ((Bits(s, bit, now) + carry) / Pow2(w - 1)) % 2
  }

  function Digit(s: nat, bit: nat, now: nat, w: nat, carry: int): int
    requires w >= 1
  {
    Bits(s, bit, now) + carry - Over(s, bit, now, w, carry) * Pow2(w)
  }

  /** The digit of a window is odd and small; only full windows carry. */
  lemma WindowDigit(s: nat, bit: nat, now: nat, w: nat, carry: int)
    requires 2 <= w && 1 <= now <= w && 0 <= carry <= 1 && Bits(s, bit, 1) != carry
    ensures Digit(s, bit, now, w, carry) % 2 == 1
    ensures 0 - Pow2(w - 1) < Digit(s, bit, now, w, carry) < Pow2(w - 1)
    ensures Over(s, bit, now, w, carry)
            == if now == w && Bits(s, bit, now) + carry > Pow2(w - 1) then 1 else 0
  {
    BitsParity(s, bit, now);
    BitsBound(s, bit, 1);
    BitsBound(s, bit, now);
    Pow2Even(w - 1);
    Pow2Even(now);
    Pow2Last(w);
    hide Pow2, Bits;
    if now < w { Pow2Monotone(now, w - 1); }
    var over, digit := Over(s, bit, now, w, carry), Digit(s, bit, now, w, carry);
    FoldDigit(Bits(s, bit, now) + carry, Pow2(w - 1), Pow2(now), Pow2(w), now == w, over, digit);
  }

  /** A number below 2 * half, folded into the interval around zero. */
  lemma FoldDigit(word: nat, half: int, top: int, p: int, full: bool, over: int, digit: int)
    requires half % 2 == 0 && half > 0 && word % 2 == 1 && word < top && p == 2 * half
    requires if full then top == p else top <= half
    requires over == (word / half) % 2 && digit == word - over * p
    ensures over == (if full && word > half then 1 else 0)
    ensures digit % 2 == 1 && 0 - half < digit < half
  {
    DivModUnique(word, half, if word >= half then 1 else 0, if word >= half then word - half else word);
  }

  lemma BitsBound(s: nat, bit: nat, now: nat)
    ensures Bits(s, bit, 1) < 2 && Bits(s, bit, now) < Pow2(now)
  {
    assert Pow2(1) == 2;
  }

  /** The digit and the carry together stand for the window and the carry from below. */
  lemma WindowSum(s: nat, bit: nat, now: nat, w: nat, carry: int)
    requires w >= 1
    requires Over(s, bit, now, w, carry) == 0 || now == w
    ensures Digit(s, bit, now, w, carry) * Pow2(bit) + Over(s, bit, now, w, carry) * Pow2(bit + now)
            == s % Pow2(bit + now) - s % Pow2(bit) + carry * Pow2(bit)
  {
    BitsSplit(s, bit, now);
    Pow2Add(bit, now);
    var field, over, p, q := Bits(s, bit, now), Over(s, bit, now, w, carry), Pow2(bit), Pow2(w);
    hide *;
    Expand(field, carry, over, p, q);
  }

  lemma Expand(field: int, carry: int, over: int, p: int, q: int)
    ensures (field + carry - over * q) * p == p * field + carry * p - over * (p * q)
  {
    assert over * q * p == over * (p * q);
  }

  /** Windows do not reach above the top of the number, and do not carry past it. */
  lemma WindowReach(s: nat, length: nat, bit: nat, now: nat, w: nat, carry: int)
    requires 2 <= w && 1 <= now <= w && 0 <= carry <= 1 && Bits(s, bit, 1) != carry
    requires s < Pow2(length) && (carry == 1 ==> bit <= length)
    ensures bit <= length
    ensures Over(s, bit, now, w, carry) == 1 ==> bit + now <= length
  {
    if length < bit { BitsAbove(s, length, bit, 1); }
    WindowDigit(s, bit, now, w, carry);
    if length < bit + now {
      BitsCrossing(s, length, bit, now);
      Pow2Monotone(length - bit, w - 1);
    }
  }

  /** Writing a digit in front of zeros adds it to the sum. */
  lemma ValueWrite(before: seq<int>, after: seq<int>, bit: nat, now: nat, d: int)
    requires 1 <= now && bit + now <= |before|
    requires after == before[bit := d]
    requires forall j :: bit <= j < |before| ==> before[j] == 0
    ensures Value(after[..bit + now], 1) == Value(before[..bit], 1) + d * Pow2(bit)
  {
    assert after[..bit] == before[..bit] && 1 * bit == bit;
    ValueNext(after, bit, 1);
    ValueZeros(after, bit + 1, bit + now, 1);
  }

  // ---------- fixed windows ----------

  /** A digit that selects a bucket or none: zero, or odd and below 2^w in absolute value. */
  ghost predicate IsFixedDigit(d: int, w: nat) {
    d == 0 || (d % 2 == 1 && -Pow2(w) < d < Pow2(w))
  }

  ghost predicate AreFixedDigits(ds: seq<int>, w: nat) {
    forall j :: 0 <= j < |ds| ==> IsFixedDigit(ds[j], w)
  }

  lemma {:induction false} ValueUpdate(ds: seq<int>, k: nat, d: int, w: nat)
    requires k < |ds|
    ensures Value(ds[k := d], w) == Value(ds, w) + Term(d - ds[k], w, k)
  {
    if k == 0 {
      assert ds[k := d][1..] == ds[1..] && w * k == 0;
    } else {
      ValueUpdate(ds[1..], k - 1, d, w);
      assert ds[k := d][1..] == ds[1..][k - 1 := d];
      TermShift(d - ds[k], w, k - 1);
      hide Pow2, Term;
      Distribute(Pow2(w), Value(ds[1..], w), Term(d - ds[k], w, k - 1));
    }
  }

  /** Taking 2^w from a digit and giving 1 to the next one leaves the value as it is. */
  lemma ValueCarry(ds: seq<int>, k: nat, c: int, w: nat)
    requires k + 1 < |ds|
    ensures Value(ds[k := ds[k] - c * Pow2(w)][k + 1 := ds[k + 1] + c], w) == Value(ds, w)
  {
    hide Pow2, Value, Term;
    ValueUpdate(ds, k, ds[k] - c * Pow2(w), w);
    ValueUpdate(ds[k := ds[k] - c * Pow2(w)], k + 1, ds[k + 1] + c, w);
    TermShift(c, w, k);
    TermAdd(c * Pow2(w), 0, w, k);
  }

  /** The low k windows of s, and the window above them. */
  function Low(s: nat, w: nat, k: nat): nat {
    s % Pow2(w * k)
  }

  function Field(s: nat, w: nat, k: nat): nat {
    Bits(s, w * k, w)
  }

  lemma LowNext(s: nat, w: nat, k: nat)
    ensures Low(s, w, k + 1) == Low(s, w, k) + Term(Field(s, w, k), w, k)
    ensures Field(s, w, k) < Pow2(w)
  {
    assert w * (k + 1) == w * k + w;
    LowNextAt(s, w * k, w, w * (k + 1));
    BitsBound(s, w * k, w);
  }

  lemma LowNextAt(s: nat, offset: nat, w: nat, next: nat)
    requires next == offset + w
    ensures s % Pow2(next) == s % Pow2(offset) + Bits(s, offset, w) * Pow2(offset)
  {
    BitsSplit(s, offset, w);
  }

  /** The loop of `WnafFixed` before position `pos`: the digits stand for the low bits of s
  plus the skew, and the newest one is odd and positive, ready to be carried from. */
  ghost predicate FixedSoFar(ds: seq<int>, s: nat, skew: int, pos: nat, w: nat) {
    && 1 <= pos <= |ds|
    && Value(ds[..pos], w) == Low(s, w, pos) + skew
    && AreFixedDigits(ds[..pos], w)
    && ds[pos - 1] > 0
  }

  /** The top window is cut off at bit 256, above which the scalar has no bits. */
  lemma LastWindow(s: nat, offset: nat, last: nat, w: nat)
    requires s < Pow2(WNAF_BITS) && last <= w && offset + last == WNAF_BITS
    ensures Bits(s, offset, last) == Bits(s, offset, w)
  {
    hide Pow2;
    Pow2Add(offset, last);
    Pow2Monotone(last, w);
    TopField(s, Pow2(offset), Pow2(last), Pow2(w));
  }

  lemma TopField(s: nat, x: int, y: int, z: int)
    requires x > 0 && 0 < y <= z && s < x * y
    ensures s / x % y == s / x % z
  {
    DivLess(s, x, y);
    DivModUnique(s / x, y, 0, s / x);
    DivModUnique(s / x, z, 0, s / x);
  }

  /** The window at position pos, of full width or, at the top, what is left of 256 bits. */
  function Window(s: nat, pos: nat, w: nat): nat
    requires 1 <= w && pos < SizeBits(WNAF_BITS, w)
  {
    SizeBitsBounds(WNAF_BITS, w);
    var last := WNAF_BITS - (SizeBits(WNAF_BITS, w) - 1) * w;
    Bits(s, pos * w, if pos == SizeBits(WNAF_BITS, w) - 1 then last else w)
  }

  lemma WindowIsField(s: nat, pos: nat, w: nat)
    requires 1 <= w && pos < SizeBits(WNAF_BITS, w) && s < Pow2(WNAF_BITS)
    ensures Window(s, pos, w) == Field(s, w, pos) < Pow2(w)
  {
    hide Bits, Pow2;
    SizeBitsBounds(WNAF_BITS, w);
    assert pos * w == w * pos;
    if pos == SizeBits(WNAF_BITS, w) - 1 {
      LastWindow(s, pos * w, WNAF_BITS - pos * w, w);
    }
  }

  /** A window full of zeros above the number shortens it. */
  lemma DropWindow(s: nat, pos: nat, w: nat)
    requires s < Pow2(w * (pos + 1)) && Field(s, w, pos) == 0
    ensures s < Pow2(w * pos)
  {
    assert w * (pos + 1) == w * pos + w;
    BitsSplit(s, w * pos, w);
    BitsAbove(s, w * (pos + 1), w * (pos + 1), 0);
  }

  /** The next window; an even one is made odd by carrying from the digit below. */
  lemma FixedWindow(ds: seq<int>, s: nat, skew: int, pos: nat, w: nat)
    requires w >= 1 && pos < |ds| && FixedSoFar(ds, s, skew, pos, w)
    ensures var val := Field(s, w, pos);
            FixedSoFar(if val % 2 == 0 then ds[pos - 1 := ds[pos - 1] - Pow2(w)][pos := val + 1] else ds[pos := val],
                       s, skew, pos + 1, w)
  {
    Pow2Even(w);
    hide Value, Pow2, Low, Field;
    var val := Field(s, w, pos);
    WindowSum1(ds, s, skew, pos, w);
    LowNext(s, w, pos);
    var next := ds[pos := val];
    assert next[..pos] == ds[..pos];
    if val % 2 == 0 {
      CarryWindow(next, s, skew, pos + 1, w);
      assert next[pos - 1 := next[pos - 1] - Pow2(w)][pos := val + 1]
          == ds[pos - 1 := ds[pos - 1] - Pow2(w)][pos := val + 1];
    } else {
      OddWindow(ds, val, pos, w);
    }
  }

  /** Writing the window at its position adds it to the sum. */
  lemma WindowSum1(ds: seq<int>, s: nat, skew: int, pos: nat, w: nat)
    requires pos < |ds| && Value(ds[..pos], w) == Low(s, w, pos) + skew
    ensures Value(ds[pos := Field(s, w, pos)][..pos + 1], w) == Low(s, w, pos + 1) + skew
  {
    hide Value, Pow2, Term, Low, Field;
    var next := ds[pos := Field(s, w, pos)];
    LowNext(s, w, pos);
    ValueNext(next, pos, w);
    assert next[..pos] == ds[..pos];
  }

  lemma OddWindow(ds: seq<int>, val: nat, pos: nat, w: nat)
    requires pos < |ds| && AreFixedDigits(ds[..pos], w) && val % 2 == 1 && val < Pow2(w)
    ensures AreFixedDigits(ds[pos := val][..pos + 1], w)
  {
    hide Pow2;
    assert ds[pos := val][..pos + 1] == ds[..pos] + [val];
  }

  /** An even digit at the end becomes odd at the cost of the digit below it. */
  lemma CarryWindow(ds: seq<int>, s: nat, skew: int, pos: nat, w: nat)
    requires w >= 1 && 2 <= pos <= |ds|
    requires Value(ds[..pos], w) == Low(s, w, pos) + skew
    requires AreFixedDigits(ds[..pos - 1], w) && ds[pos - 2] > 0
    requires ds[pos - 1] % 2 == 0 && 0 <= ds[pos - 1] < Pow2(w) && Pow2(w) % 2 == 0
    ensures FixedSoFar(ds[pos - 2 := ds[pos - 2] - Pow2(w)][pos - 1 := ds[pos - 1] + 1], s, skew, pos, w)
  {
    hide Value, Pow2, Term, Low;
    var cut := ds[..pos];
    ValueCarry(cut, pos - 2, 1, w);
    assert ds[pos - 2 := ds[pos - 2] - Pow2(w)][pos - 1 := ds[pos - 1] + 1][..pos]
        == cut[pos - 2 := cut[pos - 2] - 1 * Pow2(w)][pos - 1 := cut[pos - 1] + 1];
    assert IsFixedDigit(ds[..pos - 1][pos - 2], w);
    ReplaceDigits(cut, pos - 2, ds[pos - 2] - Pow2(w), ds[pos - 1] + 1, w);
  }

  /** Replacing two neighbouring digits by good ones keeps the digits good. */
  lemma ReplaceDigits(ds: seq<int>, k: nat, d: int, e: int, w: nat)
    requires k + 1 < |ds|
    requires forall j :: 0 <= j < |ds| && j != k && j != k + 1 ==> IsFixedDigit(ds[j], w)
    requires IsFixedDigit(d, w) && IsFixedDigit(e, w)
    ensures AreFixedDigits(ds[k := d][k + 1 := e], w)
  {
  }

  /** A digit 1 above a negative digit, or -1 above a positive one, is folded into it. */
  lemma FixedFold(ds: seq<int>, s: nat, skew: int, pos: nat, w: nat)
    requires w >= 1 && 3 <= pos && FixedSoFar(ds, s, skew, pos, w)
    requires (ds[pos - 2] == 1 && ds[pos - 3] < 0) || (ds[pos - 2] == -1 && ds[pos - 3] > 0)
    ensures FixedSoFar(Folded(ds, pos, w), s, skew, pos, w)
  {
    Pow2Even(w);
    hide Value, Pow2, Term, Low;
    var cut := ds[..pos];
    var d := if ds[pos - 2] == 1 then ds[pos - 3] + Pow2(w) else ds[pos - 3] - Pow2(w);
    FoldValue(cut, pos - 3, w);
    assert Folded(ds, pos, w)[..pos] == cut[pos - 3 := d][pos - 2 := 0];
    assert IsFixedDigit(cut[pos - 3], w);
    MovedDigit(ds[pos - 3], d, w);
    ReplaceDigits(cut, pos - 3, d, 0, w);
  }

  lemma Pow2Even(w: nat)
    requires w >= 1
    ensures Pow2(w) % 2 == 0
  {
  }

  lemma MovedDigit(d: int, e: int, w: nat)
    requires IsFixedDigit(d, w) && Pow2(w) % 2 == 0
    requires (d < 0 && e == d + Pow2(w)) || (d > 0 && e == d - Pow2(w))
    ensures IsFixedDigit(e, w)
  {
  }

  function Folded(ds: seq<int>, pos: nat, w: nat): seq<int>
    requires 3 <= pos <= |ds|
  {
    ds[pos - 3 := if ds[pos - 2] == 1 then ds[pos - 3] + Pow2(w) else ds[pos - 3] - Pow2(w)][pos - 2 := 0]
  }

  lemma FoldValue(ds: seq<int>, k: nat, w: nat)
    requires k + 1 < |ds| && (ds[k + 1] == 1 || ds[k + 1] == -1)
    ensures Value(ds[k := if ds[k + 1] == 1 then ds[k] + Pow2(w) else ds[k] - Pow2(w)][k + 1 := 0], w) == Value(ds, w)
  {
    hide Value, Pow2;
    if ds[k + 1] == 1 {
      ValueCarry(ds, k, -1, w);
      assert -1 * Pow2(w) == -Pow2(w);
    } else {
      ValueCarry(ds, k, 1, w);
    }
  }

  /** `secp256k1_wnaf_fixed`: writes the digits of s to the region of `wnaf` that starts at
  `base` and returns the skew. */
  method WnafFixed(wnaf: array<int>, base: nat, s: nat, w: nat) returns (skew: int)
    requires 1 <= w <= 31 && s < N
    requires base + SizeBits(WNAF_BITS, w) <= wnaf.Length
    modifies wnaf
    ensures Value(wnaf[base..base + SizeBits(WNAF_BITS, w)], w) - skew == s
    ensures AreFixedDigits(wnaf[base..base + SizeBits(WNAF_BITS, w)], w)
    ensures skew == 0 || skew == 1
    ensures forall j :: 0 <= j < base || base + SizeBits(WNAF_BITS, w) <= j < wnaf.Length ==> wnaf[j] == old(wnaf[j])
  {
    hide Value, Pow2, Low, Field, FixedSoFar, SizeBits, Window, Stepped;
    var size := SizeBits(WNAF_BITS, w);
    SizeBitsBounds(WNAF_BITS, w);
    Pow2Values();
    skew := 0;
    if s == 0 {
      for pos := 0 to size
        invariant forall j :: base <= j < base + pos ==> wnaf[j] == 0
        invariant forall j :: 0 <= j < base || base + size <= j < wnaf.Length ==> wnaf[j] == old(wnaf[j])
      {
        wnaf[base + pos] := 0;
      }
      AllZero(wnaf[base..base + size], w);
      return;
    }
    if s % 2 == 0 {
      skew := 1;
    }
    wnaf[base] := Window(s, 0, w) + skew;
    var pos := size - 1;
    Pow2Monotone(WNAF_BITS, w * size);
    while pos > 0
      invariant 0 <= pos < size
      invariant s < Pow2(w * (pos + 1))
      invariant wnaf[base] == Window(s, 0, w) + skew
      invariant forall j :: base + pos < j < base + size ==> wnaf[j] == 0
      invariant forall j :: 0 <= j < base || base + size <= j < wnaf.Length ==> wnaf[j] == old(wnaf[j])
    {
      WindowIsField(s, pos, w);
      if Window(s, pos, w) != 0 {
        break;
      }
      DropWindow(s, pos, w);
      wnaf[base + pos] := 0;
      pos := pos - 1;
    }
    var max := pos;
    FirstWindow(wnaf[base..base + size], s, skew, w);
    pos := 1;
    while pos <= max
      invariant 1 <= pos <= max + 1 <= size
      invariant FixedSoFar(wnaf[base..base + size], s, skew, pos, w)
      invariant forall j :: base + max < j < base + size ==> wnaf[j] == 0
      invariant forall j :: 0 <= j < base || base + size <= j < wnaf.Length ==> wnaf[j] == old(wnaf[j])
    {
      FixedNext(wnaf[base..base + size], s, skew, pos, w);
      WindowIsField(s, pos, w);
      FixedStep(wnaf, base, size, pos, Window(s, pos, w), w);
      pos := pos + 1;
    }
    assert pos == max + 1;
    FixedDone(wnaf[base..base + size], s, skew, pos, w);
  }

  /** The digits after the window `val` is written at position pos. */
  function Written(ds: seq<int>, pos: nat, val: nat, w: nat): (r: seq<int>)
    requires 1 <= pos < |ds|
    ensures |r| == |ds|
  {
    if val % 2 == 0 then ds[pos - 1 := ds[pos - 1] - Pow2(w)][pos := val + 1] else ds[pos := val]
  }

  /** A digit below the newest one that can be folded away. */
  predicate Foldable(ds: seq<int>, pos: nat)
    requires pos < |ds|
  {
    pos >= 2 && ((ds[pos - 1] == 1 && ds[pos - 2] < 0) || (ds[pos - 1] == -1 && ds[pos - 2] > 0))
  }

  function Stepped(ds: seq<int>, pos: nat, val: nat, w: nat): (r: seq<int>)
    requires 1 <= pos < |ds|
    ensures |r| == |ds|
  {
    var next := Written(ds, pos, val, w);
    if Foldable(next, pos) then Folded(next, pos + 1, w) else next
  }

  lemma FixedNext(ds: seq<int>, s: nat, skew: int, pos: nat, w: nat)
    requires w >= 1 && pos < |ds| && FixedSoFar(ds, s, skew, pos, w)
    ensures 1 <= pos && FixedSoFar(Stepped(ds, pos, Field(s, w, pos), w), s, skew, pos + 1, w)
  {
    var next := Written(ds, pos, Field(s, w, pos), w);
    FixedWindow(ds, s, skew, pos, w);
    if Foldable(next, pos) {
      FixedFold(next, s, skew, pos + 1, w);
    }
  }

  /** One round of the main loop of `secp256k1_wnaf_fixed`. */
  method FixedStep(wnaf: array<int>, base: nat, size: nat, pos: nat, val: nat, w: nat)
    requires 1 <= pos < size && base + size <= wnaf.Length
    modifies wnaf
    ensures wnaf[base..base + size] == Stepped(old(wnaf[base..base + size]), pos, val, w)
    ensures forall j :: 0 <= j < base || base + pos < j < wnaf.Length ==> wnaf[j] == old(wnaf[j])
  {
    hide Pow2, Written, Folded;
    WriteWindow(wnaf, base, size, pos, val, w);
    ghost var next := wnaf[base..base + size];
    var top := base + pos;
    assert wnaf[top - 1] == next[pos - 1] && (pos >= 2 ==> wnaf[top - 2] == next[pos - 2]);
    if pos >= 2 && ((wnaf[top - 1] == 1 && wnaf[top - 2] < 0) || (wnaf[top - 1] == -1 && wnaf[top - 2] > 0)) {
      FoldBelow(wnaf, base, size, pos, w);
    }
  }

  method WriteWindow(wnaf: array<int>, base: nat, size: nat, pos: nat, val: nat, w: nat)
    requires 1 <= pos < size && base + size <= wnaf.Length
    modifies wnaf
    ensures wnaf[base..base + size] == Written(old(wnaf[base..base + size]), pos, val, w)
    ensures forall j :: 0 <= j < base || base + pos < j < wnaf.Length ==> wnaf[j] == old(wnaf[j])
  {
    hide Pow2;
    if val % 2 == 0 {
      wnaf[base + pos - 1] := wnaf[base + pos - 1] - Pow2(w);
      wnaf[base + pos] := val + 1;
    } else {
      wnaf[base + pos] := val;
    }
  }

  method FoldBelow(wnaf: array<int>, base: nat, size: nat, pos: nat, w: nat)
    requires 2 <= pos < size && base + size <= wnaf.Length
    modifies wnaf
    ensures wnaf[base..base + size] == Folded(old(wnaf[base..base + size]), pos + 1, w)
    ensures forall j :: 0 <= j < base || base + pos < j < wnaf.Length ==> wnaf[j] == old(wnaf[j])
  {
    hide Pow2;
    var top := base + pos;
    if wnaf[top - 1] == 1 {
      wnaf[top - 2] := wnaf[top - 2] + Pow2(w);
    } else {
      wnaf[top - 2] := wnaf[top - 2] - Pow2(w);
    }
    wnaf[top - 1] := 0;
  }

  lemma AllZero(ds: seq<int>, w: nat)
    requires forall j :: 0 <= j < |ds| ==> ds[j] == 0
    ensures Value(ds, w) == 0 && AreFixedDigits(ds, w)
  {
    ValueZeros(ds, 0, |ds|, w);
    assert ds[..|ds|] == ds;
  }

  lemma FirstWindow(ds: seq<int>, s: nat, skew: int, w: nat)
    requires 1 <= w && 0 < s < Pow2(WNAF_BITS) && skew == (if s % 2 == 0 then 1 else 0)
    requires 0 < SizeBits(WNAF_BITS, w) && |ds| > 0 && ds[0] == Window(s, 0, w) + skew
    ensures FixedSoFar(ds, s, skew, 1, w)
  {
    hide Window, Pow2, Value, Low, Field;
    WindowIsField(s, 0, w);
    Pow2Even(w);
    FirstField(s, w);
    assert ds[..1] == [ds[0]];
    OneDigit(ds[0], w);
    RemainderParity(s, Pow2(w));
  }

  lemma OneDigit(d: int, w: nat)
    ensures Value([d], w) == d
    ensures IsFixedDigit(d, w) ==> AreFixedDigits([d], w)
  {
    assert Value([d], w) == d + Pow2(w) * Value([d][1..], w);
  }

  lemma FirstField(s: nat, w: nat)
    ensures Low(s, w, 1) == s % Pow2(w) && Field(s, w, 0) == s % Pow2(w)
  {
    assert w * 0 == 0 && w * 1 == w && Pow2(0) == 1;
  }

  lemma RemainderParity(s: nat, p: int)
    requires p > 0 && p % 2 == 0
    ensures (s % p) % 2 == s % 2 && 0 <= s % p < p
  {
    ModSplit(s, 2, p / 2);
    DivModUnique(s % p, 2, (s / 2) % (p / 2), s % 2);
  }

  lemma FixedDone(ds: seq<int>, s: nat, skew: int, pos: nat, w: nat)
    requires FixedSoFar(ds, s, skew, pos, w) && s < Pow2(w * pos)
    requires forall j :: pos <= j < |ds| ==> ds[j] == 0
    ensures Value(ds, w) - skew == s && AreFixedDigits(ds, w)
  {
    ValueZeros(ds, pos, |ds|, w);
    assert ds[..|ds|] == ds;
    DivModUnique(s, Pow2(w * pos), 0, s);
    assert forall j :: 0 <= j < |ds| ==> IsFixedDigit(if j < pos then ds[..pos][j] else ds[j], w);
  }
}
