/** DER encoding of signatures (ecdsa_impl.h). */
module Der {
  import opened Numbers
  import opened FieldBytes
  import opened Scalar8x32
  import ScalarBits
  import opened Wrappers
  import ScalarOps

  /** A `size_t` has 64 bits. */
  const SIZE_MOD: nat := 0x1_0000_0000_0000_0000
  const INT_LIMIT: nat := 0x8000_0000

  /** A `size_t` returned as an `int`. */
  function AsInt(n: nat): (i: int)
    ensures n < INT_LIMIT ==> i == n
    ensures n >= INT_LIMIT ==> i < n
  {
    var w := n % 0x1_0000_0000;
    if w < INT_LIMIT then w else w - 0x1_0000_0000
  }

  // --- Definite lengths (section 8.1.3 of X.690, with the shortest form as DER asks)

  /** The digits of a number to base 256, most significant first, without leading zeros. */
  function Octets(n: nat): (s: seq<nat>) {
    if n == 0 then [] else Octets(n / 256) + [n % 256]
  }

  function LengthOctets(n: nat): (s: seq<nat>) {
    if n < 128 then [n] else [128 + |Octets(n)|] + Octets(n)
  }

  lemma {:induction false} OctetsValue(n: nat)
    ensures AreBytes(Octets(n)) && BigEndian(Octets(n)) == n
    ensures n > 0 ==> |Octets(n)| >= 1 && Octets(n)[0] > 0
  {
    if n > 0 {
      OctetsValue(n / 256);
      OneMoreOctet(Octets(n / 256), n % 256);
    }
  }

  lemma OneMoreOctet(s: seq<nat>, d: nat)
    requires AreBytes(s) && d < 256
    ensures AreBytes(s + [d]) && BigEndian(s + [d]) == BigEndian(s) * 256 + d
  {
    assert (s + [d])[..|s|] == s;
  }

  lemma {:induction false} OctetsUnique(s: seq<nat>)
    requires AreBytes(s) && (s == [] || s[0] > 0)
    ensures Octets(BigEndian(s)) == s
  {
    if s != [] {
      var h := |s| - 1;
      var v := BigEndian(s[..h]);
      OctetsUnique(s[..h]);
      LastDigit(v, s[h]);
      if h > 0 {
        assert s[..h][0] > 0;
        PositiveDigits(s[..h]);
      }
      assert s == s[..h] + [s[h]];
    }
  }

  lemma LastDigit(v: nat, d: nat)
    requires d < 256
    ensures (v * 256 + d) / 256 == v && (v * 256 + d) % 256 == d
  {}

  lemma {:induction false} PositiveDigits(s: seq<nat>)
    requires s != [] && s[0] > 0
    ensures BigEndian(s) > 0
  {
    if |s| > 1 {
      PositiveDigits(s[..|s| - 1]);
    }
  }

  /** Every leading part of a number is at most the number divided by the places left. */
  lemma {:induction false} LeadingPart(s: seq<nat>, k: nat)
    requires k <= |s|
    ensures BigEndian(s[..k]) <= BigEndian(s)
    decreases |s|
  {
    if k < |s| {
      LeadingPart(s[..|s| - 1], k);
      assert s[..|s| - 1][..k] == s[..k];
    } else {
      assert s[..k] == s;
    }
  }

  /** A number written in k places without a leading zero is at least 256^(k-1). */
  lemma {:induction false} LongNumber(s: seq<nat>)
    requires s != [] && s[0] > 0
    ensures BigEndian(s) >= Pow2(8 * (|s| - 1))
  {
    if |s| > 1 {
      LongNumber(s[..|s| - 1]);
      Pow2Add(8 * (|s| - 2), 8);
      assert Pow2(8) == 256 by { Pow2Values(); }
    }
  }

  lemma LongOctets(n: nat, s: seq<nat>)
    requires s != [] && s[0] >= 128 && LengthOctets(n) <= s
    ensures n >= 128 && |Octets(n)| >= 1 && LengthOctets(n) == [128 + |Octets(n)|] + Octets(n)
  {
    OctetsValue(n);
  }

  /** What a long form at this place must look like. */
  lemma LongForm(data: seq<nat>, pos: nat, n: nat)
    requires AreBytes(data) && pos < |data| && data[pos] >= 128
    requires LengthOctets(n) <= data[pos..]
    ensures
      var k := data[pos] - 128;
      && n >= 128 && k >= 1 && pos + 1 + k <= |data| && data[pos + 1] > 0
      && data[pos + 1..pos + 1 + k] == Octets(n) && BigEndian(data[pos + 1..pos + 1 + k]) == n
      && |LengthOctets(n)| == k + 1 && n >= Pow2(8 * (k - 1))
  {
    hide BigEndian, Octets, LengthOctets, Pow2;
    LongOctets(n, data[pos..]);
    OctetsValue(n);
    var k := |Octets(n)|;
    assert data[pos..][..k + 1] == LengthOctets(n);
    assert data[pos + 1..pos + 1 + k] == LengthOctets(n)[1..] == Octets(n);
    LongNumber(Octets(n));
  }

  lemma ShortForm(data: seq<nat>, pos: nat)
    requires pos < |data| && data[pos] < 128
    ensures LengthOctets(data[pos]) == data[pos..pos + 1]
  {}

  /** No length in shortest form starts here that leaves room for so much content. */
  ghost predicate NoLength(data: seq<nat>, pos: nat)
    requires pos <= |data|
  {
    forall n {:trigger LengthOctets(n)} :: 0 <= n && LengthOctets(n) <= data[pos..] ==>
      pos + |LengthOctets(n)| + n > |data|
  }

  lemma ManyOctets(data: seq<nat>, pos: nat)
    requires AreBytes(data) && pos < |data| < SIZE_MOD && data[pos] >= 128 + 9
    ensures NoLength(data, pos)
  {
    hide LengthOctets;
    forall n {:trigger LengthOctets(n)} | 0 <= n && LengthOctets(n) <= data[pos..]
      ensures pos + |LengthOctets(n)| + n > |data|
    {
      LongForm(data, pos, n);
      Pow2Monotone(64, 8 * (data[pos] - 129));
      Pow2Values();
    }
  }

  lemma BadLongForm(data: seq<nat>, pos: nat)
    requires AreBytes(data) && pos < |data| && data[pos] >= 128
    requires
      var k := data[pos] - 128;
      k == 0 || pos + 1 + k > |data| || data[pos + 1] == 0 || BigEndian(data[pos + 1..pos + 1 + k]) < 128
    ensures NoLength(data, pos)
  {
    hide LengthOctets, BigEndian;
    forall n {:trigger LengthOctets(n)} | 0 <= n
      ensures !(LengthOctets(n) <= data[pos..])
    {
      if LengthOctets(n) <= data[pos..] {
        LongForm(data, pos, n);
        assert false;
      }
    }
  }

  lemma TooLong(data: seq<nat>, pos: nat, j: nat)
    requires AreBytes(data) && pos < |data| && data[pos] >= 128
    requires
      var k := data[pos] - 128;
      j <= k && pos + 1 + k <= |data| && pos + 1 + k + BigEndian(data[pos + 1..pos + 1 + j]) > |data|
    ensures NoLength(data, pos)
  {
    hide LengthOctets, BigEndian;
    var k := data[pos] - 128;
    forall n {:trigger LengthOctets(n)} | 0 <= n && LengthOctets(n) <= data[pos..]
      ensures pos + |LengthOctets(n)| + n > |data|
    {
      LongForm(data, pos, n);
      LeadingPart(data[pos + 1..pos + 1 + k], j);
      assert data[pos + 1..pos + 1 + k][..j] == data[pos + 1..pos + 1 + j];
    }
  }

  lemma GoodLongForm(data: seq<nat>, pos: nat, n: nat)
    requires AreBytes(data) && pos < |data| && data[pos] >= 128 && n >= 128
    requires
      var k := data[pos] - 128;
      && k >= 1 && pos + 1 + k <= |data| && data[pos + 1] > 0
      && n == BigEndian(data[pos + 1..pos + 1 + k])
    ensures LengthOctets(n) == data[pos..pos + 1 + (data[pos] - 128)]
  {
    hide BigEndian, Octets;
    var k := data[pos] - 128;
    OctetsUnique(data[pos + 1..pos + 1 + k]);
    assert data[pos..pos + 1 + k] == [data[pos]] + data[pos + 1..pos + 1 + k];
  }

  /** So many bytes are a number below the power of two. */
  lemma {:induction false} BelowPower(s: seq<nat>)
    requires AreBytes(s)
    ensures BigEndian(s) < Pow2(8 * |s|)
  {
    if s != [] {
      var h := |s| - 1;
      BelowPower(s[..h]);
      hide Pow2;
      Pow2Add(8 * h, 8);
      Pow2Values();
    }
  }

  /** `secp256k1_der_read_len`, by position: the length and the place behind it, or -1. The
  length `full` that was read is returned as an `int`. */
  method ReadLen(data: seq<nat>, pos: nat) returns (len: int, next: nat, ghost full: Option<nat>)
    requires AreBytes(data) && pos <= |data| < SIZE_MOD
    ensures pos <= next <= |data|
    ensures full.None? ==> len == -1 && NoLength(data, pos)
    ensures full.Some? ==> len == AsInt(full.value) && data[pos..next] == LengthOctets(full.value)
    ensures full.Some? ==> full.value < 128 || next + full.value <= |data|
  {
    hide BigEndian, LengthOctets, Pow2, AsInt;
    full := None;
    next := pos;
    if pos >= |data| {
      NothingThere(data);
      return -1, next, full;
    }
    var b1 := data[next];
    next := next + 1;
    if b1 == 0xFF {
      ManyOctets(data, pos);
      return -1, next, full;
    }
    if b1 < 0x80 {
      ShortForm(data, pos);
      return b1, next, Some(b1);
    }
    if b1 == 0x80 {
      BadLongForm(data, pos);
      return -1, next, full;
    }
    var lenleft := b1 % 0x80;
    if lenleft > |data| - next {
      BadLongForm(data, pos);
      return -1, next, full;
    }
    if data[next] == 0 {
      BadLongForm(data, pos);
      return -1, next, full;
    }
    if lenleft > 8 {
      ManyOctets(data, pos);
      return -1, next, full;
    }
    var ret := 0;
    assert data[pos + 1..next] == [];
    EmptyValue();
    while lenleft > 0
      invariant 0 <= lenleft && next + lenleft == pos + 1 + (data[pos] - 128) <= |data| && pos + 1 <= next
      invariant ret == BigEndian(data[pos + 1..next]) < SIZE_MOD
      invariant next > pos + 1 ==> ret + lenleft <= |data| - next || (ret == SIZE_MOD - 1 && lenleft == 0)
    {
      OneMoreByte(data, pos + 1, next, lenleft - 1);
      ret := ret * 256 % SIZE_MOD + data[next];
      if (ret + lenleft) % SIZE_MOD > |data| - next {
        TooLong(data, pos, next - pos);
        return -1, next, full;
      }
      next := next + 1;
      lenleft := lenleft - 1;
    }
    if ret < 128 {
      BadLongForm(data, pos);
      return -1, next, full;
    }
    if ret == SIZE_MOD - 1 {
      TooLong(data, pos, next - pos - 1);
      assert AsInt(SIZE_MOD - 1) == -1 by { LargestSize(); }
    } else {
      GoodLongForm(data, pos, ret);
      full := Some(ret);
    }
    len := AsInt(ret);
  }

  lemma OneMoreByte(data: seq<nat>, from: nat, next: nat, more: nat)
    requires AreBytes(data) && from <= next < |data| && next - from + 1 + more <= 8
    ensures var v := BigEndian(data[from..next + 1]);
            && v == BigEndian(data[from..next]) * 256 % SIZE_MOD + data[next] && v < SIZE_MOD
            && (more > 0 ==> v < 0x100_0000_0000_0000)
  {
    NextByte(data[from..], next - from);
    assert data[from..][..next - from] == data[from..next] && data[from..][..next - from + 1] == data[from..next + 1];
    FewBytes(data[from..next + 1], more);
    hide BigEndian;
    var u := BigEndian(data[from..next]);
    DivModUnique(u * 256, SIZE_MOD, 0, u * 256);
  }

  lemma LargestSize()
    ensures AsInt(SIZE_MOD - 1) == -1
  {}

  /** Up to eight bytes fit a `size_t`; only with the last of them can it be nearly full. */
  lemma FewBytes(s: seq<nat>, more: nat)
    requires AreBytes(s) && |s| + more <= 8
    ensures BigEndian(s) < SIZE_MOD
    ensures more > 0 ==> BigEndian(s) < 0x100_0000_0000_0000
  {
    hide BigEndian, Pow2;
    BelowPower(s);
    Pow2Values();
    Pow2Monotone(8 * |s|, 64);
    Pow2Add(56, 8);
    if more > 0 { Pow2Monotone(8 * |s|, 56); }
  }

  lemma EmptyValue()
    ensures BigEndian([]) == 0
  {}

  lemma NothingThere(data: seq<nat>)
    ensures NoLength(data, |data|)
  {
    forall n {:trigger LengthOctets(n)} | 0 <= n && LengthOctets(n) <= data[|data|..]
      ensures |data| + |LengthOctets(n)| + n > |data|
    {
      assert data[|data|..] == [];
    }
  }

  // --- Integers (section 8.3 of X.690)

  /** The first nine bits of the content are not all alike. */
  predicate Shortest(c: seq<nat>) {
    && !(|c| > 1 && c[0] == 0x00 && c[1] < 0x80)
    && !(|c| > 1 && c[0] == 0xFF && c[1] >= 0x80)
  }

  function Integer(c: seq<nat>): (t: seq<nat>) {
    [0x02] + LengthOctets(|c|) + c
  }

  /** The bytes from pos to next are an integer with this content. */
  ghost predicate IsInteger(data: seq<nat>, pos: nat, next: nat, c: seq<nat>) {
    pos <= next <= |data| && c != [] && Shortest(c) && data[pos..next] == Integer(c)
  }

  /** What the parser makes of the content: zero when it is negative or too large. */
  function ScalarOf(c: seq<nat>): nat
    requires c != []
  {
    if Flagged(c) then 0 else BigEndian(c)
  }

  predicate Flagged(c: seq<nat>)
    requires c != []
  {
    c[0] >= 0x80 || BigEndian(c) >= N
  }

  /** A place has at most one length. */
  lemma LengthUnique(data: seq<nat>, pos: nat, m: nat, n: nat)
    requires AreBytes(data) && pos <= |data|
    requires LengthOctets(m) <= data[pos..] && LengthOctets(n) <= data[pos..]
    ensures m == n
  {
    assert data[pos..][0] == LengthOctets(m)[0] == LengthOctets(n)[0];
    if data[pos] >= 128 {
      LongForm(data, pos, m);
      LongForm(data, pos, n);
    }
  }

  lemma IntegerParts(data: seq<nat>, pos: nat, next: nat, c: seq<nat>)
    requires IsInteger(data, pos, next, c)
    ensures
      var k := |LengthOctets(|c|)|;
      && pos < |data| && data[pos] == 0x02 && LengthOctets(|c|) <= data[pos + 1..]
      && next == pos + 1 + k + |c| <= |data| && c == data[pos + 1 + k..next] && c != [] && Shortest(c)
  {
    hide LengthOctets, Shortest;
    var t := data[pos..next];
    var k := |LengthOctets(|c|)|;
    assert t == [0x02] + LengthOctets(|c|) + c && |t| == 1 + k + |c|;
    assert t[0] == 0x02 && t[1..1 + k] == LengthOctets(|c|) && t[1 + k..] == c;
    assert forall i :: 0 <= i < |t| ==> t[i] == data[pos + i];
    assert data[pos + 1..][..k] == t[1..1 + k];
  }

  lemma IntegerUnique(data: seq<nat>, pos: nat, m: nat, c: seq<nat>, n: nat, d: seq<nat>)
    requires AreBytes(data)
    requires IsInteger(data, pos, m, c) && IsInteger(data, pos, n, d)
    ensures m == n && c == d
  {
    hide LengthOctets;
    IntegerParts(data, pos, m, c);
    IntegerParts(data, pos, n, d);
    LengthUnique(data, pos + 1, |c|, |d|);
  }

  /** There is no integer at this place. */
  ghost predicate NoInteger(data: seq<nat>, pos: nat) {
    forall n: nat, d {:trigger IsInteger(data, pos, n, d)} :: !IsInteger(data, pos, n, d)
  }

  lemma NoIntegerTag(data: seq<nat>, pos: nat)
    requires pos >= |data| || data[pos] != 0x02
    ensures NoInteger(data, pos)
  {
    hide IsInteger;
    forall n: nat, d {:trigger IsInteger(data, pos, n, d)} ensures !IsInteger(data, pos, n, d) {
      if IsInteger(data, pos, n, d) {
        IntegerParts(data, pos, n, d);
        assert false;
      }
    }
  }

  lemma NoIntegerLength(data: seq<nat>, pos: nat)
    requires pos < |data| && NoLength(data, pos + 1)
    ensures NoInteger(data, pos)
  {
    hide IsInteger, LengthOctets;
    forall n: nat, d {:trigger IsInteger(data, pos, n, d)} ensures !IsInteger(data, pos, n, d) {
      if IsInteger(data, pos, n, d) {
        IntegerParts(data, pos, n, d);
        assert false;
      }
    }
  }

  /** The content must be there, not be empty and be in its shortest form. */
  lemma NoIntegerContent(data: seq<nat>, pos: nat, m: nat, from: nat)
    requires AreBytes(data) && pos < from <= |data| && data[pos + 1..from] == LengthOctets(m)
    requires m == 0 || from + m > |data| || !Shortest(data[from..from + m])
    ensures NoInteger(data, pos)
  {
    hide IsInteger, LengthOctets, Shortest;
    assert LengthOctets(m) <= data[pos + 1..];
    forall n: nat, d {:trigger IsInteger(data, pos, n, d)} ensures !IsInteger(data, pos, n, d) {
      if IsInteger(data, pos, n, d) {
        IntegerParts(data, pos, n, d);
        LengthUnique(data, pos + 1, m, |d|);
        assert false;
      }
    }
  }

  lemma {:induction false} LeadingZeros(z: seq<nat>, s: seq<nat>)
    requires forall i :: 0 <= i < |z| ==> z[i] == 0
    ensures BigEndian(z + s) == BigEndian(s)
    decreases |s|, |z|
  {
    if s != [] {
      var h := |s| - 1;
      assert (z + s)[..|z| + h] == z + s[..h];
      LeadingZeros(z, s[..h]);
    } else if z != [] {
      assert z + s == z && z[..|z| - 1] + s == z[..|z| - 1];
      LeadingZeros(z[..|z| - 1], s);
    }
  }

  const ZERO: Scalar := Scalar(0, 0, 0, 0, 0, 0, 0, 0)

  /** The number that is left when leading zeros are skipped, read as 32 bytes. */
  method ReadValue(c: seq<nat>) returns (r: Scalar, overflow: bool)
    requires AreBytes(c) && |c| <= 32
    ensures overflow <==> BigEndian(c) >= N
    ensures !overflow ==> Value(r) == BigEndian(c)
  {
    hide BigEndian, Value;
    var zeros := seq(32 - |c|, i => 0);
    var ra := zeros + c;
    LeadingZeros(zeros, c);
    r, overflow := ScalarBits.SetB32(ra);
    SmallMod(BigEndian(c));
  }

  lemma SmallMod(v: nat)
    ensures v < N ==> v % N == v
  {}

  lemma LongIsLarge(c: seq<nat>)
    requires |c| > 32 && c[0] > 0
    ensures BigEndian(c) >= N
  {
    hide BigEndian;
    LongNumber(c);
    Pow2Monotone(256, 8 * (|c| - 1));
    Pow2Values();
  }

  lemma FoundInteger(data: seq<nat>, pos: nat, from: nat, next: nat, c: seq<nat>)
    requires pos < from < next <= |data| && data[pos] == 0x02 && c == data[from..next]
    requires data[pos + 1..from] == LengthOctets(|c|) && Shortest(c)
    ensures IsInteger(data, pos, next, c)
  {
    hide LengthOctets, Shortest;
    assert data[pos..next] == [0x02] + data[pos + 1..from] + c;
  }

  lemma IntegerEnds(data: seq<nat>, pos: nat, next: nat, c: seq<nat>)
    requires IsInteger(data, pos, next, c)
    ensures pos <= next <= |data|
  {}

  /** `secp256k1_der_parse_integer`, by position; c is the content. Its caller has seen to it
  that what is left of the input has a length that is an `int`. */
  method ParseInteger(data: seq<nat>, pos: nat) returns (ok: bool, r: Scalar, next: nat, ghost c: seq<nat>)
    requires AreBytes(data) && pos <= |data| < SIZE_MOD && |data| - pos < INT_LIMIT
    ensures ok ==> IsInteger(data, pos, next, c) && Value(r) == ScalarOf(c)
    ensures !ok ==> NoInteger(data, pos)
  {
    hide LengthOctets, BigEndian, Value, NoLength, NoInteger, IsInteger;
    r, next, c := ZERO, pos, [];
    if pos == |data| || data[pos] != 0x02 {
      NoIntegerTag(data, pos);
      return false, r, next, c;
    }
    var rlen, p;
    ghost var full;
    rlen, p, full := ReadLen(data, pos + 1);
    if rlen < 0 {
      NoIntegerLength(data, pos);
      return false, r, next, c;
    }
    if rlen == 0 || p + rlen > |data| {
      NoIntegerContent(data, pos, rlen, p);
      return false, r, next, c;
    }
    var content := data[p..p + rlen];
    assert AreBytes(content) && content != [];
    c := content;
    if data[p] == 0x00 && rlen > 1 && data[p + 1] < 0x80 {
      NoIntegerContent(data, pos, rlen, p);
      return false, r, next, c;
    }
    if data[p] == 0xFF && rlen > 1 && data[p + 1] >= 0x80 {
      NoIntegerContent(data, pos, rlen, p);
      return false, r, next, c;
    }
    next := p + rlen;
    FoundInteger(data, pos, p, next, c);
    r := IntegerScalar(content);
    ok := true;
  }

  /** The second half of the integer parser: from the content to the scalar. */
  method IntegerScalar(c: seq<nat>) returns (r: Scalar)
    requires AreBytes(c) && c != []
    ensures Value(r) == ScalarOf(c)
  {
    hide BigEndian, Value;
    var overflow := c[0] >= 0x80;
    var p := 0;
    while p < |c| && c[p] == 0
      invariant p <= |c| && forall i :: 0 <= i < p ==> c[i] == 0
    {
      p := p + 1;
    }
    LeadingZeros(c[..p], c[p..]);
    assert c[..p] + c[p..] == c;
    if |c| - p > 32 {
      LongIsLarge(c[p..]);
      overflow := true;
    }
    r := ZERO;
    if !overflow {
      r, overflow := ReadValue(c[p..]);
    }
    if overflow {
      r := ZERO;
    }
    ZeroValue();
  }

  lemma ZeroValue()
    ensures Value(ZERO) == 0
  {}

  // --- Signatures

  /** The encoding of a pair of integers with these contents. */
  function Sequence(c: seq<nat>, d: seq<nat>): seq<nat> {
    var body := Integer(c) + Integer(d);
    [0x30] + LengthOctets(|body|) + body
  }

  ghost predicate IsSignature(sig: seq<nat>, c: seq<nat>, d: seq<nat>) {
    c != [] && d != [] && Shortest(c) && Shortest(d) && sig == Sequence(c, d)
  }

  ghost predicate NoSignature(sig: seq<nat>) {
    forall c, d {:trigger IsSignature(sig, c, d)} :: !IsSignature(sig, c, d)
  }

  /** The length of the two integers is an `int`. */
  ghost predicate IsShort(c: seq<nat>, d: seq<nat>) {
    |Integer(c)| + |Integer(d)| < INT_LIMIT
  }

  /** No signature of which the parser can tell the length. */
  ghost predicate NoShortSignature(sig: seq<nat>) {
    forall c, d {:trigger IsSignature(sig, c, d)} :: IsSignature(sig, c, d) ==> !IsShort(c, d)
  }

  lemma SignatureParts(sig: seq<nat>, c: seq<nat>, d: seq<nat>)
    requires IsSignature(sig, c, d)
    ensures
      var n := |Integer(c)| + |Integer(d)|;
      var k := 1 + |LengthOctets(n)|;
      && sig != [] && sig[0] == 0x30 && LengthOctets(n) <= sig[1..] && k + n == |sig|
      && IsInteger(sig, k, k + |Integer(c)|, c) && IsInteger(sig, k + |Integer(c)|, |sig|, d)
  {
    hide LengthOctets, Shortest, Integer;
    var n := |Integer(c)| + |Integer(d)|;
    var k := 1 + |LengthOctets(n)|;
    assert sig[1..][..k - 1] == LengthOctets(n);
    assert sig[k..k + |Integer(c)|] == Integer(c) && sig[k + |Integer(c)|..] == Integer(d);
  }

  /** `secp256k1_ecdsa_sig_parse`: exactly the signatures are accepted whose length is an `int`,
  with the right numbers. */
  method Parse(sig: seq<nat>) returns (ok: bool, rr: Scalar, rs: Scalar, ghost c: seq<nat>, ghost d: seq<nat>)
    requires AreBytes(sig) && |sig| < SIZE_MOD
    ensures ok ==> IsSignature(sig, c, d) && IsShort(c, d) && Value(rr) == ScalarOf(c) && Value(rs) == ScalarOf(d)
    ensures !ok ==> NoShortSignature(sig)
  {
    hide LengthOctets, NoLength, NoInteger, IsInteger, NoSignature, IsSignature, IsShort, Value, ScalarOf, AsInt;
    rr, rs, c, d := ZERO, ZERO, [], [];
    if |sig| == 0 || sig[0] != 0x30 {
      NoSignatureHead(sig);
      NoneIsShort(sig);
      return false, rr, rs, c, d;
    }
    var rlen, pos;
    ghost var full;
    rlen, pos, full := ReadLen(sig, 1);
    if rlen < 0 || pos + rlen > |sig| {
      NoBody(sig, rlen, pos, full);
      return false, rr, rs, c, d;
    }
    if pos + rlen != |sig| {
      NoBody(sig, rlen, pos, full);
      return false, rr, rs, c, d;
    }
    var middle, end;
    ok, rr, middle, c := ParseInteger(sig, pos);
    if !ok {
      NoFirstInteger(sig, rlen, pos);
      NoneIsShort(sig);
      return false, rr, rs, c, d;
    }
    IntegerEnds(sig, pos, middle, c);
    ok, rs, end, d := ParseInteger(sig, middle);
    if !ok {
      NoSecondInteger(sig, rlen, pos, middle, c);
      NoneIsShort(sig);
      return false, rr, rs, c, d;
    }
    if end != |sig| {
      NoEnd(sig, rlen, pos, middle, c, end, d);
      NoneIsShort(sig);
      return false, rr, rs, c, d;
    }
    Assembled(sig, rlen, pos, middle, c, d);
    BodyOf(sig, rlen, pos, c, d);
    ShortBody(c, d, rlen);
  }

  lemma NoneIsShort(sig: seq<nat>)
    requires NoSignature(sig)
    ensures NoShortSignature(sig)
  {
    hide IsSignature, IsShort;
  }

  lemma ShortBody(c: seq<nat>, d: seq<nat>, n: nat)
    requires n == |Integer(c)| + |Integer(d)| < INT_LIMIT
    ensures IsShort(c, d)
  {}

  /** Without a length, or with one that is not what is left of the input, there is no short signature. */
  lemma NoBody(sig: seq<nat>, rlen: int, pos: nat, full: Option<nat>)
    requires AreBytes(sig) && sig != [] && 1 <= pos <= |sig|
    requires full.None? ==> NoLength(sig, 1)
    requires full.Some? ==> rlen == AsInt(full.value) && sig[1..pos] == LengthOctets(full.value)
    requires rlen < 0 || pos + rlen != |sig|
    ensures NoShortSignature(sig)
  {
    hide IsSignature, LengthOctets, IsInteger, NoLength, AsInt;
    match full
    case None =>
      NoSignatureLength(sig);
      NoneIsShort(sig);
    case Some(n) =>
      forall c, d {:trigger IsSignature(sig, c, d)} | IsSignature(sig, c, d) ensures !IsShort(c, d) {
        BodyOf(sig, n, pos, c, d);
      }
  }

  lemma NoSignatureHead(sig: seq<nat>)
    requires sig == [] || sig[0] != 0x30
    ensures NoSignature(sig)
  {
    hide IsSignature;
    forall c, d {:trigger IsSignature(sig, c, d)} ensures !IsSignature(sig, c, d) {
      if IsSignature(sig, c, d) {
        SignatureParts(sig, c, d);
        assert false;
      }
    }
  }

  lemma NoSignatureLength(sig: seq<nat>)
    requires sig != [] && NoLength(sig, 1)
    ensures NoSignature(sig)
  {
    hide IsSignature, LengthOctets;
    forall c, d {:trigger IsSignature(sig, c, d)} ensures !IsSignature(sig, c, d) {
      if IsSignature(sig, c, d) {
        SignatureParts(sig, c, d);
        assert false;
      }
    }
  }

  /** Where the body of a signature with this length octet starts and what it holds. */
  lemma BodyOf(sig: seq<nat>, n: nat, pos: nat, c: seq<nat>, d: seq<nat>)
    requires AreBytes(sig) && 1 <= pos <= |sig| && sig[1..pos] == LengthOctets(n)
    requires IsSignature(sig, c, d)
    ensures n == |Integer(c)| + |Integer(d)| && pos + n == |sig|
    ensures IsInteger(sig, pos, pos + |Integer(c)|, c) && IsInteger(sig, pos + |Integer(c)|, |sig|, d)
  {
    hide IsSignature, LengthOctets, IsInteger;
    SignatureParts(sig, c, d);
    assert LengthOctets(n) <= sig[1..];
    LengthUnique(sig, 1, n, |Integer(c)| + |Integer(d)|);
  }

  lemma NoFirstInteger(sig: seq<nat>, n: nat, pos: nat)
    requires AreBytes(sig) && 1 <= pos <= |sig| && sig[1..pos] == LengthOctets(n) && NoInteger(sig, pos)
    ensures NoSignature(sig)
  {
    hide IsSignature, LengthOctets, IsInteger;
    forall c, d {:trigger IsSignature(sig, c, d)} ensures !IsSignature(sig, c, d) {
      if IsSignature(sig, c, d) {
        BodyOf(sig, n, pos, c, d);
        assert false;
      }
    }
  }

  lemma NoSecondInteger(sig: seq<nat>, n: nat, pos: nat, middle: nat, c': seq<nat>)
    requires AreBytes(sig) && 1 <= pos <= |sig| && sig[1..pos] == LengthOctets(n)
    requires IsInteger(sig, pos, middle, c') && NoInteger(sig, middle)
    ensures NoSignature(sig)
  {
    hide IsSignature, LengthOctets, IsInteger;
    forall c, d {:trigger IsSignature(sig, c, d)} ensures !IsSignature(sig, c, d) {
      if IsSignature(sig, c, d) {
        BodyOf(sig, n, pos, c, d);
        IntegerUnique(sig, pos, middle, c', pos + |Integer(c)|, c);
        assert false;
      }
    }
  }

  lemma NoEnd(sig: seq<nat>, n: nat, pos: nat, middle: nat, c': seq<nat>, end: nat, d': seq<nat>)
    requires AreBytes(sig) && 1 <= pos <= |sig| && sig[1..pos] == LengthOctets(n)
    requires IsInteger(sig, pos, middle, c') && IsInteger(sig, middle, end, d') && end != |sig|
    ensures NoSignature(sig)
  {
    hide IsSignature, LengthOctets, IsInteger;
    forall c, d {:trigger IsSignature(sig, c, d)} ensures !IsSignature(sig, c, d) {
      if IsSignature(sig, c, d) {
        BodyOf(sig, n, pos, c, d);
        IntegerUnique(sig, pos, middle, c', pos + |Integer(c)|, c);
        IntegerUnique(sig, middle, end, d', |sig|, d);
        assert false;
      }
    }
  }

  lemma Assembled(sig: seq<nat>, n: nat, pos: nat, middle: nat, c: seq<nat>, d: seq<nat>)
    requires 1 <= pos <= |sig| && sig[0] == 0x30 && sig[1..pos] == LengthOctets(n) && pos + n == |sig|
    requires IsInteger(sig, pos, middle, c) && IsInteger(sig, middle, |sig|, d)
    ensures IsSignature(sig, c, d)
  {
    hide LengthOctets, Shortest, Integer;
    assert sig == [0x30] + sig[1..pos] + (sig[pos..middle] + sig[middle..]);
    assert sig[middle..] == sig[middle..|sig|];
  }

  lemma SignatureUnique(sig: seq<nat>, c: seq<nat>, d: seq<nat>, c': seq<nat>, d': seq<nat>)
    requires AreBytes(sig) && IsSignature(sig, c, d) && IsSignature(sig, c', d')
    ensures c == c' && d == d'
  {
    hide IsSignature, LengthOctets, IsInteger, Integer;
    SignatureParts(sig, c, d);
    var n := |Integer(c)| + |Integer(d)|;
    var pos := 1 + |LengthOctets(n)|;
    assert sig[1..pos] == sig[1..][..pos - 1];
    BodyOf(sig, n, pos, c', d');
    IntegerUnique(sig, pos, pos + |Integer(c)|, c, pos + |Integer(c')|, c');
    IntegerUnique(sig, pos + |Integer(c)|, |sig|, d, |sig|, d');
  }

  // --- Serialising

  /** The content octets of a number that is not negative. */
  function Minimal(v: nat): (c: seq<nat>) {
    var o := Octets(v);
    if v == 0 then [0] else if o[0] >= 0x80 then [0] + o else o
  }

  function Serialized(r: nat, s: nat): seq<nat> {
    Sequence(Minimal(r), Minimal(s))
  }

  lemma MinimalIsShortest(v: nat)
    ensures var c := Minimal(v); AreBytes(c) && c != [] && Shortest(c) && c[0] < 0x80 && BigEndian(c) == v
  {
    OctetsValue(v);
    if v > 0 && Octets(v)[0] >= 0x80 {
      LeadingZeros([0], Octets(v));
    }
  }

  lemma ShortestIsMinimal(c: seq<nat>)
    requires AreBytes(c) && c != [] && Shortest(c) && c[0] < 0x80
    ensures c == Minimal(BigEndian(c))
  {
    if c[0] > 0 {
      OctetsUnique(c);
      PositiveDigits(c);
    } else if |c| > 1 {
      LeadingZeros([0], c[1..]);
      assert c == [0] + c[1..];
      OctetsUnique(c[1..]);
      PositiveDigits(c[1..]);
    } else {
      assert BigEndian(c[..0]) == 0 && c == [0];
    }
  }

  /** A number below 2^256 has at most 33 content octets. */
  lemma MinimalIsShort(v: nat)
    requires v < Pow2(256)
    ensures |Minimal(v)| <= 33
  {
    OctetsValue(v);
    if v > 0 && |Octets(v)| > 32 {
      LongNumber(Octets(v));
      Pow2Monotone(256, 8 * (|Octets(v)| - 1));
    }
  }

  /** The loops of the serialiser: zeros dropped from the front as long as the sign bit stays clear. */
  method Shorten(b: seq<nat>) returns (c: seq<nat>)
    requires AreBytes(b) && |b| == 33 && b[0] == 0
    ensures c == Minimal(BigEndian(b))
  {
    hide BigEndian, Minimal;
    c := b;
    while |c| > 1 && c[0] == 0 && c[1] < 0x80
      invariant c != [] && c[0] < 0x80 && AreBytes(c) && BigEndian(c) == BigEndian(b)
      decreases |c|
    {
      LeadingZeros([0], c[1..]);
      assert c == [0] + c[1..];
      c := c[1..];
    }
    ShortestIsMinimal(c);
  }

  /** `secp256k1_ecdsa_sig_serialize`: the size is told even when there is not enough room. */
  method Serialize(ar: Scalar, as_: Scalar, room: nat) returns (ok: bool, size: nat, sig: seq<nat>)
    ensures size == |Serialized(Value(ar), Value(as_))| && ok == (size <= room)
    ensures ok ==> sig == Serialized(Value(ar), Value(as_))
  {
    hide Value, BigEndian, Minimal;
    var rb := ScalarBits.GetB32(ar);
    var sb := ScalarBits.GetB32(as_);
    LeadingZeros([0], rb);
    LeadingZeros([0], sb);
    var rp := Shorten([0] + rb);
    var sp := Shorten([0] + sb);
    ScalarRange(ar);
    ScalarRange(as_);
    MinimalIsShort(Value(ar));
    MinimalIsShort(Value(as_));
    size := 6 + |sp| + |rp|;
    assert size == |Serialized(Value(ar), Value(as_))|;
    if room < size {
      return false, size, [];
    }
    sig := [0x30, 4 + |sp| + |rp|, 0x02, |rp|] + rp + [0x02, |sp|] + sp;
    ok := true;
    assert sig == Serialized(Value(ar), Value(as_));
  }

  lemma ScalarRange(a: Scalar)
    ensures Value(a) < Pow2(256)
  {
    ScalarOps.ValueRange(a);
    Pow2Values();
  }

  // --- The encodings, octet by octet

  /** One octet below 128; otherwise their number with the top bit set, and the digits to base 256,
  the highest first and not zero. */
  lemma LengthMeans(n: nat)
    ensures n < 128 ==> LengthOctets(n) == [n]
    ensures n >= 128 ==>
      var o := LengthOctets(n);
      |o| >= 2 && o[0] == 128 + (|o| - 1) && o[1] > 0 && BigEndian(o[1..]) == n
  {
    OctetsValue(n);
    if n >= 128 {
      assert LengthOctets(n)[1..] == Octets(n);
    }
  }

  /** A sequence of two integers whose first nine bits are not all alike. */
  lemma SignatureMeans(sig: seq<nat>, c: seq<nat>, d: seq<nat>)
    ensures IsSignature(sig, c, d) <==>
      && c != [] && !(|c| > 1 && c[0] == 0x00 && c[1] < 0x80) && !(|c| > 1 && c[0] == 0xFF && c[1] >= 0x80)
      && d != [] && !(|d| > 1 && d[0] == 0x00 && d[1] < 0x80) && !(|d| > 1 && d[0] == 0xFF && d[1] >= 0x80)
      && var x, y := [0x02] + LengthOctets(|c|) + c, [0x02] + LengthOctets(|d|) + d;
         sig == [0x30] + LengthOctets(|x| + |y|) + x + y
  {
    hide LengthOctets;
    var x, y := [0x02] + LengthOctets(|c|) + c, [0x02] + LengthOctets(|d|) + d;
    assert [0x30] + LengthOctets(|x| + |y|) + x + y == [0x30] + LengthOctets(|x| + |y|) + (x + y);
  }

  /** Negative numbers, and those not below the order, are read as zero. */
  lemma ScalarMeans(c: seq<nat>)
    requires c != []
    ensures ScalarOf(c) == if c[0] >= 0x80 || BigEndian(c) >= N then 0 else BigEndian(c)
  {
    hide BigEndian;
  }

  /** The serialisation octet by octet: both contents are the shortest that are not negative. */
  lemma SerializedMeans(r: nat, s: nat) returns (c: seq<nat>, d: seq<nat>)
    requires r < N && s < N
    ensures Serialized(r, s) == [0x30, 4 + |c| + |d|, 0x02, |c|] + c + [0x02, |d|] + d
    ensures 1 <= |c| <= 33 && c[0] < 0x80 && (|c| > 1 && c[0] == 0 ==> c[1] >= 0x80) && BigEndian(c) == r
    ensures 1 <= |d| <= 33 && d[0] < 0x80 && (|d| > 1 && d[0] == 0 ==> d[1] >= 0x80) && BigEndian(d) == s
  {
    c, d := Minimal(r), Minimal(s);
    MinimalIsShortest(r);
    MinimalIsShortest(s);
    OrderBits();
    MinimalIsShort(r);
    MinimalIsShort(s);
    hide Minimal, BigEndian, Shortest, Sequence;
    ShortSequence(c, d);
  }

  lemma ShortSequence(c: seq<nat>, d: seq<nat>)
    requires |c| <= 33 && |d| <= 33
    ensures Sequence(c, d) == [0x30, 4 + |c| + |d|, 0x02, |c|] + c + [0x02, |d|] + d
  {
    LengthMeans(|c|);
    LengthMeans(|d|);
    LengthMeans(4 + |c| + |d|);
    hide LengthOctets;
    assert |Integer(c) + Integer(d)| == 4 + |c| + |d|;
  }

  // --- Round trips

  /** Parsing what was serialised gives the two numbers back. */
  lemma ParsesSerialized(r: nat, s: nat, c: seq<nat>, d: seq<nat>)
    requires r < N && s < N
    ensures !NoShortSignature(Serialized(r, s))
    ensures IsSignature(Serialized(r, s), c, d) ==> ScalarOf(c) == r && ScalarOf(d) == s
  {
    hide Minimal, Sequence, BigEndian, Shortest;
    MinimalIsShortest(r);
    MinimalIsShortest(s);
    assert IsSignature(Serialized(r, s), Minimal(r), Minimal(s));
    OrderBits();
    MinimalIsShort(r);
    MinimalIsShort(s);
    SequenceBytes(Minimal(r), Minimal(s));
    assert IsShort(Minimal(r), Minimal(s));
    if IsSignature(Serialized(r, s), c, d) {
      SignatureUnique(Serialized(r, s), Minimal(r), Minimal(s), c, d);
    }
  }

  lemma OrderBits()
    ensures N <= Pow2(256)
  {
    Pow2Values();
  }

  lemma SequenceBytes(c: seq<nat>, d: seq<nat>)
    requires AreBytes(c) && AreBytes(d) && |c| <= 33 && |d| <= 33
    ensures AreBytes(Sequence(c, d)) && |Sequence(c, d)| == 6 + |c| + |d|
    ensures IsShort(c, d)
  {
  }

  /** Exactly when neither number is flagged is an input that parses what the serialiser would print. */
  lemma SerializesParsed(sig: seq<nat>, c: seq<nat>, d: seq<nat>)
    requires AreBytes(sig) && IsSignature(sig, c, d)
    ensures ScalarOf(c) < N && ScalarOf(d) < N
    ensures sig == Serialized(ScalarOf(c), ScalarOf(d)) <==> !Flagged(c) && !Flagged(d)
  {
    hide Minimal, BigEndian, LengthOctets, Shortest;
    ContentBytes(sig, c, d);
    var r, s := ScalarOf(c), ScalarOf(d);
    if !Flagged(c) && !Flagged(d) {
      ShortestIsMinimal(c);
      ShortestIsMinimal(d);
    } else if sig == Serialized(r, s) {
      MinimalIsShortest(r);
      MinimalIsShortest(s);
      assert IsSignature(sig, Minimal(r), Minimal(s));
      SignatureUnique(sig, c, d, Minimal(r), Minimal(s));
    }
  }

  lemma ContentBytes(sig: seq<nat>, c: seq<nat>, d: seq<nat>)
    requires AreBytes(sig) && IsSignature(sig, c, d)
    ensures AreBytes(c) && AreBytes(d)
  {
    hide LengthOctets, Shortest, Integer, IsSignature, IsInteger;
    SignatureParts(sig, c, d);
    var n := |Integer(c)| + |Integer(d)|;
    var k := 1 + |LengthOctets(n)|;
    IntegerParts(sig, k, k + |Integer(c)|, c);
    IntegerParts(sig, k + |Integer(c)|, |sig|, d);
  }
}
