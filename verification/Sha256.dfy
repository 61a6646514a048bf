/** The streaming interface of hash_impl.h over an arbitrary compression function. */
module Sha256 {
  import opened Numbers

  type Byte = b: nat | b < 256

  const BLOCK: nat := 64
  const SIZE_MOD: nat := 0x1_0000_0000_0000_0000

  /** The eight chaining words, which only the compression function looks into. */
  type Chain(==, !new)

  /** What stays opaque: the initial words, the compression of one block, the words as bytes. */
  datatype Core = Core(start: Chain, compress: (Chain, seq<Byte>) -> Chain, bytes: Chain -> seq<Byte>)

  // --- Sections 5.1.1 and 6.2 of FIPS 180-4

  function Zeros(n: nat): (z: seq<Byte>)
    ensures |z| == n
  {
    seq(n, i => 0)
  }

  function Be32(n: nat): (b: seq<Byte>)
    ensures |b| == 4
  {
    [n / 16777216 % 256, n / 65536 % 256, n / 256 % 256, n % 256]
  }

  /** The bit length of the message as eight bytes. */
  function BitLength(n: nat): (b: seq<Byte>)
    ensures |b| == 8
  {
    var bits := 8 * n % SIZE_MOD;
    Be32(bits / 0x1_0000_0000) + Be32(bits % 0x1_0000_0000)
  }

  /** The zeros after the byte 0x80: the fewest that leave room for the length at the end of a block. */
  function ZeroCount(n: nat): (k: nat)
    ensures k < BLOCK && (n + 1 + k + 8) % BLOCK == 0
  {
    (119 - n % BLOCK) % BLOCK
  }

  function Padded(data: seq<Byte>): (p: seq<Byte>)
    ensures |p| % BLOCK == 0
  {
    data + ([0x80] + Zeros(ZeroCount(|data|))) + BitLength(|data|)
  }

  /** Padding loses nothing: shorter than 2^61 bytes, different messages are padded differently. */
  lemma PaddingInjective(a: seq<Byte>, b: seq<Byte>)
    requires |a| < SIZE_MOD / 8 && |b| < SIZE_MOD / 8
    requires Padded(a) == Padded(b)
    ensures a == b
  {
    PaddedEnds(a);
    PaddedEnds(b);
    BitLengthInjective(|a|, |b|);
    hide Padded;
  }

  lemma PaddedEnds(a: seq<Byte>)
    ensures |Padded(a)| >= |a| + 8
    ensures Padded(a)[..|a|] == a && Padded(a)[|Padded(a)| - 8..] == BitLength(|a|)
  {
    hide BitLength;
  }

  lemma BitLengthInjective(m: nat, n: nat)
    requires m < SIZE_MOD / 8 && n < SIZE_MOD / 8 && BitLength(m) == BitLength(n)
    ensures m == n
  {
    hide Be32;
    var x, y := 8 * m, 8 * n;
    assert BitLength(m)[..4] == Be32(x / 0x1_0000_0000) && BitLength(m)[4..] == Be32(x % 0x1_0000_0000);
    assert BitLength(n)[..4] == Be32(y / 0x1_0000_0000) && BitLength(n)[4..] == Be32(y % 0x1_0000_0000);
    Be32Injective(x / 0x1_0000_0000, y / 0x1_0000_0000);
    Be32Injective(x % 0x1_0000_0000, y % 0x1_0000_0000);
  }

  lemma Be32Injective(m: nat, n: nat)
    requires m < 0x1_0000_0000 && n < 0x1_0000_0000 && Be32(m) == Be32(n)
    ensures m == n
  {
    assert Be32(m)[0] == Be32(n)[0] && Be32(m)[1] == Be32(n)[1] && Be32(m)[2] == Be32(n)[2] && Be32(m)[3] == Be32(n)[3];
    hide Be32;
    FourBytes(m);
    FourBytes(n);
  }

  lemma FourBytes(n: nat)
    requires n < 0x1_0000_0000
    ensures n / 256 == n / 65536 * 256 + n / 256 % 256
    ensures n / 65536 == n / 16777216 * 256 + n / 65536 % 256
    ensures n / 16777216 % 256 == n / 16777216
  {
    NextQuotient(n, 1);
    NextQuotient(n, 256);
    NextQuotient(n, 65536);
  }

  lemma NextQuotient(n: nat, d: nat)
    requires d > 0
    ensures n / (d * 256) == n / d / 256
  {
    var q, r := n / d, n % d;
    var p, u := q / 256, q % 256;
    assert n == p * (d * 256) + (u * d + r);
    MulMonotone(u, 255, d);
    DivModUnique(n, d * 256, p, u * d + r);
  }

  /** The chaining words after the first k blocks. */
  function Absorbed(c: Core, data: seq<Byte>, k: nat): Chain
    requires k * BLOCK <= |data|
  {
    if k == 0 then c.start
    else c.compress(Absorbed(c, data, k - 1), data[(k - 1) * BLOCK..k * BLOCK])
  }

  function Digest(c: Core, data: seq<Byte>): seq<Byte> {
    var p := Padded(data);
    c.bytes(Absorbed(c, p, |p| / BLOCK))
  }

  /** What was absorbed depends only on the blocks absorbed. */
  lemma {:induction false} AbsorbedPrefix(c: Core, data: seq<Byte>, more: seq<Byte>, k: nat)
    requires k * BLOCK <= |data|
    ensures Absorbed(c, data + more, k) == Absorbed(c, data, k)
    decreases k
  {
    if k > 0 {
      AbsorbedPrefix(c, data, more, k - 1);
      assert (data + more)[(k - 1) * BLOCK..k * BLOCK] == data[(k - 1) * BLOCK..k * BLOCK];
    }
  }

  /** The digest block by block: of the data, the byte 0x80, as few zeros as fill the last block, and
  the number of bits with the highest byte first. */
  lemma DigestChain(c: Core, data: seq<Byte>) returns (p: seq<Byte>, hs: seq<Chain>)
    ensures
      var n, m := |data|, |p|;
      && m % 64 == 0 && n + 9 <= m < n + 73 && p[..n] == data && p[n] == 0x80 && (forall i :: n < i < m - 8 ==> p[i] == 0)
      && var b: seq<int> := p[m - 8..];
         b[0] * 0x100_0000_0000_0000 + b[1] * 0x1_0000_0000_0000 + b[2] * 0x100_0000_0000 + b[3] * 0x1_0000_0000
         + b[4] * 0x100_0000 + b[5] * 0x1_0000 + b[6] * 0x100 + b[7] == 8 * n % 0x1_0000_0000_0000_0000
    ensures |hs| == |p| / 64 + 1 && hs[0] == c.start
    ensures forall i :: 0 < i < |hs| ==> hs[i] == c.compress(hs[i - 1], p[64 * (i - 1)..64 * i])
    ensures Digest(c, data) == c.bytes(hs[|hs| - 1])
  {
    p := Padded(data);
    PaddedBytes(data);
    hide Padded;
    hs := AbsorbedChain(c, p, |p| / BLOCK);
  }

  lemma {:induction false} AbsorbedChain(c: Core, p: seq<Byte>, k: nat) returns (hs: seq<Chain>)
    requires k * BLOCK <= |p|
    ensures |hs| == k + 1 && hs[0] == c.start && hs[k] == Absorbed(c, p, k)
    ensures forall i :: 0 < i <= k ==> hs[i] == c.compress(hs[i - 1], p[64 * (i - 1)..64 * i])
    decreases k
  {
    hs := [c.start];
    if k > 0 {
      hs := AbsorbedChain(c, p, k - 1);
      hs := hs + [Absorbed(c, p, k)];
    }
  }

  lemma PaddedBytes(data: seq<Byte>)
    ensures
      var p := Padded(data);
      var n, m := |data|, |p|;
      && m % 64 == 0 && n + 9 <= m < n + 73 && p[..n] == data && p[n] == 0x80 && (forall i :: n < i < m - 8 ==> p[i] == 0)
      && var b: seq<int> := p[m - 8..];
         b[0] * 0x100_0000_0000_0000 + b[1] * 0x1_0000_0000_0000 + b[2] * 0x100_0000_0000 + b[3] * 0x1_0000_0000
         + b[4] * 0x100_0000 + b[5] * 0x1_0000 + b[6] * 0x100 + b[7] == 8 * n % 0x1_0000_0000_0000_0000
  {
    hide BitLength;
    var p, b := Padded(data), BitLength(|data|);
    var m := |p|;
    LengthValue(|data|);
    assert p[m - 8..] == b;
  }

  lemma LengthValue(n: nat)
    ensures
      var b: seq<int> := BitLength(n);
      b[0] * 0x100_0000_0000_0000 + b[1] * 0x1_0000_0000_0000 + b[2] * 0x100_0000_0000 + b[3] * 0x1_0000_0000
        + b[4] * 0x100_0000 + b[5] * 0x1_0000 + b[6] * 0x100 + b[7] == 8 * n % 0x1_0000_0000_0000_0000
  {
    var bits := 8 * n % SIZE_MOD;
    var high, low := bits / 0x1_0000_0000, bits % 0x1_0000_0000;
    Be32Value(high);
    Be32Value(low);
    assert bits == high * 0x1_0000_0000 + low;
    hide Be32;
  }

  lemma Be32Value(n: nat)
    requires n < 0x1_0000_0000
    ensures var b: seq<int> := Be32(n); b[0] * 0x100_0000 + b[1] * 0x1_0000 + b[2] * 0x100 + b[3] == n
  {
    FourBytes(n);
  }

  // --- The state

  class State {
    const core: Core
    var s: Chain
    const buf: array<Byte>
    var bytes: nat
    /** Everything written. */
    ghost var data: seq<Byte>

    /** Full blocks are compressed at once; the buffer holds what is short of one. */
    ghost predicate Valid()
      reads this, buf
    {
      && buf.Length == BLOCK && bytes == |data| % SIZE_MOD
      && var k := |data| / BLOCK;
         && s == Absorbed(core, data, k)
         && buf[..|data| - k * BLOCK] == data[k * BLOCK..]
    }

    /** `secp256k1_sha256_initialize` */
    constructor (core: Core)
      ensures Valid() && fresh(buf) && this.core == core && data == []
    {
      this.core := core;
      s := core.start;
      buf := new Byte[BLOCK](i => 0);
      bytes := 0;
      data := [];
    }

    /** Data copied into the buffer from place `at` on. */
    method Copy(at: nat, input: seq<Byte>)
      requires buf.Length == BLOCK && at + |input| <= BLOCK
      modifies buf
      ensures buf[..at + |input|] == old(buf[..at]) + input
    {
      for i := 0 to |input|
        invariant buf[..at] == old(buf[..at])
        invariant buf[at..at + i] == input[..i]
      {
        buf[at + i] := input[i];
      }
      assert buf[..at + |input|] == buf[..at] + buf[at..at + |input|];
    }

    /** `secp256k1_sha256_write` */
    method Write(input: seq<Byte>)
      requires Valid()
      modifies this, buf
      ensures Valid() && data == old(data) + input
    {
      hide Absorbed;
      var bufsize := bytes % BLOCK;
      BufferSize(|data|);
      bytes := (bytes + |input|) % SIZE_MOD;
      BytesCounted(|data|, |input|);
      ghost var k := |data| / BLOCK;
      assert bufsize == |data| - k * BLOCK;
      ghost var all := data + input;
      AbsorbedPrefix(core, data, input, k);
      data := all;
      bufsize, k := Fill(bufsize, input, k);
      DivModUnique(|all|, BLOCK, k, bufsize);
    }

    /** What the buffer holds and the input, cut after the next block. */
    static lemma NextBlock(held: seq<Byte>, pin: seq<Byte>, all: seq<Byte>, k: nat)
      requires |held| < BLOCK <= |held| + |pin| && k * BLOCK <= |all| && held + pin == all[k * BLOCK..]
      ensures (k + 1) * BLOCK <= |all|
      ensures held + pin[..BLOCK - |held|] == all[k * BLOCK..(k + 1) * BLOCK]
      ensures pin[BLOCK - |held|..] == all[(k + 1) * BLOCK..]
    {
      var rest, c := held + pin, BLOCK - |held|;
      assert rest[..BLOCK] == held + pin[..c] && rest[BLOCK..] == pin[c..];
    }

    /** The loop of the writer, and the bytes it leaves in the buffer. */
    method Fill(held: nat, input: seq<Byte>, ghost from: nat) returns (bufsize: nat, ghost k: nat)
      requires buf.Length == BLOCK && held < BLOCK && from * BLOCK <= |data|
      requires s == Absorbed(core, data, from) && buf[..held] + input == data[from * BLOCK..]
      modifies this`s, buf
      ensures bufsize < BLOCK && k * BLOCK + bufsize == |data|
      ensures s == Absorbed(core, data, k) && buf[..bufsize] == data[k * BLOCK..]
    {
      hide Absorbed;
      bufsize := held;
      k := from;
      var pin := input;
      while bufsize + |pin| >= BLOCK
        invariant bufsize < BLOCK && k * BLOCK <= |data|
        invariant s == Absorbed(core, data, k) && buf[..bufsize] + pin == data[k * BLOCK..]
        decreases |pin|
      {
        var chunk := BLOCK - bufsize;
        NextBlock(buf[..bufsize], pin, data, k);
        Copy(bufsize, pin[..chunk]);
        assert buf[..] == buf[..BLOCK];
        Compress(k);
        pin := pin[chunk..];
        bufsize := 0;
        k := k + 1;
        assert buf[..bufsize] + pin == pin;
      }
      if |pin| > 0 {
        Copy(bufsize, pin);
      }
      bufsize := bufsize + |pin|;
    }

    /** `secp256k1_sha256_transform` on the buffer. */
    method Compress(ghost k: nat)
      requires buf.Length == BLOCK && (k + 1) * BLOCK <= |data|
      requires s == Absorbed(core, data, k) && buf[..] == data[k * BLOCK..(k + 1) * BLOCK]
      modifies this`s
      ensures s == Absorbed(core, data, k + 1)
    {
      s := core.compress(s, buf[..]);
    }

    /** `secp256k1_sha256_finalize`: the digest of everything written. */
    method Finalize() returns (out: seq<Byte>, ghost p: seq<Byte>, ghost hs: seq<Chain>)
      requires Valid()
      modifies this, buf
      ensures out == Digest(core, old(data))
      ensures
        var n, m := |old(data)|, |p|;
        && m % 64 == 0 && n + 9 <= m < n + 73 && p[..n] == old(data) && p[n] == 0x80 && (forall i :: n < i < m - 8 ==> p[i] == 0)
        && var b: seq<int> := p[m - 8..];
         b[0] * 0x100_0000_0000_0000 + b[1] * 0x1_0000_0000_0000 + b[2] * 0x100_0000_0000 + b[3] * 0x1_0000_0000
         + b[4] * 0x100_0000 + b[5] * 0x1_0000 + b[6] * 0x100 + b[7] == 8 * n % 0x1_0000_0000_0000_0000
      ensures |hs| == |p| / 64 + 1 && hs[0] == core.start
      ensures forall i :: 0 < i < |hs| ==> hs[i] == core.compress(hs[i - 1], p[64 * (i - 1)..64 * i])
      ensures out == core.bytes(hs[|hs| - 1])
    {
      p, hs := DigestChain(core, data);
      hide Absorbed;
      ghost var message := data;
      var size := bytes;
      SizeWords(|message|, size);
      var sizedesc := Be32(size / 0x2000_0000 % 0x1_0000_0000) + Be32(size * 8 % 0x1_0000_0000);
      BufferSize(|message|);
      var pad := [0x80] + Zeros(63);
      var n := 1 + (119 - size % BLOCK) % BLOCK;
      assert pad[..n] == [0x80] + Zeros(n - 1);
      Write(pad[..n]);
      Write(sizedesc);
      assert data == Padded(message);
      out := core.bytes(s);
    }
  }

  lemma BufferSize(n: nat)
    ensures n % SIZE_MOD % BLOCK == n % BLOCK
  {
    var q, r := n / SIZE_MOD, n % SIZE_MOD;
    assert n == q * SIZE_MOD + r;
    DivModUnique(n, BLOCK, q * (SIZE_MOD / BLOCK) + r / BLOCK, r % BLOCK);
  }

  lemma BytesCounted(n: nat, k: nat)
    ensures (n % SIZE_MOD + k) % SIZE_MOD == (n + k) % SIZE_MOD
  {
    var q, r := n / SIZE_MOD, n % SIZE_MOD;
    var p, u := (r + k) / SIZE_MOD, (r + k) % SIZE_MOD;
    assert n + k == (q + p) * SIZE_MOD + u;
    DivModUnique(n + k, SIZE_MOD, q + p, u);
  }

  /** The two words of the size descriptor are the bit length. */
  lemma SizeWords(n: nat, size: nat)
    requires size == n % SIZE_MOD
    ensures
      var bits := 8 * n % SIZE_MOD;
      size / 0x2000_0000 % 0x1_0000_0000 == bits / 0x1_0000_0000 && size * 8 % 0x1_0000_0000 == bits % 0x1_0000_0000
  {
    var q := n / SIZE_MOD;
    var h, l := size / 0x2000_0000, size % 0x2000_0000;
    var g, m := h / 0x1_0000_0000, h % 0x1_0000_0000;
    assert 8 * n == (8 * q + g) * SIZE_MOD + (m * 0x1_0000_0000 + 8 * l);
    DivModUnique(8 * n, SIZE_MOD, 8 * q + g, m * 0x1_0000_0000 + 8 * l);
    DivModUnique(m * 0x1_0000_0000 + 8 * l, 0x1_0000_0000, m, 8 * l);
    DivModUnique(size * 8, 0x1_0000_0000, h, 8 * l);
  }

  function Concat(pieces: seq<seq<Byte>>): seq<Byte> {
    if pieces == [] then [] else Concat(pieces[..|pieces| - 1]) + pieces[|pieces| - 1]
  }

  lemma {:induction false} Joined(a: seq<seq<Byte>>, b: seq<seq<Byte>>)
    ensures Concat(a + b) == Concat(a) + Concat(b)
    decreases |b|
  {
    if b == [] {
      assert a + b == a;
    } else {
      Joined(a, b[..|b| - 1]);
      assert (a + b)[..|a + b| - 1] == a + b[..|b| - 1];
    }
  }

  lemma OnePiece(x: seq<Byte>)
    ensures Concat([x]) == x
  {
    assert [x][..0] == [];
  }

  /** However the message is cut, writing piece by piece gives the digest of the whole. */
  method InPieces(core: Core, pieces: seq<seq<Byte>>) returns (out: seq<Byte>)
    ensures out == Digest(core, Concat(pieces))
  {
    hide Digest, Absorbed;
    var s := new State(core);
    for i := 0 to |pieces|
      invariant s.Valid() && s.core == core && fresh(s) && fresh(s.buf) && s.data == Concat(pieces[..i])
    {
      s.Write(pieces[i]);
      assert pieces[..i + 1][..i] == pieces[..i];
    }
    assert pieces[..|pieces|] == pieces;
    ghost var p, hs;
    out, p, hs := s.Finalize();
  }
}
