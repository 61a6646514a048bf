/** The streaming interface of blake2b.cc over an arbitrary compression function. */
module Blake2b {

  type Byte = b: nat | b < 256

  const BLOCK_BYTES: nat := 128
  const OUT_BYTES: nat := 64
  const KEY_BYTES: nat := 64
  const COUNTER_WORD: nat := 0x1_0000_0000_0000_0000

  /** The eight chaining words h, which only the compression function looks into. */
  type Chain(==, !new)

  /** The parts of the hash that stay opaque: the chaining words after the parameter
  block for an output and key length, the compression of one block with counter
  words t0 and t1 and the two finalisation flags, and the bytes of the chaining words. */
  datatype Core = Core(
    start: (nat, nat) -> Chain,
    compress: (Chain, seq<Byte>, nat, nat, bool, bool) -> Chain,
    bytes: Chain -> seq<Byte>)
  {
    ghost predicate WellSized() {
      forall h {:trigger bytes(h)} :: |bytes(h)| == OUT_BYTES
    }
  }

  // --- Section 3.3 of RFC 7693

  /** Blocks compressed before the last one: the last block is held back even when it is full. */
  function Early(n: nat): (k: nat)
    ensures n == 0 ==> k == 0
    ensures n > 0 ==> k * BLOCK_BYTES < n <= k * BLOCK_BYTES + BLOCK_BYTES
  {
    if n == 0 then 0 else (n - 1) / BLOCK_BYTES
  }

  function Zeros(n: nat): (z: seq<Byte>)
    ensures |z| == n
  {
    seq(n, i => 0)
  }

  /** The chaining words after the first k blocks, none of them the last one. */
  function Absorbed(c: Core, h: Chain, data: seq<Byte>, k: nat): Chain
    requires k * BLOCK_BYTES <= |data|
  {
    if k == 0 then h
    else
      var t := k * BLOCK_BYTES;
      c.compress(Absorbed(c, h, data, k - 1), data[t - BLOCK_BYTES..t],
                 t % COUNTER_WORD, t / COUNTER_WORD % COUNTER_WORD, false, false)
  }

  /** The digest of all the data, whose last block is filled with zeros. */
  function Digest(c: Core, h: Chain, data: seq<Byte>, outlen: nat): (d: seq<Byte>)
    requires c.WellSized() && outlen <= OUT_BYTES
    ensures |d| == outlen
  {
    var k := Early(|data|);
    var rest := data[k * BLOCK_BYTES..];
    var t := |data|;
    var last := c.compress(Absorbed(c, h, data, k), rest + Zeros(BLOCK_BYTES - |rest|),
                           t % COUNTER_WORD, t / COUNTER_WORD % COUNTER_WORD, true, false);
    c.bytes(last)[..outlen]
  }

  lemma DigestIs(c: Core, h: Chain, data: seq<Byte>, outlen: nat, block: seq<Byte>, t0: nat, t1: nat)
    requires c.WellSized() && outlen <= OUT_BYTES
    requires
      var t := Early(|data|) * BLOCK_BYTES;
      block == data[t..] + Zeros(BLOCK_BYTES - (|data| - t))
    requires t0 == |data| % COUNTER_WORD && t1 == |data| / COUNTER_WORD % COUNTER_WORD
    ensures Digest(c, h, data, outlen) ==
      c.bytes(c.compress(Absorbed(c, h, data, Early(|data|)), block, t0, t1, true, false))[..outlen]
  {
    hide Absorbed, Early, Zeros;
    var rest := data[Early(|data|) * BLOCK_BYTES..];
    assert |rest| == |data| - Early(|data|) * BLOCK_BYTES;
  }

  /** The digest block by block: every block but the last is compressed with the number of bytes
  up to its end, the last one, filled with zeros, with the number of all bytes and the first flag. */
  lemma DigestChain(c: Core, h: Chain, data: seq<Byte>, outlen: nat) returns (hs: seq<Chain>)
    requires c.WellSized() && outlen <= OUT_BYTES
    ensures hs != [] && hs[0] == h
    ensures 128 * (|hs| - 1) < |data| <= 128 * |hs| || (data == [] && |hs| == 1)
    ensures forall i :: 0 < i < |hs| ==>
      hs[i] == c.compress(hs[i - 1], data[128 * (i - 1)..128 * i],
                          128 * i % 0x1_0000_0000_0000_0000, 128 * i / 0x1_0000_0000_0000_0000 % 0x1_0000_0000_0000_0000,
                          false, false)
    ensures Digest(c, h, data, outlen) ==
      c.bytes(c.compress(hs[|hs| - 1], data[128 * (|hs| - 1)..] + seq(128 * |hs| - |data|, _ => 0),
                         |data| % 0x1_0000_0000_0000_0000, |data| / 0x1_0000_0000_0000_0000 % 0x1_0000_0000_0000_0000,
                         true, false))[..outlen]
  {
    var k := Early(|data|);
    hs := AbsorbedChain(c, h, data, k);
    hide Absorbed, Early;
    assert Zeros(BLOCK_BYTES - |data[k * BLOCK_BYTES..]|) == seq(128 * |hs| - |data|, _ => 0);
  }

  lemma {:induction false} AbsorbedChain(c: Core, h: Chain, data: seq<Byte>, k: nat) returns (hs: seq<Chain>)
    requires k * BLOCK_BYTES <= |data|
    ensures |hs| == k + 1 && hs[0] == h && hs[k] == Absorbed(c, h, data, k)
    ensures forall i :: 0 < i <= k ==>
      hs[i] == c.compress(hs[i - 1], data[128 * (i - 1)..128 * i],
                          128 * i % 0x1_0000_0000_0000_0000, 128 * i / 0x1_0000_0000_0000_0000 % 0x1_0000_0000_0000_0000,
                          false, false)
    decreases k
  {
    hs := [h];
    if k > 0 {
      hs := AbsorbedChain(c, h, data, k - 1);
      hs := hs + [Absorbed(c, h, data, k)];
    }
  }

  /** The data of a keyed hash starts with the key in a block of its own. */
  function KeyBlock(key: seq<Byte>): (b: seq<Byte>)
    ensures |key| <= BLOCK_BYTES ==> |b| == BLOCK_BYTES
  {
    key + Zeros(if |key| <= BLOCK_BYTES then BLOCK_BYTES - |key| else 0)
  }

  /** The hash of section 3.3 with a key of any length from 0. */
  function Hash(c: Core, data: seq<Byte>, key: seq<Byte>, outlen: nat): (d: seq<Byte>)
    requires c.WellSized() && outlen <= OUT_BYTES
    ensures |d| == outlen
  {
    Digest(c, c.start(outlen, |key|), (if key == [] then [] else KeyBlock(key)) + data, outlen)
  }

  /** What was absorbed depends only on the blocks absorbed. */
  lemma {:induction false} AbsorbedPrefix(c: Core, h: Chain, data: seq<Byte>, more: seq<Byte>, k: nat)
    requires k * BLOCK_BYTES <= |data|
    ensures Absorbed(c, h, data + more, k) == Absorbed(c, h, data, k)
    decreases k
  {
    if k > 0 {
      AbsorbedPrefix(c, h, data, more, k - 1);
      var t := k * BLOCK_BYTES;
      assert (data + more)[t - BLOCK_BYTES..t] == data[t - BLOCK_BYTES..t];
    }
  }

  /** Two words that count together. */
  lemma CounterStep(t: nat, t0: nat, t1: nat, inc: nat)
    requires t0 == t % COUNTER_WORD && t1 == t / COUNTER_WORD % COUNTER_WORD && inc < COUNTER_WORD
    ensures
      var s := (t0 + inc) % COUNTER_WORD;
      && s == (t + inc) % COUNTER_WORD
      && (t1 + if s < inc then 1 else 0) % COUNTER_WORD == (t + inc) / COUNTER_WORD % COUNTER_WORD
  {
    var q := t / COUNTER_WORD;
    assert t == q * COUNTER_WORD + t0;
    if t0 + inc < COUNTER_WORD {
      QuotientOf(t + inc, q, t0 + inc);
    } else {
      QuotientOf(t + inc, q + 1, t0 + inc - COUNTER_WORD);
      ModAddOne(q);
    }
  }

  lemma QuotientOf(a: nat, q: nat, r: nat)
    requires r < COUNTER_WORD && a == q * COUNTER_WORD + r
    ensures a / COUNTER_WORD == q && a % COUNTER_WORD == r
  {}

  lemma ModAddOne(q: nat)
    ensures (q % COUNTER_WORD + 1) % COUNTER_WORD == (q + 1) % COUNTER_WORD
  {}

  // --- The state

  class State {
    const core: Core
    var h: Chain
    var t0: nat
    var t1: nat
    /** The finalisation flags f[0] and f[1], all ones or all zero. */
    var f0: bool
    var f1: bool
    const buf: array<Byte>
    var buflen: nat
    var outlen: nat
    var lastNode: bool
    /** What has been absorbed, and the chaining words it started from. */
    ghost var data: seq<Byte>
    ghost var base: Chain

    ghost predicate Sized()
      reads this
    {
      core.WellSized() && buf.Length == BLOCK_BYTES
    }

    /** A state still open for data: all blocks but the last are compressed, the last
    one is held back in the buffer, and the counter is the number of bytes compressed. */
    ghost predicate Valid()
      reads this, buf
      ensures Valid() ==> !f0
    {
      && Sized() && !f0 && !f1 && !lastNode && outlen <= OUT_BYTES
      && var t := Early(|data|) * BLOCK_BYTES;
         && h == Absorbed(core, base, data, Early(|data|))
         && buflen == |data| - t && buflen <= BLOCK_BYTES
         && buf[..buflen] == data[t..]
         && t0 == t % COUNTER_WORD && t1 == t / COUNTER_WORD % COUNTER_WORD
    }

    /** A state that was finalised or could not be initialised refuses data and a second digest. */
    ghost predicate Closed()
      reads this
    {
      Sized() && f0
    }

    constructor (core: Core, any: Chain)
      requires core.WellSized()
      ensures this.core == core && Closed() && fresh(buf)
    {
      this.core := core;
      h := any;
      t0, t1, f0, f1, buflen, outlen, lastNode := 0, 0, true, false, 0, 0, false;
      buf := new Byte[BLOCK_BYTES](i => 0);
      data, base := [], any;
    }

    /** `blake2b_increment_counter`: the two words together count t bytes, then t + inc. */
    method IncrementCounter(inc: nat, ghost t: nat)
      requires inc < COUNTER_WORD && t0 == t % COUNTER_WORD && t1 == t / COUNTER_WORD % COUNTER_WORD
      modifies this`t0, this`t1
      ensures t0 == (t + inc) % COUNTER_WORD && t1 == (t + inc) / COUNTER_WORD % COUNTER_WORD
    {
      CounterStep(t, t0, t1, inc);
      t0 := (t0 + inc) % COUNTER_WORD;
      t1 := (t1 + if t0 < inc then 1 else 0) % COUNTER_WORD;
    }

    method SetLastBlock()
      modifies this`f0, this`f1
      ensures f0 && f1 == (old(f1) || lastNode)
    {
      if lastNode {
        f1 := true;
      }
      f0 := true;
    }

    /** `blake2b_compress` on the fields it reads. */
    method Compress(block: seq<Byte>)
      requires |block| == BLOCK_BYTES
      modifies this`h
      ensures h == core.compress(old(h), block, t0, t1, f0, f1)
    {
      h := core.compress(h, block, t0, t1, f0, f1);
    }

    /** Data copied into the buffer behind what it holds. */
    method Buffer(input: seq<Byte>)
      requires buf.Length == BLOCK_BYTES && buflen + |input| <= BLOCK_BYTES
      modifies buf
      ensures buf[..buflen + |input|] == old(buf[..buflen]) + input
    {
      for i := 0 to |input|
        invariant buf[..buflen] == old(buf[..buflen])
        invariant buf[buflen..buflen + i] == input[..i]
      {
        buf[buflen + i] := input[i];
      }
      assert buf[..buflen + |input|] == buf[..buflen] + buf[buflen..buflen + |input|];
    }

    /** Open, with k blocks of this data compressed. */
    ghost predicate Reached(all: seq<Byte>, k: nat)
      reads this
    {
      && Sized() && !f0 && !f1 && !lastNode && outlen <= OUT_BYTES && k * BLOCK_BYTES <= |all|
      && h == Absorbed(core, base, all, k)
      && t0 == (k * BLOCK_BYTES) % COUNTER_WORD && t1 == (k * BLOCK_BYTES) / COUNTER_WORD % COUNTER_WORD
    }

    lemma ReachedFits(all: seq<Byte>, k: nat)
      requires Reached(all, k)
      ensures k * BLOCK_BYTES <= |all|
    {}

    /** One more full block, not the last one. */
    method CompressFull(block: seq<Byte>, ghost all: seq<Byte>, ghost k: nat)
      requires Reached(all, k) && (k + 1) * BLOCK_BYTES <= |all|
      requires block == all[k * BLOCK_BYTES..(k + 1) * BLOCK_BYTES]
      modifies this`h, this`t0, this`t1
      ensures Reached(all, k + 1)
    {
      IncrementCounter(BLOCK_BYTES, k * BLOCK_BYTES);
      Compress(block);
    }

    /** Blocks compressed straight from the input, as long as more than one is left. */
    method CompressInput(input: seq<Byte>, ghost all: seq<Byte>, ghost from: nat) returns (pin: seq<Byte>, ghost k: nat)
      requires Reached(all, from) && input == all[from * BLOCK_BYTES..] && input != []
      modifies this`h, this`t0, this`t1
      ensures Reached(all, k) && pin == all[k * BLOCK_BYTES..] && 0 < |pin| <= BLOCK_BYTES
    {
      hide Reached;
      pin := input;
      k := from;
      ReachedFits(all, k);
      while |pin| > BLOCK_BYTES
        invariant Reached(all, k) && k * BLOCK_BYTES <= |all| && pin == all[k * BLOCK_BYTES..] && pin != []
      {
        CompressFull(pin[..BLOCK_BYTES], all, k);
        pin := pin[BLOCK_BYTES..];
        k := k + 1;
      }
    }

    /** `blake2b_update` */
    method Update(input: seq<Byte>) returns (code: int)
      requires Valid() || Closed()
      modifies this, buf
      ensures input == [] ==> code == 0 && unchanged(this, buf)
      ensures input != [] && old(f0) ==> code == -1 && unchanged(this, buf)
      ensures !old(f0) ==> code == 0 && Valid() && data == old(data) + input && base == old(base) && outlen == old(outlen)
    {
      if |input| == 0 {
        assert data + input == data;
        return 0;
      }
      if f0 {
        return -1;
      }
      Absorb(input);
      return 0;
    }

    method Absorb(input: seq<Byte>)
      requires Valid() && input != []
      modifies this, buf
      ensures Valid() && data == old(data) + input && base == old(base) && outlen == old(outlen)
    {
      hide Absorbed, Early;
      ghost var all := data + input;
      ghost var k := Early(|data|);
      var pin := input;
      AbsorbedPrefix(core, base, data, input, k);
      assert Reached(all, k);
      if buflen + |pin| > BLOCK_BYTES {
        var fill := BLOCK_BYTES - buflen;
        Buffer(pin[..fill]);
        assert buf[..] == all[k * BLOCK_BYTES..(k + 1) * BLOCK_BYTES];
        CompressFull(buf[..], all, k);
        buflen := 0;
        pin, k := CompressInput(pin[fill..], all, k + 1);
      }
      assert buf[..buflen] + pin == all[k * BLOCK_BYTES..];
      Buffer(pin);
      buflen := buflen + |pin|;
      data := all;
      OneEarly(|all|, k);
    }

    /** `blake2b_init_param` for the parameter blocks of the two callers. */
    method InitParam(outlen: nat, keylen: nat)
      requires Sized() && outlen <= OUT_BYTES
      modifies this
      ensures Valid() && data == [] && base == core.start(outlen, keylen) && this.outlen == outlen
    {
      h := core.start(outlen, keylen);
      t0, t1, f0, f1, buflen, lastNode := 0, 0, false, false, 0, false;
      this.outlen := outlen;
      data, base := [], h;
    }

    method InvalidateState()
      requires Sized()
      modifies this
      ensures Closed()
    {
      t0, t1, f0, f1, buflen, outlen, lastNode := 0, 0, false, false, 0, 0, false;
      SetLastBlock();
    }

    /** `blake2b_init` */
    method Init(outlen: nat) returns (code: int)
      requires Sized()
      modifies this
      ensures code == if 1 <= outlen <= OUT_BYTES then 0 else -1
      ensures code == -1 ==> Closed()
      ensures code == 0 ==> Valid() && data == [] && base == core.start(outlen, 0) && this.outlen == outlen
    {
      if outlen == 0 || outlen > OUT_BYTES {
        InvalidateState();
        return -1;
      }
      InitParam(outlen, 0);
      return 0;
    }

    /** `blake2b_init_key`: the key becomes the first block of the data. */
    method InitKey(outlen: nat, key: seq<Byte>) returns (code: int)
      requires Sized()
      modifies this, buf
      ensures code == if 1 <= outlen <= OUT_BYTES && 1 <= |key| <= KEY_BYTES then 0 else -1
      ensures code == -1 ==> Closed()
      ensures code == 0 ==> Valid() && data == KeyBlock(key) && base == core.start(outlen, |key|) && this.outlen == outlen
    {
      if outlen == 0 || outlen > OUT_BYTES {
        InvalidateState();
        return -1;
      }
      if |key| == 0 || |key| > KEY_BYTES {
        InvalidateState();
        return -1;
      }
      InitParam(outlen, |key|);
      var block := key + Zeros(BLOCK_BYTES - |key|);
      var ok := Update(block);
      assert data == KeyBlock(key);
      return 0;
    }

    method FillWithZeros()
      requires buf.Length == BLOCK_BYTES && buflen <= BLOCK_BYTES
      modifies buf
      ensures buf[..] == old(buf[..buflen]) + Zeros(BLOCK_BYTES - buflen)
    {
      for i := buflen to BLOCK_BYTES
        invariant buf[..buflen] == old(buf[..buflen])
        invariant forall j :: buflen <= j < i ==> buf[j] == 0
      {
        buf[i] := 0;
      }
    }

    /** The held back block, filled with zeros and compressed with the finalisation flags. */
    method LastBlock() returns (out: seq<Byte>)
      requires Valid()
      modifies this, buf
      ensures core.WellSized() && old(outlen) <= OUT_BYTES && out == Digest(core, old(base), old(data), old(outlen)) && Closed()
    {
      hide Absorbed, Digest, Early;
      ghost var t := Early(|data|) * BLOCK_BYTES;
      IncrementCounter(buflen, t);
      assert t + buflen == |data|;
      SetLastBlock();
      FillWithZeros();
      Compress(buf[..]);
      DigestIs(core, base, data, outlen, buf[..], t0, t1);
      out := core.bytes(h)[..outlen];
    }

    /** `blake2b_final`: the digest of everything absorbed, once. */
    method Final(outlen: nat) returns (code: int, out: seq<Byte>, ghost hs: seq<Chain>)
      requires Valid() || Closed()
      modifies this, buf
      ensures outlen < old(this.outlen) || old(f0) ==> code == -1 && out == [] && unchanged(this, buf)
      ensures old(this.outlen) <= outlen && !old(f0) ==>
        code == 0 && out == Digest(core, old(base), old(data), old(this.outlen)) && Closed()
      ensures code == 0 ==> hs != [] && hs[0] == old(base)
      ensures code == 0 ==> 128 * (|hs| - 1) < |old(data)| <= 128 * |hs| || (old(data) == [] && |hs| == 1)
      ensures code == 0 ==> forall i :: 0 < i < |hs| ==>
        hs[i] == core.compress(hs[i - 1], old(data)[128 * (i - 1)..128 * i],
                               128 * i % 0x1_0000_0000_0000_0000, 128 * i / 0x1_0000_0000_0000_0000 % 0x1_0000_0000_0000_0000,
                               false, false)
      ensures code == 0 && old(this.outlen) <= OUT_BYTES ==>
        var n := |old(data)|;
        out == core.bytes(core.compress(hs[|hs| - 1], old(data)[128 * (|hs| - 1)..] + seq(128 * |hs| - n, _ => 0),
                                        n % 0x1_0000_0000_0000_0000, n / 0x1_0000_0000_0000_0000 % 0x1_0000_0000_0000_0000,
                                        true, false))[..old(this.outlen)]
    {
      if outlen < this.outlen {
        return -1, [], [];
      }
      if f0 {
        return -1, [], [];
      }
      assert this.outlen <= OUT_BYTES && core.WellSized();
      hide Absorbed, Digest, Valid, Closed;
      hs := DigestChain(core, base, data, this.outlen);
      out := LastBlock();
      return 0, out, hs;
    }
  }

  /** A fresh state, initialised with or without a key. */
  method Start(core: Core, outlen: nat, key: seq<Byte>, any: Chain) returns (code: int, s: State)
    requires core.WellSized()
    ensures code == if 1 <= outlen <= 64 && |key| <= 64 then 0 else -1
    ensures fresh(s) && fresh(s.buf) && s.core == core
    ensures code == 0 ==> s.Valid() && s.base == core.start(outlen, |key|) && s.outlen == outlen
    ensures code == 0 ==> s.data == if key == [] then [] else KeyBlock(key)
  {
    s := new State(core, any);
    if |key| > 0 {
      code := s.InitKey(outlen, key);
    } else {
      code := s.Init(outlen);
    }
  }

  /** The key fills a block of its own in front of the data. */
  lemma HashMeans(c: Core, data: seq<Byte>, key: seq<Byte>, outlen: nat)
    requires c.WellSized() && outlen <= OUT_BYTES && |key| <= KEY_BYTES
    ensures key == [] ==> Hash(c, data, key, outlen) == Digest(c, c.start(outlen, 0), data, outlen)
    ensures key != [] ==>
      Hash(c, data, key, outlen) == Digest(c, c.start(outlen, |key|), key + seq(128 - |key|, _ => 0) + data, outlen)
  {
    hide Digest;
    assert Zeros(128 - |key|) == seq(128 - |key|, _ => 0);
    if key == [] { assert [] + data == data; }
  }

  /** `blake2b`: the keyed or unkeyed hash in one call. */
  method OneShot(core: Core, outlen: nat, input: seq<Byte>, key: seq<Byte>, any: Chain) returns (code: int, out: seq<Byte>)
    requires core.WellSized()
    ensures code == if 1 <= outlen <= 64 && |key| <= 64 then 0 else -1
    ensures code == 0 ==> out == Hash(core, input, key, outlen)
    ensures code == 0 && key == [] ==> out == Digest(core, core.start(outlen, 0), input, outlen)
    ensures code == 0 && key != [] ==>
      out == Digest(core, core.start(outlen, |key|), key + seq(128 - |key|, _ => 0) + input, outlen)
  {
    hide Digest, Absorbed, State.Valid, State.Closed;
    var s;
    code, s := Start(core, outlen, key, any);
    if code < 0 {
      return code, [];
    }
    HashMeans(core, input, key, outlen);
    var ok := s.Update(input);
    ghost var hs;
    code, out, hs := s.Final(outlen);
  }

  function Concat(pieces: seq<seq<Byte>>): seq<Byte> {
    if pieces == [] then [] else Concat(pieces[..|pieces| - 1]) + pieces[|pieces| - 1]
  }

  lemma {:induction false} Joined(a: seq<seq<Byte>>, b: seq<seq<Byte>>)
    ensures Concat(a + b) == Concat(a) + Concat(b)
    decreases |b|
  {
    if b == [] {
      assert a + b == a;
    } else {
      Joined(a, b[..|b| - 1]);
      assert (a + b)[..|a + b| - 1] == a + b[..|b| - 1];
    }
  }

  lemma OnePiece(x: seq<Byte>)
    ensures Concat([x]) == x
  {
    assert [x][..0] == [];
  }

  /** However the input is cut, updating piece by piece gives the hash of the whole. */
  method InPieces(core: Core, outlen: nat, pieces: seq<seq<Byte>>, key: seq<Byte>, any: Chain)
    returns (code: int, out: seq<Byte>)
    requires core.WellSized()
    ensures code == if 1 <= outlen <= 64 && |key| <= 64 then 0 else -1
    ensures code == 0 ==> out == Hash(core, Concat(pieces), key, outlen)
  {
    hide Digest, Absorbed, Concat, State.Valid, State.Closed;
    var s;
    code, s := Start(core, outlen, key, any);
    if code < 0 {
      return code, [];
    }
    UpdateAll(s, pieces);
    ghost var hs;
    code, out, hs := s.Final(outlen);
  }

  method UpdateAll(s: State, pieces: seq<seq<Byte>>)
    requires s.Valid()
    modifies s, s.buf
    ensures s.Valid() && s.data == old(s.data) + Concat(pieces) && s.base == old(s.base) && s.outlen == old(s.outlen)
  {
    hide State.Valid, State.Closed;
    for i := 0 to |pieces|
      invariant s.Valid() && s.base == old(s.base) && s.outlen == old(s.outlen)
      invariant s.data == old(s.data) + Concat(pieces[..i])
    {
      var ok := s.Update(pieces[i]);
      assert pieces[..i + 1][..i] == pieces[..i];
    }
    assert pieces[..|pieces|] == pieces;
  }

  lemma OneEarly(n: nat, k: nat)
    requires k * BLOCK_BYTES < n <= k * BLOCK_BYTES + BLOCK_BYTES
    ensures Early(n) == k
  {}

  // --- The variable-length hash of section 3.3 of RFC 9106

  function Le32(n: nat): (b: seq<Byte>)
    ensures |b| == 4
  {
    [n % 256, n / 256 % 256, n / 65536 % 256, n / 16777216 % 256]
  }

  /** V_1 is the hash of the length and the data; each further one is the hash of the one before. */
  function V(c: Core, outlen: nat, data: seq<Byte>, i: nat): (v: seq<Byte>)
    requires c.WellSized() && i >= 1
    ensures |v| == OUT_BYTES
  {
    if i == 1 then Hash(c, Le32(outlen) + data, [], OUT_BYTES)
    else Hash(c, V(c, outlen, data, i - 1), [], OUT_BYTES)
  }

  /** The first halves of V_1 to V_r. */
  function Halves(c: Core, outlen: nat, data: seq<Byte>, r: nat): (w: seq<Byte>)
    requires c.WellSized()
    ensures |w| == 32 * r
  {
    if r == 0 then [] else Halves(c, outlen, data, r - 1) + V(c, outlen, data, r)[..32]
  }

  function LongHash(c: Core, outlen: nat, data: seq<Byte>): (out: seq<Byte>)
    requires c.WellSized()
    ensures |out| == outlen
  {
    if outlen <= OUT_BYTES then Hash(c, Le32(outlen) + data, [], outlen)
    else
      var r := (outlen + 31) / 32 - 2;
      Halves(c, outlen, data, r) + Hash(c, V(c, outlen, data, r), [], outlen - 32 * r)
  }

  /** The hash value by value: the length in four bytes, the lowest first, is hashed in front of
  the data; of every value but the last only the first half is used. */
  lemma LongMeans(c: Core, outlen: nat, data: seq<Byte>) returns (vs: seq<seq<Byte>>)
    requires c.WellSized() && outlen < 0x1_0000_0000
    ensures forall i :: 0 <= i < |vs| ==> |vs[i]| == 64
    ensures
      var first := [outlen % 256, outlen / 256 % 256, outlen / 65536 % 256, outlen / 16777216] + data;
      if outlen <= 64 then LongHash(c, outlen, data) == Hash(c, first, [], outlen)
      else
        && |vs| == (outlen + 31) / 32 - 2 && vs[0] == Hash(c, first, [], 64)
        && (forall i :: 0 < i < |vs| ==> vs[i] == Hash(c, vs[i - 1], [], 64))
        && (forall i :: 0 <= i < |vs| ==> LongHash(c, outlen, data)[32 * i..32 * i + 32] == vs[i][..32])
        && LongHash(c, outlen, data)[32 * |vs|..] == Hash(c, vs[|vs| - 1], [], outlen - 32 * |vs|)
  {
    hide Hash, V, Halves, LongHash, Le32;
    vs := [];
    FirstValue(c, outlen, data);
    if outlen > 64 {
      var r := (outlen + 31) / 32 - 2;
      vs := seq(r, i requires 0 <= i < r => V(c, outlen, data, i + 1));
      LongParts(c, outlen, data, r);
      forall i | 0 < i < r ensures vs[i] == Hash(c, vs[i - 1], [], 64) {
        NextValue(c, outlen, data, i);
      }
      forall i | 0 <= i < r ensures LongHash(c, outlen, data)[32 * i..32 * i + 32] == vs[i][..32] {
        HalvesAt(c, outlen, data, r, i);
        assert LongHash(c, outlen, data)[32 * i..32 * i + 32] == Halves(c, outlen, data, r)[32 * i..32 * i + 32];
      }
    }
  }

  lemma FirstValue(c: Core, outlen: nat, data: seq<Byte>)
    requires c.WellSized() && outlen < 0x1_0000_0000
    ensures
      var first := [outlen % 256, outlen / 256 % 256, outlen / 65536 % 256, outlen / 16777216] + data;
      && V(c, outlen, data, 1) == Hash(c, first, [], 64)
      && (outlen <= 64 ==> LongHash(c, outlen, data) == Hash(c, first, [], outlen))
  {
    hide Hash;
  }

  lemma NextValue(c: Core, outlen: nat, data: seq<Byte>, i: nat)
    requires c.WellSized() && i > 0
    ensures V(c, outlen, data, i + 1) == Hash(c, V(c, outlen, data, i), [], 64)
  {
    hide Hash;
  }

  lemma LongParts(c: Core, outlen: nat, data: seq<Byte>, r: nat)
    requires c.WellSized() && outlen > 64 && r == (outlen + 31) / 32 - 2
    ensures r > 0 && 0 <= outlen - 32 * r <= 64 && |Halves(c, outlen, data, r)| == 32 * r
    ensures LongHash(c, outlen, data) == Halves(c, outlen, data, r) + Hash(c, V(c, outlen, data, r), [], outlen - 32 * r)
  {
    hide Hash, V, Halves;
  }

  lemma {:induction false} HalvesAt(c: Core, outlen: nat, data: seq<Byte>, r: nat, i: nat)
    requires c.WellSized() && i < r
    ensures Halves(c, outlen, data, r)[32 * i..32 * i + 32] == V(c, outlen, data, i + 1)[..32]
  {
    hide Hash, V;
    if i < r - 1 {
      HalvesAt(c, outlen, data, r - 1, i);
      assert Halves(c, outlen, data, r)[32 * i..32 * i + 32] == Halves(c, outlen, data, r - 1)[32 * i..32 * i + 32];
    }
  }

  /** `blake2b_long` */
  method Long(core: Core, outlen: nat, input: seq<Byte>, any: Chain)
    returns (code: int, out: seq<Byte>, ghost vs: seq<seq<Byte>>)
    requires core.WellSized()
    ensures code == if 1 <= outlen < 0x1_0000_0000 then 0 else -1
    ensures code == 0 ==> out == LongHash(core, outlen, input) && |out| == outlen
    ensures code == 0 ==> forall i :: 0 <= i < |vs| ==> |vs[i]| == 64
    ensures code == 0 ==>
      var first := [outlen % 256, outlen / 256 % 256, outlen / 65536 % 256, outlen / 16777216] + input;
      if outlen <= 64 then out == Hash(core, first, [], outlen)
      else
        && |vs| == (outlen + 31) / 32 - 2 && vs[0] == Hash(core, first, [], 64)
        && (forall i :: 0 < i < |vs| ==> vs[i] == Hash(core, vs[i - 1], [], 64))
        && (forall i :: 0 <= i < |vs| ==> out[32 * i..32 * i + 32] == vs[i][..32])
        && out[32 * |vs|..] == Hash(core, vs[|vs| - 1], [], outlen - 32 * |vs|)
  {
    if outlen >= 0x1_0000_0000 {
      return -1, [], [];
    }
    vs := LongMeans(core, outlen, input);
    hide Hash;
    code, out := LongCode(core, outlen, input, any);
    hide LongHash;
  }

  method LongCode(core: Core, outlen: nat, input: seq<Byte>, any: Chain) returns (code: int, out: seq<Byte>)
    requires core.WellSized() && outlen < 0x1_0000_0000
    ensures code == if 1 <= outlen then 0 else -1
    ensures code == 0 ==> out == LongHash(core, outlen, input)
  {
    hide Hash;
    if outlen <= OUT_BYTES {
      code, out := OnePrefixed(core, outlen, Le32(outlen), input, any);
    } else {
      var buffer;
      code, buffer := OnePrefixed(core, OUT_BYTES, Le32(outlen), input, any);
      out := buffer[..32];
      var toproduce := outlen - 32;
      ghost var i := 1;
      while toproduce > OUT_BYTES
        invariant i >= 1 && outlen == 32 * i + toproduce && toproduce > 32
        invariant buffer == V(core, outlen, input, i) && out == Halves(core, outlen, input, i)
      {
        code, buffer := OneShot(core, OUT_BYTES, buffer, [], any);
        out := out + buffer[..32];
        toproduce := toproduce - 32;
        i := i + 1;
      }
      assert i == (outlen + 31) / 32 - 2;
      var last;
      code, last := OneShot(core, toproduce, buffer, [], any);
      out := out + last;
    }
  }

  /** Hashing two updates, the length and then the data. */
  method OnePrefixed(core: Core, outlen: nat, prefix: seq<Byte>, input: seq<Byte>, any: Chain)
    returns (code: int, out: seq<Byte>)
    requires core.WellSized() && outlen <= OUT_BYTES
    ensures code == if 1 <= outlen then 0 else -1
    ensures code == 0 ==> out == Hash(core, prefix + input, [], outlen)
  {
    code, out := InPieces(core, outlen, [prefix, input], [], any);
    Joined([prefix], [input]);
    OnePiece(prefix);
    OnePiece(input);
    assert [prefix] + [input] == [prefix, input];
  }
}
