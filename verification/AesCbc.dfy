/** Cipher block chaining with padding over AES-256. */
module AesCbc {
  import opened AesBytes
  import opened AesState
  import opened AesMix
  import opened AesRounds
  import Aes256
  import Numbers

  /** Section 6.2 of NIST SP 800-38A, on whole blocks. */
  function Chain(key: seq<Byte>, iv: Block, data: seq<Byte>): (out: seq<Byte>)
    requires |key| == Aes256.KEY_SIZE && |data| % 16 == 0
    ensures |out| == |data|
    decreases |data|
  {
    if data == [] then []
    else
      var c: Block := Aes256.EncryptBlock(key, AddBlock(iv, data[..16]));
      c + Chain(key, c, data[16..])
  }

  function Unchain(key: seq<Byte>, iv: Block, data: seq<Byte>): (out: seq<Byte>)
    requires |key| == Aes256.KEY_SIZE && |data| % 16 == 0
    ensures |out| == |data|
    decreases |data|
  {
    if data == [] then []
    else AddBlock(Aes256.DecryptBlock(key, data[..16]), iv) + Unchain(key, data[..16], data[16..])
  }

  /** The padding of section 6.3 of RFC 5652. */
  function PadLength(n: nat): (p: nat)
    ensures 1 <= p <= 16 && (n + p) % 16 == 0
  {
    16 - n % 16
  }

  function Pad(data: seq<Byte>): (padded: seq<Byte>)
    ensures |padded| == |data| + PadLength(|data|)
  {
    var p := PadLength(|data|);
    data + seq(p, i => Byte(p as bv8))
  }

  /** The data ends in p bytes of value p, for some p from 1 to 16. */
  predicate WellPadded(data: seq<Byte>) {
    && data != []
    && var p := data[|data| - 1].v as nat;
       && 1 <= p <= 16 && p <= |data|
       && (forall i :: |data| - p <= i < |data| ==> data[i] == data[|data| - 1])
  }

  function Unpad(data: seq<Byte>): seq<Byte>
    requires WellPadded(data)
  {
    data[..|data| - data[|data| - 1].v as nat]
  }

  lemma AddSwapped(a: Block, b: Block)
    ensures AddBlock(a, b) == AddBlock(b, a)
  {
    hide Sum;
    forall k | 0 <= k < 16 ensures Sum(a[k], b[k]) == Sum(b[k], a[k]) {
      Commutes(a[k], b[k]);
    }
  }

  lemma {:induction false} UnchainChain(key: seq<Byte>, iv: Block, data: seq<Byte>)
    requires |key| == Aes256.KEY_SIZE && |data| % 16 == 0
    ensures Unchain(key, iv, Chain(key, iv, data)) == data
    decreases |data|
  {
    hide AddBlock, Aes256.EncryptBlock, Aes256.DecryptBlock;
    if data != [] {
      var mixed: Block := AddBlock(iv, data[..16]);
      var c: Block := Aes256.EncryptBlock(key, mixed);
      var rest := Chain(key, c, data[16..]);
      assert (c + rest)[..16] == c && (c + rest)[16..] == rest;
      Aes256.BlockRoundTrip(key, mixed);
      AddSwapped(iv, data[..16]);
      AddUndone(data[..16], iv);
      UnchainChain(key, c, data[16..]);
      assert data == data[..16] + data[16..];
    }
  }

  lemma {:induction false} ChainUnchain(key: seq<Byte>, iv: Block, data: seq<Byte>)
    requires |key| == Aes256.KEY_SIZE && |data| % 16 == 0
    ensures Chain(key, iv, Unchain(key, iv, data)) == data
    decreases |data|
  {
    hide AddBlock, Aes256.EncryptBlock, Aes256.DecryptBlock;
    if data != [] {
      var d: Block := Aes256.DecryptBlock(key, data[..16]);
      var p: Block := AddBlock(d, iv);
      var rest := Unchain(key, data[..16], data[16..]);
      assert (p + rest)[..16] == p && (p + rest)[16..] == rest;
      AddSwapped(iv, p);
      AddUndone(d, iv);
      Aes256.BlockRoundTrip(key, data[..16]);
      ChainUnchain(key, data[..16], data[16..]);
      assert data == data[..16] + data[16..];
    }
  }

  lemma PadByte(p: nat)
    requires p <= 16
    ensures Byte(p as bv8).v as nat == p
  {}

  lemma UnpadPad(data: seq<Byte>)
    ensures WellPadded(Pad(data)) && Unpad(Pad(data)) == data
  {
    PadByte(PadLength(|data|));
  }

  lemma ByteOfNat(x: Byte)
    ensures Byte(x.v as nat as bv8) == x
  {}

  lemma PadUnpad(data: seq<Byte>)
    requires WellPadded(data) && |data| % 16 == 0
    ensures Pad(Unpad(data)) == data
  {
    var last := data[|data| - 1];
    var p := last.v as nat;
    ByteOfNat(last);
    OnePadLength(|data| - p, p);
  }

  lemma OnePadLength(n: nat, p: nat)
    requires 1 <= p <= 16 && (n + p) % 16 == 0
    ensures PadLength(n) == p
  {}

  // --- The code

  /** Up to sixteen bytes of data, from place `at` on, added into a block. */
  method MixIn(mixed: array<Byte>, data: seq<Byte>, at: nat, n: nat)
    requires mixed.Length == 16 && n <= 16 && at + n <= |data|
    modifies mixed
    ensures forall i :: 0 <= i < 16 ==> mixed[i] == if i < n then Sum(old(mixed[i]), data[at + i]) else old(mixed[i])
  {
    hide Sum;
    for i := 0 to n
      invariant forall j :: 0 <= j < 16 ==> mixed[j] == if j < i then Sum(old(mixed[j]), data[at + j]) else old(mixed[j])
    {
      mixed[i] := Sum(mixed[i], data[at + i]);
    }
  }

  /** A block copied into an array from place `at` on. */
  method CopyOut(out: array<Byte>, at: nat, block: seq<Byte>)
    requires at + |block| <= out.Length
    modifies out
    ensures out[..] == old(out[..at]) + block + old(out[at + |block|..])
  {
    for i := 0 to |block|
      invariant out[..at] == old(out[..at])
      invariant out[at..at + i] == block[..i]
      invariant out[at + i..] == old(out[at + i..])
    {
      out[at + i] := block[i];
    }
  }

  /** What encryption puts out for this much data, with or without padding. */
  function Sealed(key: seq<Byte>, iv: Block, data: seq<Byte>, pad: bool): (out: seq<Byte>)
    requires |key| == Aes256.KEY_SIZE
  {
    if data == [] || (!pad && |data| % 16 != 0) then []
    else Chain(key, iv, if pad then Pad(data) else data)
  }

  lemma ChainStep(key: seq<Byte>, iv: Block, data: seq<Byte>)
    requires |key| == Aes256.KEY_SIZE && |data| % 16 == 0 && |data| > 0
    ensures
      var c := Aes256.EncryptBlock(key, AddBlock(iv, data[..16]));
      Chain(key, iv, data) == c + Chain(key, c, data[16..])
  {}

  /** The mixed block encrypted to its place in the output, and kept for the next one. */
  method EncryptMixed(enc: Aes256.Context, mixed: array<Byte>, out: array<Byte>, written: nat, ghost key: seq<Byte>)
    requires |key| == Aes256.KEY_SIZE && enc.Holds(key)
    requires mixed.Length == 16 && mixed != out && written + 16 <= out.Length
    modifies mixed, out
    ensures mixed[..] == Aes256.EncryptBlock(key, old(mixed[..]))
    ensures out[..written + 16] == old(out[..written]) + mixed[..] && out[written + 16..] == old(out[written + 16..])
  {
    hide Aes256.EncryptBlock;
    var c := enc.Encrypt(mixed[..], key);
    CopyOut(out, written, c);
    CopyOut(mixed, 0, c);
    assert out[..written + 16] == old(out[..written]) + c;
    assert mixed[..] == c;
  }

  /** What is left of the data, less than a block, and its padding. */
  method MixPadding(mixed: array<Byte>, data: seq<Byte>, at: nat)
    requires mixed.Length == 16 && at <= |data| < at + 16 && at % 16 == 0
    modifies mixed
    ensures |Pad(data)| == at + 16
    ensures mixed[..] == AddBlock(old(mixed[..]), Pad(data)[at..])
  {
    var padsize := |data| % 16;
    PadsFromRest(data, at);
    MixIn(mixed, data, at, padsize);
    var value := Byte((16 - padsize) as bv8);
    hide Sum;
    ghost var before := mixed[..];
    for i := padsize to 16
      invariant forall j :: 0 <= j < 16 ==> mixed[j] == if padsize <= j < i then Sum(before[j], value) else before[j]
    {
      mixed[i] := Sum(mixed[i], value);
    }
  }

  lemma PadsFromRest(data: seq<Byte>, at: nat)
    requires at <= |data| < at + 16 && at % 16 == 0
    ensures |data| % 16 == |data| - at && |Pad(data)| == at + 16
    ensures forall j :: 0 <= j < 16 ==>
      Pad(data)[at..][j] == if j < |data| - at then data[at + j] else Byte((16 - (|data| - at)) as bv8)
  {
    Numbers.DivModUnique(|data|, 16, at / 16, |data| - at);
    assert PadLength(|data|) == 16 - (|data| - at);
  }

  /** The output so far, and what chaining the rest from the mixed block will add. */
  ghost predicate Written(total: seq<Byte>, key: seq<Byte>, mixed: Block, rest: seq<Byte>, done: seq<Byte>)
    requires |key| == Aes256.KEY_SIZE && |rest| % 16 == 0
  {
    total == done + Chain(key, mixed, rest)
  }

  lemma OneMoreBlock(total: seq<Byte>, key: seq<Byte>, mixed: Block, rest: seq<Byte>, done: seq<Byte>, c: Block)
    requires |key| == Aes256.KEY_SIZE && |rest| % 16 == 0 && |rest| > 0
    requires Written(total, key, mixed, rest, done)
    requires c == Aes256.EncryptBlock(key, AddBlock(mixed, rest[..16]))
    ensures Written(total, key, c, rest[16..], done + c)
  {
    ChainStep(key, mixed, rest);
    hide Aes256.EncryptBlock, AddBlock, Chain;
    assert done + (c + Chain(key, c, rest[16..])) == (done + c) + Chain(key, c, rest[16..]);
  }

  /** All blocks that the data fills. */
  method ChainBlocks(enc: Aes256.Context, mixed: array<Byte>, data: seq<Byte>, out: array<Byte>,
      ghost whole: seq<Byte>, ghost total: seq<Byte>, ghost key: seq<Byte>)
    returns (written: nat)
    requires |key| == Aes256.KEY_SIZE && enc.Holds(key) && mixed.Length == 16 && mixed != out
    requires data <= whole && |whole| % 16 == 0 && |whole| <= out.Length
    requires Written(total, key, mixed[..], whole, [])
    modifies mixed, out
    ensures written % 16 == 0 && written <= |data| < written + 16
    ensures Written(total, key, mixed[..], whole[written..], out[..written])
    ensures out[written..] == old(out[written..])
  {
    hide Aes256.EncryptBlock, AddBlock, Written;
    written := 0;
    assert out[..0] == [] && whole[0..] == whole;
    while written + 16 <= |data|
      invariant written % 16 == 0 && written <= |data| && enc.Holds(key)
      invariant Written(total, key, mixed[..], whole[written..], out[..written])
      invariant out[written..] == old(out[written..])
    {
      assert whole[written..][..16] == data[written..written + 16];
      ghost var prev, done := mixed[..], out[..written];
      MixBlockIn(mixed, data, written);
      EncryptMixed(enc, mixed, out, written, key);
      OneMoreBlock(total, key, prev, whole[written..], done, mixed[..]);
      assert whole[written..][16..] == whole[written + 16..];
      written := written + 16;
    }
  }

  /** The last block, of what is left and its padding. */
  method PadBlock(enc: Aes256.Context, mixed: array<Byte>, data: seq<Byte>, out: array<Byte>, at: nat,
      ghost whole: seq<Byte>, ghost total: seq<Byte>, ghost key: seq<Byte>)
    returns (written: nat)
    requires |key| == Aes256.KEY_SIZE && enc.Holds(key) && mixed.Length == 16 && mixed != out
    requires at % 16 == 0 && at <= |data| < at + 16 <= out.Length && whole == Pad(data) && |whole| == at + 16
    requires Written(total, key, mixed[..], whole[at..], out[..at])
    modifies mixed, out
    ensures written == at + 16 <= out.Length && out[..written] == total && out[written..] == old(out[at + 16..])
  {
    hide Aes256.EncryptBlock, AddBlock, Written, Pad;
    ghost var prev, done := mixed[..], out[..at];
    MixPadding(mixed, data, at);
    ghost var rest := whole[at..];
    assert rest[..16] == rest && rest[16..] == [];
    EncryptMixed(enc, mixed, out, at, key);
    OneMoreBlock(total, key, prev, rest, done, mixed[..]);
    written := at + 16;
    AllWritten(total, key, mixed[..], [], out[..written]);
  }

  lemma NothingWritten(key: seq<Byte>, iv: Block, data: seq<Byte>, pad: bool, whole: seq<Byte>)
    requires |key| == Aes256.KEY_SIZE && data != [] && (pad || |data| % 16 == 0)
    requires whole == if pad then Pad(data) else data
    ensures data <= whole && |whole| % 16 == 0 && |Sealed(key, iv, data, pad)| == |whole|
    ensures Written(Sealed(key, iv, data, pad), key, iv, whole, [])
  {
    hide Chain;
  }

  /** CBC encryption: the sealed data in front, the rest of the output untouched. */
  method CBCEncrypt(enc: Aes256.Context, iv: Block, data: seq<Byte>, pad: bool, out: array<Byte>, ghost key: seq<Byte>)
    returns (written: nat)
    requires |key| == Aes256.KEY_SIZE && enc.Holds(key) && out.Length >= |Sealed(key, iv, data, pad)|
    modifies out
    ensures written == |Sealed(key, iv, data, pad)|
    ensures out[..] == Sealed(key, iv, data, pad) + old(out[written..])
  {
    hide Aes256.EncryptBlock, AddBlock, Written, Sealed, Pad, Aes256.Context.Holds;
    var padsize := |data| % 16;
    if |data| == 0 {
      NothingSealed(key, iv, data, pad);
      return 0;
    }
    if !pad && padsize != 0 {
      NothingSealed(key, iv, data, pad);
      return 0;
    }
    ghost var whole := if pad then Pad(data) else data;
    ghost var total := Sealed(key, iv, data, pad);
    var mixed := CopyIn(iv);
    NothingWritten(key, iv, data, pad, whole);
    written := ChainBlocks(enc, mixed, data, out, whole, total, key);
    if pad {
      PadsFromRest(data, written);
      written := PadBlock(enc, mixed, data, out, written, whole, total, key);
    } else {
      AllWritten(total, key, mixed[..], whole[written..], out[..written]);
    }
    assert out[..] == out[..written] + out[written..];
  }

  method CopyIn(block: Block) returns (a: array<Byte>)
    ensures fresh(a) && a.Length == 16 && a[..] == block
  {
    a := new Byte[16](i requires 0 <= i < 16 => block[i]);
  }

  lemma NothingSealed(key: seq<Byte>, iv: Block, data: seq<Byte>, pad: bool)
    requires |key| == Aes256.KEY_SIZE && (data == [] || (!pad && |data| % 16 != 0))
    ensures Sealed(key, iv, data, pad) == []
  {}

  lemma AllWritten(total: seq<Byte>, key: seq<Byte>, mixed: Block, rest: seq<Byte>, done: seq<Byte>)
    requires |key| == Aes256.KEY_SIZE && rest == [] && Written(total, key, mixed, rest, done)
    ensures total == done
  {}

  method MixBlockIn(mixed: array<Byte>, data: seq<Byte>, at: nat)
    requires mixed.Length == 16 && at + 16 <= |data|
    modifies mixed
    ensures mixed[..] == AddBlock(old(mixed[..]), data[at..at + 16])
  {
    hide Sum;
    MixIn(mixed, data, at, 16);
  }

  /** Of the decrypted bytes, how many the caller gets. */
  function PlainLength(plain: seq<Byte>, pad: bool): nat {
    if !pad then |plain| else if WellPadded(plain) then |Unpad(plain)| else 0
  }

  /** The padding is judged by its last byte and every byte it covers is looked at. */
  method CheckPadding(out: array<Byte>, size: nat) returns (padsize: nat, fail: bool)
    requires 16 <= size <= out.Length
    ensures !fail == WellPadded(out[..size])
    ensures padsize <= size && (!fail ==> padsize == size - |Unpad(out[..size])|)
  {
    var o: int := size - 1;
    padsize := out[o].v as nat;
    fail := padsize == 0 || padsize > 16;
    ghost var last := padsize;
    padsize := if fail then 0 else padsize;
    var i := 16;
    while i != 0
      invariant 0 <= i <= 16 && o == size - 17 + i
      invariant padsize == (if 1 <= last <= 16 then last else 0)
      invariant !fail == (1 <= last <= 16 &&
        (forall j :: size - 16 + i <= j < size && j >= size - padsize ==> out[j].v as nat == padsize))
      decreases i
    {
      fail := fail || (i > 16 - padsize && out[o].v as nat != padsize);
      o := o - 1;
      i := i - 1;
    }
  }

  method CBCDecrypt(dec: Aes256.Context, iv: Block, data: seq<Byte>, pad: bool, out: array<Byte>, ghost key: seq<Byte>)
    returns (written: nat)
    requires |key| == Aes256.KEY_SIZE && dec.Holds(key) && out.Length >= |data|
    modifies out
    ensures |data| % 16 != 0 || data == [] ==> written == 0 && out[..] == old(out[..])
    ensures |data| % 16 == 0 ==> out[..] == Unchain(key, iv, data) + old(out[|data|..])
    ensures |data| % 16 == 0 ==> written == PlainLength(Unchain(key, iv, data), pad)
  {
    hide Unchain, WellPadded, Unpad, Aes256.Context.Holds;
    if |data| == 0 {
      NothingUnchained(key, iv);
      return 0;
    }
    if |data| % 16 != 0 {
      return 0;
    }
    UnchainBlocks(dec, iv, data, out, key);
    written := |data|;
    assert out[..written] == Unchain(key, iv, data);
    if pad {
      var padsize, fail := CheckPadding(out, written);
      written := if fail then 0 else written - padsize;
    }
  }

  lemma NothingUnchained(key: seq<Byte>, iv: Block)
    requires |key| == Aes256.KEY_SIZE
    ensures Unchain(key, iv, []) == [] && !WellPadded([])
  {}

  /** Block by block, each decrypted and the previous ciphertext block added. */
  method UnchainBlocks(dec: Aes256.Context, iv: Block, data: seq<Byte>, out: array<Byte>, ghost key: seq<Byte>)
    requires |key| == Aes256.KEY_SIZE && dec.Holds(key) && out.Length >= |data| && |data| % 16 == 0
    modifies out
    ensures out[..] == Unchain(key, iv, data) + old(out[|data|..])
  {
    hide Unchain, Aes256.DecryptBlock, AddBlock;
    var written := 0;
    var prev: Block := iv;
    assert data[0..] == data && out[..0] == [];
    while written != |data|
      invariant written <= |data| && written % 16 == 0 && dec.Holds(key)
      invariant Unchain(key, iv, data) == out[..written] + Unchain(key, prev, data[written..])
      invariant out[written..] == old(out[written..])
    {
      ghost var done, rest := out[..written], data[written..];
      var block := data[written..written + 16];
      UnchainNext(key, prev, done, rest);
      assert rest[..16] == block && rest[16..] == data[written + 16..];
      SameLater(out[..], old(out[..]), written);
      UnchainBlock(dec, block, prev, out, written, key);
      prev := block;
      written := written + 16;
    }
    assert data[written..] == [];
    NothingUnchained(key, prev);
    assert out[..] == out[..written] + out[written..];
  }

  lemma SameLater(s: seq<Byte>, t: seq<Byte>, k: nat)
    requires |s| == |t| && k + 16 <= |s| && s[k..] == t[k..]
    ensures s[k + 16..] == t[k + 16..]
  {
    assert s[k..][16..] == s[k + 16..] && t[k..][16..] == t[k + 16..];
  }

  /** One block, added to what is written so far. */
  method UnchainBlock(dec: Aes256.Context, block: Block, prev: Block, out: array<Byte>, at: nat, ghost key: seq<Byte>)
    requires |key| == Aes256.KEY_SIZE && dec.Holds(key) && at + 16 <= out.Length
    modifies out
    ensures out[..at + 16] == old(out[..at]) + AddBlock(Aes256.DecryptBlock(key, block), prev)
    ensures out[at + 16..] == old(out[at + 16..])
  {
    hide Aes256.DecryptBlock, AddBlock;
    var plain := dec.Decrypt(block, key);
    CopyOut(out, at, plain);
    XorOut(out, at, prev);
    assert out[..at + 16] == out[..at] + out[at..at + 16];
  }

  lemma UnchainNext(key: seq<Byte>, iv: Block, done: seq<Byte>, data: seq<Byte>)
    requires |key| == Aes256.KEY_SIZE && |data| % 16 == 0 && |data| > 0
    ensures done + Unchain(key, iv, data) ==
      done + AddBlock(Aes256.DecryptBlock(key, data[..16]), iv) + Unchain(key, data[..16], data[16..])
  {
    hide Unchain, Aes256.DecryptBlock, AddBlock;
    UnchainStep(key, iv, data);
  }

  lemma UnchainStep(key: seq<Byte>, iv: Block, data: seq<Byte>)
    requires |key| == Aes256.KEY_SIZE && |data| % 16 == 0 && |data| > 0
    ensures Unchain(key, iv, data) ==
      AddBlock(Aes256.DecryptBlock(key, data[..16]), iv) + Unchain(key, data[..16], data[16..])
  {}

  method XorOut(out: array<Byte>, at: nat, prev: Block)
    requires at + 16 <= out.Length
    modifies out
    ensures out[..at] == old(out[..at]) && out[at + 16..] == old(out[at + 16..])
    ensures out[at..at + 16] == AddBlock(old(out[at..at + 16]), prev)
  {
    hide Sum;
    for i := 0 to 16
      invariant out[..at] == old(out[..at]) && out[at + 16..] == old(out[at + 16..])
      invariant forall j :: at <= j < at + 16 ==> out[j] == if j < at + i then Sum(old(out[j]), prev[j - at]) else old(out[j])
    {
      out[at + i] := Sum(out[at + i], prev[i]);
    }
  }

  // --- The two directions, block by block

  /** Each block of the message is added to the ciphertext block before it, the first one to the
  iv in front of them, and encrypted. With padding the message ends in as many bytes as are missing
  to a full block, at least one, of that value. */
  lemma SealedBlocks(key: seq<Byte>, iv: Block, data: seq<Byte>, pad: bool) returns (ms: seq<Block>, cs: seq<Block>)
    requires |key| == 32
    ensures |cs| == |ms| + 1 && cs[0] == iv
    ensures
      var out, n := Sealed(key, iv, data, pad), |data|;
      if n == 0 || (!pad && n % 16 != 0) then out == [] && ms == []
      else
        && |out| == 16 * |ms| == n + (if pad then 16 - n % 16 else 0)
        && (forall j :: 0 <= j < |out| ==> out[j] == cs[j / 16 + 1][j % 16])
        && (forall j :: 0 <= j < n ==> data[j] == ms[j / 16][j % 16])
        && (forall j :: n <= j < |out| ==> ms[j / 16][j % 16].v as nat == 16 - n % 16)
    ensures forall i :: 0 <= i < |ms| ==> cs[i + 1] == Aes256.EncryptBlock(key, AddBlock(cs[i], ms[i]))
  {
    PaddedMeans(data);
    hide Chain, AddBlock, Aes256.EncryptBlock, Pad;
    ms, cs := [], [iv];
    if data != [] && (pad || |data| % 16 == 0) {
      var whole := if pad then Pad(data) else data;
      ms, cs := ChainBlocksOf(key, iv, whole);
      assert forall j :: 0 <= j < |data| ==> whole[j] == data[j];
    }
  }

  lemma PaddedMeans(data: seq<Byte>)
    ensures
      var padded, n := Pad(data), |data|;
      && |padded| == n + (16 - n % 16) && (forall j :: 0 <= j < n ==> padded[j] == data[j])
      && (forall j :: n <= j < |padded| ==> padded[j].v as nat == 16 - n % 16)
  {
    PadByte(PadLength(|data|));
  }

  lemma {:induction false} ChainBlocksOf(key: seq<Byte>, iv: Block, data: seq<Byte>) returns (ms: seq<Block>, cs: seq<Block>)
    requires |key| == 32 && |data| % 16 == 0
    ensures 16 * |ms| == |data| && |cs| == |ms| + 1 && cs[0] == iv
    ensures forall j :: 0 <= j < |data| ==> data[j] == ms[j / 16][j % 16]
    ensures forall j :: 0 <= j < |data| ==> Chain(key, iv, data)[j] == cs[j / 16 + 1][j % 16]
    ensures forall i :: 0 <= i < |ms| ==> cs[i + 1] == Aes256.EncryptBlock(key, AddBlock(cs[i], ms[i]))
    decreases |data|
  {
    hide Aes256.EncryptBlock, AddBlock;
    if data == [] {
      ms, cs := [], [iv];
    } else {
      var m: Block := data[..16];
      var c: Block := Aes256.EncryptBlock(key, AddBlock(iv, m));
      var ms', cs' := ChainBlocksOf(key, c, data[16..]);
      ChainStep(key, iv, data);
      assert m + data[16..] == data;
      BlocksInFront(m, data[16..], ms');
      BlocksInFront(c, Chain(key, c, data[16..]), cs'[1..]);
      assert [c] + cs'[1..] == cs';
      ms, cs := [m] + ms', [iv] + cs';
    }
  }

  lemma BlocksInFront(b: Block, rest: seq<Byte>, bs: seq<Block>)
    requires 16 * |bs| == |rest| && forall j :: 0 <= j < |rest| ==> bs[j / 16][j % 16] == rest[j]
    ensures forall j :: 0 <= j < 16 + |rest| ==> ([b] + bs)[j / 16][j % 16] == (b + rest)[j]
  {
    forall j | 0 <= j < 16 + |rest| ensures ([b] + bs)[j / 16][j % 16] == (b + rest)[j] {
      if j >= 16 { assert rest[j - 16] == bs[(j - 16) / 16][(j - 16) % 16]; }
    }
  }

  /** Each block of the ciphertext is decrypted and added to the one before it, the first one to
  the iv in front of them. */
  lemma {:induction false} UnchainedBlocks(key: seq<Byte>, iv: Block, data: seq<Byte>) returns (cs: seq<Block>, ms: seq<Block>)
    requires |key| == 32 && |data| % 16 == 0
    ensures 16 * |ms| == |data| && |cs| == |ms| + 1 && cs[0] == iv
    ensures forall j :: 0 <= j < |data| ==> data[j] == cs[j / 16 + 1][j % 16]
    ensures forall j :: 0 <= j < |data| ==> Unchain(key, iv, data)[j] == ms[j / 16][j % 16]
    ensures forall i :: 0 <= i < |ms| ==> ms[i] == AddBlock(Aes256.DecryptBlock(key, cs[i + 1]), cs[i])
    decreases |data|
  {
    hide Aes256.DecryptBlock, AddBlock;
    if data == [] {
      cs, ms := [iv], [];
    } else {
      var c: Block := data[..16];
      var m: Block := AddBlock(Aes256.DecryptBlock(key, c), iv);
      var cs', ms' := UnchainedBlocks(key, c, data[16..]);
      UnchainStep(key, iv, data);
      assert c + data[16..] == data;
      BlocksInFront(c, data[16..], cs'[1..]);
      BlocksInFront(m, Unchain(key, c, data[16..]), ms');
      assert [c] + cs'[1..] == cs';
      cs, ms := [iv] + cs', [m] + ms';
    }
  }

  /** What is left without the padding: p bytes of value p at the end, or nothing. */
  lemma PlainLengthMeans(plain: seq<Byte>, p: nat)
    requires plain != [] && p == plain[|plain| - 1].v as nat
    ensures PlainLength(plain, false) == |plain|
    ensures PlainLength(plain, true) ==
      if 1 <= p <= 16 && p <= |plain| && (forall i :: |plain| - p <= i < |plain| ==> plain[i].v as nat == p)
      then |plain| - p else 0
  {
    forall i | 0 <= i < |plain| ensures plain[i].v as nat == p <==> plain[i] == plain[|plain| - 1] {
      ByteOfNat(plain[i]);
      ByteOfNat(plain[|plain| - 1]);
    }
  }

  // --- What the two directions promise each other

  /** Whatever was sealed with padding opens to the same data. */
  lemma OpensSealed(key: seq<Byte>, iv: Block, data: seq<Byte>)
    requires |key| == Aes256.KEY_SIZE && data != []
    ensures |Sealed(key, iv, data, true)| % 16 == 0
    ensures
      var plain := Unchain(key, iv, Sealed(key, iv, data, true));
      plain == Pad(data) && PlainLength(plain, true) == |data| && plain[..|data|] == data
  {
    hide Chain, Unchain, Unpad, WellPadded;
    UnchainChain(key, iv, Pad(data));
    UnpadPad(data);
    assert Pad(data)[..|data|] == data;
  }

  /** And whatever opens with padding to something is what sealing it again gives. */
  lemma SealsOpened(key: seq<Byte>, iv: Block, cipher: seq<Byte>)
    requires |key| == Aes256.KEY_SIZE && |cipher| % 16 == 0
    requires PlainLength(Unchain(key, iv, cipher), true) > 0
    ensures
      var plain := Unchain(key, iv, cipher);
      var n := PlainLength(plain, true);
      n <= |plain| && Sealed(key, iv, plain[..n], true) == cipher
  {
    hide Chain, Unchain;
    var plain := Unchain(key, iv, cipher);
    PadUnpad(plain);
    ChainUnchain(key, iv, cipher);
  }
}
