/** The two string helpers around AES-256 in CBC mode. */
module KeyTools {
  import opened AesBytes
  import opened AesCbc
  import opened AesState
  import Aes256

  /** A string cut or filled up with zero bytes to n characters. */
  function Resize(s: seq<Byte>, n: nat): (r: seq<Byte>)
    ensures |r| == n && forall i :: 0 <= i < n ==> r[i] == if i < |s| then s[i] else Byte(0)
  {
    if n <= |s| then s[..n] else s + seq(n - |s|, i => Byte(0))
  }

  /** The key that is really used, whatever length was given. */
  function KeyUsed(key: seq<Byte>): seq<Byte> {
    Resize(key, Aes256.KEY_SIZE)
  }

  /** The room made for n bytes and their padding. */
  function Room(n: nat): nat {
    n + 16 - (n + 16) % 16
  }

  lemma RoomIsPadded(data: seq<Byte>)
    ensures Room(|data|) == |Pad(data)|
  {}

  /** What decoding recovers, if anything. */
  function Opened(key: seq<Byte>, iv: Block, data: seq<Byte>): (plain: seq<Byte>)
    requires |key| == Aes256.KEY_SIZE
  {
    if |data| % 16 != 0 then []
    else
      var plain := Unchain(key, iv, data);
      if WellPadded(plain) then Unpad(plain) else []
  }

  method AesEncode(key: seq<Byte>, iv: seq<Byte>, data: seq<Byte>, before: seq<Byte>) returns (ok: bool, out: seq<Byte>)
    ensures |iv| != 16 ==> !ok && out == before
    ensures |iv| == 16 ==> ok == (data != [])
    ensures |iv| == 16 && data != [] ==> out == Sealed(KeyUsed(key), iv, data, true)
    ensures |iv| == 16 && data == [] ==> out == Resize(before, 16)
  {
    hide Sealed, Aes256.Context.Holds;
    var keyUse := key;
    if |iv| != 16 {
      return false, before;
    }
    if |keyUse| != Aes256.KEY_SIZE {
      keyUse := Resize(keyUse, Aes256.KEY_SIZE);
    }
    assert keyUse == KeyUsed(key);
    out := Resize(before, Room(|data|));
    var enc := new Aes256.Context(keyUse);
    var buffer := new Byte[|out|](i requires 0 <= i < |out| => out[i]);
    assert buffer[..] == out;
    SealedLength(keyUse, iv, data);
    var len := CBCEncrypt(enc, iv, data, true, buffer, keyUse);
    out := buffer[..];
    ok := len == |out|;
  }

  lemma SealedLength(key: seq<Byte>, iv: Block, data: seq<Byte>)
    requires |key| == Aes256.KEY_SIZE
    ensures |Sealed(key, iv, data, true)| == if data == [] then 0 else Room(|data|)
    ensures data == [] ==> Room(|data|) == 16
  {
    RoomIsPadded(data);
  }

  method AesDecode(key: seq<Byte>, iv: seq<Byte>, data: seq<Byte>, before: seq<Byte>) returns (ok: bool, out: seq<Byte>)
    ensures |iv| != 16 ==> !ok && out == Resize(before, Room(|data|))
    ensures |iv| == 16 ==> out == Opened(KeyUsed(key), iv, data) && ok == (out != [])
  {
    hide Unchain, WellPadded, Unpad, Aes256.Context.Holds;
    out := Resize(before, Room(|data|));
    var keyUse := key;
    if |iv| != 16 {
      return false, out;
    }
    if |keyUse| != Aes256.KEY_SIZE {
      keyUse := Resize(keyUse, Aes256.KEY_SIZE);
    }
    assert keyUse == KeyUsed(key);
    var dec := new Aes256.Context(keyUse);
    var buffer := new Byte[|out|](i requires 0 <= i < |out| => out[i]);
    var len := CBCDecrypt(dec, iv, data, true, buffer, keyUse);
    OpenedPrefix(keyUse, iv, data);
    out := buffer[..len];
    if len == 0 {
      return false, out;
    }
    ok := true;
  }

  lemma OpenedPrefix(key: seq<Byte>, iv: Block, data: seq<Byte>)
    requires |key| == Aes256.KEY_SIZE
    ensures |data| % 16 == 0 ==>
      var plain := Unchain(key, iv, data);
      var n := PlainLength(plain, true);
      n <= |plain| && Opened(key, iv, data) == plain[..n]
    ensures data == [] ==> Opened(key, iv, data) == []
  {
    hide Unchain;
    NothingUnchained(key, iv);
  }

  /** Decoding undoes encoding, for every message that is not empty. */
  lemma DecodesEncoded(key: seq<Byte>, iv: Block, data: seq<Byte>)
    requires data != []
    ensures Opened(KeyUsed(key), iv, Sealed(KeyUsed(key), iv, data, true)) == data
  {
    hide Sealed, Unchain;
    OpensSealed(KeyUsed(key), iv, data);
  }

  /** And whatever decodes to something is what encoding gives back. */
  lemma EncodesDecoded(key: seq<Byte>, iv: Block, data: seq<Byte>)
    requires Opened(KeyUsed(key), iv, data) != []
    ensures Sealed(KeyUsed(key), iv, Opened(KeyUsed(key), iv, data), true) == data
  {
    hide Sealed, Unchain;
    SealsOpened(KeyUsed(key), iv, data);
  }
}
