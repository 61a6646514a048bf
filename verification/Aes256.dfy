/** AES-256 with its key schedule kept in a context object. */
module Aes256 {
  import opened AesWords
  import opened AesBytes
  import opened AesState
  import opened AesCipher
  import opened AesKeySchedule

  const KEY_SIZE: nat := 32
  const BLOCK_SIZE: nat := 16

  /** The fifteen round keys of a 32-byte key. */
  function RoundKeys(key: seq<Byte>): (keys: seq<Block>)
    requires |key| == KEY_SIZE
    ensures |keys| == 15
  {
    seq(15, n requires 0 <= n <= 14 => RoundKey(key, 8, n))
  }

  function EncryptBlock(key: seq<Byte>, b: Block): Block
    requires |key| == KEY_SIZE
  {
    Cipher(b, RoundKeys(key))
  }

  function DecryptBlock(key: seq<Byte>, b: Block): Block
    requires |key| == KEY_SIZE
  {
    InvCipher(b, RoundKeys(key))
  }

  lemma BlockRoundTrip(key: seq<Byte>, b: Block)
    requires |key| == KEY_SIZE
    ensures DecryptBlock(key, EncryptBlock(key, b)) == b
    ensures EncryptBlock(key, DecryptBlock(key, b)) == b
  {
    DecryptsEncrypted(b, RoundKeys(key));
    EncryptsDecrypted(b, RoundKeys(key));
  }

  class Context {
    const rounds: seq<array<Word>>

    /** The schedule held here is the one of this key. */
    ghost predicate Holds(key: seq<Byte>)
      requires |key| == KEY_SIZE
      reads this, rounds
    {
      |rounds| == 15 && Schedule(rounds) && Keys(rounds) == RoundKeys(key)
    }

    constructor (key: seq<Byte>)
      requires |key| == KEY_SIZE
      ensures Holds(key) && fresh(rounds)
    {
      var states := NewStates(15);
      rounds := states;
      new;
      ghost var words := Setup(rounds, key, 8, 14);
    }

    method Encrypt(plain: seq<Byte>, ghost key: seq<Byte>) returns (cipher: seq<Byte>)
      requires |key| == KEY_SIZE && Holds(key) && |plain| == BLOCK_SIZE
      ensures cipher == EncryptBlock(key, plain)
    {
      ghost var states;
      cipher, states := AesCipher.Encrypt(rounds, 14, plain);
    }

    method Decrypt(cipher: seq<Byte>, ghost key: seq<Byte>) returns (plain: seq<Byte>)
      requires |key| == KEY_SIZE && Holds(key) && |cipher| == BLOCK_SIZE
      ensures plain == DecryptBlock(key, cipher)
    {
      ghost var states;
      plain, states := AesCipher.Decrypt(rounds, 14, cipher);
    }
  }

  /** n states of eight slices, no two the same object. */
  method NewStates(n: nat) returns (states: seq<array<Word>>)
    ensures |states| == n && Separate(states) && fresh(states)
  {
    states := [];
    while |states| < n
      invariant |states| <= n && Separate(states) && fresh(states)
    {
      var s := new Word[8](i => Word(0));
      states := states + [s];
    }
  }
}
