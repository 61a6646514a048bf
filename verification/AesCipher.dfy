/** AES encryption and decryption of one block under an array of round keys. */
module AesCipher {
  import opened AesWords
  import opened AesBytes
  import opened AesState
  import opened AesRounds
  import opened AesLoad
  import opened AesMix

  /** The state after the first n rounds of section 5.1 of FIPS 197. */
  function Rounds(b: Block, keys: seq<Block>, n: nat): Block
    requires n < |keys|
  {
    if n == 0 then AddBlock(b, keys[0])
    else AddBlock(MixBlock(ShiftBlock(SubBlock(Rounds(b, keys, n - 1), false), false), false), keys[n])
  }

  /** The cipher of section 5.1 of FIPS 197, on bytes in message order. */
  function Cipher(plain: Block, keys: seq<Block>): Block
    requires |keys| >= 2
  {
    var n := |keys| - 1;
    Transposed(AddBlock(ShiftBlock(SubBlock(Rounds(Transposed(plain), keys, n - 1), false), false), keys[n]))
  }

  /** Undoing n rounds as in section 5.3 of FIPS 197, the last one first. */
  function Unrounds(b: Block, keys: seq<Block>, n: nat): Block
    requires n < |keys|
    decreases n
  {
    if n == 0 then AddBlock(b, keys[0])
    else Unrounds(SubBlock(ShiftBlock(MixBlock(AddBlock(b, keys[n]), true), true), true), keys, n - 1)
  }

  function InvCipher(cipher: Block, keys: seq<Block>): Block
    requires |keys| >= 2
  {
    var n := |keys| - 1;
    Transposed(Unrounds(SubBlock(ShiftBlock(AddBlock(Transposed(cipher), keys[n]), true), true), keys, n - 1))
  }

  lemma {:induction false} RoundsUndone(b: Block, keys: seq<Block>, n: nat)
    requires n < |keys|
    ensures Unrounds(Rounds(b, keys, n), keys, n) == b
    decreases n
  {
    hide AddBlock, MixBlock, ShiftBlock, SubBlock;
    if n == 0 {
      AddUndone(b, keys[0]);
    } else {
      var before := Rounds(b, keys, n - 1);
      AddUndone(MixBlock(ShiftBlock(SubBlock(before, false), false), false), keys[n]);
      MixUndone(ShiftBlock(SubBlock(before, false), false), false);
      ShiftUndone(SubBlock(before, false), false);
      SubUndone(before, false);
      RoundsUndone(b, keys, n - 1);
    }
  }

  lemma {:induction false} UnroundsUndone(b: Block, keys: seq<Block>, n: nat)
    requires n < |keys|
    ensures Rounds(Unrounds(b, keys, n), keys, n) == b
    decreases n
  {
    hide AddBlock, MixBlock, ShiftBlock, SubBlock;
    if n == 0 {
      AddUndone(b, keys[0]);
    } else {
      var unmixed := MixBlock(AddBlock(b, keys[n]), true);
      var before := SubBlock(ShiftBlock(unmixed, true), true);
      UnroundsUndone(before, keys, n - 1);
      SubUndone(ShiftBlock(unmixed, true), true);
      ShiftUndone(unmixed, true);
      MixUndone(AddBlock(b, keys[n]), true);
      AddUndone(b, keys[n]);
    }
  }

  /** Decryption undoes encryption, for every block, all round keys and any number of rounds. */
  lemma DecryptsEncrypted(plain: Block, keys: seq<Block>)
    requires |keys| >= 2
    ensures InvCipher(Cipher(plain, keys), keys) == plain
  {
    hide AddBlock, ShiftBlock, SubBlock, Transposed, Rounds, Unrounds;
    var n := |keys| - 1;
    var last := Rounds(Transposed(plain), keys, n - 1);
    var shifted := ShiftBlock(SubBlock(last, false), false);
    TransposedTwice(AddBlock(shifted, keys[n]));
    AddUndone(shifted, keys[n]);
    ShiftUndone(SubBlock(last, false), false);
    SubUndone(last, false);
    RoundsUndone(Transposed(plain), keys, n - 1);
    TransposedTwice(plain);
  }

  lemma EncryptsDecrypted(cipher: Block, keys: seq<Block>)
    requires |keys| >= 2
    ensures Cipher(InvCipher(cipher, keys), keys) == cipher
  {
    hide AddBlock, ShiftBlock, SubBlock, Transposed, Rounds, Unrounds;
    var n := |keys| - 1;
    var added := AddBlock(Transposed(cipher), keys[n]);
    var last := SubBlock(ShiftBlock(added, true), true);
    TransposedTwice(Unrounds(last, keys, n - 1));
    UnroundsUndone(last, keys, n - 1);
    SubUndone(ShiftBlock(added, true), true);
    ShiftUndone(added, true);
    AddUndone(Transposed(cipher), keys[n]);
    TransposedTwice(cipher);
  }

  /** A change of the last round key changes the ciphertext by exactly that much. */
  lemma LastKeyAdded(plain: Block, keys: seq<Block>, key: Block)
    requires |keys| >= 2
    ensures AddBlock(Cipher(plain, keys), Cipher(plain, keys[|keys| - 1 := key]))
            == Transposed(AddBlock(keys[|keys| - 1], key))
  {
    hide Rounds, SubBlock, ShiftBlock, Sum;
    var n := |keys| - 1;
    EarlierKeys(Transposed(plain), keys, keys[n := key], n - 1);
    var shifted := ShiftBlock(SubBlock(Rounds(Transposed(plain), keys, n - 1), false), false);
    forall i | 0 <= i < 16
      ensures AddBlock(Cipher(plain, keys), Cipher(plain, keys[n := key]))[i]
              == Transposed(AddBlock(keys[n], key))[i]
    {
      var j := 4 * (i % 4) + i / 4;
      Medial(shifted[j], keys[n][j], shifted[j], key[j]);
      Doubled(shifted[j], Sum(keys[n][j], key[j]));
    }
  }

  lemma {:induction false} EarlierKeys(b: Block, keys: seq<Block>, others: seq<Block>, n: nat)
    requires n < |keys| && n < |others| && keys[..n + 1] == others[..n + 1]
    ensures Rounds(b, keys, n) == Rounds(b, others, n)
    decreases n
  {
    hide AddBlock, MixBlock, ShiftBlock, SubBlock;
    assert keys[n] == keys[..n + 1][n] == others[n];
    if n > 0 {
      assert keys[..n] == keys[..n + 1][..n] && others[..n] == others[..n + 1][..n];
      EarlierKeys(b, keys, others, n - 1);
    }
  }

  /** One round without its key, byte by byte, in column c of the state. */
  lemma RoundColumn(b: Block, c: nat)
    requires c < 4
    ensures
      var p, q, r, s := Sub(b[c]), Sub(b[4 + (c + 1) % 4]), Sub(b[8 + (c + 2) % 4]), Sub(b[12 + (c + 3) % 4]);
      var t := MixBlock(ShiftBlock(SubBlock(b, false), false), false);
      && t[c] == Sum(Sum(Sum(Times(p, 0x02), Times(q, 0x03)), r), s)
      && t[4 + c] == Sum(Sum(Sum(Times(q, 0x02), Times(r, 0x03)), s), p)
      && t[8 + c] == Sum(Sum(Sum(Times(r, 0x02), Times(s, 0x03)), p), q)
      && t[12 + c] == Sum(Sum(Sum(Times(s, 0x02), Times(p, 0x03)), q), r)
  {
    hide Sub, Sum, Times, Mixed, ShiftBlock, SubBlock, MixBlock;
    ShiftedByte(b, 0, c);
    ShiftedByte(b, 1, c);
    ShiftedByte(b, 2, c);
    ShiftedByte(b, 3, c);
    MixedColumn(ShiftBlock(SubBlock(b, false), false), c);
    var p, q, r, s := Sub(b[c]), Sub(b[4 + (c + 1) % 4]), Sub(b[8 + (c + 2) % 4]), Sub(b[12 + (c + 3) % 4]);
    MixedIs(p, q, r, s);
    MixedIs(q, r, s, p);
    MixedIs(r, s, p, q);
    MixedIs(s, p, q, r);
  }

  lemma MixedIs(p: Byte, q: Byte, r: Byte, s: Byte)
    ensures Mixed(p, q, r, s) == Sum(Sum(Sum(Times(p, 0x02), Times(q, 0x03)), r), s)
  {
    hide Sum, Times;
  }

  lemma MixedColumn(s: Block, c: nat)
    requires c < 4
    ensures
      var t := MixBlock(s, false);
      && t[c] == Mixed(s[c], s[4 + c], s[8 + c], s[12 + c])
      && t[4 + c] == Mixed(s[4 + c], s[8 + c], s[12 + c], s[c])
      && t[8 + c] == Mixed(s[8 + c], s[12 + c], s[c], s[4 + c])
      && t[12 + c] == Mixed(s[12 + c], s[c], s[4 + c], s[8 + c])
  {
    hide Mixed;
  }

  lemma ShiftedByte(b: Block, j: nat, c: nat)
    requires j < 4 && c < 4
    ensures ShiftBlock(SubBlock(b, false), false)[4 * j + c] == Sub(b[4 * j + (c + j) % 4]) && c % 4 == c
  {
    hide Sub;
    assert (4 * j + c) / 4 == j && (4 * j + c) % 4 == c;
  }

  /** The states before each round of the cipher, the last of which is not mixed. */
  lemma CipherStates(plain: Block, keys: seq<Block>) returns (states: seq<Block>)
    requires |keys| >= 2
    ensures |states| == |keys| - 1
    ensures forall k :: 0 <= k < 16 ==> states[0][k] == Sum(plain[4 * (k % 4) + k / 4], keys[0][k])
    ensures forall i :: 0 < i < |keys| - 1 ==>
      states[i] == AddBlock(MixBlock(ShiftBlock(SubBlock(states[i - 1], false), false), false), keys[i])
    ensures forall k :: 0 <= k < 16 ==>
      Cipher(plain, keys)[k] == Sum(ShiftBlock(SubBlock(states[|keys| - 2], false), false)[4 * (k % 4) + k / 4],
                                    keys[|keys| - 1][4 * (k % 4) + k / 4])
  {
    hide AddBlock, MixBlock, ShiftBlock, SubBlock, Transposed;
    var n := |keys| - 1;
    var b := Transposed(plain);
    states := seq(n, i requires 0 <= i < n => Rounds(b, keys, i));
    FirstAndLast(plain, states[0], keys[0], ShiftBlock(SubBlock(states[n - 1], false), false), keys[n]);
  }

  /** The same states, when the inverse cipher goes through them from the last to the first. */
  lemma InvCipherStates(cipher: Block, keys: seq<Block>) returns (states: seq<Block>)
    requires |keys| >= 2
    ensures |states| == |keys| - 1
    ensures forall k :: 0 <= k < 16 ==>
      ShiftBlock(SubBlock(states[|keys| - 2], false), false)[k] ==
        Sum(cipher[4 * (k % 4) + k / 4], keys[|keys| - 1][k])
    ensures forall i :: 0 < i < |keys| - 1 ==>
      MixBlock(ShiftBlock(SubBlock(states[i - 1], false), false), false) == AddBlock(states[i], keys[i])
    ensures forall k :: 0 <= k < 16 ==>
      InvCipher(cipher, keys)[k] == Sum(states[0][4 * (k % 4) + k / 4], keys[0][4 * (k % 4) + k / 4])
  {
    hide AddBlock, MixBlock, ShiftBlock, SubBlock, Transposed;
    var n := |keys| - 1;
    var added := AddBlock(Transposed(cipher), keys[n]);
    Redone(added);
    states := UnroundStates(SubBlock(ShiftBlock(added, true), true), keys, n - 1);
    FirstAndLast(cipher, added, keys[n], states[0], keys[0]);
  }

  lemma {:induction false} UnroundStates(b: Block, keys: seq<Block>, n: nat) returns (states: seq<Block>)
    requires n < |keys|
    ensures |states| == n + 1 && states[n] == b && Unrounds(b, keys, n) == AddBlock(states[0], keys[0])
    ensures forall i :: 0 < i <= n ==>
      MixBlock(ShiftBlock(SubBlock(states[i - 1], false), false), false) == AddBlock(states[i], keys[i])
    decreases n
  {
    hide AddBlock, MixBlock, ShiftBlock, SubBlock;
    states := [b];
    if n > 0 {
      var added := AddBlock(b, keys[n]);
      MixUndone(added, true);
      Redone(MixBlock(added, true));
      states := UnroundStates(SubBlock(ShiftBlock(MixBlock(added, true), true), true), keys, n - 1);
      states := states + [b];
    }
  }

  // --- The code

  ghost predicate Schedule(rounds: seq<array<Word>>) {
    forall i :: 0 <= i < |rounds| ==> rounds[i].Length == 8
  }

  /** The round keys as blocks. */
  function Keys(rounds: seq<array<Word>>): (keys: seq<Block>)
    requires Schedule(rounds)
    reads rounds
    ensures |keys| == |rounds|
  {
    seq(|rounds|, i requires 0 <= i < |rounds| reads rounds => Lanes(rounds[i][..]))
  }

  /** `AES_encrypt`; the states are those before each round. */
  method Encrypt(rounds: seq<array<Word>>, nrounds: nat, plain: seq<Byte>)
    returns (cipher: seq<Byte>, ghost states: seq<Block>)
    requires nrounds >= 1 && |rounds| == nrounds + 1 && Schedule(rounds)
    requires |plain| == 16
    ensures cipher == Cipher(plain, Keys(rounds)) && |cipher| == 16 && |states| == nrounds
    ensures forall k :: 0 <= k < 16 ==>
      states[0][k] == Sum(plain[4 * (k % 4) + k / 4], Lane(rounds[0][..], k))
    ensures forall i :: 0 < i < nrounds ==>
      states[i] == AddBlock(MixBlock(ShiftBlock(SubBlock(states[i - 1], false), false), false), Lanes(rounds[i][..]))
    ensures forall k :: 0 <= k < 16 ==>
      cipher[k] == Sum(ShiftBlock(SubBlock(states[nrounds - 1], false), false)[4 * (k % 4) + k / 4],
                       Lane(rounds[nrounds][..], 4 * (k % 4) + k / 4))
  {
    hide AddBlock, MixBlock, ShiftBlock, SubBlock, Transposed, Lanes, Lane;
    ghost var keys := Keys(rounds);
    var s := new Word[8](i => Word(0));
    ghost var empty := s[..];
    LoadBytes(s, plain);
    LoadedBlock(empty, s[..], plain);
    AddRoundKey(s, rounds[0]);
    var round := 1;
    while round < nrounds
      invariant 1 <= round <= nrounds && Keys(rounds) == keys
      invariant Lanes(s[..]) == Rounds(Transposed(plain), keys, round - 1)
    {
      SubBytesStep(s, false);
      ShiftRows(s);
      MixColumns(s, false);
      AddRoundKey(s, rounds[round]);
      round := round + 1;
    }
    SubBytesStep(s, false);
    ShiftRows(s);
    AddRoundKey(s, rounds[nrounds]);
    cipher := SaveBytes(s);
    states := CipherStates(plain, keys);
    KeyLanes(rounds[0][..]);
    KeyLanes(rounds[nrounds][..]);
  }

  /** The first and the last addition of a round key, in the order of the message. */
  lemma FirstAndLast(plain: Block, first: Block, key: Block, last: Block, lastKey: Block)
    requires first == AddBlock(Transposed(plain), key)
    ensures forall k :: 0 <= k < 16 ==> first[k] == Sum(plain[4 * (k % 4) + k / 4], key[k])
    ensures forall k :: 0 <= k < 16 ==>
      Transposed(AddBlock(last, lastKey))[k] == Sum(last[4 * (k % 4) + k / 4], lastKey[4 * (k % 4) + k / 4])
  {
    hide Sum;
  }

  lemma KeyLanes(w: seq<Word>)
    requires |w| == 8
    ensures forall k :: 0 <= k < 16 ==> Lanes(w)[k] == Lane(w, k)
  {
    hide Lane;
  }

  lemma LoadedBlock(empty: seq<Word>, w: seq<Word>, data: Block)
    requires |empty| == |w| == 8
    requires forall j :: 0 <= j < 8 ==> empty[j] == Word(0)
    requires forall k: nat | k < 16 :: Lane(w, k) == Either(Lane(empty, k), data[4 * (k % 4) + k / 4])
    ensures Lanes(w) == Transposed(data)
  {
    hide At, Pack, Either;
    forall k: nat | k < 16 ensures Lane(w, k) == data[4 * (k % 4) + k / 4] {
      ZeroWord(k);
      EmptyLane();
      EitherEmpty(data[4 * (k % 4) + k / 4]);
    }
  }

  lemma EmptyLane()
    ensures
      var z := Wire(false);
      Pack(Bits(z, z, z, z, z, z, z, z)) == Byte(0)
  {}

  lemma EitherEmpty(x: Byte)
    ensures Either(Byte(0), x) == x
  {}

  /** Shifting and substituting again what was unshifted and unsubstituted. */
  lemma Redone(b: Block)
    ensures ShiftBlock(SubBlock(SubBlock(ShiftBlock(b, true), true), false), false) == b
  {
    hide ShiftBlock, SubBlock;
    SubUndone(ShiftBlock(b, true), true);
    ShiftUndone(b, true);
  }

  lemma OneUnround(b: Block, keys: seq<Block>, n: nat)
    requires 0 < n < |keys|
    ensures Unrounds(b, keys, 0) == AddBlock(b, keys[0])
    ensures Unrounds(b, keys, n) ==
      Unrounds(SubBlock(ShiftBlock(MixBlock(AddBlock(b, keys[n]), true), true), true), keys, n - 1)
  {}

  /** `AES_decrypt`; the states are those before each round of the encryption. */
  method Decrypt(rounds: seq<array<Word>>, nrounds: nat, cipher: seq<Byte>)
    returns (plain: seq<Byte>, ghost states: seq<Block>)
    requires nrounds >= 1 && |rounds| == nrounds + 1 && Schedule(rounds)
    requires |cipher| == 16
    ensures plain == InvCipher(cipher, Keys(rounds)) && |plain| == 16 && |states| == nrounds
    ensures forall k :: 0 <= k < 16 ==>
      ShiftBlock(SubBlock(states[nrounds - 1], false), false)[k] ==
        Sum(cipher[4 * (k % 4) + k / 4], Lane(rounds[nrounds][..], k))
    ensures forall i :: 0 < i < nrounds ==>
      MixBlock(ShiftBlock(SubBlock(states[i - 1], false), false), false) == AddBlock(states[i], Lanes(rounds[i][..]))
    ensures forall k :: 0 <= k < 16 ==>
      plain[k] == Sum(states[0][4 * (k % 4) + k / 4], Lane(rounds[0][..], 4 * (k % 4) + k / 4))
  {
    hide AddBlock, MixBlock, ShiftBlock, SubBlock, Transposed, Lanes, Lane, Unrounds;
    ghost var keys := Keys(rounds);
    var s := new Word[8](i => Word(0));
    ghost var empty := s[..];
    LoadBytes(s, cipher);
    LoadedBlock(empty, s[..], cipher);
    AddRoundKey(s, rounds[nrounds]);
    ghost var start := SubBlock(ShiftBlock(Lanes(s[..]), true), true);
    var round := 1;
    while round < nrounds
      invariant 1 <= round <= nrounds && Keys(rounds) == keys
      invariant Unrounds(SubBlock(ShiftBlock(Lanes(s[..]), true), true), keys, nrounds - round) ==
        Unrounds(start, keys, nrounds - 1)
    {
      OneUnround(SubBlock(ShiftBlock(Lanes(s[..]), true), true), keys, nrounds - round);
      InvShiftRows(s);
      SubBytesStep(s, true);
      AddRoundKey(s, rounds[nrounds - round]);
      MixColumns(s, true);
      round := round + 1;
    }
    OneUnround(SubBlock(ShiftBlock(Lanes(s[..]), true), true), keys, nrounds);
    InvShiftRows(s);
    SubBytesStep(s, true);
    AddRoundKey(s, rounds[0]);
    plain := SaveBytes(s);
    states := InvCipherStates(cipher, keys);
    KeyLanes(rounds[0][..]);
    KeyLanes(rounds[nrounds][..]);
  }
}
