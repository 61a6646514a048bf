/** The steps of a round on the slices, against the same steps on the bytes of a block
(ctaes.c). */
module AesRounds {
  import opened AesWords
  import opened AesBytes
  import opened AesState
  import opened AesMix
  import opened AesColumns

  function SubBlock(b: Block, inv: bool): Block {
    seq(16, k requires 0 <= k < 16 => if inv then InvSub(b[k]) else Sub(b[k]))
  }

  function ShiftBlock(b: Block, inv: bool): Block {
    seq(16, k requires 0 <= k < 16 => if inv then b[Unshifted(k)] else b[Shifted(k)])
  }

  /** Byte k of a block and the three below it in its column. */
  function MixByte(b: Block, inv: bool, k: nat): Byte
    requires k < 16
  {
    var p, q, r, s := b[k], b[(k + 4) % 16], b[(k + 8) % 16], b[(k + 12) % 16];
    if inv then Unmixed(p, q, r, s) else Mixed(p, q, r, s)
  }

  function MixBlock(b: Block, inv: bool): Block {
    seq(16, k requires 0 <= k < 16 => MixByte(b, inv, k))
  }

  function AddBlock(b: Block, key: Block): Block {
    seq(16, k requires 0 <= k < 16 => Sum(b[k], key[k]))
  }

  // --- ShiftRows

  function ShiftedWord(w: Word): Word {
    var v := w.v;
    Word((v & 0x000f) |
         ((v & 0x0010) << 3) | ((v & 0x00e0) >> 1) |
         ((v & 0x0300) << 2) | ((v & 0x0c00) >> 2) |
         ((v & 0x7000) << 1) | ((v & 0x8000) >> 3))
  }

  function UnshiftedWord(w: Word): Word {
    var v := w.v;
    Word((v & 0x000f) |
         ((v & 0x0070) << 1) | ((v & 0x0080) >> 3) |
         ((v & 0x0300) << 2) | ((v & 0x0c00) >> 2) |
         ((v & 0x1000) << 3) | ((v & 0xe000) >> 1))
  }

  /** The lane that ends in lane k: row r moves r places to the left. */
  function Shifted(k: nat): nat
    requires k < 16
  {
    var r, c := k / 4, k % 4;
    4 * r + (c + r) % 4
  }

  function Unshifted(k: nat): nat
    requires k < 16
  {
    var r, c := k / 4, k % 4;
    4 * r + (c + 4 - r) % 4
  }

  /** The same row by row, in ranges of lanes. */
  lemma ShiftedRanges(k: nat)
    requires k < 16
    ensures Shifted(k) ==
      if k < 4 then k else if k < 7 then k + 1 else if k < 8 then k - 3
      else if k < 10 then k + 2 else if k < 12 then k - 2 else if k < 13 then k + 3 else k - 1
  {
    if k < 4 {} else if k < 8 {} else if k < 12 {} else {}
  }

  lemma UnshiftedRanges(k: nat)
    requires k < 16
    ensures Unshifted(k) ==
      if k < 4 then k else if k < 5 then k + 3 else if k < 8 then k - 1
      else if k < 10 then k + 2 else if k < 12 then k - 2 else if k < 15 then k + 1 else k - 3
  {
    if k < 4 {} else if k < 8 {} else if k < 12 {} else {}
  }

  lemma ShiftedMasks(v: bv16, r: bv16)
    requires r ==
      (v & 0x000f) |
      ((v & 0x0010) << 3) | ((v & 0x00e0) >> 1) |
      ((v & 0x0300) << 2) | ((v & 0x0c00) >> 2) |
      ((v & 0x7000) << 1) | ((v & 0x8000) >> 3)
    ensures (r & 0x0001 != 0) == (v & 0x0001 != 0) && (r & 0x0002 != 0) == (v & 0x0002 != 0)
    ensures (r & 0x0004 != 0) == (v & 0x0004 != 0) && (r & 0x0008 != 0) == (v & 0x0008 != 0)
    ensures (r & 0x0010 != 0) == (v & 0x0020 != 0) && (r & 0x0020 != 0) == (v & 0x0040 != 0)
    ensures (r & 0x0040 != 0) == (v & 0x0080 != 0) && (r & 0x0080 != 0) == (v & 0x0010 != 0)
    ensures (r & 0x0100 != 0) == (v & 0x0400 != 0) && (r & 0x0200 != 0) == (v & 0x0800 != 0)
    ensures (r & 0x0400 != 0) == (v & 0x0100 != 0) && (r & 0x0800 != 0) == (v & 0x0200 != 0)
    ensures (r & 0x1000 != 0) == (v & 0x8000 != 0) && (r & 0x2000 != 0) == (v & 0x1000 != 0)
    ensures (r & 0x4000 != 0) == (v & 0x2000 != 0) && (r & 0x8000 != 0) == (v & 0x4000 != 0)
  {}

  lemma ShiftedTests(w: Word)
    ensures Test(ShiftedWord(w), 0x0001) == Test(w, 0x0001) && Test(ShiftedWord(w), 0x0002) == Test(w, 0x0002)
    ensures Test(ShiftedWord(w), 0x0004) == Test(w, 0x0004) && Test(ShiftedWord(w), 0x0008) == Test(w, 0x0008)
    ensures Test(ShiftedWord(w), 0x0010) == Test(w, 0x0020) && Test(ShiftedWord(w), 0x0020) == Test(w, 0x0040)
    ensures Test(ShiftedWord(w), 0x0040) == Test(w, 0x0080) && Test(ShiftedWord(w), 0x0080) == Test(w, 0x0010)
    ensures Test(ShiftedWord(w), 0x0100) == Test(w, 0x0400) && Test(ShiftedWord(w), 0x0200) == Test(w, 0x0800)
    ensures Test(ShiftedWord(w), 0x0400) == Test(w, 0x0100) && Test(ShiftedWord(w), 0x0800) == Test(w, 0x0200)
    ensures Test(ShiftedWord(w), 0x1000) == Test(w, 0x8000) && Test(ShiftedWord(w), 0x2000) == Test(w, 0x1000)
    ensures Test(ShiftedWord(w), 0x4000) == Test(w, 0x2000) && Test(ShiftedWord(w), 0x8000) == Test(w, 0x4000)
  {
    ShiftedMasks(w.v, ShiftedWord(w).v);
    hide ShiftedWord;
  }

  lemma ShiftedLane(w: Word, k: nat)
    requires k < 16
    ensures At(ShiftedWord(w), k) == At(w, Shifted(k))
  {
    ShiftedTests(w);
    LiteralBits(w);
    LiteralBits(ShiftedWord(w));
    ShiftedRanges(k);
    hide Test, ShiftedWord, Bit, Shifted;
  }

  lemma UnshiftedMasks(v: bv16, r: bv16)
    requires r ==
      (v & 0x000f) |
      ((v & 0x0070) << 1) | ((v & 0x0080) >> 3) |
      ((v & 0x0300) << 2) | ((v & 0x0c00) >> 2) |
      ((v & 0x1000) << 3) | ((v & 0xe000) >> 1)
    ensures (r & 0x0001 != 0) == (v & 0x0001 != 0) && (r & 0x0002 != 0) == (v & 0x0002 != 0)
    ensures (r & 0x0004 != 0) == (v & 0x0004 != 0) && (r & 0x0008 != 0) == (v & 0x0008 != 0)
    ensures (r & 0x0010 != 0) == (v & 0x0080 != 0) && (r & 0x0020 != 0) == (v & 0x0010 != 0)
    ensures (r & 0x0040 != 0) == (v & 0x0020 != 0) && (r & 0x0080 != 0) == (v & 0x0040 != 0)
    ensures (r & 0x0100 != 0) == (v & 0x0400 != 0) && (r & 0x0200 != 0) == (v & 0x0800 != 0)
    ensures (r & 0x0400 != 0) == (v & 0x0100 != 0) && (r & 0x0800 != 0) == (v & 0x0200 != 0)
    ensures (r & 0x1000 != 0) == (v & 0x2000 != 0) && (r & 0x2000 != 0) == (v & 0x4000 != 0)
    ensures (r & 0x4000 != 0) == (v & 0x8000 != 0) && (r & 0x8000 != 0) == (v & 0x1000 != 0)
  {}

  lemma UnshiftedTests(w: Word)
    ensures Test(UnshiftedWord(w), 0x0001) == Test(w, 0x0001) && Test(UnshiftedWord(w), 0x0002) == Test(w, 0x0002)
    ensures Test(UnshiftedWord(w), 0x0004) == Test(w, 0x0004) && Test(UnshiftedWord(w), 0x0008) == Test(w, 0x0008)
    ensures Test(UnshiftedWord(w), 0x0010) == Test(w, 0x0080) && Test(UnshiftedWord(w), 0x0020) == Test(w, 0x0010)
    ensures Test(UnshiftedWord(w), 0x0040) == Test(w, 0x0020) && Test(UnshiftedWord(w), 0x0080) == Test(w, 0x0040)
    ensures Test(UnshiftedWord(w), 0x0100) == Test(w, 0x0400) && Test(UnshiftedWord(w), 0x0200) == Test(w, 0x0800)
    ensures Test(UnshiftedWord(w), 0x0400) == Test(w, 0x0100) && Test(UnshiftedWord(w), 0x0800) == Test(w, 0x0200)
    ensures Test(UnshiftedWord(w), 0x1000) == Test(w, 0x2000) && Test(UnshiftedWord(w), 0x2000) == Test(w, 0x4000)
    ensures Test(UnshiftedWord(w), 0x4000) == Test(w, 0x8000) && Test(UnshiftedWord(w), 0x8000) == Test(w, 0x1000)
  {
    UnshiftedMasks(w.v, UnshiftedWord(w).v);
    hide UnshiftedWord;
  }

  lemma UnshiftedLane(w: Word, k: nat)
    requires k < 16
    ensures At(UnshiftedWord(w), k) == At(w, Unshifted(k))
  {
    UnshiftedTests(w);
    LiteralBits(w);
    LiteralBits(UnshiftedWord(w));
    UnshiftedRanges(k);
    hide Test, UnshiftedWord, Bit, Unshifted;
  }


  // --- The steps of a round on the slices

  method SubBytesStep(s: array<Word>, inv: bool)
    requires s.Length == 8
    modifies s
    ensures Lanes(s[..]) == SubBlock(Lanes(old(s[..])), inv)
  {
    hide Lane, Sub, InvSub;
    SubBytes(s, inv);
  }

  method ShiftRows(s: array<Word>)
    requires s.Length == 8
    modifies s
    ensures Lanes(s[..]) == ShiftBlock(Lanes(old(s[..])), false)
  {
    hide ShiftedWord, Lanes, ShiftBlock;
    for i := 0 to 8
      invariant forall j :: 0 <= j < 8 ==> s[j] == if j < i then ShiftedWord(old(s[j])) else old(s[j])
    {
      s[i] := ShiftedWord(s[i]);
    }
    ShiftedLanes(old(s[..]), s[..], false);
  }

  method InvShiftRows(s: array<Word>)
    requires s.Length == 8
    modifies s
    ensures Lanes(s[..]) == ShiftBlock(Lanes(old(s[..])), true)
  {
    hide UnshiftedWord, Lanes, ShiftBlock;
    for i := 0 to 8
      invariant forall j :: 0 <= j < 8 ==> s[j] == if j < i then UnshiftedWord(old(s[j])) else old(s[j])
    {
      s[i] := UnshiftedWord(s[i]);
    }
    ShiftedLanes(old(s[..]), s[..], true);
  }

  lemma ShiftedLanes(w: seq<Word>, x: seq<Word>, inv: bool)
    requires |w| == |x| == 8
    requires forall j :: 0 <= j < 8 ==> x[j] == if inv then UnshiftedWord(w[j]) else ShiftedWord(w[j])
    ensures Lanes(x) == ShiftBlock(Lanes(w), inv)
  {
    hide At, ShiftedWord, UnshiftedWord, Pack, Shifted, Unshifted;
    forall k: nat | k < 16
      ensures Lane(x, k) == Lane(w, if inv then Unshifted(k) else Shifted(k))
      ensures Shifted(k) < 16 && Unshifted(k) < 16
    {
      ShiftInverse(k);
      forall j | 0 <= j < 8
        ensures At(x[j], k) == At(w[j], if inv then Unshifted(k) else Shifted(k))
      {
        ShiftedLane(w[j], k);
        UnshiftedLane(w[j], k);
      }
    }
  }

  ghost predicate MixedAt(before: seq<Word>, mixed: seq<Word>, k: nat)
    requires |before| == |mixed| == 8
  {
    Lane(mixed, k) == Factored(Lane(before, k), Lane(before, k + 4), Lane(before, k + 8), Lane(before, k + 12))
  }

  ghost predicate CorrectedAt(mixed: seq<Word>, after: seq<Word>, k: nat)
    requires |mixed| == |after| == 8
  {
    Lane(after, k) == Corrected(Lane(mixed, k), Lane(mixed, k + 8))
  }

  method MixColumns(s: array<Word>, inv: bool)
    requires s.Length == 8
    modifies s
    ensures Lanes(s[..]) == MixBlock(Lanes(old(s[..])), inv)
  {
    MixForward(s);
    if inv {
      ghost var mixed := s[..];
      Correct(s);
      UnmixedLanes(old(s[..]), mixed, s[..]);
    } else {
      MixedLanes(old(s[..]), s[..]);
    }
  }

  method MixForward(s: array<Word>)
    requires s.Length == 8
    modifies s
    ensures forall k: nat :: MixedAt(old(s[..]), s[..], k)
  {
    hide At, Pack, Factored;
    var o0, o1, o2, o3, o4, o5, o6, o7 := MixGates(s[0], s[1], s[2], s[3], s[4], s[5], s[6], s[7]);
    s[0], s[1], s[2], s[3], s[4], s[5], s[6], s[7] := o0, o1, o2, o3, o4, o5, o6, o7;
  }

  method Correct(s: array<Word>)
    requires s.Length == 8
    modifies s
    ensures forall k: nat :: CorrectedAt(old(s[..]), s[..], k)
  {
    hide At, Pack, Corrected;
    var o0, o1, o2, o3, o4, o5, o6, o7 := CorrectGates(s[0], s[1], s[2], s[3], s[4], s[5], s[6], s[7]);
    s[0], s[1], s[2], s[3], s[4], s[5], s[6], s[7] := o0, o1, o2, o3, o4, o5, o6, o7;
  }

  /** Lane k and the three below it in its column, counting round the sixteen lanes. */
  function ColumnAt(w: seq<Word>, k: nat): (Byte, Byte, Byte, Byte)
    requires |w| == 8
  {
    (Lane(w, k), Lane(w, (k + 4) % 16), Lane(w, (k + 8) % 16), Lane(w, (k + 12) % 16))
  }

  lemma ColumnAround(w: seq<Word>, k: nat)
    requires |w| == 8 && k < 16
    ensures ColumnAt(w, k) == (Lane(w, k), Lane(w, k + 4), Lane(w, k + 8), Lane(w, k + 12))
    ensures Lane(w, k + 16) == Lane(w, k) && Lane(w, k + 20) == Lane(w, k + 4)
  {
    hide Lane;
    LaneAround(w, k, k + 4);
    LaneAround(w, k, k + 8);
    LaneAround(w, k, k + 12);
    LaneAround(w, k, k + 16);
    LaneAround(w, k, k + 20);
  }

  lemma MixedLane(before: seq<Word>, mixed: seq<Word>, k: nat)
    requires |before| == |mixed| == 8 && k < 16
    requires MixedAt(before, mixed, k)
    ensures var (p, q, r, s) := ColumnAt(before, k); Lane(mixed, k) == Mixed(p, q, r, s)
  {
    hide Lane, Factored, Mixed, ColumnAt;
    ColumnAround(before, k);
    MixedIsFactored(Lane(before, k), Lane(before, k + 4), Lane(before, k + 8), Lane(before, k + 12));
  }

  lemma UnmixedLane(before: seq<Word>, mixed: seq<Word>, after: seq<Word>, k: nat)
    requires |before| == |mixed| == |after| == 8 && k < 16
    requires MixedAt(before, mixed, k) && MixedAt(before, mixed, k + 8) && CorrectedAt(mixed, after, k)
    ensures var (p, q, r, s) := ColumnAt(before, k); Lane(after, k) == Unmixed(p, q, r, s)
  {
    hide Lane, Factored, Corrected, Unmixed, ColumnAt;
    ColumnAround(before, k);
    UnmixedIsCorrected(Lane(before, k), Lane(before, k + 4), Lane(before, k + 8), Lane(before, k + 12));
  }

  lemma MixedLanes(before: seq<Word>, mixed: seq<Word>)
    requires |before| == |mixed| == 8
    requires forall k: nat :: MixedAt(before, mixed, k)
    ensures Lanes(mixed) == MixBlock(Lanes(before), false)
  {
    hide Lane, Mixed, Unmixed, MixedAt;
    forall k: nat | k < 16
      ensures Lane(mixed, k) == MixByte(Lanes(before), false, k)
    {
      MixedLane(before, mixed, k);
    }
  }

  lemma UnmixedLanes(before: seq<Word>, mixed: seq<Word>, after: seq<Word>)
    requires |before| == |mixed| == |after| == 8
    requires forall k: nat :: MixedAt(before, mixed, k)
    requires forall k: nat :: CorrectedAt(mixed, after, k)
    ensures Lanes(after) == MixBlock(Lanes(before), true)
  {
    hide Lane, Mixed, Unmixed, MixedAt, CorrectedAt;
    forall k: nat | k < 16
      ensures Lane(after, k) == MixByte(Lanes(before), true, k)
    {
      UnmixedLane(before, mixed, after, k);
    }
  }

  lemma LaneAround(w: seq<Word>, k: nat, j: nat)
    requires |w| == 8 && k < 16 && k <= j <= k + 20
    ensures Lane(w, j) == Lane(w, j % 16)
  {
    hide At, Pack;
    forall i | 0 <= i < 8
      ensures At(w[i], j) == At(w[i], j % 16)
    {
      if j >= 16 {
        RotatedLane(w[i], j - 16);
        if j >= 32 {
          RotatedLane(w[i], j - 32);
        }
      }
    }
  }

  method AddRoundKey(s: array<Word>, round: array<Word>)
    requires s.Length == 8 && round.Length == 8 && s != round
    modifies s
    ensures Lanes(s[..]) == AddBlock(Lanes(old(s[..])), Lanes(round[..]))
  {
    hide Xor, Lanes, AddBlock;
    for b := 0 to 8
      invariant forall j :: 0 <= j < 8 ==> s[j] == if j < b then Xor(old(s[j]), round[j]) else old(s[j])
    {
      s[b] := Xor(s[b], round[b]);
    }
    AddedLanes(old(s[..]), round[..], s[..]);
  }

  lemma AddedLanes(w: seq<Word>, key: seq<Word>, x: seq<Word>)
    requires |w| == |key| == |x| == 8
    requires forall j :: 0 <= j < 8 ==> x[j] == Xor(w[j], key[j])
    ensures Lanes(x) == AddBlock(Lanes(w), Lanes(key))
  {
    hide At, Xor, XorBit, Pack, Sum;
    forall k: nat | k < 16
      ensures Lane(x, k) == Sum(Lane(w, k), Lane(key, k))
    {
      GateLaws();
      PackSum(LaneOf(w[0], w[1], w[2], w[3], w[4], w[5], w[6], w[7], k),
              LaneOf(key[0], key[1], key[2], key[3], key[4], key[5], key[6], key[7], k));
    }
  }

  // --- The steps undo each other

  lemma SubUndone(b: Block, inv: bool)
    ensures SubBlock(SubBlock(b, inv), !inv) == b
  {
    hide SBox, InvSBox;
    forall k | 0 <= k < 16 ensures SubBlock(SubBlock(b, inv), !inv)[k] == b[k] {
      SBoxInverse(b[k].v);
      InvSBoxInverse(b[k].v);
    }
  }

  lemma ShiftUndone(b: Block, inv: bool)
    ensures ShiftBlock(ShiftBlock(b, inv), !inv) == b
  {
    hide Shifted, Unshifted;
    forall k: nat | k < 16 ensures ShiftBlock(ShiftBlock(b, inv), !inv)[k] == b[k] {
      ShiftInverse(k);
    }
  }

  lemma ShiftInverse(k: nat)
    requires k < 16
    ensures Shifted(k) < 16 && Unshifted(k) < 16 && Shifted(Unshifted(k)) == k && Unshifted(Shifted(k)) == k
  {
    hide Shifted, Unshifted;
    ShiftedRanges(k);
    UnshiftedRanges(k);
    ShiftedRanges(Unshifted(k));
    UnshiftedRanges(Shifted(k));
  }

  lemma AddUndone(b: Block, key: Block)
    ensures AddBlock(AddBlock(b, key), key) == b
  {
    hide Sum;
    forall k | 0 <= k < 16 ensures AddBlock(AddBlock(b, key), key)[k] == b[k] {
      Cancels(key[k], b[k]);
    }
  }

  /** Going down a column by four lanes at a time comes round after four steps. */
  lemma ColumnStep(k: nat, k1: nat, k2: nat, k3: nat)
    requires k < 16 && k1 == (k + 4) % 16 && k2 == (k + 8) % 16 && k3 == (k + 12) % 16
    ensures (k1 + 4) % 16 == k2 && (k1 + 8) % 16 == k3 && (k1 + 12) % 16 == k
    ensures (k2 + 4) % 16 == k3 && (k2 + 8) % 16 == k && (k2 + 12) % 16 == k1
    ensures (k3 + 4) % 16 == k && (k3 + 8) % 16 == k1 && (k3 + 12) % 16 == k2
  {}

  lemma MixUndone(b: Block, inv: bool)
    ensures MixBlock(MixBlock(b, inv), !inv) == b
  {
    hide MixByte;
    forall k: nat | k < 16 ensures MixByte(MixBlock(b, inv), !inv, k) == b[k] {
      MixByteUndone(b, MixBlock(b, inv), inv, k);
    }
  }

  lemma MixByteUndone(b: Block, m: Block, inv: bool, k: nat)
    requires k < 16
    requires forall j: nat | j < 16 :: m[j] == MixByte(b, inv, j)
    ensures MixByte(m, !inv, k) == b[k]
  {
    hide Mixed, Unmixed;
    var k1, k2, k3 := (k + 4) % 16, (k + 8) % 16, (k + 12) % 16;
    ColumnStep(k, k1, k2, k3);
    var p, q, r, s := b[k], b[k1], b[k2], b[k3];
    assert m[k] == if inv then Unmixed(p, q, r, s) else Mixed(p, q, r, s);
    assert m[k1] == if inv then Unmixed(q, r, s, p) else Mixed(q, r, s, p);
    assert m[k2] == if inv then Unmixed(r, s, p, q) else Mixed(r, s, p, q);
    assert m[k3] == if inv then Unmixed(s, p, q, r) else Mixed(s, p, q, r);
    UnmixedMixed(p, q, r, s);
    MixedUnmixed(p, q, r, s);
  }
}
