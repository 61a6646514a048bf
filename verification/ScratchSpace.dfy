/** The frame stack and bump allocator of scratch_impl.h. */
module ScratchSpace {
  import opened Wrappers

  /** Sizes are 64-bit and wrap around. */
  const SIZE_MOD: nat := 0x1_0000_0000_0000_0000
  const ALIGNMENT: nat := 16
  const MAX_FRAMES: nat := 5

  function Sum(s: seq<nat>): nat {
    if s == [] then 0 else Sum(s[..|s| - 1]) + s[|s| - 1]
  }

  lemma {:induction false} SumAppend(s: seq<nat>, t: seq<nat>)
    ensures Sum(s + t) == Sum(s) + Sum(t)
    decreases |t|
  {
    if t == [] {
      assert s + t == s;
    } else {
      SumAppend(s, t[..|t| - 1]);
      assert (s + t)[..|s + t| - 1] == s + t[..|t| - 1];
    }
  }

  lemma SumOne(x: nat)
    ensures Sum([x]) == x
  {
    assert [x][..0] == [];
  }

  /** `secp256k1_scratch_max_allocation` for given totals. */
  function MaxAllocation(maxSize: nat, taken: nat, objects: nat): (n: nat)
    ensures n < SIZE_MOD
  {
    var free := (maxSize - taken) % SIZE_MOD;
    if free <= objects * ALIGNMENT then 0 else free - objects * ALIGNMENT
  }

  function RoundUp(size: nat): nat {
    ((size + ALIGNMENT - 1) / ALIGNMENT) * ALIGNMENT
  }

  lemma RoundUpBounds(size: nat)
    ensures size <= RoundUp(size) < size + ALIGNMENT && RoundUp(size) % ALIGNMENT == 0
  {
  }

  /** The same as the code computes it, where the largest sizes wrap around to nothing. */
  function Padded(size: nat): nat {
    ((size + ALIGNMENT - 1) % SIZE_MOD / ALIGNMENT) * ALIGNMENT
  }

  lemma PaddedSize(size: nat)
    requires size < SIZE_MOD
    ensures Padded(size) == if size + ALIGNMENT <= SIZE_MOD then RoundUp(size) else 0
    ensures Padded(size) % ALIGNMENT == 0
  {
  }

  class Scratch {
    var offset: seq<nat>
    var frameSize: seq<nat>
    var frame: nat
    const maxSize: nat

    ghost predicate Valid()
      reads this
    {
      && |offset| == |frameSize| == MAX_FRAMES && frame <= MAX_FRAMES && maxSize < SIZE_MOD
      && (forall i :: 0 <= i < MAX_FRAMES ==> frameSize[i] < SIZE_MOD)
      && (forall i :: 0 <= i < frame ==> offset[i] <= frameSize[i] && offset[i] % ALIGNMENT == 0)
    }

    /** Bytes in the frames that are in use. */
    function Allocated(): nat
      requires Valid()
      reads this
    {
      Sum(frameSize[..frame])
    }

    function Available(objects: nat): nat
      requires Valid()
      reads this
    {
      MaxAllocation(maxSize, Allocated(), objects)
    }

    /** `secp256k1_scratch_create` */
    constructor (maxSize: nat)
      requires maxSize < SIZE_MOD
      ensures Valid() && frame == 0 && this.maxSize == maxSize
    {
      this.maxSize := maxSize;
      frame := 0;
      offset, frameSize := [0, 0, 0, 0, 0], [0, 0, 0, 0, 0];
    }

    /** `secp256k1_scratch_max_allocation`: what is left, less the padding of the objects. */
    method MaxAllocationNow(objects: nat) returns (n: nat)
      requires Valid() && objects * ALIGNMENT < SIZE_MOD
      ensures n == Available(objects)
    {
      var taken := 0;
      var i := 0;
      while i < frame
        invariant 0 <= i <= frame
        invariant taken == Sum(frameSize[..i]) % SIZE_MOD
      {
        assert frameSize[..i + 1][..i] == frameSize[..i];
        WrapAdd(Sum(frameSize[..i]), frameSize[i]);
        taken := (taken + frameSize[i]) % SIZE_MOD;
        i := i + 1;
      }
      WrapSub(maxSize, Allocated());
      var free := (maxSize - taken) % SIZE_MOD;
      if free <= objects * ALIGNMENT {
        return 0;
      }
      return free - objects * ALIGNMENT;
    }

    /** `secp256k1_scratch_allocate_frame`; `memory` says whether malloc succeeds. */
    method AllocateFrame(n: nat, objects: nat, memory: bool) returns (ok: bool)
      requires Valid() && frame < MAX_FRAMES && objects * ALIGNMENT < SIZE_MOD
      modifies this
      ensures Valid()
      ensures ok <==> n <= old(Available(objects)) && memory
      ensures ok ==> frame == old(frame) + 1
      ensures ok ==> frameSize == old(frameSize)[old(frame) := n + objects * ALIGNMENT] && offset == old(offset)[old(frame) := 0]
      ensures !ok ==> frame == old(frame) && frameSize == old(frameSize) && offset == old(offset)
    {
      var available := MaxAllocationNow(objects);
      if n <= available {
        if !memory {
          return false;
        }
        var size := n + objects * ALIGNMENT;
        frameSize := frameSize[frame := size];
        offset := offset[frame := 0];
        frame := frame + 1;
        return true;
      }
      return false;
    }

    /** `secp256k1_scratch_deallocate_frame` */
    method DeallocateFrame()
      requires Valid() && frame > 0
      modifies this`frame
      ensures Valid() && frame == old(frame) - 1
    {
      frame := frame - 1;
    }

    /** `secp256k1_scratch_alloc`: the position of the new object in the newest frame. */
    method Alloc(size: nat) returns (at: Option<nat>)
      requires Valid() && size < SIZE_MOD
      modifies this`offset
      ensures Valid()
      ensures at.Some? <==> frame > 0 && (Padded(size) + old(offset[frame - 1])) % SIZE_MOD <= frameSize[frame - 1]
      ensures at.Some? ==> at.value == old(offset[frame - 1]) && at.value % ALIGNMENT == 0
      ensures offset ==
        if at.Some? then old(offset)[frame - 1 := (Padded(size) + at.value) % SIZE_MOD] else old(offset)
    {
      PaddedSize(size);
      var rounded := ((size + ALIGNMENT - 1) % SIZE_MOD / ALIGNMENT) * ALIGNMENT;
      if frame == 0 || (rounded + offset[frame - 1]) % SIZE_MOD > frameSize[frame - 1] {
        return None;
      }
      at := Some(offset[frame - 1]);
      AlignedSum(rounded, offset[frame - 1]);
      offset := offset[frame - 1 := (offset[frame - 1] + rounded) % SIZE_MOD];
    }
  }

  lemma AlignedSum(a: nat, b: nat)
    requires a % ALIGNMENT == 0 && b % ALIGNMENT == 0
    ensures (a + b) % SIZE_MOD % ALIGNMENT == 0
  {
  }

  /** An object that `Alloc` grants lies inside its frame exactly when neither its rounded size
  nor the new offset wraps around. */
  lemma ObjectInside(offset: nat, size: nat, frameSize: nat)
    requires offset <= frameSize && offset % ALIGNMENT == 0 && frameSize + ALIGNMENT <= SIZE_MOD && size < SIZE_MOD
    requires (Padded(size) + offset) % SIZE_MOD <= frameSize
    ensures offset + size <= frameSize <==> offset + size + ALIGNMENT <= SIZE_MOD
  {
    PaddedSize(size);
    RoundUpBounds(size);
  }

  lemma WrapAdd(a: nat, b: nat)
    ensures (a % SIZE_MOD + b) % SIZE_MOD == (a + b) % SIZE_MOD
  {
  }

  lemma WrapSub(a: nat, b: nat)
    ensures (a - b % SIZE_MOD) % SIZE_MOD == (a - b) % SIZE_MOD
  {
    assert b == b / SIZE_MOD * SIZE_MOD + b % SIZE_MOD;
    assert a - b == (a - b % SIZE_MOD) + (-(b / SIZE_MOD)) * SIZE_MOD;
  }

  // ---------- the budget ----------

  /** Within the budget the size reported is the space left, less the padding. */
  lemma AvailableWithinBudget(maxSize: nat, taken: nat, objects: nat)
    requires taken <= maxSize < SIZE_MOD
    ensures MaxAllocation(maxSize, taken, objects)
            == if maxSize - taken <= objects * ALIGNMENT then 0 else maxSize - taken - objects * ALIGNMENT
  {
  }

  /** A frame that `AllocateFrame` grants keeps the total within the maximum exactly when it
  is nonempty or the padding of its objects fits: the size 0 is also granted when nothing is
  left, and then still takes the padding. */
  lemma FrameWithinBudget(maxSize: nat, taken: nat, n: nat, objects: nat)
    requires taken <= maxSize < SIZE_MOD
    requires n <= MaxAllocation(maxSize, taken, objects)
    ensures taken + n + objects * ALIGNMENT <= maxSize
            <==> n > 0 || objects * ALIGNMENT <= maxSize - taken
  {
    AvailableWithinBudget(maxSize, taken, objects);
  }

  /** Six objects in an empty frame of a 16 byte scratch space go over its maximum, after
  which nearly all of memory is reported as available. */
  lemma EmptyFrameOverBudget()
    ensures 0 <= MaxAllocation(16, 0, 6) && 0 + 0 + 6 * ALIGNMENT > 16
    ensures MaxAllocation(16, 6 * ALIGNMENT, 6) == SIZE_MOD - 176
  {
  }

  /** The same as it happens: afterwards almost 2^64 bytes count as available. */
  method EmptyFrameTaken() returns (scratch: Scratch)
    ensures scratch.Valid() && scratch.maxSize == 16 && scratch.frame == 1
    ensures scratch.Allocated() == 96 && scratch.Available(6) == SIZE_MOD - 176
  {
    scratch := new Scratch(16);
    EmptyFrameOverBudget();
    var ok := scratch.AllocateFrame(0, 6, true);
    SumOne(96);
    assert scratch.frameSize[..1] == [96];
  }

  /** Over the budget the subtraction wraps around. */
  lemma AvailableOverBudget(maxSize: nat, taken: nat, objects: nat)
    requires maxSize < taken && taken - maxSize + objects * ALIGNMENT < SIZE_MOD
    ensures MaxAllocation(maxSize, taken, objects) == SIZE_MOD - (taken - maxSize) - objects * ALIGNMENT
  {
    assert (maxSize - taken) % SIZE_MOD == SIZE_MOD - (taken - maxSize);
  }

  /** The objects of a frame never overlap: each starts where the one before it ends, and
  any that fit with full padding are granted. */
  lemma ObjectsFit(offset: nat, size: nat, used: nat, total: nat, objects: nat)
    requires offset <= used + objects * ALIGNMENT && used + size <= total
    ensures RoundUp(size) + offset <= total + (objects + 1) * ALIGNMENT
    ensures offset + RoundUp(size) <= used + size + (objects + 1) * ALIGNMENT
    ensures total + (objects + 1) * ALIGNMENT < SIZE_MOD ==> (Padded(size) + offset) % SIZE_MOD == RoundUp(size) + offset
  {
    RoundUpBounds(size);
    if total + (objects + 1) * ALIGNMENT < SIZE_MOD {
      PaddedSize(size);
    }
  }
}
