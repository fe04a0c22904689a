/**
 The physical page frame pool: a word bitmap, a reference count per frame and a free counter.

 The abstract value of a pool is the sequence of its reference counts; a frame is free when its
 count is zero.
 */
module FramePool {
  import opened Machine
  import opened Bits

  const PAGE_SIZE := 4096

  /** The physical address of frame `i` of a pool that begins at `start`, in 32 bits. */
  function FrameAddress(start: nat, i: nat): (a: nat)
    ensures a < WORD
  {
    (start + i * PAGE_SIZE) % WORD
  }

  /** The frame that an address is taken to name; unsigned subtraction wraps below the pool. */
  function FrameIndex(start: nat, address: nat): nat {
    ((address - start) % WORD) / PAGE_SIZE
  }

  function AlignUp(a: nat): nat {
    ((a + PAGE_SIZE - 1) % WORD) / PAGE_SIZE * PAGE_SIZE
  }

  // ---------- reference counts ----------

  /** The number of free frames. */
  function FreeCount(refs: seq<nat>): nat {
    if refs == [] then 0 else (if refs[0] == 0 then 1 else 0) + FreeCount(refs[1..])
  }

  /** The first free frame, or the number of frames if there is none. */
  function FirstFree(refs: seq<nat>): (i: nat)
    ensures i <= |refs| && (forall j :: 0 <= j < i ==> refs[j] > 0) && (i < |refs| ==> refs[i] == 0)
  {
    if refs == [] || refs[0] == 0 then 0 else 1 + FirstFree(refs[1..])
  }

  function Allocated(refs: seq<nat>): seq<nat> {
    var i := FirstFree(refs);
    if i < |refs| then refs[i := 1] else refs
  }

  function Freed(refs: seq<nat>, start: nat, address: nat): seq<nat> {
    var i := FrameIndex(start, address);
    if i < |refs| && refs[i] > 0 then refs[i := refs[i] - 1] else refs
  }

  lemma {:induction false} FreeCountUpdate(refs: seq<nat>, i: nat, v: nat)
    requires i < |refs|
    ensures FreeCount(refs[i := v]) ==
            FreeCount(refs) - (if refs[i] == 0 then 1 else 0) + (if v == 0 then 1 else 0)
  {
    if i == 0 {
      assert refs[i := v][1..] == refs[1..];
    } else {
      assert refs[i := v][1..] == refs[1..][i - 1 := v];
      FreeCountUpdate(refs[1..], i - 1, v);
    }
  }

  lemma {:induction false} FreeCountZero(refs: seq<nat>)
    ensures FreeCount(refs) == 0 <==> FirstFree(refs) == |refs|
  {
    if refs != [] {
      FreeCountZero(refs[1..]);
    }
  }

  lemma {:induction false} FirstFreeUnique(refs: seq<nat>, i: nat)
    requires i <= |refs| && (forall j :: 0 <= j < i ==> refs[j] > 0) && (i < |refs| ==> refs[i] == 0)
    ensures FirstFree(refs) == i
  {
    assert FirstFree(refs) < |refs| ==> refs[FirstFree(refs)] == 0;
  }

  lemma {:induction false} AllFree(n: nat)
    ensures FreeCount(seq(n, _ => 0)) == n
  {
    if n > 0 {
      assert seq(n, _ => 0)[1..] == seq(n - 1, _ => 0);
      AllFree(n - 1);
    }
  }

  /** A pool of a 32-bit address space has fewer than 2^20 frames, so its addresses do not repeat. */
  lemma {:induction false} IndexOfAddress(start: nat, i: nat)
    requires start < WORD && start % PAGE_SIZE == 0 && i < 0x10_0000
    ensures FrameIndex(start, FrameAddress(start, i)) == i
    ensures FrameAddress(start, i) % PAGE_SIZE == 0
  {
    var a := FrameAddress(start, i);
    assert a == start + i * PAGE_SIZE || a == start + i * PAGE_SIZE - WORD;
    assert (a - start) % WORD == i * PAGE_SIZE;
  }

  /** Only an address inside one of the pool's frames can name a frame. */
  lemma {:induction false} AddressOfIndex(start: nat, address: nat)
    requires start < WORD && start % PAGE_SIZE == 0 && address < WORD && address % PAGE_SIZE == 0
    ensures FrameAddress(start, FrameIndex(start, address)) == address
  {
    var d := (address - start) % WORD;
    assert d == address - start || d == address - start + WORD;
    assert d % PAGE_SIZE == 0;
    assert d / PAGE_SIZE * PAGE_SIZE == d;
  }

  /**
   Address 0 doubles as the failure value. A pool holds a frame at address 0 exactly if it begins
   there or wraps around the end of the address space.
   */
  predicate NoNullFrame(start: nat, n: nat) {
    n == 0 || (0 < start && start + (n - 1) * PAGE_SIZE < WORD)
  }

  lemma {:induction false} NullFrame(start: nat, n: nat)
    requires start < WORD && start % PAGE_SIZE == 0 && n < 0x10_0000
    ensures NoNullFrame(start, n) <==> forall i :: 0 <= i < n ==> FrameAddress(start, i) != 0
  {
    if NoNullFrame(start, n) {
      forall i | 0 <= i < n ensures FrameAddress(start, i) != 0 {
        assert 0 < start + i * PAGE_SIZE < WORD;
      }
    } else if start == 0 {
      assert FrameAddress(start, 0) == 0;
    } else {
      var i := (WORD - start) / PAGE_SIZE;
      assert i * PAGE_SIZE == WORD - start;
      assert start + i * PAGE_SIZE == WORD;
      assert FrameAddress(start, i) == 0;
    }
  }

  /** Freeing a frame that was just allocated restores the pool. */
  lemma {:induction false} AllocateThenFree(refs: seq<nat>, start: nat)
    requires start < WORD && start % PAGE_SIZE == 0 && |refs| < 0x10_0000
    ensures var i := FirstFree(refs);
      i < |refs| ==> Freed(Allocated(refs), start, FrameAddress(start, i)) == refs
  {
    var i := FirstFree(refs);
    if i < |refs| {
      IndexOfAddress(start, i);
    }
  }

  /** An address inside frame `i`. */
  predicate InFrame(start: nat, i: nat, address: nat) {
    (address - FrameAddress(start, i)) % WORD < PAGE_SIZE
  }

  /** Every address inside a frame, and no other, names it, even in a pool that wraps around. */
  lemma {:induction false} NamesFrame(start: nat, i: nat, address: nat)
    requires i < 0x10_0000
    ensures FrameIndex(start, address) == i <==> InFrame(start, i, address)
  {
    var d := (address - start) % WORD;
    var e := (address - FrameAddress(start, i)) % WORD;
    SameRemainder(address - start, start + i * PAGE_SIZE, address, i);
    assert e == d - i * PAGE_SIZE || e == d - i * PAGE_SIZE + WORD;
  }

  lemma {:induction false} SameRemainder(x: int, s: nat, address: nat, i: nat)
    requires x == address - s + i * PAGE_SIZE
    ensures (address - s % WORD) % WORD == (x % WORD - i * PAGE_SIZE) % WORD
  {
    assert address - s % WORD == address - s + s / WORD * WORD;
    assert x % WORD - i * PAGE_SIZE == address - s - x / WORD * WORD;
    ModPlus(address - s, s / WORD);
    ModPlus(address - s, -(x / WORD));
  }

  lemma {:induction false} ModPlus(a: int, k: int)
    ensures (a + k * WORD) % WORD == a % WORD
  {
  }

  /** A free changes nothing exactly if its address is in no frame that is in use. */
  lemma {:induction false} FreeForeign(refs: seq<nat>, start: nat, address: nat)
    requires |refs| < 0x10_0000
    ensures Freed(refs, start, address) == refs <==> forall i :: 0 <= i < |refs| && InFrame(start, i, address) ==> refs[i] == 0
  {
    var f := FrameIndex(start, address);
    forall i | 0 <= i < |refs| ensures InFrame(start, i, address) <==> f == i {
      NamesFrame(start, i, address);
    }
    if f < |refs| && refs[f] > 0 {
      assert Freed(refs, start, address)[f] == refs[f] - 1;
    }
    hide InFrame, FrameIndex;
  }

  /** A free of an address in a frame in use takes one reference from that frame, and from no other. */
  lemma {:induction false} FreedOne(refs: seq<nat>, start: nat, address: nat, i: nat)
    requires i < |refs| < 0x10_0000 && refs[i] > 0 && InFrame(start, i, address)
    ensures Freed(refs, start, address) == refs[i := refs[i] - 1]
  {
    NamesFrame(start, i, address);
    hide InFrame, FrameIndex;
  }

  // ---------- how far an allocation can get ----------

  /** No free frame has address 0, the value that stands for failure. */
  ghost predicate NoFreeNull(refs: seq<nat>, start: nat) {
    forall i :: 0 <= i < |refs| && refs[i] == 0 ==> FrameAddress(start, i) != 0
  }

  /** How many frames can be allocated in a row before the value that stands for failure comes up. */
  function Reach(refs: seq<nat>, start: nat): nat
    decreases FreeCount(refs)
  {
    var i := FirstFree(refs);
    if i == |refs| || FrameAddress(start, i) == 0 then 0
    else
      FreeCountUpdate(refs, i, 1);
      1 + Reach(Allocated(refs), start)
  }

  /** All free frames can be allocated exactly if none of them has address 0. */
  lemma {:induction false} ReachAll(refs: seq<nat>, start: nat)
    ensures Reach(refs, start) <= FreeCount(refs)
    ensures Reach(refs, start) == FreeCount(refs) <==> NoFreeNull(refs, start)
    decreases FreeCount(refs)
  {
    var i := FirstFree(refs);
    FreeCountZero(refs);
    if i < |refs| && FrameAddress(start, i) != 0 {
      FreeCountUpdate(refs, i, 1);
      ReachAll(Allocated(refs), start);
      NoFreeNullAllocated(refs, start);
    }
  }

  lemma {:induction false} NoFreeNullAllocated(refs: seq<nat>, start: nat)
    requires FirstFree(refs) < |refs| && FrameAddress(start, FirstFree(refs)) != 0
    ensures NoFreeNull(Allocated(refs), start) <==> NoFreeNull(refs, start)
  {
    var r := Allocated(refs);
    forall j | 0 <= j < |refs| && j != FirstFree(refs) ensures r[j] == refs[j] {
    }
    hide FirstFree, FrameAddress;
  }

  /** Otherwise those before it can be. */
  lemma {:induction false} ReachBefore(refs: seq<nat>, start: nat, z: nat)
    requires start < WORD && start % PAGE_SIZE == 0 && |refs| < 0x10_0000
    requires z < |refs| && refs[z] == 0 && FrameAddress(start, z) == 0
    ensures Reach(refs, start) == FreeCount(refs[..z])
    decreases FreeCount(refs)
  {
    var i := FirstFree(refs);
    assert i <= z;
    FreeCountZero(refs[..z]);
    if i == z {
      FirstFreeUnique(refs[..z], z);
    } else {
      IndexOfAddress(start, i);
      IndexOfAddress(start, z);
      FreeCountUpdate(refs, i, 1);
      ReachBefore(Allocated(refs), start, z);
      assert Allocated(refs)[..z] == refs[..z][i := 1];
      FreeCountUpdate(refs[..z], i, 1);
    }
  }

  lemma {:induction false} NoBitSet(words: seq<bv32>)
    requires forall w <- words :: w == 0
    ensures forall i: nat :: !BitAt32(words, i)
  {
    forall i: nat ensures !BitAt32(words, i) {
      assert i / 32 < |words| ==> words[i / 32] in words;
      ZeroHasNoBit32(i % 32);
    }
  }

  // ---------- the pool ----------

  datatype PageFrame = PageFrame(physicalAddress: nat, referenceCount: nat, flags: nat)

  class PageFrameManager {
    var totalFrames: nat
    var freeFrames: nat
    var frameBitmap: array<bv32>
    var frames: array<PageFrame>
    ghost var start: nat

    ghost predicate Shaped()
      reads this, frameBitmap, frames
    {
      && totalFrames < 0x10_0000 && start < WORD && start % PAGE_SIZE == 0
      && frameBitmap.Length == (totalFrames + 31) / 32 && frames.Length == totalFrames
      && (frames as object) != frameBitmap
    }

    /** The reference counts. */
    ghost function Refs(): (s: seq<nat>)
      reads this, frames
      ensures |s| == frames.Length
      ensures forall i :: 0 <= i < |s| ==> s[i] == frames[i].referenceCount
    {
      seq(frames.Length, i requires 0 <= i < frames.Length reads this, frames => frames[i].referenceCount)
    }

    ghost predicate BitAgrees(i: nat)
      requires Shaped() && i < totalFrames
      reads this, frameBitmap, frames
    {
      && (BitAt32(frameBitmap[..], i) <==> frames[i].referenceCount > 0)
      && (frames[i].referenceCount == 0 ==> frames[i].flags == 0)
    }

    ghost predicate Valid()
      reads this, frameBitmap, frames
    {
      && Shaped()
      && (forall i :: 0 <= i < totalFrames ==> BitAgrees(i))
      && (forall i :: 0 <= i < totalFrames ==> frames[i].physicalAddress == FrameAddress(start, i))
      && freeFrames == FreeCount(Refs())
    }

    constructor (startAddress: nat, size: nat)
      requires startAddress < WORD && size < WORD
      ensures Valid() && fresh(frameBitmap) && fresh(frames)
      ensures start == AlignUp(startAddress) && totalFrames == size / PAGE_SIZE
      ensures Refs() == seq(totalFrames, _ => 0)
    {
      var aligned := AlignUp(startAddress);
      var total := size / PAGE_SIZE;
      totalFrames := total;
      freeFrames := total;
      start := aligned;
      frameBitmap := new bv32[(total + 31) / 32](_ => 0);
      var table := new PageFrame[total](_ => PageFrame(0, 0, 0));
      frames := table;
      new;
      hide FrameAddress, FreeCount, BitAt32;
      FillFrames(aligned);
      assert Refs() == seq(total, _ => 0);
      AllFree(total);
      NoBitSet(frameBitmap[..]);
    }

    /** The loop that fills the table of frames. */
    method FillFrames(aligned: nat)
      modifies frames
      ensures forall j :: 0 <= j < frames.Length ==> frames[j] == PageFrame(FrameAddress(aligned, j), 0, 0)
    {
      for i := 0 to frames.Length
        invariant forall j :: 0 <= j < i ==> frames[j] == PageFrame(FrameAddress(aligned, j), 0, 0)
      {
        frames[i] := PageFrame((aligned + i * PAGE_SIZE) % WORD, 0, 0);
      }
    }

    /** The address of the first free frame, now in use, or 0 if there is none. */
    method Allocate() returns (address: nat)
      requires Valid()
      modifies this`freeFrames, frameBitmap, frames
      ensures Valid() && Refs() == Allocated(old(Refs()))
      ensures var i := FirstFree(old(Refs()));
        address == if i < totalFrames then FrameAddress(start, i) else 0
    {
      hide IsSet32, Bit32;
      for i := 0 to totalFrames
        invariant Valid() && Refs() == old(Refs())
        invariant forall j :: 0 <= j < i ==> Refs()[j] > 0
      {
        assert BitAgrees(i);
        if !IsSet32(frameBitmap[i / 32], i % 32) {
          FirstFreeUnique(Refs(), i);
          address := Take(i);
          return;
        }
      }
      FirstFreeUnique(Refs(), totalFrames);
      return 0;
    }

    method SetUsed(i: nat)
      requires i / 32 < frameBitmap.Length
      modifies frameBitmap
      ensures frameBitmap[..] == WithBit32(old(frameBitmap[..]), i)
    {
      hide Bit32;
      var word := frameBitmap[i / 32] | Bit32(i % 32);
      frameBitmap[i / 32] := word;
    }

    method ClearUsed(i: nat)
      requires i / 32 < frameBitmap.Length
      modifies frameBitmap
      ensures frameBitmap[..] == WithoutBit32(old(frameBitmap[..]), i)
    {
      hide Bit32;
      var word := frameBitmap[i / 32] & !Bit32(i % 32);
      frameBitmap[i / 32] := word;
    }

    /** The body of the search loop: frame `i` is taken. */
    method Take(i: nat) returns (address: nat)
      requires Valid() && i < totalFrames && frames[i].referenceCount == 0
      modifies this`freeFrames, frameBitmap, frames
      ensures Valid() && Refs() == old(Refs())[i := 1] && address == FrameAddress(start, i)
    {
      hide IsSet32, Bit32;
      ghost var bits, refs := frameBitmap[..], Refs();
      SetBitAt32(bits, i);
      FreeCountUpdate(refs, i, 1);
      SetUsed(i);
      freeFrames := freeFrames - 1;
      frames[i] := frames[i].(referenceCount := frames[i].referenceCount + 1);
      assert Refs() == refs[i := 1];
      forall j | 0 <= j < totalFrames ensures BitAgrees(j) {
        assert old(BitAgrees(j));
      }
      address := frames[i].physicalAddress;
    }

    /** Gives back one reference; a frame without references is free again. Other addresses change nothing. */
    method Free(address: nat)
      requires Valid() && address < WORD
      modifies this`freeFrames, frameBitmap, frames
      ensures Valid() && Refs() == Freed(old(Refs()), start, address)
    {
      hide IsSet32, Bit32;
      if totalFrames == 0 {
        return;
      }
      var i := ((address - frames[0].physicalAddress) % WORD) / PAGE_SIZE;
      assert i == FrameIndex(start, address);
      if i >= totalFrames {
        return;
      }
      assert BitAgrees(i);
      if !IsSet32(frameBitmap[i / 32], i % 32) {
        return;
      }
      Release(i);
    }

    /** The rest of a free: frame `i`, which is in use, loses one reference. */
    method Release(i: nat)
      requires Valid() && i < totalFrames && frames[i].referenceCount > 0
      modifies this`freeFrames, frameBitmap, frames
      ensures Valid() && Refs() == old(Refs())[i := old(Refs())[i] - 1]
    {
      hide IsSet32, Bit32;
      ghost var bits, refs := frameBitmap[..], Refs();
      ClearBitAt32(bits, i);
      FreeCountUpdate(refs, i, refs[i] - 1);
      frames[i] := frames[i].(referenceCount := frames[i].referenceCount - 1);
      if frames[i].referenceCount == 0 {
        ClearUsed(i);
        freeFrames := freeFrames + 1;
        frames[i] := frames[i].(flags := 0);
      }
      assert Refs() == refs[i := refs[i] - 1];
      forall j | 0 <= j < totalFrames ensures BitAgrees(j) {
        assert old(BitAgrees(j));
      }
    }
  }
}
