/** Which page holds which frame of the pool, over every run of allocations and releases. */
module FrameOwnership {
  import opened Machine
  import opened FramePool
  import opened PageTables
  import opened VirtualMemory

  /** The pool frame, if any, that an entry names. */
  function EntryFrame(start: nat, e: Entry): nat {
    FrameIndex(start, e.base * PAGE_SIZE % WORD)
  }

  /** Page `p` of directory `d` is mapped onto frame `f` of a pool of `n` frames. */
  ghost predicate Holds(m: Mem, d: nat, p: nat, f: nat, start: nat, n: nat)
    requires WellFormed(m)
  {
    && d < |m.dirs| && p < PAGES && f < n
    && Lookup(m, d, p).Some? && EntryFrame(start, Lookup(m, d, p).value) == f
  }

  /** Every pool frame is mapped at most once, by a user page, and then its count is one. */
  ghost predicate Owned(m: Mem, refs: seq<nat>, start: nat) {
    && WellFormed(m)
    && (forall d: nat, p: nat, f: nat :: f < |refs| && Holds(m, d, p, f, start, |refs|) ==> p < KERNEL_PAGE && refs[f] == 1)
    && (forall d: nat, p: nat, d': nat, p': nat, f: nat :: f < |refs| && Holds(m, d, p, f, start, |refs|) && Holds(m, d', p', f, start, |refs|) ==> d == d' && p == p')
  }

  ghost predicate UserRange(first: nat, n: nat) {
    forall k :: 0 <= k < n ==> PageAt(first, k) < KERNEL_PAGE
  }

  lemma {:induction false} AllocationKeepsOwned(m: Mem, m': Mem, d: nat, first: nat, fs: seq<nat>, flags: nat, refs: seq<nat>, refs': seq<nat>, start: nat)
    requires Owned(m, refs, start) && Taken(refs, refs', fs) && UserRange(first, |fs|)
    requires first < PAGES && |fs| < PAGES && start < WORD && start % PAGE_SIZE == 0 && |refs| < PAGES
    requires RangeUpdated(m, m', d, first, FrameEntries(start, fs, flags))
    ensures Owned(m', refs', start)
  {
    forall d': nat, p: nat, f: nat | f < |refs| && Holds(m', d', p, f, start, |refs|)
      ensures if d' == d && Offset(first, p) < |fs| then f == fs[Offset(first, p)] && p < KERNEL_PAGE
              else Holds(m, d', p, f, start, |refs|)
    {
      OffsetOfPage(first, Offset(first, p), p);
      if d' == d && Offset(first, p) < |fs| {
        var g := fs[Offset(first, p)];
        assert g in fs;
        FrameOfEntry(start, g, flags);
        IndexOfAddress(start, g);
      }
    }
    forall d': nat, p: nat, f: nat | f < |refs| && Holds(m', d', p, f, start, |refs|) && d' == d && Offset(first, p) < |fs|
      ensures p == PageAt(first, Offset(first, p))
    {
      OffsetOfPage(first, Offset(first, p), p);
    }
    HoldersKept(m, m', d, first, fs, refs, refs', start);
  }

  /** After an allocation every holder is a new one, holding the frame of its place, or an old one. */
  lemma {:induction false} HoldersKept(m: Mem, m': Mem, d: nat, first: nat, fs: seq<nat>, refs: seq<nat>, refs': seq<nat>, start: nat)
    requires Owned(m, refs, start) && Taken(refs, refs', fs) && WellFormed(m')
    requires forall d': nat, p: nat, f: nat :: f < |refs| && Holds(m', d', p, f, start, |refs|) ==>
      if d' == d && Offset(first, p) < |fs| then f == fs[Offset(first, p)] && p < KERNEL_PAGE
      else Holds(m, d', p, f, start, |refs|)
    requires forall d': nat, p: nat, f: nat :: f < |refs| && Holds(m', d', p, f, start, |refs|) && d' == d && Offset(first, p) < |fs| ==>
      p == PageAt(first, Offset(first, p))
    ensures Owned(m', refs', start)
  {
    hide Holds, WellFormed, Offset, PageAt;
    forall d': nat, p: nat, f: nat | f < |refs| && Holds(m', d', p, f, start, |refs|)
      ensures p < KERNEL_PAGE && refs'[f] == 1
      ensures if d' == d && Offset(first, p) < |fs| then refs[f] == 0 else refs[f] == 1
    {
      if d' == d && Offset(first, p) < |fs| {
        assert f in fs;
      } else {
        assert refs[f] == 1;
      }
    }
    forall d1: nat, p1: nat, d2: nat, p2: nat, f: nat
      | f < |refs| && Holds(m', d1, p1, f, start, |refs|) && Holds(m', d2, p2, f, start, |refs|)
      ensures d1 == d2 && p1 == p2
    {
      if d1 == d && Offset(first, p1) < |fs| {
        assert fs[Offset(first, p1)] == fs[Offset(first, p2)];
      }
    }
  }

  lemma {:induction false} RefusalKeepsOwned(m: Mem, m': Mem, d: nat, first: nat, n: nat, lost: seq<nat>, refs: seq<nat>, refs': seq<nat>, start: nat)
    requires Owned(m, refs, start) && Taken(refs, refs', lost) && UserRange(first, n)
    requires first < PAGES && n < PAGES && RangeUpdated(m, m', d, first, Absent(n))
    ensures Owned(m', refs', start)
  {
    forall d': nat, p: nat, f: nat | f < |refs| && Holds(m', d', p, f, start, |refs|) ensures Holds(m, d', p, f, start, |refs|) {
      OffsetOfPage(first, Offset(first, p), p);
    }
    hide Holds, WellFormed, Offset, PageAt, RangeUpdated;
    forall d': nat, p: nat, f: nat | f < |refs| && Holds(m', d', p, f, start, |refs|) ensures p < KERNEL_PAGE && refs'[f] == 1 {
      assert refs[f] == 1;
    }
  }

  /** While a range is unmapped page by page, the frames held elsewhere keep their count. */
  lemma {:induction false} OthersKeepCount(m: Mem, d: nat, first: nat, k: nat, refs: seq<nat>, start: nat, d': nat, p: nat, f: nat)
    requires Owned(m, refs, start) && d < |m.dirs| && first < PAGES && k < PAGES
    requires Holds(m, d', p, f, start, |refs|) && (d' != d || Offset(first, p) >= k)
    ensures var r := RefsUnmapped(m, d, first, k, refs, start); |r| == |refs| && r[f] == 1
  {
    if k > 0 {
      OthersKeepCount(m, d, first, k - 1, refs, start, d', p, f);
      var page := PageAt(first, k - 1);
      OffsetOfPage(first, k - 1, page);
      if Lookup(m, d, page).Some? {
        var g := EntryFrame(start, Lookup(m, d, page).value);
        if g == f {
          assert Holds(m, d, page, f, start, |refs|);
        }
      }
    }
  }

  lemma {:induction false} RefsUnmappedLength(m: Mem, d: nat, first: nat, k: nat, refs: seq<nat>, start: nat)
    requires WellFormed(m) && d < |m.dirs|
    ensures |RefsUnmapped(m, d, first, k, refs, start)| == |refs|
  {
    if k > 0 {
      RefsUnmappedLength(m, d, first, k - 1, refs, start);
    }
  }

  lemma {:induction false} FreeKeepsOwned(m: Mem, m': Mem, d: nat, first: nat, n: nat, refs: seq<nat>, start: nat)
    requires Owned(m, refs, start) && UserRange(first, n)
    requires first < PAGES && n < PAGES && RangeUpdated(m, m', d, first, Absent(n))
    ensures Owned(m', RefsUnmapped(m, d, first, n, refs, start), start)
  {
    var refs' := RefsUnmapped(m, d, first, n, refs, start);
    RefsUnmappedLength(m, d, first, n, refs, start);
    forall d': nat, p: nat, f: nat | f < |refs| && Holds(m', d', p, f, start, |refs|)
      ensures Holds(m, d', p, f, start, |refs|) && refs'[f] == 1
    {
      OffsetOfPage(first, Offset(first, p), p);
      OthersKeepCount(m, d, first, n, refs, start, d', p, f);
    }
    hide Holds, WellFormed, Offset, PageAt, RangeUpdated, RefsUnmapped;
  }

  /** A new directory holds no pool frame. */
  lemma {:induction false} NewDirectoryKeepsOwned(m: Mem, k: Option<nat>, refs: seq<nat>, start: nat)
    requires Owned(m, refs, start) && (k.Some? ==> k.value < |m.dirs|)
    ensures Owned(WithDirectory(m, k), refs, start)
  {
    WithDirectoryKeeps(m, k);
    var m' := WithDirectory(m, k);
    forall d: nat, p: nat, f: nat | f < |refs| && Holds(m', d, p, f, start, |refs|) ensures Holds(m, d, p, f, start, |refs|) {
      if d == |m.dirs| {
        assert p >= KERNEL_PAGE && k.Some?;
        assert Holds(m, k.value, p, f, start, |refs|);
      }
    }
  }

  // ---------- frames in use that no page holds ----------

  ghost predicate Held(m: Mem, f: nat, start: nat, n: nat)
    requires WellFormed(m)
  {
    exists d: nat, p: nat :: Holds(m, d, p, f, start, n)
  }

  /** Moreover every frame in use is mapped: none has leaked. */
  ghost predicate Tight(m: Mem, refs: seq<nat>, start: nat) {
    Owned(m, refs, start) && forall f :: 0 <= f < |refs| && refs[f] > 0 ==> Held(m, f, start, |refs|)
  }

  /** No page of a range of `d` holds a frame. */
  ghost predicate HoldsNone(m: Mem, d: nat, first: nat, n: nat, start: nat, total: nat)
    requires WellFormed(m)
  {
    forall p: nat, f: nat :: Offset(first, p) < n && Holds(m, d, p, f, start, total) ==> false
  }

  /** What is held after a range update: what the new entries name, and outside the range what was held. */
  lemma {:induction false} HoldsAfter(m: Mem, m': Mem, d: nat, first: nat, es: seq<Option<Entry>>, start: nat, total: nat, d': nat, p: nat, f: nat)
    requires RangeUpdated(m, m', d, first, es) && first < PAGES && |es| < PAGES && UserRange(first, |es|)
    ensures WellFormed(m) && WellFormed(m')
    ensures Holds(m', d', p, f, start, total) <==>
      if d' == d && p < PAGES && Offset(first, p) < |es| then
        var e := es[Offset(first, p)];
        e.Some? && EntryFrame(start, e.value) == f < total
      else Holds(m, d', p, f, start, total)
  {
    if p < PAGES {
      OffsetOfPage(first, Offset(first, p), p);
    }
    hide Offset, WellFormed, EntryFrame;
  }

  /** The entry made for a frame names it. */
  lemma {:induction false} NamesItsFrame(start: nat, fs: seq<nat>, flags: nat, k: nat)
    requires start < WORD && start % PAGE_SIZE == 0 && k < |fs| && fs[k] < PAGES
    ensures EntryFrame(start, FrameEntries(start, fs, flags)[k].value) == fs[k]
  {
    FrameOfEntry(start, fs[k], flags);
    IndexOfAddress(start, fs[k]);
  }

  /** Afterwards the pages of the range hold the frames of `fs`, and all others what they held. */
  ghost predicate NowHolds(m: Mem, m': Mem, d: nat, first: nat, fs: seq<nat>, start: nat, total: nat)
    requires WellFormed(m) && WellFormed(m')
  {
    forall d': nat, p: nat, f: nat :: Holds(m', d', p, f, start, total) <==>
      if d' == d && p < PAGES && Offset(first, p) < |fs| then fs[Offset(first, p)] == f else Holds(m, d', p, f, start, total)
  }

  lemma {:induction false} AllocatedHolds(m: Mem, m': Mem, d: nat, first: nat, fs: seq<nat>, flags: nat, refs: seq<nat>, refs': seq<nat>, start: nat)
    requires Taken(refs, refs', fs) && UserRange(first, |fs|)
    requires first < PAGES && |fs| < PAGES && start < WORD && start % PAGE_SIZE == 0 && |refs| < PAGES
    requires RangeUpdated(m, m', d, first, FrameEntries(start, fs, flags))
    ensures WellFormed(m) && WellFormed(m') && NowHolds(m, m', d, first, fs, start, |refs|)
  {
    var es := FrameEntries(start, fs, flags);
    forall k | 0 <= k < |fs| ensures EntryFrame(start, es[k].value) == fs[k] < |refs| {
      assert fs[k] in fs;
      NamesItsFrame(start, fs, flags, k);
    }
    forall d': nat, p: nat, f: nat ensures Holds(m', d', p, f, start, |refs|) <==>
      if d' == d && p < PAGES && Offset(first, p) < |fs| then fs[Offset(first, p)] == f else Holds(m, d', p, f, start, |refs|)
    {
      HoldsAfter(m, m', d, first, es, start, |refs|, d', p, f);
    }
    hide Holds, WellFormed, RangeUpdated, EntryFrame;
  }

  /** An allocation leaks no frame exactly if no page of its range held one. */
  lemma {:induction false} AllocationTight(m: Mem, m': Mem, d: nat, first: nat, fs: seq<nat>, flags: nat, refs: seq<nat>, refs': seq<nat>, start: nat)
    requires Tight(m, refs, start) && Taken(refs, refs', fs) && UserRange(first, |fs|)
    requires first < PAGES && |fs| < PAGES && start < WORD && start % PAGE_SIZE == 0 && |refs| < PAGES
    requires RangeUpdated(m, m', d, first, FrameEntries(start, fs, flags))
    ensures Tight(m', refs', start) <==> HoldsNone(m, d, first, |fs|, start, |refs|)
  {
    AllocationKeepsOwned(m, m', d, first, fs, flags, refs, refs', start);
    AllocatedHolds(m, m', d, first, fs, flags, refs, refs', start);
    hide Holds, WellFormed, RangeUpdated, Owned, PageAt, Offset, UserRange, NowHolds;
    if HoldsNone(m, d, first, |fs|, start, |refs|) {
      forall f | 0 <= f < |refs| && refs'[f] > 0 ensures Held(m', f, start, |refs|) {
        if f in fs {
          HeldInRange(m, m', d, first, fs, start, |refs|, f);
        } else {
          HeldElsewhere(m, m', d, first, fs, start, |refs|, f);
        }
      }
    } else {
      var p: nat, f: nat :| Offset(first, p) < |fs| && Holds(m, d, p, f, start, |refs|);
      HolderIs(m, refs, start, d, p, f);
      assert f !in fs && refs'[f] > 0;
      NoLongerHeld(m, m', d, first, fs, refs, start, p, f);
    }
  }

  lemma {:induction false} HeldInRange(m: Mem, m': Mem, d: nat, first: nat, fs: seq<nat>, start: nat, total: nat, f: nat)
    requires WellFormed(m) && WellFormed(m') && NowHolds(m, m', d, first, fs, start, total)
    requires first < PAGES && |fs| < PAGES && f in fs
    ensures Held(m', f, start, total)
  {
    var k :| 0 <= k < |fs| && fs[k] == f;
    OffsetOfPage(first, k, PageAt(first, k));
    assert Holds(m', d, PageAt(first, k), f, start, total);
  }

  lemma {:induction false} HeldElsewhere(m: Mem, m': Mem, d: nat, first: nat, fs: seq<nat>, start: nat, total: nat, f: nat)
    requires WellFormed(m) && WellFormed(m') && NowHolds(m, m', d, first, fs, start, total)
    requires HoldsNone(m, d, first, |fs|, start, total) && Held(m, f, start, total)
    ensures Held(m', f, start, total)
  {
    hide Holds, WellFormed, Offset;
    var d0: nat, p0: nat :| Holds(m, d0, p0, f, start, total);
    assert Holds(m', d0, p0, f, start, total);
  }

  /** A frame that was held by a page of the range is held by none afterwards. */
  lemma {:induction false} NoLongerHeld(m: Mem, m': Mem, d: nat, first: nat, fs: seq<nat>, refs: seq<nat>, start: nat, p: nat, f: nat)
    requires Owned(m, refs, start) && WellFormed(m') && NowHolds(m, m', d, first, fs, start, |refs|)
    requires Offset(first, p) < |fs| && Holds(m, d, p, f, start, |refs|) && f !in fs
    ensures !Held(m', f, start, |refs|)
  {
    HolderIs(m, refs, start, d, p, f);
    hide Holds, WellFormed, Owned, Offset;
    forall d': nat, p': nat ensures !Holds(m', d', p', f, start, |refs|) {
    }
  }

  lemma {:induction false} HolderIs(m: Mem, refs: seq<nat>, start: nat, d: nat, p: nat, f: nat)
    requires Owned(m, refs, start) && Holds(m, d, p, f, start, |refs|)
    ensures f < |refs| && refs[f] == 1 && p < KERNEL_PAGE
    ensures forall d': nat, p': nat :: Holds(m, d', p', f, start, |refs|) ==> d' == d && p' == p
  {
  }

  /** A refused allocation leaks no frame exactly if it lost none and no page that it reached held one. */
  lemma {:induction false} RefusalTight(m: Mem, m': Mem, d: nat, first: nat, n: nat, lost: seq<nat>, refs: seq<nat>, refs': seq<nat>, start: nat)
    requires Tight(m, refs, start) && Taken(refs, refs', lost) && UserRange(first, n)
    requires first < PAGES && n < PAGES && RangeUpdated(m, m', d, first, Absent(n))
    ensures Tight(m', refs', start) <==> lost == [] && HoldsNone(m, d, first, n, start, |refs|)
  {
    RefusalKeepsOwned(m, m', d, first, n, lost, refs, refs', start);
    forall d': nat, p: nat, f: nat ensures Holds(m', d', p, f, start, |refs|) <==>
      Holds(m, d', p, f, start, |refs|) && !(d' == d && Offset(first, p) < n)
    {
      HoldsAfter(m, m', d, first, Absent(n), start, |refs|, d', p, f);
    }
    hide Holds, WellFormed, RangeUpdated, Offset;
    if lost != [] {
      var f := lost[0];
      assert f in lost && refs'[f] == 1;
      forall d': nat, p': nat ensures !Holds(m', d', p', f, start, |refs|) {
        if Holds(m, d', p', f, start, |refs|) {
          HolderIs(m, refs, start, d', p', f);
        }
      }
    } else if HoldsNone(m, d, first, n, start, |refs|) {
      forall f | 0 <= f < |refs| && refs'[f] > 0 ensures Held(m', f, start, |refs|) {
        var d0: nat, p0: nat :| Holds(m, d0, p0, f, start, |refs|);
        assert Holds(m', d0, p0, f, start, |refs|);
      }
    } else {
      var p: nat, f: nat :| Offset(first, p) < n && Holds(m, d, p, f, start, |refs|);
      HolderIs(m, refs, start, d, p, f);
      assert refs'[f] > 0;
    }
  }

  /** Unmapping takes a reference from the frame of each page of the range, and only from those. */
  lemma {:induction false} CountsAfterUnmap(m: Mem, d: nat, first: nat, k: nat, refs: seq<nat>, start: nat, p: nat, f: nat)
    requires Owned(m, refs, start) && d < |m.dirs| && first < PAGES && k < PAGES && f < |refs|
    ensures var r := RefsUnmapped(m, d, first, k, refs, start);
      |r| == |refs| && r[f] <= refs[f] && (Holds(m, d, p, f, start, |refs|) && Offset(first, p) < k ==> r[f] == 0)
  {
    RefsUnmappedLength(m, d, first, k, refs, start);
    if k > 0 {
      CountsAfterUnmap(m, d, first, k - 1, refs, start, p, f);
      var page := PageAt(first, k - 1);
      OffsetOfPage(first, k - 1, page);
      RefsUnmappedLength(m, d, first, k - 1, refs, start);
      if Holds(m, d, p, f, start, |refs|) && Offset(first, p) == k - 1 {
        OffsetOfPage(first, k - 1, p);
        OthersKeepCount(m, d, first, k - 1, refs, start, d, p, f);
      }
    }
  }

  /** A release leaks no frame. */
  lemma {:induction false} FreeTight(m: Mem, m': Mem, d: nat, first: nat, n: nat, refs: seq<nat>, start: nat)
    requires Tight(m, refs, start) && UserRange(first, n)
    requires first < PAGES && n < PAGES && RangeUpdated(m, m', d, first, Absent(n))
    ensures Tight(m', RefsUnmapped(m, d, first, n, refs, start), start)
  {
    var refs' := RefsUnmapped(m, d, first, n, refs, start);
    FreeKeepsOwned(m, m', d, first, n, refs, start);
    RefsUnmappedLength(m, d, first, n, refs, start);
    forall f | 0 <= f < |refs| && refs'[f] > 0 ensures Held(m', f, start, |refs|) {
      CountsAfterUnmap(m, d, first, n, refs, start, 0, f);
      var d0: nat, p0: nat :| Holds(m, d0, p0, f, start, |refs|);
      CountsAfterUnmap(m, d, first, n, refs, start, p0, f);
      HoldsAfter(m, m', d, first, Absent(n), start, |refs|, d0, p0, f);
      assert Holds(m', d0, p0, f, start, |refs|);
    }
    hide Holds, WellFormed, Owned, RangeUpdated, RefsUnmapped;
  }

  // ---------- runs ----------

  datatype Op =
    | Create
    | Allocate(d: nat, address: nat, size: nat, flags: nat)
    | Free(d: nat, address: nat, size: nat)

  /** Addresses are 32-bit and name user pages. */
  predicate UserOp(op: Op) {
    op.Create? || (op.address < WORD && op.size < WORD &&
                   forall k :: 0 <= k < PageCount(op.size) ==> PageAt(op.address / PAGE_SIZE, k) < KERNEL_PAGE)
  }

  predicate Names(op: Op, d: nat) {
    !op.Create? && op.d == d
  }

  /** User pages of directory `d` are as before. */
  ghost predicate UserPagesKept(m: Mem, m': Mem, d: nat)
    requires WellFormed(m) && WellFormed(m') && d < |m.dirs| <= |m'.dirs|
  {
    forall p :: 0 <= p < KERNEL_PAGE ==> Lookup(m', d, p) == Lookup(m, d, p)
  }

  /** What is so before every run: nothing is mapped and no frame is in use. */
  lemma {:induction false} NothingOwned(m: Mem, refs: seq<nat>, start: nat)
    requires WellFormed(m) && m.dirs == [] && forall f :: 0 <= f < |refs| ==> refs[f] == 0
    ensures Tight(m, refs, start)
  {
  }

  /**
   Over every run of directory creation and of allocation and release of user pages, no pool frame
   is mapped twice and each mapped one is in use exactly once, whatever allocations are refused; and
   the user pages of directories that the run does not name are as before.
   */
  method Run(vm: VirtualMemoryManager, ops: seq<Op>)
    requires vm.Valid() && Owned(vm.Memory(), vm.pool.Refs(), vm.pool.start)
    requires forall op <- ops :: UserOp(op)
    modifies vm, vm.pool`freeFrames, vm.pool.frameBitmap, vm.pool.frames
    ensures vm.Valid() && Owned(vm.Memory(), vm.pool.Refs(), vm.pool.start)
    ensures |old(vm.dirs)| <= |vm.dirs|
    ensures forall d :: 0 <= d < |old(vm.dirs)| && (forall op <- ops :: !Names(op, d)) ==> UserPagesKept(old(vm.Memory()), vm.Memory(), d)
  {
    AllKept(vm.Memory());
    for i := 0 to |ops|
      invariant vm.Valid() && Owned(vm.Memory(), vm.pool.Refs(), vm.pool.start) && |old(vm.dirs)| <= |vm.dirs|
      invariant forall d :: 0 <= d < |old(vm.dirs)| && (forall op <- ops :: !Names(op, d)) ==> UserPagesKept(old(vm.Memory()), vm.Memory(), d)
    {
      hide Owned, RangeUpdated, Taken, WellFormed, Lookup, UserPagesKept;
      assert ops[i] in ops;
      ghost var m := vm.Memory();
      Step(vm, ops[i]);
      forall d | 0 <= d < |old(vm.dirs)| && (forall op <- ops :: !Names(op, d)) ensures UserPagesKept(old(vm.Memory()), vm.Memory(), d) {
        KeptOn(old(vm.Memory()), m, vm.Memory(), d);
      }
    }
  }

  /** The same from the beginning: a new pool and a kernel directory, if memory for that is granted. */
  method RunFromStart(startAddress: nat, size: nat, ops: seq<Op>) returns (vm: VirtualMemoryManager)
    requires startAddress < WORD && size < WORD && forall op <- ops :: UserOp(op)
    ensures vm.Valid() && Owned(vm.Memory(), vm.pool.Refs(), vm.pool.start)
  {
    hide WellFormed, Lookup;
    var pool := new PageFrameManager(startAddress, size);
    vm := new VirtualMemoryManager(pool);
    NothingOwned(vm.Memory(), pool.Refs(), pool.start);
    NewDirectoryKeepsOwned(vm.Memory(), None, pool.Refs(), pool.start);
    hide Owned;
    var d := vm.PdCreate();
    vm.kernelDirectory := d;
    Run(vm, ops);
  }

  method Step(vm: VirtualMemoryManager, op: Op)
    requires vm.Valid() && Owned(vm.Memory(), vm.pool.Refs(), vm.pool.start) && UserOp(op)
    modifies vm, vm.pool`freeFrames, vm.pool.frameBitmap, vm.pool.frames
    ensures vm.Valid() && Owned(vm.Memory(), vm.pool.Refs(), vm.pool.start) && |old(vm.dirs)| <= |vm.dirs|
    ensures forall d :: 0 <= d < |old(vm.dirs)| && !Names(op, d) ==> UserPagesKept(old(vm.Memory()), vm.Memory(), d)
  {
    hide Owned, RangeUpdated, Taken, WellFormed, Lookup, RefsUnmapped, UserPagesKept, PageAt, Offset, Reach, NoFreeNull;
    ghost var m, refs, start := vm.Memory(), vm.pool.Refs(), vm.pool.start;
    match op
    case Create =>
      NewDirectoryKeepsOwned(m, vm.kernelDirectory, refs, start);
      NewDirectoryKeepsPages(m, vm.kernelDirectory);
      var _ := vm.PdCreate();
    case Allocate(d, address, size, flags) =>
      Rounded(size);
      if d < |vm.dirs| {
        ghost var fs, reached, lost;
        var ok;
        ok, fs, reached, lost := vm.AllocatePages(Some(d), address, size, flags);
        if ok {
          AllocationKeepsOwned(m, vm.Memory(), d, address / PAGE_SIZE, fs, flags, refs, vm.pool.Refs(), start);
          OthersKept(m, vm.Memory(), d, address / PAGE_SIZE, FrameEntries(start, fs, flags));
        } else {
          RefusalKeepsOwned(m, vm.Memory(), d, address / PAGE_SIZE, reached, lost, refs, vm.pool.Refs(), start);
          OthersKept(m, vm.Memory(), d, address / PAGE_SIZE, Absent(reached));
        }
      } else {
        AllKept(m);
      }
    case Free(d, address, size) =>
      if d < |vm.dirs| {
        var _ := vm.FreePages(Some(d), address, size);
        FreeKeepsOwned(m, vm.Memory(), d, address / PAGE_SIZE, PageCount(size), refs, start);
        OthersKept(m, vm.Memory(), d, address / PAGE_SIZE, Absent(PageCount(size)));
      } else {
        AllKept(m);
      }
  }

  lemma {:induction false} OthersKept(m: Mem, m': Mem, d: nat, first: nat, es: seq<Option<Entry>>)
    requires RangeUpdated(m, m', d, first, es)
    ensures WellFormed(m) && WellFormed(m') && |m.dirs| == |m'.dirs|
    ensures forall d' :: 0 <= d' < |m.dirs| && d' != d ==> UserPagesKept(m, m', d')
  {
  }

  lemma {:induction false} KeptOn(m: Mem, m1: Mem, m2: Mem, d: nat)
    requires WellFormed(m) && WellFormed(m1) && WellFormed(m2) && d < |m.dirs| <= |m1.dirs| <= |m2.dirs|
    requires UserPagesKept(m, m1, d) && UserPagesKept(m1, m2, d)
    ensures UserPagesKept(m, m2, d)
  {
  }

  lemma {:induction false} AllKept(m: Mem)
    requires WellFormed(m)
    ensures forall d :: 0 <= d < |m.dirs| ==> UserPagesKept(m, m, d)
  {
  }

  lemma {:induction false} NewDirectoryKeepsPages(m: Mem, k: Option<nat>)
    requires WellFormed(m) && (k.Some? ==> k.value < |m.dirs|)
    ensures WellFormed(WithDirectory(m, k)) && |m.dirs| <= |WithDirectory(m, k).dirs|
    ensures forall d :: 0 <= d < |m.dirs| ==> UserPagesKept(m, WithDirectory(m, k), d) && UserPagesKept(m, m, d)
  {
    WithDirectoryKeeps(m, k);
  }
}
