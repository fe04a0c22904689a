/**
 Page mapping, and the multi-page allocation that either completes or rolls back.

 A page range is a first page and a length; pages are counted modulo the size of the address
 space, as the 32-bit addition of the program does.
 */
module VirtualMemory {
  import opened Machine
  import opened FramePool
  import opened PageTables

  // ---------- ranges of pages ----------

  function PageAt(first: nat, k: nat): nat {
    (first + k) % PAGES
  }

  /** The place of page `p` in a range that begins at `first`. */
  function Offset(first: nat, p: nat): nat {
    (p - first) % PAGES
  }

  /** The number of pages that a byte size is rounded up to, in 32 bits. */
  function PageCount(size: nat): (n: nat)
    ensures n < PAGES
  {
    AlignUp(size) / PAGE_SIZE
  }

  lemma {:induction false} OffsetOfPage(first: nat, k: nat, p: nat)
    requires first < PAGES && k < PAGES && p < PAGES
    ensures PageAt(first, k) == p <==> Offset(first, p) == k
    ensures PageAt(first, k) < PAGES
  {
    assert Offset(first, p) == p - first || Offset(first, p) == p - first + PAGES;
    assert PageAt(first, k) == first + k || PageAt(first, k) == first + k - PAGES;
  }

  /** The pages of the range now translate as `es` says; other directories keep their user pages. */
  ghost predicate RangeUpdated(m: Mem, m': Mem, d: nat, first: nat, es: seq<Option<Entry>>) {
    && WellFormed(m) && WellFormed(m') && d < |m.dirs| == |m'.dirs|
    && (forall p :: 0 <= p < PAGES ==>
          Lookup(m', d, p) == if Offset(first, p) < |es| then es[Offset(first, p)] else Lookup(m, d, p))
    && (forall d', p :: 0 <= d' < |m.dirs| && d' != d && 0 <= p < PAGES && (p < KERNEL_PAGE || Offset(first, p) >= |es|) ==>
          Lookup(m', d', p) == Lookup(m, d', p))
  }

  /** The translation of one page has changed. */
  ghost predicate UpdatedAt(m: Mem, m': Mem, d: nat, page: nat, e: Option<Entry>) {
    RangeUpdated(m, m', d, page, [e])
  }

  lemma {:induction false} RangeExtended(m: Mem, m1: Mem, m2: Mem, d: nat, first: nat, es: seq<Option<Entry>>, e: Option<Entry>)
    requires first < PAGES && |es| < PAGES
    requires RangeUpdated(m, m1, d, first, es) && UpdatedAt(m1, m2, d, PageAt(first, |es|), e)
    ensures RangeUpdated(m, m2, d, first, es + [e])
  {
    forall p | 0 <= p < PAGES ensures Offset(PageAt(first, |es|), p) < 1 <==> Offset(first, p) == |es| {
      OffsetOfPage(first, |es|, p);
      OffsetOfPage(PageAt(first, |es|), 0, p);
    }
  }

  lemma {:induction false} RangeRewritten(m: Mem, m1: Mem, m2: Mem, d: nat, first: nat, es: seq<Option<Entry>>, j: nat, e: Option<Entry>)
    requires first < PAGES && j < |es| < PAGES
    requires RangeUpdated(m, m1, d, first, es) && UpdatedAt(m1, m2, d, PageAt(first, j), e)
    ensures RangeUpdated(m, m2, d, first, es[j := e])
  {
    forall p | 0 <= p < PAGES ensures Offset(PageAt(first, j), p) < 1 <==> Offset(first, p) == j {
      OffsetOfPage(first, j, p);
      OffsetOfPage(PageAt(first, j), 0, p);
    }
  }

  /** Page `p` of directory `d` is mapped by an entry with this word. */
  ghost predicate WordAt(m: Mem, d: nat, p: nat, word: nat) {
    && WellFormed(m) && d < |m.dirs| && p < PAGES
    && Lookup(m, d, p).Some? && EntryWord(Lookup(m, d, p).value) == word
  }

  /** All bits of the table entry for page `p` are zero. */
  ghost predicate EntryCleared(m: Mem, d: nat, p: nat)
    requires WellFormed(m) && d < |m.dirs| && p < PAGES
  {
    var e := m.dirs[d][p / ENTRIES];
    e.present && EntryWord(m.tables[e.base][p % ENTRIES]) == 0
  }

  lemma {:induction false} WrittenWord(m: Mem, m': Mem, d: nat, p: nat, e: Entry)
    requires UpdatedAt(m, m', d, p, Some(e)) && p < PAGES
    ensures WordAt(m', d, p, EntryWord(e))
  {
    OffsetOfPage(p, 0, p);
    hide EntryWord;
  }

  // ---------- frames taken from the pool ----------

  ghost predicate Distinct(fs: seq<nat>) {
    forall i, j :: 0 <= i < j < |fs| ==> fs[i] != fs[j]
  }

  /** `refs'` is `refs` with the frames of `fs`, which were all free, in use once. */
  ghost predicate Taken(refs: seq<nat>, refs': seq<nat>, fs: seq<nat>) {
    && |refs'| == |refs| && Distinct(fs)
    && (forall f <- fs :: f < |refs| && refs[f] == 0)
    && (forall f :: 0 <= f < |refs| ==> refs'[f] == if f in fs then 1 else refs[f])
  }

  lemma {:induction false} TakeFirstFree(refs: seq<nat>, refs': seq<nat>, fs: seq<nat>)
    requires Taken(refs, refs', fs) && FirstFree(refs') < |refs'|
    ensures Taken(refs, Allocated(refs'), fs + [FirstFree(refs')])
  {
    var i := FirstFree(refs');
    assert i !in fs;
  }

  /** Freeing the first of the taken frames. */
  lemma {:induction false} GiveBackFirst(refs: seq<nat>, refs': seq<nat>, fs: seq<nat>, start: nat)
    requires Taken(refs, refs', fs) && fs != []
    requires start < WORD && start % PAGE_SIZE == 0 && |refs'| < PAGES
    ensures Taken(refs, Freed(refs', start, FrameAddress(start, fs[0])), fs[1..])
  {
    assert fs[0] in fs;
    IndexOfAddress(start, fs[0]);
    var rest := fs[1..];
    assert fs == [fs[0]] + rest;
    forall i, j | 0 <= i < j < |rest| ensures rest[i] != rest[j] {
      assert rest[i] == fs[i + 1] && rest[j] == fs[j + 1];
    }
    forall f ensures f in rest <==> f in fs && f != fs[0] {
      if f in rest {
        var i :| 0 <= i < |rest| && rest[i] == f;
        assert fs[i + 1] == f;
      }
    }
    hide FrameIndex, FrameAddress;
  }

  /** Taking frames lowers the number of free ones by as many. */
  lemma {:induction false} TakenCount(refs: seq<nat>, refs': seq<nat>, fs: seq<nat>)
    requires Taken(refs, refs', fs)
    ensures FreeCount(refs) == FreeCount(refs') + |fs|
    decreases |fs|
  {
    if fs == [] {
      NothingTaken(refs, refs');
    } else {
      var n := |fs| - 1;
      var f, rest := fs[n], fs[..n];
      assert f in fs && forall g :: g in fs <==> g in rest || g == f;
      assert f !in rest;
      FreeCountUpdate(refs', f, 0);
      assert Taken(refs, refs'[f := 0], rest);
      TakenCount(refs, refs'[f := 0], rest);
    }
  }

  lemma {:induction false} NothingTaken(refs: seq<nat>, refs': seq<nat>)
    ensures Taken(refs, refs', []) <==> refs == refs'
  {
  }

  /** The entry that maps a page onto frame `f`. */
  function FrameEntry(start: nat, f: nat, flags: nat): Entry {
    MakeEntry(flags, FrameAddress(start, f) / PAGE_SIZE)
  }

  function FrameEntries(start: nat, fs: seq<nat>, flags: nat): seq<Option<Entry>> {
    seq(|fs|, k requires 0 <= k < |fs| => Some(FrameEntry(start, fs[k], flags)))
  }

  /** `n` pages without a translation. */
  function Absent(n: nat): seq<Option<Entry>> {
    seq(n, _ => None)
  }

  /** The reference counts after a page with translation `e` has been unmapped. */
  function AfterUnmap(refs: seq<nat>, start: nat, e: Option<Entry>): seq<nat> {
    match e
    case None => refs
    case Some(entry) => Freed(refs, start, entry.base * PAGE_SIZE % WORD)
  }

  /** The reference counts after the first `n` pages of a range have been unmapped. */
  ghost function RefsUnmapped(m: Mem, d: nat, first: nat, n: nat, refs: seq<nat>, start: nat): seq<nat>
    requires WellFormed(m) && d < |m.dirs|
  {
    if n == 0 then refs else
      AfterUnmap(RefsUnmapped(m, d, first, n - 1, refs, start), start, Lookup(m, d, PageAt(first, n - 1)))
  }

  // ---------- the manager ----------

  class VirtualMemoryManager {
    const pool: PageFrameManager
    var dirs: seq<seq<Entry>>
    var tables: map<nat, seq<Entry>>
    var nextTable: nat
    var kernelDirectory: Option<nat>
    /** How often memory for a directory or a table has been refused. */
    ghost var refusals: nat

    ghost function Memory(): Mem
      reads this
    {
      Mem(dirs, tables, nextTable)
    }

    ghost predicate Valid()
      reads this, pool, pool.frameBitmap, pool.frames
    {
      && pool.Valid() && WellFormed(Memory())
      && (kernelDirectory.Some? ==> kernelDirectory.value < |dirs|)
    }

    ghost predicate Known(d: Option<nat>)
      reads this
    {
      d.Some? ==> d.value < |dirs|
    }

    constructor (pool: PageFrameManager)
      requires pool.Valid()
      ensures Valid() && this.pool == pool && dirs == [] && kernelDirectory == None && refusals == 0
    {
      this.pool := pool;
      dirs, tables, nextTable, kernelDirectory, refusals := [], map[], 1, None, 0;
    }

    /** A new directory, unless memory for it is refused. */
    method PdCreate() returns (d: Option<nat>)
      requires Valid()
      modifies this
      ensures Valid() && kernelDirectory == old(kernelDirectory)
      ensures d == None ==> Memory() == old(Memory()) && refusals == old(refusals) + 1
      ensures d.Some? ==> refusals == old(refusals)
      ensures d.Some? ==> d.value == old(|dirs|) && Memory() == WithDirectory(old(Memory()), kernelDirectory)
    {
      if * {
        refusals := refusals + 1;
        return None;
      }
      WithDirectoryKeeps(Memory(), kernelDirectory);
      d := Some(|dirs|);
      dirs := dirs + [NewDirectory(if kernelDirectory.Some? then Some(dirs[kernelDirectory.value]) else None)];
    }

    /** The physical address behind a virtual one, or 0. */
    method GetPhysicalAddress(d: Option<nat>, address: nat) returns (r: nat)
      requires Valid() && Known(d) && address < WORD
      ensures r == if d.None? then 0 else
        match Lookup(Memory(), d.value, address / PAGE_SIZE)
        case None => 0
        case Some(e) => e.base * PAGE_SIZE + address % PAGE_SIZE
    {
      if d.None? {
        return 0;
      }
      var e := dirs[d.value][address / (PAGE_SIZE * ENTRIES)];
      SplitPage(address);
      if !e.present {
        return 0;
      }
      var t := tables[e.base][address / PAGE_SIZE % ENTRIES];
      if !t.present {
        return 0;
      }
      r := t.base * PAGE_SIZE + address % PAGE_SIZE;
    }

    /** Maps one page, adding a page table if the directory has none there and memory is granted. */
    method MapPage(d: Option<nat>, address: nat, physical: nat, flags: nat) returns (ok: bool)
      requires Valid() && Known(d) && address < WORD && physical < WORD
      modifies this`dirs, this`tables, this`nextTable, this`refusals
      ensures Valid()
      ensures ok ==> d.Some? && physical != 0 && refusals == old(refusals)
      ensures !ok ==> d.None? || physical == 0 || (refusals == old(refusals) + 1 && old(Lookup(Memory(), d.value, address / PAGE_SIZE)) == None)
      ensures ok ==> UpdatedAt(old(Memory()), Memory(), d.value, address / PAGE_SIZE, Some(MakeEntry(flags, physical / PAGE_SIZE)))
      ensures ok ==> WordAt(Memory(), d.value, address / PAGE_SIZE, physical / PAGE_SIZE * PAGE_SIZE + FlagBits(flags))
      ensures ok ==> TablesAdded(old(dirs), dirs, d.value, flags)
      ensures !ok ==> Memory() == old(Memory())
    {
      if d.None? || physical == 0 {
        return false;
      }
      hide WellFormed, Lookup, UpdatedAt, TablesAdded;
      SplitPage(address);
      ghost var p, m := address / PAGE_SIZE, Memory();
      var dirIndex, tableIndex := address / (PAGE_SIZE * ENTRIES), address / PAGE_SIZE % ENTRIES;
      NoTableAbsent(m, d.value, p);
      WithTableKeeps(m, d.value, p, flags);
      WithTableAdds(m, d.value, p, flags);
      ok := HaveTable(d.value, dirIndex, flags, p);
      if !ok {
        return;
      }
      WriteEntry(d.value, dirIndex, tableIndex, MakeEntry(flags, physical / PAGE_SIZE), p);
      WrittenAt(m, WithTable(m, d.value, p, flags), d.value, p, MakeEntry(flags, physical / PAGE_SIZE));
      MadeWord(flags, physical / PAGE_SIZE);
      WrittenWord(m, Memory(), d.value, p, MakeEntry(flags, physical / PAGE_SIZE));
    }

    /** A page table for page `p`, unless memory for a missing one is refused. */
    method HaveTable(d: nat, i: nat, flags: nat, ghost p: nat) returns (ok: bool)
      requires WellFormed(Memory()) && d < |dirs| && p < PAGES && i == p / ENTRIES
      modifies this`dirs, this`tables, this`nextTable, this`refusals
      ensures ok ==> Memory() == WithTable(old(Memory()), d, p, flags) && refusals == old(refusals)
      ensures !ok ==> Memory() == old(Memory()) && !dirs[d][i].present && refusals == old(refusals) + 1
    {
      TableKnown(Memory(), d, p);
      hide WellFormed;
      if !dirs[d][i].present {
        if * {
          refusals := refusals + 1;
          return false;
        }
        var table := nextTable;
        nextTable := nextTable + 1;
        tables := tables[table := BlankTable()];
        dirs := dirs[d := dirs[d][i := MakeEntry(flags, table)]];
      }
      ok := true;
    }

    method WriteEntry(d: nat, i: nat, j: nat, e: Entry, ghost p: nat)
      requires WellFormed(Memory()) && d < |dirs| && p < PAGES && i == p / ENTRIES && j == p % ENTRIES && dirs[d][i].present
      modifies this`tables
      ensures WellFormed(Memory()) && Memory() == WithEntry(old(Memory()), d, p, e)
    {
      TableKnown(Memory(), d, p);
      WithEntryKeeps(Memory(), d, p, e);
      hide WellFormed;
      var base := dirs[d][i].base;
      tables := tables[base := tables[base][j := e]];
    }

    /** Removes the translation of one page and gives its frame back to the pool. */
    method UnmapPage(d: Option<nat>, address: nat) returns (ok: bool)
      requires Valid() && Known(d) && address < WORD
      modifies this`tables, pool`freeFrames, pool.frameBitmap, pool.frames
      ensures Valid() && ok == d.Some?
      ensures !ok ==> Memory() == old(Memory()) && pool.Refs() == old(pool.Refs())
      ensures ok ==> UpdatedAt(old(Memory()), Memory(), d.value, address / PAGE_SIZE, None)
      ensures ok && old(Lookup(Memory(), d.value, address / PAGE_SIZE)).Some? ==> EntryCleared(Memory(), d.value, address / PAGE_SIZE)
      ensures ok ==> pool.Refs() == AfterUnmap(old(pool.Refs()), pool.start, old(Lookup(Memory(), d.value, address / PAGE_SIZE)))
    {
      if d.None? {
        return false;
      }
      SplitPage(address);
      ghost var p := address / PAGE_SIZE;
      ghost var m := Memory();
      var dirIndex, tableIndex := address / (PAGE_SIZE * ENTRIES), address / PAGE_SIZE % ENTRIES;
      if !dirs[d.value][dirIndex].present {
        AlreadyAbsent(m, d.value, p);
        return true;
      }
      var base := dirs[d.value][dirIndex].base;
      if !tables[base][tableIndex].present {
        AlreadyAbsent(m, d.value, p);
        return true;
      }
      var physical := tables[base][tableIndex].base * PAGE_SIZE % WORD;
      WrittenAt(m, m, d.value, p, EMPTY);
      WithEntryKeeps(m, d.value, p, EMPTY);
      tables := tables[base := tables[base][tableIndex := EMPTY]];
      assert Memory() == WithEntry(m, d.value, p, EMPTY);
      pool.Free(physical);
      ok := true;
    }

    /**
     Maps a range of pages onto free frames. Either every page is mapped, each onto its own frame,
     or the pages that were reached are unmapped again. If no memory is refused, it succeeds exactly
     if the range is no longer than `Reach`, and a failure restores the pool and the translations
     exactly if no free frame has address 0, which the program takes for a refusal, and the pages
     within `Reach` had no translation.
     */
    method AllocatePages(d: Option<nat>, address: nat, size: nat, flags: nat)
      returns (ok: bool, ghost fs: seq<nat>, ghost reached: nat, ghost lost: seq<nat>)
      requires Valid() && Known(d) && address < WORD && size < WORD
      modifies this`dirs, this`tables, this`nextTable, this`refusals, pool`freeFrames, pool.frameBitmap, pool.frames
      ensures Valid() && |dirs| == old(|dirs|) && kernelDirectory == old(kernelDirectory)
      ensures d.None? ==> !ok && Memory() == old(Memory()) && pool.Refs() == old(pool.Refs())
      ensures refusals == old(refusals) || (!ok && refusals == old(refusals) + 1)
      ensures d.Some? && refusals == old(refusals) ==> (ok <==> PageCount(size) <= Reach(old(pool.Refs()), pool.start))
      ensures !ok && d.Some? && refusals == old(refusals) ==> reached == Reach(old(pool.Refs()), pool.start)
      ensures !ok && d.Some? ==>
        (pool.Refs() == old(pool.Refs()) <==> refusals == old(refusals) + 1 || NoFreeNull(old(pool.Refs()), pool.start))
      ensures !ok && d.Some? && refusals == old(refusals) ==>
        (SameTranslations(old(Memory()), Memory(), d.value) <==>
         RangeUnmapped(old(Memory()), d.value, address / PAGE_SIZE, Reach(old(pool.Refs()), pool.start)))
      ensures !ok && d.Some? && RangeUnmapped(old(Memory()), d.value, address / PAGE_SIZE, PageCount(size)) ==>
        SameTranslations(old(Memory()), Memory(), d.value)
      ensures ok ==> d.Some? && |fs| == PageCount(size) && Taken(old(pool.Refs()), pool.Refs(), fs)
      ensures ok ==> RangeUpdated(old(Memory()), Memory(), d.value, address / PAGE_SIZE, FrameEntries(pool.start, fs, flags))
      ensures ok ==> forall k :: 0 <= k < |fs| ==>
        WordAt(Memory(), d.value, PageAt(address / PAGE_SIZE, k), FrameAddress(pool.start, fs[k]) + FlagBits(flags))
      ensures d.Some? ==> TablesAdded(old(dirs), dirs, d.value, flags)
      ensures !ok && d.Some? ==> reached < PageCount(size)
      ensures !ok && d.Some? ==> RangeUpdated(old(Memory()), Memory(), d.value, address / PAGE_SIZE, Absent(reached))
      ensures !ok && d.Some? ==> Taken(old(pool.Refs()), pool.Refs(), lost) && |lost| <= 1
      ensures forall f <- lost :: FrameAddress(pool.start, f) == 0
    {
      hide RangeUpdated, Taken, WellFormed, Lookup, Freed, Allocated, FirstFree, PageAt, Offset, FrameIndex;
      hide Reach, NoFreeNull, SameTranslations, RangeUnmapped, FreeCount, TablesAdded, WordAt, FrameAddress;
      fs, reached, lost := [], 0, [];
      if d.None? {
        return false, [], 0, [];
      }
      var start := address / PAGE_SIZE * PAGE_SIZE;
      var bytes := AlignUp(size);
      ghost var first := address / PAGE_SIZE;
      var i := 0;
      Rounded(size);
      EmptyRange(old(Memory()), d.value, first);
      assert FrameEntries(pool.start, [], flags) == [];
      NothingTaken(old(pool.Refs()), pool.Refs());
      NoTablesAdded(dirs, d.value, flags);
      while i < bytes
        invariant Valid() && |dirs| == old(|dirs|) && i == |fs| * PAGE_SIZE <= bytes
        invariant TablesAdded(old(dirs), dirs, d.value, flags)
        invariant Taken(old(pool.Refs()), pool.Refs(), fs) && lost == [] && refusals == old(refusals)
        invariant Reach(old(pool.Refs()), pool.start) == |fs| + Reach(pool.Refs(), pool.start)
        invariant RangeUpdated(old(Memory()), Memory(), d.value, first, FrameEntries(pool.start, fs, flags))
      {
        TakenCount(old(pool.Refs()), pool.Refs(), fs);
        ReachAll(old(pool.Refs()), pool.start);
        ghost var before := dirs;
        ok, fs, lost := AllocateOne(d.value, address, i, flags, fs, old(Memory()), old(pool.Refs()));
        TablesAddedOn(old(dirs), before, dirs, d.value, flags);
        if !ok {
          reached := i / PAGE_SIZE;
          RollBack(d.value, address, i, reached, fs, flags, old(Memory()), old(pool.Refs()));
          RestoredIffUnmapped(old(Memory()), Memory(), d.value, first, reached, PageCount(size));
          RestoredIffNoneLost(old(pool.Refs()), pool.Refs(), lost);
          return;
        }
        i := i + PAGE_SIZE;
      }
      RangeWords(old(Memory()), Memory(), d.value, first, pool.start, fs, flags);
      ok := true;
    }

    /** One turn of the loop: a frame for the page at byte offset `i`, and its mapping. */
    method AllocateOne(d: nat, address: nat, i: nat, flags: nat, ghost fs: seq<nat>, ghost m0: Mem, ghost refs0: seq<nat>)
      returns (ok: bool, ghost fs': seq<nat>, ghost lost: seq<nat>)
      requires Valid() && d < |dirs| && address < WORD && i == |fs| * PAGE_SIZE && |fs| < PAGES
      requires Taken(refs0, pool.Refs(), fs)
      requires RangeUpdated(m0, Memory(), d, address / PAGE_SIZE, FrameEntries(pool.start, fs, flags))
      modifies this`dirs, this`tables, this`nextTable, this`refusals, pool`freeFrames, pool.frameBitmap, pool.frames
      ensures Valid() && Taken(refs0, pool.Refs(), fs') && |dirs| == old(|dirs|)
      ensures TablesAdded(old(dirs), dirs, d, flags)
      ensures ok ==> |fs'| == |fs| + 1 && lost == [] && refusals == old(refusals)
      ensures ok ==> Reach(old(pool.Refs()), pool.start) == 1 + Reach(pool.Refs(), pool.start)
      ensures !ok ==>
        || (refusals == old(refusals) + 1 && lost == [])
        || (refusals == old(refusals) && Reach(old(pool.Refs()), pool.start) == 0
            && (lost == [] <==> FreeCount(old(pool.Refs())) == 0))
      ensures ok ==> RangeUpdated(m0, Memory(), d, address / PAGE_SIZE, FrameEntries(pool.start, fs', flags))
      ensures !ok ==> Memory() == old(Memory()) && |fs| <= |fs'| && fs'[..|fs|] == fs && fs'[|fs|..] == lost && |lost| <= 1
      ensures forall f <- lost :: FrameAddress(pool.start, f) == 0
    {
      hide RangeUpdated, Taken, WellFormed, Lookup, Freed, Allocated, FirstFree, PageAt, Offset, FrameIndex;
      hide Reach, FreeCount, FrameEntries, FrameAddress, TablesAdded, WordAt;
      NoTablesAdded(dirs, d, flags);
      var start := address / PAGE_SIZE * PAGE_SIZE;
      ghost var first, refs, m := address / PAGE_SIZE, pool.Refs(), Memory();
      RangeFacts(m0, m, d, first, FrameEntries(pool.start, fs, flags));
      PageAddress(address, |fs|);
      ok, fs', lost := true, fs, [];
      var physical := pool.Allocate();
      if physical == 0 {
        lost := LostFrame(refs0, refs, fs, pool.start);
        ReachFirst(refs, pool.start);
        return false, fs + lost, lost;
      }
      TakeFirstFree(refs0, refs, fs);
      ghost var f := FirstFree(refs);
      ReachFirst(refs, pool.start);
      var mapped := MapPage(Some(d), (start + i) % WORD, physical, flags);
      if !mapped {
        pool.Free(physical);
        AllocateThenFree(refs, pool.start);
        assert fs[..|fs|] == fs && fs[|fs|..] == [];
        return false, fs, [];
      }
      fs' := fs + [f];
      PageGained(m0, m, Memory(), d, first, pool.start, fs, f, flags);
    }

    /** Unmaps the first `n` pages of a range that the allocation had mapped onto the frames `fs[..n]`. */
    method RollBack(d: nat, address: nat, i: nat, ghost n: nat, ghost fs: seq<nat>, ghost flags: nat, ghost m0: Mem, ghost refs0: seq<nat>)
      requires Valid() && d < |dirs| && address < WORD && n <= |fs| && n < PAGES && i == n * PAGE_SIZE
      requires Taken(refs0, pool.Refs(), fs)
      requires RangeUpdated(m0, Memory(), d, address / PAGE_SIZE, FrameEntries(pool.start, fs[..n], flags))
      modifies this`tables, pool`freeFrames, pool.frameBitmap, pool.frames
      ensures Valid() && Taken(refs0, pool.Refs(), fs[n..])
      ensures RangeUpdated(m0, Memory(), d, address / PAGE_SIZE, Absent(n))
    {
      hide RangeUpdated, Taken, WellFormed, Lookup, Freed, Allocated, FirstFree, PageAt, Offset, FrameIndex;
      var start := address / PAGE_SIZE * PAGE_SIZE;
      ghost var first := address / PAGE_SIZE;
      assert Remaining(pool.start, fs, 0, n, flags) == FrameEntries(pool.start, fs[..n], flags);
      var j := 0;
      ghost var k := 0;
      while j < i
        invariant Valid() && k <= n && j == k * PAGE_SIZE
        invariant Taken(refs0, pool.Refs(), fs[k..])
        invariant RangeUpdated(m0, Memory(), d, first, Remaining(pool.start, fs, k, n, flags)) && |dirs| == old(|dirs|)
      {
        ghost var m, refs := Memory(), pool.Refs();
        PageAddress(address, k);
        StillMapped(m0, m, d, first, fs, k, n, flags, pool.start);
        var _ := UnmapPage(Some(d), (start + j) % WORD);
        RollBackStep(m0, m, Memory(), d, first, fs, k, n, flags, pool.start, refs0, refs);
        k := k + 1;
        j := j + PAGE_SIZE;
      }
      assert Remaining(pool.start, fs, n, n, flags) == Absent(n);
    }

    /** Unmaps a range of pages. */
    method FreePages(d: Option<nat>, address: nat, size: nat) returns (ok: bool)
      requires Valid() && Known(d) && address < WORD && size < WORD
      modifies this`tables, pool`freeFrames, pool.frameBitmap, pool.frames
      ensures Valid() && ok == d.Some?
      ensures !ok ==> Memory() == old(Memory()) && pool.Refs() == old(pool.Refs())
      ensures ok ==> RangeUpdated(old(Memory()), Memory(), d.value, address / PAGE_SIZE, Absent(PageCount(size)))
      ensures ok ==> pool.Refs() == RefsUnmapped(old(Memory()), d.value, address / PAGE_SIZE, PageCount(size), old(pool.Refs()), pool.start)
    {
      hide RangeUpdated, Taken, WellFormed, Lookup, Freed, Allocated, FirstFree, PageAt, Offset, FrameIndex;
      if d.None? {
        return false;
      }
      var start := address / PAGE_SIZE * PAGE_SIZE;
      var bytes := AlignUp(size);
      ghost var first := address / PAGE_SIZE;
      var i := 0;
      ghost var k := 0;
      Rounded(size);
      EmptyRange(old(Memory()), d.value, first);
      assert Absent(0) == [];
      while i < bytes
        invariant Valid() && i == k * PAGE_SIZE <= bytes && |dirs| == old(|dirs|)
        invariant RangeUpdated(old(Memory()), Memory(), d.value, first, Absent(k))
        invariant pool.Refs() == RefsUnmapped(old(Memory()), d.value, first, k, old(pool.Refs()), pool.start)
      {
        ghost var m := Memory();
        PageAddress(address, k);
        BeyondRange(old(Memory()), m, d.value, first, Absent(k));
        var _ := UnmapPage(d, (start + i) % WORD);
        RangeExtended(old(Memory()), m, Memory(), d.value, first, Absent(k), None);
        assert Absent(k) + [None] == Absent(k + 1);
        k := k + 1;
        i := i + PAGE_SIZE;
      }
      ok := true;
    }
  }

  /** Directories and the tables that they name are complete. */
  lemma {:induction false} TableKnown(m: Mem, d: nat, p: nat)
    requires WellFormed(m) && d < |m.dirs| && p < PAGES
    ensures |m.dirs[d]| == ENTRIES
    ensures var e := m.dirs[d][p / ENTRIES]; e.present ==> e.base in m.tables && |m.tables[e.base]| == ENTRIES
  {
  }

  lemma {:induction false} NoTableAbsent(m: Mem, d: nat, p: nat)
    requires WellFormed(m) && d < |m.dirs| && p < PAGES
    ensures |m.dirs[d]| == ENTRIES
    ensures !m.dirs[d][p / ENTRIES].present ==> Lookup(m, d, p) == None
  {
  }

  lemma {:induction false} SplitPage(address: nat)
    requires address < WORD
    ensures address / PAGE_SIZE < PAGES
    ensures address / PAGE_SIZE / ENTRIES == address / (PAGE_SIZE * ENTRIES) < ENTRIES
  {
  }

  /** One written table entry, seen through the translations. */
  lemma {:induction false} WrittenAt(m: Mem, m1: Mem, d: nat, p: nat, e: Entry)
    requires WellFormed(m) && WellFormed(m1) && d < |m.dirs| == |m1.dirs| && p < PAGES
    requires m1.dirs[d][p / ENTRIES].present
    requires forall d', p' :: 0 <= d' < |m.dirs| && 0 <= p' < PAGES ==> Lookup(m1, d', p') == Lookup(m, d', p')
    ensures UpdatedAt(m, WithEntry(m1, d, p, e), d, p, if e.present then Some(e) else None)
  {
    WithEntryKeeps(m1, d, p, e);
    forall p' | 0 <= p' < PAGES ensures Offset(p, p') < 1 <==> p' == p {
      OffsetOfPage(p, 0, p');
    }
    forall d' | 0 <= d' < |m.dirs| && d' != d && p < KERNEL_PAGE ensures !SharesTable(m1, d, d', p) {
      assert p / ENTRIES < KERNEL_ENTRY;
      assert !Aliased(m1.dirs[d][p / ENTRIES], m1.dirs[d'][p / ENTRIES]);
    }
  }

  /** What a range update says of the directories' number and of one page of the range. */
  lemma {:induction false} RangeFacts(m: Mem, m': Mem, d: nat, first: nat, es: seq<Option<Entry>>)
    requires RangeUpdated(m, m', d, first, es)
    ensures WellFormed(m) && WellFormed(m') && d < |m.dirs| == |m'.dirs|
    ensures forall k :: 0 <= k < |es| && first < PAGES && |es| <= PAGES ==>
      PageAt(first, k) < PAGES && Lookup(m', d, PageAt(first, k)) == es[k]
  {
    forall k | 0 <= k < |es| && first < PAGES && |es| <= PAGES
      ensures PageAt(first, k) < PAGES && Lookup(m', d, PageAt(first, k)) == es[k]
    {
      OffsetOfPage(first, k, PageAt(first, k));
    }
  }

  /** One more page of the range is mapped. */
  lemma {:induction false} PageGained(m0: Mem, m: Mem, m': Mem, d: nat, first: nat, start: nat, fs: seq<nat>, f: nat, flags: nat)
    requires RangeUpdated(m0, m, d, first, FrameEntries(start, fs, flags)) && first < PAGES && |fs| < PAGES
    requires UpdatedAt(m, m', d, PageAt(first, |fs|), Some(FrameEntry(start, f, flags)))
    ensures RangeUpdated(m0, m', d, first, FrameEntries(start, fs + [f], flags)) && |m'.dirs| == |m0.dirs|
  {
    var es, e := FrameEntries(start, fs, flags), Some(FrameEntry(start, f, flags));
    RangeExtended(m0, m, m', d, first, es, e);
    RangeFacts(m0, m', d, first, es + [e]);
    assert FrameEntries(start, fs + [f], flags) == es + [e];
    hide RangeUpdated;
  }

  /** The words of a range that was mapped onto the frames of `fs`. */
  lemma {:induction false} RangeWords(m: Mem, m': Mem, d: nat, first: nat, start: nat, fs: seq<nat>, flags: nat)
    requires RangeUpdated(m, m', d, first, FrameEntries(start, fs, flags)) && first < PAGES && |fs| <= PAGES
    requires start % PAGE_SIZE == 0
    ensures forall k :: 0 <= k < |fs| ==> WordAt(m', d, PageAt(first, k), FrameAddress(start, fs[k]) + FlagBits(flags))
  {
    RangeFacts(m, m', d, first, FrameEntries(start, fs, flags));
    forall k | 0 <= k < |fs| ensures WordAt(m', d, PageAt(first, k), FrameAddress(start, fs[k]) + FlagBits(flags)) {
      MadeWord(flags, FrameAddress(start, fs[k]) / PAGE_SIZE);
      AlignedAddress(start, fs[k]);
    }
    hide EntryWord, FrameAddress, FlagBits, RangeUpdated;
  }

  lemma {:induction false} AlignedAddress(start: nat, i: nat)
    requires start % PAGE_SIZE == 0
    ensures FrameAddress(start, i) % PAGE_SIZE == 0
    ensures FrameAddress(start, i) / PAGE_SIZE * 4096 == FrameAddress(start, i)
  {
  }

  /** A page beyond the updated part of a range still translates as before. */
  lemma {:induction false} BeyondRange(m: Mem, m': Mem, d: nat, first: nat, es: seq<Option<Entry>>)
    requires RangeUpdated(m, m', d, first, es) && first < PAGES && |es| < PAGES
    ensures WellFormed(m) && WellFormed(m') && d < |m.dirs| == |m'.dirs| && PageAt(first, |es|) < PAGES
    ensures Lookup(m', d, PageAt(first, |es|)) == Lookup(m, d, PageAt(first, |es|))
  {
    OffsetOfPage(first, |es|, PageAt(first, |es|));
  }

  lemma {:induction false} AlreadyAbsent(m: Mem, d: nat, p: nat)
    requires WellFormed(m) && d < |m.dirs| && p < PAGES && Lookup(m, d, p) == None
    ensures UpdatedAt(m, m, d, p, None)
  {
    forall p' | 0 <= p' < PAGES ensures Offset(p, p') < 1 <==> p' == p {
      OffsetOfPage(p, 0, p');
    }
    hide Offset, WellFormed;
  }

  lemma {:induction false} EmptyRange(m: Mem, d: nat, first: nat)
    requires WellFormed(m) && d < |m.dirs|
    ensures RangeUpdated(m, m, d, first, [])
    ensures FrameEntries(0, [], 0) == []
  {
  }

  /** The `k`-th page of a range, as the program computes its address. */
  lemma {:induction false} PageAddress(address: nat, k: nat)
    requires address < WORD && k < PAGES
    ensures var a := (address / PAGE_SIZE * PAGE_SIZE + k * PAGE_SIZE) % WORD;
      a / PAGE_SIZE == PageAt(address / PAGE_SIZE, k)
    ensures address / PAGE_SIZE < PAGES
  {
  }

  lemma {:induction false} Rounded(size: nat)
    ensures AlignUp(size) == PageCount(size) * PAGE_SIZE < WORD
  {
  }

  /** The pages cover the size asked for unless rounding it up wraps; then there are none. */
  lemma {:induction false} PagesCover(size: nat)
    requires size < WORD
    ensures size <= PageCount(size) * PAGE_SIZE <==> size <= WORD - PAGE_SIZE
    ensures size <= WORD - PAGE_SIZE ==> PageCount(size) * PAGE_SIZE < size + PAGE_SIZE
    ensures size > WORD - PAGE_SIZE ==> PageCount(size) == 0
  {
    if size <= WORD - PAGE_SIZE {
      assert (size + PAGE_SIZE - 1) % WORD == size + PAGE_SIZE - 1;
    } else {
      assert (size + PAGE_SIZE - 1) % WORD == size + PAGE_SIZE - 1 - WORD;
    }
  }

  /** The address behind a frame's entry names that frame. */
  lemma {:induction false} FrameOfEntry(start: nat, f: nat, flags: nat)
    requires start < WORD && start % PAGE_SIZE == 0 && f < PAGES
    ensures FrameEntry(start, f, flags).base * PAGE_SIZE % WORD == FrameAddress(start, f)
  {
    IndexOfAddress(start, f);
  }

  /** A range of `n` pages of which the first `k` have been unmapped again. */
  function Remaining(start: nat, fs: seq<nat>, k: nat, n: nat, flags: nat): seq<Option<Entry>>
    requires n <= |fs|
  {
    seq(n, i requires 0 <= i < n => if i < k then None else Some(FrameEntry(start, fs[i], flags)))
  }

  lemma {:induction false} StillMapped(m0: Mem, m: Mem, d: nat, first: nat, fs: seq<nat>, k: nat, n: nat, flags: nat, start: nat)
    requires k < n <= |fs| && n < PAGES && first < PAGES
    requires RangeUpdated(m0, m, d, first, Remaining(start, fs, k, n, flags))
    ensures WellFormed(m) && d < |m.dirs| && PageAt(first, k) < PAGES
    ensures Lookup(m, d, PageAt(first, k)) == Some(FrameEntry(start, fs[k], flags))
  {
    RangeFacts(m0, m, d, first, Remaining(start, fs, k, n, flags));
  }

  lemma {:induction false} RollBackStep(m0: Mem, m: Mem, m': Mem, d: nat, first: nat, fs: seq<nat>, k: nat, n: nat, flags: nat,
                                        start: nat, refs0: seq<nat>, refs: seq<nat>)
    requires k < n <= |fs| && n < PAGES && first < PAGES
    requires RangeUpdated(m0, m, d, first, Remaining(start, fs, k, n, flags))
    requires UpdatedAt(m, m', d, PageAt(first, k), None)
    requires Taken(refs0, refs, fs[k..]) && start < WORD && start % PAGE_SIZE == 0 && |refs| < PAGES
    ensures RangeUpdated(m0, m', d, first, Remaining(start, fs, k + 1, n, flags))
    ensures Taken(refs0, AfterUnmap(refs, start, Some(FrameEntry(start, fs[k], flags))), fs[k + 1..])
  {
    RangeRewritten(m0, m, m', d, first, Remaining(start, fs, k, n, flags), k, None);
    assert Remaining(start, fs, k, n, flags)[k := None] == Remaining(start, fs, k + 1, n, flags);
    assert fs[k] == fs[k..][0] && fs[k..][0] in fs[k..];
    FrameOfEntry(start, fs[k], flags);
    GiveBackFirst(refs0, refs, fs[k..], start);
    assert fs[k..][1..] == fs[k + 1..];
  }

  /** A refused allocation has taken no frame, unless the frame at address 0 was the first free one. */
  lemma {:induction false} LostFrame(refs: seq<nat>, refs': seq<nat>, fs: seq<nat>, start: nat) returns (lost: seq<nat>)
    requires Taken(refs, refs', fs)
    requires FirstFree(refs') < |refs'| ==> FrameAddress(start, FirstFree(refs')) == 0
    ensures Taken(refs, Allocated(refs'), fs + lost) && |lost| <= 1
    ensures forall f <- lost :: FrameAddress(start, f) == 0
    ensures (fs + lost)[..|fs|] == fs && (fs + lost)[|fs|..] == lost
    ensures lost == [] <==> FreeCount(refs') == 0
  {
    FreeCountZero(refs');
    if FirstFree(refs') < |refs'| {
      lost := [FirstFree(refs')];
      TakeFirstFree(refs, refs', fs);
    } else {
      lost := [];
      assert fs + [] == fs;
    }
  }

  // ---------- all or nothing ----------

  lemma {:induction false} ReachFirst(refs: seq<nat>, start: nat)
    ensures Reach(refs, start) ==
            if FirstFree(refs) == |refs| || FrameAddress(start, FirstFree(refs)) == 0 then 0 else 1 + Reach(Allocated(refs), start)
  {
  }

  ghost predicate RangeUnmapped(m: Mem, d: nat, first: nat, n: nat)
    requires WellFormed(m) && d < |m.dirs|
  {
    forall k :: 0 <= k < n ==> Lookup(m, d, PageAt(first, k)) == None
  }

  /** Directory `d` translates every page as before. */
  ghost predicate SameTranslations(m: Mem, m': Mem, d: nat)
    requires WellFormed(m) && WellFormed(m') && d < |m.dirs| && d < |m'.dirs|
  {
    forall p :: 0 <= p < PAGES ==> Lookup(m', d, p) == Lookup(m, d, p)
  }

  /** Unmapping pages leaves the directory's translations alone exactly if those pages had none. */
  lemma {:induction false} RestoredIffUnmapped(m: Mem, m': Mem, d: nat, first: nat, n: nat, whole: nat)
    requires first < PAGES && n < PAGES && n <= whole && RangeUpdated(m, m', d, first, Absent(n))
    ensures WellFormed(m) && WellFormed(m') && d < |m.dirs| == |m'.dirs|
    ensures SameTranslations(m, m', d) <==> RangeUnmapped(m, d, first, n)
    ensures RangeUnmapped(m, d, first, whole) ==> SameTranslations(m, m', d)
  {
    RangeFacts(m, m', d, first, Absent(n));
    if RangeUnmapped(m, d, first, n) {
      forall p | 0 <= p < PAGES ensures Lookup(m', d, p) == Lookup(m, d, p) {
        if Offset(first, p) < n {
          OffsetOfPage(first, Offset(first, p), p);
        }
      }
    } else {
      var k :| 0 <= k < n && Lookup(m, d, PageAt(first, k)) != None;
      assert Lookup(m', d, PageAt(first, k)) == Absent(n)[k];
    }
  }

  /** The counts are as before exactly if no frame was lost. */
  lemma {:induction false} RestoredIffNoneLost(refs: seq<nat>, refs': seq<nat>, lost: seq<nat>)
    requires Taken(refs, refs', lost)
    ensures refs' == refs <==> lost == []
  {
    if lost == [] {
      NothingTaken(refs, refs');
    } else {
      assert lost[0] in lost && refs'[lost[0]] == 1 && refs[lost[0]] == 0;
    }
  }

  /** Nothing that an allocation in `d` could have touched has changed. */
  ghost predicate Untouched(m: Mem, m': Mem, d: nat, refs: seq<nat>, refs': seq<nat>)
    requires WellFormed(m) && WellFormed(m') && d < |m.dirs| == |m'.dirs|
  {
    && refs' == refs && SameTranslations(m, m', d)
    && forall d', p :: 0 <= d' < |m.dirs| && 0 <= p < KERNEL_PAGE ==> Lookup(m', d', p) == Lookup(m, d', p)
  }

  /**
   A refused allocation that reached `n` pages leaves no trace exactly if it lost no frame and those
   pages had no translation. It can only lose a free frame at address 0.
   */
  lemma {:induction false} AllOrNothing(m: Mem, m': Mem, d: nat, first: nat, n: nat, refs: seq<nat>, refs': seq<nat>, lost: seq<nat>, start: nat)
    requires first < PAGES && n < PAGES && RangeUpdated(m, m', d, first, Absent(n))
    requires Taken(refs, refs', lost) && forall f <- lost :: FrameAddress(start, f) == 0
    ensures WellFormed(m) && WellFormed(m') && d < |m.dirs| == |m'.dirs|
    ensures Untouched(m, m', d, refs, refs') <==> lost == [] && RangeUnmapped(m, d, first, n)
    ensures NoFreeNull(refs, start) ==> lost == []
  {
    RestoredIffUnmapped(m, m', d, first, n, n);
    RestoredIffNoneLost(refs, refs', lost);
    assert lost != [] ==> lost[0] in lost && lost[0] < |refs| && refs[lost[0]] == 0;
    forall d', p | 0 <= d' < |m.dirs| && 0 <= p < KERNEL_PAGE && d' != d ensures Lookup(m', d', p) == Lookup(m, d', p) {
    }
  }

  /**
   The loss on a pool that begins at 16 MB in a machine of 8 MB, where the size of the pool wraps
   around: a request that reaches the frame at address 0 fails and leaves one frame fewer.
   */
  method NullFrameLost(flags: nat) returns (vm: VirtualMemoryManager, asked: bool, ok: bool, before: nat, after: nat)
    ensures asked && vm.refusals == 0 ==> !ok && after == before - 1
    ensures vm.Valid() && after == FreeCount(vm.pool.Refs())
  {
    hide FreeCount, Reach, NoFreeNull, WellFormed, Lookup, RangeUpdated, RangeUnmapped, SameTranslations, Taken;
    hide FrameAddress, AlignUp, PageCount;
    KernelPool();
    var pool := new PageFrameManager(0x100_0000, 0x80_0000 - 0x100_0000 + WORD);
    vm := new VirtualMemoryManager(pool);
    var d := vm.PdCreate();
    before, asked, ok := pool.freeFrames, d.Some?, false;
    ghost var refs := pool.Refs();
    var z := 0xF_F000;
    if d.Some? {
      ReachOfNew(refs, pool.start, z);
      ghost var fs, reached, lost;
      ok, fs, reached, lost := vm.AllocatePages(d, 0, (z + 1) * PAGE_SIZE, flags);
      if vm.refusals == 0 {
        HasFreeNull(refs, pool.start, z);
        TakenCount(refs, pool.Refs(), lost);
        RestoredIffNoneLost(refs, pool.Refs(), lost);
      }
    }
    after := pool.freeFrames;
  }

  /** In a new pool everything before the frame at address 0 can be allocated. */
  lemma {:induction false} ReachOfNew(refs: seq<nat>, start: nat, z: nat)
    requires start < WORD && start % PAGE_SIZE == 0 && |refs| < 0x10_0000
    requires z < |refs| && FrameAddress(start, z) == 0 && refs == seq(|refs|, _ => 0)
    ensures refs[z] == 0 && Reach(refs, start) == z
  {
    ReachBefore(refs, start, z);
    assert refs[..z] == seq(z, _ => 0);
    AllFree(z);
    hide Reach, FreeCount;
  }

  /** The numbers of that pool. */
  lemma {:induction false} KernelPool()
    ensures AlignUp(0x100_0000) == 0x100_0000 && FrameAddress(0x100_0000, 0xF_F000) == 0
    ensures PageCount(0xF_F001 * PAGE_SIZE) == 0xF_F001
  {
  }

  lemma {:induction false} HasFreeNull(refs: seq<nat>, start: nat, z: nat)
    requires z < |refs| && refs[z] == 0 && FrameAddress(start, z) == 0
    ensures !NoFreeNull(refs, start)
  {
  }

  /** Freeing a range right after allocating it gives every frame back. */
  lemma {:induction false} FreeAfterAllocate(m: Mem, m': Mem, d: nat, first: nat, fs: seq<nat>, flags: nat, refs: seq<nat>, refs': seq<nat>, start: nat, k: nat)
    requires first < PAGES && |fs| < PAGES && k <= |fs| && start < WORD && start % PAGE_SIZE == 0 && |refs| < PAGES
    requires RangeUpdated(m, m', d, first, FrameEntries(start, fs, flags)) && Taken(refs, refs', fs)
    ensures Taken(refs, RefsUnmapped(m', d, first, k, refs', start), fs[k..])
    ensures k == |fs| ==> RefsUnmapped(m', d, first, k, refs', start) == refs
  {
    if k == 0 {
      assert fs[0..] == fs;
    } else {
      FreeAfterAllocate(m, m', d, first, fs, flags, refs, refs', start, k - 1);
      RangeFacts(m, m', d, first, FrameEntries(start, fs, flags));
      var rest := fs[k - 1..];
      assert rest[0] == fs[k - 1] && rest[0] in rest && rest[1..] == fs[k..];
      FrameOfEntry(start, fs[k - 1], flags);
      GiveBackFirst(refs, RefsUnmapped(m', d, first, k - 1, refs', start), rest, start);
    }
    if k == |fs| {
      NothingTaken(refs, RefsUnmapped(m', d, first, k, refs', start));
    }
  }

  /** ... and every translation is again what it was. */
  lemma {:induction false} TranslationsAfterFree(m: Mem, m1: Mem, m2: Mem, d: nat, first: nat, es: seq<Option<Entry>>)
    requires first < PAGES && |es| < PAGES && RangeUpdated(m, m1, d, first, es) && RangeUpdated(m1, m2, d, first, Absent(|es|))
    requires RangeUnmapped(m, d, first, |es|)
    ensures forall p :: 0 <= p < PAGES ==> Lookup(m2, d, p) == Lookup(m, d, p)
    ensures forall d', p :: 0 <= d' < |m.dirs| && 0 <= p < KERNEL_PAGE ==> Lookup(m2, d', p) == Lookup(m, d', p)
  {
    forall p | 0 <= p < PAGES ensures Lookup(m2, d, p) == Lookup(m, d, p) {
      if Offset(first, p) < |es| {
        OffsetOfPage(first, Offset(first, p), p);
      }
    }
    forall d', p | 0 <= d' < |m.dirs| && d' != d && 0 <= p < KERNEL_PAGE ensures Lookup(m2, d', p) == Lookup(m, d', p) {
    }
  }
}
