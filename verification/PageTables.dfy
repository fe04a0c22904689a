/**
 Two-level page tables in physical memory, and the flat page map that they represent.

 A directory entry names its page table by number, so directories may share tables: `pd_create`
 copies the kernel's upper 256 entries into every new directory.
 */
module PageTables {
  import opened Machine

  const ENTRIES := 1024
  const KERNEL_ENTRY := 768
  const PAGES := 0x10_0000
  const KERNEL_PAGE := 768 * 1024

  /** An entry of a directory or of a table: the flags that the kernel uses and a 20-bit base. */
  datatype Entry = Entry(present: bool, writable: bool, user: bool, writeThrough: bool, cacheDisabled: bool, base: nat)

  const EMPTY := Entry(false, false, false, false, false, 0)

  function MakeEntry(flags: nat, base: nat): Entry {
    Entry(true, flags / 2 % 2 == 1, flags / 4 % 2 == 1, flags / 8 % 2 == 1, flags / 16 % 2 == 1, base)
  }

  /** The 32-bit word of an entry: bit 0 present, 1 writable, 2 user, 3 write-through, 4 cache-disabled, base from bit 12. */
  function EntryWord(e: Entry): nat {
    Bit(e.present) + 2 * Bit(e.writable) + 4 * Bit(e.user) + 8 * Bit(e.writeThrough) + 16 * Bit(e.cacheDisabled) + 4096 * e.base
  }

  function Bit(b: bool): nat {
    if b then 1 else 0
  }

  /** The low five bits of `flags`, with the present bit set. */
  function FlagBits(flags: nat): nat {
    flags % 32 / 2 * 2 + 1
  }

  /** A new entry has the bits that were asked for, each in its place. */
  lemma {:induction false} MadeWord(flags: nat, base: nat)
    ensures EntryWord(MakeEntry(flags, base)) == base * 4096 + FlagBits(flags)
  {
    var h1, h2, h3, h4 := flags / 2, flags / 4, flags / 8, flags / 16;
    Halved(flags, h1, h2, h3, h4);
    LowBits(flags, h1 % 2, h2 % 2, h3 % 2, h4 % 2, h4 / 2);
    hide FlagBits;
  }

  lemma {:induction false} Halved(n: nat, h1: nat, h2: nat, h3: nat, h4: nat)
    requires h1 == n / 2 && h2 == n / 4 && h3 == n / 8 && h4 == n / 16
    ensures h1 == h1 % 2 + 2 * h2 && h2 == h2 % 2 + 2 * h3 && h3 == h3 % 2 + 2 * h4 && h4 == h4 % 2 + 2 * (h4 / 2)
    ensures n == n % 2 + 2 * h1
  {
    assert h2 == h1 / 2;
    assert h3 == h2 / 2;
    assert h4 == h3 / 2;
  }

  /** The flag bits of a number whose bits from 1 to 4 are given. */
  lemma {:induction false} LowBits(n: nat, b1: nat, b2: nat, b3: nat, b4: nat, h: nat)
    requires b1 < 2 && b2 < 2 && b3 < 2 && b4 < 2 && n == n % 2 + 2 * (b1 + 2 * (b2 + 2 * (b3 + 2 * (b4 + 2 * h))))
    ensures FlagBits(n) == 1 + 2 * b1 + 4 * b2 + 8 * b3 + 16 * b4
  {
    var low := n % 2 + 2 * b1 + 4 * b2 + 8 * b3 + 16 * b4;
    assert n == low + 32 * h && low < 32;
    assert n % 32 == low;
    assert low / 2 == b1 + 2 * b2 + 4 * b3 + 8 * b4;
  }

  /** The word determines the entry. */
  lemma {:induction false} WordDetermines(e: Entry, e': Entry)
    requires EntryWord(e) == EntryWord(e')
    ensures e == e'
  {
    assert EntryWord(e) / 4096 == e.base && EntryWord(e') / 4096 == e'.base;
  }

  /** Directory `d` may have gained entries for tables, each with the bits of `flags`; nothing else changes. */
  ghost predicate TablesAdded(dirs: seq<seq<Entry>>, dirs': seq<seq<Entry>>, d: nat, flags: nat) {
    && d < |dirs| == |dirs'| && |dirs[d]| == |dirs'[d]|
    && (forall d' :: 0 <= d' < |dirs| && d' != d ==> dirs'[d'] == dirs[d'])
    && (forall i :: 0 <= i < |dirs[d]| ==>
          dirs'[d][i] == dirs[d][i]
          || (!dirs[d][i].present && dirs'[d][i].present && EntryWord(dirs'[d][i]) % 4096 == FlagBits(flags)))
  }

  lemma {:induction false} TablesAddedOn(a: seq<seq<Entry>>, b: seq<seq<Entry>>, c: seq<seq<Entry>>, d: nat, flags: nat)
    requires TablesAdded(a, b, d, flags) && TablesAdded(b, c, d, flags)
    ensures TablesAdded(a, c, d, flags)
  {
    hide EntryWord, FlagBits;
  }

  lemma {:induction false} NoTablesAdded(dirs: seq<seq<Entry>>, d: nat, flags: nat)
    requires d < |dirs|
    ensures TablesAdded(dirs, dirs, d, flags)
  {
  }

  function BlankTable(): seq<Entry> {
    seq(ENTRIES, _ => EMPTY)
  }

  /** Directories by number, page tables by page frame number, and the next unused number. */
  datatype Mem = Mem(dirs: seq<seq<Entry>>, tables: map<nat, seq<Entry>>, next: nat)

  predicate Aliased(e: Entry, e': Entry) {
    e.present && e'.present && e.base == e'.base
  }

  /** Entries name existing tables, and only the kernel's part of directories shares them, slot by slot. */
  ghost predicate WellFormed(m: Mem) {
    && (forall d :: 0 <= d < |m.dirs| ==> |m.dirs[d]| == ENTRIES)
    && (forall b :: b in m.tables ==> b < m.next && |m.tables[b]| == ENTRIES)
    && (forall d, i :: 0 <= d < |m.dirs| && 0 <= i < ENTRIES && m.dirs[d][i].present ==> m.dirs[d][i].base in m.tables)
    && (forall d, i, d', i' | 0 <= d < |m.dirs| && 0 <= i < ENTRIES && 0 <= d' < |m.dirs| && 0 <= i' < ENTRIES ::
          Aliased(m.dirs[d][i], m.dirs[d'][i']) ==> i == i' && (d == d' || KERNEL_ENTRY <= i))
  }

  /** The translation of page `p` in directory `d`. */
  ghost function Lookup(m: Mem, d: nat, p: nat): Option<Entry>
    requires WellFormed(m) && d < |m.dirs| && p < PAGES
  {
    var e := m.dirs[d][p / ENTRIES];
    if !e.present then None else
      var t := m.tables[e.base][p % ENTRIES];
      if t.present then Some(t) else None
  }

  /** `d` with a blank table for page `p`, if it has none yet. */
  ghost function WithTable(m: Mem, d: nat, p: nat, flags: nat): Mem
    requires WellFormed(m) && d < |m.dirs| && p < PAGES
  {
    var i := p / ENTRIES;
    if m.dirs[d][i].present then m
    else Mem(m.dirs[d := m.dirs[d][i := MakeEntry(flags, m.next)]], m.tables[m.next := BlankTable()], m.next + 1)
  }

  lemma {:induction false} WithTableKeeps(m: Mem, d: nat, p: nat, flags: nat)
    requires WellFormed(m) && d < |m.dirs| && p < PAGES
    ensures var m' := WithTable(m, d, p, flags);
      && WellFormed(m') && |m'.dirs| == |m.dirs| && m'.dirs[d][p / ENTRIES].present
      && forall d', p' :: 0 <= d' < |m.dirs| && 0 <= p' < PAGES ==> Lookup(m', d', p') == Lookup(m, d', p')
  {
  }

  /** A table that is added gets the bits of `flags` in its directory entry. */
  lemma {:induction false} WithTableAdds(m: Mem, d: nat, p: nat, flags: nat)
    requires WellFormed(m) && d < |m.dirs| && p < PAGES
    ensures var m' := WithTable(m, d, p, flags);
      && TablesAdded(m.dirs, m'.dirs, d, flags) && m'.dirs[d][p / ENTRIES].present
      && (!m.dirs[d][p / ENTRIES].present ==> EntryWord(m'.dirs[d][p / ENTRIES]) == m.next * 4096 + FlagBits(flags))
  {
    MadeWord(flags, m.next);
    FlagsFit(flags, m.next);
    NoTablesAdded(m.dirs, d, flags);
    hide EntryWord, FlagBits, MakeEntry;
    assert |m.dirs[d]| == ENTRIES;
    hide WellFormed;
  }

  lemma {:induction false} FlagsFit(flags: nat, base: nat)
    ensures (base * 4096 + FlagBits(flags)) % 4096 == FlagBits(flags)
    ensures MakeEntry(flags, base).present
  {
  }

  /** Table entry `p % 1024` of the table that `d` uses for page `p`, set to `e`. */
  ghost function WithEntry(m: Mem, d: nat, p: nat, e: Entry): Mem
    requires WellFormed(m) && d < |m.dirs| && p < PAGES && m.dirs[d][p / ENTRIES].present
  {
    var b := m.dirs[d][p / ENTRIES].base;
    m.(tables := m.tables[b := m.tables[b][p % ENTRIES := e]])
  }

  ghost predicate SharesTable(m: Mem, d: nat, d': nat, p: nat)
    requires WellFormed(m) && d < |m.dirs| && d' < |m.dirs| && p < PAGES
  {
    && m.dirs[d][p / ENTRIES].present && m.dirs[d'][p / ENTRIES].present
    && m.dirs[d][p / ENTRIES].base == m.dirs[d'][p / ENTRIES].base
  }

  /** Writing one table entry changes the translation of that page alone, in the directories that share the table. */
  lemma {:induction false} WithEntryKeeps(m: Mem, d: nat, p: nat, e: Entry)
    requires WellFormed(m) && d < |m.dirs| && p < PAGES && m.dirs[d][p / ENTRIES].present
    ensures var m' := WithEntry(m, d, p, e);
      && WellFormed(m') && m'.dirs == m.dirs
      && forall d', p' :: 0 <= d' < |m.dirs| && 0 <= p' < PAGES ==>
           Lookup(m', d', p') == if p' == p && SharesTable(m, d, d', p) then (if e.present then Some(e) else None)
                                 else Lookup(m, d', p')
  {
    var m' := WithEntry(m, d, p, e);
    forall d', p' | 0 <= d' < |m.dirs| && 0 <= p' < PAGES
      ensures Lookup(m', d', p') == if p' == p && SharesTable(m, d, d', p) then (if e.present then Some(e) else None)
                                    else Lookup(m, d', p')
    {
      if m.dirs[d'][p' / ENTRIES].present && m.dirs[d'][p' / ENTRIES].base == m.dirs[d][p / ENTRIES].base {
        assert p' / ENTRIES == p / ENTRIES;
        assert p' == p <==> p' % ENTRIES == p % ENTRIES;
      }
    }
  }

  /** A new directory: the lower part empty, the upper part the kernel's. */
  function NewDirectory(kernel: Option<seq<Entry>>): seq<Entry>
    requires kernel.Some? ==> |kernel.value| == ENTRIES
  {
    seq(ENTRIES, i requires 0 <= i < ENTRIES => if kernel.Some? && KERNEL_ENTRY <= i then kernel.value[i] else EMPTY)
  }

  function WithDirectory(m: Mem, k: Option<nat>): Mem
    requires k.Some? ==> k.value < |m.dirs| && |m.dirs[k.value]| == ENTRIES
  {
    m.(dirs := m.dirs + [NewDirectory(if k.Some? then Some(m.dirs[k.value]) else None)])
  }

  lemma {:induction false} WithDirectoryWellFormed(m: Mem, k: Option<nat>)
    requires WellFormed(m) && (k.Some? ==> k.value < |m.dirs|)
    ensures WellFormed(WithDirectory(m, k))
  {
    var m', n := WithDirectory(m, k), |m.dirs|;
    var nd := m'.dirs[n];
    assert forall d :: 0 <= d < n ==> m'.dirs[d] == m.dirs[d];
    assert forall i :: 0 <= i < ENTRIES && nd[i].present ==> k.Some? && KERNEL_ENTRY <= i && nd[i] == m.dirs[k.value][i];
    forall d, i, d', i' | 0 <= d <= n && 0 <= i < ENTRIES && 0 <= d' <= n && 0 <= i' < ENTRIES && Aliased(m'.dirs[d][i], m'.dirs[d'][i'])
      ensures i == i' && (d == d' || KERNEL_ENTRY <= i)
    {
      var c, c' := if d == n then k.value else d, if d' == n then k.value else d';
      assert Aliased(m.dirs[c][i], m.dirs[c'][i']);
    }
  }

  /** A new directory maps no user page, translates kernel pages as the kernel does, and disturbs no other. */
  lemma {:induction false} WithDirectoryKeeps(m: Mem, k: Option<nat>)
    requires WellFormed(m) && (k.Some? ==> k.value < |m.dirs|)
    ensures var m', n := WithDirectory(m, k), |m.dirs|;
      && WellFormed(m') && |m'.dirs| == n + 1
      && (forall d, p :: 0 <= d < n && 0 <= p < PAGES ==> Lookup(m', d, p) == Lookup(m, d, p))
      && (forall p :: 0 <= p < KERNEL_PAGE ==> Lookup(m', n, p) == None)
      && (forall p :: KERNEL_PAGE <= p < PAGES ==>
            Lookup(m', n, p) == if k.Some? then Lookup(m, k.value, p) else None)
  {
    WithDirectoryWellFormed(m, k);
    var m', n := WithDirectory(m, k), |m.dirs|;
    forall p | 0 <= p < KERNEL_PAGE ensures Lookup(m', n, p) == None {
      assert p / ENTRIES < KERNEL_ENTRY;
    }
    forall p | KERNEL_PAGE <= p < PAGES
      ensures Lookup(m', n, p) == if k.Some? then Lookup(m, k.value, p) else None
    {
      assert KERNEL_ENTRY <= p / ENTRIES;
    }
  }
}
