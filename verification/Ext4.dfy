/** The ext4 allocators and inode store, working on a disk. */
module Ext4 {
  import opened Machine
  import opened Bits
  import opened GroupBitmaps
  import opened Ext4Layout
  import opened Ext4Inodes

  /** The superblock's free counts; `geo` holds what does not change. */
  class Ext4FileSystem {
    const geo: Geometry
    var disk: Disk
    var freeBlocks: nat
    var freeInodes: nat
    ghost const roles: map<nat, Role>

    ghost predicate Valid()
      reads this
    {
      Layout(geo, disk, roles) && forall w :: Sane(SpaceFor(w))
    }

    /** The state of the allocator of blocks or of inodes. */
    ghost function SpaceFor(w: Which): Space
      requires Layout(geo, disk, roles)
      reads this
    {
      SpaceOf(geo, disk, roles, w, if w == OfBlocks then freeBlocks else freeInodes)
    }

    constructor (geo: Geometry, disk: Disk, freeBlocks: nat, freeInodes: nat, ghost roles: map<nat, Role>)
      requires Layout(geo, disk, roles)
      requires Sane(SpaceOf(geo, disk, roles, OfBlocks, freeBlocks)) && Sane(SpaceOf(geo, disk, roles, OfInodes, freeInodes))
      ensures Valid() && this.disk == disk && this.geo == geo && this.roles == roles
      ensures this.freeBlocks == freeBlocks && this.freeInodes == freeInodes
    {
      this.geo, this.disk, this.roles := geo, disk, roles;
      this.freeBlocks, this.freeInodes := freeBlocks, freeInodes;
    }

    /** Every inode reads as before. */
    ghost predicate SameInodes(before: Disk)
      requires Layout(geo, disk, roles) && Layout(geo, before, roles)
      reads this
    {
      forall n :: RecordFits(geo, n) ==> RecordOf(geo, disk, roles, n) == RecordOf(geo, before, roles, n)
    }

    /** Writes the bitmap and then the descriptor of a group. */
    method WriteGroup(w: Which, g: nat, bits: seq<bv8>, free: nat)
      requires Layout(geo, disk, roles) && g < geo.groupCount && |bits| == geo.blockSize
      modifies this`disk
      ensures GroupLaid(geo, old(disk), roles, g) && disk == Recounted(geo, old(disk), w, g, bits, free)
    {
      assert GroupLaid(geo, disk, roles, g);
      var d := disk[geo.firstDataBlock + 1 + g].d;
      disk := disk[Bitmap(d, w) := Bytes(bits)];
      disk := disk[geo.firstDataBlock + 1 + g := DescriptorBlock(WithFree(d, w, free))];
    }

    /** What the descriptor and the bitmap of a group say. */
    lemma GroupAt(w: Which, g: nat)
      requires Layout(geo, disk, roles) && g < geo.groupCount
      ensures GroupLaid(geo, disk, roles, g)
      ensures var d := DescriptorOf(geo, disk, g);
        |disk[Bitmap(d, w)].data| == geo.blockSize && SpaceFor(w).groups[g] == Group(disk[Bitmap(d, w)].data, Free(d, w))
    {
      assert GroupLaid(geo, disk, roles, g);
    }

    /** Writes a group's bitmap and descriptor, and the superblock's count. */
    method Recount(w: Which, g: nat, bits: seq<bv8>, free: nat, total: nat)
      requires Layout(geo, disk, roles) && g < geo.groupCount && |bits| == geo.blockSize
      modifies this`disk, this`freeBlocks, this`freeInodes
      ensures Layout(geo, disk, roles) && SameInodes(old(disk))
      ensures SpaceFor(w) == old(SpaceFor(w)).(groups := old(SpaceFor(w)).groups[g := Group(bits, free)], total := total)
      ensures forall v :: v != w ==> SpaceFor(v) == old(SpaceFor(v))
    {
      RecountedSpace(geo, disk, roles, w, g, bits, free, total);
      forall n | RecordFits(geo, n)
        ensures RecordOf(geo, Recounted(geo, disk, w, g, bits, free), roles, n) == RecordOf(geo, disk, roles, n)
      {
        RecountedKeepsRecord(geo, disk, roles, w, g, bits, free, n);
      }
      hide Recounted, Layout, RecordOf, GroupLaid;
      WriteGroup(w, g, bits, free);
      if w == OfBlocks {
        freeBlocks := total;
      } else {
        freeInodes := total;
      }
    }

    lemma Sound(w: Which)
      requires Valid()
      ensures Sane(SpaceFor(w)) && |SpaceFor(w).groups| == geo.groupCount
      ensures SpaceFor(w).total == if w == OfBlocks then freeBlocks else freeInodes
      ensures SpaceFor(w).per == (if w == OfBlocks then geo.blocksPerGroup else geo.inodesPerGroup) <= 8 * geo.blockSize
      ensures SpaceFor(w).kind == if w == OfBlocks then Blocks(geo.firstDataBlock) else Inodes
    {
    }

    /** Reads the descriptor of a group. */
    method ReadDescriptor(g: nat) returns (d: Descriptor)
      requires Layout(geo, disk, roles) && g < geo.groupCount
      ensures DescriptorAt(geo, g) in disk && disk[DescriptorAt(geo, g)] == DescriptorBlock(d)
      ensures forall w :: SpaceFor(w).groups[g].free == Free(d, w)
    {
      GroupAt(OfBlocks, g);
      GroupAt(OfInodes, g);
      d := disk[geo.firstDataBlock + 1 + g].d;
    }

    /** Reads a bitmap of a group. */
    method ReadBitmap(w: Which, g: nat, d: Descriptor) returns (bits: seq<bv8>)
      requires Layout(geo, disk, roles) && g < geo.groupCount
      requires DescriptorAt(geo, g) in disk && disk[DescriptorAt(geo, g)] == DescriptorBlock(d)
      ensures |bits| == geo.blockSize && bits == SpaceFor(w).groups[g].bits
    {
      GroupAt(w, g);
      bits := disk[Bitmap(d, w)].data;
    }

    /** Object `i` of group `g` is marked as used, and the counts go down. */
    method MarkUsed(w: Which, g: nat, i: nat, d: Descriptor, bits: seq<bv8>)
      requires Valid() && g < geo.groupCount && i < SpaceFor(w).per
      requires |bits| == geo.blockSize && SpaceFor(w).groups[g] == Group(bits, Free(d, w)) && !BitAt8(bits, i)
      requires Free(d, w) > 0 && SpaceFor(w).total > 0
      modifies this`disk, this`freeBlocks, this`freeInodes
      ensures Valid() && SpaceFor(w) == Marked(old(SpaceFor(w)), g, i)
      ensures forall v :: v != w ==> SpaceFor(v) == old(SpaceFor(v))
      ensures SameInodes(old(disk))
    {
      hide Sane, SpaceFor, WithBit8, RecordFits, RecordOf, Layout, Free;
      Sound(w);
      ghost var sp := SpaceFor(w);
      MarkedConserves(sp, g, i);
      FreeFits(sp, g);
      Recount(w, g, WithBit8(bits, i), (Free(d, w) + HALF - 1) % HALF, (if w == OfBlocks then freeBlocks else freeInodes) - 1);
      hide BitAt8, Conserves;
      assert SpaceFor(w) == Marked(sp, g, i);
    }

    /** Object `i` of group `g` is marked as free, and the counts go up. */
    method MarkFree(w: Which, g: nat, i: nat, d: Descriptor, bits: seq<bv8>)
      requires Valid() && g < geo.groupCount && i < SpaceFor(w).per
      requires |bits| == geo.blockSize && SpaceFor(w).groups[g] == Group(bits, Free(d, w)) && BitAt8(bits, i)
      modifies this`disk, this`freeBlocks, this`freeInodes
      ensures Valid() && SpaceFor(w) == Cleared(old(SpaceFor(w)), g, i)
      ensures forall v :: v != w ==> SpaceFor(v) == old(SpaceFor(v))
      ensures SameInodes(old(disk))
    {
      hide Sane, SpaceFor, WithoutBit8, RecordFits, RecordOf, Layout, Free;
      Sound(w);
      ghost var sp := SpaceFor(w);
      ClearedConserves(sp, g, i);
      Recount(w, g, WithoutBit8(bits, i), (Free(d, w) + 1) % HALF, ((if w == OfBlocks then freeBlocks else freeInodes) + 1) % WORD);
      hide BitAt8, Conserves;
      assert SpaceFor(w) == Cleared(sp, g, i);
    }

    lemma FreeFits(sp: Space, g: nat)
      requires Sane(sp) && g < |sp.groups|
      ensures sp.groups[g].free > 0 ==> (sp.groups[g].free + HALF - 1) % HALF == sp.groups[g].free - 1
    {
      assert sp.groups[g].free < HALF;
    }

    /** The block with the least eligible number of the first group that can give one, or 0. */
    method AllocateBlock() returns (n: nat)
      requires Valid()
      modifies this`disk, this`freeBlocks, this`freeInodes
      ensures Valid() && (SpaceFor(OfBlocks), n) == Taken(old(SpaceFor(OfBlocks)))
      ensures SpaceFor(OfInodes) == old(SpaceFor(OfInodes)) && SameInodes(old(disk))
    {
      Sound(OfBlocks);
      ghost var sp := SpaceFor(OfBlocks);
      SaneFormed(sp);
      hide Layout, Sane, SameInodes, FirstClear, Find, Marked, SpaceFor, Number, WellFormed, BitAt8;
      if freeBlocks == 0 {
        return 0;
      }
      var found, d, bits := FindBlock();
      if found == None {
        return 0;
      }
      var (bg, i) := found.value;
      FoundFits(sp);
      MarkUsed(OfBlocks, bg, i, d, bits);
      n := (bg * geo.blocksPerGroup + i + 1) % WORD;
    }

    /** The search of all groups; `d` and `bits` are the descriptor and the bitmap of the group found. */
    method FindBlock() returns (r: Option<(nat, nat)>, d: Descriptor, bits: seq<bv8>)
      requires Valid()
      ensures r == Find(SpaceFor(OfBlocks), 0)
      ensures r.Some? ==> |bits| == geo.blockSize && SpaceFor(OfBlocks).groups[r.value.0] == Group(bits, Free(d, OfBlocks))
    {
      Sound(OfBlocks);
      ghost var sp := SpaceFor(OfBlocks);
      SaneFormed(sp);
      hide Layout, Sane, FirstClear, Find, SpaceFor, WellFormed;
      d, bits := Descriptor(0, 0, 0, 0, 0), [];
      for bg := 0 to geo.groupCount
        invariant Find(sp, 0) == Find(sp, bg)
      {
        SearchStep(sp, bg);
        d := ReadDescriptor(bg);
        if d.freeBlocks != 0 {
          bits := ReadBitmap(OfBlocks, bg, d);
          var i := SearchBlock(sp, bg, bits);
          if i.Some? {
            return Some((bg, i.value)), d, bits;
          }
        }
      }
      SearchEnd(sp);
      return None, d, bits;
    }

    /** The scan of one block bitmap. */
    method SearchBlock(ghost sp: Space, bg: nat, bits: seq<bv8>) returns (r: Option<nat>)
      requires WellFormed(sp) && bg < |sp.groups| && sp.groups[bg].bits == bits
      requires sp.per == geo.blocksPerGroup && sp.kind == Blocks(geo.firstDataBlock)
      ensures r == FirstClear(sp, bg, 0)
    {
      hide IsSet8, Number, FirstClear;
      for i := 0 to geo.blocksPerGroup
        invariant FirstClear(sp, bg, 0) == FirstClear(sp, bg, i)
      {
        ScanStep(sp, bg, i);
        var number := (bg * geo.blocksPerGroup + i + 1) % WORD;
        if number > geo.firstDataBlock && !IsSet8(bits[i / 8], i % 8) {
          return Some(i);
        }
      }
      ScanEnd(sp, bg);
      return None;
    }

    /** Gives a block back; numbers that are reserved, too large or not in use are ignored. */
    method FreeBlock(n: nat)
      requires Valid()
      modifies this`disk, this`freeBlocks, this`freeInodes
      ensures Valid() && SpaceFor(OfBlocks) == Given(old(SpaceFor(OfBlocks)), n)
      ensures SpaceFor(OfInodes) == old(SpaceFor(OfInodes)) && SameInodes(old(disk))
    {
      Sound(OfBlocks);
      ghost var sp := SpaceFor(OfBlocks);
      SaneFormed(sp);
      hide Layout, Sane, IsSet8, SameInodes, Cleared, SpaceFor;
      if n == 0 {
        return;
      }
      PartsOf(sp, n);
      var g, i := (n - 1) / geo.blocksPerGroup, (n - 1) % geo.blocksPerGroup;
      hide GroupOf, Slot;
      if g >= geo.groupCount || n <= geo.firstDataBlock {
        return;
      }
      var d := ReadDescriptor(g);
      var bits := ReadBitmap(OfBlocks, g, d);
      BitInRange(sp, g, i);
      if !IsSet8(bits[i / 8], i % 8) {
        return;
      }
      MarkFree(OfBlocks, g, i, d, bits);
    }

    /** The least eligible inode number of the first group that can give one, or 0. */
    method AllocateInode() returns (n: nat)
      requires Valid()
      modifies this`disk, this`freeBlocks, this`freeInodes
      ensures Valid() && (SpaceFor(OfInodes), n) == Taken(old(SpaceFor(OfInodes)))
      ensures SpaceFor(OfBlocks) == old(SpaceFor(OfBlocks)) && SameInodes(old(disk))
    {
      Sound(OfInodes);
      ghost var sp := SpaceFor(OfInodes);
      SaneFormed(sp);
      hide Layout, Sane, SameInodes, FirstClear, Find, Marked, SpaceFor, Number, WellFormed, BitAt8;
      if freeInodes == 0 {
        return 0;
      }
      var found, d, bits := FindInode();
      if found == None {
        return 0;
      }
      var (bg, i) := found.value;
      FoundFits(sp);
      MarkUsed(OfInodes, bg, i, d, bits);
      n := (bg * geo.inodesPerGroup + i + 1) % WORD;
    }

    /** The search of all groups; `d` and `bits` are the descriptor and the bitmap of the group found. */
    method FindInode() returns (r: Option<(nat, nat)>, d: Descriptor, bits: seq<bv8>)
      requires Valid()
      ensures r == Find(SpaceFor(OfInodes), 0)
      ensures r.Some? ==> |bits| == geo.blockSize && SpaceFor(OfInodes).groups[r.value.0] == Group(bits, Free(d, OfInodes))
    {
      Sound(OfInodes);
      ghost var sp := SpaceFor(OfInodes);
      SaneFormed(sp);
      hide Layout, Sane, FirstClear, Find, SpaceFor, WellFormed;
      d, bits := Descriptor(0, 0, 0, 0, 0), [];
      for bg := 0 to geo.groupCount
        invariant Find(sp, 0) == Find(sp, bg)
      {
        SearchStep(sp, bg);
        d := ReadDescriptor(bg);
        if d.freeInodes != 0 {
          bits := ReadBitmap(OfInodes, bg, d);
          var i := SearchInode(sp, bg, bits);
          if i.Some? {
            return Some((bg, i.value)), d, bits;
          }
        }
      }
      SearchEnd(sp);
      return None, d, bits;
    }

    /** The scan of one inode bitmap. */
    method SearchInode(ghost sp: Space, bg: nat, bits: seq<bv8>) returns (r: Option<nat>)
      requires WellFormed(sp) && bg < |sp.groups| && sp.groups[bg].bits == bits
      requires sp.per == geo.inodesPerGroup && sp.kind == Inodes
      ensures r == FirstClear(sp, bg, 0)
    {
      hide IsSet8, Number, FirstClear;
      for i := 0 to geo.inodesPerGroup
        invariant FirstClear(sp, bg, 0) == FirstClear(sp, bg, i)
      {
        ScanStep(sp, bg, i);
        if !(bg == 0 && i < RESERVED_INODES) && !IsSet8(bits[i / 8], i % 8) {
          return Some(i);
        }
      }
      ScanEnd(sp, bg);
      return None;
    }

    /** Gives an inode number back; numbers that are too large or not in use are ignored. */
    method FreeInode(n: nat)
      requires Valid()
      modifies this`disk, this`freeBlocks, this`freeInodes
      ensures Valid() && SpaceFor(OfInodes) == Given(old(SpaceFor(OfInodes)), n)
      ensures SpaceFor(OfBlocks) == old(SpaceFor(OfBlocks)) && SameInodes(old(disk))
    {
      Sound(OfInodes);
      ghost var sp := SpaceFor(OfInodes);
      SaneFormed(sp);
      hide Layout, Sane, IsSet8, SameInodes, Cleared, SpaceFor;
      if n == 0 {
        return;
      }
      PartsOf(sp, n);
      var g, i := (n - 1) / geo.inodesPerGroup, (n - 1) % geo.inodesPerGroup;
      hide GroupOf, Slot;
      if g >= geo.groupCount {
        return;
      }
      var d := ReadDescriptor(g);
      var bits := ReadBitmap(OfInodes, g, d);
      BitInRange(sp, g, i);
      if !IsSet8(bits[i / 8], i % 8) {
        return;
      }
      MarkFree(OfInodes, g, i, d, bits);
    }

    // ---------- inodes ----------

    method ReadInode(n: nat) returns (r: Record)
      requires Valid() && RecordFits(geo, n)
      ensures r == RecordOf(geo, disk, roles, n)
    {
      hide Layout, Sane, RecordOf, SpaceOf, GroupLaid, RecordFits, InodeBlock;
      Locate(n, seq(RECORD, _ => 0));
      var g, i := (n - 1) / geo.inodesPerGroup, (n - 1) % geo.inodesPerGroup;
      var d := ReadDescriptor(g);
      var offset := i * geo.inodeSize;
      var k, a := offset / geo.blockSize, offset % geo.blockSize;
      r := disk[d.inodeTable + k].data[a..a + RECORD];
    }

    /** The block with the record is read, changed and written back. */
    method WriteInode(n: nat, r: Record)
      requires Valid() && RecordFits(geo, n)
      modifies this`disk
      ensures Valid() && forall w :: SpaceFor(w) == old(SpaceFor(w))
      ensures RecordOf(geo, disk, roles, n) == r
      ensures forall m :: RecordFits(geo, m) && RecordsApart(geo, n, m) ==> RecordOf(geo, disk, roles, m) == RecordOf(geo, old(disk), roles, m)
      ensures disk == Written(geo, old(disk), roles, n, r)
    {
      hide Layout, Sane, RecordOf, SpaceOf, Written, GroupLaid, RecordFits, InodeBlock;
      AfterWrite(n, r);
      Locate(n, r);
      var g, i := (n - 1) / geo.inodesPerGroup, (n - 1) % geo.inodesPerGroup;
      var d := ReadDescriptor(g);
      var offset := i * geo.inodeSize;
      var k, a := offset / geo.blockSize, offset % geo.blockSize;
      var data := disk[d.inodeTable + k].data;
      disk := disk[d.inodeTable + k := Bytes(data[..a] + r + data[a + RECORD..])];
      forall w ensures SpaceFor(w) == old(SpaceFor(w)) && Sane(SpaceFor(w)) {
        assert old(Sane(SpaceFor(w)));
      }
    }

    /** Where the record of an inode is. */
    lemma Locate(n: nat, r: Record)
      requires Valid() && RecordFits(geo, n)
      ensures geo.inodesPerGroup > 0 && geo.blockSize > 0 && n > 0
      ensures var g, i, b := GroupOf(geo.inodesPerGroup, n), Slot(geo.inodesPerGroup, n), InodeBlock(geo, disk, roles, n);
        var a := SlotStart(geo, i);
        && g < geo.groupCount && DescriptorAt(geo, g) in disk && disk[DescriptorAt(geo, g)].DescriptorBlock?
        && b == DescriptorOf(geo, disk, g).inodeTable + SlotBlock(geo, i)
        && b in disk && disk[b].Bytes? && a + RECORD <= |disk[b].data|
        && RecordOf(geo, disk, roles, n) == disk[b].data[a..a + RECORD]
        && Written(geo, disk, roles, n, r) == disk[b := Bytes(disk[b].data[..a] + r + disk[b].data[a + RECORD..])]
    {
      InodePlace(geo, n);
      var g := GroupOf(geo.inodesPerGroup, n);
      assert GroupLaid(geo, disk, roles, g);
      hide GroupOf, Slot, SlotBlock, SlotStart;
    }

    lemma AfterWrite(n: nat, r: Record)
      requires Valid() && RecordFits(geo, n)
      ensures var disk' := Written(geo, disk, roles, n, r);
        && Layout(geo, disk', roles)
        && RecordOf(geo, disk', roles, n) == r
        && (forall m :: RecordFits(geo, m) && RecordsApart(geo, n, m) ==> RecordOf(geo, disk', roles, m) == RecordOf(geo, disk, roles, m))
        && (forall w, t :: SpaceOf(geo, disk', roles, w, t) == SpaceOf(geo, disk, roles, w, t))
    {
      WriteThenRead(geo, disk, roles, n, r, n);
      forall m | RecordFits(geo, m) && RecordsApart(geo, n, m)
        ensures RecordOf(geo, Written(geo, disk, roles, n, r), roles, m) == RecordOf(geo, disk, roles, m)
      {
        WriteThenRead(geo, disk, roles, n, r, m);
      }
      hide Layout, RecordOf, Written, SpaceOf;
    }
  }

  /** A run of block allocations and releases on the disk is one of the allocator's, and spares all else. */
  method RunBlocks(fs: Ext4FileSystem, ops: seq<Op>) returns (held: set<nat>)
    requires fs.Valid()
    modifies fs
    ensures fs.Valid() && Run(fs.SpaceFor(OfBlocks), held) == After(old(fs.SpaceFor(OfBlocks)), ops)
    ensures fs.SpaceFor(OfInodes) == old(fs.SpaceFor(OfInodes)) && fs.SameInodes(old(fs.disk))
  {
    ghost var first := fs.SpaceFor(OfBlocks);
    fs.Sound(OfBlocks);
    hide Layout, Sane, Taken, Given, RecordOf, SpaceOf, RecordFits;
    held := {};
    assert After(first, ops[..0]) == Run(first, {});
    hide After;
    for i := 0 to |ops|
      invariant fs.Valid() && Run(fs.SpaceFor(OfBlocks), held) == After(first, ops[..i])
      invariant fs.SpaceFor(OfInodes) == old(fs.SpaceFor(OfInodes)) && fs.SameInodes(old(fs.disk))
    {
      AfterOne(first, ops, i);
      match ops[i]
      case Take =>
        var n := fs.AllocateBlock();
        if n != 0 {
          held := held + {n};
        }
      case Give(n) =>
        fs.FreeBlock(n);
        held := held - {n};
    }
    assert ops[..|ops|] == ops;
  }

  /** The same for inode numbers. */
  method RunInodes(fs: Ext4FileSystem, ops: seq<Op>) returns (held: set<nat>)
    requires fs.Valid()
    modifies fs
    ensures fs.Valid() && Run(fs.SpaceFor(OfInodes), held) == After(old(fs.SpaceFor(OfInodes)), ops)
    ensures fs.SpaceFor(OfBlocks) == old(fs.SpaceFor(OfBlocks)) && fs.SameInodes(old(fs.disk))
  {
    ghost var first := fs.SpaceFor(OfInodes);
    fs.Sound(OfInodes);
    hide Layout, Sane, Taken, Given, RecordOf, SpaceOf, RecordFits;
    held := {};
    assert After(first, ops[..0]) == Run(first, {});
    hide After;
    for i := 0 to |ops|
      invariant fs.Valid() && Run(fs.SpaceFor(OfInodes), held) == After(first, ops[..i])
      invariant fs.SpaceFor(OfBlocks) == old(fs.SpaceFor(OfBlocks)) && fs.SameInodes(old(fs.disk))
    {
      AfterOne(first, ops, i);
      match ops[i]
      case Take =>
        var n := fs.AllocateInode();
        if n != 0 {
          held := held + {n};
        }
      case Give(n) =>
        fs.FreeInode(n);
        held := held - {n};
    }
    assert ops[..|ops|] == ops;
  }

  lemma {:induction false} ScanStep(sp: Space, g: nat, i: nat)
    requires WellFormed(sp) && g < |sp.groups| && i < sp.per
    ensures Number(sp.per, g, i) == (g * sp.per + i + 1) % WORD < WORD
    ensures i / 8 < |sp.groups[g].bits|
    ensures Eligible(sp, g, i) <==> !Skipped(sp, g, i) && !IsSet8(sp.groups[g].bits[i / 8], i % 8)
    ensures FirstClear(sp, g, i) == if Eligible(sp, g, i) then Some(i) else FirstClear(sp, g, i + 1)
  {
    NumberBound(sp, g, i);
  }

  lemma {:induction false} PartsOf(sp: Space, n: nat)
    requires WellFormed(sp) && n > 0
    ensures GroupOf(sp.per, n) == (n - 1) / sp.per && Slot(sp.per, n) == (n - 1) % sp.per < sp.per
  {
  }

  lemma {:induction false} BitInRange(sp: Space, g: nat, i: nat)
    requires WellFormed(sp) && g < |sp.groups| && i < sp.per
    ensures i / 8 < |sp.groups[g].bits|
  {
  }

  lemma {:induction false} SearchStep(sp: Space, g: nat)
    requires WellFormed(sp) && g < |sp.groups|
    ensures var i := FirstClear(sp, g, 0);
      Find(sp, g) == if sp.groups[g].free > 0 && i.Some? then Some((g, i.value)) else Find(sp, g + 1)
  {
  }

  lemma {:induction false} SearchEnd(sp: Space)
    ensures Find(sp, |sp.groups|) == None
  {
  }

  lemma {:induction false} FoundFits(sp: Space)
    requires WellFormed(sp) && sp.total > 0 && Find(sp, 0).Some?
    ensures var (g, i) := Find(sp, 0).value;
      && g < |sp.groups| && sp.groups[g].free > 0 && i < sp.per && !BitAt8(sp.groups[g].bits, i)
      && i / 8 < |sp.groups[g].bits|
      && Taken(sp) == (Marked(sp, g, i), (g * sp.per + i + 1) % WORD)
  {
    hide Marked, BitAt8, Skipped, Number, FirstClear, WellFormed, Find;
    var (g, i) := Find(sp, 0).value;
    assert Eligible(sp, g, i) && i < sp.per;
    BitInRange(sp, g, i);
    NumberWord(sp, g, i);
  }

  lemma {:induction false} NumberWord(sp: Space, g: nat, i: nat)
    requires WellFormed(sp) && g < |sp.groups| && i < sp.per
    ensures Number(sp.per, g, i) == (g * sp.per + i + 1) % WORD
  {
    NumberBound(sp, g, i);
  }

  lemma {:induction false} ScanEnd(sp: Space, g: nat)
    requires g < |sp.groups|
    ensures FirstClear(sp, g, sp.per) == None
  {
  }
}
