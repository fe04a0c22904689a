/** The inode tables of an ext4 file system as a map from inode numbers to records. */
module Ext4Inodes {
  import opened Machine
  import opened GroupBitmaps
  import opened Ext4Layout

  /** The size of an inode record in memory. */
  const RECORD := 166

  type Record = r: seq<bv8> | |r| == RECORD witness seq(RECORD, _ => 0)

  /** Slots hold a whole record and do not straddle blocks. */
  predicate SlotsFit(geo: Geometry) {
    && RECORD <= geo.inodeSize && geo.blockSize > 0 && geo.blockSize % geo.inodeSize == 0
    && geo.inodesPerGroup > 0
  }

  predicate HasInode(geo: Geometry, n: nat) {
    1 <= n <= geo.groupCount * geo.inodesPerGroup
  }

  /** The place of inode `n` lies inside one block: what reading and writing it need. */
  predicate RecordFits(geo: Geometry, n: nat) {
    && HasInode(geo, n) && geo.inodesPerGroup > 0 && geo.blockSize > 0 && geo.inodeSize > 0
    && SlotStart(geo, Slot(geo.inodesPerGroup, n)) + RECORD <= geo.blockSize
  }

  // ---------- slots ----------

  /** The block of the table that slot `i` is in, and where in the block it begins. */
  function SlotBlock(geo: Geometry, i: nat): nat
    requires geo.blockSize > 0
  {
    i * geo.inodeSize / geo.blockSize
  }

  function SlotStart(geo: Geometry, i: nat): nat
    requires geo.blockSize > 0
  {
    i * geo.inodeSize % geo.blockSize
  }

  /** With `q` slots in a block, slot `i` is the one numbered `i % q` of block `i / q`. */
  lemma {:induction false} SlotPlace(geo: Geometry, i: nat, q: nat)
    requires SlotsFit(geo) && q == geo.blockSize / geo.inodeSize
    ensures q > 0 && SlotBlock(geo, i) == i / q && SlotStart(geo, i) == i % q * geo.inodeSize
    ensures SlotStart(geo, i) + geo.inodeSize <= geo.blockSize
  {
    WholeSlots(geo);
    Placement(i, q, geo.inodeSize);
  }

  lemma {:induction false} WholeSlots(geo: Geometry)
    requires SlotsFit(geo)
    ensures geo.blockSize == geo.blockSize / geo.inodeSize * geo.inodeSize && geo.blockSize / geo.inodeSize > 0
  {
    var q, s := geo.blockSize / geo.inodeSize, geo.inodeSize;
    assert geo.blockSize == q * s;
  }

  lemma {:induction false} Placement(i: nat, q: nat, s: nat)
    requires q > 0 && s > 0 && q * s > 0
    ensures i * s / (q * s) == i / q && i * s % (q * s) == i % q * s && i % q * s + s <= q * s
  {
    var u, v := i / q, i % q;
    assert i == u * q + v;
    Placed(i, q, s, u, v);
  }

  lemma {:induction false} Placed(i: nat, q: nat, s: nat, u: nat, v: nat)
    requires s > 0 && q * s > 0 && i == u * q + v && v < q
    ensures i * s / (q * s) == u && i * s % (q * s) == v * s && v * s + s <= q * s
  {
    Regroup(u, q, v, s);
    Times(v + 1, q, s);
    PlusOne(v, s);
    DivModUnique(i * s, q * s, u, v * s);
  }

  lemma {:induction false} PlusOne(v: nat, s: nat)
    ensures (v + 1) * s == v * s + s
  {
  }

  lemma {:induction false} Regroup(u: nat, q: nat, v: nat, s: nat)
    ensures (u * q + v) * s == u * (q * s) + v * s
  {
  }

  lemma {:induction false} Times(a: nat, b: nat, s: nat)
    requires a <= b
    ensures a * s <= b * s
  {
    assert b * s == a * s + (b - a) * s;
    NonNegative(b - a, s);
  }

  lemma {:induction false} SlotInTable(geo: Geometry, i: nat)
    requires geo.blockSize > 0 && geo.inodeSize > 0 && i < geo.inodesPerGroup
    ensures InTable(geo, SlotBlock(geo, i))
  {
    var o := i * geo.inodeSize;
    assert o / geo.blockSize * geo.blockSize <= o;
    Times(i + 1, geo.inodesPerGroup, geo.inodeSize);
  }

  /** Two slots of a block are at least a slot apart. */
  lemma {:induction false} SlotsApart(geo: Geometry, i: nat, j: nat)
    requires SlotsFit(geo) && i != j && SlotBlock(geo, i) == SlotBlock(geo, j)
    ensures SlotStart(geo, i) + geo.inodeSize <= SlotStart(geo, j) || SlotStart(geo, j) + geo.inodeSize <= SlotStart(geo, i)
  {
    var q := geo.blockSize / geo.inodeSize;
    SlotPlace(geo, i, q);
    SlotPlace(geo, j, q);
    assert i == i / q * q + i % q && j == j / q * q + j % q;
    if i % q < j % q {
      Times(i % q + 1, j % q, geo.inodeSize);
    } else {
      Times(j % q + 1, i % q, geo.inodeSize);
    }
  }

  // ---------- records ----------

  function Stored(data: seq<bv8>, a: nat, r: Record): seq<bv8>
    requires a + RECORD <= |data|
  {
    data[..a] + r + data[a + RECORD..]
  }

  /** Storing a record changes exactly the bytes it covers. */
  lemma {:induction false} StoredBytes(data: seq<bv8>, a: nat, r: Record, b: nat)
    requires a + RECORD <= |data| && b + RECORD <= |data|
    ensures |Stored(data, a, r)| == |data|
    ensures Stored(data, a, r)[a..a + RECORD] == r
    ensures a + RECORD <= b || b + RECORD <= a ==> Stored(data, a, r)[b..b + RECORD] == data[b..b + RECORD]
  {
  }

  /** Records that overlap in a block overwrite each other: some record shows it. */
  lemma {:induction false} StoredOver(data: seq<bv8>, a: nat, b: nat) returns (r: Record)
    requires a + RECORD <= |data| && b + RECORD <= |data| && a < b + RECORD && b < a + RECORD
    ensures Stored(data, a, r)[b..b + RECORD] != data[b..b + RECORD]
  {
    var k := if a <= b then b else a;
    r := seq(RECORD, _ => !data[k]);
    assert Stored(data, a, r)[k] == r[k - a];
    assert Stored(data, a, r)[b..b + RECORD][k - b] == !data[k];
    assert data[b..b + RECORD][k - b] == data[k] != !data[k];
  }

  // ---------- the store ----------

  lemma {:induction false} InodePlace(geo: Geometry, n: nat)
    requires RecordFits(geo, n)
    ensures GroupOf(geo.inodesPerGroup, n) < geo.groupCount
    ensures InTable(geo, SlotBlock(geo, Slot(geo.inodesPerGroup, n)))
  {
    var g, i := GroupOf(geo.inodesPerGroup, n), Slot(geo.inodesPerGroup, n);
    PartsNumber(geo.inodesPerGroup, n);
    if g >= geo.groupCount {
      Times(geo.groupCount, g, geo.inodesPerGroup);
      assert false;
    }
    SlotInTable(geo, i);
  }

  /** Where slots fit, every inode can be read and written. */
  lemma {:induction false} SlotsFitAll(geo: Geometry, n: nat)
    requires SlotsFit(geo) && HasInode(geo, n)
    ensures RecordFits(geo, n)
  {
    SlotPlace(geo, Slot(geo.inodesPerGroup, n), geo.blockSize / geo.inodeSize);
    hide SlotStart;
  }

  /** The block that holds inode `n`. */
  ghost function InodeBlock(geo: Geometry, disk: Disk, roles: map<nat, Role>, n: nat): (b: nat)
    requires Layout(geo, disk, roles) && RecordFits(geo, n)
    ensures HasBytes(geo, disk, roles, b, ForTable(GroupOf(geo.inodesPerGroup, n), SlotBlock(geo, Slot(geo.inodesPerGroup, n))))
  {
    InodePlace(geo, n);
    var g := GroupOf(geo.inodesPerGroup, n);
    assert GroupLaid(geo, disk, roles, g);
    DescriptorOf(geo, disk, g).inodeTable + SlotBlock(geo, Slot(geo.inodesPerGroup, n))
  }

  /** The record of inode `n`. */
  ghost function RecordOf(geo: Geometry, disk: Disk, roles: map<nat, Role>, n: nat): Record
    requires Layout(geo, disk, roles) && RecordFits(geo, n)
  {
    InodePlace(geo, n);
    var a := SlotStart(geo, Slot(geo.inodesPerGroup, n));
    disk[InodeBlock(geo, disk, roles, n)].data[a..a + RECORD]
  }

  ghost function Written(geo: Geometry, disk: Disk, roles: map<nat, Role>, n: nat, r: Record): Disk
    requires Layout(geo, disk, roles) && RecordFits(geo, n)
  {
    InodePlace(geo, n);
    var b := InodeBlock(geo, disk, roles, n);
    disk[b := Bytes(Stored(disk[b].data, SlotStart(geo, Slot(geo.inodesPerGroup, n)), r))]
  }

  /** Replacing the bytes of a table block keeps the layout and every descriptor. */
  lemma {:induction false} TableWriteGroup(geo: Geometry, disk: Disk, roles: map<nat, Role>, g: nat, k: nat, b: nat, data: seq<bv8>, h: nat)
    requires GroupLaid(geo, disk, roles, h) && HasBytes(geo, disk, roles, b, ForTable(g, k)) && |data| == geo.blockSize
    ensures var disk' := disk[b := Bytes(data)];
      && GroupLaid(geo, disk', roles, h)
      && DescriptorOf(geo, disk', h) == DescriptorOf(geo, disk, h)
      && forall w :: Bitmap(DescriptorOf(geo, disk, h), w) in disk'
                     && disk'[Bitmap(DescriptorOf(geo, disk, h), w)] == disk[Bitmap(DescriptorOf(geo, disk, h), w)]
  {
    var disk' := disk[b := Bytes(data)];
    var d := DescriptorAt(geo, h);
    forall j: nat | InTable(geo, j) ensures HasBytes(geo, disk', roles, disk'[d].d.inodeTable + j, ForTable(h, j)) {
      assert HasBytes(geo, disk, roles, disk[d].d.inodeTable + j, ForTable(h, j));
    }
  }

  lemma {:induction false} TableWrite(geo: Geometry, disk: Disk, roles: map<nat, Role>, g: nat, k: nat, b: nat, data: seq<bv8>)
    requires Layout(geo, disk, roles) && HasBytes(geo, disk, roles, b, ForTable(g, k)) && |data| == geo.blockSize
    ensures var disk' := disk[b := Bytes(data)];
      && Layout(geo, disk', roles)
      && (forall h | 0 <= h < geo.groupCount :: GroupLaid(geo, disk, roles, h) && GroupLaid(geo, disk', roles, h)
            && DescriptorOf(geo, disk', h) == DescriptorOf(geo, disk, h))
      && forall w, t :: SpaceOf(geo, disk', roles, w, t) == SpaceOf(geo, disk, roles, w, t)
  {
    var disk' := disk[b := Bytes(data)];
    forall h | 0 <= h < geo.groupCount
      ensures GroupLaid(geo, disk, roles, h) && GroupLaid(geo, disk', roles, h)
      ensures DescriptorOf(geo, disk', h) == DescriptorOf(geo, disk, h)
      ensures forall w :: Bitmap(DescriptorOf(geo, disk, h), w) in disk'
                     && disk'[Bitmap(DescriptorOf(geo, disk, h), w)] == disk[Bitmap(DescriptorOf(geo, disk, h), w)]
    {
      assert GroupLaid(geo, disk, roles, h);
      TableWriteGroup(geo, disk, roles, g, k, b, data, h);
    }
    forall w ensures GroupsUpTo(geo, disk', roles, w, geo.groupCount) == GroupsUpTo(geo, disk, roles, w, geo.groupCount) {
    }
  }

  /** Two inodes whose records do not overlap. */
  predicate RecordsApart(geo: Geometry, n: nat, m: nat)
    requires RecordFits(geo, n) && RecordFits(geo, m)
  {
    var i, j := Slot(geo.inodesPerGroup, n), Slot(geo.inodesPerGroup, m);
    || GroupOf(geo.inodesPerGroup, n) != GroupOf(geo.inodesPerGroup, m)
    || SlotBlock(geo, i) != SlotBlock(geo, j)
    || SlotStart(geo, i) + RECORD <= SlotStart(geo, j) || SlotStart(geo, j) + RECORD <= SlotStart(geo, i)
  }

  lemma {:induction false} InodeBlocks(geo: Geometry, disk: Disk, roles: map<nat, Role>, n: nat, m: nat)
    requires Layout(geo, disk, roles) && RecordFits(geo, n) && RecordFits(geo, m)
    ensures InodeBlock(geo, disk, roles, n) == InodeBlock(geo, disk, roles, m) <==>
      && GroupOf(geo.inodesPerGroup, n) == GroupOf(geo.inodesPerGroup, m)
      && SlotBlock(geo, Slot(geo.inodesPerGroup, n)) == SlotBlock(geo, Slot(geo.inodesPerGroup, m))
  {
    var b, c := InodeBlock(geo, disk, roles, n), InodeBlock(geo, disk, roles, m);
  }

  /** A written record is read back, what does not overlap it reads as before, and no allocator notices. */
  lemma {:induction false} WriteThenRead(geo: Geometry, disk: Disk, roles: map<nat, Role>, n: nat, r: Record, m: nat)
    requires Layout(geo, disk, roles) && RecordFits(geo, n) && RecordFits(geo, m)
    ensures var disk' := Written(geo, disk, roles, n, r);
      && Layout(geo, disk', roles)
      && (m == n ==> RecordOf(geo, disk', roles, m) == r)
      && (RecordsApart(geo, n, m) ==> RecordOf(geo, disk', roles, m) == RecordOf(geo, disk, roles, m))
      && forall w, t :: SpaceOf(geo, disk', roles, w, t) == SpaceOf(geo, disk, roles, w, t)
  {
    RecordAfterWrite(geo, disk, roles, n, r, m);
    InodeBlocks(geo, disk, roles, n, m);
    var i, j := Slot(geo.inodesPerGroup, n), Slot(geo.inodesPerGroup, m);
    StoredBytes(disk[InodeBlock(geo, disk, roles, n)].data, SlotStart(geo, i), r, SlotStart(geo, j));
    hide Layout, Written, SpaceOf, Stored, SlotStart, SlotBlock;
  }

  /** The record of `m` after a write to `n`, in bytes. */
  lemma {:induction false} RecordAfterWrite(geo: Geometry, disk: Disk, roles: map<nat, Role>, n: nat, r: Record, m: nat)
    requires Layout(geo, disk, roles) && RecordFits(geo, n) && RecordFits(geo, m)
    ensures var disk' := Written(geo, disk, roles, n, r);
      var b, c := InodeBlock(geo, disk, roles, n), InodeBlock(geo, disk, roles, m);
      var a, e := SlotStart(geo, Slot(geo.inodesPerGroup, n)), SlotStart(geo, Slot(geo.inodesPerGroup, m));
      && Layout(geo, disk', roles)
      && RecordOf(geo, disk', roles, m) == (if b == c then Stored(disk[b].data, a, r)[e..e + RECORD] else RecordOf(geo, disk, roles, m))
      && forall w, t :: SpaceOf(geo, disk', roles, w, t) == SpaceOf(geo, disk, roles, w, t)
  {
    InodePlace(geo, n);
    InodePlace(geo, m);
    var per := geo.inodesPerGroup;
    var b, a, e := InodeBlock(geo, disk, roles, n), SlotStart(geo, Slot(per, n)), SlotStart(geo, Slot(per, m));
    StoredBytes(disk[b].data, a, r, e);
    TableWrite(geo, disk, roles, GroupOf(per, n), SlotBlock(geo, Slot(per, n)), b, Stored(disk[b].data, a, r));
  }

  /** Writing inode `n` leaves `m` alone, whatever is written, exactly if their records do not overlap. */
  lemma {:induction false} WriteSpares(geo: Geometry, disk: Disk, roles: map<nat, Role>, n: nat, m: nat)
    requires Layout(geo, disk, roles) && RecordFits(geo, n) && RecordFits(geo, m)
    ensures (forall r: Record :: Layout(geo, Written(geo, disk, roles, n, r), roles) &&
              RecordOf(geo, Written(geo, disk, roles, n, r), roles, m) == RecordOf(geo, disk, roles, m))
        <==> RecordsApart(geo, n, m)
  {
    if RecordsApart(geo, n, m) {
      forall r: Record
        ensures Layout(geo, Written(geo, disk, roles, n, r), roles)
        ensures RecordOf(geo, Written(geo, disk, roles, n, r), roles, m) == RecordOf(geo, disk, roles, m)
      {
        WriteThenRead(geo, disk, roles, n, r, m);
      }
    } else {
      InodeBlocks(geo, disk, roles, n, m);
      var i, j := Slot(geo.inodesPerGroup, n), Slot(geo.inodesPerGroup, m);
      var r := StoredOver(disk[InodeBlock(geo, disk, roles, n)].data, SlotStart(geo, i), SlotStart(geo, j));
      RecordAfterWrite(geo, disk, roles, n, r, m);
    }
    hide Layout, Written, SpaceOf, Stored, SlotStart, SlotBlock;
  }

  /** Where slots fit, all inodes are apart, so that the tables are a map from numbers to records. */
  lemma {:induction false} SlotsFitApart(geo: Geometry, n: nat, m: nat)
    requires SlotsFit(geo) && HasInode(geo, n) && HasInode(geo, m) && n != m
    ensures RecordFits(geo, n) && RecordFits(geo, m) && RecordsApart(geo, n, m)
  {
    var per := geo.inodesPerGroup;
    SlotsFitAll(geo, n);
    SlotsFitAll(geo, m);
    PlacesApart(per);
    if SlotBlock(geo, Slot(per, n)) == SlotBlock(geo, Slot(per, m)) && Slot(per, n) != Slot(per, m) {
      SlotsApart(geo, Slot(per, n), Slot(per, m));
    }
    hide SlotStart, SlotBlock, GroupOf, Slot;
  }

  /** Writing an inode spares the next one of the same block exactly if a slot holds a whole record. */
  lemma {:induction false} NeighbourSpared(geo: Geometry, disk: Disk, roles: map<nat, Role>, n: nat)
    requires Layout(geo, disk, roles) && RecordFits(geo, n) && RecordFits(geo, n + 1)
    requires GroupOf(geo.inodesPerGroup, n) == GroupOf(geo.inodesPerGroup, n + 1)
    requires SlotBlock(geo, Slot(geo.inodesPerGroup, n)) == SlotBlock(geo, Slot(geo.inodesPerGroup, n + 1))
    ensures (forall r: Record :: Layout(geo, Written(geo, disk, roles, n, r), roles) &&
              RecordOf(geo, Written(geo, disk, roles, n, r), roles, n + 1) == RecordOf(geo, disk, roles, n + 1))
        <==> RECORD <= geo.inodeSize
  {
    WriteSpares(geo, disk, roles, n, n + 1);
    NextSlot(geo, n);
    hide Layout, Written, RecordOf, GroupOf, Slot, SlotBlock, SlotStart;
  }

  lemma {:induction false} NextSlot(geo: Geometry, n: nat)
    requires RecordFits(geo, n) && RecordFits(geo, n + 1)
    requires GroupOf(geo.inodesPerGroup, n) == GroupOf(geo.inodesPerGroup, n + 1)
    requires SlotBlock(geo, Slot(geo.inodesPerGroup, n)) == SlotBlock(geo, Slot(geo.inodesPerGroup, n + 1))
    ensures SlotStart(geo, Slot(geo.inodesPerGroup, n + 1)) == SlotStart(geo, Slot(geo.inodesPerGroup, n)) + geo.inodeSize
  {
    var per, s, b := geo.inodesPerGroup, geo.inodeSize, geo.blockSize;
    var i := Slot(per, n);
    PartsNumber(per, n);
    PartsNumber(per, n + 1);
    assert Slot(per, n + 1) == i + 1;
    PlusOne(i, s);
    assert i * s == i * s / b * b + i * s % b;
    assert (i + 1) * s == (i + 1) * s / b * b + (i + 1) * s % b;
  }

  /** Allocators leave every inode's record alone. */
  lemma {:induction false} RecountedKeepsRecord(geo: Geometry, disk: Disk, roles: map<nat, Role>, w: Which, g: nat, bits: seq<bv8>, free: nat, n: nat)
    requires Layout(geo, disk, roles) && g < geo.groupCount && |bits| == geo.blockSize && RecordFits(geo, n)
    ensures GroupLaid(geo, disk, roles, g)
    ensures var disk' := Recounted(geo, disk, w, g, bits, free);
      Layout(geo, disk', roles) && RecordOf(geo, disk', roles, n) == RecordOf(geo, disk, roles, n)
  {
    assert GroupLaid(geo, disk, roles, g);
    RecountedSpaces(geo, disk, roles, w, g, bits, free);
    InodePlace(geo, n);
    var h, i := GroupOf(geo.inodesPerGroup, n), Slot(geo.inodesPerGroup, n);
    assert GroupLaid(geo, disk, roles, h);
    RecountedGroup(geo, disk, roles, w, g, bits, free, h);
    var b := InodeBlock(geo, disk, roles, n);
    RecountedBytes(geo, disk, roles, w, g, bits, free, b, ForTable(h, SlotBlock(geo, i)));
  }
}
