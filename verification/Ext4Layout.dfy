/**
 Where an ext4 file system keeps its group descriptors, bitmaps and inode tables, and what one write
 to them changes. A transfer moves one whole block.
 */
module Ext4Layout {
  import opened GroupBitmaps

  datatype Descriptor = Descriptor(blockBitmap: nat, inodeBitmap: nat, inodeTable: nat, freeBlocks: nat, freeInodes: nat)

  datatype Block = DescriptorBlock(d: Descriptor) | Bytes(data: seq<bv8>)

  type Disk = map<nat, Block>

  datatype Geometry = Geometry(
    blockSize: nat, blocksPerGroup: nat, inodesPerGroup: nat, groupCount: nat, firstDataBlock: nat, inodeSize: nat)

  datatype Which = OfBlocks | OfInodes

  /** What a metadata block is for. One block has one role, so metadata blocks are distinct. */
  datatype Role = ForDescriptor(g: nat) | ForBitmap(which: Which, g: nat) | ForTable(g: nat, k: nat)

  function Bitmap(d: Descriptor, w: Which): nat {
    if w == OfBlocks then d.blockBitmap else d.inodeBitmap
  }

  function Free(d: Descriptor, w: Which): nat {
    if w == OfBlocks then d.freeBlocks else d.freeInodes
  }

  function WithFree(d: Descriptor, w: Which, free: nat): Descriptor {
    if w == OfBlocks then d.(freeBlocks := free) else d.(freeInodes := free)
  }

  function DescriptorAt(geo: Geometry, g: nat): nat {
    geo.firstDataBlock + 1 + g
  }

  ghost predicate HasBytes(geo: Geometry, disk: Disk, roles: map<nat, Role>, b: nat, role: Role) {
    b in disk && disk[b].Bytes? && |disk[b].data| == geo.blockSize && b in roles && roles[b] == role
  }

  /** The blocks of an inode table. */
  ghost predicate InTable(geo: Geometry, k: nat) {
    k * geo.blockSize < geo.inodesPerGroup * geo.inodeSize
  }

  ghost predicate GroupLaid(geo: Geometry, disk: Disk, roles: map<nat, Role>, g: nat) {
    var b := DescriptorAt(geo, g);
    && b in disk && disk[b].DescriptorBlock? && b in roles && roles[b] == ForDescriptor(g)
    && HasBytes(geo, disk, roles, disk[b].d.blockBitmap, ForBitmap(OfBlocks, g))
    && HasBytes(geo, disk, roles, disk[b].d.inodeBitmap, ForBitmap(OfInodes, g))
    && forall k: nat :: InTable(geo, k) ==> HasBytes(geo, disk, roles, disk[b].d.inodeTable + k, ForTable(g, k))
  }

  ghost predicate Layout(geo: Geometry, disk: Disk, roles: map<nat, Role>) {
    && geo.blocksPerGroup <= 8 * geo.blockSize && geo.inodesPerGroup <= 8 * geo.blockSize
    && forall g :: 0 <= g < geo.groupCount ==> GroupLaid(geo, disk, roles, g)
  }

  function DescriptorOf(geo: Geometry, disk: Disk, g: nat): Descriptor
    requires DescriptorAt(geo, g) in disk && disk[DescriptorAt(geo, g)].DescriptorBlock?
  {
    disk[DescriptorAt(geo, g)].d
  }

  /** The bitmap and the free count of group `g`. */
  ghost function GroupOfDisk(geo: Geometry, disk: Disk, roles: map<nat, Role>, w: Which, g: nat): (r: Group)
    requires Layout(geo, disk, roles) && g < geo.groupCount
  {
    assert GroupLaid(geo, disk, roles, g);
    var d := DescriptorOf(geo, disk, g);
    Group(disk[Bitmap(d, w)].data, Free(d, w))
  }

  ghost function GroupsUpTo(geo: Geometry, disk: Disk, roles: map<nat, Role>, w: Which, n: nat): (r: seq<Group>)
    requires Layout(geo, disk, roles) && n <= geo.groupCount
    ensures |r| == n && forall g :: 0 <= g < n ==> r[g] == GroupOfDisk(geo, disk, roles, w, g)
  {
    if n == 0 then []
    else GroupsUpTo(geo, disk, roles, w, n - 1) + [GroupOfDisk(geo, disk, roles, w, n - 1)]
  }

  /** All groups, as the allocator of blocks or of inodes sees them. */
  ghost function SpaceOf(geo: Geometry, disk: Disk, roles: map<nat, Role>, w: Which, total: nat): Space
    requires Layout(geo, disk, roles)
  {
    Space(if w == OfBlocks then Blocks(geo.firstDataBlock) else Inodes,
          if w == OfBlocks then geo.blocksPerGroup else geo.inodesPerGroup,
          GroupsUpTo(geo, disk, roles, w, geo.groupCount), total)
  }

  // ---------- writing a bitmap and its count ----------

  function Recounted(geo: Geometry, disk: Disk, w: Which, g: nat, bits: seq<bv8>, free: nat): Disk
    requires DescriptorAt(geo, g) in disk && disk[DescriptorAt(geo, g)].DescriptorBlock?
  {
    var d := DescriptorOf(geo, disk, g);
    disk[Bitmap(d, w) := Bytes(bits)][DescriptorAt(geo, g) := DescriptorBlock(WithFree(d, w, free))]
  }

  lemma {:induction false} RecountedGroup(geo: Geometry, disk: Disk, roles: map<nat, Role>, w: Which, g: nat, bits: seq<bv8>, free: nat, h: nat)
    requires GroupLaid(geo, disk, roles, g) && GroupLaid(geo, disk, roles, h) && |bits| == geo.blockSize
    ensures var disk' := Recounted(geo, disk, w, g, bits, free);
      && GroupLaid(geo, disk', roles, h)
      && (h != g ==> DescriptorOf(geo, disk', h) == DescriptorOf(geo, disk, h))
      && DescriptorOf(geo, disk', g) == WithFree(DescriptorOf(geo, disk, g), w, free)
  {
    var disk' := Recounted(geo, disk, w, g, bits, free);
    var b := DescriptorAt(geo, h);
    forall k: nat | InTable(geo, k) ensures HasBytes(geo, disk', roles, disk'[b].d.inodeTable + k, ForTable(h, k)) {
      assert HasBytes(geo, disk, roles, disk[b].d.inodeTable + k, ForTable(h, k));
    }
  }

  lemma {:induction false} RecountedBytes(geo: Geometry, disk: Disk, roles: map<nat, Role>, w: Which, g: nat, bits: seq<bv8>, free: nat, b: nat, role: Role)
    requires GroupLaid(geo, disk, roles, g) && HasBytes(geo, disk, roles, b, role)
    ensures var disk' := Recounted(geo, disk, w, g, bits, free);
      && b in disk'
      && (role != ForBitmap(w, g) ==> disk'[b] == disk[b])
      && (b == Bitmap(DescriptorOf(geo, disk, g), w) ==> disk'[b] == Bytes(bits))
  {
  }

  /** Only the group written to, and only its bitmap and count of this kind, change. */
  lemma {:induction false} RecountedSpaces(geo: Geometry, disk: Disk, roles: map<nat, Role>, w: Which, g: nat, bits: seq<bv8>, free: nat)
    requires Layout(geo, disk, roles) && g < geo.groupCount && |bits| == geo.blockSize
    ensures GroupLaid(geo, disk, roles, g)
    ensures var disk' := Recounted(geo, disk, w, g, bits, free);
      && Layout(geo, disk', roles)
      && forall v, h :: 0 <= h < geo.groupCount ==>
        GroupOfDisk(geo, disk', roles, v, h) == if v == w && h == g then Group(bits, free) else GroupOfDisk(geo, disk, roles, v, h)
  {
    assert GroupLaid(geo, disk, roles, g);
    var disk' := Recounted(geo, disk, w, g, bits, free);
    forall h | 0 <= h < geo.groupCount ensures GroupLaid(geo, disk', roles, h) {
      assert GroupLaid(geo, disk, roles, h);
      RecountedGroup(geo, disk, roles, w, g, bits, free, h);
    }
    forall v, h | 0 <= h < geo.groupCount
      ensures GroupOfDisk(geo, disk', roles, v, h) == if v == w && h == g then Group(bits, free) else GroupOfDisk(geo, disk, roles, v, h)
    {
      assert GroupLaid(geo, disk, roles, h);
      RecountedGroup(geo, disk, roles, w, g, bits, free, h);
      var d := DescriptorOf(geo, disk, h);
      RecountedBytes(geo, disk, roles, w, g, bits, free, Bitmap(d, v), ForBitmap(v, h));
    }
  }

  /** The same in terms of the allocators' states. */
  lemma {:induction false} RecountedSpace(geo: Geometry, disk: Disk, roles: map<nat, Role>, w: Which, g: nat, bits: seq<bv8>, free: nat, total: nat)
    requires Layout(geo, disk, roles) && g < geo.groupCount && |bits| == geo.blockSize
    ensures GroupLaid(geo, disk, roles, g)
    ensures var disk' := Recounted(geo, disk, w, g, bits, free);
      && Layout(geo, disk', roles)
      && (forall v, t :: v != w ==> SpaceOf(geo, disk', roles, v, t) == SpaceOf(geo, disk, roles, v, t))
      && var sp := SpaceOf(geo, disk, roles, w, total);
      SpaceOf(geo, disk', roles, w, total) == sp.(groups := sp.groups[g := Group(bits, free)])
  {
    assert GroupLaid(geo, disk, roles, g);
    RecountedSpaces(geo, disk, roles, w, g, bits, free);
    var disk' := Recounted(geo, disk, w, g, bits, free);
    hide Recounted, Layout, GroupOfDisk;
    forall v | v != w
      ensures GroupsUpTo(geo, disk', roles, v, geo.groupCount) == GroupsUpTo(geo, disk, roles, v, geo.groupCount)
    {
    }
    assert GroupsUpTo(geo, disk', roles, w, geo.groupCount)
        == GroupsUpTo(geo, disk, roles, w, geo.groupCount)[g := Group(bits, free)];
  }
}
