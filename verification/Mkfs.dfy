/** Formatting an image and opening it (ext4/src/mkfs.rs, ext4/src/filesystem.rs, open). */
module Mkfs {
  import opened Bytes
  import opened Results
  import opened Bitmap
  import opened DirEntries
  import opened DirBlocks
  import opened Listings
  import opened Extents
  import opened ExtentTrees
  import opened Inodes
  import opened Superblocks
  import opened Catalogs
  import opened Moves
  import opened Disks
  import opened Images
  import opened Steps

  datatype Config = Config(blockSize: u32, sizeBlocks: u32, inodesPerGroup: u32, volumeLabel: seq<byte>)

  const PINNED_TIME: u32 := 0x6500_0000

  /** Layout::from_config: why a configuration is refused. */
  function LayoutFault(config: Config): Option<Error> {
    if !(config.blockSize == 1024 || config.blockSize == 2048 || config.blockSize == 4096
      || config.blockSize == 65536) then Some(InvalidLayout)
    else if config.inodesPerGroup < 11 then Some(InvalidLayout)
    else if config.sizeBlocks < MetadataBlocks(config) then Some(InvalidLayout)
    else None
  }

  function RootDirBlock(config: Config): nat
    requires config.blockSize > 0
  {
    4 + DivCeil(config.inodesPerGroup * INODE_SIZE, config.blockSize)
  }

  /** Everything up to and including the root directory's block. */
  function MetadataBlocks(config: Config): nat
    requires config.blockSize > 0
  {
    RootDirBlock(config) + 1
  }

  /** The configurations a single group of this layout can hold. */
  predicate OneGroup(config: Config) {
    && LayoutFault(config).None? && (config.blockSize == 2048 || config.blockSize == 4096)
    && config.sizeBlocks <= 8 * config.blockSize && config.inodesPerGroup <= 8 * config.blockSize
  }

  function LabelField(name: seq<byte>): (r: Id16) {
    if |name| >= 16 then name[..16] else name + Zeros(16 - |name|)
  }

  const PINNED_UUID: Id16 :=
    [0x6A, 0x75, 0x73, 0x74, 0x65, 0x78, 0x74, 0x34, 0x76, 0x30, 0xDE, 0xAD, 0xBE, 0xEF, 0xCA, 0xFE]
  const PINNED_HASH_SEED: Id16 :=
    [0xEC, 0xCA, 0xFE, 0xBA, 0xBE, 0xDE, 0xAD, 0xBE, 0xEF, 0x12, 0x34, 0x56, 0x78, 0x9A, 0xBC, 0xDE]

  function NewSuperblock(config: Config): Superblock
    requires LayoutFault(config).None?
  {
    Superblock(
      config.blockSize, config.inodesPerGroup, config.sizeBlocks, config.sizeBlocks - MetadataBlocks(config),
        config.inodesPerGroup - 10,
      INODE_SIZE, 1, 0, 0x2 +
        0x40, 0x1, PINNED_UUID, LabelField(config.volumeLabel), 0, 0, config.blockSize * 8, config.inodesPerGroup,
      0, PINNED_TIME, 0, 0xFFFF, 1, 1, 0, PINNED_TIME, 0, 0, 11, PINNED_HASH_SEED, 1)
  }

  function NewDescriptor(config: Config): GroupDescriptor
    requires LayoutFault(config).None?
  {
    GroupDescriptor(2, 3, 4, config.sizeBlocks - MetadataBlocks(config), config.inodesPerGroup - 10, 1, 0, 0)
  }

  /** The tree of a new image: a root with only its two dots. */
  function NewCatalog(config: Config): Catalog
    requires OneGroup(config)
  {
    Catalog(map[ROOT := Dir(RootDirBlock(config), NewListing(ROOT, ROOT, config.blockSize))], map[],
      map[RootDirBlock(config) := ROOT], {}, {})
  }

  /** A bitmap with the bits below `lo` and from `hi` on set. */
  predicate Padding(bits: seq<bool>, lo: nat, hi: nat) {
    forall i :: 0 <= i < |bits| ==> (bits[i] <==> i < lo || hi <= i)
  }

  // ----- what open reads -----

  function DecodeDescriptors(buf: seq<byte>, entrySize: u16, n: nat): (r: Result<seq<GroupDescriptor>>)
    requires n * entrySize <= |buf|
    ensures r.Ok? ==> |r.value| == n
  {
    if n == 0 then Ok([]) else
    var front :- DecodeDescriptors(buf, entrySize, n - 1);
    var last :- DecodeGroupDescriptor(buf[(n - 1) * entrySize..n * entrySize], entrySize);
    Ok(front + [last])
  }

  function TableOffset(sb: Superblock): nat { (sb.firstDataBlock + 1) * sb.blockSize }

  function TableBytes(sb: Superblock): nat { sb.GroupCount() * sb.DescriptorSize() }

  /** The superblock and descriptors an image holds, or why it cannot be opened. */
  function Opened(image: seq<byte>): Result<(Superblock, seq<GroupDescriptor>)> {
    if |image| < SUPERBLOCK_OFFSET + SUPERBLOCK_SIZE then Err(Io) else
    var sb :- DecodeSuperblock(image[SUPERBLOCK_OFFSET..SUPERBLOCK_OFFSET + SUPERBLOCK_SIZE]);
    if sb.blocksPerGroup == 0 || sb.inodesPerGroup == 0 then Err(InvalidLayout)
    else if |image| < TableOffset(sb) + TableBytes(sb) then Err(Io)
    else
      var gdt :- DecodeDescriptors(image[TableOffset(sb)..TableOffset(sb) + TableBytes(sb)], sb.DescriptorSize(),
        sb.GroupCount());
      Ok((sb, gdt))
  }

  /** The descriptor table of an image, written out: one entry per group, from the block after
      the first data block on, 32 bytes each or what a 64-bit superblock says. */
  ghost predicate TableHolds(image: seq<byte>, sb: Superblock, gdt: seq<GroupDescriptor>)
    requires sb.blocksPerGroup > 0
  {
    var entry := if sb.featureIncompat / 0x80 % 2 == 1 then sb.descSize else 32;
    var base := (sb.firstDataBlock + 1) * sb.blockSize;
    var groups := (sb.blocksCount + sb.blocksPerGroup - 1) / sb.blocksPerGroup;
    && |gdt| == groups % 0x1_0000_0000
    && base + |gdt| * entry <= |image|
    && forall i :: 0 <= i < |gdt| ==> EntryHolds(image, base + i * entry, entry, gdt[i])
  }

  ghost predicate EntryHolds(image: seq<byte>, at: nat, entry: u16, gd: GroupDescriptor) {
    at + entry <= |image| && DecodeGroupDescriptor(image[at..at + entry], entry) == Ok(gd)
  }

  /** Open accepts exactly the images whose superblock decodes, with both per-group counts not
      zero, and whose table lies inside and decodes; and that is what it returns. */
  lemma OpensAsWritten(image: seq<byte>, sb: Superblock, gdt: seq<GroupDescriptor>)
    ensures Opened(image) == Ok((sb, gdt)) <==>
      && |image| >= 2048 && DecodeSuperblock(image[1024..2048]) == Ok(sb)
      && sb.blocksPerGroup > 0 && sb.inodesPerGroup > 0 && TableHolds(image, sb, gdt)
  {
    hide DecodeSuperblock, DecodeGroupDescriptor, DecodeDescriptors, TableHolds;
    if |image| >= 2048 && DecodeSuperblock(image[1024..2048]) == Ok(sb) && sb.blocksPerGroup > 0
      && sb.inodesPerGroup > 0 {
      TableDecodes(image, sb, gdt);
    }
  }

  /** And why it refuses the others, in order. */
  lemma OpenRefuses(image: seq<byte>)
    ensures |image| < 2048 ==> Opened(image) == Err(Io)
    ensures |image| >= 2048 && DecodeSuperblock(image[1024..2048]).Err? ==> Opened(image) == Err(SuperblockDecode)
    ensures |image| >= 2048 && DecodeSuperblock(image[1024..2048]).Ok? ==>
      var sb := DecodeSuperblock(image[1024..2048]).value;
      if sb.blocksPerGroup == 0 || sb.inodesPerGroup == 0 then Opened(image) == Err(InvalidLayout)
      else
        var entry := if sb.featureIncompat / 0x80 % 2 == 1 then sb.descSize else 32;
        var groups := (sb.blocksCount + sb.blocksPerGroup - 1) / sb.blocksPerGroup % 0x1_0000_0000;
        if |image| < (sb.firstDataBlock + 1) * sb.blockSize + groups * entry then Opened(image) == Err(Io)
        else Opened(image).Ok? || Opened(image) == Err(GroupDescriptorDecode)
  {
    hide DecodeDescriptors;
    if |image| >= 2048 && DecodeSuperblock(image[1024..2048]).Ok? {
      var sb := DecodeSuperblock(image[1024..2048]).value;
      if sb.blocksPerGroup > 0 && sb.inodesPerGroup > 0 && |image| >= TableOffset(sb) + TableBytes(sb) {
        OneError(image[TableOffset(sb)..TableOffset(sb) + TableBytes(sb)], sb.DescriptorSize(), sb.GroupCount());
      }
    }
    hide DecodeSuperblock;
  }

  lemma {:induction false} OneError(buf: seq<byte>, entry: u16, n: nat)
    requires n * entry <= |buf|
    ensures DecodeDescriptors(buf, entry, n).Ok? || DecodeDescriptors(buf, entry, n) == Err(GroupDescriptorDecode)
  {
    if n > 0 {
      MulMono(n - 1, n, entry);
      OneError(buf, entry, n - 1);
    }
  }

  lemma TableDecodes(image: seq<byte>, sb: Superblock, gdt: seq<GroupDescriptor>)
    requires sb.blocksPerGroup > 0
    ensures TableHolds(image, sb, gdt) <==>
      && TableOffset(sb) + TableBytes(sb) <= |image|
      && DecodeDescriptors(image[TableOffset(sb)..TableOffset(sb) + TableBytes(sb)], sb.DescriptorSize(),
                           sb.GroupCount()) == Ok(gdt)
  {
    hide DecodeGroupDescriptor, DecodeDescriptors, EntryHolds;
    var entry, n, base := sb.DescriptorSize(), sb.GroupCount(), TableOffset(sb);
    if base + n * entry <= |image| {
      DescriptorsAre(image, base, entry, n, n, gdt);
    }
  }

  lemma {:induction false} DescriptorsAre(image: seq<byte>, base: nat, entry: u16, total: nat, n: nat,
                                          gdt: seq<GroupDescriptor>)
    requires base + total * entry <= |image| && n <= total && n * entry <= total * entry
    ensures DecodeDescriptors(image[base..base + total * entry], entry, n) == Ok(gdt) <==>
      |gdt| == n && forall i :: 0 <= i < n ==> EntryHolds(image, base + i * entry, entry, gdt[i])
    decreases n
  {
    hide DecodeGroupDescriptor, EntryHolds;
    if n > 0 {
      MulMono(n - 1, n, entry);
      var buf := image[base..base + total * entry];
      OneEntryAt(image, base, entry, total, n - 1);
      if |gdt| == n {
        var front, last := gdt[..n - 1], gdt[n - 1];
        DescriptorsAre(image, base, entry, total, n - 1, front);
        assert gdt == front + [last];
        assert forall i :: 0 <= i < n - 1 ==> front[i] == gdt[i];
        DecodedLast(buf, entry, n, front, last);
      }
    }
  }

  lemma DecodedLast(buf: seq<byte>, entry: u16, n: nat, front: seq<GroupDescriptor>, last: GroupDescriptor)
    requires 0 < n && n * entry <= |buf| && (n - 1) * entry <= n * entry && |front| == n - 1
    ensures DecodeDescriptors(buf, entry, n) == Ok(front + [last]) <==>
      && DecodeDescriptors(buf, entry, n - 1) == Ok(front)
      && DecodeGroupDescriptor(buf[(n - 1) * entry..n * entry], entry) == Ok(last)
  {
    hide DecodeGroupDescriptor;
    var a := DecodeDescriptors(buf, entry, n - 1);
    if a.Ok? {
      assert (a.value + [last])[..n - 1] == a.value && (front + [last])[..n - 1] == front;
    }
    var b := DecodeDescriptors(buf, entry, n);
    if b.Ok? {
      assert b.value[..n - 1] == a.value && (front + [last])[n - 1] == last;
    }
  }

  lemma OneEntryAt(image: seq<byte>, base: nat, entry: u16, total: nat, i: nat)
    requires base + total * entry <= |image| && i < total
    ensures i * entry + entry <= total * entry && (i + 1) * entry == i * entry + entry
    ensures forall gd :: EntryHolds(image, base + i * entry, entry, gd) <==>
      DecodeGroupDescriptor(image[base..base + total * entry][i * entry..(i + 1) * entry], entry) == Ok(gd)
  {
    hide DecodeGroupDescriptor;
    MulMono(i + 1, total, entry);
    var lo := i * entry;
    SliceOfSlice(image, base, base + total * entry, lo, entry);
  }

  /** Reopening an image whose stored counters are current gives back the same cache. */
  lemma ReopenSame(image: seq<byte>, sb: Superblock, gd: GroupDescriptor)
    requires Holds(image, sb, gd) && Coherent(ViewOf(image, sb, gd))
    ensures Opened(image) == Ok((sb, [gd]))
  {
    hide Holds, ViewOf, Coherent, DecodeSuperblock, DecodeGroupDescriptor, DecodeDescriptors, Geometry, TableOffset;
    hide TableBytes;
    StoredBytes(image, sb, gd);
    OneDescriptor(sb, gd);
    DescriptorTable(image[sb.blockSize..sb.blockSize + GDT_ENTRY], gd);
  }

  lemma StoredBytes(image: seq<byte>, sb: Superblock, gd: GroupDescriptor)
    requires Holds(image, sb, gd) && Coherent(ViewOf(image, sb, gd))
    ensures Geometry(sb, gd) && SUPERBLOCK_OFFSET + SUPERBLOCK_SIZE <= |image| && sb.blockSize + GDT_ENTRY <= |image|
    ensures DecodeSuperblock(image[SUPERBLOCK_OFFSET..SUPERBLOCK_OFFSET + SUPERBLOCK_SIZE]) == Ok(sb)
    ensures DecodeGroupDescriptor(image[sb.blockSize..sb.blockSize + GDT_ENTRY], GDT_ENTRY_SIZE_32) == Ok(gd)
  {
    hide Block, InodesOf, DataOf, Bits, DecodeSuperblock, DecodeGroupDescriptor, FirstData;
    Regions(image, sb, gd);
  }

  lemma DescriptorTable(buf: seq<byte>, gd: GroupDescriptor)
    requires |buf| == GDT_ENTRY && DecodeGroupDescriptor(buf, GDT_ENTRY_SIZE_32) == Ok(gd)
    ensures DecodeDescriptors(buf, GDT_ENTRY_SIZE_32, 1) == Ok([gd])
  {
    hide DecodeGroupDescriptor;
    assert buf[0 * GDT_ENTRY..1 * GDT_ENTRY] == buf;
    assert DecodeDescriptors(buf, GDT_ENTRY_SIZE_32, 0) == Ok([]);
    assert [] + [gd] == [gd];
  }

  lemma OneDescriptor(sb: Superblock, gd: GroupDescriptor)
    requires Geometry(sb, gd)
    ensures sb.GroupCount() == 1 && sb.DescriptorSize() == GDT_ENTRY_SIZE_32 && sb.blocksPerGroup > 0
    ensures sb.inodesPerGroup > 0
    ensures TableOffset(sb) == sb.blockSize && TableBytes(sb) == GDT_ENTRY
  {
    CeilOne(sb.blocksCount, sb.blocksPerGroup);
    hide FirstData;
  }

  lemma CeilOne(a: nat, b: nat)
    requires 0 < a <= b
    ensures DivCeil(a, b) == 1
  {
    assert 1 * b <= a + b - 1 < 2 * b;
  }

  // ----- the writer -----

  /** `s`, at least `n` long. */
  function Extend(s: seq<byte>, n: nat): (r: seq<byte>)
    ensures |r| == if |s| >= n then |s| else n
  {
    if |s| >= n then s else s + Zeros(n - |s|)
  }

  /** Seeking past the end and writing fills the gap with zeros. */
  function SeekWrite(s: seq<byte>, off: nat, bs: seq<byte>): seq<byte> {
    Put(Extend(s, off + |bs|), off, bs)
  }

  /** Seen at its final length, each write is one overwrite of an image of zeros. */
  lemma SeekWriteFull(s: seq<byte>, off: nat, bs: seq<byte>, total: nat)
    requires |s| <= total && off + |bs| <= total
    ensures |SeekWrite(s, off, bs)| <= total && Extend(SeekWrite(s, off, bs), total) == Put(Extend(s, total), off, bs)
  {
  }

  // ----- the new image -----

  lemma ZeroBits(n: nat)
    ensures forall i :: 0 <= i < 8 * n ==> !Bits(Zeros(n))[i]
  {
    forall i | 0 <= i < 8 * n ensures !Bits(Zeros(n))[i] {
      ZeroBit(i % 8);
    }
  }

  lemma {:induction false} ZeroBit(i: nat)
    ensures !BitOf(0, i)
  {
    if i > 0 {
      ZeroBit(i - 1);
    }
  }

  /** A bitmap block with both ends marked used. */
  method PaddedBitmap(size: nat, lo: nat, hi: nat) returns (bs: seq<byte>)
    requires lo <= hi <= 8 * size
    ensures |bs| == size && Padding(Bits(bs), lo, hi)
  {
    hide Bits, Fill;
    var buf := new byte[size];
    FillZero(buf, 0, size);
    assert buf[..] == Zeros(size);
    ZeroBits(size);
    SetRun(buf, 0, lo, true);
    SetRun(buf, hi, 8 * size - hi, true);
    bs := buf[..];
  }

  /** The free bits of such a bitmap, counted. */
  lemma PaddingFree(bits: seq<bool>, lo: nat, hi: nat)
    requires Padding(bits, lo, hi) && lo <= hi <= |bits|
    ensures |FreeSet(bits, hi)| == hi - lo
  {
    hide RunBlocks;
    assert FreeSet(bits, hi) == RunBlocks(lo, hi - lo);
    RunSize(lo, hi - lo);
  }

  function RootInode(config: Config): Inode
    requires OneGroup(config)
  {
    RootBlockFits(config);
    NewInode(DIR_MODE, config.blockSize, 2, config.blockSize / 512, FLAG_EXTENTS, RunLeaf(RootDirBlock(config), 1))
  }

  lemma RootBlockFits(config: Config)
    requires OneGroup(config)
    ensures RootDirBlock(config) < config.sizeBlocks <= 0x8000
  {
  }

  /** The view of a freshly written image. */
  ghost predicate Formatted(d: Disk, config: Config)
    requires OneGroup(config)
  {
    && d.sb == NewSuperblock(config) && d.gd == NewDescriptor(config) && Sized(d)
    && Padding(d.blockBits, MetadataBlocks(config), config.sizeBlocks)
    && Padding(d.inodeBits, RESERVED, config.inodesPerGroup)
    && d.inodes[1] == RootInode(config)
    && (forall i :: RESERVED <= i < |d.inodes| ==> d.inodes[i].linksCount == 0)
    && AllEncodable(NewListing(ROOT, ROOT, config.blockSize))
    && RootDirBlock(config) < |d.data| && d.data[RootDirBlock(config)] == Pack(NewListing(ROOT, ROOT, config.blockSize))
  }

  lemma NewGeometry(config: Config)
    requires OneGroup(config)
    ensures Geometry(NewSuperblock(config), NewDescriptor(config))
    ensures FirstData(NewSuperblock(config)) == RootDirBlock(config)
  {
  }

  lemma NewCatalogOk(config: Config)
    requires OneGroup(config)
    ensures CatalogOk(config.blockSize, NewCatalog(config)) && Acyclic(NewCatalog(config).up)
  {
    var size := config.blockSize;
    NewListingOk(ROOT, ROOT, size);
    var es := NewListing(ROOT, ROOT, size);
    hide NewListing, ListingOk, Tiles;
    assert Parent(es) == ROOT by { NewParent(ROOT, ROOT, size); }
    var c := NewCatalog(config);
    hide Parent, LookupName, Ordinary, FileTypeOf;
    assert |es| == 2 by { NewParent(ROOT, ROOT, size); }
    forall p, n ensures Listed(c.nodes, c.up, p, n) {
      if IsDir(c.nodes, p) && Ordinary(n) {
        EmptyListing(ROOT, es, n);
      }
    }
    ListedDown(c.nodes, c.up);
  }

  lemma NewParent(k: u32, parent: u32, size: nat)
    requires 24 <= size < 0x1_0000 && size % 4 == 0
    ensures |NewListing(k, parent, size)| == 2 && Parent(NewListing(k, parent, size)) == parent
  {
  }

  /** A formatted image holds the tree of one empty root, its counters exact. */
  lemma FormattedCore(d: Disk, config: Config)
    requires OneGroup(config) && Formatted(d, config)
    ensures Core(d, NewCatalog(config))
  {
    hide CatalogOk, Padding, Geometry, NewListing, AllEncodable, Pack, TreeOnDisk, BitmapsOk, Formatted, NewCatalog;
    hide Sized, FirstData, RootDirBlock;
    NewGeometry(config);
    NewCatalogOk(config);
    FormattedTree(d, config);
    FormattedBits(d, config);
    FormattedParts(d, config);
    CoreIntro(d, NewCatalog(config), config.blockSize);
  }

  lemma FormattedParts(d: Disk, config: Config)
    requires OneGroup(config) && Formatted(d, config)
    ensures d.sb == NewSuperblock(config) && d.gd == NewDescriptor(config) && Sized(d)
    ensures d.sb.blockSize == config.blockSize > 0
  {
    hide Padding, AllEncodable, Pack, Sized;
  }

  lemma FormattedTree(d: Disk, config: Config)
    requires OneGroup(config) && Formatted(d, config)
    ensures TreeOnDisk(d, NewCatalog(config))
  {
    hide Padding, AllEncodable, Pack, NewListing, NewInode, RunLeaf;
    var c := NewCatalog(config);
    var es := NewListing(ROOT, ROOT, config.blockSize);
    RootBlockFits(config);
    NewDirOnDisk(config.blockSize, RootDirBlock(config), es, d.data, d.inodes[1]);
    NewDirLinks(d.inodes[1], config.blockSize, RunLeaf(RootDirBlock(config), 1));
    hide NodeOnDisk;
    assert Subdirs(c.nodes, c.up, ROOT) == {};
    assert DirSet(c.nodes) == {ROOT};
  }

  lemma FormattedBits(d: Disk, config: Config)
    requires OneGroup(config) && Formatted(d, config)
    ensures d.sb.blockSize > 0 && BitmapsOk(d, NewCatalog(config))
  {
    hide AllEncodable, Pack, NewListing, FreeSet;
    RootBlockFits(config);
    NewGeometry(config);
    PaddingFree(d.blockBits, MetadataBlocks(config), config.sizeBlocks);
    PaddingFree(d.inodeBits, RESERVED, config.inodesPerGroup);
  }

  /** A blank image of the final length. */
  lemma BlankImage(config: Config)
    requires OneGroup(config)
    ensures Holds(Zeros(config.sizeBlocks * config.blockSize), NewSuperblock(config), NewDescriptor(config))
    ensures var d := ViewOf(Zeros(config.sizeBlocks * config.blockSize), NewSuperblock(config), NewDescriptor(config));
      && d.sb == NewSuperblock(config) && d.gd == NewDescriptor(config) && Sized(d)
      && forall i :: 0 <= i < |d.inodes| ==> d.inodes[i].linksCount == 0
  {
    NewGeometry(config);
    var z, sb, gd := Zeros(config.sizeBlocks * config.blockSize), NewSuperblock(config), NewDescriptor(config);
    hide Geometry;
    ViewSized(z, sb, gd);
    hide Sized, FirstData, Fields, Bits, DataOf, DecodeSuperblock, DecodeGroupDescriptor, NewSuperblock, NewDescriptor;
    var d := ViewOf(z, sb, gd);
    forall i | 0 <= i < |d.inodes| ensures d.inodes[i].linksCount == 0 {
      InodeRecord(z, sb, gd, i + 1);
      BlankRecord(z, InodeOffset(sb.blockSize, i));
    }
  }

  lemma BlankRecord(z: seq<byte>, off: nat)
    requires off + INODE_SIZE <= |z| && forall i :: 0 <= i < |z| ==> z[i] == 0
    ensures Fields(z[off..off + INODE_SIZE]).linksCount == 0
  {
  }

  /** What open then finds: the configured counters, and a tree of one empty root. */
  ghost predicate NewImage(image: seq<byte>, config: Config)
    requires OneGroup(config)
  {
    && Holds(image, NewSuperblock(config), NewDescriptor(config))
    && var d := ViewOf(image, NewSuperblock(config), NewDescriptor(config));
       && Core(d, NewCatalog(config)) && Coherent(d) && FreshHeaders(d.sb, d.gd, config)
       && |d.inodes| >= 2 && FreshRecord(d.inodes[1], 0x41ED, 2, config.blockSize, config.blockSize / 512, 0x8_0000)
  }

  /** The superblock and descriptor of a new image, field by field. */
  predicate FreshHeaders(sb: Superblock, gd: GroupDescriptor, config: Config)
    requires config.blockSize > 0
  {
    var used := 5 + DivCeil(config.inodesPerGroup * 256, config.blockSize);
    && sb.blockSize == config.blockSize && sb.firstDataBlock == 0 && sb.blocksPerGroup == 8 * config.blockSize
    && sb.inodesCount == config.inodesPerGroup && sb.inodesPerGroup == config.inodesPerGroup
    && sb.blocksCount == config.sizeBlocks && sb.freeBlocksCount == config.sizeBlocks - used
    && sb.freeInodesCount == config.inodesPerGroup - 10 && sb.firstIno == 11 && sb.inodeSize == 256
    && sb.revLevel == 1 && sb.minorRevLevel == 0 && sb.descSize == 0
    && sb.featureCompat == 0 && sb.featureIncompat == 0x42 && sb.featureRoCompat == 1
    && sb.state == 1 && sb.errors == 1 && sb.creatorOs == 0 && sb.defHashVersion == 1
    && sb.mountCount == 0 && sb.maxMountCount == 0xFFFF && sb.checkInterval == 0
    && sb.mtime == 0 && sb.wtime == 0x6500_0000 && sb.lastCheck == 0x6500_0000
    && sb.uuid == [0x6A, 0x75, 0x73, 0x74, 0x65, 0x78, 0x74, 0x34, 0x76, 0x30, 0xDE, 0xAD, 0xBE, 0xEF, 0xCA, 0xFE]
    && sb.hashSeed == [0xEC, 0xCA, 0xFE, 0xBA, 0xBE, 0xDE, 0xAD, 0xBE, 0xEF, 0x12, 0x34, 0x56, 0x78, 0x9A, 0xBC, 0xDE]
    && (forall j :: 0 <= j < 16 ==> sb.volumeName[j] == if j < |config.volumeLabel| then config.volumeLabel[j] else 0)
    && gd == GroupDescriptor(2, 3, 4, config.sizeBlocks - used, config.inodesPerGroup - 10, 1, 0, 0)
  }

  lemma NewHeaders(config: Config)
    requires OneGroup(config)
    ensures FreshHeaders(NewSuperblock(config), NewDescriptor(config), config)
  {
  }

  lemma RootRecord(d: Disk, config: Config)
    requires OneGroup(config) && Formatted(d, config)
    ensures d.sb == NewSuperblock(config) && d.gd == NewDescriptor(config) && |d.inodes| >= 2
    ensures FreshRecord(d.inodes[1], 0x41ED, 2, config.blockSize, config.blockSize / 512, 0x8_0000)
  {
    hide NewDescriptor, Padding, Pack, NewListing, AllEncodable, RunLeaf;
  }

  /** One region written, as bytes and as the view. */
  ghost predicate Progress(image: seq<byte>, full: seq<byte>, config: Config, d: Disk)
    requires OneGroup(config)
  {
    && |image| <= |full| && full == Extend(image, |full|) && |full| > 0 && full[|full| - 1] == 0
    && Holds(full, NewSuperblock(config), NewDescriptor(config))
    && ViewOf(full, NewSuperblock(config), NewDescriptor(config)) == d
  }

  lemma Advance(image: seq<byte>, full: seq<byte>, config: Config, d: Disk, off: nat, bs: seq<byte>, d': Disk)
    requires OneGroup(config) && Progress(image, full, config, d) && off + |bs| <= |full| && |bs| > 0
    requires off + |bs| < |full| || bs[|bs| - 1] == 0
    requires Holds(full, NewSuperblock(config), NewDescriptor(config)) && |Put(full, off, bs)| == |full|
    requires Holds(Put(full, off, bs), NewSuperblock(config), NewDescriptor(config)) ==>
      ViewOf(Put(full, off, bs), NewSuperblock(config), NewDescriptor(config)) == d'
    ensures Progress(SeekWrite(image, off, bs), Put(full, off, bs), config, d')
  {
    hide ViewOf, SeekWrite, Extend, Holds;
    SeekWriteFull(image, off, bs, |full|);
    LastByte(full, off, bs);
    hide Put;
    HoldsAfter(full, Put(full, off, bs), NewSuperblock(config), NewDescriptor(config));
  }

  lemma LastByte(s: seq<byte>, off: nat, bs: seq<byte>)
    requires off + |bs| <= |s| && |bs| > 0 && (off + |bs| < |s| || bs[|bs| - 1] == 0) && s[|s| - 1] == 0
    ensures Put(s, off, bs)[|s| - 1] == 0
  {
  }

  /** Superblock and descriptor. */
  method WriteHeaders(config: Config) returns (r: Result<Unit>, image: seq<byte>, ghost full: seq<byte>, ghost d: Disk)
    requires OneGroup(config)
    ensures r == Ok(Unit.Unit) && Progress(image, full, config, d)
    ensures d.sb == NewSuperblock(config) && d.gd == NewDescriptor(config) && Sized(d) && Coherent(d)
    ensures forall i :: 0 <= i < |d.inodes| ==> d.inodes[i].linksCount == 0
  {
    hide ViewOf, Holds, Put, Extend, SeekWrite, Sized, NewSuperblock, NewDescriptor, SuperblockBytes;
    hide GroupDescriptorBytes, DecodeSuperblock, DecodeGroupDescriptor, Geometry, Progress;
    BlankImage(config);
    HeadersFaithful(config);
    var sb, gd := NewSuperblock(config), NewDescriptor(config);
    image, full := [], Zeros(config.sizeBlocks * config.blockSize);
    d := ViewOf(full, sb, gd);
    BlankProgress(config);
    ProgressHolds(image, full, config, d);
    var sbBuf := new byte[SUPERBLOCK_SIZE];
    var sbDone :- EncodeSuperblockInto(sb, sbBuf);
    SuperblockRoundTrip(sb);
    WriteSuperblock(full, sb, gd, sbBuf[..]);
    Advance(image, full, config, d, SUPERBLOCK_OFFSET, sbBuf[..], d.(storedSb := Ok(sb)));
    image, full, d := SeekWrite(image, SUPERBLOCK_OFFSET, sbBuf[..]), Put(full, SUPERBLOCK_OFFSET, sbBuf[..]),
      d.(storedSb := Ok(sb));
    var gdBuf := new byte[32];
    var gdDone :- EncodeGroupDescriptorInto(gd, gdBuf, GDT_ENTRY_SIZE_32);
    GroupDescriptorRoundTrip(gd, GDT_ENTRY_SIZE_32);
    ProgressHolds(image, full, config, d);
    WriteGroupDescriptor(full, sb, gd, gdBuf[..]);
    Advance(image, full, config, d, config.blockSize, gdBuf[..], d.(storedGd := Ok(gd)));
    image, full, d := SeekWrite(image, config.blockSize, gdBuf[..]), Put(full, config.blockSize, gdBuf[..]),
      d.(storedGd := Ok(gd));
    ProgressHolds(image, full, config, d);
    ViewSized(full, sb, gd);
    return Ok(Unit.Unit), image, full, d;
  }

  lemma HeadersFaithful(config: Config)
    requires OneGroup(config)
    ensures var sb, gd := NewSuperblock(config), NewDescriptor(config);
      && sb.blockSize == config.blockSize && LogOfBlockSize(sb.blockSize).Some? && Faithful(sb)
      && sb.inodesCount == config.inodesPerGroup
      && gd.blockBitmap < 0x1_0000_0000 && gd.inodeBitmap < 0x1_0000_0000 && gd.inodeTable < 0x1_0000_0000
      && gd.freeBlocksCount < 0x1_0000 && gd.freeInodesCount < 0x1_0000 && gd.usedDirsCount < 0x1_0000
  {
    RootBlockFits(config);
  }

  lemma BlankProgress(config: Config)
    requires OneGroup(config)
    ensures var z := Zeros(config.sizeBlocks * config.blockSize);
      && Holds(z, NewSuperblock(config), NewDescriptor(config))
      && Progress([], z, config, ViewOf(z, NewSuperblock(config), NewDescriptor(config)))
  {
    BlankImage(config);
    LengthRoom(config);
    hide ViewOf, Holds, NewSuperblock, NewDescriptor, Sized;
    var z := Zeros(config.sizeBlocks * config.blockSize);
    assert Extend([], |z|) == z;
  }

  lemma ProgressHolds(image: seq<byte>, full: seq<byte>, config: Config, d: Disk)
    requires OneGroup(config) && Progress(image, full, config, d)
    ensures Holds(full, NewSuperblock(config), NewDescriptor(config))
    ensures ViewOf(full, NewSuperblock(config), NewDescriptor(config)) == d
    ensures |full| == config.sizeBlocks * config.blockSize && d.sb == NewSuperblock(config)
    ensures SUPERBLOCK_OFFSET + SUPERBLOCK_SIZE < |full| && config.blockSize + 32 < |full|
    ensures |d.inodes| == config.inodesPerGroup && |d.data| == config.sizeBlocks
  {
    LengthRoom(config);
  }

  /** The image is longer than its metadata. */
  lemma LengthRoom(config: Config)
    requires OneGroup(config)
    ensures 4 * config.blockSize + config.blockSize <= config.sizeBlocks * config.blockSize
    ensures RootDirBlock(config) * config.blockSize + config.blockSize <= config.sizeBlocks * config.blockSize
    ensures InodeOffset(config.blockSize, 2) <= RootDirBlock(config) * config.blockSize
  {
    RootBlockFits(config);
    MulMono(5, config.sizeBlocks, config.blockSize);
    MulMono(RootDirBlock(config) + 1, config.sizeBlocks, config.blockSize);
    MulMono(5, RootDirBlock(config), config.blockSize);
  }

  /** The root's record and its block. */
  method WriteRoot(config: Config, was: seq<byte>, ghost fullWas: seq<byte>, ghost dWas: Disk)
    returns (r: Result<Unit>, image: seq<byte>, ghost full: seq<byte>, ghost d: Disk)
    requires OneGroup(config) && Progress(was, fullWas, config, dWas) && |dWas.inodes| >= 2
    requires RootDirBlock(config) < |dWas.data|
    ensures r == Ok(Unit.Unit) && Progress(image, full, config, d)
    ensures AllEncodable(NewListing(ROOT, ROOT, config.blockSize))
    ensures d ==
      PutBlock(PutInode(dWas, 2, RootInode(config)), RootDirBlock(config),
        Pack(NewListing(ROOT, ROOT, config.blockSize)))
  {
    hide ViewOf, Holds, Put, Extend, SeekWrite, NewSuperblock, NewDescriptor, Geometry, Progress, Inodes.Encoded;
    hide Fields, LeafBlock, Pack, NewListing, Concat;
    var sb, gd := NewSuperblock(config), NewDescriptor(config);
    image, full, d := was, fullWas, dWas;
    ProgressHolds(image, full, config, d);
    LengthRoom(config);
    HeadersFaithful(config);
    RootBlockFits(config);
    var blockBytes :- BuildLeafBlock([Extent(0, 1, RootDirBlock(config), false)]);
    var root := NewInode(DIR_MODE, config.blockSize, 2, config.blockSize / 512, FLAG_EXTENTS, blockBytes);
    var inodeBuf := new byte[INODE_SIZE];
    var encoded :- Inodes.EncodeInto(root, inodeBuf, INODE_SIZE);
    InodeRoundTrip(root, INODE_SIZE);
    WriteInodeRecord(full, sb, gd, 2, inodeBuf[..]);
    Advance(image, full, config, d, InodeOffset(config.blockSize, 1), inodeBuf[..], PutInode(d, 2, root));
    image := SeekWrite(image, InodeOffset(config.blockSize, 1), inodeBuf[..]);
    full := Put(full, InodeOffset(config.blockSize, 1), inodeBuf[..]);
    d := PutInode(d, 2, root);
    var bytes :- NewDirBlock(ROOT, ROOT, config.blockSize);
    r, image, full, d := WriteRootBlock(config, image, bytes, full, d);
  }

  method WriteRootBlock(config: Config, was: seq<byte>, bytes: seq<byte>, ghost fullWas: seq<byte>, ghost dWas: Disk)
    returns (r: Result<Unit>, image: seq<byte>, ghost full: seq<byte>, ghost d: Disk)
    requires OneGroup(config) && Progress(was, fullWas, config, dWas) && RootDirBlock(config) < |dWas.data|
    requires AllEncodable(NewListing(ROOT, ROOT, config.blockSize))
    requires bytes == Pack(NewListing(ROOT, ROOT, config.blockSize))
    ensures r == Ok(Unit.Unit) && Progress(image, full, config, d) && d == PutBlock(dWas, RootDirBlock(config), bytes)
  {
    hide ViewOf, Holds, Put, Extend, SeekWrite, NewSuperblock, NewDescriptor, Progress, Pack, NewListing, Concat;
    hide FirstData;
    var sb, gd := NewSuperblock(config), NewDescriptor(config);
    ProgressHolds(was, fullWas, config, dWas);
    LengthRoom(config);
    NewGeometry(config);
    hide Geometry;
    HeadersFaithful(config);
    NewBlockEnd(config);
    ConcatOne(bytes);
    WriteData(fullWas, sb, gd, RootDirBlock(config), [bytes]);
    PutOne(dWas, RootDirBlock(config), bytes);
    Advance(was, fullWas, config, dWas, RootDirBlock(config) * config.blockSize, bytes,
      PutBlock(dWas, RootDirBlock(config), bytes));
    image := SeekWrite(was, RootDirBlock(config) * config.blockSize, bytes);
    full := Put(fullWas, RootDirBlock(config) * config.blockSize, bytes);
    d := PutBlock(dWas, RootDirBlock(config), bytes);
    return Ok(Unit.Unit), image, full, d;
  }

  /** A new directory's block ends in zeros. */
  lemma NewBlockEnd(config: Config)
    requires OneGroup(config)
    ensures AllEncodable(NewListing(ROOT, ROOT, config.blockSize))
    ensures var bs := Pack(NewListing(ROOT, ROOT, config.blockSize)); |bs| == config.blockSize > 0 && bs[|bs| - 1] == 0
  {
    var es := NewListing(ROOT, ROOT, config.blockSize);
    NewListingOk(ROOT, ROOT, config.blockSize);
    hide Pack;
    assert Encodable(es[1]);
    EncodedFields(es[1]);
    var e := DirEntries.Encoded(es[1]);
    hide DirEntries.Encoded;
    assert e[10..][|e| - 11] == 0;
  }

  /** Both bitmaps: used at the front, padding past the end. */
  method WriteBitmaps(config: Config, was: seq<byte>, ghost fullWas: seq<byte>, ghost dWas: Disk)
    returns (image: seq<byte>, ghost full: seq<byte>, ghost d: Disk)
    requires OneGroup(config) && Progress(was, fullWas, config, dWas)
    ensures Progress(image, full, config, d) && d == dWas.(blockBits := d.blockBits, inodeBits := d.inodeBits)
    ensures Padding(d.blockBits, MetadataBlocks(config), config.sizeBlocks)
    ensures Padding(d.inodeBits, RESERVED, config.inodesPerGroup)
  {
    hide ViewOf, Holds, Put, Extend, SeekWrite, NewSuperblock, NewDescriptor, Progress, Padding, Bits;
    var sb, gd := NewSuperblock(config), NewDescriptor(config);
    image, full, d := was, fullWas, dWas;
    ProgressHolds(image, full, config, d);
    LengthRoom(config);
    HeadersFaithful(config);
    var blockBitmap := PaddedBitmap(config.blockSize, MetadataBlocks(config), config.sizeBlocks);
    WriteBitmap(full, sb, gd, 2, blockBitmap);
    Advance(image, full, config, d, 2 * config.blockSize, blockBitmap, d.(blockBits := Bits(blockBitmap)));
    image, full, d := SeekWrite(image, 2 * config.blockSize, blockBitmap),
      Put(full, 2 * config.blockSize, blockBitmap), d.(blockBits := Bits(blockBitmap));
    ProgressHolds(image, full, config, d);
    var inodeBitmap := PaddedBitmap(config.blockSize, RESERVED, config.inodesPerGroup);
    WriteBitmap(full, sb, gd, 3, inodeBitmap);
    Advance(image, full, config, d, 3 * config.blockSize, inodeBitmap, d.(inodeBits := Bits(inodeBitmap)));
    image, full, d := SeekWrite(image, 3 * config.blockSize, inodeBitmap),
      Put(full, 3 * config.blockSize, inodeBitmap), d.(inodeBits := Bits(inodeBitmap));
  }

  /** format, into an empty writer. */
  method Format(config: Config) returns (r: Result<Unit>, image: seq<byte>)
    requires LayoutFault(config).None? ==> OneGroup(config)
    ensures r == match LayoutFault(config) case Some(e) => Err(e) case None => Ok(Unit.Unit)
    ensures r.Ok? ==> NewImage(image, config)
  {
    hide ViewOf, Holds, Put, Extend, SeekWrite, NewSuperblock, NewDescriptor, Progress, Padding, Bits, Sized, Pack;
    hide NewListing, RootInode, AllEncodable, NewImage, Formatted;
    image := [];
    var fault := LayoutFault(config);
    if fault.Some? {
      r := Err(fault.value);
      return;
    }
    ghost var full, d;
    r, image, full, d := WriteHeaders(config);
    ProgressHolds(image, full, config, d);
    RootBlockFits(config);
    r, image, full, d := WriteRoot(config, image, full, d);
    image, full, d := WriteBitmaps(config, image, full, d);
    ProgressHolds(image, full, config, d);
    ViewSized(full, NewSuperblock(config), NewDescriptor(config));
    FormattedIntro(d, config);
    FinishImage(image, full, config, d);
    image := SeekWrite(image, config.sizeBlocks * config.blockSize - 1, [0]);
    return Ok(Unit.Unit), image;
  }

  /** Writing one zero at the very end brings the image to its length and changes nothing else. */
  lemma FinishImage(image: seq<byte>, full: seq<byte>, config: Config, d: Disk)
    requires OneGroup(config) && Progress(image, full, config, d) && Coherent(d) && Formatted(d, config)
    ensures config.sizeBlocks * config.blockSize > 0
    ensures NewImage(SeekWrite(image, config.sizeBlocks * config.blockSize - 1, [0]), config)
  {
    hide ViewOf, Holds, NewSuperblock, NewDescriptor, Coherent, Core, NewCatalog, Formatted, Extend, SeekWrite;
    hide FreshHeaders, FreshRecord;
    ProgressHolds(image, full, config, d);
    FullLength(image, full);
    FormattedCore(d, config);
    NewHeaders(config);
    RootRecord(d, config);
  }

  lemma FullLength(image: seq<byte>, full: seq<byte>)
    requires |image| <= |full| && full == Extend(image, |full|) && |full| > 0 && full[|full| - 1] == 0
    ensures SeekWrite(image, |full| - 1, [0]) == full
  {
  }

  lemma FormattedIntro(d: Disk, config: Config)
    requires OneGroup(config) && d.sb == NewSuperblock(config) && d.gd == NewDescriptor(config) && Sized(d)
    requires Padding(d.blockBits, MetadataBlocks(config), config.sizeBlocks)
    requires Padding(d.inodeBits, RESERVED, config.inodesPerGroup)
    requires AllEncodable(NewListing(ROOT, ROOT, config.blockSize)) && |d.inodes| >= 2
    requires d.inodes[1] == RootInode(config)
    requires forall i :: RESERVED <= i < |d.inodes| ==> d.inodes[i].linksCount == 0
    requires RootDirBlock(config) < |d.data|
    requires d.data[RootDirBlock(config)] == Pack(NewListing(ROOT, ROOT, config.blockSize))
    ensures Formatted(d, config)
  {
    hide NewSuperblock, NewDescriptor, Padding, Pack, NewListing, RootInode, AllEncodable, Sized;
  }

  /** At 1024 bytes a block the descriptor is written over the start of the superblock:
      what is then decoded is not what was encoded. */
  lemma SmallBlocksClash(sb: Superblock, gd: GroupDescriptor)
    requires sb.blockSize == 1024 && sb.inodesCount >= 11 && gd.blockBitmap == 2
    ensures SUPERBLOCK_OFFSET == sb.blockSize
    ensures DecodeSuperblock(Put(SuperblockBytes(sb), 0, GroupDescriptorBytes(gd, GDT_ENTRY_SIZE_32))) != Ok(sb)
  {
    hide Put, SuperblockBytes, GroupDescriptorBytes;
    var bytes := GroupDescriptorBytes(gd, GDT_ENTRY_SIZE_32);
    var disk := Put(SuperblockBytes(sb), 0, bytes);
    FirstField(gd);
    PutSlice(SuperblockBytes(sb), 0, bytes, 0, |bytes|);
    FieldAt(disk, 0, bytes, 0);
    hide U32, U16;
    assert U32(disk, 0) == 2;
  }

  lemma FirstField(gd: GroupDescriptor)
    requires gd.blockBitmap < 0x1_0000_0000
    ensures U32(GroupDescriptorBytes(gd, GDT_ENTRY_SIZE_32), 0) == gd.blockBitmap
  {
    hide GroupLow, U32;
    ReadGroupLow(gd, Zeros(32));
  }

  /** The two header writes of format, into an empty writer. */
  function Headers(config: Config): seq<byte>
    requires LayoutFault(config).None?
  {
    SeekWrite(SeekWrite([], SUPERBLOCK_OFFSET, SuperblockBytes(NewSuperblock(config))), config.blockSize,
              GroupDescriptorBytes(NewDescriptor(config), GDT_ENTRY_SIZE_32))
  }

  /** Both decode back to what was written. */
  predicate HeadersDecode(config: Config)
    requires LayoutFault(config).None?
  {
    var image := Headers(config);
    && SUPERBLOCK_OFFSET + SUPERBLOCK_SIZE <= |image| && config.blockSize + GDT_ENTRY <= |image|
    && DecodeSuperblock(image[SUPERBLOCK_OFFSET..SUPERBLOCK_OFFSET + SUPERBLOCK_SIZE]) == Ok(NewSuperblock(config))
    && DecodeGroupDescriptor(image[config.blockSize..config.blockSize + GDT_ENTRY], GDT_ENTRY_SIZE_32) ==
      Ok(NewDescriptor(config))
  }

  /** For every configuration the layout accepts, that is so exactly when blocks are not of 1024
      bytes and the free counts fit 16 bits. */
  lemma HeadersSurvive(config: Config)
    requires LayoutFault(config).None?
    ensures HeadersDecode(config) <==>
      config.blockSize != 1024 && config.sizeBlocks - MetadataBlocks(config) < 0x1_0000
        && config.inodesPerGroup - 10 < 0x1_0000
  {
    hide SuperblockBytes, GroupDescriptorBytes, DecodeSuperblock, DecodeGroupDescriptor, SeekWrite;
    var sb, gd := NewSuperblock(config), NewDescriptor(config);
    var sbBytes, gdBytes := SuperblockBytes(sb), GroupDescriptorBytes(gd, GDT_ENTRY_SIZE_32);
    HeaderFields(config);
    HeaderRegions(sbBytes, gdBytes, config.blockSize);
    if config.blockSize == 1024 {
      SmallBlocksClash(sb, gd);
    } else {
      SuperblockRoundTrip(sb);
      GroupDescriptorRoundTrip(gd, GDT_ENTRY_SIZE_32);
    }
  }

  lemma HeaderFields(config: Config)
    requires LayoutFault(config).None?
    ensures var sb, gd := NewSuperblock(config), NewDescriptor(config);
      && sb.blockSize == config.blockSize && LogOfBlockSize(sb.blockSize).Some? && Faithful(sb)
      && sb.inodesCount == config.inodesPerGroup >= 11
      && gd.blockBitmap == 2 && gd.inodeBitmap == 3 && gd.inodeTable == 4 && gd.usedDirsCount == 1
      && gd.freeBlocksCount == config.sizeBlocks - MetadataBlocks(config)
      && gd.freeInodesCount == config.inodesPerGroup - 10
  {
  }

  /** Where the two land: apart, or the one over the head of the other. */
  lemma HeaderRegions(sbBytes: seq<byte>, gdBytes: seq<byte>, blockSize: nat)
    requires |sbBytes| == SUPERBLOCK_SIZE && |gdBytes| == GDT_ENTRY && (blockSize == 1024 || blockSize >= 2048)
    ensures var image := SeekWrite(SeekWrite([], SUPERBLOCK_OFFSET, sbBytes), blockSize, gdBytes);
      && SUPERBLOCK_OFFSET + SUPERBLOCK_SIZE <= |image| && blockSize + GDT_ENTRY <= |image|
      && image[blockSize..blockSize + GDT_ENTRY] == gdBytes
      && image[SUPERBLOCK_OFFSET..SUPERBLOCK_OFFSET + SUPERBLOCK_SIZE] == if blockSize == 1024
        then Put(sbBytes, 0, gdBytes) else sbBytes
  {
  }

  /** Opening a formatted image finds the configured counters. */
  lemma FormattedOpens(image: seq<byte>, config: Config)
    requires OneGroup(config) && NewImage(image, config)
    ensures Opened(image) == Ok((NewSuperblock(config), [NewDescriptor(config)]))
  {
    hide Holds, ViewOf, Core, NewCatalog, Opened, Coherent, NewSuperblock, NewDescriptor;
    ReopenSame(image, NewSuperblock(config), NewDescriptor(config));
  }
}
