/** The decoded contents of an image, the invariant tying them to a catalog, and
    the elementary changes every operation is made of. */
module Disks {
  import opened Bytes
  import opened Results
  import opened DirEntries
  import opened Extents
  import opened ExtentTrees
  import opened Inodes
  import opened Superblocks
  import opened Catalogs
  import opened Moves

  const INODE_SIZE := 256
  const RESERVED := 10

  /** Cached superblock and descriptor, what the image stores of them, both bitmaps,
      the inode table, and the blocks after it. */
  datatype Disk = Disk(
    sb: Superblock, gd: GroupDescriptor, storedSb: Result<Superblock>, storedGd: Result<GroupDescriptor>,
    blockBits: seq<bool>, inodeBits: seq<bool>, inodes: seq<Inode>, data: seq<seq<byte>>)

  /** The first block past the inode table. */
  function FirstData(sb: Superblock): nat
    requires sb.blockSize > 0
  {
    4 + DivCeil(sb.inodesCount * INODE_SIZE, sb.blockSize)
  }

  /** A single group laid out as `format` lays it out. */
  predicate Geometry(sb: Superblock, gd: GroupDescriptor) {
    && (sb.blockSize == 2048 || sb.blockSize == 4096)
    && sb.inodeSize == INODE_SIZE && sb.revLevel >= 1 && !sb.Is64Bit() && sb.firstDataBlock == 0
    && sb.blocksPerGroup == 8 * sb.blockSize
    && sb.inodesPerGroup == sb.inodesCount && RESERVED < sb.inodesCount <= 8 * sb.blockSize
    && FirstData(sb) < sb.blocksCount <= 8 * sb.blockSize
    && gd.blockBitmap == 2 && gd.inodeBitmap == 3 && gd.inodeTable == 4
  }

  predicate Sized(d: Disk) {
    && d.sb.blockSize > 0
    && |d.blockBits| == 8 * d.sb.blockSize && |d.inodeBits| == 8 * d.sb.blockSize
    && |d.inodes| == d.sb.inodesCount && |d.data| == d.sb.blocksCount
    && forall b :: FirstData(d.sb) <= b < |d.data| ==> |d.data[b]| == d.sb.blockSize
  }

  // ----- bitmaps and counters -----

  /** A block's bit is set exactly when it is metadata, owned, lost, or past the end. */
  ghost predicate BlockBitsOk(bits: seq<bool>, first: nat, total: nat, own: map<nat, nat>, lost: set<nat>) {
    && (forall b :: 0 <= b < |bits| ==> (bits[b] <==> b < first || total <= b || b in own || b in lost))
    && (forall b :: b in own || b in lost ==> first <= b < total)
  }

  /** An inode's bit is set exactly when it is reserved, live, lost, or past the end. */
  ghost predicate InodeBitsOk(bits: seq<bool>, n: nat, live: set<nat>, lost: set<nat>) {
    && (forall i :: 0 <= i < |bits| ==> (bits[i] <==> i < RESERVED || n <= i || i + 1 in live || i + 1 in lost))
    && (forall k :: k in live ==> k == ROOT || RESERVED < k <= n)
    && (forall k :: k in lost ==> RESERVED < k <= n)
  }

  function FreeSet(bits: seq<bool>, n: nat): (r: set<nat>)
    ensures forall i :: i in r <==> 0 <= i < n && i < |bits| && !bits[i]
  {
    set i | 0 <= i < n && i < |bits| && !bits[i]
  }

  ghost predicate CountsOk(bits: seq<bool>, n: nat, groupCount: nat, sbCount: nat) {
    groupCount == sbCount == |FreeSet(bits, n)|
  }

  /** No free inode slot holds an inode with links. */
  ghost predicate FreeClean(bits: seq<bool>, inodes: seq<Inode>) {
    forall i :: RESERVED <= i < |inodes| && i < |bits| && !bits[i] ==> inodes[i].linksCount == 0
  }

  // ----- inodes -----

  /** The extent leaf of a file or directory in one run. */
  function RunLeaf(start: nat, n: nat): seq<byte>
    requires start < 0x1_0000_0000_0000_0000 && n < 0x1_0000
  {
    LeafBlock(if n == 0 then [] else [Extent(0, n, start, false)])
  }

  /** The inode `i` and the blocks it maps hold `node`; a directory's link count is left to LinksOk. */
  predicate NodeOnDisk(blockSize: nat, i: Inode, data: seq<seq<byte>>, node: Node) {
    i.dtime == 0 &&
    match node
    case Dir(b, es) =>
      && i.IsDirectory() && i.UsesExtents() && i.size == blockSize && i.blocksLo == blockSize / 512
      && b < |data| && |data| <= 0x8000 && i.block == RunLeaf(b, 1)
      && AllEncodable(es) && data[b] == Pack(es)
    case File(start, size, blocks) =>
      && i.IsRegular() && i.UsesExtents() && i.linksCount == 1 && i.size == size
      && blockSize > 0 && |blocks| == DivCeil(size, blockSize) && i.blocksLo == |blocks| * blockSize / 512
      && start + |blocks| <= |data| && |data| <= 0x8000 && i.block == RunLeaf(start, |blocks|)
      && data[start..start + |blocks|] == blocks
    case Link(target) =>
      && i.IsSymlink() && !i.UsesExtents() && i.linksCount == 1 && i.size == |target| && i.blocksLo == 0
      && 1 <= |target| <= I_BLOCK_LEN && i.block == target + Zeros(I_BLOCK_LEN - |target|)
  }

  ghost predicate NodesOk(blockSize: nat, inodes: seq<Inode>, data: seq<seq<byte>>, nodes: map<nat, Node>) {
    forall k :: k in nodes ==> 1 <= k <= |inodes| && NodeOnDisk(blockSize, inodes[k - 1], data, nodes[k])
  }

  /** A directory is linked from itself, from its parent, and from each subdirectory. */
  ghost predicate LinksOk(inodes: seq<Inode>, nodes: map<nat, Node>, up: map<nat, Place>) {
    forall k: nat :: IsDir(nodes, k) ==> 1 <= k <= |inodes| && inodes[k - 1].linksCount == 2 + |Subdirs(nodes, up, k)|
  }

  ghost predicate TreeOnDisk(d: Disk, c: Catalog) {
    && NodesOk(d.sb.blockSize, d.inodes, d.data, c.nodes)
    && LinksOk(d.inodes, c.nodes, c.up)
    && d.gd.usedDirsCount == |DirSet(c.nodes)|
  }

  ghost predicate BitmapsOk(d: Disk, c: Catalog)
    requires d.sb.blockSize > 0
  {
    && BlockBitsOk(d.blockBits, FirstData(d.sb), d.sb.blocksCount, c.own, c.lostBlocks)
    && CountsOk(d.blockBits, d.sb.blocksCount, d.gd.freeBlocksCount, d.sb.freeBlocksCount)
    && InodeBitsOk(d.inodeBits, d.sb.inodesCount, c.nodes.Keys, c.lostInodes)
    && CountsOk(d.inodeBits, d.sb.inodesCount, d.gd.freeInodesCount, d.sb.freeInodesCount)
    && FreeClean(d.inodeBits, d.inodes)
  }

  /** The disk holds the catalog: tree, ownership, bitmaps and counters all agree. */
  ghost predicate Core(d: Disk, c: Catalog) {
    Geometry(d.sb, d.gd) && Sized(d) && CatalogOk(d.sb.blockSize, c) && TreeOnDisk(d, c) && BitmapsOk(d, c)
  }

  /** The image stores the cached superblock and descriptor. */
  predicate Coherent(d: Disk) {
    d.storedSb == Ok(d.sb) && d.storedGd == Ok(d.gd)
  }

  /** Nothing is allocated that the tree does not use. */
  predicate NoLeaks(c: Catalog) {
    c.lostInodes == {} && c.lostBlocks == {}
  }

  // ----- elementary changes -----

  function Less(a: nat, b: nat): nat { if a >= b then a - b else 0 }

  /** allocate_inode and free_inode, as they change the bits and both counters. */
  function TakeInode(d: Disk, k: nat): Disk
    requires 1 <= k <= |d.inodeBits|
  {
    d.(inodeBits := d.inodeBits[k - 1 := true],
       gd := d.gd.(freeInodesCount := Less(d.gd.freeInodesCount, 1)),
       sb := d.sb.(freeInodesCount := Less(d.sb.freeInodesCount, 1)))
  }

  function GiveInode(d: Disk, k: nat): Disk
    requires 1 <= k <= |d.inodeBits|
    requires d.gd.freeInodesCount + 1 < 0x1_0000_0000 && d.sb.freeInodesCount + 1 < 0x1_0000_0000
  {
    d.(inodeBits := d.inodeBits[k - 1 := false],
       gd := d.gd.(freeInodesCount := d.gd.freeInodesCount + 1),
       sb := d.sb.(freeInodesCount := d.sb.freeInodesCount + 1))
  }

  /** `bits` with `n` of them from `start` on set to `v`. */
  function Fill(bits: seq<bool>, start: nat, n: nat, v: bool): (r: seq<bool>)
    requires start + n <= |bits|
    ensures |r| == |bits|
    ensures forall i :: 0 <= i < |bits| ==> r[i] == if start <= i < start + n then v else bits[i]
  {
    bits[..start] + seq(n, _ => v) + bits[start + n..]
  }

  function TakeBlocks(d: Disk, start: nat, n: nat): Disk
    requires start + n <= |d.blockBits|
  {
    d.(blockBits := Fill(d.blockBits, start, n, true),
       gd := d.gd.(freeBlocksCount := Less(d.gd.freeBlocksCount, n)),
       sb := d.sb.(freeBlocksCount := Less(d.sb.freeBlocksCount, n)))
  }

  function GiveBlocks(d: Disk, start: nat, n: nat): Disk
    requires start + n <= |d.blockBits|
    requires d.gd.freeBlocksCount + n < 0x1_0000_0000 && d.sb.freeBlocksCount + n < 0x1_0000_0000_0000_0000
  {
    d.(blockBits := Fill(d.blockBits, start, n, false),
       gd := d.gd.(freeBlocksCount := d.gd.freeBlocksCount + n),
       sb := d.sb.(freeBlocksCount := d.sb.freeBlocksCount + n))
  }

  function PutInode(d: Disk, k: nat, i: Inode): Disk
    requires 1 <= k <= |d.inodes|
  {
    d.(inodes := d.inodes[k - 1 := i])
  }

  /** Overwrites consecutive blocks. */
  function PutRun(data: seq<seq<byte>>, start: nat, blocks: seq<seq<byte>>): (r: seq<seq<byte>>)
    requires start + |blocks| <= |data|
    ensures |r| == |data|
    ensures forall b :: 0 <= b < |data| ==> r[b] == if start <= b < start + |blocks| then blocks[b - start] else data[b]
  {
    data[..start] + blocks + data[start + |blocks|..]
  }

  function PutData(d: Disk, start: nat, blocks: seq<seq<byte>>): Disk
    requires start + |blocks| <= |d.data|
  {
    d.(data := PutRun(d.data, start, blocks))
  }

  function PutBlock(d: Disk, b: nat, block: seq<byte>): Disk
    requires b < |d.data|
  {
    d.(data := d.data[b := block])
  }

  function Flushed(d: Disk): Disk {
    d.(storedSb := Ok(d.sb), storedGd := Ok(d.gd))
  }

  function WithLinks(d: Disk, k: nat, links: u16): Disk
    requires 1 <= k <= |d.inodes|
  {
    PutInode(d, k, d.inodes[k - 1].(linksCount := links))
  }

  function WithDirs(d: Disk, n: u32): Disk {
    d.(gd := d.gd.(usedDirsCount := n))
  }

  // ----- each keeps the invariant -----

  /** The records of `live` differ in nothing but link counts. */
  predicate InodesKept(d: Disk, d': Disk, live: set<nat>) {
    |d'.inodes| == |d.inodes| &&
    forall k :: k in live && 1 <= k <= |d.inodes| ==> SameButLinks(d.inodes[k - 1], d'.inodes[k - 1])
  }

  predicate SameButLinks(i: Inode, j: Inode) {
    j == i.(linksCount := j.linksCount)
  }

  lemma KeptSame(d: Disk, d1: Disk, d2: Disk, live: set<nat>)
    requires InodesKept(d, d1, live) && d2.inodes == d1.inodes
    ensures InodesKept(d, d2, live)
  {
  }

  lemma PutInodeAt(d: Disk, k: nat, i: Inode)
    requires 1 <= k <= |d.inodes|
    ensures PutInode(d, k, i).inodes == d.inodes[k - 1 := i]
  {
  }

  lemma KeptItself(d: Disk, live: set<nat>)
    ensures InodesKept(d, d, live)
  {
  }

  lemma KeptTwice(d: Disk, d1: Disk, d2: Disk, live: set<nat>)
    requires InodesKept(d, d1, live) && InodesKept(d1, d2, live)
    ensures InodesKept(d, d2, live)
  {
    assert forall k :: k in live && 1 <= k <= |d.inodes| ==> SameButLinks(d1.inodes[k - 1], d2.inodes[k - 1]);
  }

  lemma KeptPut(d: Disk, d1: Disk, d2: Disk, live: set<nat>, k: nat, i: Inode)
    requires InodesKept(d, d1, live) && 1 <= k <= |d1.inodes| && d2 == PutInode(d1, k, i)
    requires k !in live || SameButLinks(d.inodes[k - 1], i)
    ensures InodesKept(d, d2, live)
  {
  }

  lemma FreeSetSize(bits: seq<bool>, n: nat)
    ensures |FreeSet(bits, n)| <= n
  {
    hide FreeSet;
    var all := RunBlocks(0, n);
    RunSize(0, n);
    assert FreeSet(bits, n) <= all;
    SubsetSize(FreeSet(bits, n), all);
  }

  lemma {:induction false} SubsetSize(a: set<nat>, b: set<nat>)
    requires a <= b
    ensures |a| <= |b|
  {
    if a != {} {
      var x :| x in a;
      SubsetSize(a - {x}, b - {x});
    }
  }

  /** What is left of the invariant once the listed parts are unfolded. */
  lemma CoreParts(d: Disk, c: Catalog)
    requires Core(d, c)
    ensures Geometry(d.sb, d.gd) && Sized(d) && CatalogOk(d.sb.blockSize, c) && TreeOnDisk(d, c) && d.sb.blockSize > 0
    ensures BitmapsOk(d, c)
  {
  }

  lemma CoreIntro(d: Disk, c: Catalog, size: nat)
    requires Geometry(d.sb, d.gd) && Sized(d) && d.sb.blockSize == size && CatalogOk(size, c) && TreeOnDisk(d, c)
    requires size > 0 && BitmapsOk(d, c)
    ensures Core(d, c)
  {
  }

  /** The layout does not depend on the counters. */
  lemma GeometryFixed(d: Disk, d': Disk)
    requires Geometry(d.sb, d.gd)
    requires d'.sb == d.sb.(freeBlocksCount := d'.sb.freeBlocksCount, freeInodesCount := d'.sb.freeInodesCount)
    requires d'.gd ==
      d.gd.(freeBlocksCount := d'.gd.freeBlocksCount, freeInodesCount := d'.gd.freeInodesCount,
        usedDirsCount := d'.gd.usedDirsCount)
    ensures Geometry(d'.sb, d'.gd) && FirstData(d'.sb) == FirstData(d.sb)
  {
  }

  lemma BitmapsIntro(d: Disk, c: Catalog)
    requires d.sb.blockSize > 0 && BlockBitsOk(d.blockBits, FirstData(d.sb), d.sb.blocksCount, c.own, c.lostBlocks)
    requires CountsOk(d.blockBits, d.sb.blocksCount, d.gd.freeBlocksCount, d.sb.freeBlocksCount)
    requires InodeBitsOk(d.inodeBits, d.sb.inodesCount, c.nodes.Keys, c.lostInodes)
    requires CountsOk(d.inodeBits, d.sb.inodesCount, d.gd.freeInodesCount, d.sb.freeInodesCount)
    requires FreeClean(d.inodeBits, d.inodes)
    ensures BitmapsOk(d, c)
  {
    hide BlockBitsOk, InodeBitsOk, CountsOk, FreeClean, FirstData;
  }

  lemma BitmapsParts(d: Disk, c: Catalog)
    requires d.sb.blockSize > 0 && BitmapsOk(d, c)
    ensures BlockBitsOk(d.blockBits, FirstData(d.sb), d.sb.blocksCount, c.own, c.lostBlocks)
    ensures CountsOk(d.blockBits, d.sb.blocksCount, d.gd.freeBlocksCount, d.sb.freeBlocksCount)
    ensures InodeBitsOk(d.inodeBits, d.sb.inodesCount, c.nodes.Keys, c.lostInodes)
    ensures CountsOk(d.inodeBits, d.sb.inodesCount, d.gd.freeInodesCount, d.sb.freeInodesCount)
    ensures FreeClean(d.inodeBits, d.inodes)
  {
    hide BlockBitsOk, InodeBitsOk, CountsOk, FreeClean, FirstData;
  }

  lemma SizedParts(d: Disk)
    requires Geometry(d.sb, d.gd) && Sized(d)
    ensures |d.data| == d.sb.blocksCount <= |d.blockBits| && |d.inodes| == d.sb.inodesCount <= |d.inodeBits|
    ensures d.sb.blockSize > 0 && RESERVED < d.sb.inodesCount && d.sb.blocksCount <= 0x8000
    ensures d.sb.inodesCount <= 0x8000
  {
    hide FirstData;
  }

  /** The tree on disk says nothing of bits, counters or what is lost. */
  lemma SameTree(d: Disk, c: Catalog, d': Disk, c': Catalog)
    requires TreeOnDisk(d, c) && d'.sb.blockSize == d.sb.blockSize && d'.inodes == d.inodes && d'.data == d.data
    requires d'.gd.usedDirsCount == d.gd.usedDirsCount && c'.nodes == c.nodes && c'.up == c.up
    ensures TreeOnDisk(d', c')
  {
    hide NodesOk, LinksOk, DirSet;
  }

  /** What is lost may grow by what nobody has, and shrink. */
  lemma LostChanged(size: nat, c: Catalog, inodes: set<nat>, blocks: set<nat>)
    requires CatalogOk(size, c)
    requires forall k :: k in inodes ==> k !in c.nodes
    requires forall b :: b in blocks ==> b !in c.own
    ensures CatalogOk(size, c.(lostInodes := inodes, lostBlocks := blocks))
  {
    hide TreeOk, OwnOk;
  }

  lemma LostApart(size: nat, c: Catalog)
    requires CatalogOk(size, c)
    ensures forall k :: k in c.lostInodes ==> k !in c.nodes
    ensures forall b :: b in c.lostBlocks ==> b !in c.own
  {
    hide TreeOk, OwnOk;
  }

  // ----- inodes taken and given -----

  lemma TakeInodeBits(bits: seq<bool>, n: nat, live: set<nat>, lost: set<nat>, k: nat)
    requires InodeBitsOk(bits, n, live, lost) && 1 <= k <= n <= |bits| && !bits[k - 1]
    ensures RESERVED < k && k !in live && k !in lost
    ensures InodeBitsOk(bits[k - 1 := true], n, live, lost + {k})
  {
    assert bits[k - 1] == false;
  }

  lemma GiveInodeBits(bits: seq<bool>, n: nat, live: set<nat>, lost: set<nat>, k: nat)
    requires InodeBitsOk(bits, n, live, lost) && k in lost && n <= |bits| && k !in live
    ensures RESERVED < k <= n && bits[k - 1]
    ensures InodeBitsOk(bits[k - 1 := false], n, live, lost - {k})
  {
    assert k in lost;
  }

  /** One bit changed. */
  lemma FreeSetBit(bits: seq<bool>, n: nat, i: nat)
    requires i < n <= |bits|
    ensures !bits[i] ==> |FreeSet(bits, n)| == |FreeSet(bits[i := true], n)| + 1
    ensures bits[i] ==> |FreeSet(bits[i := false], n)| == |FreeSet(bits, n)| + 1
  {
    hide FreeSet;
    if bits[i] {
      assert FreeSet(bits[i := false], n) == FreeSet(bits, n) + {i} && i !in FreeSet(bits, n);
    } else {
      assert FreeSet(bits, n) == FreeSet(bits[i := true], n) + {i} && i !in FreeSet(bits[i := true], n);
    }
  }

  lemma FreeCleanBit(bits: seq<bool>, inodes: seq<Inode>, i: nat, v: bool)
    requires FreeClean(bits, inodes) && i < |bits| && (!v && i < |inodes| ==> inodes[i].linksCount == 0)
    ensures FreeClean(bits[i := v], inodes)
  {
  }

  lemma TakeInodeCore(d: Disk, c: Catalog, k: nat)
    requires Core(d, c) && 1 <= k <= d.sb.inodesCount && k - 1 < |d.inodeBits| && !d.inodeBits[k - 1]
    ensures RESERVED < k && k !in c.nodes && k !in c.lostInodes && d.gd.freeInodesCount > 0
    ensures Core(TakeInode(d, k), c.(lostInodes := c.lostInodes + {k}))
  {
    hide Core, Geometry, Sized, CatalogOk, TreeOnDisk, BitmapsOk, BlockBitsOk, InodeBitsOk, FreeClean, FreeSet;
    hide FirstData;
    CoreParts(d, c);
    SizedParts(d);
    BitmapsParts(d, c);
    var d', c' := TakeInode(d, k), c.(lostInodes := c.lostInodes + {k});
    TakeInodeBits(d.inodeBits, d.sb.inodesCount, c.nodes.Keys, c.lostInodes, k);
    FreeSetBit(d.inodeBits, d.sb.inodesCount, k - 1);
    FreeCleanBit(d.inodeBits, d.inodes, k - 1, true);
    GeometryFixed(d, d');
    SizedFixed(d, d');
    LostApart(d.sb.blockSize, c);
    LostChanged(d.sb.blockSize, c, c'.lostInodes, c'.lostBlocks);
    SameTree(d, c, d', c');
    BitmapsIntro(d', c');
    CoreIntro(d', c', d.sb.blockSize);
  }

  lemma SizedFixed(d: Disk, d': Disk)
    requires Sized(d) && |d'.blockBits| == |d.blockBits| && |d'.inodeBits| == |d.inodeBits| && d'.inodes == d.inodes
    requires d'.data == d.data
    requires d'.sb == d.sb.(freeBlocksCount := d'.sb.freeBlocksCount, freeInodesCount := d'.sb.freeInodesCount)
    ensures Sized(d')
  {
  }

  lemma GiveInodeCore(d: Disk, c: Catalog, k: nat)
    requires Core(d, c) && k in c.lostInodes && 1 <= k <= |d.inodes| && d.inodes[k - 1].linksCount == 0
    ensures 1 <= k <= |d.inodeBits| && d.gd.freeInodesCount + 1 < 0x1_0000_0000
    ensures d.sb.freeInodesCount + 1 < 0x1_0000_0000
    ensures Core(GiveInode(d, k), c.(lostInodes := c.lostInodes - {k}))
  {
    hide Core, Geometry, Sized, CatalogOk, TreeOnDisk, BitmapsOk, BlockBitsOk, InodeBitsOk, FreeClean, FreeSet;
    hide FirstData;
    CoreParts(d, c);
    SizedParts(d);
    BitmapsParts(d, c);
    FreeSetSize(d.inodeBits, d.sb.inodesCount);
    LostApart(d.sb.blockSize, c);
    var d', c' := GiveInode(d, k), c.(lostInodes := c.lostInodes - {k});
    GiveInodeBits(d.inodeBits, d.sb.inodesCount, c.nodes.Keys, c.lostInodes, k);
    FreeSetBit(d.inodeBits, d.sb.inodesCount, k - 1);
    FreeCleanBit(d.inodeBits, d.inodes, k - 1, false);
    GeometryFixed(d, d');
    SizedFixed(d, d');
    LostChanged(d.sb.blockSize, c, c'.lostInodes, c'.lostBlocks);
    SameTree(d, c, d', c');
    BitmapsIntro(d', c');
    CoreIntro(d', c', d.sb.blockSize);
  }

  // ----- blocks taken and given -----

  lemma FillFree(bits: seq<bool>, n: nat, start: nat, len: nat)
    requires start + len <= n <= |bits| && forall i :: start <= i < start + len ==> !bits[i]
    ensures |FreeSet(bits, n)| == |FreeSet(Fill(bits, start, len, true), n)| + len
  {
    hide FreeSet, Fill, RunBlocks;
    var a, b, run := FreeSet(bits, n), FreeSet(Fill(bits, start, len, true), n), RunBlocks(start, len);
    assert a == b + run && b !! run;
    RunSize(start, len);
  }

  lemma FillUsed(bits: seq<bool>, n: nat, start: nat, len: nat)
    requires start + len <= n <= |bits| && forall i :: start <= i < start + len ==> bits[i]
    ensures |FreeSet(Fill(bits, start, len, false), n)| == |FreeSet(bits, n)| + len
  {
    hide FreeSet, Fill, RunBlocks;
    var a, b, run := FreeSet(bits, n), FreeSet(Fill(bits, start, len, false), n), RunBlocks(start, len);
    assert b == a + run && a !! run;
    RunSize(start, len);
  }

  lemma TakeBlockBits(bits: seq<bool>, first: nat, total: nat, own: map<nat, nat>, lost: set<nat>, start: nat, n: nat)
    requires BlockBitsOk(bits, first, total, own, lost) && start + n <= total <= |bits|
    requires forall i :: start <= i < start + n ==> !bits[i]
    ensures forall b :: b in RunBlocks(start, n) ==> first <= b && b !in own && b !in lost
    ensures BlockBitsOk(Fill(bits, start, n, true), first, total, own, lost + RunBlocks(start, n))
  {
    hide Fill, RunBlocks;
  }

  lemma GiveBlockBits(bits: seq<bool>, first: nat, total: nat, own: map<nat, nat>, lost: set<nat>, start: nat, n: nat)
    requires BlockBitsOk(bits, first, total, own, lost) && start + n <= total <= |bits| && RunBlocks(start, n) <= lost
    requires forall b :: b in lost ==> b !in own
    ensures forall i :: start <= i < start + n ==> bits[i]
    ensures BlockBitsOk(Fill(bits, start, n, false), first, total, own, lost - RunBlocks(start, n))
  {
    hide Fill, RunBlocks;
    forall i | start <= i < start + n ensures bits[i] && i in lost && first <= i < total && i !in own {
      assert i in RunBlocks(start, n);
    }
    var now := Fill(bits, start, n, false);
    forall b | 0 <= b < |bits| ensures now[b] <==>
      b < first || total <= b || b in own || b in lost - RunBlocks(start, n) {
      assert b in RunBlocks(start, n) <==> start <= b < start + n;
    }
  }

  lemma TakeBlocksCore(d: Disk, c: Catalog, start: nat, n: nat)
    requires Core(d, c) && start + n <= d.sb.blocksCount <= |d.blockBits|
    requires forall i :: start <= i < start + n ==> !d.blockBits[i]
    ensures d.gd.freeBlocksCount >= n
    ensures RunBlocks(start, n) !! c.lostBlocks && RunBlocks(start, n) !! c.own.Keys
    ensures n > 0 ==> start >= FirstData(d.sb)
    ensures Core(TakeBlocks(d, start, n), c.(lostBlocks := c.lostBlocks + RunBlocks(start, n)))
  {
    hide Core, Geometry, Sized, CatalogOk, TreeOnDisk, BitmapsOk, BlockBitsOk, InodeBitsOk, FreeClean, FreeSet;
    hide FirstData, Fill, RunBlocks;
    CoreParts(d, c);
    SizedParts(d);
    BitmapsParts(d, c);
    var d', c' := TakeBlocks(d, start, n), c.(lostBlocks := c.lostBlocks + RunBlocks(start, n));
    TakeBlockBits(d.blockBits, FirstData(d.sb), d.sb.blocksCount, c.own, c.lostBlocks, start, n);
    assert n > 0 ==> start in RunBlocks(start, n);
    FillFree(d.blockBits, d.sb.blocksCount, start, n);
    GeometryFixed(d, d');
    SizedFixed(d, d');
    LostApart(d.sb.blockSize, c);
    LostChanged(d.sb.blockSize, c, c'.lostInodes, c'.lostBlocks);
    SameTree(d, c, d', c');
    BitmapsIntro(d', c');
    CoreIntro(d', c', d.sb.blockSize);
  }

  lemma GiveBlocksCore(d: Disk, c: Catalog, start: nat, n: nat)
    requires Core(d, c) && RunBlocks(start, n) <= c.lostBlocks && start + n <= d.sb.blocksCount
    ensures start + n <= |d.blockBits|
    ensures d.gd.freeBlocksCount + n < 0x1_0000_0000 && d.sb.freeBlocksCount + n < 0x1_0000_0000_0000_0000
    ensures Core(GiveBlocks(d, start, n), c.(lostBlocks := c.lostBlocks - RunBlocks(start, n)))
  {
    hide Core, Geometry, Sized, CatalogOk, TreeOnDisk, BitmapsOk, BlockBitsOk, InodeBitsOk, FreeClean, FreeSet;
    hide FirstData, Fill, RunBlocks;
    CoreParts(d, c);
    SizedParts(d);
    BitmapsParts(d, c);
    LostApart(d.sb.blockSize, c);
    GiveBlockBits(d.blockBits, FirstData(d.sb), d.sb.blocksCount, c.own, c.lostBlocks, start, n);
    FillUsed(d.blockBits, d.sb.blocksCount, start, n);
    FreeSetSize(Fill(d.blockBits, start, n, false), d.sb.blocksCount);
    var d', c' := GiveBlocks(d, start, n), c.(lostBlocks := c.lostBlocks - RunBlocks(start, n));
    GeometryFixed(d, d');
    SizedFixed(d, d');
    LostChanged(d.sb.blockSize, c, c'.lostInodes, c'.lostBlocks);
    SameTree(d, c, d', c');
    BitmapsIntro(d', c');
    CoreIntro(d', c', d.sb.blockSize);
  }

  /** An inode slot no live inode uses may be written freely. */
  lemma PutLostInodeCore(d: Disk, c: Catalog, k: nat, i: Inode)
    requires Core(d, c) && k in c.lostInodes && 1 <= k <= |d.inodes|
    ensures Core(PutInode(d, k, i), c)
  {
    hide BlockBitsOk, CountsOk, TreeOk, OwnOk, NodeOnDisk, Subdirs, FirstData;
    assert k !in c.nodes;
    var d' := PutInode(d, k, i);
    assert d.inodeBits[k - 1];
    assert forall x :: x in c.nodes && 1 <= x <= |d.inodes| ==> d'.inodes[x - 1] == d.inodes[x - 1];
  }

  /** A node's blocks decide all that the disk says of it beyond its inode. */
  lemma NodeStable(blockSize: nat, i: Inode, data: seq<seq<byte>>, data': seq<seq<byte>>, node: Node)
    requires NodeOnDisk(blockSize, i, data, node) && |data'| == |data|
    requires forall b :: b in NodeBlocks(node) && b < |data| ==> data'[b] == data[b]
    ensures NodeOnDisk(blockSize, i, data', node)
  {
    hide RunLeaf, RunBlocks, Pack;
    if node.File? {
      assert forall b :: node.start <= b < node.start + |node.blocks| ==> b in NodeBlocks(node);
      assert data'[node.start..node.start + |node.blocks|] == data[node.start..node.start + |node.blocks|];
    }
  }

  /** Blocks no live inode owns may be written freely. */
  lemma PutLostDataCore(d: Disk, c: Catalog, start: nat, blocks: seq<seq<byte>>)
    requires Core(d, c) && start + |blocks| <= |d.data| && RunBlocks(start, |blocks|) <= c.lostBlocks
    requires forall j :: 0 <= j < |blocks| ==> |blocks[j]| == d.sb.blockSize
    ensures Core(PutData(d, start, blocks), c)
  {
    hide BlockBitsOk, InodeBitsOk, FreeClean, CountsOk, Geometry, TreeOk, NodeOnDisk, LinksOk, RunBlocks, NodeBlocks;
    var d' := PutData(d, start, blocks);
    forall k | k in c.nodes ensures NodeOnDisk(d.sb.blockSize, d.inodes[k - 1], d'.data, c.nodes[k]) {
      forall b | b in NodeBlocks(c.nodes[k]) && b < |d.data| ensures d'.data[b] == d.data[b] {
        assert b in c.own && b !in RunBlocks(start, |blocks|);
      }
      NodeStable(d.sb.blockSize, d.inodes[k - 1], d.data, d'.data, c.nodes[k]);
    }
  }

  lemma FlushedCore(d: Disk, c: Catalog)
    requires Core(d, c)
    ensures Core(Flushed(d), c) && Coherent(Flushed(d))
  {
    hide Geometry, CatalogOk, NodesOk, LinksOk, BlockBitsOk, InodeBitsOk, CountsOk, FreeClean;
  }
}
