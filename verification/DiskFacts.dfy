/** What the invariant says of one node, one counter, one block. */
module DiskFacts {
  import opened DirEntries
  import opened DirBlocks
  import opened Listings
  import opened ExtentTrees
  import opened Inodes
  import opened Superblocks
  import opened Catalogs
  import opened Moves
  import opened Disks
  import opened DiskSteps

  /** Counters small enough for a 32-byte descriptor and a 32-bit superblock. */
  predicate Countable(d: Disk) {
    && d.gd.freeBlocksCount < 0x1_0000 && d.gd.freeInodesCount < 0x1_0000 && d.gd.usedDirsCount < 0x1_0000
    && d.sb.freeBlocksCount < 0x1_0000 && d.sb.freeInodesCount < 0x1_0000
  }

  lemma CoreCountable(d: Disk, c: Catalog)
    requires Core(d, c)
    ensures Countable(d)
  {
    hide NodesOk, LinksOk, CatalogOk, BlockBitsOk, InodeBitsOk, FreeClean, FreeSet, FirstData, DirSet;
    FreeSetSize(d.blockBits, d.sb.blocksCount);
    FreeSetSize(d.inodeBits, d.sb.inodesCount);
    DirCountBound(d, c);
  }

  lemma BlocksFitBitmap(sb: Superblock, gd: GroupDescriptor)
    requires Geometry(sb, gd)
    ensures sb.blocksCount <= 8 * sb.blockSize
  {
    hide FirstData;
  }

  lemma BlockSizePositive(sb: Superblock, gd: GroupDescriptor)
    requires Geometry(sb, gd)
    ensures sb.blockSize > 0 && sb.blocksCount <= 0x8000
  {
    hide FirstData;
  }

  /** A live node's blocks lie past the metadata. */
  lemma NodeBlocksIn(d: Disk, c: Catalog, k: nat)
    requires Core(d, c) && k in c.nodes
    ensures c.nodes[k].Dir? ==>
      FirstData(d.sb) <= c.nodes[k].block && AllEncodable(c.nodes[k].entries)
        && |Pack(c.nodes[k].entries)| == d.sb.blockSize
    ensures c.nodes[k].File? && |c.nodes[k].blocks| > 0 ==> FirstData(d.sb) <= c.nodes[k].start
  {
    hide Core, FirstData, AllEncodable, Pack, ListingOk;
    if c.nodes[k].Dir? {
      DirIn(d, c, k);
    } else if c.nodes[k].File? && |c.nodes[k].blocks| > 0 {
      FileIn(d, c, k);
    }
  }

  lemma DirIn(d: Disk, c: Catalog, k: nat)
    requires Core(d, c) && IsDir(c.nodes, k)
    ensures FirstData(d.sb) <= c.nodes[k].block && AllEncodable(c.nodes[k].entries)
    ensures |Pack(c.nodes[k].entries)| == d.sb.blockSize
    ensures ListingOk(k, c.nodes[k].entries) && Tiles(c.nodes[k].entries, d.sb.blockSize)
  {
    assert DirsOk(d.sb.blockSize, c.nodes);
    hide Pack, ListingOk, AllEncodable, Core, FirstData;
    DirBlockIn(d, c, k);
  }

  lemma FileIn(d: Disk, c: Catalog, k: nat)
    requires Core(d, c) && k in c.nodes && c.nodes[k].File? && |c.nodes[k].blocks| > 0
    ensures FirstData(d.sb) <= c.nodes[k].start
  {
    hide *;
    OwnershipParts(d, c);
    RunStart(c.nodes[k]);
    BlockOwned(c.nodes, c.own, k, c.nodes[k].start);
    OwnedInRange(d.blockBits, FirstData(d.sb), d.sb.blocksCount, c.own, c.lostBlocks, c.nodes[k].start);
  }

  lemma RunStart(node: Node)
    requires node.File? && |node.blocks| > 0
    ensures node.start in NodeBlocks(node)
  {
  }

  lemma OwnershipParts(d: Disk, c: Catalog)
    requires Core(d, c)
    ensures OwnOk(c.nodes, c.own) && LostOk(c) && d.sb.blockSize > 0
    ensures BlockBitsOk(d.blockBits, FirstData(d.sb), d.sb.blocksCount, c.own, c.lostBlocks)
  {
    hide OwnOk, LostOk, BlockBitsOk, TreeOk, TreeOnDisk, InodeBitsOk, CountsOk, FreeClean, FirstData;
  }

  lemma OwnedInRange(bits: seq<bool>, first: nat, total: nat, own: map<nat, nat>, lost: set<nat>, b: nat)
    requires BlockBitsOk(bits, first, total, own, lost) && (b in own || b in lost)
    ensures first <= b < total
  {
  }

  lemma BaseFacts(d: Disk, c: Catalog)
    requires Core(d, c)
    ensures d.sb.blockSize == 2048 || d.sb.blockSize == 4096
    ensures |d.data| == d.sb.blocksCount <= 0x8000 && |d.inodes| == d.sb.inodesCount <= 0x8000
    ensures CatalogOk(d.sb.blockSize, c)
  {
    hide CatalogOk, TreeOnDisk, BitmapsOk, FirstData;
  }
}
