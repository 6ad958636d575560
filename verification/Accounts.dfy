/** What the bitmaps and counters say of the tree, inode by inode and block by block. */
module Accounts {
  import opened ExtentTrees
  import opened Superblocks
  import opened Catalogs
  import opened Disks
  import opened DiskFacts

  /** Without leaks a block's bit is set exactly when the block is metadata or belongs to a
      live inode, and no block belongs to two. */
  lemma BlockBitMeans(d: Disk, c: Catalog, b: nat)
    requires Core(d, c) && NoLeaks(c) && b < d.sb.blocksCount
    ensures d.sb.blockSize > 0 && b < |d.blockBits|
    ensures d.blockBits[b] <==> b < FirstData(d.sb) || exists k :: k in c.nodes && b in NodeBlocks(c.nodes[k])
    ensures forall j, k ::
      j in c.nodes && k in c.nodes && b in NodeBlocks(c.nodes[j]) && b in NodeBlocks(c.nodes[k]) ==> j == k
    ensures forall k :: k in c.nodes && b in NodeBlocks(c.nodes[k]) ==> FirstData(d.sb) <= b
  {
    hide Core, FirstData, NodeBlocks, Geometry, Sized, LostOk, CatalogOk, TreeOnDisk, BitmapsOk;
    CoreParts(d, c);
    SizedParts(d);
    OwnershipParts(d, c);
  }

  /** Without leaks an inode's bit is set exactly when it is reserved or live. */
  lemma InodeBitMeans(d: Disk, c: Catalog, k: nat)
    requires Core(d, c) && NoLeaks(c) && 1 <= k <= d.sb.inodesCount
    ensures k <= |d.inodeBits| && (d.inodeBits[k - 1] <==> k <= RESERVED || k in c.nodes)
  {
    hide Core, FirstData, Geometry, Sized, CatalogOk, TreeOnDisk, BitmapsOk, BlockBitsOk, CountsOk, FreeClean;
    CoreParts(d, c);
    SizedParts(d);
    BitmapsParts(d, c);
  }

  /** Every block is metadata, free, owned or lost, and counted once. */
  lemma BlocksConserved(d: Disk, c: Catalog)
    requires Core(d, c)
    ensures d.sb.blockSize > 0
    ensures FirstData(d.sb) + d.sb.freeBlocksCount + |c.own.Keys| + |c.lostBlocks| == d.sb.blocksCount
    ensures d.gd.freeBlocksCount == d.sb.freeBlocksCount
  {
    hide Core, FirstData, Geometry, Sized, CatalogOk, TreeOnDisk, BitmapsOk, InodeBitsOk, FreeClean, OwnOk, LostOk;
    hide FreeSet;
    CoreParts(d, c);
    SizedParts(d);
    BitmapsParts(d, c);
    OwnershipParts(d, c);
    SpaceStarts(d.sb, d.gd);
    LostApartFrom(c);
    BlockParts(d.blockBits, FirstData(d.sb), d.sb.blocksCount, c.own, c.lostBlocks);
  }

  lemma SpaceStarts(sb: Superblock, gd: GroupDescriptor)
    requires Geometry(sb, gd)
    ensures sb.blockSize > 0 && FirstData(sb) < sb.blocksCount
  {
    hide FirstData;
  }

  lemma LostApartFrom(c: Catalog)
    requires LostOk(c)
    ensures c.lostBlocks * c.own.Keys == {} && c.lostInodes * c.nodes.Keys == {}
  {
  }

  lemma BlockParts(bits: seq<bool>, first: nat, total: nat, own: map<nat, nat>, lost: set<nat>)
    requires BlockBitsOk(bits, first, total, own, lost) && first <= total <= |bits| && lost * own.Keys == {}
    ensures first + |FreeSet(bits, total)| + |own.Keys| + |lost| == total
  {
    RunSize(0, first);
    RunSize(0, total);
    Apart2(own.Keys, lost);
    Partition(RunBlocks(0, first), own.Keys + lost, FreeSet(bits, total), RunBlocks(0, total));
  }

  lemma Apart2(a: set<nat>, b: set<nat>)
    requires b * a == {}
    ensures |a + b| == |a| + |b|
  {
    assert a * b == {};
  }

  lemma Partition(a: set<nat>, b: set<nat>, c: set<nat>, all: set<nat>)
    requires forall x :: x in all <==> x in a || x in b || x in c
    requires forall x :: !(x in a && x in b) && !(x in a && x in c) && !(x in b && x in c)
    ensures |all| == |a| + |b| + |c|
  {
    assert b * a == {} && c * (a + b) == {};
    Apart2(a, b);
    Apart2(a + b, c);
    assert all == a + b + c;
  }

  /** Every inode is reserved, free, live or lost, and counted once; the root is reserved. */
  lemma InodesConserved(d: Disk, c: Catalog)
    requires Core(d, c)
    ensures RESERVED + d.sb.freeInodesCount + (|c.nodes.Keys| - 1) + |c.lostInodes| == d.sb.inodesCount
    ensures d.gd.freeInodesCount == d.sb.freeInodesCount
  {
    hide Core, FirstData, Geometry, Sized, CatalogOk, TreeOnDisk, BitmapsOk, BlockBitsOk, FreeClean, OwnOk, LostOk;
    hide FreeSet;
    CoreParts(d, c);
    SizedParts(d);
    BitmapsParts(d, c);
    OwnershipParts(d, c);
    LostApartFrom(c);
    RootLives(d, c);
    InodeParts(d.inodeBits, d.sb.inodesCount, c.nodes.Keys, c.lostInodes);
  }

  lemma RootLives(d: Disk, c: Catalog)
    requires Core(d, c)
    ensures ROOT in c.nodes
  {
    hide DirsOk, UpOk, DownOk, OwnOk, LostOk, Geometry, Sized, TreeOnDisk, BitmapsOk;
  }

  lemma InodeParts(bits: seq<bool>, n: nat, live: set<nat>, lost: set<nat>)
    requires InodeBitsOk(bits, n, live, lost) && RESERVED <= n <= |bits| && lost * live == {} && ROOT in live
    ensures RESERVED + |FreeSet(bits, n)| + (|live| - 1) + |lost| == n
  {
    hide InodeBitsOk, FreeSet, Slot;
    var used := live - {ROOT} + lost;
    forall k | k in used ensures RESERVED < k <= n {
      UsedIn(bits, n, live, lost, k);
    }
    forall i: nat | i < n ensures (Slot(used, i) <==> i >= RESERVED && bits[i]) && (i < RESERVED ==> bits[i]) {
      SlotIsBit(bits, n, live, lost, i);
    }
    SlotParts(bits, n, used);
    UsedCount(live, lost);
  }

  lemma UsedCount(live: set<nat>, lost: set<nat>)
    requires lost * live == {} && ROOT in live
    ensures |live - {ROOT} + lost| == |live| - 1 + |lost|
  {
    Apart2(live - {ROOT}, lost);
  }

  lemma SlotParts(bits: seq<bool>, n: nat, used: set<nat>)
    requires RESERVED <= n <= |bits| && forall k :: k in used ==> RESERVED < k <= n
    requires forall i: nat :: i < n ==> (Slot(used, i) <==> i >= RESERVED && bits[i]) && (i < RESERVED ==> bits[i])
    ensures RESERVED + |FreeSet(bits, n)| + |used| == n
  {
    hide Slot, FreeSet;
    RunSize(0, RESERVED);
    RunSize(0, n);
    SlotCount(used, n);
    Partition(RunBlocks(0, RESERVED), Slots(used, n), FreeSet(bits, n), RunBlocks(0, n));
  }

  lemma UsedIn(bits: seq<bool>, n: nat, live: set<nat>, lost: set<nat>, k: nat)
    requires InodeBitsOk(bits, n, live, lost) && k in live - {ROOT} + lost
    ensures RESERVED < k <= n
  {
  }

  lemma SlotIsBit(bits: seq<bool>, n: nat, live: set<nat>, lost: set<nat>, i: nat)
    requires InodeBitsOk(bits, n, live, lost) && i < n <= |bits|
    ensures (Slot(live - {ROOT} + lost, i) <==> i >= RESERVED && bits[i]) && (i < RESERVED ==> bits[i])
  {
    assert i + 1 in live - {ROOT} + lost <==> (i + 1 in live && i + 1 != ROOT) || i + 1 in lost;
  }

  /** The bitmap position `i` stands for an inode of `s`. */
  predicate Slot(s: set<nat>, i: nat) {
    i + 1 in s
  }

  function Slots(s: set<nat>, n: nat): set<nat> {
    set i: nat | i < n && Slot(s, i)
  }

  lemma {:induction false} SlotCount(s: set<nat>, n: nat)
    requires forall k :: k in s ==> 1 <= k <= n
    ensures |Slots(s, n)| == |s|
  {
    if s != {} {
      var x :| x in s;
      SlotCount(s - {x}, n);
      assert Slot(s, x - 1);
      assert Slots(s, n) == Slots(s - {x}, n) + {x - 1};
    } else {
      assert Slots(s, n) == {};
    }
  }
}
