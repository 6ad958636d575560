/** The image's bytes as a disk: where each structure lives, and what one write changes. */
module Images {
  import opened Bytes
  import opened Results
  import opened Bitmap
  import opened ExtentTrees
  import opened Inodes
  import opened Superblocks
  import opened DirEntries
  import opened Extents
  import opened Catalogs
  import opened Disks

  const GDT_ENTRY := 32

  /** Byte offset of the record of inode `i + 1`. */
  function InodeOffset(blockSize: nat, i: nat): nat {
    4 * blockSize + i * INODE_SIZE
  }

  predicate Holds(image: seq<byte>, sb: Superblock, gd: GroupDescriptor) {
    Geometry(sb, gd) && |image| == sb.blocksCount * sb.blockSize
  }

  function InodesOf(image: seq<byte>, blockSize: nat, n: nat): (r: seq<Inode>)
    requires InodeOffset(blockSize, n) <= |image|
    ensures |r| == n
    ensures forall i :: 0 <= i < n ==>
      r[i] == Fields(image[InodeOffset(blockSize, i)..InodeOffset(blockSize, i) + INODE_SIZE])
  {
    seq(n, i requires 0 <= i < n => Fields(image[InodeOffset(blockSize, i)..InodeOffset(blockSize, i) + INODE_SIZE]))
  }

  function DataOf(image: seq<byte>, blockSize: nat, first: nat, total: nat): (r: seq<seq<byte>>)
    requires total * blockSize <= |image|
    ensures |r| == total
    ensures forall b :: 0 <= b < total ==>
      InImage(image, blockSize, b) && r[b] == if b < first then [] else Block(image, blockSize, b)
  {
    forall b | 0 <= b < total ensures InImage(image, blockSize, b) {
      MulMono(b + 1, total, blockSize);
    }
    seq(total, b requires 0 <= b < total => if b < first then [] else Block(image, blockSize, b))
  }

  lemma MulMono(a: nat, b: nat, n: nat)
    requires a <= b
    ensures a * n <= b * n
  {
  }

  /** The structures sit one after another and inside the image. */
  lemma Regions(image: seq<byte>, sb: Superblock, gd: GroupDescriptor)
    requires Holds(image, sb, gd)
    ensures var bs := sb.blockSize;
      && SUPERBLOCK_OFFSET + SUPERBLOCK_SIZE <= bs && bs + GDT_ENTRY <= 2 * bs
      && InodeOffset(bs, 0) == 4 * bs && InodeOffset(bs, sb.inodesCount) <= FirstData(sb) * bs
      && (FirstData(sb) + 1) * bs <= sb.blocksCount * bs == |image|
      && InImage(image, bs, 2) && InImage(image, bs, 3)
  {
    var bs := sb.blockSize;
    MulMono(FirstData(sb) + 1, sb.blocksCount, bs);
    MulMono(4, sb.blocksCount, bs);
  }

  /** What `open` and the operations see. */
  function ViewOf(image: seq<byte>, sb: Superblock, gd: GroupDescriptor): Disk
    requires Holds(image, sb, gd)
  {
    Regions(image, sb, gd);
    Disk(sb, gd,
         DecodeSuperblock(image[SUPERBLOCK_OFFSET..SUPERBLOCK_OFFSET + SUPERBLOCK_SIZE]),
         DecodeGroupDescriptor(image[sb.blockSize..sb.blockSize + GDT_ENTRY], GDT_ENTRY_SIZE_32),
         Bits(Block(image, sb.blockSize, 2)), Bits(Block(image, sb.blockSize, 3)),
         InodesOf(image, sb.blockSize, sb.inodesCount),
         DataOf(image, sb.blockSize, FirstData(sb), sb.blocksCount))
  }

  lemma ViewSized(image: seq<byte>, sb: Superblock, gd: GroupDescriptor)
    requires Holds(image, sb, gd)
    ensures Sized(ViewOf(image, sb, gd))
  {
    hide Bits, InodesOf, DataOf, DecodeSuperblock, DecodeGroupDescriptor, FirstData;
    Regions(image, sb, gd);
  }

  lemma CountersFirst(sb: Superblock, sb': Superblock)
    requires sb.blockSize > 0
    requires sb' == sb.(freeBlocksCount := sb'.freeBlocksCount, freeInodesCount := sb'.freeInodesCount)
    ensures FirstData(sb') == FirstData(sb)
  {
  }

  /** The two differ in nothing but their counters. */
  predicate SameSetup(sb0: Superblock, gd0: GroupDescriptor, sb: Superblock, gd: GroupDescriptor) {
    && sb == sb0.(freeBlocksCount := sb.freeBlocksCount, freeInodesCount := sb.freeInodesCount)
    && gd ==
      gd0.(freeBlocksCount := gd.freeBlocksCount, freeInodesCount := gd.freeInodesCount,
        usedDirsCount := gd.usedDirsCount)
  }

  lemma SetupItself(sb: Superblock, gd: GroupDescriptor)
    ensures SameSetup(sb, gd, sb, gd)
  {
  }

  lemma SetupBetween(sb0: Superblock, gd0: GroupDescriptor, sb: Superblock, gd: GroupDescriptor, sb': Superblock,
                     gd': GroupDescriptor)
    requires SameSetup(sb0, gd0, sb, gd) && SameSetup(sb0, gd0, sb', gd')
    ensures SameSetup(sb, gd, sb', gd')
  {
  }

  lemma SetupKept(sb0: Superblock, gd0: GroupDescriptor, sb: Superblock, gd: GroupDescriptor, sb': Superblock,
                  gd': GroupDescriptor)
    requires SameSetup(sb0, gd0, sb, gd)
    requires sb' == sb.(freeBlocksCount := sb'.freeBlocksCount, freeInodesCount := sb'.freeInodesCount)
    requires gd' ==
      gd.(freeBlocksCount := gd'.freeBlocksCount, freeInodesCount := gd'.freeInodesCount,
        usedDirsCount := gd'.usedDirsCount)
    ensures SameSetup(sb0, gd0, sb', gd')
  {
    assert sb0.(freeBlocksCount := sb.freeBlocksCount, freeInodesCount := sb.freeInodesCount)
              .(freeBlocksCount := sb'.freeBlocksCount, freeInodesCount := sb'.freeInodesCount)
      == sb0.(freeBlocksCount := sb'.freeBlocksCount, freeInodesCount := sb'.freeInodesCount);
  }


  /** The counters are not where anything lies. */
  lemma ViewCounters(image: seq<byte>, sb: Superblock, gd: GroupDescriptor, sb': Superblock, gd': GroupDescriptor)
    requires Holds(image, sb, gd)
    requires sb' == sb.(freeBlocksCount := sb'.freeBlocksCount, freeInodesCount := sb'.freeInodesCount)
    requires gd' ==
      gd.(freeBlocksCount := gd'.freeBlocksCount, freeInodesCount := gd'.freeInodesCount,
        usedDirsCount := gd'.usedDirsCount)
    ensures Holds(image, sb', gd') && ViewOf(image, sb', gd') == ViewOf(image, sb, gd).(sb := sb', gd := gd')
  {
    hide Bits, InodesOf, DataOf, DecodeSuperblock, DecodeGroupDescriptor, FirstData, Block;
    Regions(image, sb, gd);
    assert FirstData(sb') == FirstData(sb) by { CountersFirst(sb, sb'); }
  }

  lemma ViewInodes(image: seq<byte>, sb: Superblock, gd: GroupDescriptor)
    requires Holds(image, sb, gd)
    ensures sb.inodeSize == INODE_SIZE && InodeOffset(sb.blockSize, sb.inodesCount) <= |image|
    ensures ViewOf(image, sb, gd).inodes == InodesOf(image, sb.blockSize, sb.inodesCount)
  {
    hide InodesOf, DataOf, Bits, DecodeSuperblock, DecodeGroupDescriptor, Fields, FirstData, Block;
    Regions(image, sb, gd);
  }

  lemma InodeAt(image: seq<byte>, blockSize: nat, n: nat, i: nat)
    requires InodeOffset(blockSize, n) <= |image| && i < n
    ensures InodeOffset(blockSize, i) + INODE_SIZE <= |image|
    ensures InodesOf(image, blockSize, n)[i] ==
      Fields(image[InodeOffset(blockSize, i)..InodeOffset(blockSize, i) + INODE_SIZE])
  {
    hide Fields, InodesOf;
  }

  /** The record of inode `k`. */
  lemma InodeRecord(image: seq<byte>, sb: Superblock, gd: GroupDescriptor, k: nat)
    requires Holds(image, sb, gd) && 1 <= k <= sb.inodesCount
    ensures sb.inodeSize == INODE_SIZE && |ViewOf(image, sb, gd).inodes| == sb.inodesCount
    ensures var off := InodeOffset(sb.blockSize, k - 1);
      off + INODE_SIZE <= |image| && ViewOf(image, sb, gd).inodes[k - 1] == Fields(image[off..off + INODE_SIZE])
  {
    hide ViewOf, InodesOf, Fields, Holds, InodeOffset;
    ViewInodes(image, sb, gd);
    InodeAt(image, sb.blockSize, sb.inodesCount, k - 1);
  }

  /** The two bitmap blocks. */
  lemma BitmapBlock(image: seq<byte>, sb: Superblock, gd: GroupDescriptor, b: nat)
    requires Holds(image, sb, gd) && (b == 2 || b == 3)
    ensures b * sb.blockSize + sb.blockSize <= |image|
    ensures var d := ViewOf(image, sb, gd);
      Bits(image[b * sb.blockSize..b * sb.blockSize + sb.blockSize]) == if b == 2 then d.blockBits else d.inodeBits
  {
    Regions(image, sb, gd);
    hide InodesOf, DataOf, Bits, DecodeSuperblock, DecodeGroupDescriptor, FirstData, Holds;
    if b == 2 {
      assert Block(image, sb.blockSize, 2) == image[2 * sb.blockSize..2 * sb.blockSize + sb.blockSize];
    } else {
      assert Block(image, sb.blockSize, 3) == image[3 * sb.blockSize..3 * sb.blockSize + sb.blockSize];
    }
  }

  lemma HoldsAfter(image: seq<byte>, image': seq<byte>, sb: Superblock, gd: GroupDescriptor)
    requires Holds(image, sb, gd) && |image'| == |image|
    ensures Holds(image', sb, gd)
  {
  }

  /** A write outside `[lo, hi)` leaves those bytes alone. */
  lemma Outside(image: seq<byte>, off: nat, bs: seq<byte>, lo: nat, hi: nat)
    requires off + |bs| <= |image| && lo <= hi <= |image| && (hi <= off || off + |bs| <= lo)
    ensures Put(image, off, bs)[lo..hi] == image[lo..hi]
  {
    PutSlice(image, off, bs, lo, hi);
  }

  lemma InodesOutside(image: seq<byte>, off: nat, bs: seq<byte>, blockSize: nat, n: nat)
    requires off + |bs| <= |image| && InodeOffset(blockSize, n) <= |image|
    requires off + |bs| <= InodeOffset(blockSize, 0) || InodeOffset(blockSize, n) <= off
    ensures InodesOf(Put(image, off, bs), blockSize, n) == InodesOf(image, blockSize, n)
  {
    hide Fields, Put;
    forall i | 0 <= i < n ensures InodesOf(Put(image, off, bs), blockSize, n)[i] == InodesOf(image, blockSize, n)[i] {
      Outside(image, off, bs, InodeOffset(blockSize, i), InodeOffset(blockSize, i) + INODE_SIZE);
    }
  }

  lemma DataOutside(image: seq<byte>, off: nat, bs: seq<byte>, blockSize: nat, first: nat, total: nat)
    requires off + |bs| <= |image| && total * blockSize <= |image| && off + |bs| <= first * blockSize
    ensures DataOf(Put(image, off, bs), blockSize, first, total) == DataOf(image, blockSize, first, total)
  {
    hide Put;
    var a, b := DataOf(Put(image, off, bs), blockSize, first, total), DataOf(image, blockSize, first, total);
    forall k | 0 <= k < total ensures a[k] == b[k] {
      if k >= first {
        MulMono(first, k, blockSize);
        MulMono(k + 1, total, blockSize);
        Outside(image, off, bs, k * blockSize, k * blockSize + blockSize);
      }
    }
  }

  lemma BlockOutside(image: seq<byte>, off: nat, bs: seq<byte>, blockSize: nat, b: nat)
    requires off + |bs| <= |image| && InImage(image, blockSize, b)
    requires b * blockSize + blockSize <= off || off + |bs| <= b * blockSize
    ensures Block(Put(image, off, bs), blockSize, b) == Block(image, blockSize, b)
  {
    hide Put;
    var lo := b * blockSize;
    assert lo + blockSize <= |image|;
    OutsideAt(image, off, bs, lo, blockSize);
  }

  lemma OutsideAt(image: seq<byte>, off: nat, bs: seq<byte>, lo: nat, n: nat)
    requires off + |bs| <= |image| && lo + n <= |image| && (lo + n <= off || off + |bs| <= lo)
    ensures Put(image, off, bs)[lo..lo + n] == image[lo..lo + n]
  {
    PutSlice(image, off, bs, lo, lo + n);
  }

  lemma BlockWritten(image: seq<byte>, bs: seq<byte>, blockSize: nat, b: nat)
    requires InImage(image, blockSize, b) && |bs| == blockSize
    ensures b * blockSize + blockSize <= |image| && Block(Put(image, b * blockSize, bs), blockSize, b) == bs
  {
    PutSlice(image, b * blockSize, bs, b * blockSize, b * blockSize + blockSize);
  }

  // ----- one write, one change -----

  lemma WriteSuperblock(image: seq<byte>, sb: Superblock, gd: GroupDescriptor, bs: seq<byte>)
    requires Holds(image, sb, gd) && |bs| == SUPERBLOCK_SIZE
    ensures SUPERBLOCK_OFFSET + |bs| <= |image|
    ensures ViewOf(Put(image, SUPERBLOCK_OFFSET, bs), sb, gd) ==
      ViewOf(image, sb, gd).(storedSb := DecodeSuperblock(bs))
  {
    hide Put, Block, InodesOf, DataOf, Bits, DecodeSuperblock, DecodeGroupDescriptor, Geometry, FirstData;
    Regions(image, sb, gd);
    var size, off := sb.blockSize, SUPERBLOCK_OFFSET;
    PutSlice(image, off, bs, off, off + |bs|);
    Outside(image, off, bs, size, size + GDT_ENTRY);
    BlockOutside(image, off, bs, size, 2);
    BlockOutside(image, off, bs, size, 3);
    InodesOutside(image, off, bs, size, sb.inodesCount);
    DataOutside(image, off, bs, size, FirstData(sb), sb.blocksCount);
  }

  lemma WriteGroupDescriptor(image: seq<byte>, sb: Superblock, gd: GroupDescriptor, bs: seq<byte>)
    requires Holds(image, sb, gd) && |bs| == GDT_ENTRY
    ensures sb.blockSize + |bs| <= |image|
    ensures ViewOf(Put(image, sb.blockSize, bs), sb, gd) ==
      ViewOf(image, sb, gd).(storedGd := DecodeGroupDescriptor(bs, GDT_ENTRY_SIZE_32))
  {
    hide Put, Block, InodesOf, DataOf, Bits, DecodeSuperblock, DecodeGroupDescriptor, Geometry, FirstData;
    Regions(image, sb, gd);
    var size := sb.blockSize;
    PutSlice(image, size, bs, size, size + GDT_ENTRY);
    Outside(image, size, bs, SUPERBLOCK_OFFSET, SUPERBLOCK_OFFSET + SUPERBLOCK_SIZE);
    BlockOutside(image, size, bs, size, 2);
    BlockOutside(image, size, bs, size, 3);
    InodesOutside(image, size, bs, size, sb.inodesCount);
    DataOutside(image, size, bs, size, FirstData(sb), sb.blocksCount);
  }

  lemma WriteBitmap(image: seq<byte>, sb: Superblock, gd: GroupDescriptor, b: nat, bs: seq<byte>)
    requires Holds(image, sb, gd) && (b == 2 || b == 3) && |bs| == sb.blockSize
    ensures b * sb.blockSize + |bs| <= |image|
    ensures ViewOf(Put(image, b * sb.blockSize, bs), sb, gd) ==
            if b == 2 then ViewOf(image, sb, gd).(blockBits := Bits(bs))
              else ViewOf(image, sb, gd).(inodeBits := Bits(bs))
  {
    hide Put, Block, InodesOf, DataOf, Bits, DecodeSuperblock, DecodeGroupDescriptor, Geometry, FirstData;
    Regions(image, sb, gd);
    var size := sb.blockSize;
    BlockWritten(image, bs, size, b);
    BlockOutside(image, b * size, bs, size, 5 - b);
    Outside(image, b * size, bs, SUPERBLOCK_OFFSET, SUPERBLOCK_OFFSET + SUPERBLOCK_SIZE);
    Outside(image, b * size, bs, size, size + GDT_ENTRY);
    InodesOutside(image, b * size, bs, size, sb.inodesCount);
    DataOutside(image, b * size, bs, size, FirstData(sb), sb.blocksCount);
  }

  lemma WriteInodeRecord(image: seq<byte>, sb: Superblock, gd: GroupDescriptor, k: nat, bs: seq<byte>)
    requires Holds(image, sb, gd) && 1 <= k <= sb.inodesCount && |bs| == INODE_SIZE
    ensures InodeOffset(sb.blockSize, k - 1) + |bs| <= |image|
    ensures ViewOf(Put(image, InodeOffset(sb.blockSize, k - 1), bs), sb, gd) ==
      PutInode(ViewOf(image, sb, gd), k, Fields(bs))
  {
    hide Put, Block, InodesOf, DataOf, Bits, DecodeSuperblock, DecodeGroupDescriptor, Geometry, FirstData, Fields;
    Regions(image, sb, gd);
    var size, off := sb.blockSize, InodeOffset(sb.blockSize, k - 1);
    InodeWritten(image, size, sb.inodesCount, k, bs);
    Outside(image, off, bs, SUPERBLOCK_OFFSET, SUPERBLOCK_OFFSET + SUPERBLOCK_SIZE);
    Outside(image, off, bs, size, size + GDT_ENTRY);
    BlockOutside(image, off, bs, size, 2);
    BlockOutside(image, off, bs, size, 3);
    DataOutside(image, off, bs, size, FirstData(sb), sb.blocksCount);
  }

  lemma InodeWritten(image: seq<byte>, blockSize: nat, n: nat, k: nat, bs: seq<byte>)
    requires InodeOffset(blockSize, n) <= |image| && 1 <= k <= n && |bs| == INODE_SIZE
    ensures InodeOffset(blockSize, k - 1) + |bs| <= |image|
    ensures InodesOf(Put(image, InodeOffset(blockSize, k - 1), bs), blockSize, n) ==
      InodesOf(image, blockSize, n)[k - 1 := Fields(bs)]
  {
    hide Put, Fields;
    var off := InodeOffset(blockSize, k - 1);
    forall i | 0 <= i < n
      ensures InodesOf(Put(image, off, bs), blockSize, n)[i] == InodesOf(image, blockSize, n)[k - 1 := Fields(bs)][i]
    {
      PutSlice(image, off, bs, InodeOffset(blockSize, i), InodeOffset(blockSize, i) + INODE_SIZE);
    }
  }

  /** Consecutive blocks, end to end. */
  function Concat(blocks: seq<seq<byte>>): seq<byte> {
    if |blocks| == 0 then [] else Concat(blocks[..|blocks| - 1]) + blocks[|blocks| - 1]
  }

  predicate AllSized(blocks: seq<seq<byte>>, size: nat) {
    forall j :: 0 <= j < |blocks| ==> |blocks[j]| == size
  }

  lemma SliceFront(a: seq<byte>, b: seq<byte>, lo: nat, hi: nat)
    requires lo <= hi <= |a|
    ensures (a + b)[lo..hi] == a[lo..hi]
  {
  }

  lemma SliceBack(a: seq<byte>, b: seq<byte>)
    ensures (a + b)[|a|..|a| + |b|] == b
  {
  }

  lemma MulStep(n: nat, size: nat)
    ensures (n + 1) * size == n * size + size
  {
  }

  lemma {:induction false} ConcatLen(blocks: seq<seq<byte>>, size: nat)
    requires AllSized(blocks, size)
    ensures |Concat(blocks)| == |blocks| * size
  {
    if |blocks| > 0 {
      ConcatLen(blocks[..|blocks| - 1], size);
      MulStep(|blocks| - 1, size);
    }
  }

  lemma {:induction false} ConcatAt(blocks: seq<seq<byte>>, size: nat, j: nat)
    requires AllSized(blocks, size)
    ensures |Concat(blocks)| == |blocks| * size
    ensures j < |blocks| ==>
      j * size + size <= |Concat(blocks)| && Concat(blocks)[j * size..j * size + size] == blocks[j]
  {
    ConcatLen(blocks, size);
    if j < |blocks| {
      var n := |blocks| - 1;
      var front, lo := Concat(blocks[..n]), j * size;
      assert Concat(blocks) == front + blocks[n] && |blocks[n]| == size;
      if j < n {
        ConcatAt(blocks[..n], size, j);
        SliceFront(front, blocks[n], lo, lo + size);
      } else {
        ConcatLen(blocks[..n], size);
        assert |blocks[..n]| == j && lo == |front|;
        SliceBack(front, blocks[n]);
      }
    }
  }

  lemma WriteData(image: seq<byte>, sb: Superblock, gd: GroupDescriptor, start: nat, blocks: seq<seq<byte>>)
    requires Holds(image, sb, gd) && FirstData(sb) <= start && start + |blocks| <= sb.blocksCount
    requires AllSized(blocks, sb.blockSize)
    ensures start * sb.blockSize + |Concat(blocks)| <= |image|
    ensures ViewOf(Put(image, start * sb.blockSize, Concat(blocks)), sb, gd) ==
      PutData(ViewOf(image, sb, gd), start, blocks)
  {
    hide Put, Block, InodesOf, DataOf, Bits, DecodeSuperblock, DecodeGroupDescriptor, Geometry, FirstData, Fields;
    hide Concat;
    Regions(image, sb, gd);
    var size := sb.blockSize;
    var bs, off := Concat(blocks), start * size;
    ConcatAt(blocks, size, 0);
    MulMono(FirstData(sb), start, size);
    MulMono(start + |blocks|, sb.blocksCount, size);
    assert (start + |blocks|) * size == off + |bs|;
    Outside(image, off, bs, SUPERBLOCK_OFFSET, SUPERBLOCK_OFFSET + SUPERBLOCK_SIZE);
    Outside(image, off, bs, size, size + GDT_ENTRY);
    BlockOutside(image, off, bs, size, 2);
    BlockOutside(image, off, bs, size, 3);
    InodesOutside(image, off, bs, size, sb.inodesCount);
    DataWritten(image, size, FirstData(sb), sb.blocksCount, start, blocks);
  }

  lemma DataWritten(image: seq<byte>, size: nat, first: nat, total: nat, start: nat, blocks: seq<seq<byte>>)
    requires total * size <= |image| && first <= start && start + |blocks| <= total && AllSized(blocks, size)
    requires start * size + |Concat(blocks)| <= |image|
    ensures DataOf(Put(image, start * size, Concat(blocks)), size, first, total) ==
      PutRun(DataOf(image, size, first, total), start, blocks)
  {
    hide Put, Concat;
    var bs, off := Concat(blocks), start * size;
    var a, b := DataOf(Put(image, off, bs), size, first, total),
      PutRun(DataOf(image, size, first, total), start, blocks);
    forall k | 0 <= k < total ensures a[k] == b[k] {
      if k >= first {
        DataWrittenAt(image, size, total, start, blocks, k);
      }
    }
  }

  lemma DataWrittenAt(image: seq<byte>, size: nat, total: nat, start: nat, blocks: seq<seq<byte>>, k: nat)
    requires total * size <= |image| && start + |blocks| <= total && AllSized(blocks, size) && k < total
    requires start * size + |Concat(blocks)| <= |image|
    ensures InImage(image, size, k)
    ensures Block(Put(image, start * size, Concat(blocks)), size, k) ==
            if start <= k < start + |blocks| then blocks[k - start] else Block(image, size, k)
  {
    hide Put, Concat, Block, InImage;
    BlockInside(image, size, total, k);
    ConcatAt(blocks, size, if start <= k < start + |blocks| then k - start else 0);
    if start <= k < start + |blocks| {
      RunWrittenAt(image, size, start, Concat(blocks), k - start, blocks[k - start]);
    } else {
      RunMisses(image, size, start, |blocks|, Concat(blocks), k);
    }
  }

  lemma RunMisses(image: seq<byte>, size: nat, start: nat, n: nat, bs: seq<byte>, k: nat)
    requires start * size + |bs| <= |image| && |bs| == n * size && InImage(image, size, k)
    requires (k < start || start + n <= k)
    ensures Block(Put(image, start * size, bs), size, k) == Block(image, size, k)
  {
    assert (start + n) * size == start * size + n * size;
    if k < start {
      MulMono(k + 1, start, size);
    } else {
      MulMono(start + n, k, size);
    }
    hide Put;
    BlockOutside(image, start * size, bs, size, k);
  }

  lemma BlockInside(image: seq<byte>, size: nat, total: nat, k: nat)
    requires total * size <= |image| && k < total
    ensures InImage(image, size, k)
  {
    MulMono(k + 1, total, size);
  }

  /** Block `j` of what was written, at its place in the image. */
  lemma RunWrittenAt(image: seq<byte>, size: nat, start: nat, bs: seq<byte>, j: nat, block: seq<byte>)
    requires start * size + |bs| <= |image| && j * size + size <= |bs| && bs[j * size..j * size + size] == block
    ensures InImage(image, size, start + j) && Block(Put(image, start * size, bs), size, start + j) == block
  {
    var off := start * size;
    assert (start + j) * size == off + j * size;
    PutSlice(image, off, bs, off, off + |bs|);
    SliceOfSlice(Put(image, off, bs), off, off + |bs|, j * size, size);
  }

  lemma SliceOfSlice(s: seq<byte>, lo: nat, hi: nat, at: nat, n: nat)
    requires lo <= hi <= |s| && at + n <= hi - lo
    ensures s[lo + at..lo + at + n] == s[lo..hi][at..at + n]
  {
    var a, b := s[lo + at..lo + at + n], s[lo..hi][at..at + n];
    assert |a| == |b| && forall i :: 0 <= i < n ==> a[i] == b[i];
  }

  // ----- what reading yields -----

  /** A node's bytes: a directory's block, a file's blocks up to its size, a link's target. */
  predicate HasContent(node: Node) {
    match node
    case Dir(_, es) => AllEncodable(es)
    case File(_, size, blocks) => size <= |Concat(blocks)|
    case Link(_) => true
  }

  function Content(node: Node): seq<byte>
    requires HasContent(node)
  {
    match node
    case Dir(_, es) => Pack(es)
    case File(_, size, blocks) => Concat(blocks)[..size]
    case Link(target) => target
  }

  /** A run's leaf maps block by block, and nothing past its end. */
  lemma ResolveRun(image: seq<byte>, blockSize: nat, start: nat, n: nat, logical: u32)
    requires start < 0x1_0000_0000_0000 && n <= UNINIT_THRESHOLD
    ensures Resolve(image, blockSize, RunLeaf(start, n), logical, MAX_EXTENT_DEPTH + 1) ==
            Ok(if logical < n then Some(start + logical) else None)
  {
    var es := if n == 0 then [] else [Extent(0, n, start, false)];
    LeafRoundTrip(es);
    hide DecodeNode, LeafBlock;
    if n > 0 {
      assert es[1..] == [] && MapBlock([], logical) == None;
    }
    assert MapBlock(es, logical) == if logical < n then Some(start + logical) else None;
    assert Resolve(image, blockSize, LeafBlock(es), logical, MAX_EXTENT_DEPTH + 1) == Ok(MapBlock(es, logical));
  }

  /** The blocks of a view are the blocks of the image. */
  lemma ViewBlock(image: seq<byte>, sb: Superblock, gd: GroupDescriptor, b: nat)
    requires Holds(image, sb, gd) && FirstData(sb) <= b < sb.blocksCount
    ensures InImage(image, sb.blockSize, b) && b < |ViewOf(image, sb, gd).data|
    ensures b * sb.blockSize + sb.blockSize <= |image|
    ensures ViewOf(image, sb, gd).data[b] == image[b * sb.blockSize..b * sb.blockSize + sb.blockSize]
  {
    MulMono(b + 1, sb.blocksCount, sb.blockSize);
    hide Bits, InodesOf, DecodeSuperblock, DecodeGroupDescriptor, FirstData, Geometry;
    assert (b + 1) * sb.blockSize == b * sb.blockSize + sb.blockSize;
  }

  /** Block `j` of a run, as bytes of the image. */
  lemma ViewRunBlock(image: seq<byte>, sb: Superblock, gd: GroupDescriptor, start: nat, blocks: seq<seq<byte>>, j: nat)
    requires Holds(image, sb, gd) && FirstData(sb) <= start && start + |blocks| <= sb.blocksCount && j < |blocks|
    requires ViewOf(image, sb, gd).data[start..start + |blocks|] == blocks
    ensures (start + j) * sb.blockSize + sb.blockSize <= |image|
    ensures image[(start + j) * sb.blockSize..(start + j) * sb.blockSize + sb.blockSize] == blocks[j]
  {
    ViewBlock(image, sb, gd, start + j);
    assert |ViewOf(image, sb, gd).data| == sb.blocksCount;
    hide ViewOf, Holds, FirstData;
    assert ViewOf(image, sb, gd).data[start..start + |blocks|][j] == ViewOf(image, sb, gd).data[start + j];
  }

  lemma ConcatPrefix(blocks: seq<seq<byte>>, j: nat)
    requires j < |blocks|
    ensures Concat(blocks[..j + 1]) == Concat(blocks[..j]) + blocks[j]
  {
    assert blocks[..j + 1][..j] == blocks[..j];
  }

  /** `for i in 0..count { set_bit / clear_bit }` */
  method SetRun(buf: array<byte>, start: nat, count: nat, v: bool)
    requires start + count <= 8 * buf.Length
    modifies buf
    ensures Bits(buf[..]) == Fill(old(Bits(buf[..])), start, count, v)
  {
    hide GetBit;
    ghost var was := Bits(buf[..]);
    for i := 0 to count
      invariant Bits(buf[..]) == Fill(was, start, i, v)
    {
      ghost var before := Bits(buf[..]);
      hide Bits;
      if v {
        SetBit(buf, start + i);
      } else {
        ClearBit(buf, start + i);
      }
      assert Fill(was, start, i + 1, v) == before[start + i := v];
    }
  }

  lemma ConcatOne(block: seq<byte>)
    ensures Concat([block]) == block
  {
    assert [block][..0] == [] && Concat([]) == [];
  }

  lemma PutOne(d: Disk, b: nat, block: seq<byte>)
    requires b < |d.data|
    ensures PutData(d, b, [block]) == PutBlock(d, b, block)
  {
  }

  // ----- the blocks of a new file -----

  /** `bs` cut into `n` blocks. */
  function Chunks(bs: seq<byte>, size: nat, n: nat): (r: seq<seq<byte>>)
    requires |bs| == n * size
    ensures |r| == n && AllSized(r, size)
    decreases n
  {
    if n == 0 then [] else
    var front := (n - 1) * size;
    Chunks(bs[..front], size, n - 1) + [bs[front..]]
  }

  lemma {:induction false} ChunksConcat(bs: seq<byte>, size: nat, n: nat)
    requires |bs| == n * size
    ensures Concat(Chunks(bs, size, n)) == bs
    decreases n
  {
    if n > 0 {
      var front := (n - 1) * size;
      ChunksConcat(bs[..front], size, n - 1);
      var cs := Chunks(bs, size, n);
      assert cs[..|cs| - 1] == Chunks(bs[..front], size, n - 1);
    }
  }

  /** `data` padded with zeros to whole blocks. */
  function Padded(data: seq<byte>, size: nat): (r: seq<byte>)
    requires size > 0
    ensures |data| <= |r| == DivCeil(|data|, size) * size && r[..|data|] == data
  {
    data + Zeros(DivCeil(|data|, size) * size - |data|)
  }

  function FileBlocks(data: seq<byte>, size: nat): seq<seq<byte>>
    requires size > 0
  {
    Chunks(Padded(data, size), size, DivCeil(|data|, size))
  }

  /** What create_file stores reads back as `data`, in exactly as many blocks as the
      size needs; the last block is padded with zeros. */
  lemma FileBlocksHold(data: seq<byte>, size: nat)
    requires size > 0
    ensures var blocks := FileBlocks(data, size);
      && |blocks| == DivCeil(|data|, size) && AllSized(blocks, size)
      && Concat(blocks) == Padded(data, size) && |data| <= |Concat(blocks)| && Concat(blocks)[..|data|] == data
  {
    hide Padded, Concat, Chunks;
    ChunksConcat(Padded(data, size), size, DivCeil(|data|, size));
  }
}
