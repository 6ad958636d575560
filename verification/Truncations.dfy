/** What truncate does to a file: the cut leaf, the freed run, the bytes that remain. */
module Truncations {
  import opened Bytes
  import opened Results
  import opened Paths
  import opened Extents
  import opened ExtentTrees
  import opened Inodes
  import opened Superblocks
  import opened Catalogs
  import opened Moves
  import opened Disks
  import opened DiskSteps
  import opened DiskFacts
  import opened DiskMoves
  import opened Images
  import opened Removals

  const TRUNCATION_TIME: u32 := 0x6500_0000

  /** The bytes `n` blocks hold. */
  function Capacity(n: nat, blockSize: nat): nat { n * blockSize }

  /** The 512-byte sectors `n` blocks take. */
  function Sectors(n: nat, blockSize: nat): nat { n * blockSize / 512 }

  /** Why truncate refuses: growing stops at the blocks the file already has. */
  function TruncateFault(blockSize: nat, nodes: map<nat, Node>, path: seq<byte>, newSize: nat): Option<Error> {
    match WalkPath(nodes, Components(path), ROOT)
    case Err(e) => Some(e)
    case Ok(k) =>
      if k !in nodes || !nodes[k].File? then Some(NotARegularFile(k))
      else if newSize > nodes[k].size && newSize > Capacity(|nodes[k].blocks|, blockSize) then Some(UnsupportedV0)
      else None
  }

  /** The file keeps its first `keep` blocks and nobody owns the rest. */
  function Cut(c: Catalog, k: nat, size: nat, keep: nat): Catalog
    requires k in c.nodes && c.nodes[k].File? && keep <= |c.nodes[k].blocks|
  {
    Resize(c, k, size, keep).(lostBlocks := c.lostBlocks)
  }

  /** One record changed, in its size, its mapping and two of its times. */
  predicate RecordResized(d: Disk, d': Disk, k: nat) {
    && 1 <= k <= |d.inodes| == |d'.inodes| && d'.inodes == d.inodes[k - 1 := d'.inodes[k - 1]]
    && var i, j := d.inodes[k - 1], d'.inodes[k - 1];
       j == i.(size := j.size, blocksLo := j.blocksLo, block := j.block, mtime := j.mtime, ctime := j.ctime)
  }

  /** Both times a truncation sets. */
  predicate Stamped(d: Disk, k: nat) {
    1 <= k <= |d.inodes| && d.inodes[k - 1].mtime == 0x6500_0000 && d.inodes[k - 1].ctime == 0x6500_0000
  }

  /** truncate, finished. Only this file changed; nothing at all if the size was already right. */
  ghost predicate Truncated(d: Disk, c: Catalog, path: seq<byte>, newSize: nat, d': Disk, c': Catalog)
    requires d.sb.blockSize > 0
  {
    && WalkPath(c.nodes, Components(path), ROOT).Ok?
    && var k := WalkPath(c.nodes, Components(path), ROOT).value;
    && k in c.nodes && c.nodes[k].File? && DivCeil(newSize, d.sb.blockSize) <= |c.nodes[k].blocks|
    && c' == Cut(c, k, newSize, DivCeil(newSize, d.sb.blockSize)) && RecordResized(d, d', k)
    && (if newSize == c.nodes[k].size then d' == d else Coherent(d') && Stamped(d', k))
  }

  lemma SameRecord(d: Disk, k: nat)
    requires 1 <= k <= |d.inodes|
    ensures RecordResized(d, d, k)
  {
  }

  // ----- block counts -----

  lemma CeilMono(a: nat, b: nat, size: nat)
    requires size > 0 && a <= b
    ensures DivCeil(a, size) <= DivCeil(b, size)
  {
    var p, q := DivCeil(a, size), DivCeil(b, size);
    if p > q {
      MulMono(q, p - 1, size);
    }
  }

  /** Growing inside the last block needs no new block. */
  lemma GrowKeepsCount(was: nat, now: nat, size: nat)
    requires size > 0 && was <= now <= DivCeil(was, size) * size
    ensures DivCeil(now, size) == DivCeil(was, size)
  {
    CeilMono(was, now, size);
    var p, q := DivCeil(was, size), DivCeil(now, size);
    if q > p {
      MulMono(p, q - 1, size);
    }
  }

  // ----- the leaf -----

  /** Cutting the one run a file has. */
  lemma CutRun(start: nat, n: nat, keep: nat)
    requires keep <= n && start + n <= 0x8000
    ensures var es := if n == 0 then [] else [Extent(0, n, start, false)];
      && |KeptAll(es, keep)| <= 1 && LeafBlock(KeptAll(es, keep)) == RunLeaf(start, keep)
      && TotalLen(KeptAll(es, keep)) == keep
      && (forall i :: 0 <= i < |KeptAll(es, keep)| ==> KeptAll(es, keep)[i].len <= UNINIT_THRESHOLD)
      && FreedAll(es, keep) == if keep == n then [] else [Run(start + keep, n - keep)]
  {
    hide KeptAll, FreedAll, TotalLen, LeafBlock;
    OneCut(Extent(0, n, start, false), keep);
    var es := if n == 0 then [] else [Extent(0, n, start, false)];
    if keep == 0 {
      assert KeptAll(es, keep) == [];
    } else {
      assert KeptAll(es, keep) == [Extent(0, keep, start, false)];
    }
  }

  /** A leaf of one extent, cut. */
  lemma OneCut(e: Extent, keep: nat)
    ensures KeptAll([e], keep) == match Kept(e, keep) case None => [] case Some(x) => [x]
    ensures FreedAll([e], keep) == match Freed(e, keep) case None => [] case Some(run) => [run]
    ensures KeptAll([], keep) == [] && FreedAll([], keep) == [] && TotalLen([]) == 0
    ensures Kept(e, keep).Some? ==> TotalLen([Kept(e, keep).value]) == Kept(e, keep).value.len
  {
    assert [e][..0] == [];
    hide Kept, Freed;
    if Kept(e, keep).Some? {
      assert [Kept(e, keep).value][..0] == [];
    }
  }

  // ----- the bytes -----

  lemma {:induction false} ConcatPrefixes(blocks: seq<seq<byte>>, keep: nat)
    requires keep <= |blocks|
    ensures |Concat(blocks[..keep])| <= |Concat(blocks)|
    ensures Concat(blocks)[..|Concat(blocks[..keep])|] == Concat(blocks[..keep])
    decreases |blocks|
  {
    if keep < |blocks| {
      var front := blocks[..|blocks| - 1];
      assert front[..keep] == blocks[..keep];
      ConcatPrefixes(front, keep);
    } else {
      assert blocks[..keep] == blocks;
    }
  }

  /** Whatever was cut before, a file reads as a prefix of its backing blocks. */
  lemma CutReads(f: Node, newSize: nat, keep: nat, size: nat)
    requires f.File? && size > 0 && AllSized(f.blocks, size) && keep == DivCeil(newSize, size) <= |f.blocks|
    ensures var g := File(f.start, newSize, f.blocks[..keep]);
      HasContent(g) && newSize <= |Concat(f.blocks)| && Content(g) == Concat(f.blocks)[..newSize]
  {
    ConcatPrefixes(f.blocks, keep);
    ConcatAt(f.blocks[..keep], size, 0);
    var whole, kept := Concat(f.blocks), Concat(f.blocks[..keep]);
    assert newSize <= |kept| <= |whole|;
    assert kept[..newSize] == whole[..|kept|][..newSize] == whole[..newSize];
  }

  /** Growing reads zeros exactly when the backing bytes there are zero: truncate clears none. */
  lemma GrowReads(f: Node, newSize: nat, size: nat)
    requires f.File? && size > 0 && AllSized(f.blocks, size) && f.size <= newSize
    requires DivCeil(newSize, size) == |f.blocks|
    ensures var g := File(f.start, newSize, f.blocks[..|f.blocks|]);
      && newSize <= |Concat(f.blocks)| && HasContent(f) && HasContent(g) && Content(f) <= Content(g)
      && |Content(g)| == newSize
      && (Content(g) == Content(f) + Zeros(newSize - f.size) <==>
            forall i :: f.size <= i < newSize ==> Concat(f.blocks)[i] == 0)
  {
    CutReads(f, newSize, |f.blocks|, size);
    var whole := Concat(f.blocks);
    assert f.blocks[..|f.blocks|] == f.blocks;
    var g := whole[..newSize];
    if forall i :: f.size <= i < newSize ==> whole[i] == 0 {
      assert g == whole[..f.size] + Zeros(newSize - f.size);
    } else {
      var i :| f.size <= i < newSize && whole[i] != 0;
      assert g[i] != (whole[..f.size] + Zeros(newSize - f.size))[i];
    }
  }

  /** Shrinking and then growing back exposes the bytes that were cut off. */
  lemma ShrinkThenGrow(f: Node, small: nat, size: nat)
    requires f.File? && size > 0 && AllSized(f.blocks, size) && DivCeil(f.size, size) == |f.blocks|
    requires small <= f.size && DivCeil(small, size) == |f.blocks|
    ensures var cut := File(f.start, small, f.blocks[..|f.blocks|]);
      var back := File(cut.start, f.size, cut.blocks[..|f.blocks|]);
      HasContent(f) && HasContent(back) && Content(back) == Content(f)
  {
    assert f.blocks[..|f.blocks|] == f.blocks;
    CutReads(f, f.size, |f.blocks|, size);
  }

  /** A file as create_file left it grows with zeros. */
  lemma GrowFresh(data: seq<byte>, start: nat, newSize: nat, size: nat)
    requires size > 0 && |data| <= newSize <= |FileBlocks(data, size)| * size
    ensures var g := File(start, newSize, FileBlocks(data, size));
      HasContent(g) && Content(g) == data + Zeros(newSize - |data|)
  {
    FileBlocksHold(data, size);
    hide Concat, FileBlocks;
    assert Padded(data, size) == data + Zeros(DivCeil(|data|, size) * size - |data|);
  }

  // ----- the disk -----

  function CutRuns(f: Node, keep: nat): seq<Run>
    requires f.File? && keep <= |f.blocks|
  {
    if keep == |f.blocks| then [] else [Run(f.start + keep, |f.blocks| - keep)]
  }

  /** A live file's record carries the one extent of its run. */
  lemma FileLeafIs(size: nat, i: Inode, data: seq<seq<byte>>, f: Node)
    requires size > 0 && f.File? && NodeOnDisk(size, i, data, f)
    ensures i.UsesExtents() && i.IsRegular() && i.size == f.size && f.start + |f.blocks| <= |data| <= 0x8000
    ensures |f.blocks| == DivCeil(f.size, size)
    ensures DecodeNode(i.block).Ok? && DecodeNode(i.block).value.Leaf?
    ensures DecodeNode(i.block).value.extents == if |f.blocks| == 0 then [] else [Extent(0, |f.blocks|, f.start, false)]
  {
    var es := if |f.blocks| == 0 then [] else [Extent(0, |f.blocks|, f.start, false)];
    LeafRoundTrip(es);
    hide DecodeNode, LeafBlock;
  }

  /** The rewritten record says the file that is left. */
  lemma CutOnDisk(size: nat, i: Inode, data: seq<seq<byte>>, f: Node, newSize: u64, keep: nat, i': Inode)
    requires size > 0 && f.File? && NodeOnDisk(size, i, data, f) && keep == DivCeil(newSize, size) <= |f.blocks|
    requires Sectors(keep, size) < 0x1_0000_0000
    requires i' ==
      i.(size := newSize, blocksLo := Sectors(keep, size), block := RunLeaf(f.start, keep), mtime := i'.mtime,
        ctime := i'.ctime)
    ensures NodeOnDisk(size, i', data, File(f.start, newSize, f.blocks[..keep]))
  {
    hide RunLeaf;
    assert data[f.start..f.start + keep] == data[f.start..f.start + |f.blocks|][..keep];
  }

  lemma SectorsFit(keep: nat, size: nat)
    requires keep <= 0x8000 && (size == 2048 || size == 4096)
    ensures Sectors(keep, size) < 0x1_0000_0000
  {
  }

  lemma CutGivable(d: Disk, c: Catalog, k: nat, keep: nat)
    requires Core(d, c) && k in c.nodes && c.nodes[k].File? && keep <= |c.nodes[k].blocks|
    ensures Givable(d, CutRuns(c.nodes[k], keep))
  {
    hide *;
    RunsOnDevice(d, c, k);
    SubRun(d, c.nodes[k], keep);
  }

  lemma SubRun(d: Disk, f: Node, keep: nat)
    requires f.File? && keep <= |f.blocks| && Givable(d, RunsOf(f))
    ensures Givable(d, CutRuns(f, keep))
  {
    var n := |f.blocks|;
    if keep < n {
      assert [Run(f.start, n)][..0] == [] && [Run(f.start + keep, n - keep)][..0] == [];
      assert TotalRunLen([Run(f.start, n)]) == n && TotalRunLen([Run(f.start + keep, n - keep)]) == n - keep;
    }
  }

  /** Freeing the cut run and rewriting the record leaves the shorter file. */
  lemma CutCore(d: Disk, c: Catalog, k: nat, newSize: nat, keep: nat, i: Inode)
    requires Core(d, c) && k in c.nodes && c.nodes[k].File? && keep <= |c.nodes[k].blocks| && 1 <= k <= |d.inodes|
    requires NodeOnDisk(d.sb.blockSize, i, d.data, File(c.nodes[k].start, newSize, c.nodes[k].blocks[..keep]))
    ensures Givable(d, CutRuns(c.nodes[k], keep))
    ensures Core(PutInode(GiveRuns(d, CutRuns(c.nodes[k], keep)), k, i), Cut(c, k, newSize, keep))
  {
    hide Core, NodeOnDisk, RunBlocks, TotalRunLen, OwnOk, LostOk, BlockBitsOk, NodeBlocks, Cut, Givable, GiveRuns;
    hide PutInode, GiveBlocks, CutRuns;
    CutGivable(d, c, k, keep);
    OwnershipParts(d, c);
    CutShape(c, k, newSize, keep);
    ResizedNode(c, k, newSize, keep);
    ResizeCore(d, c, k, i, newSize, keep);
    hide Resize;
    CutSame(d, c.nodes[k], k, keep, i);
    var f := c.nodes[k];
    if keep < |f.blocks| {
      GiveBlocksCore(PutInode(d, k, i), Resize(c, k, newSize, keep), f.start + keep, |f.blocks| - keep);
    }
  }

  lemma ResizedNode(c: Catalog, k: nat, newSize: nat, keep: nat)
    requires k in c.nodes && c.nodes[k].File? && keep <= |c.nodes[k].blocks|
    ensures Resize(c, k, newSize, keep).nodes[k] == File(c.nodes[k].start, newSize, c.nodes[k].blocks[..keep])
  {
  }

  /** The record and the bits do not meet. */
  lemma CutSame(d: Disk, f: Node, k: nat, keep: nat, i: Inode)
    requires f.File? && keep <= |f.blocks| && 1 <= k <= |d.inodes| && Givable(d, CutRuns(f, keep))
    ensures |GiveRuns(d, CutRuns(f, keep)).inodes| == |d.inodes| && PutInode(d, k, i).sb == d.sb
    ensures keep == |f.blocks| ==> GiveRuns(d, CutRuns(f, keep)) == d
    ensures keep < |f.blocks| ==>
      var s, n := f.start + keep, |f.blocks| - keep;
      && s + n <= d.sb.blocksCount && s + n <= |PutInode(d, k, i).blockBits|
      && PutInode(d, k, i).gd.freeBlocksCount + n < 0x1_0000_0000
      && PutInode(d, k, i).sb.freeBlocksCount + n < 0x1_0000_0000_0000_0000
      && GiveBlocks(PutInode(d, k, i), s, n) == PutInode(GiveRuns(d, CutRuns(f, keep)), k, i)
  {
    hide TotalRunLen, Fill, GiveBlocks, GiveRuns, Givable;
    if keep < |f.blocks| {
      var run := Run(f.start + keep, |f.blocks| - keep);
      assert CutRuns(f, keep) == [run];
      GiveOne(d, run);
      GivableOne(d, run);
      PutThenGive(d, run.start, run.len, k, i);
    } else {
      GiveNone(d);
    }
  }

  lemma GivableOne(d: Disk, run: Run)
    requires Givable(d, [run])
    ensures run.start + run.len <= d.sb.blocksCount
  {
    assert [run][0] == run;
    hide TotalRunLen;
  }

  lemma GiveNone(d: Disk)
    requires Givable(d, [])
    ensures GiveRuns(d, []) == d
  {
  }

  lemma PutThenGive(d: Disk, s: nat, n: nat, k: nat, i: Inode)
    requires 1 <= k <= |d.inodes| && s + n <= |d.blockBits|
    requires d.gd.freeBlocksCount + n < 0x1_0000_0000 && d.sb.freeBlocksCount + n < 0x1_0000_0000_0000_0000
    ensures PutInode(d, k, i).blockBits == d.blockBits && PutInode(d, k, i).sb == d.sb && PutInode(d, k, i).gd == d.gd
    ensures GiveBlocks(d, s, n).inodes == d.inodes
    ensures GiveBlocks(PutInode(d, k, i), s, n) == PutInode(GiveBlocks(d, s, n), k, i)
  {
    hide Fill;
  }

  /** What resizing loses is what the cut gives back. */
  lemma CutShape(c: Catalog, k: nat, newSize: nat, keep: nat)
    requires OwnOk(c.nodes, c.own) && LostOk(c) && k in c.nodes && c.nodes[k].File? && keep <= |c.nodes[k].blocks|
    ensures var f := c.nodes[k]; var r := Resize(c, k, newSize, keep);
      && RunBlocks(f.start + keep, |f.blocks| - keep) <= r.lostBlocks
      && r.(lostBlocks := r.lostBlocks - RunBlocks(f.start + keep, |f.blocks| - keep)) == Cut(c, k, newSize, keep)
      && (keep == |f.blocks| ==> r == Cut(c, k, newSize, keep))
  {
    var f := c.nodes[k];
    var cut := RunBlocks(f.start + keep, |f.blocks| - keep);
    assert cut <= NodeBlocks(f);
    BlocksOwned(c.nodes, c.own, k);
    hide NodeBlocks, OwnOk;
    assert c.lostBlocks + cut - cut == c.lostBlocks;
  }

  /** A refused or needless truncation, and one that goes ahead. */
  lemma FaultCases(blockSize: nat, nodes: map<nat, Node>, path: seq<byte>, newSize: nat, k: nat)
    requires WalkPath(nodes, Components(path), ROOT) == Ok(k) && k in nodes && blockSize > 0
    ensures !nodes[k].File? ==> TruncateFault(blockSize, nodes, path, newSize) == Some(NotARegularFile(k))
    ensures nodes[k].File? && newSize > nodes[k].size && newSize > Capacity(|nodes[k].blocks|, blockSize) ==>
      TruncateFault(blockSize, nodes, path, newSize) == Some(UnsupportedV0)
    ensures nodes[k].File? && !(newSize > nodes[k].size && newSize > Capacity(|nodes[k].blocks|, blockSize)) ==>
      TruncateFault(blockSize, nodes, path, newSize) == None
  {
    hide WalkPath, Components;
  }

  lemma FaultWalk(blockSize: nat, nodes: map<nat, Node>, path: seq<byte>, newSize: nat)
    ensures WalkPath(nodes, Components(path), ROOT).Err? ==>
      TruncateFault(blockSize, nodes, path, newSize) == Some(WalkPath(nodes, Components(path), ROOT).error)
  {
    hide WalkPath, Components;
  }

  /** How many blocks are left: all of them when growing. */
  lemma KeepFits(f: Node, newSize: nat, size: nat)
    requires f.File? && size > 0 && |f.blocks| == DivCeil(f.size, size)
    requires (newSize <= f.size || newSize <= Capacity(|f.blocks|, size))
    ensures DivCeil(newSize, size) <= |f.blocks| && (newSize >= f.size ==> DivCeil(newSize, size) == |f.blocks|)
  {
    if newSize <= f.size {
      CeilMono(newSize, f.size, size);
    } else {
      GrowKeepsCount(f.size, newSize, size);
    }
  }

  /** Cutting nothing away changes nothing. */
  lemma CutNothing(c: Catalog, k: nat)
    requires k in c.nodes && c.nodes[k].File?
    ensures Cut(c, k, c.nodes[k].size, |c.nodes[k].blocks|) == c
  {
    var f := c.nodes[k];
    assert f.blocks[..|f.blocks|] == f.blocks;
    assert RunBlocks(f.start + |f.blocks|, 0) == {};
    assert c.own - {} == c.own;
  }

  lemma TruncatedIntro(d: Disk, c: Catalog, path: seq<byte>, newSize: nat, k: nat, d': Disk)
    requires RecordResized(d, d', k)
    requires d.sb.blockSize > 0 && WalkPath(c.nodes, Components(path), ROOT) == Ok(k) && k in c.nodes
    requires c.nodes[k].File?
    requires DivCeil(newSize, d.sb.blockSize) <= |c.nodes[k].blocks|
    requires if newSize == c.nodes[k].size then d' == d else Coherent(d') && Stamped(d', k)
    ensures Truncated(d, c, path, newSize, d', Cut(c, k, newSize, DivCeil(newSize, d.sb.blockSize)))
  {
    hide WalkPath, Components, Coherent;
  }

  /** The sizes a file of `size` bytes may be given. */
  predicate Allowed(size: nat, blockSize: nat, newSize: nat)
    requires blockSize > 0
  {
    newSize <= (size + blockSize - 1) / blockSize * blockSize
  }

  /** What a sound state makes of it: a file may be given any size within its last block. */
  lemma TruncateAnswers(d: Disk, c: Catalog, path: seq<byte>, newSize: nat)
    requires Core(d, c) && d.sb.blockSize > 0
    ensures TruncateFault(d.sb.blockSize, c.nodes, path, newSize) ==
      match WalkPath(c.nodes, Components(path), ROOT)
      case Err(e) => Some(e)
      case Ok(k) =>
        if k !in c.nodes || !c.nodes[k].File? then Some(NotARegularFile(k))
        else if Allowed(c.nodes[k].size, d.sb.blockSize, newSize) then None
        else Some(UnsupportedV0)
  {
    hide Core, Components, WalkPath, DivCeil;
    if WalkPath(c.nodes, Components(path), ROOT).Ok? {
      var k := WalkPath(c.nodes, Components(path), ROOT).value;
      if k in c.nodes && c.nodes[k].File? {
        FileCount(d, c, k);
        CeilIs(c.nodes[k].size, d.sb.blockSize);
      }
    }
  }

  /** In other words: as far as the file's own blocks reach. */
  lemma AllowedBytes(d: Disk, c: Catalog, k: nat, newSize: nat)
    requires Core(d, c) && d.sb.blockSize > 0 && k in c.nodes && c.nodes[k].File?
    ensures Allowed(c.nodes[k].size, d.sb.blockSize, newSize) <==> newSize <= |Concat(c.nodes[k].blocks)|
  {
    hide Core, DivCeil;
    var f := c.nodes[k];
    FileCount(d, c, k);
    CeilIs(f.size, d.sb.blockSize);
    FileSized(d, c, k);
    ConcatLen(f.blocks, d.sb.blockSize);
  }

  lemma FileSized(d: Disk, c: Catalog, k: nat)
    requires Core(d, c) && d.sb.blockSize > 0 && k in c.nodes && c.nodes[k].File?
    ensures AllSized(c.nodes[k].blocks, d.sb.blockSize)
  {
    hide Core, NodeOnDisk, FirstData, Geometry, Sized, CatalogOk, TreeOnDisk, BitmapsOk;
    var f := c.nodes[k];
    CoreParts(d, c);
    FileBacked(d, c, k);
    if |f.blocks| > 0 {
      FileIn(d, c, k);
    }
    forall j | 0 <= j < |f.blocks| ensures |f.blocks[j]| == d.sb.blockSize {
      assert f.blocks[j] == d.data[f.start..f.start + |f.blocks|][j] == d.data[f.start + j];
      BlockSized(d, f.start + j);
    }
  }

  lemma BlockSized(d: Disk, b: nat)
    requires Sized(d) && FirstData(d.sb) <= b < |d.data|
    ensures |d.data[b]| == d.sb.blockSize
  {
    hide FirstData;
  }

  lemma FileBacked(d: Disk, c: Catalog, k: nat)
    requires Core(d, c) && k in c.nodes && c.nodes[k].File?
    ensures var f := c.nodes[k];
      f.start + |f.blocks| <= |d.data| && d.data[f.start..f.start + |f.blocks|] == f.blocks
  {
    hide Core, RunLeaf;
    NodeIn(d, c, k);
  }

  lemma CeilIs(n: nat, size: nat)
    requires size > 0
    ensures DivCeil(n, size) == (n + size - 1) / size && DivCeil(n, size) * size >= n
  {
  }

  lemma FileCount(d: Disk, c: Catalog, k: nat)
    requires Core(d, c) && d.sb.blockSize > 0 && k in c.nodes && c.nodes[k].File?
    ensures |c.nodes[k].blocks| == DivCeil(c.nodes[k].size, d.sb.blockSize)
  {
    hide Core, RunLeaf;
    NodeIn(d, c, k);
  }

  lemma CutUp(c: Catalog, k: nat, newSize: nat, keep: nat)
    requires k in c.nodes && c.nodes[k].File? && keep <= |c.nodes[k].blocks|
    ensures Cut(c, k, newSize, keep).up == c.up
  {
  }

  /** A record that only changed its size and times: the grown file. */
  lemma GrownOnDisk(size: nat, i: Inode, data: seq<seq<byte>>, f: Node, newSize: u64)
    requires size > 0 && f.File? && NodeOnDisk(size, i, data, f) && DivCeil(newSize, size) == |f.blocks|
    ensures f.blocks[..|f.blocks|] == f.blocks
    ensures NodeOnDisk(size, i.(size := newSize, mtime := TRUNCATION_TIME, ctime := TRUNCATION_TIME), data,
      File(f.start, newSize, f.blocks))
  {
    hide RunLeaf;
  }

  lemma GrowCore(d: Disk, c: Catalog, k: nat, newSize: u64, i: Inode)
    requires Core(d, c) && k in c.nodes && c.nodes[k].File? && 1 <= k <= |d.inodes| && d.sb.blockSize > 0
    requires DivCeil(newSize, d.sb.blockSize) == |c.nodes[k].blocks|
    requires i == d.inodes[k - 1].(size := newSize, mtime := TRUNCATION_TIME, ctime := TRUNCATION_TIME)
    requires NodeOnDisk(d.sb.blockSize, d.inodes[k - 1], d.data, c.nodes[k])
    ensures Core(PutInode(d, k, i), Cut(c, k, newSize, |c.nodes[k].blocks|))
  {
    hide Core, NodeOnDisk, Cut, GiveRuns, Givable, PutInode, CutRuns;
    GrownOnDisk(d.sb.blockSize, d.inodes[k - 1], d.data, c.nodes[k], newSize);
    CutGivable(d, c, k, |c.nodes[k].blocks|);
    CutSame(d, c.nodes[k], k, |c.nodes[k].blocks|, i);
    CutCore(d, c, k, newSize, |c.nodes[k].blocks|, i);
  }

  lemma RunTotal(f: Node, es: seq<Extent>)
    requires f.File? && |f.blocks| < 0x1_0000 && f.start < 0x1_0000_0000_0000_0000
    requires es == if |f.blocks| == 0 then [] else [Extent(0, |f.blocks|, f.start, false)]
    ensures TotalLen(es) == |f.blocks|
  {
    if |es| == 1 {
      assert es[..0] == [] && TotalLen([]) == 0;
    }
  }

  /** Everything a shrink relies on, and what it comes to. */
  lemma ShrinkReady(d: Disk, c: Catalog, k: nat, newSize: u64, es: seq<Extent>)
    requires Core(d, c) && k in c.nodes && c.nodes[k].File? && 1 <= k <= |d.inodes| && newSize < c.nodes[k].size
    requires (d.sb.blockSize == 2048 || d.sb.blockSize == 4096)
    requires |c.nodes[k].blocks| == DivCeil(c.nodes[k].size, d.sb.blockSize)
    requires NodeOnDisk(d.sb.blockSize, d.inodes[k - 1], d.data, c.nodes[k])
    requires es == if |c.nodes[k].blocks| == 0 then [] else [Extent(0, |c.nodes[k].blocks|, c.nodes[k].start, false)]
    requires c.nodes[k].start + |c.nodes[k].blocks| <= 0x8000
    ensures ShrinkSteps(d, c, k, newSize, es, DivCeil(newSize, d.sb.blockSize))
  {
    hide Core, NodeOnDisk, CutRuns, Givable, Cut, ShrinkSteps, ShrinkDone;
    KeepFits(c.nodes[k], newSize, d.sb.blockSize);
    ShrinkStored(d, c, k, newSize, DivCeil(newSize, d.sb.blockSize));
    ShrinkLeaf(d, c, k, newSize, es, DivCeil(newSize, d.sb.blockSize));
  }

  ghost predicate ShrinkDone(d: Disk, c: Catalog, k: nat, newSize: u64, keep: nat)
    requires k in c.nodes && c.nodes[k].File? && 1 <= k <= |d.inodes| && keep <= |c.nodes[k].blocks| <= 0x8000
    requires c.nodes[k].start <= 0x8000
  {
    && Givable(d, CutRuns(c.nodes[k], keep)) && Sectors(keep, d.sb.blockSize) < 0x1_0000_0000
    && Core(PutInode(GiveRuns(d, CutRuns(c.nodes[k], keep)), k,
      ShrunkInode(d.inodes[k - 1], newSize, Sectors(keep, d.sb.blockSize), c.nodes[k].start, keep)),
            Cut(c, k, newSize, keep))
  }

  lemma ShrinkLeaf(d: Disk, c: Catalog, k: nat, newSize: u64, es: seq<Extent>, keep: nat)
    requires k in c.nodes && c.nodes[k].File? && 1 <= k <= |d.inodes| && keep <= |c.nodes[k].blocks|
    requires c.nodes[k].start + |c.nodes[k].blocks| <= 0x8000
    requires es == if |c.nodes[k].blocks| == 0 then [] else [Extent(0, |c.nodes[k].blocks|, c.nodes[k].start, false)]
    requires ShrinkDone(d, c, k, newSize, keep)
    ensures ShrinkSteps(d, c, k, newSize, es, keep)
  {
    hide Core, Sectors, RunLeaf, LeafBlock, Cut, Givable, GiveRuns, PutInode, KeptAll, FreedAll, TotalLen, ShrunkInode;
    CutRun(c.nodes[k].start, |c.nodes[k].blocks|, keep);
  }

  lemma ShrinkStored(d: Disk, c: Catalog, k: nat, newSize: u64, keep: nat)
    requires Core(d, c) && k in c.nodes && c.nodes[k].File? && 1 <= k <= |d.inodes|
    requires (d.sb.blockSize == 2048 || d.sb.blockSize == 4096)
    requires keep == DivCeil(newSize, d.sb.blockSize) <= |c.nodes[k].blocks|
    requires NodeOnDisk(d.sb.blockSize, d.inodes[k - 1], d.data, c.nodes[k])
    requires c.nodes[k].start + |c.nodes[k].blocks| <= 0x8000
    ensures ShrinkDone(d, c, k, newSize, keep)
  {
    hide Core, NodeOnDisk, Sectors, RunLeaf, LeafBlock, Cut, Givable, GiveRuns, PutInode, CutRuns;
    SectorsFit(keep, d.sb.blockSize);
    CutGivable(d, c, k, keep);
    var i := ShrunkInode(d.inodes[k - 1], newSize, Sectors(keep, d.sb.blockSize), c.nodes[k].start, keep);
    CutOnDisk(d.sb.blockSize, d.inodes[k - 1], d.data, c.nodes[k], newSize, keep, i);
    CutCore(d, c, k, newSize, keep, i);
  }

  /** The rewritten record. */
  function ShrunkInode(i: Inode, newSize: u64, sectors: u32, start: nat, keep: nat): Inode
    requires start < 0x1_0000_0000_0000_0000 && keep < 0x1_0000
  {
    i.(size := newSize, blocksLo := sectors, block := RunLeaf(start, keep), mtime := TRUNCATION_TIME,
      ctime := TRUNCATION_TIME)
  }

  ghost predicate ShrinkSteps(d: Disk, c: Catalog, k: nat, newSize: u64, es: seq<Extent>, keep: nat)
    requires k in c.nodes && c.nodes[k].File? && 1 <= k <= |d.inodes|
  {
    var f := c.nodes[k];
    && keep <= |f.blocks| && f.start < 0x1_0000_0000_0000_0000 && keep < 0x1_0000
    && Givable(d, FreedAll(es, keep)) && |KeptAll(es, keep)| <= 4
    && (forall i :: 0 <= i < |KeptAll(es, keep)| ==> KeptAll(es, keep)[i].len <= UNINIT_THRESHOLD)
    && LeafBlock(KeptAll(es, keep)) == RunLeaf(f.start, keep) && TotalLen(KeptAll(es, keep)) == keep
    && Sectors(keep, d.sb.blockSize) < 0x1_0000_0000
    && Core(PutInode(GiveRuns(d, FreedAll(es, keep)), k,
      ShrunkInode(d.inodes[k - 1], newSize, Sectors(keep, d.sb.blockSize), f.start, keep)),
            Cut(c, k, newSize, keep))
  }

  lemma NoSizeNoBlocks(size: nat)
    requires size > 0
    ensures DivCeil(0, size) == 0
  {
  }
}
