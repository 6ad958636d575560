/** What unlink and rmdir do to the disk, step by step, and that the disk then
    holds the catalog without the inode. */
module Removals {
  import opened Bytes
  import opened Results
  import opened DirEntries
  import opened DirBlocks
  import opened Listings
  import opened Paths
  import opened Extents
  import opened ExtentTrees
  import opened Inodes
  import opened Superblocks
  import opened Catalogs
  import opened Moves
  import opened Disks
  import opened DiskSteps
  import opened DiskMoves
  import opened DiskFacts
  import opened Operations

  const DELETION_TIME: u32 := 0x6500_0001

  /** The record an inode leaves behind. */
  function Deleted(i: Inode): Inode {
    i.(linksCount := 0, dtime := DELETION_TIME, size := 0, flags := 0, block := Zeros(I_BLOCK_LEN))
  }

  // ----- freeing runs one after another -----

  /** The runs lie on the device and the counters have room for them. */
  predicate Givable(d: Disk, runs: seq<Run>) {
    && d.sb.blocksCount <= |d.blockBits|
    && (forall i :: 0 <= i < |runs| ==> runs[i].start + runs[i].len <= d.sb.blocksCount)
    && d.gd.freeBlocksCount + TotalRunLen(runs) < 0x1_0000_0000
    && d.sb.freeBlocksCount + TotalRunLen(runs) < 0x1_0000_0000_0000_0000
  }

  function GiveRuns(d: Disk, runs: seq<Run>): (r: Disk)
    requires Givable(d, runs)
    ensures r == d.(blockBits := r.blockBits, gd := r.gd, sb := r.sb) && |r.blockBits| == |d.blockBits|
    ensures r.sb == d.sb.(freeBlocksCount := d.sb.freeBlocksCount + TotalRunLen(runs))
    ensures r.gd == d.gd.(freeBlocksCount := d.gd.freeBlocksCount + TotalRunLen(runs))
  {
    if |runs| == 0 then d else
    var front := GiveRuns(d, runs[..|runs| - 1]);
    GiveBlocks(front, runs[|runs| - 1].start, runs[|runs| - 1].len)
  }

  /** The blocks a node gives back. */
  function RunsOf(node: Node): seq<Run> {
    match node
    case Dir(b, _) => [Run(b, 1)]
    case File(start, _, blocks) => if |blocks| == 0 then [] else [Run(start, |blocks|)]
    case Link(_) => []
  }

  lemma RunsCover(node: Node)
    ensures BlocksOfRuns(RunsOf(node)) == NodeBlocks(node) && |RunsOf(node)| <= 1
  {
    var runs := RunsOf(node);
    if |runs| == 1 {
      assert runs[..0] == [];
      assert BlocksOfRuns(runs) == {} + RunBlocks(runs[0].start, runs[0].len);
    }
    if node.Dir? {
      assert RunBlocks(node.block, 1) == {node.block};
    }
  }

  lemma GiveOne(d: Disk, run: Run)
    requires Givable(d, [run])
    ensures run.start + run.len <= |d.blockBits|
    ensures d.gd.freeBlocksCount + run.len < 0x1_0000_0000 && d.sb.freeBlocksCount + run.len < 0x1_0000_0000_0000_0000
    ensures GiveRuns(d, [run]) == GiveBlocks(d, run.start, run.len)
  {
    assert [run][..0] == [];
    assert TotalRunLen([run]) == run.len;
  }

  // ----- removing an inode -----

  /** What the first writes of a removal need: `i` is the entry's place in `dir`'s records. */
  predicate Tearable(d: Disk, dir: Node, i: nat, node: Node, k: nat) {
    && dir.Dir? && i < |dir.entries| && (i > 0 ==> dir.entries[i - 1].recLen + dir.entries[i].recLen < 0x1_0000)
    && AllEncodable(Erase(dir.entries, i)) && dir.block < |d.data|
    && 1 <= k <= |d.inodes| && k <= |d.inodeBits|
    && Givable(d, RunsOf(node)) && d.gd.freeInodesCount + 1 < 0x1_0000_0000 && d.sb.freeInodesCount + 1 < 0x1_0000_0000
  }

  /** In the order of the writes: the blocks and the inode are freed, the record is
      marked deleted, the entry goes. */
  function TornDown(d: Disk, dir: Node, i: nat, node: Node, k: nat): Disk
    requires Tearable(d, dir, i, node, k)
  {
    var d1 := GiveInode(GiveRuns(d, RunsOf(node)), k);
    PutBlock(PutInode(d1, k, Deleted(d.inodes[k - 1])), dir.block, Pack(Erase(dir.entries, i)))
  }

  /** And a removed directory's parent loses a link, from the record read at the start. */
  function Unlinked(d: Disk, p: nat, parentInode: Inode): Disk
    requires 1 <= p <= |d.inodes|
  {
    WithDirs(PutInode(d, p, parentInode.(linksCount := Less(parentInode.linksCount, 1))), Less(d.gd.usedDirsCount, 1))
  }

  predicate Removable(d: Disk, c: Catalog, p: nat, name: Name, k: nat) {
    && CanErase(c.nodes, p, name) && AllEncodable(Erased(c, p, name)) && k in c.nodes && 1 <= p <= |d.inodes|
    && Tearable(d, c.nodes[p], Find(c.nodes[p].entries, name).value, c.nodes[k], k)
  }

  function RemovedDisk(d: Disk, c: Catalog, p: nat, name: Name, k: nat): Disk
    requires Removable(d, c, p, name, k)
  {
    var torn := TornDown(d, c.nodes[p], Find(c.nodes[p].entries, name).value, c.nodes[k], k);
    if c.nodes[k].Dir? then Unlinked(torn, p, d.inodes[p - 1]) else torn
  }

  /** The same changes in an order that keeps the invariant at every step: first the
      entry, then the record, then the bits. */
  function ReleasedDisk(d: Disk, c: Catalog, p: nat, name: Name, k: nat): Disk
    requires Removable(d, c, p, name, k)
  {
    GiveInode(GiveRuns(PutInode(DetachedDisk(d, c, p, name, k), k, Deleted(d.inodes[k - 1])), RunsOf(c.nodes[k])), k)
  }

  lemma SameEitherWay(d: Disk, c: Catalog, p: nat, name: Name, k: nat)
    requires Removable(d, c, p, name, k) && p != k
    ensures RemovedDisk(d, c, p, name, k) == ReleasedDisk(d, c, p, name, k)
  {
    hide CanErase, Erase, Find, Pack, AllEncodable, Deleted, TotalRunLen, Fill;
    var runs := RunsOf(c.nodes[k]);
    if |runs| > 0 {
      GiveOne(d, runs[0]);
      GiveOne(PutInode(DetachedDisk(d, c, p, name, k), k, Deleted(d.inodes[k - 1])), runs[0]);
      assert runs == [runs[0]];
    }
    hide RunsOf, GiveRuns;
    var a, b := RemovedDisk(d, c, p, name, k), ReleasedDisk(d, c, p, name, k);
    assert a.inodes == b.inodes;
  }

  lemma RemoveIsReady(d: Disk, c: Catalog, p: nat, name: Name, k: nat)
    requires Core(d, c) && Detachable(c, p, name, k)
    ensures Removable(d, c, p, name, k) && p != k
  {
    hide *;
    DetachReady(d, c, p, name, k);
    DetachableParts(c, p, name, k);
    RunsOnDevice(d, c, k);
    RoomToGive(d, c, k);
    RemovableIntro(d, c, p, name, k);
  }

  lemma RunsOnDevice(d: Disk, c: Catalog, k: nat)
    requires Core(d, c) && k in c.nodes
    ensures Givable(d, RunsOf(c.nodes[k]))
  {
    hide *;
    CoreCountable(d, c);
    NodeIn(d, c, k);
    CoreParts(d, c);
    BlockSizePositive(d.sb, d.gd);
    DataIsDevice(d);
    RunsInside(d.sb.blockSize, d.inodes[k - 1], d.data, c.nodes[k]);
    GivableIntro(d, RunsOf(c.nodes[k]));
  }

  lemma DataIsDevice(d: Disk)
    requires Geometry(d.sb, d.gd) && Sized(d)
    ensures |d.data| == d.sb.blocksCount <= |d.blockBits|
  {
  }

  lemma RunsInside(blockSize: nat, i: Inode, data: seq<seq<byte>>, node: Node)
    requires NodeOnDisk(blockSize, i, data, node)
    ensures forall j :: 0 <= j < |RunsOf(node)| ==> RunsOf(node)[j].start + RunsOf(node)[j].len <= |data|
    ensures TotalRunLen(RunsOf(node)) <= |data|
  {
    hide RunLeaf, Pack;
    var runs := RunsOf(node);
    if |runs| == 1 {
      assert runs[..0] == [] && TotalRunLen([]) == 0 && TotalRunLen(runs) == runs[0].len;
    }
  }

  lemma GivableIntro(d: Disk, runs: seq<Run>)
    requires Countable(d) && |d.data| == d.sb.blocksCount <= |d.blockBits| && d.sb.blocksCount <= 0x8000
    requires forall j :: 0 <= j < |runs| ==> runs[j].start + runs[j].len <= |d.data|
    requires TotalRunLen(runs) <= |d.data|
    ensures Givable(d, runs)
  {
  }

  lemma RoomToGive(d: Disk, c: Catalog, k: nat)
    requires Core(d, c) && 1 <= k <= |d.inodes|
    ensures k <= |d.inodeBits| && d.gd.freeInodesCount + 1 < 0x1_0000_0000 && d.sb.freeInodesCount + 1 < 0x1_0000_0000
  {
    CoreCountable(d, c);
    hide CatalogOk, TreeOnDisk, BitmapsOk;
  }

  lemma RemovableIntro(d: Disk, c: Catalog, p: nat, name: Name, k: nat)
    requires CanErase(c.nodes, p, name) && AllEncodable(Erased(c, p, name)) && k in c.nodes
    requires c.nodes[p].block < |d.data| && 1 <= p <= |d.inodes| && 1 <= k <= |d.inodes| && k <= |d.inodeBits|
    requires Givable(d, RunsOf(c.nodes[k])) && d.gd.freeInodesCount + 1 < 0x1_0000_0000
    requires d.sb.freeInodesCount + 1 < 0x1_0000_0000
    ensures Removable(d, c, p, name, k)
  {
    hide Find, Givable, RunsOf, AllEncodable;
  }

  /** A node's own runs, once nobody owns them, can be given back. */
  lemma GiveRunsCore(d: Disk, c: Catalog, node: Node)
    requires Core(d, c) && NodeBlocks(node) <= c.lostBlocks && Givable(d, RunsOf(node))
    ensures Core(GiveRuns(d, RunsOf(node)), c.(lostBlocks := c.lostBlocks - NodeBlocks(node)))
  {
    hide Core, RunBlocks, GiveBlocks;
    var runs := RunsOf(node);
    if |runs| == 0 {
      assert c.lostBlocks - NodeBlocks(node) == c.lostBlocks by { RunsCover(node); }
    } else {
      assert runs == [runs[0]]
        && NodeBlocks(node) == RunBlocks(runs[0].start, runs[0].len) by { RunsCover(node); assert runs[..0] == []; }
      GiveOne(d, runs[0]);
      GiveBlocksCore(d, c, runs[0].start, runs[0].len);
    }
  }

  lemma RemoveCore(d: Disk, c: Catalog, p: nat, name: Name, k: nat)
    requires Core(d, c) && Detachable(c, p, name, k)
    ensures Removable(d, c, p, name, k)
    ensures Core(RemovedDisk(d, c, p, name, k), Remove(c, p, name, k))
  {
    hide *;
    RemoveIsReady(d, c, p, name, k);
    DetachCore(d, c, p, name, k);
    SameEitherWay(d, c, p, name, k);
    ReleaseCore(d, c, p, name, k);
  }

  lemma ReleaseCore(d: Disk, c: Catalog, p: nat, name: Name, k: nat)
    requires Core(d, c) && Removable(d, c, p, name, k)
    requires Core(DetachedDisk(d, c, p, name, k), Detach(c, p, name, k))
    ensures Core(ReleasedDisk(d, c, p, name, k), Remove(c, p, name, k))
  {
    hide Core, Removable, Givable, GiveRuns, GiveInode, PutInode, DetachedDisk, Detach, Remove, OwnOk, NodeBlocks;
    hide CanErase, AllEncodable, Erased, RunsOf, LostOk, BlockBitsOk, Deleted;
    OwnershipParts(d, c);
    RemovableParts(d, c, p, name, k);
    BlocksOwned(c.nodes, c.own, k);
    DetachReleased(c, p, name, k);
    ReleaseSteps(DetachedDisk(d, c, p, name, k), Detach(c, p, name, k), k, c.nodes[k], Deleted(d.inodes[k - 1]));
  }

  lemma RemovableParts(d: Disk, c: Catalog, p: nat, name: Name, k: nat)
    requires Removable(d, c, p, name, k)
    ensures CanErase(c.nodes, p, name) && AllEncodable(Erased(c, p, name)) && k in c.nodes
    ensures c.nodes[p].block < |d.data| && 1 <= p <= |d.inodes| && 1 <= k <= |d.inodes| && k <= |d.inodeBits|
    ensures Givable(d, RunsOf(c.nodes[k])) && d.gd.freeInodesCount + 1 < 0x1_0000_0000
    ensures d.sb.freeInodesCount + 1 < 0x1_0000_0000
    ensures var e := DetachedDisk(d, c, p, name, k);
      && |e.inodes| == |d.inodes| && Givable(e, RunsOf(c.nodes[k])) && e.inodeBits == d.inodeBits
      && e.gd.freeInodesCount == d.gd.freeInodesCount && e.sb.freeInodesCount == d.sb.freeInodesCount
    ensures k in Detach(c, p, name, k).lostInodes && NodeBlocks(c.nodes[k]) <= Detach(c, p, name, k).lostBlocks
    ensures Deleted(d.inodes[k - 1]).linksCount == 0
  {
    hide CanErase, AllEncodable, Erased, Pack, TotalRunLen, WithoutEntry, RunsOf, NodeBlocks;
  }

  lemma ReleaseSteps(d: Disk, c: Catalog, k: nat, node: Node, dead: Inode)
    requires Core(d, c) && k in c.lostInodes && NodeBlocks(node) <= c.lostBlocks && dead.linksCount == 0
    requires 1 <= k <= |d.inodes| && k <= |d.inodeBits| && Givable(d, RunsOf(node))
    requires d.gd.freeInodesCount + 1 < 0x1_0000_0000 && d.sb.freeInodesCount + 1 < 0x1_0000_0000
    ensures Core(GiveInode(GiveRuns(PutInode(d, k, dead), RunsOf(node)), k),
                 c.(lostInodes := c.lostInodes - {k}, lostBlocks := c.lostBlocks - NodeBlocks(node)))
  {
    hide Core, RunsOf, NodeBlocks, TotalRunLen, Deleted;
    PutLostInodeCore(d, c, k, dead);
    GiveRunsCore(PutInode(d, k, dead), c, node);
    GiveInodeCore(GiveRuns(PutInode(d, k, dead), RunsOf(node)), c.(lostBlocks := c.lostBlocks - NodeBlocks(node)), k);
  }

  // ----- unlink and rmdir -----

  /** Why unlink refuses. */
  function UnlinkFault(nodes: map<nat, Node>, path: seq<byte>): Option<Error> {
    match Occupant(nodes, path)
    case Err(e) => Some(e)
    case Ok(found) => if IsDir(nodes, found.1) then Some(IsADirectory(found.1)) else None
  }

  /** Why rmdir refuses: every other entry than the two dots keeps a directory alive. */
  function RmdirFault(nodes: map<nat, Node>, path: seq<byte>): Option<Error> {
    match Occupant(nodes, path)
    case Err(e) => Some(e)
    case Ok(found) =>
      if found.1 == ROOT then Some(DirectoryNotEmpty(ROOT))
      else if !IsDir(nodes, found.1) then Some(NotADirectory(found.1))
      else if |nodes[found.1].entries| > 2 then Some(DirectoryNotEmpty(found.1))
      else None
  }

  /** rmdir accepts an empty directory named by its own `.`; nothing stops it in the source. */
  predicate RemovesItself(nodes: map<nat, Node>, path: seq<byte>) {
    RmdirFault(nodes, path).None? && Occupant(nodes, path).value.0.name == DOT
  }

  /** The inode at `path` and its entry are gone, and nothing else changed. */
  ghost predicate Removed(c: Catalog, path: seq<byte>, d': Disk, c': Catalog) {
    && Occupant(c.nodes, path).Ok?
    && var (at, k) := Occupant(c.nodes, path).value;
    && Detachable(c, at.dir, at.name, k) && CanErase(c.nodes, at.dir, at.name) && c' == Remove(c, at.dir, at.name, k)
    && Coherent(d')
  }

  lemma OccupantName(nodes: map<nat, Node>, path: seq<byte>)
    requires Occupant(nodes, path).Ok?
    ensures SlashFree(Occupant(nodes, path).value.0.name)
  {
    SplitAgreesWithWalk(path);
    hide SplitPath, Components, WalkPath, LookupName, SlashFree;
  }

  /** What unlink finds is entered exactly there. */
  lemma UnlinkTarget(size: nat, c: Catalog, path: seq<byte>)
    requires CatalogOk(size, c) && UnlinkFault(c.nodes, path).None?
    ensures var (at, k) := Occupant(c.nodes, path).value; Detachable(c, at.dir, at.name, k)
  {
    OccupantName(c.nodes, path);
    var (at, k) := Occupant(c.nodes, path).value;
    hide Occupant, TreeOk, OwnOk, LostOk, LookupName, Ordinary;
    LookupLands(size, c.nodes, c.up, at.dir, at.name);
    if at.name != DOT && at.name != DOTDOT {
      OrdinaryIf(at.name);
    }
  }

  /** An ordinary name rmdir accepts is entered exactly there, and `..` never is accepted. */
  lemma RmdirTarget(size: nat, c: Catalog, path: seq<byte>)
    requires CatalogOk(size, c) && RmdirFault(c.nodes, path).None?
    ensures var (at, k) := Occupant(c.nodes, path).value;
      && IsDir(c.nodes, k) && |c.nodes[k].entries| == 2 && k != ROOT && at.name != DOTDOT
      && (at.name != DOT ==> Detachable(c, at.dir, at.name, k)) && (at.name == DOT ==> k == at.dir)
  {
    OccupantName(c.nodes, path);
    var (at, k) := Occupant(c.nodes, path).value;
    hide Occupant, TreeOk, OwnOk, LostOk, LookupName, Ordinary;
    LookupLands(size, c.nodes, c.up, at.dir, at.name);
    EntriesTwo(size, c, k);
    if at.name == DOTDOT {
      ParentHolds(size, c, at.dir, k);
    } else if at.name != DOT {
      OrdinaryIf(at.name);
    }
  }

  lemma EntriesTwo(size: nat, c: Catalog, k: nat)
    requires CatalogOk(size, c) && IsDir(c.nodes, k)
    ensures |c.nodes[k].entries| >= 2 && ListingOk(k, c.nodes[k].entries)
  {
    hide UpOk, DownOk, OwnOk, LostOk, Tiles, Ordinary;
  }

  /** A directory other than the root is an entry of its parent. */
  lemma ParentHolds(size: nat, c: Catalog, x: nat, k: nat)
    requires CatalogOk(size, c) && IsDir(c.nodes, x) && Parent(c.nodes[x].entries) == k && k != ROOT
    requires IsDir(c.nodes, k)
    ensures |c.nodes[k].entries| > 2
  {
    hide OwnOk, LostOk, ListingOk, LookupName, Ordinary, Parent, FileTypeOf, Tiles, UpOk, DownOk, DirsOk;
    TreeUpKeys(size, c.nodes, c.up);
    UpEntered(c.nodes, c.up, x);
    EntriesTwo(size, c, k);
    if |c.nodes[k].entries| == 2 {
      EmptyListing(k, c.nodes[k].entries, c.up[x].name);
    }
  }

  lemma CoreFreeClean(d: Disk, c: Catalog)
    requires Core(d, c)
    ensures FreeClean(d.inodeBits, d.inodes)
  {
    hide CatalogOk, TreeOnDisk, BlockBitsOk, InodeBitsOk, CountsOk, Geometry, FreeClean;
  }

  /** After rmdir of a directory's own `.`, its freed inode still has a link: no catalog fits. */
  lemma NoCatalogFits(d: Disk, k: nat)
    requires RESERVED < k <= |d.inodes| && k <= |d.inodeBits| && !d.inodeBits[k - 1] && d.inodes[k - 1].linksCount > 0
    ensures Unfit(d)
  {
    forall c ensures !Core(d, c) {
      if Core(d, c) {
        CoreFreeClean(d, c);
      }
    }
  }

  // ----- the leaf an inode to be removed carries -----

  lemma GivablePrefix(d: Disk, extents: seq<Extent>, cutoff: nat, i: nat)
    requires i <= |extents| && Givable(d, FreedAll(extents, cutoff))
    ensures Givable(d, FreedAll(extents[..i], cutoff))
    decreases |extents| - i
  {
    hide FreedAll, KeptAll, Givable, Freed, Kept;
    if i < |extents| {
      GivablePrefix(d, extents, cutoff, i + 1);
      FreedStep(extents, cutoff, i);
      if Freed(extents[i], cutoff).Some? {
        GivableFront(d, FreedAll(extents[..i], cutoff), Freed(extents[i], cutoff).value);
      }
    } else {
      assert extents[..i] == extents;
    }
  }

  lemma GivableFront(d: Disk, runs: seq<Run>, run: Run)
    requires Givable(d, runs + [run])
    ensures Givable(d, runs) && TotalRunLen(runs + [run]) == TotalRunLen(runs) + run.len
  {
    var a := runs + [run];
    assert a[..|runs|] == runs && a[|runs|] == run;
    assert forall i :: 0 <= i < |runs| ==> runs[i] == a[i];
  }

  /** One more extent cut. */
  lemma CutStep(d: Disk, extents: seq<Extent>, cutoff: nat, i: nat)
    requires i < |extents| && Givable(d, FreedAll(extents, cutoff))
    ensures Givable(d, FreedAll(extents[..i], cutoff)) && Givable(d, FreedAll(extents[..i + 1], cutoff))
    ensures var before := GiveRuns(d, FreedAll(extents[..i], cutoff));
      match Freed(extents[i], cutoff)
      case None => GiveRuns(d, FreedAll(extents[..i + 1], cutoff)) == before
      case Some(run) => && run.start + run.len <= before.sb.blocksCount <= |before.blockBits|
                        && before.gd.freeBlocksCount + run.len < 0x1_0000_0000
                        && before.sb.freeBlocksCount + run.len < 0x1_0000_0000_0000_0000
                        && GiveRuns(d, FreedAll(extents[..i + 1], cutoff)) == GiveBlocks(before, run.start, run.len)
  {
    GivablePrefix(d, extents, cutoff, i);
    GivablePrefix(d, extents, cutoff, i + 1);
    FreedStep(extents, cutoff, i);
    var b := FreedAll(extents[..i], cutoff);
    var a := FreedAll(extents[..i + 1], cutoff);
    hide FreedAll, Fill, Freed;
    if Freed(extents[i], cutoff).Some? {
      GivableFront(d, b, Freed(extents[i], cutoff).value);
      assert a[..|b|] == b;
    }
  }

  /** One more extent freed, whatever its length. */
  lemma FreeStep(d: Disk, extents: seq<Extent>, i: nat)
    requires i < |extents| && Givable(d, FreedAll(extents, 0))
    requires extents[i].physical + extents[i].len <= d.sb.blocksCount
    ensures Givable(d, FreedAll(extents[..i], 0)) && Givable(d, FreedAll(extents[..i + 1], 0))
    ensures var e := extents[i]; var before := GiveRuns(d, FreedAll(extents[..i], 0));
      && (!e.uninit ==> && e.physical + e.len <= before.sb.blocksCount <= |before.blockBits|
                        && before.gd.freeBlocksCount + e.len < 0x1_0000_0000
                        && before.sb.freeBlocksCount + e.len < 0x1_0000_0000_0000_0000)
      && GiveRuns(d, FreedAll(extents[..i + 1], 0)) == if e.uninit then before
        else GiveBlocks(before, e.physical, e.len)
  {
    hide FreedAll, Fill, GiveRuns, GiveBlocks, TotalRunLen;
    CutStep(d, extents, 0, i);
    if !extents[i].uninit && Freed(extents[i], 0).None? {
      GiveNothing(GiveRuns(d, FreedAll(extents[..i], 0)), extents[i].physical);
    }
  }

  lemma FreedStep(extents: seq<Extent>, cutoff: nat, i: nat)
    requires i < |extents|
    ensures FreedAll(extents[..i + 1], cutoff) ==
      match Freed(extents[i], cutoff)
      case None => FreedAll(extents[..i], cutoff)
      case Some(run) => FreedAll(extents[..i], cutoff) + [run]
    ensures KeptAll(extents[..i + 1], cutoff) ==
      match Kept(extents[i], cutoff)
      case None => KeptAll(extents[..i], cutoff)
      case Some(e) => KeptAll(extents[..i], cutoff) + [e]
  {
    var longer := extents[..i + 1];
    assert longer[..i] == extents[..i] && longer[i] == extents[i];
  }

  lemma GiveNothing(d: Disk, start: nat)
    requires start <= |d.blockBits| && d.gd.freeBlocksCount < 0x1_0000_0000
    requires d.sb.freeBlocksCount < 0x1_0000_0000_0000_0000
    ensures GiveBlocks(d, start, 0) == d
  {
    assert Fill(d.blockBits, start, 0, false) == d.blockBits;
  }

  /** The leaf of a live inode is the one extent of its run, or nothing. */
  lemma LeafOf(size: nat, i: Inode, data: seq<seq<byte>>, node: Node)
    requires size > 0 && NodeOnDisk(size, i, data, node)
    ensures !i.UsesExtents() || i.size == 0 ==> RunsOf(node) == []
    ensures i.UsesExtents() && i.size > 0 ==>
      && DecodeNode(i.block).Ok? && DecodeNode(i.block).value.Leaf?
      && var es := DecodeNode(i.block).value.extents;
      && FreedAll(es, 0) == RunsOf(node) && forall j :: 0 <= j < |es| ==> es[j].physical + es[j].len <= |data|
  {
    hide LeafBlock, DecodeNode, Pack, FreedAll, NodeOnDisk, RunLeaf;
    if node.Dir? {
      DirLeaf(size, i, data, node);
      OneExtent(node.block, 1);
    } else if node.File? {
      FileLeaf(size, i, data, node);
      if |node.blocks| > 0 {
        OneExtent(node.start, |node.blocks|);
      }
    } else {
      LinkLeaf(size, i, data, node);
    }
  }

  lemma DirLeaf(size: nat, i: Inode, data: seq<seq<byte>>, node: Node)
    requires size > 0 && NodeOnDisk(size, i, data, node) && node.Dir?
    ensures i.UsesExtents() && i.size > 0 && node.block < |data| <= 0x8000 && i.block == RunLeaf(node.block, 1)
  {
    hide RunLeaf, Pack, AllEncodable;
  }

  lemma FileLeaf(size: nat, i: Inode, data: seq<seq<byte>>, node: Node)
    requires size > 0 && NodeOnDisk(size, i, data, node) && node.File?
    ensures i.UsesExtents() && node.start + |node.blocks| <= |data| <= 0x8000
    ensures i.block == RunLeaf(node.start, |node.blocks|)
    ensures i.size > 0 <==> |node.blocks| > 0
  {
    hide RunLeaf;
  }

  lemma LinkLeaf(size: nat, i: Inode, data: seq<seq<byte>>, node: Node)
    requires NodeOnDisk(size, i, data, node) && node.Link?
    ensures !i.UsesExtents()
  {
  }

  lemma OneExtent(start: nat, n: nat)
    requires 0 < n && start + n <= 0x8000
    ensures DecodeNode(RunLeaf(start, n)) == Ok(Leaf(LeafHeader(1), [Extent(0, n, start, false)]))
    ensures FreedAll([Extent(0, n, start, false)], 0) == [Run(start, n)]
  {
    var es := [Extent(0, n, start, false)];
    LeafRoundTrip(es);
    assert es[..0] == [] && FreedAll(es[..0], 0) == [];
    assert [] + [Run(start, n)] == [Run(start, n)];
    hide LeafBlock, DecodeNode;
  }

  // ----- what each removal comes to -----

  /** The entry's place, and that everything the writes need holds. */
  ghost predicate TearAt(d: Disk, c: Catalog, at: Place, k: nat) {
    && IsDir(c.nodes, at.dir) && k in c.nodes && k < 0x1_0000_0000 && 1 <= k <= |d.inodes| && 1 <= at.dir <= |d.inodes|
    && FindBinding(c.nodes[at.dir].entries, at.name, k).Some?
    && Tearable(d, c.nodes[at.dir], FindBinding(c.nodes[at.dir].entries, at.name, k).value, c.nodes[k], k)
  }

  function Torn(d: Disk, c: Catalog, at: Place, k: nat): Disk
    requires TearAt(d, c, at, k)
  {
    TornDown(d, c.nodes[at.dir], FindBinding(c.nodes[at.dir].entries, at.name, k).value, c.nodes[k], k)
  }

  lemma TearReady(d: Disk, c: Catalog, at: Place, k: nat)
    requires Core(d, c) && Detachable(c, at.dir, at.name, k)
    ensures TearAt(d, c, at, k) && Removable(d, c, at.dir, at.name, k)
    ensures Torn(d, c, at, k) ==
      TornDown(d, c.nodes[at.dir], Find(c.nodes[at.dir].entries, at.name).value, c.nodes[k], k)
  {
    hide Core, Detachable, Find, FindBinding, Tearable, CanErase, AllEncodable, Erased, Pack, NodeOnDisk, TornDown;
    DetachReady(d, c, at.dir, at.name, k);
    RemoveIsReady(d, c, at.dir, at.name, k);
    DetachableParts(c, at.dir, at.name, k);
    BaseFacts(d, c);
    EraseFinds(c.nodes, at.dir, at.name);
  }

  lemma EraseFinds(nodes: map<nat, Node>, p: nat, name: Name)
    requires CanErase(nodes, p, name)
    ensures IsDir(nodes, p) && Find(nodes[p].entries, name).Some?
  {
    hide Find;
  }

  lemma RemoveAcyclic(size: nat, c: Catalog, p: nat, name: Name, k: nat)
    requires CatalogOk(size, c) && Acyclic(c.up) && Detachable(c, p, name, k) && CanErase(c.nodes, p, name)
    ensures k in c.nodes && Acyclic(Remove(c, p, name, k).up)
  {
    TreeUpKeys(size, c.nodes, c.up);
    hide TreeOk, OwnOk, LostOk, Acyclic, CanErase, WithoutEntry, NodeBlocks;
    DetachAcyclic(size, c.nodes, c.up, k);
  }

  lemma UnlinkDone(d: Disk, c: Catalog, path: seq<byte>)
    requires Core(d, c) && Acyclic(c.up) && UnlinkFault(c.nodes, path).None?
    ensures var (at, k) := Occupant(c.nodes, path).value;
      && TearAt(d, c, at, k) && Detachable(c, at.dir, at.name, k) && CanErase(c.nodes, at.dir, at.name)
      && Core(Torn(d, c, at, k), Remove(c, at.dir, at.name, k)) && Acyclic(Remove(c, at.dir, at.name, k).up)
  {
    CoreParts(d, c);
    UnlinkTarget(d.sb.blockSize, c, path);
    NotDirTarget(c.nodes, path);
    var (at, k) := Occupant(c.nodes, path).value;
    hide Core, Acyclic, Occupant, Detachable, CatalogOk, TreeOnDisk, BitmapsOk, Geometry, Sized, Torn, TornDown;
    hide Removable, TearAt, Remove, CanErase;
    TearReady(d, c, at, k);
    RemoveCore(d, c, at.dir, at.name, k);
    RemovableErases(d, c, at.dir, at.name, k);
    RemoveAcyclic(d.sb.blockSize, c, at.dir, at.name, k);
  }

  lemma NotDirTarget(nodes: map<nat, Node>, path: seq<byte>)
    requires UnlinkFault(nodes, path).None?
    ensures !IsDir(nodes, Occupant(nodes, path).value.1)
  {
    hide Occupant;
  }

  lemma RemovableErases(d: Disk, c: Catalog, p: nat, name: Name, k: nat)
    requires Removable(d, c, p, name, k)
    ensures CanErase(c.nodes, p, name) && k in c.nodes && 1 <= p <= |d.inodes|
  {
    hide CanErase, Tearable, Find, AllEncodable, Erased;
  }

  /** A disk that holds the catalog, its tree without cycles, and stores its own counters. */
  ghost predicate Settled(d: Disk, c: Catalog) {
    Core(d, c) && Acyclic(c.up) && Coherent(d)
  }

  /** A disk no catalog describes. */
  ghost predicate Unfit(d: Disk) {
    forall c :: !Core(d, c)
  }

  /** The disk after rmdir's writes. */
  function RmdirDisk(d: Disk, c: Catalog, at: Place, k: nat): Disk
    requires TearAt(d, c, at, k)
  {
    TornInodes(d, c, at, k);
    Unlinked(Torn(d, c, at, k), at.dir, d.inodes[at.dir - 1])
  }

  lemma RmdirDone(d: Disk, c: Catalog, path: seq<byte>)
    requires Core(d, c) && Acyclic(c.up) && RmdirFault(c.nodes, path).None? && !RemovesItself(c.nodes, path)
    ensures var (at, k) := Occupant(c.nodes, path).value;
      && TearAt(d, c, at, k) && CanErase(c.nodes, at.dir, at.name) && k in c.nodes
      && Countable(RmdirDisk(d, c, at, k))
      && Settled(Flushed(RmdirDisk(d, c, at, k)), Remove(c, at.dir, at.name, k))
      && Removed(c, path, Flushed(RmdirDisk(d, c, at, k)), Remove(c, at.dir, at.name, k))
  {
    CoreParts(d, c);
    RmdirTarget(d.sb.blockSize, c, path);
    NotItself(c.nodes, path);
    var (at, k) := Occupant(c.nodes, path).value;
    hide Core, Acyclic, Occupant, Detachable, CatalogOk, TreeOnDisk, BitmapsOk, Geometry, Sized, Torn, TornDown;
    hide Removable, TearAt, Remove, CanErase;
    hide Countable, Unlinked, RmdirDisk, Coherent, Flushed, Find, FindBinding;
    TearReady(d, c, at, k);
    RemoveIsReady(d, c, at.dir, at.name, k);
    RemoveCore(d, c, at.dir, at.name, k);
    RemovableErases(d, c, at.dir, at.name, k);
    RmdirDiskIs(d, c, at, k);
    RemoveAcyclic(d.sb.blockSize, c, at.dir, at.name, k);
    CoreCountable(RmdirDisk(d, c, at, k), Remove(c, at.dir, at.name, k));
    FlushedCore(RmdirDisk(d, c, at, k), Remove(c, at.dir, at.name, k));
  }

  lemma RmdirDiskIs(d: Disk, c: Catalog, at: Place, k: nat)
    requires TearAt(d, c, at, k) && IsDir(c.nodes, k) && Removable(d, c, at.dir, at.name, k)
    requires Torn(d, c, at, k) ==
      TornDown(d, c.nodes[at.dir], Find(c.nodes[at.dir].entries, at.name).value, c.nodes[k], k)
    ensures RmdirDisk(d, c, at, k) == RemovedDisk(d, c, at.dir, at.name, k)
  {
    hide TornDown, Torn, TearAt, Tearable, Find, FindBinding, CanErase, AllEncodable, Erased;
  }

  lemma NotItself(nodes: map<nat, Node>, path: seq<byte>)
    requires RmdirFault(nodes, path).None?
    ensures RemovesItself(nodes, path) <==> Occupant(nodes, path).value.0.name == DOT
  {
    hide Occupant;
  }

  lemma TornInodes(d: Disk, c: Catalog, at: Place, k: nat)
    requires TearAt(d, c, at, k)
    ensures |Torn(d, c, at, k).inodes| == |d.inodes| && 1 <= at.dir <= |d.inodes|
  {
    hide Erase, Pack, AllEncodable, FindBinding, RunsOf, Givable, Deleted;
  }

  /** Counters never exceed the device and the table. */
  lemma CoreSmall(d: Disk, c: Catalog)
    requires Core(d, c)
    ensures d.gd.freeBlocksCount == d.sb.freeBlocksCount <= 0x8000
    ensures d.gd.freeInodesCount == d.sb.freeInodesCount <= 0x8000
    ensures d.gd.usedDirsCount < 0x1_0000
  {
    CoreCountable(d, c);
    BaseFacts(d, c);
    hide NodesOk, LinksOk, CatalogOk, BlockBitsOk, InodeBitsOk, FreeClean, FreeSet, FirstData, DirSet, Geometry, Sized;
    hide Countable;
    FreeSetSize(d.blockBits, d.sb.blocksCount);
    FreeSetSize(d.inodeBits, d.sb.inodesCount);
  }

  /** The records of an empty directory removing itself: the first one becomes a tombstone. */
  lemma SelfTear(d: Disk, c: Catalog, at: Place, k: nat)
    requires Core(d, c) && IsDir(c.nodes, k) && at == Place(k, DOT)
    ensures TearAt(d, c, at, k)
  {
    hide Core, Pack, NodeOnDisk, FindBinding, Find, AllEncodable, Givable, RunsOf, ListingOk, Tiles, TearAt, Erase;
    var es := c.nodes[k].entries;
    DirIn(d, c, k);
    DirBlockIn(d, c, k);
    SelfBinding(k, es);
    TombstoneBytes(es, d.sb.blockSize);
    TilesEncodable(Erase(es, 0), d.sb.blockSize);
    RunsOnDevice(d, c, k);
    RoomToGive(d, c, k);
    BaseFacts(d, c);
    SelfTearIntro(d, c, k);
  }

  lemma SelfTearIntro(d: Disk, c: Catalog, k: nat)
    requires IsDir(c.nodes, k) && 1 <= k <= |d.inodes| <= 0x8000 && k <= |d.inodeBits|
    requires |c.nodes[k].entries| > 0 && FindBinding(c.nodes[k].entries, DOT, k) == Some(0)
    requires AllEncodable(Erase(c.nodes[k].entries, 0)) && c.nodes[k].block < |d.data|
    requires Givable(d, RunsOf(c.nodes[k])) && d.gd.freeInodesCount + 1 < 0x1_0000_0000
    requires d.sb.freeInodesCount + 1 < 0x1_0000_0000
    ensures TearAt(d, c, Place(k, DOT), k)
  {
    hide AllEncodable, Erase, Givable, RunsOf, FindBinding;
  }

  lemma TilesEncodable(es: seq<DirEntry>, size: nat)
    requires Tiles(es, size)
    ensures AllEncodable(es)
  {
  }

  lemma SelfBinding(k: nat, es: seq<DirEntry>)
    requires ListingOk(k, es)
    ensures |es| >= 2 && FindBinding(es, DOT, k) == Some(0)
  {
    LookupAt(k, es, 0);
    hide FindBinding;
  }

  /** rmdir of an empty directory's own `.` succeeds and leaves a disk no catalog fits. */
  lemma RmdirSelf(d: Disk, c: Catalog, path: seq<byte>)
    requires Core(d, c) && RemovesItself(c.nodes, path)
    ensures var (at, k) := Occupant(c.nodes, path).value;
      && k == at.dir && TearAt(d, c, at, k)
      && Countable(RmdirDisk(d, c, at, k)) && Unfit(Flushed(RmdirDisk(d, c, at, k)))
  {
    CoreParts(d, c);
    RmdirTarget(d.sb.blockSize, c, path);
    NotItself(c.nodes, path);
    var (at, k) := Occupant(c.nodes, path).value;
    hide Core, Occupant, CatalogOk, TreeOnDisk, BitmapsOk, Geometry, Sized, Torn, TornDown, TearAt, Countable, Unlinked;
    hide RmdirFault, RemovesItself, RmdirDisk, Flushed, Unfit;
    SelfTear(d, c, at, k);
    LinkRoom(d, c, k);
    LiveNotReserved(d, c, k);
    CoreSmall(d, c);
    SelfState(d, c, at, k);
    NoCatalogFits(Flushed(RmdirDisk(d, c, at, k)), k);
  }

  lemma LiveNotReserved(d: Disk, c: Catalog, k: nat)
    requires Core(d, c) && k in c.nodes && k != ROOT
    ensures RESERVED < k
  {
    hide CatalogOk, TreeOnDisk, BlockBitsOk, CountsOk, FreeClean, Geometry;
    assert k in c.nodes.Keys;
  }

  lemma SelfState(d: Disk, c: Catalog, at: Place, k: nat)
    requires TearAt(d, c, at, k) && k == at.dir && IsDir(c.nodes, k) && d.inodes[k - 1].linksCount >= 2
    requires d.gd.freeBlocksCount == d.sb.freeBlocksCount <= 0x8000
    requires d.gd.freeInodesCount == d.sb.freeInodesCount <= 0x8000
    requires d.gd.usedDirsCount < 0x1_0000
    ensures var d' := Flushed(RmdirDisk(d, c, at, k));
      && k <= |d'.inodes| && k <= |d'.inodeBits| && !d'.inodeBits[k - 1] && d'.inodes[k - 1].linksCount > 0
    ensures Countable(RmdirDisk(d, c, at, k))
  {
    hide Erase, Pack, AllEncodable, FindBinding, Givable, Deleted, GiveRuns, TotalRunLen;
    assert RunsOf(c.nodes[k]) == [Run(c.nodes[k].block, 1)];
    assert TotalRunLen(RunsOf(c.nodes[k])) == 1 by { OneRunLen(c.nodes[k].block); }
  }

  lemma OneRunLen(b: nat)
    ensures TotalRunLen([Run(b, 1)]) == 1
  {
    assert [Run(b, 1)][..0] == [];
  }

  /** Either way, the writes of rmdir can be made, and what they come to. */
  ghost predicate RmdirComesTo(d: Disk, c: Catalog, path: seq<byte>, at: Place, k: nat) {
    && TearAt(d, c, at, k) && Countable(RmdirDisk(d, c, at, k)) && k in c.nodes
    && if RemovesItself(c.nodes, path) then Unfit(Flushed(RmdirDisk(d, c, at, k)))
       else && CanErase(c.nodes, at.dir, at.name)
            && Settled(Flushed(RmdirDisk(d, c, at, k)), Remove(c, at.dir, at.name, k))
            && Removed(c, path, Flushed(RmdirDisk(d, c, at, k)), Remove(c, at.dir, at.name, k))
  }

  lemma RmdirReady(d: Disk, c: Catalog, path: seq<byte>)
    requires Core(d, c) && Acyclic(c.up) && RmdirFault(c.nodes, path).None?
    ensures RmdirComesTo(d, c, path, Occupant(c.nodes, path).value.0, Occupant(c.nodes, path).value.1)
  {
    hide Core, Acyclic, Occupant, TearAt, Countable, RmdirDisk, RmdirFault, RemovesItself, CanErase, Remove, Flushed;
    hide Settled, Removed, Unfit;
    RmdirLives(c.nodes, path);
    if RemovesItself(c.nodes, path) {
      RmdirSelf(d, c, path);
    } else {
      RmdirDone(d, c, path);
    }
  }

  lemma RmdirLives(nodes: map<nat, Node>, path: seq<byte>)
    requires RmdirFault(nodes, path).None?
    ensures IsDir(nodes, Occupant(nodes, path).value.1)
  {
    hide Occupant;
  }

  /** Every record but `k`'s is as it was. */
  predicate InodesBut(d: Disk, d': Disk, k: nat) {
    |d'.inodes| == |d.inodes| && forall j :: 0 <= j < |d.inodes| && j + 1 != k ==> d'.inodes[j] == d.inodes[j]
  }

  lemma TornKept(d: Disk, c: Catalog, at: Place, k: nat, live: set<nat>)
    requires TearAt(d, c, at, k) && k !in live
    ensures InodesBut(d, Flushed(Torn(d, c, at, k)), k)
    ensures InodesKept(d, Torn(d, c, at, k), live) && InodesKept(d, Flushed(Torn(d, c, at, k)), live)
  {
    hide Erase, Pack, AllEncodable, FindBinding, RunsOf, Givable, Deleted;
  }

  /** What a removal leaves of a record: no links, size, flags or mapping, and a deletion time. */
  predicate Buried(d: Disk, d': Disk, k: nat) {
    && 1 <= k <= |d.inodes| && k <= |d'.inodes|
    && var i, j := d.inodes[k - 1], d'.inodes[k - 1];
       && j == i.(linksCount := 0, dtime := 0x6500_0001, size := 0, flags := 0, block := j.block)
       && forall b :: 0 <= b < 60 ==> j.block[b] == 0
  }

  lemma TornBuried(d: Disk, c: Catalog, at: Place, k: nat)
    requires TearAt(d, c, at, k)
    ensures Buried(d, Torn(d, c, at, k), k) && Buried(d, Flushed(Torn(d, c, at, k)), k)
  {
    hide Erase, Pack, AllEncodable, FindBinding, RunsOf, Givable;
  }

  lemma BuriedPut(d: Disk, d1: Disk, d2: Disk, k: nat, p: nat, i: Inode)
    requires Buried(d, d1, k) && 1 <= p <= |d1.inodes| && p != k && d2 == PutInode(d1, p, i)
    ensures Buried(d, d2, k)
  {
  }

  lemma BuriedSame(d: Disk, d1: Disk, d2: Disk, k: nat)
    requires Buried(d, d1, k) && d2.inodes == d1.inodes
    ensures Buried(d, d2, k)
  {
  }

  /** The record of what a path names. */
  ghost predicate BuriedAt(d: Disk, c: Catalog, path: seq<byte>, d': Disk) {
    Occupant(c.nodes, path).Ok? && Buried(d, d', Occupant(c.nodes, path).value.1)
  }

  /** A directory removed by another name than its own is not its own parent. */
  lemma RemovedApart(d: Disk, c: Catalog, path: seq<byte>, at: Place, k: nat, d': Disk, c': Catalog)
    requires Core(d, c) && Removed(c, path, d', c') && Occupant(c.nodes, path) == Ok((at, k))
    ensures at.dir != k
  {
    hide Core, Occupant, CanErase, Remove, Coherent, Removable, Detachable;
    RemoveIsReady(d, c, at.dir, at.name, k);
  }

  lemma RemoveDrops(c: Catalog, p: nat, name: Name, k: nat)
    requires CanErase(c.nodes, p, name) && k in c.nodes
    ensures k !in Remove(c, p, name, k).nodes
  {
    hide CanErase;
  }
}
