/** What a caller sees of each operation: paths, other files and directories, and that
    removing undoes creating down to the bits. */
module Refinements {
  import opened Bytes
  import opened Results
  import opened DirEntries
  import opened DirBlocks
  import opened Listings
  import opened Paths
  import opened ExtentTrees
  import opened Inodes
  import opened Superblocks
  import opened Catalogs
  import opened Moves
  import opened Disks
  import opened DiskSteps
  import opened DiskMoves
  import opened Images
  import opened Operations
  import opened Removals
  import opened Steps
  import opened Renames
  import opened Walks

  // ----- creation -----

  lemma CreatedParts(d: Disk, c: Catalog, path: seq<byte>, k: nat, node: Node, c': Catalog)
    requires Created(d, c, path, k, node, c')
    ensures Vacancy(c.nodes, path).Ok? && k < 0x1_0000_0000
    ensures var at := Vacancy(c.nodes, path).value;
      && CanCarve(c.nodes, at.dir, at.name) && Enterable(d.sb.blockSize, c, at.dir, at.name, k, node)
      && c' == Enter(c, at.dir, at.name, k, node) && k !in c.nodes && k != ROOT && IsDir(c.nodes, at.dir)
  {
    hide Vacancy, CanCarve, LookupName, Ordinary, FreshBlocks, Enter;
  }

  lemma NothingIn(size: nat, c: Catalog, k: nat)
    requires CatalogOk(size, c) && k !in c.nodes
    ensures k !in c.up && forall y :: y in c.up ==> c.up[y].dir != k
  {
    hide LookupName, Ordinary, Parent, FileTypeOf, DirsOk, DownOk, OwnOk, LostOk;
  }

  /** After a creation the new inode answers to the path it was given and to no other
      path without dots; every other inode keeps its paths. */
  lemma CreatedPaths(d: Disk, c: Catalog, path: seq<byte>, k: nat, node: Node, c': Catalog, names: seq<Name>, x: nat)
    requires Created(d, c, path, k, node, c') && CatalogOk(d.sb.blockSize, c) && DotFree(names)
    ensures x != k ==> (WalkPath(c'.nodes, names, ROOT) == Ok(x) <==> WalkPath(c.nodes, names, ROOT) == Ok(x))
    ensures WalkPath(c'.nodes, names, ROOT) == Ok(k) <==>
      && |names| > 0 && names[|names| - 1] == Vacancy(c.nodes, path).value.name
      && WalkPath(c.nodes, names[..|names| - 1], ROOT) == Ok(Vacancy(c.nodes, path).value.dir)
  {
    hide Created, CatalogOk, Vacancy, CanCarve, Enterable, WalkPath, Enter, Ordinary, TreeOk;
    CreatedParts(d, c, path, k, node, c');
    var at := Vacancy(c.nodes, path).value;
    EnterOk(d.sb.blockSize, c, at.dir, at.name, k, node);
    TreeOf(d.sb.blockSize, c);
    TreeOf(d.sb.blockSize, c');
    EnterUp(c, at.dir, at.name, k, node);
    NothingIn(d.sb.blockSize, c, k);
    ChainEntered(c.up, k, at, names, x);
    WalkIsChain(d.sb.blockSize, c.nodes, c.up, names, x);
    WalkIsChain(d.sb.blockSize, c'.nodes, c'.up, names, x);
    WalkIsChain(d.sb.blockSize, c'.nodes, c'.up, names, k);
    if |names| > 0 {
      WalkIsChain(d.sb.blockSize, c.nodes, c.up, names[..|names| - 1], at.dir);
    }
  }

  lemma TreeOf(size: nat, c: Catalog)
    requires CatalogOk(size, c)
    ensures TreeOk(size, c.nodes, c.up) && OwnOk(c.nodes, c.own) && LostOk(c) && DirsOk(size, c.nodes)
  {
    hide UpOk, DownOk, OwnOk, LostOk, DirsOk;
  }

  lemma EnterUp(c: Catalog, p: nat, name: Name, k: u32, node: Node)
    requires CanCarve(c.nodes, p, name)
    ensures Enter(c, p, name, k, node).up == c.up[k as nat := Place(p, name)]
  {
    hide CanCarve;
  }

  /** Every other file keeps its bytes, every other directory its listing, and the parent
      gains exactly the one name. */
  lemma CreatedFrame(d: Disk, c: Catalog, path: seq<byte>, k: nat, node: Node, c': Catalog)
    requires Created(d, c, path, k, node, c') && CatalogOk(d.sb.blockSize, c)
    ensures var at := Vacancy(c.nodes, path).value;
      && c'.nodes.Keys == c.nodes.Keys + {k} && c'.nodes[k] == node
      && (forall x :: x in c.nodes && x != at.dir ==> c'.nodes[x] == c.nodes[x])
      && IsDir(c'.nodes, at.dir)
      && forall n :: LookupName(c'.nodes[at.dir].entries, n) ==
           if n == at.name then Some(Binding(k, FileTypeOf(node))) else LookupName(c.nodes[at.dir].entries, n)
  {
    hide Created, CatalogOk, Vacancy, CanCarve, TreeOk, LookupName, Ordinary, FileTypeOf, Carve, ListingOk, Tiles;
    hide NodeBlocks, DirsOk, Parent, WithEntry, FreshBlocks;
    CreatedParts(d, c, path, k, node, c');
    TreeOf(d.sb.blockSize, c);
    var at := Vacancy(c.nodes, path).value;
    WithEntryDir(d.sb.blockSize, c.nodes, at.dir, at.name, k, FileTypeOf(node));
    WithEntryOthers(c.nodes, at.dir, at.name, k, FileTypeOf(node));
  }

  // ----- removal -----

  /** After a removal the inode answers to nothing; every other inode keeps its paths. */
  lemma RemovedPaths(size: nat, c: Catalog, path: seq<byte>, d': Disk, c': Catalog, names: seq<Name>, x: nat)
    requires Removed(c, path, d', c') && CatalogOk(size, c) && CatalogOk(size, c') && DotFree(names)
    ensures WalkPath(c'.nodes, names, ROOT) == Ok(x) <==>
      x != Occupant(c.nodes, path).value.1 && WalkPath(c.nodes, names, ROOT) == Ok(x)
  {
    hide CatalogOk, Occupant, CanErase, WalkPath, Remove, Ordinary, TreeOk, Coherent;
    TreeOf(size, c);
    TreeOf(size, c');
    var (at, k) := Occupant(c.nodes, path).value;
    RemoveUp(c, at.dir, at.name, k);
    TreeUpKeys(size, c.nodes, c.up);
    forall y | y in c.up ensures c.up[y].dir != k {
      NoChildren(size, c.nodes, c.up, k, y);
    }
    ChainRemoved(c.up, k, names, x);
    WalkIsChain(size, c.nodes, c.up, names, x);
    WalkIsChain(size, c'.nodes, c'.up, names, x);
  }

  lemma RemoveUp(c: Catalog, p: nat, name: Name, k: nat)
    requires CanErase(c.nodes, p, name) && k in c.nodes
    ensures Remove(c, p, name, k).up == c.up - {k}
  {
    hide CanErase;
  }

  /** `k` is gone, the listing at `at.dir` has lost the one name, and nothing else differs. */
  ghost predicate NameLost(before: map<nat, Node>, at: Place, k: nat, after: map<nat, Node>) {
    && after.Keys == before.Keys - {k} && at.dir != k
    && (forall x :: x in before && x != at.dir && x != k ==> after[x] == before[x])
    && IsDir(after, at.dir) && IsDir(before, at.dir)
    && forall n ::
      LookupName(after[at.dir].entries, n) == if n == at.name then None else LookupName(before[at.dir].entries, n)
  }

  /** Every other file keeps its bytes, every other directory its listing, and the parent
      loses exactly the one name. */
  lemma RemovedFrame(size: nat, c: Catalog, path: seq<byte>, d': Disk, c': Catalog)
    requires Removed(c, path, d', c') && CatalogOk(size, c)
    ensures NameLost(c.nodes, Occupant(c.nodes, path).value.0, Occupant(c.nodes, path).value.1, c'.nodes)
  {
    hide CatalogOk, Occupant, CanErase, TreeOk, LookupName, Ordinary, Find, FindBinding, Erase, ListingOk, Tiles;
    hide NodeBlocks, DirsOk, Parent, WithoutEntry, Coherent;
    var (at, k) := Occupant(c.nodes, path).value;
    RemovedNodes(c, path, d', c');
    NotItself(size, c, at, k);
    DirsFromCatalog(size, c, at, k);
    WithoutEntryDir(size, c.nodes, at.dir, at.name);
    WithoutEntryOthers(c.nodes, at.dir, at.name);
    hide Removed, Detachable;
  }

  lemma RemovedNodes(c: Catalog, path: seq<byte>, d': Disk, c': Catalog)
    requires Removed(c, path, d', c')
    ensures var (at, k) := Occupant(c.nodes, path).value;
      && Detachable(c, at.dir, at.name, k) && CanErase(c.nodes, at.dir, at.name)
      && c'.nodes == WithoutEntry(c.nodes, at.dir, at.name) - {k}
  {
    hide Occupant, CanErase, Detachable, Coherent, WithoutEntry;
  }

  lemma NotItself(size: nat, c: Catalog, at: Place, k: nat)
    requires CatalogOk(size, c) && Detachable(c, at.dir, at.name, k)
    ensures at.dir != k && k in c.nodes
  {
    hide CatalogOk, TreeOk;
    TreeOf(size, c);
    NoChildren(size, c.nodes, c.up, k, k);
  }

  // ----- renaming -----

  /** With no dots in either path, a directory is moved into its own subtree exactly when
      its path is a prefix of the destination directory's: a test on the two strings. */
  lemma KnotsIffPrefix(size: nat, c: Catalog, oldPath: seq<byte>, newPath: seq<byte>)
    requires CatalogOk(size, c) && DotFree(Components(oldPath)) && DotFree(Components(newPath))
    requires PlanOf(c.nodes, oldPath, newPath).Fresh?
    ensures |Components(newPath)| > 0
    ensures Knots(c, PlanOf(c.nodes, oldPath, newPath)) <==>
      Components(oldPath) <= Components(newPath)[..|Components(newPath)| - 1]
  {
    hide PlanOf, CatalogOk, TreeOk, WalkPath, Components, Below, Ordinary, DotFree, Chain, OwnOk, LostOk, DirsOk, Apart;
    TreeOf(size, c);
    PlanWalks(c.nodes, oldPath, newPath);
    var plan := PlanOf(c.nodes, oldPath, newPath);
    var front := Components(newPath)[..|Components(newPath)| - 1];
    TreeApart(size, c.nodes, c.up);
    DotFreeParts(Components(newPath), Components(newPath), |Components(newPath)| - 1);
    WalkIsChain(size, c.nodes, c.up, Components(oldPath), plan.k);
    WalkIsChain(size, c.nodes, c.up, front, plan.to.dir);
    BelowIffPrefix(c.up, front, plan.to.dir, Components(oldPath), plan.k);
  }

  /** The plan's inodes are what open_path finds at the two paths. */
  lemma PlanWalks(nodes: map<nat, Node>, oldPath: seq<byte>, newPath: seq<byte>)
    requires PlanOf(nodes, oldPath, newPath).Fresh? || PlanOf(nodes, oldPath, newPath).Replace?
    ensures var plan := PlanOf(nodes, oldPath, newPath); var names := Components(newPath);
      && |names| > 0 && names[|names| - 1] == plan.to.name
      && WalkPath(nodes, names[..|names| - 1], ROOT) == Ok(plan.to.dir)
      && WalkPath(nodes, Components(oldPath), ROOT) == Ok(plan.k)
  {
    SplitAgreesWithWalk(oldPath);
    SplitAgreesWithWalk(newPath);
    hide SplitPath, Components, LookupName;
    var (parent, name) := SplitPath(newPath).value;
    assert (Components(parent) + [name])[..|Components(parent)|] == Components(parent);
    var (oldParent, oldName) := SplitPath(oldPath).value;
    WalkAppend(nodes, Components(oldParent), oldName, ROOT);
    hide WalkPath;
  }

  lemma DotFreeParts(a: seq<Name>, b: seq<Name>, i: nat)
    requires DotFree(a) && DotFree(b) && i <= |a|
    ensures DotFree(a + b) && DotFree(a[..i])
  {
    hide Ordinary;
  }

  /** Renaming over a file fails exactly when the erased name no longer has room; the
      destination is removed either way. */
  lemma OverwriteLoses(size: nat, d: Disk, c: Catalog, plan: Plan, r: Result<Unit>, d': Disk, c': Catalog)
    requires CatalogOk(size, c) && plan.Replace? && Follows(d, c, plan, r, d', c')
    ensures IsDir(c.nodes, plan.to.dir) && Find(c.nodes[plan.to.dir].entries, plan.to.name).Some?
    ensures var es := c.nodes[plan.to.dir].entries; var i := Find(es, plan.to.name).value;
      r.Err? <==> i < |es| - 1 && Slack(es) < Actual(plan.to.name)
    ensures r.Err? ==> c'.nodes == WithoutEntry(c.nodes, plan.to.dir, plan.to.name) - {plan.gone}
  {
    hide CatalogOk, ListingOk, CanMove, CarveFault, Erase, Find, Pack, AllEncodable, Slack, Actual, Coherent, Acyclic;
    hide Below, WithoutEntry, Tiles;
    var es := c.nodes[plan.to.dir].entries;
    DirCarves(size, c, plan.to.dir, plan.to.name);
    ReplaceFits(es, Find(es, plan.to.name).value, size);
    WithoutEntryAt(c.nodes, plan.to.dir, plan.to.name);
    var c1 := Remove(c, plan.to.dir, plan.to.name, plan.gone);
    if r.Ok? {
      MoveCarves(c1.nodes, plan.from.dir, plan.from.name, plan.to.dir, plan.to.name, plan.k);
    }
  }

  lemma MoveCarves(nodes: map<nat, Node>, p: nat, was: Name, q: u32, name: Name, k: u32)
    requires CanMove(nodes, p, was, q, name, k)
    ensures IsDir(nodes, q) && |nodes[q].entries| > 0 && CarveFault(nodes[q].entries, name).None?
  {
    hide CarveFault, AllEncodable, CanErase, WithEntry, WithoutEntry;
  }

  lemma WithoutEntryAt(nodes: map<nat, Node>, p: nat, name: Name)
    requires CanErase(nodes, p, name)
    ensures IsDir(WithoutEntry(nodes, p, name), p)
    ensures WithoutEntry(nodes, p, name)[p].entries == Erase(nodes[p].entries, Find(nodes[p].entries, name).value)
  {
    hide Erase, Find;
  }

  // ----- undoing, and first fit -----

  /** Walks that succeed before a creation succeed after it, dots included. */
  lemma {:induction false} WalkGrows(nodes: map<nat, Node>, after: map<nat, Node>, p: nat, name: Name,
                                     names: seq<Name>, y: nat, x: nat)
    requires forall z :: z in nodes ==> z in after
    requires forall z :: z in nodes && z != p ==> after[z] == nodes[z]
    requires IsDir(nodes, p) && IsDir(after, p) && LookupName(nodes[p].entries, name) == None
    requires forall n :: n != name ==> LookupName(after[p].entries, n) == LookupName(nodes[p].entries, n)
    requires WalkPath(nodes, names, y) == Ok(x)
    ensures WalkPath(after, names, y) == Ok(x)
    decreases |names|
  {
    hide LookupName;
    if |names| > 0 {
      WalkGrows(nodes, after, p, name, names[1..], LookupName(nodes[y].entries, names[0]).value.inode, x);
    }
  }

  /** What a creation made is found again at the same path, and removing it gives back
      the whole catalog as it was. */
  lemma CreatedThenRemoved(d: Disk, c: Catalog, path: seq<byte>, k: nat, node: Node, c1: Catalog)
    requires Created(d, c, path, k, node, c1) && CatalogOk(d.sb.blockSize, c)
    ensures Occupant(c1.nodes, path) == Ok((Vacancy(c.nodes, path).value, k))
    ensures forall d2, c2 :: Removed(c1, path, d2, c2) ==> c2 == c
  {
    CreatedFrame(d, c, path, k, node, c1);
    CreatedParts(d, c, path, k, node, c1);
    var at := Vacancy(c.nodes, path).value;
    RemoveEntered(d.sb.blockSize, c, at.dir, at.name, k, node);
    FoundAgain(c, path, c1, at, k);
    hide Created, CatalogOk, Vacancy, Occupant, CanCarve, CanErase, Enterable, Enter, Remove, Detachable, Coherent;
    hide LookupName;
  }

  lemma FoundAgain(c: Catalog, path: seq<byte>, c1: Catalog, at: Place, k: nat)
    requires Vacancy(c.nodes, path) == Ok(at) && c1.nodes.Keys == c.nodes.Keys + {k} && k !in c.nodes
    requires forall x :: x in c.nodes && x != at.dir ==> c1.nodes[x] == c.nodes[x]
    requires IsDir(c1.nodes, at.dir) && LookupName(c1.nodes[at.dir].entries, at.name).Some?
    requires LookupName(c1.nodes[at.dir].entries, at.name).value.inode == k
    requires forall n :: n != at.name ==>
      LookupName(c1.nodes[at.dir].entries, n) == LookupName(c.nodes[at.dir].entries, n)
    ensures Occupant(c1.nodes, path) == Ok((at, k))
  {
    VacantAt(c, path);
    hide LookupName, SplitPath, Components, WalkPath;
    WalkGrows(c.nodes, c1.nodes, at.dir, at.name, Components(SplitPath(path).value.0), ROOT, at.dir);
  }

  /** Two disks of the same geometry that hold the same catalog agree on both bitmaps, all
      counters, every directory's block and every directory's link count. */
  lemma SameCatalogSameDisk(a: Disk, b: Disk, c: Catalog)
    requires Core(a, c) && Core(b, c)
    requires b.sb.blockSize == a.sb.blockSize && b.sb.inodesCount == a.sb.inodesCount
    requires b.sb.blocksCount == a.sb.blocksCount
    ensures b.blockBits == a.blockBits && b.inodeBits == a.inodeBits
    ensures b.gd.freeBlocksCount == a.gd.freeBlocksCount && b.sb.freeBlocksCount == a.sb.freeBlocksCount
    ensures b.gd.freeInodesCount == a.gd.freeInodesCount && b.sb.freeInodesCount == a.sb.freeInodesCount
    ensures b.gd.usedDirsCount == a.gd.usedDirsCount
  {
    hide Core, CatalogOk, Geometry, TreeOnDisk, FirstData, BitmapsOk, Sized, BlockBitsOk, InodeBitsOk, FreeClean;
    hide CountsOk;
    CoreParts(a, c);
    CoreParts(b, c);
    SameLengths(a, b);
    SameFirst(a.sb, b.sb);
    BitmapsParts(a, c);
    BitmapsParts(b, c);
    SameBlockBits(a.blockBits, b.blockBits, FirstData(a.sb), a.sb.blocksCount, c.own, c.lostBlocks);
    SameInodeBits(a.inodeBits, b.inodeBits, a.sb.inodesCount, c.nodes.Keys, c.lostInodes);
    SameCounts(a.blockBits, a.sb.blocksCount, a.gd.freeBlocksCount, a.sb.freeBlocksCount, b.gd.freeBlocksCount,
      b.sb.freeBlocksCount);
    SameCounts(a.inodeBits, a.sb.inodesCount, a.gd.freeInodesCount, a.sb.freeInodesCount, b.gd.freeInodesCount,
      b.sb.freeInodesCount);
    SameDirCounts(a, b, c);
  }

  lemma SameBlockBits(a: seq<bool>, b: seq<bool>, first: nat, n: nat, own: map<nat, nat>, lost: set<nat>)
    requires BlockBitsOk(a, first, n, own, lost) && BlockBitsOk(b, first, n, own, lost) && |a| == |b|
    ensures b == a
  {
    assert forall i :: 0 <= i < |a| ==> b[i] == a[i];
  }

  lemma SameInodeBits(a: seq<bool>, b: seq<bool>, n: nat, live: set<nat>, lost: set<nat>)
    requires InodeBitsOk(a, n, live, lost) && InodeBitsOk(b, n, live, lost) && |a| == |b|
    ensures b == a
  {
    assert forall i :: 0 <= i < |a| ==> b[i] == a[i];
  }

  lemma SameCounts(bits: seq<bool>, n: nat, aGroup: nat, aTotal: nat, bGroup: nat, bTotal: nat)
    requires CountsOk(bits, n, aGroup, aTotal) && CountsOk(bits, n, bGroup, bTotal)
    ensures bGroup == aGroup && bTotal == aTotal
  {
    hide FreeSet;
  }

  lemma SameDirCounts(a: Disk, b: Disk, c: Catalog)
    requires TreeOnDisk(a, c) && TreeOnDisk(b, c)
    ensures b.gd.usedDirsCount == a.gd.usedDirsCount
  {
    hide NodesOk, LinksOk, DirSet;
  }

  lemma SameLengths(a: Disk, b: Disk)
    requires Geometry(a.sb, a.gd) && Sized(a) && Geometry(b.sb, b.gd) && Sized(b) && b.sb.blockSize == a.sb.blockSize
    ensures |b.blockBits| == |a.blockBits| && |b.inodeBits| == |a.inodeBits|
  {
    hide Geometry, FirstData;
  }

  lemma SameFirst(a: Superblock, b: Superblock)
    requires a.blockSize == b.blockSize > 0 && a.inodesCount == b.inodesCount
    ensures FirstData(a) == FirstData(b)
  {
  }

  lemma SameDirectory(a: Disk, b: Disk, c: Catalog, k: nat)
    requires Core(a, c) && Core(b, c) && IsDir(c.nodes, k)
    requires b.sb.blockSize == a.sb.blockSize && b.sb.inodesCount == a.sb.inodesCount
    requires b.sb.blocksCount == a.sb.blocksCount
    ensures c.nodes[k].block < |a.data| && c.nodes[k].block < |b.data|
    ensures b.data[c.nodes[k].block] == a.data[c.nodes[k].block]
    ensures 1 <= k <= |a.inodes| && k <= |b.inodes| && b.inodes[k - 1].linksCount == a.inodes[k - 1].linksCount
  {
    DirBlockIn(a, c, k);
    DirBlockIn(b, c, k);
    LinkRoom(a, c, k);
    LinkRoom(b, c, k);
    hide Core, Pack, AllEncodable, RunLeaf, FirstData, Subdirs;
  }

  lemma OneFirstInode(a: Disk, b: Disk, k: nat, k': nat)
    requires b.inodeBits == a.inodeBits && FirstFreeInode(a, k) && FirstFreeInode(b, k')
    ensures k' == k
  {
  }

  lemma OneFirstRun(d: Disk, s: nat, s': nat, count: nat)
    requires FirstFreeRun(d, s, count) && FirstFreeRun(d, s', count)
    ensures s' == s
  {
    hide FreeRun;
  }

  /** First fit depends on the bits alone: the same creation again gets the same inode
      and the same blocks. */
  lemma FirstFitRepeats(a: Disk, b: Disk, k: nat, k': nat, s: nat, s': nat, count: nat)
    requires b.blockBits == a.blockBits && b.inodeBits == a.inodeBits && b.sb.blocksCount == a.sb.blocksCount
    requires b.sb.inodesCount == a.sb.inodesCount
    requires FirstFreeInode(a, k) && FirstFreeInode(b, k') && FirstFreeRun(a, s, count) && FirstFreeRun(b, s', count)
    ensures k' == k && s' == s
  {
    hide FirstFreeRun, FirstFreeInode, FreeRun;
    SameRuns(a, b, count);
    OneFirstInode(a, b, k, k');
    OneFirstRun(a, s, s', count);
  }

  /** The free-inode counter says whether a creation finds an inode. */
  lemma CounterTellsInodes(d: Disk, c: Catalog)
    requires Core(d, c)
    ensures NoFreeInode(d) <==> d.gd.freeInodesCount == 0
  {
    CoreParts(d, c);
    SizedParts(d);
    hide Core, CatalogOk, Geometry, TreeOnDisk, FreeClean, BlockBitsOk, InodeBitsOk, Sized, FirstData;
    BitmapsParts(d, c);
    var free := FreeSet(d.inodeBits, d.sb.inodesCount);
    hide FreeSet, BitmapsOk;
    if NoFreeInode(d) {
      assert free == {};
    } else {
      var i :| 0 <= i < d.sb.inodesCount && i < |d.inodeBits| && !d.inodeBits[i];
      assert i in free;
    }
  }

  /** And the free-block counter whether it finds a single block. */
  lemma CounterTellsBlocks(d: Disk, c: Catalog)
    requires Core(d, c)
    ensures NoFreeRun(d, 1) <==> d.gd.freeBlocksCount == 0
  {
    hide Core, CatalogOk, Geometry, TreeOnDisk, FreeClean, BlockBitsOk, InodeBitsOk, Sized, FirstData, BitmapsOk;
    CoreParts(d, c);
    SizedParts(d);
    BitmapsParts(d, c);
    EmptyOrNot(d, FreeSet(d.blockBits, d.sb.blocksCount));
  }

  lemma EmptyOrNot(d: Disk, free: set<nat>)
    requires d.sb.blocksCount <= |d.blockBits| && forall i :: i in free <==>
      0 <= i < d.sb.blocksCount && i < |d.blockBits| && !d.blockBits[i]
    ensures NoFreeRun(d, 1) <==> free == {}
  {
    if free == {} {
      forall s: nat ensures !FreeRun(d, s, 1) {
        assert s !in free;
      }
    } else {
      var i :| i in free;
      assert FreeRun(d, i, 1);
    }
  }

  /** What create_file stored is what reading the new inode yields. */
  lemma CreatedReads(d: Disk, c: Catalog, path: seq<byte>, data: seq<byte>, k: nat, d': Disk, c': Catalog)
    requires d.sb.blockSize > 0 && FileCreated(d, c, path, data, k, d', c')
    ensures k in c'.nodes && HasContent(c'.nodes[k]) && Content(c'.nodes[k]) == data
  {
    FileBlocksHold(data, d.sb.blockSize);
    hide FileBlocks, Concat, Created, CreateFault, FirstFreeRun, Coherent;
  }
}
