/** The failures at inputs a new filesystem meets: a few calls from `format` reach each. */
module Witnesses {
  import opened Bytes
  import opened Results
  import opened DirEntries
  import opened DirBlocks
  import opened Listings
  import opened Paths
  import opened Inodes
  import opened Superblocks
  import opened Catalogs
  import opened Disks
  import opened DiskFacts
  import opened Images
  import opened Operations
  import opened Removals
  import opened Steps
  import opened Truncations
  import opened Renames
  import opened Refinements
  import opened Accounts
  import opened Cycles
  import opened Mkfs
  import opened Filesystems
  import opened Runs

  const A: Name := [97]
  const B: Name := [98]
  const TOP: seq<byte> := [SLASH]

  /** A configuration with a free block. */
  predicate Roomy(config: Config) {
    OneGroup(config) && config.sizeBlocks > MetadataBlocks(config)
  }

  // ----- paths -----

  lemma AimAt(nodes: map<nat, Node>, dir: seq<byte>, p: nat, name: Name)
    requires |dir| > 0 && dir[0] == SLASH && Directory(nodes, dir) == Ok(p) && SlashFree(name)
    ensures Aim(nodes, JoinPath(dir, name)) == Ok(Place(p, name))
    ensures SplitPath(JoinPath(dir, name)).Ok? && |JoinPath(dir, name)| > 0 && JoinPath(dir, name)[0] == SLASH
  {
    JoinThenSplit(dir, name);
    hide SplitPath, Components, WalkPath, JoinPath;
    SplitAgreesWithWalk(JoinPath(dir, name));
  }

  lemma TopDirectory(nodes: map<nat, Node>)
    requires IsDir(nodes, ROOT)
    ensures Directory(nodes, TOP) == Ok(ROOT)
  {
    assert TOP[1..] == [];
    assert Components(TOP) == [];
  }

  lemma DirectoryIn(nodes: map<nat, Node>, name: Name, k: nat)
    requires IsDir(nodes, ROOT) && IsDir(nodes, k) && SlashFree(name)
    requires LookupName(nodes[ROOT].entries, name).Some? && LookupName(nodes[ROOT].entries, name).value.inode == k
    ensures Directory(nodes, JoinPath(TOP, name)) == Ok(k)
  {
    ComponentsOfName(name);
    assert JoinPath(TOP, name) == [SLASH] + name;
    hide LookupName, Components;
    assert [name][1..] == [];
    assert WalkPath(nodes, [], k) == Ok(k);
  }

  // ----- one directory under the root -----

  /** `/a` is an empty directory and there is room for another name beside it. */
  ghost predicate HoldsA(c: Catalog, size: nat, k: nat) {
    && (size == 2048 || size == 4096) && IsDir(c.nodes, ROOT) && IsDir(c.nodes, k) && k != ROOT && 0 < k < 0x1_0000_0000
    && c.nodes[k].entries == NewListing(k, ROOT, size)
    && LookupName(c.nodes[ROOT].entries, A) == Some(Binding(k, FT_DIR)) && LookupName(c.nodes[ROOT].entries, B) == None
    && |c.nodes[ROOT].entries| > 0 && CarveFault(c.nodes[ROOT].entries, B) == None
  }

  lemma NewListingRoom(k: u32, parent: u32, size: nat, name: Name)
    requires (size == 2048 || size == 4096) && k != 0 && parent != 0 && Ordinary(name) && |name| <= NAME_MAX
    ensures var es := NewListing(k, parent, size);
      |es| == 2 && Slack(es) == size - 24 && CarveFault(es, name) == None && LookupName(es, name) == None
  {
    hide Ordinary;
    var es := NewListing(k, parent, size);
    NotDots(name);
    CarveFits(es, name);
  }

  /** The parent's records after a creation. */
  lemma CreatedList(d: Disk, c: Catalog, path: seq<byte>, k: nat, node: Node, c': Catalog)
    requires Created(d, c, path, k, node, c')
    ensures Vacancy(c.nodes, path).Ok? && k < 0x1_0000_0000
    ensures var at := Vacancy(c.nodes, path).value;
      && CanCarve(c.nodes, at.dir, at.name) && IsDir(c'.nodes, at.dir)
      && c'.nodes[at.dir].entries == Carve(c.nodes[at.dir].entries, at.name, k, FileTypeOf(node))
  {
    hide Vacancy, Carve, CarveFault, AllEncodable, LookupName, Ordinary, FreshBlocks, FirstFreeInode, FileTypeOf;
    hide NodeBlocks;
  }

  lemma MadeA(d: Disk, c: Catalog, k: nat, d': Disk, c': Catalog)
    requires Core(d, c) && (d.sb.blockSize == 2048 || d.sb.blockSize == 4096) && IsDir(c.nodes, ROOT)
    requires c.nodes[ROOT].entries == NewListing(ROOT, ROOT, d.sb.blockSize)
    requires DirCreated(d, c, JoinPath(TOP, A), k, d', c')
    ensures HoldsA(c', d.sb.blockSize, k)
  {
    hide Core, Created, CatalogOk, JoinPath, Carve, CarveFault, LookupName, CreateFault, FirstFreeRun;
    hide Coherent, Slack, Actual;
    var size := d.sb.blockSize;
    BaseFacts(d, c);
    TopDirectory(c.nodes);
    AimAt(c.nodes, TOP, ROOT, A);
    NewListingRoom(ROOT, ROOT, size, A);
    NewListingRoom(ROOT, ROOT, size, B);
    var path, es := JoinPath(TOP, A), NewListing(ROOT, ROOT, size);
    assert Vacancy(c.nodes, path) == Ok(Place(ROOT, A));
    CreatedFrame(d, c, path, k, c'.nodes[k], c');
    CreatedParts(d, c, path, k, c'.nodes[k], c');
    CreatedList(d, c, path, k, c'.nodes[k], c');
    CarveSlack(es, A, k, FT_DIR);
    ShortNames();
    CarveFits(Carve(es, A, k, FT_DIR), B);
    CarveFits(es, A);
  }

  lemma ShortNames()
    ensures Actual(A) == 12 && Actual(B) == 12 && |A| <= NAME_MAX && |B| <= NAME_MAX && Ordinary(A) && Ordinary(B)
    ensures A != B
  {
  }

  lemma NewFacts(config: Config)
    requires Roomy(config)
    ensures LayoutFault(config).None? && (config.blockSize == 2048 || config.blockSize == 4096)
    ensures NewSuperblock(config).blockSize == config.blockSize
    ensures NewSuperblock(config).inodesCount == config.inodesPerGroup
    ensures NewDescriptor(config).freeBlocksCount > 0 && NewDescriptor(config).freeInodesCount > 0
    ensures IsDir(NewCatalog(config).nodes, ROOT) && NewCatalog(config).nodes.Keys == {ROOT}
    ensures NewCatalog(config).nodes[ROOT].entries == NewListing(ROOT, ROOT, config.blockSize)
    ensures NoLeaks(NewCatalog(config))
  {
    hide NewListing;
  }

  /** A name that aims at a vacancy with room, and an inode and the blocks to be had. */
  lemma NoFault(d: Disk, c: Catalog, name: Name, count: nat)
    requires Core(d, c) && IsDir(c.nodes, ROOT) && SlashFree(name) && LookupName(c.nodes[ROOT].entries, name) == None
    requires |c.nodes[ROOT].entries| > 0 && CarveFault(c.nodes[ROOT].entries, name) == None
    requires d.gd.freeInodesCount > 0 && (count == 0 || (count == 1 && d.gd.freeBlocksCount > 0))
    ensures Vacancy(c.nodes, JoinPath(TOP, name)) == Ok(Place(ROOT, name))
    ensures CreateFault(d, c, JoinPath(TOP, name), count) == None
    ensures forall e, c' :: !CreateFails(d, c, JoinPath(TOP, name), count, e, c')
  {
    hide Core, JoinPath, CarveFault, LookupName, CreateLeak, Leaked, NoFreeInode, Aim;
    TopDirectory(c.nodes);
    AimAt(c.nodes, TOP, ROOT, name);
    CounterTellsInodes(d, c);
    CounterTellsBlocks(d, c);
    assert !NoFreeRun(d, count);
    hide NoFreeRun;
  }

  /** format, open, mkdir "/a". */
  method MakeA(config: Config) returns (fs: Filesystem, k: nat)
    requires Roomy(config)
    ensures fresh(fs) && fs.Valid() && HoldsA(fs.cat, config.blockSize, k)
  {
    hide ViewOf, Holds, Core, Acyclic, SameSetup, Coherent, NewSuperblock, NewDescriptor, CreateFails, DirCreated;
    hide HoldsA, JoinPath, InodesKept, NewListing;
    var mounted := Mount(config);
    fs := mounted.value;
    fs.ViewSb();
    NewFacts(config);
    ghost var d, c := fs.View(), fs.cat;
    NewListingRoom(ROOT, ROOT, config.blockSize, A);
    ShortNames();
    NoFault(d, c, A, 1);
    var made := fs.Mkdir(JoinPath(TOP, A));
    k := made.value;
    MadeA(d, c, k, fs.View(), fs.cat);
  }

  /** The names of `/a`, of what is in it, and beside it. */
  lemma AroundA(c: Catalog, size: nat, k: nat)
    requires HoldsA(c, size, k)
    ensures Aim(c.nodes, JoinPath(TOP, A)) == Ok(Place(ROOT, A)) && SplitPath(JoinPath(TOP, A)).Ok?
    ensures Aim(c.nodes, JoinPath(TOP, B)) == Ok(Place(ROOT, B)) && SplitPath(JoinPath(TOP, B)).Ok?
    ensures Aim(c.nodes, JoinPath(JoinPath(TOP, A), B)) == Ok(Place(k, B))
    ensures SplitPath(JoinPath(JoinPath(TOP, A), B)).Ok?
    ensures Aim(c.nodes, JoinPath(JoinPath(TOP, A), DOT)) == Ok(Place(k, DOT))
    ensures SplitPath(JoinPath(JoinPath(TOP, A), DOT)).Ok?
    ensures IsDir(c.nodes, k) && IsDir(c.nodes, ROOT) && |c.nodes[k].entries| == 2
    ensures LookupName(c.nodes[k].entries, B) == None && CarveFault(c.nodes[k].entries, B) == None
    ensures LookupName(c.nodes[k].entries, DOT) == Some(Binding(k, FT_DIR))
  {
    hide JoinPath, LookupName, CarveFault, Aim, SplitPath;
    ShortNames();
    TopDirectory(c.nodes);
    AimAt(c.nodes, TOP, ROOT, A);
    AimAt(c.nodes, TOP, ROOT, B);
    DirectoryIn(c.nodes, A, k);
    AimAt(c.nodes, JoinPath(TOP, A), k, B);
    AimAt(c.nodes, JoinPath(TOP, A), k, DOT);
    NewListingRoom(k, ROOT, size, B);
    NewListingOk(k, ROOT, size);
    LookupAt(k, c.nodes[k].entries, 0);
  }

  lemma IntoItselfPlan(c: Catalog, size: nat, k: nat)
    requires HoldsA(c, size, k)
    ensures var path := JoinPath(TOP, A); var plan := PlanOf(c.nodes, path, JoinPath(path, B));
      plan == Fresh(Place(ROOT, A), k, Place(k, B)) && Knots(c, plan) && !MovesDots(c.nodes, path, JoinPath(path, B))
  {
    AroundA(c, size, k);
    assert Climb(c.up, k, 0) == k;
    hide JoinPath, LookupName, CarveFault, Aim, SplitPath, NewListing;
  }

  /** There is room for the name in the directory itself. */
  lemma IntoItselfWorks(d: Disk, c: Catalog, size: nat, k: nat, r: Result<Unit>, d': Disk, c': Catalog)
    requires HoldsA(c, size, k)
    requires var path := JoinPath(TOP, A); Follows(d, c, PlanOf(c.nodes, path, JoinPath(path, B)), r, d', c')
    ensures r.Ok?
  {
    hide JoinPath, LookupName, CarveFault, PlanOf, Follows, HoldsA, Knots, MovesDots, Aim, SplitPath;
    AroundA(c, size, k);
    IntoItselfPlan(c, size, k);
    var path := JoinPath(TOP, A);
    if r.Err? {
      RefusedForRoom(d, c, PlanOf(c.nodes, path, JoinPath(path, B)), r, d', c');
    }
  }

  /** A rename to a fresh name fails only for want of room. */
  lemma RefusedForRoom(d: Disk, c: Catalog, plan: Plan, r: Result<Unit>, d': Disk, c': Catalog)
    requires Follows(d, c, plan, r, d', c') && plan.Fresh? && r.Err?
    ensures IsDir(c.nodes, plan.to.dir) && |c.nodes[plan.to.dir].entries| > 0
    ensures CarveFault(c.nodes[plan.to.dir].entries, plan.to.name).Some?
  {
    hide CarveFault, InodesKept;
  }

  lemma ItsDotPlan(c: Catalog, size: nat, k: nat)
    requires HoldsA(c, size, k)
    ensures MovesDots(c.nodes, JoinPath(JoinPath(TOP, A), DOT), JoinPath(TOP, B))
  {
    AroundA(c, size, k);
    hide JoinPath, LookupName, CarveFault, Aim, SplitPath, NewListing;
  }

  lemma ItsDotRemoved(c: Catalog, size: nat, k: nat)
    requires HoldsA(c, size, k)
    ensures RemovesItself(c.nodes, JoinPath(JoinPath(TOP, A), DOT))
  {
    AroundA(c, size, k);
    hide JoinPath, LookupName, CarveFault, Aim, SplitPath, NewListing;
  }

  // ----- three operations that succeed and break the tree -----

  /** Renaming `/a` to `/a/b` succeeds, and no catalog that fits the disk is a tree. */
  method RenameIntoItself(config: Config) returns (fs: Filesystem, r: Result<Unit>)
    requires Roomy(config)
    ensures r.Ok? && fs.Shape() && Core(fs.View(), fs.cat) && !Acyclic(fs.cat.up) && Treeless(fs.View())
  {
    hide ViewOf, Holds, Core, Acyclic, SameSetup, HoldsA, JoinPath, PlanOf, Follows, Knots, MovesDots, Treeless;
    var k;
    fs, k := MakeA(config);
    ghost var d, c := fs.View(), fs.cat;
    IntoItselfPlan(c, config.blockSize, k);
    var path := JoinPath(TOP, A);
    r := fs.Rename(path, JoinPath(path, B));
    IntoItselfWorks(d, c, config.blockSize, k, r, fs.View(), fs.cat);
    CyclicTreeless(fs.View(), fs.cat);
  }

  /** Renaming `/a/.` to `/b` succeeds, and no catalog fits the disk. */
  method RenameItsDot(config: Config) returns (fs: Filesystem, r: Result<Unit>)
    requires Roomy(config)
    ensures r.Ok? && fs.Shape() && Unfit(fs.View())
  {
    hide ViewOf, Holds, Core, Acyclic, SameSetup, HoldsA, JoinPath, PlanOf, Follows, Knots, MovesDots, Unfit;
    var k;
    fs, k := MakeA(config);
    ItsDotPlan(fs.cat, config.blockSize, k);
    r := fs.Rename(JoinPath(JoinPath(TOP, A), DOT), JoinPath(TOP, B));
  }

  /** Removing `/a/.` succeeds, and no catalog fits the disk. */
  method RemoveItsDot(config: Config) returns (fs: Filesystem, r: Result<Unit>)
    requires Roomy(config)
    ensures r.Ok? && fs.Shape() && Unfit(fs.View())
  {
    hide ViewOf, Holds, Core, Acyclic, SameSetup, HoldsA, JoinPath, RmdirFault, RemovesItself, Removed, Unfit;
    var k;
    fs, k := MakeA(config);
    ItsDotRemoved(fs.cat, config.blockSize, k);
    r := fs.Rmdir(JoinPath(JoinPath(TOP, A), DOT));
  }

  // ----- an overwrite that loses its destination -----

  /** Seven names as long as names get, and an eighth that fills the block to its last byte. */
  function FileName(i: nat): (name: Name)
    requires i < 8
    ensures |name| == if i < 7 then 255 else 168
    ensures Ordinary(name) && name[0] == 97 + i
  {
    [97 + i] + seq(if i < 7 then 254 else 167, _ => 97)
  }

  lemma NeededBy(i: nat)
    requires i < 8
    ensures Actual(FileName(i)) == if i < 7 then 264 else 176
  {
  }

  /** What is left of a 2048-byte block once the two dots and `i` of the names are in it. */
  function RoomAfter(i: nat): int {
    if i <= 7 then 2024 - 264 * i else 0
  }

  /** The root holds the first `i` names, each a file of its own. */
  ghost predicate Filled(c: Catalog, ks: seq<nat>) {
    && |ks| <= 8 && IsDir(c.nodes, ROOT) && |c.nodes.Keys| == 1 + |ks| && NoLeaks(c)
    && var es := c.nodes[ROOT].entries;
    && |es| == 2 + |ks| && Slack(es) == RoomAfter(|ks|)
    && (forall j :: 0 <= j < |ks| ==> es[2 + j].name == FileName(j) && FileAt(c, ks, j))
    && forall i, j :: 0 <= i < j < |ks| ==> ks[i] != ks[j]
  }

  ghost predicate FileAt(c: Catalog, ks: seq<nat>, j: nat)
    requires IsDir(c.nodes, ROOT) && j < |ks| && j < 8
  {
    && ks[j] in c.nodes && c.nodes[ks[j]].File?
    && LookupName(c.nodes[ROOT].entries, FileName(j)).Some?
    && LookupName(c.nodes[ROOT].entries, FileName(j)).value.inode == ks[j]
  }

  lemma NotYet(size: nat, c: Catalog, ks: seq<nat>)
    requires CatalogOk(size, c) && Filled(c, ks) && |ks| < 8
    ensures LookupName(c.nodes[ROOT].entries, FileName(|ks|)) == None
  {
    hide CatalogOk, FileAt, ListingOk, Tiles, Slack, Actual;
    DirCarves(size, c, ROOT, DOT);
    var es, name := c.nodes[ROOT].entries, FileName(|ks|);
    assert ListingOk(ROOT, es);
    NotDots(name);
    forall j | 0 <= j < |es| ensures es[j].name != name {
      DotsFirst(ROOT, es);
      if j >= 2 {
        assert es[2 + (j - 2)].name == FileName(j - 2);
      }
    }
    hide FileName;
  }

  lemma DotsFirst(k: nat, es: seq<DirEntry>)
    requires ListingOk(k, es)
    ensures |es| >= 2 && es[0].name == DOT && es[1].name == DOTDOT
  {
  }

  lemma NextFits(size: nat, c: Catalog, ks: seq<nat>)
    requires CatalogOk(size, c) && Filled(c, ks) && |ks| < 8
    ensures |c.nodes[ROOT].entries| > 0 && CarveFault(c.nodes[ROOT].entries, FileName(|ks|)) == None
  {
    hide CatalogOk, FileAt, Slack, Actual, FileName;
    NeededBy(|ks|);
    CarveFits(c.nodes[ROOT].entries, FileName(|ks|));
  }

  lemma OneMore(d: Disk, c: Catalog, ks: seq<nat>, k: nat, d': Disk, c': Catalog)
    requires Core(d, c) && d.sb.blockSize > 0 && Filled(c, ks) && |ks| < 8 && CatalogOk(d.sb.blockSize, c)
    requires Vacancy(c.nodes, JoinPath(TOP, FileName(|ks|))) == Ok(Place(ROOT, FileName(|ks|)))
    requires FileCreated(d, c, JoinPath(TOP, FileName(|ks|)), [], k, d', c')
    ensures Filled(c', ks + [k])
  {
    hide Core, Created, CatalogOk, JoinPath, Carve, CarveFault, LookupName, CreateFault, FirstFreeRun, Coherent, Slack;
    hide Actual, FileName, FileBlocks, AllEncodable, Vacancy, FileAt, FileTypeOf;
    var path, n, es := JoinPath(TOP, FileName(|ks|)), |ks|, c.nodes[ROOT].entries;
    CreatedFrame(d, c, path, k, c'.nodes[k], c');
    CreatedParts(d, c, path, k, c'.nodes[k], c');
    CreatedList(d, c, path, k, c'.nodes[k], c');
    CreatedLeaks(d, c, path, k, c'.nodes[k], c');
    CarveShape(es, FileName(n), k, FileTypeOf(c'.nodes[k]));
    CarveSlack(es, FileName(n), k, FileTypeOf(c'.nodes[k]));
    NeededBy(n);
    FilesKept(c, ks, k, c');
    var ks', es' := ks + [k], c'.nodes[ROOT].entries;
    assert forall j :: 0 <= j < |ks'| ==> es'[2 + j].name == FileName(j);
  }

  lemma FilesKept(c: Catalog, ks: seq<nat>, k: nat, c': Catalog)
    requires Filled(c, ks) && |ks| < 8 && IsDir(c'.nodes, ROOT) && k !in c.nodes && k in c'.nodes && c'.nodes[k].File?
    requires forall x :: x in c.nodes && x != ROOT ==> x in c'.nodes && c'.nodes[x] == c.nodes[x]
    requires forall n ::
      LookupName(c'.nodes[ROOT].entries, n) ==
        if n == FileName(|ks|) then Some(Binding(k, FileTypeOf(c'.nodes[k]))) else LookupName(c.nodes[ROOT].entries, n)
    ensures forall j :: 0 <= j <= |ks| ==> FileAt(c', ks + [k], j)
    ensures forall i, j :: 0 <= i < j <= |ks| ==> (ks + [k])[i] != (ks + [k])[j]
  {
    hide LookupName, FileTypeOf, FileName, Slack;
    var n := |ks|;
    forall j | 0 <= j <= n ensures FileAt(c', ks + [k], j) {
      if j < n {
        assert FileAt(c, ks, j);
        NamesDiffer(j, n);
      }
    }
    forall i, j | 0 <= i < j <= n ensures (ks + [k])[i] != (ks + [k])[j] {
      assert FileAt(c, ks, i);
    }
  }

  lemma NamesDiffer(i: nat, j: nat)
    requires i < j < 8
    ensures FileName(i) != FileName(j)
  {
  }

  lemma CreatedLeaks(d: Disk, c: Catalog, path: seq<byte>, k: nat, node: Node, c': Catalog)
    requires Created(d, c, path, k, node, c')
    ensures c'.lostInodes == c.lostInodes && c'.lostBlocks == c.lostBlocks
  {
    hide Vacancy, CanCarve, Enterable, WithEntry, FirstFreeInode, NodeBlocks, FileTypeOf;
  }

  lemma FreeInodesLeft(d: Disk, c: Catalog, ks: seq<nat>)
    requires Core(d, c) && Filled(c, ks) && |ks| < 8 && d.sb.inodesCount >= 18
    ensures d.gd.freeInodesCount > 0
  {
    hide Core, FileAt, FileName, Slack;
    InodesConserved(d, c);
  }

  lemma NothingYet(config: Config)
    requires Roomy(config) && config.blockSize == 2048
    ensures Filled(NewCatalog(config), [])
  {
    NewFacts(config);
    NewListingRoom(ROOT, ROOT, 2048, A);
    hide NewListing, Slack, NewCatalog;
  }

  /** format, open, and eight empty files whose records fill the root's block. */
  method FillRoot(config: Config) returns (fs: Filesystem, ghost ks: seq<nat>)
    requires Roomy(config) && config.blockSize == 2048 && config.inodesPerGroup >= 18
    ensures fresh(fs) && fs.Valid() && |ks| == 8 && Filled(fs.cat, ks)
  {
    hide ViewOf, Holds, Core, Acyclic, SameSetup, Coherent, NewSuperblock, NewDescriptor, CreateFails, FileCreated;
    hide Filled, JoinPath, InodesKept, NewListing, NewCatalog, CatalogOk, FileName;
    var mounted := Mount(config);
    fs := mounted.value;
    fs.ViewSb();
    NewFacts(config);
    NothingYet(config);
    ks := [];
    for i := 0 to 8
      invariant fs.Valid() && |ks| == i && Filled(fs.cat, ks) && fs.superblock.blockSize == 2048
      invariant fs.superblock.inodesCount >= 18
    {
      ghost var d, c := fs.View(), fs.cat;
      fs.ViewSb();
      BaseFacts(d, c);
      FilledParts(c, ks);
      FreeInodesLeft(d, c, ks);
      NotYet(2048, c, ks);
      NextFits(2048, c, ks);
      NoFault(d, c, FileName(i), 0);
      NoSizeNoBlocks(2048);
      var made := fs.CreateFile(JoinPath(TOP, FileName(i)), []);
      OneMore(d, c, ks, made.value, fs.View(), fs.cat);
      ks := ks + [made.value];
      fs.ViewSb();
      SetupSizes(fs.firstSuperblock, fs.firstGdt[0], d.sb, d.gd, fs.superblock, fs.gdt[0]);
    }
  }

  lemma SetupSizes(sb0: Superblock, gd0: GroupDescriptor, sb: Superblock, gd: GroupDescriptor, sb': Superblock,
                   gd': GroupDescriptor)
    requires SameSetup(sb0, gd0, sb, gd) && SameSetup(sb0, gd0, sb', gd')
    ensures sb'.blockSize == sb.blockSize && sb'.inodesCount == sb.inodesCount
  {
  }

  lemma FilledParts(c: Catalog, ks: seq<nat>)
    requires Filled(c, ks)
    ensures IsDir(c.nodes, ROOT) && |ks| <= 8 && forall i :: 0 <= i < 8 ==> SlashFree(FileName(i))
  {
    hide FileAt, Slack;
  }

  /** Renaming the last of them over the first fails, and the first is gone. */
  method OverwriteLosesFile(config: Config) returns (before: Result<nat>, r: Result<Unit>, after: Result<nat>)
    requires Roomy(config) && config.blockSize == 2048 && config.inodesPerGroup >= 18
    ensures before.Ok? && r.Err? && after.Err?
  {
    hide ViewOf, Holds, Core, Acyclic, SameSetup, Filled, JoinPath, PlanOf, Follows, Knots, MovesDots, CatalogOk;
    hide FileName, WalkPath, Components, Occupant;
    var fs;
    ghost var ks;
    fs, ks := FillRoot(config);
    ghost var d, c := fs.View(), fs.cat;
    BaseFacts(d, c);
    FilledParts(c, ks);
    var first, last := JoinPath(TOP, FileName(0)), JoinPath(TOP, FileName(7));
    FullPlan(d.sb.blockSize, c, ks);
    FoundOrNot(d.sb.blockSize, c, first);
    before := fs.OpenPath(first);
    r := fs.Rename(last, first);
    FullLoses(d.sb.blockSize, d, c, ks, r, fs.View(), fs.cat);
    BaseFacts(fs.View(), fs.cat);
    FoundOrNot(fs.View().sb.blockSize, fs.cat, first);
    after := fs.OpenPath(first);
  }

  lemma FoundOrNot(size: nat, c: Catalog, path: seq<byte>)
    requires CatalogOk(size, c) && SplitPath(path).Ok?
    ensures WalkPath(c.nodes, Components(path), ROOT).Ok? <==> Occupant(c.nodes, path).Ok?
  {
    hide TreeOk, OwnOk, LostOk, WalkPath, Components, Occupant, SplitPath;
    OccupantIsWalk(size, c.nodes, c.up, path);
  }

  lemma FullPlan(size: nat, c: Catalog, ks: seq<nat>)
    requires CatalogOk(size, c) && |ks| == 8 && Filled(c, ks)
    ensures var first, last := JoinPath(TOP, FileName(0)), JoinPath(TOP, FileName(7));
      && PlanOf(c.nodes, last, first) == Replace(Place(ROOT, FileName(7)), ks[7], Place(ROOT, FileName(0)), ks[0])
      && !MovesDots(c.nodes, last, first) && Occupant(c.nodes, first).Ok? && SplitPath(first).Ok?
  {
    hide CatalogOk, JoinPath, LookupName, Aim, SplitPath, FileName, Slack, CarveFault;
    FilledParts(c, ks);
    TopDirectory(c.nodes);
    AimAt(c.nodes, TOP, ROOT, FileName(0));
    AimAt(c.nodes, TOP, ROOT, FileName(7));
    assert FileAt(c, ks, 0) && FileAt(c, ks, 7);
  }

  lemma FullLoses(size: nat, d: Disk, c: Catalog, ks: seq<nat>, r: Result<Unit>, d': Disk, c': Catalog)
    requires CatalogOk(size, c) && |ks| == 8 && Filled(c, ks)
    requires Follows(d, c, PlanOf(c.nodes, JoinPath(TOP, FileName(7)), JoinPath(TOP, FileName(0))), r, d', c')
    ensures r.Err? && Occupant(c'.nodes, JoinPath(TOP, FileName(0))).Err?
  {
    hide CatalogOk, JoinPath, LookupName, Aim, SplitPath, FileName, Slack, CarveFault, PlanOf, Follows, ListingOk, Find;
    hide Actual, WithoutEntry, Erase;
    FullPlan(size, c, ks);
    var plan := PlanOf(c.nodes, JoinPath(TOP, FileName(7)), JoinPath(TOP, FileName(0)));
    OverwriteLoses(size, d, c, plan, r, d', c');
    DirCarves(size, c, ROOT, DOT);
    FirstIndex(size, c, ks);
    NeededBy(0);
    FollowsErases(d, c, plan, r, d', c');
    LostName(size, c, ks, c');
  }

  lemma FollowsErases(d: Disk, c: Catalog, plan: Plan, r: Result<Unit>, d': Disk, c': Catalog)
    requires Follows(d, c, plan, r, d', c') && plan.Replace?
    ensures CanErase(c.nodes, plan.to.dir, plan.to.name)
  {
    hide CanErase, Renamed, InodesKept, Coherent;
  }

  lemma FirstIndex(size: nat, c: Catalog, ks: seq<nat>)
    requires CatalogOk(size, c) && |ks| == 8 && Filled(c, ks)
    ensures |c.nodes[ROOT].entries| == 10 && Find(c.nodes[ROOT].entries, FileName(0)) == Some(2)
    ensures Slack(c.nodes[ROOT].entries) == 0
  {
    hide CatalogOk, Find, FileName, FileAt, Slack, ListingOk;
    DirCarves(size, c, ROOT, DOT);
    var es := c.nodes[ROOT].entries;
    assert es[2 + 0].name == FileName(0);
    LookupAt(ROOT, es, 2);
  }

  lemma LostName(size: nat, c: Catalog, ks: seq<nat>, c': Catalog)
    requires CatalogOk(size, c) && |ks| == 8 && Filled(c, ks) && CanErase(c.nodes, ROOT, FileName(0))
    requires c'.nodes == WithoutEntry(c.nodes, ROOT, FileName(0)) - {ks[0]}
    ensures Occupant(c'.nodes, JoinPath(TOP, FileName(0))).Err?
  {
    hide CatalogOk, FileName, Slack, LookupName, JoinPath, WithoutEntry, CanErase, ListingOk, Tiles, Aim, DirsOk;
    assert FileAt(c, ks, 0);
    FilledParts(c, ks);
    DirsHold(size, c);
    NotDots2(0);
    WithoutEntryDir(size, c.nodes, ROOT, FileName(0));
    WithoutEntryOthers(c.nodes, ROOT, FileName(0));
    assert ROOT != ks[0];
    TopDirectory(c'.nodes);
    AimAt(c'.nodes, TOP, ROOT, FileName(0));
  }

  lemma NotDots2(i: nat)
    requires i < 8
    ensures Ordinary(FileName(i))
  {
  }

  lemma DirsHold(size: nat, c: Catalog)
    requires CatalogOk(size, c)
    ensures DirsOk(size, c.nodes)
  {
    hide DirsOk, UpOk, DownOk, OwnOk, LostOk;
  }
}
