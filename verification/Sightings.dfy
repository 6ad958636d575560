/** What a caller sees when it looks: the records of directories beside the inodes they name,
    and what an operation's result reads as afterwards. */
module Sightings {
  import opened Bytes
  import opened Results
  import opened DirEntries
  import opened DirBlocks
  import opened Listings
  import opened Paths
  import opened Inodes
  import opened Superblocks
  import opened Catalogs
  import opened Moves
  import opened Disks
  import opened DiskFacts
  import opened DiskMoves
  import opened Images
  import opened Operations
  import opened Removals
  import opened Steps
  import opened Truncations
  import opened Renames
  import opened Refinements
  import opened Mkfs
  import opened Filesystems
  import opened Runs
  import opened Scenarios
  import opened Witnesses
  import opened Outcomes

  /** Type byte 1 stands for a regular file, 2 for a directory, 7 for a symlink. */
  predicate Matches(fileType: byte, mode: nat) {
    || (fileType == 1 && mode / 0x1000 == 8) || (fileType == 2 && mode / 0x1000 == 4)
    || (fileType == 7 && mode / 0x1000 == 10)
  }

  /** The record names a live inode and says what it is. */
  predicate Truthful(d: Disk, e: DirEntry) {
    1 <= e.inode <= |d.inodes| && Matches(e.fileType, d.inodes[e.inode - 1].mode)
  }

  /** Every record of every live directory, the dots too, is truthful. */
  lemma AllTruthful(d: Disk, c: Catalog, p: nat, j: nat)
    requires Core(d, c) && p in c.nodes && c.nodes[p].Dir? && j < |c.nodes[p].entries|
    ensures Truthful(d, c.nodes[p].entries[j])
  {
    hide Core, TreeOk, LookupName, Ordinary, FileTypeOf, Parent, NodeOnDisk, Tiles;
    TreeFromCore(d, c);
    DirIn(d, c, p);
    RecordsLive(d.sb.blockSize, d, c, p, j);
    var k := c.nodes[p].entries[j].inode;
    NodeIn(d, c, k);
    hide ListingOk;
    KindByMode(d.sb.blockSize, d.inodes[k - 1], d.data, c.nodes[k]);
    KindByByte(c.nodes[k]);
  }

  /** What a record names is live, and the byte beside it is of its kind. */
  lemma RecordsLive(size: nat, d: Disk, c: Catalog, p: nat, j: nat)
    requires TreeOk(size, c.nodes, c.up) && IsDir(c.nodes, p) && j < |c.nodes[p].entries|
    requires ListingOk(p, c.nodes[p].entries)
    ensures var e := c.nodes[p].entries[j];
      e.inode as nat in c.nodes && e.fileType == FileTypeOf(c.nodes[e.inode])
  {
    var es := c.nodes[p].entries;
    if j < 2 {
      ParentLives(size, c.nodes, c.up, p);
    } else {
      LookupAt(p, es, j);
      assert Ordinary(es[j].name);
      hide LookupName, Ordinary, FileTypeOf, ListingOk, RootOk, DirsOk, Find, FindBinding;
      var k := es[j].inode as nat;
      assert k in c.up && c.up[k] == Place(p, es[j].name);
    }
  }

  lemma KindByMode(size: nat, i: Inode, data: seq<seq<byte>>, node: Node)
    requires NodeOnDisk(size, i, data, node)
    ensures i.mode / 0x1000 == match node case Dir(_, _) => 4 case File(_, _, _) => 8 case Link(_) => 10
  {
    hide RunLeaf, Pack, AllEncodable;
  }

  lemma KindByByte(node: Node)
    ensures FileTypeOf(node) == match node case Dir(_, _) => 2 case File(_, _, _) => 1 case Link(_) => 7
  {
  }

  /** Directory `p` lists `name` once, with this inode and type byte, and the inode's record
      has this mode. */
  ghost predicate Listed(d: Disk, nodes: map<nat, Node>, p: nat, name: Name, k: nat, fileType: byte, kind: nat) {
    && p in nodes && nodes[p].Dir?
    && (exists j :: 0 <= j < |nodes[p].entries| && Is(nodes[p].entries[j], name, k, fileType))
    && (forall i, j :: 0 <= i < j < |nodes[p].entries| ==> nodes[p].entries[i].name != nodes[p].entries[j].name)
    && 1 <= k <= |d.inodes| && d.inodes[k - 1].mode / 0x1000 == kind
  }

  predicate Is(e: DirEntry, name: Name, k: nat, fileType: byte) {
    e.name == name && e.inode == k && e.fileType == fileType
  }

  /** Whatever a directory lists, it lists truthfully. */
  lemma ListedTruly(d: Disk, c: Catalog, p: nat, name: Name, k: nat)
    requires Core(d, c) && Recorded(c.nodes, p, name, k)
    ensures k in c.nodes
    ensures var (ft, kind) := match c.nodes[k]
        case Dir(_, _) => (2, 4) case File(_, _, _) => (1, 8) case Link(_) => (7, 10);
      Listed(d, c.nodes, p, name, k, ft, kind)
  {
    hide Core, TreeOk, FileTypeOf, Parent, NodeOnDisk, Tiles;
    TreeFromCore(d, c);
    DirIn(d, c, p);
    var es := c.nodes[p].entries;
    var j :| 0 <= j < |es| && es[j].name == name && es[j].inode == k;
    RecordsLive(d.sb.blockSize, d, c, p, j);
    NodeIn(d, c, k);
    KindByMode(d.sb.blockSize, d.inodes[k - 1], d.data, c.nodes[k]);
    KindByByte(c.nodes[k]);
  }

  // ----- after an operation -----

  /** `path` now leads to inode `k`: its directory lists it with this type byte, and its record
      has this mode. */
  ghost predicate Shown(d: Disk, c: Catalog, path: seq<byte>, k: nat, fileType: byte, mode: nat) {
    !Nameless(path) && exists p :: ShownIn(d, c, path, p, k, fileType, mode)
  }

  ghost predicate ShownIn(d: Disk, c: Catalog, path: seq<byte>, p: nat, k: nat, fileType: byte, mode: nat)
    requires !Nameless(path)
  {
    && Found(c.nodes, path, p, Final(path), k) && Listed(d, c.nodes, p, Final(path), k, fileType, mode / 0x1000)
    && d.inodes[k - 1].mode == mode
  }

  lemma CreatedShown(d: Disk, c: Catalog, path: seq<byte>, k: nat, node: Node, d': Disk, c': Catalog, mode: nat)
    requires Core(d, c) && Created(d, c, path, k, node, c') && Core(d', c')
    requires 1 <= k <= |d'.inodes| && d'.inodes[k - 1].mode == mode
    ensures mode / 0x1000 == match node case Dir(_, _) => 4 case File(_, _, _) => 8 case Link(_) => 10
    ensures Shown(d', c', path, k, match node case Dir(_, _) => 2 case File(_, _, _) => 1 case Link(_) => 7, mode)
  {
    hide Core, Created, CatalogOk, Vacancy, Occupant, Nameless, Final, Aims, Recorded, Listed, DirsOk;
    BaseFacts(d, c);
    CreatedFrame(d, c, path, k, node, c');
    CreatedThenRemoved(d, c, path, k, node, c');
    CreatedParts(d, c, path, k, node, c');
    DirsFromCore(d', c');
    OccupantMeans(d'.sb.blockSize, c'.nodes, path);
    var at := Vacancy(c.nodes, path).value;
    assert Found(c'.nodes, path, at.dir, at.name, k);
    FoundFinal(c'.nodes, path, at.dir, at.name);
    ListedTruly(d', c', at.dir, at.name, k);
    ListedKind(d', c'.nodes, at.dir, at.name, k);
    assert ShownIn(d', c', path, at.dir, k,
        match node case Dir(_, _) => 2 case File(_, _, _) => 1 case Link(_) => 7, mode);
  }

  lemma FoundFinal(nodes: map<nat, Node>, path: seq<byte>, p: nat, name: Name)
    requires Aims(nodes, path, p, name)
    ensures !Nameless(path) && name == Final(path)
  {
    hide Nameless, Final, Front, Leads;
  }

  lemma ListedKind(d: Disk, nodes: map<nat, Node>, p: nat, name: Name, k: nat)
    ensures forall ft, kind :: Listed(d, nodes, p, name, k, ft, kind) ==>
      1 <= k <= |d.inodes| && d.inodes[k - 1].mode / 0x1000 == kind
  {
  }

  /** create_file enters a regular file of mode 0o100644 as type 1, mkdir a directory of mode
      0o040755 as type 2, symlink a symlink of mode 0o120777 as type 7. */
  lemma MadeShown(s: State, op: Op, r: Result<Unit>, s': State)
    requires Core(s.disk, s.cat) && Effect(s, op, r, s') && Core(s'.disk, s'.cat) && r.Ok?
    ensures op.CreateFile? ==> exists k :: Shown(s'.disk, s'.cat, op.path, k, 1, 0x81A4)
    ensures op.Mkdir? ==> exists k :: Shown(s'.disk, s'.cat, op.path, k, 2, 0x41ED)
    ensures op.Symlink? ==> exists k :: Shown(s'.disk, s'.cat, op.path, k, 7, 0xA1FF)
  {
    hide Core, Shown, Created, CreateFault, Coherent, FirstFreeRun, FileBlocks, Vacancy;
    match op
    case CreateFile(path, data) =>
      var k :| FileCreated(s.disk, s.cat, path, data, k, s'.disk, s'.cat);
      CreatedShown(s.disk, s.cat, path, k, s'.cat.nodes[k], s'.disk, s'.cat, 0x81A4);
    case Mkdir(path) =>
      var k :| DirCreated(s.disk, s.cat, path, k, s'.disk, s'.cat);
      CreatedShown(s.disk, s.cat, path, k, s'.cat.nodes[k], s'.disk, s'.cat, 0x41ED);
    case Symlink(path, target) =>
      var k :| LinkCreated(s.disk, s.cat, path, target, k, s'.disk, s'.cat);
      CreatedShown(s.disk, s.cat, path, k, Link(target), s'.disk, s'.cat, 0xA1FF);
    case _ =>
  }

  /** After any successful rename that keeps the disk sound, also one that ties a knot: the directory
      the new path led to lists, under the new name, the inode the old path led to, with the
      type byte of its record, whose mode is as before. */
  lemma RenamedShown(s: State, path: seq<byte>, newPath: seq<byte>, r: Result<Unit>, s': State)
    returns (q: nat, k: nat, fileType: byte)
    requires Core(s.disk, s.cat) && Core(s'.disk, s'.cat) && r.Ok?
    requires Follows(s.disk, s.cat, PlanOf(s.cat.nodes, path, newPath), r, s'.disk, s'.cat)
    ensures !Nameless(path) && !Nameless(newPath) && Aims(s.cat.nodes, newPath, q, Final(newPath))
    ensures exists p :: Found(s.cat.nodes, path, p, Final(path), k)
    ensures 1 <= k <= |s.disk.inodes| && Matches(fileType, s.disk.inodes[k - 1].mode)
    ensures Listed(s'.disk, s'.cat.nodes, q, Final(newPath), k, fileType, s.disk.inodes[k - 1].mode / 0x1000)
    ensures k <= |s'.disk.inodes| && s'.disk.inodes[k - 1].mode == s.disk.inodes[k - 1].mode
  {
    hide Core, Follows, PlanOf, Found, Aims, Missing, Astray, Nameless, Final, Recorded, Taken, Listed, DirsOk;
    DirsFromCore(s.disk, s.cat);
    var plan := PlanOf(s.cat.nodes, path, newPath);
    RenameMeans(s.disk.sb.blockSize, s.cat.nodes, path, newPath, plan);
    FollowsOk(s.disk, s.cat, plan, r, s'.disk, s'.cat);
    var p, was, j :| Found(s.cat.nodes, path, p, was, j) && RenamingOf(s.cat.nodes, p, was, j, newPath, plan);
    var dir, name :| Aims(s.cat.nodes, newPath, dir, name) && RenamingTo(s.cat.nodes, p, was, j, dir, name, plan);
    FoundAims(s.cat.nodes, path, p, was, j);
    FoundFinal(s.cat.nodes, path, p, was);
    FoundFinal(s.cat.nodes, newPath, dir, name);
    q, k := dir, j;
    if !plan.Keep? {
      EnteredAt(s'.disk, s'.cat, k);
    }
    ListedTruly(s'.disk, s'.cat, q, name, k);
    ListedKind(s'.disk, s'.cat.nodes, q, name, k);
    fileType := match s'.cat.nodes[k] case Dir(_, _) => 2 case File(_, _, _) => 1 case Link(_) => 7;
    if !plan.Keep? {
      KeptMode(s.disk, s'.disk, s'.cat.nodes.Keys, k);
    }
  }

  lemma FoundAims(nodes: map<nat, Node>, path: seq<byte>, p: nat, name: Name, k: nat)
    requires Found(nodes, path, p, name, k)
    ensures Aims(nodes, path, p, name)
  {
  }

  /** What a rename that went through comes to. */
  lemma FollowsOk(d: Disk, c: Catalog, plan: Plan, r: Result<Unit>, d': Disk, c': Catalog)
    requires Follows(d, c, plan, r, d', c') && r.Ok?
    ensures !plan.Refuse? && (plan.Keep? ==> d' == d && c' == c)
    ensures plan.Fresh? ==> plan.k in c'.up && c'.up[plan.k] == plan.to
    ensures plan.Replace? ==> plan.k in c'.up && c'.up[plan.k] == plan.to
    ensures InodesKept(d, d', c'.nodes.Keys)
  {
    hide CanErase, Remove, CanMove, MovedNodes, CarveFault, Acyclic, Below, Coherent, InodesKept;
  }

  lemma EnteredAt(d: Disk, c: Catalog, k: nat)
    requires Core(d, c) && k in c.up
    ensures Recorded(c.nodes, c.up[k].dir, c.up[k].name, k) && k in c.nodes
  {
    hide Core, TreeOk, LookupName, Ordinary, FileTypeOf, Parent, Recorded;
    TreeFromCore(d, c);
    DirsFromCore(d, c);
    UpIsEntered(d.sb.blockSize, c, k);
    RecordedFound(d.sb.blockSize, c.nodes, c.up[k].dir, c.up[k].name);
  }

  lemma UpIsEntered(size: nat, c: Catalog, k: nat)
    requires TreeOk(size, c.nodes, c.up) && k in c.up
    ensures Entered(c.nodes, c.up, k)
  {
    hide LookupName, Ordinary, FileTypeOf, Parent, RootOk, DirsOk, DownOk;
  }

  lemma KeptMode(d: Disk, d': Disk, live: set<nat>, k: nat)
    requires InodesKept(d, d', live) && k in live && 1 <= k <= |d'.inodes|
    ensures k <= |d.inodes| && d'.inodes[k - 1].mode == d.inodes[k - 1].mode
  {
  }

  // ----- looking -----

  /** The listing has one record of this name; its type byte is this one, and the inode it names
      has this mode. */
  ghost predicate Sees(listing: seq<DirEntry>, name: Name, d: Disk, fileType: byte, mode: nat) {
    && (exists j :: 0 <= j < |listing| && SeenAt(listing[j], name, d, fileType, mode))
    && forall i, j :: 0 <= i < j < |listing| ==> listing[i].name != listing[j].name
  }

  predicate SeenAt(e: DirEntry, name: Name, d: Disk, fileType: byte, mode: nat) {
    && e.name == name && e.fileType == fileType
    && 1 <= e.inode <= |d.inodes| && d.inodes[e.inode - 1].mode == mode
  }

  lemma ListedSeen(d: Disk, nodes: map<nat, Node>, p: nat, name: Name, k: nat, fileType: byte, kind: nat)
    requires Listed(d, nodes, p, name, k, fileType, kind)
    ensures IsDir(nodes, p) && 1 <= k <= |d.inodes|
    ensures Sees(nodes[p].entries, name, d, fileType, d.inodes[k - 1].mode)
  {
    var es := nodes[p].entries;
    var j :| 0 <= j < |es| && Is(es[j], name, k, fileType);
    assert SeenAt(es[j], name, d, fileType, d.inodes[k - 1].mode);
  }

  lemma ShownSeen(d: Disk, c: Catalog, path: seq<byte>, k: nat, fileType: byte, mode: nat)
    requires Core(d, c) && Shown(d, c, path, k, fileType, mode)
    ensures !Nameless(path) && Aim(c.nodes, path).Ok? && IsDir(c.nodes, Aim(c.nodes, path).value.dir)
    ensures Sees(c.nodes[Aim(c.nodes, path).value.dir].entries, Final(path), d, fileType, mode)
  {
    hide Core, Nameless, Final, Aims, Aim, Recorded, Listed, Sees, DirsOk, Astray;
    DirsFromCore(d, c);
    AimMeans(d.sb.blockSize, c.nodes, path);
    var p :| ShownIn(d, c, path, p, k, fileType, mode);
    assert Aim(c.nodes, path) == Ok(Place(p, Final(path)));
    ListedSeen(d, c.nodes, p, Final(path), k, fileType, mode / 0x1000);
  }

  /** The directory an entry is in, as read_dir lists it; and every record there is truthful. */
  method ListAround(fs: Filesystem, path: seq<byte>) returns (r: Result<seq<DirEntry>>)
    requires fs.Valid()
    ensures match Aim(fs.cat.nodes, path)
      case Err(e) => r == Err(e)
      case Ok(at) => r == Ok(fs.cat.nodes[at.dir].entries)
    ensures r.Ok? ==> forall j :: 0 <= j < |r.value| ==> Truthful(fs.View(), r.value[j])
  {
    hide ViewOf, Holds, Core, Acyclic, SameSetup, Aim, NodeOnDisk, SlashFree, Truthful;
    var parent :- fs.OpenParent(path);
    var (p, inode, _) := parent;
    fs.LiveReadable(p);
    r := fs.ReadDir(inode, fs.cat.nodes[p]);
    forall j | 0 <= j < |fs.cat.nodes[p].entries| ensures Truthful(fs.View(), fs.cat.nodes[p].entries[j]) {
      AllTruthful(fs.View(), fs.cat, p, j);
    }
  }

  /** After a creation the listing around the path shows what was created. */
  method MakeThenList(fs: Filesystem, op: Op) returns (r: Result<Unit>, listing: seq<DirEntry>)
    requires fs.Valid() && Storable(op) && (op.CreateFile? || op.Symlink? || op.Mkdir?)
    modifies fs
    ensures fs.Valid() && (r.Ok? ==> !Nameless(op.path))
    ensures r.Ok? && op.CreateFile? ==> Sees(listing, Final(op.path), fs.View(), 1, 0x81A4)
    ensures r.Ok? && op.Mkdir? ==> Sees(listing, Final(op.path), fs.View(), 2, 0x41ED)
    ensures r.Ok? && op.Symlink? ==> Sees(listing, Final(op.path), fs.View(), 7, 0xA1FF)
  {
    hide ViewOf, Holds, Core, Acyclic, SameSetup, Effect, Shown, Sees, Aim, Nameless, Final, InodesKept, Truthful;
    ghost var s := State(fs.View(), fs.cat);
    r := Create(fs, op);
    listing := [];
    if r.Ok? {
      MadeShown(s, op, r, State(fs.View(), fs.cat));
      ghost var fileType: byte, mode := if op.CreateFile? then 1 else if op.Mkdir? then 2 else 7,
        if op.CreateFile? then 0x81A4 else if op.Mkdir? then 0x41ED else 0xA1FF;
      ghost var k :| Shown(fs.View(), fs.cat, op.path, k, fileType, mode);
      ShownSeen(fs.View(), fs.cat, op.path, k, fileType, mode);
      var around := ListAround(fs, op.path);
      listing := around.value;
    }
  }

  /** The listing shows, under the new name, the type of the inode the old path led to. */
  ghost predicate SeesMoved(s: State, path: seq<byte>, newPath: seq<byte>, listing: seq<DirEntry>, d: Disk) {
    && !Nameless(path) && !Nameless(newPath)
    && exists k, fileType :: MovedAs(s, path, k, fileType)
        && Sees(listing, Final(newPath), d, fileType, s.disk.inodes[k - 1].mode)
  }

  ghost predicate MovedAs(s: State, path: seq<byte>, k: nat, fileType: byte)
    requires !Nameless(path)
  {
    && (exists p :: Found(s.cat.nodes, path, p, Final(path), k))
    && 1 <= k <= |s.disk.inodes| && Matches(fileType, s.disk.inodes[k - 1].mode)
  }

  lemma MovedSeen(s: State, path: seq<byte>, newPath: seq<byte>, r: Result<Unit>, s': State)
    requires Core(s.disk, s.cat) && Core(s'.disk, s'.cat) && r.Ok?
    requires Follows(s.disk, s.cat, PlanOf(s.cat.nodes, path, newPath), r, s'.disk, s'.cat)
    ensures Aim(s.cat.nodes, newPath).Ok? && IsDir(s'.cat.nodes, Aim(s.cat.nodes, newPath).value.dir)
    ensures SeesMoved(s, path, newPath, s'.cat.nodes[Aim(s.cat.nodes, newPath).value.dir].entries, s'.disk)
  {
    hide Core, Follows, PlanOf, Sees, Aim, Nameless, Final, Found, Aims, Astray, Listed, DirsOk, Matches;
    var q, k, fileType := RenamedShown(s, path, newPath, r, s');
    DirsFromCore(s.disk, s.cat);
    AimMeans(s.disk.sb.blockSize, s.cat.nodes, newPath);
    assert Aim(s.cat.nodes, newPath) == Ok(Place(q, Final(newPath)));
    ListedSeen(s'.disk, s'.cat.nodes, q, Final(newPath), k, fileType, s.disk.inodes[k - 1].mode / 0x1000);
    ListedKind(s'.disk, s'.cat.nodes, q, Final(newPath), k);
    assert MovedAs(s, path, k, fileType);
  }

  /** After a rename the directory the new path led to shows what moved. */
  method RenameThenList(fs: Filesystem, path: seq<byte>, newPath: seq<byte>)
    returns (r: Result<Unit>, listing: seq<DirEntry>)
    requires fs.Valid() && Fitting(Rename(path, newPath))
    modifies fs
    ensures fs.Valid()
    ensures r.Ok? ==> SeesMoved(State(old(fs.View()), old(fs.cat)), path, newPath, listing, fs.View())
  {
    hide ViewOf, Holds, Core, Acyclic, SameSetup, Follows, PlanOf, SeesMoved, Aim, Fitting, MovesDots, Knots;
    hide NodeOnDisk, SlashFree;
    ghost var s := State(fs.View(), fs.cat);
    listing := [];
    FittingRename(s, path, newPath);
    var parent := fs.OpenParent(newPath);
    r := fs.Rename(path, newPath);
    if r.Ok? {
      MovedSeen(s, path, newPath, r, State(fs.View(), fs.cat));
      var q := parent.value.0;
      fs.LiveReadable(q);
      var inode := fs.ReadInode(q);
      var listed := fs.ReadDir(inode.value, fs.cat.nodes[q]);
      listing := listed.value;
    }
  }

  // ----- reading back -----

  /** `data` cut to `n` bytes, or with zeros behind it up to `n`. */
  predicate Resized(data: seq<byte>, n: nat, bytes: seq<byte>) {
    |bytes| == n && forall i :: 0 <= i < n ==> bytes[i] == if i < |data| then data[i] else 0
  }

  lemma ResizedReads(data: seq<byte>, start: nat, newSize: nat, size: nat)
    requires size > 0 && DivCeil(newSize, size) <= |FileBlocks(data, size)|
    ensures var g := File(start, newSize, FileBlocks(data, size)[..DivCeil(newSize, size)]);
      HasContent(g) && Resized(data, newSize, Content(g))
  {
    hide Concat, FileBlocks;
    FileBlocksHold(data, size);
    CutReads(File(start, |data|, FileBlocks(data, size)), newSize, DivCeil(newSize, size), size);
  }

  /** What a new file comes to be after one truncate. */
  lemma CreatedCut(d: Disk, c: Catalog, path: seq<byte>, data: seq<byte>, k: nat, d1: Disk, c1: Catalog, newSize: nat,
                   d2: Disk, c2: Catalog)
    requires Core(d, c) && d.sb.blockSize > 0 && FileCreated(d, c, path, data, k, d1, c1)
    requires d1.sb.blockSize == d.sb.blockSize && Truncated(d1, c1, path, newSize, d2, c2)
    requires WalkPath(c1.nodes, Components(path), ROOT) == Ok(k)
    ensures k in c2.nodes && HasContent(c2.nodes[k]) && Resized(data, newSize, Content(c2.nodes[k]))
  {
    hide Core, Components, WalkPath, Created, CreateFault, FirstFreeRun, Coherent, FileBlocks, Concat, Resized;
    ResizedReads(data, c1.nodes[k].start, newSize, d.sb.blockSize);
  }

  /** truncate, then read_file. */
  method ResizeThenRead(fs: Filesystem, path: seq<byte>, newSize: u64, k: nat)
    returns (r: Result<Unit>, bytes: seq<byte>)
    requires fs.Valid() && WalkPath(fs.cat.nodes, Components(path), ROOT) == Ok(k)
    requires k in fs.cat.nodes && fs.cat.nodes[k].File?
    modifies fs
    ensures fs.Valid() && old(fs.View()).sb.blockSize > 0
    ensures r == if Allowed(old(fs.cat).nodes[k].size, old(fs.superblock.blockSize), newSize) then Ok(Unit.Unit)
                 else Err(UnsupportedV0)
    ensures r.Ok? ==> Truncated(old(fs.View()), old(fs.cat), path, newSize, fs.View(), fs.cat)
    ensures r.Err? ==> fs.cat == old(fs.cat)
    ensures k in fs.cat.nodes && HasContent(fs.cat.nodes[k]) && bytes == Content(fs.cat.nodes[k])
  {
    hide ViewOf, Holds, Core, Acyclic, SameSetup, HasContent, Content, WalkPath, Components, NodeOnDisk, Truncated;
    hide Allowed, TruncateFault;
    ghost var d, c := fs.View(), fs.cat;
    fs.ViewSb();
    r := fs.Truncate(path, newSize);
    if r.Ok? {
      TruncatedLive(d, c, path, newSize, fs.View(), fs.cat, k);
    }
    fs.LiveReadable(k);
    var inode := fs.ReadInode(k);
    var read := fs.ReadFile(inode.value, fs.cat.nodes[k]);
    bytes := read.value;
  }

  lemma TruncatedLive(d: Disk, c: Catalog, path: seq<byte>, newSize: nat, d': Disk, c': Catalog, k: nat)
    requires d.sb.blockSize > 0 && Truncated(d, c, path, newSize, d', c')
    requires WalkPath(c.nodes, Components(path), ROOT) == Ok(k)
    ensures k in c'.nodes
  {
    hide WalkPath, Components, Coherent;
  }

  /** What the calls below come to, literally. */
  predicate ResizeSeen(data: seq<byte>, newSize: nat, size: nat, resized: Result<Unit>, bytes: seq<byte>)
    requires size > 0
  {
    if newSize <= (|data| + size - 1) / size * size then resized == Ok(Unit.Unit) && Resized(data, newSize, bytes)
    else resized == Err(UnsupportedV0) && bytes == data
  }

  /** create_file, truncate, read_file: growing within the last block reads zeros, growing past it
      is refused, and shrinking cuts. */
  method CreateResizeRead(fs: Filesystem, path: seq<byte>, data: seq<byte>, newSize: u64)
    returns (made: Result<nat>, resized: Result<Unit>, bytes: seq<byte>)
    requires fs.Valid() && fs.superblock.blockSize > 0 && DivCeil(|data|, fs.superblock.blockSize) < 0x1_0000_0000
    modifies fs
    ensures fs.Valid()
    ensures made.Err? <==>
      CreateFault(old(fs.View()), old(fs.cat), path, DivCeil(|data|, old(fs.superblock.blockSize))).Some?
    ensures made.Ok? ==> FirstFreeInode(old(fs.View()), made.value)
    ensures made.Ok? ==> ResizeSeen(data, newSize, old(fs.superblock.blockSize), resized, bytes)
  {
    hide ViewOf, Holds, Core, Acyclic, SameSetup, CreateFails, FileCreated, UnlinkFault, Removed, Occupant, Vacancy;
    hide CreateFault, HasContent, Content, WalkPath, Components, NodeOnDisk, Resized, Truncated, FirstFreeInode;
    hide InodesKept;
    ghost var d, c, size := fs.View(), fs.cat, fs.superblock.blockSize;
    fs.ViewSb();
    FaultOrFile(d, c, path, data);
    made := fs.CreateFile(path, data);
    resized, bytes := Err(Io), [];
    if made.Ok? {
      var k := made.value;
      ghost var d1, c1 := fs.View(), fs.cat;
      FileMade(d, c, path, data, k, d1, c1);
      BaseFacts(d1, c1);
      FoundByWalk(d1.sb.blockSize, c1, path);
      CreatedReads(d, c, path, data, k, d1, c1);
      CreatedFirst(d, c, path, data, k, d1, c1);
      fs.ViewSb();
      SameSize(fs.firstSuperblock, fs.firstGdt[0], d, d1);
      resized, bytes := ResizeThenRead(fs, path, newSize, k);
      if resized.Ok? {
        CreatedCut(d, c, path, data, k, d1, c1, newSize, fs.View(), fs.cat);
      }
    }
  }

  lemma SameSize(sb0: Superblock, gd0: GroupDescriptor, d: Disk, d': Disk)
    requires SameSetup(sb0, gd0, d.sb, d.gd) && SameSetup(sb0, gd0, d'.sb, d'.gd)
    ensures d'.sb.blockSize == d.sb.blockSize
  {
  }

  lemma CreatedFirst(d: Disk, c: Catalog, path: seq<byte>, data: seq<byte>, k: nat, d': Disk, c': Catalog)
    requires d.sb.blockSize > 0 && FileCreated(d, c, path, data, k, d', c')
    ensures FirstFreeInode(d, k) && k in c'.nodes && c'.nodes[k].File? && c'.nodes[k].size == |data|
  {
    hide CreateFault, FirstFreeRun, FileBlocks, Coherent, CanCarve, Enterable, Enter, FirstFreeInode, Vacancy;
  }

  // ----- the first file of a new image -----

  /** A run that fits behind the root directory's block is free. */
  lemma NewRun(d: Disk, config: Config, count: nat)
    requires OneGroup(config) && Core(d, NewCatalog(config)) && d.sb.blocksCount == config.sizeBlocks
    requires d.sb.blockSize == config.blockSize && d.sb.inodesCount == config.inodesPerGroup
    requires MetadataBlocks(config) + count <= config.sizeBlocks
    ensures !NoFreeRun(d, count)
  {
    hide CatalogOk, TreeOnDisk, NewListing, CountsOk, InodeBitsOk, FreeClean, LayoutFault;
    var s := MetadataBlocks(config);
    assert FirstData(d.sb) == RootDirBlock(config);
    assert BlockBitsOk(d.blockBits, FirstData(d.sb), d.sb.blocksCount, NewCatalog(config).own, {});
    assert Sized(d) && Geometry(d.sb, d.gd);
    hide FirstData, RootDirBlock;
    assert FreeRun(d, s, count);
  }

  /** Inode 11 is the first to be had. */
  lemma NewInodeIs(d: Disk, config: Config)
    requires OneGroup(config) && Core(d, NewCatalog(config)) && d.sb.inodesCount == config.inodesPerGroup
    ensures !NoFreeInode(d) && forall k :: FirstFreeInode(d, k) ==> k == 11
  {
    hide CatalogOk, TreeOnDisk, NewListing, CountsOk, BlockBitsOk, FreeClean;
    var live := NewCatalog(config).nodes.Keys;
    assert InodeBitsOk(d.inodeBits, d.sb.inodesCount, live, {});
    assert |d.inodeBits| > 10 && !d.inodeBits[10];
  }

  lemma NewAccepts(d: Disk, config: Config, name: Name, count: nat)
    requires OneGroup(config) && Core(d, NewCatalog(config)) && d.sb.blocksCount == config.sizeBlocks
    requires d.sb.blockSize == config.blockSize && d.sb.inodesCount == config.inodesPerGroup
    requires MetadataBlocks(config) + count <= config.sizeBlocks && Ordinary(name) && |name| <= 255
    ensures CreateFault(d, NewCatalog(config), [47] + name, count) == None
  {
    hide Core, CarveFault, LookupName, NoFreeInode, NoFreeRun, Aim, NewListing, JoinPath, SplitPath;
    var c := NewCatalog(config);
    NewRun(d, config, count);
    NewInodeIs(d, config);
    TopDirectory(c.nodes);
    AimAt(c.nodes, TOP, ROOT, name);
    NewListingRoom(ROOT, ROOT, config.blockSize, name);
    assert [47] + name == JoinPath(TOP, name) by { JoinTop(name); }
    assert c.nodes[ROOT].entries == NewListing(ROOT, ROOT, config.blockSize);
  }

  lemma JoinTop(name: Name)
    ensures JoinPath(TOP, name) == [47] + name
  {
  }

  /** format, open, create_file, truncate, read_file: the first file of a new image is inode 11,
      and is resized and read as the sizes alone say. */
  method FirstFile(config: Config, name: Name, data: seq<byte>, newSize: u64)
    returns (made: Result<nat>, resized: Result<Unit>, bytes: seq<byte>)
    requires OneGroup(config) && name != [] && 47 !in name && name != [46] && name != [46, 46] && |name| <= 255
    requires var size := config.blockSize;
      5 + (config.inodesPerGroup * 256 + size - 1) / size + (|data| + size - 1) / size <= config.sizeBlocks
    ensures made == Ok(11) && config.blockSize > 0 && ResizeSeen(data, newSize, config.blockSize, resized, bytes)
  {
    hide ViewOf, Holds, Core, Acyclic, SameSetup, Coherent, NewCatalog, CreateFault, FirstFreeInode, ResizeSeen;
    hide LayoutFault, NewDescriptor, NewListing;
    var mounted := Mount(config);
    var fs := mounted.value;
    fs.ViewSb();
    NewSizes(config, |data|);
    NewAccepts(fs.View(), config, name, DivCeil(|data|, config.blockSize));
    NewInodeIs(fs.View(), config);
    made, resized, bytes := CreateResizeRead(fs, [47] + name, data, newSize);
  }

  lemma NewSizes(config: Config, len: nat)
    requires OneGroup(config)
    ensures config.blockSize > 0 && NewSuperblock(config).blockSize == config.blockSize
    ensures NewSuperblock(config).blocksCount == config.sizeBlocks
    ensures NewSuperblock(config).inodesCount == config.inodesPerGroup
    ensures MetadataBlocks(config) == 5 + (config.inodesPerGroup * 256 + config.blockSize - 1) / config.blockSize
    ensures DivCeil(len, config.blockSize) == (len + config.blockSize - 1) / config.blockSize
  {
  }

  // ----- a new directory, a new symlink -----

  /** mkdir, then read_dir of the new directory: exactly the two dots. */
  method MkdirThenList(fs: Filesystem, path: seq<byte>) returns (made: Result<nat>, listing: seq<DirEntry>)
    requires fs.Valid()
    modifies fs
    ensures fs.Valid() && 24 <= old(fs.View()).sb.blockSize < 0x1_0000
    ensures made.Err? <==> CreateFault(old(fs.View()), old(fs.cat), path, 1).Some?
    ensures made.Ok? ==> NewDots(old(fs.cat), path, made.value, old(fs.View()).sb.blockSize, listing)
  {
    hide ViewOf, Holds, Core, Acyclic, SameSetup, CreateFails, CreateFault, DirCreated, NodeOnDisk, InodesKept, NewDots;
    hide CatalogOk, CreateLeak, Leaked, DotsOf, FirstData, Pack, AllEncodable;
    ghost var d, c := fs.View(), fs.cat;
    BaseFacts(d, c);
    FaultOrDir(d, c, path);
    made := fs.Mkdir(path);
    listing := [];
    if made.Ok? {
      CreatedDots(d, c, path, made.value, fs.View(), fs.cat);
      fs.LiveReadable(made.value);
      var inode := fs.ReadInode(made.value);
      var listed := fs.ReadDir(inode.value, fs.cat.nodes[made.value]);
      listing := listed.value;
    }
  }

  /** Twelve bytes for `.`, the rest of the block for `..`, which names the directory above. */
  ghost predicate NewDots(c: Catalog, path: seq<byte>, k: nat, size: nat, listing: seq<DirEntry>)
    requires 24 <= size < 0x1_0000
  {
    !Nameless(path) && exists p :: Aims(c.nodes, path, p, Final(path)) && DotsOf(k, p, size, listing)
  }

  predicate DotsOf(k: nat, p: nat, size: nat, listing: seq<DirEntry>)
    requires 24 <= size < 0x1_0000
  {
    && k < 0x1_0000_0000 && p < 0x1_0000_0000 && size % 4 == 0
    && listing == [DirEntry(k, 12, 2, [46]), DirEntry(p, size - 12, 2, [46, 46])]
  }

  lemma CreatedDots(d: Disk, c: Catalog, path: seq<byte>, k: nat, d': Disk, c': Catalog)
    requires Core(d, c) && 24 <= d.sb.blockSize < 0x1_0000 && d.sb.blockSize % 4 == 0
    requires DirCreated(d, c, path, k, d', c')
    ensures IsDir(c'.nodes, k) && NewDots(c, path, k, d.sb.blockSize, c'.nodes[k].entries)
  {
    hide Core, Created, CreateFault, FirstFreeRun, Coherent, Aims, Aim, Nameless, Final, DirsOk, LookupName, Astray;
    DirsFromCore(d, c);
    AimMeans(d.sb.blockSize, c.nodes, path);
    var at := Vacancy(c.nodes, path).value;
    assert Aims(c.nodes, path, at.dir, at.name);
    FoundFinal(c.nodes, path, at.dir, at.name);
  }

  /** symlink, then read_file of the new inode: the target, byte for byte. */
  method SymlinkThenRead(fs: Filesystem, path: seq<byte>, target: seq<byte>)
    returns (made: Result<nat>, bytes: seq<byte>)
    requires fs.Valid()
    modifies fs
    ensures fs.Valid()
    ensures |target| == 0 ==> made == Err(InvalidLayout)
    ensures |target| > 60 ==> made == Err(SymlinkTargetTooLong(|target|))
    ensures 1 <= |target| <= 60 ==> (made.Err? <==> CreateFault(old(fs.View()), old(fs.cat), path, 0).Some?)
    ensures made.Ok? ==> bytes == target
  {
    hide ViewOf, Holds, Core, Acyclic, SameSetup, CreateFails, CreateFault, LinkCreated, NodeOnDisk, InodesKept;
    hide CreateLeak;
    ghost var d, c := fs.View(), fs.cat;
    FaultOrLink(d, c, path, target);
    made := fs.Symlink(path, target);
    bytes := [];
    if made.Ok? {
      CreatedLink(d, c, path, target, made.value, fs.View(), fs.cat);
      fs.LiveReadable(made.value);
      var inode := fs.ReadInode(made.value);
      var read := fs.ReadFile(inode.value, fs.cat.nodes[made.value]);
      bytes := read.value;
    }
  }

  lemma FaultOrLink(d: Disk, c: Catalog, path: seq<byte>, target: seq<byte>)
    ensures forall k, d', c' :: LinkCreated(d, c, path, target, k, d', c') ==> CreateFault(d, c, path, 0) == None
    ensures forall e, c' :: CreateFails(d, c, path, 0, e, c') ==> CreateFault(d, c, path, 0) == Some(e)
  {
    hide CreateFault, Created, Coherent, Leaked, CreateLeak;
  }

  lemma CreatedLink(d: Disk, c: Catalog, path: seq<byte>, target: seq<byte>, k: nat, d': Disk, c': Catalog)
    requires Core(d, c) && LinkCreated(d, c, path, target, k, d', c')
    ensures k in c'.nodes && c'.nodes[k] == Link(target)
  {
    hide Core, Created, CreateFault, Coherent, Vacancy;
    BaseFacts(d, c);
    CreatedFrame(d, c, path, k, Link(target), c');
  }
}
