/** Each operation as a relation between the disk and catalog before and after,
    and the proofs that the writes amount to it. */
module Steps {
  import opened Bytes
  import opened Results
  import opened DirEntries
  import opened DirBlocks
  import opened Listings
  import opened Paths
  import opened Extents
  import opened ExtentTrees
  import opened Inodes
  import opened Superblocks
  import opened Catalogs
  import opened Disks
  import opened DiskSteps
  import opened Images
  import opened Operations

  /** `count` clear bits from `s` on, inside the filesystem. */
  predicate FreeRun(d: Disk, s: nat, count: nat) {
    s + count <= d.sb.blocksCount && s + count <= |d.blockBits| && forall b :: s <= b < s + count ==> !d.blockBits[b]
  }

  /** The inode first fit takes, and when there is none. */
  predicate FirstFreeInode(d: Disk, k: nat) {
    && 1 <= k <= d.sb.inodesCount && k <= |d.inodeBits| && !d.inodeBits[k - 1]
    && forall i :: 0 <= i < k - 1 ==> d.inodeBits[i]
  }

  predicate NoFreeInode(d: Disk) {
    forall i :: 0 <= i < d.sb.inodesCount && i < |d.inodeBits| ==> d.inodeBits[i]
  }

  /** The run first fit takes, and when there is none. */
  ghost predicate FirstFreeRun(d: Disk, s: nat, count: nat) {
    if count == 0 then s == 0 else FreeRun(d, s, count) && forall t: nat :: t < s ==> !FreeRun(d, t, count)
  }

  ghost predicate NoFreeRun(d: Disk, count: nat) {
    count > 0 && forall s: nat :: !FreeRun(d, s, count)
  }

  predicate TookBlocks(d: Disk, d': Disk, s: nat, count: nat) {
    if count == 0 then d' == d else s + count <= |d.blockBits| && d' == TakeBlocks(d, s, count)
  }

  lemma ReserveNothing(c: Catalog, k: nat)
    ensures Reserve(c, {k}, {}) == c.(lostInodes := c.lostInodes + {k})
  {
  }

  lemma ReserveBlocksOnly(c: Catalog, blocks: set<nat>)
    ensures Reserve(c, {}, blocks) == c.(lostBlocks := c.lostBlocks + blocks)
  {
  }

  lemma InodeReserved(d: Disk, c: Catalog, k: nat)
    requires Core(d, c) && FirstFreeInode(d, k)
    ensures RESERVED < k && k !in c.nodes && k !in c.lostInodes && Core(TakeInode(d, k), Reserve(c, {k}, {}))
  {
    hide Core, TakeInode;
    TakeInodeCore(d, c, k);
    ReserveNothing(c, k);
  }

  /** What reserving a run of blocks does. */
  ghost predicate BlocksTaken(d: Disk, d': Disk, c: Catalog, c': Catalog, s: nat, count: nat)
    requires d.sb.blockSize > 0
  {
    && FirstFreeRun(d, s, count) && TookBlocks(d, d', s, count)
    && s + count <= d.sb.blocksCount && (count > 0 ==> FirstData(d.sb) <= s)
    && FreshBlocks(c, RunBlocks(s, count)) && c' == Reserve(c, {}, RunBlocks(s, count))
  }

  lemma BlocksReserved(d: Disk, d': Disk, c: Catalog, s: nat, count: nat)
    requires Core(d, c) && FirstFreeRun(d, s, count) && TookBlocks(d, d', s, count)
    ensures d.sb.blockSize > 0 && BlocksTaken(d, d', c, Reserve(c, {}, RunBlocks(s, count)), s, count)
    ensures Core(d', Reserve(c, {}, RunBlocks(s, count)))
  {
    ReserveBlocksOnly(c, RunBlocks(s, count));
    CoreParts(d, c);
    hide Core, RunBlocks, FirstData, CatalogOk, BitmapsOk, TreeOnDisk, Geometry, Sized;
    if count > 0 {
      TookFacts(d, d', s, count);
      TakeBlocksCore(d, c, s, count);
    } else {
      NoBlocks(s);
      NothingReserved(c);
    }
  }

  lemma ReserveUp(c: Catalog, ks: set<nat>, blocks: set<nat>)
    ensures Reserve(c, ks, blocks).nodes == c.nodes && Reserve(c, ks, blocks).up == c.up
    ensures Reserve(c, ks, blocks).own == c.own
  {
  }

  lemma NothingReserved(c: Catalog)
    ensures Reserve(c, {}, {}) == c
  {
  }

  lemma TookFacts(d: Disk, d': Disk, s: nat, count: nat)
    requires Geometry(d.sb, d.gd) && Sized(d) && count > 0 && FirstFreeRun(d, s, count) && TookBlocks(d, d', s, count)
    ensures s + count <= d.sb.blocksCount <= |d.blockBits| && forall i :: s <= i < s + count ==> !d.blockBits[i]
    ensures d' == TakeBlocks(d, s, count) && FirstData(d'.sb) == FirstData(d.sb)
    ensures d'.sb.blocksCount == d.sb.blocksCount
  {
    hide FirstData;
    CountersFirst(d.sb, d'.sb);
  }

  lemma NoBlocks(s: nat)
    ensures RunBlocks(s, 0) == {}
  {
  }

  // ----- creating -----

  /** Where a creation is under way: the parent as read, the name, and what was allocated. */
  datatype Site = Site(parent: nat, parentInode: Inode, name: Name, k: nat, start: nat)

  /** Why a creation needing `count` blocks fails: the checks, in order. */
  ghost function CreateFault(d: Disk, c: Catalog, path: seq<byte>, count: nat): Option<Error> {
    match Vacancy(c.nodes, path)
    case Err(e) => Some(e)
    case Ok(at) =>
      if NoFreeInode(d) then Some(NoSpace(Inodes))
      else if NoFreeRun(d, count) then Some(NoSpace(Blocks))
      else if |c.nodes[at.dir].entries| > 0 then CarveFault(c.nodes[at.dir].entries, at.name)
      else None
  }

  /** How many inodes and blocks a failed creation leaves allocated to nothing. */
  ghost function CreateLeak(d: Disk, c: Catalog, path: seq<byte>, count: nat): (nat, nat) {
    if Vacancy(c.nodes, path).Err? || NoFreeInode(d) then (0, 0)
    else if NoFreeRun(d, count) then (1, 0)
    else (1, count)
  }

  /** The tree is as it was; `leak` more inodes and blocks are lost. */
  ghost predicate Leaked(c: Catalog, c': Catalog, leak: (nat, nat)) {
    && c'.nodes == c.nodes && c'.up == c.up && c'.own == c.own
    && c.lostInodes <= c'.lostInodes && |c'.lostInodes| == |c.lostInodes| + leak.0
    && c.lostBlocks <= c'.lostBlocks && |c'.lostBlocks| == |c.lostBlocks| + leak.1
  }

  ghost predicate CreateFails(d: Disk, c: Catalog, path: seq<byte>, count: nat, e: Error, c': Catalog) {
    CreateFault(d, c, path, count) == Some(e) && Leaked(c, c', CreateLeak(d, c, path, count))
  }

  /** An inode and a run of blocks are set aside for the name. */
  ghost predicate Staged(d: Disk, c: Catalog, path: seq<byte>, count: nat, site: Site, d': Disk, c': Catalog)
    requires d.sb.blockSize > 0
  {
    && Vacancy(c.nodes, path) == Ok(Place(site.parent, site.name)) && SlashFree(site.name)
    && 1 <= site.parent <= |d.inodes| && site.parentInode == d.inodes[site.parent - 1]
    && FirstFreeInode(d, site.k) && RESERVED < site.k && site.k !in c.nodes && site.k !in c.lostInodes
    && FirstFreeRun(d, site.start, count) && site.start + count <= d.sb.blocksCount
    && (count > 0 ==> FirstData(d.sb) <= site.start)
    && FreshBlocks(c, RunBlocks(site.start, count)) && c' == Reserve(c, {site.k}, RunBlocks(site.start, count))
    && d'.inodes == d.inodes && d'.data == d.data
    && d'.sb.blockSize == d.sb.blockSize && d'.sb.inodesCount == d.sb.inodesCount
    && d'.sb.blocksCount == d.sb.blocksCount
    && FirstData(d'.sb) == FirstData(d.sb)
  }

  lemma NoVacancy(d: Disk, c: Catalog, path: seq<byte>, count: nat, e: Error)
    requires Vacancy(c.nodes, path) == Err(e)
    ensures CreateFails(d, c, path, count, e, c)
  {
    hide Vacancy, NoFreeInode, NoFreeRun;
  }

  lemma NoInode(d: Disk, c: Catalog, path: seq<byte>, count: nat)
    requires Vacancy(c.nodes, path).Ok? && NoFreeInode(d)
    ensures CreateFails(d, c, path, count, NoSpace(Inodes), c)
  {
    hide Vacancy, NoFreeInode, NoFreeRun;
  }

  lemma FreeIsFree(d: Disk, k: nat)
    requires FirstFreeInode(d, k)
    ensures !NoFreeInode(d)
  {
  }

  lemma NoRun(d: Disk, c: Catalog, path: seq<byte>, count: nat, k: nat)
    requires Vacancy(c.nodes, path).Ok? && FirstFreeInode(d, k) && k !in c.lostInodes
    requires NoFreeRun(TakeInode(d, k), count)
    ensures CreateFails(d, c, path, count, NoSpace(Blocks), Reserve(c, {k}, {}))
    ensures CreateLeak(d, c, path, count) == (1, 0) && TakeInode(d, k).inodes == d.inodes
  {
    FreeIsFree(d, k);
    SameRuns(d, TakeInode(d, k), count);
    ReserveNothing(c, k);
    hide Vacancy, NoFreeInode, NoFreeRun, TakeInode, FirstFreeInode;
  }

  /** Taking an inode leaves the free runs as they were. */
  lemma SameRuns(d: Disk, d': Disk, count: nat)
    requires d'.blockBits == d.blockBits && d'.sb.blocksCount == d.sb.blocksCount
    ensures NoFreeRun(d', count) <==> NoFreeRun(d, count)
    ensures forall s: nat :: FirstFreeRun(d', s, count) <==> FirstFreeRun(d, s, count)
  {
    assert forall s: nat :: FreeRun(d', s, count) <==> FreeRun(d, s, count);
    hide FreeRun;
  }

  /** The prelude of a creation, put together. */
  lemma StagedIntro(d: Disk, c: Catalog, path: seq<byte>, count: nat, site: Site, d': Disk, c': Catalog)
    requires d.sb.blockSize > 0 && SlashFree(site.name) && Vacancy(c.nodes, path) == Ok(Place(site.parent, site.name))
    requires 1 <= site.parent <= |d.inodes| && site.parentInode == d.inodes[site.parent - 1]
    requires FirstFreeInode(d, site.k) && RESERVED < site.k && site.k !in c.nodes && site.k !in c.lostInodes
    requires BlocksTaken(TakeInode(d, site.k), d', Reserve(c, {site.k}, {}), c', site.start, count)
    ensures Staged(d, c, path, count, site, d', c') && d'.inodes == d.inodes
  {
    SameRuns(d, TakeInode(d, site.k), count);
    CountersFirst(d.sb, TakeInode(d, site.k).sb);
    CountersFirst(d.sb, d'.sb);
    hide Vacancy, FirstFreeInode, FirstFreeRun, FirstData, RunBlocks, SlashFree, Fill;
    assert Reserve(Reserve(c, {site.k}, {}), {}, RunBlocks(site.start, count)) ==
      Reserve(c, {site.k}, RunBlocks(site.start, count));
  }

  lemma {:induction false} RunExists(d: Disk, s: nat, count: nat)
    requires FirstFreeRun(d, s, count)
    ensures !NoFreeRun(d, count)
  {
  }

  /** No slack in the directory: everything set aside is lost. */
  lemma NoSlack(d: Disk, c: Catalog, path: seq<byte>, count: nat, site: Site, d': Disk, c': Catalog, e: Error)
    requires d.sb.blockSize > 0 && Staged(d, c, path, count, site, d', c')
    requires |c.nodes[site.parent].entries| > 0 && CarveFault(c.nodes[site.parent].entries, site.name) == Some(e)
    ensures CreateFails(d, c, path, count, e, c') && CreateLeak(d, c, path, count) == (1, count)
  {
    FreeIsFree(d, site.k);
    RunExists(d, site.start, count);
    RunSize(site.start, count);
    var blocks := RunBlocks(site.start, count);
    hide Vacancy, FirstFreeInode, FirstFreeRun, FirstData, RunBlocks, SlashFree, NoFreeInode, NoFreeRun, CarveFault;
    assert |c.lostBlocks + blocks| == |c.lostBlocks| + |blocks|;
  }

  /** `node` is written as inode `site.k`, and only its entry is missing. */
  ghost predicate Ready(size: nat, d: Disk, c: Catalog, site: Site, node: Node, d': Disk, c': Catalog) {
    && 1 <= site.k <= |d'.inodes| && RESERVED < site.k < 0x1_0000_0000 && site.k !in c.nodes && site.k !in c.lostInodes
    && IsDir(c.nodes, site.parent) && SlashFree(site.name)
    && LookupName(c.nodes[site.parent].entries, site.name) == None
    && FreshBlocks(c, NodeBlocks(node)) && c' == Reserve(c, {site.k}, NodeBlocks(node))
    && NodeOnDisk(size, d'.inodes[site.k - 1], d'.data, node)
    && (node.Dir? ==> d'.inodes[site.k - 1].linksCount == 2 && FreshDir(size, node, site.k, site.parent))
    && 1 <= site.parent <= |d'.inodes| && d'.inodes[site.parent - 1] == site.parentInode
  }

  predicate FreshDir(size: nat, node: Node, k: nat, p: nat)
    requires node.Dir?
  {
    |node.entries| == 2 && ListingOk(k, node.entries) && Tiles(node.entries, size) && Parent(node.entries) == p
  }

  /** What a finished creation means for the catalog. */
  ghost predicate Created(d: Disk, c: Catalog, path: seq<byte>, k: nat, node: Node, c': Catalog) {
    && Vacancy(c.nodes, path).Ok?
    && var at := Vacancy(c.nodes, path).value;
    && CanCarve(c.nodes, at.dir, at.name) && k < 0x1_0000_0000 && FirstFreeInode(d, k)
    && Enterable(d.sb.blockSize, c, at.dir, at.name, k, node)
    && c' == Enter(c, at.dir, at.name, k, node)
  }

  lemma DirCarves(size: nat, c: Catalog, p: nat, name: Name)
    requires CatalogOk(size, c) && IsDir(c.nodes, p)
    ensures |c.nodes[p].entries| > 0 && ListingOk(p, c.nodes[p].entries) && Tiles(c.nodes[p].entries, size)
    ensures CanCarve(c.nodes, p, name) <==> CarveFault(c.nodes[p].entries, name).None?
  {
    hide LookupName, ListingOk, UpOk, DownOk, OwnOk, LostOk, Pack, CarveFault;
    ListingHasDots(p, c.nodes[p].entries);
  }

  lemma ReadyEnterable(size: nat, d: Disk, c: Catalog, site: Site, node: Node, d': Disk, c': Catalog)
    requires CatalogOk(size, c) && Ready(size, d, c, site, node, d', c')
    requires |c.nodes[site.parent].entries| > 0 && CarveFault(c.nodes[site.parent].entries, site.name).None?
    ensures Enterable(size, c, site.parent, site.name, site.k, node)
  {
    DirCarves(size, c, site.parent, site.name);
    VacantOrdinary(site.parent, c.nodes[site.parent].entries, site.name);
    hide LookupName, ListingOk, CatalogOk, Ordinary, CanCarve, CarveFault, Tiles, NodeOnDisk, NodeBlocks;
  }

  /** Adding the entry makes the node part of the tree. */
  lemma EnterCore(d: Disk, c: Catalog, r: Catalog, p: nat, name: Name, k: u32, node: Node)
    requires r == Reserve(c, {k as nat}, NodeBlocks(node)) && Core(d, r)
    requires CatalogOk(d.sb.blockSize, c) && Enterable(d.sb.blockSize, c, p, name, k, node)
    requires 1 <= k <= |d.inodes| && NodeOnDisk(d.sb.blockSize, d.inodes[k - 1], d.data, node)
    requires (node.Dir? ==> d.inodes[k - 1].linksCount == 2)
    ensures CanCarve(r.nodes, p, name) && CanCarve(c.nodes, p, name) && AttachCan(d, r, p, name, k, node)
    ensures Core(AttachedDisk(d, r, p, name, k, node), Enter(c, p, name, k, node))
  {
    hide Core, CatalogOk, Enterable, Attachable, NodeOnDisk, Reserve, NodeBlocks, FreshBlocks, Attach, Enter;
    hide AttachedDisk, CanCarve, AllEncodable, Carve, FileTypeOf, Less;
    EnterableParts(d.sb.blockSize, c, p, name, k, node);
    ReserveUp(c, {k as nat}, NodeBlocks(node));
    AttachReserved(c, p, name, k, node);
    EnterableAttachable(d.sb.blockSize, c, p, name, k, node);
    AttachCore(d, r, p, name, k, node);
    AttachCanIntro(d, r, p, name, k, node);
  }

  lemma AttachCanIntro(d: Disk, c: Catalog, p: nat, name: Name, k: u32, node: Node)
    requires CanCarve(c.nodes, p, name) && AllEncodable(Carve(c.nodes[p].entries, name, k, FileTypeOf(node)))
    requires c.nodes[p].block < |d.data| && 1 <= p <= |d.inodes|
    requires d.inodes[p - 1].linksCount + 1 < 0x1_0000 && d.gd.usedDirsCount + 1 < 0x1_0000_0000
    ensures AttachCan(d, c, p, name, k, node)
  {
  }

  /** The writes of a creation are possible. */
  predicate AttachCan(d: Disk, c: Catalog, p: nat, name: Name, k: u32, node: Node)
    requires CanCarve(c.nodes, p, name)
  {
    && AllEncodable(Carve(c.nodes[p].entries, name, k, FileTypeOf(node)))
    && c.nodes[p].block < |d.data| && 1 <= p <= |d.inodes|
    && d.inodes[p - 1].linksCount + 1 < 0x1_0000 && d.gd.usedDirsCount + 1 < 0x1_0000_0000
  }

  lemma ReadyParts(size: nat, d: Disk, c: Catalog, site: Site, node: Node, d': Disk, c': Catalog)
    requires Ready(size, d, c, site, node, d', c')
    ensures c' == Reserve(c, {site.k}, NodeBlocks(node)) && c'.nodes == c.nodes && site.k < 0x1_0000_0000
    ensures 1 <= site.k <= |d'.inodes| && NodeOnDisk(size, d'.inodes[site.k - 1], d'.data, node)
    ensures node.Dir? ==> d'.inodes[site.k - 1].linksCount == 2
  {
    hide NodeOnDisk, NodeBlocks, LookupName;
  }

  lemma EnterableParts(size: nat, c: Catalog, p: nat, name: Name, k: u32, node: Node)
    requires Enterable(size, c, p, name, k, node)
    ensures CanCarve(c.nodes, p, name) && k !in c.lostInodes && FreshBlocks(c, NodeBlocks(node)) && k !in c.nodes
    ensures IsDir(c.nodes, p)
  {
    hide NodeBlocks, LookupName;
  }

  lemma EnterAcyclic(size: nat, c: Catalog, p: nat, name: Name, k: u32, node: Node)
    requires CatalogOk(size, c) && Acyclic(c.up) && Enterable(size, c, p, name, k, node)
    ensures CanCarve(c.nodes, p, name) && Acyclic(Enter(c, p, name, k, node).up)
  {
    EnterableParts(size, c, p, name, k, node);
    hide Enterable, TreeOk, OwnOk, Acyclic, CanCarve, NodeBlocks, WithEntry;
    AttachAcyclic(size, c.nodes, c.up, p, name, k);
  }

  /** The entry of a file or symlink is written. */
  ghost predicate EntryWritten(d: Disk, c: Catalog, site: Site, node: Node, d': Disk)
    requires IsDir(c.nodes, site.parent) && |c.nodes[site.parent].entries| > 0
    requires AllEncodable(c.nodes[site.parent].entries)
    requires CarveFault(c.nodes[site.parent].entries, site.name).None? && site.k < 0x1_0000_0000
  {
    var es := Carve(c.nodes[site.parent].entries, site.name, site.k, FileTypeOf(node));
    AllEncodable(es) && c.nodes[site.parent].block < |d.data| && d' == PutBlock(d, c.nodes[site.parent].block, Pack(es))
  }

  lemma StagedNoFault(d: Disk, c: Catalog, path: seq<byte>, count: nat, site: Site, d': Disk, c': Catalog)
    requires d.sb.blockSize > 0 && Staged(d, c, path, count, site, d', c')
    requires |c.nodes[site.parent].entries| > 0 && CarveFault(c.nodes[site.parent].entries, site.name).None?
    ensures CreateFault(d, c, path, count) == None
  {
    FreeIsFree(d, site.k);
    RunExists(d, site.start, count);
    hide Vacancy, FirstFreeInode, FirstFreeRun, FirstData, RunBlocks, SlashFree, NoFreeInode, NoFreeRun, CarveFault;
  }

  lemma StagedSite(d: Disk, c: Catalog, path: seq<byte>, count: nat, site: Site, d': Disk, c': Catalog)
    requires d.sb.blockSize > 0 && Staged(d, c, path, count, site, d', c')
    ensures Vacancy(c.nodes, path) == Ok(Place(site.parent, site.name)) && FirstFreeInode(d, site.k)
  {
    hide Vacancy, FirstFreeInode, FirstFreeRun, FirstData, RunBlocks, FreshBlocks, Reserve, SlashFree;
  }

  /** A staged creation, completed. */
  lemma Completed(d: Disk, c: Catalog, path: seq<byte>, count: nat, site: Site, s: Disk, node: Node, d': Disk,
                  c': Catalog)
    requires d.sb.blockSize > 0 && CatalogOk(d.sb.blockSize, c) && Acyclic(c.up)
    requires Staged(d, c, path, count, site, s, c') && Ready(d.sb.blockSize, d, c, site, node, d', c')
    requires |c.nodes[site.parent].entries| > 0 && CarveFault(c.nodes[site.parent].entries, site.name).None?
    ensures CanCarve(c.nodes, site.parent, site.name) && site.k < 0x1_0000_0000
    ensures var e := Enter(c, site.parent, site.name, site.k, node);
      && Created(d, c, path, site.k, node, e) && Acyclic(e.up) && CreateFault(d, c, path, count) == None
  {
    hide Vacancy, FirstFreeInode, FirstFreeRun, FirstData, RunBlocks, SlashFree, CatalogOk, Acyclic, Enterable;
    hide CanCarve, CarveFault, CreateFault, Enter, NodeOnDisk, LookupName, NodeBlocks, FreshBlocks, Staged, Ready;
    hide FreshDir, Reserve;
    StagedSite(d, c, path, count, site, s, c');
    ReadyParts(d.sb.blockSize, d, c, site, node, d', c');
    ReadyEnterable(d.sb.blockSize, d, c, site, node, d', c');
    StagedNoFault(d, c, path, count, site, s, c');
    EnterableParts(d.sb.blockSize, c, site.parent, site.name, site.k, node);
    EnterAcyclic(d.sb.blockSize, c, site.parent, site.name, site.k, node);
  }

  lemma PlainEntered(d: Disk, c: Catalog, site: Site, node: Node, d1: Disk, c1: Catalog, d2: Disk)
    requires Core(d1, c1) && CatalogOk(d1.sb.blockSize, c) && Ready(d1.sb.blockSize, d, c, site, node, d1, c1)
    requires !node.Dir?
    requires |c.nodes[site.parent].entries| > 0 && AllEncodable(c.nodes[site.parent].entries)
    requires CarveFault(c.nodes[site.parent].entries, site.name).None? && EntryWritten(d1, c, site, node, d2)
    ensures CanCarve(c.nodes, site.parent, site.name) && Core(d2, Enter(c, site.parent, site.name, site.k, node))
  {
    ReadyEnterable(d1.sb.blockSize, d, c, site, node, d1, c1);
    ReadyParts(d1.sb.blockSize, d, c, site, node, d1, c1);
    hide Core, CatalogOk, Enterable, Ready, CanCarve, CarveFault, Carve, NodeOnDisk, Enter, Reserve, NodeBlocks;
    hide FileTypeOf, Pack, AllEncodable;
    EnterCore(d1, c, c1, site.parent, site.name, site.k, node);
  }

  lemma StagedParts(d: Disk, c: Catalog, path: seq<byte>, count: nat, site: Site, d': Disk, c': Catalog)
    requires d.sb.blockSize > 0 && Staged(d, c, path, count, site, d', c')
    ensures site.k in c'.lostInodes && RESERVED < site.k <= d'.sb.inodesCount
    ensures RunBlocks(site.start, count) <= c'.lostBlocks && site.start + count <= d'.sb.blocksCount
    ensures d'.sb.blockSize == d.sb.blockSize > 0 && (count > 0 ==> FirstData(d'.sb) <= site.start)
    ensures Vacancy(c.nodes, path).Ok? && site.k !in c.nodes && d'.inodes == d.inodes
  {
    hide Vacancy, FirstFreeRun, FirstData, RunBlocks, SlashFree, FreshBlocks;
  }

  /** The record of something just made: times, owner and the rest are zero. */
  function NewInode(mode: u16, size: u64, links: u16, sectors: u32, flags: u32, block: IBlock): Inode {
    Inode(mode, 0, 0, size, 0, 0, 0, 0, links, sectors, 0, flags, block, 0, 0, 0)
  }

  /** A new record, field by field: what is not given is zero. */
  predicate FreshRecord(i: Inode, mode: nat, links: nat, size: nat, sectors: nat, flags: nat) {
    && i.mode == mode && i.linksCount == links && i.size == size && i.blocksLo == sectors && i.flags == flags
    && i.uid == 0 && i.gid == 0 && i.atime == 0 && i.ctime == 0 && i.mtime == 0 && i.dtime == 0
    && i.blocksHi == 0 && i.generation == 0 && i.fileAclLo == 0 && i.fileAclHi == 0
  }

  const FILE_MODE: u16 := 0x81A4
  const DIR_MODE: u16 := 0x41ED
  const LINK_MODE: u16 := 0xA1FF

  lemma NewFileOnDisk(size: nat, len: u64, start: nat, blocks: seq<seq<byte>>, data: seq<seq<byte>>, i: Inode)
    requires size > 0 && |blocks| == DivCeil(len, size) && start + |blocks| <= |data| <= 0x8000 && size <= 0x1000
    requires |blocks| * size / 512 < 0x1_0000_0000
    requires i == NewInode(FILE_MODE, len, 1, |blocks| * size / 512, FLAG_EXTENTS, RunLeaf(start, |blocks|))
    requires data[start..start + |blocks|] == blocks
    ensures NodeOnDisk(size, i, data, File(start, len, blocks))
  {
    hide RunLeaf;
  }

  lemma NewLinkOnDisk(size: nat, target: seq<byte>, data: seq<seq<byte>>, i: Inode)
    requires 1 <= |target| <= I_BLOCK_LEN
    requires i == NewInode(LINK_MODE, |target|, 1, 0, 0, target + Zeros(I_BLOCK_LEN - |target|))
    ensures NodeOnDisk(size, i, data, Link(target))
  {
  }

  lemma NewDirOnDisk(size: nat, b: nat, es: seq<DirEntry>, data: seq<seq<byte>>, i: Inode)
    requires b < |data| <= 0x8000 && AllEncodable(es) && data[b] == Pack(es) && size / 512 < 0x1_0000_0000
    requires size < 0x1_0000
    requires i == NewInode(DIR_MODE, size, 2, size / 512, FLAG_EXTENTS, RunLeaf(b, 1))
    ensures NodeOnDisk(size, i, data, Dir(b, es))
  {
    hide RunLeaf, Pack, AllEncodable;
  }

  /** Writing the record and the run leaves the parent's record alone. */
  lemma StagedReady(d: Disk, c: Catalog, path: seq<byte>, count: nat, site: Site, s: Disk, d': Disk, c': Catalog,
                    node: Node)
    requires d.sb.blockSize > 0 && Staged(d, c, path, count, site, s, c') && RESERVED < site.k < 0x1_0000_0000
    requires 1 <= site.k <= |s.inodes| && |d'.inodes| == |s.inodes| && IsDir(c.nodes, site.parent)
    requires d'.inodes == s.inodes[site.k - 1 := d'.inodes[site.k - 1]]
    requires NodeBlocks(node) == RunBlocks(site.start, count)
    requires NodeOnDisk(d.sb.blockSize, d'.inodes[site.k - 1], d'.data, node)
    requires node.Dir? ==> d'.inodes[site.k - 1].linksCount == 2 && FreshDir(d.sb.blockSize, node, site.k, site.parent)
    ensures Ready(d.sb.blockSize, d, c, site, node, d', c')
  {
    hide NodeBlocks, RunBlocks, NodeOnDisk, FreshBlocks, LookupName, FirstFreeRun, FirstFreeInode, FirstData, SlashFree;
    hide FreshDir;
    VacantAt(c, path);
    assert site.parent != site.k;
  }

  lemma VacantAt(c: Catalog, path: seq<byte>)
    requires Vacancy(c.nodes, path).Ok?
    ensures var at := Vacancy(c.nodes, path).value;
      IsDir(c.nodes, at.dir) && LookupName(c.nodes[at.dir].entries, at.name) == None
  {
    hide Aim, LookupName;
  }

  /** create_file, finished: the file holds `data`, in the first inode and the first run that fit. */
  ghost predicate FileCreated(d: Disk, c: Catalog, path: seq<byte>, data: seq<byte>, k: nat, d': Disk, c': Catalog)
    requires d.sb.blockSize > 0
  {
    && CreateFault(d, c, path, DivCeil(|data|, d.sb.blockSize)) == None
    && k in c'.nodes && c'.nodes[k].File?
    && var f := c'.nodes[k];
    && f == File(f.start, |data|, FileBlocks(data, d.sb.blockSize))
    && FirstFreeRun(d, f.start, DivCeil(|data|, d.sb.blockSize))
    && Created(d, c, path, k, f, c') && Coherent(d')
    && 1 <= k <= |d'.inodes|
    && var sectors := DivCeil(|data|, d.sb.blockSize) * d.sb.blockSize / 512;
    FreshRecord(d'.inodes[k - 1], 0x81A4, 1, |data|, sectors, 0x8_0000)
  }

  lemma FileCreatedIntro(d: Disk, c: Catalog, path: seq<byte>, data: seq<byte>, site: Site, s: Disk, d': Disk,
                         c1: Catalog, c': Catalog)
    requires d.sb.blockSize > 0 && Staged(d, c, path, DivCeil(|data|, d.sb.blockSize), site, s, c1)
    requires 1 <= site.k <= |d'.inodes|
    requires var sectors := DivCeil(|data|, d.sb.blockSize) * d.sb.blockSize / 512;
      FreshRecord(d'.inodes[site.k - 1], 0x81A4, 1, |data|, sectors, 0x8_0000)
    requires CreateFault(d, c, path, DivCeil(|data|, d.sb.blockSize)) == None && Coherent(d')
    requires Created(d, c, path, site.k, File(site.start, |data|, FileBlocks(data, d.sb.blockSize)), c')
    ensures FileCreated(d, c, path, data, site.k, d', c')
  {
    hide CreateFault, Vacancy, FileBlocks, CanCarve, FirstFreeInode, FirstFreeRun, FirstData, Coherent, Enterable;
    hide RunBlocks, FreshBlocks, NodeBlocks, WithEntry;
  }

  /** A file the block counter can hold fits the other fields too. */
  lemma FileSizes(len: nat, size: nat)
    requires size == 2048 || size == 4096
    requires DivCeil(len, size) < 0x1_0000_0000
    ensures len < 0x1_0000_0000_0000_0000
    ensures DivCeil(len, size) <= 0x8000 ==> DivCeil(len, size) * size / 512 < 0x1_0000_0000
  {
    var n := DivCeil(len, size);
    if size == 2048 {
      assert 2048 * n >= len;
    } else {
      assert 4096 * n >= len;
    }
  }

  lemma ReadyFacts(d: Disk, c: Catalog, site: Site, node: Node, d': Disk, c': Catalog)
    requires Ready(d'.sb.blockSize, d, c, site, node, d', c')
    ensures IsDir(c.nodes, site.parent) && c'.nodes == c.nodes && site.k < 0x1_0000_0000
    ensures 1 <= site.parent <= |d'.inodes| && d'.inodes[site.parent - 1] == site.parentInode
  {
    hide NodeOnDisk, NodeBlocks, LookupName;
  }

  /** The file's record and blocks are written. */
  lemma FileReady(d: Disk, c: Catalog, path: seq<byte>, n: nat, site: Site, s: Disk, d': Disk, c': Catalog, len: u64,
                  blocks: seq<seq<byte>>, i: Inode)
    requires 0 < d.sb.blockSize <= 0x1000 && Staged(d, c, path, n, site, s, c') && RESERVED < site.k <= |s.inodes|
    requires site.start + n <= |s.data| <= 0x8000 && |s.inodes| <= 0x8000
    requires |blocks| == n == DivCeil(len, d.sb.blockSize) && n * d.sb.blockSize / 512 < 0x1_0000_0000
    requires i == NewInode(FILE_MODE, len, 1, n * d.sb.blockSize / 512, FLAG_EXTENTS, RunLeaf(site.start, n))
    requires d' == if n == 0 then PutInode(s, site.k, i) else PutData(PutInode(s, site.k, i), site.start, blocks)
    ensures Ready(d.sb.blockSize, d, c, site, File(site.start, len, blocks), d', c')
  {
    hide RunLeaf, Staged, Ready, NewInode, NodeOnDisk;
    assert d'.data[site.start..site.start + n] == blocks;
    NewFileOnDisk(d.sb.blockSize, len, site.start, blocks, d'.data, i);
    StagedVacant(d, c, path, n, site, s, c');
    StagedReady(d, c, path, n, site, s, d', c', File(site.start, len, blocks));
  }

  lemma StagedVacant(d: Disk, c: Catalog, path: seq<byte>, count: nat, site: Site, s: Disk, c': Catalog)
    requires d.sb.blockSize > 0 && Staged(d, c, path, count, site, s, c')
    ensures IsDir(c.nodes, site.parent)
  {
    VacantAt(c, path);
    hide Vacancy, FirstFreeRun, FirstFreeInode, FirstData, RunBlocks, SlashFree, FreshBlocks, LookupName;
  }

  /** symlink, finished. */
  ghost predicate LinkCreated(d: Disk, c: Catalog, path: seq<byte>, target: seq<byte>, k: nat, d': Disk, c': Catalog) {
    && CreateFault(d, c, path, 0) == None && Created(d, c, path, k, Link(target), c') && Coherent(d')
    && 1 <= k <= |d'.inodes| && FreshRecord(d'.inodes[k - 1], 0xA1FF, 1, |target|, 0, 0)
  }

  /** mkdir, finished: an empty listing in the first free block, whose `..` is the parent. */
  ghost predicate DirCreated(d: Disk, c: Catalog, path: seq<byte>, k: nat, d': Disk, c': Catalog)
    requires 24 <= d.sb.blockSize < 0x1_0000 && d.sb.blockSize % 4 == 0
  {
    && CreateFault(d, c, path, 1) == None && Vacancy(c.nodes, path).Ok?
    && IsDir(c'.nodes, k) && FirstFreeRun(d, c'.nodes[k].block, 1)
    && k < 0x1_0000_0000 && Vacancy(c.nodes, path).value.dir < 0x1_0000_0000
    && c'.nodes[k].entries ==
         [DirEntry(k, 12, 2, [46]), DirEntry(Vacancy(c.nodes, path).value.dir, d.sb.blockSize - 12, 2, [46, 46])]
    && Created(d, c, path, k, c'.nodes[k], c') && Coherent(d')
    && 1 <= k <= |d'.inodes| && FreshRecord(d'.inodes[k - 1], 0x41ED, 2, d.sb.blockSize, d.sb.blockSize / 512, 0x8_0000)
  }

  lemma LinkReady(d: Disk, c: Catalog, path: seq<byte>, site: Site, s: Disk, d': Disk, c': Catalog, target: seq<byte>,
                  i: Inode)
    requires d.sb.blockSize > 0 && Staged(d, c, path, 0, site, s, c') && RESERVED < site.k <= |s.inodes| <= 0x8000
    requires 1 <= |target| <= I_BLOCK_LEN && d' == PutInode(s, site.k, i)
    requires i == NewInode(LINK_MODE, |target|, 1, 0, 0, target + Zeros(I_BLOCK_LEN - |target|))
    ensures Ready(d.sb.blockSize, d, c, site, Link(target), d', c')
  {
    hide Staged, Ready, NewInode, NodeOnDisk;
    NewLinkOnDisk(d.sb.blockSize, target, d'.data, i);
    StagedVacant(d, c, path, 0, site, s, c');
    NoBlocks(site.start);
    StagedReady(d, c, path, 0, site, s, d', c', Link(target));
  }

  lemma DirReady(d: Disk, c: Catalog, path: seq<byte>, site: Site, s: Disk, d': Disk, c': Catalog, i: Inode)
    requires (d.sb.blockSize == 2048 || d.sb.blockSize == 4096) && Staged(d, c, path, 1, site, s, c')
    requires RESERVED < site.k <= |s.inodes| <= 0x8000 && 0 < site.parent <= |s.inodes|
    requires site.start < |s.data| <= 0x8000
    requires i == NewInode(DIR_MODE, d.sb.blockSize, 2, d.sb.blockSize / 512, FLAG_EXTENTS, RunLeaf(site.start, 1))
    requires AllEncodable(NewListing(site.k, site.parent, d.sb.blockSize))
    requires d' == PutData(PutInode(s, site.k, i), site.start, [Pack(NewListing(site.k, site.parent, d.sb.blockSize))])
    ensures Ready(d.sb.blockSize, d, c, site, Dir(site.start, NewListing(site.k, site.parent, d.sb.blockSize)), d', c')
  {
    var es := NewListing(site.k, site.parent, d.sb.blockSize);
    hide RunLeaf, Staged, Ready, NodeOnDisk, Pack, AllEncodable;
    assert Parent(es) == site.parent && |es| == 2;
    NewListingOk(site.k, site.parent, d.sb.blockSize);
    hide ListingOk, Tiles, Parent, NewListing;
    assert d'.data[site.start] == Pack(es);
    NewDirOnDisk(d.sb.blockSize, site.start, es, d'.data, i);
    hide NewInode;
    assert RunBlocks(site.start, 1) == {site.start};
    StagedVacant(d, c, path, 1, site, s, c');
    assert d'.inodes[site.k - 1] == i
      && i.linksCount == 2 by { NewDirLinks(i, d.sb.blockSize, RunLeaf(site.start, 1)); }
    StagedReady(d, c, path, 1, site, s, d', c', Dir(site.start, es));
  }

  lemma NewDirLinks(i: Inode, size: nat, block: IBlock)
    requires size < 0x1_0000 && i == NewInode(DIR_MODE, size, 2, size / 512, FLAG_EXTENTS, block)
    ensures i.linksCount == 2
  {
  }

  /** A directory's entry, its parent's link and the directory count are written. */
  lemma DirEntered(d: Disk, c: Catalog, site: Site, node: Node, d1: Disk, c1: Catalog, d2: Disk)
    requires Core(d1, c1) && CatalogOk(d1.sb.blockSize, c) && Ready(d1.sb.blockSize, d, c, site, node, d1, c1)
    requires node.Dir?
    requires |c.nodes[site.parent].entries| > 0 && AllEncodable(c.nodes[site.parent].entries)
    requires CarveFault(c.nodes[site.parent].entries, site.name).None? && site.k < 0x1_0000_0000
    requires IsDir(c.nodes, site.parent)
    requires EntryWritten(d1, c, site, node, d2)
    ensures CanCarve(c.nodes, site.parent, site.name) && 1 <= site.parent <= |d2.inodes|
    ensures site.parentInode.linksCount + 1 < 0x1_0000 && d1.gd.usedDirsCount + 1 < 0x1_0000_0000
    ensures Core(WithDirs(PutInode(d2, site.parent, site.parentInode.(linksCount := site.parentInode.linksCount + 1)),
      d1.gd.usedDirsCount + 1),
                 Enter(c, site.parent, site.name, site.k, node))
  {
    hide Core, CatalogOk, Enterable, Ready, CanCarve, CarveFault, Carve, NodeOnDisk, Enter, Reserve, NodeBlocks;
    hide FileTypeOf, Pack, AllEncodable;
    hide FreshBlocks, LookupName, FreshDir, SlashFree;
    ReadyEnterable(d1.sb.blockSize, d, c, site, node, d1, c1);
    ReadyParts(d1.sb.blockSize, d, c, site, node, d1, c1);
    ReadyFacts(d, c, site, node, d1, c1);
    EnterCore(d1, c, c1, site.parent, site.name, site.k, node);
  }

  lemma DirCreatedIntro(d: Disk, c: Catalog, path: seq<byte>, site: Site, s: Disk, d': Disk, c1: Catalog, c': Catalog)
    requires (d.sb.blockSize == 2048 || d.sb.blockSize == 4096) && Staged(d, c, path, 1, site, s, c1)
    requires CreateFault(d, c, path, 1) == None && Coherent(d') && site.k < 0x1_0000_0000 && site.parent < 0x1_0000_0000
    requires Created(d, c, path, site.k, Dir(site.start, NewListing(site.k, site.parent, d.sb.blockSize)), c')
    requires 1 <= site.k <= |d'.inodes|
    requires FreshRecord(d'.inodes[site.k - 1], 0x41ED, 2, d.sb.blockSize, d.sb.blockSize / 512, 0x8_0000)
    ensures DirCreated(d, c, path, site.k, d', c')
  {
    hide CreateFault, Vacancy, CanCarve, FirstFreeInode, FirstFreeRun, FirstData, Coherent, Enterable, RunBlocks;
    hide FreshBlocks, NodeBlocks, WithEntry;
  }

  // ----- owner, mode and times -----

  const METADATA_CTIME: u32 := 0x6500_0002

  /** Nothing the tree depends on differs: only mode bits below the type, owner, times. */
  predicate Touched(i: Inode, j: Inode) {
    j == i.(mode := j.mode, uid := j.uid, gid := j.gid, atime := j.atime, ctime := j.ctime, mtime := j.mtime)
      && j.FileType() == i.FileType()
  }

  function Chmodded(i: Inode, mode: u16): Inode {
    i.(mode := i.mode / 0x1000 * 0x1000 + mode % 0x1000)
  }

  /** chmod keeps the file type whatever bits the caller passes, and replaces the rest. */
  lemma ChmodKeepsType(i: Inode, mode: u16)
    ensures Chmodded(i, mode) == i.(mode := Chmodded(i, mode).mode)
    ensures Chmodded(i, mode).mode / 0x1000 == i.mode / 0x1000
    ensures Chmodded(i, mode).FileType() == i.FileType() && Chmodded(i, mode).mode % 0x1000 == mode % 0x1000
    ensures Touched(i, Chmodded(i, mode))
  {
  }

  lemma TouchedOnDisk(size: nat, i: Inode, j: Inode, data: seq<seq<byte>>, node: Node)
    requires NodeOnDisk(size, i, data, node) && Touched(i, j)
    ensures NodeOnDisk(size, j, data, node)
  {
    hide RunLeaf, Pack, AllEncodable;
  }
}
