/** What rename decides, the writes it makes, and when it keeps the tree a tree. */
module Renames {
  import opened Bytes
  import opened Results
  import opened DirEntries
  import opened DirBlocks
  import opened Listings
  import opened Paths
  import opened Inodes
  import opened Superblocks
  import opened Catalogs
  import opened Moves
  import opened Disks
  import opened DiskSteps
  import opened DiskMoves
  import opened DiskFacts
  import opened Operations

  /** What rename does once every check is made. */
  datatype Plan =
    | Refuse(error: Error)
    | Keep
    | Fresh(from: Place, k: nat, to: Place)
    | Replace(from: Place, k: nat, to: Place, gone: nat)

  /** The checks of rename, in order. */
  function PlanOf(nodes: map<nat, Node>, oldPath: seq<byte>, newPath: seq<byte>): Plan {
    match SplitPath(oldPath)
    case Err(e) => Refuse(e)
    case Ok(_) =>
      match SplitPath(newPath)
      case Err(e) => Refuse(e)
      case Ok(_) =>
        match Occupant(nodes, oldPath)
        case Err(e) => Refuse(e)
        case Ok((from, k)) =>
          if k == ROOT then Refuse(InvalidLayout) else
          match Aim(nodes, newPath)
          case Err(e) => Refuse(e)
          case Ok(to) =>
            match LookupName(nodes[to.dir].entries, to.name)
            case None => Fresh(from, k, to)
            case Some(b) =>
              if b.inode == k then Keep
              else if IsDir(nodes, b.inode) || IsDir(nodes, k) then Refuse(AlreadyExists(to.name))
              else Replace(from, k, to, b.inode)
  }

  /** A directory named by `.` or `..` that rename would move. */
  predicate NamesDots(nodes: map<nat, Node>, oldPath: seq<byte>, newPath: seq<byte>) {
    var plan := PlanOf(nodes, oldPath, newPath);
    plan.Fresh? && (plan.from.name == DOT || plan.from.name == DOTDOT)
  }

  /** Nothing in the source stops it unless the destination directory is full. */
  predicate MovesDots(nodes: map<nat, Node>, oldPath: seq<byte>, newPath: seq<byte>) {
    var plan := PlanOf(nodes, oldPath, newPath);
    && NamesDots(nodes, oldPath, newPath) && IsDir(nodes, plan.to.dir) && |nodes[plan.to.dir].entries| > 0
    && CarveFault(nodes[plan.to.dir].entries, plan.to.name).None?
  }

  /** What the plan's arguments are. */
  lemma PlanFacts(size: nat, c: Catalog, oldPath: seq<byte>, newPath: seq<byte>)
    requires CatalogOk(size, c) && Acyclic(c.up) && !NamesDots(c.nodes, oldPath, newPath)
    ensures var plan := PlanOf(c.nodes, oldPath, newPath);
      plan.Fresh? || plan.Replace? ==>
        && IsDir(c.nodes, plan.from.dir) && IsDir(c.nodes, plan.to.dir) && plan.k in c.nodes && plan.k in c.up
        && c.up[plan.k] == plan.from && plan.from.dir != plan.k && Ordinary(plan.to.name)
        && (plan.Fresh? ==> LookupName(c.nodes[plan.to.dir].entries, plan.to.name) == None)
        && (plan.Replace? ==>
              && !IsDir(c.nodes, plan.k) && plan.gone != plan.k && plan.gone in c.nodes && !IsDir(c.nodes, plan.gone)
              && Detachable(c, plan.to.dir, plan.to.name, plan.gone))
  {
    var plan := PlanOf(c.nodes, oldPath, newPath);
    if plan.Fresh? || plan.Replace? {
      AimedNames(c.nodes, oldPath, newPath);
      hide PlanOf, NamesDots, CatalogOk, LookupName, Ordinary, Detachable, SlashFree;
      SourceFacts(size, c, plan.from, plan.k);
      if plan.Fresh? {
        DestinationFree(size, c, plan.to);
      } else {
        DestinationTaken(size, c, plan.to, plan.gone);
      }
    }
  }

  lemma AimedNames(nodes: map<nat, Node>, oldPath: seq<byte>, newPath: seq<byte>)
    requires !NamesDots(nodes, oldPath, newPath)
    ensures var plan := PlanOf(nodes, oldPath, newPath);
      plan.Fresh? || plan.Replace? ==>
        && SlashFree(plan.from.name) && SlashFree(plan.to.name) && IsDir(nodes, plan.from.dir)
        && IsDir(nodes, plan.to.dir) && plan.k != ROOT
        && LookupName(nodes[plan.from.dir].entries, plan.from.name).Some?
        && LookupName(nodes[plan.from.dir].entries, plan.from.name).value.inode == plan.k
        && (plan.Fresh? ==>
             plan.from.name != DOT && plan.from.name != DOTDOT
               && LookupName(nodes[plan.to.dir].entries, plan.to.name) == None)
        && (plan.Replace? ==>
              && !IsDir(nodes, plan.k) && !IsDir(nodes, plan.gone) && plan.gone != plan.k
              && LookupName(nodes[plan.to.dir].entries, plan.to.name).Some?
              && LookupName(nodes[plan.to.dir].entries, plan.to.name).value.inode == plan.gone)
  {
    SplitAgreesWithWalk(oldPath);
    SplitAgreesWithWalk(newPath);
    hide Directory, LookupName, SplitPath, SlashFree, Components;
  }

  /** The source is entered where it was found: the dots lead to directories. */
  lemma SourceFacts(size: nat, c: Catalog, from: Place, k: nat)
    requires CatalogOk(size, c) && Acyclic(c.up) && IsDir(c.nodes, from.dir) && SlashFree(from.name) && k != ROOT
    requires LookupName(c.nodes[from.dir].entries, from.name).Some?
    requires LookupName(c.nodes[from.dir].entries, from.name).value.inode == k
    requires (from.name != DOT && from.name != DOTDOT) || !IsDir(c.nodes, k)
    ensures k in c.nodes && k in c.up && c.up[k] == from && from.dir != k && Ordinary(from.name)
  {
    hide TreeOk, OwnOk, LostOk, LookupName, Ordinary;
    LookupLands(size, c.nodes, c.up, from.dir, from.name);
    OrdinaryIf(from.name);
    NotOwnEntry(size, c, k);
  }

  /** No inode is entered in itself. */
  lemma NotOwnEntry(size: nat, c: Catalog, k: nat)
    requires CatalogOk(size, c) && Acyclic(c.up) && k in c.up
    ensures c.up[k].dir != k
  {
    TreeUpKeys(size, c.nodes, c.up);
    if c.up[k].dir == k {
      assert Below(c.up, k, ROOT);
      var n: nat :| Climb(c.up, k, n) == ROOT;
      Stuck(c.up, k, n);
    }
  }

  lemma {:induction false} Stuck(up: map<nat, Place>, k: nat, n: nat)
    requires k in up && up[k].dir == k
    ensures Climb(up, k, n) == k
    decreases n
  {
    if n > 0 {
      Stuck(up, k, n - 1);
    }
  }

  lemma DestinationFree(size: nat, c: Catalog, to: Place)
    requires CatalogOk(size, c) && IsDir(c.nodes, to.dir) && SlashFree(to.name)
    requires LookupName(c.nodes[to.dir].entries, to.name) == None
    ensures Ordinary(to.name)
  {
    hide UpOk, DownOk, OwnOk, LostOk, LookupName, Ordinary, Tiles, ListingOk;
    VacantOrdinary(to.dir, c.nodes[to.dir].entries, to.name);
  }

  lemma DestinationTaken(size: nat, c: Catalog, to: Place, gone: nat)
    requires CatalogOk(size, c) && IsDir(c.nodes, to.dir) && SlashFree(to.name) && !IsDir(c.nodes, gone)
    requires LookupName(c.nodes[to.dir].entries, to.name).Some?
    requires LookupName(c.nodes[to.dir].entries, to.name).value.inode == gone
    ensures gone in c.nodes && Ordinary(to.name) && Detachable(c, to.dir, to.name, gone)
  {
    hide TreeOk, OwnOk, LostOk, LookupName, Ordinary;
    LookupLands(size, c.nodes, c.up, to.dir, to.name);
    if to.name != DOT && to.name != DOTDOT {
      OrdinaryIf(to.name);
    }
  }

  // ----- the two edits and the repointing, one block at a time -----

  /** What the second edit meets once the new entry is written. */
  ghost predicate OldEntryReady(d: Disk, c: Catalog, p: nat, was: Name, q: u32, name: Name, k: u32, i: nat)
    requires MoveReady(d, c, p, was, q, name, k)
  {
    var one := Entered1(c.nodes, q, name, k);
    var d1 := PutBlock(d, one[q].block, Pack(one[q].entries));
    && IsDir(one, p) && NodeOnDisk(d.sb.blockSize, d.inodes[p - 1], d1.data, one[p])
    && Tiles(one[p].entries, d.sb.blockSize)
    && FirstData(d.sb) <= one[p].block
    && FindBinding(one[p].entries, was, k) == Some(i)
    && (i > 0 ==> one[p].entries[i - 1].recLen + one[p].entries[i].recLen < 0x1_0000)
    && Erase(one[p].entries, i) == WithoutEntry(one, p, was)[p].entries
    && WithoutEntry(one, p, was)[p].block == one[p].block
  }

  function AfterFirst(d: Disk, c: Catalog, p: nat, was: Name, q: u32, name: Name, k: u32): Disk
    requires MoveReady(d, c, p, was, q, name, k)
  {
    var one := Entered1(c.nodes, q, name, k);
    PutBlock(d, one[q].block, Pack(one[q].entries))
  }

  function AfterSecond(d: Disk, c: Catalog, p: nat, was: Name, q: u32, name: Name, k: u32): Disk
    requires MoveReady(d, c, p, was, q, name, k)
  {
    var two := WithoutEntry(Entered1(c.nodes, q, name, k), p, was);
    PutBlock(AfterFirst(d, c, p, was, q, name, k), two[p].block, Pack(two[p].entries))
  }

  /** The two or three block writes and the two record writes are the move. */
  lemma WritesAreMove(d: Disk, c: Catalog, p: nat, was: Name, q: u32, name: Name, k: u32)
    requires MoveReady(d, c, p, was, q, name, k)
    ensures !Reparents(c.nodes, p, q, k) ==>
      AfterSecond(d, c, p, was, q, name, k) == MovedDisk(d, c, p, was, q, name, k)
    ensures Reparents(c.nodes, p, q, k) ==>
      var after := MovedNodes(c.nodes, p, was, q, name, k);
      && IsDir(after, k) && AllEncodable(after[k].entries) && after[k].block < |d.data|
      && 1 <= p <= |d.inodes| && 1 <= q <= |d.inodes| && d.inodes[q - 1].linksCount + 1 < 0x1_0000
      && var d3 := PutBlock(AfterSecond(d, c, p, was, q, name, k), after[k].block, Pack(after[k].entries));
         PutInode(PutInode(d3, p, d.inodes[p - 1].(linksCount := Less(d.inodes[p - 1].linksCount, 1))),
                  q, d.inodes[q - 1].(linksCount := d.inodes[q - 1].linksCount + 1)) ==
                    MovedDisk(d, c, p, was, q, name, k)
  {
    hide CanMove, Entered1, WithoutEntry, MovedNodes, Pack, AllEncodable;
  }

  lemma CanMoveErases(c: Catalog, p: nat, was: Name, q: u32, name: Name, k: u32)
    requires CanMove(c.nodes, p, was, q, name, k)
    ensures CanCarve(c.nodes, q, name) && k as nat in c.nodes
    ensures var one := Entered1(c.nodes, q, name, k);
      && CanErase(one, p, was) && IsDir(one, p) && Find(one[p].entries, was).Some?
      && var i := Find(one[p].entries, was).value;
      && (i > 0 ==> one[p].entries[i - 1].recLen + one[p].entries[i].recLen < 0x1_0000)
      && WithoutEntry(one, p, was)[p] == Dir(one[p].block, Erase(one[p].entries, i))
  {
    hide WithEntry, Find, Erase, CanCarve, FileTypeOf;
  }

  lemma TilesIn(size: nat, nodes: map<nat, Node>, x: nat)
    requires DirsOk(size, nodes) && IsDir(nodes, x)
    ensures ListingOk(x, nodes[x].entries) && Tiles(nodes[x].entries, size)
  {
  }

  lemma UntouchedDir(size: nat, i: Inode, data: seq<seq<byte>>, data': seq<seq<byte>>, node: Node)
    requires node.Dir? && NodeOnDisk(size, i, data, node) && |data'| == |data|
    requires node.block < |data| ==> data'[node.block] == data[node.block]
    ensures NodeOnDisk(size, i, data', node)
  {
    hide RunLeaf, Pack, AllEncodable;
  }

  /** One directory block rewritten, as any directory's record sees it. */
  lemma EditedDir(d: Disk, c: Catalog, q: nat, es: seq<DirEntry>, x: nat)
    requires Core(d, c) && IsDir(c.nodes, q) && IsDir(c.nodes, x) && AllEncodable(es)
    ensures c.nodes[q].block < |d.data| && 1 <= x <= |d.inodes|
    ensures NodeOnDisk(d.sb.blockSize, d.inodes[x - 1], d.data[c.nodes[q].block := Pack(es)], if x ==
      q then Dir(c.nodes[q].block, es) else c.nodes[x])
  {
    hide Core, NodeOnDisk, Pack, AllEncodable, FirstData;
    DirBlockIn(d, c, q);
    DirBlockIn(d, c, x);
    var data := d.data[c.nodes[q].block := Pack(es)];
    if x == q {
      RewrittenDir(d.sb.blockSize, d.inodes[q - 1], d.data, data, c.nodes[q], es);
    } else {
      DistinctBlocks(d, c, x, q);
      UntouchedDir(d.sb.blockSize, d.inodes[x - 1], d.data, data, c.nodes[x]);
    }
  }

  lemma OldEntryHolds(d: Disk, c: Catalog, p: nat, was: Name, q: u32, name: Name, k: u32)
    requires Core(d, c) && Movable(c, p, was, q, name, k)
    ensures MoveReady(d, c, p, was, q, name, k)
    ensures var one := Entered1(c.nodes, q, name, k);
      IsDir(one, p) && Find(one[p].entries, was).Some?
        && OldEntryReady(d, c, p, was, q, name, k, Find(one[p].entries, was).value)
  {
    hide Core, Movable, MoveReady, CanMove, Entered1, WithEntry, WithoutEntry, Find, FindBinding, Tiles, NodeOnDisk;
    hide AllEncodable, Pack, ListingOk, LookupName;
    hide Ordinary, DirsOk, Erase, CarveFault, MovedNodes, FirstData, Reparents, OldEntryReady, CatalogOk, CanErase;
    hide CanCarve, Geometry, Sized, TreeOnDisk, BitmapsOk;
    MoveIsReady(d, c, p, was, q, name, k);
    CoreParts(d, c);
    OneFacts(d.sb.blockSize, c, p, was, q, name, k);
    ReadyBlocks(d, c, p, was, q, name, k);
    var one := Entered1(c.nodes, q, name, k);
    DirBlockIn(d, c, p);
    EditedDir(d, c, q, one[q].entries, p);
    OldEntryIntro(d, c, p, was, q, name, k);
  }

  /** After the new entry: the directories involved, and the old entry still in place. */
  lemma OneFacts(size: nat, c: Catalog, p: nat, was: Name, q: u32, name: Name, k: u32)
    requires CatalogOk(size, c) && Movable(c, p, was, q, name, k)
    ensures CanMove(c.nodes, p, was, q, name, k) && CanCarve(c.nodes, q, name) && k as nat in c.nodes
    ensures IsDir(c.nodes, p) && IsDir(c.nodes, q)
    ensures var one := Entered1(c.nodes, q, name, k);
      && IsDir(one, p) && IsDir(one, q) && CanErase(one, p, was) && Find(one[p].entries, was).Some?
      && Tiles(one[p].entries, size) && one[q].block == c.nodes[q].block && (p != q ==> one[p] == c.nodes[p])
      && var i := Find(one[p].entries, was).value;
      && FindBinding(one[p].entries, was, k) == Some(i)
      && (i > 0 ==> one[p].entries[i - 1].recLen + one[p].entries[i].recLen < 0x1_0000)
      && WithoutEntry(one, p, was)[p] == Dir(one[p].block, Erase(one[p].entries, i))
  {
    MoveTwoSteps(size, c, p, was, q, name, k);
    hide CatalogOk, Movable, CanMove, WithEntry, WithoutEntry, Find, FindBinding, Tiles, ListingOk, LookupName;
    hide Ordinary, DirsOk, Erase, CarveFault, MovedNodes, Reparents, CanErase, CanCarve;
    MovableParts(c, p, was, q, name, k);
    CanMoveErases(c, p, was, q, name, k);
    var one := Entered1(c.nodes, q, name, k);
    TilesIn(size, one, p);
    BlocksOfMove(c, p, was, q, name, k);
  }

  lemma ReadyBlocks(d: Disk, c: Catalog, p: nat, was: Name, q: u32, name: Name, k: u32)
    requires MoveReady(d, c, p, was, q, name, k)
    ensures var one := Entered1(c.nodes, q, name, k);
      IsDir(one, q) && AllEncodable(one[q].entries) && one[q].block < |d.data|
    ensures 1 <= p <= |d.inodes| && 1 <= q <= |d.inodes| && 1 <= k <= |d.inodes|
  {
    hide CanMove, WithoutEntry, MovedNodes, Pack, AllEncodable, WithEntry;
  }

  lemma OldEntryIntro(d: Disk, c: Catalog, p: nat, was: Name, q: u32, name: Name, k: u32)
    requires MoveReady(d, c, p, was, q, name, k) && IsDir(c.nodes, p) && IsDir(c.nodes, q)
    requires FirstData(d.sb) <= c.nodes[p].block
    requires var one := Entered1(c.nodes, q, name, k);
      && IsDir(one, p) && IsDir(one, q) && Find(one[p].entries, was).Some? && AllEncodable(one[q].entries)
      && one[q].block < |d.data|
      && Tiles(one[p].entries, d.sb.blockSize) && one[q].block == c.nodes[q].block && (p != q ==> one[p] == c.nodes[p])
      && var i := Find(one[p].entries, was).value;
      && FindBinding(one[p].entries, was, k) == Some(i)
      && (i > 0 ==> one[p].entries[i - 1].recLen + one[p].entries[i].recLen < 0x1_0000)
      && WithoutEntry(one, p, was)[p] == Dir(one[p].block, Erase(one[p].entries, i))
      && 1 <= p <= |d.inodes|
      && NodeOnDisk(d.sb.blockSize, d.inodes[p - 1], d.data[c.nodes[q].block := Pack(one[q].entries)],
                    if p == q then Dir(c.nodes[q].block, one[q].entries) else c.nodes[p])
    ensures OldEntryReady(d, c, p, was, q, name, k, Find(Entered1(c.nodes, q, name, k)[p].entries, was).value)
  {
    hide MoveReady, CanMove, Entered1, WithoutEntry, Find, FindBinding, Tiles, NodeOnDisk, AllEncodable, Pack, Erase;
    hide FirstData;
  }

  /** What repointing `..` meets once both edits are written. */
  ghost predicate DotDotReady(d: Disk, c: Catalog, p: nat, was: Name, q: u32, name: Name, k: u32)
    requires MoveReady(d, c, p, was, q, name, k)
  {
    var two := WithoutEntry(Entered1(c.nodes, q, name, k), p, was);
    var after := MovedNodes(c.nodes, p, was, q, name, k);
    && IsDir(two, k) && IsDir(after, k)
    && NodeOnDisk(d.sb.blockSize, d.inodes[k - 1], AfterSecond(d, c, p, was, q, name, k).data, two[k])
    && Tiles(two[k].entries, d.sb.blockSize)
    && FirstData(d.sb) <= two[k].block && Find(two[k].entries, DOTDOT) == Some(1)
    && after[k] == Dir(two[k].block, two[k].entries[1 := two[k].entries[1].(inode := q)])
  }

  lemma DotDotHolds(d: Disk, c: Catalog, p: nat, was: Name, q: u32, name: Name, k: u32)
    requires Core(d, c) && Movable(c, p, was, q, name, k) && Reparents(c.nodes, p, q, k)
    ensures MoveReady(d, c, p, was, q, name, k) && DotDotReady(d, c, p, was, q, name, k)
  {
    hide Core, Movable, MoveReady, CanMove, Entered1, WithEntry, WithoutEntry, Find, FindBinding, Tiles, NodeOnDisk;
    hide AllEncodable, Pack, ListingOk, LookupName;
    hide Ordinary, DirsOk, Erase, CarveFault, MovedNodes, FirstData, DotDotReady, CatalogOk, CanErase, AfterSecond;
    hide CanCarve, Geometry, Sized, TreeOnDisk, BitmapsOk;
    MoveIsReady(d, c, p, was, q, name, k);
    CoreParts(d, c);
    MovableParts(c, p, was, q, name, k);
    TwoFacts(d.sb.blockSize, c, p, was, q, name, k);
    ReadyBlocks(d, c, p, was, q, name, k);
    var one := Entered1(c.nodes, q, name, k);
    DirBlockIn(d, c, k);
    DirBlockIn(d, c, p);
    DistinctBlocks(d, c, k, p);
    EditedDir(d, c, q, one[q].entries, k);
    SecondData(d, c, p, was, q, name, k);
    UntouchedDir(d.sb.blockSize, d.inodes[k - 1], d.data[c.nodes[q].block := Pack(one[q].entries)],
                 AfterSecond(d, c, p, was, q, name, k).data, if k == q then Dir(c.nodes[q].block, one[q].entries)
                   else c.nodes[k]);
    DotDotIntro(d, c, p, was, q, name, k);
  }

  lemma TwoFacts(size: nat, c: Catalog, p: nat, was: Name, q: u32, name: Name, k: u32)
    requires CatalogOk(size, c) && Movable(c, p, was, q, name, k) && Reparents(c.nodes, p, q, k)
    ensures CanMove(c.nodes, p, was, q, name, k) && CanCarve(c.nodes, q, name) && IsDir(c.nodes, p) && IsDir(c.nodes, q)
    ensures IsDir(c.nodes, k)
    ensures var one := Entered1(c.nodes, q, name, k); var two := WithoutEntry(one, p, was);
      var after := MovedNodes(c.nodes, p, was, q, name, k);
      && IsDir(one, q) && IsDir(one, p) && one[q].block == c.nodes[q].block && IsDir(two, k) && IsDir(after, k)
      && IsDir(two, p)
      && two[p].block == c.nodes[p].block
      && two[k] == (if k == q then Dir(c.nodes[q].block, one[q].entries) else c.nodes[k])
      && Tiles(two[k].entries, size) && |two[k].entries| >= 2 && Find(two[k].entries, DOTDOT) == Some(1)
      && after[k] == Dir(two[k].block, two[k].entries[1 := two[k].entries[1].(inode := q)])
  {
    MoveTwoSteps(size, c, p, was, q, name, k);
    MovableParts(c, p, was, q, name, k);
    hide CatalogOk, Movable, CanMove, WithEntry, WithoutEntry, Find, FindBinding, Tiles, ListingOk, LookupName;
    hide Ordinary, DirsOk, Erase, CarveFault, MovedNodes, CanErase, CanCarve;
    CanMoveErases(c, p, was, q, name, k);
    BlocksOfMove(c, p, was, q, name, k);
    MovedSelf(c, p, was, q, name, k);
    var two := WithoutEntry(Entered1(c.nodes, q, name, k), p, was);
    TilesIn(size, two, k);
    RepointDir(size, two[k].entries, k, q);
  }

  lemma MovedSelf(c: Catalog, p: nat, was: Name, q: u32, name: Name, k: u32)
    requires CanMove(c.nodes, p, was, q, name, k) && Reparents(c.nodes, p, q, k)
    ensures var two := WithoutEntry(Entered1(c.nodes, q, name, k), p, was);
      var after := MovedNodes(c.nodes, p, was, q, name, k);
      && IsDir(two, k) && |two[k].entries| >= 2 && IsDir(after, k)
      && after[k] == Dir(two[k].block, two[k].entries[1 := two[k].entries[1].(inode := q)])
  {
    hide CanCarve, CanErase, WithEntry, WithoutEntry, FileTypeOf;
  }

  /** The second edit, as the moved directory's block sees it. */
  lemma SecondData(d: Disk, c: Catalog, p: nat, was: Name, q: u32, name: Name, k: u32)
    requires MoveReady(d, c, p, was, q, name, k) && IsDir(c.nodes, p) && IsDir(c.nodes, q) && IsDir(c.nodes, k)
    requires c.nodes[k].block < |d.data| && c.nodes[k].block != c.nodes[p].block && c.nodes[q].block < |d.data|
    requires var one := Entered1(c.nodes, q, name, k); var two := WithoutEntry(one, p, was);
      && IsDir(one, q) && AllEncodable(one[q].entries) && one[q].block == c.nodes[q].block && IsDir(two, p)
      && two[p].block == c.nodes[p].block
    ensures var one := Entered1(c.nodes, q, name, k); var data := AfterSecond(d, c, p, was, q, name, k).data;
      && |data| == |d.data|
      && data[c.nodes[k].block] == d.data[c.nodes[q].block := Pack(one[q].entries)][c.nodes[k].block]
  {
    hide CanMove, Entered1, WithoutEntry, MovedNodes, Pack, AllEncodable;
  }

  lemma DotDotIntro(d: Disk, c: Catalog, p: nat, was: Name, q: u32, name: Name, k: u32)
    requires MoveReady(d, c, p, was, q, name, k) && IsDir(c.nodes, k) && FirstData(d.sb) <= c.nodes[k].block
    requires 1 <= k <= |d.inodes| && IsDir(c.nodes, q)
    requires var one := Entered1(c.nodes, q, name, k); var two := WithoutEntry(one, p, was);
      var after := MovedNodes(c.nodes, p, was, q, name, k);
      && IsDir(one, q) && IsDir(two, k) && IsDir(after, k)
      && two[k] == (if k == q then Dir(c.nodes[q].block, one[q].entries) else c.nodes[k])
      && Tiles(two[k].entries, d.sb.blockSize) && |two[k].entries| >= 2 && Find(two[k].entries, DOTDOT) == Some(1)
      && after[k] == Dir(two[k].block, two[k].entries[1 := two[k].entries[1].(inode := q)])
      && NodeOnDisk(d.sb.blockSize, d.inodes[k - 1], AfterSecond(d, c, p, was, q, name, k).data, if k ==
        q then Dir(c.nodes[q].block, one[q].entries) else c.nodes[k])
    ensures DotDotReady(d, c, p, was, q, name, k)
  {
    hide MoveReady, CanMove, Entered1, WithoutEntry, MovedNodes, Find, Tiles, NodeOnDisk, AfterSecond, FirstData;
  }

  /** The directory has no room for the name. */
  predicate Full(c: Catalog, q: nat, name: Name, e: Error) {
    IsDir(c.nodes, q) && |c.nodes[q].entries| > 0 && CarveFault(c.nodes[q].entries, name) == Some(e)
  }

  /** What the moving part of rename is given. */
  predicate MoveArgs(c: Catalog, p: nat, was: Name, q: u32, name: Name, k: u32) {
    && k as nat in c.up && c.up[k] == Place(p, was) && k as nat in c.nodes && p != k
    && IsDir(c.nodes, p) && IsDir(c.nodes, q) && Ordinary(name) && LookupName(c.nodes[q].entries, name) == None
    && k != 0 && q != 0
  }

  /** Or what it is given when the destination may be full. */
  predicate MoveTry(c: Catalog, p: nat, was: Name, q: u32, name: Name, k: u32) {
    && IsDir(c.nodes, p) && IsDir(c.nodes, q) && k as nat in c.nodes
    && (|c.nodes[q].entries| > 0 && CarveFault(c.nodes[q].entries, name).None? ==> MoveArgs(c, p, was, q, name, k))
  }

  lemma ArgsMovable(size: nat, c: Catalog, p: nat, was: Name, q: u32, name: Name, k: u32)
    requires CatalogOk(size, c) && MoveTry(c, p, was, q, name, k)
    ensures |c.nodes[q].entries| > 0 && AllEncodable(c.nodes[q].entries)
    ensures CarveFault(c.nodes[q].entries, name).None? ==> Movable(c, p, was, q, name, k)
  {
    hide LookupName, ListingOk, UpOk, DownOk, OwnOk, LostOk, Pack, CarveFault, Ordinary;
    ListingHasDots(q, c.nodes[q].entries);
  }

  /** The first edit is adding the entry. */
  lemma FirstIs(d: Disk, c: Catalog, p: nat, was: Name, q: u32, name: Name, k: u32, d1: Disk)
    requires MoveReady(d, c, p, was, q, name, k) && IsDir(c.nodes, q) && k as nat in c.nodes && |c.nodes[q].entries| > 0
    requires AllEncodable(c.nodes[q].entries)
    requires CarveFault(c.nodes[q].entries, name).None?
    requires AllEncodable(Carve(c.nodes[q].entries, name, k, FileTypeOf(c.nodes[k])))
    requires c.nodes[q].block < |d.data|
    requires d1 == PutBlock(d, c.nodes[q].block, Pack(Carve(c.nodes[q].entries, name, k, FileTypeOf(c.nodes[k]))))
    ensures d1 == AfterFirst(d, c, p, was, q, name, k)
  {
    hide CanMove, WithoutEntry, MovedNodes, Pack, AllEncodable, FileTypeOf, Carve, CarveFault;
  }

  /** Both edits are written. */
  ghost predicate Swapped(d: Disk, c: Catalog, p: nat, was: Name, q: u32, name: Name, k: u32, d': Disk) {
    Movable(c, p, was, q, name, k) && MoveReady(d, c, p, was, q, name, k) && d' == AfterSecond(d, c, p, was, q, name, k)
  }

  /** What the second edit needs and leaves, spelled out for the directory as it then is. */
  lemma OldEntryUse(d: Disk, c: Catalog, p: nat, was: Name, q: u32, name: Name, k: u32, i: nat, node: Node, d1: Disk)
    requires MoveReady(d, c, p, was, q, name, k) && OldEntryReady(d, c, p, was, q, name, k, i)
    requires p in Entered1(c.nodes, q, name, k) && node == Entered1(c.nodes, q, name, k)[p]
    requires d1 == AfterFirst(d, c, p, was, q, name, k)
    ensures 1 <= p <= |d.inodes| && node.Dir? && NodeOnDisk(d.sb.blockSize, d.inodes[p - 1], d1.data, node)
    ensures Tiles(node.entries, d.sb.blockSize) && FirstData(d.sb) <= node.block
    ensures FindBinding(node.entries, was, k) == Some(i)
    ensures i < |node.entries| && (i > 0 ==> node.entries[i - 1].recLen + node.entries[i].recLen < 0x1_0000)
    ensures AllEncodable(Erase(node.entries, i)) && node.block < |d1.data| ==>
      PutBlock(d1, node.block, Pack(Erase(node.entries, i))) == AfterSecond(d, c, p, was, q, name, k)
  {
    hide CanMove, Entered1, WithoutEntry, FindBinding, Tiles, NodeOnDisk, AllEncodable, Pack, Erase, MovedNodes;
    hide FirstData, CanCarve, CanErase;
  }

  /** Both entries are swapped and the new parent is still to be recorded. */
  ghost predicate Reparentable(d: Disk, c: Catalog, p: nat, was: Name, q: u32, name: Name, k: u32, now: Disk) {
    && Core(d, c) && Movable(c, p, was, q, name, k) && MoveReady(d, c, p, was, q, name, k)
    && Reparents(c.nodes, p, q, k)
    && now == AfterSecond(d, c, p, was, q, name, k)
  }

  ghost predicate Reparented(d: Disk, c: Catalog, p: nat, was: Name, q: u32, name: Name, k: u32, now: Disk) {
    MoveReady(d, c, p, was, q, name, k) && now == MovedDisk(d, c, p, was, q, name, k)
  }

  lemma ReparentParts(d: Disk, c: Catalog, p: nat, was: Name, q: u32, name: Name, k: u32, now: Disk)
    requires Reparentable(d, c, p, was, q, name, k, now)
    ensures Core(d, c) && Movable(c, p, was, q, name, k) && MoveReady(d, c, p, was, q, name, k)
    ensures Reparents(c.nodes, p, q, k)
    ensures now == AfterSecond(d, c, p, was, q, name, k)
  {
    hide Core, Movable, MoveReady, AfterSecond;
  }

  /** What repointing needs and leaves, spelled out. */
  lemma DotDotParts(d: Disk, c: Catalog, p: nat, was: Name, q: u32, name: Name, k: u32)
    requires Core(d, c) && Movable(c, p, was, q, name, k) && MoveReady(d, c, p, was, q, name, k)
    requires Reparents(c.nodes, p, q, k)
    ensures CanMove(c.nodes, p, was, q, name, k) && CanCarve(c.nodes, q, name) && k as nat in c.nodes
    ensures CanErase(Entered1(c.nodes, q, name, k), p, was)
    ensures 1 <= k <= |d.inodes|
    ensures var two := WithoutEntry(Entered1(c.nodes, q, name, k), p, was);
      var after := MovedNodes(c.nodes, p, was, q, name, k);
      && IsDir(two, k) && IsDir(after, k)
      && NodeOnDisk(d.sb.blockSize, d.inodes[k - 1], AfterSecond(d, c, p, was, q, name, k).data, two[k])
      && Tiles(two[k].entries, d.sb.blockSize)
      && FirstData(d.sb) <= two[k].block && Find(two[k].entries, DOTDOT) == Some(1)
      && after[k] == Dir(two[k].block, two[k].entries[1 := two[k].entries[1].(inode := q)])
    ensures AfterSecond(d, c, p, was, q, name, k).sb == d.sb
    ensures |AfterSecond(d, c, p, was, q, name, k).inodes| == |d.inodes|
  {
    hide Core, Movable, CanMove, Entered1, WithoutEntry, Find, Tiles, NodeOnDisk, AllEncodable, Pack, Erase, MovedNodes;
    hide FirstData, CanCarve, CanErase, MoveReady;
    DotDotHolds(d, c, p, was, q, name, k);
    ReadyCanMove(d, c, p, was, q, name, k);
    CanMoveErases(c, p, was, q, name, k);
    ReadyBlocks(d, c, p, was, q, name, k);
  }

  /** The move as the catalog sees it, or the full directory that stopped it. */
  ghost predicate Renamed(c: Catalog, from: Place, k: nat, to: Place, r: Result<Unit>, d': Disk, c': Catalog) {
    && IsDir(c.nodes, to.dir) && |c.nodes[to.dir].entries| > 0
    && match r
       case Err(e) => c' == c && CarveFault(c.nodes[to.dir].entries, to.name) == Some(e)
       case Ok(_) => && to.dir < 0x1_0000_0000 && k < 0x1_0000_0000
                     && CanMove(c.nodes, from.dir, from.name, to.dir, to.name, k)
                     && c' == Move(c, from.dir, from.name, to.dir, to.name, k) && Coherent(d')
                     && (Acyclic(c'.up) <==> !Below(c.up, to.dir, k))
  }

  lemma MoveDone(d: Disk, c: Catalog, p: nat, was: Name, q: u32, name: Name, k: u32)
    requires Core(d, c) && Acyclic(c.up) && Movable(c, p, was, q, name, k)
    ensures MoveReady(d, c, p, was, q, name, k) && CanMove(c.nodes, p, was, q, name, k)
    ensures var d', c' := MovedDisk(d, c, p, was, q, name, k), Move(c, p, was, q, name, k);
      Core(d', c') && Countable(d') && Core(Flushed(d'), c') && Coherent(Flushed(d'))
        && (Acyclic(c'.up) <==> !Below(c.up, q, k))
  {
    MovableParts(c, p, was, q, name, k);
    MovableUp(c, p, was, q, name, k);
    CoreParts(d, c);
    TreeFromCore(d, c);
    hide Core, Acyclic, Movable, MoveReady, MovedDisk, CanMove, MovedNodes, Flushed, Coherent, Countable, CatalogOk;
    hide TreeOk, Geometry, Sized, TreeOnDisk, BitmapsOk, LookupName, Ordinary, Below;
    MoveCore(d, c, p, was, q, name, k);
    ReadyCanMove(d, c, p, was, q, name, k);
    CoreCountable(MovedDisk(d, c, p, was, q, name, k), Move(c, p, was, q, name, k));
    FlushedCore(MovedDisk(d, c, p, was, q, name, k), Move(c, p, was, q, name, k));
    MoveAcyclic(d.sb.blockSize, c.nodes, c.up, q, name, k);
  }

  lemma TreeFromCore(d: Disk, c: Catalog)
    requires Core(d, c)
    ensures TreeOk(d.sb.blockSize, c.nodes, c.up)
  {
    hide TreeOk, OwnOk, LostOk, TreeOnDisk, BitmapsOk, Geometry, Sized;
  }

  lemma MovableUp(c: Catalog, p: nat, was: Name, q: u32, name: Name, k: u32)
    requires Movable(c, p, was, q, name, k)
    ensures k as nat in c.up && q as nat in c.nodes
  {
    hide CarveFault, AllEncodable, LookupName, Ordinary;
  }

  lemma RenamedIntro(c: Catalog, p: nat, was: Name, q: u32, name: Name, k: u32, d': Disk)
    requires Movable(c, p, was, q, name, k) && CanMove(c.nodes, p, was, q, name, k) && Coherent(d')
    requires Acyclic(Move(c, p, was, q, name, k).up) <==> !Below(c.up, q, k)
    ensures Renamed(c, Place(p, was), k, Place(q, name), Ok(Unit.Unit), d', Move(c, p, was, q, name, k))
  {
    hide CanMove, Acyclic, Below, Coherent, Move, LookupName, Ordinary, CarveFault, AllEncodable;
  }

  // ----- the whole of rename -----

  /** From the plan to its outcome. An overwritten destination is gone even when the
      entry then does not fit. */
  ghost predicate Follows(d: Disk, c: Catalog, plan: Plan, r: Result<Unit>, d': Disk, c': Catalog) {
    && InodesKept(d, d', c'.nodes.Keys)
    && match plan
       case Refuse(e) => r == Err(e) && c' == c && d' == d
       case Keep => r == Ok(Unit.Unit) && c' == c && d' == d
       case Fresh(from, k, to) => Renamed(c, from, k, to, r, d', c') && (r.Err? ==> d' == d)
       case Replace(from, k, to, gone) =>
         && CanErase(c.nodes, to.dir, to.name) && gone in c.nodes
         && Renamed(Remove(c, to.dir, to.name, gone), from, k, to, r, d', c') && Coherent(d')
  }

  lemma MovedKept(d: Disk, c: Catalog, p: nat, was: Name, q: u32, name: Name, k: u32, live: set<nat>)
    requires MoveReady(d, c, p, was, q, name, k)
    ensures InodesKept(d, MovedDisk(d, c, p, was, q, name, k), live)
    ensures InodesKept(d, Flushed(MovedDisk(d, c, p, was, q, name, k)), live)
    ensures Flushed(MovedDisk(d, c, p, was, q, name, k)).inodes == MovedDisk(d, c, p, was, q, name, k).inodes
  {
    hide CanMove, Entered1, WithoutEntry, MovedNodes, Pack, AllEncodable;
  }

  lemma RenamedKeys(c: Catalog, from: Place, k: nat, to: Place, r: Result<Unit>, d': Disk, c': Catalog)
    requires Renamed(c, from, k, to, r, d', c')
    ensures c'.nodes.Keys == c.nodes.Keys && (r.Ok? ==> Coherent(d'))
  {
    hide Erase, Find, Carve, CarveFault, AllEncodable, Acyclic, Below, Coherent, Repoint, FileTypeOf;
  }

  /** The one way rename ties the tree into a knot: a directory moved into its own subtree. */
  ghost predicate Knots(c: Catalog, plan: Plan) {
    plan.Fresh? && Below(c.up, plan.to.dir, plan.k)
  }

  /** The plan is to overwrite, and `parent` is the path the destination was found by. */
  predicate Overwrites(nodes: map<nat, Node>, oldPath: seq<byte>, newPath: seq<byte>, parent: seq<byte>, from: Place,
                       k: nat, to: Place, gone: nat) {
    && PlanOf(nodes, oldPath, newPath) == Replace(from, k, to, gone)
    && |parent| > 0 && parent[0] == SLASH && SlashFree(to.name) && Directory(nodes, parent) == Ok(to.dir)
    && LookupName(nodes[to.dir].entries, to.name).Some?
    && LookupName(nodes[to.dir].entries, to.name).value.inode == gone
  }

  /** Looking up the joined path finds the entry rename is about to replace. */
  lemma JoinedOccupant(nodes: map<nat, Node>, parent: seq<byte>, name: Name, to: Place, gone: nat)
    requires |parent| > 0 && parent[0] == SLASH && SlashFree(name) && Directory(nodes, parent) == Ok(to.dir)
    requires name == to.name
    requires LookupName(nodes[to.dir].entries, name).Some?
    requires LookupName(nodes[to.dir].entries, name).value.inode == gone
    ensures Occupant(nodes, JoinPath(parent, name)) == Ok((to, gone))
  {
    JoinThenSplit(parent, name);
    hide SplitPath, JoinPath, Components, LookupName, WalkPath, SlashFree;
  }

  /** Once the destination is unlinked, the move starts from where it was planned. */
  lemma AfterReplace(size: nat, c: Catalog, from: Place, k: nat, to: Place, gone: nat)
    requires CatalogOk(size, c) && Detachable(c, to.dir, to.name, gone) && CanErase(c.nodes, to.dir, to.name)
    requires k in c.up && c.up[k] == from && k in c.nodes && !IsDir(c.nodes, k) && gone != k && !IsDir(c.nodes, gone)
    requires IsDir(c.nodes, from.dir) && IsDir(c.nodes, to.dir) && Ordinary(to.name) && from.dir != k && gone in c.nodes
    requires 0 < k < 0x1_0000_0000 && 0 < to.dir < 0x1_0000_0000
    ensures var c1 := Remove(c, to.dir, to.name, gone);
      && MoveTry(c1, from.dir, from.name, to.dir, to.name, k) && k in c1.nodes && c1.nodes[k] == c.nodes[k]
      && to.dir in c1.nodes && from.dir in c1.nodes
  {
    hide CatalogOk, LookupName, Ordinary, CanErase, WithoutEntry, Detachable, CarveFault, NodeBlocks, Remove;
    RemovedFrom(size, c, to, gone, from.dir);
    RemovedFrom(size, c, to, gone, k);
  }

  /** What is left where the removed inode was, and everywhere else. */
  lemma RemovedFrom(size: nat, c: Catalog, at: Place, gone: nat, x: nat)
    requires CatalogOk(size, c) && Detachable(c, at.dir, at.name, gone) && CanErase(c.nodes, at.dir, at.name)
    requires gone in c.nodes
    requires x in c.nodes && x != gone && !IsDir(c.nodes, gone) && IsDir(c.nodes, at.dir)
    ensures var c1 := Remove(c, at.dir, at.name, gone);
      && x in c1.nodes && (x != at.dir ==> c1.nodes[x] == c.nodes[x]) && (IsDir(c.nodes, x) ==> IsDir(c1.nodes, x))
      && IsDir(c1.nodes, at.dir) && LookupName(c1.nodes[at.dir].entries, at.name) == None
      && (x in c.up ==> x in c1.up && c1.up[x] == c.up[x])
  {
    hide CatalogOk, LookupName, Ordinary, CanErase, Detachable, ListingOk, Tiles, Find, FindBinding, NodeBlocks, Parent;
    hide DirsOk, WithoutEntry;
    DirsFromCatalog(size, c, at, gone);
    WithoutEntryDir(size, c.nodes, at.dir, at.name);
    WithoutEntryOthers(c.nodes, at.dir, at.name);
  }

  lemma DirsFromCatalog(size: nat, c: Catalog, at: Place, k: nat)
    requires CatalogOk(size, c) && Detachable(c, at.dir, at.name, k)
    ensures DirsOk(size, c.nodes) && IsDir(c.nodes, at.dir) && Ordinary(at.name)
    ensures LookupName(c.nodes[at.dir].entries, at.name).Some?
  {
    hide DirsOk, DownOk, RootOk, OwnOk, LostOk, LookupName, Ordinary, UpOk, FileTypeOf;
    UpEntered(c.nodes, c.up, k);
  }

  /** Nothing is below a file. */
  lemma NotBelowFile(size: nat, c: Catalog, k: nat, q: nat)
    requires CatalogOk(size, c) && k in c.nodes && !IsDir(c.nodes, k) && q != k
    ensures !Below(c.up, q, k)
  {
    hide TreeOk, OwnOk, LostOk, Climb;
    forall n: nat ensures Climb(c.up, q, n) != k {
      NeverReaches(size, c.nodes, c.up, k, q, n);
    }
  }

  /** Decomposing the plan step by step, as the code meets it. */
  lemma PlanSteps(nodes: map<nat, Node>, oldPath: seq<byte>, newPath: seq<byte>)
    ensures var plan := PlanOf(nodes, oldPath, newPath);
      if SplitPath(oldPath).Err? then plan == Refuse(SplitPath(oldPath).error)
      else if SplitPath(newPath).Err? then plan == Refuse(SplitPath(newPath).error)
      else
        var was, dest := SplitPath(oldPath).value, SplitPath(newPath).value;
        if Directory(nodes, was.0).Err? then plan == Refuse(Directory(nodes, was.0).error)
        else
          var p := Directory(nodes, was.0).value;
          if LookupName(nodes[p].entries, was.1).None? then plan == Refuse(NotFound(was.1))
          else
            var k := LookupName(nodes[p].entries, was.1).value.inode;
            if k == ROOT then plan == Refuse(InvalidLayout)
            else if Directory(nodes, dest.0).Err? then plan == Refuse(Directory(nodes, dest.0).error)
            else PlanEnds(nodes, plan, Place(p, was.1), k, Place(Directory(nodes, dest.0).value, dest.1))
  {
    hide SplitPath, Directory, LookupName;
  }

  predicate PlanEnds(nodes: map<nat, Node>, plan: Plan, from: Place, k: nat, to: Place)
    requires IsDir(nodes, to.dir)
  {
    match LookupName(nodes[to.dir].entries, to.name)
    case None => plan == Fresh(from, k, to)
    case Some(b) =>
      if b.inode == k then plan == Keep
      else if IsDir(nodes, b.inode) || IsDir(nodes, k) then plan == Refuse(AlreadyExists(to.name))
      else plan == Replace(from, k, to, b.inode)
  }

  /** What a fresh destination hands to the move. */
  lemma FreshTry(size: nat, c: Catalog, oldPath: seq<byte>, newPath: seq<byte>)
    requires CatalogOk(size, c) && Acyclic(c.up) && !MovesDots(c.nodes, oldPath, newPath)
    requires PlanOf(c.nodes, oldPath, newPath).Fresh?
    requires var plan := PlanOf(c.nodes, oldPath, newPath);
      0 < plan.k < 0x1_0000_0000 && 0 < plan.to.dir < 0x1_0000_0000
    requires var plan := PlanOf(c.nodes, oldPath, newPath);
      IsDir(c.nodes, plan.from.dir) && IsDir(c.nodes, plan.to.dir) && plan.k in c.nodes
    ensures var plan := PlanOf(c.nodes, oldPath, newPath);
      MoveTry(c, plan.from.dir, plan.from.name, plan.to.dir, plan.to.name, plan.k)
  {
    hide PlanOf, CatalogOk, Acyclic, CarveFault, LookupName, Ordinary;
    if !NamesDots(c.nodes, oldPath, newPath) {
      PlanFacts(size, c, oldPath, newPath);
    }
  }

  /** What a taken destination hands to the unlinking, and then to the move. */
  lemma ReplaceTry(size: nat, c: Catalog, oldPath: seq<byte>, newPath: seq<byte>)
    requires CatalogOk(size, c) && Acyclic(c.up) && PlanOf(c.nodes, oldPath, newPath).Replace?
    requires var plan := PlanOf(c.nodes, oldPath, newPath);
      0 < plan.k < 0x1_0000_0000 && 0 < plan.to.dir < 0x1_0000_0000
    ensures var plan := PlanOf(c.nodes, oldPath, newPath);
      && plan.gone in c.nodes && !IsDir(c.nodes, plan.gone) && plan.gone != plan.k && plan.k in c.nodes
      && !IsDir(c.nodes, plan.k)
      && IsDir(c.nodes, plan.from.dir) && IsDir(c.nodes, plan.to.dir)
      && (CanErase(c.nodes, plan.to.dir, plan.to.name) ==>
            var c1 := Remove(c, plan.to.dir, plan.to.name, plan.gone);
            && MoveTry(c1, plan.from.dir, plan.from.name, plan.to.dir, plan.to.name, plan.k) && plan.k in c1.nodes
            && c1.nodes[plan.k] == c.nodes[plan.k] && plan.to.dir in c1.nodes && plan.from.dir in c1.nodes)
  {
    hide PlanOf, CatalogOk, Acyclic, CarveFault, LookupName, Ordinary, CanErase, Remove, MoveTry, Detachable, Occupant;
    var plan := PlanOf(c.nodes, oldPath, newPath);
    PlanFacts(size, c, oldPath, newPath);
    if CanErase(c.nodes, plan.to.dir, plan.to.name) {
      AfterReplace(size, c, plan.from, plan.k, plan.to, plan.gone);
    }
  }
}
