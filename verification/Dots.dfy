/** What rename does to a directory named by its `.` or `..`, which nothing in the source
    stops (ext4/src/filesystem.rs, rename): the record is moved out of its own listing, and
    no catalog describes the disk any more. */
module Dots {
  import opened Bytes
  import opened Results
  import opened DirEntries
  import opened DirBlocks
  import opened Listings
  import opened Paths
  import opened Extents
  import opened ExtentTrees
  import opened Inodes
  import opened Superblocks
  import opened Catalogs
  import opened Moves
  import opened Disks
  import opened DiskSteps
  import opened DiskFacts
  import opened Operations
  import opened Removals
  import opened Renames

  // ----- a disk whose directories hold given records, well formed or not -----

  predicate Has(es: seq<DirEntry>, name: Name, k: nat) {
    exists j :: 0 <= j < |es| && es[j].name == name && es[j].inode == k
  }

  /** Everything the catalog enters in `x` is still recorded there. */
  ghost predicate Keeps(c: Catalog, x: nat, es: seq<DirEntry>) {
    forall y :: y in c.up && c.up[y].dir == x ==> Has(es, c.up[y].name, y)
  }

  ghost predicate DrawnAt(d: Disk, c: Catalog, x: nat, es: seq<DirEntry>)
    requires IsDir(c.nodes, x) && d.sb.blockSize > 0
  {
    && 1 <= x <= |d.inodes| && c.nodes[x].block < |d.data| && FirstData(d.sb) <= c.nodes[x].block
    && Tiles(es, d.sb.blockSize)
    && NodeOnDisk(d.sb.blockSize, d.inodes[x - 1], d.data, Dir(c.nodes[x].block, es)) && Keeps(c, x, es)
  }

  ghost predicate Drawn(d: Disk, c: Catalog, lists: map<nat, seq<DirEntry>>)
    requires d.sb.blockSize > 0
  {
    forall x :: IsDir(c.nodes, x) ==> x in lists && DrawnAt(d, c, x, lists[x])
  }

  ghost function AsListed(c: Catalog): map<nat, seq<DirEntry>> {
    map x | x in c.nodes && c.nodes[x].Dir? :: c.nodes[x].entries
  }

  lemma DrawnStart(d: Disk, c: Catalog)
    requires Core(d, c) && d.sb.blockSize > 0
    ensures Drawn(d, c, AsListed(c))
  {
    hide Core, FirstData, Tiles, NodeOnDisk, Keeps, ListingOk, AllEncodable, Pack, CatalogOk;
    BaseFacts(d, c);
    forall x | IsDir(c.nodes, x) ensures DrawnAt(d, c, x, c.nodes[x].entries) {
      DirIn(d, c, x);
      DirBlockIn(d, c, x);
      KeepsOwn(d.sb.blockSize, c, x);
      assert c.nodes[x] == Dir(c.nodes[x].block, c.nodes[x].entries);
    }
  }

  lemma KeepsOwn(size: nat, c: Catalog, x: nat)
    requires CatalogOk(size, c) && IsDir(c.nodes, x)
    ensures Keeps(c, x, c.nodes[x].entries)
  {
    hide OwnOk, LostOk, DownOk, LookupName, Ordinary, ListingOk, Tiles, FileTypeOf;
    forall y | y in c.up && c.up[y].dir == x ensures Has(c.nodes[x].entries, c.up[y].name, y) {
      LookupHit(x, c.nodes[x].entries, c.up[y].name);
    }
  }

  /** One directory's block rewritten: the others hold what they held. */
  lemma DrawnEdit(d: Disk, c: Catalog, lists: map<nat, seq<DirEntry>>, x: nat, es: seq<DirEntry>)
    requires d.sb.blockSize > 0 && OwnOk(c.nodes, c.own) && Drawn(d, c, lists) && IsDir(c.nodes, x)
    requires Tiles(es, d.sb.blockSize) && Keeps(c, x, es)
    ensures c.nodes[x].block < |d.data| && AllEncodable(es)
    ensures Drawn(PutBlock(d, c.nodes[x].block, Pack(es)), c, lists[x := es])
  {
    hide FirstData, NodeOnDisk, Keeps, OwnOk, Pack, AllEncodable;
    assert DrawnAt(d, c, x, lists[x]);
    var b := c.nodes[x].block;
    var d' := PutBlock(d, b, Pack(es));
    forall y | IsDir(c.nodes, y) ensures DrawnAt(d', c, y, lists[x := es][y]) {
      assert DrawnAt(d, c, y, lists[y]);
      if y == x {
        RewrittenDir(d.sb.blockSize, d.inodes[x - 1], d.data, d'.data, Dir(b, lists[x]), es);
      } else {
        ApartDirs(c, x, y);
        UntouchedDir(d.sb.blockSize, d.inodes[y - 1], d.data, d'.data, Dir(c.nodes[y].block, lists[y]));
      }
    }
  }

  lemma ApartDirs(c: Catalog, x: nat, y: nat)
    requires OwnOk(c.nodes, c.own) && IsDir(c.nodes, x) && IsDir(c.nodes, y) && x != y
    ensures c.nodes[x].block != c.nodes[y].block
  {
    hide OwnOk;
    OneOwner(c, x, y);
    assert c.nodes[x].block in NodeBlocks(c.nodes[x]) && c.nodes[y].block in NodeBlocks(c.nodes[y]);
  }

  lemma DrawnRelink(d: Disk, c: Catalog, lists: map<nat, seq<DirEntry>>, x: nat, links: u16)
    requires d.sb.blockSize > 0 && Drawn(d, c, lists) && 1 <= x <= |d.inodes|
    ensures Drawn(PutInode(d, x, d.inodes[x - 1].(linksCount := links)), c, lists)
  {
    hide FirstData, NodeOnDisk, Keeps, Tiles;
    var d' := PutInode(d, x, d.inodes[x - 1].(linksCount := links));
    forall y | IsDir(c.nodes, y) ensures DrawnAt(d', c, y, lists[y]) {
      assert DrawnAt(d, c, y, lists[y]);
      if y == x {
        RelinkedDir(d.sb.blockSize, d.inodes[x - 1], d.data, Dir(c.nodes[x].block, lists[x]), links);
      }
    }
  }

  // ----- no catalog fits -----

  /** What a directory's record and block say is all a catalog can say of it. */
  lemma ReadAs(d: Disk, c: Catalog, x: nat, es: seq<DirEntry>, node: Node)
    requires IsDir(c.nodes, x) && d.sb.blockSize > 0 && DrawnAt(d, c, x, es)
    requires NodeOnDisk(d.sb.blockSize, d.inodes[x - 1], d.data, node)
    ensures node == Dir(c.nodes[x].block, es)
  {
    hide FirstData, Keeps, Tiles, Pack, AllEncodable, RunLeaf;
    assert node.Dir?;
    SameRun(node.block, c.nodes[x].block);
    PackInjective(node.entries, es);
  }

  lemma SameRun(a: nat, b: nat)
    requires a < 0x8000 && b < 0x8000 && RunLeaf(a, 1) == RunLeaf(b, 1)
    ensures a == b
  {
    hide LeafBlock, DecodeNode;
    LeafRoundTrip([Extent(0, 1, a, false)]);
    LeafRoundTrip([Extent(0, 1, b, false)]);
    assert [Extent(0, 1, a, false)][0] == [Extent(0, 1, b, false)][0];
  }

  /** Whatever catalog `e` fits the disk, every inode of `c` is live in it, because its name
      is still recorded where `c` enters it. */
  lemma {:induction false} StillLive(d: Disk, c: Catalog, lists: map<nat, seq<DirEntry>>, e: Catalog, x: nat, n: nat)
    requires d.sb.blockSize > 0 && Drawn(d, c, lists) && UpOk(c.nodes, c.up) && x in c.nodes
    requires Climb(c.up, x, n) == ROOT && IsDir(c.nodes, ROOT)
    requires TreeOk(d.sb.blockSize, e.nodes, e.up) && NodesOk(d.sb.blockSize, d.inodes, d.data, e.nodes)
    ensures x in e.nodes && (IsDir(c.nodes, x) ==> IsDir(e.nodes, x) && e.nodes[x].entries == lists[x])
    decreases n
  {
    hide FirstData, NodeOnDisk, Tiles, ListingOk, LookupName, Ordinary, DrawnAt, Keeps;
    if n == 0 || x !in c.up {
      assert x == ROOT;
    } else {
      var p := c.up[x].dir;
      StillLive(d, c, lists, e, p, n - 1);
      EntryLives(d, c, p, lists[p], e, x);
    }
    if IsDir(c.nodes, x) {
      NodeAt(d.sb.blockSize, d.inodes, d.data, e.nodes, x);
      ReadAs(d, c, x, lists[x], e.nodes[x]);
    }
  }

  lemma EntryLives(d: Disk, c: Catalog, p: nat, es: seq<DirEntry>, e: Catalog, x: nat)
    requires d.sb.blockSize > 0 && IsDir(c.nodes, p) && DrawnAt(d, c, p, es) && x in c.up && c.up[x].dir == p
    requires Ordinary(c.up[x].name)
    requires TreeOk(d.sb.blockSize, e.nodes, e.up) && IsDir(e.nodes, p) && e.nodes[p].entries == es
    ensures x in e.nodes
  {
    hide FirstData, NodeOnDisk, Tiles, ListingOk, LookupName, Ordinary;
    assert Has(es, c.up[x].name, x);
    var j :| 0 <= j < |es| && es[j].name == c.up[x].name && es[j].inode == x;
    LookupAt(p, es, j);
    assert e.up[x] == Place(p, c.up[x].name);
  }

  /** A live directory whose records are no listing leaves a disk no catalog fits. */
  lemma BrokenUnfit(d: Disk, c: Catalog, lists: map<nat, seq<DirEntry>>, p: nat)
    requires d.sb.blockSize > 0 && Drawn(d, c, lists) && CatalogOk(d.sb.blockSize, c) && Acyclic(c.up)
    requires IsDir(c.nodes, p) && p in lists && !ListingOk(p, lists[p])
    ensures Unfit(d)
  {
    hide Core, Drawn, ListingOk, Acyclic, Below, OwnOk, LostOk, DownOk, Tiles, LookupName, Ordinary, TreeOk, CatalogOk;
    forall e ensures !Core(d, e) {
      if Core(d, e) {
        NeverFits(d, c, lists, p, e);
      }
    }
  }

  lemma NeverFits(d: Disk, c: Catalog, lists: map<nat, seq<DirEntry>>, p: nat, e: Catalog)
    requires d.sb.blockSize > 0 && Drawn(d, c, lists) && CatalogOk(d.sb.blockSize, c) && Acyclic(c.up)
    requires IsDir(c.nodes, p) && p in lists && Core(d, e)
    ensures ListingOk(p, lists[p])
  {
    hide Drawn, ListingOk, Acyclic, Below, OwnOk, LostOk, DownOk, Tiles, LookupName, Ordinary, NodesOk, LinksOk;
    hide BitmapsOk, Geometry, Sized, DirSet, UpOk, DirsOk;
    TreeUpKeys(d.sb.blockSize, c.nodes, c.up);
    var n := StepsToRoot(c.nodes, c.up, p);
    StillLive(d, c, lists, e, p, n);
    DirIn(d, e, p);
  }

  // ----- the three edits -----

  /** A directory named by one of its dots, and a free name to move it to. */
  predicate DotArgs(c: Catalog, p: nat, was: Name, q: u32, name: Name, k: u32) {
    && IsDir(c.nodes, p) && CanCarve(c.nodes, q, name) && IsDir(c.nodes, k) && k != ROOT && k != 0 && q != 0
    && Ordinary(name) && LookupName(c.nodes[q].entries, name) == None
    && ((was == DOT && k == p) || (was == DOTDOT && k == Parent(c.nodes[p].entries) && k != p))
  }

  function DotIndex(was: Name): nat {
    if was == DOT then 0 else 1
  }

  lemma CarveKeeps(c: Catalog, x: nat, es: seq<DirEntry>, name: Name, k: u32, ft: byte)
    requires |es| > 0 && AllEncodable(es) && CarveFault(es, name).None? && Keeps(c, x, es)
    ensures Keeps(c, x, Carve(es, name, k, ft))
  {
    hide AllEncodable, CarveFault, Carve, Has;
    CarveShape(es, name, k, ft);
    forall y | y in c.up && c.up[y].dir == x ensures Has(Carve(es, name, k, ft), c.up[y].name, y) {
      HasCopied(es, Carve(es, name, k, ft), c.up[y].name, y);
    }
  }

  lemma HasCopied(es: seq<DirEntry>, r: seq<DirEntry>, name: Name, y: nat)
    requires Has(es, name, y) && |r| >= |es| && forall i :: 0 <= i < |es| && es[i].name == name ==>
      r[i].name == es[i].name && r[i].inode == es[i].inode
    ensures Has(r, name, y)
  {
    var j :| 0 <= j < |es| && es[j].name == name && es[j].inode == y;
    assert r[j].name == name;
  }

  /** Removing a dot's record keeps every other name, and leaves no listing. */
  lemma DotErased(size: nat, c: Catalog, x: nat, es: seq<DirEntry>, i: nat)
    requires ListingOk(x, es) && Tiles(es, size) && i < 2 && Keeps(c, x, es) && UpOk(c.nodes, c.up)
    ensures i < |es| && FindBinding(es, es[i].name, es[i].inode) == Some(i)
    ensures (i > 0 ==> es[i - 1].recLen + es[i].recLen < 0x1_0000)
    ensures !ListingOk(x, Erase(es, i)) && Tiles(Erase(es, i), size) && Keeps(c, x, Erase(es, i))
  {
    assert i < |es|;
    assert !Ordinary(es[i].name);
    LookupAt(x, es, i);
    EraseListing(x, es, i, size);
    hide ListingOk, Tiles, FindBinding, LookupName, Erase, Has, Ordinary;
    forall y | y in c.up && c.up[y].dir == x ensures Has(Erase(es, i), c.up[y].name, y) {
      HasAfterErase(es, i, size, c.up[y].name, y);
    }
  }

  lemma HasAfterErase(es: seq<DirEntry>, i: nat, size: nat, name: Name, y: nat)
    requires Tiles(es, size) && i < |es| && Has(es, name, y) && es[i].name != name
    ensures i > 0 ==> es[i - 1].recLen + es[i].recLen < 0x1_0000
    ensures Has(Erase(es, i), name, y)
  {
    hide Tiles;
    var j :| 0 <= j < |es| && es[j].name == name && es[j].inode == y;
    if i == 0 {
      assert Erase(es, 0)[j] == es[j];
    } else {
      EraseShape(es, i, size);
      assert Erase(es, i)[if j < i then j else j - 1].name == name;
    }
  }

  /** Repointing `..`, whether or not `.` is still there. */
  lemma DotDotEdit(size: nat, c: Catalog, x: nat, es: seq<DirEntry>, q: u32)
    requires Tiles(es, size) && |es| >= 2 && es[0].name == DOT && es[1].name == DOTDOT && es[1].inode != 0
    requires Keeps(c, x, es) && UpOk(c.nodes, c.up)
    ensures Find(es, DOTDOT) == Some(1)
    ensures Tiles(Repoint(es, q), size) && Keeps(c, x, Repoint(es, q))
    ensures es[0].inode == 0 ==> !ListingOk(x, Repoint(es, q))
  {
    assert Encodable(es[1]);
    ReplaceBytes(es, 1, es[1].(inode := q), size);
    hide Tiles, Has, LookupName, FileTypeOf, Ordinary;
    forall y | y in c.up && c.up[y].dir == x ensures Has(Repoint(es, q), c.up[y].name, y) {
      NotDots(c.up[y].name);
      HasCopied(es, Repoint(es, q), c.up[y].name, y);
    }
  }

  /** The records of the source directory once the new name is entered. */
  function SourceList(c: Catalog, p: nat, q: u32, name: Name, k: u32): seq<DirEntry>
    requires IsDir(c.nodes, p) && CanCarve(c.nodes, q, name)
  {
    if p == q then Carve(c.nodes[q].entries, name, k, FT_DIR) else c.nodes[p].entries
  }

  /** The first two edits: what each meets and leaves. */
  lemma DotSwap(size: nat, c: Catalog, p: nat, was: Name, q: u32, name: Name, k: u32)
    requires CatalogOk(size, c) && DotArgs(c, p, was, q, name, k)
    ensures var first := Carve(c.nodes[q].entries, name, k, FT_DIR);
      Tiles(first, size) && Keeps(c, q, first) && ListingOk(q, first)
    ensures var es, i := SourceList(c, p, q, name, k), DotIndex(was);
      && Tiles(es, size) && i < |es| && FindBinding(es, was, k) == Some(i)
      && (i > 0 ==> es[i - 1].recLen + es[i].recLen < 0x1_0000)
      && Tiles(Erase(es, i), size) && Keeps(c, p, Erase(es, i)) && !ListingOk(p, Erase(es, i))
  {
    hide CatalogOk, TreeOk, ListingOk, Tiles, Keeps, LookupName, Ordinary, Carve, CarveFault, AllEncodable, Erase;
    hide FindBinding;
    TreeFacts(size, c);
    DirCarved(size, c, q, name, k);
    KeepsOwn(size, c, p);
    DotsOf(size, c, p);
    var es, i := SourceList(c, p, q, name, k), DotIndex(was);
    if p == q {
      CarvedDots(p, c.nodes[q].entries, name, k);
    }
    DotErased(size, c, p, es, i);
  }

  lemma TreeFacts(size: nat, c: Catalog)
    requires CatalogOk(size, c)
    ensures UpOk(c.nodes, c.up) && OwnOk(c.nodes, c.own)
  {
    hide UpOk, DownOk, OwnOk, LostOk, DirsOk;
  }

  lemma DirCarved(size: nat, c: Catalog, q: nat, name: Name, k: u32)
    requires CatalogOk(size, c) && CanCarve(c.nodes, q, name) && Ordinary(name)
    requires LookupName(c.nodes[q].entries, name) == None && k != 0
    ensures var first := Carve(c.nodes[q].entries, name, k, FT_DIR);
      Tiles(first, size) && Keeps(c, q, first) && ListingOk(q, first)
  {
    hide UpOk, DownOk, OwnOk, LostOk, ListingOk, Tiles, Keeps, LookupName, Ordinary, Carve, CarveFault;
    CarveListing(q, c.nodes[q].entries, name, k, FT_DIR, size);
    KeepsOwn(size, c, q);
    CarveKeeps(c, q, c.nodes[q].entries, name, k, FT_DIR);
  }

  lemma DotsOf(size: nat, c: Catalog, p: nat)
    requires CatalogOk(size, c) && IsDir(c.nodes, p)
    ensures var es := c.nodes[p].entries;
      ListingOk(p, es) && Tiles(es, size) && |es| >= 2 && p != 0 && es[0].name == DOT && es[0].inode == p
        && es[1].name == DOTDOT && es[1].inode == Parent(es) != 0
  {
    hide UpOk, DownOk, OwnOk, LostOk, Tiles;
  }

  lemma CarvedDots(p: nat, es: seq<DirEntry>, name: Name, k: u32)
    requires |es| >= 2 && AllEncodable(es) && CarveFault(es, name).None?
    ensures var r := Carve(es, name, k, FT_DIR);
      |r| >= 2 && r[0].name == es[0].name && r[0].inode == es[0].inode && r[1].name == es[1].name
        && r[1].inode == es[1].inode
  {
    hide AllEncodable, CarveFault, Carve;
    CarveShape(es, name, k, FT_DIR);
  }

  /** The records of the moved directory when its `..` is repointed. */
  function TargetList(c: Catalog, p: nat, was: Name, q: u32, name: Name, k: u32): seq<DirEntry>
    requires IsDir(c.nodes, p) && CanCarve(c.nodes, q, name) && IsDir(c.nodes, k) && p != q
    requires was == DOT ==> |c.nodes[p].entries| > 0
  {
    if was == DOT then Erase(c.nodes[p].entries, 0)
    else if k == q then Carve(c.nodes[q].entries, name, k, FT_DIR) else c.nodes[k].entries
  }

  /** The third edit. */
  lemma DotRepoint(size: nat, c: Catalog, p: nat, was: Name, q: u32, name: Name, k: u32)
    requires CatalogOk(size, c) && DotArgs(c, p, was, q, name, k) && p != q
    ensures |c.nodes[p].entries| > 0
    ensures var es := TargetList(c, p, was, q, name, k);
      && Tiles(es, size) && |es| >= 2 && Find(es, DOTDOT) == Some(1)
      && Tiles(Repoint(es, q), size) && Keeps(c, k, Repoint(es, q)) && (was == DOT ==> !ListingOk(p, Repoint(es, q)))
  {
    hide CatalogOk, TreeOk, ListingOk, Tiles, Keeps, LookupName, Ordinary, Carve, CarveFault, AllEncodable, FindBinding;
    hide Find, UpOk, Has;
    TreeFacts(size, c);
    DotsOf(size, c, p);
    DotsOf(size, c, k);
    KeepsOwn(size, c, p);
    KeepsOwn(size, c, k);
    var es := TargetList(c, p, was, q, name, k);
    if was == DOT {
      DotErased(size, c, p, c.nodes[p].entries, 0);
    } else if k == q {
      DirCarved(size, c, q, name, k);
      CarvedDots(q, c.nodes[q].entries, name, k);
    }
    DotDotEdit(size, c, k, es, q);
  }

  // ----- the edits as writes -----

  /** Both edits are written and nothing else is. */
  ghost predicate DotSwapped(d: Disk, c: Catalog, p: nat, was: Name, q: u32, name: Name, k: u32, now: Disk) {
    && d.sb.blockSize > 0 && DotArgs(c, p, was, q, name, k)
    && now.sb == d.sb && now.gd == d.gd && now.inodes == d.inodes
    && var es, i := SourceList(c, p, q, name, k), DotIndex(was);
    && i < |es| && (i > 0 ==> es[i - 1].recLen + es[i].recLen < 0x1_0000) && !ListingOk(p, Erase(es, i))
    && Drawn(now, c, AsListed(c)[q as nat := Carve(c.nodes[q].entries, name, k, FT_DIR)][p := Erase(es, i)])
  }

  /** What removing the dot's record meets once the new entry is written. */
  ghost predicate DotFound(d: Disk, c: Catalog, p: nat, was: Name, q: u32, name: Name, k: u32, now: Disk)
    requires d.sb.blockSize > 0 && DotArgs(c, p, was, q, name, k)
  {
    var es := SourceList(c, p, q, name, k);
    && 1 <= p <= |d.inodes| && NodeOnDisk(d.sb.blockSize, d.inodes[p - 1], now.data, Dir(c.nodes[p].block, es))
    && FirstData(d.sb) <= c.nodes[p].block && Tiles(es, d.sb.blockSize)
    && FindBinding(es, was, k) == Some(DotIndex(was))
  }

  lemma DotFirst(d: Disk, c: Catalog, p: nat, was: Name, q: u32, name: Name, k: u32, now: Disk)
    requires d.sb.blockSize > 0 && CatalogOk(d.sb.blockSize, c) && Drawn(d, c, AsListed(c))
    requires DotArgs(c, p, was, q, name, k)
    requires c.nodes[q].block < |d.data| && AllEncodable(Carve(c.nodes[q].entries, name, k, FT_DIR))
    requires now == PutBlock(d, c.nodes[q].block, Pack(Carve(c.nodes[q].entries, name, k, FT_DIR)))
    ensures DotFound(d, c, p, was, q, name, k, now)
    ensures Drawn(now, c, AsListed(c)[q as nat := Carve(c.nodes[q].entries, name, k, FT_DIR)])
  {
    hide Core, CatalogOk, OwnOk, UpOk, FirstData, NodeOnDisk, Keeps, Tiles, Pack, Carve, CarveFault, AllEncodable;
    hide Erase, FindBinding, LookupName, Ordinary, ListingOk, Drawn;
    TreeFacts(d.sb.blockSize, c);
    DotSwap(d.sb.blockSize, c, p, was, q, name, k);
    var first := Carve(c.nodes[q].entries, name, k, FT_DIR);
    DrawnEdit(d, c, AsListed(c), q, first);
    DrawnHere(now, c, AsListed(c)[q as nat := first], p);
  }

  lemma DrawnHere(d: Disk, c: Catalog, lists: map<nat, seq<DirEntry>>, x: nat)
    requires d.sb.blockSize > 0 && Drawn(d, c, lists) && IsDir(c.nodes, x)
    ensures x in lists && DrawnAt(d, c, x, lists[x])
  {
    hide DrawnAt;
  }

  lemma DotSecond(d: Disk, c: Catalog, p: nat, was: Name, q: u32, name: Name, k: u32, d1: Disk, now: Disk)
    requires d.sb.blockSize > 0 && CatalogOk(d.sb.blockSize, c) && Drawn(d, c, AsListed(c))
    requires DotArgs(c, p, was, q, name, k)
    requires c.nodes[q].block < |d.data| && AllEncodable(Carve(c.nodes[q].entries, name, k, FT_DIR))
    requires d1 == PutBlock(d, c.nodes[q].block, Pack(Carve(c.nodes[q].entries, name, k, FT_DIR)))
    requires var es, i := SourceList(c, p, q, name, k), DotIndex(was);
      && i < |es| && (i > 0 ==> es[i - 1].recLen + es[i].recLen < 0x1_0000) && AllEncodable(Erase(es, i))
      && c.nodes[p].block < |d1.data|
      && now == PutBlock(d1, c.nodes[p].block, Pack(Erase(es, i)))
    ensures DotSwapped(d, c, p, was, q, name, k, now)
  {
    hide Core, CatalogOk, OwnOk, UpOk, FirstData, NodeOnDisk, Keeps, Tiles, Pack, Carve, CarveFault, AllEncodable;
    hide Erase, FindBinding, LookupName, Ordinary, ListingOk, Drawn, DotFound;
    TreeFacts(d.sb.blockSize, c);
    DotFirst(d, c, p, was, q, name, k, d1);
    DotSwap(d.sb.blockSize, c, p, was, q, name, k);
    DrawnEdit(d1, c, AsListed(c)[q as nat := Carve(c.nodes[q].entries, name, k, FT_DIR)], p,
      Erase(SourceList(c, p, q, name, k), DotIndex(was)));
  }

  lemma SwappedSame(d: Disk, c: Catalog, p: nat, was: Name, q: u32, name: Name, k: u32, now: Disk)
    requires DotSwapped(d, c, p, was, q, name, k, now)
    ensures d.sb.blockSize > 0 && DotArgs(c, p, was, q, name, k) && now.sb == d.sb && now.gd == d.gd
    ensures now.inodes == d.inodes
  {
    hide Drawn, DotArgs, ListingOk, Erase, Carve;
  }

  /** Within one directory that is all, and no catalog fits. */
  lemma DotSwappedUnfit(d: Disk, c: Catalog, p: nat, was: Name, q: u32, name: Name, k: u32, now: Disk)
    requires DotSwapped(d, c, p, was, q, name, k, now) && CatalogOk(d.sb.blockSize, c) && Acyclic(c.up)
    ensures Unfit(Flushed(now))
  {
    hide CatalogOk, Acyclic, Unfit, Drawn, ListingOk, Erase, Carve, CarveFault, AllEncodable, LookupName, Ordinary;
    var lists := AsListed(c)[q as nat := Carve(c.nodes[q].entries, name, k,
      FT_DIR)][p := Erase(SourceList(c, p, q, name, k), DotIndex(was))];
    DrawnFlushed(now, c, lists);
    BrokenUnfit(Flushed(now), c, lists, p);
  }

  lemma DrawnFlushed(d: Disk, c: Catalog, lists: map<nat, seq<DirEntry>>)
    requires d.sb.blockSize > 0 && Drawn(d, c, lists)
    ensures Flushed(d).sb == d.sb && Drawn(Flushed(d), c, lists)
  {
    hide FirstData, Tiles, NodeOnDisk, Keeps;
    forall x | IsDir(c.nodes, x) ensures DrawnAt(Flushed(d), c, x, lists[x]) {
      assert DrawnAt(d, c, x, lists[x]);
    }
  }

  /** What repointing `..` meets once both edits are written. */
  lemma DotThird(d: Disk, c: Catalog, p: nat, was: Name, q: u32, name: Name, k: u32, now: Disk)
    requires DotSwapped(d, c, p, was, q, name, k, now) && CatalogOk(d.sb.blockSize, c) && p != q
    ensures |c.nodes[p].entries| > 0 && 1 <= k <= |now.inodes|
    ensures var es := TargetList(c, p, was, q, name, k);
      && NodeOnDisk(d.sb.blockSize, now.inodes[k - 1], now.data, Dir(c.nodes[k].block, es))
      && FirstData(d.sb) <= c.nodes[k].block && Tiles(es, d.sb.blockSize) && |es| >= 2 && Find(es, DOTDOT) == Some(1)
  {
    hide CatalogOk, Drawn, ListingOk, Erase, Carve, CarveFault, AllEncodable, LookupName, Ordinary, NodeOnDisk;
    hide FirstData, Tiles, Keeps, Find;
    DotRepoint(d.sb.blockSize, c, p, was, q, name, k);
    DrawnHere(now, c,
      AsListed(c)[q as nat := Carve(c.nodes[q].entries, name, k, FT_DIR)][p := Erase(SourceList(c, p, q, name, k),
        DotIndex(was))], k);
  }

  /** Across directories the repointing and the two link counts follow, and no catalog fits. */
  lemma DotMovedUnfit(d: Disk, c: Catalog, p: nat, was: Name, q: u32, name: Name, k: u32, d2: Disk, now: Disk, a: u16,
                      b: u16)
    requires DotSwapped(d, c, p, was, q, name, k, d2) && CatalogOk(d.sb.blockSize, c) && Acyclic(c.up) && p != q
    requires |c.nodes[p].entries| > 0
    requires 1 <= p <= |d.inodes| && 1 <= q <= |d.inodes| && c.nodes[k].block < |d2.data|
    requires |TargetList(c, p, was, q, name, k)| >= 2
    requires AllEncodable(Repoint(TargetList(c, p, was, q, name, k), q))
    requires var d3 := PutBlock(d2, c.nodes[k].block, Pack(Repoint(TargetList(c, p, was, q, name, k), q)));
      now == PutInode(PutInode(d3, p, d.inodes[p - 1].(linksCount := a)), q, d.inodes[q - 1].(linksCount := b))
    ensures Unfit(Flushed(now))
  {
    hide CatalogOk, Acyclic, Unfit, Drawn, ListingOk, Erase, Carve, CarveFault, AllEncodable, LookupName, Ordinary;
    hide Tiles, Keeps, Pack, OwnOk, UpOk;
    TreeFacts(d.sb.blockSize, c);
    DotRepoint(d.sb.blockSize, c, p, was, q, name, k);
    var es := Repoint(TargetList(c, p, was, q, name, k), q);
    var lists := AsListed(c)[q as nat := Carve(c.nodes[q].entries, name, k,
      FT_DIR)][p := Erase(SourceList(c, p, q, name, k), DotIndex(was))];
    var d3 := PutBlock(d2, c.nodes[k].block, Pack(es));
    DrawnEdit(d2, c, lists, k, es);
    DrawnRelink(d3, c, lists[k as nat := es], p, a);
    var d4 := PutInode(d3, p, d.inodes[p - 1].(linksCount := a));
    DrawnRelink(d4, c, lists[k as nat := es], q, b);
    DrawnFlushed(now, c, lists[k as nat := es]);
    BrokenUnfit(Flushed(now), c, lists[k as nat := es], p);
  }

  /** What rename hands to the move when the plan names a dot. */
  lemma DotPlan(size: nat, c: Catalog, oldPath: seq<byte>, newPath: seq<byte>)
    requires CatalogOk(size, c) && Acyclic(c.up) && MovesDots(c.nodes, oldPath, newPath)
    requires var plan := PlanOf(c.nodes, oldPath, newPath);
      plan.Fresh? && plan.k < 0x1_0000_0000 && 0 < plan.to.dir < 0x1_0000_0000
    ensures var plan := PlanOf(c.nodes, oldPath, newPath);
      DotArgs(c, plan.from.dir, plan.from.name, plan.to.dir, plan.to.name, plan.k)
  {
    hide CatalogOk, Acyclic, CarveFault, LookupName, Ordinary, TreeOk, PlanOf, SlashFree;
    var plan := PlanOf(c.nodes, oldPath, newPath);
    DotNames(c.nodes, oldPath, newPath);
    DestinationFree(size, c, plan.to);
    DirCarves(size, c, plan.to.dir);
    DotsOf(size, c, plan.from.dir);
    DotLands(size, c, plan.from, plan.k);
  }

  lemma DotNames(nodes: map<nat, Node>, oldPath: seq<byte>, newPath: seq<byte>)
    requires PlanOf(nodes, oldPath, newPath).Fresh?
    ensures var plan := PlanOf(nodes, oldPath, newPath);
      && SlashFree(plan.from.name) && SlashFree(plan.to.name) && IsDir(nodes, plan.from.dir)
      && IsDir(nodes, plan.to.dir) && plan.k != ROOT
      && LookupName(nodes[plan.from.dir].entries, plan.from.name).Some?
      && LookupName(nodes[plan.from.dir].entries, plan.from.name).value.inode == plan.k
      && LookupName(nodes[plan.to.dir].entries, plan.to.name) == None
  {
    SplitAgreesWithWalk(oldPath);
    SplitAgreesWithWalk(newPath);
    hide Directory, LookupName, SplitPath, SlashFree, Components;
  }

  lemma DirCarves(size: nat, c: Catalog, q: nat)
    requires CatalogOk(size, c) && IsDir(c.nodes, q)
    ensures AllEncodable(c.nodes[q].entries)
  {
    hide UpOk, DownOk, OwnOk, LostOk, ListingOk;
  }

  lemma DotLands(size: nat, c: Catalog, from: Place, k: nat)
    requires CatalogOk(size, c) && Acyclic(c.up) && IsDir(c.nodes, from.dir)
    requires (from.name == DOT || from.name == DOTDOT) && k != ROOT
    requires LookupName(c.nodes[from.dir].entries, from.name).Some?
    requires LookupName(c.nodes[from.dir].entries, from.name).value.inode == k
    ensures IsDir(c.nodes, k) && k != 0
    ensures (from.name == DOT ==> k == from.dir)
    ensures (from.name == DOTDOT ==> k == Parent(c.nodes[from.dir].entries) && k != from.dir)
  {
    hide OwnOk, LostOk, LookupName, Ordinary, ListingOk, Tiles, DownOk, FileTypeOf, Acyclic;
    LookupLands(size, c.nodes, c.up, from.dir, from.name);
    DotsOf(size, c, from.dir);
    DotsOf(size, c, k);
    if from.dir in c.up {
      NotOwnEntry(size, c, from.dir);
    }
  }

  /** What the moving part of rename is given: an entry, or a directory by one of its dots. */
  predicate Movement(c: Catalog, p: nat, was: Name, q: u32, name: Name, k: u32) {
    IsDir(c.nodes, p) && IsDir(c.nodes, q) && k as nat in c.nodes
      && (MoveTry(c, p, was, q, name, k) || DotArgs(c, p, was, q, name, k))
  }

  lemma DotParts(c: Catalog, p: nat, was: Name, q: u32, name: Name, k: u32)
    requires DotArgs(c, p, was, q, name, k)
    ensures IsDir(c.nodes, k) && CanCarve(c.nodes, q, name) && IsDir(c.nodes, p) && IsDir(c.nodes, q)
    ensures |c.nodes[q].entries| > 0 && AllEncodable(c.nodes[q].entries) && CarveFault(c.nodes[q].entries, name).None?
    ensures FileTypeOf(c.nodes[k]) == FT_DIR
  {
    hide AllEncodable, CarveFault, LookupName, Ordinary;
  }

  /** An entry's name is never a dot. */
  lemma DotNotTry(size: nat, c: Catalog, p: nat, was: Name, q: u32, name: Name, k: u32)
    requires CatalogOk(size, c) && DotArgs(c, p, was, q, name, k)
    ensures !MoveTry(c, p, was, q, name, k)
  {
    hide DownOk, OwnOk, LostOk, DirsOk, LookupName, CarveFault, AllEncodable, SlashFree;
  }

  lemma DotsAreFresh(nodes: map<nat, Node>, oldPath: seq<byte>, newPath: seq<byte>)
    ensures MovesDots(nodes, oldPath, newPath) ==> PlanOf(nodes, oldPath, newPath).Fresh?
  {
    hide PlanOf;
  }
}
