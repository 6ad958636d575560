/** The directory tree and the block ownership a disk image stands for, and what
    the operations do to them. */
module Catalogs {
  import opened Bytes
  import opened Results
  import opened DirEntries
  import opened DirBlocks
  import opened Listings
  import opened Paths
  import opened ExtentTrees

  const ROOT: nat := 2

  /** A live inode: a one-block directory, a file in one run of blocks, or an inline symlink. */
  datatype Node =
    | Dir(block: nat, entries: seq<DirEntry>)
    | File(start: nat, size: nat, blocks: seq<seq<byte>>)
    | Link(target: seq<byte>)

  /** Where a live inode is entered. */
  datatype Place = Place(dir: nat, name: Name)

  /** `up` and `own` invert the listings and the block maps. Inodes and blocks
      that are allocated but belong to nothing are recorded as lost. */
  datatype Catalog = Catalog(
    nodes: map<nat, Node>, up: map<nat, Place>, own: map<nat, nat>,
    lostInodes: set<nat>, lostBlocks: set<nat>)

  function FileTypeOf(node: Node): byte {
    match node case Dir(_, _) => FT_DIR case File(_, _, _) => 1 case Link(_) => 7
  }

  function NodeBlocks(node: Node): set<nat> {
    match node
    case Dir(b, _) => {b}
    case File(start, _, blocks) => RunBlocks(start, |blocks|)
    case Link(_) => {}
  }

  function Parent(es: seq<DirEntry>): nat {
    if |es| >= 2 then es[1].inode else 0
  }

  predicate IsDir(nodes: map<nat, Node>, k: nat) {
    k in nodes && nodes[k].Dir?
  }

  // ----- the tree -----

  predicate RootOk(nodes: map<nat, Node>) {
    IsDir(nodes, ROOT) && Parent(nodes[ROOT].entries) == ROOT
  }

  ghost predicate DirsOk(size: nat, nodes: map<nat, Node>) {
    forall k :: IsDir(nodes, k) ==> ListingOk(k, nodes[k].entries) && Tiles(nodes[k].entries, size)
  }

  /** Every inode but the root is entered where `up` says, and `..` agrees. */
  ghost predicate UpOk(nodes: map<nat, Node>, up: map<nat, Place>) {
    && up.Keys == nodes.Keys - {ROOT}
    && forall k :: k in up ==>
         && IsDir(nodes, up[k].dir) && Ordinary(up[k].name)
         && LookupName(nodes[up[k].dir].entries, up[k].name) == Some(Binding(k, FileTypeOf(nodes[k])))
         && (nodes[k].Dir? ==> Parent(nodes[k].entries) == up[k].dir)
  }

  /** Nothing is entered anywhere else. */
  ghost predicate DownOk(nodes: map<nat, Node>, up: map<nat, Place>) {
    forall p, n :: IsDir(nodes, p) && Ordinary(n) && LookupName(nodes[p].entries, n).Some? ==>
      var k := LookupName(nodes[p].entries, n).value.inode;
      k in up && up[k] == Place(p, n)
  }

  ghost predicate TreeOk(size: nat, nodes: map<nat, Node>, up: map<nat, Place>) {
    RootOk(nodes) && DirsOk(size, nodes) && UpOk(nodes, up) && DownOk(nodes, up)
  }

  /** `n` steps towards the root. */
  function Climb(up: map<nat, Place>, k: nat, n: nat): nat
    decreases n
  {
    if n == 0 || k !in up then k else Climb(up, up[k].dir, n - 1)
  }

  ghost predicate Below(up: map<nat, Place>, k: nat, top: nat) {
    exists n: nat :: Climb(up, k, n) == top
  }

  /** Every inode climbs to the root. */
  ghost predicate Acyclic(up: map<nat, Place>) {
    forall k :: k in up ==> Below(up, k, ROOT)
  }

  // ----- ownership -----

  /** Each block of a live inode is owned by it, and every owned block is of its owner. */
  ghost predicate OwnOk(nodes: map<nat, Node>, own: map<nat, nat>) {
    && (forall k, b :: k in nodes && b in NodeBlocks(nodes[k]) ==> b in own && own[b] == k)
    && (forall b :: b in own ==> own[b] in nodes && b in NodeBlocks(nodes[own[b]]))
  }

  ghost predicate LostOk(c: Catalog) {
    c.lostInodes !! c.nodes.Keys && c.lostBlocks !! c.own.Keys
  }

  ghost predicate CatalogOk(size: nat, c: Catalog) {
    TreeOk(size, c.nodes, c.up) && OwnOk(c.nodes, c.own) && LostOk(c)
  }

  lemma BlockOwned(nodes: map<nat, Node>, own: map<nat, nat>, k: nat, b: nat)
    requires OwnOk(nodes, own) && k in nodes && b in NodeBlocks(nodes[k])
    ensures b in own && own[b] == k
  {
    hide NodeBlocks;
  }

  lemma BlocksOwned(nodes: map<nat, Node>, own: map<nat, nat>, k: nat)
    requires OwnOk(nodes, own) && k in nodes
    ensures NodeBlocks(nodes[k]) <= own.Keys
  {
    hide NodeBlocks;
  }

  /** No block belongs to two inodes. */
  lemma OneOwner(c: Catalog, j: nat, k: nat)
    requires OwnOk(c.nodes, c.own) && j in c.nodes && k in c.nodes && j != k
    ensures NodeBlocks(c.nodes[j]) !! NodeBlocks(c.nodes[k])
  {
    hide NodeBlocks;
    forall b | b in NodeBlocks(c.nodes[j]) ensures b !in NodeBlocks(c.nodes[k]) {
      assert c.own[b] == j;
    }
  }

  /** Every live inode but the root has exactly one ordinary entry in the whole tree. */
  lemma OneEntry(size: nat, c: Catalog, k: nat, p: nat, n: Name)
    requires TreeOk(size, c.nodes, c.up) && k in c.nodes && k != ROOT
    requires IsDir(c.nodes, p) && Ordinary(n)
    ensures (LookupName(c.nodes[p].entries, n).Some? && LookupName(c.nodes[p].entries, n).value.inode == k) <==>
      c.up[k] == Place(p, n)
  {
    hide Ordinary, LookupName, DirsOk;
  }

  // ----- walking a path -----

  /** open_path: dots are entries like any other, and only directories are entered. */
  function WalkPath(nodes: map<nat, Node>, names: seq<Name>, k: nat): Result<nat>
    decreases |names|
  {
    if |names| == 0 then Ok(k)
    else if k !in nodes then Err(InodeOutOfRange(k))
    else if !nodes[k].Dir? then Err(NotADirectory(k))
    else match LookupName(nodes[k].entries, names[0])
      case None => Err(NotFound(names[0]))
      case Some(b) => WalkPath(nodes, names[1..], b.inode)
  }

  /** Every name of a listing leads to a live inode: itself, its parent, or an entry. */
  lemma LookupLands(size: nat, nodes: map<nat, Node>, up: map<nat, Place>, k: nat, name: Name)
    requires TreeOk(size, nodes, up) && IsDir(nodes, k) && SlashFree(name) && LookupName(nodes[k].entries, name).Some?
    ensures var j := LookupName(nodes[k].entries, name).value.inode;
      && j in nodes
      && (name == DOT ==> j == k) && (name == DOTDOT ==> IsDir(nodes, j) && j == Parent(nodes[k].entries))
      && (Ordinary(name) ==> j in up && up[j] == Place(k, name))
  {
    hide LookupName, ListingOk, Tiles, Find, FindBinding, Ordinary, Parent, FileTypeOf;
    TreeUpKeys(size, nodes, up);
    if name == DOT || name == DOTDOT {
      DotsLead(k, nodes[k].entries, name);
      ParentLives(size, nodes, up, k);
    } else {
      OrdinaryIf(name);
      DownListed(nodes, up, k, name);
    }
    NotDots(name);
  }

  lemma OrdinaryIf(name: Name)
    requires SlashFree(name) && name != DOT && name != DOTDOT
    ensures Ordinary(name)
  {
  }

  lemma NotDots(name: Name)
    ensures Ordinary(name) ==> name != DOT && name != DOTDOT
  {
  }

  lemma DotsLead(k: nat, es: seq<DirEntry>, name: Name)
    requires ListingOk(k, es) && LookupName(es, name).Some?
    ensures name == DOT ==> LookupName(es, name).value.inode == k
    ensures name == DOTDOT ==> LookupName(es, name).value.inode == Parent(es)
    ensures DOT != DOTDOT
  {
    hide Find, FindBinding, Ordinary;
    LookupHit(k, es, name);
    assert |DOT| != |DOTDOT|;
  }

  lemma ParentLives(size: nat, nodes: map<nat, Node>, up: map<nat, Place>, k: nat)
    requires TreeOk(size, nodes, up) && IsDir(nodes, k)
    ensures IsDir(nodes, Parent(nodes[k].entries))
  {
    hide LookupName, ListingOk, Tiles, Ordinary, Parent, FileTypeOf, DownOk, UpOk, DirsOk;
    if k != ROOT {
      TreeUpKeys(size, nodes, up);
      UpEntered(nodes, up, k);
    }
  }

  // ----- attaching a new inode -----

  predicate CanCarve(nodes: map<nat, Node>, p: nat, name: Name) {
    IsDir(nodes, p) && |nodes[p].entries| > 0 && AllEncodable(nodes[p].entries)
      && CarveFault(nodes[p].entries, name).None?
  }

  function WithEntry(nodes: map<nat, Node>, p: nat, name: Name, k: u32, ft: byte): map<nat, Node>
    requires CanCarve(nodes, p, name)
  {
    nodes[p := Dir(nodes[p].block, Carve(nodes[p].entries, name, k, ft))]
  }

  function Attach(c: Catalog, p: nat, name: Name, k: u32, node: Node): Catalog
    requires CanCarve(c.nodes, p, name)
  {
    Catalog(
      WithEntry(c.nodes, p, name, k, FileTypeOf(node))[k as nat := node],
      c.up[k as nat := Place(p, name)],
      c.own + (map b | b in NodeBlocks(node) :: k as nat),
      c.lostInodes - {k as nat}, c.lostBlocks - NodeBlocks(node))
  }

  /** What a node must be before it is entered as `k` in directory `p`. */
  predicate Attachable(size: nat, c: Catalog, p: nat, name: Name, k: u32, node: Node) {
    && CanCarve(c.nodes, p, name)
    && Ordinary(name) && LookupName(c.nodes[p].entries, name) == None
    && k != 0 && k != ROOT && k in c.lostInodes && NodeBlocks(node) <= c.lostBlocks
    && (node.Dir? ==>
         |node.entries| == 2 && ListingOk(k, node.entries) && Tiles(node.entries, size) && Parent(node.entries) == p)
  }

  lemma WithEntryDir(size: nat, nodes: map<nat, Node>, p: nat, name: Name, k: u32, ft: byte)
    requires DirsOk(size, nodes) && CanCarve(nodes, p, name) && Ordinary(name) && k != 0
    requires LookupName(nodes[p].entries, name) == None
    ensures var d := WithEntry(nodes, p, name, k, ft)[p];
      && d.Dir? && d.block == nodes[p].block && ListingOk(p, d.entries) && Tiles(d.entries, size)
      && Parent(d.entries) == Parent(nodes[p].entries)
      && forall n ::
        LookupName(d.entries, n) == if n == name then Some(Binding(k, ft)) else LookupName(nodes[p].entries, n)
  {
    var es := nodes[p].entries;
    hide Carve, CarveFault, LookupName, ListingOk, Tiles;
    CarveListing(p, es, name, k, ft, size);
    CarveShape(es, name, k, ft);
    ListingHasDots(p, es);
    forall n ensures LookupName(Carve(es, name, k, ft), n) == if n == name then Some(Binding(k, ft))
      else LookupName(es, n) {
      CarveLookup(p, es, name, k, ft, size, n);
    }
  }

  lemma ListingHasDots(k: nat, es: seq<DirEntry>)
    requires ListingOk(k, es)
    ensures |es| >= 2
  {
  }

  /** A listing of only the two dots binds no ordinary name. */
  lemma EmptyListing(k: nat, es: seq<DirEntry>, n: Name)
    requires ListingOk(k, es) && |es| == 2 && Ordinary(n)
    ensures LookupName(es, n) == None
  {
    if LookupName(es, n).Some? {
      LookupHit(k, es, n);
    }
  }

  lemma AttachParts(c: Catalog, p: nat, name: Name, k: u32, node: Node)
    requires CanCarve(c.nodes, p, name)
    ensures Attach(c, p, name, k, node).nodes == WithEntry(c.nodes, p, name, k, FileTypeOf(node))[k as nat := node]
    ensures Attach(c, p, name, k, node).up == c.up[k as nat := Place(p, name)]
  {
    hide WithEntry, FileTypeOf, CanCarve;
  }

  lemma AttachTree(size: nat, c: Catalog, p: nat, name: Name, k: u32, node: Node)
    requires CatalogOk(size, c) && Attachable(size, c, p, name, k, node)
    ensures var r := Attach(c, p, name, k, node); TreeOk(size, r.nodes, r.up)
  {
    hide ListingOk, Tiles, LookupName, Ordinary, Carve, CarveFault, Parent, NodeBlocks, OwnOk, FileTypeOf, WithEntry;
    hide Attach;
    var r := Attach(c, p, name, k, node);
    assert k !in c.nodes;
    WithEntryDir(size, c.nodes, p, name, k, FileTypeOf(node));
    WithEntryOthers(c.nodes, p, name, k, FileTypeOf(node));
    AttachParts(c, p, name, k, node);
    AttachStepOk(size, c.nodes, c.up, r.nodes, p, name, k, node);
  }

  lemma WithEntryOthers(nodes: map<nat, Node>, p: nat, name: Name, k: u32, ft: byte)
    requires CanCarve(nodes, p, name)
    ensures WithEntry(nodes, p, name, k, ft).Keys == nodes.Keys
    ensures forall x :: x in nodes && x != p ==> WithEntry(nodes, p, name, k, ft)[x] == nodes[x]
  {
  }

  /** `after` is `before` with `node` entered in `p` as `name`, and nothing else changed. */
  ghost predicate AttachStep(size: nat, before: map<nat, Node>, after: map<nat, Node>, p: nat, name: Name, k: nat,
                             node: Node) {
    && k !in before && k != ROOT && IsDir(before, p) && Ordinary(name) && LookupName(before[p].entries, name) == None
    && after.Keys == before.Keys + {k} && after[k] == node
    && (forall x :: x in before && x != p ==> after[x] == before[x])
    && after[p].Dir? && ListingOk(p, after[p].entries) && Tiles(after[p].entries, size)
    && Parent(after[p].entries) == Parent(before[p].entries)
    && (forall n :: LookupName(after[p].entries, n) ==
          if n == name then Some(Binding(k, FileTypeOf(node))) else LookupName(before[p].entries, n))
    && (node.Dir? ==>
         |node.entries| == 2 && ListingOk(k, node.entries) && Tiles(node.entries, size) && Parent(node.entries) == p)
  }

  lemma AttachStepOk(size: nat, before: map<nat, Node>, up: map<nat, Place>, after: map<nat, Node>,
                     p: nat, name: Name, k: nat, node: Node)
    requires TreeOk(size, before, up) && AttachStep(size, before, after, p, name, k, node)
    ensures TreeOk(size, after, up[k := Place(p, name)])
  {
    hide ListingOk, Tiles, LookupName, Ordinary, Parent, FileTypeOf;
    var up' := up[k := Place(p, name)];
    assert after.Keys - {ROOT} == up'.Keys;
    forall x | x in up' ensures Entered(after, up', x) {
      AttachUpAt(size, before, up, after, p, name, k, node, x);
    }
    hide UpOk, AttachStep, DownOk;
    EnteredUp(after, up');
    AttachDown(size, before, up, after, p, name, k, node);
    hide TreeOk;
    AttachDirs(size, before, up, after, p, name, k, node);
  }

  /** UpOk for one inode. */
  predicate Entered(nodes: map<nat, Node>, up: map<nat, Place>, k: nat) {
    && k in up && k in nodes
    && IsDir(nodes, up[k].dir) && Ordinary(up[k].name)
    && LookupName(nodes[up[k].dir].entries, up[k].name) == Some(Binding(k, FileTypeOf(nodes[k])))
    && (nodes[k].Dir? ==> Parent(nodes[k].entries) == up[k].dir)
  }

  lemma EnteredUp(nodes: map<nat, Node>, up: map<nat, Place>)
    requires up.Keys == nodes.Keys - {ROOT}
    requires forall k :: k in up ==> Entered(nodes, up, k)
    ensures UpOk(nodes, up)
  {
    hide LookupName, Ordinary, Parent, FileTypeOf;
    forall k | k in up ensures
       && IsDir(nodes, up[k].dir) && Ordinary(up[k].name)
       && LookupName(nodes[up[k].dir].entries, up[k].name) == Some(Binding(k, FileTypeOf(nodes[k])))
       && (nodes[k].Dir? ==> Parent(nodes[k].entries) == up[k].dir)
    {
      assert Entered(nodes, up, k);
    }
  }

  lemma UpEntered(nodes: map<nat, Node>, up: map<nat, Place>, k: nat)
    requires UpOk(nodes, up) && k in up
    ensures Entered(nodes, up, k)
  {
    hide LookupName, Ordinary, Parent, FileTypeOf;
  }

  lemma SameFileType(a: Node, b: Node)
    requires a.Dir? && b.Dir?
    ensures FileTypeOf(a) == FileTypeOf(b)
  {
  }

  lemma AttachUpAt(size: nat, before: map<nat, Node>, up: map<nat, Place>, after: map<nat, Node>,
                   p: nat, name: Name, k: nat, node: Node, x: nat)
    requires TreeOk(size, before, up) && AttachStep(size, before, after, p, name, k, node)
    requires x in up[k := Place(p, name)]
    ensures Entered(after, up[k := Place(p, name)], x)
  {
    hide ListingOk, Tiles, LookupName, Ordinary, Parent, FileTypeOf, DirsOk, DownOk, RootOk, UpOk;
    if x != k {
      UpEntered(before, up, x);
      UpKeys(before, up);
      SameFileType(before[p], after[p]);
    }
  }

  lemma AttachDown(size: nat, before: map<nat, Node>, up: map<nat, Place>, after: map<nat, Node>,
                   p: nat, name: Name, k: nat, node: Node)
    requires TreeOk(size, before, up) && AttachStep(size, before, after, p, name, k, node)
    ensures DownOk(after, up[k := Place(p, name)])
  {
    hide *;
    var up' := up[k := Place(p, name)];
    forall q, n ensures Listed(after, up', q, n) {
      AttachDownAt(size, before, up, after, p, name, k, node, q, n);
    }
    ListedDown(after, up');
  }

  /** DownOk for one name of one directory. */
  predicate Listed(nodes: map<nat, Node>, up: map<nat, Place>, p: nat, n: Name) {
    IsDir(nodes, p) && Ordinary(n) && LookupName(nodes[p].entries, n).Some? ==>
      var k := LookupName(nodes[p].entries, n).value.inode;
      k in up && up[k] == Place(p, n)
  }

  lemma ListedDown(nodes: map<nat, Node>, up: map<nat, Place>)
    requires forall p, n :: Listed(nodes, up, p, n)
    ensures DownOk(nodes, up)
  {
    hide LookupName, Ordinary;
    forall p, n | IsDir(nodes, p) && Ordinary(n) && LookupName(nodes[p].entries, n).Some?
      ensures var k := LookupName(nodes[p].entries, n).value.inode; k in up && up[k] == Place(p, n)
    {
      assert Listed(nodes, up, p, n);
    }
  }

  lemma DownListed(nodes: map<nat, Node>, up: map<nat, Place>, p: nat, n: Name)
    requires DownOk(nodes, up)
    ensures Listed(nodes, up, p, n)
  {
    hide LookupName, Ordinary;
  }

  lemma AttachDownAt(size: nat, before: map<nat, Node>, up: map<nat, Place>, after: map<nat, Node>,
                     p: nat, name: Name, k: nat, node: Node, q: nat, n: Name)
    requires TreeOk(size, before, up) && AttachStep(size, before, after, p, name, k, node)
    ensures Listed(after, up[k := Place(p, name)], q, n)
  {
    hide ListingOk, Tiles, LookupName, Ordinary, Parent, FileTypeOf, DirsOk, RootOk, DownOk, UpOk;
    DownListed(before, up, q, n);
    UpKeys(before, up);
    if q == k && node.Dir? && Ordinary(n) {
      EmptyListing(k, node.entries, n);
    }
  }

  lemma AttachDirs(size: nat, before: map<nat, Node>, up: map<nat, Place>, after: map<nat, Node>,
                   p: nat, name: Name, k: nat, node: Node)
    requires TreeOk(size, before, up) && AttachStep(size, before, after, p, name, k, node)
    ensures RootOk(after) && DirsOk(size, after)
  {
    hide ListingOk, Tiles, LookupName, Ordinary, Parent, FileTypeOf, UpOk, DownOk;
  }

  lemma AttachOwn(size: nat, c: Catalog, p: nat, name: Name, k: u32, node: Node)
    requires CatalogOk(size, c) && Attachable(size, c, p, name, k, node)
    ensures var r := Attach(c, p, name, k, node); OwnOk(r.nodes, r.own) && LostOk(r)
  {
    hide TreeOk, OwnOk, LostOk, Carve, CarveFault, LookupName, ListingOk, Tiles, Ordinary, CanCarve, WithEntry;
    hide NodeBlocks, FileTypeOf, Parent;
    LostParts(c);
    EntryBlocksSame(c.nodes, p, name, k, FileTypeOf(node));
    AttachedOwns(c.nodes, c.own, WithEntry(c.nodes, p, name, k, FileTypeOf(node)), k, node);
    AttachedLost(c, p, name, k, node);
  }

  lemma LostParts(c: Catalog)
    requires LostOk(c)
    ensures forall k :: k in c.lostInodes ==> k !in c.nodes
    ensures forall b :: b in c.lostBlocks ==> b !in c.own
  {
  }

  lemma EntryBlocksSame(nodes: map<nat, Node>, p: nat, name: Name, k: u32, ft: byte)
    requires CanCarve(nodes, p, name)
    ensures WithEntry(nodes, p, name, k, ft).Keys == nodes.Keys
    ensures forall x :: x in nodes ==> NodeBlocks(WithEntry(nodes, p, name, k, ft)[x]) == NodeBlocks(nodes[x])
  {
    hide Carve, CarveFault;
  }

  /** Ownership after one inode and its blocks come in. */
  lemma AttachedOwns(nodes: map<nat, Node>, own: map<nat, nat>, after: map<nat, Node>, k: nat, node: Node)
    requires OwnOk(nodes, own) && k !in nodes && after.Keys == nodes.Keys
    requires forall x :: x in nodes ==> NodeBlocks(after[x]) == NodeBlocks(nodes[x])
    requires forall b :: b in NodeBlocks(node) ==> b !in own
    ensures OwnOk(after[k := node], own + (map b | b in NodeBlocks(node) :: k))
  {
    hide NodeBlocks;
    var with, own' := after[k := node], own + (map b | b in NodeBlocks(node) :: k);
    forall x, b | x in with && b in NodeBlocks(with[x]) ensures b in own' && own'[b] == x {
      if x != k {
        assert b in NodeBlocks(nodes[x]) && own[b] == x;
      }
    }
  }

  lemma AttachedLost(c: Catalog, p: nat, name: Name, k: u32, node: Node)
    requires LostOk(c) && CanCarve(c.nodes, p, name)
    requires WithEntry(c.nodes, p, name, k, FileTypeOf(node)).Keys == c.nodes.Keys
    ensures LostOk(Attach(c, p, name, k, node))
  {
    hide CanCarve, WithEntry, NodeBlocks, FileTypeOf;
  }

  // ----- detaching an inode -----

  function Detach(c: Catalog, p: nat, name: Name, k: nat): Catalog
    requires CanErase(c.nodes, p, name) && k in c.nodes
  {
    Catalog(
      WithoutEntry(c.nodes, p, name) - {k},
      c.up - {k},
      c.own - NodeBlocks(c.nodes[k]),
      c.lostInodes + {k}, c.lostBlocks + NodeBlocks(c.nodes[k]))
  }

  predicate CanErase(nodes: map<nat, Node>, p: nat, name: Name) {
    && IsDir(nodes, p)
    && Find(nodes[p].entries, name).Some?
    && var i := Find(nodes[p].entries, name).value;
       i > 0 && nodes[p].entries[i - 1].recLen + nodes[p].entries[i].recLen < 0x1_0000
  }

  function WithoutEntry(nodes: map<nat, Node>, p: nat, name: Name): map<nat, Node>
    requires CanErase(nodes, p, name)
  {
    nodes[p := Dir(nodes[p].block, Erase(nodes[p].entries, Find(nodes[p].entries, name).value))]
  }

  lemma WithoutEntryDir(size: nat, nodes: map<nat, Node>, p: nat, name: Name)
    requires DirsOk(size, nodes) && IsDir(nodes, p) && Ordinary(name) && LookupName(nodes[p].entries, name).Some?
    ensures CanErase(nodes, p, name)
    ensures FindBinding(nodes[p].entries, name, LookupName(nodes[p].entries, name).value.inode) ==
      Find(nodes[p].entries, name)
    ensures var d := WithoutEntry(nodes, p, name)[p];
      && d.Dir? && d.block == nodes[p].block && ListingOk(p, d.entries) && Tiles(d.entries, size)
      && Parent(d.entries) == Parent(nodes[p].entries)
      && forall n :: LookupName(d.entries, n) == if n == name then None else LookupName(nodes[p].entries, n)
  {
    var es := nodes[p].entries;
    hide LookupName, ListingOk, Tiles, FindBinding;
    LookupHit(p, es, name);
    var i := Find(es, name).value;
    EraseListing(p, es, i, size);
    EraseShape(es, i, size);
    hide Find, Erase;
    forall n ensures LookupName(Erase(es, i), n) == if n == name then None else LookupName(es, n) {
      EraseLookup(p, es, i, size, n);
    }
  }

  lemma WithoutEntryOthers(nodes: map<nat, Node>, p: nat, name: Name)
    requires CanErase(nodes, p, name)
    ensures WithoutEntry(nodes, p, name).Keys == nodes.Keys
    ensures forall x :: x in nodes && x != p ==> WithoutEntry(nodes, p, name)[x] == nodes[x]
  {
  }

  /** An inode that may be removed: entered, and if a directory then empty. */
  predicate Detachable(c: Catalog, p: nat, name: Name, k: nat) {
    k in c.up && c.up[k] == Place(p, name) && k in c.nodes && (c.nodes[k].Dir? ==> |c.nodes[k].entries| == 2)
  }

  /** Nothing is entered in a file or in an empty directory. */
  lemma NoChildren(size: nat, nodes: map<nat, Node>, up: map<nat, Place>, k: nat, x: nat)
    requires TreeOk(size, nodes, up) && k in nodes && (nodes[k].Dir? ==> |nodes[k].entries| == 2) && x in up
    ensures up[x].dir != k
  {
    hide ListingOk, Tiles, LookupName, Ordinary;
    if up[x].dir == k {
      EmptyListing(k, nodes[k].entries, up[x].name);
    }
  }

  lemma DetachParts(c: Catalog, p: nat, name: Name, k: nat)
    requires CanErase(c.nodes, p, name) && k in c.nodes
    ensures Detach(c, p, name, k).nodes == WithoutEntry(c.nodes, p, name) - {k}
    ensures Detach(c, p, name, k).up == c.up - {k}
  {
    hide WithoutEntry, CanErase;
  }

  lemma DetachTree(size: nat, c: Catalog, p: nat, name: Name, k: nat)
    requires CatalogOk(size, c) && Detachable(c, p, name, k)
    ensures p != k && CanErase(c.nodes, p, name)
    ensures var r := Detach(c, p, name, k); TreeOk(size, r.nodes, r.up)
  {
    hide ListingOk, Tiles, LookupName, Ordinary, Erase, Find, FindBinding, NodeBlocks, OwnOk, Parent, FileTypeOf;
    hide CanErase, WithoutEntry, Detach;
    WithoutEntryDir(size, c.nodes, p, name);
    NoChildren(size, c.nodes, c.up, k, k);
    WithoutEntryOthers(c.nodes, p, name);
    DetachParts(c, p, name, k);
    var r := Detach(c, p, name, k);
    forall x | x in c.up ensures c.up[x].dir != k {
      NoChildren(size, c.nodes, c.up, k, x);
    }
    UpKeys(c.nodes, c.up);
    DetachStepOk(size, c.nodes, c.up, r.nodes, p, name, k);
  }

  /** `after` is `before` without inode `k` and without its entry in `p`. */
  ghost predicate DetachStep(size: nat, before: map<nat, Node>, after: map<nat, Node>, p: nat, name: Name, k: nat) {
    && k != p && k != ROOT && IsDir(before, p)
    && after.Keys == before.Keys - {k}
    && (forall x :: x in before && x != p && x != k ==> after[x] == before[x])
    && p in after && after[p].Dir? && ListingOk(p, after[p].entries) && Tiles(after[p].entries, size)
    && Parent(after[p].entries) == Parent(before[p].entries)
    && (forall n :: LookupName(after[p].entries, n) == if n == name then None else LookupName(before[p].entries, n))
  }

  lemma DetachStepOk(size: nat, before: map<nat, Node>, up: map<nat, Place>, after: map<nat, Node>, p: nat, name: Name,
                     k: nat)
    requires TreeOk(size, before, up) && DetachStep(size, before, after, p, name, k)
    requires k in up && up[k] == Place(p, name) && forall x :: x in up ==> up[x].dir != k
    ensures TreeOk(size, after, up - {k})
  {
    hide ListingOk, Tiles, LookupName, Ordinary, Parent, FileTypeOf;
    var up' := up - {k};
    assert after.Keys - {ROOT} == up'.Keys;
    forall x | x in up' ensures Entered(after, up', x) {
      DetachUpAt(size, before, up, after, p, name, k, x);
    }
    hide UpOk;
    EnteredUp(after, up');
    assert DirsOk(size, after) && RootOk(after);
    hide RootOk, DirsOk;
    forall q, n ensures Listed(after, up', q, n) {
      DetachDownAt(size, before, up, after, p, name, k, q, n);
    }
    hide DetachStep, DownOk;
    ListedDown(after, up');
  }

  lemma DetachDownAt(size: nat, before: map<nat, Node>, up: map<nat, Place>, after: map<nat, Node>, p: nat, name: Name,
                     k: nat, q: nat, n: Name)
    requires TreeOk(size, before, up) && DetachStep(size, before, after, p, name, k)
    requires k in up && up[k] == Place(p, name)
    ensures Listed(after, up - {k}, q, n)
  {
    hide ListingOk, Tiles, LookupName, Ordinary, Parent, FileTypeOf, DirsOk, RootOk, DownOk, UpOk;
    DownListed(before, up, q, n);
  }

  lemma DetachUpAt(size: nat, before: map<nat, Node>, up: map<nat, Place>, after: map<nat, Node>, p: nat, name: Name,
                   k: nat, x: nat)
    requires TreeOk(size, before, up) && DetachStep(size, before, after, p, name, k)
    requires k in up && up[k] == Place(p, name) && x in up && up[x].dir != k && x != k
    ensures Entered(after, up - {k}, x)
  {
    hide ListingOk, Tiles, LookupName, Ordinary, Parent, FileTypeOf, DirsOk, DownOk, RootOk, UpOk;
    UpEntered(before, up, x);
    UpEntered(before, up, k);
    SameFileType(before[p], after[p]);
  }

  lemma DetachOwn(size: nat, c: Catalog, p: nat, name: Name, k: nat)
    requires CatalogOk(size, c) && Detachable(c, p, name, k) && CanErase(c.nodes, p, name) && p != k
    ensures var r := Detach(c, p, name, k); OwnOk(r.nodes, r.own) && LostOk(r)
  {
    hide TreeOk, OwnOk, LostOk, Erase, Find, CanErase, WithoutEntry, NodeBlocks;
    WithoutEntryOthers(c.nodes, p, name);
    DirBlocksSame(c.nodes, p, name);
    DetachedOwns(c.nodes, c.own, WithoutEntry(c.nodes, p, name), k);
    DetachedLost(c, p, name, k);
  }

  lemma DirBlocksSame(nodes: map<nat, Node>, p: nat, name: Name)
    requires CanErase(nodes, p, name)
    ensures WithoutEntry(nodes, p, name).Keys == nodes.Keys
    ensures forall x :: x in nodes ==> NodeBlocks(WithoutEntry(nodes, p, name)[x]) == NodeBlocks(nodes[x])
  {
    hide Erase, Find;
  }

  /** Ownership after one inode and its blocks are taken out. */
  lemma DetachedOwns(nodes: map<nat, Node>, own: map<nat, nat>, after: map<nat, Node>, k: nat)
    requires OwnOk(nodes, own) && k in nodes && after.Keys == nodes.Keys
    requires forall x :: x in nodes ==> NodeBlocks(after[x]) == NodeBlocks(nodes[x])
    ensures OwnOk(after - {k}, own - NodeBlocks(nodes[k]))
  {
    hide NodeBlocks;
    var left, own' := after - {k}, own - NodeBlocks(nodes[k]);
    forall x, b | x in left && b in NodeBlocks(left[x]) ensures b in own' && own'[b] == x {
      assert b in NodeBlocks(nodes[x]) && own[b] == x;
    }
  }

  lemma DetachedLost(c: Catalog, p: nat, name: Name, k: nat)
    requires LostOk(c) && CanErase(c.nodes, p, name) && k in c.nodes
    requires WithoutEntry(c.nodes, p, name).Keys == c.nodes.Keys
    ensures LostOk(Detach(c, p, name, k))
  {
    hide CanErase, WithoutEntry, NodeBlocks;
  }

  // ----- undoing -----

  /** Removing what was just attached restores the whole catalog, record lengths included. */
  lemma DetachAttached(size: nat, c: Catalog, p: nat, name: Name, k: u32, node: Node)
    requires CatalogOk(size, c) && Attachable(size, c, p, name, k, node)
    ensures var a := Attach(c, p, name, k, node);
      && CanErase(a.nodes, p, name) && Detach(a, p, name, k) == c
  {
    hide ListingOk, Tiles, LookupName, Ordinary, Erase, Carve, Find, CarveFault, FindBinding, NodeBlocks, UpOk, DownOk;
    var es := c.nodes[p].entries;
    var ft := FileTypeOf(node);
    EraseCarved(p, es, name, k, ft, size);
    var a := Attach(c, p, name, k, node);
    assert k !in c.nodes && a.nodes[p] == Dir(c.nodes[p].block, Carve(es, name, k, ft)) && a.nodes[k] == node;
    var r := Detach(a, p, name, k);
    assert r.nodes[p] == c.nodes[p];
    assert r.nodes == c.nodes;
    assert r.up == c.up by { UpKeys(c.nodes, c.up); }
    assert r.own == c.own;
  }

  lemma UpKeys(nodes: map<nat, Node>, up: map<nat, Place>)
    requires UpOk(nodes, up)
    ensures up.Keys == nodes.Keys - {ROOT}
  {
  }

  lemma TreeUpKeys(size: nat, nodes: map<nat, Node>, up: map<nat, Place>)
    requires TreeOk(size, nodes, up)
    ensures up.Keys == nodes.Keys - {ROOT} && IsDir(nodes, ROOT)
  {
  }

  // ----- acyclicity -----

  lemma {:induction false} ClimbStays(nodes: map<nat, Node>, up: map<nat, Place>, k: nat, n: nat)
    requires UpOk(nodes, up) && k in nodes
    ensures Climb(up, k, n) in nodes
    decreases n
  {
    hide LookupName, Ordinary;
    if n > 0 && k in up {
      ClimbStays(nodes, up, up[k].dir, n - 1);
    }
  }

  /** Climbing is the same in two maps that agree along the way. */
  lemma {:induction false} ClimbAgrees(up: map<nat, Place>, up': map<nat, Place>, k: nat, n: nat)
    requires forall m: nat :: m < n ==>
      var x := Climb(up, k, m); (x in up <==> x in up') && (x in up ==> up'[x].dir == up[x].dir)
    ensures Climb(up', k, n) == Climb(up, k, n)
    decreases n
  {
    if n > 0 {
      assert Climb(up, k, 0) == k;
      if k in up {
        forall m: nat | m < n - 1 ensures var x := Climb(up, up[k].dir, m);
          (x in up <==> x in up') && (x in up ==> up'[x].dir == up[x].dir) {
          assert Climb(up, k, m + 1) == Climb(up, up[k].dir, m);
        }
        ClimbAgrees(up, up', up[k].dir, n - 1);
      }
    }
  }

  /** How many steps an inode is from the root. */
  lemma StepsToRoot(nodes: map<nat, Node>, up: map<nat, Place>, k: nat) returns (n: nat)
    requires up.Keys == nodes.Keys - {ROOT} && Acyclic(up) && k in nodes
    ensures Climb(up, k, n) == ROOT
  {
    if k == ROOT {
      n := 0;
    } else {
      assert Below(up, k, ROOT);
      n :| Climb(up, k, n) == ROOT;
    }
  }

  lemma AttachAcyclic(size: nat, nodes: map<nat, Node>, up: map<nat, Place>, p: nat, name: Name, k: nat)
    requires TreeOk(size, nodes, up) && Acyclic(up) && p in nodes && k !in nodes
    ensures Acyclic(up[k := Place(p, name)])
  {
    hide DirsOk, DownOk, RootOk;
    var up' := up[k := Place(p, name)];
    UpKeys(nodes, up);
    forall x | x in nodes ensures Below(up', x, ROOT) {
      var n := StepsToRoot(nodes, up, x);
      forall m: nat | m < n ensures Climb(up, x, m) != k {
        ClimbStays(nodes, up, x, m);
      }
      ClimbAgrees(up, up', x, n);
    }
    var n: nat :| Climb(up', p, n) == ROOT;
    assert Climb(up', k, n + 1) == ROOT;
  }

  lemma DetachAcyclic(size: nat, nodes: map<nat, Node>, up: map<nat, Place>, k: nat)
    requires TreeOk(size, nodes, up) && Acyclic(up) && k in nodes && k != ROOT
    requires (nodes[k].Dir? ==> |nodes[k].entries| == 2)
    ensures Acyclic(up - {k})
  {
    var up' := up - {k};
    forall x | x in up' ensures Below(up', x, ROOT) {
      var n: nat :| Climb(up, x, n) == ROOT;
      forall m: nat | m < n ensures Climb(up, x, m) != k {
        NeverReaches(size, nodes, up, k, x, m);
      }
      ClimbAgrees(up, up', x, n);
    }
  }

  lemma {:induction false} NeverReaches(size: nat, nodes: map<nat, Node>, up: map<nat, Place>, k: nat, x: nat, m: nat)
    requires TreeOk(size, nodes, up) && k in nodes && (nodes[k].Dir? ==> |nodes[k].entries| == 2) && x != k
    ensures Climb(up, x, m) != k
    decreases m
  {
    hide TreeOk;
    if m > 0 && x in up {
      NoChildren(size, nodes, up, k, x);
      NeverReaches(size, nodes, up, k, up[x].dir, m - 1);
    }
  }

  /** Moving inode `k` into directory `q` keeps the tree a tree exactly when `q` is not inside `k`. */
  lemma MoveAcyclic(size: nat, nodes: map<nat, Node>, up: map<nat, Place>, q: nat, name: Name, k: nat)
    requires TreeOk(size, nodes, up) && Acyclic(up) && q in nodes && k in up
    ensures Acyclic(up[k := Place(q, name)]) <==> !Below(up, q, k)
  {
    hide DirsOk, DownOk, RootOk;
    var up' := up[k := Place(q, name)];
    UpKeys(nodes, up);
    if Below(up, q, k) {
      assert Climb(up, k, 0) == k;
      forall n: nat ensures Climb(up', k, n) != ROOT {
        StaysBelow(up, up', q, name, k, k, n);
      }
      assert !Below(up', k, ROOT);
    } else {
      forall x | x in nodes ensures Below(up', x, ROOT) {
        var n := StepsToRoot(nodes, up, x);
        Reroots(nodes, up, q, name, k, x, n);
      }
    }
  }

  lemma {:induction false} StaysBelow(up: map<nat, Place>, up': map<nat, Place>, q: nat, name: Name, k: nat, x: nat,
                                      n: nat)
    requires ROOT !in up && k in up && up' == up[k := Place(q, name)] && Below(up, q, k) && Below(up, x, k)
    ensures Climb(up', x, n) != ROOT
    decreases n
  {
    var m: nat :| Climb(up, x, m) == k;
    assert x == ROOT ==> Climb(up, x, m) == ROOT;
    if n > 0 && x in up' {
      if x != k {
        assert Climb(up, up[x].dir, m - 1) == k;
      }
      StaysBelow(up, up', q, name, k, up'[x].dir, n - 1);
    }
  }

  lemma {:induction false} Reroots(nodes: map<nat, Node>, up: map<nat, Place>, q: nat, name: Name, k: nat, x: nat,
                                   n: nat)
    requires up.Keys == nodes.Keys - {ROOT} && Acyclic(up) && q in nodes && k in up && !Below(up, q, k)
    requires Climb(up, x, n) == ROOT
    ensures Below(up[k := Place(q, name)], x, ROOT)
    decreases n
  {
    var up' := up[k := Place(q, name)];
    if x == k {
      var m := StepsToRoot(nodes, up, q);
      ClimbAgrees(up, up', q, m);
      assert Climb(up', k, m + 1) == ROOT;
    } else if n > 0 && x in up {
      Reroots(nodes, up, q, name, k, up[x].dir, n - 1);
      var m: nat :| Climb(up', up[x].dir, m) == ROOT;
      assert Climb(up', x, m + 1) == ROOT;
    } else {
      assert Climb(up', x, 0) == ROOT;
    }
  }
}
