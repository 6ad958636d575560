/** The operations as changes of a catalog: where a path aims, what a successful
    creation or removal leaves, and that one undoes the other. */
module Operations {
  import opened Bytes
  import opened Results
  import opened DirEntries
  import opened DirBlocks
  import opened Listings
  import opened Paths
  import opened Catalogs

  // ----- where a path aims -----

  /** The directory a path leads to. */
  function Directory(nodes: map<nat, Node>, path: seq<byte>): (r: Result<nat>)
    ensures r.Ok? ==> IsDir(nodes, r.value)
  {
    match WalkPath(nodes, Components(path), ROOT)
    case Err(e) => Err(e)
    case Ok(p) => if IsDir(nodes, p) then Ok(p) else Err(NotADirectory(p))
  }

  /** The directory and name a path stands for, whether or not the name is taken. */
  function Aim(nodes: map<nat, Node>, path: seq<byte>): (r: Result<Place>)
    ensures r.Ok? ==> IsDir(nodes, r.value.dir)
  {
    match SplitPath(path)
    case Err(e) => Err(e)
    case Ok(split) =>
      match Directory(nodes, split.0)
      case Err(e) => Err(e)
      case Ok(p) => Ok(Place(p, split.1))
  }

  /** Where something new may be entered. */
  function Vacancy(nodes: map<nat, Node>, path: seq<byte>): (r: Result<Place>)
    ensures r.Ok? ==> IsDir(nodes, r.value.dir) && LookupName(nodes[r.value.dir].entries, r.value.name) == None
  {
    match Aim(nodes, path)
    case Err(e) => Err(e)
    case Ok(at) => if LookupName(nodes[at.dir].entries, at.name).Some? then Err(AlreadyExists(at.name)) else Ok(at)
  }

  /** The inode an entry names, and where that entry is. */
  function Occupant(nodes: map<nat, Node>, path: seq<byte>): (r: Result<(Place, nat)>)
    ensures r.Ok? ==> var (at, k) := r.value;
      IsDir(nodes, at.dir) && LookupName(nodes[at.dir].entries, at.name).Some?
        && LookupName(nodes[at.dir].entries, at.name).value.inode == k
  {
    match Aim(nodes, path)
    case Err(e) => Err(e)
    case Ok(at) =>
      match LookupName(nodes[at.dir].entries, at.name)
      case None => Err(NotFound(at.name))
      case Some(b) => Ok((at, b.inode))
  }

  /** split_path and lookup together find what open_path finds. */
  lemma OccupantIsWalk(size: nat, nodes: map<nat, Node>, up: map<nat, Place>, path: seq<byte>)
    requires TreeOk(size, nodes, up) && SplitPath(path).Ok?
    ensures Occupant(nodes, path).Ok? ==> WalkPath(nodes, Components(path), ROOT) == Ok(Occupant(nodes, path).value.1)
    ensures WalkPath(nodes, Components(path), ROOT).Ok? ==> Occupant(nodes, path).Ok?
  {
    SplitAgreesWithWalk(path);
    var (parent, name) := SplitPath(path).value;
    hide SplitPath, Components, LookupName, TreeOk;
    WalkAppend(nodes, Components(parent), name, ROOT);
  }

  lemma {:induction false} WalkAppend(nodes: map<nat, Node>, names: seq<Name>, name: Name, k: nat)
    ensures WalkPath(nodes, names + [name], k) ==
      match WalkPath(nodes, names, k)
      case Err(e) => Err(e)
      case Ok(p) =>
        if p !in nodes then Err(InodeOutOfRange(p)) else if !nodes[p].Dir? then Err(NotADirectory(p))
        else match LookupName(nodes[p].entries, name) case None => Err(NotFound(name)) case Some(b) => Ok(b.inode)
    decreases |names|
  {
    hide LookupName;
    if |names| == 0 {
      assert names + [name] == [name] && [name][1..] == [];
    } else {
      assert (names + [name])[1..] == names[1..] + [name];
      if k in nodes && nodes[k].Dir? && LookupName(nodes[k].entries, names[0]).Some? {
        WalkAppend(nodes, names[1..], name, LookupName(nodes[k].entries, names[0]).value.inode);
      }
    }
  }

  /** The only names a listing leaves vacant are ordinary ones. */
  lemma VacantOrdinary(k: nat, es: seq<DirEntry>, name: Name)
    requires ListingOk(k, es) && SlashFree(name) && LookupName(es, name) == None
    ensures Ordinary(name)
  {
    hide Find, FindBinding, LookupName;
    LookupAt(k, es, 0);
    LookupAt(k, es, 1);
  }

  // ----- creating and removing -----

  /** The catalog with `node` live as inode `k`, entered as `name` in directory `p`. */
  function Enter(c: Catalog, p: nat, name: Name, k: u32, node: Node): Catalog
    requires CanCarve(c.nodes, p, name)
  {
    Attach(c, p, name, k, node).(lostInodes := c.lostInodes, lostBlocks := c.lostBlocks)
  }

  /** The catalog without inode `k` and its entry. */
  function Remove(c: Catalog, p: nat, name: Name, k: nat): Catalog
    requires CanErase(c.nodes, p, name) && k in c.nodes
  {
    Detach(c, p, name, k).(lostInodes := c.lostInodes, lostBlocks := c.lostBlocks)
  }

  /** Allocated, but not yet part of the tree. */
  function Reserve(c: Catalog, ks: set<nat>, blocks: set<nat>): Catalog {
    c.(lostInodes := c.lostInodes + ks, lostBlocks := c.lostBlocks + blocks)
  }

  /** Blocks that belong to nothing. */
  predicate FreshBlocks(c: Catalog, blocks: set<nat>) {
    blocks !! c.lostBlocks && blocks !! c.own.Keys
  }

  lemma AttachReserved(c: Catalog, p: nat, name: Name, k: u32, node: Node)
    requires CanCarve(c.nodes, p, name) && k !in c.lostInodes && FreshBlocks(c, NodeBlocks(node))
    ensures Attach(Reserve(c, {k as nat}, NodeBlocks(node)), p, name, k, node) == Enter(c, p, name, k, node)
  {
    hide CanCarve, NodeBlocks, WithEntry, FileTypeOf;
    assert c.lostInodes + {k as nat} - {k as nat} == c.lostInodes;
    assert c.lostBlocks + NodeBlocks(node) - NodeBlocks(node) == c.lostBlocks;
  }

  lemma DetachReleased(c: Catalog, p: nat, name: Name, k: nat)
    requires CanErase(c.nodes, p, name) && k in c.nodes && LostOk(c) && NodeBlocks(c.nodes[k]) <= c.own.Keys
    ensures var a := Detach(c, p, name, k);
      a.(lostInodes := a.lostInodes - {k}, lostBlocks := a.lostBlocks - NodeBlocks(c.nodes[k])) == Remove(c, p, name, k)
  {
    hide CanErase, NodeBlocks, WithoutEntry;
    assert c.lostInodes + {k} - {k} == c.lostInodes;
    assert c.lostBlocks + NodeBlocks(c.nodes[k]) - NodeBlocks(c.nodes[k]) == c.lostBlocks;
  }

  /** Removing keeps the catalog well formed. */
  lemma RemoveOk(size: nat, c: Catalog, p: nat, name: Name, k: nat)
    requires CatalogOk(size, c) && Detachable(c, p, name, k) && CanErase(c.nodes, p, name)
    ensures k in c.nodes && CatalogOk(size, Remove(c, p, name, k))
  {
    DetachTree(size, c, p, name, k);
    DetachOwn(size, c, p, name, k);
    hide TreeOk, OwnOk, CanErase, WithoutEntry, NodeBlocks;
  }

  /** What a new node must be. */
  predicate Enterable(size: nat, c: Catalog, p: nat, name: Name, k: u32, node: Node) {
    && CanCarve(c.nodes, p, name)
    && Ordinary(name) && LookupName(c.nodes[p].entries, name) == None
    && k != 0 && k != ROOT && k !in c.nodes && k !in c.lostInodes
    && FreshBlocks(c, NodeBlocks(node))
    && (node.Dir? ==>
         |node.entries| == 2 && ListingOk(k, node.entries) && Tiles(node.entries, size) && Parent(node.entries) == p)
  }

  lemma EnterableAttachable(size: nat, c: Catalog, p: nat, name: Name, k: u32, node: Node)
    requires CatalogOk(size, c) && Enterable(size, c, p, name, k, node)
    ensures var r := Reserve(c, {k as nat}, NodeBlocks(node));
      CatalogOk(size, r) && Attachable(size, r, p, name, k, node)
  {
    hide TreeOk, OwnOk, CanCarve, LookupName, Ordinary, ListingOk, Tiles, NodeBlocks;
  }

  /** Entering keeps the catalog well formed. */
  lemma EnterOk(size: nat, c: Catalog, p: nat, name: Name, k: u32, node: Node)
    requires CatalogOk(size, c) && Enterable(size, c, p, name, k, node)
    ensures CatalogOk(size, Enter(c, p, name, k, node))
  {
    EnterableAttachable(size, c, p, name, k, node);
    var r := Reserve(c, {k as nat}, NodeBlocks(node));
    AttachTree(size, r, p, name, k, node);
    AttachOwn(size, r, p, name, k, node);
    AttachReserved(c, p, name, k, node);
    hide TreeOk, OwnOk, Attach, Enter, Reserve, Enterable;
  }

  /** Creating and then removing restores the whole catalog: listings with their record
      lengths, ownership, and nothing left behind. */
  lemma RemoveEntered(size: nat, c: Catalog, p: nat, name: Name, k: u32, node: Node)
    requires CatalogOk(size, c) && Enterable(size, c, p, name, k, node)
    ensures var a := Enter(c, p, name, k, node);
      CanErase(a.nodes, p, name) && k in a.nodes && Remove(a, p, name, k) == c
  {
    EnterableAttachable(size, c, p, name, k, node);
    var r := Reserve(c, {k as nat}, NodeBlocks(node));
    DetachAttached(size, r, p, name, k, node);
    AttachReserved(c, p, name, k, node);
    hide TreeOk, OwnOk, LostOk, CanCarve, CanErase, WithEntry, WithoutEntry, NodeBlocks, LookupName, Ordinary;
    hide FileTypeOf;
    var a := Enter(c, p, name, k, node);
    assert a.nodes[k] == node;
    assert Detach(a, p, name, k) == r;
  }
}
