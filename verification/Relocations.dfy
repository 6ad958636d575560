/** What a caller sees of a rename, to a fresh name or over a file: which paths mean what
    afterwards, and what every directory then lists. */
module Relocations {
  import opened Bytes
  import opened Results
  import opened DirEntries
  import opened DirBlocks
  import opened Listings
  import opened Paths
  import opened Catalogs
  import opened Moves
  import opened Disks
  import opened Operations
  import opened Renames
  import opened Walks
  import opened Refinements

  /** The inode that gave way, if any. */
  function Gone(plan: Plan): set<nat> {
    if plan.Replace? then {plan.gone} else {}
  }

  /** A rename that went through and left a tree. */
  ghost predicate Relocated(d: Disk, c: Catalog, oldPath: seq<byte>, newPath: seq<byte>, d': Disk, c': Catalog) {
    var plan := PlanOf(c.nodes, oldPath, newPath);
    && (plan.Fresh? || plan.Replace?) && !MovesDots(c.nodes, oldPath, newPath) && !Knots(c, plan)
    && Follows(d, c, plan, Ok(Unit.Unit), d', c')
  }

  /** What its checks established. */
  ghost predicate Planned(c: Catalog, plan: Plan) {
    && (plan.Fresh? || plan.Replace?)
    && plan.k in c.up && c.up[plan.k] == plan.from && plan.from.dir != plan.k && plan.k in c.nodes
    && IsDir(c.nodes, plan.from.dir) && IsDir(c.nodes, plan.to.dir) && Ordinary(plan.to.name)
    && !Below(c.up, plan.to.dir, plan.k)
    && (plan.Fresh? ==> LookupName(c.nodes[plan.to.dir].entries, plan.to.name) == None)
    && (plan.Replace? ==>
          && !IsDir(c.nodes, plan.k) && plan.gone != plan.k && plan.gone in c.nodes && !IsDir(c.nodes, plan.gone)
          && CanErase(c.nodes, plan.to.dir, plan.to.name) && Detachable(c, plan.to.dir, plan.to.name, plan.gone))
  }

  /** The catalog the entry is moved in: the old one, less what gave way. */
  function Cleared(c: Catalog, plan: Plan): Catalog
    requires plan.Replace? ==> CanErase(c.nodes, plan.to.dir, plan.to.name) && plan.gone in c.nodes
  {
    if plan.Replace? then Remove(c, plan.to.dir, plan.to.name, plan.gone) else c
  }

  lemma RelocatedPlan(size: nat, d: Disk, c: Catalog, oldPath: seq<byte>, newPath: seq<byte>, d': Disk, c': Catalog)
    requires CatalogOk(size, c) && Acyclic(c.up) && Relocated(d, c, oldPath, newPath, d', c')
    ensures var plan := PlanOf(c.nodes, oldPath, newPath);
      Planned(c, plan) && c'.up == (c.up - Gone(plan))[plan.k := plan.to]
  {
    hide CatalogOk, Acyclic, PlanOf, MovesDots, LookupName, Ordinary, Detachable, CanErase, Remove, CanMove, CarveFault;
    hide InodesKept, Below;
    var plan := PlanOf(c.nodes, oldPath, newPath);
    var c1 := Cleared(c, plan);
    MoveCarves(c1.nodes, plan.from.dir, plan.from.name, plan.to.dir, plan.to.name, plan.k);
    NotNamesDots(c.nodes, oldPath, newPath);
    PlanFacts(size, c, oldPath, newPath);
    if plan.Replace? {
      RemoveUp(c, plan.to.dir, plan.to.name, plan.gone);
      NotBelowFile(size, c, plan.k, plan.to.dir);
    } else {
      assert c.up - {} == c.up;
    }
  }

  lemma NotNamesDots(nodes: map<nat, Node>, oldPath: seq<byte>, newPath: seq<byte>)
    requires !MovesDots(nodes, oldPath, newPath)
    requires var plan := PlanOf(nodes, oldPath, newPath);
      plan.Fresh? ==>
        IsDir(nodes, plan.to.dir) && |nodes[plan.to.dir].entries| > 0
          && CarveFault(nodes[plan.to.dir].entries, plan.to.name).None?
    ensures !NamesDots(nodes, oldPath, newPath)
  {
    hide PlanOf, CarveFault;
  }

  // ----- paths -----

  /** What gives way holds nothing, and no inode is entered where it was but the one moved. */
  lemma GoneFacts(size: nat, c: Catalog, plan: Plan)
    requires CatalogOk(size, c) && Planned(c, plan)
    ensures ROOT !in c.up && Apart(c.up) && ROOT !in Gone(plan) && plan.k !in Gone(plan) && plan.to.dir !in Gone(plan)
    ensures forall y :: y in c.up ==> c.up[y].dir !in Gone(plan)
    ensures forall y :: y in c.up && y !in Gone(plan) ==> c.up[y] != plan.to
  {
    hide CatalogOk, TreeOk, LookupName, Ordinary, CanErase, Below;
    TreeOf(size, c);
    TreeApart(size, c.nodes, c.up);
    if plan.Replace? {
      forall y | y in c.up ensures c.up[y].dir != plan.gone {
        NoChildren(size, c.nodes, c.up, plan.gone, y);
      }
    } else {
      forall y | y in c.up ensures c.up[y] != plan.to {
        UpIsEntry(size, c.nodes, c.up, y);
      }
    }
  }

  /** What was reached below the old place is reached below the new one, by the same names. */
  lemma RenamedSubtree(size: nat, d: Disk, c: Catalog, oldPath: seq<byte>, newPath: seq<byte>, d': Disk, c': Catalog,
                       a: seq<Name>, b: seq<Name>, rest: seq<Name>, x: nat)
    requires CatalogOk(size, c) && CatalogOk(size, c') && Acyclic(c.up) && Relocated(d, c, oldPath, newPath, d', c')
    requires DotFree(a) && DotFree(b) && DotFree(rest)
    requires var plan := PlanOf(c.nodes, oldPath, newPath);
      x !in Gone(plan) && WalkPath(c.nodes, a, ROOT) == Ok(plan.k) && WalkPath(c.nodes, b, ROOT) == Ok(plan.to.dir)
    ensures var there := b + [PlanOf(c.nodes, oldPath, newPath).to.name];
      WalkPath(c.nodes, a + rest, ROOT) == Ok(x) <==> WalkPath(c'.nodes, there + rest, ROOT) == Ok(x)
  {
    hide CatalogOk, Acyclic, PlanOf, Relocated, TreeOk, WalkPath, Chain, Ordinary, LookupName, CanErase, Detachable;
    hide DotFree, Apart, Below, OwnOk, LostOk, DirsOk, UpOk;
    RelocatedPlan(size, d, c, oldPath, newPath, d', c');
    TreeOf(size, c);
    TreeOf(size, c');
    var plan := PlanOf(c.nodes, oldPath, newPath);
    GoneFacts(size, c, plan);
    var gone := Gone(plan);
    var up1 := c.up - gone;
    WalkIsChain(size, c.nodes, c.up, a, plan.k);
    WalkIsChain(size, c.nodes, c.up, b, plan.to.dir);
    ChainWithout(c.up, gone, a, plan.k);
    ChainWithout(c.up, gone, b, plan.to.dir);
    ChainWithout(c.up, gone, a + rest, x);
    NotBelowWithout(c.up, gone, plan.to.dir, plan.k);
    ApartWithout(c.up, gone);
    ChainMoved(up1, plan.k, plan.to, a, b, rest, x);
    DotFreeJoin(a, rest);
    DotFreeJoin(b, [plan.to.name]);
    DotFreeJoin(b + [plan.to.name], rest);
    WalkIsChain(size, c.nodes, c.up, a + rest, x);
    WalkIsChain(size, c'.nodes, c'.up, b + [plan.to.name] + rest, x);
  }

  lemma NotBelowWithout(up: map<nat, Place>, gone: set<nat>, x: nat, k: nat)
    requires x !in gone && (forall y :: y in up ==> up[y].dir !in gone) && !Below(up, x, k)
    ensures !Below(up - gone, x, k)
  {
    forall n: nat ensures Climb(up - gone, x, n) != k {
      ClimbWithout(up, gone, x, n);
    }
  }

  lemma ApartWithout(up: map<nat, Place>, gone: set<nat>)
    requires Apart(up)
    ensures Apart(up - gone)
  {
  }

  lemma DotFreeJoin(a: seq<Name>, b: seq<Name>)
    requires DotFree(a) && ((DotFree(b)) || (|b| == 1 && Ordinary(b[0])))
    ensures DotFree(a + b)
  {
    hide Ordinary;
  }

  /** What lies outside keeps exactly its paths, and what gave way has none. */
  lemma RenamedElsewhere(size: nat, d: Disk, c: Catalog, oldPath: seq<byte>, newPath: seq<byte>, d': Disk, c': Catalog,
                         names: seq<Name>, x: nat)
    requires CatalogOk(size, c) && CatalogOk(size, c') && Acyclic(c.up) && Relocated(d, c, oldPath, newPath, d', c')
    requires DotFree(names)
    ensures var plan := PlanOf(c.nodes, oldPath, newPath);
      && (x in Gone(plan) ==> WalkPath(c'.nodes, names, ROOT) != Ok(x))
      && (x !in Gone(plan) && !Below(c.up, x, plan.k) ==>
            (WalkPath(c'.nodes, names, ROOT) == Ok(x) <==> WalkPath(c.nodes, names, ROOT) == Ok(x)))
  {
    hide CatalogOk, Acyclic, PlanOf, Relocated, TreeOk, WalkPath, Ordinary, LookupName, CanErase, Detachable, DotFree;
    hide Apart, Below, OwnOk, LostOk, DirsOk, UpOk;
    RelocatedPlan(size, d, c, oldPath, newPath, d', c');
    TreeOf(size, c);
    TreeOf(size, c');
    var plan := PlanOf(c.nodes, oldPath, newPath);
    GoneFacts(size, c, plan);
    var gone := Gone(plan);
    WalkIsChain(size, c.nodes, c.up, names, x);
    WalkIsChain(size, c'.nodes, c'.up, names, x);
    if x !in gone && !Below(c.up, x, plan.k) {
      NotBelowWithout(c.up, gone, x, plan.k);
      ChainElsewhere(c.up - gone, plan.k, plan.to, names, x);
      ChainWithout(c.up, gone, names, x);
    }
  }

  /** After an overwrite the source answers to the new path and to no other, the inode that
      gave way to none, and every other inode to just the paths it had. */
  lemma OverwrittenPaths(size: nat, d: Disk, c: Catalog, oldPath: seq<byte>, newPath: seq<byte>, d': Disk, c': Catalog,
                         names: seq<Name>, x: nat)
    requires CatalogOk(size, c) && CatalogOk(size, c') && Acyclic(c.up) && Relocated(d, c, oldPath, newPath, d', c')
    requires DotFree(names)
    requires PlanOf(c.nodes, oldPath, newPath).Replace?
    ensures var plan := PlanOf(c.nodes, oldPath, newPath);
      WalkPath(c'.nodes, names, ROOT) == Ok(x) <==>
        if x == plan.k then
          |names| > 0 && names[|names| - 1] == plan.to.name
            && WalkPath(c.nodes, names[..|names| - 1], ROOT) == Ok(plan.to.dir)
        else x != plan.gone && WalkPath(c.nodes, names, ROOT) == Ok(x)
  {
    hide CatalogOk, Acyclic, PlanOf, Relocated, WalkPath, Ordinary, LookupName, CanErase, Detachable, DotFree, Below;
    RelocatedPlan(size, d, c, oldPath, newPath, d', c');
    RenamedElsewhere(size, d, c, oldPath, newPath, d', c', names, x);
    var plan := PlanOf(c.nodes, oldPath, newPath);
    if x == plan.k {
      if |names| > 0 {
        var front := names[..|names| - 1];
        DotFreeFront(names);
        RenamedElsewhere(size, d, c, oldPath, newPath, d', c', front, plan.to.dir);
      }
      LastStep(size, c', names, plan.k, plan.to);
    } else if x != plan.gone {
      NotBelowFile(size, c, plan.k, x);
    }
  }

  /** An inode is reached through the one place it is entered. */
  lemma LastStep(size: nat, c: Catalog, names: seq<Name>, k: nat, at: Place)
    requires CatalogOk(size, c) && DotFree(names) && k in c.up && c.up[k] == at
    ensures WalkPath(c.nodes, names, ROOT) == Ok(k) <==>
      |names| > 0 && names[|names| - 1] == at.name && WalkPath(c.nodes, names[..|names| - 1], ROOT) == Ok(at.dir)
  {
    hide CatalogOk, TreeOk, WalkPath, Ordinary, DotFree, OwnOk, LostOk, DirsOk;
    TreeOf(size, c);
    TreeUpKeys(size, c.nodes, c.up);
    WalkIsChain(size, c.nodes, c.up, names, k);
    if |names| > 0 {
      DotFreeFront(names);
      WalkIsChain(size, c.nodes, c.up, names[..|names| - 1], at.dir);
    }
  }

  lemma DotFreeFront(names: seq<Name>)
    requires DotFree(names) && |names| > 0
    ensures DotFree(names[..|names| - 1])
  {
    hide Ordinary;
  }

  /** On the path strings themselves, when they have no dots. */
  lemma RenamedPaths(size: nat, d: Disk, c: Catalog, oldPath: seq<byte>, newPath: seq<byte>, d': Disk, c': Catalog,
                     rest: seq<Name>, x: nat)
    requires CatalogOk(size, c) && CatalogOk(size, c') && Acyclic(c.up) && Relocated(d, c, oldPath, newPath, d', c')
    requires DotFree(Components(oldPath)) && DotFree(Components(newPath)) && DotFree(rest)
    requires x !in Gone(PlanOf(c.nodes, oldPath, newPath))
    ensures WalkPath(c.nodes, Components(oldPath) + rest, ROOT) == Ok(x) <==>
      WalkPath(c'.nodes, Components(newPath) + rest, ROOT) == Ok(x)
  {
    hide CatalogOk, Acyclic, PlanOf, WalkPath, Components, Follows, Knots, MovesDots, DotFree;
    PlanWalks(c.nodes, oldPath, newPath);
    var names := Components(newPath);
    DotFreeFront(names);
    assert names == names[..|names| - 1] + [names[|names| - 1]];
    RenamedSubtree(size, d, c, oldPath, newPath, d', c', Components(oldPath), names[..|names| - 1], rest, x);
  }

  // ----- listings -----

  /** One entry went from `from` to `to`, over the inodes in `gone` that were there. */
  ghost predicate EntryMoved(before: map<nat, Node>, gone: set<nat>, from: Place, k: nat, to: Place, after: map<nat,
                             Node>)
    requires k in before
  {
    && after.Keys == before.Keys - gone
    && (forall x :: x in after && !before[x].Dir? ==> after[x] == before[x])
    && forall x :: x in after && before[x].Dir? ==> ListMoved(before, from, k, to, after, x)
  }

  ghost predicate ListMoved(before: map<nat, Node>, from: Place, k: nat, to: Place, after: map<nat, Node>, x: nat)
    requires k in before && IsDir(before, x) && x in after
  {
    && after[x].Dir? && after[x].block == before[x].block
    && Parent(after[x].entries) == (if x == k && from.dir != to.dir then to.dir else Parent(before[x].entries))
    && forall n :: Ordinary(n) ==>
         LookupName(after[x].entries, n) == (
           if x == to.dir && n == to.name then Some(Binding(k, FileTypeOf(before[k])))
           else if x == from.dir && n == from.name then None
           else LookupName(before[x].entries, n))
  }

  lemma MovedEntry(size: nat, c: Catalog, p: nat, was: Name, q: u32, name: Name, k: u32)
    requires CatalogOk(size, c) && Movable(c, p, was, q, name, k)
    ensures CanMove(c.nodes, p, was, q, name, k)
    ensures k as nat in c.nodes
    ensures EntryMoved(c.nodes, {}, Place(p, was), k, Place(q, name), MovedNodes(c.nodes, p, was, q, name, k))
  {
    hide CatalogOk, Movable, CanMove, MovedNodes, LookupName, ListingOk, Tiles, Ordinary, Parent, FileTypeOf;
    hide MovedLookup;
    MoveStepHolds(size, c, p, was, q, name, k);
    var after := MovedNodes(c.nodes, p, was, q, name, k);
    forall x | x in after && c.nodes[x].Dir? ensures ListMoved(c.nodes, Place(p, was), k, Place(q, name), after, x) {
      assert MovedDir(size, c.nodes, after, p, was, q, name, k, x);
      ListMovedAt(size, c.nodes, after, p, was, q, name, k, x);
    }
  }

  lemma ListMovedAt(size: nat, before: map<nat, Node>, after: map<nat, Node>, p: nat, was: Name, q: nat, name: Name,
                    k: nat, x: nat)
    requires k in before && IsDir(before, x) && MovedDir(size, before, after, p, was, q, name, k, x)
    ensures ListMoved(before, Place(p, was), k, Place(q, name), after, x)
  {
    hide LookupName, ListingOk, Tiles, Ordinary, Parent, FileTypeOf;
  }

  lemma MoveOfPlan(c: Catalog, from: Place, k: nat, to: Place, d': Disk, c': Catalog)
    requires Renamed(c, from, k, to, Ok(Unit.Unit), d', c')
    ensures to.dir < 0x1_0000_0000 && k < 0x1_0000_0000 && CanMove(c.nodes, from.dir, from.name, to.dir, to.name, k)
    ensures c'.nodes == MovedNodes(c.nodes, from.dir, from.name, to.dir, to.name, k)
    ensures CanCarve(c.nodes, to.dir, to.name)
  {
    hide CanErase, CanCarve, WithEntry, WithoutEntry, CarveFault, Acyclic, Below, Coherent, MovedNodes, Repoint;
    hide FileTypeOf;
  }

  lemma NotZero(size: nat, c: Catalog, x: nat)
    requires CatalogOk(size, c) && x in c.nodes
    ensures x != 0
  {
    hide DownOk, OwnOk, LostOk, DirsOk, Ordinary, FileTypeOf;
  }

  lemma FreshMovable(size: nat, c: Catalog, plan: Plan)
    requires CatalogOk(size, c) && Planned(c, plan) && plan.Fresh? && CanCarve(c.nodes, plan.to.dir, plan.to.name)
    requires plan.k < 0x1_0000_0000 && plan.to.dir < 0x1_0000_0000
    ensures Movable(c, plan.from.dir, plan.from.name, plan.to.dir, plan.to.name, plan.k)
  {
    hide CatalogOk, CanCarve, Ordinary, LookupName, Below;
    NotZero(size, c, plan.k);
    NotZero(size, c, plan.to.dir);
  }

  lemma ClearedMovable(size: nat, c: Catalog, plan: Plan)
    requires CatalogOk(size, c) && Planned(c, plan) && plan.Replace? && plan.k < 0x1_0000_0000
    requires plan.to.dir < 0x1_0000_0000
    requires CanCarve(Cleared(c, plan).nodes, plan.to.dir, plan.to.name)
    ensures Movable(Cleared(c, plan), plan.from.dir, plan.from.name, plan.to.dir, plan.to.name, plan.k)
  {
    hide CatalogOk, Ordinary, LookupName, Below, Remove, CanErase, Detachable, CarveFault, AllEncodable;
    NotZero(size, c, plan.k);
    NotZero(size, c, plan.to.dir);
    AfterReplace(size, c, plan.from, plan.k, plan.to, plan.gone);
  }

  /** Clearing the destination touches only the name that is entered again. */
  lemma ClearedEntry(size: nat, c: Catalog, plan: Plan, after: map<nat, Node>)
    requires CatalogOk(size, c) && Planned(c, plan) && plan.Replace? && plan.k in Cleared(c, plan).nodes
    requires EntryMoved(Cleared(c, plan).nodes, {}, plan.from, plan.k, plan.to, after)
    ensures EntryMoved(c.nodes, Gone(plan), plan.from, plan.k, plan.to, after)
  {
    hide CatalogOk, Ordinary, LookupName, Below, CanErase, Detachable, ListingOk, Tiles, DirsOk, Parent, FileTypeOf;
    hide WithoutEntry, NodeBlocks, FindBinding, Find;
    DirsOfCatalog(size, c);
    EntryThere(size, c, plan);
    WithoutEntryDir(size, c.nodes, plan.to.dir, plan.to.name);
    WithoutEntryOthers(c.nodes, plan.to.dir, plan.to.name);
    var c1 := Cleared(c, plan);
    assert FileTypeOf(c1.nodes[plan.k]) == FileTypeOf(c.nodes[plan.k]);
    forall x | x in after && c.nodes[x].Dir? ensures ListMoved(c.nodes, plan.from, plan.k, plan.to, after, x) {
      assert ListMoved(c1.nodes, plan.from, plan.k, plan.to, after, x);
    }
  }

  lemma DirsOfCatalog(size: nat, c: Catalog)
    requires CatalogOk(size, c)
    ensures DirsOk(size, c.nodes)
  {
    hide DirsOk, UpOk, DownOk, OwnOk, LostOk;
  }

  lemma EntryThere(size: nat, c: Catalog, plan: Plan)
    requires CatalogOk(size, c) && Planned(c, plan) && plan.Replace?
    ensures LookupName(c.nodes[plan.to.dir].entries, plan.to.name).Some?
  {
    hide DirsOk, DownOk, OwnOk, LostOk, LookupName, Ordinary, FileTypeOf, Below, CanErase;
  }

  /** Every other file keeps its bytes, every other listing its names; the moved name is gone
      from where it was, the new one stands for the same inode, and `..` follows a directory
      that changed parents. */
  lemma RenamedFrame(size: nat, d: Disk, c: Catalog, oldPath: seq<byte>, newPath: seq<byte>, d': Disk, c': Catalog)
    requires CatalogOk(size, c) && Acyclic(c.up) && Relocated(d, c, oldPath, newPath, d', c')
    ensures var plan := PlanOf(c.nodes, oldPath, newPath);
      plan.k in c.nodes && EntryMoved(c.nodes, Gone(plan), plan.from, plan.k, plan.to, c'.nodes)
  {
    hide CatalogOk, Acyclic, PlanOf, LookupName, Ordinary, CanErase, Detachable, Remove, Move, CanMove, MovedNodes;
    hide EntryMoved, FileTypeOf, CarveFault, InodesKept, Below, MovesDots;
    RelocatedPlan(size, d, c, oldPath, newPath, d', c');
    var plan := PlanOf(c.nodes, oldPath, newPath);
    var c1 := Cleared(c, plan);
    MoveOfPlan(c1, plan.from, plan.k, plan.to, d', c');
    if plan.Replace? {
      RemoveOk(size, c, plan.to.dir, plan.to.name, plan.gone);
      ClearedMovable(size, c, plan);
      MovedEntry(size, c1, plan.from.dir, plan.from.name, plan.to.dir, plan.to.name, plan.k);
      ClearedEntry(size, c, plan, c'.nodes);
    } else {
      FreshMovable(size, c, plan);
      MovedEntry(size, c, plan.from.dir, plan.from.name, plan.to.dir, plan.to.name, plan.k);
    }
  }
}
