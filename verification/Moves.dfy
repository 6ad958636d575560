/** Renaming, resizing, and the directory counts the disk records. */
module Moves {
  import opened Bytes
  import opened Results
  import opened DirEntries
  import opened DirBlocks
  import opened Listings
  import opened Paths
  import opened ExtentTrees
  import opened Catalogs

  // ----- renaming -----

  function Repointed(nodes: map<nat, Node>, k: nat, parent: u32): map<nat, Node>
    requires IsDir(nodes, k) && |nodes[k].entries| >= 2
  {
    nodes[k := Dir(nodes[k].block, Repoint(nodes[k].entries, parent))]
  }

  /** The new entry is added, then the old one removed, then `..` repointed if a
      directory changed parents. */
  predicate CanMove(nodes: map<nat, Node>, p: nat, was: Name, q: u32, name: Name, k: u32) {
    && k as nat in nodes && CanCarve(nodes, q, name)
    && var one := WithEntry(nodes, q, name, k, FileTypeOf(nodes[k]));
    && CanErase(one, p, was)
    && (p != q && nodes[k].Dir? ==> var two := WithoutEntry(one, p, was); IsDir(two, k) && |two[k].entries| >= 2)
  }

  function MovedNodes(nodes: map<nat, Node>, p: nat, was: Name, q: u32, name: Name, k: u32): map<nat, Node>
    requires CanMove(nodes, p, was, q, name, k)
  {
    var two := WithoutEntry(WithEntry(nodes, q, name, k, FileTypeOf(nodes[k])), p, was);
    if p != q && nodes[k].Dir? then Repointed(two, k, q) else two
  }

  function Move(c: Catalog, p: nat, was: Name, q: u32, name: Name, k: u32): Catalog
    requires CanMove(c.nodes, p, was, q, name, k)
  {
    c.(nodes := MovedNodes(c.nodes, p, was, q, name, k), up := c.up[k as nat := Place(q, name)])
  }

  /** What rename needs of its arguments once source and destination are settled. */
  predicate Movable(c: Catalog, p: nat, was: Name, q: u32, name: Name, k: u32) {
    && k as nat in c.up && c.up[k] == Place(p, was) && k as nat in c.nodes && p != k
    && CanCarve(c.nodes, q, name) && Ordinary(name) && LookupName(c.nodes[q].entries, name) == None
    && k != 0 && q != 0
  }

  lemma WithEntryDirs(size: nat, nodes: map<nat, Node>, p: nat, name: Name, k: u32, ft: byte)
    requires DirsOk(size, nodes) && CanCarve(nodes, p, name) && Ordinary(name) && k != 0
    requires LookupName(nodes[p].entries, name) == None
    ensures DirsOk(size, WithEntry(nodes, p, name, k, ft))
  {
    hide LookupName, ListingOk, Tiles, Ordinary, CanCarve, Carve;
    WithEntryDir(size, nodes, p, name, k, ft);
    WithEntryOthers(nodes, p, name, k, ft);
    hide WithEntry;
  }

  lemma WithoutEntryDirs(size: nat, nodes: map<nat, Node>, p: nat, name: Name)
    requires DirsOk(size, nodes) && IsDir(nodes, p) && Ordinary(name) && LookupName(nodes[p].entries, name).Some?
    ensures CanErase(nodes, p, name) && DirsOk(size, WithoutEntry(nodes, p, name))
  {
    hide LookupName, ListingOk, Tiles, Ordinary, CanErase, Erase, Find;
    WithoutEntryDir(size, nodes, p, name);
    WithoutEntryOthers(nodes, p, name);
    hide WithoutEntry;
  }

  lemma MoveTwoSteps(size: nat, c: Catalog, p: nat, was: Name, q: u32, name: Name, k: u32)
    requires CatalogOk(size, c) && Movable(c, p, was, q, name, k)
    ensures CanMove(c.nodes, p, was, q, name, k)
    ensures var one := WithEntry(c.nodes, q, name, k, FileTypeOf(c.nodes[k]));
      && DirsOk(size, one) && IsDir(one, p) && Ordinary(was)
      && LookupName(one[p].entries, was) == Some(Binding(k, FileTypeOf(c.nodes[k])))
      && FindBinding(one[p].entries, was, k) == Find(one[p].entries, was) && Find(one[p].entries, was).Some?
      && DirsOk(size, WithoutEntry(one, p, was))
  {
    hide LookupName, ListingOk, Tiles, Ordinary, CanCarve, Find, FindBinding, OwnOk, DownOk;
    var ft := FileTypeOf(c.nodes[k]);
    hide FileTypeOf;
    var one := WithEntry(c.nodes, q, name, k, ft);
    WithEntryDirs(size, c.nodes, q, name, k, ft);
    WithEntryDir(size, c.nodes, q, name, k, ft);
    WithEntryOthers(c.nodes, q, name, k, ft);
    hide WithEntry;
    assert LookupName(c.nodes[p].entries, was) == Some(Binding(k, ft));
    assert LookupName(one[p].entries, was) == Some(Binding(k, ft));
    WithoutEntryDirs(size, one, p, was);
    WithoutEntryDir(size, one, p, was);
    LookupHit(p, one[p].entries, was);
    WithoutEntryOthers(one, p, was);
    hide WithoutEntry, CanErase;
    if c.nodes[k].Dir? {
      var two := WithoutEntry(one, p, was);
      assert IsDir(two, k);
      ListingHasDots(k, two[k].entries);
    }
  }

  /** What a name stands for after the move. */
  function MovedLookup(nodes: map<nat, Node>, p: nat, was: Name, q: nat, name: Name, k: nat, x: nat,
                       n: Name): Option<Binding>
    requires k in nodes && IsDir(nodes, x)
  {
    if x == q && n == name then Some(Binding(k, FileTypeOf(nodes[k])))
    else if x == p && n == was then None
    else LookupName(nodes[x].entries, n)
  }

  /** One directory after the move. */
  ghost predicate MovedDir(size: nat, before: map<nat, Node>, after: map<nat, Node>, p: nat, was: Name, q: nat,
                           name: Name, k: nat, x: nat)
    requires k in before && IsDir(before, x)
  {
    && IsDir(after, x) && after[x].block == before[x].block
    && ListingOk(x, after[x].entries) && Tiles(after[x].entries, size)
    && Parent(after[x].entries) == (if x == k && p != q then q else Parent(before[x].entries))
    && forall n :: Ordinary(n) ==> LookupName(after[x].entries, n) == MovedLookup(before, p, was, q, name, k, x, n)
  }

  /** One edit of one directory: what it leaves, and what every name then stands for. */
  lemma EntryAt(size: nat, nodes: map<nat, Node>, q: nat, name: Name, k: u32, ft: byte, x: nat)
    requires DirsOk(size, nodes) && CanCarve(nodes, q, name) && Ordinary(name) && k != 0
    requires LookupName(nodes[q].entries, name) == None && IsDir(nodes, x)
    ensures var r := WithEntry(nodes, q, name, k, ft);
      && IsDir(r, x) && r[x].block == nodes[x].block && ListingOk(x, r[x].entries) && Tiles(r[x].entries, size)
      && Parent(r[x].entries) == Parent(nodes[x].entries)
      && forall n ::
        LookupName(r[x].entries, n) == if x == q && n == name then Some(Binding(k, ft))
          else LookupName(nodes[x].entries, n)
  {
    hide LookupName, ListingOk, Tiles, Ordinary, CanCarve, Parent;
    WithEntryDir(size, nodes, q, name, k, ft);
    WithEntryOthers(nodes, q, name, k, ft);
    hide WithEntry;
  }

  lemma NoEntryAt(size: nat, nodes: map<nat, Node>, p: nat, name: Name, x: nat)
    requires DirsOk(size, nodes) && IsDir(nodes, p) && Ordinary(name) && LookupName(nodes[p].entries, name).Some?
    requires IsDir(nodes, x)
    ensures CanErase(nodes, p, name)
    ensures var r := WithoutEntry(nodes, p, name);
      && IsDir(r, x) && r[x].block == nodes[x].block && ListingOk(x, r[x].entries) && Tiles(r[x].entries, size)
      && Parent(r[x].entries) == Parent(nodes[x].entries)
      && forall n ::
        LookupName(r[x].entries, n) == if x == p && n == name then None else LookupName(nodes[x].entries, n)
  {
    hide LookupName, ListingOk, Tiles, Ordinary, CanErase, Parent;
    WithoutEntryDir(size, nodes, p, name);
    WithoutEntryOthers(nodes, p, name);
    hide WithoutEntry;
  }

  lemma MoveDirAt(size: nat, c: Catalog, p: nat, was: Name, q: u32, name: Name, k: u32, x: nat)
    requires CatalogOk(size, c) && Movable(c, p, was, q, name, k) && IsDir(c.nodes, x)
    ensures CanMove(c.nodes, p, was, q, name, k)
    ensures MovedDir(size, c.nodes, MovedNodes(c.nodes, p, was, q, name, k), p, was, q, name, k, x)
  {
    MoveTwoSteps(size, c, p, was, q, name, k);
    var ft := FileTypeOf(c.nodes[k]);
    var one := WithEntry(c.nodes, q, name, k, ft);
    EntryAt(size, c.nodes, q, name, k, ft, x);
    NoEntryAt(size, one, p, was, x);
    var two := WithoutEntry(one, p, was);
    hide LookupName, ListingOk, Tiles, Ordinary, OwnOk, DownOk, UpOk, DirsOk, Parent, Repoint, WithEntry, WithoutEntry;
    hide FindBinding, CanCarve, CanErase, MovedDir;
    RepointedAt(size, two, k, q, x, p != q && c.nodes[k].Dir?);
    ComposeDir(size, c.nodes, one, two, MovedNodes(c.nodes, p, was, q, name, k), p, was, q, name, k, x);
  }

  lemma RepointedAt(size: nat, two: map<nat, Node>, k: u32, q: u32, x: nat, doit: bool)
    requires doit ==> IsDir(two, k) && |two[k].entries| >= 2
    requires IsDir(two, x) && ListingOk(x, two[x].entries) && Tiles(two[x].entries, size) && q != 0
    ensures var r := if doit then Repointed(two, k, q) else two;
      && IsDir(r, x) && r[x].block == two[x].block && ListingOk(x, r[x].entries) && Tiles(r[x].entries, size)
      && Parent(r[x].entries) == (if doit && x == k then q else Parent(two[x].entries))
      && forall n :: Ordinary(n) ==> LookupName(r[x].entries, n) == LookupName(two[x].entries, n)
  {
    hide LookupName, ListingOk, Tiles, Ordinary, Parent, Repoint;
    if doit && x == k {
      RepointDir(size, two[k].entries, k, q);
    }
  }

  lemma ComposeDir(size: nat, before: map<nat, Node>, one: map<nat, Node>, two: map<nat, Node>, after: map<nat, Node>,
                   p: nat, was: Name, q: nat, name: Name, k: nat, x: nat)
    requires k in before && IsDir(before, x) && IsDir(one, x) && IsDir(two, x) && IsDir(after, x)
    requires before[x].block == one[x].block == two[x].block == after[x].block
    requires forall n ::
      LookupName(one[x].entries, n) == if x == q && n == name then Some(Binding(k, FileTypeOf(before[k])))
        else LookupName(before[x].entries, n)
    requires forall n ::
      LookupName(two[x].entries, n) == if x == p && n == was then None else LookupName(one[x].entries, n)
    requires forall n :: Ordinary(n) ==> LookupName(after[x].entries, n) == LookupName(two[x].entries, n)
    requires x == p && x == q ==> was != name
    requires ListingOk(x, after[x].entries) && Tiles(after[x].entries, size)
    requires Parent(after[x].entries) == if p != q && before[k].Dir? && x == k then q else Parent(before[x].entries)
    ensures MovedDir(size, before, after, p, was, q, name, k, x)
  {
    hide LookupName, ListingOk, Tiles, Ordinary, Parent, FileTypeOf;
  }

  lemma RepointDir(size: nat, es: seq<DirEntry>, k: nat, q: u32)
    requires ListingOk(k, es) && Tiles(es, size) && q != 0
    ensures |es| >= 2
    ensures ListingOk(k, Repoint(es, q)) && Tiles(Repoint(es, q), size) && Parent(Repoint(es, q)) == q
    ensures Find(es, DOTDOT) == Some(1)
    ensures forall n :: Ordinary(n) ==> LookupName(Repoint(es, q), n) == LookupName(es, n)
  {
    RepointListing(k, es, q, size);
    hide LookupName, ListingOk, Tiles;
    forall n | Ordinary(n) ensures LookupName(Repoint(es, q), n) == LookupName(es, n) {
      RepointLookup(k, es, q, size, n);
    }
  }

  /** The move as a relation: every directory as MovedDir says, everything else untouched. */
  ghost predicate MoveStep(size: nat, before: map<nat, Node>, after: map<nat, Node>, p: nat, was: Name, q: nat,
                           name: Name, k: nat) {
    && k in before && k != p && IsDir(before, q) && Ordinary(name) && LookupName(before[q].entries, name) == None
    && after.Keys == before.Keys
    && (forall x :: x in before && !before[x].Dir? ==> after[x] == before[x])
    && (forall x :: IsDir(before, x) ==> MovedDir(size, before, after, p, was, q, name, k, x))
  }

  lemma MovedOthers(size: nat, c: Catalog, p: nat, was: Name, q: u32, name: Name, k: u32)
    requires CanMove(c.nodes, p, was, q, name, k)
    ensures var after := MovedNodes(c.nodes, p, was, q, name, k);
      after.Keys == c.nodes.Keys && forall x :: x in c.nodes && !c.nodes[x].Dir? ==> after[x] == c.nodes[x]
  {
    hide CanCarve, CanErase, Repoint;
    var ft := FileTypeOf(c.nodes[k]);
    hide FileTypeOf;
    var one := WithEntry(c.nodes, q, name, k, ft);
    WithEntryOthers(c.nodes, q, name, k, ft);
    assert IsDir(c.nodes, q) by { CarveIsDir(c.nodes, q, name); }
    assert IsDir(one, p) by { EraseIsDir(one, p, was); }
    hide WithEntry;
    WithoutEntryOthers(one, p, was);
    hide WithoutEntry;
  }

  lemma CarveIsDir(nodes: map<nat, Node>, p: nat, name: Name)
    requires CanCarve(nodes, p, name)
    ensures IsDir(nodes, p)
  {
  }

  lemma EraseIsDir(nodes: map<nat, Node>, p: nat, name: Name)
    requires CanErase(nodes, p, name)
    ensures IsDir(nodes, p)
  {
  }

  lemma MoveStepHolds(size: nat, c: Catalog, p: nat, was: Name, q: u32, name: Name, k: u32)
    requires CatalogOk(size, c) && Movable(c, p, was, q, name, k)
    ensures CanMove(c.nodes, p, was, q, name, k)
    ensures MoveStep(size, c.nodes, MovedNodes(c.nodes, p, was, q, name, k), p, was, q, name, k)
  {
    hide *;
    MoveTwoSteps(size, c, p, was, q, name, k);
    MovableParts(c, p, was, q, name, k);
    MovedOthers(size, c, p, was, q, name, k);
    var after := MovedNodes(c.nodes, p, was, q, name, k);
    forall x | IsDir(c.nodes, x) ensures MovedDir(size, c.nodes, after, p, was, q, name, k, x) {
      MoveDirAt(size, c, p, was, q, name, k, x);
    }
    MoveStepIntro(size, c.nodes, after, p, was, q, name, k);
  }

  lemma MovableParts(c: Catalog, p: nat, was: Name, q: u32, name: Name, k: u32)
    requires Movable(c, p, was, q, name, k)
    ensures k as nat in c.nodes && k as nat != p && IsDir(c.nodes, q) && Ordinary(name)
    ensures LookupName(c.nodes[q].entries, name) == None
  {
  }

  lemma MoveStepIntro(size: nat, before: map<nat, Node>, after: map<nat, Node>, p: nat, was: Name, q: nat, name: Name,
                      k: nat)
    requires k in before && k != p && IsDir(before, q) && Ordinary(name) && LookupName(before[q].entries, name) == None
    requires after.Keys == before.Keys && forall x :: x in before && !before[x].Dir? ==> after[x] == before[x]
    requires forall x :: IsDir(before, x) ==> MovedDir(size, before, after, p, was, q, name, k, x)
    ensures MoveStep(size, before, after, p, was, q, name, k)
  {
  }

  lemma MoveTree(size: nat, c: Catalog, p: nat, was: Name, q: u32, name: Name, k: u32)
    requires CatalogOk(size, c) && Movable(c, p, was, q, name, k)
    ensures CanMove(c.nodes, p, was, q, name, k)
    ensures CatalogOk(size, Move(c, p, was, q, name, k))
  {
    MoveStepHolds(size, c, p, was, q, name, k);
    hide MovedNodes, CanMove, MoveStep, CanCarve, OwnOk, Ordinary, LookupName;
    var after := MovedNodes(c.nodes, p, was, q, name, k);
    MoveStepTree(size, c.nodes, c.up, after, p, was, q, name, k);
    MoveStepOwn(size, c.nodes, after, c.own, p, was, q, name, k);
    hide TreeOk;
    assert after.Keys == c.nodes.Keys by { MoveStepKeys(size, c.nodes, after, p, was, q, name, k); }
  }

  lemma MoveStepKeys(size: nat, before: map<nat, Node>, after: map<nat, Node>, p: nat, was: Name, q: nat, name: Name,
                     k: nat)
    requires MoveStep(size, before, after, p, was, q, name, k)
    ensures after.Keys == before.Keys
  {
  }

  lemma MoveStepOwn(size: nat, before: map<nat, Node>, after: map<nat, Node>, own: map<nat, nat>, p: nat, was: Name,
                    q: nat, name: Name, k: nat)
    requires MoveStep(size, before, after, p, was, q, name, k) && OwnOk(before, own)
    ensures OwnOk(after, own)
  {
    hide ListingOk, Tiles, LookupName, Ordinary, Parent, MovedLookup;
    forall x | x in before ensures NodeBlocks(after[x]) == NodeBlocks(before[x]) {
      if IsDir(before, x) {
        assert MovedDir(size, before, after, p, was, q, name, k, x);
      }
    }
    hide NodeBlocks, MoveStep;
    MoveStepKeys(size, before, after, p, was, q, name, k);
  }

  lemma MoveStepTree(size: nat, before: map<nat, Node>, up: map<nat, Place>, after: map<nat, Node>,
                     p: nat, was: Name, q: nat, name: Name, k: nat)
    requires TreeOk(size, before, up) && MoveStep(size, before, after, p, was, q, name, k)
    requires k in up && up[k] == Place(p, was)
    ensures TreeOk(size, after, up[k := Place(q, name)])
  {
    hide *;
    var up' := up[k := Place(q, name)];
    MoveStepKeys(size, before, after, p, was, q, name, k);
    TreeUpKeys(size, before, up);
    assert after.Keys - {ROOT} == up'.Keys;
    MoveDirs(size, before, up, after, p, was, q, name, k);
    forall x | x in up' ensures Entered(after, up', x) {
      MoveUpAt(size, before, up, after, p, was, q, name, k, x);
    }
    EnteredUp(after, up');
    forall d, n ensures Listed(after, up', d, n) {
      MoveDownAt(size, before, up, after, p, was, q, name, k, d, n);
    }
    ListedDown(after, up');
    TreeParts(size, after, up');
  }

  lemma MoveDirs(size: nat, before: map<nat, Node>, up: map<nat, Place>, after: map<nat, Node>,
                 p: nat, was: Name, q: nat, name: Name, k: nat)
    requires TreeOk(size, before, up) && MoveStep(size, before, after, p, was, q, name, k) && k != ROOT
    ensures RootOk(after) && DirsOk(size, after)
  {
    hide ListingOk, Tiles, LookupName, Ordinary, Parent, UpOk, DownOk, MovedLookup;
    assert IsDir(before, ROOT) && MovedDir(size, before, after, p, was, q, name, k, ROOT);
    forall x | IsDir(after, x) ensures ListingOk(x, after[x].entries) && Tiles(after[x].entries, size) {
      assert IsDir(before, x);
      assert MovedDir(size, before, after, p, was, q, name, k, x);
    }
  }

  lemma TreeParts(size: nat, nodes: map<nat, Node>, up: map<nat, Place>)
    requires RootOk(nodes) && DirsOk(size, nodes) && UpOk(nodes, up) && DownOk(nodes, up)
    ensures TreeOk(size, nodes, up)
  {
  }

  lemma MoveUpAt(size: nat, before: map<nat, Node>, up: map<nat, Place>, after: map<nat, Node>,
                 p: nat, was: Name, q: nat, name: Name, k: nat, x: nat)
    requires TreeOk(size, before, up) && MoveStep(size, before, after, p, was, q, name, k)
    requires k in up && up[k] == Place(p, was) && x in up
    ensures Entered(after, up[k := Place(q, name)], x)
  {
    hide ListingOk, Tiles, LookupName, Ordinary, Parent, FileTypeOf, DirsOk, DownOk, RootOk, UpOk;
    UpEntered(before, up, x);
    UpEntered(before, up, k);
    var d := if x == k then q else up[x].dir;
    assert MovedDir(size, before, after, p, was, q, name, k, d);
    if before[x].Dir? {
      assert IsDir(before, x);
      assert MovedDir(size, before, after, p, was, q, name, k, x);
      SameFileType(before[x], after[x]);
    }
  }

  lemma MoveDownAt(size: nat, before: map<nat, Node>, up: map<nat, Place>, after: map<nat, Node>,
                   p: nat, was: Name, q: nat, name: Name, k: nat, d: nat, n: Name)
    requires TreeOk(size, before, up) && MoveStep(size, before, after, p, was, q, name, k)
    requires k in up && up[k] == Place(p, was)
    ensures Listed(after, up[k := Place(q, name)], d, n)
  {
    hide ListingOk, Tiles, LookupName, Ordinary, Parent, FileTypeOf, DirsOk, DownOk, RootOk, UpOk;
    DownListed(before, up, d, n);
    UpEntered(before, up, k);
    if IsDir(after, d) {
      assert IsDir(before, d);
      assert MovedDir(size, before, after, p, was, q, name, k, d);
    }
  }

  // ----- resizing -----

  /** The file keeps its first `keep` blocks; the rest are lost until freed. */
  function Resize(c: Catalog, k: nat, size: nat, keep: nat): Catalog
    requires k in c.nodes && c.nodes[k].File? && keep <= |c.nodes[k].blocks|
  {
    var f := c.nodes[k];
    var cut := RunBlocks(f.start + keep, |f.blocks| - keep);
    c.(nodes := c.nodes[k := File(f.start, size, f.blocks[..keep])], own := c.own - cut,
       lostBlocks := c.lostBlocks + cut)
  }

  lemma ResizeOk(dirSize: nat, c: Catalog, k: nat, size: nat, keep: nat)
    requires CatalogOk(dirSize, c) && k in c.nodes && c.nodes[k].File? && keep <= |c.nodes[k].blocks|
    ensures CatalogOk(dirSize, Resize(c, k, size, keep))
  {
    hide ListingOk, Tiles, LookupName, Ordinary, Parent, OwnOk;
    var r := Resize(c, k, size, keep);
    assert forall x :: x in c.nodes ==> FileTypeOf(r.nodes[x]) == FileTypeOf(c.nodes[x]);
    assert forall x :: IsDir(r.nodes, x) <==> IsDir(c.nodes, x);
    assert TreeOk(dirSize, r.nodes, r.up) by {
      hide FileTypeOf;
      forall x | x in r.up ensures Entered(r.nodes, r.up, x) {
        UpEntered(c.nodes, c.up, x);
      }
      hide UpOk;
      UpKeys(c.nodes, c.up);
      EnteredUp(r.nodes, r.up);
    }
    hide TreeOk;
    ResizeOwn(c, k, size, keep);
  }

  lemma ResizeOwn(c: Catalog, k: nat, size: nat, keep: nat)
    requires OwnOk(c.nodes, c.own) && LostOk(c) && k in c.nodes && c.nodes[k].File? && keep <= |c.nodes[k].blocks|
    ensures var r := Resize(c, k, size, keep); OwnOk(r.nodes, r.own) && LostOk(r)
  {
    hide RunBlocks;
    var r := Resize(c, k, size, keep);
    var f := c.nodes[k];
    var cut := RunBlocks(f.start + keep, |f.blocks| - keep);
    assert NodeBlocks(f) == NodeBlocks(r.nodes[k]) + cut && NodeBlocks(r.nodes[k]) !! cut;
    assert forall x :: x in c.nodes && x != k ==> NodeBlocks(r.nodes[x]) == NodeBlocks(c.nodes[x]);
    hide NodeBlocks, Resize;
    forall x, b | x in r.nodes && b in NodeBlocks(r.nodes[x]) ensures b in r.own && r.own[b] == x {
      assert b in NodeBlocks(c.nodes[x]);
      assert c.own[b] == x;
    }
    forall b | b in r.own ensures r.own[b] in r.nodes && b in NodeBlocks(r.nodes[r.own[b]]) {
      assert b in NodeBlocks(c.nodes[c.own[b]]);
    }
  }

  // ----- directory counts -----

  predicate IsSubdir(nodes: map<nat, Node>, up: map<nat, Place>, p: nat, x: nat) {
    x in up && up[x].dir == p && IsDir(nodes, x)
  }

  function Subdirs(nodes: map<nat, Node>, up: map<nat, Place>, p: nat): (r: set<nat>)
    ensures forall x :: x in r <==> IsSubdir(nodes, up, p, x)
  {
    set x | x in up && IsSubdir(nodes, up, p, x)
  }

  function DirSet(nodes: map<nat, Node>): (r: set<nat>)
    ensures forall x :: x in r <==> IsDir(nodes, x)
  {
    set x | x in nodes && IsDir(nodes, x)
  }

  /** The two trees have the same directories, entered in the same places, `k` aside. */
  ghost predicate SameDirsBut(nodes: map<nat, Node>, up: map<nat, Place>, after: map<nat, Node>, up': map<nat, Place>,
                              k: nat) {
    forall y :: y != k ==>
      (IsDir(after, y) <==> IsDir(nodes, y)) && (y in up' <==> y in up) && (y in up ==> up'[y].dir == up[y].dir)
  }

  lemma SubdirsBut(nodes: map<nat, Node>, up: map<nat, Place>, after: map<nat, Node>, up': map<nat, Place>, k: nat,
                   x: nat)
    requires SameDirsBut(nodes, up, after, up', k)
    ensures Subdirs(after, up', x) - {k} == Subdirs(nodes, up, x) - {k}
    ensures DirSet(after) - {k} == DirSet(nodes) - {k}
  {
    hide Subdirs, DirSet, IsDir;
    forall y ensures y in Subdirs(after, up', x) - {k} <==> y in Subdirs(nodes, up, x) - {k} {
      if y != k {
        assert IsSubdir(after, up', x, y) <==> IsSubdir(nodes, up, x, y);
      }
    }
    assert forall y :: y in DirSet(after) - {k} <==> y in DirSet(nodes) - {k};
  }

  lemma SizeWithout(s: set<nat>, k: nat)
    ensures |s| == |s - {k}| + if k in s then 1 else 0
  {
    if k in s {
      assert s == s - {k} + {k};
    } else {
      assert s == s - {k};
    }
  }

  /** How one inode's coming, going or moving changes every directory's count. */
  lemma CountsBut(nodes: map<nat, Node>, up: map<nat, Place>, after: map<nat, Node>, up': map<nat, Place>, k: nat,
                  x: nat)
    requires SameDirsBut(nodes, up, after, up', k)
    ensures |Subdirs(after, up', x)| - |Subdirs(nodes, up, x)| ==
            (if IsSubdir(after, up', x, k) then 1 else 0) - (if IsSubdir(nodes, up, x, k) then 1 else 0)
    ensures |DirSet(after)| - |DirSet(nodes)| == (if IsDir(after, k) then 1 else 0) - (if IsDir(nodes, k) then 1 else 0)
  {
    SubdirsBut(nodes, up, after, up', k, x);
    hide SameDirsBut, Subdirs, DirSet, IsDir, IsSubdir;
    SizeWithout(Subdirs(after, up', x), k);
    SizeWithout(Subdirs(nodes, up, x), k);
    SizeWithout(DirSet(after), k);
    SizeWithout(DirSet(nodes), k);
  }

  // ----- how many subdirectories a directory can have -----

  /** Each subdirectory has its own record in the one block, and a record takes twelve bytes. */
  lemma SubdirRoom(size: nat, nodes: map<nat, Node>, up: map<nat, Place>, p: nat)
    requires TreeOk(size, nodes, up) && IsDir(nodes, p)
    ensures 12 * (|Subdirs(nodes, up, p)| + 2) <= size
  {
    var es := nodes[p].entries;
    ListingRoom(p, es, size);
    ListingHasDots(p, es);
    hide ListingOk, Tiles, Parent, FileTypeOf, DownOk, RootOk;
    var subdirs := Subdirs(nodes, up, p);
    var f := map x | x in subdirs :: (if Find(es, up[x].name).Some? then Find(es, up[x].name).value else 0);
    forall x | x in subdirs ensures 2 <= f[x] < |es| && es[f[x]].inode == x {
      assert IsSubdir(nodes, up, p, x);
      LookupHit(p, es, up[x].name);
    }
    hide UpOk, Find, LookupName;
    InjectionBound(subdirs, f, |es|);
  }

  lemma {:induction false} InjectionBound(s: set<nat>, f: map<nat, nat>, n: nat)
    requires n >= 2 && s <= f.Keys
    requires forall x :: x in s ==> 2 <= f[x] < n
    requires forall x, y :: x in s && y in s && x != y ==> f[x] != f[y]
    ensures |s| + 2 <= n
    decreases n
  {
    if s != {} {
      if exists x :: x in s && f[x] == n - 1 {
        var x :| x in s && f[x] == n - 1;
        InjectionBound(s - {x}, f, n - 1);
      } else {
        var x :| x in s;
        assert 2 <= f[x] < n - 1;
        InjectionBound(s, f, n - 1);
      }
    }
  }
}
