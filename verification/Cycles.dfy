/** A cycle is a property of the disk, not of the catalog chosen to describe it: two catalogs
    that fit one disk agree on every directory reached from the root. */
module Cycles {
  import opened Listings
  import opened Superblocks
  import opened Inodes
  import opened Catalogs
  import opened Moves
  import opened Disks
  import opened DiskFacts
  import opened Removals
  import opened Dots

  /** No catalog that fits the disk is a tree. */
  ghost predicate Treeless(d: Disk) {
    forall e :: Core(d, e) ==> !Acyclic(e.up)
  }

  lemma UnfitTreeless(d: Disk)
    requires Unfit(d)
    ensures Treeless(d)
  {
    hide Core, Acyclic;
  }

  /** One cyclic catalog that fits is enough. */
  lemma CyclicTreeless(d: Disk, c: Catalog)
    requires Core(d, c) && !Acyclic(c.up)
    ensures Treeless(d)
  {
    hide Core, Acyclic;
    forall e | Core(d, e) ensures !Acyclic(e.up) {
      if Acyclic(e.up) {
        OneTree(d, c, e);
      }
    }
  }

  lemma OneTree(d: Disk, c: Catalog, e: Catalog)
    requires Core(d, c) && Core(d, e) && Acyclic(e.up)
    ensures Acyclic(c.up)
  {
    hide Core, Acyclic, TreeOk, UpOk, NodesOk, Drawn, Below, CatalogOk;
    BaseFacts(d, c);
    BaseFacts(d, e);
    CoreTree(d, c);
    CoreTree(d, e);
    DrawnStart(d, e);
    SameDirs(d, c, e);
    forall k | k in c.up ensures Below(c.up, k, ROOT) {
      var x := if IsDir(c.nodes, k) then k else c.up[k].dir;
      ParentIsDir(c.nodes, c.up, k);
      var n := StepsToRoot(e.nodes, e.up, x);
      ClimbsAlike(d, c, e, x, n);
      ClimbBelow(c.up, k, x, n);
    }
    AcyclicIntro(c.up);
  }

  lemma AcyclicIntro(up: map<nat, Place>)
    requires forall k :: k in up ==> Below(up, k, ROOT)
    ensures Acyclic(up)
  {
    hide Below;
  }

  lemma ParentIsDir(nodes: map<nat, Node>, up: map<nat, Place>, k: nat)
    requires UpOk(nodes, up) && k in up
    ensures IsDir(nodes, up[k].dir)
  {
    hide LookupName, Ordinary, FileTypeOf;
  }

  lemma ClimbBelow(up: map<nat, Place>, k: nat, x: nat, n: nat)
    requires k in up && (x == k || x == up[k].dir) && Climb(up, x, n) == ROOT
    ensures Below(up, k, ROOT)
  {
    if x != k {
      assert Climb(up, k, n + 1) == ROOT;
    }
  }

  lemma CoreTree(d: Disk, c: Catalog)
    requires Core(d, c)
    ensures d.sb.blockSize > 0 && TreeOk(d.sb.blockSize, c.nodes, c.up) && UpOk(c.nodes, c.up) && IsDir(c.nodes, ROOT)
    ensures NodesOk(d.sb.blockSize, d.inodes, d.data, c.nodes) && c.up.Keys == c.nodes.Keys - {ROOT}
    ensures d.gd.usedDirsCount == |DirSet(c.nodes)|
  {
    hide UpOk, DownOk, DirsOk, OwnOk, LostOk, NodesOk, LinksOk, BitmapsOk, DirSet, FirstData;
    UpKeysOf(c.nodes, c.up);
  }

  lemma UpKeysOf(nodes: map<nat, Node>, up: map<nat, Place>)
    requires UpOk(nodes, up)
    ensures up.Keys == nodes.Keys - {ROOT}
  {
    hide LookupName, Ordinary, FileTypeOf;
  }

  /** Every directory of a tree that fits is one of `c`, with the same records; the directory
      count leaves `c` no others. */
  lemma SameDirs(d: Disk, c: Catalog, e: Catalog)
    requires Core(d, c) && Core(d, e) && Acyclic(e.up) && d.sb.blockSize > 0 && Drawn(d, e, AsListed(e))
    ensures forall x :: IsDir(c.nodes, x) ==> IsDir(e.nodes, x)
  {
    hide Core, Acyclic, TreeOk, UpOk, NodesOk, Drawn, Below, CatalogOk, DirSet;
    CoreTree(d, c);
    CoreTree(d, e);
    forall x | x in DirSet(e.nodes) ensures x in DirSet(c.nodes) {
      DirSetHas(e.nodes, x);
      var n := StepsToRoot(e.nodes, e.up, x);
      StillLive(d, e, AsListed(e), c, x, n);
      DirSetHas(c.nodes, x);
    }
    SameWhole(DirSet(e.nodes), DirSet(c.nodes));
    forall x | IsDir(c.nodes, x) ensures IsDir(e.nodes, x) {
      DirSetHas(c.nodes, x);
      DirSetHas(e.nodes, x);
    }
  }

  lemma DirSetHas(nodes: map<nat, Node>, x: nat)
    ensures x in DirSet(nodes) <==> IsDir(nodes, x)
  {
  }

  lemma SameWhole(a: set<nat>, b: set<nat>)
    requires a <= b && |a| == |b|
    ensures a == b
  {
    assert |b - a| == 0;
  }

  /** Where a tree enters an inode, every fitting catalog enters it. */
  lemma {:induction false} ClimbsAlike(d: Disk, c: Catalog, e: Catalog, x: nat, n: nat)
    requires d.sb.blockSize > 0 && Drawn(d, e, AsListed(e)) && UpOk(e.nodes, e.up) && IsDir(e.nodes, ROOT)
    requires TreeOk(d.sb.blockSize, c.nodes, c.up) && NodesOk(d.sb.blockSize, d.inodes, d.data, c.nodes)
    requires x in e.nodes && e.up.Keys == e.nodes.Keys - {ROOT} && c.up.Keys == c.nodes.Keys - {ROOT}
    requires Climb(e.up, x, n) == ROOT
    ensures Climb(c.up, x, n) == ROOT
    decreases n
  {
    hide Drawn, UpOk, TreeOk, NodesOk;
    if n > 0 && x in e.up {
      var p := e.up[x].dir;
      ParentIsDir(e.nodes, e.up, x);
      StillLive(d, e, AsListed(e), c, p, n - 1);
      EnteredAlike(d.sb.blockSize, c, e, x);
      ClimbsAlike(d, c, e, p, n - 1);
    } else if x == ROOT {
      RootClimbs(c.up, n);
    }
  }

  lemma RootClimbs(up: map<nat, Place>, n: nat)
    requires ROOT !in up
    ensures Climb(up, ROOT, n) == ROOT
  {
  }

  lemma EnteredAlike(size: nat, c: Catalog, e: Catalog, x: nat)
    requires TreeOk(size, c.nodes, c.up) && UpOk(e.nodes, e.up) && x in e.up
    requires IsDir(c.nodes, e.up[x].dir) && IsDir(e.nodes, e.up[x].dir)
    requires c.nodes[e.up[x].dir].entries == e.nodes[e.up[x].dir].entries
    ensures x in c.up && c.up[x] == e.up[x]
  {
    hide LookupName, Ordinary, FileTypeOf, DirsOk;
  }
}
