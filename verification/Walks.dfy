/** Paths seen from the other end: which inode a path without dots names is decided by
    the parent links alone, and so is what each operation does to paths. */
module Walks {
  import opened Bytes
  import opened Results
  import opened DirEntries
  import opened Listings
  import opened Paths
  import opened Catalogs
  import opened Operations

  /** No component is `.` or `..`. */
  predicate DotFree(names: seq<Name>) {
    forall i :: 0 <= i < |names| ==> Ordinary(names[i])
  }

  /** Following parent links from `x` spells `names` backwards and ends at the root. */
  predicate Chain(up: map<nat, Place>, names: seq<Name>, x: nat)
    decreases |names|
  {
    if |names| == 0 then x == ROOT
    else x in up && up[x].name == names[|names| - 1] && Chain(up, names[..|names| - 1], up[x].dir)
  }

  /** Components of a path are never empty and hold no slash. */
  lemma {:induction false} ComponentsSlashFree(path: seq<byte>)
    ensures forall i :: 0 <= i < |Components(path)| ==> SlashFree(Components(path)[i])
    decreases |path|
  {
    if |path| > 0 {
      if path[0] == SLASH {
        ComponentsSlashFree(path[1..]);
      } else {
        ComponentsSlashFree(path[NameLen(path)..]);
      }
    }
  }

  /** Walking down a path without dots and climbing up parent links agree: the walk
      reaches `x` exactly when the links from `x` spell the path. */
  lemma {:induction false} WalkIsChain(size: nat, nodes: map<nat, Node>, up: map<nat, Place>, names: seq<Name>, x: nat)
    requires TreeOk(size, nodes, up) && DotFree(names)
    ensures WalkPath(nodes, names, ROOT) == Ok(x) <==> Chain(up, names, x)
    decreases |names|
  {
    hide TreeOk, Ordinary, LookupName;
    if |names| > 0 {
      var front, last := names[..|names| - 1], names[|names| - 1];
      assert names == front + [last] && Ordinary(last);
      WalkAppend(nodes, front, last, ROOT);
      var w := WalkPath(nodes, front, ROOT);
      hide WalkPath;
      if w.Ok? {
        WalkIsChain(size, nodes, up, front, w.value);
        EntryIsUp(size, nodes, up, w.value, last, x);
      }
      if x in up {
        WalkIsChain(size, nodes, up, front, up[x].dir);
        UpIsEntry(size, nodes, up, x);
      }
    }
  }

  lemma EntryIsUp(size: nat, nodes: map<nat, Node>, up: map<nat, Place>, p: nat, name: Name, x: nat)
    requires TreeOk(size, nodes, up) && Ordinary(name)
    ensures IsDir(nodes, p) && LookupName(nodes[p].entries, name).Some? ==>
      (LookupName(nodes[p].entries, name).value.inode == x ==> x in up && up[x] == Place(p, name))
  {
    hide Ordinary, LookupName, UpOk, RootOk, DirsOk, DownOk;
    DownListed(nodes, up, p, name);
  }

  lemma UpIsEntry(size: nat, nodes: map<nat, Node>, up: map<nat, Place>, x: nat)
    requires TreeOk(size, nodes, up) && x in up
    ensures IsDir(nodes, up[x].dir) && LookupName(nodes[up[x].dir].entries, up[x].name).Some?
    ensures LookupName(nodes[up[x].dir].entries, up[x].name).value.inode == x
  {
    hide Ordinary, LookupName, RootOk, DirsOk, DownOk, Parent, FileTypeOf;
    UpEntered(nodes, up, x);
  }

  /** Every inode has at most one path without dots. */
  lemma {:induction false} OnePath(up: map<nat, Place>, a: seq<Name>, b: seq<Name>, x: nat)
    requires ROOT !in up && Chain(up, a, x) && Chain(up, b, x)
    ensures a == b
    decreases |a|
  {
    if |a| > 0 && |b| > 0 {
      OnePath(up, a[..|a| - 1], b[..|b| - 1], up[x].dir);
      assert a == a[..|a| - 1] + [a[|a| - 1]] && b == b[..|b| - 1] + [b[|b| - 1]];
    }
  }

  /** A prefix of the path names an ancestor. */
  lemma {:induction false} ChainClimb(up: map<nat, Place>, names: seq<Name>, x: nat, n: nat)
    requires ROOT !in up && Chain(up, names, x)
    ensures n <= |names| ==> Chain(up, names[..|names| - n], Climb(up, x, n))
    ensures n > |names| ==> Climb(up, x, n) == ROOT
    decreases n
  {
    if n == 0 {
      assert names[..|names|] == names;
    } else if |names| > 0 {
      var front := names[..|names| - 1];
      ChainClimb(up, front, up[x].dir, n - 1);
      if n <= |names| {
        assert front[..|front| - (n - 1)] == names[..|names| - n];
      }
    }
  }

  /** One inode is inside another exactly when its path extends the other's. */
  lemma BelowIffPrefix(up: map<nat, Place>, a: seq<Name>, x: nat, b: seq<Name>, top: nat)
    requires ROOT !in up && Apart(up) && Chain(up, a, x) && Chain(up, b, top)
    ensures Below(up, x, top) <==> b <= a
  {
    if b <= a {
      var n := |a| - |b|;
      ChainClimb(up, a, x, n);
      assert a[..|a| - n] == b;
      SameEnd(up, b, top, Climb(up, x, n));
    }
    if Below(up, x, top) {
      var n: nat :| Climb(up, x, n) == top;
      ChainClimb(up, a, x, n);
      if n <= |a| {
        OnePath(up, a[..|a| - n], b, top);
      } else {
        OnePath(up, [], b, top);
      }
    }
  }

  /** No two inodes are entered in the same place. */
  predicate Apart(up: map<nat, Place>) {
    forall x, y :: x in up && y in up && up[x] == up[y] ==> x == y
  }

  lemma TreeApart(size: nat, nodes: map<nat, Node>, up: map<nat, Place>)
    requires TreeOk(size, nodes, up)
    ensures ROOT !in up && Apart(up)
  {
    TreeUpKeys(size, nodes, up);
    hide TreeOk;
    forall x, y | x in up && y in up && up[x] == up[y] ensures x == y {
      UpIsEntry(size, nodes, up, x);
      UpIsEntry(size, nodes, up, y);
    }
  }

  /** A path without dots names at most one inode. */
  lemma {:induction false} SameEnd(up: map<nat, Place>, names: seq<Name>, x: nat, y: nat)
    requires Apart(up) && Chain(up, names, x) && Chain(up, names, y)
    ensures x == y
    decreases |names|
  {
    if |names| > 0 {
      SameEnd(up, names[..|names| - 1], up[x].dir, up[y].dir);
    }
  }

  lemma ChainStep(up: map<nat, Place>, names: seq<Name>, name: Name, x: nat)
    ensures Chain(up, names + [name], x) <==> x in up && up[x].name == name && Chain(up, names, up[x].dir)
  {
    assert (names + [name])[..|names|] == names;
  }

  // ----- what the operations do to paths -----

  /** A new inode has the one path it was given; every other path means what it meant. */
  lemma {:induction false} ChainEntered(up: map<nat, Place>, k: nat, at: Place, names: seq<Name>, x: nat)
    requires k !in up && k != ROOT && at.dir != k && forall y :: y in up ==> up[y].dir != k
    ensures x != k ==> (Chain(up[k := at], names, x) <==> Chain(up, names, x))
    ensures Chain(up[k := at], names, k) <==>
      |names| > 0 && names[|names| - 1] == at.name && Chain(up, names[..|names| - 1], at.dir)
    decreases |names|
  {
    if |names| > 0 {
      var front := names[..|names| - 1];
      if x in up {
        ChainEntered(up, k, at, front, up[x].dir);
      }
      ChainEntered(up, k, at, front, at.dir);
    }
  }

  /** A removed inode has no path, and every other path means what it meant. */
  lemma {:induction false} ChainRemoved(up: map<nat, Place>, k: nat, names: seq<Name>, x: nat)
    requires k != ROOT && forall y :: y in up ==> up[y].dir != k
    ensures Chain(up - {k}, names, x) <==> x != k && Chain(up, names, x)
    decreases |names|
  {
    if |names| > 0 && x in up {
      ChainRemoved(up, k, names[..|names| - 1], up[x].dir);
    }
  }

  /** What a move does not touch keeps its path. */
  lemma {:induction false} ChainKept(up: map<nat, Place>, k: nat, at: Place, names: seq<Name>, x: nat)
    requires ROOT !in up && k in up && Chain(up, names, x) && !Below(up, x, k)
    ensures Chain(up[k := at], names, x)
    decreases |names|
  {
    assert Climb(up, x, 0) == x;
    if |names| > 0 {
      forall n: nat ensures Climb(up, up[x].dir, n) != k {
        assert Climb(up, x, n + 1) == Climb(up, up[x].dir, n);
      }
      ChainKept(up, k, at, names[..|names| - 1], up[x].dir);
    }
  }

  /** A moved inode carries its whole subtree: whatever was reached under the old path is
      reached under the new one, by the same names. */
  lemma {:induction false} ChainMoved(up: map<nat, Place>, k: nat, at: Place, old': seq<Name>, new': seq<Name>,
                                      rest: seq<Name>, x: nat)
    requires ROOT !in up && Apart(up) && k in up && Chain(up, old', k) && Chain(up, new', at.dir)
    requires !Below(up, at.dir, k) && forall y :: y in up ==> up[y] != at
    ensures Chain(up, old' + rest, x) <==> Chain(up[k := at], new' + [at.name] + rest, x)
    decreases |rest|
  {
    var up' := up[k := at];
    var there := new' + [at.name];
    assert Apart(up');
    ChainKept(up, k, at, new', at.dir);
    ChainStep(up', new', at.name, k);
    if |rest| == 0 {
      assert old' + rest == old' && there + rest == there;
      if Chain(up, old', x) {
        SameEnd(up, old', x, k);
      }
      if Chain(up', there, x) {
        SameEnd(up', there, x, k);
      }
    } else {
      var front, last := rest[..|rest| - 1], rest[|rest| - 1];
      assert old' + rest == (old' + front) + [last] && there + rest == (there + front) + [last];
      ChainStep(up, old' + front, last, x);
      ChainStep(up', there + front, last, x);
      if x == k {
        if Chain(up, old' + rest, k) {
          OnePath(up, old', old' + rest, k);
        }
        if Chain(up', there + rest, k) {
          OnePath(up', there, there + rest, k);
        }
      } else if x in up {
        ChainMoved(up, k, at, old', new', front, up[x].dir);
      }
    }
  }

  // ----- a move, with or without something giving way -----

  /** Taking out inodes nothing is entered in leaves every other climb alone. */
  lemma {:induction false} ClimbWithout(up: map<nat, Place>, gone: set<nat>, x: nat, n: nat)
    requires x !in gone && forall y :: y in up ==> up[y].dir !in gone
    ensures Climb(up - gone, x, n) == Climb(up, x, n)
    decreases n
  {
    if n > 0 && x in up {
      ClimbWithout(up, gone, up[x].dir, n - 1);
    }
  }

  lemma {:induction false} ChainWithout(up: map<nat, Place>, gone: set<nat>, names: seq<Name>, x: nat)
    requires ROOT !in gone && x !in gone && forall y :: y in up ==> up[y].dir !in gone
    ensures Chain(up - gone, names, x) <==> Chain(up, names, x)
    decreases |names|
  {
    if |names| > 0 && x in up {
      ChainWithout(up, gone, names[..|names| - 1], up[x].dir);
    }
  }

  /** Whoever climbs to `k` after the move climbed to it before. */
  lemma {:induction false} BelowBefore(up: map<nat, Place>, k: nat, at: Place, x: nat, n: nat)
    requires Climb(up[k := at], x, n) == k
    ensures Below(up, x, k)
    decreases n
  {
    assert Climb(up, x, 0) == x;
    if n > 0 && x != k && x in up {
      BelowBefore(up, k, at, up[x].dir, n - 1);
      var m: nat :| Climb(up, up[x].dir, m) == k;
      assert Climb(up, x, m + 1) == k;
    }
  }

  /** What lies outside the moved subtree has exactly the paths it had. */
  lemma ChainElsewhere(up: map<nat, Place>, k: nat, at: Place, names: seq<Name>, x: nat)
    requires ROOT !in up && k in up && !Below(up, x, k)
    ensures Chain(up[k := at], names, x) <==> Chain(up, names, x)
  {
    hide Below;
    if Chain(up, names, x) {
      ChainKept(up, k, at, names, x);
    }
    if Chain(up[k := at], names, x) {
      NotBelowAfter(up, k, at, x);
      ChainKept(up[k := at], k, up[k], names, x);
      assert up[k := at][k := up[k]] == up;
    }
  }

  lemma NotBelowAfter(up: map<nat, Place>, k: nat, at: Place, x: nat)
    requires !Below(up, x, k)
    ensures !Below(up[k := at], x, k)
  {
    if Below(up[k := at], x, k) {
      var n: nat :| Climb(up[k := at], x, n) == k;
      BelowBefore(up, k, at, x, n);
    }
  }
}
