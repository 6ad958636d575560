/** What the operations answer, told from the bytes of the paths, the records of the directories
    and the bits alone. No operation uses these definitions. */
module Outcomes {
  import opened Bytes
  import opened Results
  import opened DirEntries
  import opened DirBlocks
  import opened Listings
  import opened Paths
  import opened Superblocks
  import opened Catalogs
  import opened Disks
  import opened Operations
  import opened Removals
  import opened Steps
  import opened Truncations
  import opened Renames
  import opened Mkfs

  // ----- paths -----

  /** `names` are the pieces of `path` between bytes 47, the empty ones left out. */
  predicate Spells(path: seq<byte>, names: seq<Name>)
    decreases |path|
  {
    if |path| == 0 then names == []
    else if path[0] == 47 then Spells(path[1..], names)
    else
      && names != [] && 0 < |names[0]| <= |path| && names[0] == path[..|names[0]|] && 47 !in names[0]
      && (|names[0]| < |path| ==> path[|names[0]|] == 47) && Spells(path[|names[0]|..], names[1..])
  }

  lemma {:induction false} ComponentsSpelled(path: seq<byte>, names: seq<Name>)
    ensures Components(path) == names <==> Spells(path, names)
    decreases |path|
  {
    if |path| > 0 && path[0] == 47 {
      ComponentsSpelled(path[1..], names);
    } else if |path| > 0 && names != [] {
      var n := NameLen(path);
      assert path[0] == path[..n][0];
      if names[0] == path[..n] {
        ComponentsSpelled(path[n..], names[1..]);
        assert names == [names[0]] + names[1..];
      } else {
        OnePiece(path, names[0]);
      }
    }
  }

  /** Only one piece starts a path. */
  lemma OnePiece(path: seq<byte>, name: Name)
    ensures |name| <= |path| && name == path[..|name|] && 47 !in name && (|name| < |path| ==> path[|name|] == 47) ==>
      |name| == NameLen(path)
  {
    hide NameLen;
  }

  /** A path with no final name. */
  predicate Nameless(path: seq<byte>) {
    |path| == 0 || path[0] != 47 || Components(path) == []
  }

  // ----- walking -----

  /** Directory `p` has a record that binds `name` to `k`. */
  predicate Recorded(nodes: map<nat, Node>, p: nat, name: Name, k: nat) {
    p in nodes && nodes[p].Dir?
    && exists j :: 0 <= j < |nodes[p].entries| && nodes[p].entries[j].name == name && nodes[p].entries[j].inode == k
  }

  /** `ids` are the inodes met on the way from the root through records of these names. */
  predicate Trail(nodes: map<nat, Node>, names: seq<Name>, ids: seq<nat>) {
    && |ids| == |names| + 1 && ids[0] == 2
    && forall i :: 0 <= i < |names| ==> Recorded(nodes, ids[i], names[i], ids[i + 1])
  }

  ghost predicate Leads(nodes: map<nat, Node>, names: seq<Name>, k: nat) {
    exists ids :: Trail(nodes, names, ids) && ids[|names|] == k
  }

  /** Looking for `name` in `p` fails. */
  predicate Stops(nodes: map<nat, Node>, p: nat, name: Name, e: Error) {
    if p !in nodes then e == InodeOutOfRange(p)
    else if !nodes[p].Dir? then e == NotADirectory(p)
    else e == NotFound(name) && forall j :: 0 <= j < |nodes[p].entries| ==> nodes[p].entries[j].name != name
  }

  /** The names lead to some inode and no further. */
  ghost predicate Fails(nodes: map<nat, Node>, names: seq<Name>, e: Error) {
    exists i, p :: 0 <= i < |names| && Leads(nodes, names[..i], p) && Stops(nodes, p, names[i], e)
  }

  /** In a listing every name is found at its own record. */
  lemma RecordedFound(size: nat, nodes: map<nat, Node>, p: nat, name: Name)
    requires DirsOk(size, nodes) && IsDir(nodes, p)
    ensures forall k: nat :: Recorded(nodes, p, name, k) <==>
      LookupName(nodes[p].entries, name).Some? && LookupName(nodes[p].entries, name).value.inode == k
    ensures LookupName(nodes[p].entries, name) == None <==>
      forall j :: 0 <= j < |nodes[p].entries| ==> nodes[p].entries[j].name != name
  {
    var es := nodes[p].entries;
    forall j | 0 <= j < |es| && es[j].name == name ensures LookupName(es, name) == Some(BindingOf(es[j])) {
      LookupAt(p, es, j);
    }
    if LookupName(es, name).Some? {
      LookupHit(p, es, name);
    }
    hide Find, FindBinding, Tiles;
  }

  lemma {:induction false} WalkMeans(size: nat, nodes: map<nat, Node>, names: seq<Name>)
    requires DirsOk(size, nodes)
    ensures forall k: nat :: WalkPath(nodes, names, ROOT) == Ok(k) <==> Leads(nodes, names, k)
    decreases |names|
  {
    hide DirsOk, LookupName, Recorded;
    if |names| == 0 {
      assert Trail(nodes, names, [ROOT]);
    } else {
      var n := |names| - 1;
      var front, name := names[..n], names[n];
      assert names == front + [name];
      WalkMeans(size, nodes, front);
      WalkAppend(nodes, front, name, ROOT);
      hide WalkPath, Trail;
      forall k: nat ensures WalkPath(nodes, names, ROOT) == Ok(k) <==> Leads(nodes, names, k) {
        LeadsOn(nodes, front, name, k);
        if WalkPath(nodes, front, ROOT).Ok? {
          var p := WalkPath(nodes, front, ROOT).value;
          if IsDir(nodes, p) {
            RecordedFound(size, nodes, p, name);
          } else {
            NotRecorded(nodes, p, name, k);
          }
        }
      }
    }
  }

  lemma NotRecorded(nodes: map<nat, Node>, p: nat, name: Name, k: nat)
    requires !IsDir(nodes, p)
    ensures !Recorded(nodes, p, name, k)
  {
  }

  lemma LeadsOn(nodes: map<nat, Node>, front: seq<Name>, name: Name, k: nat)
    ensures Leads(nodes, front + [name], k) <==> exists p :: Leads(nodes, front, p) && Recorded(nodes, p, name, k)
  {
    hide Recorded;
    var names := front + [name];
    if Leads(nodes, names, k) {
      var ids :| Trail(nodes, names, ids) && ids[|names|] == k;
      var back := ids[..|front| + 1];
      assert forall i :: 0 <= i < |front| ==> Recorded(nodes, ids[i], names[i], ids[i + 1]);
      assert Trail(nodes, front, back);
      assert Leads(nodes, front, back[|front|]) && Recorded(nodes, ids[|front|], names[|front|], ids[|front| + 1]);
    }
    if exists p :: Leads(nodes, front, p) && Recorded(nodes, p, name, k) {
      var p :| Leads(nodes, front, p) && Recorded(nodes, p, name, k);
      var ids :| Trail(nodes, front, ids) && ids[|front|] == p;
      var on := ids + [k];
      forall i | 0 <= i < |names| ensures Recorded(nodes, on[i], names[i], on[i + 1]) {
        if i < |front| {
          assert Recorded(nodes, ids[i], front[i], ids[i + 1]);
        }
      }
      assert Trail(nodes, names, on);
    }
  }

  /** The walk's errors: where it stops and why. */
  lemma {:induction false} WalkFails(size: nat, nodes: map<nat, Node>, names: seq<Name>, e: Error)
    requires DirsOk(size, nodes)
    ensures WalkPath(nodes, names, ROOT) == Err(e) <==> Fails(nodes, names, e)
    decreases |names|
  {
    hide DirsOk, LookupName, Leads;
    if |names| > 0 {
      var n := |names| - 1;
      var front, name := names[..n], names[n];
      assert names == front + [name];
      WalkFails(size, nodes, front, e);
      WalkAppend(nodes, front, name, ROOT);
      WalkMeans(size, nodes, front);
      FailsOn(nodes, front, name, e);
      hide WalkPath, Fails;
      forall p ensures IsDir(nodes, p) ==> (Stops(nodes, p, name, e) <==>
        LookupName(nodes[p].entries, name) == None && e == NotFound(name))
      {
        if IsDir(nodes, p) {
          RecordedFound(size, nodes, p, name);
        }
      }
    }
  }

  lemma FailsOn(nodes: map<nat, Node>, front: seq<Name>, name: Name, e: Error)
    ensures Fails(nodes, front + [name], e) <==>
      Fails(nodes, front, e) || exists p :: Leads(nodes, front, p) && Stops(nodes, p, name, e)
  {
    hide Leads, Stops, Fails;
    if Fails(nodes, front + [name], e) {
      FailsBefore(nodes, front, name, e);
    }
    if Fails(nodes, front, e) || exists p :: Leads(nodes, front, p) && Stops(nodes, p, name, e) {
      FailsStill(nodes, front, name, e);
    }
  }

  lemma FailsBefore(nodes: map<nat, Node>, front: seq<Name>, name: Name, e: Error)
    requires Fails(nodes, front + [name], e)
    ensures Fails(nodes, front, e) || exists p :: Leads(nodes, front, p) && Stops(nodes, p, name, e)
  {
    hide Leads, Stops;
    var names := front + [name];
    var i, p :| 0 <= i < |names| && Leads(nodes, names[..i], p) && Stops(nodes, p, names[i], e);
    assert names[..i] == front[..i];
    if i == |front| {
      assert front[..i] == front;
    } else {
      assert names[i] == front[i];
    }
  }

  lemma FailsStill(nodes: map<nat, Node>, front: seq<Name>, name: Name, e: Error)
    requires Fails(nodes, front, e) || exists p :: Leads(nodes, front, p) && Stops(nodes, p, name, e)
    ensures Fails(nodes, front + [name], e)
  {
    hide Leads, Stops;
    var names := front + [name];
    if Fails(nodes, front, e) {
      var i, p :| 0 <= i < |front| && Leads(nodes, front[..i], p) && Stops(nodes, p, front[i], e);
      assert names[..i] == front[..i] && names[i] == front[i];
      assert Leads(nodes, names[..i], p) && Stops(nodes, p, names[i], e);
    } else {
      var p :| Leads(nodes, front, p) && Stops(nodes, p, name, e);
      assert names[..|front|] == front;
      assert Leads(nodes, names[..|front|], p) && Stops(nodes, p, names[|front|], e);
    }
  }

  // ----- where a path aims -----

  function Front(path: seq<byte>): seq<Name>
    requires !Nameless(path)
  {
    Components(path)[..|Components(path)| - 1]
  }

  function Final(path: seq<byte>): Name
    requires !Nameless(path)
  {
    Components(path)[|Components(path)| - 1]
  }

  /** The path ends in `name`, and what precedes that leads to directory `p`. */
  ghost predicate Aims(nodes: map<nat, Node>, path: seq<byte>, p: nat, name: Name) {
    !Nameless(path) && name == Final(path) && Leads(nodes, Front(path), p) && p in nodes && nodes[p].Dir?
  }

  /** It does not, and why. */
  ghost predicate Astray(nodes: map<nat, Node>, path: seq<byte>, e: Error) {
    if Nameless(path) then e == InvalidLayout
    else
      || Fails(nodes, Front(path), e)
      || exists p :: Leads(nodes, Front(path), p) && !IsDir(nodes, p) && e == NotADirectory(p)
  }

  lemma SplitMeans(path: seq<byte>)
    ensures if Nameless(path) then SplitPath(path) == Err(InvalidLayout)
      else
        && SplitPath(path).Ok? && Components(SplitPath(path).value.0) == Front(path)
        && SplitPath(path).value.1 == Final(path)
  {
    SplitAgreesWithWalk(path);
    hide Components, TrimEnd, LastSlash;
  }

  lemma AimMeans(size: nat, nodes: map<nat, Node>, path: seq<byte>)
    requires DirsOk(size, nodes)
    ensures forall p: nat, name :: Aim(nodes, path) == Ok(Place(p, name)) <==> Aims(nodes, path, p, name)
    ensures forall e :: Aim(nodes, path) == Err(e) <==> Astray(nodes, path, e)
  {
    hide SplitPath, DirsOk, WalkPath, Components, Leads, Fails, Nameless, Front, Final;
    SplitMeans(path);
    if !Nameless(path) {
      WalkMeans(size, nodes, Front(path));
      forall e ensures WalkPath(nodes, Front(path), ROOT) == Err(e) <==> Fails(nodes, Front(path), e) {
        WalkFails(size, nodes, Front(path), e);
      }
    }
  }

  /** Some record bears the name. */
  predicate Taken(nodes: map<nat, Node>, p: nat, name: Name) {
    IsDir(nodes, p) && exists j :: 0 <= j < |nodes[p].entries| && nodes[p].entries[j].name == name
  }

  ghost predicate Found(nodes: map<nat, Node>, path: seq<byte>, p: nat, name: Name, k: nat) {
    Aims(nodes, path, p, name) && Recorded(nodes, p, name, k)
  }

  ghost predicate Missing(nodes: map<nat, Node>, path: seq<byte>, e: Error) {
    || Astray(nodes, path, e)
    || exists p, name :: Aims(nodes, path, p, name) && !Taken(nodes, p, name) && e == NotFound(name)
  }

  lemma TakenMeans(size: nat, nodes: map<nat, Node>, p: nat, name: Name)
    requires DirsOk(size, nodes) && IsDir(nodes, p)
    ensures LookupName(nodes[p].entries, name).Some? <==> Taken(nodes, p, name)
    ensures forall k: nat :: Recorded(nodes, p, name, k) <==>
      LookupName(nodes[p].entries, name).Some? && LookupName(nodes[p].entries, name).value.inode == k
    ensures |nodes[p].entries| > 0
  {
    hide LookupName, Recorded, Tiles;
    RecordedFound(size, nodes, p, name);
  }

  lemma OccupantMeans(size: nat, nodes: map<nat, Node>, path: seq<byte>)
    requires DirsOk(size, nodes)
    ensures forall p: nat, name, k: nat :: Occupant(nodes, path) == Ok((Place(p, name), k)) <==>
      Found(nodes, path, p, name, k)
    ensures forall e :: Occupant(nodes, path) == Err(e) <==> Missing(nodes, path, e)
  {
    hide DirsOk, Aims, Astray, Recorded, Taken, LookupName, Aim;
    AimMeans(size, nodes, path);
    if Aim(nodes, path).Ok? {
      var at := Aim(nodes, path).value;
      assert Aims(nodes, path, at.dir, at.name);
      TakenMeans(size, nodes, at.dir, at.name);
    }
  }

  // ----- creating -----

  /** What a record for `name` takes: header and name, in steps of four. */
  function Takes(name: Name): nat {
    (8 + |name| + 3) / 4 * 4
  }

  /** What the last record of a directory can give away. */
  function Spare(es: seq<DirEntry>): int
    requires |es| > 0
  {
    es[|es| - 1].recLen - Takes(es[|es| - 1].name)
  }

  predicate Refuses(es: seq<DirEntry>, name: Name, e: Error)
    requires |es| > 0
  {
    if Takes(name) % 0x1_0000 > Spare(es) then e == UnsupportedV0
    else if Spare(es) < 8 then e == DirEntryEncode(RecLenBelowHeaderSize)
    else |name| > 255 && e == DirEntryEncode(NameTooLong)
  }

  lemma RoomMeans(es: seq<DirEntry>, name: Name)
    requires |es| > 0
    ensures CarveFault(es, name) == None <==> |name| <= 255 && Takes(name) <= Spare(es)
    ensures forall e :: CarveFault(es, name) == Some(e) <==> Refuses(es, name, e)
  {
    assert Takes(name) == Actual(name) && Takes(Last(es).name) == Actual(Last(es).name);
    CarveFits(es, name);
    hide Takes, Actual;
  }

  /** Creating something of `count` blocks: accepted, or refused with this error. */
  ghost predicate Creation(d: Disk, nodes: map<nat, Node>, path: seq<byte>, count: nat, f: Option<Error>) {
    match f
    case None =>
      exists p, name :: Aims(nodes, path, p, name) && !Taken(nodes, p, name) && !NoFreeInode(d) && !NoFreeRun(d, count)
        && |nodes[p].entries| > 0 && |name| <= 255 && Takes(name) <= Spare(nodes[p].entries)
    case Some(e) =>
      Astray(nodes, path, e)
      || exists p, name :: Aims(nodes, path, p, name) && CreationRefused(d, nodes, p, name, count, e)
  }

  ghost predicate CreationRefused(d: Disk, nodes: map<nat, Node>, p: nat, name: Name, count: nat, e: Error) {
    if Taken(nodes, p, name) then e == AlreadyExists(name)
    else if NoFreeInode(d) then e == NoSpace(Inodes)
    else if NoFreeRun(d, count) then e == NoSpace(Blocks)
    else IsDir(nodes, p) && |nodes[p].entries| > 0 && Refuses(nodes[p].entries, name, e)
  }

  lemma CreateMeans(size: nat, d: Disk, c: Catalog, path: seq<byte>, count: nat, f: Option<Error>)
    requires DirsOk(size, c.nodes)
    ensures CreateFault(d, c, path, count) == f <==> Creation(d, c.nodes, path, count, f)
  {
    hide DirsOk, Aims, Astray, Taken, LookupName, Aim, NoFreeInode, NoFreeRun, CarveFault, Takes, Spare, Refuses;
    hide Recorded;
    AimMeans(size, c.nodes, path);
    if Aim(c.nodes, path).Ok? {
      var at := Aim(c.nodes, path).value;
      assert Aims(c.nodes, path, at.dir, at.name);
      TakenMeans(size, c.nodes, at.dir, at.name);
      RoomMeans(c.nodes[at.dir].entries, at.name);
    }
  }

  // ----- removing -----

  ghost predicate Unlinking(nodes: map<nat, Node>, path: seq<byte>, f: Option<Error>) {
    match f
    case None => exists p, name, k :: Found(nodes, path, p, name, k) && !IsDir(nodes, k)
    case Some(e) =>
      Missing(nodes, path, e)
      || exists p, name, k :: Found(nodes, path, p, name, k) && IsDir(nodes, k) && e == IsADirectory(k)
  }

  lemma UnlinkMeans(size: nat, nodes: map<nat, Node>, path: seq<byte>, f: Option<Error>)
    requires DirsOk(size, nodes)
    ensures UnlinkFault(nodes, path) == f <==> Unlinking(nodes, path, f)
  {
    hide DirsOk, Found, Missing, Occupant, IsDir;
    OccupantMeans(size, nodes, path);
    if Occupant(nodes, path).Ok? {
      var (at, k) := Occupant(nodes, path).value;
      assert Found(nodes, path, at.dir, at.name, k);
    }
  }

  ghost predicate Emptying(nodes: map<nat, Node>, path: seq<byte>, f: Option<Error>) {
    match f
    case None => exists p, name, k :: Found(nodes, path, p, name, k) && EmptyingOf(nodes, k, None)
    case Some(e) =>
      Missing(nodes, path, e) || exists p, name, k :: Found(nodes, path, p, name, k) && EmptyingOf(nodes, k, Some(e))
  }

  /** rmdir, once it knows the inode. */
  predicate EmptyingOf(nodes: map<nat, Node>, k: nat, f: Option<Error>) {
    if k == 2 then f == Some(DirectoryNotEmpty(2))
    else if !(k in nodes && nodes[k].Dir?) then f == Some(NotADirectory(k))
    else if |nodes[k].entries| > 2 then f == Some(DirectoryNotEmpty(k))
    else f == None
  }

  lemma RmdirMeans(size: nat, nodes: map<nat, Node>, path: seq<byte>, f: Option<Error>)
    requires DirsOk(size, nodes)
    ensures RmdirFault(nodes, path) == f <==> Emptying(nodes, path, f)
  {
    hide DirsOk, Found, Missing, Occupant;
    OccupantMeans(size, nodes, path);
    if Occupant(nodes, path).Ok? {
      var (at, k) := Occupant(nodes, path).value;
      assert Found(nodes, path, at.dir, at.name, k);
    }
  }

  // ----- resizing -----

  ghost predicate Truncating(blockSize: nat, nodes: map<nat, Node>, path: seq<byte>, newSize: nat, f: Option<Error>)
    requires blockSize > 0
  {
    || (f.Some? && Fails(nodes, Components(path), f.value))
    || exists k :: Leads(nodes, Components(path), k) && TruncatingOf(blockSize, nodes, k, newSize, f)
  }

  predicate TruncatingOf(blockSize: nat, nodes: map<nat, Node>, k: nat, newSize: nat, f: Option<Error>)
    requires blockSize > 0
  {
    if k !in nodes || !nodes[k].File? then f == Some(NotARegularFile(k))
    else f == if newSize <= (nodes[k].size + blockSize - 1) / blockSize * blockSize then None else Some(UnsupportedV0)
  }

  /** truncate accepts exactly the files and sizes within their last block. */
  lemma TruncateMeans(d: Disk, c: Catalog, path: seq<byte>, newSize: nat, f: Option<Error>)
    requires Core(d, c) && d.sb.blockSize > 0
    ensures TruncateFault(d.sb.blockSize, c.nodes, path, newSize) == f <==>
      Truncating(d.sb.blockSize, c.nodes, path, newSize, f)
  {
    hide Core, Components, Leads, Fails, DirsOk, WalkPath, Capacity, TruncateFault;
    DirsFromCore(d, c);
    WalkMeans(d.sb.blockSize, c.nodes, Components(path));
    if f.Some? {
      WalkFails(d.sb.blockSize, c.nodes, Components(path), f.value);
    }
    TruncateAnswers(d, c, path, newSize);
  }

  lemma DirsFromCore(d: Disk, c: Catalog)
    requires Core(d, c)
    ensures DirsOk(d.sb.blockSize, c.nodes)
  {
    hide DirsOk, UpOk, DownOk, OwnOk, LostOk, TreeOnDisk, BitmapsOk, Geometry, Sized;
  }

  // ----- formatting -----

  /** format accepts four block sizes, enough inodes, and room for the metadata and the root's block. */
  lemma LayoutMeans(config: Config)
    ensures LayoutFault(config).None? <==>
      && (config.blockSize == 1024 || config.blockSize == 2048 || config.blockSize == 4096 || config.blockSize == 65536)
      && config.inodesPerGroup >= 11
      && config.sizeBlocks >= 5 + (config.inodesPerGroup * 256 + config.blockSize - 1) / config.blockSize
    ensures LayoutFault(config).Some? ==> LayoutFault(config) == Some(InvalidLayout)
  {
  }

  // ----- renaming -----

  /** The decision of rename: keep, move, replace, or refuse with this error. */
  ghost predicate Renaming(nodes: map<nat, Node>, oldPath: seq<byte>, newPath: seq<byte>, plan: Plan) {
    if Nameless(oldPath) || Nameless(newPath) then plan == Refuse(InvalidLayout)
    else
      || (plan.Refuse? && Missing(nodes, oldPath, plan.error))
      || exists p, was, k :: Found(nodes, oldPath, p, was, k) && RenamingOf(nodes, p, was, k, newPath, plan)
  }

  ghost predicate RenamingOf(nodes: map<nat, Node>, p: nat, was: Name, k: nat, newPath: seq<byte>, plan: Plan) {
    if k == 2 then plan == Refuse(InvalidLayout)
    else
      || (plan.Refuse? && Astray(nodes, newPath, plan.error))
      || exists q, name :: Aims(nodes, newPath, q, name) && RenamingTo(nodes, p, was, k, q, name, plan)
  }

  ghost predicate RenamingTo(nodes: map<nat, Node>, p: nat, was: Name, k: nat, q: nat, name: Name, plan: Plan) {
    if !Taken(nodes, q, name) then plan == Fresh(Place(p, was), k, Place(q, name))
    else exists g :: Recorded(nodes, q, name, g) && RenamingOver(nodes, p, was, k, q, name, g, plan)
  }

  predicate RenamingOver(nodes: map<nat, Node>, p: nat, was: Name, k: nat, q: nat, name: Name, g: nat, plan: Plan) {
    if g == k then plan == Keep
    else if (g in nodes && nodes[g].Dir?) || (k in nodes && nodes[k].Dir?) then plan == Refuse(AlreadyExists(name))
    else plan == Replace(Place(p, was), k, Place(q, name), g)
  }

  lemma PlanTo(size: nat, nodes: map<nat, Node>, from: Place, k: nat, to: Place, plan: Plan)
    requires DirsOk(size, nodes) && IsDir(nodes, to.dir)
    ensures RenamingTo(nodes, from.dir, from.name, k, to.dir, to.name, plan) <==>
      plan == match LookupName(nodes[to.dir].entries, to.name)
              case None => Fresh(from, k, to)
              case Some(b) =>
                if b.inode == k then Keep
                else if IsDir(nodes, b.inode) || IsDir(nodes, k) then Refuse(AlreadyExists(to.name))
                else Replace(from, k, to, b.inode)
  {
    hide DirsOk, Recorded, Taken, LookupName;
    TakenMeans(size, nodes, to.dir, to.name);
    if LookupName(nodes[to.dir].entries, to.name).Some? {
      assert Recorded(nodes, to.dir, to.name, LookupName(nodes[to.dir].entries, to.name).value.inode);
    }
  }

  lemma RenameMeans(size: nat, nodes: map<nat, Node>, oldPath: seq<byte>, newPath: seq<byte>, plan: Plan)
    requires DirsOk(size, nodes)
    ensures PlanOf(nodes, oldPath, newPath) == plan <==> Renaming(nodes, oldPath, newPath, plan)
  {
    hide DirsOk, Found, Missing, Occupant, Aim, Aims, Astray, Nameless, SplitPath, Recorded, Taken, LookupName;
    hide RenamingTo;
    SplitMeans(oldPath);
    SplitMeans(newPath);
    OccupantMeans(size, nodes, oldPath);
    AimMeans(size, nodes, newPath);
    if Occupant(nodes, oldPath).Ok? && Aim(nodes, newPath).Ok? {
      var (from, k) := Occupant(nodes, oldPath).value;
      var to := Aim(nodes, newPath).value;
      assert Found(nodes, oldPath, from.dir, from.name, k) && Aims(nodes, newPath, to.dir, to.name);
      PlanTo(size, nodes, from, k, to, plan);
    }
  }
}
