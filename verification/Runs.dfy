/** Whole runs: any operations, in any order, succeeding or failing. */
module Runs {
  import opened Bytes
  import opened Results
  import opened DirEntries
  import opened DirBlocks
  import opened Listings
  import opened Paths
  import opened Inodes
  import opened Superblocks
  import opened Catalogs
  import opened Moves
  import opened Disks
  import opened DiskFacts
  import opened Images
  import opened Operations
  import opened Removals
  import opened Steps
  import opened Truncations
  import opened Renames
  import opened Walks
  import opened Refinements
  import opened Cycles
  import opened Mkfs
  import opened Filesystems

  datatype Op =
    | CreateFile(path: seq<byte>, data: seq<byte>)
    | Symlink(path: seq<byte>, target: seq<byte>)
    | Mkdir(path: seq<byte>)
    | Unlink(path: seq<byte>)
    | Rmdir(path: seq<byte>)
    | Truncate(path: seq<byte>, size: u64)
    | Rename(path: seq<byte>, newPath: seq<byte>)
    | Chmod(path: seq<byte>, mode: u16)
    | Chown(path: seq<byte>, uid: u32, gid: u32)
    | Utime(path: seq<byte>, atime: u32, mtime: u32)

  /** A disk and the catalog it holds. */
  datatype State = State(disk: Disk, cat: Catalog)

  /** A caller's duties, all told from the arguments alone: no file of 2^32 blocks, no rmdir
      of a path ending in `.`, no rename with dots or into the path being renamed. */
  predicate Fitting(op: Op) {
    && Storable(op)
    && match op
       case Rmdir(path) => SplitPath(path).Ok? ==> SplitPath(path).value.1 != DOT
       case Rename(path, newPath) =>
         && DotFree(Components(path)) && DotFree(Components(newPath))
         && (|Components(newPath)| > 0 ==> !(Components(path) <= Components(newPath)[..|Components(newPath)| - 1]))
       case _ => true
  }

  /** No file of 2^32 blocks. */
  predicate Storable(op: Op) {
    op.CreateFile? ==> DivCeil(|op.data|, 2048) < 0x1_0000_0000
  }

  /** The three ways an operation that reports success ends outside the invariant. */
  ghost predicate Breaks(s: State, op: Op, r: Result<Unit>) {
    match op
    case Rmdir(path) => RemovesItself(s.cat.nodes, path)
    case Rename(path, newPath) =>
      MovesDots(s.cat.nodes, path, newPath) || (r.Ok? && Knots(s.cat, PlanOf(s.cat.nodes, path, newPath)))
    case _ => false
  }

  function Mutated(op: Op, i: Inode): Inode {
    match op
    case Chmod(_, mode) => Chmodded(i, mode).(ctime := 0x6500_0002)
    case Chown(_, uid, gid) => i.(uid := uid, gid := gid, ctime := 0x6500_0002)
    case Utime(_, atime, mtime) => i.(atime := atime, mtime := mtime, ctime := 0x6500_0002)
    case _ => i
  }

  /** The tree, the counters and every other inode stay; one inode's fields change. */
  ghost predicate Mutates(s: State, op: Op, path: seq<byte>, r: Result<Unit>, s': State) {
    && s'.cat == s.cat
    && match WalkPath(s.cat.nodes, Components(path), ROOT)
       case Err(e) => r == Err(e) && s' == s
       case Ok(k) =>
         && r.Ok? && 1 <= k <= |s.disk.inodes|
         && s'.disk == PutInode(s.disk, k, Mutated(op, s.disk.inodes[k - 1]))
  }

  /** The operations that rewrite a live inode's record; what they write is said of each. */
  predicate Rewrites(op: Op) {
    op.Truncate? || op.Chmod? || op.Chown? || op.Utime?
  }

  ghost predicate Makes(s: State, path: seq<byte>, count: nat, r: Result<Unit>, done: bool, s': State) {
    match r
    case Ok(_) => done
    case Err(e) =>
      && CreateFails(s.disk, s.cat, path, count, e, s'.cat)
      && (CreateLeak(s.disk, s.cat, path, count) == (0, 0) ==> s' == s)
  }

  function Outcome(fault: Option<Error>): Result<Unit> {
    match fault case Some(e) => Err(e) case None => Ok(Unit.Unit)
  }

  /** What the path names is out of the tree, and its record is marked deleted. */
  ghost predicate Dropped(s: State, path: seq<byte>, s': State) {
    Removed(s.cat, path, s'.disk, s'.cat) && BuriedAt(s.disk, s.cat, path, s'.disk)
  }

  /** What one operation does, whichever way it ends. */
  ghost predicate Does(s: State, op: Op, r: Result<Unit>, s': State) {
    Effect(s, op, r, s') && Framed(s, op, s')
  }

  /** Of the metadata only counters change, and of an inode live before and after only what
      the operation is for. */
  ghost predicate Framed(s: State, op: Op, s': State) {
    && SameSetup(s.disk.sb, s.disk.gd, s'.disk.sb, s'.disk.gd)
    && (Rewrites(op) || InodesKept(s.disk, s'.disk, s.cat.nodes.Keys * s'.cat.nodes.Keys))
  }

  ghost predicate Effect(s: State, op: Op, r: Result<Unit>, s': State) {
    && (s.disk.sb.blockSize == 2048 || s.disk.sb.blockSize == 4096)
    && match op
       case CreateFile(path, data) =>
         Makes(s, path, DivCeil(|data|, s.disk.sb.blockSize), r, exists k ::
              FileCreated(s.disk, s.cat, path, data, k, s'.disk, s'.cat), s')
       case Symlink(path, target) =>
         if target == [] then r == Err(InvalidLayout) && s' == s
         else if |target| > I_BLOCK_LEN then r == Err(SymlinkTargetTooLong(|target|)) && s' == s
         else Makes(s, path, 0, r, exists k :: LinkCreated(s.disk, s.cat, path, target, k, s'.disk, s'.cat), s')
       case Mkdir(path) => Makes(s, path, 1, r, exists k :: DirCreated(s.disk, s.cat, path, k, s'.disk, s'.cat), s')
       case Unlink(path) =>
         && r == Outcome(UnlinkFault(s.cat.nodes, path))
         && (if r.Ok? then Dropped(s, path, s') else s' == s)
       case Rmdir(path) =>
         && r == Outcome(RmdirFault(s.cat.nodes, path))
         && (if r.Ok? then Dropped(s, path, s') else s' == s)
       case Truncate(path, size) =>
         && r == Outcome(TruncateFault(s.disk.sb.blockSize, s.cat.nodes, path, size))
         && (if r.Ok? then Truncated(s.disk, s.cat, path, size, s'.disk, s'.cat) else s' == s)
       case Rename(path, newPath) =>
         Follows(s.disk, s.cat, PlanOf(s.cat.nodes, path, newPath), r, s'.disk, s'.cat)
       case Chmod(path, _) => Mutates(s, op, path, r, s')
       case Chown(path, _, _) => Mutates(s, op, path, r, s')
       case Utime(path, _, _) => Mutates(s, op, path, r, s')
  }

  /** What holds however operations end. */
  ghost predicate Sound(s: State) {
    Core(s.disk, s.cat) && Acyclic(s.cat.up)
  }

  /** What holds as long as no creation fails after taking an inode. */
  predicate Tidy(s: State) {
    NoLeaks(s.cat) && Coherent(s.disk)
  }

  /** A run: each operation, its result, and the states between. */
  ghost predicate Trace(ops: seq<Op>, rs: seq<Result<Unit>>, states: seq<State>) {
    && |rs| == |ops| && |states| == |ops| + 1
    && (forall i :: 0 <= i < |states| ==> Sound(states[i]))
    && forall i :: 0 <= i < |ops| ==> Does(states[i], ops[i], rs[i], states[i + 1])
  }

  // ----- one step -----

  lemma CeilByBlock(n: nat, size: nat)
    requires size == 2048 || size == 4096
    ensures DivCeil(n, size) <= DivCeil(n, 2048)
  {
  }

  /** A fitting rename moves no dots and ties no knot. */
  lemma FittingRename(s: State, path: seq<byte>, newPath: seq<byte>)
    requires Sound(s) && Fitting(Rename(path, newPath))
    ensures !MovesDots(s.cat.nodes, path, newPath) && !Knots(s.cat, PlanOf(s.cat.nodes, path, newPath))
  {
    hide Core, Acyclic, CatalogOk, MovesDots, Knots, Components, DotFree, PlanOf;
    BaseFacts(s.disk, s.cat);
    OrdinarySource(s.cat.nodes, path, newPath);
    if PlanOf(s.cat.nodes, path, newPath).Fresh? {
      KnotsIffPrefix(s.disk.sb.blockSize, s.cat, path, newPath);
    } else {
      NoKnot(s.cat, PlanOf(s.cat.nodes, path, newPath));
    }
  }

  lemma NoKnot(c: Catalog, plan: Plan)
    requires !plan.Fresh?
    ensures !Knots(c, plan)
  {
  }

  lemma OrdinarySource(nodes: map<nat, Node>, path: seq<byte>, newPath: seq<byte>)
    requires DotFree(Components(path))
    ensures !MovesDots(nodes, path, newPath)
  {
    hide SplitPath, Components, LookupName, CarveFault, Directory, IsDir;
    if SplitPath(path).Ok? {
      SplitAgreesWithWalk(path);
      var names := Components(path);
      assert names[|names| - 1] == SplitPath(path).value.1;
    }
  }

  lemma FittingRmdir(nodes: map<nat, Node>, path: seq<byte>)
    requires Fitting(Rmdir(path))
    ensures !RemovesItself(nodes, path)
  {
    hide SplitPath, Directory, LookupName;
  }

  lemma WhenUnfit(d: Disk, c: Catalog)
    ensures Unfit(d) ==> !Core(d, c) && Treeless(d)
  {
    hide Core, Unfit, Treeless;
    if Unfit(d) {
      UnfitTreeless(d);
      assert !Core(d, c) by { NotCore(d, c); }
    }
  }

  lemma NotCore(d: Disk, c: Catalog)
    requires Unfit(d)
    ensures !Core(d, c)
  {
    hide Core;
  }

  lemma WhenCyclic(d: Disk, c: Catalog)
    ensures Core(d, c) && !Acyclic(c.up) ==> Treeless(d)
  {
    hide Core, Acyclic, Treeless;
    if Core(d, c) && !Acyclic(c.up) {
      CyclicTreeless(d, c);
    }
  }

  lemma FollowsKeeps(d: Disk, c: Catalog, plan: Plan, r: Result<Unit>, d': Disk, c': Catalog)
    ensures Follows(d, c, plan, r, d', c') ==> InodesKept(d, d', c'.nodes.Keys)
  {
    hide Renamed, InodesKept;
  }

  lemma KeptBoth(d: Disk, d': Disk, a: set<nat>, b: set<nat>)
    ensures InodesKept(d, d', a) || InodesKept(d, d', b) ==> InodesKept(d, d', a * b)
  {
  }

  /** A fitting operation never breaks anything. */
  lemma FittingSafe(s: State, op: Op, r: Result<Unit>)
    requires Sound(s) && Fitting(op)
    ensures Storable(op) && !Breaks(s, op, r)
  {
    hide Core, Acyclic, MovesDots, Knots, RemovesItself, PlanOf, Components, DotFree, SplitPath;
    match op
    case Rmdir(path) => FittingRmdir(s.cat.nodes, path);
    case Rename(path, newPath) => FittingRename(s, path, newPath);
    case _ =>
  }

  /** The three creations. */
  method Create(fs: Filesystem, op: Op) returns (r: Result<Unit>)
    requires fs.Valid() && Storable(op) && (op.CreateFile? || op.Symlink? || op.Mkdir?)
    modifies fs
    ensures fs.Valid() && Effect(State(old(fs.View()), old(fs.cat)), op, r, State(fs.View(), fs.cat))
    ensures InodesKept(old(fs.View()), fs.View(), old(fs.cat).nodes.Keys)
  {
    hide ViewOf, Holds, Core, Acyclic, FileCreated, LinkCreated, DirCreated, CreateFails, CreateLeak, InodesKept;
    hide SameSetup, CatalogOk;
    BaseFacts(fs.View(), fs.cat);
    fs.ViewSb();
    var k;
    if op.CreateFile? {
      CeilByBlock(|op.data|, fs.superblock.blockSize);
      k := fs.CreateFile(op.path, op.data);
    } else if op.Symlink? {
      k := fs.Symlink(op.path, op.target);
    } else {
      k := fs.Mkdir(op.path);
    }
    return Discard(k);
  }

  /** The operations on one live inode. */
  method Rewrite(fs: Filesystem, op: Op) returns (r: Result<Unit>)
    requires fs.Valid() && Rewrites(op)
    modifies fs
    ensures fs.Valid() && Effect(State(old(fs.View()), old(fs.cat)), op, r, State(fs.View(), fs.cat))
  {
    hide ViewOf, Holds, Core, Acyclic, Truncated, TruncateFault, PutInode, WalkPath, Components, Chmodded, SameSetup;
    hide CatalogOk;
    BaseFacts(fs.View(), fs.cat);
    fs.ViewSb();
    if op.Truncate? {
      r := fs.Truncate(op.path, op.size);
    } else if op.Chmod? {
      r := fs.Chmod(op.path, op.mode);
    } else if op.Chown? {
      r := fs.Chown(op.path, op.uid, op.gid);
    } else {
      r := fs.Utime(op.path, op.atime, op.mtime);
    }
  }

  /** One operation, from any sound state: what it does, and exactly when it breaks the invariant. */
  method Apply(fs: Filesystem, op: Op) returns (r: Result<Unit>)
    requires fs.Valid() && Storable(op)
    modifies fs
    ensures fs.Shape()
    ensures fs.Valid() <==> !Breaks(State(old(fs.View()), old(fs.cat)), op, r)
    ensures !fs.Valid() ==> r.Ok? && Treeless(fs.View())
    ensures fs.Valid() ==> Does(State(old(fs.View()), old(fs.cat)), op, r, State(fs.View(), fs.cat))
  {
    hide ViewOf, Holds, Core, Acyclic, Removed, Follows, RmdirFault, UnlinkFault, PlanOf, MovesDots, Knots;
    hide RemovesItself, Unfit, Treeless;
    hide InodesKept, SameSetup, CatalogOk, Makes, Mutates, Truncated, Occupant, InodesBut, TruncateFault, BuriedAt;
    ghost var s := State(fs.View(), fs.cat);
    BaseFacts(s.disk, s.cat);
    fs.ViewSb();
    match op {
      case Unlink(path) => r := fs.Unlink(path);
      case Rmdir(path) =>
        r := fs.Rmdir(path);
        WhenUnfit(fs.View(), fs.cat);
      case Rename(path, newPath) =>
        r := fs.Rename(path, newPath);
        WhenUnfit(fs.View(), fs.cat);
        WhenCyclic(fs.View(), fs.cat);
        FollowsKeeps(s.disk, s.cat, PlanOf(s.cat.nodes, path, newPath), r, fs.View(), fs.cat);
      case CreateFile(_, _) => r := Create(fs, op);
      case Symlink(_, _) => r := Create(fs, op);
      case Mkdir(_) => r := Create(fs, op);
      case _ => r := Rewrite(fs, op);
    }
    fs.ViewSb();
    SetupBetween(fs.firstSuperblock, fs.firstGdt[0], s.disk.sb, s.disk.gd, fs.superblock, fs.gdt[0]);
    KeptBoth(s.disk, fs.View(), s.cat.nodes.Keys, fs.cat.nodes.Keys);
  }

  function Discard(r: Result<nat>): (s: Result<Unit>)
    ensures s.Ok? <==> r.Ok?
    ensures r.Err? ==> s == Err(r.error)
  {
    match r case Ok(_) => Ok(Unit.Unit) case Err(e) => Err(e)
  }

  // ----- whole runs -----

  /** Applies every operation in turn, whatever the earlier ones returned. */
  method RunAll(fs: Filesystem, ops: seq<Op>) returns (rs: seq<Result<Unit>>, ghost states: seq<State>)
    requires fs.Valid() && forall i :: 0 <= i < |ops| ==> Fitting(ops[i])
    modifies fs
    ensures fs.Valid() && Trace(ops, rs, states)
    ensures states[0] == State(old(fs.View()), old(fs.cat)) && states[|ops|] == State(fs.View(), fs.cat)
  {
    hide ViewOf, Holds, Core, Acyclic, SameSetup, Does, Fitting, Breaks, Storable;
    rs := [];
    states := [State(fs.View(), fs.cat)];
    for n := 0 to |ops|
      invariant fs.Valid() && |rs| == n && |states| == n + 1
      invariant states[0] == State(old(fs.View()), old(fs.cat)) && states[n] == State(fs.View(), fs.cat)
      invariant forall i :: 0 <= i <= n ==> Sound(states[i])
      invariant forall i :: 0 <= i < n ==> Does(states[i], ops[i], rs[i], states[i + 1])
    {
      ghost var s := states[n];
      assert Fitting(ops[n]);
      FittingSafe(s, ops[n], Ok(Unit.Unit));
      var r := Apply(fs, ops[n]);
      FittingSafe(s, ops[n], r);
      rs := rs + [r];
      states := states + [State(fs.View(), fs.cat)];
    }
  }

  /** Formats an image, opens it and runs. The first state is the freshly formatted one. */
  method FormatAndRun(config: Config, ops: seq<Op>) returns (r: Result<seq<Result<Unit>>>, ghost states: seq<State>)
    requires (LayoutFault(config).None? ==> OneGroup(config)) && forall i :: 0 <= i < |ops| ==> Fitting(ops[i])
    ensures r.Ok? <==> LayoutFault(config).None?
    ensures r.Ok? ==> Trace(ops, r.value, states) && states[0].cat == NewCatalog(config) && Tidy(states[0])
  {
    hide ViewOf, Holds, Core, Acyclic, SameSetup, Does, Fitting, NewCatalog, NewSuperblock, NewDescriptor, Opened;
    hide Coherent, NewImage;
    states := [];
    var fs := Mount(config);
    if fs.Err? {
      r := Err(fs.error);
      return;
    }
    var rs;
    rs, states := RunAll(fs.value, ops);
    r := Ok(rs);
  }

  /** format, then open. */
  method Mount(config: Config) returns (r: Result<Filesystem>)
    requires LayoutFault(config).None? ==> OneGroup(config)
    ensures r.Ok? <==> LayoutFault(config).None?
    ensures r.Ok? ==>
      fresh(r.value) && r.value.Valid() && r.value.cat == NewCatalog(config) && NoLeaks(r.value.cat)
        && Coherent(r.value.View())
    ensures r.Ok? ==> r.value.superblock == NewSuperblock(config) && r.value.gdt == [NewDescriptor(config)]
  {
    hide ViewOf, Holds, Core, Acyclic, NewSuperblock, NewDescriptor, Opened, Coherent, NewImage;
    var formatted, image := Format(config);
    if formatted.Err? {
      return Err(formatted.error);
    }
    NewImageParts(image, config);
    r := Filesystem.Open(image, NewCatalog(config));
  }

  lemma NewImageParts(image: seq<byte>, config: Config)
    requires OneGroup(config) && NewImage(image, config)
    ensures var sb, gd := NewSuperblock(config), NewDescriptor(config);
      && Opened(image) == Ok((sb, [gd])) && SameSetup(sb, gd, sb, gd)
      && Holds(image, sb, gd) && Core(ViewOf(image, sb, gd), NewCatalog(config)) && Coherent(ViewOf(image, sb, gd))
    ensures NoLeaks(NewCatalog(config)) && Acyclic(NewCatalog(config).up)
  {
    hide Holds, ViewOf, Core, Opened, Coherent, NewSuperblock, NewDescriptor, Geometry, LayoutFault, NewListing;
    hide SameSetup;
    FormattedOpens(image, config);
    SetupItself(NewSuperblock(config), NewDescriptor(config));
    NothingLost(config);
  }

  lemma NothingLost(config: Config)
    requires OneGroup(config)
    ensures NoLeaks(NewCatalog(config)) && Acyclic(NewCatalog(config).up)
  {
    hide OneGroup, NewListing;
  }

  // ----- what runs keep -----

  /** The operation is not a creation that fails after taking an inode. */
  ghost predicate Harmless(s: State, op: Op, r: Result<Unit>) {
    r.Ok? ||
    match op
    case CreateFile(path, data) => s.disk.sb.blockSize > 0
      && CreateLeak(s.disk, s.cat, path, DivCeil(|data|, s.disk.sb.blockSize)) == (0, 0)
    case Symlink(path, target) => target == [] || |target| > I_BLOCK_LEN || CreateLeak(s.disk, s.cat, path, 0) == (0, 0)
    case Mkdir(path) => CreateLeak(s.disk, s.cat, path, 1) == (0, 0)
    case _ => true
  }

  /** Nothing leaks and the image agrees with the cache, unless and only unless a creation
      fails after taking an inode. */
  lemma TidyStep(s: State, op: Op, r: Result<Unit>, s': State)
    requires Does(s, op, r, s') && Tidy(s)
    ensures Tidy(s') <==> Harmless(s, op, r)
  {
    hide Vacancy, PlanOf, UnlinkFault, RmdirFault, TruncateFault, WalkPath, Components, CreateFault, CreateLeak, Makes;
    hide Coherent, SameSetup, InodesKept;
    hide FirstFreeRun, NewListing, FileBlocks, Mutated, Occupant, Enterable, CanCarve, CanErase, CanMove, Detachable;
    hide Acyclic, Below, CarveFault, WithEntry, WithoutEntry, NodeBlocks;
    hide Created, CreateFails, Mutates;
    match op
    case CreateFile(path, data) =>
      CreationTidy(s, path, DivCeil(|data|, s.disk.sb.blockSize), r, exists k ::
           FileCreated(s.disk, s.cat, path, data, k, s'.disk, s'.cat), s');
    case Symlink(path, target) =>
      if 1 <= |target| <= I_BLOCK_LEN {
        CreationTidy(s, path, 0, r, exists k :: LinkCreated(s.disk, s.cat, path, target, k, s'.disk, s'.cat), s');
      }
    case Mkdir(path) => CreationTidy(s, path, 1, r, exists k ::
         DirCreated(s.disk, s.cat, path, k, s'.disk, s'.cat), s');
    case Chmod(path, _) => MutationTidy(s, op, path, r, s');
    case Chown(path, _, _) => MutationTidy(s, op, path, r, s');
    case Utime(path, _, _) => MutationTidy(s, op, path, r, s');
    case _ =>
  }

  lemma CreationTidy(s: State, path: seq<byte>, count: nat, r: Result<Unit>, done: bool, s': State)
    requires Makes(s, path, count, r, done, s') && Tidy(s)
    ensures r.Ok? ==> done
    ensures r.Err? ==> (Tidy(s') <==> CreateLeak(s.disk, s.cat, path, count) == (0, 0))
    ensures forall k, node :: Created(s.disk, s.cat, path, k, node, s'.cat) ==>
      s'.cat.lostInodes == s.cat.lostInodes && s'.cat.lostBlocks == s.cat.lostBlocks
  {
    hide Vacancy, CanCarve, Enterable, WithEntry, FirstFreeInode, NodeBlocks, CreateLeak, CreateFault, Coherent;
    LeakShape(s.disk, s.cat, path, count);
  }

  lemma LeakShape(d: Disk, c: Catalog, path: seq<byte>, count: nat)
    ensures CreateLeak(d, c, path, count).0 == 0 ==> CreateLeak(d, c, path, count) == (0, 0)
  {
    hide Vacancy, NoFreeInode, NoFreeRun;
  }

  lemma MutationTidy(s: State, op: Op, path: seq<byte>, r: Result<Unit>, s': State)
    requires Mutates(s, op, path, r, s') && Tidy(s)
    ensures Tidy(s')
  {
    hide WalkPath, Components, Mutated;
  }

  /** A run stays tidy exactly as long as no creation fails after taking an inode. */
  lemma {:induction false} TidyRun(ops: seq<Op>, rs: seq<Result<Unit>>, states: seq<State>, n: nat)
    requires Trace(ops, rs, states) && Tidy(states[0]) && n <= |ops|
    ensures (forall i :: 0 <= i <= n ==> Tidy(states[i])) <==>
      forall i :: 0 <= i < n ==> Harmless(states[i], ops[i], rs[i])
  {
    hide Does, Sound, Harmless, Tidy;
    if n > 0 {
      TidyRun(ops, rs, states, n - 1);
      if Tidy(states[n - 1]) {
        TidyStep(states[n - 1], ops[n - 1], rs[n - 1], states[n]);
      }
    }
  }

  /** What Apply ensures, as a step between states. */
  ghost predicate Applied(s: State, op: Op, r: Result<Unit>, s': State) {
    Sound(s) ==> (Sound(s') <==> !Breaks(s, op, r)) && (Sound(s') ==> Does(s, op, r, s'))
  }

  /** Operations applied one after another, fitting or not, stay sound exactly as long as
      none breaks the invariant, and what they do until then is a run. */
  lemma {:induction false} SoundUntil(ops: seq<Op>, rs: seq<Result<Unit>>, states: seq<State>, n: nat)
    requires |rs| == |ops| && |states| == |ops| + 1 && n <= |ops| && Sound(states[0])
    requires forall i :: 0 <= i < |ops| ==> Applied(states[i], ops[i], rs[i], states[i + 1])
    ensures (forall i :: 0 <= i <= n ==> Sound(states[i])) <==>
      forall i :: 0 <= i < n ==> !Breaks(states[i], ops[i], rs[i])
    ensures (forall i :: 0 <= i <= n ==> Sound(states[i])) ==> Trace(ops[..n], rs[..n], states[..n + 1])
  {
    hide Does, Sound, Breaks;
    if n > 0 {
      SoundUntil(ops, rs, states, n - 1);
      assert Applied(states[n - 1], ops[n - 1], rs[n - 1], states[n]);
    }
  }

  /** The operation does not aim at inode `k`. */
  predicate Spares(s: State, op: Op, k: nat) {
    match op
    case Unlink(path) => Occupant(s.cat.nodes, path).Ok? ==> Occupant(s.cat.nodes, path).value.1 != k
    case Truncate(path, _) => WalkPath(s.cat.nodes, Components(path), ROOT) != Ok(k)
    case Rename(path, newPath) => var plan := PlanOf(s.cat.nodes, path, newPath); plan.Replace? ==> plan.gone != k
    case _ => true
  }

  lemma SparedStep(s: State, op: Op, r: Result<Unit>, s': State, k: nat)
    requires Does(s, op, r, s') && Sound(s) && Spares(s, op, k) && k in s.cat.nodes && !s.cat.nodes[k].Dir?
    ensures k in s'.cat.nodes && s'.cat.nodes[k] == s.cat.nodes[k]
  {
    hide Vacancy, PlanOf, UnlinkFault, RmdirFault, TruncateFault, WalkPath, Components, Created, Removed, Coherent;
    hide Core, Acyclic, CatalogOk, Leaked, CreateFault;
    hide FirstFreeRun, NewListing, FileBlocks, Mutated, Occupant, Renamed, CanErase, Remove;
    BaseFacts(s.disk, s.cat);
    match op
    case CreateFile(path, data) =>
      if r.Ok? {
        var j :| FileCreated(s.disk, s.cat, path, data, j, s'.disk, s'.cat);
        SparedByCreation(s.disk, s.cat, path, j, s'.cat.nodes[j], s'.cat, k);
      } else { SparedByLeak(s, path, DivCeil(|data|, s.disk.sb.blockSize), r.error, s'); }
    case Symlink(path, target) =>
      if r.Ok? {
        var j :| LinkCreated(s.disk, s.cat, path, target, j, s'.disk, s'.cat);
        SparedByCreation(s.disk, s.cat, path, j, Link(target), s'.cat, k);
      } else if 1 <= |target| <= I_BLOCK_LEN { SparedByLeak(s, path, 0, r.error, s'); }
    case Mkdir(path) =>
      if r.Ok? {
        var j :| DirCreated(s.disk, s.cat, path, j, s'.disk, s'.cat);
        SparedByCreation(s.disk, s.cat, path, j, s'.cat.nodes[j], s'.cat, k);
      } else { SparedByLeak(s, path, 1, r.error, s'); }
    case Unlink(path) =>
      if r.Ok? {
        UnlinkFinds(s.cat.nodes, path);
        SparedByRemoval(s, path, s', k);
      }
    case Rmdir(path) =>
      if r.Ok? {
        RmdirTakesDirs(s.cat.nodes, path);
        SparedByRemoval(s, path, s', k);
      }
    case Rename(path, newPath) => SparedByRename(s, PlanOf(s.cat.nodes, path, newPath), r, s', k);
    case _ =>
  }

  lemma UnlinkFinds(nodes: map<nat, Node>, path: seq<byte>)
    requires UnlinkFault(nodes, path).None?
    ensures Occupant(nodes, path).Ok?
  {
    hide Occupant;
  }

  lemma RmdirTakesDirs(nodes: map<nat, Node>, path: seq<byte>)
    requires RmdirFault(nodes, path).None?
    ensures Occupant(nodes, path).Ok? && IsDir(nodes, Occupant(nodes, path).value.1)
  {
    hide Occupant;
  }

  lemma SparedByLeak(s: State, path: seq<byte>, count: nat, e: Error, s': State)
    requires CreateFails(s.disk, s.cat, path, count, e, s'.cat)
    ensures s'.cat.nodes == s.cat.nodes
  {
    hide CreateFault, CreateLeak;
  }

  lemma SparedByCreation(d: Disk, c: Catalog, path: seq<byte>, j: nat, node: Node, c': Catalog, k: nat)
    requires Created(d, c, path, j, node, c') && CatalogOk(d.sb.blockSize, c) && k in c.nodes && !c.nodes[k].Dir?
    ensures k in c'.nodes && c'.nodes[k] == c.nodes[k]
  {
    hide Created, CatalogOk, LookupName;
    CreatedFrame(d, c, path, j, node, c');
    CreatedParts(d, c, path, j, node, c');
  }

  lemma SparedByRemoval(s: State, path: seq<byte>, s': State, k: nat)
    requires Removed(s.cat, path, s'.disk, s'.cat) && CatalogOk(s.disk.sb.blockSize, s.cat) && k in s.cat.nodes
    requires !s.cat.nodes[k].Dir?
    requires Occupant(s.cat.nodes, path).Ok? && Occupant(s.cat.nodes, path).value.1 != k
    ensures k in s'.cat.nodes && s'.cat.nodes[k] == s.cat.nodes[k]
  {
    hide Removed, CatalogOk, LookupName, Occupant;
    RemovedFrame(s.disk.sb.blockSize, s.cat, path, s'.disk, s'.cat);
  }

  lemma SparedByRename(s: State, plan: Plan, r: Result<Unit>, s': State, k: nat)
    requires Follows(s.disk, s.cat, plan, r, s'.disk, s'.cat) && k in s.cat.nodes && !s.cat.nodes[k].Dir?
    requires (plan.Replace? ==> plan.gone != k)
    ensures k in s'.cat.nodes && s'.cat.nodes[k] == s.cat.nodes[k]
  {
    hide Renamed, CanErase, Remove;
    match plan
    case Fresh(from, j, to) => SparedByMove(s.cat, from, j, to, r, s'.disk, s'.cat, k);
    case Replace(from, j, to, gone) =>
      WithoutEntryOthersFile(s.cat, to, gone, k);
      SparedByMove(Remove(s.cat, to.dir, to.name, gone), from, j, to, r, s'.disk, s'.cat, k);
    case _ =>
  }

  lemma WithoutEntryOthersFile(c: Catalog, at: Place, gone: nat, k: nat)
    requires CanErase(c.nodes, at.dir, at.name) && gone in c.nodes && k in c.nodes && !c.nodes[k].Dir? && gone != k
    ensures k in Remove(c, at.dir, at.name, gone).nodes && Remove(c, at.dir, at.name, gone).nodes[k] == c.nodes[k]
  {
    hide Erase, Find;
  }

  lemma SparedByMove(c: Catalog, from: Place, j: nat, to: Place, r: Result<Unit>, d': Disk, c': Catalog, k: nat)
    requires Renamed(c, from, j, to, r, d', c') && k in c.nodes && !c.nodes[k].Dir?
    ensures k in c'.nodes && c'.nodes[k] == c.nodes[k]
  {
    hide Erase, Find, Carve, CarveFault, AllEncodable, Acyclic, Below, Coherent, Repoint, FileTypeOf;
  }

  /** A file's bytes and a symlink's target outlast every run that does not aim at them. */
  lemma {:induction false} SparedRun(ops: seq<Op>, rs: seq<Result<Unit>>, states: seq<State>, n: nat, k: nat)
    requires Trace(ops, rs, states) && n <= |ops|
    requires forall i :: 0 <= i < n ==> Spares(states[i], ops[i], k)
    requires k in states[0].cat.nodes && !states[0].cat.nodes[k].Dir?
    ensures k in states[n].cat.nodes && states[n].cat.nodes[k] == states[0].cat.nodes[k]
  {
    hide Does, Sound, Spares;
    if n > 0 {
      SparedRun(ops, rs, states, n - 1, k);
      SparedStep(states[n - 1], ops[n - 1], rs[n - 1], states[n], k);
    }
  }
}
