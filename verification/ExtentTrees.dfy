/** Walking an extent tree (ext4/src/filesystem.rs, resolve_logical_block) and
    cutting a leaf short (truncate). */
module ExtentTrees {
  import opened Bytes
  import opened Results
  import opened Extents

  const MAX_EXTENT_DEPTH := 5

  predicate Covers(e: Extent, logical: nat) {
    e.logical <= logical < e.logical + e.len
  }

  /** The first extent covering the block decides; holes and uninitialised runs map nowhere. */
  function MapBlock(es: seq<Extent>, logical: nat): Option<nat> {
    if |es| == 0 then None
    else if Covers(es[0], logical) then
      if es[0].uninit then None else Some(es[0].physical + (logical - es[0].logical))
    else MapBlock(es[1..], logical)
  }

  /** The rightmost of the leading indices that start at or before the block. */
  function Choose(indices: seq<ExtentIndex>, logical: nat): (r: Option<nat>)
    ensures r.Some? ==> r.value < |indices| && indices[r.value].logical <= logical
    ensures r.Some? && r.value + 1 < |indices| ==> indices[r.value + 1].logical > logical
    ensures r.None? ==> |indices| == 0 || indices[0].logical > logical
  {
    if |indices| == 0 || indices[0].logical > logical then None
    else match Choose(indices[1..], logical)
      case None => Some(0)
      case Some(i) => Some(i + 1)
  }

  predicate InImage(image: seq<byte>, blockSize: nat, block: nat) {
    (block + 1) * blockSize <= |image|
  }

  function Block(image: seq<byte>, blockSize: nat, block: nat): (b: seq<byte>)
    requires InImage(image, blockSize, block)
    ensures |b| == blockSize
  {
    assert block * blockSize + blockSize == (block + 1) * blockSize;
    image[block * blockSize..block * blockSize + blockSize]
  }

  /** The descent, at most `steps` nodes deep. */
  function Resolve(image: seq<byte>, blockSize: nat, node: seq<byte>, logical: u32, steps: nat): Result<Option<nat>>
    decreases steps
  {
    if steps == 0 then Err(MaxExtentDepthExceeded) else
    match DecodeNode(node)
    case Err(x) => Err(x)
    case Ok(Leaf(_, extents)) => Ok(MapBlock(extents, logical))
    case Ok(Internal(_, indices)) =>
      match Choose(indices, logical)
      case None => Ok(None)
      case Some(i) =>
        if !InImage(image, blockSize, indices[i].leafBlock) then Err(Io)
        else Resolve(image, blockSize, Block(image, blockSize, indices[i].leafBlock), logical, steps - 1)
  }

  /** resolve_logical_block past its flag check. It ends on any bytes. */
  method ResolveFrom(image: seq<byte>, blockSize: nat, root: seq<byte>, logical: u32) returns (r: Result<Option<nat>>)
    ensures r == Resolve(image, blockSize, root, logical, MAX_EXTENT_DEPTH + 1)
  {
    hide DecodeNode, Choose, MapBlock, Block, InImage;
    var nodeBuf := root;
    var steps := MAX_EXTENT_DEPTH + 1;
    while true
      invariant steps >= 0
      invariant Resolve(image, blockSize, nodeBuf, logical, steps) ==
        Resolve(image, blockSize, root, logical, MAX_EXTENT_DEPTH + 1)
      decreases steps
    {
      if steps == 0 {
        return Err(MaxExtentDepthExceeded);
      }
      steps := steps - 1;
      var node := DecodeExtentNode(nodeBuf);
      match node {
        case Err(x) => return Err(x);
        case Ok(Leaf(_, extents)) =>
          r := FindInLeaf(extents, logical);
          return;
        case Ok(Internal(_, indices)) =>
          var chosen := ChooseIndex(indices, logical);
          match chosen {
            case None => return Ok(None);
            case Some(i) =>
              if !InImage(image, blockSize, indices[i].leafBlock) {
                return Err(Io);
              }
              nodeBuf := Block(image, blockSize, indices[i].leafBlock);
          }
      }
    }
  }

  method FindInLeaf(extents: seq<Extent>, logical: u32) returns (r: Result<Option<nat>>)
    ensures r == Ok(MapBlock(extents, logical))
  {
    for k := 0 to |extents|
      invariant MapBlock(extents, logical) == MapBlock(extents[k..], logical)
    {
      var ext := extents[k];
      if ext.logical <= logical < ext.logical + ext.len {
        if ext.uninit {
          return Ok(None);
        }
        return Ok(Some(ext.physical + (logical - ext.logical)));
      }
      assert extents[k..][1..] == extents[k + 1..];
    }
    return Ok(None);
  }

  method ChooseIndex(indices: seq<ExtentIndex>, logical: u32) returns (chosen: Option<nat>)
    ensures chosen == Choose(indices, logical)
  {
    chosen := None;
    for k := 0 to |indices|
      invariant chosen == if k == 0 then None else Some(k - 1)
      invariant Choose(indices, logical) ==
        match Choose(indices[k..], logical) case None => chosen case Some(i) => Some(k + i)
    {
      assert indices[k..][1..] == indices[k + 1..];
      if indices[k].logical > logical {
        break;
      }
      chosen := Some(k);
    }
  }

  // ----- a well-formed tree is its flat extent list -----

  datatype Child = Child(first: u32, block: u64, tree: Tree)
  datatype Tree = Flat(extents: seq<Extent>) | Branch(kids: seq<Child>)

  /** `node` and the blocks it leads to hold the tree; `depth` falls by one each level. */
  predicate Stored(image: seq<byte>, blockSize: nat, node: seq<byte>, t: Tree, depth: nat)
    decreases t
  {
    match t
    case Flat(extents) =>
      DecodeNode(node).Ok? && DecodeNode(node).value.Leaf? && DecodeNode(node).value.extents == extents
    case Branch(kids) =>
      && depth > 0
      && DecodeNode(node).Ok? && DecodeNode(node).value.Internal?
      && var indices := DecodeNode(node).value.indices;
      && |indices| == |kids|
      && forall i :: 0 <= i < |kids| ==>
           && indices[i] == ExtentIndex(kids[i].first, kids[i].block)
           && InImage(image, blockSize, kids[i].block)
           && Stored(image, blockSize, Block(image, blockSize, kids[i].block), kids[i].tree, depth - 1)
  }

  /** Where the range of child `i` ends. */
  function Limit(kids: seq<Child>, i: nat, hi: nat): nat
    requires i < |kids|
  {
    if i + 1 < |kids| then kids[i + 1].first else hi
  }

  /** Sorted indices over disjoint ranges: everything below child `i` lies in its range. */
  predicate Ordered(t: Tree, lo: nat, hi: nat)
    decreases t
  {
    match t
    case Flat(extents) =>
      forall i :: 0 <= i < |extents| ==> lo <= extents[i].logical && extents[i].logical + extents[i].len <= hi
    case Branch(kids) =>
      && (forall i :: 0 <= i < |kids| ==> lo <= kids[i].first && kids[i].first <= Limit(kids, i, hi))
      && (forall i, j :: 0 <= i < j < |kids| ==> kids[i].first < kids[j].first)
      && (forall i :: 0 <= i < |kids| ==> Ordered(kids[i].tree, kids[i].first, Limit(kids, i, hi)))
  }

  function Flatten(t: Tree): seq<Extent>
    decreases t
  {
    match t
    case Flat(extents) => extents
    case Branch(kids) => FlattenKids(kids)
  }

  function FlattenKids(kids: seq<Child>): seq<Extent>
    decreases kids
  {
    if |kids| == 0 then [] else
      assert kids[0].tree < kids[0];
      Flatten(kids[0].tree) + FlattenKids(kids[1..])
  }

  predicate NoneCovers(es: seq<Extent>, logical: nat) {
    forall i :: 0 <= i < |es| ==> !Covers(es[i], logical)
  }

  /** Extents that miss the block may be dropped from either side. */
  lemma {:induction false} MapSkips(a: seq<Extent>, b: seq<Extent>, logical: nat)
    ensures NoneCovers(a, logical) ==> MapBlock(a + b, logical) == MapBlock(b, logical)
    ensures NoneCovers(b, logical) ==> MapBlock(a + b, logical) == MapBlock(a, logical)
  {
    if |a| == 0 {
      assert a + b == b;
      if NoneCovers(b, logical) {
        MapNone(b, logical);
      }
    } else {
      assert (a + b)[1..] == a[1..] + b;
      MapSkips(a[1..], b, logical);
      if NoneCovers(a, logical) {
        assert !Covers(a[0], logical);
        assert NoneCovers(a[1..], logical);
      }
    }
  }

  lemma {:induction false} MapNone(es: seq<Extent>, logical: nat)
    requires NoneCovers(es, logical)
    ensures MapBlock(es, logical) == None
  {
    if |es| > 0 {
      assert !Covers(es[0], logical);
      MapNone(es[1..], logical);
    }
  }

  lemma {:induction false} OutOfRange(t: Tree, lo: nat, hi: nat, logical: nat)
    requires Ordered(t, lo, hi) && !(lo <= logical < hi)
    ensures NoneCovers(Flatten(t), logical)
    decreases t
  {
    match t
    case Flat(_) =>
    case Branch(kids) =>
      forall i | 0 <= i < |kids| ensures NoneCovers(Flatten(kids[i].tree), logical) {
        RangesNest(kids, i, lo, hi);
        assert kids[i].tree < kids[i] < t;
        OutOfRange(kids[i].tree, kids[i].first, Limit(kids, i, hi), logical);
      }
      KidsMiss(kids, logical);
  }

  lemma RangesNest(kids: seq<Child>, i: nat, lo: nat, hi: nat)
    requires Ordered(Branch(kids), lo, hi) && i < |kids|
    ensures lo <= kids[i].first <= Limit(kids, i, hi) <= hi
  {
    var n := |kids| - 1;
    assert kids[n].first <= Limit(kids, n, hi);
    if i < n {
      assert i + 1 < n ==> kids[i + 1].first < kids[n].first;
    }
  }

  lemma {:induction false} KidsMiss(kids: seq<Child>, logical: nat)
    requires forall i :: 0 <= i < |kids| ==> NoneCovers(Flatten(kids[i].tree), logical)
    ensures NoneCovers(FlattenKids(kids), logical)
  {
    if |kids| > 0 {
      forall i | 0 <= i < |kids[1..]| ensures NoneCovers(Flatten(kids[1..][i].tree), logical) {
        assert kids[1..][i] == kids[i + 1];
      }
      KidsMiss(kids[1..], logical);
      assert NoneCovers(Flatten(kids[0].tree), logical);
    }
  }

  /** When every child but `i` misses the block, the flat list maps it as child `i` does. */
  lemma {:induction false} OnlyChild(kids: seq<Child>, i: nat, logical: nat)
    requires i < |kids|
    requires forall j :: 0 <= j < |kids| && j != i ==> NoneCovers(Flatten(kids[j].tree), logical)
    ensures MapBlock(FlattenKids(kids), logical) == MapBlock(Flatten(kids[i].tree), logical)
    decreases i
  {
    var rest := kids[1..];
    MapSkips(Flatten(kids[0].tree), FlattenKids(rest), logical);
    if i == 0 {
      forall j | 0 <= j < |rest| ensures NoneCovers(Flatten(rest[j].tree), logical) {
        assert rest[j] == kids[j + 1];
      }
      KidsMiss(rest, logical);
    } else {
      forall j | 0 <= j < |rest| && j != i - 1 ensures NoneCovers(Flatten(rest[j].tree), logical) {
        assert rest[j] == kids[j + 1];
      }
      OnlyChild(rest, i - 1, logical);
    }
  }

  /** On a well-formed tree no deeper than the fuel, the descent answers as a
      lookup in the flattened extent list. */
  lemma {:induction false} ResolveIsFlatLookup(
      image: seq<byte>, blockSize: nat, node: seq<byte>, t: Tree, depth: nat, lo: nat, hi: nat, logical: u32)
    requires Stored(image, blockSize, node, t, depth) && Ordered(t, lo, hi)
    ensures Resolve(image, blockSize, node, logical, depth + 1) == Ok(MapBlock(Flatten(t), logical))
    decreases t
  {
    match t
    case Flat(_) =>
    case Branch(kids) =>
      var indices := DecodeNode(node).value.indices;
      match Choose(indices, logical) {
        case None =>
          forall j | 0 <= j < |kids| ensures NoneCovers(Flatten(kids[j].tree), logical) {
            assert kids[0].first == indices[0].logical > logical;
            OutOfRange(kids[j].tree, kids[j].first, Limit(kids, j, hi), logical);
          }
          KidsMiss(kids, logical);
          MapNone(FlattenKids(kids), logical);
        case Some(i) =>
          forall j | 0 <= j < |kids| && j != i ensures NoneCovers(Flatten(kids[j].tree), logical) {
            OthersMiss(kids, i, j, lo, hi, logical);
          }
          OnlyChild(kids, i, logical);
          assert kids[i].tree < kids[i] < t;
          ResolveIsFlatLookup(image, blockSize, Block(image, blockSize, kids[i].block), kids[i].tree,
                              depth - 1, kids[i].first, Limit(kids, i, hi), logical);
      }
  }

  lemma OthersMiss(kids: seq<Child>, i: nat, j: nat, lo: nat, hi: nat, logical: nat)
    requires Ordered(Branch(kids), lo, hi) && i < |kids| && j < |kids| && i != j
    requires kids[i].first <= logical && (i + 1 < |kids| ==> kids[i + 1].first > logical)
    ensures NoneCovers(Flatten(kids[j].tree), logical)
  {
    if j > i {
      assert i + 1 < j ==> kids[i + 1].first < kids[j].first;
    } else {
      assert j + 1 < i ==> kids[j + 1].first < kids[i].first;
    }
    OutOfRange(kids[j].tree, kids[j].first, Limit(kids, j, hi), logical);
  }

  /** The whole walk from an inode: any tree up to the kernel's depth cap. */
  lemma InodeWalk(image: seq<byte>, blockSize: nat, root: seq<byte>, t: Tree, depth: nat, hi: nat, logical: u32)
    requires depth <= MAX_EXTENT_DEPTH
    requires Stored(image, blockSize, root, t, depth) && Ordered(t, 0, hi)
    ensures Resolve(image, blockSize, root, logical, MAX_EXTENT_DEPTH + 1) == Ok(MapBlock(Flatten(t), logical))
  {
    ResolveIsFlatLookup(image, blockSize, root, t, depth, 0, hi, logical);
    MoreFuel(image, blockSize, root, logical, depth + 1, MAX_EXTENT_DEPTH + 1);
  }

  lemma {:induction false} MoreFuel(image: seq<byte>, blockSize: nat, node: seq<byte>, logical: u32, m: nat, n: nat)
    requires m <= n && Resolve(image, blockSize, node, logical, m).Ok?
    ensures Resolve(image, blockSize, node, logical, n) == Resolve(image, blockSize, node, logical, m)
    decreases m
  {
    hide DecodeNode, Choose, MapBlock, Block, InImage;
    var d := DecodeNode(node);
    if d.Ok? && d.value.Internal? {
      var c := Choose(d.value.indices, logical);
      if c.Some? {
        MoreFuel(image, blockSize, Block(image, blockSize, d.value.indices[c.value].leafBlock), logical, m - 1, n - 1);
      }
    }
  }

  // ----- truncate: cutting a leaf at a logical block -----

  datatype Run = Run(start: nat, len: nat)

  /** What the cut keeps of one extent. */
  function Kept(e: Extent, cutoff: nat): Option<Extent> {
    if e.logical + e.len <= cutoff then Some(e)
    else if e.logical >= cutoff then None
    else Some(e.(len := cutoff - e.logical))
  }

  /** What it gives back; uninitialised runs are dropped without being freed. */
  function Freed(e: Extent, cutoff: nat): Option<Run> {
    if e.uninit || e.logical + e.len <= cutoff then None
    else if e.logical >= cutoff then Some(Run(e.physical, e.len))
    else Some(Run(e.physical + (cutoff - e.logical), e.logical + e.len - cutoff))
  }

  function KeptAll(es: seq<Extent>, cutoff: nat): (r: seq<Extent>)
    ensures |r| <= |es|
  {
    if |es| == 0 then [] else
    var front := KeptAll(es[..|es| - 1], cutoff);
    match Kept(es[|es| - 1], cutoff) case None => front case Some(e) => front + [e]
  }

  function FreedAll(es: seq<Extent>, cutoff: nat): seq<Run> {
    if |es| == 0 then [] else
    var front := FreedAll(es[..|es| - 1], cutoff);
    match Freed(es[|es| - 1], cutoff) case None => front case Some(run) => front + [run]
  }

  function RunBlocks(start: nat, len: nat): (r: set<nat>)
    ensures forall b :: b in r <==> start <= b < start + len
  {
    if len == 0 then {} else RunBlocks(start, len - 1) + {start + len - 1}
  }

  lemma {:induction false} RunSize(start: nat, len: nat)
    ensures |RunBlocks(start, len)| == len
  {
    if len > 0 {
      RunSize(start, len - 1);
    }
  }

  function BlocksOf(es: seq<Extent>): set<nat> {
    if |es| == 0 then {} else BlocksOf(es[..|es| - 1]) + RunBlocks(es[|es| - 1].physical, es[|es| - 1].len)
  }

  function BlocksOfRuns(runs: seq<Run>): set<nat> {
    if |runs| == 0 then {}
      else BlocksOfRuns(runs[..|runs| - 1]) + RunBlocks(runs[|runs| - 1].start, runs[|runs| - 1].len)
  }

  function TotalLen(es: seq<Extent>): nat {
    if |es| == 0 then 0 else TotalLen(es[..|es| - 1]) + es[|es| - 1].len
  }

  function TotalRunLen(runs: seq<Run>): nat {
    if |runs| == 0 then 0 else TotalRunLen(runs[..|runs| - 1]) + runs[|runs| - 1].len
  }

  /** `extents.iter().map(|e| e.len as u64).sum()` */
  method SumLens(es: seq<Extent>) returns (n: nat)
    ensures n == TotalLen(es)
  {
    n := 0;
    assert es[..0] == [];
    for i := 0 to |es|
      invariant n == TotalLen(es[..i])
    {
      assert es[..i + 1][..i] == es[..i];
      n := n + es[i].len;
    }
    assert es[..|es|] == es;
  }

  predicate Initialised(es: seq<Extent>) {
    forall i :: 0 <= i < |es| ==> !es[i].uninit
  }

  /** No physical block is mapped twice. */
  predicate DisjointBlocks(es: seq<Extent>) {
    forall i, j :: 0 <= i < j < |es| ==> RunBlocks(es[i].physical, es[i].len) !! RunBlocks(es[j].physical, es[j].len)
  }

  /** The surviving map is the old map below the cut and nothing above it. */
  lemma {:induction false} CutMap(es: seq<Extent>, cutoff: nat, logical: nat)
    ensures MapBlock(KeptAll(es, cutoff), logical) == if logical < cutoff then MapBlock(es, logical) else None
  {
    if |es| > 0 {
      var front, e := es[..|es| - 1], es[|es| - 1];
      assert es == front + [e];
      CutMap(front, cutoff, logical);
      MapAppend(front, e, logical);
      CutCovers(front, cutoff, logical);
      if NoneCovers(front, logical) {
        MapNone(front, logical);
      }
      if Kept(e, cutoff).Some? {
        MapAppend(KeptAll(front, cutoff), Kept(e, cutoff).value, logical);
        assert Covers(Kept(e, cutoff).value, logical) <==> Covers(e, logical) && logical < cutoff;
      }
    }
  }

  lemma {:induction false} MapAppend(front: seq<Extent>, e: Extent, logical: nat)
    ensures MapBlock(front + [e], logical) ==
            if !NoneCovers(front, logical) then MapBlock(front, logical)
            else if Covers(e, logical) && !e.uninit then Some(e.physical + (logical - e.logical)) else None
  {
    if |front| == 0 {
      assert front + [e] == [e] && MapBlock([e][1..], logical) == None;
    } else {
      assert (front + [e])[1..] == front[1..] + [e];
      MapAppend(front[1..], e, logical);
      if !Covers(front[0], logical) {
        assert NoneCovers(front, logical) == NoneCovers(front[1..], logical) by {
          assert forall i :: 0 <= i < |front[1..]| ==> front[1..][i] == front[i + 1];
          assert forall i :: 1 <= i < |front| ==> front[i] == front[1..][i - 1];
        }
      }
    }
  }

  lemma {:induction false} CutCovers(es: seq<Extent>, cutoff: nat, logical: nat)
    ensures NoneCovers(KeptAll(es, cutoff), logical) <==> logical >= cutoff || NoneCovers(es, logical)
  {
    if |es| > 0 {
      var front, e := es[..|es| - 1], es[|es| - 1];
      CutCovers(front, cutoff, logical);
      CoversAppend(front, e, logical);
      assert es == front + [e];
      if Kept(e, cutoff).Some? {
        CoversAppend(KeptAll(front, cutoff), Kept(e, cutoff).value, logical);
      }
    }
  }

  lemma CoversAppend(front: seq<Extent>, e: Extent, logical: nat)
    ensures NoneCovers(front + [e], logical) <==> NoneCovers(front, logical) && !Covers(e, logical)
  {
    var es := front + [e];
    assert es[|front|] == e && forall i :: 0 <= i < |front| ==> es[i] == front[i];
  }

  /** What the last extent adds to either side of the cut. */
  lemma CutLast(es: seq<Extent>, cutoff: nat)
    requires |es| > 0
    ensures var front, e := es[..|es| - 1], es[|es| - 1];
      && BlocksOf(KeptAll(es, cutoff)) == BlocksOf(KeptAll(front, cutoff)) + KeptBlocks(e, cutoff)
      && BlocksOfRuns(FreedAll(es, cutoff)) == BlocksOfRuns(FreedAll(front, cutoff)) + FreedBlocks(e, cutoff)
      && TotalLen(KeptAll(es, cutoff)) == TotalLen(KeptAll(front, cutoff)) + KeptLen(e, cutoff)
      && TotalRunLen(FreedAll(es, cutoff)) == TotalRunLen(FreedAll(front, cutoff)) + FreedLen(e, cutoff)
  {
    hide RunBlocks, Kept, Freed;
    var front, e := es[..|es| - 1], es[|es| - 1];
    if Kept(e, cutoff).Some? {
      assert KeptAll(es, cutoff)[..|KeptAll(es, cutoff)| - 1] == KeptAll(front, cutoff);
    }
    if Freed(e, cutoff).Some? {
      assert FreedAll(es, cutoff)[..|FreedAll(es, cutoff)| - 1] == FreedAll(front, cutoff);
    }
  }

  function KeptBlocks(e: Extent, cutoff: nat): set<nat> {
    match Kept(e, cutoff) case None => {} case Some(x) => RunBlocks(x.physical, x.len)
  }

  function FreedBlocks(e: Extent, cutoff: nat): set<nat> {
    match Freed(e, cutoff) case None => {} case Some(x) => RunBlocks(x.start, x.len)
  }

  function KeptLen(e: Extent, cutoff: nat): nat {
    match Kept(e, cutoff) case None => 0 case Some(x) => x.len
  }

  function FreedLen(e: Extent, cutoff: nat): nat {
    match Freed(e, cutoff) case None => 0 case Some(x) => x.len
  }

  /** Freed plus kept is exactly what there was: as blocks, and as a count. */
  lemma {:induction false} CutConserves(es: seq<Extent>, cutoff: nat)
    requires Initialised(es) && DisjointBlocks(es)
    ensures BlocksOf(KeptAll(es, cutoff)) + BlocksOfRuns(FreedAll(es, cutoff)) == BlocksOf(es)
    ensures BlocksOf(KeptAll(es, cutoff)) !! BlocksOfRuns(FreedAll(es, cutoff))
    ensures TotalLen(KeptAll(es, cutoff)) + TotalRunLen(FreedAll(es, cutoff)) == TotalLen(es)
  {
    hide RunBlocks, KeptAll, FreedAll, KeptBlocks, FreedBlocks, KeptLen, FreedLen;
    if |es| == 0 {
      NothingCut(es, cutoff);
    } else {
      var front, e := es[..|es| - 1], es[|es| - 1];
      assert !e.uninit;
      CutConserves(front, cutoff);
      FrontDisjoint(es);
      CutLast(es, cutoff);
      CutOne(e, cutoff);
      CutLength(e, cutoff);
    }
  }

  lemma NothingCut(es: seq<Extent>, cutoff: nat)
    requires |es| == 0
    ensures KeptAll(es, cutoff) == [] && FreedAll(es, cutoff) == []
  {
  }

  lemma CutOne(e: Extent, cutoff: nat)
    requires !e.uninit
    ensures KeptBlocks(e, cutoff) + FreedBlocks(e, cutoff) == RunBlocks(e.physical, e.len)
    ensures KeptBlocks(e, cutoff) !! FreedBlocks(e, cutoff)
  {
    hide RunBlocks;
  }

  lemma CutLength(e: Extent, cutoff: nat)
    requires !e.uninit
    ensures KeptLen(e, cutoff) + FreedLen(e, cutoff) == e.len
  {
  }

  lemma FrontDisjoint(es: seq<Extent>)
    requires |es| > 0 && DisjointBlocks(es)
    ensures BlocksOf(es[..|es| - 1]) !! RunBlocks(es[|es| - 1].physical, es[|es| - 1].len)
  {
    MissesAll(es[..|es| - 1], RunBlocks(es[|es| - 1].physical, es[|es| - 1].len));
  }

  lemma {:induction false} MissesAll(es: seq<Extent>, s: set<nat>)
    requires forall i :: 0 <= i < |es| ==> RunBlocks(es[i].physical, es[i].len) !! s
    ensures BlocksOf(es) !! s
  {
    if |es| > 0 {
      MissesAll(es[..|es| - 1], s);
    }
  }
}
