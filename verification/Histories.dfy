/** What whole runs do to one file: which of its blocks it keeps, and what it reads. */
module Histories {
  import opened Bytes
  import opened Results
  import opened Paths
  import opened Superblocks
  import opened Inodes
  import opened Catalogs
  import opened Disks
  import opened DiskFacts
  import opened DiskMoves
  import opened Images
  import opened Steps
  import opened Truncations
  import opened Renames
  import opened Runs

  /** The operation neither removes nor replaces inode `k`; it may well truncate it. */
  predicate Leaves(s: State, op: Op, k: nat) {
    op.Truncate? || Spares(s, op, k)
  }

  /** The file is where it was, with the first of the blocks it had. */
  ghost predicate Shortened(before: map<nat, Node>, after: map<nat, Node>, k: nat) {
    && k in before && before[k].File? && k in after && after[k].File?
    && after[k].start == before[k].start && after[k].blocks <= before[k].blocks
  }

  lemma ShortenedStep(s: State, op: Op, r: Result<Unit>, s': State, k: nat)
    requires Does(s, op, r, s') && Sound(s) && Leaves(s, op, k) && k in s.cat.nodes && s.cat.nodes[k].File?
    ensures Shortened(s.cat.nodes, s'.cat.nodes, k)
  {
    hide Does, Sound, Spares, Shortened, Effect, WalkPath, Components, Truncated, TruncateFault;
    if Spares(s, op, k) {
      SparedStep(s, op, r, s', k);
      ShortenedSame(s.cat.nodes, s'.cat.nodes, k);
    } else {
      EffectOfTruncate(s, op, r, s');
      if r.Ok? {
        TruncatesThat(s, op, k);
        CutShortens(s.disk, s.cat, op.path, op.size, k, s'.disk, s'.cat);
      } else {
        ShortenedSame(s.cat.nodes, s'.cat.nodes, k);
      }
    }
  }

  lemma ShortenedSame(before: map<nat, Node>, after: map<nat, Node>, k: nat)
    requires k in before && before[k].File? && k in after && after[k] == before[k]
    ensures Shortened(before, after, k)
  {
  }

  lemma EffectOfTruncate(s: State, op: Op, r: Result<Unit>, s': State)
    requires Does(s, op, r, s') && op.Truncate?
    ensures s.disk.sb.blockSize > 0
    ensures if r.Ok? then Truncated(s.disk, s.cat, op.path, op.size, s'.disk, s'.cat) else s' == s
  {
    hide Framed, Truncated, TruncateFault;
  }

  lemma TruncatesThat(s: State, op: Op, k: nat)
    requires op.Truncate? && !Spares(s, op, k)
    ensures WalkPath(s.cat.nodes, Components(op.path), ROOT) == Ok(k)
  {
    hide WalkPath, Components;
  }

  lemma CutShortens(d: Disk, c: Catalog, path: seq<byte>, newSize: nat, k: nat, d': Disk, c': Catalog)
    requires d.sb.blockSize > 0 && Truncated(d, c, path, newSize, d', c')
    requires WalkPath(c.nodes, Components(path), ROOT) == Ok(k)
    ensures Shortened(c.nodes, c'.nodes, k)
  {
    hide WalkPath, Components, Coherent, RecordResized;
  }

  /** However often a file is truncated in a run, it keeps a prefix of the blocks it started
      with and never gains one. */
  lemma {:induction false} ShortenedRun(ops: seq<Op>, rs: seq<Result<Unit>>, states: seq<State>, n: nat, k: nat)
    requires Trace(ops, rs, states) && n <= |ops| && forall i :: 0 <= i < n ==> Leaves(states[i], ops[i], k)
    requires k in states[0].cat.nodes && states[0].cat.nodes[k].File?
    ensures Shortened(states[0].cat.nodes, states[n].cat.nodes, k)
  {
    hide Does, Sound, Leaves;
    if n > 0 {
      ShortenedRun(ops, rs, states, n - 1, k);
      ShortenedStep(states[n - 1], ops[n - 1], rs[n - 1], states[n], k);
    }
  }

  lemma {:induction false} SameBlockSize(ops: seq<Op>, rs: seq<Result<Unit>>, states: seq<State>, n: nat)
    requires Trace(ops, rs, states) && n <= |ops|
    ensures states[n].disk.sb.blockSize == states[0].disk.sb.blockSize
  {
    hide Sound, Effect;
    if n > 0 {
      SameBlockSize(ops, rs, states, n - 1);
      assert Does(states[n - 1], ops[n - 1], rs[n - 1], states[n]);
    }
  }

  // ----- what the file reads -----

  /** A file's blocks are as many as its size needs, and each is whole. */
  lemma FileHeld(s: State, k: nat)
    requires Sound(s) && k in s.cat.nodes && s.cat.nodes[k].File?
    ensures s.disk.sb.blockSize > 0 && |s.cat.nodes[k].blocks| == DivCeil(s.cat.nodes[k].size, s.disk.sb.blockSize)
  {
    hide Core, Acyclic, RunLeaf, CatalogOk;
    BaseFacts(s.disk, s.cat);
    NodeIn(s.disk, s.cat, k);
  }

  /** The file's blocks hold `data`, padded with zeros. */
  predicate Stored(s: State, k: nat, data: seq<byte>) {
    && s.disk.sb.blockSize > 0
    && k in s.cat.nodes && s.cat.nodes[k].File? && s.cat.nodes[k].blocks == FileBlocks(data, s.disk.sb.blockSize)
  }

  /** Which is how create_file leaves it. */
  lemma CreateStores(s: State, op: Op, r: Result<Unit>, s': State) returns (k: nat)
    requires Does(s, op, r, s') && op.CreateFile? && r.Ok?
    ensures Stored(s', k, op.data) && s'.cat.nodes[k].size == |op.data|
  {
    hide FileBlocks, Created, CreateFault, FirstFreeRun, Coherent, InodesKept;
    k :| FileCreated(s.disk, s.cat, op.path, op.data, k, s'.disk, s'.cat);
  }

  lemma ConcatFront(a: seq<seq<byte>>, b: seq<seq<byte>>)
    requires a <= b
    ensures Concat(a) <= Concat(b)
  {
    hide Concat;
    assert a == b[..|a|];
    ConcatPrefixes(b, |a|);
  }

  /** Created with `data`, then run through anything that does not remove it: the file reads
      as the start of `data` with zeros behind, however it was cut and grown in between. */
  lemma ReadsAfterRun(ops: seq<Op>, rs: seq<Result<Unit>>, states: seq<State>, n: nat, k: nat, data: seq<byte>)
    requires Trace(ops, rs, states) && n <= |ops| && forall i :: 0 <= i < n ==> Leaves(states[i], ops[i], k)
    requires Stored(states[0], k, data)
    ensures k in states[n].cat.nodes && states[n].cat.nodes[k].File? && HasContent(states[n].cat.nodes[k])
    ensures var f := states[n].cat.nodes[k];
      f.size <= |Padded(data, states[0].disk.sb.blockSize)|
        && Content(f) == Padded(data, states[0].disk.sb.blockSize)[..f.size]
  {
    hide Does, Sound, Leaves, Concat, FileBlocks, Padded;
    var size := states[0].disk.sb.blockSize;
    ShortenedRun(ops, rs, states, n, k);
    SameBlockSize(ops, rs, states, n);
    FileHeld(states[n], k);
    var f := states[n].cat.nodes[k];
    FileBlocksHold(data, size);
    ConcatFront(f.blocks, FileBlocks(data, size));
    PrefixSized(f.blocks, FileBlocks(data, size), size);
    CutReads(f, f.size, |f.blocks|, size);
    assert f.blocks[..|f.blocks|] == f.blocks;
    assert f == File(f.start, f.size, f.blocks);
  }

  lemma PrefixSized(a: seq<seq<byte>>, b: seq<seq<byte>>, size: nat)
    requires a <= b && AllSized(b, size)
    ensures AllSized(a, size)
  {
  }

  /** Growing such a file reads zeros exactly when what was stored there was zero: a test on
      the data given to create_file and the two sizes. */
  lemma GrowAfterRun(ops: seq<Op>, rs: seq<Result<Unit>>, states: seq<State>, n: nat, k: nat, data: seq<byte>)
    requires Trace(ops, rs, states) && n < |ops| && forall i :: 0 <= i <= n ==> Leaves(states[i], ops[i], k)
    requires Stored(states[0], k, data)
    requires ops[n].Truncate? && rs[n].Ok? && WalkPath(states[n].cat.nodes, Components(ops[n].path), ROOT) == Ok(k)
    ensures k in states[n].cat.nodes && states[n].cat.nodes[k].File? && HasContent(states[n].cat.nodes[k])
    ensures k in states[n + 1].cat.nodes && states[n + 1].cat.nodes[k].File? && HasContent(states[n + 1].cat.nodes[k])
    ensures var was, now := states[n].cat.nodes[k], states[n + 1].cat.nodes[k];
      && now.size == ops[n].size
      && (was.size <= now.size ==>
            (Content(now) == Content(was) + Zeros(now.size - was.size) <==>
             forall i :: was.size <= i < now.size && i < |data| ==> data[i] == 0))
  {
    hide Does, Sound, Leaves, Concat, FileBlocks, Padded, WalkPath, Components, Content, HasContent;
    ReadsAfterRun(ops, rs, states, n, k, data);
    ReadsAfterRun(ops, rs, states, n + 1, k, data);
    assert Does(states[n], ops[n], rs[n], states[n + 1]);
    EffectOfTruncate(states[n], ops[n], rs[n], states[n + 1]);
    NewSize(states[n].disk, states[n].cat, ops[n].path, ops[n].size, k, states[n + 1].disk, states[n + 1].cat);
    var was, now := states[n].cat.nodes[k], states[n + 1].cat.nodes[k];
    if was.size <= now.size {
      ZerosBetween(data, states[0].disk.sb.blockSize, was.size, now.size);
    }
  }

  lemma NewSize(d: Disk, c: Catalog, path: seq<byte>, newSize: nat, k: nat, d': Disk, c': Catalog)
    requires d.sb.blockSize > 0 && Truncated(d, c, path, newSize, d', c')
    requires WalkPath(c.nodes, Components(path), ROOT) == Ok(k)
    ensures k in c'.nodes && c'.nodes[k].File? && c'.nodes[k].size == newSize
  {
    hide WalkPath, Components, Coherent, RecordResized;
  }

  lemma ZerosBetween(data: seq<byte>, size: nat, lo: nat, hi: nat)
    requires size > 0 && lo <= hi <= |Padded(data, size)|
    ensures Padded(data, size)[..hi] == Padded(data, size)[..lo] + Zeros(hi - lo) <==>
      forall i :: lo <= i < hi && i < |data| ==> data[i] == 0
  {
    var p := Padded(data, size);
    assert forall i :: 0 <= i < |p| ==> p[i] == if i < |data| then data[i] else 0;
    hide Padded;
    if forall i :: lo <= i < hi && i < |data| ==> data[i] == 0 {
      assert p[..hi] == p[..lo] + Zeros(hi - lo);
    } else {
      var i :| lo <= i < hi && i < |data| && data[i] != 0;
      assert p[..hi][i] != (p[..lo] + Zeros(hi - lo))[i];
    }
  }
}
