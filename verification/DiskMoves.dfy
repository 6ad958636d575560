/** What renaming does to the disk, and that the disk then holds the changed catalog. */
module DiskMoves {
  import opened Bytes
  import opened Results
  import opened DirEntries
  import opened DirBlocks
  import opened Listings
  import opened Paths
  import opened Inodes
  import opened Superblocks
  import opened Catalogs
  import opened Moves
  import opened Disks
  import opened DiskSteps

  function Entered1(nodes: map<nat, Node>, q: u32, name: Name, k: u32): map<nat, Node>
    requires CanCarve(nodes, q, name) && k as nat in nodes
  {
    WithEntry(nodes, q, name, k, FileTypeOf(nodes[k]))
  }

  /** Does this move change the moved directory's parent? */
  predicate Reparents(nodes: map<nat, Node>, p: nat, q: nat, k: nat) {
    p != q && IsDir(nodes, k)
  }

  /** Everything the three block writes and two link writes need. */
  predicate MoveReady(d: Disk, c: Catalog, p: nat, was: Name, q: u32, name: Name, k: u32) {
    && CanMove(c.nodes, p, was, q, name, k)
    && var one := Entered1(c.nodes, q, name, k);
    && var two := WithoutEntry(one, p, was);
    && var after := MovedNodes(c.nodes, p, was, q, name, k);
    && IsDir(one, q) && AllEncodable(one[q].entries) && one[q].block < |d.data|
    && |Pack(one[q].entries)| == d.sb.blockSize
    && IsDir(two, p) && AllEncodable(two[p].entries) && two[p].block < |d.data|
    && |Pack(two[p].entries)| == d.sb.blockSize
    && 1 <= p <= |d.inodes| && 1 <= q <= |d.inodes| && 1 <= k <= |d.inodes|
    && d.inodes[q - 1].linksCount + 1 < 0x1_0000
    && (IsDir(c.nodes, k) ==>
         IsDir(after, k) && AllEncodable(after[k].entries) && after[k].block < |d.data|
           && |Pack(after[k].entries)| == d.sb.blockSize)
  }

  function MovedData(d: Disk, c: Catalog, p: nat, was: Name, q: u32, name: Name, k: u32): (r: seq<seq<byte>>)
    requires MoveReady(d, c, p, was, q, name, k)
    ensures |r| == |d.data|
  {
    var one := Entered1(c.nodes, q, name, k);
    var two := WithoutEntry(one, p, was);
    var data := d.data[one[q].block := Pack(one[q].entries)][two[p].block := Pack(two[p].entries)];
    if Reparents(c.nodes, p, q, k) then
      var after := MovedNodes(c.nodes, p, was, q, name, k);
      data[after[k].block := Pack(after[k].entries)]
    else data
  }

  function MovedInodes(d: Disk, c: Catalog, p: nat, was: Name, q: u32, name: Name, k: u32): (r: seq<Inode>)
    requires MoveReady(d, c, p, was, q, name, k)
    ensures |r| == |d.inodes|
  {
    if Reparents(c.nodes, p, q, k) then
      d.inodes[p - 1 := d.inodes[p - 1].(linksCount := Less(d.inodes[p - 1].linksCount, 1))]
              [q - 1 := d.inodes[q - 1].(linksCount := d.inodes[q - 1].linksCount + 1)]
    else d.inodes
  }

  function MovedDisk(d: Disk, c: Catalog, p: nat, was: Name, q: u32, name: Name, k: u32): Disk
    requires MoveReady(d, c, p, was, q, name, k)
  {
    d.(data := MovedData(d, c, p, was, q, name, k), inodes := MovedInodes(d, c, p, was, q, name, k))
  }

  lemma DirFacts(size: nat, nodes: map<nat, Node>, x: nat)
    requires DirsOk(size, nodes) && IsDir(nodes, x)
    ensures ListingOk(x, nodes[x].entries) && AllEncodable(nodes[x].entries) && |Pack(nodes[x].entries)| == size
    ensures |nodes[x].entries| >= 2
  {
    hide Pack;
  }

  lemma MoveIsReady(d: Disk, c: Catalog, p: nat, was: Name, q: u32, name: Name, k: u32)
    requires Core(d, c) && Movable(c, p, was, q, name, k)
    ensures MoveReady(d, c, p, was, q, name, k)
  {
    var size := d.sb.blockSize;
    MoveTwoSteps(size, c, p, was, q, name, k);
    MoveTree(size, c, p, was, q, name, k);
    MovableParts(c, p, was, q, name, k);
    LinkRoom(d, c, q);
    DirBlockIn(d, c, q);
    var one := Entered1(c.nodes, q, name, k);
    assert DirsOk(size, MovedNodes(c.nodes, p, was, q, name, k)) by { MoveDirsOk(size, c, p, was, q, name, k); }
    NodeIn(d, c, k);
    hide *;
    MoveReadyParts(d, c, p, was, q, name, k);
  }

  lemma MoveDirsOk(size: nat, c: Catalog, p: nat, was: Name, q: u32, name: Name, k: u32)
    requires CatalogOk(size, c) && Movable(c, p, was, q, name, k)
    ensures CanMove(c.nodes, p, was, q, name, k) && DirsOk(size, MovedNodes(c.nodes, p, was, q, name, k))
  {
    MoveTree(size, c, p, was, q, name, k);
    hide DirsOk, UpOk, DownOk, OwnOk, LostOk, MovedNodes, Movable, RootOk, CanMove;
  }

  lemma NodeIn(d: Disk, c: Catalog, k: nat)
    requires Core(d, c) && k in c.nodes
    ensures 1 <= k <= |d.inodes| && NodeOnDisk(d.sb.blockSize, d.inodes[k - 1], d.data, c.nodes[k])
  {
    hide NodesOk, CatalogOk, BitmapsOk, Geometry, Sized, LinksOk, NodeOnDisk;
    NodeAt(d.sb.blockSize, d.inodes, d.data, c.nodes, k);
  }

  lemma LinkRoom(d: Disk, c: Catalog, q: nat)
    requires Core(d, c) && IsDir(c.nodes, q)
    ensures 1 <= q <= |d.inodes| && d.inodes[q - 1].linksCount + 1 < 0x1_0000
    ensures d.inodes[q - 1].linksCount == 2 + |Subdirs(c.nodes, c.up, q)|
  {
    hide NodesOk, BitmapsOk, Subdirs, UpOk, DownOk, DirsOk, OwnOk, LostOk;
    SubdirRoom(d.sb.blockSize, c.nodes, c.up, q);
  }

  /** A directory whose listing changed but whose block did not can be written. */
  lemma ReadyDir(d: Disk, c: Catalog, now: map<nat, Node>, x: nat)
    requires Core(d, c) && IsDir(c.nodes, x) && IsDir(now, x) && now[x].block == c.nodes[x].block
    requires DirsOk(d.sb.blockSize, now)
    ensures AllEncodable(now[x].entries) && now[x].block < |d.data| && |Pack(now[x].entries)| == d.sb.blockSize
    ensures 1 <= x <= |d.inodes|
  {
    hide Core, NodeOnDisk, ListingOk, Pack, AllEncodable, DirsOk;
    DirFacts(d.sb.blockSize, now, x);
    DirBlockIn(d, c, x);
  }

  lemma MoveReadyParts(d: Disk, c: Catalog, p: nat, was: Name, q: u32, name: Name, k: u32)
    requires Core(d, c) && Movable(c, p, was, q, name, k) && CanMove(c.nodes, p, was, q, name, k)
    requires DirsOk(d.sb.blockSize, Entered1(c.nodes, q, name, k))
    requires DirsOk(d.sb.blockSize, WithoutEntry(Entered1(c.nodes, q, name, k), p, was))
    requires DirsOk(d.sb.blockSize, MovedNodes(c.nodes, p, was, q, name, k))
    requires 1 <= q <= |d.inodes| && 1 <= k <= |d.inodes| && d.inodes[q - 1].linksCount + 1 < 0x1_0000
    ensures MoveReady(d, c, p, was, q, name, k)
  {
    var size := d.sb.blockSize;
    var one := Entered1(c.nodes, q, name, k);
    var two := WithoutEntry(one, p, was);
    var after := MovedNodes(c.nodes, p, was, q, name, k);
    hide Core, CanMove, CanCarve, CanErase, WithEntry, WithoutEntry, Movable, DirsOk, Entered1, MovedNodes, FileTypeOf;
    hide NodeOnDisk, ListingOk, Pack, AllEncodable, MoveReady, Reparents, LookupName, Ordinary;
    BlocksOfMove(c, p, was, q, name, k);
    MovableParts(c, p, was, q, name, k);
    ReadyDir(d, c, one, q);
    ReadyDir(d, c, two, p);
    if IsDir(c.nodes, k) {
      ReadyDir(d, c, after, k);
    }
    MoveReadyIntro(d, c, p, was, q, name, k);
  }

  lemma MoveReadyIntro(d: Disk, c: Catalog, p: nat, was: Name, q: u32, name: Name, k: u32)
    requires CanMove(c.nodes, p, was, q, name, k)
    requires var one := Entered1(c.nodes, q, name, k);
      IsDir(one, q) && AllEncodable(one[q].entries) && one[q].block < |d.data|
        && |Pack(one[q].entries)| == d.sb.blockSize
    requires var two := WithoutEntry(Entered1(c.nodes, q, name, k), p, was);
      IsDir(two, p) && AllEncodable(two[p].entries) && two[p].block < |d.data|
        && |Pack(two[p].entries)| == d.sb.blockSize
    requires 1 <= p <= |d.inodes| && 1 <= q <= |d.inodes| && 1 <= k <= |d.inodes|
    requires d.inodes[q - 1].linksCount + 1 < 0x1_0000
    requires var after := MovedNodes(c.nodes, p, was, q, name, k);
      IsDir(c.nodes, k) ==>
        IsDir(after, k) && AllEncodable(after[k].entries) && after[k].block < |d.data|
          && |Pack(after[k].entries)| == d.sb.blockSize
    ensures MoveReady(d, c, p, was, q, name, k)
  {
  }

  lemma MoveCore(d: Disk, c: Catalog, p: nat, was: Name, q: u32, name: Name, k: u32)
    requires Core(d, c) && Movable(c, p, was, q, name, k)
    ensures MoveReady(d, c, p, was, q, name, k)
    ensures Core(MovedDisk(d, c, p, was, q, name, k), Move(c, p, was, q, name, k))
  {
    hide *;
    CoreParts(d, c);
    MoveIsReady(d, c, p, was, q, name, k);
    MoveTree(d.sb.blockSize, c, p, was, q, name, k);
    var d', c' := MovedDisk(d, c, p, was, q, name, k), Move(c, p, was, q, name, k);
    MoveShape(d, c, p, was, q, name, k);
    MoveNodesOnDisk(d, c, p, was, q, name, k);
    MoveLinks(d, c, p, was, q, name, k);
    TreeOnDiskIntro(d', c', d.sb.blockSize);
    MoveBitmaps(d, c, p, was, q, name, k);
    CoreIntro(d', c', d.sb.blockSize);
  }

  lemma MoveShape(d: Disk, c: Catalog, p: nat, was: Name, q: u32, name: Name, k: u32)
    requires Geometry(d.sb, d.gd) && Sized(d) && MoveReady(d, c, p, was, q, name, k)
    ensures var d' := MovedDisk(d, c, p, was, q, name, k);
      && Geometry(d'.sb, d'.gd) && Sized(d') && d'.sb == d.sb && d'.gd == d.gd
      && d'.data == MovedData(d, c, p, was, q, name, k) && d'.inodes == MovedInodes(d, c, p, was, q, name, k)
      && d'.blockBits == d.blockBits && d'.inodeBits == d.inodeBits
  {
    hide Entered1, MovedNodes, CanMove, WithoutEntry, Pack, FirstData, MovedInodes;
  }

  lemma MoveNodesOnDisk(d: Disk, c: Catalog, p: nat, was: Name, q: u32, name: Name, k: u32)
    requires Core(d, c) && Movable(c, p, was, q, name, k) && MoveReady(d, c, p, was, q, name, k)
    ensures NodesOk(d.sb.blockSize, MovedDisk(d, c, p, was, q, name, k).inodes,
      MovedDisk(d, c, p, was, q, name, k).data,
                    Move(c, p, was, q, name, k).nodes)
  {
    hide *;
    ReadyCanMove(d, c, p, was, q, name, k);
    var d', c' := MovedDisk(d, c, p, was, q, name, k), Move(c, p, was, q, name, k);
    CoreParts(d, c);
    MoveShape(d, c, p, was, q, name, k);
    MovableParts(c, p, was, q, name, k);
    MoveFields(c, p, was, q, name, k);
    MovedOthers(d.sb.blockSize, c, p, was, q, name, k);
    forall x | x in c'.nodes ensures 1 <= x <= |d'.inodes|
      && NodeOnDisk(d.sb.blockSize, d'.inodes[x - 1], d'.data, c'.nodes[x]) {
      NodeIn(d, c, x);
      if IsDir(c.nodes, x) {
        MoveDirOnDisk(d, c, p, was, q, name, k, x);
      } else {
        NotDir(c.nodes, x);
        MoveOtherOnDisk(d, c, p, was, q, name, k, x);
      }
    }
    NodesIntro(d.sb.blockSize, d'.inodes, d'.data, c'.nodes);
  }

  lemma NotDir(nodes: map<nat, Node>, x: nat)
    requires x in nodes && !IsDir(nodes, x)
    ensures !nodes[x].Dir?
  {
  }

  lemma MoveFields(c: Catalog, p: nat, was: Name, q: u32, name: Name, k: u32)
    requires CanMove(c.nodes, p, was, q, name, k)
    ensures Move(c, p, was, q, name, k).nodes == MovedNodes(c.nodes, p, was, q, name, k)
  {
  }

  lemma ReadyCanMove(d: Disk, c: Catalog, p: nat, was: Name, q: u32, name: Name, k: u32)
    requires MoveReady(d, c, p, was, q, name, k)
    ensures CanMove(c.nodes, p, was, q, name, k) && 1 <= p <= |d.inodes| && 1 <= q <= |d.inodes|
  {
    hide CanMove, Entered1, WithoutEntry, MovedNodes, Pack, AllEncodable;
  }

  /** The three writes, block by block. */
  lemma MovedDataAt(d: Disk, c: Catalog, p: nat, was: Name, q: u32, name: Name, k: u32, b: nat)
    requires MoveReady(d, c, p, was, q, name, k) && b < |d.data|
    ensures var one := Entered1(c.nodes, q, name, k); var two := WithoutEntry(one, p, was);
      var after := MovedNodes(c.nodes, p, was, q, name, k);
      && AllEncodable(one[q].entries) && AllEncodable(two[p].entries)
      && (Reparents(c.nodes, p, q, k) ==> AllEncodable(after[k].entries))
      && MovedData(d, c, p, was, q, name, k)[b] ==
        if Reparents(c.nodes, p, q, k) && b == after[k].block then Pack(after[k].entries)
        else if b == two[p].block then Pack(two[p].entries)
        else if b == one[q].block then Pack(one[q].entries)
        else d.data[b]
  {
    hide CanMove, Entered1, WithoutEntry, MovedNodes, Pack, AllEncodable;
  }

  /** The blocks written are those of the directories involved. */
  lemma BlocksOfMove(c: Catalog, p: nat, was: Name, q: u32, name: Name, k: u32)
    requires CanMove(c.nodes, p, was, q, name, k)
    ensures IsDir(c.nodes, q) && IsDir(c.nodes, p) && IsDir(Entered1(c.nodes, q, name, k), q)
    ensures IsDir(WithoutEntry(Entered1(c.nodes, q, name, k), p, was), p)
    ensures var one := Entered1(c.nodes, q, name, k); var two := WithoutEntry(one, p, was);
      var after := MovedNodes(c.nodes, p, was, q, name, k);
      && one[q].block == c.nodes[q].block && two[p].block == c.nodes[p].block
      && (p != q ==> p in one && one[p] == c.nodes[p])
      && (forall x :: x in c.nodes && x != q ==> x in one && one[x] == c.nodes[x])
      && (forall x :: x in one && x != p ==> x in two && two[x] == one[x])
      && (forall x :: x in two && x != k ==> x in after && after[x] == two[x])
      && (!Reparents(c.nodes, p, q, k) ==> after == two)
      && (IsDir(c.nodes, k) ==> IsDir(after, k) && after[k].block == c.nodes[k].block)
  {
    var one := Entered1(c.nodes, q, name, k);
    CarveIsDir(c.nodes, q, name);
    EraseIsDir(one, p, was);
    WithEntryOthers(c.nodes, q, name, k, FileTypeOf(c.nodes[k]));
    WithoutEntryOthers(one, p, was);
    hide CanCarve, CanErase, Carve, Erase, Find, Pack, AllEncodable, FileTypeOf, Repoint;
  }

  lemma MoveDirOnDisk(d: Disk, c: Catalog, p: nat, was: Name, q: u32, name: Name, k: u32, x: nat)
    requires Core(d, c) && Movable(c, p, was, q, name, k) && MoveReady(d, c, p, was, q, name, k) && IsDir(c.nodes, x)
    requires 1 <= x <= |d.inodes| && NodeOnDisk(d.sb.blockSize, d.inodes[x - 1], d.data, c.nodes[x])
    ensures x in MovedNodes(c.nodes, p, was, q, name, k)
    ensures NodeOnDisk(d.sb.blockSize, MovedInodes(d, c, p, was, q, name, k)[x - 1],
      MovedData(d, c, p, was, q, name, k),
                       MovedNodes(c.nodes, p, was, q, name, k)[x])
  {
    MovedBlock(d, c, p, was, q, name, k, x);
    MovedInodeAt(d, c, p, was, q, name, k, x);
    hide NodeOnDisk, Core, MoveReady, MovedNodes, MovedData, MovedInodes, Pack, Movable, CanMove, AllEncodable;
    hide LookupName, Ordinary;
    var after := MovedNodes(c.nodes, p, was, q, name, k);
    var data := MovedData(d, c, p, was, q, name, k);
    var inode := MovedInodes(d, c, p, was, q, name, k)[x - 1];
    RewrittenDir(d.sb.blockSize, d.inodes[x - 1], d.data, data, c.nodes[x], after[x].entries);
    RelinkedDir(d.sb.blockSize, d.inodes[x - 1], data, Dir(c.nodes[x].block, after[x].entries), inode.linksCount);
  }

  lemma MovedInodeAt(d: Disk, c: Catalog, p: nat, was: Name, q: u32, name: Name, k: u32, x: nat)
    requires MoveReady(d, c, p, was, q, name, k) && 1 <= x <= |d.inodes|
    ensures var i := MovedInodes(d, c, p, was, q, name, k)[x - 1];
      && i == d.inodes[x - 1].(linksCount := i.linksCount)
      && i.linksCount == d.inodes[x - 1].linksCount
         + (if Reparents(c.nodes, p, q, k) then (if x == q then 1 else if x == p
           && d.inodes[p - 1].linksCount >= 1 then -1 else 0) else 0)
  {
    hide CanMove, Entered1, WithoutEntry, MovedNodes, Pack, AllEncodable;
  }

  lemma DistinctBlocks(d: Disk, c: Catalog, x: nat, y: nat)
    requires Core(d, c) && IsDir(c.nodes, x) && IsDir(c.nodes, y) && x != y
    ensures c.nodes[x].block != c.nodes[y].block
  {
    hide TreeOk, TreeOnDisk, BitmapsOk, Geometry, OwnOk, LostOk;
    DirBlockOwned(c, x, y);
  }

  /** After the writes every directory's block packs its new records. */
  lemma DirHeld(size: nat, i: Inode, data: seq<seq<byte>>, node: Node)
    requires node.Dir? && NodeOnDisk(size, i, data, node)
    ensures AllEncodable(node.entries) && node.block < |data| && data[node.block] == Pack(node.entries)
  {
    hide Pack, AllEncodable, RunLeaf;
  }

  lemma MovedBlock(d: Disk, c: Catalog, p: nat, was: Name, q: u32, name: Name, k: u32, x: nat)
    requires Core(d, c) && Movable(c, p, was, q, name, k) && MoveReady(d, c, p, was, q, name, k) && IsDir(c.nodes, x)
    requires 1 <= x <= |d.inodes| && NodeOnDisk(d.sb.blockSize, d.inodes[x - 1], d.data, c.nodes[x])
    ensures var after := MovedNodes(c.nodes, p, was, q, name, k);
      && IsDir(after, x) && after[x].block == c.nodes[x].block && after[x].block < |d.data|
      && AllEncodable(after[x].entries) && MovedData(d, c, p, was, q, name, k)[after[x].block] == Pack(after[x].entries)
  {
    hide CanMove, Entered1, WithoutEntry, MovedNodes, Pack, Movable, Core, NodeOnDisk, MoveReady, MovedData;
    hide AllEncodable, LookupName, Ordinary;
    ReadyCanMove(d, c, p, was, q, name, k);
    BlocksOfMove(c, p, was, q, name, k);
    MovableParts(c, p, was, q, name, k);
    DirHeld(d.sb.blockSize, d.inodes[x - 1], d.data, c.nodes[x]);
    MovedDataAt(d, c, p, was, q, name, k, c.nodes[x].block);
    if x != p {
      DistinctBlocks(d, c, x, p);
    }
    if x != q {
      DistinctBlocks(d, c, x, q);
    }
    if x != k && IsDir(c.nodes, k) {
      DistinctBlocks(d, c, x, k);
    }
  }

  lemma MoveOtherOnDisk(d: Disk, c: Catalog, p: nat, was: Name, q: u32, name: Name, k: u32, x: nat)
    requires Core(d, c) && MoveReady(d, c, p, was, q, name, k) && x in c.nodes && !IsDir(c.nodes, x)
    requires 1 <= x <= |d.inodes| && NodeOnDisk(d.sb.blockSize, d.inodes[x - 1], d.data, c.nodes[x])
    ensures MovedInodes(d, c, p, was, q, name, k)[x - 1] == d.inodes[x - 1]
    ensures NodeOnDisk(d.sb.blockSize, d.inodes[x - 1], MovedData(d, c, p, was, q, name, k), c.nodes[x])
  {
    hide NodeOnDisk, Core, MoveReady, MovedNodes, MovedData, NodeBlocks, MovedInodes, CanMove;
    ReadyCanMove(d, c, p, was, q, name, k);
    MovedElsewhere(d, c, p, was, q, name, k, x);
    OtherInode(d, c, p, was, q, name, k, x);
    NodeStable(d.sb.blockSize, d.inodes[x - 1], d.data, MovedData(d, c, p, was, q, name, k), c.nodes[x]);
  }

  lemma OtherInode(d: Disk, c: Catalog, p: nat, was: Name, q: u32, name: Name, k: u32, x: nat)
    requires MoveReady(d, c, p, was, q, name, k) && x in c.nodes && !IsDir(c.nodes, x) && 1 <= x <= |d.inodes|
    ensures MovedInodes(d, c, p, was, q, name, k)[x - 1] == d.inodes[x - 1]
  {
    ReadyCanMove(d, c, p, was, q, name, k);
    BlocksOfMove(c, p, was, q, name, k);
    hide CanMove, Entered1, WithoutEntry, MovedNodes, Pack, AllEncodable;
  }

  lemma MovedElsewhere(d: Disk, c: Catalog, p: nat, was: Name, q: u32, name: Name, k: u32, x: nat)
    requires Core(d, c) && MoveReady(d, c, p, was, q, name, k) && x in c.nodes && !IsDir(c.nodes, x)
    ensures forall b :: b in NodeBlocks(c.nodes[x]) && b < |d.data| ==>
      MovedData(d, c, p, was, q, name, k)[b] == d.data[b]
  {
    ReadyCanMove(d, c, p, was, q, name, k);
    BlocksOfMove(c, p, was, q, name, k);
    assert OwnOk(c.nodes, c.own) && LostOk(c);
    hide Core, CanMove, Entered1, WithoutEntry, MovedNodes, Pack, NodeBlocks, OwnOk, LostOk, MoveReady, MovedData;
    hide AllEncodable;
    DirBlockOwned(c, p, x);
    DirBlockOwned(c, q, x);
    if IsDir(c.nodes, k) {
      DirBlockOwned(c, k, x);
    }
    forall b | b in NodeBlocks(c.nodes[x]) && b < |d.data| ensures MovedData(d, c, p, was, q, name, k)[b] == d.data[b] {
      MovedDataAt(d, c, p, was, q, name, k, b);
    }
  }

  lemma MoveSameDirs(c: Catalog, p: nat, was: Name, q: u32, name: Name, k: u32)
    requires CanMove(c.nodes, p, was, q, name, k) && k as nat in c.up
    ensures var c' := Move(c, p, was, q, name, k);
      SameDirsBut(c.nodes, c.up, c'.nodes, c'.up, k) && (IsDir(c'.nodes, k) <==> IsDir(c.nodes, k))
    ensures var c' := Move(c, p, was, q, name, k); forall x :: IsDir(c'.nodes, x) ==> IsDir(c.nodes, x)
  {
    var one := Entered1(c.nodes, q, name, k);
    CarveIsDir(c.nodes, q, name);
    EraseIsDir(one, p, was);
    WithEntryOthers(c.nodes, q, name, k, FileTypeOf(c.nodes[k]));
    WithoutEntryOthers(one, p, was);
    hide CanCarve, CanErase, Carve, Erase, Find, FileTypeOf, Repoint;
  }

  lemma MoveLinks(d: Disk, c: Catalog, p: nat, was: Name, q: u32, name: Name, k: u32)
    requires Core(d, c) && Movable(c, p, was, q, name, k) && MoveReady(d, c, p, was, q, name, k)
    ensures var d' := MovedDisk(d, c, p, was, q, name, k); var c' := Move(c, p, was, q, name, k);
      LinksOk(d'.inodes, c'.nodes, c'.up) && d'.gd.usedDirsCount == |DirSet(c'.nodes)|
  {
    ReadyCanMove(d, c, p, was, q, name, k);
    hide MovedInodes, MovedData, MoveReady, CanMove, MovedNodes, SameDirsBut, Subdirs, DirSet, NodesOk, Core, CanCarve;
    hide LookupName, Ordinary;
    var d' := MovedDisk(d, c, p, was, q, name, k);
    var c' := Move(c, p, was, q, name, k);
    MoveSameDirs(c, p, was, q, name, k);
    CoreParts(d, c);
    hide CatalogOk, BitmapsOk, Geometry, Sized;
    forall x: nat | IsDir(c'.nodes, x) ensures 1 <= x <= |d'.inodes|
      && d'.inodes[x - 1].linksCount == 2 + |Subdirs(c'.nodes, c'.up, x)| {
      MoveLinkAt(d, c, p, was, q, name, k, x);
    }
    CountsBut(c.nodes, c.up, c'.nodes, c'.up, k, k);
    hide IsDir;
    LinksIntro(d'.inodes, c'.nodes, c'.up);
  }

  lemma MoveLinkAt(d: Disk, c: Catalog, p: nat, was: Name, q: u32, name: Name, k: u32, x: nat)
    requires Core(d, c) && Movable(c, p, was, q, name, k) && MoveReady(d, c, p, was, q, name, k)
    requires IsDir(MovedNodes(c.nodes, p, was, q, name, k), x)
    ensures var c' := Move(c, p, was, q, name, k);
      1 <= x <= |d.inodes|
        && MovedInodes(d, c, p, was, q, name, k)[x - 1].linksCount == 2 + |Subdirs(c'.nodes, c'.up, x)|
  {
    hide *;
    ReadyCanMove(d, c, p, was, q, name, k);
    MovedWasDir(c, p, was, q, name, k, x);
    MoveSubdirsAt(c, p, was, q, name, k, x);
    LinkRoom(d, c, x);
    MovedInodeAt(d, c, p, was, q, name, k, x);
  }

  lemma MovedWasDir(c: Catalog, p: nat, was: Name, q: u32, name: Name, k: u32, x: nat)
    requires Movable(c, p, was, q, name, k) && CanMove(c.nodes, p, was, q, name, k)
    requires IsDir(MovedNodes(c.nodes, p, was, q, name, k), x)
    ensures IsDir(c.nodes, x)
  {
    hide CanMove, MovedNodes, LookupName, Ordinary, CanCarve;
    MoveSameDirs(c, p, was, q, name, k);
  }

  /** Only the two parents of a moved directory gain or lose a subdirectory. */
  lemma MoveSubdirsAt(c: Catalog, p: nat, was: Name, q: u32, name: Name, k: u32, x: nat)
    requires Movable(c, p, was, q, name, k) && CanMove(c.nodes, p, was, q, name, k)
    ensures var c' := Move(c, p, was, q, name, k);
      |Subdirs(c'.nodes, c'.up, x)| == |Subdirs(c.nodes, c.up, x)|
        + (if Reparents(c.nodes, p, q, k) then (if x == q then 1 else if x == p then -1 else 0) else 0)
  {
    hide CanMove, MovedNodes, SameDirsBut, Subdirs, DirSet, CanCarve, LookupName, Ordinary;
    var c' := Move(c, p, was, q, name, k);
    MoveSameDirs(c, p, was, q, name, k);
    hide IsDir;
    CountsBut(c.nodes, c.up, c'.nodes, c'.up, k, x);
  }

  lemma MoveBitmaps(d: Disk, c: Catalog, p: nat, was: Name, q: u32, name: Name, k: u32)
    requires Core(d, c) && MoveReady(d, c, p, was, q, name, k)
    ensures d.sb.blockSize > 0 && BitmapsOk(MovedDisk(d, c, p, was, q, name, k), Move(c, p, was, q, name, k))
  {
    hide Core, MoveReady, CanMove, MovedNodes, MovedData, BitmapsOk, FreeClean, Entered1, WithoutEntry, FirstData;
    RootNotLost(d, c);
    ReadyCanMove(d, c, p, was, q, name, k);
    BlocksOfMove(c, p, was, q, name, k);
    MovedOthers(d.sb.blockSize, c, p, was, q, name, k);
    var d', c' := MovedDisk(d, c, p, was, q, name, k), Move(c, p, was, q, name, k);
    var i, j := d'.inodes[p - 1], d'.inodes[q - 1];
    FreeCleanTwice(d, c, p, q, i, j);
    assert d'.inodes == d.inodes[p - 1 := i][q - 1 := j];
    SameBitmaps(d, c, d', c');
  }

  lemma FreeCleanTwice(d: Disk, c: Catalog, p: nat, q: nat, i: Inode, j: Inode)
    requires Core(d, c) && p in c.nodes && q in c.nodes && 1 <= p <= |d.inodes| && 1 <= q <= |d.inodes|
    ensures FreeClean(d.inodeBits, d.inodes[p - 1 := i][q - 1 := j])
  {
    hide CatalogOk, TreeOnDisk, BlockBitsOk, CountsOk, FirstData;
    assert d.inodeBits[p - 1] && d.inodeBits[q - 1];
  }
}
