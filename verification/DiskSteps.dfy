/** What entering, removing, moving and resizing do to the disk, and that the
    disk then holds the changed catalog. */
module DiskSteps {
  import opened Bytes
  import opened Results
  import opened DirEntries
  import opened DirBlocks
  import opened Listings
  import opened Paths
  import opened ExtentTrees
  import opened Inodes
  import opened Superblocks
  import opened Catalogs
  import opened Moves
  import opened Disks

  lemma NodesIntro(blockSize: nat, inodes: seq<Inode>, data: seq<seq<byte>>, nodes: map<nat, Node>)
    requires forall x :: x in nodes ==> 1 <= x <= |inodes| && NodeOnDisk(blockSize, inodes[x - 1], data, nodes[x])
    ensures NodesOk(blockSize, inodes, data, nodes)
  {
    hide NodeOnDisk;
  }

  lemma NodeAt(blockSize: nat, inodes: seq<Inode>, data: seq<seq<byte>>, nodes: map<nat, Node>, x: nat)
    requires NodesOk(blockSize, inodes, data, nodes) && x in nodes
    ensures 1 <= x <= |inodes| && NodeOnDisk(blockSize, inodes[x - 1], data, nodes[x])
  {
    hide NodeOnDisk;
  }

  /** Inodes and blocks only changed hands: the bitmaps still tell the truth. */
  lemma SameBitmaps(d: Disk, c: Catalog, d': Disk, c': Catalog)
    requires d.sb.blockSize > 0 && BitmapsOk(d, c) && d'.sb == d.sb
    requires d'.blockBits == d.blockBits && d'.inodeBits == d.inodeBits
    requires d'.gd.freeBlocksCount == d.gd.freeBlocksCount && d'.gd.freeInodesCount == d.gd.freeInodesCount
    requires c'.own.Keys + c'.lostBlocks == c.own.Keys + c.lostBlocks
    requires c'.nodes.Keys + c'.lostInodes == c.nodes.Keys + c.lostInodes && ROOT !in c'.lostInodes
    requires FreeClean(d'.inodeBits, d'.inodes)
    ensures BitmapsOk(d', c')
  {
    hide CountsOk, FreeClean, FirstData;
    assert forall b :: b in c'.own || b in c'.lostBlocks <==> b in c'.own.Keys + c'.lostBlocks;
    assert forall b :: b in c.own || b in c.lostBlocks <==> b in c.own.Keys + c.lostBlocks;
    assert forall k :: k in c'.nodes.Keys || k in c'.lostInodes <==> k in c'.nodes.Keys + c'.lostInodes;
    assert forall k :: k in c.nodes.Keys || k in c.lostInodes <==> k in c.nodes.Keys + c.lostInodes;
  }

  /** A live inode's slot may change without making a free slot look used. */
  lemma FreeCleanAt(d: Disk, c: Catalog, k: nat, i: Inode)
    requires Core(d, c) && k in c.nodes && 1 <= k <= |d.inodes|
    ensures FreeClean(d.inodeBits, d.inodes[k - 1 := i])
  {
    hide CatalogOk, TreeOnDisk, BlockBitsOk, CountsOk, FirstData;
    assert d.inodeBits[k - 1];
  }

  // ----- entering -----

  /** Which live inode a directory block belongs to. */
  lemma DirBlockOwned(c: Catalog, p: nat, x: nat)
    requires OwnOk(c.nodes, c.own) && LostOk(c) && IsDir(c.nodes, p) && x in c.nodes && x != p
    ensures c.nodes[p].block !in NodeBlocks(c.nodes[x]) && c.nodes[p].block !in c.lostBlocks
  {
    var b := c.nodes[p].block;
    assert b in NodeBlocks(c.nodes[p]);
    hide NodeBlocks;
    assert c.own[b] == p;
  }

  lemma RelinkedDir(blockSize: nat, i: Inode, data: seq<seq<byte>>, node: Node, links: u16)
    requires node.Dir? && NodeOnDisk(blockSize, i, data, node)
    ensures NodeOnDisk(blockSize, i.(linksCount := links), data, node)
  {
    hide RunLeaf, Pack;
  }

  /** A directory's inode does not mention its entries: rewriting the block is enough. */
  lemma RewrittenDir(blockSize: nat, i: Inode, data: seq<seq<byte>>, data': seq<seq<byte>>, node: Node,
                     es: seq<DirEntry>)
    requires node.Dir? && NodeOnDisk(blockSize, i, data, node)
    requires |data'| == |data| && AllEncodable(es) && data'[node.block] == Pack(es)
    ensures NodeOnDisk(blockSize, i, data', Dir(node.block, es))
  {
    hide RunLeaf, Pack;
  }

  /** The disk after entering `node` as inode `k`: one directory block rewritten, and for a
      directory the parent's link and the directory count. */
  function AttachedDisk(d: Disk, c: Catalog, p: nat, name: Name, k: u32, node: Node): Disk
    requires CanCarve(c.nodes, p, name) && AllEncodable(Carve(c.nodes[p].entries, name, k, FileTypeOf(node)))
    requires c.nodes[p].block < |d.data| && 1 <= p <= |d.inodes|
    requires node.Dir? ==> d.inodes[p - 1].linksCount + 1 < 0x1_0000 && d.gd.usedDirsCount + 1 < 0x1_0000_0000
  {
    var d1 := PutBlock(d, c.nodes[p].block, Pack(Carve(c.nodes[p].entries, name, k, FileTypeOf(node))));
    if node.Dir? then WithDirs(WithLinks(d1, p, d.inodes[p - 1].linksCount + 1), d.gd.usedDirsCount + 1) else d1
  }

  lemma AttachReady(d: Disk, c: Catalog, p: nat, name: Name, k: u32, node: Node)
    requires Core(d, c) && Attachable(d.sb.blockSize, c, p, name, k, node)
    ensures AllEncodable(Carve(c.nodes[p].entries, name, k, FileTypeOf(node)))
    ensures |Pack(Carve(c.nodes[p].entries, name, k, FileTypeOf(node)))| == d.sb.blockSize
    ensures c.nodes[p].block < |d.data| && c.nodes[p].block in c.own && FirstData(d.sb) <= c.nodes[p].block
    ensures 1 <= p <= |d.inodes|
    ensures d.inodes[p - 1].linksCount + 1 < 0x1_0000 && d.gd.usedDirsCount + 1 < 0x1_0000_0000
  {
    hide BlockBitsOk, CountsOk, FreeClean, UpOk, DownOk, NodeOnDisk, ListingOk, Subdirs, DirSet, Carve, CarveFault;
    hide LookupName, Pack;
    var es := c.nodes[p].entries;
    CarveListing(p, es, name, k, FileTypeOf(node), d.sb.blockSize);
    SubdirRoom(d.sb.blockSize, c.nodes, c.up, p);
    DirBlockIn(d, c, p);
    DirCountBound(d, c);
  }

  lemma DirBlockIn(d: Disk, c: Catalog, p: nat)
    requires Core(d, c) && IsDir(c.nodes, p)
    ensures c.nodes[p].block < |d.data| && c.nodes[p].block in c.own && FirstData(d.sb) <= c.nodes[p].block
    ensures 1 <= p <= |d.inodes| && NodeOnDisk(d.sb.blockSize, d.inodes[p - 1], d.data, c.nodes[p])
  {
    hide CountsOk, FreeClean, TreeOk, InodeBitsOk, LinksOk, NodeOnDisk, FirstData;
    var b := c.nodes[p].block;
    assert b in NodeBlocks(c.nodes[p]);
    assert b in c.own;
  }

  lemma DirCountBound(d: Disk, c: Catalog)
    requires Core(d, c)
    ensures |DirSet(c.nodes)| <= d.sb.inodesCount <= 0x8000
  {
    hide CountsOk, FreeClean, TreeOk, BlockBitsOk, OwnOk, NodeOnDisk, LinksOk, FirstData, DirSet, RunBlocks;
    var all := RunBlocks(1, d.sb.inodesCount);
    RunSize(1, d.sb.inodesCount);
    forall k | k in DirSet(c.nodes) ensures k in all {
      assert IsDir(c.nodes, k);
    }
    SubsetSize(DirSet(c.nodes), all);
  }

  lemma AttachCore(d: Disk, c: Catalog, p: nat, name: Name, k: u32, node: Node)
    requires Core(d, c) && Attachable(d.sb.blockSize, c, p, name, k, node)
    requires 1 <= k <= |d.inodes| && NodeOnDisk(d.sb.blockSize, d.inodes[k - 1], d.data, node)
    requires node.Dir? ==> d.inodes[k - 1].linksCount == 2
    ensures AllEncodable(Carve(c.nodes[p].entries, name, k, FileTypeOf(node)))
    ensures c.nodes[p].block < |d.data| && 1 <= p <= |d.inodes|
    ensures d.inodes[p - 1].linksCount + 1 < 0x1_0000 && d.gd.usedDirsCount + 1 < 0x1_0000_0000
    ensures Core(AttachedDisk(d, c, p, name, k, node), Attach(c, p, name, k, node))
  {
    hide *;
    AttachReady(d, c, p, name, k, node);
    AttachCatalogOk(d, c, p, name, k, node);
    AttachTreeOnDisk(d, c, p, name, k, node);
    AttachBitmaps(d, c, p, name, k, node);
    AttachShape(d, c, p, name, k, node);
    CoreIntro(AttachedDisk(d, c, p, name, k, node), Attach(c, p, name, k, node), d.sb.blockSize);
  }

  lemma AttachCatalogOk(d: Disk, c: Catalog, p: nat, name: Name, k: u32, node: Node)
    requires Core(d, c) && Attachable(d.sb.blockSize, c, p, name, k, node)
    ensures CanCarve(c.nodes, p, name) && CatalogOk(d.sb.blockSize, Attach(c, p, name, k, node))
  {
    AttachTree(d.sb.blockSize, c, p, name, k, node);
    AttachOwn(d.sb.blockSize, c, p, name, k, node);
    hide TreeOk, OwnOk, Attach;
  }

  lemma AttachShape(d: Disk, c: Catalog, p: nat, name: Name, k: u32, node: Node)
    requires Core(d, c) && Attachable(d.sb.blockSize, c, p, name, k, node)
    requires AllEncodable(Carve(c.nodes[p].entries, name, k, FileTypeOf(node)))
    requires |Pack(Carve(c.nodes[p].entries, name, k, FileTypeOf(node)))| == d.sb.blockSize
    requires c.nodes[p].block < |d.data| && 1 <= p <= |d.inodes|
    requires d.inodes[p - 1].linksCount + 1 < 0x1_0000 && d.gd.usedDirsCount + 1 < 0x1_0000_0000
    ensures var d' := AttachedDisk(d, c, p, name, k, node);
      Geometry(d'.sb, d'.gd) && Sized(d') && d'.sb == d.sb && d'.sb.blockSize > 0
  {
    hide CatalogOk, TreeOnDisk, BitmapsOk, Carve, Pack;
    GeometryFixed(d, AttachedDisk(d, c, p, name, k, node));
  }

  lemma AttachBitmaps(d: Disk, c: Catalog, p: nat, name: Name, k: u32, node: Node)
    requires Core(d, c) && Attachable(d.sb.blockSize, c, p, name, k, node)
    requires AllEncodable(Carve(c.nodes[p].entries, name, k, FileTypeOf(node)))
    requires c.nodes[p].block < |d.data| && 1 <= p <= |d.inodes|
    requires d.inodes[p - 1].linksCount + 1 < 0x1_0000 && d.gd.usedDirsCount + 1 < 0x1_0000_0000
    ensures d.sb.blockSize > 0 && BitmapsOk(AttachedDisk(d, c, p, name, k, node), Attach(c, p, name, k, node))
  {
    hide TreeOk, OwnOk, NodesOk, LinksOk, Carve, CarveFault, Pack, NodeBlocks, LookupName, Ordinary, ListingOk, Tiles;
    hide BitmapsOk, Geometry;
    var d' := AttachedDisk(d, c, p, name, k, node);
    var c' := Attach(c, p, name, k, node);
    WithEntryOthers(c.nodes, p, name, k, FileTypeOf(node));
    hide WithEntry, FileTypeOf;
    FreeCleanAt(d, c, p, d.inodes[p - 1]);
    FreeCleanAt(d, c, p, d'.inodes[p - 1]);
    assert d.inodes[p - 1 := d.inodes[p - 1]] == d.inodes && d'.inodes == d.inodes[p - 1 := d'.inodes[p - 1]];
    RootNotLost(d, c);
    hide Core, CatalogOk, TreeOnDisk;
    SameBitmaps(d, c, d', c');
  }

  lemma RootNotLost(d: Disk, c: Catalog)
    requires Core(d, c)
    ensures ROOT in c.nodes && ROOT !in c.lostInodes && d.sb.blockSize > 0 && BitmapsOk(d, c)
  {
    hide UpOk, DownOk, DirsOk, OwnOk, BlockBitsOk, CountsOk, FreeClean, NodesOk, LinksOk, FirstData;
  }

  lemma AttachTreeOnDisk(d: Disk, c: Catalog, p: nat, name: Name, k: u32, node: Node)
    requires Core(d, c) && Attachable(d.sb.blockSize, c, p, name, k, node)
    requires 1 <= k <= |d.inodes| && NodeOnDisk(d.sb.blockSize, d.inodes[k - 1], d.data, node)
    requires node.Dir? ==> d.inodes[k - 1].linksCount == 2
    requires AllEncodable(Carve(c.nodes[p].entries, name, k, FileTypeOf(node)))
    requires c.nodes[p].block < |d.data| && 1 <= p <= |d.inodes|
    requires d.inodes[p - 1].linksCount + 1 < 0x1_0000 && d.gd.usedDirsCount + 1 < 0x1_0000_0000
    ensures TreeOnDisk(AttachedDisk(d, c, p, name, k, node), Attach(c, p, name, k, node))
  {
    hide BitmapsOk, Geometry, NodeOnDisk, Carve, CarveFault, Pack, LookupName, Ordinary, ListingOk, Tiles, Subdirs;
    hide DirSet, NodeBlocks, OwnOk, NodesOk, LinksOk, UpOk, DownOk;
    var d' := AttachedDisk(d, c, p, name, k, node);
    var c' := Attach(c, p, name, k, node);
    assert k !in c.nodes && k != p;
    WithEntryOthers(c.nodes, p, name, k, FileTypeOf(node));
    forall x | x in c'.nodes ensures 1 <= x <= |d'.inodes|
      && NodeOnDisk(d.sb.blockSize, d'.inodes[x - 1], d'.data, c'.nodes[x]) {
      AttachNodeAt(d, c, p, name, k, node, x);
    }
    hide AttachedDisk, Attach, CatalogOk, TreeOnDisk;
    NodesIntro(d.sb.blockSize, d'.inodes, d'.data, c'.nodes);
    AttachLinks(d, c, p, name, k, node);
    TreeOnDiskIntro(d', c', d.sb.blockSize);
  }

  lemma TreeOnDiskIntro(d: Disk, c: Catalog, size: nat)
    requires d.sb.blockSize == size && NodesOk(size, d.inodes, d.data, c.nodes) && LinksOk(d.inodes, c.nodes, c.up)
    requires d.gd.usedDirsCount == |DirSet(c.nodes)|
    ensures TreeOnDisk(d, c)
  {
  }

  lemma NewNodeApart(d: Disk, c: Catalog, p: nat, name: Name, k: u32, node: Node)
    requires Core(d, c) && Attachable(d.sb.blockSize, c, p, name, k, node)
    ensures c.nodes[p].block !in NodeBlocks(node) && k != p
  {
    hide BitmapsOk, Geometry, Carve, CarveFault, LookupName, Ordinary, ListingOk, Tiles, TreeOk, TreeOnDisk, Sized;
    assert c.nodes[p].block in NodeBlocks(c.nodes[p]);
    hide NodeBlocks;
  }

  lemma AttachedNew(c: Catalog, p: nat, name: Name, k: u32, node: Node)
    requires CanCarve(c.nodes, p, name)
    ensures Attach(c, p, name, k, node).nodes[k] == node
  {
    hide Carve, CarveFault, NodeBlocks;
  }

  lemma AttachNodeAt(d: Disk, c: Catalog, p: nat, name: Name, k: u32, node: Node, x: nat)
    requires Core(d, c) && Attachable(d.sb.blockSize, c, p, name, k, node)
    requires 1 <= k <= |d.inodes| && NodeOnDisk(d.sb.blockSize, d.inodes[k - 1], d.data, node)
    requires AllEncodable(Carve(c.nodes[p].entries, name, k, FileTypeOf(node)))
    requires c.nodes[p].block < |d.data| && 1 <= p <= |d.inodes|
    requires d.inodes[p - 1].linksCount + 1 < 0x1_0000 && d.gd.usedDirsCount + 1 < 0x1_0000_0000
    requires x in Attach(c, p, name, k, node).nodes
    ensures var d' := AttachedDisk(d, c, p, name, k, node);
      1 <= x <= |d'.inodes|
        && NodeOnDisk(d.sb.blockSize, d'.inodes[x - 1], d'.data, Attach(c, p, name, k, node).nodes[x])
  {
    hide BitmapsOk, Geometry, NodeOnDisk, Carve, CarveFault, Pack, LookupName, Ordinary, ListingOk, Tiles, TreeOk;
    hide LinksOk;
    var d' := AttachedDisk(d, c, p, name, k, node);
    if x == k {
      hide NodeBlocks, Core;
      NewNodeApart(d, c, p, name, k, node);
      AttachedNew(c, p, name, k, node);
      NodeStable(d.sb.blockSize, d.inodes[k - 1], d.data, d'.data, node);
    } else {
      NodeAt(d.sb.blockSize, d.inodes, d.data, c.nodes, x);
      if x == p {
        hide NodeBlocks, OwnOk;
        RewrittenDir(d.sb.blockSize, d.inodes[p - 1], d.data, d'.data, c.nodes[p],
          Carve(c.nodes[p].entries, name, k, FileTypeOf(node)));
        RelinkedDir(d.sb.blockSize, d.inodes[p - 1], d'.data, Attach(c, p, name, k, node).nodes[p],
          d'.inodes[p - 1].linksCount);
      } else {
        DirBlockOwned(c, p, x);
        hide NodeBlocks, OwnOk;
        NodeStable(d.sb.blockSize, d.inodes[x - 1], d.data, d'.data, c.nodes[x]);
      }
    }
  }

  lemma LinksIntro(inodes: seq<Inode>, nodes: map<nat, Node>, up: map<nat, Place>)
    requires forall x: nat :: IsDir(nodes, x) ==>
      1 <= x <= |inodes| && inodes[x - 1].linksCount == 2 + |Subdirs(nodes, up, x)|
    ensures LinksOk(inodes, nodes, up)
  {
  }

  lemma AttachSameDirs(c: Catalog, p: nat, name: Name, k: u32, node: Node)
    requires CanCarve(c.nodes, p, name) && k != p
    ensures var c' := Attach(c, p, name, k, node); SameDirsBut(c.nodes, c.up, c'.nodes, c'.up, k)
  {
    hide Carve, CarveFault, NodeBlocks;
  }

  lemma AttachLinks(d: Disk, c: Catalog, p: nat, name: Name, k: u32, node: Node)
    requires Core(d, c) && Attachable(d.sb.blockSize, c, p, name, k, node)
    requires 1 <= k <= |d.inodes| && (node.Dir? ==> d.inodes[k - 1].linksCount == 2)
    requires AllEncodable(Carve(c.nodes[p].entries, name, k, FileTypeOf(node)))
    requires c.nodes[p].block < |d.data| && 1 <= p <= |d.inodes|
    requires d.inodes[p - 1].linksCount + 1 < 0x1_0000 && d.gd.usedDirsCount + 1 < 0x1_0000_0000
    ensures var d' := AttachedDisk(d, c, p, name, k, node); var c' := Attach(c, p, name, k, node);
      LinksOk(d'.inodes, c'.nodes, c'.up) && d'.gd.usedDirsCount == |DirSet(c'.nodes)|
  {
    hide BitmapsOk, Geometry, NodesOk, Carve, CarveFault, Pack, LookupName, Ordinary, ListingOk, Tiles, OwnOk;
    hide NodeBlocks, DownOk, DirsOk, Subdirs, DirSet, SameDirsBut;
    var d' := AttachedDisk(d, c, p, name, k, node);
    var c' := Attach(c, p, name, k, node);
    assert k !in c.nodes && k !in c.up;
    AttachSameDirs(c, p, name, k, node);
    assert !IsDir(c.nodes, k) && !IsSubdir(c.nodes, c.up, p, k);
    assert c'.nodes[k] == node && c'.up[k] == Place(p, name);
    forall x: nat | IsDir(c'.nodes, x) ensures 1 <= x <= |d'.inodes|
      && d'.inodes[x - 1].linksCount == 2 + |Subdirs(c'.nodes, c'.up, x)| {
      CountsBut(c.nodes, c.up, c'.nodes, c'.up, k, x);
      if x == k {
        NoSubdirs(c, k);
      } else {
        assert IsDir(c.nodes, x);
      }
    }
    CountsBut(c.nodes, c.up, c'.nodes, c'.up, k, p);
    LinksIntro(d'.inodes, c'.nodes, c'.up);
  }

  /** Nothing is entered in an inode that is not live. */
  lemma NoSubdirs(c: Catalog, k: nat)
    requires UpOk(c.nodes, c.up) && k !in c.nodes
    ensures Subdirs(c.nodes, c.up, k) == {}
  {
    hide LookupName, Ordinary, Parent, FileTypeOf, Subdirs;
    forall x ensures !IsSubdir(c.nodes, c.up, k, x) {
      if x in c.up {
        assert IsDir(c.nodes, c.up[x].dir);
      }
    }
  }

  // ----- removing -----

  function Erased(c: Catalog, p: nat, name: Name): seq<DirEntry>
    requires CanErase(c.nodes, p, name)
  {
    Erase(c.nodes[p].entries, Find(c.nodes[p].entries, name).value)
  }

  function DetachedDisk(d: Disk, c: Catalog, p: nat, name: Name, k: nat): Disk
    requires CanErase(c.nodes, p, name) && AllEncodable(Erased(c, p, name)) && k in c.nodes
    requires c.nodes[p].block < |d.data| && 1 <= p <= |d.inodes|
  {
    var d1 := PutBlock(d, c.nodes[p].block, Pack(Erased(c, p, name)));
    if c.nodes[k].Dir?
      then WithDirs(WithLinks(d1, p, Less(d.inodes[p - 1].linksCount, 1)), Less(d.gd.usedDirsCount, 1)) else d1
  }

  /** What removing inode `k` relies on, and where everything is. */
  lemma DetachReady(d: Disk, c: Catalog, p: nat, name: Name, k: nat)
    requires Core(d, c) && Detachable(c, p, name, k)
    ensures p != k && CanErase(c.nodes, p, name) && AllEncodable(Erased(c, p, name))
    ensures |Pack(Erased(c, p, name))| == d.sb.blockSize
    ensures FindBinding(c.nodes[p].entries, name, k) == Find(c.nodes[p].entries, name)
    ensures IsDir(c.nodes, p) && c.nodes[p].block < |d.data| && 1 <= p <= |d.inodes| && 1 <= k <= |d.inodes|
    ensures NodeOnDisk(d.sb.blockSize, d.inodes[p - 1], d.data, c.nodes[p])
    ensures NodeOnDisk(d.sb.blockSize, d.inodes[k - 1], d.data, c.nodes[k])
  {
    DetachTree(d.sb.blockSize, c, p, name, k);
    assert IsDir(c.nodes, p) && Ordinary(name)
      && LookupName(c.nodes[p].entries, name) == Some(Binding(k, FileTypeOf(c.nodes[k])));
    assert TreeOk(d.sb.blockSize, c.nodes, c.up) && NodesOk(d.sb.blockSize, d.inodes, d.data, c.nodes);
    hide BitmapsOk, NodesOk, UpOk, DownOk, NodeOnDisk, ListingOk, LookupName, Ordinary, Pack, Erase, Find, FindBinding;
    hide CanErase, Detach, LinksOk, FileTypeOf, OwnOk;
    WithoutEntryDir(d.sb.blockSize, c.nodes, p, name);
    DirBlockIn(d, c, p);
    NodeAt(d.sb.blockSize, d.inodes, d.data, c.nodes, k);
  }

  lemma DetachCore(d: Disk, c: Catalog, p: nat, name: Name, k: nat)
    requires Core(d, c) && Detachable(c, p, name, k)
    ensures CanErase(c.nodes, p, name) && AllEncodable(Erased(c, p, name))
    ensures c.nodes[p].block < |d.data| && 1 <= p <= |d.inodes|
    ensures Core(DetachedDisk(d, c, p, name, k), Detach(c, p, name, k))
  {
    hide *;
    DetachReady(d, c, p, name, k);
    DetachableParts(c, p, name, k);
    DetachCatalogOk(d, c, p, name, k);
    DetachTreeOnDisk(d, c, p, name, k);
    DetachBitmaps(d, c, p, name, k);
    DetachShape(d, c, p, name, k);
    CoreIntro(DetachedDisk(d, c, p, name, k), Detach(c, p, name, k), d.sb.blockSize);
  }

  lemma DetachableParts(c: Catalog, p: nat, name: Name, k: nat)
    requires Detachable(c, p, name, k)
    ensures k in c.nodes && k in c.up
  {
  }

  lemma DetachCatalogOk(d: Disk, c: Catalog, p: nat, name: Name, k: nat)
    requires Core(d, c) && Detachable(c, p, name, k)
    ensures CanErase(c.nodes, p, name) && CatalogOk(d.sb.blockSize, Detach(c, p, name, k))
  {
    DetachTree(d.sb.blockSize, c, p, name, k);
    DetachOwn(d.sb.blockSize, c, p, name, k);
    hide TreeOk, OwnOk, Detach;
  }

  lemma DetachShape(d: Disk, c: Catalog, p: nat, name: Name, k: nat)
    requires Core(d, c) && Detachable(c, p, name, k)
    requires CanErase(c.nodes, p, name) && AllEncodable(Erased(c, p, name))
    requires |Pack(Erased(c, p, name))| == d.sb.blockSize
    requires c.nodes[p].block < |d.data| && 1 <= p <= |d.inodes|
    ensures var d' := DetachedDisk(d, c, p, name, k);
      Geometry(d'.sb, d'.gd) && Sized(d') && d'.sb == d.sb && d'.sb.blockSize > 0
  {
    hide CatalogOk, TreeOnDisk, BitmapsOk, Erased, Pack, Find, FirstData;
    var d' := DetachedDisk(d, c, p, name, k);
    GeometryFixed(d, d');
    assert d'.data == d.data[c.nodes[p].block := Pack(Erased(c, p, name))];
  }

  lemma DetachBitmaps(d: Disk, c: Catalog, p: nat, name: Name, k: nat)
    requires Core(d, c) && Detachable(c, p, name, k)
    requires CanErase(c.nodes, p, name) && AllEncodable(Erased(c, p, name)) && p != k
    requires c.nodes[p].block < |d.data| && 1 <= p <= |d.inodes|
    ensures d.sb.blockSize > 0 && BitmapsOk(DetachedDisk(d, c, p, name, k), Detach(c, p, name, k))
  {
    hide *;
    DetachableParts(c, p, name, k);
    var d' := DetachedDisk(d, c, p, name, k);
    RootNotLost(d, c);
    DetachUnions(d, c, p, name, k);
    DetachSlots(d, c, p, name, k);
    SameBitmaps(d, c, d', Detach(c, p, name, k));
  }

  lemma DetachSlots(d: Disk, c: Catalog, p: nat, name: Name, k: nat)
    requires Core(d, c)
    requires CanErase(c.nodes, p, name) && AllEncodable(Erased(c, p, name)) && k in c.nodes
    requires c.nodes[p].block < |d.data| && 1 <= p <= |d.inodes|
    ensures var d' := DetachedDisk(d, c, p, name, k);
      && FreeClean(d'.inodeBits, d'.inodes) && d'.blockBits == d.blockBits && d'.inodeBits == d.inodeBits
      && d'.sb == d.sb
      && d'.gd.freeBlocksCount == d.gd.freeBlocksCount && d'.gd.freeInodesCount == d.gd.freeInodesCount
  {
    hide Core, Erased, Find, Pack, FreeClean;
    var d' := DetachedDisk(d, c, p, name, k);
    FreeCleanAt(d, c, p, d'.inodes[p - 1]);
    assert d'.inodes == d.inodes[p - 1 := d'.inodes[p - 1]];
  }

  lemma DetachUnions(d: Disk, c: Catalog, p: nat, name: Name, k: nat)
    requires Core(d, c) && Detachable(c, p, name, k) && CanErase(c.nodes, p, name)
    ensures var c' := Detach(c, p, name, k);
      && c'.own.Keys + c'.lostBlocks == c.own.Keys + c.lostBlocks
      && c'.nodes.Keys + c'.lostInodes == c.nodes.Keys + c.lostInodes && ROOT !in c'.lostInodes
  {
    hide *;
    RootNotLost(d, c);
    NotRoot(d, c, p, name, k);
    DetachHands(c, p, name, k);
  }

  lemma NotRoot(d: Disk, c: Catalog, p: nat, name: Name, k: nat)
    requires Core(d, c) && Detachable(c, p, name, k)
    ensures k != ROOT && k in c.nodes && NodeBlocks(c.nodes[k]) <= c.own.Keys
  {
    hide TreeOk, TreeOnDisk, BitmapsOk, Geometry, NodeBlocks, OwnOk, LostOk;
    TreeUpKeys(d.sb.blockSize, c.nodes, c.up);
    BlocksOwned(c.nodes, c.own, k);
  }

  /** Detaching hands the inode and its blocks over to the lost ones. */
  lemma DetachHands(c: Catalog, p: nat, name: Name, k: nat)
    requires CanErase(c.nodes, p, name) && k in c.nodes && k != ROOT && ROOT !in c.lostInodes
    requires NodeBlocks(c.nodes[k]) <= c.own.Keys
    ensures var c' := Detach(c, p, name, k);
      && c'.own.Keys + c'.lostBlocks == c.own.Keys + c.lostBlocks
      && c'.nodes.Keys + c'.lostInodes == c.nodes.Keys + c.lostInodes && ROOT !in c'.lostInodes
  {
    WithoutEntryOthers(c.nodes, p, name);
    hide CanErase, WithoutEntry, NodeBlocks;
    KeysGiven(c.own, c.lostBlocks, NodeBlocks(c.nodes[k]));
    KeysGiven(WithoutEntry(c.nodes, p, name), c.lostInodes, {k});
  }

  lemma KeysGiven<T>(m: map<nat, T>, lost: set<nat>, s: set<nat>)
    requires s <= m.Keys
    ensures (m - s).Keys + (lost + s) == m.Keys + lost
  {
  }

  lemma DetachTreeOnDisk(d: Disk, c: Catalog, p: nat, name: Name, k: nat)
    requires Core(d, c) && Detachable(c, p, name, k)
    requires CanErase(c.nodes, p, name) && AllEncodable(Erased(c, p, name)) && p != k
    requires c.nodes[p].block < |d.data| && 1 <= p <= |d.inodes|
    ensures TreeOnDisk(DetachedDisk(d, c, p, name, k), Detach(c, p, name, k))
  {
    hide *;
    DetachableParts(c, p, name, k);
    var d' := DetachedDisk(d, c, p, name, k);
    var c' := Detach(c, p, name, k);
    forall x | x in c'.nodes ensures 1 <= x <= |d'.inodes|
      && NodeOnDisk(d.sb.blockSize, d'.inodes[x - 1], d'.data, c'.nodes[x]) {
      DetachNodeAt(d, c, p, name, k, x);
    }
    NodesIntro(d.sb.blockSize, d'.inodes, d'.data, c'.nodes);
    DetachLinks(d, c, p, name, k);
    assert d'.sb == d.sb by { DetachedSb(d, c, p, name, k); }
    TreeOnDiskIntro(d', c', d.sb.blockSize);
  }

  lemma DetachedSb(d: Disk, c: Catalog, p: nat, name: Name, k: nat)
    requires CanErase(c.nodes, p, name) && AllEncodable(Erased(c, p, name)) && k in c.nodes
    requires c.nodes[p].block < |d.data| && 1 <= p <= |d.inodes|
    ensures DetachedDisk(d, c, p, name, k).sb == d.sb
  {
    hide Erased, CanErase, Pack;
  }

  lemma DetachNodeAt(d: Disk, c: Catalog, p: nat, name: Name, k: nat, x: nat)
    requires Core(d, c) && Detachable(c, p, name, k)
    requires CanErase(c.nodes, p, name) && AllEncodable(Erased(c, p, name)) && p != k
    requires c.nodes[p].block < |d.data| && 1 <= p <= |d.inodes|
    requires x in Detach(c, p, name, k).nodes
    ensures var d' := DetachedDisk(d, c, p, name, k);
      1 <= x <= |d'.inodes| && NodeOnDisk(d.sb.blockSize, d'.inodes[x - 1], d'.data, Detach(c, p, name, k).nodes[x])
  {
    hide BitmapsOk, Geometry, NodeOnDisk, Erase, Find, Pack, LookupName, Ordinary, ListingOk, Tiles, TreeOk, LinksOk;
    var d' := DetachedDisk(d, c, p, name, k);
    NodeAt(d.sb.blockSize, d.inodes, d.data, c.nodes, x);
    if x == p {
      hide NodeBlocks, OwnOk;
      RewrittenDir(d.sb.blockSize, d.inodes[p - 1], d.data, d'.data, c.nodes[p], Erased(c, p, name));
      RelinkedDir(d.sb.blockSize, d.inodes[p - 1], d'.data, Detach(c, p, name, k).nodes[p],
        d'.inodes[p - 1].linksCount);
    } else {
      DirBlockOwned(c, p, x);
      hide NodeBlocks, OwnOk;
      NodeStable(d.sb.blockSize, d.inodes[x - 1], d.data, d'.data, c.nodes[x]);
    }
  }

  lemma DetachLinks(d: Disk, c: Catalog, p: nat, name: Name, k: nat)
    requires Core(d, c) && Detachable(c, p, name, k)
    requires CanErase(c.nodes, p, name) && AllEncodable(Erased(c, p, name)) && p != k
    requires c.nodes[p].block < |d.data| && 1 <= p <= |d.inodes|
    ensures var d' := DetachedDisk(d, c, p, name, k); var c' := Detach(c, p, name, k);
      LinksOk(d'.inodes, c'.nodes, c'.up) && d'.gd.usedDirsCount == |DirSet(c'.nodes)|
  {
    hide BitmapsOk, Geometry, NodesOk, Erase, Erased, Find, Pack, LookupName, Ordinary, ListingOk, Tiles, OwnOk;
    hide NodeBlocks, DownOk, DirsOk, Subdirs, DirSet, SameDirsBut, UpOk;
    var d' := DetachedDisk(d, c, p, name, k);
    var c' := Detach(c, p, name, k);
    DetachSameDirs(c, p, name, k);
    WithoutEntryOthers(c.nodes, p, name);
    assert IsDir(c.nodes, p);
    hide CanErase, WithoutEntry;
    assert !IsDir(c'.nodes, k) && !IsSubdir(c'.nodes, c'.up, p, k);
    forall x: nat | IsDir(c'.nodes, x) ensures 1 <= x <= |d'.inodes|
      && d'.inodes[x - 1].linksCount == 2 + |Subdirs(c'.nodes, c'.up, x)| {
      CountsBut(c.nodes, c.up, c'.nodes, c'.up, k, x);
      assert IsDir(c.nodes, x);
    }
    CountsBut(c.nodes, c.up, c'.nodes, c'.up, k, p);
    LinksIntro(d'.inodes, c'.nodes, c'.up);
  }

  lemma DetachSameDirs(c: Catalog, p: nat, name: Name, k: nat)
    requires CanErase(c.nodes, p, name) && k in c.nodes && k != p
    ensures var c' := Detach(c, p, name, k); SameDirsBut(c.nodes, c.up, c'.nodes, c'.up, k)
  {
    hide Erase, Find, NodeBlocks;
  }

  // ----- changing one inode -----

  /** A live inode may be rewritten when it still says the same node and link count. */
  lemma RewriteInodeCore(d: Disk, c: Catalog, k: nat, i: Inode)
    requires Core(d, c) && k in c.nodes && 1 <= k <= |d.inodes|
    requires NodeOnDisk(d.sb.blockSize, i, d.data, c.nodes[k]) && i.linksCount == d.inodes[k - 1].linksCount
    ensures Core(PutInode(d, k, i), c)
  {
    hide BlockBitsOk, CountsOk, TreeOk, OwnOk, NodeOnDisk, Subdirs, FirstData;
    var d' := PutInode(d, k, i);
    assert d.inodeBits[k - 1];
    assert NodesOk(d.sb.blockSize, d'.inodes, d.data, c.nodes);
    assert LinksOk(d'.inodes, c.nodes, c.up) by {
      hide NodesOk;
      assert forall x: nat :: IsDir(c.nodes, x) ==>
        1 <= x <= |d.inodes| && d'.inodes[x - 1].linksCount == d.inodes[x - 1].linksCount;
    }
  }

  /** Shrinking or growing a file within its blocks: the inode is rewritten, cut blocks become lost. */
  lemma ResizeCore(d: Disk, c: Catalog, k: nat, i: Inode, size: nat, keep: nat)
    requires Core(d, c) && k in c.nodes && c.nodes[k].File? && keep <= |c.nodes[k].blocks| && 1 <= k <= |d.inodes|
    requires NodeOnDisk(d.sb.blockSize, i, d.data, Resize(c, k, size, keep).nodes[k])
    ensures Core(PutInode(d, k, i), Resize(c, k, size, keep))
  {
    hide *;
    CoreParts(d, c);
    ResizeOk(d.sb.blockSize, c, k, size, keep);
    var d', c' := PutInode(d, k, i), Resize(c, k, size, keep);
    ResizeShape(d, c, k, i, size, keep);
    ResizeNodes(d, c, k, i, size, keep);
    ResizeLinks(d, c, k, i, size, keep);
    TreeOnDiskIntro(d', c', d.sb.blockSize);
    ResizeBitmaps(d, c, k, i, size, keep);
    CoreIntro(d', c', d.sb.blockSize);
  }

  lemma ResizeShape(d: Disk, c: Catalog, k: nat, i: Inode, size: nat, keep: nat)
    requires Geometry(d.sb, d.gd) && Sized(d) && 1 <= k <= |d.inodes|
    ensures var d' := PutInode(d, k, i); Geometry(d'.sb, d'.gd) && Sized(d') && d'.sb == d.sb && d'.gd == d.gd
  {
  }

  lemma ResizeNodes(d: Disk, c: Catalog, k: nat, i: Inode, size: nat, keep: nat)
    requires TreeOnDisk(d, c) && k in c.nodes && c.nodes[k].File? && keep <= |c.nodes[k].blocks| && 1 <= k <= |d.inodes|
    requires NodeOnDisk(d.sb.blockSize, i, d.data, Resize(c, k, size, keep).nodes[k])
    ensures NodesOk(d.sb.blockSize, PutInode(d, k, i).inodes, d.data, Resize(c, k, size, keep).nodes)
    ensures PutInode(d, k, i).data == d.data
  {
    hide NodeOnDisk, LinksOk, RunBlocks;
  }

  lemma ResizeLinks(d: Disk, c: Catalog, k: nat, i: Inode, size: nat, keep: nat)
    requires TreeOnDisk(d, c) && k in c.nodes && c.nodes[k].File? && keep <= |c.nodes[k].blocks| && 1 <= k <= |d.inodes|
    ensures var c' := Resize(c, k, size, keep);
      LinksOk(PutInode(d, k, i).inodes, c'.nodes, c'.up) && d.gd.usedDirsCount == |DirSet(c'.nodes)|
  {
    hide NodesOk, RunBlocks, Subdirs, DirSet, SameDirsBut;
    var d', c' := PutInode(d, k, i), Resize(c, k, size, keep);
    ResizeSameDirs(c, k, size, keep);
    forall x: nat | IsDir(c'.nodes, x) ensures 1 <= x <= |d'.inodes|
      && d'.inodes[x - 1].linksCount == 2 + |Subdirs(c'.nodes, c'.up, x)| {
      CountsBut(c.nodes, c.up, c'.nodes, c'.up, k, x);
      assert IsDir(c.nodes, x);
    }
    CountsBut(c.nodes, c.up, c'.nodes, c'.up, k, k);
    LinksIntro(d'.inodes, c'.nodes, c'.up);
  }

  lemma ResizeSameDirs(c: Catalog, k: nat, size: nat, keep: nat)
    requires k in c.nodes && c.nodes[k].File? && keep <= |c.nodes[k].blocks|
    ensures var c' := Resize(c, k, size, keep); SameDirsBut(c.nodes, c.up, c'.nodes, c'.up, k)
  {
    hide RunBlocks;
  }

  lemma ResizeBitmaps(d: Disk, c: Catalog, k: nat, i: Inode, size: nat, keep: nat)
    requires Core(d, c) && k in c.nodes && c.nodes[k].File? && keep <= |c.nodes[k].blocks| && 1 <= k <= |d.inodes|
    ensures d.sb.blockSize > 0 && BitmapsOk(PutInode(d, k, i), Resize(c, k, size, keep))
  {
    hide Core, CatalogOk, TreeOnDisk, BitmapsOk, Geometry, Sized, OwnOk, LostOk, FreeClean, RunBlocks, Resize;
    CoreParts(d, c);
    CatalogOwn(d.sb.blockSize, c);
    FreeCleanAt(d, c, k, i);
    RootNotLost(d, c);
    ResizeHands(c, k, size, keep);
    SameBitmaps(d, c, PutInode(d, k, i), Resize(c, k, size, keep));
  }

  lemma CatalogOwn(size: nat, c: Catalog)
    requires CatalogOk(size, c)
    ensures OwnOk(c.nodes, c.own)
  {
    hide OwnOk, TreeOk, LostOk;
  }

  /** Blocks cut off a file change hands from it to the lost ones. */
  lemma ResizeHands(c: Catalog, k: nat, size: nat, keep: nat)
    requires OwnOk(c.nodes, c.own) && k in c.nodes && c.nodes[k].File? && keep <= |c.nodes[k].blocks|
    ensures var r := Resize(c, k, size, keep);
      && r.own.Keys + r.lostBlocks == c.own.Keys + c.lostBlocks
      && r.nodes.Keys == c.nodes.Keys && r.lostInodes == c.lostInodes
  {
    var f := c.nodes[k];
    var cut := RunBlocks(f.start + keep, |f.blocks| - keep);
    CutIsOwned(c, k, keep);
    hide OwnOk, RunBlocks;
    KeysGiven(c.own, c.lostBlocks, cut);
  }

  lemma CutIsOwned(c: Catalog, k: nat, keep: nat)
    requires OwnOk(c.nodes, c.own) && k in c.nodes && c.nodes[k].File? && keep <= |c.nodes[k].blocks|
    ensures RunBlocks(c.nodes[k].start + keep, |c.nodes[k].blocks| - keep) <= c.own.Keys
  {
    assert RunBlocks(c.nodes[k].start + keep, |c.nodes[k].blocks| - keep) <= NodeBlocks(c.nodes[k]);
    hide NodeBlocks, RunBlocks;
    BlocksOwned(c.nodes, c.own, k);
  }
}
