/** The open image and its operations (ext4/src/filesystem.rs). */
module Filesystems {
  import opened Bytes
  import opened Results
  import opened Bitmap
  import opened DirEntries
  import opened DirBlocks
  import opened Listings
  import opened Paths
  import opened Extents
  import opened ExtentTrees
  import opened Inodes
  import opened Superblocks
  import opened Catalogs
  import opened Moves
  import opened Disks
  import opened DiskSteps
  import opened DiskMoves
  import opened DiskFacts
  import opened Operations
  import opened Removals
  import opened Steps
  import opened Truncations
  import opened Renames
  import opened Dots
  import opened Mkfs
  import opened Images

  /** In a single group every inode is in group 0, at its own index. */
  lemma InodeSlot(sb: Superblock, gd: GroupDescriptor, k: nat)
    requires Geometry(sb, gd) && 1 <= k <= sb.inodesCount
    ensures sb.inodesPerGroup > 0 && (k - 1) / sb.inodesPerGroup == 0
    ensures gd.inodeTable * sb.blockSize + (k - 1) % sb.inodesPerGroup * sb.inodeSize ==
      InodeOffset(sb.blockSize, k - 1)
  {
    hide FirstData;
    SmallDivMod(k - 1, sb.inodesPerGroup);
  }

  lemma SmallDivMod(a: nat, n: nat)
    requires a < n
    ensures a / n == 0 && a % n == a
  {
  }

  lemma CopyBytes(bs: seq<byte>, buf: array<byte>)
    requires buf.Length == |bs| && forall i :: 0 <= i < |bs| ==> buf[i] == bs[i]
    ensures buf[..] == bs
  {
  }

  /** `vec![0; n]` filled by read_exact. */
  method BufferOf(bs: seq<byte>) returns (buf: array<byte>)
    ensures fresh(buf) && buf[..] == bs
  {
    buf := new byte[|bs|](i requires 0 <= i < |bs| => bs[i]);
    CopyBytes(bs, buf);
  }

  /** The search on bytes and the bits of the view speak of the same runs. */
  lemma RunsAgree(bytes: seq<byte>, d: Disk, count: nat)
    requires d.blockBits == Bits(bytes) && d.sb.blocksCount <= 8 * |bytes|
    ensures forall s: nat :: ClearRun(bytes, s, count, d.sb.blocksCount) <==> FreeRun(d, s, count)
  {
    hide GetBit;
    forall s: nat ensures ClearRun(bytes, s, count, d.sb.blocksCount) <==> FreeRun(d, s, count) {
      if s + count <= d.sb.blocksCount {
        assert forall b :: s <= b < s + count ==> d.blockBits[b] == GetBit(bytes, b);
      }
    }
  }

  lemma OneBlock(sb: Superblock, gd: GroupDescriptor)
    requires Geometry(sb, gd)
    ensures DivCeil(sb.blockSize, sb.blockSize) == 1
  {
    hide FirstData;
    if sb.blockSize == 2048 {
      assert DivCeil(2048, 2048) == 1;
    } else {
      assert DivCeil(4096, 4096) == 1;
    }
  }

  lemma ConcatNothing()
    ensures Concat([]) == []
  {
  }

  /** As many blocks as the size needs hold at least that many bytes. */
  lemma RunHoldsSize(image: seq<byte>, sb: Superblock, gd: GroupDescriptor, start: nat, blocks: seq<seq<byte>>,
                     size: nat)
    requires Holds(image, sb, gd) && FirstData(sb) <= start && start + |blocks| <= sb.blocksCount && sb.blockSize > 0
    requires ViewOf(image, sb, gd).data[start..start + |blocks|] == blocks && |blocks| == DivCeil(size, sb.blockSize)
    ensures AllSized(blocks, sb.blockSize) && size <= |Concat(blocks)|
  {
    ViewSized(image, sb, gd);
    hide ViewOf, Concat, FirstData, Geometry;
    var d := ViewOf(image, sb, gd);
    forall j | 0 <= j < |blocks| ensures |blocks[j]| == sb.blockSize {
      assert blocks[j] == d.data[start..start + |blocks|][j] == d.data[start + j];
    }
    ConcatAt(blocks, sb.blockSize, 0);
  }

  lemma TouchedCtime(i: Inode, j: Inode)
    requires Touched(i, j)
    ensures Touched(i, j.(ctime := METADATA_CTIME)) && j.linksCount == i.linksCount
  {
  }

  lemma MoveTryParts(c: Catalog, p: nat, was: Name, q: u32, name: Name, k: u32)
    requires MoveTry(c, p, was, q, name, k)
    ensures IsDir(c.nodes, p) && IsDir(c.nodes, q) && k as nat in c.nodes
  {
    hide LookupName, Ordinary, CarveFault;
  }

  lemma FullIntro(c: Catalog, from: Place, k: nat, to: Place, e: Error, d: Disk)
    requires IsDir(c.nodes, to.dir) && |c.nodes[to.dir].entries| > 0
    requires CarveFault(c.nodes[to.dir].entries, to.name) == Some(e)
    ensures Renamed(c, from, k, to, Err(e), d, c)
  {
    hide CarveFault;
  }

  lemma SwappedParts(d: Disk, c: Catalog, p: nat, was: Name, q: u32, name: Name, k: u32, d': Disk)
    requires Swapped(d, c, p, was, q, name, k, d')
    ensures Movable(c, p, was, q, name, k) && MoveReady(d, c, p, was, q, name, k)
    ensures d' == AfterSecond(d, c, p, was, q, name, k)
  {
    hide Movable, MoveReady, AfterSecond;
  }

  lemma RemovedParts(c: Catalog, path: seq<byte>, at: Place, k: nat, d': Disk, c': Catalog)
    requires Removed(c, path, d', c') && Occupant(c.nodes, path) == Ok((at, k))
    ensures Detachable(c, at.dir, at.name, k) && CanErase(c.nodes, at.dir, at.name) && k in c.nodes
    ensures c' == Remove(c, at.dir, at.name, k) && Coherent(d')
  {
    hide CanErase, Remove, Coherent, Occupant;
  }

  /** Moving a file never makes a cycle. */
  lemma RenamedAcyclic(size: nat, c: Catalog, from: Place, k: nat, to: Place, r: Result<Unit>, d': Disk, c': Catalog)
    requires CatalogOk(size, c) && Acyclic(c.up) && k in c.nodes && !IsDir(c.nodes, k)
    requires Renamed(c, from, k, to, r, d', c')
    ensures Acyclic(c'.up)
  {
    hide CatalogOk, Acyclic, CanMove, Move, CarveFault, Coherent, Below;
    NotBelowFile(size, c, k, to.dir);
  }

  lemma RenamedKnot(c: Catalog, from: Place, k: nat, to: Place, r: Result<Unit>, d': Disk, c': Catalog)
    requires Acyclic(c.up) && Renamed(c, from, k, to, r, d', c')
    ensures Acyclic(c'.up) <==> !(r.Ok? && Below(c.up, to.dir, k))
  {
    hide Acyclic, CanMove, Move, CarveFault, Coherent, Below;
  }

  /** One descriptor that does not decode fails the whole table. */
  lemma {:induction false} FailureStays(buf: seq<byte>, entrySize: u16, i: nat, n: nat)
    requires i <= n && i * entrySize <= n * entrySize <= |buf| && DecodeDescriptors(buf, entrySize, i).Err?
    ensures DecodeDescriptors(buf, entrySize, n) == Err(DecodeDescriptors(buf, entrySize, i).error)
    decreases n
  {
    hide DecodeGroupDescriptor;
    if i < n {
      MulMono(i, n - 1, entrySize);
      MulMono(n - 1, n, entrySize);
      FailureStays(buf, entrySize, i, n - 1);
    }
  }

  lemma NoneKept(cutoff: nat)
    ensures FreedAll([], cutoff) == [] && KeptAll([], cutoff) == []
  {
  }

  lemma NoExtents(d: Disk)
    requires Geometry(d.sb, d.gd) && Sized(d)
    ensures Givable(d, []) && GiveRuns(d, []) == d && FreedAll([], 0) == []
  {
    hide FirstData;
  }

  lemma RmdirParts(d: Disk, c: Catalog, path: seq<byte>, at: Place, k: nat, torn: Disk)
    requires RmdirComesTo(d, c, path, at, k) && TearAt(d, c, at, k) && torn == Torn(d, c, at, k)
    ensures 1 <= at.dir <= |d.inodes| && 1 <= at.dir <= |torn.inodes| && k in c.nodes
    ensures Countable(Unlinked(torn, at.dir, d.inodes[at.dir - 1]))
    ensures var d' := Flushed(Unlinked(torn, at.dir, d.inodes[at.dir - 1]));
      if RemovesItself(c.nodes, path) then Unfit(d')
      else && CanErase(c.nodes, at.dir, at.name) && Core(d', Remove(c, at.dir, at.name, k))
           && Acyclic(Remove(c, at.dir, at.name, k).up) && Removed(c, path, d', Remove(c, at.dir, at.name, k))
  {
    TornInodes(d, c, at, k);
    hide Core, Acyclic, Unlinked, Torn, Flushed, Countable, RemovesItself, CanErase, Remove, Removed, Unfit, TearAt;
  }

  /** What rmdir leaves of the inode table: the parent's link count and the removed record. */
  lemma RmdirRecords(d: Disk, c: Catalog, path: seq<byte>, at: Place, k: nat, parentInode: Inode, d1: Disk, d2: Disk,
                     c': Catalog)
    requires Core(d, c) && TearAt(d, c, at, k) && Occupant(c.nodes, path) == Ok((at, k))
    requires 1 <= at.dir <= |d.inodes| && at.dir <= |Torn(d, c, at, k).inodes| && parentInode == d.inodes[at.dir - 1]
    requires d1 == PutInode(Torn(d, c, at, k), at.dir, parentInode.(linksCount := Less(parentInode.linksCount, 1)))
    requires d2.inodes == d1.inodes && Removed(c, path, d2, c') && k !in c'.nodes
    ensures InodesKept(d, d2, c'.nodes.Keys) && BuriedAt(d, c, path, d2)
  {
    hide Core, Torn, TearAt, Occupant, Removed, InodesKept, Buried, PutInode;
    var i := parentInode.(linksCount := Less(parentInode.linksCount, 1));
    TornKept(d, c, at, k, c'.nodes.Keys);
    KeptPut(d, Torn(d, c, at, k), d1, c'.nodes.Keys, at.dir, i);
    KeptSame(d, d1, d2, c'.nodes.Keys);
    TornBuried(d, c, at, k);
    RemovedApart(d, c, path, at, k, d2, c');
    BuriedPut(d, Torn(d, c, at, k), d1, k, at.dir, i);
    BuriedSame(d, d1, d2, k);
  }

  lemma SelfAccepted(nodes: map<nat, Node>, path: seq<byte>)
    ensures RemovesItself(nodes, path) ==> RmdirFault(nodes, path).None?
  {
    hide RmdirFault, Occupant;
  }

  lemma ComesToTears(d: Disk, c: Catalog, path: seq<byte>, at: Place, k: nat)
    requires RmdirComesTo(d, c, path, at, k)
    ensures TearAt(d, c, at, k) && k in c.nodes
  {
    hide RmdirDisk, TearAt, Flushed, Countable, RemovesItself, CanErase, Remove, Removed, Unfit, Settled;
  }

  lemma UnlinkedIs(d: Disk, p: nat, i: Inode)
    requires 1 <= p <= |d.inodes|
    ensures WithDirs(PutInode(d, p, i.(linksCount := Less(i.linksCount, 1))), Less(d.gd.usedDirsCount, 1)) ==
      Unlinked(d, p, i)
  {
  }

  lemma CountOneDir(d: Disk, n: u32)
    ensures d.(sb := d.sb, gd := d.gd.(usedDirsCount := n)) == WithDirs(d, n)
  {
  }

  lemma NewListingSize(k: u32, parent: u32, size: nat)
    requires (size == 2048 || size == 4096) && k != 0 && parent != 0
    ensures AllEncodable(NewListing(k, parent, size)) && |Pack(NewListing(k, parent, size))| == size
  {
    NewListingOk(k, parent, size);
  }

  lemma StagedParent(d: Disk, c: Catalog, path: seq<byte>, count: nat, site: Site, s: Disk, c': Catalog)
    requires d.sb.blockSize > 0 && Staged(d, c, path, count, site, s, c')
    ensures 1 <= site.parent <= |s.inodes|
    ensures site.parent in c.nodes && site.parent != site.k
  {
    hide Vacancy, FirstFreeRun, FirstFreeInode, FirstData, RunBlocks, SlashFree, FreshBlocks, LookupName;
  }

  lemma VacancyFromAim(nodes: map<nat, Node>, path: seq<byte>)
    ensures Aim(nodes, path).Err? ==> Vacancy(nodes, path) == Err(Aim(nodes, path).error)
    ensures Aim(nodes, path).Ok? ==>
      var at := Aim(nodes, path).value;
      && IsDir(nodes, at.dir)
      && Vacancy(nodes, path) == if LookupName(nodes[at.dir].entries, at.name).Some?
        then Err(AlreadyExists(at.name)) else Ok(at)
  {
    hide Aim, LookupName;
  }

  /** What a directory's record and block say, as read_file meets them. */
  lemma DirOnDisk(blockSize: nat, i: Inode, data: seq<seq<byte>>, node: Node)
    requires node.Dir? && NodeOnDisk(blockSize, i, data, node)
    ensures !i.IsSymlink() && i.IsDirectory() && i.UsesExtents() && HasContent(node) && i.size == blockSize
    ensures node.block < |data| && i.block == RunLeaf(node.block, 1)
    ensures AllEncodable(node.entries) && data[node.block..node.block + 1] == [Pack(node.entries)]
    ensures Content(node) == Pack(node.entries)
  {
    hide RunLeaf, Pack, AllEncodable;
  }

  /** Block `b` of the image holds `bs`. */
  predicate BlockAt(image: seq<byte>, size: nat, b: nat, bs: seq<byte>) {
    b * size + size <= |image| && image[b * size..b * size + size] == bs
  }

  lemma TilesAll(es: seq<DirEntry>, size: nat)
    requires Tiles(es, size)
    ensures |es| > 0 && AllEncodable(es) && |Pack(es)| == size
  {
  }

  /** The walk's next step. */
  lemma FirstComponent(rest: seq<byte>)
    requires |rest| > 0 && rest[0] != SLASH
    ensures var n := NameLen(rest);
      n > 0 && SlashFree(rest[..n]) && Components(rest) == [rest[..n]] + Components(rest[n..])
      && Components(rest)[0] == rest[..n] && Components(rest)[1..] == Components(rest[n..])
  {
  }

  class Filesystem {
    /** The bytes behind the reader. */
    var image: seq<byte>
    var superblock: Superblock
    var gdt: seq<GroupDescriptor>
    /** The tree and ownership the image stands for. */
    ghost var cat: Catalog
    /** What was cached at the start; from then on only counters change. */
    ghost const firstSuperblock: Superblock
    ghost const firstGdt: seq<GroupDescriptor>

    ghost predicate Shape()
      reads this
    {
      |gdt| == 1 && Holds(image, superblock, gdt[0]) && |firstGdt| == 1
        && SameSetup(firstSuperblock, firstGdt[0], superblock, gdt[0])
    }

    ghost function View(): Disk
      reads this
      requires Shape()
    {
      ViewOf(image, superblock, gdt[0])
    }

    ghost predicate Valid()
      reads this
    {
      Shape() && Core(View(), cat) && Acyclic(cat.up)
    }

    constructor (image: seq<byte>, superblock: Superblock, gdt: seq<GroupDescriptor>, ghost cat: Catalog)
      ensures this.image == image && this.superblock == superblock && this.gdt == gdt && this.cat == cat
      ensures firstSuperblock == superblock && firstGdt == gdt
    {
      firstSuperblock, firstGdt := superblock, gdt;
      this.image, this.superblock, this.gdt, this.cat := image, superblock, gdt, cat;
    }

    /** Reads the superblock, checks it, and loads the descriptors after it. */
    static method Open(image: seq<byte>, ghost cat: Catalog) returns (r: Result<Filesystem>)
      ensures match Opened(image)
        case Err(e) => r == Err(e)
        case Ok((sb, gdt)) =>
          && r.Ok? && fresh(r.value) && r.value.image == image && r.value.superblock == sb && r.value.gdt == gdt
          && r.value.cat == cat
          && r.value.firstSuperblock == sb && r.value.firstGdt == gdt
    {
      if |image| < SUPERBLOCK_OFFSET + SUPERBLOCK_SIZE {
        return Err(Io);
      }
      hide DecodeSuperblock, DecodeGroupDescriptor, TableOffset, TableBytes;
      var superblock :- DecodeSuperblock(image[SUPERBLOCK_OFFSET..SUPERBLOCK_OFFSET + SUPERBLOCK_SIZE]);
      if superblock.blocksPerGroup == 0 {
        return Err(InvalidLayout);
      }
      if superblock.inodesPerGroup == 0 {
        return Err(InvalidLayout);
      }
      var offset, bytes := TableOffset(superblock), TableBytes(superblock);
      if |image| < offset + bytes {
        return Err(Io);
      }
      var gdt :- LoadDescriptors(image[offset..offset + bytes], superblock);
      var fs := new Filesystem(image, superblock, gdt, cat);
      return Ok(fs);
    }

    static method LoadDescriptors(buf: seq<byte>, superblock: Superblock) returns (r: Result<seq<GroupDescriptor>>)
      requires |buf| == TableBytes(superblock)
      ensures superblock.GroupCount() * superblock.DescriptorSize() <= |buf|
      ensures r == DecodeDescriptors(buf, superblock.DescriptorSize(), superblock.GroupCount())
    {
      hide DecodeGroupDescriptor;
      var entrySize, count: nat := superblock.DescriptorSize(), superblock.GroupCount();
      var gdt: seq<GroupDescriptor> := [];
      for i := 0 to count
        invariant i * entrySize <= |buf| && DecodeDescriptors(buf, entrySize, i) == Ok(gdt)
      {
        MulMono(i + 1, count, entrySize);
        assert (i + 1) * entrySize == i * entrySize + entrySize;
        var one := DecodeGroupDescriptor(buf[i * entrySize..(i + 1) * entrySize], entrySize);
        if one.Err? {
          FailureStays(buf, entrySize, i + 1, count);
          return Err(one.error);
        }
        gdt := gdt + [one.value];
      }
      return Ok(gdt);
    }

    // ----- raw access -----

    /** seek and read_exact */
    method ReadAt(off: nat, len: nat) returns (r: Result<seq<byte>>)
      ensures r == if off + len <= |image| then Ok(image[off..off + len]) else Err(Io)
    {
      if off + len <= |image| {
        return Ok(image[off..off + len]);
      }
      return Err(Io);
    }

    /** seek and write_all, inside the image */
    method WriteAt(off: nat, bs: seq<byte>)
      requires off + |bs| <= |image|
      modifies `image
      ensures image == Put(old(image), off, bs)
    {
      image := Put(image, off, bs);
    }

    // ----- inodes and metadata -----

    /** The byte offset of an inode's record. */
    method LocateInode(k: nat) returns (r: Result<nat>)
      requires Shape()
      ensures r == if k == 0 || k > superblock.inodesCount then Err(InodeOutOfRange(k))
        else Ok(InodeOffset(superblock.blockSize, k - 1))
    {
      if k == 0 || k > superblock.inodesCount {
        return Err(InodeOutOfRange(k));
      }
      hide ViewOf, FirstData;
      InodeSlot(superblock, gdt[0], k);
      var group, index := (k - 1) / superblock.inodesPerGroup, (k - 1) % superblock.inodesPerGroup;
      hide Geometry;
      if group >= |gdt| {
        return Err(InvalidLayout);
      }
      return Ok(gdt[group].inodeTable * superblock.blockSize + index * superblock.inodeSize);
    }

    method ReadInode(k: nat) returns (r: Result<Inode>)
      requires Shape()
      ensures r == if k == 0 || k > superblock.inodesCount then Err(InodeOutOfRange(k)) else Ok(View().inodes[k - 1])
    {
      hide Holds, ViewOf, Fields;
      var offset :- LocateInode(k);
      InodeRecord(image, superblock, gdt[0], k);
      var buf :- ReadAt(offset, superblock.inodeSize);
      r := Inodes.Decode(buf, superblock.inodeSize);
    }

    method WriteInode(k: nat, inode: Inode) returns (r: Result<Unit>)
      requires Shape()
      modifies `image
      ensures Shape()
      ensures if k == 0 || k > superblock.inodesCount then r == Err(InodeOutOfRange(k)) && image == old(image)
              else r.Ok? && View() == PutInode(old(View()), k, inode)
    {
      hide Put, ViewOf, Holds, Inodes.Encoded, PutInode, Fields;
      var offset :- LocateInode(k);
      InodeRecord(image, superblock, gdt[0], k);
      var buf := new byte[superblock.inodeSize];
      var encoded :- Inodes.EncodeInto(inode, buf, superblock.inodeSize);
      InodeRoundTrip(inode, superblock.inodeSize);
      WriteInodeRecord(image, superblock, gdt[0], k, buf[..]);
      HoldsAfter(image, Put(image, offset, buf[..]), superblock, gdt[0]);
      WriteAt(offset, buf[..]);
      return Ok(Unit.Unit);
    }

    /** Re-encodes the cached superblock and descriptors. They decode back exactly when the counts fit. */
    method FlushMetadata() returns (r: Result<Unit>)
      requires Shape()
      modifies `image
      ensures r.Ok? && Shape()
      ensures View() == old(View()).(storedSb := View().storedSb, storedGd := View().storedGd)
      ensures View().storedSb == Ok(superblock) <==> superblock.freeBlocksCount < 0x1_0000_0000
      ensures View().storedGd == Ok(gdt[0]) <==>
        gdt[0].freeBlocksCount < 0x1_0000 && gdt[0].freeInodesCount < 0x1_0000 && gdt[0].usedDirsCount < 0x1_0000
      ensures Countable(old(View())) ==> View() == Flushed(old(View()))
    {
      hide Put, Block, DataOf, InodesOf, Bits, DecodeSuperblock, DecodeGroupDescriptor, FirstData, SuperblockBytes;
      hide GroupDescriptorBytes;
      var sbBuf := new byte[SUPERBLOCK_SIZE];
      var encoded :- EncodeSuperblockInto(superblock, sbBuf);
      SuperblockRoundTrip(superblock);
      WriteSuperblock(image, superblock, gdt[0], sbBuf[..]);
      WriteAt(SUPERBLOCK_OFFSET, sbBuf[..]);
      var entrySize := superblock.DescriptorSize();
      var cursor := (superblock.firstDataBlock + 1) * superblock.blockSize;
      ghost var d, stored := View(), DecodeGroupDescriptor(GroupDescriptorBytes(gdt[0], entrySize), entrySize);
      for i := 0 to |gdt|
        invariant Shape() && cursor == superblock.blockSize + i * GDT_ENTRY
        invariant View() == if i == 0 then d else d.(storedGd := stored)
      {
        var gdBuf := new byte[entrySize];
        var done :- EncodeGroupDescriptorInto(gdt[i], gdBuf, entrySize);
        WriteGroupDescriptor(image, superblock, gdt[0], gdBuf[..]);
        WriteAt(cursor, gdBuf[..]);
        cursor := cursor + entrySize;
      }
      GroupDescriptorRoundTrip(gdt[0], entrySize);
      return Ok(Unit.Unit);
    }

    // ----- allocation -----

    /** One bitmap block, as bytes. */
    method ReadBitmap(b: nat) returns (r: Result<seq<byte>>)
      requires Shape() && (b == 2 || b == 3)
      ensures r.Ok? && |r.value| == superblock.blockSize
      ensures Bits(r.value) == if b == 2 then View().blockBits else View().inodeBits
    {
      hide ViewOf, Holds, Bits;
      BitmapBlock(image, superblock, gdt[0], b);
      r := ReadAt(b * superblock.blockSize, superblock.blockSize);
    }

    /** The lowest free inode. */
    method AllocateInode() returns (r: Result<nat>)
      requires Shape()
      modifies `image, `superblock, `gdt
      ensures Shape()
      ensures r.Err? ==> r == Err(NoSpace(Inodes)) && NoFreeInode(old(View()))
      ensures r.Err? ==> image == old(image) && superblock == old(superblock) && gdt == old(gdt)
      ensures r.Ok? ==> FirstFreeInode(old(View()), r.value) && View() == TakeInode(old(View()), r.value)
    {
      ViewFacts();
      hide ViewOf, Holds, FirstData, GetBit;
      var bytes :- ReadBitmap(gdt[0].inodeBitmap);
      var buf := BufferOf(bytes);
      var bit := FindFirstZero(bytes, superblock.inodesPerGroup);
      if bit.None? {
        return Err(NoSpace(Inodes));
      }
      SetBit(buf, bit.value);
      StoreInodeBitmap(buf);
      ViewSb();
      SetCounters(superblock.(freeInodesCount := Less(superblock.freeInodesCount, 1)),
                  gdt[0].(freeInodesCount := Less(gdt[0].freeInodesCount, 1)));
      return Ok(bit.value + 1);
    }

    /** A first-fit run of `count` blocks; nothing at all when `count` is 0. */
    method AllocateBlocksContiguous(count: u32) returns (r: Result<nat>)
      requires Shape()
      modifies `image, `superblock, `gdt
      ensures Shape()
      ensures r.Err? ==> image == old(image) && superblock == old(superblock) && gdt == old(gdt)
      ensures r.Err? ==> r == Err(NoSpace(Blocks)) && NoFreeRun(old(View()), count)
      ensures r.Ok? ==> FirstFreeRun(old(View()), r.value, count) && TookBlocks(old(View()), View(), r.value, count)
    {
      if count == 0 {
        return Ok(0);
      }
      ViewFacts();
      BlocksFitBitmap(superblock, gdt[0]);
      hide ViewOf, Holds, FirstData, GetBit;
      ghost var d := View();
      var bytes :- ReadBitmap(gdt[0].blockBitmap);
      RunsAgree(bytes, d, count);
      var start := FindFirstZeroRun(bytes, count, superblock.blocksCount);
      if start.None? {
        return Err(NoSpace(Blocks));
      }
      var buf := BufferOf(bytes);
      assert FreeRun(d, start.value, count);
      SetRun(buf, start.value, count, true);
      StoreBlockBitmap(buf);
      ViewSb();
      SetCounters(superblock.(freeBlocksCount := Less(superblock.freeBlocksCount, count)),
                  gdt[0].(freeBlocksCount := Less(gdt[0].freeBlocksCount, count)));
      return Ok(start.value);
    }

    method StoreBlockBitmap(buf: array<byte>)
      requires Shape() && buf.Length == superblock.blockSize
      modifies `image
      ensures Shape() && View() == old(View()).(blockBits := Bits(buf[..]))
    {
      var bitmapBlock := gdt[0].blockBitmap;
      assert bitmapBlock == 2;
      hide Put, ViewOf, Holds, Bits;
      WriteBitmap(image, superblock, gdt[0], 2, buf[..]);
      HoldsAfter(image, Put(image, 2 * superblock.blockSize, buf[..]), superblock, gdt[0]);
      WriteAt(bitmapBlock * superblock.blockSize, buf[..]);
    }

    method StoreInodeBitmap(buf: array<byte>)
      requires Shape() && buf.Length == superblock.blockSize
      modifies `image
      ensures Shape() && View() == old(View()).(inodeBits := Bits(buf[..]))
    {
      var bitmapBlock := gdt[0].inodeBitmap;
      assert bitmapBlock == 3;
      hide Put, ViewOf, Holds, Bits;
      WriteBitmap(image, superblock, gdt[0], 3, buf[..]);
      HoldsAfter(image, Put(image, 3 * superblock.blockSize, buf[..]), superblock, gdt[0]);
      WriteAt(bitmapBlock * superblock.blockSize, buf[..]);
    }

    method FreeBlocks(start: nat, count: u32) returns (r: Result<Unit>)
      requires Shape() && start + count <= superblock.blocksCount
      requires gdt[0].freeBlocksCount + count < 0x1_0000_0000
      requires superblock.freeBlocksCount + count < 0x1_0000_0000_0000_0000
      modifies `image, `superblock, `gdt
      ensures Shape() && r.Ok?
      ensures start + count <= |old(View()).blockBits|
      ensures View() == GiveBlocks(old(View()), start, count)
    {
      hide ViewOf, Holds, Geometry, Sized, FirstData, Bits, Fill;
      ViewBits();
      if count == 0 {
        GiveNothing(View(), start);
        return Ok(Unit.Unit);
      }
      var bytes :- ReadBitmap(gdt[0].blockBitmap);
      var buf := BufferOf(bytes);
      SetRun(buf, start, count, false);
      StoreBlockBitmap(buf);
      ViewSb();
      SetCounters(superblock.(freeBlocksCount := superblock.freeBlocksCount + count),
                  gdt[0].(freeBlocksCount := gdt[0].freeBlocksCount + count));
      return Ok(Unit.Unit);
    }

    /** The cached counters, changed in memory. */
    method SetCounters(sb: Superblock, gd: GroupDescriptor)
      requires Shape()
      requires sb == superblock.(freeBlocksCount := sb.freeBlocksCount, freeInodesCount := sb.freeInodesCount)
      requires gd ==
        gdt[0].(freeBlocksCount := gd.freeBlocksCount, freeInodesCount := gd.freeInodesCount,
          usedDirsCount := gd.usedDirsCount)
      modifies `superblock, `gdt
      ensures Shape() && superblock == sb && gdt == [gd] && View() == old(View()).(sb := sb, gd := gd)
    {
      ViewCounters(image, superblock, gdt[0], sb, gd);
      SetupKept(firstSuperblock, firstGdt[0], superblock, gdt[0], sb, gd);
      hide ViewOf, Holds, SameSetup;
      superblock, gdt := sb, [gd];
    }

    method FreeInode(k: nat) returns (r: Result<Unit>)
      requires Shape() && 1 <= k <= superblock.inodesCount
      requires gdt[0].freeInodesCount + 1 < 0x1_0000_0000 && superblock.freeInodesCount + 1 < 0x1_0000_0000
      modifies `image, `superblock, `gdt
      ensures Shape() && r.Ok?
      ensures 1 <= k <= |old(View()).inodeBits|
      ensures View() == GiveInode(old(View()), k)
    {
      hide ViewOf, Holds, Geometry, Sized, FirstData, Bits;
      ViewBits();
      var bytes :- ReadBitmap(gdt[0].inodeBitmap);
      var buf := BufferOf(bytes);
      ClearBit(buf, k - 1);
      StoreInodeBitmap(buf);
      ViewSb();
      SetCounters(superblock.(freeInodesCount := superblock.freeInodesCount + 1),
                  gdt[0].(freeInodesCount := gdt[0].freeInodesCount + 1));
      return Ok(Unit.Unit);
    }

    // ----- reading -----

    method ResolveLogicalBlock(inode: Inode, logical: u32) returns (r: Result<Option<nat>>)
      ensures r == if !inode.UsesExtents() then Err(NotExtentBased)
                   else Resolve(image, superblock.blockSize, inode.block, logical, MAX_EXTENT_DEPTH + 1)
    {
      if !inode.UsesExtents() {
        return Err(NotExtentBased);
      }
      r := ResolveFrom(image, superblock.blockSize, inode.block, logical);
    }

    /** `inode` is the record of `node`, whose blocks lie past the metadata. */
    ghost predicate Readable(inode: Inode, node: Node)
      reads this
      requires Shape()
    {
      && NodeOnDisk(superblock.blockSize, inode, View().data, node)
      && (node.Dir? ==> FirstData(superblock) <= node.block && |Pack(node.entries)| == superblock.blockSize)
      && (node.File? && |node.blocks| > 0 ==> FirstData(superblock) <= node.start)
    }

    /** The blocks of one run, read one by one and cut to `size`. */
    method ReadRun(inode: Inode, ghost start: nat, ghost blocks: seq<seq<byte>>) returns (r: Result<seq<byte>>)
      requires Shape() && inode.UsesExtents() && 0 < inode.size && |blocks| == DivCeil(inode.size, superblock.blockSize)
      requires FirstData(superblock) <= start && start + |blocks| <= superblock.blocksCount
      requires |blocks| <= UNINIT_THRESHOLD
      requires inode.block == RunLeaf(start, |blocks|) && View().data[start..start + |blocks|] == blocks
      ensures inode.size <= |Concat(blocks)| && r == Ok(Concat(blocks)[..inode.size])
    {
      BlockSizePositive(superblock, gdt[0]);
      RunHoldsSize(image, superblock, gdt[0], start, blocks, inode.size);
      hide ViewOf, Holds, RunLeaf, FirstData, Concat;
      var size := inode.size;
      var numBlocks := DivCeil(size, superblock.blockSize);
      var data: seq<byte> := [];
      assert blocks[..0] == [] && Concat([]) == [] by { ConcatNothing(); }
      for logical := 0 to numBlocks
        invariant data == Concat(blocks[..logical])
      {
        if logical >= 0x1_0000_0000 {
          return Err(InvalidLayout);
        }
        var bytes :- ReadLogical(inode, logical, start, blocks);
        data := data + bytes;
        ConcatPrefix(blocks, logical);
      }
      assert blocks[..numBlocks] == blocks;
      return Ok(data[..size]);
    }

    /** One block of a file: what it maps to, or zeros where it maps to nothing. */
    method ReadLogical(inode: Inode, logical: u32, ghost start: nat,
                       ghost blocks: seq<seq<byte>>) returns (r: Result<seq<byte>>)
      requires Shape() && inode.UsesExtents() && logical < |blocks| && superblock.blocksCount <= 0x8000
      requires FirstData(superblock) <= start && start + |blocks| <= superblock.blocksCount
      requires |blocks| <= UNINIT_THRESHOLD
      requires inode.block == RunLeaf(start, |blocks|) && View().data[start..start + |blocks|] == blocks
      ensures r == Ok(blocks[logical])
    {
      hide ViewOf, Holds, RunLeaf, Resolve, FirstData;
      var blockSize: nat := superblock.blockSize;
      ResolveRun(image, superblock.blockSize, start, |blocks|, logical);
      var resolved :- ResolveLogicalBlock(inode, logical);
      match resolved {
        case Some(physical) =>
          ViewRunBlock(image, superblock, gdt[0], start, blocks, logical);
          r := ReadAt(physical * blockSize, blockSize);
        case None =>
          return Ok(Zeros(blockSize));
      }
    }

    method ReadFile(inode: Inode, ghost node: Node) returns (r: Result<seq<byte>>)
      requires Shape() && Readable(inode, node)
      ensures HasContent(node) && r == Ok(Content(node))
    {
      hide ViewOf, Holds, RunLeaf, FirstData, Concat, Pack, Readable, Content, HasContent;
      if node.Dir? {
        ReadableDir(inode, node);
      } else if node.File? {
        ReadableFile(inode, node);
      } else {
        ReadableLink(inode, node);
      }
      var size := inode.size;
      if size == 0 {
        return Ok([]);
      }
      if inode.IsSymlink() && size <= I_BLOCK_LEN {
        return Ok(inode.block[..size]);
      }
      ghost var start, blocks := RunOf(node);
      r := ReadRun(inode, start, blocks);
    }

    /** Where a directory's or file's blocks are. */
    ghost method RunOf(node: Node) returns (start: nat, blocks: seq<seq<byte>>)
      requires !node.Link? && (node.Dir? ==> AllEncodable(node.entries))
      ensures node.Dir? ==> start == node.block && blocks == [Pack(node.entries)]
      ensures node.File? ==> start == node.start && blocks == node.blocks
    {
      match node {
        case Dir(b, es) => return b, [Pack(es)];
        case File(s, _, bs) => return s, bs;
      }
    }

    /** What a view is made of, without how. */
    lemma ViewFacts()
      requires Shape()
      ensures View().sb == superblock && View().gd == gdt[0] && Sized(View()) && Geometry(superblock, gdt[0])
      ensures superblock.blockSize > 0 && superblock.blocksCount <= 0x8000
    {
      ViewSized(image, superblock, gdt[0]);
      BlockSizePositive(superblock, gdt[0]);
    }

    lemma ReadableDir(inode: Inode, node: Node)
      requires Shape() && node.Dir? && Readable(inode, node)
      ensures superblock.blockSize > 0 && !inode.IsSymlink() && inode.IsDirectory() && inode.UsesExtents()
      ensures HasContent(node)
      ensures AllEncodable(node.entries) && |Pack(node.entries)| == inode.size == superblock.blockSize
      ensures FirstData(superblock) <= node.block < superblock.blocksCount
      ensures inode.block == RunLeaf(node.block, 1) && View().data[node.block..node.block + 1] == [Pack(node.entries)]
      ensures DivCeil(inode.size, superblock.blockSize) == 1
      ensures Concat([Pack(node.entries)])[..inode.size] == Content(node)
    {
      ViewFacts();
      OneBlock(superblock, gdt[0]);
      ViewLength();
      ghost var data := View().data;
      ReadableParts(inode, node);
      hide ViewOf, Holds, RunLeaf, FirstData, Pack, Sized, Geometry, Readable, AllEncodable, Concat, NodeOnDisk;
      DirOnDisk(superblock.blockSize, inode, data, node);
      ConcatOne(Pack(node.entries));
      assert Pack(node.entries)[..inode.size] == Pack(node.entries);
    }

    lemma ReadableParts(inode: Inode, node: Node)
      requires Shape() && Readable(inode, node)
      ensures NodeOnDisk(superblock.blockSize, inode, View().data, node)
      ensures node.Dir? ==>
        FirstData(superblock) <= node.block && AllEncodable(node.entries)
          && |Pack(node.entries)| == superblock.blockSize
      ensures node.File? && |node.blocks| > 0 ==> FirstData(superblock) <= node.start
    {
    }

    lemma ViewBits()
      requires Shape()
      ensures |View().blockBits| == 8 * superblock.blockSize == |View().inodeBits|
      ensures superblock.blocksCount <= 8 * superblock.blockSize && superblock.inodesCount <= 8 * superblock.blockSize
      ensures gdt[0].blockBitmap == 2 && gdt[0].inodeBitmap == 3
    {
      ViewSized(image, superblock, gdt[0]);
      hide FirstData, ViewOf;
    }

    lemma ViewSb()
      requires Shape()
      ensures View().sb == superblock && View().gd == gdt[0]
    {
    }

    lemma ViewPositive()
      requires Shape()
      ensures View().sb.blockSize > 0
    {
    }

    lemma ViewLength()
      requires Shape()
      ensures |View().data| == superblock.blocksCount && |View().inodes| == superblock.inodesCount
    {
    }

    lemma ReadableFile(inode: Inode, node: Node)
      requires Shape() && node.File? && Readable(inode, node)
      ensures superblock.blockSize > 0 && !inode.IsSymlink() && inode.UsesExtents() && HasContent(node)
      ensures |node.blocks| == DivCeil(inode.size, superblock.blockSize) && |node.blocks| <= UNINIT_THRESHOLD
      ensures inode.size > 0 ==>
        FirstData(superblock) <= node.start && node.start + |node.blocks| <= superblock.blocksCount
      ensures node.start + |node.blocks| <= |View().data|
      ensures inode.block == RunLeaf(node.start, |node.blocks|)
      ensures View().data[node.start..node.start + |node.blocks|] == node.blocks
      ensures Concat(node.blocks)[..inode.size] == Content(node) && (inode.size == 0 ==> Content(node) == [])
    {
      hide ViewOf, Holds, RunLeaf, FirstData, Concat, Sized, Geometry, SameSetup;
      ViewFacts();
      ViewLength();
      if inode.size > 0 {
        RunHoldsSize(image, superblock, gdt[0], node.start, node.blocks, inode.size);
      }
    }

    lemma ReadableLink(inode: Inode, node: Node)
      requires Shape() && node.Link? && Readable(inode, node)
      ensures inode.IsSymlink() && HasContent(node)
      ensures 0 < inode.size <= I_BLOCK_LEN && inode.block[..inode.size] == Content(node)
    {
      hide ViewOf, Holds, FirstData;
    }

    method ReadDir(inode: Inode, ghost node: Node) returns (r: Result<seq<DirEntry>>)
      requires Shape() && node.Dir? && Readable(inode, node)
      ensures r == Ok(node.entries)
    {
      ReadableDir(inode, node);
      hide ViewOf, Holds, RunLeaf, FirstData, Concat, Pack, Readable, DirEntries.Decode;
      var bytes :- ReadFile(inode, node);
      WalkPack(node.entries);
      r := DecodeDirBlock(bytes);
    }

    method Lookup(inode: Inode, name: Name, ghost node: Node) returns (r: Result<nat>)
      requires Shape() && node.Dir? && Readable(inode, node)
      ensures r == match LookupName(node.entries, name) case None => Err(NotFound(name)) case Some(b) => Ok(b.inode)
    {
      hide ViewOf, Holds, RunLeaf, FirstData, Concat, Pack, Readable;
      var entries :- ReadDir(inode, node);
      for i := 0 to |entries|
        invariant Find(entries, name) == Find(entries, name, i)
      {
        var entry := entries[i];
        if entry.IsUnused() {
          continue;
        }
        if entry.name == name {
          return Ok(entry.inode);
        }
      }
      return Err(NotFound(name));
    }

    // ----- directory blocks -----

    method DirBlockOf(inode: Inode, ghost node: Node) returns (r: Result<nat>)
      requires Shape() && node.Dir? && Readable(inode, node)
      ensures r == Ok(node.block) && AllEncodable(node.entries)
      ensures FirstData(superblock) <= node.block < superblock.blocksCount
      ensures BlockAt(image, superblock.blockSize, node.block, Pack(node.entries))
    {
      hide ViewOf, Holds, Readable, Pack, AllEncodable, FirstData, Resolve, RunLeaf, NodeOnDisk, Sized, Geometry;
      hide Content, HasContent, Concat, SameSetup, DivCeil;
      ReadableDir(inode, node);
      ViewFacts();
      ResolveRun(image, superblock.blockSize, node.block, 1, 0);
      ViewRunBlock(image, superblock, gdt[0], node.block, [Pack(node.entries)], 0);
      var physical :- ResolveLogicalBlock(inode, 0);
      match physical {
        case None => return Err(InvalidLayout);
        case Some(b) => return Ok(b);
      }
    }

    method WriteBlock(b: nat, bs: seq<byte>)
      requires Shape() && FirstData(superblock) <= b < superblock.blocksCount && |bs| == superblock.blockSize
      modifies `image
      ensures Shape() && b < |old(View()).data| && View() == PutBlock(old(View()), b, bs)
    {
      hide ViewOf, Holds, FirstData, Concat, PutData;
      ViewLength();
      ConcatOne(bs);
      PutOne(View(), b, bs);
      WriteRun(b, bs, [bs]);
    }

    method AddDirEntry(parentInode: Inode, name: Name, child: u32, fileType: byte,
                       ghost node: Node) returns (r: Result<Unit>)
      requires Shape() && node.Dir? && Readable(parentInode, node) && Tiles(node.entries, superblock.blockSize)
      modifies `image
      ensures Shape()
      ensures match CarveFault(node.entries, name)
        case Some(x) => r == Err(x) && image == old(image)
        case None => && r.Ok? && AllEncodable(Carve(node.entries, name, child, fileType))
                     && node.block < |old(View()).data|
                     && View() == PutBlock(old(View()), node.block, Pack(Carve(node.entries, name, child, fileType)))
    {
      hide ViewOf, Holds, FirstData, Pack, Readable, CarveFault, Carve, Tiles;
      TilesAll(node.entries, superblock.blockSize);
      var physical :- DirBlockOf(parentInode, node);
      var bytes :- ReadAt(physical * superblock.blockSize, superblock.blockSize);
      var buf := BufferOf(bytes);
      var edited :- AddToBlock(buf, name, child, fileType, node.entries);
      CarveBytes(node.entries, name, child, fileType, superblock.blockSize);
      TilesAll(Carve(node.entries, name, child, fileType), superblock.blockSize);
      WriteBlock(physical, buf[..]);
      return Ok(Unit.Unit);
    }

    method RemoveDirEntry(parentInode: Inode, target: u32, name: Name, ghost node: Node) returns (r: Result<Unit>)
      requires Shape() && node.Dir? && Readable(parentInode, node) && Tiles(node.entries, superblock.blockSize)
      modifies `image
      ensures Shape()
      ensures match FindBinding(node.entries, name, target)
        case None => r == Err(NotFound(name)) && image == old(image)
        case Some(i) => && r.Ok? && (i > 0 ==> node.entries[i - 1].recLen + node.entries[i].recLen < 0x1_0000)
                        && AllEncodable(Erase(node.entries, i)) && node.block < |old(View()).data|
                        && View() == PutBlock(old(View()), node.block, Pack(Erase(node.entries, i)))
    {
      hide ViewOf, Holds, FirstData, Pack, Readable, FindBinding, Erase, Tiles;
      TilesAll(node.entries, superblock.blockSize);
      var physical :- DirBlockOf(parentInode, node);
      var bytes :- ReadAt(physical * superblock.blockSize, superblock.blockSize);
      var buf := BufferOf(bytes);
      var edited :- RemoveFromBlock(buf, target, name, node.entries);
      TilesAll(Erase(node.entries, FindBinding(node.entries, name, target).value), superblock.blockSize);
      WriteBlock(physical, buf[..]);
      return Ok(Unit.Unit);
    }

    method UpdateDotDot(dirInode: Inode, newParent: u32, ghost node: Node) returns (r: Result<Unit>)
      requires Shape() && node.Dir? && Readable(dirInode, node) && Tiles(node.entries, superblock.blockSize)
      modifies `image
      ensures Shape()
      ensures match Find(node.entries, DOTDOT)
        case None => r == Err(InvalidLayout) && image == old(image)
        case Some(i) =>
          var es := node.entries[i := node.entries[i].(inode := newParent)];
          && r.Ok? && AllEncodable(es) && node.block < |old(View()).data|
          && View() == PutBlock(old(View()), node.block, Pack(es))
    {
      hide ViewOf, Holds, FirstData, Pack, Readable, Find, Tiles;
      TilesAll(node.entries, superblock.blockSize);
      var physical :- DirBlockOf(dirInode, node);
      var bytes :- ReadAt(physical * superblock.blockSize, superblock.blockSize);
      var buf := BufferOf(bytes);
      var edited :- RepointDotDot(buf, newParent, node.entries);
      ghost var i := Find(node.entries, DOTDOT).value;
      TilesAll(node.entries[i := node.entries[i].(inode := newParent)], superblock.blockSize);
      WriteBlock(physical, buf[..]);
      return Ok(Unit.Unit);
    }

    /** Every live inode can be read. */
    lemma LiveReadable(k: nat)
      requires Valid() && k in cat.nodes
      ensures 1 <= k <= superblock.inodesCount && |View().inodes| == superblock.inodesCount
      ensures Readable(View().inodes[k - 1], cat.nodes[k])
      ensures View().inodes[k - 1].IsDirectory() <==> cat.nodes[k].Dir?
      ensures View().inodes[k - 1].IsSymlink() <==> cat.nodes[k].Link?
      ensures View().inodes[k - 1].IsRegular() <==> cat.nodes[k].File?
    {
      ViewFacts();
      ViewLength();
      hide ViewOf, Holds, RunLeaf, Core, Pack, FirstData, Sized, Geometry;
      NodeIn(View(), cat, k);
      NodeBlocksIn(View(), cat, k);
    }

    method OpenPath(path: seq<byte>) returns (r: Result<nat>)
      requires Valid()
      ensures r == WalkPath(cat.nodes, Components(path), ROOT)
      ensures r.Ok? ==> r.value in cat.nodes
    {
      RootNotLost(View(), cat);
      hide Core, ViewOf, Holds, FirstData, NodeOnDisk, LookupName, Acyclic;
      var current := ROOT;
      var rest := path;
      while |rest| > 0
        invariant current in cat.nodes
        invariant WalkPath(cat.nodes, Components(rest), current) == WalkPath(cat.nodes, Components(path), ROOT)
        decreases |rest|
      {
        if rest[0] == SLASH {
          rest := rest[1..];
          continue;
        }
        var n := NameLen(rest);
        var component := rest[..n];
        LiveReadable(current);
        var parent :- ReadInode(current);
        FirstComponent(rest);
        if !parent.IsDirectory() {
          return Err(NotADirectory(current));
        }
        assert SlashFree(component);
        var found := Lookup(parent, component, cat.nodes[current]);
        if found.Err? {
          return Err(found.error);
        }
        Lands(current, component);
        current := found.value;
        rest := rest[n..];
      }
      return Ok(current);
    }

    lemma Lands(k: nat, name: Name)
      requires Valid() && IsDir(cat.nodes, k) && SlashFree(name) && LookupName(cat.nodes[k].entries, name).Some?
      ensures LookupName(cat.nodes[k].entries, name).value.inode in cat.nodes
    {
      ViewFacts();
      hide ViewOf, Holds, FirstData, TreeOk, OwnOk, LostOk, TreeOnDisk, BitmapsOk, LookupName, Sized, Geometry;
      LookupLands(superblock.blockSize, cat.nodes, cat.up, k, name);
    }

    // ----- allocation inside an operation -----

    /** allocate_inode: until it is entered, the inode counts as lost. */
    method ReserveInode() returns (r: Result<nat>)
      requires Valid()
      modifies this
      ensures Valid()
      ensures r.Err? ==> r == Err(NoSpace(Inodes)) && NoFreeInode(old(View()))
      ensures r.Err? ==> image == old(image) && superblock == old(superblock) && gdt == old(gdt) && cat == old(cat)
      ensures r.Ok? ==> FirstFreeInode(old(View()), r.value) && View() == TakeInode(old(View()), r.value)
      ensures r.Ok? ==>
        RESERVED < r.value && r.value !in old(cat).nodes && r.value !in old(cat).lostInodes
          && cat == Reserve(old(cat), {r.value}, {})
    {
      hide ViewOf, Holds, Core, Acyclic, FirstData, TakeInode;
      ghost var d := View();
      r := AllocateInode();
      if r.Ok? {
        InodeReserved(d, cat, r.value);
        cat := Reserve(cat, {r.value}, {});
      }
    }

    /** allocate_blocks_contiguous, likewise. */
    method ReserveBlocks(count: u32) returns (r: Result<nat>)
      requires Valid()
      modifies this
      ensures Valid()
      ensures r.Err? ==> r == Err(NoSpace(Blocks)) && NoFreeRun(old(View()), count)
      ensures r.Err? ==> image == old(image) && superblock == old(superblock) && gdt == old(gdt) && cat == old(cat)
      ensures r.Ok? ==> BlocksTaken(old(View()), View(), old(cat), cat, r.value, count)
    {
      hide ViewOf, Holds, Core, Acyclic, TookBlocks, FirstFreeRun, NoFreeRun, RunBlocks, BlocksTaken, Reserve;
      ghost var d := View();
      r := AllocateBlocksContiguous(count);
      if r.Ok? {
        BlocksReserved(d, View(), cat, r.value, count);
        ReserveUp(cat, {}, RunBlocks(r.value, count));
        cat := Reserve(cat, {}, RunBlocks(r.value, count));
      }
    }

    /** write_inode for an inode no entry names yet. */
    method FillInode(k: nat, inode: Inode) returns (r: Result<Unit>)
      requires Valid() && k in cat.lostInodes && 1 <= k <= superblock.inodesCount
      modifies `image
      ensures Valid() && r.Ok? && 1 <= k <= |old(View()).inodes| && View() == PutInode(old(View()), k, inode)
    {
      hide ViewOf, Holds, Core, Acyclic, PutInode;
      ViewLength();
      ghost var d := View();
      r := WriteInode(k, inode);
      PutLostInodeCore(d, cat, k, inode);
    }

    /** Writes a run of blocks no inode maps yet. */
    method FillBlocks(start: nat, bs: seq<byte>, ghost blocks: seq<seq<byte>>)
      requires Valid() && RunBlocks(start, |blocks|) <= cat.lostBlocks && start + |blocks| <= superblock.blocksCount
      requires FirstData(superblock) <= start && AllSized(blocks, superblock.blockSize) && bs == Concat(blocks)
      modifies `image
      ensures Valid() && start + |blocks| <= |old(View()).data| && View() == PutData(old(View()), start, blocks)
    {
      hide ViewOf, Holds, Core, Acyclic, PutData, Concat, FirstData, RunBlocks;
      ViewLength();
      ViewSb();
      ghost var d := View();
      WriteRun(start, bs, blocks);
      PutLostDataCore(d, cat, start, blocks);
    }

    method WriteRun(start: nat, bs: seq<byte>, ghost blocks: seq<seq<byte>>)
      requires Shape() && FirstData(superblock) <= start && start + |blocks| <= superblock.blocksCount
      requires AllSized(blocks, superblock.blockSize) && bs == Concat(blocks)
      modifies `image
      ensures Shape() && start + |blocks| <= |old(View()).data| && View() == PutData(old(View()), start, blocks)
    {
      hide Put, ViewOf, Holds, FirstData, Concat, PutData, AllSized, SameSetup;
      ViewLength();
      WriteData(image, superblock, gdt[0], start, blocks);
      HoldsAfter(image, Put(image, start * superblock.blockSize, bs), superblock, gdt[0]);
      WriteAt(start * superblock.blockSize, bs);
    }

    method Flush() returns (r: Result<Unit>)
      requires Valid()
      modifies `image
      ensures Valid() && r.Ok? && View() == Flushed(old(View())) && Coherent(View())
    {
      hide ViewOf, Holds, Core, Acyclic, Flushed, Coherent, Countable;
      ghost var d := View();
      CoreCountable(d, cat);
      r := FlushMetadata();
      FlushedCore(d, cat);
    }

    // ----- creating -----

    /** open_path, and the check that it is a directory. */
    method OpenDirectory(path: seq<byte>) returns (r: Result<(nat, Inode)>)
      requires Valid()
      ensures match Directory(cat.nodes, path)
        case Err(e) => r == Err(e)
        case Ok(p) => 1 <= p <= |View().inodes| && r == Ok((p, View().inodes[p - 1]))
    {
      hide ViewOf, Holds, Core, Acyclic, WalkPath, Components, Readable;
      var p :- OpenPath(path);
      LiveReadable(p);
      var inode :- ReadInode(p);
      if !inode.IsDirectory() {
        return Err(NotADirectory(p));
      }
      return Ok((p, inode));
    }

    /** split_path, open_path and the directory check creations and removals start with. */
    method OpenParent(path: seq<byte>) returns (r: Result<(nat, Inode, Name)>)
      requires Valid()
      ensures match Aim(cat.nodes, path)
        case Err(e) => r == Err(e)
        case Ok(at) =>
          && 1 <= at.dir <= |View().inodes| && r == Ok((at.dir, View().inodes[at.dir - 1], at.name))
          && SlashFree(at.name)
    {
      hide ViewOf, Holds, Core, Acyclic, SplitPath, Directory, Components;
      SplitAgreesWithWalk(path);
      var split :- SplitPath(path);
      var parent :- OpenDirectory(split.0);
      return Ok((parent.0, parent.1, split.1));
    }

    /** The collision check of the creating operations. */
    method CheckVacant(parentInode: Inode, name: Name, ghost p: nat) returns (r: Result<Unit>)
      requires Shape() && IsDir(cat.nodes, p) && Readable(parentInode, cat.nodes[p])
      ensures r == if LookupName(cat.nodes[p].entries, name).Some? then Err(AlreadyExists(name)) else Ok(Unit.Unit)
    {
      hide ViewOf, Holds, Readable, LookupName;
      var found := Lookup(parentInode, name, cat.nodes[p]);
      match found {
        case Ok(_) => return Err(AlreadyExists(name));
        case Err(NotFound(_)) => return Ok(Unit.Unit);
        case Err(e) => return Err(e);
      }
    }

    /** The checks and allocations a creation starts with. */
    method Stage(path: seq<byte>, count: u32) returns (r: Result<Site>)
      requires Valid()
      modifies this
      ensures Valid()
      ensures r.Err? ==> CreateFails(old(View()), old(cat), path, count, r.error, cat)
      ensures r.Err? && CreateLeak(old(View()), old(cat), path, count) == (0, 0) ==>
        image == old(image) && superblock == old(superblock) && gdt == old(gdt) && cat == old(cat)
      ensures View().inodes == old(View()).inodes
      ensures r.Ok? ==> Staged(old(View()), old(cat), path, count, r.value, View(), cat)
    {
      hide ViewOf, Holds, Core, Acyclic, Aim, Vacancy, Staged, CreateFails, CreateLeak, BlocksTaken, FirstFreeInode;
      hide NoFreeInode, NoFreeRun, TakeInode, LookupName, Readable, RunBlocks, SlashFree;
      ghost var d, c := View(), cat;
      ViewPositive();
      VacancyFromAim(c.nodes, path);
      var parent := OpenParent(path);
      if parent.Err? {
        NoVacancy(d, c, path, count, parent.error);
        return Err(parent.error);
      }
      var (p, parentInode, name) := parent.value;
      LiveReadable(p);
      var vacant := CheckVacant(parentInode, name, p);
      if vacant.Err? {
        NoVacancy(d, c, path, count, vacant.error);
        return Err(vacant.error);
      }
      var inode := ReserveInode();
      if inode.Err? {
        NoInode(d, c, path, count);
        return Err(inode.error);
      }
      var start := ReserveBlocks(count);
      if start.Err? {
        NoRun(d, c, path, count, inode.value);
        return Err(start.error);
      }
      var site := Site(p, parentInode, name, inode.value, start.value);
      StagedIntro(d, c, path, count, site, View(), cat);
      return Ok(site);
    }

    lemma ParentReadable(p: nat, inode: Inode)
      requires Valid() && IsDir(cat.nodes, p) && 1 <= p <= |View().inodes| && View().inodes[p - 1] == inode
      ensures Readable(inode, cat.nodes[p]) && Tiles(cat.nodes[p].entries, superblock.blockSize)
      ensures |cat.nodes[p].entries| > 0 && AllEncodable(cat.nodes[p].entries)
    {
      LiveReadable(p);
      ViewSb();
      hide ViewOf, Holds, Core, Acyclic, Readable, Tiles;
      DirIn(View(), cat, p);
      TilesAll(cat.nodes[p].entries, superblock.blockSize);
    }

    /** Enters a finished file or symlink and flushes. */
    method Publish(site: Site, fileType: byte, ghost d: Disk, ghost c: Catalog, ghost path: seq<byte>, ghost count: nat,
                   ghost staged: Disk, ghost node: Node) returns (r: Result<Unit>)
      requires Valid() && d.sb.blockSize == superblock.blockSize && !node.Dir? && fileType == FileTypeOf(node)
      requires CatalogOk(superblock.blockSize, c) && Acyclic(c.up)
      requires superblock.blockSize > 0 && Staged(d, c, path, count, site, staged, cat)
      requires Ready(superblock.blockSize, d, c, site, node, View(), cat)
      modifies this
      ensures Valid()
      ensures r.Err? ==> CreateFails(d, c, path, count, r.error, cat) && CreateLeak(d, c, path, count) != (0, 0)
      ensures r.Ok? ==>
        Created(d, c, path, site.k, node, cat) && CreateFault(d, c, path, count) == None && Coherent(View())
      ensures View().inodes == old(View()).inodes
    {
      hide CreateLeak, ViewOf, Holds, Core, Acyclic, Staged, Ready, CreateFails, Created, CreateFault, CatalogOk;
      hide Readable, Tiles, CarveFault, Carve;
      hide Pack, AllEncodable, Coherent, Enter, FileTypeOf, FreshBlocks, Reserve, FirstFreeInode, FirstFreeRun;
      hide LookupName, NodeOnDisk;
      hide NodeBlocks, SlashFree, Vacancy, FirstData, RunBlocks, FreshDir;
      ViewSb();
      ReadyFacts(d, c, site, node, View(), cat);
      ParentReadable(site.parent, site.parentInode);
      ghost var d1 := View();
      var added := AddDirEntry(site.parentInode, site.name, site.k, fileType, cat.nodes[site.parent]);
      if added.Err? {
        NoSlack(d, c, path, count, site, staged, cat, added.error);
        return Err(added.error);
      }
      Completed(d, c, path, count, site, staged, node, d1, cat);
      PlainEntered(d, c, site, node, d1, cat, View());
      cat := Enter(c, site.parent, site.name, site.k, node);
      r := Flush();
    }

    method CreateFile(path: seq<byte>, data: seq<byte>) returns (r: Result<nat>)
      requires Valid() && superblock.blockSize > 0 && DivCeil(|data|, superblock.blockSize) < 0x1_0000_0000
      modifies this
      ensures Valid() && old(View()).sb.blockSize > 0
      ensures r.Err? ==>
        CreateFails(old(View()), old(cat), path, DivCeil(|data|, old(superblock.blockSize)), r.error, cat)
      ensures var n := DivCeil(|data|, old(superblock.blockSize));
        r.Err? && CreateLeak(old(View()), old(cat), path, n) == (0, 0) ==>
        image == old(image) && superblock == old(superblock) && gdt == old(gdt) && cat == old(cat)
      ensures InodesKept(old(View()), View(), old(cat).nodes.Keys)
      ensures r.Ok? ==> FileCreated(old(View()), old(cat), path, data, r.value, View(), cat)
    {
      hide InodesKept, CreateLeak, ViewOf, Holds, Core, Acyclic, Staged, Ready, CreateFails, Created, CreateFault;
      hide CatalogOk, Readable, FileCreated;
      hide Coherent, FreshBlocks, Reserve, FirstFreeInode, FirstFreeRun, NodeOnDisk, LeafBlock, FileBlocks, Concat;
      hide PutInode;
      hide Vacancy, FirstData, RunBlocks, FreshDir, AllSized, Padded;
      ghost var d, c := View(), cat;
      KeptItself(d, c.nodes.Keys);
      ViewSb();
      BaseFacts(d, c);
      var blockSize: nat := superblock.blockSize;
      var numBlocks := DivCeil(|data|, blockSize);
      FileSizes(|data|, blockSize);
      FileBlocksHold(data, blockSize);
      ghost var blocks := FileBlocks(data, blockSize);
      var staged := Stage(path, numBlocks);
      KeptSame(d, d, View(), c.nodes.Keys);
      var site :- staged;
      ghost var s := View();
      ViewSb();
      ViewLength();
      StagedParts(d, c, path, numBlocks, site, s, cat);
      BaseFacts(s, cat);
      var blockBytes :- BuildLeafBlock(if numBlocks == 0 then [] else [Extent(0, numBlocks, site.start, false)]);
      var newInode := NewInode(FILE_MODE, |data|, 1, numBlocks * blockSize / 512, FLAG_EXTENTS, blockBytes);
      var written :- FillInode(site.k, newInode);
      KeptPut(d, s, View(), c.nodes.Keys, site.k, newInode);
      PutInodeAt(s, site.k, newInode);
      ghost var filled := View();
      if numBlocks > 0 {
        ViewSb();
        FillBlocks(site.start, Padded(data, blockSize), blocks);
      }
      ghost var c1 := cat;
      FileReady(d, c, path, numBlocks, site, s, View(), cat, |data|, blocks, newInode);
      var published := Publish(site, 1, d, c, path, numBlocks, s, File(site.start, |data|, blocks));
      KeptSame(d, filled, View(), c.nodes.Keys);
      var done :- published;
      FileCreatedIntro(d, c, path, data, site, s, View(), c1, cat);
      return Ok(site.k);
    }

    method Symlink(path: seq<byte>, target: seq<byte>) returns (r: Result<nat>)
      requires Valid()
      modifies this
      ensures Valid()
      ensures target == [] ==> r == Err(InvalidLayout)
      ensures |target| > 60 ==> r == Err(SymlinkTargetTooLong(|target|))
      ensures !(1 <= |target| <= 60) || (r.Err? && CreateLeak(old(View()), old(cat), path, 0) == (0, 0)) ==>
        image == old(image) && superblock == old(superblock) && gdt == old(gdt) && cat == old(cat)
      ensures InodesKept(old(View()), View(), old(cat).nodes.Keys)
      ensures 1 <= |target| <= 60 && r.Err? ==> CreateFails(old(View()), old(cat), path, 0, r.error, cat)
      ensures r.Ok? ==> LinkCreated(old(View()), old(cat), path, target, r.value, View(), cat)
    {
      hide InodesKept, CreateLeak, ViewOf, Holds, Core, Acyclic, Staged, Ready, CreateFails, Created, CreateFault;
      hide CatalogOk, Readable, NodeOnDisk;
      hide Coherent, FreshBlocks, Reserve, FirstFreeInode, FirstFreeRun, PutInode, Vacancy, FirstData, RunBlocks;
      hide FreshDir;
      KeptItself(View(), cat.nodes.Keys);
      if target == [] {
        return Err(InvalidLayout);
      }
      if |target| > I_BLOCK_LEN {
        return Err(SymlinkTargetTooLong(|target|));
      }
      ghost var d, c := View(), cat;
      ViewSb();
      BaseFacts(d, c);
      var staged := Stage(path, 0);
      KeptSame(d, d, View(), c.nodes.Keys);
      var site :- staged;
      ghost var s := View();
      ViewSb();
      ViewLength();
      StagedParts(d, c, path, 0, site, s, cat);
      BaseFacts(s, cat);
      var newInode := NewInode(LINK_MODE, |target|, 1, 0, 0, target + Zeros(I_BLOCK_LEN - |target|));
      var written :- FillInode(site.k, newInode);
      KeptPut(d, s, View(), c.nodes.Keys, site.k, newInode);
      PutInodeAt(s, site.k, newInode);
      ghost var filled := View();
      LinkReady(d, c, path, site, s, View(), cat, target, newInode);
      var published := Publish(site, 7, d, c, path, 0, s, Link(target));
      KeptSame(d, filled, View(), c.nodes.Keys);
      var done :- published;
      return Ok(site.k);
    }

    /** Enters a finished directory: its entry, its parent's link, the directory count. */
    method PublishDir(site: Site, ghost d: Disk, ghost c: Catalog, ghost path: seq<byte>, ghost staged: Disk,
                      ghost node: Node)
      returns (r: Result<Unit>)
      requires Valid() && d.sb.blockSize == superblock.blockSize && node.Dir?
      requires CatalogOk(superblock.blockSize, c) && Acyclic(c.up)
      requires superblock.blockSize > 0 && Staged(d, c, path, 1, site, staged, cat)
      requires Ready(superblock.blockSize, d, c, site, node, View(), cat)
      modifies this
      ensures Valid()
      ensures r.Err? ==> CreateFails(d, c, path, 1, r.error, cat) && CreateLeak(d, c, path, 1) != (0, 0)
      ensures r.Ok? ==> Created(d, c, path, site.k, node, cat) && CreateFault(d, c, path, 1) == None && Coherent(View())
      ensures InodesKept(old(View()), View(), c.nodes.Keys)
      ensures r.Ok? ==>
        && 1 <= site.parent <= |old(View()).inodes| && site.parentInode.linksCount + 1 < 0x1_0000
        && View().inodes ==
             old(View()).inodes[site.parent - 1 := site.parentInode.(linksCount := site.parentInode.linksCount + 1)]
    {
      hide InodesKept, CreateLeak, ViewOf, Holds, Core, Acyclic, Staged, Ready, CreateFails, Created, CreateFault;
      hide CatalogOk, Readable, Tiles, CarveFault, Carve;
      hide Pack, AllEncodable, Coherent, Enter, FreshBlocks, Reserve, FirstFreeInode, FirstFreeRun, LookupName;
      hide NodeOnDisk;
      hide NodeBlocks, SlashFree, Vacancy, FirstData, RunBlocks, FreshDir, PutInode;
      ViewSb();
      ReadyFacts(d, c, site, node, View(), cat);
      ParentReadable(site.parent, site.parentInode);
      ghost var d1 := View();
      KeptItself(d1, c.nodes.Keys);
      var added := AddDirEntry(site.parentInode, site.name, site.k, FT_DIR, cat.nodes[site.parent]);
      if added.Err? {
        NoSlack(d, c, path, 1, site, staged, cat, added.error);
        KeptSame(d1, d1, View(), c.nodes.Keys);
        return Err(added.error);
      }
      Completed(d, c, path, 1, site, staged, node, d1, cat);
      DirEntered(d, c, site, node, d1, cat, View());
      ViewLength();
      ghost var d2, relink := View(), site.parentInode.(linksCount := site.parentInode.linksCount + 1);
      KeptSame(d1, d1, d2, c.nodes.Keys);
      var relinked :- WriteInode(site.parent, site.parentInode.(linksCount := site.parentInode.linksCount + 1));
      KeptPut(d1, d2, View(), c.nodes.Keys, site.parent, relink);
      PutInodeAt(d2, site.parent, relink);
      ghost var d3 := View();
      ViewSb();
      CountOneDir(View(), d1.gd.usedDirsCount + 1);
      SetCounters(superblock, gdt[0].(usedDirsCount := gdt[0].usedDirsCount + 1));
      cat := Enter(c, site.parent, site.name, site.k, node);
      r := Flush();
      KeptSame(d1, d3, View(), c.nodes.Keys);
    }

    method Mkdir(path: seq<byte>) returns (r: Result<nat>)
      requires Valid()
      modifies this
      ensures Valid() && (old(View()).sb.blockSize == 2048 || old(View()).sb.blockSize == 4096)
      ensures r.Err? ==> CreateFails(old(View()), old(cat), path, 1, r.error, cat)
      ensures r.Err? && CreateLeak(old(View()), old(cat), path, 1) == (0, 0) ==>
        image == old(image) && superblock == old(superblock) && gdt == old(gdt) && cat == old(cat)
      ensures InodesKept(old(View()), View(), old(cat).nodes.Keys)
      ensures r.Ok? ==> DirCreated(old(View()), old(cat), path, r.value, View(), cat)
    {
      hide InodesKept, CreateLeak, ViewOf, Holds, Core, Acyclic, Staged, Ready, CreateFails, Created, CreateFault;
      hide CatalogOk, Readable, NodeOnDisk, DirCreated;
      hide Coherent, FreshBlocks, Reserve, FirstFreeInode, FirstFreeRun, LeafBlock, Concat, PutInode, NewListing, Pack;
      hide Vacancy, FirstData, RunBlocks, FreshDir, AllEncodable;
      ghost var d, c := View(), cat;
      KeptItself(d, c.nodes.Keys);
      ViewSb();
      BaseFacts(d, c);
      var blockSize: nat := superblock.blockSize;
      var staged := Stage(path, 1);
      KeptSame(d, d, View(), c.nodes.Keys);
      var site :- staged;
      ghost var s, c1 := View(), cat;
      ViewSb();
      ViewLength();
      StagedParts(d, c, path, 1, site, s, cat);
      StagedParent(d, c, path, 1, site, s, cat);
      BaseFacts(s, cat);
      var blockBytes :- BuildLeafBlock([Extent(0, 1, site.start, false)]);
      var newInode := NewInode(DIR_MODE, blockSize, 2, blockSize / 512, FLAG_EXTENTS, blockBytes);
      var written :- FillInode(site.k, newInode);
      KeptPut(d, s, View(), c.nodes.Keys, site.k, newInode);
      PutInodeAt(s, site.k, newInode);
      ghost var filled := View();
      ViewSb();
      var data :- NewDirBlock(site.k, site.parent, superblock.blockSize);
      ConcatOne(data);
      NewListingSize(site.k, site.parent, blockSize);
      FillBlocks(site.start, data, [data]);
      DirReady(d, c, path, site, s, View(), cat, newInode);
      KeptSame(d, filled, View(), c.nodes.Keys);
      ghost var before := View();
      var published := PublishDir(site, d, c, path, s, Dir(site.start, NewListing(site.k, site.parent, blockSize)));
      KeptTwice(d, before, View(), c.nodes.Keys);
      var done :- published;
      DirCreatedIntro(d, c, path, site, s, View(), c1, cat);
      return Ok(site.k);
    }

    // ----- removing -----

    method FreeExtents(extents: seq<Extent>) returns (r: Result<Unit>)
      requires Shape() && Givable(View(), FreedAll(extents, 0))
      requires forall i :: 0 <= i < |extents| ==> extents[i].physical + extents[i].len <= superblock.blocksCount
      modifies `image, `superblock, `gdt
      ensures Shape() && r.Ok? && View() == GiveRuns(old(View()), FreedAll(extents, 0))
    {
      hide ViewOf, Holds, Sized, Geometry, FreedAll, GiveRuns, GiveBlocks, Givable, TotalRunLen;
      ViewFacts();
      ghost var d := View();
      NoExtents(d);
      assert extents[..0] == [];
      for i := 0 to |extents|
        invariant Shape() && Givable(d, FreedAll(extents[..i], 0)) && View() == GiveRuns(d, FreedAll(extents[..i], 0))
      {
        FreeStep(d, extents, i);
        ViewSb();
        if !extents[i].uninit {
          var freed :- FreeBlocks(extents[i].physical, extents[i].len);
        }
      }
      assert extents[..|extents|] == extents;
      return Ok(Unit.Unit);
    }

    /** Frees the blocks an inode maps. */
    method FreeData(inode: Inode, ghost node: Node) returns (r: Result<Unit>)
      requires Shape() && NodeOnDisk(superblock.blockSize, inode, View().data, node) && Givable(View(), RunsOf(node))
      modifies `image, `superblock, `gdt
      ensures Shape() && r.Ok? && View() == GiveRuns(old(View()), RunsOf(node))
    {
      hide ViewOf, Holds, Sized, Geometry, FreedAll, GiveRuns, GiveBlocks, Givable, TotalRunLen, NodeOnDisk, DecodeNode;
      hide RunsOf;
      ViewFacts();
      ViewLength();
      NoExtents(View());
      LeafOf(superblock.blockSize, inode, View().data, node);
      if inode.UsesExtents() && inode.size > 0 {
        var decoded :- DecodeExtentNode(inode.block);
        if decoded.Leaf? {
          var freed :- FreeExtents(decoded.extents);
        }
      }
      return Ok(Unit.Unit);
    }

    /** What unlink and rmdir share: free everything, mark the record deleted, drop the entry. */
    method EraseInode(p: nat, parentInode: Inode, name: Name, k: u32, target: Inode) returns (r: Result<Unit>)
      requires Shape() && IsDir(cat.nodes, p) && Readable(parentInode, cat.nodes[p])
      requires Tiles(cat.nodes[p].entries, superblock.blockSize)
      requires k as nat in cat.nodes && 1 <= k <= |View().inodes| && target == View().inodes[k - 1]
      requires NodeOnDisk(superblock.blockSize, target, View().data, cat.nodes[k])
      requires FindBinding(cat.nodes[p].entries, name, k).Some?
      requires Tearable(View(), cat.nodes[p], FindBinding(cat.nodes[p].entries, name, k).value, cat.nodes[k], k)
      modifies `image, `superblock, `gdt
      ensures Shape() && r.Ok?
      ensures View() ==
        TornDown(old(View()), cat.nodes[p], FindBinding(cat.nodes[p].entries, name, k).value, cat.nodes[k], k)
    {
      hide ViewOf, Holds, GiveRuns, Givable, NodeOnDisk, RunsOf, Readable, Tiles, FindBinding, Deleted, FirstData;
      hide Erase, Pack, AllEncodable, Find;
      ViewSb();
      ViewLength();
      ghost var d := View();
      ReadableParts(parentInode, cat.nodes[p]);
      var freed :- FreeData(target, cat.nodes[k]);
      ViewSb();
      var given :- FreeInode(k);
      ViewSb();
      var marked :- WriteInode(k, Deleted(target));
      ViewSb();
      CountersFirst(d.sb, superblock);
      StillReadable(parentInode, cat.nodes[p], d);
      r := RemoveDirEntry(parentInode, k, name, cat.nodes[p]);
    }

    lemma StillReadable(inode: Inode, node: Node, d: Disk)
      requires Shape() && d.sb.blockSize > 0 && NodeOnDisk(d.sb.blockSize, inode, d.data, node) && View().data == d.data
      requires superblock.blockSize == d.sb.blockSize && FirstData(superblock) == FirstData(d.sb)
      requires node.Dir? ==>
        FirstData(d.sb) <= node.block && AllEncodable(node.entries) && |Pack(node.entries)| == d.sb.blockSize
      requires node.File? && |node.blocks| > 0 ==> FirstData(d.sb) <= node.start
      ensures Readable(inode, node)
    {
    }

    /** The entry an operation acts on: its directory, and the inode it names. */
    method FindTarget(path: seq<byte>) returns (r: Result<(nat, Inode, Name, nat)>)
      requires Valid()
      ensures match Occupant(cat.nodes, path)
        case Err(e) => r == Err(e)
        case Ok(found) => && 1 <= found.0.dir <= |View().inodes| && found.1 in cat.nodes
                          && r == Ok((found.0.dir, View().inodes[found.0.dir - 1], found.0.name, found.1))
    {
      hide ViewOf, Holds, Core, Acyclic, Aim, LookupName, Readable;
      var parent :- OpenParent(path);
      var (p, parentInode, name) := parent;
      LiveReadable(p);
      var k :- Lookup(parentInode, name, cat.nodes[p]);
      Lands(p, name);
      return Ok((p, parentInode, name, k));
    }

    method Unlink(path: seq<byte>) returns (r: Result<Unit>)
      requires Valid()
      modifies this
      ensures Valid()
      ensures r == match UnlinkFault(old(cat).nodes, path) case Some(e) => Err(e) case None => Ok(Unit.Unit)
      ensures r.Err? ==> image == old(image) && superblock == old(superblock) && gdt == old(gdt) && cat == old(cat)
      ensures r.Ok? ==> Removed(old(cat), path, View(), cat) && BuriedAt(old(View()), old(cat), path, View())
      ensures InodesKept(old(View()), View(), cat.nodes.Keys)
      ensures r.Ok? ==>
        Occupant(old(cat).nodes, path).Ok? && InodesBut(old(View()), View(), Occupant(old(cat).nodes, path).value.1)
    {
      hide ViewOf, Holds, Core, Acyclic, Occupant, Readable, NodeOnDisk, Tiles, TearAt, Torn, TornDown, Tearable;
      hide FindBinding, Find, Remove;
      hide Detachable, CanErase, Coherent, Flushed, AllEncodable, Pack, InodesKept, InodesBut, Buried;
      ghost var d, c := View(), cat;
      KeptItself(d, c.nodes.Keys);
      var found :- FindTarget(path);
      var (p, parentInode, name, k) := found;
      LiveReadable(k);
      var target :- ReadInode(k);
      if target.IsDirectory() {
        return Err(IsADirectory(k));
      }
      UnlinkDone(d, c, path);
      ghost var at := Place(p, name);
      EraseReady(d, at, k, parentInode, target);
      var gone :- EraseInode(p, parentInode, name, k, target);
      RemoveDrops(c, p, name, k);
      cat := Remove(c, p, name, k);
      TornKept(d, c, at, k, cat.nodes.Keys);
      TornBuried(d, c, at, k);
      var flushed :- Flush();
      return Ok(Unit.Unit);
    }

    lemma LiveListing(k: nat)
      requires Valid() && IsDir(cat.nodes, k)
      ensures ListingOk(k, cat.nodes[k].entries)
    {
      hide ViewOf, Holds, Core, Acyclic, ListingOk;
      DirIn(View(), cat, k);
    }

    lemma EraseReady(d: Disk, at: Place, k: nat, parentInode: Inode, target: Inode)
      requires Valid() && d == View() && TearAt(d, cat, at, k)
      requires parentInode == d.inodes[at.dir - 1] && target == d.inodes[k - 1]
      ensures IsDir(cat.nodes, at.dir) && Readable(parentInode, cat.nodes[at.dir])
      ensures Tiles(cat.nodes[at.dir].entries, superblock.blockSize)
      ensures k in cat.nodes && k < 0x1_0000_0000 && NodeOnDisk(superblock.blockSize, target, View().data, cat.nodes[k])
      ensures FindBinding(cat.nodes[at.dir].entries, at.name, k).Some?
      ensures Tearable(d, cat.nodes[at.dir], FindBinding(cat.nodes[at.dir].entries, at.name, k).value, cat.nodes[k], k)
      ensures TornDown(d, cat.nodes[at.dir], FindBinding(cat.nodes[at.dir].entries, at.name, k).value, cat.nodes[k],
        k) == Torn(d, cat, at, k)
    {
      hide ViewOf, Holds, Core, Acyclic, Readable, NodeOnDisk, Tiles, TornDown, Tearable, FindBinding;
      ParentReadable(at.dir, parentInode);
      LiveReadable(k);
      ReadableParts(target, cat.nodes[k]);
    }

    method Rmdir(path: seq<byte>) returns (r: Result<Unit>)
      requires Valid()
      modifies this
      ensures Shape()
      ensures r == match RmdirFault(old(cat).nodes, path) case Some(e) => Err(e) case None => Ok(Unit.Unit)
      ensures r.Err? ==> image == old(image) && superblock == old(superblock) && gdt == old(gdt) && cat == old(cat)
      ensures r.Ok? && !RemovesItself(old(cat).nodes, path) ==> Valid() && Removed(old(cat), path, View(), cat)
      ensures r.Ok? && !RemovesItself(old(cat).nodes, path) ==> BuriedAt(old(View()), old(cat), path, View())
      ensures !RemovesItself(old(cat).nodes, path) ==> InodesKept(old(View()), View(), cat.nodes.Keys)
      ensures RemovesItself(old(cat).nodes, path) ==> r.Ok? && Unfit(View())
    {
      hide InodesKept, ViewOf, Holds, Core, Acyclic, Occupant, Readable, NodeOnDisk, Tiles, TearAt, Torn, TornDown;
      hide Tearable, FindBinding, Find, Remove;
      hide Detachable, CanErase, Coherent, AllEncodable, Pack, Unlinked, Countable, RemovesItself, RmdirComesTo, Unfit;
      hide Removed, BuriedAt, Buried;
      ghost var d, c := View(), cat;
      KeptItself(d, c.nodes.Keys);
      SelfAccepted(c.nodes, path);
      var found :- FindTarget(path);
      var (p, parentInode, name, k) := found;
      if k == ROOT {
        return Err(DirectoryNotEmpty(ROOT));
      }
      LiveReadable(k);
      var target :- ReadInode(k);
      if !target.IsDirectory() {
        return Err(NotADirectory(k));
      }
      var entries :- ReadDir(target, cat.nodes[k]);
      LiveListing(k);
      var others := CountOthers(entries, k);
      if others != 0 {
        return Err(DirectoryNotEmpty(k));
      }
      ghost var at := Place(p, name);
      RmdirReady(d, c, path);
      ComesToTears(d, c, path, at, k);
      EraseReady(d, at, k, parentInode, target);
      var gone :- EraseInode(p, parentInode, name, k, target);
      ViewSb();
      ViewLength();
      ghost var torn := View();
      TornInodes(d, c, at, k);
      var relinked :- WriteInode(p, parentInode.(linksCount := Less(parentInode.linksCount, 1)));
      ghost var unlinked := View();
      ViewSb();
      CountOneDir(View(), Less(gdt[0].usedDirsCount, 1));
      SetCounters(superblock, gdt[0].(usedDirsCount := Less(gdt[0].usedDirsCount, 1)));
      UnlinkedIs(torn, p, parentInode);
      RmdirParts(d, c, path, at, k, torn);
      cat := if RemovesItself(c.nodes, path) then cat else Remove(c, p, name, k);
      var flushed :- FlushMetadata();
      if !RemovesItself(c.nodes, path) {
        RemoveDrops(c, p, name, k);
        RmdirRecords(d, c, path, at, k, parentInode, unlinked, View(), cat);
      }
      return Ok(Unit.Unit);
    }

    // ----- resizing and inode fields -----

    /** Frees what lies past `cutoff` and returns the extents that are left. */
    method CutExtents(extents: seq<Extent>, cutoff: nat) returns (r: Result<seq<Extent>>)
      requires Shape() && Givable(View(), FreedAll(extents, cutoff))
      modifies `image, `superblock, `gdt
      ensures Shape() && r == Ok(KeptAll(extents, cutoff)) && View() == GiveRuns(old(View()), FreedAll(extents, cutoff))
    {
      hide ViewOf, Holds, Sized, Geometry, FreedAll, KeptAll, GiveRuns, GiveBlocks, Givable, TotalRunLen;
      ViewFacts();
      ghost var d := View();
      NoExtents(d);
      NoneKept(cutoff);
      var surviving: seq<Extent> := [];
      assert extents[..0] == [];
      for i := 0 to |extents|
        invariant Shape() && Givable(d, FreedAll(extents[..i], cutoff))
        invariant View() == GiveRuns(d, FreedAll(extents[..i], cutoff))
        invariant surviving == KeptAll(extents[..i], cutoff)
      {
        CutStep(d, extents, cutoff, i);
        FreedStep(extents, cutoff, i);
        ViewSb();
        var ext := extents[i];
        var extStart, extEnd: nat := ext.logical, ext.logical + ext.len;
        if extEnd <= cutoff {
          surviving := surviving + [ext];
        } else if extStart >= cutoff {
          if !ext.uninit {
            var freed :- FreeBlocks(ext.physical, ext.len);
          }
        } else {
          var keptLen := cutoff - extStart;
          if !ext.uninit {
            var freed :- FreeBlocks(ext.physical + keptLen, extEnd - cutoff);
          }
          surviving := surviving + [ext.(len := keptLen)];
        }
      }
      assert extents[..|extents|] == extents;
      return Ok(surviving);
    }

    /** Truncation past the end, inside the blocks the file has. */
    method Grow(k: nat, inode: Inode, newSize: u64, ghost f: Node) returns (r: Result<Unit>)
      requires Valid() && k in cat.nodes && cat.nodes[k] == f && f.File? && 1 <= k <= |View().inodes|
      requires inode == View().inodes[k - 1]
      requires superblock.blockSize > 0 && newSize > f.size && |f.blocks| == DivCeil(f.size, superblock.blockSize)
      modifies this
      ensures Valid()
      ensures newSize > Capacity(|f.blocks|, old(superblock.blockSize)) ==> r == Err(UnsupportedV0)
      ensures newSize <= Capacity(|f.blocks|, old(superblock.blockSize)) ==> r == Ok(Unit.Unit)
      ensures r.Err? ==> image == old(image) && superblock == old(superblock) && gdt == old(gdt) && cat == old(cat)
      ensures r.Ok? ==>
        cat == Cut(old(cat), k, newSize, |f.blocks|) && DivCeil(newSize, old(superblock.blockSize)) == |f.blocks|
          && Coherent(View())
      ensures r.Ok? ==> RecordResized(old(View()), View(), k) && Stamped(View(), k)
    {
      hide ViewOf, Holds, Core, Acyclic, Readable, NodeOnDisk, DecodeNode, Coherent, Cut, FirstData, Capacity;
      ghost var d, c := View(), cat;
      LiveReadable(k);
      ReadableParts(inode, f);
      ViewSb();
      FileLeafIs(superblock.blockSize, inode, d.data, f);
      var blockSize: nat := superblock.blockSize;
      NoSizeNoBlocks(blockSize);
      var blocks := 0;
      if inode.UsesExtents() && inode.size > 0 {
        var node :- DecodeExtentNode(inode.block);
        if node.Internal? {
          return Err(UnsupportedV0);
        }
        RunTotal(f, node.extents);
        blocks := SumLens(node.extents);
      }
      if newSize > Capacity(blocks, blockSize) {
        return Err(UnsupportedV0);
      }
      KeepFits(f, newSize, blockSize);
      var newInode := inode.(size := newSize, mtime := TRUNCATION_TIME, ctime := TRUNCATION_TIME);
      GrowCore(d, c, k, newSize, newInode);
      CutUp(c, k, newSize, |f.blocks|);
      var grown :- WriteInode(k, newInode);
      cat := Cut(c, k, newSize, |f.blocks|);
      var flushed :- Flush();
      return Ok(Unit.Unit);
    }

    /** Truncation below the end: the leaf is cut and rebuilt. */
    method Shrink(k: nat, inode: Inode, newSize: u64, ghost f: Node) returns (r: Result<Unit>)
      requires Valid() && k in cat.nodes && cat.nodes[k] == f && f.File? && 1 <= k <= |View().inodes|
      requires inode == View().inodes[k - 1]
      requires superblock.blockSize > 0 && newSize < f.size && |f.blocks| == DivCeil(f.size, superblock.blockSize)
      modifies this
      ensures Valid() && r == Ok(Unit.Unit)
      ensures DivCeil(newSize, old(superblock.blockSize)) <= |f.blocks|
      ensures cat == Cut(old(cat), k, newSize, DivCeil(newSize, old(superblock.blockSize))) && Coherent(View())
      ensures RecordResized(old(View()), View(), k) && Stamped(View(), k)
    {
      hide ViewOf, Holds, Core, Acyclic, Readable, NodeOnDisk, DecodeNode, Coherent, Cut, FirstData, Givable, GiveRuns;
      hide LeafBlock;
      hide Sectors, KeptAll, FreedAll, TotalLen, RunLeaf;
      ghost var d, c := View(), cat;
      LiveReadable(k);
      ReadableParts(inode, f);
      ViewSb();
      BaseFacts(d, c);
      FileLeafIs(superblock.blockSize, inode, d.data, f);
      var blockSize: nat := superblock.blockSize;
      var cutoff := DivCeil(newSize, blockSize);
      if !inode.UsesExtents() {
        return Err(NotExtentBased);
      }
      var node :- DecodeExtentNode(inode.block);
      if node.Internal? {
        return Err(UnsupportedV0);
      }
      ShrinkReady(d, c, k, newSize, node.extents);
      var surviving :- CutExtents(node.extents, cutoff);
      var blockBytes :- BuildLeafBlock(surviving);
      var survivingBlocks := SumLens(surviving);
      var newInode := inode.(size := newSize, blocksLo := Sectors(survivingBlocks, blockSize), block := blockBytes,
                             mtime := TRUNCATION_TIME, ctime := TRUNCATION_TIME);
      CutUp(c, k, newSize, cutoff);
      ViewSb();
      ViewLength();
      var written :- WriteInode(k, newInode);
      cat := Cut(c, k, newSize, cutoff);
      var flushed :- Flush();
      return Ok(Unit.Unit);
    }

    method Truncate(path: seq<byte>, newSize: u64) returns (r: Result<Unit>)
      requires Valid()
      modifies this
      ensures Valid() && old(View()).sb.blockSize > 0
      ensures r ==
        match TruncateFault(old(superblock.blockSize), old(cat).nodes, path,
          newSize) case Some(e) => Err(e) case None => Ok(Unit.Unit)
      ensures match WalkPath(old(cat).nodes, Components(path), ROOT)
        case Err(e) => r == Err(e)
        case Ok(k) =>
          if k !in old(cat).nodes || !old(cat).nodes[k].File? then r == Err(NotARegularFile(k))
          else if Allowed(old(cat).nodes[k].size, old(superblock.blockSize), newSize) then r == Ok(Unit.Unit)
          else r == Err(UnsupportedV0)
      ensures r.Err? ==> image == old(image) && superblock == old(superblock) && gdt == old(gdt) && cat == old(cat)
      ensures r.Ok? ==> Truncated(old(View()), old(cat), path, newSize, View(), cat)
    {
      hide ViewOf, Holds, Core, Acyclic, WalkPath, Components, Readable, NodeOnDisk, DecodeNode, Coherent, Flushed, Cut;
      hide FirstData, TruncateFault, Truncated, RecordResized, Stamped, Allowed;
      ghost var d, c := View(), cat;
      ViewSb();
      BaseFacts(d, c);
      TruncateAnswers(d, c, path, newSize);
      FaultWalk(superblock.blockSize, c.nodes, path, newSize);
      var k :- OpenPath(path);
      LiveReadable(k);
      FaultCases(superblock.blockSize, c.nodes, path, newSize, k);
      var inode :- ReadInode(k);
      if !inode.IsRegular() {
        return Err(NotARegularFile(k));
      }
      ghost var f := c.nodes[k];
      ReadableParts(inode, f);
      FileLeafIs(superblock.blockSize, inode, d.data, f);
      if newSize == inode.size {
        CutNothing(c, k);
        SameRecord(d, k);
        TruncatedIntro(d, c, path, newSize, k, d);
        return Ok(Unit.Unit);
      }
      if newSize > inode.size {
        r := Grow(k, inode, newSize, f);
      } else {
        r := Shrink(k, inode, newSize, f);
      }
      if r.Ok? {
        TruncatedIntro(d, c, path, newSize, k, View());
      }
    }

    /** Reads an inode, changes some fields, stamps ctime and writes it back. Nothing is flushed. */
    method WithInodeMut(path: seq<byte>, mutate: Inode -> Inode) returns (r: Result<Unit>)
      requires Valid() && forall i :: Touched(i, mutate(i))
      modifies `image
      ensures Valid()
      ensures match WalkPath(cat.nodes, Components(path), ROOT)
        case Err(e) => r == Err(e) && image == old(image)
        case Ok(k) => && r == Ok(Unit.Unit) && 1 <= k <= |old(View()).inodes|
                      && View() == PutInode(old(View()), k, mutate(old(View()).inodes[k - 1]).(ctime := METADATA_CTIME))
    {
      hide ViewOf, Holds, Core, Acyclic, WalkPath, Components, Readable, NodeOnDisk, PutInode, Touched;
      ghost var d := View();
      var k :- OpenPath(path);
      LiveReadable(k);
      var inode :- ReadInode(k);
      ReadableParts(inode, cat.nodes[k]);
      ViewSb();
      var changed := mutate(inode);
      TouchedCtime(inode, changed);
      changed := changed.(ctime := METADATA_CTIME);
      TouchedOnDisk(superblock.blockSize, inode, changed, d.data, cat.nodes[k]);
      RewriteInodeCore(d, cat, k, changed);
      r := WriteInode(k, changed);
      if r.Ok? {
        return Ok(Unit.Unit);
      }
    }

    method Chmod(path: seq<byte>, mode: u16) returns (r: Result<Unit>)
      requires Valid()
      modifies `image
      ensures Valid()
      ensures match WalkPath(cat.nodes, Components(path), ROOT)
        case Err(e) => r == Err(e) && image == old(image)
        case Ok(k) => && r == Ok(Unit.Unit) && 1 <= k <= |old(View()).inodes|
                      && View() ==
                        PutInode(old(View()), k, Chmodded(old(View()).inodes[k - 1], mode).(ctime := 0x6500_0002))
    {
      hide ViewOf, Holds, Core, Acyclic, WalkPath, Components, PutInode, Chmodded;
      forall i ensures Touched(i, Chmodded(i, mode)) {
        ChmodKeepsType(i, mode);
      }
      r := WithInodeMut(path, i => Chmodded(i, mode));
    }

    method Chown(path: seq<byte>, uid: u32, gid: u32) returns (r: Result<Unit>)
      requires Valid()
      modifies `image
      ensures Valid()
      ensures match WalkPath(cat.nodes, Components(path), ROOT)
        case Err(e) => r == Err(e) && image == old(image)
        case Ok(k) => && r == Ok(Unit.Unit) && 1 <= k <= |old(View()).inodes|
                      && View() ==
                        PutInode(old(View()), k,
                          old(View()).inodes[k - 1].(uid := uid, gid := gid, ctime := 0x6500_0002))
    {
      hide ViewOf, Holds, Core, Acyclic, WalkPath, Components, PutInode;
      r := WithInodeMut(path, (i: Inode) => i.(uid := uid, gid := gid));
    }

    method Utime(path: seq<byte>, atime: u32, mtime: u32) returns (r: Result<Unit>)
      requires Valid()
      modifies `image
      ensures Valid()
      ensures match WalkPath(cat.nodes, Components(path), ROOT)
        case Err(e) => r == Err(e) && image == old(image)
        case Ok(k) => && r == Ok(Unit.Unit) && 1 <= k <= |old(View()).inodes|
                      && View() ==
                        PutInode(old(View()), k,
                          old(View()).inodes[k - 1].(atime := atime, mtime := mtime, ctime := 0x6500_0002))
    {
      hide ViewOf, Holds, Core, Acyclic, WalkPath, Components, PutInode;
      r := WithInodeMut(path, (i: Inode) => i.(atime := atime, mtime := mtime));
    }

    // ----- renaming -----

    lemma NowReadable(inode: Inode, node: Node)
      requires Shape() && superblock.blockSize > 0 && node.Dir?
      requires NodeOnDisk(superblock.blockSize, inode, View().data, node)
      requires FirstData(superblock) <= node.block && Tiles(node.entries, superblock.blockSize)
      ensures Readable(inode, node)
    {
      TilesAll(node.entries, superblock.blockSize);
    }

    /** The new entry, then the old one. */
    method SwapEntries(p: nat, pInode: Inode, was: Name, q: u32, qInode: Inode, name: Name, k: u32,
                       fileType: byte) returns (r: Result<Unit>)
      requires Valid() && Movement(cat, p, was, q, name, k) && fileType == FileTypeOf(cat.nodes[k])
      requires 1 <= p <= |View().inodes| && 1 <= q <= |View().inodes| && pInode == View().inodes[p - 1]
      requires qInode == View().inodes[q - 1]
      modifies `image
      ensures Shape()
      ensures r.Err? ==> image == old(image) && Full(cat, q, name, r.error)
      ensures r.Ok? && MoveTry(cat, p, was, q, name, k) ==> Swapped(old(View()), cat, p, was, q, name, k, View())
      ensures !MoveTry(cat, p, was, q, name, k) ==> r.Ok? && DotSwapped(old(View()), cat, p, was, q, name, k, View())
    {
      hide ViewOf, Holds, Core, Acyclic, Readable, Tiles, CarveFault, Carve, Pack, AllEncodable, FileTypeOf, LookupName;
      hide NodeOnDisk, FirstData, Ordinary;
      hide Movable, MoveReady, AfterFirst, AfterSecond, OldEntryReady, Entered1, WithoutEntry, FindBinding, Find, Erase;
      hide CanCarve, CanErase, CanMove, MoveTry, MoveArgs;
      hide CatalogOk, Geometry, Sized, TreeOnDisk, BitmapsOk, DotArgs, DotSwapped, Drawn, ListingOk;
      ghost var d, plain := View(), MoveTry(cat, p, was, q, name, k);
      ViewSb();
      ViewPositive();
      CoreParts(d, cat);
      ParentReadable(q, qInode);
      if plain {
        ArgsMovable(superblock.blockSize, cat, p, was, q, name, k);
      } else {
        DotParts(cat, p, was, q, name, k);
      }
      var added := AddDirEntry(qInode, name, k, fileType, cat.nodes[q]);
      if added.Err? {
        return Err(added.error);
      }
      ghost var node, d1 := cat.nodes[p], View();
      if plain {
        OldEntryHolds(d, cat, p, was, q, name, k);
        ReadyCanMove(d, cat, p, was, q, name, k);
        CanMoveErases(cat, p, was, q, name, k);
        FirstIs(d, cat, p, was, q, name, k, d1);
        node := Entered1(cat.nodes, q, name, k)[p];
        OldEntryUse(d, cat, p, was, q, name, k, Find(node.entries, was).value, node, d1);
      } else {
        DrawnStart(d, cat);
        DotFirst(d, cat, p, was, q, name, k, d1);
        node := Dir(cat.nodes[p].block, SourceList(cat, p, q, name, k));
      }
      var oldParent := if p == q then qInode else pInode;
      NowReadable(oldParent, node);
      var gone :- RemoveDirEntry(oldParent, k, was, node);
      if !plain {
        DotSecond(d, cat, p, was, q, name, k, d1, View());
      }
      return Ok(Unit.Unit);
    }

    /** A directory that changed parents: its `..`, and the two link counts. */
    method Reparent(p: nat, pInode: Inode, ghost was: Name, q: u32, qInode: Inode, ghost name: Name, k: u32,
                    srcInode: Inode, ghost d: Disk,
                    ghost plain: bool)
      returns (r: Result<Unit>)
      requires Shape() && CatalogOk(d.sb.blockSize, cat) && Acyclic(cat.up) && superblock.blockSize == d.sb.blockSize
      requires if plain then Reparentable(d, cat, p, was, q, name, k, View())
        else DotSwapped(d, cat, p, was, q, name, k, View()) && p != q
      requires 1 <= p <= |d.inodes| && 1 <= q <= |d.inodes| && 1 <= k <= |d.inodes|
      requires pInode == d.inodes[p - 1] && qInode == d.inodes[q - 1] && srcInode == d.inodes[k - 1]
      requires qInode.linksCount + 1 < 0x1_0000
      modifies `image
      ensures Shape() && r.Ok?
      ensures plain ==> Reparented(d, cat, p, was, q, name, k, View())
      ensures !plain ==> Unfit(Flushed(View())) && View().sb == d.sb && View().gd == d.gd
    {
      hide ViewOf, Holds, Core, Readable, Tiles, Pack, AllEncodable, NodeOnDisk, FirstData, Movable, MoveReady;
      hide AfterSecond, Entered1, WithoutEntry, MovedNodes, MovedDisk, Find;
      hide Acyclic, CatalogOk, DotArgs, DotSwapped, Drawn, Reparentable, Unfit, Erase, Carve, ListingOk;
      ghost var d2, node := View(), Dir(0, []);
      ViewSb();
      ViewPositive();
      if plain {
        ReparentParts(d, cat, p, was, q, name, k, d2);
        DotDotParts(d, cat, p, was, q, name, k);
        node := WithoutEntry(Entered1(cat.nodes, q, name, k), p, was)[k];
        WritesAreMove(d, cat, p, was, q, name, k);
      } else {
        SwappedSame(d, cat, p, was, q, name, k, d2);
        DotParts(cat, p, was, q, name, k);
        DotThird(d, cat, p, was, q, name, k, d2);
        node := Dir(cat.nodes[k].block, TargetList(cat, p, was, q, name, k));
      }
      NowReadable(srcInode, node);
      var pointed :- UpdateDotDot(srcInode, q, node);
      ViewLength();
      ghost var d3 := View();
      var left :- WriteInode(p, pInode.(linksCount := Less(pInode.linksCount, 1)));
      r := WriteInode(q, qInode.(linksCount := qInode.linksCount + 1));
      if !plain {
        DotMovedUnfit(d, cat, p, was, q, name, k, d2, View(), Less(pInode.linksCount, 1), qInode.linksCount + 1);
      }
    }

    method MoveEntry(p: nat, pInode: Inode, was: Name, q: u32, qInode: Inode, name: Name, k: u32, srcInode: Inode,
                     fileType: byte)
      returns (r: Result<Unit>)
      requires Valid() && Movement(cat, p, was, q, name, k) && fileType == FileTypeOf(cat.nodes[k])
      requires 1 <= p <= |View().inodes| && 1 <= q <= |View().inodes| && pInode == View().inodes[p - 1]
      requires qInode == View().inodes[q - 1]
      requires 1 <= k <= |View().inodes| && srcInode == View().inodes[k - 1]
      modifies this
      ensures Shape()
      ensures r.Err? ==> image == old(image) && superblock == old(superblock) && gdt == old(gdt)
      ensures MoveTry(old(cat), p, was, q, name, k) ==>
        Core(View(), cat) && Renamed(old(cat), Place(p, was), k, Place(q, name), r, View(), cat)
      ensures MoveTry(old(cat), p, was, q, name, k) ==> InodesKept(old(View()), View(), old(cat).nodes.Keys)
      ensures !MoveTry(old(cat), p, was, q, name, k) ==> r.Ok? && Unfit(View())
    {
      hide InodesKept, ViewOf, Holds, Core, Acyclic, FileTypeOf, MoveTry, Swapped, Movable, MoveReady, AfterSecond;
      hide MovedDisk, CanMove, Move, Renamed, Below, Coherent, CarveFault;
      hide NodeOnDisk, LookupName, Readable, DotSwapped, DotArgs, Unfit, CatalogOk, Geometry, Sized, TreeOnDisk;
      hide BitmapsOk;
      ghost var d, c, plain := View(), cat, MoveTry(cat, p, was, q, name, k);
      KeptItself(d, c.nodes.Keys);
      LiveReadable(k);
      ViewSb();
      CoreParts(d, c);
      CoreCountable(d, c);
      LinkRoom(d, c, q);
      var swapped := SwapEntries(p, pInode, was, q, qInode, name, k, fileType);
      if swapped.Err? {
        FullIntro(c, Place(p, was), k, Place(q, name), swapped.error, View());
        return Err(swapped.error);
      }
      if plain {
        SwappedParts(d, c, p, was, q, name, k, View());
        MoveDone(d, c, p, was, q, name, k);
        WritesAreMove(d, c, p, was, q, name, k);
      } else {
        SwappedSame(d, c, p, was, q, name, k, View());
        DotParts(c, p, was, q, name, k);
        DotSwappedUnfit(d, c, p, was, q, name, k, View());
      }
      if p != q && srcInode.IsDirectory() {
        var parented :- Reparent(p, pInode, was, q, qInode, name, k, srcInode, d, plain);
      }
      cat := if plain then Move(c, p, was, q, name, k) else c;
      var flushed :- FlushMetadata();
      if plain {
        MovedKept(d, c, p, was, q, name, k, c.nodes.Keys);
        RenamedIntro(c, p, was, q, name, k, View());
      }
      return Ok(Unit.Unit);
    }

    /** An existing file or symlink gives way: it is unlinked, then the entry moves. */
    method ReplaceEntry(ghost oldPath: seq<byte>, ghost newPath: seq<byte>, parent: seq<byte>, p: nat, pInode: Inode,
                        was: Name,
                        q: u32, name: Name, k: u32, srcInode: Inode, fileType: byte,
                          ghost gone: nat) returns (r: Result<Unit>)
      requires Valid() && Overwrites(cat.nodes, oldPath, newPath, parent, Place(p, was), k, Place(q, name), gone)
      requires 1 <= p <= |View().inodes| && 1 <= q <= |View().inodes| && 1 <= k <= |View().inodes|
      requires pInode == View().inodes[p - 1] && srcInode == View().inodes[k - 1] && k as nat in cat.nodes
      requires fileType == FileTypeOf(cat.nodes[k])
      modifies this
      ensures Valid()
      ensures Follows(old(View()), old(cat), Replace(Place(p, was), k, Place(q, name), gone), r, View(), cat)
    {
      hide InodesKept, ViewOf, Holds, Core, Acyclic, PlanOf, Directory, LookupName, Renamed, FileTypeOf, MoveTry;
      hide CanErase, Remove, Removed, Occupant, JoinPath, SlashFree, Below, Detachable;
      hide CatalogOk, Geometry, Sized, TreeOnDisk, BitmapsOk, Move, CanMove, CarveFault, Coherent, NodeOnDisk;
      ghost var d, c := View(), cat;
      ViewSb();
      CoreParts(d, c);
      ReplaceTry(superblock.blockSize, c, oldPath, newPath);
      JoinedOccupant(c.nodes, parent, name, Place(q, name), gone);
      var unlinked :- Unlink(JoinPath(parent, name));
      RemovedParts(c, JoinPath(parent, name), Place(q, name), gone, View(), cat);
      ghost var c1, size := cat, superblock.blockSize;
      ViewSb();
      CoreParts(View(), c1);
      ViewLength();
      var qInode :- ReadInode(q);
      var oldParent := if p == q then qInode else pInode;
      MoveTryParts(c1, p, was, q, name, k);
      ghost var d1 := View();
      r := MoveEntry(p, oldParent, was, q, qInode, name, k, srcInode, fileType);
      KeptTwice(d, d1, View(), c1.nodes.Keys);
      RenamedKeys(c1, Place(p, was), k, Place(q, name), r, View(), cat);
      RenamedAcyclic(size, c1, Place(p, was), k, Place(q, name), r, View(), cat);
    }

    method Rename(oldPath: seq<byte>, newPath: seq<byte>) returns (r: Result<Unit>)
      requires Valid()
      modifies this
      ensures Shape()
      ensures MovesDots(old(cat).nodes, oldPath, newPath) ==> r.Ok? && Unfit(View())
      ensures !MovesDots(old(cat).nodes, oldPath, newPath) ==>
        && Core(View(), cat) && Follows(old(View()), old(cat), PlanOf(old(cat).nodes, oldPath, newPath), r, View(), cat)
        && (Acyclic(cat.up) <==> !(r.Ok? && Knots(old(cat), PlanOf(old(cat).nodes, oldPath, newPath))))
      ensures var plan := PlanOf(old(cat).nodes, oldPath, newPath); plan.Keep? || (r.Err? && !plan.Replace?) ==>
        image == old(image) && superblock == old(superblock) && gdt == old(gdt)
    {
      hide InodesKept, ViewOf, Holds, Core, Acyclic, PlanOf, MovesDots, NamesDots, SplitPath, Directory, LookupName;
      hide Readable, Renamed, FileTypeOf, MoveTry, CanErase;
      hide Remove, NodeOnDisk, SlashFree, Ordinary, Below, CatalogOk, Move, CanMove, CarveFault, Coherent, Components;
      hide DotArgs, Unfit, SameSetup, WalkPath;
      ghost var d, c := View(), cat;
      KeptItself(d, c.nodes.Keys);
      PlanSteps(c.nodes, oldPath, newPath);
      DotsAreFresh(c.nodes, oldPath, newPath);
      SplitAgreesWithWalk(newPath);
      SplitAgreesWithWalk(oldPath);
      BaseFacts(d, c);
      ViewSb();
      var was :- SplitPath(oldPath);
      var dest :- SplitPath(newPath);
      var oldParent :- OpenDirectory(was.0);
      var (p, pInode) := oldParent;
      var name := dest.1;
      LiveReadable(p);
      var k :- Lookup(pInode, was.1, cat.nodes[p]);
      if k == ROOT {
        return Err(InvalidLayout);
      }
      Lands(p, was.1);
      LiveReadable(k);
      var srcInode :- ReadInode(k);
      var fileType :- TypeByte(srcInode, cat.nodes[k]);
      var newParent :- OpenDirectory(dest.0);
      var (q, qInode) := newParent;
      LiveReadable(q);
      var found := Lookup(qInode, name, cat.nodes[q]);
      if found.Ok? {
        if found.value == k {
          return Ok(Unit.Unit);
        }
        Lands(q, name);
        LiveReadable(found.value);
        var dstInode :- ReadInode(found.value);
        if dstInode.IsDirectory() {
          return Err(AlreadyExists(name));
        }
        if srcInode.IsDirectory() {
          return Err(AlreadyExists(name));
        }
        r := ReplaceEntry(oldPath, newPath, dest.0, p, pInode, was.1, q, name, k, srcInode, fileType, found.value);
      } else {
        ghost var dots := MovesDots(c.nodes, oldPath, newPath);
        if dots {
          DotPlan(superblock.blockSize, c, oldPath, newPath);
          DotNotTry(superblock.blockSize, c, p, was.1, q, name, k);
        } else {
          FreshTry(superblock.blockSize, c, oldPath, newPath);
        }
        r := MoveEntry(p, pInode, was.1, q, qInode, name, k, srcInode, fileType);
        if !dots {
          RenamedKeys(c, Place(p, was.1), k, Place(q, name), r, View(), cat);
          RenamedKnot(c, Place(p, was.1), k, Place(q, name), r, View(), cat);
        }
      }
    }

    /** The type byte of a new entry, from the inode and not from the old entry. */
    method TypeByte(inode: Inode, ghost node: Node) returns (r: Result<byte>)
      requires (inode.IsDirectory() <==> node.Dir?) && (inode.IsSymlink() <==> node.Link?)
      requires (inode.IsRegular() <==> node.File?)
      ensures r == Ok(FileTypeOf(node))
    {
      if inode.IsDirectory() {
        return Ok(2);
      } else if inode.IsSymlink() {
        return Ok(7);
      } else if inode.IsRegular() {
        return Ok(1);
      } else {
        return Err(UnsupportedV0);
      }
    }
  }
}
