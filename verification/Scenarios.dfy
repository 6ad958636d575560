/** Short sequences of operations and what they come to: undoing, repeating, reading back,
    reopening. */
module Scenarios {
  import opened Bytes
  import opened Results
  import opened DirEntries
  import opened DirBlocks
  import opened Listings
  import opened Paths
  import opened ExtentTrees
  import opened Inodes
  import opened Superblocks
  import opened Catalogs
  import opened Disks
  import opened DiskFacts
  import opened Images
  import opened Operations
  import opened Removals
  import opened Steps
  import opened Refinements
  import opened Mkfs
  import opened Filesystems
  import opened Runs

  /** Both bitmaps, every counter, and each directory's block and link count are as they were. */
  ghost predicate Restored(d: Disk, d': Disk, c: Catalog) {
    && d'.blockBits == d.blockBits && d'.inodeBits == d.inodeBits
    && d'.sb == d.sb && d'.gd == d.gd
    && forall k :: IsDir(c.nodes, k) ==> SameDir(d, d', c.nodes[k].block, k)
  }

  predicate SameDir(d: Disk, d': Disk, b: nat, k: nat) {
    && b < |d.data| && b < |d'.data| && d'.data[b] == d.data[b]
    && 1 <= k <= |d.inodes| && k <= |d'.inodes| && d'.inodes[k - 1].linksCount == d.inodes[k - 1].linksCount
  }

  lemma BackAgain(d: Disk, d': Disk, c: Catalog, sb0: Superblock, gd0: GroupDescriptor)
    requires Core(d, c) && Core(d', c) && SameSetup(sb0, gd0, d.sb, d.gd) && SameSetup(sb0, gd0, d'.sb, d'.gd)
    ensures Restored(d, d', c)
  {
    hide Core;
    SameCatalogSameDisk(d, d', c);
    SameFields(sb0, gd0, d.sb, d.gd, d'.sb, d'.gd);
    forall k | IsDir(c.nodes, k) ensures SameDir(d, d', c.nodes[k].block, k) {
      SameDirectory(d, d', c, k);
    }
  }

  lemma SameFields(sb0: Superblock, gd0: GroupDescriptor, sb: Superblock, gd: GroupDescriptor, sb': Superblock,
                   gd': GroupDescriptor)
    requires SameSetup(sb0, gd0, sb, gd) && SameSetup(sb0, gd0, sb', gd')
    requires sb'.freeBlocksCount == sb.freeBlocksCount && sb'.freeInodesCount == sb.freeInodesCount
    requires gd'.freeBlocksCount == gd.freeBlocksCount && gd'.freeInodesCount == gd.freeInodesCount
    requires gd'.usedDirsCount == gd.usedDirsCount
    ensures sb' == sb && gd' == gd
  {
  }

  lemma FileMade(d: Disk, c: Catalog, path: seq<byte>, data: seq<byte>, k: nat, d': Disk, c': Catalog)
    requires Core(d, c) && d.sb.blockSize > 0 && FileCreated(d, c, path, data, k, d', c')
    ensures k in c'.nodes && c'.nodes[k].File? && Created(d, c, path, k, c'.nodes[k], c')
    ensures CatalogOk(d.sb.blockSize, c)
    ensures UnlinkFault(c'.nodes, path) == None && Occupant(c'.nodes, path).Ok? && Occupant(c'.nodes, path).value.1 == k
    ensures forall d2, c2 :: Removed(c', path, d2, c2) ==> c2 == c
  {
    hide Core, CatalogOk, Created, Vacancy, Occupant, Removed, Coherent, FileBlocks, FirstFreeRun, CreateFault;
    BaseFacts(d, c);
    CreatedThenRemoved(d, c, path, k, c'.nodes[k], c');
  }

  /** Creating a file and unlinking it puts everything back. */
  method CreateThenUnlink(fs: Filesystem, path: seq<byte>, data: seq<byte>) returns (r: Result<nat>)
    requires fs.Valid() && fs.superblock.blockSize > 0 && DivCeil(|data|, fs.superblock.blockSize) < 0x1_0000_0000
    modifies fs
    ensures fs.Valid()
    ensures r.Err? <==>
      CreateFault(old(fs.View()), old(fs.cat), path, DivCeil(|data|, old(fs.superblock.blockSize))).Some?
    ensures r.Ok? ==> fs.cat == old(fs.cat) && Restored(old(fs.View()), fs.View(), fs.cat)
  {
    hide ViewOf, Holds, Core, Acyclic, SameSetup, CreateFails, FileCreated, UnlinkFault, Removed, Occupant, Vacancy;
    hide CreateFault, Restored, InodesKept;
    ghost var d, c := fs.View(), fs.cat;
    fs.ViewSb();
    FaultOrFile(d, c, path, data);
    r := fs.CreateFile(path, data);
    if r.Ok? {
      FileMade(d, c, path, data, r.value, fs.View(), fs.cat);
      var gone := fs.Unlink(path);
      fs.ViewSb();
      BackAgain(d, fs.View(), c, fs.firstSuperblock, fs.firstGdt[0]);
    }
  }

  lemma FaultOrFile(d: Disk, c: Catalog, path: seq<byte>, data: seq<byte>)
    requires d.sb.blockSize > 0
    ensures forall k, d', c' :: FileCreated(d, c, path, data, k, d', c') ==>
      CreateFault(d, c, path, DivCeil(|data|, d.sb.blockSize)) == None
    ensures forall e, c' :: CreateFails(d, c, path, DivCeil(|data|, d.sb.blockSize), e, c') ==>
      CreateFault(d, c, path, DivCeil(|data|, d.sb.blockSize)) == Some(e)
  {
    hide CreateFault, Created, FirstFreeRun, FileBlocks, Coherent, Leaked, CreateLeak;
  }

  lemma DirMade(d: Disk, c: Catalog, path: seq<byte>, k: nat, d': Disk, c': Catalog)
    requires Core(d, c) && 24 <= d.sb.blockSize < 0x1_0000 && d.sb.blockSize % 4 == 0
    requires DirCreated(d, c, path, k, d', c')
    ensures RmdirFault(c'.nodes, path) == None && !RemovesItself(c'.nodes, path)
    ensures forall d2, c2 :: Removed(c', path, d2, c2) ==> c2 == c
  {
    hide Core, CatalogOk, Created, Vacancy, Occupant, Removed, Coherent, FirstFreeRun, CreateFault, Ordinary;
    hide NewListing;
    BaseFacts(d, c);
    CreatedThenRemoved(d, c, path, k, c'.nodes[k], c');
    CreatedParts(d, c, path, k, c'.nodes[k], c');
    CreatedOrdinary(d, c, path, k, c'.nodes[k], c');
    NewListingSize(k, Vacancy(c.nodes, path).value.dir, d.sb.blockSize);
  }

  lemma CreatedOrdinary(d: Disk, c: Catalog, path: seq<byte>, k: nat, node: Node, c': Catalog)
    requires Created(d, c, path, k, node, c')
    ensures Vacancy(c.nodes, path).Ok? && k != ROOT && Ordinary(Vacancy(c.nodes, path).value.name)
    ensures node.Dir? ==> |node.entries| == 2
    ensures Vacancy(c.nodes, path).value.name != DOT
  {
    hide Vacancy, CanCarve, LookupName, FreshBlocks, Enter;
  }

  /** Making a directory and removing it puts everything back, the parent's link count too. */
  method MkdirThenRmdir(fs: Filesystem, path: seq<byte>) returns (r: Result<nat>)
    requires fs.Valid()
    modifies fs
    ensures fs.Valid()
    ensures r.Err? <==> CreateFault(old(fs.View()), old(fs.cat), path, 1).Some?
    ensures r.Ok? ==> fs.cat == old(fs.cat) && Restored(old(fs.View()), fs.View(), fs.cat)
  {
    hide ViewOf, Holds, Core, Acyclic, SameSetup, CreateFails, DirCreated, RmdirFault, RemovesItself, Removed, Occupant;
    hide Vacancy, CreateFault, Restored;
    hide InodesKept;
    ghost var d, c := fs.View(), fs.cat;
    fs.ViewSb();
    BaseFacts(d, c);
    FaultOrDir(d, c, path);
    r := fs.Mkdir(path);
    if r.Ok? {
      DirMade(d, c, path, r.value, fs.View(), fs.cat);
      var gone := fs.Rmdir(path);
      fs.ViewSb();
      BackAgain(d, fs.View(), c, fs.firstSuperblock, fs.firstGdt[0]);
    }
  }

  /** Creating the same file again after unlinking it takes the same inode and the same
      blocks: the catalog is the one the first creation left. */
  method CreateAgain(fs: Filesystem, path: seq<byte>, data: seq<byte>) returns (first: Result<nat>, second: Result<nat>)
    requires fs.Valid() && fs.superblock.blockSize > 0 && DivCeil(|data|, fs.superblock.blockSize) < 0x1_0000_0000
    modifies fs
    ensures fs.Valid()
    ensures first.Ok? ==>
      second == first && FileCreated(old(fs.View()), old(fs.cat), path, data, first.value, fs.View(), fs.cat)
  {
    hide ViewOf, Holds, Core, Acyclic, SameSetup, CreateFails, FileCreated, UnlinkFault, Removed, Occupant, Vacancy;
    hide CreateFault, Restored, InodesKept;
    ghost var d, c := fs.View(), fs.cat;
    fs.ViewSb();
    first := fs.CreateFile(path, data);
    second := first;
    if first.Ok? {
      FileMade(d, c, path, data, first.value, fs.View(), fs.cat);
      ghost var d1, c1 := fs.View(), fs.cat;
      var gone := fs.Unlink(path);
      fs.ViewSb();
      BackAgain(d, fs.View(), c, fs.firstSuperblock, fs.firstGdt[0]);
      ghost var d2 := fs.View();
      RestoredSb(d, d2, c);
      second := fs.CreateFile(path, data);
      NeverRefused(d, d2, c, path, data, first.value, d1, c1);
      FileAgain(d, d2, c, path, data);
    }
  }

  lemma RestoredSb(d: Disk, d': Disk, c: Catalog)
    requires Restored(d, d', c)
    ensures d'.sb == d.sb && d'.blockBits == d.blockBits && d'.inodeBits == d.inodeBits
  {
  }

  lemma SameFault(a: Disk, b: Disk, c: Catalog, path: seq<byte>, count: nat)
    requires b.sb == a.sb && b.blockBits == a.blockBits && b.inodeBits == a.inodeBits
    ensures CreateFault(b, c, path, count) == CreateFault(a, c, path, count)
  {
    SameRuns(a, b, count);
    hide Vacancy, NoFreeRun, CarveFault;
  }

  lemma NeverRefused(a: Disk, b: Disk, c: Catalog, path: seq<byte>, data: seq<byte>, k: nat, a': Disk, c1: Catalog)
    requires a.sb.blockSize > 0 && FileCreated(a, c, path, data, k, a', c1)
    requires b.sb == a.sb && b.blockBits == a.blockBits && b.inodeBits == a.inodeBits
    ensures forall e, c' :: !CreateFails(b, c, path, DivCeil(|data|, b.sb.blockSize), e, c')
  {
    SameFault(a, b, c, path, DivCeil(|data|, a.sb.blockSize));
    FaultOrFile(a, c, path, data);
    FaultOrFile(b, c, path, data);
    hide FileCreated, CreateFails, CreateFault;
  }

  /** First fit on the same bits: what one creation comes to is what the other does. */
  lemma FileAgain(a: Disk, b: Disk, c: Catalog, path: seq<byte>, data: seq<byte>)
    requires a.sb.blockSize > 0 && b.sb == a.sb && b.blockBits == a.blockBits && b.inodeBits == a.inodeBits
    ensures forall k, j, a', b', c1, c2 ::
      FileCreated(a, c, path, data, k, a', c1) && FileCreated(b, c, path, data, j, b', c2) ==>
      j == k && FileCreated(a, c, path, data, k, b', c2)
  {
    forall k, j, a', b', c1, c2 | FileCreated(a, c, path, data, k, a', c1) && FileCreated(b, c, path, data, j, b', c2)
      ensures j == k && FileCreated(a, c, path, data, k, b', c2)
    {
      OneFileAgain(a, b, c, path, data, k, j, a', b', c1, c2);
    }
    hide FileCreated;
  }

  lemma OneFileAgain(a: Disk, b: Disk, c: Catalog, path: seq<byte>, data: seq<byte>, k: nat, j: nat, a': Disk,
                     b': Disk, c1: Catalog, c2: Catalog)
    requires a.sb.blockSize > 0 && b.sb == a.sb && b.blockBits == a.blockBits && b.inodeBits == a.inodeBits
    requires FileCreated(a, c, path, data, k, a', c1) && FileCreated(b, c, path, data, j, b', c2)
    ensures j == k && FileCreated(a, c, path, data, k, b', c2)
  {
    var count := DivCeil(|data|, a.sb.blockSize);
    SameFault(a, b, c, path, count);
    SameRuns(a, b, count);
    hide CreateFault, FirstFreeRun, FileBlocks, Vacancy, CanCarve, Enterable, Enter, Coherent, FirstFreeInode;
    FirstFitRepeats(a, b, k, j, c1.nodes[k].start, c2.nodes[j].start, count);
    FirstInodeSame(a, b, j);
  }

  lemma FirstInodeSame(a: Disk, b: Disk, k: nat)
    requires b.sb == a.sb && b.inodeBits == a.inodeBits
    ensures FirstFreeInode(a, k) <==> FirstFreeInode(b, k)
  {
  }

  lemma FaultOrDir(d: Disk, c: Catalog, path: seq<byte>)
    requires 24 <= d.sb.blockSize < 0x1_0000 && d.sb.blockSize % 4 == 0
    ensures forall k, d', c' :: DirCreated(d, c, path, k, d', c') ==> CreateFault(d, c, path, 1) == None
    ensures forall e, c' :: CreateFails(d, c, path, 1, e, c') ==> CreateFault(d, c, path, 1) == Some(e)
  {
    hide CreateFault, Created, FirstFreeRun, Coherent, Leaked, CreateLeak, NewListing, Vacancy;
  }

  /** Making the same directory again takes the same inode and the same block. */
  method MkdirAgain(fs: Filesystem, path: seq<byte>) returns (first: Result<nat>, second: Result<nat>)
    requires fs.Valid()
    modifies fs
    ensures fs.Valid() && 24 <= old(fs.View()).sb.blockSize < 0x1_0000 && old(fs.View()).sb.blockSize % 4 == 0
    ensures first.Ok? ==>
      second == first && DirCreated(old(fs.View()), old(fs.cat), path, first.value, fs.View(), fs.cat)
  {
    hide ViewOf, Holds, Core, Acyclic, SameSetup, CreateFails, DirCreated, RmdirFault, RemovesItself, Removed, Occupant;
    hide Vacancy, CreateFault, Restored;
    hide InodesKept;
    ghost var d, c := fs.View(), fs.cat;
    fs.ViewSb();
    BaseFacts(d, c);
    FaultOrDir(d, c, path);
    first := fs.Mkdir(path);
    second := first;
    if first.Ok? {
      DirMade(d, c, path, first.value, fs.View(), fs.cat);
      ghost var d1, c1 := fs.View(), fs.cat;
      var gone := fs.Rmdir(path);
      fs.ViewSb();
      BackAgain(d, fs.View(), c, fs.firstSuperblock, fs.firstGdt[0]);
      ghost var d2 := fs.View();
      RestoredSb(d, d2, c);
      SameFault(d, d2, c, path, 1);
      FaultOrDir(d2, c, path);
      second := fs.Mkdir(path);
      OneDirAgain(d, d2, c, path, first.value, second.value, d1, fs.View(), c1, fs.cat);
    }
  }

  lemma OneDirAgain(a: Disk, b: Disk, c: Catalog, path: seq<byte>, k: nat, j: nat, a': Disk, b': Disk, c1: Catalog,
                    c2: Catalog)
    requires 24 <= a.sb.blockSize < 0x1_0000 && a.sb.blockSize % 4 == 0
    requires b.sb == a.sb && b.blockBits == a.blockBits && b.inodeBits == a.inodeBits
    requires DirCreated(a, c, path, k, a', c1) && DirCreated(b, c, path, j, b', c2)
    ensures j == k && DirCreated(a, c, path, k, b', c2)
  {
    SameFault(a, b, c, path, 1);
    SameRuns(a, b, 1);
    hide CreateFault, FirstFreeRun, Vacancy, CanCarve, Enterable, Enter, Coherent, FirstFreeInode, NewListing;
    FirstFitRepeats(a, b, k, j, c1.nodes[k].block, c2.nodes[j].block, 1);
    FirstInodeSame(a, b, j);
  }

  /** What create_file stored, open_path and read_file give back. */
  method WriteThenRead(fs: Filesystem, path: seq<byte>, data: seq<byte>) returns (r: Result<seq<byte>>)
    requires fs.Valid() && fs.superblock.blockSize > 0 && DivCeil(|data|, fs.superblock.blockSize) < 0x1_0000_0000
    modifies fs
    ensures fs.Valid()
    ensures r == match CreateFault(old(fs.View()), old(fs.cat), path, DivCeil(|data|, old(fs.superblock.blockSize)))
                 case Some(e) => Err(e) case None => Ok(data)
  {
    hide ViewOf, Holds, Core, Acyclic, SameSetup, CreateFails, FileCreated, UnlinkFault, Removed, Occupant, Vacancy;
    hide CreateFault, HasContent, Content, WalkPath, Components, NodeOnDisk;
    ghost var d, c := fs.View(), fs.cat;
    fs.ViewSb();
    FaultOrFile(d, c, path, data);
    var made := fs.CreateFile(path, data);
    if made.Err? {
      return Err(made.error);
    }
    FileMade(d, c, path, data, made.value, fs.View(), fs.cat);
    BaseFacts(fs.View(), fs.cat);
    FoundByWalk(fs.View().sb.blockSize, fs.cat, path);
    CreatedReads(d, c, path, data, made.value, fs.View(), fs.cat);
    var k :- fs.OpenPath(path);
    fs.LiveReadable(k);
    var inode :- fs.ReadInode(k);
    r := fs.ReadFile(inode, fs.cat.nodes[k]);
  }

  lemma FoundByWalk(size: nat, c: Catalog, path: seq<byte>)
    requires CatalogOk(size, c) && Occupant(c.nodes, path).Ok?
    ensures WalkPath(c.nodes, Components(path), ROOT) == Ok(Occupant(c.nodes, path).value.1)
  {
    hide Components, WalkPath, LookupName, TreeOk, OwnOk, LostOk, Directory, SplitPath;
    assert SplitPath(path).Ok?;
    OccupantIsWalk(size, c.nodes, c.up, path);
  }

  /** Opening the bytes a coherent filesystem has written finds the same filesystem. */
  method Reopen(fs: Filesystem) returns (r: Result<Filesystem>)
    requires fs.Valid() && Coherent(fs.View())
    ensures r.Ok? && fresh(r.value) && r.value.Valid() && r.value.View() == fs.View() && r.value.cat == fs.cat
    ensures r.value.image == fs.image && r.value.superblock == fs.superblock && r.value.gdt == fs.gdt
  {
    hide ViewOf, Holds, Core, Acyclic, SameSetup, Coherent, Opened;
    ReopenSame(fs.image, fs.superblock, fs.gdt[0]);
    assert fs.gdt == [fs.gdt[0]];
    SetupItself(fs.superblock, fs.gdt[0]);
    r := Filesystem.Open(fs.image, fs.cat);
  }

  /** A new image opens, and its root lists exactly the two dots, both inode 2. */
  method ListNewRoot(config: Config) returns (r: Result<seq<DirEntry>>)
    requires LayoutFault(config).None? ==> OneGroup(config)
    ensures r.Ok? <==> LayoutFault(config).None?
    ensures r.Ok? ==>
      && 12 <= config.blockSize < 0x1_0000
      && r.value == [DirEntry(2, 12, 2, [46]), DirEntry(2, config.blockSize - 12, 2, [46, 46])]
  {
    hide ViewOf, Holds, Core, Acyclic, SameSetup, Coherent, NodeOnDisk;
    var fs :- Mount(config);
    fs.LiveReadable(ROOT);
    fs.ViewSb();
    var inode :- fs.ReadInode(ROOT);
    r := fs.ReadDir(inode, fs.cat.nodes[ROOT]);
  }
}
