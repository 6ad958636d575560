# The single-group ext4 write engine, verified

A Dafny model of the write engine in `ext4/src/filesystem.rs`, of `format` in
`ext4/src/mkfs.rs`, and of the record codecs in `spec/src/` that they edit in
place. The repository's own promise is that `e2fsck -nf` finds nothing after any
sequence of operations. Here that promise is an invariant. It is proved for every run
from a formatted image whose operations pass a test on their arguments, and for single
operations from any state it is proved exactly when it fails.

`dafny verify dfyconfig.toml` checks the whole project.

## How it is built

| layer | modules | what it says |
|---|---|---|
| bytes | `Bytes`, `Bitmap`, `DirEntries`, `DirBlocks`, `Extents`, `Inodes`, `Superblocks` | methods edit arrays in place and equal functions on bytes; codecs round-trip |
| lists and trees | `Listings`, `ExtentTrees`, `Paths` | a directory block as a list of names, an extent tree as a flat map, a path as its components |
| the catalog | `Catalogs`, `Moves`, `Operations`, `Walks` | the tree of live inodes, each with its content, its place (`up`), and the owner of every block (`own`) |
| the disk | `Disks`, `DiskSteps`, `DiskMoves`, `DiskFacts`, `Images` | `Core(d, c)`: bitmaps, counters, inode table and data blocks hold exactly catalog `c`; `ViewOf` reads a disk off the bytes of the image |
| the engine | `Steps`, `Removals`, `Truncations`, `Renames`, `Dots`, `Filesystems`, `Mkfs` | class `Filesystem` with the source's fields; every public operation as a method with the source's order of reads, writes and checks |
| results | `Refinements`, `Relocations`, `Accounts`, `Cycles`, `Runs`, `Histories`, `Scenarios`, `Sightings`, `Witnesses` | whole runs, what a caller reads afterwards, paths, frames, undo, determinism, reopening, and the failures at inputs a new image meets |
| cross-checks | `Formats`, `Layouts`, `Outcomes` | the same things told a second time, from bytes, record fields and path strings with every constant written out, and proved equal; no operation uses these definitions |

`Filesystem` has the source's three fields, `image` standing for the bytes behind
the reader, and a ghost catalog. `Valid()` is the invariant: `Core` plus `Acyclic`.
It holds after every operation, failed ones included, but for three successes that
break it; `Runs.Apply` says exactly which. What a failed creation allocated and never
entered is recorded in `lostInodes` and `lostBlocks`. `NoLeaks` and `Coherent` (the
image decodes to the cached metadata) are the stronger claims; a run keeps both exactly
as long as no creation in it fails after taking an inode. Two ghost constants record the metadata as
opened: nothing but counters ever changes in the cache.

## What the proofs found

- Renaming over a file unlinks the destination first. If its record is not the last
  one and does not fit the last record's slack, the rename then fails and the
  destination is gone (`Refinements.OverwriteLoses`). Eight files in a new root are
  enough (`Witnesses.OverwriteLosesFile`).
- Renaming a directory into its own subtree succeeds and ties a cycle, in exactly
  that case (`Catalogs.MoveAcyclic`); on path strings, exactly when the old path's
  components are a prefix of the new parent's (`Refinements.KnotsIffPrefix`). No other
  reading of the disk is a tree either (`Cycles.CyclicTreeless`).
- Renaming a directory by its own `.` or `..` succeeds and moves that record out of its
  listing; no tree describes the result (`Dots.BrokenUnfit`, in the contract of `Rename`).
- `rmdir` of an empty directory named by its own `.` succeeds and writes the stale
  parent record over the freed one (`Removals.RmdirSelf`).
- A creation that fails after its checks leaks exactly the inode, or the inode and the
  run, that it had allocated (`Steps.CreateFault` and `Steps.CreateLeak` in the
  contracts of `CreateFile`, `Mkdir` and `Symlink`), and nothing is flushed.
- The documentation of `truncate` says a grown tail reads as zeros. The code clears
  nothing: shrinking then growing brings old bytes back (`Truncations.ShrinkThenGrow`),
  and a file made with `data` and truncated any number of times grows with zeros exactly
  when `data` is zero between the two sizes (`Histories.GrowAfterRun`). The model follows
  the code.
- An uninitialised extent of length 0 or 32768 does not survive its codec
  (`Extents.ExtentRoundTrip`).
- `format` at 1024 bytes a block writes the descriptor over the superblock. Of all
  configurations it accepts, those and the ones with a free count above 65535 are the ones
  whose headers do not decode back (`Mkfs.HeadersSurvive`).

## Model

| member | source | states |
|---|---|---|
| Runs.RunAll | ext4/src/filesystem.rs:826-1679 | any list of operations whose arguments pass `Fitting`, each succeeding or failing, leaves a sound filesystem after every step; each step is what `Does` says of it |
| Runs.SoundUntil | ext4/src/filesystem.rs:727-1778 | operations applied one after another, fitting or not, stay sound exactly as long as none is one of the three exceptions, and what they do until then is a run |
| Runs.Apply | ext4/src/filesystem.rs:727-1778 | any operation from any sound state: the invariant holds afterwards if and only if the operation is not an rmdir of a directory's own `.`, a rename of a directory by its dots, or a successful rename into its own subtree; when it fails, the operation reports success and no catalog that fits the disk is a tree; when it holds, the exact outcome, error or success, with counters the only metadata and link counts the only fields of other live inodes to change |
| Runs.FormatAndRun | ext4/src/mkfs.rs:162-386 | the same for every run that starts from a freshly formatted and opened image, which starts tidy |
| Runs.FittingSafe | ext4/src/filesystem.rs:727-1679 | for every operation the exclusions follow from tests on its argument strings alone |
| Runs.FittingRename | ext4/src/filesystem.rs:1520-1679 | two path strings without dots, the old one not a prefix of the new parent, are enough for rename to keep the tree; no state needs to be inspected |
| Runs.FittingRmdir | ext4/src/filesystem.rs:727-811 | a path whose last component is not `.` never makes rmdir take a directory out of its own listing |
| Runs.TidyRun | ext4/src/filesystem.rs:421-440 | a run stays leak-free and coherent, the image decoding to exactly the cached superblock and descriptor after every operation, if and only if no creation in it fails after taking an inode |
| Runs.TidyStep | ext4/src/filesystem.rs:421-440 | the single-step form, both ways, for each of the ten operations: other failures, a full directory and a failed overwrite among them, leak nothing and leave the image coherent |
| Runs.SparedRun | ext4/src/filesystem.rs:826-1679 | a file's bytes and a symlink's target are unchanged by every run that does not unlink, truncate or overwrite that inode |
| Runs.SparedStep | ext4/src/filesystem.rs:826-1679 | the single-step form, on success and on failure |
| Histories.ShortenedRun | ext4/src/filesystem.rs:1262-1418 | however often a run truncates a file, it keeps its place and a prefix of the blocks it had |
| Histories.ReadsAfterRun | ext4/src/filesystem.rs:1011-1418 | after create_file(data) and any run that does not remove it, the file reads as the first bytes of data followed by zeros, up to its size |
| Histories.GrowAfterRun | ext4/src/filesystem.rs:1262-1418 | then growing from one size to another appends zeros if and only if the bytes of data between the two sizes are zero: a test on the argument of create_file |
| Histories.CreateStores | ext4/src/filesystem.rs:1011-1106 | create_file leaves the file as the two rows above ask |
| Cycles.CyclicTreeless | ext4/src/filesystem.rs:1520-1679 | if one catalog that fits a disk has a cycle, every one has: the directory count leaves no room for another tree |
| Runs.Mount | ext4/src/mkfs.rs:162-386 | format then open: a sound, coherent, leak-free filesystem whose tree is one empty root |
| Scenarios.CreateThenUnlink | ext4/src/filesystem.rs:826-1106 | creating a file and unlinking it restores both bitmaps, every counter, every directory's block and every link count; it errs exactly when the creation faults |
| Scenarios.MkdirThenRmdir | ext4/src/filesystem.rs:727-1002 | the same for a directory, the parent's link count and the directory count included; it errs exactly when the creation faults |
| Scenarios.CreateAgain | ext4/src/filesystem.rs:1011-1106 | the same creation after an unlink takes the same inode and the same blocks |
| Scenarios.MkdirAgain | ext4/src/filesystem.rs:899-1002 | the same directory made again takes the same inode and block |
| Scenarios.WriteThenRead | ext4/src/filesystem.rs:248-1106 | create_file, open_path, read_inode and read_file give back exactly the bytes stored, or the creation's fault |
| Scenarios.Reopen | ext4/src/filesystem.rs:39-83 | opening the bytes of a coherent filesystem gives the same view, cache and tree |
| Scenarios.ListNewRoot | ext4/src/mkfs.rs:162-386 | a new image opens and its root lists exactly `.` and `..`, both inode 2 |
| Witnesses.RenameIntoItself | ext4/src/filesystem.rs:1520-1679 | on a new image, mkdir /a and rename /a to /a/b succeed, and no catalog that fits the disk is a tree |
| Witnesses.RenameItsDot | ext4/src/filesystem.rs:1520-1679 | mkdir /a and rename /a/. to /b succeed, and no catalog fits the disk |
| Witnesses.RemoveItsDot | ext4/src/filesystem.rs:727-811 | mkdir /a and rmdir /a/. succeed, and no catalog fits the disk |
| Witnesses.OverwriteLosesFile | ext4/src/filesystem.rs:1600-1650 | on a new image of 2048-byte blocks, eight empty files whose records fill the root's block; renaming the last over the first fails, and the first is no longer found |
| Refinements.CreatedPaths | ext4/src/filesystem.rs:899-1222 | after any creation the new inode answers to the given path and no other; every other inode keeps all its paths |
| Refinements.CreatedFrame | ext4/src/filesystem.rs:899-1222 | every other file keeps its bytes, every other directory its listing; the parent gains exactly one name |
| Refinements.RemovedPaths | ext4/src/filesystem.rs:727-882 | a removed inode answers to no path; every other inode keeps all its paths |
| Refinements.RemovedFrame | ext4/src/filesystem.rs:727-882 | every other file and listing is unchanged; the parent loses exactly one name |
| Relocations.RenamedSubtree | ext4/src/filesystem.rs:1520-1679 | a successful rename, to a fresh name or over a file, carries the subtree: what any dot-free path reached below the old place is reached below the new one by the same names |
| Relocations.RenamedElsewhere | ext4/src/filesystem.rs:1520-1679 | an inode outside the subtree keeps exactly its paths, and the one that gave way has none |
| Relocations.OverwrittenPaths | ext4/src/filesystem.rs:1600-1655 | after an overwrite the source answers to the new path and no other, the overwritten inode to none, every other inode to exactly the paths it had |
| Relocations.RenamedPaths | ext4/src/filesystem.rs:1520-1679 | the same on the two path strings, when they have no dots |
| Relocations.RenamedFrame | ext4/src/filesystem.rs:1637-1674 | fresh name or overwrite: every file keeps its bytes and every listing its names, but for the one name gone, the one name that now stands for the source, and the `..` of a directory that changed parents |
| Refinements.KnotsIffPrefix | ext4/src/filesystem.rs:1520-1679 | rename would tie a cycle exactly when the old path's components are a prefix of the new parent's |
| Refinements.OverwriteLoses | ext4/src/filesystem.rs:1587-1650 | rename over a file fails exactly when the erased name is not the last record and its record does not fit the last record's slack, and then the destination is gone |
| Refinements.CreatedThenRemoved | ext4/src/filesystem.rs:727-1106 | what a creation entered is found again at the same path, and any removal of it gives back the whole catalog, record lengths included |
| Refinements.SameCatalogSameDisk | ext4/src/filesystem.rs:449-644 | the catalog determines both bitmaps and all counters |
| Refinements.SameDirectory | ext4/src/filesystem.rs:521-714 | the catalog determines every directory's bytes and link count |
| Refinements.FirstFitRepeats | ext4/src/filesystem.rs:449-515 | the inode and the run of blocks allocated depend on the bits alone |
| Refinements.CounterTellsInodes | ext4/src/filesystem.rs:449-473 | an inode is free exactly when the cached counter is not zero |
| Refinements.CounterTellsBlocks | ext4/src/filesystem.rs:482-515 | a single block is free exactly when the cached counter is not zero |
| Accounts.BlockBitMeans | ext4/src/filesystem.rs:482-620 | without leaks a block's bit is set exactly when it is metadata or in a live inode, and in one inode only |
| Accounts.InodeBitMeans | ext4/src/filesystem.rs:449-644 | without leaks an inode's bit is set exactly when it is reserved or live |
| Accounts.BlocksConserved | ext4/src/filesystem.rs:482-620 | metadata + free + owned + leaked = all blocks, with the cached counters as the free count |
| Accounts.InodesConserved | ext4/src/filesystem.rs:449-644 | reserved + free + live + leaked = all inodes |
| Sightings.AllTruthful | ext4/src/filesystem.rs:1540-1568 | in every sound state, every record of every live directory, the dots too, has type byte 1, 2 or 7 exactly as the mode of the inode it names is of a regular file, a directory or a symlink |
| Sightings.MadeShown | ext4/src/filesystem.rs:899-1222 | after create_file, mkdir or symlink the path leads to an inode of mode 0o100644, 0o040755 or 0o120777, listed once with type byte 1, 2 or 7 |
| Sightings.RenamedShown | ext4/src/filesystem.rs:1520-1679 | after every successful rename that leaves disk and catalog in agreement, also one that ties a cycle, the directory the new path led to lists, under the new name, the inode the old path led to, with the type byte of its mode |
| Sightings.ListAround | ext4/src/filesystem.rs:312-365 | reading the directory of a path by split_path, open_path and read_dir; every record it returns is truthful |
| Sightings.MakeThenList | ext4/src/filesystem.rs:899-1222 | a creation and then that read: the new name is there once, with type byte and mode by value |
| Sightings.RenameThenList | ext4/src/filesystem.rs:1520-1679 | a rename and then that read: the new name is there once, with the type byte the old inode's mode asks for |
| Sightings.MkdirThenList | ext4/src/filesystem.rs:968-985 | a new directory reads as exactly `.` of twelve bytes and `..` over the rest of the block |
| Sightings.SymlinkThenRead | ext4/src/filesystem.rs:1149-1222 | a new symlink reads as its target, byte for byte |
| Sightings.CreateResizeRead | ext4/src/filesystem.rs:1011-1418 | create_file(data), truncate(n), read_file: up to ceil(|data| / block) blocks the file reads as data cut or padded with zeros to n, past that truncate is unsupported and it reads as data |
| Sightings.FirstFile | ext4/src/filesystem.rs:1011-1418 | from format on: the first file of a new image with room is created, is inode 11, and resizes and reads so |
| Outcomes.ComponentsSpelled | ext4/src/filesystem.rs:367-380 | the components of a path are its pieces between bytes 47, the empty ones left out, and nothing else |
| Outcomes.SplitMeans | ext4/src/filesystem.rs:338-365 | a path not starting with byte 47 or without a piece is an invalid layout; any other splits into what leads to its last piece, and that piece |
| Outcomes.WalkMeans | ext4/src/filesystem.rs:367-380 | open_path returns an inode exactly when records of these names lead there from inode 2 |
| Outcomes.WalkFails | ext4/src/filesystem.rs:367-380 | and an error exactly when they lead to an inode that is no directory, or to one without the next name |
| Outcomes.OccupantMeans | ext4/src/filesystem.rs:338-365 | split_path, open_path and lookup: found exactly when a record of that name is in the directory the path leads to, and each error exactly when it is due |
| Outcomes.RoomMeans | ext4/src/filesystem.rs:562-586 | a record is refused, and with which error, by the length of the name and of the last record alone, in bytes |
| Outcomes.CreateMeans | ext4/src/filesystem.rs:899-1222 | a creation is accepted, or refused with a given error, exactly as path, listing, bits and lengths say, in the order of the checks |
| Outcomes.UnlinkMeans | ext4/src/filesystem.rs:826-848 | likewise unlink |
| Outcomes.RmdirMeans | ext4/src/filesystem.rs:727-771 | likewise rmdir |
| Outcomes.TruncateMeans | ext4/src/filesystem.rs:1262-1311 | likewise truncate: of the sizes of a file, exactly those within its last block or below are accepted |
| Outcomes.RenameMeans | ext4/src/filesystem.rs:1520-1635 | likewise rename: refused and why, kept, moved, or replaced |
| Outcomes.LayoutMeans | ext4/src/mkfs.rs:116-152 | format accepts four block sizes, at least eleven inodes, and images with room for five blocks and the inode table |
| Filesystems.Filesystem.CreateFile | ext4/src/filesystem.rs:1011-1106 | soundness kept; on error the exact fault and the exact leak, the tree unchanged, and the image untouched when nothing leaks; on success one new file in the first free inode and the first run that fits, holding the data, with every field of its record given by value (mode 0o100644, one link, owner and times zero) and the metadata flushed; other live inodes keep their records |
| Filesystems.Filesystem.Mkdir | ext4/src/filesystem.rs:899-1002 | likewise: the two records `.` and `..` spelled out, a record of mode 0o040755 with every field given, parent link and directory count raised |
| Filesystems.Filesystem.Symlink | ext4/src/filesystem.rs:1149-1222 | likewise, with mode 0o120777; targets of no byte or more than 60 are refused before anything is read |
| Filesystems.Filesystem.Unlink | ext4/src/filesystem.rs:826-882 | result determined by the lookup alone, so it never fails after its first write; an error changes nothing; success removes exactly that inode and entry, and leaves its record with no link, no size, no mapping and a deletion time |
| Filesystems.Filesystem.Rmdir | ext4/src/filesystem.rs:727-811 | likewise for an empty directory; taking a directory's own `.` succeeds in the code and leaves a disk that no tree describes |
| Filesystems.Filesystem.Truncate | ext4/src/filesystem.rs:1262-1418 | a file may be given any size up to ceil(size / block) blocks, a larger one is unsupported, anything else is not a regular file; an error changes nothing; success cuts the file to its first ceil(size / block) blocks, frees exactly the rest, changes of its record only size, mapping and the two times it sets, and changes no other file |
| Filesystems.Filesystem.Rename | ext4/src/filesystem.rs:1520-1679 | from any valid state: moving a directory by its own `.` or `..` succeeds and leaves a disk no catalog fits; otherwise disk and catalog agree, the outcome is the plan's, other inodes keep their records, a failure that is not an overwrite changes nothing, and the tree stays acyclic exactly when it was not a directory moved into its own subtree |
| Filesystems.Filesystem.Chmod | ext4/src/filesystem.rs:1734-1745 | one inode's mode and ctime change, its type nibble kept, nothing else on disk |
| Filesystems.Filesystem.Chown | ext4/src/filesystem.rs:1753-1761 | one inode's uid, gid and ctime change, nothing else |
| Filesystems.Filesystem.Utime | ext4/src/filesystem.rs:1770-1778 | one inode's times change, nothing else |
| Filesystems.Filesystem.WithInodeMut | ext4/src/filesystem.rs:1702-1716 | any change of fields that keeps type, links, size and mapping keeps the invariant |
| Filesystems.Filesystem.OpenPath | ext4/src/filesystem.rs:367-380 | agrees with the walk through the catalog's listings, error for error, and only finds live inodes |
| Filesystems.Filesystem.ReadFile | ext4/src/filesystem.rs:248-294 | the content of the node an inode stands for: file bytes up to the size, link target, or directory block |
| Filesystems.Filesystem.ReadDir | ext4/src/filesystem.rs:312-315 | exactly the entries of the directory |
| Filesystems.Filesystem.Lookup | ext4/src/filesystem.rs:320-333 | the inode bound to the name, or not-found exactly when the listing lacks it |
| Filesystems.Filesystem.ResolveLogicalBlock | ext4/src/filesystem.rs:149-216 | the bounded descent from the inode's root node; what it comes to on a tree given byte by byte, `Formats.WrittenTreeResolves` says |
| Filesystems.Filesystem.Open | ext4/src/filesystem.rs:39-83 | the cache is what the image decodes to, or the error; which bytes those are, `Mkfs.OpensAsWritten` says |
| Filesystems.Filesystem.LoadDescriptors | ext4/src/filesystem.rs:69-76 | the loop over table entries, failing at the first that does not decode |
| Filesystems.Filesystem.AllocateInode | ext4/src/filesystem.rs:449-473 | the lowest clear bit, or an error exactly when there is none; bitmap and both counters change together |
| Filesystems.Filesystem.AllocateBlocksContiguous | ext4/src/filesystem.rs:482-515 | the lowest run, or an error exactly when there is none, and then nothing is written |
| Filesystems.Filesystem.FreeBlocks | ext4/src/filesystem.rs:595-620 | exactly the run's bits cleared, both counters raised by its length |
| Filesystems.Filesystem.FreeInode | ext4/src/filesystem.rs:624-644 | exactly one bit cleared, both counters raised |
| Filesystems.Filesystem.FlushMetadata | ext4/src/filesystem.rs:421-440 | nothing but the stored metadata changes; the superblock decodes to the cache exactly when its free count fits 32 bits, the descriptor exactly when its three counts fit 16 |
| Filesystems.Filesystem.ReadInode | ext4/src/filesystem.rs:100-131 | the record of any inode number in range, an error for any other |
| Filesystems.Filesystem.WriteInode | ext4/src/filesystem.rs:392-416 | one record replaced and no other, whatever the field values |
| Filesystems.Filesystem.AddDirEntry | ext4/src/filesystem.rs:521-589 | the directory's block becomes the list with the new record, or the exact fault with nothing written |
| Filesystems.Filesystem.RemoveDirEntry | ext4/src/filesystem.rs:657-714 | the block becomes the list without that record |
| Filesystems.Filesystem.UpdateDotDot | ext4/src/filesystem.rs:1431-1472 | only the inode number of `..` changes |
| Filesystems.Filesystem.FreeExtents | ext4/src/filesystem.rs:772-783 | the loop frees every initialised extent and nothing else |
| Filesystems.Filesystem.CutExtents | ext4/src/filesystem.rs:1354-1387 | the loop keeps the extents below the cut and frees the others, counting as it goes |
| Filesystems.Filesystem.SwapEntries | ext4/src/filesystem.rs:1637-1655 | new entry added, then old removed, in one directory or two; a full destination stops it with nothing written |
| Filesystems.Filesystem.Reparent | ext4/src/filesystem.rs:1662-1674 | `..` follows the moved directory and one link moves from parent to parent |
| Filesystems.Filesystem.ReplaceEntry | ext4/src/filesystem.rs:1610-1655 | overwriting: the destination is unlinked by the joined path, then the move starts from what is left |
| Disks.TakeInodeCore | ext4/src/filesystem.rs:449-473 | taking a free inode keeps every bitmap and counter claim, the inode counted as leaked until entered; the counter cannot have been zero |
| Disks.GiveInodeCore | ext4/src/filesystem.rs:624-644 | giving one back keeps them; the counters cannot overflow |
| Disks.TakeBlocksCore | ext4/src/filesystem.rs:482-515 | a free run belongs to nobody and lies past the metadata; taking it keeps all claims and no counter clamps |
| Disks.GiveBlocksCore | ext4/src/filesystem.rs:595-620 | giving a leaked run back keeps them |
| DiskFacts.CoreCountable | ext4/src/filesystem.rs:421-440 | every counter is below 65536 in every sound state, so the 32-byte descriptor loses nothing |
| DiskSteps.AttachCore | ext4/src/filesystem.rs:521-589 | entering a prepared inode keeps disk and catalog in agreement: listings, links, counts, ownership |
| DiskSteps.DetachCore | ext4/src/filesystem.rs:657-714 | removing an entry keeps them in agreement |
| DiskSteps.ResizeCore | ext4/src/filesystem.rs:1318-1412 | cutting or growing a file keeps them in agreement |
| DiskSteps.RewriteInodeCore | ext4/src/filesystem.rs:1702-1716 | rewriting a live inode's other fields keeps them in agreement |
| DiskMoves.MoveCore | ext4/src/filesystem.rs:1640-1674 | the three block writes and two link writes of a move keep them in agreement |
| DiskMoves.LinkRoom | ext4/src/filesystem.rs:990-993 | a directory's links are two plus its subdirectories and one more always fits 16 bits |
| Moves.SubdirRoom | ext4/src/filesystem.rs:990-993 | a block of `size` bytes has room for at most size / 12 records, so for that many subdirectories |
| Removals.UnlinkDone | ext4/src/filesystem.rs:826-882 | once unlink's checks pass, every later step succeeds and ends in a sound state |
| Removals.TornBuried | ext4/src/filesystem.rs:862-874 | the removed inode's record has no link, no size, no flags, an all-zero mapping and a deletion time that is not zero |
| Removals.RmdirDone | ext4/src/filesystem.rs:727-811 | the same for rmdir of a name other than `.` |
| Removals.RmdirSelf | ext4/src/filesystem.rs:794-804 | rmdir of a directory's own `.` leaves a freed inode with links, which no catalog allows |
| Dots.BrokenUnfit | ext4/src/filesystem.rs:1637-1655 | a disk on which a live directory has lost one of its dots fits no catalog whatever, because every ancestor's block still names its way there |
| Dots.StillLive | ext4/src/filesystem.rs:1637-1655 | any catalog that fits the disk has every inode of the old one live, with the records its block now holds |
| Dots.DotErased | ext4/src/filesystem.rs:657-714 | removing either dot keeps every other name and leaves no listing |
| Dots.DotMovedUnfit | ext4/src/filesystem.rs:1637-1674 | the three block writes and two link writes of such a move, across directories, end there |
| Dots.DotSwappedUnfit | ext4/src/filesystem.rs:1637-1655 | and so do the two block writes within one directory |
| Steps.EnterCore | ext4/src/filesystem.rs:1040-1106 | a reserved inode and run, once entered, are owned and no longer leaked |
| Truncations.CutCore | ext4/src/filesystem.rs:1334-1412 | after a shrink the surviving blocks are owned and the cut ones free |
| Renames.MoveDone | ext4/src/filesystem.rs:1640-1679 | a move keeps disk and catalog in agreement, and keeps the tree acyclic exactly when the destination is not inside the moved directory |
| Renames.PlanFacts | ext4/src/filesystem.rs:1520-1635 | what rename's checks establish about source and destination |
| Renames.JoinedOccupant | ext4/src/filesystem.rs:1613-1614 | the joined path rename hands to unlink names the very inode it looked up |
| Catalogs.OneEntry | ext4/src/filesystem.rs:521-714 | every live inode but the root has exactly one ordinary entry in the whole tree |
| Catalogs.OneOwner | ext4/src/filesystem.rs:482-620 | no block belongs to two inodes |
| Catalogs.LookupLands | ext4/src/filesystem.rs:320-333 | every name of every listing leads to a live inode; `..` to the parent |
| Catalogs.AttachTree | ext4/src/filesystem.rs:899-1222 | entering a node keeps names unique, `..` right and every inode entered once |
| Catalogs.DetachTree | ext4/src/filesystem.rs:727-882 | removing a file or an empty directory keeps them |
| Catalogs.DetachAttached | ext4/src/filesystem.rs:521-714 | removing what was just entered gives back the same catalog |
| Catalogs.MoveAcyclic | ext4/src/filesystem.rs:1520-1679 | a move keeps the tree acyclic if and only if the destination is not inside what is moved |
| Moves.MoveTree | ext4/src/filesystem.rs:1640-1674 | a move, within a directory or across, keeps the whole tree invariant but acyclicity |
| Moves.ResizeOk | ext4/src/filesystem.rs:1318-1412 | resizing a file keeps tree and ownership |
| Operations.RemoveEntered | ext4/src/filesystem.rs:727-1106 | create then remove restores listings, ownership and leaks exactly |
| Operations.RemoveOk | ext4/src/filesystem.rs:727-882 | removing keeps the whole catalog invariant |
| Operations.OccupantIsWalk | ext4/src/filesystem.rs:338-380 | split_path then lookup finds what open_path finds, and fails only when it fails |
| Operations.VacantOrdinary | ext4/src/filesystem.rs:1026-1036 | the only names a listing leaves vacant are neither `.` nor `..` |
| Walks.WalkIsChain | ext4/src/filesystem.rs:367-380 | walking down a dot-free path reaches an inode exactly when parent links climbing up spell the path |
| Walks.OnePath | ext4/src/filesystem.rs:367-380 | an inode has at most one dot-free path |
| Walks.BelowIffPrefix | ext4/src/filesystem.rs:1520-1679 | one inode is inside another exactly when its path extends the other's |
| Walks.ChainMoved | ext4/src/filesystem.rs:1640-1674 | moving one parent link carries a whole subtree of paths |
| Walks.ChainElsewhere | ext4/src/filesystem.rs:1640-1674 | what lies outside the moved subtree has exactly the paths it had |
| DirBlocks.AddToBlock | ext4/src/filesystem.rs:534-589 | in place on the block: exactly the packed list with the record carved out of the last one's slack, or the exact fault |
| DirBlocks.SplitLast | ext4/src/filesystem.rs:562-586 | the two records written, the last one shortened to what it needs |
| DirBlocks.RemoveFromBlock | ext4/src/filesystem.rs:675-714 | in place: exactly the packed list with the record merged into its predecessor, or not found and untouched |
| DirBlocks.MergeIntoPrevious | ext4/src/filesystem.rs:697-703 | the predecessor absorbs the record's length without overflow |
| DirBlocks.RepointDotDot | ext4/src/filesystem.rs:1446-1472 | in place: `..` repointed, or an error when there is none |
| DirBlocks.CarveFits | ext4/src/filesystem.rs:562-569 | insertion succeeds exactly when the name has at most 255 bytes and its padded record fits the slack |
| DirBlocks.ReplaceFits | ext4/src/filesystem.rs:1600-1650 | erasing a name and entering one of its length again succeeds exactly when it was the last record or fits the slack |
| DirBlocks.CarveSlack | ext4/src/filesystem.rs:562-577 | each insertion takes from the last record's slack exactly what its padded record needs |
| DirBlocks.CarveBytes | ext4/src/filesystem.rs:562-586 | the two writes of an insertion turn one exact tiling into another, zero padding included |
| DirBlocks.EraseBytes | ext4/src/filesystem.rs:697-703 | the one write of a removal does too |
| DirBlocks.TombstoneBytes | ext4/src/filesystem.rs:704-712 | zeroing the inode number is what removing a first record comes to |
| Listings.CarveListing | ext4/src/filesystem.rs:521-589 | unique names, leading dots and exact tiling survive an insertion |
| Listings.CarveLookup | ext4/src/filesystem.rs:521-589 | after an insertion exactly the one name means something new |
| Listings.EraseListing | ext4/src/filesystem.rs:657-714 | a removal leaves a directory listing exactly when it is not one of the two dots |
| Listings.EraseLookup | ext4/src/filesystem.rs:657-714 | after a removal exactly the one name means nothing |
| Listings.EraseCarved | ext4/src/filesystem.rs:521-714 | add then remove of a fresh name is the identity on records, so on bytes |
| Listings.RepointLookup | ext4/src/filesystem.rs:1431-1472 | after repointing only `..` means something else |
| Listings.ListingRoom | ext4/src/filesystem.rs:562-577 | at most size / 12 records |
| Listings.NewDirBlock | ext4/src/filesystem.rs:968-985 | the block of a new directory decodes to `.` and `..` filling it exactly |
| Listings.CountOthers | ext4/src/filesystem.rs:758-771 | counting entries other than the dots counts the listing less two |
| DirEntries.EncodeInto | spec/src/dir_entry.rs:173-214 | each encoding error in order with the buffer untouched, or exactly the record's bytes in place |
| DirEntries.DecodeEncoded | spec/src/dir_entry.rs:106-214 | every encodable record decodes back, whatever follows |
| DirEntries.EncodeDecoded | spec/src/dir_entry.rs:106-214 | a decoded record re-encodes to the same bytes exactly when its padding is zero |
| DirEntries.DecodeDirBlock | spec/src/dir_entry.rs:222-242 | the loop ends on any bytes and equals the recursive walk |
| DirEntries.WalkPack | spec/src/dir_entry.rs:222-242 | a tiled list of records decodes to itself |
| DirEntries.PackInjective | spec/src/dir_entry.rs:222-242 | a block is packed from one list only |
| DirEntries.PackRoom | spec/src/dir_entry.rs:106-144 | records take at least eight bytes, named ones at least twelve |
| Extents.ExtentRoundTrip | spec/src/extent.rs:129-178 | an extent survives its codec exactly when it is representable; uninit of length 0 or 32768 does not |
| Extents.ExtentBytesRoundTrip | spec/src/extent.rs:129-178 | every 12-byte string is the encoding of the representable extent it decodes to |
| Extents.IndexRoundTrip | spec/src/extent.rs:195-224 | an index survives its codec exactly when its block fits 48 bits |
| Extents.IndexBytesRoundTrip | spec/src/extent.rs:195-224 | a 12-byte string is the encoding of the index it decodes to exactly when its last two bytes are zero |
| Extents.EncodeIndexInto | spec/src/extent.rs:211-224 | too short a buffer refused, otherwise the index's twelve bytes and nothing else |
| Extents.InternalRoundTrip | spec/src/extent.rs:243-271 | any number of indices behind a header of some depth decode back, whatever follows |
| Extents.LeafRoundTrip | spec/src/extent.rs:243-271 | up to four extents fit the 60-byte root and decode back |
| Extents.DecodeExtentNode | spec/src/extent.rs:243-271 | the two loops over records, on any bytes; which bytes, `Formats.NodeIs` says |
| Extents.EncodeExtentInto | spec/src/extent.rs:158-178 | too short a buffer or a length above 32768 refused with the buffer untouched, otherwise the twelve bytes and nothing else |
| Extents.EncodeHeaderInto | spec/src/extent.rs:86-99 | too short a buffer refused, otherwise the header's twelve bytes, nothing else |
| Extents.BuildLeafBlock | ext4/src/filesystem.rs:1388-1403 | the rebuilt root holds every surviving extent |
| Inodes.InodeRoundTrip | spec/src/inode.rs:177-305 | every inode survives its codec at every record size of at least 128 |
| Inodes.EncodeInto | spec/src/inode.rs:268-305 | errors with the buffer untouched, otherwise the record over the head of the buffer and the rest untouched |
| Superblocks.SuperblockRoundTrip | spec/src/superblock.rs:252-467 | a superblock survives its codec exactly when its fields are faithful to their widths |
| Superblocks.EncodeSuperblockInto | spec/src/superblock.rs:401-467 | errors in order, a bad block size after the head is zeroed; otherwise the 1024 bytes over the head of the buffer and the rest untouched |
| Superblocks.GroupDescriptorRoundTrip | spec/src/group_descriptor.rs:99-228 | a 64-byte entry keeps every descriptor; a 32-byte one exactly those with 32-bit addresses and 16-bit counts |
| Superblocks.EncodeGroupDescriptorInto | spec/src/group_descriptor.rs:178-228 | errors with the buffer untouched, otherwise the entry over the head of the buffer and the rest untouched |
| Formats.RecordIs | spec/src/dir_entry.rs:106-144 | which directory records decode, and from which bytes their fields come |
| Formats.RecordFaults | spec/src/dir_entry.rs:106-144 | why the others do not, fault by fault |
| Formats.RecordRefused | spec/src/dir_entry.rs:173-200 | what encoding refuses, fault by fault |
| Formats.RecordBytes | spec/src/dir_entry.rs:173-214 | every byte of an encoded record, padding included |
| Formats.BlockRecords | spec/src/dir_entry.rs:222-242 | a block reads as records each starting where the one before ends, to its end or to the first that does not decode; a short tail is an error of its own |
| Formats.LittleEndian | spec/src/extent.rs:286-292 | fixed-width integers are written least significant byte first |
| Formats.BitsAre | spec/src/bitmap.rs:16-40 | bit n is in byte n / 8, lowest first |
| Formats.NodeIs | spec/src/extent.rs:60-271 | which nodes decode, when they are leaves, and from which bytes every header field, extent and index comes |
| Formats.RootIs | ext4/src/filesystem.rs:1388-1403 | every byte of a root as it is written: magic, count, room for four, depth zero, the extents, zeros |
| Formats.MapBlockMeans | ext4/src/filesystem.rs:166-177 | a leaf maps a block by the first extent over it; a hole or an uninitialised run maps nowhere |
| Formats.WrittenTreeResolves | ext4/src/filesystem.rs:149-216 | a tree written out in bytes, at most five levels under the root, resolves every block as its flat list of extents maps it |
| Formats.TooDeep | ext4/src/filesystem.rs:157-165 | six index nodes in a row are one too many |
| Formats.LeadsNowhere | ext4/src/filesystem.rs:190-206 | a block before the first index is a hole |
| Formats.LeadsOut | ext4/src/filesystem.rs:178-216 | an index whose block ends past the image is a read error |
| Layouts.InodeLayout | spec/src/inode.rs:177-221 | which inode records decode, and from which bytes every field comes |
| Layouts.InodeBytes | spec/src/inode.rs:268-305 | every byte of an encoded inode |
| Layouts.KindBits | spec/src/inode.rs:223-256 | directory, regular file and symlink are type nibbles 4, 8 and 10; extents are flag 0x80000 |
| Layouts.SuperblockLayout | spec/src/superblock.rs:252-345 | which superblocks decode, and from which bytes every field comes, the high words only under the 64-bit feature |
| Layouts.SuperblockEncoded | spec/src/superblock.rs:401-467 | every byte of an encoded superblock, the repeated fields and the gaps too |
| Layouts.DescriptorLayout | spec/src/group_descriptor.rs:99-175 | likewise a descriptor of either size |
| Layouts.DescriptorEncoded | spec/src/group_descriptor.rs:178-228 | and its encoding |
| Layouts.ViewLayout | ext4/src/filesystem.rs:85-131 | what every statement about the disk means in bytes of the image: superblock at 1024, descriptor in block 1, bit by bit the bitmaps where the descriptor puts them, inode k at the table plus 256 (k - 1), and the blocks behind the table |
| Bitmap.FindFirstZero | spec/src/bitmap.rs:48-65 | skipping 0xFF bytes finds what a bit-by-bit scan finds: the lowest clear bit, none exactly when all are set |
| Bitmap.FindFirstZeroRun | spec/src/bitmap.rs:74-95 | the lowest start of n clear bits below the bound, none exactly when no run exists |
| Bitmap.SetBit | spec/src/bitmap.rs:29-33 | exactly one bit of the buffer becomes set |
| Bitmap.ClearBit | spec/src/bitmap.rs:36-40 | exactly one bit becomes clear |
| Bitmap.BitsDetermineBytes | spec/src/bitmap.rs:16-23 | equal bits mean equal bytes |
| Images.SetRun | ext4/src/filesystem.rs:499-501 | a loop of single-bit updates fills exactly the run |
| ExtentTrees.ResolveFrom | ext4/src/filesystem.rs:149-216 | the loop equals a fuel-bounded descent, so it ends within six node decodes on any bytes |
| ExtentTrees.ResolveIsFlatLookup | ext4/src/filesystem.rs:149-216 | on a stored tree with ordered, disjoint key ranges the descent answers as a lookup in the flattened extent list, holes and uninit as none |
| ExtentTrees.InodeWalk | ext4/src/filesystem.rs:149-216 | in particular for every tree of depth at most five under an inode |
| ExtentTrees.MoreFuel | ext4/src/filesystem.rs:157-165 | once the descent answers, more steps change nothing |
| ExtentTrees.CutMap | ext4/src/filesystem.rs:1354-1387 | the surviving map is the old map below the cut and nothing above it |
| ExtentTrees.CutConserves | ext4/src/filesystem.rs:1354-1387 | over any disjoint initialised extents, kept and freed blocks are disjoint and together all there was, as sets and as a count |
| ExtentTrees.SumLens | ext4/src/filesystem.rs:1290-1296 | the sum of extent lengths |
| Images.FileBlocksHold | ext4/src/filesystem.rs:1080-1094 | the padded data fills exactly ceil(size / block) blocks and starts with the data |
| Images.ConcatAt | ext4/src/filesystem.rs:258-294 | what a file reads is its blocks end to end: the bytes from j * size on are block j |
| Images.ResolveRun | ext4/src/filesystem.rs:149-216 | a one-extent root maps each block of its run and nothing past it |
| Truncations.CutReads | ext4/src/filesystem.rs:1262-1418 | after any shrink the file reads as a prefix of its backing blocks |
| Truncations.GrowReads | ext4/src/filesystem.rs:1311-1325 | growing reads zeros exactly when the backing bytes there are zero |
| Truncations.ShrinkThenGrow | ext4/src/filesystem.rs:1311-1325 | shrinking within the last block and growing back gives the old bytes back |
| Truncations.GrowFresh | ext4/src/filesystem.rs:1311-1325 | a file as create_file left it grows with zeros |
| Truncations.TruncateAnswers | ext4/src/filesystem.rs:1279-1311 | in a sound state the extents' capacity comes to the size rounded up to whole blocks |
| Truncations.AllowedBytes | ext4/src/filesystem.rs:1279-1311 | which is as far as the file's own blocks reach |
| Truncations.GrowKeepsCount | ext4/src/filesystem.rs:1311-1325 | a permitted growth never changes the block count |
| Steps.ChmodKeepsType | ext4/src/filesystem.rs:1734-1745 | the type nibble survives any mode argument and the low twelve bits are replaced |
| Paths.SplitAgreesWithWalk | ext4/src/filesystem.rs:338-380 | split_path accepts exactly the absolute paths with a component, and parent components plus the name are the components open_path walks |
| Paths.JoinThenSplit | ext4/src/filesystem.rs:1794-1800 | joining and splitting again gives the same directory and name |
| Walks.ComponentsSlashFree | ext4/src/filesystem.rs:367-380 | components are never empty and hold no slash |
| Mkfs.Format | ext4/src/mkfs.rs:162-386 | accepts what the layout accepts, and the image written region by region holds a sound, coherent, one-directory filesystem |
| Mkfs.NewHeaders | ext4/src/mkfs.rs:190-246 | every field of the new superblock and descriptor by value |
| Mkfs.OpensAsWritten | ext4/src/filesystem.rs:39-83 | open returns a superblock and a list exactly when bytes 1024 to 2047 decode to the one, both per-group counts are not zero, and one entry per group, from the block after the first data block on, decodes to the other: any block size, any number of groups |
| Mkfs.OpenRefuses | ext4/src/filesystem.rs:39-83 | and why it refuses the other images, in order |
| Mkfs.FormattedCore | ext4/src/mkfs.rs:162-386 | reserved and padding bits make the declared counters exact |
| Mkfs.FormattedOpens | ext4/src/filesystem.rs:39-83 | opening it yields the configured superblock and descriptor |
| Mkfs.ReopenSame | ext4/src/filesystem.rs:39-83 | opening any coherent image yields the cached structures |
| Mkfs.PaddedBitmap | ext4/src/mkfs.rs:342-370 | bits below the first and from the second bound set, the rest clear |
| Mkfs.SmallBlocksClash | ext4/src/mkfs.rs:305-325 | at 1024 bytes a block the descriptor overwrites the superblock, and what is decoded is not what was written |
| Mkfs.HeadersSurvive | ext4/src/mkfs.rs:116-325 | for every configuration the layout accepts, the two header writes decode back if and only if blocks are not of 1024 bytes and both free counts fit 16 bits |

## Left out

- Mkfs.Format: the image is proved sound for block sizes 2048 and 4096 with at most eight times the block size of blocks and of inodes. Of the other configurations the layout accepts only the headers are proved (`Mkfs.HeadersSurvive`): at 1024 they do not survive; at 65536 they do, but `mkdir` then subtracts 12 from 65536 cut to 16 bits; larger groups index past their bitmap.
- Runs.Mount: for the same configurations as `Mkfs.Format`.
- Runs.FormatAndRun: likewise, and for operations that pass `Runs.Fitting`.
- Scenarios.ListNewRoot: for the same configurations as `Mkfs.Format`.
- Filesystems.Filesystem.CreateFile: requires fewer than 2^32 blocks of data, where the source's cast of the block count to 32 bits loses nothing; an image of one group holds at most 32768.
- Runs.RunAll: asks of each operation what `Runs.Fitting` says, a test on its arguments alone: fewer than 2^32 blocks of data, no `rmdir` of a path ending in `.`, no rename with dots or into the old path. `Runs.Apply` and `Runs.SoundUntil` have no such condition but the first, and say exactly when soundness ends.
- Sightings.RenamedShown: for renames that end with disk and catalog in agreement. Renaming a directory by its own `.` or `..` ends with no catalog at all (`Dots.BrokenUnfit`), so nothing is said of the record it writes.
- Sightings.RenameThenList: for the arguments `Runs.Fitting` accepts; `Sightings.RenamedShown` has no such condition.
- Sightings.FirstFile: for the same configurations as `Mkfs.Format`.
- Relocations.RenamedPaths: for paths without `.` and `..`; with them, a path may run through a moved directory's `..`. `Relocations.RenamedSubtree` asks it only of the paths it speaks of, not of rename's arguments.
- DirBlocks.AddToBlock: for blocks whose records tile them exactly with zero padding, which every block this code writes does; likewise `DirBlocks.RemoveFromBlock`, `DirBlocks.RepointDotDot` and the methods on top of them.
- DirBlocks.RemoveFromBlock: as `DirBlocks.AddToBlock`.
- DirBlocks.RepointDotDot: as `DirBlocks.AddToBlock`.
- Filesystems.Filesystem.AddDirEntry: as `DirBlocks.AddToBlock`.
- Filesystems.Filesystem.RemoveDirEntry: as `DirBlocks.AddToBlock`.
- Filesystems.Filesystem.UpdateDotDot: as `DirBlocks.AddToBlock`.
- Filesystems.Filesystem.ReadDir: for the directories this code writes; on any bytes at all `DirEntries.DecodeDirBlock` says what the record walk returns.
- Filesystems.Filesystem.Lookup: as `ReadDir`.
- Filesystems.Filesystem.ReadFile: for the inodes the model's write paths make; sparse files, uninitialised extents and trees with index nodes are covered by `ExtentTrees.InodeWalk`, not by the file reader.
- Errors of the reader and writer, and crashes between writes: the image is memory that never fails. A read or write outside it does not occur in a valid state.
- Several block groups, hash-tree directories, inline data, legacy block pointers, long symlinks, journal, checksums: not implemented in the source.
- Index nodes on write paths: the source refuses them when truncating and skips them when freeing, and no operation makes one.
- The original's 64-bit feature and high halves: descriptors and superblocks with them are covered by the codec round trips only.
- File type bytes other than file, directory and symlink in rename, and superblock fields beyond their codec: no invariant depends on them.
- Volume label and path text as Unicode: bytes throughout.
- The command line and the host tree walk (`cli/src`): argument parsing and host I/O.
- `e2fsck` and the Linux kernel themselves: `Valid()` stands in for them.
