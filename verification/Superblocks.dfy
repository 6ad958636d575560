/** The superblock and the group descriptor (spec/src/superblock.rs, spec/src/group_descriptor.rs). */
module Superblocks {
  import opened Bytes
  import opened Results

  const SUPERBLOCK_OFFSET := 1024
  const SUPERBLOCK_SIZE := 1024
  const EXT4_MAGIC: u16 := 0xEF53
  const DEFAULT_INODE_SIZE: u16 := 128
  const GDT_ENTRY_SIZE_32: u16 := 32

  type Id16 = s: seq<byte> | |s| == 16 witness Zeros(16)

  datatype Superblock = Superblock(
    blockSize: u32, inodesCount: u32, blocksCount: u64, freeBlocksCount: u64, freeInodesCount: u32,
    inodeSize: u16, revLevel: u32,
    featureCompat: u32, featureIncompat: u32, featureRoCompat: u32,
    uuid: Id16, volumeName: Id16, descSize: u16,
    firstDataBlock: u32, blocksPerGroup: u32, inodesPerGroup: u32,
    mtime: u32, wtime: u32, mountCount: u16, maxMountCount: u16, state: u16, errors: u16, minorRevLevel: u16,
    lastCheck: u32, checkInterval: u32, creatorOs: u32, firstIno: u32,
    hashSeed: Id16, defHashVersion: byte)
  {
    predicate Is64Bit() { featureIncompat / 0x80 % 2 == 1 }

    function GroupCount(): nat {
      if blocksPerGroup == 0 then 0 else DivCeil(blocksCount, blocksPerGroup) % 0x1_0000_0000
    }

    function DescriptorSize(): u16 {
      if Is64Bit() then descSize else GDT_ENTRY_SIZE_32
    }
  }

  /** `1024 << log`, for the four sizes the format allows. */
  function BlockSizeOfLog(log: u32): Option<u32> {
    if log == 0 then Some(1024) else if log == 1 then Some(2048)
    else if log == 2 then Some(4096) else if log == 6 then Some(65536) else None
  }

  function LogOfBlockSize(blockSize: u32): Option<u32> {
    if blockSize == 1024 then Some(0) else if blockSize == 2048 then Some(1)
    else if blockSize == 4096 then Some(2) else if blockSize == 65536 then Some(6) else None
  }

  function CombineHiLo(hi: u32, lo: u32, is64Bit: bool): u64 {
    if is64Bit then hi * 0x1_0000_0000 + lo else lo
  }

  function DecodedInodeSize(revLevel: u32, raw: u16): u16 {
    if revLevel >= 1 && raw != 0 then raw else DEFAULT_INODE_SIZE
  }

  function DecodeSuperblock(buf: seq<byte>): Result<Superblock> {
    if |buf| < SUPERBLOCK_SIZE || U16(buf, 0x38) != EXT4_MAGIC || BlockSizeOfLog(U32(buf, 0x18)).None?
      then Err(SuperblockDecode)
    else
      var is64Bit := U32(buf, 0x60) / 0x80 % 2 == 1;
      Ok(Superblock(
        BlockSizeOfLog(U32(buf, 0x18)).value, U32(buf, 0x00),
        CombineHiLo(U32(buf, 0x150), U32(buf, 0x04), is64Bit), CombineHiLo(U32(buf, 0x158), U32(buf, 0x0C), is64Bit),
        U32(buf, 0x10), DecodedInodeSize(U32(buf, 0x4C), U16(buf, 0x58)), U32(buf, 0x4C),
        U32(buf, 0x5C), U32(buf, 0x60), U32(buf, 0x64),
        buf[0x68..0x78], buf[0x78..0x88], U16(buf, 0xFE),
        U32(buf, 0x14), U32(buf, 0x20), U32(buf, 0x28),
        U32(buf, 0x2C), U32(buf, 0x30), U16(buf, 0x34), U16(buf, 0x36), U16(buf, 0x3A), U16(buf, 0x3C), U16(buf, 0x3E),
        U32(buf, 0x40), U32(buf, 0x44), U32(buf, 0x48), U32(buf, 0x54),
        buf[0xEC..0xFC], buf[0xFC]))
  }

  // The writes, in the source's order, in three stretches.

  function Stretch1(sb: Superblock, log: u32, z: seq<byte>): (bs: seq<byte>)
    requires |z| >= SUPERBLOCK_SIZE
    ensures |bs| == |z|
  {
    var a := Put(Put(Put(Put(z, 0x00, LE32(sb.inodesCount)), 0x04, LE32(sb.blocksCount % 0x1_0000_0000)),
                     0x0C, LE32(sb.freeBlocksCount % 0x1_0000_0000)), 0x10, LE32(sb.freeInodesCount));
    var b := Put(Put(Put(a, 0x14, LE32(sb.firstDataBlock)), 0x18, LE32(log)), 0x1C, LE32(log));
    var c := Put(Put(Put(b, 0x20, LE32(sb.blocksPerGroup)), 0x24, LE32(sb.blocksPerGroup)), 0x28,
      LE32(sb.inodesPerGroup));
    Put(Put(c, 0x2C, LE32(sb.mtime)), 0x30, LE32(sb.wtime))
  }

  function Stretch2(sb: Superblock, z: seq<byte>): (bs: seq<byte>)
    requires |z| >= SUPERBLOCK_SIZE
    ensures |bs| == |z|
  {
    var a := Put(Put(Put(z, 0x34, LE16(sb.mountCount)), 0x36, LE16(sb.maxMountCount)), 0x38, LE16(EXT4_MAGIC));
    var b := Put(Put(Put(a, 0x3A, LE16(sb.state)), 0x3C, LE16(sb.errors)), 0x3E, LE16(sb.minorRevLevel));
    var c := Put(Put(Put(b, 0x40, LE32(sb.lastCheck)), 0x44, LE32(sb.checkInterval)), 0x48, LE32(sb.creatorOs));
    Put(Put(Put(c, 0x4C, LE32(sb.revLevel)), 0x54, LE32(sb.firstIno)), 0x58, LE16(sb.inodeSize))
  }

  function Stretch3(sb: Superblock, z: seq<byte>): (bs: seq<byte>)
    requires |z| >= SUPERBLOCK_SIZE
    ensures |bs| == |z|
  {
    var a := Put(Put(Put(z, 0x5C, LE32(sb.featureCompat)), 0x60, LE32(sb.featureIncompat)), 0x64,
      LE32(sb.featureRoCompat));
    var b := Put(Put(Put(a, 0x68, sb.uuid), 0x78, sb.volumeName), 0xEC, sb.hashSeed);
    var c := Put(Put(b, 0xFC, [sb.defHashVersion]), 0xFE, LE16(sb.descSize));
    if sb.Is64Bit() then
      Put(Put(c, 0x150, LE32(sb.blocksCount / 0x1_0000_0000)), 0x158, LE32(sb.freeBlocksCount / 0x1_0000_0000))
    else c
  }

  function SuperblockBytes(sb: Superblock): (bs: seq<byte>)
    requires LogOfBlockSize(sb.blockSize).Some?
    ensures |bs| == SUPERBLOCK_SIZE
  {
    Stretch3(sb, Stretch2(sb, Stretch1(sb, LogOfBlockSize(sb.blockSize).value, Zeros(SUPERBLOCK_SIZE))))
  }

  /** The superblocks whose on-disk form says everything about them. */
  predicate Faithful(sb: Superblock) {
    && ((sb.revLevel >= 1 && sb.inodeSize != 0) || sb.inodeSize == DEFAULT_INODE_SIZE)
    && (!sb.Is64Bit() ==> sb.blocksCount < 0x1_0000_0000 && sb.freeBlocksCount < 0x1_0000_0000)
  }

  /** What `open` decodes is what was encoded, for exactly the faithful superblocks. */
  lemma SuperblockRoundTrip(sb: Superblock)
    requires LogOfBlockSize(sb.blockSize).Some?
    ensures DecodeSuperblock(SuperblockBytes(sb)) == Ok(sb) <==> Faithful(sb)
  {
    hide Put, LE16, LE32, U16, U32, Zeros, Stretch1, Stretch2, Stretch3;
    var log := LogOfBlockSize(sb.blockSize).value;
    var s1 := Stretch1(sb, log, Zeros(SUPERBLOCK_SIZE));
    var s2 := Stretch2(sb, s1);
    Read1(sb, log, Zeros(SUPERBLOCK_SIZE));
    Read2(sb, s1);
    Read3(sb, s2);
    var s := SuperblockBytes(sb);
    assert s == Stretch3(sb, s2);
    Lower1(s1, s2, s);
    HiLo(sb.blocksCount, sb.Is64Bit());
    HiLo(sb.freeBlocksCount, sb.Is64Bit());
  }

  lemma HiLo(v: u64, is64Bit: bool)
    ensures CombineHiLo(v / 0x1_0000_0000, v % 0x1_0000_0000, true) == v
    ensures forall hi :: CombineHiLo(hi, v % 0x1_0000_0000, false) == v <==> v < 0x1_0000_0000
  {
  }

  predicate SameU16(a: seq<byte>, b: seq<byte>, at: nat) {
    at + 2 <= |a| == |b| && U16(a, at) == U16(b, at)
  }

  predicate SameU32(a: seq<byte>, b: seq<byte>, at: nat) {
    at + 4 <= |a| == |b| && U32(a, at) == U32(b, at)
  }

  lemma Lower1(s1: seq<byte>, s2: seq<byte>, s: seq<byte>)
    requires |s1| >= SUPERBLOCK_SIZE && |s1| == |s2| == |s|
    requires s2[..0x34] == s1[..0x34] && s[..0x5C] == s2[..0x5C]
    ensures forall at: nat {:trigger U32(s1, at)} :: at + 4 <= 0x34 ==> SameU32(s, s1, at)
    ensures forall at: nat {:trigger U32(s, at)} :: at + 4 <= 0x34 ==> SameU32(s, s1, at)
    ensures forall at: nat {:trigger U32(s, at)} :: at + 4 <= 0x5C ==> SameU32(s, s2, at)
    ensures forall at: nat {:trigger U16(s, at)} :: at + 2 <= 0x5C ==> SameU16(s, s2, at)
  {
    assert forall k :: 0 <= k < 0x5C ==> s[k] == s[..0x5C][k] == s2[..0x5C][k] == s2[k];
    assert forall k :: 0 <= k < 0x34 ==> s2[k] == s2[..0x34][k] == s1[..0x34][k] == s1[k];
    forall at: nat | at + 4 <= 0x34 ensures SameU32(s, s1, at) {
      assert s[at] == s1[at] && s[at + 1] == s1[at + 1] && s[at + 2] == s1[at + 2] && s[at + 3] == s1[at + 3];
    }
    forall at: nat | at + 4 <= 0x5C ensures SameU32(s, s2, at) {
      assert s[at] == s2[at] && s[at + 1] == s2[at + 1] && s[at + 2] == s2[at + 2] && s[at + 3] == s2[at + 3];
    }
    forall at: nat | at + 2 <= 0x5C ensures SameU16(s, s2, at) {
      assert s[at] == s2[at] && s[at + 1] == s2[at + 1];
    }
  }

  lemma Read1(sb: Superblock, log: u32, z: seq<byte>)
    requires |z| >= SUPERBLOCK_SIZE
    ensures var s := Stretch1(sb, log, z);
      && U32(s, 0x00) == sb.inodesCount && U32(s, 0x04) == sb.blocksCount % 0x1_0000_0000
      && U32(s, 0x0C) == sb.freeBlocksCount % 0x1_0000_0000 && U32(s, 0x10) == sb.freeInodesCount
      && U32(s, 0x14) == sb.firstDataBlock && U32(s, 0x18) == log && U32(s, 0x20) == sb.blocksPerGroup
      && U32(s, 0x28) == sb.inodesPerGroup && U32(s, 0x2C) == sb.mtime && U32(s, 0x30) == sb.wtime
  {
    hide Put, LE16, LE32, U16, U32;
    PutFields();
  }

  lemma Read2(sb: Superblock, z: seq<byte>)
    requires |z| >= SUPERBLOCK_SIZE
    ensures var s := Stretch2(sb, z);
      && s[..0x34] == z[..0x34]
      && U16(s, 0x34) == sb.mountCount && U16(s, 0x36) == sb.maxMountCount && U16(s, 0x38) == EXT4_MAGIC
      && U16(s, 0x3A) == sb.state && U16(s, 0x3C) == sb.errors && U16(s, 0x3E) == sb.minorRevLevel
      && U32(s, 0x40) == sb.lastCheck && U32(s, 0x44) == sb.checkInterval && U32(s, 0x48) == sb.creatorOs
      && U32(s, 0x4C) == sb.revLevel && U32(s, 0x54) == sb.firstIno && U16(s, 0x58) == sb.inodeSize
  {
    hide Put, LE16, LE32, U16, U32;
    PutFields();
    PutPrefix(0x34);
  }

  lemma PutPrefix(n: nat)
    ensures forall s, off: nat, bs {:trigger Put(s, off, bs)} :: n <= off && off + |bs| <= |s| ==>
      Put(s, off, bs)[..n] == s[..n]
  {
  }

  lemma Read3(sb: Superblock, z: seq<byte>)
    requires |z| >= SUPERBLOCK_SIZE
    ensures var s := Stretch3(sb, z);
      && s[..0x5C] == z[..0x5C]
      && U32(s, 0x5C) == sb.featureCompat && U32(s, 0x60) == sb.featureIncompat && U32(s, 0x64) == sb.featureRoCompat
      && U16(s, 0xFE) == sb.descSize
      && (sb.Is64Bit() ==>
           U32(s, 0x150) == sb.blocksCount / 0x1_0000_0000 && U32(s, 0x158) == sb.freeBlocksCount / 0x1_0000_0000)
      && s[0x68..0x78] == sb.uuid && s[0x78..0x88] == sb.volumeName && s[0xEC..0xFC] == sb.hashSeed
      && s[0xFC] == sb.defHashVersion
  {
    hide Put, LE16, LE32, U16, U32;
    PutFields();
    PutPrefix(0x5C);
    Slices3(sb, z);
  }

  lemma Slices3(sb: Superblock, z: seq<byte>)
    requires |z| >= SUPERBLOCK_SIZE
    ensures var s := Stretch3(sb, z);
      s[0x68..0x78] == sb.uuid && s[0x78..0x88] == sb.volumeName && s[0xEC..0xFC] == sb.hashSeed
        && s[0xFC] == sb.defHashVersion
  {
    hide Put, LE16, LE32, U16, U32;
    var a := Put(Put(Put(z, 0x5C, LE32(sb.featureCompat)), 0x60, LE32(sb.featureIncompat)), 0x64,
      LE32(sb.featureRoCompat));
    var u := Put(a, 0x68, sb.uuid);
    var v := Put(u, 0x78, sb.volumeName);
    var h := Put(v, 0xEC, sb.hashSeed);
    var d := Put(h, 0xFC, [sb.defHashVersion]);
    var c := Put(d, 0xFE, LE16(sb.descSize));
    PutSlice(a, 0x68, sb.uuid, 0x68, 0x78);
    PutSlice(u, 0x78, sb.volumeName, 0x78, 0x88);
    PutSlice(v, 0xEC, sb.hashSeed, 0xEC, 0xFC);
    PutSlice(h, 0xFC, [sb.defHashVersion], 0xFC, 0xFD);
    PutPrefix(0x78);
    PutPrefix(0x88);
    PutPrefix(0xFC);
    PutPrefix(0xFD);
    var s := Stretch3(sb, z);
    assert s[..0xFD] == d[..0xFD] && d[..0xFC] == h[..0xFC] && h[..0x88] == v[..0x88] && v[..0x78] == u[..0x78];
    Within(s, d, 0xFC, 0xFD, 0xFD);
    Within(s, d, 0xEC, 0xFC, 0xFD);
    Within(d, h, 0xEC, 0xFC, 0xFC);
    Within(s, d, 0x78, 0x88, 0xFD);
    Within(d, h, 0x78, 0x88, 0xFC);
    Within(h, v, 0x78, 0x88, 0x88);
    Within(s, d, 0x68, 0x78, 0xFD);
    Within(d, h, 0x68, 0x78, 0xFC);
    Within(h, v, 0x68, 0x78, 0x88);
    Within(v, u, 0x68, 0x78, 0x78);
    assert s[0xFC] == s[0xFC..0xFD][0];
  }

  /** Equal prefixes have equal slices. */
  lemma Within(s: seq<byte>, t: seq<byte>, lo: nat, hi: nat, n: nat)
    requires lo <= hi <= n <= |s| && n <= |t| && s[..n] == t[..n]
    ensures s[lo..hi] == t[lo..hi]
  {
    assert s[lo..hi] == s[..n][lo..hi] && t[lo..hi] == t[..n][lo..hi];
  }

  lemma StretchesBefore(sb: Superblock, log: u32, z: seq<byte>, tail: seq<byte>)
    requires |z| >= SUPERBLOCK_SIZE
    ensures Stretch3(sb, Stretch2(sb, Stretch1(sb, log, z + tail))) ==
      Stretch3(sb, Stretch2(sb, Stretch1(sb, log, z))) + tail
  {
    Before1(sb, log, z, tail);
    Before2(sb, Stretch1(sb, log, z), tail);
    Before3(sb, Stretch2(sb, Stretch1(sb, log, z)), tail);
    hide Stretch1, Stretch2, Stretch3;
  }

  lemma Before1(sb: Superblock, log: u32, z: seq<byte>, tail: seq<byte>)
    requires |z| >= SUPERBLOCK_SIZE
    ensures Stretch1(sb, log, z + tail) == Stretch1(sb, log, z) + tail
  {
    hide Put, LE16, LE32;
    PutBefore(tail);
  }

  lemma Before2(sb: Superblock, z: seq<byte>, tail: seq<byte>)
    requires |z| >= SUPERBLOCK_SIZE
    ensures Stretch2(sb, z + tail) == Stretch2(sb, z) + tail
  {
    hide Put, LE16, LE32;
    PutBefore(tail);
  }

  lemma Before3(sb: Superblock, z: seq<byte>, tail: seq<byte>)
    requires |z| >= SUPERBLOCK_SIZE
    ensures Stretch3(sb, z + tail) == Stretch3(sb, z) + tail
  {
    hide Put, LE16, LE32;
    PutBefore(tail);
  }

  method EncodeSuperblockInto(sb: Superblock, buf: array<byte>) returns (r: Result<Unit>)
    modifies buf
    ensures r == if buf.Length < SUPERBLOCK_SIZE || LogOfBlockSize(sb.blockSize).None? then Err(SuperblockEncode)
      else Ok(Unit.Unit)
    ensures r.Ok? ==> buf[..] == Put(old(buf[..]), 0, SuperblockBytes(sb))
    ensures r.Ok? && buf.Length == SUPERBLOCK_SIZE ==> buf[..] == SuperblockBytes(sb)
    ensures r.Err? ==>
      buf[..] == if buf.Length < SUPERBLOCK_SIZE then old(buf[..]) else Put(old(buf[..]), 0, Zeros(SUPERBLOCK_SIZE))
  {
    if buf.Length < SUPERBLOCK_SIZE {
      return Err(SuperblockEncode);
    }
    FillZero(buf, 0, SUPERBLOCK_SIZE);
    var log := LogOfBlockSize(sb.blockSize);
    if log.None? {
      return Err(SuperblockEncode);
    }
    ghost var tail := old(buf[..])[SUPERBLOCK_SIZE..];
    PutHead(old(buf[..]), Zeros(SUPERBLOCK_SIZE));
    StretchesBefore(sb, log.value, Zeros(SUPERBLOCK_SIZE), tail);
    PutHead(old(buf[..]), SuperblockBytes(sb));
    hide Put, LE16, LE32, Zeros;
    WriteStretch1(sb, log.value, buf);
    WriteStretch2(sb, buf);
    WriteStretch3(sb, buf);
    return Ok(Unit.Unit);
  }

  method WriteStretch1(sb: Superblock, log: u32, buf: array<byte>)
    requires buf.Length >= SUPERBLOCK_SIZE
    modifies buf
    ensures buf[..] == Stretch1(sb, log, old(buf[..]))
  {
    hide Put, LE16, LE32;
    WriteU32(buf, 0x00, sb.inodesCount);
    WriteU32(buf, 0x04, sb.blocksCount % 0x1_0000_0000);
    WriteU32(buf, 0x0C, sb.freeBlocksCount % 0x1_0000_0000);
    WriteU32(buf, 0x10, sb.freeInodesCount);
    WriteU32(buf, 0x14, sb.firstDataBlock);
    WriteU32(buf, 0x18, log);
    WriteU32(buf, 0x1C, log);
    WriteU32(buf, 0x20, sb.blocksPerGroup);
    WriteU32(buf, 0x24, sb.blocksPerGroup);
    WriteU32(buf, 0x28, sb.inodesPerGroup);
    WriteU32(buf, 0x2C, sb.mtime);
    WriteU32(buf, 0x30, sb.wtime);
  }

  method WriteStretch2(sb: Superblock, buf: array<byte>)
    requires buf.Length >= SUPERBLOCK_SIZE
    modifies buf
    ensures buf[..] == Stretch2(sb, old(buf[..]))
  {
    hide Put, LE16, LE32;
    WriteU16(buf, 0x34, sb.mountCount);
    WriteU16(buf, 0x36, sb.maxMountCount);
    WriteU16(buf, 0x38, EXT4_MAGIC);
    WriteU16(buf, 0x3A, sb.state);
    WriteU16(buf, 0x3C, sb.errors);
    WriteU16(buf, 0x3E, sb.minorRevLevel);
    WriteU32(buf, 0x40, sb.lastCheck);
    WriteU32(buf, 0x44, sb.checkInterval);
    WriteU32(buf, 0x48, sb.creatorOs);
    WriteU32(buf, 0x4C, sb.revLevel);
    WriteU32(buf, 0x54, sb.firstIno);
    WriteU16(buf, 0x58, sb.inodeSize);
  }

  method WriteStretch3(sb: Superblock, buf: array<byte>)
    requires buf.Length >= SUPERBLOCK_SIZE
    modifies buf
    ensures buf[..] == Stretch3(sb, old(buf[..]))
  {
    hide Put, LE16, LE32;
    WriteU32(buf, 0x5C, sb.featureCompat);
    WriteU32(buf, 0x60, sb.featureIncompat);
    WriteU32(buf, 0x64, sb.featureRoCompat);
    CopyFromSlice(buf, 0x68, sb.uuid);
    CopyFromSlice(buf, 0x78, sb.volumeName);
    CopyFromSlice(buf, 0xEC, sb.hashSeed);
    CopyFromSlice(buf, 0xFC, [sb.defHashVersion]);
    WriteU16(buf, 0xFE, sb.descSize);
    if sb.Is64Bit() {
      WriteU32(buf, 0x150, sb.blocksCount / 0x1_0000_0000);
      WriteU32(buf, 0x158, sb.freeBlocksCount / 0x1_0000_0000);
    }
  }

  // ----- group descriptors -----

  datatype GroupDescriptor = GroupDescriptor(
    blockBitmap: u64, inodeBitmap: u64, inodeTable: u64,
    freeBlocksCount: u32, freeInodesCount: u32, usedDirsCount: u32, flags: u16, checksum: u16)

  function DecodeGroupDescriptor(buf: seq<byte>, entrySize: u16): Result<GroupDescriptor> {
    if entrySize < 32 || |buf| < entrySize then Err(GroupDescriptorDecode)
    else if entrySize >= 64 then
      Ok(GroupDescriptor(
        U32(buf, 0x20) * 0x1_0000_0000 + U32(buf, 0x00), U32(buf, 0x24) * 0x1_0000_0000 + U32(buf, 0x04),
        U32(buf, 0x28) * 0x1_0000_0000 + U32(buf, 0x08),
        U16(buf, 0x2C) * 0x1_0000 + U16(buf, 0x0C), U16(buf, 0x2E) * 0x1_0000 + U16(buf, 0x0E),
        U16(buf, 0x30) * 0x1_0000 + U16(buf, 0x10), U16(buf, 0x12), U16(buf, 0x1E)))
    else
      Ok(GroupDescriptor(U32(buf, 0x00), U32(buf, 0x04), U32(buf, 0x08),
                         U16(buf, 0x0C), U16(buf, 0x0E), U16(buf, 0x10), U16(buf, 0x12), U16(buf, 0x1E)))
  }

  function GroupLow(gd: GroupDescriptor, z: seq<byte>): (bs: seq<byte>)
    requires |z| >= 32
    ensures |bs| == |z|
  {
    var a := Put(Put(Put(z, 0x00, LE32(gd.blockBitmap % 0x1_0000_0000)), 0x04, LE32(gd.inodeBitmap % 0x1_0000_0000)),
                 0x08, LE32(gd.inodeTable % 0x1_0000_0000));
    var b := Put(Put(Put(a, 0x0C, LE16(gd.freeBlocksCount % 0x1_0000)), 0x0E, LE16(gd.freeInodesCount % 0x1_0000)),
                 0x10, LE16(gd.usedDirsCount % 0x1_0000));
    Put(Put(b, 0x12, LE16(gd.flags)), 0x1E, LE16(gd.checksum))
  }

  function GroupHigh(gd: GroupDescriptor, z: seq<byte>): (bs: seq<byte>)
    requires |z| >= 64
    ensures |bs| == |z|
  {
    var a := Put(Put(Put(z, 0x20, LE32(gd.blockBitmap / 0x1_0000_0000)), 0x24, LE32(gd.inodeBitmap / 0x1_0000_0000)),
                 0x28, LE32(gd.inodeTable / 0x1_0000_0000));
    Put(Put(Put(a, 0x2C, LE16(gd.freeBlocksCount / 0x1_0000)), 0x2E, LE16(gd.freeInodesCount / 0x1_0000)),
        0x30, LE16(gd.usedDirsCount / 0x1_0000))
  }

  function GroupDescriptorBytes(gd: GroupDescriptor, entrySize: u16): (bs: seq<byte>)
    requires entrySize >= 32
    ensures |bs| == entrySize
  {
    var low := GroupLow(gd, Zeros(entrySize));
    if entrySize >= 64 then GroupHigh(gd, low) else low
  }

  /** A 64-byte entry keeps every descriptor; a 32-byte one exactly those whose
      addresses fit 32 bits and whose counts fit 16. */
  lemma GroupDescriptorRoundTrip(gd: GroupDescriptor, entrySize: u16)
    requires entrySize >= 32
    ensures DecodeGroupDescriptor(GroupDescriptorBytes(gd, entrySize), entrySize) == Ok(gd) <==>
            (entrySize >= 64 ||
             (gd.blockBitmap < 0x1_0000_0000 && gd.inodeBitmap < 0x1_0000_0000 && gd.inodeTable < 0x1_0000_0000
              && gd.freeBlocksCount < 0x1_0000 && gd.freeInodesCount < 0x1_0000 && gd.usedDirsCount < 0x1_0000))
  {
    hide Put, LE16, LE32, U16, U32, Zeros, GroupLow, GroupHigh;
    var z := Zeros(entrySize);
    ReadGroupLow(gd, z);
    if entrySize >= 64 {
      ReadGroupHigh(gd, GroupLow(gd, z));
    }
  }

  lemma ReadGroupLow(gd: GroupDescriptor, z: seq<byte>)
    requires |z| >= 32
    ensures var s := GroupLow(gd, z);
      && U32(s, 0x00) == gd.blockBitmap % 0x1_0000_0000 && U32(s, 0x04) == gd.inodeBitmap % 0x1_0000_0000
      && U32(s, 0x08) == gd.inodeTable % 0x1_0000_0000
      && U16(s, 0x0C) == gd.freeBlocksCount % 0x1_0000 && U16(s, 0x0E) == gd.freeInodesCount % 0x1_0000
      && U16(s, 0x10) == gd.usedDirsCount % 0x1_0000 && U16(s, 0x12) == gd.flags && U16(s, 0x1E) == gd.checksum
  {
    hide Put, LE16, LE32, U16, U32;
    PutFields();
  }

  lemma ReadGroupHigh(gd: GroupDescriptor, z: seq<byte>)
    requires |z| >= 64
    ensures var s := GroupHigh(gd, z);
      && U32(s, 0x00) == U32(z, 0x00) && U32(s, 0x04) == U32(z, 0x04) && U32(s, 0x08) == U32(z, 0x08)
      && U16(s, 0x0C) == U16(z, 0x0C) && U16(s, 0x0E) == U16(z, 0x0E) && U16(s, 0x10) == U16(z, 0x10)
      && U16(s, 0x12) == U16(z, 0x12) && U16(s, 0x1E) == U16(z, 0x1E)
      && U32(s, 0x20) == gd.blockBitmap / 0x1_0000_0000 && U32(s, 0x24) == gd.inodeBitmap / 0x1_0000_0000
      && U32(s, 0x28) == gd.inodeTable / 0x1_0000_0000
      && U16(s, 0x2C) == gd.freeBlocksCount / 0x1_0000 && U16(s, 0x2E) == gd.freeInodesCount / 0x1_0000
      && U16(s, 0x30) == gd.usedDirsCount / 0x1_0000
  {
    hide Put, LE16, LE32, U16, U32;
    PutFields();
  }

  lemma GroupBefore(gd: GroupDescriptor, z: seq<byte>, tail: seq<byte>)
    requires |z| >= 32
    ensures GroupLow(gd, z + tail) == GroupLow(gd, z) + tail
    ensures |z| >= 64 ==> GroupHigh(gd, GroupLow(gd, z) + tail) == GroupHigh(gd, GroupLow(gd, z)) + tail
  {
    hide Put, LE16, LE32;
    PutBefore(tail);
  }

  method EncodeGroupDescriptorInto(gd: GroupDescriptor, buf: array<byte>, entrySize: u16) returns (r: Result<Unit>)
    modifies buf
    ensures r == if entrySize < 32 || buf.Length < entrySize then Err(GroupDescriptorEncode) else Ok(Unit.Unit)
    ensures r.Ok? ==> buf[..] == Put(old(buf[..]), 0, GroupDescriptorBytes(gd, entrySize))
    ensures r.Ok? && buf.Length == entrySize ==> buf[..] == GroupDescriptorBytes(gd, entrySize)
    ensures r.Err? ==> buf[..] == old(buf[..])
  {
    if entrySize < 32 || buf.Length < entrySize {
      return Err(GroupDescriptorEncode);
    }
    FillZero(buf, 0, entrySize);
    ghost var z, tail := buf[..], old(buf[..])[entrySize..];
    PutHead(old(buf[..]), Zeros(entrySize));
    GroupBefore(gd, Zeros(entrySize), tail);
    PutHead(old(buf[..]), GroupDescriptorBytes(gd, entrySize));
    hide Put, LE16, LE32, Zeros;
    WriteU32(buf, 0x00, gd.blockBitmap % 0x1_0000_0000);
    WriteU32(buf, 0x04, gd.inodeBitmap % 0x1_0000_0000);
    WriteU32(buf, 0x08, gd.inodeTable % 0x1_0000_0000);
    WriteU16(buf, 0x0C, gd.freeBlocksCount % 0x1_0000);
    WriteU16(buf, 0x0E, gd.freeInodesCount % 0x1_0000);
    WriteU16(buf, 0x10, gd.usedDirsCount % 0x1_0000);
    WriteU16(buf, 0x12, gd.flags);
    WriteU16(buf, 0x1E, gd.checksum);
    assert buf[..] == GroupLow(gd, z);
    if entrySize >= 64 {
      WriteU32(buf, 0x20, gd.blockBitmap / 0x1_0000_0000);
      WriteU32(buf, 0x24, gd.inodeBitmap / 0x1_0000_0000);
      WriteU32(buf, 0x28, gd.inodeTable / 0x1_0000_0000);
      WriteU16(buf, 0x2C, gd.freeBlocksCount / 0x1_0000);
      WriteU16(buf, 0x2E, gd.freeInodesCount / 0x1_0000);
      WriteU16(buf, 0x30, gd.usedDirsCount / 0x1_0000);
      assert buf[..] == GroupHigh(gd, GroupLow(gd, z));
    }
    return Ok(Unit.Unit);
  }
}
