/** The fixed records byte by byte: inode, superblock, group descriptor. As in Formats, nothing
    here is used by the codecs themselves. */
module Layouts {
  import opened Bytes
  import opened Results
  import opened Superblocks
  import opened Bitmap
  import opened ExtentTrees
  import opened Disks
  import opened Images
  import opened Formats
  import Inodes

  /** A byte outside what is written stays. */
  lemma PutElsewhere()
    ensures forall s: seq<byte>, off: nat, bs, j {:trigger Put(s, off, bs)[j]} ::
      off + |bs| <= |s| && 0 <= j < |s| && (j < off || off + |bs| <= j) ==> Put(s, off, bs)[j] == s[j]
  {
  }

  // ----- inodes -----

  predicate InodeIs(i: Inodes.Inode, s: seq<byte>)
    requires |s| >= 128
  {
    && i.mode == Le(s, 0x00, 2) && i.uid == Le(s, 0x02, 2) + 0x1_0000 * Le(s, 0x78, 2)
    && i.size == Le(s, 0x04, 4) + 0x1_0000_0000 * Le(s, 0x6C, 4)
    && i.atime == Le(s, 0x08, 4) && i.ctime == Le(s, 0x0C, 4) && i.mtime == Le(s, 0x10, 4) && i.dtime == Le(s, 0x14, 4)
    && i.gid == Le(s, 0x18, 2) + 0x1_0000 * Le(s, 0x7A, 2) && i.linksCount == Le(s, 0x1A, 2)
    && i.blocksLo == Le(s, 0x1C, 4) && i.blocksHi == Le(s, 0x74, 2) && i.flags == Le(s, 0x20, 4)
    && i.block == s[0x28..0x64] && i.generation == Le(s, 0x64, 4)
    && i.fileAclLo == Le(s, 0x68, 4) && i.fileAclHi == Le(s, 0x76, 2)
  }

  lemma InodeLayout(buf: seq<byte>, inodeSize: u16)
    ensures if inodeSize < 128 || |buf| < inodeSize then Inodes.Decode(buf, inodeSize) == Err(InodeDecode)
            else Inodes.Decode(buf, inodeSize).Ok? && InodeIs(Inodes.Decode(buf, inodeSize).value, buf)
  {
    if |buf| >= 128 {
      FieldsAre(buf);
    }
    hide Inodes.Fields, InodeIs;
  }

  lemma FieldsAre(s: seq<byte>)
    requires |s| >= 128
    ensures InodeIs(Inodes.Fields(s), s)
  {
    forall off: nat | off + 4 <= |s| ensures U32(s, off) == Le(s, off, 4) && U16(s, off) == Le(s, off, 2) {
      LeFields(s, off);
    }
    hide Le, U16, U32;
  }

  /** An inode's bytes: its fields, and zeros between and after them. */
  lemma InodeBytes(i: Inodes.Inode, inodeSize: u16)
    requires inodeSize >= 128
    ensures var bs := Inodes.Encoded(i, inodeSize);
      && |bs| == inodeSize && InodeIs(i, bs)
      && forall j :: 0x24 <= j < 0x28 || 0x70 <= j < 0x74 || 0x7C <= j < inodeSize ==> bs[j] == 0
  {
    Inodes.InodeRoundTrip(i, inodeSize);
    InodeLayout(Inodes.Encoded(i, inodeSize), inodeSize);
    InodeGaps(i, inodeSize);
    hide Inodes.Encoded, InodeIs;
  }

  lemma InodeGaps(i: Inodes.Inode, inodeSize: u16)
    requires inodeSize >= 128
    ensures forall j :: 0x24 <= j < 0x28 || 0x70 <= j < 0x74 || 0x7C <= j < inodeSize ==>
      Inodes.Encoded(i, inodeSize)[j] == 0
  {
    PutElsewhere();
    hide Put, LE16, LE32;
  }

  /** The kind of an inode and whether it maps by extents, by the bits of its mode and flags. */
  lemma KindBits(i: Inodes.Inode)
    ensures i.IsDirectory() <==> i.mode / 0x1000 == 4
    ensures i.IsRegular() <==> i.mode / 0x1000 == 8
    ensures i.IsSymlink() <==> i.mode / 0x1000 == 10
    ensures i.UsesExtents() <==> i.flags / 0x8_0000 % 2 == 1
  {
  }

  // ----- the superblock -----

  predicate SuperblockIs(sb: Superblock, s: seq<byte>)
    requires |s| >= 1024
  {
    var wide := Le(s, 0x60, 4) / 0x80 % 2;
    && sb.inodesCount == Le(s, 0x00, 4) && sb.freeInodesCount == Le(s, 0x10, 4) && sb.firstDataBlock == Le(s, 0x14, 4)
    && sb.blocksCount == Le(s, 0x04, 4) + wide * 0x1_0000_0000 * Le(s, 0x150, 4)
    && sb.freeBlocksCount == Le(s, 0x0C, 4) + wide * 0x1_0000_0000 * Le(s, 0x158, 4)
    && sb.blocksPerGroup == Le(s, 0x20, 4) && sb.inodesPerGroup == Le(s, 0x28, 4)
    && sb.mtime == Le(s, 0x2C, 4) && sb.wtime == Le(s, 0x30, 4)
    && sb.mountCount == Le(s, 0x34, 2) && sb.maxMountCount == Le(s, 0x36, 2)
    && sb.state == Le(s, 0x3A, 2) && sb.errors == Le(s, 0x3C, 2) && sb.minorRevLevel == Le(s, 0x3E, 2)
    && sb.lastCheck == Le(s, 0x40, 4) && sb.checkInterval == Le(s, 0x44, 4) && sb.creatorOs == Le(s, 0x48, 4)
    && sb.revLevel == Le(s, 0x4C, 4) && sb.firstIno == Le(s, 0x54, 4)
    && sb.inodeSize == (if sb.revLevel == 0 || Le(s, 0x58, 2) == 0 then 128 else Le(s, 0x58, 2))
    && sb.featureCompat == Le(s, 0x5C, 4) && sb.featureIncompat == Le(s, 0x60, 4)
    && sb.featureRoCompat == Le(s, 0x64, 4)
    && sb.uuid == s[0x68..0x78] && sb.volumeName == s[0x78..0x88] && sb.hashSeed == s[0xEC..0xFC]
    && sb.defHashVersion == s[0xFC] && sb.descSize == Le(s, 0xFE, 2)
  }

  /** The block size is 1024 shifted by a stored exponent, of which four are allowed. */
  predicate SizeIs(blockSize: nat, log: nat) {
    (log == 0 && blockSize == 1024) || (log == 1 && blockSize == 2048) || (log == 2 && blockSize == 4096)
    || (log == 6 && blockSize == 65536)
  }

  lemma SuperblockLayout(s: seq<byte>)
    ensures DecodeSuperblock(s).Ok? <==>
      |s| >= 1024 && Le(s, 0x38, 2) == 0xEF53 && (Le(s, 0x18, 4) in {0, 1, 2, 6})
    ensures DecodeSuperblock(s).Ok? ==>
      var sb := DecodeSuperblock(s).value; SuperblockIs(sb, s) && SizeIs(sb.blockSize, Le(s, 0x18, 4))
    ensures DecodeSuperblock(s).Err? ==> DecodeSuperblock(s) == Err(SuperblockDecode)
  {
    hide DecodeSuperblock, SuperblockIs, SizeIs, Le;
    SuperblockAccepted(s);
    if DecodeSuperblock(s).Ok? {
      SuperblockFields(s);
    }
  }

  lemma SuperblockAccepted(s: seq<byte>)
    ensures DecodeSuperblock(s).Ok? <==>
      |s| >= 1024 && Le(s, 0x38, 2) == 0xEF53 && (Le(s, 0x18, 4) in {0, 1, 2, 6})
    ensures DecodeSuperblock(s).Ok? ==> SizeIs(DecodeSuperblock(s).value.blockSize, Le(s, 0x18, 4))
    ensures DecodeSuperblock(s).Err? ==> DecodeSuperblock(s) == Err(SuperblockDecode)
  {
    hide Le, U16, U32;
    if |s| >= 1024 {
      LeFields(s, 0x38);
      LeFields(s, 0x18);
    }
  }

  lemma SuperblockFields(s: seq<byte>)
    requires DecodeSuperblock(s).Ok?
    ensures |s| >= 1024 && SuperblockIs(DecodeSuperblock(s).value, s)
  {
    hide Le, U16, U32;
    forall off: nat | off + 4 <= |s| ensures U32(s, off) == Le(s, off, 4) && U16(s, off) == Le(s, off, 2) {
      LeFields(s, off);
    }
  }

  /** A byte no field of the superblock covers. */
  predicate SuperblockGap(j: nat) {
    0x08 <= j < 0x0C || 0x50 <= j < 0x54 || 0x5A <= j < 0x5C || 0x88 <= j < 0xEC || j == 0xFD
    || 0x100 <= j < 0x150 || 0x154 <= j < 0x158 || 0x15C <= j < 1024
  }

  lemma SuperblockEncoded(sb: Superblock)
    requires LogOfBlockSize(sb.blockSize).Some? && Faithful(sb)
    ensures var bs := SuperblockBytes(sb);
      && |bs| == 1024 && SuperblockIs(sb, bs) && Le(bs, 0x38, 2) == 0xEF53 && SizeIs(sb.blockSize, Le(bs, 0x18, 4))
      && Le(bs, 0x1C, 4) == Le(bs, 0x18, 4) && Le(bs, 0x24, 4) == Le(bs, 0x20, 4)
      && forall j :: 0 <= j < 1024 && SuperblockGap(j) ==> bs[j] == 0
  {
    SuperblockRoundTrip(sb);
    SuperblockLayout(SuperblockBytes(sb));
    SuperblockTwins(sb);
    SuperblockGaps(sb);
    hide SuperblockBytes, SuperblockIs, Le, SuperblockGap;
  }

  lemma SuperblockGaps(sb: Superblock)
    requires LogOfBlockSize(sb.blockSize).Some?
    ensures forall j :: 0 <= j < 1024 && SuperblockGap(j) ==> SuperblockBytes(sb)[j] == 0
  {
    var log, z := LogOfBlockSize(sb.blockSize).value, Zeros(1024);
    var s1 := Stretch1(sb, log, z);
    var s2 := Stretch2(sb, s1);
    Gaps1(sb, log, z);
    Gaps2(sb, s1);
    Gaps3(sb, s2);
    hide Stretch1, Stretch2, Stretch3, SuperblockGap;
  }

  lemma Gaps1(sb: Superblock, log: u32, z: seq<byte>)
    requires |z| == 1024
    ensures forall j :: 0 <= j < 1024 && SuperblockGap(j) ==> Stretch1(sb, log, z)[j] == z[j]
  {
    PutElsewhere();
    hide Put, LE16, LE32;
  }

  lemma Gaps2(sb: Superblock, z: seq<byte>)
    requires |z| == 1024
    ensures forall j :: 0 <= j < 1024 && SuperblockGap(j) ==> Stretch2(sb, z)[j] == z[j]
  {
    PutElsewhere();
    hide Put, LE16, LE32;
  }

  lemma Gaps3(sb: Superblock, z: seq<byte>)
    requires |z| == 1024
    ensures forall j :: 0 <= j < 1024 && SuperblockGap(j) ==> Stretch3(sb, z)[j] == z[j]
  {
    PutElsewhere();
    hide Put, LE16, LE32;
  }

  /** The fragment and cluster fields repeat the block fields. */
  lemma SuperblockTwins(sb: Superblock)
    requires LogOfBlockSize(sb.blockSize).Some?
    ensures var bs := SuperblockBytes(sb); Le(bs, 0x1C, 4) == Le(bs, 0x18, 4) && Le(bs, 0x24, 4) == Le(bs, 0x20, 4)
  {
    var log, z := LogOfBlockSize(sb.blockSize).value, Zeros(1024);
    var s1 := Stretch1(sb, log, z);
    var s2 := Stretch2(sb, s1);
    var bs := SuperblockBytes(sb);
    Twins1(sb, log, z);
    KeptBelow(sb, s1, s2);
    LeFields(bs, 0x18);
    LeFields(bs, 0x1C);
    LeFields(bs, 0x20);
    LeFields(bs, 0x24);
    hide Stretch1, Stretch2, Stretch3, Le, U32, U16;
  }

  lemma Twins1(sb: Superblock, log: u32, z: seq<byte>)
    requires |z| == 1024
    ensures var s := Stretch1(sb, log, z);
      && U32(s, 0x18) == log && U32(s, 0x1C) == log
      && U32(s, 0x20) == sb.blocksPerGroup && U32(s, 0x24) == sb.blocksPerGroup
  {
    PutFields();
    hide Put, LE32, U32, U16;
  }

  lemma KeptBelow(sb: Superblock, s1: seq<byte>, s2: seq<byte>)
    requires |s1| == 1024 && s2 == Stretch2(sb, s1)
    ensures forall off: nat {:trigger U32(s1, off)} :: 0x18 <= off <= 0x24 ==>
      off + 4 <= |s1| && U32(Stretch3(sb, s2), off) == U32(s1, off)
  {
    forall off: nat | 0x18 <= off <= 0x24 ensures U32(Stretch3(sb, s2), off) == U32(s1, off) {
      PutFields();
      hide Put, LE32, LE16, U32, U16;
    }
  }

  // ----- the group descriptor -----

  predicate DescriptorIs(gd: GroupDescriptor, s: seq<byte>, entrySize: nat)
    requires |s| >= entrySize >= 32
  {
    && gd.flags == Le(s, 0x12, 2) && gd.checksum == Le(s, 0x1E, 2)
    && if entrySize < 64 then
         && gd.blockBitmap == Le(s, 0x00, 4) && gd.inodeBitmap == Le(s, 0x04, 4) && gd.inodeTable == Le(s, 0x08, 4)
         && gd.freeBlocksCount == Le(s, 0x0C, 2) && gd.freeInodesCount == Le(s, 0x0E, 2)
         && gd.usedDirsCount == Le(s, 0x10, 2)
       else
         && gd.blockBitmap == Le(s, 0x00, 4) + 0x1_0000_0000 * Le(s, 0x20, 4)
         && gd.inodeBitmap == Le(s, 0x04, 4) + 0x1_0000_0000 * Le(s, 0x24, 4)
         && gd.inodeTable == Le(s, 0x08, 4) + 0x1_0000_0000 * Le(s, 0x28, 4)
         && gd.freeBlocksCount == Le(s, 0x0C, 2) + 0x1_0000 * Le(s, 0x2C, 2)
         && gd.freeInodesCount == Le(s, 0x0E, 2) + 0x1_0000 * Le(s, 0x2E, 2)
         && gd.usedDirsCount == Le(s, 0x10, 2) + 0x1_0000 * Le(s, 0x30, 2)
  }

  lemma DescriptorLayout(s: seq<byte>, entrySize: u16)
    ensures if entrySize < 32 || |s| < entrySize then DecodeGroupDescriptor(s, entrySize) == Err(GroupDescriptorDecode)
            else
              && DecodeGroupDescriptor(s, entrySize).Ok?
              && DescriptorIs(DecodeGroupDescriptor(s, entrySize).value, s, entrySize)
  {
    forall off: nat | off + 4 <= |s| ensures U32(s, off) == Le(s, off, 4) && U16(s, off) == Le(s, off, 2) {
      LeFields(s, off);
    }
    if |s| >= 32 {
      LeFields(s, 0x1E);
    }
    if |s| >= 64 {
      LeFields(s, 0x30);
    }
    hide Le, U16, U32;
  }

  /** A descriptor that fits its entry: its fields, and zeros elsewhere. */
  lemma DescriptorEncoded(gd: GroupDescriptor, entrySize: u16)
    requires entrySize >= 32 && DecodeGroupDescriptor(GroupDescriptorBytes(gd, entrySize), entrySize) == Ok(gd)
    ensures var bs := GroupDescriptorBytes(gd, entrySize);
      && |bs| == entrySize && DescriptorIs(gd, bs, entrySize)
      && forall j :: 0x14 <= j < 0x1E || 0x32 <= j < entrySize || (entrySize < 64 && 0x20 <= j < entrySize) ==>
           bs[j] == 0
  {
    DescriptorLayout(GroupDescriptorBytes(gd, entrySize), entrySize);
    DescriptorGaps(gd, entrySize);
    hide GroupDescriptorBytes, DescriptorIs;
  }

  lemma DescriptorGaps(gd: GroupDescriptor, entrySize: u16)
    requires entrySize >= 32
    ensures forall j :: 0x14 <= j < 0x1E || 0x32 <= j < entrySize || (entrySize < 64 && 0x20 <= j < entrySize) ==>
      GroupDescriptorBytes(gd, entrySize)[j] == 0
  {
    PutElsewhere();
    hide Put, LE16, LE32;
  }

  // ----- the whole image -----

  /** Where everything lies: what an open image's bytes say, structure by structure. */
  ghost predicate ViewIs(image: seq<byte>, sb: Superblock, gd: GroupDescriptor, d: Disk) {
    var size := sb.blockSize;
    && d.sb == sb && d.gd == gd && HeadersAt(image, size, d)
    && |d.blockBits| == 8 * size && BitsAt(image, gd.blockBitmap * size, d.blockBits)
    && |d.inodeBits| == 8 * size && BitsAt(image, gd.inodeBitmap * size, d.inodeBits)
    && |d.inodes| == sb.inodesCount && TableAt(image, gd.inodeTable * size, d.inodes)
    && |d.data| == sb.blocksCount && size > 0
    && BlocksAt(image, size, 4 + (sb.inodesCount * 256 + size - 1) / size, d.data)
  }

  predicate HeadersAt(image: seq<byte>, size: nat, d: Disk) {
    && 2048 <= |image| && d.storedSb == DecodeSuperblock(image[1024..2048])
    && size + 32 <= |image| && d.storedGd == DecodeGroupDescriptor(image[size..size + 32], 32)
  }

  /** The lowest bit of each byte comes first. */
  ghost predicate BitsAt(image: seq<byte>, at: nat, bits: seq<bool>) {
    forall b :: 0 <= b < |bits| ==>
      && at + b / 8 < |image|
      && (bits[b] <==> image[at + b / 8] / [1, 2, 4, 8, 16, 32, 64, 128][b % 8] % 2 == 1)
  }

  /** Records of 256 bytes. */
  ghost predicate TableAt(image: seq<byte>, at: nat, inodes: seq<Inodes.Inode>) {
    forall i :: 0 <= i < |inodes| ==> RecordAt(image, at + i * 256, inodes[i])
  }

  predicate RecordAt(image: seq<byte>, at: nat, i: Inodes.Inode) {
    at + 256 <= |image| && InodeIs(i, image[at..at + 256])
  }

  ghost predicate BlocksAt(image: seq<byte>, size: nat, first: nat, data: seq<seq<byte>>) {
    forall b :: first <= b < |data| ==> BlockHolds(image, size, b, data[b])
  }

  predicate BlockHolds(image: seq<byte>, size: nat, b: nat, bs: seq<byte>) {
    b * size + size <= |image| && bs == image[b * size..b * size + size]
  }

  lemma ViewLayout(image: seq<byte>, sb: Superblock, gd: GroupDescriptor)
    requires Holds(image, sb, gd)
    ensures ViewIs(image, sb, gd, ViewOf(image, sb, gd))
  {
    hide DecodeSuperblock, DecodeGroupDescriptor, Bits, BitsAt, TableAt, BlocksAt, InodesOf, DataOf, FirstData;
    Regions(image, sb, gd);
    ViewSized(image, sb, gd);
    BitmapAt(image, sb.blockSize, 2);
    BitmapAt(image, sb.blockSize, 3);
    TableIs(image, sb, gd);
    BlocksAre(image, sb, gd);
  }

  lemma BitmapAt(image: seq<byte>, size: nat, block: nat)
    requires InImage(image, size, block)
    ensures BitsAt(image, block * size, Bits(Block(image, size, block)))
  {
    var buf := Block(image, size, block);
    hide Bits;
    assert block * size + size == (block + 1) * size;
    forall b | 0 <= b < 8 * |buf|
      ensures block * size + b / 8 < |image| && buf[b / 8] == image[block * size + b / 8]
    {
    }
    forall b | 0 <= b < 8 * |buf|
      ensures Bits(buf)[b] <==> buf[b / 8] / [1, 2, 4, 8, 16, 32, 64, 128][b % 8] % 2 == 1
    {
      BitsAre(buf, b);
    }
  }

  lemma TableIs(image: seq<byte>, sb: Superblock, gd: GroupDescriptor)
    requires Holds(image, sb, gd)
    ensures TableAt(image, gd.inodeTable * sb.blockSize, ViewOf(image, sb, gd).inodes)
  {
    hide DecodeSuperblock, DecodeGroupDescriptor, Bits, DataOf, FirstData, InodeIs, Inodes.Fields;
    Regions(image, sb, gd);
    var d, at := ViewOf(image, sb, gd), gd.inodeTable * sb.blockSize;
    forall i | 0 <= i < |d.inodes| ensures RecordAt(image, at + i * 256, d.inodes[i]) {
      assert InodeOffset(sb.blockSize, i) == at + i * 256;
      MulMono(i + 1, sb.inodesCount, 256);
      FieldsAre(image[at + i * 256..at + i * 256 + 256]);
    }
  }

  lemma BlocksAre(image: seq<byte>, sb: Superblock, gd: GroupDescriptor)
    requires Holds(image, sb, gd)
    ensures sb.blockSize > 0
    ensures var first := 4 + (sb.inodesCount * 256 + sb.blockSize - 1) / sb.blockSize;
      BlocksAt(image, sb.blockSize, first, ViewOf(image, sb, gd).data)
  {
    hide DecodeSuperblock, DecodeGroupDescriptor, Bits, InodesOf;
    Regions(image, sb, gd);
    var d := ViewOf(image, sb, gd);
    assert FirstData(sb) == 4 + (sb.inodesCount * 256 + sb.blockSize - 1) / sb.blockSize;
    hide FirstData;
    forall b | FirstData(sb) <= b < |d.data| ensures BlockHolds(image, sb.blockSize, b, d.data[b]) {
      assert b * sb.blockSize + sb.blockSize == (b + 1) * sb.blockSize;
    }
  }
}
