/** Inode records (spec/src/inode.rs). */
module Inodes {
  import opened Bytes
  import opened Results

  const I_BLOCK_LEN := 60
  const MIN_INODE_SIZE := 128
  const FLAG_EXTENTS: u32 := 0x0008_0000

  type IBlock = s: seq<byte> | |s| == I_BLOCK_LEN witness Zeros(I_BLOCK_LEN)

  datatype Inode = Inode(
    mode: u16, uid: u32, gid: u32, size: u64,
    atime: u32, ctime: u32, mtime: u32, dtime: u32,
    linksCount: u16, blocksLo: u32, blocksHi: u16, flags: u32,
    block: IBlock, generation: u32, fileAclLo: u32, fileAclHi: u16)
  {
    /** The top four bits of the mode: 4 directory, 8 regular, 10 symlink. */
    function FileType(): nat { mode / 0x1000 }

    predicate IsDirectory() { FileType() == 4 }
    predicate IsRegular() { FileType() == 8 }
    predicate IsSymlink() { FileType() == 10 }
    predicate UsesExtents() { flags / FLAG_EXTENTS % 2 == 1 }
  }

  function Fields(buf: seq<byte>): Inode
    requires |buf| >= MIN_INODE_SIZE
  {
    Inode(
      U16(buf, 0x00),
      U16(buf, 0x78) * 0x1_0000 + U16(buf, 0x02),
      U16(buf, 0x7A) * 0x1_0000 + U16(buf, 0x18),
      U32(buf, 0x6C) * 0x1_0000_0000 + U32(buf, 0x04),
      U32(buf, 0x08), U32(buf, 0x0C), U32(buf, 0x10), U32(buf, 0x14),
      U16(buf, 0x1A), U32(buf, 0x1C), U16(buf, 0x74), U32(buf, 0x20),
      buf[0x28..0x64], U32(buf, 0x64), U32(buf, 0x68), U16(buf, 0x76))
  }

  function Decode(buf: seq<byte>, inodeSize: u16): Result<Inode> {
    if inodeSize < MIN_INODE_SIZE || |buf| < inodeSize then Err(InodeDecode)
    else Ok(Fields(buf))
  }

  function WithLowFields(i: Inode, z: seq<byte>): (bs: seq<byte>)
    requires |z| >= MIN_INODE_SIZE
    ensures |bs| == |z|
  {
    var a := Put(Put(Put(z, 0x00, LE16(i.mode)), 0x02, LE16(i.uid % 0x1_0000)), 0x04, LE32(i.size % 0x1_0000_0000));
    var b := Put(Put(Put(Put(a, 0x08, LE32(i.atime)), 0x0C, LE32(i.ctime)), 0x10, LE32(i.mtime)), 0x14, LE32(i.dtime));
    Put(Put(Put(Put(b, 0x18, LE16(i.gid % 0x1_0000)), 0x1A, LE16(i.linksCount)), 0x1C, LE32(i.blocksLo)), 0x20,
      LE32(i.flags))
  }

  function WithHighFields(i: Inode, z: seq<byte>): (bs: seq<byte>)
    requires |z| >= MIN_INODE_SIZE
    ensures |bs| == |z|
  {
    var a := Put(Put(Put(z, 0x28, i.block), 0x64, LE32(i.generation)), 0x68, LE32(i.fileAclLo));
    var b := Put(Put(Put(a, 0x6C, LE32(i.size / 0x1_0000_0000)), 0x74, LE16(i.blocksHi)), 0x76, LE16(i.fileAclHi));
    Put(Put(b, 0x78, LE16(i.uid / 0x1_0000)), 0x7A, LE16(i.gid / 0x1_0000))
  }

  /** The record written over `inodeSize` zeroed bytes. */
  function Encoded(i: Inode, inodeSize: u16): (bs: seq<byte>)
    requires inodeSize >= MIN_INODE_SIZE
    ensures |bs| == inodeSize
  {
    WithHighFields(i, WithLowFields(i, Zeros(inodeSize)))
  }

  /** Every inode survives the round trip, at every record size the superblock may name. */
  lemma InodeRoundTrip(i: Inode, inodeSize: u16)
    requires inodeSize >= MIN_INODE_SIZE
    ensures Decode(Encoded(i, inodeSize), inodeSize) == Ok(i)
  {
    hide Put, LE16, LE32, U16, U32, Zeros, WithLowFields, WithHighFields;
    var z := WithLowFields(i, Zeros(inodeSize));
    LowFields(i, Zeros(inodeSize));
    HighFields(i, z);
  }

  lemma LowFields(i: Inode, z: seq<byte>)
    requires |z| >= MIN_INODE_SIZE
    ensures var s := WithLowFields(i, z);
      && U16(s, 0x00) == i.mode && U16(s, 0x02) == i.uid % 0x1_0000 && U32(s, 0x04) == i.size % 0x1_0000_0000
      && U32(s, 0x08) == i.atime && U32(s, 0x0C) == i.ctime && U32(s, 0x10) == i.mtime && U32(s, 0x14) == i.dtime
      && U16(s, 0x18) == i.gid % 0x1_0000 && U16(s, 0x1A) == i.linksCount && U32(s, 0x1C) == i.blocksLo
      && U32(s, 0x20) == i.flags
  {
    hide Put, LE16, LE32, U16, U32;
    PutFields();
  }

  lemma HighFields(i: Inode, z: seq<byte>)
    requires |z| >= MIN_INODE_SIZE
    ensures var s := WithHighFields(i, z);
      && U16(s, 0x00) == U16(z, 0x00) && U16(s, 0x02) == U16(z, 0x02) && U32(s, 0x04) == U32(z, 0x04)
      && U32(s, 0x08) == U32(z, 0x08) && U32(s, 0x0C) == U32(z, 0x0C) && U32(s, 0x10) == U32(z, 0x10)
      && U32(s, 0x14) == U32(z, 0x14)
      && U16(s, 0x18) == U16(z, 0x18) && U16(s, 0x1A) == U16(z, 0x1A) && U32(s, 0x1C) == U32(z, 0x1C)
      && U32(s, 0x20) == U32(z, 0x20)
      && s[0x28..0x64] == i.block && U32(s, 0x64) == i.generation && U32(s, 0x68) == i.fileAclLo
      && U32(s, 0x6C) == i.size / 0x1_0000_0000 && U16(s, 0x74) == i.blocksHi && U16(s, 0x76) == i.fileAclHi
      && U16(s, 0x78) == i.uid / 0x1_0000 && U16(s, 0x7A) == i.gid / 0x1_0000
  {
    hide Put, LE16, LE32, U16, U32;
    PutFields();
    var a0 := Put(z, 0x28, i.block);
    var a1 := Put(a0, 0x64, LE32(i.generation));
    var a2 := Put(a1, 0x68, LE32(i.fileAclLo));
    var a3 := Put(a2, 0x6C, LE32(i.size / 0x1_0000_0000));
    var a4 := Put(a3, 0x74, LE16(i.blocksHi));
    var a5 := Put(a4, 0x76, LE16(i.fileAclHi));
    var a6 := Put(a5, 0x78, LE16(i.uid / 0x1_0000));
    PutSlice(z, 0x28, i.block, 0x28, 0x64);
    PutSlice(a0, 0x64, LE32(i.generation), 0x28, 0x64);
    PutSlice(a1, 0x68, LE32(i.fileAclLo), 0x28, 0x64);
    PutSlice(a2, 0x6C, LE32(i.size / 0x1_0000_0000), 0x28, 0x64);
    PutSlice(a3, 0x74, LE16(i.blocksHi), 0x28, 0x64);
    PutSlice(a4, 0x76, LE16(i.fileAclHi), 0x28, 0x64);
    PutSlice(a5, 0x78, LE16(i.uid / 0x1_0000), 0x28, 0x64);
    PutSlice(a6, 0x7A, LE16(i.gid / 0x1_0000), 0x28, 0x64);
  }

  lemma LowBefore(i: Inode, z: seq<byte>, tail: seq<byte>)
    requires |z| >= MIN_INODE_SIZE
    ensures WithLowFields(i, z + tail) == WithLowFields(i, z) + tail
  {
    hide Put, LE16, LE32;
    PutBefore(tail);
  }

  lemma HighBefore(i: Inode, z: seq<byte>, tail: seq<byte>)
    requires |z| >= MIN_INODE_SIZE
    ensures WithHighFields(i, z + tail) == WithHighFields(i, z) + tail
  {
    hide Put, LE16, LE32;
    PutBefore(tail);
  }

  /** Bytes past the record are the caller's. */
  method EncodeInto(i: Inode, buf: array<byte>, inodeSize: u16) returns (r: Result<Unit>)
    modifies buf
    ensures r == if inodeSize < MIN_INODE_SIZE || buf.Length < inodeSize then Err(InodeEncode) else Ok(Unit.Unit)
    ensures r.Ok? ==> buf[..] == Put(old(buf[..]), 0, Encoded(i, inodeSize))
    ensures r.Ok? && buf.Length == inodeSize ==> buf[..] == Encoded(i, inodeSize)
    ensures r.Err? ==> buf[..] == old(buf[..])
  {
    if inodeSize < MIN_INODE_SIZE || buf.Length < inodeSize {
      return Err(InodeEncode);
    }
    FillZero(buf, 0, inodeSize);
    ghost var z, tail := buf[..], old(buf[..])[inodeSize..];
    PutHead(old(buf[..]), Zeros(inodeSize));
    LowBefore(i, Zeros(inodeSize), tail);
    HighBefore(i, WithLowFields(i, Zeros(inodeSize)), tail);
    PutHead(old(buf[..]), Encoded(i, inodeSize));
    hide Put, LE16, LE32, Zeros;
    WriteU16(buf, 0x00, i.mode);
    WriteU16(buf, 0x02, i.uid % 0x1_0000);
    WriteU32(buf, 0x04, i.size % 0x1_0000_0000);
    WriteU32(buf, 0x08, i.atime);
    WriteU32(buf, 0x0C, i.ctime);
    WriteU32(buf, 0x10, i.mtime);
    WriteU32(buf, 0x14, i.dtime);
    WriteU16(buf, 0x18, i.gid % 0x1_0000);
    WriteU16(buf, 0x1A, i.linksCount);
    WriteU32(buf, 0x1C, i.blocksLo);
    WriteU32(buf, 0x20, i.flags);
    assert buf[..] == WithLowFields(i, z);
    CopyFromSlice(buf, 0x28, i.block);
    WriteU32(buf, 0x64, i.generation);
    WriteU32(buf, 0x68, i.fileAclLo);
    WriteU32(buf, 0x6C, i.size / 0x1_0000_0000);
    WriteU16(buf, 0x74, i.blocksHi);
    WriteU16(buf, 0x76, i.fileAclHi);
    WriteU16(buf, 0x78, i.uid / 0x1_0000);
    WriteU16(buf, 0x7A, i.gid / 0x1_0000);
    assert buf[..] == WithHighFields(i, WithLowFields(i, z));
    return Ok(Unit.Unit);
  }
}
