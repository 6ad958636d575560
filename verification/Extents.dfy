/** Extent-tree nodes (spec/src/extent.rs). */
module Extents {
  import opened Bytes
  import opened Results
  import Inodes

  const HEADER_MAGIC: u16 := 0xF30A
  const ENTRY_SIZE := 12
  const UNINIT_THRESHOLD := 32768

  datatype ExtentHeader = ExtentHeader(entries: u16, max: u16, depth: u16, generation: u32)
  datatype Extent = Extent(logical: u32, len: u16, physical: u64, uninit: bool)
  datatype ExtentIndex = ExtentIndex(logical: u32, leafBlock: u64)
  datatype ExtentNode =
    | Leaf(header: ExtentHeader, extents: seq<Extent>)
    | Internal(header: ExtentHeader, indices: seq<ExtentIndex>)

  function DecodeHeader(buf: seq<byte>): Result<ExtentHeader> {
    if |buf| < ENTRY_SIZE then Err(ExtentDecode)
    else if U16(buf, 0) != HEADER_MAGIC then Err(ExtentDecode)
    else Ok(ExtentHeader(U16(buf, 2), U16(buf, 4), U16(buf, 6), U32(buf, 8)))
  }

  function HeaderBytes(h: ExtentHeader): (bs: seq<byte>)
    ensures |bs| == ENTRY_SIZE
  {
    LE16(HEADER_MAGIC) + LE16(h.entries) + LE16(h.max) + LE16(h.depth) + LE32(h.generation)
  }

  function DecodeExtent(buf: seq<byte>): Extent
    requires |buf| == ENTRY_SIZE
  {
    var rawLen := U16(buf, 4);
    var physical := U16(buf, 6) * 0x1_0000_0000 + U32(buf, 8);
    if rawLen > UNINIT_THRESHOLD then Extent(U32(buf, 0), rawLen - UNINIT_THRESHOLD, physical, true)
    else Extent(U32(buf, 0), rawLen, physical, false)
  }

  /** The length field; the addition wraps at 16 bits. */
  function RawLen(e: Extent): u16 {
    if e.uninit then (e.len + UNINIT_THRESHOLD) % 0x1_0000 else e.len
  }

  function ExtentBytes(e: Extent): (bs: seq<byte>)
    ensures |bs| == ENTRY_SIZE
  {
    LE32(e.logical) + LE16(RawLen(e)) + LE16(e.physical / 0x1_0000_0000 % 0x1_0000) + LE32(e.physical % 0x1_0000_0000)
  }

  /** The extents a 12-byte record can say. */
  predicate Representable(e: Extent) {
    && e.physical < 0x1_0000_0000_0000
    && e.len <= UNINIT_THRESHOLD
    && (e.uninit ==> 1 <= e.len < UNINIT_THRESHOLD)
  }

  lemma ExtentFields(e: Extent)
    ensures var bs := ExtentBytes(e);
            && U32(bs, 0) == e.logical && U16(bs, 4) == RawLen(e)
            && U16(bs, 6) == e.physical / 0x1_0000_0000 % 0x1_0000 && U32(bs, 8) == e.physical % 0x1_0000_0000
  {
    var bs := ExtentBytes(e);
    U32RoundTrip(e.logical);
    U32RoundTrip(e.physical % 0x1_0000_0000);
    assert bs[0..4] == LE32(e.logical) && bs[8..12] == LE32(e.physical % 0x1_0000_0000);
    FieldAt(bs, 0, LE32(e.logical), 0);
    FieldAt(bs, 8, LE32(e.physical % 0x1_0000_0000), 0);
  }

  /** Exactly the representable extents survive encoding: an uninitialised
      extent of length 0 or 32768 comes back as something else. */
  lemma ExtentRoundTrip(e: Extent)
    ensures DecodeExtent(ExtentBytes(e)) == e <==> Representable(e)
  {
    ExtentFields(e);
    hide ExtentBytes, LE16, LE32, U16, U32;
    var high := e.physical / 0x1_0000_0000;
    assert e.physical == high * 0x1_0000_0000 + e.physical % 0x1_0000_0000;
    assert high % 0x1_0000 == high <==> high < 0x1_0000;
  }

  /** Every 12-byte string is the encoding of the representable extent it decodes to. */
  lemma ExtentBytesRoundTrip(bs: seq<byte>)
    requires |bs| == ENTRY_SIZE
    ensures Representable(DecodeExtent(bs)) && ExtentBytes(DecodeExtent(bs)) == bs
  {
    hide LE16, LE32, U16, U32;
    var e := DecodeExtent(bs);
    LE32RoundTrip(bs, 0);
    LE16RoundTrip(bs, 4);
    LE16RoundTrip(bs, 6);
    LE32RoundTrip(bs, 8);
    HighLow(U16(bs, 6), U32(bs, 8));
    assert RawLen(e) == U16(bs, 4);
    assert bs == bs[0..4] + bs[4..6] + bs[6..8] + bs[8..12];
  }

  /** A block number of 48 bits comes apart again. */
  lemma HighLow(high: u16, low: u32)
    ensures var v := high * 0x1_0000_0000 + low;
      v / 0x1_0000_0000 == high && v % 0x1_0000_0000 == low && v < 0x1_0000_0000_0000
  {
  }

  function DecodeIndex(buf: seq<byte>): ExtentIndex
    requires |buf| == ENTRY_SIZE
  {
    ExtentIndex(U32(buf, 0), U16(buf, 8) * 0x1_0000_0000 + U32(buf, 4))
  }

  function IndexBytes(x: ExtentIndex): (bs: seq<byte>)
    ensures |bs| == ENTRY_SIZE
  {
    LE32(x.logical) + LE32(x.leafBlock % 0x1_0000_0000) + LE16(x.leafBlock / 0x1_0000_0000 % 0x1_0000) + LE16(0)
  }

  /** Exactly the indices whose block fits 48 bits survive encoding. */
  lemma IndexRoundTrip(x: ExtentIndex)
    ensures DecodeIndex(IndexBytes(x)) == x <==> x.leafBlock < 0x1_0000_0000_0000
  {
    var bs, low := IndexBytes(x), LE32(x.leafBlock % 0x1_0000_0000);
    U32RoundTrip(x.logical);
    U32RoundTrip(x.leafBlock % 0x1_0000_0000);
    assert bs[0..4] == LE32(x.logical) && bs[4..8] == low;
    FieldAt(bs, 0, LE32(x.logical), 0);
    FieldAt(bs, 4, low, 0);
    var high := x.leafBlock / 0x1_0000_0000;
    assert U16(bs, 8) == high % 0x1_0000;
    hide LE32, LE16, U32, U16, IndexBytes;
    assert high % 0x1_0000 == high <==> high < 0x1_0000;
  }

  lemma ZeroField()
    ensures LE16(0) == [0, 0]
  {
  }

  /** Every 12-byte string whose last two bytes are zero is the encoding of the index it decodes to. */
  lemma IndexBytesRoundTrip(bs: seq<byte>)
    requires |bs| == ENTRY_SIZE
    ensures DecodeIndex(bs).leafBlock < 0x1_0000_0000_0000
    ensures IndexBytes(DecodeIndex(bs)) == bs <==> bs[10] == 0 && bs[11] == 0
  {
    hide LE32, LE16, U32, U16;
    var x := DecodeIndex(bs);
    LE32RoundTrip(bs, 0);
    LE32RoundTrip(bs, 4);
    LE16RoundTrip(bs, 8);
    ZeroField();
    HighLow(U16(bs, 8), U32(bs, 4));
    assert bs == bs[0..4] + bs[4..8] + bs[8..10] + bs[10..12];
    var made := IndexBytes(x);
    assert made == bs[0..4] + bs[4..8] + bs[8..10] + [0, 0];
    assert made[10] == 0 && made[11] == 0;
    if bs[10] == 0 && bs[11] == 0 {
      assert bs[10..12] == [0, 0];
    }
  }

  method EncodeIndexInto(x: ExtentIndex, buf: array<byte>) returns (r: Result<Unit>)
    modifies buf
    ensures r == if buf.Length < ENTRY_SIZE then Err(ExtentEncode) else Ok(Unit.Unit)
    ensures r.Ok? ==> buf[..] == Put(old(buf[..]), 0, IndexBytes(x))
    ensures r.Err? ==> buf[..] == old(buf[..])
  {
    if buf.Length < ENTRY_SIZE {
      return Err(ExtentEncode);
    }
    ghost var was := buf[..];
    WriteU32(buf, 0, x.logical);
    WriteU32(buf, 4, x.leafBlock % 0x1_0000_0000);
    WriteU16(buf, 8, x.leafBlock / 0x1_0000_0000 % 0x1_0000);
    WriteU16(buf, 10, 0);
    IndexInPlace(was, x);
    return Ok(Unit.Unit);
  }

  lemma IndexInPlace(s: seq<byte>, x: ExtentIndex)
    requires ENTRY_SIZE <= |s|
    ensures var high := LE16(x.leafBlock / 0x1_0000_0000 % 0x1_0000);
      Put(Put(Put(Put(s, 0, LE32(x.logical)), 4, LE32(x.leafBlock % 0x1_0000_0000)), 8, high), 10, LE16(0))
      == Put(s, 0, IndexBytes(x))
  {
    hide LE16, LE32;
    var low := LE32(x.leafBlock % 0x1_0000_0000);
    var a := Put(Put(s, 0, LE32(x.logical)), 4, low);
    assert a == Put(s, 0, LE32(x.logical) + low);
    var high := LE16(x.leafBlock / 0x1_0000_0000 % 0x1_0000);
    assert Put(a, 8, high) == Put(s, 0, LE32(x.logical) + low + high);
  }

  function Entry(buf: seq<byte>, i: nat): seq<byte>
    requires ENTRY_SIZE * (i + 2) <= |buf|
  {
    buf[ENTRY_SIZE * (i + 1)..ENTRY_SIZE * (i + 2)]
  }

  function DecodeExtents(buf: seq<byte>, n: nat): (r: seq<Extent>)
    requires ENTRY_SIZE * (n + 1) <= |buf|
    ensures |r| == n && forall i :: 0 <= i < n ==> r[i] == DecodeExtent(Entry(buf, i))
  {
    seq(n, i requires 0 <= i < n => DecodeExtent(Entry(buf, i)))
  }

  function DecodeIndices(buf: seq<byte>, n: nat): (r: seq<ExtentIndex>)
    requires ENTRY_SIZE * (n + 1) <= |buf|
    ensures |r| == n && forall i :: 0 <= i < n ==> r[i] == DecodeIndex(Entry(buf, i))
  {
    seq(n, i requires 0 <= i < n => DecodeIndex(Entry(buf, i)))
  }

  function DecodeNode(buf: seq<byte>): Result<ExtentNode> {
    var h :- DecodeHeader(buf);
    if |buf| < ENTRY_SIZE + h.entries * ENTRY_SIZE then Err(ExtentDecode)
    else if h.depth == 0 then
      Ok(Leaf(h, DecodeExtents(buf, h.entries)))
    else
      Ok(Internal(h, DecodeIndices(buf, h.entries)))
  }

  method DecodeExtentNode(buf: seq<byte>) returns (r: Result<ExtentNode>)
    ensures r == DecodeNode(buf)
  {
    var header :- DecodeHeader(buf);
    if |buf| < ENTRY_SIZE + header.entries * ENTRY_SIZE {
      return Err(ExtentDecode);
    }
    if header.depth == 0 {
      var extents: seq<Extent> := [];
      for i := 0 to header.entries
        invariant extents == DecodeExtents(buf, i)
      {
        extents := extents + [DecodeExtent(Entry(buf, i))];
      }
      return Ok(Leaf(header, extents));
    } else {
      var indices: seq<ExtentIndex> := [];
      for i := 0 to header.entries
        invariant indices == DecodeIndices(buf, i)
      {
        indices := indices + [DecodeIndex(Entry(buf, i))];
      }
      return Ok(Internal(header, indices));
    }
  }

  // ----- the leaf an inode carries in its 60-byte i_block -----

  function LeafHeader(n: u16): ExtentHeader {
    ExtentHeader(n, 4, 0, 0)
  }

  function Records(es: seq<Extent>): (bs: seq<byte>)
    ensures |bs| == ENTRY_SIZE * |es|
  {
    if |es| == 0 then [] else Records(es[..|es| - 1]) + ExtentBytes(es[|es| - 1])
  }

  function LeafBlock(es: seq<Extent>): (bs: seq<byte>)
    requires |es| <= 4
    ensures |bs| == Inodes.I_BLOCK_LEN
  {
    HeaderBytes(LeafHeader(|es|)) + Records(es) + Zeros(ENTRY_SIZE * (4 - |es|))
  }

  lemma {:induction false} RecordAt(es: seq<Extent>, i: nat)
    requires i < |es|
    ensures Records(es)[ENTRY_SIZE * i..ENTRY_SIZE * (i + 1)] == ExtentBytes(es[i])
  {
    hide ExtentBytes;
    var n := |es| - 1;
    if i < n {
      RecordAt(es[..n], i);
      assert Records(es)[ENTRY_SIZE * i..ENTRY_SIZE * (i + 1)] ==
        Records(es[..n])[ENTRY_SIZE * i..ENTRY_SIZE * (i + 1)];
    }
  }

  lemma HeaderRoundTrip(h: ExtentHeader, rest: seq<byte>)
    ensures DecodeHeader(HeaderBytes(h) + rest) == Ok(h)
  {
    U32RoundTrip(h.generation);
    var bs := HeaderBytes(h) + rest;
    assert bs[8..12] == LE32(h.generation);
    FieldAt(bs, 8, LE32(h.generation), 0);
  }

  /** Up to four representable extents fit the inode and decode back. */
  lemma LeafRoundTrip(es: seq<Extent>)
    requires |es| <= 4 && forall i :: 0 <= i < |es| ==> Representable(es[i])
    ensures DecodeNode(LeafBlock(es)) == Ok(Leaf(LeafHeader(|es|), es))
  {
    hide ExtentBytes, HeaderBytes, Records, DecodeHeader, DecodeExtent, Representable, Zeros;
    var bs := LeafBlock(es);
    HeaderRoundTrip(LeafHeader(|es|), Records(es) + Zeros(ENTRY_SIZE * (4 - |es|)));
    assert bs == HeaderBytes(LeafHeader(|es|)) + (Records(es) + Zeros(ENTRY_SIZE * (4 - |es|)));
    forall i | 0 <= i < |es| ensures DecodeExtent(Entry(bs, i)) == es[i] {
      RecordAt(es, i);
      assert Entry(bs, i) == Records(es)[ENTRY_SIZE * i..ENTRY_SIZE * (i + 1)];
      ExtentRoundTrip(es[i]);
    }
    assert DecodeExtents(bs, |es|) == es;
  }

  function IndexRecords(xs: seq<ExtentIndex>): (bs: seq<byte>)
    ensures |bs| == ENTRY_SIZE * |xs|
  {
    if |xs| == 0 then [] else IndexRecords(xs[..|xs| - 1]) + IndexBytes(xs[|xs| - 1])
  }

  lemma {:induction false} IndexRecordAt(xs: seq<ExtentIndex>, i: nat)
    requires i < |xs|
    ensures IndexRecords(xs)[ENTRY_SIZE * i..ENTRY_SIZE * (i + 1)] == IndexBytes(xs[i])
  {
    hide IndexBytes;
    var n := |xs| - 1;
    if i < n {
      IndexRecordAt(xs[..n], i);
      assert IndexRecords(xs)[ENTRY_SIZE * i..ENTRY_SIZE * (i + 1)] ==
        IndexRecords(xs[..n])[ENTRY_SIZE * i..ENTRY_SIZE * (i + 1)];
    }
  }

  /** An index node of any length decodes back, whatever follows its records. */
  lemma InternalRoundTrip(h: ExtentHeader, xs: seq<ExtentIndex>, rest: seq<byte>)
    requires h.entries == |xs| && h.depth > 0 && forall i :: 0 <= i < |xs| ==> xs[i].leafBlock < 0x1_0000_0000_0000
    ensures DecodeNode(HeaderBytes(h) + IndexRecords(xs) + rest) == Ok(Internal(h, xs))
  {
    hide IndexBytes, HeaderBytes, IndexRecords, DecodeHeader, DecodeIndex, DecodeIndices, DecodeNode;
    var bs := HeaderBytes(h) + IndexRecords(xs) + rest;
    HeaderRoundTrip(h, IndexRecords(xs) + rest);
    assert bs == HeaderBytes(h) + (IndexRecords(xs) + rest);
    IndicesDecode(HeaderBytes(h), xs, rest);
    NodeOfIndices(bs, h);
  }

  lemma NodeOfIndices(bs: seq<byte>, h: ExtentHeader)
    requires DecodeHeader(bs) == Ok(h) && h.depth > 0 && |bs| >= ENTRY_SIZE * (h.entries + 1)
    ensures DecodeNode(bs) == Ok(Internal(h, DecodeIndices(bs, h.entries)))
  {
    hide DecodeHeader, DecodeIndices;
  }

  lemma IndicesDecode(head: seq<byte>, xs: seq<ExtentIndex>, rest: seq<byte>)
    requires |head| == ENTRY_SIZE && forall i :: 0 <= i < |xs| ==> xs[i].leafBlock < 0x1_0000_0000_0000
    ensures DecodeIndices(head + IndexRecords(xs) + rest, |xs|) == xs
  {
    hide IndexBytes, IndexRecords, DecodeIndex;
    var bs := head + IndexRecords(xs) + rest;
    forall i | 0 <= i < |xs| ensures DecodeIndex(Entry(bs, i)) == xs[i] {
      IndexRecordAt(xs, i);
      IndexRoundTrip(xs[i]);
      Middle(head, IndexRecords(xs), rest, ENTRY_SIZE * i, ENTRY_SIZE * (i + 1));
    }
  }

  lemma Middle(a: seq<byte>, b: seq<byte>, c: seq<byte>, lo: nat, hi: nat)
    requires lo <= hi <= |b|
    ensures (a + b + c)[|a| + lo..|a| + hi] == b[lo..hi]
  {
  }

  method EncodeHeaderInto(h: ExtentHeader, buf: array<byte>) returns (r: Result<Unit>)
    modifies buf
    ensures r == if buf.Length < ENTRY_SIZE then Err(ExtentEncode) else Ok(Unit.Unit)
    ensures r.Ok? ==> buf[..] == Put(old(buf[..]), 0, HeaderBytes(h))
    ensures r.Err? ==> buf[..] == old(buf[..])
  {
    if buf.Length < ENTRY_SIZE {
      return Err(ExtentEncode);
    }
    ghost var was := buf[..];
    WriteU16(buf, 0, HEADER_MAGIC);
    WriteU16(buf, 2, h.entries);
    WriteU16(buf, 4, h.max);
    WriteU16(buf, 6, h.depth);
    WriteU32(buf, 8, h.generation);
    HeaderInPlace(was, h);
    return Ok(Unit.Unit);
  }

  lemma HeaderInPlace(s: seq<byte>, h: ExtentHeader)
    requires ENTRY_SIZE <= |s|
    ensures Put(Put(Put(Put(Put(s, 0, LE16(HEADER_MAGIC)), 2, LE16(h.entries)), 4, LE16(h.max)), 6, LE16(h.depth)), 8,
      LE32(h.generation))
         == Put(s, 0, HeaderBytes(h))
  {
    hide LE16, LE32;
    var a := Put(Put(s, 0, LE16(HEADER_MAGIC)), 2, LE16(h.entries));
    assert a == Put(s, 0, LE16(HEADER_MAGIC) + LE16(h.entries));
    var b := Put(Put(a, 4, LE16(h.max)), 6, LE16(h.depth));
    assert b == Put(s, 0, LE16(HEADER_MAGIC) + LE16(h.entries) + LE16(h.max) + LE16(h.depth));
  }

  method EncodeExtentInto(e: Extent, buf: array<byte>, off: nat) returns (r: Result<Unit>)
    requires off <= buf.Length
    modifies buf
    ensures r.Ok? <==> off + ENTRY_SIZE <= buf.Length && e.len <= UNINIT_THRESHOLD
    ensures r.Ok? ==> buf[..] == Put(old(buf[..]), off, ExtentBytes(e))
    ensures r.Err? ==> r == Err(ExtentEncode) && buf[..] == old(buf[..])
  {
    if buf.Length - off < ENTRY_SIZE {
      return Err(ExtentEncode);
    }
    if e.len > UNINIT_THRESHOLD {
      return Err(ExtentEncode);
    }
    ghost var was := buf[..];
    WriteU32(buf, off, e.logical);
    WriteU16(buf, off + 4, RawLen(e));
    WriteU16(buf, off + 6, e.physical / 0x1_0000_0000 % 0x1_0000);
    WriteU32(buf, off + 8, e.physical % 0x1_0000_0000);
    ExtentInPlace(was, off, e);
    return Ok(Unit.Unit);
  }

  lemma ExtentInPlace(s: seq<byte>, off: nat, e: Extent)
    requires off + ENTRY_SIZE <= |s|
    ensures var high := LE16(e.physical / 0x1_0000_0000 % 0x1_0000);
      Put(Put(Put(Put(s, off, LE32(e.logical)), off + 4, LE16(RawLen(e))), off + 6, high),
          off + 8, LE32(e.physical % 0x1_0000_0000))
      == Put(s, off, ExtentBytes(e))
  {
    hide LE16, LE32, RawLen;
    var a := Put(Put(s, off, LE32(e.logical)), off + 4, LE16(RawLen(e)));
    assert a == Put(s, off, LE32(e.logical) + LE16(RawLen(e)));
    var high := LE16(e.physical / 0x1_0000_0000 % 0x1_0000);
    assert Put(a, off + 6, high) == Put(s, off, LE32(e.logical) + LE16(RawLen(e)) + high);
  }

  /** The header and records of a leaf, written into a zeroed i_block. */
  method BuildLeafBlock(es: seq<Extent>) returns (r: Result<seq<byte>>)
    requires |es| <= 4
    ensures (forall i :: 0 <= i < |es| ==> es[i].len <= UNINIT_THRESHOLD) ==> r == Ok(LeafBlock(es))
    ensures r.Ok? || r == Err(ExtentEncode)
  {
    var blockBytes := new byte[Inodes.I_BLOCK_LEN];
    FillZero(blockBytes, 0, Inodes.I_BLOCK_LEN);
    assert blockBytes[..] == Zeros(Inodes.I_BLOCK_LEN);
    var header :- EncodeHeaderInto(LeafHeader(|es|), blockBytes);
    LeafStart(|es|);
    assert es[..0] == [];
    for i := 0 to |es|
      invariant blockBytes.Length == Inodes.I_BLOCK_LEN
      invariant blockBytes[..] == HeaderBytes(LeafHeader(|es|)) + Records(es[..i]) + Zeros(ENTRY_SIZE * (4 - i))
    {
      hide Put, HeaderBytes, ExtentBytes, Records;
      ghost var was := blockBytes[..];
      var done :- EncodeExtentInto(es[i], blockBytes, ENTRY_SIZE + i * ENTRY_SIZE);
      LeafStep(HeaderBytes(LeafHeader(|es|)), es, i);
    }
    assert es[..|es|] == es;
    return Ok(blockBytes[..]);
  }

  lemma LeafStart(n: u16)
    ensures Put(Zeros(Inodes.I_BLOCK_LEN), 0, HeaderBytes(LeafHeader(n))) == HeaderBytes(LeafHeader(n)) + [] + Zeros(48)
  {
    assert Zeros(Inodes.I_BLOCK_LEN)[12..] == Zeros(48);
  }

  lemma LeafStep(h: seq<byte>, es: seq<Extent>, i: nat)
    requires |h| == ENTRY_SIZE && i < |es| <= 4
    ensures Put(h + Records(es[..i]) + Zeros(ENTRY_SIZE * (4 - i)), ENTRY_SIZE + i * ENTRY_SIZE, ExtentBytes(es[i]))
         == h + Records(es[..i + 1]) + Zeros(ENTRY_SIZE * (4 - (i + 1)))
  {
    hide ExtentBytes;
    var a := h + Records(es[..i]);
    var e := ExtentBytes(es[i]);
    var z := Zeros(ENTRY_SIZE * (4 - i));
    assert es[..i + 1][..i] == es[..i];
    assert Records(es[..i + 1]) == Records(es[..i]) + e;
    assert (a + z)[..|a|] == a;
    assert (a + z)[|a| + |e|..] == Zeros(ENTRY_SIZE * (4 - (i + 1)));
    assert a + e == h + Records(es[..i + 1]);
  }
}
