/** The on-disk formats, byte by byte: where each field lies, in how many bytes, least
    significant first. Nothing here is used by the codecs themselves. */
module Formats {
  import opened Bytes
  import opened Results
  import opened Bitmap
  import opened DirEntries
  import opened Extents
  import opened ExtentTrees
  import Inodes

  /** The number in the `n` bytes from `off` on. */
  function Le(s: seq<byte>, off: nat, n: nat): nat
    requires off + n <= |s|
    decreases n
  {
    if n == 0 then 0 else s[off] + 256 * Le(s, off + 1, n - 1)
  }

  lemma LeFields(s: seq<byte>, off: nat)
    ensures off + 2 <= |s| ==> U16(s, off) == Le(s, off, 2)
    ensures off + 4 <= |s| ==> U32(s, off) == Le(s, off, 4)
  {
    if off + 2 <= |s| {
      assert Le(s, off + 2, 0) == 0;
      assert Le(s, off + 1, 1) == s[off + 1] as int;
    }
    if off + 4 <= |s| {
      assert Le(s, off + 4, 0) == 0;
      assert Le(s, off + 3, 1) == s[off + 3] as int;
      assert Le(s, off + 2, 2) == s[off + 2] as int + 256 * s[off + 3] as int;
      assert Le(s, off + 1, 3) == s[off + 1] as int + 256 * Le(s, off + 2, 2);
    }
  }

  /** Fixed-width integers are written least significant byte first. */
  lemma LittleEndian(v: u32)
    ensures LE32(v) == [v % 256, v / 256 % 256, v / 65536 % 256, v / 16777216]
    ensures v < 65536 ==> LE16(v) == [v % 256, v / 256]
  {
    assert v / 256 / 256 == v / 65536 && v / 65536 / 256 == v / 16777216;
  }

  // ----- bitmaps -----

  /** Bit `n` is in byte `n / 8`, the lowest bit first. */
  lemma BitsAre(buf: seq<byte>, n: nat)
    requires n < 8 * |buf|
    ensures Bits(buf)[n] <==> buf[n / 8] / [1, 2, 4, 8, 16, 32, 64, 128][n % 8] % 2 == 1
  {
    hide BitOf;
    ByWeight(buf[n / 8], n % 8);
  }

  lemma ByWeight(b: nat, i: nat)
    requires i < 8
    ensures BitOf(b, i) <==> b / [1, 2, 4, 8, 16, 32, 64, 128][i] % 2 == 1
  {
    hide BitOf;
    BitWeight(b);
    var w := [1, 2, 4, 8, 16, 32, 64, 128];
    assert w[0] == 1 && w[1] == 2 && w[2] == 4 && w[3] == 8 && w[4] == 16 && w[5] == 32 && w[6] == 64 && w[7] == 128;
  }

  lemma BitWeight(b: nat)
    ensures BitOf(b, 0) <==> b % 2 == 1
    ensures BitOf(b, 1) <==> b / 2 % 2 == 1
    ensures BitOf(b, 2) <==> b / 4 % 2 == 1
    ensures BitOf(b, 3) <==> b / 8 % 2 == 1
    ensures BitOf(b, 4) <==> b / 16 % 2 == 1
    ensures BitOf(b, 5) <==> b / 32 % 2 == 1
    ensures BitOf(b, 6) <==> b / 64 % 2 == 1
    ensures BitOf(b, 7) <==> b / 128 % 2 == 1
  {
    hide BitOf;
    assert b / 16 / 2 == b / 32 && b / 16 / 4 == b / 64 && b / 16 / 8 == b / 128;
    LowBits(b);
    LowBits(b / 16);
    Shifted(b, 0);
    Shifted(b, 1);
    Shifted(b, 2);
    Shifted(b, 3);
  }

  lemma LowBits(b: nat)
    ensures BitOf(b, 0) <==> b % 2 == 1
    ensures BitOf(b, 1) <==> b / 2 % 2 == 1
    ensures BitOf(b, 2) <==> b / 4 % 2 == 1
    ensures BitOf(b, 3) <==> b / 8 % 2 == 1
  {
    assert b / 2 / 2 == b / 4 && b / 4 / 2 == b / 8;
    assert BitOf(b, 3) == BitOf(b / 2, 2) == BitOf(b / 4, 1);
  }

  lemma Shifted(b: nat, i: nat)
    ensures BitOf(b, i + 4) == BitOf(b / 16, i)
  {
    assert b / 2 / 2 == b / 4 && b / 4 / 2 == b / 8 && b / 8 / 2 == b / 16;
    assert BitOf(b, i + 4) == BitOf(b / 2, i + 3) == BitOf(b / 4, i + 2) == BitOf(b / 8, i + 1);
  }

  // ----- directory records -----

  /** A record decodes exactly when its length is a multiple of four, at least eight, and holds
      the name, and the name lies in the buffer; and its fields are these bytes. */
  lemma RecordIs(buf: seq<byte>)
    ensures DirEntries.Decode(buf).Ok? <==>
      && |buf| >= 8 && Le(buf, 4, 2) >= 8 && Le(buf, 4, 2) % 4 == 0
      && 8 + buf[6] as int <= Le(buf, 4, 2) && 8 + buf[6] as int <= |buf|
    ensures DirEntries.Decode(buf).Ok? ==>
      var e := DirEntries.Decode(buf).value;
      && e.inode == Le(buf, 0, 4) && e.recLen == Le(buf, 4, 2) && e.fileType == buf[7]
      && e.name == buf[8..8 + buf[6] as int]
  {
    LeFields(buf, 0);
    LeFields(buf, 4);
    hide U32, U16;
  }

  /** Why the others do not. */
  lemma RecordFaults(buf: seq<byte>)
    ensures |buf| < 8 ==> DirEntries.Decode(buf) == Err(DirEntryDecode(BufferTooSmall))
    ensures |buf| >= 8 && Le(buf, 4, 2) < 8 ==> DirEntries.Decode(buf) == Err(DirEntryDecode(RecLenBelowHeaderSize))
    ensures |buf| >= 8 && Le(buf, 4, 2) >= 8 && Le(buf, 4, 2) % 4 != 0 ==>
      DirEntries.Decode(buf) == Err(DirEntryDecode(RecLenNotAligned))
    ensures |buf| >= 8 && Le(buf, 4, 2) >= 8 && Le(buf, 4, 2) % 4 == 0 && 8 + buf[6] as int > Le(buf, 4, 2) ==>
      DirEntries.Decode(buf) == Err(DirEntryDecode(NameLenExceedsRecLen))
    ensures |buf| >= 8 && Le(buf, 4, 2) >= 8 && Le(buf, 4, 2) % 4 == 0 && |buf| < 8 + buf[6] as int <= Le(buf, 4, 2) ==>
      DirEntries.Decode(buf) == Err(DirEntryDecode(BufferTooSmall))
  {
    LeFields(buf, 4);
    hide U32, U16;
  }

  /** And what encoding refuses, in order. */
  lemma RecordRefused(e: DirEntry, room: nat)
    ensures e.recLen < 8 ==> EncodeFault(e, room) == Some(RecLenBelowHeaderSize)
    ensures e.recLen >= 8 && e.recLen % 4 != 0 ==> EncodeFault(e, room) == Some(RecLenNotAligned)
    ensures e.recLen >= 8 && e.recLen % 4 == 0 && |e.name| > 255 ==> EncodeFault(e, room) == Some(NameTooLong)
    ensures e.recLen >= 8 && e.recLen % 4 == 0 && |e.name| <= 255 && 8 + |e.name| > e.recLen ==>
      EncodeFault(e, room) == Some(NameLenExceedsRecLen)
    ensures 8 + |e.name| <= e.recLen && e.recLen % 4 == 0 && |e.name| <= 255 ==>
      EncodeFault(e, room) == if room < e.recLen then Some(BufferTooSmall) else None
  {
  }

  /** The bytes a record is encoded to: header, name, zeros. */
  lemma RecordBytes(e: DirEntry)
    requires Encodable(e)
    ensures var bs := DirEntries.Encoded(e);
      && |bs| == e.recLen >= 8 + |e.name| && Le(bs, 0, 4) == e.inode && Le(bs, 4, 2) == e.recLen
      && bs[6] == |e.name| && bs[7] == e.fileType && bs[8..8 + |e.name|] == e.name
      && forall i :: 8 + |e.name| <= i < e.recLen ==> bs[i] == 0
  {
    var bs := DirEntries.Encoded(e);
    DecodeEncoded(e, []);
    assert bs + [] == bs;
    EncodedFields(e);
    RecordIs(bs);
    hide DirEntries.Encoded, DirEntries.Decode, Le;
    forall i | 8 + |e.name| <= i < e.recLen ensures bs[i] == 0 {
      assert bs[8 + |e.name|..][i - 8 - |e.name|] == 0;
    }
  }

  /** Records one after another from `off` on: each starts where the one before it ends. */
  predicate Laid(buf: seq<byte>, off: nat, es: seq<DirEntry>, offs: seq<nat>) {
    && |offs| == |es| + 1 && offs[0] == off
    && forall i :: 0 <= i < |es| ==>
         offs[i] <= |buf| && DirEntries.Decode(buf[offs[i]..]) == Ok(es[i]) && offs[i + 1] == offs[i] + es[i].recLen
  }

  /** A block is read to its end, or up to the first record that does not decode; fewer bytes than
      a header at the end are an error of their own. */
  lemma {:induction false} BlockRecords(buf: seq<byte>, off: nat) returns (es: seq<DirEntry>, offs: seq<nat>)
    ensures Laid(buf, off, es, offs)
    ensures var last := offs[|es|];
      match Walk(buf, off)
      case Ok(found) => found == es && last >= |buf|
      case Err(e) =>
        && last < |buf|
        && if |buf| - last < 8 then e == DirEntryDecode(TrailingBytesBelowHeaderSize)
           else DirEntries.Decode(buf[last..]) == Err(e)
    decreases |buf| - off
  {
    hide DirEntries.Decode;
    es, offs := [], [off];
    if off < |buf| && |buf| - off >= 8 && DirEntries.Decode(buf[off..]).Ok? {
      var e := DirEntries.Decode(buf[off..]).value;
      var rest, ends := BlockRecords(buf, off + e.recLen);
      es, offs := [e] + rest, [off] + ends;
    }
  }

  // ----- extent nodes -----

  /** Twelve bytes of an extent: key, length with the uninitialised mark, block. */
  predicate ExtentIs(e: Extent, s: seq<byte>, off: nat)
    requires off + 12 <= |s|
  {
    && e.logical == Le(s, off, 4)
    && e.len == (if Le(s, off + 4, 2) > 32768 then Le(s, off + 4, 2) - 32768 else Le(s, off + 4, 2))
    && (e.uninit <==> Le(s, off + 4, 2) > 32768)
    && e.physical == Le(s, off + 6, 2) * 0x1_0000_0000 + Le(s, off + 8, 4)
  }

  /** Twelve bytes of an index: key, block; the last two are not read. */
  predicate IndexIs(x: ExtentIndex, s: seq<byte>, off: nat)
    requires off + 12 <= |s|
  {
    x.logical == Le(s, off, 4) && x.leafBlock == Le(s, off + 8, 2) * 0x1_0000_0000 + Le(s, off + 4, 4)
  }

  lemma {:induction false} LeSlice(s: seq<byte>, lo: nat, hi: nat, off: nat, n: nat)
    requires lo <= hi <= |s| && off + n <= hi - lo
    ensures Le(s[lo..hi], off, n) == Le(s, lo + off, n)
    decreases n
  {
    if n > 0 {
      LeSlice(s, lo, hi, off + 1, n - 1);
    }
  }

  lemma ExtentAt(s: seq<byte>, off: nat)
    requires off + 12 <= |s|
    ensures ExtentIs(DecodeExtent(s[off..off + 12]), s, off)
  {
    var r := s[off..off + 12];
    LeFields(r, 0);
    LeFields(r, 4);
    LeFields(r, 6);
    LeFields(r, 8);
    LeSlice(s, off, off + 12, 0, 4);
    LeSlice(s, off, off + 12, 4, 2);
    LeSlice(s, off, off + 12, 6, 2);
    LeSlice(s, off, off + 12, 8, 4);
    hide Le, U16, U32;
  }

  lemma IndexAt(s: seq<byte>, off: nat)
    requires off + 12 <= |s|
    ensures IndexIs(DecodeIndex(s[off..off + 12]), s, off)
  {
    var r := s[off..off + 12];
    LeFields(r, 0);
    LeFields(r, 4);
    LeFields(r, 8);
    LeSlice(s, off, off + 12, 0, 4);
    LeSlice(s, off, off + 12, 4, 4);
    LeSlice(s, off, off + 12, 8, 2);
    hide Le, U16, U32;
  }

  /** A node decodes exactly when the magic is there and the records it counts are; it is a leaf
      exactly when its depth is zero; and record `i` is read from byte 12 * (i + 1). */
  lemma NodeIs(s: seq<byte>)
    ensures DecodeNode(s).Ok? <==> |s| >= 12 && Le(s, 0, 2) == 0xF30A && |s| >= 12 + 12 * Le(s, 2, 2)
    ensures DecodeNode(s).Err? ==> DecodeNode(s) == Err(ExtentDecode)
    ensures DecodeNode(s).Ok? ==>
      var h := DecodeNode(s).value.header;
      && h.entries == Le(s, 2, 2) && h.max == Le(s, 4, 2) && h.depth == Le(s, 6, 2) && h.generation == Le(s, 8, 4)
      && (DecodeNode(s).value.Leaf? <==> h.depth == 0)
    ensures DecodeNode(s).Ok? && DecodeNode(s).value.Leaf? ==>
      var es := DecodeNode(s).value.extents;
      |es| == Le(s, 2, 2) && forall i :: 0 <= i < |es| ==> ExtentIs(es[i], s, 12 * (i + 1))
    ensures DecodeNode(s).Ok? && DecodeNode(s).value.Internal? ==>
      var xs := DecodeNode(s).value.indices;
      |xs| == Le(s, 2, 2) && forall i :: 0 <= i < |xs| ==> IndexIs(xs[i], s, 12 * (i + 1))
  {
    LeFields(s, 0);
    LeFields(s, 2);
    LeFields(s, 4);
    LeFields(s, 6);
    LeFields(s, 8);
    hide Le, U16, U32, ExtentIs, IndexIs, DecodeExtent, DecodeIndex;
    if |s| >= 12 && |s| >= 12 + 12 * Le(s, 2, 2) {
      forall i: nat | i < Le(s, 2, 2) ensures ExtentIs(DecodeExtent(Entry(s, i)), s, 12 * (i + 1)) {
        ExtentAt(s, 12 * (i + 1));
      }
      forall i: nat | i < Le(s, 2, 2) ensures IndexIs(DecodeIndex(Entry(s, i)), s, 12 * (i + 1)) {
        IndexAt(s, 12 * (i + 1));
      }
    }
  }

  /** A root as the operations write it: room for four records, depth zero, zeros behind. */
  lemma RootIs(es: seq<Extent>)
    requires |es| <= 4 && forall i :: 0 <= i < |es| ==> Representable(es[i])
    ensures var bs := LeafBlock(es);
      && |bs| == 60 && Le(bs, 0, 2) == 0xF30A && Le(bs, 2, 2) == |es| && Le(bs, 4, 2) == 4 && Le(bs, 6, 2) == 0
      && Le(bs, 8, 4) == 0 && (forall i :: 0 <= i < |es| ==> ExtentIs(es[i], bs, 12 * (i + 1)))
      && forall j :: 12 * (|es| + 1) <= j < 60 ==> bs[j] == 0
  {
    hide LeafBlock, DecodeNode, Le, ExtentIs;
    LeafRoundTrip(es);
    NodeIs(LeafBlock(es));
    RootTail(es);
  }

  lemma RootTail(es: seq<Extent>)
    requires |es| <= 4
    ensures forall j :: 12 * (|es| + 1) <= j < 60 ==> LeafBlock(es)[j] == 0
  {
    hide HeaderBytes, Records;
  }

  /** What a logical block maps to: decided by the first extent over it, a hole if there is
      none or it is uninitialised. */
  ghost predicate MapsTo(es: seq<Extent>, logical: nat, r: Option<nat>) {
    || (r == None && forall i :: 0 <= i < |es| ==> !Over(es[i], logical))
    || exists i :: 0 <= i < |es| && DecidedBy(es, logical, i) && r == Reached(es[i], logical)
  }

  predicate Over(e: Extent, logical: nat) {
    e.logical <= logical && logical - e.logical < e.len
  }

  predicate DecidedBy(es: seq<Extent>, logical: nat, i: nat)
    requires i < |es|
  {
    Over(es[i], logical) && forall j :: 0 <= j < i ==> !Over(es[j], logical)
  }

  function Reached(e: Extent, logical: nat): Option<nat>
    requires Over(e, logical)
  {
    if e.uninit then None else Some(e.physical + logical - e.logical)
  }

  lemma {:induction false} MapBlockMeans(es: seq<Extent>, logical: nat)
    ensures MapsTo(es, logical, MapBlock(es, logical))
  {
    if |es| > 0 {
      if Over(es[0], logical) {
        assert DecidedBy(es, logical, 0);
      } else {
        var rest := es[1..];
        MapBlockMeans(rest, logical);
        if i :| 0 <= i < |rest| && DecidedBy(rest, logical, i) && MapBlock(es, logical) == Reached(rest[i], logical) {
          forall j | 0 <= j < i + 1 ensures !Over(es[j], logical) {
            assert j > 0 ==> es[j] == rest[j - 1];
          }
          assert DecidedBy(es, logical, i + 1);
        } else {
          forall j | 0 <= j < |es| ensures !Over(es[j], logical) {
            assert j > 0 ==> es[j] == rest[j - 1];
          }
        }
      }
    }
  }

  /** The tree as bytes: every node's header and records, and every child in its block. */
  ghost predicate Written(image: seq<byte>, size: nat, s: seq<byte>, t: Tree, depth: nat)
    decreases t
  {
    && |s| >= 12 && Le(s, 0, 2) == 0xF30A && |s| >= 12 + 12 * Le(s, 2, 2)
    && match t
       case Flat(es) =>
         Le(s, 6, 2) == 0 && |es| == Le(s, 2, 2) && forall i :: 0 <= i < |es| ==> ExtentIs(es[i], s, 12 * (i + 1))
       case Branch(kids) =>
         && depth > 0 && Le(s, 6, 2) > 0 && |kids| == Le(s, 2, 2)
         && forall i :: 0 <= i < |kids| ==>
              && IndexIs(ExtentIndex(kids[i].first, kids[i].block), s, 12 * (i + 1))
              && kids[i].block * size + size <= |image|
              && Written(image, size, image[kids[i].block * size..kids[i].block * size + size], kids[i].tree, depth - 1)
  }

  lemma {:induction false} WrittenStored(image: seq<byte>, size: nat, s: seq<byte>, t: Tree, depth: nat)
    requires Written(image, size, s, t, depth)
    ensures Stored(image, size, s, t, depth)
    decreases t
  {
    NodeIs(s);
    hide DecodeNode, Le;
    match t
    case Flat(es) =>
      var got := DecodeNode(s).value.extents;
      forall i | 0 <= i < |es| ensures got[i] == es[i] {
        assert ExtentIs(es[i], s, 12 * (i + 1)) && ExtentIs(got[i], s, 12 * (i + 1));
      }
      assert got == es;
    case Branch(kids) =>
      var got := DecodeNode(s).value.indices;
      forall i | 0 <= i < |kids|
        ensures got[i] == ExtentIndex(kids[i].first, kids[i].block) && InImage(image, size, kids[i].block)
        ensures Stored(image, size, Block(image, size, kids[i].block), kids[i].tree, depth - 1)
      {
        assert IndexIs(got[i], s, 12 * (i + 1)) && IndexIs(ExtentIndex(kids[i].first, kids[i].block), s, 12 * (i + 1));
        BlockIs(image, size, kids[i].block);
        assert kids[i].tree < kids[i] < t;
        WrittenStored(image, size, image[kids[i].block * size..kids[i].block * size + size], kids[i].tree, depth - 1);
      }
  }

  lemma BlockIs(image: seq<byte>, size: nat, b: nat)
    ensures InImage(image, size, b) <==> b * size + size <= |image|
    ensures InImage(image, size, b) ==> Block(image, size, b) == image[b * size..b * size + size]
  {
    assert (b + 1) * size == b * size + size;
  }

  /** A written tree of at most five levels under the root answers as its flat list maps. */
  lemma WrittenTreeResolves(image: seq<byte>, size: nat, root: seq<byte>, t: Tree, depth: nat, hi: nat, logical: u32)
    requires depth <= 5 && Written(image, size, root, t, depth) && Ordered(t, 0, hi)
    ensures var r := Resolve(image, size, root, logical, MAX_EXTENT_DEPTH + 1);
      r.Ok? && MapsTo(Flatten(t), logical, r.value)
  {
    WrittenStored(image, size, root, t, depth);
    InodeWalk(image, size, root, t, depth, hi, logical);
    MapBlockMeans(Flatten(t), logical);
  }

  /** The descent leads through `n` index nodes. */
  ghost predicate LeadsDown(image: seq<byte>, size: nat, node: seq<byte>, logical: u32, n: nat)
    decreases n
  {
    n > 0 ==>
      && DecodeNode(node).Ok? && DecodeNode(node).value.Internal?
      && var chosen := Choose(DecodeNode(node).value.indices, logical);
      && chosen.Some? && InImage(image, size, DecodeNode(node).value.indices[chosen.value].leafBlock)
      && var next := Block(image, size, DecodeNode(node).value.indices[chosen.value].leafBlock);
      LeadsDown(image, size, next, logical, n - 1)
  }

  /** Six of them are one too many. */
  lemma TooDeep(image: seq<byte>, size: nat, node: seq<byte>, logical: u32)
    requires LeadsDown(image, size, node, logical, 6)
    ensures Resolve(image, size, node, logical, MAX_EXTENT_DEPTH + 1) == Err(MaxExtentDepthExceeded)
  {
    RunsOut(image, size, node, logical, 6);
  }

  lemma {:induction false} RunsOut(image: seq<byte>, size: nat, node: seq<byte>, logical: u32, n: nat)
    requires LeadsDown(image, size, node, logical, n)
    ensures Resolve(image, size, node, logical, n) == Err(MaxExtentDepthExceeded)
    decreases n
  {
    hide DecodeNode, Choose, InImage, Block, MapBlock;
    if n > 0 {
      var xs := DecodeNode(node).value.indices;
      RunsOut(image, size, Block(image, size, xs[Choose(xs, logical).value].leafBlock), logical, n - 1);
    }
  }

  /** An index whose block ends past the image. */
  lemma LeadsOut(image: seq<byte>, size: nat, node: seq<byte>, logical: u32, steps: nat)
    requires steps > 0 && DecodeNode(node).Ok? && DecodeNode(node).value.Internal?
    requires var xs := DecodeNode(node).value.indices; var chosen := Choose(xs, logical);
      chosen.Some? && xs[chosen.value].leafBlock * size + size > |image|
    ensures Resolve(image, size, node, logical, steps) == Err(Io)
  {
    hide DecodeNode, Choose;
    var xs := DecodeNode(node).value.indices;
    BlockIs(image, size, xs[Choose(xs, logical).value].leafBlock);
  }

  /** A block before every index is a hole. */
  lemma LeadsNowhere(image: seq<byte>, size: nat, node: seq<byte>, logical: u32, steps: nat)
    requires steps > 0 && DecodeNode(node).Ok? && DecodeNode(node).value.Internal?
    requires var xs := DecodeNode(node).value.indices; |xs| == 0 || xs[0].logical > logical
    ensures Resolve(image, size, node, logical, steps) == Ok(None)
  {
    hide DecodeNode;
  }
}
