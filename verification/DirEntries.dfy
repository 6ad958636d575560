/** Directory records and the blocks they tile (spec/src/dir_entry.rs). */
module DirEntries {
  import opened Bytes
  import opened Results

  const HEADER_SIZE := 8
  const ALIGNMENT := 4
  const NAME_MAX := 255

  /** One record: header, name, and padding up to `recLen`. Inode 0 marks an unused slot. */
  datatype DirEntry = DirEntry(inode: u32, recLen: u16, fileType: byte, name: seq<byte>) {
    predicate IsUnused() { inode == 0 }
  }

  function EncodeFault(e: DirEntry, room: nat): Option<RecordFault> {
    if e.recLen < HEADER_SIZE then Some(RecLenBelowHeaderSize)
    else if e.recLen % ALIGNMENT != 0 then Some(RecLenNotAligned)
    else if |e.name| > NAME_MAX then Some(NameTooLong)
    else if HEADER_SIZE + |e.name| > e.recLen then Some(NameLenExceedsRecLen)
    else if room < e.recLen then Some(BufferTooSmall)
    else None
  }

  predicate Encodable(e: DirEntry) {
    EncodeFault(e, e.recLen).None?
  }

  /** The record's bytes on disk: everything past the name is zero. */
  function Encoded(e: DirEntry): (bs: seq<byte>)
    requires Encodable(e)
    ensures |bs| == e.recLen
  {
    Put(Put(Put(Put(Zeros(e.recLen), 0, LE32(e.inode)), 4, LE16(e.recLen)), 6, [|e.name|, e.fileType]), HEADER_SIZE,
      e.name)
  }

  function Decode(buf: seq<byte>): (r: Result<DirEntry>)
    ensures r.Ok? ==> r.value.recLen >= HEADER_SIZE && Encodable(r.value)
  {
    if |buf| < HEADER_SIZE then Err(DirEntryDecode(BufferTooSmall)) else
    var recLen := U16(buf, 4);
    var nameEnd := HEADER_SIZE + buf[6] as int;
    if recLen < HEADER_SIZE then Err(DirEntryDecode(RecLenBelowHeaderSize))
    else if recLen % ALIGNMENT != 0 then Err(DirEntryDecode(RecLenNotAligned))
    else if nameEnd > recLen then Err(DirEntryDecode(NameLenExceedsRecLen))
    else if nameEnd > |buf| then Err(DirEntryDecode(BufferTooSmall))
    else Ok(DirEntry(U32(buf, 0), recLen, buf[7], buf[HEADER_SIZE..nameEnd]))
  }

  /** The fields of an encoded record, byte range by byte range. */
  lemma EncodedFields(e: DirEntry)
    requires Encodable(e)
    ensures Encoded(e)[..4] == LE32(e.inode) && Encoded(e)[4..6] == LE16(e.recLen)
    ensures Encoded(e)[6] == |e.name| && Encoded(e)[7] == e.fileType
    ensures Encoded(e)[8..8 + |e.name|] == e.name
    ensures Encoded(e)[8 + |e.name|..] == Zeros(e.recLen - 8 - |e.name|)
  {
    var n := 8 + |e.name|;
    var z := Zeros(e.recLen);
    assert z[n..] == Zeros(e.recLen - n);
    assert Put(z, 0, LE32(e.inode))[n..] == z[n..];
    var z2 := Put(Put(z, 0, LE32(e.inode)), 4, LE16(e.recLen));
    assert z2[n..] == z[n..];
  }

  /** Encoding then decoding a record gives the record back, whatever follows it. */
  lemma DecodeEncoded(e: DirEntry, rest: seq<byte>)
    requires Encodable(e)
    ensures Decode(Encoded(e) + rest) == Ok(e)
  {
    var bs := Encoded(e);
    EncodedFields(e);
    FieldAt(bs, 0, LE32(e.inode), 0);
    FieldAt(bs, 4, LE16(e.recLen), 0);
    U32RoundTrip(e.inode);
    U16RoundTrip(e.recLen);
    assert (bs + rest)[8..8 + |e.name|] == bs[8..8 + |e.name|];
  }

  /** A record that decodes from a buffer holding all of it is encoded back to
      the same bytes exactly when its padding is zero. */
  lemma EncodeDecoded(buf: seq<byte>)
    requires Decode(buf).Ok? && Decode(buf).value.recLen <= |buf|
    ensures var e := Decode(buf).value;
            Encoded(e) == buf[..e.recLen] <==>
            forall i :: HEADER_SIZE + |e.name| <= i < e.recLen ==> buf[i] == 0
  {
    var e := Decode(buf).value;
    var n := HEADER_SIZE + |e.name|;
    var bs, was := Encoded(e), buf[..e.recLen];
    DecodedParts(buf);
    EncodedFields(e);
    hide Encoded, Decode;
    assert bs == bs[..4] + bs[4..6] + [bs[6], bs[7]] + bs[8..n] + bs[n..];
    assert was == was[..4] + was[4..6] + [was[6], was[7]] + was[8..n] + was[n..];
    assert bs == was <==> bs[n..] == was[n..];
    SameTails(bs, was, n);
  }

  lemma DecodedParts(buf: seq<byte>)
    requires Decode(buf).Ok? && Decode(buf).value.recLen <= |buf|
    ensures var e := Decode(buf).value; var was := buf[..e.recLen];
      && Encodable(e) && |was| == e.recLen >= HEADER_SIZE + |e.name| && was[6] == |e.name| && was[7] == e.fileType
      && was[..4] == LE32(e.inode) && was[4..6] == LE16(e.recLen) && was[8..8 + |e.name|] == e.name
  {
    LE32RoundTrip(buf, 0);
    LE16RoundTrip(buf, 4);
    var n := HEADER_SIZE + |Decode(buf).value.name|;
    var was := buf[..Decode(buf).value.recLen];
    assert was[..4] == buf[0..4] && was[4..6] == buf[4..6] && was[8..n] == buf[8..n];
    hide LE32, LE16, U32, U16;
  }

  lemma SameTails(a: seq<byte>, b: seq<byte>, n: nat)
    requires |a| == |b| >= n && forall i :: 0 <= i < |a| - n ==> a[n..][i] == 0
    ensures a[n..] == b[n..] <==> forall i :: n <= i < |b| ==> b[i] == 0
  {
    assert forall i :: n <= i < |b| ==> b[n..][i - n] == b[i];
  }

  /** Writes the record at the start of the slice `buf[lo..hi]`. */
  method EncodeInto(e: DirEntry, buf: array<byte>, lo: nat, hi: nat) returns (r: Result<Unit>)
    requires lo <= hi <= buf.Length
    modifies buf
    ensures r == match EncodeFault(e, hi - lo) case None => Ok(Unit.Unit) case Some(f) => Err(DirEntryEncode(f))
    ensures r.Err? ==> buf[..] == old(buf[..])
    ensures r.Ok? ==> Encodable(e) && e.recLen <= hi - lo && buf[..] == Put(old(buf[..]), lo, Encoded(e))
  {
    var fault := EncodeFault(e, hi - lo);
    if fault.Some? {
      return Err(DirEntryEncode(fault.value));
    }
    ghost var was := buf[..];
    FillZero(buf, lo, e.recLen);
    WriteU32(buf, lo, e.inode);
    WriteU16(buf, lo + 4, e.recLen);
    WriteBytes(buf, lo + 6, |e.name|, e.fileType);
    CopyFromSlice(buf, lo + HEADER_SIZE, e.name);
    EncodedInPlace(e, was, lo);
    return Ok(Unit.Unit);
  }

  lemma EncodedInPlace(e: DirEntry, s: seq<byte>, lo: nat)
    requires Encodable(e) && lo + e.recLen <= |s|
    ensures Put(Put(Put(Put(Put(s, lo, Zeros(e.recLen)), lo, LE32(e.inode)), lo + 4, LE16(e.recLen)),
                    lo + 6, [|e.name|, e.fileType]), lo + HEADER_SIZE, e.name)
         == Put(s, lo, Encoded(e))
  {
    hide Put, LE16, LE32, Zeros;
    var z: seq<byte> := Zeros(e.recLen);
    assert lo + 0 == lo;
    PutPut(s, lo, z, 0, LE32(e.inode));
    var z1 := Put(z, 0, LE32(e.inode));
    PutPut(s, lo, z1, 4, LE16(e.recLen));
    var z2 := Put(z1, 4, LE16(e.recLen));
    PutPut(s, lo, z2, 6, [|e.name|, e.fileType]);
    PutPut(s, lo, Put(z2, 6, [|e.name|, e.fileType]), HEADER_SIZE, e.name);
  }

  /** The entries found by striding from `off` to the end of the block. */
  function Walk(buf: seq<byte>, off: nat): (r: Result<seq<DirEntry>>)
    decreases |buf| - off
  {
    if off >= |buf| then Ok([])
    else if |buf| - off < HEADER_SIZE then Err(DirEntryDecode(TrailingBytesBelowHeaderSize))
    else
      var e :- Decode(buf[off..]);
      var rest :- Walk(buf, off + e.recLen);
      Ok([e] + rest)
  }

  lemma AppendStep(front: seq<DirEntry>, e: DirEntry, rest: Result<seq<DirEntry>>)
    ensures rest.Ok? ==> front + ([e] + rest.value) == (front + [e]) + rest.value
  {
  }

  /** Decodes every record of a block. Each stride is at least 8, so the walk
      ends on any bytes. */
  method DecodeDirBlock(buf: seq<byte>) returns (r: Result<seq<DirEntry>>)
    ensures r == Walk(buf, 0)
  {
    hide Decode, Encodable;
    var entries: seq<DirEntry> := [];
    var offset := 0;
    assert forall x: seq<DirEntry> :: [] + x == x;
    while offset < |buf|
      invariant match Walk(buf, offset)
                case Ok(rest) => Walk(buf, 0) == Ok(entries + rest)
                case Err(x) => Walk(buf, 0) == Err(x)
      decreases |buf| - offset
    {
      if |buf| - offset < HEADER_SIZE {
        return Err(DirEntryDecode(TrailingBytesBelowHeaderSize));
      }
      var entry :- Decode(buf[offset..]);
      AppendStep(entries, entry, Walk(buf, offset + entry.recLen));
      entries := entries + [entry];
      offset := offset + entry.recLen;
    }
    assert entries + [] == entries;
    return Ok(entries);
  }

  // ----- blocks as lists of records -----

  predicate AllEncodable(es: seq<DirEntry>) {
    forall i :: 0 <= i < |es| ==> Encodable(es[i])
  }

  /** The records' bytes, end to end. */
  function Pack(es: seq<DirEntry>): (bs: seq<byte>)
    requires AllEncodable(es)
    ensures |es| == 0 <==> |bs| == 0
  {
    if |es| == 0 then [] else Encoded(es[0]) + Pack(es[1..])
  }

  lemma {:induction false} PackAppend(a: seq<DirEntry>, b: seq<DirEntry>)
    requires AllEncodable(a) && AllEncodable(b)
    ensures AllEncodable(a + b)
    ensures Pack(a + b) == Pack(a) + Pack(b)
  {
    hide Encoded, Encodable;
    if |a| == 0 {
      assert a + b == b;
    } else {
      assert (a + b)[1..] == a[1..] + b;
      PackAppend(a[1..], b);
      assert Encoded(a[0]) + (Pack(a[1..]) + Pack(b)) == (Encoded(a[0]) + Pack(a[1..])) + Pack(b);
    }
  }

  /** Where record `i` starts. */
  function Offset(es: seq<DirEntry>, i: nat): nat
    requires AllEncodable(es) && i <= |es|
  {
    |Pack(es[..i])|
  }

  /** The block is what precedes record `i`, the record, and what follows. */
  lemma PackAt(es: seq<DirEntry>, i: nat)
    requires AllEncodable(es) && i < |es|
    ensures Pack(es) == Pack(es[..i]) + Encoded(es[i]) + Pack(es[i + 1..])
    ensures Offset(es, i + 1) == Offset(es, i) + es[i].recLen
    ensures Offset(es, i + 1) + |Pack(es[i + 1..])| == |Pack(es)|
    ensures Pack(es)[Offset(es, i)..] == Encoded(es[i]) + Pack(es[i + 1..])
  {
    hide Encoded, Encodable;
    var tail := es[i..];
    assert es == es[..i] + tail;
    PackAppend(es[..i], tail);
    assert tail[0] == es[i] && tail[1..] == es[i + 1..];
    PackUpTo(es, i);
  }

  lemma PackUpTo(es: seq<DirEntry>, i: nat)
    requires AllEncodable(es) && i < |es|
    ensures Pack(es[..i + 1]) == Pack(es[..i]) + Encoded(es[i])
  {
    hide Encoded, Encodable;
    var one := [es[i]];
    assert es[..i + 1] == es[..i] + one;
    PackAppend(es[..i], one);
    assert one[1..] == [];
    assert Pack(one) == Encoded(es[i]) + [];
  }

  lemma WalkStep(es: seq<DirEntry>, i: nat)
    requires AllEncodable(es) && i < |es|
    ensures Walk(Pack(es), Offset(es, i)) ==
      match Walk(Pack(es), Offset(es, i + 1)) case Err(f) => Err(f) case Ok(rest) => Ok([es[i]] + rest)
  {
    hide Encoded, Decode, Pack, Walk, Offset, Encodable;
    PackAt(es, i);
    PackedBefore(es, i);
    var front, bs, rest := Pack(es[..i]), Encoded(es[i]), Pack(es[i + 1..]);
    DecodeEncoded(es[i], rest);
    TailOf(front, bs, rest);
    WalkOne(Pack(es), Offset(es, i), es[i]);
  }

  lemma PackedBefore(es: seq<DirEntry>, i: nat)
    requires AllEncodable(es) && i < |es|
    ensures Offset(es, i) == |Pack(es[..i])| && |Encoded(es[i])| == es[i].recLen >= HEADER_SIZE
  {
    hide Pack;
  }

  lemma TailOf(a: seq<byte>, b: seq<byte>, c: seq<byte>)
    ensures (a + b + c)[|a|..] == b + c
  {
  }

  lemma WalkOne(buf: seq<byte>, off: nat, e: DirEntry)
    requires off + HEADER_SIZE <= |buf| && Decode(buf[off..]) == Ok(e)
    ensures Walk(buf, off) == match Walk(buf, off + e.recLen) case Err(f) => Err(f) case Ok(rest) => Ok([e] + rest)
  {
    hide Decode;
  }

  lemma {:induction false} WalkPackFrom(es: seq<DirEntry>, i: nat)
    requires AllEncodable(es) && i <= |es|
    ensures Walk(Pack(es), Offset(es, i)) == Ok(es[i..])
    decreases |es| - i
  {
    hide Encoded, Decode;
    if i == |es| {
      assert es[..i] == es;
    } else {
      WalkPackFrom(es, i + 1);
      WalkStep(es, i);
      assert [es[i]] + es[i + 1..] == es[i..];
    }
  }

  /** Decoding a tiled block returns the list that was packed. */
  lemma WalkPack(es: seq<DirEntry>)
    requires AllEncodable(es)
    ensures Walk(Pack(es), 0) == Ok(es)
  {
    WalkPackFrom(es, 0);
    assert es[0..] == es;
  }

  /** Hence a block is packed from one list only. */
  lemma PackInjective(a: seq<DirEntry>, b: seq<DirEntry>)
    requires AllEncodable(a) && AllEncodable(b) && Pack(a) == Pack(b)
    ensures a == b
  {
    WalkPack(a);
    WalkPack(b);
  }

  /** Every record takes at least eight bytes; named records at least twelve. */
  lemma {:induction false} PackRoom(es: seq<DirEntry>)
    requires AllEncodable(es)
    ensures 8 * |es| <= |Pack(es)|
    ensures (forall i :: 0 <= i < |es| ==> es[i].name != []) ==> 12 * |es| <= |Pack(es)|
  {
    if |es| > 0 {
      assert forall i :: 0 <= i < |es[1..]| ==> es[1..][i] == es[i + 1];
      PackRoom(es[1..]);
    }
  }
}
