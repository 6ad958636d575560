/** In-place edits of a single directory block: carving a record out of the last
    one's slack, merging a record into its predecessor, repointing `..`
    (ext4/src/filesystem.rs). Each edit of the bytes is an edit of the record list. */
module DirBlocks {
  import opened Bytes
  import opened Results
  import opened DirEntries

  function Pad4(n: nat): (r: nat)
    ensures n <= r < n + 4 && r % 4 == 0
  {
    DivCeil(n, 4) * 4
  }

  /** The bytes a record needs: header and name, padded. */
  function Actual(name: seq<byte>): nat {
    Pad4(HEADER_SIZE + |name|)
  }

  function Last(es: seq<DirEntry>): DirEntry
    requires |es| > 0
  {
    es[|es| - 1]
  }

  function Slack(es: seq<DirEntry>): (n: int)
    requires |es| > 0
  {
    Last(es).recLen - Actual(Last(es).name)
  }

  /** Records fill the block exactly. The size bound is what 16-bit lengths need. */
  predicate Tiles(es: seq<DirEntry>, size: nat) {
    0 < |es| && AllEncodable(es) && |Pack(es)| == size && size < 0x1_0000
  }

  /** Why a new record for `name` cannot be carved out; the needed length is cut to 16 bits first. */
  function CarveFault(es: seq<DirEntry>, name: seq<byte>): Option<Error>
    requires |es| > 0
  {
    if Actual(name) % 0x1_0000 > Slack(es) then Some(UnsupportedV0)
    else if Slack(es) < HEADER_SIZE then Some(DirEntryEncode(RecLenBelowHeaderSize))
    else if |name| > NAME_MAX then Some(DirEntryEncode(NameTooLong))
    else None
  }

  /** Insertion succeeds exactly when the name is short enough and its record fits the slack. */
  lemma CarveFits(es: seq<DirEntry>, name: seq<byte>)
    requires |es| > 0
    ensures CarveFault(es, name).None? <==> |name| <= NAME_MAX && Actual(name) <= Slack(es)
  {
  }

  function Carve(es: seq<DirEntry>, name: seq<byte>, child: u32, fileType: byte): (r: seq<DirEntry>)
    requires |es| > 0 && AllEncodable(es) && CarveFault(es, name).None?
    ensures |r| == |es| + 1
  {
    es[..|es| - 1] + [Last(es).(recLen := Actual(Last(es).name)), DirEntry(child, Slack(es), fileType, name)]
  }

  /** Record `i` gives its length to its predecessor; the first record becomes a tombstone. */
  function Erase(es: seq<DirEntry>, i: nat): (r: seq<DirEntry>)
    requires i < |es|
    requires i > 0 ==> es[i - 1].recLen + es[i].recLen < 0x1_0000
    ensures |r| == if i == 0 then |es| else |es| - 1
  {
    if i == 0 then es[0 := es[0].(inode := 0)]
    else es[..i - 1] + [es[i - 1].(recLen := es[i - 1].recLen + es[i].recLen)] + es[i + 1..]
  }

  /** The first live record named `name`. */
  function Find(es: seq<DirEntry>, name: seq<byte>, from: nat := 0): (r: Option<nat>)
    ensures r.Some? ==> from <= r.value < |es| && es[r.value].name == name && es[r.value].inode != 0
    ensures r.Some? ==> forall j :: from <= j < r.value ==> es[j].name != name || es[j].inode == 0
    ensures r.None? ==> forall j :: from <= j < |es| ==> es[j].name != name || es[j].inode == 0
    decreases |es| - from
  {
    if from >= |es| then None
    else if es[from].inode != 0 && es[from].name == name then Some(from)
    else Find(es, name, from + 1)
  }

  /** The first live record that binds `name` to `target`. */
  function FindBinding(es: seq<DirEntry>, name: seq<byte>, target: nat, from: nat := 0): (r: Option<nat>)
    ensures r.Some? ==> from <= r.value < |es| && es[r.value].name == name && es[r.value].inode == target != 0
    ensures r.Some? ==> forall j :: from <= j < r.value ==> !(es[j].name == name && es[j].inode == target != 0)
    ensures r.None? ==> forall j :: from <= j < |es| ==> !(es[j].name == name && es[j].inode == target != 0)
    decreases |es| - from
  {
    if from >= |es| then None
    else if es[from].inode != 0 && es[from].name == name && es[from].inode == target then Some(from)
    else FindBinding(es, name, target, from + 1)
  }

  // ----- what the edits do to the bytes -----

  lemma PutTwice(s: seq<byte>, off: nat, a: seq<byte>, b: seq<byte>)
    requires off + |a| + |b| <= |s|
    ensures Put(Put(s, off, a), off + |a|, b) == Put(s, off, a + b)
  {
    var p := Put(s, off, a);
    assert p[..off + |a|] == s[..off] + a;
    assert p[off + |a| + |b|..] == s[off + |a| + |b|..];
  }

  /** Overwriting the bytes of the records in the middle packs the new list. */
  lemma PackReplace(a: seq<DirEntry>, was: seq<DirEntry>, now: seq<DirEntry>, b: seq<DirEntry>)
    requires AllEncodable(a) && AllEncodable(was) && AllEncodable(now) && AllEncodable(b)
    requires |Pack(was)| == |Pack(now)|
    ensures AllEncodable(a + was + b) && AllEncodable(a + now + b)
    ensures |Pack(a)| + |Pack(now)| <= |Pack(a + was + b)|
    ensures Put(Pack(a + was + b), |Pack(a)|, Pack(now)) == Pack(a + now + b)
  {
    hide Encodable, Pack;
    PackAppend(a, was);
    PackAppend(a, now);
    PackAppend(a + was, b);
    PackAppend(a + now, b);
    PutMiddle(Pack(a), Pack(was), Pack(now), Pack(b));
  }

  lemma PutMiddle(a: seq<byte>, was: seq<byte>, now: seq<byte>, b: seq<byte>)
    requires |was| == |now|
    ensures Put(a + was + b, |a|, now) == a + now + b
  {
    assert (a + was + b)[..|a|] == a && (a + was + b)[|a| + |now|..] == b;
  }

  lemma AllSlice(es: seq<DirEntry>, i: nat, j: nat)
    requires AllEncodable(es) && i <= j <= |es|
    ensures AllEncodable(es[..i]) && AllEncodable(es[i..j]) && AllEncodable(es[j..])
    ensures es == es[..i] + es[i..j] + es[j..]
  {
  }

  /** PackReplace for a stretch of a tiled block. */
  lemma ReplaceStretch(es: seq<DirEntry>, i: nat, j: nat, now: seq<DirEntry>, size: nat)
    requires Tiles(es, size) && i < j <= |es| && AllEncodable(now) && |now| > 0
    requires AllEncodable(es[i..j]) && |Pack(now)| == |Pack(es[i..j])|
    ensures Tiles(es[..i] + now + es[j..], size)
    ensures Offset(es, i) + |Pack(now)| <= size
    ensures Put(Pack(es), Offset(es, i), Pack(now)) == Pack(es[..i] + now + es[j..])
  {
    hide AllEncodable, Pack, Put;
    AllSlice(es, i, j);
    PackReplace(es[..i], es[i..j], now, es[j..]);
  }

  lemma PackOne(e: DirEntry)
    requires Encodable(e)
    ensures AllEncodable([e]) && Pack([e]) == Encoded(e)
  {
    assert [e][1..] == [];
    assert Encoded(e) + [] == Encoded(e);
  }

  lemma PackTwo(e: DirEntry, f: DirEntry)
    requires Encodable(e) && Encodable(f)
    ensures AllEncodable([e, f]) && Pack([e, f]) == Encoded(e) + Encoded(f)
  {
    assert [e, f][1..] == [f];
    PackOne(f);
  }

  /** A record's own length covers its header and name. */
  lemma ActualFits(e: DirEntry)
    requires Encodable(e)
    ensures HEADER_SIZE <= Actual(e.name) <= e.recLen
    ensures Encodable(e.(recLen := Actual(e.name)))
  {
  }

  lemma CarveBytes(es: seq<DirEntry>, name: seq<byte>, child: u32, fileType: byte, size: nat)
    requires Tiles(es, size) && CarveFault(es, name).None?
    ensures var r := Carve(es, name, child, fileType); var n := |es| - 1;
            && Encodable(r[n]) && Encodable(r[n + 1]) && Tiles(r, size)
            && Offset(es, n) + r[n].recLen + r[n + 1].recLen == size
            && Put(Put(Pack(es), Offset(es, n), Encoded(r[n])), Offset(es, n) + r[n].recLen, Encoded(r[n + 1])) ==
              Pack(r)
  {
    hide Encoded, Encodable, Pack, Put, Carve, CarveFault, AllEncodable, Slack, Actual;
    var n := |es| - 1;
    var r := Carve(es, name, child, fileType);
    CarveParts(es, name, child, fileType);
    LastOffset(es);
    var now := [r[n], r[n + 1]];
    PackOne(es[n]);
    PackTwo(r[n], r[n + 1]);
    ReplaceStretch(es, n, |es|, now, size);
    PutTwice(Pack(es), Offset(es, n), Encoded(r[n]), Encoded(r[n + 1]));
  }

  lemma LastOffset(es: seq<DirEntry>)
    requires AllEncodable(es) && |es| > 0
    ensures Offset(es, |es| - 1) + Last(es).recLen == |Pack(es)|
  {
    hide Encoded, Encodable, Pack;
    var n := |es| - 1;
    assert es[n + 1..] == [];
    PackAt(es, n);
  }

  lemma CarveParts(es: seq<DirEntry>, name: seq<byte>, child: u32, fileType: byte)
    requires |es| > 0 && AllEncodable(es) && CarveFault(es, name).None?
    ensures var r := Carve(es, name, child, fileType); var n := |es| - 1;
            && Encodable(r[n]) && Encodable(r[n + 1])
            && r[n].recLen == Actual(Last(es).name) && r[n + 1].recLen == Slack(es)
            && r[n].recLen + r[n + 1].recLen == es[n].recLen && Encodable(es[n])
            && r == es[..n] + [r[n], r[n + 1]] + es[|es|..] && es[n..|es|] == [es[n]]
  {
    assert Encodable(Last(es));
    ActualFits(Last(es));
    CarveFits(es, name);
  }

  /** Two neighbouring records never exceed the block, so their lengths add within 16 bits. */
  lemma NeighboursFit(es: seq<DirEntry>, i: nat, size: nat)
    requires Tiles(es, size) && 0 < i < |es|
    ensures Offset(es, i - 1) + es[i - 1].recLen + es[i].recLen <= size
  {
    hide Encoded, Encodable, Pack;
    PackAt(es, i - 1);
    PackAt(es, i);
  }

  lemma EraseParts(es: seq<DirEntry>, i: nat)
    requires AllEncodable(es) && 0 < i < |es| && es[i - 1].recLen + es[i].recLen < 0x1_0000
    ensures var r := Erase(es, i);
            && |r| == |es| - 1
            && Encodable(es[i - 1]) && Encodable(es[i]) && Encodable(r[i - 1])
            && r[i - 1].recLen == es[i - 1].recLen + es[i].recLen
            && r == es[..i - 1] + [r[i - 1]] + es[i + 1..] && es[i - 1..i + 1] == [es[i - 1], es[i]]
  {
    assert Encodable(es[i - 1]) && Encodable(es[i]);
  }

  /** Each record takes what it needs from the slack of the last. */
  lemma CarveSlack(es: seq<DirEntry>, name: seq<byte>, child: u32, fileType: byte)
    requires |es| > 0 && AllEncodable(es) && CarveFault(es, name).None?
    ensures Slack(Carve(es, name, child, fileType)) == Slack(es) - Actual(name)
  {
  }

  /** A name that is erased and entered again has room exactly when it was the last record,
      whose predecessor inherits its bytes, or fits the last record's slack. */
  lemma ReplaceFits(es: seq<DirEntry>, i: nat, size: nat)
    requires Tiles(es, size) && 0 < i < |es|
    ensures es[i - 1].recLen + es[i].recLen < 0x1_0000
    ensures CarveFault(Erase(es, i), es[i].name).None? <==> i == |es| - 1 || Actual(es[i].name) <= Slack(es)
  {
    hide Pack, Actual, CarveFault;
    NeighboursFit(es, i, size);
    assert Encodable(es[i]) && Encodable(es[i - 1]);
    ActualFits(es[i]);
    ActualFits(es[i - 1]);
    CarveFits(Erase(es, i), es[i].name);
  }

  lemma EraseBytes(es: seq<DirEntry>, i: nat, size: nat)
    requires Tiles(es, size) && 0 < i < |es|
    ensures es[i - 1].recLen + es[i].recLen < 0x1_0000
    ensures var r := Erase(es, i);
            && Tiles(r, size) && Encodable(r[i - 1])
            && Offset(es, i - 1) + r[i - 1].recLen <= size
            && Put(Pack(es), Offset(es, i - 1), Encoded(r[i - 1])) == Pack(r)
  {
    hide Encoded, Encodable, Pack, Put, Erase, AllEncodable;
    NeighboursFit(es, i, size);
    EraseParts(es, i);
    var r := Erase(es, i);
    PackTwo(es[i - 1], es[i]);
    PackOne(r[i - 1]);
    ReplaceStretch(es, i - 1, i + 1, [r[i - 1]], size);
  }

  /** Replacing one record by another of the same length. */
  lemma ReplaceBytes(es: seq<DirEntry>, i: nat, e: DirEntry, size: nat)
    requires Tiles(es, size) && i < |es| && Encodable(e) && e.recLen == es[i].recLen
    ensures Tiles(es[i := e], size)
    ensures Offset(es, i) + e.recLen <= size
    ensures Put(Pack(es), Offset(es, i), Encoded(e)) == Pack(es[i := e])
  {
    assert Encodable(es[i]);
    assert es[i..i + 1] == [es[i]] && es[i := e] == es[..i] + [e] + es[i + 1..];
    hide Encoded, Encodable, Pack, Put, AllEncodable;
    PackOne(es[i]);
    PackOne(e);
    ReplaceStretch(es, i, i + 1, [e], size);
  }

  lemma TombstoneBytes(es: seq<DirEntry>, size: nat)
    requires Tiles(es, size)
    ensures 4 <= size && Tiles(Erase(es, 0), size)
    ensures Put(Pack(es), 0, Zeros(4)) == Pack(Erase(es, 0))
  {
    var e := es[0].(inode := 0);
    assert Encodable(es[0]) && Encodable(e);
    ReplaceBytes(es, 0, e, size);
    SameTail(es[0], 0);
    assert LE32(0) == Zeros(4) && Encoded(e)[..4] == LE32(0) by { EncodedFields(e); }
    assert es[..0] == [] && es[0 := e][1..] == es[1..];
    assert Pack(es) == Encoded(es[0]) + Pack(es[1..]);
    assert Pack(es[0 := e]) == Encoded(e) + Pack(es[1..]);
    hide Encoded, Encodable, Pack, LE32;
    HeadBytes(Encoded(es[0]), Encoded(e), Pack(es[1..]));
  }

  lemma HeadBytes(was: seq<byte>, now: seq<byte>, rest: seq<byte>)
    requires |was| == |now| >= 4 && was[4..] == now[4..]
    ensures Put(was + rest, 0, now[..4]) == now + rest
  {
    assert (was + rest)[4..] == was[4..] + rest;
    assert now == now[..4] + now[4..];
  }

  /** Only the first four bytes of a record depend on its inode number. */
  lemma SameTail(e: DirEntry, inode: u32)
    requires Encodable(e)
    ensures Encodable(e.(inode := inode)) && Encoded(e)[4..] == Encoded(e.(inode := inode))[4..]
  {
    var f := e.(inode := inode);
    EncodedFields(e);
    EncodedFields(f);
    var a, b := Encoded(e), Encoded(f);
    var n := 8 + |e.name|;
    assert a[4..] == a[4..6] + [a[6], a[7]] + a[8..n] + a[n..];
    assert b[4..] == b[4..6] + [b[6], b[7]] + b[8..n] + b[n..];
  }

  /** Decoding at a record's offset finds that record. */
  lemma DecodeAt(es: seq<DirEntry>, i: nat)
    requires AllEncodable(es) && i < |es|
    ensures Offset(es, i) < |Pack(es)| && Decode(Pack(es)[Offset(es, i)..]) == Ok(es[i])
    ensures Offset(es, i + 1) == Offset(es, i) + es[i].recLen
    ensures Offset(es, i + 1) < |Pack(es)| ==> i + 1 < |es|
  {
    hide Encoded, Decode, Pack;
    PackAt(es, i);
    DecodeEncoded(es[i], Pack(es[i + 1..]));
    if i + 1 == |es| {
      assert es[i + 1..] == [];
    }
  }

  // ----- the edits -----

  /** add_dir_entry, once the block is in memory. */
  method AddToBlock(buf: array<byte>, name: seq<byte>, child: u32, fileType: byte, ghost es: seq<DirEntry>)
    returns (r: Result<Unit>)
    requires Tiles(es, buf.Length) && buf[..] == Pack(es)
    modifies buf
    ensures r == match CarveFault(es, name) case Some(x) => Err(x) case None => Ok(Unit.Unit)
    ensures CarveFault(es, name).None? ==> buf[..] == Pack(Carve(es, name, child, fileType))
  {
    var cursor, lastOffset := 0, 0;
    var lastEntry: Option<DirEntry> := None;
    ghost var i := 0;
    ghost var was := buf[..];
    assert es[..0] == [] && es[..|es|] == es;
    while cursor < buf.Length
      invariant i <= |es| && cursor == Offset(es, i) && (cursor < buf.Length ==> i < |es|)
      invariant buf[..] == was
      invariant i > 0 ==> lastOffset == Offset(es, i - 1) && lastEntry == Some(es[i - 1])
      decreases |es| - i
    {
      hide *;
      DecodeAt(es, i);
      var entry :- Decode(buf[..][cursor..]);
      lastOffset := cursor;
      cursor := cursor + entry.recLen;
      lastEntry := Some(entry);
      i := i + 1;
    }
    assert i == |es| && lastEntry == Some(Last(es)) by { LastReached(es, i); }
    if lastEntry.None? {
      return Err(InvalidLayout);
    }
    var last := lastEntry.value;
    assert Encodable(last);
    ActualFits(last);
    var lastActual := Actual(last.name);
    var newActual := Actual(name) % 0x1_0000;
    if newActual > last.recLen - lastActual {
      return Err(UnsupportedV0);
    }
    r := SplitLast(buf, name, child, fileType, last, lastOffset, lastActual, es);
  }

  lemma LastReached(es: seq<DirEntry>, i: nat)
    requires AllEncodable(es) && i <= |es| && Offset(es, i) >= |Pack(es)|
    ensures i == |es|
  {
    hide Encoded, Decode, Pack;
    if i < |es| {
      DecodeAt(es, i);
    }
  }

  /** Past the slack check, what CarveFault names is what encoding the new record reports. */
  lemma CarveResult(es: seq<DirEntry>, name: seq<byte>)
    requires |es| > 0 && AllEncodable(es) && Actual(name) % 0x1_0000 <= Slack(es)
    ensures 0 <= Slack(es)
    ensures forall e: DirEntry :: e.recLen == Slack(es) && e.name == name ==>
      CarveFault(es, name) == match EncodeFault(e, Slack(es)) case None => None case Some(f) => Some(DirEntryEncode(f))
  {
    assert Encodable(Last(es));
    ActualFits(Last(es));
  }

  method SplitLast(buf: array<byte>, name: seq<byte>, child: u32, fileType: byte,
                   last: DirEntry, lastOffset: nat, lastActual: u16, ghost es: seq<DirEntry>) returns (r: Result<Unit>)
    requires Tiles(es, buf.Length) && buf[..] == Pack(es)
    requires last == Last(es) && lastOffset == Offset(es, |es| - 1) && lastActual == Actual(last.name) <= last.recLen
    requires Actual(name) % 0x1_0000 <= Slack(es)
    modifies buf
    ensures r == match CarveFault(es, name) case Some(x) => Err(x) case None => Ok(Unit.Unit)
    ensures CarveFault(es, name).None? ==> buf[..] == Pack(Carve(es, name, child, fileType))
  {
    assert Encodable(last);
    ActualFits(last);
    LastOffset(es);
    CarveResult(es, name);
    var shrunk := last.(recLen := lastActual);
    hide Pack, Encoded, Put;
    var first :- EncodeInto(shrunk, buf, lastOffset, lastOffset + lastActual);
    var newOffset := lastOffset + lastActual;
    var newEntry := DirEntry(child, buf.Length - newOffset, fileType, name);
    r := EncodeInto(newEntry, buf, newOffset, buf.Length);
    if r.Ok? {
      CarveBytes(es, name, child, fileType, buf.Length);
    }
  }

  /** remove_dir_entry, once the block is in memory. */
  method RemoveFromBlock(buf: array<byte>, target: u32, name: seq<byte>, ghost es: seq<DirEntry>)
    returns (r: Result<Unit>)
    requires Tiles(es, buf.Length) && buf[..] == Pack(es)
    modifies buf
    ensures FindBinding(es, name, target).None? ==> r == Err(NotFound(name)) && buf[..] == old(buf[..])
    ensures FindBinding(es, name, target).Some? ==>
      var i := FindBinding(es, name, target).value;
      && r.Ok? && (i > 0 ==> es[i - 1].recLen + es[i].recLen < 0x1_0000)
      && Tiles(Erase(es, i), buf.Length) && buf[..] == Pack(Erase(es, i))
  {
    var cursor := 0;
    var prevOffset: Option<nat>, foundOffset: Option<nat> := None, None;
    var foundRecLen: u16 := 0;
    ghost var i := 0;
    ghost var was := buf[..];
    assert es[..0] == [] && es[..|es|] == es;
    while cursor < buf.Length
      invariant i <= |es| && cursor == Offset(es, i) && (cursor < buf.Length ==> i < |es|)
      invariant buf[..] == was && foundOffset.None?
      invariant FindBinding(es, name, target) == FindBinding(es, name, target, i)
      invariant prevOffset == if i > 0 then Some(Offset(es, i - 1)) else None
      decreases |es| - i
    {
      hide Encoded, Encodable, Pack, Decode;
      DecodeAt(es, i);
      var entry :- Decode(buf[..][cursor..]);
      if !entry.IsUnused() && entry.name == name && entry.inode == target {
        foundOffset := Some(cursor);
        foundRecLen := entry.recLen;
        break;
      }
      prevOffset := Some(cursor);
      cursor := cursor + entry.recLen;
      i := i + 1;
    }
    if foundOffset.None? {
      LastReached(es, i);
      return Err(NotFound(name));
    }
    assert FindBinding(es, name, target) == Some(i);
    if prevOffset.Some? {
      r := MergeIntoPrevious(buf, prevOffset.value, foundRecLen, es, i);
    } else {
      TombstoneBytes(es, buf.Length);
      FillZero(buf, foundOffset.value, 4);
      return Ok(Unit.Unit);
    }
  }

  method MergeIntoPrevious(buf: array<byte>, prevOffset: nat, foundRecLen: u16, ghost es: seq<DirEntry>, ghost i: nat)
    returns (r: Result<Unit>)
    requires Tiles(es, buf.Length) && buf[..] == Pack(es)
    requires 0 < i < |es| && prevOffset == Offset(es, i - 1) && foundRecLen == es[i].recLen
    modifies buf
    ensures r.Ok? && es[i - 1].recLen + es[i].recLen < 0x1_0000
    ensures Tiles(Erase(es, i), buf.Length) && buf[..] == Pack(Erase(es, i))
  {
    hide Pack, Encoded, Put, Decode;
    DecodeAt(es, i - 1);
    EraseBytes(es, i, buf.Length);
    var prev :- Decode(buf[..][prevOffset..]);
    var newPrevRecLen := prev.recLen + foundRecLen;
    var updated := prev.(recLen := newPrevRecLen);
    r := EncodeInto(updated, buf, prevOffset, prevOffset + newPrevRecLen);
  }

  const DOTDOT: seq<byte> := [46, 46]
  const DOT: seq<byte> := [46]

  /** update_dotdot, once the block is in memory. */
  method RepointDotDot(buf: array<byte>, newParent: u32, ghost es: seq<DirEntry>) returns (r: Result<Unit>)
    requires Tiles(es, buf.Length) && buf[..] == Pack(es)
    modifies buf
    ensures match Find(es, DOTDOT)
            case None => r == Err(InvalidLayout) && buf[..] == old(buf[..])
            case Some(i) => && r.Ok? && Tiles(es[i := es[i].(inode := newParent)], buf.Length)
                            && buf[..] == Pack(es[i := es[i].(inode := newParent)])
  {
    var cursor := 0;
    ghost var i := 0;
    ghost var was := buf[..];
    assert es[..0] == [] && es[..|es|] == es;
    while cursor < buf.Length
      invariant i <= |es| && cursor == Offset(es, i) && (cursor < buf.Length ==> i < |es|)
      invariant buf[..] == was
      invariant Find(es, DOTDOT) == Find(es, DOTDOT, i)
      decreases |es| - i
    {
      hide Encoded, Pack, Decode, Put;
      DecodeAt(es, i);
      var entry :- Decode(buf[..][cursor..]);
      var recLen := entry.recLen;
      if !entry.IsUnused() && entry.name == DOTDOT {
        assert Encodable(es[i]);
        ReplaceBytes(es, i, entry.(inode := newParent), buf.Length);
        r := EncodeInto(entry.(inode := newParent), buf, cursor, cursor + recLen);
        return;
      }
      if recLen == 0 {
        break;
      }
      cursor := cursor + recLen;
      i := i + 1;
    }
    LastReached(es, i);
    return Err(InvalidLayout);
  }
}
