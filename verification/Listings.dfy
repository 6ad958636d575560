/** A directory's records as a listing: `.`, `..`, then distinctly named entries. */
module Listings {
  import opened Bytes
  import opened Results
  import opened DirEntries
  import opened DirBlocks
  import opened Paths

  const FT_DIR: byte := 2

  /** A name that is not one of the two dots and may appear in a path. */
  predicate Ordinary(name: Name) {
    SlashFree(name) && name != DOT && name != DOTDOT
  }

  predicate DistinctNames(es: seq<DirEntry>) {
    forall i, j :: 0 <= i < j < |es| ==> es[i].name != es[j].name
  }

  /** The listing of directory `k`. No record is a tombstone. */
  predicate ListingOk(k: nat, es: seq<DirEntry>) {
    && |es| >= 2
    && es[0].name == DOT && es[0].inode == k && es[0].fileType == FT_DIR
    && es[1].name == DOTDOT && es[1].fileType == FT_DIR
    && (forall i :: 0 <= i < |es| ==> es[i].inode != 0)
    && (forall i :: 2 <= i < |es| ==> Ordinary(es[i].name))
    && DistinctNames(es)
  }

  /** What a name stands for: an inode and the type byte recorded beside it. */
  datatype Binding = Binding(inode: nat, fileType: byte)

  function BindingOf(e: DirEntry): Binding {
    Binding(e.inode, e.fileType)
  }

  function LookupName(es: seq<DirEntry>, name: Name): Option<Binding> {
    match Find(es, name) case None => None case Some(i) => Some(BindingOf(es[i]))
  }

  /** Each record is found under its own name, and nothing else is found. */
  lemma LookupAt(k: nat, es: seq<DirEntry>, i: nat)
    requires ListingOk(k, es) && i < |es|
    ensures Find(es, es[i].name) == Some(i) && LookupName(es, es[i].name) == Some(BindingOf(es[i]))
    ensures FindBinding(es, es[i].name, es[i].inode) == Some(i)
  {
    hide Find, FindBinding;
    assert es[i].inode != 0;
  }

  lemma LookupMiss(es: seq<DirEntry>, name: Name)
    requires forall i :: 0 <= i < |es| ==> es[i].name != name
    ensures LookupName(es, name) == None
  {
    hide Find;
  }

  lemma LookupHit(k: nat, es: seq<DirEntry>, name: Name)
    requires ListingOk(k, es) && LookupName(es, name).Some?
    ensures Find(es, name).Some?
    ensures var i := Find(es, name).value;
      && es[i].name == name && LookupName(es, name) == Some(BindingOf(es[i]))
      && FindBinding(es, name, es[i].inode) == Some(i)
      && (Ordinary(name) ==> i >= 2) && (name == DOT ==> i == 0) && (name == DOTDOT ==> i == 1)
  {
    hide FindBinding;
    var i := Find(es, name).value;
    LookupAt(k, es, i);
    LookupAt(k, es, 0);
    LookupAt(k, es, 1);
  }

  /** Two listings with the same names and inodes, position by position or shifted, answer alike. */
  lemma OneAnswer(a: seq<DirEntry>, k': nat, b: seq<DirEntry>, name: Name)
    requires ListingOk(k', b)
    requires forall i :: 0 <= i < |a| && a[i].name == name ==>
      exists j :: 0 <= j < |b| && b[j].name == name && BindingOf(b[j]) == BindingOf(a[i])
    ensures LookupName(a, name).Some? ==> LookupName(b, name) == LookupName(a, name)
  {
    hide Find, ListingOk;
    if LookupName(a, name).Some? {
      var i := Find(a, name).value;
      var j :| 0 <= j < |b| && b[j].name == name && BindingOf(b[j]) == BindingOf(a[i]);
      LookupAt(k', b, j);
    }
  }

  lemma SameAnswer(k: nat, a: seq<DirEntry>, k': nat, b: seq<DirEntry>, name: Name)
    requires ListingOk(k, a) && ListingOk(k', b)
    requires forall i :: 0 <= i < |a| && a[i].name == name ==>
      exists j :: 0 <= j < |b| && b[j].name == name && BindingOf(b[j]) == BindingOf(a[i])
    requires forall j :: 0 <= j < |b| && b[j].name == name ==>
      exists i :: 0 <= i < |a| && a[i].name == name && BindingOf(a[i]) == BindingOf(b[j])
    ensures LookupName(a, name) == LookupName(b, name)
  {
    hide Find, ListingOk, LookupName;
    OneAnswer(a, k', b, name);
    OneAnswer(b, k, a, name);
  }

  // ----- adding -----

  /** Carving keeps every old binding in place and appends the new one. */
  lemma CarveShape(es: seq<DirEntry>, name: Name, child: u32, ft: byte)
    requires |es| > 0 && AllEncodable(es) && CarveFault(es, name).None?
    ensures var r := Carve(es, name, child, ft);
      && |r| == |es| + 1
      && (forall i :: 0 <= i < |es| ==>
           r[i].name == es[i].name && r[i].inode == es[i].inode && r[i].fileType == es[i].fileType)
      && r[|es|].name == name && r[|es|].inode == child && r[|es|].fileType == ft
  {
    CarveParts(es, name, child, ft);
  }

  lemma CarveListing(k: nat, es: seq<DirEntry>, name: Name, child: u32, ft: byte, size: nat)
    requires ListingOk(k, es) && Tiles(es, size) && CarveFault(es, name).None?
    requires Ordinary(name) && LookupName(es, name) == None && child != 0
    ensures ListingOk(k, Carve(es, name, child, ft)) && Tiles(Carve(es, name, child, ft), size)
  {
    CarveShape(es, name, child, ft);
    CarveBytes(es, name, child, ft, size);
    hide Carve, CarveFault, Encodable, Pack, Tiles;
    forall i | 0 <= i < |es| ensures es[i].name != name {
      LookupAt(k, es, i);
    }
  }

  lemma CarveLookup(k: nat, es: seq<DirEntry>, name: Name, child: u32, ft: byte, size: nat, n: Name)
    requires ListingOk(k, es) && Tiles(es, size) && CarveFault(es, name).None?
    requires Ordinary(name) && LookupName(es, name) == None && child != 0
    ensures LookupName(Carve(es, name, child, ft), n) == if n == name then Some(Binding(child, ft))
      else LookupName(es, n)
  {
    CarveShape(es, name, child, ft);
    CarveListing(k, es, name, child, ft, size);
    var r := Carve(es, name, child, ft);
    hide Carve, CarveFault, Tiles, ListingOk, LookupName;
    if n == name {
      LookupAt(k, r, |es|);
    } else {
      forall i | 0 <= i < |es| && es[i].name == n ensures exists j ::
        0 <= j < |r| && r[j].name == n && BindingOf(r[j]) == BindingOf(es[i]) {
        assert r[i].name == n;
      }
      forall j | 0 <= j < |r| && r[j].name == n ensures exists i ::
        0 <= i < |es| && es[i].name == n && BindingOf(es[i]) == BindingOf(r[j]) {
        assert es[j].name == n;
      }
      SameAnswer(k, es, k, r, n);
    }
  }

  // ----- removing -----

  function Skip(i: nat, j: nat): (r: nat)
    ensures j <= r <= j + 1
  {
    if j < i then j else j + 1
  }

  lemma EraseShape(es: seq<DirEntry>, i: nat, size: nat)
    requires Tiles(es, size) && 0 < i < |es|
    ensures es[i - 1].recLen + es[i].recLen < 0x1_0000
    ensures Tiles(Erase(es, i), size) && |Erase(es, i)| == |es| - 1
    ensures forall j :: 0 <= j < |es| - 1 ==>
      && Erase(es, i)[j].name == es[Skip(i, j)].name
      && Erase(es, i)[j].inode == es[Skip(i, j)].inode
      && Erase(es, i)[j].fileType == es[Skip(i, j)].fileType
  {
    hide Tiles, Pack, Encodable, AllEncodable, Put, Encoded, Erase, Skip;
    EraseBytes(es, i, size);
    forall j | 0 <= j < |es| - 1
      ensures Erase(es, i)[j].name == es[Skip(i, j)].name && Erase(es, i)[j].inode == es[Skip(i, j)].inode
      ensures Erase(es, i)[j].fileType == es[Skip(i, j)].fileType
    {
      ErasedAt(es, i, j);
    }
  }

  lemma ErasedAt(es: seq<DirEntry>, i: nat, j: nat)
    requires 0 < i < |es| && es[i - 1].recLen + es[i].recLen < 0x1_0000 && j < |es| - 1
    ensures Skip(i, j) < |es| && Erase(es, i)[j] == es[Skip(i, j)].(recLen := Erase(es, i)[j].recLen)
  {
  }

  /** Removing record `i` of a listing leaves a listing exactly when it is not one of the two dots. */
  lemma EraseListing(k: nat, es: seq<DirEntry>, i: nat, size: nat)
    requires ListingOk(k, es) && Tiles(es, size) && i < |es|
    ensures i > 0 ==> es[i - 1].recLen + es[i].recLen < 0x1_0000
    ensures ListingOk(k, Erase(es, i)) <==> i >= 2
    ensures Tiles(Erase(es, i), size)
  {
    if i == 0 {
      TombstoneBytes(es, size);
      assert Erase(es, 0)[0].inode == 0;
    } else {
      EraseShape(es, i, size);
      var r := Erase(es, i);
      hide Erase, Tiles;
      if i == 1 {
        if |r| >= 2 {
          assert r[1].name == es[2].name;
        }
      } else {
        SkippedListing(k, es, i, r);
      }
    }
  }

  lemma SkippedListing(k: nat, es: seq<DirEntry>, i: nat, r: seq<DirEntry>)
    requires ListingOk(k, es) && 2 <= i < |es| && |r| == |es| - 1
    requires forall j :: 0 <= j < |r| ==>
      r[j].name == es[Skip(i, j)].name && r[j].inode == es[Skip(i, j)].inode && r[j].fileType == es[Skip(i, j)].fileType
    ensures ListingOk(k, r)
  {
    assert r[0].name == es[0].name && r[1].name == es[1].name;
    forall a, b | 0 <= a < b < |r| ensures r[a].name != r[b].name {
      assert Skip(i, a) < Skip(i, b);
    }
  }

  lemma EraseLookup(k: nat, es: seq<DirEntry>, i: nat, size: nat, n: Name)
    requires ListingOk(k, es) && Tiles(es, size) && 2 <= i < |es|
    ensures es[i - 1].recLen + es[i].recLen < 0x1_0000
    ensures LookupName(Erase(es, i), n) == if n == es[i].name then None else LookupName(es, n)
  {
    EraseShape(es, i, size);
    EraseListing(k, es, i, size);
    var r := Erase(es, i);
    if n == es[i].name {
      forall j | 0 <= j < |r| ensures r[j].name != n {
        assert Skip(i, j) != i;
      }
      LookupMiss(r, n);
    } else {
      hide Erase, Tiles, LookupName, ListingOk;
      forall a | 0 <= a < |es| && es[a].name == n ensures exists j ::
        0 <= j < |r| && r[j].name == n && BindingOf(r[j]) == BindingOf(es[a]) {
        var j := if a < i then a else a - 1;
        assert Skip(i, j) == a && r[j].name == n;
      }
      forall j | 0 <= j < |r| && r[j].name == n ensures exists a ::
        0 <= a < |es| && es[a].name == n && BindingOf(es[a]) == BindingOf(r[j]) {
        assert es[Skip(i, j)].name == n;
      }
      SameAnswer(k, es, k, r, n);
    }
  }

  /** Adding a fresh name and removing it again restores the records, lengths included. */
  lemma EraseCarved(k: nat, es: seq<DirEntry>, name: Name, child: u32, ft: byte, size: nat)
    requires ListingOk(k, es) && Tiles(es, size) && CarveFault(es, name).None?
    requires Ordinary(name) && LookupName(es, name) == None && child != 0
    ensures var r := Carve(es, name, child, ft);
      && FindBinding(r, name, child) == Some(|es|) && Find(r, name) == Some(|es|)
      && r[|es| - 1].recLen + r[|es|].recLen < 0x1_0000
      && Erase(r, |es|) == es
  {
    var r := Carve(es, name, child, ft);
    CarveShape(es, name, child, ft);
    CarveListing(k, es, name, child, ft, size);
    LookupAt(k, r, |es|);
    CarveParts(es, name, child, ft);
    hide CarveFault, Tiles, ListingOk, Find, FindBinding;
    assert Erase(r, |es|) == es;
  }

  // ----- repointing `..` -----

  function Repoint(es: seq<DirEntry>, parent: u32): (r: seq<DirEntry>)
    requires |es| >= 2
    ensures |r| == |es|
  {
    es[1 := es[1].(inode := parent)]
  }

  lemma RepointListing(k: nat, es: seq<DirEntry>, parent: u32, size: nat)
    requires ListingOk(k, es) && Tiles(es, size) && parent != 0
    ensures Find(es, DOTDOT) == Some(1)
    ensures ListingOk(k, Repoint(es, parent)) && Tiles(Repoint(es, parent), size)
  {
    LookupAt(k, es, 1);
    assert Encodable(es[1]);
    ReplaceBytes(es, 1, es[1].(inode := parent), size);
    hide Find, Tiles;
    var r := Repoint(es, parent);
    assert forall i :: 0 <= i < |es| ==> r[i].name == es[i].name;
  }

  lemma RepointLookup(k: nat, es: seq<DirEntry>, parent: u32, size: nat, n: Name)
    requires ListingOk(k, es) && Tiles(es, size) && parent != 0
    ensures LookupName(Repoint(es, parent), n) == if n == DOTDOT then Some(Binding(parent, FT_DIR))
      else LookupName(es, n)
  {
    RepointListing(k, es, parent, size);
    var r := Repoint(es, parent);
    hide LookupName, Tiles;
    if n == DOTDOT {
      LookupAt(k, r, 1);
    } else {
      assert r[0].name == es[0].name && forall i :: 0 <= i < |es| && i != 1 ==> r[i] == es[i];
      hide ListingOk;
      forall i | 0 <= i < |es| && es[i].name == n ensures exists j ::
        0 <= j < |r| && r[j].name == n && BindingOf(r[j]) == BindingOf(es[i]) {
        assert r[i].name == n;
      }
      forall j | 0 <= j < |r| && r[j].name == n ensures exists i ::
        0 <= i < |es| && es[i].name == n && BindingOf(es[i]) == BindingOf(r[j]) {
        assert es[j].name == n;
      }
      SameAnswer(k, es, k, r, n);
    }
  }

  // ----- how many records fit -----

  /** Every record is named, so a block of `size` bytes has at most `size / 12` of them. */
  lemma ListingRoom(k: nat, es: seq<DirEntry>, size: nat)
    requires ListingOk(k, es) && Tiles(es, size)
    ensures 12 * |es| <= size
  {
    hide Pack, Encodable;
    PackRoom(es);
  }

  /** The listing of a directory just made: `.` and `..`, the latter filling the block. */
  function NewListing(k: u32, parent: u32, size: nat): seq<DirEntry>
    requires 24 <= size < 0x1_0000 && size % 4 == 0
  {
    [DirEntry(k, 12, FT_DIR, DOT), DirEntry(parent, size - 12, FT_DIR, DOTDOT)]
  }

  lemma NewListingOk(k: u32, parent: u32, size: nat)
    requires 24 <= size < 0x1_0000 && size % 4 == 0 && k != 0 && parent != 0
    ensures ListingOk(k, NewListing(k, parent, size)) && Tiles(NewListing(k, parent, size), size)
    ensures Pack(NewListing(k, parent, size)) ==
      Encoded(NewListing(k, parent, size)[0]) + Encoded(NewListing(k, parent, size)[1])
  {
    var es := NewListing(k, parent, size);
    assert DOT[0] != DOTDOT[0] || |DOT| != |DOTDOT|;
    PackTwo(es[0], es[1]);
  }

  /** The bytes of that listing, written into a zeroed block. */
  method NewDirBlock(k: u32, parent: u32, size: nat) returns (r: Result<seq<byte>>)
    requires k != 0 && parent != 0 && (size == 2048 || size == 4096)
    ensures AllEncodable(NewListing(k, parent, size)) && r == Ok(Pack(NewListing(k, parent, size)))
  {
    NewListingOk(k, parent, size);
    var buf := new byte[size];
    FillZero(buf, 0, size);
    var dot := DirEntry(k, 12, FT_DIR, DOT);
    var dotdot := DirEntry(parent, size % 0x1_0000 - 12, FT_DIR, DOTDOT);
    assert Encodable(dot) && Encodable(dotdot);
    hide Encoded, Encodable;
    var first :- EncodeInto(dot, buf, 0, 12);
    var second :- EncodeInto(dotdot, buf, 12, size);
    assert buf[..] == Encoded(dot) + Encoded(dotdot);
    return Ok(buf[..]);
  }

  /** The entries that keep a directory alive. */
  method CountOthers(entries: seq<DirEntry>, ghost k: nat) returns (n: nat)
    requires ListingOk(k, entries)
    ensures n == |entries| - 2
  {
    n := 0;
    for i := 0 to |entries|
      invariant n == if i < 2 then 0 else i - 2
    {
      if !entries[i].IsUnused() && entries[i].name != DOT && entries[i].name != DOTDOT {
        n := n + 1;
      }
    }
  }
}
