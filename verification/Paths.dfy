/** Absolute paths as byte strings (ext4/src/filesystem.rs, split_path, join_path, open_path). */
module Paths {
  import opened Bytes
  import opened Results

  const SLASH: byte := 47

  type Name = seq<byte>

  /** How far the first component reaches. */
  function NameLen(path: seq<byte>): (n: nat)
    ensures n <= |path|
    ensures forall i :: 0 <= i < n ==> path[i] != SLASH
    ensures n < |path| ==> path[n] == SLASH
  {
    if |path| == 0 || path[0] == SLASH then 0 else 1 + NameLen(path[1..])
  }

  /** The components `open_path` walks: what lies between slashes, empty pieces skipped. */
  function Components(path: seq<byte>): seq<Name>
    decreases |path|
  {
    if |path| == 0 then []
    else if path[0] == SLASH then Components(path[1..])
    else [path[..NameLen(path)]] + Components(path[NameLen(path)..])
  }

  function TrimEnd(path: seq<byte>): (r: seq<byte>)
    ensures |r| > 0 ==> r[|r| - 1] != SLASH
  {
    if |path| > 0 && path[|path| - 1] == SLASH then TrimEnd(path[..|path| - 1]) else path
  }

  function LastSlash(path: seq<byte>): (r: Option<nat>)
    ensures r.Some? ==> r.value < |path| && path[r.value] == SLASH && SLASH !in path[r.value + 1..]
    ensures r.None? ==> SLASH !in path
  {
    if |path| == 0 then None
    else if path[|path| - 1] == SLASH then Some(|path| - 1)
    else LastSlash(path[..|path| - 1])
  }

  function SplitPath(path: seq<byte>): Result<(seq<byte>, Name)> {
    if |path| == 0 || path[0] != SLASH then Err(InvalidLayout) else
    var trimmed := TrimEnd(path);
    match LastSlash(trimmed)
    case None => Err(InvalidLayout)
    case Some(i) =>
      var name := trimmed[i + 1..];
      if name == [] then Err(InvalidLayout)
      else Ok((if i == 0 then [SLASH] else trimmed[..i], name))
  }

  function JoinPath(parent: seq<byte>, name: Name): seq<byte> {
    if parent == [SLASH] then [SLASH] + name else parent + [SLASH] + name
  }

  predicate SlashFree(name: Name) {
    name != [] && SLASH !in name
  }

  lemma {:induction false} NameLenAppend(a: seq<byte>, b: seq<byte>)
    requires |b| == 0 || b[0] == SLASH
    ensures NameLen(a + b) == NameLen(a)
  {
    if |a| == 0 {
      assert a + b == b;
    } else if a[0] != SLASH {
      assert (a + b)[1..] == a[1..] + b;
      NameLenAppend(a[1..], b);
    }
  }

  /** A path splits at any slash. */
  lemma {:induction false} ComponentsAppend(a: seq<byte>, b: seq<byte>)
    requires |b| == 0 || b[0] == SLASH
    ensures Components(a + b) == Components(a) + Components(b)
    decreases |a|
  {
    if |a| == 0 {
      assert a + b == b;
    } else if a[0] == SLASH {
      assert (a + b)[1..] == a[1..] + b;
      ComponentsAppend(a[1..], b);
    } else {
      NameLenAppend(a, b);
      var n := NameLen(a);
      assert (a + b)[..n] == a[..n] && (a + b)[n..] == a[n..] + b;
      ComponentsAppend(a[n..], b);
    }
  }

  lemma ComponentsOfName(name: Name)
    requires SlashFree(name)
    ensures Components(name) == [name] && Components([SLASH] + name) == [name]
  {
    assert NameLen(name) == |name|;
    assert name[..|name|] == name && name[|name|..] == [];
    assert ([SLASH] + name)[1..] == name;
  }

  lemma {:induction false} ComponentsTrimmed(path: seq<byte>)
    ensures Components(TrimEnd(path)) == Components(path)
  {
    if |path| > 0 && path[|path| - 1] == SLASH {
      var front := path[..|path| - 1];
      ComponentsTrimmed(front);
      assert path == front + [SLASH];
      ComponentsAppend(front, [SLASH]);
      assert [SLASH][1..] == [];
      assert Components([SLASH]) == [];
    }
  }

  lemma {:induction false} TrimKeepsStart(path: seq<byte>)
    ensures |TrimEnd(path)| <= |path| && (|TrimEnd(path)| > 0 ==> TrimEnd(path)[0] == path[0])
  {
    if |path| > 0 && path[|path| - 1] == SLASH {
      TrimKeepsStart(path[..|path| - 1]);
    }
  }

  lemma ComponentsOfRoot()
    ensures Components([SLASH]) == [] && Components([]) == []
  {
    assert [SLASH][1..] == [];
  }

  /** `parent/name` has the parent's components and then the name. */
  lemma ComponentsJoined(a: seq<byte>, name: Name)
    requires SlashFree(name)
    ensures Components(a + [SLASH] + name) == Components(a) + [name]
  {
    hide Components;
    var b := [SLASH] + name;
    assert a + [SLASH] + name == a + b;
    ComponentsAppend(a, b);
    ComponentsOfName(name);
  }

  lemma SplitAt(trimmed: seq<byte>, i: nat)
    requires i < |trimmed| && trimmed[i] == SLASH && trimmed[|trimmed| - 1] != SLASH && SLASH !in trimmed[i + 1..]
    ensures SlashFree(trimmed[i + 1..])
    ensures Components(trimmed) == Components(trimmed[..i]) + [trimmed[i + 1..]]
    ensures trimmed[..0] == []
  {
    hide Components;
    var name := trimmed[i + 1..];
    assert trimmed == trimmed[..i] + [SLASH] + name;
    ComponentsJoined(trimmed[..i], name);
  }

  /** A non-empty trimmed path always splits. */
  lemma SplitNonEmpty(path: seq<byte>, i: nat)
    requires |path| > 0 && path[0] == SLASH && LastSlash(TrimEnd(path)) == Some(i)
    ensures i < |TrimEnd(path)| && TrimEnd(path)[i + 1..] != []
    ensures SplitPath(path) == Ok((if i == 0 then [SLASH] else TrimEnd(path)[..i], TrimEnd(path)[i + 1..]))
  {
    hide TrimEnd, LastSlash;
    var trimmed := TrimEnd(path);
    assert trimmed[|trimmed| - 1] != SLASH;
    assert |trimmed[i + 1..]| > 0;
  }

  /** split_path accepts exactly the absolute paths with a final component, and
      agrees with the walk: the parent's components, then the name. */
  lemma SplitAgreesWithWalk(path: seq<byte>)
    ensures SplitPath(path).Ok? <==> |path| > 0 && path[0] == SLASH && Components(path) != []
    ensures SplitPath(path).Ok? ==>
      var (parent, name) := SplitPath(path).value;
      && SlashFree(name) && |parent| > 0 && parent[0] == SLASH
      && Components(path) == Components(parent) + [name]
  {
    hide Components, TrimEnd, LastSlash;
    if |path| > 0 && path[0] == SLASH {
      var trimmed := TrimEnd(path);
      ComponentsTrimmed(path);
      TrimKeepsStart(path);
      ComponentsOfRoot();
      if |trimmed| > 0 {
        assert trimmed[0] in trimmed;
        var i := LastSlash(trimmed).value;
        SplitNonEmpty(path, i);
        SplitAt(trimmed, i);
        hide SplitPath;
        assert Components(path) == Components(trimmed[..i]) + [trimmed[i + 1..]];
        assert i > 0 ==> trimmed[..i][0] == trimmed[0];
      }
    }
  }

  lemma {:induction false} LastSlashAppend(a: seq<byte>, name: Name)
    requires SLASH !in name
    ensures LastSlash(a + [SLASH] + name) == Some(|a|)
    decreases |name|
  {
    var p := a + [SLASH] + name;
    if |name| > 0 {
      var n := |name| - 1;
      assert name[n] in name;
      assert p[..|p| - 1] == a + [SLASH] + name[..n];
      LastSlashAppend(a, name[..n]);
    }
  }

  /** Joining and splitting again finds the same directory and name. */
  lemma JoinThenSplit(parent: seq<byte>, name: Name)
    requires |parent| > 0 && parent[0] == SLASH && SlashFree(name)
    ensures var r := SplitPath(JoinPath(parent, name));
            r.Ok? && r.value.1 == name && Components(r.value.0) == Components(parent)
    ensures Components(JoinPath(parent, name)) == Components(parent) + [name]
  {
    hide Components, TrimEnd, LastSlash;
    ComponentsOfRoot();
    var a := if parent == [SLASH] then [] else parent;
    var p := JoinPath(parent, name);
    assert p == a + [SLASH] + name;
    ComponentsJoined(a, name);
    LastSlashAppend(a, name);
    TrimNothing(p, name);
    assert p[|a| + 1..] == name && p[..|a|] == a;
  }

  lemma TrimNothing(p: seq<byte>, name: Name)
    requires SlashFree(name) && |p| >= |name| && p[|p| - |name|..] == name
    ensures TrimEnd(p) == p
  {
    assert p[|p| - 1] == name[|name| - 1];
    assert name[|name| - 1] in name;
  }
}
