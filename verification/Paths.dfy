// Path comparison, from internal/lima/inspect.go and internal/lima/commands.go.

module Paths {
  import opened Values

  /** filepath.Clean on Unix: the shortest path with the same meaning, worked
      out on the path's components. */
  function Clean(path: string): (r: string)
  {
    if path == "" then "."
    else
      var rooted := path[0] == '/';
      var joined := Join(Reduce(Split(path), [], rooted));
      if rooted then "/" + joined else if joined == "" then "." else joined
  }

  function Split(path: string): (r: seq<string>)
    ensures r != []
  {
    if path == "" then [""] else Prepend(path[0], Split(path[1..]))
  }

  function Prepend(c: char, parts: seq<string>): (r: seq<string>)
    requires parts != []
    ensures r != []
  {
    if c == '/' then [""] + parts else [[c] + parts[0]] + parts[1..]
  }

  function Join(parts: seq<string>): string {
    if parts == [] then "" else if |parts| == 1 then parts[0] else parts[0] + "/" + Join(parts[1..])
  }

  /** Drops empty and "." components and lets ".." undo the one before it. */
  function Reduce(parts: seq<string>, kept: seq<string>, rooted: bool): seq<string>
    decreases |parts|
  {
    if parts == [] then kept
    else if parts[0] == "" || parts[0] == "." then Reduce(parts[1..], kept, rooted)
    else if parts[0] == ".." then
      if kept != [] && kept[|kept| - 1] != ".." then Reduce(parts[1..], kept[..|kept| - 1], rooted)
      else if rooted then Reduce(parts[1..], kept, rooted)
      else Reduce(parts[1..], kept + [".."], rooted)
    else Reduce(parts[1..], kept + [parts[0]], rooted)
  }

  const PRIVATE := "/private"

  predicate HasPrefix(s: string, prefix: string) { prefix <= s }

  function TrimPrefix(s: string, prefix: string): string {
    if HasPrefix(s, prefix) then s[|prefix|..] else s
  }

  /** Whether two paths name the same place, as the program decides it. */
  predicate SamePath(a: string, b: string) {
    var x, y := Clean(a), Clean(b);
    x == y || TrimPrefix(x, PRIVATE) == TrimPrefix(y, PRIVATE)
  }

  /** What SamePath really compares. */
  function PathKey(path: string): string { TrimPrefix(Clean(path), PRIVATE) }

  /** SamePath is equality of keys, hence reflexive, symmetric and transitive. */
  lemma SamePathIsEquivalence(a: string, b: string, c: string)
    ensures SamePath(a, b) <==> PathKey(a) == PathKey(b)
    ensures SamePath(a, a)
    ensures SamePath(a, b) ==> SamePath(b, a)
    ensures SamePath(a, b) && SamePath(b, c) ==> SamePath(a, c)
  {
  }

  /** Exactly which spellings are accepted: equal after cleaning, or one of them
      is the other with the text "/private" in front. */
  lemma SamePathExact(a: string, b: string)
    ensures SamePath(a, b) <==>
            || Clean(a) == Clean(b)
            || (Clean(a) == PRIVATE + Clean(b) && !HasPrefix(Clean(b), PRIVATE))
            || (Clean(b) == PRIVATE + Clean(a) && !HasPrefix(Clean(a), PRIVATE))
  {
    var x, y := Clean(a), Clean(b);
    if HasPrefix(x, PRIVATE) { assert x == PRIVATE + TrimPrefix(x, PRIVATE); }
    if HasPrefix(y, PRIVATE) { assert y == PRIVATE + TrimPrefix(y, PRIVATE); }
    if x == PRIVATE + y { assert x[|PRIVATE|..] == y; }
    if y == PRIVATE + x { assert y[|PRIVATE|..] == x; }
  }

  /** Where paths are resolved: the user's home and the working directory, when
      they can be determined. */
  datatype Host = Host(home: Option<string>, cwd: Option<string>)

  function JoinPath(dir: string, rest: string): string {
    if dir == "" && rest == "" then ""
    else if dir == "" then Clean(rest)
    else if rest == "" then Clean(dir)
    else Clean(dir + "/" + rest)
  }

  /** ExpandPath: a leading ~ is the home directory, and the result is absolute
      and clean. */
  function ExpandPath(h: Host, path: string): Option<string> {
    if path == "" then Some("")
    else
      var tilde := path == "~" || HasPrefix(path, "~/");
      if tilde && h.home.None? then None
      else
        var p := if !tilde then path else if path == "~" then h.home.value else JoinPath(h.home.value, path[2..]);
        if HasPrefix(p, "/") then Some(Clean(p))
        else if h.cwd.None? then None
        else Some(Clean(JoinPath(h.cwd.value, p)))
  }

  // ---------------------------------------------------------------------
  // Cleaning is a normal form
  // ---------------------------------------------------------------------

  /** A list of components nothing can be dropped from: ".." only leads, and
      only in a relative path. */
  predicate Reduced(parts: seq<string>, rooted: bool) {
    && (forall i | 0 <= i < |parts| :: parts[i] != "" && parts[i] != "." && '/' !in parts[i])
    && (forall i | 0 <= i < |parts| && parts[i] == ".." ::
          !rooted && forall j | 0 <= j < i :: parts[j] == "..")
  }

  lemma {:induction false} SplitHasNoSlash(path: string)
    ensures forall i | 0 <= i < |Split(path)| :: '/' !in Split(path)[i]
  {
    if path != "" { SplitHasNoSlash(path[1..]); }
  }

  lemma {:induction false} ReduceReduces(parts: seq<string>, kept: seq<string>, rooted: bool)
    requires Reduced(kept, rooted) && forall i | 0 <= i < |parts| :: '/' !in parts[i]
    ensures Reduced(Reduce(parts, kept, rooted), rooted)
    decreases |parts|
  {
    if parts != [] {
      if parts[0] == "" || parts[0] == "." {
        ReduceReduces(parts[1..], kept, rooted);
      } else if parts[0] == ".." {
        if kept != [] && kept[|kept| - 1] != ".." {
          ReduceReduces(parts[1..], kept[..|kept| - 1], rooted);
        } else if rooted {
          ReduceReduces(parts[1..], kept, rooted);
        } else {
          ReduceReduces(parts[1..], kept + [".."], rooted);
        }
      } else {
        ReduceReduces(parts[1..], kept + [parts[0]], rooted);
      }
    }
  }

  /** Nothing is dropped from a reduced list. */
  lemma {:induction false} ReducedStays(kept: seq<string>, parts: seq<string>, rooted: bool)
    requires Reduced(kept + parts, rooted)
    ensures Reduce(parts, kept, rooted) == kept + parts
    decreases |parts|
  {
    if parts == [] {
      assert kept + parts == kept;
    } else {
      assert (kept + parts)[|kept|] == parts[0];
      assert kept + parts == (kept + [parts[0]]) + parts[1..];
      assert kept != [] ==> (kept + parts)[|kept| - 1] == kept[|kept| - 1];
      ReducedStays(kept + [parts[0]], parts[1..], rooted);
    }
  }

  lemma {:induction false} SplitOfPart(part: string, rest: string)
    requires '/' !in part
    ensures Split(part) == [part]
    ensures Split(part + "/" + rest) == [part] + Split(rest)
  {
    var whole := part + "/" + rest;
    if part == "" {
      assert whole[1..] == rest;
    } else {
      SplitOfPart(part[1..], rest);
      assert whole[1..] == part[1..] + "/" + rest;
      assert part == [part[0]] + part[1..];
    }
  }

  lemma {:induction false} SplitOfJoin(parts: seq<string>)
    requires parts != [] && forall i | 0 <= i < |parts| :: '/' !in parts[i]
    ensures Split(Join(parts)) == parts
  {
    if |parts| == 1 {
      SplitOfPart(parts[0], "");
    } else {
      SplitOfPart(parts[0], Join(parts[1..]));
      SplitOfJoin(parts[1..]);
    }
  }

  /** The components a path comes down to. */
  function Components(path: string): seq<string>
    requires path != ""
  {
    Reduce(Split(path), [], path[0] == '/')
  }

  lemma CleanOfNothing()
    ensures Components("/") == Components(".") == []
    ensures Clean(".") == "."
  {
    assert "/"[1..] == "" && Split("/") == ["", ""] && ["", ""][1..] == [""];
    SplitOfPart(".", "");
    assert ["."][1..] == [];
  }

  /** Cleaning does not change what a path comes down to. */
  lemma CleanKeepsComponents(path: string)
    requires path != ""
    ensures Clean(path) != "" && (Clean(path)[0] == '/' <==> path[0] == '/')
    ensures Components(Clean(path)) == Components(path)
  {
    var rooted := path[0] == '/';
    var parts := Components(path);
    SplitHasNoSlash(path);
    ReduceReduces(Split(path), [], rooted);
    ReducedStays([], parts, rooted);
    assert [] + parts == parts;
    if parts != [] {
      SplitOfJoin(parts);
      JoinStarts(parts);
      if rooted {
        var cleaned := "/" + Join(parts);
        assert cleaned[1..] == Join(parts);
        assert Split(cleaned) == [""] + parts && ([""] + parts)[1..] == parts;
      }
    } else {
      CleanOfNothing();
    }
  }

  lemma JoinStarts(parts: seq<string>)
    requires parts != [] && parts[0] != "" && '/' !in parts[0]
    ensures Join(parts) != "" && Join(parts)[0] != '/'
  {
    assert Join(parts)[0] == parts[0][0] && parts[0][0] in parts[0];
  }

  lemma CleanIdempotent(path: string)
    ensures Clean(Clean(path)) == Clean(path)
  {
    CleanOfNothing();
    if path != "" {
      CleanKeepsComponents(path);
      CleanExactly(Clean(path), path);
    }
  }

  /** Two paths clean alike exactly when they are both absolute or both relative
      and come down to the same components. */
  lemma CleanExactly(a: string, b: string)
    requires a != "" && b != ""
    ensures Clean(a) == Clean(b) <==> (a[0] == '/' <==> b[0] == '/') && Components(a) == Components(b)
  {
    CleanKeepsComponents(a);
    CleanKeepsComponents(b);
  }

  /** A rooted path of components nothing can be dropped from is clean. */
  lemma ReducedIsClean(parts: seq<string>)
    requires parts != [] && Reduced(parts, true)
    ensures Clean("/" + Join(parts)) == "/" + Join(parts)
  {
    SplitOfJoin(parts);
    assert ("/" + Join(parts))[1..] == Join(parts);
    assert Split("/" + Join(parts)) == [""] + parts && ([""] + parts)[1..] == parts;
    assert [] + parts == parts;
    ReducedStays([], parts, true);
  }

  /** A trailing separator, or a step down and up again, changes nothing. */
  lemma DetoursVanish(path: string, name: string)
    requires path != "" && '/' !in name && name !in {"", ".", ".."}
    ensures Clean(path + "/") == Clean(path)
    ensures Clean(path + "/" + (name + "/..")) == Clean(path)
  {
    Detour(path, "", [""]);
    assert path + "/" + "" == path + "/";
    SplitOfPart(name, "..");
    assert name + "/" + ".." == name + "/..";
    SplitOfPart("..", "");
    var kept := Components(path);
    assert [name, ".."][1..] == [".."] && [".."][1..] == [] && [""][1..] == [];
    assert (kept + [name])[..|kept|] == kept;
    assert Reduce([".."], kept + [name], path[0] == '/') == kept;
    Detour(path, name + "/..", [name, ".."]);
  }

  lemma Detour(path: string, tail: string, parts: seq<string>)
    requires path != "" && Split(tail) == parts && Reduce(parts, Components(path), path[0] == '/') == Components(path)
    ensures Clean(path + "/" + tail) == Clean(path)
  {
    SplitOfTail(path, tail);
    ReduceTail(Split(path), parts, [], path[0] == '/');
    CleanExactly(path, path + "/" + tail);
  }

  lemma {:induction false} SplitOfTail(a: string, b: string)
    ensures Split(a + "/" + b) == Split(a) + Split(b)
  {
    var whole := a + "/" + b;
    if a == "" {
      assert whole[1..] == b;
    } else {
      SplitOfTail(a[1..], b);
      assert whole[0] == a[0] && whole[1..] == a[1..] + "/" + b;
      PrependAppend(a[0], Split(a[1..]), Split(b));
    }
  }

  lemma PrependAppend(c: char, a: seq<string>, b: seq<string>)
    requires a != []
    ensures Prepend(c, a + b) == Prepend(c, a) + b
  {
    assert (a + b)[0] == a[0] && (a + b)[1..] == a[1..] + b;
  }

  lemma {:induction false} ReduceTail(a: seq<string>, b: seq<string>, kept: seq<string>, rooted: bool)
    ensures Reduce(a + b, kept, rooted) == Reduce(b, Reduce(a, kept, rooted), rooted)
    decreases |a|
  {
    if a == [] {
      assert a + b == b;
    } else {
      assert (a + b)[1..] == a[1..] + b;
      var next :=
        if a[0] == "" || a[0] == "." then kept
        else if a[0] == ".." then
          if kept != [] && kept[|kept| - 1] != ".." then kept[..|kept| - 1] else if rooted then kept else kept + [".."]
        else kept + [a[0]];
      ReduceTail(a[1..], b, next, rooted);
    }
  }
}
