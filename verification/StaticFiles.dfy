/** From the path of a request to the path of a file, on Unix, before the file system is asked. */
module StaticFiles {
  import opened Wrappers
  import opened Routing

  function UriToRelative(prefix: string, path: string): Option<string> {
    if prefix == "/" then Some(path)
    else if path == prefix then Some("/")
    else if |path| > |prefix| && prefix <= path && path[|prefix|] == '/' then Some(path[|prefix|..])
    else None
  }

  // ---- Path components ----

  datatype Component = Normal(name: string) | RootDir | CurDir | ParentDir

  /** `Path::components` on Unix: empty and "." segments vanish, but a leading "." is kept. */
  function Components(p: string): seq<Component> {
    var absolute := p != [] && p[0] == '/';
    (if absolute then [RootDir] else []) + ComponentsOf(Split(p), !absolute)
  }

  function ComponentsOf(segs: seq<string>, first: bool): seq<Component> {
    if segs == [] then []
    else
      (if segs[0] == "" || (segs[0] == "." && !first) then []
       else if segs[0] == "." then [CurDir]
       else if segs[0] == ".." then [ParentDir]
       else [Normal(segs[0])]) + ComponentsOf(segs[1..], false)
  }

  function TrimStart(s: string): string {
    if s != [] && s[0] == '/' then TrimStart(s[1..]) else s
  }

  /** Segments that name something: all but "" and ".". */
  function Named(segs: seq<string>): seq<string> {
    if segs == [] then []
    else (if segs[0] == "" || segs[0] == "." then [] else [segs[0]]) + Named(segs[1..])
  }

  /** What joining means: the named segments are appended, unless one goes to the parent. */
  function Joined(root: seq<string>, segs: seq<string>): Option<seq<string>> {
    if ".." in segs then None else Some(root + Named(segs))
  }

  /** `safe_join`; a path is the sequence of its components' names. */
  method SafeJoin(root: seq<string>, rel: string) returns (joined: Option<seq<string>>)
    ensures joined == Joined(root, Split(rel))
  {
    hide Split, Components, ComponentsOf, NamesOf, Named;
    TrimKeepsNames(rel);
    var trimmed := TrimStart(rel);
    var out := root;
    ComponentsOfTrimmed(trimmed);
    if trimmed == [] {
      return Some(out);
    }
    var comps := Components(trimmed);
    NamesOfNothing();
    for i := 0 to |comps|
      invariant ParentDir !in comps[..i] && out == root + NamesOf(comps[..i])
    {
      NamesOfNext(comps, i);
      match comps[i] {
        case Normal(c) => out := out + [c];
        case RootDir =>
        case CurDir =>
        case ParentDir => return None;
      }
    }
    assert comps[..|comps|] == comps;
    return Some(out);
  }

  lemma ComponentsOfTrimmed(trimmed: string)
    requires trimmed == [] || trimmed[0] != '/'
    ensures trimmed == [] ==> forall root: seq<string> :: Joined(root, Split(trimmed)) == Some(root)
    ensures ParentDir in Components(trimmed) <==> ".." in Split(trimmed)
    ensures ".." !in Split(trimmed) ==> NamesOf(Components(trimmed)) == Named(Split(trimmed))
  {
    ComponentsMean(Split(trimmed), true);
    assert Components(trimmed) == ComponentsOf(Split(trimmed), true);
    if trimmed == [] {
      EmptySegment();
      assert forall root: seq<string> :: root + [] == root;
    }
  }

  lemma EmptySegment()
    ensures Named([""]) == [] && ".." !in [""]
  {
    assert [""][1..] == [] && Named([]) == [];
    assert [""][0] != "..";
  }

  lemma NamesOfNothing()
    ensures NamesOf([]) == []
  {
  }

  lemma NamesOfNext(comps: seq<Component>, i: nat)
    requires i < |comps|
    ensures comps[..i + 1] == comps[..i] + [comps[i]]
    ensures NamesOf(comps[..i + 1]) == NamesOf(comps[..i]) + match comps[i] case Normal(c) => [c] case _ => []
  {
    assert comps[..i + 1][..i] == comps[..i];
  }

  function NamesOf(comps: seq<Component>): seq<string> {
    if comps == [] then []
    else NamesOf(comps[..|comps| - 1]) + match comps[|comps| - 1]
                                        case Normal(c) => [c]
                                        case _ => []
  }

  lemma {:induction false} NamesOfCons(c: Component, comps: seq<Component>)
    ensures NamesOf([c] + comps) == (match c case Normal(n) => [n] case _ => []) + NamesOf(comps)
    decreases |comps|
  {
    if comps == [] {
      assert [c] + comps == [c] && [c][..0] == [];
    } else {
      var all := [c] + comps;
      assert all[..|all| - 1] == [c] + comps[..|comps| - 1];
      NamesOfCons(c, comps[..|comps| - 1]);
    }
  }

  lemma {:induction false} ComponentsMean(segs: seq<string>, first: bool)
    ensures ParentDir in ComponentsOf(segs, first) <==> ".." in segs
    ensures ".." !in segs ==> NamesOf(ComponentsOf(segs, first)) == Named(segs)
    decreases |segs|
  {
    if segs != [] {
      ComponentsMean(segs[1..], false);
      var rest := ComponentsOf(segs[1..], false);
      assert segs == [segs[0]] + segs[1..];
      if segs[0] == "" || (segs[0] == "." && !first) {
        assert ComponentsOf(segs, first) == rest;
      } else {
        NamesOfCons(ComponentsOf(segs, first)[0], rest);
      }
    }
  }

  lemma {:induction false} TrimKeepsNames(rel: string)
    ensures forall root: seq<string> :: Joined(root, Split(TrimStart(rel))) == Joined(root, Split(rel))
    ensures TrimStart(rel) == [] || TrimStart(rel)[0] != '/'
  {
    if rel != [] && rel[0] == '/' {
      TrimKeepsNames(rel[1..]);
      var segs := Split(rel);
      assert segs[1..] == Split(rel[1..]) && segs == [""] + segs[1..];
      forall root: seq<string> ensures Joined(root, segs) == Joined(root, segs[1..]) {
        EmptyFirst(root, segs[1..]);
      }
    }
  }

  // ---- From request to file ----

  /**
   * For the location that serves a path: the relative path exists, and joining it to the root
   * is refused exactly when a segment after the location's own is "..", and otherwise appends
   * the named ones of those segments.
   */
  lemma FileOfRequest<A>(path: string, locations: seq<Location<A>>, root: seq<string>)
    requires MatchLocation(path, locations).Some?
    ensures
      var loc := MatchLocation(path, locations).value;
      && Wanted(loc.path) <= Split(path)
      && UriToRelative(loc.path, path).Some?
      && Joined(root, Split(UriToRelative(loc.path, path).value)) == Joined(root, Split(path)[|Wanted(loc.path)|..])
  {
    var i := MatchLocationIsBest(path, locations);
    var loc := locations[i];
    MatchesIffSegmentPrefix(path, loc.path);
    RelativeSegments(path, loc.path, root);
  }

  lemma RelativeSegments(path: string, prefix: string, root: seq<string>)
    requires LocationPrefixMatches(path, prefix) && Wanted(prefix) <= Split(path)
    ensures UriToRelative(prefix, path).Some?
    ensures Joined(root, Split(UriToRelative(prefix, path).value)) == Joined(root, Split(path)[|Wanted(prefix)|..])
  {
    if prefix == "/" {
      EmptyFirst(root, Split(path)[1..]);
      assert Split(path) == [""] + Split(path)[1..];
    } else if path == prefix {
      assert Split("/") == ["", ""];
      EmptyFirst(root, [""]);
      EmptyFirst(root, []);
      assert ["", ""] == [""] + [""] && [""] == [""] + [];
      assert Split(path)[|Split(prefix)|..] == [];
    } else {
      var rest := path[|prefix| + 1..];
      assert path == prefix + "/" + rest && path[|prefix|..] == "" + "/" + rest;
      SplitAtSlash(prefix, rest);
      SplitAtSlash("", rest);
      assert Split(path)[|Split(prefix)|..] == Split(rest);
      EmptyFirst(root, Split(rest));
    }
  }

  lemma EmptyFirst(root: seq<string>, segs: seq<string>)
    ensures Joined(root, [""] + segs) == Joined(root, segs)
  {
    var all := [""] + segs;
    assert all[0] == "" && all[1..] == segs && Named(all) == Named(segs);
    assert ".." in all ==> ".." in segs by {
      if ".." in all {
        var k :| 0 <= k < |all| && all[k] == "..";
        assert segs[k - 1] == "..";
      }
    }
    if k :| 0 <= k < |segs| && segs[k] == ".." {
      assert all[k + 1] == "..";
    }
  }

  /** A joined path stays below the root and never goes to a parent directory. */
  lemma JoinedStaysBelow(root: seq<string>, segs: seq<string>)
    ensures Joined(root, segs).Some? ==>
              root <= Joined(root, segs).value
              && forall s | s in Joined(root, segs).value[|root|..] :: s in segs && s !in {"", ".", ".."}
  {
    NamedAreNames(segs);
    if Joined(root, segs).Some? {
      assert Joined(root, segs).value[|root|..] == Named(segs);
    }
  }

  predicate IsName(seg: string) {
    seg != "" && seg != "."
  }

  /** How many of the first `k` segments are names. */
  function NamesBefore(segs: seq<string>, k: nat): nat
    requires k <= |segs|
  {
    if k == 0 then 0 else NamesBefore(segs, k - 1) + if IsName(segs[k - 1]) then 1 else 0
  }

  /** Every named segment stands in the joined path after the root, in order, and nothing else does. */
  lemma JoinedKeepsNames(root: seq<string>, segs: seq<string>)
    requires Joined(root, segs).Some?
    ensures |Joined(root, segs).value| == |root| + NamesBefore(segs, |segs|)
    ensures forall k | 0 <= k < |segs| && IsName(segs[k]) ::
              NamesBefore(segs, k) < NamesBefore(segs, |segs|)
              && Joined(root, segs).value[|root| + NamesBefore(segs, k)] == segs[k]
  {
    NamedInOrder(segs, |segs|);
    assert segs[..|segs|] == segs;
  }

  lemma {:induction false} NamedInOrder(segs: seq<string>, n: nat)
    requires n <= |segs|
    ensures |Named(segs[..n])| == NamesBefore(segs, n)
    ensures forall k | 0 <= k < n && IsName(segs[k]) ::
              NamesBefore(segs, k) < NamesBefore(segs, n) && Named(segs[..n])[NamesBefore(segs, k)] == segs[k]
    decreases n
  {
    if n > 0 {
      NamedInOrder(segs, n - 1);
      NamedOfSnoc(segs[..n - 1], segs[n - 1]);
      assert segs[..n] == segs[..n - 1] + [segs[n - 1]];
    }
  }

  lemma {:induction false} NamedOfSnoc(segs: seq<string>, seg: string)
    ensures Named(segs + [seg]) == Named(segs) + if IsName(seg) then [seg] else []
    decreases |segs|
  {
    var all := segs + [seg];
    if segs == [] {
      assert all[1..] == [];
    } else {
      assert all[1..] == segs[1..] + [seg];
      NamedOfSnoc(segs[1..], seg);
    }
  }

  lemma {:induction false} NamedAreNames(segs: seq<string>)
    ensures forall s | s in Named(segs) :: s in segs && s != "" && s != "."
  {
    if segs != [] {
      NamedAreNames(segs[1..]);
      assert segs == [segs[0]] + segs[1..];
    }
  }
}
