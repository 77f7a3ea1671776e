/**
 * Which location serves a path. Strings here are sequences of bytes, written as characters:
 * lengths and indices are those of the source's byte strings.
 */
module Routing {
  import opened Wrappers

  // ---- Segments ----

  /** The parts between slashes; the empty text has one, empty, part. */
  function Split(s: string): (segs: seq<string>)
    ensures segs != []
  {
    if s == [] then [""]
    else
      var rest := Split(s[1..]);
      if s[0] == '/' then [""] + rest else [[s[0]] + rest[0]] + rest[1..]
  }

  function Join(segs: seq<string>): string
    requires segs != []
  {
    if |segs| == 1 then segs[0] else segs[0] + "/" + Join(segs[1..])
  }

  lemma {:induction false} JoinSplit(s: string)
    ensures Join(Split(s)) == s
  {
    if s != [] {
      var rest := Split(s[1..]);
      JoinSplit(s[1..]);
      if s[0] == '/' {
        assert Split(s)[1..] == rest;
      } else if |rest| == 1 {
        assert Split(s) == [[s[0]] + rest[0]];
      } else {
        assert Split(s)[1..] == rest[1..];
        assert Join(Split(s)) == [s[0]] + (rest[0] + "/" + Join(rest[1..]));
      }
    }
  }

  lemma {:induction false} SplitAtSlash(a: string, b: string)
    ensures Split(a + "/" + b) == Split(a) + Split(b)
  {
    var s := a + "/" + b;
    if a == [] {
      assert s[1..] == b;
    } else {
      assert s[1..] == a[1..] + "/" + b;
      SplitAtSlash(a[1..], b);
    }
  }

  lemma {:induction false} JoinAppend(xs: seq<string>, ys: seq<string>)
    requires xs != [] && ys != []
    ensures Join(xs + ys) == Join(xs) + "/" + Join(ys)
  {
    assert (xs + ys)[1..] == xs[1..] + ys;
    if |xs| > 1 {
      JoinAppend(xs[1..], ys);
    }
  }

  // ---- Locations ----

  datatype Location<+A> = Location(path: string, action: A)

  /** `prefix` is all of `path`, or ends before one of its slashes. */
  predicate EndsAtSlash(path: string, prefix: string) {
    path == prefix || (|path| > |prefix| && prefix <= path && path[|prefix|] == '/')
  }

  predicate LocationPrefixMatches(path: string, prefix: string) {
    if prefix == "/" then path != [] && path[0] == '/' else EndsAtSlash(path, prefix)
  }

  /** The segments a location's path asks for; "/" asks only for the empty one before the first slash. */
  function Wanted(prefix: string): seq<string> {
    if prefix == "/" then [""] else Split(prefix)
  }

  /**
   * A location matches exactly when its segments are the first segments of the path; only the
   * empty path, which has the segments of "/", is not matched by it.
   */
  lemma MatchesIffSegmentPrefix(path: string, prefix: string)
    ensures LocationPrefixMatches(path, prefix) <==> Wanted(prefix) <= Split(path) && !(path == "" && prefix == "/")
  {
    if prefix == "/" {
      assert path != "" ==> (Split(path)[0] == "" <==> path[0] == '/');
    } else {
      SegmentPrefix(path, prefix);
    }
  }

  lemma SlashEndsSegment(path: string, prefix: string)
    requires EndsAtSlash(path, prefix)
    ensures Split(prefix) <= Split(path)
  {
    if path != prefix {
      var rest := path[|prefix| + 1..];
      assert path == prefix + "/" + rest;
      SplitAtSlash(prefix, rest);
    }
  }

  lemma SegmentEndsAtSlash(path: string, prefix: string)
    requires Split(prefix) <= Split(path)
    ensures EndsAtSlash(path, prefix)
  {
    hide Split, Join;
    var p, s := Split(prefix), Split(path);
    JoinSplit(prefix);
    JoinSplit(path);
    if p != s {
      var more := s[|p|..];
      assert s == p + more;
      JoinAppend(p, more);
      assert path == prefix + "/" + Join(more);
    }
  }

  /** The same without the exception for "/", on every path. */
  lemma SegmentPrefix(path: string, prefix: string)
    ensures EndsAtSlash(path, prefix) <==> Split(prefix) <= Split(path)
  {
    hide Split, EndsAtSlash;
    if EndsAtSlash(path, prefix) {
      SlashEndsSegment(path, prefix);
    }
    if Split(prefix) <= Split(path) {
      SegmentEndsAtSlash(path, prefix);
    }
  }

  function Matching<A>(path: string, locations: seq<Location<A>>): seq<Location<A>> {
    if locations == [] then []
    else
      var n := |locations| - 1;
      Matching(path, locations[..n]) + if LocationPrefixMatches(path, locations[n].path) then [locations[n]] else []
  }

  /** `max_by_key` on the length of the path: of several maxima the last. */
  function LastLongest<A>(locations: seq<Location<A>>): Location<A>
    requires locations != []
  {
    var n := |locations| - 1;
    if n == 0 then locations[0]
    else
      var best := LastLongest(locations[..n]);
      if |locations[n].path| >= |best.path| then locations[n] else best
  }

  function MatchLocation<A>(path: string, locations: seq<Location<A>>): Option<Location<A>> {
    var matching := Matching(path, locations);
    if matching == [] then None else Some(LastLongest(matching))
  }

  /** Among the first `n` locations: `i` matches, no matching one is longer, and none after it is as long. */
  ghost predicate IsBestOf<A>(path: string, locations: seq<Location<A>>, n: nat, i: nat)
    requires n <= |locations|
  {
    && i < n && LocationPrefixMatches(path, locations[i].path)
    && forall j | 0 <= j < n && LocationPrefixMatches(path, locations[j].path) ::
         |locations[j].path| <= |locations[i].path| && (j > i ==> |locations[j].path| < |locations[i].path|)
  }

  ghost predicate IsBest<A>(path: string, locations: seq<Location<A>>, i: nat) {
    IsBestOf(path, locations, |locations|, i)
  }

  ghost predicate NoneMatches<A>(path: string, locations: seq<Location<A>>, n: nat)
    requires n <= |locations|
  {
    forall j | 0 <= j < n :: !LocationPrefixMatches(path, locations[j].path)
  }

  lemma NextLocationDecides<A>(path: string, locations: seq<Location<A>>, n: nat)
    requires n < |locations|
    ensures
      var before := MatchLocation(path, locations[..n]);
      MatchLocation(path, locations[..n + 1])
      == if !LocationPrefixMatches(path, locations[n].path) then before
         else if before.None? || |locations[n].path| >= |before.value.path| then Some(locations[n])
         else before
  {
    assert locations[..n + 1][..n] == locations[..n];
    var earlier := Matching(path, locations[..n]);
    if LocationPrefixMatches(path, locations[n].path) {
      assert (earlier + [locations[n]])[..|earlier|] == earlier;
    } else {
      assert Matching(path, locations[..n + 1]) == earlier;
    }
  }

  lemma {:induction false} MatchOfPrefix<A>(path: string, locations: seq<Location<A>>, n: nat) returns (i: nat)
    requires n <= |locations|
    ensures MatchLocation(path, locations[..n]).None? <==> NoneMatches(path, locations, n)
    ensures MatchLocation(path, locations[..n]).Some? ==>
            IsBestOf(path, locations, n, i) && MatchLocation(path, locations[..n]).value == locations[i]
  {
    hide LocationPrefixMatches, LastLongest;
    i := 0;
    if n > 0 {
      hide MatchLocation;
      i := MatchOfPrefix(path, locations, n - 1);
      NextLocationDecides(path, locations, n - 1);
      var before := MatchLocation(path, locations[..n - 1]);
      if LocationPrefixMatches(path, locations[n - 1].path)
         && (before.None? || |locations[n - 1].path| >= |before.value.path|) {
        i := n - 1;
      }
    }
  }

  /** MatchLocation finds the best location; it finds none exactly when none matches. */
  lemma MatchLocationIsBest<A>(path: string, locations: seq<Location<A>>) returns (i: nat)
    ensures MatchLocation(path, locations).None? <==> NoneMatches(path, locations, |locations|)
    ensures MatchLocation(path, locations).Some? ==>
            IsBest(path, locations, i) && MatchLocation(path, locations).value == locations[i]
  {
    assert locations[..|locations|] == locations;
    i := MatchOfPrefix(path, locations, |locations|);
  }

  /** Two locations that match the same path and are equally long have the same path. */
  lemma EqualLengthMatchesAgree(path: string, p: string, q: string)
    requires LocationPrefixMatches(path, p) && LocationPrefixMatches(path, q) && |p| == |q|
    ensures p == q
  {
    assert p == path[..|p|] && q == path[..|q|];
  }

  /** The order of the locations does not change which path is chosen, nor whether one is. */
  lemma OrderDoesNotMatter<A>(path: string, xs: seq<Location<A>>, ys: seq<Location<A>>)
    requires multiset(xs) == multiset(ys)
    ensures MatchLocation(path, xs).Some? == MatchLocation(path, ys).Some?
    ensures MatchLocation(path, xs).Some? ==> MatchLocation(path, xs).value.path == MatchLocation(path, ys).value.path
    ensures MatchLocation(path, xs).Some? && Unambiguous(xs) ==> MatchLocation(path, xs) == MatchLocation(path, ys)
  {
    var i := MatchLocationIsBest(path, xs);
    var j := MatchLocationIsBest(path, ys);
    assert forall x :: x in xs <==> x in multiset(xs);
    assert forall y :: y in ys <==> y in multiset(ys);
    if MatchLocation(path, xs).Some? {
      assert xs[i] in ys;
      assert ys[j] in xs;
      var k :| 0 <= k < |ys| && ys[k] == xs[i];
      var l :| 0 <= l < |xs| && xs[l] == ys[j];
      EqualLengthMatchesAgree(path, xs[i].path, ys[j].path);
    }
    forall l | 0 <= l < |ys| ensures ys[l] in xs {
    }
  }

  ghost predicate Unambiguous<A>(locations: seq<Location<A>>) {
    forall i, j | 0 <= i < |locations| && 0 <= j < |locations| && locations[i].path == locations[j].path :: locations[i] == locations[j]
  }
}
