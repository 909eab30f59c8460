/**
 Matching of a path against a rule pattern, segment by segment; `**` stands for any run of segments
 (internal/core/permission/filesystem_policy.go, matchPatternSegments).
 */
module PathMatch {
  import opened Wrappers
  import opened Grouping

  const ANY_RUN := "**"

  /** Matches one segment pattern against one name; None when the pattern is malformed. */
  type Glob = (string, string) -> Option<bool>

  /** The backtracking matcher. */
  predicate Match(glob: Glob, path: seq<string>, pattern: seq<string>)
    decreases |path| + |pattern|
  {
    if pattern == [] then path == []
    else if pattern[0] == ANY_RUN then
      Match(glob, path, pattern[1..]) || (path != [] && Match(glob, path[1..], pattern))
    else
      path != [] && glob(pattern[0], path[0]) == Some(true) && Match(glob, path[1..], pattern[1..])
  }

  // ---------------------------------------------------------------- what a match is, without backtracking

  /** Pattern segment `p` accepts this run of segments. */
  predicate Accepts(glob: Glob, p: string, run: seq<string>) {
    p == ANY_RUN || (|run| == 1 && glob(p, run[0]) == Some(true))
  }

  /** One run per pattern segment, each accepted by its segment. */
  predicate RunsFit(glob: Glob, pattern: seq<string>, runs: seq<seq<string>>) {
    |runs| == |pattern| && forall i :: 0 <= i < |runs| ==> Accepts(glob, pattern[i], runs[i])
  }

  /** A path matches the first segment followed by the rest iff some prefix of it is accepted. */
  lemma {:induction false} MatchFirst(glob: Glob, path: seq<string>, pattern: seq<string>)
    requires pattern != []
    ensures Match(glob, path, pattern) <==>
            exists k :: 0 <= k <= |path| && Accepts(glob, pattern[0], path[..k]) && Match(glob, path[k..], pattern[1..])
    decreases |path|
  {
    if pattern[0] == ANY_RUN {
      if path != [] {
        MatchFirst(glob, path[1..], pattern);
        forall k | 0 <= k <= |path| && Match(glob, path[k..], pattern[1..])
          ensures Match(glob, path, pattern)
        {
          if k > 0 {
            assert path[1..][k - 1..] == path[k..];
            assert Accepts(glob, pattern[0], path[1..][..k - 1]);
          } else {
            assert path[0..] == path;
          }
        }
        if Match(glob, path, pattern[1..]) {
          assert path[0..] == path && Accepts(glob, pattern[0], path[..0]);
        } else if Match(glob, path[1..], pattern) {
          var k :| 0 <= k <= |path[1..]| && Match(glob, path[1..][k..], pattern[1..]);
          assert path[1..][k..] == path[k + 1..] && Accepts(glob, pattern[0], path[..k + 1]);
        }
      } else {
        assert path[0..] == path && Accepts(glob, pattern[0], path[..0]);
      }
    } else if path != [] {
      assert path[..1] == [path[0]];
      assert forall k :: 0 <= k <= |path| && Accepts(glob, pattern[0], path[..k]) ==> k == 1;
      assert Accepts(glob, pattern[0], path[..1]) <==> glob(pattern[0], path[0]) == Some(true);
    }
  }

  lemma {:induction false} RunsOfMatch(glob: Glob, path: seq<string>, pattern: seq<string>)
      returns (runs: seq<seq<string>>)
    requires Match(glob, path, pattern)
    ensures RunsFit(glob, pattern, runs) && Flatten(runs) == path
    decreases |pattern|
  {
    if pattern == [] {
      runs := [];
    } else {
      MatchFirst(glob, path, pattern);
      hide Match, Flatten, Accepts;
      var k :| 0 <= k <= |path| && Accepts(glob, pattern[0], path[..k]) && Match(glob, path[k..], pattern[1..]);
      var rest := RunsOfMatch(glob, path[k..], pattern[1..]);
      runs := [path[..k]] + rest;
      FlattenFirst(path[..k], rest);
    }
  }

  lemma {:induction false} MatchOfRuns(glob: Glob, runs: seq<seq<string>>, pattern: seq<string>)
    requires RunsFit(glob, pattern, runs)
    ensures Match(glob, Flatten(runs), pattern)
    decreases |pattern|
  {
    if pattern != [] {
      hide Match, Flatten, Accepts;
      var path, k := Flatten(runs), |runs[0]|;
      assert runs == [runs[0]] + runs[1..];
      FlattenFirst(runs[0], runs[1..]);
      MatchOfRuns(glob, runs[1..], pattern[1..]);
      assert path[..k] == runs[0] && path[k..] == Flatten(runs[1..]);
      MatchFirst(glob, path, pattern);
    }
  }

  /** The matcher finds a match exactly when the path is made of runs that the segments accept, in order. */
  lemma MatchIffRuns(glob: Glob, path: seq<string>, pattern: seq<string>)
    ensures Match(glob, path, pattern) <==> exists runs :: RunsFit(glob, pattern, runs) && Flatten(runs) == path
  {
    if Match(glob, path, pattern) {
      var runs := RunsOfMatch(glob, path, pattern);
    }
    if runs :| RunsFit(glob, pattern, runs) && Flatten(runs) == path {
      MatchOfRuns(glob, runs, pattern);
    }
  }

  // ---------------------------------------------------------------- laws

  ghost predicate SplitsAt(glob: Glob, path: seq<string>, first: seq<string>, second: seq<string>, k: nat) {
    k <= |path| && Match(glob, path[..k], first) && Match(glob, path[k..], second)
  }

  /** A first run that the first segment accepts, and a match behind it. */
  ghost predicate StartsWith(glob: Glob, path: seq<string>, pattern: seq<string>, j: nat) {
    pattern != [] && j <= |path| && Accepts(glob, pattern[0], path[..j]) && Match(glob, path[j..], pattern[1..])
  }

  lemma FirstRun(glob: Glob, path: seq<string>, pattern: seq<string>) returns (j: nat)
    requires pattern != [] && Match(glob, path, pattern)
    ensures StartsWith(glob, path, pattern, j)
  {
    MatchFirst(glob, path, pattern);
    j :| j <= |path| && Accepts(glob, pattern[0], path[..j]) && Match(glob, path[j..], pattern[1..]);
  }

  lemma MatchFrom(glob: Glob, path: seq<string>, pattern: seq<string>, j: nat)
    requires StartsWith(glob, path, pattern, j)
    ensures Match(glob, path, pattern)
  {
    MatchFirst(glob, path, pattern);
  }

  lemma {:induction false} SplitMatch(glob: Glob, path: seq<string>, first: seq<string>, second: seq<string>, k: nat)
    requires SplitsAt(glob, path, first, second, k)
    ensures Match(glob, path, first + second)
    decreases |first|
  {
    if first == [] {
      assert first + second == second && path[0..] == path && path[..k] == [];
    }
    hide Match, Accepts;
    if first != [] {
      var j := FirstRun(glob, path[..k], first);
      assert path[..k][..j] == path[..j];
      assert path[..k][j..] == path[j..][..k - j] && path[k..] == path[j..][k - j..];
      SplitMatch(glob, path[j..], first[1..], second, k - j);
      assert (first + second)[1..] == first[1..] + second;
      MatchFrom(glob, path, first + second, j);
    }
  }

  lemma {:induction false} MatchSplits(glob: Glob, path: seq<string>, first: seq<string>, second: seq<string>)
    returns (k: nat)
    requires Match(glob, path, first + second)
    ensures SplitsAt(glob, path, first, second, k)
    decreases |first|
  {
    if first == [] {
      k := 0;
      assert first + second == second && path[0..] == path && path[..0] == [];
    } else {
      var j := FirstRun(glob, path, first + second);
      hide Match, Accepts;
      assert (first + second)[1..] == first[1..] + second;
      k := MatchSplits(glob, path[j..], first[1..], second);
      assert path[..j + k][..j] == path[..j];
      assert path[..j + k][j..] == path[j..][..k] && path[j + k..] == path[j..][k..];
      MatchFrom(glob, path[..j + k], first, j);
      k := j + k;
    }
  }

  /** A path matches two patterns in a row iff it splits into a match of each. */
  lemma MatchConcat(glob: Glob, path: seq<string>, first: seq<string>, second: seq<string>)
    ensures Match(glob, path, first + second) <==> exists k :: SplitsAt(glob, path, first, second, k)
  {
    if Match(glob, path, first + second) {
      var k := MatchSplits(glob, path, first, second);
    }
    if k :| SplitsAt(glob, path, first, second, k) {
      SplitMatch(glob, path, first, second, k);
    }
  }

  lemma {:induction false} AnyRunMatchesAll(glob: Glob, path: seq<string>)
    ensures Match(glob, path, [ANY_RUN])
    decreases |path|
  {
    if path != [] { AnyRunMatchesAll(glob, path[1..]); }
  }

  lemma DoubleRun(glob: Glob, path: seq<string>)
    ensures Match(glob, path, [ANY_RUN, ANY_RUN])
  {
    AnyRunMatchesAll(glob, path);
    assert [ANY_RUN, ANY_RUN][1..] == [ANY_RUN];
  }

  /** Wherever it stands, a repeated `**` matches the same paths as a single one. */
  lemma RepeatedRunCollapses(glob: Glob, path: seq<string>, before: seq<string>, after: seq<string>)
    ensures Match(glob, path, before + [ANY_RUN, ANY_RUN] + after) <==> Match(glob, path, before + [ANY_RUN] + after)
  {
    if Match(glob, path, before + [ANY_RUN, ANY_RUN] + after) {
      var k := MatchSplits(glob, path, before + [ANY_RUN, ANY_RUN], after);
      var j := MatchSplits(glob, path[..k], before, [ANY_RUN, ANY_RUN]);
      AnyRunMatchesAll(glob, path[..k][j..]);
      SplitMatch(glob, path[..k], before, [ANY_RUN], j);
      SplitMatch(glob, path, before + [ANY_RUN], after, k);
    }
    if Match(glob, path, before + [ANY_RUN] + after) {
      var k := MatchSplits(glob, path, before + [ANY_RUN], after);
      var j := MatchSplits(glob, path[..k], before, [ANY_RUN]);
      DoubleRun(glob, path[..k][j..]);
      SplitMatch(glob, path[..k], before, [ANY_RUN, ANY_RUN], j);
      SplitMatch(glob, path, before + [ANY_RUN, ANY_RUN], after, k);
    }
  }

  /** A pattern followed by `**` matches what the pattern matches and everything below it, and nothing else. */
  lemma TrailingRunCoversTree(glob: Glob, path: seq<string>, pattern: seq<string>)
    ensures Match(glob, path, pattern + [ANY_RUN]) <==> exists k :: 0 <= k <= |path| && Match(glob, path[..k], pattern)
  {
    if Match(glob, path, pattern + [ANY_RUN]) {
      var k := MatchSplits(glob, path, pattern, [ANY_RUN]);
    }
    if k :| 0 <= k <= |path| && Match(glob, path[..k], pattern) {
      AnyRunMatchesAll(glob, path[k..]);
      SplitMatch(glob, path, pattern, [ANY_RUN], k);
    }
  }

  /** Without `**` the segments are compared one by one. */
  lemma {:induction false} PlainMatch(glob: Glob, path: seq<string>, pattern: seq<string>)
    requires ANY_RUN !in pattern
    ensures Match(glob, path, pattern) <==>
            |path| == |pattern| && forall i :: 0 <= i < |path| ==> glob(pattern[i], path[i]) == Some(true)
    decreases |pattern|
  {
    if pattern != [] && path != [] {
      PlainMatch(glob, path[1..], pattern[1..]);
      if |path| == |pattern| {
        assert forall i :: 0 < i < |path| ==> pattern[1..][i - 1] == pattern[i] && path[1..][i - 1] == path[i];
      }
    }
  }

  // ---------------------------------------------------------------- patterns matched like paths

  /** As a pattern this name matches itself and nothing else. */
  ghost predicate Literal(glob: Glob, name: string) {
    name != ANY_RUN && forall x :: glob(name, x) == Some(true) <==> x == name
  }

  ghost predicate LiteralPath(glob: Glob, path: seq<string>) {
    forall i :: 0 <= i < |path| ==> Literal(glob, path[i])
  }

  lemma LiteralMatch(glob: Glob, path: seq<string>, literal: seq<string>)
    requires LiteralPath(glob, literal)
    ensures Match(glob, path, literal) <==> path == literal
  {
    PlainMatch(glob, path, literal);
    hide Match;
    if path != literal && |path| == |literal| {
      var i :| 0 <= i < |path| && path[i] != literal[i];
      assert Literal(glob, literal[i]);
    }
    assert forall i :: 0 <= i < |literal| ==> Literal(glob, literal[i]);
  }

  /** Whatever pattern matches a path that the query lists also matches the query, taken as a path. */
  ghost predicate CoveredWithQuery(glob: Glob, query: seq<string>) {
    forall path, pattern :: LiteralPath(glob, path) && Match(glob, path, query) && Match(glob, path, pattern) ==>
      Match(glob, query, pattern)
  }

  /** Matching the query instead of what it lists is safe exactly for a query that lists nothing but itself. */
  lemma CoveredWithQueryIff(glob: Glob, query: seq<string>)
    ensures CoveredWithQuery(glob, query) <==>
            forall path :: LiteralPath(glob, path) && Match(glob, path, query) ==> path == query
  {
    hide Match, LiteralPath;
    if CoveredWithQuery(glob, query) {
      forall path | LiteralPath(glob, path) && Match(glob, path, query)
        ensures path == query
      {
        LiteralMatch(glob, path, path);
        LiteralMatch(glob, query, path);
      }
    }
  }

  /** So `**` lists what lies below a directory, but a pattern for all of that directory does not match it. */
  lemma AnyRunIsNotCovered(glob: Glob, directory: string, file: string)
    requires Literal(glob, directory) && Literal(glob, file)
    ensures Match(glob, [directory, file], [ANY_RUN]) && Match(glob, [directory, file], [directory, ANY_RUN])
    ensures !Match(glob, [ANY_RUN], [directory, ANY_RUN])
  {
    AnyRunMatchesAll(glob, [directory, file]);
    AnyRunMatchesAll(glob, [file]);
    assert [directory, file][1..] == [file] && [directory, ANY_RUN][1..] == [ANY_RUN];
  }
}
