/** Finding separators in text, and trimming it. */
module Text {

  predicate Without(s: string, c: char) {
    forall i :: 0 <= i < |s| ==> s[i] != c
  }

  /** Where `c` first stands in `s`. */
  function First(s: string, c: char): nat {
    if s == [] || s[0] == c then 0 else 1 + First(s[1..], c)
  }

  lemma {:induction false} FirstSeparator(a: string, c: char, x: string)
    requires Without(a, c)
    ensures First(a + ([c] + x), c) == |a|
  {
    if a == [] {
      assert a + ([c] + x) == [c] + x;
    } else {
      assert (a + ([c] + x))[1..] == a[1..] + ([c] + x);
      FirstSeparator(a[1..], c, x);
    }
  }

  /** A separator that the first parts do not contain splits a text in one way only. */
  lemma SplitOnce(a: string, b: string, c: char, x: string, y: string)
    requires Without(a, c) && Without(b, c)
    requires a + ([c] + x) == b + ([c] + y)
    ensures a == b && x == y
  {
    FirstSeparator(a, c, x);
    FirstSeparator(b, c, y);
    var s, t := a + ([c] + x), b + ([c] + y);
    assert s[..|a|] == a && t[..|b|] == b;
    assert s[|a| + 1..] == x && t[|b| + 1..] == y;
  }

  /** `a` and a separator begin `b`, and `x` holds what follows them in `b`, then the separator and `y`. */
  predicate Overlap(a: string, b: string, c: char, x: string, y: string) {
    a + [c] <= b && x == b[|a| + 1..] + ([c] + y)
  }

  lemma OverlapJoins(a: string, b: string, c: char, x: string, y: string)
    requires Overlap(a, b, c, x, y)
    ensures a + ([c] + x) == b + ([c] + y)
  {
    assert b == a + [c] + b[|a| + 1..];
  }

  lemma JoinedOverlap(a: string, b: string, c: char, x: string, y: string)
    requires a + ([c] + x) == b + ([c] + y) && |a| < |b|
    ensures Overlap(a, b, c, x, y)
  {
    var s := b + ([c] + y);
    assert s[..|a| + 1] == a + [c] && s[..|a| + 1] == b[..|a| + 1];
    assert s[|a| + 1..] == x && s[|a| + 1..] == b[|a| + 1..] + ([c] + y);
  }

  /** Exactly when two texts joined with a separator are equal: part by part, or shifted into each other. */
  lemma JoinedEqualIff(a: string, b: string, c: char, x: string, y: string)
    ensures a + ([c] + x) == b + ([c] + y) <==> (a == b && x == y) || Overlap(a, b, c, x, y) || Overlap(b, a, c, y, x)
  {
    if Overlap(a, b, c, x, y) { OverlapJoins(a, b, c, x, y); }
    if Overlap(b, a, c, y, x) { OverlapJoins(b, a, c, y, x); }
    if a + ([c] + x) == b + ([c] + y) {
      if |a| < |b| {
        JoinedOverlap(a, b, c, x, y);
      } else if |b| < |a| {
        JoinedOverlap(b, a, c, y, x);
      } else {
        assert (a + ([c] + x))[..|a|] == a && (b + ([c] + y))[..|b|] == b;
        assert (a + ([c] + x))[|a| + 1..] == x && (b + ([c] + y))[|b| + 1..] == y;
      }
    }
  }

  lemma OverlapHasSeparator(a: string, b: string, c: char, x: string, y: string)
    requires Overlap(a, b, c, x, y)
    ensures !Without(x, c)
  {
    assert x[|b| - |a| - 1] == c;
  }

  /** So does a separator that the last parts do not contain. */
  lemma SplitLast(a: string, b: string, c: char, x: string, y: string)
    requires Without(x, c) && Without(y, c)
    requires a + ([c] + x) == b + ([c] + y)
    ensures a == b && x == y
  {
    JoinedEqualIff(a, b, c, x, y);
    if Overlap(a, b, c, x, y) {
      OverlapHasSeparator(a, b, c, x, y);
    } else if Overlap(b, a, c, y, x) {
      OverlapHasSeparator(b, a, c, y, x);
    }
  }

  /** With some continuations two different first parts collide exactly when one, with a separator, begins the other. */
  lemma CollideIff(a: string, b: string, c: char)
    requires a != b
    ensures (exists x, y :: a + ([c] + x) == b + ([c] + y)) <==> a + [c] <= b || b + [c] <= a
  {
    if x, y :| a + ([c] + x) == b + ([c] + y) {
      JoinedEqualIff(a, b, c, x, y);
    }
    if a + [c] <= b {
      OverlapJoins(a, b, c, b[|a| + 1..] + ([c] + ""), "");
    } else if b + [c] <= a {
      OverlapJoins(b, a, c, a[|b| + 1..] + ([c] + ""), "");
      assert a + ([c] + "") == b + ([c] + (a[|b| + 1..] + ([c] + "")));
    }
  }

  lemma {:induction false} FirstIn(s: string, c: char)
    ensures First(s, c) <= |s| && Without(s[..First(s, c)], c)
    ensures First(s, c) < |s| ==> s[First(s, c)] == c
    ensures First(s, c) == |s| <==> Without(s, c)
  {
    if s != [] && s[0] != c {
      FirstIn(s[1..], c);
      var n := First(s[1..], c);
      assert s[1..][..n] == s[1..n + 1];
      assert s[..n + 1] == [s[0]] + s[1..][..n];
      if Without(s[1..], c) { assert s == [s[0]] + s[1..]; }
    }
  }

  /** ASCII white space. */
  predicate IsSpace(c: char) {
    c == ' ' || '\t' <= c <= '\r'
  }

  function TrimLeft(s: string): string {
    if s != [] && IsSpace(s[0]) then TrimLeft(s[1..]) else s
  }

  function TrimRight(s: string): string {
    if s != [] && IsSpace(s[|s| - 1]) then TrimRight(s[..|s| - 1]) else s
  }

  function TrimSpace(s: string): string {
    TrimRight(TrimLeft(s))
  }

  ghost predicate AllSpace(s: string) {
    forall i :: 0 <= i < |s| ==> IsSpace(s[i])
  }

  lemma {:induction false} TrimLeftIs(s: string) returns (a: string)
    ensures s == a + TrimLeft(s) && AllSpace(a)
    ensures TrimLeft(s) != "" ==> !IsSpace(TrimLeft(s)[0])
  {
    if s != [] && IsSpace(s[0]) {
      a := TrimLeftIs(s[1..]);
      a := [s[0]] + a;
    } else {
      a := "";
    }
  }

  lemma {:induction false} TrimRightIs(s: string) returns (b: string)
    ensures s == TrimRight(s) + b && AllSpace(b)
    ensures TrimRight(s) != "" ==> !IsSpace(TrimRight(s)[|TrimRight(s)| - 1])
  {
    if s != [] && IsSpace(s[|s| - 1]) {
      b := TrimRightIs(s[..|s| - 1]);
      b := b + [s[|s| - 1]];
    } else {
      b := "";
    }
  }

  /** Trimming takes white space off both ends, all of it and nothing else. */
  lemma TrimIs(s: string) returns (a: string, b: string)
    ensures s == a + TrimSpace(s) + b && AllSpace(a) && AllSpace(b)
    ensures var t := TrimSpace(s); t != "" ==> !IsSpace(t[0]) && !IsSpace(t[|t| - 1])
  {
    a := TrimLeftIs(s);
    b := TrimRightIs(TrimLeft(s));
  }

  lemma TrimRightSpace(s: string, c: char)
    requires IsSpace(c)
    ensures TrimRight(s + [c]) == TrimRight(s)
  {
    assert (s + [c])[..|s|] == s;
  }

  /** Text that begins and ends with other characters keeps its place between line ends. */
  lemma TrimLine(s: string)
    requires s != [] && !IsSpace(s[0]) && !IsSpace(s[|s| - 1])
    ensures TrimSpace(s + "\r" + "\n") == s
  {
    TrimRightSpace(s, '\r');
    TrimRightSpace(s + "\r", '\n');
    assert (s + "\r" + "\n")[0] == s[0];
  }
}
