/**
 Settings documents and their dotted paths (internal/platform/config/settings_writer.go, setNestedKey,
 unsetNestedKey, getNestedValue, buildNestedMap).
 */
module SettingsTree {
  import opened Wrappers

  datatype Value = Scalar(text: string) | Node(entries: map<string, Value>)

  type Document = map<string, Value>

  type Path = seq<string>

  // ---------------------------------------------------------------- the operations

  function Build(path: Path, value: Value): Document
    requires path != []
  {
    if |path| == 1 then map[path[0] := value] else map[path[0] := Node(Build(path[1..], value))]
  }

  function Set(doc: Document, path: Path, value: Value): Document
    decreases |path|
  {
    if path == [] then doc
    else if |path| == 1 then doc[path[0] := value]
    else if path[0] !in doc || doc[path[0]].Scalar? then doc[path[0] := Node(Build(path[1..], value))]
    else doc[path[0] := Node(Set(doc[path[0]].entries, path[1..], value))]
  }

  /** The document without the path, and whether anything was deleted. Maps on the way that become empty go too. */
  function Unset(doc: Document, path: Path): (Document, bool)
    decreases |path|
  {
    if path == [] then (doc, false)
    else if |path| == 1 then (doc - {path[0]}, path[0] in doc)
    else if path[0] !in doc || doc[path[0]].Scalar? then (doc, false)
    else
      var (child, deleted) := Unset(doc[path[0]].entries, path[1..]);
      if deleted && child == map[] then (doc - {path[0]}, true)
      else (doc[path[0] := Node(child)], deleted)
  }

  function Get(doc: Document, path: Path): Option<Value>
    decreases |path|
  {
    if path == [] || path[0] !in doc then None
    else if |path| == 1 then Some(doc[path[0]])
    else if doc[path[0]].Scalar? then None
    else Get(doc[path[0]].entries, path[1..])
  }

  /** The map under a key; empty when there is none. */
  function Child(doc: Document, key: string): Document {
    if key in doc && doc[key].Node? then doc[key].entries else map[]
  }

  // ---------------------------------------------------------------- get, set

  lemma {:induction false} BuildIsSet(path: Path, value: Value)
    requires path != []
    ensures Build(path, value) == Set(map[], path, value)
  {
    if |path| > 1 { BuildIsSet(path[1..], value); }
  }

  /** A set along a longer path replaces the map under its first key. */
  lemma SetBelow(doc: Document, path: Path, value: Value)
    requires |path| > 1
    ensures Set(doc, path, value) == doc[path[0] := Node(Set(Child(doc, path[0]), path[1..], value))]
  {
    BuildIsSet(path[1..], value);
  }

  /** Get after set gives the value. */
  lemma {:induction false} GetAfterSet(doc: Document, path: Path, value: Value)
    requires path != []
    ensures Get(Set(doc, path, value), path) == Some(value)
    decreases |path|
  {
    if |path| > 1 {
      if path[0] !in doc || doc[path[0]].Scalar? {
        BuildIsSet(path[1..], value);
        GetAfterSet(map[], path[1..], value);
      } else {
        GetAfterSet(doc[path[0]].entries, path[1..], value);
      }
    }
  }

  /** Get below a set path looks into the value that was set. */
  lemma {:induction false} GetBelow(doc: Document, path: Path, below: Path)
    requires path != [] && below != []
    ensures Get(doc, path + below) ==
            match Get(doc, path)
            case None => None
            case Some(v) => if v.Scalar? then None else Get(v.entries, below)
    decreases |path|
  {
    assert (path + below)[1..] == path[1..] + below;
    if |path| > 1 && path[0] in doc && doc[path[0]].Node? {
      GetBelow(doc[path[0]].entries, path[1..], below);
    }
  }

  /** Of two sets at one path the later one wins. */
  lemma {:induction false} SetTwice(doc: Document, path: Path, first: Value, second: Value)
    ensures Set(Set(doc, path, first), path, second) == Set(doc, path, second)
    decreases |path|
  {
    if |path| > 1 {
      if path[0] !in doc || doc[path[0]].Scalar? {
        BuildIsSet(path[1..], first);
        BuildIsSet(path[1..], second);
        SetTwice(map[], path[1..], first, second);
      } else {
        SetTwice(doc[path[0]].entries, path[1..], first, second);
      }
    }
  }

  // ---------------------------------------------------------------- other paths

  /** Neither path is a prefix of the other. */
  ghost predicate Incomparable(p: Path, q: Path) {
    !(p <= q) && !(q <= p)
  }

  lemma IncomparableTails(p: Path, q: Path)
    requires Incomparable(p, q) && p[0] == q[0]
    ensures Incomparable(p[1..], q[1..]) && |p| > 1 && |q| > 1
  {
    assert p == [p[0]] + p[1..] && q == [q[0]] + q[1..];
  }

  /** A set leaves every other path as it was, also where it replaces a scalar by a map. */
  lemma {:induction false} SetElsewhere(doc: Document, p: Path, value: Value, q: Path)
    requires Incomparable(p, q)
    ensures Get(Set(doc, p, value), q) == Get(doc, q)
    decreases |p|
  {
    if p[0] == q[0] {
      IncomparableTails(p, q);
      if p[0] !in doc || doc[p[0]].Scalar? {
        BuildIsSet(p[1..], value);
        SetElsewhere(map[], p[1..], value, q[1..]);
      } else {
        SetElsewhere(doc[p[0]].entries, p[1..], value, q[1..]);
      }
    }
  }

  /** What stands under the first key after a set. */
  function Under(doc: Document, path: Path, value: Value): Value
    requires path != []
  {
    if |path| == 1 then value else Node(Set(Child(doc, path[0]), path[1..], value))
  }

  lemma SetInOneKey(doc: Document, path: Path, value: Value)
    requires path != []
    ensures Set(doc, path, value) == doc[path[0] := Under(doc, path, value)]
  {
    if |path| > 1 { SetBelow(doc, path, value); }
  }

  lemma MapUpdates(doc: Document, k: string, v: Value, w: Value, l: string, x: Value)
    ensures doc[k := v][k := w] == doc[k := w]
    ensures k != l ==> doc[k := v][l := x] == doc[l := x][k := v]
  {
  }

  lemma SetsAtOtherKey(doc: Document, p: Path, v: Value, q: Path, w: Value)
    requires p != [] && q != [] && p[0] != q[0]
    ensures Set(Set(doc, p, v), q, w) == doc[p[0] := Under(doc, p, v)][q[0] := Under(doc, q, w)]
  {
    SetInOneKey(doc, p, v);
    SetInOneKey(Set(doc, p, v), q, w);
    assert Child(Set(doc, p, v), q[0]) == Child(doc, q[0]);
    hide Set;
  }

  lemma SetsAtOneKey(doc: Document, p: Path, v: Value, q: Path, w: Value)
    requires |p| > 1 && |q| > 1 && p[0] == q[0]
    ensures Set(Set(doc, p, v), q, w) == doc[p[0] := Node(Set(Set(Child(doc, p[0]), p[1..], v), q[1..], w))]
  {
    SetBelow(doc, p, v);
    SetBelow(Set(doc, p, v), q, w);
    hide Set;
    assert Child(Set(doc, p, v), q[0]) == Set(Child(doc, p[0]), p[1..], v);
  }

  /** Sets at incomparable paths commute. */
  lemma {:induction false} SetsCommute(doc: Document, p: Path, v: Value, q: Path, w: Value)
    requires Incomparable(p, q)
    ensures Set(Set(doc, p, v), q, w) == Set(Set(doc, q, w), p, v)
    decreases |p|
  {
    hide Set, Under, Child;
    if p[0] == q[0] {
      IncomparableTails(p, q);
      SetsAtOneKey(doc, p, v, q, w);
      SetsAtOneKey(doc, q, w, p, v);
      SetsCommute(Child(doc, p[0]), p[1..], v, q[1..], w);
    } else {
      SetsAtOtherKey(doc, p, v, q, w);
      SetsAtOtherKey(doc, q, w, p, v);
      MapUpdates(doc, p[0], Under(doc, p, v), v, q[0], Under(doc, q, w));
    }
  }

  /** An unset leaves every other path as it was, also where it prunes emptied maps. */
  lemma {:induction false} UnsetElsewhere(doc: Document, p: Path, q: Path)
    requires Incomparable(p, q)
    ensures Get(Unset(doc, p).0, q) == Get(doc, q)
    decreases |p|
  {
    if p[0] == q[0] {
      IncomparableTails(p, q);
      if p[0] in doc && doc[p[0]].Node? {
        UnsetElsewhere(doc[p[0]].entries, p[1..], q[1..]);
      }
    }
  }

  // ---------------------------------------------------------------- unset

  /** An unset deletes exactly when the path leads somewhere; afterwards it does not. */
  lemma {:induction false} UnsetDeletes(doc: Document, path: Path)
    ensures Unset(doc, path).1 <==> Get(doc, path).Some?
    ensures Get(Unset(doc, path).0, path) == None
    ensures !Unset(doc, path).1 ==> Unset(doc, path).0 == doc
    decreases |path|
  {
    if |path| > 1 && path[0] in doc && doc[path[0]].Node? {
      UnsetDeletes(doc[path[0]].entries, path[1..]);
    }
  }

  /** No map on the way to a deleted path is left empty. */
  lemma {:induction false} UnsetLeavesNoEmptyMap(doc: Document, path: Path, k: nat)
    requires Unset(doc, path).1 && 0 < k < |path|
    ensures Get(Unset(doc, path).0, path[..k]) != Some(Node(map[]))
    decreases |path|
  {
    if path[0] in doc && doc[path[0]].Node? {
      var (child, deleted) := Unset(doc[path[0]].entries, path[1..]);
      if k > 1 {
        assert path[..k][1..] == path[1..][..k - 1];
        UnsetLeavesNoEmptyMap(doc[path[0]].entries, path[1..], k - 1);
      }
    }
  }

  /** The path leads nowhere, and up to where it ends it passes only maps that hold something. */
  predicate CleanlyAbsent(doc: Document, path: Path)
    requires path != []
    decreases |path|
  {
    path[0] !in doc ||
    (&& |path| > 1 && doc[path[0]].Node? && doc[path[0]].entries != map[]
     && CleanlyAbsent(doc[path[0]].entries, path[1..]))
  }

  /** The same said with lookups only. */
  ghost predicate AbsentByLookups(doc: Document, path: Path) {
    Get(doc, path) == None &&
    forall k :: 0 < k < |path| ==>
      Get(doc, path[..k]) == None || (Get(doc, path[..k]).value.Node? && Get(doc, path[..k]).value.entries != map[])
  }

  lemma LookupBelow(doc: Document, path: Path, k: nat)
    requires 1 < k <= |path| && path[0] in doc && doc[path[0]].Node?
    ensures Get(doc, path[..k]) == Get(doc[path[0]].entries, path[1..][..k - 1])
  {
    assert path[..k][1..] == path[1..][..k - 1];
  }

  lemma {:induction false} CleanlyAbsentIff(doc: Document, path: Path)
    requires path != []
    ensures CleanlyAbsent(doc, path) <==> AbsentByLookups(doc, path)
    decreases |path|
  {
    if path[0] in doc && |path| > 1 {
      assert Get(doc, path[..1]) == Some(doc[path[0]]);
      if doc[path[0]].Node? {
        var child := doc[path[0]].entries;
        CleanlyAbsentIff(child, path[1..]);
        forall k | 1 < k < |path|
          ensures Get(doc, path[..k]) == Get(child, path[1..][..k - 1])
        {
          LookupBelow(doc, path, k);
        }
        if AbsentByLookups(doc, path) {
          forall k | 0 < k < |path[1..]|
            ensures Get(child, path[1..][..k]) == None ||
                    (Get(child, path[1..][..k]).value.Node? && Get(child, path[1..][..k]).value.entries != map[])
          {
            assert Get(doc, path[..k + 1]) == Get(child, path[1..][..k + 1 - 1]);
          }
        }
      }
    }
  }

  lemma {:induction false} UnsetOfBuilt(path: Path, value: Value)
    requires path != []
    ensures Unset(Build(path, value), path) == (map[], true)
  {
    if |path| > 1 { UnsetOfBuilt(path[1..], value); }
  }

  /**
   Unsetting a path just set restores the document exactly when the path led nowhere, met no scalar and
   passed no empty map.
   */
  lemma {:induction false} UnsetAfterSetRestoresIff(doc: Document, path: Path, value: Value)
    requires path != []
    ensures Unset(Set(doc, path, value), path).1
    ensures Unset(Set(doc, path, value), path).0 == doc <==> CleanlyAbsent(doc, path)
    decreases |path|
  {
    var key, set1 := path[0], Set(doc, path, value);
    if |path| == 1 {
      assert key !in doc ==> set1 - {key} == doc;
    } else if key !in doc || doc[key].Scalar? {
      UnsetOfBuilt(path[1..], value);
      assert key !in doc ==> set1 - {key} == doc;
    } else {
      var child := doc[key].entries;
      UnsetAfterSetRestoresIff(child, path[1..], value);
      var restored := Unset(Set(child, path[1..], value), path[1..]).0;
      assert set1[key].entries == Set(child, path[1..], value);
      if restored != map[] {
        assert set1[key := Node(restored)] == doc[key := Node(restored)];
        assert restored == child ==> doc[key := Node(restored)] == doc;
      } else {
        assert key !in set1 - {key};
      }
    }
  }
}
