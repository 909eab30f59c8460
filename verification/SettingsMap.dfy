/** The same operations on maps that are changed in place (internal/platform/config/settings_writer.go). */
module SettingsMap {
  import opened Wrappers
  import opened SettingsTree

  /** A value in a map: a scalar, or another map. */
  datatype Entry = Leaf(text: string) | Sub(node: MapNode)

  ghost function Repr(e: Entry): set<object>
    reads if e.Sub? then {e.node} else {}
  {
    if e.Sub? then e.node.repr else {}
  }

  ghost predicate Sound(e: Entry)
    reads if e.Sub? then {e.node} + e.node.repr else {}
  {
    e.Sub? ==> e.node.Valid()
  }

  ghost function Meaning(e: Entry): Value
    requires Sound(e)
    reads if e.Sub? then {e.node} + e.node.repr else {}
  {
    match e
    case Leaf(t) => Scalar(t)
    case Sub(n) => Node(n.Tree())
  }

  class MapNode {
    var entries: map<string, Entry>
    /** This map and all maps below it. */
    ghost var repr: set<object>

    /** The maps form a tree. */
    ghost predicate Valid()
      reads this, repr
      decreases repr
    {
      && this in repr
      && (forall k :: k in entries && entries[k].Sub? ==>
            && entries[k].node in repr
            && entries[k].node.repr <= repr - {this}
            && entries[k].node.Valid())
      && (forall j, k :: j in entries && k in entries && j != k && entries[j].Sub? && entries[k].Sub? ==>
            entries[j].node.repr !! entries[k].node.repr)
    }

    ghost function Tree(): Document
      requires Valid()
      reads this, repr
      decreases repr
    {
      map k | k in entries :: if entries[k].Leaf? then Scalar(entries[k].text) else Node(entries[k].node.Tree())
    }

    ghost predicate Shows(k: string, v: Value)
      requires Valid() && k in entries
      reads this, repr
    {
      v == match entries[k] case Leaf(text) => Scalar(text) case Sub(node) => Node(node.Tree())
    }

    lemma TreeShows(tree: Document)
      requires Valid()
      ensures Tree() == tree <==> entries.Keys == tree.Keys && forall k :: k in entries ==> Shows(k, tree[k])
    {
    }

    constructor ()
      ensures Valid() && fresh(repr) && Tree() == map[]
    {
      entries := map[];
      repr := {this};
    }

    /** Puts an entry under a key. */
    method Put(key: string, value: Entry)
      requires Valid() && Sound(value) && repr !! Repr(value)
      modifies this
      ensures Valid() && Sound(value) && repr == old(repr) + Repr(value)
      ensures Repr(value) == old(Repr(value)) && Meaning(value) == old(Meaning(value))
      ensures Tree() == old(Tree())[key := Meaning(value)]
    {
      hide Tree;
      ghost var tree, meaning := Tree(), Meaning(value);
      TreeShows(tree);
      entries := entries[key := value];
      repr := repr + Repr(value);
      assert Valid();
      forall k | k in entries
        ensures Shows(k, tree[key := meaning][k])
      {
        assert k != key && entries[k].Sub? ==> this !in entries[k].node.repr;
      }
      TreeShows(tree[key := meaning]);
    }

    /** All that is below this map, except under `key`, is as `tree` says and keeps away from `taken`. */
    ghost predicate OthersStand(key: string, tree: Document, taken: set<object>)
      reads this, repr
    {
      && this in repr
      && entries.Keys == tree.Keys
      && (forall k :: k in entries && entries[k].Leaf? && k != key ==> tree[k] == Scalar(entries[k].text))
      && (forall k :: k in entries && entries[k].Sub? && k != key ==>
            && entries[k].node in repr
            && entries[k].node.repr <= repr - {this} - taken
            && entries[k].node.Valid()
            && tree[k] == Node(entries[k].node.Tree()))
      && (forall j, k :: j in entries && k in entries && j != k && j != key && k != key ==>
            entries[j].Sub? && entries[k].Sub? ==> entries[j].node.repr !! entries[k].node.repr)
    }

    /** Takes a child that has changed back in. */
    ghost method Adopt(key: string, child: MapNode, tree: Document)
      requires key in entries && entries[key] == Sub(child) && child.Valid() && this !in child.repr
      requires OthersStand(key, tree, child.repr)
      modifies this`repr
      ensures Valid() && repr == old(repr) + child.repr && entries == old(entries)
      ensures child.Valid() && child.Tree() == old(child.Tree()) && child.repr == old(child.repr)
      ensures Tree() == tree[key := Node(child.Tree())]
    {
      hide Tree;
      label before:
      repr := repr + child.repr;
      assert child.Valid() && child.Tree() == old@before(child.Tree());
      forall k | k in entries && entries[k].Sub? && k != key
        ensures entries[k].node.Valid() && tree[k] == Node(entries[k].node.Tree())
      {
        assert this !in entries[k].node.repr;
      }
      assert Valid();
      TreeShows(tree[key := Node(child.Tree())]);
    }

    /** Takes a key out. */
    method Delete(key: string)
      requires Valid()
      modifies this
      ensures Valid() && repr == old(repr) && Tree() == old(Tree()) - {key}
    {
      hide Tree;
      ghost var tree := Tree();
      TreeShows(tree);
      entries := entries - {key};
      assert Valid();
      TreeShows(tree - {key});
    }
  }

  /** Maps nested along the path, the value in the innermost one. */
  method BuildNestedMap(path: Path, value: Entry) returns (m: MapNode)
    requires path != [] && Sound(value)
    ensures Sound(value) && m.Valid() && fresh(m) && fresh(m.repr - Repr(value))
    ensures m.Tree() == Build(path, old(Meaning(value)))
    decreases |path|
  {
    hide MapNode.Tree;
    var inner := value;
    if |path| > 1 {
      var child := BuildNestedMap(path[1..], value);
      inner := Sub(child);
    }
    m := new MapNode();
    m.Put(path[0], inner);
  }

  method SetNestedKey(doc: MapNode, path: Path, value: Entry)
    requires doc.Valid() && Sound(value) && doc.repr !! Repr(value)
    modifies doc.repr
    ensures doc.Valid() && doc.Tree() == Set(old(doc.Tree()), path, old(Meaning(value)))
    ensures fresh(doc.repr - old(doc.repr) - old(Repr(value)))
    decreases |path|, 1
  {
    if |path| == 0 { return; }
    if |path| == 1 {
      doc.Put(path[0], value);
      return;
    }
    var key := path[0];
    if key !in doc.entries || doc.entries[key].Leaf? {
      var nested := BuildNestedMap(path[1..], value);
      doc.Put(key, Sub(nested));
      return;
    }
    SetInChild(doc, key, path[1..], value);
  }

  method SetInChild(doc: MapNode, key: string, rest: Path, value: Entry)
    requires doc.Valid() && Sound(value) && doc.repr !! Repr(value)
    requires key in doc.entries && doc.entries[key].Sub?
    modifies doc.repr
    ensures doc.Valid()
    ensures doc.Tree() ==
            old(doc.Tree())[key := Node(Set(old(doc.entries[key].node.Tree()), rest, old(Meaning(value))))]
    ensures fresh(doc.repr - old(doc.repr) - old(Repr(value)))
    decreases |rest|, 2
  {
    hide Set;
    var child := doc.entries[key].node;
    ghost var entries, repr, childRepr, tree := doc.entries, doc.repr, child.repr, doc.Tree();
    SetNestedKey(child, rest, value);
    forall k | k in entries && entries[k].Sub? && k != key
      ensures entries[k].node.Valid() && Node(entries[k].node.Tree()) == tree[k]
      ensures entries[k].node.repr <= repr - childRepr - {doc}
    {
      assert entries[k].node.repr !! childRepr;
    }
    assert doc.OthersStand(key, tree, child.repr);
    doc.Adopt(key, child, tree);
  }

  /** Deletes along a path of at least two keys. */
  lemma UnsetBelow(doc: Document, path: Path)
    requires |path| > 1 && path[0] in doc && doc[path[0]].Node?
    ensures var after := Unset(doc[path[0]].entries, path[1..]);
            Unset(doc, path) == if after.1 && after.0 == map[] then (doc[path[0] := Node(after.0)] - {path[0]}, true)
                                else (doc[path[0] := Node(after.0)], after.1)
  {
    assert doc[path[0] := Node(map[])] - {path[0]} == doc - {path[0]};
  }

  /** Takes a key out if the map under it is empty. */
  method PruneIfEmpty(doc: MapNode, key: string)
    requires doc.Valid() && key in doc.entries && doc.entries[key].Sub?
    modifies doc
    ensures doc.Valid() && doc.repr == old(doc.repr)
    ensures doc.Tree() ==
            if old(doc.entries[key].node.Tree()) == map[] then old(doc.Tree()) - {key} else old(doc.Tree())
  {
    EmptyTree(doc.entries[key].node);
    if |doc.entries[key].node.entries| == 0 {
      doc.Delete(key);
    }
  }

  method UnsetNestedKey(doc: MapNode, path: Path) returns (deleted: bool)
    requires doc.Valid()
    modifies doc.repr
    ensures doc.Valid() && doc.repr == old(doc.repr)
    ensures (doc.Tree(), deleted) == Unset(old(doc.Tree()), path)
    decreases |path|, 1
  {
    if |path| == 0 { return false; }
    if |path| == 1 {
      deleted := path[0] in doc.entries;
      doc.Delete(path[0]);
      return;
    }
    var key := path[0];
    if key !in doc.entries || doc.entries[key].Leaf? { return false; }
    UnsetBelow(doc.Tree(), path);
    hide Unset;
    deleted := UnsetInChild(doc, key, path[1..]);
    if deleted {
      PruneIfEmpty(doc, key);
    }
  }

  lemma EmptyTree(m: MapNode)
    requires m.Valid()
    ensures |m.entries| == 0 <==> m.Tree() == map[]
  {
    assert m.Tree().Keys == m.entries.Keys;
  }

  method UnsetInChild(doc: MapNode, key: string, rest: Path) returns (deleted: bool)
    requires doc.Valid() && key in doc.entries && doc.entries[key].Sub?
    modifies doc.repr
    ensures doc.Valid() && doc.repr == old(doc.repr) && doc.entries == old(doc.entries)
    ensures var after := Unset(old(doc.entries[key].node.Tree()), rest);
            deleted == after.1 && doc.entries[key].node.Tree() == after.0
            && doc.Tree() == old(doc.Tree())[key := Node(after.0)]
    decreases |rest|, 2
  {
    hide Unset;
    var child := doc.entries[key].node;
    ghost var entries, repr, childRepr, tree := doc.entries, doc.repr, child.repr, doc.Tree();
    deleted := UnsetNestedKey(child, rest);
    forall k | k in entries && entries[k].Sub? && k != key
      ensures entries[k].node.Valid() && Node(entries[k].node.Tree()) == tree[k]
      ensures entries[k].node.repr <= repr - childRepr - {doc}
    {
      assert entries[k].node.repr !! childRepr;
    }
    assert doc.OthersStand(key, tree, child.repr);
    doc.Adopt(key, child, tree);
  }

  function GetNestedValue(doc: MapNode, path: Path): (r: Option<Entry>)
    requires doc.Valid()
    reads doc, doc.repr
    ensures r == None ==> Get(doc.Tree(), path) == None
    ensures r.Some? ==> (r.value.Sub? ==> r.value.node in doc.repr && r.value.node.repr <= doc.repr)
                        && Sound(r.value) && Get(doc.Tree(), path) == Some(Meaning(r.value))
    decreases |path|
  {
    if path == [] || path[0] !in doc.entries then None
    else if |path| == 1 then Some(doc.entries[path[0]])
    else if doc.entries[path[0]].Leaf? then None
    else GetNestedValue(doc.entries[path[0]].node, path[1..])
  }
}
