/**
 The batches that wait for delivery are joined in the iteration order of a map. Which pending batches have equal
 names next to each other in every such order (internal/platform/lsp/diagnostics.go, CheckForDiagnostics).
 */
module PendingOrder {
  import opened FileDedup
  import opened Wrappers

  /** The file names that each batch reports, by batch. */
  type Batches = map<nat, seq<string>>

  /** Every id once. */
  ghost predicate Lists(order: seq<nat>, ids: set<nat>) {
    && (forall id :: id in order <==> id in ids)
    && (forall i, j :: 0 <= i < j < |order| ==> order[i] != order[j])
  }

  /** The names of the batches, joined in a given order. */
  function NamesIn(names: Batches, order: seq<nat>): seq<string>
    requires forall id :: id in order ==> id in names
  {
    if order == [] then [] else NamesIn(names, order[..|order| - 1]) + names[order[|order| - 1]]
  }

  ghost predicate DisjointNames(names: Batches) {
    forall a, b, u :: a in names && b in names && a != b && u in names[a] ==> u !in names[b]
  }

  ghost predicate OneName(names: Batches) {
    forall a, b, u, v :: a in names && b in names && u in names[a] && v in names[b] ==> u == v
  }

  /** Each batch is in order by itself, and either no name is in two batches or there is only one name at all. */
  ghost predicate InEveryOrder(names: Batches) {
    (forall id :: id in names ==> Adjacent(names[id])) && (DisjointNames(names) || OneName(names))
  }

  lemma NamesNext(names: Batches, order: seq<nat>, id: nat)
    requires (forall k :: k in order ==> k in names) && id in names
    ensures NamesIn(names, order + [id]) == NamesIn(names, order) + names[id]
  {
    assert (order + [id])[..|order|] == order;
  }

  lemma {:induction false} NamesConcat(names: Batches, order: seq<nat>, more: seq<nat>)
    requires (forall k :: k in order ==> k in names) && (forall k :: k in more ==> k in names)
    ensures NamesIn(names, order + more) == NamesIn(names, order) + NamesIn(names, more)
  {
    if more == [] {
      assert order + more == order;
    } else {
      var rest, id := more[..|more| - 1], more[|more| - 1];
      assert more == rest + [id] && order + more == (order + rest) + [id];
      NamesConcat(names, order, rest);
      hide NamesIn;
      NamesNext(names, order + rest, id);
      NamesNext(names, rest, id);
      Associative(NamesIn(names, order), NamesIn(names, rest), names[id]);
    }
  }

  lemma {:induction false} NameFrom(names: Batches, order: seq<nat>, u: string)
    requires forall k :: k in order ==> k in names
    ensures u in NamesIn(names, order) <==> exists id :: id in order && u in names[id]
  {
    if order != [] {
      var rest, id := order[..|order| - 1], order[|order| - 1];
      assert order == rest + [id];
      NameFrom(names, rest, u);
      NamesNext(names, rest, id);
      assert forall k :: k in order <==> k in rest || k == id;
    }
  }

  // ---------------------------------------------------------------- sufficient

  lemma AdjacentConcat(a: seq<string>, b: seq<string>)
    requires Adjacent(a) && Adjacent(b) && (forall u :: u in a ==> u !in b)
    ensures Adjacent(a + b)
  {
    var all := a + b;
    forall i, k | 0 <= i < |a| <= k < |all|
      ensures all[i] != all[k]
    {
      assert all[i] in a && all[k] in b;
    }
    forall i, j, k | 0 <= i < j < k < |all| && all[i] == all[k]
      ensures all[j] == all[i]
    {
      if i >= |a| {
        assert all[i] == b[i - |a|] && all[j] == b[j - |a|] && all[k] == b[k - |a|];
      }
    }
  }

  lemma {:induction false} DisjointOrder(names: Batches, order: seq<nat>)
    requires (forall k :: k in order ==> k in names) && DisjointNames(names)
    requires forall id :: id in names ==> Adjacent(names[id])
    requires forall i, j :: 0 <= i < j < |order| ==> order[i] != order[j]
    ensures Adjacent(NamesIn(names, order))
  {
    if order != [] {
      var rest, id := order[..|order| - 1], order[|order| - 1];
      assert order == rest + [id];
      DisjointOrder(names, rest);
      hide Adjacent, NamesIn;
      NamesNext(names, rest, id);
      forall u | u in NamesIn(names, rest)
        ensures u !in names[id]
      {
        NameFrom(names, rest, u);
        var k :| k in rest && u in names[k];
        assert k != id;
      }
      AdjacentConcat(NamesIn(names, rest), names[id]);
    }
  }

  lemma InEveryOrderSuffices(names: Batches, order: seq<nat>)
    requires InEveryOrder(names) && Lists(order, names.Keys)
    ensures Adjacent(NamesIn(names, order))
  {
    if DisjointNames(names) {
      hide Adjacent;
      DisjointOrder(names, order);
    } else {
      hide NamesIn;
      var all := NamesIn(names, order);
      forall i, j | 0 <= i < |all| && 0 <= j < |all|
        ensures all[i] == all[j]
      {
        NameFrom(names, order, all[i]);
        NameFrom(names, order, all[j]);
        assert all[i] in all && all[j] in all;
      }
    }
  }

  // ---------------------------------------------------------------- necessary

  ghost function Elements(order: seq<nat>): set<nat> {
    set k | k in order
  }

  /** Any start can be completed to an order. */
  lemma {:induction false} CompleteOrder(start: seq<nat>, ids: set<nat>) returns (order: seq<nat>)
    requires forall id :: id in start ==> id in ids
    requires forall i, j :: 0 <= i < j < |start| ==> start[i] != start[j]
    ensures Lists(order, ids) && start <= order
    decreases ids - Elements(start)
  {
    if id :| id in ids && id !in start {
      assert forall k :: k in start + [id] <==> k in start || k == id;
      assert id in ids - Elements(start) && ids - Elements(start + [id]) <= ids - Elements(start);
      order := CompleteOrder(start + [id], ids);
    } else {
      order := start;
    }
  }

  ghost predicate EveryOrderAdjacent(names: Batches) {
    forall order :: Lists(order, names.Keys) ==> Adjacent(NamesIn(names, order))
  }

  /** Then so is every start of an order. */
  lemma StartIsAdjacent(names: Batches, start: seq<nat>)
    requires EveryOrderAdjacent(names)
    requires forall id :: id in start ==> id in names
    requires forall i, j :: 0 <= i < j < |start| ==> start[i] != start[j]
    ensures Adjacent(NamesIn(names, start))
  {
    var order := CompleteOrder(start, names.Keys);
    var more := order[|start|..];
    assert order == start + more;
    NamesConcat(names, start, more);
    hide NamesIn;
    var a, all := NamesIn(names, start), NamesIn(names, order);
    assert Adjacent(all);
    assert forall i :: 0 <= i < |a| ==> a[i] == all[i];
  }

  /** A name that stands on both sides is all there is in between. */
  lemma Between(a: seq<string>, b: seq<string>, c: seq<string>, u: string, v: string)
    requires Adjacent(a + b + c) && u in a && u in c && v in b
    ensures u == v
  {
    var i :| 0 <= i < |a| && a[i] == u;
    var j :| 0 <= j < |b| && b[j] == v;
    var k :| 0 <= k < |c| && c[k] == u;
    var all := a + b + c;
    assert all[i] == u && all[|a| + j] == v && all[|a| + |b| + k] == u;
  }

  /** A name of one batch that another batch has too is the only name of the first. */
  lemma OnlyNameOf(a: seq<string>, b: seq<string>, u: string, v: string)
    requires Adjacent(a + b) && Adjacent(b + a) && u in a && u in b && v in a
    ensures u == v
  {
    var p :| 0 <= p < |a| && a[p] == u;
    var q :| 0 <= q < |a| && a[q] == v;
    var r :| 0 <= r < |b| && b[r] == u;
    if p < q {
      assert (a + b)[p] == u && (a + b)[q] == v && (a + b)[|a| + r] == u;
    } else if q < p {
      assert (b + a)[r] == u && (b + a)[|b| + q] == v && (b + a)[|b| + p] == u;
    }
  }

  lemma NamesOfOne(names: Batches, a: nat)
    requires a in names
    ensures NamesIn(names, [a]) == names[a]
  {
    assert [a][..0] == [] && NamesIn(names, []) == [];
  }

  lemma NamesOfTwo(names: Batches, a: nat, b: nat)
    requires a in names && b in names
    ensures NamesIn(names, [a, b]) == names[a] + names[b]
  {
    hide NamesIn;
    assert [a, b] == [a] + [b];
    NamesOfOne(names, a);
    NamesNext(names, [a], b);
  }

  lemma NamesOfThree(names: Batches, a: nat, b: nat, c: nat)
    requires a in names && b in names && c in names
    ensures NamesIn(names, [a, b, c]) == names[a] + names[b] + names[c]
  {
    hide NamesIn;
    assert [a, b, c] == [a, b] + [c];
    NamesOfTwo(names, a, b);
    NamesNext(names, [a, b], c);
  }

  lemma SharedNameIsOnlyName(names: Batches, a: nat, b: nat, u: string, c: nat, v: string)
    requires EveryOrderAdjacent(names)
    requires a in names && b in names && a != b && u in names[a] && u in names[b]
    requires c in names && v in names[c]
    ensures u == v
  {
    hide EveryOrderAdjacent, Adjacent, NamesIn;
    StartIsAdjacent(names, [a, b]);
    StartIsAdjacent(names, [b, a]);
    NamesOfTwo(names, a, b);
    NamesOfTwo(names, b, a);
    if c == a {
      OnlyNameOf(names[a], names[b], u, v);
    } else if c == b {
      OnlyNameOf(names[b], names[a], u, v);
    } else {
      StartIsAdjacent(names, [a, c, b]);
      NamesOfThree(names, a, c, b);
      Between(names[a], names[c], names[b], u, v);
    }
  }

  lemma EachIsAdjacent(names: Batches, id: nat)
    requires EveryOrderAdjacent(names) && id in names
    ensures Adjacent(names[id])
  {
    hide EveryOrderAdjacent, Adjacent, NamesIn;
    StartIsAdjacent(names, [id]);
    NamesOfOne(names, id);
  }

  /**
   Pending batches have equal names next to each other in whatever order they are taken exactly when each batch has
   them so and no two batches share a name, or there is one name only.
   */
  lemma EveryOrderAdjacentIff(names: Batches)
    ensures EveryOrderAdjacent(names) <==> InEveryOrder(names)
  {
    if InEveryOrder(names) {
      forall order | Lists(order, names.Keys)
        ensures Adjacent(NamesIn(names, order))
      {
        InEveryOrderSuffices(names, order);
      }
    }
    if EveryOrderAdjacent(names) {
      hide EveryOrderAdjacent, Adjacent;
      forall id | id in names
        ensures Adjacent(names[id])
      {
        EachIsAdjacent(names, id);
      }
      if !DisjointNames(names) {
        var a, b, u :| a in names && b in names && a != b && u in names[a] && u in names[b];
        forall c, v | c in names && v in names[c]
          ensures u == v
        {
          SharedNameIsOnlyName(names, a, b, u, c, v);
        }
      }
    }
  }
}
