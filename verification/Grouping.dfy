/** Cutting a list into consecutive groups, and what makes two ways of cutting agree. */
module Grouping {

  function Flatten<T>(gs: seq<seq<T>>): seq<T> {
    if gs == [] then [] else Flatten(gs[..|gs| - 1]) + gs[|gs| - 1]
  }

  lemma FlattenSnoc<T>(gs: seq<seq<T>>, g: seq<T>)
    ensures Flatten(gs + [g]) == Flatten(gs) + g
  {
    assert (gs + [g])[..|gs|] == gs;
  }

  lemma {:induction false} FlattenConcat<T>(gs: seq<seq<T>>, hs: seq<seq<T>>)
    ensures Flatten(gs + hs) == Flatten(gs) + Flatten(hs)
  {
    if hs == [] {
      assert gs + hs == gs;
    } else {
      var rest, last := hs[..|hs| - 1], hs[|hs| - 1];
      assert gs + hs == (gs + rest) + [last];
      FlattenConcat(gs, rest);
      FlattenSnoc(gs + rest, last);
    }
  }

  lemma FlattenFirst<T>(g: seq<T>, gs: seq<seq<T>>)
    ensures Flatten([g] + gs) == g + Flatten(gs)
  {
    FlattenConcat([g], gs);
    assert Flatten([g]) == g;
  }

  /**
   The groups of a left-to-right scan that starts a new group at an element when
   `opens` says so, given everything before it.
   */
  function Grouped<T>(xs: seq<T>, opens: (seq<T>, T) -> bool): seq<seq<T>> {
    if xs == [] then []
    else Extended(Grouped(xs[..|xs| - 1], opens), xs[|xs| - 1], OpensAt(xs, opens, |xs| - 1))
  }

  predicate OpensAt<T>(xs: seq<T>, opens: (seq<T>, T) -> bool, i: nat)
    requires i < |xs|
  {
    opens(xs[..i], xs[i])
  }

  lemma OpensAtPrefix<T>(xs: seq<T>, opens: (seq<T>, T) -> bool, n: nat)
    requires n <= |xs|
    ensures forall i :: 0 <= i < n ==> OpensAt(xs[..n], opens, i) == OpensAt(xs, opens, i)
  {
    forall i | 0 <= i < n
      ensures OpensAt(xs[..n], opens, i) == OpensAt(xs, opens, i)
    {
      assert xs[..n][..i] == xs[..i];
    }
  }

  function Extended<T>(gs: seq<seq<T>>, x: T, open: bool): seq<seq<T>> {
    if gs == [] || open then gs + [[x]] else gs[..|gs| - 1] + [gs[|gs| - 1] + [x]]
  }

  lemma GroupedSnoc<T>(xs: seq<T>, x: T, opens: (seq<T>, T) -> bool)
    ensures Grouped(xs + [x], opens) == Extended(Grouped(xs, opens), x, opens(xs, x))
  {
    assert (xs + [x])[..|xs|] == xs;
  }

  lemma ExtendedSuffix<T>(gs: seq<seq<T>>, x: T, open: bool, k: nat)
    requires k < |Extended(gs, x, open)|
    ensures k <= |gs| && Extended(gs, x, open)[..k] == gs[..k]
    ensures Extended(gs, x, open)[k..] == Extended(gs[k..], x, open)
  {
  }

  lemma FlattenExtended<T>(gs: seq<seq<T>>, x: T, open: bool)
    ensures Flatten(Extended(gs, x, open)) == Flatten(gs) + [x]
  {
    if gs == [] || open {
      FlattenSnoc(gs, [x]);
    } else {
      FlattenSnoc(gs[..|gs| - 1], gs[|gs| - 1] + [x]);
    }
  }

  ghost predicate NonEmptyGroups<T>(gs: seq<seq<T>>) {
    forall i :: 0 <= i < |gs| ==> gs[i] != []
  }

  lemma ExtendedNonEmpty<T>(gs: seq<seq<T>>, x: T, open: bool)
    requires NonEmptyGroups(gs)
    ensures NonEmptyGroups(Extended(gs, x, open)) && Extended(gs, x, open) != []
  {
  }

  /** A grouping is a partition: no group is empty and together they are the list. */
  lemma {:induction false} GroupedPartitions<T>(xs: seq<T>, opens: (seq<T>, T) -> bool)
    ensures Flatten(Grouped(xs, opens)) == xs
    ensures NonEmptyGroups(Grouped(xs, opens))
    ensures Grouped(xs, opens) == [] <==> xs == []
  {
    if xs != [] {
      var rest, x := xs[..|xs| - 1], xs[|xs| - 1];
      assert xs == rest + [x];
      GroupedPartitions(rest, opens);
      GroupedSnoc(rest, x, opens);
      hide Grouped, Extended, Flatten, NonEmptyGroups;
      FlattenExtended(Grouped(rest, opens), x, opens(rest, x));
      ExtendedNonEmpty(Grouped(rest, opens), x, opens(rest, x));
    }
  }

  /** Every group but the first begins with an element that has the property. */
  ghost predicate LaterHeads<T>(gs: seq<seq<T>>, p: T -> bool) {
    forall i :: 0 < i < |gs| ==> gs[i] != [] && p(gs[i][0])
  }

  lemma ExtendedHeads<T>(gs: seq<seq<T>>, x: T, open: bool, p: T -> bool)
    requires LaterHeads(gs, p) && (open ==> p(x))
    ensures LaterHeads(Extended(gs, x, open), p)
  {
    var n := |gs|;
    if gs != [] && !open {
      assert forall i :: 0 < i < n - 1 ==> Extended(gs, x, open)[i] == gs[i];
      assert n > 1 ==> Extended(gs, x, open)[n - 1][0] == gs[n - 1][0];
    } else {
      assert forall i :: 0 < i < n ==> Extended(gs, x, open)[i] == gs[i];
    }
  }

  /** Every coarse group is a run of consecutive fine groups. */
  ghost predicate Refines<T>(fine: seq<seq<T>>, coarse: seq<seq<T>>)
    decreases |coarse|
  {
    if coarse == [] then fine == []
    else
      exists k :: && 0 <= k <= |fine| && Flatten(fine[k..]) == coarse[|coarse| - 1]
                  && Refines(fine[..k], coarse[..|coarse| - 1])
  }

  lemma RefinesBy<T>(fine: seq<seq<T>>, coarse: seq<seq<T>>, k: nat)
    requires coarse != [] && k <= |fine|
    requires Flatten(fine[k..]) == coarse[|coarse| - 1] && Refines(fine[..k], coarse[..|coarse| - 1])
    ensures Refines(fine, coarse)
  {
  }

  lemma OpenedRefines<T>(fine: seq<seq<T>>, coarse: seq<seq<T>>, x: T)
    requires Refines(fine, coarse)
    ensures Refines(fine + [[x]], coarse + [[x]])
  {
    var fine', coarse' := fine + [[x]], coarse + [[x]];
    assert fine'[..|fine|] == fine && coarse'[..|coarse|] == coarse;
    assert fine'[|fine|..] == [[x]];
    assert [[x]][..0] == [];
    assert Flatten([[x]]) == [x];
    RefinesBy(fine', coarse', |fine|);
  }

  lemma AppendedRefines<T>(fine: seq<seq<T>>, coarse: seq<seq<T>>, x: T, fineOpens: bool)
    requires Refines(fine, coarse) && coarse != [] && NonEmptyGroups(coarse)
    ensures Refines(Extended(fine, x, fineOpens), Extended(coarse, x, false))
  {
    var fine', coarse' := Extended(fine, x, fineOpens), Extended(coarse, x, false);
    var m := |coarse| - 1;
    var k :| 0 <= k <= |fine| && Flatten(fine[k..]) == coarse[m] && Refines(fine[..k], coarse[..m]);
    assert k < |fine|;
    ExtendedSuffix(fine, x, fineOpens, k);
    ExtendedSuffix(coarse, x, false, m);
    FlattenExtended(fine[k..], x, fineOpens);
    hide Refines;
    RefinesBy(fine', coarse', k);
  }

  lemma StepRefines<T>(fine: seq<seq<T>>, coarse: seq<seq<T>>, x: T, fineOpens: bool, coarseOpens: bool)
    requires Refines(fine, coarse) && (fine == [] <==> coarse == []) && NonEmptyGroups(coarse)
    requires coarseOpens ==> fineOpens
    ensures Refines(Extended(fine, x, fineOpens), Extended(coarse, x, coarseOpens))
  {
    if coarse == [] || coarseOpens {
      OpenedRefines(fine, coarse, x);
    } else {
      AppendedRefines(fine, coarse, x, fineOpens);
    }
  }

  ghost predicate OpensMore<T>(xs: seq<T>, fineOpens: (seq<T>, T) -> bool, coarseOpens: (seq<T>, T) -> bool) {
    forall i :: 0 <= i < |xs| && OpensAt(xs, coarseOpens, i) ==> OpensAt(xs, fineOpens, i)
  }

  lemma OpensMorePrefix<T>(xs: seq<T>, fineOpens: (seq<T>, T) -> bool, coarseOpens: (seq<T>, T) -> bool)
    requires xs != [] && OpensMore(xs, fineOpens, coarseOpens)
    ensures var n := |xs| - 1;
            OpensMore(xs[..n], fineOpens, coarseOpens) && (OpensAt(xs, coarseOpens, n) ==> OpensAt(xs, fineOpens, n))
  {
    OpensAtPrefix(xs, fineOpens, |xs| - 1);
    OpensAtPrefix(xs, coarseOpens, |xs| - 1);
  }

  /** A scan that opens a group whenever another one does refines it. */
  lemma {:induction false} MoreOpeningsRefine<T>(xs: seq<T>, fineOpens: (seq<T>, T) -> bool,
        coarseOpens: (seq<T>, T) -> bool)
    requires OpensMore(xs, fineOpens, coarseOpens)
    ensures Refines(Grouped(xs, fineOpens), Grouped(xs, coarseOpens))
  {
    if xs != [] {
      var n := |xs| - 1;
      var init := xs[..n];
      OpensMorePrefix(xs, fineOpens, coarseOpens);
      MoreOpeningsRefine(init, fineOpens, coarseOpens);
      GroupedPartitions(init, fineOpens);
      GroupedPartitions(init, coarseOpens);
      StepRefines(Grouped(init, fineOpens), Grouped(init, coarseOpens), xs[n],
                  OpensAt(xs, fineOpens, n), OpensAt(xs, coarseOpens, n));
    }
  }

  lemma ExtendedInjective<T>(gs: seq<seq<T>>, hs: seq<seq<T>>, x: T, open1: bool, open2: bool)
    requires NonEmptyGroups(gs) && NonEmptyGroups(hs) && (gs == [] <==> hs == [])
    requires Extended(gs, x, open1) == Extended(hs, x, open2)
    ensures gs == hs && (gs != [] ==> open1 == open2)
  {
    if gs != [] {
      var r := Extended(gs, x, open1);
      var last := r[|r| - 1];
      assert open1 <==> |last| == 1;
      assert open2 <==> |last| == 1;
      if open1 {
        assert gs == r[..|r| - 1] == hs;
      } else {
        assert gs[|gs| - 1] == last[..|last| - 1] == hs[|hs| - 1];
        assert gs[..|gs| - 1] == r[..|r| - 1] == hs[..|hs| - 1];
        assert gs == gs[..|gs| - 1] + [gs[|gs| - 1]] && hs == hs[..|hs| - 1] + [hs[|hs| - 1]];
      }
    }
  }

  ghost predicate SameOpenings<T>(xs: seq<T>, f: (seq<T>, T) -> bool, g: (seq<T>, T) -> bool) {
    forall i :: 0 < i < |xs| ==> OpensAt(xs, f, i) == OpensAt(xs, g, i)
  }

  lemma SameOpeningsSnoc<T>(xs: seq<T>, f: (seq<T>, T) -> bool, g: (seq<T>, T) -> bool)
    requires xs != []
    ensures var n := |xs| - 1;
            SameOpenings(xs, f, g) <==>
            SameOpenings(xs[..n], f, g) && (n > 0 ==> OpensAt(xs, f, n) == OpensAt(xs, g, n))
  {
    OpensAtPrefix(xs, f, |xs| - 1);
    OpensAtPrefix(xs, g, |xs| - 1);
  }

  /** Two scans give the same groups if and only if they agree at every element but the first. */
  lemma {:induction false} SameGroupsIff<T>(xs: seq<T>, f: (seq<T>, T) -> bool, g: (seq<T>, T) -> bool)
    ensures Grouped(xs, f) == Grouped(xs, g) <==> SameOpenings(xs, f, g)
  {
    if xs != [] {
      var n := |xs| - 1;
      var init := xs[..n];
      SameGroupsIff(init, f, g);
      SameOpeningsSnoc(xs, f, g);
      GroupedPartitions(init, f);
      GroupedPartitions(init, g);
      if Grouped(xs, f) == Grouped(xs, g) {
        ExtendedInjective(Grouped(init, f), Grouped(init, g), xs[n], OpensAt(xs, f, n), OpensAt(xs, g, n));
      }
    }
  }

  /** Whether a group opens depends on the element alone. */
  ghost predicate Memoryless<T(!new)>(opens: (seq<T>, T) -> bool) {
    forall p, q, x :: opens(p, x) == opens(q, x)
  }

  ghost predicate OpenHeads<T>(gs: seq<seq<T>>, opens: (seq<T>, T) -> bool) {
    forall i :: 0 < i < |gs| ==> gs[i] != [] && opens([], gs[i][0])
  }

  /** Every group after the first begins with an element that opens. */
  lemma {:induction false} GroupsBeginOpen<T(!new)>(xs: seq<T>, opens: (seq<T>, T) -> bool)
    requires Memoryless(opens)
    ensures OpenHeads(Grouped(xs, opens), opens)
  {
    if xs != [] {
      var n := |xs| - 1;
      GroupsBeginOpen(xs[..n], opens);
      GroupedPartitions(xs[..n], opens);
      var gs := Grouped(xs[..n], opens);
      assert OpensAt(xs, opens, n) == opens([], xs[n]);
      assert Grouped(xs, opens) == Extended(gs, xs[n], OpensAt(xs, opens, n));
      assert forall i :: 0 < i < |gs| ==> gs[i] != [] && opens([], gs[i][0]);
    }
  }

  /** Grouping the elements of any suffix of the groups gives back exactly those groups. */
  lemma {:induction false} RegroupSuffix<T(!new)>(xs: seq<T>, opens: (seq<T>, T) -> bool, k: nat)
    requires Memoryless(opens) && k <= |Grouped(xs, opens)|
    ensures Grouped(Flatten(Grouped(xs, opens)[k..]), opens) == Grouped(xs, opens)[k..]
  {
    var gs := Grouped(xs, opens);
    if k < |gs| {
      var n := |xs| - 1;
      var before, x, open := Grouped(xs[..n], opens), xs[n], OpensAt(xs, opens, n);
      assert gs == Extended(before, x, open);
      ExtendedSuffix(before, x, open, k);
      RegroupSuffix(xs[..n], opens, k);
      FlattenExtended(before[k..], x, open);
      GroupedSnoc(Flatten(before[k..]), x, opens);
      assert opens(Flatten(before[k..]), x) == open;
    }
  }

  function Mapped<S, T>(xs: seq<S>, f: S -> T): (r: seq<T>)
    ensures |r| == |xs| && forall i :: 0 <= i < |xs| ==> r[i] == f(xs[i])
  {
    seq(|xs|, i requires 0 <= i < |xs| => f(xs[i]))
  }
}
