/** The registry that collects diagnostics and hands them out (internal/platform/lsp/diagnostics.go). */
module DiagnosticRegistry {
  import opened Wrappers
  import opened DiagnosticKey
  import opened FileDedup
  import opened DiagnosticDelivery
  import opened DiagnosticHistory
  import opened PendingOrder

  datatype Pending = Pending(serverName: string, files: seq<File<Diagnostic>>)

  datatype Delivery = Delivery(serverNames: set<string>, files: seq<File<Diagnostic>>)

  function Severity(d: Diagnostic): int {
    d.severity
  }

  // ---------------------------------------------------------------- insertion sort in place

  function PutAt<T>(s: seq<T>, j: nat, x: T): (r: seq<T>)
    requires j <= |s|
    ensures |r| == |s| + 1 && r[j] == x && (j > 0 ==> r[j - 1] == s[j - 1])
  {
    s[..j] + [x] + s[j..]
  }

  lemma InsertedNext<D>(rank: D -> int, ds: seq<D>, last: D, d: D)
    ensures Inserted(rank, ds + [last], d) ==
            if rank(last) > rank(d) then Inserted(rank, ds, d) + [last] else ds + [last] + [d]
  {
    assert (ds + [last])[..|ds|] == ds;
  }

  lemma PutAtNext<T>(s: seq<T>, last: T, j: nat, x: T)
    requires j <= |s|
    ensures PutAt(s + [last], j, x) == PutAt(s, j, x) + [last]
  {
    assert (s + [last])[..j] == s[..j] && (s + [last])[j..] == s[j..] + [last];
  }

  lemma PutAtEnd<T>(s: seq<T>, x: T)
    ensures PutAt(s, |s|, x) == s + [x]
  {
  }

  lemma {:induction false} InsertedAt<D>(rank: D -> int, ds: seq<D>, d: D, j: nat)
    requires j <= |ds|
    requires forall k :: j <= k < |ds| ==> rank(ds[k]) > rank(d)
    requires j == 0 || rank(ds[j - 1]) <= rank(d)
    ensures Inserted(rank, ds, d) == PutAt(ds, j, d)
    decreases |ds|
  {
    InsertedIntoNothing(rank, d);
    PutAtEnd(ds, d);
    hide Inserted, PutAt;
    if ds != [] {
      var rest, last := ds[..|ds| - 1], ds[|ds| - 1];
      assert ds == rest + [last];
      InsertedNext(rank, rest, last, d);
      if j < |ds| {
        assert rank(ds[|ds| - 1]) > rank(d) && (j > 0 ==> rest[j - 1] == ds[j - 1]);
        InsertedAt(rank, rest, d, j);
        PutAtNext(rest, last, j, d);
      }
    }
  }

  lemma InsertedIntoNothing<D>(rank: D -> int, d: D)
    ensures Inserted(rank, [], d) == [d]
  {
  }

  lemma SwapBack<T>(s: seq<T>, j: nat, x: T, rest: seq<T>)
    requires 0 < j <= |s|
    ensures (PutAt(s, j, x) + rest)[j := s[j - 1]][j - 1 := x] == PutAt(s, j - 1, x) + rest
  {
  }

  /** Moves the element at `i` down to its place among the sorted ones before it. */
  method SinkDown(a: array<Diagnostic>, i: nat)
    requires i < a.Length
    modifies a
    ensures a[..] == Inserted(Severity, old(a[..i]), old(a[i])) + old(a[i + 1..])
  {
    hide Inserted, PutAt;
    ghost var sorted, d, rest := a[..i], a[i], a[i + 1..];
    var j := i;
    PutAtEnd(sorted, d);
    assert a[..] == sorted + [d] + rest;
    while j > 0 && a[j].severity < a[j - 1].severity
      invariant j <= i && a[..] == PutAt(sorted, j, d) + rest
      invariant forall k :: j <= k < i ==> Severity(sorted[k]) > Severity(d)
    {
      ghost var before := a[..];
      assert before[j] == d && before[j - 1] == sorted[j - 1];
      a[j], a[j - 1] := a[j - 1], a[j];
      assert a[..] == before[j := sorted[j - 1]][j - 1 := d];
      SwapBack(sorted, j, d, rest);
      j := j - 1;
    }
    assert a[..][j] == d && (j > 0 ==> a[..][j - 1] == sorted[j - 1]);
    InsertedAt(Severity, sorted, d, j);
  }

  /** The diagnostics of one severity, in order. */
  ghost function OfSeverity(ds: seq<Diagnostic>, v: int): seq<Diagnostic> {
    if ds == [] then []
    else OfSeverity(ds[..|ds| - 1], v) + (if ds[|ds| - 1].severity == v then [ds[|ds| - 1]] else [])
  }

  lemma {:induction false} OfSeverityIs(ds: seq<Diagnostic>, v: int)
    ensures OfSeverity(ds, v) == OfRank(Severity, ds, v)
  {
    if ds != [] {
      OfSeverityIs(ds[..|ds| - 1], v);
    }
  }

  /** Sorting puts the smallest severity number first and keeps the diagnostics of each severity in their order. */
  lemma SeveritySorts(ds: seq<Diagnostic>)
    ensures var r := Sorted(Severity, ds);
            && (forall i, j :: 0 <= i < j < |r| ==> r[i].severity <= r[j].severity)
            && (forall v :: OfSeverity(r, v) == OfSeverity(ds, v))
  {
    hide Sorted;
    var r := Sorted(Severity, ds);
    SortIsStable(Severity, ds, 0);
    assert forall i, j :: 0 <= i < j < |r| ==> Severity(r[i]) <= Severity(r[j]);
    forall v
      ensures OfSeverity(r, v) == OfSeverity(ds, v)
    {
      SortIsStable(Severity, ds, v);
      OfSeverityIs(r, v);
      OfSeverityIs(ds, v);
    }
  }

  lemma TakeApart<T>(s: seq<T>, rest: seq<T>)
    requires rest != []
    ensures (s + rest)[..|s|] == s && (s + rest)[|s|] == rest[0] && (s + rest)[|s| + 1..] == rest[1..]
  {
  }

  method SortDiagnosticsBySeverity(a: array<Diagnostic>)
    modifies a
    ensures a[..] == Sorted(Severity, old(a[..]))
    ensures forall i, j :: 0 <= i < j < a.Length ==> a[i].severity <= a[j].severity
    ensures forall v :: OfSeverity(a[..], v) == OfSeverity(old(a[..]), v)
  {
    hide OfSeverity;
    ghost var was := a[..];
    if a.Length == 0 { return; }
    SortOne(a[0]);
    assert was[..1] == [a[0]] && a[..] == [a[0]] + was[1..];
    for i := 1 to a.Length
      invariant a[..] == Sorted(Severity, was[..i]) + was[i..]
    {
      assert was[..i + 1][..i] == was[..i];
      TakeApart(Sorted(Severity, was[..i]), was[i..]);
      assert a[i] == a[..][i] && a[..i] == a[..][..i] && a[i + 1..] == a[..][i + 1..];
      assert was[i..][1..] == was[i + 1..];
      SinkDown(a, i);
    }
    assert was[..a.Length] == was && was[a.Length..] == [];
    SeveritySorts(was);
  }

  lemma SortOne(d: Diagnostic)
    ensures Sorted(Severity, [d]) == [d]
  {
    assert [d][..0] == [];
  }

  // ---------------------------------------------------------------- the steps of a check

  method FilterNonEmpty(files: seq<File<Diagnostic>>) returns (result: seq<File<Diagnostic>>)
    ensures result == NonEmpty(files)
  {
    result := [];
    for i := 0 to |files|
      invariant result == NonEmpty(files[..i])
    {
      assert files[..i + 1][..i] == files[..i];
      if |files[i].diagnostics| > 0 { result := result + [files[i]]; }
    }
    assert files[..|files|] == files;
  }

  method AddFileDiagnostics(p: Progress<Diagnostic, string>, known: set<string>, uri: string, ds: seq<Diagnostic>)
    returns (r: Progress<Diagnostic, string>)
    requires p.out != [] && uri in p.seen
    ensures r == AddDiagnostics(Key, p, known, uri, ds)
  {
    hide Key;
    r := p;
    assert ds[..0] == [];
    for i := 0 to |ds|
      invariant r == AddDiagnostics(Key, p, known, uri, ds[..i])
    {
      assert ds[..i + 1][..i] == ds[..i];
      var key := Key(ds[i]);
      if key in r.seen[uri] || key in known { continue; }
      var last := |r.out| - 1;
      var file := r.out[last];
      r := Progress(r.out[..last] + [File(file.uri, file.diagnostics + [ds[i]])], r.seen[uri := r.seen[uri] + {key}]);
    }
    assert ds[..|ds|] == ds;
  }

  method CapFile(file: File<Diagnostic>, totalCount: nat) returns (capped: File<Diagnostic>)
    requires totalCount <= MAX_TOTAL_DIAGNOSTICS
    ensures capped == CappedFile(Severity, file, totalCount)
  {
    var a := new Diagnostic[|file.diagnostics|](k requires 0 <= k < |file.diagnostics| => file.diagnostics[k]);
    assert a[..] == file.diagnostics;
    SortDiagnosticsBySeverity(a);
    hide Sorted;
    var ds := a[..];
    if |ds| > MAX_DIAGNOSTICS_PER_FILE { ds := ds[..MAX_DIAGNOSTICS_PER_FILE]; }
    var remaining := MAX_TOTAL_DIAGNOSTICS - totalCount;
    if |ds| > remaining { ds := ds[..remaining]; }
    assert ds == a[..][..Allowance(|file.diagnostics|, totalCount)];
    capped := File(file.uri, ds);
  }

  lemma TotalNext(files: seq<File<Diagnostic>>, f: File<Diagnostic>)
    ensures Total(files + [f]) == Total(files) + |f.diagnostics|
  {
    assert (files + [f])[..|files|] == files;
  }

  method CapVolume(deduped: seq<File<Diagnostic>>) returns (capped: seq<File<Diagnostic>>)
    ensures capped == Capped(Severity, deduped)
  {
    hide Total, CappedFile;
    capped := [];
    var totalCount: nat := 0;
    assert Total<Diagnostic>([]) == 0 by { TotalNone(); }
    for i := 0 to |deduped|
      invariant capped == Capped(Severity, deduped[..i]) && totalCount == Total(capped)
    {
      assert deduped[..i + 1][..i] == deduped[..i];
      var file := CapFile(deduped[i], totalCount);
      TotalNext(capped, file);
      totalCount := totalCount + |file.diagnostics|;
      capped := capped + [file];
    }
    assert deduped[..|deduped|] == deduped;
  }

  lemma TotalNone()
    ensures Total<Diagnostic>([]) == 0
  {
  }

  method AddKeys(known: set<string>, ds: seq<Diagnostic>) returns (keys: set<string>)
    ensures keys == known + KeysOf(Key, ds)
  {
    hide Key;
    keys := known;
    for j := 0 to |ds|
      invariant keys == known + KeysOf(Key, ds[..j])
    {
      assert ds[..j + 1][..j] == ds[..j];
      keys := keys + {Key(ds[j])};
    }
    assert ds[..|ds|] == ds;
  }

  lemma RecordedNone(delivered: Index<string>)
    ensures Recorded(Key, delivered, []) == delivered
  {
  }

  lemma RecordedNext(delivered: Index<string>, files: seq<File<Diagnostic>>, f: File<Diagnostic>)
    ensures var before := Recorded(Key, delivered, files);
            Recorded(Key, delivered, files + [f]) == before[f.uri := Known(before, f.uri) + KeysOf(Key, f.diagnostics)]
  {
    assert (files + [f])[..|files|] == files;
  }

  /** The files of the pending batches in a given order. */
  function FilesOf(pending: map<nat, Pending>, order: seq<nat>): seq<File<Diagnostic>>
    requires forall id :: id in order ==> id in pending
  {
    if order == [] then []
    else FilesOf(pending, order[..|order| - 1]) + pending[order[|order| - 1]].files
  }

  lemma FilesNext(pending: map<nat, Pending>, order: seq<nat>, id: nat)
    requires (forall k :: k in order ==> k in pending) && id in pending
    ensures FilesOf(pending, order + [id]) == FilesOf(pending, order) + pending[id].files
  {
    assert (order + [id])[..|order|] == order;
  }

  /** The file names that the pending batches report. */
  ghost function NamesOf(pending: map<nat, Pending>): Batches {
    map id | id in pending :: Uris(pending[id].files)
  }

  lemma UrisConcat(a: seq<File<Diagnostic>>, b: seq<File<Diagnostic>>)
    ensures Uris(a + b) == Uris(a) + Uris(b)
  {
  }

  lemma {:induction false} UrisOfFiles(pending: map<nat, Pending>, order: seq<nat>)
    requires forall id :: id in order ==> id in pending
    ensures Uris(FilesOf(pending, order)) == NamesIn(NamesOf(pending), order)
  {
    if order != [] {
      var rest, id := order[..|order| - 1], order[|order| - 1];
      UrisOfFiles(pending, rest);
      UrisConcat(FilesOf(pending, rest), pending[id].files);
    }
  }

  ghost predicate NoDuplicateIds(order: seq<nat>) {
    forall i, j :: 0 <= i < j < |order| ==> order[i] != order[j]
  }

  /** Files with the names of the batches in this order, dealt out to the batches. */
  ghost function Dealt(names: Batches, order: seq<nat>, files: seq<File<Diagnostic>>): map<nat, Pending>
    requires (forall id :: id in order ==> id in names) && |files| == |NamesIn(names, order)|
  {
    if order == [] then map[]
    else
      var rest, id := order[..|order| - 1], order[|order| - 1];
      var n := |files| - |names[id]|;
      Dealt(names, rest, files[..n])[id := Pending("", files[n..])]
  }

  lemma {:induction false} FilesOfSame(p: map<nat, Pending>, q: map<nat, Pending>, order: seq<nat>)
    requires forall id :: id in order ==> id in p && id in q && p[id] == q[id]
    ensures FilesOf(p, order) == FilesOf(q, order)
  {
    if order != [] {
      assert order[|order| - 1] in order;
      FilesOfSame(p, q, order[..|order| - 1]);
    }
  }

  lemma FilesOfLast(p: map<nat, Pending>, order: seq<nat>, id: nat, last: Pending)
    requires (forall k :: k in order ==> k in p) && id !in order
    ensures FilesOf(p[id := last], order + [id]) == FilesOf(p, order) + last.files
  {
    FilesOfSame(p, p[id := last], order);
    FilesNext(p[id := last], order, id);
  }

  lemma DealtNext(names: Batches, order: seq<nat>, id: nat, head: seq<File<Diagnostic>>, last: seq<File<Diagnostic>>)
    requires (forall k :: k in order ==> k in names) && id in names
    requires |head| == |NamesIn(names, order)| && |last| == |names[id]|
    ensures |head + last| == |NamesIn(names, order + [id])|
    ensures Dealt(names, order + [id], head + last) == Dealt(names, order, head)[id := Pending("", last)]
  {
    NamesNext(names, order, id);
    assert (order + [id])[..|order|] == order;
    assert (head + last)[..|head|] == head && (head + last)[|head|..] == last;
  }

  /** The batches have these names, and taken in this order they give these files. */
  ghost predicate DealsOut(p: map<nat, Pending>, names: Batches, order: seq<nat>, files: seq<File<Diagnostic>>) {
    && (forall id :: id in p <==> id in order)
    && (forall id :: id in p ==> id in names && Uris(p[id].files) == names[id])
    && FilesOf(p, order) == files
  }

  lemma DealsOutNext(p: map<nat, Pending>, names: Batches, order: seq<nat>, id: nat, head: seq<File<Diagnostic>>,
        last: seq<File<Diagnostic>>)
    requires DealsOut(p, names, order, head) && id !in order && id in names && Uris(last) == names[id]
    ensures DealsOut(p[id := Pending("", last)], names, order + [id], head + last)
  {
    hide FilesOf, Uris;
    FilesOfLast(p, order, id, Pending("", last));
    assert forall k :: k in order + [id] <==> k in order || k == id;
  }

  /** Dealing out keeps the names of each batch, and taking the batches in that order gives the files back. */
  lemma {:induction false} DealtIs(names: Batches, order: seq<nat>, files: seq<File<Diagnostic>>)
    requires (forall id :: id in order ==> id in names) && NoDuplicateIds(order)
    requires Uris(files) == NamesIn(names, order)
    ensures DealsOut(Dealt(names, order, files), names, order, files)
  {
    hide DealsOut, Dealt, NamesIn, Uris, NoDuplicateIds;
    if order == [] {
      DealsNothing(names, files);
    } else {
      var rest, id := order[..|order| - 1], order[|order| - 1];
      NewIdLast(order);
      assert order == rest + [id];
      NamesNext(names, rest, id);
      var n := |NamesIn(names, rest)|;
      var head, last := files[..n], files[n..];
      UrisCut(files, NamesIn(names, rest), names[id]);
      DealtIs(names, rest, head);
      DealtNext(names, rest, id, head, last);
      DealsOutNext(Dealt(names, rest, head), names, rest, id, head, last);
      assert head + last == files;
    }
  }

  lemma NewIdLast(order: seq<nat>)
    requires order != [] && NoDuplicateIds(order)
    ensures var rest, id := order[..|order| - 1], order[|order| - 1];
            NoDuplicateIds(rest) && id !in rest && id in order
  {
  }

  lemma DealsNothing(names: Batches, files: seq<File<Diagnostic>>)
    requires Uris(files) == NamesIn(names, [])
    ensures DealsOut(Dealt(names, [], files), names, [], files)
  {
  }

  lemma SameCut<T>(a: seq<T>, b: seq<T>, c: seq<T>, d: seq<T>)
    requires a + b == c + d && |a| == |c|
    ensures a == c && b == d
  {
    assert (a + b)[..|a|] == a && (c + d)[..|a|] == c;
    assert (a + b)[|a|..] == b && (c + d)[|a|..] == d;
  }

  lemma UrisCut(files: seq<File<Diagnostic>>, first: seq<string>, second: seq<string>)
    requires Uris(files) == first + second
    ensures |first| <= |files| && Uris(files[..|first|]) == first && Uris(files[|first|..]) == second
  {
    hide Uris;
    var head, last := files[..|first|], files[|first|..];
    assert head + last == files;
    UrisConcat(head, last);
    SameCut(Uris(head), Uris(last), first, second);
  }

  /** Every check of pending batches with these names puts every diagnostic under its own name. */
  ghost predicate ChecksAttribute(names: Batches) {
    forall pending, order, delivered: Index<string> :: NamesOf(pending) == names && Lists(order, pending.Keys) ==>
      Attributed(FilesOf(pending, order), Deduplicated(Key, delivered, FilesOf(pending, order)))
  }

  /** Names that some order takes apart: batches that report them, and a check that misfiles a diagnostic. */
  lemma SomeCheckMisfiles(names: Batches, order: seq<nat>, d: Diagnostic) returns (pending: map<nat, Pending>)
    requires Lists(order, names.Keys) && !Adjacent(NamesIn(names, order))
    ensures NamesOf(pending) == names && Lists(order, pending.Keys)
    ensures var files, nothing: Index<string> := FilesOf(pending, order), map[];
            !Attributed(files, Deduplicated(Key, nothing, files))
  {
    hide Adjacent, TwoReports, Key, Deduplicated, Attributed, NamesIn, FilesOf, Dealt, Uris;
    var uris, nothing: Index<string> := NamesIn(names, order), map[];
    var n := SomeNameReturns(uris);
    var files := TwoReports(uris, n, [], d);
    TwoReportsNames(uris, n, [], d);
    DealtIs(names, order, files);
    pending := Dealt(names, order, files);
    SameIds(names, order, pending, files);
    hide Returns, Lists;
    ReturningNameMoves(Key, nothing, uris, n, [], d);
    MovedIsMisfiled(uris, n, d);
    assert [] + [d] == [d];
  }

  lemma SameIds(names: Batches, order: seq<nat>, pending: map<nat, Pending>, files: seq<File<Diagnostic>>)
    requires Lists(order, names.Keys) && DealsOut(pending, names, order, files)
    ensures pending.Keys == names.Keys && NamesOf(pending) == names
  {
    hide FilesOf, Uris;
  }

  /**
   Checks of pending batches put every diagnostic under its own name, whatever the batches report, in whatever
   order they are taken and whatever was delivered, exactly when each batch has equal names next to each other and
   no two batches share a name, or there is one name only.
   */
  lemma ChecksAttributeIff(names: Batches, example: Diagnostic)
    ensures ChecksAttribute(names) <==> InEveryOrder(names)
  {
    EveryOrderAdjacentIff(names);
    hide Adjacent, InEveryOrder, NamesIn, FilesOf, Attributed, Deduplicated, Key;
    if InEveryOrder(names) {
      forall pending, order, delivered: Index<string> | NamesOf(pending) == names && Lists(order, pending.Keys)
        ensures Attributed(FilesOf(pending, order), Deduplicated(Key, delivered, FilesOf(pending, order)))
      {
        UrisOfFiles(pending, order);
        assert names.Keys == pending.Keys;
        AdjacentAttributes(Key, delivered, FilesOf(pending, order));
      }
    } else {
      var order :| Lists(order, names.Keys) && !Adjacent(NamesIn(names, order));
      var pending := SomeCheckMisfiles(names, order, example);
      var nothing: Index<string> := map[];
      assert !Attributed(FilesOf(pending, order), Deduplicated(Key, nothing, FilesOf(pending, order)));
    }
  }

  class LSPDiagnosticRegistry {
    var pending: map<nat, Pending>
    var delivered: Index<string>
    var nextID: nat
    /** Everything that changed the index so far. */
    ghost var history: seq<Event<Diagnostic>>

    ghost predicate Valid()
      reads this
    {
      && delivered == IndexAfter(Key, Severity, history)
      && AllAllowed(Key, Severity, history)
      && forall id :: id in pending ==> id <= nextID
    }

    constructor ()
      ensures Valid() && pending == map[] && history == []
    {
      pending, delivered, nextID, history := map[], map[], 0, [];
    }

    method RegisterPending(serverName: string, files: seq<File<Diagnostic>>)
      requires Valid()
      modifies this
      ensures Valid() && history == old(history)
      ensures exists id: nat :: id !in old(pending) && pending == old(pending)[id := Pending(serverName, files)]
    {
      nextID := nextID + 1;
      pending := pending[nextID := Pending(serverName, files)];
      assert nextID !in old(pending);
    }

    method DeduplicateFiles(allFiles: seq<File<Diagnostic>>) returns (result: seq<File<Diagnostic>>)
      ensures result == Deduplicated(Key, delivered, allFiles)
    {
      hide AddDiagnostics, Key;
      var p: Progress<Diagnostic, string> := Progress([], map[]);
      for i := 0 to |allFiles|
        invariant p == AddFiles(Key, delivered, allFiles[..i])
      {
        var file := allFiles[i];
        assert allFiles[..i + 1] == allFiles[..i] + [file];
        AddFileStep(Key, delivered, allFiles[..i], file);
        if file.uri !in p.seen {
          p := Progress(p.out + [File(file.uri, [])], p.seen[file.uri := {}]);
        }
        var known := if file.uri in delivered then delivered[file.uri] else {};
        p := AddFileDiagnostics(p, known, file.uri, file.diagnostics);
      }
      assert allFiles[..|allFiles|] == allFiles;
      result := FilterNonEmpty(p.out);
    }

    /** Takes the pending batches in any order. */
    method Collect() returns (allFiles: seq<File<Diagnostic>>, serverNames: set<string>, ghost order: seq<nat>)
      ensures Lists(order, pending.Keys)
      ensures allFiles == FilesOf(pending, order)
      ensures serverNames == set id | id in pending :: pending[id].serverName
    {
      allFiles, serverNames, order := [], {}, [];
      var rest := pending.Keys;
      assert FilesOf(pending, []) == [];
      hide FilesOf;
      while rest != {}
        invariant rest <= pending.Keys
        invariant forall id :: id in order <==> id in pending && id !in rest
        invariant forall i, j :: 0 <= i < j < |order| ==> order[i] != order[j]
        invariant allFiles == FilesOf(pending, order)
        invariant serverNames == set id | id in pending && id !in rest :: pending[id].serverName
        decreases |rest|
      {
        var id :| id in rest;
        FilesNext(pending, order, id);
        allFiles := allFiles + pending[id].files;
        serverNames := serverNames + {pending[id].serverName};
        order := order + [id];
        rest := rest - {id};
      }
    }

    method RecordDelivered(files: seq<File<Diagnostic>>)
      modifies this`delivered
      ensures delivered == Recorded(Key, old(delivered), files)
    {
      RecordedNone(delivered);
      hide Key, Recorded;
      for i := 0 to |files|
        invariant delivered == Recorded(Key, old(delivered), files[..i])
      {
        var file := files[i];
        assert files[..i + 1] == files[..i] + [file];
        RecordedNext(old(delivered), files[..i], file);
        var keys := AddKeys(if file.uri in delivered then delivered[file.uri] else {}, file.diagnostics);
        delivered := delivered[file.uri := keys];
      }
      assert files[..|files|] == files;
    }

    method EvictDeliveredFiles() returns (ghost evicted: set<string>)
      requires |delivered| > MAX_DELIVERED_FILES
      modifies this`delivered
      ensures Evicts(old(delivered), evicted) && delivered == old(delivered) - evicted
    {
      var target := MAX_DELIVERED_FILES * 2 / 3;
      var keys: set<string> := {};
      while |keys| < |delivered| - target
        invariant delivered == old(delivered)
        invariant keys <= delivered.Keys && |keys| <= |delivered| - target
      {
        ProperSubset(keys, delivered.Keys);
        var k :| k in delivered.Keys && k !in keys;
        keys := keys + {k};
      }
      delivered := delivered - keys;
      evicted := keys;
    }

    /** Deduplicates, sorts and caps. */
    method SelectFiles(allFiles: seq<File<Diagnostic>>) returns (finalFiles: seq<File<Diagnostic>>)
      ensures finalFiles == Deliverable(Key, Severity, delivered, allFiles)
    {
      var deduped := DeduplicateFiles(allFiles);
      var capped := CapVolume(deduped);
      finalFiles := FilterNonEmpty(capped);
    }

    /** Remembers what is delivered, and evicts when too many files are remembered. */
    method Remember(finalFiles: seq<File<Diagnostic>>) returns (ghost evicted: set<string>)
      requires |delivered| <= MAX_DELIVERED_FILES
      modifies this`delivered
      ensures Evicts(Recorded(Key, old(delivered), finalFiles), evicted)
      ensures delivered == Recorded(Key, old(delivered), finalFiles) - evicted
    {
      evicted := {};
      RecordDelivered(finalFiles);
      hide Recorded, Key;
      if |delivered| > MAX_DELIVERED_FILES {
        evicted := EvictDeliveredFiles();
      } else {
        assert delivered - {} == delivered;
      }
    }

    method CheckForDiagnostics()
      returns (result: Option<Delivery>, ghost order: seq<nat>, ghost evicted: set<string>)
      requires Valid()
      modifies this
      ensures Valid()
      ensures Lists(order, old(pending).Keys)
      ensures var files := FilesOf(old(pending), order);
              if files == [] then result == None && pending == old(pending) && history == old(history)
              else
                && pending == map[]
                && history == old(history) + [Deliver(files, evicted)]
                && var out := Deliverable(Key, Severity, old(delivered), files);
                   result == if out == [] then None
                             else Some(Delivery(set id | id in old(pending) :: old(pending)[id].serverName, out))
    {
      hide Deliverable, Recorded, Key, AllAllowed, IndexAfter, Evicts, FilesOf;
      var allFiles, serverNames;
      allFiles, serverNames, order := Collect();
      evicted := {};
      if |allFiles| == 0 { return None, order, evicted; }
      var finalFiles := SelectFiles(allFiles);
      pending := map[];
      IndexIsBounded(Key, Severity, history);
      if |finalFiles| == 0 {
        NothingRecorded(delivered);
        HistoryNext(history, Deliver(allFiles, {}));
        history := history + [Deliver(allFiles, {})];
        return None, order, evicted;
      }
      evicted := Remember(finalFiles);
      HistoryNext(history, Deliver(allFiles, evicted));
      history := history + [Deliver(allFiles, evicted)];
      return Some(Delivery(serverNames, finalFiles)), order, evicted;
    }

    method ClearPending()
      requires Valid()
      modifies this
      ensures Valid() && pending == map[] && history == old(history)
    {
      pending := map[];
    }

    method ResetAll()
      requires Valid()
      modifies this
      ensures Valid() && pending == map[] && history == old(history) + [Reset]
    {
      HistoryNext(history, Reset);
      pending, delivered := map[], map[];
      history := history + [Reset];
    }

    method ClearDeliveredForFile(fileURI: string)
      requires Valid()
      modifies this
      ensures Valid() && pending == old(pending) && history == old(history) + [Clear(fileURI)]
    {
      HistoryNext(history, Clear(fileURI));
      delivered := delivered - {fileURI};
      history := history + [Clear(fileURI)];
    }
  }

  lemma ProperSubset(keys: set<string>, all: set<string>)
    requires keys <= all && |keys| < |all|
    ensures exists k :: k in all && k !in keys
  {
    assert all == keys + (all - keys);
    var k :| k in all - keys;
  }

  lemma NothingRecorded(delivered: Index<string>)
    requires |delivered| <= MAX_DELIVERED_FILES
    ensures Recorded(Key, delivered, []) - {} == delivered && Evicts(Recorded(Key, delivered, []), {})
  {
  }

  lemma HistoryNext(history: seq<Event<Diagnostic>>, e: Event<Diagnostic>)
    ensures IndexAfter(Key, Severity, history + [e]) == After(Key, Severity, IndexAfter(Key, Severity, history), e)
    ensures AllAllowed(Key, Severity, history + [e]) <==>
            AllAllowed(Key, Severity, history) && Allowed(Key, Severity, IndexAfter(Key, Severity, history), e)
  {
    assert (history + [e])[..|history|] == history;
  }
}
