/** The index of delivered diagnostics over a whole run (internal/platform/lsp/diagnostics.go). */
module DiagnosticHistory {
  import opened FileDedup
  import opened DiagnosticDelivery

  /** All keys that appear under one file name. */
  function KeysUnder<D, K>(key: D -> K, files: seq<File<D>>, uri: string): set<K> {
    if files == [] then {}
    else
      var f := files[|files| - 1];
      KeysUnder(key, files[..|files| - 1], uri) + (if f.uri == uri then KeysOf(key, f.diagnostics) else {})
  }

  predicate DistinctKeys<D, K(==)>(key: D -> K, ds: seq<D>) {
    ds == [] || (DistinctKeys(key, ds[..|ds| - 1]) && key(ds[|ds| - 1]) !in KeysOf(key, ds[..|ds| - 1]))
  }

  /** No file name twice, and within a file no key twice. */
  ghost predicate NoRepeats<D, K>(key: D -> K, files: seq<File<D>>) {
    DistinctUris(files) && forall f :: f in files ==> DistinctKeys(key, f.diagnostics)
  }

  // ---------------------------------------------------------------- sorting and cutting keep keys

  lemma {:induction false} KeysOfPrefix<D, K>(key: D -> K, ds: seq<D>, n: nat)
    requires n <= |ds|
    ensures KeysOf(key, ds[..n]) <= KeysOf(key, ds)
    ensures DistinctKeys(key, ds) ==> DistinctKeys(key, ds[..n])
  {
    if n < |ds| {
      KeysOfPrefix(key, ds[..|ds| - 1], n);
      assert ds[..|ds| - 1][..n] == ds[..n];
    } else {
      assert ds[..n] == ds;
    }
  }

  lemma DistinctNext<D, K>(key: D -> K, ds: seq<D>, d: D)
    ensures DistinctKeys(key, ds + [d]) <==> DistinctKeys(key, ds) && key(d) !in KeysOf(key, ds)
  {
    assert (ds + [d])[..|ds|] == ds;
  }

  lemma {:induction false} InsertedKeys<D, K>(key: D -> K, rank: D -> int, ds: seq<D>, d: D)
    ensures KeysOf(key, Inserted(rank, ds, d)) == KeysOf(key, ds) + {key(d)}
    ensures DistinctKeys(key, ds) && key(d) !in KeysOf(key, ds) ==> DistinctKeys(key, Inserted(rank, ds, d))
  {
    if ds == [] || rank(ds[|ds| - 1]) <= rank(d) {
      KeysSnoc(key, ds, d);
      DistinctNext(key, ds, d);
    } else {
      var rest, last := ds[..|ds| - 1], ds[|ds| - 1];
      InsertedKeys(key, rank, rest, d);
      KeysSnoc(key, Inserted(rank, rest, d), last);
      DistinctNext(key, Inserted(rank, rest, d), last);
    }
  }

  lemma {:induction false} SortedKeys<D, K>(key: D -> K, rank: D -> int, ds: seq<D>)
    ensures KeysOf(key, Sorted(rank, ds)) == KeysOf(key, ds)
    ensures DistinctKeys(key, ds) ==> DistinctKeys(key, Sorted(rank, ds))
  {
    if ds != [] {
      SortedKeys(key, rank, ds[..|ds| - 1]);
      InsertedKeys(key, rank, Sorted(rank, ds[..|ds| - 1]), ds[|ds| - 1]);
    }
  }

  lemma {:induction false} CappedKeys<D, K>(key: D -> K, rank: D -> int, files: seq<File<D>>, uri: string)
    ensures KeysUnder(key, Capped(rank, files), uri) <= KeysUnder(key, files, uri)
  {
    if files != [] {
      var rest, f := files[..|files| - 1], files[|files| - 1];
      CappedKeys(key, rank, rest, uri);
      var total := Total(Capped(rank, rest));
      var g := CappedFile(rank, f, total);
      SortedKeys(key, rank, f.diagnostics);
      KeysOfPrefix(key, Sorted(rank, f.diagnostics), Allowance(|f.diagnostics|, total));
      KeysUnderNext(key, Capped(rank, rest), g, uri);
    }
  }

  lemma KeysUnderNext<D, K>(key: D -> K, files: seq<File<D>>, f: File<D>, uri: string)
    ensures KeysUnder(key, files + [f], uri) ==
            KeysUnder(key, files, uri) + (if f.uri == uri then KeysOf(key, f.diagnostics) else {})
  {
    assert (files + [f])[..|files|] == files;
  }

  lemma {:induction false} NonEmptyKeys<D, K>(key: D -> K, files: seq<File<D>>, uri: string)
    ensures KeysUnder(key, NonEmpty(files), uri) == KeysUnder(key, files, uri)
  {
    if files != [] {
      var rest, f := files[..|files| - 1], files[|files| - 1];
      NonEmptyKeys(key, rest, uri);
      if f.diagnostics == [] {
        assert KeysOf(key, f.diagnostics) == {};
        assert NonEmpty(files) == NonEmpty(rest);
      } else {
        KeysUnderNext(key, NonEmpty(rest), f, uri);
      }
    }
  }

  lemma {:induction false} FreshFilesAreNew<D, K>(key: D -> K, delivered: Index<K>, ms: seq<File<D>>, uri: string)
    ensures KeysUnder(key, FreshFiles(key, delivered, ms), uri) !! Known(delivered, uri)
  {
    if ms != [] {
      var rest, m := ms[..|ms| - 1], ms[|ms| - 1];
      FreshFilesAreNew(key, delivered, rest, uri);
      KeysUnderNext(key, FreshFiles(key, delivered, rest), FreshFile(key, delivered, m), uri);
      FreshKeys(key, Known(delivered, m.uri), m.diagnostics);
    }
  }

  /** With equal names next to each other, nothing is delivered under a name that was delivered under it before. */
  lemma DeliveryIsNew<D, K>(key: D -> K, rank: D -> int, delivered: Index<K>, files: seq<File<D>>, uri: string)
    requires Adjacent(Uris(files))
    ensures KeysUnder(key, Deliverable(key, rank, delivered, files), uri) !! Known(delivered, uri)
  {
    AdjacentSettles(key, delivered, files);
    var out := AddFiles(key, delivered, files).out;
    assert out == FreshFiles(key, delivered, Merged(files));
    hide *;
    FreshFilesAreNew(key, delivered, Merged(files), uri);
    DeliveredKeys(key, rank, delivered, files, uri);
  }

  lemma DeliveredKeys<D, K>(key: D -> K, rank: D -> int, delivered: Index<K>, files: seq<File<D>>, uri: string)
    ensures KeysUnder(key, Deliverable(key, rank, delivered, files), uri) <=
            KeysUnder(key, AddFiles(key, delivered, files).out, uri)
  {
    var out := AddFiles(key, delivered, files).out;
    NonEmptyKeys(key, out, uri);
    CappedKeys(key, rank, NonEmpty(out), uri);
    NonEmptyKeys(key, Capped(rank, NonEmpty(out)), uri);
  }

  lemma {:induction false} FreshIsDistinct<D, K>(key: D -> K, known: set<K>, ds: seq<D>)
    ensures DistinctKeys(key, Fresh(key, known, ds))
  {
    if ds != [] {
      var rest, d := ds[..|ds| - 1], ds[|ds| - 1];
      assert rest + [d] == ds;
      FreshIsDistinct(key, known, rest);
      FreshKeys(key, known, rest);
      FreshNext(key, known, rest, d);
      DistinctNext(key, Fresh(key, known, rest), d);
      hide *;
    }
  }

  lemma {:induction false} NonEmptyDistinct<D>(files: seq<File<D>>)
    requires DistinctUris(files)
    ensures DistinctUris(NonEmpty(files))
  {
    if files != [] {
      var rest, f := files[..|files| - 1], files[|files| - 1];
      NonEmptyDistinct(rest);
      forall k | 0 <= k < |NonEmpty(rest)|
        ensures NonEmpty(rest)[k].uri != f.uri
      {
        NonEmptyMember(rest, NonEmpty(rest)[k]);
      }
    }
  }

  lemma {:induction false} CappedUris<D>(rank: D -> int, files: seq<File<D>>, k: nat)
    requires k < |files|
    ensures Capped(rank, files)[k].uri == files[k].uri
  {
    if k < |files| - 1 { CappedUris(rank, files[..|files| - 1], k); }
  }

  lemma CappedDistinct<D>(rank: D -> int, files: seq<File<D>>)
    requires DistinctUris(files)
    ensures DistinctUris(Capped(rank, files))
  {
    forall i, j | 0 <= i < j < |files|
      ensures Capped(rank, files)[i].uri != Capped(rank, files)[j].uri
    {
      CappedUris(rank, files, i);
      CappedUris(rank, files, j);
    }
  }

  lemma FreshFilesDistinct<D, K>(key: D -> K, delivered: Index<K>, ms: seq<File<D>>)
    requires DistinctUris(ms)
    ensures DistinctUris(FreshFiles(key, delivered, ms))
  {
    forall i, j | 0 <= i < j < |ms|
      ensures FreshFiles(key, delivered, ms)[i].uri != FreshFiles(key, delivered, ms)[j].uri
    {
      FreshFileAt(key, delivered, ms, i);
      FreshFileAt(key, delivered, ms, j);
    }
  }

  lemma DeliveredUrisDistinct<D, K>(key: D -> K, rank: D -> int, delivered: Index<K>, files: seq<File<D>>)
    requires Adjacent(Uris(files))
    ensures DistinctUris(Deliverable(key, rank, delivered, files))
  {
    AdjacentSettles(key, delivered, files);
    MergedDistinct(files);
    var out := AddFiles(key, delivered, files).out;
    assert out == FreshFiles(key, delivered, Merged(files));
    assert Deliverable(key, rank, delivered, files) == NonEmpty(Capped(rank, NonEmpty(out)));
    hide *;
    FreshFilesDistinct(key, delivered, Merged(files));
    NonEmptyDistinct(out);
    CappedDistinct(rank, NonEmpty(out));
    NonEmptyDistinct(Capped(rank, NonEmpty(out)));
  }

  /** With equal names next to each other, one delivery repeats no file name, and no key within a file. */
  lemma DeliveryHasNoRepeats<D, K>(key: D -> K, rank: D -> int, delivered: Index<K>, files: seq<File<D>>)
    requires Adjacent(Uris(files))
    ensures NoRepeats(key, Deliverable(key, rank, delivered, files))
  {
    DeliveredUrisDistinct(key, rank, delivered, files);
    hide Adjacent, Uris, Deliverable, Fresh, DistinctKeys, DiagnosticsOf, Sorted;
    forall f | f in Deliverable(key, rank, delivered, files)
      ensures DistinctKeys(key, f.diagnostics)
    {
      DeliveryShape(key, rank, delivered, files, f);
      var all := Fresh(key, Known(delivered, f.uri), DiagnosticsOf(files, f.uri));
      FreshIsDistinct(key, Known(delivered, f.uri), DiagnosticsOf(files, f.uri));
      SortedKeys(key, rank, all);
      KeysOfPrefix(key, Sorted(rank, all), |f.diagnostics|);
      assert Sorted(rank, all)[..|f.diagnostics|] == f.diagnostics;
    }
  }

  // ---------------------------------------------------------------- remembering

  function Recorded<D, K>(key: D -> K, delivered: Index<K>, files: seq<File<D>>): Index<K> {
    if files == [] then delivered
    else
      var before, f := Recorded(key, delivered, files[..|files| - 1]), files[|files| - 1];
      before[f.uri := Known(before, f.uri) + KeysOf(key, f.diagnostics)]
  }

  /** Recording adds exactly the delivered keys under their names. */
  lemma {:induction false} RecordedKeys<D, K>(key: D -> K, delivered: Index<K>, files: seq<File<D>>, uri: string)
    ensures Known(Recorded(key, delivered, files), uri) == Known(delivered, uri) + KeysUnder(key, files, uri)
    ensures uri in Recorded(key, delivered, files) <==> uri in delivered || uri in Uris(files)
  {
    if files != [] {
      RecordedKeys(key, delivered, files[..|files| - 1], uri);
    }
  }

  /** What changes the index: a delivery with what is evicted after it, clearing one file, clearing everything. */
  datatype Event<D> = Deliver(files: seq<File<D>>, evicted: set<string>) | Clear(uri: string) | Reset

  /** More than 500 files are cut back to 333, two thirds of that; otherwise nothing is evicted. */
  ghost predicate Evicts<K>(index: Index<K>, evicted: set<string>) {
    && evicted <= index.Keys
    && |evicted| == if |index| > 500 then |index| - 333 else 0
  }

  function After<D, K>(key: D -> K, rank: D -> int, index: Index<K>, e: Event<D>): Index<K> {
    match e
    case Deliver(files, evicted) => Recorded(key, index, Deliverable(key, rank, index, files)) - evicted
    case Clear(uri) => index - {uri}
    case Reset => map[]
  }

  ghost predicate Allowed<D, K>(key: D -> K, rank: D -> int, index: Index<K>, e: Event<D>) {
    match e
    case Deliver(files, evicted) => Evicts(Recorded(key, index, Deliverable(key, rank, index, files)), evicted)
    case Clear(_) => true
    case Reset => true
  }

  function IndexAfter<D, K>(key: D -> K, rank: D -> int, es: seq<Event<D>>): Index<K> {
    if es == [] then map[] else After(key, rank, IndexAfter(key, rank, es[..|es| - 1]), es[|es| - 1])
  }

  ghost predicate AllAllowed<D, K>(key: D -> K, rank: D -> int, es: seq<Event<D>>) {
    es == [] ||
    (AllAllowed(key, rank, es[..|es| - 1]) && Allowed(key, rank, IndexAfter(key, rank, es[..|es| - 1]), es[|es| - 1]))
  }

  lemma EvictionBound<K>(index: Index<K>, evicted: set<string>)
    requires Evicts(index, evicted)
    ensures |index - evicted| <= MAX_DELIVERED_FILES
  {
    assert (index - evicted).Keys == index.Keys - evicted;
    assert index.Keys == (index.Keys - evicted) + evicted;
  }

  lemma ClearBound<K>(index: Index<K>, uri: string)
    ensures |index - {uri}| <= |index|
  {
    assert (index - {uri}).Keys == index.Keys - {uri};
    if uri in index {
      assert index.Keys == (index.Keys - {uri}) + {uri};
    } else {
      assert index.Keys - {uri} == index.Keys;
    }
  }

  /** The index never holds more than 500 files. */
  lemma {:induction false} IndexIsBounded<D, K>(key: D -> K, rank: D -> int, es: seq<Event<D>>)
    requires AllAllowed(key, rank, es)
    ensures |IndexAfter(key, rank, es)| <= 500
  {
    if es != [] {
      var index := IndexAfter(key, rank, es[..|es| - 1]);
      IndexIsBounded(key, rank, es[..|es| - 1]);
      match es[|es| - 1]
      case Deliver(files, evicted) =>
        EvictionBound(Recorded(key, index, Deliverable(key, rank, index, files)), evicted);
      case Clear(uri) => ClearBound(index, uri);
      case Reset =>
    }
  }

  predicate Forgets<D>(e: Event<D>, uri: string) {
    match e
    case Deliver(_, evicted) => uri in evicted
    case Clear(u) => u == uri
    case Reset => true
  }

  /** What the i-th event delivers. */
  function DeliveredBy<D, K(==)>(key: D -> K, rank: D -> int, es: seq<Event<D>>, i: nat): seq<File<D>>
    requires i < |es|
  {
    match es[i]
    case Deliver(files, _) => Deliverable(key, rank, IndexAfter(key, rank, es[..i]), files)
    case Clear(_) => []
    case Reset => []
  }

  lemma RememberedNext<D, K>(key: D -> K, rank: D -> int, index: Index<K>, e: Event<D>, uri: string)
    requires !Forgets(e, uri)
    ensures Known(index, uri) <= Known(After(key, rank, index, e), uri)
    ensures e.Deliver? ==>
              KeysUnder(key, Deliverable(key, rank, index, e.files), uri) <= Known(After(key, rank, index, e), uri)
  {
    if e.Deliver? {
      RecordedKeys(key, index, Deliverable(key, rank, index, e.files), uri);
      hide Deliverable;
    }
  }

  /** What was delivered under a name is known until something forgets the name. */
  lemma {:induction false} Remembered<D, K>(key: D -> K, rank: D -> int, es: seq<Event<D>>, i: nat, n: nat, uri: string)
    requires i < n <= |es|
    requires forall m :: i <= m < n ==> !Forgets(es[m], uri)
    ensures KeysUnder(key, DeliveredBy(key, rank, es, i), uri) <= Known(IndexAfter(key, rank, es[..n]), uri)
    decreases n
  {
    assert es[..n][..n - 1] == es[..n - 1];
    RememberedNext(key, rank, IndexAfter(key, rank, es[..n - 1]), es[n - 1], uri);
    if i < n - 1 {
      Remembered(key, rank, es, i, n - 1, uri);
    } else {
      assert KeysUnder(key, [], uri) == {};
    }
  }

  /**
   In a run whose batches have equal names next to each other, a key that is delivered under a name twice
   was forgotten in between: the name was evicted, cleared, or everything was reset.
   */
  lemma NotDeliveredTwice<D, K>(key: D -> K, rank: D -> int, es: seq<Event<D>>, i: nat, j: nat, uri: string, k: K)
    requires i < j < |es|
    requires es[j].Deliver? ==> Adjacent(Uris(es[j].files))
    requires k in KeysUnder(key, DeliveredBy(key, rank, es, i), uri)
    requires k in KeysUnder(key, DeliveredBy(key, rank, es, j), uri)
    ensures exists m :: i <= m < j && Forgets(es[m], uri)
  {
    if forall m :: i <= m < j ==> !Forgets(es[m], uri) {
      Remembered(key, rank, es, i, j, uri);
      if es[j].Deliver? {
        DeliveryIsNew(key, rank, IndexAfter(key, rank, es[..j]), es[j].files, uri);
      }
    }
  }

  // ---------------------------------------------------------------- the condition is needed

  lemma OneFileDelivered<D>(rank: D -> int, f: File<D>)
    requires 1 <= |f.diagnostics| <= 2
    ensures NonEmpty(Capped(rank, [f])) == [File(f.uri, Sorted(rank, f.diagnostics))]
  {
    assert [f][..0] == [];
    var g := CappedFile(rank, f, 0);
    assert Capped(rank, [f]) == [g] && g.diagnostics == Sorted(rank, f.diagnostics);
    assert [g][..0] == [];
  }

  /** A name that comes back has its diagnostic delivered under the name before it. */
  lemma MovedIsDelivered<D, K>(key: D -> K, rank: D -> int, delivered: Index<K>, uris: seq<string>, n: nat,
        first: seq<D>, d: D)
    requires Returns(uris, n) && key(d) !in Known(delivered, uris[n])
    requires |first| <= 1 && forall e :: e in first ==> key(e) !in Known(delivered, uris[n - 1])
    ensures Deliverable(key, rank, delivered, TwoReports(uris, n, first, d)) ==
            [File(uris[n - 1], Sorted(rank, first + [d]))]
  {
    ReturningNameMoves(key, delivered, uris, n, first, d);
    hide Deduplicated;
    OneFileDelivered(rank, File(uris[n - 1], first + [d]));
  }

  lemma SortedSame<D>(rank: D -> int, d: D)
    ensures Sorted(rank, [d]) == [d] && Sorted(rank, [d, d]) == [d, d]
  {
    assert [d][..0] == [] && [d, d][..1] == [d];
  }

  lemma KeysOfOne<D, K>(key: D -> K, uri: string, d: D)
    ensures KeysOf(key, [d]) == {key(d)} && KeysUnder(key, [File(uri, [d])], uri) == {key(d)}
  {
    assert [d][..0] == [] && [File(uri, [d])][..0] == [];
  }

  /** For a given order of names nothing known is ever delivered again exactly when equal names are adjacent. */
  lemma DeliveryIsNewIff<D(!new), K(!new)>(key: D -> K, rank: D -> int, uris: seq<string>, example: D)
    ensures (forall delivered: Index<K>, files: seq<File<D>>, uri :: Uris(files) == uris ==>
               KeysUnder(key, Deliverable(key, rank, delivered, files), uri) !! Known(delivered, uri))
            <==> Adjacent(uris)
  {
    hide *;
    if Adjacent(uris) {
      forall delivered: Index<K>, files: seq<File<D>>, uri | Uris(files) == uris
        ensures KeysUnder(key, Deliverable(key, rank, delivered, files), uri) !! Known(delivered, uri)
      {
        DeliveryIsNew(key, rank, delivered, files, uri);
      }
    } else {
      var n := SomeNameReturns(uris);
      var delivered, files, v := KnownAgain(key, rank, uris, n, example);
      assert !(KeysUnder(key, Deliverable(key, rank, delivered, files), v) !! Known(delivered, v));
    }
  }

  lemma KnownAgain<D, K>(key: D -> K, rank: D -> int, uris: seq<string>, n: nat, d: D)
    returns (delivered: Index<K>, files: seq<File<D>>, v: string)
    requires Returns(uris, n)
    ensures Uris(files) == uris && delivered == map[v := {key(d)}]
    ensures Deliverable(key, rank, delivered, files) == [File(v, [d])]
    ensures key(d) in KeysUnder(key, [File(v, [d])], v) && key(d) in Known(delivered, v)
  {
    v, files := uris[n - 1], TwoReports(uris, n, [], d);
    delivered := map[v := {key(d)}];
    TwoReportsNames(uris, n, [], d);
    hide Adjacent, TwoReports, Deliverable, KeysUnder, Sorted;
    MovedIsDelivered(key, rank, delivered, uris, n, [], d);
    SortedSame(rank, d);
    assert [] + [d] == [d];
    KeysOfOne(key, v, d);
  }

  /** For a given order of names no delivery repeats anything exactly when equal names are adjacent. */
  lemma DeliveryHasNoRepeatsIff<D(!new), K(!new)>(key: D -> K, rank: D -> int, uris: seq<string>, example: D)
    ensures (forall delivered: Index<K>, files: seq<File<D>> ::
               Uris(files) == uris ==> NoRepeats(key, Deliverable(key, rank, delivered, files)))
            <==> Adjacent(uris)
  {
    if Adjacent(uris) {
      forall delivered: Index<K>, files: seq<File<D>> | Uris(files) == uris
        ensures NoRepeats(key, Deliverable(key, rank, delivered, files))
      {
        DeliveryHasNoRepeats(key, rank, delivered, files);
      }
    } else {
      var n := SomeNameReturns(uris);
      var nothing: Index<K> := map[];
      TwoReportsNames(uris, n, [example], example);
      MovedIsDelivered(key, rank, nothing, uris, n, [example], example);
      SortedSame(rank, example);
      TwiceRepeats(key, uris[n - 1], example);
      hide *;
      assert [example] + [example] == [example, example];
    }
  }

  lemma TwiceRepeats<D, K>(key: D -> K, uri: string, d: D)
    ensures !NoRepeats(key, [File(uri, [d, d])])
  {
    assert [d, d][..1] == [d];
    KeysOfOne(key, uri, d);
    assert File(uri, [d, d]) in [File(uri, [d, d])];
  }

  ghost predicate ForgottenBetween<D>(es: seq<Event<D>>, i: nat, j: nat, uri: string) {
    exists m :: i <= m < j && m < |es| && Forgets(es[m], uri)
  }

  /** The j-th event is a delivery of files of these names, and delivers a key under `uri` that the i-th did. */
  ghost predicate DeliversAgain<D, K>(key: D -> K, rank: D -> int, es: seq<Event<D>>, i: nat, j: nat, uri: string,
        uris: seq<string>) {
    && i < j < |es| && es[j].Deliver? && Uris(es[j].files) == uris
    && !(KeysUnder(key, DeliveredBy(key, rank, es, i), uri) !! KeysUnder(key, DeliveredBy(key, rank, es, j), uri))
  }

  /**
   For a given order of names, and in every run: a delivery of files of these names repeats only what was forgotten
   in between, exactly when equal names are adjacent.
   */
  lemma NotDeliveredTwiceIff<D(!new), K(!new)>(key: D -> K, rank: D -> int, uris: seq<string>, example: D)
    ensures (forall es: seq<Event<D>>, i: nat, j: nat, uri ::
               AllAllowed(key, rank, es) && DeliversAgain(key, rank, es, i, j, uri, uris) ==>
                 ForgottenBetween(es, i, j, uri))
            <==> Adjacent(uris)
  {
    hide *;
    if Adjacent(uris) {
      forall es: seq<Event<D>>, i: nat, j: nat, uri | DeliversAgain(key, rank, es, i, j, uri, uris)
        ensures ForgottenBetween(es, i, j, uri)
      {
        OnceUnlessForgotten(key, rank, es, i, j, uri, uris);
      }
    } else {
      var n := SomeNameReturns(uris);
      var es, v := DeliveredAgain(key, rank, uris, n, example);
      assert AllAllowed(key, rank, es) && DeliversAgain(key, rank, es, 0, 1, v, uris);
    }
  }

  lemma OnceUnlessForgotten<D, K>(key: D -> K, rank: D -> int, es: seq<Event<D>>, i: nat, j: nat, uri: string,
        uris: seq<string>)
    requires DeliversAgain(key, rank, es, i, j, uri, uris) && Adjacent(uris)
    ensures ForgottenBetween(es, i, j, uri)
  {
    hide KeysUnder, DeliveredBy, Adjacent, Uris, Forgets;
    var k :| && k in KeysUnder(key, DeliveredBy(key, rank, es, i), uri)
             && k in KeysUnder(key, DeliveredBy(key, rank, es, j), uri);
    NotDeliveredTwice(key, rank, es, i, j, uri, k);
  }

  /** A run of two deliveries after which nothing is evicted. */
  lemma TwoDeliveries<D, K>(key: D -> K, rank: D -> int, first: seq<File<D>>, second: seq<File<D>>)
    ensures var es: seq<Event<D>>, nothing: Index<K> := [Deliver(first, {}), Deliver(second, {})], map[];
            var index := Recorded(key, nothing, Deliverable(key, rank, nothing, first));
            && DeliveredBy(key, rank, es, 0) == Deliverable(key, rank, nothing, first)
            && DeliveredBy(key, rank, es, 1) == Deliverable(key, rank, index, second)
            && (AllAllowed(key, rank, es) <==>
                Evicts(index, {}) && Evicts(Recorded(key, index, Deliverable(key, rank, index, second)), {}))
  {
    hide Recorded, Deliverable, Evicts;
    var a, b: Event<D> := Deliver(first, {}), Deliver(second, {});
    assert [a, b][..0] == [] && [a][..0] == [] && [a, b][..1] == [a];
    var nothing: Index<K> := map[];
    assert IndexAfter(key, rank, [a]) == After(key, rank, nothing, a);
    var index := Recorded(key, nothing, Deliverable(key, rank, nothing, first));
    assert index - {} == index;
    assert AllAllowed(key, rank, [a]) <==> Allowed(key, rank, nothing, a);
    assert AllAllowed(key, rank, [a, b]) <==> AllAllowed(key, rank, [a]) && Allowed(key, rank, index, b);
  }

  /** Delivers `d` under `v`, and then again under `v` what another name reports. */
  lemma DeliveredAgain<D, K>(key: D -> K, rank: D -> int, uris: seq<string>, n: nat, d: D)
    returns (es: seq<Event<D>>, v: string)
    requires Returns(uris, n)
    ensures AllAllowed(key, rank, es) && DeliversAgain(key, rank, es, 0, 1, v, uris) && !ForgottenBetween(es, 0, 1, v)
  {
    var delivered, files, w := KnownAgain(key, rank, uris, n, d);
    v := w;
    var one := [File(v, [d])];
    es := [Deliver(one, {}), Deliver(files, {})];
    FirstDelivery(key, rank, v, d);
    OneRecorded(key, v, d);
    TwoDeliveries(key, rank, one, files);
    hide Deliverable, Recorded, Returns, KeysUnder, KeysOf, Uris, DeliveredBy, AllAllowed;
  }

  /** From an empty index one diagnostic is delivered as it is. */
  lemma FirstDelivery<D, K>(key: D -> K, rank: D -> int, v: string, d: D)
    ensures Deliverable(key, rank, map[], [File(v, [d])]) == [File(v, [d])]
  {
    var nothing: Index<K>, f := map[], File(v, [d]);
    AddFileStep(key, nothing, [], f);
    AddOne(key, Progress([File(v, [])], map[v := {}]), {}, v, d);
    assert [] + [f] == [f] && [] + [d] == [d] && [f][..0] == [];
    assert Opened<D, K>(Progress([], map[]), v) == Progress([File(v, [])], map[v := {}]);
    assert AddFiles(key, nothing, [f]).out == [f];
    hide AddFiles;
    OneFileDelivered(rank, f);
    SortedSame(rank, d);
  }

  lemma OneRecorded<D, K>(key: D -> K, v: string, d: D)
    ensures var nothing, one: Index<K> := map[], map[v := {key(d)}];
            Recorded(key, nothing, [File(v, [d])]) == one && Recorded(key, one, [File(v, [d])]) == one
  {
    assert [File(v, [d])][..0] == [];
    KeysOfOne(key, v, d);
    hide KeysOf;
    assert {} + {key(d)} == {key(d)} && {key(d)} + {key(d)} == {key(d)};
  }
}
