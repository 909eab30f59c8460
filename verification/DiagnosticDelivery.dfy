/**
 What one check delivers, and what is remembered of it over a whole run (internal/platform/lsp/diagnostics.go,
 sortDiagnosticsBySeverity, CheckForDiagnostics, evictDeliveredFiles).
 */
module DiagnosticDelivery {
  import opened FileDedup

  const MAX_DIAGNOSTICS_PER_FILE: nat := 10
  const MAX_TOTAL_DIAGNOSTICS: nat := 30
  const MAX_DELIVERED_FILES: nat := 500

  // ---------------------------------------------------------------- stable sort

  ghost predicate Ordered<D>(rank: D -> int, ds: seq<D>) {
    forall i, j :: 0 <= i < j < |ds| ==> rank(ds[i]) <= rank(ds[j])
  }

  /** Puts an element behind all that are not greater. */
  function Inserted<D>(rank: D -> int, ds: seq<D>, d: D): (r: seq<D>)
    ensures |r| == |ds| + 1
  {
    if ds == [] || rank(ds[|ds| - 1]) <= rank(d) then ds + [d]
    else Inserted(rank, ds[..|ds| - 1], d) + [ds[|ds| - 1]]
  }

  function Sorted<D>(rank: D -> int, ds: seq<D>): (r: seq<D>)
    ensures |r| == |ds|
  {
    if ds == [] then [] else Inserted(rank, Sorted(rank, ds[..|ds| - 1]), ds[|ds| - 1])
  }

  /** The elements of one rank, in order. */
  function OfRank<D>(rank: D -> int, ds: seq<D>, v: int): seq<D> {
    if ds == [] then []
    else OfRank(rank, ds[..|ds| - 1], v) + (if rank(ds[|ds| - 1]) == v then [ds[|ds| - 1]] else [])
  }

  lemma OfRankSnoc<D>(rank: D -> int, ds: seq<D>, d: D, v: int)
    ensures rank(d) == v ==> OfRank(rank, ds + [d], v) == OfRank(rank, ds, v) + [d]
    ensures rank(d) != v ==> OfRank(rank, ds + [d], v) == OfRank(rank, ds, v)
  {
    assert (ds + [d])[..|ds|] == ds;
  }

  lemma {:induction false} InsertedBounds<D>(rank: D -> int, ds: seq<D>, d: D, top: int)
    requires forall i :: 0 <= i < |ds| ==> rank(ds[i]) <= top
    requires rank(d) <= top
    ensures forall i :: 0 <= i < |ds| + 1 ==> rank(Inserted(rank, ds, d)[i]) <= top
  {
    if ds != [] && rank(ds[|ds| - 1]) > rank(d) {
      InsertedBounds(rank, ds[..|ds| - 1], d, top);
    }
  }

  lemma {:induction false} InsertedOrdered<D>(rank: D -> int, ds: seq<D>, d: D)
    requires Ordered(rank, ds)
    ensures Ordered(rank, Inserted(rank, ds, d))
  {
    if ds != [] && rank(ds[|ds| - 1]) > rank(d) {
      InsertedOrdered(rank, ds[..|ds| - 1], d);
      InsertedBounds(rank, ds[..|ds| - 1], d, rank(ds[|ds| - 1]));
    }
  }

  lemma {:induction false} NoneOfRank<D>(rank: D -> int, ds: seq<D>, v: int)
    requires forall i :: 0 <= i < |ds| ==> rank(ds[i]) != v
    ensures OfRank(rank, ds, v) == []
  {
    if ds != [] { NoneOfRank(rank, ds[..|ds| - 1], v); }
  }

  lemma {:induction false} InsertedOfRank<D>(rank: D -> int, ds: seq<D>, d: D, v: int)
    requires Ordered(rank, ds)
    ensures OfRank(rank, Inserted(rank, ds, d), v) == OfRank(rank, ds, v) + (if rank(d) == v then [d] else [])
  {
    if ds == [] || rank(ds[|ds| - 1]) <= rank(d) {
      OfRankSnoc(rank, ds, d, v);
    } else {
      var rest, last := ds[..|ds| - 1], ds[|ds| - 1];
      InsertedOfRank(rank, rest, d, v);
      OfRankSnoc(rank, Inserted(rank, rest, d), last, v);
      assert rank(d) == v ==> rank(last) != v;
    }
  }

  /** Sorting orders by rank and keeps the elements of each rank as they were, in order. */
  lemma {:induction false} SortIsStable<D>(rank: D -> int, ds: seq<D>, v: int)
    ensures Ordered(rank, Sorted(rank, ds))
    ensures OfRank(rank, Sorted(rank, ds), v) == OfRank(rank, ds, v)
  {
    if ds != [] {
      var rest, d := ds[..|ds| - 1], ds[|ds| - 1];
      SortIsStable(rank, rest, v);
      InsertedOrdered(rank, Sorted(rank, rest), d);
      InsertedOfRank(rank, Sorted(rank, rest), d, v);
    }
  }

  ghost predicate SameRanks<D>(rank: D -> int, a: seq<D>, b: seq<D>) {
    forall v :: OfRank(rank, a, v) == OfRank(rank, b, v)
  }

  lemma LastHasTopRank<D>(rank: D -> int, a: seq<D>, x: D, b: seq<D>)
    requires Ordered(rank, b) && SameRanks(rank, a + [x], b)
    ensures b != [] && rank(x) <= rank(b[|b| - 1])
  {
    var v := rank(x);
    OfRankSnoc(rank, a, x, v);
    assert OfRank(rank, a + [x], v) == OfRank(rank, b, v);
    if b == [] || v > rank(b[|b| - 1]) {
      NoneOfRank(rank, b, v);
    }
  }

  lemma LastsAgree<D>(rank: D -> int, a: seq<D>, x: D, b: seq<D>, y: D)
    requires Ordered(rank, a + [x]) && Ordered(rank, b + [y]) && SameRanks(rank, a + [x], b + [y])
    ensures x == y && SameRanks(rank, a, b)
  {
    LastHasTopRank(rank, a, x, b + [y]);
    LastHasTopRank(rank, b, y, a + [x]);
    hide Ordered, OfRank;
    LastStep(rank, a, x, b, y, rank(x));
    forall w
      ensures OfRank(rank, a, w) == OfRank(rank, b, w)
    {
      LastStep(rank, a, x, b, y, w);
    }
  }

  lemma LastStep<D>(rank: D -> int, a: seq<D>, x: D, b: seq<D>, y: D, v: int)
    requires SameRanks(rank, a + [x], b + [y]) && rank(x) == rank(y)
    ensures OfRank(rank, a, v) == OfRank(rank, b, v)
    ensures v == rank(x) ==> x == y
  {
    assert OfRank(rank, a + [x], v) == OfRank(rank, b + [y], v);
    hide OfRank, SameRanks;
    OfRankSnoc(rank, a, x, v);
    OfRankSnoc(rank, b, y, v);
    if v == rank(x) {
      SameEnds(OfRank(rank, a, v), x, OfRank(rank, b, v), y);
    }
  }

  lemma SameEnds<D>(a: seq<D>, x: D, b: seq<D>, y: D)
    requires a + [x] == b + [y]
    ensures a == b && x == y
  {
    assert (a + [x])[..|a|] == a && (b + [y])[..|b|] == b;
    assert (a + [x])[|a|] == x;
  }

  /** No other list is ordered and has the same elements of each rank in the same order. */
  lemma {:induction false} StableSortIsUnique<D>(rank: D -> int, a: seq<D>, b: seq<D>)
    requires Ordered(rank, a) && Ordered(rank, b) && SameRanks(rank, a, b)
    ensures a == b
    decreases |a|
  {
    if a != [] {
      assert a == a[..|a| - 1] + [a[|a| - 1]];
      LastHasTopRank(rank, a[..|a| - 1], a[|a| - 1], b);
      assert b == b[..|b| - 1] + [b[|b| - 1]];
      assert Ordered(rank, a[..|a| - 1]) && Ordered(rank, b[..|b| - 1]);
      hide *;
      LastsAgree(rank, a[..|a| - 1], a[|a| - 1], b[..|b| - 1], b[|b| - 1]);
      StableSortIsUnique(rank, a[..|a| - 1], b[..|b| - 1]);
    } else if b != [] {
      assert b == b[..|b| - 1] + [b[|b| - 1]];
      LastHasTopRank(rank, b[..|b| - 1], b[|b| - 1], a);
    }
  }

  // ---------------------------------------------------------------- caps

  function Total<D>(files: seq<File<D>>): nat {
    if files == [] then 0 else Total(files[..|files| - 1]) + |files[|files| - 1].diagnostics|
  }

  function Allowance(n: nat, total: nat): (r: nat)
    requires total <= MAX_TOTAL_DIAGNOSTICS
    ensures r <= n && r <= MAX_DIAGNOSTICS_PER_FILE && total + r <= MAX_TOTAL_DIAGNOSTICS
    ensures r == n || r == MAX_DIAGNOSTICS_PER_FILE || total + r == MAX_TOTAL_DIAGNOSTICS
  {
    var perFile := if n > MAX_DIAGNOSTICS_PER_FILE then MAX_DIAGNOSTICS_PER_FILE else n;
    if perFile > MAX_TOTAL_DIAGNOSTICS - total then MAX_TOTAL_DIAGNOSTICS - total else perFile
  }

  function CappedFile<D>(rank: D -> int, f: File<D>, total: nat): File<D>
    requires total <= MAX_TOTAL_DIAGNOSTICS
  {
    File(f.uri, Sorted(rank, f.diagnostics)[..Allowance(|f.diagnostics|, total)])
  }

  /** Sorts each file and cuts it to what the caps leave over. */
  function Capped<D>(rank: D -> int, files: seq<File<D>>): (r: seq<File<D>>)
    ensures |r| == |files| && Total(r) <= MAX_TOTAL_DIAGNOSTICS
  {
    if files == [] then []
    else
      var rest := Capped(rank, files[..|files| - 1]);
      var r := rest + [CappedFile(rank, files[|files| - 1], Total(rest))];
      assert r[..|rest|] == rest;
      r
  }

  /** What one check delivers of these files. */
  function Deliverable<D, K>(key: D -> K, rank: D -> int, delivered: Index<K>, files: seq<File<D>>): seq<File<D>> {
    NonEmpty(Capped(rank, Deduplicated(key, delivered, files)))
  }

  lemma {:induction false} NonEmptyTotal<D>(files: seq<File<D>>)
    ensures Total(NonEmpty(files)) == Total(files)
  {
    if files != [] {
      var rest, f := files[..|files| - 1], files[|files| - 1];
      NonEmptyTotal(rest);
      if f.diagnostics == [] {
        assert NonEmpty(files) == NonEmpty(rest);
      } else {
        assert (NonEmpty(rest) + [f])[..|NonEmpty(rest)|] == NonEmpty(rest);
      }
    }
  }

  lemma {:induction false} CappedFrom<D>(rank: D -> int, files: seq<File<D>>, f: File<D>)
    requires f in Capped(rank, files)
    ensures |f.diagnostics| <= MAX_DIAGNOSTICS_PER_FILE
    ensures exists g :: g in files && g.uri == f.uri && f.diagnostics <= Sorted(rank, g.diagnostics)
  {
    var rest, g := files[..|files| - 1], files[|files| - 1];
    if f in Capped(rank, rest) {
      CappedFrom(rank, rest, f);
      var h :| h in rest && h.uri == f.uri && f.diagnostics <= Sorted(rank, h.diagnostics);
      assert h in files;
    } else {
      assert g in files;
    }
  }

  /**
   At most 10 diagnostics a file and 30 in all; every list is a prefix of the sorted deduplicated list of its file.
   */
  lemma DeliveryIsLimited<D, K>(key: D -> K, rank: D -> int, delivered: Index<K>, files: seq<File<D>>, f: File<D>)
    ensures Total(Deliverable(key, rank, delivered, files)) <= 30
    ensures f in Deliverable(key, rank, delivered, files) ==>
              && 0 < |f.diagnostics| <= 10
              && exists g :: g in Deduplicated(key, delivered, files) && g.uri == f.uri
                             && f.diagnostics <= Sorted(rank, g.diagnostics)
  {
    var kept := Deduplicated(key, delivered, files);
    NonEmptyTotal(Capped(rank, kept));
    NonEmptyMember(Capped(rank, kept), f);
    if f in Capped(rank, kept) { CappedFrom(rank, kept, f); }
  }

  /** The first ten of the sorted list of a file, or all of it. */
  function Best<D>(rank: D -> int, f: File<D>): File<D> {
    File(f.uri, Sorted(rank, f.diagnostics)[..Wanted(f)])
  }

  function Wanted<D>(f: File<D>): nat {
    if |f.diagnostics| > 10 then 10 else |f.diagnostics|
  }

  function TotalWanted<D>(files: seq<File<D>>): nat {
    if files == [] then 0 else TotalWanted(files[..|files| - 1]) + Wanted(files[|files| - 1])
  }

  function AtMostTotal(n: nat): nat {
    if n > 30 then 30 else n
  }

  lemma CappedNext<D>(rank: D -> int, files: seq<File<D>>, f: File<D>)
    ensures var rest := Capped(rank, files);
            && Capped(rank, files + [f]) == rest + [CappedFile(rank, f, Total(rest))]
            && Total(Capped(rank, files + [f])) == Total(rest) + Allowance(|f.diagnostics|, Total(rest))
    ensures TotalWanted(files + [f]) == TotalWanted(files) + Wanted(f)
  {
    assert (files + [f])[..|files|] == files;
    var rest := Capped(rank, files);
    assert (rest + [CappedFile(rank, f, Total(rest))])[..|rest|] == rest;
  }

  lemma {:induction false} CappedTotal<D>(rank: D -> int, files: seq<File<D>>)
    ensures Total(Capped(rank, files)) == AtMostTotal(TotalWanted(files))
  {
    if files != [] {
      var rest, f := files[..|files| - 1], files[|files| - 1];
      assert files == rest + [f];
      CappedTotal(rank, rest);
      CappedNext(rank, rest, f);
    }
  }

  lemma {:induction false} CappedInFull<D>(rank: D -> int, files: seq<File<D>>, g: File<D>)
    requires TotalWanted(files) <= 30 && g in files
    ensures Best(rank, g) in Capped(rank, files)
  {
    var rest, f := files[..|files| - 1], files[|files| - 1];
    assert files == rest + [f];
    CappedNext(rank, rest, f);
    CappedTotal(rank, rest);
    if g in rest {
      CappedInFull(rank, rest, g);
    } else {
      assert CappedFile(rank, f, Total(Capped(rank, rest))) == Best(rank, g);
    }
  }

  /**
   Nothing is withheld beyond the caps: as many are delivered as the caps permit, and when the files together want
   no more than 30, every file that has anything new is there with the first ten of its sorted list.
   */
  lemma NothingIsWithheld<D, K>(key: D -> K, rank: D -> int, delivered: Index<K>, files: seq<File<D>>)
    ensures var kept, out := Deduplicated(key, delivered, files), Deliverable(key, rank, delivered, files);
            && Total(out) == AtMostTotal(TotalWanted(kept))
            && (TotalWanted(kept) <= 30 ==> forall g :: g in kept ==> Best(rank, g) in out)
  {
    hide Deduplicated, Capped, Sorted, Total;
    var kept := Deduplicated(key, delivered, files);
    NonEmptyTotal(Capped(rank, kept));
    CappedTotal(rank, kept);
    forall g | g in kept && TotalWanted(kept) <= 30
      ensures Best(rank, g) in Deliverable(key, rank, delivered, files)
    {
      CappedInFull(rank, kept, g);
      KeptIsNotEmpty(key, delivered, files, g);
      NonEmptyMember(Capped(rank, kept), Best(rank, g));
    }
  }

  lemma KeptIsNotEmpty<D, K>(key: D -> K, delivered: Index<K>, files: seq<File<D>>, g: File<D>)
    requires g in Deduplicated(key, delivered, files)
    ensures g.diagnostics != []
  {
    NonEmptyMember(AddFiles(key, delivered, files).out, g);
  }

  /** Everything reported for one file. */
  function DiagnosticsOf<D>(files: seq<File<D>>, uri: string): seq<D> {
    if files == [] then []
    else
      var f := files[|files| - 1];
      DiagnosticsOf(files[..|files| - 1], uri) + (if f.uri == uri then f.diagnostics else [])
  }

  lemma {:induction false} NothingFor<D>(files: seq<File<D>>, uri: string)
    requires uri !in Uris(files)
    ensures DiagnosticsOf(files, uri) == []
  {
    if files != [] { NothingFor(files[..|files| - 1], uri); }
  }

  lemma DiagnosticsNext<D>(files: seq<File<D>>, f: File<D>, uri: string)
    ensures DiagnosticsOf(files + [f], uri) == DiagnosticsOf(files, uri) + (if f.uri == uri then f.diagnostics else [])
  {
    assert (files + [f])[..|files|] == files;
  }

  lemma MergedUriNext<D>(files: seq<File<D>>, f: File<D>, k: nat)
    requires k < |Merged(files + [f])|
    ensures Merged(files + [f])[k].uri == if k < |Merged(files)| then Merged(files)[k].uri else f.uri
  {
    assert (files + [f])[..|files|] == files;
  }

  lemma {:induction false} MergedUris<D>(files: seq<File<D>>, k: nat)
    requires k < |Merged(files)|
    ensures Merged(files)[k].uri in Uris(files)
  {
    MergedNothing<D>();
    hide Uris, Merged;
    var rest, f := files[..|files| - 1], files[|files| - 1];
    assert files == rest + [f];
    UrisNext(rest, f);
    MergedUriNext(rest, f, k);
    if k < |Merged(rest)| { MergedUris(rest, k); }
  }

  lemma MergedNothing<D>()
    ensures Merged<D>([]) == []
  {
  }

  ghost predicate DistinctUris<D>(files: seq<File<D>>) {
    forall i, j :: 0 <= i < j < |files| ==> files[i].uri != files[j].uri
  }

  /** With equal names next to each other, merging leaves each name once. */
  lemma {:induction false} MergedDistinct<D>(files: seq<File<D>>)
    requires Adjacent(Uris(files))
    ensures DistinctUris(Merged(files))
  {
    if files != [] {
      AdjacentNext(files);
      var rest, f := files[..|files| - 1], files[|files| - 1];
      MergedDistinct(rest);
      hide Adjacent, Uris;
      var ms := Merged(rest);
      forall k | 0 <= k < |ms|
        ensures ms[k].uri in Uris(rest)
      {
        MergedUris(rest, k);
      }
    }
  }

  /** With equal names next to each other, merging collects everything that is reported for each file. */
  lemma {:induction false} MergedCollects<D>(files: seq<File<D>>, k: nat)
    requires Adjacent(Uris(files)) && k < |Merged(files)|
    ensures Merged(files)[k].diagnostics == DiagnosticsOf(files, Merged(files)[k].uri)
  {
    var rest, f := files[..|files| - 1], files[|files| - 1];
    AdjacentNext(files);
    MergedDistinct(files);
    assert rest + [f] == files;
    var ms, all := Merged(rest), Merged(files);
    DiagnosticsNext(rest, f, all[k].uri);
    if k < |ms| { MergedCollects(rest, k); }
    if k == |all| - 1 {
      if f.uri !in Uris(rest) { NothingFor(rest, f.uri); }
    } else {
      assert all[k].uri != all[|all| - 1].uri;
    }
    hide Adjacent, Uris, DiagnosticsOf;
  }

  lemma DeduplicatedShape<D, K>(key: D -> K, delivered: Index<K>, files: seq<File<D>>, g: File<D>)
    requires Adjacent(Uris(files)) && g in Deduplicated(key, delivered, files)
    ensures g.diagnostics == Fresh(key, Known(delivered, g.uri), DiagnosticsOf(files, g.uri))
  {
    AdjacentSettles(key, delivered, files);
    var out := AddFiles(key, delivered, files).out;
    NonEmptyMember(out, g);
    hide Adjacent, Merged, Uris, FreshFiles, AddFiles, Fresh, NonEmpty;
    var k :| 0 <= k < |out| && out[k] == g;
    FreshFileAt(key, delivered, Merged(files), k);
    MergedCollects(files, k);
  }

  /** With equal names next to each other: a prefix of the sorted list of everything new reported for the file. */
  lemma {:induction false} DeliveryShape<D, K>(key: D -> K, rank: D -> int, delivered: Index<K>, files: seq<File<D>>,
        f: File<D>)
    requires Adjacent(Uris(files)) && f in Deliverable(key, rank, delivered, files)
    ensures f.diagnostics <= Sorted(rank, Fresh(key, Known(delivered, f.uri), DiagnosticsOf(files, f.uri)))
  {
    hide *;
    DeliveryIsLimited(key, rank, delivered, files, f);
    var g :| g in Deduplicated(key, delivered, files) && g.uri == f.uri && f.diagnostics <= Sorted(rank, g.diagnostics);
    DeduplicatedShape(key, delivered, files, g);
  }

  lemma {:induction false} MergedHas<D>(files: seq<File<D>>, uri: string) returns (k: nat)
    requires uri in Uris(files)
    ensures k < |Merged(files)| && Merged(files)[k].uri == uri
  {
    var rest, f := files[..|files| - 1], files[|files| - 1];
    if f.uri == uri {
      k := |Merged(files)| - 1;
    } else {
      k := MergedHas(rest, uri);
    }
  }

  /** With equal names next to each other, a file with anything new is among those that are kept, with all of it. */
  lemma FreshIsKept<D, K>(key: D -> K, delivered: Index<K>, files: seq<File<D>>, uri: string)
    ensures var news := Fresh(key, Known(delivered, uri), DiagnosticsOf(files, uri));
            Adjacent(Uris(files)) && news != [] ==> File(uri, news) in Deduplicated(key, delivered, files)
  {
    var news := Fresh(key, Known(delivered, uri), DiagnosticsOf(files, uri));
    if Adjacent(Uris(files)) && news != [] {
      AdjacentSettles(key, delivered, files);
      if uri !in Uris(files) { NothingFor(files, uri); }
      hide Adjacent, Uris, Merged, FreshFiles, AddFiles, NonEmpty;
      var k := MergedHas(files, uri);
      FreshFileAt(key, delivered, Merged(files), k);
      MergedCollects(files, k);
      var out := AddFiles(key, delivered, files).out;
      assert out[k] == File(uri, news) && out[k] in out;
      NonEmptyMember(out, out[k]);
    }
  }

  /**
   So with equal names next to each other, and unless the files want more than 30 together, the first ten of the
   sorted list of everything new that is reported for a file are delivered under its name.
   */
  lemma NewsIsDelivered<D, K>(key: D -> K, rank: D -> int, delivered: Index<K>, files: seq<File<D>>, uri: string)
    requires Adjacent(Uris(files)) && TotalWanted(Deduplicated(key, delivered, files)) <= 30
    ensures var news := Fresh(key, Known(delivered, uri), DiagnosticsOf(files, uri));
            news != [] ==> Best(rank, File(uri, news)) in Deliverable(key, rank, delivered, files)
  {
    hide *;
    FreshIsKept(key, delivered, files, uri);
    NothingIsWithheld(key, rank, delivered, files);
  }
}
