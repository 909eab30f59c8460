/**
 Deduplication of the diagnostics of a batch of files, by key (internal/platform/lsp/diagnostics.go, deduplicateFiles).
 Nothing is assumed about diagnostics and keys.
 */
module FileDedup {

  datatype File<D> = File(uri: string, diagnostics: seq<D>)

  /** The keys delivered so far, by file. */
  type Index<!K> = map<string, set<K>>

  function Known<K>(delivered: Index<K>, uri: string): set<K> {
    if uri in delivered then delivered[uri] else {}
  }

  function KeysOf<D, K>(key: D -> K, ds: seq<D>): set<K> {
    if ds == [] then {} else KeysOf(key, ds[..|ds| - 1]) + {key(ds[|ds| - 1])}
  }

  // ---------------------------------------------------------------- deduplication as the code does it

  /** Output files so far, and the keys put out for each input file name. */
  datatype Progress<D, !K> = Progress(out: seq<File<D>>, seen: map<string, set<K>>)

  /** Puts a diagnostic into the LAST output file, unless its key was seen or is known. */
  function AddDiagnostic<D, K>(key: D -> K, p: Progress<D, K>, known: set<K>, uri: string, d: D): (r: Progress<D, K>)
    requires p.out != [] && uri in p.seen
    ensures |r.out| == |p.out| && r.seen.Keys == p.seen.Keys
  {
    if key(d) in p.seen[uri] || key(d) in known then p
    else
      var last := |p.out| - 1;
      Progress(p.out[..last] + [File(p.out[last].uri, p.out[last].diagnostics + [d])],
               p.seen[uri := p.seen[uri] + {key(d)}])
  }

  function AddDiagnostics<D, K>(key: D -> K, p: Progress<D, K>, known: set<K>, uri: string,
        ds: seq<D>): (r: Progress<D, K>)
    requires p.out != [] && uri in p.seen
    ensures |r.out| == |p.out| && r.seen.Keys == p.seen.Keys
  {
    if ds == [] then p
    else AddDiagnostic(key, AddDiagnostics(key, p, known, uri, ds[..|ds| - 1]), known, uri, ds[|ds| - 1])
  }

  function Opened<D, K>(p: Progress<D, K>, uri: string): Progress<D, K> {
    if uri in p.seen then p else Progress(p.out + [File(uri, [])], p.seen[uri := {}])
  }

  function AddFiles<D, K>(key: D -> K, delivered: Index<K>, files: seq<File<D>>): (r: Progress<D, K>)
    ensures r.out == [] ==> r.seen == map[]
  {
    if files == [] then Progress([], map[])
    else
      var f := files[|files| - 1];
      var p := AddFiles(key, delivered, files[..|files| - 1]);
      AddDiagnostics(key, Opened(p, f.uri), Known(delivered, f.uri), f.uri, f.diagnostics)
  }

  function NonEmpty<D>(files: seq<File<D>>): seq<File<D>> {
    if files == [] then []
    else
      var f := files[|files| - 1];
      NonEmpty(files[..|files| - 1]) + (if f.diagnostics == [] then [] else [f])
  }

  function Deduplicated<D, K>(key: D -> K, delivered: Index<K>, files: seq<File<D>>): seq<File<D>> {
    NonEmpty(AddFiles(key, delivered, files).out)
  }

  // ---------------------------------------------------------------- what deduplication should give

  /** The diagnostics whose key is neither known nor met earlier in the list. */
  function Fresh<D, K>(key: D -> K, known: set<K>, ds: seq<D>): seq<D> {
    if ds == [] then []
    else
      var rest, d := ds[..|ds| - 1], ds[|ds| - 1];
      Fresh(key, known, rest) + (if key(d) in known + KeysOf(key, rest) then [] else [d])
  }

  function Uris<D>(files: seq<File<D>>): (uris: seq<string>)
    ensures |uris| == |files|
    ensures forall i :: 0 <= i < |files| ==> uris[i] == files[i].uri
  {
    if files == [] then [] else Uris(files[..|files| - 1]) + [files[|files| - 1].uri]
  }

  /** Equal names stand next to each other. */
  ghost predicate Adjacent(uris: seq<string>) {
    forall i, j, k :: 0 <= i < j < k < |uris| && uris[i] == uris[k] ==> uris[j] == uris[i]
  }

  /** Joins each file to the one before it if that has the same name. */
  function Merged<D>(files: seq<File<D>>): (ms: seq<File<D>>)
    ensures files != [] ==> ms != [] && ms[|ms| - 1].uri == files[|files| - 1].uri
  {
    if files == [] then []
    else
      var ms, f := Merged(files[..|files| - 1]), files[|files| - 1];
      if ms != [] && ms[|ms| - 1].uri == f.uri then
        ms[..|ms| - 1] + [File(f.uri, ms[|ms| - 1].diagnostics + f.diagnostics)]
      else ms + [f]
  }

  function FreshFile<D, K>(key: D -> K, delivered: Index<K>, m: File<D>): File<D> {
    File(m.uri, Fresh(key, Known(delivered, m.uri), m.diagnostics))
  }

  function FreshFiles<D, K>(key: D -> K, delivered: Index<K>, ms: seq<File<D>>): (r: seq<File<D>>)
    ensures |r| == |ms|
  {
    if ms == [] then [] else FreshFiles(key, delivered, ms[..|ms| - 1]) + [FreshFile(key, delivered, ms[|ms| - 1])]
  }

  lemma KeysSnoc<D, K>(key: D -> K, ds: seq<D>, d: D)
    ensures KeysOf(key, ds + [d]) == KeysOf(key, ds) + {key(d)}
  {
    assert (ds + [d])[..|ds|] == ds;
  }

  lemma FreshNext<D, K>(key: D -> K, known: set<K>, ds: seq<D>, d: D)
    ensures key(d) in known + KeysOf(key, ds) ==> Fresh(key, known, ds + [d]) == Fresh(key, known, ds)
    ensures key(d) !in known + KeysOf(key, ds) ==> Fresh(key, known, ds + [d]) == Fresh(key, known, ds) + [d]
  {
    assert (ds + [d])[..|ds|] == ds;
  }

  lemma WithoutKnown<K>(keys: set<K>, known: set<K>, k: K)
    ensures k in known + keys ==> (keys + {k}) - known == keys - known
    ensures k !in known + keys ==> (keys + {k}) - known == (keys - known) + {k}
  {
  }

  lemma {:induction false} FreshKeys<D, K>(key: D -> K, known: set<K>, ds: seq<D>)
    ensures KeysOf(key, Fresh(key, known, ds)) == KeysOf(key, ds) - known
  {
    hide KeysOf, Fresh;
    NothingFresh(key, known);
    if ds != [] {
      var rest, d := ds[..|ds| - 1], ds[|ds| - 1];
      FreshKeys(key, known, rest);
      WithoutKnown(KeysOf(key, rest), known, key(d));
      KeysSnoc(key, rest, d);
      KeysSnoc(key, Fresh(key, known, rest), d);
      FreshNext(key, known, rest, d);
      assert rest + [d] == ds;
    }
  }

  /** The progress whose last output file is `uri` with these diagnostics, and whose keys for `uri` are theirs. */
  function Grown<D, K>(key: D -> K, p: Progress<D, K>, uri: string, ds: seq<D>): (r: Progress<D, K>)
    requires p.out != []
    ensures r.out != [] && uri in r.seen
  {
    Progress(p.out[..|p.out| - 1] + [File(uri, ds)], p.seen[uri := KeysOf(key, ds)])
  }

  lemma AddToGrown<D, K>(key: D -> K, p: Progress<D, K>, known: set<K>, uri: string, all: seq<D>, d: D)
    requires p.out != []
    ensures AddDiagnostic(key, Grown(key, p, uri, Fresh(key, known, all)), known, uri, d) ==
            Grown(key, p, uri, Fresh(key, known, all + [d]))
  {
    FreshKeys(key, known, all);
    FreshNext(key, known, all, d);
    KeysSnoc(key, Fresh(key, known, all), d);
    hide KeysOf, Fresh;
    var g := Grown(key, p, uri, Fresh(key, known, all));
    assert g.seen[uri] == KeysOf(key, all) - known;
    var r := AddDiagnostic(key, g, known, uri, d);
    if key(d) in known || key(d) in KeysOf(key, all) {
      assert r == g && Fresh(key, known, all + [d]) == Fresh(key, known, all);
    } else {
      assert Fresh(key, known, all + [d]) == Fresh(key, known, all) + [d];
      assert r.out == p.out[..|p.out| - 1] + [File(uri, Fresh(key, known, all) + [d])];
      assert r.seen == p.seen[uri := KeysOf(key, Fresh(key, known, all) + [d])];
    }
  }

  lemma AddNext<D, K>(key: D -> K, p: Progress<D, K>, known: set<K>, uri: string, ds: seq<D>, d: D)
    requires p.out != [] && uri in p.seen
    ensures AddDiagnostics(key, p, known, uri, ds + [d]) ==
            AddDiagnostic(key, AddDiagnostics(key, p, known, uri, ds), known, uri, d)
  {
    assert (ds + [d])[..|ds|] == ds;
  }

  /** Adding diagnostics under the name of the last output file extends its list of fresh ones. */
  lemma {:induction false} AddAllToGrown<D, K>(key: D -> K, p: Progress<D, K>, known: set<K>, uri: string,
        prior: seq<D>, ds: seq<D>)
    requires p.out != []
    ensures AddDiagnostics(key, Grown(key, p, uri, Fresh(key, known, prior)), known, uri, ds) ==
            Grown(key, p, uri, Fresh(key, known, prior + ds))
  {
    if ds == [] {
      assert prior + ds == prior;
    } else {
      hide Grown, Fresh, AddDiagnostic, AddDiagnostics;
      var rest, d := ds[..|ds| - 1], ds[|ds| - 1];
      assert ds == rest + [d];
      AddAllToGrown(key, p, known, uri, prior, rest);
      AddNext(key, Grown(key, p, uri, Fresh(key, known, prior)), known, uri, rest, d);
      AddToGrown(key, p, known, uri, prior + rest, d);
      assert prior + ds == prior + rest + [d];
    }
  }

  /** One output file for each run of equal names, holding the fresh ones of all that the run reports. */
  ghost predicate Settled<D, K>(key: D -> K, delivered: Index<K>, files: seq<File<D>>, p: Progress<D, K>) {
    && p.out == FreshFiles(key, delivered, Merged(files))
    && (forall u :: u in p.seen <==> u in Uris(files))
    && (files != [] ==>
          var last := p.out[|p.out| - 1];
          last.uri in p.seen && p.seen[last.uri] == KeysOf(key, last.diagnostics))
  }

  /** How `Merged` and its fresh form grow. */
  lemma MergedNext<D, K>(key: D -> K, delivered: Index<K>, files: seq<File<D>>, f: File<D>)
    ensures var ms := Merged(files);
            var known := Known(delivered, f.uri);
            var all := Merged(files + [f]);
            if ms != [] && ms[|ms| - 1].uri == f.uri then
              FreshFiles(key, delivered, all) ==
                FreshFiles(key, delivered, ms)[..|ms| - 1]
                + [File(f.uri, Fresh(key, known, ms[|ms| - 1].diagnostics + f.diagnostics))]
              && FreshFiles(key, delivered, ms)[|ms| - 1] == File(f.uri, Fresh(key, known, ms[|ms| - 1].diagnostics))
            else
              FreshFiles(key, delivered, all) ==
                FreshFiles(key, delivered, ms) + [File(f.uri, Fresh(key, known, f.diagnostics))]
  {
    hide Fresh;
    assert (files + [f])[..|files|] == files;
    var ms, all := Merged(files), Merged(files + [f]);
    if ms != [] && ms[|ms| - 1].uri == f.uri {
      assert all[..|ms| - 1] == ms[..|ms| - 1];
      assert FreshFiles(key, delivered, ms)[..|ms| - 1] == FreshFiles(key, delivered, ms[..|ms| - 1]);
    } else {
      assert all[..|ms|] == ms;
    }
  }

  lemma UrisNext<D>(files: seq<File<D>>, f: File<D>)
    ensures Uris(files + [f]) == Uris(files) + [f.uri]
    ensures files == [] ==> Merged(files) == []
    ensures files != [] ==> files[|files| - 1].uri in Uris(files)
  {
    assert (files + [f])[..|files|] == files;
  }

  lemma SettledSame<D, K>(key: D -> K, delivered: Index<K>, files: seq<File<D>>, p: Progress<D, K>, f: File<D>)
    requires Settled(key, delivered, files, p)
    requires f.uri in Uris(files) && files[|files| - 1].uri == f.uri
    ensures p.out != [] && f.uri in p.seen
    ensures var added := AddDiagnostics(key, p, Known(delivered, f.uri), f.uri, f.diagnostics);
            Settled(key, delivered, files + [f], added)
  {
    var known, ms := Known(delivered, f.uri), Merged(files);
    MergedNext(key, delivered, files, f);
    UrisNext(files, f);
    hide Fresh, Merged, FreshFiles, Uris, KeysOf, AddDiagnostics;
    var prior := ms[|ms| - 1].diagnostics;
    assert p.out[..|p.out| - 1] + [p.out[|p.out| - 1]] == p.out;
    assert p == Grown(key, p, f.uri, Fresh(key, known, prior));
    AddAllToGrown(key, p, known, f.uri, prior, f.diagnostics);
  }

  lemma SettledNew<D, K>(key: D -> K, delivered: Index<K>, files: seq<File<D>>, p: Progress<D, K>, f: File<D>)
    requires Settled(key, delivered, files, p) && f.uri !in Uris(files)
    ensures var q := Opened(p, f.uri);
            && q.out != [] && f.uri in q.seen
            && var added := AddDiagnostics(key, q, Known(delivered, f.uri), f.uri, f.diagnostics);
               Settled(key, delivered, files + [f], added)
  {
    var known, q := Known(delivered, f.uri), Opened(p, f.uri);
    MergedNext(key, delivered, files, f);
    UrisNext(files, f);
    NothingFresh(key, known);
    hide Fresh, Merged, FreshFiles, Uris, KeysOf, AddDiagnostics;
    assert q.out[..|q.out| - 1] == p.out;
    assert q == Grown(key, q, f.uri, Fresh(key, known, []));
    AddAllToGrown(key, q, known, f.uri, [], f.diagnostics);
    assert [] + f.diagnostics == f.diagnostics;
  }

  lemma NothingFresh<D, K>(key: D -> K, known: set<K>)
    ensures Fresh(key, known, []) == [] && KeysOf(key, []) == {}
  {
  }

  lemma AdjacentInit(uris: seq<string>)
    requires Adjacent(uris) && uris != []
    ensures var n := |uris| - 1; Adjacent(uris[..n]) && (uris[n] in uris[..n] ==> uris[n - 1] == uris[n])
  {
    var n := |uris| - 1;
    if uris[n] in uris[..n] {
      var i :| 0 <= i < n && uris[i] == uris[n];
      assert i < n - 1 ==> uris[n - 1] == uris[i];
    }
  }

  lemma AdjacentNext<D>(files: seq<File<D>>)
    requires files != [] && Adjacent(Uris(files))
    ensures var rest, f := files[..|files| - 1], files[|files| - 1];
            Adjacent(Uris(rest)) && (f.uri in Uris(rest) ==> rest[|rest| - 1].uri == f.uri)
  {
    AdjacentInit(Uris(files));
    hide Adjacent;
    assert Uris(files[..|files| - 1]) == Uris(files)[..|files| - 1];
  }

  /** With equal names next to each other, each name gets exactly its own fresh diagnostics. */
  lemma {:induction false} AdjacentSettles<D, K>(key: D -> K, delivered: Index<K>, files: seq<File<D>>)
    requires Adjacent(Uris(files))
    ensures Settled(key, delivered, files, AddFiles(key, delivered, files))
  {
    if files != [] {
      var rest, f := files[..|files| - 1], files[|files| - 1];
      AdjacentNext(files);
      AdjacentSettles(key, delivered, rest);
      assert rest + [f] == files;
      var p := AddFiles(key, delivered, rest);
      assert AddFiles(key, delivered, files) ==
             AddDiagnostics(key, Opened(p, f.uri), Known(delivered, f.uri), f.uri, f.diagnostics);
      hide AddFiles, AddDiagnostics, Merged, Uris, FreshFiles, KeysOf, Adjacent;
      if f.uri in Uris(rest) {
        SettledSame(key, delivered, rest, p, f);
      } else {
        SettledNew(key, delivered, rest, p, f);
      }
    }
  }

  // ---------------------------------------------------------------- the condition is needed

  ghost predicate Reported<D>(files: seq<File<D>>, uri: string, d: D) {
    exists f :: f in files && f.uri == uri && d in f.diagnostics
  }

  /** Every diagnostic put out under a name was reported under this name. */
  ghost predicate Attributed<D>(files: seq<File<D>>, out: seq<File<D>>) {
    forall f, d :: f in out && d in f.diagnostics ==> Reported(files, f.uri, d)
  }

  lemma ReportedNext<D>(files: seq<File<D>>, f: File<D>, uri: string, d: D)
    ensures Reported(files + [f], uri, d) <==> Reported(files, uri, d) || (f.uri == uri && d in f.diagnostics)
  {
    if Reported(files, uri, d) {
      var g :| g in files && g.uri == uri && d in g.diagnostics;
      assert g in files + [f];
    }
    if f.uri == uri && d in f.diagnostics {
      assert f in files + [f];
    }
  }

  lemma {:induction false} MergedReported<D>(files: seq<File<D>>, k: nat, d: D)
    requires k < |Merged(files)| && d in Merged(files)[k].diagnostics
    ensures Reported(files, Merged(files)[k].uri, d)
  {
    var rest, f := files[..|files| - 1], files[|files| - 1];
    assert rest + [f] == files;
    var ms := Merged(rest);
    ReportedNext(rest, f, Merged(files)[k].uri, d);
    if k < |ms| && d in ms[k].diagnostics {
      MergedReported(rest, k, d);
    }
  }

  lemma {:induction false} FreshSubset<D, K>(key: D -> K, known: set<K>, ds: seq<D>, d: D)
    requires d in Fresh(key, known, ds)
    ensures d in ds
  {
    if d in Fresh(key, known, ds[..|ds| - 1]) {
      FreshSubset(key, known, ds[..|ds| - 1], d);
    }
  }

  lemma {:induction false} FreshFileAt<D, K>(key: D -> K, delivered: Index<K>, ms: seq<File<D>>, k: nat)
    requires k < |ms|
    ensures FreshFiles(key, delivered, ms)[k] == FreshFile(key, delivered, ms[k])
  {
    if k < |ms| - 1 { FreshFileAt(key, delivered, ms[..|ms| - 1], k); }
  }

  lemma {:induction false} NonEmptyMember<D>(files: seq<File<D>>, f: File<D>)
    ensures f in NonEmpty(files) <==> f in files && f.diagnostics != []
  {
    if files != [] {
      NonEmptyMember(files[..|files| - 1], f);
      assert files == files[..|files| - 1] + [files[|files| - 1]];
    }
  }

  lemma AdjacentAttributes<D, K>(key: D -> K, delivered: Index<K>, files: seq<File<D>>)
    requires Adjacent(Uris(files))
    ensures Attributed(files, Deduplicated(key, delivered, files))
  {
    AdjacentSettles(key, delivered, files);
    hide AddFiles, Merged, Uris, FreshFiles, KeysOf, Adjacent, Fresh, NonEmpty, Reported;
    var out := AddFiles(key, delivered, files).out;
    forall f, d | f in NonEmpty(out) && d in f.diagnostics
      ensures Reported(files, f.uri, d)
    {
      NonEmptyMember(out, f);
      var k :| 0 <= k < |out| && out[k] == f;
      FreshFileAt(key, delivered, Merged(files), k);
      FreshSubset(key, Known(delivered, f.uri), Merged(files)[k].diagnostics, d);
      MergedReported(files, k, d);
    }
  }

  /** Files without diagnostics. */
  function Empties<D>(uris: seq<string>): (files: seq<File<D>>)
    ensures |files| == |uris| && forall i :: 0 <= i < |files| ==> files[i] == File(uris[i], [])
  {
    if uris == [] then [] else Empties(uris[..|uris| - 1]) + [File(uris[|uris| - 1], [])]
  }

  /** The `n`-th name comes back after another one, and no name has done so before it. */
  ghost predicate Returns(uris: seq<string>, n: nat) {
    n < |uris| && Adjacent(uris[..n]) && uris[n] in uris[..n] && uris[n - 1] != uris[n]
  }

  /** Files of these names: the `n`-th reports `d`, the one before it `first`, and the others nothing. */
  function TwoReports<D>(uris: seq<string>, n: nat, first: seq<D>, d: D): (files: seq<File<D>>)
    requires 0 < n < |uris|
  {
    Empties(uris[..n - 1]) + [File(uris[n - 1], first)] + [File(uris[n], [d])] + Empties(uris[n + 1..])
  }

  lemma TwoReportsNames<D>(uris: seq<string>, n: nat, first: seq<D>, d: D)
    requires 0 < n < |uris|
    ensures Uris(TwoReports(uris, n, first, d)) == uris
  {
    var files := TwoReports(uris, n, first, d);
    assert forall i :: 0 <= i < |uris| ==> files[i].uri == uris[i];
  }

  lemma AdjacentWithLast(uris: seq<string>, u: string)
    requires Adjacent(uris)
    requires u in uris ==> uris[|uris| - 1] == u
    ensures Adjacent(uris + [u])
  {
    var all, n := uris + [u], |uris|;
    forall i, j, k | 0 <= i < j < k < |all| && all[i] == all[k]
      ensures all[j] == all[i]
    {
      if k == n && j < n - 1 {
        assert uris[i] == uris[n - 1];
      }
    }
  }

  lemma {:induction false} SomeNameReturns(uris: seq<string>) returns (n: nat)
    requires !Adjacent(uris)
    ensures Returns(uris, n)
    decreases |uris|
  {
    assert uris != [] by { assert Adjacent([]); }
    hide Adjacent;
    var rest, u := uris[..|uris| - 1], uris[|uris| - 1];
    assert rest + [u] == uris;
    if Adjacent(rest) {
      if u in rest ==> rest[|rest| - 1] == u { AdjacentWithLast(rest, u); }
      n := |rest|;
    } else {
      n := SomeNameReturns(rest);
      assert rest[..n] == uris[..n];
    }
  }

  lemma AddFileStep<D, K>(key: D -> K, delivered: Index<K>, before: seq<File<D>>, f: File<D>)
    ensures var p := AddFiles(key, delivered, before);
            AddFiles(key, delivered, before + [f]) ==
            AddDiagnostics(key, Opened(p, f.uri), Known(delivered, f.uri), f.uri, f.diagnostics)
  {
    assert (before + [f])[..|before|] == before;
  }

  /** These names have been opened, in this order, and nothing has been put out. */
  ghost predicate OnlyOpened<D, K>(p: Progress<D, K>, uris: seq<string>) {
    && (forall f :: f in p.out ==> f.diagnostics == [])
    && (forall u :: u in p.seen <==> u in uris)
    && (forall u :: u in p.seen ==> p.seen[u] == {})
    && (uris != [] ==> p.out != [] && p.out[|p.out| - 1].uri == uris[|uris| - 1])
  }

  lemma OpenedNext<D, K>(p: Progress<D, K>, uris: seq<string>, u: string)
    requires OnlyOpened(p, uris) && (u in uris ==> uris[|uris| - 1] == u)
    ensures OnlyOpened(Opened(p, u), uris + [u])
  {
    assert forall x :: x in uris + [u] <==> x in uris || x == u;
  }

  lemma EmptiesNext<D, K>(key: D -> K, delivered: Index<K>, uris: seq<string>, u: string)
    ensures OnlyOpened(AddFiles(key, delivered, Empties<D>([])), [])
    ensures AddFiles(key, delivered, Empties<D>(uris + [u])) == Opened(AddFiles(key, delivered, Empties<D>(uris)), u)
  {
    assert (uris + [u])[..|uris|] == uris;
    AddFileStep(key, delivered, Empties<D>(uris), File(u, []));
  }

  /** Files without diagnostics only open their names. */
  lemma {:induction false} EmptiesOnlyOpen<D, K>(key: D -> K, delivered: Index<K>, uris: seq<string>)
    requires Adjacent(uris)
    ensures OnlyOpened(AddFiles(key, delivered, Empties<D>(uris)), uris)
  {
    hide *;
    EmptiesNext<D, K>(key, delivered, [], "");
    if uris != [] {
      var rest, u := uris[..|uris| - 1], uris[|uris| - 1];
      assert uris == rest + [u];
      AdjacentInit(uris);
      EmptiesOnlyOpen<D, K>(key, delivered, rest);
      EmptiesNext(key, delivered, rest, u);
      OpenedNext(AddFiles(key, delivered, Empties<D>(rest)), rest, u);
    }
  }

  /** One new diagnostic goes to the last output file. */
  lemma AddOne<D, K>(key: D -> K, p: Progress<D, K>, known: set<K>, uri: string, d: D)
    requires p.out != [] && uri in p.seen && p.seen[uri] == {} && key(d) !in known
    ensures var last := p.out[|p.out| - 1];
            AddDiagnostics(key, p, known, uri, [d]) ==
            Progress(p.out[..|p.out| - 1] + [File(last.uri, last.diagnostics + [d])], p.seen[uri := {key(d)}])
  {
    assert [d][..0] == [] && {} + {key(d)} == {key(d)};
    assert AddDiagnostics(key, p, known, uri, [d]) == AddDiagnostic(key, p, known, uri, d);
  }

  lemma {:induction false} NonEmptyOfEmpties<D>(files: seq<File<D>>)
    requires forall f :: f in files ==> f.diagnostics == []
    ensures NonEmpty(files) == []
  {
    if files != [] { NonEmptyOfEmpties(files[..|files| - 1]); }
  }

  lemma EmptyFileChangesNothing<D, K>(key: D -> K, delivered: Index<K>, files: seq<File<D>>, u: string)
    ensures Deduplicated(key, delivered, files + [File(u, [])]) == Deduplicated(key, delivered, files)
  {
    AddFileStep(key, delivered, files, File(u, []));
    var p := AddFiles(key, delivered, files);
    hide AddFiles;
    if u !in p.seen {
      assert (p.out + [File(u, [])])[..|p.out|] == p.out;
    }
  }

  lemma {:induction false} EmptiesChangeNothing<D, K>(key: D -> K, delivered: Index<K>, files: seq<File<D>>,
        uris: seq<string>)
    ensures Deduplicated(key, delivered, files + Empties(uris)) == Deduplicated(key, delivered, files)
  {
    hide Deduplicated;
    if uris == [] {
      assert files + Empties(uris) == files;
    } else {
      var rest, u := uris[..|uris| - 1], uris[|uris| - 1];
      EmptiesChangeNothing(key, delivered, files, rest);
      EmptyFileChangesNothing(key, delivered, files + Empties(rest), u);
      assert files + Empties(uris) == files + Empties(rest) + [File(u, [])];
    }
  }

  lemma LastOpened<D, K>(p: Progress<D, K>, uris: seq<string>, u: string)
    requires OnlyOpened(p, uris) && uris != [] && u in uris
    ensures u in p.seen && p.seen[u] == {}
    ensures var v, n := uris[|uris| - 1], |p.out| - 1;
            && p.out != [] && p.out[n] == File(v, []) && v in p.seen && p.seen[v] == {}
            && forall f :: f in p.out[..n] ==> f.diagnostics == []
  {
    assert p.out[|p.out| - 1] in p.out;
  }

  /** A file that reports nothing, or one new diagnostic, under the name opened last. */
  lemma ReportsFirst<D, K>(key: D -> K, p: Progress<D, K>, uris: seq<string>, known: set<K>, first: seq<D>, u: string)
    returns (silent: seq<File<D>>)
    requires OnlyOpened(p, uris) && uris != [] && u in uris && u != uris[|uris| - 1]
    requires |first| <= 1 && forall d :: d in first ==> key(d) !in known
    ensures var v := uris[|uris| - 1];
            && v in p.seen
            && var q := AddDiagnostics(key, p, known, v, first);
               q.out == silent + [File(v, first)] && u in q.seen && q.seen[u] == {}
    ensures forall f :: f in silent ==> f.diagnostics == []
  {
    var v, last := uris[|uris| - 1], p.out[|p.out| - 1];
    silent := p.out[..|p.out| - 1];
    assert AddDiagnostics(key, p, known, v, []) == p;
    LastOpened(p, uris, u);
    hide AddDiagnostics, OnlyOpened;
    assert p.out == silent + [last];
    if first != [] {
      assert first == [first[0]] && first[0] in first && [] + first == first;
      AddOne(key, p, known, v, first[0]);
    }
  }

  /** What stands before a name that comes back: the name before it was opened last, and reported `first`. */
  lemma BeforeReturn<D, K>(key: D -> K, delivered: Index<K>, uris: seq<string>, n: nat, first: seq<D>)
    returns (silent: seq<File<D>>)
    requires Returns(uris, n)
    requires |first| <= 1 && forall d :: d in first ==> key(d) !in Known(delivered, uris[n - 1])
    ensures var p := AddFiles(key, delivered, Empties(uris[..n - 1]) + [File(uris[n - 1], first)]);
            p.out == silent + [File(uris[n - 1], first)] && uris[n] in p.seen && p.seen[uris[n]] == {}
    ensures forall f :: f in silent ==> f.diagnostics == []
  {
    var before, v := Empties<D>(uris[..n - 1]), uris[n - 1];
    assert uris[..n][..n - 1] == uris[..n - 1] && Empties<D>(uris[..n]) == before + [File(v, [])];
    AddFileStep(key, delivered, before, File(v, []));
    AddFileStep(key, delivered, before, File(v, first));
    var p := Opened(AddFiles(key, delivered, before), v);
    assert AddFiles(key, delivered, Empties<D>(uris[..n])) == p;
    hide AddFiles, Adjacent, Empties, OnlyOpened, AddDiagnostics, Opened, Known;
    EmptiesOnlyOpen<D, K>(key, delivered, uris[..n]);
    silent := ReportsFirst(key, p, uris[..n], Known(delivered, v), first, uris[n]);
  }

  /** The diagnostic of a name that comes back is put out under the name before it. */
  lemma ReturningNameMoves<D, K>(key: D -> K, delivered: Index<K>, uris: seq<string>, n: nat, first: seq<D>, d: D)
    requires Returns(uris, n) && key(d) !in Known(delivered, uris[n])
    requires |first| <= 1 && forall e :: e in first ==> key(e) !in Known(delivered, uris[n - 1])
    ensures Deduplicated(key, delivered, TwoReports(uris, n, first, d)) == [File(uris[n - 1], first + [d])]
  {
    var silent := BeforeReturn(key, delivered, uris, n, first);
    var before, f := Empties(uris[..n - 1]) + [File(uris[n - 1], first)], File(uris[n], [d]);
    AddFileStep(key, delivered, before, f);
    AddOne(key, AddFiles(key, delivered, before), Known(delivered, f.uri), f.uri, d);
    var end := File(uris[n - 1], first + [d]);
    assert AddFiles(key, delivered, before + [f]).out == silent + [end];
    NonEmptyOfEmpties(silent);
    assert (silent + [end])[..|silent|] == silent;
    EmptiesChangeNothing(key, delivered, before + [f], uris[n + 1..]);
  }

  lemma MovedIsMisfiled<D>(uris: seq<string>, n: nat, d: D)
    requires Returns(uris, n)
    ensures !Attributed(TwoReports(uris, n, [], d), [File(uris[n - 1], [d])])
  {
    var files, g := TwoReports(uris, n, [], d), File(uris[n - 1], [d]);
    assert g in [g] && d in g.diagnostics;
    assert forall f :: f in files ==> f.diagnostics == [] || f.uri == uris[n];
  }

  /**
   For a given order of file names every diagnostic is put out under its own name, whatever is reported and
   known, exactly when equal names stand next to each other.
   */
  lemma AttributedIffAdjacent<D(!new), K(!new)>(key: D -> K, uris: seq<string>, example: D)
    ensures (forall delivered: Index<K>, files: seq<File<D>> ::
               Uris(files) == uris ==> Attributed(files, Deduplicated(key, delivered, files)))
            <==> Adjacent(uris)
  {
    if Adjacent(uris) {
      forall delivered: Index<K>, files: seq<File<D>> | Uris(files) == uris
        ensures Attributed(files, Deduplicated(key, delivered, files))
      {
        AdjacentAttributes(key, delivered, files);
      }
    } else {
      var n := SomeNameReturns(uris);
      var nothing: Index<K>, files := map[], TwoReports(uris, n, [], example);
      TwoReportsNames(uris, n, [], example);
      ReturningNameMoves(key, nothing, uris, n, [], example);
      MovedIsMisfiled(uris, n, example);
      hide *;
      assert [] + [example] == [example];
      assert Uris(files) == uris && !Attributed(files, Deduplicated(key, nothing, files));
    }
  }
}
