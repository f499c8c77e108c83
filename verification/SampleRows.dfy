/** Samples and benchmark entries, and how they fill the value tables row by row. */
module SampleRows {
  import opened Cursors
  import opened ContentTables
  import opened Wrappers

  datatype Kind = Task | Patch
  datatype Error =
    | InvalidThreshold | InvalidFraction | EmptySampleId | InvalidRepository | DuplicateSample | EmptyText
    | FingerprintCollision | NoPatchText | NoSamples | EmptyBenchmarkId | DuplicateBenchmark | NoBenchmarks
  datatype Outcome = Pass | Fail(error: Error)

  datatype Sample = Sample(id: SampleId, repository: string, taskText: string, patchTexts: seq<string>)
  datatype Benchmark = Benchmark(id: string, taskText: string, patchText: string)

  /** The run's settings, with the functions the program calls: repository canonicalization, text
      normalization, SHA-256, the near-duplicate test, the length window and the seeded bucket of a group. */
  datatype Settings = Settings(
    canonical: string -> Option<Name>,
    aliases: map<Name, Name>,
    normalize: string -> string,
    digest: string -> Name,
    near: NearTest,
    window: LengthWindow,
    bucket: Name -> real,
    evaluationFraction: real)

  ghost predicate Idempotent(cfg: Settings) {
    forall t {:trigger cfg.normalize(t)} :: cfg.normalize(cfg.normalize(t)) == cfg.normalize(t)
  }

  /** No near duplicate of normalized text lies outside the length window. */
  ghost predicate WindowKeepsNear(cfg: Settings) {
    forall l, r {:trigger cfg.near(l, r)} ::
      cfg.normalize(l) == l && cfg.normalize(r) == r && cfg.near(l, r) ==> cfg.window(|l|).0 <= |r| <= cfg.window(|l|).1
  }

  function RepositoryOf(cfg: Settings, s: Sample): Option<Name> {
    match cfg.canonical(s.repository)
    case None => None
    case Some(name) => Some(if name in cfg.aliases then cfg.aliases[name] else name)
  }

  /** exact_fingerprint */
  function Fingerprint(cfg: Settings, text: string): Name { cfg.digest(cfg.normalize(text)) }

  /** The rows the first n texts of one sample ask for: a text whose fingerprint an earlier text has is skipped. */
  function EntriesUpTo(cfg: Settings, texts: seq<string>, n: nat): map<Name, string>
    requires n <= |texts|
  {
    if n == 0 then map[]
    else if Fingerprint(cfg, texts[n - 1]) in EntriesUpTo(cfg, texts, n - 1) then EntriesUpTo(cfg, texts, n - 1)
    else EntriesUpTo(cfg, texts, n - 1)[Fingerprint(cfg, texts[n - 1]) := cfg.normalize(texts[n - 1])]
  }

  function TextsOf(s: Sample, k: Kind): seq<string> {
    match k
    case Task => [s.taskText]
    case Patch => s.patchTexts
  }

  /** The rows of one kind a sample asks for: fingerprint and normalized text. */
  function Entries(cfg: Settings, s: Sample, k: Kind): map<Name, string> {
    EntriesUpTo(cfg, TextsOf(s, k), |TextsOf(s, k)|)
  }

  lemma {:induction false} TaskEntry(cfg: Settings, s: Sample)
    ensures Entries(cfg, s, Task) == map[Fingerprint(cfg, s.taskText) := cfg.normalize(s.taskText)]
  {
    assert EntriesUpTo(cfg, [s.taskText], 0) == map[];
  }

  lemma {:induction false} EntryIsText(cfg: Settings, texts: seq<string>, n: nat, f: Name) returns (i: nat)
    requires n <= |texts| && f in EntriesUpTo(cfg, texts, n)
    ensures i < n && Fingerprint(cfg, texts[i]) == f && cfg.normalize(texts[i]) == EntriesUpTo(cfg, texts, n)[f]
  {
    if f in EntriesUpTo(cfg, texts, n - 1) { i := EntryIsText(cfg, texts, n - 1, f); } else { i := n - 1; }
  }

  lemma {:induction false} HasEntry(cfg: Settings, texts: seq<string>, n: nat, i: nat)
    requires i < n <= |texts|
    ensures Fingerprint(cfg, texts[i]) in EntriesUpTo(cfg, texts, n)
  {
    if i < n - 1 { HasEntry(cfg, texts, n - 1, i); }
  }

  lemma {:induction false} EntriesGrow(cfg: Settings, texts: seq<string>, n: nat, m: nat, f: Name)
    requires n <= m <= |texts| && f in EntriesUpTo(cfg, texts, n)
    ensures f in EntriesUpTo(cfg, texts, m) && EntriesUpTo(cfg, texts, m)[f] == EntriesUpTo(cfg, texts, n)[f]
    decreases m
  {
    if n < m { EntriesGrow(cfg, texts, n, m - 1, f); }
  }

  // The rows and links of one value after the first n samples.

  ghost function RepositoriesWith(cfg: Settings, samples: seq<Sample>, n: nat, k: Kind, f: Name): set<Name>
    requires n <= |samples|
  {
    if n == 0 then {} else
      RepositoriesWith(cfg, samples, n - 1, k, f)
      + if f in Entries(cfg, samples[n - 1], k) && RepositoryOf(cfg, samples[n - 1]).Some?
        then {RepositoryOf(cfg, samples[n - 1]).value} else {}
  }

  ghost function SamplesWith(cfg: Settings, samples: seq<Sample>, n: nat, k: Kind, f: Name): set<SampleId>
    requires n <= |samples|
  {
    if n == 0 then {} else
      SamplesWith(cfg, samples, n - 1, k, f) + if f in Entries(cfg, samples[n - 1], k) then {samples[n - 1].id} else {}
  }

  /** The texts that were to be stored under f. */
  ghost function TextsWith(cfg: Settings, samples: seq<Sample>, n: nat, k: Kind, f: Name): set<string>
    requires n <= |samples|
  {
    if n == 0 then {} else
      TextsWith(cfg, samples, n - 1, k, f)
      + if f in Entries(cfg, samples[n - 1], k) then {Entries(cfg, samples[n - 1], k)[f]} else {}
  }

  /** A table holds at most one text for f, which is the only one that was to be stored there. */
  ghost predicate HoldsOnly(table: map<Name, string>, texts: set<string>, f: Name) {
    texts == if f in table then {table[f]} else {}
  }

  ghost predicate FilledAt(cfg: Settings, v: Values, samples: seq<Sample>, n: nat, k: Kind, f: Name)
    requires n <= |samples|
  {
    && At(v.repositories, f) == RepositoriesWith(cfg, samples, n, k, f)
    && At(v.samples, f) == SamplesWith(cfg, samples, n, k, f)
    && HoldsOnly(v.content, TextsWith(cfg, samples, n, k, f), f)
  }

  ghost predicate Filled(cfg: Settings, v: Values, samples: seq<Sample>, n: nat, k: Kind)
    requires n <= |samples|
  {
    forall f :: FilledAt(cfg, v, samples, n, k, f)
  }

  /** Stored text is nonempty, normalized and filed under its own digest. */
  ghost predicate StoredAt(cfg: Settings, table: map<Name, string>, f: Name) {
    f in table ==> table[f] != "" && cfg.normalize(table[f]) == table[f] && cfg.digest(table[f]) == f
  }

  ghost predicate Stored(cfg: Settings, table: map<Name, string>) {
    forall f :: StoredAt(cfg, table, f)
  }

  lemma {:induction false} StoredLossless(cfg: Settings, left: map<Name, string>, right: map<Name, string>)
    requires WindowKeepsNear(cfg) && Stored(cfg, left) && Stored(cfg, right)
    ensures Lossless(Sides(left, right, cfg.near), cfg.window)
  {
    forall f, g | f in left && g in right && cfg.near(left[f], right[g])
      ensures cfg.window(|left[f]|).0 <= |right[g]| <= cfg.window(|left[f]|).1
    {
      assert StoredAt(cfg, left, f) && StoredAt(cfg, right, g);
    }
  }

  lemma {:induction false} ReadyToGroup(cfg: Settings, samples: seq<Sample>, v: Values, k: Kind)
    requires Filled(cfg, v, samples, |samples|, k)
    requires WindowKeepsNear(cfg) && Stored(cfg, v.content) && Stored(cfg, v.benchmark)
    ensures Known(v, AllRepositories(cfg, samples, |samples|))
    ensures Lossless(Among(v, cfg.near), cfg.window) && Lossless(Against(v, cfg.near), cfg.window)
  {
    StoredLossless(cfg, v.content, v.content);
    StoredLossless(cfg, v.content, v.benchmark);
    forall f | f in v.repositories ensures v.repositories[f] <= AllRepositories(cfg, samples, |samples|) {
      assert FilledAt(cfg, v, samples, |samples|, k, f);
      LinksKnown(cfg, samples, |samples|, k, f);
    }
  }

  /** after is v with the rows es of one sample added. */
  ghost predicate AddedAt(v: Values, after: Values, es: map<Name, string>, id: SampleId, repository: Name, f: Name) {
    && (f in after.content <==> f in v.content || f in es)
    && (f in v.content ==> f in after.content && after.content[f] == v.content[f])
    && (f in es ==> f in after.content && after.content[f] == es[f])
    && At(after.repositories, f) == At(v.repositories, f) + (if f in es then {repository} else {})
    && At(after.samples, f) == At(v.samples, f) + (if f in es then {id} else {})
  }

  ghost predicate Added(v: Values, after: Values, es: map<Name, string>, id: SampleId, repository: Name) {
    after.benchmark == v.benchmark && forall f :: AddedAt(v, after, es, id, repository, f)
  }

  lemma {:induction false} AddedNone(v: Values, id: SampleId, repository: Name)
    ensures Added(v, v, map[], id, repository)
  {
    forall f ensures AddedAt(v, v, map[], id, repository, f) {
    }
  }

  lemma {:induction false} AddedMore(v: Values, mid: Values, after: Values, es: map<Name, string>,
                                     g: Name, text: string, id: SampleId, repository: Name)
    requires Added(v, mid, es, id, repository) && Added(mid, after, map[g := text], id, repository) && g !in es
    ensures Added(v, after, es[g := text], id, repository)
  {
    var more := es[g := text];
    forall f ensures AddedAt(v, after, more, id, repository, f) {
      assert AddedAt(v, mid, es, id, repository, f) && AddedAt(mid, after, map[g := text], id, repository, f);
    }
  }

  lemma {:induction false} FilledMore(cfg: Settings, v: Values, after: Values, samples: seq<Sample>, n: nat, k: Kind)
    requires n < |samples| && Filled(cfg, v, samples, n, k) && RepositoryOf(cfg, samples[n]).Some?
    requires Added(v, after, Entries(cfg, samples[n], k), samples[n].id, RepositoryOf(cfg, samples[n]).value)
    ensures Filled(cfg, after, samples, n + 1, k)
  {
    var m := n + 1;
    forall f ensures FilledAt(cfg, after, samples, m, k, f) {
      assert FilledAt(cfg, v, samples, n, k, f);
      assert AddedAt(v, after, Entries(cfg, samples[n], k), samples[n].id, RepositoryOf(cfg, samples[n]).value, f);
    }
  }

  /** The rows es can be inserted: none is empty, and none meets another text under its fingerprint. */
  ghost predicate EntersAt(table: map<Name, string>, es: map<Name, string>, f: Name) {
    f in es ==> es[f] != "" && (f in table ==> table[f] == es[f])
  }

  ghost predicate Enters(table: map<Name, string>, es: map<Name, string>) {
    forall f :: EntersAt(table, es, f)
  }

  // The other tables after the first n samples, and what makes the input acceptable.

  ghost function AllRepositories(cfg: Settings, samples: seq<Sample>, n: nat): set<Name>
    requires n <= |samples|
  {
    if n == 0 then {} else
      AllRepositories(cfg, samples, n - 1)
      + if RepositoryOf(cfg, samples[n - 1]).Some? then {RepositoryOf(cfg, samples[n - 1]).value} else {}
  }

  ghost function SampleTable(cfg: Settings, samples: seq<Sample>, n: nat): map<SampleId, Name>
    requires n <= |samples|
  {
    if n == 0 then map[]
    else if RepositoryOf(cfg, samples[n - 1]).None? then SampleTable(cfg, samples, n - 1)
    else SampleTable(cfg, samples, n - 1)[samples[n - 1].id := RepositoryOf(cfg, samples[n - 1]).value]
  }

  /** Sample n has an id not used before and a repository. */
  ghost predicate IdentifiedAt(cfg: Settings, samples: seq<Sample>, n: nat)
    requires n < |samples|
  {
    && samples[n].id.text != "" && RepositoryOf(cfg, samples[n]).Some?
    && samples[n].id !in SampleTable(cfg, samples, n)
  }

  ghost predicate Identified(cfg: Settings, samples: seq<Sample>, n: nat)
    requires n <= |samples|
  {
    n > 0 ==> Identified(cfg, samples, n - 1) && IdentifiedAt(cfg, samples, n - 1)
  }

  /** No text of sample n is empty or has the fingerprint of a different text of an earlier sample. */
  ghost predicate GoodEntry(cfg: Settings, samples: seq<Sample>, n: nat, k: Kind, f: Name)
    requires n < |samples|
  {
    f in Entries(cfg, samples[n], k) ==>
      Entries(cfg, samples[n], k)[f] != "" && TextsWith(cfg, samples, n, k, f) <= {Entries(cfg, samples[n], k)[f]}
  }

  ghost predicate GoodEntries(cfg: Settings, samples: seq<Sample>, n: nat, k: Kind)
    requires n < |samples|
  {
    forall f :: GoodEntry(cfg, samples, n, k, f)
  }

  ghost predicate GoodTexts(cfg: Settings, samples: seq<Sample>, n: nat)
    requires n < |samples|
  {
    samples[n].patchTexts != [] && GoodEntries(cfg, samples, n, Task) && GoodEntries(cfg, samples, n, Patch)
  }

  lemma {:induction false} EntersGood(cfg: Settings, v: Values, samples: seq<Sample>, n: nat, k: Kind)
    requires n < |samples| && Filled(cfg, v, samples, n, k)
    ensures Enters(v.content, Entries(cfg, samples[n], k)) <==> GoodEntries(cfg, samples, n, k)
  {
    forall f ensures EntersAt(v.content, Entries(cfg, samples[n], k), f) <==> GoodEntry(cfg, samples, n, k, f) {
      assert FilledAt(cfg, v, samples, n, k, f);
    }
    if Enters(v.content, Entries(cfg, samples[n], k)) {
      forall f ensures GoodEntry(cfg, samples, n, k, f) {
        assert EntersAt(v.content, Entries(cfg, samples[n], k), f);
      }
    }
    if GoodEntries(cfg, samples, n, k) {
      forall f ensures EntersAt(v.content, Entries(cfg, samples[n], k), f) {
        assert GoodEntry(cfg, samples, n, k, f);
      }
    }
  }

  /** The first n samples are well formed and have distinct ids. */
  ghost predicate GoodSamples(cfg: Settings, samples: seq<Sample>, n: nat)
    requires n <= |samples|
  {
    n > 0 ==> GoodSamples(cfg, samples, n - 1) && IdentifiedAt(cfg, samples, n - 1) && GoodTexts(cfg, samples, n - 1)
  }

  /** The benchmark texts that were to be stored under f. */
  ghost function BenchmarkTexts(cfg: Settings, benchmarks: seq<Benchmark>, n: nat, k: Kind, f: Name): set<string>
    requires n <= |benchmarks|
  {
    if n == 0 then {} else
      BenchmarkTexts(cfg, benchmarks, n - 1, k, f)
      + if Fingerprint(cfg, BenchmarkText(benchmarks[n - 1], k)) == f
        then {cfg.normalize(BenchmarkText(benchmarks[n - 1], k))} else {}
  }

  function BenchmarkText(b: Benchmark, k: Kind): string {
    match k
    case Task => b.taskText
    case Patch => b.patchText
  }

  ghost function BenchmarkIds(benchmarks: seq<Benchmark>, n: nat): set<string>
    requires n <= |benchmarks|
  {
    if n == 0 then {} else BenchmarkIds(benchmarks, n - 1) + {benchmarks[n - 1].id}
  }

  ghost predicate GoodBenchmarkText(cfg: Settings, benchmarks: seq<Benchmark>, n: nat, k: Kind)
    requires n < |benchmarks|
  {
    var text := BenchmarkText(benchmarks[n], k);
    && cfg.normalize(text) != ""
    && BenchmarkTexts(cfg, benchmarks, n, k, Fingerprint(cfg, text)) <= {cfg.normalize(text)}
  }

  ghost predicate GoodBenchmark(cfg: Settings, benchmarks: seq<Benchmark>, n: nat)
    requires n < |benchmarks|
  {
    && benchmarks[n].id != "" && benchmarks[n].id !in BenchmarkIds(benchmarks, n)
    && GoodBenchmarkText(cfg, benchmarks, n, Task) && GoodBenchmarkText(cfg, benchmarks, n, Patch)
  }

  ghost predicate GoodBenchmarks(cfg: Settings, benchmarks: seq<Benchmark>, n: nat)
    requires n <= |benchmarks|
  {
    n > 0 ==> GoodBenchmarks(cfg, benchmarks, n - 1) && GoodBenchmark(cfg, benchmarks, n - 1)
  }

  ghost predicate BenchmarkFilledAt(cfg: Settings, table: map<Name, string>, benchmarks: seq<Benchmark>, n: nat,
                                    k: Kind, f: Name)
    requires n <= |benchmarks|
  {
    HoldsOnly(table, BenchmarkTexts(cfg, benchmarks, n, k, f), f)
  }

  ghost predicate BenchmarksFilled(cfg: Settings, table: map<Name, string>, benchmarks: seq<Benchmark>, n: nat, k: Kind)
    requires n <= |benchmarks|
  {
    forall f :: BenchmarkFilledAt(cfg, table, benchmarks, n, k, f)
  }

  lemma {:induction false} BenchmarkAdded(cfg: Settings, table: map<Name, string>, benchmarks: seq<Benchmark>,
                                          n: nat, k: Kind)
    requires n < |benchmarks| && BenchmarksFilled(cfg, table, benchmarks, n, k)
    requires TextFits(cfg, table, BenchmarkText(benchmarks[n], k))
    ensures BenchmarksFilled(cfg, WithText(cfg, table, BenchmarkText(benchmarks[n], k)), benchmarks, n + 1, k)
  {
    var m, after := n + 1, WithText(cfg, table, BenchmarkText(benchmarks[n], k));
    forall f ensures BenchmarkFilledAt(cfg, after, benchmarks, m, k, f) {
      assert BenchmarkFilledAt(cfg, table, benchmarks, n, k, f);
    }
  }

  lemma {:induction false} BenchmarkFits(cfg: Settings, table: map<Name, string>, benchmarks: seq<Benchmark>, n: nat,
                                         k: Kind)
    requires n < |benchmarks| && BenchmarksFilled(cfg, table, benchmarks, n, k)
    ensures TextFits(cfg, table, BenchmarkText(benchmarks[n], k)) <==> GoodBenchmarkText(cfg, benchmarks, n, k)
  {
    assert BenchmarkFilledAt(cfg, table, benchmarks, n, k, Fingerprint(cfg, BenchmarkText(benchmarks[n], k)));
  }

  ghost predicate BenchmarksStored(cfg: Settings, table: map<Name, string>, benchmarks: seq<Benchmark>, n: nat, k: Kind)
    requires n <= |benchmarks|
  {
    Stored(cfg, table) && BenchmarksFilled(cfg, table, benchmarks, n, k)
  }

  /** The build succeeds on exactly these inputs. */
  ghost predicate Acceptable(cfg: Settings, samples: seq<Sample>, benchmarks: seq<Benchmark>) {
    && samples != [] && GoodSamples(cfg, samples, |samples|)
    && benchmarks != [] && GoodBenchmarks(cfg, benchmarks, |benchmarks|)
  }

  lemma {:induction false} FilledKeeps(cfg: Settings, v: Values, after: Values, samples: seq<Sample>, k: Kind)
    requires Filled(cfg, v, samples, |samples|, k) && after == v.(benchmark := after.benchmark)
    ensures Filled(cfg, after, samples, |samples|, k)
  {
    var m := |samples|;
    forall f ensures FilledAt(cfg, after, samples, m, k, f) {
      assert FilledAt(cfg, v, samples, m, k, f);
    }
  }

  lemma {:induction false} NothingIngested(cfg: Settings, samples: seq<Sample>, k: Kind)
    ensures Filled(cfg, Values(map[], map[], map[], map[]), samples, 0, k) && Stored(cfg, map[])
  {
    var v, m := Values(map[], map[], map[], map[]), 0;
    forall f ensures FilledAt(cfg, v, samples, m, k, f) {
    }
    forall f ensures StoredAt(cfg, map[], f) {
    }
  }

  lemma {:induction false} NoBenchmarkIngested(cfg: Settings, benchmarks: seq<Benchmark>, k: Kind)
    ensures BenchmarksStored(cfg, map[], benchmarks, 0, k)
  {
    var m := 0;
    forall f ensures BenchmarkFilledAt(cfg, map[], benchmarks, m, k, f) {
    }
    forall f ensures StoredAt(cfg, map[], f) {
    }
  }

  lemma {:induction false} GoodPrefix(cfg: Settings, samples: seq<Sample>, n: nat, m: nat)
    requires n <= m <= |samples| && GoodSamples(cfg, samples, m)
    ensures GoodSamples(cfg, samples, n)
    decreases m
  {
    if n < m { GoodPrefix(cfg, samples, n, m - 1); }
  }

  lemma {:induction false} GoodBenchmarkPrefix(cfg: Settings, benchmarks: seq<Benchmark>, n: nat, m: nat)
    requires n <= m <= |benchmarks| && GoodBenchmarks(cfg, benchmarks, m)
    ensures GoodBenchmarks(cfg, benchmarks, n)
    decreases m
  {
    if n < m { GoodBenchmarkPrefix(cfg, benchmarks, n, m - 1); }
  }

  /** The link tables only mention repositories and samples of the other tables. */
  lemma {:induction false} LinksKnown(cfg: Settings, samples: seq<Sample>, n: nat, k: Kind, f: Name)
    requires n <= |samples|
    ensures RepositoriesWith(cfg, samples, n, k, f) <= AllRepositories(cfg, samples, n)
    ensures Identified(cfg, samples, n) ==> SamplesWith(cfg, samples, n, k, f) <= SampleTable(cfg, samples, n).Keys
    ensures SampleTable(cfg, samples, n).Values <= AllRepositories(cfg, samples, n)
  {
    if n > 0 {
      LinksKnown(cfg, samples, n - 1, k, f);
    }
  }

  /** SHA-256 is taken to be injective where a statement says so. */
  ghost predicate CollisionFree(cfg: Settings) {
    forall x, y :: cfg.digest(x) == cfg.digest(y) ==> x == y
  }

  lemma {:induction false} TextsWithDigest(cfg: Settings, samples: seq<Sample>, n: nat, k: Kind, f: Name)
    requires n <= |samples|
    ensures forall x :: x in TextsWith(cfg, samples, n, k, f) ==> cfg.digest(x) == f
  {
    if n > 0 {
      TextsWithDigest(cfg, samples, n - 1, k, f);
      if f in Entries(cfg, samples[n - 1], k) {
        var i := EntryIsText(cfg, TextsOf(samples[n - 1], k), |TextsOf(samples[n - 1], k)|, f);
      }
    }
  }

  /** Without collisions a sample is refused for its texts only when one is empty or it has no patch. */
  lemma {:induction false} GoodWithoutCollisions(cfg: Settings, samples: seq<Sample>, n: nat, k: Kind)
    requires CollisionFree(cfg) && n < |samples|
    ensures GoodEntries(cfg, samples, n, k) <==>
              forall j :: 0 <= j < |TextsOf(samples[n], k)| ==> cfg.normalize(TextsOf(samples[n], k)[j]) != ""
  {
    var texts := TextsOf(samples[n], k);
    if GoodEntries(cfg, samples, n, k) {
      forall j | 0 <= j < |texts| ensures cfg.normalize(texts[j]) != "" {
        var f := Fingerprint(cfg, texts[j]);
        HasEntry(cfg, texts, |texts|, j);
        var i := EntryIsText(cfg, texts, |texts|, f);
        assert GoodEntry(cfg, samples, n, k, f) && cfg.normalize(texts[i]) == cfg.normalize(texts[j]);
      }
    }
    if forall j :: 0 <= j < |texts| ==> cfg.normalize(texts[j]) != "" {
      forall f ensures GoodEntry(cfg, samples, n, k, f) {
        if f in Entries(cfg, samples[n], k) {
          var i := EntryIsText(cfg, texts, |texts|, f);
          TextsWithDigest(cfg, samples, n, k, f);
        }
      }
    }
  }

  // Storing one text.

  /** The text is not empty and the table holds no other text under its fingerprint. */
  predicate TextFits(cfg: Settings, table: map<Name, string>, text: string) {
    && cfg.normalize(text) != ""
    && (Fingerprint(cfg, text) in table ==> table[Fingerprint(cfg, text)] == cfg.normalize(text))
  }

  function WithText(cfg: Settings, table: map<Name, string>, text: string): map<Name, string> {
    table[Fingerprint(cfg, text) := cfg.normalize(text)]
  }

  lemma {:induction false} TaskEnters(cfg: Settings, table: map<Name, string>, s: Sample)
    ensures TextFits(cfg, table, s.taskText) <==> Enters(table, Entries(cfg, s, Task))
  {
    TaskEntry(cfg, s);
    if TextFits(cfg, table, s.taskText) {
      forall f ensures EntersAt(table, Entries(cfg, s, Task), f) {
      }
    }
    if Enters(table, Entries(cfg, s, Task)) {
      assert EntersAt(table, Entries(cfg, s, Task), Fingerprint(cfg, s.taskText));
    }
  }

  /** INSERT OR IGNORE of one text, then the check that what is stored is that text. */
  method InsertText(cfg: Settings, table: map<Name, string>, text: string)
    returns (outcome: Outcome, after: map<Name, string>)
    requires Idempotent(cfg) && Stored(cfg, table)
    ensures outcome.Pass? <==> TextFits(cfg, table, text)
    ensures outcome.Fail? ==> outcome.error == if cfg.normalize(text) == "" then EmptyText else FingerprintCollision
    ensures outcome.Pass? ==> Stored(cfg, after) && after == WithText(cfg, table, text)
  {
    var normalized := cfg.normalize(text);
    after := table;
    if normalized == "" { return Fail(EmptyText), after; }
    var f := Fingerprint(cfg, normalized);
    assert StoredAt(cfg, table, f);
    if f !in after { after := after[f := normalized]; }
    if after[f] != normalized { return Fail(FingerprintCollision), after; }
    forall g ensures StoredAt(cfg, after, g) {
      assert StoredAt(cfg, table, g);
    }
    outcome := Pass;
  }

  /** _insert_content_value */
  method InsertContentValue(cfg: Settings, v: Values, text: string, id: SampleId, repository: Name)
    returns (outcome: Outcome, after: Values)
    requires Idempotent(cfg) && Stored(cfg, v.content)
    ensures outcome.Pass? <==> TextFits(cfg, v.content, text)
    ensures outcome.Fail? ==> outcome.error == if cfg.normalize(text) == "" then EmptyText else FingerprintCollision
    ensures outcome.Pass? ==> Stored(cfg, after.content)
    ensures outcome.Pass? ==> Added(v, after, map[Fingerprint(cfg, text) := cfg.normalize(text)], id, repository)
  {
    var content;
    outcome, content := InsertText(cfg, v.content, text);
    after := v;
    if outcome.Fail? { return; }
    var f := Fingerprint(cfg, text);
    after := v.(content := content,
                repositories := v.repositories[f := At(v.repositories, f) + {repository}],
                samples := v.samples[f := At(v.samples, f) + {id}]);
    forall g ensures AddedAt(v, after, map[f := cfg.normalize(text)], id, repository, g) {
    }
  }

  /** The loop over a sample's patch texts, which skips a text whose fingerprint it has seen. */
  method InsertPatchTexts(cfg: Settings, v: Values, texts: seq<string>, id: SampleId, repository: Name)
    returns (outcome: Outcome, after: Values)
    requires Idempotent(cfg) && Stored(cfg, v.content)
    ensures outcome.Pass? <==> Enters(v.content, EntriesUpTo(cfg, texts, |texts|))
    ensures outcome.Pass? ==> Stored(cfg, after.content)
    ensures outcome.Pass? ==> Added(v, after, EntriesUpTo(cfg, texts, |texts|), id, repository)
  {
    after := v;
    var seen: set<Name> := {};
    AddedNone(v, id, repository);
    for j := 0 to |texts|
      invariant seen == EntriesUpTo(cfg, texts, j).Keys && Enters(v.content, EntriesUpTo(cfg, texts, j))
      invariant Stored(cfg, after.content) && Added(v, after, EntriesUpTo(cfg, texts, j), id, repository)
    {
      var fingerprint := Fingerprint(cfg, texts[j]);
      if fingerprint in seen { continue; }
      var mid := after;
      outcome, after := InsertContentValue(cfg, mid, texts[j], id, repository);
      EntersNext(cfg, v, mid, texts, j, id, repository);
      if outcome.Fail? { return; }
      AddedMore(v, mid, after, EntriesUpTo(cfg, texts, j), fingerprint, cfg.normalize(texts[j]), id, repository);
      seen := seen + {fingerprint};
    }
    outcome := Pass;
  }

  /** A patch text with a new fingerprint fits if and only if the rows up to it can be inserted. */
  lemma {:induction false} EntersNext(cfg: Settings, v: Values, mid: Values, texts: seq<string>, j: nat,
                                      id: SampleId, repository: Name)
    requires j < |texts| && Fingerprint(cfg, texts[j]) !in EntriesUpTo(cfg, texts, j)
    requires Enters(v.content, EntriesUpTo(cfg, texts, j)) && Added(v, mid, EntriesUpTo(cfg, texts, j), id, repository)
    ensures TextFits(cfg, mid.content, texts[j]) ==> Enters(v.content, EntriesUpTo(cfg, texts, j + 1))
    ensures !TextFits(cfg, mid.content, texts[j]) ==> !Enters(v.content, EntriesUpTo(cfg, texts, |texts|))
  {
    var g, es := Fingerprint(cfg, texts[j]), EntriesUpTo(cfg, texts, j);
    assert AddedAt(v, mid, es, id, repository, g);
    if TextFits(cfg, mid.content, texts[j]) {
      var more := EntriesUpTo(cfg, texts, j + 1);
      forall f ensures EntersAt(v.content, more, f) {
        assert EntersAt(v.content, es, f);
      }
    } else {
      EntriesGrow(cfg, texts, j + 1, |texts|, g);
      assert !EntersAt(v.content, EntriesUpTo(cfg, texts, |texts|), g);
    }
  }
}
