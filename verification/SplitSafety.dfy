/** What a published repository split guarantees, stated about the samples themselves. */
module SplitSafety {
  import opened Cursors
  import opened Sizes
  import opened Fingerprints
  import opened Components
  import opened ContentTables
  import opened SampleRows
  import opened Contamination
  import opened Wrappers

  /** x is the normalized form of one of the sample's texts of kind k. */
  ghost predicate HasText(cfg: Settings, s: Sample, k: Kind, x: string) {
    exists j :: 0 <= j < |TextsOf(s, k)| && cfg.normalize(TextsOf(s, k)[j]) == x
  }

  ghost predicate SameOrNear(cfg: Settings, x: string, y: string) {
    x == y || cfg.near(x, y)
  }

  /** The samples share a task or a patch, or have nearly duplicate ones. */
  ghost predicate Duplicates(cfg: Settings, s: Sample, t: Sample) {
    exists k, x, y :: HasText(cfg, s, k, x) && HasText(cfg, t, k, y) && SameOrNear(cfg, x, y)
  }

  /** x is a text the index keeps of the sample: the loop over its patch texts skips a text whose fingerprint
      an earlier patch text of the same sample has, without comparing the two. */
  ghost predicate Keeps(cfg: Settings, s: Sample, k: Kind, x: string) {
    cfg.digest(x) in Entries(cfg, s, k) && Entries(cfg, s, k)[cfg.digest(x)] == x
  }

  ghost predicate KeptDuplicates(cfg: Settings, s: Sample, t: Sample) {
    exists k, x, y :: Keeps(cfg, s, k, x) && Keeps(cfg, t, k, y) && SameOrNear(cfg, x, y)
  }

  /** No patch text of the sample hides behind a different one with the same fingerprint. */
  ghost predicate Visible(cfg: Settings, s: Sample) {
    forall i, j :: 0 <= i < j < |s.patchTexts|
                   && Fingerprint(cfg, s.patchTexts[i]) == Fingerprint(cfg, s.patchTexts[j]) ==>
      cfg.normalize(s.patchTexts[i]) == cfg.normalize(s.patchTexts[j])
  }

  ghost predicate Related(cfg: Settings, samples: seq<Sample>, a: Name, b: Name) {
    exists i, j :: 0 <= i < |samples| && 0 <= j < |samples|
                   && RepositoryOf(cfg, samples[i]) == Some(a) && RepositoryOf(cfg, samples[j]) == Some(b)
                   && KeptDuplicates(cfg, samples[i], samples[j])
  }

  ghost predicate RelatedChain(cfg: Settings, samples: seq<Sample>, p: seq<Name>, a: Name, b: Name) {
    p != [] && p[0] == a && p[|p| - 1] == b && forall i :: 0 <= i < |p| - 1 ==> Related(cfg, samples, p[i], p[i + 1])
  }

  ghost predicate Symmetric(cfg: Settings) {
    forall x, y {:trigger cfg.near(x, y)} :: cfg.near(x, y) == cfg.near(y, x)
  }

  ghost predicate MatchesBenchmark(cfg: Settings, s: Sample, benchmarks: seq<Benchmark>) {
    exists k, x, m :: 0 <= m < |benchmarks| && HasText(cfg, s, k, x)
                      && SameOrNear(cfg, x, cfg.normalize(BenchmarkText(benchmarks[m], k)))
  }

  /** The match the program looks for: an equal fingerprint, or nearly duplicate texts. */
  ghost predicate HitsBenchmark(cfg: Settings, s: Sample, benchmarks: seq<Benchmark>) {
    exists k, x, m :: 0 <= m < |benchmarks| && Keeps(cfg, s, k, x)
                      && FingerprintsOrNear(cfg, x, cfg.normalize(BenchmarkText(benchmarks[m], k)))
  }

  ghost predicate FingerprintsOrNear(cfg: Settings, x: string, y: string) {
    cfg.digest(x) == cfg.digest(y) || cfg.near(x, y)
  }

  /** No benchmark text has the fingerprint of a different text of the sample. */
  ghost predicate Apart(cfg: Settings, s: Sample, benchmarks: seq<Benchmark>) {
    forall k, x, m :: 0 <= m < |benchmarks| && HasText(cfg, s, k, x)
                      && Fingerprint(cfg, BenchmarkText(benchmarks[m], k)) == cfg.digest(x) ==>
      x == cfg.normalize(BenchmarkText(benchmarks[m], k))
  }

  /** The settings and tables the statements below speak about. */
  ghost predicate Safe(cfg: Settings, samples: seq<Sample>, benchmarks: seq<Benchmark>, groups: Groups, t: Snapshot) {
    Symmetric(cfg) && Published(cfg, samples, benchmarks, groups, t)
  }

  function TableOf(t: Snapshot, k: Kind): Values {
    match k
    case Task => t.task
    case Patch => t.patch
  }

  // Which texts are kept.

  lemma {:induction false} KeptIsText(cfg: Settings, s: Sample, k: Kind, x: string)
    requires Keeps(cfg, s, k, x)
    ensures HasText(cfg, s, k, x)
  {
    var j := EntryIsText(cfg, TextsOf(s, k), |TextsOf(s, k)|, cfg.digest(x));
  }

  lemma {:induction false} VisibleTextIsKept(cfg: Settings, s: Sample, k: Kind, x: string)
    requires Visible(cfg, s) && HasText(cfg, s, k, x)
    ensures Keeps(cfg, s, k, x)
  {
    var texts := TextsOf(s, k);
    var j :| 0 <= j < |texts| && cfg.normalize(texts[j]) == x;
    HasEntry(cfg, texts, |texts|, j);
    var i := EntryIsText(cfg, texts, |texts|, cfg.digest(x));
    assert Fingerprint(cfg, texts[i]) == Fingerprint(cfg, texts[j]);
    assert k == Task ==> i == j;
  }

  /** The index keeps all texts of a sample if and only if none of its patch texts hides another. */
  lemma {:induction false} KeptExactly(cfg: Settings, s: Sample)
    ensures Visible(cfg, s) <==> forall k, x :: HasText(cfg, s, k, x) ==> Keeps(cfg, s, k, x)
  {
    if Visible(cfg, s) {
      forall k, x | HasText(cfg, s, k, x) ensures Keeps(cfg, s, k, x) {
        VisibleTextIsKept(cfg, s, k, x);
      }
    }
    if forall k, x :: HasText(cfg, s, k, x) ==> Keeps(cfg, s, k, x) {
      forall i, j | 0 <= i < j < |s.patchTexts|
                    && Fingerprint(cfg, s.patchTexts[i]) == Fingerprint(cfg, s.patchTexts[j])
        ensures cfg.normalize(s.patchTexts[i]) == cfg.normalize(s.patchTexts[j])
      {
        assert TextsOf(s, Patch) == s.patchTexts;
        assert HasText(cfg, s, Patch, cfg.normalize(TextsOf(s, Patch)[i]));
        assert HasText(cfg, s, Patch, cfg.normalize(TextsOf(s, Patch)[j]));
      }
    }
  }

  /** A digest without collisions hides no patch text and confuses no benchmark text with another. */
  lemma {:induction false} CollisionFreeIsVisible(cfg: Settings, s: Sample, benchmarks: seq<Benchmark>)
    requires CollisionFree(cfg)
    ensures Visible(cfg, s) && Apart(cfg, s, benchmarks)
  {
  }

  // From texts to the tables and back.

  lemma {:induction false} InRepositoriesWith(cfg: Settings, samples: seq<Sample>, n: nat, k: Kind, f: Name, i: nat)
    requires i < n <= |samples| && f in Entries(cfg, samples[i], k) && RepositoryOf(cfg, samples[i]).Some?
    ensures RepositoryOf(cfg, samples[i]).value in RepositoriesWith(cfg, samples, n, k, f)
    ensures samples[i].id in SamplesWith(cfg, samples, n, k, f)
    ensures Entries(cfg, samples[i], k)[f] in TextsWith(cfg, samples, n, k, f)
  {
    if i < n - 1 { InRepositoriesWith(cfg, samples, n - 1, k, f, i); }
  }

  lemma {:induction false} RepositoryCarrier(cfg: Settings, samples: seq<Sample>, n: nat, k: Kind, f: Name, r: Name)
    returns (i: nat)
    requires n <= |samples| && r in RepositoriesWith(cfg, samples, n, k, f)
    ensures i < n && f in Entries(cfg, samples[i], k) && RepositoryOf(cfg, samples[i]) == Some(r)
  {
    if f in Entries(cfg, samples[n - 1], k) && RepositoryOf(cfg, samples[n - 1]) == Some(r) {
      i := n - 1;
    } else {
      i := RepositoryCarrier(cfg, samples, n - 1, k, f, r);
    }
  }

  lemma {:induction false} SampleCarrier(cfg: Settings, samples: seq<Sample>, n: nat, k: Kind, f: Name, id: SampleId)
    returns (i: nat)
    requires n <= |samples| && id in SamplesWith(cfg, samples, n, k, f)
    ensures i < n && f in Entries(cfg, samples[i], k) && samples[i].id == id
  {
    if f in Entries(cfg, samples[n - 1], k) && samples[n - 1].id == id {
      i := n - 1;
    } else {
      i := SampleCarrier(cfg, samples, n - 1, k, f, id);
    }
  }

  lemma {:induction false} TableAt(cfg: Settings, samples: seq<Sample>, n: nat, i: nat)
    requires i < n <= |samples| && Identified(cfg, samples, n)
    ensures RepositoryOf(cfg, samples[i]).Some? && samples[i].id in SampleTable(cfg, samples, n)
    ensures SampleTable(cfg, samples, n)[samples[i].id] == RepositoryOf(cfg, samples[i]).value
    ensures RepositoryOf(cfg, samples[i]).value in AllRepositories(cfg, samples, n)
  {
    if i < n - 1 { TableAt(cfg, samples, n - 1, i); }
  }

  lemma {:induction false} TableSize(cfg: Settings, samples: seq<Sample>, n: nat)
    requires n <= |samples| && Identified(cfg, samples, n)
    ensures |SampleTable(cfg, samples, n)| == n
  {
    if n > 0 {
      TableSize(cfg, samples, n - 1);
      var before := SampleTable(cfg, samples, n - 1);
      assert SampleTable(cfg, samples, n).Keys == before.Keys + {samples[n - 1].id};
    }
  }

  /** A kept text of a sample is stored under its digest, with the sample and its repository linked to it. */
  lemma {:induction false} TextIsStored(cfg: Settings, samples: seq<Sample>, benchmarks: seq<Benchmark>, groups: Groups,
                                        t: Snapshot, i: nat, k: Kind, x: string)
    requires Safe(cfg, samples, benchmarks, groups, t) && i < |samples| && Keeps(cfg, samples[i], k, x)
    ensures RepositoryOf(cfg, samples[i]).Some? && RepositoryOf(cfg, samples[i]).value in t.parent
    ensures var f, v := cfg.digest(x), TableOf(t, k);
            && f in v.content && v.content[f] == x
            && RepositoryOf(cfg, samples[i]).value in At(v.repositories, f) && samples[i].id in At(v.samples, f)
  {
    var f, v := cfg.digest(x), TableOf(t, k);
    TableAt(cfg, samples, |samples|, i);
    InRepositoriesWith(cfg, samples, |samples|, k, f, i);
    assert FilledAt(cfg, v, samples, |samples|, k, f);
  }

  /** What is stored under a fingerprint of a sample is a text the index keeps of it. */
  lemma {:induction false} StoredIsKept(cfg: Settings, samples: seq<Sample>, v: Values, i: nat, k: Kind, f: Name)
    requires Stored(cfg, v.content) && Filled(cfg, v, samples, |samples|, k)
    requires i < |samples| && RepositoryOf(cfg, samples[i]).Some? && f in Entries(cfg, samples[i], k)
    ensures f in v.content && cfg.digest(v.content[f]) == f && Keeps(cfg, samples[i], k, v.content[f])
  {
    InRepositoriesWith(cfg, samples, |samples|, k, f, i);
    assert FilledAt(cfg, v, samples, |samples|, k, f) && StoredAt(cfg, v.content, f);
  }

  /** A repository linked to a stored value has a sample with that text. */
  lemma {:induction false} LinkHasSample(cfg: Settings, samples: seq<Sample>, benchmarks: seq<Benchmark>,
                                         groups: Groups,
                                         t: Snapshot, k: Kind, f: Name, r: Name) returns (i: nat)
    requires Safe(cfg, samples, benchmarks, groups, t) && r in At(TableOf(t, k).repositories, f)
    ensures i < |samples| && RepositoryOf(cfg, samples[i]) == Some(r) && f in TableOf(t, k).content
    ensures Keeps(cfg, samples[i], k, TableOf(t, k).content[f])
  {
    var v := TableOf(t, k);
    assert FilledAt(cfg, v, samples, |samples|, k, f);
    i := RepositoryCarrier(cfg, samples, |samples|, k, f, r);
    StoredIsKept(cfg, samples, v, i, k, f);
  }

  // Links between repositories are duplicates between their samples.

  lemma {:induction false} DuplicatesLink(cfg: Settings, samples: seq<Sample>, benchmarks: seq<Benchmark>,
                                          groups: Groups, t: Snapshot, a: Name, b: Name)
    requires Safe(cfg, samples, benchmarks, groups, t) && Related(cfg, samples, a, b)
    ensures a in t.parent && b in t.parent && t.parent[a] == t.parent[b]
  {
    var i, j :| 0 <= i < |samples| && 0 <= j < |samples| && RepositoryOf(cfg, samples[i]) == Some(a)
                && RepositoryOf(cfg, samples[j]) == Some(b) && KeptDuplicates(cfg, samples[i], samples[j]);
    var k, x, y :| Keeps(cfg, samples[i], k, x) && Keeps(cfg, samples[j], k, y) && SameOrNear(cfg, x, y);
    TextIsStored(cfg, samples, benchmarks, groups, t, i, k, x);
    TextIsStored(cfg, samples, benchmarks, groups, t, j, k, y);
    if a != b {
      StoredLink(cfg, TableOf(t, k), cfg.digest(x), cfg.digest(y), a, b);
      LinkedSameRoot(t, cfg.near, groups, k, a, b);
    }
  }

  lemma {:induction false} LinkedSameRoot(t: Snapshot, near: NearTest, groups: Groups, k: Kind, a: Name, b: Name)
    requires Represents(t.parent, groups) && AllLinks(t.task, t.patch, near, groups)
    requires a in t.parent && b in t.parent && ValueLinked(TableOf(t, k), near, a, b)
    ensures t.parent[a] == t.parent[b]
  {
    assert Linked(groups, a, b);
    ConnectedLink(groups, a, b);
    assert SameRootAt(t.parent, groups, a, b);
  }

  lemma {:induction false} StoredLink(cfg: Settings, v: Values, f: Name, g: Name, a: Name, b: Name)
    requires Symmetric(cfg) && f in v.content && g in v.content && a != b
    requires a in At(v.repositories, f) && b in At(v.repositories, g)
    requires f == g || cfg.near(v.content[f], v.content[g])
    ensures ValueLinked(v, cfg.near, a, b)
  {
    var p := if f <= g then Pair(f, g) else Pair(g, f);
    if f == g {
      assert {a, b} <= At(v.repositories, f) && |{a, b}| == 2;
      SubsetSize({a, b}, At(v.repositories, f));
      assert p in Doubles(Shared(v));
    } else {
      assert cfg.near(v.content[g], v.content[f]) == cfg.near(v.content[f], v.content[g]);
      assert p in NearPairs(v, cfg.near);
    }
    assert p in GroupPairs(v, cfg.near) && a in PairRepositories(v, p) && b in PairRepositories(v, p);
  }

  lemma {:induction false} LinksAreDuplicates(cfg: Settings, samples: seq<Sample>, benchmarks: seq<Benchmark>,
                                              groups: Groups, t: Snapshot, a: Name, b: Name)
    requires Safe(cfg, samples, benchmarks, groups, t) && Linked(groups, a, b)
    ensures Related(cfg, samples, a, b)
  {
    var k := if ValueLinked(t.task, cfg.near, a, b) then Task else Patch;
    var v := TableOf(t, k);
    assert ValueLinked(v, cfg.near, a, b);
    var p :| p in GroupPairs(v, cfg.near) && a in PairRepositories(v, p) && b in PairRepositories(v, p);
    var f := if a in At(v.repositories, p.left) then p.left else p.right;
    var g := if b in At(v.repositories, p.left) then p.left else p.right;
    var i := LinkHasSample(cfg, samples, benchmarks, groups, t, k, f, a);
    var j := LinkHasSample(cfg, samples, benchmarks, groups, t, k, g, b);
    var x, y := v.content[f], v.content[g];
    if f != g {
      assert p in NearPairs(v, cfg.near);
      assert cfg.near(x, y) == cfg.near(y, x);
    }
    assert SameOrNear(cfg, x, y);
    assert KeptDuplicates(cfg, samples[i], samples[j]);
  }

  lemma {:induction false} ChainKeepsRoot(cfg: Settings, samples: seq<Sample>, benchmarks: seq<Benchmark>,
                                          groups: Groups, t: Snapshot, p: seq<Name>, a: Name, b: Name)
    requires Safe(cfg, samples, benchmarks, groups, t) && RelatedChain(cfg, samples, p, a, b) && a in t.parent
    ensures b in t.parent && t.parent[a] == t.parent[b]
    decreases |p|
  {
    if |p| > 1 {
      assert Related(cfg, samples, p[0], p[0 + 1]);
      DuplicatesLink(cfg, samples, benchmarks, groups, t, a, p[1]);
      forall i | 0 <= i < |p[1..]| - 1 ensures Related(cfg, samples, p[1..][i], p[1..][i + 1]) {
        assert Related(cfg, samples, p[i + 1], p[i + 1 + 1]);
      }
      ChainKeepsRoot(cfg, samples, benchmarks, groups, t, p[1..], p[1], b);
    }
  }

  /** Groups are exactly the connected components: two repositories share a root if and only if a chain of
      equal or nearly duplicate kept texts leads from one to the other. */
  lemma {:induction false} GroupsAreComponents(cfg: Settings, samples: seq<Sample>, benchmarks: seq<Benchmark>,
                                               groups: Groups, t: Snapshot, a: Name, b: Name)
    requires Safe(cfg, samples, benchmarks, groups, t) && a in t.parent && b in t.parent
    ensures t.parent[a] == t.parent[b] <==> exists p :: RelatedChain(cfg, samples, p, a, b)
  {
    if t.parent[a] == t.parent[b] {
      assert SameRootAt(t.parent, groups, a, b);
      var p :| ChainBetween(groups, p, a, b);
      forall i | 0 <= i < |p| - 1 ensures Related(cfg, samples, p[i], p[i + 1]) {
        LinksAreDuplicates(cfg, samples, benchmarks, groups, t, p[i], p[i + 1]);
      }
      assert RelatedChain(cfg, samples, p, a, b);
    }
    if p :| RelatedChain(cfg, samples, p, a, b) {
      ChainKeepsRoot(cfg, samples, benchmarks, groups, t, p, a, b);
    }
  }

  /** The root of a group is its least name, so grouping does not depend on any processing order. */
  lemma {:induction false} RootIsLeastOfGroup(cfg: Settings, samples: seq<Sample>, benchmarks: seq<Benchmark>,
                                              groups: Groups, t: Snapshot, a: Name, b: Name)
    requires Safe(cfg, samples, benchmarks, groups, t) && a in t.parent && b in t.parent && t.parent[a] == t.parent[b]
    ensures t.parent[a] in t.parent && t.parent[t.parent[a]] == t.parent[a] && t.parent[a] <= b
  {
    assert FlatAt(t.parent, a) && FlatAt(t.parent, b);
  }

  lemma {:induction false} VisibleDuplicates(cfg: Settings, s: Sample, t: Sample)
    requires Visible(cfg, s) && Visible(cfg, t) && Duplicates(cfg, s, t)
    ensures KeptDuplicates(cfg, s, t)
  {
    var k, x, y :| HasText(cfg, s, k, x) && HasText(cfg, t, k, y) && SameOrNear(cfg, x, y);
    VisibleTextIsKept(cfg, s, k, x);
    VisibleTextIsKept(cfg, t, k, y);
  }

  /** No published split leaks: samples with equal or nearly duplicate tasks or patches share a split, whatever
      the digests, unless one of the two hides a patch text from the index. */
  lemma {:induction false} NoLeak(cfg: Settings, samples: seq<Sample>, benchmarks: seq<Benchmark>, groups: Groups,
                                  t: Snapshot, i: nat, j: nat)
    requires Safe(cfg, samples, benchmarks, groups, t) && i < |samples| && j < |samples|
    requires Visible(cfg, samples[i]) && Visible(cfg, samples[j]) && Duplicates(cfg, samples[i], samples[j])
    ensures RepositoryOf(cfg, samples[i]).Some? && RepositoryOf(cfg, samples[j]).Some?
    ensures var a, b := RepositoryOf(cfg, samples[i]).value, RepositoryOf(cfg, samples[j]).value;
            a in t.split && b in t.split && t.split[a] == t.split[b]
  {
    TableAt(cfg, samples, |samples|, i);
    TableAt(cfg, samples, |samples|, j);
    var a, b := RepositoryOf(cfg, samples[i]).value, RepositoryOf(cfg, samples[j]).value;
    VisibleDuplicates(cfg, samples[i], samples[j]);
    assert Related(cfg, samples, a, b);
    DuplicatesLink(cfg, samples, benchmarks, groups, t, a, b);
  }

  lemma {:induction false} OverlapHits(cfg: Settings, samples: seq<Sample>, benchmarks: seq<Benchmark>, groups: Groups,
                                       t: Snapshot, id: SampleId) returns (i: nat)
    requires Safe(cfg, samples, benchmarks, groups, t) && id in t.overlap
    ensures i < |samples| && samples[i].id == id && HitsBenchmark(cfg, samples[i], benchmarks)
  {
    var k := if ValueHit(t.task, cfg.near, id) then Task else Patch;
    i := TableHit(cfg, samples, benchmarks, TableOf(t, k), k, id);
  }

  lemma {:induction false} TableHit(cfg: Settings, samples: seq<Sample>, benchmarks: seq<Benchmark>, v: Values, k: Kind,
                                    id: SampleId) returns (i: nat)
    requires Stored(cfg, v.content) && Filled(cfg, v, samples, |samples|, k) && Identified(cfg, samples, |samples|)
    requires BenchmarksStored(cfg, v.benchmark, benchmarks, |benchmarks|, k) && ValueHit(v, cfg.near, id)
    ensures i < |samples| && samples[i].id == id && HitsBenchmark(cfg, samples[i], benchmarks)
  {
    var p :| p in HitPairs(v, cfg.near) && id in At(v.samples, p.left);
    assert FilledAt(cfg, v, samples, |samples|, k, p.left);
    i := SampleCarrier(cfg, samples, |samples|, k, p.left, id);
    TableAt(cfg, samples, |samples|, i);
    StoredIsKept(cfg, samples, v, i, k, p.left);
    assert BenchmarkFilledAt(cfg, v.benchmark, benchmarks, |benchmarks|, k, p.right);
    var m := BenchmarkCarrier(cfg, benchmarks, |benchmarks|, k, p.right, v.benchmark[p.right]);
    assert FingerprintsOrNear(cfg, v.content[p.left], v.benchmark[p.right]);
  }

  lemma {:induction false} BenchmarkCarrier(cfg: Settings, benchmarks: seq<Benchmark>, n: nat, k: Kind, f: Name,
                                            y: string)
    returns (m: nat)
    requires n <= |benchmarks| && y in BenchmarkTexts(cfg, benchmarks, n, k, f)
    ensures m < n && Fingerprint(cfg, BenchmarkText(benchmarks[m], k)) == f
    ensures cfg.normalize(BenchmarkText(benchmarks[m], k)) == y
  {
    if y in BenchmarkTexts(cfg, benchmarks, n - 1, k, f) {
      m := BenchmarkCarrier(cfg, benchmarks, n - 1, k, f, y);
    } else {
      m := n - 1;
    }
  }

  lemma {:induction false} BenchmarkIsStored(cfg: Settings, benchmarks: seq<Benchmark>, n: nat, k: Kind, m: nat)
    requires m < n <= |benchmarks|
    ensures var text := BenchmarkText(benchmarks[m], k);
            cfg.normalize(text) in BenchmarkTexts(cfg, benchmarks, n, k, Fingerprint(cfg, text))
  {
    if m < n - 1 { BenchmarkIsStored(cfg, benchmarks, n - 1, k, m); }
  }

  lemma {:induction false} HitOverlaps(cfg: Settings, samples: seq<Sample>, benchmarks: seq<Benchmark>, groups: Groups,
                                       t: Snapshot, i: nat)
    requires Safe(cfg, samples, benchmarks, groups, t) && i < |samples| && HitsBenchmark(cfg, samples[i], benchmarks)
    ensures samples[i].id in t.overlap
  {
    var k, x, m :| 0 <= m < |benchmarks| && Keeps(cfg, samples[i], k, x)
                   && FingerprintsOrNear(cfg, x, cfg.normalize(BenchmarkText(benchmarks[m], k)));
    TextIsStored(cfg, samples, benchmarks, groups, t, i, k, x);
    BenchmarkStands(cfg, samples, benchmarks, groups, t, k, m);
    var y := cfg.normalize(BenchmarkText(benchmarks[m], k));
    StoredHit(TableOf(t, k), cfg.near, cfg.digest(x), cfg.digest(y), samples[i].id);
  }

  lemma {:induction false} BenchmarkStands(cfg: Settings, samples: seq<Sample>, benchmarks: seq<Benchmark>,
                                           groups: Groups, t: Snapshot, k: Kind, m: nat)
    requires Safe(cfg, samples, benchmarks, groups, t) && m < |benchmarks|
    ensures var table, y := TableOf(t, k).benchmark, cfg.normalize(BenchmarkText(benchmarks[m], k));
            cfg.digest(y) in table && table[cfg.digest(y)] == y
  {
    var y := cfg.normalize(BenchmarkText(benchmarks[m], k));
    BenchmarkIsStored(cfg, benchmarks, |benchmarks|, k, m);
    assert BenchmarkFilledAt(cfg, TableOf(t, k).benchmark, benchmarks, |benchmarks|, k, cfg.digest(y));
  }

  lemma {:induction false} StoredHit(v: Values, near: NearTest, f: Name, g: Name, id: SampleId)
    requires f in v.content && g in v.benchmark && id in At(v.samples, f)
    requires f == g || near(v.content[f], v.benchmark[g])
    ensures ValueHit(v, near, id)
  {
    var p := Pair(f, g);
    if f == g {
      assert p in Doubles(ExactHits(v));
    } else {
      assert p in NearHits(v, near);
    }
    assert p in HitPairs(v, near);
  }

  /** A repository is excluded if and only if a kept text of some sample in its group has the fingerprint of a
      benchmark text or nearly duplicates one; every other group goes by the seeded bucket of its root. */
  lemma {:induction false} ExcludedExactly(cfg: Settings, samples: seq<Sample>, benchmarks: seq<Benchmark>,
                                           groups: Groups, t: Snapshot, r: Name)
    requires Safe(cfg, samples, benchmarks, groups, t) && r in t.parent
    ensures r in t.split && t.split[r] in {Train, Evaluation, Excluded}
    ensures t.split[r] == Excluded <==>
              exists i :: 0 <= i < |samples| && InGroupOf(cfg, samples[i], t.parent, r)
                          && HitsBenchmark(cfg, samples[i], benchmarks)
    ensures t.split[r] != Excluded ==> (t.split[r] == Evaluation <==> cfg.bucket(t.parent[r]) < cfg.evaluationFraction)
  {
    if t.parent[r] in t.excludedRoots {
      var id :| id in t.overlap && t.parent[t.sampleRepo[id]] == t.parent[r];
      var i := OverlapHits(cfg, samples, benchmarks, groups, t, id);
      TableAt(cfg, samples, |samples|, i);
      assert InGroupOf(cfg, samples[i], t.parent, r);
    }
    if i :| 0 <= i < |samples| && InGroupOf(cfg, samples[i], t.parent, r)
            && HitsBenchmark(cfg, samples[i], benchmarks)
    {
      HitOverlaps(cfg, samples, benchmarks, groups, t, i);
      TableAt(cfg, samples, |samples|, i);
      assert t.parent[t.sampleRepo[samples[i].id]] in t.excludedRoots;
    }
  }

  /** That is a match of the texts themselves when the sample hides no patch text and no benchmark text has the
      fingerprint of a different text of it. */
  lemma {:induction false} HitsAreMatches(cfg: Settings, s: Sample, benchmarks: seq<Benchmark>)
    requires Visible(cfg, s)
    ensures MatchesBenchmark(cfg, s, benchmarks) ==> HitsBenchmark(cfg, s, benchmarks)
    ensures Apart(cfg, s, benchmarks) ==> (HitsBenchmark(cfg, s, benchmarks) ==> MatchesBenchmark(cfg, s, benchmarks))
  {
    if MatchesBenchmark(cfg, s, benchmarks) {
      var k, x, m :| 0 <= m < |benchmarks| && HasText(cfg, s, k, x)
                     && SameOrNear(cfg, x, cfg.normalize(BenchmarkText(benchmarks[m], k)));
      VisibleTextIsKept(cfg, s, k, x);
      assert FingerprintsOrNear(cfg, x, cfg.normalize(BenchmarkText(benchmarks[m], k)));
    }
    if Apart(cfg, s, benchmarks) && HitsBenchmark(cfg, s, benchmarks) {
      var k, x, m :| 0 <= m < |benchmarks| && Keeps(cfg, s, k, x)
                     && FingerprintsOrNear(cfg, x, cfg.normalize(BenchmarkText(benchmarks[m], k)));
      KeptIsText(cfg, s, k, x);
      assert SameOrNear(cfg, x, cfg.normalize(BenchmarkText(benchmarks[m], k)));
    }
  }

  ghost predicate InGroupOf(cfg: Settings, s: Sample, parent: Parents, r: Name) {
    r in parent && RepositoryOf(cfg, s).Some? && RepositoryOf(cfg, s).value in parent
    && parent[RepositoryOf(cfg, s).value] == parent[r]
  }

  // With an injective digest nothing hides, and the split is exactly what the texts demand.

  /** Without collisions no two duplicate samples are ever on different sides. */
  lemma {:induction false} NoLeakWithoutCollisions(cfg: Settings, samples: seq<Sample>, benchmarks: seq<Benchmark>,
                                                   groups: Groups, t: Snapshot, i: nat, j: nat)
    requires CollisionFree(cfg) && Safe(cfg, samples, benchmarks, groups, t) && i < |samples| && j < |samples|
    requires Duplicates(cfg, samples[i], samples[j])
    ensures RepositoryOf(cfg, samples[i]).Some? && RepositoryOf(cfg, samples[j]).Some?
    ensures var a, b := RepositoryOf(cfg, samples[i]).value, RepositoryOf(cfg, samples[j]).value;
            a in t.split && b in t.split && t.split[a] == t.split[b]
  {
    CollisionFreeIsVisible(cfg, samples[i], benchmarks);
    CollisionFreeIsVisible(cfg, samples[j], benchmarks);
    NoLeak(cfg, samples, benchmarks, groups, t, i, j);
  }

  /** And a repository is excluded if and only if a sample of its group equals or nearly duplicates a benchmark. */
  lemma {:induction false} ExcludedWithoutCollisions(cfg: Settings, samples: seq<Sample>, benchmarks: seq<Benchmark>,
                                                     groups: Groups, t: Snapshot, r: Name)
    requires CollisionFree(cfg) && Safe(cfg, samples, benchmarks, groups, t) && r in t.parent
    ensures r in t.split
    ensures t.split[r] == Excluded <==>
              exists i :: 0 <= i < |samples| && InGroupOf(cfg, samples[i], t.parent, r)
                          && MatchesBenchmark(cfg, samples[i], benchmarks)
  {
    ExcludedExactly(cfg, samples, benchmarks, groups, t, r);
    forall i | 0 <= i < |samples|
      ensures HitsBenchmark(cfg, samples[i], benchmarks) <==> MatchesBenchmark(cfg, samples[i], benchmarks)
    {
      CollisionFreeIsVisible(cfg, samples[i], benchmarks);
      HitsAreMatches(cfg, samples[i], benchmarks);
    }
  }

  // The statements above for the program's own normalization, near-duplicate test and length window.

  datatype Options = Options(
    canonical: string -> Option<Name>,
    aliases: map<Name, Name>,
    digest: string -> Name,
    matcher: Matcher,
    bucket: Name -> real,
    threshold: real,
    evaluationFraction: real)

  function Configured(o: Options): Settings
    requires 0.0 < o.threshold <= 1.0
  {
    Settings(o.canonical, o.aliases, t => Normalize(t), o.digest,
             (l, r) => IsNear(o.matcher, o.threshold, l, r),
             (n: nat) => CandidateLengthBounds(n, o.threshold),
             o.bucket, o.evaluationFraction)
  }

  lemma {:induction false} ConfiguredIsSound(o: Options)
    requires 0.0 < o.threshold <= 1.0 && MatcherBounded(o.matcher)
    ensures Idempotent(Configured(o)) && WindowKeepsNear(Configured(o)) && Symmetric(Configured(o))
  {
    var cfg := Configured(o);
    forall t ensures cfg.normalize(cfg.normalize(t)) == cfg.normalize(t) {
      NormalizeIdempotent(t);
    }
    forall l, r | cfg.normalize(l) == l && cfg.normalize(r) == r && cfg.near(l, r)
      ensures cfg.window(|l|).0 <= |r| <= cfg.window(|l|).1
    {
      RatioWithinBounds(o.matcher, o.threshold, l, r);
    }
    forall x, y ensures cfg.near(x, y) == cfg.near(y, x) {
      NearSymmetric(o.matcher, o.threshold, x, y);
    }
  }

  /** build_contamination_index: the option checks, then the build in a fresh database. */
  method BuildContaminationIndex(o: Options, samples: seq<Sample>, benchmarks: seq<Benchmark>)
    returns (outcome: Outcome, index: Index?, evidence: Option<Evidence>, ghost groups: Groups)
    requires MatcherBounded(o.matcher)
    ensures outcome.Pass? ==> 0.0 < o.threshold <= 1.0 && 0.0 < o.evaluationFraction < 1.0 && index != null
    ensures outcome.Pass? ==> Safe(Configured(o), samples, benchmarks, groups, index.Contents()) && evidence.Some?
    ensures outcome.Pass? ==> Reported(Configured(o), benchmarks, index.Contents(), evidence.value)
    ensures outcome.Pass? ==> fresh(index)
    ensures outcome.Pass? <==> 0.0 < o.threshold <= 1.0 && 0.0 < o.evaluationFraction < 1.0
                               && Acceptable(Configured(o), samples, benchmarks)
  {
    index, evidence, groups := null, None, NoGroup;
    if !(0.0 < o.threshold <= 1.0) { return Fail(InvalidThreshold), null, None, groups; }
    if !(0.0 < o.evaluationFraction < 1.0) { return Fail(InvalidFraction), null, None, groups; }
    ConfiguredIsSound(o);
    index := new Index(Configured(o));
    outcome, evidence, groups := index.Build(samples, benchmarks);
  }
}
