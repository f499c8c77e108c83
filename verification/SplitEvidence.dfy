/** What the counters of the decontamination evidence say about the input. */
module SplitEvidence {
  import opened Cursors
  import opened Sizes
  import opened Components
  import opened ContentTables
  import opened SampleRows
  import opened Contamination
  import opened SplitSafety
  import opened Wrappers

  // The input's own groups.

  ghost function Repositories(cfg: Settings, samples: seq<Sample>): set<Name> {
    AllRepositories(cfg, samples, |samples|)
  }

  ghost predicate Joined(cfg: Settings, samples: seq<Sample>, a: Name, b: Name) {
    exists p :: RelatedChain(cfg, samples, p, a, b)
  }

  /** r is the least name of its component. */
  ghost predicate Leads(cfg: Settings, samples: seq<Sample>, r: Name) {
    && r in Repositories(cfg, samples)
    && forall b :: b in Repositories(cfg, samples) && Joined(cfg, samples, r, b) ==> r <= b
  }

  /** One repository for each component. */
  ghost function Leaders(cfg: Settings, samples: seq<Sample>): set<Name> {
    set r | r in Repositories(cfg, samples) && Leads(cfg, samples, r)
  }

  ghost predicate HasCompany(cfg: Settings, samples: seq<Sample>, r: Name) {
    exists b :: b in Repositories(cfg, samples) && b != r && Joined(cfg, samples, r, b)
  }

  ghost predicate HitInGroup(cfg: Settings, samples: seq<Sample>, benchmarks: seq<Benchmark>, r: Name, i: nat) {
    && i < |samples| && HitsBenchmark(cfg, samples[i], benchmarks)
    && RepositoryOf(cfg, samples[i]).Some? && Joined(cfg, samples, RepositoryOf(cfg, samples[i]).value, r)
  }

  ghost predicate HitGroup(cfg: Settings, samples: seq<Sample>, benchmarks: seq<Benchmark>, r: Name) {
    exists i: nat :: HitInGroup(cfg, samples, benchmarks, r, i)
  }

  lemma {:induction false} RootLeads(cfg: Settings, samples: seq<Sample>, benchmarks: seq<Benchmark>, groups: Groups,
                                     t: Snapshot, r: Name)
    requires Safe(cfg, samples, benchmarks, groups, t)
    ensures r in t.parent.Values <==> Leads(cfg, samples, r)
    ensures r in t.parent.Values ==> t.parent[r] == r
  {
    if r in t.parent.Values {
      var a :| a in t.parent && t.parent[a] == r;
      RootIsLeastOfGroup(cfg, samples, benchmarks, groups, t, a, a);
      forall b | b in t.parent && Joined(cfg, samples, r, b) ensures r <= b {
        GroupsAreComponents(cfg, samples, benchmarks, groups, t, r, b);
        RootIsLeastOfGroup(cfg, samples, benchmarks, groups, t, r, b);
      }
    }
    if Leads(cfg, samples, r) {
      RootIsLeastOfGroup(cfg, samples, benchmarks, groups, t, r, r);
      var root := t.parent[r];
      GroupsAreComponents(cfg, samples, benchmarks, groups, t, r, root);
      assert Joined(cfg, samples, r, root);
    }
  }

  /** There are as many groups as components. */
  lemma {:induction false} GroupsCounted(cfg: Settings, samples: seq<Sample>, benchmarks: seq<Benchmark>,
                                         groups: Groups, t: Snapshot)
    requires Safe(cfg, samples, benchmarks, groups, t)
    ensures t.parent.Values == Leaders(cfg, samples)
  {
    forall r ensures r in t.parent.Values <==> r in Leaders(cfg, samples) {
      RootLeads(cfg, samples, benchmarks, groups, t, r);
    }
  }

  lemma {:induction false} SharedCounted(cfg: Settings, samples: seq<Sample>, benchmarks: seq<Benchmark>,
                                         groups: Groups, t: Snapshot)
    requires Safe(cfg, samples, benchmarks, groups, t)
    ensures SharedRoots(t.parent) == set r | r in Leaders(cfg, samples) && HasCompany(cfg, samples, r)
  {
    GroupsCounted(cfg, samples, benchmarks, groups, t);
    forall r | r in t.parent.Values ensures Shares(t.parent, r) <==> HasCompany(cfg, samples, r) {
      RootLeads(cfg, samples, benchmarks, groups, t, r);
      forall b | b in t.parent ensures t.parent[b] == r <==> Joined(cfg, samples, r, b) {
        GroupsAreComponents(cfg, samples, benchmarks, groups, t, r, b);
      }
    }
  }

  // The samples that hit a benchmark, and what they take with them.

  ghost function HitIds(cfg: Settings, samples: seq<Sample>, benchmarks: seq<Benchmark>): set<SampleId> {
    set i | 0 <= i < |samples| && HitsBenchmark(cfg, samples[i], benchmarks) :: samples[i].id
  }

  ghost function HitRepositories(cfg: Settings, samples: seq<Sample>, benchmarks: seq<Benchmark>): set<Name> {
    set i | 0 <= i < |samples| && HitsBenchmark(cfg, samples[i], benchmarks) && RepositoryOf(cfg, samples[i]).Some?
      :: RepositoryOf(cfg, samples[i]).value
  }

  lemma {:induction false} OverlapCounted(cfg: Settings, samples: seq<Sample>, benchmarks: seq<Benchmark>,
                                          groups: Groups, t: Snapshot)
    requires Safe(cfg, samples, benchmarks, groups, t)
    ensures t.overlap == HitIds(cfg, samples, benchmarks)
  {
    forall id ensures id in t.overlap <==> id in HitIds(cfg, samples, benchmarks) {
      if id in t.overlap { var i := OverlapHits(cfg, samples, benchmarks, groups, t, id); }
      if id in HitIds(cfg, samples, benchmarks) {
        var i :| 0 <= i < |samples| && HitsBenchmark(cfg, samples[i], benchmarks) && samples[i].id == id;
        HitOverlaps(cfg, samples, benchmarks, groups, t, i);
      }
    }
  }

  lemma {:induction false} OverlapRepositoriesCounted(cfg: Settings, samples: seq<Sample>, benchmarks: seq<Benchmark>,
                                                      groups: Groups, t: Snapshot)
    requires Safe(cfg, samples, benchmarks, groups, t)
    ensures OverlapRepositories(t) == HitRepositories(cfg, samples, benchmarks)
  {
    forall r ensures r in OverlapRepositories(t) <==> r in HitRepositories(cfg, samples, benchmarks) {
      if r in OverlapRepositories(t) {
        var id :| id in t.overlap && id in t.sampleRepo && t.sampleRepo[id] == r;
        var i := OverlapHits(cfg, samples, benchmarks, groups, t, id);
        TableAt(cfg, samples, |samples|, i);
      }
      if r in HitRepositories(cfg, samples, benchmarks) {
        var i :| 0 <= i < |samples| && HitsBenchmark(cfg, samples[i], benchmarks)
                 && RepositoryOf(cfg, samples[i]) == Some(r);
        HitOverlaps(cfg, samples, benchmarks, groups, t, i);
        TableAt(cfg, samples, |samples|, i);
        assert samples[i].id in t.overlap;
      }
    }
  }

  lemma {:induction false} ExcludedIsHit(cfg: Settings, samples: seq<Sample>, benchmarks: seq<Benchmark>,
                                         groups: Groups, t: Snapshot, r: Name)
    requires Safe(cfg, samples, benchmarks, groups, t) && r in t.parent
    ensures t.split[r] == Excluded <==> HitGroup(cfg, samples, benchmarks, r)
  {
    ExcludedExactly(cfg, samples, benchmarks, groups, t, r);
    if t.split[r] == Excluded {
      var i :| 0 <= i < |samples| && InGroupOf(cfg, samples[i], t.parent, r)
               && HitsBenchmark(cfg, samples[i], benchmarks);
      GroupsAreComponents(cfg, samples, benchmarks, groups, t, RepositoryOf(cfg, samples[i]).value, r);
      assert HitInGroup(cfg, samples, benchmarks, r, i);
    }
    if i: nat :| HitInGroup(cfg, samples, benchmarks, r, i) {
      TableAt(cfg, samples, |samples|, i);
      GroupsAreComponents(cfg, samples, benchmarks, groups, t, RepositoryOf(cfg, samples[i]).value, r);
      assert InGroupOf(cfg, samples[i], t.parent, r);
    }
  }

  /** Whole components are excluded: those with a sample that hits a benchmark. */
  lemma {:induction false} ExcludedCounted(cfg: Settings, samples: seq<Sample>, benchmarks: seq<Benchmark>,
                                           groups: Groups, t: Snapshot)
    requires Safe(cfg, samples, benchmarks, groups, t)
    ensures ExcludedRepositories(t) == set r | r in Repositories(cfg, samples) && HitGroup(cfg, samples, benchmarks, r)
  {
    forall r | r in t.parent ensures t.split[r] == Excluded <==> HitGroup(cfg, samples, benchmarks, r) {
      ExcludedIsHit(cfg, samples, benchmarks, groups, t, r);
    }
  }

  lemma {:induction false} ExcludedRoot(cfg: Settings, samples: seq<Sample>, benchmarks: seq<Benchmark>,
                                        groups: Groups, t: Snapshot, r: Name)
    requires Safe(cfg, samples, benchmarks, groups, t)
    ensures r in t.excludedRoots <==> Leads(cfg, samples, r) && HitGroup(cfg, samples, benchmarks, r)
  {
    RootLeads(cfg, samples, benchmarks, groups, t, r);
    if r in t.excludedRoots {
      var id :| id in t.overlap && t.parent[t.sampleRepo[id]] == r;
      assert r in t.parent.Values;
    }
    if r in t.parent { ExcludedIsHit(cfg, samples, benchmarks, groups, t, r); }
  }

  lemma {:induction false} ExcludedRootsCounted(cfg: Settings, samples: seq<Sample>, benchmarks: seq<Benchmark>,
                                                groups: Groups, t: Snapshot)
    requires Safe(cfg, samples, benchmarks, groups, t)
    ensures t.excludedRoots == set r | r in Leaders(cfg, samples) && HitGroup(cfg, samples, benchmarks, r)
  {
    forall r ensures r in t.excludedRoots <==> Leads(cfg, samples, r) && HitGroup(cfg, samples, benchmarks, r) {
      ExcludedRoot(cfg, samples, benchmarks, groups, t, r);
    }
  }

  // The texts.

  ghost function KeptPrints(cfg: Settings, samples: seq<Sample>, n: nat, k: Kind): set<Name>
    requires n <= |samples|
  {
    if n == 0 then {} else KeptPrints(cfg, samples, n - 1, k) + Entries(cfg, samples[n - 1], k).Keys
  }

  ghost function BenchmarkPrints(cfg: Settings, benchmarks: seq<Benchmark>, n: nat, k: Kind): set<Name>
    requires n <= |benchmarks|
  {
    if n == 0 then {} else
      BenchmarkPrints(cfg, benchmarks, n - 1, k) + {Fingerprint(cfg, BenchmarkText(benchmarks[n - 1], k))}
  }

  lemma {:induction false} PrintedTexts(cfg: Settings, samples: seq<Sample>, n: nat, k: Kind, f: Name)
    requires n <= |samples|
    ensures f in KeptPrints(cfg, samples, n, k) <==> TextsWith(cfg, samples, n, k, f) != {}
  {
    if n > 0 { PrintedTexts(cfg, samples, n - 1, k, f); }
  }

  lemma {:induction false} PrintedBenchmarks(cfg: Settings, benchmarks: seq<Benchmark>, n: nat, k: Kind, f: Name)
    requires n <= |benchmarks|
    ensures f in BenchmarkPrints(cfg, benchmarks, n, k) <==> BenchmarkTexts(cfg, benchmarks, n, k, f) != {}
  {
    if n > 0 { PrintedBenchmarks(cfg, benchmarks, n - 1, k, f); }
  }

  /** The unique counts are those of the fingerprints of kept texts and of benchmark texts. */
  lemma {:induction false} TextsCounted(cfg: Settings, samples: seq<Sample>, benchmarks: seq<Benchmark>,
                                        groups: Groups, t: Snapshot, k: Kind)
    requires Safe(cfg, samples, benchmarks, groups, t)
    ensures TableOf(t, k).content.Keys == KeptPrints(cfg, samples, |samples|, k)
    ensures TableOf(t, k).benchmark.Keys == BenchmarkPrints(cfg, benchmarks, |benchmarks|, k)
  {
    var v := TableOf(t, k);
    forall f ensures f in v.content <==> f in KeptPrints(cfg, samples, |samples|, k) {
      assert FilledAt(cfg, v, samples, |samples|, k, f);
      PrintedTexts(cfg, samples, |samples|, k, f);
    }
    forall f ensures f in v.benchmark <==> f in BenchmarkPrints(cfg, benchmarks, |benchmarks|, k) {
      assert BenchmarkFilledAt(cfg, v.benchmark, benchmarks, |benchmarks|, k, f);
      PrintedBenchmarks(cfg, benchmarks, |benchmarks|, k, f);
    }
  }

  /** The sample keeps the text x of kind k, and f is its fingerprint. */
  ghost predicate KeepsAs(cfg: Settings, s: Sample, k: Kind, f: Name, x: string) {
    Keeps(cfg, s, k, x) && cfg.digest(x) == f
  }

  ghost predicate KeptAs(cfg: Settings, samples: seq<Sample>, k: Kind, f: Name, x: string) {
    exists i :: 0 <= i < |samples| && KeepsAs(cfg, samples[i], k, f, x)
  }

  ghost predicate BenchmarkAs(cfg: Settings, benchmarks: seq<Benchmark>, k: Kind, g: Name, y: string) {
    exists m :: 0 <= m < |benchmarks| && Fingerprint(cfg, BenchmarkText(benchmarks[m], k)) == g
                && cfg.normalize(BenchmarkText(benchmarks[m], k)) == y
  }

  /** Two kept texts, the smaller fingerprint first, are near duplicates. */
  ghost predicate NearTexts(cfg: Settings, samples: seq<Sample>, k: Kind, p: Pair) {
    p.left < p.right
    && exists x, y :: KeptAs(cfg, samples, k, p.left, x) && KeptAs(cfg, samples, k, p.right, y) && cfg.near(x, y)
  }

  /** A kept text and a benchmark text with another fingerprint are near duplicates. */
  ghost predicate NearBenchmark(cfg: Settings, samples: seq<Sample>, benchmarks: seq<Benchmark>, k: Kind, p: Pair) {
    p.left != p.right
    && exists x, y :: KeptAs(cfg, samples, k, p.left, x) && BenchmarkAs(cfg, benchmarks, k, p.right, y)
                      && cfg.near(x, y)
  }

  lemma {:induction false} ContentIsKept(cfg: Settings, samples: seq<Sample>, benchmarks: seq<Benchmark>,
                                         groups: Groups, t: Snapshot, k: Kind, f: Name, x: string)
    requires Safe(cfg, samples, benchmarks, groups, t)
    ensures f in TableOf(t, k).content && TableOf(t, k).content[f] == x <==> KeptAs(cfg, samples, k, f, x)
  {
    var v := TableOf(t, k);
    if f in v.content && v.content[f] == x {
      assert FilledAt(cfg, v, samples, |samples|, k, f);
      var i := TextCarrier(cfg, samples, |samples|, k, f, x);
      TextsWithDigest(cfg, samples, |samples|, k, f);
      assert KeepsAs(cfg, samples[i], k, f, x);
    }
    if i :| 0 <= i < |samples| && KeepsAs(cfg, samples[i], k, f, x) {
      TextIsStored(cfg, samples, benchmarks, groups, t, i, k, x);
    }
  }

  lemma {:induction false} TextCarrier(cfg: Settings, samples: seq<Sample>, n: nat, k: Kind, f: Name, x: string)
    returns (i: nat)
    requires n <= |samples| && x in TextsWith(cfg, samples, n, k, f)
    ensures i < n && f in Entries(cfg, samples[i], k) && Entries(cfg, samples[i], k)[f] == x
  {
    if x in TextsWith(cfg, samples, n - 1, k, f) {
      i := TextCarrier(cfg, samples, n - 1, k, f, x);
    } else {
      i := n - 1;
    }
  }

  lemma {:induction false} BenchmarkIsText(cfg: Settings, samples: seq<Sample>, benchmarks: seq<Benchmark>,
                                           groups: Groups, t: Snapshot, k: Kind, g: Name, y: string)
    requires Safe(cfg, samples, benchmarks, groups, t)
    ensures g in TableOf(t, k).benchmark && TableOf(t, k).benchmark[g] == y <==> BenchmarkAs(cfg, benchmarks, k, g, y)
  {
    var v := TableOf(t, k);
    assert BenchmarkFilledAt(cfg, v.benchmark, benchmarks, |benchmarks|, k, g);
    if g in v.benchmark && v.benchmark[g] == y {
      var m := BenchmarkCarrier(cfg, benchmarks, |benchmarks|, k, g, y);
    }
    if m :| 0 <= m < |benchmarks| && Fingerprint(cfg, BenchmarkText(benchmarks[m], k)) == g
            && cfg.normalize(BenchmarkText(benchmarks[m], k)) == y
    {
      BenchmarkIsStored(cfg, benchmarks, |benchmarks|, k, m);
    }
  }

  lemma {:induction false} NearPairsAreTexts(cfg: Settings, samples: seq<Sample>, benchmarks: seq<Benchmark>,
                                             groups: Groups, t: Snapshot, k: Kind, p: Pair)
    requires Safe(cfg, samples, benchmarks, groups, t)
    ensures p in NearPairs(TableOf(t, k), cfg.near) <==> NearTexts(cfg, samples, k, p)
  {
    var v := TableOf(t, k);
    if p in NearPairs(v, cfg.near) {
      ContentIsKept(cfg, samples, benchmarks, groups, t, k, p.left, v.content[p.left]);
      ContentIsKept(cfg, samples, benchmarks, groups, t, k, p.right, v.content[p.right]);
    }
    if NearTexts(cfg, samples, k, p) {
      var x, y :| KeptAs(cfg, samples, k, p.left, x) && KeptAs(cfg, samples, k, p.right, y) && cfg.near(x, y);
      ContentIsKept(cfg, samples, benchmarks, groups, t, k, p.left, x);
      ContentIsKept(cfg, samples, benchmarks, groups, t, k, p.right, y);
    }
  }

  lemma {:induction false} NearHitsAreTexts(cfg: Settings, samples: seq<Sample>, benchmarks: seq<Benchmark>,
                                            groups: Groups, t: Snapshot, k: Kind, p: Pair)
    requires Safe(cfg, samples, benchmarks, groups, t)
    ensures p in NearHits(TableOf(t, k), cfg.near) <==> NearBenchmark(cfg, samples, benchmarks, k, p)
  {
    var v := TableOf(t, k);
    if p in NearHits(v, cfg.near) {
      ContentIsKept(cfg, samples, benchmarks, groups, t, k, p.left, v.content[p.left]);
      BenchmarkIsText(cfg, samples, benchmarks, groups, t, k, p.right, v.benchmark[p.right]);
    }
    if NearBenchmark(cfg, samples, benchmarks, k, p) {
      var x, y :| KeptAs(cfg, samples, k, p.left, x) && BenchmarkAs(cfg, benchmarks, k, p.right, y) && cfg.near(x, y);
      ContentIsKept(cfg, samples, benchmarks, groups, t, k, p.left, x);
      BenchmarkIsText(cfg, samples, benchmarks, groups, t, k, p.right, y);
    }
  }

  /** Two repositories have samples that keep a text with this fingerprint. */
  ghost predicate HeldTwice(cfg: Settings, samples: seq<Sample>, k: Kind, f: Name) {
    exists a, b :: a != b && HeldBy(cfg, samples, k, f, a) && HeldBy(cfg, samples, k, f, b)
  }

  ghost predicate HeldBy(cfg: Settings, samples: seq<Sample>, k: Kind, f: Name, r: Name) {
    exists i :: 0 <= i < |samples| && f in Entries(cfg, samples[i], k) && RepositoryOf(cfg, samples[i]) == Some(r)
  }

  lemma {:induction false} HoldersAreLinks(cfg: Settings, samples: seq<Sample>, benchmarks: seq<Benchmark>,
                                           groups: Groups, t: Snapshot, k: Kind, f: Name, r: Name)
    requires Safe(cfg, samples, benchmarks, groups, t)
    ensures r in At(TableOf(t, k).repositories, f) <==> HeldBy(cfg, samples, k, f, r)
  {
    assert FilledAt(cfg, TableOf(t, k), samples, |samples|, k, f);
    if r in At(TableOf(t, k).repositories, f) {
      var i := RepositoryCarrier(cfg, samples, |samples|, k, f, r);
    }
    if i :| 0 <= i < |samples| && f in Entries(cfg, samples[i], k) && RepositoryOf(cfg, samples[i]) == Some(r) {
      InRepositoriesWith(cfg, samples, |samples|, k, f, i);
    }
  }

  lemma {:induction false} HeldIsStored(cfg: Settings, samples: seq<Sample>, benchmarks: seq<Benchmark>,
                                        groups: Groups, t: Snapshot, k: Kind, f: Name, r: Name)
    requires Safe(cfg, samples, benchmarks, groups, t) && HeldBy(cfg, samples, k, f, r)
    ensures f in TableOf(t, k).content
  {
    var i :| 0 <= i < |samples| && f in Entries(cfg, samples[i], k) && RepositoryOf(cfg, samples[i]) == Some(r);
    StoredIsKept(cfg, samples, TableOf(t, k), i, k, f);
  }

  lemma {:induction false} SharedAreHeldTwice(cfg: Settings, samples: seq<Sample>, benchmarks: seq<Benchmark>,
                                              groups: Groups, t: Snapshot, k: Kind, f: Name)
    requires Safe(cfg, samples, benchmarks, groups, t)
    ensures f in Shared(TableOf(t, k)) <==> HeldTwice(cfg, samples, k, f)
  {
    var holders := At(TableOf(t, k).repositories, f);
    OneElement(holders);
    if f in Shared(TableOf(t, k)) {
      var a, b :| a in holders && b in holders && a != b;
      HoldersAreLinks(cfg, samples, benchmarks, groups, t, k, f, a);
      HoldersAreLinks(cfg, samples, benchmarks, groups, t, k, f, b);
    }
    if HeldTwice(cfg, samples, k, f) {
      var a, b :| a != b && HeldBy(cfg, samples, k, f, a) && HeldBy(cfg, samples, k, f, b);
      HoldersAreLinks(cfg, samples, benchmarks, groups, t, k, f, a);
      HoldersAreLinks(cfg, samples, benchmarks, groups, t, k, f, b);
      HeldIsStored(cfg, samples, benchmarks, groups, t, k, f, a);
    }
  }

  // The counters as sizes of sets of the input.

  ghost function PairsOver(left: set<Name>, right: set<Name>): (pairs: set<Pair>)
    ensures forall p :: p in pairs <==> p.left in left && p.right in right
  {
    set f, g | f in left && g in right :: Pair(f, g)
  }

  /** The counts of the passes over the texts of one kind. */
  ghost predicate CountsTexts(cfg: Settings, samples: seq<Sample>, benchmarks: seq<Benchmark>, k: Kind,
                              unions: Counts, hits: Counts)
  {
    var kept, printed := KeptPrints(cfg, samples, |samples|, k), BenchmarkPrints(cfg, benchmarks, |benchmarks|, k);
    && unions.exact == |set f | f in kept && HeldTwice(cfg, samples, k, f)|
    && unions.near == |set p | p in PairsOver(kept, kept) && NearTexts(cfg, samples, k, p)|
    && hits.exact == |kept * printed|
    && hits.near == |set p | p in PairsOver(kept, printed) && NearBenchmark(cfg, samples, benchmarks, k, p)|
  }

  lemma {:induction false} SharedTexts(cfg: Settings, samples: seq<Sample>, benchmarks: seq<Benchmark>,
                                       groups: Groups, t: Snapshot, k: Kind)
    requires Safe(cfg, samples, benchmarks, groups, t)
    ensures var kept := KeptPrints(cfg, samples, |samples|, k);
            Shared(TableOf(t, k)) == set f | f in kept && HeldTwice(cfg, samples, k, f)
  {
    var kept, shared := KeptPrints(cfg, samples, |samples|, k), Shared(TableOf(t, k));
    TextsCounted(cfg, samples, benchmarks, groups, t, k);
    forall f ensures f in shared <==> HeldTwice(cfg, samples, k, f) {
      SharedAreHeldTwice(cfg, samples, benchmarks, groups, t, k, f);
    }
    assert shared <= kept;
  }

  lemma {:induction false} NearPairTexts(cfg: Settings, samples: seq<Sample>, benchmarks: seq<Benchmark>,
                                         groups: Groups, t: Snapshot, k: Kind)
    requires Safe(cfg, samples, benchmarks, groups, t)
    ensures var kept := KeptPrints(cfg, samples, |samples|, k);
            NearPairs(TableOf(t, k), cfg.near) == set p | p in PairsOver(kept, kept) && NearTexts(cfg, samples, k, p)
  {
    var kept, near := KeptPrints(cfg, samples, |samples|, k), NearPairs(TableOf(t, k), cfg.near);
    TextsCounted(cfg, samples, benchmarks, groups, t, k);
    forall p ensures p in near <==> NearTexts(cfg, samples, k, p) {
      NearPairsAreTexts(cfg, samples, benchmarks, groups, t, k, p);
    }
    assert near <= PairsOver(kept, kept);
  }

  lemma {:induction false} NearHitTexts(cfg: Settings, samples: seq<Sample>, benchmarks: seq<Benchmark>,
                                        groups: Groups, t: Snapshot, k: Kind)
    requires Safe(cfg, samples, benchmarks, groups, t)
    ensures var kept := KeptPrints(cfg, samples, |samples|, k);
            var printed := BenchmarkPrints(cfg, benchmarks, |benchmarks|, k);
            NearHits(TableOf(t, k), cfg.near)
            == set p | p in PairsOver(kept, printed) && NearBenchmark(cfg, samples, benchmarks, k, p)
  {
    var kept, printed := KeptPrints(cfg, samples, |samples|, k), BenchmarkPrints(cfg, benchmarks, |benchmarks|, k);
    var near := NearHits(TableOf(t, k), cfg.near);
    TextsCounted(cfg, samples, benchmarks, groups, t, k);
    forall p ensures p in near <==> NearBenchmark(cfg, samples, benchmarks, k, p) {
      NearHitsAreTexts(cfg, samples, benchmarks, groups, t, k, p);
    }
    assert near <= PairsOver(kept, printed);
  }

  lemma {:induction false} PassesCounted(cfg: Settings, samples: seq<Sample>, benchmarks: seq<Benchmark>,
                                         groups: Groups, t: Snapshot, k: Kind, unions: Counts, hits: Counts)
    requires Safe(cfg, samples, benchmarks, groups, t)
    requires CountsUnions(unions, TableOf(t, k), cfg.near, cfg.window)
    requires CountsHits(hits, TableOf(t, k), cfg.near, cfg.window)
    ensures CountsTexts(cfg, samples, benchmarks, k, unions, hits)
  {
    TextsCounted(cfg, samples, benchmarks, groups, t, k);
    SharedTexts(cfg, samples, benchmarks, groups, t, k);
    NearPairTexts(cfg, samples, benchmarks, groups, t, k);
    NearHitTexts(cfg, samples, benchmarks, groups, t, k);
  }

  /** All samples and benchmarks are counted. */
  lemma {:induction false} InputIsCounted(cfg: Settings, samples: seq<Sample>, benchmarks: seq<Benchmark>,
                                          groups: Groups, t: Snapshot, e: Evidence)
    requires Safe(cfg, samples, benchmarks, groups, t) && Reported(cfg, benchmarks, t, e)
    ensures e.samples == |samples| && e.benchmarks == |benchmarks|
  {
    TableSize(cfg, samples, |samples|);
  }

  /** The unique counts are the distinct fingerprints of each kind. */
  lemma {:induction false} UniqueEvidenceIsTrue(cfg: Settings, samples: seq<Sample>, benchmarks: seq<Benchmark>,
                                                groups: Groups, t: Snapshot, e: Evidence)
    requires Safe(cfg, samples, benchmarks, groups, t) && Reported(cfg, benchmarks, t, e)
    ensures e.uniqueTasks == |KeptPrints(cfg, samples, |samples|, Task)|
    ensures e.uniquePatches == |KeptPrints(cfg, samples, |samples|, Patch)|
    ensures e.uniqueBenchmarkTasks == |BenchmarkPrints(cfg, benchmarks, |benchmarks|, Task)|
    ensures e.uniqueBenchmarkPatches == |BenchmarkPrints(cfg, benchmarks, |benchmarks|, Patch)|
  {
    UniqueTexts(cfg, samples, benchmarks, groups, t, Task);
    UniqueTexts(cfg, samples, benchmarks, groups, t, Patch);
  }

  lemma {:induction false} UniqueTexts(cfg: Settings, samples: seq<Sample>, benchmarks: seq<Benchmark>,
                                       groups: Groups, t: Snapshot, k: Kind)
    requires Safe(cfg, samples, benchmarks, groups, t)
    ensures |TableOf(t, k).content| == |KeptPrints(cfg, samples, |samples|, k)|
    ensures |TableOf(t, k).benchmark| == |BenchmarkPrints(cfg, benchmarks, |benchmarks|, k)|
  {
    TextsCounted(cfg, samples, benchmarks, groups, t, k);
    assert |TableOf(t, k).content| == |TableOf(t, k).content.Keys|;
    assert |TableOf(t, k).benchmark| == |TableOf(t, k).benchmark.Keys|;
  }

  /** The counters of the passes: the texts and the pairs of texts that link repositories or hit benchmarks. */
  lemma {:induction false} TextEvidenceIsTrue(cfg: Settings, samples: seq<Sample>, benchmarks: seq<Benchmark>,
                                              groups: Groups, t: Snapshot, e: Evidence)
    requires Safe(cfg, samples, benchmarks, groups, t) && Reported(cfg, benchmarks, t, e)
    ensures CountsTexts(cfg, samples, benchmarks, Task, e.passes.taskUnions, e.passes.taskHits)
    ensures CountsTexts(cfg, samples, benchmarks, Patch, e.passes.patchUnions, e.passes.patchHits)
  {
    PassesCounted(cfg, samples, benchmarks, groups, t, Task, e.passes.taskUnions, e.passes.taskHits);
    PassesCounted(cfg, samples, benchmarks, groups, t, Patch, e.passes.patchUnions, e.passes.patchHits);
  }

  /** The counters over groups: components, those with more than one repository, the samples and repositories that
      hit a benchmark, and the components and repositories that these take with them. */
  lemma {:induction false} GroupEvidenceIsTrue(cfg: Settings, samples: seq<Sample>, benchmarks: seq<Benchmark>,
                                               groups: Groups, t: Snapshot, e: Evidence)
    requires Safe(cfg, samples, benchmarks, groups, t) && Reported(cfg, benchmarks, t, e)
    ensures e.groups == |Leaders(cfg, samples)|
    ensures e.multiRepositoryGroups == |set r | r in Leaders(cfg, samples) && HasCompany(cfg, samples, r)|
    ensures e.overlapSamples == |HitIds(cfg, samples, benchmarks)|
    ensures e.overlapRepositories == |HitRepositories(cfg, samples, benchmarks)|
    ensures e.excludedGroups == |set r | r in Leaders(cfg, samples) && HitGroup(cfg, samples, benchmarks, r)|
    ensures e.excludedRepositories
            == |set r | r in Repositories(cfg, samples) && HitGroup(cfg, samples, benchmarks, r)|
  {
    GroupsCounted(cfg, samples, benchmarks, groups, t);
    SharedCounted(cfg, samples, benchmarks, groups, t);
    OverlapCounted(cfg, samples, benchmarks, groups, t);
    OverlapRepositoriesCounted(cfg, samples, benchmarks, groups, t);
    ExcludedCounted(cfg, samples, benchmarks, groups, t);
    ExcludedRootsCounted(cfg, samples, benchmarks, groups, t);
  }

  // What these sizes have to do with one another.

  /** There are as many groups as repositories if and only if no group has two. */
  lemma {:induction false} GroupCounts(parent: Parents)
    requires Flat(parent)
    ensures parent.Values <= parent.Keys && |parent.Values| <= |parent|
    ensures |parent.Values| == |parent| <==> forall root :: root in parent.Values ==> !Shares(parent, root)
  {
    forall root | root in parent.Values ensures root in parent && parent[root] == root {
      var a :| a in parent && parent[a] == root;
      assert FlatAt(parent, a);
    }
    SubsetSize(parent.Values, parent.Keys);
    if |parent.Values| == |parent| {
      forall root | root in parent.Values ensures !Shares(parent, root) {
        forall a | a in parent ensures parent[a] == a {
          assert a in parent.Values;
        }
      }
    }
    if forall root :: root in parent.Values ==> !Shares(parent, root) {
      forall a | a in parent ensures a in parent.Values {
        assert parent[a] in parent.Values && !Shares(parent, parent[a]);
      }
    }
  }

  /** So no group is shared if and only if each repository is its own group, and something is excluded if and only if
      some sample hits a benchmark. */
  lemma {:induction false} EvidenceIsTrue(cfg: Settings, samples: seq<Sample>, benchmarks: seq<Benchmark>,
                                          groups: Groups, t: Snapshot, e: Evidence)
    requires Safe(cfg, samples, benchmarks, groups, t) && Reported(cfg, benchmarks, t, e)
    ensures e.groups <= |t.parent| && (e.multiRepositoryGroups == 0 <==> e.groups == |t.parent|)
    ensures e.excludedGroups <= e.groups && e.excludedGroups <= e.excludedRepositories <= |t.parent|
    ensures e.overlapSamples == 0 <==> e.excludedGroups == 0
    ensures e.overlapSamples == 0 <==> forall i :: 0 <= i < |samples| ==> !HitsBenchmark(cfg, samples[i], benchmarks)
  {
    GroupCounts(t.parent);
    SharedCounts(t.parent);
    OverlapCounts(cfg, samples, benchmarks, groups, t);
    ExcludedBounds(cfg, samples, benchmarks, groups, t);
  }

  lemma {:induction false} SharedCounts(parent: Parents)
    ensures |SharedRoots(parent)| == 0 <==> forall root :: root in parent.Values ==> !Shares(parent, root)
  {
    if forall root :: root in parent.Values ==> !Shares(parent, root) {
      forall root ensures root !in SharedRoots(parent) {
      }
      assert SharedRoots(parent) == {};
    }
    forall root | root in parent.Values && Shares(parent, root) ensures root in SharedRoots(parent) {
    }
  }

  lemma {:induction false} OverlapCounts(cfg: Settings, samples: seq<Sample>, benchmarks: seq<Benchmark>,
                                         groups: Groups, t: Snapshot)
    requires Safe(cfg, samples, benchmarks, groups, t)
    ensures |t.overlap| == 0 <==> |t.excludedRoots| == 0
    ensures |t.overlap| == 0 <==> forall i :: 0 <= i < |samples| ==> !HitsBenchmark(cfg, samples[i], benchmarks)
  {
    if t.overlap != {} {
      var id :| id in t.overlap;
      var i := OverlapHits(cfg, samples, benchmarks, groups, t, id);
      assert t.parent[t.sampleRepo[id]] in t.excludedRoots;
    }
    forall i | 0 <= i < |samples| && HitsBenchmark(cfg, samples[i], benchmarks) ensures samples[i].id in t.overlap {
      HitOverlaps(cfg, samples, benchmarks, groups, t, i);
    }
  }

  lemma {:induction false} ExcludedBounds(cfg: Settings, samples: seq<Sample>, benchmarks: seq<Benchmark>,
                                          groups: Groups, t: Snapshot)
    requires Safe(cfg, samples, benchmarks, groups, t)
    ensures |t.excludedRoots| <= |t.parent.Values|
    ensures |t.excludedRoots| <= |ExcludedRepositories(t)| <= |t.parent|
  {
    forall root | root in t.excludedRoots ensures root in t.parent.Values && root in ExcludedRepositories(t) {
      var a :| a in t.parent && t.parent[a] == root;
      assert FlatAt(t.parent, a);
    }
    SubsetSize(t.excludedRoots, t.parent.Values);
    SubsetSize(t.excludedRoots, ExcludedRepositories(t));
    SubsetSize(ExcludedRepositories(t), t.parent.Keys);
  }

  // The comparisons: the pairs of texts whose lengths allow that they are near duplicates.

  /** Two kept texts, the smaller fingerprint first, the second within the length window of the first. */
  ghost predicate ComparedTexts(cfg: Settings, samples: seq<Sample>, k: Kind, p: Pair) {
    p.left < p.right
    && exists x, y :: KeptAs(cfg, samples, k, p.left, x) && KeptAs(cfg, samples, k, p.right, y) && InWindow(cfg, x, y)
  }

  /** A kept text and a benchmark text with another fingerprint within its length window. */
  ghost predicate ComparedBenchmark(cfg: Settings, samples: seq<Sample>, benchmarks: seq<Benchmark>, k: Kind,
                                    p: Pair)
  {
    p.left != p.right
    && exists x, y :: KeptAs(cfg, samples, k, p.left, x) && BenchmarkAs(cfg, benchmarks, k, p.right, y)
                      && InWindow(cfg, x, y)
  }

  ghost predicate InWindow(cfg: Settings, x: string, y: string) {
    cfg.window(|x|).0 <= |y| <= cfg.window(|x|).1
  }

  lemma {:induction false} OfferedAreTexts(cfg: Settings, samples: seq<Sample>, benchmarks: seq<Benchmark>,
                                           groups: Groups, t: Snapshot, k: Kind, p: Pair)
    requires Safe(cfg, samples, benchmarks, groups, t)
    ensures var v := TableOf(t, k);
            p in Offered(Later(v, cfg.window), v.content.Keys) <==> ComparedTexts(cfg, samples, k, p)
  {
    var v := TableOf(t, k);
    if p in Offered(Later(v, cfg.window), v.content.Keys) {
      ContentIsKept(cfg, samples, benchmarks, groups, t, k, p.left, v.content[p.left]);
      ContentIsKept(cfg, samples, benchmarks, groups, t, k, p.right, v.content[p.right]);
    }
    if ComparedTexts(cfg, samples, k, p) {
      var x, y :| KeptAs(cfg, samples, k, p.left, x) && KeptAs(cfg, samples, k, p.right, y) && InWindow(cfg, x, y);
      ContentIsKept(cfg, samples, benchmarks, groups, t, k, p.left, x);
      ContentIsKept(cfg, samples, benchmarks, groups, t, k, p.right, y);
    }
  }

  lemma {:induction false} OfferedAreBenchmarks(cfg: Settings, samples: seq<Sample>, benchmarks: seq<Benchmark>,
                                                groups: Groups, t: Snapshot, k: Kind, p: Pair)
    requires Safe(cfg, samples, benchmarks, groups, t)
    ensures var v := TableOf(t, k);
            p in Offered(Benchmarks(v, cfg.window), v.content.Keys) <==>
              ComparedBenchmark(cfg, samples, benchmarks, k, p)
  {
    var v := TableOf(t, k);
    if p in Offered(Benchmarks(v, cfg.window), v.content.Keys) {
      ContentIsKept(cfg, samples, benchmarks, groups, t, k, p.left, v.content[p.left]);
      BenchmarkIsText(cfg, samples, benchmarks, groups, t, k, p.right, v.benchmark[p.right]);
    }
    if ComparedBenchmark(cfg, samples, benchmarks, k, p) {
      var x, y :| KeptAs(cfg, samples, k, p.left, x) && BenchmarkAs(cfg, benchmarks, k, p.right, y)
                  && InWindow(cfg, x, y);
      ContentIsKept(cfg, samples, benchmarks, groups, t, k, p.left, x);
      BenchmarkIsText(cfg, samples, benchmarks, groups, t, k, p.right, y);
    }
  }

  lemma {:induction false} KindComparisons(cfg: Settings, samples: seq<Sample>, benchmarks: seq<Benchmark>,
                                           groups: Groups, t: Snapshot, k: Kind)
    requires Safe(cfg, samples, benchmarks, groups, t)
    ensures var v, kept := TableOf(t, k), KeptPrints(cfg, samples, |samples|, k);
            Offered(Later(v, cfg.window), v.content.Keys)
            == set p | p in PairsOver(kept, kept) && ComparedTexts(cfg, samples, k, p)
    ensures var v, kept := TableOf(t, k), KeptPrints(cfg, samples, |samples|, k);
            var printed := BenchmarkPrints(cfg, benchmarks, |benchmarks|, k);
            Offered(Benchmarks(v, cfg.window), v.content.Keys)
            == set p | p in PairsOver(kept, printed) && ComparedBenchmark(cfg, samples, benchmarks, k, p)
  {
    var v, kept := TableOf(t, k), KeptPrints(cfg, samples, |samples|, k);
    var printed := BenchmarkPrints(cfg, benchmarks, |benchmarks|, k);
    TextsCounted(cfg, samples, benchmarks, groups, t, k);
    var offered, against := Offered(Later(v, cfg.window), v.content.Keys),
                            Offered(Benchmarks(v, cfg.window), v.content.Keys);
    forall p ensures p in offered <==> p in PairsOver(kept, kept) && ComparedTexts(cfg, samples, k, p) {
      OfferedAreTexts(cfg, samples, benchmarks, groups, t, k, p);
    }
    forall p
      ensures p in against <==> p in PairsOver(kept, printed) && ComparedBenchmark(cfg, samples, benchmarks, k, p)
    {
      OfferedAreBenchmarks(cfg, samples, benchmarks, groups, t, k, p);
    }
  }

  ghost predicate CountsComparisons(cfg: Settings, samples: seq<Sample>, benchmarks: seq<Benchmark>, k: Kind,
                                    unions: Counts, hits: Counts)
  {
    var kept, printed := KeptPrints(cfg, samples, |samples|, k), BenchmarkPrints(cfg, benchmarks, |benchmarks|, k);
    && unions.comparisons == |set p | p in PairsOver(kept, kept) && ComparedTexts(cfg, samples, k, p)|
    && hits.comparisons == |set p | p in PairsOver(kept, printed) && ComparedBenchmark(cfg, samples, benchmarks, k, p)|
  }

  /** The comparisons counted are the pairs of distinct texts within the length window, each once. */
  lemma {:induction false} ComparisonsAreTrue(cfg: Settings, samples: seq<Sample>, benchmarks: seq<Benchmark>,
                                              groups: Groups, t: Snapshot, e: Evidence)
    requires Safe(cfg, samples, benchmarks, groups, t) && Reported(cfg, benchmarks, t, e)
    ensures CountsComparisons(cfg, samples, benchmarks, Task, e.passes.taskUnions, e.passes.taskHits)
    ensures CountsComparisons(cfg, samples, benchmarks, Patch, e.passes.patchUnions, e.passes.patchHits)
  {
    KindComparisons(cfg, samples, benchmarks, groups, t, Task);
    KindComparisons(cfg, samples, benchmarks, groups, t, Patch);
  }
}
