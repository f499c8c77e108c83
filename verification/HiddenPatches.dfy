/** A split that leaks: a patch text hidden behind another one with its fingerprint is compared with nothing. */
module HiddenPatches {
  import opened Cursors
  import opened Fingerprints
  import opened Components
  import opened ContentTables
  import opened SampleRows
  import opened Contamination
  import opened SplitSafety
  import opened Wrappers

  /** A digest that tells texts apart by their length only. The match count looks at the first letters, which for the
      texts below is all that two of them ever share. */
  function HidingOptions(): Options {
    Options(text => Some(|text|), map[], text => |text|, FirstMatch,
            name => if name == 3 then 0.0 else 1.0, 0.5, 0.5)
  }

  function FirstMatch(l: string, r: string): nat {
    if l != "" && r != "" && l[0] == r[0] then 1 else 0
  }

  /** The first sample's second patch text has the fingerprint of its first one and nearly duplicates the second
      sample's patch. */
  function HidingSamples(): (samples: seq<Sample>)
    ensures |samples| == 2
  {
    [Sample(SampleId("s1"), "o/r", "tt", ["x", "y"]), Sample(SampleId("s2"), "o/rr", "uuu", ["yaa"])]
  }

  function OneBenchmark(): seq<Benchmark> { [Benchmark("b", "gggggggg", "hhhhhhhh")] }

  // What the settings make of these texts.

  ghost predicate Blankless(s: string) {
    s != "" && forall i :: 0 <= i < |s| ==> !IsSpace(s[i])
  }

  /** Texts without white space are their own normal form and have their length as digest; two of them are near if
      they share the first letter and are short, and not if they do not share it. */
  ghost predicate Literal(cfg: Settings) {
    && cfg.aliases == map[] && (forall t :: cfg.canonical(t) == Some(|t|))
    && (forall t {:trigger cfg.normalize(t)} :: Blankless(t) ==> cfg.normalize(t) == t)
    && (forall t :: cfg.digest(t) == |t|)
    && (forall l, r :: NearAsLetters(cfg, l, r))
    && cfg.bucket(3) < cfg.evaluationFraction <= cfg.bucket(4)
  }

  ghost predicate NearAsLetters(cfg: Settings, l: string, r: string) {
    Blankless(l) && Blankless(r) ==>
      (l[0] != r[0] ==> !cfg.near(l, r)) && (l[0] == r[0] && |l| + |r| == 4 ==> cfg.near(l, r))
  }

  lemma {:induction false} BlanklessStays(s: string)
    requires Blankless(s)
    ensures Normalize(s) == s
  {
    assert IsSpace('\n') && IsSpace('\r');
    CanonicalStays(s);
  }

  lemma {:induction false} NoRatio(m: Matcher, l: string, r: string)
    requires m(l, r) == m(r, l) == 0 && |l| + |r| > 0
    ensures MatchRatio(m, l, r) == 0.0
  {
  }

  lemma {:induction false} NoMatch(m: Matcher, l: string, r: string)
    requires Blankless(l) && Blankless(r) && m(l, r) == m(r, l) == 0
    ensures !IsNear(m, 0.5, l, r)
  {
    BlanklessStays(l);
    BlanklessStays(r);
    NoRatio(m, l, r);
  }

  lemma {:induction false} HalfMatch(m: Matcher, l: string, r: string)
    requires Blankless(l) && Blankless(r) && m(l, r) == 1 && |l| + |r| == 4
    ensures IsNear(m, 0.5, l, r)
  {
    BlanklessStays(l);
    BlanklessStays(r);
    assert Ratio(1, 4) == 0.5;
  }

  /** Options the program accepts, with a match count it could have. */
  ghost predicate Usable(o: Options) {
    0.0 < o.threshold <= 1.0 && 0.0 < o.evaluationFraction < 1.0 && MatcherBounded(o.matcher)
  }

  lemma {:induction false} HidingOptionsUsable()
    ensures Usable(HidingOptions())
  {
  }

  lemma {:induction false} HidingIsLiteral()
    ensures Literal(Configured(HidingOptions()))
  {
    var cfg := Configured(HidingOptions());
    forall t | Blankless(t) ensures cfg.normalize(t) == t {
      BlanklessStays(t);
    }
    forall l, r ensures NearAsLetters(cfg, l, r) {
      if Blankless(l) && Blankless(r) {
        if l[0] != r[0] {
          NoMatch(FirstMatch, l, r);
        } else if |l| + |r| == 4 {
          HalfMatch(FirstMatch, l, r);
        }
      }
    }
  }

  // The input is accepted.

  lemma {:induction false} OneText(cfg: Settings, text: string)
    requires Literal(cfg) && Blankless(text)
    ensures EntriesUpTo(cfg, [text], 1) == map[|text| := text]
  {
    assert EntriesUpTo(cfg, [text], 0) == map[];
  }

  lemma {:induction false} HiddenText(cfg: Settings, first: string, second: string)
    requires Literal(cfg) && Blankless(first) && Blankless(second) && |first| == |second|
    ensures EntriesUpTo(cfg, [first, second], 2) == map[|first| := first]
  {
    assert EntriesUpTo(cfg, [first, second], 0) == map[];
    assert EntriesUpTo(cfg, [first, second], 1) == map[|first| := first];
  }

  lemma {:induction false} TaskEntries(cfg: Settings)
    requires Literal(cfg)
    ensures Entries(cfg, HidingSamples()[0], Task) == map[2 := "tt"]
    ensures Entries(cfg, HidingSamples()[1], Task) == map[3 := "uuu"]
  {
    OneText(cfg, "tt");
    OneText(cfg, "uuu");
  }

  lemma {:induction false} PatchEntries(cfg: Settings)
    requires Literal(cfg)
    ensures Entries(cfg, HidingSamples()[0], Patch) == map[1 := "x"]
    ensures Entries(cfg, HidingSamples()[1], Patch) == map[3 := "yaa"]
  {
    HiddenText(cfg, "x", "y");
    OneText(cfg, "yaa");
  }

  lemma {:induction false} HidingIdentified(cfg: Settings)
    requires Literal(cfg)
    ensures IdentifiedAt(cfg, HidingSamples(), 0) && IdentifiedAt(cfg, HidingSamples(), 1)
  {
    var samples := HidingSamples();
    assert SampleTable(cfg, samples, 0) == map[];
    assert SampleTable(cfg, samples, 1) == map[SampleId("s1") := 3];
    assert "s1"[1] != "s2"[1];
  }

  lemma {:induction false} HidingTexts(cfg: Settings)
    requires Literal(cfg)
    ensures GoodTexts(cfg, HidingSamples(), 0) && GoodTexts(cfg, HidingSamples(), 1)
  {
    var samples := HidingSamples();
    TaskEntries(cfg);
    PatchEntries(cfg);
    assert TextsWith(cfg, samples, 0, Task, 3) == {} && TextsWith(cfg, samples, 0, Patch, 3) == {};
    assert TextsWith(cfg, samples, 1, Task, 3) == {} && TextsWith(cfg, samples, 1, Patch, 3) == {};
  }

  lemma {:induction false} HidingAcceptable(cfg: Settings)
    requires Literal(cfg)
    ensures Acceptable(cfg, HidingSamples(), OneBenchmark())
  {
    var samples, benchmarks := HidingSamples(), OneBenchmark();
    HidingIdentified(cfg);
    HidingTexts(cfg);
    assert GoodSamples(cfg, samples, 0) && GoodSamples(cfg, samples, 1) && GoodSamples(cfg, samples, 2);
    assert GoodBenchmarks(cfg, benchmarks, 0) && GoodBenchmarks(cfg, benchmarks, 1);
  }

  lemma {:induction false} HidingDuplicates(cfg: Settings)
    requires Literal(cfg)
    ensures Duplicates(cfg, HidingSamples()[0], HidingSamples()[1]) && !Visible(cfg, HidingSamples()[0])
  {
    var s, t := HidingSamples()[0], HidingSamples()[1];
    assert cfg.normalize(TextsOf(s, Patch)[1]) == "y" && cfg.normalize(TextsOf(t, Patch)[0]) == "yaa";
    assert NearAsLetters(cfg, "y", "yaa");
    assert HasText(cfg, s, Patch, "y") && HasText(cfg, t, Patch, "yaa") && SameOrNear(cfg, "y", "yaa");
    assert Fingerprint(cfg, s.patchTexts[0]) == Fingerprint(cfg, s.patchTexts[1]);
    assert "x"[0] != "y"[0];
  }

  // But nothing puts its two repositories together.

  /** The only text of a kind the index keeps of sample i. */
  function KeptText(i: nat, k: Kind): string {
    match k
    case Task => if i == 0 then "tt" else "uuu"
    case Patch => if i == 0 then "x" else "yaa"
  }

  lemma {:induction false} KeptTexts(cfg: Settings, i: nat, k: Kind, x: string)
    requires Literal(cfg) && i < 2 && Keeps(cfg, HidingSamples()[i], k, x)
    ensures x == KeptText(i, k)
  {
    if k == Task { TaskEntries(cfg); } else { PatchEntries(cfg); }
  }

  lemma {:induction false} NotDuplicates(cfg: Settings, k: Kind)
    requires Literal(cfg)
    ensures !SameOrNear(cfg, KeptText(0, k), KeptText(1, k))
  {
    assert NearAsLetters(cfg, KeptText(0, k), KeptText(1, k));
    assert |KeptText(0, k)| != |KeptText(1, k)|;
  }

  /** Two samples of different repositories, of which the index keeps no duplicate texts. */
  ghost predicate Separate(cfg: Settings, samples: seq<Sample>) {
    && |samples| == 2 && !KeptDuplicates(cfg, samples[0], samples[1])
    && RepositoryOf(cfg, samples[0]) == Some(3) && RepositoryOf(cfg, samples[1]) == Some(4)
  }

  lemma {:induction false} HidingSeparate(cfg: Settings)
    requires Literal(cfg)
    ensures Separate(cfg, HidingSamples())
  {
    var samples := HidingSamples();
    forall k, x, y | Keeps(cfg, samples[0], k, x) && Keeps(cfg, samples[1], k, y) ensures !SameOrNear(cfg, x, y) {
      KeptTexts(cfg, 0, k, x);
      KeptTexts(cfg, 1, k, y);
      NotDuplicates(cfg, k);
    }
  }

  lemma {:induction false} ChainStays(cfg: Settings, samples: seq<Sample>, p: seq<Name>, b: Name)
    requires Separate(cfg, samples) && RelatedChain(cfg, samples, p, 3, b)
    ensures b == 3
    decreases |p|
  {
    if |p| > 1 {
      assert Related(cfg, samples, p[0], p[0 + 1]);
      assert p[1] == 3;
      forall i | 0 <= i < |p[1..]| - 1 ensures Related(cfg, samples, p[1..][i], p[1..][i + 1]) {
        assert Related(cfg, samples, p[i + 1], p[i + 1 + 1]);
      }
      ChainStays(cfg, samples, p[1..], b);
    }
  }

  lemma {:induction false} BenchmarkApart(cfg: Settings, i: nat, k: Kind)
    requires Literal(cfg) && i < 2
    ensures !FingerprintsOrNear(cfg, KeptText(i, k), cfg.normalize(BenchmarkText(OneBenchmark()[0], k)))
  {
    var text := BenchmarkText(OneBenchmark()[0], k);
    assert Blankless(text) && cfg.normalize(text) == text;
    assert NearAsLetters(cfg, KeptText(i, k), text);
    assert |KeptText(i, k)| < |text|;
  }

  lemma {:induction false} NoHit(cfg: Settings, i: nat)
    requires Literal(cfg) && i < 2
    ensures !HitsBenchmark(cfg, HidingSamples()[i], OneBenchmark())
  {
    var s, benchmarks := HidingSamples()[i], OneBenchmark();
    forall k, x, m | 0 <= m < |benchmarks| && Keeps(cfg, s, k, x)
      ensures !FingerprintsOrNear(cfg, x, cfg.normalize(BenchmarkText(benchmarks[m], k)))
    {
      KeptTexts(cfg, i, k, x);
      BenchmarkApart(cfg, i, k);
    }
  }

  lemma {:induction false} OwnRoots(cfg: Settings, samples: seq<Sample>, benchmarks: seq<Benchmark>, groups: Groups,
                                    t: Snapshot)
    requires Safe(cfg, samples, benchmarks, groups, t) && Separate(cfg, samples)
    ensures t.parent.Keys == {3, 4} && t.parent[3] == 3 && t.parent[4] == 4
  {
    assert AllRepositories(cfg, samples, 0) == {};
    assert AllRepositories(cfg, samples, 1) == {3};
    assert t.parent.Keys == {3, 4};
    RootIsLeastOfGroup(cfg, samples, benchmarks, groups, t, 3, 3);
    RootIsLeastOfGroup(cfg, samples, benchmarks, groups, t, 4, 4);
    GroupsAreComponents(cfg, samples, benchmarks, groups, t, 3, 4);
    if p :| RelatedChain(cfg, samples, p, 3, 4) { ChainStays(cfg, samples, p, 4); }
  }

  /** So each goes by its own bucket when no sample hits a benchmark. */
  lemma {:induction false} SplitApart(cfg: Settings, samples: seq<Sample>, benchmarks: seq<Benchmark>, groups: Groups,
                                      t: Snapshot, r: Name)
    requires Safe(cfg, samples, benchmarks, groups, t) && Separate(cfg, samples) && r in {3, 4}
    requires forall i :: 0 <= i < |samples| ==> !HitsBenchmark(cfg, samples[i], benchmarks)
    ensures r in t.split && t.split[r] == if cfg.bucket(r) < cfg.evaluationFraction then Evaluation else Train
  {
    OwnRoots(cfg, samples, benchmarks, groups, t);
    ExcludedExactly(cfg, samples, benchmarks, groups, t, r);
  }

  /** An input the build accepts, with duplicate samples that nothing it compares puts together. */
  ghost predicate Unconnected(cfg: Settings, samples: seq<Sample>, benchmarks: seq<Benchmark>) {
    && Acceptable(cfg, samples, benchmarks) && Separate(cfg, samples) && Duplicates(cfg, samples[0], samples[1])
    && (forall i :: 0 <= i < |samples| ==> !HitsBenchmark(cfg, samples[i], benchmarks))
    && cfg.bucket(3) < cfg.evaluationFraction <= cfg.bucket(4)
  }

  lemma {:induction false} NoHits(cfg: Settings)
    requires Literal(cfg)
    ensures forall i :: 0 <= i < |HidingSamples()| ==> !HitsBenchmark(cfg, HidingSamples()[i], OneBenchmark())
  {
    forall i | 0 <= i < |HidingSamples()| ensures !HitsBenchmark(cfg, HidingSamples()[i], OneBenchmark()) {
      NoHit(cfg, i);
    }
  }

  lemma {:induction false} HidingUnconnected(cfg: Settings)
    requires Literal(cfg)
    ensures Unconnected(cfg, HidingSamples(), OneBenchmark())
  {
    HidingAcceptable(cfg);
    HidingDuplicates(cfg);
    HidingSeparate(cfg);
    NoHits(cfg);
  }

  /** The program's own build then puts the two on opposite sides of the split. */
  method BuildApart(o: Options, samples: seq<Sample>, benchmarks: seq<Benchmark>)
    returns (index: Index, ghost groups: Groups)
    requires Usable(o) && Unconnected(Configured(o), samples, benchmarks)
    ensures Safe(Configured(o), samples, benchmarks, groups, index.Contents())
    ensures 3 in index.split && 4 in index.split && index.split[3] == Evaluation && index.split[4] == Train
  {
    var outcome, built, evidence;
    outcome, built, evidence, groups := BuildContaminationIndex(o, samples, benchmarks);
    index := built;
    SplitApart(Configured(o), samples, benchmarks, groups, index.Contents(), 3);
    SplitApart(Configured(o), samples, benchmarks, groups, index.Contents(), 4);
  }

  /** Such an input: only its digest is not the program's. */
  method HidingInput() returns (o: Options, samples: seq<Sample>, benchmarks: seq<Benchmark>)
    ensures Usable(o) && Unconnected(Configured(o), samples, benchmarks)
  {
    HidingOptionsUsable();
    HidingIsLiteral();
    HidingUnconnected(Configured(HidingOptions()));
    o, samples, benchmarks := HidingOptions(), HidingSamples(), OneBenchmark();
  }

  /** The leak: duplicate samples in an accepted input, one trained on and the other evaluated on. */
  method HiddenPatchLeaks() returns (o: Options, samples: seq<Sample>, benchmarks: seq<Benchmark>, index: Index,
                                     ghost groups: Groups)
    ensures Usable(o) && Unconnected(Configured(o), samples, benchmarks)
    ensures Safe(Configured(o), samples, benchmarks, groups, index.Contents())
    ensures 3 in index.split && 4 in index.split && index.split[3] == Evaluation && index.split[4] == Train
  {
    o, samples, benchmarks := HidingInput();
    index, groups := BuildApart(o, samples, benchmarks);
  }
}
