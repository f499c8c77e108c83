/** What a published split guarantees, said on the fields of the samples and of the benchmark entries. */
module SplitFields {
  import opened Cursors
  import opened Components
  import opened SampleRows
  import opened Contamination
  import opened SplitSafety
  import F = Fingerprints

  /** A sample is filed under the canonical name of its repository, or under what the alias table gives for it. */
  lemma {:induction false} FiledUnder(cfg: Settings, samples: seq<Sample>, benchmarks: seq<Benchmark>, groups: Groups,
                                      t: Snapshot, i: nat)
    requires Safe(cfg, samples, benchmarks, groups, t) && i < |samples|
    ensures cfg.canonical(samples[i].repository).Some? && samples[i].id in t.sampleRepo
    ensures var a := cfg.canonical(samples[i].repository).value;
            t.sampleRepo[samples[i].id] == if a in cfg.aliases then cfg.aliases[a] else a
    ensures t.sampleRepo[samples[i].id] in t.parent && t.sampleRepo[samples[i].id] in t.split
  {
    TableAt(cfg, samples, |samples|, i);
  }

  /** And only repositories of samples are in the table. */
  lemma {:induction false} FromSample(cfg: Settings, samples: seq<Sample>, n: nat, r: Name) returns (i: nat)
    requires n <= |samples| && r in AllRepositories(cfg, samples, n)
    ensures i < n && cfg.canonical(samples[i].repository).Some?
    ensures var a := cfg.canonical(samples[i].repository).value; r == if a in cfg.aliases then cfg.aliases[a] else a
  {
    if r in AllRepositories(cfg, samples, n - 1) { i := FromSample(cfg, samples, n - 1, r); } else { i := n - 1; }
  }

  /** The two samples are in the same group. */
  ghost predicate Grouped(t: Snapshot, s: Sample, r: Name) {
    && s.id in t.sampleRepo && t.sampleRepo[s.id] in t.parent && r in t.parent
    && t.parent[t.sampleRepo[s.id]] == t.parent[r]
  }

  ghost predicate SplitIs(t: Snapshot, s: Sample, which: Split) {
    s.id in t.sampleRepo && t.sampleRepo[s.id] in t.split && t.split[t.sampleRepo[s.id]] == which
  }

  lemma {:induction false} TaskIsKept(cfg: Settings, s: Sample)
    ensures Keeps(cfg, s, Task, cfg.normalize(s.taskText))
  {
    TaskEntry(cfg, s);
  }

  lemma {:induction false} PatchIsKept(cfg: Settings, s: Sample, p: nat)
    requires Visible(cfg, s) && p < |s.patchTexts|
    ensures Keeps(cfg, s, Patch, cfg.normalize(s.patchTexts[p]))
  {
    assert TextsOf(s, Patch)[p] == s.patchTexts[p];
    VisibleTextIsKept(cfg, s, Patch, cfg.normalize(s.patchTexts[p]));
  }

  lemma {:induction false} KeptTogether(cfg: Settings, samples: seq<Sample>, benchmarks: seq<Benchmark>,
                                        groups: Groups, t: Snapshot, i: nat, j: nat, which: Split)
    requires Safe(cfg, samples, benchmarks, groups, t) && i < |samples| && j < |samples|
    requires KeptDuplicates(cfg, samples[i], samples[j])
    ensures SplitIs(t, samples[i], which) <==> SplitIs(t, samples[j], which)
  {
    TableAt(cfg, samples, |samples|, i);
    TableAt(cfg, samples, |samples|, j);
    var a, b := t.sampleRepo[samples[i].id], t.sampleRepo[samples[j].id];
    assert Related(cfg, samples, a, b);
    DuplicatesLink(cfg, samples, benchmarks, groups, t, a, b);
  }

  /** Samples whose task texts normalize alike or are nearly duplicate share a split, whatever the digests. */
  lemma {:induction false} TasksTogether(cfg: Settings, samples: seq<Sample>, benchmarks: seq<Benchmark>,
                                         groups: Groups, t: Snapshot, i: nat, j: nat, which: Split)
    requires Safe(cfg, samples, benchmarks, groups, t) && i < |samples| && j < |samples|
    requires var x, y := cfg.normalize(samples[i].taskText), cfg.normalize(samples[j].taskText);
             x == y || cfg.near(x, y)
    ensures SplitIs(t, samples[i], which) <==> SplitIs(t, samples[j], which)
  {
    TaskIsKept(cfg, samples[i]);
    TaskIsKept(cfg, samples[j]);
    assert SameOrNear(cfg, cfg.normalize(samples[i].taskText), cfg.normalize(samples[j].taskText));
    KeptTogether(cfg, samples, benchmarks, groups, t, i, j, which);
  }

  /** So do samples with patch texts that normalize alike or are nearly duplicate, when neither hides a patch text. */
  lemma {:induction false} PatchesTogether(cfg: Settings, samples: seq<Sample>, benchmarks: seq<Benchmark>,
                                           groups: Groups, t: Snapshot, i: nat, p: nat, j: nat, q: nat, which: Split)
    requires Safe(cfg, samples, benchmarks, groups, t) && i < |samples| && j < |samples|
    requires Visible(cfg, samples[i]) && Visible(cfg, samples[j])
    requires p < |samples[i].patchTexts| && q < |samples[j].patchTexts|
    requires var x, y := cfg.normalize(samples[i].patchTexts[p]), cfg.normalize(samples[j].patchTexts[q]);
             x == y || cfg.near(x, y)
    ensures SplitIs(t, samples[i], which) <==> SplitIs(t, samples[j], which)
  {
    PatchIsKept(cfg, samples[i], p);
    PatchIsKept(cfg, samples[j], q);
    assert SameOrNear(cfg, cfg.normalize(samples[i].patchTexts[p]), cfg.normalize(samples[j].patchTexts[q]));
    KeptTogether(cfg, samples, benchmarks, groups, t, i, j, which);
  }

  // The same for the program's own normalization, near-duplicate test and seeded buckets.

  /** With the options of a run: how a sample is filed, and how a repository that is not excluded is split. */
  lemma {:induction false} ProgramFiles(o: Options, samples: seq<Sample>, benchmarks: seq<Benchmark>, groups: Groups,
                                        t: Snapshot, i: nat)
    requires 0.0 < o.threshold <= 1.0 && Safe(Configured(o), samples, benchmarks, groups, t) && i < |samples|
    ensures o.canonical(samples[i].repository).Some? && samples[i].id in t.sampleRepo
    ensures var a := o.canonical(samples[i].repository).value;
            t.sampleRepo[samples[i].id] == if a in o.aliases then o.aliases[a] else a
    ensures var r := t.sampleRepo[samples[i].id];
            && r in t.parent && r in t.split && t.split[r] in {Train, Evaluation, Excluded}
            && (t.split[r] != Excluded ==> (t.split[r] == Evaluation <==> o.bucket(t.parent[r]) < o.evaluationFraction))
  {
    FiledUnder(Configured(o), samples, benchmarks, groups, t, i);
    ExcludedExactly(Configured(o), samples, benchmarks, groups, t, t.sampleRepo[samples[i].id]);
  }

  /** Tasks with one normalized text, or nearly duplicate by the matcher and the threshold of the run, share a split. */
  lemma {:induction false} ProgramTasksTogether(o: Options, samples: seq<Sample>, benchmarks: seq<Benchmark>,
                                                groups: Groups, t: Snapshot, i: nat, j: nat, which: Split)
    requires 0.0 < o.threshold <= 1.0 && Safe(Configured(o), samples, benchmarks, groups, t)
    requires i < |samples| && j < |samples|
    requires F.Normalize(samples[i].taskText) == F.Normalize(samples[j].taskText)
             || F.IsNear(o.matcher, o.threshold, F.Normalize(samples[i].taskText), F.Normalize(samples[j].taskText))
    ensures SplitIs(t, samples[i], which) <==> SplitIs(t, samples[j], which)
  {
    TasksTogether(Configured(o), samples, benchmarks, groups, t, i, j, which);
  }

  // Benchmark entries: tasks are compared with tasks, patches with patches.

  /** The task, or some patch, of the sample equals or nearly duplicates that of the entry. */
  ghost predicate TaskMatches(cfg: Settings, s: Sample, b: Benchmark) {
    var x, y := cfg.normalize(s.taskText), cfg.normalize(b.taskText);
    x == y || cfg.near(x, y)
  }

  ghost predicate PatchMatches(cfg: Settings, s: Sample, b: Benchmark) {
    exists p :: 0 <= p < |s.patchTexts| && PatchMatchesAt(cfg, s, b, p)
  }

  ghost predicate PatchMatchesAt(cfg: Settings, s: Sample, b: Benchmark, p: nat)
    requires p < |s.patchTexts|
  {
    var x, y := cfg.normalize(s.patchTexts[p]), cfg.normalize(b.patchText);
    x == y || cfg.near(x, y)
  }

  lemma {:induction false} MatchesByFields(cfg: Settings, s: Sample, benchmarks: seq<Benchmark>)
    ensures MatchesBenchmark(cfg, s, benchmarks) <==>
              exists m :: 0 <= m < |benchmarks| && (TaskMatches(cfg, s, benchmarks[m])
                                                    || PatchMatches(cfg, s, benchmarks[m]))
  {
    if MatchesBenchmark(cfg, s, benchmarks) {
      var k, x, m :| 0 <= m < |benchmarks| && HasText(cfg, s, k, x)
                     && SameOrNear(cfg, x, cfg.normalize(BenchmarkText(benchmarks[m], k)));
      var j :| 0 <= j < |TextsOf(s, k)| && cfg.normalize(TextsOf(s, k)[j]) == x;
      if k == Patch { assert PatchMatchesAt(cfg, s, benchmarks[m], j); }
    }
    if m :| 0 <= m < |benchmarks| && (TaskMatches(cfg, s, benchmarks[m]) || PatchMatches(cfg, s, benchmarks[m])) {
      MatchIsMatch(cfg, s, benchmarks, m);
    }
  }

  lemma {:induction false} MatchIsMatch(cfg: Settings, s: Sample, benchmarks: seq<Benchmark>, m: nat)
    requires m < |benchmarks| && (TaskMatches(cfg, s, benchmarks[m]) || PatchMatches(cfg, s, benchmarks[m]))
    ensures MatchesBenchmark(cfg, s, benchmarks)
  {
    var k := if TaskMatches(cfg, s, benchmarks[m]) then Task else Patch;
    var j := 0;
    if k == Patch { j :| 0 <= j < |s.patchTexts| && PatchMatchesAt(cfg, s, benchmarks[m], j); }
    var x := cfg.normalize(TextsOf(s, k)[j]);
    assert HasText(cfg, s, k, x);
    assert SameOrNear(cfg, x, cfg.normalize(BenchmarkText(benchmarks[m], k)));
  }

  lemma {:induction false} HitIsExcluded(cfg: Settings, samples: seq<Sample>, benchmarks: seq<Benchmark>,
                                         groups: Groups, t: Snapshot, i: nat)
    requires Safe(cfg, samples, benchmarks, groups, t) && i < |samples| && HitsBenchmark(cfg, samples[i], benchmarks)
    ensures SplitIs(t, samples[i], Excluded)
  {
    TableAt(cfg, samples, |samples|, i);
    var r := t.sampleRepo[samples[i].id];
    ExcludedExactly(cfg, samples, benchmarks, groups, t, r);
    assert InGroupOf(cfg, samples[i], t.parent, r);
  }

  /** A sample whose task equals or nearly duplicates a benchmark task is excluded, whatever the digests. */
  lemma {:induction false} TaskIsExcluded(cfg: Settings, samples: seq<Sample>, benchmarks: seq<Benchmark>,
                                          groups: Groups, t: Snapshot, i: nat, m: nat)
    requires Safe(cfg, samples, benchmarks, groups, t) && i < |samples| && m < |benchmarks|
    requires TaskMatches(cfg, samples[i], benchmarks[m])
    ensures SplitIs(t, samples[i], Excluded)
  {
    TaskIsKept(cfg, samples[i]);
    var x, y := cfg.normalize(samples[i].taskText), cfg.normalize(benchmarks[m].taskText);
    assert y == cfg.normalize(BenchmarkText(benchmarks[m], Task));
    assert FingerprintsOrNear(cfg, x, y);
    HitIsExcluded(cfg, samples, benchmarks, groups, t, i);
  }

  /** So is one with such a patch, unless the sample hides a patch text. */
  lemma {:induction false} PatchIsExcluded(cfg: Settings, samples: seq<Sample>, benchmarks: seq<Benchmark>,
                                           groups: Groups, t: Snapshot, i: nat, m: nat)
    requires Safe(cfg, samples, benchmarks, groups, t) && i < |samples| && m < |benchmarks|
    requires Visible(cfg, samples[i]) && PatchMatches(cfg, samples[i], benchmarks[m])
    ensures SplitIs(t, samples[i], Excluded)
  {
    var p :| 0 <= p < |samples[i].patchTexts| && PatchMatchesAt(cfg, samples[i], benchmarks[m], p);
    PatchIsKept(cfg, samples[i], p);
    var x, y := cfg.normalize(samples[i].patchTexts[p]), cfg.normalize(benchmarks[m].patchText);
    assert y == cfg.normalize(BenchmarkText(benchmarks[m], Patch));
    assert FingerprintsOrNear(cfg, x, y);
    HitIsExcluded(cfg, samples, benchmarks, groups, t, i);
  }

  /** With an injective digest nothing else is: a repository is excluded if and only if some sample grouped with it
      has the task of a benchmark entry, or one of its patches, up to normalization or near duplication. */
  lemma {:induction false} ExcludedByFields(cfg: Settings, samples: seq<Sample>, benchmarks: seq<Benchmark>,
                                            groups: Groups, t: Snapshot, r: Name)
    requires CollisionFree(cfg) && Safe(cfg, samples, benchmarks, groups, t) && r in t.parent
    ensures r in t.split
    ensures t.split[r] == Excluded <==>
              exists i, m :: 0 <= i < |samples| && 0 <= m < |benchmarks| && Grouped(t, samples[i], r)
                             && (TaskMatches(cfg, samples[i], benchmarks[m])
                                 || PatchMatches(cfg, samples[i], benchmarks[m]))
  {
    ExcludedWithoutCollisions(cfg, samples, benchmarks, groups, t, r);
    forall i | 0 <= i < |samples|
      ensures InGroupOf(cfg, samples[i], t.parent, r) <==> Grouped(t, samples[i], r)
      ensures MatchesBenchmark(cfg, samples[i], benchmarks) <==>
                exists m :: 0 <= m < |benchmarks| && (TaskMatches(cfg, samples[i], benchmarks[m])
                                                      || PatchMatches(cfg, samples[i], benchmarks[m]))
    {
      TableAt(cfg, samples, |samples|, i);
      MatchesByFields(cfg, samples[i], benchmarks);
    }
  }
}
