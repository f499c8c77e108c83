/** The disk-backed contamination index: the steps that fill and update its tables in place. */
module Contamination {
  import opened Cursors
  import opened Components
  import opened ContentTables
  import opened SampleRows
  import opened Wrappers

  datatype Split = Unassigned | Train | Evaluation | Excluded
  datatype Lookup = Found(root: Name) | UnknownRepository

  class Index {
    const cfg: Settings
    var parent: Parents
    var split: map<Name, Split>
    var sampleRepo: map<SampleId, Name>
    var overlap: set<SampleId>
    var task: Values
    var patch: Values
    var benchmarkIds: set<string>
    var excludedRoots: set<Name>

    constructor (cfg: Settings)
      ensures this.cfg == cfg && IsEmpty()
    {
      this.cfg := cfg;
      parent, split, sampleRepo, overlap, benchmarkIds, excludedRoots := map[], map[], map[], {}, {}, {};
      task, patch := Values(map[], map[], map[], map[]), Values(map[], map[], map[], map[]);
    }

    ghost predicate IsEmpty()
      reads this
    {
      && parent == map[] && split == map[] && sampleRepo == map[] && overlap == {} && benchmarkIds == {}
      && excludedRoots == {} && task == patch == Values(map[], map[], map[], map[])
    }

    /** The repository and sample tables after the first n samples have been inserted. */
    ghost predicate Registered(samples: seq<Sample>, n: nat)
      requires n <= |samples|
      reads this
    {
      && parent == Singletons(AllRepositories(cfg, samples, n))
      && split.Keys == parent.Keys && sampleRepo == SampleTable(cfg, samples, n) && Identified(cfg, samples, n)
    }

    /** All tables after the first n samples have been inserted. */
    ghost predicate Ingested(samples: seq<Sample>, n: nat)
      requires n <= |samples|
      reads this
    {
      && Registered(samples, n)
      && Stored(cfg, task.content) && Stored(cfg, patch.content)
      && Filled(cfg, task, samples, n, Task) && Filled(cfg, patch, samples, n, Patch)
    }

    /** One round of the sample loop of build_contamination_index. */
    method InsertSample(samples: seq<Sample>, n: nat) returns (outcome: Outcome)
      requires n < |samples| && Idempotent(cfg) && Ingested(samples, n)
      modifies this`parent, this`split, this`sampleRepo, this`task, this`patch
      ensures outcome.Pass? ==>
                && Ingested(samples, n + 1) && task.benchmark == old(task).benchmark
                && patch.benchmark == old(patch).benchmark
      ensures outcome.Pass? <==> IdentifiedAt(cfg, samples, n) && GoodTexts(cfg, samples, n)
    {
      outcome := Register(samples, n);
      if outcome.Fail? { return; }
      ghost var task0, patch0 := task, patch;
      EntersGood(cfg, task, samples, n, Task);
      EntersGood(cfg, patch, samples, n, Patch);
      outcome := InsertTexts(samples[n], RepositoryOf(cfg, samples[n]).value);
      if outcome.Fail? { return; }
      FilledMore(cfg, task0, task, samples, n, Task);
      FilledMore(cfg, patch0, patch, samples, n, Patch);
    }

    /** The id and the repository of one sample. */
    method Register(samples: seq<Sample>, n: nat) returns (outcome: Outcome)
      requires n < |samples| && Registered(samples, n)
      modifies this`parent, this`split, this`sampleRepo
      ensures outcome.Pass? <==> IdentifiedAt(cfg, samples, n)
      ensures outcome.Pass? ==> Registered(samples, n + 1)
    {
      var sample := samples[n];
      if sample.id.text == "" { return Fail(EmptySampleId); }
      var repository := RepositoryOf(cfg, sample);
      if repository.None? { return Fail(InvalidRepository); }
      if repository.value !in parent {
        parent, split := parent[repository.value := repository.value], split[repository.value := Unassigned];
      }
      if sample.id in sampleRepo { return Fail(DuplicateSample); }
      sampleRepo := sampleRepo[sample.id := repository.value];
      outcome := Pass;
    }

    /** The texts of one sample: its task, then its patches. */
    method InsertTexts(sample: Sample, repository: Name) returns (outcome: Outcome)
      requires Idempotent(cfg) && Stored(cfg, task.content) && Stored(cfg, patch.content)
      modifies this`task, this`patch
      ensures outcome.Pass? ==> Stored(cfg, task.content) && Stored(cfg, patch.content)
      ensures outcome.Pass? ==> Added(old(task), task, Entries(cfg, sample, Task), sample.id, repository)
      ensures outcome.Pass? ==> Added(old(patch), patch, Entries(cfg, sample, Patch), sample.id, repository)
      ensures outcome.Pass? <==> sample.patchTexts != [] && Enters(old(task).content, Entries(cfg, sample, Task))
                                 && Enters(old(patch).content, Entries(cfg, sample, Patch))
    {
      TaskEntry(cfg, sample);
      TaskEnters(cfg, task.content, sample);
      outcome, task := InsertContentValue(cfg, task, sample.taskText, sample.id, repository);
      if outcome.Fail? { return; }
      if sample.patchTexts == [] { return Fail(NoPatchText); }
      outcome, patch := InsertPatchTexts(cfg, patch, sample.patchTexts, sample.id, repository);
    }

    /** The sample loop of build_contamination_index. */
    method InsertSamples(samples: seq<Sample>) returns (outcome: Outcome)
      requires Idempotent(cfg) && IsEmpty()
      modifies this`parent, this`split, this`sampleRepo, this`task, this`patch
      ensures outcome.Pass? ==>
                && Ingested(samples, |samples|) && samples != []
                && task.benchmark == patch.benchmark == map[]
      ensures outcome.Pass? <==> samples != [] && GoodSamples(cfg, samples, |samples|)
    {
      NothingIngested(cfg, samples, Task);
      NothingIngested(cfg, samples, Patch);
      for n := 0 to |samples|
        invariant Ingested(samples, n) && task.benchmark == patch.benchmark == map[]
        invariant GoodSamples(cfg, samples, n)
      {
        outcome := InsertSample(samples, n);
        if outcome.Fail? {
          if GoodSamples(cfg, samples, |samples|) { GoodPrefix(cfg, samples, n + 1, |samples|); }
          return;
        }
      }
      outcome := if samples == [] then Fail(NoSamples) else Pass;
    }

    /** The benchmark loop of build_contamination_index. */
    method InsertBenchmarks(benchmarks: seq<Benchmark>) returns (outcome: Outcome)
      requires Idempotent(cfg) && task.benchmark == patch.benchmark == map[] && benchmarkIds == {}
      modifies this`benchmarkIds, this`task, this`patch
      ensures task == old(task).(benchmark := task.benchmark) && patch == old(patch).(benchmark := patch.benchmark)
      ensures outcome.Pass? ==> BenchmarksStored(cfg, task.benchmark, benchmarks, |benchmarks|, Task)
      ensures outcome.Pass? ==> BenchmarksStored(cfg, patch.benchmark, benchmarks, |benchmarks|, Patch)
      ensures outcome.Pass? <==> benchmarks != [] && GoodBenchmarks(cfg, benchmarks, |benchmarks|)
    {
      NoBenchmarkIngested(cfg, benchmarks, Task);
      NoBenchmarkIngested(cfg, benchmarks, Patch);
      ghost var task0, patch0 := task, patch;
      for n := 0 to |benchmarks|
        invariant task == task0.(benchmark := task.benchmark) && patch == patch0.(benchmark := patch.benchmark)
        invariant benchmarkIds == BenchmarkIds(benchmarks, n)
        invariant BenchmarksStored(cfg, task.benchmark, benchmarks, n, Task)
        invariant BenchmarksStored(cfg, patch.benchmark, benchmarks, n, Patch)
        invariant GoodBenchmarks(cfg, benchmarks, n)
      {
        outcome := InsertBenchmark(benchmarks, n);
        if outcome.Fail? {
          if GoodBenchmarks(cfg, benchmarks, |benchmarks|) {
            GoodBenchmarkPrefix(cfg, benchmarks, n + 1, |benchmarks|);
          }
          return;
        }
      }
      outcome := if benchmarks == [] then Fail(NoBenchmarks) else Pass;
    }

    /** One round of the benchmark loop. */
    method InsertBenchmark(benchmarks: seq<Benchmark>, n: nat) returns (outcome: Outcome)
      requires n < |benchmarks| && Idempotent(cfg) && benchmarkIds == BenchmarkIds(benchmarks, n)
      requires BenchmarksStored(cfg, task.benchmark, benchmarks, n, Task)
      requires BenchmarksStored(cfg, patch.benchmark, benchmarks, n, Patch)
      modifies this`benchmarkIds, this`task, this`patch
      ensures task == old(task).(benchmark := task.benchmark) && patch == old(patch).(benchmark := patch.benchmark)
      ensures outcome.Pass? ==> benchmarkIds == BenchmarkIds(benchmarks, n + 1)
      ensures outcome.Pass? ==> BenchmarksStored(cfg, task.benchmark, benchmarks, n + 1, Task)
      ensures outcome.Pass? ==> BenchmarksStored(cfg, patch.benchmark, benchmarks, n + 1, Patch)
      ensures outcome.Pass? <==> GoodBenchmark(cfg, benchmarks, n)
    {
      BenchmarkFits(cfg, task.benchmark, benchmarks, n, Task);
      BenchmarkFits(cfg, patch.benchmark, benchmarks, n, Patch);
      var entry := benchmarks[n];
      if entry.id == "" { return Fail(EmptyBenchmarkId); }
      if entry.id in benchmarkIds { return Fail(DuplicateBenchmark); }
      benchmarkIds := benchmarkIds + {entry.id};
      var table;
      outcome, table := InsertText(cfg, task.benchmark, entry.taskText);
      if outcome.Fail? { return; }
      BenchmarkAdded(cfg, task.benchmark, benchmarks, n, Task);
      task := task.(benchmark := table);
      outcome, table := InsertText(cfg, patch.benchmark, entry.patchText);
      if outcome.Fail? { return; }
      BenchmarkAdded(cfg, patch.benchmark, benchmarks, n, Patch);
      patch := patch.(benchmark := table);
    }

    function Contents(): Snapshot
      reads this
    {
      Snapshot(parent, split, sampleRepo, overlap, task, patch, excludedRoots)
    }

    /** The four union passes of build_contamination_index. */
    method UnionAll() returns (tasks: Counts, patches: Counts, ghost groups: Groups)
      requires Represents(parent, NoGroup) && Known(task, parent.Keys) && Known(patch, parent.Keys)
      requires Lossless(Among(task, cfg.near), cfg.window)
      requires Lossless(Among(patch, cfg.near), cfg.window)
      modifies this`parent
      ensures parent.Keys == old(parent).Keys && Represents(parent, groups)
      ensures AllLinks(task, patch, cfg.near, groups)
      ensures CountsUnions(tasks, task, cfg.near, cfg.window) && CountsUnions(patches, patch, cfg.near, cfg.window)
    {
      ghost var l1, l2, l3, l4;
      var exactTasks, exactPatches, comparisons, matches;
      exactTasks, l1 := UnionExactGroups(task, NoGroup);
      ghost var g1 := Extend(NoGroup, task, l1);
      exactPatches, l2 := UnionExactGroups(patch, g1);
      ghost var g2 := Extend(g1, patch, l2);
      comparisons, matches, l3 := UnionNearGroups(task, g2);
      tasks := Counts(exactTasks, comparisons, matches);
      ghost var g3 := Extend(g2, task, l3);
      comparisons, matches, l4 := UnionNearGroups(patch, g3);
      patches := Counts(exactPatches, comparisons, matches);
      groups := Extend(g3, patch, l4);
      FourUnions(task, patch, cfg.near, l1, l2, l3, l4);
    }

    /** The four benchmark passes of build_contamination_index. */
    method MarkAll() returns (tasks: Counts, patches: Counts)
      requires overlap == {}
      requires Lossless(Against(task, cfg.near), cfg.window)
      requires Lossless(Against(patch, cfg.near), cfg.window)
      modifies this`overlap
      ensures AllHits(task, patch, cfg.near, overlap)
      ensures CountsHits(tasks, task, cfg.near, cfg.window) && CountsHits(patches, patch, cfg.near, cfg.window)
    {
      ghost var l1, l2, l3, l4;
      var exactTasks, exactPatches, comparisons, matches;
      exactTasks, l1 := MarkExactOverlap(task);
      ghost var m1 := overlap;
      exactPatches, l2 := MarkExactOverlap(patch);
      ghost var m2 := overlap;
      comparisons, matches, l3 := MarkNearOverlap(task);
      tasks := Counts(exactTasks, comparisons, matches);
      ghost var m3 := overlap;
      comparisons, matches, l4 := MarkNearOverlap(patch);
      patches := Counts(exactPatches, comparisons, matches);
      FourMarks(task, patch, cfg.near, l1, l2, l3, l4, m1, m2, m3, overlap);
    }

    /** The insertion half of build_contamination_index. */
    method Fill(samples: seq<Sample>, benchmarks: seq<Benchmark>) returns (outcome: Outcome)
      requires Idempotent(cfg) && IsEmpty()
      modifies this`parent, this`split, this`sampleRepo, this`task, this`patch, this`benchmarkIds
      ensures outcome.Pass? ==> Ingested(samples, |samples|)
      ensures outcome.Pass? ==> BenchmarksStored(cfg, task.benchmark, benchmarks, |benchmarks|, Task)
      ensures outcome.Pass? ==> BenchmarksStored(cfg, patch.benchmark, benchmarks, |benchmarks|, Patch)
      ensures outcome.Pass? <==> Acceptable(cfg, samples, benchmarks)
    {
      outcome := InsertSamples(samples);
      if outcome.Fail? { return; }
      ghost var task0, patch0 := task, patch;
      outcome := InsertBenchmarks(benchmarks);
      FilledKeeps(cfg, task0, task, samples, Task);
      FilledKeeps(cfg, patch0, patch, samples, Patch);
    }

    /** The union, benchmark and compression passes of build_contamination_index. */
    method Group(ghost samples: seq<Sample>) returns (counts: PassCounts, ghost groups: Groups)
      requires WindowKeepsNear(cfg) && Ingested(samples, |samples|) && overlap == {}
      requires Stored(cfg, task.benchmark) && Stored(cfg, patch.benchmark)
      modifies this`parent, this`overlap
      ensures parent.Keys == old(parent).Keys && Represents(parent, groups) && AllLinks(task, patch, cfg.near, groups)
      ensures AllHits(task, patch, cfg.near, overlap) && Counted(cfg, task, patch, counts)
    {
      ReadyToGroup(cfg, samples, task, Task);
      ReadyToGroup(cfg, samples, patch, Patch);
      IdentityRepresents(parent);
      var taskUnions, patchUnions;
      taskUnions, patchUnions, groups := UnionAll();
      var taskHits, patchHits := MarkAll();
      counts := PassCounts(taskUnions, patchUnions, taskHits, patchHits);
      CompressRepositoryGroups();
    }

    /** The evidence record of build_contamination_index. */
    method Report(benchmarks: seq<Benchmark>, counts: PassCounts) returns (evidence: Option<Evidence>)
      requires Counted(cfg, task, patch, counts)
      ensures evidence.Some? && Reported(cfg, benchmarks, Contents(), evidence.value)
    {
      evidence := Some(EvidenceOf(Contents(), |benchmarks|, counts));
    }

    /** The splits, once groups and marks are there. */
    method Settle(ghost samples: seq<Sample>, ghost benchmarks: seq<Benchmark>, ghost groups: Groups)
      requires Filled(cfg, task, samples, |samples|, Task) && Filled(cfg, patch, samples, |samples|, Patch)
      requires BenchmarksStored(cfg, task.benchmark, benchmarks, |benchmarks|, Task) && Stored(cfg, task.content)
      requires BenchmarksStored(cfg, patch.benchmark, benchmarks, |benchmarks|, Patch) && Stored(cfg, patch.content)
      requires sampleRepo == SampleTable(cfg, samples, |samples|) && Identified(cfg, samples, |samples|)
      requires parent.Keys == AllRepositories(cfg, samples, |samples|) && split.Keys == parent.Keys
      requires Represents(parent, groups) && AllLinks(task, patch, cfg.near, groups)
      requires AllHits(task, patch, cfg.near, overlap) && excludedRoots == {}
      modifies this`excludedRoots, this`split
      ensures Published(cfg, samples, benchmarks, groups, Contents())
    {
      MarkedKnown(cfg, samples, task, patch, cfg.near, overlap);
      AssignSplits(cfg.bucket, cfg.evaluationFraction);
    }

    /** The passes that follow the insertions. */
    method Divide(ghost samples: seq<Sample>, ghost benchmarks: seq<Benchmark>)
      returns (counts: PassCounts, ghost groups: Groups)
      requires WindowKeepsNear(cfg) && Ingested(samples, |samples|) && overlap == {} && excludedRoots == {}
      requires BenchmarksStored(cfg, task.benchmark, benchmarks, |benchmarks|, Task)
      requires BenchmarksStored(cfg, patch.benchmark, benchmarks, |benchmarks|, Patch)
      modifies this`parent, this`overlap, this`excludedRoots, this`split
      ensures Published(cfg, samples, benchmarks, groups, Contents()) && Counted(cfg, task, patch, counts)
    {
      counts, groups := Group(samples);
      Settle(samples, benchmarks, groups);
    }

    /** build_contamination_index on an empty database. */
    method Build(samples: seq<Sample>, benchmarks: seq<Benchmark>)
      returns (outcome: Outcome, evidence: Option<Evidence>, ghost groups: Groups)
      requires Idempotent(cfg) && WindowKeepsNear(cfg) && IsEmpty()
      modifies this
      ensures outcome.Pass? ==> Published(cfg, samples, benchmarks, groups, Contents())
      ensures evidence.Some? <==> outcome.Pass?
      ensures outcome.Pass? ==> Reported(cfg, benchmarks, Contents(), evidence.value)
      ensures outcome.Pass? <==> Acceptable(cfg, samples, benchmarks)
    {
      groups, evidence := NoGroup, None;
      outcome := Fill(samples, benchmarks);
      if outcome.Fail? { return; }
      var counts;
      counts, groups := Divide(samples, benchmarks);
      evidence := Report(benchmarks, counts);
    }

    /** _find_root. The table need only be an ordered forest for the walk to end; every name met on the
        way is then pointed at the root. */
    method FindRoot(repository: Name) returns (found: Lookup)
      requires Ordered(parent)
      modifies this`parent
      ensures found.UnknownRepository? <==> repository !in old(parent)
      ensures repository !in old(parent) ==> parent == old(parent)
      ensures repository in old(parent) ==>
                found.root == Root(old(parent), repository) && parent == Compressed(old(parent), repository)
    {
      if repository !in parent { return UnknownRepository; }
      ghost var before := parent;
      var path: seq<Name> := [];
      var current := repository;
      while parent[current] != current
        invariant current in parent && parent == before
        invariant Root(before, current) == Root(before, repository)
        invariant Elements(path) + Walk(before, current) == Walk(before, repository)
        decreases current
      {
        assert OrderedAt(parent, current);
        path := path + [current];
        current := parent[current];
      }
      var root := current;
      assert Elements(path) == Walk(before, repository);
      WalkFacts(before, repository);
      RepointNone(before, root);
      assert Elements(path[..0]) == {};
      for i := 0 to |path|
        invariant parent == Repoint(before, root, Elements(path[..i]))
      {
        assert path[i] in Elements(path);
        ElementsStep(path, i);
        RepointStep(before, root, Elements(path[..i]), path[i]);
        parent := parent[path[i] := root];
      }
      assert path[..|path|] == path;
      return Found(root);
    }

    /** _union_repositories */
    method UnionRepositories(repositories: seq<Name>)
      requires Flat(parent) && Elements(repositories) <= parent.Keys
      modifies this`parent
      ensures parent == Merge(old(parent), Elements(repositories))
    {
      ghost var before := parent;
      var roots: set<Name> := {};
      for i := 0 to |repositories|
        invariant parent == before
        invariant Elements(repositories[..i]) <= before.Keys && roots == Roots(before, Elements(repositories[..i]))
      {
        assert repositories[i] in Elements(repositories);
        FlatCompressed(before, repositories[i]);
        var found := FindRoot(repositories[i]);
        ElementsStep(repositories, i);
        RootsOfMore(before, Elements(repositories[..i]), repositories[i]);
        roots := roots + {found.root};
      }
      assert repositories[..|repositories|] == repositories;
      if |roots| < 2 {
        AtMostOneRoot(before, Elements(repositories));
        return;
      }
      var root := Least(roots);
      var children := roots - {root};
      RedirectNone(before, root);
      assert roots - {root} - children == {};
      while children != {}
        invariant children <= roots - {root}
        invariant parent == Redirect(before, roots - {root} - children, root)
        decreases children
      {
        var child :| child in children;
        RedirectStep(before, roots - {root} - children, root, child);
        parent := Redirect(parent, {child}, root);
        assert roots - {root} - (children - {child}) == roots - {root} - children + {child};
        children := children - {child};
      }
      assert roots - {root} - children == roots - {root};
      RedirectMerges(before, Elements(repositories));
    }

    /** _union_value_repositories */
    method UnionValueRepositories(v: Values, p: Pair, ghost gs: Groups)
      requires Represents(parent, gs) && Known(v, parent.Keys)
      modifies this`parent
      ensures parent.Keys == old(parent).Keys
      ensures Represents(parent, Plus(gs, PairRepositories(v, p)))
    {
      var repositories := OrderBy(PairRepositories(v, p));
      MergeRepresents(parent, gs, PairRepositories(v, p));
      UnionRepositories(repositories);
    }

    /** _union_exact_groups: every value that more than one repository holds. */
    method UnionExactGroups(v: Values, ghost gs: Groups) returns (count: nat, ghost log: Log)
      requires Represents(parent, gs) && Known(v, parent.Keys)
      modifies this`parent
      ensures parent.Keys == old(parent).Keys
      ensures count == |Shared(v)| && PairSet(log) == Doubles(Shared(v))
      ensures Represents(parent, Extend(gs, v, log))
    {
      count, log := 0, Empty;
      var rows := OrderBy(Shared(v));
      AllElements(rows);
      for i := 0 to |rows|
        invariant parent.Keys == old(parent).Keys
        invariant count == i && PairSet(log) == Doubles(Elements(rows[..i]))
        invariant Represents(parent, Extend(gs, v, log))
      {
        var p := Pair(rows[i], rows[i]);
        UnionValueRepositories(v, p, Extend(gs, v, log));
        count := count + 1;
        DoublesStep(rows, i);
        log := Then(log, p);
      }
    }

    /** _union_near_groups: finds every near pair of one kind, each once, and unites its repositories. */
    method UnionNearGroups(v: Values, ghost gs: Groups) returns (comparisons: nat, matches: nat, ghost log: Log)
      requires Lossless(Among(v, cfg.near), cfg.window)
      requires Represents(parent, gs) && Known(v, parent.Keys)
      modifies this`parent
      ensures parent.Keys == old(parent).Keys
      ensures comparisons == |Offered(Later(v, cfg.window), v.content.Keys)|
      ensures matches == |NearPairs(v, cfg.near)| && PairSet(log) == NearPairs(v, cfg.near)
      ensures Represents(parent, Extend(gs, v, log))
    {
      ghost var tested;
      comparisons, matches, log, tested := CompareValues(v, gs);
      FilteredLoopIsComplete(v, cfg.near, cfg.window, tested, Search(comparisons, matches, log));
    }

    /** The double loop of _union_near_groups over values of one kind, narrowed by length. */
    method CompareValues(v: Values, ghost gs: Groups)
      returns (comparisons: nat, matches: nat, ghost log: Log, ghost tested: Log)
      requires Represents(parent, gs) && Known(v, parent.Keys)
      modifies this`parent
      ensures parent.Keys == old(parent).Keys
      ensures Reports(Among(v, cfg.near), Later(v, cfg.window), tested, Search(comparisons, matches, log))
      ensures Represents(parent, Extend(gs, v, log))
    {
      comparisons, matches, log, tested := 0, 0, Empty, Empty;
      ghost var offers := Later(v, cfg.window);
      var rows := OrderBy(v.content.Keys);
      AllElements(rows);
      for i := 0 to |rows|
        invariant parent.Keys == old(parent).Keys && Represents(parent, Extend(gs, v, log))
        invariant Progress(Among(v, cfg.near), offers, Elements(rows[..i]), tested, Search(comparisons, matches, log))
      {
        NewElement(rows, i);
        ghost var inner;
        comparisons, matches, log, inner := CompareWithLater(v, rows[i], comparisons, matches, tested, gs);
        ProgressStep(Among(v, cfg.near), offers, rows, i, inner, tested, Search(comparisons, matches, log));
        tested := Row(tested, rows[i], inner, |inner|);
      }
    }

    /** The inner cursor loop of _union_near_groups for one left value f. */
    method CompareWithLater(v: Values, f: Name, comparisons0: nat, matches0: nat, ghost tested: Log, ghost gs: Groups)
      returns (comparisons: nat, matches: nat, ghost log: Log, ghost rows: seq<Name>)
      requires f in v.content && Known(v, parent.Keys)
               && Represents(parent, Extend(gs, v, Kept(Among(v, cfg.near), tested)))
      requires Tally(Among(v, cfg.near), tested, Search(comparisons0, matches0, Kept(Among(v, cfg.near), tested)))
      modifies this`parent
      ensures StrictlyIncreasing(rows) && Elements(rows) == Later(v, cfg.window)[f]
      ensures Tally(Among(v, cfg.near), Row(tested, f, rows, |rows|), Search(comparisons, matches, log))
      ensures parent.Keys == old(parent).Keys && Represents(parent, Extend(gs, v, log))
    {
      ghost var keys := parent.Keys;
      comparisons, matches, log := comparisons0, matches0, Kept(Among(v, cfg.near), tested);
      var inner := OrderBy(Later(v, cfg.window)[f]);
      for j := 0 to |inner|
        invariant parent.Keys == keys && Represents(parent, Extend(gs, v, log))
        invariant Tally(Among(v, cfg.near), Row(tested, f, inner, j), Search(comparisons, matches, log))
      {
        var p := Pair(f, inner[j]);
        assert inner[j] in Elements(inner);
        TallyStep(Among(v, cfg.near), tested, f, inner, j, Search(comparisons, matches, log));
        comparisons := comparisons + 1;
        var near;
        near, log := UniteIfNear(v, p, gs, log);
        if near { matches := matches + 1; }
      }
      rows := inner;
    }

    /** The test of one pair, and the union of its repositories when it is near. */
    method UniteIfNear(v: Values, p: Pair, ghost gs: Groups, ghost log0: Log) returns (near: bool, ghost log: Log)
      requires p.left in v.content && p.right in v.content && Known(v, parent.Keys)
      requires Represents(parent, Extend(gs, v, log0))
      modifies this`parent
      ensures near == cfg.near(v.content[p.left], v.content[p.right]) && log == if near then Then(log0, p) else log0
      ensures parent.Keys == old(parent).Keys && Represents(parent, Extend(gs, v, log))
    {
      near, log := cfg.near(v.content[p.left], v.content[p.right]), log0;
      if near {
        UnionValueRepositories(v, p, Extend(gs, v, log0));
        log := Then(log0, p);
      }
    }

    /** _mark_value_samples */
    method MarkValueSamples(v: Values, f: Name, ghost marked: set<SampleId>, ghost log: Log, ghost g: Name)
      requires overlap == Marked(marked, v, log)
      modifies this`overlap
      ensures overlap == Marked(marked, v, Then(log, Pair(f, g)))
    {
      overlap := overlap + At(v.samples, f);
    }

    /** _mark_exact_benchmark_overlap */
    method MarkExactOverlap(v: Values) returns (count: nat, ghost log: Log)
      modifies this`overlap
      ensures count == |ExactHits(v)| && PairSet(log) == Doubles(ExactHits(v))
      ensures overlap == Marked(old(overlap), v, log)
    {
      count, log := 0, Empty;
      var rows := OrderBy(ExactHits(v));
      AllElements(rows);
      for i := 0 to |rows|
        invariant count == i && PairSet(log) == Doubles(Elements(rows[..i]))
        invariant overlap == Marked(old(overlap), v, log)
      {
        DoublesStep(rows, i);
        count := count + 1;
        MarkValueSamples(v, rows[i], old(overlap), log, rows[i]);
        log := Then(log, Pair(rows[i], rows[i]));
      }
    }

    /** _mark_near_benchmark_overlap: finds every value near a benchmark value and marks its samples. */
    method MarkNearOverlap(v: Values) returns (comparisons: nat, matches: nat, ghost log: Log)
      requires Lossless(Against(v, cfg.near), cfg.window)
      modifies this`overlap
      ensures comparisons == |Offered(Benchmarks(v, cfg.window), v.content.Keys)|
      ensures matches == |NearHits(v, cfg.near)| && PairSet(log) == NearHits(v, cfg.near)
      ensures overlap == Marked(old(overlap), v, log)
    {
      ghost var tested;
      comparisons, matches, log, tested := CompareAllWithBenchmarks(v);
      FilteredBenchmarkLoopIsComplete(v, cfg.near, cfg.window, tested, Search(comparisons, matches, log));
    }

    /** The double loop of _mark_near_benchmark_overlap, narrowed by length. */
    method CompareAllWithBenchmarks(v: Values)
      returns (comparisons: nat, matches: nat, ghost log: Log, ghost tested: Log)
      modifies this`overlap
      ensures Reports(Against(v, cfg.near), Benchmarks(v, cfg.window), tested, Search(comparisons, matches, log))
      ensures overlap == Marked(old(overlap), v, log)
    {
      ghost var marked := overlap;
      comparisons, matches, log, tested := 0, 0, Empty, Empty;
      ghost var offers := Benchmarks(v, cfg.window);
      var rows := OrderBy(v.content.Keys);
      AllElements(rows);
      for i := 0 to |rows|
        invariant overlap == Marked(marked, v, log)
        invariant Progress(Against(v, cfg.near), offers, Elements(rows[..i]), tested, Search(comparisons, matches, log))
      {
        NewElement(rows, i);
        ghost var inner;
        comparisons, matches, log, inner := CompareWithBenchmarks(v, rows[i], comparisons, matches, tested, marked);
        ProgressStep(Against(v, cfg.near), offers, rows, i, inner, tested, Search(comparisons, matches, log));
        tested := Row(tested, rows[i], inner, |inner|);
      }
    }

    /** The inner cursor loop of _mark_near_benchmark_overlap for one value f. */
    method CompareWithBenchmarks(v: Values, f: Name, comparisons0: nat, matches0: nat, ghost tested: Log,
                                 ghost marked: set<SampleId>)
      returns (comparisons: nat, matches: nat, ghost log: Log, ghost rows: seq<Name>)
      requires f in v.content && overlap == Marked(marked, v, Kept(Against(v, cfg.near), tested))
      requires Tally(Against(v, cfg.near), tested, Search(comparisons0, matches0, Kept(Against(v, cfg.near), tested)))
      modifies this`overlap
      ensures StrictlyIncreasing(rows) && Elements(rows) == Benchmarks(v, cfg.window)[f]
      ensures Tally(Against(v, cfg.near), Row(tested, f, rows, |rows|), Search(comparisons, matches, log))
      ensures overlap == Marked(marked, v, log)
    {
      comparisons, matches, log := comparisons0, matches0, Kept(Against(v, cfg.near), tested);
      var inner := OrderBy(Benchmarks(v, cfg.window)[f]);
      for j := 0 to |inner|
        invariant overlap == Marked(marked, v, log)
        invariant Tally(Against(v, cfg.near), Row(tested, f, inner, j), Search(comparisons, matches, log))
      {
        var p := Pair(f, inner[j]);
        assert inner[j] in Elements(inner);
        TallyStep(Against(v, cfg.near), tested, f, inner, j, Search(comparisons, matches, log));
        comparisons := comparisons + 1;
        if cfg.near(v.content[p.left], v.benchmark[p.right]) {
          matches := matches + 1;
          MarkValueSamples(v, f, marked, log, p.right);
          log := Then(log, p);
        }
      }
      rows := inner;
    }

    /** _compress_repository_groups: every name is pointed at its root once more. */
    method CompressRepositoryGroups()
      requires Flat(parent)
      modifies this`parent
      ensures parent == old(parent)
    {
      var rows := OrderBy(parent.Keys);
      AllElements(rows);
      for i := 0 to |rows|
        invariant parent == old(parent)
      {
        assert rows[i] in Elements(rows);
        FlatCompressed(parent, rows[i]);
        var found := FindRoot(rows[i]);
        parent := parent[rows[i] := found.root];
      }
    }

    /** _assign_splits */
    method AssignSplits(bucket: Name -> real, evaluationFraction: real)
      requires split.Keys == parent.Keys && forall i :: i in overlap ==> i in sampleRepo && sampleRepo[i] in parent
      modifies this`excludedRoots, this`split
      ensures excludedRoots == old(excludedRoots) + OverlapRoots(parent, sampleRepo, overlap)
      ensures split == SplitTable(parent, excludedRoots, bucket, evaluationFraction)
    {
      excludedRoots := excludedRoots + OverlapRoots(parent, sampleRepo, overlap);
      split := map r | r in split :: if parent[r] in excludedRoots then Excluded else split[r];
      ghost var before := split;
      AssignLiveGroups(bucket, evaluationFraction);
      LiveRootsFacts(parent, excludedRoots);
      assert split == SplitTable(parent, excludedRoots, bucket, evaluationFraction) by {
        forall r | r in parent
          ensures AssignedTo(parent, excludedRoots, LiveRoots(parent, excludedRoots), bucket, evaluationFraction,
                  before)[r]
               == SplitOf(parent[r], excludedRoots, bucket, evaluationFraction)
        {
        }
      }
    }

    /** The loop of _assign_splits over the groups that are not excluded. */
    method AssignLiveGroups(bucket: Name -> real, evaluationFraction: real)
      requires split.Keys == parent.Keys
      modifies this`split
      ensures split.Keys == parent.Keys
      ensures split == AssignedTo(parent, excludedRoots, LiveRoots(parent, excludedRoots), bucket, evaluationFraction,
              old(split))
    {
      ghost var before := split;
      var rows := OrderBy(LiveRoots(parent, excludedRoots));
      AllElements(rows);
      LiveRootsFacts(parent, excludedRoots);
      for i := 0 to |rows|
        invariant split == AssignedTo(parent, excludedRoots, Elements(rows[..i]), bucket, evaluationFraction, before)
      {
        NewElement(rows, i);
        ElementsStep(rows, i);
        var root := rows[i];
        AssignStep(parent, excludedRoots, Elements(rows[..i]), bucket, evaluationFraction, before, root);
        var choice := if bucket(root) < evaluationFraction then Evaluation else Train;
        split := map r | r in split :: if parent[r] == root then choice else split[r];
      }
    }
  }

  datatype Snapshot = Snapshot(
    parent: Parents,
    split: map<Name, Split>,
    sampleRepo: map<SampleId, Name>,
    overlap: set<SampleId>,
    task: Values,
    patch: Values,
    excludedRoots: set<Name>)

  /** What the union passes and the benchmark passes report. */
  datatype PassCounts = PassCounts(taskUnions: Counts, patchUnions: Counts, taskHits: Counts, patchHits: Counts)

  ghost predicate Counted(cfg: Settings, task: Values, patch: Values, c: PassCounts) {
    && CountsUnions(c.taskUnions, task, cfg.near, cfg.window)
    && CountsUnions(c.patchUnions, patch, cfg.near, cfg.window)
    && CountsHits(c.taskHits, task, cfg.near, cfg.window) && CountsHits(c.patchHits, patch, cfg.near, cfg.window)
  }

  /** The counts of the decontamination evidence. */
  datatype Evidence = Evidence(
    samples: nat, uniqueTasks: nat, uniquePatches: nat,
    benchmarks: nat, uniqueBenchmarkTasks: nat, uniqueBenchmarkPatches: nat,
    passes: PassCounts,
    overlapSamples: nat, overlapRepositories: nat,
    groups: nat, multiRepositoryGroups: nat, excludedGroups: nat, excludedRepositories: nat)

  /** The queries that fill the evidence from the tables. */
  function EvidenceOf(t: Snapshot, benchmarkCount: nat, passes: PassCounts): Evidence {
    Evidence(
      |t.sampleRepo|, |t.task.content|, |t.patch.content|,
      benchmarkCount, |t.task.benchmark|, |t.patch.benchmark|,
      passes,
      |t.overlap|, |OverlapRepositories(t)|,
      |t.parent.Values|, |SharedRoots(t.parent)|,
      |t.excludedRoots|, |ExcludedRepositories(t)|)
  }

  /** More than one repository has this root. */
  predicate Shares(parent: Parents, root: Name) {
    exists a, b :: a in parent && b in parent && a != b && parent[a] == root && parent[b] == root
  }

  function SharedRoots(parent: Parents): set<Name> {
    set root | root in parent.Values && Shares(parent, root)
  }

  function OverlapRepositories(t: Snapshot): set<Name> {
    set i | i in t.overlap && i in t.sampleRepo :: t.sampleRepo[i]
  }

  function ExcludedRepositories(t: Snapshot): set<Name> {
    set r | r in t.split && t.split[r] == Excluded
  }

  ghost predicate Reported(cfg: Settings, benchmarks: seq<Benchmark>, t: Snapshot, e: Evidence) {
    Counted(cfg, t.task, t.patch, e.passes) && e == EvidenceOf(t, |benchmarks|, e.passes)
  }

  /** What build_contamination_index leaves in its tables. */
  ghost predicate Published(cfg: Settings, samples: seq<Sample>, benchmarks: seq<Benchmark>, groups: Groups,
                            t: Snapshot)
  {
    && Stored(cfg, t.task.content) && Filled(cfg, t.task, samples, |samples|, Task)
    && Stored(cfg, t.patch.content) && Filled(cfg, t.patch, samples, |samples|, Patch)
    && BenchmarksStored(cfg, t.task.benchmark, benchmarks, |benchmarks|, Task)
    && BenchmarksStored(cfg, t.patch.benchmark, benchmarks, |benchmarks|, Patch)
    && t.sampleRepo == SampleTable(cfg, samples, |samples|) && Identified(cfg, samples, |samples|)
    && t.parent.Keys == AllRepositories(cfg, samples, |samples|) && Represents(t.parent, groups)
    && AllLinks(t.task, t.patch, cfg.near, groups)
    && AllHits(t.task, t.patch, cfg.near, t.overlap)
    && (forall i :: i in t.overlap ==> i in t.sampleRepo && t.sampleRepo[i] in t.parent)
    && t.excludedRoots == OverlapRoots(t.parent, t.sampleRepo, t.overlap)
    && t.split == SplitTable(t.parent, t.excludedRoots, cfg.bucket, cfg.evaluationFraction)
  }

  /** Only stored samples are marked. */
  lemma {:induction false} MarkedKnown(cfg: Settings, samples: seq<Sample>, task: Values, patch: Values,
                                       near: NearTest, overlap: set<SampleId>)
    requires Filled(cfg, task, samples, |samples|, Task) && Filled(cfg, patch, samples, |samples|, Patch)
    requires Identified(cfg, samples, |samples|)
    requires AllHits(task, patch, near, overlap)
    ensures forall i :: i in overlap ==>
              && i in SampleTable(cfg, samples, |samples|)
              && SampleTable(cfg, samples, |samples|)[i] in AllRepositories(cfg, samples, |samples|)
  {
    forall i | i in overlap
      ensures i in SampleTable(cfg, samples, |samples|)
              && SampleTable(cfg, samples, |samples|)[i] in AllRepositories(cfg, samples, |samples|)
    {
      var v, k := if ValueHit(task, near, i) then task else patch, if ValueHit(task, near, i) then Task else Patch;
      var p :| p in HitPairs(v, near) && i in At(v.samples, p.left);
      assert FilledAt(cfg, v, samples, |samples|, k, p.left);
      LinksKnown(cfg, samples, |samples|, k, p.left);
    }
  }

  function LiveRoots(parent: Parents, excludedRoots: set<Name>): set<Name> {
    set r | r in parent && parent[r] !in excludedRoots :: parent[r]
  }

  lemma {:induction false} LiveRootsFacts(parent: Parents, excludedRoots: set<Name>)
    ensures forall root :: root in LiveRoots(parent, excludedRoots) ==> root !in excludedRoots
    ensures forall r :: r in parent && parent[r] !in excludedRoots ==> parent[r] in LiveRoots(parent, excludedRoots)
  {
  }

  /** The split table once the groups with a root in done have been assigned. */
  ghost function AssignedTo(parent: Parents, excludedRoots: set<Name>, done: set<Name>, bucket: Name -> real,
                            evaluationFraction: real, before: map<Name, Split>): map<Name, Split>
    requires before.Keys == parent.Keys
  {
    map r | r in parent ::
      if parent[r] in done then SplitOf(parent[r], excludedRoots, bucket, evaluationFraction) else before[r]
  }

  lemma {:induction false} AssignStep(parent: Parents, excludedRoots: set<Name>, done: set<Name>,
                                      bucket: Name -> real, evaluationFraction: real, before: map<Name, Split>,
                                      root: Name)
    requires before.Keys == parent.Keys && root !in excludedRoots
    ensures AssignedTo(parent, excludedRoots, done + {root}, bucket, evaluationFraction, before)
         == map r | r in parent ::
              if parent[r] == root then (if bucket(root) < evaluationFraction then Evaluation else Train)
              else AssignedTo(parent, excludedRoots, done, bucket, evaluationFraction, before)[r]
  {
  }

  function SplitOf(root: Name, excludedRoots: set<Name>, bucket: Name -> real, evaluationFraction: real): Split {
    if root in excludedRoots then Excluded else if bucket(root) < evaluationFraction then Evaluation else Train
  }

  function SplitTable(parent: Parents, excludedRoots: set<Name>, bucket: Name -> real,
                      evaluationFraction: real): map<Name, Split>
  {
    map r | r in parent :: SplitOf(parent[r], excludedRoots, bucket, evaluationFraction)
  }

  function OverlapRoots(parent: Parents, sampleRepo: map<SampleId, Name>, overlap: set<SampleId>): set<Name>
    requires forall i :: i in overlap ==> i in sampleRepo && sampleRepo[i] in parent
  {
    set i | i in overlap :: parent[sampleRepo[i]]
  }
}
