/** iter_assignments: each sample with its repository, its group and its split, in the order of the sample ids. */
module Assignments {
  import opened Cursors
  import opened Json
  import opened Components
  import opened ContentTables
  import C = Contamination
  import S = SampleRows
  import T = SplitSafety
  import W = SplitWriter

  // ORDER BY sample_id

  predicate Earlier(a: SampleId, b: SampleId) {
    Less(a.text, b.text)
  }

  predicate IsEarliest(ids: set<SampleId>, a: SampleId) {
    a in ids && forall b :: b in ids && b != a ==> Earlier(a, b)
  }

  lemma {:induction false} EarlierTotal(a: SampleId, b: SampleId)
    ensures a == b || Earlier(a, b) || Earlier(b, a)
    ensures !(Earlier(a, b) && Earlier(b, a))
  {
    LessTotal(a.text, b.text, 0);
    LessIrreflexive(a.text, 0);
    if Earlier(a, b) && Earlier(b, a) { LessTrans(a.text, b.text, a.text, 0); }
  }

  lemma {:induction false} EarliestExists(ids: set<SampleId>)
    requires ids != {}
    ensures exists a :: IsEarliest(ids, a)
  {
    var x :| x in ids;
    var rest := ids - {x};
    if rest == {} {
      assert ids == {x} && IsEarliest(ids, x);
    } else {
      EarliestExists(rest);
      var a :| IsEarliest(rest, a);
      EarlierTotal(x, a);
      var first := if Earlier(x, a) then x else a;
      forall b | b in ids && b != first ensures Earlier(first, b) {
        if b != x {
          assert b in rest;
          if b != a && first == x { LessTrans(x.text, a.text, b.text, 0); }
        }
      }
      assert IsEarliest(ids, first);
    }
  }

  lemma {:induction false} EarliestUnique(ids: set<SampleId>)
    ensures forall a, b :: IsEarliest(ids, a) && IsEarliest(ids, b) ==> a == b
  {
    forall a, b | IsEarliest(ids, a) && IsEarliest(ids, b) ensures a == b {
      EarlierTotal(a, b);
    }
  }

  function Earliest(ids: set<SampleId>): (a: SampleId)
    requires ids != {}
    ensures IsEarliest(ids, a)
  {
    EarliestExists(ids);
    EarliestUnique(ids);
    var a :| IsEarliest(ids, a);
    a
  }

  ghost predicate InOrder(ids: seq<SampleId>) {
    forall i, j :: 0 <= i < j < |ids| ==> Earlier(ids[i], ids[j])
  }

  /** The sample ids in order. */
  method OrderSamples(ids: set<SampleId>) returns (ordered: seq<SampleId>)
    ensures InOrder(ordered) && |ordered| == |ids| && forall id :: id in ordered <==> id in ids
  {
    ordered := [];
    var rest := ids;
    while rest != {}
      invariant InOrder(ordered) && |ordered| + |rest| == |ids| && rest <= ids
      invariant forall id :: id in ids <==> id in ordered || id in rest
      invariant forall i, id :: 0 <= i < |ordered| && id in rest ==> Earlier(ordered[i], id)
      decreases rest
    {
      var first := Earliest(rest);
      ordered := ordered + [first];
      rest := rest - {first};
    }
  }

  // The join with the repositories.

  function SplitName(split: C.Split): string {
    match split
    case Train => "train"
    case Evaluation => "evaluation"
    case Excluded => "excluded"
    case Unassigned => ""
  }

  /** The row of one sample. */
  function RowOf(text: Name -> string, t: C.Snapshot, id: SampleId): W.Assignment
    requires id in t.sampleRepo && t.sampleRepo[id] in t.parent && t.sampleRepo[id] in t.split
  {
    var repository := t.sampleRepo[id];
    W.Assignment(text(t.parent[repository]), text(repository), id.text, SplitName(t.split[repository]))
  }

  ghost predicate Joinable(t: C.Snapshot) {
    forall id :: id in t.sampleRepo ==> t.sampleRepo[id] in t.parent && t.sampleRepo[id] in t.split
  }

  method Assign(text: Name -> string, t: C.Snapshot) returns (assignments: seq<W.Assignment>, ghost ids: seq<SampleId>)
    requires Joinable(t)
    ensures InOrder(ids) && |ids| == |t.sampleRepo| && forall id :: id in ids <==> id in t.sampleRepo
    ensures |assignments| == |ids|
    ensures forall j :: 0 <= j < |ids| ==> ids[j] in t.sampleRepo && assignments[j] == RowOf(text, t, ids[j])
  {
    var ordered := OrderSamples(t.sampleRepo.Keys);
    ids, assignments := ordered, [];
    for n := 0 to |ordered|
      invariant |assignments| == n
      invariant forall j :: 0 <= j < n ==> ordered[j] in t.sampleRepo && assignments[j] == RowOf(text, t, ordered[j])
    {
      assert ordered[n] in ordered;
      assignments := assignments + [RowOf(text, t, ordered[n])];
    }
  }

  /** The row says of sample i what the tables hold: its repository, that repository's root, and its split. */
  ghost predicate RowTells(cfg: S.Settings, text: Name -> string, t: C.Snapshot, s: S.Sample, a: W.Assignment) {
    && S.RepositoryOf(cfg, s).Some?
    && S.RepositoryOf(cfg, s).value in t.parent && S.RepositoryOf(cfg, s).value in t.split
    && a.sample == s.id.text && a.repository == text(S.RepositoryOf(cfg, s).value)
    && a.group == text(t.parent[S.RepositoryOf(cfg, s).value])
    && a.split == SplitName(t.split[S.RepositoryOf(cfg, s).value])
  }

  /** One row for each sample and one sample for each row, in strictly ascending order of the ids. */
  ghost predicate Tells(cfg: S.Settings, text: Name -> string, t: C.Snapshot, samples: seq<S.Sample>,
                        assignments: seq<W.Assignment>)
  {
    && |assignments| == |samples|
    && (forall i, j :: 0 <= i < j < |assignments| ==> Less(assignments[i].sample, assignments[j].sample))
    && (forall i :: 0 <= i < |samples| ==> RowExists(cfg, text, t, samples[i], assignments))
    && (forall j :: 0 <= j < |assignments| ==> SampleExists(cfg, text, t, samples, assignments[j]))
  }

  ghost predicate RowExists(cfg: S.Settings, text: Name -> string, t: C.Snapshot, s: S.Sample,
                            assignments: seq<W.Assignment>)
  {
    exists j :: 0 <= j < |assignments| && RowTells(cfg, text, t, s, assignments[j])
  }

  ghost predicate SampleExists(cfg: S.Settings, text: Name -> string, t: C.Snapshot, samples: seq<S.Sample>,
                               a: W.Assignment)
  {
    exists i :: 0 <= i < |samples| && RowTells(cfg, text, t, samples[i], a)
  }

  lemma {:induction false} SampleOf(cfg: S.Settings, samples: seq<S.Sample>, n: nat, id: SampleId) returns (i: nat)
    requires n <= |samples| && id in S.SampleTable(cfg, samples, n)
    ensures i < n && samples[i].id == id
  {
    if S.RepositoryOf(cfg, samples[n - 1]).Some? && samples[n - 1].id == id {
      i := n - 1;
    } else {
      i := SampleOf(cfg, samples, n - 1, id);
    }
  }

  lemma {:induction false} PublishedIsJoinable(cfg: S.Settings, samples: seq<S.Sample>, benchmarks: seq<S.Benchmark>,
                                               groups: Groups, t: C.Snapshot)
    requires T.Safe(cfg, samples, benchmarks, groups, t)
    ensures Joinable(t)
  {
    forall id | id in t.sampleRepo ensures t.sampleRepo[id] in t.parent && t.sampleRepo[id] in t.split {
      var i := SampleOf(cfg, samples, |samples|, id);
      T.TableAt(cfg, samples, |samples|, i);
    }
  }

  /** The rows joined from published tables tell of each sample once. */
  lemma {:induction false} JoinTells(cfg: S.Settings, samples: seq<S.Sample>, benchmarks: seq<S.Benchmark>,
                                     groups: Groups, t: C.Snapshot, text: Name -> string, ids: seq<SampleId>,
                                     assignments: seq<W.Assignment>)
    requires T.Safe(cfg, samples, benchmarks, groups, t) && Joinable(t)
    requires InOrder(ids) && |ids| == |t.sampleRepo| == |assignments| && forall id :: id in ids <==> id in t.sampleRepo
    requires forall j :: 0 <= j < |ids| ==> ids[j] in t.sampleRepo && assignments[j] == RowOf(text, t, ids[j])
    ensures Tells(cfg, text, t, samples, assignments)
  {
    T.TableSize(cfg, samples, |samples|);
    forall i, j | 0 <= i < j < |assignments| ensures Less(assignments[i].sample, assignments[j].sample) {
      assert Earlier(ids[i], ids[j]);
    }
    forall i | 0 <= i < |samples| ensures RowExists(cfg, text, t, samples[i], assignments) {
      T.TableAt(cfg, samples, |samples|, i);
      assert samples[i].id in ids;
      var j :| 0 <= j < |ids| && ids[j] == samples[i].id;
      assert RowTells(cfg, text, t, samples[i], assignments[j]);
    }
    forall j | 0 <= j < |assignments| ensures SampleExists(cfg, text, t, samples, assignments[j]) {
      var i := SampleOf(cfg, samples, |samples|, ids[j]);
      T.TableAt(cfg, samples, |samples|, i);
      assert RowTells(cfg, text, t, samples[i], assignments[j]);
    }
  }

  /** index.iter_assignments, run to its end. */
  method IterAssignments(text: Name -> string, t: C.Snapshot, ghost cfg: S.Settings, ghost samples: seq<S.Sample>,
                         ghost benchmarks: seq<S.Benchmark>, ghost groups: Groups)
    returns (assignments: seq<W.Assignment>)
    requires T.Safe(cfg, samples, benchmarks, groups, t)
    ensures Tells(cfg, text, t, samples, assignments)
  {
    PublishedIsJoinable(cfg, samples, benchmarks, groups, t);
    ghost var ids;
    assignments, ids := Assign(text, t);
    JoinTells(cfg, samples, benchmarks, groups, t, text, ids, assignments);
  }
}
