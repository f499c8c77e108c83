/** What a finished label recovery means for its input rows, and how its counters add up. */
module ResolutionAccounting {
  import opened Cursors
  import opened Wrappers
  import opened Totals
  import opened ResolutionRows
  import opened ResolutionGroups
  import opened ResolutionRecovery

  datatype Outputs = Outputs(
    conflicts: map<Name, LabelConflict>, candidates: map<TargetId, Candidate>, requests: map<Name, Request>)

  ghost predicate Finished(labels: Labels, targets: Targets, groups: seq<Group>, o: Outputs) {
    && Grouped(targets, groups) && Emitted(labels, targets, o.candidates, o.requests, groups, |groups|)
    && ConflictsOk(labels, o.conflicts, Disputed(labels, targets))
  }

  predicate Requested(o: Outputs, t: TargetId) {
    t.key in o.requests && t.reference in o.requests[t.key].references
  }

  /** Every stored unknown target is a candidate or requested, never both, and nothing else is. */
  lemma {:induction false} EveryTargetOnce(labels: Labels, targets: Targets, groups: seq<Group>, o: Outputs,
                                           t: TargetId)
    requires Finished(labels, targets, groups, o)
    ensures t in targets <==> t in o.candidates || Requested(o, t)
    ensures !(t in o.candidates && Requested(o, t))
  {
    assert CandidateAt(labels, targets, o.candidates, groups, |groups|, t);
    if t in targets || t.key in o.requests {
      assert t.key in o.requests ==> HasGroup(groups, t.key);
      var i: nat :| i < |groups| && groups[i].key == t.key;
      SharesLabel(labels, targets, groups, i, t);
      assert RequestAt(labels, o.requests, groups, |groups|, i);
      assert InFirst(groups, |groups|, t.key);
    }
  }

  /** It is a candidate with label b exactly when all observations of its key, over all languages, are b and at
      least one has its language; the evidence is then exactly those references in order. */
  lemma {:induction false} CandidateExactly(labels: Labels, targets: Targets, groups: seq<Group>, o: Outputs,
                                            t: TargetId, b: bool)
    requires Finished(labels, targets, groups, o) && t in targets
    ensures t in o.candidates && o.candidates[t].resolved == b <==> Unanimous(labels, t.key, targets[t].language, b)
    ensures t in o.candidates ==>
              && o.candidates[t].identity == targets[t]
              && Lists(o.candidates[t].evidence,
                       EvidenceFor(labels, t.key, o.candidates[t].resolved, Some(targets[t].language)))
  {
    assert CandidateAt(labels, targets, o.candidates, groups, |groups|, t);
    UnanimousLabelExactly(labels, t.key, targets[t].language);
    var i: nat :| i < |groups| && groups[i].key == t.key;
    assert InFirst(groups, |groups|, t.key);
  }

  /** A key observed with both labels yields no candidate, and one conflict if and only if it is targeted. */
  lemma {:induction false} DisputedExactly(labels: Labels, targets: Targets, groups: seq<Group>, o: Outputs, key: Name)
    requires Finished(labels, targets, groups, o)
    ensures key in o.conflicts <==>
              && Observed(labels, key, false) && Observed(labels, key, true)
              && key in KeysOf(targets)
    ensures Observed(labels, key, false) && Observed(labels, key, true) ==> forall t :: t in o.candidates ==>
              t.key != key
  {
    DiffersExactly(labels, key);
    if Observed(labels, key, false) && Observed(labels, key, true) {
      forall t | t in o.candidates ensures t.key != key {
        assert CandidateAt(labels, targets, o.candidates, groups, |groups|, t);
        UnanimousLabelExactly(labels, t.key, targets[t].language);
      }
    }
  }

  // In terms of the input rows.

  /** The reference digests the whole row, so labeled rows with one id have one language. */
  ghost predicate Faithful(cfg: Settings, rows: seq<Row>) {
    forall j: nat, m: nat, l :: IsLabel(cfg, rows, j, l) && IsLabel(cfg, rows, m, l) ==>
      rows[j].language == rows[m].language
  }

  predicate Observes(cfg: Settings, rows: seq<Row>, m: nat, key: Name) {
    m < |rows| && Labeled(cfg, rows[m]) && LabelOf(cfg, rows[m]).key == key
  }

  /** Every labeled row of the key says b, and one of them has this language. */
  ghost predicate RowsAgree(cfg: Settings, rows: seq<Row>, key: Name, language: Name, b: bool) {
    && (forall m: nat :: Observes(cfg, rows, m, key) ==> LabelOf(cfg, rows[m]).resolved == b)
    && exists m: nat :: Observes(cfg, rows, m, key) && rows[m].language == Some(language)
  }

  /** The label index speaks for the rows it was built from. */
  lemma {:induction false} IndexSpeaksForRows(cfg: Settings, labels: Labels, rows: seq<Row>, key: Name,
                                              language: Name, b: bool)
    requires LabelsStored(cfg, labels, rows, |rows|) && Faithful(cfg, rows)
    ensures Unanimous(labels, key, language, b) <==> RowsAgree(cfg, rows, key, language, b)
  {
    forall m: nat | Observes(cfg, rows, m, key)
      ensures LabelOf(cfg, rows[m]) in labels && rows[m].language == Some(labels[LabelOf(cfg, rows[m])])
    {
      RowIsIndexed(cfg, labels, rows, m);
    }
    forall l | l in labels && l.key == key
      ensures exists m: nat :: Observes(cfg, rows, m, key) && LabelOf(cfg, rows[m]) == l
                               && rows[m].language == Some(labels[l])
    {
      assert LabelStored(cfg, labels, rows, |rows|, l);
      var m: nat :| m < |rows| && IsLabel(cfg, rows, m, l) && rows[m].language == Some(labels[l]);
      assert Observes(cfg, rows, m, key);
    }
  }

  lemma {:induction false} RowIsIndexed(cfg: Settings, labels: Labels, rows: seq<Row>, m: nat)
    requires LabelsStored(cfg, labels, rows, |rows|) && Faithful(cfg, rows) && m < |rows| && Labeled(cfg, rows[m])
    ensures LabelOf(cfg, rows[m]) in labels && rows[m].language == Some(labels[LabelOf(cfg, rows[m])])
  {
    var l := LabelOf(cfg, rows[m]);
    assert LabelStored(cfg, labels, rows, |rows|, l) && IsLabel(cfg, rows, m, l);
  }

  lemma {:induction false} FirstRowIsStored(cfg: Settings, targets: Targets, rows: seq<Row>, m: nat)
    requires TargetsStored(cfg, targets, rows, |rows|) && m < |rows| && Queued(cfg, rows[m]) && !Repeats(cfg, rows, m)
    ensures TargetOf(cfg, rows[m]) in targets && targets[TargetOf(cfg, rows[m])] == IdentityOf(cfg, rows[m])
  {
    var t := TargetOf(cfg, rows[m]);
    assert TargetStored(cfg, targets, rows, |rows|, t) && IsTarget(cfg, rows, m, t);
    var first: nat :| first < |rows| && IsTarget(cfg, rows, first, t) && IdentityOf(cfg, rows[first]) == targets[t]
                      && forall j: nat :: j < first ==> !IsTarget(cfg, rows, j, t);
    assert first == m;
  }

  /** Soundness and completeness for every queued target row that is the first with its key and reference: it is
      recovered with label b iff all labeled rows of its key say b and one has its language. */
  lemma {:induction false} RowRecoveredExactly(cfg: Settings, labeledRows: seq<Row>, targetRows: seq<Row>,
                                               labels: Labels, targets: Targets,
                                               groups: seq<Group>, o: Outputs, m: nat, b: bool)
    requires Finished(labels, targets, groups, o) && Faithful(cfg, labeledRows)
    requires LabelsStored(cfg, labels, labeledRows, |labeledRows|)
             && TargetsStored(cfg, targets, targetRows, |targetRows|)
    requires m < |targetRows| && Queued(cfg, targetRows[m]) && !Repeats(cfg, targetRows, m)
    ensures var t := TargetOf(cfg, targetRows[m]);
            && (t in o.candidates || Requested(o, t))
            && (t in o.candidates && o.candidates[t].resolved == b
                <==> RowsAgree(cfg, labeledRows, t.key, targetRows[m].language.value, b))
  {
    var t := TargetOf(cfg, targetRows[m]);
    FirstRowIsStored(cfg, targets, targetRows, m);
    EveryTargetOnce(labels, targets, groups, o, t);
    CandidateExactly(labels, targets, groups, o, t, b);
    IndexSpeaksForRows(cfg, labels, labeledRows, t.key, targets[t].language, b);
  }

  /** Two queued rows that are the first of their ids put different identities under one key. */
  ghost predicate ClashAt(cfg: Settings, rows: seq<Row>, m: nat, n: nat) {
    && m < |rows| && n < |rows| && Queued(cfg, rows[m]) && Queued(cfg, rows[n])
    && !Repeats(cfg, rows, m) && !Repeats(cfg, rows, n)
    && TargetOf(cfg, rows[m]).key == TargetOf(cfg, rows[n]).key && IdentityOf(cfg, rows[m]) != IdentityOf(cfg, rows[n])
  }

  ghost predicate RowsClash(cfg: Settings, rows: seq<Row>) {
    exists m: nat, n: nat :: ClashAt(cfg, rows, m, n)
  }

  lemma {:induction false} StoredHasRow(cfg: Settings, targets: Targets, rows: seq<Row>, t: TargetId) returns (m: nat)
    requires TargetsStored(cfg, targets, rows, |rows|) && t in targets
    ensures IsTarget(cfg, rows, m, t) && !Repeats(cfg, rows, m) && IdentityOf(cfg, rows[m]) == targets[t]
  {
    assert TargetStored(cfg, targets, rows, |rows|, t);
    m :| m < |rows| && IsTarget(cfg, rows, m, t) && IdentityOf(cfg, rows[m]) == targets[t]
         && forall j: nat :: j < m ==> !IsTarget(cfg, rows, j, t);
  }

  lemma {:induction false} ClashesAreRows(cfg: Settings, targets: Targets, rows: seq<Row>)
    requires TargetsStored(cfg, targets, rows, |rows|)
    ensures Clashing(targets) <==> RowsClash(cfg, rows)
  {
    if t, u :| Clash(targets, t, u) {
      var m := StoredHasRow(cfg, targets, rows, t);
      var n := StoredHasRow(cfg, targets, rows, u);
      assert ClashAt(cfg, rows, m, n);
    }
    if m: nat, n: nat :| ClashAt(cfg, rows, m, n) {
      FirstRowIsStored(cfg, targets, rows, m);
      FirstRowIsStored(cfg, targets, rows, n);
      assert Clash(targets, TargetOf(cfg, rows[m]), TargetOf(cfg, rows[n]));
    }
  }

  /** A labeled row gives the key this label. */
  ghost predicate LabeledAs(cfg: Settings, rows: seq<Row>, key: Name, b: bool) {
    exists m: nat :: Observes(cfg, rows, m, key) && LabelOf(cfg, rows[m]).resolved == b
  }

  /** A queued target row has a key that labeled rows give both labels. */
  ghost predicate DisputedRow(cfg: Settings, labeledRows: seq<Row>, targetRows: seq<Row>, m: nat) {
    m < |targetRows| && Queued(cfg, targetRows[m])
    && LabeledAs(cfg, labeledRows, TargetOf(cfg, targetRows[m]).key, false)
    && LabeledAs(cfg, labeledRows, TargetOf(cfg, targetRows[m]).key, true)
  }

  ghost predicate DisputedRows(cfg: Settings, labeledRows: seq<Row>, targetRows: seq<Row>) {
    exists m: nat :: DisputedRow(cfg, labeledRows, targetRows, m)
  }

  lemma {:induction false} ObservedIsRow(cfg: Settings, labels: Labels, rows: seq<Row>, key: Name, b: bool)
    requires LabelsStored(cfg, labels, rows, |rows|)
    ensures Observed(labels, key, b) <==> LabeledAs(cfg, rows, key, b)
  {
    if l :| l in labels && l.key == key && l.resolved == b {
      assert LabelStored(cfg, labels, rows, |rows|, l);
      var m: nat :| m < |rows| && IsLabel(cfg, rows, m, l) && rows[m].language == Some(labels[l]);
      assert Observes(cfg, rows, m, key);
    }
    if m: nat :| Observes(cfg, rows, m, key) && LabelOf(cfg, rows[m]).resolved == b {
      var l := LabelOf(cfg, rows[m]);
      assert LabelStored(cfg, labels, rows, |rows|, l) && IsLabel(cfg, rows, m, l);
    }
  }

  lemma {:induction false} DisputesAreRows(cfg: Settings, labels: Labels, targets: Targets, labeledRows: seq<Row>,
                                           targetRows: seq<Row>)
    requires LabelsStored(cfg, labels, labeledRows, |labeledRows|)
             && TargetsStored(cfg, targets, targetRows, |targetRows|)
    ensures Disputed(labels, targets) == {} <==> !DisputedRows(cfg, labeledRows, targetRows)
  {
    if Disputed(labels, targets) != {} {
      var t :| t in targets && Differs(labels, t.key);
      DiffersExactly(labels, t.key);
      ObservedIsRow(cfg, labels, labeledRows, t.key, false);
      ObservedIsRow(cfg, labels, labeledRows, t.key, true);
      var m := StoredHasRow(cfg, targets, targetRows, t);
      assert DisputedRow(cfg, labeledRows, targetRows, m);
    }
    if m: nat :| DisputedRow(cfg, labeledRows, targetRows, m) {
      var t := TargetOf(cfg, targetRows[m]);
      assert TargetStored(cfg, targets, targetRows, |targetRows|, t) && IsTarget(cfg, targetRows, m, t);
      ObservedIsRow(cfg, labels, labeledRows, t.key, false);
      ObservedIsRow(cfg, labels, labeledRows, t.key, true);
      DiffersExactly(labels, t.key);
      assert t.key in Disputed(labels, targets);
    }
  }

  // The counters of the manifest.

  /** The counts of ResolutionRecoveryManifestV1; partitionRows is the sum over target_partitions. */
  datatype Manifest = Manifest(
    partitionRows: nat, targetRows: nat, ineligible: nat, alreadyKnown: nat, candidateRows: nat, candidateUnique: nat,
    candidateResolved: nat, candidateUnresolved: nat, candidateBytes: nat, queueUnique: nat, queuedFanout: nat,
    queueBytes: nat, conflicts: nat)

  /** The count checks of verify_recovery_contract. */
  predicate Verifies(m: Manifest) {
    && m.partitionRows == m.targetRows
    && m.ineligible + m.alreadyKnown + m.candidateRows + m.queuedFanout == m.targetRows
    && m.candidateResolved + m.candidateUnresolved == m.candidateRows
    && (m.candidateUnique == 0 <==> m.candidateRows == 0)
    && (m.queueUnique == 0 <==> m.queuedFanout == 0)
    && m.candidateUnique <= m.candidateRows
    && m.queueUnique <= m.queuedFanout
    && (m.candidateBytes == 0 <==> m.candidateRows == 0)
    && (m.queueBytes == 0 <==> m.queueUnique == 0)
    && m.conflicts == 0
  }

  /** The lines of the two artifacts: the canonical JSON of each candidate and of each request. */
  datatype Files = Files(candidates: seq<string>, queue: seq<string>)

  ghost predicate Written(o: Outputs, files: Files) {
    && |files.candidates| == |o.candidates| && (forall i :: 0 <= i < |files.candidates| ==> files.candidates[i] != "")
    && |files.queue| == |o.requests| && (forall i :: 0 <= i < |files.queue| ==> files.queue[i] != "")
  }

  function Bytes(lines: seq<string>, n: nat): nat
    requires n <= |lines|
  {
    if n == 0 then 0 else Bytes(lines, n - 1) + |lines[n - 1]|
  }

  lemma {:induction false} LinesHaveBytes(lines: seq<string>, n: nat)
    requires n <= |lines| && forall i :: 0 <= i < |lines| ==> lines[i] != ""
    ensures Bytes(lines, n) >= n
  {
    if n > 0 { LinesHaveBytes(lines, n - 1); }
  }

  /** Every row is of a selected partition. */
  ghost predicate FromPartitions(rows: seq<Row>, selected: set<Name>) {
    forall m :: 0 <= m < |rows| && rows[m].partition.Some? ==> rows[m].partition.value in selected
  }

  lemma {:induction false} PartitionTotals(cfg: Settings, total: map<Name, nat>, rows: seq<Row>, selected: set<Name>)
    requires ColumnCounted(cfg, total, rows, |rows|, Every)
    ensures Total(Selected(total, selected)) == Total(total) <==> FromPartitions(rows, selected)
  {
    SelectedTotal(total, selected);
    TotalZero(total - selected);
    if FromPartitions(rows, selected) {
      forall p | p in total - selected ensures total[p] == 0 {
        assert PartitionCounted(cfg, total, rows, |rows|, Every, p);
        NoRowsIn(cfg, rows, |rows|, p);
      }
    }
    if Total(total - selected) == 0 {
      forall m | 0 <= m < |rows| && rows[m].partition.Some? ensures rows[m].partition.value in selected {
        var p := rows[m].partition.value;
        assert PartitionCounted(cfg, total, rows, |rows|, Every, p);
        NoRowsIn(cfg, rows, |rows|, p);
        assert CountOf(total, p) > 0;
        assert p !in total - selected;
      }
    }
  }

  function CandidatesWith(o: Outputs, resolved: bool): set<TargetId> {
    set t | t in o.candidates && o.candidates[t].resolved == resolved
  }

  function KeySet(s: set<TargetId>): set<Name> {
    set t | t in s :: t.key
  }

  function ManifestOf(rows: Accounts, o: Outputs, selected: set<Name>, files: Files): Manifest {
    Manifest(Total(Selected(rows.total, selected)), Total(rows.total), Total(rows.ineligible), Total(rows.known),
             |o.candidates|, |KeySet(o.candidates.Keys)|, |CandidatesWith(o, true)|, |CandidatesWith(o, false)|,
             Bytes(files.candidates, |files.candidates|), |o.requests|, Total(Fanout(o.requests)),
             Bytes(files.queue, |files.queue|), |o.conflicts|)
  }

  /** COUNT(DISTINCT resolution_key) */
  lemma {:induction false} DistinctKeys(s: set<TargetId>)
    ensures |KeySet(s)| <= |s| && (|KeySet(s)| == 0 <==> |s| == 0)
  {
    if s != {} {
      var t :| t in s;
      var rest := s - {t};
      DistinctKeys(rest);
      assert t.key in KeySet(s);
      if t.key in KeySet(rest) {
        assert KeySet(s) == KeySet(rest);
      } else {
        assert KeySet(s) == KeySet(rest) + {t.key};
      }
    }
  }

  lemma {:induction false} OutcomeCounts(o: Outputs)
    ensures |CandidatesWith(o, true)| + |CandidatesWith(o, false)| == |o.candidates|
  {
    assert o.candidates.Keys == CandidatesWith(o, true) + CandidatesWith(o, false);
    assert CandidatesWith(o, true) !! CandidatesWith(o, false);
  }

  lemma {:induction false} RequestsNonempty(labels: Labels, targets: Targets, groups: seq<Group>, o: Outputs)
    requires Finished(labels, targets, groups, o)
    ensures |o.requests| <= Total(Fanout(o.requests)) && (|o.requests| == 0 <==> Total(Fanout(o.requests)) == 0)
  {
    forall key | key in Fanout(o.requests) ensures Fanout(o.requests)[key] > 0 {
      var i: nat :| i < |groups| && groups[i].key == key;
      assert RequestAt(labels, o.requests, groups, |groups|, i);
    }
    GroupsBounded(Fanout(o.requests));
    assert Fanout(o.requests).Keys == o.requests.Keys;
    assert |Fanout(o.requests)| == |o.requests|;
  }

  /** The sums of the manifest, in terms of the target rows. */
  lemma {:induction false} ManifestSums(index: Index, targetRows: seq<Row>, groups: seq<Group>, o: Outputs,
                                        selected: set<Name>, files: Files)
    requires Finished(index.labels, index.targets, groups, o) && index.Accounted(targetRows, |targetRows|)
    ensures var m, n := ManifestOf(index.targetRows, o, selected, files), |targetRows|;
            && m.targetRows == n && (m.partitionRows == m.targetRows <==> FromPartitions(targetRows, selected))
            && m.ineligible == RowsWith(index.cfg, targetRows, n, Ineligible)
            && m.alreadyKnown == RowsWith(index.cfg, targetRows, n, AlreadyKnown)
            && m.ineligible + m.alreadyKnown + m.candidateRows + m.queuedFanout == n - Dropped(index.cfg, targetRows, n)
  {
    EveryRow(index.cfg, targetRows, |targetRows|);
    PartitionTotals(index.cfg, index.targetRows.total, targetRows, selected);
  }

  /** The counts of the outputs: candidates by label and by key, requests, and conflicts. */
  lemma {:induction false} ManifestCounts(rows: Accounts, o: Outputs, selected: set<Name>, files: Files)
    ensures var m := ManifestOf(rows, o, selected, files);
            && m.candidateRows == |o.candidates| && m.queueUnique == |o.requests| && m.conflicts == |o.conflicts|
            && m.candidateResolved == |set t | t in o.candidates && o.candidates[t].resolved|
            && m.candidateUnresolved == |set t | t in o.candidates && !o.candidates[t].resolved|
            && m.candidateUnique == |set t | t in o.candidates :: t.key|
  {
    LabelsCounted(o);
    KeysCounted(o);
  }

  lemma {:induction false} LabelsCounted(o: Outputs)
    ensures CandidatesWith(o, true) == set t | t in o.candidates && o.candidates[t].resolved
    ensures CandidatesWith(o, false) == set t | t in o.candidates && !o.candidates[t].resolved
  {
  }

  lemma {:induction false} KeysCounted(o: Outputs)
    ensures KeySet(o.candidates.Keys) == set t | t in o.candidates :: t.key
  {
  }

  /** The bytes of an artifact are those of its lines: one more line adds its length. */
  lemma {:induction false} BytesOfMore(lines: seq<string>, line: string)
    ensures Bytes([], 0) == 0
    ensures Bytes(lines + [line], |lines| + 1) == Bytes(lines, |lines|) + |line|
  {
    BytesOfPrefix(lines, lines + [line], |lines|);
  }

  lemma {:induction false} BytesOfPrefix(a: seq<string>, b: seq<string>, n: nat)
    requires n <= |a| && n <= |b| && forall i :: 0 <= i < n ==> a[i] == b[i]
    ensures Bytes(a, n) == Bytes(b, n)
  {
    if n > 0 { BytesOfPrefix(a, b, n - 1); }
  }

  /** The checks that every finished recovery passes. */
  lemma {:induction false} ManifestShapes(rows: Accounts, labels: Labels, targets: Targets, groups: seq<Group>,
                                          o: Outputs, selected: set<Name>, files: Files)
    requires Finished(labels, targets, groups, o) && Written(o, files)
    ensures var m := ManifestOf(rows, o, selected, files);
            && m.candidateResolved + m.candidateUnresolved == m.candidateRows
            && (m.candidateUnique == 0 <==> m.candidateRows == 0) && (m.queueUnique == 0 <==> m.queuedFanout == 0)
            && m.candidateUnique <= m.candidateRows && m.queueUnique <= m.queuedFanout
            && (m.candidateBytes == 0 <==> m.candidateRows == 0) && (m.queueBytes == 0 <==> m.queueUnique == 0)
            && (m.conflicts == 0 <==> Disputed(labels, targets) == {})
  {
    OutcomeCounts(o);
    DistinctKeys(o.candidates.Keys);
    RequestsNonempty(labels, targets, groups, o);
    LinesHaveBytes(files.candidates, |files.candidates|);
    LinesHaveBytes(files.queue, |files.queue|);
    assert |o.conflicts| == |o.conflicts.Keys|;
  }

  /** Every target row is ineligible, already known, recovered, queued, or repeats an earlier row's key and reference;
      so the manifest's count checks all hold iff every target row is of a selected partition, none repeats another,
      and none has a key that labeled rows give both labels. */
  lemma {:induction false} ContractExactly(index: Index, labeledRows: seq<Row>, targetRows: seq<Row>,
                                           groups: seq<Group>, o: Outputs,
                                           selected: set<Name>, files: Files)
    requires Finished(index.labels, index.targets, groups, o) && index.Accounted(targetRows, |targetRows|)
    requires LabelsStored(index.cfg, index.labels, labeledRows, |labeledRows|)
    requires TargetsStored(index.cfg, index.targets, targetRows, |targetRows|) && Written(o, files)
    ensures RowsWith(index.cfg, targetRows, |targetRows|, Ineligible)
            + RowsWith(index.cfg, targetRows, |targetRows|, AlreadyKnown) + |o.candidates| + Total(Fanout(o.requests))
            == |targetRows| - Dropped(index.cfg, targetRows, |targetRows|)
    ensures Verifies(ManifestOf(index.targetRows, o, selected, files)) <==>
              FromPartitions(targetRows, selected) && NoRepeats(index.cfg, targetRows)
              && !DisputedRows(index.cfg, labeledRows, targetRows)
  {
    ManifestSums(index, targetRows, groups, o, selected, files);
    ManifestShapes(index.targetRows, index.labels, index.targets, groups, o, selected, files);
    DroppedNone(index.cfg, targetRows, |targetRows|);
    DisputesAreRows(index.cfg, index.labels, index.targets, labeledRows, targetRows);
  }

  /** build_resolution_recovery: it raises exactly on an unreadable row or on a key with two target identities. */
  method BuildResolutionRecovery(cfg: Settings, labeledRows: seq<Row>, targetRows: seq<Row>)
    returns (done: bool, index: Index, o: Outputs, ghost groups: seq<Group>)
    ensures index.cfg == cfg
    ensures done ==> LabelsStored(cfg, index.labels, labeledRows, |labeledRows|)
    ensures done ==>
              && TargetsStored(cfg, index.targets, targetRows, |targetRows|)
              && index.Accounted(targetRows, |targetRows|)
    ensures done ==> LabeledCounted(cfg, index.labeledRows, labeledRows, |labeledRows|)
    ensures done ==> Finished(index.labels, index.targets, groups, o)
    ensures done <==>
              && (forall m :: 0 <= m < |labeledRows| ==> LabelRowOk(cfg, labeledRows[m]))
              && (forall m :: 0 <= m < |targetRows| ==> TargetRowOk(cfg, targetRows[m]))
              && !RowsClash(cfg, targetRows)
  {
    index := new Index(cfg);
    o, groups := Outputs(map[], map[], map[]), [];
    done := index.IndexLabeledRows(labeledRows);
    if !done { return; }
    done := index.IndexTargetRows(targetRows);
    if !done { return; }
    var recovery := new Recovery();
    done, groups := recovery.MaterializeOutputs(index.labels, index.targets);
    ClashesAreRows(cfg, index.targets, targetRows);
    o := Outputs(recovery.conflicts, recovery.candidates, recovery.requests);
  }

  /** Two equal queued target rows, whose recovery is done without an error, and then no manifest of it verifies. */
  method RepeatedRowIsRefused() returns (rows: seq<Row>, done: bool, index: Index, o: Outputs, ghost groups: seq<Group>)
    ensures |rows| == 2 && rows[0] == rows[1] && Queued(index.cfg, rows[0]) && !RowsClash(index.cfg, rows)
    ensures done && LabelsStored(index.cfg, index.labels, [], 0)
    ensures TargetsStored(index.cfg, index.targets, rows, |rows|) && index.Accounted(rows, |rows|)
    ensures Finished(index.labels, index.targets, groups, o)
    ensures forall selected, files :: Written(o, files) ==> !Verifies(ManifestOf(index.targetRows, o, selected, files))
  {
    var row := Row(Some(0), Some(0), Unknown, Some(Body(0, 0, 0)));
    var cfg := Settings({0}, (instance, patch) => 0);
    rows := [row, row];
    assert forall n: nat :: n < 2 && Queued(cfg, rows[n]) ==> IdentityOf(cfg, rows[n]) == Identity(0, 0, 0);
    done, index, o, groups := BuildResolutionRecovery(cfg, [], rows);
    assert IsTarget(cfg, rows, 0, TargetOf(cfg, rows[1])) && Repeats(cfg, rows, 1);
    forall selected, files | Written(o, files) ensures !Verifies(ManifestOf(index.targetRows, o, selected, files)) {
      ContractExactly(index, [], rows, groups, o, selected, files);
    }
  }
}
