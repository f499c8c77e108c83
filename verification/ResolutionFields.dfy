/** What a finished label recovery means, said on the fields of its rows, for a key that stands for one instance and one
    patch. */
module ResolutionFields {
  import opened Cursors
  import opened Wrappers
  import opened ResolutionRows
  import opened ResolutionGroups
  import opened ResolutionRecovery
  import opened ResolutionAccounting

  /** The key tells instances and patches apart. */
  ghost predicate Injective(cfg: Settings) {
    forall i, p, j, q {:trigger cfg.key(i, p), cfg.key(j, q)} :: cfg.key(i, p) == cfg.key(j, q) ==> i == j && p == q
  }

  /** A row in a selected language, with these two and a known, or unknown, resolution. */
  predicate Concerns(cfg: Settings, row: Row, instance: Name, patch: Name) {
    && row.partition.Some? && row.language.Some? && row.language.value in cfg.languages && row.body.Some?
    && row.body.value.instance == instance && row.body.value.patch == patch
  }

  predicate LabelRow(cfg: Settings, row: Row, instance: Name, patch: Name) {
    Concerns(cfg, row, instance, patch) && row.resolution.Known?
  }

  predicate TargetRow(cfg: Settings, row: Row, instance: Name, patch: Name) {
    Concerns(cfg, row, instance, patch) && row.resolution.Unknown?
  }

  /** A labeled row for this instance and patch that says b, with this reference. */
  predicate Says(cfg: Settings, row: Row, instance: Name, patch: Name, b: bool, reference: Name) {
    LabelRow(cfg, row, instance, patch) && row.resolution.resolved == b && row.body.value.reference == reference
  }

  /** The reference digests the whole row, so rows that are alike in these fields have one language. */
  ghost predicate OneLanguage(cfg: Settings, rows: seq<Row>) {
    forall j, m, instance, patch, b, reference ::
      && 0 <= j < |rows| && 0 <= m < |rows| && Says(cfg, rows[j], instance, patch, b, reference)
      && Says(cfg, rows[m], instance, patch, b, reference) ==>
        rows[j].language == rows[m].language
  }

  /** The tables and outputs of a finished recovery of these rows. */
  ghost predicate Recovered(cfg: Settings, labeledRows: seq<Row>, targetRows: seq<Row>, labels: Labels,
                            targets: Targets, groups: seq<Group>, o: Outputs)
  {
    && Injective(cfg) && OneLanguage(cfg, labeledRows) && Finished(labels, targets, groups, o)
    && LabelsStored(cfg, labels, labeledRows, |labeledRows|)
    && TargetsStored(cfg, targets, targetRows, |targetRows|)
  }

  /** The first of the target rows with its instance, patch and reference. */
  ghost predicate FirstTarget(cfg: Settings, rows: seq<Row>, m: nat, instance: Name, patch: Name) {
    && m < |rows| && TargetRow(cfg, rows[m], instance, patch)
    && forall j :: 0 <= j < m && TargetRow(cfg, rows[j], instance, patch) ==>
         rows[j].body.value.reference != rows[m].body.value.reference
  }

  lemma {:induction false} LanguagesFaithful(cfg: Settings, rows: seq<Row>)
    requires Injective(cfg) && OneLanguage(cfg, rows)
    ensures Faithful(cfg, rows)
  {
    forall j: nat, m: nat, l | IsLabel(cfg, rows, j, l) && IsLabel(cfg, rows, m, l)
      ensures rows[j].language == rows[m].language
    {
      var body := rows[j].body.value;
      assert Says(cfg, rows[j], body.instance, body.patch, l.resolved, l.reference);
      assert Says(cfg, rows[m], body.instance, body.patch, l.resolved, l.reference);
    }
  }

  /** A target row has this id, and a label row observes this key, exactly for the instance and patch of the key. */
  lemma {:induction false} KeyOfRow(cfg: Settings, rows: seq<Row>, m: nat, instance: Name, patch: Name, reference: Name)
    requires Injective(cfg) && m < |rows|
    ensures IsTarget(cfg, rows, m, TargetId(cfg.key(instance, patch), reference)) <==>
              TargetRow(cfg, rows[m], instance, patch) && rows[m].body.value.reference == reference
    ensures Observes(cfg, rows, m, cfg.key(instance, patch)) <==> LabelRow(cfg, rows[m], instance, patch)
  {
  }

  lemma {:induction false} FirstIsStored(cfg: Settings, targets: Targets, rows: seq<Row>, m: nat, instance: Name,
                                         patch: Name)
    requires Injective(cfg) && TargetsStored(cfg, targets, rows, |rows|) && FirstTarget(cfg, rows, m, instance, patch)
    ensures var t := TargetId(cfg.key(instance, patch), rows[m].body.value.reference);
            t in targets && targets[t] == Identity(instance, rows[m].language.value, patch)
  {
    var reference := rows[m].body.value.reference;
    var t := TargetId(cfg.key(instance, patch), reference);
    forall j: nat | j <= m
      ensures IsTarget(cfg, rows, j, t) <==>
                TargetRow(cfg, rows[j], instance, patch) && rows[j].body.value.reference == reference
    {
      KeyOfRow(cfg, rows, j, instance, patch, reference);
    }
    assert TargetOf(cfg, rows[m]) == t && !Repeats(cfg, rows, m);
    FirstRowIsStored(cfg, targets, rows, m);
  }

  lemma {:induction false} AgreeByFields(cfg: Settings, rows: seq<Row>, instance: Name, patch: Name, language: Name,
                                         b: bool)
    requires Injective(cfg)
    ensures RowsAgree(cfg, rows, cfg.key(instance, patch), language, b) <==>
              && (forall j :: 0 <= j < |rows| && LabelRow(cfg, rows[j], instance, patch) ==>
                    rows[j].resolution.resolved == b)
              && exists j :: 0 <= j < |rows| && LabelRow(cfg, rows[j], instance, patch)
                             && rows[j].language == Some(language)
  {
    forall j: nat | j < |rows|
      ensures Observes(cfg, rows, j, cfg.key(instance, patch)) <==> LabelRow(cfg, rows[j], instance, patch)
    {
      KeyOfRow(cfg, rows, j, instance, patch, 0);
    }
    var key := cfg.key(instance, patch);
    if RowsAgree(cfg, rows, key, language, b) {
      var m: nat :| Observes(cfg, rows, m, key) && rows[m].language == Some(language);
      assert LabelRow(cfg, rows[m], instance, patch);
      forall j | 0 <= j < |rows| && LabelRow(cfg, rows[j], instance, patch) ensures rows[j].resolution.resolved == b {
        assert Observes(cfg, rows, j, key);
      }
    }
  }

  /** A candidate with this reference, identity and label. */
  ghost predicate HasCandidate(o: Outputs, identity: Identity, reference: Name, b: bool) {
    exists key :: TargetId(key, reference) in o.candidates
                  && o.candidates[TargetId(key, reference)].identity == identity
                  && o.candidates[TargetId(key, reference)].resolved == b
  }

  ghost predicate HasRequest(o: Outputs, identity: Identity, reference: Name) {
    exists key :: key in o.requests && o.requests[key].identity == identity
                  && reference in o.requests[key].references
  }

  /** A candidate stands under the key of its identity. */
  lemma {:induction false} CandidateKey(cfg: Settings, labels: Labels, targets: Targets, rows: seq<Row>,
                                        groups: seq<Group>, o: Outputs, t: TargetId)
    requires Finished(labels, targets, groups, o) && TargetsStored(cfg, targets, rows, |rows|)
    requires t in o.candidates
    ensures t in targets && o.candidates[t].identity == targets[t]
    ensures t.key == cfg.key(targets[t].instance, targets[t].patch)
  {
    assert CandidateAt(labels, targets, o.candidates, groups, |groups|, t);
    var m := StoredHasRow(cfg, targets, rows, t);
  }

  /** A request too, and its references are targets. */
  lemma {:induction false} RequestKey(cfg: Settings, labels: Labels, targets: Targets, rows: seq<Row>,
                                      groups: seq<Group>, o: Outputs, key: Name, reference: Name)
    requires Finished(labels, targets, groups, o) && TargetsStored(cfg, targets, rows, |rows|)
    requires key in o.requests && reference in o.requests[key].references
    ensures var t := TargetId(key, reference);
            && t in targets && o.requests[key].identity == targets[t]
            && key == cfg.key(targets[t].instance, targets[t].patch)
  {
    var t := TargetId(key, reference);
    assert HasGroup(groups, key);
    var i: nat :| i < |groups| && groups[i].key == key;
    SharesLabel(labels, targets, groups, i, t);
    assert RequestAt(labels, o.requests, groups, |groups|, i);
    var m := StoredHasRow(cfg, targets, rows, t);
  }

  /** A target row is recovered with label b if and only if every labeled row for its instance and its patch says b and
      one of them has its language. */
  lemma {:induction false} RecoveredByFields(cfg: Settings, labeledRows: seq<Row>, targetRows: seq<Row>,
                                             labels: Labels, targets: Targets, groups: seq<Group>, o: Outputs, m: nat,
                                             instance: Name, patch: Name, b: bool)
    requires Recovered(cfg, labeledRows, targetRows, labels, targets, groups, o)
    requires FirstTarget(cfg, targetRows, m, instance, patch)
    ensures var language := targetRows[m].language.value;
            HasCandidate(o, Identity(instance, language, patch), targetRows[m].body.value.reference, b) <==>
              && (forall j :: 0 <= j < |labeledRows| && LabelRow(cfg, labeledRows[j], instance, patch) ==>
                    labeledRows[j].resolution.resolved == b)
              && exists j :: 0 <= j < |labeledRows| && LabelRow(cfg, labeledRows[j], instance, patch)
                             && labeledRows[j].language == Some(language)
  {
    var identity := Identity(instance, targetRows[m].language.value, patch);
    var reference := targetRows[m].body.value.reference;
    var t := TargetId(cfg.key(instance, patch), reference);
    FirstIsStored(cfg, targets, targetRows, m, instance, patch);
    CandidateExactly(labels, targets, groups, o, t, b);
    LanguagesFaithful(cfg, labeledRows);
    IndexSpeaksForRows(cfg, labels, labeledRows, t.key, targets[t].language, b);
    AgreeByFields(cfg, labeledRows, instance, patch, targets[t].language, b);
    CandidateByKey(cfg, labels, targets, targetRows, groups, o, t, b);
  }

  lemma {:induction false} CandidateByKey(cfg: Settings, labels: Labels, targets: Targets, rows: seq<Row>,
                                          groups: seq<Group>, o: Outputs, t: TargetId, b: bool)
    requires Finished(labels, targets, groups, o) && TargetsStored(cfg, targets, rows, |rows|)
    requires t in targets && t.key == cfg.key(targets[t].instance, targets[t].patch)
    ensures HasCandidate(o, targets[t], t.reference, b) <==> t in o.candidates && o.candidates[t].resolved == b
  {
    var identity := targets[t];
    if key :| TargetId(key, t.reference) in o.candidates
              && o.candidates[TargetId(key, t.reference)].identity == identity
              && o.candidates[TargetId(key, t.reference)].resolved == b
    {
      CandidateKey(cfg, labels, targets, rows, groups, o, TargetId(key, t.reference));
      assert TargetId(key, t.reference) == t;
    }
    if t in o.candidates && o.candidates[t].resolved == b {
      CandidateKey(cfg, labels, targets, rows, groups, o, t);
      assert TargetId(t.key, t.reference) == t;
    }
  }

  /** Otherwise it is requested, under its own identity, and never both. */
  lemma {:induction false} RequestedByFields(cfg: Settings, labeledRows: seq<Row>, targetRows: seq<Row>,
                                             labels: Labels, targets: Targets, groups: seq<Group>, o: Outputs, m: nat,
                                             instance: Name, patch: Name)
    requires Recovered(cfg, labeledRows, targetRows, labels, targets, groups, o)
    requires FirstTarget(cfg, targetRows, m, instance, patch)
    ensures var identity := Identity(instance, targetRows[m].language.value, patch);
            var reference := targetRows[m].body.value.reference;
            HasRequest(o, identity, reference) <==>
              !HasCandidate(o, identity, reference, true) && !HasCandidate(o, identity, reference, false)
  {
    var reference := targetRows[m].body.value.reference;
    var t := TargetId(cfg.key(instance, patch), reference);
    FirstIsStored(cfg, targets, targetRows, m, instance, patch);
    EveryTargetOnce(labels, targets, groups, o, t);
    CandidateByKey(cfg, labels, targets, targetRows, groups, o, t, true);
    CandidateByKey(cfg, labels, targets, targetRows, groups, o, t, false);
    if Requested(o, t) {
      RequestKey(cfg, labels, targets, targetRows, groups, o, t.key, reference);
    }
    if key :| key in o.requests && o.requests[key].identity == targets[t] && reference in o.requests[key].references {
      RequestKey(cfg, labels, targets, targetRows, groups, o, key, reference);
      assert key == t.key && Requested(o, t);
    }
  }

  // The evidence.

  /** The references that stand for label b of a key are those of the labeled rows that say b. */
  lemma {:induction false} EvidenceByFields(cfg: Settings, labels: Labels, rows: seq<Row>, instance: Name, patch: Name,
                                            b: bool, language: Option<Name>, reference: Name)
    requires Injective(cfg) && OneLanguage(cfg, rows) && LabelsStored(cfg, labels, rows, |rows|)
    ensures reference in EvidenceFor(labels, cfg.key(instance, patch), b, language) <==>
              exists j :: 0 <= j < |rows| && Says(cfg, rows[j], instance, patch, b, reference)
                          && (language.None? || rows[j].language == language)
  {
    var key := cfg.key(instance, patch);
    var l := LabelId(key, b, reference);
    assert LabelStored(cfg, labels, rows, |rows|, l);
    if l in labels {
      var m: nat :| m < |rows| && IsLabel(cfg, rows, m, l) && rows[m].language == Some(labels[l]);
      assert Says(cfg, rows[m], instance, patch, b, reference);
    }
    if j :| 0 <= j < |rows| && Says(cfg, rows[j], instance, patch, b, reference)
            && (language.None? || rows[j].language == language)
    {
      assert IsLabel(cfg, rows, j, l);
      LanguagesFaithful(cfg, rows);
      RowIsIndexed(cfg, labels, rows, j);
    }
  }

  /** A candidate's evidence lists, in order, exactly the references of the labeled rows for its instance and its patch
      that have its label and its language. */
  lemma {:induction false} CandidateEvidence(cfg: Settings, labeledRows: seq<Row>, targetRows: seq<Row>,
                                             labels: Labels, targets: Targets, groups: seq<Group>, o: Outputs,
                                             t: TargetId, reference: Name)
    requires Recovered(cfg, labeledRows, targetRows, labels, targets, groups, o) && t in o.candidates
    ensures StrictlyIncreasing(o.candidates[t].evidence)
    ensures var c := o.candidates[t];
            reference in c.evidence <==>
              exists j :: 0 <= j < |labeledRows|
                          && Says(cfg, labeledRows[j], c.identity.instance, c.identity.patch, c.resolved, reference)
                          && labeledRows[j].language == Some(c.identity.language)
  {
    CandidateKey(cfg, labels, targets, targetRows, groups, o, t);
    CandidateExactly(labels, targets, groups, o, t, true);
    var c := o.candidates[t];
    EvidenceByFields(cfg, labels, labeledRows, c.identity.instance, c.identity.patch, c.resolved,
                     Some(c.identity.language), reference);
    InElements(c.evidence, reference);
  }

  lemma {:induction false} InElements(q: seq<Name>, x: Name)
    ensures x in q <==> x in Elements(q)
  {
  }

  /** The labeled rows for this instance and patch say both. */
  ghost predicate BothSaid(cfg: Settings, rows: seq<Row>, instance: Name, patch: Name) {
    forall b: bool :: SomeSays(cfg, rows, instance, patch, b)
  }

  ghost predicate SomeSays(cfg: Settings, rows: seq<Row>, instance: Name, patch: Name, b: bool) {
    exists j :: 0 <= j < |rows| && LabelRow(cfg, rows[j], instance, patch) && rows[j].resolution.resolved == b
  }

  lemma {:induction false} ObservedByFields(cfg: Settings, labels: Labels, rows: seq<Row>, instance: Name, patch: Name,
                                            b: bool)
    requires Injective(cfg) && LabelsStored(cfg, labels, rows, |rows|)
    ensures Observed(labels, cfg.key(instance, patch), b) <==> SomeSays(cfg, rows, instance, patch, b)
  {
    var key := cfg.key(instance, patch);
    ObservedIsRow(cfg, labels, rows, key, b);
    if m: nat :| Observes(cfg, rows, m, key) && LabelOf(cfg, rows[m]).resolved == b {
      KeyOfRow(cfg, rows, m, instance, patch, 0);
    }
    if j :| 0 <= j < |rows| && LabelRow(cfg, rows[j], instance, patch) && rows[j].resolution.resolved == b {
      KeyOfRow(cfg, rows, j, instance, patch, 0);
    }
  }

  /** One of the rows says b with this reference. */
  ghost predicate SaidBy(cfg: Settings, rows: seq<Row>, instance: Name, patch: Name, b: bool, reference: Name) {
    exists j :: 0 <= j < |rows| && Says(cfg, rows[j], instance, patch, b, reference)
  }

  /** The key of a first target row has a conflict if and only if labeled rows for its instance and patch say both; the
      two sides of the conflict list, in order, the references of the rows that say false and of those that say true. */
  lemma {:induction false} ConflictByFields(cfg: Settings, labeledRows: seq<Row>, targetRows: seq<Row>,
                                            labels: Labels, targets: Targets, groups: seq<Group>, o: Outputs, m: nat,
                                            instance: Name, patch: Name, reference: Name)
    requires Recovered(cfg, labeledRows, targetRows, labels, targets, groups, o)
    requires FirstTarget(cfg, targetRows, m, instance, patch)
    ensures var key := cfg.key(instance, patch);
            key in o.conflicts <==> BothSaid(cfg, labeledRows, instance, patch)
    ensures var key := cfg.key(instance, patch);
            key in o.conflicts ==>
              var c := o.conflicts[key];
              && StrictlyIncreasing(c.falseEvidence) && StrictlyIncreasing(c.trueEvidence)
              && (reference in c.falseEvidence <==> SaidBy(cfg, labeledRows, instance, patch, false, reference))
              && (reference in c.trueEvidence <==> SaidBy(cfg, labeledRows, instance, patch, true, reference))
  {
    var key := cfg.key(instance, patch);
    FirstIsStored(cfg, targets, targetRows, m, instance, patch);
    assert key in KeysOf(targets);
    DisputedExactly(labels, targets, groups, o, key);
    ObservedByFields(cfg, labels, labeledRows, instance, patch, false);
    ObservedByFields(cfg, labels, labeledRows, instance, patch, true);
    assert BothSaid(cfg, labeledRows, instance, patch) <==>
        SomeSays(cfg, labeledRows, instance, patch, false) && SomeSays(cfg, labeledRows, instance, patch, true);
    if key in o.conflicts {
      assert ConflictAt(labels, o.conflicts, key);
      EvidenceByFields(cfg, labels, labeledRows, instance, patch, false, None, reference);
      EvidenceByFields(cfg, labels, labeledRows, instance, patch, true, None, reference);
      InElements(o.conflicts[key].falseEvidence, reference);
      InElements(o.conflicts[key].trueEvidence, reference);
    }
  }

  // What makes the recovery raise.

  /** The first rows of two different references put one instance and one patch in two languages. */
  ghost predicate TwoLanguages(cfg: Settings, rows: seq<Row>, m: nat, n: nat, instance: Name, patch: Name) {
    && FirstTarget(cfg, rows, m, instance, patch) && FirstTarget(cfg, rows, n, instance, patch)
    && rows[m].language != rows[n].language
  }

  lemma {:induction false} FirstByFields(cfg: Settings, rows: seq<Row>, m: nat, instance: Name, patch: Name)
    requires Injective(cfg) && m < |rows|
    ensures FirstTarget(cfg, rows, m, instance, patch) <==>
              Queued(cfg, rows[m]) && !Repeats(cfg, rows, m) && rows[m].body.value.instance == instance
              && rows[m].body.value.patch == patch
  {
    if Queued(cfg, rows[m]) {
      var reference := rows[m].body.value.reference;
      forall j: nat | j <= m
        ensures IsTarget(cfg, rows, j, TargetId(cfg.key(instance, patch), reference)) <==>
                  TargetRow(cfg, rows[j], instance, patch) && rows[j].body.value.reference == reference
      {
        KeyOfRow(cfg, rows, j, instance, patch, reference);
      }
    }
  }

  lemma {:induction false} ClashByFields(cfg: Settings, rows: seq<Row>)
    requires Injective(cfg)
    ensures RowsClash(cfg, rows) <==> exists m: nat, n: nat, instance, patch ::
                                        TwoLanguages(cfg, rows, m, n, instance, patch)
  {
    if m: nat, n: nat :| ClashAt(cfg, rows, m, n) {
      var body := rows[m].body.value;
      FirstByFields(cfg, rows, m, body.instance, body.patch);
      FirstByFields(cfg, rows, n, body.instance, body.patch);
      assert TwoLanguages(cfg, rows, m, n, body.instance, body.patch);
    }
    if m: nat, n: nat, instance, patch :| TwoLanguages(cfg, rows, m, n, instance, patch) {
      FirstByFields(cfg, rows, m, instance, patch);
      FirstByFields(cfg, rows, n, instance, patch);
      assert ClashAt(cfg, rows, m, n);
    }
  }
}
