/** Indexing labeled and target rows for label recovery, with the per-partition accounting. */
module ResolutionRows {
  import opened Cursors
  import opened Wrappers
  import opened Totals

  /** What the resolution status of a row parses to. */
  datatype Reading = Unreadable | Unknown | Known(resolved: bool)

  /** A row reference stands for its (partition_name, rollout_id, projected_row_sha256) triple, in that order. */
  datatype Body = Body(instance: Name, patch: Name, reference: Name)

  /** A missing field is one whose reader raises. */
  datatype Row = Row(partition: Option<Name>, language: Option<Name>, resolution: Reading, body: Option<Body>)

  /** key is resolution_key_sha256 with both source revisions fixed; it ignores the language. */
  datatype Settings = Settings(languages: set<Name>, key: (Name, Name) -> Name)

  datatype LabelId = LabelId(key: Name, resolved: bool, reference: Name)
  datatype TargetId = TargetId(key: Name, reference: Name)
  datatype Identity = Identity(instance: Name, language: Name, patch: Name)

  type Labels = map<LabelId, Name>
  type Targets = map<TargetId, Identity>

  predicate Eligible(cfg: Settings, row: Row) {
    row.partition.Some? && row.language.Some? && row.language.value in cfg.languages
  }

  predicate Labeled(cfg: Settings, row: Row) {
    Eligible(cfg, row) && row.resolution.Known? && row.body.Some?
  }

  predicate Queued(cfg: Settings, row: Row) {
    Eligible(cfg, row) && row.resolution.Unknown? && row.body.Some?
  }

  /** The rows that do not raise. */
  predicate LabelRowOk(cfg: Settings, row: Row) {
    && row.partition.Some? && row.language.Some?
    && (Eligible(cfg, row) ==> !row.resolution.Unreadable? && (row.resolution.Known? ==> row.body.Some?))
  }

  predicate TargetRowOk(cfg: Settings, row: Row) {
    && row.partition.Some? && row.language.Some?
    && (Eligible(cfg, row) ==> !row.resolution.Unreadable? && (row.resolution.Unknown? ==> row.body.Some?))
  }

  function LabelOf(cfg: Settings, row: Row): LabelId
    requires Labeled(cfg, row)
  {
    LabelId(cfg.key(row.body.value.instance, row.body.value.patch), row.resolution.resolved, row.body.value.reference)
  }

  function TargetOf(cfg: Settings, row: Row): TargetId
    requires Queued(cfg, row)
  {
    TargetId(cfg.key(row.body.value.instance, row.body.value.patch), row.body.value.reference)
  }

  function IdentityOf(cfg: Settings, row: Row): Identity
    requires Queued(cfg, row)
  {
    Identity(row.body.value.instance, row.language.value, row.body.value.patch)
  }

  predicate IsLabel(cfg: Settings, rows: seq<Row>, m: nat, l: LabelId) {
    m < |rows| && Labeled(cfg, rows[m]) && LabelOf(cfg, rows[m]) == l
  }

  predicate IsTarget(cfg: Settings, rows: seq<Row>, m: nat, t: TargetId) {
    m < |rows| && Queued(cfg, rows[m]) && TargetOf(cfg, rows[m]) == t
  }

  /** The first row of an id is stored, later ones are ignored. */
  ghost predicate LabelStored(cfg: Settings, labels: Labels, rows: seq<Row>, n: nat, l: LabelId) {
    if l in labels then
      exists m: nat :: m < n && IsLabel(cfg, rows, m, l) && rows[m].language == Some(labels[l])
                       && forall j: nat :: j < m ==> !IsLabel(cfg, rows, j, l)
    else
      forall m: nat :: m < n ==> !IsLabel(cfg, rows, m, l)
  }

  ghost predicate TargetStored(cfg: Settings, targets: Targets, rows: seq<Row>, n: nat, t: TargetId) {
    if t in targets then
      exists m: nat :: m < n && IsTarget(cfg, rows, m, t) && IdentityOf(cfg, rows[m]) == targets[t]
                       && forall j: nat :: j < m ==> !IsTarget(cfg, rows, j, t)
    else
      forall m: nat :: m < n ==> !IsTarget(cfg, rows, m, t)
  }

  ghost predicate LabelsStored(cfg: Settings, labels: Labels, rows: seq<Row>, n: nat) {
    forall l :: LabelStored(cfg, labels, rows, n, l)
  }

  ghost predicate TargetsStored(cfg: Settings, targets: Targets, rows: seq<Row>, n: nat) {
    forall t :: TargetStored(cfg, targets, rows, n, t)
  }

  ghost predicate Repeats(cfg: Settings, rows: seq<Row>, n: nat) {
    n < |rows| && Queued(cfg, rows[n]) && exists m: nat :: m < n && IsTarget(cfg, rows, m, TargetOf(cfg, rows[n]))
  }

  /** The queued target rows whose key and reference an earlier one already had. */
  ghost function Dropped(cfg: Settings, rows: seq<Row>, n: nat): nat
    requires n <= |rows|
  {
    if n == 0 then 0 else Dropped(cfg, rows, n - 1) + if Repeats(cfg, rows, n - 1) then 1 else 0
  }

  ghost predicate NoRepeats(cfg: Settings, rows: seq<Row>) {
    forall n: nat :: !Repeats(cfg, rows, n)
  }

  lemma {:induction false} DroppedNone(cfg: Settings, rows: seq<Row>, n: nat)
    requires n <= |rows|
    ensures Dropped(cfg, rows, n) == 0 <==> forall m: nat :: m < n ==> !Repeats(cfg, rows, m)
  {
    if n > 0 {
      DroppedNone(cfg, rows, n - 1);
    }
  }

  /** partition_accounting for one kind of row. */
  datatype Accounts = Accounts(total: map<Name, nat>, ineligible: map<Name, nat>, known: map<Name, nat>)

  function OneMore(a: Accounts, partition: Name, ineligible: nat, known: nat): Accounts {
    Accounts(Bumped(a.total, partition, 1),
             Bumped(a.ineligible, partition, ineligible),
             Bumped(a.known, partition, known))
  }

  /** The columns of partition_accounting, and one that no row falls into. */
  datatype Column = Every | Ineligible | AlreadyKnown | Never

  predicate Falls(cfg: Settings, row: Row, column: Column) {
    match column
    case Every => true
    case Ineligible => !Eligible(cfg, row)
    case AlreadyKnown => Eligible(cfg, row) && row.resolution.Known?
    case Never => false
  }

  /** How many of the first n rows fall into a column, over all partitions and in one. */
  ghost function RowsWith(cfg: Settings, rows: seq<Row>, n: nat, column: Column): nat
    requires n <= |rows|
  {
    if n == 0 then 0 else RowsWith(cfg, rows, n - 1, column) + if Falls(cfg, rows[n - 1], column) then 1 else 0
  }

  ghost function RowsIn(cfg: Settings, rows: seq<Row>, n: nat, column: Column, partition: Name): nat
    requires n <= |rows|
  {
    if n == 0 then 0 else
      RowsIn(cfg, rows, n - 1, column, partition)
      + if rows[n - 1].partition == Some(partition) && Falls(cfg, rows[n - 1], column) then 1 else 0
  }

  ghost predicate PartitionCounted(cfg: Settings, counts: map<Name, nat>, rows: seq<Row>, n: nat, column: Column,
                                   partition: Name)
    requires n <= |rows|
  {
    CountOf(counts, partition) == RowsIn(cfg, rows, n, column, partition)
  }

  /** Each partition's count is that of its rows, and the sum is that of all rows. */
  ghost predicate ColumnCounted(cfg: Settings, counts: map<Name, nat>, rows: seq<Row>, n: nat, column: Column)
    requires n <= |rows|
  {
    && Total(counts) == RowsWith(cfg, rows, n, column)
    && forall partition :: PartitionCounted(cfg, counts, rows, n, column, partition)
  }

  lemma {:induction false} CountNone(cfg: Settings, rows: seq<Row>, column: Column)
    ensures ColumnCounted(cfg, map[], rows, 0, column)
  {
    var n := 0;
    forall partition ensures PartitionCounted(cfg, map[], rows, n, column, partition) {
    }
  }

  lemma {:induction false} CountRow(cfg: Settings, counts: map<Name, nat>, rows: seq<Row>, n: nat, column: Column)
    requires n < |rows| && ColumnCounted(cfg, counts, rows, n, column) && rows[n].partition.Some?
    ensures ColumnCounted(cfg, Bumped(counts, rows[n].partition.value, if Falls(cfg, rows[n], column) then 1 else 0),
                          rows, n + 1, column)
  {
    var one, next := if Falls(cfg, rows[n], column) then 1 else 0, n + 1;
    var after := Bumped(counts, rows[n].partition.value, one);
    TotalBumped(counts, rows[n].partition.value, one);
    forall partition ensures PartitionCounted(cfg, after, rows, next, column, partition) {
      assert PartitionCounted(cfg, counts, rows, n, column, partition);
    }
  }

  lemma {:induction false} EveryRow(cfg: Settings, rows: seq<Row>, n: nat)
    requires n <= |rows|
    ensures RowsWith(cfg, rows, n, Every) == n && RowsWith(cfg, rows, n, Never) == 0
  {
    if n > 0 { EveryRow(cfg, rows, n - 1); }
  }

  lemma {:induction false} NoRowsIn(cfg: Settings, rows: seq<Row>, n: nat, partition: Name)
    requires n <= |rows|
    ensures RowsIn(cfg, rows, n, Every, partition) == 0 <==>
              forall m :: 0 <= m < n ==> rows[m].partition != Some(partition)
  {
    if n > 0 { NoRowsIn(cfg, rows, n - 1, partition); }
  }

  /** The accounts of the target rows: all, ineligible and already known, each partition by partition. */
  ghost predicate TargetsCounted(cfg: Settings, a: Accounts, rows: seq<Row>, n: nat)
    requires n <= |rows|
  {
    && ColumnCounted(cfg, a.total, rows, n, Every) && ColumnCounted(cfg, a.ineligible, rows, n, Ineligible)
    && ColumnCounted(cfg, a.known, rows, n, AlreadyKnown)
  }

  /** Labeled rows are never counted as already known. */
  ghost predicate LabeledCounted(cfg: Settings, a: Accounts, rows: seq<Row>, n: nat)
    requires n <= |rows|
  {
    && ColumnCounted(cfg, a.total, rows, n, Every) && ColumnCounted(cfg, a.ineligible, rows, n, Ineligible)
    && ColumnCounted(cfg, a.known, rows, n, Never)
  }

  lemma {:induction false} CountTarget(cfg: Settings, a: Accounts, rows: seq<Row>, n: nat)
    requires n < |rows| && TargetsCounted(cfg, a, rows, n) && rows[n].partition.Some?
    ensures TargetsCounted(cfg, OneMore(a, rows[n].partition.value,
                                        if Falls(cfg, rows[n], Ineligible) then 1 else 0,
                                        if Falls(cfg, rows[n], AlreadyKnown) then 1 else 0), rows, n + 1)
  {
    CountRow(cfg, a.total, rows, n, Every);
    CountRow(cfg, a.ineligible, rows, n, Ineligible);
    CountRow(cfg, a.known, rows, n, AlreadyKnown);
  }

  lemma {:induction false} CountLabeled(cfg: Settings, a: Accounts, rows: seq<Row>, n: nat)
    requires n < |rows| && LabeledCounted(cfg, a, rows, n) && rows[n].partition.Some?
    ensures LabeledCounted(cfg, OneMore(a, rows[n].partition.value,
                                        if Falls(cfg, rows[n], Ineligible) then 1 else 0, 0), rows, n + 1)
  {
    CountRow(cfg, a.total, rows, n, Every);
    CountRow(cfg, a.ineligible, rows, n, Ineligible);
    CountRow(cfg, a.known, rows, n, Never);
  }

  lemma {:induction false} CountNothing(cfg: Settings, rows: seq<Row>)
    ensures TargetsCounted(cfg, Accounts(map[], map[], map[]), rows, 0)
    ensures LabeledCounted(cfg, Accounts(map[], map[], map[]), rows, 0)
  {
    CountNone(cfg, rows, Every);
    CountNone(cfg, rows, Ineligible);
    CountNone(cfg, rows, AlreadyKnown);
    CountNone(cfg, rows, Never);
  }

  class Index {
    const cfg: Settings
    var labels: Labels
    var targets: Targets
    var labeledRows: Accounts
    var targetRows: Accounts

    constructor (cfg: Settings)
      ensures this.cfg == cfg && labels == map[] && targets == map[]
      ensures labeledRows == targetRows == Accounts(map[], map[], map[])
    {
      this.cfg := cfg;
      labels, targets := map[], map[];
      labeledRows, targetRows := Accounts(map[], map[], map[]), Accounts(map[], map[], map[]);
    }

    /** _index_labeled_rows */
    method IndexLabeledRows(rows: seq<Row>) returns (done: bool)
      requires labels == map[] && labeledRows == Accounts(map[], map[], map[])
      modifies this`labels, this`labeledRows
      ensures done <==> forall m :: 0 <= m < |rows| ==> LabelRowOk(cfg, rows[m])
      ensures done ==> LabelsStored(cfg, labels, rows, |rows|)
      ensures done ==> LabeledCounted(cfg, labeledRows, rows, |rows|)
    {
      CountNothing(cfg, rows);
      for n := 0 to |rows|
        invariant LabelsStored(cfg, labels, rows, n)
        invariant forall m :: 0 <= m < n ==> LabelRowOk(cfg, rows[m])
        invariant LabeledCounted(cfg, labeledRows, rows, n)
      {
        done := IndexLabeledRow(rows, n);
        if !done { return; }
      }
      done := true;
    }

    /** One round of _index_labeled_rows. */
    method IndexLabeledRow(rows: seq<Row>, n: nat) returns (done: bool)
      requires n < |rows| && LabelsStored(cfg, labels, rows, n) && LabeledCounted(cfg, labeledRows, rows, n)
      modifies this`labels, this`labeledRows
      ensures done <==> LabelRowOk(cfg, rows[n])
      ensures done ==> LabelsStored(cfg, labels, rows, n + 1) && LabeledCounted(cfg, labeledRows, rows, n + 1)
    {
      var row := rows[n];
      if row.partition.None? || row.language.None? { return false; }
      var eligible := row.language.value in cfg.languages;
      if eligible && row.resolution.Unreadable? { return false; }
      if eligible && row.resolution.Known? && row.body.None? { return false; }
      CountLabeled(cfg, labeledRows, rows, n);
      labeledRows := OneMore(labeledRows, row.partition.value, if eligible then 0 else 1, 0);
      ghost var before := labels;
      if eligible && row.resolution.Known? { StoreLabel(row); }
      LabelStep(cfg, before, labels, rows, n);
      done := true;
    }

    /** INSERT OR IGNORE INTO label_observations */
    method StoreLabel(row: Row)
      requires row.language.Some? && row.resolution.Known? && row.body.Some?
      modifies this`labels
      ensures var body := row.body.value;
              var l := LabelId(cfg.key(body.instance, body.patch), row.resolution.resolved, body.reference);
              labels == if l in old(labels) then old(labels) else old(labels)[l := row.language.value]
    {
      var body := row.body.value;
      var key := cfg.key(body.instance, body.patch);
      var l := LabelId(key, row.resolution.resolved, body.reference);
      if l !in labels { labels := labels[l := row.language.value]; }
    }

    /** INSERT OR IGNORE INTO targets */
    method StoreTarget(row: Row)
      requires row.language.Some? && row.body.Some?
      modifies this`targets
      ensures var body := row.body.value;
              var t := TargetId(cfg.key(body.instance, body.patch), body.reference);
              targets == if t in old(targets) then old(targets)
                         else old(targets)[t := Identity(body.instance, row.language.value, body.patch)]
    {
      var body := row.body.value;
      var key := cfg.key(body.instance, body.patch);
      var t := TargetId(key, body.reference);
      if t !in targets { targets := targets[t := Identity(body.instance, row.language.value, body.patch)]; }
    }

    /** Every one of the first n target rows is ineligible, already known, stored, or a repetition. */
    ghost predicate Accounted(rows: seq<Row>, n: nat)
      requires n <= |rows|
      reads this
    {
      && TargetsCounted(cfg, targetRows, rows, n)
      && n == Total(targetRows.ineligible) + Total(targetRows.known) + |targets| + Dropped(cfg, rows, n)
    }

    /** _index_target_rows: stores the queued rows and accounts for every row. */
    method IndexTargetRows(rows: seq<Row>) returns (done: bool)
      requires targets == map[] && targetRows == Accounts(map[], map[], map[])
      modifies this`targets, this`targetRows
      ensures done <==> forall m :: 0 <= m < |rows| ==> TargetRowOk(cfg, rows[m])
      ensures done ==> TargetsStored(cfg, targets, rows, |rows|) && Accounted(rows, |rows|)
    {
      CountNothing(cfg, rows);
      for n := 0 to |rows|
        invariant TargetsStored(cfg, targets, rows, n) && Accounted(rows, n)
        invariant forall m :: 0 <= m < n ==> TargetRowOk(cfg, rows[m])
      {
        done := IndexTargetRow(rows, n);
        if !done { return; }
      }
      done := true;
    }

    /** One round of _index_target_rows. */
    method IndexTargetRow(rows: seq<Row>, n: nat) returns (done: bool)
      requires n < |rows| && TargetsStored(cfg, targets, rows, n) && Accounted(rows, n)
      modifies this`targets, this`targetRows
      ensures done <==> TargetRowOk(cfg, rows[n])
      ensures done ==> TargetsStored(cfg, targets, rows, n + 1) && Accounted(rows, n + 1)
    {
      var row := rows[n];
      if row.partition.None? || row.language.None? { return false; }
      var eligible := row.language.value in cfg.languages;
      if eligible && row.resolution.Unreadable? { return false; }
      if eligible && row.resolution.Unknown? && row.body.None? { return false; }
      var known := eligible && row.resolution.Known?;
      CountTarget(cfg, targetRows, rows, n);
      targetRows := OneMore(targetRows, row.partition.value, if eligible then 0 else 1, if known then 1 else 0);
      ghost var before := targets;
      if eligible && !known { StoreTarget(row); }
      TargetStep(cfg, before, targets, rows, n);
      done := true;
    }
  }

  lemma {:induction false} LabelStep(cfg: Settings, before: Labels, after: Labels, rows: seq<Row>, n: nat)
    requires n < |rows| && LabelsStored(cfg, before, rows, n)
    requires after == if Labeled(cfg, rows[n]) && LabelOf(cfg, rows[n]) !in before
                      then before[LabelOf(cfg, rows[n]) := rows[n].language.value] else before
    ensures LabelsStored(cfg, after, rows, n + 1)
  {
    var next := n + 1;
    forall l ensures LabelStored(cfg, after, rows, next, l) {
      assert LabelStored(cfg, before, rows, n, l);
      if IsLabel(cfg, rows, n, l) && l !in before {
        assert n < next && rows[n].language == Some(after[l]);
      }
    }
  }

  lemma {:induction false} TargetStep(cfg: Settings, before: Targets, after: Targets, rows: seq<Row>, n: nat)
    requires n < |rows| && TargetsStored(cfg, before, rows, n)
    requires after == if Queued(cfg, rows[n]) && TargetOf(cfg, rows[n]) !in before
                      then before[TargetOf(cfg, rows[n]) := IdentityOf(cfg, rows[n])] else before
    ensures TargetsStored(cfg, after, rows, n + 1)
    ensures |after| == |before| + if Queued(cfg, rows[n]) && !Repeats(cfg, rows, n) then 1 else 0
  {
    var next := n + 1;
    forall t ensures TargetStored(cfg, after, rows, next, t) {
      assert TargetStored(cfg, before, rows, n, t);
      if IsTarget(cfg, rows, n, t) && t !in before {
        assert n < next && IdentityOf(cfg, rows[n]) == after[t];
      }
    }
    if Queued(cfg, rows[n]) {
      assert TargetStored(cfg, before, rows, n, TargetOf(cfg, rows[n]));
    }
  }
}
