/** Task rows and what a batch of them should become: the meaning of the online projection. */
module TaskRows {
  import opened Wrappers

  /** Field values; the program only tests them for equality. */
  type Text = nat

  datatype Record = Record(instance: Text, repository: Text, baseCommit: Text, license: Text, language: Text)

  /** A reason code with its message. The projection errors never use the two reserved codes. */
  datatype Reason = Own(code: Text, message: Text) | Duplicate | Conflict

  /** What project_task_provenance makes of a row; repository is the row's own, uncanonical field. */
  datatype Row =
    | Valid(record: Record, repository: Option<Text>)
    | Failing(instance: Option<Text>, repository: Option<Text>, why: Reason)

  datatype Rejection = Rejection(instance: Option<Text>, repository: Option<Text>, reason: Reason,
                                 cause: Option<Reason>)

  predicate Legal(row: Row) {
    row.Failing? ==> row.why.Own?
  }

  ghost predicate AllLegal(rows: seq<Row>) {
    forall k :: 0 <= k < |rows| ==> Legal(rows[k])
  }

  function IdOf(row: Row): Option<Text> {
    match row
    case Valid(record, _) => Some(record.instance)
    case Failing(instance, _, _) => instance
  }

  predicate Has(rows: seq<Row>, k: nat, i: Text) {
    k < |rows| && IdOf(rows[k]) == Some(i)
  }

  // The batch classification, as one reads it.

  predicate SameOutcome(a: Row, b: Row) {
    if a.Valid? then b.Valid? && a.record == b.record else b.Failing?
  }

  /** first is the first row of i, and every row of i among the first n projects to record. */
  ghost predicate Unanimous(rows: seq<Row>, n: nat, i: Text, first: nat, record: Record) {
    && first < n && Has(rows, first, i) && (forall k: nat :: k < first ==> !Has(rows, k, i))
    && forall k: nat :: k < n && Has(rows, k, i) ==> rows[k].Valid? && rows[k].record == record
  }

  ghost predicate Seen(rows: seq<Row>, n: nat, i: Text) {
    exists k: nat :: k < n && Has(rows, k, i)
  }

  ghost predicate OnlyFailures(rows: seq<Row>, n: nat, i: Text) {
    Seen(rows, n, i) && forall k: nat :: k < n && Has(rows, k, i) ==> rows[k].Failing?
  }

  /** Two rows of i with different records, or one valid and one failing. */
  ghost predicate Mixed(rows: seq<Row>, n: nat, i: Text) {
    exists a: nat, b: nat :: a < n && b < n && Has(rows, a, i) && Has(rows, b, i) && !SameOutcome(rows[a], rows[b])
  }

  // The same, one row at a time.

  datatype Status = Absent | Admitted(first: nat, record: Record) | Rejected | Conflicting

  function Advance(status: Status, row: Row, k: nat): Status {
    match status
    case Absent => if row.Valid? then Admitted(k, row.record) else Rejected
    case Admitted(_, record) => if row.Valid? && row.record == record then status else Conflicting
    case Rejected => if row.Valid? then Conflicting else Rejected
    case Conflicting => Conflicting
  }

  function StatusOf(rows: seq<Row>, n: nat, i: Text): Status
    requires n <= |rows|
  {
    if n == 0 then Absent
    else
      var before := StatusOf(rows, n - 1, i);
      if Has(rows, n - 1, i) then Advance(before, rows[n - 1], n - 1) else before
  }

  ghost predicate Means(rows: seq<Row>, n: nat, i: Text, status: Status) {
    match status
    case Absent => !Seen(rows, n, i)
    case Admitted(first, record) => Unanimous(rows, n, i, first, record)
    case Rejected => OnlyFailures(rows, n, i)
    case Conflicting => Mixed(rows, n, i)
  }

  lemma {:induction false} StatusMeans(rows: seq<Row>, n: nat, i: Text)
    requires n <= |rows|
    ensures Means(rows, n, i, StatusOf(rows, n, i))
  {
    if n > 0 {
      StatusMeans(rows, n - 1, i);
      if Has(rows, n - 1, i) { AdvanceMeans(rows, n - 1, i, StatusOf(rows, n - 1, i)); }
    }
  }

  lemma {:induction false} AdvanceMeans(rows: seq<Row>, n: nat, i: Text, status: Status)
    requires n < |rows| && Has(rows, n, i) && Means(rows, n, i, status)
    ensures Means(rows, n + 1, i, Advance(status, rows[n], n))
  {
    assert Has(rows, n, i) && n < n + 1;
    match status
    case Absent =>
    case Admitted(first, record) => assert SameOutcome(rows[first], rows[n]) || Mixed(rows, n + 1, i);
    case Rejected =>
      var k: nat :| k < n && Has(rows, k, i);
      assert SameOutcome(rows[k], rows[n]) || Mixed(rows, n + 1, i);
    case Conflicting =>
      var a: nat, b: nat :| a < n && b < n && Has(rows, a, i) && Has(rows, b, i) && !SameOutcome(rows[a], rows[b]);
      assert a < n + 1 && b < n + 1;
  }

  /** The status of an id is its batch classification: admitted iff all its rows project to one record,
      rejected iff all fail, conflicting iff it mixes records or mixes valid and failing rows. */
  lemma {:induction false} StatusIsBatch(rows: seq<Row>, n: nat, i: Text)
    requires n <= |rows|
    ensures StatusOf(rows, n, i).Absent? <==> !Seen(rows, n, i)
    ensures forall first, record :: StatusOf(rows, n, i) == Admitted(first, record) <==>
              Unanimous(rows, n, i, first, record)
    ensures StatusOf(rows, n, i).Rejected? <==> OnlyFailures(rows, n, i)
    ensures StatusOf(rows, n, i).Conflicting? <==> Mixed(rows, n, i)
  {
    StatusMeans(rows, n, i);
    forall first, record | Unanimous(rows, n, i, first, record)
      ensures StatusOf(rows, n, i) == Admitted(first, record)
    {
      assert Has(rows, first, i);
    }
  }

  // The rejection each row ends with.

  function Plain(row: Row, reason: Reason): Rejection {
    Rejection(IdOf(row), row.repository, reason, None)
  }

  /** _reclassify_rejections_as_conflict, for one rejection: what it was before becomes its cause. */
  function Reclassified(r: Rejection): Rejection {
    r.(reason := Conflict, cause := if r.reason != Conflict then Some(r.reason) else r.cause)
  }

  /** How row k of a conflicting id is rejected. A failing row keeps its own reason as the cause; a row that was
      first a duplicate keeps that; the row once admitted shows the canonical repository. */
  function Withdrawn(rows: seq<Row>, k: nat, i: Text): Rejection
    requires k < |rows|
  {
    var row := rows[k];
    match row
    case Failing(_, repository, why) => Rejection(Some(i), repository, Conflict, Some(why))
    case Valid(record, repository) =>
      match StatusOf(rows, k, i)
      case Absent => Rejection(Some(i), Some(record.repository), Conflict, None)
      case Admitted(_, admitted) =>
        Rejection(Some(i), repository, Conflict, if admitted == record then Some(Duplicate) else None)
      case _ => Rejection(Some(i), repository, Conflict, None)
  }

  /** How row k stands after the first n rows: not rejected at all, or with which rejection. */
  function Expected(rows: seq<Row>, n: nat, k: nat): Option<Rejection>
    requires k < n <= |rows|
  {
    var row := rows[k];
    match IdOf(row)
    case None => Some(Plain(row, row.why))
    case Some(i) =>
      match StatusOf(rows, n, i)
      case Admitted(first, _) => if k == first then None else Some(Plain(row, Duplicate))
      case Conflicting => Some(Withdrawn(rows, k, i))
      case _ => Some(Plain(row, if row.Failing? then row.why else Conflict))
  }

  /** What the rows of an id looked like while it is still admitted, or still only rejected. */
  lemma {:induction false} History(rows: seq<Row>, n: nat, i: Text, k: nat)
    requires k < n <= |rows| && Has(rows, k, i)
    ensures !StatusOf(rows, n, i).Absent?
    ensures StatusOf(rows, n, i).Rejected? ==> rows[k].Failing?
    ensures StatusOf(rows, n, i).Admitted? ==>
              && rows[k].Valid? && rows[k].record == StatusOf(rows, n, i).record
              && StatusOf(rows, k, i) == if k == StatusOf(rows, n, i).first then Absent else StatusOf(rows, n, i)
  {
    if k < n - 1 {
      History(rows, n - 1, i, k);
    }
    FirstIsEarlier(rows, n - 1, i);
  }

  lemma {:induction false} FirstIsEarlier(rows: seq<Row>, n: nat, i: Text)
    requires n <= |rows|
    ensures StatusOf(rows, n, i).Admitted? ==>
              StatusOf(rows, n, i).first < n && Has(rows, StatusOf(rows, n, i).first, i)
  {
    if n > 0 {
      FirstIsEarlier(rows, n - 1, i);
    }
  }

  /** The next row changes the rejection of an earlier one only when their id turns into a conflict. */
  lemma {:induction false} ExpectedStep(rows: seq<Row>, n: nat, k: nat)
    requires k < n < |rows| && AllLegal(rows)
    ensures IdOf(rows[k]).None? || !Has(rows, n, IdOf(rows[k]).value) ==>
              Expected(rows, n + 1, k) == Expected(rows, n, k)
    ensures IdOf(rows[k]).Some? && Has(rows, n, IdOf(rows[k]).value) ==>
              var i := IdOf(rows[k]).value;
              var before, now := StatusOf(rows, n, i), StatusOf(rows, n + 1, i);
              if before == now then Expected(rows, n + 1, k) == Expected(rows, n, k)
              else if before.Admitted? && before.first == k then
                && Expected(rows, n, k).None?
                && Expected(rows, n + 1, k) == Some(Rejection(Some(i), Some(before.record.repository), Conflict, None))
              else
                Expected(rows, n, k).Some? && Expected(rows, n + 1, k) == Some(Reclassified(Expected(rows, n, k).value))
  {
    assert Legal(rows[k]);
    if IdOf(rows[k]).Some? {
      var i := IdOf(rows[k]).value;
      if Has(rows, n, i) {
        History(rows, n, i, k);
      }
    }
  }
}
