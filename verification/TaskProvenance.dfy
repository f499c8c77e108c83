/** The online task projection: three tables updated in place, one row at a time. */
module TaskProvenance {
  import opened Cursors
  import opened TaskRows
  import opened Sizes
  import opened Wrappers

  datatype Task = Task(rowIndex: nat, record: Record)

  predicate IsOf(rejections: map<nat, Rejection>, k: nat, i: Text) {
    k in rejections && rejections[k].instance == Some(i)
  }

  function RejectionsOf(rejections: map<nat, Rejection>, i: Text): set<nat> {
    set k | k in rejections && IsOf(rejections, k, i)
  }

  /** The rejections after the ones at done have been relabelled. */
  ghost predicate Relabelled(before: map<nat, Rejection>, after: map<nat, Rejection>, done: set<nat>) {
    after.Keys == before.Keys && forall k :: RelabelledAt(before, after, done, k)
  }

  predicate RelabelledAt(before: map<nat, Rejection>, after: map<nat, Rejection>, done: set<nat>, k: nat) {
    k in before && k in after ==> after[k] == if k in done then Reclassified(before[k]) else before[k]
  }

  datatype Tables = Tables(tasks: map<Text, Task>, conflicts: set<Text>, rejections: map<nat, Rejection>)

  predicate TaskAgrees(t: Tables, rows: seq<Row>, n: nat, i: Text)
    requires n <= |rows|
  {
    match StatusOf(rows, n, i)
    case Admitted(first, record) => i in t.tasks && t.tasks[i] == Task(first, record) && i !in t.conflicts
    case Conflicting => i !in t.tasks && i in t.conflicts
    case _ => i !in t.tasks && i !in t.conflicts
  }

  predicate RejectionAgrees(t: Tables, rows: seq<Row>, n: nat, k: nat)
    requires n <= |rows|
  {
    if k >= n then k !in t.rejections
    else
      match Expected(rows, n, k)
      case None => k !in t.rejections
      case Some(rejection) => k in t.rejections && t.rejections[k] == rejection
  }

  /** The tables are the batch classification of the first n rows, and each row is in exactly one of them. */
  ghost predicate Agrees(t: Tables, rows: seq<Row>, n: nat)
    requires n <= |rows|
  {
    && (forall i :: TaskAgrees(t, rows, n, i)) && (forall k :: RejectionAgrees(t, rows, n, k))
    && |t.tasks| + |t.rejections| == n
  }

  class Projection {
    var tasks: map<Text, Task>
    var conflicts: set<Text>
    var rejections: map<nat, Rejection>

    constructor ()
      ensures Contents() == Tables(map[], {}, map[])
    {
      tasks, conflicts, rejections := map[], {}, map[];
    }

    function Contents(): Tables
      reads this
    {
      Tables(tasks, conflicts, rejections)
    }

    /** _insert_rejection: INSERT OR REPLACE. */
    method InsertRejection(k: nat, rejection: Rejection)
      modifies this`rejections
      ensures rejections == old(rejections)[k := rejection]
    {
      rejections := rejections[k := rejection];
    }

    /** _reclassify_rejections_as_conflict */
    method ReclassifyRejections(i: Text)
      modifies this`rejections
      ensures Relabelled(old(rejections), rejections, RejectionsOf(old(rejections), i))
    {
      ghost var before := rejections;
      var cursor := OrderBy(RejectionsOf(rejections, i));
      AllElements(cursor);
      for j := 0 to |cursor|
        invariant Relabelled(before, rejections, Elements(cursor[..j]))
      {
        NewElement(cursor, j);
        ElementsStep(cursor, j);
        var k := cursor[j];
        assert RelabelledAt(before, rejections, Elements(cursor[..j]), k);
        ghost var last := rejections;
        rejections := rejections[k := Reclassified(rejections[k])];
        RelabelMore(before, last, rejections, Elements(cursor[..j]), k);
      }
    }

    /** _mark_instance_conflict, with the task to withdraw if there is one. */
    method MarkConflict(i: Text, admitted: Option<Task>) returns (ghost relabelled: map<nat, Rejection>)
      modifies this`tasks, this`conflicts, this`rejections
      ensures tasks == old(tasks) - {i} && conflicts == old(conflicts) + {i}
      ensures Relabelled(old(rejections), relabelled, RejectionsOf(old(rejections), i))
      ensures rejections == WithTask(relabelled, i, admitted)
    {
      tasks := tasks - {i};
      conflicts := conflicts + {i};
      ReclassifyRejections(i);
      relabelled := rejections;
      if admitted.Some? {
        InsertRejection(admitted.value.rowIndex,
                        Rejection(Some(i), Some(admitted.value.record.repository), Conflict, None));
      }
    }

    method FindTask(i: Text) returns (task: Option<Task>)
      ensures task == FoundTask(tasks, i)
    {
      task := FoundTask(tasks, i);
    }

    /** SELECT 1 FROM rejections WHERE instance_id = ? LIMIT 1 */
    method HasRejection(i: Text) returns (found: bool)
      ensures found <==> RejectionsOf(rejections, i) != {}
    {
      found := RejectionsOf(rejections, i) != {};
    }

    /** A row that fails to project, with a readable id. */
    method RejectFailing(rows: seq<Row>, n: nat, i: Text)
      requires n < |rows| && AllLegal(rows) && Agrees(Contents(), rows, n) && rows[n].Failing? && Has(rows, n, i)
      modifies this
      ensures Agrees(Contents(), rows, n + 1)
    {
      ghost var t := Contents();
      assert TaskAgrees(t, rows, n, i);
      var row := rows[n];
      if i in conflicts {
        InsertRejection(n, Rejection(Some(i), row.repository, Conflict, Some(row.why)));
        RejectStep(t, rows, n, rejections[n]);
        return;
      }
      var existing := FindTask(i);
      InsertRejection(n, Plain(row, row.why));
      if existing.Some? {
        ghost var inserted := rejections;
        ghost var relabelled := MarkConflict(i, existing);
        FailingConflict(t, rows, n, i, inserted, relabelled);
        ConflictStep(t, Contents(), rows, n, i);
      } else {
        RejectStep(t, rows, n, rejections[n]);
      }
    }

    /** A row that projects to a record. */
    method AddValid(rows: seq<Row>, n: nat, i: Text)
      requires n < |rows| && AllLegal(rows) && Agrees(Contents(), rows, n) && rows[n].Valid? && Has(rows, n, i)
      modifies this
      ensures Agrees(Contents(), rows, n + 1)
    {
      ghost var t := Contents();
      assert TaskAgrees(t, rows, n, i);
      var row := rows[n];
      if i in conflicts {
        InsertRejection(n, Plain(row, Conflict));
        RejectStep(t, rows, n, rejections[n]);
        return;
      }
      var existing := FindTask(i);
      var failed := HasRejection(i);
      RejectedBefore(t, rows, n, i);
      FirstIsEarlier(rows, n, i);
      if existing.None? && !failed {
        tasks := tasks[i := Task(n, row.record)];
        AdmitStep(t, rows, n, i);
      } else if existing.Some? && existing.value.record == row.record {
        InsertRejection(n, Plain(row, Duplicate));
        RejectStep(t, rows, n, rejections[n]);
      } else {
        ConflictValid(rows, n, i, existing);
      }
    }

    /** A valid row whose id was admitted with another record, or only ever failed. */
    method ConflictValid(rows: seq<Row>, n: nat, i: Text, existing: Option<Task>)
      requires n < |rows| && AllLegal(rows) && Agrees(Contents(), rows, n) && rows[n].Valid? && Has(rows, n, i)
      requires StatusOf(rows, n, i).Rejected?
               || (StatusOf(rows, n, i).Admitted? && StatusOf(rows, n, i).record != rows[n].record)
      requires existing == FoundTask(tasks, i)
      modifies this
      ensures Agrees(Contents(), rows, n + 1)
    {
      ghost var t := Contents();
      ghost var relabelled := MarkConflict(i, existing);
      InsertRejection(n, Plain(rows[n], Conflict));
      ValidConflict(t, rows, n, i, relabelled, rejections);
      ConflictStep(t, Contents(), rows, n, i);
    }

    /** task_provenance_projection: the online tables end as the batch classification of all rows. */
    method Project(rows: seq<Row>)
      requires AllLegal(rows) && Contents() == Tables(map[], {}, map[])
      modifies this
      ensures Agrees(Contents(), rows, |rows|)
    {
      for n := 0 to |rows|
        invariant Agrees(Contents(), rows, n)
      {
        match IdOf(rows[n])
        case None =>
          ghost var t := Contents();
          InsertRejection(n, Plain(rows[n], rows[n].why));
          assert Expected(rows, n + 1, n) == Some(Plain(rows[n], rows[n].why));
          RejectStep(t, rows, n, Plain(rows[n], rows[n].why));
        case Some(i) =>
          if rows[n].Failing? {
            RejectFailing(rows, n, i);
          } else {
            AddValid(rows, n, i);
          }
      }
    }
  }

  function FoundTask(tasks: map<Text, Task>, i: Text): Option<Task> {
    if i in tasks then Some(tasks[i]) else None
  }

  /** While an id is not a conflict, it has rejections or a task iff a row of it was seen. */
  lemma {:induction false} RejectedBefore(t: Tables, rows: seq<Row>, n: nat, i: Text)
    requires n < |rows| && Agrees(t, rows, n)
    ensures StatusOf(rows, n, i).Absent? ==> RejectionsOf(t.rejections, i) == {}
    ensures StatusOf(rows, n, i).Rejected? ==> RejectionsOf(t.rejections, i) != {}
  {
    StatusMeans(rows, n, i);
    if StatusOf(rows, n, i).Rejected? {
      var k: nat :| k < n && Has(rows, k, i);
      assert RejectionAgrees(t, rows, n, k);
      assert k in RejectionsOf(t.rejections, i);
    }
    if StatusOf(rows, n, i).Absent? && RejectionsOf(t.rejections, i) != {} {
      var k :| k in RejectionsOf(t.rejections, i);
      assert RejectionAgrees(t, rows, n, k);
      ExpectedId(rows, n, k);
      assert Has(rows, k, i);
    }
  }

  /** The failing row's own rejection is inserted first, then relabelled with the others. */
  lemma {:induction false} FailingConflict(t: Tables, rows: seq<Row>, n: nat, i: Text, inserted: map<nat, Rejection>,
                                           relabelled: map<nat, Rejection>)
    requires n < |rows| && AllLegal(rows) && Agrees(t, rows, n) && rows[n].Failing? && Has(rows, n, i) && i in t.tasks
    requires inserted == t.rejections[n := Plain(rows[n], rows[n].why)]
    requires Relabelled(inserted, relabelled, RejectionsOf(inserted, i))
    ensures forall k: nat :: ConflictAt(t, WithTask(relabelled, i, FoundTask(t.tasks, i)), rows, n, i, k)
  {
    assert TaskAgrees(t, rows, n, i) && Legal(rows[n]);
    FirstIsEarlier(rows, n, i);
    forall k: nat ensures ConflictAt(t, WithTask(relabelled, i, FoundTask(t.tasks, i)), rows, n, i, k) {
      assert RelabelledAt(inserted, relabelled, RejectionsOf(inserted, i), k);
      assert k in RejectionsOf(inserted, i) <==> IsOf(inserted, k, i);
    }
  }

  /** The prior rejections are relabelled first, then the valid row's own is inserted. */
  lemma {:induction false} ValidConflict(t: Tables, rows: seq<Row>, n: nat, i: Text, relabelled: map<nat, Rejection>,
                                         after: map<nat, Rejection>)
    requires n < |rows| && AllLegal(rows) && Agrees(t, rows, n) && rows[n].Valid? && Has(rows, n, i)
    requires StatusOf(rows, n, i).Rejected?
             || (StatusOf(rows, n, i).Admitted? && StatusOf(rows, n, i).record != rows[n].record)
    requires Relabelled(t.rejections, relabelled, RejectionsOf(t.rejections, i))
    requires after == WithTask(relabelled, i, FoundTask(t.tasks, i))[n := Plain(rows[n], Conflict)]
    ensures forall k: nat :: ConflictAt(t, after, rows, n, i, k)
  {
    assert TaskAgrees(t, rows, n, i);
    FirstIsEarlier(rows, n, i);
    forall k: nat ensures ConflictAt(t, after, rows, n, i, k) {
      assert RelabelledAt(t.rejections, relabelled, RejectionsOf(t.rejections, i), k);
      assert k in RejectionsOf(t.rejections, i) <==> IsOf(t.rejections, k, i);
    }
  }

  /** The rejection of the withdrawn task, if there was one. */
  function WithTask(rejections: map<nat, Rejection>, i: Text, task: Option<Task>): map<nat, Rejection> {
    match task
    case None => rejections
    case Some(Task(k, record)) => rejections[k := Rejection(Some(i), Some(record.repository), Conflict, None)]
  }

  /** The new row is rejected, and the status of its id stays or becomes Rejected. */
  lemma {:induction false} RejectStep(t: Tables, rows: seq<Row>, n: nat, r: Rejection)
    requires n < |rows| && AllLegal(rows) && Agrees(t, rows, n) && Expected(rows, n + 1, n) == Some(r)
    requires IdOf(rows[n]).Some? ==>
               var i := IdOf(rows[n]).value;
               StatusOf(rows, n + 1, i) == StatusOf(rows, n, i) ||
               (StatusOf(rows, n, i).Absent? && StatusOf(rows, n + 1, i).Rejected?)
    ensures Agrees(t.(rejections := t.rejections[n := r]), rows, n + 1)
  {
    var u := t.(rejections := t.rejections[n := r]);
    assert RejectionAgrees(t, rows, n, n);
    var m := n + 1;
    forall k: nat ensures RejectionAgrees(u, rows, m, k) {
      assert RejectionAgrees(t, rows, n, k);
      if k < n {
        ExpectedStep(rows, n, k);
        if IdOf(rows[k]).Some? { History(rows, n, IdOf(rows[k]).value, k); }
      }
    }
    forall i ensures TaskAgrees(u, rows, m, i) {
      assert TaskAgrees(t, rows, n, i);
    }
  }

  /** The new row is the first of its id. */
  lemma {:induction false} AdmitStep(t: Tables, rows: seq<Row>, n: nat, i: Text)
    requires n < |rows| && AllLegal(rows) && Agrees(t, rows, n)
    requires rows[n].Valid? && rows[n].record.instance == i && StatusOf(rows, n, i).Absent?
    ensures Agrees(t.(tasks := t.tasks[i := Task(n, rows[n].record)]), rows, n + 1)
  {
    var u := t.(tasks := t.tasks[i := Task(n, rows[n].record)]);
    assert TaskAgrees(t, rows, n, i);
    var m := n + 1;
    forall k: nat ensures RejectionAgrees(u, rows, m, k) {
      assert RejectionAgrees(t, rows, n, k);
      if k < n {
        ExpectedStep(rows, n, k);
        if Has(rows, k, i) { History(rows, n, i, k); }
      }
    }
    forall j ensures TaskAgrees(u, rows, m, j) {
      assert TaskAgrees(t, rows, n, j);
    }
  }

  /** What turning the id i of row n into a conflict does to rejection k. */
  predicate ConflictAt(t: Tables, rejections: map<nat, Rejection>, rows: seq<Row>, n: nat, i: Text, k: nat)
    requires n < |rows|
  {
    if k == n then k in rejections && rejections[k] == Withdrawn(rows, n, i)
    else if i in t.tasks && k == t.tasks[i].rowIndex then
      k in rejections && rejections[k] == Rejection(Some(i), Some(t.tasks[i].record.repository), Conflict, None)
    else if k in t.rejections then
      k in rejections &&
      rejections[k] == if IsOf(t.rejections, k, i) then Reclassified(t.rejections[k]) else t.rejections[k]
    else k !in rejections
  }

  lemma {:induction false} ConflictRow(t: Tables, u: Tables, rows: seq<Row>, n: nat, i: Text, k: nat)
    requires n < |rows| && AllLegal(rows) && Has(rows, n, i)
    requires RejectionAgrees(t, rows, n, k) && TaskAgrees(t, rows, n, i) && ConflictAt(t, u.rejections, rows, n, i, k)
    requires !StatusOf(rows, n, i).Conflicting? && StatusOf(rows, n + 1, i).Conflicting?
    ensures RejectionAgrees(u, rows, n + 1, k)
  {
    FirstIsEarlier(rows, n, i);
    if k < n {
      ExpectedStep(rows, n, k);
      ExpectedId(rows, n, k);
      if Has(rows, k, i) { History(rows, n, i, k); }
    }
  }

  lemma {:induction false} ConflictTask(t: Tables, u: Tables, rows: seq<Row>, n: nat, i: Text, j: Text)
    requires n < |rows| && Has(rows, n, i) && TaskAgrees(t, rows, n, j) && StatusOf(rows, n + 1, i).Conflicting?
    requires u.tasks == t.tasks - {i} && u.conflicts == t.conflicts + {i}
    ensures TaskAgrees(u, rows, n + 1, j)
  {
  }

  lemma {:induction false} ExpectedId(rows: seq<Row>, n: nat, k: nat)
    requires k < n <= |rows|
    ensures Expected(rows, n, k).Some? ==> Expected(rows, n, k).value.instance == IdOf(rows[k])
  {
  }

  /** The new row turns its id into a conflict: the admitted row is withdrawn and its rejections relabelled. */
  lemma {:induction false} ConflictStep(t: Tables, u: Tables, rows: seq<Row>, n: nat, i: Text)
    requires n < |rows| && AllLegal(rows) && Agrees(t, rows, n) && Has(rows, n, i)
    requires !StatusOf(rows, n, i).Conflicting? && StatusOf(rows, n + 1, i).Conflicting?
    requires u.tasks == t.tasks - {i} && u.conflicts == t.conflicts + {i}
    requires forall k: nat :: ConflictAt(t, u.rejections, rows, n, i, k)
    ensures Agrees(u, rows, n + 1)
  {
    var m := n + 1;
    assert TaskAgrees(t, rows, n, i);
    forall k: nat ensures RejectionAgrees(u, rows, m, k) {
      assert RejectionAgrees(t, rows, n, k) && ConflictAt(t, u.rejections, rows, n, i, k);
      ConflictRow(t, u, rows, n, i, k);
    }
    forall j ensures TaskAgrees(u, rows, m, j) {
      assert TaskAgrees(t, rows, n, j);
      ConflictTask(t, u, rows, n, i, j);
    }
    ConflictSizes(t, u, rows, n, i);
  }

  /** The rows that gain a rejection: the new one and the withdrawn one. */
  function Gaining(t: Tables, n: nat, i: Text): set<nat> {
    if i in t.tasks then {n, t.tasks[i].rowIndex} else {n}
  }

  lemma {:induction false} GainingAreNew(t: Tables, rows: seq<Row>, n: nat, i: Text)
    requires n < |rows| && Agrees(t, rows, n)
    ensures forall k :: k in Gaining(t, n, i) ==> k !in t.rejections
    ensures |Gaining(t, n, i)| == if i in t.tasks then 2 else 1
  {
    assert TaskAgrees(t, rows, n, i) && RejectionAgrees(t, rows, n, n);
    if i in t.tasks {
      FirstIsEarlier(rows, n, i);
      assert RejectionAgrees(t, rows, n, t.tasks[i].rowIndex);
    }
  }

  lemma {:induction false} ConflictSizes(t: Tables, u: Tables, rows: seq<Row>, n: nat, i: Text)
    requires n < |rows| && Agrees(t, rows, n) && u.tasks == t.tasks - {i}
    requires forall k: nat :: ConflictAt(t, u.rejections, rows, n, i, k)
    ensures |u.tasks| + |u.rejections| == n + 1
  {
    forall k: nat ensures k in u.rejections <==> k in t.rejections || k in Gaining(t, n, i) {
      assert ConflictAt(t, u.rejections, rows, n, i, k);
    }
    GainingAreNew(t, rows, n, i);
    Removed(t.tasks, i);
    Grown(t.rejections, u.rejections, Gaining(t, n, i));
  }

  lemma {:induction false} RelabelMore(before: map<nat, Rejection>, last: map<nat, Rejection>,
                                       after: map<nat, Rejection>, done: set<nat>, k: nat)
    requires Relabelled(before, last, done) && k in before && k !in done && k in last && last[k] == before[k]
    requires after == last[k := Reclassified(last[k])]
    ensures Relabelled(before, after, done + {k})
  {
    forall m ensures RelabelledAt(before, after, done + {k}, m) {
      assert RelabelledAt(before, last, done, m);
    }
  }
}
