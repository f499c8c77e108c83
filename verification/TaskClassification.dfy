/** What the finished task projection means, whatever the order of its input. */
module TaskClassification {
  import opened TaskRows
  import opened TaskProvenance
  import opened Tallies
  import opened Sizes
  import opened Wrappers

  datatype Code = OwnCode(code: Text) | DuplicateCode | ConflictCode

  function CodeOf(reason: Reason): Code {
    match reason
    case Own(code, _) => OwnCode(code)
    case Duplicate => DuplicateCode
    case Conflict => ConflictCode
  }

  predicate RejectedAs(t: Tables, k: nat, reason: Reason, cause: Option<Reason>) {
    k in t.rejections && t.rejections[k].reason == reason && t.rejections[k].cause == cause
  }

  /** The online projection ends as the batch classification: an id is admitted, at its first row, iff all its
      rows project to one record. */
  lemma {:induction false} AdmittedExactly(t: Tables, rows: seq<Row>, i: Text, first: nat, record: Record)
    requires Agrees(t, rows, |rows|)
    ensures i in t.tasks && t.tasks[i] == Task(first, record) <==> Unanimous(rows, |rows|, i, first, record)
  {
    assert TaskAgrees(t, rows, |rows|, i);
    StatusIsBatch(rows, |rows|, i);
  }

  /** How each row ends: the first row of an admitted id is not rejected and its other rows are duplicates; rows of
      an id that only fails keep their own reasons; every row of a mixed id is a conflict, and a failing one keeps
      its own reason as the cause. */
  lemma {:induction false} RejectedExactly(t: Tables, rows: seq<Row>, k: nat)
    requires Agrees(t, rows, |rows|) && AllLegal(rows) && k < |rows|
    ensures IdOf(rows[k]).None? ==> RejectedAs(t, k, rows[k].why, None)
    ensures forall first, record | IdOf(rows[k]).Some? && Unanimous(rows, |rows|, IdOf(rows[k]).value, first, record) ::
              if k == first then k !in t.rejections else RejectedAs(t, k, Duplicate, None)
    ensures IdOf(rows[k]).Some? && OnlyFailures(rows, |rows|, IdOf(rows[k]).value) ==>
              RejectedAs(t, k, rows[k].why, None)
    ensures IdOf(rows[k]).Some? && Mixed(rows, |rows|, IdOf(rows[k]).value) ==>
              k in t.rejections && t.rejections[k].reason == Conflict && t.rejections[k].instance == IdOf(rows[k])
              && (rows[k].Failing? ==> t.rejections[k].cause == Some(rows[k].why))
    ensures k in t.rejections && !(IdOf(rows[k]).Some? && Mixed(rows, |rows|, IdOf(rows[k]).value)) ==>
              t.rejections[k].repository == rows[k].repository
              && t.rejections[k].instance == if rows[k].Valid? then Some(rows[k].record.instance) else rows[k].instance
  {
    assert RejectionAgrees(t, rows, |rows|, k);
    if IdOf(rows[k]).Some? {
      var i := IdOf(rows[k]).value;
      StatusIsBatch(rows, |rows|, i);
      History(rows, |rows|, i, k);
    }
  }

  /** An earlier row of the id exists, and all earlier ones project to this record. */
  ghost predicate RepeatsAll(rows: seq<Row>, k: nat, i: Text, record: Record) {
    Seen(rows, k, i) && forall j: nat :: j < k && Has(rows, j, i) ==> rows[j].Valid? && rows[j].record == record
  }

  lemma {:induction false} RepeatsWhenAdmitted(rows: seq<Row>, k: nat, i: Text, record: Record)
    requires k <= |rows|
    ensures RepeatsAll(rows, k, i, record) <==> StatusOf(rows, k, i).Admitted? && StatusOf(rows, k, i).record == record
  {
    StatusMeans(rows, k, i);
    if RepeatsAll(rows, k, i, record) {
      var j: nat :| j < k && Has(rows, j, i);
      History(rows, k, i, j);
    }
    if StatusOf(rows, k, i).Admitted? {
      assert Has(rows, StatusOf(rows, k, i).first, i);
    }
  }

  /** How a row of a mixed id is rejected, field by field. The cause of a failing row is its own reason. A valid row
      was first a duplicate exactly when all rows of the id before it, and at least one, gave its record. The first row
      of the id, if valid, was once admitted and shows the canonical repository; every other row shows its own. */
  lemma {:induction false} WithdrawnExactly(t: Tables, rows: seq<Row>, k: nat, i: Text)
    requires Agrees(t, rows, |rows|) && Has(rows, k, i) && Mixed(rows, |rows|, i)
    ensures k in t.rejections && t.rejections[k].reason == Conflict && t.rejections[k].instance == Some(i)
    ensures rows[k].Failing? ==>
              && t.rejections[k].cause == Some(rows[k].why)
              && t.rejections[k].repository == rows[k].repository
    ensures rows[k].Valid? ==>
              t.rejections[k].cause == if RepeatsAll(rows, k, i, rows[k].record) then Some(Duplicate) else None
    ensures rows[k].Valid? ==>
              t.rejections[k].repository ==
                if Seen(rows, k, i) then rows[k].repository else Some(rows[k].record.repository)
  {
    assert RejectionAgrees(t, rows, |rows|, k);
    StatusIsBatch(rows, |rows|, i);
    StatusIsBatch(rows, k, i);
    if rows[k].Valid? { RepeatsWhenAdmitted(rows, k, i, rows[k].record); }
  }

  /** Every row is admitted or rejected, never both. */
  lemma {:induction false} NothingLost(t: Tables, rows: seq<Row>, k: nat)
    requires Agrees(t, rows, |rows|) && k < |rows|
    ensures |t.tasks| + |t.rejections| == |rows|
    ensures k in t.rejections <==> !exists i :: i in t.tasks && t.tasks[i].rowIndex == k
  {
    assert RejectionAgrees(t, rows, |rows|, k);
    forall i | i in t.tasks && t.tasks[i].rowIndex == k ensures k !in t.rejections {
      assert TaskAgrees(t, rows, |rows|, i);
      FirstIsEarlier(rows, |rows|, i);
    }
    if k !in t.rejections {
      var i := IdOf(rows[k]).value;
      assert TaskAgrees(t, rows, |rows|, i);
      assert i in t.tasks && t.tasks[i].rowIndex == k;
    }
  }

  /** Every input has such tables: the projection of all rows. */
  method ProjectRows(rows: seq<Row>) returns (t: Tables)
    requires AllLegal(rows)
    ensures Agrees(t, rows, |rows|)
  {
    var projection := new Projection();
    projection.Project(rows);
    t := projection.Contents();
  }

  // Reordering.

  ghost predicate Reordered(a: seq<Row>, b: seq<Row>) {
    multiset(a) == multiset(b)
  }

  lemma {:induction false} RowMoves(a: seq<Row>, b: seq<Row>, k: nat) returns (j: nat)
    requires Reordered(a, b) && k < |a|
    ensures j < |b| && b[j] == a[k]
  {
    assert a[k] in multiset(b);
    j :| j < |b| && b[j] == a[k];
  }

  datatype Standing = Nowhere | Kept(record: Record) | Failed | Clashing

  /** The status of an id without the position of its first row. */
  function StandingOf(rows: seq<Row>, i: Text): Standing {
    match StatusOf(rows, |rows|, i)
    case Absent => Nowhere
    case Admitted(_, record) => Kept(record)
    case Rejected => Failed
    case Conflicting => Clashing
  }

  lemma {:induction false} MixedMoves(a: seq<Row>, b: seq<Row>, i: Text)
    requires Reordered(a, b) && Mixed(a, |a|, i)
    ensures Mixed(b, |b|, i)
  {
    var x: nat, y: nat :| x < |a| && y < |a| && Has(a, x, i) && Has(a, y, i) && !SameOutcome(a[x], a[y]);
    var u := RowMoves(a, b, x);
    var v := RowMoves(a, b, y);
    assert Has(b, u, i) && Has(b, v, i) && !SameOutcome(b[u], b[v]);
  }

  lemma {:induction false} StandingMoves(a: seq<Row>, b: seq<Row>, i: Text)
    requires Reordered(a, b)
    ensures StandingOf(a, i) == StandingOf(b, i)
  {
    StatusMeans(a, |a|, i);
    StatusMeans(b, |b|, i);
    if Mixed(a, |a|, i) {
      MixedMoves(a, b, i);
      StatusIsBatch(b, |b|, i);
    } else if Mixed(b, |b|, i) {
      MixedMoves(b, a, i);
    } else if Seen(a, |a|, i) {
      var k: nat :| k < |a| && Has(a, k, i);
      var j := RowMoves(a, b, k);
      History(a, |a|, i, k);
      assert Has(b, j, i);
      History(b, |b|, i, j);
    } else if Seen(b, |b|, i) {
      var k: nat :| k < |b| && Has(b, k, i);
      var j := RowMoves(b, a, k);
      assert Has(a, j, i);
    }
  }

  /** Reordering the input admits the same records. */
  lemma {:induction false} SameRecords(t: Tables, u: Tables, a: seq<Row>, b: seq<Row>)
    requires Agrees(t, a, |a|) && Agrees(u, b, |b|) && Reordered(a, b)
    ensures t.tasks.Keys == u.tasks.Keys && |t.tasks| == |u.tasks|
    ensures forall i :: i in t.tasks && i in u.tasks ==> t.tasks[i].record == u.tasks[i].record
  {
    forall i ensures (i in t.tasks <==> i in u.tasks) && (i in t.tasks ==> t.tasks[i].record == u.tasks[i].record) {
      assert TaskAgrees(t, a, |a|, i) && TaskAgrees(u, b, |b|, i);
      StandingMoves(a, b, i);
    }
    assert t.tasks.Keys == u.tasks.Keys;
    assert |t.tasks| == |t.tasks.Keys| && |u.tasks| == |u.tasks.Keys|;
  }

  /** The code of a row's rejection, counting the first row of an admitted id as a duplicate of itself. */
  function KindOf(rows: seq<Row>, row: Row): Code {
    var own := if row.Failing? then CodeOf(row.why) else ConflictCode;
    match IdOf(row)
    case None => own
    case Some(i) =>
      match StandingOf(rows, i)
      case Kept(_) => DuplicateCode
      case Clashing => ConflictCode
      case _ => own
  }

  function IsKind(rows: seq<Row>, code: Code): Row -> bool {
    row => KindOf(rows, row) == code
  }

  /** rejection_counts_by_code: the group of one code. */
  function GroupOf(t: Tables, code: Code): set<nat> {
    set k | k in t.rejections && CodeOf(t.rejections[k].reason) == code
  }

  function Unrejected(t: Tables, n: nat): set<nat> {
    set k | 0 <= k < n && k !in t.rejections
  }

  lemma {:induction false} UnrejectedSize(t: Tables, rows: seq<Row>)
    requires Agrees(t, rows, |rows|)
    ensures |Unrejected(t, |rows|)| == |t.tasks|
  {
    forall k: nat ensures k in t.rejections ==> k < |rows| {
      assert RejectionAgrees(t, rows, |rows|, k);
    }
    assert Range(|rows|) == Unrejected(t, |rows|) + t.rejections.Keys;
    assert Unrejected(t, |rows|) !! t.rejections.Keys;
  }

  lemma {:induction false} KindOfRow(t: Tables, rows: seq<Row>, k: nat)
    requires Agrees(t, rows, |rows|) && AllLegal(rows) && k < |rows|
    ensures KindOf(rows, rows[k]) == if k in t.rejections then CodeOf(t.rejections[k].reason) else DuplicateCode
  {
    assert RejectionAgrees(t, rows, |rows|, k) && Legal(rows[k]);
    if IdOf(rows[k]).Some? { History(rows, |rows|, IdOf(rows[k]).value, k); }
  }

  function AdmittedAmong(t: Tables, n: nat, code: Code): set<nat> {
    if code == DuplicateCode then Unrejected(t, n) else {}
  }

  lemma {:induction false} KindMember(t: Tables, rows: seq<Row>, code: Code, k: nat)
    requires Agrees(t, rows, |rows|) && AllLegal(rows)
    ensures k in IndicesOf(rows, |rows|, IsKind(rows, code)) <==>
              k in GroupOf(t, code) || k in AdmittedAmong(t, |rows|, code)
    ensures !(k in GroupOf(t, code) && k in AdmittedAmong(t, |rows|, code))
  {
    assert RejectionAgrees(t, rows, |rows|, k);
    if k < |rows| { KindOfRow(t, rows, k); }
  }

  /** The group of a code is the rows of that kind, less the admitted ones among the duplicates. */
  lemma {:induction false} GroupSize(t: Tables, rows: seq<Row>, code: Code)
    requires Agrees(t, rows, |rows|) && AllLegal(rows)
    ensures |GroupOf(t, code)| + (if code == DuplicateCode then |t.tasks| else 0)
            == Tally(rows, |rows|, IsKind(rows, code))
  {
    TallyIsSize(rows, |rows|, IsKind(rows, code));
    UnrejectedSize(t, rows);
    var all := IndicesOf(rows, |rows|, IsKind(rows, code));
    var group, admitted := GroupOf(t, code), AdmittedAmong(t, |rows|, code);
    forall k: nat ensures (k in all <==> k in group || k in admitted) && !(k in group && k in admitted) {
      KindMember(t, rows, code, k);
    }
    DisjointSizes(all, group, admitted);
  }

  /** Reordering the input changes no rejection count. */
  lemma {:induction false} SameCounts(t: Tables, u: Tables, a: seq<Row>, b: seq<Row>, code: Code)
    requires Agrees(t, a, |a|) && Agrees(u, b, |b|) && AllLegal(a) && AllLegal(b) && Reordered(a, b)
    ensures |GroupOf(t, code)| == |GroupOf(u, code)| && |t.rejections| == |u.rejections|
  {
    GroupSize(t, a, code);
    GroupSize(u, b, code);
    SameRecords(t, u, a, b);
    TallyReordered(a, b, IsKind(a, code));
    forall k | 0 <= k < |b| ensures IsKind(a, code)(b[k]) == IsKind(b, code)(b[k]) {
      if IdOf(b[k]).Some? { StandingMoves(a, b, IdOf(b[k]).value); }
    }
    TallySame(b, |b|, IsKind(a, code), IsKind(b, code));
  }

  // What reordering does change.

  /** A valid row of a mixed id keeps its whole rejection under a reordering exactly when it stays first or not first
      of its id, unless its own repository is canonical anyway, and stays a repetition of all rows before it or not. */
  lemma {:induction false} SameWithdrawal(t: Tables, u: Tables, a: seq<Row>, b: seq<Row>, i: Text, k: nat, j: nat)
    requires Agrees(t, a, |a|) && Agrees(u, b, |b|) && Reordered(a, b) && Mixed(a, |a|, i)
    requires Has(a, k, i) && Has(b, j, i) && a[k] == b[j] && a[k].Valid?
    ensures k in t.rejections && j in u.rejections
    ensures t.rejections[k] == u.rejections[j] <==>
              && (Seen(a, k, i) == Seen(b, j, i) || a[k].repository == Some(a[k].record.repository))
              && RepeatsAll(a, k, i, a[k].record) == RepeatsAll(b, j, i, a[k].record)
  {
    MixedMoves(a, b, i);
    WithdrawnExactly(t, a, k, i);
    WithdrawnExactly(u, b, j, i);
  }

  /** A failing row of a mixed id keeps its rejection under every reordering. */
  lemma {:induction false} SameFailure(t: Tables, u: Tables, a: seq<Row>, b: seq<Row>, i: Text, k: nat, j: nat)
    requires Agrees(t, a, |a|) && Agrees(u, b, |b|) && Reordered(a, b) && Mixed(a, |a|, i)
    requires Has(a, k, i) && Has(b, j, i) && a[k] == b[j] && a[k].Failing?
    ensures k in t.rejections && j in u.rejections && t.rejections[k] == u.rejections[j]
  {
    MixedMoves(a, b, i);
    WithdrawnExactly(t, a, k, i);
    WithdrawnExactly(u, b, j, i);
  }

  const ONE: Record := Record(0, 1, 0, 0, 0)
  const TWO: Record := Record(0, 2, 0, 0, 0)

  /** The cause depends on the order: the second of three rows is a former duplicate, and moved behind the clash it is
      not. */
  lemma {:induction false} CauseDependsOnOrder(t: Tables, u: Tables)
    requires var one, two := Valid(ONE, Some(1)), Valid(TWO, Some(2));
             Agrees(t, [one, one, two], 3) && Agrees(u, [one, two, one], 3)
    ensures Reordered([Valid(ONE, Some(1)), Valid(ONE, Some(1)), Valid(TWO, Some(2))],
            [Valid(ONE, Some(1)), Valid(TWO, Some(2)), Valid(ONE, Some(1))])
    ensures RejectedAs(t, 1, Conflict, Some(Duplicate))
    ensures forall k :: 0 <= k < 3 ==> RejectedAs(u, k, Conflict, None)
  {
    var a := [Valid(ONE, Some(1)), Valid(ONE, Some(1)), Valid(TWO, Some(2))];
    var b := [Valid(ONE, Some(1)), Valid(TWO, Some(2)), Valid(ONE, Some(1))];
    assert Has(a, 0, 0) && Has(a, 1, 0) && Has(a, 2, 0) && !SameOutcome(a[0], a[2]);
    assert Has(b, 0, 0) && Has(b, 1, 0) && Has(b, 2, 0) && !SameOutcome(b[0], b[1]);
    WithdrawnExactly(t, a, 1, 0);
    forall k | 0 <= k < 3 ensures RejectedAs(u, k, Conflict, None) {
      WithdrawnExactly(u, b, k, 0);
    }
  }

  /** So does the repository: a row without one of its own shows the canonical one first and none second. */
  lemma {:induction false} RepositoryDependsOnOrder(t: Tables, u: Tables)
    requires var one, two := Valid(ONE, None), Valid(TWO, Some(2)); Agrees(t, [one, two], 2) && Agrees(u, [two, one], 2)
    ensures Reordered([Valid(ONE, None), Valid(TWO, Some(2))], [Valid(TWO, Some(2)), Valid(ONE, None)])
    ensures RejectedAs(t, 0, Conflict, None) && t.rejections[0].repository == Some(1)
    ensures RejectedAs(u, 1, Conflict, None) && u.rejections[1].repository == None
  {
    var a, b := [Valid(ONE, None), Valid(TWO, Some(2))], [Valid(TWO, Some(2)), Valid(ONE, None)];
    assert Has(a, 0, 0) && Has(a, 1, 0) && !SameOutcome(a[0], a[1]);
    assert Has(b, 0, 0) && Has(b, 1, 0) && !SameOutcome(b[0], b[1]);
    WithdrawnExactly(t, a, 0, 0);
    WithdrawnExactly(u, b, 1, 0);
  }
}
