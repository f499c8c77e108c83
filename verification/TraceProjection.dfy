/** The trace projection: rows are collected, then classified group by group with updates in place. */
module TraceProjection {
  import opened Cursors
  import opened Wrappers
  import opened TraceRows

  datatype Error = Finalized | BadRow | RepeatedIndex | NoKey | SharedSample | ManySamples | Undecidable | NoReason
  datatype Outcome = Done | Raised(error: Error)

  datatype Entry = Entry(row: Row, verdict: Verdict)

  type Table = map<nat, Entry>

  function InputOf(t: Table): Input {
    map k | k in t :: t[k].row
  }

  /** UPDATE rows SET ... WHERE row_index in chosen. */
  function Updated(t: Table, chosen: set<nat>, f: Row -> Verdict): (u: Table)
    ensures u.Keys == t.Keys
  {
    map k | k in t :: if k in chosen then t[k].(verdict := f(t[k].row)) else t[k]
  }

  /** Rows without a key and rows of the keys done have their expected verdict; the others are still open. */
  ghost predicate DecidedAt(t: Table, input: Input, done: set<Name>, k: nat) {
    && (k in t <==> k in input)
    && (k in t && k in input ==>
          && t[k].row == input[k]
          && t[k].verdict == if input[k].key.None? || input[k].key.value in done then Expected(input, k) else OPEN)
  }

  ghost predicate Decided(t: Table, input: Input, done: set<Name>) {
    forall k :: DecidedAt(t, input, done, k)
  }

  ghost predicate ConflictsAre(conflicts: set<Name>, input: Input, done: set<Name>) {
    forall key :: key in conflicts <==> key in done && Mixed(input, key)
  }

  /** An update of the rows of one key to their expected verdicts decides that key. */
  lemma {:induction false} KeyDecided(t: Table, u: Table, input: Input, done: set<Name>, key: Name)
    requires Decided(t, input, done) && u.Keys == t.Keys
    requires forall k :: UpdatedAt(t, u, input, key, k)
    ensures Decided(u, input, done + {key})
  {
    forall k ensures DecidedAt(u, input, done + {key}, k) {
      assert DecidedAt(t, input, done, k) && UpdatedAt(t, u, input, key, k);
    }
  }

  /** One update gives every row of the key its expected verdict. */
  lemma {:induction false} WholeKeyUpdated(t: Table, input: Input, done: set<Name>, key: Name, f: Row -> Verdict)
    requires Decided(t, input, done)
    requires forall k :: HasKey(input, k, key) ==> Expected(input, k) == f(input[k])
    ensures forall k :: UpdatedAt(t, Updated(t, Members(input, key), f), input, key, k)
  {
    var u := Updated(t, Members(input, key), f);
    forall k ensures UpdatedAt(t, u, input, key, k) {
      assert DecidedAt(t, input, done, k);
    }
  }

  /** The least row of a clean key is admitted, then the others are rejected as duplicates. */
  lemma {:induction false} CleanKeyUpdated(t: Table, input: Input, done: set<Name>, key: Name, admitted: nat)
    requires Decided(t, input, done) && Clean(input, key) && IsLeast(Members(input, key), admitted)
    ensures var u := Updated(Updated(t, {admitted}, AdmitRow), Members(input, key) - {admitted}, RepeatReason);
            forall k :: UpdatedAt(t, u, input, key, k)
  {
    var u := Updated(Updated(t, {admitted}, AdmitRow), Members(input, key) - {admitted}, RepeatReason);
    var valid :| HasKey(input, valid, key) && input[valid].sample.Some?;
    forall k ensures UpdatedAt(t, u, input, key, k) {
      assert DecidedAt(t, input, done, k);
      if HasKey(input, k, key) {
        assert Same(input[k], input[valid]);
        FirstIsLeast(input, key, admitted, k);
      }
    }
  }

  lemma {:induction false} FirstIsLeast(input: Input, key: Name, admitted: nat, k: nat)
    requires IsLeast(Members(input, key), admitted) && HasKey(input, k, key)
    ensures IsFirst(input, k, key) <==> k == admitted
  {
    assert k in Members(input, key);
    forall j | j in input && HasKey(input, j, key) ensures admitted <= j {
      assert j in Members(input, key);
    }
  }

  ghost predicate UpdatedAt(t: Table, u: Table, input: Input, key: Name, k: nat) {
    k in t && k in u && k in input ==>
      u[k] == if HasKey(input, k, key) then Entry(input[k], Expected(input, k)) else t[k]
  }

  predicate Unclassified(t: Table) {
    exists k :: k in t && t[k].verdict.decision == Undecided
  }

  predicate Reasonless(t: Table) {
    exists k :: k in t && t[k].verdict.decision == Reject && t[k].verdict.reason.None?
  }

  /** The finished table. */
  ghost predicate Classified(t: Table, conflicts: set<Name>, input: Input) {
    Decided(t, input, Keys(input)) && ConflictsAre(conflicts, input, Keys(input))
  }

  ghost predicate AllWellFormed(input: Input) {
    forall k :: k in input ==> WellFormed(input[k])
  }

  lemma {:induction false} NothingMissing(t: Table, input: Input)
    requires Decided(t, input, Keys(input)) && AllWellFormed(input) && !Unkeyed(input)
    ensures !Unclassified(t) && !Reasonless(t)
  {
    forall k | k in t
      ensures t[k].verdict.decision != Undecided && (t[k].verdict.decision == Reject ==> t[k].verdict.reason.Some?)
    {
      assert DecidedAt(t, input, Keys(input), k);
      assert WellFormed(input[k]);
    }
  }

  function OwnReason(row: Row): Verdict {
    Verdict(Reject, row.code, None)
  }

  function ConflictReason(row: Row): Verdict {
    Verdict(Reject, Some(CONFLICTING), row.code)
  }

  function AdmitRow(row: Row): Verdict {
    Verdict(Admit, None, None)
  }

  function RepeatReason(row: Row): Verdict {
    Verdict(Reject, Some(DUPLICATE), None)
  }

  function Unkeyeds(input: Input): set<nat> {
    set k | k in input && input[k].key.None?
  }

  class Projection {
    var rows: Table
    var conflicts: set<Name>
    var finalized: bool

    constructor ()
      ensures Collected(map[])
    {
      rows, conflicts, finalized := map[], {}, false;
    }

    /** Rows added so far, none classified. */
    ghost predicate Collected(input: Input)
      reads this
    {
      !finalized && conflicts == {} && AllWellFormed(input) && forall k :: CollectedAt(rows, input, k)
    }

    method AddRow(index: nat, row: Row, ghost input: Input) returns (outcome: Outcome)
      requires !finalized ==> Collected(input)
      modifies this`rows
      ensures outcome == if finalized then Raised(Finalized) else if !WellFormed(row) then Raised(BadRow)
                         else if index in input then Raised(RepeatedIndex) else Done
      ensures outcome.Done? ==> Collected(input[index := row])
      ensures outcome.Raised? ==> rows == old(rows)
    {
      if finalized { return Raised(Finalized); }
      assert CollectedAt(rows, input, index);
      if row.sample.None? != row.code.Some? { return Raised(BadRow); }
      if index in rows { return Raised(RepeatedIndex); }
      ghost var before := rows;
      rows := rows[index := Entry(row, OPEN)];
      ghost var more := input[index := row];
      forall k ensures CollectedAt(rows, more, k) {
        assert CollectedAt(before, input, k);
      }
      outcome := Done;
    }

    /** finalize: fails exactly on the three identity errors, and otherwise gives every row its expected verdict
        and records exactly the mixed keys. */
    method Finalize(ghost collected: Input) returns (outcome: Outcome)
      requires !finalized ==> Collected(collected)
      modifies this
      ensures old(finalized) ==> outcome == Raised(Finalized) && finalized
      ensures !old(finalized) ==> finalized == outcome.Done? && (outcome.Raised? <==> Raises(collected))
      ensures outcome.Done? ==> Classified(rows, conflicts, collected)
      ensures !old(finalized) ==> (outcome == Raised(NoKey) <==> Unkeyed(collected))
      ensures !old(finalized) ==> (outcome == Raised(SharedSample) <==> !Unkeyed(collected) && Spread(collected))
    {
      if finalized { return Raised(Finalized); }
      StartsDecided(rows, collected);
      var input := InputOf(rows);
      if Unkeyed(input) { return Raised(NoKey); }
      if Spread(input) { return Raised(SharedSample); }
      rows := Updated(rows, Unkeyeds(input), OwnReason);
      outcome := ClassifyKeys(input);
      if outcome.Raised? { return; }
      NothingMissing(rows, input);
      outcome := if Unclassified(rows) then Raised(Undecidable)
                 else if Reasonless(rows) then Raised(NoReason)
                 else Done;
      finalized := outcome.Done?;
    }

    /** The loop of finalize over the rollout keys. */
    method ClassifyKeys(input: Input) returns (outcome: Outcome)
      requires Decided(rows, input, {}) && conflicts == {}
      modifies this`rows, this`conflicts
      ensures outcome.Done? ==> Classified(rows, conflicts, input)
      ensures outcome.Raised? <==> exists key :: Ambiguous(input, key)
      ensures outcome.Raised? ==> outcome.error == ManySamples
    {
      var groups := OrderBy(Keys(input));
      AllElements(groups);
      for j := 0 to |groups|
        invariant Decided(rows, input, Elements(groups[..j])) && ConflictsAre(conflicts, input, Elements(groups[..j]))
        invariant forall key :: key in Elements(groups[..j]) ==> !Ambiguous(input, key)
      {
        NewElement(groups, j);
        ElementsStep(groups, j);
        outcome := ClassifyKey(input, groups[j], Elements(groups[..j]));
        if outcome.Raised? { return; }
      }
      outcome := Done;
    }

    /** One round of the loop of finalize: all rows of one rollout key. */
    method ClassifyKey(input: Input, key: Name, ghost done: set<Name>) returns (outcome: Outcome)
      requires key in Keys(input) && key !in done && Decided(rows, input, done) && ConflictsAre(conflicts, input, done)
      modifies this`rows, this`conflicts
      ensures outcome.Done? ==> Decided(rows, input, done + {key}) && ConflictsAre(conflicts, input, done + {key})
      ensures outcome.Raised? <==> Ambiguous(input, key)
      ensures outcome.Raised? ==> outcome.error == ManySamples
    {
      ghost var before := rows;
      var members := Members(input, key);
      var total, raw, valid := |members|, |Digests(input, key)|, |ValidMembers(input, key)|;
      AggregatesDecide(input, key);
      if valid == total && raw == 1 { SampleCount(input, key); }
      if valid == total && raw == 1 && |Samples(input, key)| != 1 { return Raised(ManySamples); }
      if raw > 1 || (valid != 0 && valid != total) {
        conflicts := conflicts + {key};
        rows := Updated(rows, members, ConflictReason);
        WholeKeyUpdated(before, input, done, key, ConflictReason);
      } else if valid == 0 {
        rows := Updated(rows, members, OwnReason);
        WholeKeyUpdated(before, input, done, key, OwnReason);
      } else {
        var admitted := Least(members);
        rows := Updated(rows, {admitted}, AdmitRow);
        rows := Updated(rows, members - {admitted}, RepeatReason);
        CleanKeyUpdated(before, input, done, key, admitted);
      }
      KeyDecided(before, rows, input, done, key);
      outcome := Done;
    }
  }

  /** The table holds the input, and the first update settles the rows without a key. */
  lemma {:induction false} StartsDecided(t: Table, input: Input)
    requires forall k :: CollectedAt(t, input, k)
    ensures InputOf(t) == input && Decided(Updated(t, Unkeyeds(input), OwnReason), input, {})
  {
    var u := Updated(t, Unkeyeds(input), OwnReason);
    forall k
      ensures DecidedAt(u, input, {}, k) && (k in InputOf(t) <==> k in input)
      ensures k in t && k in input ==> t[k].row == input[k]
    {
      assert CollectedAt(t, input, k);
    }
    assert InputOf(t).Keys == input.Keys;
  }

  predicate CollectedAt(t: Table, input: Input, k: nat) {
    (k in t <==> k in input) && (k in t && k in input ==> t[k] == Entry(input[k], OPEN))
  }
}
