/** The counters of a finalized trace projection satisfy the accounting of the normalization manifest. */
module TraceManifest {
  import opened Cursors
  import opened Wrappers
  import opened Sizes
  import opened TraceRows
  import opened TraceProjection
  import opened Totals

  /** The counts of NormalizationManifestV2. */
  datatype Manifest = Manifest(
    pass: bool, inputRows: nat, accepted: nat, rejected: nat, rejectionCounts: map<Name, nat>,
    uniqueKeys: nat, duplicateRows: nat, conflictingKeys: nat, conflictingRows: nat)

  /** verify_normalization_accounting */
  predicate Verifies(m: Manifest) {
    && m.pass == (m.accepted > 0)
    && m.accepted + m.rejected == m.inputRows
    && Total(m.rejectionCounts) == m.rejected
    && m.duplicateRows == CountOf(m.rejectionCounts, DUPLICATE)
    && m.conflictingRows == CountOf(m.rejectionCounts, CONFLICTING)
    && m.uniqueKeys <= m.inputRows
    && m.accepted + m.conflictingKeys <= m.uniqueKeys
    && m.conflictingRows >= 2 * m.conflictingKeys
    && (m.duplicateRows > 0 ==> m.accepted > 0)
  }

  // The COUNT queries.

  function Admitted(t: Table): set<nat> {
    set k | k in t && t[k].verdict.decision == Admit
  }

  function Rejected(t: Table): set<nat> {
    set k | k in t && t[k].verdict.decision == Reject
  }

  function WithReason(t: Table, code: Name): set<nat> {
    set k | k in t && t[k].verdict.reason == Some(code)
  }

  /** The rows of the GROUP BY reason_code query with a code among codes. */
  function RejectedAs(t: Table, codes: set<Name>): set<nat> {
    set k | k in Rejected(t) && t[k].verdict.reason.Some? && t[k].verdict.reason.value in codes
  }

  function Codes(t: Table): set<Name> {
    set k | k in Rejected(t) && t[k].verdict.reason.Some? :: t[k].verdict.reason.value
  }

  function CountsOf(t: Table, codes: set<Name>): map<Name, nat> {
    map code | code in codes :: |RejectedAs(t, {code})|
  }

  function ManifestOf(t: Table, conflicts: set<Name>): Manifest {
    Manifest(|Admitted(t)| > 0, |t|, |Admitted(t)|, |Rejected(t)|, CountsOf(t, Codes(t)), |Keys(InputOf(t))|,
             |WithReason(t, DUPLICATE)|, |conflicts|, |WithReason(t, CONFLICTING)|)
  }

  lemma {:induction false} SumOfGroups(t: Table, codes: set<Name>)
    ensures Total(CountsOf(t, codes)) == |RejectedAs(t, codes)|
    decreases |codes|
  {
    var counts := CountsOf(t, codes);
    if codes == {} {
      assert RejectedAs(t, codes) == {};
    } else {
      var code := Least(counts.Keys);
      var rest := codes - {code};
      SumOfGroups(t, rest);
      assert counts - {code} == CountsOf(t, rest);
      assert RejectedAs(t, codes) == RejectedAs(t, rest) + RejectedAs(t, {code});
      assert RejectedAs(t, rest) !! RejectedAs(t, {code});
    }
  }

  /** A table that finalize has filled from input without raising. */
  ghost predicate Final(t: Table, conflicts: set<Name>, input: Input) {
    Classified(t, conflicts, input) && AllWellFormed(input) && !Raises(input)
  }

  lemma {:induction false} FinalAt(t: Table, conflicts: set<Name>, input: Input, k: nat)
    requires Final(t, conflicts, input)
    ensures k in t <==> k in input
    ensures k in t && k in input ==> t[k] == Entry(input[k], Expected(input, k)) && WellFormed(input[k])
    ensures k in t ==>
              && t[k].verdict.decision != Undecided
              && (t[k].verdict.decision == Reject <==> t[k].verdict.reason.Some?)
  {
    assert DecidedAt(t, input, Keys(input), k);
    NothingMissing(t, input);
    if k in input && input[k].key.Some? {
      assert input[k].key.value in Keys(input);
    }
  }

  lemma {:induction false} SameInput(t: Table, conflicts: set<Name>, input: Input)
    requires Final(t, conflicts, input)
    ensures InputOf(t) == input
  {
    forall k: nat ensures (k in InputOf(t) <==> k in input) && (k in t && k in input ==> t[k].row == input[k]) {
      FinalAt(t, conflicts, input, k);
    }
    assert InputOf(t).Keys == input.Keys;
  }

  lemma {:induction false} RowPlaced(t: Table, conflicts: set<Name>, input: Input, k: nat)
    requires Final(t, conflicts, input)
    ensures (k in t.Keys <==> k in Admitted(t) || k in Rejected(t)) && !(k in Admitted(t) && k in Rejected(t))
    ensures k in Rejected(t) <==> k in t && t[k].verdict.reason.Some?
  {
    FinalAt(t, conflicts, input, k);
  }

  /** Every row is admitted or rejected; the rejected are those with a reason. */
  lemma {:induction false} RowsPartition(t: Table, conflicts: set<Name>, input: Input)
    requires Final(t, conflicts, input)
    ensures |Admitted(t)| + |Rejected(t)| == |t|
    ensures Rejected(t) == RejectedAs(t, Codes(t))
    ensures forall code :: WithReason(t, code) == RejectedAs(t, {code})
  {
    var admitted, rejected := Admitted(t), Rejected(t);
    forall k: nat
      ensures (k in t.Keys <==> k in admitted || k in rejected) && !(k in admitted && k in rejected)
      ensures k in rejected <==> k in t && t[k].verdict.reason.Some?
    {
      RowPlaced(t, conflicts, input, k);
    }
    DisjointSizes(t.Keys, admitted, rejected);
  }

  lemma {:induction false} GroupCount(t: Table, code: Name)
    ensures CountOf(CountsOf(t, Codes(t)), code) == |RejectedAs(t, {code})|
  {
    if code !in Codes(t) {
      assert RejectedAs(t, {code}) == {};
    }
  }

  function KeyOf(input: Input): nat -> Name {
    k => if k in input && input[k].key.Some? then input[k].key.value else 0
  }

  function FirstRow(input: Input): Name -> nat {
    key => if Members(input, key) == {} then 0 else Least(Members(input, key))
  }

  lemma {:induction false} KeysBounded(input: Input)
    ensures |Keys(input)| <= |input|
  {
    forall key | key in Keys(input) ensures HasKey(input, FirstRow(input)(key), key) {
      var k := KeyHasRow(input, key);
      assert k in Members(input, key);
    }
    Injection(Keys(input), input.Keys, FirstRow(input));
    assert |input| == |input.Keys|;
  }

  /** finalize admits exactly the least row of each clean key. */
  lemma {:induction false} AdmittedExactly(t: Table, conflicts: set<Name>, input: Input, k: nat)
    requires Final(t, conflicts, input)
    ensures k in Admitted(t) <==> exists key :: Clean(input, key) && IsFirst(input, k, key)
  {
    FinalAt(t, conflicts, input, k);
    if k in Admitted(t) {
      var key := input[k].key.value;
      assert Clean(input, key) && IsFirst(input, k, key);
    }
    if key :| Clean(input, key) && IsFirst(input, k, key) {
      var j :| HasKey(input, j, key) && input[j].sample.Some?;
      assert Same(input[j], input[k]);
    }
  }

  /** Admitted rows have pairwise distinct rollout keys and pairwise distinct sample ids. */
  lemma {:induction false} AdmittedDistinct(t: Table, conflicts: set<Name>, input: Input, j: nat, k: nat)
    requires Final(t, conflicts, input) && j in Admitted(t) && k in Admitted(t) && j != k
    ensures j in input && k in input && input[j].key != input[k].key
    ensures input[j].sample.Some? && input[k].sample.Some? && input[j].sample != input[k].sample
  {
    FinalAt(t, conflicts, input, j);
    FinalAt(t, conflicts, input, k);
    assert !Collide(input, j, k);
  }

  lemma {:induction false} AdmittedKey(t: Table, conflicts: set<Name>, input: Input, k: nat)
    requires Final(t, conflicts, input) && k in Admitted(t)
    ensures KeyOf(input)(k) in Keys(input) - conflicts
  {
    FinalAt(t, conflicts, input, k);
    assert k in input && input[k].key.Some?;
  }

  lemma {:induction false} AdmittedAndConflicting(t: Table, conflicts: set<Name>, input: Input)
    requires Final(t, conflicts, input)
    ensures |Admitted(t)| + |conflicts| <= |Keys(input)|
  {
    var keys, admitted, f := Keys(input), Admitted(t), KeyOf(input);
    forall k | k in admitted ensures f(k) in keys - conflicts {
      AdmittedKey(t, conflicts, input, k);
    }
    forall j, k | j in admitted && k in admitted && f(j) == f(k) ensures j == k {
      if j != k { AdmittedDistinct(t, conflicts, input, j, k); }
    }
    Injection(admitted, keys - conflicts, f);
    DisjointSizes(keys, keys - conflicts, conflicts);
  }

  function RowsOf(input: Input, keys: set<Name>): set<nat> {
    set k | k in input && input[k].key.Some? && input[k].key.value in keys
  }

  lemma {:induction false} TwoRows(input: Input, keys: set<Name>, key: Name)
    requires Mixed(input, key) && key !in keys
    ensures |RowsOf(input, keys + {key})| >= |RowsOf(input, keys)| + 2
  {
    var j: nat, k: nat :| HasKey(input, j, key) && HasKey(input, k, key) && !Same(input[j], input[k]);
    TwoMore(RowsOf(input, keys), RowsOf(input, keys + {key}), j, k);
  }

  /** A mixed key has at least two rows. */
  lemma {:induction false} TwoRowsEach(input: Input, keys: set<Name>)
    requires forall key :: key in keys ==> Mixed(input, key)
    ensures |RowsOf(input, keys)| >= 2 * |keys|
  {
    if keys != {} {
      var key :| key in keys;
      var rest := keys - {key};
      assert rest + {key} == keys && |keys| == |rest| + 1;
      TwoRowsEach(input, rest);
      TwoRows(input, rest, key);
    }
  }

  lemma {:induction false} ConflictRows(t: Table, conflicts: set<Name>, input: Input)
    requires Final(t, conflicts, input)
    ensures |WithReason(t, CONFLICTING)| >= 2 * |conflicts|
  {
    TwoRowsEach(input, conflicts);
    forall k | k in RowsOf(input, conflicts) ensures k in WithReason(t, CONFLICTING) {
      FinalAt(t, conflicts, input, k);
    }
    SubsetSize(RowsOf(input, conflicts), WithReason(t, CONFLICTING));
  }

  /** A caller passed the projection's own duplicate code for a row that keeps its own reason. */
  ghost predicate Reserved(input: Input) {
    exists k :: k in input && input[k].code == Some(DUPLICATE)
                && (input[k].key.None? || !Mixed(input, input[k].key.value))
  }

  /** Duplicates need an admitted row, unless a caller used the reserved code. */
  lemma {:induction false} DuplicatesHaveOriginal(t: Table, conflicts: set<Name>, input: Input)
    requires Final(t, conflicts, input)
    ensures WithReason(t, DUPLICATE) != {} ==> Admitted(t) != {} || Reserved(input)
    ensures Reserved(input) ==> WithReason(t, DUPLICATE) != {}
  {
    if WithReason(t, DUPLICATE) != {} && !Reserved(input) {
      var k :| k in WithReason(t, DUPLICATE);
      FinalAt(t, conflicts, input, k);
      var key := input[k].key.value;
      assert k in Members(input, key);
      var first := Least(Members(input, key));
      FirstIsLeast(input, key, first, first);
      assert Clean(input, key);
      AdmittedExactly(t, conflicts, input, first);
      assert first in Admitted(t);
    }
    if Reserved(input) {
      var k: nat :| k in input && input[k].code == Some(DUPLICATE)
                    && (input[k].key.None? || !Mixed(input, input[k].key.value));
      FinalAt(t, conflicts, input, k);
      assert k in WithReason(t, DUPLICATE);
    }
  }

  /** All checks but the last hold in any case. */
  lemma {:induction false} SumsHold(t: Table, conflicts: set<Name>, input: Input)
    requires Final(t, conflicts, input)
    ensures var m := ManifestOf(t, conflicts);
            && m.accepted + m.rejected == m.inputRows && Total(m.rejectionCounts) == m.rejected
            && m.duplicateRows == CountOf(m.rejectionCounts, DUPLICATE)
            && m.conflictingRows == CountOf(m.rejectionCounts, CONFLICTING)
  {
    SameInput(t, conflicts, input);
    RowsPartition(t, conflicts, input);
    SumOfGroups(t, Codes(t));
    GroupCount(t, DUPLICATE);
    GroupCount(t, CONFLICTING);
  }

  lemma {:induction false} BoundsHold(t: Table, conflicts: set<Name>, input: Input)
    requires Final(t, conflicts, input)
    ensures var m := ManifestOf(t, conflicts);
            && m.uniqueKeys <= m.inputRows && m.accepted + m.conflictingKeys <= m.uniqueKeys
            && m.conflictingRows >= 2 * m.conflictingKeys
  {
    SameInput(t, conflicts, input);
    KeysBounded(input);
    assert t.Keys == InputOf(t).Keys;
    assert |t| == |input|;
    AdmittedAndConflicting(t, conflicts, input);
    ConflictRows(t, conflicts, input);
  }

  /** For every input that does not raise, the counters satisfy the manifest's accounting iff some row is admitted
      or no caller used the reserved duplicate code for a row that keeps its own reason. */
  lemma {:induction false} AccountingHolds(t: Table, conflicts: set<Name>, input: Input)
    requires Final(t, conflicts, input)
    ensures Verifies(ManifestOf(t, conflicts)) <==>
              (Reserved(input) ==> exists k, key :: Clean(input, key) && IsFirst(input, k, key))
  {
    SumsHold(t, conflicts, input);
    BoundsHold(t, conflicts, input);
    DuplicatesHaveOriginal(t, conflicts, input);
    AdmittedNonempty(t, conflicts, input);
  }

  lemma {:induction false} AdmittedNonempty(t: Table, conflicts: set<Name>, input: Input)
    requires Final(t, conflicts, input)
    ensures Admitted(t) != {} <==> exists k, key :: Clean(input, key) && IsFirst(input, k, key)
  {
    if Admitted(t) != {} {
      var k :| k in Admitted(t);
      AdmittedExactly(t, conflicts, input, k);
    }
    if k, key :| Clean(input, key) && IsFirst(input, k, key) {
      AdmittedExactly(t, conflicts, input, k);
      assert k in Admitted(t);
    }
  }

  /** The callers pass only unknown_resolution and normalization_error, and then the accounting always holds. */
  lemma {:induction false} CallersAreAccounted(t: Table, conflicts: set<Name>, input: Input)
    requires Final(t, conflicts, input)
    requires forall k :: k in input ==> input[k].code != Some(DUPLICATE)
    ensures Verifies(ManifestOf(t, conflicts))
  {
    AccountingHolds(t, conflicts, input);
  }

  /** One rejected row whose caller passed the reserved code breaks the accounting. */
  lemma {:induction false} ReservedCodeBreaks()
    ensures var input: Input := map[0 := Row(None, 0, None, Some(DUPLICATE))];
            !Raises(input) && AllWellFormed(input) &&
            forall t, conflicts :: Final(t, conflicts, input) ==> !Verifies(ManifestOf(t, conflicts))
  {
    var input: Input := map[0 := Row(None, 0, None, Some(DUPLICATE))];
    assert 0 in input && input[0].code == Some(DUPLICATE);
    assert Reserved(input);
    forall t, conflicts | Final(t, conflicts, input) ensures !Verifies(ManifestOf(t, conflicts)) {
      AccountingHolds(t, conflicts, input);
    }
  }
}
