/** The verdicts of a finalized trace projection, said on the fields of the rows. */
module TraceVerdicts {
  import opened Cursors
  import opened Wrappers
  import opened Totals
  import opened TraceRows
  import opened TraceProjection
  import opened TraceManifest

  /** Row j has the key of row k, and other raw bytes or the other validity. */
  predicate Contradicts(input: Input, j: nat, k: nat) {
    && j in input && k in input && input[k].key.Some? && input[j].key == input[k].key
    && (input[j].digest != input[k].digest || input[j].sample.Some? != input[k].sample.Some?)
  }

  ghost predicate Contradicted(input: Input, k: nat) {
    exists j :: j in input && Contradicts(input, j, k)
  }

  /** A row with the same key comes before row k. */
  ghost predicate Preceded(input: Input, k: nat) {
    exists j :: j in input && k in input && j < k && input[k].key.Some? && input[j].key == input[k].key
  }

  /** Some row of a mixed key contradicts every given row of it. */
  lemma {:induction false} MixedIsContradicted(input: Input, k: nat)
    requires k in input && input[k].key.Some?
    ensures Mixed(input, input[k].key.value) <==> Contradicted(input, k)
  {
    var key := input[k].key.value;
    if i, j :| HasKey(input, i, key) && HasKey(input, j, key) && !Same(input[i], input[j]) {
      assert Contradicts(input, i, k) || Contradicts(input, j, k);
    }
    if j :| j in input && Contradicts(input, j, k) {
      assert HasKey(input, j, key) && HasKey(input, k, key) && !Same(input[j], input[k]);
    }
  }

  lemma {:induction false} FirstIsNotPreceded(input: Input, k: nat)
    requires k in input && input[k].key.Some?
    ensures IsFirst(input, k, input[k].key.value) <==> !Preceded(input, k)
  {
    if !Preceded(input, k) {
      forall j | j in input && HasKey(input, j, input[k].key.value) ensures k <= j {
      }
    }
  }

  /** A contradicted row is rejected as conflicting, its own code kept as the cause: none if it is valid. Of the other
      rows a failing one keeps its code, the first valid row of a key is admitted, and the later ones are duplicates. */
  lemma {:induction false} VerdictsByFields(t: Table, conflicts: set<Name>, input: Input, k: nat)
    requires Final(t, conflicts, input) && k in input
    ensures k in t && t[k].row == input[k]
    ensures t[k].verdict ==
              if Contradicted(input, k) then Verdict(Reject, Some(CONFLICTING), input[k].code)
              else if input[k].sample.None? then Verdict(Reject, input[k].code, None)
              else if Preceded(input, k) then Verdict(Reject, Some(DUPLICATE), None)
              else Verdict(Admit, None, None)
  {
    FinalAt(t, conflicts, input, k);
    if input[k].key.Some? {
      MixedIsContradicted(input, k);
      FirstIsNotPreceded(input, k);
    }
  }

  /** The conflicting keys are those of contradicted rows. */
  lemma {:induction false} ConflictsByFields(t: Table, conflicts: set<Name>, input: Input, key: Name)
    requires Final(t, conflicts, input)
    ensures key in conflicts <==> exists k :: k in input && input[k].key == Some(key) && Contradicted(input, k)
  {
    if key in conflicts {
      var j, k :| HasKey(input, j, key) && HasKey(input, k, key) && !Same(input[j], input[k]);
      MixedIsContradicted(input, k);
      assert input[k].key == Some(key);
    }
    if k :| k in input && input[k].key == Some(key) && Contradicted(input, k) {
      MixedIsContradicted(input, k);
      assert key in Keys(input);
    }
  }

  // What makes finalize raise.

  /** A valid row has no key, a sample stands under two keys, or one raw row of a key gives two samples. */
  ghost predicate BadIdentity(input: Input) {
    || (exists k :: k in input && input[k].sample.Some? && input[k].key.None?)
    || (exists j, k :: j in input && k in input && OneSampleTwoKeys(input[j], input[k]))
    || (exists j, k :: j in input && k in input && OneKeyTwoSamples(input[j], input[k]) && !Contradicted(input, j))
  }

  predicate OneSampleTwoKeys(a: Row, b: Row) {
    && a.sample.Some? && b.sample.Some? && a.sample.value == b.sample.value
    && a.key.Some? && b.key.Some? && a.key.value != b.key.value
  }

  predicate OneKeyTwoSamples(a: Row, b: Row) {
    && a.key.Some? && b.key.Some? && a.key.value == b.key.value
    && a.sample.Some? && b.sample.Some? && a.sample.value != b.sample.value
  }

  lemma {:induction false} AmbiguousByFields(input: Input)
    ensures (exists key :: Ambiguous(input, key)) <==>
              exists j, k :: j in input && k in input && OneKeyTwoSamples(input[j], input[k]) && !Contradicted(input, j)
  {
    if key :| Ambiguous(input, key) {
      var j, k :| HasKey(input, j, key) && HasKey(input, k, key) && input[j].sample != input[k].sample;
      MixedIsContradicted(input, j);
      var v :| HasKey(input, v, key) && input[v].sample.Some?;
      assert Same(input[j], input[v]) && Same(input[k], input[v]);
      assert OneKeyTwoSamples(input[j], input[k]);
    }
    if j, k :| j in input && k in input && OneKeyTwoSamples(input[j], input[k]) && !Contradicted(input, j) {
      var key := input[j].key.value;
      MixedIsContradicted(input, j);
      assert HasKey(input, j, key) && HasKey(input, k, key);
      assert Ambiguous(input, key);
    }
  }

  /** finalize raises exactly on these identities. */
  lemma {:induction false} RaisesByFields(input: Input)
    ensures Raises(input) <==> BadIdentity(input)
  {
    AmbiguousByFields(input);
    if j, k :| j in input && k in input && Collide(input, j, k) {
      assert OneSampleTwoKeys(input[j], input[k]);
    }
    if j, k :| j in input && k in input && OneSampleTwoKeys(input[j], input[k]) {
      assert Collide(input, j, k);
    }
  }

  // The counts of the manifest.

  /** The reason a row ends with, if it has one. */
  ghost function ReasonOf(input: Input, k: nat): Option<Name>
    requires k in input
  {
    if Contradicted(input, k) then Some(CONFLICTING)
    else if input[k].sample.None? then input[k].code
    else if Preceded(input, k) then Some(DUPLICATE)
    else None
  }

  ghost predicate Kept(input: Input, k: nat) {
    k in input && !Contradicted(input, k) && input[k].sample.Some? && !Preceded(input, k)
  }

  ghost predicate EndsWith(input: Input, k: nat, code: Name) {
    k in input && ReasonOf(input, k) == Some(code)
  }

  lemma {:induction false} ReasonsCounted(t: Table, conflicts: set<Name>, input: Input, code: Name)
    requires Final(t, conflicts, input)
    ensures WithReason(t, code) == set k | k in input && EndsWith(input, k, code)
  {
    var ours, rows := WithReason(t, code), set k | k in input && EndsWith(input, k, code);
    forall k: nat ensures k in ours <==> k in rows {
      if k in t || k in input {
        FinalAt(t, conflicts, input, k);
        VerdictsByFields(t, conflicts, input, k);
      }
    }
  }

  lemma {:induction false} AdmittedCounted(t: Table, conflicts: set<Name>, input: Input)
    requires Final(t, conflicts, input)
    ensures Admitted(t) == set k | k in input && Kept(input, k)
    ensures Rejected(t) == set k | k in input && !Kept(input, k)
  {
    var kept, others := set k | k in input && Kept(input, k), set k | k in input && !Kept(input, k);
    var admitted, rejected := Admitted(t), Rejected(t);
    forall k: nat ensures (k in admitted <==> k in kept) && (k in rejected <==> k in others) {
      if k in t || k in input {
        FinalAt(t, conflicts, input, k);
        VerdictsByFields(t, conflicts, input, k);
      }
    }
  }

  ghost predicate HasContradiction(input: Input, key: Name) {
    exists k :: k in input && input[k].key == Some(key) && Contradicted(input, k)
  }

  /** Each count of the manifest is the number of the rows, or of the keys, it is named after. */
  lemma {:induction false} CountsByFields(t: Table, conflicts: set<Name>, input: Input, code: Name)
    requires Final(t, conflicts, input)
    ensures var m := ManifestOf(t, conflicts);
            && m.inputRows == |input| && m.accepted == |set k | k in input && Kept(input, k)|
            && m.rejected == |set k | k in input && !Kept(input, k)|
            && m.pass == exists k :: Kept(input, k)
    ensures var m := ManifestOf(t, conflicts);
            && CountOf(m.rejectionCounts, code) == |set k | k in input && EndsWith(input, k, code)|
            && m.duplicateRows == |set k | k in input && EndsWith(input, k, DUPLICATE)|
            && m.conflictingRows == |set k | k in input && EndsWith(input, k, CONFLICTING)|
    ensures var m := ManifestOf(t, conflicts);
            var keys := set k | k in input && input[k].key.Some? :: input[k].key.value;
            m.uniqueKeys == |keys| && m.conflictingKeys == |set key | key in keys && HasContradiction(input, key)|
  {
    AdmittedCounted(t, conflicts, input);
    ReasonsCounted(t, conflicts, input, code);
    ReasonsCounted(t, conflicts, input, DUPLICATE);
    ReasonsCounted(t, conflicts, input, CONFLICTING);
    RowsPartition(t, conflicts, input);
    GroupCount(t, code);
    SameInput(t, conflicts, input);
    KeysCounted(t, conflicts, input);
    assert |t| == |t.Keys| && |input| == |input.Keys|;
    assert t.Keys == input.Keys by { assert InputOf(t).Keys == t.Keys; }
    SomeKept(t, conflicts, input);
  }

  lemma {:induction false} SomeKept(t: Table, conflicts: set<Name>, input: Input)
    requires Final(t, conflicts, input)
    ensures |Admitted(t)| > 0 <==> exists k :: Kept(input, k)
  {
    AdmittedCounted(t, conflicts, input);
    if |Admitted(t)| > 0 {
      var k :| k in Admitted(t);
      assert Kept(input, k);
    }
    if k :| Kept(input, k) { assert k in Admitted(t); }
  }

  lemma {:induction false} KeysCounted(t: Table, conflicts: set<Name>, input: Input)
    requires Final(t, conflicts, input)
    ensures conflicts == set key | key in Keys(input) && HasContradiction(input, key)
  {
    var named := set key | key in Keys(input) && HasContradiction(input, key);
    forall key ensures key in conflicts <==> key in named {
      ConflictsByFields(t, conflicts, input, key);
      if HasContradiction(input, key) {
        var k :| k in input && input[k].key == Some(key) && Contradicted(input, k);
        assert key in Keys(input);
      }
    }
  }
}
