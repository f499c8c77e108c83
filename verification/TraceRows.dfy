/** Trace rows, and the decision each should get from the rows that share its rollout key. */
module TraceRows {
  import opened Cursors
  import opened Wrappers
  import opened Sizes

  /** The two reason codes the projection itself assigns. */
  const DUPLICATE: Name := 0
  const CONFLICTING: Name := 1

  datatype Row = Row(key: Option<Name>, digest: Name, sample: Option<Name>, code: Option<Name>)

  /** The input, by row index. */
  type Input = map<nat, Row>

  datatype Decision = Undecided | Admit | Reject

  /** The columns finalize fills: decision, reason_code and cause_code. */
  datatype Verdict = Verdict(decision: Decision, reason: Option<Name>, cause: Option<Name>)

  const OPEN: Verdict := Verdict(Undecided, None, None)

  /** add_row accepts a row that has either a sample or a reason. */
  predicate WellFormed(row: Row) {
    row.sample.None? == row.code.Some?
  }

  predicate HasKey(input: Input, k: nat, key: Name) {
    k in input && input[k].key == Some(key)
  }

  function Members(input: Input, key: Name): set<nat> {
    set k | k in input && HasKey(input, k, key)
  }

  function Keys(input: Input): set<Name> {
    set k | k in input && input[k].key.Some? :: input[k].key.value
  }

  predicate Same(a: Row, b: Row) {
    a.digest == b.digest && a.sample.Some? == b.sample.Some?
  }

  /** Two rows of the key differ in their raw bytes, or one is valid and the other is not. */
  ghost predicate Mixed(input: Input, key: Name) {
    exists j, k :: HasKey(input, j, key) && HasKey(input, k, key) && !Same(input[j], input[k])
  }

  /** Every row of the key is valid, and all have one raw digest. */
  ghost predicate Clean(input: Input, key: Name) {
    !Mixed(input, key) && exists k :: HasKey(input, k, key) && input[k].sample.Some?
  }

  // The errors of finalize.

  predicate Unkeyed(input: Input) {
    exists k :: k in input && input[k].sample.Some? && input[k].key.None?
  }

  predicate Collide(input: Input, j: nat, k: nat) {
    && j in input && k in input && input[j].sample.Some? && input[j].sample == input[k].sample
    && input[j].key.Some? && input[k].key.Some? && input[j].key != input[k].key
  }

  /** One sample id under two rollout keys. */
  predicate Spread(input: Input) {
    exists j, k :: j in input && k in input && Collide(input, j, k)
  }

  /** Rows of one clean key with two sample ids. */
  ghost predicate Ambiguous(input: Input, key: Name) {
    && Clean(input, key)
    && exists j, k :: HasKey(input, j, key) && HasKey(input, k, key) && input[j].sample != input[k].sample
  }

  ghost predicate Raises(input: Input) {
    Unkeyed(input) || Spread(input) || exists key :: Ambiguous(input, key)
  }

  predicate IsFirst(input: Input, k: nat, key: Name) {
    HasKey(input, k, key) && forall j :: j in input && HasKey(input, j, key) ==> k <= j
  }

  /** The decision row k should get. */
  ghost function Expected(input: Input, k: nat): Verdict
    requires k in input
  {
    var row := input[k];
    if row.key.None? then Verdict(Reject, row.code, None)
    else if Mixed(input, row.key.value) then Verdict(Reject, Some(CONFLICTING), row.code)
    else if row.sample.None? then Verdict(Reject, row.code, None)
    else if IsFirst(input, k, row.key.value) then Verdict(Admit, None, None)
    else Verdict(Reject, Some(DUPLICATE), None)
  }

  // The aggregates of the GROUP BY query.

  function Digests(input: Input, key: Name): set<Name> {
    set k | k in input && HasKey(input, k, key) :: input[k].digest
  }

  function ValidMembers(input: Input, key: Name): set<nat> {
    set k | k in input && HasKey(input, k, key) && input[k].sample.Some?
  }

  function Samples(input: Input, key: Name): set<Name> {
    set k | k in input && HasKey(input, k, key) && input[k].sample.Some? :: input[k].sample.value
  }

  lemma {:induction false} KeyHasRow(input: Input, key: Name) returns (k: nat)
    requires key in Keys(input)
    ensures HasKey(input, k, key)
  {
    k :| k in input && input[k].key.Some? && input[k].key.value == key;
  }

  lemma {:induction false} DigestHasRow(input: Input, key: Name, digest: Name) returns (k: nat)
    requires digest in Digests(input, key)
    ensures HasKey(input, k, key) && input[k].digest == digest
  {
    k :| k in input && HasKey(input, k, key) && input[k].digest == digest;
  }

  /** COUNT(DISTINCT raw_row_sha256) > 1 */
  lemma {:induction false} ManyDigests(input: Input, key: Name)
    requires |Digests(input, key)| > 1
    ensures Mixed(input, key)
  {
    OneElement(Digests(input, key));
    var x, y :| x in Digests(input, key) && y in Digests(input, key) && x != y;
    var j := DigestHasRow(input, key, x);
    var k := DigestHasRow(input, key, y);
    assert !Same(input[j], input[k]);
  }

  /** Some but not all rows of the key are valid. */
  lemma {:induction false} SomeValid(input: Input, key: Name)
    requires ValidMembers(input, key) != {} && ValidMembers(input, key) != Members(input, key)
    ensures Mixed(input, key)
  {
    var j :| j in ValidMembers(input, key);
    var rest := Members(input, key) - ValidMembers(input, key);
    assert Members(input, key) == ValidMembers(input, key) + rest;
    var k :| k in rest;
    assert HasKey(input, j, key) && HasKey(input, k, key) && !Same(input[j], input[k]);
  }

  lemma {:induction false} MixedShows(input: Input, key: Name)
    requires Mixed(input, key)
    ensures |Digests(input, key)| > 1
            || (ValidMembers(input, key) != {} && ValidMembers(input, key) != Members(input, key))
  {
    var j, k :| HasKey(input, j, key) && HasKey(input, k, key) && !Same(input[j], input[k]);
    assert j in Members(input, key) && k in Members(input, key);
    OneElement(Digests(input, key));
    assert input[j].digest in Digests(input, key) && input[k].digest in Digests(input, key);
    assert j in ValidMembers(input, key) <==> input[j].sample.Some?;
    assert k in ValidMembers(input, key) <==> input[k].sample.Some?;
  }

  /** The counts the query compares say which class a key is in. */
  lemma {:induction false} AggregatesDecide(input: Input, key: Name)
    requires key in Keys(input)
    ensures var total, raw, valid := |Members(input, key)|, |Digests(input, key)|, |ValidMembers(input, key)|;
            && (raw > 1 || (valid != 0 && valid != total) <==> Mixed(input, key))
            && (valid == total && raw == 1 <==> Clean(input, key))
            && (valid == 0 ==> forall k :: HasKey(input, k, key) ==> input[k].sample.None?)
            && total > 0
  {
    var total, raw, valid := Members(input, key), Digests(input, key), ValidMembers(input, key);
    var k := KeyHasRow(input, key);
    assert k in total && input[k].digest in raw;
    assert k in valid <==> input[k].sample.Some?;
    SubsetSize(valid, total);
    if |raw| > 1 { ManyDigests(input, key); }
    if valid != {} && valid != total { SomeValid(input, key); }
    if Mixed(input, key) { MixedShows(input, key); }
    forall j | HasKey(input, j, key) && |valid| == 0 ensures input[j].sample.None? {
      assert j !in valid;
    }
  }

  /** COUNT(DISTINCT sample_id), for a clean key. */
  lemma {:induction false} SampleCount(input: Input, key: Name)
    requires Clean(input, key)
    ensures |Samples(input, key)| != 1 <==> Ambiguous(input, key)
  {
    var k :| HasKey(input, k, key) && input[k].sample.Some?;
    var samples := Samples(input, key);
    assert input[k].sample.value in samples;
    OneElement(samples);
    if Ambiguous(input, key) {
      var a, b :| HasKey(input, a, key) && HasKey(input, b, key) && input[a].sample != input[b].sample;
      assert Same(input[a], input[k]) && Same(input[b], input[k]);
      assert input[a].sample.value in samples && input[b].sample.value in samples;
    }
    if |samples| > 1 {
      var x, y :| x in samples && y in samples && x != y;
      var a: nat :| a in input && HasKey(input, a, key) && input[a].sample.Some? && input[a].sample.value == x;
      var b: nat :| b in input && HasKey(input, b, key) && input[b].sample.Some? && input[b].sample.value == y;
    }
  }
}
