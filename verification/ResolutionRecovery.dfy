/** Label recovery: every stored unknown target becomes a candidate or joins a request. */
module ResolutionRecovery {
  import opened Cursors
  import opened Wrappers
  import opened Totals
  import opened ResolutionRows
  import opened ResolutionGroups

  datatype LabelConflict = LabelConflict(falseEvidence: seq<Name>, trueEvidence: seq<Name>)
  datatype Candidate = Candidate(identity: Identity, resolved: bool, evidence: seq<Name>)
  datatype Request = Request(identity: Identity, references: seq<Name>)

  predicate Observed(labels: Labels, key: Name, resolved: bool) {
    exists l :: l in labels && l.key == key && l.resolved == resolved
  }

  /** The resolved column of a key's observations. */
  function ResolvedValues(labels: Labels, key: Name): set<Name> {
    set l | l in labels && l.key == key :: if l.resolved then 1 else 0
  }

  function ObservationsIn(labels: Labels, key: Name, language: Name): set<LabelId> {
    set l | l in labels && l.key == key && labels[l] == language
  }

  /** MIN(resolved) != MAX(resolved), which is not true of no rows. */
  predicate Differs(labels: Labels, key: Name) {
    var values := ResolvedValues(labels, key);
    values != {} && Least(values) != Greatest(values)
  }

  /** _unanimous_label: from the minimum, the maximum and the counts of the observations. */
  function UnanimousLabel(labels: Labels, key: Name, language: Name): Option<bool> {
    var values := ResolvedValues(labels, key);
    if values == {} || Least(values) != Greatest(values) then None
    else if |ObservationsIn(labels, key, language)| == 0 then None
    else Some(Least(values) == 1)
  }

  lemma {:induction false} ResolvedValuesFacts(labels: Labels, key: Name)
    ensures forall b :: (if b then 1 else 0) in ResolvedValues(labels, key) <==> Observed(labels, key, b)
    ensures forall x :: x in ResolvedValues(labels, key) ==> x <= 1
  {
  }

  /** The aggregates tell when a key was observed with both labels. */
  lemma {:induction false} DiffersExactly(labels: Labels, key: Name)
    ensures Differs(labels, key) <==> Observed(labels, key, false) && Observed(labels, key, true)
  {
    ResolvedValuesFacts(labels, key);
    var values := ResolvedValues(labels, key);
    assert Observed(labels, key, false) <==> (if false then 1 else 0) in values;
    assert Observed(labels, key, true) <==> (if true then 1 else 0) in values;
    if values != {} {
      assert IsLeast(values, Least(values)) && IsGreatest(values, Greatest(values));
    }
  }

  /** All observations of the key, in any language, are b, and at least one is in this language. */
  ghost predicate Unanimous(labels: Labels, key: Name, language: Name, b: bool) {
    && (forall l :: l in labels && l.key == key ==> l.resolved == b)
    && exists l :: l in labels && l.key == key && labels[l] == language
  }

  lemma {:induction false} UnanimousLabelExactly(labels: Labels, key: Name, language: Name)
    ensures forall b :: UnanimousLabel(labels, key, language) == Some(b) <==> Unanimous(labels, key, language, b)
    ensures Observed(labels, key, false) && Observed(labels, key, true) ==>
              UnanimousLabel(labels, key, language) == None
  {
    DiffersExactly(labels, key);
    forall b ensures UnanimousLabel(labels, key, language) == Some(b) <==> Unanimous(labels, key, language, b) {
      LabelAgrees(labels, key, language, b);
    }
  }

  lemma {:induction false} LabelAgrees(labels: Labels, key: Name, language: Name, b: bool)
    ensures UnanimousLabel(labels, key, language) == Some(b) <==> Unanimous(labels, key, language, b)
  {
    var values, value := ResolvedValues(labels, key), if b then 1 else 0;
    if UnanimousLabel(labels, key, language) == Some(b) {
      assert IsLeast(values, Least(values)) && IsGreatest(values, Greatest(values));
      forall l | l in labels && l.key == key ensures l.resolved == b {
        assert (if l.resolved then 1 else 0) in values;
      }
      assert ObservationsIn(labels, key, language) != {};
      var l :| l in ObservationsIn(labels, key, language);
    }
    if Unanimous(labels, key, language, b) {
      var l :| l in labels && l.key == key && labels[l] == language;
      assert l in ObservationsIn(labels, key, language);
      assert value in values && forall x :: x in values ==> x == value;
      assert IsLeast(values, Least(values)) && IsGreatest(values, Greatest(values));
    }
  }

  /** _references_for_label, before ordering; no language means all. */
  function EvidenceFor(labels: Labels, key: Name, resolved: bool, language: Option<Name>): set<Name> {
    set l | l in labels && l.key == key && l.resolved == resolved && (language.None? || labels[l] == language.value)
      :: l.reference
  }

  /** ORDER BY: the members of s in ascending order. */
  ghost predicate Lists(q: seq<Name>, s: set<Name>) {
    StrictlyIncreasing(q) && Elements(q) == s
  }

  ghost predicate CandidateOk(labels: Labels, key: Name, c: Candidate) {
    && UnanimousLabel(labels, key, c.identity.language) == Some(c.resolved)
    && Lists(c.evidence, EvidenceFor(labels, key, c.resolved, Some(c.identity.language)))
  }

  ghost predicate ConflictOk(labels: Labels, key: Name, c: LabelConflict) {
    && Lists(c.falseEvidence, EvidenceFor(labels, key, false, None))
    && Lists(c.trueEvidence, EvidenceFor(labels, key, true, None))
  }

  ghost predicate ConflictsOk(labels: Labels, conflicts: map<Name, LabelConflict>, keys: set<Name>) {
    conflicts.Keys == keys && forall key :: ConflictAt(labels, conflicts, key)
  }

  ghost predicate ConflictAt(labels: Labels, conflicts: map<Name, LabelConflict>, key: Name) {
    key in conflicts ==> ConflictOk(labels, key, conflicts[key])
  }

  lemma {:induction false} OneConflict(labels: Labels, conflicts: map<Name, LabelConflict>, keys: set<Name>,
                                       key: Name, c: LabelConflict)
    requires ConflictsOk(labels, conflicts, keys) && ConflictOk(labels, key, c)
    ensures ConflictsOk(labels, conflicts[key := c], keys + {key})
  {
    var more := conflicts[key := c];
    forall k ensures ConflictAt(labels, more, k) {
      assert ConflictAt(labels, conflicts, k);
    }
  }

  function Disputed(labels: Labels, targets: Targets): set<Name> {
    set t | t in targets && Differs(labels, t.key) :: t.key
  }

  /** The target_count column. */
  function Fanout(requests: map<Name, Request>): map<Name, nat> {
    map key | key in requests :: |requests[key].references|
  }

  predicate InFirst(groups: seq<Group>, n: nat, key: Name) {
    exists i :: 0 <= i < n && i < |groups| && groups[i].key == key
  }

  ghost predicate CandidateAt(labels: Labels, targets: Targets, candidates: map<TargetId, Candidate>,
                              groups: seq<Group>, n: nat, t: TargetId)
  {
    && (t in candidates <==>
          t in targets && InFirst(groups, n, t.key) && UnanimousLabel(labels, t.key, targets[t].language).Some?)
    && (t in candidates && t in targets ==>
          candidates[t].identity == targets[t] && CandidateOk(labels, t.key, candidates[t]))
  }

  ghost predicate RequestAt(labels: Labels, requests: map<Name, Request>, groups: seq<Group>, n: nat, i: nat) {
    i < |groups| ==>
      var g := groups[i];
      if i < n && UnanimousLabel(labels, g.key, g.identity.language).None? then
        g.key in requests && requests[g.key] == Request(g.identity, g.references)
      else g.key !in requests
  }

  /** The outputs after the first n groups. */
  ghost predicate Emitted(labels: Labels, targets: Targets, candidates: map<TargetId, Candidate>,
                          requests: map<Name, Request>, groups: seq<Group>, n: nat)
    requires n <= |groups|
  {
    && (forall t :: CandidateAt(labels, targets, candidates, groups, n, t))
    && (forall i: nat :: RequestAt(labels, requests, groups, n, i))
    && (forall key :: key in requests ==> HasGroup(groups, key))
    && |candidates| + Total(Fanout(requests)) == References(groups, n)
  }

  class Recovery {
    var conflicts: map<Name, LabelConflict>
    var candidates: map<TargetId, Candidate>
    var requests: map<Name, Request>

    constructor ()
      ensures conflicts == map[] && candidates == map[] && requests == map[]
    {
      conflicts, candidates, requests := map[], map[], map[];
    }

    /** _materialize_conflicts */
    method MaterializeConflicts(labels: Labels, targets: Targets)
      requires conflicts == map[]
      modifies this`conflicts
      ensures ConflictsOk(labels, conflicts, Disputed(labels, targets))
    {
      var keys := OrderBy(Disputed(labels, targets));
      AllElements(keys);
      for n := 0 to |keys|
        invariant ConflictsOk(labels, conflicts, Elements(keys[..n]))
      {
        ElementsStep(keys, n);
        var falseEvidence := OrderBy(EvidenceFor(labels, keys[n], false, None));
        var trueEvidence := OrderBy(EvidenceFor(labels, keys[n], true, None));
        var conflict := LabelConflict(falseEvidence, trueEvidence);
        OneConflict(labels, conflicts, Elements(keys[..n]), keys[n], conflict);
        conflicts := conflicts[keys[n] := conflict];
      }
    }

    /** The outputs of one group: a request without a unanimous label, candidates with one. */
    method EmitGroup(labels: Labels, ghost targets: Targets, groups: seq<Group>, n: nat)
      requires n < |groups| && Grouped(targets, groups) && Emitted(labels, targets, candidates, requests, groups, n)
      modifies this`candidates, this`requests
      ensures Emitted(labels, targets, candidates, requests, groups, n + 1)
    {
      var g := groups[n];
      match UnanimousLabel(labels, g.key, g.identity.language)
      case None =>
        RequestStep(labels, targets, candidates, requests, groups, n);
        requests := requests[g.key := Request(g.identity, g.references)];
      case Some(resolved) =>
        var evidence := OrderBy(EvidenceFor(labels, g.key, resolved, Some(g.identity.language)));
        var c := Candidate(g.identity, resolved, evidence);
        ghost var before := candidates;
        NotYet(labels, targets, candidates, requests, groups, n);
        EmitCandidates(g, c);
        CandidateStep(labels, targets, before, candidates, requests, groups, n, c);
    }

    /** The loop of _materialize_outputs over the target groups. */
    method EmitGroups(labels: Labels, ghost targets: Targets, groups: seq<Group>)
      requires candidates == map[] && requests == map[] && Grouped(targets, groups)
      modifies this`candidates, this`requests
      ensures Emitted(labels, targets, candidates, requests, groups, |groups|)
    {
      for n := 0 to |groups|
        invariant Emitted(labels, targets, candidates, requests, groups, n)
      {
        EmitGroup(labels, targets, groups, n);
      }
    }

    /** _materialize_outputs: it raises exactly when one key has two target identities. */
    method MaterializeOutputs(labels: Labels, targets: Targets) returns (done: bool, ghost groups: seq<Group>)
      requires conflicts == map[] && candidates == map[] && requests == map[]
      modifies this
      ensures done <==> !Clashing(targets)
      ensures ConflictsOk(labels, conflicts, Disputed(labels, targets))
      ensures done ==> Grouped(targets, groups) && Emitted(labels, targets, candidates, requests, groups, |groups|)
    {
      MaterializeConflicts(labels, targets);
      var grouping := TargetGroups(targets);
      if grouping.ConflictingTargets? { return false, []; }
      done, groups := true, grouping.groups;
      EmitGroups(labels, targets, grouping.groups);
    }

    /** One candidate for each reference of a labeled group. */
    method EmitCandidates(g: Group, c: Candidate)
      requires StrictlyIncreasing(g.references)
      requires forall r :: r in g.references ==> TargetId(g.key, r) !in candidates
      modifies this`candidates
      ensures Emits(old(candidates), candidates, g, c, |g.references|)
    {
      ghost var before := candidates;
      for j := 0 to |g.references|
        invariant Emits(before, candidates, g, c, j)
      {
        EmitsNew(before, candidates, g, c, j);
        candidates := candidates[TargetId(g.key, g.references[j]) := c];
      }
    }
  }

  /** Groups are found once: which of the first n have a key. */
  lemma {:induction false} FirstGroups(targets: Targets, groups: seq<Group>, n: nat, key: Name)
    requires Grouped(targets, groups) && n < |groups|
    ensures InFirst(groups, n + 1, key) <==> InFirst(groups, n, key) || key == groups[n].key
    ensures !InFirst(groups, n, groups[n].key)
  {
    if InFirst(groups, n, key) {
      var i :| 0 <= i < n && i < |groups| && groups[i].key == key;
      assert i < n + 1;
    }
    if key == groups[n].key { assert n < n + 1; }
  }

  /** A target of the group's key shares its identity, hence its label. */
  lemma {:induction false} SharesLabel(labels: Labels, targets: Targets, groups: seq<Group>, n: nat, t: TargetId)
    requires Grouped(targets, groups) && n < |groups| && t.key == groups[n].key
    ensures t in targets <==> t.reference in groups[n].references
    ensures t in targets ==> targets[t] == groups[n].identity
  {
    assert MemberOk(targets, groups[n], t.reference);
    assert t == TargetId(t.key, t.reference);
  }

  lemma {:induction false} RequestStep(labels: Labels, targets: Targets, candidates: map<TargetId, Candidate>,
                                       requests: map<Name, Request>, groups: seq<Group>, n: nat)
    requires n < |groups| && Grouped(targets, groups) && Emitted(labels, targets, candidates, requests, groups, n)
    requires UnanimousLabel(labels, groups[n].key, groups[n].identity.language).None?
    ensures Emitted(labels, targets, candidates,
            requests[groups[n].key := Request(groups[n].identity, groups[n].references)], groups, n + 1)
  {
    var g, next := groups[n], n + 1;
    var more := requests[g.key := Request(g.identity, g.references)];
    assert RequestAt(labels, requests, groups, n, n);
    forall t ensures CandidateAt(labels, targets, candidates, groups, next, t) {
      NoCandidates(labels, targets, candidates, requests, groups, n, t);
    }
    forall i: nat ensures RequestAt(labels, more, groups, next, i) {
      OneRequest(labels, requests, groups, n, i);
    }
    assert HasGroup(groups, g.key);
    FanoutMore(requests, g);
  }

  lemma {:induction false} NoCandidates(labels: Labels, targets: Targets, candidates: map<TargetId, Candidate>,
                                        requests: map<Name, Request>, groups: seq<Group>, n: nat, t: TargetId)
    requires n < |groups| && Grouped(targets, groups) && Emitted(labels, targets, candidates, requests, groups, n)
    requires UnanimousLabel(labels, groups[n].key, groups[n].identity.language).None?
    ensures CandidateAt(labels, targets, candidates, groups, n + 1, t)
  {
    assert CandidateAt(labels, targets, candidates, groups, n, t);
    FirstGroups(targets, groups, n, t.key);
    if t.key == groups[n].key { SharesLabel(labels, targets, groups, n, t); }
  }

  lemma {:induction false} OneRequest(labels: Labels, requests: map<Name, Request>, groups: seq<Group>, n: nat, i: nat)
    requires n < |groups| && KeysAscend(groups) && RequestAt(labels, requests, groups, n, i)
    requires UnanimousLabel(labels, groups[n].key, groups[n].identity.language).None?
    ensures RequestAt(labels, requests[groups[n].key := Request(groups[n].identity, groups[n].references)], groups,
            n + 1, i)
  {
  }

  lemma {:induction false} FanoutMore(requests: map<Name, Request>, g: Group)
    requires g.key !in requests
    ensures Total(Fanout(requests[g.key := Request(g.identity, g.references)]))
            == Total(Fanout(requests)) + |g.references|
  {
    assert Fanout(requests[g.key := Request(g.identity, g.references)])
           == Bumped(Fanout(requests), g.key, |g.references|);
    TotalBumped(Fanout(requests), g.key, |g.references|);
  }

  lemma {:induction false} CandidateStep(labels: Labels, targets: Targets, before: map<TargetId, Candidate>,
                                         after: map<TargetId, Candidate>,
                                         requests: map<Name, Request>, groups: seq<Group>, n: nat, c: Candidate)
    requires n < |groups| && Grouped(targets, groups) && Emitted(labels, targets, before, requests, groups, n)
    requires c.identity == groups[n].identity && CandidateOk(labels, groups[n].key, c)
    requires Emits(before, after, groups[n], c, |groups[n].references|)
    ensures Emitted(labels, targets, after, requests, groups, n + 1)
  {
    var g, next := groups[n], n + 1;
    assert g.references[..|g.references|] == g.references;
    forall t ensures CandidateAt(labels, targets, after, groups, next, t) {
      assert CandidateAt(labels, targets, before, groups, n, t) && EmitsAt(before, after, g, c, |g.references|, t);
      FirstGroups(targets, groups, n, t.key);
      if t.key == g.key { SharesLabel(labels, targets, groups, n, t); }
    }
    forall i: nat ensures RequestAt(labels, requests, groups, next, i) {
      assert RequestAt(labels, requests, groups, n, i);
    }
  }

  /** Nothing of a group is there before its turn. */
  lemma {:induction false} NotYet(labels: Labels, targets: Targets, candidates: map<TargetId, Candidate>,
                                  requests: map<Name, Request>, groups: seq<Group>, n: nat)
    requires n < |groups| && Grouped(targets, groups) && Emitted(labels, targets, candidates, requests, groups, n)
    ensures forall r :: r in groups[n].references ==> TargetId(groups[n].key, r) !in candidates
  {
    FirstGroups(targets, groups, n, groups[n].key);
    forall r | r in groups[n].references ensures TargetId(groups[n].key, r) !in candidates {
      assert CandidateAt(labels, targets, candidates, groups, n, TargetId(groups[n].key, r));
    }
  }

  /** The candidates for the first n references of the group have been added. */
  ghost predicate Emits(before: map<TargetId, Candidate>, after: map<TargetId, Candidate>, g: Group, c: Candidate,
                        n: nat)
  {
    && |after| == |before| + n
    && forall t :: EmitsAt(before, after, g, c, n, t)
  }

  predicate EmitsAt(before: map<TargetId, Candidate>, after: map<TargetId, Candidate>, g: Group, c: Candidate,
                    n: nat, t: TargetId)
  {
    if t.key == g.key && n <= |g.references| && t.reference in g.references[..n] then t in after && after[t] == c
    else (t in after <==> t in before) && (t in before && t in after ==> after[t] == before[t])
  }

  lemma {:induction false} EmitsNew(before: map<TargetId, Candidate>, after: map<TargetId, Candidate>, g: Group,
                                    c: Candidate, n: nat)
    requires StrictlyIncreasing(g.references) && n < |g.references| && Emits(before, after, g, c, n)
    requires forall r :: r in g.references ==> TargetId(g.key, r) !in before
    ensures Emits(before, after[TargetId(g.key, g.references[n]) := c], g, c, n + 1)
  {
    var u := TargetId(g.key, g.references[n]);
    var more, next := after[u := c], n + 1;
    assert EmitsAt(before, after, g, c, n, u);
    assert g.references[..next] == g.references[..n] + [g.references[n]];
    forall t ensures EmitsAt(before, more, g, c, next, t) {
      assert EmitsAt(before, after, g, c, n, t);
    }
  }
}
