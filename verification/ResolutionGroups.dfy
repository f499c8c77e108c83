/** The control-break loop that turns ordered target rows into one group per resolution key. */
module ResolutionGroups {
  import opened Cursors
  import opened Wrappers
  import opened ResolutionRows

  datatype Group = Group(key: Name, identity: Identity, references: seq<Name>)
  datatype Grouping = Groups(groups: seq<Group>) | ConflictingTargets

  predicate Before(a: TargetId, b: TargetId) {
    a.key < b.key || (a.key == b.key && a.reference < b.reference)
  }

  ghost predicate Sorted(rows: seq<TargetId>) {
    forall i, j :: 0 <= i < j < |rows| ==> Before(rows[i], rows[j])
  }

  function KeysOf(targets: Targets): set<Name> {
    set t | t in targets :: t.key
  }

  /** The rows of a SELECT ... ORDER BY resolution_key, partition_name, rollout_id, projected_row_sha256. */
  ghost predicate Ordered(targets: Targets, rows: seq<TargetId>) {
    Sorted(rows) && (forall t :: t in rows <==> t in targets) && |rows| == |targets|
  }

  predicate IsFirst(s: set<TargetId>, t: TargetId) {
    t in s && forall u :: u in s && u != t ==> Before(t, u)
  }

  lemma {:induction false} FirstExists(s: set<TargetId>)
    requires s != {}
    ensures exists t :: IsFirst(s, t)
  {
    var x :| x in s;
    if s == {x} {
      assert IsFirst(s, x);
    } else {
      FirstExists(s - {x});
      var t :| IsFirst(s - {x}, t);
      var first := if Before(x, t) then x else t;
      forall u | u in s && u != first ensures Before(first, u) {
        if u != x { assert u in s - {x}; }
      }
      assert IsFirst(s, first);
    }
  }

  function First(s: set<TargetId>): (t: TargetId)
    requires s != {}
    ensures IsFirst(s, t)
  {
    FirstExists(s);
    var t :| IsFirst(s, t);
    t
  }

  function Ascending(s: set<TargetId>): (rows: seq<TargetId>)
    ensures Sorted(rows) && (forall t :: t in rows <==> t in s) && |rows| == |s|
  {
    if s == {} then [] else
      var t := First(s);
      [t] + Ascending(s - {t})
  }

  method OrderTargets(targets: Targets) returns (rows: seq<TargetId>)
    ensures Ordered(targets, rows)
  {
    rows := Ascending(targets.Keys);
  }

  /** A finished group: exactly the references of its key, ascending, all with one identity. */
  ghost predicate GroupOk(targets: Targets, g: Group) {
    && g.references != [] && StrictlyIncreasing(g.references)
    && (forall r :: MemberOk(targets, g, r))
  }

  predicate MemberOk(targets: Targets, g: Group, r: Name) {
    (r in g.references <==> TargetId(g.key, r) in targets)
    && (TargetId(g.key, r) in targets ==> targets[TargetId(g.key, r)] == g.identity)
  }

  function References(groups: seq<Group>, n: nat): nat
    requires n <= |groups|
  {
    if n == 0 then 0 else References(groups, n - 1) + |groups[n - 1].references|
  }

  ghost predicate KeysAscend(groups: seq<Group>) {
    forall i, j :: 0 <= i < j < |groups| ==> groups[i].key < groups[j].key
  }

  predicate HasGroup(groups: seq<Group>, key: Name) {
    exists i :: 0 <= i < |groups| && groups[i].key == key
  }

  /** The targets as groups: one per key, keys ascending, nothing left out. */
  ghost predicate Grouped(targets: Targets, groups: seq<Group>) {
    && KeysAscend(groups) && (forall i :: 0 <= i < |groups| ==> GroupOk(targets, groups[i]))
    && (forall t :: t in targets ==> HasGroup(groups, t.key))
    && References(groups, |groups|) == |targets|
  }

  predicate Clash(targets: Targets, t: TargetId, u: TargetId) {
    t in targets && u in targets && t.key == u.key && targets[t] != targets[u]
  }

  ghost predicate Clashing(targets: Targets) {
    exists t, u :: Clash(targets, t, u)
  }

  /** The open group of the loop: the rows of the last key among the first n. */
  ghost predicate OpenOk(targets: Targets, rows: seq<TargetId>, n: nat, g: Group) {
    && 0 < n <= |rows| && g.references != [] && StrictlyIncreasing(g.references)
    && rows[n - 1] == TargetId(g.key, g.references[|g.references| - 1])
    && (forall j :: 0 <= j < n && rows[j].key == g.key ==> rows[j].reference in g.references)
    && (forall r :: r in g.references ==> TargetId(g.key, r) in targets && targets[TargetId(g.key, r)] == g.identity)
  }

  /** The loop after n rows: finished groups, all with smaller keys, and the open one. */
  ghost predicate ScanOk(targets: Targets, rows: seq<TargetId>, n: nat, groups: seq<Group>, g: Group) {
    && OpenOk(targets, rows, n, g)
    && KeysAscend(groups) && (forall i :: 0 <= i < |groups| ==> GroupOk(targets, groups[i]) && groups[i].key < g.key)
    && (forall j :: 0 <= j < n ==> rows[j].key == g.key || HasGroup(groups, rows[j].key))
    && References(groups, |groups|) + |g.references| == n
  }

  /** When the key changes, or the rows end, the open group is complete. */
  lemma {:induction false} GroupCompletes(targets: Targets, rows: seq<TargetId>, n: nat, g: Group)
    requires Ordered(targets, rows) && OpenOk(targets, rows, n, g)
    requires n == |rows| || rows[n].key != g.key
    ensures GroupOk(targets, g) && (n < |rows| ==> g.key < rows[n].key)
  {
    if n < |rows| { assert Before(rows[n - 1], rows[n]); }
    forall r ensures MemberOk(targets, g, r) {
      var t := TargetId(g.key, r);
      if t in targets {
        assert t in rows;
        var j :| 0 <= j < |rows| && rows[j] == t;
        assert j < n;
      }
    }
  }

  lemma {:induction false} HasGroupMore(groups: seq<Group>, g: Group, key: Name)
    ensures HasGroup(groups + [g], key) <==> HasGroup(groups, key) || g.key == key
  {
    var more := groups + [g];
    assert more[|groups|] == g;
    if HasGroup(groups, key) {
      var i :| 0 <= i < |groups| && groups[i].key == key;
      assert more[i].key == key;
    }
  }

  lemma {:induction false} ReferencesMore(groups: seq<Group>, g: Group, n: nat)
    requires n <= |groups|
    ensures References(groups + [g], n) == References(groups, n)
    ensures n == |groups| ==> References(groups + [g], n + 1) == References(groups, n) + |g.references|
  {
    if n > 0 { ReferencesMore(groups, g, n - 1); }
  }

  /** The next row has the same key and identity: it joins the open group. */
  lemma {:induction false} JoinGroup(targets: Targets, rows: seq<TargetId>, n: nat, groups: seq<Group>, g: Group)
    requires Ordered(targets, rows) && n < |rows| && ScanOk(targets, rows, n, groups, g)
    requires rows[n].key == g.key && rows[n] in targets && targets[rows[n]] == g.identity
    ensures ScanOk(targets, rows, n + 1, groups, g.(references := g.references + [rows[n].reference]))
  {
    assert Before(rows[n - 1], rows[n]);
  }

  /** The next row has another key: the open group is yielded and a new one starts. */
  lemma {:induction false} BreakGroup(targets: Targets, rows: seq<TargetId>, n: nat, groups: seq<Group>, g: Group)
    requires Ordered(targets, rows) && n < |rows| && ScanOk(targets, rows, n, groups, g)
    requires rows[n].key != g.key && rows[n] in targets
    ensures ScanOk(targets, rows, n + 1, groups + [g], Group(rows[n].key, targets[rows[n]], [rows[n].reference]))
  {
    GroupCompletes(targets, rows, n, g);
    ReferencesMore(groups, g, |groups|);
    forall j | 0 <= j < n ensures HasGroup(groups + [g], rows[j].key) && rows[j].key != rows[n].key {
      HasGroupMore(groups, g, rows[j].key);
      assert Before(rows[j], rows[n - 1]) || j == n - 1;
    }
  }

  lemma {:induction false} LastGroup(targets: Targets, rows: seq<TargetId>, groups: seq<Group>, g: Group)
    requires Ordered(targets, rows) && ScanOk(targets, rows, |rows|, groups, g)
    ensures Grouped(targets, groups + [g])
  {
    GroupCompletes(targets, rows, |rows|, g);
    ReferencesMore(groups, g, |groups|);
    forall t | t in targets ensures HasGroup(groups + [g], t.key) {
      assert t in rows;
      HasGroupMore(groups, g, t.key);
    }
  }

  /** Two identities under one key make the loop raise; grouped targets have none. */
  lemma {:induction false} GroupedNeverClash(targets: Targets, groups: seq<Group>)
    requires Grouped(targets, groups)
    ensures !Clashing(targets)
  {
    if t, u :| Clash(targets, t, u) {
      var i :| 0 <= i < |groups| && groups[i].key == t.key;
      assert MemberOk(targets, groups[i], t.reference) && MemberOk(targets, groups[i], u.reference);
    }
  }

  ghost predicate LoopOk(targets: Targets, rows: seq<TargetId>, n: nat, groups: seq<Group>, key: Option<Name>,
                         identity: Option<Identity>, references: seq<Name>)
  {
    if n == 0 then key == None && identity == None && references == [] && groups == []
    else key.Some? && identity.Some? && ScanOk(targets, rows, n, groups, Group(key.value, identity.value, references))
  }

  /** One round of _target_groups: perhaps yield the open group, then take the row in. */
  method TakeRow(targets: Targets, rows: seq<TargetId>, n: nat, groups0: seq<Group>, key0: Option<Name>,
                 identity0: Option<Identity>, references0: seq<Name>)
    returns (clash: bool, groups: seq<Group>, key: Option<Name>, identity: Option<Identity>, references: seq<Name>)
    requires n < |rows| && Ordered(targets, rows) && LoopOk(targets, rows, n, groups0, key0, identity0, references0)
    ensures clash ==> Clashing(targets)
    ensures !clash ==> LoopOk(targets, rows, n + 1, groups, key, identity, references)
  {
    groups, key, identity, references := groups0, key0, identity0, references0;
    var t := rows[n];
    assert t in rows;
    if key.Some? && t.key != key.value {
      BreakGroup(targets, rows, n, groups, Group(key.value, identity.value, references));
      groups := groups + [Group(key.value, identity.value, references)];
      references, identity := [], None;
    }
    if identity.None? {
      key, identity := Some(t.key), Some(targets[t]);
    } else if targets[t] != identity.value {
      assert Clash(targets, t, TargetId(key.value, references[0]));
      clash := true;
      return;
    } else {
      JoinGroup(targets, rows, n, groups, Group(key.value, identity.value, references));
    }
    references := references + [t.reference];
    clash := false;
  }

  /** _target_groups, run to its end: the groups in the order they are yielded. */
  method TargetGroups(targets: Targets) returns (result: Grouping)
    ensures result.Groups? ==> Grouped(targets, result.groups)
    ensures result.ConflictingTargets? <==> Clashing(targets)
  {
    var rows := OrderTargets(targets);
    var groups: seq<Group> := [];
    var key: Option<Name>, identity: Option<Identity>, references: seq<Name> := None, None, [];
    for n := 0 to |rows|
      invariant LoopOk(targets, rows, n, groups, key, identity, references)
    {
      var clash;
      clash, groups, key, identity, references := TakeRow(targets, rows, n, groups, key, identity, references);
      if clash { return ConflictingTargets; }
    }
    if key.Some? {
      LastGroup(targets, rows, groups, Group(key.value, identity.value, references));
      groups := groups + [Group(key.value, identity.value, references)];
    }
    GroupedNeverClash(targets, groups);
    result := Groups(groups);
  }
}
