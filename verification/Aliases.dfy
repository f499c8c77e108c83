/** Repository aliases: direct links are collected, then every chain is walked to its end with memoised exits. */
module Aliases {
  import opened Cursors
  import opened Sizes
  import opened Wrappers

  datatype Pair = Pair(alias: string, target: string)

  /** The direct link of each alias, or the error that stops. */
  datatype Collected = Direct(links: map<Name, Name>) | Invalid | Conflicting
  datatype Resolution = Resolved(links: map<Name, Name>) | Cycle(cycle: seq<Name>) | Refused

  /** The pair links a to t; a pair whose two names are the same repository says nothing. */
  predicate Says(canonical: string -> Option<Name>, p: Pair, a: Name, t: Name) {
    canonical(p.alias) == Some(a) && canonical(p.target) == Some(t) && a != t
  }

  predicate Readable(canonical: string -> Option<Name>, p: Pair) {
    canonical(p.alias).Some? && canonical(p.target).Some?
  }

  ghost predicate Told(canonical: string -> Option<Name>, pairs: seq<Pair>, n: nat, a: Name, t: Name)
    requires n <= |pairs|
  {
    exists m :: 0 <= m < n && Says(canonical, pairs[m], a, t)
  }

  /** d holds exactly the links the first n pairs tell. */
  ghost predicate Holds(canonical: string -> Option<Name>, pairs: seq<Pair>, n: nat, d: map<Name, Name>)
    requires n <= |pairs|
  {
    forall a, t :: (a in d && d[a] == t) <==> Told(canonical, pairs, n, a, t)
  }

  ghost predicate Contradictory(canonical: string -> Option<Name>, pairs: seq<Pair>) {
    exists a, t, u :: t != u && Told(canonical, pairs, |pairs|, a, t) && Told(canonical, pairs, |pairs|, a, u)
  }

  ghost predicate AllReadable(canonical: string -> Option<Name>, pairs: seq<Pair>) {
    forall m :: 0 <= m < |pairs| ==> Readable(canonical, pairs[m])
  }

  lemma {:induction false} ToldMore(canonical: string -> Option<Name>, pairs: seq<Pair>, n: nat, a: Name, t: Name)
    requires n < |pairs|
    ensures Told(canonical, pairs, n + 1, a, t) <==> Told(canonical, pairs, n, a, t) || Says(canonical, pairs[n], a, t)
    ensures Told(canonical, pairs, n + 1, a, t) ==> Told(canonical, pairs, |pairs|, a, t)
  {
  }

  /** The first loop of _resolved_aliases. */
  method CollectLinks(canonical: string -> Option<Name>, pairs: seq<Pair>) returns (result: Collected)
    ensures result.Direct? ==> Holds(canonical, pairs, |pairs|, result.links)
    ensures result.Direct? <==> AllReadable(canonical, pairs) && !Contradictory(canonical, pairs)
    ensures result.Invalid? ==> !AllReadable(canonical, pairs)
    ensures result.Conflicting? ==> Contradictory(canonical, pairs)
  {
    var direct: map<Name, Name> := map[];
    for n := 0 to |pairs|
      invariant Holds(canonical, pairs, n, direct)
      invariant forall m :: 0 <= m < n ==> Readable(canonical, pairs[m])
    {
      var alias, target := canonical(pairs[n].alias), canonical(pairs[n].target);
      if alias.None? || target.None? {
        assert !Readable(canonical, pairs[n]);
        return Invalid;
      }
      ghost var before := direct;
      if alias.value != target.value {
        assert Says(canonical, pairs[n], alias.value, target.value);
        ToldMore(canonical, pairs, n, alias.value, target.value);
        if alias.value in direct && direct[alias.value] != target.value {
          assert Told(canonical, pairs, n, alias.value, direct[alias.value]);
          ToldMore(canonical, pairs, n, alias.value, direct[alias.value]);
          return Conflicting;
        }
        direct := direct[alias.value := target.value];
      }
      LinkTold(canonical, pairs, n, before, direct);
    }
    result := Direct(direct);
  }

  lemma {:induction false} LinkTold(canonical: string -> Option<Name>, pairs: seq<Pair>, n: nat,
                                    before: map<Name, Name>, after: map<Name, Name>)
    requires n < |pairs| && Readable(canonical, pairs[n]) && Holds(canonical, pairs, n, before)
    requires var a, t := canonical(pairs[n].alias).value, canonical(pairs[n].target).value;
             && (a != t && a in before ==> before[a] == t)
             && after == if a == t then before else before[a := t]
    ensures Holds(canonical, pairs, n + 1, after)
  {
    var next := n + 1;
    forall a, t ensures (a in after && after[a] == t) <==> Told(canonical, pairs, next, a, t) {
      assert (a in before && before[a] == t) <==> Told(canonical, pairs, n, a, t);
      ToldMore(canonical, pairs, n, a, t);
    }
  }

  /** The collected links depend only on which pairs there are, not on their order. */
  lemma {:induction false} OrderIsIrrelevant(canonical: string -> Option<Name>, p: seq<Pair>, q: seq<Pair>,
                                             d: map<Name, Name>, e: map<Name, Name>)
    requires forall x :: x in p <==> x in q
    ensures AllReadable(canonical, p) <==> AllReadable(canonical, q)
    ensures Contradictory(canonical, p) <==> Contradictory(canonical, q)
    ensures Holds(canonical, p, |p|, d) && Holds(canonical, q, |q|, e) ==> d == e
  {
    forall a, t ensures Told(canonical, p, |p|, a, t) <==> Told(canonical, q, |q|, a, t) {
      ToldMoves(canonical, p, q, a, t);
      ToldMoves(canonical, q, p, a, t);
    }
    forall m | 0 <= m < |p| ensures p[m] in q { assert p[m] in p; }
    forall m | 0 <= m < |q| ensures q[m] in p { assert q[m] in q; }
    if Holds(canonical, p, |p|, d) && Holds(canonical, q, |q|, e) {
      forall a ensures (a in d <==> a in e) && (a in d && a in e ==> d[a] == e[a]) {
        if a in d { assert Told(canonical, p, |p|, a, d[a]); }
        if a in e { assert Told(canonical, q, |q|, a, e[a]); }
      }
    }
  }

  lemma {:induction false} ToldMoves(canonical: string -> Option<Name>, p: seq<Pair>, q: seq<Pair>, a: Name, t: Name)
    requires forall x :: x in p ==> x in q
    ensures Told(canonical, p, |p|, a, t) ==> Told(canonical, q, |q|, a, t)
  {
    if Told(canonical, p, |p|, a, t) {
      var m :| 0 <= m < |p| && Says(canonical, p[m], a, t);
      assert p[m] in q;
      var k :| 0 <= k < |q| && q[k] == p[m];
      assert Says(canonical, q[k], a, t);
    }
  }

  // Chains.

  /** n links lead from a to b. */
  predicate Reach(d: map<Name, Name>, a: Name, b: Name, n: nat)
    decreases n
  {
    if n == 0 then a == b else a in d && Reach(d, d[a], b, n - 1)
  }

  /** The chain of a ends in t, which is no alias. */
  ghost predicate Ends(d: map<Name, Name>, a: Name, t: Name) {
    t !in d && exists n :: Reach(d, a, t, n)
  }

  ghost predicate Cyclic(d: map<Name, Name>) {
    exists a, n :: n > 0 && Reach(d, a, a, n)
  }

  lemma {:induction false} ReachTrans(d: map<Name, Name>, a: Name, b: Name, c: Name, m: nat, n: nat)
    requires Reach(d, a, b, m) && Reach(d, b, c, n)
    ensures Reach(d, a, c, m + n)
    decreases m
  {
    if m > 0 { ReachTrans(d, d[a], b, c, m - 1, n); }
  }

  /** A chain is deterministic: the longer of two walks goes on from where the shorter ends. */
  lemma {:induction false} ReachOn(d: map<Name, Name>, a: Name, b: Name, c: Name, m: nat, n: nat)
    requires Reach(d, a, b, m) && Reach(d, a, c, n) && m <= n
    ensures Reach(d, b, c, n - m)
    decreases m
  {
    if m > 0 { ReachOn(d, d[a], b, c, m - 1, n - 1); }
  }

  lemma {:induction false} EndIsUnique(d: map<Name, Name>, a: Name, t: Name, u: Name)
    requires Ends(d, a, t) && Ends(d, a, u)
    ensures t == u
  {
    var m: nat :| Reach(d, a, t, m);
    var n: nat :| Reach(d, a, u, n);
    if m <= n { ReachOn(d, a, t, u, m, n); } else { ReachOn(d, a, u, t, n, m); }
  }

  lemma {:induction false} EndFromNext(d: map<Name, Name>, a: Name, b: Name, t: Name, m: nat)
    requires Reach(d, a, b, m) && Ends(d, b, t)
    ensures Ends(d, a, t)
  {
    var n: nat :| Reach(d, b, t, n);
    ReachTrans(d, a, b, t, m, n);
  }

  /** Nothing on a cycle has an end. */
  lemma {:induction false} CycleHasNoEnd(d: map<Name, Name>, a: Name, t: Name, m: nat, n: nat)
    requires m > 0 && Reach(d, a, a, m) && Reach(d, a, t, n)
    ensures t in d
    decreases n
  {
    if n < m {
      ReachOn(d, a, t, a, n, m);
    } else {
      ReachOn(d, a, a, t, m, n);
      CycleHasNoEnd(d, a, t, m, n - m);
    }
  }

  lemma {:induction false} AllEndMeansAcyclic(d: map<Name, Name>, resolved: map<Name, Name>)
    requires forall a :: a in d ==> a in resolved && Ends(d, a, resolved[a])
    ensures !Cyclic(d)
  {
    if a, m :| m > 0 && Reach(d, a, a, m) {
      var n: nat :| Reach(d, a, resolved[a], n);
      CycleHasNoEnd(d, a, resolved[a], m, n);
    }
  }

  ghost predicate ResolvedOk(d: map<Name, Name>, resolved: map<Name, Name>) {
    forall a :: ResolvedAt(d, resolved, a)
  }

  ghost predicate ResolvedAt(d: map<Name, Name>, resolved: map<Name, Name>, a: Name) {
    a in resolved ==> a in d && Ends(d, a, resolved[a])
  }

  /** The walked path: distinct unresolved aliases, each linked to the next, the last to current. */
  ghost predicate PathOk(d: map<Name, Name>, resolved: map<Name, Name>, path: seq<Name>, positions: map<Name, nat>,
                         origin: Name, current: Name)
  {
    && (forall i :: 0 <= i < |path| ==> PathAt(d, resolved, path, current, i))
    && (path == [] ==> current == origin) && (path != [] ==> path[0] == origin)
    && (forall a :: a in positions <==> a in path)
    && (forall i :: 0 <= i < |path| ==> positions[path[i]] == i)
    && |positions| == |path|
  }

  predicate PathAt(d: map<Name, Name>, resolved: map<Name, Name>, path: seq<Name>, current: Name, i: nat) {
    i < |path| && path[i] in d && path[i] !in resolved && d[path[i]] == if i + 1 < |path| then path[i + 1] else current
  }

  lemma {:induction false} PathReaches(d: map<Name, Name>, resolved: map<Name, Name>, path: seq<Name>, current: Name,
                                       i: nat)
    requires i <= |path| && forall j :: 0 <= j < |path| ==> PathAt(d, resolved, path, current, j)
    ensures i < |path| ==> Reach(d, path[i], current, |path| - i)
    decreases |path| - i
  {
    if i < |path| {
      assert PathAt(d, resolved, path, current, i);
      PathReaches(d, resolved, path, current, i + 1);
    }
  }

  /** The inner while loop: follow links until a known end, an unlinked name, or a repetition. */
  method Walk(d: map<Name, Name>, resolved: map<Name, Name>, origin: Name)
    returns (cyclic: bool, path: seq<Name>, positions: map<Name, nat>, current: Name)
    requires origin in d && origin !in resolved
    ensures PathOk(d, resolved, path, positions, origin, current) && path != []
    ensures cyclic ==> current in positions
    ensures !cyclic ==> current !in d || current in resolved
  {
    path, positions, current := [], map[], origin;
    while current in d && current !in resolved
      invariant PathOk(d, resolved, path, positions, origin, current)
      invariant path == [] ==> current in d && current !in resolved
      decreases |d| - |path|
    {
      if current in positions { return true, path, positions, current; }
      PathFits(d, resolved, path, positions, origin, current);
      PathGrows(d, resolved, path, positions, origin, current);
      positions := positions[current := |path|];
      path := path + [current];
      current := d[current];
    }
    cyclic := false;
  }

  lemma {:induction false} PathGrows(d: map<Name, Name>, resolved: map<Name, Name>, path: seq<Name>,
                                     positions: map<Name, nat>, origin: Name, current: Name)
    requires PathOk(d, resolved, path, positions, origin, current) && current in d && current !in resolved
             && current !in positions
    ensures PathOk(d, resolved, path + [current], positions[current := |path|], origin, d[current])
  {
    var longer := path + [current];
    forall i | 0 <= i < |longer| ensures PathAt(d, resolved, longer, d[current], i) {
      if i < |path| { assert PathAt(d, resolved, path, current, i); }
    }
  }

  lemma {:induction false} PathFits(d: map<Name, Name>, resolved: map<Name, Name>, path: seq<Name>,
                                    positions: map<Name, nat>, origin: Name, current: Name)
    requires PathOk(d, resolved, path, positions, origin, current) && current in d && current !in positions
    ensures |path| < |d|
  {
    forall a | a in positions ensures a in d {
      var i :| 0 <= i < |path| && path[i] == a;
      assert PathAt(d, resolved, path, current, i);
    }
    assert positions.Keys + {current} <= d.Keys;
    SubsetSize(positions.Keys + {current}, d.Keys);
  }

  /** _resolved_aliases, from the direct links on. */
  method ResolveLinks(d: map<Name, Name>) returns (result: Resolution)
    ensures !result.Refused?
    ensures result.Cycle? <==> Cyclic(d)
    ensures result.Cycle? ==> |result.cycle| > 1 && Reach(d, result.cycle[0], result.cycle[0], |result.cycle| - 1)
    ensures result.Resolved? ==> result.links.Keys == d.Keys && forall a :: a in d ==> Ends(d, a, result.links[a])
  {
    var resolved: map<Name, Name> := map[];
    var origins := OrderBy(d.Keys);
    for n := 0 to |origins|
      invariant ResolvedOk(d, resolved)
      invariant forall m :: 0 <= m < n ==> origins[m] in resolved
    {
      assert origins[n] in Elements(origins);
      if origins[n] !in resolved {
        var cyclic, path, positions, current := Walk(d, resolved, origins[n]);
        if cyclic {
          PathReaches(d, resolved, path, current, positions[current]);
          return Cycle(path[positions[current]..] + [current]);
        }
        resolved := Memoise(d, resolved, path, current);
      }
    }
    forall a | a in d ensures a in resolved && Ends(d, a, resolved[a]) {
      assert a in Elements(origins);
      assert ResolvedAt(d, resolved, a);
    }
    forall a | a in resolved ensures a in d { assert ResolvedAt(d, resolved, a); }
    AllEndMeansAcyclic(d, resolved);
    result := Resolved(resolved);
  }

  /** The for loop over the reversed path: all of it ends where current does. */
  method Memoise(d: map<Name, Name>, before: map<Name, Name>, path: seq<Name>, current: Name)
    returns (resolved: map<Name, Name>)
    requires ResolvedOk(d, before) && (current !in d || current in before)
    requires forall i :: 0 <= i < |path| ==> PathAt(d, before, path, current, i)
    ensures ResolvedOk(d, resolved) && before.Keys <= resolved.Keys && forall i :: 0 <= i < |path| ==>
              path[i] in resolved
  {
    resolved := before;
    var target := if current in resolved then resolved[current] else current;
    assert Ends(d, current, target) by {
      assert ResolvedAt(d, before, current);
      assert Reach(d, current, current, 0);
    }
    for i := |path| downto 0
      invariant ResolvedOk(d, resolved) && before.Keys <= resolved.Keys
      invariant forall j :: i <= j < |path| ==> path[j] in resolved
    {
      PathReaches(d, before, path, current, i);
      EndFromNext(d, path[i], current, target, |path| - i);
      assert PathAt(d, before, path, current, i);
      resolved := AddEnd(d, resolved, path[i], target);
    }
  }

  method AddEnd(d: map<Name, Name>, before: map<Name, Name>, a: Name, t: Name) returns (after: map<Name, Name>)
    requires ResolvedOk(d, before) && a in d && Ends(d, a, t)
    ensures after == before[a := t] && ResolvedOk(d, after)
  {
    after := before[a := t];
    forall b ensures ResolvedAt(d, after, b) {
      assert ResolvedAt(d, before, b);
    }
  }

  /** A finished alias table: each alias of d, and nothing else, is sent to the end of its chain. */
  ghost predicate Follows(d: map<Name, Name>, resolved: map<Name, Name>) {
    resolved.Keys == d.Keys && forall a :: a in d ==> Ends(d, a, resolved[a])
  }

  /** _resolved_aliases: it raises on an unreadable name, on two targets for one alias, and on a cycle, and only
      then. */
  method ResolvedAliases(canonical: string -> Option<Name>, pairs: seq<Pair>)
    returns (result: Resolution, ghost d: map<Name, Name>)
    ensures result.Refused? <==> !AllReadable(canonical, pairs) || Contradictory(canonical, pairs)
    ensures !result.Refused? ==> Holds(canonical, pairs, |pairs|, d) && (result.Cycle? <==> Cyclic(d))
    ensures result.Resolved? ==> Follows(d, result.links)
  {
    d := map[];
    var direct := CollectLinks(canonical, pairs);
    if !direct.Direct? { return Refused, map[]; }
    d := direct.links;
    result := ResolveLinks(direct.links);
  }

  /** aliases.get(repository, repository) */
  function Applied(resolved: map<Name, Name>, repository: Name): Name {
    if repository in resolved then resolved[repository] else repository
  }

  /** What an alias resolves to is no alias, and resolving again changes nothing. */
  lemma {:induction false} AppliedTwice(d: map<Name, Name>, resolved: map<Name, Name>, a: Name)
    requires Follows(d, resolved)
    ensures Applied(resolved, a) !in d && Applied(resolved, Applied(resolved, a)) == Applied(resolved, a)
    ensures a in d ==> Applied(resolved, a) == Applied(resolved, d[a])
  {
    if a in d {
      assert Ends(d, a, resolved[a]);
      var n: nat :| Reach(d, a, resolved[a], n);
      assert n > 0 && Reach(d, d[a], resolved[a], n - 1);
      assert Ends(d, d[a], resolved[a]);
      if d[a] in d { EndIsUnique(d, d[a], resolved[a], resolved[d[a]]); }
    }
  }

  /** The result does not depend on the order of the pairs, nor on which chains were walked first. */
  lemma {:induction false} SameAliases(canonical: string -> Option<Name>, p: seq<Pair>, q: seq<Pair>,
                                       d: map<Name, Name>, e: map<Name, Name>,
                                       resolved: map<Name, Name>, other: map<Name, Name>)
    requires forall x :: x in p <==> x in q
    requires Holds(canonical, p, |p|, d) && Holds(canonical, q, |q|, e) && Follows(d, resolved) && Follows(e, other)
    ensures resolved == other
  {
    OrderIsIrrelevant(canonical, p, q, d, e);
    forall a | a in d ensures resolved[a] == other[a] {
      EndIsUnique(d, a, resolved[a], other[a]);
    }
  }
}
