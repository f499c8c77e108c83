/** Connected components of "some group holds both", and the parent table that stores them. */
module Components {
  import opened Cursors

  /** Sets of repositories that must stay together, in the order they were found. */
  datatype Groups = NoGroup | Plus(front: Groups, group: set<Name>)

  ghost predicate Linked(gs: Groups, a: Name, b: Name) {
    match gs
    case NoGroup => false
    case Plus(front, group) => (a in group && b in group) || Linked(front, a, b)
  }

  ghost predicate Within(gs: Groups, keys: set<Name>) {
    match gs
    case NoGroup => true
    case Plus(front, group) => group <= keys && Within(front, keys)
  }

  lemma {:induction false} LinkedWithin(gs: Groups, keys: set<Name>, a: Name, b: Name)
    requires Within(gs, keys) && Linked(gs, a, b)
    ensures a in keys && b in keys
  {
    if !(a in gs.group && b in gs.group) { LinkedWithin(gs.front, keys, a, b); }
  }

  ghost predicate Chain(gs: Groups, p: seq<Name>) {
    forall i :: 0 <= i < |p| - 1 ==> Linked(gs, p[i], p[i + 1])
  }

  ghost predicate ChainBetween(gs: Groups, p: seq<Name>, a: Name, b: Name) {
    p != [] && p[0] == a && p[|p| - 1] == b && Chain(gs, p)
  }

  /** Some chain of groups leads from a to b. */
  ghost predicate Connected(gs: Groups, a: Name, b: Name) {
    exists p :: ChainBetween(gs, p, a, b)
  }

  lemma {:induction false} ConnectedRefl(gs: Groups, a: Name)
    ensures Connected(gs, a, a)
  {
    assert ChainBetween(gs, [a], a, a);
  }

  lemma {:induction false} ConnectedLink(gs: Groups, a: Name, b: Name)
    requires Linked(gs, a, b)
    ensures Connected(gs, a, b)
  {
    assert ChainBetween(gs, [a, b], a, b);
  }

  lemma {:induction false} ConnectedTrans(gs: Groups, a: Name, b: Name, c: Name)
    requires Connected(gs, a, b) && Connected(gs, b, c)
    ensures Connected(gs, a, c)
  {
    var p :| ChainBetween(gs, p, a, b);
    var q :| ChainBetween(gs, q, b, c);
    var pq := p + q[1..];
    forall i | 0 <= i < |pq| - 1 ensures Linked(gs, pq[i], pq[i + 1]) {
      if i >= |p| - 1 {
        assert pq[i] == q[i - (|p| - 1)] && pq[i + 1] == q[i - (|p| - 1) + 1];
      }
    }
    assert ChainBetween(gs, pq, a, c);
  }

  lemma {:induction false} ConnectedMono(gs: Groups, more: Groups, a: Name, b: Name)
    requires Connected(gs, a, b)
    requires forall x, y :: Linked(gs, x, y) ==> Linked(more, x, y)
    ensures Connected(more, a, b)
  {
    var p :| ChainBetween(gs, p, a, b);
    assert ChainBetween(more, p, a, b);
  }

  type Parents = map<Name, Name>

  /** Links go to known, smaller names, so every walk along them ends. */
  ghost predicate Ordered(parent: Parents) {
    forall x :: OrderedAt(parent, x)
  }

  ghost predicate OrderedAt(parent: Parents, x: Name) {
    x in parent ==> parent[x] in parent && parent[x] <= x
  }

  /** Every stored parent is itself a root, and no root is above a name it stands for. */
  ghost predicate Flat(parent: Parents) {
    forall x :: FlatAt(parent, x)
  }

  ghost predicate FlatAt(parent: Parents, x: Name) {
    x in parent ==> parent[x] in parent && parent[parent[x]] == parent[x] && parent[x] <= x
  }

  /** The table is flat, and two repositories share a root exactly when a chain of groups connects them. */
  ghost predicate Represents(parent: Parents, gs: Groups) {
    Flat(parent) && Within(gs, parent.Keys) && forall a, b :: SameRootAt(parent, gs, a, b)
  }

  ghost predicate SameRootAt(parent: Parents, gs: Groups, a: Name, b: Name) {
    a in parent && b in parent ==> (parent[a] == parent[b] <==> Connected(gs, a, b))
  }

  /** Roots are determined by the groups alone: the table does not depend on processing order. */
  lemma {:induction false} RootIsLeast(parent: Parents, gs: Groups, a: Name)
    requires Represents(parent, gs) && a in parent
    ensures parent[a] in parent && Connected(gs, a, parent[a])
    ensures forall b :: b in parent && Connected(gs, a, b) ==> parent[a] <= b
  {
    assert FlatAt(parent, a);
    assert SameRootAt(parent, gs, a, parent[a]);
    forall b | b in parent && Connected(gs, a, b) ensures parent[a] <= b {
      assert SameRootAt(parent, gs, a, b) && FlatAt(parent, b);
    }
  }

  lemma {:induction false} RepresentsUnique(p: Parents, q: Parents, gs: Groups)
    requires Represents(p, gs) && Represents(q, gs) && p.Keys == q.Keys
    ensures p == q
  {
    forall a | a in p ensures p[a] == q[a] {
      RootIsLeast(p, gs, a);
      RootIsLeast(q, gs, a);
    }
  }

  /** Every repository alone in its own group. */
  function Singletons(repositories: set<Name>): Parents {
    map r | r in repositories :: r
  }

  lemma {:induction false} NoLongChainUnderNone(p: seq<Name>)
    requires |p| > 1
    ensures !Chain(NoGroup, p)
  {
    assert !Linked(NoGroup, p[0], p[0 + 1]);
  }

  lemma {:induction false} IdentityRepresents(parent: Parents)
    requires forall r :: r in parent ==> parent[r] == r
    ensures Represents(parent, NoGroup)
  {
    forall a ensures FlatAt(parent, a) {
    }
    forall a, b ensures SameRootAt(parent, NoGroup, a, b) {
      if a == b { ConnectedRefl(NoGroup, a); }
      if Connected(NoGroup, a, b) {
        var p :| ChainBetween(NoGroup, p, a, b);
        if |p| > 1 { NoLongChainUnderNone(p); }
      }
    }
  }

  ghost function Roots(parent: Parents, group: set<Name>): set<Name>
    requires group <= parent.Keys
  {
    if group == {} then {} else
      var r := Least(group);
      Roots(parent, group - {r}) + {parent[r]}
  }

  lemma {:induction false} InRoots(parent: Parents, group: set<Name>)
    requires group <= parent.Keys
    ensures forall y :: y in Roots(parent, group) ==> exists r :: r in group && parent[r] == y
    ensures forall r :: r in group ==> parent[r] in Roots(parent, group)
  {
    if group != {} {
      InRoots(parent, group - {Least(group)});
    }
  }

  lemma {:induction false} RootsOfMore(parent: Parents, group: set<Name>, x: Name)
    requires group <= parent.Keys && x in parent
    ensures Roots(parent, group + {x}) == Roots(parent, group) + {parent[x]}
  {
    InRoots(parent, group);
    InRoots(parent, group + {x});
  }

  /** One union: the roots of the group's members all become their least. */
  ghost function Merge(parent: Parents, group: set<Name>): (merged: Parents)
    requires group <= parent.Keys
    ensures merged.Keys == parent.Keys
  {
    var roots := Roots(parent, group);
    if roots == {} then parent else Redirect(parent, roots, Least(roots))
  }

  lemma {:induction false} MergeFlat(parent: Parents, group: set<Name>)
    requires Flat(parent) && group <= parent.Keys
    ensures Flat(Merge(parent, group))
  {
    var roots, merged := Roots(parent, group), Merge(parent, group);
    InRoots(parent, group);
    if roots != {} {
      var least := Least(roots);
      var s :| s in group && parent[s] == least;
      assert FlatAt(parent, s);
      forall a ensures FlatAt(merged, a) {
        assert FlatAt(parent, a);
      }
    }
  }

  /** A chain that may also use the new group never leaves a merged component. */
  lemma {:induction false} ChainStays(parent: Parents, gs: Groups, group: set<Name>, p: seq<Name>, a: Name, b: Name)
    requires Represents(parent, gs) && group <= parent.Keys
    requires ChainBetween(Plus(gs, group), p, a, b) && a in parent
    ensures b in parent && Merge(parent, group)[a] == Merge(parent, group)[b]
    decreases |p|
  {
    if |p| > 1 {
      var more, c := Plus(gs, group), p[1];
      assert Linked(more, p[0], p[0 + 1]);
      LinkStays(parent, gs, group, a, c);
      assert ChainBetween(more, p[1..], c, b) by {
        forall i | 0 <= i < |p[1..]| - 1 ensures Linked(more, p[1..][i], p[1..][i + 1]) {
          assert Linked(more, p[i + 1], p[i + 1 + 1]);
        }
      }
      ChainStays(parent, gs, group, p[1..], c, b);
    }
  }

  lemma {:induction false} LinkStays(parent: Parents, gs: Groups, group: set<Name>, a: Name, c: Name)
    requires Represents(parent, gs) && group <= parent.Keys
    requires Linked(Plus(gs, group), a, c) && a in parent
    ensures c in parent && Merge(parent, group)[a] == Merge(parent, group)[c]
  {
    if a in group && c in group {
      InRoots(parent, group);
    } else {
      LinkedWithin(gs, parent.Keys, a, c);
      ConnectedLink(gs, a, c);
      assert SameRootAt(parent, gs, a, c);
    }
  }

  /** Repositories merged by the new group are connected through it. */
  lemma {:induction false} MergedConnected(parent: Parents, gs: Groups, group: set<Name>, a: Name, b: Name)
    requires Represents(parent, gs) && group <= parent.Keys
    requires a in parent && b in parent && Merge(parent, group)[a] == Merge(parent, group)[b]
    ensures Connected(Plus(gs, group), a, b)
  {
    var more := Plus(gs, group);
    if parent[a] == parent[b] {
      assert SameRootAt(parent, gs, a, b);
      ConnectedMono(gs, more, a, b);
    } else {
      InRoots(parent, group);
      assert parent[a] in Roots(parent, group) && parent[b] in Roots(parent, group);
      var s :| s in group && parent[s] == parent[a];
      var t :| t in group && parent[t] == parent[b];
      assert SameRootAt(parent, gs, a, s) && SameRootAt(parent, gs, t, b);
      ConnectedMono(gs, more, a, s);
      ConnectedLink(more, s, t);
      ConnectedMono(gs, more, t, b);
      ConnectedTrans(more, a, s, t);
      ConnectedTrans(more, a, t, b);
    }
  }

  lemma {:induction false} MergeRepresents(parent: Parents, gs: Groups, group: set<Name>)
    requires Represents(parent, gs) && group <= parent.Keys
    ensures Represents(Merge(parent, group), Plus(gs, group))
  {
    MergeFlat(parent, group);
    var merged := Merge(parent, group);
    forall a, b ensures SameRootAt(merged, Plus(gs, group), a, b) {
      if a in merged && b in merged {
        if merged[a] == merged[b] { MergedConnected(parent, gs, group, a, b); }
        if Connected(Plus(gs, group), a, b) {
          var p :| ChainBetween(Plus(gs, group), p, a, b);
          ChainStays(parent, gs, group, p, a, b);
        }
      }
    }
  }

  // _find_root on any ordered table: the walk to the root and the path compression.

  ghost function Root(parent: Parents, x: Name): Name
    requires Ordered(parent) && x in parent
    decreases x
  {
    assert OrderedAt(parent, x);
    if parent[x] == x then x else Root(parent, parent[x])
  }

  /** The names from x up to, and without, its root. */
  ghost function Walk(parent: Parents, x: Name): set<Name>
    requires Ordered(parent) && x in parent
    decreases x
  {
    assert OrderedAt(parent, x);
    if parent[x] == x then {} else {x} + Walk(parent, parent[x])
  }

  ghost function Repoint(parent: Parents, root: Name, xs: set<Name>): Parents {
    map x | x in parent :: if x in xs then root else parent[x]
  }

  ghost function Compressed(parent: Parents, x: Name): Parents
    requires Ordered(parent) && x in parent
  {
    Repoint(parent, Root(parent, x), Walk(parent, x))
  }

  lemma {:induction false} RepointNone(parent: Parents, root: Name)
    ensures Repoint(parent, root, {}) == parent
  {
  }

  lemma {:induction false} RepointStep(parent: Parents, root: Name, xs: set<Name>, x: Name)
    requires x in parent
    ensures Repoint(parent, root, xs)[x := root] == Repoint(parent, root, xs + {x})
  {
  }

  lemma {:induction false} RootFacts(parent: Parents, x: Name)
    requires Ordered(parent) && x in parent
    ensures Root(parent, x) in parent && parent[Root(parent, x)] == Root(parent, x) && Root(parent, x) <= x
    decreases x
  {
    assert OrderedAt(parent, x);
    if parent[x] != x { RootFacts(parent, parent[x]); }
  }

  lemma {:induction false} WalkFacts(parent: Parents, x: Name)
    requires Ordered(parent) && x in parent
    ensures forall z :: z in Walk(parent, x) ==>
              z in parent && Root(parent, z) == Root(parent, x) && Root(parent, x) <= z
    decreases x
  {
    assert OrderedAt(parent, x);
    if parent[x] != x {
      RootFacts(parent, x);
      WalkFacts(parent, parent[x]);
    }
  }

  /** In a flat table the walk has at most one step and compression changes nothing. */
  lemma {:induction false} FlatCompressed(parent: Parents, x: Name)
    requires Flat(parent) && x in parent
    ensures Ordered(parent) && Root(parent, x) == parent[x] && Compressed(parent, x) == parent
  {
    forall y ensures OrderedAt(parent, y) {
      assert FlatAt(parent, y);
    }
    assert FlatAt(parent, x);
    assert Root(parent, parent[x]) == parent[x];
    assert Walk(parent, parent[x]) == {};
  }

  /** Path compression never changes which root a name has. */
  lemma {:induction false} CompressedKeepsRoots(parent: Parents, x: Name, y: Name)
    requires Ordered(parent) && x in parent && y in parent
    ensures Ordered(Compressed(parent, x)) && Root(Compressed(parent, x), y) == Root(parent, y)
  {
    RootFacts(parent, x);
    WalkFacts(parent, x);
    var after := Repoint(parent, Root(parent, x), Walk(parent, x));
    assert after == Compressed(parent, x);
    forall z ensures OrderedAt(after, z) {
      assert OrderedAt(parent, z);
    }
    assert Ordered(after);
    RepointKeepsRoot(parent, Root(parent, x), Walk(parent, x), y);
  }

  lemma {:induction false} RepointKeepsRoot(parent: Parents, root: Name, path: set<Name>, y: Name)
    requires Ordered(parent) && Ordered(Repoint(parent, root, path))
    requires root in parent && parent[root] == root && y in parent
    requires forall z :: z in path ==> z in parent && Root(parent, z) == root
    ensures Root(Repoint(parent, root, path), y) == Root(parent, y)
    decreases y
  {
    assert OrderedAt(parent, y);
    var after := Repoint(parent, root, path);
    assert Root(after, root) == root;
    if y !in path && parent[y] != y {
      RepointKeepsRoot(parent, root, path, parent[y]);
    }
  }

  // One union, root by root.

  function Redirect(parent: Parents, xs: set<Name>, root: Name): Parents {
    map r | r in parent :: if parent[r] in xs then root else parent[r]
  }

  lemma {:induction false} RedirectNone(parent: Parents, root: Name)
    ensures Redirect(parent, {}, root) == parent
  {
  }

  lemma {:induction false} RedirectStep(parent: Parents, xs: set<Name>, root: Name, child: Name)
    requires root != child
    ensures Redirect(Redirect(parent, xs, root), {child}, root) == Redirect(parent, xs + {child}, root)
  {
  }

  lemma {:induction false} RedirectMerges(parent: Parents, group: set<Name>)
    requires group <= parent.Keys && Roots(parent, group) != {}
    ensures var roots := Roots(parent, group);
            Redirect(parent, roots - {Least(roots)}, Least(roots)) == Merge(parent, group)
  {
  }

  lemma {:induction false} AtMostOneRoot(parent: Parents, group: set<Name>)
    requires group <= parent.Keys && |Roots(parent, group)| < 2
    ensures Merge(parent, group) == parent
  {
    var roots := Roots(parent, group);
    if roots != {} {
      var root := Least(roots);
      assert |roots - {root}| == 0;
      assert roots == {root};
    }
  }
}
