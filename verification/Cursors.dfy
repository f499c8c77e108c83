/** Ordered reads of a table column: a cursor with an ORDER BY clause is a strictly increasing sequence. */
module Cursors {

  /** Repository names, fingerprints, digests and keys. The program only tests them for
      equality and compares them in code-point order, so a total order is all that is kept. */
  type Name = nat

  predicate IsLeast(s: set<Name>, m: Name) {
    m in s && forall y :: y in s ==> m <= y
  }

  lemma {:induction false} LeastExists(s: set<Name>)
    requires s != {}
    ensures exists m :: IsLeast(s, m)
  {
    var x :| x in s;
    var rest := s - {x};
    if rest == {} {
      assert s == {x};
      assert IsLeast(s, x);
    } else {
      LeastExists(rest);
      var m :| IsLeast(rest, m);
      var least := if x <= m then x else m;
      forall y | y in s ensures least <= y {
        if y != x { assert y in rest; }
      }
      assert IsLeast(s, least);
    }
  }

  function Least(s: set<Name>): (m: Name)
    requires s != {}
    ensures IsLeast(s, m)
  {
    LeastExists(s);
    var m :| IsLeast(s, m);
    m
  }

  predicate IsGreatest(s: set<Name>, m: Name) {
    m in s && forall y :: y in s ==> y <= m
  }

  lemma {:induction false} GreatestExists(s: set<Name>)
    requires s != {}
    ensures exists m :: IsGreatest(s, m)
  {
    var m := Least(s);
    var rest := s - {m};
    if rest == {} {
      assert s == {m} && IsGreatest(s, m);
    } else {
      GreatestExists(rest);
      var g :| IsGreatest(rest, g);
      assert forall y :: y in s ==> y == m || y in rest;
      assert IsGreatest(s, g);
    }
  }

  function Greatest(s: set<Name>): (m: Name)
    requires s != {}
    ensures IsGreatest(s, m)
  {
    GreatestExists(s);
    var m :| IsGreatest(s, m);
    m
  }

  ghost predicate StrictlyIncreasing(q: seq<Name>) {
    forall i, j :: 0 <= i < j < |q| ==> q[i] < q[j]
  }

  /** The rows a cursor yields for the distinct values s in ascending order. */
  function Ascending(s: set<Name>): (q: seq<Name>)
    ensures StrictlyIncreasing(q)
    ensures forall x :: x in q <==> x in s
    ensures |q| == |s|
  {
    if s == {} then [] else
      var m := Least(s);
      [m] + Ascending(s - {m})
  }

  /** SELECT ... ORDER BY: the rows of s, in ascending order. */
  method OrderBy(s: set<Name>) returns (rows: seq<Name>)
    ensures StrictlyIncreasing(rows) && Elements(rows) == s && |rows| == |s|
  {
    rows := Ascending(s);
  }

  function Elements(q: seq<Name>): set<Name> {
    set x | x in q
  }

  lemma {:induction false} ElementsStep(q: seq<Name>, i: nat)
    requires i < |q|
    ensures Elements(q[..i + 1]) == Elements(q[..i]) + {q[i]}
  {
    assert q[..i + 1] == q[..i] + [q[i]];
  }

  lemma {:induction false} AllElements(q: seq<Name>)
    ensures Elements(q[..0]) == {} && Elements(q[..|q|]) == Elements(q)
  {
    assert q[..|q|] == q;
  }

  lemma {:induction false} NewElement(q: seq<Name>, i: nat)
    requires StrictlyIncreasing(q) && i < |q|
    ensures q[i] in Elements(q) && q[i] !in Elements(q[..i])
  {
  }

  /** Distinct values in ascending order are one sequence only, whatever order they were met in. */
  lemma {:induction false} AscendingUnique(p: seq<Name>, q: seq<Name>)
    requires StrictlyIncreasing(p) && StrictlyIncreasing(q)
    requires forall x :: x in p <==> x in q
    ensures p == q
  {
    assert p != [] ==> p[0] in p;
    assert q != [] ==> q[0] in q;
    if p != [] && q != [] {
      assert p[0] in p && q[0] in q;
      assert p[0] == q[0];
      forall x ensures x in p[1..] <==> x in q[1..] {
        if x in p[1..] { assert x in p && x != p[0]; }
        if x in q[1..] { assert x in q && x != q[0]; }
      }
      AscendingUnique(p[1..], q[1..]);
      assert p == [p[0]] + p[1..] && q == [q[0]] + q[1..];
    }
  }
}
