/** Sizes of finite sets of numbers. */
module Sizes {

  lemma {:induction false} OneElement(s: set<nat>)
    ensures |s| <= 1 <==> forall x, y :: x in s && y in s ==> x == y
  {
    if s != {} {
      var x :| x in s;
      assert s == {x} + (s - {x});
      if |s| > 1 {
        assert |s - {x}| > 0;
        var y :| y in s - {x};
        assert y in s && x != y;
      } else {
        assert |s - {x}| == 0;
        assert s == {x};
      }
    }
  }

  lemma {:induction false} SubsetSize(a: set<nat>, b: set<nat>)
    requires a <= b
    ensures |a| <= |b| && (|a| == |b| <==> a == b)
  {
    assert b == a + (b - a);
    if |a| == |b| { assert b - a == {}; }
  }

  lemma {:induction false} DisjointSizes(all: set<nat>, a: set<nat>, b: set<nat>)
    requires forall k :: (k in all <==> k in a || k in b) && !(k in a && k in b)
    ensures |all| == |a| + |b|
  {
    assert all == a + b && a !! b;
  }

  lemma {:induction false} TwoMore(a: set<nat>, b: set<nat>, j: nat, k: nat)
    requires a <= b && j in b && k in b && j !in a && k !in a && j != k
    ensures |a| + 2 <= |b|
  {
    SubsetSize(a + {j, k}, b);
  }

  /** f maps a into b without repeating a value. */
  lemma {:induction false} Injection(a: set<nat>, b: set<nat>, f: nat -> nat)
    requires forall x :: x in a ==> f(x) in b
    requires forall x, y :: x in a && y in a && f(x) == f(y) ==> x == y
    ensures |a| <= |b|
  {
    if a != {} {
      var x :| x in a;
      Injection(a - {x}, b - {f(x)}, f);
    }
  }

  function Range(n: nat): (range: set<nat>)
    ensures |range| == n && forall k :: k in range <==> 0 <= k < n
  {
    if n == 0 then {} else Range(n - 1) + {n - 1}
  }

  lemma {:induction false} Removed<V>(m: map<nat, V>, i: nat)
    ensures |m - {i}| == |m| - if i in m then 1 else 0
  {
    if i in m {
      assert (m - {i}).Keys == m.Keys - {i};
    } else {
      assert m - {i} == m;
    }
  }

  lemma {:induction false} Grown<V>(a: map<nat, V>, b: map<nat, V>, added: set<nat>)
    requires forall k: nat :: k in b <==> k in a || k in added
    requires forall k :: k in added ==> k !in a
    ensures |b| == |a| + |added|
  {
    assert b.Keys == a.Keys + added;
    assert a.Keys !! added;
  }
}
