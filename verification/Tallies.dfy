/** Counting rows that meet a condition, and why the order of the rows does not matter. */
module Tallies {

  function Tally<T>(rows: seq<T>, n: nat, p: T -> bool): (count: nat)
    requires n <= |rows|
    ensures count <= n
  {
    if n == 0 then 0 else Tally(rows, n - 1, p) + if p(rows[n - 1]) then 1 else 0
  }

  function IndicesOf<T>(rows: seq<T>, n: nat, p: T -> bool): set<nat>
    requires n <= |rows|
  {
    set k | 0 <= k < n && p(rows[k])
  }

  lemma {:induction false} TallyIsSize<T>(rows: seq<T>, n: nat, p: T -> bool)
    requires n <= |rows|
    ensures |IndicesOf(rows, n, p)| == Tally(rows, n, p)
  {
    if n > 0 {
      TallyIsSize(rows, n - 1, p);
      if p(rows[n - 1]) {
        assert IndicesOf(rows, n, p) == IndicesOf(rows, n - 1, p) + {n - 1};
      } else {
        assert IndicesOf(rows, n, p) == IndicesOf(rows, n - 1, p);
      }
    }
  }

  function Without<T>(rows: seq<T>, j: nat): (rest: seq<T>)
    requires j < |rows|
    ensures |rest| == |rows| - 1
    ensures forall k :: 0 <= k < |rest| ==> rest[k] == if k < j then rows[k] else rows[k + 1]
  {
    rows[..j] + rows[j + 1..]
  }

  lemma {:induction false} TallyWithout<T>(rows: seq<T>, j: nat, n: nat, p: T -> bool)
    requires j < |rows| && n < |rows|
    ensures Tally(Without(rows, j), n, p) ==
              if n <= j then Tally(rows, n, p) else Tally(rows, n + 1, p) - if p(rows[j]) then 1 else 0
  {
    if n > 0 {
      TallyWithout(rows, j, n - 1, p);
    }
  }

  function Removed<T>(m: multiset<T>, x: T): multiset<T> {
    m - multiset{x}
  }

  lemma {:induction false} WithoutLess<T>(rows: seq<T>, j: nat)
    requires j < |rows|
    ensures multiset(Without(rows, j)) == Removed(multiset(rows), rows[j])
  {
    assert rows == rows[..j] + [rows[j]] + rows[j + 1..];
  }

  lemma {:induction false} Find<T>(m: multiset<T>, b: seq<T>, x: T) returns (j: nat)
    requires m == multiset(b) && x in m
    ensures j < |b| && b[j] == x
  {
    j :| j < |b| && b[j] == x;
  }

  /** The last of a, somewhere in b, and both rows without it. */
  lemma {:induction false} SameWithout<T>(a: seq<T>, b: seq<T>, m: multiset<T>) returns (j: nat)
    requires m == multiset(a) && m == multiset(b) && a != []
    ensures j < |b| && b[j] == a[|a| - 1]
    ensures multiset(Without(a, |a| - 1)) == multiset(Without(b, j))
  {
    assert a[|a| - 1] in m;
    j := Find(m, b, a[|a| - 1]);
    WithoutLess(a, |a| - 1);
    WithoutLess(b, j);
  }

  /** Reordering rows changes no count. */
  lemma {:induction false} TallyReordered<T>(a: seq<T>, b: seq<T>, p: T -> bool)
    requires multiset(a) == multiset(b)
    ensures |a| == |b| && Tally(a, |a|, p) == Tally(b, |b|, p)
    decreases |a|
  {
    assert |multiset(a)| == |a| && |multiset(b)| == |b|;
    if a != [] {
      var j := SameWithout(a, b, multiset(a));
      TallyReordered(Without(a, |a| - 1), Without(b, j), p);
      TallyWithout(a, |a| - 1, |a| - 1, p);
      TallyWithout(b, j, |a| - 1, p);
    }
  }

  /** Counting agrees when the conditions do. */
  lemma {:induction false} TallySame<T>(rows: seq<T>, n: nat, p: T -> bool, q: T -> bool)
    requires n <= |rows| && forall k :: 0 <= k < n ==> p(rows[k]) == q(rows[k])
    ensures Tally(rows, n, p) == Tally(rows, n, q)
  {
    if n > 0 {
      TallySame(rows, n - 1, p, q);
    }
  }
}
