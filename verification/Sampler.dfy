/** The bounded distribution: the largest samples of a stream, and exact percentiles while nothing was dropped. */
module Sampler {
  import opened Wrappers
  import opened Tallies

  /** The heap entry (-score, value), compared as a pair. */
  datatype Sample = Sample(key: int, value: int)

  predicate AtMost(a: Sample, b: Sample) {
    a.key < b.key || (a.key == b.key && a.value <= b.value)
  }

  ghost predicate Sorted(s: seq<Sample>) {
    forall i, j :: 0 <= i < j < |s| ==> AtMost(s[i], s[j])
  }

  /** heappush on a heap kept in order: its least entry stays at index 0. */
  function Push(s: seq<Sample>, x: Sample): seq<Sample> {
    if s == [] then [x]
    else if AtMost(s[|s| - 1], x) then s + [x]
    else Push(s[..|s| - 1], x) + [s[|s| - 1]]
  }

  lemma {:induction false} PushKeeps(s: seq<Sample>, x: Sample)
    ensures multiset(Push(s, x)) == multiset(s) + multiset{x} && |Push(s, x)| == |s| + 1
  {
    if s != [] {
      assert s == s[..|s| - 1] + [s[|s| - 1]];
      if !AtMost(s[|s| - 1], x) { PushKeeps(s[..|s| - 1], x); }
    }
  }

  lemma {:induction false} PushSorts(s: seq<Sample>, x: Sample)
    requires Sorted(s)
    ensures Sorted(Push(s, x))
  {
    if s != [] && !AtMost(s[|s| - 1], x) {
      var front, last := s[..|s| - 1], s[|s| - 1];
      PushSorts(front, x);
      PushKeeps(front, x);
      var r := Push(front, x);
      forall i | 0 <= i < |r| ensures AtMost(r[i], last) {
        assert r[i] in multiset(r);
        if r[i] != x {
          assert r[i] in multiset(front);
          var k :| 0 <= k < |front| && front[k] == r[i];
          assert AtMost(s[k], s[|s| - 1]);
        }
      }
    }
  }

  /** kept is the multiset of the cap largest among all. */
  ghost predicate Largest(kept: multiset<Sample>, all: multiset<Sample>, cap: nat) {
    && kept <= all && |kept| == (if |all| < cap then |all| else cap)
    && forall x, y :: x in kept && y in all - kept ==> AtMost(y, x)
  }

  /** No entry that is dropped has a larger key than one that is kept, nor the same key and a larger value. */
  lemma {:induction false} LargestByKey(kept: multiset<Sample>, all: multiset<Sample>, cap: nat)
    requires Largest(kept, all, cap)
    ensures forall x, y :: x in kept && y in all - kept ==> y.key < x.key || (y.key == x.key && y.value <= x.value)
  {
    forall x, y | x in kept && y in all - kept ensures y.key < x.key || (y.key == x.key && y.value <= x.value) {
      assert AtMost(y, x);
    }
  }

  lemma {:induction false} SameSize(a: multiset<Sample>, b: multiset<Sample>)
    requires a <= b && |a| == |b|
    ensures a == b
  {
    assert b == a + (b - a);
  }

  /** The largest cap entries are one multiset only, so the order of arrival cannot matter. */
  lemma {:induction false} LargestIsUnique(a: multiset<Sample>, b: multiset<Sample>, all: multiset<Sample>, cap: nat)
    requires Largest(a, all, cap) && Largest(b, all, cap)
    ensures a == b
  {
    if a <= b {
      SameSize(a, b);
    } else {
      var x :| a[x] > b[x];
      assert x in all - b;
      forall y ensures b[y] <= a[y] {
        if y in b && y in all - a { assert y == x; }
      }
      assert b <= a;
      SameSize(b, a);
    }
  }

  /** While there is room, everything is kept. */
  lemma {:induction false} RoomLeft(kept: multiset<Sample>, all: multiset<Sample>, cap: nat, x: Sample)
    requires Largest(kept, all, cap) && |kept| < cap
    ensures kept == all && Largest(kept + multiset{x}, all + multiset{x}, cap)
  {
    SameSize(kept, all);
  }

  /** An entry no larger than the least one kept changes nothing. */
  lemma {:induction false} TooSmall(kept: multiset<Sample>, all: multiset<Sample>, cap: nat, least: Sample, x: Sample)
    requires Largest(kept, all, cap) && |kept| == cap && least in kept && AtMost(x, least)
    requires forall k :: k in kept ==> AtMost(least, k)
    ensures Largest(kept, all + multiset{x}, cap)
  {
    forall k, y | k in kept && y in all + multiset{x} - kept ensures AtMost(y, k) {
      assert y == x || y in all - kept;
    }
  }

  /** A larger entry takes the place of the least one kept. */
  lemma {:induction false} Replaces(kept: multiset<Sample>, all: multiset<Sample>, cap: nat, least: Sample, x: Sample)
    requires Largest(kept, all, cap) && |kept| == cap && least in kept && !AtMost(x, least)
    requires forall k :: k in kept ==> AtMost(least, k)
    ensures Largest(kept - multiset{least} + multiset{x}, all + multiset{x}, cap)
  {
    var more := kept - multiset{least} + multiset{x};
    assert |kept - multiset{least}| == cap - 1;
    forall k, y | k in more && y in all + multiset{x} - more ensures AtMost(y, k) {
      assert k == x || k in kept;
      assert y == least || y in all - kept;
    }
  }

  // Values and percentiles.

  function Values(s: seq<Sample>): (values: seq<int>)
    ensures |values| == |s| && forall i :: 0 <= i < |s| ==> values[i] == s[i].value
  {
    seq(|s|, i requires 0 <= i < |s| => s[i].value)
  }

  lemma {:induction false} ValuesReordered(a: seq<Sample>, b: seq<Sample>)
    requires multiset(a) == multiset(b)
    ensures multiset(Values(a)) == multiset(Values(b))
    decreases |a|
  {
    if a == [] {
      assert |multiset(b)| == |b|;
      assert b == [] && Values(a) == Values(b);
    } else {
      var j := SameWithout(a, b, multiset(a));
      var i := |a| - 1;
      ValuesReordered(Without(a, i), Without(b, j));
      ValuesWithout(a, i, multiset(Values(Without(a, i))));
      ValuesWithout(b, j, multiset(Values(Without(a, i))));
    }
  }

  lemma {:induction false} ValuesWithout(s: seq<Sample>, j: nat, rest: multiset<int>)
    requires j < |s| && rest == multiset(Values(Without(s, j)))
    ensures multiset(Values(s)) == rest + multiset{s[j].value}
  {
    WithoutLess(Values(s), j);
    assert Values(Without(s, j)) == Without(Values(s), j);
    assert Values(s)[j] in multiset(Values(s));
  }

  ghost predicate Ascends(s: seq<int>) {
    forall i, j :: 0 <= i < j < |s| ==> s[i] <= s[j]
  }

  function Place(s: seq<int>, x: int): seq<int> {
    if s == [] then [x]
    else if s[|s| - 1] <= x then s + [x]
    else Place(s[..|s| - 1], x) + [s[|s| - 1]]
  }

  lemma {:induction false} PlaceKeeps(s: seq<int>, x: int)
    ensures multiset(Place(s, x)) == multiset(s) + multiset{x} && |Place(s, x)| == |s| + 1
  {
    if s != [] {
      assert s == s[..|s| - 1] + [s[|s| - 1]];
      if !(s[|s| - 1] <= x) { PlaceKeeps(s[..|s| - 1], x); }
    }
  }

  lemma {:induction false} PlaceSorts(s: seq<int>, x: int)
    requires Ascends(s)
    ensures Ascends(Place(s, x))
  {
    if s != [] && !(s[|s| - 1] <= x) {
      var front, last := s[..|s| - 1], s[|s| - 1];
      PlaceSorts(front, x);
      PlaceKeeps(front, x);
      var r := Place(front, x);
      forall i | 0 <= i < |r| ensures r[i] <= last {
        assert r[i] in multiset(r);
        if r[i] != x {
          assert r[i] in multiset(front);
          var k :| 0 <= k < |front| && front[k] == r[i];
          assert s[k] <= s[|s| - 1];
        }
      }
    }
  }

  /** sorted(values) */
  method Sort(values: seq<int>) returns (ordered: seq<int>)
    ensures Ascends(ordered) && multiset(ordered) == multiset(values) && |ordered| == |values|
  {
    ordered := [];
    for n := 0 to |values|
      invariant Ascends(ordered) && multiset(ordered) == multiset(values[..n]) && |ordered| == n
    {
      PlaceKeeps(ordered, values[n]);
      PlaceSorts(ordered, values[n]);
      assert values[..n + 1] == values[..n] + [values[n]];
      ordered := Place(ordered, values[n]);
    }
    assert values[..|values|] == values;
  }

  function UpTo(v: int): int -> bool {
    x => x <= v
  }

  function Below(v: int): int -> bool {
    x => x < v
  }

  /** v is the nearest-rank percentile: the values up to v are at least scaled/20 many, those below v fewer. */
  ghost predicate IsPercentile(values: seq<int>, v: int, scaled: nat) {
    && 20 * Tally(values, |values|, UpTo(v)) >= scaled
    && 20 * Tally(values, |values|, Below(v)) < scaled
  }

  lemma {:induction false} RankCounts(ordered: seq<int>, index: nat, n: nat)
    requires Ascends(ordered) && index < |ordered| && n <= |ordered|
    ensures Tally(ordered, n, UpTo(ordered[index])) >= if n <= index then n else index + 1
    ensures Tally(ordered, n, Below(ordered[index])) <= index
  {
    if n > 0 { RankCounts(ordered, index, n - 1); }
  }

  /** _nearest_rank for the percentile scaled/20/len: math.ceil(p * len) - 1, not below 0. */
  method NearestRank(ordered: seq<int>, scaled: nat) returns (v: Option<int>)
    requires Ascends(ordered) && (ordered != [] ==> 0 < scaled <= 20 * |ordered|)
    ensures v.None? <==> ordered == []
    ensures v.Some? ==> v.value in ordered && IsPercentile(ordered, v.value, scaled)
  {
    if ordered == [] { return None; }
    var ceiling := (scaled + 19) / 20;
    var index := if ceiling - 1 > 0 then ceiling - 1 else 0;
    RankCounts(ordered, index, |ordered|);
    v := Some(ordered[index]);
  }

  datatype Summary = Summary(count: nat, min: Option<int>, p50: Option<int>, p95: Option<int>, max: Option<int>)

  predicate IsMin(values: seq<int>, v: Option<int>) {
    match v
    case None => values == []
    case Some(x) => x in values && forall y :: y in values ==> x <= y
  }

  predicate IsMax(values: seq<int>, v: Option<int>) {
    match v
    case None => values == []
    case Some(x) => x in values && forall y :: y in values ==> y <= x
  }

  class Distribution {
    const cap: nat
    var count: nat
    var minimum: Option<int>
    var maximum: Option<int>
    var samples: seq<Sample>
    ghost var added: seq<Sample>

    constructor (cap: nat)
      requires cap > 0
      ensures this.cap == cap && Valid() && added == []
    {
      this.cap := cap;
      count, minimum, maximum, samples, added := 0, None, None, [], [];
    }

    /** samples are the cap largest of everything added; count, minimum and maximum are exact. */
    ghost predicate Valid()
      reads this
    {
      && cap > 0 && count == |added| && Sorted(samples)
      && Largest(multiset(samples), multiset(added), cap)
      && IsMin(Values(added), minimum) && IsMax(Values(added), maximum)
    }

    method Add(value: int, key: int)
      requires Valid()
      modifies this
      ensures Valid() && added == old(added) + [Sample(key, value)]
    {
      var item := Sample(key, value);
      count := count + 1;
      minimum := Some(if minimum.None? || value < minimum.value then value else minimum.value);
      maximum := Some(if maximum.None? || value > maximum.value then value else maximum.value);
      samples := Offered(samples, multiset(added), cap, item);
      OneMore(added, item, old(minimum), old(maximum));
      added := added + [item];
    }

    /** approximate */
    method Approximate() returns (approximate: bool)
      requires Valid()
      ensures approximate <==> |added| > cap
    {
      assert |multiset(added)| == |added|;
      approximate := count > |samples|;
    }

    /** summary: while nothing was dropped, both percentiles are the exact ones of all values added. */
    method Summarize() returns (summary: Summary)
      requires Valid()
      ensures summary.count == |added| && IsMin(Values(added), summary.min) && IsMax(Values(added), summary.max)
      ensures |added| <= cap ==> (summary.p50.Some? <==> added != []) && (summary.p95.Some? <==> added != [])
      ensures |added| <= cap && added != [] ==> IsPercentile(Values(added), summary.p50.value, 10 * |added|)
      ensures |added| <= cap && added != [] ==> IsPercentile(Values(added), summary.p95.value, 19 * |added|)
    {
      var ordered := Sort(Values(samples));
      var p50 := NearestRank(ordered, 10 * |ordered|);
      var p95 := NearestRank(ordered, 19 * |ordered|);
      summary := Summary(count, minimum, p50, p95, maximum);
      if |added| <= cap {
        NothingDropped(samples, added, cap);
        if added != [] {
          SamePercentile(ordered, Values(added), p50.value, 10 * |ordered|);
          SamePercentile(ordered, Values(added), p95.value, 19 * |ordered|);
        }
      }
    }
  }

  lemma {:induction false} OneMore(added: seq<Sample>, item: Sample, minimum: Option<int>, maximum: Option<int>)
    requires IsMin(Values(added), minimum) && IsMax(Values(added), maximum)
    ensures multiset(added + [item]) == multiset(added) + multiset{item}
    ensures IsMin(Values(added + [item]),
            Some(if minimum.None? || item.value < minimum.value then item.value else minimum.value))
    ensures IsMax(Values(added + [item]),
            Some(if maximum.None? || item.value > maximum.value then item.value else maximum.value))
  {
    assert Values(added + [item]) == Values(added) + [item.value];
  }

  /** The heap step of add. */
  method Offered(samples: seq<Sample>, ghost all: multiset<Sample>, cap: nat, item: Sample) returns (kept: seq<Sample>)
    requires cap > 0 && Sorted(samples) && Largest(multiset(samples), all, cap)
    ensures Sorted(kept) && Largest(multiset(kept), all + multiset{item}, cap)
  {
    if |samples| < cap {
      PushStep(samples, all, cap, item);
      kept := Push(samples, item);
    } else if !AtMost(item, samples[0]) {
      ReplaceStep(samples, all, cap, item);
      kept := Push(samples[1..], item);
    } else {
      KeepStep(samples, all, cap, item);
      kept := samples;
    }
  }

  lemma {:induction false} PushStep(samples: seq<Sample>, all: multiset<Sample>, cap: nat, item: Sample)
    requires Sorted(samples) && Largest(multiset(samples), all, cap) && |samples| < cap
    ensures Sorted(Push(samples, item)) && Largest(multiset(Push(samples, item)), all + multiset{item}, cap)
  {
    RoomLeft(multiset(samples), all, cap, item);
    PushKeeps(samples, item);
    PushSorts(samples, item);
  }

  lemma {:induction false} ReplaceStep(samples: seq<Sample>, all: multiset<Sample>, cap: nat, item: Sample)
    requires Sorted(samples) && Largest(multiset(samples), all, cap) && |samples| >= cap > 0
             && !AtMost(item, samples[0])
    ensures Sorted(Push(samples[1..], item)) && Largest(multiset(Push(samples[1..], item)), all + multiset{item}, cap)
  {
    var rest := samples[1..];
    LeastFirst(samples);
    Replaces(multiset(samples), all, cap, samples[0], item);
    FirstDropped(samples);
    PushKeeps(rest, item);
    PushSorts(rest, item);
  }

  lemma {:induction false} FirstDropped(s: seq<Sample>)
    requires s != []
    ensures multiset(s[1..]) == multiset(s) - multiset{s[0]}
  {
    assert s == [s[0]] + s[1..];
  }

  lemma {:induction false} KeepStep(samples: seq<Sample>, all: multiset<Sample>, cap: nat, item: Sample)
    requires Sorted(samples) && Largest(multiset(samples), all, cap) && |samples| >= cap > 0 && AtMost(item, samples[0])
    ensures Largest(multiset(samples), all + multiset{item}, cap)
  {
    LeastFirst(samples);
    TooSmall(multiset(samples), all, cap, samples[0], item);
  }

  lemma {:induction false} LeastFirst(s: seq<Sample>)
    requires Sorted(s) && s != []
    ensures s[0] in multiset(s) && forall k :: k in multiset(s) ==> AtMost(s[0], k)
  {
    forall k | k in multiset(s) ensures AtMost(s[0], k) {
      var i :| 0 <= i < |s| && s[i] == k;
    }
  }

  lemma {:induction false} NothingDropped(samples: seq<Sample>, added: seq<Sample>, cap: nat)
    requires Largest(multiset(samples), multiset(added), cap) && |added| <= cap
    ensures multiset(Values(samples)) == multiset(Values(added)) && |samples| == |added|
  {
    assert |multiset(samples)| == |samples| && |multiset(added)| == |added|;
    SameSize(multiset(samples), multiset(added));
    ValuesReordered(samples, added);
  }

  lemma {:induction false} SamePercentile(a: seq<int>, b: seq<int>, v: int, scaled: nat)
    requires multiset(a) == multiset(b) && IsPercentile(a, v, scaled)
    ensures IsPercentile(b, v, scaled)
  {
    TallyReordered(a, b, UpTo(v));
    TallyReordered(a, b, Below(v));
  }
}
