/** The streaming bounded cover: one least item per feature, filled up with the least items overall. */
module BoundedCover {
  import opened Cursors
  import opened Sizes

  /** An item stands for its id; features are the strata it belongs to. */
  datatype Item = Item(id: Name, features: set<Name>)

  datatype Outcome =
    | Selected(ids: seq<Name>)
    | BadBounds | RepeatedId | NoItems | BoundTooSmall | TooFewItems

  function IdsTo(items: seq<Item>, n: nat): set<Name>
    requires n <= |items|
  {
    set m | 0 <= m < n :: items[m].id
  }

  predicate DistinctTo(items: seq<Item>, n: nat)
    requires n <= |items|
  {
    forall i, j :: 0 <= i < j < n ==> items[i].id != items[j].id
  }

  predicate Shows(items: seq<Item>, m: nat, f: Name) {
    m < |items| && f in items[m].features
  }

  /** id is the least among the first n items that have the feature. */
  ghost predicate IsChoice(items: seq<Item>, n: nat, f: Name, id: Name) {
    && (exists m: nat :: m < n && Shows(items, m, f) && items[m].id == id)
    && forall m: nat :: m < n && Shows(items, m, f) ==> id <= items[m].id
  }

  /** The choices after the first n items. */
  ghost predicate ChoiceAt(items: seq<Item>, n: nat, choices: map<Name, Name>, f: Name) {
    if f in choices then IsChoice(items, n, f, choices[f]) else forall m: nat :: m < n ==> !Shows(items, m, f)
  }

  ghost predicate ChoicesOk(items: seq<Item>, n: nat, choices: map<Name, Name>) {
    forall f :: ChoiceAt(items, n, choices, f)
  }

  /** Part way through the features of item n: those in done have been looked at. */
  ghost predicate Partly(items: seq<Item>, n: nat, choices: map<Name, Name>, done: set<Name>) {
    forall f :: PartlyAt(items, n, choices, done, f)
  }

  ghost predicate PartlyAt(items: seq<Item>, n: nat, choices: map<Name, Name>, done: set<Name>, f: Name) {
    ChoiceAt(items, if f in done then n + 1 else n, choices, f)
  }

  lemma {:induction false} FeatureTaken(items: seq<Item>, n: nat, choices: map<Name, Name>, done: set<Name>, f: Name)
    requires n < |items| && f in items[n].features && f !in done && Partly(items, n, choices, done)
    ensures var id := items[n].id;
            Partly(items, n, if f !in choices || id < choices[f] then choices[f := id] else choices, done + {f})
  {
    var id := items[n].id;
    var more := if f !in choices || id < choices[f] then choices[f := id] else choices;
    assert Shows(items, n, f) && n < n + 1;
    forall g ensures PartlyAt(items, n, more, done + {f}, g) {
      assert PartlyAt(items, n, choices, done, g);
      if g == f && f in choices {
        var m: nat :| m < n && Shows(items, m, f) && items[m].id == choices[f];
        assert m < n + 1;
      }
    }
  }

  /** The inner loop over the features of one item, in any order. */
  method TakeFeatures(items: seq<Item>, n: nat, choices0: map<Name, Name>) returns (choices: map<Name, Name>)
    requires n < |items| && ChoicesOk(items, n, choices0)
    ensures ChoicesOk(items, n + 1, choices)
  {
    choices := choices0;
    var rest := items[n].features;
    ghost var done: set<Name> := {};
    forall f ensures PartlyAt(items, n, choices, done, f) { assert ChoiceAt(items, n, choices0, f); }
    while rest != {}
      invariant done + rest == items[n].features && done !! rest
      invariant Partly(items, n, choices, done)
      decreases |rest|
    {
      var f :| f in rest;
      rest := rest - {f};
      FeatureTaken(items, n, choices, done, f);
      done := done + {f};
      if f !in choices || items[n].id < choices[f] { choices := choices[f := items[n].id]; }
    }
    AllTaken(items, n, choices, done);
  }

  lemma {:induction false} AllTaken(items: seq<Item>, n: nat, choices: map<Name, Name>, done: set<Name>)
    requires n < |items| && done == items[n].features && Partly(items, n, choices, done)
    ensures ChoicesOk(items, n + 1, choices)
  {
    var next := n + 1;
    forall f ensures ChoiceAt(items, next, choices, f) {
      assert PartlyAt(items, n, choices, done, f);
      assert f in done <==> Shows(items, n, f);
    }
  }

  // The list of least ids.

  function InsertSorted(q: seq<Name>, x: Name): seq<Name> {
    if q == [] then [x]
    else if q[|q| - 1] < x then q + [x]
    else InsertSorted(q[..|q| - 1], x) + [q[|q| - 1]]
  }

  lemma {:induction false} ElementsAppend(q: seq<Name>, x: Name)
    ensures Elements(q + [x]) == Elements(q) + {x}
  {
    var r := q + [x];
    forall y ensures y in r <==> y in q || y == x {}
  }

  lemma {:induction false} InsertedElements(q: seq<Name>, x: Name)
    ensures Elements(InsertSorted(q, x)) == Elements(q) + {x} && |InsertSorted(q, x)| == |q| + 1
  {
    if q != [] {
      var front, last := q[..|q| - 1], q[|q| - 1];
      assert q == front + [last];
      ElementsAppend(front, last);
      if last < x {
        ElementsAppend(q, x);
      } else {
        InsertedElements(front, x);
        ElementsAppend(InsertSorted(front, x), last);
      }
    }
  }

  lemma {:induction false} InsertedSorted(q: seq<Name>, x: Name)
    requires StrictlyIncreasing(q) && x !in q
    ensures StrictlyIncreasing(InsertSorted(q, x)) && Elements(InsertSorted(q, x)) == Elements(q) + {x}
    ensures |InsertSorted(q, x)| == |q| + 1
  {
    InsertedElements(q, x);
    if q != [] && !(q[|q| - 1] < x) {
      var front, last := q[..|q| - 1], q[|q| - 1];
      InsertedSorted(front, x);
      InsertedElements(front, x);
      var r := InsertSorted(front, x);
      forall i | 0 <= i < |r| ensures r[i] < last {
        assert r[i] in Elements(r);
        if r[i] != x {
          var k :| 0 <= k < |front| && front[k] == r[i];
          assert q[k] < q[|q| - 1];
        } else {
          assert q[|q| - 1] in q;
        }
      }
    }
  }

  /** q lists the least ids of s, at most max of them. */
  ghost predicate IsSmallest(q: seq<Name>, s: set<Name>, max: nat) {
    && StrictlyIncreasing(q) && Elements(q) <= s && |q| == (if |s| < max then |s| else max)
    && forall x, y :: x in Elements(q) && y in s && y !in Elements(q) ==> x < y
  }

  function Truncated(q: seq<Name>, max: nat): seq<Name> {
    if |q| <= max then q else q[..max]
  }

  lemma {:induction false} ElementsSize(q: seq<Name>)
    requires StrictlyIncreasing(q)
    ensures |Elements(q)| == |q|
  {
    if q != [] {
      var front, last := q[..|q| - 1], q[|q| - 1];
      ElementsSize(front);
      assert q == front + [last];
      assert Elements(q) == Elements(front) + {last};
      assert last !in Elements(front);
    }
  }

  /** Dropping the last of a strictly increasing list drops its greatest element. */
  lemma {:induction false} DropLast(r: seq<Name>, max: nat)
    requires StrictlyIncreasing(r) && |r| == max + 1
    ensures StrictlyIncreasing(r[..max]) && Elements(r) == Elements(r[..max]) + {r[max]}
    ensures forall x :: x in Elements(r[..max]) ==> x < r[max]
  {
    assert r == r[..max] + [r[max]];
  }

  lemma {:induction false} SmallestStep(q: seq<Name>, s: set<Name>, max: nat, x: Name)
    requires IsSmallest(q, s, max) && x !in s && max > 0
    ensures IsSmallest(Truncated(InsertSorted(q, x), max), s + {x}, max)
  {
    var r, t := InsertSorted(q, x), s + {x};
    assert x !in Elements(q);
    InsertedSorted(q, x);
    ElementsSize(q);
    SubsetSize(Elements(q), s);
    if |r| > max {
      DropLast(r, max);
      var kept, last := r[..max], r[max];
      forall a, y | a in Elements(kept) && y in t && y !in Elements(kept) ensures a < y {
        if y != last && a == x {
          assert last in Elements(q) && y in s && y !in Elements(q);
        }
      }
    } else {
      assert Elements(q) == s;
    }
  }

  /** The first loop: least ids and least choices of everything seen. */
  method Scan(items: seq<Item>, maximum: nat) returns (distinct: bool, smallest: seq<Name>, choices: map<Name, Name>)
    requires maximum > 0
    ensures distinct <==> DistinctTo(items, |items|)
    ensures distinct ==> IsSmallest(smallest, IdsTo(items, |items|), maximum) && ChoicesOk(items, |items|, choices)
    ensures distinct ==> |IdsTo(items, |items|)| == |items|
  {
    smallest, choices := [], map[];
    var seen: set<Name> := {};
    forall f ensures ChoiceAt(items, 0, choices, f) {}
    for n := 0 to |items|
      invariant DistinctTo(items, n) && seen == IdsTo(items, n) && |seen| == n
      invariant IsSmallest(smallest, seen, maximum) && ChoicesOk(items, n, choices)
    {
      var id := items[n].id;
      if id in seen { return false, smallest, choices; }
      SmallestStep(smallest, seen, maximum, id);
      seen := seen + {id};
      smallest := Truncated(InsertSorted(smallest, id), maximum);
      choices := TakeFeatures(items, n, choices);
    }
    distinct := true;
  }

  // The selection.

  function ChosenIds(choices: map<Name, Name>): set<Name> {
    set f | f in choices :: choices[f]
  }

  function Max(a: nat, b: nat): nat {
    if a < b then b else a
  }

  /** The choices, and besides them the least other ids, up to the minimum size. */
  ghost predicate IsCover(selected: set<Name>, chosen: set<Name>, ids: set<Name>, minimum: nat) {
    && chosen <= selected <= ids && |selected| == Max(minimum, |chosen|)
    && forall x, y :: x in selected && x !in chosen && y in ids && y !in selected ==> x < y
  }

  /** There is one such selection only, so the order of the items cannot matter. */
  lemma {:induction false} CoverIsUnique(a: set<Name>, b: set<Name>, chosen: set<Name>, ids: set<Name>, minimum: nat)
    requires IsCover(a, chosen, ids, minimum) && IsCover(b, chosen, ids, minimum)
    ensures a == b
  {
    if a <= b {
      SubsetSize(a, b);
    } else {
      var x :| x in a && x !in b;
      forall y | y in b ensures y in a {}
      SubsetSize(b, a);
    }
  }

  lemma {:induction false} ChoicesAreIds(items: seq<Item>, choices: map<Name, Name>)
    requires ChoicesOk(items, |items|, choices)
    ensures ChosenIds(choices) <= IdsTo(items, |items|)
  {
    forall f | f in choices ensures choices[f] in IdsTo(items, |items|) {
      assert ChoiceAt(items, |items|, choices, f);
    }
  }

  /** The second loop: add the least ids until there are enough. */
  method Fill(smallest: seq<Name>, ghost chosen: set<Name>, selected0: set<Name>, ghost ids: set<Name>, minimum: nat,
              ghost maximum: nat)
    returns (selected: set<Name>)
    requires selected0 == chosen <= ids && IsSmallest(smallest, ids, maximum) && minimum <= maximum
    ensures |ids| >= minimum ==> IsCover(selected, chosen, ids, minimum)
    ensures |ids| < minimum ==> |selected| < minimum
  {
    selected := selected0;
    var j := 0;
    AllElements(smallest);
    while j < |smallest| && |selected| < minimum
      invariant j <= |smallest| && selected == chosen + Elements(smallest[..j])
      invariant j > 0 ==> |selected| <= minimum
      invariant |selected| >= |chosen|
    {
      ElementsStep(smallest, j);
      GrowsByOne(selected, smallest[j]);
      selected := selected + {smallest[j]};
      j := j + 1;
    }
    FilledEnough(smallest, chosen, selected, ids, minimum, maximum, j);
  }

  lemma {:induction false} GrowsByOne(s: set<Name>, x: Name)
    ensures |s| <= |s + {x}| <= |s| + 1
  {
    if x in s { assert s + {x} == s; }
  }

  lemma {:induction false} FilledEnough(smallest: seq<Name>, chosen: set<Name>, selected: set<Name>, ids: set<Name>,
                                        minimum: nat, maximum: nat, j: nat)
    requires chosen <= ids && IsSmallest(smallest, ids, maximum) && minimum <= maximum && j <= |smallest|
    requires selected == chosen + Elements(smallest[..j]) && (j > 0 ==> |selected| <= minimum)
    requires j == |smallest| || |selected| >= minimum
    ensures |ids| >= minimum ==> IsCover(selected, chosen, ids, minimum)
    ensures |ids| < minimum ==> |selected| < minimum
  {
    SubsetSize(chosen, selected);
    SubsetSize(selected, ids);
    if j == |smallest| {
      assert smallest[..j] == smallest;
      ElementsSize(smallest);
      SubsetSize(Elements(smallest), selected);
    }
    if j == 0 { assert selected == chosen; }
    forall x, y | x in selected && x !in chosen && y in ids && y !in selected ensures x < y {
      var k :| 0 <= k < j && smallest[k] == x;
      assert x in Elements(smallest);
      if y in Elements(smallest) {
        var l :| 0 <= l < |smallest| && smallest[l] == y;
      }
    }
  }

  /** _bounded_cover */
  method Cover(items: seq<Item>, minimum: int, maximum: int) returns (outcome: Outcome, ghost choices: map<Name, Name>)
    ensures outcome.Selected? <==>
              && 0 < minimum <= maximum && DistinctTo(items, |items|) && |items| >= minimum
              && exists c :: ChoicesOk(items, |items|, c) && |ChosenIds(c)| <= maximum
    ensures outcome.Selected? ==>
              && ChoicesOk(items, |items|, choices) && StrictlyIncreasing(outcome.ids)
              && IsCover(Elements(outcome.ids), ChosenIds(choices), IdsTo(items, |items|), minimum)
    ensures outcome.BadBounds? <==> !(0 < minimum <= maximum)
    ensures outcome.RepeatedId? <==> 0 < minimum <= maximum && !DistinctTo(items, |items|)
    ensures outcome.NoItems? ==> items == []
    ensures outcome.BoundTooSmall? ==> ChoicesOk(items, |items|, choices) && |ChosenIds(choices)| > maximum
    ensures outcome.TooFewItems? ==> |items| < minimum
  {
    choices := map[];
    if minimum <= 0 || maximum < minimum { return BadBounds, choices; }
    var distinct, smallest, c := Scan(items, maximum);
    choices := c;
    if !distinct { return RepeatedId, choices; }
    if |items| == 0 { return NoItems, choices; }
    ghost var ids := IdsTo(items, |items|);
    ChoicesAreIds(items, c);
    var chosen := ChosenIds(c);
    forall d | ChoicesOk(items, |items|, d) ensures d == c {
      ChoicesAreUnique(items, c, d);
    }
    if |chosen| > maximum { return BoundTooSmall, choices; }
    var selected := Fill(smallest, chosen, chosen, ids, minimum, maximum);
    if |selected| < minimum { return TooFewItems, choices; }
    var sorted := OrderBy(selected);
    outcome := Selected(sorted);
  }

  lemma {:induction false} ChoicesAreUnique(items: seq<Item>, c: map<Name, Name>, d: map<Name, Name>)
    requires ChoicesOk(items, |items|, c) && ChoicesOk(items, |items|, d)
    ensures c == d
  {
    forall f ensures (f in c <==> f in d) && (f in c && f in d ==> c[f] == d[f]) {
      assert ChoiceAt(items, |items|, c, f) && ChoiceAt(items, |items|, d, f);
    }
  }

  /** Every feature any item has is shown by a selected item. */
  lemma {:induction false} EveryFeatureCovered(items: seq<Item>, choices: map<Name, Name>, selected: set<Name>,
                                               ids: set<Name>, minimum: nat, f: Name, m: nat)
    requires ChoicesOk(items, |items|, choices) && IsCover(selected, ChosenIds(choices), ids, minimum)
             && Shows(items, m, f)
    ensures exists k: nat :: Shows(items, k, f) && items[k].id in selected
  {
    assert ChoiceAt(items, |items|, choices, f);
    assert choices[f] in ChosenIds(choices);
  }

  ghost predicate SameItems(a: seq<Item>, b: seq<Item>) {
    forall x :: x in a <==> x in b
  }

  /** The result is the same for every order of the same items. */
  lemma {:induction false} OrderDoesNotMatter(a: seq<Item>, b: seq<Item>, c: map<Name, Name>, d: map<Name, Name>,
                                              p: seq<Name>, q: seq<Name>, minimum: nat)
    requires SameItems(a, b) && ChoicesOk(a, |a|, c) && ChoicesOk(b, |b|, d) && StrictlyIncreasing(p)
             && StrictlyIncreasing(q)
    requires IsCover(Elements(p), ChosenIds(c), IdsTo(a, |a|), minimum)
             && IsCover(Elements(q), ChosenIds(d), IdsTo(b, |b|), minimum)
    ensures p == q
  {
    IdsMove(a, b);
    IdsMove(b, a);
    ChoicesMove(a, b, c);
    ChoicesAreUnique(b, c, d);
    CoverIsUnique(Elements(p), Elements(q), ChosenIds(c), IdsTo(a, |a|), minimum);
    forall x ensures x in p <==> x in q {
      assert x in Elements(p) <==> x in Elements(q);
    }
    AscendingUnique(p, q);
  }

  lemma {:induction false} IdsMove(a: seq<Item>, b: seq<Item>)
    requires SameItems(a, b)
    ensures IdsTo(a, |a|) <= IdsTo(b, |b|)
  {
    forall m | 0 <= m < |a| ensures a[m].id in IdsTo(b, |b|) {
      assert a[m] in b;
    }
  }

  lemma {:induction false} ChoicesMove(a: seq<Item>, b: seq<Item>, c: map<Name, Name>)
    requires SameItems(a, b) && ChoicesOk(a, |a|, c)
    ensures ChoicesOk(b, |b|, c)
  {
    forall f ensures ChoiceAt(b, |b|, c, f) {
      assert ChoiceAt(a, |a|, c, f);
      forall m: nat | Shows(b, m, f) ensures exists k: nat :: Shows(a, k, f) && a[k].id == b[m].id {
        assert b[m] in a;
        var k: nat :| k < |a| && a[k] == b[m];
        assert Shows(a, k, f);
      }
      if f in c {
        var m: nat :| m < |a| && Shows(a, m, f) && a[m].id == c[f];
        assert a[m] in b;
        var k: nat :| k < |b| && b[k] == a[m];
        assert Shows(b, k, f);
      }
    }
  }
}
