/** The tables of the contamination index as values, and what its loops must find in them. */
module ContentTables {
  import opened Cursors
  import opened Components

  datatype SampleId = SampleId(text: string)

  /** The rows of one kind. content and benchmark are keyed by fingerprint; the link tables hold, for each
      fingerprint, the repositories and the samples it occurs in. */
  datatype Values = Values(
    content: map<Name, string>,
    repositories: map<Name, set<Name>>,
    samples: map<Name, set<SampleId>>,
    benchmark: map<Name, string>)

  datatype Pair = Pair(left: Name, right: Name)

  function At<T>(table: map<Name, set<T>>, f: Name): set<T> {
    if f in table then table[f] else {}
  }

  /** The repositories that hold either value of a pair; (f, f) stands for the one value f. */
  function PairRepositories(v: Values, p: Pair): set<Name> {
    At(v.repositories, p.left) + At(v.repositories, p.right)
  }

  /** The pairs found by a loop, in the order it found them. */
  datatype Log = Empty | Then(front: Log, last: Pair)

  ghost function PairSet(log: Log): set<Pair> {
    match log
    case Empty => {}
    case Then(front, last) => PairSet(front) + {last}
  }

  // What the loops must find, stated over all values or all pairs of values.

  function Shared(v: Values): set<Name> {
    set f | f in v.content && |At(v.repositories, f)| > 1
  }

  /** The two tests the loops apply to stored text: near duplication and the length window around a text. */
  type NearTest = (string, string) -> bool
  type LengthWindow = nat -> (int, int)

  /** The two tables a double loop compares, and the test it applies. */
  datatype Sides = Sides(left: map<Name, string>, right: map<Name, string>, near: NearTest)

  function Among(v: Values, near: NearTest): Sides { Sides(v.content, v.content, near) }

  function Against(v: Values, near: NearTest): Sides { Sides(v.content, v.benchmark, near) }

  ghost function NearPairs(v: Values, near: NearTest): set<Pair> {
    set p | p in OrderedPairs(v.content) && near(v.content[p.left], v.content[p.right])
  }

  /** What the inner loop asks of a left and a right value. */
  ghost predicate Passes(sides: Sides, p: Pair) {
    p.left in sides.left && p.right in sides.right && sides.near(sides.left[p.left], sides.right[p.right])
  }

  ghost function OrderedPairs(content: map<Name, string>): (pairs: set<Pair>)
    ensures forall p :: p in pairs <==> p.left in content && p.right in content && p.left < p.right
  {
    set f, g | f in content && g in content && f < g :: Pair(f, g)
  }

  /** No near duplicate of stored text lies outside the length window. */
  ghost predicate Lossless(sides: Sides, window: LengthWindow) {
    forall f, g :: f in sides.left && g in sides.right && sides.near(sides.left[f], sides.right[g]) ==>
      window(|sides.left[f]|).0 <= |sides.right[g]| <= window(|sides.left[f]|).1
  }

  // Uniting the repositories of pairs of values, one pair after another.

  ghost predicate Known(v: Values, repositories: set<Name>) {
    forall f :: f in v.repositories ==> v.repositories[f] <= repositories
  }

  /** The groups gs together with those that the logged pairs put together. */
  ghost function Extend(gs: Groups, v: Values, log: Log): Groups {
    match log
    case Empty => gs
    case Then(front, last) => Plus(Extend(gs, v, front), PairRepositories(v, last))
  }

  lemma {:induction false} InExtend(gs: Groups, v: Values, log: Log, a: Name, b: Name)
    ensures Linked(Extend(gs, v, log), a, b) <==>
              || Linked(gs, a, b)
              || exists p :: p in PairSet(log) && a in PairRepositories(v, p) && b in PairRepositories(v, p)
  {
    if log.Then? { InExtend(gs, v, log.front, a, b); }
  }

  // The near-duplicate loop: what is tested, and what is kept of it.

  /** For each left value, the right values an inner cursor offers: larger fingerprints within the length
      window, or benchmark values with another fingerprint within it. */
  type Offers = map<Name, set<Name>>

  function Later(v: Values, window: LengthWindow): Offers {
    map f | f in v.content ::
      set g | g in v.content && g > f && window(|v.content[f]|).0 <= |v.content[g]| <= window(|v.content[f]|).1
  }

  function Benchmarks(v: Values, window: LengthWindow): Offers {
    map f | f in v.content ::
      set g | g in v.benchmark && g != f && window(|v.content[f]|).0 <= |v.benchmark[g]| <= window(|v.content[f]|).1
  }

  ghost function Offered(offers: Offers, fs: set<Name>): set<Pair>
    requires fs <= offers.Keys
  {
    set f, g | f in fs && g in offers[f] :: Pair(f, g)
  }

  ghost function Doubles(fs: set<Name>): set<Pair> {
    set f | f in fs :: Pair(f, f)
  }

  lemma {:induction false} DoublesStep(rows: seq<Name>, i: nat)
    requires i < |rows|
    ensures Doubles(Elements(rows[..i + 1])) == Doubles(Elements(rows[..i])) + {Pair(rows[i], rows[i])}
  {
    ElementsStep(rows, i);
  }

  /** The log after the first j rows of an inner cursor opened for f. */
  ghost function Row(tested: Log, f: Name, inner: seq<Name>, j: nat): Log
    requires j <= |inner|
  {
    if j == 0 then tested else Then(Row(tested, f, inner, j - 1), Pair(f, inner[j - 1]))
  }

  ghost function Size(log: Log): nat {
    match log
    case Empty => 0
    case Then(front, _) => Size(front) + 1
  }

  /** What a double loop has counted, and the near pairs it has kept. */
  datatype Search = Search(comparisons: nat, matches: nat, log: Log)

  /** The tested pairs that pass the near-duplicate test, in order. */
  ghost function Kept(sides: Sides, tested: Log): Log {
    match tested
    case Empty => Empty
    case Then(front, p) => if Passes(sides, p) then Then(Kept(sides, front), p) else Kept(sides, front)
  }

  ghost predicate Distinct(log: Log) {
    match log
    case Empty => true
    case Then(front, p) => p !in PairSet(front) && Distinct(front)
  }

  lemma {:induction false} DistinctSize(log: Log)
    requires Distinct(log)
    ensures Size(log) == |PairSet(log)|
  {
    if log.Then? { DistinctSize(log.front); }
  }

  lemma {:induction false} KeptFacts(sides: Sides, tested: Log)
    ensures forall p :: p in PairSet(Kept(sides, tested)) <==> p in PairSet(tested) && Passes(sides, p)
    ensures Distinct(tested) ==> Distinct(Kept(sides, tested))
  {
    if tested.Then? { KeptFacts(sides, tested.front); }
  }

  ghost function PairsWith(f: Name, gs: set<Name>): set<Pair> {
    set g | g in gs :: Pair(f, g)
  }

  lemma {:induction false} RowPairs(tested: Log, f: Name, inner: seq<Name>, j: nat)
    requires j <= |inner|
    ensures PairSet(Row(tested, f, inner, j)) == PairSet(tested) + PairsWith(f, Elements(inner[..j]))
  {
    if j > 0 {
      RowPairs(tested, f, inner, j - 1);
      ElementsStep(inner, j - 1);
      var before, after := Elements(inner[..j - 1]), Elements(inner[..j]);
      assert PairsWith(f, after) == PairsWith(f, before) + {Pair(f, inner[j - 1])};
    } else {
      assert PairsWith(f, Elements(inner[..0])) == {};
    }
  }

  lemma {:induction false} RowFacts(tested: Log, f: Name, inner: seq<Name>, j: nat)
    requires j <= |inner| && StrictlyIncreasing(inner)
    requires Distinct(tested) && forall p :: p in PairSet(tested) ==> p.left != f
    ensures Distinct(Row(tested, f, inner, j))
    ensures PairSet(Row(tested, f, inner, j)) == PairSet(tested) + PairsWith(f, Elements(inner[..j]))
  {
    RowPairs(tested, f, inner, j);
    if j > 0 {
      RowFacts(tested, f, inner, j - 1);
      NewElement(inner, j - 1);
      assert Pair(f, inner[j - 1]) !in PairSet(Row(tested, f, inner, j - 1));
    }
  }

  /** The outer loop has tested exactly the offered pairs of the rows fs, each once. */
  ghost predicate Covers(tested: Log, offers: Offers, fs: set<Name>) {
    fs <= offers.Keys && Distinct(tested) && PairSet(tested) == Offered(offers, fs)
  }

  lemma {:induction false} CoversStep(tested: Log, offers: Offers, rows: seq<Name>, i: nat, inner: seq<Name>)
    requires i < |rows| && StrictlyIncreasing(rows) && StrictlyIncreasing(inner)
             && Covers(tested, offers, Elements(rows[..i]))
    requires rows[i] in offers && Elements(inner) == offers[rows[i]]
    ensures Covers(Row(tested, rows[i], inner, |inner|), offers, Elements(rows[..i + 1]))
  {
    NewElement(rows, i);
    AllElements(inner);
    RowFacts(tested, rows[i], inner, |inner|);
    ElementsStep(rows, i);
    assert Offered(offers, Elements(rows[..i + 1]))
           == Offered(offers, Elements(rows[..i])) + PairsWith(rows[i], offers[rows[i]]);
  }

  /** What a filtered double loop reports: every offered pair tested once, and the near ones of them kept. */
  ghost predicate Reports(sides: Sides, offers: Offers, tested: Log, found: Search) {
    Progress(sides, offers, offers.Keys, tested, found)
  }

  ghost predicate Progress(sides: Sides, offers: Offers, fs: set<Name>, tested: Log, found: Search) {
    Covers(tested, offers, fs) && Tally(sides, tested, found)
  }

  ghost predicate Tally(sides: Sides, tested: Log, found: Search) {
    found == Search(Size(tested), Size(found.log), Kept(sides, tested))
  }

  lemma {:induction false} TallyStep(sides: Sides, tested: Log, f: Name,
                                     inner: seq<Name>, j: nat, found: Search)
    requires j < |inner| && f in sides.left && inner[j] in sides.right
    requires Tally(sides, Row(tested, f, inner, j), found)
    ensures if sides.near(sides.left[f], sides.right[inner[j]])
            then Tally(sides, Row(tested, f, inner, j + 1),
                       Search(found.comparisons + 1, found.matches + 1, Then(found.log, Pair(f, inner[j]))))
            else Tally(sides, Row(tested, f, inner, j + 1), found.(comparisons := found.comparisons + 1))
  {
  }

  lemma {:induction false} ProgressStep(sides: Sides, offers: Offers, rows: seq<Name>, i: nat, inner: seq<Name>,
                                        tested: Log, found: Search)
    requires i < |rows| && StrictlyIncreasing(rows) && StrictlyIncreasing(inner)
             && Covers(tested, offers, Elements(rows[..i]))
    requires rows[i] in offers && Elements(inner) == offers[rows[i]]
    requires Tally(sides, Row(tested, rows[i], inner, |inner|), found)
    ensures Progress(sides, offers, Elements(rows[..i + 1]), Row(tested, rows[i], inner, |inner|), found)
  {
    CoversStep(tested, offers, rows, i, inner);
  }

  /** If all holds just the pairs that pass the test and all of them are offered, they are what is found. */
  lemma {:induction false} NothingLost(sides: Sides, all: set<Pair>, offers: Offers, tested: Log, found: Search)
    requires Reports(sides, offers, tested, found)
    requires forall p :: p in all <==> p in Offered(offers, offers.Keys) && Passes(sides, p)
    ensures found.comparisons == |Offered(offers, offers.Keys)| && found.matches == |all| && PairSet(found.log) == all
  {
    DistinctSize(tested);
    KeptFacts(sides, tested);
    DistinctSize(found.log);
    assert PairSet(found.log) == all;
  }

  lemma {:induction false} NearOffered(v: Values, near: NearTest, window: LengthWindow, p: Pair)
    requires Lossless(Among(v, near), window)
    ensures p in NearPairs(v, near) <==>
              p in Offered(Later(v, window), Later(v, window).Keys) && Passes(Among(v, near), p)
  {
    if p in NearPairs(v, near) { assert p.right in Later(v, window)[p.left]; }
  }

  /** The length-filtered double loop over one table finds exactly the near pairs a loop over all pairs finds. */
  lemma {:induction false} FilteredLoopIsComplete(v: Values, near: NearTest, window: LengthWindow, tested: Log,
                                                  found: Search)
    requires Lossless(Among(v, near), window)
    requires Reports(Among(v, near), Later(v, window), tested, found)
    ensures found.comparisons == |Offered(Later(v, window), v.content.Keys)|
    ensures found.matches == |NearPairs(v, near)| && PairSet(found.log) == NearPairs(v, near)
  {
    assert Later(v, window).Keys == v.content.Keys;
    forall p
      ensures p in NearPairs(v, near) <==>
                p in Offered(Later(v, window), Later(v, window).Keys) && Passes(Among(v, near), p)
    {
      NearOffered(v, near, window, p);
    }
    NothingLost(Among(v, near), NearPairs(v, near), Later(v, window), tested, found);
  }

  // Benchmark overlap: the values that equal or nearly duplicate a benchmark value.

  function ExactHits(v: Values): set<Name> {
    v.content.Keys * v.benchmark.Keys
  }

  ghost function NearHits(v: Values, near: NearTest): set<Pair> {
    set p | p in MixedPairs(v) && near(v.content[p.left], v.benchmark[p.right])
  }

  ghost function MixedPairs(v: Values): (pairs: set<Pair>)
    ensures forall p :: p in pairs <==> p.left in v.content && p.right in v.benchmark && p.left != p.right
  {
    set f, g | f in v.content && g in v.benchmark && f != g :: Pair(f, g)
  }

  lemma {:induction false} HitOffered(v: Values, near: NearTest, window: LengthWindow, p: Pair)
    requires Lossless(Against(v, near), window)
    ensures p in NearHits(v, near) <==>
              p in Offered(Benchmarks(v, window), Benchmarks(v, window).Keys) && Passes(Against(v, near), p)
  {
    if p in NearHits(v, near) { assert p.right in Benchmarks(v, window)[p.left]; }
  }

  /** The same for the loop of content values against benchmark values. */
  lemma {:induction false} FilteredBenchmarkLoopIsComplete(v: Values, near: NearTest, window: LengthWindow,
                                                           tested: Log, found: Search)
    requires Lossless(Against(v, near), window)
    requires Reports(Against(v, near), Benchmarks(v, window), tested, found)
    ensures found.comparisons == |Offered(Benchmarks(v, window), v.content.Keys)|
    ensures found.matches == |NearHits(v, near)| && PairSet(found.log) == NearHits(v, near)
  {
    assert Benchmarks(v, window).Keys == v.content.Keys;
    forall p
      ensures p in NearHits(v, near) <==>
                p in Offered(Benchmarks(v, window), Benchmarks(v, window).Keys) && Passes(Against(v, near), p)
    {
      HitOffered(v, near, window, p);
    }
    NothingLost(Against(v, near), NearHits(v, near), Benchmarks(v, window), tested, found);
  }

  /** The marked samples, from before, once those of the logged hits are added. */
  ghost function Marked(before: set<SampleId>, v: Values, log: Log): set<SampleId> {
    match log
    case Empty => before
    case Then(front, last) => Marked(before, v, front) + At(v.samples, last.left)
  }

  lemma {:induction false} InMarked(before: set<SampleId>, v: Values, log: Log, i: SampleId)
    ensures i in Marked(before, v, log) <==> i in before || exists p :: p in PairSet(log) && i in At(v.samples, p.left)
  {
    if log.Then? { InMarked(before, v, log.front, i); }
  }

  // What the unions and the marks amount to, whichever order they run in.

  ghost function GroupPairs(v: Values, near: NearTest): set<Pair> {
    Doubles(Shared(v)) + NearPairs(v, near)
  }

  ghost predicate ValueLinked(v: Values, near: NearTest, a: Name, b: Name) {
    exists p :: p in GroupPairs(v, near) && a in PairRepositories(v, p) && b in PairRepositories(v, p)
  }

  ghost function HitPairs(v: Values, near: NearTest): set<Pair> {
    Doubles(ExactHits(v)) + NearHits(v, near)
  }

  ghost predicate ValueHit(v: Values, near: NearTest, i: SampleId) {
    exists p :: p in HitPairs(v, near) && i in At(v.samples, p.left)
  }

  ghost predicate AllLinks(task: Values, patch: Values, near: NearTest, groups: Groups) {
    forall a, b :: Linked(groups, a, b) <==> ValueLinked(task, near, a, b) || ValueLinked(patch, near, a, b)
  }

  lemma {:induction false} FourUnions(task: Values, patch: Values, near: NearTest, l1: Log, l2: Log, l3: Log, l4: Log)
    requires PairSet(l1) == Doubles(Shared(task)) && PairSet(l2) == Doubles(Shared(patch))
    requires PairSet(l3) == NearPairs(task, near) && PairSet(l4) == NearPairs(patch, near)
    ensures AllLinks(task, patch, near,
            Extend(Extend(Extend(Extend(NoGroup, task, l1), patch, l2), task, l3), patch, l4))
  {
    var g1 := Extend(NoGroup, task, l1);
    var g2 := Extend(g1, patch, l2);
    var g3 := Extend(g2, task, l3);
    forall a, b
      ensures Linked(Extend(g3, patch, l4), a, b) <==> ValueLinked(task, near, a, b) || ValueLinked(patch, near, a, b)
    {
      InExtend(NoGroup, task, l1, a, b);
      InExtend(g1, patch, l2, a, b);
      InExtend(g2, task, l3, a, b);
      InExtend(g3, patch, l4, a, b);
    }
  }

  lemma {:induction false} FourMarks(task: Values, patch: Values, near: NearTest, l1: Log, l2: Log, l3: Log, l4: Log,
                                     m1: set<SampleId>, m2: set<SampleId>, m3: set<SampleId>, m4: set<SampleId>)
    requires PairSet(l1) == Doubles(ExactHits(task)) && PairSet(l2) == Doubles(ExactHits(patch))
    requires PairSet(l3) == NearHits(task, near) && PairSet(l4) == NearHits(patch, near)
    requires m1 == Marked({}, task, l1) && m2 == Marked(m1, patch, l2) && m3 == Marked(m2, task, l3)
             && m4 == Marked(m3, patch, l4)
    ensures AllHits(task, patch, near, m4)
  {
    forall i ensures i in m4 <==> ValueHit(task, near, i) || ValueHit(patch, near, i) {
      InMarked({}, task, l1, i);
      InMarked(m1, patch, l2, i);
      InMarked(m2, task, l3, i);
      InMarked(m3, patch, l4, i);
    }
  }

  ghost predicate AllHits(task: Values, patch: Values, near: NearTest, overlap: set<SampleId>) {
    forall i :: i in overlap <==> ValueHit(task, near, i) || ValueHit(patch, near, i)
  }

  /** What the two passes over one kind report: values found equal, pairs compared, and pairs found near. */
  datatype Counts = Counts(exact: nat, comparisons: nat, near: nat)

  ghost predicate CountsUnions(c: Counts, v: Values, near: NearTest, window: LengthWindow) {
    && c.exact == |Shared(v)| && c.comparisons == |Offered(Later(v, window), v.content.Keys)|
    && c.near == |NearPairs(v, near)|
  }

  ghost predicate CountsHits(c: Counts, v: Values, near: NearTest, window: LengthWindow) {
    && c.exact == |ExactHits(v)| && c.comparisons == |Offered(Benchmarks(v, window), v.content.Keys)|
    && c.near == |NearHits(v, near)|
  }
}
