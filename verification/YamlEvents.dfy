/** The event stream of a parsed document, and the depth count that skips one value. */
module YamlEvents {

  datatype Event =
    | StreamStart | StreamEnd | DocumentStart | DocumentEnd
    | MappingStart | MappingEnd | SequenceStart | SequenceEnd | Scalar(value: string) | Alias

  /** A parsed value. Any value may be a key. */
  datatype Node = Leaf(value: string) | Reference | Sequence(items: Nodes) | Mapping(entries: Entries)
  datatype Nodes = NoNodes | Next(first: Node, rest: Nodes)
  datatype Entries = NoEntries | Entry(key: Node, value: Node, rest: Entries)

  function Size(n: Node): (size: nat)
    ensures size > 0
  {
    match n
    case Leaf(_) => 1
    case Reference => 1
    case Sequence(items) => 2 + NodesSize(items)
    case Mapping(entries) => 2 + EntriesSize(entries)
  }

  function NodesSize(items: Nodes): nat {
    match items
    case NoNodes => 0
    case Next(first, rest) => Size(first) + NodesSize(rest)
  }

  function EntriesSize(entries: Entries): nat {
    match entries
    case NoEntries => 0
    case Entry(key, value, rest) => Size(key) + Size(value) + EntriesSize(rest)
  }

  /** The events from p on are those of n. */
  predicate At(events: seq<Event>, p: nat, n: Node)
    decreases n
  {
    p + Size(n) <= |events| &&
    match n
    case Leaf(value) => events[p] == Scalar(value)
    case Reference => events[p] == Alias
    case Sequence(items) =>
      events[p] == SequenceStart && NodesAt(events, p + 1, items) && events[p + Size(n) - 1] == SequenceEnd
    case Mapping(entries) =>
      events[p] == MappingStart && EntriesAt(events, p + 1, entries) && events[p + Size(n) - 1] == MappingEnd
  }

  predicate NodesAt(events: seq<Event>, p: nat, items: Nodes)
    decreases items
  {
    p + NodesSize(items) <= |events| &&
    match items
    case NoNodes => true
    case Next(first, rest) => At(events, p, first) && NodesAt(events, p + Size(first), rest)
  }

  predicate EntriesAt(events: seq<Event>, p: nat, entries: Entries)
    decreases entries
  {
    p + EntriesSize(entries) <= |events| &&
    match entries
    case NoEntries => true
    case Entry(key, value, rest) =>
      At(events, p, key) && At(events, p + Size(key), value) && EntriesAt(events, p + Size(key) + Size(value), rest)
  }

  /** One document with this root, and nothing else. */
  predicate Document(events: seq<Event>, root: Node) {
    && |events| == Size(root) + 4 && events[0] == StreamStart && events[1] == DocumentStart && At(events, 2, root)
    && events[|events| - 2] == DocumentEnd && events[|events| - 1] == StreamEnd
  }

  /** A stream that begins with a document of this root, whatever comes after the root. */
  predicate Begins(events: seq<Event>, root: Node) {
    |events| >= Size(root) + 2 && events[0] == StreamStart && events[1] == DocumentStart && At(events, 2, root)
  }

  /** The documents of a stream, one after another. */
  datatype Documents = NoDocuments | OneMore(root: Node, rest: Documents)

  predicate DocumentsAt(events: seq<Event>, p: nat, docs: Documents)
    decreases docs
  {
    match docs
    case NoDocuments => p + 1 == |events| && events[p] == StreamEnd
    case OneMore(root, rest) =>
      var end := p + 1 + Size(root);
      && end < |events| && events[p] == DocumentStart && At(events, p + 1, root) && events[end] == DocumentEnd
      && DocumentsAt(events, end + 1, rest)
  }

  /** What a parser yields for a text without errors. */
  predicate Stream(events: seq<Event>, docs: Documents) {
    events != [] && events[0] == StreamStart && DocumentsAt(events, 1, docs)
  }

  lemma {:induction false} DocumentIsStream(events: seq<Event>, root: Node)
    ensures Document(events, root) <==> Stream(events, OneMore(root, NoDocuments))
  {
    var p, end := 1, 2 + Size(root);
    assert DocumentsAt(events, end + 1, NoDocuments) <==> end + 2 == |events| && events[end + 1] == StreamEnd;
    assert DocumentsAt(events, p, OneMore(root, NoDocuments)) <==>
        && end < |events| && events[p] == DocumentStart && At(events, p + 1, root) && events[end] == DocumentEnd
        && DocumentsAt(events, end + 1, NoDocuments);
  }

  /** No value holds the end of the stream. */
  lemma {:induction false} NodeStaysOpen(events: seq<Event>, p: nat, n: Node, q: nat)
    requires At(events, p, n) && p <= q < p + Size(n)
    ensures events[q] != StreamEnd
    decreases n
  {
    match n
    case Sequence(items) => if p < q < p + Size(n) - 1 { NodesStayOpen(events, p + 1, items, q); }
    case Mapping(entries) => if p < q < p + Size(n) - 1 { EntriesStayOpen(events, p + 1, entries, q); }
    case _ =>
  }

  lemma {:induction false} NodesStayOpen(events: seq<Event>, p: nat, items: Nodes, q: nat)
    requires NodesAt(events, p, items) && p <= q < p + NodesSize(items)
    ensures events[q] != StreamEnd
    decreases items
  {
    match items
    case Next(first, rest) =>
      if q < p + Size(first) { NodeStaysOpen(events, p, first, q); }
      else { NodesStayOpen(events, p + Size(first), rest, q); }
  }

  lemma {:induction false} EntriesStayOpen(events: seq<Event>, p: nat, entries: Entries, q: nat)
    requires EntriesAt(events, p, entries) && p <= q < p + EntriesSize(entries)
    ensures events[q] != StreamEnd
    decreases entries
  {
    match entries
    case Entry(key, value, rest) =>
      var middle, end := p + Size(key), p + Size(key) + Size(value);
      if q < middle { NodeStaysOpen(events, p, key, q); }
      else if q < end { NodeStaysOpen(events, middle, value, q); }
      else { EntriesStayOpen(events, end, rest, q); }
  }

  /** Only the last event of a stream ends it. */
  lemma {:induction false} StreamEndsOnce(events: seq<Event>, p: nat, docs: Documents, q: nat)
    requires DocumentsAt(events, p, docs) && p <= q < |events| && events[q] == StreamEnd
    ensures q == |events| - 1
    decreases docs
  {
    match docs
    case NoDocuments =>
    case OneMore(root, rest) =>
      var end := p + 1 + Size(root);
      if p < q < end { NodeStaysOpen(events, p + 1, root, q); }
      StreamEndsOnce(events, end + 1, rest, q);
  }

  predicate Opens(e: Event) {
    e.MappingStart? || e.SequenceStart?
  }

  predicate Closes(e: Event) {
    e.MappingEnd? || e.SequenceEnd?
  }

  /** Collections opened less collections closed, from p up to q. */
  function Depth(events: seq<Event>, p: nat, q: nat): int
    requires p <= q <= |events|
  {
    if p == q then 0
    else Depth(events, p, q - 1) + (if Opens(events[q - 1]) then 1 else if Closes(events[q - 1]) then -1 else 0)
  }

  lemma {:induction false} DepthSplits(events: seq<Event>, p: nat, q: nat, r: nat)
    requires p <= q <= r <= |events|
    ensures Depth(events, p, r) == Depth(events, p, q) + Depth(events, q, r)
  {
    if q < r { DepthSplits(events, p, q, r - 1); }
  }

  /** Inside a value the depth is never negative, and past it zero again. */
  lemma {:induction false} NodeDepth(events: seq<Event>, p: nat, n: Node, q: nat)
    requires At(events, p, n) && p <= q <= p + Size(n)
    ensures Depth(events, p, q) >= if (n.Sequence? || n.Mapping?) && p < q < p + Size(n) then 1 else 0
    ensures q == p + Size(n) ==> Depth(events, p, q) == 0
    decreases n
  {
    if n.Leaf? || n.Reference? {
      if p < q { assert q == p + 1; }
    } else if p < q {
      var inner := if q == p + Size(n) then q - 1 else q;
      DepthSplits(events, p, p + 1, inner);
      match n {
        case Sequence(items) => NodesDepth(events, p + 1, items, inner);
        case Mapping(entries) => EntriesDepth(events, p + 1, entries, inner);
      }
    }
  }

  lemma {:induction false} NodesDepth(events: seq<Event>, p: nat, items: Nodes, q: nat)
    requires NodesAt(events, p, items) && p <= q <= p + NodesSize(items)
    ensures Depth(events, p, q) >= 0
    ensures q == p + NodesSize(items) ==> Depth(events, p, q) == 0
    decreases items
  {
    match items
    case NoNodes =>
    case Next(first, rest) =>
      var end := p + Size(first);
      if q <= end {
        NodeDepth(events, p, first, q);
        if q == end { NodesDepth(events, end, rest, end); }
      } else {
        NodeDepth(events, p, first, end);
        NodesDepth(events, end, rest, q);
        DepthSplits(events, p, end, q);
      }
  }

  lemma {:induction false} PairDepth(events: seq<Event>, p: nat, entries: Entries, q: nat)
    requires EntriesAt(events, p, entries) && entries.Entry? && p <= q <= p + Size(entries.key) + Size(entries.value)
    ensures Depth(events, p, q) >= 0
    ensures q == p + Size(entries.key) + Size(entries.value) ==> Depth(events, p, q) == 0
    decreases entries, 0
  {
    var middle := p + Size(entries.key);
    if q <= middle {
      NodeDepth(events, p, entries.key, q);
    } else {
      NodeDepth(events, p, entries.key, middle);
      NodeDepth(events, middle, entries.value, q);
      DepthSplits(events, p, middle, q);
    }
  }

  lemma {:induction false} EntriesDepth(events: seq<Event>, p: nat, entries: Entries, q: nat)
    requires EntriesAt(events, p, entries) && p <= q <= p + EntriesSize(entries)
    ensures Depth(events, p, q) >= 0
    ensures q == p + EntriesSize(entries) ==> Depth(events, p, q) == 0
    decreases entries, 1
  {
    match entries
    case NoEntries =>
    case Entry(key, value, rest) =>
      var end := p + Size(key) + Size(value);
      if q <= end {
        PairDepth(events, p, entries, q);
        if q == end { EntriesDepth(events, end, rest, end); }
      } else {
        PairDepth(events, p, entries, end);
        EntriesDepth(events, end, rest, q);
        DepthSplits(events, p, end, q);
      }
  }

  /** The depth counted from p is zero at q for the first time. */
  ghost predicate FirstZero(events: seq<Event>, p: nat, q: nat) {
    && p < q <= |events| && Depth(events, p, q) == 0
    && forall r :: p < r < q ==> Depth(events, p, r) > 0
  }

  /** The depth counted from p stays positive to the end of the stream. */
  ghost predicate NeverZero(events: seq<Event>, p: nat) {
    forall r :: p < r <= |events| ==> Depth(events, p, r) > 0
  }

  /** A depth count that starts on a collection first returns to zero at its end. */
  lemma {:induction false} SkipsOneValue(events: seq<Event>, p: nat, n: Node, q: nat)
    requires At(events, p, n) && Opens(events[p]) && FirstZero(events, p, q)
    ensures q == p + Size(n)
  {
    NodeDepth(events, p, n, p + Size(n));
    if q < p + Size(n) { NodeDepth(events, p, n, q); }
  }

  // Every value has an event stream.

  function EventsOf(n: Node): (events: seq<Event>)
    ensures |events| == Size(n)
  {
    match n
    case Leaf(value) => [Scalar(value)]
    case Reference => [Alias]
    case Sequence(items) => [SequenceStart] + NodesEvents(items) + [SequenceEnd]
    case Mapping(entries) => [MappingStart] + EntriesEvents(entries) + [MappingEnd]
  }

  function NodesEvents(items: Nodes): (events: seq<Event>)
    ensures |events| == NodesSize(items)
  {
    match items
    case NoNodes => []
    case Next(first, rest) => EventsOf(first) + NodesEvents(rest)
  }

  function EntriesEvents(entries: Entries): (events: seq<Event>)
    ensures |events| == EntriesSize(entries)
  {
    match entries
    case NoEntries => []
    case Entry(key, value, rest) => EventsOf(key) + EventsOf(value) + EntriesEvents(rest)
  }

  /** part stands in events from p on. */
  predicate Inside(events: seq<Event>, p: nat, part: seq<Event>) {
    p + |part| <= |events| && forall k :: 0 <= k < |part| ==> events[p + k] == part[k]
  }

  lemma {:induction false} InsidePart(events: seq<Event>, p: nat, whole: seq<Event>, q: nat, part: seq<Event>)
    requires Inside(events, p, whole) && q + |part| <= |whole| && part == whole[q..q + |part|]
    ensures Inside(events, p + q, part)
  {
    forall k | 0 <= k < |part| ensures events[p + q + k] == part[k] {
      assert events[p + (q + k)] == whole[q + k];
    }
  }

  lemma {:induction false} InsideTwo(events: seq<Event>, p: nat, a: seq<Event>, b: seq<Event>)
    requires Inside(events, p, a + b)
    ensures Inside(events, p, a) && Inside(events, p + |a|, b)
  {
    InsidePart(events, p, a + b, 0, a);
    InsidePart(events, p, a + b, |a|, b);
  }

  lemma {:induction false} InsideThree(events: seq<Event>, p: nat, a: seq<Event>, b: seq<Event>, c: seq<Event>)
    requires Inside(events, p, a + b + c)
    ensures Inside(events, p, a) && Inside(events, p + |a|, b) && Inside(events, p + |a| + |b|, c)
  {
    InsideTwo(events, p, a + b, c);
    InsideTwo(events, p, a, b);
  }

  lemma {:induction false} First(events: seq<Event>, p: nat, e: Event)
    requires Inside(events, p, [e])
    ensures p < |events| && events[p] == e
  {
    assert events[p + 0] == [e][0];
  }

  lemma {:induction false} Framed(events: seq<Event>, p: nat, open: Event, inner: seq<Event>, close: Event)
    requires Inside(events, p, [open] + inner + [close])
    ensures p + |inner| + 2 <= |events| && events[p] == open && events[p + |inner| + 1] == close
    ensures Inside(events, p + 1, inner)
  {
    InsideThree(events, p, [open], inner, [close]);
    First(events, p, open);
    First(events, p + 1 + |inner|, close);
  }

  lemma {:induction false} EventsAreAt(events: seq<Event>, p: nat, n: Node)
    requires Inside(events, p, EventsOf(n))
    ensures At(events, p, n)
    decreases n
  {
    match n
    case Leaf(value) => First(events, p, Scalar(value));
    case Reference => First(events, p, Alias);
    case Sequence(items) =>
      Framed(events, p, SequenceStart, NodesEvents(items), SequenceEnd);
      NodesAreAt(events, p + 1, items);
    case Mapping(entries) =>
      Framed(events, p, MappingStart, EntriesEvents(entries), MappingEnd);
      EntriesAreAt(events, p + 1, entries);
  }

  lemma {:induction false} NodesAreAt(events: seq<Event>, p: nat, items: Nodes)
    requires Inside(events, p, NodesEvents(items))
    ensures NodesAt(events, p, items)
    decreases items
  {
    match items
    case NoNodes =>
    case Next(first, rest) =>
      InsideTwo(events, p, EventsOf(first), NodesEvents(rest));
      EventsAreAt(events, p, first);
      NodesAreAt(events, p + Size(first), rest);
  }

  lemma {:induction false} EntriesAreAt(events: seq<Event>, p: nat, entries: Entries)
    requires Inside(events, p, EntriesEvents(entries))
    ensures EntriesAt(events, p, entries)
    decreases entries
  {
    match entries
    case NoEntries =>
    case Entry(key, value, rest) =>
      InsideThree(events, p, EventsOf(key), EventsOf(value), EntriesEvents(rest));
      EventsAreAt(events, p, key);
      EventsAreAt(events, p + Size(key), value);
      EntriesAreAt(events, p + Size(key) + Size(value), rest);
  }

  function DocumentOf(root: Node): seq<Event> {
    [StreamStart, DocumentStart] + EventsOf(root) + [DocumentEnd, StreamEnd]
  }

  /** Every root has a document. */
  lemma {:induction false} DocumentExists(root: Node)
    ensures Document(DocumentOf(root), root)
  {
    InsidePart(DocumentOf(root), 0, DocumentOf(root), 2, EventsOf(root));
    EventsAreAt(DocumentOf(root), 2, root);
  }
}
