/** The streaming event reader of the repository split manifest. */
module SplitReader {
  import opened Cursors
  import opened Integers
  import opened Wrappers
  import opened YamlEvents

  const SCHEMA_VERSION := "nodelm.repository-split/v1"

  /** canonical is canonical_repository, with None where it raises. */
  datatype Settings = Settings(canonical: string -> Option<Name>)

  datatype Lists = Lists(train: seq<string>, evaluation: seq<string>, excluded: seq<string>)

  datatype Evidence = Evidence(
    train: seq<Name>, evaluation: seq<Name>, excluded: seq<Name>,
    inputSha256: Option<string>, inputBytes: Option<nat>, sampleCount: Option<nat>)

  /** The variables of read_repository_split_evidence. */
  datatype Collected = Collected(
    schema: Option<string>, repositories: Option<Lists>,
    inputSha256: Option<string>, inputBytes: Option<nat>, sampleCount: Option<nat>)

  const NOTHING := Collected(None, None, None, None, None)

  // What a document says, read from its tree.

  function Leaves(items: Nodes): Option<seq<string>> {
    match items
    case NoNodes => Some([])
    case Next(first, rest) =>
      match Leaves(rest)
      case None => None
      case Some(texts) => if first.Leaf? then Some([first.value] + texts) else None
  }

  predicate IsSplit(key: string) {
    key == "train" || key == "evaluation" || key == "excluded"
  }

  function WithList(lists: Lists, key: string, texts: seq<string>): Lists {
    if key == "train" then lists.(train := texts)
    else if key == "evaluation" then lists.(evaluation := texts)
    else lists.(excluded := texts)
  }

  function ListsOf(entries: Entries, seen: set<string>, lists: Lists): Option<Lists> {
    match entries
    case NoEntries => if "train" in seen && "evaluation" in seen then Some(lists) else None
    case Entry(key, value, rest) =>
      if !key.Leaf? || key.value in seen then None
      else if !IsSplit(key.value) then ListsOf(rest, seen + {key.value}, lists)
      else if !value.Sequence? || Leaves(value.items).None? then None
      else ListsOf(rest, seen + {key.value}, WithList(lists, key.value, Leaves(value.items).value))
  }

  function RepositoriesOf(n: Node): Option<Lists> {
    if n.Mapping? then ListsOf(n.entries, {}, Lists([], [], [])) else None
  }

  function Natural(n: Node): Option<nat> {
    if !n.Leaf? then None
    else
      match ParseInt(n.value)
      case None => None
      case Some(i) => if i < 0 then None else Some(i as nat)
  }

  /** One entry of the root mapping. */
  function Take(c: Collected, key: string, value: Node): Option<Collected> {
    if key == "schema_version" then
      if value.Leaf? then Some(c.(schema := Some(value.value))) else None
    else if key == "repositories" then
      if RepositoriesOf(value).Some? then Some(c.(repositories := RepositoriesOf(value))) else None
    else if key == "input_sha256" then
      if value.Leaf? then Some(c.(inputSha256 := Some(value.value))) else None
    else if key == "input_bytes" then
      if Natural(value).Some? then Some(c.(inputBytes := Natural(value))) else None
    else if key == "sample_count" then
      if Natural(value).Some? then Some(c.(sampleCount := Natural(value))) else None
    else Some(c)
  }

  function CollectedFrom(entries: Entries, seen: set<string>, c: Collected): Option<Collected> {
    match entries
    case NoEntries => Some(c)
    case Entry(key, value, rest) =>
      if !key.Leaf? || key.value in seen then None
      else
        match Take(c, key.value, value)
        case None => None
        case Some(more) => CollectedFrom(rest, seen + {key.value}, more)
  }

  predicate AllNamed(cfg: Settings, texts: seq<string>) {
    forall i :: 0 <= i < |texts| ==> cfg.canonical(texts[i]).Some?
  }

  function Names(cfg: Settings, texts: seq<string>): set<Name>
    requires AllNamed(cfg, texts)
  {
    set i | 0 <= i < |texts| :: cfg.canonical(texts[i]).value
  }

  /** The checks after the document, and the three sorted lists. */
  function Judged(cfg: Settings, c: Collected): Option<Evidence> {
    if c.schema != Some(SCHEMA_VERSION) || c.repositories.None? then None
    else
      var lists := c.repositories.value;
      if !AllNamed(cfg, lists.train) || !AllNamed(cfg, lists.evaluation) || !AllNamed(cfg, lists.excluded) then None
      else
        var train, evaluation := Names(cfg, lists.train), Names(cfg, lists.evaluation);
        var excluded := Names(cfg, lists.excluded);
        if !(train !! evaluation) || !(train !! excluded) || !(evaluation !! excluded) then None
        else Some(Evidence(Ascending(train), Ascending(evaluation), Ascending(excluded),
                           c.inputSha256, c.inputBytes, c.sampleCount))
  }

  /** What reading a document with this root gives; None is a raised error. */
  function EvidenceOf(cfg: Settings, root: Node): Option<Evidence> {
    if !root.Mapping? then None
    else
      match CollectedFrom(root.entries, {}, NOTHING)
      case None => None
      case Some(c) => Judged(cfg, c)
  }

  class Reader {
    const cfg: Settings
    const events: seq<Event>
    var position: nat

    constructor (cfg: Settings, events: seq<Event>)
      ensures this.cfg == cfg && this.events == events && position == 0
    {
      this.cfg, this.events := cfg, events;
      position := 0;
    }

    ghost predicate Valid()
      reads this
    {
      position <= |events|
    }

    /** _next_yaml_event */
    method NextEvent() returns (event: Option<Event>)
      requires Valid()
      modifies this`position
      ensures Valid()
      ensures event == if old(position) < |events| then Some(events[old(position)]) else None
      ensures position == old(position) + if event.Some? then 1 else 0
    {
      if position == |events| { return None; }
      event := Some(events[position]);
      position := position + 1;
    }

    /** The depth-counting loop of _skip_yaml_value, p being where the collection opened. */
    method SkipCollection(ghost p: nat) returns (done: bool)
      requires Valid() && position == p + 1 && Opens(events[p])
      modifies this`position
      ensures Valid() && position >= old(position)
      ensures if done then FirstZero(events, p, position) else NeverZero(events, p)
    {
      var depth := 1;
      while depth != 0
        invariant p < position <= |events| && depth == Depth(events, p, position) && depth >= 0
        invariant forall r :: p < r < position ==> Depth(events, p, r) > 0
        decreases |events| - position
      {
        var event := NextEvent();
        if event.None? { return false; }
        if Opens(event.value) { depth := depth + 1; }
        else if Closes(event.value) { depth := depth - 1; }
      }
      done := true;
    }

    /** _skip_yaml_value, after its first event: on any stream it stops where the depth first returns to zero, and
        on the events of one value exactly behind them. */
    method SkipValue(first: Event, ghost n: Node) returns (done: bool)
      requires Valid() && position > 0 && events[position - 1] == first
      modifies this`position
      ensures Valid() && position >= old(position)
      ensures done && Opens(first) ==> FirstZero(events, old(position) - 1, position)
      ensures At(events, old(position) - 1, n) ==> done && position == old(position) - 1 + Size(n)
    {
      if first.Scalar? || first.Alias? { return true; }
      if !Opens(first) { return false; }
      ghost var p := position - 1;
      done := SkipCollection(p);
      if At(events, p, n) {
        NodeDepth(events, p, n, p + Size(n));
        if done { SkipsOneValue(events, p, n, position); }
      }
    }

    /** One round of the inner loop of _read_repository_mapping. */
    method ReadItem(values0: seq<string>, ghost good: bool, ghost rest: Nodes, ghost end: nat, ghost items: Nodes)
      returns (step: Step, values: seq<string>)
      requires Valid() && (good ==> ListLeft(events, position, rest, end, items, values0))
      modifies this`position
      ensures Valid() && position >= old(position) && (step.More? ==> position > old(position))
      ensures good && step.More? ==> rest.Next? && ListLeft(events, position, rest.rest, end, items, values)
      ensures good && step.Over? ==> Leaves(items) == Some(values) && position == end + 1
      ensures good && step.Error? ==> Leaves(items) == None
    {
      values := values0;
      var item := NextEvent();
      if item.None? { return Error, values; }
      if item.value.SequenceEnd? {
        if good { ListEnds(events, position - 1, rest, end, items, values); }
        return Over, values;
      }
      if good { ListGoesOn(events, position - 1, rest, end, items, values); }
      if !item.value.Scalar? { return Error, values; }
      step, values := More, values + [item.value.value];
    }

    /** The inner loop of _read_repository_mapping: the scalars of one list. */
    method ReadList(ghost good: bool, ghost items: Nodes) returns (result: Option<seq<string>>)
      requires Valid()
      requires good ==> NodesAt(events, position, items) && ClosesAt(events, position + NodesSize(items))
      modifies this`position
      ensures Valid() && position >= old(position)
      ensures good ==> result == Leaves(items)
      ensures good && result.Some? ==> position == old(position) + NodesSize(items) + 1
    {
      var values: seq<string> := [];
      assert Leaves(items).Some? ==> [] + Leaves(items).value == Leaves(items).value;
      ghost var rest, end := items, position + NodesSize(items);
      var step := More;
      while step.More?
        invariant old(position) <= position <= |events|
        invariant good && step.More? ==> ListLeft(events, position, rest, end, items, values)
        invariant good && step.Over? ==> Leaves(items) == Some(values) && position == end + 1
        invariant good && step.Error? ==> Leaves(items) == None
        decreases step.More?, |events| - position
      {
        step, values := ReadItem(values, good, rest, end, items);
        if good && step.More? { rest := rest.rest; }
      }
      result := if step.Over? then Some(values) else None;
    }

    /** _read_repository_mapping, after its first event. */
    method ReadRepositoryMapping(first: Event, ghost good: bool, ghost n: Node) returns (result: Option<Lists>)
      requires Valid() && position > 0 && events[position - 1] == first
      requires good ==> At(events, position - 1, n)
      modifies this`position
      ensures Valid() && position >= old(position)
      ensures good ==> result == RepositoriesOf(n)
      ensures good && result.Some? ==> position == old(position) - 1 + Size(n)
    {
      if !first.MappingStart? { return None; }
      var lists := Lists([], [], []);
      var seen: set<string> := {};
      ghost var rest, end := if good then n.entries else NoEntries, position - 2 + Size(n);
      while true
        invariant old(position) <= position <= |events|
        invariant good ==> EntriesAt(events, position, rest) && position + EntriesSize(rest) == end < |events|
        invariant good ==> events[end] == MappingEnd && RepositoriesOf(n) == ListsOf(rest, seen, lists)
        decreases |events| - position
      {
        var key := NextEvent();
        if key.None? { return None; }
        if key.value.MappingEnd? {
          return if "train" in seen && "evaluation" in seen then Some(lists) else None;
        }
        if !key.value.Scalar? || key.value.value in seen { return None; }
        seen := seen + {key.value.value};
        var done;
        done, lists := ReadSplit(key.value.value, lists, good, if good then rest.value else Reference);
        if !done { return None; }
        if good { rest := rest.rest; }
      }
    }

    /** The value of one root entry, after its key. */
    method ReadValue(key: string, c0: Collected, ghost good: bool, ghost n: Node) returns (done: bool, c: Collected)
      requires Valid() && (good ==> At(events, position, n))
      modifies this`position
      ensures Valid() && position >= old(position)
      ensures good ==> (done <==> Take(c0, key, n).Some?)
      ensures good && done ==> Take(c0, key, n) == Some(c) && position == old(position) + Size(n)
    {
      c := c0;
      var value := NextEvent();
      if value.None? { return false, c; }
      if key == "repositories" {
        var lists := ReadRepositoryMapping(value.value, good, n);
        return lists.Some?, c.(repositories := lists);
      }
      if !IsScalarKey(key) {
        done := SkipValue(value.value, n);
        return;
      }
      if !value.value.Scalar? { return false, c; }
      var text := value.value.value;
      if key == "schema_version" { return true, c.(schema := Some(text)); }
      if key == "input_sha256" { return true, c.(inputSha256 := Some(text)); }
      var integer := ParseInt(text);
      if integer.None? || integer.value < 0 { return false, c; }
      done := true;
      c := if key == "input_bytes" then c.(inputBytes := Some(integer.value))
           else c.(sampleCount := Some(integer.value));
    }

    /** One round of the loop over the root mapping. */
    method ReadEntry(c0: Collected, seen0: set<string>, ghost good: bool, ghost rest: Entries, ghost end: nat,
                     ghost entries: Entries)
      returns (step: Step, c: Collected, seen: set<string>)
      requires Valid() && (good ==> RootLeft(events, position, rest, end, entries, seen0, c0))
      modifies this`position
      ensures Valid() && position >= old(position) && (step.More? ==> position > old(position))
      ensures good && step.More? ==> rest.Entry? && RootLeft(events, position, rest.rest, end, entries, seen, c)
      ensures good && step.Over? ==> CollectedFrom(entries, {}, NOTHING) == Some(c) && position == end + 1
      ensures good && step.Error? ==> CollectedFrom(entries, {}, NOTHING) == None
    {
      c, seen := c0, seen0;
      var key := NextEvent();
      if key.None? { return Error, c, seen; }
      if good {
        EntryDecides(events, position - 1, rest, end, entries, seen, c);
      }
      if key.value.MappingEnd? { return Over, c, seen; }
      if !key.value.Scalar? || key.value.value in seen { return Error, c, seen; }
      var done, more := ReadValue(key.value.value, c, good, if good then rest.value else Reference);
      return if done then More else Error, more, seen + {key.value.value};
    }

    /** The loop over the root mapping. */
    method ReadRoot(ghost good: bool, ghost entries: Entries) returns (result: Option<Collected>)
      requires Valid()
      requires good ==> EntriesAt(events, position, entries) && EndsAt(events, position + EntriesSize(entries))
      modifies this`position
      ensures Valid() && position >= old(position)
      ensures good ==> result == CollectedFrom(entries, {}, NOTHING)
      ensures good && result.Some? ==> position == old(position) + EntriesSize(entries) + 1
    {
      var c, seen: set<string>, step := NOTHING, {}, More;
      ghost var rest, end := entries, position + EntriesSize(entries);
      while step.More?
        invariant old(position) <= position <= |events|
        invariant good && step.More? ==> RootLeft(events, position, rest, end, entries, seen, c)
        invariant good && step.Over? ==> CollectedFrom(entries, {}, NOTHING) == Some(c) && position == end + 1
        invariant good && step.Error? ==> CollectedFrom(entries, {}, NOTHING) == None
        decreases step.More?, |events| - position
      {
        step, c, seen := ReadEntry(c, seen, good, rest, end, entries);
        if good && step.More? { rest := rest.rest; }
      }
      result := if step.Over? then Some(c) else None;
    }

    method Expect(event: Event) returns (met: bool)
      requires Valid()
      modifies this`position
      ensures Valid() && position >= old(position)
      ensures met ==> old(position) < |events| && events[old(position)] == event && position == old(position) + 1
      ensures old(position) < |events| && events[old(position)] == event ==> met
    {
      var next := NextEvent();
      met := next == Some(event);
    }

    /** The three events before the root's entries. */
    method ReadStart(ghost root: Node) returns (met: bool)
      requires position == 0
      modifies this`position
      ensures Valid()
      ensures met ==>
                && position == 3 && events[0] == StreamStart && events[1] == DocumentStart
                && events[2] == MappingStart
      ensures Begins(events, root) ==> (met <==> root.Mapping?)
    {
      met := Expect(StreamStart);
      if met { met := Expect(DocumentStart); }
      if met { met := Expect(MappingStart); }
    }

    /** The two events after the root. */
    method ReadEnd() returns (met: bool)
      requires Valid()
      modifies this`position
      ensures Valid() && (met ==> EndsDocument(events, position))
      ensures met <==> EndsDocument(events, old(position) + 2)
    {
      met := Expect(DocumentEnd);
      if met { met := Expect(StreamEnd); }
    }

    /** read_repository_split_evidence, for a stream whose first document has this root: it returns what the document
        says if that is a split manifest and nothing follows the document, and raises otherwise. */
    method ReadDocument(ghost root: Node) returns (result: Option<Evidence>)
      requires position == 0
      modifies this`position
      ensures Begins(events, root) ==>
                result == if EndsDocument(events, 4 + Size(root)) then EvidenceOf(cfg, root) else None
      ensures result.Some? ==>
                && |events| > 3 && events[0] == StreamStart && events[1] == DocumentStart
                && events[2] == MappingStart
      ensures result.Some? ==> position <= |events| && EndsDocument(events, position)
    {
      ghost var good := Begins(events, root);
      var met := ReadStart(root);
      if !met { return None; }
      var c := ReadRoot(good && root.Mapping?, if good && root.Mapping? then root.entries else NoEntries);
      if c.None? { return None; }
      met := ReadEnd();
      if !met { return None; }
      result := Judge(cfg, c.value);
    }

    /** read_repository_split_evidence. whole is the stream of a text without errors; events is that stream, or the
        part of it before an error that the parser then raises. The result is what the text says if it is one document
        that is a split manifest, and in every other case the program raises. */
    method ReadEvidence(ghost whole: seq<Event>, ghost docs: Documents) returns (result: Option<Evidence>)
      requires position == 0
      modifies this`position
      ensures Stream(whole, docs) && events <= whole ==>
                result == if events == whole && IsOne(docs) then EvidenceOf(cfg, docs.root) else None
      ensures result.Some? ==> position <= |events| && EndsDocument(events, position)
    {
      ghost var root := if docs.OneMore? then docs.root else Reference;
      result := ReadDocument(root);
      if Stream(whole, docs) && events <= whole {
        if result.Some? { StreamEndsOnce(whole, 1, docs, position - 1); }
        if events == whole && docs.OneMore? { AfterFirst(events, docs); }
      }
    }

    /** One entry of the repositories mapping, after its key. */
    method ReadSplit(key: string, lists0: Lists, ghost good: bool, ghost n: Node) returns (done: bool, lists: Lists)
      requires Valid() && (good ==> At(events, position, n))
      modifies this`position
      ensures Valid() && position >= old(position)
      ensures good && done ==> position == old(position) + Size(n)
      ensures good && !IsSplit(key) ==> done && lists == lists0
      ensures good && IsSplit(key) ==> (done <==> n.Sequence? && Leaves(n.items).Some?)
      ensures good && IsSplit(key) && done ==> lists == WithList(lists0, key, Leaves(n.items).value)
    {
      lists := lists0;
      var value := NextEvent();
      if value.None? { return false, lists; }
      if !IsSplit(key) {
        done := SkipValue(value.value, n);
        return;
      }
      if !value.value.SequenceStart? { return false, lists; }
      var texts := ReadList(good, if good then n.items else NoNodes);
      if texts.None? { return false, lists; }
      done, lists := true, WithList(lists, key, texts.value);
    }
  }

  /** The checks after the document. */
  method Judge(cfg: Settings, c: Collected) returns (result: Option<Evidence>)
    ensures result == Judged(cfg, c)
  {
    if c.schema != Some(SCHEMA_VERSION) || c.repositories.None? { return None; }
    var lists := c.repositories.value;
    if !AllNamed(cfg, lists.train) || !AllNamed(cfg, lists.evaluation) || !AllNamed(cfg, lists.excluded) {
      return None;
    }
    var train, evaluation := Names(cfg, lists.train), Names(cfg, lists.evaluation);
    var excluded := Names(cfg, lists.excluded);
    if !(train !! evaluation) || !(train !! excluded) || !(evaluation !! excluded) { return None; }
    result := Some(Evidence(Ascending(train), Ascending(evaluation), Ascending(excluded),
                            c.inputSha256, c.inputBytes, c.sampleCount));
  }

  /** The document and the stream have ended just before p: there is no second document. */
  predicate EndsDocument(events: seq<Event>, p: nat) {
    2 <= p <= |events| && events[p - 2] == DocumentEnd && events[p - 1] == StreamEnd
  }

  predicate IsOne(docs: Documents) {
    docs.OneMore? && docs.rest.NoDocuments?
  }

  /** Behind the first document the stream ends if and only if there is no second. */
  lemma {:induction false} AfterFirst(events: seq<Event>, docs: Documents)
    requires Stream(events, docs) && docs.OneMore?
    ensures Begins(events, docs.root)
    ensures EndsDocument(events, 4 + Size(docs.root)) <==> IsOne(docs)
  {
    assert DocumentsAt(events, 3 + Size(docs.root), docs.rest);
  }

  predicate IsScalarKey(key: string) {
    key == "schema_version" || key == "input_sha256" || key == "input_bytes" || key == "sample_count"
  }

  predicate EndsAt(events: seq<Event>, p: nat) {
    p < |events| && events[p] == MappingEnd
  }

  /** How one round of a reading loop ends. */
  datatype Step = More | Over | Error

  /** While reading the root: rest is still to come, and going on from c gives what the whole mapping gives. */
  predicate RootLeft(events: seq<Event>, p: nat, rest: Entries, end: nat, entries: Entries, seen: set<string>,
                     c: Collected)
  {
    && EntriesAt(events, p, rest) && p + EntriesSize(rest) == end && EndsAt(events, end)
    && CollectedFrom(entries, {}, NOTHING) == CollectedFrom(rest, seen, c)
  }

  /** What the next event says about the reading of the root. */
  lemma {:induction false} EntryDecides(events: seq<Event>, p: nat, rest: Entries, end: nat, entries: Entries,
                                        seen: set<string>, c: Collected)
    requires RootLeft(events, p, rest, end, entries, seen, c)
    ensures p < |events|
    ensures events[p].MappingEnd? ==> CollectedFrom(entries, {}, NOTHING) == Some(c) && p == end
    ensures !events[p].MappingEnd? && !events[p].Scalar? ==> CollectedFrom(entries, {}, NOTHING) == None
    ensures events[p].Scalar? ==>
              && rest.Entry? && At(events, p + 1, rest.value)
              && Goes(events, p, rest, end, entries, seen, c, events[p].value)
  {
    if rest.Entry? { assert At(events, p, rest.key); }
  }

  /** Reading goes on past an entry with a new key and a value that is taken, and fails on any other. */
  predicate Goes(events: seq<Event>, p: nat, rest: Entries, end: nat, entries: Entries, seen: set<string>,
                 c: Collected, key: string)
    requires rest.Entry?
  {
    var more := Take(c, key, rest.value);
    if key in seen || more.None? then CollectedFrom(entries, {}, NOTHING) == None
    else RootLeft(events, p + 1 + Size(rest.value), rest.rest, end, entries, seen + {key}, more.value)
  }

  predicate ClosesAt(events: seq<Event>, p: nat) {
    p < |events| && events[p] == SequenceEnd
  }

  /** While reading a list: rest is still to come, and with it the values are those of the whole list. */
  predicate ListLeft(events: seq<Event>, p: nat, rest: Nodes, end: nat, items: Nodes, values: seq<string>) {
    && NodesAt(events, p, rest) && p + NodesSize(rest) == end && ClosesAt(events, end)
    && Leaves(items) == Prefixed(values, Leaves(rest))
  }

  /** A value never starts with the end of a collection. */
  lemma {:induction false} StartsOpen(events: seq<Event>, p: nat, items: Nodes)
    requires NodesAt(events, p, items)
    ensures items.Next? ==> p < |events| && !Closes(events[p])
  {
    if items.Next? { assert At(events, p, items.first); }
  }

  lemma {:induction false} ListEnds(events: seq<Event>, p: nat, rest: Nodes, end: nat, items: Nodes,
                                    values: seq<string>)
    requires ListLeft(events, p, rest, end, items, values) && events[p] == SequenceEnd
    ensures Leaves(items) == Some(values) && p == end
  {
    StartsOpen(events, p, rest);
    assert values + [] == values;
  }

  lemma {:induction false} ListGoesOn(events: seq<Event>, p: nat, rest: Nodes, end: nat, items: Nodes,
                                      values: seq<string>)
    requires ListLeft(events, p, rest, end, items, values) && events[p] != SequenceEnd
    ensures rest.Next?
    ensures events[p].Scalar? ==> ListLeft(events, p + 1, rest.rest, end, items, values + [events[p].value])
    ensures !events[p].Scalar? ==> Leaves(items) == None
  {
    assert At(events, p, rest.first);
    if events[p].Scalar? && Leaves(rest.rest).Some? {
      assert values + [events[p].value] + Leaves(rest.rest).value
             == values + ([events[p].value] + Leaves(rest.rest).value);
    }
  }

  function Prefixed(values: seq<string>, tail: Option<seq<string>>): Option<seq<string>> {
    match tail
    case None => None
    case Some(texts) => Some(values + texts)
  }
}
