/** What the reader recovers from what the writer prints. */
module SplitRoundTrip {
  import opened Cursors
  import opened Integers
  import opened Wrappers
  import opened Json
  import opened YamlEvents
  import opened SplitWriter
  import opened SplitReader

  // The tree a parser gives for the canonical text of a value: members in key order, scalars as their text.

  function NodeOf(v: Value): Node
    decreases v
  {
    match v
    case Null => Leaf("null")
    case Number(text) => Leaf(text)
    case Text(value) => Leaf(value)
    case List(items) => Sequence(NodesOf(items))
    case Object(fields) => Mapping(SortedEntries(EntriesOf(fields)))
  }

  function NodesOf(items: Items): Nodes
    decreases items
  {
    match items
    case NoItems => NoNodes
    case Item(v, rest) => Next(NodeOf(v), NodesOf(rest))
  }

  function EntriesOf(fields: Fields): Entries
    decreases fields
  {
    match fields
    case NoFields => NoEntries
    case Field(key, value, rest) => Entry(Leaf(key), NodeOf(value), EntriesOf(rest))
  }

  function InsertEntry(key: Node, value: Node, entries: Entries): Entries {
    match entries
    case NoEntries => Entry(key, value, NoEntries)
    case Entry(k, v, rest) =>
      if key.Leaf? && k.Leaf? && Less(key.value, k.value) then Entry(key, value, entries)
      else Entry(k, v, InsertEntry(key, value, rest))
  }

  function SortedEntries(entries: Entries): Entries {
    match entries
    case NoEntries => NoEntries
    case Entry(key, value, rest) => InsertEntry(key, value, SortedEntries(rest))
  }

  lemma {:induction false} FieldsStayInOrder(fields: Fields)
    requires Json.Ascending(MembersOf(fields))
    ensures SortedEntries(EntriesOf(fields)) == EntriesOf(fields)
  {
    match fields
    case NoFields =>
    case Field(_, _, rest) => FieldsStayInOrder(rest);
  }

  // Reading fields in key order: no key is met twice.

  /** The root loop on fields, without the duplicate check. */
  function Folded(fields: Fields, c: Collected): Option<Collected> {
    match fields
    case NoFields => Some(c)
    case Field(key, value, rest) =>
      match Take(c, key, NodeOf(value))
      case None => None
      case Some(more) => Folded(rest, more)
  }

  ghost predicate Below(seen: set<string>, fields: Fields) {
    fields.Field? ==> forall k :: k in seen ==> Less(k, fields.key)
  }

  lemma {:induction false} BelowMore(seen: set<string>, fields: Fields)
    requires fields.Field? && Below(seen, fields) && Json.Ascending(MembersOf(fields))
    ensures fields.key !in seen && Below(seen + {fields.key}, fields.rest)
  {
    LessIrreflexive(fields.key, 0);
    if fields.rest.Field? {
      assert Above(fields.key, MembersOf(fields.rest)) && MembersOf(fields.rest).key == fields.rest.key;
      forall k | k in seen + {fields.key} ensures Less(k, fields.rest.key) {
        if k in seen { LessTrans(k, fields.key, fields.rest.key, 0); }
      }
    }
  }

  lemma {:induction false} NoKeyTwice(fields: Fields, seen: set<string>, c: Collected)
    requires Json.Ascending(MembersOf(fields)) && Below(seen, fields)
    ensures CollectedFrom(EntriesOf(fields), seen, c) == Folded(fields, c)
    decreases fields
  {
    match fields
    case NoFields =>
    case Field(key, value, rest) =>
      BelowMore(seen, fields);
      match Take(c, key, NodeOf(value)) {
        case None =>
        case Some(more) => NoKeyTwice(rest, seen + {key}, more);
      }
  }

  // The repositories.

  lemma {:induction false} TextsAreLeaves(texts: seq<string>, n: nat)
    requires n <= |texts|
    ensures Leaves(NodesOf(TextItems(texts, n))) == Some(texts[n..])
    decreases |texts| - n
  {
    if n < |texts| {
      TextsAreLeaves(texts, n + 1);
      assert texts[n..] == [texts[n]] + texts[n + 1..];
    } else {
      assert texts[n..] == [];
    }
  }

  lemma {:induction false} ListIsRead(texts: seq<string>)
    ensures NodeOf(List(TextItems(texts, 0))).Sequence?
    ensures Leaves(NodeOf(List(TextItems(texts, 0))).items) == Some(texts)
  {
    TextsAreLeaves(texts, 0);
    assert texts[0..] == texts;
  }

  lemma {:induction false} RepositoriesAreRead(m: Manifest)
    ensures RepositoriesOf(NodeOf(Object(EvaluationOn(m)))) == Some(Lists(m.train, m.evaluation, m.excluded))
  {
    RepositoriesAscend(m);
    FieldsStayInOrder(EvaluationOn(m));
    ListIsRead(m.evaluation);
    ListIsRead(m.excluded);
    ListIsRead(m.train);
    var e, x, t := EntriesOf(EvaluationOn(m)), EntriesOf(ExcludedOn(m)), EntriesOf(Train(m));
    assert e == Entry(Leaf("evaluation"), NodeOf(List(TextItems(m.evaluation, 0))), x);
    assert x == Entry(Leaf("excluded"), NodeOf(List(TextItems(m.excluded, 0))), t);
    assert t == Entry(Leaf("train"), NodeOf(List(TextItems(m.train, 0))), NoEntries);
    var none: set<string> := {};
    var one := none + {"evaluation"};
    var two := one + {"excluded"};
    assert ListsOf(e, none, Lists([], [], [])) == ListsOf(x, one, Lists([], m.evaluation, []));
    assert ListsOf(x, one, Lists([], m.evaluation, [])) == ListsOf(t, two, Lists([], m.evaluation, m.excluded));
    assert ListsOf(t, two, Lists([], m.evaluation, m.excluded))
        == ListsOf(NoEntries, two + {"train"}, Lists(m.train, m.evaluation, m.excluded));
  }

  /** A field the reader skips. */
  lemma {:induction false} Skipped(key: string, value: Value, rest: Fields, c: Collected)
    requires !IsScalarKey(key) && key != "repositories"
    ensures Folded(Field(key, value, rest), c) == Folded(rest, c)
  {
  }

  lemma {:induction false} HeadIsRead(m: Manifest)
    ensures Folded(ManifestFields(m), NOTHING) == Folded(InputBytesOn(m), NOTHING)
  {
    Skipped("aliases_sha256", m.aliasesSha256, AssignmentsOn(m), NOTHING);
    Skipped("assignments", List(AssignmentItems(m.assignments, 0)), ConfigOn(m), NOTHING);
    Skipped("config_digest", Text(m.configDigest), DecontaminationOn(m), NOTHING);
    Skipped("decontamination", m.decontamination, FractionOn(m), NOTHING);
    Skipped("evaluation_fraction", Number(m.evaluationFraction), InputBytesOn(m), NOTHING);
  }

  lemma {:induction false} CountIsTaken(text: string, n: nat, rest: Fields, c: Collected)
    requires ParseInt(text) == Some(n)
    ensures Folded(Field("sample_count", Number(text), rest), c) == Folded(rest, c.(sampleCount := Some(n)))
    ensures Folded(Field("input_bytes", Number(text), rest), c) == Folded(rest, c.(inputBytes := Some(n)))
  {
  }

  lemma {:induction false} CountIsRead(m: Manifest, c: Collected)
    ensures Folded(SampleCountOn(m), c) == Folded(SchemaOn(m), c.(sampleCount := Some(m.sampleCount)))
  {
    ParseDecimal(m.sampleCount);
    CountIsTaken(Decimal(m.sampleCount), m.sampleCount, SchemaOn(m), c);
  }

  lemma {:induction false} SchemaIsRead(m: Manifest, c: Collected)
    ensures Folded(SchemaOn(m), c) == Some(c.(schema := Some(SCHEMA)))
  {
    assert Take(c, "schema_version", NodeOf(Text(SCHEMA))) == Some(c.(schema := Some(SCHEMA)));
    Skipped("seed", Number(m.seed), NoFields, c.(schema := Some(SCHEMA)));
  }

  lemma {:induction false} TailIsRead(m: Manifest, c: Collected)
    ensures Folded(RepositoriesOn(m), c)
         == Some(c.(schema := Some(SCHEMA), repositories := Some(Lists(m.train, m.evaluation, m.excluded)),
                    sampleCount := Some(m.sampleCount)))
  {
    RepositoriesAreRead(m);
    var c1 := c.(repositories := Some(Lists(m.train, m.evaluation, m.excluded)));
    assert Take(c, "repositories", NodeOf(Object(EvaluationOn(m)))) == Some(c1);
    assert Folded(RepositoriesOn(m), c) == Folded(SampleCountOn(m), c1);
    CountIsRead(m, c1);
    SchemaIsRead(m, c1.(sampleCount := Some(m.sampleCount)));
  }

  // Names that are their own canonical form.

  /** The list holds the printed forms of these names, each of which reads back as the name. */
  ghost predicate Prints(cfg: SplitReader.Settings, texts: seq<string>, names: seq<Name>) {
    && |texts| == |names| && StrictlyIncreasing(names)
    && forall i :: 0 <= i < |texts| ==> cfg.canonical(texts[i]) == Some(names[i])
  }

  ghost predicate Apart(a: seq<Name>, b: seq<Name>) {
    forall x :: !(x in a && x in b)
  }

  lemma {:induction false} NamesAreRead(cfg: SplitReader.Settings, texts: seq<string>, names: seq<Name>)
    requires Prints(cfg, texts, names)
    ensures AllNamed(cfg, texts) && Names(cfg, texts) == Elements(names)
            && Cursors.Ascending(Names(cfg, texts)) == names
  {
    forall x ensures x in Names(cfg, texts) <==> x in names {
      if x in names {
        var i :| 0 <= i < |names| && names[i] == x;
        assert cfg.canonical(texts[i]).value == x;
      }
    }
    AscendingUnique(Cursors.Ascending(Names(cfg, texts)), names);
  }

  function CollectedOf(m: Manifest): Collected {
    Collected(Some(SCHEMA), Some(Lists(m.train, m.evaluation, m.excluded)),
              Some(m.inputSha256), Some(m.inputBytes), Some(m.sampleCount))
  }

  lemma {:induction false} InputIsRead(m: Manifest)
    ensures Folded(InputBytesOn(m), NOTHING)
         == Folded(RepositoriesOn(m), Collected(None, None, Some(m.inputSha256), Some(m.inputBytes), None))
  {
    ParseDecimal(m.inputBytes);
    CountIsTaken(Decimal(m.inputBytes), m.inputBytes, InputSha256On(m), NOTHING);
    DigestIsRead(m, NOTHING.(inputBytes := Some(m.inputBytes)));
  }

  lemma {:induction false} DigestIsRead(m: Manifest, c: Collected)
    ensures Folded(InputSha256On(m), c) == Folded(RepositoriesOn(m), c.(inputSha256 := Some(m.inputSha256)))
  {
    assert Take(c, "input_sha256", NodeOf(Text(m.inputSha256))) == Some(c.(inputSha256 := Some(m.inputSha256)));
  }

  lemma {:induction false} ManifestIsCollected(m: Manifest)
    ensures Folded(ManifestFields(m), NOTHING) == Some(CollectedOf(m))
  {
    HeadIsRead(m);
    InputIsRead(m);
    TailIsRead(m, Collected(None, None, Some(m.inputSha256), Some(m.inputBytes), None));
  }

  lemma {:induction false} RootIsCollected(m: Manifest, fields: Fields)
    requires fields == ManifestFields(m)
    ensures NodeOf(Object(fields)) == Mapping(EntriesOf(fields))
    ensures CollectedFrom(EntriesOf(fields), {}, NOTHING) == Folded(fields, NOTHING)
  {
    ManifestAscends(m);
    FieldsStayInOrder(fields);
    NoKeyTwice(fields, {}, NOTHING);
  }

  lemma {:induction false} NamesAreJudged(cfg: SplitReader.Settings, c: Collected, train: seq<Name>,
                                          evaluation: seq<Name>, excluded: seq<Name>)
    requires c.schema == Some(SCHEMA_VERSION) && c.repositories.Some?
    requires var lists := c.repositories.value;
             && Prints(cfg, lists.train, train) && Prints(cfg, lists.evaluation, evaluation)
             && Prints(cfg, lists.excluded, excluded)
    requires Apart(train, evaluation) && Apart(train, excluded) && Apart(evaluation, excluded)
    ensures Judged(cfg, c) == Some(Evidence(train, evaluation, excluded, c.inputSha256, c.inputBytes, c.sampleCount))
  {
    var lists := c.repositories.value;
    NamesAreRead(cfg, lists.train, train);
    NamesAreRead(cfg, lists.evaluation, evaluation);
    NamesAreRead(cfg, lists.excluded, excluded);
    assert Elements(train) !! Elements(evaluation) && Elements(train) !! Elements(excluded)
           && Elements(evaluation) !! Elements(excluded);
  }

  /** The reader recovers from the printed manifest the three repository lists, the input identity and the sample
      count, when the names are canonical fixed points listed in order and no split shares one. */
  lemma {:induction false} RoundTrip(cfg: SplitReader.Settings, m: Manifest, train: seq<Name>, evaluation: seq<Name>,
                                     excluded: seq<Name>)
    requires Prints(cfg, m.train, train) && Prints(cfg, m.evaluation, evaluation) && Prints(cfg, m.excluded, excluded)
    requires Apart(train, evaluation) && Apart(train, excluded) && Apart(evaluation, excluded)
    ensures EvidenceOf(cfg, NodeOf(Object(ManifestFields(m)))) ==
              Some(Evidence(train, evaluation, excluded, Some(m.inputSha256), Some(m.inputBytes), Some(m.sampleCount)))
  {
    var fields := ManifestFields(m);
    RootIsCollected(m, fields);
    ManifestIsCollected(m);
    NamesAreJudged(cfg, CollectedOf(m), train, evaluation, excluded);
  }

  /** Reading a stream of one document. */
  method ReadOne(cfg: SplitReader.Settings, events: seq<Event>, ghost root: Node) returns (result: Option<Evidence>)
    requires Document(events, root)
    ensures result == EvidenceOf(cfg, root)
  {
    var reader := new Reader(cfg, events);
    DocumentIsStream(events, root);
    result := reader.ReadEvidence(events, OneMore(root, NoDocuments));
  }

  /** Reading the events of a printed manifest. */
  method ReadBack(cfg: SplitReader.Settings, m: Manifest, events: seq<Event>, ghost train: seq<Name>,
                  ghost evaluation: seq<Name>, ghost excluded: seq<Name>)
    returns (result: Option<Evidence>)
    requires Document(events, NodeOf(Object(ManifestFields(m))))
    requires Prints(cfg, m.train, train) && Prints(cfg, m.evaluation, evaluation) && Prints(cfg, m.excluded, excluded)
    requires Apart(train, evaluation) && Apart(train, excluded) && Apart(evaluation, excluded)
    ensures result == Some(Evidence(train, evaluation, excluded, Some(m.inputSha256), Some(m.inputBytes),
            Some(m.sampleCount)))
  {
    result := ReadOne(cfg, events, NodeOf(Object(ManifestFields(m))));
    RoundTrip(cfg, m, train, evaluation, excluded);
  }
}
