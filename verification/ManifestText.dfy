/** The text of a printed manifest: what stands under which key in it, and what the reader of the split makes of it. */
module ManifestText {
  import opened Cursors
  import opened Integers
  import opened Wrappers
  import opened Json
  import opened JsonReader
  import opened CanonicalText
  import opened YamlEvents
  import opened SplitWriter
  import opened SplitReader
  import opened SplitRoundTrip

  /** The object a JSON reader finds in the written text. */
  function ReadBackOf(m: Manifest): Option<Value> {
    ReadText(Canon(Object(ManifestFields(m))) + "\n")
  }

  /** The value under a key of an object. */
  predicate Under(v: Value, key: string, value: Value) {
    v.Object? && HasField(v.fields, key) && FieldAt(v.fields, key) == value
  }

  // What stands under which key.

  lemma {:induction false} FieldSkipped(fields: Fields, key: string)
    requires fields.Field? && fields.key != key
    ensures HasField(fields, key) <==> HasField(fields.rest, key)
    ensures HasField(fields, key) ==> FieldAt(fields, key) == FieldAt(fields.rest, key)
  {
  }

  /** A key of the manifest is a key of the object read back, with its value in key order. */
  lemma {:induction false} ReadUnder(m: Manifest, key: string)
    requires Printable(m) && HasField(ManifestFields(m), key)
    ensures ReadBackOf(m).Some? && Under(ReadBackOf(m).value, key, Ordered(FieldAt(ManifestFields(m), key)))
  {
    ManifestIsJson(m);
    ManifestAscends(m);
    KeysOnce(ManifestFields(m));
    UnderOrdered(ManifestFields(m), key);
  }

  lemma {:induction false} UnderOrdered(fields: Fields, key: string)
    requires DistinctKeys(fields) && HasField(fields, key)
    ensures Under(Ordered(Object(fields)), key, Ordered(FieldAt(fields, key)))
  {
    OrderedFieldsAt(fields, key);
    OrderedDistinct(fields);
    SortedFieldsAt(OrderedFields(fields), key);
  }

  lemma {:induction false} SeedByName(m: Manifest)
    ensures HasField(SampleCountOn(m), "seed") && FieldAt(SampleCountOn(m), "seed") == Number(m.seed)
    ensures HasField(SampleCountOn(m), "schema_version") && FieldAt(SampleCountOn(m), "schema_version") == Text(SCHEMA)
    ensures HasField(SampleCountOn(m), "sample_count")
    ensures FieldAt(SampleCountOn(m), "sample_count") == Number(Decimal(m.sampleCount))
  {
    FieldSkipped(SampleCountOn(m), "seed");
    FieldSkipped(SchemaOn(m), "seed");
    FieldSkipped(SampleCountOn(m), "schema_version");
  }

  /** The last of the fields, from the input's size on. */
  ghost predicate TailNamed(m: Manifest, fields: Fields) {
    && HasField(fields, "seed") && FieldAt(fields, "seed") == Number(m.seed)
    && HasField(fields, "schema_version") && FieldAt(fields, "schema_version") == Text("nodelm.repository-split/v1")
    && HasField(fields, "sample_count") && FieldAt(fields, "sample_count") == Number(Decimal(m.sampleCount))
    && HasField(fields, "repositories") && FieldAt(fields, "repositories") == Object(EvaluationOn(m))
    && HasField(fields, "input_sha256") && FieldAt(fields, "input_sha256") == Text(m.inputSha256)
    && HasField(fields, "input_bytes") && FieldAt(fields, "input_bytes") == Number(Decimal(m.inputBytes))
  }

  ghost predicate HeadNamed(m: Manifest, fields: Fields) {
    && HasField(fields, "evaluation_fraction") && FieldAt(fields, "evaluation_fraction") == Number(m.evaluationFraction)
    && HasField(fields, "decontamination") && FieldAt(fields, "decontamination") == m.decontamination
    && HasField(fields, "config_digest") && FieldAt(fields, "config_digest") == Text(m.configDigest)
    && HasField(fields, "assignments") && FieldAt(fields, "assignments") == List(AssignmentItems(m.assignments, 0))
    && HasField(fields, "aliases_sha256") && FieldAt(fields, "aliases_sha256") == m.aliasesSha256
  }

  /** A field in front that has none of the names of the last. */
  lemma {:induction false} TailStays(m: Manifest, fields: Fields)
    requires fields.Field? && TailNamed(m, fields.rest)
    requires fields.key !in {"seed", "schema_version", "sample_count", "repositories", "input_sha256", "input_bytes"}
    ensures TailNamed(m, fields)
  {
    FieldSkipped(fields, "seed");
    FieldSkipped(fields, "schema_version");
    FieldSkipped(fields, "sample_count");
    FieldSkipped(fields, "repositories");
    FieldSkipped(fields, "input_sha256");
    FieldSkipped(fields, "input_bytes");
  }

  lemma {:induction false} InputNamed(m: Manifest)
    ensures TailNamed(m, InputBytesOn(m))
  {
    SeedByName(m);
    FieldSkipped(RepositoriesOn(m), "seed");
    FieldSkipped(RepositoriesOn(m), "schema_version");
    FieldSkipped(RepositoriesOn(m), "sample_count");
    FieldSkipped(InputSha256On(m), "seed");
    FieldSkipped(InputSha256On(m), "schema_version");
    FieldSkipped(InputSha256On(m), "sample_count");
    FieldSkipped(InputSha256On(m), "repositories");
    FieldSkipped(InputBytesOn(m), "seed");
    FieldSkipped(InputBytesOn(m), "schema_version");
    FieldSkipped(InputBytesOn(m), "sample_count");
    FieldSkipped(InputBytesOn(m), "repositories");
    FieldSkipped(InputBytesOn(m), "input_sha256");
  }

  lemma {:induction false} ManifestTailNamed(m: Manifest)
    ensures TailNamed(m, ManifestFields(m))
  {
    InputNamed(m);
    TailStays(m, FractionOn(m));
    TailStays(m, DecontaminationOn(m));
    TailStays(m, ConfigOn(m));
    TailStays(m, AssignmentsOn(m));
    TailStays(m, ManifestFields(m));
  }

  lemma {:induction false} ManifestHeadNamed(m: Manifest)
    ensures HeadNamed(m, ManifestFields(m))
  {
    var f, d, c, a := FractionOn(m), DecontaminationOn(m), ConfigOn(m), AssignmentsOn(m);
    FieldSkipped(d, "evaluation_fraction");
    FieldSkipped(c, "evaluation_fraction");
    FieldSkipped(c, "decontamination");
    FieldSkipped(a, "evaluation_fraction");
    FieldSkipped(a, "decontamination");
    FieldSkipped(a, "config_digest");
    FieldSkipped(ManifestFields(m), "evaluation_fraction");
    FieldSkipped(ManifestFields(m), "decontamination");
    FieldSkipped(ManifestFields(m), "config_digest");
    FieldSkipped(ManifestFields(m), "assignments");
  }

  // Lists.

  function ValuesOf(items: Items): seq<Value> {
    match items
    case NoItems => []
    case Item(v, rest) => [v] + ValuesOf(rest)
  }

  /** The value is the list of these texts. */
  ghost predicate IsTexts(v: Value, texts: seq<string>) {
    && v.List? && |ValuesOf(v.items)| == |texts|
    && forall i :: 0 <= i < |texts| ==> ValuesOf(v.items)[i] == Text(texts[i])
  }

  /** The value is the object of this assignment. */
  ghost predicate IsAssignment(v: Value, a: Assignment) {
    && Under(v, "contamination_group", Text(a.group)) && Under(v, "repository", Text(a.repository))
    && Under(v, "sample_id", Text(a.sample)) && Under(v, "split", Text(a.split))
  }

  lemma {:induction false} TextsListed(texts: seq<string>, n: nat)
    requires n <= |texts|
    ensures OrderedItems(TextItems(texts, n)) == TextItems(texts, n)
    ensures |ValuesOf(TextItems(texts, n))| == |texts| - n
    ensures forall i :: n <= i < |texts| ==> ValuesOf(TextItems(texts, n))[i - n] == Text(texts[i])
    decreases |texts| - n
  {
    if n < |texts| { TextsListed(texts, n + 1); }
  }

  lemma {:induction false} AssignmentNamed(a: Assignment)
    ensures IsAssignment(Ordered(AssignmentValue(a)), a)
  {
    AssignmentPrintable(a);
    var fields := AssignmentValue(a).fields;
    FieldSkipped(fields, "repository");
    FieldSkipped(fields, "sample_id");
    FieldSkipped(fields.rest, "sample_id");
    FieldSkipped(fields, "split");
    FieldSkipped(fields.rest, "split");
    FieldSkipped(fields.rest.rest, "split");
    UnderOrdered(fields, "contamination_group");
    UnderOrdered(fields, "repository");
    UnderOrdered(fields, "sample_id");
    UnderOrdered(fields, "split");
  }

  lemma {:induction false} AssignmentsListed(assignments: seq<Assignment>, n: nat)
    requires n <= |assignments|
    ensures var values := ValuesOf(OrderedItems(AssignmentItems(assignments, n)));
            && |values| == |assignments| - n
            && forall i :: n <= i < |assignments| ==> IsAssignment(values[i - n], assignments[i])
    decreases |assignments| - n
  {
    if n < |assignments| {
      AssignmentNamed(assignments[n]);
      AssignmentsListed(assignments, n + 1);
    }
  }

  lemma {:induction false} RepositoriesNamed(m: Manifest)
    ensures var v := Ordered(Object(EvaluationOn(m)));
            && Under(v, "train", List(TextItems(m.train, 0))) && Under(v, "excluded", List(TextItems(m.excluded, 0)))
            && Under(v, "evaluation", List(TextItems(m.evaluation, 0)))
  {
    RepositoriesAscend(m);
    KeysOnce(EvaluationOn(m));
    FieldSkipped(EvaluationOn(m), "excluded");
    FieldSkipped(EvaluationOn(m), "train");
    FieldSkipped(ExcludedOn(m), "train");
    TextsListed(m.train, 0);
    TextsListed(m.excluded, 0);
    TextsListed(m.evaluation, 0);
    UnderOrdered(EvaluationOn(m), "train");
    UnderOrdered(EvaluationOn(m), "excluded");
    UnderOrdered(EvaluationOn(m), "evaluation");
  }

  /** A JSON reader finds each part of the manifest under its name in the written text. */
  lemma {:induction false} ScalarsByName(m: Manifest)
    requires Printable(m)
    ensures ReadBackOf(m).Some?
    ensures var v := ReadBackOf(m).value;
            && Under(v, "schema_version", Text("nodelm.repository-split/v1")) && Under(v, "seed", Number(m.seed))
            && Under(v, "sample_count", Number(Decimal(m.sampleCount)))
            && Under(v, "input_bytes", Number(Decimal(m.inputBytes))) && Under(v, "input_sha256", Text(m.inputSha256))
            && Under(v, "evaluation_fraction", Number(m.evaluationFraction))
            && Under(v, "config_digest", Text(m.configDigest))
            && Under(v, "decontamination", Ordered(m.decontamination))
            && Under(v, "aliases_sha256", Ordered(m.aliasesSha256))
  {
    ManifestTailNamed(m);
    ManifestHeadNamed(m);
    ReadUnder(m, "schema_version");
    ReadUnder(m, "seed");
    ReadUnder(m, "sample_count");
    ReadUnder(m, "input_bytes");
    ReadUnder(m, "input_sha256");
    ReadUnder(m, "evaluation_fraction");
    ReadUnder(m, "config_digest");
    ReadUnder(m, "decontamination");
    ReadUnder(m, "aliases_sha256");
  }

  /** So it does the three lists of repositories. */
  lemma {:induction false} RepositoriesByName(m: Manifest)
    requires Printable(m)
    ensures ReadBackOf(m).Some? && ReadBackOf(m).value.Object?
    ensures var fields := ReadBackOf(m).value.fields;
            HasField(fields, "repositories") && RepositoriesAre(FieldAt(fields, "repositories"), m)
  {
    ManifestTailNamed(m);
    ReadUnder(m, "repositories");
    RepositoriesNamed(m);
    TextsListed(m.train, 0);
    TextsListed(m.excluded, 0);
    TextsListed(m.evaluation, 0);
  }

  /** And the assignments, one object for each, with its parts under their names. */
  lemma {:induction false} AssignmentsByName(m: Manifest)
    requires Printable(m)
    ensures ReadBackOf(m).Some? && ReadBackOf(m).value.Object?
    ensures var fields := ReadBackOf(m).value.fields;
            HasField(fields, "assignments") && AssignmentsAre(FieldAt(fields, "assignments"), m)
  {
    ManifestHeadNamed(m);
    ReadUnder(m, "assignments");
    AssignmentsListed(m.assignments, 0);
  }

  ghost predicate RepositoriesAre(v: Value, m: Manifest) {
    && v.Object? && HasField(v.fields, "train") && IsTexts(FieldAt(v.fields, "train"), m.train)
    && HasField(v.fields, "evaluation") && IsTexts(FieldAt(v.fields, "evaluation"), m.evaluation)
    && HasField(v.fields, "excluded") && IsTexts(FieldAt(v.fields, "excluded"), m.excluded)
  }

  ghost predicate AssignmentsAre(v: Value, m: Manifest) {
    && v.List? && |ValuesOf(v.items)| == |m.assignments|
    && forall i :: 0 <= i < |m.assignments| ==> IsAssignment(ValuesOf(v.items)[i], m.assignments[i])
  }

  // The tree a parser gives for JSON text: its members in the order of the text.

  function TreeOf(v: Value): Node {
    match v
    case Null => Leaf("null")
    case Number(text) => Leaf(text)
    case Text(value) => Leaf(value)
    case List(items) => Sequence(TreesOf(items))
    case Object(fields) => Mapping(TreeEntries(fields))
  }

  function TreesOf(items: Items): Nodes {
    match items
    case NoItems => NoNodes
    case Item(v, rest) => Next(TreeOf(v), TreesOf(rest))
  }

  function TreeEntries(fields: Fields): Entries {
    match fields
    case NoFields => NoEntries
    case Field(key, value, rest) => Entry(Leaf(key), TreeOf(value), TreeEntries(rest))
  }

  lemma {:induction false} InsertTree(key: string, value: Value, fields: Fields)
    ensures TreeEntries(InsertField(key, value, fields))
            == InsertEntry(Leaf(key), TreeOf(value), TreeEntries(fields))
  {
    if fields.Field? { InsertTree(key, value, fields.rest); }
  }

  lemma {:induction false} SortTree(fields: Fields)
    ensures TreeEntries(SortFields(fields)) == SortedEntries(TreeEntries(fields))
  {
    if fields.Field? {
      SortTree(fields.rest);
      InsertTree(fields.key, fields.value, SortFields(fields.rest));
    }
  }

  /** The tree of a value is that of what a JSON reader finds in its canonical text. */
  lemma {:induction false} NodeIsTree(v: Value)
    ensures NodeOf(v) == TreeOf(Ordered(v))
    decreases v
  {
    match v
    case List(items) => NodesAreTrees(items);
    case Object(fields) =>
      EntriesAreTrees(fields);
      SortTree(OrderedFields(fields));
    case _ =>
  }

  lemma {:induction false} NodesAreTrees(items: Items)
    ensures NodesOf(items) == TreesOf(OrderedItems(items))
    decreases items
  {
    if items.Item? {
      NodeIsTree(items.first);
      NodesAreTrees(items.rest);
    }
  }

  lemma {:induction false} EntriesAreTrees(fields: Fields)
    ensures EntriesOf(fields) == TreeEntries(OrderedFields(fields))
    decreases fields
  {
    if fields.Field? {
      NodeIsTree(fields.value);
      EntriesAreTrees(fields.rest);
    }
  }

  /** From text to evidence: what is written as a split, read as JSON and then as a split manifest, gives back the three
      lists, the identity of the input and the sample count. */
  lemma {:induction false} TextRoundTrip(cfg: SplitReader.Settings, m: Manifest, train: seq<Name>,
                                         evaluation: seq<Name>, excluded: seq<Name>)
    requires Printable(m) && Prints(cfg, m.train, train) && Prints(cfg, m.evaluation, evaluation)
             && Prints(cfg, m.excluded, excluded)
    requires Apart(train, evaluation) && Apart(train, excluded) && Apart(evaluation, excluded)
    ensures ReadBackOf(m).Some?
    ensures EvidenceOf(cfg, TreeOf(ReadBackOf(m).value)) ==
              Some(Evidence(train, evaluation, excluded, Some(m.inputSha256), Some(m.inputBytes), Some(m.sampleCount)))
  {
    ManifestIsJson(m);
    NodeIsTree(Object(ManifestFields(m)));
    RoundTrip(cfg, m, train, evaluation, excluded);
  }
}
