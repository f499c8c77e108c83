/** The hand-written streaming printer of the repository split manifest. */
module SplitWriter {
  import opened Integers
  import opened Json
  import opened JsonReader
  import opened CanonicalText
  import opened Wrappers

  datatype Assignment = Assignment(group: string, repository: string, sample: string, split: string)

  /** What the contamination index and the arguments supply. Numbers other than counts keep their printed text. */
  datatype Manifest = Manifest(
    aliasesSha256: Value, assignments: seq<Assignment>, configDigest: string, decontamination: Value,
    evaluationFraction: string, inputBytes: nat, inputSha256: string, evaluation: seq<string>, excluded: seq<string>,
    train: seq<string>, sampleCount: nat, seed: string)

  const SCHEMA := "nodelm.repository-split/v1"

  function AssignmentValue(a: Assignment): Value {
    Object(Field("contamination_group", Text(a.group), Field("repository", Text(a.repository),
           Field("sample_id", Text(a.sample), Field("split", Text(a.split), NoFields)))))
  }

  function AssignmentItems(assignments: seq<Assignment>, n: nat): Items
    requires n <= |assignments|
    decreases |assignments| - n
  {
    if n == |assignments| then NoItems else Item(AssignmentValue(assignments[n]), AssignmentItems(assignments, n + 1))
  }

  function TextItems(texts: seq<string>, n: nat): Items
    requires n <= |texts|
    decreases |texts| - n
  {
    if n == |texts| then NoItems else Item(Text(texts[n]), TextItems(texts, n + 1))
  }

  // The manifest as an object, its fields in key order, from the last back to the first.

  function Train(m: Manifest): Fields { Field("train", List(TextItems(m.train, 0)), NoFields) }
  function ExcludedOn(m: Manifest): Fields { Field("excluded", List(TextItems(m.excluded, 0)), Train(m)) }
  function EvaluationOn(m: Manifest): Fields { Field("evaluation", List(TextItems(m.evaluation, 0)), ExcludedOn(m)) }

  function Seed(m: Manifest): Fields { Field("seed", Number(m.seed), NoFields) }
  function SchemaOn(m: Manifest): Fields { Field("schema_version", Text(SCHEMA), Seed(m)) }
  function SampleCountOn(m: Manifest): Fields { Field("sample_count", Number(Decimal(m.sampleCount)), SchemaOn(m)) }
  function RepositoriesOn(m: Manifest): Fields { Field("repositories", Object(EvaluationOn(m)), SampleCountOn(m)) }
  function InputSha256On(m: Manifest): Fields { Field("input_sha256", Text(m.inputSha256), RepositoriesOn(m)) }
  function InputBytesOn(m: Manifest): Fields { Field("input_bytes", Number(Decimal(m.inputBytes)), InputSha256On(m)) }
  function FractionOn(m: Manifest): Fields {
    Field("evaluation_fraction", Number(m.evaluationFraction), InputBytesOn(m))
  }
  function DecontaminationOn(m: Manifest): Fields { Field("decontamination", m.decontamination, FractionOn(m)) }
  function ConfigOn(m: Manifest): Fields { Field("config_digest", Text(m.configDigest), DecontaminationOn(m)) }
  function AssignmentsOn(m: Manifest): Fields {
    Field("assignments", List(AssignmentItems(m.assignments, 0)), ConfigOn(m))
  }
  function ManifestFields(m: Manifest): Fields { Field("aliases_sha256", m.aliasesSha256, AssignmentsOn(m)) }

  // The keys are in order.

  lemma {:induction false} PutFirst(key: string, text: string, members: Members, n: nat)
    requires Ascending(members) && members.Member?
    requires n < |key| && n < |members.key| && SameTo(key, members.key, n) && key[n] < members.key[n]
    ensures Ascending(Member(key, text, members))
  {
    LessOn(key, members.key, 0, n);
    if members.rest.Member? { AboveTrans(key, members.key, members.rest); }
  }

  lemma {:induction false} RepositoriesAscend(m: Manifest)
    ensures Ascending(MembersOf(EvaluationOn(m)))
  {
    PutFirst("excluded", Canon(List(TextItems(m.excluded, 0))), MembersOf(Train(m)), 0);
    PutFirst("evaluation", Canon(List(TextItems(m.evaluation, 0))), MembersOf(ExcludedOn(m)), 1);
  }

  lemma {:induction false} TailAscends(m: Manifest)
    ensures Ascending(MembersOf(RepositoriesOn(m)))
  {
    assert MembersOf(Seed(m)) == Member("seed", Canon(Number(m.seed)), NoMembers);
    PutFirst("schema_version", Canon(Text(SCHEMA)), MembersOf(Seed(m)), 1);
    PutFirst("sample_count", Canon(Number(Decimal(m.sampleCount))), MembersOf(SchemaOn(m)), 1);
    PutFirst("repositories", Canon(Object(EvaluationOn(m))), MembersOf(SampleCountOn(m)), 0);
  }

  lemma {:induction false} MiddleAscends(m: Manifest)
    ensures Ascending(MembersOf(DecontaminationOn(m)))
  {
    TailAscends(m);
    PutFirst("input_sha256", Canon(Text(m.inputSha256)), MembersOf(RepositoriesOn(m)), 0);
    PutFirst("input_bytes", Canon(Number(Decimal(m.inputBytes))), MembersOf(InputSha256On(m)), 6);
    PutFirst("evaluation_fraction", Canon(Number(m.evaluationFraction)), MembersOf(InputBytesOn(m)), 0);
    PutFirst("decontamination", Canon(m.decontamination), MembersOf(FractionOn(m)), 0);
  }

  lemma {:induction false} ManifestAscends(m: Manifest)
    ensures Ascending(MembersOf(ManifestFields(m)))
  {
    MiddleAscends(m);
    PutFirst("config_digest", Canon(Text(m.configDigest)), MembersOf(DecontaminationOn(m)), 0);
    PutFirst("assignments", Canon(List(AssignmentItems(m.assignments, 0))), MembersOf(ConfigOn(m)), 0);
    PutFirst("aliases_sha256", Canon(m.aliasesSha256), MembersOf(AssignmentsOn(m)), 1);
  }

  // Appending to the stream.

  /** The bytes of a literal key and its colon. */
  function Label(key: string): string {
    "\"" + key + "\":"
  }

  predicate PlainText(s: string) {
    forall i :: 0 <= i < |s| ==> Plain(s[i])
  }

  /** Writing the first field of those that remain, with the comma that goes before it. */
  lemma {:induction false} FieldWritten(out: string, first: bool, fields: Fields)
    requires fields.Field? && PlainText(fields.key)
    ensures PutMembers(out, first, MembersOf(fields)) ==
            PutMembers(out + (if first then "" else ",") + Label(fields.key) + Canon(fields.value), false,
                       MembersOf(fields.rest))
  {
    forall c | c in fields.key ensures Plain(c) {
      var i :| 0 <= i < |fields.key| && fields.key[i] == c;
    }
    PlainIsItself(fields.key, |fields.key|);
    assert fields.key[..|fields.key|] == fields.key;
    var so := if first then out else out + ",";
    assert so + Quoted(fields.key) + ":" + Canon(fields.value)
        == out + (if first then "" else ",") + Label(fields.key) + Canon(fields.value);
  }

  /** A list written item by item with a first flag. */
  method WriteTexts(out0: string, texts: seq<string>) returns (out: string)
    ensures out + "]" == out0 + Canon(List(TextItems(texts, 0)))
  {
    out := out0 + "[";
    var first := true;
    for n := 0 to |texts|
      invariant PutItems(out, first, TextItems(texts, n)) == PutItems(out0 + "[", true, TextItems(texts, 0))
    {
      if !first { out := out + ","; }
      first := false;
      out := out + Quoted(texts[n]);
    }
    ItemsAfter(out0, "[", true, TextItems(texts, 0));
    assert out0 + PutItems("[", true, TextItems(texts, 0)) + "]"
           == out0 + (PutItems("[", true, TextItems(texts, 0)) + "]");
  }

  method WriteAssignments(out0: string, assignments: seq<Assignment>) returns (out: string)
    ensures out + "]" == out0 + Canon(List(AssignmentItems(assignments, 0)))
  {
    out := out0 + "[";
    var first := true;
    for n := 0 to |assignments|
      invariant PutItems(out, first, AssignmentItems(assignments, n))
                == PutItems(out0 + "[", true, AssignmentItems(assignments, 0))
    {
      if !first { out := out + ","; }
      first := false;
      out := out + Canon(AssignmentValue(assignments[n]));
    }
    ItemsAfter(out0, "[", true, AssignmentItems(assignments, 0));
    assert out0 + PutItems("[", true, AssignmentItems(assignments, 0)) + "]"
           == out0 + (PutItems("[", true, AssignmentItems(assignments, 0)) + "]");
  }

  lemma {:induction false} PlainKeys()
    ensures PlainText("aliases_sha256") && PlainText("assignments") && PlainText("config_digest")
    ensures PlainText("decontamination") && PlainText("evaluation_fraction") && PlainText("input_bytes")
  {
  }

  lemma {:induction false} MorePlainKeys()
    ensures PlainText("input_sha256") && PlainText("repositories") && PlainText("sample_count")
    ensures PlainText("schema_version") && PlainText("seed")
  {
  }

  lemma {:induction false} PlainSplits()
    ensures PlainText("evaluation") && PlainText("excluded") && PlainText("train")
  {
  }

  /** "key": and its encoded value, after the comma that separates it from the field before. */
  method WriteField(out0: string, first: bool, key: string, value: Value, ghost fields: Fields) returns (out: string)
    requires fields.Field? && fields.key == key && fields.value == value && PlainText(key)
    ensures PutMembers(out, false, MembersOf(fields.rest)) == PutMembers(out0, first, MembersOf(fields))
  {
    FieldWritten(out0, first, fields);
    out := out0 + (if first then "" else ",") + Label(key);
    out := out + Canon(value);
  }

  function SplitKey(index: nat): string {
    if index == 0 then "evaluation" else if index == 1 then "excluded" else "train"
  }

  function SplitList(m: Manifest, index: nat): seq<string> {
    if index == 0 then m.evaluation else if index == 1 then m.excluded else m.train
  }

  /** The splits still to be written. */
  function SplitsFrom(m: Manifest, index: nat): Fields {
    if index == 0 then EvaluationOn(m)
    else if index == 1 then ExcludedOn(m)
    else if index == 2 then Train(m)
    else NoFields
  }

  /** The nested loop over the three splits; the closing brackets of the last one are left to the caller. */
  method WriteRepositories(out0: string, m: Manifest) returns (out: string)
    ensures out + "]}" == out0 + Canon(Object(EvaluationOn(m)))
  {
    PlainSplits();
    out := out0 + "{";
    for index := 0 to 3
      invariant PutMembers(if index == 0 then out else out + "]", index == 0, MembersOf(SplitsFrom(m, index)))
             == PutMembers(out0 + "{", true, MembersOf(EvaluationOn(m)))
    {
      ghost var closed := if index == 0 then out else out + "]";
      FieldWritten(closed, index == 0, SplitsFrom(m, index));
      if index != 0 { out := out + "],"; }
      assert out == closed + if index == 0 then "" else ",";
      out := out + Label(SplitKey(index));
      out := WriteTexts(out, SplitList(m, index));
    }
    MembersAfter(out0, "{", true, MembersOf(EvaluationOn(m)));
    RepositoriesAscend(m);
    AscendingIsSorted(MembersOf(EvaluationOn(m)));
    Closed(out, out0, PutMembers("{", true, MembersOf(EvaluationOn(m))));
  }

  lemma {:induction false} Closed(out: string, out0: string, body: string)
    requires out + "]" == out0 + body
    ensures out + "]}" == out0 + (body + "}")
  {
    assert out + "]}" == (out + "]") + "}";
  }

  /** Up to and with the assignments, streamed one by one. */
  method WriteHead(m: Manifest) returns (out: string)
    ensures PutMembers(out, false, MembersOf(ConfigOn(m))) == PutMembers("{", true, MembersOf(ManifestFields(m)))
  {
    PlainKeys();
    out := WriteField("{", true, "aliases_sha256", m.aliasesSha256, ManifestFields(m));
    FieldWritten(out, false, AssignmentsOn(m));
    out := out + "," + Label("assignments");
    out := WriteAssignments(out, m.assignments);
    out := out + "]";
  }

  method WriteMiddle(out0: string, m: Manifest) returns (out: string)
    ensures PutMembers(out, false, MembersOf(RepositoriesOn(m))) == PutMembers(out0, false, MembersOf(ConfigOn(m)))
  {
    PlainKeys();
    MorePlainKeys();
    out := WriteField(out0, false, "config_digest", Text(m.configDigest), ConfigOn(m));
    out := WriteField(out, false, "decontamination", m.decontamination, DecontaminationOn(m));
    out := WriteField(out, false, "evaluation_fraction", Number(m.evaluationFraction), FractionOn(m));
    out := WriteField(out, false, "input_bytes", Number(Decimal(m.inputBytes)), InputBytesOn(m));
    out := WriteField(out, false, "input_sha256", Text(m.inputSha256), InputSha256On(m));
  }

  method WriteTail(out0: string, m: Manifest) returns (out: string)
    ensures out == PutMembers(out0, false, MembersOf(RepositoriesOn(m)))
  {
    MorePlainKeys();
    FieldWritten(out0, false, RepositoriesOn(m));
    out := out0 + "," + Label("repositories");
    out := WriteRepositories(out, m);
    out := out + "]}";
    out := WriteField(out, false, "sample_count", Number(Decimal(m.sampleCount)), SampleCountOn(m));
    out := WriteField(out, false, "schema_version", Text(SCHEMA), SchemaOn(m));
    out := WriteField(out, false, "seed", Number(m.seed), Seed(m));
  }

  // The manifest as JSON.

  /** What the caller passes on as JSON is that: the numbers are number texts, and no object has a key twice. */
  predicate Printable(m: Manifest) {
    && IsNumber(m.evaluationFraction) && IsNumber(m.seed)
    && Numeric(m.decontamination) && KeysDiffer(m.decontamination)
    && Numeric(m.aliasesSha256) && KeysDiffer(m.aliasesSha256)
  }

  lemma {:induction false} DecimalDigits(n: nat)
    ensures Decimal(n) != "" && (n > 0 ==> Decimal(n)[0] != '0')
    ensures forall i :: 0 <= i < |Decimal(n)| ==> '0' <= Decimal(n)[i] <= '9'
  {
    if n >= 10 { DecimalDigits(n / 10); }
  }

  lemma {:induction false} DigitsToEnd(s: string, i: nat)
    requires i <= |s| && forall j :: i <= j < |s| ==> '0' <= s[j] <= '9'
    ensures DigitsEnd(s, i) == |s|
    decreases |s| - i
  {
    if i < |s| { DigitsToEnd(s, i + 1); }
  }

  /** A count is printed as a number. */
  lemma {:induction false} DecimalIsNumber(n: nat)
    ensures IsNumber(Decimal(n))
  {
    DecimalDigits(n);
    if n > 0 { DigitsToEnd(Decimal(n), 1); }
  }

  lemma {:induction false} TextsPrintable(texts: seq<string>, n: nat)
    requires n <= |texts|
    ensures NumericItems(TextItems(texts, n)) && KeysDifferItems(TextItems(texts, n))
    decreases |texts| - n
  {
    if n < |texts| { TextsPrintable(texts, n + 1); }
  }

  lemma {:induction false} AssignmentsPrintable(assignments: seq<Assignment>, n: nat)
    requires n <= |assignments|
    ensures NumericItems(AssignmentItems(assignments, n)) && KeysDifferItems(AssignmentItems(assignments, n))
    decreases |assignments| - n
  {
    if n < |assignments| {
      AssignmentsPrintable(assignments, n + 1);
      AssignmentPrintable(assignments[n]);
    }
  }

  lemma {:induction false} AssignmentPrintable(a: Assignment)
    ensures Numeric(AssignmentValue(a)) && KeysDiffer(AssignmentValue(a))
  {
    var f3 := Field("split", Text(a.split), NoFields);
    var f2 := Field("sample_id", Text(a.sample), f3);
    var f1 := Field("repository", Text(a.repository), f2);
    assert NumericFields(f3) && KeysDifferFields(f3) && DistinctKeys(f3);
    assert !HasField(f3, "sample_id") && !HasField(f3, "repository") && !HasField(f3, "contamination_group");
    assert NumericFields(f2) && KeysDifferFields(f2) && DistinctKeys(f2);
    assert !HasField(f2, "repository") && !HasField(f2, "contamination_group");
    assert NumericFields(f1) && KeysDifferFields(f1) && DistinctKeys(f1);
    assert !HasField(f1, "contamination_group");
  }

  lemma {:induction false} KeysOnce(fields: Fields)
    requires Ascending(MembersOf(fields))
    ensures DistinctKeys(fields)
  {
    if fields.Field? {
      KeysOnce(fields.rest);
      AboveFields(fields.key, fields.rest);
    }
  }

  lemma {:induction false} AboveFields(key: string, fields: Fields)
    requires Above(key, MembersOf(fields))
    ensures !HasField(fields, key)
  {
    if fields.Field? {
      LessIrreflexive(key, 0);
      AboveFields(key, fields.rest);
    }
  }

  lemma {:induction false} RepositoriesPrintable(m: Manifest)
    ensures Numeric(Object(EvaluationOn(m))) && KeysDiffer(Object(EvaluationOn(m)))
  {
    TextsPrintable(m.train, 0);
    TextsPrintable(m.excluded, 0);
    TextsPrintable(m.evaluation, 0);
    FieldPrintable("train", List(TextItems(m.train, 0)), NoFields);
    FieldPrintable("excluded", List(TextItems(m.excluded, 0)), Train(m));
    FieldPrintable("evaluation", List(TextItems(m.evaluation, 0)), ExcludedOn(m));
    RepositoriesAscend(m);
    KeysOnce(EvaluationOn(m));
  }

  /** One more field that is printable keeps the fields printable. */
  lemma {:induction false} FieldPrintable(key: string, value: Value, rest: Fields)
    requires Numeric(value) && KeysDiffer(value) && NumericFields(rest) && KeysDifferFields(rest)
    ensures NumericFields(Field(key, value, rest)) && KeysDifferFields(Field(key, value, rest))
  {
  }

  lemma {:induction false} TailPrintable(m: Manifest)
    requires Printable(m)
    ensures NumericFields(InputSha256On(m)) && KeysDifferFields(InputSha256On(m))
  {
    RepositoriesPrintable(m);
    DecimalIsNumber(m.sampleCount);
    FieldPrintable("seed", Number(m.seed), NoFields);
    FieldPrintable("schema_version", Text(SCHEMA), Seed(m));
    FieldPrintable("sample_count", Number(Decimal(m.sampleCount)), SchemaOn(m));
    FieldPrintable("repositories", Object(EvaluationOn(m)), SampleCountOn(m));
    FieldPrintable("input_sha256", Text(m.inputSha256), RepositoriesOn(m));
  }

  lemma {:induction false} ManifestPrintable(m: Manifest)
    requires Printable(m)
    ensures Numeric(Object(ManifestFields(m))) && KeysDiffer(Object(ManifestFields(m)))
  {
    TailPrintable(m);
    DecimalIsNumber(m.inputBytes);
    AssignmentsPrintable(m.assignments, 0);
    FieldPrintable("input_bytes", Number(Decimal(m.inputBytes)), InputSha256On(m));
    FieldPrintable("evaluation_fraction", Number(m.evaluationFraction), InputBytesOn(m));
    FieldPrintable("decontamination", m.decontamination, FractionOn(m));
    FieldPrintable("config_digest", Text(m.configDigest), DecontaminationOn(m));
    FieldPrintable("assignments", List(AssignmentItems(m.assignments, 0)), ConfigOn(m));
    FieldPrintable("aliases_sha256", m.aliasesSha256, AssignmentsOn(m));
    ManifestAscends(m);
    KeysOnce(ManifestFields(m));
  }

  /** The canonical text of a manifest, with a newline behind it, is JSON text of the manifest object. */
  lemma {:induction false} ManifestIsJson(m: Manifest)
    requires Printable(m)
    ensures var read := ReadText(Canon(Object(ManifestFields(m))) + "\n");
            read == Some(Ordered(Object(ManifestFields(m)))) && SameOrdered(Object(ManifestFields(m)), read.value)
  {
    var v := Object(ManifestFields(m));
    ManifestPrintable(m);
    CanonReadsBack(v, "\n");
    OrderedIsSame(v);
    BlanksSkipped("\n");
  }

  /** write_json: the streamed text is the one-shot canonical JSON of the manifest object, with a final newline; a JSON
      reader finds that object in it. */
  method WriteJson(m: Manifest) returns (out: string)
    ensures out == Canon(Object(ManifestFields(m))) + "\n"
    ensures Printable(m) ==>
              ReadText(out).Some? && SameOrdered(Object(ManifestFields(m)), ReadText(out).value)
  {
    if Printable(m) { ManifestIsJson(m); }
    out := WriteHead(m);
    out := WriteMiddle(out, m);
    out := WriteTail(out, m);
    ManifestAscends(m);
    AscendingIsSorted(MembersOf(ManifestFields(m)));
    out := out + "}" + "\n";
  }

  /** So it is the canonical JSON of that object however the object is put together. */
  lemma {:induction false} AnyOrderPrintsTheSame(m: Manifest, fields: Fields)
    requires Distinct(MembersOf(fields)) && SameMembers(MembersOf(fields), MembersOf(ManifestFields(m)))
    ensures Canon(Object(fields)) == Canon(Object(ManifestFields(m)))
  {
    ManifestAscends(m);
    AscendingDistinct(MembersOf(ManifestFields(m)));
    CanonIgnoresOrder(fields, ManifestFields(m));
  }

  lemma {:induction false} AscendingDistinct(members: Members)
    requires Ascending(members)
    ensures Distinct(members)
  {
    match members
    case NoMembers =>
    case Member(key, text, rest) =>
      AscendingDistinct(rest);
      AboveAll(key, rest);
  }

  lemma {:induction false} AboveAll(key: string, members: Members)
    requires Above(key, members)
    ensures !HasKey(members, key)
  {
    match members
    case NoMembers =>
    case Member(k, text, rest) =>
      AboveAll(key, rest);
      LessIrreflexive(key, 0);
  }
}
