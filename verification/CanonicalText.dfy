/** Canonical text is JSON: a reader of the grammar finds the value in it, with its members in key order. */
module CanonicalText {
  import opened Integers
  import opened Json
  import opened JsonReader
  import opened Wrappers

  // The value the text holds.

  function InsertField(key: string, value: Value, fields: Fields): Fields {
    match fields
    case NoFields => Field(key, value, NoFields)
    case Field(k, v, rest) =>
      if Less(key, k) then Field(key, value, fields) else Field(k, v, InsertField(key, value, rest))
  }

  function SortFields(fields: Fields): Fields {
    match fields
    case NoFields => NoFields
    case Field(key, value, rest) => InsertField(key, value, SortFields(rest))
  }

  /** The same value with the members of every object in key order. */
  function Ordered(v: Value): Value {
    match v
    case List(items) => List(OrderedItems(items))
    case Object(fields) => Object(SortFields(OrderedFields(fields)))
    case _ => v
  }

  function OrderedItems(items: Items): Items {
    match items
    case NoItems => NoItems
    case Item(v, rest) => Item(Ordered(v), OrderedItems(rest))
  }

  function OrderedFields(fields: Fields): Fields {
    match fields
    case NoFields => NoFields
    case Field(key, value, rest) => Field(key, Ordered(value), OrderedFields(rest))
  }

  // Its text with the members as they stand.

  function Print(v: Value): string {
    match v
    case Null => "null"
    case Number(text) => text
    case Text(value) => Quoted(value)
    case List(NoItems) => "[]"
    case List(items) => "[" + PrintItems(items)
    case Object(NoFields) => "{}"
    case Object(fields) => "{" + PrintFields(fields)
  }

  function PrintItems(items: Items): string
    requires items.Item?
  {
    Print(items.first) + if items.rest.NoItems? then "]" else "," + PrintItems(items.rest)
  }

  function PrintFields(fields: Fields): string
    requires fields.Field?
  {
    Quoted(fields.key) + ":" + Print(fields.value)
    + if fields.rest.NoFields? then "}" else "," + PrintFields(fields.rest)
  }

  function Printed(fields: Fields): Members {
    match fields
    case NoFields => NoMembers
    case Field(key, value, rest) => Member(key, Print(value), Printed(rest))
  }

  lemma {:induction false} PrintedInsert(key: string, value: Value, fields: Fields)
    ensures Printed(InsertField(key, value, fields)) == Insert(key, Print(value), Printed(fields))
  {
    if fields.Field? { PrintedInsert(key, value, fields.rest); }
  }

  lemma {:induction false} PrintedSorted(fields: Fields)
    ensures Printed(SortFields(fields)) == Sorted(Printed(fields))
  {
    if fields.Field? {
      PrintedSorted(fields.rest);
      PrintedInsert(fields.key, fields.value, SortFields(fields.rest));
    }
  }

  // Canonical text is the text of the ordered value.

  lemma {:induction false} CanonPrints(v: Value)
    ensures Canon(v) == Print(Ordered(v))
    decreases v
  {
    match v
    case List(items) =>
      if items.Item? { ItemsPrint("[", true, items); }
    case Object(fields) =>
      FieldsPrint(fields);
      PrintedSorted(OrderedFields(fields));
      var sorted := SortFields(OrderedFields(fields));
      if sorted.Field? { MembersPrint("{", true, sorted); }
    case _ =>
  }

  lemma {:induction false} ItemsPrint(so: string, first: bool, items: Items)
    requires items.Item?
    ensures PutItems(so, first, items) + "]"
            == so + (if first then "" else ",") + PrintItems(OrderedItems(items))
    decreases items
  {
    CanonPrints(items.first);
    if items.rest.Item? {
      ItemsPrint((if first then so else so + ",") + Canon(items.first), false, items.rest);
    }
  }

  lemma {:induction false} FieldsPrint(fields: Fields)
    ensures MembersOf(fields) == Printed(OrderedFields(fields))
    decreases fields
  {
    if fields.Field? {
      CanonPrints(fields.value);
      FieldsPrint(fields.rest);
    }
  }

  lemma {:induction false} MembersPrint(so: string, first: bool, fields: Fields)
    requires fields.Field?
    ensures PutMembers(so, first, Printed(fields)) + "}" == so + (if first then "" else ",") + PrintFields(fields)
    decreases fields
  {
    if fields.rest.Field? {
      var front := if first then so else so + ",";
      var key, shown, more := Quoted(fields.key), Print(fields.value), PrintFields(fields.rest);
      MembersPrint(front + key + ":" + shown, false, fields.rest);
      MemberText(front, key, shown, more);
    }
  }

  lemma {:induction false} MemberText(front: string, key: string, shown: string, more: string)
    ensures (front + key + ":" + shown) + "," + more == front + (key + ":" + shown + ("," + more))
  {
  }

  // Strings are read back.

  lemma {:induction false} HexDigits(n: nat)
    requires n < 16
    ensures HexDigit(Hex(n)) == Some(n)
  {
    assert "0123456789abcdef"[n] == Hex(n);
  }

  lemma {:induction false} ControlUnit(c: char, rest: string)
    requires c as int < 32
    ensures var digits := "00" + [Hex(c as int / 16), Hex(c as int % 16)];
            CodeUnit(digits + rest) == Some(c as nat)
  {
    HexDigits(c as int / 16);
    HexDigits(c as int % 16);
    var s := "00" + [Hex(c as int / 16), Hex(c as int % 16)] + rest;
    assert s[0] == '0' && s[1] == '0' && s[2] == Hex(c as int / 16) && s[3] == Hex(c as int % 16);
  }

  lemma {:induction false} EscapedIsRead(c: char, rest: string)
    ensures ReadChars(Escaped(c) + rest) == Cons(c, ReadChars(rest))
  {
    var s := Escaped(c) + rest;
    assert s[|Escaped(c)|..] == rest;
    if |Escaped(c)| == 6 {
      ControlUnit(c, rest);
      assert s[2..] == "00" + [Hex(c as int / 16), Hex(c as int % 16)] + rest;
    }
  }

  /** Characters in front of what is read. */
  function Before(front: string, more: Read<string>): Read<string> {
    match more
    case Done(text, rest) => Done(front + text, rest)
    case Malformed => Malformed
  }

  lemma {:induction false} EmptyBefore(more: Read<string>)
    ensures Before("", more) == more
  {
    if more.Done? { assert "" + more.value == more.value; }
  }

  lemma {:induction false} BeforeCons(front: string, c: char, more: Read<string>)
    ensures Before(front, Cons(c, more)) == Before(front + [c], more)
  {
    if more.Done? { assert front + ([c] + more.value) == front + [c] + more.value; }
  }

  lemma {:induction false} LastText(front: string, close: string, rest: string)
    ensures (front + close) + rest == front + (close + rest)
  {
  }

  lemma {:induction false} OneMore(s: string, n: nat)
    requires 0 < n <= |s|
    ensures s[..n] == s[..n - 1] + [s[n - 1]]
  {
  }

  lemma {:induction false} EscapeIsRead(s: string, n: nat, rest: string)
    requires n <= |s|
    ensures ReadChars(Escape(s, n) + rest) == Before(s[..n], ReadChars(rest))
  {
    if n == 0 {
      assert Escape(s, 0) + rest == rest;
      EmptyBefore(ReadChars(rest));
    } else {
      EscapeIsRead(s, n - 1, Escaped(s[n - 1]) + rest);
      EscapedIsRead(s[n - 1], rest);
      BeforeCons(s[..n - 1], s[n - 1], ReadChars(rest));
      LastText(Escape(s, n - 1), Escaped(s[n - 1]), rest);
      OneMore(s, n);
    }
  }

  lemma {:induction false} QuotedIsRead(s: string, rest: string)
    ensures var text := Quoted(s) + rest;
            text[0] == '"' && ReadChars(text[1..]) == Done(s, rest)
  {
    var text, end := Quoted(s) + rest, "\"" + rest;
    assert text[1..] == Escape(s, |s|) + end;
    EscapeIsRead(s, |s|, end);
    assert end[1..] == rest && s[..|s|] == s && s + "" == s;
    assert ReadChars(end) == Done("", rest);
  }

  // Numbers are read back.

  /** The text cannot go on with a number. */
  predicate Ends(rest: string) {
    rest == "" || (!IsDigit(rest[0]) && rest[0] != '.' && rest[0] != 'e' && rest[0] != 'E')
  }

  lemma {:induction false} DigitsThen(s: string, rest: string, i: nat)
    requires i <= |s| && Ends(rest)
    ensures DigitsEnd(s + rest, i) == DigitsEnd(s, i)
    decreases |s| - i
  {
    if i < |s| { DigitsThen(s, rest, i + 1); }
  }

  lemma {:induction false} IntegerThen(s: string, rest: string, i: nat)
    requires i <= |s| && Ends(rest) && IntegerEnd(s, i).Some?
    ensures IntegerEnd(s + rest, i) == IntegerEnd(s, i)
  {
    DigitsThen(s, rest, i + 1);
  }

  lemma {:induction false} FractionThen(s: string, rest: string, i: nat)
    requires i <= |s| && Ends(rest)
    ensures FractionEnd(s + rest, i) == FractionEnd(s, i)
  {
    if i < |s| { DigitsThen(s, rest, i + 1); }
  }

  lemma {:induction false} ExponentThen(s: string, rest: string, i: nat)
    requires i <= |s| && Ends(rest) && ExponentEnd(s, i).Some?
    ensures ExponentEnd(s + rest, i) == ExponentEnd(s, i)
  {
    if i < |s| && (s[i] == 'e' || s[i] == 'E') {
      var j := if i + 1 < |s| && (s[i + 1] == '+' || s[i + 1] == '-') then i + 2 else i + 1;
      DigitsThen(s, rest, j);
    }
  }

  lemma {:induction false} NumberThen(s: string, rest: string)
    requires Ends(rest) && NumberEnd(s).Some?
    ensures NumberEnd(s + rest) == NumberEnd(s)
  {
    var sign := if s != "" && s[0] == '-' then 1 else 0;
    IntegerThen(s, rest, sign);
    var i := IntegerEnd(s, sign).value;
    FractionThen(s, rest, i);
    ExponentThen(s, rest, FractionEnd(s, i).value);
  }

  // Values are read back.

  /** All numbers in the value are number texts. */
  predicate Numeric(v: Value) {
    match v
    case Number(text) => IsNumber(text)
    case List(items) => NumericItems(items)
    case Object(fields) => NumericFields(fields)
    case _ => true
  }

  predicate NumericItems(items: Items) {
    items.Item? ==> Numeric(items.first) && NumericItems(items.rest)
  }

  predicate NumericFields(fields: Fields) {
    fields.Field? ==> Numeric(fields.value) && NumericFields(fields.rest)
  }

  /** The first character of a printed value. */
  predicate Opens(c: char) {
    c == 'n' || c == '"' || c == '[' || c == '{' || c == '-' || IsDigit(c)
  }

  lemma {:induction false} PrintOpens(v: Value)
    requires Numeric(v)
    ensures Print(v) != "" && Opens(Print(v)[0])
  {
  }

  // One step of the reader at a time.

  lemma {:induction false} ReadsNull(rest: string)
    ensures ReadValue("null" + rest) == Done(Null, rest)
  {
    var s := "null" + rest;
    assert s[4..] == rest;
  }

  lemma {:induction false} ReadsNumber(number: string, rest: string)
    requires IsNumber(number) && Ends(rest) && number[0] != '"' && Opens(number[0])
    requires number[0] == '-' || IsDigit(number[0])
    ensures ReadValue(number + rest) == Done(Number(number), rest)
  {
    NumberThen(number, rest);
    var s := number + rest;
    assert s[..|number|] == number && s[|number|..] == rest;
    assert SkipBlanks(s) == s;
  }

  lemma {:induction false} ReadsText(chars: string, rest: string)
    ensures ReadValue(Quoted(chars) + rest) == Done(Text(chars), rest)
  {
    QuotedIsRead(chars, rest);
    var s := Quoted(chars) + rest;
    assert SkipBlanks(s) == s;
  }

  lemma {:induction false} ReadsEmpty(rest: string)
    ensures ReadValue("[" + ("]" + rest)) == Done(List(NoItems), rest)
    ensures ReadValue("{" + ("}" + rest)) == Done(Object(NoFields), rest)
  {
    var s, t := "[" + ("]" + rest), "{" + ("}" + rest);
    assert s[1..] == "]" + rest && t[1..] == "}" + rest;
    assert ("]" + rest)[1..] == rest && ("}" + rest)[1..] == rest;
  }

  lemma {:induction false} ReadsList(body: string, items: Items, rest: string)
    requires body != "" && Opens(body[0]) && ReadItems(body) == Done(items, rest)
    ensures ReadValue("[" + body) == Done(List(items), rest)
  {
    var s := "[" + body;
    assert s[1..] == body && SkipBlanks(s) == s && SkipBlanks(body) == body;
  }

  lemma {:induction false} ReadsObject(body: string, fields: Fields, rest: string)
    requires body != "" && Opens(body[0]) && ReadFields(body) == Done(fields, rest)
    ensures ReadValue("{" + body) == Done(Object(fields), rest)
  {
    var s := "{" + body;
    assert s[1..] == body && SkipBlanks(s) == s && SkipBlanks(body) == body;
  }

  lemma {:induction false} ReadsLastItem(text: string, v: Value, tail: string, rest: string)
    requires ReadValue(text) == Done(v, tail) && tail == "]" + rest
    ensures ReadItems(text) == Done(Item(v, NoItems), rest)
  {
    assert SkipBlanks(tail) == tail && tail[1..] == rest;
  }

  lemma {:induction false} ReadsItem(text: string, v: Value, tail: string, body: string, more: Items, rest: string)
    requires ReadValue(text) == Done(v, tail) && tail == "," + body && ReadItems(body) == Done(more, rest)
    ensures ReadItems(text) == Done(Item(v, more), rest)
  {
    assert SkipBlanks(tail) == tail && tail[1..] == body;
  }

  lemma {:induction false} ReadsLastField(text: string, key: string, behind: string, v: Value, tail: string,
                                          rest: string)
    requires ReadKey(text) == Done(key, behind) && ReadValue(behind) == Done(v, tail) && tail == "}" + rest
    ensures ReadFields(text) == Done(Field(key, v, NoFields), rest)
  {
    assert SkipBlanks(tail) == tail && tail[1..] == rest;
  }

  lemma {:induction false} ReadsField(text: string, key: string, behind: string, v: Value, tail: string, body: string,
                                      more: Fields, rest: string)
    requires ReadKey(text) == Done(key, behind) && ReadValue(behind) == Done(v, tail) && tail == "," + body
    requires ReadFields(body) == Done(more, rest)
    ensures ReadFields(text) == Done(Field(key, v, more), rest)
  {
    assert SkipBlanks(tail) == tail && tail[1..] == body;
  }

  lemma {:induction false} ReadsKey(key: string, rest: string)
    ensures ReadKey(Quoted(key) + (":" + rest)) == Done(key, rest)
  {
    var more := ":" + rest;
    QuotedIsRead(key, more);
    assert SkipBlanks(more) == more && more[1..] == rest;
    assert SkipBlanks(Quoted(key) + more) == Quoted(key) + more;
  }

  lemma {:induction false} LastFieldIsRead(key: string, shown: string, v: Value, rest: string)
    requires ReadValue(shown + ("}" + rest)) == Done(v, "}" + rest)
    ensures ReadFields(Quoted(key) + ":" + shown + ("}" + rest)) == Done(Field(key, v, NoFields), rest)
  {
    var text, behind := Quoted(key) + ":" + shown + ("}" + rest), shown + ("}" + rest);
    ReadsKey(key, behind);
    assert text == Quoted(key) + (":" + behind);
    ReadsLastField(text, key, behind, v, "}" + rest, rest);
  }

  lemma {:induction false} FieldIsRead(key: string, shown: string, v: Value, body: string, more: Fields, rest: string)
    requires ReadValue(shown + ("," + body)) == Done(v, "," + body) && ReadFields(body) == Done(more, rest)
    ensures ReadFields(Quoted(key) + ":" + shown + ("," + body)) == Done(Field(key, v, more), rest)
  {
    var text, behind := Quoted(key) + ":" + shown + ("," + body), shown + ("," + body);
    ReadsKey(key, behind);
    assert text == Quoted(key) + (":" + behind);
    ReadsField(text, key, behind, v, "," + body, body, more, rest);
  }

  // Whole values.

  lemma {:induction false} PrintIsRead(v: Value, rest: string)
    requires Numeric(v) && Ends(rest)
    ensures ReadValue(Print(v) + rest) == Done(v, rest)
    decreases v, 1
  {
    match v
    case Null => ReadsNull(rest);
    case Number(number) =>
      NumberOpens(number);
      ReadsNumber(number, rest);
    case Text(chars) => ReadsText(chars, rest);
    case List(items) => ListIsRead(items, rest);
    case Object(fields) => ObjectIsRead(fields, rest);
  }

  lemma {:induction false} ListIsRead(items: Items, rest: string)
    requires NumericItems(items)
    ensures ReadValue(Print(List(items)) + rest) == Done(List(items), rest)
    decreases List(items), 0
  {
    if items.Item? {
      ItemsAreRead(items, rest);
      ItemsOpen(items);
      ReadsList(PrintItems(items) + rest, items, rest);
      LastText("[", PrintItems(items), rest);
    } else {
      ReadsEmpty(rest);
      LastText("[", "]", rest);
      assert Print(List(items)) == "[" + "]";
    }
  }

  lemma {:induction false} ObjectIsRead(fields: Fields, rest: string)
    requires NumericFields(fields)
    ensures ReadValue(Print(Object(fields)) + rest) == Done(Object(fields), rest)
    decreases Object(fields), 0
  {
    if fields.Field? {
      FieldsAreRead(fields, rest);
      assert PrintFields(fields)[0] == '"';
      ReadsObject(PrintFields(fields) + rest, fields, rest);
      LastText("{", PrintFields(fields), rest);
    } else {
      ReadsEmpty(rest);
      LastText("{", "}", rest);
      assert Print(Object(fields)) == "{" + "}";
    }
  }

  lemma {:induction false} NumberOpens(number: string)
    requires IsNumber(number)
    ensures number != "" && (number[0] == '-' || IsDigit(number[0]))
  {
  }

  lemma {:induction false} ItemsOpen(items: Items)
    requires items.Item? && NumericItems(items)
    ensures PrintItems(items) != "" && Opens(PrintItems(items)[0])
  {
    PrintOpens(items.first);
  }

  lemma {:induction false} ItemsAreRead(items: Items, rest: string)
    requires items.Item? && NumericItems(items)
    ensures ReadItems(PrintItems(items) + rest) == Done(items, rest)
    decreases items
  {
    var shown := Print(items.first);
    if items.rest.NoItems? {
      PrintIsRead(items.first, "]" + rest);
      ReadsLastItem(shown + ("]" + rest), items.first, "]" + rest, rest);
      LastText(shown, "]", rest);
    } else {
      var more := PrintItems(items.rest);
      ItemsAreRead(items.rest, rest);
      PrintIsRead(items.first, "," + (more + rest));
      ReadsItem(shown + ("," + (more + rest)), items.first, "," + (more + rest), more + rest, items.rest, rest);
      NextText(shown, more, rest);
    }
  }

  lemma {:induction false} FieldsAreRead(fields: Fields, rest: string)
    requires fields.Field? && NumericFields(fields)
    ensures ReadFields(PrintFields(fields) + rest) == Done(fields, rest)
    decreases fields
  {
    var shown := Print(fields.value);
    if fields.rest.NoFields? {
      PrintIsRead(fields.value, "}" + rest);
      LastFieldIsRead(fields.key, shown, fields.value, rest);
      LastText(Quoted(fields.key) + ":" + shown, "}", rest);
    } else {
      var more := PrintFields(fields.rest);
      FieldsAreRead(fields.rest, rest);
      PrintIsRead(fields.value, "," + (more + rest));
      FieldIsRead(fields.key, shown, fields.value, more + rest, fields.rest, rest);
      NextText(Quoted(fields.key) + ":" + shown, more, rest);
    }
  }

  lemma {:induction false} NextText(member: string, more: string, rest: string)
    ensures (member + ("," + more)) + rest == member + ("," + (more + rest))
  {
  }

  /** The canonical text of a value whose numbers are numbers reads back as that value, its members in key order. */
  lemma {:induction false} CanonReadsBack(v: Value, rest: string)
    requires Numeric(v) && Ends(rest)
    ensures ReadValue(Canon(v) + rest) == Done(Ordered(v), rest)
  {
    CanonPrints(v);
    OrderedNumeric(v);
    PrintIsRead(Ordered(v), rest);
  }

  lemma {:induction false} OrderedNumeric(v: Value)
    requires Numeric(v)
    ensures Numeric(Ordered(v))
    decreases v
  {
    match v
    case List(items) => OrderedNumericItems(items);
    case Object(fields) =>
      OrderedNumericFields(fields);
      SortNumeric(OrderedFields(fields));
    case _ =>
  }

  lemma {:induction false} OrderedNumericItems(items: Items)
    requires NumericItems(items)
    ensures NumericItems(OrderedItems(items))
    decreases items
  {
    if items.Item? {
      OrderedNumeric(items.first);
      OrderedNumericItems(items.rest);
    }
  }

  lemma {:induction false} OrderedNumericFields(fields: Fields)
    requires NumericFields(fields)
    ensures NumericFields(OrderedFields(fields))
    decreases fields
  {
    if fields.Field? {
      OrderedNumeric(fields.value);
      OrderedNumericFields(fields.rest);
    }
  }

  lemma {:induction false} SortNumeric(fields: Fields)
    requires NumericFields(fields)
    ensures NumericFields(SortFields(fields))
  {
    if fields.Field? {
      SortNumeric(fields.rest);
      InsertNumeric(fields.key, fields.value, SortFields(fields.rest));
    }
  }

  lemma {:induction false} InsertNumeric(key: string, value: Value, fields: Fields)
    requires NumericFields(fields) && Numeric(value)
    ensures NumericFields(InsertField(key, value, fields))
  {
    if fields.Field? { InsertNumeric(key, value, fields.rest); }
  }

  // The ordered value is the same value.

  predicate AscendingKeys(fields: Fields) {
    fields.Field? && fields.rest.Field? ==> Less(fields.key, fields.rest.key) && AscendingKeys(fields.rest)
  }

  predicate HasField(fields: Fields, key: string) {
    fields.Field? && (fields.key == key || HasField(fields.rest, key))
  }

  function FieldAt(fields: Fields, key: string): Value
    requires HasField(fields, key)
  {
    if fields.key == key then fields.value else FieldAt(fields.rest, key)
  }

  function FieldCount(fields: Fields): nat {
    if fields.NoFields? then 0 else 1 + FieldCount(fields.rest)
  }

  predicate DistinctKeys(fields: Fields) {
    fields.Field? ==> !HasField(fields.rest, fields.key) && DistinctKeys(fields.rest)
  }

  /** The keys of every object in the value differ. */
  predicate KeysDiffer(v: Value) {
    match v
    case List(items) => KeysDifferItems(items)
    case Object(fields) => DistinctKeys(fields) && KeysDifferFields(fields)
    case _ => true
  }

  predicate KeysDifferItems(items: Items) {
    items.Item? ==> KeysDiffer(items.first) && KeysDifferItems(items.rest)
  }

  predicate KeysDifferFields(fields: Fields) {
    fields.Field? ==> KeysDiffer(fields.value) && KeysDifferFields(fields.rest)
  }

  /** w is v, but for the order of the members of objects; in w they are in key order. */
  predicate SameOrdered(v: Value, w: Value) {
    match v
    case List(items) => w.List? && SameItems(items, w.items)
    case Object(fields) =>
      w.Object? && AscendingKeys(w.fields) && FieldCount(w.fields) == FieldCount(fields) && SameFields(fields, w.fields)
    case _ => w == v
  }

  predicate SameItems(items: Items, others: Items) {
    match items
    case NoItems => others.NoItems?
    case Item(v, rest) => others.Item? && SameOrdered(v, others.first) && SameItems(rest, others.rest)
  }

  /** Each of the fields is among the others, with the same value. */
  predicate SameFields(fields: Fields, others: Fields) {
    match fields
    case NoFields => true
    case Field(key, v, rest) =>
      HasField(others, key) && SameOrdered(v, FieldAt(others, key)) && SameFields(rest, others)
  }

  lemma {:induction false} InsertFieldAt(key: string, value: Value, fields: Fields, k: string)
    requires !HasField(fields, key)
    ensures HasField(InsertField(key, value, fields), k) <==> k == key || HasField(fields, k)
    ensures HasField(InsertField(key, value, fields), k) ==>
              FieldAt(InsertField(key, value, fields), k) == if k == key then value else FieldAt(fields, k)
    ensures FieldCount(InsertField(key, value, fields)) == FieldCount(fields) + 1
  {
    if fields.Field? { InsertFieldAt(key, value, fields.rest, k); }
  }

  lemma {:induction false} InsertOrdered(key: string, value: Value, fields: Fields)
    requires AscendingKeys(fields) && !HasField(fields, key)
    ensures var more := InsertField(key, value, fields);
            && AscendingKeys(more) && more.Field?
            && (more.key == key || (fields.Field? && more.key == fields.key))
  {
    if fields.Field? {
      if !Less(key, fields.key) {
        LessTotal(key, fields.key, 0);
        InsertOrdered(key, value, fields.rest);
      }
    }
  }

  lemma {:induction false} SortedFieldsAt(fields: Fields, k: string)
    requires DistinctKeys(fields)
    ensures AscendingKeys(SortFields(fields)) && FieldCount(SortFields(fields)) == FieldCount(fields)
    ensures HasField(SortFields(fields), k) <==> HasField(fields, k)
    ensures HasField(fields, k) ==> FieldAt(SortFields(fields), k) == FieldAt(fields, k)
  {
    if fields.Field? {
      var sorted := SortFields(fields.rest);
      SortedFieldsAt(fields.rest, k);
      SortedFieldsAt(fields.rest, fields.key);
      InsertFieldAt(fields.key, fields.value, sorted, k);
      InsertOrdered(fields.key, fields.value, sorted);
    }
  }

  lemma {:induction false} OrderedFieldsAt(fields: Fields, k: string)
    ensures HasField(OrderedFields(fields), k) <==> HasField(fields, k)
    ensures HasField(fields, k) ==> FieldAt(OrderedFields(fields), k) == Ordered(FieldAt(fields, k))
    ensures FieldCount(OrderedFields(fields)) == FieldCount(fields)
  {
    if fields.Field? { OrderedFieldsAt(fields.rest, k); }
  }

  lemma {:induction false} OrderedDistinct(fields: Fields)
    requires DistinctKeys(fields)
    ensures DistinctKeys(OrderedFields(fields))
  {
    if fields.Field? {
      OrderedFieldsAt(fields.rest, fields.key);
      OrderedDistinct(fields.rest);
    }
  }

  lemma {:induction false} OrderedIsSame(v: Value)
    requires KeysDiffer(v)
    ensures SameOrdered(v, Ordered(v))
    decreases v
  {
    match v
    case List(items) => OrderedSameItems(items);
    case Object(fields) =>
      var ordered := OrderedFields(fields);
      OrderedDistinct(fields);
      OrderedFieldsAt(fields, "");
      SortedFieldsAt(ordered, "");
      AmongItself(fields);
      OrderedSameFields(fields, fields);
    case _ =>
  }

  lemma {:induction false} OrderedSameItems(items: Items)
    requires KeysDifferItems(items)
    ensures SameItems(items, OrderedItems(items))
    decreases items
  {
    if items.Item? {
      OrderedIsSame(items.first);
      OrderedSameItems(items.rest);
    }
  }

  /** The fields from some point on are among all the fields, ordered. */
  predicate Among(part: Fields, fields: Fields) {
    part.Field? ==> HasField(fields, part.key) && FieldAt(fields, part.key) == part.value && Among(part.rest, fields)
  }

  lemma {:induction false} OrderedSameFields(part: Fields, fields: Fields)
    requires DistinctKeys(fields) && KeysDifferFields(part) && Among(part, fields)
    ensures SameFields(part, SortFields(OrderedFields(fields)))
    decreases part
  {
    if part.Field? {
      OrderedDistinct(fields);
      OrderedFieldsAt(fields, part.key);
      SortedFieldsAt(OrderedFields(fields), part.key);
      OrderedIsSame(part.value);
      OrderedSameFields(part.rest, fields);
    }
  }

  lemma {:induction false} AmongMore(part: Fields, key: string, value: Value, fields: Fields)
    requires Among(part, fields) && !HasField(part, key)
    ensures Among(part, Field(key, value, fields))
  {
    if part.Field? { AmongMore(part.rest, key, value, fields); }
  }

  lemma {:induction false} AmongItself(fields: Fields)
    requires DistinctKeys(fields)
    ensures Among(fields, fields)
  {
    if fields.Field? {
      AmongItself(fields.rest);
      AmongMore(fields.rest, fields.key, fields.value, fields.rest);
    }
  }

  /** Canonical text is JSON text: whatever is written around it as blanks, a reader finds the value in it. */
  lemma {:induction false} CanonIsJson(v: Value, blanks: string)
    requires Numeric(v) && KeysDiffer(v) && forall i :: 0 <= i < |blanks| ==> IsBlank(blanks[i])
    ensures ReadText(Canon(v) + blanks).Some? && SameOrdered(v, ReadText(Canon(v) + blanks).value)
  {
    CanonReadsBack(v, blanks);
    OrderedIsSame(v);
    BlanksSkipped(blanks);
  }

  lemma {:induction false} BlanksSkipped(blanks: string)
    requires forall i :: 0 <= i < |blanks| ==> IsBlank(blanks[i])
    ensures SkipBlanks(blanks) == ""
  {
    if blanks != "" { BlanksSkipped(blanks[1..]); }
  }
}
