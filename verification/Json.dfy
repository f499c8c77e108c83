/** JSON values and their canonical text: sorted keys, no spaces (sections 4, 5 and 7 of RFC 8259). */
module Json {

  /** Numbers keep the text the printer gives them. An object's fields are in the order they were put in. */
  datatype Value = Null | Number(text: string) | Text(value: string) | List(items: Items) | Object(fields: Fields)
  datatype Items = NoItems | Item(first: Value, rest: Items)
  datatype Fields = NoFields | Field(key: string, value: Value, rest: Fields)

  /** The printed members of an object. */
  datatype Members = NoMembers | Member(key: string, text: string, rest: Members)

  // Order of keys: code point by code point, a proper prefix first.

  predicate LessFrom(a: string, b: string, k: nat)
    requires k <= |a| && k <= |b|
    decreases |a| - k
  {
    if k == |b| then false
    else if k == |a| then true
    else a[k] < b[k] || (a[k] == b[k] && LessFrom(a, b, k + 1))
  }

  predicate Less(a: string, b: string) {
    LessFrom(a, b, 0)
  }

  predicate SameTo(a: string, b: string, k: nat) {
    k <= |a| && k <= |b| && forall j :: 0 <= j < k ==> a[j] == b[j]
  }

  lemma {:induction false} LessTrans(a: string, b: string, c: string, k: nat)
    requires k <= |a| && k <= |b| && k <= |c| && LessFrom(a, b, k) && LessFrom(b, c, k)
    ensures LessFrom(a, c, k)
    decreases |a| - k
  {
    if k < |a| && k < |b| && k < |c| && a[k] == b[k] == c[k] { LessTrans(a, b, c, k + 1); }
  }

  lemma {:induction false} LessIrreflexive(a: string, k: nat)
    requires k <= |a|
    ensures !LessFrom(a, a, k)
    decreases |a| - k
  {
    if k < |a| { LessIrreflexive(a, k + 1); }
  }

  lemma {:induction false} LessTotal(a: string, b: string, k: nat)
    requires SameTo(a, b, k)
    ensures LessFrom(a, b, k) || LessFrom(b, a, k) || a == b
    decreases |a| - k
  {
    if k < |a| && k < |b| && a[k] == b[k] { LessTotal(a, b, k + 1); }
  }

  /** The order of keys, from the first character in which they differ. */
  lemma {:induction false} LessExactly(a: string, b: string)
    ensures Less(a, b) <==> exists n: nat :: SameTo(a, b, n) && n < |b| && (n == |a| || (n < |a| && a[n] < b[n]))
  {
    if Less(a, b) {
      var n := FirstDifference(a, b, 0);
    }
    if n: nat :| SameTo(a, b, n) && n < |b| && (n == |a| || (n < |a| && a[n] < b[n])) { LessOn(a, b, 0, n); }
  }

  lemma {:induction false} FirstDifference(a: string, b: string, k: nat) returns (n: nat)
    requires SameTo(a, b, k) && LessFrom(a, b, k)
    ensures SameTo(a, b, n) && n < |b| && (n == |a| || (n < |a| && a[n] < b[n]))
    decreases |a| - k
  {
    if k < |a| && a[k] == b[k] { n := FirstDifference(a, b, k + 1); } else { n := k; }
  }

  lemma {:induction false} LessOn(a: string, b: string, k: nat, n: nat)
    requires k <= n && SameTo(a, b, n) && n < |b| && (n == |a| || (n < |a| && a[n] < b[n]))
    ensures LessFrom(a, b, k)
    decreases n - k
  {
    if k < n { LessOn(a, b, k + 1, n); }
  }

  // Printing.

  function Hex(n: nat): char
    requires n < 16
  {
    "0123456789abcdef"[n]
  }

  /** A printed character: quotation marks, backslashes and control characters are escaped. */
  function Escaped(c: char): string {
    if c == '"' then "\\\"" else if c == '\\' then "\\\\"
    else if c == '\n' then "\\n" else if c == '\r' then "\\r" else if c == '\t' then "\\t"
    else if c as int == 8 then "\\b" else if c as int == 12 then "\\f"
    else if c as int < 32 then "\\u00" + [Hex(c as int / 16), Hex(c as int % 16)]
    else [c]
  }

  function Escape(s: string, n: nat): string
    requires n <= |s|
  {
    if n == 0 then "" else Escape(s, n - 1) + Escaped(s[n - 1])
  }

  function Quoted(s: string): string {
    "\"" + Escape(s, |s|) + "\""
  }

  predicate Plain(c: char) {
    c != '"' && c != '\\' && c as int >= 32
  }

  lemma {:induction false} PlainIsItself(s: string, n: nat)
    requires n <= |s| && forall c :: c in s ==> Plain(c)
    ensures Escape(s, n) == s[..n]
  {
    if n > 0 {
      PlainIsItself(s, n - 1);
      assert s[n - 1] in s;
      assert s[..n] == s[..n - 1] + [s[n - 1]];
    }
  }

  /** json.dumps(value, ensure_ascii=False, sort_keys=True, separators=(",", ":")) */
  function Canon(v: Value): string
    decreases v
  {
    match v
    case Null => "null"
    case Number(text) => text
    case Text(value) => Quoted(value)
    case List(items) => PutItems("[", true, items) + "]"
    case Object(fields) => PutMembers("{", true, Sorted(MembersOf(fields))) + "}"
  }

  /** Items after the text so far, with a comma before all but the first. */
  function PutItems(so: string, first: bool, items: Items): string
    decreases items
  {
    match items
    case NoItems => so
    case Item(v, rest) => PutItems((if first then so else so + ",") + Canon(v), false, rest)
  }

  function MembersOf(fields: Fields): Members
    decreases fields
  {
    match fields
    case NoFields => NoMembers
    case Field(key, value, rest) => Member(key, Canon(value), MembersOf(rest))
  }

  function PutMembers(so: string, first: bool, members: Members): string
    decreases members
  {
    match members
    case NoMembers => so
    case Member(key, text, rest) => PutMembers((if first then so else so + ",") + Quoted(key) + ":" + text, false, rest)
  }

  /** Text written in front stays in front. */
  lemma {:induction false} ItemsAfter(before: string, so: string, first: bool, items: Items)
    ensures PutItems(before + so, first, items) == before + PutItems(so, first, items)
    decreases items
  {
    match items
    case NoItems =>
    case Item(v, rest) =>
      var next := (if first then so else so + ",") + Canon(v);
      assert (if first then before + so else before + so + ",") + Canon(v) == before + next;
      ItemsAfter(before, next, false, rest);
  }

  lemma {:induction false} MembersAfter(before: string, so: string, first: bool, members: Members)
    ensures PutMembers(before + so, first, members) == before + PutMembers(so, first, members)
    decreases members
  {
    match members
    case NoMembers =>
    case Member(key, text, rest) =>
      var next := (if first then so else so + ",") + Quoted(key) + ":" + text;
      assert (if first then before + so else before + so + ",") + Quoted(key) + ":" + text == before + next;
      MembersAfter(before, next, false, rest);
  }

  // Sorting.

  function Insert(key: string, text: string, members: Members): Members {
    match members
    case NoMembers => Member(key, text, NoMembers)
    case Member(k, t, rest) =>
      if Less(key, k) then Member(key, text, members) else Member(k, t, Insert(key, text, rest))
  }

  function Sorted(members: Members): Members {
    match members
    case NoMembers => NoMembers
    case Member(key, text, rest) => Insert(key, text, Sorted(rest))
  }

  predicate Above(key: string, members: Members) {
    match members
    case NoMembers => true
    case Member(k, _, rest) => Less(key, k) && Above(key, rest)
  }

  predicate Ascending(members: Members) {
    match members
    case NoMembers => true
    case Member(key, _, rest) => Above(key, rest) && Ascending(rest)
  }

  /** key is among the members, with this text. */
  predicate Has(members: Members, key: string, text: string) {
    match members
    case NoMembers => false
    case Member(k, t, rest) => (k == key && t == text) || Has(rest, key, text)
  }

  predicate HasKey(members: Members, key: string) {
    match members
    case NoMembers => false
    case Member(k, _, rest) => k == key || HasKey(rest, key)
  }

  predicate Distinct(members: Members) {
    match members
    case NoMembers => true
    case Member(k, _, rest) => !HasKey(rest, k) && Distinct(rest)
  }

  /** The same object: the same keys with the same values, whatever the order. */
  ghost predicate SameMembers(a: Members, b: Members) {
    forall key, text :: Has(a, key, text) <==> Has(b, key, text)
  }

  lemma {:induction false} AboveTrans(a: string, b: string, members: Members)
    requires Less(a, b) && Above(b, members)
    ensures Above(a, members)
  {
    match members
    case NoMembers =>
    case Member(k, _, rest) =>
      LessTrans(a, b, k, 0);
      AboveTrans(a, b, rest);
  }

  lemma {:induction false} AboveHas(key: string, members: Members, k: string, text: string)
    requires Above(key, members) && Has(members, k, text)
    ensures Less(key, k) && key != k
  {
    LessIrreflexive(key, 0);
    match members
    case Member(m, t, rest) =>
      if Has(rest, k, text) { AboveHas(key, rest, k, text); }
  }

  lemma {:induction false} InsertKeeps(key: string, text: string, members: Members, k: string, t: string)
    ensures Has(Insert(key, text, members), k, t) <==> (k == key && t == text) || Has(members, k, t)
  {
    match members
    case NoMembers =>
    case Member(_, _, rest) => InsertKeeps(key, text, rest, k, t);
  }

  lemma {:induction false} InsertAbove(low: string, key: string, text: string, members: Members)
    requires Above(low, members) && Less(low, key)
    ensures Above(low, Insert(key, text, members))
  {
    match members
    case NoMembers =>
    case Member(_, _, rest) => InsertAbove(low, key, text, rest);
  }

  lemma {:induction false} InsertAscends(key: string, text: string, members: Members)
    requires Ascending(members) && !HasKey(members, key)
    ensures Ascending(Insert(key, text, members))
  {
    match members
    case NoMembers =>
    case Member(k, _, rest) =>
      if Less(key, k) {
        AboveTrans(key, k, rest);
      } else {
        LessTotal(key, k, 0);
        InsertAscends(key, text, rest);
        InsertAbove(k, key, text, rest);
      }
  }

  lemma {:induction false} SortedKeys(members: Members, k: string)
    ensures HasKey(Sorted(members), k) <==> HasKey(members, k)
  {
    match members
    case NoMembers =>
    case Member(key, text, rest) =>
      SortedKeys(rest, k);
      InsertKeys(key, text, Sorted(rest), k);
  }

  lemma {:induction false} InsertKeys(key: string, text: string, members: Members, k: string)
    ensures HasKey(Insert(key, text, members), k) <==> k == key || HasKey(members, k)
  {
    match members
    case NoMembers =>
    case Member(_, _, rest) => InsertKeys(key, text, rest, k);
  }

  lemma {:induction false} SortedSame(members: Members)
    ensures SameMembers(Sorted(members), members)
  {
    match members
    case NoMembers =>
    case Member(key, text, rest) =>
      SortedSame(rest);
      forall k, t ensures Has(Sorted(members), k, t) <==> Has(members, k, t) {
        InsertKeeps(key, text, Sorted(rest), k, t);
      }
  }

  lemma {:induction false} SortedAscends(members: Members)
    requires Distinct(members)
    ensures Ascending(Sorted(members))
  {
    match members
    case NoMembers =>
    case Member(key, text, rest) =>
      SortedAscends(rest);
      SortedKeys(rest, key);
      InsertAscends(key, text, Sorted(rest));
  }

  /** An object has one ascending list of members. */
  lemma {:induction false} AscendingIsUnique(a: Members, b: Members)
    requires Ascending(a) && Ascending(b) && SameMembers(a, b)
    ensures a == b
  {
    match a
    case NoMembers =>
      if b.Member? { assert Has(b, b.key, b.text); }
    case Member(key, text, rest) =>
      assert Has(a, key, text);
      assert Has(b, b.key, b.text);
      if b.key != key || b.text != text {
        AboveHas(b.key, b.rest, key, text);
        AboveHas(key, rest, b.key, b.text);
        LessTrans(key, b.key, key, 0);
        LessIrreflexive(key, 0);
      }
      forall k, t ensures Has(rest, k, t) <==> Has(b.rest, k, t) {
        assert Has(a, k, t) <==> Has(b, k, t);
        if Has(rest, k, t) { AboveHas(key, rest, k, t); }
        if Has(b.rest, k, t) { AboveHas(key, b.rest, k, t); }
      }
      AscendingIsUnique(rest, b.rest);
  }

  /** The canonical text does not depend on the order in which an object was put together. */
  lemma {:induction false} CanonIgnoresOrder(f: Fields, g: Fields)
    requires Distinct(MembersOf(f)) && Distinct(MembersOf(g)) && SameMembers(MembersOf(f), MembersOf(g))
    ensures Canon(Object(f)) == Canon(Object(g))
  {
    SortedAscends(MembersOf(f));
    SortedAscends(MembersOf(g));
    SortedSame(MembersOf(f));
    SortedSame(MembersOf(g));
    AscendingIsUnique(Sorted(MembersOf(f)), Sorted(MembersOf(g)));
  }

  /** Members already in order are printed as they stand. */
  lemma {:induction false} AscendingIsSorted(members: Members)
    requires Ascending(members)
    ensures Sorted(members) == members
  {
    match members
    case NoMembers =>
    case Member(_, _, rest) => AscendingIsSorted(rest);
  }
}
