/** A reader of JSON text, after the grammar of RFC 8259 (sections 2 to 7), and what it makes of canonical text. It has
    no case for true and false, which Value does not have either. */
module JsonReader {
  import opened Integers
  import opened Json
  import opened Wrappers

  /** What is read from the front of a text, and the text behind it. */
  datatype Read<T> = Done(value: T, rest: string) | Malformed

  predicate IsBlank(c: char) {
    c == ' ' || c == '\t' || c == '\n' || c == '\r'
  }

  function SkipBlanks(s: string): (t: string)
    ensures |t| <= |s|
  {
    if s != "" && IsBlank(s[0]) then SkipBlanks(s[1..]) else s
  }

  // Strings (section 7).

  function HexDigit(c: char): Option<nat> {
    if '0' <= c <= '9' then Some(c as int - '0' as int)
    else if 'a' <= c <= 'f' then Some(c as int - 'a' as int + 10)
    else if 'A' <= c <= 'F' then Some(c as int - 'A' as int + 10)
    else None
  }

  /** The four digits behind "\u". */
  function CodeUnit(s: string): Option<nat> {
    if |s| < 4 then None
    else match (HexDigit(s[0]), HexDigit(s[1]), HexDigit(s[2]), HexDigit(s[3]))
      case (Some(a), Some(b), Some(c), Some(d)) => Some(((a * 16 + b) * 16 + c) * 16 + d)
      case _ => None
  }

  /** The character a two-character escape stands for, given its second character. */
  function ShortEscape(c: char): Option<char> {
    match c
    case '"' => Some('"')
    case '\\' => Some('\\')
    case '/' => Some('/')
    case 'b' => Some(8 as char)
    case 'f' => Some(12 as char)
    case 'n' => Some('\n')
    case 'r' => Some('\r')
    case 't' => Some('\t')
    case _ => None
  }

  function Cons(c: char, more: Read<string>): Read<string> {
    match more
    case Done(text, rest) => Done([c] + text, rest)
    case Malformed => Malformed
  }

  /** The characters up to the closing quotation mark. */
  function ReadChars(s: string): (r: Read<string>)
    ensures r.Done? ==> |r.rest| < |s|
    decreases |s|, 1
  {
    if s == "" || s[0] as int < 32 then Malformed
    else if s[0] == '"' then Done("", s[1..])
    else if s[0] != '\\' then Cons(s[0], ReadChars(s[1..]))
    else if |s| < 2 then Malformed
    else if s[1] == 'u' then ReadUnit(s)
    else match ShortEscape(s[1])
      case Some(c) => Cons(c, ReadChars(s[2..]))
      case None => Malformed
  }

  /** A "\u" escape: one code unit, or the two surrogates of a character beyond the Basic Multilingual Plane. */
  function ReadUnit(s: string): (r: Read<string>)
    requires |s| >= 2
    ensures r.Done? ==> |r.rest| < |s|
    decreases |s|, 0
  {
    match CodeUnit(s[2..])
    case None => Malformed
    case Some(n) =>
      if !(0xD800 <= n < 0xE000) && n < 0x10000 then Cons(n as char, ReadChars(s[6..]))
      else if n < 0xDC00 && |s| >= 8 && s[6] == '\\' && s[7] == 'u' then
        match CodeUnit(s[8..])
        case Some(low) =>
          if 0xDC00 <= low < 0xE000 then
            Cons((0x10000 + (n - 0xD800) * 0x400 + (low - 0xDC00)) as char, ReadChars(s[12..]))
          else Malformed
        case None => Malformed
      else Malformed
  }

  // Numbers (section 6).

  function DigitsEnd(s: string, i: nat): (j: nat)
    requires i <= |s|
    ensures i <= j <= |s|
    decreases |s| - i
  {
    if i < |s| && IsDigit(s[i]) then DigitsEnd(s, i + 1) else i
  }

  /** Behind the integer part: a single zero, or digits that do not begin with one. */
  function IntegerEnd(s: string, i: nat): (end: Option<nat>)
    requires i <= |s|
    ensures end.Some? ==> i < end.value <= |s|
  {
    if i == |s| || !IsDigit(s[i]) then None
    else if s[i] == '0' then Some(i + 1)
    else Some(DigitsEnd(s, i + 1))
  }

  /** Behind the fraction, if there is one. */
  function FractionEnd(s: string, i: nat): (end: Option<nat>)
    requires i <= |s|
    ensures end.Some? ==> i <= end.value <= |s|
  {
    if i == |s| || s[i] != '.' then Some(i)
    else if DigitsEnd(s, i + 1) == i + 1 then None
    else Some(DigitsEnd(s, i + 1))
  }

  /** Behind the exponent, if there is one. */
  function ExponentEnd(s: string, i: nat): (end: Option<nat>)
    requires i <= |s|
    ensures end.Some? ==> i <= end.value <= |s|
  {
    if i == |s| || (s[i] != 'e' && s[i] != 'E') then Some(i)
    else
      var j := if i + 1 < |s| && (s[i + 1] == '+' || s[i + 1] == '-') then i + 2 else i + 1;
      if DigitsEnd(s, j) == j then None else Some(DigitsEnd(s, j))
  }

  function NumberEnd(s: string): (end: Option<nat>)
    ensures end.Some? ==> 0 < end.value <= |s|
  {
    match IntegerEnd(s, if s != "" && s[0] == '-' then 1 else 0)
    case None => None
    case Some(i) =>
      match FractionEnd(s, i)
      case None => None
      case Some(j) => ExponentEnd(s, j)
  }

  /** The text is one number, whole. */
  predicate IsNumber(text: string) {
    NumberEnd(text) == Some(|text|)
  }

  // Values (sections 2 to 5).

  function ReadValue(text: string): (r: Read<Value>)
    ensures r.Done? ==> |r.rest| < |text|
    decreases |text|, 0
  {
    var s := SkipBlanks(text);
    if s == "" then Malformed
    else if s[0] == '"' then
      match ReadChars(s[1..])
      case Done(chars, rest) => Done(Text(chars), rest)
      case Malformed => Malformed
    else if s[0] == '[' then
      var t := SkipBlanks(s[1..]);
      if t != "" && t[0] == ']' then Done(List(NoItems), t[1..])
      else match ReadItems(s[1..])
        case Done(items, rest) => Done(List(items), rest)
        case Malformed => Malformed
    else if s[0] == '{' then
      var t := SkipBlanks(s[1..]);
      if t != "" && t[0] == '}' then Done(Object(NoFields), t[1..])
      else match ReadFields(s[1..])
        case Done(fields, rest) => Done(Object(fields), rest)
        case Malformed => Malformed
    else if "null" <= s then Done(Null, s[4..])
    else match NumberEnd(s)
      case Some(end) => Done(Number(s[..end]), s[end..])
      case None => Malformed
  }

  /** One item or more, up to the closing bracket. */
  function ReadItems(text: string): (r: Read<Items>)
    ensures r.Done? ==> |r.rest| < |text|
    decreases |text|, 1
  {
    match ReadValue(text)
    case Malformed => Malformed
    case Done(v, rest) =>
      var t := SkipBlanks(rest);
      if t == "" then Malformed
      else if t[0] == ']' then Done(Item(v, NoItems), t[1..])
      else if t[0] != ',' then Malformed
      else match ReadItems(t[1..])
        case Done(more, end) => Done(Item(v, more), end)
        case Malformed => Malformed
  }

  /** One member or more, up to the closing brace. */
  function ReadFields(text: string): (r: Read<Fields>)
    ensures r.Done? ==> |r.rest| < |text|
    decreases |text|, 1
  {
    match ReadKey(text)
    case Malformed => Malformed
    case Done(key, behind) =>
      match ReadValue(behind)
      case Malformed => Malformed
      case Done(v, rest) =>
        var t := SkipBlanks(rest);
        if t == "" then Malformed
        else if t[0] == '}' then Done(Field(key, v, NoFields), t[1..])
        else if t[0] != ',' then Malformed
        else match ReadFields(t[1..])
          case Done(more, end) => Done(Field(key, v, more), end)
          case Malformed => Malformed
  }

  /** A key and its colon. */
  function ReadKey(text: string): (r: Read<string>)
    ensures r.Done? ==> |r.rest| < |text|
  {
    var s := SkipBlanks(text);
    if s == "" || s[0] != '"' then Malformed
    else match ReadChars(s[1..])
      case Malformed => Malformed
      case Done(key, rest) =>
        var t := SkipBlanks(rest);
        if t != "" && t[0] == ':' then Done(key, t[1..]) else Malformed
  }

  /** A whole JSON text: one value, with blanks around it. */
  function ReadText(text: string): Option<Value> {
    match ReadValue(text)
    case Malformed => None
    case Done(v, rest) => if SkipBlanks(rest) == "" then Some(v) else None
  }
}
