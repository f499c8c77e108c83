/** How Python prints and reads the counts of a manifest. */
module Integers {
  import opened Fingerprints
  import opened Wrappers

  const DIGITS := "0123456789"

  function Digit(n: nat): char
    requires n < 10
  {
    DIGITS[n]
  }

  /** str(n) */
  function Decimal(n: nat): string {
    if n < 10 then [Digit(n)] else Decimal(n / 10) + [Digit(n % 10)]
  }

  predicate IsDigit(c: char) {
    '0' <= c <= '9'
  }

  /** Digits, with single underscores between them. The digits before these have this value; open says that an
      underscore or the end may follow. */
  function Unsigned(text: string, value: nat, open: bool): Option<int> {
    if text == [] then if open then Some(value) else None
    else if IsDigit(text[0]) then Unsigned(text[1..], value * 10 + (text[0] - '0') as nat, true)
    else if text[0] == '_' && open then Unsigned(text[1..], value, false)
    else None
  }

  /** str.strip, from both ends. */
  function Stripped(text: string): string {
    if text == "" then ""
    else if IsSpace(text[0]) then Stripped(text[1..])
    else if IsSpace(text[|text| - 1]) then Stripped(text[..|text| - 1])
    else text
  }

  /** int(text), with None where it raises: white space is stripped, then one sign may lead. */
  function ParseInt(text: string): Option<int> {
    var stripped := Stripped(text);
    if stripped == [] then None
    else if stripped[0] == '-' then
      match Unsigned(stripped[1..], 0, false)
      case None => None
      case Some(n) => Some(-n)
    else Unsigned(if stripped[0] == '+' then stripped[1..] else stripped, 0, false)
  }

  lemma {:induction false} OneDigit(n: nat)
    requires n < 10
    ensures IsDigit(Digit(n)) && (Digit(n) - '0') as nat == n
  {
    assert DIGITS[n] == ['0', '1', '2', '3', '4', '5', '6', '7', '8', '9'][n];
  }

  lemma {:induction false} DecimalIsDigits(n: nat)
    ensures Decimal(n) != "" && forall i :: 0 <= i < |Decimal(n)| ==> IsDigit(Decimal(n)[i])
  {
    OneDigit(n % 10);
    if n >= 10 { DecimalIsDigits(n / 10); }
  }

  /** Reading the digits of n leaves the value n before the rest. */
  lemma {:induction false} DecimalIsRead(n: nat, rest: string, open: bool)
    ensures Unsigned(Decimal(n) + rest, 0, open) == Unsigned(rest, n, true)
  {
    OneDigit(n % 10);
    var last := [Digit(n % 10)];
    assert (last + rest)[1..] == rest;
    if n >= 10 {
      assert Decimal(n) + rest == Decimal(n / 10) + (last + rest);
      DecimalIsRead(n / 10, last + rest, open);
    }
  }

  lemma {:induction false} DigitsStay(text: string)
    requires text != "" && forall i :: 0 <= i < |text| ==> IsDigit(text[i])
    ensures ParseInt(text) == Unsigned(text, 0, false)
  {
    assert IsDigit(text[0]) && IsDigit(text[|text| - 1]);
  }

  /** int() reads back what a count prints. */
  lemma {:induction false} ParseDecimal(n: nat)
    ensures ParseInt(Decimal(n)) == Some(n)
  {
    DecimalIsDigits(n);
    DigitsStay(Decimal(n));
    DecimalIsRead(n, "", false);
    assert Decimal(n) + "" == Decimal(n);
  }

  /** A sign in front is read as one, and white space around the number is skipped. */
  lemma {:induction false} SignIsRead(n: nat)
    ensures ParseInt("-" + Decimal(n)).Some? && ParseInt("-" + Decimal(n)).value == 0 - n
    ensures ParseInt("+" + Decimal(n)).Some? && ParseInt("+" + Decimal(n)).value == n
  {
    DecimalIsDigits(n);
    DecimalIsRead(n, "", false);
    assert Decimal(n) + "" == Decimal(n);
    var minus, plus := "-" + Decimal(n), "+" + Decimal(n);
    assert minus[1..] == Decimal(n) && plus[1..] == Decimal(n);
    assert IsDigit(minus[|minus| - 1]) && IsDigit(plus[|plus| - 1]);
  }

  lemma {:induction false} BlanksAreSkipped(text: string, blank: char)
    requires IsSpace(blank)
    ensures ParseInt([blank] + text) == ParseInt(text) == ParseInt(text + [blank])
  {
    assert ([blank] + text)[1..] == text;
    StrippedAfter(text, blank);
  }

  lemma {:induction false} StrippedAfter(text: string, blank: char)
    requires IsSpace(blank)
    ensures Stripped(text + [blank]) == Stripped(text)
  {
    var more := text + [blank];
    if text != "" && IsSpace(text[0]) {
      assert more[1..] == text[1..] + [blank];
      StrippedAfter(text[1..], blank);
    } else if text != "" {
      assert more[..|more| - 1] == text;
    } else {
      assert more[1..] == "";
    }
  }

  /** A digit, or an underscore that something else than an underscore follows. */
  predicate DigitAt(text: string, i: nat) {
    i < |text| && (IsDigit(text[i]) || (text[i] == '_' && i + 1 < |text| && text[i + 1] != '_'))
  }

  /** Nothing but digits and single underscores between them is read as digits. */
  lemma {:induction false} OnlyDigits(text: string, value: nat, open: bool)
    requires Unsigned(text, value, open).Some?
    ensures forall i: nat :: i < |text| ==> DigitAt(text, i)
    ensures text != "" && !open ==> IsDigit(text[0])
  {
    if text != "" {
      var rest := text[1..];
      OnlyDigits(rest, if IsDigit(text[0]) then value * 10 + (text[0] - '0') as nat else value, IsDigit(text[0]));
      if text[0] == '_' { assert rest != "" && text[1] == rest[0]; }
      forall i: nat | i < |text| ensures DigitAt(text, i) {
        if i > 0 { assert DigitAt(rest, i - 1); }
      }
    }
  }
}
