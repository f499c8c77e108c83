/** What normalization keeps of a text, said without its steps: by one pass over the text, and by its marks. */
module NormalizedText {
  import opened Fingerprints

  predicate StartsCrLf(s: string) {
    |s| >= 2 && s[0] == '\r' && s[1] == '\n'
  }

  /** Each line end becomes one '\n'. A blank stays exactly if something other than a line end follows what stays. */
  function Core(s: string): string {
    if s == "" then ""
    else if StartsCrLf(s) then "\n" + Core(s[2..])
    else if s[0] == '\r' || s[0] == '\n' then "\n" + Core(s[1..])
    else if IsSpace(s[0]) && (Core(s[1..]) == "" || Core(s[1..])[0] == '\n') then Core(s[1..])
    else [s[0]] + Core(s[1..])
  }

  /** The marks of a text: its characters that are not blank, and one '\n' for each line end. */
  function Marks(s: string): string {
    if s == "" then ""
    else if StartsCrLf(s) then "\n" + Marks(s[2..])
    else if s[0] == '\r' || s[0] == '\n' then "\n" + Marks(s[1..])
    else if IsSpace(s[0]) then Marks(s[1..])
    else [s[0]] + Marks(s[1..])
  }

  function Unified(s: string): string {
    ReplaceCr(ReplaceCrLf(s))
  }

  // A line end is one, however it is written.

  /** A whole line end between two pieces of text: "\r\n", or one of its characters not next to the other. */
  predicate EndsLine(x: string, end: string, y: string) {
    || end == "\r\n"
    || (end == "\r" && (y == "" || y[0] != '\n'))
    || (end == "\n" && (x == "" || x[|x| - 1] != '\r'))
  }

  /** What the first character or pair becomes, and what follows it. */
  function Front(s: string): string
    requires s != ""
  {
    if s[0] == '\r' then "\n" else [s[0]]
  }

  function Rest(s: string): (rest: string)
    requires s != ""
    ensures |rest| < |s|
  {
    if StartsCrLf(s) then s[2..] else s[1..]
  }

  lemma {:induction false} UnifiedStep(s: string)
    requires s != ""
    ensures Unified(s) == Front(s) + Unified(Rest(s))
  {
    var first := if StartsCrLf(s) then "\n" else [s[0]];
    assert ReplaceCrLf(s) == first + ReplaceCrLf(Rest(s));
    assert (first + ReplaceCrLf(Rest(s)))[1..] == ReplaceCrLf(Rest(s));
  }

  lemma {:induction false} UnifiedEnd(end: string, y: string)
    requires EndsLine("", end, y)
    ensures Unified(end + y) == "\n" + Unified(y)
  {
    UnifiedStep(end + y);
    assert (end + y)[|end|..] == y;
  }

  lemma {:induction false} TextTail(x: string, end: string, y: string)
    requires x != "" && EndsLine(x, end, y)
    ensures var s := x + end + y; Front(s) == Front(x) && Rest(s) == Rest(x) + end + y && EndsLine(Rest(x), end, y)
  {
    assert x + end + y == x + (end + y);
  }

  lemma {:induction false} Regroup(front: string, text: string, more: string)
    ensures front + (text + more) == front + text + more
  {
  }

  lemma {:induction false} UnifiedAt(x: string, end: string, y: string)
    requires EndsLine(x, end, y)
    ensures Unified(x + end + y) == Unified(x) + ("\n" + Unified(y))
  {
    if x == "" {
      assert x + end + y == end + y;
      UnifiedEnd(end, y);
    } else {
      TextTail(x, end, y);
      UnifiedAt(Rest(x), end, y);
      UnifiedStep(x + end + y);
      UnifiedStep(x);
      Regroup(Front(x), Unified(Rest(x)), "\n" + Unified(y));
    }
  }

  /** Two texts that differ in how one line end is written normalize alike. */
  lemma {:induction false} LineEndsAlike(x: string, end: string, other: string, y: string)
    requires EndsLine(x, end, y) && EndsLine(x, other, y)
    ensures Normalize(x + end + y) == Normalize(x + other + y)
  {
    UnifiedAt(x, end, y);
    UnifiedAt(x, other, y);
  }

  // The pass computes the text that normalization strips at both ends.

  lemma {:induction false} CoreUnified(s: string)
    ensures Core(Unified(s)) == Core(s) && '\r' !in Unified(s)
  {
    ReplaceCrRemoves(ReplaceCrLf(s));
    if s != "" {
      UnifiedStep(s);
      CoreUnified(Rest(s));
      assert Unified(s)[1..] == Unified(Rest(s));
    }
  }

  lemma {:induction false} RStripCons(c: char, s: string)
    ensures RStrip([c] + s) == if RStrip(s) == "" && IsSpace(c) then "" else [c] + RStrip(s)
  {
    var t := [c] + s;
    if s != "" && IsSpace(s[|s| - 1]) {
      assert t[..|t| - 1] == [c] + s[..|s| - 1];
      RStripCons(c, s[..|s| - 1]);
    } else if s == "" {
      assert t[..|t| - 1] == "";
    }
  }

  lemma {:induction false} EmptyLine(lines: seq<string>)
    requires lines != []
    ensures Unlines(RStripEach([""] + lines)) == "\n" + Unlines(RStripEach(lines))
  {
    assert ([""] + lines)[1..] == lines;
    assert RStripEach([""] + lines) == [""] + RStripEach(lines);
    assert ([""] + RStripEach(lines))[1..] == RStripEach(lines);
  }

  lemma {:induction false} CoreOfLines(s: string)
    requires '\r' !in s
    ensures Core(s) == Unlines(RStripEach(Lines(s)))
  {
    if s != "" {
      var rest := Lines(s[1..]);
      CoreOfLines(s[1..]);
      LinesSplit(s[1..]);
      if s[0] == '\n' {
        EmptyLine(rest);
      } else {
        FirstLine(s[0], rest);
      }
    }
  }

  /** A character put before the first line. */
  lemma {:induction false} FirstLine(c: char, lines: seq<string>)
    requires lines != [] && '\n' !in lines[0] && c != '\n'
    ensures var rest := Unlines(RStripEach(lines));
            Unlines(RStripEach([[c] + lines[0]] + lines[1..]))
            == if IsSpace(c) && (rest == "" || rest[0] == '\n') then rest else [c] + rest
  {
    var first, tail := lines[0], lines[1..];
    StrippedText(first, tail);
    StrippedText([c] + first, tail);
    assert [first] + tail == lines;
    RStripCons(c, first);
    StripFirst(c, first, RStrip(first), if tail == [] then "" else "\n" + Unlines(RStripEach(tail)));
  }

  lemma {:induction false} StrippedText(first: string, tail: seq<string>)
    ensures Unlines(RStripEach([first] + tail))
            == RStrip(first) + if tail == [] then "" else "\n" + Unlines(RStripEach(tail))
  {
    var lines := [first] + tail;
    assert lines[1..] == tail;
    assert RStripEach(lines)[1..] == RStripEach(tail);
    if tail == [] { assert RStrip(first) + "" == RStrip(first); }
  }

  /** text is the first line without blanks at its end, after what follows the line. */
  lemma {:induction false} StripFirst(c: char, first: string, text: string, after: string)
    requires text <= first && '\n' !in first && (after == "" || after[0] == '\n')
    ensures var rest := text + after;
            (if text == "" && IsSpace(c) then "" else [c] + text) + after
            == if IsSpace(c) && (rest == "" || rest[0] == '\n') then rest else [c] + rest
  {
    if text != "" { assert text[0] == first[0]; }
  }

  predicate Blank(s: string) {
    forall i :: 0 <= i < |s| ==> IsSpace(s[i])
  }

  lemma {:induction false} RStripCut(s: string)
    ensures Blank(s[|RStrip(s)|..])
  {
    if s != "" && IsSpace(s[|s| - 1]) { RStripCut(s[..|s| - 1]); }
  }

  lemma {:induction false} LStripCut(s: string)
    ensures Blank(s[..|s| - |LStrip(s)|])
  {
    if s != "" && IsSpace(s[0]) { LStripCut(s[1..]); }
  }

  /** left and right are the blanks cut off at the two ends. */
  ghost predicate Stripped(text: string, left: string, right: string, whole: string) {
    && whole == left + text + right && Blank(left) && Blank(right)
    && (text == "" || (!IsSpace(text[0]) && !IsSpace(text[|text| - 1])))
  }

  /** Normalized text is what the pass gives, without the blanks at its ends. */
  lemma {:induction false} NormalizeExactly(s: string) returns (left: string, right: string)
    ensures Stripped(Normalize(s), left, right, Core(s))
  {
    CoreUnified(s);
    CoreOfLines(Unified(s));
    left, right := StripCuts(Core(s));
  }

  lemma {:induction false} StripCuts(whole: string) returns (left: string, right: string)
    ensures Stripped(LStrip(RStrip(whole)), left, right, whole)
  {
    RStripCut(whole);
    LStripCut(RStrip(whole));
    left, right := CutEnds(whole, RStrip(whole), LStrip(RStrip(whole)));
  }

  lemma {:induction false} CutEnds(whole: string, body: string, text: string) returns (left: string, right: string)
    requires body <= whole && Solid(body) && Blank(whole[|body|..])
    requires |text| <= |body| && text == body[|body| - |text|..] && Blank(body[..|body| - |text|])
    requires text == "" || !IsSpace(text[0])
    ensures Stripped(text, left, right, whole)
  {
    left, right := body[..|body| - |text|], whole[|body|..];
    assert whole == left + text + right;
    if text != "" { assert text[|text| - 1] == body[|body| - 1]; }
  }

  // No character that is not blank is lost or moved, and no line end between two of them.

  lemma {:induction false} MarksOfCore(s: string)
    ensures Marks(Core(s)) == Marks(s) && '\r' !in Core(s)
  {
    if s != "" {
      MarksOfCore(Rest(s));
      assert Core(s) != Core(Rest(s)) ==> Core(s)[1..] == Core(Rest(s));
    }
  }

  lemma {:induction false} MarksAppend(x: string, y: string)
    requires '\r' !in x && '\r' !in y
    ensures Marks(x + y) == Marks(x) + Marks(y)
  {
    if x == "" {
      assert x + y == y;
    } else {
      assert (x + y)[1..] == x[1..] + y;
      MarksAppend(x[1..], y);
    }
  }

  predicate LineEnds(s: string) {
    forall i :: 0 <= i < |s| ==> s[i] == '\n'
  }

  lemma {:induction false} MarksOfBlank(s: string)
    requires '\r' !in s && Blank(s)
    ensures LineEnds(Marks(s))
  {
    if s != "" { MarksOfBlank(s[1..]); }
  }

  lemma {:induction false} MarksOfSolid(s: string)
    requires '\r' !in s && s != "" && !IsSpace(s[0]) && !IsSpace(s[|s| - 1])
    ensures var marks := Marks(s); marks != "" && marks[0] == s[0] && marks[|marks| - 1] == s[|s| - 1]
  {
    var before, last := s[..|s| - 1], s[|s| - 1..];
    assert s == before + last;
    MarksAppend(before, last);
    assert Marks(last) == last;
  }

  lemma {:induction false} MarksOfParts(text: string, left: string, right: string, whole: string)
    requires Stripped(text, left, right, whole) && '\r' !in whole
    ensures Marks(whole) == Marks(left) + Marks(text) + Marks(right)
    ensures LineEnds(Marks(left)) && LineEnds(Marks(right))
    ensures text != "" ==> var marks := Marks(text); marks != "" && marks[0] != '\n' && marks[|marks| - 1] != '\n'
  {
    assert '\r' !in left + text && '\r' !in right;
    assert '\r' !in left && '\r' !in text;
    MarksAppend(left + text, right);
    MarksAppend(left, text);
    MarksOfBlank(left);
    MarksOfBlank(right);
    if text != "" { MarksOfSolid(text); }
  }

  /** The marks of normalized text are those of the text, in order, without the line ends at either end. */
  lemma {:induction false} MarksKept(s: string) returns (before: string, after: string)
    ensures Marks(s) == before + Marks(Normalize(s)) + after && LineEnds(before) && LineEnds(after)
    ensures Normalize(s) != "" ==>
              var marks := Marks(Normalize(s));
              marks != "" && marks[0] != '\n' && marks[|marks| - 1] != '\n'
  {
    var left, right := NormalizeExactly(s);
    MarksOfCore(s);
    MarksOfParts(Normalize(s), left, right, Core(s));
    before, after := Marks(left), Marks(right);
  }
}
