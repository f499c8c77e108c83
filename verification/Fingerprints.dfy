/** Text normalization, the near-duplicate test and the length prefilter of the near-duplicate search. */
module Fingerprints {

  /** The characters str.strip removes. */
  predicate IsSpace(c: char) {
    var n := c as int;
    9 <= n <= 13 || 28 <= n <= 32 || n == 0x85 || n == 0xA0 || n == 0x1680 || 0x2000 <= n <= 0x200A
    || n == 0x2028 || n == 0x2029 || n == 0x202F || n == 0x205F || n == 0x3000
  }

  function ReplaceCrLf(s: string): string {
    if s == "" then ""
    else if |s| >= 2 && s[0] == '\r' && s[1] == '\n' then "\n" + ReplaceCrLf(s[2..])
    else [s[0]] + ReplaceCrLf(s[1..])
  }

  function ReplaceCr(s: string): string {
    if s == "" then "" else [if s[0] == '\r' then '\n' else s[0]] + ReplaceCr(s[1..])
  }

  function Lines(s: string): (lines: seq<string>)
    ensures lines != []
  {
    if s == "" then [""]
    else if s[0] == '\n' then [""] + Lines(s[1..])
    else
      var rest := Lines(s[1..]);
      [[s[0]] + rest[0]] + rest[1..]
  }

  function Unlines(lines: seq<string>): string
    requires lines != []
  {
    if |lines| == 1 then lines[0] else lines[0] + "\n" + Unlines(lines[1..])
  }

  function RStrip(s: string): (t: string)
    ensures t <= s && Solid(t)
  {
    if s == "" || !IsSpace(s[|s| - 1]) then s else RStrip(s[..|s| - 1])
  }

  function LStrip(s: string): (t: string)
    ensures |t| <= |s| && t == s[|s| - |t|..] && (t == "" || !IsSpace(t[0]))
  {
    if s == "" || !IsSpace(s[0]) then s else LStrip(s[1..])
  }

  function RStripEach(lines: seq<string>): (stripped: seq<string>)
    ensures |stripped| == |lines|
    ensures forall i :: 0 <= i < |lines| ==> stripped[i] == RStrip(lines[i])
  {
    if lines == [] then [] else [RStrip(lines[0])] + RStripEach(lines[1..])
  }

  /** normalize_fingerprint_text */
  function Normalize(s: string): string {
    LStrip(RStrip(Unlines(RStripEach(Lines(ReplaceCr(ReplaceCrLf(s)))))))
  }

  // What normalized text looks like: no carriage return, no blank before a line end, no blank at either end.

  predicate Solid(s: string) {
    s == "" || !IsSpace(s[|s| - 1])
  }

  ghost predicate Tidy(s: string) {
    forall i :: 0 <= i < |s| - 1 && s[i + 1] == '\n' ==> s[i] == '\n' || !IsSpace(s[i])
  }

  ghost predicate Canonical(s: string) {
    '\r' !in s && Tidy(s) && Solid(s) && (s == "" || !IsSpace(s[0]))
  }

  lemma {:induction false} ReplaceCrRemoves(s: string)
    ensures '\r' !in ReplaceCr(s)
  {
    if s != "" { ReplaceCrRemoves(s[1..]); }
  }

  lemma {:induction false} ReplaceKeeps(s: string)
    requires '\r' !in s
    ensures ReplaceCrLf(s) == s && ReplaceCr(s) == s
  {
    if s != "" {
      ReplaceKeeps(s[1..]);
      assert s == [s[0]] + s[1..];
    }
  }

  lemma {:induction false} LinesSplit(s: string)
    ensures Unlines(Lines(s)) == s
    ensures forall i :: 0 <= i < |Lines(s)| ==> '\n' !in Lines(s)[i] && ('\r' !in s ==> '\r' !in Lines(s)[i])
  {
    if s != "" {
      var rest := Lines(s[1..]);
      LinesSplit(s[1..]);
      assert s == [s[0]] + s[1..];
      if s[0] == '\n' {
        assert ([""] + rest)[1..] == rest;
      } else {
        var lines := [[s[0]] + rest[0]] + rest[1..];
        assert lines[1..] == rest[1..];
        assert Unlines(lines) == [s[0]] + Unlines(rest);
      }
    }
  }

  lemma {:induction false} UnlinesTidy(lines: seq<string>)
    requires lines != []
    requires forall i :: 0 <= i < |lines| ==> '\n' !in lines[i] && '\r' !in lines[i] && Solid(lines[i])
    ensures Tidy(Unlines(lines)) && '\r' !in Unlines(lines)
  {
    if |lines| > 1 {
      UnlinesTidy(lines[1..]);
      var l, rest := lines[0], Unlines(lines[1..]);
      var u := l + "\n" + rest;
      assert forall k :: 0 <= k < |l| ==> u[k] == l[k] && l[k] in l;
      forall i | 0 <= i < |u| - 1 && u[i + 1] == '\n' ensures u[i] == '\n' || !IsSpace(u[i]) {
        if i > |l| {
          assert u[i] == rest[i - |l| - 1] && u[i + 1] == rest[i - |l|];
        }
      }
    }
  }

  lemma {:induction false} TidyLinesSolid(s: string)
    requires Tidy(s) && (Solid(s) || s[|s| - 1] == '\n')
    ensures forall i :: 0 <= i < |Lines(s)| ==> Solid(Lines(s)[i])
  {
    if s != "" {
      var rest := Lines(s[1..]);
      forall i | 0 <= i < |s[1..]| - 1 && s[1..][i + 1] == '\n' ensures s[1..][i] == '\n' || !IsSpace(s[1..][i]) {
        assert s[i + 2] == '\n';
      }
      TidyLinesSolid(s[1..]);
      if s[0] != '\n' {
        assert Solid([s[0]] + rest[0]) by {
          if rest[0] == "" && |s| > 1 {
            LinesSplit(s[1..]);
            assert s[0 + 1] == '\n';
          }
        }
      }
    }
  }

  /** Normalizing any text gives canonical text. */
  lemma {:induction false} NormalizeIsCanonical(s: string)
    ensures Canonical(Normalize(s))
  {
    var unified := ReplaceCr(ReplaceCrLf(s));
    ReplaceCrRemoves(ReplaceCrLf(s));
    LinesSplit(unified);
    var stripped := RStripEach(Lines(unified));
    forall i | 0 <= i < |stripped| ensures '\n' !in stripped[i] && '\r' !in stripped[i] {
      assert stripped[i] <= Lines(unified)[i];
    }
    UnlinesTidy(stripped);
    var body := Unlines(stripped);
    SliceCanonical(body, RStrip(body), LStrip(RStrip(body)));
  }

  /** Stripping takes a slice, and a slice of tidy text with solid ends is canonical. */
  lemma {:induction false} SliceCanonical(body: string, right: string, n: string)
    requires Tidy(body) && '\r' !in body && right <= body && Solid(right)
    requires |n| <= |right| && n == right[|right| - |n|..] && (n == "" || !IsSpace(n[0]))
    ensures Canonical(n)
  {
    assert right == body[..|right|];
    TakeTidy(body, |right|);
    DropTidy(right, |right| - |n|);
    assert n != "" ==> n[|n| - 1] == right[|right| - 1];
  }

  lemma {:induction false} TakeTidy(s: string, k: nat)
    requires k <= |s| && Tidy(s) && '\r' !in s
    ensures Tidy(s[..k]) && '\r' !in s[..k]
  {
  }

  lemma {:induction false} DropTidy(s: string, k: nat)
    requires k <= |s| && Tidy(s) && '\r' !in s
    ensures Tidy(s[k..]) && '\r' !in s[k..]
  {
    forall i | 0 <= i < |s[k..]| - 1 && s[k..][i + 1] == '\n' ensures s[k..][i] == '\n' || !IsSpace(s[k..][i]) {
      assert s[i + k + 1] == '\n';
    }
  }

  /** Canonical text passes every step of normalization unchanged. */
  lemma {:induction false} CanonicalStays(t: string)
    requires Canonical(t)
    ensures Normalize(t) == t
  {
    ReplaceKeeps(t);
    TidyLinesSolid(t);
    assert RStripEach(Lines(t)) == Lines(t);
    LinesSplit(t);
  }

  lemma {:induction false} NormalizeIdempotent(s: string)
    ensures Normalize(Normalize(s)) == Normalize(s)
  {
    NormalizeIsCanonical(s);
    CanonicalStays(Normalize(s));
  }

  /** The size of the matching blocks SequenceMatcher finds between two texts, in the given order. */
  type Matcher = (string, string) -> nat

  ghost predicate MatcherBounded(m: Matcher) {
    forall l, r :: m(l, r) <= |l| && m(l, r) <= |r|
  }

  /** SequenceMatcher.ratio() */
  function Ratio(matched: nat, total: nat): real {
    if total == 0 then 1.0 else 2.0 * matched as real / total as real
  }

  function Max(x: real, y: real): real { if x >= y then x else y }

  /** is_near_duplicate, for a threshold in [0, 1] */
  predicate IsNear(m: Matcher, threshold: real, left: string, right: string) {
    MatchRatio(m, Normalize(left), Normalize(right)) >= threshold
  }

  function MatchRatio(m: Matcher, l: string, r: string): real {
    Max(Ratio(m(l, r), |l| + |r|), Ratio(m(r, l), |r| + |l|))
  }

  lemma {:induction false} NearSymmetric(m: Matcher, threshold: real, left: string, right: string)
    ensures IsNear(m, threshold, left, right) == IsNear(m, threshold, right, left)
  {
  }

  lemma {:induction false} DivideAtLeast(a: real, d: real, t: real)
    requires d > 0.0
    ensures a / d >= t <==> a >= t * d
  {
    var q := a / d;
    assert q * d == a;
    if q >= t { assert q * d >= t * d; } else { assert q * d < t * d; }
  }

  /** Two texts are near exactly if the blocks one of the two matchings finds, counted in both texts, are at least that
      share of the normalized characters of both; two empty texts always are. */
  lemma {:induction false} NearExactly(m: Matcher, threshold: real, left: string, right: string)
    requires 0.0 <= threshold <= 1.0
    ensures IsNear(m, threshold, left, right) <==> EnoughMatched(m, threshold, Normalize(left), Normalize(right))
  {
    MatchedShare(m, threshold, Normalize(left), Normalize(right));
  }

  predicate EnoughMatched(m: Matcher, threshold: real, l: string, r: string) {
    || (l == "" && r == "") || (m(l, r) + m(l, r)) as real >= threshold * (|l| + |r|) as real
    || (m(r, l) + m(r, l)) as real >= threshold * (|l| + |r|) as real
  }

  lemma {:induction false} MatchedShare(m: Matcher, threshold: real, l: string, r: string)
    requires 0.0 <= threshold <= 1.0
    ensures MatchRatio(m, l, r) >= threshold <==> EnoughMatched(m, threshold, l, r)
  {
    NearShare(m(l, r), m(r, l), |l| + |r|, threshold);
  }

  lemma {:induction false} NearShare(one: nat, other: nat, total: nat, t: real)
    requires 0.0 <= t <= 1.0
    ensures Max(Ratio(one, total), Ratio(other, total)) >= t <==>
              total == 0 || (one + one) as real >= t * total as real || (other + other) as real >= t * total as real
  {
    if total > 0 {
      DivideAtLeast((one + one) as real, total as real, t);
      DivideAtLeast((other + other) as real, total as real, t);
      assert 2.0 * one as real == (one + one) as real && 2.0 * other as real == (other + other) as real;
    }
  }

  function Ceiling(x: real): int { -((-x).Floor) }

  const MAX_LENGTH: int := 0x7FFF_FFFF_FFFF_FFFF

  /** _candidate_length_bounds */
  function CandidateLengthBounds(length: nat, threshold: real): (int, int)
    requires 0.0 <= threshold <= 1.0
  {
    if threshold == 0.0 then (0, MAX_LENGTH) else
      var low := (length as real * threshold / (2.0 - threshold)).Floor;
      (if low < 0 then 0 else low, Ceiling(length as real * (2.0 / threshold - 1.0)))
  }

  lemma {:induction false} RatioBounds(matched: nat, l: nat, r: nat, t: real)
    requires 0.0 < t <= 1.0 && matched <= l && matched <= r
    requires Ratio(matched, l + r) >= t
    ensures CandidateLengthBounds(l, t).0 <= r <= CandidateLengthBounds(l, t).1
  {
    LowerBound(matched, l, r, t);
    UpperBound(matched, l, r, t);
  }

  lemma {:induction false} TotalBound(matched: nat, total: nat, t: real)
    requires 0.0 < t && Ratio(matched, total) >= t && (total == 0 ==> matched == 0)
    ensures t * total as real <= 2.0 * matched as real
  {
    if total > 0 {
      DivideCancel(2.0 * matched as real, total as real);
      MultiplyLe(t, Ratio(matched, total), total as real);
    }
  }

  lemma {:induction false} LowerBound(matched: nat, l: nat, r: nat, t: real)
    requires 0.0 < t <= 1.0 && matched <= l && matched <= r
    requires Ratio(matched, l + r) >= t
    ensures l as real * t / (2.0 - t) <= r as real
  {
    TotalBound(matched, l + r, t);
    var x, y := l as real, r as real;
    assert t * (x + y) == x * t + y * t;
    assert y * (2.0 - t) == 2.0 * y - y * t;
    DivideLe(x * t, y, 2.0 - t);
  }

  lemma {:induction false} UpperBound(matched: nat, l: nat, r: nat, t: real)
    requires 0.0 < t <= 1.0 && matched <= l && matched <= r
    requires Ratio(matched, l + r) >= t
    ensures r as real <= l as real * (2.0 / t - 1.0)
  {
    TotalBound(matched, l + r, t);
    var x, y := l as real, r as real;
    assert t * (x + y) == x * t + y * t;
    assert x * (2.0 - t) == 2.0 * x - x * t;
    LeDivide(y, x * (2.0 - t), t);
    Distribute(x, t);
  }

  lemma {:induction false} DivideCancel(a: real, d: real)
    requires d != 0.0
    ensures a / d * d == a
  {
  }

  lemma {:induction false} MultiplyLe(a: real, b: real, d: real)
    requires a <= b && d >= 0.0
    ensures a * d <= b * d
  {
  }

  lemma {:induction false} Distribute(x: real, t: real)
    requires t > 0.0
    ensures x * (2.0 / t - 1.0) == (x * (2.0 - t)) / t
  {
    var q := 2.0 / t;
    assert q * t == 2.0;
    assert x * (2.0 - t) == x * (q - 1.0) * t by {
      assert (q - 1.0) * t == 2.0 - t;
      assert x * (q - 1.0) * t == x * ((q - 1.0) * t);
    }
  }

  lemma {:induction false} DivideLe(a: real, b: real, d: real)
    requires d > 0.0 && a <= b * d
    ensures a / d <= b
  {
    assert a / d * d == a;
    var q := a / d;
    assert q > b ==> q * d > b * d;
  }

  lemma {:induction false} LeDivide(a: real, b: real, d: real)
    requires d > 0.0 && a * d <= b
    ensures a <= b / d
  {
    assert b / d * d == b;
    var q := b / d;
    assert q < a ==> q * d < a * d;
  }

  /** The length prefilter loses no near duplicate among normalized texts. */
  lemma {:induction false} RatioWithinBounds(m: Matcher, threshold: real, l: string, r: string)
    requires MatcherBounded(m) && 0.0 < threshold <= 1.0
    ensures MatchRatio(m, l, r) >= threshold ==>
              CandidateLengthBounds(|l|, threshold).0 <= |r| <= CandidateLengthBounds(|l|, threshold).1
  {
    if MatchRatio(m, l, r) >= threshold {
      var matched := NearHasMatch(m, threshold, l, r);
      RatioBounds(matched, |l|, |r|, threshold);
    }
  }

  lemma {:induction false} NearHasMatch(m: Matcher, threshold: real, l: string, r: string) returns (matched: nat)
    requires MatcherBounded(m) && MatchRatio(m, l, r) >= threshold
    ensures matched <= |l| && matched <= |r| && Ratio(matched, |l| + |r|) >= threshold
  {
    matched := if Ratio(m(l, r), |l| + |r|) >= threshold then m(l, r) else m(r, l);
    assert |l| + |r| == |r| + |l|;
  }

  /** The prefilter keeps nothing beyond rounding: strictly inside the bounds, a text that matches as much as its length
      allows reaches the threshold. */
  lemma {:induction false} BoundsAreTight(l: nat, r: nat, t: real)
    requires 0.0 < t <= 1.0 && CandidateLengthBounds(l, t).0 < r < CandidateLengthBounds(l, t).1
    ensures var matched := if l < r then l else r; (matched + matched) as real >= t * (l + r) as real
  {
    var x, y := l as real, r as real;
    AboveLow(l, r, t);
    BelowHigh(l, r, t);
    DividedBelow(x * t, y, 2.0 - t);
    Distribute(x, t);
    DividedAbove(y, x * (2.0 - t), t);
    Spread(x, y, t);
  }

  lemma {:induction false} AboveLow(l: nat, r: nat, t: real)
    requires 0.0 < t <= 1.0 && CandidateLengthBounds(l, t).0 < r
    ensures l as real * t / (2.0 - t) <= r as real
  {
    AboveFloor(l as real * t / (2.0 - t), r);
  }

  lemma {:induction false} BelowHigh(l: nat, r: nat, t: real)
    requires 0.0 < t <= 1.0 && r < CandidateLengthBounds(l, t).1
    ensures r as real <= l as real * (2.0 / t - 1.0)
  {
    AboveFloor(-(l as real * (2.0 / t - 1.0)), 0 - r);
  }

  lemma {:induction false} AboveFloor(q: real, r: int)
    requires q.Floor < r
    ensures q <= r as real
  {
  }

  lemma {:induction false} DividedBelow(a: real, b: real, d: real)
    requires d > 0.0 && a / d <= b
    ensures a <= b * d
  {
    DivideCancel(a, d);
    MultiplyLe(a / d, b, d);
  }

  lemma {:induction false} DividedAbove(a: real, b: real, d: real)
    requires d > 0.0 && a <= b / d
    ensures a * d <= b
  {
    DivideCancel(b, d);
    MultiplyLe(a, b / d, d);
  }

  lemma {:induction false} Spread(x: real, y: real, t: real)
    requires x * t <= y * (2.0 - t) && y * t <= x * (2.0 - t)
    ensures t * (x + y) <= 2.0 * y && t * (x + y) <= 2.0 * x
  {
    assert y * (2.0 - t) == 2.0 * y - y * t;
    assert x * (2.0 - t) == 2.0 * x - x * t;
    assert t * (x + y) == x * t + y * t;
  }
}
