/**
 * The ECMAScript string operations the components rely on, over `seq<char>`:
 * `trim`, `split("\n")`, `slice`, `substring` and the decimal rendering of a
 * non-negative integer inside a template literal.
 */
module Strings {

  /** WhiteSpace and LineTerminator code points, the characters `String.prototype.trim` removes. */
  predicate IsWhitespace(c: char) {
    || c == '\t' || c == '\n' || c == '\U{000B}' || c == '\U{000C}' || c == '\r' || c == ' '
    || c == '\U{00A0}' || c == '\U{1680}' || ('\U{2000}' <= c <= '\U{200A}')
    || c == '\U{2028}' || c == '\U{2029}' || c == '\U{202F}' || c == '\U{205F}'
    || c == '\U{3000}' || c == '\U{FEFF}'
  }

  /** No ASCII letter or digit, so no character of a base-58 address, is whitespace: `trim` never eats into an address. */
  lemma AlphanumericNotWhitespace(c: char)
    requires '0' <= c <= '9' || 'A' <= c <= 'Z' || 'a' <= c <= 'z'
    ensures !IsWhitespace(c)
  {
  }

  predicate AllWhitespace(s: string) {
    forall k :: 0 <= k < |s| ==> IsWhitespace(s[k])
  }

  /** The index of the first non-whitespace character at or after `i`, or `|s|`. */
  function SkipForward(s: string, i: nat): (j: nat)
    requires i <= |s|
    ensures i <= j <= |s|
    decreases |s| - i
  {
    if i < |s| && IsWhitespace(s[i]) then SkipForward(s, i + 1) else i
  }

  /** `SkipForward` passes over whitespace only and stops at the first other character. */
  lemma {:induction false} SkipForwardSpec(s: string, i: nat)
    requires i <= |s|
    ensures forall k :: i <= k < SkipForward(s, i) ==> IsWhitespace(s[k])
    ensures SkipForward(s, i) == |s| || !IsWhitespace(s[SkipForward(s, i)])
    decreases |s| - i
  {
    if i < |s| && IsWhitespace(s[i]) {
      SkipForwardSpec(s, i + 1);
    }
  }

  /** The index just past the last non-whitespace character before `j`, or 0. */
  function SkipBackward(s: string, j: nat): (i: nat)
    requires j <= |s|
    ensures i <= j
  {
    if j > 0 && IsWhitespace(s[j - 1]) then SkipBackward(s, j - 1) else j
  }

  /** `SkipBackward` passes over whitespace only and stops after the last other character. */
  lemma {:induction false} SkipBackwardSpec(s: string, j: nat)
    requires j <= |s|
    ensures forall k :: SkipBackward(s, j) <= k < j ==> IsWhitespace(s[k])
    ensures SkipBackward(s, j) == 0 || !IsWhitespace(s[SkipBackward(s, j) - 1])
  {
    if j > 0 && IsWhitespace(s[j - 1]) {
      SkipBackwardSpec(s, j - 1);
    }
  }

  /** Both ends of the scan that `Trim` makes. */
  lemma TrimScan(s: string)
    ensures forall k :: 0 <= k < SkipForward(s, 0) ==> IsWhitespace(s[k])
    ensures SkipForward(s, 0) == |s| || !IsWhitespace(s[SkipForward(s, 0)])
    ensures forall k :: SkipBackward(s, |s|) <= k < |s| ==> IsWhitespace(s[k])
    ensures SkipBackward(s, |s|) == 0 || !IsWhitespace(s[SkipBackward(s, |s|) - 1])
  {
    SkipForwardSpec(s, 0);
    SkipBackwardSpec(s, |s|);
  }

  /** `s.trim()`: whitespace cut off both ends. */
  function Trim(s: string): (r: string)
    ensures |r| <= |s|
  {
    var i, j := SkipForward(s, 0), SkipBackward(s, |s|);
    if j <= i then [] else s[i..j]
  }

  /** The whitespace on either side of the infix `s[i..i + n]`, as the slices `TrimInfix` names. */
  lemma WhitespaceEnds(s: string, i: nat, n: nat)
    requires i + n <= |s|
    requires forall k :: 0 <= k < i ==> IsWhitespace(s[k])
    requires forall k :: i + n <= k < |s| ==> IsWhitespace(s[k])
    ensures AllWhitespace(s[..i]) && AllWhitespace(s[i + n..])
  {
  }

  /** `Trim(s)` is an infix of `s` with only whitespace around it, and neither starts nor ends with whitespace. */
  lemma TrimInfix(s: string)
    ensures exists i :: 0 <= i <= |s| - |Trim(s)| && Trim(s) == s[i..i + |Trim(s)|]
                        && AllWhitespace(s[..i]) && AllWhitespace(s[i + |Trim(s)|..])
    ensures Trim(s) == [] || (!IsWhitespace(Trim(s)[0]) && !IsWhitespace(Trim(s)[|Trim(s)| - 1]))
  {
    TrimScan(s);
    var i, j := SkipForward(s, 0), SkipBackward(s, |s|);
    var r := Trim(s);
    var w := if j <= i then |s| else i;
    assert r == s[w..w + |r|];
    WhitespaceEnds(s, w, |r|);
  }

  /**
   * The characterisation is complete: an infix with only whitespace around it
   * that neither starts nor ends with whitespace is `Trim(s)`.
   */
  lemma TrimUnique(s: string, i: nat, r: string)
    requires i + |r| <= |s| && r == s[i..i + |r|]
    requires AllWhitespace(s[..i]) && AllWhitespace(s[i + |r|..])
    requires r == [] || (!IsWhitespace(r[0]) && !IsWhitespace(r[|r| - 1]))
    ensures r == Trim(s)
  {
    TrimScan(s);
    var e := i + |r|;
    forall k | 0 <= k < i ensures IsWhitespace(s[k]) {
      assert s[k] == s[..i][k];
    }
    forall k | e <= k < |s| ensures IsWhitespace(s[k]) {
      assert s[k] == s[e..][k - e];
    }
    if r != [] {
      assert s[i] == r[0] && s[e - 1] == r[|r| - 1];
      assert SkipForward(s, 0) == i;
      assert SkipBackward(s, |s|) == e;
    }
  }

  /** Every character of `Trim(s)` is a character of `s`. */
  lemma TrimChars(s: string, c: char)
    ensures c in Trim(s) ==> c in s
  {
    TrimInfix(s);
    var r := Trim(s);
    var i :| 0 <= i <= |s| - |r| && r == s[i..i + |r|]
             && AllWhitespace(s[..i]) && AllWhitespace(s[i + |r|..]);
    if c in r {
      var k :| 0 <= k < |r| && r[k] == c;
      assert s[i + k] == c;
    }
  }

  /** A string trims to nothing exactly when it is all whitespace. */
  lemma TrimEmptyIffBlank(s: string)
    ensures Trim(s) == [] <==> AllWhitespace(s)
  {
    TrimScan(s);
    var a, b := SkipForward(s, 0), SkipBackward(s, |s|);
    assert Trim(s) == [] <==> b <= a;
  }

  /** Trimming twice is trimming once. */
  lemma TrimIdempotent(s: string)
    ensures Trim(Trim(s)) == Trim(s)
  {
    TrimInfix(s);
    var r := Trim(s);
    if r != [] {
      TrimScan(r);
      assert SkipForward(r, 0) == 0;
      assert SkipBackward(r, |r|) == |r|;
      assert r[0..|r|] == r;
    }
  }

  /** The inverse of `SplitLines`: the lines glued back together with `"\n"`. */
  function JoinLines(lines: seq<string>): string
    requires |lines| >= 1
  {
    if |lines| == 1 then lines[0] else lines[0] + "\n" + JoinLines(lines[1..])
  }

  /** `s.split("\n")`: at least one piece; an empty string gives `[""]`. */
  function SplitLines(s: string): (lines: seq<string>)
    ensures |lines| >= 1
  {
    if s == [] then
      [[]]
    else
      var rest := SplitLines(s[1..]);
      if s[0] == '\n' then [[]] + rest else [[s[0]] + rest[0]] + rest[1..]
  }

  /** No piece holds a newline, and gluing the pieces back gives `s`. */
  lemma {:induction false} SplitLinesInverse(s: string)
    ensures forall k :: 0 <= k < |SplitLines(s)| ==> '\n' !in SplitLines(s)[k]
    ensures JoinLines(SplitLines(s)) == s
  {
    if s != [] {
      SplitLinesInverse(s[1..]);
      var rest := SplitLines(s[1..]);
      assert s == [s[0]] + s[1..];
      if s[0] == '\n' {
        assert ([[]] + rest)[1..] == rest;
      } else {
        var lines := [[s[0]] + rest[0]] + rest[1..];
        assert lines[1..] == rest[1..];
        assert JoinLines(lines) == [s[0]] + JoinLines(rest);
      }
    }
  }

  /** Splitting distributes over a newline. */
  lemma {:induction false} SplitLinesAppend(a: string, b: string)
    ensures SplitLines(a + "\n" + b) == SplitLines(a) + SplitLines(b)
  {
    if a == [] {
      assert a + "\n" + b == "\n" + b;
      assert ("\n" + b)[1..] == b;
    } else {
      assert (a + "\n" + b)[1..] == a[1..] + "\n" + b;
      SplitLinesAppend(a[1..], b);
    }
  }

  /** A string without a newline splits into itself. */
  lemma {:induction false} SplitLinesSingle(a: string)
    requires '\n' !in a
    ensures SplitLines(a) == [a]
  {
    if a != [] {
      SplitLinesSingle(a[1..]);
      assert [a[0]] + a[1..] == a;
    }
  }

  /** Splitting undoes joining when no line holds a newline. */
  lemma {:induction false} SplitJoin(lines: seq<string>)
    requires |lines| >= 1
    requires forall k :: 0 <= k < |lines| ==> '\n' !in lines[k]
    ensures SplitLines(JoinLines(lines)) == lines
  {
    if |lines| == 1 {
      SplitLinesSingle(lines[0]);
    } else {
      SplitJoin(lines[1..]);
      SplitLinesAppend(lines[0], JoinLines(lines[1..]));
      SplitLinesSingle(lines[0]);
      assert [lines[0]] + lines[1..] == lines;
    }
  }

  /** Resolves a `slice` argument: a negative index counts back from the end; the result is clamped to the string. */
  function RelativeIndex(k: int, len: nat): (r: nat)
    ensures r <= len
    ensures 0 <= k <= len ==> r == k
    ensures k < 0 && len + k >= 0 ==> r == len + k
  {
    if k < 0 then (if len + k < 0 then 0 else len + k) else if k > len then len else k
  }

  /** `s.slice(start, end)`. */
  function Slice(s: string, start: int, end: int): (r: string)
    ensures |r| <= |s|
  {
    var from, to := RelativeIndex(start, |s|), RelativeIndex(end, |s|);
    if from < to then s[from..to] else []
  }

  /** `s.slice(start)`. */
  function SliceFrom(s: string, start: int): (r: string)
    ensures 0 <= start <= |s| ==> r == s[start..]
    ensures -|s| <= start < 0 ==> r == s[|s| + start..]
    ensures start < -|s| ==> r == s
    ensures start > |s| ==> r == []
  {
    Slice(s, start, |s|)
  }

  /** Clamps a `substring` argument to the string; a negative one becomes 0. */
  function ClampIndex(k: int, len: nat): (r: nat)
    ensures r <= len
    ensures 0 <= k <= len ==> r == k
  {
    if k < 0 then 0 else if k > len then len else k
  }

  /** `s.substring(start, end)`: both ends clamped, swapped when out of order. */
  function Substring(s: string, start: int, end: int): (r: string)
    ensures |r| <= |s|
  {
    var a, b := ClampIndex(start, |s|), ClampIndex(end, |s|);
    if a <= b then s[a..b] else s[b..a]
  }

  /** `s.substring(start)`. */
  function SubstringFrom(s: string, start: int): (r: string)
    ensures 0 <= start <= |s| ==> r == s[start..]
    ensures start < 0 ==> r == s
    ensures start > |s| ==> r == []
  {
    Substring(s, start, |s|)
  }

  predicate IsDigit(c: char) {
    '0' <= c <= '9'
  }

  function DigitChar(d: nat): (c: char)
    requires d < 10
    ensures IsDigit(c)
  {
    (48 + d) as char
  }

  /** The decimal numeral a template literal prints for a non-negative integer. */
  function NatToString(n: nat): (s: string)
    ensures |s| >= 1
    ensures forall k :: 0 <= k < |s| ==> IsDigit(s[k])
    ensures |s| > 1 ==> s[0] != '0'
  {
    if n < 10 then [DigitChar(n)] else NatToString(n / 10) + [DigitChar(n % 10)]
  }

  /** The value a string of decimal digits denotes. */
  function DecimalValue(s: string): nat
    requires forall k :: 0 <= k < |s| ==> IsDigit(s[k])
  {
    if s == [] then 0
    else
      var last := s[|s| - 1];
      assert IsDigit(last);
      DecimalValue(s[..|s| - 1]) * 10 + (last as int - '0' as int)
  }

  /** Reading back the numeral gives the number: the rendering loses nothing. */
  lemma {:induction false} DecimalRoundTrip(n: nat)
    ensures DecimalValue(NatToString(n)) == n
  {
    var s := NatToString(n);
    if n >= 10 {
      DecimalRoundTrip(n / 10);
      assert s[..|s| - 1] == NatToString(n / 10);
    }
  }
}
