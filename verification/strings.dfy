/** The Kotlin string primitives the script parser relies on:
    `Char.isWhitespace`, `String.trim`, `String.startsWith` and
    `String.lines`. */
module Strings {

  /** Kotlin's `Char.isWhitespace` on the JVM: Java's `isWhitespace` or
      `isSpaceChar` — the ASCII controls tab, line feed, vertical tab, form
      feed, carriage return and the four information separators, plus the
      Unicode space, line and paragraph separators. */
  predicate IsWhitespace(c: char) {
    || c == '\t' || c == '\n' || c == '\U{000B}' || c == '\U{000C}' || c == '\r'
    || ('\U{001C}' <= c <= '\U{001F}')
    || c == ' ' || c == '\U{00A0}' || c == '\U{1680}'
    || ('\U{2000}' <= c <= '\U{200A}')
    || c == '\U{2028}' || c == '\U{2029}' || c == '\U{202F}' || c == '\U{205F}'
    || c == '\U{3000}'
  }

  predicate IsLineBreak(c: char) {
    c == '\n' || c == '\r'
  }

  /** A character outside the Basic Multilingual Plane, which UTF-16
      stores as a surrogate pair. */
  predicate IsSupplementary(c: char) {
    c > '\U{FFFF}'
  }

  /** Kotlin's `String.length`: the number of UTF-16 code units, one per
      character of the Basic Multilingual Plane and two for any other. */
  function Utf16Length(s: string): (n: nat)
    ensures |s| <= n <= 2 * |s|
    ensures (forall i :: 0 <= i < |s| ==> !IsSupplementary(s[i])) ==> n == |s|
    decreases |s|
  {
    if |s| == 0 then 0
    else (if IsSupplementary(s[0]) then 2 else 1) + Utf16Length(s[1..])
  }

  /** An emoji is one character but two UTF-16 code units. */
  lemma EmojiIsTwoUnits()
    ensures |"\U{1F600}"| == 1 && Utf16Length("\U{1F600}") == 2
  {
    assert "\U{1F600}"[1..] == "";
  }

  predicate StartsWith(s: string, prefix: string) {
    |prefix| <= |s| && s[..|prefix|] == prefix
  }

  /** Number of leading whitespace characters. */
  function LeadingSpace(s: string): (n: nat)
    ensures n <= |s|
    ensures forall i :: 0 <= i < n ==> IsWhitespace(s[i])
    ensures n < |s| ==> !IsWhitespace(s[n])
    decreases |s|
  {
    if |s| == 0 || !IsWhitespace(s[0]) then 0
    else 1 + LeadingSpace(s[1..])
  }

  /** End of the kept part of `s` when trimming from position `lo` on:
      everything from it on is whitespace and, unless nothing is kept, the
      character before it is not. */
  function TrimEnd(s: string, lo: nat): (hi: nat)
    requires lo <= |s|
    ensures lo <= hi <= |s|
    ensures forall i :: hi <= i < |s| ==> IsWhitespace(s[i])
    ensures lo < hi ==> !IsWhitespace(s[hi - 1])
    decreases |s|
  {
    if |s| == lo || !IsWhitespace(s[|s| - 1]) then |s|
    else TrimEnd(s[..|s| - 1], lo)
  }

  /** `trim()`: `s` without its leading and trailing whitespace. The result
      is the slice `s[lo..hi]` where everything outside is whitespace and,
      unless it is empty, it neither starts nor ends with whitespace. */
  function Trim(s: string): (r: string)
    ensures exists lo, hi :: 0 <= lo <= hi <= |s| && r == s[lo..hi]
              && (forall i :: 0 <= i < lo ==> IsWhitespace(s[i]))
              && (forall i :: hi <= i < |s| ==> IsWhitespace(s[i]))
    ensures |r| > 0 ==> !IsWhitespace(r[0]) && !IsWhitespace(r[|r| - 1])
  {
    var lo := LeadingSpace(s);
    s[lo..TrimEnd(s, lo)]
  }

  /** `trim()` is determined by its characterisation: any slice with only
      whitespace outside it that is empty or has non-whitespace ends is the
      trimmed string. */
  lemma TrimUnique(s: string, lo: nat, hi: nat)
    requires lo <= hi <= |s|
    requires forall i :: 0 <= i < lo ==> IsWhitespace(s[i])
    requires forall i :: hi <= i < |s| ==> IsWhitespace(s[i])
    requires lo < hi ==> !IsWhitespace(s[lo]) && !IsWhitespace(s[hi - 1])
    ensures Trim(s) == s[lo..hi]
  {
    if lo < hi {
      assert LeadingSpace(s) == lo;
      assert TrimEnd(s, lo) == hi;
    } else {
      assert LeadingSpace(s) == |s|;
      assert TrimEnd(s, |s|) == |s|;
    }
  }

  /** Trimming a string that neither starts nor ends with whitespace
      leaves it as it is. */
  lemma TrimOfTrimmed(s: string)
    requires |s| > 0 ==> !IsWhitespace(s[0]) && !IsWhitespace(s[|s| - 1])
    ensures Trim(s) == s
  {
    TrimUnique(s, 0, |s|);
    assert s[0..|s|] == s;
  }

  /** Where `trim()` cuts: the bounds of the kept slice. */
  lemma TrimBounds(s: string) returns (lo: nat, hi: nat)
    ensures lo <= hi <= |s| && Trim(s) == s[lo..hi]
    ensures forall i :: 0 <= i < lo ==> IsWhitespace(s[i])
    ensures forall i :: hi <= i < |s| ==> IsWhitespace(s[i])
    ensures lo < hi ==> !IsWhitespace(s[lo]) && !IsWhitespace(s[hi - 1])
  {
    lo := LeadingSpace(s);
    hi := TrimEnd(s, lo);
  }

  /** All whitespace up to `lo` in `s` means all whitespace up to
      `|w| + lo` in `w + rest` when `w` is whitespace and `rest` starts
      with `s`. */
  lemma PaddedLeadingSpace(w: string, s: string, tail: string, lo: nat)
    requires lo <= |s|
    requires forall i :: 0 <= i < |w| ==> IsWhitespace(w[i])
    requires forall i :: 0 <= i < lo ==> IsWhitespace(s[i])
    ensures forall i :: 0 <= i < |w| + lo ==> IsWhitespace((w + s + tail)[i])
  {
    var p := w + s + tail;
    forall i | 0 <= i < |w| + lo
      ensures IsWhitespace(p[i])
    {
      if i >= |w| { assert p[i] == s[i - |w|]; } else { assert p[i] == w[i]; }
    }
  }

  /** The mirror image of `PaddedLeadingSpace` at the end of the string. */
  lemma PaddedTrailingSpace(head: string, s: string, w: string, hi: nat)
    requires hi <= |s|
    requires forall i :: 0 <= i < |w| ==> IsWhitespace(w[i])
    requires forall i :: hi <= i < |s| ==> IsWhitespace(s[i])
    ensures forall i :: |head| + hi <= i < |head + s + w| ==> IsWhitespace((head + s + w)[i])
  {
    var p := head + s + w;
    forall i | |head| + hi <= i < |p|
      ensures IsWhitespace(p[i])
    {
      if i < |head| + |s| { assert p[i] == s[i - |head|]; } else { assert p[i] == w[i - |head| - |s|]; }
    }
  }

  /** Padding a string with whitespace moves its trimmed slice by the
      length of the left padding. */
  lemma PaddedTrim(w1: string, s: string, w2: string, lo: nat, hi: nat)
    requires lo <= hi <= |s|
    requires forall i :: 0 <= i < |w1| ==> IsWhitespace(w1[i])
    requires forall i :: 0 <= i < |w2| ==> IsWhitespace(w2[i])
    requires forall i :: 0 <= i < lo ==> IsWhitespace(s[i])
    requires forall i :: hi <= i < |s| ==> IsWhitespace(s[i])
    requires lo < hi ==> !IsWhitespace(s[lo]) && !IsWhitespace(s[hi - 1])
    ensures Trim(w1 + s + w2) == s[lo..hi]
  {
    var p := w1 + s + w2;
    var k := |w1|;
    PaddedLeadingSpace(w1, s, w2, lo);
    PaddedTrailingSpace(w1, s, w2, hi);
    assert p[k + lo..k + hi] == s[lo..hi];
    if lo < hi {
      assert p[k + lo] == s[lo] && p[k + hi - 1] == s[hi - 1];
    }
    TrimUnique(p, k + lo, k + hi);
  }

  /** Whitespace around a string does not change its trimmed form. */
  lemma TrimIgnoresPadding(w1: string, s: string, w2: string)
    requires forall i :: 0 <= i < |w1| ==> IsWhitespace(w1[i])
    requires forall i :: 0 <= i < |w2| ==> IsWhitespace(w2[i])
    ensures Trim(w1 + s + w2) == Trim(s)
  {
    var lo, hi := TrimBounds(s);
    PaddedTrim(w1, s, w2, lo, hi);
  }

  /** Position of the first line break, or `|s|` if there is none. */
  function FirstBreak(s: string): (k: nat)
    ensures k <= |s|
    ensures forall i :: 0 <= i < k ==> !IsLineBreak(s[i])
    ensures k < |s| ==> IsLineBreak(s[k])
    decreases |s|
  {
    if |s| == 0 || IsLineBreak(s[0]) then 0
    else 1 + FirstBreak(s[1..])
  }

  predicate NoBreak(line: string) {
    forall i :: 0 <= i < |line| ==> !IsLineBreak(line[i])
  }

  /** `lines()`: splits at each "\r\n", "\n" or "\r". There is always at
      least one line (the empty string has one, empty, line), and no line
      contains a break character. */
  function Lines(s: string): (r: seq<string>)
    ensures |r| >= 1
    ensures forall j :: 0 <= j < |r| ==> NoBreak(r[j])
    decreases |s|
  {
    var k := FirstBreak(s);
    if k == |s| then [s]
    else if s[k] == '\r' && k + 1 < |s| && s[k + 1] == '\n' then [s[..k]] + Lines(s[k + 2..])
    else [s[..k]] + Lines(s[k + 1..])
  }

  /** Lines glued back together with a line feed between them, like
      Kotlin's `joinToString("\n")`. */
  function JoinLines(lines: seq<string>): string
    decreases |lines|
  {
    if |lines| == 0 then ""
    else if |lines| == 1 then lines[0]
    else lines[0] + "\n" + JoinLines(lines[1..])
  }

  /** Splitting text made of break-free lines joined by line feeds gives
      back exactly those lines. */
  lemma {:induction false} LinesJoinRoundTrip(lines: seq<string>)
    requires |lines| >= 1
    requires forall j :: 0 <= j < |lines| ==> NoBreak(lines[j])
    ensures Lines(JoinLines(lines)) == lines
    decreases |lines|
  {
    var s := JoinLines(lines);
    if |lines| == 1 {
      assert FirstBreak(s) == |s|;
    } else {
      var head := lines[0];
      var tail := JoinLines(lines[1..]);
      assert s == head + "\n" + tail;
      assert FirstBreak(s) == |head| by {
        assert forall i :: 0 <= i < |head| ==> s[i] == head[i];
        assert s[|head|] == '\n';
      }
      assert s[..|head|] == head;
      assert s[|head| + 1..] == tail;
      LinesJoinRoundTrip(lines[1..]);
    }
  }
}
