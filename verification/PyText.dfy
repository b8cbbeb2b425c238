/**
 Python's string primitives, on ASCII: stripping by character set, upper-casing, and the slices
 `xs[:limit]` and `xs[-window:]` with their behaviour for zero and negative bounds.
 */
module PyText {

  /** What `str.strip()` removes, among ASCII characters. */
  const WHITESPACE: set<char> :=
    {' ', '\t', '\n', '\r', '\U{0B}', '\U{0C}', '\U{1C}', '\U{1D}', '\U{1E}', '\U{1F}'}

  /** Every character of `s` from position i up to j belongs to `chars`. */
  predicate Span(s: string, i: nat, j: nat, chars: set<char>)
    requires i <= j <= |s|
  {
    forall k | i <= k < j :: s[k] in chars
  }

  /** Where a scan to the right from i stops: at the first character outside `chars`. */
  function ScanRight(s: string, i: nat, chars: set<char>): (n: nat)
    requires i <= |s|
    ensures i <= n <= |s| && Span(s, i, n, chars)
    ensures n < |s| ==> s[n] !in chars
    decreases |s| - i
  {
    if i < |s| && s[i] in chars then ScanRight(s, i + 1, chars) else i
  }

  /** Where a scan to the left from j stops: just after the last character outside `chars`. */
  function ScanLeft(s: string, j: nat, chars: set<char>): (n: nat)
    requires j <= |s|
    ensures n <= j && Span(s, n, j, chars)
    ensures 0 < n ==> s[n - 1] !in chars
  {
    if 0 < j && s[j - 1] in chars then ScanLeft(s, j - 1, chars) else j
  }

  function LStrip(s: string, chars: set<char>): string {
    s[ScanRight(s, 0, chars)..]
  }

  function RStrip(s: string, chars: set<char>): string {
    s[..ScanLeft(s, |s|, chars)]
  }

  function StripBy(s: string, chars: set<char>): string {
    RStrip(LStrip(s, chars), chars)
  }

  function Strip(s: string): string {
    StripBy(s, WHITESPACE)
  }

  function UpperChar(c: char): char {
    if 'a' <= c <= 'z' then ((c as int - 32) as char) else c
  }

  function Upper(s: string): (r: string)
    ensures |r| == |s|
    ensures forall i | 0 <= i < |s| :: r[i] == UpperChar(s[i])
  {
    seq(|s|, i requires 0 <= i < |s| => UpperChar(s[i]))
  }

  predicate SameIgnoringCase(s: string, t: string) {
    |s| == |t| && forall i | 0 <= i < |s| :: UpperChar(s[i]) == UpperChar(t[i])
  }

  // ---- The characters, listed ----

  const SMALL := "abcdefghijklmnopqrstuvwxyz"
  const CAPITAL := "ABCDEFGHIJKLMNOPQRSTUVWXYZ"
  const DIGITS := "0123456789"

  /** One character stands in the first alphabet where the other one stands in the second. */
  predicate ArePaired(c: char, d: char, small: string, capital: string) {
    exists k | 0 <= k < |small| && k < |capital| :: c == small[k] && d == capital[k]
  }

  /** The same character, or one letter in both cases. */
  predicate SameLetter(c: char, d: char) {
    c == d || ArePaired(c, d, SMALL, CAPITAL) || ArePaired(d, c, SMALL, CAPITAL)
  }

  /** Upper-casing pairs the two alphabets and leaves every other character alone. */
  lemma UpperPairsAlphabets()
    ensures |SMALL| == |CAPITAL| == 26
    ensures forall k | 0 <= k < 26 :: UpperChar(SMALL[k]) == CAPITAL[k]
    ensures forall c | c !in SMALL :: UpperChar(c) == c
  {
  }

  lemma AlphabetsAreRanges()
    ensures |SMALL| == |CAPITAL| == 26 && |DIGITS| == 10
    ensures forall k | 0 <= k < 26 :: SMALL[k] as int == 'a' as int + k && CAPITAL[k] as int == 'A' as int + k
    ensures forall k | 0 <= k < 10 :: DIGITS[k] as int == '0' as int + k
  {
  }

  lemma InRangeIffListed(c: char, first: char, listed: string)
    requires forall k | 0 <= k < |listed| :: listed[k] as int == first as int + k
    ensures c in listed <==> first as int <= c as int < first as int + |listed|
  {
    if first as int <= c as int < first as int + |listed| {
      assert listed[c as int - first as int] == c;
    }
  }

  lemma PairedIffCased(c: char, d: char, small: string, capital: string)
    requires |small| == |capital| == 26
    requires forall k | 0 <= k < 26 :: small[k] as int == 'a' as int + k && capital[k] as int == 'A' as int + k
    ensures ArePaired(c, d, small, capital) <==> 'a' <= c <= 'z' && d as int == c as int - 32
  {
    if 'a' <= c <= 'z' && d as int == c as int - 32 {
      var k := c as int - 'a' as int;
      assert c == small[k] && d == capital[k];
    }
  }

  lemma SameUpperIffSameLetter(c: char, d: char)
    ensures UpperChar(c) == UpperChar(d) <==> SameLetter(c, d)
  {
    AlphabetsAreRanges();
    PairedIffCased(c, d, SMALL, CAPITAL);
    PairedIffCased(d, c, SMALL, CAPITAL);
  }

  /** The ASCII characters that `str.strip()` removes, by code point. */
  lemma WhitespaceByCodePoint(c: char)
    ensures c in WHITESPACE <==> c as int in {0x09, 0x0A, 0x0B, 0x0C, 0x0D, 0x1C, 0x1D, 0x1E, 0x1F, 0x20}
  {
  }

  /** A scan stops at the only position that leaves a kept character in front of it. */
  lemma LStripUnique(s: string, chars: set<char>, n: nat)
    requires n <= |s| && Span(s, 0, n, chars)
    requires n < |s| ==> s[n] !in chars
    ensures LStrip(s, chars) == s[n..]
  {
    var m := ScanRight(s, 0, chars);
    assert m == n;
  }

  lemma RStripUnique(s: string, chars: set<char>, n: nat)
    requires n <= |s| && Span(s, n, |s|, chars)
    requires 0 < n ==> s[n - 1] !in chars
    ensures RStrip(s, chars) == s[..n]
  {
    var m := ScanLeft(s, |s|, chars);
    assert m == n;
  }

  /** Stripping returns the slice between the two outer runs. */
  lemma StripBounds(s: string, chars: set<char>) returns (i: nat, e: nat)
    ensures i <= e <= |s| && StripBy(s, chars) == s[i..e]
    ensures Span(s, 0, i, chars) && Span(s, e, |s|, chars)
    ensures i < e ==> s[i] !in chars && s[e - 1] !in chars
  {
    i := ScanRight(s, 0, chars);
    var left := s[i..];
    var n := ScanLeft(left, |left|, chars);
    e := i + n;
    assert forall k | e <= k < |s| :: s[k] == left[k - i];
    assert 0 < n ==> left[n - 1] == s[e - 1];
  }

  lemma StripUnique(s: string, chars: set<char>, i: nat, e: nat)
    requires i <= e <= |s|
    requires Span(s, 0, i, chars) && Span(s, e, |s|, chars)
    requires i < e ==> s[i] !in chars && s[e - 1] !in chars
    ensures StripBy(s, chars) == s[i..e]
  {
    if i == e {
      LStripUnique(s, chars, |s|);
    } else {
      LStripUnique(s, chars, i);
      assert forall k | e - i <= k < |s| - i :: s[i..][k] == s[i + k];
      RStripUnique(s[i..], chars, e - i);
    }
  }

  lemma PaddedAt(a: string, s: string, b: string, k: nat)
    requires k < |s|
    ensures (a + s + b)[|a| + k] == s[k]
  {
  }

  lemma PaddedSlice(a: string, s: string, b: string, i: nat, e: nat)
    requires i <= e <= |s|
    ensures (a + s + b)[|a| + i..|a| + e] == s[i..e]
  {
  }

  lemma PaddedSpans(a: string, s: string, b: string, chars: set<char>, i: nat, e: nat)
    requires i <= e <= |s| && Span(s, 0, i, chars) && Span(s, e, |s|, chars)
    requires Span(a, 0, |a|, chars) && Span(b, 0, |b|, chars)
    ensures Span(a + s + b, 0, |a| + i, chars)
    ensures Span(a + s + b, |a| + e, |a| + |s| + |b|, chars)
  {
    var t := a + s + b;
    assert forall k | 0 <= k < |a| :: t[k] == a[k];
    assert forall k | |a| <= k < |a| + |s| :: t[k] == s[k - |a|];
    assert forall k | |a| + |s| <= k < |t| :: t[k] == b[k - |a| - |s|];
  }

  /** Padding made of stripped characters does not change the result. */
  lemma StripIgnoresPadding(a: string, s: string, b: string, chars: set<char>)
    requires Span(a, 0, |a|, chars) && Span(b, 0, |b|, chars)
    ensures StripBy(a + s + b, chars) == StripBy(s, chars)
  {
    var i, e := StripBounds(s, chars);
    var t := a + s + b;
    PaddedSpans(a, s, b, chars, i, e);
    if i < e {
      PaddedAt(a, s, b, i);
      PaddedAt(a, s, b, e - 1);
    }
    StripUnique(t, chars, |a| + i, |a| + e);
    PaddedSlice(a, s, b, i, e);
  }

  /** `xs[:limit]`: a negative limit counts back from the end. */
  function SliceTo<T>(xs: seq<T>, limit: int): seq<T> {
    if limit >= 0 then (if limit < |xs| then xs[..limit] else xs)
    else if -limit < |xs| then xs[..|xs| + limit]
    else []
  }

  /** `xs[start:]`: a negative start counts back from the end, and `-0` is `0`. */
  function SliceFrom<T>(xs: seq<T>, start: int): seq<T> {
    if start >= 0 then (if start < |xs| then xs[start..] else [])
    else if -start < |xs| then xs[|xs| + start..]
    else xs
  }
}
