/**
 The search for `\b(A|B|...)\b`, ignoring case, as the regular-expression engine performs it, and
 what it means for the text: the leftmost maximal run of word characters that is one of the words.
 */
module SqlTokens {
  import opened Wrappers
  import opened PyText

  predicate IsWordChar(c: char) {
    'a' <= c <= 'z' || 'A' <= c <= 'Z' || '0' <= c <= '9' || c == '_'
  }

  predicate IsWord(w: string) {
    w != "" && forall k | 0 <= k < |w| :: IsWordChar(w[k])
  }

  /** The characters of `s` at i read `w`, in any case. */
  predicate ReadsAt(s: string, i: nat, w: string) {
    i + |w| <= |s| && forall k | 0 <= k < |w| :: UpperChar(s[i + k]) == UpperChar(w[k])
  }

  // ---- The engine ----

  /** `\b` at position i: exactly one of the two neighbours is a word character. */
  predicate Boundary(s: string, i: nat)
    requires i <= |s|
  {
    (0 < i && IsWordChar(s[i - 1])) != (i < |s| && IsWordChar(s[i]))
  }

  /** The alternatives in the order written; one that fails its closing `\b` falls through to the next. */
  function Alternatives(s: string, i: nat, words: seq<string>): (end: Option<nat>)
    requires i <= |s|
    ensures end.Some? ==> i <= end.value <= |s|
  {
    if words == [] then None
    else if ReadsAt(s, i, words[0]) && Boundary(s, i + |words[0]|) then Some(i + |words[0]|)
    else Alternatives(s, i, words[1..])
  }

  /** Tries every start position from i on; the result is the span of the match. */
  function SearchFrom(s: string, i: nat, words: seq<string>): (m: Option<(nat, nat)>)
    requires i <= |s|
    ensures m.Some? ==> i <= m.value.0 <= m.value.1 <= |s|
    decreases |s| - i
  {
    var end := if Boundary(s, i) then Alternatives(s, i, words) else None;
    if end.Some? then Some((i, end.value))
    else if i < |s| then SearchFrom(s, i + 1, words)
    else None
  }

  function Search(s: string, words: seq<string>): (m: Option<(nat, nat)>)
    ensures m.Some? ==> m.value.0 <= m.value.1 <= |s|
  {
    SearchFrom(s, 0, words)
  }

  /** The text matched by the search: `match.group()`. */
  function Found(s: string, words: seq<string>): Option<string> {
    var m := Search(s, words);
    if m.Some? then Some(s[m.value.0..m.value.1]) else None
  }

  // ---- The meaning ----

  /** A maximal, non-empty run of word characters. */
  predicate IsToken(s: string, i: nat, j: nat) {
    && i < j <= |s|
    && (forall k | i <= k < j :: IsWordChar(s[k]))
    && (i == 0 || !IsWordChar(s[i - 1]))
    && (j == |s| || !IsWordChar(s[j]))
  }

  predicate Listed(s: string, i: nat, j: nat, words: seq<string>) {
    exists n | 0 <= n < |words| :: j == i + |words[n]| && ReadsAt(s, i, words[n])
  }

  predicate IsListedToken(s: string, i: nat, j: nat, words: seq<string>) {
    IsToken(s, i, j) && Listed(s, i, j, words)
  }

  ghost predicate HasListedToken(s: string, words: seq<string>) {
    exists i: nat, j: nat :: IsListedToken(s, i, j, words)
  }

  ghost predicate IsLeftmostListedToken(s: string, i: nat, j: nat, words: seq<string>) {
    && IsListedToken(s, i, j, words)
    && forall i': nat, j': nat | i' < i :: !IsListedToken(s, i', j', words)
  }

  lemma AlternativesTryAll(s: string, i: nat, words: seq<string>)
    requires i <= |s|
    ensures Alternatives(s, i, words).None?
       <==> forall n | 0 <= n < |words| :: !(ReadsAt(s, i, words[n]) && Boundary(s, i + |words[n]|))
    ensures Alternatives(s, i, words).Some? ==>
              var j := Alternatives(s, i, words).value;
              Boundary(s, j) && Listed(s, i, j, words)
  {
    if words != [] && !(ReadsAt(s, i, words[0]) && Boundary(s, i + |words[0]|)) {
      var rest := words[1..];
      AlternativesTryAll(s, i, rest);
      assert forall n | 1 <= n < |words| :: words[n] == rest[n - 1];
      if Alternatives(s, i, rest).Some? {
        var j := Alternatives(s, i, rest).value;
        var n :| 0 <= n < |rest| && j == i + |rest[n]| && ReadsAt(s, i, rest[n]);
        assert words[n + 1] == rest[n];
      }
    }
  }

  /** Two word boundaries around the characters of a word are exactly the ends of a token. */
  lemma BoundedWordIsToken(s: string, i: nat, w: string)
    requires IsWord(w) && ReadsAt(s, i, w)
    ensures Boundary(s, i) && Boundary(s, i + |w|) <==> IsToken(s, i, i + |w|)
  {
    forall k | i <= k < i + |w| ensures IsWordChar(s[k]) {
      assert UpperChar(s[i + (k - i)]) == UpperChar(w[k - i]);
    }
    assert IsWordChar(s[i]) && IsWordChar(s[i + |w| - 1]);
  }

  lemma ListedTokenIsMatch(s: string, i: nat, j: nat, words: seq<string>)
    requires IsListedToken(s, i, j, words) && forall n | 0 <= n < |words| :: IsWord(words[n])
    ensures Boundary(s, i) && Alternatives(s, i, words) == Some(j)
  {
    AlternativesTryAll(s, i, words);
    var n :| 0 <= n < |words| && j == i + |words[n]| && ReadsAt(s, i, words[n]);
    BoundedWordIsToken(s, i, words[n]);
    MatchIsListedToken(s, i, words);
    TokenEndUnique(s, i, j, Alternatives(s, i, words).value);
  }

  lemma MatchIsListedToken(s: string, i: nat, words: seq<string>)
    requires i <= |s| && Boundary(s, i) && forall n | 0 <= n < |words| :: IsWord(words[n])
    requires Alternatives(s, i, words).Some?
    ensures IsListedToken(s, i, Alternatives(s, i, words).value, words)
  {
    AlternativesTryAll(s, i, words);
    var j := Alternatives(s, i, words).value;
    var n :| 0 <= n < |words| && j == i + |words[n]| && ReadsAt(s, i, words[n]);
    BoundedWordIsToken(s, i, words[n]);
  }

  lemma MatchAtIsListedToken(s: string, i: nat, words: seq<string>)
    requires i <= |s| && forall n | 0 <= n < |words| :: IsWord(words[n])
    ensures var end := if Boundary(s, i) then Alternatives(s, i, words) else None;
            forall j: nat :: IsListedToken(s, i, j, words) <==> end == Some(j)
  {
    if Boundary(s, i) && Alternatives(s, i, words).Some? {
      MatchIsListedToken(s, i, words);
    }
    forall j: nat | IsListedToken(s, i, j, words)
      ensures Boundary(s, i) && Alternatives(s, i, words) == Some(j)
    {
      ListedTokenIsMatch(s, i, j, words);
    }
  }

  lemma TokenEndUnique(s: string, i: nat, j: nat, j': nat)
    requires IsToken(s, i, j) && IsToken(s, i, j')
    ensures j == j'
  {
  }

  lemma {:induction false} SearchFromIsLeftmost(s: string, i: nat, words: seq<string>)
    requires i <= |s| && forall n | 0 <= n < |words| :: IsWord(words[n])
    ensures var m := SearchFrom(s, i, words);
            if m.Some? then
              && i <= m.value.0
              && IsListedToken(s, m.value.0, m.value.1, words)
              && forall i': nat, j': nat | i <= i' < m.value.0 :: !IsListedToken(s, i', j', words)
            else
              forall i': nat, j': nat | i <= i' :: !IsListedToken(s, i', j', words)
    decreases |s| - i
  {
    MatchAtIsListedToken(s, i, words);
    if i < |s| {
      SearchFromIsLeftmost(s, i + 1, words);
    }
  }

  /** The search finds a match iff some token is a listed word, and then its span is that of the leftmost one. */
  lemma SearchIsTokenisation(s: string, words: seq<string>)
    requires forall n | 0 <= n < |words| :: IsWord(words[n])
    ensures Search(s, words).Some? <==> HasListedToken(s, words)
    ensures forall i: nat, j: nat ::
              Search(s, words) == Some((i, j)) <==> IsLeftmostListedToken(s, i, j, words)
  {
    SearchFromIsLeftmost(s, 0, words);
    forall i: nat, j: nat | IsLeftmostListedToken(s, i, j, words)
      ensures Search(s, words) == Some((i, j))
    {
      TokenEndUnique(s, i, j, Search(s, words).value.1);
    }
  }

  /** The text a search must report: the leftmost listed token, as written. */
  ghost predicate IsLeftmostListedText(s: string, words: seq<string>, text: string) {
    exists i: nat, j: nat :: IsLeftmostListedToken(s, i, j, words) && text == s[i..j]
  }

  lemma FoundIsLeftmostListedText(s: string, words: seq<string>)
    requires forall n | 0 <= n < |words| :: IsWord(words[n])
    ensures Found(s, words).Some? <==> HasListedToken(s, words)
    ensures forall text :: Found(s, words) == Some(text) <==> IsLeftmostListedText(s, words, text)
  {
    SearchIsTokenisation(s, words);
    if Search(s, words).Some? {
      var (i, j) := Search(s, words).value;
      assert IsLeftmostListedToken(s, i, j, words);
    }
  }

  // ---- The meaning, letter by letter ----

  predicate InWord(c: char) {
    c in SMALL || c in CAPITAL || c in DIGITS || c == '_'
  }

  /** The word stands at i in any mix of the two cases, with no word character on either side. */
  predicate StandsAlone(s: string, i: nat, w: string) {
    && i + |w| <= |s|
    && (forall k | 0 <= k < |w| :: SameLetter(s[i + k], w[k]))
    && (i == 0 || !InWord(s[i - 1]))
    && (i + |w| == |s| || !InWord(s[i + |w|]))
  }

  ghost predicate HoldsWord(s: string, words: seq<string>) {
    exists i: nat, n: nat :: n < |words| && StandsAlone(s, i, words[n])
  }

  lemma WordCharsAreListed(c: char)
    ensures IsWordChar(c) <==> InWord(c)
  {
    AlphabetsAreRanges();
    InRangeIffListed(c, 'a', SMALL);
    InRangeIffListed(c, 'A', CAPITAL);
    InRangeIffListed(c, '0', DIGITS);
  }

  lemma ReadsIffSameLetters(s: string, i: nat, w: string)
    ensures ReadsAt(s, i, w) <==> i + |w| <= |s| && forall k | 0 <= k < |w| :: SameLetter(s[i + k], w[k])
  {
    if i + |w| <= |s| {
      forall k | 0 <= k < |w| ensures UpperChar(s[i + k]) == UpperChar(w[k]) <==> SameLetter(s[i + k], w[k]) {
        SameUpperIffSameLetter(s[i + k], w[k]);
      }
    }
  }

  lemma StandsAloneIffToken(s: string, i: nat, w: string)
    requires IsWord(w)
    ensures StandsAlone(s, i, w) <==> ReadsAt(s, i, w) && IsToken(s, i, i + |w|)
  {
    ReadsIffSameLetters(s, i, w);
    if ReadsAt(s, i, w) {
      forall k | 0 <= k < |s| ensures IsWordChar(s[k]) <==> InWord(s[k]) {
        WordCharsAreListed(s[k]);
      }
      forall k | i <= k < i + |w| ensures IsWordChar(s[k]) {
        assert UpperChar(s[i + (k - i)]) == UpperChar(w[k - i]);
      }
    }
  }

  /** A text has a listed token iff one of the words stands in it, bounded and in any mix of cases. */
  lemma HasListedTokenIffHoldsWord(s: string, words: seq<string>)
    requires forall n | 0 <= n < |words| :: IsWord(words[n])
    ensures HasListedToken(s, words) <==> HoldsWord(s, words)
  {
    if HasListedToken(s, words) {
      var i: nat, j: nat :| IsListedToken(s, i, j, words);
      var n: nat :| n < |words| && j == i + |words[n]| && ReadsAt(s, i, words[n]);
      StandsAloneIffToken(s, i, words[n]);
    }
    if HoldsWord(s, words) {
      var i: nat, n: nat :| n < |words| && StandsAlone(s, i, words[n]);
      StandsAloneIffToken(s, i, words[n]);
      assert IsListedToken(s, i, i + |words[n]|, words);
    }
  }

  // ---- What does not change the search ----

  /** Words and boundaries do not depend on case, so neither does the span of the match. */
  lemma {:induction false} SearchIgnoresCase(s: string, t: string, i: nat, words: seq<string>)
    requires SameIgnoringCase(s, t) && i <= |s|
    ensures SearchFrom(s, i, words) == SearchFrom(t, i, words)
    decreases |s| - i
  {
    AlternativesIgnoreCase(s, t, i, words);
    BoundaryIgnoresCase(s, t, i);
    if i < |s| {
      SearchIgnoresCase(s, t, i + 1, words);
    }
  }

  lemma BoundaryIgnoresCase(s: string, t: string, i: nat)
    requires SameIgnoringCase(s, t) && i <= |s|
    ensures Boundary(s, i) == Boundary(t, i)
  {
    assert 0 < i ==> UpperChar(s[i - 1]) == UpperChar(t[i - 1]);
  }

  lemma {:induction false} AlternativesIgnoreCase(s: string, t: string, i: nat, words: seq<string>)
    requires SameIgnoringCase(s, t) && i <= |s|
    ensures Alternatives(s, i, words) == Alternatives(t, i, words)
  {
    if words != [] {
      assert ReadsAt(s, i, words[0]) == ReadsAt(t, i, words[0]);
      if ReadsAt(s, i, words[0]) {
        BoundaryIgnoresCase(s, t, i + |words[0]|);
      }
      AlternativesIgnoreCase(s, t, i, words[1..]);
    }
  }

  /** `s` with non-word characters around it. */
  predicate IsPadded(t: string, a: string, s: string, b: string) {
    && t == a + s + b
    && (forall k | 0 <= k < |a| :: !IsWordChar(a[k]))
    && (forall k | 0 <= k < |b| :: !IsWordChar(b[k]))
  }

  lemma PaddingShiftsRuns(t: string, a: string, s: string, b: string, i: nat, j: nat)
    requires IsPadded(t, a, s, b)
    ensures IsToken(t, i, j) <==> |a| <= i && |a| <= j && IsToken(s, i - |a|, j - |a|)
  {
    assert forall k | 0 <= k < |a| :: t[k] == a[k];
    assert forall k | |a| <= k < |a| + |s| :: t[k] == s[k - |a|];
    assert forall k | |a| + |s| <= k < |t| :: t[k] == b[k - |a| - |s|];
    if IsToken(t, i, j) {
      assert IsWordChar(t[i]) && IsWordChar(t[j - 1]);
      assert |a| + |s| < |t| ==> !IsWordChar(t[|a| + |s|]);
      assert forall k | i - |a| <= k < j - |a| :: s[k] == t[|a| + k];
    } else if |a| <= i && |a| <= j && IsToken(s, i - |a|, j - |a|) {
      assert forall k | i <= k < j :: t[k] == s[k - |a|];
    }
  }

  lemma PaddingShiftsTokens(t: string, a: string, s: string, b: string, words: seq<string>, i: nat, j: nat)
    requires IsPadded(t, a, s, b)
    ensures IsListedToken(t, |a| + i, |a| + j, words) <==> IsListedToken(s, i, j, words)
  {
    PaddingShiftsRuns(t, a, s, b, |a| + i, |a| + j);
    if IsToken(s, i, j) {
      forall n | 0 <= n < |words| && j == i + |words[n]|
        ensures ReadsAt(t, |a| + i, words[n]) == ReadsAt(s, i, words[n])
      {
        assert forall k | i <= k < j :: s[k] == t[|a| + k];
      }
    }
  }

  /** A listed token anywhere bounds the match from the right. */
  lemma SearchIsAtOrBefore(s: string, words: seq<string>, i: nat, j: nat)
    requires forall n | 0 <= n < |words| :: IsWord(words[n])
    requires IsListedToken(s, i, j, words)
    ensures Search(s, words).Some? && Search(s, words).value.0 <= i
    ensures Search(s, words).value.0 == i ==> Search(s, words).value.1 == j
  {
    SearchFromIsLeftmost(s, 0, words);
    var (i', j') := Search(s, words).value;
    if i' == i {
      TokenEndUnique(s, i, j, j');
    }
  }

  lemma MatchMovesIntoPadding(t: string, a: string, s: string, b: string, words: seq<string>)
    requires IsPadded(t, a, s, b) && forall n | 0 <= n < |words| :: IsWord(words[n])
    ensures Search(s, words).Some? ==> Search(t, words).Some?
    ensures Search(s, words).Some? ==> Search(t, words).value.0 <= |a| + Search(s, words).value.0
  {
    if Search(s, words).Some? {
      var (i, j) := Search(s, words).value;
      SearchFromIsLeftmost(s, 0, words);
      PaddingShiftsTokens(t, a, s, b, words, i, j);
      SearchIsAtOrBefore(t, words, |a| + i, |a| + j);
    }
  }

  lemma MatchMovesOutOfPadding(t: string, a: string, s: string, b: string, words: seq<string>)
    requires IsPadded(t, a, s, b) && forall n | 0 <= n < |words| :: IsWord(words[n])
    requires Search(t, words).Some?
    ensures var (i, j) := Search(t, words).value;
            && |a| <= i && |a| <= j && IsListedToken(s, i - |a|, j - |a|, words)
            && Search(s, words).Some? && Search(s, words).value.0 <= i - |a|
  {
    var (i, j) := Search(t, words).value;
    SearchFromIsLeftmost(t, 0, words);
    PaddingShiftsRuns(t, a, s, b, i, j);
    PaddingShiftsTokens(t, a, s, b, words, i - |a|, j - |a|);
    SearchIsAtOrBefore(s, words, i - |a|, j - |a|);
  }

  /** Padding with non-word characters moves the match and leaves its text as it was. */
  lemma SearchIgnoresPadding(t: string, a: string, s: string, b: string, words: seq<string>)
    requires IsPadded(t, a, s, b) && forall n | 0 <= n < |words| :: IsWord(words[n])
    ensures match Search(s, words)
            case None => Search(t, words).None?
            case Some((i, j)) => Search(t, words) == Some((|a| + i, |a| + j))
  {
    MatchMovesIntoPadding(t, a, s, b, words);
    if Search(t, words).Some? {
      MatchMovesOutOfPadding(t, a, s, b, words);
      var (i, j) := Search(t, words).value;
      SearchIsAtOrBefore(s, words, i - |a|, j - |a|);
    }
  }

  lemma PaddingKeepsFound(t: string, a: string, s: string, b: string, words: seq<string>)
    requires IsPadded(t, a, s, b) && forall n | 0 <= n < |words| :: IsWord(words[n])
    ensures Found(t, words) == Found(s, words)
  {
    SearchIgnoresPadding(t, a, s, b, words);
    if Search(s, words).Some? {
      var (i, j) := Search(s, words).value;
      assert t[|a| + i..|a| + j] == s[i..j];
    }
  }

  lemma CaseKeepsFound(s: string, t: string, words: seq<string>)
    requires SameIgnoringCase(s, t)
    ensures Found(s, words).Some? <==> Found(t, words).Some?
    ensures Found(s, words).Some? ==> SameIgnoringCase(Found(s, words).value, Found(t, words).value)
  {
    SearchIgnoresCase(s, t, 0, words);
    if Search(s, words).Some? {
      var (i, j) := Search(s, words).value;
      assert forall k | 0 <= k < j - i :: s[i..j][k] == s[i + k] && t[i..j][k] == t[i + k];
    }
  }
}
