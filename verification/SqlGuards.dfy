/**
 The SQL guard chain (agent/nodes/sql_validator.py) and what each guard says about the text itself,
 without stripping or searching.
 */
module SqlGuards {
  import opened PyText
  import opened SqlTokens

  const BLOCKED_KEYWORDS: seq<string> :=
    ["DROP", "DELETE", "INSERT", "UPDATE", "ALTER", "CREATE", "TRUNCATE", "REPLACE", "MERGE", "EXEC", "EXECUTE"]

  const BLOCKED_SCHEMAS: seq<string> := ["information_schema", "pg_catalog"]

  /** `(True, None)`, or the guard that failed with the text it reports. */
  datatype Verdict =
    | Valid
    | NotSelect
    | Stacked
    | StatementType(word: string)
    | SystemSchema(word: string)
  {
    function Message(): string
      requires !Valid?
    {
      match this
      case NotSelect => "Only SELECT queries are permitted"
      case Stacked => "Multiple statements are not allowed"
      case StatementType(word) => "Statement type '" + word + "' is not allowed"
      case SystemSchema(word) => "Access to '" + word + "' is not allowed"
    }
  }

  predicate StartsAllowed(sql: string) {
    var normalised := Upper(LStrip(Strip(sql), {'('}));
    "SELECT" <= normalised || "WITH" <= normalised
  }

  predicate HasStackedStatements(sql: string) {
    ';' in RStrip(Strip(sql), {';'})
  }

  function ValidateSql(sql: string): Verdict {
    if !StartsAllowed(sql) then NotSelect
    else if HasStackedStatements(sql) then Stacked
    else
      var keyword := Found(sql, BLOCKED_KEYWORDS);
      if keyword.Some? then StatementType(keyword.value)
      else
        var schema := Found(sql, BLOCKED_SCHEMAS);
        if schema.Some? then SystemSchema(schema.value) else Valid
  }

  lemma QuotedWordIsRecoverable(before: string, word: string, word': string, after: string)
    requires before + word + after == before + word' + after
    ensures word == word'
  {
    var s := before + word + after;
    assert word == s[|before|..|s| - |after|];
    assert word' == s[|before|..|s| - |after|];
  }

  /** The message shown to the user identifies the guard and the word it reported. */
  lemma MessageTellsVerdict(v: Verdict, v': Verdict)
    requires !v.Valid? && !v'.Valid? && v.Message() == v'.Message()
    ensures v == v'
  {
    assert v.Message()[0] == v'.Message()[0];
    match (v, v') {
      case (StatementType(w), StatementType(w')) =>
        QuotedWordIsRecoverable("Statement type '", w, w', "' is not allowed");
      case (SystemSchema(w), SystemSchema(w')) =>
        QuotedWordIsRecoverable("Access to '", w, w', "' is not allowed");
      case _ =>
    }
  }

  // ---- The guards, read off the text ----

  /** Whitespace, then opening parentheses, then SELECT or WITH in any case. */
  predicate OpensWithSelectAt(s: string, i: nat, j: nat) {
    && i <= j <= |s|
    && Span(s, 0, i, WHITESPACE)
    && Span(s, i, j, {'('})
    && (ReadsAt(s, j, "SELECT") || ReadsAt(s, j, "WITH"))
  }

  ghost predicate OpensWithSelect(s: string) {
    exists i: nat, j: nat :: OpensWithSelectAt(s, i, j)
  }

  /** No semicolon, except one run of them with only whitespace after it. */
  predicate SingleStatementAt(s: string, k: nat, m: nat) {
    && k <= m <= |s|
    && ';' !in s[..k]
    && Span(s, k, m, {';'})
    && Span(s, m, |s|, WHITESPACE)
  }

  ghost predicate SingleStatement(s: string) {
    exists k: nat, m: nat :: SingleStatementAt(s, k, m)
  }

  predicate IsQueryBody(body: string, parens: nat) {
    && parens <= |body|
    && ';' !in body
    && Span(body, 0, parens, {'('})
    && (ReadsAt(body, parens, "SELECT") || ReadsAt(body, parens, "WITH"))
  }

  /** Whitespace, a query body, a run of semicolons, whitespace. */
  predicate IsQueryShape(before: string, body: string, semicolons: string, after: string) {
    && Span(before, 0, |before|, WHITESPACE)
    && (exists parens | 0 <= parens <= |body| :: IsQueryBody(body, parens))
    && Span(semicolons, 0, |semicolons|, {';'})
    && Span(after, 0, |after|, WHITESPACE)
  }

  lemma KeywordsAreWords()
    ensures forall n | 0 <= n < |BLOCKED_KEYWORDS| :: IsWord(BLOCKED_KEYWORDS[n])
    ensures forall n | 0 <= n < |BLOCKED_SCHEMAS| :: IsWord(BLOCKED_SCHEMAS[n])
  {
  }

  lemma ReadsKeyword(s: string, j: nat, w: string)
    requires ReadsAt(s, j, w) && (w == "SELECT" || w == "WITH")
    ensures forall k | j <= k < j + |w| :: s[k] !in WHITESPACE && s[k] != '(' && s[k] != ';'
  {
    forall k | j <= k < j + |w| ensures s[k] !in WHITESPACE && s[k] != '(' && s[k] != ';' {
      assert UpperChar(s[j + (k - j)]) == UpperChar(w[k - j]);
      assert 'A' <= w[k - j] <= 'Z';
    }
  }

  lemma UpperPrefixReads(t: string, w: string)
    requires Upper(w) == w
    ensures w <= Upper(t) <==> ReadsAt(t, 0, w)
  {
    assert forall k | 0 <= k < |w| :: UpperChar(w[k]) == w[k] by {
      assert forall k | 0 <= k < |w| :: Upper(w)[k] == UpperChar(w[k]);
    }
  }

  lemma ReadsInSlice(s: string, j: nat, e: nat, w: string)
    requires j <= e <= |s|
    ensures ReadsAt(s[j..e], 0, w) <==> j + |w| <= e && ReadsAt(s, j, w)
  {
    assert forall k | 0 <= k < e - j :: s[j..e][k] == s[j + k];
  }

  // ---- Each guard is its reading ----

  lemma OpeningIsCanonical(s: string, i: nat, j: nat, w: string, i': nat, e: nat)
    requires i <= j && (w == "SELECT" || w == "WITH") && ReadsAt(s, j, w)
    requires Span(s, 0, i, WHITESPACE) && Span(s, i, j, {'('})
    requires i' <= e <= |s| && Span(s, 0, i', WHITESPACE) && Span(s, e, |s|, WHITESPACE)
    requires i' < e ==> s[i'] !in WHITESPACE
    ensures i' == i && j + |w| <= e
  {
    ReadsKeyword(s, j, w);
    assert s[j] !in WHITESPACE && s[j + |w| - 1] !in WHITESPACE;
    assert '(' !in WHITESPACE;
    assert s[i] !in WHITESPACE;
  }

  /** Where the normalised text starts in the original, and what it then reads. */
  lemma NormalisedStart(s: string) returns (i: nat, j: nat, e: nat)
    ensures i <= j <= e <= |s| && LStrip(Strip(s), {'('}) == s[j..e]
    ensures Span(s, 0, i, WHITESPACE) && Span(s, i, j, {'('}) && Span(s, e, |s|, WHITESPACE)
    ensures i < e ==> s[i] !in WHITESPACE
    ensures j < e ==> s[j] != '('
  {
    i, e := StripBounds(s, WHITESPACE);
    var t := s[i..e];
    var n := ScanRight(t, 0, {'('});
    j := i + n;
    assert forall k | i <= k < e :: s[k] == t[k - i];
    assert t[n..] == s[j..e];
  }

  lemma NormalisedReads(s: string, j: nat, e: nat, w: string)
    requires j <= e <= |s| && (w == "SELECT" || w == "WITH")
    ensures w <= Upper(s[j..e]) <==> ReadsAt(s, j, w) && j + |w| <= e
  {
    assert Upper(w) == w;
    UpperPrefixReads(s[j..e], w);
    ReadsInSlice(s, j, e, w);
  }

  lemma StartsAllowedIsOpensWithSelect(s: string)
    ensures StartsAllowed(s) <==> OpensWithSelect(s)
  {
    var i, j, e := NormalisedStart(s);
    NormalisedReads(s, j, e, "SELECT");
    NormalisedReads(s, j, e, "WITH");
    if StartsAllowed(s) {
      assert OpensWithSelectAt(s, i, j);
    }
    if OpensWithSelect(s) {
      var i': nat, j': nat :| OpensWithSelectAt(s, i', j');
      var w := if ReadsAt(s, j', "SELECT") then "SELECT" else "WITH";
      OpeningIsCanonical(s, i', j', w, i, e);
      ReadsKeyword(s, j', w);
      assert j == j';
    }
  }

  lemma StackedIsNotSingleStatement(s: string)
    ensures HasStackedStatements(s) <==> !SingleStatement(s)
  {
    var i, e := StripBounds(s, WHITESPACE);
    var t := s[i..e];
    var n := ScanLeft(t, |t|, {';'});
    assert forall k | i <= k < e :: t[k - i] == s[k];
    assert ';' !in WHITESPACE;
    if ';' !in t[..n] {
      forall k | 0 <= k < i + n ensures s[k] != ';' {
        if i <= k { assert s[k] == t[..n][k - i]; }
      }
      assert SingleStatementAt(s, i + n, e);
    }
    if SingleStatement(s) {
      var k: nat, m: nat :| SingleStatementAt(s, k, m);
      assert forall x | 0 <= x < k :: s[x] == s[..k][x];
      if k < m {
        assert s[m - 1] == ';';
      }
      forall x | 0 <= x < n ensures t[..n][x] != ';' {
        assert t[x] == s[i + x] && t[n - 1] == s[i + n - 1];
      }
    }
  }

  // ---- The verdict ----

  /** Each verdict is given exactly when its guard is the first that the text fails. */
  lemma VerdictIsFirstFailingGuard(s: string)
    ensures ValidateSql(s) == NotSelect <==> !OpensWithSelect(s)
    ensures ValidateSql(s) == Stacked <==> OpensWithSelect(s) && !SingleStatement(s)
    ensures forall w :: (ValidateSql(s) == StatementType(w)
                         <==> OpensWithSelect(s) && SingleStatement(s) && IsLeftmostListedText(s, BLOCKED_KEYWORDS, w))
    ensures forall w :: (ValidateSql(s) == SystemSchema(w)
                         <==> OpensWithSelect(s) && SingleStatement(s) && !HasListedToken(s, BLOCKED_KEYWORDS)
                              && IsLeftmostListedText(s, BLOCKED_SCHEMAS, w))
    ensures ValidateSql(s) == Valid
       <==> OpensWithSelect(s) && SingleStatement(s) && !HasListedToken(s, BLOCKED_KEYWORDS)
            && !HasListedToken(s, BLOCKED_SCHEMAS)
  {
    StartsAllowedIsOpensWithSelect(s);
    StackedIsNotSingleStatement(s);
    KeywordsAreWords();
    FoundIsLeftmostListedText(s, BLOCKED_KEYWORDS);
    FoundIsLeftmostListedText(s, BLOCKED_SCHEMAS);
  }

  lemma ShapeIsOpeningAndSingle(s: string)
    ensures OpensWithSelect(s) && SingleStatement(s)
       <==> exists before, body, semicolons, after ::
              s == before + body + semicolons + after && IsQueryShape(before, body, semicolons, after)
  {
    if OpensWithSelect(s) && SingleStatement(s) {
      var i: nat, j: nat :| OpensWithSelectAt(s, i, j);
      var k: nat, m: nat :| SingleStatementAt(s, k, m);
      SplitIntoShape(s, i, j, k, m);
    }
    if before, body, semicolons, after :|
      s == before + body + semicolons + after && IsQueryShape(before, body, semicolons, after)
    {
      ShapeSplits(s, before, body, semicolons, after);
    }
  }

  lemma KeywordEndsBeforeSemicolons(s: string, j: nat, w: string, k: nat, m: nat)
    requires ReadsAt(s, j, w) && (w == "SELECT" || w == "WITH")
    requires SingleStatementAt(s, k, m)
    ensures j + |w| <= k
  {
    ReadsKeyword(s, j, w);
    assert s[j + |w| - 1] !in WHITESPACE && s[j + |w| - 1] != ';';
  }

  lemma SliceIsQueryBody(s: string, i: nat, j: nat, k: nat, w: string)
    requires i <= j <= k <= |s| && Span(s, i, j, {'('}) && ';' !in s[..k]
    requires ReadsAt(s, j, w) && j + |w| <= k && (w == "SELECT" || w == "WITH")
    ensures IsQueryBody(s[i..k], j - i)
  {
    var body := s[i..k];
    assert forall x | i <= x < k :: body[x - i] == s[x] && s[x] == s[..k][x];
    forall x | 0 <= x < |w| ensures UpperChar(body[j - i + x]) == UpperChar(w[x]) {
      assert body[j - i + x] == s[j + x];
    }
  }

  lemma SliceIsSpan(s: string, i: nat, j: nat, chars: set<char>)
    requires i <= j <= |s| && Span(s, i, j, chars)
    ensures Span(s[i..j], 0, j - i, chars)
  {
    assert forall x | 0 <= x < j - i :: s[i..j][x] == s[i + x];
  }

  lemma SlicesConcat(s: string, a: nat, b: nat, c: nat)
    requires a <= b <= c <= |s|
    ensures s[a..b] + s[b..c] == s[a..c]
  {
  }

  lemma SlicesRejoin(s: string, i: nat, k: nat, m: nat)
    requires i <= k <= m <= |s|
    ensures s == s[0..i] + s[i..k] + s[k..m] + s[m..|s|]
  {
    SlicesConcat(s, 0, i, k);
    SlicesConcat(s, 0, k, m);
    SlicesConcat(s, 0, m, |s|);
    assert s[0..|s|] == s;
  }

  lemma SplitIntoShape(s: string, i: nat, j: nat, k: nat, m: nat)
    requires OpensWithSelectAt(s, i, j) && SingleStatementAt(s, k, m)
    ensures i <= k && s == s[0..i] + s[i..k] + s[k..m] + s[m..|s|]
    ensures IsQueryShape(s[0..i], s[i..k], s[k..m], s[m..|s|])
  {
    var w := if ReadsAt(s, j, "SELECT") then "SELECT" else "WITH";
    KeywordEndsBeforeSemicolons(s, j, w, k, m);
    SliceIsQueryBody(s, i, j, k, w);
    SliceIsSpan(s, 0, i, WHITESPACE);
    SliceIsSpan(s, k, m, {';'});
    SliceIsSpan(s, m, |s|, WHITESPACE);
    SlicesRejoin(s, i, k, m);
  }

  lemma ShapeSplits(s: string, before: string, body: string, semicolons: string, after: string)
    requires s == before + body + semicolons + after && IsQueryShape(before, body, semicolons, after)
    ensures OpensWithSelect(s) && SingleStatement(s)
  {
    var p: nat :| p <= |body| && IsQueryBody(body, p);
    var i, k := |before|, |before| + |body|;
    var m := k + |semicolons|;
    assert ';' !in WHITESPACE;
    assert forall x | 0 <= x < i :: s[x] == before[x];
    assert forall x | i <= x < k :: s[x] == body[x - i];
    assert forall x | k <= x < m :: s[x] == semicolons[x - k];
    assert forall x | m <= x < |s| :: s[x] == after[x - m];
    assert SingleStatementAt(s, k, m);
    assert OpensWithSelectAt(s, i, i + p) by {
      forall w | ReadsAt(body, p, w) ensures ReadsAt(s, i + p, w) {
        forall x | 0 <= x < |w| ensures UpperChar(s[i + p + x]) == UpperChar(w[x]) {
          assert s[i + p + x] == body[p + x];
        }
      }
    }
  }

  /**
   The validator accepts exactly the texts made of whitespace, a semicolon-free body that opens with SELECT or
   WITH after its parentheses, a run of semicolons and whitespace, in which no token is a blocked word.
   */
  lemma AcceptedIffQueryShape(s: string)
    ensures ValidateSql(s).Valid?
       <==> && (exists before, body, semicolons, after ::
                  s == before + body + semicolons + after && IsQueryShape(before, body, semicolons, after))
            && !HasListedToken(s, BLOCKED_KEYWORDS)
            && !HasListedToken(s, BLOCKED_SCHEMAS)
  {
    VerdictIsFirstFailingGuard(s);
    ShapeIsOpeningAndSingle(s);
  }

  /**
   In letters: a text is accepted iff it opens with SELECT or WITH, is a single statement, and none of these words
   stands in it, in any mix of small and capital letters, with no word character on either side.
   */
  lemma AcceptedIffNoBlockedWordStands(s: string)
    ensures ValidateSql(s).Valid?
       <==> && OpensWithSelect(s) && SingleStatement(s)
            && !HoldsWord(s, ["DROP", "DELETE", "INSERT", "UPDATE", "ALTER", "CREATE", "TRUNCATE", "REPLACE", "MERGE",
                              "EXEC", "EXECUTE"])
            && !HoldsWord(s, ["information_schema", "pg_catalog"])
  {
    VerdictIsFirstFailingGuard(s);
    KeywordsAreWords();
    HasListedTokenIffHoldsWord(s, BLOCKED_KEYWORDS);
    HasListedTokenIffHoldsWord(s, BLOCKED_SCHEMAS);
  }

  lemma OpeningInLetters(s: string, i: nat, j: nat)
    ensures OpensWithSelectAt(s, i, j)
       <==> && i <= j <= |s|
            && (forall k | 0 <= k < i :: s[k] as int in {0x09, 0x0A, 0x0B, 0x0C, 0x0D, 0x1C, 0x1D, 0x1E, 0x1F, 0x20})
            && (forall k | i <= k < j :: s[k] == '(')
            && exists w | w in {"SELECT", "WITH"} ::
                 j + |w| <= |s| && forall k | 0 <= k < |w| :: SameLetter(s[j + k], w[k])
  {
    ReadsIffSameLetters(s, j, "SELECT");
    ReadsIffSameLetters(s, j, "WITH");
    forall k | 0 <= k < |s|
      ensures s[k] in WHITESPACE
         <==> s[k] as int in {0x09, 0x0A, 0x0B, 0x0C, 0x0D, 0x1C, 0x1D, 0x1E, 0x1F, 0x20}
    {
      WhitespaceByCodePoint(s[k]);
    }
  }

  // ---- The text shown ----

  /** What the user is told of a rejected text, by the first guard that it fails. */
  ghost predicate IsRejectionText(s: string, text: string) {
    if !OpensWithSelect(s) then text == "Only SELECT queries are permitted"
    else if !SingleStatement(s) then text == "Multiple statements are not allowed"
    else if HasListedToken(s, BLOCKED_KEYWORDS) then
      exists w :: IsLeftmostListedText(s, BLOCKED_KEYWORDS, w) && text == "Statement type '" + w + "' is not allowed"
    else
      exists w :: IsLeftmostListedText(s, BLOCKED_SCHEMAS, w) && text == "Access to '" + w + "' is not allowed"
  }

  lemma RejectionNamesFirstFailingGuard(s: string)
    requires !ValidateSql(s).Valid?
    ensures forall text :: IsRejectionText(s, text) <==> text == ValidateSql(s).Message()
  {
    VerdictIsFirstFailingGuard(s);
    KeywordsAreWords();
    FoundIsLeftmostListedText(s, BLOCKED_KEYWORDS);
    FoundIsLeftmostListedText(s, BLOCKED_SCHEMAS);
  }

  // ---- What does not change the verdict ----

  /** The same guard fails, and the reported words agree up to case. */
  predicate SameGuard(v: Verdict, v': Verdict) {
    match (v, v')
    case (StatementType(w), StatementType(w')) => SameIgnoringCase(w, w')
    case (SystemSchema(w), SystemSchema(w')) => SameIgnoringCase(w, w')
    case _ => v == v'
  }

  lemma CaseKeepsPunctuation(c: char, d: char)
    requires UpperChar(c) == UpperChar(d)
    ensures c in WHITESPACE <==> d in WHITESPACE
    ensures c == ';' <==> d == ';'
    ensures c == '(' <==> d == '('
  {
  }

  lemma CaseKeepsGuards(s: string, t: string)
    requires SameIgnoringCase(s, t)
    ensures OpensWithSelect(s) ==> OpensWithSelect(t)
    ensures SingleStatement(s) ==> SingleStatement(t)
  {
    forall k | 0 <= k < |s|
      ensures s[k] in WHITESPACE <==> t[k] in WHITESPACE
      ensures s[k] == ';' <==> t[k] == ';'
      ensures s[k] == '(' <==> t[k] == '('
    {
      CaseKeepsPunctuation(s[k], t[k]);
    }
    if OpensWithSelect(s) {
      var i: nat, j: nat :| OpensWithSelectAt(s, i, j);
      assert OpensWithSelectAt(t, i, j);
    }
    if SingleStatement(s) {
      var k: nat, m: nat :| SingleStatementAt(s, k, m);
      assert forall x | 0 <= x < k :: s[x] == s[..k][x] && t[x] == t[..k][x];
      assert SingleStatementAt(t, k, m);
    }
  }

  lemma VerdictIgnoresCase(s: string, t: string)
    requires SameIgnoringCase(s, t)
    ensures SameGuard(ValidateSql(s), ValidateSql(t))
  {
    CaseKeepsGuards(s, t);
    CaseKeepsGuards(t, s);
    StartsAllowedIsOpensWithSelect(s);
    StartsAllowedIsOpensWithSelect(t);
    StackedIsNotSingleStatement(s);
    StackedIsNotSingleStatement(t);
    CaseKeepsFound(s, t, BLOCKED_KEYWORDS);
    CaseKeepsFound(s, t, BLOCKED_SCHEMAS);
  }

  lemma WhitespaceIsNotWord(a: string)
    requires Span(a, 0, |a|, WHITESPACE)
    ensures forall k | 0 <= k < |a| :: !IsWordChar(a[k])
  {
  }

  lemma VerdictIgnoresOuterWhitespace(a: string, s: string, b: string)
    requires Span(a, 0, |a|, WHITESPACE) && Span(b, 0, |b|, WHITESPACE)
    ensures ValidateSql(a + s + b) == ValidateSql(s)
  {
    StripIgnoresPadding(a, s, b, WHITESPACE);
    WhitespaceIsNotWord(a);
    WhitespaceIsNotWord(b);
    KeywordsAreWords();
    PaddingKeepsFound(a + s + b, a, s, b, BLOCKED_KEYWORDS);
    PaddingKeepsFound(a + s + b, a, s, b, BLOCKED_SCHEMAS);
  }

  predicate EndsInWhitespace(s: string) {
    s != "" && s[|s| - 1] in WHITESPACE
  }

  lemma SemicolonsKeepOpening(s: string, b: string)
    requires Span(b, 0, |b|, {';'})
    ensures OpensWithSelect(s + b) <==> OpensWithSelect(s)
  {
    var t := s + b;
    assert forall k | 0 <= k < |s| :: t[k] == s[k];
    assert forall k | |s| <= k < |t| :: t[k] == b[k - |s|];
    if OpensWithSelect(t) {
      var i: nat, j: nat :| OpensWithSelectAt(t, i, j);
      var w := if ReadsAt(t, j, "SELECT") then "SELECT" else "WITH";
      ReadsKeyword(t, j, w);
      assert t[j + |w| - 1] != ';';
      assert forall k | j <= k < j + |w| :: s[k] == t[k];
      assert ReadsAt(s, j, w);
      assert OpensWithSelectAt(s, i, j);
    }
    if OpensWithSelect(s) {
      var i: nat, j: nat :| OpensWithSelectAt(s, i, j);
      assert forall w | ReadsAt(s, j, w) :: ReadsAt(t, j, w);
      assert OpensWithSelectAt(t, i, j);
    }
  }

  lemma StackedAfterSemicolons(s: string, b: string)
    requires Span(b, 0, |b|, {';'}) && b != "" && SingleStatement(s + b)
    ensures SingleStatement(s) && !(EndsInWhitespace(s) && ';' in s)
  {
    var t := s + b;
    assert ';' !in WHITESPACE;
    assert forall k | 0 <= k < |s| :: t[k] == s[k];
    assert t[|t| - 1] == b[|b| - 1];
    var k: nat, m: nat :| SingleStatementAt(t, k, m);
    assert m == |t|;
    var k' := if k < |s| then k else |s|;
    assert s[..k'] == t[..k'] && t[..k'] == t[..k][..k'];
    assert SingleStatementAt(s, k', |s|);
    if k < |s| {
      assert s[|s| - 1] == ';';
    } else {
      assert s[..k'] == s;
    }
  }

  lemma SingleAfterSemicolons(s: string, b: string)
    requires Span(b, 0, |b|, {';'}) && SingleStatement(s) && !(EndsInWhitespace(s) && ';' in s)
    ensures SingleStatement(s + b)
  {
    var t := s + b;
    assert forall k | |s| <= k < |t| :: t[k] == b[k - |s|];
    var k: nat, m: nat :| SingleStatementAt(s, k, m);
    if ';' in s {
      assert m == |s|;
      assert t[..k] == s[..k];
      assert SingleStatementAt(t, k, |t|);
    } else {
      assert t[..|s|] == s;
      assert SingleStatementAt(t, |s|, |t|);
    }
  }

  lemma SemicolonsAfterWhitespaceStack(s: string, b: string)
    requires Span(b, 0, |b|, {';'}) && b != ""
    ensures SingleStatement(s + b) <==> SingleStatement(s) && !(EndsInWhitespace(s) && ';' in s)
  {
    if SingleStatement(s + b) {
      StackedAfterSemicolons(s, b);
    } else if SingleStatement(s) && !(EndsInWhitespace(s) && ';' in s) {
      SingleAfterSemicolons(s, b);
    }
  }

  /**
   Appending semicolons leaves the verdict as it was, except to a text that passes the first two guards and has
   whitespace after its own semicolons; there it turns into the stacked-statements verdict.
   */
  lemma SemicolonsKeepVerdictIff(s: string, b: string)
    requires Span(b, 0, |b|, {';'}) && b != ""
    ensures ValidateSql(s + b) == ValidateSql(s)
       <==> !(OpensWithSelect(s) && SingleStatement(s) && ';' in s && EndsInWhitespace(s))
    ensures ValidateSql(s + b) != ValidateSql(s) ==> ValidateSql(s + b) == Stacked
  {
    SemicolonsKeepOpening(s, b);
    SemicolonsAfterWhitespaceStack(s, b);
    StartsAllowedIsOpensWithSelect(s);
    StartsAllowedIsOpensWithSelect(s + b);
    StackedIsNotSingleStatement(s);
    StackedIsNotSingleStatement(s + b);
    KeywordsAreWords();
    assert IsPadded(s + b, "", s, b);
    PaddingKeepsFound(s + b, "", s, b, BLOCKED_KEYWORDS);
    PaddingKeepsFound(s + b, "", s, b, BLOCKED_SCHEMAS);
  }

  lemma SemicolonsKeepStrippedVerdict(s: string, b: string)
    requires Strip(s) == s && Span(b, 0, |b|, {';'})
    ensures ValidateSql(s + b) == ValidateSql(s)
  {
    var i, e := StripBounds(s, WHITESPACE);
    if b == "" {
      assert s + b == s;
    } else {
      SemicolonsKeepVerdictIff(s, b);
    }
  }

  /** One more semicolon after `SELECT 1; ` makes it a stacked statement. */
  lemma SemicolonAfterSpaceIsStacked()
    ensures ValidateSql("SELECT 1; ") != Stacked
    ensures ValidateSql("SELECT 1; " + ";") == Stacked
  {
    var s := "SELECT 1; ";
    assert OpensWithSelectAt(s, 0, 0);
    assert s[..8] == "SELECT 1";
    assert SingleStatementAt(s, 8, 9);
    VerdictIsFirstFailingGuard(s);
    assert s[8] == ';';
    SemicolonsKeepVerdictIff(s, ";");
  }
}
