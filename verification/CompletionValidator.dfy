/** The gate that model output passes before it may be shown as a completion.

    The parser, the catalog and the dialect filter are parameters of the context:
    everything below holds for any parser, any catalog and any list of forbidden words. */
module CompletionValidator {
  import opened SqlScanner
  import opened SqlScannerLaws
  import opened SqlTokenShapes
  import opened TextCase
  import opened Trimming

  const MAX_MODEL_CHARS: nat := 256

  datatype Context = Context(
    statementPrefix: string,
    hasDb: bool,
    hasTable: string -> bool,
    hasField: (string, string) -> bool,
    parses: string -> bool,
    isForbidden: string -> bool)

  datatype Reason = None | EmptyAfterCleaning | BlockedByDialectFilter
    | FailedParserValidation | FailedCatalogValidation

  datatype ValidationResult = ValidationResult(accepted: bool, text: string, reason: Reason)

  // ---------------------------------------------------------------- the two checks

  predicate Qualified(tokens: seq<Token>, i: nat) {
    && i + 2 < |tokens|
    && tokens[i].kind.Word? && tokens[i + 1].kind.Symbol? && tokens[i + 1].text == "." && tokens[i + 2].kind.Word?
  }

  /** Every table.column of the text names a column that exists; nothing is checked without a database. */
  ghost predicate CatalogValid(ctx: Context, text: string) {
    var tokens := Scan(text);
    ctx.hasDb ==>
      forall i: nat | Qualified(tokens, i) ::
        ctx.hasTable(tokens[i].text) && ctx.hasField(tokens[i].text, tokens[i + 2].text)
  }

  method CatalogIdentifiersValid(ctx: Context, text: string) returns (valid: bool)
    ensures valid <==> CatalogValid(ctx, text)
  {
    if !ctx.hasDb {
      return true;
    }
    var tokens := ScanSqlText(text);
    var i := 0;
    while i + 2 < |tokens|
      invariant forall j: nat | j < i && Qualified(tokens, j) ::
                  ctx.hasTable(tokens[j].text) && ctx.hasField(tokens[j].text, tokens[j + 2].text)
    {
      if Qualified(tokens, i) {
        if !ctx.hasTable(tokens[i].text) {
          return false;
        }
        if !ctx.hasField(tokens[i].text, tokens[i + 2].text) {
          return false;
        }
      }
      i := i + 1;
    }
    return true;
  }

  /** Three tokens are table.column exactly when the first and the third start like a word and the second is a dot. */
  lemma QualifiedExactly(text: string, i: nat)
    requires i + 2 < |Scan(text)|
    ensures var a, b, c := Scan(text)[i], Scan(text)[i + 1], Scan(text)[i + 2];
            && a.begin < |text| && b.begin < |text| && c.begin < |text|
            && (Qualified(Scan(text), i) <==>
                IsWordStart(text[a.begin]) && text[b.begin] == '.' && IsWordStart(text[c.begin]))
  {
    KindByFirst(text, Scan(text)[i]);
    KindByFirst(text, Scan(text)[i + 1]);
    KindByFirst(text, Scan(text)[i + 2]);
  }

  lemma KindByFirst(text: string, t: Token)
    requires t in Scan(text)
    ensures t.begin < |text| && (t.kind.Word? <==> IsWordStart(text[t.begin]))
    ensures t.kind.Symbol? && t.text == "." <==> text[t.begin] == '.'
  {
    TokensAreLexed(text, 0, t);
    if t.text == "." { assert t.text[0] == text[t.begin]; }
    if text[t.begin] == '.' { DotAt(text, t.begin); }
  }

  lemma DotAt(s: string, b: nat)
    requires b < |s| && s[b] == '.'
    ensures !IsSpace(s[b]) && TokenAt(s, b) == Token(Symbol, ".", b, b + 1)
  {
    if b + 2 <= |s| { assert s[b..b + 2][0] == '.'; }
  }

  /** A word: a letter or underscore, then letters, digits and underscores. */
  predicate IsName(w: string) {
    w != "" && IsWordStart(w[0]) && forall k | 0 <= k < |w| :: IsWordChar(w[k])
  }

  lemma NameAt(s: string, b: nat, w: string)
    requires IsName(w) && b + |w| <= |s| && s[b..b + |w|] == w && (b + |w| < |s| ==> !IsWordChar(s[b + |w|]))
    ensures !IsSpace(s[b]) && TokenAt(s, b) == Token(Word, w, b, b + |w|)
  {
    forall k | b <= k < b + |w| ensures IsWordChar(s[k]) { assert s[k] == w[k - b]; }
    assert s[b] == w[0];
    ShapeExactly(s, Word, b, b + |w|);
  }

  /** A dotted pair of names passes exactly when there is no database to ask or it has the table with the column. */
  lemma PairExactly(ctx: Context, table: string, column: string)
    requires IsName(table) && IsName(column)
    ensures CatalogValid(ctx, table + "." + column) <==>
            !ctx.hasDb || (ctx.hasTable(table) && ctx.hasField(table, column))
  {
    var s, n := table + "." + column, |table|;
    PairTokens(table, column, s);
    var tokens := Scan(s);
    assert tokens[0].text == table && tokens[2].text == column && Qualified(tokens, 0);
    forall i: nat | Qualified(tokens, i) ensures i == 0 {}
  }

  lemma ScanOne(s: string, b: nat, t: Token)
    requires b < |s| && !IsSpace(s[b]) && t == TokenAt(s, b)
    ensures ScanFrom(s, b) == [t] + ScanFrom(s, t.end)
  {
  }

  lemma PairTokens(table: string, column: string, s: string)
    requires IsName(table) && IsName(column) && s == table + "." + column
    ensures var n := |table|;
            Scan(s) == [Token(Word, table, 0, n), Token(Symbol, ".", n, n + 1), Token(Word, column, n + 1, |s|)]
  {
    var n := |table|;
    assert s[n] == '.' && s[0..n] == table && s[n + 1..|s|] == column;
    NameAt(s, 0, table);
    DotAt(s, n);
    NameAt(s, n + 1, column);
    ScanThree(s, TokenAt(s, 0), TokenAt(s, n), TokenAt(s, n + 1));
  }

  lemma ScanThree(s: string, a: Token, b: Token, c: Token)
    requires 0 < |s| && !IsSpace(s[0]) && a == TokenAt(s, 0)
    requires a.end < |s| && !IsSpace(s[a.end]) && b == TokenAt(s, a.end)
    requires b.end < |s| && !IsSpace(s[b.end]) && c == TokenAt(s, b.end) && c.end == |s|
    ensures Scan(s) == [a, b, c]
  {
    ScanOne(s, 0, a);
    ScanOne(s, a.end, b);
    ScanOne(s, b.end, c);
    assert [a] + ([b] + ([c] + [])) == [a, b, c];
  }

  ghost predicate Passes(ctx: Context, text: string) {
    ctx.parses(ctx.statementPrefix + text) && CatalogValid(ctx, text)
  }

  // ---------------------------------------------------------------- prefixes that end at a token

  /** The text up to the end of its k-th token, trimmed. */
  function Candidate(text: string, k: nat): string
    requires 0 < k <= |Scan(text)| && Scan(text)[k - 1].end <= |text|
  {
    Trim(text[..Scan(text)[k - 1].end])
  }

  ghost predicate IsCandidate(text: string, r: string) {
    exists k :: 0 < k <= |Scan(text)| && Scan(text)[k - 1].end <= |text| && Candidate(text, k) == r
  }

  ghost predicate LongestPassing(ctx: Context, text: string, r: string) {
    && IsCandidate(text, r) && Passes(ctx, r)
    && forall other | IsCandidate(text, other) && Passes(ctx, other) :: |other| <= |r|
  }

  ghost predicate NonePasses(ctx: Context, text: string) {
    forall other | IsCandidate(text, other) :: !Passes(ctx, other)
  }

  lemma SkipSpacesInPrefix(text: string, e: nat, f: nat, i: nat)
    requires i <= e <= f <= |text|
    ensures SkipSpaces(text[..e], i) <= SkipSpaces(text[..f], i)
    ensures SkipSpaces(text[..f], i) < e ==> SkipSpaces(text[..e], i) == SkipSpaces(text[..f], i)
    decreases e - i
  {
    if i < e && IsSpace(text[i]) { SkipSpacesInPrefix(text, e, f, i + 1); }
  }

  /** A candidate is never empty, and more tokens make a longer candidate. */
  lemma CandidatesGrow(text: string, j: nat, k: nat)
    requires 0 < j <= k <= |Scan(text)|
    ensures Scan(text)[j - 1].end <= |text| && Scan(text)[k - 1].end <= |text|
    ensures Candidate(text, j) != ""
    ensures j < k ==> |Candidate(text, j)| < |Candidate(text, k)|
  {
    Lossless(text);
    var tokens := Scan(text);
    var s, t := tokens[j - 1], tokens[k - 1];
    assert s in tokens && t in tokens;
    TokensAreLexed(text, 0, s);
    TokensAreLexed(text, 0, t);
    var p, q := text[..s.end], text[..t.end];
    var b, e := TrimIsCore(p);
    var c, f := TrimIsCore(q);
    OutsideCore(p, b, e);
    OutsideCore(q, c, f);
    assert !IsSpace(p[s.begin]) && !IsSpace(q[t.begin]) && !IsSpace(q[s.begin]);
    if j < k {
      SkipSpacesInPrefix(text, s.end, t.end, 0);
    }
  }

  /** Counting down over the tokens: the first candidate that passes both checks is the longest. */
  method LongestValidPrefix(ctx: Context, text: string) returns (r: string)
    ensures if r == "" then NonePasses(ctx, text) else LongestPassing(ctx, text, r)
  {
    var tokens := ScanSqlText(text);
    Lossless(text);
    var count: nat := |tokens|;
    while count > 0
      invariant count <= |tokens|
      invariant forall k: nat | count < k <= |tokens| :: tokens[k - 1].end <= |text| && !Passes(ctx, Candidate(text, k))
    {
      var candidate := TrimText(text[..tokens[count - 1].end]);
      CandidatesGrow(text, count, count);
      if candidate == "" {
        break;
      }
      if ctx.parses(ctx.statementPrefix + candidate) {
        var valid := CatalogIdentifiersValid(ctx, candidate);
        if valid {
          forall k | 0 < k < count ensures |Candidate(text, k)| <= |candidate| {
            CandidatesGrow(text, k, count);
          }
          assert candidate == Candidate(text, count);
          return candidate;
        }
      }
      count := count - 1;
    }
    return "";
  }

  // ---------------------------------------------------------------- words survive trimming

  ghost predicate Clean(ctx: Context, text: string) {
    forall t | t in Scan(text) && t.kind.Word? :: !ctx.isForbidden(ToUpper(t.text))
  }

  lemma CutKeepsClean(ctx: Context, text: string, e: nat)
    requires Clean(ctx, text) && e <= |text| && (e == |text| || IsSpace(text[e]))
    ensures Clean(ctx, text[..e])
  {
    CutAtSpace(text, e);
  }

  lemma BlankIsBoundary(text: string, b: nat)
    requires b <= |text| && forall p | 0 <= p < b :: IsSpace(text[p])
    ensures BetweenTokens(text, b)
  {
    forall t | t in Scan(text) ensures b <= t.begin {
      TokensAreLexed(text, 0, t);
    }
  }

  lemma DropKeepsClean(ctx: Context, text: string, b: nat)
    requires Clean(ctx, text) && BetweenTokens(text, b)
    ensures Clean(ctx, text[b..])
  {
    SplitAtBoundary(text, b);
    var inner := Scan(text[b..]);
    forall t | t in inner && t.kind.Word? ensures !ctx.isForbidden(ToUpper(t.text)) {
      var k :| 0 <= k < |inner| && inner[k] == t;
      assert ShiftAll(inner, b)[k] in Scan(text);
    }
  }

  lemma TrimKeepsClean(ctx: Context, text: string)
    requires Clean(ctx, text)
    ensures Clean(ctx, Trim(text))
  {
    var b, e := TrimIsCore(text);
    OutsideCore(text, b, e);
    CutKeepsClean(ctx, text, e);
    BlankIsBoundary(text[..e], b);
    DropKeepsClean(ctx, text[..e], b);
    assert text[..e][b..] == text[b..e];
  }

  lemma CandidateKeepsClean(ctx: Context, text: string, r: string)
    requires Clean(ctx, text) && IsCandidate(text, r)
    ensures Clean(ctx, r)
  {
    var k :| 0 < k <= |Scan(text)| && Scan(text)[k - 1].end <= |text| && Candidate(text, k) == r;
    var t := Scan(text)[k - 1];
    TokenEdges(text, t);
    PrefixStable(text, t.end);
    TrimKeepsClean(ctx, text[..t.end]);
  }

  /** `r` is a contiguous part of `text`. */
  ghost predicate Part(text: string, r: string) {
    exists b, e :: 0 <= b <= e <= |text| && r == text[b..e]
  }

  lemma TrimmedPrefixIsPart(text: string, c: nat)
    requires c <= |text|
    ensures Part(text, Trim(text[..c]))
  {
    var b, e := TrimIsCore(text[..c]);
    assert Trim(text[..c]) == text[b..e];
  }

  lemma PartKeepsBounds(text: string, r: string)
    requires Part(text, r)
    ensures |r| <= |text|
    ensures ';' !in text ==> ';' !in r
  {
  }

  // ---------------------------------------------------------------- the filter in front of the checks

  function FindSemicolon(text: string, i: nat): (p: nat)
    requires i <= |text|
    ensures i <= p <= |text|
    decreases |text| - i
  {
    if i < |text| && text[i] != ';' then FindSemicolon(text, i + 1) else i
  }

  lemma {:induction false} FindSemicolonFirst(text: string, i: nat)
    requires i <= |text|
    ensures var p := FindSemicolon(text, i); ';' !in text[i..p] && (p < |text| ==> text[p] == ';')
    decreases |text| - i
  {
    if i < |text| && text[i] != ';' { FindSemicolonFirst(text, i + 1); }
  }

  /** `first` is the longest prefix of at most 256 characters and without a semicolon. */
  ghost predicate IsFirstPart(cleaned: string, first: string) {
    && first <= cleaned && |first| <= 256 && ';' !in first
    && forall p: string | p <= cleaned && |p| <= 256 && ';' !in p :: p <= first
  }

  lemma LongerHas(cleaned: string, p: string, n: nat)
    requires p <= cleaned
    ensures |p| > n ==> n < |cleaned| && cleaned[n] in p
  {
    if |p| > n { assert p[n] == cleaned[n]; }
  }

  /** There is only one such prefix: it ends at the end of the text, at 256 characters, or in front of a semicolon. */
  lemma FirstPartExactly(cleaned: string, first: string)
    ensures IsFirstPart(cleaned, first) <==>
            && first <= cleaned && |first| <= 256 && ';' !in first
            && (|first| == |cleaned| || |first| == 256 || cleaned[|first|] == ';')
  {
    if first <= cleaned && |first| <= 256 && ';' !in first {
      var n := |first|;
      if n < |cleaned| && n < 256 && cleaned[n] != ';' {
        var longer := cleaned[..n + 1];
        assert longer == first + [cleaned[n]];
        assert longer <= cleaned && ';' !in longer && !(longer <= first);
      } else {
        forall p: string | p <= cleaned && |p| <= 256 && ';' !in p ensures p <= first {
          LongerHas(cleaned, p, n);
        }
      }
    }
  }

  /** Truncation, then the cut at the first semicolon. */
  method CutFirstPart(cleaned: string) returns (first: string)
    ensures IsFirstPart(cleaned, first)
  {
    first := cleaned;
    if |first| > MAX_MODEL_CHARS {
      first := first[..MAX_MODEL_CHARS];
    }
    ghost var short := first;
    FindSemicolonFirst(short, 0);
    first := first[..FindSemicolon(first, 0)];
    assert first == short[0..|first|];
    FirstPartExactly(cleaned, first);
  }

  predicate ForbiddenToken(ctx: Context, t: Token) {
    t.kind.Word? && ctx.isForbidden(ToUpper(t.text))
  }

  /** `r` is the text cut, and trimmed, in front of its first forbidden word, if it has one. */
  ghost predicate Filtered(ctx: Context, text: string, r: string) {
    var tokens := Scan(text);
    || (r == text && forall t | t in tokens :: !ForbiddenToken(ctx, t))
    || exists k :: 0 <= k < |tokens| && ForbiddenToken(ctx, tokens[k]) && tokens[k].begin <= |text|
                   && r == Trim(text[..tokens[k].begin]) && forall j | 0 <= j < k :: !ForbiddenToken(ctx, tokens[j])
  }

  lemma TokensInOrder(text: string, j: nat, k: nat)
    requires j <= k < |Scan(text)|
    ensures var s, t := Scan(text)[j], Scan(text)[k];
            s.begin < s.end <= |text| && t.begin < t.end <= |text| && (j < k ==> s.end <= t.begin)
  {
    Lossless(text);
  }

  /** In front of the first forbidden word there is none. */
  lemma PrefixIsClean(ctx: Context, text: string, k: nat)
    requires k < |Scan(text)| && Scan(text)[k].begin <= |text|
    requires forall j | 0 <= j < k :: !ForbiddenToken(ctx, Scan(text)[j])
    ensures Clean(ctx, text[..Scan(text)[k].begin])
  {
    var tokens := Scan(text);
    var c := tokens[k].begin;
    TokenEdges(text, tokens[k]);
    PrefixStable(text, c);
    forall t | t in Scan(text[..c]) && t.kind.Word? ensures !ctx.isForbidden(ToUpper(t.text)) {
      var j :| 0 <= j < |tokens| && tokens[j] == t;
      if k <= j { TokensInOrder(text, k, j); }
      assert !ForbiddenToken(ctx, tokens[j]);
    }
  }

  lemma FilteredIsClean(ctx: Context, text: string, r: string)
    requires Filtered(ctx, text, r)
    ensures Clean(ctx, r) && Part(text, r)
  {
    var tokens := Scan(text);
    if r == text && forall t | t in tokens :: !ForbiddenToken(ctx, t) {
      assert r == text[0..|text|];
    } else {
      var k :| 0 <= k < |tokens| && ForbiddenToken(ctx, tokens[k]) && tokens[k].begin <= |text|
               && r == Trim(text[..tokens[k].begin]) && forall j | 0 <= j < k :: !ForbiddenToken(ctx, tokens[j]);
      PrefixIsClean(ctx, text, k);
      TrimKeepsClean(ctx, text[..tokens[k].begin]);
      TrimmedPrefixIsPart(text, tokens[k].begin);
    }
  }

  method DialectFilter(ctx: Context, text: string) returns (r: string)
    ensures Filtered(ctx, text, r)
  {
    var tokens := ScanSqlText(text);
    Lossless(text);
    for k := 0 to |tokens|
      invariant forall j | 0 <= j < k :: !ForbiddenToken(ctx, tokens[j])
    {
      if ForbiddenToken(ctx, tokens[k]) {
        r := TrimText(text[..tokens[k].begin]);
        return;
      }
    }
    r := text;
  }

  lemma FirstStatementBounds(cleaned: string, first: string)
    requires IsFirstPart(cleaned, first)
    ensures |Trim(first)| <= 256 && ';' !in Trim(first) && Trim(Trim(first)) == Trim(first)
  {
    TrimmedPrefixIsPart(first, |first|);
    assert first[..|first|] == first;
    PartKeepsBounds(first, Trim(first));
    TrimTwice(first);
  }

  /** The last token of a trimmed text reaches its end. */
  lemma LastTokenEnds(text: string)
    requires text != "" && !IsSpace(text[|text| - 1])
    ensures var tokens := Scan(text); tokens != [] && tokens[|tokens| - 1].end == |text|
  {
    var tokens := Scan(text);
    assert Inside(tokens, |text| - 1) by { Lossless(text); }
    var k :| 0 <= k < |tokens| && tokens[k].begin <= |text| - 1 < tokens[k].end;
    TokensInOrder(text, k, |tokens| - 1);
  }

  /** A trimmed text is its own longest candidate. */
  lemma WholeIsCandidate(text: string)
    requires text != "" && Trim(text) == text
    ensures IsCandidate(text, text)
    ensures forall other | IsCandidate(text, other) :: |other| <= |text|
  {
    var b, e := TrimIsCore(text);
    assert b == 0 && e == |text|;
    LastTokenEnds(text);
    var n := |Scan(text)|;
    assert text[..|text|] == text;
    assert Candidate(text, n) == text;
    forall other | IsCandidate(text, other) ensures |other| <= |text| {
      var j :| 0 < j <= n && Scan(text)[j - 1].end <= |text| && Candidate(text, j) == other;
      CandidatesGrow(text, j, n);
    }
  }

  // ---------------------------------------------------------------- validate

  /** What a user may be shown. */
  ghost predicate Safe(ctx: Context, text: string) {
    && text != "" && |text| <= 256 && ';' !in text
    && Clean(ctx, text) && Passes(ctx, text)
  }

  /** Accepts exactly when some token-boundary prefix of the filtered text passes both checks, and
      then returns the longest one; what it returns is always safe. */
  method Validate(ctx: Context, cleaned: string)
      returns (result: ValidationResult, ghost first: string, ghost filtered: string)
    ensures result.reason == EmptyAfterCleaning <==> cleaned == ""
    ensures cleaned != "" ==> IsFirstPart(cleaned, first) && Filtered(ctx, Trim(first), filtered)
    ensures cleaned != "" ==> (result.reason == BlockedByDialectFilter <==> filtered == "")
    ensures result.accepted <==> result.reason == None
    ensures result.accepted ==> Safe(ctx, result.text) && LongestPassing(ctx, filtered, result.text)
    ensures result.reason == FailedParserValidation ==>
              !ctx.parses(ctx.statementPrefix + filtered) && NonePasses(ctx, filtered)
    ensures result.reason == FailedCatalogValidation ==>
              ctx.parses(ctx.statementPrefix + filtered) && NonePasses(ctx, filtered)
  {
    first, filtered := "", "";
    if cleaned == "" {
      return ValidationResult(false, "", EmptyAfterCleaning), first, filtered;
    }
    var text := CutFirstPart(cleaned);
    first := text;
    text := TrimText(text);
    FirstStatementBounds(cleaned, first);
    text := DialectFilter(ctx, text);
    filtered := text;
    FilteredIsClean(ctx, Trim(first), filtered);
    PartKeepsBounds(Trim(first), filtered);
    if text == "" {
      return ValidationResult(false, "", BlockedByDialectFilter), first, filtered;
    }
    FilteredIsTrimmed(ctx, Trim(first), filtered);
    WholeIsCandidate(filtered);

    if !ctx.parses(ctx.statementPrefix + text) {
      text := LongestValidPrefix(ctx, text);
      if text == "" {
        return ValidationResult(false, "", FailedParserValidation), first, filtered;
      }
    }
    var valid := CatalogIdentifiersValid(ctx, text);
    if !valid {
      text := LongestValidPrefix(ctx, text);
      if text == "" {
        return ValidationResult(false, "", FailedCatalogValidation), first, filtered;
      }
    }
    CandidateIsSafe(ctx, filtered, text);
    return ValidationResult(true, text, None), first, filtered;
  }

  lemma FilteredIsTrimmed(ctx: Context, text: string, r: string)
    requires Filtered(ctx, text, r) && Trim(text) == text
    ensures Trim(r) == r
  {
    if r != text {
      var tokens := Scan(text);
      var k :| 0 <= k < |tokens| && ForbiddenToken(ctx, tokens[k]) && tokens[k].begin <= |text|
               && r == Trim(text[..tokens[k].begin]) && forall j | 0 <= j < k :: !ForbiddenToken(ctx, tokens[j]);
      TrimTwice(text[..tokens[k].begin]);
    }
  }

  lemma CandidateIsSafe(ctx: Context, text: string, r: string)
    requires Clean(ctx, text) && |text| <= MAX_MODEL_CHARS && ';' !in text
    requires LongestPassing(ctx, text, r)
    ensures Safe(ctx, r)
  {
    CandidateKeepsClean(ctx, text, r);
    var k :| 0 < k <= |Scan(text)| && Scan(text)[k - 1].end <= |text| && Candidate(text, k) == r;
    CandidatesGrow(text, k, k);
    TrimmedPrefixIsPart(text, Scan(text)[k - 1].end);
    PartKeepsBounds(text, r);
  }
}
