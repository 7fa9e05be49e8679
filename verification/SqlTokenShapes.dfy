/** What each kind of token looks like, stated without the scanner's loops, and the test whether
    a cursor lies inside a string or a comment. */
module SqlTokenShapes {
  import opened Common
  import opened SqlScanner
  import opened SqlScannerLaws
  import opened TextCase

  // ---------------------------------------------------------------- strings, one character at a time

  /** A quoted string read strictly left to right, with memory instead of lookahead.
      `AtQuote` has just read a quote that may close the string or be half of a doubled one. */
  datatype QuoteState = Body | Escaped | AtQuote | Closed

  function QuoteStep(q: QuoteState, c: char, quote: char): QuoteState {
    match q
    case Body => if c == '\\' then Escaped else if c == quote then AtQuote else Body
    case Escaped => Body
    case AtQuote => if c == quote then Body else Closed
    case Closed => Closed
  }

  function QuoteRun(text: string, quote: char): QuoteState {
    if text == "" then Body else QuoteStep(QuoteRun(text[..|text| - 1], quote), text[|text| - 1], quote)
  }

  lemma QuoteRunExtend(s: string, start: nat, i: nat, quote: char)
    requires start <= i < |s|
    ensures QuoteRun(s[start..i + 1], quote) == QuoteStep(QuoteRun(s[start..i], quote), s[i], quote)
  {
    assert s[start..i + 1][..i - start] == s[start..i];
  }

  /** A string body from `start` may end at `e`: on a quote that is not half of a doubled one, or because the
      text is over. */
  predicate QuoteStops(s: string, start: nat, e: nat, quote: char)
    requires start <= e <= |s|
  {
    var q := QuoteRun(s[start..e], quote);
    if q == AtQuote then e == |s| || s[e] != quote else q != Closed && e == |s|
  }

  lemma {:induction false} QuoteEndRuns(s: string, start: nat, i: nat, quote: char)
    requires start <= i <= |s| && quote != '\\'
    requires QuoteRun(s[start..i], quote) == Body
    ensures QuoteStops(s, start, QuoteEnd(s, i, quote), quote)
    decreases |s| - i
  {
    if i >= |s| {
    } else {
      QuoteRunExtend(s, start, i, quote);
      if i + 1 < |s| && (s[i] == '\\' || (s[i] == quote && s[i + 1] == quote)) {
        QuoteRunExtend(s, start, i + 1, quote);
        QuoteEndRuns(s, start, i + 2, quote);
      } else if s[i] != quote && s[i] != '\\' {
        QuoteEndRuns(s, start, i + 1, quote);
      }
    }
  }

  lemma {:induction false} ClosedStays(s: string, start: nat, i: nat, j: nat, quote: char)
    requires start <= i <= j <= |s| && QuoteRun(s[start..i], quote) == Closed
    ensures QuoteRun(s[start..j], quote) == Closed
    decreases j - i
  {
    if i >= j {
    } else {
      QuoteRunExtend(s, start, i, quote);
      ClosedStays(s, start, i + 1, j, quote);
    }
  }

  /** There is only one place to stop. */
  lemma QuoteStopsOnce(s: string, start: nat, e: nat, f: nat, quote: char)
    requires start <= e <= f <= |s| && QuoteStops(s, start, e, quote) && QuoteStops(s, start, f, quote)
    ensures e == f
  {
    if e < f {
      QuoteRunExtend(s, start, e, quote);
      ClosedStays(s, start, e + 1, f, quote);
    }
  }

  /** The string was closed by its quote, as opposed to running into the end of the text. */
  predicate Terminated(text: string) {
    text != "" && QuoteRun(text[1..], text[0]) == AtQuote
  }

  predicate BlockClosed(text: string) {
    |text| >= 4 && text[..2] == "/*" && text[|text| - 2..] == "*/"
  }

  // ---------------------------------------------------------------- shapes

  const OPERATORS: set<string> := {">=", "<=", "!=", "<>", "=="}

  lemma OperatorsExactly(two: string)
    ensures IsTwoCharOperator(two) <==> two in OPERATORS
  {
  }

  predicate IsQuote(c: char) {
    c == '\'' || c == '"'
  }

  predicate OpensLine(s: string, b: nat) {
    b + 1 < |s| && s[b] == '-' && s[b + 1] == '-'
  }

  predicate OpensBlock(s: string, b: nat) {
    b + 1 < |s| && s[b] == '/' && s[b + 1] == '*'
  }

  predicate ClosesBlock(s: string, p: nat) {
    p + 1 < |s| && s[p] == '*' && s[p + 1] == '/'
  }

  ghost predicate Digits(s: string, b: nat, e: nat) {
    b < e <= |s| && forall p | b <= p < e :: IsDigit(s[p])
  }

  predicate StopsDigits(s: string, e: nat) {
    e >= |s| || !IsDigit(s[e])
  }

  predicate Fraction(s: string, e: nat) {
    e + 1 < |s| && s[e] == '.' && IsDigit(s[e + 1])
  }

  ghost predicate WordShape(s: string, b: nat, e: nat) {
    && b < e <= |s| && IsWordStart(s[b])
    && (forall p | b <= p < e :: IsWordChar(s[p])) && (e == |s| || !IsWordChar(s[e]))
  }

  /** Digits with no fraction behind them, or digits, a point and digits. */
  ghost predicate NumberShape(s: string, b: nat, e: nat) {
    && b < e <= |s| && StopsDigits(s, e)
    && ((Digits(s, b, e) && !Fraction(s, e)) || exists d :: Decimal(s, b, d, e))
  }

  ghost predicate Decimal(s: string, b: nat, d: nat, e: nat) {
    Digits(s, b, d) && d < |s| && s[d] == '.' && Digits(s, d + 1, e)
  }

  predicate StringShape(s: string, b: nat, e: nat) {
    b < e <= |s| && IsQuote(s[b]) && QuoteStops(s, b + 1, e, s[b])
  }

  ghost predicate LineShape(s: string, b: nat, e: nat) {
    && b + 2 <= e <= |s| && OpensLine(s, b)
    && (forall p | b + 2 <= p < e :: s[p] != '\n') && (e == |s| || s[e] == '\n')
  }

  /** Up to and including the first closing mark, or up to the end of the text if there is none. */
  ghost predicate BlockShape(s: string, b: nat, e: nat) {
    && b + 2 <= e <= |s| && OpensBlock(s, b)
    && (forall p | b + 2 <= p < e - 2 :: !ClosesBlock(s, p))
    && (e == |s| || (b + 4 <= e && ClosesBlock(s, e - 2)))
  }

  /** A single character that starts nothing else, or a two-character operator. */
  predicate SymbolShape(s: string, b: nat, e: nat) {
    && b < e <= |s| && !IsSpace(s[b]) && !IsWordChar(s[b]) && !IsQuote(s[b]) && !OpensLine(s, b) && !OpensBlock(s, b)
    && (e == b + 2 <==> b + 2 <= |s| && s[b..b + 2] in OPERATORS)
    && (e == b + 1 || e == b + 2)
  }

  /** What a token of the kind looks like from `b` to `e`, and why it stops there. */
  ghost predicate Shape(s: string, kind: Kind, b: nat, e: nat) {
    match kind
    case Word => WordShape(s, b, e)
    case Number => NumberShape(s, b, e)
    case String => StringShape(s, b, e)
    case Comment => LineShape(s, b, e) || BlockShape(s, b, e)
    case Symbol => SymbolShape(s, b, e)
  }

  // ---------------------------------------------------------------- tokens have their shape

  lemma {:induction false} LineEndStops(s: string, i: nat)
    requires i <= |s|
    ensures var e := LineEnd(s, i); (forall p | i <= p < e :: s[p] != '\n') && (e == |s| || s[e] == '\n')
    decreases |s| - i
  {
    if i < |s| && s[i] != '\n' { LineEndStops(s, i + 1); }
  }

  lemma {:induction false} BlockEndStops(s: string, i: nat)
    requires i <= |s|
    ensures var e := BlockEnd(s, i);
            && (forall p | i <= p < e - 2 :: !ClosesBlock(s, p))
            && (e == |s| || (i + 2 <= e && ClosesBlock(s, e - 2)))
    decreases |s| - i
  {
    if i < |s| && !ClosesBlock(s, i) { BlockEndStops(s, i + 1); }
  }

  lemma {:induction false} DigitsEndStops(s: string, i: nat)
    requires i <= |s|
    ensures var e := DigitsEnd(s, i); (forall p | i <= p < e :: IsDigit(s[p])) && StopsDigits(s, e)
    decreases |s| - i
  {
    if i < |s| && IsDigit(s[i]) { DigitsEndStops(s, i + 1); }
  }

  lemma {:induction false} WordEndStops(s: string, i: nat)
    requires i <= |s|
    ensures var e := WordEnd(s, i); (forall p | i <= p < e :: IsWordChar(s[p])) && (e == |s| || !IsWordChar(s[e]))
    decreases |s| - i
  {
    if i < |s| && IsWordChar(s[i]) { WordEndStops(s, i + 1); }
  }

  lemma NumberHasShape(s: string, i: nat)
    requires i < |s| && IsDigit(s[i])
    ensures NumberShape(s, i, NumberEnd(s, i + 1))
  {
    var j := DigitsEnd(s, i + 1);
    DigitsEndStops(s, i + 1);
    assert Digits(s, i, j);
    if Fraction(s, j) {
      DigitsEndStops(s, j + 1);
      assert Decimal(s, i, j, DigitsEnd(s, j + 1));
    }
  }

  /** What the scanner finds at a position has the shape of its kind. */
  lemma LexShape(s: string, i: nat)
    requires i < |s| && !IsSpace(s[i])
    ensures Shape(s, Lex(s, i).0, i, Lex(s, i).1)
  {
    var c := s[i];
    if OpensLine(s, i) {
      LineEndStops(s, i + 2);
    } else if OpensBlock(s, i) {
      BlockEndStops(s, i + 2);
    } else if IsQuote(c) {
      QuoteEndRuns(s, i + 1, i + 1, c);
    } else if IsDigit(c) {
      NumberHasShape(s, i);
    } else if IsWordStart(c) {
      WordEndStops(s, i + 1);
    }
  }

  // ---------------------------------------------------------------- shapes have one end

  lemma DigitsEndOnce(s: string, b: nat, e: nat, f: nat)
    requires Digits(s, b, e) && Digits(s, b, f) && StopsDigits(s, e) && StopsDigits(s, f)
    ensures e == f
  {
  }

  lemma NumberOnce(s: string, b: nat, e: nat, f: nat)
    requires NumberShape(s, b, e) && NumberShape(s, b, f)
    ensures e == f
  {
    if d: nat :| Decimal(s, b, d, e) {
      if c: nat :| Decimal(s, b, c, f) {
        DigitsEndOnce(s, b, d, c);
        DigitsEndOnce(s, d + 1, e, f);
      } else {
        DigitsEndOnce(s, b, d, f);
      }
    } else if c: nat :| Decimal(s, b, c, f) {
      DigitsEndOnce(s, b, e, c);
    } else {
      DigitsEndOnce(s, b, e, f);
    }
  }

  lemma StringOnce(s: string, b: nat, e: nat, f: nat)
    requires StringShape(s, b, e) && StringShape(s, b, f)
    ensures e == f
  {
    if e <= f { QuoteStopsOnce(s, b + 1, e, f, s[b]); } else { QuoteStopsOnce(s, b + 1, f, e, s[b]); }
  }

  lemma BlockOnce(s: string, b: nat, e: nat, f: nat)
    requires BlockShape(s, b, e) && BlockShape(s, b, f) && e <= f
    ensures e == f
  {
  }

  lemma ShapeOnce(s: string, kind: Kind, b: nat, e: nat, f: nat)
    requires Shape(s, kind, b, e) && Shape(s, kind, b, f)
    ensures e == f
  {
    match kind
    case Word =>
    case Number => NumberOnce(s, b, e, f);
    case String => StringOnce(s, b, e, f);
    case Comment =>
      if OpensBlock(s, b) {
        if e <= f { BlockOnce(s, b, e, f); } else { BlockOnce(s, b, f, e); }
      }
    case Symbol =>
  }

  /** The first characters decide the kind. */
  lemma ShapeKind(s: string, kind: Kind, b: nat, e: nat)
    requires b < |s| && !IsSpace(s[b]) && Shape(s, kind, b, e)
    ensures Lex(s, b).0 == kind
  {
    if kind == Number && !Digits(s, b, e) {
      var d: nat :| Decimal(s, b, d, e);
      assert Digits(s, b, d);
    }
  }

  /** A stretch of the text is what the scanner finds at its start if and only if it has the shape of its kind. */
  lemma ShapeExactly(s: string, kind: Kind, b: nat, e: nat)
    requires b < |s| && !IsSpace(s[b])
    ensures Shape(s, kind, b, e) <==> Lex(s, b) == (kind, e)
  {
    LexShape(s, b);
    if Shape(s, kind, b, e) {
      ShapeKind(s, kind, b, e);
      ShapeOnce(s, kind, b, e, Lex(s, b).1);
    }
  }

  /** Every token has the shape of its kind. */
  lemma TokenShapes(s: string, t: Token)
    requires t in Scan(s)
    ensures t.begin < t.end <= |s| && t.text == s[t.begin..t.end]
    ensures Shape(s, t.kind, t.begin, t.end)
  {
    TokensAreLexed(s, 0, t);
    LexShape(s, t.begin);
  }

  /** A token that carries its own slice is the one the scanner makes there if and only if it has the shape. */
  lemma TokenExactly(s: string, t: Token)
    requires t.begin < t.end <= |s| && t.text == s[t.begin..t.end] && !IsSpace(s[t.begin])
    ensures Shape(s, t.kind, t.begin, t.end) <==> t == TokenAt(s, t.begin)
  {
    ShapeExactly(s, t.kind, t.begin, t.end);
  }

  // ---------------------------------------------------------------- cursor in a string or comment

  /** The cursor is inside the token, or at the end of one that still swallows what is typed there: an unterminated
      string, an unclosed block comment, or a line comment. */
  ghost predicate Holds(t: Token, cursor: nat) {
    && (t.kind.String? || t.kind.Comment?)
    && t.begin < cursor
    && (cursor < t.end || (cursor == t.end && !(if t.kind.String? then Terminated(t.text) else BlockClosed(t.text))))
  }

  /** The cursor is right behind a closed block comment. */
  predicate BehindBlock(t: Token, cursor: nat) {
    t.kind.Comment? && BlockClosed(t.text) && cursor == t.end
  }

  ghost predicate InOpenText(s: string, cursor: nat) {
    exists t :: t in Scan(s) && Holds(t, cursor)
  }

  /** The text ends in an unterminated string whose last character, escaped or doubled,
      happens to be its own quote. */
  predicate EndsInFalseQuote(s: string) {
    var tokens := Scan(s);
    && tokens != []
    && var t := tokens[|tokens| - 1];
      && t.kind.String? && t.end == |s| && !Terminated(t.text)
      && |t.text| >= 2 && t.text[0] == t.text[|t.text| - 1]
  }

  /** The test of one token: closed strings are recognised by their first and last characters only. */
  predicate Judges(t: Token, cursor: nat) {
    && (t.kind.String? || t.kind.Comment?)
    && var closed := if t.kind.String? then |t.text| >= 2 && t.text[0] == t.text[|t.text| - 1] else BlockClosed(t.text);
      || (t.begin < cursor && (if closed then cursor < t.end else cursor <= t.end))
      || (t.kind.Comment? && cursor == t.end && t.begin < cursor)
  }

  lemma LastAtEnd(s: string, t: Token)
    requires t in Scan(s)
    ensures t.begin < t.end <= |s|
    ensures t.end == |s| ==> t == Scan(s)[|Scan(s)| - 1]
  {
    Lossless(s);
    var tokens := Scan(s);
    var k :| 0 <= k < |tokens| && tokens[k] == t;
    if k < |tokens| - 1 { assert tokens[k].end <= tokens[k + 1].begin; }
  }

  lemma TerminatedEndsInQuote(text: string)
    requires Terminated(text)
    ensures |text| >= 2 && text[0] == text[|text| - 1]
  {
    var body := text[1..];
    assert body[|body| - 1] == text[|text| - 1];
  }

  lemma JudgesExactly(s: string, t: Token, cursor: nat)
    requires t in Scan(s) && cursor <= |s|
    ensures Judges(t, cursor) <==>
            (Holds(t, cursor) && !(t.end == cursor == |s| && EndsInFalseQuote(s))) || BehindBlock(t, cursor)
  {
    LastAtEnd(s, t);
    assert t.kind.String? && !Terminated(t.text) ==> t.end == |s| by {
      TokenShapes(s, t);
      assert t.text[1..] == s[t.begin + 1..t.end];
    }
    if t.kind.String? && Terminated(t.text) { TerminatedEndsInQuote(t.text); }
  }

  /** True exactly when the cursor, clamped to the text, is in a string or a comment, with two exceptions: at the
      end of a text whose last string only looks closed it is false, and right behind a closed block comment true. */
  method CursorInStringOrComment(sql: string, cursor: nat) returns (inside: bool)
    ensures var at := Min(cursor, |sql|);
            inside <==>
            || (InOpenText(sql, at) && !(at == |sql| && EndsInFalseQuote(sql)))
            || exists t :: t in Scan(sql) && BehindBlock(t, at)
  {
    var at := Min(cursor, |sql|);
    var tokens := ScanSqlText(sql);
    Lossless(sql);
    forall t | t in tokens
      ensures Judges(t, at) <==>
              (Holds(t, at) && !(t.end == at == |sql| && EndsInFalseQuote(sql))) || BehindBlock(t, at)
    {
      JudgesExactly(sql, t, at);
    }
    for k := 0 to |tokens|
      invariant forall j | 0 <= j < k :: !Judges(tokens[j], at)
    {
      if Judges(tokens[k], at) {
        assert Holds(tokens[k], at) || BehindBlock(tokens[k], at);
        return true;
      }
    }
    return false;
  }

  /** Behind a closed block comment the cursor is in no string and no comment, so the answer there is wrong. */
  lemma BehindIsOutside(s: string, t: Token, cursor: nat)
    requires t in Scan(s) && BehindBlock(t, cursor)
    ensures !InOpenText(s, cursor)
  {
    Lossless(s);
    var tokens := Scan(s);
    var k :| 0 <= k < |tokens| && tokens[k] == t;
    forall u | u in tokens ensures !Holds(u, cursor) {
      var j :| 0 <= j < |tokens| && tokens[j] == u;
      if j < k { Ordered(s, j, k); } else if k < j { Ordered(s, k, j); }
    }
  }

  lemma Ordered(s: string, j: nat, k: nat)
    requires j < k < |Scan(s)|
    ensures Scan(s)[j].end <= Scan(s)[k].begin < Scan(s)[k].end
    decreases k - j
  {
    Lossless(s);
    if j + 1 < k { Ordered(s, j + 1, k); }
  }

  /** Such a text exists, too. */
  lemma BehindBlockExample()
    ensures exists t :: t in Scan("/*a*/") && BehindBlock(t, 5)
    ensures !InOpenText("/*a*/", 5)
  {
    var s := "/*a*/";
    assert s == ['/', '*', 'a', '*', '/'];
    assert BlockEnd(s, 2) == BlockEnd(s, 3) == 5;
    var t := TokenAt(s, 0);
    assert Scan(s) == [t] + ScanFrom(s, 5) == [t];
    assert t in Scan(s) && BehindBlock(t, 5);
    BehindIsOutside(s, t, 5);
  }

  /** A text with a false closing quote exists: in 'a\' the last quote is escaped, so the cursor at the end is inside
      the string, and the test says it is not. */
  lemma FalseQuoteExample()
    ensures InOpenText("'a\\'", 4) && EndsInFalseQuote("'a\\'")
  {
    var s := "'a\\'";
    assert s == ['\'', 'a', '\\', '\''];
    assert QuoteEnd(s, 1, '\'') == QuoteEnd(s, 2, '\'') == QuoteEnd(s, 4, '\'') == 4;
    var t := TokenAt(s, 0);
    assert Scan(s) == [t] + ScanFrom(s, 4) == [t];
    assert t.text[1..] == s[1..];
    QuoteRunExtend(s, 1, 1, '\'');
    QuoteRunExtend(s, 1, 2, '\'');
    QuoteRunExtend(s, 1, 3, '\'');
    assert Holds(t, 4);
  }
}
