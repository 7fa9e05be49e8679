/** The text scanner of the SQL completion engine: a hand-written lexer that cuts a buffer
    into words, numbers, strings, symbols and comments.

    The later stages scan pieces of text that has already been scanned, so what matters is
    that scanning is stable at token boundaries: `SplitAtBoundary` and `SliceScansAlone`
    state that in full, and `CutAtSpace` covers the cuts that `trim` makes. */
module SqlScanner {
  import opened TextCase

  datatype Kind = Word | Number | String | Symbol | Comment

  datatype Token = Token(kind: Kind, text: string, begin: nat, end: nat)

  predicate IsTwoCharOperator(two: string) {
    two == ">=" || two == "<=" || two == "!=" || two == "<>" || two == "=="
  }

  // ---------------------------------------------------------------- where a lexeme ends

  function LineEnd(s: string, i: nat): (e: nat)
    requires i <= |s|
    ensures i <= e <= |s|
    decreases |s| - i
  {
    if i == |s| || s[i] == '\n' then i else LineEnd(s, i + 1)
  }

  function BlockEnd(s: string, i: nat): (e: nat)
    requires i <= |s|
    ensures i <= e <= |s|
    decreases |s| - i
  {
    if i == |s| then i
    else if s[i] == '*' && i + 1 < |s| && s[i + 1] == '/' then i + 2
    else BlockEnd(s, i + 1)
  }

  function QuoteEnd(s: string, i: nat, quote: char): (e: nat)
    requires i <= |s|
    ensures i <= e <= |s|
    decreases |s| - i
  {
    if i == |s| then i
    else if s[i] == '\\' && i + 1 < |s| then QuoteEnd(s, i + 2, quote)
    else if s[i] == quote then
      if i + 1 < |s| && s[i + 1] == quote then QuoteEnd(s, i + 2, quote) else i + 1
    else QuoteEnd(s, i + 1, quote)
  }

  function DigitsEnd(s: string, i: nat): (e: nat)
    requires i <= |s|
    ensures i <= e <= |s|
    decreases |s| - i
  {
    if i == |s| || !IsDigit(s[i]) then i else DigitsEnd(s, i + 1)
  }

  function NumberEnd(s: string, i: nat): (e: nat)
    requires i <= |s|
    ensures i <= e <= |s|
  {
    var j := DigitsEnd(s, i);
    if j + 1 < |s| && s[j] == '.' && IsDigit(s[j + 1]) then DigitsEnd(s, j + 1) else j
  }

  function WordEnd(s: string, i: nat): (e: nat)
    requires i <= |s|
    ensures i <= e <= |s|
    decreases |s| - i
  {
    if i == |s| || !IsWordChar(s[i]) then i else WordEnd(s, i + 1)
  }

  /** The lexeme that starts at `i`: its kind and the offset just past it. */
  function Lex(s: string, i: nat): (r: (Kind, nat))
    requires i < |s|
    requires !IsSpace(s[i])
    ensures i < r.1 <= |s|
  {
    var c := s[i];
    if c == '-' && i + 1 < |s| && s[i + 1] == '-' then (Comment, LineEnd(s, i + 2))
    else if c == '/' && i + 1 < |s| && s[i + 1] == '*' then (Comment, BlockEnd(s, i + 2))
    else if c == '\'' || c == '"' then (String, QuoteEnd(s, i + 1, c))
    else if IsDigit(c) then (Number, NumberEnd(s, i + 1))
    else if IsWordStart(c) then (Word, WordEnd(s, i + 1))
    else if i + 1 < |s| && IsTwoCharOperator(s[i..i + 2]) then (Symbol, i + 2)
    else (Symbol, i + 1)
  }

  function TokenAt(s: string, i: nat): (t: Token)
    requires i < |s|
    requires !IsSpace(s[i])
    ensures t.begin == i < t.end <= |s| && t.text == s[i..t.end]
  {
    var (kind, end) := Lex(s, i);
    Token(kind, s[i..end], i, end)
  }

  function ScanFrom(s: string, i: nat): (tokens: seq<Token>)
    requires i <= |s|
    decreases |s| - i
  {
    if i == |s| then []
    else if IsSpace(s[i]) then ScanFrom(s, i + 1)
    else [TokenAt(s, i)] + ScanFrom(s, Lex(s, i).1)
  }

  function Scan(s: string): (tokens: seq<Token>) {
    ScanFrom(s, 0)
  }

  // ---------------------------------------------------------------- the scanning loops

  method SkipLine(sql: string, start: nat) returns (i: nat)
    requires start <= |sql|
    ensures i == LineEnd(sql, start)
  {
    i := start;
    while i < |sql| && sql[i] != '\n'
      invariant start <= i <= |sql|
      invariant LineEnd(sql, i) == LineEnd(sql, start)
    {
      i := i + 1;
    }
  }

  method SkipBlock(sql: string, start: nat) returns (i: nat)
    requires start <= |sql|
    ensures i == BlockEnd(sql, start)
  {
    i := start;
    while i < |sql|
      invariant start <= i <= |sql|
      invariant BlockEnd(sql, i) == BlockEnd(sql, start)
    {
      if sql[i] == '*' && i + 1 < |sql| && sql[i + 1] == '/' {
        i := i + 2;
        break;
      }
      i := i + 1;
    }
  }

  method SkipQuoted(sql: string, start: nat, quote: char) returns (i: nat)
    requires start <= |sql|
    ensures i == QuoteEnd(sql, start, quote)
  {
    i := start;
    while i < |sql|
      invariant start <= i <= |sql|
      invariant QuoteEnd(sql, i, quote) == QuoteEnd(sql, start, quote)
    {
      if sql[i] == '\\' && i + 1 < |sql| {
        i := i + 2;
        continue;
      }
      if sql[i] == quote {
        if i + 1 < |sql| && sql[i + 1] == quote {
          i := i + 2;
          continue;
        }
        i := i + 1;
        break;
      }
      i := i + 1;
    }
  }

  method SkipDigits(sql: string, start: nat) returns (i: nat)
    requires start <= |sql|
    ensures i == DigitsEnd(sql, start)
  {
    i := start;
    while i < |sql| && IsDigit(sql[i])
      invariant start <= i <= |sql|
      invariant DigitsEnd(sql, i) == DigitsEnd(sql, start)
    {
      i := i + 1;
    }
  }

  method SkipWord(sql: string, start: nat) returns (i: nat)
    requires start <= |sql|
    ensures i == WordEnd(sql, start)
  {
    i := start;
    while i < |sql| && IsWordChar(sql[i])
      invariant start <= i <= |sql|
      invariant WordEnd(sql, i) == WordEnd(sql, start)
    {
      i := i + 1;
    }
  }

  /** The body of the main loop once the whitespace is skipped. */
  method ScanLexeme(sql: string, start: nat) returns (kind: Kind, i: nat)
    requires start < |sql|
    requires !IsSpace(sql[start])
    ensures (kind, i) == Lex(sql, start)
  {
    var n := |sql|;
    var c := sql[start];
    if c == '-' && start + 1 < n && sql[start + 1] == '-' {
      kind := Comment;
      i := SkipLine(sql, start + 2);
    } else if c == '/' && start + 1 < n && sql[start + 1] == '*' {
      kind := Comment;
      i := SkipBlock(sql, start + 2);
    } else if c == '\'' || c == '"' {
      kind := String;
      i := SkipQuoted(sql, start + 1, c);
    } else if IsDigit(c) {
      kind := Number;
      i := SkipDigits(sql, start + 1);
      if i < n && sql[i] == '.' && i + 1 < n && IsDigit(sql[i + 1]) {
        i := SkipDigits(sql, i + 1);
      }
    } else if IsWordStart(c) {
      kind := Word;
      i := SkipWord(sql, start + 1);
    } else {
      kind := Symbol;
      i := if start + 1 < n && IsTwoCharOperator(sql[start..start + 2]) then start + 2 else start + 1;
    }
  }

  /** One index advanced over the text, pushing tokens as it goes. */
  method ScanSqlText(sql: string) returns (tokens: seq<Token>)
    ensures tokens == Scan(sql)
  {
    tokens := [];
    var i := 0;
    while i < |sql|
      invariant i <= |sql|
      invariant tokens + ScanFrom(sql, i) == Scan(sql)
    {
      if IsSpace(sql[i]) {
        i := i + 1;
        continue;
      }
      var start := i;
      var kind;
      kind, i := ScanLexeme(sql, start);
      assert ScanFrom(sql, start) == [TokenAt(sql, start)] + ScanFrom(sql, i);
      tokens := tokens + [Token(kind, sql[start..i], start, i)];
    }
  }
}
