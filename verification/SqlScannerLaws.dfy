/** What the scanner promises to the stages built on it. */
module SqlScannerLaws {
  import opened Common
  import opened SqlScanner
  import opened TextCase

  // ---------------------------------------------------------------- lossless

  /** `tokens` cuts s[from..] into ordered, disjoint, non-empty slices and leaves only whitespace. */
  ghost predicate Covers(s: string, from: nat, tokens: seq<Token>) {
    && (forall k | 0 <= k < |tokens| ::
          from <= tokens[k].begin < tokens[k].end <= |s| && tokens[k].text == s[tokens[k].begin..tokens[k].end])
    && (forall j, k | 0 <= j < k < |tokens| :: tokens[j].end <= tokens[k].begin)
    && (forall p | from <= p < |s| && !IsSpace(s[p]) :: Inside(tokens, p))
  }

  ghost predicate Inside(tokens: seq<Token>, p: nat) {
    exists k :: 0 <= k < |tokens| && tokens[k].begin <= p < tokens[k].end
  }

  lemma CoversCons(s: string, t: Token, rest: seq<Token>)
    requires t.begin < t.end <= |s| && t.text == s[t.begin..t.end] && Covers(s, t.end, rest)
    ensures Covers(s, t.begin, [t] + rest)
  {
    var tokens := [t] + rest;
    forall p | t.begin <= p < |s| && !IsSpace(s[p]) ensures Inside(tokens, p) {
      if p < t.end {
        assert tokens[0].begin <= p < tokens[0].end;
      } else {
        assert Inside(rest, p);
        var k :| 0 <= k < |rest| && rest[k].begin <= p < rest[k].end;
        assert tokens[k + 1] == rest[k];
      }
    }
  }

  lemma ScanToken(s: string, i: nat)
    requires i < |s| && !IsSpace(s[i])
    ensures ScanFrom(s, i) == [TokenAt(s, i)] + ScanFrom(s, TokenAt(s, i).end)
  {
  }

  lemma {:induction false} ScanFromCovers(s: string, i: nat)
    requires i <= |s|
    ensures Covers(s, i, ScanFrom(s, i))
    decreases |s| - i
  {
    if i >= |s| {
    } else {
      if IsSpace(s[i]) {
        ScanFromCovers(s, i + 1);
      } else {
        var t := TokenAt(s, i);
        ScanToken(s, i);
        ScanFromCovers(s, t.end);
        CoversCons(s, t, ScanFrom(s, t.end));
      }
    }
  }

  /** Tokens are non-empty, ordered and disjoint, carry their own slice of the text,
      and every byte outside them is whitespace. */
  lemma Lossless(s: string)
    ensures Covers(s, 0, Scan(s))
  {
    ScanFromCovers(s, 0);
  }

  lemma {:induction false} TokensAreLexed(s: string, i: nat, t: Token)
    requires i <= |s| && t in ScanFrom(s, i)
    ensures t.begin < |s| && !IsSpace(s[t.begin]) && t == TokenAt(s, t.begin)
    decreases |s| - i
  {
    if IsSpace(s[i]) {
      TokensAreLexed(s, i + 1, t);
    } else if t != TokenAt(s, i) {
      TokensAreLexed(s, Lex(s, i).1, t);
    }
  }

  // ---------------------------------------------------------------- cutting the text

  lemma {:induction false} CutLineEnd(s: string, i: nat, c: nat)
    requires i <= c <= |s|
    ensures LineEnd(s[..c], i) == Min(LineEnd(s, i), c)
    decreases |s| - i
  {
    if i < c && s[i] != '\n' { CutLineEnd(s, i + 1, c); }
  }

  lemma {:induction false} CutBlockEnd(s: string, i: nat, c: nat)
    requires i <= c <= |s|
    ensures BlockEnd(s[..c], i) == Min(BlockEnd(s, i), c)
    decreases |s| - i
  {
    if i < c && !(s[i] == '*' && i + 1 < c && s[i + 1] == '/') {
      CutBlockEnd(s, i + 1, c);
    }
  }

  lemma {:induction false} CutQuoteEnd(s: string, i: nat, c: nat, quote: char)
    requires i <= c <= |s|
    ensures QuoteEnd(s[..c], i, quote) == Min(QuoteEnd(s, i, quote), c)
    decreases |s| - i
  {
    if i + 1 >= c {
    } else {
      if s[i] == '\\' || (s[i] == quote && s[i + 1] == quote) {
        CutQuoteEnd(s, i + 2, c, quote);
      } else if s[i] != quote {
        CutQuoteEnd(s, i + 1, c, quote);
      }
    }
  }

  lemma {:induction false} CutDigitsEnd(s: string, i: nat, c: nat)
    requires i <= c <= |s|
    ensures DigitsEnd(s[..c], i) == Min(DigitsEnd(s, i), c)
    ensures forall p | i <= p < DigitsEnd(s, i) :: IsDigit(s[p])
    decreases |s| - i
  {
    if i < |s| && IsDigit(s[i]) {
      if i < c { CutDigitsEnd(s, i + 1, c); } else { CutDigitsEnd(s, i + 1, i + 1); }
    }
  }

  lemma {:induction false} CutWordEnd(s: string, i: nat, c: nat)
    requires i <= c <= |s|
    ensures WordEnd(s[..c], i) == Min(WordEnd(s, i), c)
    ensures forall p | i <= p < WordEnd(s, i) :: IsWordChar(s[p])
    decreases |s| - i
  {
    if i < |s| && IsWordChar(s[i]) {
      if i < c { CutWordEnd(s, i + 1, c); } else { CutWordEnd(s, i + 1, i + 1); }
    }
  }

  lemma CutNumberEnd(s: string, i: nat, c: nat)
    requires i <= c <= |s|
    requires NumberEnd(s, i) <= c || IsSpace(s[c])
    ensures NumberEnd(s[..c], i) == NumberEnd(s, i) <= c
  {
    CutDigitsEnd(s, i, c);
    var j := DigitsEnd(s, i);
    if j + 1 < |s| && s[j] == '.' && IsDigit(s[j + 1]) {
      CutDigitsEnd(s, j + 1, if j + 1 <= c then c else j + 1);
    }
  }

  /** A lexeme that ends before the cut, or is cut where the text has whitespace, keeps its kind
      and loses only what lies past the cut. */
  lemma CutLex(s: string, i: nat, c: nat)
    requires i < c <= |s| && !IsSpace(s[i])
    requires Lex(s, i).1 <= c || IsSpace(s[c])
    ensures Lex(s[..c], i) == (Lex(s, i).0, Min(Lex(s, i).1, c))
  {
    var t := s[..c];
    var ch := s[i];
    if i + 1 == c {
    } else if ch == '-' && s[i + 1] == '-' {
      CutLineEnd(s, i + 2, c);
    } else if ch == '/' && s[i + 1] == '*' {
      CutBlockEnd(s, i + 2, c);
    } else {
      assert t[i..i + 2] == s[i..i + 2];
    }
    if ch == '\'' || ch == '"' {
      CutQuoteEnd(s, i + 1, c, ch);
    } else if IsDigit(ch) {
      CutNumberEnd(s, i + 1, c);
    } else if IsWordStart(ch) {
      CutWordEnd(s, i + 1, c);
    }
  }

  // ---------------------------------------------------------------- dropping a prefix

  lemma {:induction false} DropLineEnd(s: string, b: nat, i: nat)
    requires b <= i <= |s|
    ensures LineEnd(s[b..], i - b) + b == LineEnd(s, i)
    decreases |s| - i
  {
    if i < |s| { DropLineEnd(s, b, i + 1); }
  }

  lemma {:induction false} DropBlockEnd(s: string, b: nat, i: nat)
    requires b <= i <= |s|
    ensures BlockEnd(s[b..], i - b) + b == BlockEnd(s, i)
    decreases |s| - i
  {
    if i >= |s| {
    } else {
      DropBlockEnd(s, b, i + 1);
      if i + 1 < |s| { DropBlockEnd(s, b, i + 2); }
    }
  }

  lemma {:induction false} DropDigitsEnd(s: string, b: nat, i: nat)
    requires b <= i <= |s|
    ensures DigitsEnd(s[b..], i - b) + b == DigitsEnd(s, i)
    decreases |s| - i
  {
    if i < |s| { DropDigitsEnd(s, b, i + 1); }
  }

  lemma {:induction false} DropWordEnd(s: string, b: nat, i: nat)
    requires b <= i <= |s|
    ensures WordEnd(s[b..], i - b) + b == WordEnd(s, i)
    decreases |s| - i
  {
    if i < |s| { DropWordEnd(s, b, i + 1); }
  }

  lemma {:induction false} DropQuoteEnd(s: string, b: nat, i: nat, quote: char)
    requires b <= i <= |s|
    ensures QuoteEnd(s[b..], i - b, quote) + b == QuoteEnd(s, i, quote)
    decreases |s| - i
  {
    if i >= |s| {
    } else {
      assert s[b..][i - b] == s[i];
      if i + 1 < |s| {
        assert s[b..][i - b + 1] == s[i + 1];
        DropQuoteEnd(s, b, i + 2, quote);
      }
      DropQuoteEnd(s, b, i + 1, quote);
    }
  }

  lemma DropNumberEnd(s: string, b: nat, i: nat)
    requires b <= i <= |s|
    ensures NumberEnd(s[b..], i - b) + b == NumberEnd(s, i)
  {
    DropDigitsEnd(s, b, i);
    var j := DigitsEnd(s, i);
    if j < |s| { DropDigitsEnd(s, b, j + 1); }
  }

  lemma DropSymbol(s: string, t: string, b: nat, i: nat)
    requires b <= i < |s| && t == s[b..]
    ensures t[i - b] == s[i] && (i + 1 < |s| ==> t[i - b + 1] == s[i + 1] && t[i - b..i - b + 2] == s[i..i + 2])
  {
  }

  ghost predicate LexMoves(s: string, b: nat, i: nat)
    requires b <= i < |s| && !IsSpace(s[i])
  {
    Lex(s[b..], i - b).0 == Lex(s, i).0 && Lex(s[b..], i - b).1 + b == Lex(s, i).1
  }

  predicate OpensComment(s: string, i: nat) {
    i + 1 < |s| && ((s[i] == '-' && s[i + 1] == '-') || (s[i] == '/' && s[i + 1] == '*'))
  }

  lemma DropComment(s: string, b: nat, i: nat)
    requires b <= i < |s| && OpensComment(s, i)
    ensures LexMoves(s, b, i)
  {
    DropSymbol(s, s[b..], b, i);
    if s[i] == '-' { DropLineEnd(s, b, i + 2); } else { DropBlockEnd(s, b, i + 2); }
  }

  lemma DropOther(s: string, b: nat, i: nat)
    requires b <= i < |s| && !IsSpace(s[i]) && !OpensComment(s, i)
    ensures LexMoves(s, b, i)
  {
    var c := s[i];
    DropSymbol(s, s[b..], b, i);
    if c == '\'' || c == '"' {
      DropQuoteEnd(s, b, i + 1, c);
    } else if IsDigit(c) {
      DropNumberEnd(s, b, i + 1);
    } else if IsWordStart(c) {
      DropWordEnd(s, b, i + 1);
    }
  }

  /** The scanner has no memory: what starts at `i` does not depend on the text before it. */
  lemma DropLex(s: string, b: nat, i: nat)
    requires b <= i < |s| && !IsSpace(s[i])
    ensures Lex(s[b..], i - b).0 == Lex(s, i).0
    ensures Lex(s[b..], i - b).1 + b == Lex(s, i).1
  {
    if OpensComment(s, i) { DropComment(s, b, i); } else { DropOther(s, b, i); }
  }

  // ---------------------------------------------------------------- boundaries

  function Shift(t: Token, offset: nat): Token {
    Token(t.kind, t.text, t.begin + offset, t.end + offset)
  }

  function ShiftAll(tokens: seq<Token>, offset: nat): (r: seq<Token>)
    ensures |r| == |tokens|
    ensures forall k | 0 <= k < |r| :: r[k] == Shift(tokens[k], offset)
  {
    seq(|tokens|, k requires 0 <= k < |tokens| => Shift(tokens[k], offset))
  }

  function CutToken(t: Token, c: nat): Token
    requires t.begin < c
    requires |t.text| == t.end - t.begin
  {
    if t.end <= c then t else Token(t.kind, t.text[..c - t.begin], t.begin, c)
  }

  /** Walking tokens from `i` never steps over `c`. */
  predicate Reaches(s: string, i: nat, c: nat)
    requires i <= |s|
    decreases |s| - i
  {
    i == c || (i < c <= |s| && (if IsSpace(s[i]) then Reaches(s, i + 1, c) else Reaches(s, Lex(s, i).1, c)))
  }

  /** `c` is not strictly inside a token. */
  ghost predicate BetweenTokens(s: string, c: nat) {
    c <= |s| && forall t | t in Scan(s) :: t.end <= c || c <= t.begin
  }

  lemma TokenEdges(s: string, t: Token)
    requires t in Scan(s)
    ensures t.begin < t.end <= |s| && t.text == s[t.begin..t.end]
    ensures BetweenTokens(s, t.begin) && BetweenTokens(s, t.end)
  {
    Lossless(s);
    var tokens := Scan(s);
    var k :| 0 <= k < |tokens| && tokens[k] == t;
    forall u | u in tokens ensures u.end <= t.begin || t.begin <= u.begin
                           ensures u.end <= t.end || t.end <= u.begin {
      var j :| 0 <= j < |tokens| && tokens[j] == u;
      if j < k { assert tokens[j].end <= tokens[k].begin; }
      if k < j { assert tokens[k].end <= tokens[j].begin; }
    }
  }

  lemma {:induction false} ReachesBetween(s: string, i: nat, c: nat)
    requires i <= c <= |s|
    ensures Reaches(s, i, c) <==> forall t | t in ScanFrom(s, i) :: t.end <= c || c <= t.begin
    decreases |s| - i
  {
    ScanFromCovers(s, i);
    if i >= c {
    } else {
      if IsSpace(s[i]) {
        ReachesBetween(s, i + 1, c);
      } else {
        var end := Lex(s, i).1;
        assert ScanFrom(s, i) == [TokenAt(s, i)] + ScanFrom(s, end);
        assert TokenAt(s, i) in ScanFrom(s, i);
        if end <= c { ReachesBetween(s, end, c); }
      }
    }
  }

  lemma DropTokenAt(s: string, b: nat, i: nat)
    requires b <= i < |s| && !IsSpace(s[i])
    ensures TokenAt(s, i) == Shift(TokenAt(s[b..], i - b), b)
  {
    DropLex(s, b, i);
    assert s[b..][i - b..Lex(s, i).1 - b] == s[i..Lex(s, i).1];
  }

  lemma CutTokenAt(s: string, i: nat, c: nat)
    requires i < c <= |s| && !IsSpace(s[i])
    requires Lex(s, i).1 <= c || IsSpace(s[c])
    ensures TokenAt(s[..c], i) == CutToken(TokenAt(s, i), c)
  {
    CutLex(s, i, c);
  }

  lemma ShiftAllCons(t: Token, rest: seq<Token>, moved: seq<Token>, offset: nat)
    requires moved == ShiftAll(rest, offset)
    ensures [Shift(t, offset)] + moved == ShiftAll([t] + rest, offset)
  {
  }

  lemma ScanSpace(s: string, i: nat)
    requires i < |s| && IsSpace(s[i])
    ensures ScanFrom(s, i) == ScanFrom(s, i + 1)
  {
  }

  /** From `i` on, the text scans as its suffix from `b` does, moved by `b`. */
  ghost predicate ScansMoved(s: string, b: nat, i: nat) {
    b <= i <= |s| && ScanFrom(s, i) == ShiftAll(ScanFrom(s[b..], i - b), b)
  }

  lemma MovedEnd(s: string, b: nat)
    requires b <= |s|
    ensures ScansMoved(s, b, |s|)
  {
  }

  lemma MovedSpace(s: string, b: nat, i: nat)
    requires b <= i < |s| && IsSpace(s[i]) && ScansMoved(s, b, i + 1)
    ensures ScansMoved(s, b, i)
  {
    ScanSpace(s, i);
    ScanSpace(s[b..], i - b);
  }

  lemma ShiftedCons(a: seq<Token>, t: Token, rest: seq<Token>, a': seq<Token>, t': Token, rest': seq<Token>, b: nat)
    requires a == [t] + rest && a' == [t'] + rest' && t == Shift(t', b) && rest == ShiftAll(rest', b)
    ensures a == ShiftAll(a', b)
  {
    ShiftAllCons(t', rest', rest, b);
  }

  lemma MovedToken(s: string, b: nat, i: nat)
    requires b <= i < |s| && !IsSpace(s[i]) && ScansMoved(s, b, TokenAt(s, i).end)
    ensures ScansMoved(s, b, i)
  {
    var t := s[b..];
    var u, v := TokenAt(t, i - b), TokenAt(s, i);
    DropTokenAt(s, b, i);
    ScanToken(s, i);
    ScanToken(t, i - b);
    ShiftedCons(ScanFrom(s, i), v, ScanFrom(s, v.end), ScanFrom(t, i - b), u, ScanFrom(t, u.end), b);
  }

  lemma {:induction false} ScanFromDrop(s: string, b: nat, i: nat)
    requires b <= i <= |s|
    ensures ScansMoved(s, b, i)
    decreases |s| - i
  {
    if i == |s| {
      MovedEnd(s, b);
    } else if IsSpace(s[i]) {
      ScanFromDrop(s, b, i + 1);
      MovedSpace(s, b, i);
    } else {
      ScanFromDrop(s, b, TokenAt(s, i).end);
      MovedToken(s, b, i);
    }
  }

  lemma {:induction false} ScanFromSplit(s: string, i: nat, c: nat)
    requires i <= c <= |s| && Reaches(s, i, c)
    ensures ScanFrom(s, i) == ScanFrom(s[..c], i) + ScanFrom(s, c)
    decreases |s| - i
  {
    var t := s[..c];
    if i >= c {
    } else {
      if IsSpace(s[i]) {
        ScanFromSplit(s, i + 1, c);
      } else {
        CutTokenAt(s, i, c);
        ScanFromSplit(s, TokenAt(s, i).end, c);
      }
    }
  }

  /** Scanning is a homomorphism at every point that lies between two tokens: the tokens of the
      text are the tokens of the part before the cut, then those of the part after it, moved. */
  lemma SplitAtBoundary(s: string, c: nat)
    requires BetweenTokens(s, c)
    ensures Scan(s) == Scan(s[..c]) + ShiftAll(Scan(s[c..]), c)
  {
    ReachesBetween(s, 0, c);
    ScanFromSplit(s, 0, c);
    ScanFromDrop(s, c, c);
  }

  /** Prefix stability: scanning the text cut between two tokens yields exactly the tokens before the cut. */
  lemma PrefixStable(s: string, c: nat)
    requires BetweenTokens(s, c)
    ensures Scan(s[..c]) <= Scan(s)
    ensures forall t :: t in Scan(s[..c]) <==> t in Scan(s) && t.end <= c
  {
    SplitAtBoundary(s, c);
    Lossless(s[..c]);
    Lossless(s[c..]);
    var before, after := Scan(s[..c]), ShiftAll(Scan(s[c..]), c);
    forall t ensures t in before <==> t in Scan(s) && t.end <= c {
      if t in after {
        var k :| 0 <= k < |after| && after[k] == t;
        assert t.begin >= c && t.end > c;
      }
    }
  }

  /** Any slice between two boundaries scans on its own to the tokens of the whole text in that range. */
  lemma SliceScansAlone(s: string, b: nat, e: nat)
    requires b <= e && BetweenTokens(s, b) && BetweenTokens(s, e)
    ensures Scan(s) == Scan(s[..b]) + ShiftAll(Scan(s[b..e]), b) + ShiftAll(Scan(s[e..]), e)
  {
    SplitAtBoundary(s, e);
    PrefixStable(s, e);
    var t := s[..e];
    assert BetweenTokens(t, b);
    SplitAtBoundary(t, b);
    assert t[..b] == s[..b] && t[b..] == s[b..e];
  }

  // ---------------------------------------------------------------- cuts at whitespace

  /** `cut` is what is left of `full` before offset c: the tokens that start there, the last one shortened. */
  ghost predicate CutOf(cut: seq<Token>, full: seq<Token>, c: nat) {
    && |cut| <= |full|
    && (forall k | 0 <= k < |cut| :: CutFrom(cut[k], full[k], c))
    && (forall k | |cut| <= k < |full| :: c <= full[k].begin)
  }

  ghost predicate CutFrom(t: Token, u: Token, c: nat) {
    u.begin < c && |u.text| == u.end - u.begin && t == CutToken(u, c)
  }

  lemma CutOfCons(t: Token, u: Token, cut: seq<Token>, full: seq<Token>, c: nat)
    requires CutFrom(t, u, c) && CutOf(cut, full, c)
    ensures CutOf([t] + cut, [u] + full, c)
  {
  }

  lemma CutTail(s: string, i: nat, c: nat)
    requires c <= i <= |s|
    ensures CutOf([], ScanFrom(s, i), c)
  {
    ScanFromCovers(s, i);
  }

  lemma CutSpace(s: string, i: nat, c: nat)
    requires i < c <= |s| && IsSpace(s[i]) && CutOf(ScanFrom(s[..c], i + 1), ScanFrom(s, i + 1), c)
    ensures CutOf(ScanFrom(s[..c], i), ScanFrom(s, i), c)
  {
    ScanSpace(s, i);
    ScanSpace(s[..c], i);
  }

  lemma CutOneToken(s: string, i: nat, c: nat)
    requires i < c <= |s| && (c == |s| || IsSpace(s[c])) && !IsSpace(s[i])
    requires var e := TokenAt(s, i).end; e <= c ==> CutOf(ScanFrom(s[..c], e), ScanFrom(s, e), c)
    ensures CutOf(ScanFrom(s[..c], i), ScanFrom(s, i), c)
  {
    var t, u := TokenAt(s[..c], i), TokenAt(s, i);
    CutTokenAt(s, i, c);
    ScanToken(s[..c], i);
    ScanToken(s, i);
    if u.end > c { CutTail(s, u.end, c); }
    CutOfCons(t, u, ScanFrom(s[..c], t.end), ScanFrom(s, u.end), c);
  }

  lemma {:induction false} ScanFromCutAtSpace(s: string, i: nat, c: nat)
    requires i <= c <= |s| && (c == |s| || IsSpace(s[c]))
    ensures CutOf(ScanFrom(s[..c], i), ScanFrom(s, i), c)
    decreases |s| - i
  {
    if i == c {
      CutTail(s, c, c);
    } else if IsSpace(s[i]) {
      ScanFromCutAtSpace(s, i + 1, c);
      CutSpace(s, i, c);
    } else {
      var u := TokenAt(s, i);
      if u.end <= c { ScanFromCutAtSpace(s, u.end, c); }
      CutOneToken(s, i, c);
    }
  }

  lemma CutAtSpaceToken(s: string, c: nat, k: nat)
    requires c <= |s| && (c == |s| || IsSpace(s[c])) && k < |Scan(s[..c])|
    ensures k < |Scan(s)| && CutFrom(Scan(s[..c])[k], Scan(s)[k], c)
    ensures Scan(s)[k].kind.Word? ==> Scan(s)[k].end <= c
  {
    ScanFromCutAtSpace(s, 0, c);
    var u := Scan(s)[k];
    assert CutFrom(Scan(s[..c])[k], u, c);
    Lossless(s);
    if u.end > c && u.kind.Word? {
      WordTokenShape(s, 0, k);
      assert false;
    }
  }

  /** Cutting in front of a whitespace character truncates at most the last token that starts before
      the cut, and never changes its kind: this is what trimming the right end of a text does. */
  lemma CutAtSpace(s: string, c: nat)
    requires c <= |s| && (c == |s| || IsSpace(s[c]))
    ensures forall t | t in Scan(s[..c]) ::
              exists u :: u in Scan(s) && u.kind == t.kind && u.begin == t.begin && t.text <= u.text
                          && (t.text == u.text || !t.kind.Word?)
  {
    var cut, full := Scan(s[..c]), Scan(s);
    forall t | t in cut
      ensures exists u :: u in full && u.kind == t.kind && u.begin == t.begin && t.text <= u.text
                          && (t.text == u.text || !t.kind.Word?)
    {
      var k :| 0 <= k < |cut| && cut[k] == t;
      CutAtSpaceToken(s, c, k);
      assert full[k] in full;
    }
  }

  lemma {:induction false} WordTokenShape(s: string, i: nat, k: nat)
    requires i <= |s| && k < |ScanFrom(s, i)| && ScanFrom(s, i)[k].kind.Word?
    ensures ScanFrom(s, i)[k].end <= |s|
    ensures forall p | ScanFrom(s, i)[k].begin <= p < ScanFrom(s, i)[k].end :: IsWordChar(s[p])
    decreases |s| - i
  {
    if IsSpace(s[i]) {
      WordTokenShape(s, i + 1, k);
    } else if k == 0 {
      CutWordEnd(s, i + 1, |s|);
    } else {
      WordTokenShape(s, Lex(s, i).1, k - 1);
    }
  }
}
