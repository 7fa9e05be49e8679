/** The client's quote-aware splitting of a script into statements, and its test whether the input
    typed so far is complete. */
module ScriptSplitter {
  import opened Common
  import opened QuoteShapes
  import opened TextCase
  import opened Trimming

  // ---------------------------------------------------------------- quotes and escapes

  datatype Mode = Mode(single: bool, quoted: bool, escape: bool)

  const PLAIN := Mode(false, false, false)

  function Step(q: Mode, c: char): Mode {
    if q.escape then q.(escape := false)
    else if c == '\\' then q.(escape := true)
    else if c == '\'' && !q.quoted then q.(single := !q.single)
    else if c == '"' && !q.single then q.(quoted := !q.quoted)
    else q
  }

  predicate Separates(q: Mode, c: char) {
    q == PLAIN && c == ';'
  }

  /** The mode in front of position `i`. */
  function ModeAt(s: string, i: nat): Mode
    requires i <= |s|
  {
    if i == 0 then PLAIN else Step(ModeAt(s, i - 1), s[i - 1])
  }

  predicate SeparatorAt(s: string, i: nat)
    requires i < |s|
  {
    Separates(ModeAt(s, i), s[i])
  }

  /** The first separator from position `i` on, or the length of the text. */
  function NextSeparator(s: string, i: nat, q: Mode): (k: nat)
    requires i <= |s|
    ensures i <= k <= |s|
    decreases |s| - i
  {
    if i == |s| || Separates(q, s[i]) then i else NextSeparator(s, i + 1, Step(q, s[i]))
  }

  function First(s: string): (k: nat)
    ensures k <= |s|
  {
    NextSeparator(s, 0, PLAIN)
  }

  // ---------------------------------------------------------------- modes and shapes

  /** Inside a literal with this mark. */
  function In(k: char): Mode {
    if k == '"' then Mode(false, true, false) else Mode(true, false, false)
  }

  function Walk(q: Mode, t: string): Mode {
    if t == "" then q else Step(Walk(q, t[..|t| - 1]), t[|t| - 1])
  }

  lemma {:induction false} ModeIsWalk(s: string, i: nat)
    requires i <= |s|
    ensures ModeAt(s, i) == Walk(PLAIN, s[..i])
    decreases i
  {
    if i == 0 {
    } else {
      ModeIsWalk(s, i - 1);
      assert s[..i][..i - 1] == s[..i - 1];
    }
  }

  lemma {:induction false} WalkJoins(q: Mode, a: string, b: string)
    ensures Walk(q, a + b) == Walk(Walk(q, a), b)
    decreases |b|
  {
    if b == "" {
      assert a + b == a;
    } else {
      assert (a + b)[..|a + b| - 1] == a + b[..|b| - 1];
      WalkJoins(q, a, b[..|b| - 1]);
    }
  }

  lemma WalkOne(q: Mode, c: char)
    ensures Walk(q, [c]) == Step(q, c)
  {
    assert [c][..0] == "";
  }

  lemma WalkFirst(q: Mode, w: string)
    requires w != ""
    ensures Walk(q, w) == Walk(Step(q, w[0]), w[1..])
  {
    assert w == [w[0]] + w[1..];
    WalkJoins(q, [w[0]], w[1..]);
    WalkOne(q, w[0]);
  }

  lemma {:induction false} WalkBody(w: string, k: char)
    requires IsMark(k) && Body(w, k)
    ensures Walk(In(k), w) == In(k)
    decreases |w|
  {
    if w == "" {
    } else if w[0] == '\\' {
      WalkFirst(In(k), w);
      WalkFirst(Step(In(k), w[0]), w[1..]);
      assert w[1..][1..] == w[2..];
      WalkBody(w[2..], k);
    } else {
      WalkFirst(In(k), w);
      WalkBody(w[1..], k);
    }
  }

  lemma BothEnds(a: string)
    requires |a| >= 2
    ensures a == [a[0]] + a[1..|a| - 1] + [a[|a| - 1]]
  {
  }

  lemma WalkLiteral(a: string)
    requires Literal(a)
    ensures Walk(PLAIN, a) == PLAIN
  {
    var k, w := a[0], a[1..|a| - 1];
    BothEnds(a);
    WalkJoins(PLAIN, [k] + w, [k]);
    WalkJoins(PLAIN, [k], w);
    WalkOne(PLAIN, k);
    WalkBody(w, k);
    WalkOne(In(k), k);
  }

  lemma WalkAtom(a: string)
    requires Atom(a)
    ensures Walk(PLAIN, a) == PLAIN
  {
    if Literal(a) {
      WalkLiteral(a);
    } else if |a| == 1 {
      assert a == [a[0]];
      WalkOne(PLAIN, a[0]);
    } else {
      WalkFirst(PLAIN, a);
      assert a[1..] == [a[1]];
      WalkOne(Step(PLAIN, '\\'), a[1]);
    }
  }

  lemma {:induction false} WalkAtoms(list: seq<string>)
    requires Atoms(list)
    ensures Walk(PLAIN, Flatten(list)) == PLAIN
    decreases |list|
  {
    if list == [] {
    } else {
      WalkJoins(PLAIN, list[0], Flatten(list[1..]));
      WalkAtom(list[0]);
      WalkAtoms(list[1..]);
    }
  }

  /** The shape of a text that leaves the reader in this mode. */
  ghost predicate Reads(q: Mode, s: string) {
    var slash := if q.escape then "\\" else "";
    if !q.single && !q.quoted then exists c :: Closed(c) && s == c + slash
    else if q.single && q.quoted then false
    else var k := if q.quoted then '"' else '\'';
         exists c, w :: Closed(c) && Body(w, k) && s == c + [k] + w + slash
  }

  lemma ReadsOutside(q: Mode, c: string, s: string)
    requires !q.single && !q.quoted && Closed(c) && s == c + (if q.escape then "\\" else "")
    ensures Reads(q, s)
  {
  }

  lemma ReadsInside(q: Mode, k: char, c: string, w: string, s: string)
    requires IsMark(k) && q == In(k).(escape := q.escape) && Closed(c) && Body(w, k)
    requires s == c + [k] + w + (if q.escape then "\\" else "")
    ensures Reads(q, s)
  {
  }

  lemma ReadPlain(s: string, c: char)
    requires Closed(s)
    ensures Reads(Step(PLAIN, c), s + [c])
  {
    if c == '\\' {
      ReadsOutside(Step(PLAIN, c), s, s + [c]);
    } else if IsMark(c) {
      ReadsInside(In(c), c, s, "", s + [c]);
    } else {
      ClosedAppend(s, [c]);
      ReadsOutside(PLAIN, s + [c], s + [c]);
    }
  }

  lemma ReadEscaped(s: string, c: char)
    requires Closed(s)
    ensures Reads(PLAIN, s + "\\" + [c])
  {
    ClosedAppend(s, ['\\', c]);
    assert s + "\\" + [c] == s + ['\\', c];
    ReadsOutside(PLAIN, s + ['\\', c], s + "\\" + [c]);
  }

  lemma ReadClosing(s: string, k: char, w: string)
    requires Closed(s) && IsMark(k) && Body(w, k)
    ensures Reads(PLAIN, s + [k] + w + [k])
  {
    var a := [k] + w + [k];
    assert a[1..|a| - 1] == w && Literal(a);
    ClosedAppend(s, a);
    assert s + [k] + w + [k] == s + a;
    ReadsOutside(PLAIN, s + a, s + [k] + w + [k]);
  }

  lemma ReadInside(s: string, k: char, w: string, c: char)
    requires Closed(s) && IsMark(k) && Body(w, k)
    ensures Reads(Step(In(k), c), s + [k] + w + [c])
  {
    var t := s + [k] + w + [c];
    if c == '\\' {
      ReadsInside(Step(In(k), c), k, s, w, t);
    } else if c == k {
      ReadClosing(s, k, w);
    } else {
      BodyAppend(w, c, k);
      assert t == s + [k] + (w + [c]);
      ReadsInside(In(k), k, s, w + [c], t);
    }
  }

  lemma ReadInsideEscaped(s: string, k: char, w: string, c: char)
    requires Closed(s) && IsMark(k) && Body(w, k)
    ensures Reads(In(k), s + [k] + w + "\\" + [c])
  {
    BodyEscape(w, c, k);
    var t := s + [k] + w + "\\" + [c];
    assert t == s + [k] + (w + ['\\', c]);
    ReadsInside(In(k), k, s, w + ['\\', c], t);
  }

  lemma ReadOutside(q: Mode, s: string, c: char)
    requires Reads(q, s) && !q.single && !q.quoted
    ensures Reads(Step(q, c), s + [c])
  {
    if q.escape {
      var t :| Closed(t) && s == t + "\\";
      ReadEscaped(t, c);
    } else {
      var t :| Closed(t) && s == t + "";
      assert s == t;
      ReadPlain(s, c);
    }
  }

  lemma ReadWithin(q: Mode, k: char, s: string, c: char)
    requires IsMark(k) && q == In(k).(escape := q.escape) && Reads(q, s)
    ensures Reads(Step(q, c), s + [c])
  {
    if q.escape {
      var t, w :| Closed(t) && Body(w, k) && s == t + [k] + w + "\\";
      ReadInsideEscaped(t, k, w, c);
    } else {
      var t, w :| Closed(t) && Body(w, k) && s == t + [k] + w + "";
      assert s == t + [k] + w;
      ReadInside(t, k, w, c);
    }
  }

  lemma ReadStep(q: Mode, s: string, c: char)
    requires Reads(q, s)
    ensures Reads(Step(q, c), s + [c])
  {
    if !q.single && !q.quoted {
      ReadOutside(q, s, c);
    } else {
      ReadWithin(q, if q.quoted then '"' else '\'', s, c);
    }
  }

  lemma {:induction false} WalkReads(s: string)
    ensures Reads(Walk(PLAIN, s), s)
    decreases |s|
  {
    if s == "" {
      ClosedEmpty();
      assert s == "" + "";
    } else {
      WalkReads(s[..|s| - 1]);
      ReadStep(Walk(PLAIN, s[..|s| - 1]), s[..|s| - 1], s[|s| - 1]);
      assert s == s[..|s| - 1] + [s[|s| - 1]];
    }
  }

  /** Nothing is open exactly where the reader is in no quotes and behind no backslash. */
  lemma PlainExactly(s: string)
    ensures Walk(PLAIN, s) == PLAIN <==> Closed(s)
  {
    WalkReads(s);
    if Walk(PLAIN, s) == PLAIN {
      var c :| Closed(c) && s == c + "";
    }
    if Closed(s) {
      var list :| Atoms(list) && Flatten(list) == s;
      WalkAtoms(list);
    }
  }

  lemma OutsideExactly(s: string)
    ensures (var q := Walk(PLAIN, s); !q.single && !q.quoted) <==> OutsideLiterals(s)
  {
    var q := Walk(PLAIN, s);
    WalkReads(s);
    PlainExactly(s);
    if q == Mode(false, false, true) {
      var c :| Closed(c) && s == c + "\\";
      assert s[..|s| - 1] == c;
    }
    if s != "" && s[|s| - 1] == '\\' { PlainExactly(s[..|s| - 1]); }
  }

  /** The separators are the semicolons with nothing open in front of them. */
  lemma SeparatorExactly(s: string, i: nat)
    requires i < |s|
    ensures SeparatorAt(s, i) <==> Separator(s, i)
  {
    ModeIsWalk(s, i);
    PlainExactly(s[..i]);
  }

  // ---------------------------------------------------------------- what a script consists of

  /** The closed statements of the script, each trimmed and with its semicolon. */
  function Statements(s: string): seq<string>
    decreases |s|
  {
    var k := First(s);
    if k == |s| then [] else [Trim(s[..k + 1])] + Statements(s[k + 1..])
  }

  /** What follows the last separator. */
  function Residue(s: string): string
    decreases |s|
  {
    var k := First(s);
    if k == |s| then s else Residue(s[k + 1..])
  }

  /** All statements in order, with a last one left unfinished unless it is blank. */
  function Split(s: string): seq<string>
    decreases |s|
  {
    var k := First(s);
    if k < |s| then [Trim(s[..k + 1])] + Split(s[k + 1..])
    else if Trim(s) == "" then [] else [Trim(s)]
  }

  lemma {:induction false} SplitParts(s: string)
    ensures Split(s) == Statements(s) + (if Trim(Residue(s)) == "" then [] else [Trim(Residue(s))])
    decreases |s|
  {
    if First(s) < |s| { SplitParts(s[First(s) + 1..]); }
  }

  lemma {:induction false} NextSeparatorStops(s: string, i: nat, q: Mode)
    requires i <= |s|
    ensures NextSeparator(s, i, q) < |s| ==> s[NextSeparator(s, i, q)] == ';'
    decreases |s| - i
  {
    if i < |s| && !Separates(q, s[i]) { NextSeparatorStops(s, i + 1, Step(q, s[i])); }
  }

  lemma PieceNotBlank(s: string, k: nat)
    requires k < |s| && s[k] == ';'
    ensures Trim(s[..k + 1]) != ""
  {
    TrimBlank(s[..k + 1]);
    assert s[..k + 1][k] == ';';
    assert ';' in s[..k + 1] && !IsSpace(';');
  }

  /** What the loop knows about the piece it has read so far. */
  ghost predicate Reading(script: string, start: nat, i: nat, q: Mode) {
    start <= i <= |script| && NextSeparator(script[start..], i - start, q) == First(script[start..])
  }

  lemma ReadOn(script: string, start: nat, i: nat, q: Mode)
    requires Reading(script, start, i, q) && i < |script| && !Separates(q, script[i])
    ensures Reading(script, start, i + 1, Step(q, script[i]))
  {
    assert script[start..][i - start] == script[i];
  }

  lemma SplitAt(s: string, k: nat, piece: string, rest: string)
    requires k == First(s) < |s| && piece == s[..k + 1] && rest == s[k + 1..]
    ensures Split(s) == [Trim(piece)] + Split(rest)
  {
  }

  lemma SplitNone(s: string)
    requires First(s) == |s|
    ensures Split(s) == if Trim(s) == "" then [] else [Trim(s)]
  {
  }

  lemma FoundAt(s: string, k: nat, q: Mode)
    requires k < |s| && Separates(q, s[k])
    ensures NextSeparator(s, k, q) == k && s[k] == ';' && Step(q, s[k]) == PLAIN
  {
  }

  lemma ReadingStarts(script: string, start: nat)
    requires start <= |script|
    ensures Reading(script, start, start, PLAIN)
  {
  }

  lemma CloseStatement(script: string, start: nat, i: nat, q: Mode)
    requires Reading(script, start, i, q) && i < |script| && Separates(q, script[i])
    ensures Trim(script[start..i + 1]) != ""
    ensures Split(script[start..]) == [Trim(script[start..i + 1])] + Split(script[i + 1..])
  {
    var rest, k := script[start..], i - start;
    FoundAt(rest, k, q);
    assert rest[..k + 1] == script[start..i + 1];
    assert rest[k + 1..] == script[i + 1..];
    PieceNotBlank(rest, k);
    SplitAt(rest, k, script[start..i + 1], script[i + 1..]);
  }

  /** The loop has pushed every statement before `start` and has read `current` of the next one. */
  ghost predicate Progress(script: string, statements: seq<string>, start: nat, i: nat, q: Mode, current: string) {
    && Reading(script, start, i, q) && current == script[start..i]
    && statements + Split(script[start..]) == Split(script)
  }

  lemma ProgressStart(script: string)
    ensures Progress(script, [], 0, 0, PLAIN, "")
  {
    assert script[0..] == script;
    ReadingStarts(script, 0);
  }

  lemma ProgressClose(script: string, statements: seq<string>, start: nat, i: nat, q: Mode, current: string)
    requires Progress(script, statements, start, i, q, current) && i < |script| && Separates(q, script[i])
    ensures var piece := Trim(current + [script[i]]);
            piece != "" && Progress(script, statements + [piece], i + 1, i + 1, Step(q, script[i]), "")
  {
    assert current + [script[i]] == script[start..i + 1];
    CloseStatement(script, start, i, q);
    FoundAt(script, i, q);
    ReadingStarts(script, i + 1);
    var piece, rest := Trim(script[start..i + 1]), Split(script[i + 1..]);
    assert statements + [piece] + rest == statements + ([piece] + rest);
  }

  lemma ProgressRead(script: string, statements: seq<string>, start: nat, i: nat, q: Mode, current: string)
    requires Progress(script, statements, start, i, q, current) && i < |script| && !Separates(q, script[i])
    ensures Progress(script, statements, start, i + 1, Step(q, script[i]), current + [script[i]])
  {
    ReadOn(script, start, i, q);
  }

  lemma ProgressEnd(script: string, statements: seq<string>, start: nat, q: Mode, current: string)
    requires Progress(script, statements, start, |script|, q, current)
    ensures Split(script) == statements + (if Trim(current) == "" then [] else [Trim(current)])
  {
    assert current == script[start..];
    SplitNone(current);
  }

  method Push(statements: seq<string>, current: string) returns (r: seq<string>)
    ensures r == statements + (if Trim(current) == "" then [] else [Trim(current)])
  {
    var statement := TrimText(current);
    r := if statement == "" then statements else statements + [statement];
  }

  /** One pass over the characters, pushing a statement at every separator. */
  method SplitSqlScript(script: string) returns (statements: seq<string>)
    ensures statements == Split(script)
  {
    statements := [];
    var current := "";
    var q := PLAIN;
    ghost var start := 0;
    ProgressStart(script);
    for i := 0 to |script|
      invariant Progress(script, statements, start, i, q, current)
    {
      var c := script[i];
      if Separates(q, c) {
        ProgressClose(script, statements, start, i, q, current);
        current := current + [c];
        statements := Push(statements, current);
        start, current := i + 1, "";
      } else {
        ProgressRead(script, statements, start, i, q, current);
        current := current + [c];
      }
      q := Step(q, c);
    }
    ProgressEnd(script, statements, start, q, current);
    statements := Push(statements, current);
  }

  // ---------------------------------------------------------------- splitting twice

  lemma {:induction false} NextInPrefix(s: string, c: nat, i: nat, q: Mode)
    requires i <= c <= |s|
    ensures NextSeparator(s[..c], i, q) == if NextSeparator(s, i, q) < c then NextSeparator(s, i, q) else c
    decreases c - i
  {
    if i < c && !Separates(q, s[i]) { NextInPrefix(s, c, i + 1, Step(q, s[i])); }
  }

  lemma {:induction false} NextInSuffix(s: string, b: nat, i: nat, q: Mode)
    requires b <= i <= |s|
    ensures NextSeparator(s[b..], i - b, q) + b == NextSeparator(s, i, q)
    decreases |s| - i
  {
    if i < |s| && !Separates(q, s[i]) { NextInSuffix(s, b, i + 1, Step(q, s[i])); }
  }

  /** Leading whitespace does not change what comes first. */
  lemma {:induction false} FirstAfterBlank(s: string, b: nat)
    requires b <= |s| && forall p | 0 <= p < b :: IsSpace(s[p])
    ensures First(s) == NextSeparator(s, b, PLAIN) == First(s[b..]) + b
    decreases b
  {
    if b > 0 { FirstAfterBlank(s, b - 1); }
    NextInSuffix(s, b, b, PLAIN);
  }

  /** A statement: trimmed, and its only separator is its last character. */
  ghost predicate IsStatement(p: string) {
    p != "" && Trim(p) == p && First(p) == |p| - 1
  }

  /** An unfinished statement: trimmed, with no separator. */
  ghost predicate IsUnfinished(p: string) {
    p != "" && Trim(p) == p && First(p) == |p|
  }

  lemma TrimmedStatement(s: string)
    requires First(s) < |s|
    ensures IsStatement(Trim(s[..First(s) + 1]))
  {
    var k := First(s);
    var t := s[..k + 1];
    NextSeparatorStops(s, 0, PLAIN);
    NextInPrefix(s, k + 1, 0, PLAIN);
    PieceNotBlank(s, k);
    var b, e := TrimIsCore(t);
    OutsideCore(t, b, e);
    assert t[k] == ';' && e == k + 1;
    FirstAfterBlank(t, b);
    assert t[b..] == Trim(t);
    TrimTwice(t);
  }

  lemma TrimmedUnfinished(s: string)
    requires First(s) == |s| && Trim(s) != ""
    ensures IsUnfinished(Trim(s))
  {
    var b, e := TrimIsCore(s);
    OutsideCore(s, b, e);
    NextInPrefix(s, e, 0, PLAIN);
    FirstAfterBlank(s[..e], b);
    assert s[..e][b..] == Trim(s);
    TrimTwice(s);
  }

  /** Statements, of which the last may be unfinished. */
  ghost predicate Listing(list: seq<string>) {
    forall k | 0 <= k < |list| :: IsStatement(list[k]) || (k == |list| - 1 && IsUnfinished(list[k]))
  }

  lemma {:induction false} SplitLists(s: string)
    ensures Listing(Split(s))
    decreases |s|
  {
    var k := First(s);
    if k == |s| {
      if Trim(s) != "" { TrimmedUnfinished(s); }
    } else {
      TrimmedStatement(s);
      SplitLists(s[k + 1..]);
    }
  }

  function JoinLines(list: seq<string>): string {
    if list == [] then ""
    else if |list| == 1 then list[0]
    else list[0] + "\n" + JoinLines(list[1..])
  }

  lemma TrimLeadingSpace(s: string)
    requires s != "" && IsSpace(s[0])
    ensures Trim(s) == Trim(s[1..])
  {
    var t := s[1..];
    var b, e := TrimIsCore(t);
    OutsideCore(t, b, e);
    assert s[b + 1..e + 1] == t[b..e] && s[e + 1..] == t[e..];
    assert s[..b + 1] == [s[0]] + t[..b];
    assert Blank([s[0]] + t[..b]);
    assert IsCore(s, b + 1, e + 1);
    TrimUnique(s, b + 1, e + 1);
  }

  lemma SplitLeadingSpace(s: string)
    requires s != "" && IsSpace(s[0])
    ensures Split(s) == Split(s[1..])
  {
    var t, k := s[1..], First(s);
    FirstAfterBlank(s, 1);
    if k < |s| {
      assert s[..k + 1][1..] == t[..k];
      TrimLeadingSpace(s[..k + 1]);
      SplitAt(s, k, s[..k + 1], s[k + 1..]);
      SplitAt(t, k - 1, t[..k], s[k + 1..]);
    } else {
      TrimLeadingSpace(s);
      SplitNone(s);
      SplitNone(t);
    }
  }

  lemma SplitStatementFirst(p: string, rest: string)
    requires IsStatement(p)
    ensures Split(p + rest) == [p] + Split(rest)
  {
    var s := p + rest;
    assert s[..|p|] == p && s[|p|..] == rest;
    NextInPrefix(s, |p|, 0, PLAIN);
    SplitAt(s, |p| - 1, p, rest);
  }

  lemma SplitLine(p: string, list: string)
    requires IsStatement(p)
    ensures Split(p + ("\n" + list)) == [p] + Split(list)
  {
    var tail := "\n" + list;
    SplitStatementFirst(p, tail);
    SplitLeadingSpace(tail);
    assert tail[1..] == list;
  }

  lemma SplitSingle(p: string)
    requires IsStatement(p) || IsUnfinished(p)
    ensures Split(p) == [p]
  {
    if IsStatement(p) {
      assert p + "" == p;
      SplitStatementFirst(p, "");
      SplitNone("");
    } else {
      SplitNone(p);
    }
  }

  lemma JoinMore(list: seq<string>)
    requires |list| > 1
    ensures JoinLines(list) == list[0] + ("\n" + JoinLines(list[1..]))
  {
  }

  lemma {:induction false} SplitOfJoined(list: seq<string>)
    requires Listing(list)
    ensures Split(JoinLines(list)) == list
    decreases |list|
  {
    if list == [] {
      SplitNone("");
    } else if |list| == 1 {
      SplitSingle(list[0]);
    } else {
      var p, rest := list[0], list[1..];
      SplitOfJoined(rest);
      JoinMore(list);
      SplitLine(p, JoinLines(rest));
    }
  }

  /** Joining the statements of any script with newlines and splitting again gives the same list. */
  lemma SplittingIsStable(script: string)
    ensures Split(JoinLines(Split(script))) == Split(script)
  {
    SplitLists(script);
    SplitOfJoined(Split(script));
  }

  // ---------------------------------------------------------------- nothing is lost

  /** The characters that are not whitespace. */
  function Ink(s: string): string {
    if s == "" then "" else (if IsSpace(s[0]) then "" else [s[0]]) + Ink(s[1..])
  }

  lemma {:induction false} InkAppend(s: string, t: string)
    ensures Ink(s + t) == Ink(s) + Ink(t)
  {
    if s == "" {
      assert s + t == t;
    } else {
      assert (s + t)[1..] == s[1..] + t;
      InkAppend(s[1..], t);
    }
  }

  lemma {:induction false} InkBlank(s: string)
    requires Blank(s)
    ensures Ink(s) == ""
  {
    if s != "" { InkBlank(s[1..]); }
  }

  lemma InkTrim(s: string)
    ensures Ink(Trim(s)) == Ink(s)
  {
    var b, e := TrimIsCore(s);
    InkBlank(s[..b]);
    InkBlank(s[e..]);
    assert s == s[..b] + s[b..e] + s[e..];
    InkAppend(s[..b] + s[b..e], s[e..]);
    InkAppend(s[..b], s[b..e]);
  }

  lemma InkCons(piece: string, list: seq<string>)
    ensures Ink(Flatten([Trim(piece)] + list)) == Ink(piece) + Ink(Flatten(list))
  {
    assert ([Trim(piece)] + list)[1..] == list;
    InkTrim(piece);
    InkAppend(Trim(piece), Flatten(list));
  }

  /** The statements together hold every character of the script, in order, but for whitespace. */
  lemma {:induction false} SplitConserves(s: string)
    ensures Ink(Flatten(Split(s))) == Ink(s)
    decreases |s|
  {
    var k := First(s);
    if k < |s| {
      var piece, rest := s[..k + 1], s[k + 1..];
      SplitConserves(rest);
      SplitAt(s, k, piece, rest);
      InkCons(piece, Split(rest));
      InkAppend(piece, rest);
      assert s == piece + rest;
    } else {
      InkCons(s, []);
      InkTrim(s);
      assert [Trim(s)] + [] == [Trim(s)];
    }
  }

  // ---------------------------------------------------------------- is the input complete

  /** Some separator has only whitespace after it. */
  ghost predicate EndsInSeparator(s: string) {
    exists i :: 0 <= i < |s| && SeparatorAt(s, i) && Blank(s[i + 1..])
  }

  lemma EndsExactly(s: string)
    ensures EndsInSeparator(s) <==> exists i: nat :: Separator(s, i) && Blank(s[i + 1..])
  {
    forall i: nat | i < |s| ensures SeparatorAt(s, i) <==> Separator(s, i) { SeparatorExactly(s, i); }
    if EndsInSeparator(s) {
      var i :| 0 <= i < |s| && SeparatorAt(s, i) && Blank(s[i + 1..]);
      assert Separator(s, i);
    }
    if i: nat :| Separator(s, i) && Blank(s[i + 1..]) { assert SeparatorAt(s, i); }
  }

  /** The input is complete at a separator with nothing after it, or when it ends in the two
      characters of the go command outside quotes. */
  method CompleteSql(sql: string) returns (complete: bool)
    ensures complete <==>
            || (exists i: nat :: Separator(sql, i) && Blank(sql[i + 1..]))
            || (var t := Trim(sql); OutsideLiterals(sql) && |t| >= 2 && t[|t| - 2..] == "\\g")
  {
    EndsExactly(sql);
    ModeIsWalk(sql, |sql|);
    assert sql[..|sql|] == sql;
    OutsideExactly(sql);
    var q := PLAIN;
    for i := 0 to |sql|
      invariant q == ModeAt(sql, i)
      invariant forall j | 0 <= j < i :: !(SeparatorAt(sql, j) && Blank(sql[j + 1..]))
    {
      var c := sql[i];
      if Separates(q, c) {
        var rest := TrimText(sql[i + 1..]);
        TrimBlank(sql[i + 1..]);
        if rest == "" {
          assert SeparatorAt(sql, i);
          return true;
        }
      }
      q := Step(q, c);
    }
    var stripped := TrimText(sql);
    return !q.single && !q.quoted && |stripped| >= 2 && stripped[|stripped| - 2..] == "\\g";
  }

  lemma {:induction false} FirstIsFirst(s: string, i: nat)
    requires i <= |s|
    ensures var k := NextSeparator(s, i, ModeAt(s, i));
            (forall j | i <= j < k :: !SeparatorAt(s, j)) && (k < |s| ==> SeparatorAt(s, k))
    decreases |s| - i
  {
    if i < |s| && !SeparatorAt(s, i) { FirstIsFirst(s, i + 1); }
  }

  /** The first cut is at the first semicolon with nothing open in front of it. */
  lemma FirstExactly(s: string)
    ensures forall i: nat | i < First(s) :: !Separator(s, i)
    ensures First(s) < |s| ==> Separator(s, First(s))
  {
    FirstIsFirst(s, 0);
    forall i: nat | i < |s| ensures SeparatorAt(s, i) <==> Separator(s, i) { SeparatorExactly(s, i); }
  }

  lemma {:induction false} ModeAfterSeparator(s: string, k: nat, j: nat)
    requires k < |s| && SeparatorAt(s, k) && k + 1 + j <= |s|
    ensures ModeAt(s, k + 1 + j) == ModeAt(s[k + 1..], j)
    decreases j
  {
    if j > 0 { ModeAfterSeparator(s, k, j - 1); }
  }

  lemma EndsInLaterSeparator(s: string, k: nat)
    requires k == First(s) < |s|
    ensures EndsInSeparator(s) <==> Blank(s[k + 1..]) || EndsInSeparator(s[k + 1..])
  {
    FirstIsFirst(s, 0);
    var t := s[k + 1..];
    forall i | 0 <= i < |t| ensures SeparatorAt(s, k + 1 + i) <==> SeparatorAt(t, i)
                            ensures s[k + 1 + i + 1..] == t[i + 1..] {
      ModeAfterSeparator(s, k, i);
    }
    if EndsInSeparator(s) {
      var i :| 0 <= i < |s| && SeparatorAt(s, i) && Blank(s[i + 1..]);
      if i > k { assert SeparatorAt(t, i - k - 1); }
    }
    if EndsInSeparator(t) {
      var i :| 0 <= i < |t| && SeparatorAt(t, i) && Blank(t[i + 1..]);
      assert SeparatorAt(s, k + 1 + i);
    }
  }

  /** The input ends in a separator exactly when splitting finds at least one statement and leaves nothing
      unfinished after the last. */
  lemma {:induction false} CompleteIffNothingLeft(s: string)
    ensures EndsInSeparator(s) <==> Statements(s) != [] && Trim(Residue(s)) == ""
    ensures EndsInSeparator(s) <==> Statements(s) != [] && Split(s) == Statements(s)
    decreases |s|
  {
    var k := First(s);
    SplitParts(s);
    if k == |s| {
      FirstIsFirst(s, 0);
    } else {
      var t := s[k + 1..];
      EndsInLaterSeparator(s, k);
      CompleteIffNothingLeft(t);
      if Blank(t) {
        FirstAfterBlank(t, |t|);
        TrimBlank(t);
      } else if Statements(t) == [] {
        TrimBlank(t);
      }
    }
  }

  // ---------------------------------------------------------------- statements made of atoms

  lemma NextFirst(t: string, q: Mode)
    requires t != "" && !Separates(q, t[0])
    ensures NextSeparator(t, 0, q) == 1 + NextSeparator(t[1..], 0, Step(q, t[0]))
  {
    NextInSuffix(t, 1, 1, Step(q, t[0]));
  }

  lemma {:induction false} SkipBody(w: string, k: char, t: string)
    requires IsMark(k) && Body(w, k)
    ensures NextSeparator(w + t, 0, In(k)) == |w| + NextSeparator(t, 0, In(k))
    decreases |w|
  {
    var s := w + t;
    if w == "" {
      assert s == t;
    } else if w[0] == '\\' {
      NextFirst(s, In(k));
      NextFirst(s[1..], Step(In(k), '\\'));
      assert s[1..][1..] == w[2..] + t;
      SkipBody(w[2..], k, t);
    } else {
      NextFirst(s, In(k));
      assert s[1..] == w[1..] + t;
      SkipBody(w[1..], k, t);
    }
  }

  lemma SkipLiteral(a: string, t: string)
    requires Literal(a)
    ensures First(a + t) == |a| + First(t)
  {
    var k, w := a[0], a[1..|a| - 1];
    var s := a + t;
    NextFirst(s, PLAIN);
    assert s[1..] == w + ([k] + t);
    SkipBody(w, k, [k] + t);
    NextFirst([k] + t, In(k));
    assert ([k] + t)[1..] == t;
  }

  lemma SkipAtom(a: string, t: string)
    requires Atom(a) && a != ";"
    ensures First(a + t) == |a| + First(t)
  {
    var s := a + t;
    if Literal(a) {
      SkipLiteral(a, t);
    } else if |a| == 1 {
      assert a == [a[0]];
      NextFirst(s, PLAIN);
      assert s[1..] == t;
    } else {
      NextFirst(s, PLAIN);
      NextFirst(s[1..], Step(PLAIN, '\\'));
      assert s[1..][1..] == t;
    }
  }

  lemma {:induction false} SkipAtoms(list: seq<string>, t: string)
    requires Atoms(list) && ";" !in list
    ensures First(Flatten(list) + t) == |Flatten(list)| + First(t)
    decreases |list|
  {
    if list == [] {
      assert Flatten(list) + t == t;
    } else {
      var rest := Flatten(list[1..]);
      assert Flatten(list) + t == list[0] + (rest + t);
      SkipAtom(list[0], rest + t);
      SkipAtoms(list[1..], t);
    }
  }

  /** Characters, escaped characters and literals up to a semicolon are one statement, whatever semicolons and marks
      the literals and the escapes hold. */
  lemma StatementOfAtoms(list: seq<string>, rest: string)
    requires Atoms(list) && ";" !in list
    ensures Split(Flatten(list) + ";" + rest) == [Trim(Flatten(list) + ";")] + Split(rest)
  {
    var text := Flatten(list);
    var s := text + ";" + rest;
    assert s == text + (";" + rest);
    SkipAtoms(list, ";" + rest);
    assert First(";" + rest) == 0;
    assert s[..|text| + 1] == text + ";" && s[|text| + 1..] == rest;
    SplitAt(s, |text|, text + ";", rest);
  }

  lemma NoneInside(k: char, w: string, t: string)
    requires IsMark(k) && Body(w, k) && t == [k] + w
    ensures First(t) == |t|
  {
    NextFirst(t, PLAIN);
    assert t[1..] == w && w + "" == w;
    SkipBody(w, k, "");
  }

  /** Behind an open mark nothing separates. */
  lemma OpenLiteral(list: seq<string>, k: char, w: string)
    requires Atoms(list) && ";" !in list && IsMark(k) && Body(w, k)
    ensures Split(Flatten(list) + [k] + w) == [Trim(Flatten(list) + [k] + w)]
  {
    var text, t := Flatten(list), [k] + w;
    var s := text + [k] + w;
    assert s == text + t;
    SkipAtoms(list, t);
    NoneInside(k, w, t);
    SplitNone(s);
    TrimBlank(s);
    assert s[|text|] == k && !IsSpace(k);
  }
}
