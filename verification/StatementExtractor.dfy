/** Finding the one statement of a buffer that holds the cursor. */
module StatementExtractor {
  import opened Common
  import opened SqlScanner
  import opened SqlScannerLaws

  datatype StatementSlice = StatementSlice(begin: nat, end: nat, found: bool)

  predicate IsSeparator(t: Token) {
    t.kind.Symbol? && t.text == ";"
  }

  /** A separator is a token that starts with a semicolon. */
  lemma SeparatorExactly(sql: string, t: Token)
    requires t in Scan(sql)
    ensures t.begin < |sql| && (IsSeparator(t) <==> sql[t.begin] == ';')
  {
    TokensAreLexed(sql, 0, t);
    if t.text == ";" { assert t.text[0] == sql[t.begin]; }
    if t.begin + 2 <= |sql| { assert sql[t.begin..t.begin + 2][0] == sql[t.begin]; }
  }

  ghost predicate StartsStatement(sql: string, b: nat) {
    b == 0 || exists t :: t in Scan(sql) && IsSeparator(t) && t.end == b
  }

  ghost predicate EndsStatement(sql: string, e: nat) {
    e == |sql| || exists t :: t in Scan(sql) && IsSeparator(t) && t.begin == e
  }

  /** [b, e) runs from one separator to the next, with none in between. */
  ghost predicate IsStatement(sql: string, b: nat, e: nat) {
    && b <= e <= |sql|
    && StartsStatement(sql, b) && EndsStatement(sql, e)
    && forall t | t in Scan(sql) && IsSeparator(t) :: !(b <= t.begin < e)
  }

  lemma StatementEdges(sql: string, b: nat, e: nat)
    requires IsStatement(sql, b, e)
    ensures b <= e <= |sql| && BetweenTokens(sql, b) && BetweenTokens(sql, e)
  {
    Lossless(sql);
    if b != 0 {
      var t :| t in Scan(sql) && IsSeparator(t) && t.end == b;
      TokenEdges(sql, t);
    }
    if e != |sql| {
      var t :| t in Scan(sql) && IsSeparator(t) && t.begin == e;
      TokenEdges(sql, t);
    }
  }

  lemma NoSeparatorInside(sql: string, b: nat, e: nat, inner: seq<Token>, k: nat)
    requires IsStatement(sql, b, e) && e <= |sql| && k < |inner| && inner[k].begin < e - b
    requires ShiftAll(inner, b)[k] in Scan(sql)
    ensures !IsSeparator(inner[k])
  {
    assert ShiftAll(inner, b)[k] == Shift(inner[k], b);
  }

  /** A statement scanned alone gives exactly the buffer's tokens in its range, moved to its start,
      and none of them is a separator. */
  lemma StatementScansAlone(sql: string, b: nat, e: nat)
    requires IsStatement(sql, b, e)
    ensures Scan(sql) == Scan(sql[..b]) + ShiftAll(Scan(sql[b..e]), b) + ShiftAll(Scan(sql[e..]), e)
    ensures forall t | t in Scan(sql[b..e]) :: !IsSeparator(t)
  {
    StatementEdges(sql, b, e);
    SliceScansAlone(sql, b, e);
    var inner := Scan(sql[b..e]);
    Lossless(sql[b..e]);
    forall t | t in inner ensures !IsSeparator(t) {
      var k :| 0 <= k < |inner| && inner[k] == t;
      assert ShiftAll(inner, b)[k] in Scan(sql);
      NoSeparatorInside(sql, b, e, inner, k);
    }
  }

  /** There is one statement at the cursor, so the slice is determined. */
  lemma StatementIsUnique(sql: string, at: nat, b1: nat, e1: nat, b2: nat, e2: nat)
    requires IsStatement(sql, b1, e1) && b1 <= at <= e1
    requires IsStatement(sql, b2, e2) && b2 <= at <= e2
    ensures b1 == b2 && e1 == e2
  {
    if b1 < b2 {
      StartsAfter(sql, at, b1, e1, b2);
    } else if b2 < b1 {
      StartsAfter(sql, at, b2, e2, b1);
    }
  }

  lemma StartsAfter(sql: string, at: nat, b1: nat, e1: nat, b2: nat)
    requires IsStatement(sql, b1, e1) && b2 <= at <= e1
    requires StartsStatement(sql, b2)
    ensures b2 <= b1
  {
    if b1 < b2 {
      var t :| t in Scan(sql) && IsSeparator(t) && t.end == b2;
      TokenEdges(sql, t);
      assert false;
    }
  }

  function SeparatorsOf(tokens: seq<Token>): seq<nat> {
    if tokens == [] then []
    else
      var last := tokens[|tokens| - 1];
      SeparatorsOf(tokens[..|tokens| - 1]) + (if IsSeparator(last) then [last.begin] else [])
  }

  ghost predicate Ordered(tokens: seq<Token>) {
    && (forall k | 0 <= k < |tokens| :: tokens[k].begin < tokens[k].end)
    && (forall j, k | 0 <= j < k < |tokens| :: tokens[j].end <= tokens[k].begin)
  }

  ghost predicate SeparatorAt(tokens: seq<Token>, p: nat) {
    exists k :: 0 <= k < |tokens| && IsSeparator(tokens[k]) && tokens[k].begin == p
  }

  lemma SeparatorAtLast(tokens: seq<Token>, p: nat)
    requires tokens != []
    ensures var n := |tokens| - 1;
            SeparatorAt(tokens, p) <==> SeparatorAt(tokens[..n], p) || (IsSeparator(tokens[n]) && tokens[n].begin == p)
  {
    var n := |tokens| - 1;
    var init := tokens[..n];
    if SeparatorAt(init, p) {
      var k :| 0 <= k < |init| && IsSeparator(init[k]) && init[k].begin == p;
      assert tokens[k] == init[k];
    }
    if SeparatorAt(tokens, p) {
      var k :| 0 <= k < |tokens| && IsSeparator(tokens[k]) && tokens[k].begin == p;
      if k < n { assert init[k] == tokens[k]; }
    }
  }

  lemma {:induction false} SeparatorsFound(tokens: seq<Token>)
    ensures forall p :: p in SeparatorsOf(tokens) <==> SeparatorAt(tokens, p)
  {
    if tokens == [] {
    } else {
      SeparatorsFound(tokens[..|tokens| - 1]);
      forall p ensures p in SeparatorsOf(tokens) <==> SeparatorAt(tokens, p) {
        SeparatorAtLast(tokens, p);
      }
    }
  }

  lemma {:induction false} SeparatorsListed(tokens: seq<Token>)
    requires Ordered(tokens)
    ensures forall i, j | 0 <= i < j < |SeparatorsOf(tokens)| :: SeparatorsOf(tokens)[i] < SeparatorsOf(tokens)[j]
    ensures forall p :: p in SeparatorsOf(tokens) <==> SeparatorAt(tokens, p)
  {
    SeparatorsFound(tokens);
    if tokens == [] {
    } else {
      var n := |tokens| - 1;
      var init := tokens[..n];
      SeparatorsListed(init);
      forall p | p in SeparatorsOf(init) ensures p < tokens[n].begin {
        var k :| 0 <= k < |init| && IsSeparator(init[k]) && init[k].begin == p;
        assert tokens[k].end <= tokens[n].begin;
      }
      var all := SeparatorsOf(tokens);
      forall i, j | 0 <= i < j < |all| ensures all[i] < all[j] {
        assert all[i] in SeparatorsOf(init);
      }
    }
  }

  function StatementBegin(separators: seq<nat>, j: nat): nat
    requires j <= |separators|
  {
    if j == 0 then 0 else separators[j - 1] + 1
  }

  function StatementEnd(sql: string, separators: seq<nat>, j: nat): nat
    requires j <= |separators|
  {
    if j == |separators| then |sql| else separators[j]
  }

  lemma SeparatorPositions(sql: string)
    ensures forall i, j | 0 <= i < j < |SeparatorsOf(Scan(sql))| ::
              SeparatorsOf(Scan(sql))[i] < SeparatorsOf(Scan(sql))[j]
    ensures forall p | p in SeparatorsOf(Scan(sql)) ::
              exists t :: t in Scan(sql) && IsSeparator(t) && t.begin == p && t.end == p + 1 <= |sql|
    ensures forall t | t in Scan(sql) && IsSeparator(t) :: t.begin in SeparatorsOf(Scan(sql))
  {
    Lossless(sql);
    var tokens := Scan(sql);
    SeparatorsListed(tokens);
    forall p | p in SeparatorsOf(tokens)
      ensures exists t :: t in tokens && IsSeparator(t) && t.begin == p && t.end == p + 1 <= |sql|
    {
      assert SeparatorAt(tokens, p);
      var k :| 0 <= k < |tokens| && IsSeparator(tokens[k]) && tokens[k].begin == p;
      assert tokens[k] in tokens && |tokens[k].text| == 1;
    }
    forall t | t in tokens && IsSeparator(t) ensures SeparatorAt(tokens, t.begin) {
      var k :| 0 <= k < |tokens| && tokens[k] == t;
    }
  }

  /** The stretch between two neighbouring separators is a statement. */
  lemma BetweenSeparators(sql: string, separators: seq<nat>, j: nat)
    requires separators == SeparatorsOf(Scan(sql)) && j <= |separators|
    ensures IsStatement(sql, StatementBegin(separators, j), StatementEnd(sql, separators, j))
  {
    SeparatorPositions(sql);
    if j > 0 { assert separators[j - 1] in separators; }
    if j < |separators| { assert separators[j] in separators; }
  }

  method CollectSeparators(sql: string) returns (separators: seq<nat>)
    ensures separators == SeparatorsOf(Scan(sql))
  {
    var tokens := ScanSqlText(sql);
    separators := [];
    for k := 0 to |tokens|
      invariant separators == SeparatorsOf(tokens[..k])
    {
      assert tokens[..k + 1][..k] == tokens[..k];
      if IsSeparator(tokens[k]) {
        separators := separators + [tokens[k].begin];
      }
    }
    assert tokens[..|tokens|] == tokens;
  }

  /** The slice is the statement at the clamped cursor. */
  method FindStatementAtCursor(sql: string, cursor: nat) returns (slice: StatementSlice)
    ensures slice.found
    ensures slice.begin <= Min(cursor, |sql|) <= slice.end
    ensures IsStatement(sql, slice.begin, slice.end)
  {
    var at := Min(cursor, |sql|);
    var separators := CollectSeparators(sql);
    var begin := 0;
    for j := 0 to |separators|
      invariant begin <= at
      invariant begin == StatementBegin(separators, j)
    {
      if at <= separators[j] {
        BetweenSeparators(sql, separators, j);
        return StatementSlice(begin, separators[j], true);
      }
      begin := separators[j] + 1;
    }
    BetweenSeparators(sql, separators, |separators|);
    return StatementSlice(begin, |sql|, true);
  }
}
