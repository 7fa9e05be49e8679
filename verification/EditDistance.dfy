/** The edit distance that maps a mistyped client command to its nearest candidates. */
module EditDistance {

  // ---------------------------------------------------------------- edit scripts

  /** What happens to one character on the way from the left text to the right one. */
  datatype Edit = Keep(c: char) | Substitute(before: char, after: char) | Insert(c: char) | Delete(c: char)

  function Left(script: seq<Edit>): string {
    if script == [] then ""
    else
      var rest := Left(script[..|script| - 1]);
      match script[|script| - 1]
      case Keep(c) => rest + [c]
      case Substitute(before, _) => rest + [before]
      case Insert(_) => rest
      case Delete(c) => rest + [c]
  }

  function Right(script: seq<Edit>): string {
    if script == [] then ""
    else
      var rest := Right(script[..|script| - 1]);
      match script[|script| - 1]
      case Keep(c) => rest + [c]
      case Substitute(_, after) => rest + [after]
      case Insert(c) => rest + [c]
      case Delete(_) => rest
  }

  function Cost(script: seq<Edit>): nat {
    if script == [] then 0 else Cost(script[..|script| - 1]) + (if script[|script| - 1].Keep? then 0 else 1)
  }

  ghost predicate Edits(script: seq<Edit>, left: string, right: string) {
    Left(script) == left && Right(script) == right
  }

  // ---------------------------------------------------------------- the recurrence

  function Min3(a: nat, b: nat, c: nat): nat {
    if a <= b && a <= c then a else if b <= c then b else c
  }

  function Init(s: string): string
    requires s != ""
  {
    s[..|s| - 1]
  }

  function Last(s: string): char
    requires s != ""
  {
    s[|s| - 1]
  }

  function Distance(a: string, b: string): nat
    decreases |a| + |b|
  {
    if a == "" then |b|
    else if b == "" then |a|
    else Min3(Distance(Init(a), b) + 1, Distance(a, Init(b)) + 1,
              Distance(Init(a), Init(b)) + (if Last(a) == Last(b) then 0 else 1))
  }

  ghost predicate HoldsRow(row: array<nat>, left: string, right: string)
    reads row
  {
    row.Length == |right| + 1 && forall c | 0 <= c <= |right| :: IsDistance(row[c], left, right[..c])
  }

  predicate IsDistance(d: nat, a: string, b: string) {
    d == Distance(a, b)
  }

  function Mismatch(x: char, y: char): nat {
    if x == y then 0 else 1
  }

  lemma DistanceStep(a: string, b: string, diagonal: nat, above: nat, before: nat)
    requires a != "" && b != "" && IsDistance(diagonal, Init(a), Init(b))
    requires IsDistance(above, Init(a), b) && IsDistance(before, a, Init(b))
    ensures IsDistance(Min3(above + 1, before + 1, diagonal + Mismatch(Last(a), Last(b))), a, b)
  {
  }

  lemma PrefixInit(s: string, n: nat)
    requires 1 <= n <= |s|
    ensures s[..n] != "" && Init(s[..n]) == s[..n - 1] && Last(s[..n]) == s[n - 1]
  {
  }

  /** One cell from its three neighbours. */
  method FillCell(left: string, right: string, row: nat, column: nat, diagonal: nat, above: nat, before: nat)
      returns (cell: nat)
    requires 1 <= row <= |left| && 1 <= column <= |right|
    requires IsDistance(diagonal, left[..row - 1], right[..column - 1])
    requires IsDistance(above, left[..row - 1], right[..column])
    requires IsDistance(before, left[..row], right[..column - 1])
    ensures IsDistance(cell, left[..row], right[..column])
  {
    PrefixInit(left, row);
    PrefixInit(right, column);
    DistanceStep(left[..row], right[..column], diagonal, above, before);
    var substitution := diagonal + Mismatch(left[row - 1], right[column - 1]);
    cell := Min3(above + 1, before + 1, substitution);
  }

  /** One row of the table from the row before it. */
  method FillRow(left: string, right: string, row: nat, previous: array<nat>, current: array<nat>)
    requires 1 <= row <= |left| && previous != current && current.Length == |right| + 1
    requires HoldsRow(previous, left[..row - 1], right)
    modifies current
    ensures HoldsRow(current, left[..row], right)
  {
    current[0] := row;
    for column := 1 to |right| + 1
      invariant HoldsRow(previous, left[..row - 1], right)
      invariant forall c | 0 <= c < column :: IsDistance(current[c], left[..row], right[..c])
    {
      var cell := FillCell(left, right, row, column, previous[column - 1], previous[column], current[column - 1]);
      current[column] := cell;
    }
  }

  /** Two rows of the table, swapped after each row. */
  method ComputeDistance(left: string, right: string) returns (d: nat)
    ensures d == Distance(left, right)
  {
    var n := |right|;
    var previous, current := new nat[n + 1], new nat[n + 1];
    for column := 0 to n + 1
      invariant forall c | 0 <= c < column :: previous[c] == c
    {
      previous[column] := column;
    }
    for row := 1 to |left| + 1
      invariant previous != current && current.Length == n + 1
      invariant fresh(previous) && fresh(current)
      invariant HoldsRow(previous, left[..row - 1], right)
    {
      FillRow(left, right, row, previous, current);
      previous, current := current, previous;
    }
    assert left[..|left|] == left && right[..n] == right;
    return previous[n];
  }

  lemma Extend(script: seq<Edit>, e: Edit)
    ensures Left(script + [e]) == Left(script) + (match e case Keep(c) => [c] case Substitute(x, _) => [x]
              case Insert(_) => [] case Delete(c) => [c])
    ensures Right(script + [e]) == Right(script) + (match e case Keep(c) => [c] case Substitute(_, x) => [x]
              case Insert(c) => [c] case Delete(_) => [])
    ensures Cost(script + [e]) == Cost(script) + (if e.Keep? then 0 else 1)
  {
    assert (script + [e])[..|script|] == script;
  }

  /** No script is cheaper than the distance. */
  lemma {:induction false} NoCheaperScript(script: seq<Edit>)
    ensures Distance(Left(script), Right(script)) <= Cost(script)
  {
    if script == [] {
    } else {
      var init, e := script[..|script| - 1], script[|script| - 1];
      assert script == init + [e];
      NoCheaperScript(init);
      Extend(init, e);
      OneEdit(Left(init), Right(init), e);
    }
  }

  lemma OneEdit(a: string, b: string, e: Edit)
    ensures e.Keep? ==> Distance(a + [e.c], b + [e.c]) <= Distance(a, b)
    ensures e.Substitute? ==> Distance(a + [e.before], b + [e.after]) <= Distance(a, b) + 1
    ensures e.Insert? ==> Distance(a, b + [e.c]) <= Distance(a, b) + 1
    ensures e.Delete? ==> Distance(a + [e.c], b) <= Distance(a, b) + 1
  {
    match e
    case Keep(c) => assert Init(a + [c]) == a && Init(b + [c]) == b;
    case Substitute(x, y) => assert Init(a + [x]) == a && Init(b + [y]) == b;
    case Insert(c) => assert Init(b + [c]) == b;
    case Delete(c) => assert Init(a + [c]) == a;
  }

  lemma Append(rest: seq<Edit>, e: Edit, a: string, b: string) returns (script: seq<Edit>)
    requires match e
             case Keep(c) => a != "" && b != "" && Last(a) == Last(b) == c && Edits(rest, Init(a), Init(b))
             case Substitute(x, y) => a != "" && b != "" && Last(a) == x && Last(b) == y
               && Edits(rest, Init(a), Init(b))
             case Insert(c) => b != "" && Last(b) == c && Edits(rest, a, Init(b))
             case Delete(c) => a != "" && Last(a) == c && Edits(rest, Init(a), b)
    ensures Edits(script, a, b) && Cost(script) == Cost(rest) + (if e.Keep? then 0 else 1)
  {
    script := rest + [e];
    Extend(rest, e);
    if !e.Insert? { LastBack(a); }
    if !e.Delete? { LastBack(b); }
  }

  lemma LastBack(s: string)
    requires s != ""
    ensures Init(s) + [Last(s)] == s
  {
  }

  /** Some script costs exactly the distance. */
  lemma {:induction false} BestScript(a: string, b: string) returns (script: seq<Edit>)
    ensures Edits(script, a, b) && Cost(script) == Distance(a, b)
    decreases |a| + |b|
  {
    var d := Distance(a, b);
    if a == "" && b == "" {
      script := [];
    } else if a == "" || (b != "" && d == Distance(a, Init(b)) + 1) {
      var rest := BestScript(a, Init(b));
      script := Append(rest, Insert(Last(b)), a, b);
    } else if b == "" || d == Distance(Init(a), b) + 1 {
      var rest := BestScript(Init(a), b);
      script := Append(rest, Delete(Last(a)), a, b);
    } else {
      var rest := BestScript(Init(a), Init(b));
      script := Append(rest, if Last(a) == Last(b) then Keep(Last(a)) else Substitute(Last(a), Last(b)), a, b);
    }
  }

  /** The distance is the least cost over all scripts from one text to the other. */
  lemma DistanceIsLeastCost(a: string, b: string)
    ensures exists script :: Edits(script, a, b) && Cost(script) == Distance(a, b)
    ensures forall script | Edits(script, a, b) :: Distance(a, b) <= Cost(script)
  {
    var best := BestScript(a, b);
    forall script | Edits(script, a, b) ensures Distance(a, b) <= Cost(script) {
      NoCheaperScript(script);
    }
  }

  // ---------------------------------------------------------------- a metric

  function Flip(e: Edit): Edit {
    match e
    case Keep(c) => Keep(c)
    case Substitute(x, y) => Substitute(y, x)
    case Insert(c) => Delete(c)
    case Delete(c) => Insert(c)
  }

  lemma {:induction false} Inverse(script: seq<Edit>) returns (r: seq<Edit>)
    ensures Edits(r, Right(script), Left(script)) && Cost(r) == Cost(script)
  {
    if script == [] {
      r := [];
    } else {
      var rest := Inverse(script[..|script| - 1]);
      r := rest + [Flip(script[|script| - 1])];
      Extend(rest, Flip(script[|script| - 1]));
    }
  }

  /** Doing one script and then the other, in one script that costs no more than both. */
  lemma {:induction false} Compose(s: seq<Edit>, t: seq<Edit>) returns (u: seq<Edit>)
    requires Right(s) == Left(t)
    ensures Edits(u, Left(s), Right(t)) && Cost(u) <= Cost(s) + Cost(t)
    decreases |s| + |t|
  {
    if s == [] {
      u := t;
      return;
    }
    if t == [] {
      u := s;
      return;
    }
    var s0, e := s[..|s| - 1], s[|s| - 1];
    var t0, f := t[..|t| - 1], t[|t| - 1];
    assert s == s0 + [e] && t == t0 + [f];
    Extend(s0, e);
    Extend(t0, f);
    if e.Delete? {
      var rest := Compose(s0, t);
      u := rest + [e];
      Extend(rest, e);
    } else if f.Insert? {
      var rest := Compose(s, t0);
      u := rest + [f];
      Extend(rest, f);
    } else {
      assert Init(Right(s)) == Right(s0) && Init(Left(t)) == Left(t0);
      var rest := Compose(s0, t0);
      u := rest + Join(e, f);
      if Join(e, f) == [] { assert u == rest; } else { Extend(rest, Join(e, f)[0]); }
    }
  }

  /** The effect of two edits on one character. */
  function Join(e: Edit, f: Edit): seq<Edit>
    requires !e.Delete? && !f.Insert?
  {
    match (e, f)
    case (Keep(_), _) => [f]
    case (_, Keep(_)) => [e]
    case (Substitute(x, _), Substitute(_, y)) => [Substitute(x, y)]
    case (Substitute(x, _), Delete(_)) => [Delete(x)]
    case (Insert(_), Substitute(_, y)) => [Insert(y)]
    case (Insert(_), Delete(_)) => []
  }

  lemma {:induction false} Symmetric(a: string, b: string)
    ensures Distance(a, b) == Distance(b, a)
  {
    var s := BestScript(a, b);
    var s' := Inverse(s);
    NoCheaperScript(s');
    var t := BestScript(b, a);
    var t' := Inverse(t);
    NoCheaperScript(t');
  }

  lemma {:induction false} Triangle(a: string, b: string, c: string)
    ensures Distance(a, c) <= Distance(a, b) + Distance(b, c)
  {
    var s := BestScript(a, b);
    var t := BestScript(b, c);
    var u := Compose(s, t);
    NoCheaperScript(u);
  }

  lemma {:induction false} FreeScript(script: seq<Edit>)
    requires Cost(script) == 0
    ensures Left(script) == Right(script)
  {
    if script != [] { FreeScript(script[..|script| - 1]); }
  }

  lemma {:induction false} SelfDistance(a: string)
    ensures Distance(a, a) == 0
  {
    if a != "" { SelfDistance(Init(a)); }
  }

  /** Only equal texts have distance zero. */
  lemma {:induction false} ZeroOnlyIfEqual(a: string, b: string)
    ensures Distance(a, b) == 0 <==> a == b
  {
    var s := BestScript(a, b);
    if Distance(a, b) == 0 { FreeScript(s); }
    SelfDistance(a);
  }

  // ---------------------------------------------------------------- what is counted

  /** A script costs as much as it has edits that are not keeps. */
  lemma {:induction false} CostIsCount(script: seq<Edit>)
    ensures Cost(script) == |set i: nat | i < |script| && !script[i].Keep?|
    decreases |script|
  {
    if script == [] {
      assert (set i: nat | i < |script| && !script[i].Keep?) == {};
    } else {
      var n := |script| - 1;
      var init := script[..n];
      CostIsCount(init);
      assert script == init + [script[n]];
      Extend(init, script[n]);
      var below := set i: nat | i < n && !init[i].Keep?;
      assert (set i: nat | i < |script| && !script[i].Keep?) == below + (if script[n].Keep? then {} else {n});
    }
  }

  /** Different letters in the same surroundings are one edit apart, ... */
  lemma OneLetter(a: string, x: char, y: char)
    requires x != y
    ensures Distance(a + [x], a + [y]) == 1
  {
    ZeroOnlyIfEqual(a, a);
    var p, q := a + [x], a + [y];
    assert Init(p) == a && Init(q) == a && Last(p) == x && Last(q) == y;
    ZeroOnlyIfEqual(p, q);
    assert p[|a|] != q[|a|];
  }

  /** ... and so is a text from the same text with a letter more. */
  lemma OneMoreLetter(a: string, x: char)
    ensures Distance(a, a + [x]) == 1
  {
    ZeroOnlyIfEqual(a, a);
    var q := a + [x];
    assert Init(q) == a && Last(q) == x;
    ZeroOnlyIfEqual(a, q);
    assert |a| != |q|;
  }
}
