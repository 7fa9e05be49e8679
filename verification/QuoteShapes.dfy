/** Text with quotes and escapes, by its shapes: single characters, escaped characters and quoted literals. */
module QuoteShapes {
  import opened Common

  predicate IsMark(c: char) {
    c == '\'' || c == '"'
  }

  /** The inside of a literal: characters other than its mark and the backslash, and escaped characters. */
  predicate Body(w: string, k: char)
    decreases |w|
  {
    || w == ""
    || (w[0] != k && w[0] != '\\' && Body(w[1..], k))
    || (w[0] == '\\' && |w| >= 2 && Body(w[2..], k))
  }

  predicate Literal(a: string) {
    |a| >= 2 && IsMark(a[0]) && a[|a| - 1] == a[0] && Body(a[1..|a| - 1], a[0])
  }

  predicate Atom(a: string) {
    || (|a| == 1 && !IsMark(a[0]) && a[0] != '\\')
    || (|a| == 2 && a[0] == '\\')
    || Literal(a)
  }

  ghost predicate Atoms(list: seq<string>) {
    forall a | a in list :: Atom(a)
  }

  /** Nothing is open at the end of the text. */
  ghost predicate Closed(s: string) {
    exists list :: Atoms(list) && Flatten(list) == s
  }

  /** The end of the text is not inside a literal; it may be behind a backslash. */
  ghost predicate OutsideLiterals(s: string) {
    Closed(s) || (s != "" && s[|s| - 1] == '\\' && Closed(s[..|s| - 1]))
  }

  /** The place is a semicolon with nothing open in front of it. */
  ghost predicate Separator(s: string, i: nat) {
    i < |s| && s[i] == ';' && Closed(s[..i])
  }

  lemma ClosedEmpty()
    ensures Closed("")
  {
    assert Atoms([]) && Flatten<char>([]) == "";
  }

  lemma ClosedAppend(s: string, a: string)
    requires Closed(s) && Atom(a)
    ensures Closed(s + a)
  {
    var list :| Atoms(list) && Flatten(list) == s;
    FlattenAppend(list, a);
    assert Atoms(list + [a]);
  }

  lemma {:induction false} BodyAppend(w: string, c: char, k: char)
    requires Body(w, k) && c != k && c != '\\'
    ensures Body(w + [c], k)
    decreases |w|
  {
    if w == "" {
      assert (w + [c])[1..] == "";
    } else if w[0] == '\\' {
      assert (w + [c])[2..] == w[2..] + [c];
      BodyAppend(w[2..], c, k);
    } else {
      assert (w + [c])[1..] == w[1..] + [c];
      BodyAppend(w[1..], c, k);
    }
  }

  lemma {:induction false} BodyEscape(w: string, c: char, k: char)
    requires Body(w, k)
    ensures Body(w + ['\\', c], k)
    decreases |w|
  {
    var e := ['\\', c];
    if w == "" {
      assert (w + e)[2..] == "";
    } else if w[0] == '\\' {
      assert (w + e)[2..] == w[2..] + e;
      BodyEscape(w[2..], c, k);
    } else {
      assert (w + e)[1..] == w[1..] + e;
      BodyEscape(w[1..], c, k);
    }
  }
}
