/** Character classes and upper-casing as the C locale has them: ASCII letters only. */
module TextCase {

  /** isspace of the C locale: blank, and the five controls from tab to carriage return. */
  predicate IsSpace(c: char) {
    c == ' ' || '\t' <= c <= '\r'
  }

  predicate IsDigit(c: char) {
    '0' <= c <= '9'
  }

  predicate IsWordStart(c: char) {
    'a' <= c <= 'z' || 'A' <= c <= 'Z' || c == '_'
  }

  predicate IsWordChar(c: char) {
    IsWordStart(c) || IsDigit(c)
  }

  function UpperChar(c: char): char {
    if 'a' <= c <= 'z' then (c as int - 32) as char else c
  }

  function ToUpper(text: string): (r: string)
    ensures |r| == |text| && forall k | 0 <= k < |text| :: r[k] == UpperChar(text[k])
  {
    seq(|text|, k requires 0 <= k < |text| => UpperChar(text[k]))
  }

  lemma UpperTwice(text: string)
    ensures ToUpper(ToUpper(text)) == ToUpper(text)
  {
  }

  const LOWER: string := "abcdefghijklmnopqrstuvwxyz"

  const UPPER: string := "ABCDEFGHIJKLMNOPQRSTUVWXYZ"

  lemma Alphabet(k: nat)
    requires k < 26
    ensures LOWER[k] as int == 'a' as int + k && UPPER[k] as int == 'A' as int + k
  {
  }

  lemma InLower(c: char)
    ensures c in LOWER <==> 'a' <= c <= 'z'
  {
    if c in LOWER {
      var k :| 0 <= k < 26 && LOWER[k] == c;
      Alphabet(k);
    }
    if 'a' <= c <= 'z' {
      Alphabet(c as int - 'a' as int);
      assert LOWER[c as int - 'a' as int] == c;
    }
  }

  lemma InUpper(c: char)
    ensures c in UPPER <==> 'A' <= c <= 'Z'
  {
    if c in UPPER {
      var k :| 0 <= k < 26 && UPPER[k] == c;
      Alphabet(k);
    }
    if 'A' <= c <= 'Z' {
      Alphabet(c as int - 'A' as int);
      assert UPPER[c as int - 'A' as int] == c;
    }
  }

  /** Upper-casing maps the small letters to the capital ones, in the order of the alphabet, and leaves the rest. */
  lemma UpperExactly(c: char)
    ensures forall k | 0 <= k < 26 && c == LOWER[k] :: UpperChar(c) == UPPER[k]
    ensures c !in LOWER ==> UpperChar(c) == c
  {
    InLower(c);
    forall k | 0 <= k < 26 && c == LOWER[k] ensures UpperChar(c) == UPPER[k] {
      Alphabet(k);
    }
  }

  /** The classes by their members. */
  lemma ClassesExactly(c: char)
    ensures IsDigit(c) <==> c in "0123456789"
    ensures IsWordStart(c) <==> c in LOWER || c in UPPER || c == '_'
    ensures IsWordChar(c) <==> c in LOWER || c in UPPER || c == '_' || c in "0123456789"
    ensures IsSpace(c) <==> c in [' ', '\t', '\n', '\U{000B}', '\U{000C}', '\r']
  {
    InLower(c);
    InUpper(c);
  }
}
