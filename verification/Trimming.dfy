/** Stripping whitespace from both ends of a text. */
module Trimming {
  import opened TextCase

  ghost predicate Blank(text: string) {
    forall c | c in text :: IsSpace(c)
  }

  function SkipSpaces(text: string, i: nat): (b: nat)
    requires i <= |text|
    ensures i <= b <= |text|
    decreases |text| - i
  {
    if i < |text| && IsSpace(text[i]) then SkipSpaces(text, i + 1) else i
  }

  function DropSpaces(text: string, b: nat, e: nat): (r: nat)
    requires b <= e <= |text|
    ensures b <= r <= e
  {
    if b < e && IsSpace(text[e - 1]) then DropSpaces(text, b, e - 1) else e
  }

  function Trim(text: string): string {
    var b := SkipSpaces(text, 0);
    text[b..DropSpaces(text, b, |text|)]
  }

  /** Two indices that move towards each other over whitespace. */
  method TrimText(text: string) returns (r: string)
    ensures r == Trim(text)
  {
    var begin, end := 0, |text|;
    while begin < end && IsSpace(text[begin])
      invariant begin <= end
      invariant SkipSpaces(text, begin) == SkipSpaces(text, 0)
    {
      begin := begin + 1;
    }
    while end > begin && IsSpace(text[end - 1])
      invariant begin <= end <= |text|
      invariant DropSpaces(text, begin, end) == DropSpaces(text, begin, |text|)
    {
      end := end - 1;
    }
    r := text[begin..end];
  }

  /** [b, e) is what is left of the text: only whitespace outside, none at its edges. */
  ghost predicate IsCore(text: string, b: nat, e: nat) {
    && b <= e <= |text|
    && Blank(text[..b]) && Blank(text[e..])
    && (b < e ==> !IsSpace(text[b]) && !IsSpace(text[e - 1]))
  }

  lemma {:induction false} SkipSpacesStops(text: string, i: nat)
    requires i <= |text|
    ensures Blank(text[i..SkipSpaces(text, i)])
    ensures SkipSpaces(text, i) < |text| ==> !IsSpace(text[SkipSpaces(text, i)])
    decreases |text| - i
  {
    if i < |text| && IsSpace(text[i]) { SkipSpacesStops(text, i + 1); }
  }

  lemma {:induction false} DropSpacesStops(text: string, b: nat, e: nat)
    requires b <= e <= |text|
    ensures Blank(text[DropSpaces(text, b, e)..e])
    ensures DropSpaces(text, b, e) > b ==> !IsSpace(text[DropSpaces(text, b, e) - 1])
  {
    if b < e && IsSpace(text[e - 1]) { DropSpacesStops(text, b, e - 1); }
  }

  lemma TrimIsCore(text: string) returns (b: nat, e: nat)
    ensures IsCore(text, b, e) && Trim(text) == text[b..e]
    ensures b == SkipSpaces(text, 0)
  {
    b := SkipSpaces(text, 0);
    e := DropSpaces(text, b, |text|);
    SkipSpacesStops(text, 0);
    DropSpacesStops(text, b, |text|);
  }

  lemma OutsideCore(text: string, b: nat, e: nat)
    requires IsCore(text, b, e)
    ensures forall p | 0 <= p < |text| && !(b <= p < e) :: IsSpace(text[p])
  {
    forall p | 0 <= p < |text| && !(b <= p < e) ensures IsSpace(text[p]) {
      if p < b { assert text[..b][p] == text[p]; } else { assert text[e..][p - e] == text[p]; }
    }
  }

  /** The core of a text is unique, so `Trim` is the only function that strips both ends. */
  lemma TrimUnique(text: string, b: nat, e: nat)
    requires IsCore(text, b, e)
    ensures Trim(text) == text[b..e]
  {
    var b', e' := TrimIsCore(text);
    OutsideCore(text, b, e);
    OutsideCore(text, b', e');
  }

  lemma TrimKeepsCore(text: string)
    requires text != "" ==> !IsSpace(text[0]) && !IsSpace(text[|text| - 1])
    ensures Trim(text) == text
  {
    TrimUnique(text, 0, |text|);
  }

  lemma TrimTwice(text: string)
    ensures Trim(Trim(text)) == Trim(text)
  {
    var b, e := TrimIsCore(text);
    TrimKeepsCore(text[b..e]);
  }

  lemma TrimBlank(text: string)
    ensures Trim(text) == "" <==> Blank(text)
  {
    var b, e := TrimIsCore(text);
    if b == e { assert text == text[..b] + text[e..]; } else { assert text[b] in text; }
  }
}
