/** White space, trimming and digits, as JavaScript's strings have them. */
module Text {
  /** ECMAScript white space and line terminators. */
  predicate IsSpace(c: char) {
    || '\U{0009}' <= c <= '\U{000D}' || c == ' ' || c == '\U{00A0}' || c == '\U{1680}'
    || '\U{2000}' <= c <= '\U{200A}' || c == '\U{2028}' || c == '\U{2029}' || c == '\U{202F}'
    || c == '\U{205F}' || c == '\U{3000}' || c == '\U{FEFF}'
  }

  predicate AllSpace(s: string) {
    forall i :: 0 <= i < |s| ==> IsSpace(s[i])
  }

  function TrimStart(s: string): string {
    if s != "" && IsSpace(s[0]) then TrimStart(s[1..]) else s
  }

  function TrimEnd(s: string): string {
    if s != "" && IsSpace(s[|s| - 1]) then TrimEnd(s[..|s| - 1]) else s
  }

  function Trim(s: string): string {
    TrimEnd(TrimStart(s))
  }

  predicate IsTrimmed(s: string) {
    s == "" || (!IsSpace(s[0]) && !IsSpace(s[|s| - 1]))
  }

  /** What trimming cuts off at the front. */
  lemma {:induction false} TrimStartSplits(s: string) returns (lead: string)
    ensures s == lead + TrimStart(s) && AllSpace(lead)
    ensures TrimStart(s) != "" ==> !IsSpace(TrimStart(s)[0])
  {
    if s != "" && IsSpace(s[0]) {
      var rest := TrimStartSplits(s[1..]);
      lead := [s[0]] + rest;
    } else {
      lead := "";
    }
  }

  lemma {:induction false} TrimEndSplits(s: string) returns (tail: string)
    ensures s == TrimEnd(s) + tail && AllSpace(tail)
    ensures TrimEnd(s) != "" ==> !IsSpace(TrimEnd(s)[|TrimEnd(s)| - 1])
  {
    if s != "" && IsSpace(s[|s| - 1]) {
      var rest := TrimEndSplits(s[..|s| - 1]);
      tail := rest + [s[|s| - 1]];
    } else {
      tail := "";
    }
  }

  /** Trimming cuts white space off both ends and leaves none there. */
  lemma TrimSplits(s: string) returns (lead: string, tail: string)
    ensures s == lead + Trim(s) + tail && AllSpace(lead) && AllSpace(tail) && IsTrimmed(Trim(s))
  {
    lead := TrimStartSplits(s);
    tail := TrimEndSplits(TrimStart(s));
    assert Trim(s) != "" ==> Trim(s)[0] == TrimStart(s)[0];
  }

  lemma TrimTrimmed(s: string)
    requires IsTrimmed(s)
    ensures Trim(s) == s
  {
  }

  lemma {:induction false} TrimLead(lead: string, s: string)
    requires AllSpace(lead)
    ensures TrimStart(lead + s) == TrimStart(s)
  {
    if lead == "" {
      assert lead + s == s;
    } else {
      assert (lead + s)[0] == lead[0] && (lead + s)[1..] == lead[1..] + s;
      TrimLead(lead[1..], s);
    }
  }

  /** White space in front makes no difference to a trimmed text. */
  lemma TrimAfterLead(lead: string, s: string)
    requires AllSpace(lead)
    ensures Trim(lead + s) == Trim(s)
  {
    TrimLead(lead, s);
  }

  /** Every character of a trimmed text comes from the text. */
  lemma TrimTakes(s: string)
    ensures forall i :: 0 <= i < |Trim(s)| ==> Trim(s)[i] in s
  {
    var lead, tail := TrimSplits(s);
    assert forall i :: 0 <= i < |Trim(s)| ==> s[|lead| + i] == Trim(s)[i];
  }

  /** A text that starts with anything but space keeps its start. */
  lemma TrimKeepsHead(s: string)
    requires s != "" && !IsSpace(s[0])
    ensures Trim(s) != "" && Trim(s)[0] == s[0]
  {
    var tail := TrimEndSplits(s);
    assert TrimEnd(s) == "" ==> s == tail;
  }

  /** Arabic-Indic and Persian digits to Latin. */
  function LatinDigit(c: char): char {
    if '\U{0660}' <= c <= '\U{0669}' then '0' + (c as int - 0x0660) as char
    else if '\U{06F0}' <= c <= '\U{06F9}' then '0' + (c as int - 0x06F0) as char
    else c
  }

  function LatinDigits(s: string): (r: string)
    ensures |r| == |s| && forall i :: 0 <= i < |r| ==> r[i] == LatinDigit(s[i])
  {
    if s == "" then "" else [LatinDigit(s[0])] + LatinDigits(s[1..])
  }
}
