/**
 * Turning a product title, Arabic words and all, into an address.
 *
 * The title passes through a chain of replacements. What they amount to is said
 * once, independently: the words of the folded text joined by single hyphens, cut
 * at the longest length a slug may have.
 */
module LatinSlug {
  import opened Options
  import opened Slugs
  import opened Text

  // --- the chain of replacements ------------------------------------------------------

  /** How many characters at the front satisfy a class. */
  function RunLength(s: string, kind: char -> bool): (n: nat)
    ensures n <= |s| && (forall i :: 0 <= i < n ==> kind(s[i])) && (n < |s| ==> !kind(s[n]))
  {
    if s != "" && kind(s[0]) then 1 + RunLength(s[1..], kind) else 0
  }

  /** How many characters at the front do not. */
  function GapLength(s: string, kind: char -> bool): (n: nat)
    ensures n <= |s| && (forall i :: 0 <= i < n ==> !kind(s[i])) && (n < |s| ==> kind(s[n]))
  {
    if s != "" && !kind(s[0]) then 1 + GapLength(s[1..], kind) else 0
  }

  /** Every run of characters outside a class becomes one mark. */
  function ReplaceRuns(s: string, keep: char -> bool, mark: char): string
    decreases |s|
  {
    if s == "" then ""
    else if keep(s[0]) then [s[0]] + ReplaceRuns(s[1..], keep, mark)
    else [mark] + ReplaceRuns(s[GapLength(s, keep)..], keep, mark)
  }

  function DropMarks(s: string): string {
    if s == "" then ""
    else (if '\U{0300}' <= s[0] <= '\U{036F}' then [] else [s[0]]) + DropMarks(s[1..])
  }

  function TrimDashesEnd(s: string): string {
    if s != "" && s[|s| - 1] == '-' then TrimDashesEnd(s[..|s| - 1]) else s
  }

  function TrimDashesStart(s: string): string {
    if s != "" && s[0] == '-' then TrimDashesStart(s[1..]) else s
  }

  /** A single hyphen comes out as it went in, a longer run as one. */
  function CollapseDashes(s: string): string {
    ReplaceRuns(s, c => c != '-', '-')
  }

  /** The Unicode steps the language supplies: decomposition, the kept scripts, lower case. */
  datatype Unicode = Unicode(decompose: string -> string, kept: char -> bool, lower: string -> string)

  function Folded(u: Unicode, input: string): string {
    u.lower(ReplaceRuns(DropMarks(u.decompose(LatinDigits(input))), u.kept, ' '))
  }

  function Dashed(text: string): string {
    CollapseDashes(TrimDashesEnd(TrimDashesStart(ReplaceRuns(text, IsSlugChar, '-'))))
  }

  function Cut(latin: string): Option<string> {
    if |latin| < 2 then None
    else Some(TrimDashesEnd(if |latin| > SLUG_MAX then latin[..SLUG_MAX] else latin))
  }

  function ToLatinSlug(u: Unicode, input: string): Option<string> {
    Cut(Dashed(Folded(u, input)))
  }

  // --- what it amounts to -------------------------------------------------------------

  predicate IsWord(w: string) {
    w != "" && forall i :: 0 <= i < |w| ==> IsSlugChar(w[i])
  }

  predicate AreWords(words: seq<string>) {
    forall i :: 0 <= i < |words| ==> IsWord(words[i])
  }

  /** The maximal runs of slug characters, in order. */
  function Words(text: string): (r: seq<string>)
    ensures AreWords(r)
    decreases |text|
  {
    if text == "" then []
    else if IsSlugChar(text[0]) then
      var n := RunLength(text, IsSlugChar);
      [text[..n]] + Words(text[n..])
    else Words(text[1..])
  }

  function Joined(words: seq<string>): string {
    if words == [] then ""
    else if |words| == 1 then words[0]
    else words[0] + "-" + Joined(words[1..])
  }

  /** Words made of slug characters join into a slug, whatever its length. */
  lemma {:induction false} JoinedIsGroups(words: seq<string>)
    requires words != [] && AreWords(words)
    ensures SlugGroups(Joined(words))
    decreases |words|
  {
    if |words| > 1 {
      var rest := Joined(words[1..]);
      JoinedIsGroups(words[1..]);
      assert IsWord(words[0]);
      var n, s := |words[0]|, words[0] + "-" + rest;
      assert forall i :: n < i < |s| ==> s[i] == rest[i - n - 1];
    } else {
      assert IsWord(words[0]);
    }
  }

  // --- the replacements one by one ----------------------------------------------------

  /** A run of kept characters passes through unchanged. */
  lemma {:induction false} KeptRun(a: string, b: string, keep: char -> bool, mark: char)
    requires forall i :: 0 <= i < |a| ==> keep(a[i])
    ensures ReplaceRuns(a + b, keep, mark) == a + ReplaceRuns(b, keep, mark)
    decreases |a|
  {
    if a == "" {
      assert a + b == b;
    } else {
      assert (a + b)[0] == a[0] && (a + b)[1..] == a[1..] + b;
      KeptRun(a[1..], b, keep, mark);
      assert a + ReplaceRuns(b, keep, mark) == [a[0]] + (a[1..] + ReplaceRuns(b, keep, mark));
    }
  }

  /** Where every unkept character is already a lone mark, nothing changes. */
  lemma {:induction false} LoneMarks(s: string, keep: char -> bool, mark: char)
    requires forall i :: 0 <= i < |s| && !keep(s[i]) ==> s[i] == mark
    requires forall i :: 0 <= i < |s| - 1 ==> keep(s[i]) || keep(s[i + 1])
    ensures ReplaceRuns(s, keep, mark) == s
    decreases |s|
  {
    if s != "" {
      var rest := s[1..];
      assert forall i :: 0 <= i < |rest| ==> rest[i] == s[i + 1];
      LoneMarks(rest, keep, mark);
      assert s == [s[0]] + rest;
      if !keep(s[0]) {
        var n := GapLength(s, keep);
        assert |s| > 1 ==> keep(s[0 + 1]);
        assert n == 1;
      }
    }
  }

  lemma {:induction false} NoMarks(s: string)
    requires forall i :: 0 <= i < |s| ==> IsSlugChar(s[i]) || s[i] == '-'
    ensures DropMarks(s) == s && LatinDigits(s) == s
  {
    if s != "" {
      NoMarks(s[1..]);
      assert s == [s[0]] + s[1..];
    }
  }

  /** A text with a hyphen before it, after it, or neither. */
  function Frame(lead: bool, body: string, tail: bool): string {
    var ended := if tail then body + "-" else body;
    if lead then "-" + ended else ended
  }

  /** The joined words with the hyphens the replacement leaves at either end. */
  function Framed(s: string, words: seq<string>): string {
    if s == "" then ""
    else Frame(!IsSlugChar(s[0]), Joined(words), words != [] && !IsSlugChar(s[|s| - 1]))
  }

  /** A word in front: the hyphen before the remaining words is the one that joins them to it. */
  lemma FrameWord(w: string, words: seq<string>, tail: bool)
    requires words != []
    ensures Frame(false, Joined([w] + words), tail) == w + Frame(true, Joined(words), tail)
  {
    var j := Joined(words);
    assert ([w] + words)[1..] == words;
    assert Joined([w] + words) == w + "-" + j == w + ("-" + j);
    assert w + ("-" + j) + "-" == w + ("-" + (j + "-"));
  }

  lemma FramedWord(s: string, w: string, rest: string, words: seq<string>)
    requires s != "" && IsSlugChar(s[0])
    requires rest == "" ==> words == [] && IsSlugChar(s[|s| - 1])
    requires rest != "" ==> !IsSlugChar(rest[0]) && rest[|rest| - 1] == s[|s| - 1]
    requires rest != "" && words == [] ==> !IsSlugChar(s[|s| - 1])
    ensures Framed(s, [w] + words) == w + Framed(rest, words)
  {
    if words == [] {
      assert [w] + words == [w] && Joined([w]) == w;
    } else {
      FrameWord(w, words, !IsSlugChar(s[|s| - 1]));
    }
  }

  lemma FramedGap(s: string, rest: string, words: seq<string>)
    requires s != "" && !IsSlugChar(s[0])
    requires if rest == "" then words == [] else IsSlugChar(rest[0]) && rest[|rest| - 1] == s[|s| - 1]
    ensures Framed(s, words) == "-" + Framed(rest, words)
  {
  }

  lemma FirstWord(s: string, n: nat)
    requires s != "" && IsSlugChar(s[0]) && n == RunLength(s, IsSlugChar)
    ensures Words(s) == [s[..n]] + Words(s[n..])
  {
  }

  /** A word in front, then whatever the replacement makes of the rest. */
  lemma WordFramed(s: string, w: string, rest: string, words: seq<string>)
    requires s == w + rest && IsWord(w) && (rest != "" ==> !IsSlugChar(rest[0]))
    requires words == Words(rest) && ReplaceRuns(rest, IsSlugChar, '-') == Framed(rest, words)
    ensures ReplaceRuns(s, IsSlugChar, '-') == Framed(s, [w] + words)
  {
    AllUnkept(rest);
    KeptRun(w, rest, IsSlugChar, '-');
    assert s[0] == w[0] && s[|s| - 1] == if rest == "" then w[|w| - 1] else rest[|rest| - 1];
    FramedWord(s, w, rest, words);
  }

  lemma GapFramed(s: string, n: nat)
    requires s != "" && !IsSlugChar(s[0]) && n == GapLength(s, IsSlugChar)
    requires ReplaceRuns(s[n..], IsSlugChar, '-') == Framed(s[n..], Words(s[n..]))
    ensures ReplaceRuns(s, IsSlugChar, '-') == Framed(s, Words(s))
  {
    var rest := s[n..];
    SkipRun(s, n);
    assert rest != "" ==> rest[0] == s[n] && rest[|rest| - 1] == s[|s| - 1];
    FramedGap(s, rest, Words(rest));
  }

  lemma {:induction false} RunsAreFramed(s: string)
    ensures ReplaceRuns(s, IsSlugChar, '-') == Framed(s, Words(s))
    decreases |s|
  {
    if s == "" {
    } else if IsSlugChar(s[0]) {
      var n := RunLength(s, IsSlugChar);
      RunsAreFramed(s[n..]);
      FirstWord(s, n);
      WordFramed(s, s[..n], s[n..], Words(s[n..]));
    } else {
      var n := GapLength(s, IsSlugChar);
      RunsAreFramed(s[n..]);
      GapFramed(s, n);
    }
  }

  lemma {:induction false} SkipRun(s: string, n: nat)
    requires n <= |s| && forall i :: 0 <= i < n ==> !IsSlugChar(s[i])
    ensures Words(s) == Words(s[n..])
  {
    if n > 0 {
      SkipRun(s[1..], n - 1);
      assert s[1..][n - 1..] == s[n..];
    } else {
      assert s[n..] == s;
    }
  }

  /** A text without words holds no slug character. */
  lemma {:induction false} AllUnkept(s: string)
    ensures Words(s) == [] <==> forall i :: 0 <= i < |s| ==> !IsSlugChar(s[i])
  {
    if s != "" && !IsSlugChar(s[0]) {
      AllUnkept(s[1..]);
      assert forall i :: 0 < i < |s| ==> s[i] == s[1..][i - 1];
    }
  }

  lemma TrimsDash(lead: bool, body: string, tail: bool)
    requires SlugGroups(body)
    ensures TrimDashesEnd(TrimDashesStart(Frame(lead, body, tail))) == body
  {
    var s := if tail then body + "-" else body;
    assert TrimDashesStart(s) == s;
    assert lead ==> ("-" + s)[1..] == s;
    assert tail ==> s[..|s| - 1] == body;
  }

  /** The replacements leave the words of the text, joined by single hyphens. */
  lemma DashedIsJoinedWords(text: string)
    ensures Dashed(text) == Joined(Words(text))
  {
    var words := Words(text);
    RunsAreFramed(text);
    if words != [] {
      var s := Joined(words);
      JoinedIsGroups(words);
      TrimsDash(text != "" && !IsSlugChar(text[0]), s, !IsSlugChar(text[|text| - 1]));
      LoneMarks(s, c => c != '-', '-');
    }
  }

  // --- the slug -----------------------------------------------------------------------

  /** Cutting a long run of words leaves a slug: at most the last hyphen goes with the rest. */
  lemma CutIsSlug(latin: string)
    requires SlugGroups(latin) && |latin| >= 2
    ensures var r := Cut(latin);
            && r.Some? && IsSlug(r.value) && |r.value| >= 2 && r.value <= latin
            && |r.value| == (if |latin| <= SLUG_MAX then |latin|
                             else if latin[SLUG_MAX - 1] == '-' then SLUG_MAX - 1 else SLUG_MAX)
  {
    if |latin| > SLUG_MAX {
      var head := latin[..SLUG_MAX];
      if head[SLUG_MAX - 1] == '-' {
        var r := head[..SLUG_MAX - 1];
        var i := SLUG_MAX - 2;
        assert latin[i + 1] == '-' && latin[i] != '-';
        assert TrimDashesEnd(head) == TrimDashesEnd(r) == r;
      } else {
        assert TrimDashesEnd(head) == head;
      }
    }
  }

  /** The letters and digits a slug can hold, without what stands between them. */
  function Letters(text: string): string {
    if text == "" then ""
    else (if IsSlugChar(text[0]) then [text[0]] else []) + Letters(text[1..])
  }

  function Flat(words: seq<string>): string {
    if words == [] then "" else words[0] + Flat(words[1..])
  }

  lemma {:induction false} LettersOfRun(a: string, b: string)
    requires forall i :: 0 <= i < |a| ==> IsSlugChar(a[i])
    ensures Letters(a + b) == a + Letters(b)
  {
    if a == "" {
      assert a + b == b;
    } else {
      assert (a + b)[0] == a[0] && (a + b)[1..] == a[1..] + b;
      LettersOfRun(a[1..], b);
      assert a + Letters(b) == [a[0]] + (a[1..] + Letters(b));
    }
  }

  /** The words lose no letter and keep their order. */
  lemma {:induction false} LettersAreWords(text: string)
    ensures Letters(text) == Flat(Words(text))
    decreases |text|
  {
    if text == "" {
    } else if IsSlugChar(text[0]) {
      var n := RunLength(text, IsSlugChar);
      assert text == text[..n] + text[n..];
      LettersOfRun(text[..n], text[n..]);
      LettersAreWords(text[n..]);
      assert Words(text)[1..] == Words(text[n..]);
    } else {
      LettersAreWords(text[1..]);
    }
  }

  lemma {:induction false} JoinedLength(words: seq<string>)
    requires AreWords(words)
    ensures |Flat(words)| >= |words|
    ensures |Joined(words)| == |Flat(words)| + (if words == [] then 0 else |words| - 1)
    decreases |words|
  {
    if words != [] {
      assert IsWord(words[0]);
      JoinedLength(words[1..]);
    }
  }

  /**
   * Whatever the Unicode steps produce: a title has no slug exactly when they leave it fewer
   * than two letters and digits; otherwise the result is a slug, and it is the words of the
   * folded title joined by hyphens, cut at the longest length allowed.
   */
  lemma SlugOrNothing(u: Unicode, input: string)
    ensures var r := ToLatinSlug(u, input);
            var latin := Joined(Words(Folded(u, input)));
            && (r.None? <==> |Letters(Folded(u, input))| < 2)
            && (r.Some? ==> IsSlug(r.value) && |r.value| >= 2 && r.value <= latin
                            && (|latin| <= SLUG_MAX ==> r.value == latin)
                            && (|latin| > SLUG_MAX ==> |r.value| >= SLUG_MAX - 1))
  {
    var text := Folded(u, input);
    var words := Words(text);
    DashedIsJoinedWords(text);
    LettersAreWords(text);
    JoinedLength(words);
    if words != [] {
      JoinedIsGroups(words);
      if |Joined(words)| >= 2 {
        CutIsSlug(Joined(words));
      }
    }
  }

  predicate InSlugAlphabet(s: string) {
    forall i :: 0 <= i < |s| ==> IsSlugChar(s[i]) || s[i] == '-'
  }

  /** What Unicode says of plain lower-case Latin text: nothing to decompose, drop or lower. */
  ghost predicate LeavesLatin(u: Unicode) {
    && (forall s :: InSlugAlphabet(s) ==> u.decompose(s) == s && u.lower(s) == s)
    && (forall c :: IsSlugChar(c) || c == '-' ==> u.kept(c))
  }

  /** A slug comes out as itself, unless it is a single character. */
  lemma SlugIsFixed(u: Unicode, s: string)
    requires LeavesLatin(u) && IsSlug(s)
    ensures ToLatinSlug(u, s) == if |s| < 2 then None else Some(s)
  {
    assert InSlugAlphabet(s);
    NoMarks(s);
    LoneMarks(s, u.kept, ' ');
    assert Folded(u, s) == s;
    LoneMarks(s, IsSlugChar, '-');
    LoneMarks(s, c => c != '-', '-');
    assert Dashed(s) == s;
    if |s| >= 2 {
      CutIsSlug(s);
    }
  }

  /** Slugging a slugged title again changes nothing. */
  lemma SlugTwice(u: Unicode, input: string)
    requires LeavesLatin(u)
    ensures var r := ToLatinSlug(u, input);
            r.Some? ==> ToLatinSlug(u, r.value) == r
  {
    SlugOrNothing(u, input);
    var r := ToLatinSlug(u, input);
    if r.Some? {
      SlugIsFixed(u, r.value);
    }
  }

  // --- what the steps before the words do --------------------------------------------------

  /** A digit of one of the two Eastern scripts, and the Latin digit of the same value. */
  predicate IsSameDigit(c: char, d: char) {
    '0' <= d <= '9' &&
    (c as int == 0x0660 + (d as int - '0' as int) || c as int == 0x06F0 + (d as int - '0' as int))
  }

  predicate IsSameUpToDigits(s: string, t: string) {
    |s| == |t| && forall i :: 0 <= i < |s| ==> s[i] == t[i] || IsSameDigit(s[i], t[i])
  }

  /** Arabic-Indic and Persian digits count as the Latin digits of their values. */
  lemma DigitsAgree(u: Unicode, s: string, t: string)
    requires IsSameUpToDigits(s, t)
    ensures ToLatinSlug(u, s) == ToLatinSlug(u, t)
  {
    assert LatinDigits(s) == LatinDigits(t);
  }

  predicate HasNoEasternDigit(s: string) {
    forall i :: 0 <= i < |s| ==> !(0x0660 <= s[i] as int <= 0x0669) && !(0x06F0 <= s[i] as int <= 0x06F9)
  }

  lemma {:induction false} MarkDropped(a: string, mark: char, b: string)
    requires 0x0300 <= mark as int <= 0x036F
    ensures DropMarks(a + [mark] + b) == DropMarks(a + b)
  {
    var s := a + [mark] + b;
    if a == "" {
      assert s[0] == mark && s[1..] == b && a + b == b;
    } else {
      MarkDropped(a[1..], mark, b);
      assert s[0] == a[0] && s[1..] == a[1..] + [mark] + b;
      assert (a + b)[0] == a[0] && (a + b)[1..] == a[1..] + b;
    }
  }

  /** A combining mark that decomposition splits off makes no difference. */
  lemma MarksVanish(u: Unicode, s: string, t: string, a: string, mark: char, b: string)
    requires HasNoEasternDigit(s) && HasNoEasternDigit(t) && 0x0300 <= mark as int <= 0x036F
    requires u.decompose(s) == a + [mark] + b && u.decompose(t) == a + b
    ensures ToLatinSlug(u, s) == ToLatinSlug(u, t)
  {
    assert LatinDigits(s) == s && LatinDigits(t) == t;
    MarkDropped(a, mark, b);
  }

  lemma TwoWords(a: string, x: char, b: string)
    requires IsWord(a) && IsWord(b) && !IsSlugChar(x)
    ensures Words(a + [x] + b) == [a, b]
  {
    var s, rest := a + [x] + b, [x] + b;
    assert s == a + rest && rest[1..] == b && b[..|b|] == b && b[|b|..] == "";
    RunOf(a, rest);
    RunOf(b, "");
    assert b + "" == b;
    FirstWord(s, |a|);
    FirstWord(b, |b|);
    assert s[..|a|] == a && s[|a|..] == rest;
  }

  lemma {:induction false} RunOf(a: string, rest: string)
    requires (forall i :: 0 <= i < |a| ==> IsSlugChar(a[i])) && (rest != "" ==> !IsSlugChar(rest[0]))
    ensures RunLength(a + rest, IsSlugChar) == |a|
  {
    var n := RunLength(a + rest, IsSlugChar);
    assert forall i :: 0 <= i < |a| ==> (a + rest)[i] == a[i];
    assert rest != "" ==> (a + rest)[|a|] == rest[0];
  }

  /** A character of a script that is not kept becomes a space. */
  lemma UnkeptIsSpace(u: Unicode, a: string, c: char, b: string)
    requires LeavesLatin(u) && IsWord(a) && IsWord(b) && !u.kept(c)
    ensures ReplaceRuns(a + [c] + b, u.kept, ' ') == a + " " + b
  {
    var rest := [c] + b;
    assert a + [c] + b == a + rest;
    KeptRun(a, rest, u.kept, ' ');
    assert rest[0] == c && rest[1] == b[0] && GapLength(rest, u.kept) == 1 && rest[1..] == b;
    KeptRun(b, "", u.kept, ' ');
    assert b + "" == b && ReplaceRuns("", u.kept, ' ') == "" && b + ReplaceRuns("", u.kept, ' ') == b;
    assert a + ([' '] + b) == a + " " + b;
  }

  lemma NoMarkBetween(a: string, c: char, b: string)
    requires IsWord(a) && IsWord(b) && !(0x0300 <= c as int <= 0x036F)
    ensures DropMarks(a + [c] + b) == a + [c] + b
  {
    var s := a + [c] + b;
    assert forall i :: 0 <= i < |s| ==> !(0x0300 <= s[i] as int <= 0x036F);
    NothingDropped(s);
  }

  lemma {:induction false} NothingDropped(s: string)
    requires forall i :: 0 <= i < |s| ==> !(0x0300 <= s[i] as int <= 0x036F)
    ensures DropMarks(s) == s
  {
    if s != "" {
      NothingDropped(s[1..]);
      assert s == [s[0]] + s[1..];
    }
  }

  /**
   * Whatever stands between two Latin words and is not kept, an Arabic letter or a sign,
   * comes to one hyphen.
   */
  lemma UnkeptSeparates(u: Unicode, a: string, c: char, b: string)
    requires LeavesLatin(u) && IsWord(a) && IsWord(b) && |a| + 1 + |b| <= 96
    requires !u.kept(c) && !(0x0300 <= c as int <= 0x036F) && HasNoEasternDigit([c])
    requires u.decompose(a + [c] + b) == a + [c] + b && u.lower(a + " " + b) == a + " " + b
    ensures ToLatinSlug(u, a + [c] + b) == Some(a + "-" + b)
  {
    var s := a + [c] + b;
    assert [c][0] == c && LatinDigits(s) == s;
    NoMarkBetween(a, c, b);
    UnkeptIsSpace(u, a, c, b);
    assert Folded(u, s) == a + " " + b;
    TwoWords(a, ' ', b);
    assert [a, b][1..] == [b];
    assert Joined([a, b]) == a + "-" + b;
    SlugOrNothing(u, s);
    LettersOfTwo(a, b);
  }

  lemma LettersOfTwo(a: string, b: string)
    requires IsWord(a) && IsWord(b)
    ensures |Letters(a + " " + b)| >= 2
  {
    assert a + " " + b == a + (" " + b) && (" " + b)[1..] == b && b + "" == b;
    LettersOfRun(a, " " + b);
    LettersOfRun(b, "");
  }
}
