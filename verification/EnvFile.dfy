/**
 * Writing a secret into `.env` and reading it back.
 *
 * The generator rewrites one line of an array in place; the env check parses the
 * whole file. A file is its lines.
 */
module EnvFile {
  import opened Options
  import opened Text

  // --- searching ----------------------------------------------------------------------

  /** Where a character first stands, or the length when it does not. */
  function IndexOf(s: string, c: char): (n: nat)
    ensures n <= |s| && (n < |s| ==> s[n] == c) && (forall i :: 0 <= i < n ==> s[i] != c)
    ensures n < |s| <==> c in s
  {
    if s == "" then 0 else if s[0] == c then 0 else 1 + IndexOf(s[1..], c)
  }

  lemma IndexAfter(a: string, c: char, b: string)
    requires c !in a
    ensures IndexOf(a + [c] + b, c) == |a|
  {
    var s := a + [c] + b;
    assert s[|a|] == c;
    var n := IndexOf(s, c);
    assert forall i :: 0 <= i < |a| ==> s[i] == a[i];
  }

  lemma IndexSkips(a: string, c: char, b: string)
    requires c !in a
    ensures IndexOf(a + b, c) == |a| + IndexOf(b, c)
  {
    var s, n := a + b, IndexOf(a + b, c);
    assert forall i :: 0 <= i < |a| ==> s[i] == a[i];
    assert forall i :: 0 <= i < |b| ==> s[|a| + i] == b[i];
    if n < |s| { assert n >= |a| && b[n - |a|] == c; }
  }

  // --- one line -------------------------------------------------------------------------

  predicate IsActive(line: string) {
    var t := Trim(line);
    t != "" && t[0] != '#' && '=' in t
  }

  function KeyOf(line: string): string {
    var t := Trim(line);
    Trim(t[..IndexOf(t, '=')])
  }

  /** The text after the first equals sign. */
  function AfterEquals(s: string): string {
    var n := IndexOf(s, '=');
    if n < |s| then s[n + 1..] else ""
  }

  /** dotenv's value: quoted up to the closing quote, otherwise cut at the first hash. */
  function Unquote(rawValue: string): string {
    var value := Trim(rawValue);
    if value != "" && (value[0] == '\"' || value[0] == '\'') then
      var closing := IndexOf(value[1..], value[0]);
      value[1..][..closing]
    else
      Trim(value[..IndexOf(value, '#')])
  }

  function ParsedValue(line: string): string {
    Unquote(Trim(AfterEquals(Trim(line))))
  }

  predicate IsLineBreak(c: char) {
    c == '\n' || c == '\r' || c == '\U{2028}' || c == '\U{2029}'
  }

  /** A value between two quotes with nothing after them. */
  predicate IsQuoted(value: string) {
    && |value| >= 2
    && value[0] == value[|value| - 1] && (value[0] == '\"' || value[0] == '\'')
    && forall i :: 0 < i < |value| - 1 ==> !IsLineBreak(value[i])
  }

  /** The generator's own reading of a line. */
  function ReadValue(line: string): string {
    var value := Trim(AfterEquals(Trim(line)));
    if IsQuoted(value) then value[1..|value| - 1]
    else if '#' in value then Trim(value[..IndexOf(value, '#')])
    else value
  }

  /** The trailing comment of a line, with the space it is written after. */
  function CommentOf(line: string): string {
    var after := AfterEquals(line);
    var at := IndexOf(after, '#');
    if at < |after| then " " + Trim(after[at..]) else ""
  }

  function NewLine(line: string, key: string, value: string): string {
    key + "=\"" + value + "\"" + CommentOf(line)
  }

  // --- whole files ------------------------------------------------------------------------

  predicate Sets(line: string, key: string) {
    IsActive(line) && KeyOf(line) == key
  }

  /** The first line that sets a key, or the number of lines. */
  function FirstLine(lines: seq<string>, key: string): (n: nat)
    ensures n <= |lines| && (n < |lines| ==> Sets(lines[n], key))
    ensures forall i :: 0 <= i < n ==> !Sets(lines[i], key)
  {
    if lines == [] then 0 else if Sets(lines[0], key) then 0 else 1 + FirstLine(lines[1..], key)
  }

  function ReadEnv(lines: seq<string>, key: string): Option<string> {
    var n := FirstLine(lines, key);
    if n < |lines| then Some(ReadValue(lines[n])) else None
  }

  function SetEnv(lines: seq<string>, key: string, value: string): seq<string> {
    var n := FirstLine(lines, key);
    if n < |lines| then lines[n := NewLine(lines[n], key, value)] else lines
  }

  /** What a line says to the env check: a key and a value, or nothing. */
  function Meaning(line: string): Option<(string, string)> {
    if IsActive(line) then Some((KeyOf(line), ParsedValue(line))) else None
  }

  function Meanings(lines: seq<string>): (r: seq<Option<(string, string)>>)
    ensures |r| == |lines| && forall i :: 0 <= i < |r| ==> r[i] == Meaning(lines[i])
  {
    seq(|lines|, i requires 0 <= i < |lines| => Meaning(lines[i]))
  }

  /** Later lines override earlier ones. */
  function Collected(said: seq<Option<(string, string)>>): map<string, string> {
    if said == [] then map[]
    else
      var out := Collected(said[..|said| - 1]);
      match said[|said| - 1]
      case Some((key, value)) => out[key := value]
      case None => out
  }

  function ParseEnv(lines: seq<string>): map<string, string> {
    Collected(Meanings(lines))
  }

  lemma FirstLineIs(lines: seq<string>, key: string, n: nat)
    requires n <= |lines| && (n < |lines| ==> Sets(lines[n], key))
    requires forall i :: 0 <= i < n ==> !Sets(lines[i], key)
    ensures FirstLine(lines, key) == n
  {
  }

  method ReadEnvValue(lines: seq<string>, key: string) returns (value: Option<string>)
    ensures value == ReadEnv(lines, key)
  {
    for i := 0 to |lines|
      invariant forall j :: 0 <= j < i ==> !Sets(lines[j], key)
    {
      var trimmed := Trim(lines[i]);
      if trimmed == "" || trimmed[0] == '#' || '=' !in trimmed { continue; }
      if Trim(trimmed[..IndexOf(trimmed, '=')]) != key { continue; }
      FirstLineIs(lines, key, i);
      return Some(ReadValue(lines[i]));
    }
    FirstLineIs(lines, key, |lines|);
    return None;
  }

  method SetEnvValue(lines: array<string>, key: string, value: string) returns (found: bool)
    modifies lines
    ensures lines[..] == SetEnv(old(lines[..]), key, value)
    ensures found <==> exists i :: 0 <= i < lines.Length && Sets(old(lines[i]), key)
  {
    for i := 0 to lines.Length
      invariant lines[..] == old(lines[..])
      invariant forall j :: 0 <= j < i ==> !Sets(lines[j], key)
    {
      var line := lines[i];
      var trimmed := Trim(line);
      if trimmed == "" || trimmed[0] == '#' || '=' !in trimmed { continue; }
      if Trim(trimmed[..IndexOf(trimmed, '=')]) != key { continue; }
      FirstLineIs(lines[..], key, i);
      lines[i] := NewLine(line, key, value);
      return true;
    }
    FirstLineIs(lines[..], key, lines.Length);
    return false;
  }

  method ParseEnvFile(lines: seq<string>) returns (out: map<string, string>)
    ensures out == ParseEnv(lines)
  {
    out := map[];
    for i := 0 to |lines|
      invariant out == ParseEnv(lines[..i])
    {
      assert Meanings(lines[..i + 1]) == Meanings(lines[..i]) + [Meaning(lines[i])];
      assert Meanings(lines[..i + 1])[..i] == Meanings(lines[..i]);
      var line := Trim(lines[i]);
      if line == "" || line[0] == '#' || '=' !in line { continue; }
      var eq := IndexOf(line, '=');
      out := out[Trim(line[..eq]) := Unquote(Trim(line[eq + 1..]))];
    }
    assert lines[..|lines|] == lines;
  }

  // --- one line written and read back --------------------------------------------------------

  /** The base64 and base64url alphabets, padding included. */
  predicate IsSecretChar(c: char) {
    'A' <= c <= 'Z' || 'a' <= c <= 'z' || '0' <= c <= '9' || c in {'+', '/', '=', '-', '_'}
  }

  predicate IsSecret(v: string) {
    forall i :: 0 <= i < |v| ==> IsSecretChar(v[i])
  }

  /** A key as a line can carry it. */
  predicate IsKey(key: string) {
    '=' !in key && IsTrimmed(key) && (key != "" ==> key[0] != '#')
  }

  lemma KeyShape(line: string)
    requires IsActive(line)
    ensures IsKey(KeyOf(line))
  {
    var t := Trim(line);
    var _, _ := TrimSplits(line);
    var head := t[..IndexOf(t, '=')];
    var lead, tail := TrimSplits(head);
    forall i | 0 <= i < |KeyOf(line)| ensures KeyOf(line)[i] != '=' {
      assert head[|lead| + i] == KeyOf(line)[i];
    }
    if head != "" {
      assert head[0] == t[0];
      TrimKeepsHead(head);
    }
  }

  /** A comment is nothing, or a space and a trimmed text that starts with a hash. */
  predicate IsComment(c: string) {
    c == "" || (|c| >= 2 && c[0] == ' ' && c[1] == '#' && IsTrimmed(c[1..]))
  }

  lemma CommentShape(line: string)
    ensures IsComment(CommentOf(line))
  {
    var after := AfterEquals(line);
    var at := IndexOf(after, '#');
    if at < |after| {
      var lead, tail := TrimSplits(after[at..]);
      TrimKeepsHead(after[at..]);
      assert CommentOf(line)[1..] == Trim(after[at..]);
    }
  }

  function Written(key: string, value: string, comment: string): string {
    key + "=\"" + value + "\"" + comment
  }

  function Assigned(value: string, comment: string): string {
    "\"" + value + "\"" + comment
  }

  /** A key, an equals sign and anything: the first equals sign is that one. */
  lemma FirstEquals(key: string, rest: string)
    requires '=' !in key
    ensures var line := key + "=" + rest;
            IndexOf(line, '=') == |key| && line[..|key|] == key && AfterEquals(line) == rest
  {
    IndexAfter(key, '=', rest);
    var line := key + "=" + rest;
    assert line == key + ['='] + rest;
    assert line[..|key|] == key && line[|key| + 1..] == rest && line[|key|] == '=';
  }

  lemma AssignedTrimmed(value: string, comment: string)
    requires IsComment(comment)
    ensures IsTrimmed(Assigned(value, comment)) && Trim(Assigned(value, comment)) == Assigned(value, comment)
  {
    var rest := Assigned(value, comment);
    assert comment != "" ==> comment[1..][|comment[1..]| - 1] == comment[|comment| - 1];
    assert rest[|rest| - 1] == if comment == "" then '\"' else comment[|comment| - 1];
    TrimTrimmed(rest);
  }

  /** A trimmed key, an equals sign and trimmed text make a trimmed line that sets the key. */
  lemma LineParts(key: string, rest: string)
    requires IsKey(key) && IsTrimmed(rest) && rest != ""
    ensures var line := key + "=" + rest;
            Trim(line) == line && IsActive(line) && KeyOf(line) == key && AfterEquals(line) == rest
  {
    var line := key + "=" + rest;
    FirstEquals(key, rest);
    assert line[|line| - 1] == rest[|rest| - 1];
    assert line[0] == if key == "" then '=' else key[0];
    TrimTrimmed(line);
    TrimTrimmed(key);
  }

  /** The written line as the readers see it. */
  lemma WrittenParts(key: string, value: string, comment: string)
    requires IsKey(key) && IsComment(comment)
    ensures var line := Written(key, value, comment);
            && Trim(line) == line && IsActive(line) && KeyOf(line) == key
            && AfterEquals(line) == Assigned(value, comment)
            && Trim(Assigned(value, comment)) == Assigned(value, comment)
  {
    var rest := Assigned(value, comment);
    assert Written(key, value, comment) == key + "=" + rest;
    AssignedTrimmed(value, comment);
    LineParts(key, rest);
  }

  lemma AssignedParses(value: string, comment: string)
    requires IsSecret(value) && IsComment(comment)
    ensures Unquote(Assigned(value, comment)) == value
  {
    AssignedTrimmed(value, comment);
    var rest := Assigned(value, comment);
    var inner := value + ['\"'] + comment;
    assert rest[0] == '\"' && rest[1..] == inner;
    assert '\"' !in value;
    IndexAfter(value, '\"', comment);
    assert inner[..|value|] == value;
  }

  /** The env check reads back what the generator wrote, comment or not. */
  lemma WrittenParses(key: string, value: string, comment: string)
    requires IsKey(key) && IsComment(comment) && IsSecret(value)
    ensures ParsedValue(Written(key, value, comment)) == value
  {
    WrittenParts(key, value, comment);
    AssignedParses(value, comment);
  }

  /** The first hash of a written value starts its comment. */
  lemma AssignedHash(value: string, comment: string)
    requires IsSecret(value) && IsComment(comment)
    ensures var rest := Assigned(value, comment);
            if comment == "" then '#' !in rest
            else '#' in rest && IndexOf(rest, '#') == |value| + 3 && rest[|value| + 3..] == comment[1..] &&
                 rest[..|value| + 3] == "\"" + value + "\"" + " "
  {
    var head := "\"" + value + "\"" + " ";
    var rest := Assigned(value, comment);
    assert forall i :: 0 <= i < |head| ==> head[i] != '#';
    if comment == "" {
      assert rest == head[..|head| - 1];
    } else {
      assert rest == head + comment[1..];
      assert comment[1..][0] == '#' && rest[|head|] == '#';
      IndexSkips(head, '#', comment[1..]);
    }
  }

  /** Cutting the written value at its hash leaves it in its quotes. */
  lemma AssignedCut(value: string, comment: string)
    requires IsSecret(value) && IsComment(comment) && comment != ""
    ensures var rest := Assigned(value, comment);
            '#' in rest && Trim(rest[..IndexOf(rest, '#')]) == "\"" + value + "\""
  {
    AssignedHash(value, comment);
    var quoted := "\"" + value + "\"";
    var head := quoted + " ";
    assert TrimStart(head) == head && head[..|head| - 1] == quoted && quoted[|quoted| - 1] == '\"';
    assert TrimEnd(head) == TrimEnd(quoted);
  }

  /** The generator reads its own line back exactly when the line has no comment. */
  lemma WrittenReads(key: string, value: string, comment: string)
    requires IsKey(key) && IsComment(comment) && IsSecret(value)
    ensures ReadValue(Written(key, value, comment)) == value <==> comment == ""
  {
    WrittenParts(key, value, comment);
    var rest := Assigned(value, comment);
    if comment == "" {
      assert IsQuoted(rest) by { assert forall i :: 0 < i < |rest| - 1 ==> rest[i] == value[i - 1]; }
      assert rest[1..|rest| - 1] == value;
    } else {
      AssignedCut(value, comment);
      assert |rest| >= |value| + 4;
    }
  }

  lemma WrittenComment(line: string, value: string, comment: string)
    requires IsComment(comment) && IsSecret(value) && AfterEquals(line) == Assigned(value, comment)
    ensures CommentOf(line) == comment
  {
    AssignedHash(value, comment);
    if comment != "" {
      TrimTrimmed(comment[1..]);
      assert " " + comment[1..] == comment;
    }
  }

  // --- the lines people write ----------------------------------------------------------------

  /** Only a line with an equals sign that does not begin with a hash sets anything. */
  lemma OnlyAssignmentsSet(line: string, key: string)
    ensures Trim(line) == "" || Trim(line)[0] == '#' || '=' !in Trim(line) ==> !Sets(line, key)
    ensures Sets(line, key) ==> exists before, after :: Trim(line) == before + "=" + after && '=' !in before && Trim(before) == key
  {
    if Sets(line, key) {
      var t, n := Trim(line), IndexOf(Trim(line), '=');
      assert t == t[..n] + "=" + t[n + 1..];
    }
  }

  predicate IsQuote(c: char) { c == '\"' || c == '\'' }

  /** A value as it is usually typed: trimmed, without quotes and hashes. */
  predicate IsPlainValue(value: string) {
    value != "" && IsTrimmed(value) && !IsQuote(value[0]) && '#' !in value
  }

  lemma HashFree(value: string)
    requires '#' !in value
    ensures IndexOf(value, '#') == |value| && value[..IndexOf(value, '#')] == value
  {
  }

  /** A plain line gives its value to both readers. */
  lemma PlainLine(key: string, value: string)
    requires IsKey(key) && IsPlainValue(value)
    ensures var line := key + "=" + value; Sets(line, key) && ReadValue(line) == value && ParsedValue(line) == value
  {
    LineParts(key, value);
    TrimTrimmed(value);
    HashFree(value);
  }

  lemma {:induction false} TrimGap(value: string, gap: string)
    requires value != "" && IsTrimmed(value) && AllSpace(gap)
    ensures Trim(value + gap) == value
  {
    var spaced := value + gap;
    assert spaced[0] == value[0] && TrimStart(spaced) == spaced;
    if gap == "" {
      assert spaced == value;
    } else {
      var less := gap[..|gap| - 1];
      assert spaced[..|spaced| - 1] == value + less && spaced[|spaced| - 1] == gap[|gap| - 1];
      TrimGap(value, less);
      assert (value + less)[0] == value[0] && TrimStart(value + less) == value + less;
    }
  }

  lemma HashCuts(front: string, note: string)
    requires '#' !in front
    ensures var rest := front + ("#" + note); IndexOf(rest, '#') == |front| && rest[..IndexOf(rest, '#')] == front
  {
    IndexSkips(front, '#', "#" + note);
    assert IndexOf("#" + note, '#') == 0;
  }

  /** From the first hash on nothing counts, with or without space before it. */
  lemma CommentedLine(key: string, value: string, gap: string, note: string)
    requires IsKey(key) && IsPlainValue(value) && AllSpace(gap) && IsTrimmed("#" + note)
    ensures var line := key + "=" + (value + gap + ("#" + note));
            Sets(line, key) && ReadValue(line) == value && ParsedValue(line) == value
  {
    CommentedParts(key, value, gap, note);
    assert forall i :: 0 <= i < |gap| ==> gap[i] != '#';
    HashCuts(value + gap, note);
    TrimGap(value, gap);
    CutIsRead(key + "=" + (value + gap + ("#" + note)), value + gap + ("#" + note), value);
  }

  lemma CutIsRead(line: string, rest: string, value: string)
    requires Trim(line) == line && AfterEquals(line) == rest && Trim(rest) == rest && rest != "" && !IsQuote(rest[0])
    requires '#' in rest && Trim(rest[..IndexOf(rest, '#')]) == value
    ensures ReadValue(line) == value && ParsedValue(line) == value
  {
  }

  lemma CommentedParts(key: string, value: string, gap: string, note: string)
    requires IsKey(key) && IsPlainValue(value) && IsTrimmed("#" + note)
    ensures var rest := value + gap + ("#" + note);
            var line := key + "=" + rest;
            && Sets(line, key) && Trim(line) == line && AfterEquals(line) == rest && Trim(rest) == rest
            && rest[0] == value[0] && '#' in rest
  {
    var rest, tail := value + gap + ("#" + note), "#" + note;
    assert rest[0] == value[0] && rest[|rest| - 1] == tail[|tail| - 1] && rest[|value| + |gap|] == '#';
    TrimTrimmed(rest);
    LineParts(key, rest);
  }

  predicate HasNoBreak(value: string) {
    forall i :: 0 <= i < |value| ==> !IsLineBreak(value[i])
  }

  lemma QuotedParses(value: string, quote: char)
    requires IsQuote(quote) && quote !in value
    ensures var rest := [quote] + value + [quote]; Trim(rest) == rest && Unquote(rest) == value
  {
    var rest := [quote] + value + [quote];
    assert rest[0] == quote && rest[|rest| - 1] == quote && rest[1..] == value + [quote] + "";
    TrimTrimmed(rest);
    IndexAfter(value, quote, "");
    assert (value + [quote] + "")[..|value|] == value;
  }

  lemma IsQuotedValue(value: string, quote: char)
    requires IsQuote(quote) && HasNoBreak(value)
    ensures var rest := [quote] + value + [quote]; IsQuoted(rest) && rest[1..|rest| - 1] == value
  {
    var rest := [quote] + value + [quote];
    assert forall i :: 0 < i < |rest| - 1 ==> rest[i] == value[i - 1];
  }

  /** A value between two quotes gives what is between them to both. */
  lemma QuotedLine(key: string, value: string, quote: char)
    requires IsKey(key) && IsQuote(quote) && quote !in value && HasNoBreak(value)
    ensures var line := key + "=" + ([quote] + value + [quote]);
            Sets(line, key) && ReadValue(line) == value && ParsedValue(line) == value
  {
    var rest := [quote] + value + [quote];
    QuotedParses(value, quote);
    IsQuotedValue(value, quote);
    assert rest[0] == quote && rest[|rest| - 1] == quote;
    LineParts(key, rest);
  }

  lemma NoComment(line: string)
    requires '#' !in AfterEquals(line)
    ensures CommentOf(line) == ""
  {
  }

  lemma SomeComment(line: string, value: string, note: string)
    requires '#' !in value && AfterEquals(line) == value + ("#" + note)
    ensures CommentOf(line) == " " + Trim("#" + note)
  {
    var after, tail := AfterEquals(line), "#" + note;
    IndexSkips(value, '#', tail);
    assert tail[0] == '#' && IndexOf(tail, '#') == 0;
    assert after[|value|..] == tail;
  }

  /**
   * The line a secret is written to: the key, the secret in quotes, and whatever comment
   * the old line had after its value, a space before it.
   */
  lemma NewLineKeepsComment(before: string, value: string, note: string, key: string, secret: string)
    requires '=' !in before && '#' !in value
    ensures NewLine(before + "=" + value, key, secret) == key + "=\"" + secret + "\""
    ensures NewLine(before + "=" + (value + ("#" + note)), key, secret) == key + "=\"" + secret + "\"" + (" " + Trim("#" + note))
  {
    FirstEquals(before, value);
    FirstEquals(before, value + ("#" + note));
    NoComment(before + "=" + value);
    SomeComment(before + "=" + (value + ("#" + note)), value, note);
  }

  // --- the file written and read back ------------------------------------------------------------

  predicate SetsLater(lines: seq<string>, n: nat, key: string) {
    exists i :: n < i < |lines| && Sets(lines[i], key)
  }

  predicate Says(m: Option<(string, string)>, key: string) {
    m.Some? && m.value.0 == key
  }

  /** What is collected after one assignment of a key is replaced by another. */
  lemma {:induction false} ReplacedCollects(
    said: seq<Option<(string, string)>>, n: nat, key: string, value: string)
    requires n < |said| && Says(said[n], key)
    ensures Collected(said[n := Some((key, value))]) ==
      if exists i :: n < i < |said| && Says(said[i], key) then Collected(said) else Collected(said)[key := value]
    decreases |said|
  {
    var front := said[..|said| - 1];
    var after := said[n := Some((key, value))];
    if n == |said| - 1 {
      assert after[..|said| - 1] == front;
    } else {
      assert after[..|said| - 1] == front[n := Some((key, value))];
      ReplacedCollects(front, n, key, value);
      assert forall i :: n < i < |front| ==> front[i] == said[i];
    }
  }

  lemma ReplacedLineParses(lines: seq<string>, n: nat, key: string, line: string)
    requires n < |lines| && Sets(lines[n], key) && Sets(line, key)
    ensures ParseEnv(lines[n := line]) ==
      if SetsLater(lines, n, key) then ParseEnv(lines) else ParseEnv(lines)[key := ParsedValue(line)]
  {
    var said := Meanings(lines);
    assert Meanings(lines[n := line]) == said[n := Some((key, ParsedValue(line)))];
    assert forall i :: 0 <= i < |lines| ==> (Says(said[i], key) <==> Sets(lines[i], key));
    ReplacedCollects(said, n, key, ParsedValue(line));
  }

  /**
   * What a generated secret does to the parsed file. Every other key keeps its
   * value, and the key gets the secret, unless a later line sets the key again:
   * then that line still wins and nothing changes at all.
   */
  lemma SetThenParse(lines: seq<string>, key: string, value: string)
    requires IsSecret(value) && FirstLine(lines, key) < |lines|
    ensures var n := FirstLine(lines, key);
            ParseEnv(SetEnv(lines, key, value)) ==
            if SetsLater(lines, n, key) then ParseEnv(lines) else ParseEnv(lines)[key := value]
    ensures |SetEnv(lines, key, value)| == |lines|
  {
    var n := FirstLine(lines, key);
    KeyShape(lines[n]);
    CommentShape(lines[n]);
    WrittenParts(key, value, CommentOf(lines[n]));
    WrittenParses(key, value, CommentOf(lines[n]));
    ReplacedLineParses(lines, n, key, NewLine(lines[n], key, value));
  }

  predicate Reads(env: map<string, string>, key: string, value: string) {
    key in env && env[key] == value
  }

  /** A secret that is new to the file is read back exactly when one line, and no second, sets its key. */
  lemma SecretReadBack(lines: seq<string>, key: string, value: string)
    requires IsSecret(value) && FirstLine(lines, key) < |lines|
    ensures !Reads(ParseEnv(lines), key, value) ==>
      (Reads(ParseEnv(SetEnv(lines, key, value)), key, value) <==>
       forall i, j :: 0 <= i < |lines| && 0 <= j < |lines| && Sets(lines[i], key) && Sets(lines[j], key) ==> i == j)
  {
    SetThenParse(lines, key, value);
    var n := FirstLine(lines, key);
    if SetsLater(lines, n, key) {
      var i :| n < i < |lines| && Sets(lines[i], key);
      assert Sets(lines[n], key) && i != n;
    } else {
      forall i | 0 <= i < |lines| && Sets(lines[i], key) ensures i == n {
      }
    }
  }

  /** The generator reads its own secret back exactly when the line carries no trailing comment. */
  lemma SetThenRead(lines: seq<string>, key: string, value: string)
    requires IsSecret(value) && FirstLine(lines, key) < |lines|
    ensures ReadEnv(SetEnv(lines, key, value), key) == Some(value) <==>
      CommentOf(lines[FirstLine(lines, key)]) == ""
  {
    var n := FirstLine(lines, key);
    KeyShape(lines[n]);
    CommentShape(lines[n]);
    WrittenParts(key, value, CommentOf(lines[n]));
    WrittenReads(key, value, CommentOf(lines[n]));
    FirstLineIs(SetEnv(lines, key, value), key, n);
  }

  /** However often it is rewritten, a line keeps its comment: only the last secret shows. */
  lemma SetTwice(lines: seq<string>, key: string, value: string, again: string)
    requires IsSecret(value)
    ensures SetEnv(SetEnv(lines, key, value), key, again) == SetEnv(lines, key, again)
  {
    var n := FirstLine(lines, key);
    if n < |lines| {
      KeyShape(lines[n]);
      CommentShape(lines[n]);
      WrittenParts(key, value, CommentOf(lines[n]));
      WrittenComment(NewLine(lines[n], key, value), value, CommentOf(lines[n]));
      FirstLineIs(SetEnv(lines, key, value), key, n);
    }
  }
}
