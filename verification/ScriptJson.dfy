/**
 * Making serialised JSON safe inside a script element.
 *
 * The escape is a chain of five replacements over the finished text. It is safe
 * because a JSON text has those five characters only inside strings, where the
 * replacement is an escape of the same code unit. Both halves are proved against
 * a reader of JSON text that follows section 7 of RFC 8259.
 */
module ScriptJson {
  import opened Options
  import opened Json

  // --- the five replacements ------------------------------------------------------

  /** Replaces every occurrence of one character. */
  function ReplaceAll(s: string, c: char, escape: string): string {
    if s == "" then "" else (if s[0] == c then escape else [s[0]]) + ReplaceAll(s[1..], c, escape)
  }

  function EscapeForScript(json: string): string {
    var s1 := ReplaceAll(json, '<', "\\u003c");
    var s2 := ReplaceAll(s1, '>', "\\u003e");
    var s3 := ReplaceAll(s2, '&', "\\u0026");
    var s4 := ReplaceAll(s3, '\U{2028}', "\\u2028");
    ReplaceAll(s4, '\U{2029}', "\\u2029")
  }

  predicate IsUnsafe(c: char) {
    c == '<' || c == '>' || c == '&' || c == '\U{2028}' || c == '\U{2029}'
  }

  function EscapeChar(c: char): string {
    if c == '<' then "\\u003c"
    else if c == '>' then "\\u003e"
    else if c == '&' then "\\u0026"
    else if c == '\U{2028}' then "\\u2028"
    else if c == '\U{2029}' then "\\u2029"
    else [c]
  }

  function MapChars(s: string, f: char -> string): string {
    if s == "" then "" else f(s[0]) + MapChars(s[1..], f)
  }

  /** All five at once, character by character. */
  function EscapeEach(s: string): string {
    MapChars(s, EscapeChar)
  }

  lemma {:induction false} ReplaceAllAppend(a: string, b: string, c: char, escape: string)
    ensures ReplaceAll(a + b, c, escape) == ReplaceAll(a, c, escape) + ReplaceAll(b, c, escape)
  {
    if a == "" {
      assert a + b == b;
    } else {
      assert (a + b)[0] == a[0] && (a + b)[1..] == a[1..] + b;
      ReplaceAllAppend(a[1..], b, c, escape);
    }
  }

  /** A text without the character is left alone. */
  lemma {:induction false} ReplaceAllAbsent(s: string, c: char, escape: string)
    requires c !in s
    ensures ReplaceAll(s, c, escape) == s
  {
    if s != "" {
      ReplaceAllAbsent(s[1..], c, escape);
      assert s == [s[0]] + s[1..];
    }
  }

  lemma {:induction false} EscapeAppend(a: string, b: string)
    ensures EscapeForScript(a + b) == EscapeForScript(a) + EscapeForScript(b)
  {
    var a1, b1 := ReplaceAll(a, '<', "\\u003c"), ReplaceAll(b, '<', "\\u003c");
    var a2, b2 := ReplaceAll(a1, '>', "\\u003e"), ReplaceAll(b1, '>', "\\u003e");
    var a3, b3 := ReplaceAll(a2, '&', "\\u0026"), ReplaceAll(b2, '&', "\\u0026");
    var a4, b4 := ReplaceAll(a3, '\U{2028}', "\\u2028"), ReplaceAll(b3, '\U{2028}', "\\u2028");
    ReplaceAllAppend(a, b, '<', "\\u003c");
    ReplaceAllAppend(a1, b1, '>', "\\u003e");
    ReplaceAllAppend(a2, b2, '&', "\\u0026");
    ReplaceAllAppend(a3, b3, '\U{2028}', "\\u2028");
    ReplaceAllAppend(a4, b4, '\U{2029}', "\\u2029");
  }

  lemma ReplaceOne(c: char, d: char, escape: string)
    ensures ReplaceAll([c], d, escape) == if c == d then escape else [c]
  {
    assert [c][1..] == "" && ReplaceAll("", d, escape) == "";
  }

  lemma EscapeCharSafe(c: char)
    ensures forall d :: d in EscapeChar(c) ==> !IsUnsafe(d)
  {
  }

  /** One character through the replacements from the `n`th on, when it is not their business. */
  lemma LeftAlone(s: string)
    requires forall d :: d in s ==> !IsUnsafe(d)
    ensures ReplaceAll(s, '>', "\\u003e") == s
    ensures ReplaceAll(s, '&', "\\u0026") == s
    ensures ReplaceAll(s, '\U{2028}', "\\u2028") == s
    ensures ReplaceAll(s, '\U{2029}', "\\u2029") == s
  {
    ReplaceAllAbsent(s, '>', "\\u003e");
    ReplaceAllAbsent(s, '&', "\\u0026");
    ReplaceAllAbsent(s, '\U{2028}', "\\u2028");
    ReplaceAllAbsent(s, '\U{2029}', "\\u2029");
  }

  /** A replacement writes `\u` and four hex digits, which no later one touches. */
  lemma EscapeOne(c: char)
    ensures EscapeForScript([c]) == EscapeChar(c)
  {
    EscapeCharSafe(c);
    LeftAlone(EscapeChar(c));
    ReplaceOne(c, '<', "\\u003c");
    ReplaceOne(c, '>', "\\u003e");
    ReplaceOne(c, '&', "\\u0026");
    ReplaceOne(c, '\U{2028}', "\\u2028");
    ReplaceOne(c, '\U{2029}', "\\u2029");
  }

  /** Five replacements in sequence are one simultaneous substitution. */
  lemma {:induction false} SequentialIsSimultaneous(s: string)
    ensures EscapeForScript(s) == EscapeEach(s)
  {
    if s != "" {
      EscapeOne(s[0]);
      SequentialIsSimultaneous(s[1..]);
      EscapeAppend([s[0]], s[1..]);
      assert s == [s[0]] + s[1..];
    }
  }

  lemma {:induction false} EscapeEachSafe(s: string)
    ensures forall c :: c in EscapeEach(s) ==> !IsUnsafe(c)
  {
    if s != "" { EscapeEachSafe(s[1..]); }
  }

  // --- reading JSON text ----------------------------------------------------------

  /** A lexeme: a character outside strings, or a string as its UTF-16 code units. */
  datatype Token = Raw(c: char) | Text(units: seq<nat>)

  /** The code units of one character. */
  function Units(c: char): seq<nat> {
    var n := c as int;
    if n < 0x1_0000 then [n]
    else [0xD800 + (n - 0x1_0000) / 0x400, 0xDC00 + (n - 0x1_0000) % 0x400]
  }

  function AllUnits(s: string): seq<nat> {
    if s == "" then [] else Units(s[0]) + AllUnits(s[1..])
  }

  function HexValue(c: char): Option<nat> {
    if '0' <= c <= '9' then Some(c as int - '0' as int)
    else if 'a' <= c <= 'f' then Some(c as int - 'a' as int + 10)
    else if 'A' <= c <= 'F' then Some(c as int - 'A' as int + 10)
    else None
  }

  /** Four hex digits as one code unit. */
  function Hex4(s: string): Option<nat>
    requires |s| == 4
  {
    match (HexValue(s[0]), HexValue(s[1]), HexValue(s[2]), HexValue(s[3]))
    case (Some(a), Some(b), Some(c), Some(d)) => Some(((a * 16 + b) * 16 + c) * 16 + d)
    case _ => None
  }

  function ShortEscape(c: char): Option<nat> {
    if c == '\"' || c == '\\' || c == '/' then Some(c as int)
    else if c == 'b' then Some(8)
    else if c == 't' then Some(9)
    else if c == 'n' then Some(10)
    else if c == 'f' then Some(12)
    else if c == 'r' then Some(13)
    else None
  }

  datatype Read = Bad | Ok(units: seq<nat>, rest: string) {
    function Prepend(more: seq<nat>): Read {
      match this
      case Bad => Bad
      case Ok(units, rest) => Ok(more + units, rest)
    }
  }

  /** The inside of a string, up to and including its closing quote. */
  function ReadString(t: string): (r: Read)
    ensures r.Ok? ==> |r.rest| < |t|
  {
    if t == "" then Bad
    else if t[0] == '\"' then Ok([], t[1..])
    else if t[0] == '\\' then
      if |t| >= 6 && t[1] == 'u' then
        match Hex4(t[2..6])
        case None => Bad
        case Some(unit) => ReadString(t[6..]).Prepend([unit])
      else if |t| >= 2 then
        match ShortEscape(t[1])
        case None => Bad
        case Some(unit) => ReadString(t[2..]).Prepend([unit])
      else Bad
    else if t[0] < ' ' then Bad
    else ReadString(t[1..]).Prepend(Units(t[0]))
  }

  /** A whole text as lexemes, or nothing when a string in it is malformed. */
  function Lex(t: string): Option<seq<Token>>
    decreases |t|
  {
    if t == "" then Some([])
    else if t[0] == '\"' then
      match ReadString(t[1..])
      case Bad => None
      case Ok(units, rest) =>
        match Lex(rest)
        case None => None
        case Some(tokens) => Some([Text(units)] + tokens)
    else
      match Lex(t[1..])
      case None => None
      case Some(tokens) => Some([Raw(t[0])] + tokens)
  }

  /**
   * A text whose strings are well formed and that has none of the five
   * characters outside them. `JsonReader` proves every text with a value to be
   * one: outside strings the grammar has only white space, brackets,
   * punctuation, numbers and names.
   */
  predicate IsJsonLike(t: string) {
    Lex(t).Some? && forall i :: 0 <= i < |Lex(t).value| && Lex(t).value[i].Raw? ==> !IsUnsafe(Lex(t).value[i].c)
  }

  // --- escaping does not change what is read ------------------------------------------

  /** A long escape in front is read as its code unit. */
  lemma LongReads(hex: string, x: string)
    requires |hex| == 4 && Hex4(hex).Some?
    ensures ReadString("\\u" + hex + x) == ReadString(x).Prepend([Hex4(hex).value])
  {
    var t := "\\u" + hex + x;
    assert t[0] == '\\' && t[1] == 'u' && t[2..6] == hex && t[6..] == x;
  }

  lemma EscapeCharReads(c: char, x: string)
    requires c >= ' ' && c != '\"' && c != '\\'
    ensures ReadString(EscapeChar(c) + x) == ReadString(x).Prepend(Units(c))
  {
    var e := EscapeChar(c);
    if IsUnsafe(c) {
      assert Hex4(e[2..]) == Some(c as int);
      assert e + x == "\\u" + e[2..] + x;
      LongReads(e[2..], x);
    } else {
      assert (e + x)[0] == c && (e + x)[1..] == x;
    }
  }

  lemma {:induction false} MapKeeps(s: string, x: string, f: char -> string)
    requires forall i :: 0 <= i < |s| ==> f(s[i]) == [s[i]]
    ensures MapChars(s + x, f) == s + MapChars(x, f)
  {
    if s == "" {
      assert s + x == x;
    } else {
      assert (s + x)[0] == s[0] && (s + x)[1..] == s[1..] + x;
      MapKeeps(s[1..], x, f);
      assert s + MapChars(x, f) == [s[0]] + (s[1..] + MapChars(x, f));
    }
  }

  lemma EscapeKeepsSafe(s: string, x: string)
    requires forall i :: 0 <= i < |s| ==> !IsUnsafe(s[i])
    ensures EscapeEach(s + x) == s + EscapeEach(x)
  {
    MapKeeps(s, x, EscapeChar);
  }

  /** An escape sequence has none of the five characters. */
  lemma EscapeSequenceKept(t: string, n: nat)
    requires n <= |t| && forall i :: 0 <= i < n ==> !IsUnsafe(t[i])
    ensures |EscapeEach(t)| >= n && EscapeEach(t)[..n] == t[..n]
    ensures EscapeEach(t)[n..] == EscapeEach(t[n..])
  {
    EscapeKeepsSafe(t[..n], t[n..]);
    assert t == t[..n] + t[n..];
  }

  lemma EscapeLongText(hex: string, x: string)
    requires |hex| == 4 && Hex4(hex).Some?
    ensures EscapeEach("\\u" + hex + x) == "\\u" + hex + EscapeEach(x)
  {
    HexIsSafe(hex);
    EscapeKeepsSafe("\\u" + hex, x);
  }

  lemma EscapeLongSequence(t: string)
    requires |t| >= 6 && t[0] == '\\' && t[1] == 'u' && Hex4(t[2..6]).Some?
    ensures ReadString(EscapeEach(t)) == ReadString(EscapeEach(t[6..])).Prepend([Hex4(t[2..6]).value])
  {
    var hex, x := t[2..6], t[6..];
    assert t == "\\u" + hex + x;
    EscapeLongText(hex, x);
    LongReads(hex, EscapeEach(x));
  }

  lemma EscapeShortSequence(t: string)
    requires |t| >= 2 && t[0] == '\\' && t[1] != 'u' && ShortEscape(t[1]).Some?
    ensures ReadString(EscapeEach(t)) == ReadString(EscapeEach(t[2..])).Prepend([ShortEscape(t[1]).value])
  {
    EscapeSequenceKept(t, 2);
    var e := EscapeEach(t);
    assert e[0] == e[..2][0] && e[1] == e[..2][1];
  }

  /** Inside a string, whatever backslashes come before the character. */
  lemma {:induction false} EscapeInsideString(t: string)
    requires ReadString(t).Ok?
    ensures ReadString(EscapeEach(t)) ==
      Ok(ReadString(t).units, EscapeEach(ReadString(t).rest))
    decreases |t|
  {
    if t[0] == '\"' {
      EscapeSequenceKept(t, 1);
      assert EscapeEach(t)[0] == EscapeEach(t)[..1][0];
    } else if t[0] == '\\' && t[1] == 'u' {
      EscapeLongSequence(t);
      EscapeInsideString(t[6..]);
    } else if t[0] == '\\' {
      EscapeShortSequence(t);
      EscapeInsideString(t[2..]);
    } else {
      EscapeInsideString(t[1..]);
      EscapeCharReads(t[0], EscapeEach(t[1..]));
    }
  }

  lemma HexIsSafe(s: string)
    requires |s| == 4 && Hex4(s).Some?
    ensures forall i :: 0 <= i < |s| ==> !IsUnsafe(s[i])
  {
    assert forall i :: 0 <= i < 4 ==> HexValue(s[i]).Some?;
  }

  /**
   * The escaped text has none of the five characters and reads, lexeme by
   * lexeme and code unit by code unit, as the text it came from.
   */
  lemma {:induction false} EscapeReadsTheSame(t: string)
    requires IsJsonLike(t)
    ensures forall c :: c in EscapeForScript(t) ==> !IsUnsafe(c)
    ensures Lex(EscapeForScript(t)) == Lex(t)
    decreases |t|
  {
    SequentialIsSimultaneous(t);
    EscapeEachSafe(t);
    if t != "" {
      var tokens := Lex(t).value;
      assert t[0] != '\"' ==> tokens[0] == Raw(t[0]);
      EscapeSequenceKept(t, 1);
      var e := EscapeEach(t);
      assert e[0] == e[..1][0];
      var rest := if t[0] == '\"' then ReadString(t[1..]).rest else t[1..];
      assert tokens[1..] == Lex(rest).value;
      assert forall i :: 0 <= i < |Lex(rest).value| ==> Lex(rest).value[i] == tokens[i + 1];
      EscapeReadsTheSame(rest);
      SequentialIsSimultaneous(rest);
      if t[0] == '\"' { EscapeInsideString(t[1..]); }
    }
  }

  // --- printed values are such texts ------------------------------------------------

  /** A control character's code, written in four hex digits. */
  function ControlHex(c: char): string
    requires c < ' '
  {
    ['0', '0', HexDigit(c as int / 16), HexDigit(c as int % 16)]
  }

  lemma ControlHexReads(c: char)
    requires c < ' '
    ensures Hex4(ControlHex(c)) == Some(c as int)
  {
    assert HexValue(HexDigit(c as int / 16)) == Some(c as int / 16);
    assert HexValue(HexDigit(c as int % 16)) == Some(c as int % 16);
  }

  lemma ControlReads(c: char, x: string)
    requires c < ' '
    ensures ReadString("\\u" + ControlHex(c) + x) == ReadString(x).Prepend([c as int])
  {
    ControlHexReads(c);
    LongReads(ControlHex(c), x);
  }

  lemma ShortReads(c: char, x: string)
    requires ShortEscape(c).Some?
    ensures ReadString(['\\', c] + x) == ReadString(x).Prepend([ShortEscape(c).value])
  {
    var t := ['\\', c] + x;
    assert t[0] == '\\' && t[1] == c && t[2..] == x;
  }

  lemma QuoteCharReads(c: char, x: string)
    ensures ReadString(QuoteChar(c) + x) == ReadString(x).Prepend(Units(c))
  {
    var q := QuoteChar(c);
    if |q| == 6 {
      assert q == "\\u" + ControlHex(c);
      ControlReads(c, x);
    } else if |q| == 2 {
      assert q == ['\\', q[1]];
      ShortReads(q[1], x);
    } else {
      assert (q + x)[0] == c && (q + x)[1..] == x;
    }
  }

  /** What the printer quotes, the reader gives back. */
  lemma {:induction false} QuoteReads(s: string, x: string)
    ensures ReadString(QuoteBody(s) + "\"" + x) == Ok(AllUnits(s), x)
  {
    var t := QuoteBody(s) + "\"" + x;
    if s == "" {
      assert t[0] == '\"' && t[1..] == x;
    } else {
      var rest := QuoteBody(s[1..]) + "\"" + x;
      assert t == QuoteChar(s[0]) + rest;
      QuoteCharReads(s[0], rest);
      QuoteReads(s[1..], x);
    }
  }
}
