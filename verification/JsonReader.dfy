/**
 * Reading JSON text: what value, if any, a text stands for.
 *
 * The grammar is that of RFC 8259, over the lexemes of `ScriptJson`. A number's
 * value is its literal; of two members with one name the last counts, as in
 * JavaScript; a string with a lone surrogate is not a string of scalar values
 * and gives no value.
 */
module JsonReader {
  import opened Options
  import opened Json
  import opened ScriptJson

  // --- strings, numbers and names -----------------------------------------------------

  /** The scalar values a sequence of UTF-16 code units encodes. */
  function FromUnits(u: seq<nat>): Option<string> {
    if u == [] then Some("")
    else if 0xD800 <= u[0] < 0xDC00 then
      if |u| >= 2 && 0xDC00 <= u[1] < 0xE000 then
        match FromUnits(u[2..])
        case None => None
        case Some(s) => Some([(0x1_0000 + (u[0] - 0xD800) * 0x400 + (u[1] - 0xDC00)) as char] + s)
      else None
    else if u[0] < 0xD800 || 0xE000 <= u[0] < 0x1_0000 then
      match FromUnits(u[1..])
      case None => None
      case Some(s) => Some([u[0] as char] + s)
    else None
  }

  function DigitRun(s: string): (n: nat)
    ensures n <= |s|
  {
    if s != "" && '0' <= s[0] <= '9' then 1 + DigitRun(s[1..]) else 0
  }

  predicate IsExponent(s: string) {
    s == "" ||
    (s[0] in {'e', 'E'} &&
     var digits := if |s| > 1 && s[1] in {'+', '-'} then s[2..] else s[1..];
     digits != "" && DigitRun(digits) == |digits|)
  }

  predicate IsFraction(s: string) {
    if s != "" && s[0] == '.'
    then DigitRun(s[1..]) > 0 && IsExponent(s[1..][DigitRun(s[1..])..])
    else IsExponent(s)
  }

  /** Section 6 of RFC 8259: no leading zero, digits around the point, an exponent. */
  predicate IsNumber(s: string) {
    var whole := if s != "" && s[0] == '-' then s[1..] else s;
    var n := DigitRun(whole);
    n > 0 && (n > 1 ==> whole[0] != '0') && IsFraction(whole[n..])
  }

  function WordValue(w: string): Option<Json> {
    if w == "null" then Some(Null)
    else if w == "true" then Some(Bool(true))
    else if w == "false" then Some(Bool(false))
    else if IsNumber(w) then Some(Num(w))
    else None
  }

  // --- values ---------------------------------------------------------------------------

  predicate IsWhite(t: Token) {
    t.Raw? && (t.c == ' ' || t.c == '\t' || t.c == '\n' || t.c == '\r')
  }

  /** A character of a number or a name. */
  predicate IsWordToken(t: Token) {
    t.Raw? && ('a' <= t.c <= 'z' || 'A' <= t.c <= 'Z' || '0' <= t.c <= '9' || t.c == '-' || t.c == '+' || t.c == '.')
  }

  function SkipWhite(ts: seq<Token>): (r: seq<Token>)
    ensures |r| <= |ts|
  {
    if ts != [] && IsWhite(ts[0]) then SkipWhite(ts[1..]) else ts
  }

  function Word(ts: seq<Token>): (w: string)
    ensures |w| <= |ts|
  {
    if ts != [] && IsWordToken(ts[0]) then [ts[0].c] + Word(ts[1..]) else ""
  }

  /** Something read off the front, and what is left. */
  datatype Reading<T> = Wrong | Done(value: T, rest: seq<Token>)

  predicate Starts(ts: seq<Token>, c: char) {
    ts != [] && ts[0] == Raw(c)
  }

  function ReadValue(input: seq<Token>): (r: Reading<Json>)
    ensures r.Done? ==> |r.rest| < |input|
    decreases |input|, 1
  {
    var ts := SkipWhite(input);
    if ts == [] then Wrong
    else if ts[0].Text? then
      match FromUnits(ts[0].units)
      case None => Wrong
      case Some(s) => Done(Str(s), ts[1..])
    else if ts[0].c == '[' then ReadArray(ts[1..])
    else if ts[0].c == '{' then ReadObject(ts[1..])
    else ReadWord(ts)
  }

  /** A number or a name. */
  function ReadWord(ts: seq<Token>): (r: Reading<Json>)
    ensures r.Done? ==> |r.rest| < |ts|
    decreases |ts|, 0
  {
    var w := Word(ts);
    if w == "" then Wrong
    else
      match WordValue(w)
      case None => Wrong
      case Some(v) => Done(v, ts[|w|..])
  }

  function ReadArray(ts: seq<Token>): (r: Reading<Json>)
    ensures r.Done? ==> |r.rest| < |ts|
    decreases |ts|, 3
  {
    if Starts(SkipWhite(ts), ']') then Done(Arr([]), SkipWhite(ts)[1..])
    else
      match ReadItems(ts)
      case Wrong => Wrong
      case Done(items, rest) => Done(Arr(items), rest)
  }

  function ReadObject(ts: seq<Token>): (r: Reading<Json>)
    ensures r.Done? ==> |r.rest| < |ts|
    decreases |ts|, 3
  {
    if Starts(SkipWhite(ts), '}') then Done(Obj(map[]), SkipWhite(ts)[1..])
    else
      match ReadMembers(ts)
      case Wrong => Wrong
      case Done(members, rest) => Done(Obj(Gathered(members)), rest)
  }

  /** The rest of an array, from an element on. */
  function ReadItems(ts: seq<Token>): (r: Reading<seq<Json>>)
    ensures r.Done? ==> |r.rest| < |ts|
    decreases |ts|, 2
  {
    match ReadValue(ts)
    case Wrong => Wrong
    case Done(v, after) =>
      var next := SkipWhite(after);
      if Starts(next, ']') then Done([v], next[1..])
      else if Starts(next, ',') then
        match ReadItems(next[1..])
        case Wrong => Wrong
        case Done(vs, rest) => Done([v] + vs, rest)
      else Wrong
  }

  /** The rest of an object, from a member on. */
  function ReadMembers(input: seq<Token>): (r: Reading<seq<(string, Json)>>)
    ensures r.Done? ==> |r.rest| < |input|
    decreases |input|, 2
  {
    var ts := SkipWhite(input);
    if ts == [] || !ts[0].Text? || FromUnits(ts[0].units).None? || !Starts(SkipWhite(ts[1..]), ':') then Wrong
    else
      var name := FromUnits(ts[0].units).value;
      match ReadValue(SkipWhite(ts[1..])[1..])
      case Wrong => Wrong
      case Done(v, after) =>
        var next := SkipWhite(after);
        if Starts(next, '}') then Done([(name, v)], next[1..])
        else if Starts(next, ',') then
          match ReadMembers(next[1..])
          case Wrong => Wrong
          case Done(ms, rest) => Done([(name, v)] + ms, rest)
        else Wrong
  }

  function Gathered(members: seq<(string, Json)>): map<string, Json> {
    if members == [] then map[]
    else
      var last := members[|members| - 1];
      Gathered(members[..|members| - 1])[last.0 := last.1]
  }

  /** The value of a whole text. */
  function ValueOf(t: string): Option<Json> {
    match Lex(t)
    case None => None
    case Some(ts) =>
      match ReadValue(ts)
      case Wrong => None
      case Done(v, rest) => if SkipWhite(rest) == [] then Some(v) else None
  }

  // --- a text with a value has nothing unsafe outside its strings ----------------------------

  /** `rest` is what is left of `ts` after lexemes without any of the five characters. */
  ghost predicate SafelyRead(ts: seq<Token>, rest: seq<Token>) {
    && |rest| <= |ts| && rest == ts[|ts| - |rest|..]
    && forall i :: 0 <= i < |ts| - |rest| && ts[i].Raw? ==> !IsUnsafe(ts[i].c)
  }

  lemma SafelyThen(a: seq<Token>, b: seq<Token>, c: seq<Token>)
    requires SafelyRead(a, b) && SafelyRead(b, c)
    ensures SafelyRead(a, c)
  {
    var n := |a| - |b|;
    assert forall i :: n <= i < |a| ==> a[i] == b[i - n];
  }

  lemma OneDropped(ts: seq<Token>)
    requires ts != [] && (ts[0].Raw? ==> !IsUnsafe(ts[0].c))
    ensures SafelyRead(ts, ts[1..])
  {
  }

  lemma NothingDropped(ts: seq<Token>)
    ensures SafelyRead(ts, ts)
  {
    assert ts[0..] == ts;
  }

  lemma {:induction false} WhiteSafe(ts: seq<Token>)
    ensures SafelyRead(ts, SkipWhite(ts))
  {
    if ts != [] && IsWhite(ts[0]) {
      WhiteSafe(ts[1..]);
      OneDropped(ts);
      SafelyThen(ts, ts[1..], SkipWhite(ts));
    } else {
      NothingDropped(ts);
    }
  }

  lemma {:induction false} WordSafe(ts: seq<Token>)
    ensures SafelyRead(ts, ts[|Word(ts)|..])
  {
    if ts != [] && IsWordToken(ts[0]) {
      WordSafe(ts[1..]);
      OneDropped(ts);
      assert ts[1..][|Word(ts[1..])|..] == ts[|Word(ts)|..];
      SafelyThen(ts, ts[1..], ts[|Word(ts)|..]);
    } else {
      NothingDropped(ts);
    }
  }

  /** White space, then one lexeme that is safe. */
  lemma OneSafe(input: seq<Token>)
    ensures var ts := SkipWhite(input);
            ts != [] && (ts[0].Text? || !IsUnsafe(ts[0].c)) ==> SafelyRead(input, ts[1..])
  {
    var ts := SkipWhite(input);
    WhiteSafe(input);
    if ts != [] && (ts[0].Text? || !IsUnsafe(ts[0].c)) {
      OneDropped(ts);
      SafelyThen(input, ts, ts[1..]);
    }
  }

  lemma {:induction false} ValueSafe(input: seq<Token>)
    ensures ReadValue(input).Done? ==> SafelyRead(input, ReadValue(input).rest)
    decreases |input|, 1
  {
    var ts := SkipWhite(input);
    if ReadValue(input).Done? {
      var rest := ReadValue(input).rest;
      OneSafe(input);
      if ts[0].Text? {
      } else if ts[0].c == '[' {
        ArraySafe(ts[1..]);
        SafelyThen(input, ts[1..], rest);
      } else if ts[0].c == '{' {
        ObjectSafe(ts[1..]);
        SafelyThen(input, ts[1..], rest);
      } else {
        WhiteSafe(input);
        WordSafe(ts);
        SafelyThen(input, ts, rest);
      }
    }
  }

  lemma {:induction false} ArraySafe(ts: seq<Token>)
    ensures ReadArray(ts).Done? ==> SafelyRead(ts, ReadArray(ts).rest)
    decreases |ts|, 3
  {
    OneSafe(ts);
    if !Starts(SkipWhite(ts), ']') { ItemsSafe(ts); }
  }

  lemma {:induction false} ObjectSafe(ts: seq<Token>)
    ensures ReadObject(ts).Done? ==> SafelyRead(ts, ReadObject(ts).rest)
    decreases |ts|, 3
  {
    OneSafe(ts);
    if !Starts(SkipWhite(ts), '}') { MembersSafe(ts); }
  }

  lemma {:induction false} ItemsSafe(ts: seq<Token>)
    ensures ReadItems(ts).Done? ==> SafelyRead(ts, ReadItems(ts).rest)
    decreases |ts|, 2
  {
    if ReadItems(ts).Done? {
      var after := ReadValue(ts).rest;
      var next := SkipWhite(after);
      ValueSafe(ts);
      OneSafe(after);
      SafelyThen(ts, after, next[1..]);
      if Starts(next, ',') {
        ItemsSafe(next[1..]);
        SafelyThen(ts, next[1..], ReadItems(ts).rest);
      }
    }
  }

  /** A name and a colon. */
  lemma NameSafe(input: seq<Token>)
    ensures var ts := SkipWhite(input);
            ts != [] && ts[0].Text? && Starts(SkipWhite(ts[1..]), ':') ==>
              SafelyRead(input, SkipWhite(ts[1..])[1..])
  {
    var ts := SkipWhite(input);
    OneSafe(input);
    if ts != [] && ts[0].Text? {
      OneSafe(ts[1..]);
      if Starts(SkipWhite(ts[1..]), ':') { SafelyThen(input, ts[1..], SkipWhite(ts[1..])[1..]); }
    }
  }

  lemma {:induction false} MembersSafe(input: seq<Token>)
    ensures ReadMembers(input).Done? ==> SafelyRead(input, ReadMembers(input).rest)
    decreases |input|, 2
  {
    if ReadMembers(input).Done? {
      var value := SkipWhite(SkipWhite(input)[1..])[1..];
      var after := ReadValue(value).rest;
      var next := SkipWhite(after);
      NameSafe(input);
      ValueSafe(value);
      SafelyThen(input, value, after);
      OneSafe(after);
      SafelyThen(input, after, next[1..]);
      if Starts(next, ',') {
        MembersSafe(next[1..]);
        SafelyThen(input, next[1..], ReadMembers(input).rest);
      }
    }
  }

  /** Every text that has a value keeps the five characters inside its strings. */
  lemma ValueIsJsonLike(t: string)
    requires ValueOf(t).Some?
    ensures IsJsonLike(t)
  {
    var ts := Lex(t).value;
    var rest := ReadValue(ts).rest;
    ValueSafe(ts);
    WhiteSafe(rest);
    SafelyThen(ts, rest, []);
  }

  /** Escaping a JSON text for a script element leaves nothing unsafe in it and does not change its value. */
  lemma EscapingKeepsValue(t: string)
    requires ValueOf(t).Some?
    ensures forall c :: c in EscapeForScript(t) ==> c !in {'<', '>', '&', '\U{2028}', '\U{2029}'}
    ensures ValueOf(EscapeForScript(t)) == ValueOf(t)
  {
    ValueIsJsonLike(t);
    EscapeReadsTheSame(t);
  }

  // --- the canonical printer's text has the value it prints -------------------------------------

  function RawAll(s: string): seq<Token> {
    if s == "" then [] else [Raw(s[0])] + RawAll(s[1..])
  }

  /** The lexemes of the canonical text. */
  function Tokens(v: Json): (r: seq<Token>)
    decreases v, 1
  {
    match v
    case Null => RawAll("null")
    case Bool(b) => RawAll(if b then "true" else "false")
    case Num(literal) => RawAll(literal)
    case Str(text) => [Text(AllUnits(text))]
    case Arr(items) => [Raw('[')] + ItemTokens(items) + [Raw(']')]
    case Obj(fields) => [Raw('{')] + FieldTokens(v, SortedKeys(fields.Keys)) + [Raw('}')]
  }

  function ItemTokens(items: seq<Json>): seq<Token>
    decreases items, 0
  {
    if items == [] then []
    else Tokens(items[0]) + if |items| == 1 then [] else [Raw(',')] + ItemTokens(items[1..])
  }

  function FieldTokens(v: Json, keys: seq<string>): seq<Token>
    requires v.Obj? && forall k :: k in keys ==> k in v.fields
    decreases v, 0, |keys|
  {
    if keys == [] then []
    else
      [Text(AllUnits(keys[0])), Raw(':')] + Tokens(v.fields[keys[0]]) +
      if |keys| == 1 then [] else [Raw(',')] + FieldTokens(v, keys[1..])
  }

  type Lexer = string -> Option<seq<Token>>

  /** Put before any text, the piece adds exactly these lexemes. */
  ghost predicate Adds(lex: Lexer, p: string, ts: seq<Token>) {
    forall x {:trigger lex(p + x)} :: lex(x).Some? ==> lex(p + x) == Some(ts + lex(x).value)
  }

  lemma AddsBoth(lex: Lexer, p: string, a: seq<Token>, q: string, b: seq<Token>)
    requires Adds(lex, p, a) && Adds(lex, q, b)
    ensures Adds(lex, p + q, a + b)
  {
    forall x | lex(x).Some? ensures lex(p + q + x) == Some((a + b) + lex(x).value) {
      assert lex(q + x) == Some(b + lex(x).value);
      assert p + q + x == p + (q + x);
      assert lex(p + (q + x)) == Some(a + (b + lex(x).value));
      assert a + (b + lex(x).value) == (a + b) + lex(x).value;
    }
  }

  ghost predicate Lexes(p: string, ts: seq<Token>) {
    Adds(Lex, p, ts)
  }

  lemma LexesAppend(p: string, a: seq<Token>, q: string, b: seq<Token>)
    requires Lexes(p, a) && Lexes(q, b)
    ensures Lexes(p + q, a + b)
  {
    AddsBoth(Lex, p, a, q, b);
  }

  lemma LexesChar(c: char)
    requires c != '\"'
    ensures Lexes([c], [Raw(c)])
  {
    forall x | Lex(x).Some? ensures Lex([c] + x) == Some([Raw(c)] + Lex(x).value) {
      assert ([c] + x)[0] == c && ([c] + x)[1..] == x;
    }
  }

  lemma LexesNothing()
    ensures Lexes("", [])
  {
    forall x | Lex(x).Some? ensures Lex("" + x) == Some([] + Lex(x).value) {
      assert "" + x == x && [] + Lex(x).value == Lex(x).value;
    }
  }

  lemma {:induction false} LexesPlain(p: string)
    requires forall i :: 0 <= i < |p| ==> p[i] != '\"'
    ensures Lexes(p, RawAll(p))
  {
    if p == "" {
      LexesNothing();
    } else {
      LexesChar(p[0]);
      LexesPlain(p[1..]);
      LexesAppend([p[0]], [Raw(p[0])], p[1..], RawAll(p[1..]));
      assert p == [p[0]] + p[1..];
    }
  }

  lemma QuoteThenLexed(s: string, x: string)
    requires Lex(x).Some?
    ensures Lex(Quote(s) + x) == Some([Text(AllUnits(s))] + Lex(x).value)
  {
    var t := Quote(s) + x;
    assert t[0] == '\"' && t[1..] == QuoteBody(s) + "\"" + x;
    QuoteReads(s, x);
  }

  lemma LexesQuote(s: string)
    ensures Lexes(Quote(s), [Text(AllUnits(s))])
  {
    forall x | Lex(x).Some? ensures Lex(Quote(s) + x) == Some([Text(AllUnits(s))] + Lex(x).value) {
      QuoteThenLexed(s, x);
    }
  }

  lemma {:induction false} LexesStable(v: Json)
    requires WellFormed(v)
    ensures Lexes(Stable(v), Tokens(v))
    decreases v, 1
  {
    match v
    case Null => LexesPlain("null");
    case Bool(b) => LexesPlain(Stable(v));
    case Num(literal) => LexesPlain(literal);
    case Str(text) => LexesQuote(text);
    case Arr(items) =>
      LexesItems(items);
      LexesBracketed('[', Join(StableItems(items)), ItemTokens(items), ']');
    case Obj(fields) =>
      var keys := SortedKeys(fields.Keys);
      LexesFields(v, keys);
      LexesBracketed('{', Join(StableFields(v, keys)), FieldTokens(v, keys), '}');
  }

  lemma LexesBracketed(open: char, inner: string, ts: seq<Token>, close: char)
    requires open != '\"' && close != '\"' && Lexes(inner, ts)
    ensures Lexes([open] + inner + [close], [Raw(open)] + ts + [Raw(close)])
  {
    LexesChar(open);
    LexesChar(close);
    LexesAppend([open], [Raw(open)], inner, ts);
    LexesAppend([open] + inner, [Raw(open)] + ts, [close], [Raw(close)]);
  }

  lemma {:induction false} LexesItems(items: seq<Json>)
    requires forall i :: 0 <= i < |items| ==> WellFormed(items[i])
    ensures Lexes(Join(StableItems(items)), ItemTokens(items))
    decreases items, 0
  {
    if items == [] {
      LexesPlain("");
    } else {
      var first := Stable(items[0]);
      LexesStable(items[0]);
      if |items| == 1 {
        assert Join(StableItems(items)) == first && ItemTokens(items) == Tokens(items[0]);
      } else {
        LexesItems(items[1..]);
        LexesMore(first, Tokens(items[0]), Join(StableItems(items[1..])), ItemTokens(items[1..]));
        assert StableItems(items)[1..] == StableItems(items[1..]);
      }
    }
  }

  lemma LexesMore(first: string, a: seq<Token>, rest: string, b: seq<Token>)
    requires Lexes(first, a) && Lexes(rest, b)
    ensures Lexes(first + "," + rest, a + ([Raw(',')] + b))
  {
    LexesChar(',');
    LexesAppend(",", [Raw(',')], rest, b);
    LexesAppend(first, a, "," + rest, [Raw(',')] + b);
    assert first + "," + rest == first + ("," + rest);
  }

  lemma LexesField(k: string, text: string, ts: seq<Token>)
    requires Lexes(text, ts)
    ensures Lexes(Quote(k) + ":" + text, [Text(AllUnits(k)), Raw(':')] + ts)
  {
    LexesQuote(k);
    LexesChar(':');
    LexesAppend(Quote(k), [Text(AllUnits(k))], ":", [Raw(':')]);
    assert [Text(AllUnits(k))] + [Raw(':')] == [Text(AllUnits(k)), Raw(':')];
    LexesAppend(Quote(k) + ":", [Text(AllUnits(k)), Raw(':')], text, ts);
  }

  lemma {:induction false} LexesFields(v: Json, keys: seq<string>)
    requires v.Obj? && WellFormed(v) && forall k :: k in keys ==> k in v.fields
    ensures Lexes(Join(StableFields(v, keys)), FieldTokens(v, keys))
    decreases v, 0, |keys|
  {
    if keys == [] {
      LexesPlain("");
    } else {
      var k := keys[0];
      LexesStable(v.fields[k]);
      LexesField(k, Stable(v.fields[k]), Tokens(v.fields[k]));
      var first, a := Quote(k) + ":" + Stable(v.fields[k]), [Text(AllUnits(k)), Raw(':')] + Tokens(v.fields[k]);
      if |keys| == 1 {
        assert Join(StableFields(v, keys)) == first && FieldTokens(v, keys) == a;
      } else {
        LexesFields(v, keys[1..]);
        LexesMore(first, a, Join(StableFields(v, keys[1..])), FieldTokens(v, keys[1..]));
        assert StableFields(v, keys)[1..] == StableFields(v, keys[1..]);
      }
    }
  }

  // --- reading the lexemes back ------------------------------------------------------------------

  lemma CharRead(c: char, u: seq<nat>)
    ensures FromUnits(Units(c) + u) == match FromUnits(u) case None => None case Some(s) => Some([c] + s)
  {
    var n, all := c as int, Units(c) + u;
    if n < 0x1_0000 {
      assert all[0] == n && all[1..] == u;
    } else {
      assert all[0] == Units(c)[0] && all[1] == Units(c)[1] && all[2..] == u;
      assert 0x1_0000 + (all[0] - 0xD800) * 0x400 + (all[1] - 0xDC00) == n;
    }
  }

  lemma {:induction false} UnitsRead(s: string)
    ensures FromUnits(AllUnits(s)) == Some(s)
  {
    if s != "" {
      UnitsRead(s[1..]);
      CharRead(s[0], AllUnits(s[1..]));
      assert s == [s[0]] + s[1..];
    }
  }

  /** A value whose numbers are numbers of the grammar. */
  predicate IsJson(v: Json) {
    match v
    case Num(literal) => IsNumberText(literal) && IsNumber(literal)
    case Arr(items) => forall i :: 0 <= i < |items| ==> IsJson(items[i])
    case Obj(fields) => forall k :: k in fields ==> IsJson(fields[k])
    case _ => true
  }

  lemma {:induction false} JsonIsWellFormed(v: Json)
    requires IsJson(v)
    ensures WellFormed(v)
  {
    match v
    case Arr(items) => forall i | 0 <= i < |items| ensures WellFormed(items[i]) { JsonIsWellFormed(items[i]); }
    case Obj(fields) => forall k | k in fields ensures WellFormed(fields[k]) { JsonIsWellFormed(fields[k]); }
    case _ =>
  }

  /** Nothing that would go on a number or a name. */
  predicate EndsWord(x: seq<Token>) {
    x != [] ==> !IsWordToken(x[0])
  }

  lemma {:induction false} WordRead(w: string, x: seq<Token>)
    requires EndsWord(x) && forall i :: 0 <= i < |w| ==> IsWordToken(Raw(w[i]))
    ensures Word(RawAll(w) + x) == w && |RawAll(w)| == |w| && (RawAll(w) + x)[|w|..] == x
  {
    if w == "" {
      assert RawAll(w) + x == x;
    } else {
      WordRead(w[1..], x);
      assert RawAll(w) + x == [Raw(w[0])] + (RawAll(w[1..]) + x);
      assert w == [w[0]] + w[1..];
    }
  }

  lemma OpensWord(ts: seq<Token>)
    requires ts != [] && IsWordToken(ts[0])
    ensures ReadValue(ts) == ReadWord(ts)
  {
  }

  lemma WordValueRead(w: string, v: Json, x: seq<Token>)
    requires EndsWord(x) && w != "" && WordValue(w) == Some(v)
    requires forall i :: 0 <= i < |w| ==> IsWordToken(Raw(w[i]))
    ensures ReadValue(RawAll(w) + x) == Done(v, x)
  {
    var ts := RawAll(w) + x;
    WordRead(w, x);
    assert ts[0] == Raw(w[0]);
    OpensWord(ts);
  }

  /** A printed value starts with no white space and no closing bracket. */
  lemma TokensStart(v: Json)
    requires WellFormed(v)
    ensures Tokens(v) != [] && !IsWhite(Tokens(v)[0]) && Tokens(v)[0] !in {Raw(']'), Raw('}'), Raw(','), Raw(':')}
  {
  }

  lemma StringRead(text: string, x: seq<Token>)
    ensures ReadValue([Text(AllUnits(text))] + x) == Done(Str(text), x)
  {
    UnitsRead(text);
    assert ([Text(AllUnits(text))] + x)[1..] == x;
  }

  lemma LiteralRead(v: Json, x: seq<Token>)
    requires IsJson(v) && EndsWord(x) && (v.Null? || v.Bool? || v.Num?)
    ensures ReadValue(Tokens(v) + x) == Done(v, x)
  {
    match v
    case Null => WordValueRead("null", v, x);
    case Bool(b) => WordValueRead(if b then "true" else "false", v, x);
    case Num(literal) => WordValueRead(literal, v, x);
  }

  lemma {:induction false} ValueRead(v: Json, x: seq<Token>)
    requires IsJson(v) && EndsWord(x)
    ensures ReadValue(Tokens(v) + x) == Done(v, x)
    decreases v, 1
  {
    match v
    case Str(text) => StringRead(text, x);
    case Arr(items) => ArrayRead(items, x);
    case Obj(fields) => ObjectRead(v, x);
    case _ => LiteralRead(v, x);
  }

  lemma ArrayRead(items: seq<Json>, x: seq<Token>)
    requires forall i :: 0 <= i < |items| ==> IsJson(items[i])
    ensures ReadValue(Tokens(Arr(items)) + x) == Done(Arr(items), x)
    decreases items, 1
  {
    if items == [] {
      NoItems(x);
    } else {
      ItemsRead(items, x);
      SomeItems(items, x);
    }
    ArrayInput(items, x);
    OpensArray(ItemsInput(items, x));
  }

  lemma ArrayInput(items: seq<Json>, x: seq<Token>)
    ensures Tokens(Arr(items)) + x == [Raw('[')] + ItemsInput(items, x)
  {
  }

  lemma NoItems(x: seq<Token>)
    ensures ReadArray(ItemsInput([], x)) == Done(Arr([]), x)
  {
    var inner := ItemsInput([], x);
    assert inner == [Raw(']')] + x && inner[1..] == x;
  }

  lemma SomeItems(items: seq<Json>, x: seq<Token>)
    requires items != [] && IsJson(items[0]) && ReadItems(ItemsInput(items, x)) == Done(items, x)
    ensures ReadArray(ItemsInput(items, x)) == Done(Arr(items), x)
  {
    ItemsStart(items, x);
  }

  lemma ItemsStart(items: seq<Json>, x: seq<Token>)
    requires items != [] && IsJson(items[0])
    ensures !Starts(SkipWhite(ItemsInput(items, x)), ']')
  {
    JsonIsWellFormed(items[0]);
    TokensStart(items[0]);
    assert ItemsInput(items, x)[0] == Tokens(items[0])[0];
  }

  lemma OpensArray(inner: seq<Token>)
    ensures ReadValue([Raw('[')] + inner) == ReadArray(inner)
  {
    assert ([Raw('[')] + inner)[1..] == inner;
  }

  lemma LastItem(ts: seq<Token>, v: Json, x: seq<Token>)
    requires ReadValue(ts) == Done(v, [Raw(']')] + x)
    ensures ReadItems(ts) == Done([v], x)
  {
    assert ([Raw(']')] + x)[1..] == x;
  }

  lemma OneItem(ts: seq<Token>, v: Json, tail: seq<Token>, vs: seq<Json>, x: seq<Token>)
    requires ReadValue(ts) == Done(v, [Raw(',')] + tail) && ReadItems(tail) == Done(vs, x)
    ensures ReadItems(ts) == Done([v] + vs, x)
  {
    assert ([Raw(',')] + tail)[1..] == tail;
  }

  /** The text of an array after its opening bracket. */
  function ItemsInput(items: seq<Json>, x: seq<Token>): seq<Token> {
    ItemTokens(items) + ([Raw(']')] + x)
  }

  lemma OneItemInput(v: Json, x: seq<Token>)
    ensures ItemsInput([v], x) == Tokens(v) + ([Raw(']')] + x)
  {
    assert ItemTokens([v]) == Tokens(v);
  }

  lemma MoreItemsInput(items: seq<Json>, x: seq<Token>)
    requires |items| > 1
    ensures ItemsInput(items, x) == Tokens(items[0]) + ([Raw(',')] + ItemsInput(items[1..], x))
  {
  }

  lemma {:induction false} ItemsRead(items: seq<Json>, x: seq<Token>)
    requires items != [] && forall i :: 0 <= i < |items| ==> IsJson(items[i])
    ensures ReadItems(ItemsInput(items, x)) == Done(items, x)
    decreases items, 0
  {
    var v, rest := items[0], items[1..];
    assert items == [v] + rest;
    if rest == [] {
      assert items == [v];
      ValueRead(v, [Raw(']')] + x);
      OneItemInput(v, x);
      LastItem(ItemsInput([v], x), v, x);
    } else {
      var tail := ItemsInput(rest, x);
      ValueRead(v, [Raw(',')] + tail);
      ItemsRead(rest, x);
      MoreItemsInput(items, x);
      OneItem(ItemsInput(items, x), v, tail, rest, x);
    }
  }

  /** The members in the order they are printed. */
  function Members(v: Json, keys: seq<string>): seq<(string, Json)>
    requires v.Obj? && forall k :: k in keys ==> k in v.fields
  {
    seq(|keys|, i requires 0 <= i < |keys| => (keys[i], v.fields[keys[i]]))
  }

  lemma {:induction false} GatheredMembers(v: Json, keys: seq<string>)
    requires v.Obj? && forall k :: k in keys ==> k in v.fields
    ensures Gathered(Members(v, keys)) == map k | k in keys :: v.fields[k]
  {
    if keys != [] {
      var front := keys[..|keys| - 1];
      GatheredMembers(v, front);
      assert Members(v, keys)[..|keys| - 1] == Members(v, front);
      assert keys == front + [keys[|keys| - 1]];
    }
  }

  /** The text of an object after its opening brace. */
  function FieldsInput(v: Json, keys: seq<string>, x: seq<Token>): seq<Token>
    requires v.Obj? && forall k :: k in keys ==> k in v.fields
  {
    FieldTokens(v, keys) + ([Raw('}')] + x)
  }

  lemma ObjectRead(v: Json, x: seq<Token>)
    requires v.Obj? && IsJson(v)
    ensures ReadValue(Tokens(v) + x) == Done(v, x)
    decreases v, 0
  {
    var keys := SortedKeys(v.fields.Keys);
    var inner := FieldsInput(v, keys, x);
    SortedFields(v);
    if keys == [] {
      NoFields(v, x);
    } else {
      FieldsRead(v, keys, x);
      SomeFields(v, keys, x);
    }
    OpensObject(inner);
    ObjectTokens(v, x);
  }

  lemma ObjectTokens(v: Json, x: seq<Token>)
    requires v.Obj?
    ensures Tokens(v) + x == [Raw('{')] + FieldsInput(v, SortedKeys(v.fields.Keys), x)
  {
  }

  lemma NoFields(v: Json, x: seq<Token>)
    requires v == Obj(map[])
    ensures ReadObject(FieldsInput(v, [], x)) == Done(v, x)
  {
    var inner := FieldsInput(v, [], x);
    assert inner == [Raw('}')] + x && inner[1..] == x;
  }

  lemma SomeFields(v: Json, keys: seq<string>, x: seq<Token>)
    requires v.Obj? && keys != [] && (forall k :: k in keys ==> k in v.fields)
    requires v.fields == map k | k in keys :: v.fields[k]
    requires ReadMembers(FieldsInput(v, keys, x)) == Done(Members(v, keys), x)
    ensures ReadObject(FieldsInput(v, keys, x)) == Done(v, x)
  {
    assert FieldsInput(v, keys, x)[0] == Text(AllUnits(keys[0]));
    GatheredMembers(v, keys);
  }

  lemma SortedFields(v: Json)
    requires v.Obj?
    ensures var keys := SortedKeys(v.fields.Keys); v.fields == map k | k in keys :: v.fields[k]
  {
  }

  lemma OpensObject(inner: seq<Token>)
    ensures ReadValue([Raw('{')] + inner) == ReadObject(inner)
  {
    assert ([Raw('{')] + inner)[1..] == inner;
  }

  /** A name, a colon and a value, which the closing brace follows. */
  lemma LastMember(k: string, body: seq<Token>, w: Json, x: seq<Token>)
    requires ReadValue(body) == Done(w, [Raw('}')] + x)
    ensures ReadMembers([Text(AllUnits(k)), Raw(':')] + body) == Done([(k, w)], x)
  {
    UnitsRead(k);
    MemberStarts(k, body);
    assert ([Raw('}')] + x)[1..] == x;
  }

  lemma OneMember(k: string, body: seq<Token>, w: Json, tail: seq<Token>, ms: seq<(string, Json)>, x: seq<Token>)
    requires ReadValue(body) == Done(w, [Raw(',')] + tail) && ReadMembers(tail) == Done(ms, x)
    ensures ReadMembers([Text(AllUnits(k)), Raw(':')] + body) == Done([(k, w)] + ms, x)
  {
    UnitsRead(k);
    MemberStarts(k, body);
    assert ([Raw(',')] + tail)[1..] == tail;
  }

  lemma MemberStarts(k: string, body: seq<Token>)
    ensures var ts := [Text(AllUnits(k)), Raw(':')] + body;
            SkipWhite(ts) == ts && Starts(SkipWhite(ts[1..]), ':') && SkipWhite(ts[1..])[1..] == body
  {
    var ts := [Text(AllUnits(k)), Raw(':')] + body;
    assert ts[1..] == [Raw(':')] + body && ts[1..][1..] == body;
  }

  lemma OneFieldInput(v: Json, k: string, x: seq<Token>)
    requires v.Obj? && k in v.fields
    ensures FieldsInput(v, [k], x) == [Text(AllUnits(k)), Raw(':')] + (Tokens(v.fields[k]) + ([Raw('}')] + x))
    ensures Members(v, [k]) == [(k, v.fields[k])]
  {
    assert FieldTokens(v, [k]) == [Text(AllUnits(k)), Raw(':')] + Tokens(v.fields[k]);
  }

  lemma MoreMembers(v: Json, keys: seq<string>)
    requires v.Obj? && |keys| > 1 && forall k :: k in keys ==> k in v.fields
    ensures Members(v, keys) == [(keys[0], v.fields[keys[0]])] + Members(v, keys[1..])
  {
  }

  lemma Regroup(a: seq<Token>, b: seq<Token>, c: seq<Token>, d: seq<Token>, e: seq<Token>)
    ensures a + b + (c + d) + e == a + (b + (c + (d + e)))
  {
  }

  lemma MoreFieldsInput(v: Json, keys: seq<string>, x: seq<Token>)
    requires v.Obj? && |keys| > 1 && forall k :: k in keys ==> k in v.fields
    ensures FieldsInput(v, keys, x) ==
      [Text(AllUnits(keys[0])), Raw(':')] +
      (Tokens(v.fields[keys[0]]) + ([Raw(',')] + FieldsInput(v, keys[1..], x)))
  {
    Regroup([Text(AllUnits(keys[0])), Raw(':')], Tokens(v.fields[keys[0]]), [Raw(',')], FieldTokens(v, keys[1..]), [Raw('}')] + x);
  }

  lemma {:induction false} FieldsRead(v: Json, keys: seq<string>, x: seq<Token>)
    requires v.Obj? && IsJson(v) && keys != [] && forall k :: k in keys ==> k in v.fields
    ensures ReadMembers(FieldsInput(v, keys, x)) == Done(Members(v, keys), x)
    decreases v, 0, |keys|
  {
    var k, rest := keys[0], keys[1..];
    var w := v.fields[k];
    assert keys == [k] + rest;
    if rest == [] {
      assert keys == [k];
      ValueRead(w, [Raw('}')] + x);
      OneFieldInput(v, k, x);
      LastMember(k, Tokens(w) + ([Raw('}')] + x), w, x);
    } else {
      var tail := FieldsInput(v, rest, x);
      ValueRead(w, [Raw(',')] + tail);
      FieldsRead(v, rest, x);
      MoreFieldsInput(v, keys, x);
      MoreMembers(v, keys);
      OneMember(k, Tokens(w) + ([Raw(',')] + tail), w, tail, Members(v, rest), x);
    }
  }

  /** The printed text of every value reads back as the value, before and after it is made safe. */
  lemma PrintedValue(v: Json)
    requires IsJson(v)
    ensures ValueOf(Stable(v)) == Some(v)
    ensures ValueOf(EscapeForScript(Stable(v))) == Some(v)
    ensures forall c :: c in EscapeForScript(Stable(v)) ==> c !in {'<', '>', '&', '\U{2028}', '\U{2029}'}
  {
    JsonIsWellFormed(v);
    LexesStable(v);
    ValueRead(v, []);
    assert Stable(v) + "" == Stable(v) && Tokens(v) + [] == Tokens(v);
    assert Lex(Stable(v) + "") == Some(Tokens(v) + []);
    EscapingKeepsValue(Stable(v));
  }
}
