/**
 * JSON values and the canonical printer two documents are compared by.
 *
 * An object is a map, so two values are equal exactly when they are the same up
 * to key order. A number is the decimal text JavaScript prints for it. Strings
 * are sequences of Unicode scalar values: the values come out of a JSON column,
 * which stores no lone surrogate.
 */
module Json {

  datatype Json =
    | Null
    | Bool(b: bool)
    | Num(literal: string)
    | Str(text: string)
    | Arr(items: seq<Json>)
    | Obj(fields: map<string, Json>)

  // --- numbers ------------------------------------------------------------------

  predicate IsNumberChar(c: char) {
    '0' <= c <= '9' || c == '-' || c == '+' || c == '.' || c == 'e'
  }

  /** The texts Number::toString gives for a finite number use this alphabet only. */
  predicate IsNumberText(s: string) {
    s != "" && forall i :: 0 <= i < |s| ==> IsNumberChar(s[i])
  }

  /** Every number inside the value carries such a text. */
  predicate WellFormed(v: Json) {
    match v
    case Num(literal) => IsNumberText(literal)
    case Arr(items) => forall i :: 0 <= i < |items| ==> WellFormed(items[i])
    case Obj(fields) => forall k :: k in fields ==> WellFormed(fields[k])
    case _ => true
  }

  // --- key order ------------------------------------------------------------------

  /** Position of a character in JavaScript's string order, which compares UTF-16 code units. */
  function UnitRank(c: char): int {
    var n := c as int;
    if n >= 0x1_0000 then 0xD800 + (n - 0x1_0000)
    else if n >= 0xE000 then n + 0x10_0000
    else n
  }

  predicate KeyLe(a: string, b: string) {
    a == "" || (b != "" && (UnitRank(a[0]) < UnitRank(b[0]) || (a[0] == b[0] && KeyLe(a[1..], b[1..]))))
  }

  lemma {:induction false} KeyLeTotal(a: string, b: string)
    ensures KeyLe(a, b) || KeyLe(b, a)
  {
    if a != "" && b != "" && a[0] == b[0] { KeyLeTotal(a[1..], b[1..]); }
  }

  lemma {:induction false} KeyLeAntisymmetric(a: string, b: string)
    requires KeyLe(a, b) && KeyLe(b, a)
    ensures a == b
  {
    if a != "" && b != "" {
      KeyLeAntisymmetric(a[1..], b[1..]);
      assert a == [a[0]] + a[1..] && b == [b[0]] + b[1..];
    }
  }

  lemma {:induction false} KeyLeTransitive(a: string, b: string, c: string)
    requires KeyLe(a, b) && KeyLe(b, c)
    ensures KeyLe(a, c)
  {
    if a != "" && a[0] == b[0] && b[0] == c[0] { KeyLeTransitive(a[1..], b[1..], c[1..]); }
  }

  lemma {:induction false} LeastKeyExists(keys: set<string>) returns (k: string)
    requires keys != {}
    ensures k in keys && forall j :: j in keys ==> KeyLe(k, j)
    decreases |keys|
  {
    var x :| x in keys;
    if keys == {x} {
      k := x;
      KeyLeTotal(x, x);
    } else {
      var rest := keys - {x};
      assert keys == {x} + rest;
      var y := LeastKeyExists(rest);
      KeyLeTotal(x, y);
      KeyLeTotal(x, x);
      k := if KeyLe(x, y) then x else y;
      forall j | j in keys ensures KeyLe(k, j) {
        if j in rest && KeyLe(x, y) { KeyLeTransitive(x, y, j); }
      }
    }
  }

  function LeastKey(keys: set<string>): (k: string)
    requires keys != {}
    ensures k in keys && forall j :: j in keys ==> KeyLe(k, j)
  {
    assert exists k :: k in keys && forall j :: j in keys ==> KeyLe(k, j) by {
      var k := LeastKeyExists(keys);
    }
    assert forall k, l | k in keys && l in keys && KeyLe(k, l) && KeyLe(l, k) :: k == l by {
      forall k, l | k in keys && l in keys && KeyLe(k, l) && KeyLe(l, k) ensures k == l {
        KeyLeAntisymmetric(k, l);
      }
    }
    var k :| k in keys && forall j :: j in keys ==> KeyLe(k, j);
    k
  }

  /** The keys of an object in ascending order, each once. */
  function SortedKeys(keys: set<string>): (r: seq<string>)
    ensures forall k :: k in r <==> k in keys
    ensures forall i, j :: 0 <= i < j < |r| ==> r[i] != r[j] && KeyLe(r[i], r[j])
    decreases |keys|
  {
    if keys == {} then []
    else
      var k := LeastKey(keys);
      [k] + SortedKeys(keys - {k})
  }

  // --- the printer ------------------------------------------------------------------

  function HexDigit(n: nat): char
    requires n < 16
  {
    if n < 10 then '0' + n as char else 'a' + (n - 10) as char
  }

  /** One character inside a JSON string, as JSON.stringify writes it. */
  function QuoteChar(c: char): string {
    if c == '\"' then "\\\""
    else if c == '\\' then "\\\\"
    else if c == '\U{0008}' then "\\b"
    else if c == '\U{0009}' then "\\t"
    else if c == '\U{000A}' then "\\n"
    else if c == '\U{000C}' then "\\f"
    else if c == '\U{000D}' then "\\r"
    else if c < ' ' then ['\\', 'u', '0', '0', HexDigit(c as int / 16), HexDigit(c as int % 16)]
    else [c]
  }

  function QuoteBody(s: string): string {
    if s == "" then "" else QuoteChar(s[0]) + QuoteBody(s[1..])
  }

  function Quote(s: string): string {
    "\"" + QuoteBody(s) + "\""
  }

  function Join(parts: seq<string>): string {
    if |parts| == 0 then ""
    else if |parts| == 1 then parts[0]
    else parts[0] + "," + Join(parts[1..])
  }

  /** The canonical text: keys sorted, nothing between tokens. */
  function Stable(v: Json): string
    decreases v, 1
  {
    match v
    case Null => "null"
    case Bool(b) => if b then "true" else "false"
    case Num(literal) => literal
    case Str(text) => Quote(text)
    case Arr(items) => "[" + Join(StableItems(items)) + "]"
    case Obj(fields) => "{" + Join(StableFields(v, SortedKeys(fields.Keys))) + "}"
  }

  function StableItems(items: seq<Json>): (r: seq<string>)
    ensures |r| == |items|
    decreases items, 0
  {
    if items == [] then [] else [Stable(items[0])] + StableItems(items[1..])
  }

  function StableFields(v: Json, keys: seq<string>): (r: seq<string>)
    requires v.Obj? && forall k :: k in keys ==> k in v.fields
    ensures |r| == |keys|
    decreases v, 0, |keys|
  {
    if keys == [] then []
    else [Quote(keys[0]) + ":" + Stable(v.fields[keys[0]])] + StableFields(v, keys[1..])
  }

  /** The source's deep equality: two values with the same canonical text. */
  predicate SameJson(a: Json, b: Json) {
    Stable(a) == Stable(b)
  }

  // --- the canonical text determines the value ----------------------------------------

  /** What may follow a value inside a text: nothing, or one of these. */
  predicate IsAfterValue(rest: string) {
    rest == "" || rest[0] == ',' || rest[0] == ']' || rest[0] == '}'
  }

  lemma QuoteCharUnique(c: char, d: char, x: string, y: string)
    requires QuoteChar(c) + x == QuoteChar(d) + y
    ensures c == d && x == y
  {
    var p, q := QuoteChar(c) + x, QuoteChar(d) + y;
    assert p[0] == q[0];
    if c < ' ' && d < ' ' && |QuoteChar(c)| == 6 && |QuoteChar(d)| == 6 {
      assert p[4] == q[4] && p[5] == q[5];
      assert c as int / 16 == d as int / 16 && c as int % 16 == d as int % 16;
    } else if |QuoteChar(c)| > 1 && |QuoteChar(d)| > 1 {
      assert p[1] == q[1];
    }
    assert p[|QuoteChar(c)|..] == x && q[|QuoteChar(d)|..] == y;
  }

  lemma Regroup(a: string, b: string, c: string, d: string)
    ensures a + b + c + d == a + (b + c + d)
  {
  }

  /** Only the empty string closes at once: no character's code starts with the quote. */
  lemma QuoteBodyEmpty(s: string, x: string)
    ensures (QuoteBody(s) + "\"" + x)[0] == '\"' <==> s == ""
  {
    if s != "" { assert QuoteChar(s[0])[0] != '\"'; }
  }

  lemma {:induction false} QuoteBodyUnique(s: string, t: string, x: string, y: string)
    requires QuoteBody(s) + "\"" + x == QuoteBody(t) + "\"" + y
    ensures s == t && x == y
  {
    QuoteBodyEmpty(s, x);
    QuoteBodyEmpty(t, y);
    if s == "" {
      assert (QuoteBody(s) + "\"" + x)[1..] == x && (QuoteBody(t) + "\"" + y)[1..] == y;
    } else {
      Regroup(QuoteChar(s[0]), QuoteBody(s[1..]), "\"", x);
      Regroup(QuoteChar(t[0]), QuoteBody(t[1..]), "\"", y);
      QuoteCharUnique(s[0], t[0], QuoteBody(s[1..]) + "\"" + x, QuoteBody(t[1..]) + "\"" + y);
      QuoteBodyUnique(s[1..], t[1..], x, y);
      assert s == [s[0]] + s[1..] && t == [t[0]] + t[1..];
    }
  }

  /** A quoted string is a prefix code: whatever follows, it reads back one way. */
  lemma QuoteUnique(s: string, t: string, x: string, y: string)
    requires Quote(s) + x == Quote(t) + y
    ensures s == t && x == y
  {
    var p, q := Quote(s) + x, Quote(t) + y;
    assert p[1..] == QuoteBody(s) + "\"" + x;
    assert q[1..] == QuoteBody(t) + "\"" + y;
    QuoteBodyUnique(s, t, x, y);
  }

  /** Where a run of number characters stops. */
  lemma NumberEnds(s: string, x: string, n: nat)
    requires IsAfterValue(x) && n <= |s + x|
    requires forall i :: 0 <= i < n ==> IsNumberChar((s + x)[i])
    ensures n <= |s|
  {
    if |s| < |s + x| { assert (s + x)[|s|] == x[0] && !IsNumberChar(x[0]); }
  }

  lemma NumberUnique(s: string, t: string, x: string, y: string)
    requires IsNumberText(s) && IsNumberText(t)
    requires IsAfterValue(x) && IsAfterValue(y)
    requires s + x == t + y
    ensures s == t && x == y
  {
    assert forall i :: 0 <= i < |s| ==> (s + x)[i] == s[i];
    assert forall i :: 0 <= i < |t| ==> (t + y)[i] == t[i];
    NumberEnds(s, x, |t|);
    NumberEnds(t, y, |s|);
    assert s == (s + x)[..|s|] && t == (t + y)[..|t|];
    assert x == (s + x)[|s|..] && y == (t + y)[|t|..];
  }

  /** The first character of a canonical text tells the kind of value. */
  function FirstChar(v: Json): char
    requires WellFormed(v)
  {
    match v
    case Null => 'n'
    case Bool(b) => if b then 't' else 'f'
    case Num(literal) => literal[0]
    case Str(_) => '\"'
    case Arr(_) => '['
    case Obj(_) => '{'
  }

  lemma StableStarts(v: Json, x: string)
    requires WellFormed(v)
    ensures |Stable(v) + x| > 0 && (Stable(v) + x)[0] == FirstChar(v)
    ensures FirstChar(v) !in {',', ':', ']', '}'}
  {
  }

  /** The text after the first of several comma-joined parts. */
  function Tail(parts: seq<string>): string
    requires parts != []
  {
    if |parts| == 1 then "" else "," + Join(parts[1..])
  }

  lemma JoinEmpty(parts: seq<string>, close: char, x: string)
    requires parts != [] ==> parts[0] != "" && parts[0][0] != close
    ensures (Join(parts) + [close] + x)[0] == close <==> parts == []
  {
    if parts != [] { assert Join(parts)[0] == parts[0][0]; }
  }

  /** Of two equal closed lists both are empty or neither. */
  lemma EmptyAlike(ps: seq<string>, qs: seq<string>, close: char, x: string, y: string)
    requires ps != [] ==> ps[0] != "" && ps[0][0] != close
    requires qs != [] ==> qs[0] != "" && qs[0][0] != close
    requires Join(ps) + [close] + x == Join(qs) + [close] + y
    ensures ps == [] <==> qs == []
    ensures ps == [] ==> x == y
  {
    JoinEmpty(ps, close, x);
    JoinEmpty(qs, close, y);
    if ps == [] { assert (Join(ps) + [close] + x)[1..] == x && (Join(qs) + [close] + y)[1..] == y; }
  }

  lemma JoinSplits(parts: seq<string>, head: string, close: char, x: string)
    requires parts != [] && parts[0] == head
    ensures Join(parts) + [close] + x == head + (Tail(parts) + [close] + x)
    ensures close in {']', '}'} ==> IsAfterValue(Tail(parts) + [close] + x)
  {
  }

  lemma TailParts(parts: seq<string>, close: char, x: string)
    requires parts != []
    ensures var t := Tail(parts) + [close] + x;
            t[0] == (if |parts| == 1 then close else ',') &&
            t[1..] == (if |parts| == 1 then x else Join(parts[1..]) + [close] + x)
  {
  }

  /**
   * Two joined lists, each closed by the same bracket. When their first parts
   * agree, either both end there or both go on.
   */
  lemma JoinUnique(ps: seq<string>, qs: seq<string>, close: char, x: string, y: string)
    requires ps != [] && qs != [] && close in {']', '}'}
    requires Tail(ps) + [close] + x == Tail(qs) + [close] + y
    ensures |ps| == 1 <==> |qs| == 1
    ensures |ps| == 1 ==> x == y
    ensures |ps| > 1 ==> Join(ps[1..]) + [close] + x == Join(qs[1..]) + [close] + y
  {
    TailParts(ps, close, x);
    TailParts(qs, close, y);
  }

  lemma {:induction false} ItemsUnique(vs: seq<Json>, ws: seq<Json>, x: string, y: string)
    requires forall i :: 0 <= i < |vs| ==> WellFormed(vs[i])
    requires forall i :: 0 <= i < |ws| ==> WellFormed(ws[i])
    requires Join(StableItems(vs)) + [']'] + x == Join(StableItems(ws)) + [']'] + y
    ensures vs == ws && x == y
    decreases vs, 0
  {
    var ps, qs := StableItems(vs), StableItems(ws);
    if vs != [] { StableStarts(vs[0], ""); assert Stable(vs[0]) + "" == ps[0]; }
    if ws != [] { StableStarts(ws[0], ""); assert Stable(ws[0]) + "" == qs[0]; }
    EmptyAlike(ps, qs, ']', x, y);
    if vs != [] {
      JoinSplits(ps, Stable(vs[0]), ']', x);
      JoinSplits(qs, Stable(ws[0]), ']', y);
      StableUnique(vs[0], ws[0], Tail(ps) + [']'] + x, Tail(qs) + [']'] + y);
      JoinUnique(ps, qs, ']', x, y);
      assert ps[1..] == StableItems(vs[1..]) && qs[1..] == StableItems(ws[1..]);
      if |ps| > 1 { ItemsUnique(vs[1..], ws[1..], x, y); }
      assert vs == [vs[0]] + vs[1..] && ws == [ws[0]] + ws[1..];
    }
  }

  /** One printed field, and what is left of the text after it. */
  lemma FieldUnique(k: string, v: Json, l: string, w: Json, x: string, y: string)
    requires WellFormed(v) && WellFormed(w) && IsAfterValue(x) && IsAfterValue(y)
    requires (Quote(k) + ":" + Stable(v)) + x == (Quote(l) + ":" + Stable(w)) + y
    ensures k == l && v == w && x == y
    decreases v, 2
  {
    Regroup(Quote(k), ":", Stable(v), x);
    Regroup(Quote(l), ":", Stable(w), y);
    QuoteUnique(k, l, ":" + Stable(v) + x, ":" + Stable(w) + y);
    assert (":" + Stable(v) + x)[1..] == Stable(v) + x;
    assert (":" + Stable(w) + y)[1..] == Stable(w) + y;
    StableUnique(v, w, x, y);
  }

  /** The first fields of two printed objects, and what follows each. */
  lemma FirstFieldUnique(a: Json, b: Json, ks: seq<string>, ls: seq<string>, x: string, y: string)
    requires a.Obj? && b.Obj? && WellFormed(a) && WellFormed(b)
    requires ks != [] && ls != []
    requires forall k :: k in ks ==> k in a.fields
    requires forall k :: k in ls ==> k in b.fields
    requires Join(StableFields(a, ks)) + ['}'] + x == Join(StableFields(b, ls)) + ['}'] + y
    ensures ks[0] == ls[0] && a.fields[ks[0]] == b.fields[ls[0]]
    ensures Tail(StableFields(a, ks)) + ['}'] + x == Tail(StableFields(b, ls)) + ['}'] + y
    decreases a, 0, 0
  {
    var ps, qs := StableFields(a, ks), StableFields(b, ls);
    var v, w := a.fields[ks[0]], b.fields[ls[0]];
    JoinSplits(ps, Quote(ks[0]) + ":" + Stable(v), '}', x);
    JoinSplits(qs, Quote(ls[0]) + ":" + Stable(w), '}', y);
    FieldUnique(ks[0], v, ls[0], w, Tail(ps) + ['}'] + x, Tail(qs) + ['}'] + y);
  }

  lemma {:induction false} FieldsUnique(
    a: Json, b: Json, ks: seq<string>, ls: seq<string>, x: string, y: string)
    requires a.Obj? && b.Obj? && WellFormed(a) && WellFormed(b)
    requires forall k :: k in ks ==> k in a.fields
    requires forall k :: k in ls ==> k in b.fields
    requires Join(StableFields(a, ks)) + ['}'] + x == Join(StableFields(b, ls)) + ['}'] + y
    ensures ks == ls && x == y
    ensures forall k :: k in ks ==> a.fields[k] == b.fields[k]
    decreases a, 0, |ks|
  {
    var ps, qs := StableFields(a, ks), StableFields(b, ls);
    EmptyAlike(ps, qs, '}', x, y);
    if ks != [] {
      FirstFieldUnique(a, b, ks, ls, x, y);
      JoinUnique(ps, qs, '}', x, y);
      assert ps[1..] == StableFields(a, ks[1..]) && qs[1..] == StableFields(b, ls[1..]);
      if |ps| > 1 { FieldsUnique(a, b, ks[1..], ls[1..], x, y); }
      assert ks == [ks[0]] + ks[1..] && ls == [ls[0]] + ls[1..];
    }
  }

  lemma ObjectBody(v: Json, x: string)
    requires v.Obj?
    ensures (Stable(v) + x)[1..] == Join(StableFields(v, SortedKeys(v.fields.Keys))) + ['}'] + x
  {
    var body := Join(StableFields(v, SortedKeys(v.fields.Keys)));
    assert Stable(v) == "{" + body + "}";
  }

  /** Fields listed under the same keys, with equal values, are the same fields. */
  lemma SameFields(m: map<string, Json>, n: map<string, Json>)
    requires SortedKeys(m.Keys) == SortedKeys(n.Keys)
    requires forall k :: k in SortedKeys(m.Keys) ==> m[k] == n[k]
    ensures m == n
  {
    assert forall k :: k in m.Keys <==> k in SortedKeys(m.Keys);
    assert forall k :: k in n.Keys <==> k in SortedKeys(n.Keys);
    assert m.Keys == n.Keys;
  }

  lemma ObjectUnique(a: Json, b: Json, x: string, y: string)
    requires a.Obj? && b.Obj? && WellFormed(a) && WellFormed(b)
    requires Stable(a) + x == Stable(b) + y
    ensures a == b && x == y
    decreases a, 0
  {
    ObjectBody(a, x);
    ObjectBody(b, y);
    FieldsUnique(a, b, SortedKeys(a.fields.Keys), SortedKeys(b.fields.Keys), x, y);
    SameFields(a.fields, b.fields);
  }

  lemma ArrayUnique(a: Json, b: Json, x: string, y: string)
    requires a.Arr? && b.Arr? && WellFormed(a) && WellFormed(b)
    requires Stable(a) + x == Stable(b) + y
    ensures a == b && x == y
    decreases a, 0
  {
    assert (Stable(a) + x)[1..] == Join(StableItems(a.items)) + [']'] + x;
    assert (Stable(b) + y)[1..] == Join(StableItems(b.items)) + [']'] + y;
    ItemsUnique(a.items, b.items, x, y);
  }

  /** Null, true and false print as themselves and as nothing else. */
  lemma ConstantUnique(a: Json, b: Json, x: string, y: string)
    requires (a.Null? || a.Bool?) && (b.Null? || b.Bool?)
    requires Stable(a) + x == Stable(b) + y
    ensures a == b && x == y
  {
    assert (Stable(a) + x)[0] == Stable(a)[0] && (Stable(b) + y)[0] == Stable(b)[0];
    assert (Stable(a) + x)[|Stable(a)|..] == x && (Stable(b) + y)[|Stable(b)|..] == y;
  }

  lemma SameKind(a: Json, b: Json, x: string, y: string)
    requires WellFormed(a) && WellFormed(b) && Stable(a) + x == Stable(b) + y
    ensures a.Num? <==> b.Num?
    ensures a.Str? <==> b.Str?
    ensures a.Arr? <==> b.Arr?
    ensures a.Obj? <==> b.Obj?
  {
    StableStarts(a, x);
    StableStarts(b, y);
    assert FirstChar(a) == FirstChar(b);
    assert a.Num? <==> IsNumberChar(FirstChar(a));
    assert b.Num? <==> IsNumberChar(FirstChar(b));
  }

  /** Canonical texts are uniquely decodable, alone or inside a longer text. */
  lemma {:induction false} StableUnique(a: Json, b: Json, x: string, y: string)
    requires WellFormed(a) && WellFormed(b)
    requires IsAfterValue(x) && IsAfterValue(y)
    requires Stable(a) + x == Stable(b) + y
    ensures a == b && x == y
    decreases a, 1
  {
    SameKind(a, b, x, y);
    if a.Num? {
      NumberUnique(a.literal, b.literal, x, y);
    } else if a.Str? {
      QuoteUnique(a.text, b.text, x, y);
    } else if a.Arr? {
      ArrayUnique(a, b, x, y);
    } else if a.Obj? {
      ObjectUnique(a, b, x, y);
    } else {
      ConstantUnique(a, b, x, y);
    }
  }

  /** The canonical printer compares values: equal texts mean equal values, and conversely. */
  lemma StableInjective(a: Json, b: Json)
    requires WellFormed(a) && WellFormed(b)
    ensures SameJson(a, b) <==> a == b
  {
    if SameJson(a, b) { StableUnique(a, b, "", ""); }
  }
}
