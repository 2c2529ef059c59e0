/**
 * JSON objects printed in the order their members were put in.
 *
 * `JSON.stringify` keeps that order, where the canonical printer sorts. The text reads
 * back as the object all the same.
 */
module JsonText {
  import opened Options
  import opened Json
  import opened ScriptJson
  import opened JsonReader

  type Member = (string, Json)

  function MemberText(m: Member): string {
    Quote(m.0) + ":" + Stable(m.1)
  }

  function MembersText(ms: seq<Member>): string {
    if ms == [] then ""
    else if |ms| == 1 then MemberText(ms[0])
    else MemberText(ms[0]) + "," + MembersText(ms[1..])
  }

  function ObjectText(ms: seq<Member>): string {
    "{" + MembersText(ms) + "}"
  }

  function OneToken(m: Member): seq<Token> {
    [Text(AllUnits(m.0)), Raw(':')] + Tokens(m.1)
  }

  function MemberTokens(ms: seq<Member>): seq<Token> {
    if ms == [] then []
    else OneToken(ms[0]) + if |ms| == 1 then [] else [Raw(',')] + MemberTokens(ms[1..])
  }

  ghost predicate AreJson(ms: seq<Member>) {
    forall i :: 0 <= i < |ms| ==> IsJson(ms[i].1)
  }

  lemma LexesMember(m: Member)
    requires IsJson(m.1)
    ensures Lexes(MemberText(m), OneToken(m))
  {
    JsonIsWellFormed(m.1);
    LexesStable(m.1);
    LexesField(m.0, Stable(m.1), Tokens(m.1));
  }

  lemma {:induction false} LexesMembers(ms: seq<Member>)
    requires AreJson(ms)
    ensures Lexes(MembersText(ms), MemberTokens(ms))
  {
    if ms == [] {
      LexesPlain("");
    } else {
      LexesMember(ms[0]);
      if |ms| > 1 {
        LexesMembers(ms[1..]);
        LexesMore(MemberText(ms[0]), OneToken(ms[0]), MembersText(ms[1..]), MemberTokens(ms[1..]));
      } else {
        assert MemberTokens(ms) == OneToken(ms[0]);
      }
    }
  }

  /** The text of an object after its opening brace. */
  function MembersInput(ms: seq<Member>, x: seq<Token>): seq<Token> {
    MemberTokens(ms) + ([Raw('}')] + x)
  }

  lemma LastInput(m: Member, x: seq<Token>)
    ensures MembersInput([m], x) == [Text(AllUnits(m.0)), Raw(':')] + (Tokens(m.1) + ([Raw('}')] + x))
  {
    assert MemberTokens([m]) == OneToken(m);
  }

  lemma MoreInput(ms: seq<Member>, x: seq<Token>)
    requires |ms| > 1
    ensures MembersInput(ms, x) ==
      [Text(AllUnits(ms[0].0)), Raw(':')] + (Tokens(ms[0].1) + ([Raw(',')] + MembersInput(ms[1..], x)))
  {
    JsonReader.Regroup([Text(AllUnits(ms[0].0)), Raw(':')], Tokens(ms[0].1), [Raw(',')], MemberTokens(ms[1..]), [Raw('}')] + x);
  }

  lemma {:induction false} MembersRead(ms: seq<Member>, x: seq<Token>)
    requires ms != [] && AreJson(ms)
    ensures ReadMembers(MembersInput(ms, x)) == Done(ms, x)
  {
    var m, rest := ms[0], ms[1..];
    assert ms == [m] + rest;
    if rest == [] {
      assert ms == [m];
      ValueRead(m.1, [Raw('}')] + x);
      LastInput(m, x);
      LastMember(m.0, Tokens(m.1) + ([Raw('}')] + x), m.1, x);
    } else {
      var tail := MembersInput(rest, x);
      ValueRead(m.1, [Raw(',')] + tail);
      MembersRead(rest, x);
      MoreInput(ms, x);
      OneMember(m.0, Tokens(m.1) + ([Raw(',')] + tail), m.1, tail, rest, x);
    }
  }

  lemma ObjectTokensRead(ms: seq<Member>)
    requires ms != [] && AreJson(ms)
    ensures ReadValue([Raw('{')] + MemberTokens(ms) + [Raw('}')]) == Done(Obj(Gathered(ms)), [])
  {
    var inner := MembersInput(ms, []);
    MembersRead(ms, []);
    assert [Raw('{')] + MemberTokens(ms) + [Raw('}')] == [Raw('{')] + inner;
    OpensObject(inner);
    assert inner[0] == Text(AllUnits(ms[0].0));
  }

  /** Every object printed in any order of its members reads back as the object, made safe for a script element or not. */
  lemma ObjectTextReads(ms: seq<Member>)
    requires ms != [] && AreJson(ms)
    ensures ValueOf(ObjectText(ms)) == Some(Obj(Gathered(ms)))
    ensures ValueOf(EscapeForScript(ObjectText(ms))) == Some(Obj(Gathered(ms)))
  {
    var ts := [Raw('{')] + MemberTokens(ms) + [Raw('}')];
    LexesMembers(ms);
    LexesBracketed('{', MembersText(ms), MemberTokens(ms), '}');
    ObjectTokensRead(ms);
    assert ObjectText(ms) + "" == ObjectText(ms) && ts + [] == ts;
    assert Lex(ObjectText(ms) + "") == Some(ts + []);
    EscapingKeepsValue(ObjectText(ms));
  }

  /** Members with names of their own: each is there under its name, and nothing else is. */
  lemma {:induction false} GatheredOnce(ms: seq<Member>)
    requires forall i, j :: 0 <= i < j < |ms| ==> ms[i].0 != ms[j].0
    ensures Gathered(ms).Keys == set i | 0 <= i < |ms| :: ms[i].0
    ensures forall i :: 0 <= i < |ms| ==> ms[i].0 in Gathered(ms) && Gathered(ms)[ms[i].0] == ms[i].1
  {
    if ms != [] { GatheredOnce(ms[..|ms| - 1]); }
  }

  // --- one member after another --------------------------------------------------------------

  /** The text from a member on, the comma before it included. */
  function Onwards(ms: seq<Member>): string {
    if ms == [] then "}" else "," + (MemberText(ms[0]) + Onwards(ms[1..]))
  }

  lemma {:induction false} TextOnwards(ms: seq<Member>)
    requires ms != []
    ensures MembersText(ms) + "}" == MemberText(ms[0]) + Onwards(ms[1..])
  {
    if |ms| > 1 {
      TextOnwards(ms[1..]);
      CommaBetween(MemberText(ms[0]), MembersText(ms[1..]), MemberText(ms[1]) + Onwards(ms[2..]));
      assert ms[1..][1..] == ms[2..];
    } else {
      assert ms[1..] == [];
    }
  }

  lemma CommaBetween(a: string, b: string, c: string)
    requires b + "}" == c
    ensures (a + "," + b) + "}" == a + ("," + c)
  {
  }

  /** A name without quotes, backslashes and control characters is printed as it is. */
  predicate IsPlain(s: string) {
    forall i :: 0 <= i < |s| ==> s[i] >= ' ' && s[i] != '\"' && s[i] != '\\'
  }

  lemma {:induction false} PlainQuote(s: string)
    requires IsPlain(s)
    ensures Quote(s) == "\"" + s + "\""
  {
    if s != "" {
      PlainQuote(s[1..]);
      assert QuoteBody(s[1..]) == Quote(s[1..])[1..|Quote(s[1..])| - 1] == s[1..];
      assert s == [s[0]] + s[1..];
    }
  }

  lemma PlainMember(key: string, v: Json)
    requires IsPlain(key)
    ensures MemberText((key, v)) == "\"" + key + "\":" + Stable(v)
  {
    PlainQuote(key);
  }

  lemma NameThenValue(key: string, value: string, rest: string)
    ensures "," + (("\"" + key + "\":" + value) + rest) == ",\"" + key + "\":" + (value + rest)
  {
    assert "," + ("\"" + key + "\":") == ",\"" + key + "\":";
  }

  lemma OpenThenValue(key: string, value: string, rest: string)
    ensures "{" + (("\"" + key + "\":" + value) + rest) == "{\"" + key + "\":" + (value + rest)
  {
    assert "{" + ("\"" + key + "\":") == "{\"" + key + "\":";
  }

  lemma OnwardsFrom(ms: seq<Member>, n: nat)
    requires n < |ms| && IsPlain(ms[n].0)
    ensures Onwards(ms[n..]) == ",\"" + ms[n].0 + "\":" + (Stable(ms[n].1) + Onwards(ms[n + 1..]))
  {
    var m, rest := ms[n], ms[n..];
    assert rest[0] == m && rest[1..] == ms[n + 1..] && m == (m.0, m.1);
    PlainMember(m.0, m.1);
    NameThenValue(m.0, Stable(m.1), Onwards(ms[n + 1..]));
  }
}
