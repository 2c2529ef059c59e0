/** What an audit row records, and the payload text its hash covers. */
module AuditPayload {
  import opened Options
  import opened Json
  import opened HashChain
  import JsonReader
  import JsonText

  datatype Entry = Entry(
    actorId: string,
    entity: string,
    entityId: string,
    action: string,
    before: Json,
    after: Json,
    at: string,
    nonce: string)

  /** A member of the payload object and everything after it. */
  function Member(key: string, value: string, rest: string): string {
    key + (value + rest)
  }

  /**
   * The payload text, member by member in the order it is built. The `before`
   * and `after` objects of a staff change are written with their keys already
   * in ascending order, so the canonical printer gives their text.
   */
  function Payload(e: Entry): string {
    Member("{\"actorId\":", Quote(e.actorId),
    Member(",\"entity\":", Quote(e.entity),
    Member(",\"entityId\":", Quote(e.entityId),
    Member(",\"action\":", Quote(e.action),
    Member(",\"before\":", Stable(e.before),
    Member(",\"after\":", Stable(e.after),
    Member(",\"at\":", Quote(e.at),
    Member(",\"nonce\":", Quote(e.nonce), "}"))))))))
  }

  predicate IsEntry(e: Entry) {
    WellFormed(e.before) && WellFormed(e.after)
  }

  lemma TextMember(key: string, s: string, t: string, x: string, y: string)
    requires Member(key, Quote(s), x) == Member(key, Quote(t), y)
    ensures s == t && x == y
  {
    assert Member(key, Quote(s), x)[|key|..] == Quote(s) + x;
    assert Member(key, Quote(t), y)[|key|..] == Quote(t) + y;
    QuoteUnique(s, t, x, y);
  }

  lemma JsonMember(key: string, v: Json, w: Json, x: string, y: string)
    requires WellFormed(v) && WellFormed(w) && IsAfterValue(x) && IsAfterValue(y)
    requires Member(key, Stable(v), x) == Member(key, Stable(w), y)
    ensures v == w && x == y
  {
    assert Member(key, Stable(v), x)[|key|..] == Stable(v) + x;
    assert Member(key, Stable(w), y)[|key|..] == Stable(w) + y;
    StableUnique(v, w, x, y);
  }

  /** The payload text determines the entry. */
  lemma PayloadInjective(a: Entry, b: Entry)
    requires IsEntry(a) && IsEntry(b) && Payload(a) == Payload(b)
    ensures a == b
  {
    var a8, b8 := Member(",\"nonce\":", Quote(a.nonce), "}"), Member(",\"nonce\":", Quote(b.nonce), "}");
    var a7, b7 := Member(",\"at\":", Quote(a.at), a8), Member(",\"at\":", Quote(b.at), b8);
    var a6, b6 := Member(",\"after\":", Stable(a.after), a7), Member(",\"after\":", Stable(b.after), b7);
    var a5, b5 := Member(",\"before\":", Stable(a.before), a6), Member(",\"before\":", Stable(b.before), b6);
    var a4, b4 := Member(",\"action\":", Quote(a.action), a5), Member(",\"action\":", Quote(b.action), b5);
    var a3, b3 := Member(",\"entityId\":", Quote(a.entityId), a4), Member(",\"entityId\":", Quote(b.entityId), b4);
    var a2, b2 := Member(",\"entity\":", Quote(a.entity), a3), Member(",\"entity\":", Quote(b.entity), b3);
    TextMember("{\"actorId\":", a.actorId, b.actorId, a2, b2);
    TextMember(",\"entity\":", a.entity, b.entity, a3, b3);
    TextMember(",\"entityId\":", a.entityId, b.entityId, a4, b4);
    TextMember(",\"action\":", a.action, b.action, a5, b5);
    assert a6[0] == ',' && b6[0] == ',' && a7[0] == ',' && b7[0] == ',';
    JsonMember(",\"before\":", a.before, b.before, a6, b6);
    JsonMember(",\"after\":", a.after, b.after, a7, b7);
    TextMember(",\"at\":", a.at, b.at, a8, b8);
    TextMember(",\"nonce\":", a.nonce, b.nonce, "}", "}");
  }

  // --- whole logs ---------------------------------------------------------------------

  /** The entries a log records, payload by payload. */
  ghost predicate Records(log: seq<Row>, entries: seq<Entry>) {
    && |log| == |entries|
    && forall i :: 0 <= i < |log| ==> IsEntry(entries[i]) && log[i].payload == Payload(entries[i])
  }

  lemma PayloadIsObject(e: Entry)
    ensures IsPayload(Payload(e))
  {
  }

  /** Logs with the same head hash record the same actions, values, times and actors, in the same order. */
  lemma SameHeadSameEntries(hash: Hash, a: seq<Row>, b: seq<Row>, d: seq<Entry>, e: seq<Entry>)
    requires IsChain(hash, a) && IsChain(hash, b) && NoCollision(hash, a, b)
    requires a != [] && b != [] && a[|a| - 1].hash == b[|b| - 1].hash
    requires Records(a, d) && Records(b, e)
    ensures d == e
  {
    SameHeadSameLog(hash, a, b);
    forall i | 0 <= i < |a| ensures d[i] == e[i] {
      assert Protected(a[i]) == Protected(b[i]);
      PayloadInjective(d[i], e[i]);
    }
  }

  // --- what the payload says --------------------------------------------------------------

  /** The members of a payload in the order they are printed. */
  ghost predicate AreMembers(ms: seq<JsonText.Member>, e: Entry) {
    && |ms| == 8
    && ms[0].0 == "actorId" && ms[1].0 == "entity" && ms[2].0 == "entityId" && ms[3].0 == "action"
    && ms[4].0 == "before" && ms[5].0 == "after" && ms[6].0 == "at" && ms[7].0 == "nonce"
    && ms[0].1 == Str(e.actorId) && ms[1].1 == Str(e.entity) && ms[2].1 == Str(e.entityId) && ms[3].1 == Str(e.action)
    && ms[4].1 == e.before && ms[5].1 == e.after && ms[6].1 == Str(e.at) && ms[7].1 == Str(e.nonce)
  }

  /** What stands between a member's value and the value before it. */
  ghost predicate IsLabel(ms: seq<JsonText.Member>, n: nat, name: string) {
    n < |ms| && JsonText.IsPlain(ms[n].0) && name == ",\"" + ms[n].0 + "\":"
  }

  lemma LastLabels(ms: seq<JsonText.Member>, e: Entry)
    requires AreMembers(ms, e)
    ensures IsLabel(ms, 4, ",\"before\":") && IsLabel(ms, 5, ",\"after\":")
    ensures IsLabel(ms, 6, ",\"at\":") && IsLabel(ms, 7, ",\"nonce\":")
  {
  }

  lemma FirstLabels(ms: seq<JsonText.Member>, e: Entry)
    requires AreMembers(ms, e)
    ensures IsLabel(ms, 1, ",\"entity\":") && IsLabel(ms, 2, ",\"entityId\":") && IsLabel(ms, 3, ",\"action\":")
  {
  }

  /** The text from the `n`th member on is that member and the text after it. */
  ghost predicate MemberFollows(ms: seq<JsonText.Member>, n: nat, name: string, after: string) {
    n < |ms| && JsonText.Onwards(ms[n..]) == Member(name, Stable(ms[n].1), after)
  }

  lemma MemberOnwards(ms: seq<JsonText.Member>, n: nat, name: string, after: string)
    requires IsLabel(ms, n, name) && after == JsonText.Onwards(ms[n + 1..])
    ensures MemberFollows(ms, n, name, after)
  {
    JsonText.OnwardsFrom(ms, n);
  }

  lemma NothingAfter(ms: seq<JsonText.Member>, e: Entry)
    requires AreMembers(ms, e)
    ensures JsonText.Onwards(ms[8..]) == "}"
  {
    assert ms[8..] == [];
  }

  lemma TailText(ms: seq<JsonText.Member>, e: Entry)
    requires AreMembers(ms, e)
    ensures JsonText.Onwards(ms[4..]) ==
              Member(",\"before\":", Stable(e.before),
              Member(",\"after\":", Stable(e.after),
              Member(",\"at\":", Quote(e.at),
              Member(",\"nonce\":", Quote(e.nonce), "}"))))
  {
    NothingAfter(ms, e);
    LastLabels(ms, e);
    MemberOnwards(ms, 7, ",\"nonce\":", "}");
    MemberOnwards(ms, 6, ",\"at\":", JsonText.Onwards(ms[7..]));
    MemberOnwards(ms, 5, ",\"after\":", JsonText.Onwards(ms[6..]));
    MemberOnwards(ms, 4, ",\"before\":", JsonText.Onwards(ms[5..]));
  }

  lemma IdText(ms: seq<JsonText.Member>, e: Entry, tail: string)
    requires AreMembers(ms, e) && tail == JsonText.Onwards(ms[4..])
    ensures JsonText.Onwards(ms[2..]) == Member(",\"entityId\":", Quote(e.entityId), Member(",\"action\":", Quote(e.action), tail))
  {
    FirstLabels(ms, e);
    MemberOnwards(ms, 3, ",\"action\":", tail);
    MemberOnwards(ms, 2, ",\"entityId\":", JsonText.Onwards(ms[3..]));
  }

  lemma MiddleText(ms: seq<JsonText.Member>, e: Entry, tail: string)
    requires AreMembers(ms, e) && tail == JsonText.Onwards(ms[4..])
    ensures JsonText.Onwards(ms[1..]) ==
              Member(",\"entity\":", Quote(e.entity),
              Member(",\"entityId\":", Quote(e.entityId),
              Member(",\"action\":", Quote(e.action), tail)))
  {
    IdText(ms, e, tail);
    FirstLabels(ms, e);
    MemberOnwards(ms, 1, ",\"entity\":", JsonText.Onwards(ms[2..]));
  }

  lemma HeadText(m: JsonText.Member, name: string, rest: string)
    requires JsonText.IsPlain(m.0) && name == "{\"" + m.0 + "\":"
    ensures "{" + (JsonText.MemberText(m) + rest) == Member(name, Stable(m.1), rest)
  {
    JsonText.PlainMember(m.0, m.1);
    assert m == (m.0, m.1);
    JsonText.OpenThenValue(m.0, Stable(m.1), rest);
  }

  lemma FirstLabel(m: JsonText.Member)
    requires m.0 == "actorId"
    ensures JsonText.IsPlain(m.0) && "{\"actorId\":" == "{\"" + m.0 + "\":"
  {
  }

  lemma PayloadIsObjectText(ms: seq<JsonText.Member>, e: Entry)
    requires AreMembers(ms, e)
    ensures Payload(e) == JsonText.ObjectText(ms)
  {
    TailText(ms, e);
    MiddleText(ms, e, JsonText.Onwards(ms[4..]));
    FirstLabel(ms[0]);
    HeadText(ms[0], "{\"actorId\":", JsonText.Onwards(ms[1..]));
    JsonText.TextOnwards(ms);
    assert JsonText.ObjectText(ms) == "{" + (JsonText.MembersText(ms) + "}");
  }

  /** The value is an object of these eight members, each under its own name. */
  ghost predicate Says(v: Json, e: Entry) {
    && v.Obj?
    && v.fields.Keys == {"actorId", "entity", "entityId", "action", "before", "after", "at", "nonce"}
    && v.fields["actorId"] == Str(e.actorId) && v.fields["entity"] == Str(e.entity)
    && v.fields["entityId"] == Str(e.entityId) && v.fields["action"] == Str(e.action)
    && v.fields["before"] == e.before && v.fields["after"] == e.after
    && v.fields["at"] == Str(e.at) && v.fields["nonce"] == Str(e.nonce)
  }

  lemma GatheredSays(ms: seq<JsonText.Member>, e: Entry)
    requires AreMembers(ms, e)
    ensures Says(Obj(JsonReader.Gathered(ms)), e)
  {
    JsonText.GatheredOnce(ms);
    assert (set i | 0 <= i < |ms| :: ms[i].0) ==
      {ms[0].0, ms[1].0, ms[2].0, ms[3].0, ms[4].0, ms[5].0, ms[6].0, ms[7].0};
  }

  lemma MembersOf(e: Entry) returns (ms: seq<JsonText.Member>)
    ensures AreMembers(ms, e)
  {
    ms := [("actorId", Str(e.actorId)), ("entity", Str(e.entity)), ("entityId", Str(e.entityId)),
           ("action", Str(e.action)), ("before", e.before), ("after", e.after), ("at", Str(e.at)), ("nonce", Str(e.nonce))];
  }

  lemma MembersAreJson(ms: seq<JsonText.Member>, e: Entry)
    requires AreMembers(ms, e) && JsonReader.IsJson(e.before) && JsonReader.IsJson(e.after)
    ensures JsonText.AreJson(ms)
  {
  }

  /** The payload read back as JSON: an object of the eight members, each under its own name. */
  lemma PayloadReads(e: Entry)
    requires JsonReader.IsJson(e.before) && JsonReader.IsJson(e.after)
    ensures JsonReader.ValueOf(Payload(e)).Some? && Says(JsonReader.ValueOf(Payload(e)).value, e)
  {
    var ms := MembersOf(e);
    PayloadIsObjectText(ms, e);
    MembersAreJson(ms, e);
    JsonText.ObjectTextReads(ms);
    GatheredSays(ms, e);
  }
}
