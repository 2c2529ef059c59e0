/**
 * Switching staff accounts off and on: what each transaction does when it runs by
 * itself. `StaffRuns` has what becomes of them when they overlap. Accounts are kept
 * under their emails trimmed and in lower case.
 */
module StaffLifecycle {
  import opened Options
  import opened Json
  import opened HashChain
  import opened AuditPayload
  import opened Text
  import JsonReader

  datatype Role = OWNER | ADMIN | CATALOG | MARKETING | SUPPORT | FULFILLMENT | READONLY

  datatype Account = Account(id: string, role: Role, isActive: bool)

  datatype Session = Session(staffId: string, revokedAt: Option<int>)

  /** The two tables a staff change writes over; the audit log is beside them. */
  datatype Tables = Tables(accounts: map<string, Account>, sessions: map<nat, Session>) {
    predicate IsActiveOwner(email: string) {
      email in accounts && accounts[email].isActive && accounts[email].role.OWNER?
    }

    predicate HasOtherOwner(email: string) {
      exists e :: e in accounts && e != email && IsActiveOwner(e)
    }

    /** Somebody can still run the panel. */
    predicate HasOwner() {
      exists e :: e in accounts && IsActiveOwner(e)
    }

    function Live(staffId: string): set<nat> {
      set k | k in sessions && sessions[k].staffId == staffId && sessions[k].revokedAt.None?
    }

    /** Ids are unique, and every session belongs to an account. */
    ghost predicate Valid() {
      && (forall d, e :: d in accounts && e in accounts && accounts[d].id == accounts[e].id ==> d == e)
      && (forall k :: k in sessions ==> HasId(sessions[k].staffId))
    }

    predicate HasId(id: string) {
      exists e :: e in accounts && accounts[e].id == id
    }

    /** No account that is off has a session that is on. */
    ghost predicate OffMeansSignedOut() {
      forall e :: e in accounts && !accounts[e].isActive ==> Live(accounts[e].id) == {}
    }
  }

  function Revoked(sessions: map<nat, Session>, staffId: string, now: int): map<nat, Session> {
    map k | k in sessions ::
      if sessions[k].staffId == staffId && sessions[k].revokedAt.None?
      then sessions[k].(revokedAt := Some(now)) else sessions[k]
  }

  // --- the plan ---------------------------------------------------------------------

  datatype Plan =
    | NotAnOwner
    | NoAccount
    | OnlyOwner
    | Planned(liveSessions: nat, noop: bool)

  /** What deactivating `email` on behalf of `actor` would do, or why it must not go ahead. */
  function PlanOf(t: Tables, email: string, actor: string): Plan {
    if !t.IsActiveOwner(actor) then NotAnOwner
    else if email !in t.accounts then NoAccount
    else if t.IsActiveOwner(email) && !t.HasOtherOwner(email) then OnlyOwner
    else
      var live := t.Live(t.accounts[email].id);
      Planned(|live|, !t.accounts[email].isActive && live == {})
  }

  /** The sessions of an account that nobody has revoked, expired or not. */
  function Unrevoked(sessions: map<nat, Session>, id: string): set<nat> {
    set k | k in sessions && sessions[k].staffId == id && sessions[k].revokedAt.None?
  }

  lemma LiveAreUnrevoked(t: Tables, id: string)
    ensures t.Live(id) == Unrevoked(t.sessions, id)
  {
  }

  /** The refusals in their order, and what is announced otherwise. */
  predicate IsPlanFor(plan: Plan, t: Tables, email: string, actor: string) {
    var mayAct := actor in t.accounts && t.accounts[actor].isActive && t.accounts[actor].role == OWNER;
    var isLast := email in t.accounts && t.accounts[email].isActive && t.accounts[email].role == OWNER
      && forall e :: e in t.accounts && e != email ==> !(t.accounts[e].isActive && t.accounts[e].role == OWNER);
    && (plan.NotAnOwner? <==> !mayAct)
    && (plan.NoAccount? <==> mayAct && email !in t.accounts)
    && (plan.OnlyOwner? <==> mayAct && isLast)
    && (plan.Planned? ==>
          && plan.liveSessions == |Unrevoked(t.sessions, t.accounts[email].id)|
          && (plan.noop <==> !t.accounts[email].isActive && plan.liveSessions == 0))
  }

  lemma PlanIsFor(t: Tables, email: string, actor: string)
    ensures IsPlanFor(PlanOf(t, email, actor), t, email, actor)
  {
    if email in t.accounts { LiveAreUnrevoked(t, t.accounts[email].id); }
    if t.HasOtherOwner(email) {
      var e :| e in t.accounts && e != email && t.IsActiveOwner(e);
      assert t.accounts[e].isActive;
    }
  }

  /** Whether a deactivation writes anything. */
  predicate Effective(t: Tables, email: string, actor: string) {
    var plan := PlanOf(t, email, actor);
    plan.Planned? && !plan.noop
  }

  function SwitchedOff(t: Tables, email: string, now: int): Tables
    requires email in t.accounts
  {
    var account := t.accounts[email];
    Tables(t.accounts[email := account.(isActive := false)], Revoked(t.sessions, account.id, now))
  }

  function Deactivated(t: Tables, email: string, actor: string, now: int): Tables {
    if Effective(t, email, actor) then SwitchedOff(t, email, now) else t
  }

  /** A created or reset account is on, in the role asked for, and signed out everywhere. */
  function Enrolled(t: Tables, email: string, newId: string, role: Role, now: int): Tables {
    var id := if email in t.accounts then t.accounts[email].id else newId;
    Tables(t.accounts[email := Account(id, role, true)], Revoked(t.sessions, id, now))
  }

  // --- the audit row ----------------------------------------------------------------

  function RoleName(r: Role): string {
    match r
    case OWNER => "OWNER" case ADMIN => "ADMIN" case CATALOG => "CATALOG" case MARKETING => "MARKETING"
    case SUPPORT => "SUPPORT" case FULFILLMENT => "FULFILLMENT" case READONLY => "READONLY"
  }

  function Digits(n: nat): (s: string)
    ensures IsNumberText(s)
  {
    if n < 10 then ['0' + n as char] else Digits(n / 10) + ['0' + (n % 10) as char]
  }

  function DeactivationEntry(
    actor: Account, target: Account, revoked: nat, at: string, nonce: string): (e: Entry)
    ensures IsEntry(e)
  {
    Entry(actor.id, "StaffUser", target.id, "staff.deactivated",
      Obj(map["isActive" := Bool(target.isActive), "role" := Str(RoleName(target.role))]),
      Obj(map["isActive" := Bool(false), "sessionsRevoked" := Num(Digits(revoked)), "via" := Str("cli")]),
      at, nonce)
  }

  // --- the scripts --------------------------------------------------------------------

  /**
   * When a deactivation runs: the script's clock as a number and as text, the nonce it
   * draws, and the database's clock at the start of the transaction, which is the time
   * the database gives the audit row.
   */
  datatype Moment = Moment(now: int, at: string, nonce: string, begun: int)

  class StaffStore {
    var accounts: map<string, Account>
    var sessions: map<nat, Session>
    const audit: AuditLog
    const lower: string -> string

    function Normalised(email: string): string { lower(Trim(email)) }

    function State(): Tables
      reads this
    {
      Tables(accounts, sessions)
    }

    constructor (audit: AuditLog, lower: string -> string)
      ensures this.audit == audit && this.lower == lower && State() == Tables(map[], map[])
    {
      accounts, sessions := map[], map[];
      this.audit, this.lower := audit, lower;
    }

    method PlanDeactivation(target: string, requester: string) returns (plan: Plan)
      ensures plan == PlanOf(State(), Normalised(target), Normalised(requester))
      ensures IsPlanFor(plan, State(), lower(Trim(target)), lower(Trim(requester)))
    {
      var email, actor := Normalised(target), Normalised(requester);
      PlanIsFor(State(), email, actor);
      if !(actor in accounts && accounts[actor].isActive && accounts[actor].role.OWNER?) {
        return NotAnOwner;
      }
      if email !in accounts { return NoAccount; }
      var account := accounts[email];
      if account.isActive && account.role.OWNER? {
        var otherOwners := set e | e in accounts && e != email && accounts[e].isActive && accounts[e].role.OWNER?;
        assert forall e :: e in otherOwners <==> e in accounts && e != email && State().IsActiveOwner(e);
        assert otherOwners == {} <==> !State().HasOtherOwner(email);
        if |otherOwners| == 0 { return OnlyOwner; }
      }
      var live := set k | k in sessions && sessions[k].staffId == account.id && sessions[k].revokedAt.None?;
      assert live == State().Live(account.id);
      plan := Planned(|live|, !account.isActive && |live| == 0);
    }

    method RevokeAll(staffId: string, now: int) returns (count: nat)
      modifies this`sessions
      ensures sessions == Revoked(old(sessions), staffId, now)
      ensures count == |Unrevoked(old(sessions), staffId)| == |old(State()).Live(staffId)|
      ensures sessions.Keys == old(sessions).Keys
      ensures forall k :: k in sessions ==>
        sessions[k] == if k in Unrevoked(old(sessions), staffId) then old(sessions)[k].(revokedAt := Some(now)) else old(sessions)[k]
    {
      var live := set k | k in sessions && sessions[k].staffId == staffId && sessions[k].revokedAt.None?;
      assert live == State().Live(staffId);
      LiveAreUnrevoked(State(), staffId);
      count := |live|;
      sessions := map k | k in sessions ::
        if sessions[k].staffId == staffId && sessions[k].revokedAt.None?
        then sessions[k].(revokedAt := Some(now)) else sessions[k];
    }

    /** The two tables' part of a deactivation. */
    method SwitchOff(email: string, now: int) returns (revoked: nat)
      requires email in accounts
      modifies this
      ensures State() == SwitchedOff(old(State()), email, now)
      ensures revoked == |old(State()).Live(old(accounts)[email].id)|
    {
      var account := accounts[email];
      accounts := accounts[email := account.(isActive := false)];
      revoked := RevokeAll(account.id, now);
    }

    /** What a deactivation that goes ahead writes: the switch, the sessions and the record. */
    method WriteDeactivation(hash: Hash, email: string, actor: string, m: Moment) returns (ghost prev: Option<string>)
      requires email in accounts && actor in accounts
      modifies this, audit
      ensures State() == SwitchedOff(old(State()), email, m.now) && MayFind(old(audit.rows), prev)
      ensures var entry := DeactivationEntry(old(accounts)[actor], old(accounts)[email],
                                             |old(State()).Live(accounts[email].id)|, m.at, m.nonce);
              audit.rows == old(audit.rows) + [Linked(hash, prev, Payload(entry), m.begun)]
    {
      var account, owner := accounts[email], accounts[actor];
      var revoked := SwitchOff(email, m.now);
      prev := audit.RecordAudit(hash, Payload(DeactivationEntry(owner, account, revoked, m.at, m.nonce)), m.begun);
    }

    /** One transaction: everything, or nothing. */
    method DeactivateIn(hash: Hash, target: string, requester: string, m: Moment) returns (plan: Plan)
      modifies this, audit
      ensures var email, actor := Normalised(target), Normalised(requester);
              && plan == PlanOf(old(State()), email, actor)
              && State() == Deactivated(old(State()), email, actor, m.now)
              && (!Effective(old(State()), email, actor) ==> audit.rows == old(audit.rows))
              && (Effective(old(State()), email, actor) ==>
                    exists prev :: MayFind(old(audit.rows), prev) &&
                      audit.rows == old(audit.rows) + [Linked(hash, prev, AuditText(old(State()), email, actor, m), m.begun)])
      ensures RowRecords(old(audit.rows), audit.rows, old(State()), lower(Trim(target)), lower(Trim(requester)), m)
    {
      plan := PlanDeactivation(target, requester);
      if !plan.Planned? || plan.noop { return; }
      ghost var prev := WriteDeactivation(hash, Normalised(target), Normalised(requester), m);
      RowIsRecorded(old(audit.rows), prev, hash, old(State()), Normalised(target), Normalised(requester), m);
    }

    /** Creates an account or resets one, which is also how a deactivated one comes back. */
    method CreateStaff(email: string, newId: string, role: Role, now: int)
      modifies this
      ensures State() == Enrolled(old(State()), email, newId, role, now)
    {
      var id := if email in accounts then accounts[email].id else newId;
      accounts := accounts[email := Account(id, role, true)];
      var _ := RevokeAll(id, now);
    }
  }

  /** The payload an effective deactivation records. */
  function AuditText(t: Tables, email: string, actor: string, m: Moment): string
    requires Effective(t, email, actor)
  {
    Payload(DeactivationEntry(t.accounts[actor], t.accounts[email],
                              |t.Live(t.accounts[email].id)|, m.at, m.nonce))
  }

  // --- what the audit row says --------------------------------------------------------

  /** The number a run of digits stands for. */
  function NumberOf(digits: string): int {
    if digits == "" then 0
    else NumberOf(digits[..|digits| - 1]) * 10 + (digits[|digits| - 1] as int - '0' as int)
  }

  predicate IsRoleName(role: Role, name: string) {
    match role
    case OWNER => name == "OWNER" case ADMIN => name == "ADMIN" case CATALOG => name == "CATALOG"
    case MARKETING => name == "MARKETING" case SUPPORT => name == "SUPPORT"
    case FULFILLMENT => name == "FULFILLMENT" case READONLY => name == "READONLY"
  }

  predicate SaysBefore(v: Json, target: Account) {
    && v.Obj? && v.fields.Keys == {"isActive", "role"}
    && v.fields["isActive"] == Bool(target.isActive)
    && v.fields["role"].Str? && IsRoleName(target.role, v.fields["role"].text)
  }

  predicate SaysAfter(v: Json, revoked: nat) {
    && v.Obj? && v.fields.Keys == {"isActive", "sessionsRevoked", "via"}
    && v.fields["isActive"] == Bool(false) && v.fields["via"] == Str("cli")
    && v.fields["sessionsRevoked"].Num? && NumberOf(v.fields["sessionsRevoked"].literal) == revoked
  }

  /**
   * Read as JSON, the payload says that the requester deactivated the target: the
   * requester's id as the actor's, the target's as the entity's, the switch and the role
   * as they were, and how many sessions were revoked.
   */
  ghost predicate RecordsDeactivation(actor: Account, target: Account, revoked: nat, m: Moment, payload: string) {
    var v := JsonReader.ValueOf(payload);
    && v.Some? && v.value.Obj?
    && v.value.fields.Keys == {"actorId", "entity", "entityId", "action", "before", "after", "at", "nonce"}
    && v.value.fields["actorId"] == Str(actor.id) && v.value.fields["entity"] == Str("StaffUser")
    && v.value.fields["entityId"] == Str(target.id) && v.value.fields["action"] == Str("staff.deactivated")
    && SaysBefore(v.value.fields["before"], target) && SaysAfter(v.value.fields["after"], revoked)
    && v.value.fields["at"] == Str(m.at) && v.value.fields["nonce"] == Str(m.nonce)
  }

  lemma {:induction false} AllDigits(s: string)
    requires forall i :: 0 <= i < |s| ==> '0' <= s[i] <= '9'
    ensures JsonReader.DigitRun(s) == |s|
  {
    if s != "" { AllDigits(s[1..]); }
  }

  lemma {:induction false} DigitsRead(n: nat)
    ensures NumberOf(Digits(n)) == n && Digits(n) != ""
    ensures forall i :: 0 <= i < |Digits(n)| ==> '0' <= Digits(n)[i] <= '9'
    ensures n > 0 ==> Digits(n)[0] != '0'
  {
    if n < 10 {
      assert NumberOf(Digits(n)[..0]) == 0;
    } else {
      DigitsRead(n / 10);
      assert Digits(n)[..|Digits(n)| - 1] == Digits(n / 10);
    }
  }

  lemma DigitsAreNumber(n: nat)
    ensures JsonReader.IsJson(Num(Digits(n)))
  {
    var s := Digits(n);
    DigitsRead(n);
    AllDigits(s);
    assert s[|s|..] == "";
  }

  lemma EntryIsJson(actor: Account, target: Account, revoked: nat, at: string, nonce: string)
    ensures var e := DeactivationEntry(actor, target, revoked, at, nonce);
            JsonReader.IsJson(e.before) && JsonReader.IsJson(e.after)
  {
    DigitsAreNumber(revoked);
  }

  lemma EntryBefore(actor: Account, target: Account, revoked: nat, at: string, nonce: string)
    ensures SaysBefore(DeactivationEntry(actor, target, revoked, at, nonce).before, target)
  {
  }

  lemma EntryAfter(actor: Account, target: Account, revoked: nat, at: string, nonce: string)
    ensures SaysAfter(DeactivationEntry(actor, target, revoked, at, nonce).after, revoked)
  {
    DigitsRead(revoked);
  }

  lemma EntryRecords(e: Entry, actor: Account, target: Account, revoked: nat, m: Moment)
    requires JsonReader.IsJson(e.before) && JsonReader.IsJson(e.after)
    requires e.actorId == actor.id && e.entity == "StaffUser" && e.entityId == target.id && e.action == "staff.deactivated"
    requires SaysBefore(e.before, target) && SaysAfter(e.after, revoked) && e.at == m.at && e.nonce == m.nonce
    ensures RecordsDeactivation(actor, target, revoked, m, Payload(e))
  {
    PayloadReads(e);
  }

  lemma EntrySays(actor: Account, target: Account, revoked: nat, m: Moment)
    ensures RecordsDeactivation(actor, target, revoked, m, Payload(DeactivationEntry(actor, target, revoked, m.at, m.nonce)))
  {
    EntryIsJson(actor, target, revoked, m.at, m.nonce);
    EntryBefore(actor, target, revoked, m.at, m.nonce);
    EntryAfter(actor, target, revoked, m.at, m.nonce);
    EntryRecords(DeactivationEntry(actor, target, revoked, m.at, m.nonce), actor, target, revoked, m);
  }

  /** What an effective deactivation records, whoever it is of. */
  lemma DeactivationIsRecorded(t: Tables, email: string, actor: string, m: Moment)
    requires Effective(t, email, actor)
    ensures RecordsDeactivation(t.accounts[actor], t.accounts[email], |t.Live(t.accounts[email].id)|, m,
                                AuditText(t, email, actor, m))
  {
    EntrySays(t.accounts[actor], t.accounts[email], |t.Live(t.accounts[email].id)|, m);
  }

  /** A log that grew did so by one row, dated at the transaction's start, that says who deactivated whom. */
  ghost predicate RowRecords(before: seq<Row>, after: seq<Row>, t: Tables, email: string, actor: string, m: Moment) {
    after != before ==>
      && actor in t.accounts && email in t.accounts
      && |after| == |before| + 1 && before == after[..|before|] && after[|before|].createdAt == m.begun
      && RecordsDeactivation(t.accounts[actor], t.accounts[email], |Unrevoked(t.sessions, t.accounts[email].id)|, m,
                             after[|before|].payload)
  }

  lemma OneRowRecords(before: seq<Row>, row: Row, t: Tables, email: string, actor: string, m: Moment)
    requires actor in t.accounts && email in t.accounts && row.createdAt == m.begun
    requires RecordsDeactivation(t.accounts[actor], t.accounts[email], |Unrevoked(t.sessions, t.accounts[email].id)|, m, row.payload)
    ensures RowRecords(before, before + [row], t, email, actor, m)
  {
    assert (before + [row])[..|before|] == before;
  }

  lemma RowIsRecorded(before: seq<Row>, prev: Option<string>, hash: Hash, t: Tables, email: string, actor: string, m: Moment)
    requires Effective(t, email, actor)
    ensures RowRecords(before, before + [Linked(hash, prev, AuditText(t, email, actor, m), m.begun)], t, email, actor, m)
  {
    DeactivationIsRecorded(t, email, actor, m);
    LiveAreUnrevoked(t, t.accounts[email].id);
    OneRowRecords(before, Linked(hash, prev, AuditText(t, email, actor, m), m.begun), t, email, actor, m);
  }

  // --- one commit ---------------------------------------------------------------------

  lemma RevokedNone(t: Tables, id: string, now: int)
    ensures t.(sessions := Revoked(t.sessions, id, now)).Live(id) == {}
  {
  }

  /** An effective deactivation switches the account off and signs it out, and touches nobody else. */
  lemma DeactivationIsComplete(t: Tables, email: string, actor: string, now: int)
    requires t.Valid() && Effective(t, email, actor)
    ensures var t' := Deactivated(t, email, actor, now);
            && !t'.accounts[email].isActive && t'.Live(t.accounts[email].id) == {}
            && t'.accounts[email] == t.accounts[email].(isActive := false)
            && (forall e :: e in t.accounts && e != email ==>
                  e in t'.accounts && t'.accounts[e] == t.accounts[e] &&
                  t'.Live(t.accounts[e].id) == t.Live(t.accounts[e].id))
            && PlanOf(t, email, actor).liveSessions == |t.Live(t.accounts[email].id)|
  {
    RevokedNone(t, t.accounts[email].id, now);
    var t' := Deactivated(t, email, actor, now);
    forall e | e in t.accounts && e != email ensures t'.Live(t.accounts[e].id) == t.Live(t.accounts[e].id) {
      assert t.accounts[e].id != t.accounts[email].id;
    }
  }

  /** Whoever it is aimed at, a deactivation leaves an active owner: the actor, or another one. */
  lemma DeactivationLeavesOwner(t: Tables, email: string, actor: string, now: int)
    ensures Effective(t, email, actor) ==> Deactivated(t, email, actor, now).HasOwner()
    ensures t.HasOwner() ==> Deactivated(t, email, actor, now).HasOwner()
  {
    if Effective(t, email, actor) {
      var t' := Deactivated(t, email, actor, now);
      if email == actor {
        var e :| e in t.accounts && e != email && t.IsActiveOwner(e);
        assert t'.IsActiveOwner(e);
      } else {
        assert t'.IsActiveOwner(actor);
      }
    }
  }

  /**
   * Resetting an account can demote the last owner. It leaves one exactly when
   * it makes an owner or another one is active.
   */
  lemma EnrolmentLeavesOwner(t: Tables, email: string, newId: string, role: Role, now: int)
    ensures Enrolled(t, email, newId, role, now).HasOwner() <==> role.OWNER? || t.HasOtherOwner(email)
  {
    var t' := Enrolled(t, email, newId, role, now);
    if role.OWNER? {
      assert t'.IsActiveOwner(email);
    } else if e :| e in t.accounts && e != email && t.IsActiveOwner(e) {
      assert t'.IsActiveOwner(e);
    }
    if e :| e in t'.accounts && t'.IsActiveOwner(e) {
      if e != email { assert t.IsActiveOwner(e); }
    }
  }

  /**
   * Why the transaction is serializable: with exactly two owners, both checks
   * pass against the state before either write, and both writes leave no owner.
   * One after the other, the second is refused.
   */
  lemma ChecksAloneAreNotEnough(t: Tables, a: string, b: string, now: int)
    requires a != b && t.IsActiveOwner(a) && t.IsActiveOwner(b)
    requires forall e :: e in t.accounts && t.IsActiveOwner(e) ==> e == a || e == b
    ensures Effective(t, a, a) && Effective(t, b, b)
    ensures !SwitchedOff(SwitchedOff(t, a, now), b, now).HasOwner()
    ensures PlanOf(Deactivated(t, a, a, now), b, b) == OnlyOwner
  {
    assert t.HasOtherOwner(a) && t.HasOtherOwner(b);
    var t1 := SwitchedOff(t, a, now);
    assert forall e :: e in t1.accounts && t1.IsActiveOwner(e) ==> t.IsActiveOwner(e) && e != a;
  }

  /** Creating or resetting an account signs it out, and touches nobody else. */
  lemma EnrolmentIsComplete(t: Tables, email: string, newId: string, role: Role, now: int)
    requires t.Valid()
    requires email !in t.accounts ==> forall e :: e in t.accounts ==> t.accounts[e].id != newId
    ensures var t' := Enrolled(t, email, newId, role, now);
            && t'.accounts[email].isActive && t'.accounts[email].role == role && t'.Live(t'.accounts[email].id) == {}
            && t'.accounts[email].id == (if email in t.accounts then t.accounts[email].id else newId)
            && t'.accounts.Keys == t.accounts.Keys + {email} && t'.sessions.Keys == t.sessions.Keys
            && (forall k :: k in t.sessions && t.sessions[k].revokedAt.Some? ==> t'.sessions[k] == t.sessions[k])
            && (forall e :: e in t.accounts && e != email ==>
                  t'.accounts[e] == t.accounts[e] && t'.Live(t.accounts[e].id) == t.Live(t.accounts[e].id))
  {
    var t' := Enrolled(t, email, newId, role, now);
    var id := t'.accounts[email].id;
    RevokedNone(t, id, now);
    forall e | e in t.accounts && e != email ensures t'.Live(t.accounts[e].id) == t.Live(t.accounts[e].id) {
      assert t.accounts[e].id != id;
    }
  }

  /**
   * An account that is off and still has live sessions: an owner's deactivation is
   * not taken for a repetition, and signs it out.
   */
  lemma SecondDeactivationRepairs(t: Tables, email: string, actor: string, now: int)
    requires t.Valid() && t.IsActiveOwner(actor) && email in t.accounts && !t.accounts[email].isActive
    ensures Effective(t, email, actor) <==> t.Live(t.accounts[email].id) != {}
    ensures Deactivated(t, email, actor, now).Live(t.accounts[email].id) == {}
  {
    RevokedNone(t, t.accounts[email].id, now);
  }
}
