/**
 * Staff changes that overlap.
 *
 * A deactivation is a serializable transaction: it checks and writes against the tables
 * as they were when it began, and fails if a row it writes was written meanwhile or if
 * another such transaction wrote first. Everybody else runs at the default isolation:
 * a create or reset is one step, a sign-in checks the account and creates its session
 * later without checking again, and an audit row is asked for and stored apart. A run
 * interleaves any number of all of these.
 */
module StaffRuns {
  import opened Options
  import opened HashChain
  import opened StaffLifecycle
  import AuditPayload
  import AuditRuns

  /** A deactivation under way, and the tables it sees. */
  datatype Begun = Begun(email: string, actor: string, seen: Tables) {
    predicate Writes() { Effective(seen, email, actor) }

    /** The sessions it revokes: the live ones it sees. */
    function Revokes(): set<nat> {
      if email in seen.accounts then seen.Live(seen.accounts[email].id) else {}
    }
  }

  /** The tables, the log with its writers, the sign-ins that passed the check, the deactivations under way. */
  datatype Staff = Staff(
    tables: Tables, audit: AuditRuns.Audit, checked: map<nat, string>, begun: map<nat, Begun>)

  /**
   * `TouchAccount` writes columns of an account that are not in the model, as a sign-in
   * does once its session is there; `FindHead` and `Record` are the two statements of
   * anybody else's audit row.
   */
  datatype Op =
    | Begin(r: nat, email: string, actor: string, head: Option<string>)
    | Commit(r: nat, m: Moment)
    | Enrol(email: string, newId: string, role: Role, now: int)
    | TouchAccount(email: string)
    | CheckAccount(r: nat, email: string)
    | OpenSession(r: nat, session: nat)
    | SignOut(session: nat, now: int)
    | FindHead(r: nat, head: Option<string>)
    | Record(r: nat, text: string, createdAt: int)

  // --- the tables -------------------------------------------------------------------------

  /** What a deactivation writes over the tables of the moment. */
  function Committed(t: Tables, b: Begun, now: int): Tables
    requires b.Writes()
  {
    Tables(t.accounts[b.email := b.seen.accounts[b.email].(isActive := false)],
           map k | k in t.sessions ::
             if k in b.Revokes() then t.sessions[k].(revokedAt := Some(now)) else t.sessions[k])
  }

  function Ended(session: Session, now: int): Session {
    if session.revokedAt.None? then session.(revokedAt := Some(now)) else session
  }

  function SignedOut(t: Tables, session: nat, now: int): Tables
    requires session in t.sessions
  {
    t.(sessions := t.sessions[session := Ended(t.sessions[session], now)])
  }

  function Opened(t: Tables, session: nat, staffId: string): Tables {
    t.(sessions := t.sessions[session := Session(staffId, None)])
  }

  function AfterCommit(s: Staff, r: nat, now: int): Tables {
    if r in s.begun && s.begun[r].Writes() then Committed(s.tables, s.begun[r], now) else s.tables
  }

  function AfterEnrol(t: Tables, email: string, newId: string, role: Role, now: int): Tables {
    if CanEnrol(t, email, newId) then Enrolled(t, email, newId, role, now) else t
  }

  function AfterOpen(s: Staff, r: nat, session: nat): Tables {
    if CanOpen(s, r, session) then Opened(s.tables, session, s.checked[r]) else s.tables
  }

  function AfterSignOut(t: Tables, session: nat, now: int): Tables {
    if session in t.sessions then SignedOut(t, session, now) else t
  }

  function NextTables(s: Staff, op: Op): Tables {
    match op
    case Commit(r, m) => AfterCommit(s, r, m.now)
    case Enrol(email, newId, role, now) => AfterEnrol(s.tables, email, newId, role, now)
    case OpenSession(r, session) => AfterOpen(s, r, session)
    case SignOut(session, now) => AfterSignOut(s.tables, session, now)
    case _ => s.tables
  }

  /** A new account has an id of its own. */
  predicate CanEnrol(t: Tables, email: string, newId: string) {
    email !in t.accounts ==> forall e :: e in t.accounts ==> t.accounts[e].id != newId
  }

  predicate CanCheck(s: Staff, r: nat, email: string) {
    email in s.tables.accounts && s.tables.accounts[email].isActive && r !in s.checked
  }

  predicate CanOpen(s: Staff, r: nat, session: nat) {
    r in s.checked && session !in s.tables.sessions
  }

  ghost predicate CanBegin(s: Staff, r: nat, head: Option<string>) {
    r !in s.audit.found && r !in s.begun && MayFind(s.audit.rows, head)
  }

  // --- everything else ----------------------------------------------------------------------

  function NextChecked(s: Staff, op: Op): map<nat, string> {
    match op
    case CheckAccount(r, email) =>
      if CanCheck(s, r, email) then s.checked[r := s.tables.accounts[email].id] else s.checked
    case OpenSession(r, session) => if CanOpen(s, r, session) then s.checked - {r} else s.checked
    case _ => s.checked
  }

  /** Those that do not write the account. */
  function NotOn(begun: map<nat, Begun>, email: string): map<nat, Begun> {
    map r | r in begun && begun[r].email != email :: begun[r]
  }

  /** Those that do not revoke the session. */
  function NotRevoking(begun: map<nat, Begun>, session: nat): map<nat, Begun> {
    map r | r in begun && session !in begun[r].Revokes() :: begun[r]
  }

  /** The deactivations that can still commit: a write to a row they write fails them. */
  ghost function NextBegun(s: Staff, op: Op): map<nat, Begun> {
    match op
    case Begin(r, email, actor, head) =>
      if CanBegin(s, r, head) then s.begun[r := Begun(email, actor, s.tables)] else s.begun
    case Commit(r, _) => if r in s.begun && s.begun[r].Writes() then map[] else s.begun - {r}
    case Enrol(email, newId, _, _) => if CanEnrol(s.tables, email, newId) then NotOn(s.begun, email) else s.begun
    case TouchAccount(email) => NotOn(s.begun, email)
    case SignOut(session, _) => NotRevoking(s.begun, session)
    case _ => s.begun
  }

  /** What an operation is to the audit log. */
  ghost function LogEvent(s: Staff, op: Op): AuditRuns.Event {
    match op
    case Begin(r, _, _, head) => if r !in s.begun then AuditRuns.Find(r, head) else AuditRuns.Idle
    case Commit(r, m) =>
      if r in s.begun && s.begun[r].Writes()
      then AuditRuns.Append(r, AuditText(s.begun[r].seen, s.begun[r].email, s.begun[r].actor, m), m.begun)
      else AuditRuns.Idle
    case FindHead(r, head) => if r !in s.begun then AuditRuns.Find(r, head) else AuditRuns.Idle
    case Record(r, text, createdAt) =>
      if r !in s.begun then AuditRuns.Append(r, text, createdAt) else AuditRuns.Idle
    case _ => AuditRuns.Idle
  }

  ghost function Next(hash: Hash, s: Staff, op: Op): Staff {
    Staff(NextTables(s, op), AuditRuns.Next(hash, s.audit, LogEvent(s, op)), NextChecked(s, op), NextBegun(s, op))
  }

  ghost function Run(hash: Hash, start: Staff, ops: seq<Op>): Staff {
    if ops == [] then start else Next(hash, Run(hash, start, ops[..|ops| - 1]), ops[|ops| - 1])
  }

  function Nothing(): Staff { Staff(Tables(map[], map[]), AuditRuns.Nothing(), map[], map[]) }

  lemma RunsOneMore(hash: Hash, start: Staff, ops: seq<Op>, op: Op)
    ensures Run(hash, start, ops + [op]) == Next(hash, Run(hash, start, ops), op)
  {
    var all := ops + [op];
    assert all[..|all| - 1] == ops && all[|all| - 1] == op;
  }

  // --- what every step keeps ------------------------------------------------------------------

  /** A session once revoked stays revoked, at the time it was; none changes hands. */
  ghost predicate RevocationsKept(t: Tables, t': Tables) {
    forall k :: k in t.sessions ==>
      && k in t'.sessions && t'.sessions[k].staffId == t.sessions[k].staffId
      && (t.sessions[k].revokedAt.Some? ==> t'.sessions[k] == t.sessions[k])
  }

  /** Accounts are never removed and keep their ids. */
  ghost predicate AccountsKept(t: Tables, t': Tables) {
    forall e :: e in t.accounts ==> e in t'.accounts && t'.accounts[e].id == t.accounts[e].id
  }

  ghost predicate Kept(t: Tables, t': Tables) {
    RevocationsKept(t, t') && AccountsKept(t, t')
  }

  /** The rows a deactivation writes are as it sees them. */
  ghost predicate Unwritten(t: Tables, b: Begun) {
    && (b.email in b.seen.accounts ==> b.email in t.accounts && t.accounts[b.email] == b.seen.accounts[b.email])
    && (forall k :: k in b.Revokes() ==> k in t.sessions && t.sessions[k] == b.seen.sessions[k])
  }

  ghost predicate BegunFits(t: Tables, b: Begun) {
    b.seen.Valid() && Kept(b.seen, t) && Unwritten(t, b)
  }

  /**
   * Ids are unique, every session and every passed check belongs to an account, and
   * every deactivation under way can still write what it means to.
   */
  ghost predicate Fit(s: Staff) {
    && s.tables.Valid()
    && (forall r :: r in s.checked ==> s.tables.HasId(s.checked[r]))
    && (forall r :: r in s.begun ==> BegunFits(s.tables, s.begun[r]))
  }

  lemma IdStays(t: Tables, t': Tables, id: string)
    requires AccountsKept(t, t') && t.HasId(id)
    ensures t'.HasId(id)
  {
    var e :| e in t.accounts && t.accounts[e].id == id;
    assert t'.accounts[e].id == id;
  }

  /** Writing sessions and switches, and adding accounts under new ids, keeps the tables valid. */
  lemma TablesFit(t: Tables, t': Tables)
    requires t.Valid() && Kept(t, t')
    requires forall d, e :: d in t'.accounts && e in t'.accounts && t'.accounts[d].id == t'.accounts[e].id ==> d == e
    requires forall k :: k in t'.sessions ==> t.HasId(t'.sessions[k].staffId)
    ensures t'.Valid()
  {
    forall k | k in t'.sessions ensures t'.HasId(t'.sessions[k].staffId) {
      IdStays(t, t', t'.sessions[k].staffId);
    }
  }

  lemma CommitKept(t: Tables, b: Begun, now: int)
    requires BegunFits(t, b) && b.Writes()
    ensures Kept(t, Committed(t, b, now))
  {
  }

  lemma CommitFits(t: Tables, b: Begun, now: int)
    requires t.Valid() && BegunFits(t, b) && b.Writes()
    ensures Committed(t, b, now).Valid() && Kept(t, Committed(t, b, now))
  {
    CommitKept(t, b, now);
    TablesFit(t, Committed(t, b, now));
  }

  lemma EnrolFits(t: Tables, email: string, newId: string, role: Role, now: int)
    requires t.Valid() && CanEnrol(t, email, newId)
    ensures var t' := Enrolled(t, email, newId, role, now); t'.Valid() && Kept(t, t')
  {
    TablesFit(t, Enrolled(t, email, newId, role, now));
  }

  lemma OpenFits(t: Tables, session: nat, staffId: string)
    requires t.Valid() && session !in t.sessions && t.HasId(staffId)
    ensures Opened(t, session, staffId).Valid() && Kept(t, Opened(t, session, staffId))
  {
    TablesFit(t, Opened(t, session, staffId));
  }

  lemma SignOutFits(t: Tables, session: nat, now: int)
    requires t.Valid() && session in t.sessions
    ensures SignedOut(t, session, now).Valid() && Kept(t, SignedOut(t, session, now))
  {
    TablesFit(t, SignedOut(t, session, now));
  }

  lemma AfterCommitFits(s: Staff, r: nat, now: int)
    requires Fit(s)
    ensures AfterCommit(s, r, now).Valid() && Kept(s.tables, AfterCommit(s, r, now))
  {
    if r in s.begun && s.begun[r].Writes() { CommitFits(s.tables, s.begun[r], now); }
  }

  lemma AfterEnrolFits(t: Tables, email: string, newId: string, role: Role, now: int)
    requires t.Valid()
    ensures var t' := AfterEnrol(t, email, newId, role, now); t'.Valid() && Kept(t, t')
  {
    if CanEnrol(t, email, newId) { EnrolFits(t, email, newId, role, now); }
  }

  lemma AfterOpenFits(s: Staff, r: nat, session: nat)
    requires Fit(s)
    ensures AfterOpen(s, r, session).Valid() && Kept(s.tables, AfterOpen(s, r, session))
  {
    if CanOpen(s, r, session) { OpenFits(s.tables, session, s.checked[r]); }
  }

  lemma AfterSignOutFits(t: Tables, session: nat, now: int)
    requires t.Valid()
    ensures AfterSignOut(t, session, now).Valid() && Kept(t, AfterSignOut(t, session, now))
  {
    if session in t.sessions { SignOutFits(t, session, now); }
  }

  lemma NextTablesFit(s: Staff, op: Op)
    requires Fit(s)
    ensures NextTables(s, op).Valid() && Kept(s.tables, NextTables(s, op))
  {
    match op
    case Commit(r, m) => AfterCommitFits(s, r, m.now);
    case Enrol(email, newId, role, now) => AfterEnrolFits(s.tables, email, newId, role, now);
    case OpenSession(r, session) => AfterOpenFits(s, r, session);
    case SignOut(session, now) => AfterSignOutFits(s.tables, session, now);
    case _ =>
  }

  lemma KeptTwice(t: Tables, t': Tables, t'': Tables)
    requires Kept(t, t') && Kept(t', t'')
    ensures Kept(t, t'')
  {
  }

  lemma EnrolUnwritten(t: Tables, b: Begun, email: string, newId: string, role: Role, now: int)
    requires t.Valid() && BegunFits(t, b) && CanEnrol(t, email, newId) && b.email != email
    ensures Unwritten(Enrolled(t, email, newId, role, now), b)
  {
    if b.email in b.seen.accounts {
      forall k | k in b.Revokes() ensures Enrolled(t, email, newId, role, now).sessions[k] == t.sessions[k] {
        assert t.accounts[b.email].id == b.seen.sessions[k].staffId;
      }
    }
  }

  lemma SignOutUnwritten(t: Tables, b: Begun, session: nat, now: int)
    requires Unwritten(t, b) && session in t.sessions && session !in b.Revokes()
    ensures Unwritten(SignedOut(t, session, now), b)
  {
  }

  lemma OpenUnwritten(t: Tables, b: Begun, session: nat, staffId: string)
    requires Unwritten(t, b) && session !in t.sessions
    ensures Unwritten(Opened(t, session, staffId), b)
  {
  }

  /** Nothing but a beginning changes a deactivation under way. */
  lemma BegunStays(s: Staff, op: Op, r: nat)
    requires r in s.begun && r in NextBegun(s, op)
    ensures NextBegun(s, op)[r] == s.begun[r]
  {
  }

  /** The deactivations a step leaves under way still find their rows unwritten. */
  lemma NextUnwritten(s: Staff, op: Op, r: nat)
    requires Fit(s) && r in s.begun && r in NextBegun(s, op) && !op.Begin?
    ensures Unwritten(NextTables(s, op), s.begun[r])
  {
    assert BegunFits(s.tables, s.begun[r]);
    match op
    case Enrol(email, newId, role, now) =>
      if CanEnrol(s.tables, email, newId) { EnrolUnwritten(s.tables, s.begun[r], email, newId, role, now); }
    case SignOut(session, now) =>
      if session in s.tables.sessions { SignOutUnwritten(s.tables, s.begun[r], session, now); }
    case OpenSession(o, session) =>
      if CanOpen(s, o, session) { OpenUnwritten(s.tables, s.begun[r], session, s.checked[o]); }
    case _ =>
  }

  lemma NextBegunFits(s: Staff, op: Op, r: nat)
    requires Fit(s) && r in NextBegun(s, op)
    ensures BegunFits(NextTables(s, op), NextBegun(s, op)[r])
  {
    NextTablesFit(s, op);
    if op.Begin? {
      if r in s.begun { assert BegunFits(s.tables, s.begun[r]); }
    } else {
      assert BegunFits(s.tables, s.begun[r]);
      NextUnwritten(s, op, r);
      BegunStays(s, op, r);
      KeptTwice(s.begun[r].seen, s.tables, NextTables(s, op));
    }
  }

  lemma NextCheckedFits(s: Staff, op: Op, r: nat)
    requires Fit(s) && r in NextChecked(s, op)
    ensures NextTables(s, op).HasId(NextChecked(s, op)[r])
  {
    NextTablesFit(s, op);
    if r in s.checked {
      IdStays(s.tables, NextTables(s, op), s.checked[r]);
    } else {
      assert s.tables.accounts[op.email].id == NextChecked(s, op)[r];
    }
  }

  lemma NextFits(hash: Hash, s: Staff, op: Op)
    requires Fit(s)
    ensures Fit(Next(hash, s, op)) && Kept(s.tables, Next(hash, s, op).tables)
  {
    NextTablesFit(s, op);
    forall r | r in NextBegun(s, op) ensures BegunFits(NextTables(s, op), NextBegun(s, op)[r]) {
      NextBegunFits(s, op, r);
    }
    forall r | r in NextChecked(s, op) ensures NextTables(s, op).HasId(NextChecked(s, op)[r]) {
      NextCheckedFits(s, op, r);
    }
  }

  /** Over every interleaving: ids stay unique, no account is removed, no revoked session comes back. */
  lemma {:induction false} RunFits(hash: Hash, start: Staff, ops: seq<Op>)
    requires Fit(start)
    ensures Fit(Run(hash, start, ops)) && Kept(start.tables, Run(hash, start, ops).tables)
  {
    if ops != [] {
      var s := Run(hash, start, ops[..|ops| - 1]);
      RunFits(hash, start, ops[..|ops| - 1]);
      NextFits(hash, s, ops[|ops| - 1]);
      KeptTwice(start.tables, s.tables, Next(hash, s, ops[|ops| - 1]).tables);
    }
  }

  // --- the audit log ----------------------------------------------------------------------------

  ghost function Events(hash: Hash, start: Staff, ops: seq<Op>): seq<AuditRuns.Event> {
    if ops == [] then []
    else
      var done := ops[..|ops| - 1];
      Events(hash, start, done) + [LogEvent(Run(hash, start, done), ops[|ops| - 1])]
  }

  lemma {:induction false} RunOfLog(hash: Hash, start: Staff, ops: seq<Op>)
    ensures Run(hash, start, ops).audit == AuditRuns.Run(hash, start.audit, Events(hash, start, ops))
  {
    if ops != [] {
      var done := ops[..|ops| - 1];
      RunOfLog(hash, start, done);
      var es := Events(hash, start, ops);
      assert es[..|es| - 1] == Events(hash, start, done);
    }
  }

  /**
   * The audit log over every interleaving of deactivations and everybody else's rows: one
   * linear chain exactly when no row was stored under a head that was not the last row's,
   * which, where the rows came out dated strictly up, is when none was stored between the
   * two statements of another's writer.
   */
  lemma RunChain(hash: Hash, start: Staff, ops: seq<Op>)
    requires IsChain(hash, start.audit.rows) && AuditRuns.Answered(start.audit) && forall x :: IsDigest(hash(x))
    ensures var log, es := Run(hash, start, ops).audit.rows, Events(hash, start, ops);
            && (IsChain(hash, log) <==> AuditRuns.NeverStale(hash, start.audit, es))
            && (Clocked(log) && DistinctHashes(log) ==>
                  (IsChain(hash, log) <==> AuditRuns.NeverOvertaken(hash, start.audit, es)))
  {
    var log, es := Run(hash, start, ops).audit.rows, Events(hash, start, ops);
    RunOfLog(hash, start, ops);
    AuditRuns.RunStaysLinear(hash, start.audit, es);
    if Clocked(log) && DistinctHashes(log) { AuditRuns.RunOverlaps(hash, start.audit, es); }
  }

  /** A deactivation that commits records, under the tables it saw, who deactivated whom and how many sessions. */
  lemma CommitRecords(hash: Hash, s: Staff, r: nat, m: Moment)
    requires r in s.begun && s.begun[r].Writes() && r in s.audit.found
    ensures var b := s.begun[r];
            var before, after := s.audit.rows, Next(hash, s, Commit(r, m)).audit.rows;
            after != before && RowRecords(before, after, b.seen, b.email, b.actor, m)
  {
    var b := s.begun[r];
    RowIsRecorded(s.audit.rows, s.audit.found[r].head, hash, b.seen, b.email, b.actor, m);
    CommitAppends(hash, s, r, m);
  }

  lemma CommitAppends(hash: Hash, s: Staff, r: nat, m: Moment)
    requires r in s.begun && s.begun[r].Writes() && r in s.audit.found
    ensures Next(hash, s, Commit(r, m)).audit.rows ==
      s.audit.rows + [Linked(hash, s.audit.found[r].head, AuditText(s.begun[r].seen, s.begun[r].email, s.begun[r].actor, m), m.begun)]
  {
    AuditTextIsPayload(s.begun[r], m);
    EventAppends(hash, s, Commit(r, m), r, AuditText(s.begun[r].seen, s.begun[r].email, s.begun[r].actor, m), m.begun);
  }

  lemma EventAppends(hash: Hash, s: Staff, op: Op, r: nat, text: string, at: int)
    requires LogEvent(s, op) == AuditRuns.Append(r, text, at) && r in s.audit.found && IsPayload(text)
    ensures Next(hash, s, op).audit.rows == s.audit.rows + [Linked(hash, s.audit.found[r].head, text, at)]
  {
    AuditRuns.AppendAdds(hash, s.audit, r, text, at);
  }

  lemma AuditTextIsPayload(b: Begun, m: Moment)
    requires b.Writes()
    ensures IsPayload(AuditText(b.seen, b.email, b.actor, m))
  {
    AuditPayload.PayloadIsObject(DeactivationEntry(b.seen.accounts[b.actor], b.seen.accounts[b.email],
                                                   |b.seen.Live(b.seen.accounts[b.email].id)|, m.at, m.nonce));
  }

  // --- accounts that are off ------------------------------------------------------------------

  /** Some account with this id is off. */
  predicate IsOff(t: Tables, id: string) {
    exists e :: e in t.accounts && t.accounts[e].id == id && !t.accounts[e].isActive
  }

  /** A session is created for an account that is off at that moment. */
  predicate OpensForOff(s: Staff, op: Op) {
    op.OpenSession? && CanOpen(s, op.r, op.session) && IsOff(s.tables, s.checked[op.r])
  }

  /** A deactivation leaves live a session it does not see. */
  predicate Misses(t: Tables, b: Begun) {
    b.email in b.seen.accounts && exists k :: k in t.Live(b.seen.accounts[b.email].id) && k !in b.seen.sessions
  }

  predicate CommitMisses(s: Staff, op: Op) {
    op.Commit? && op.r in s.begun && s.begun[op.r].Writes() && Misses(s.tables, s.begun[op.r])
  }

  /** A deactivation does what it would alone exactly when it misses no session. */
  lemma CommitIsSerial(t: Tables, b: Begun, now: int)
    requires t.Valid() && BegunFits(t, b) && b.Writes()
    ensures Committed(t, b, now) == SwitchedOff(t, b.email, now) <==> !Misses(t, b)
    ensures Committed(t, b, now).Live(t.accounts[b.email].id) == {} <==> !Misses(t, b)
  {
    var id := t.accounts[b.email].id;
    var t' := Committed(t, b, now);
    forall k | k in t.Live(id) && k in b.seen.sessions ensures k in b.Revokes() {
      assert b.seen.sessions[k].staffId == id && b.seen.sessions[k].revokedAt.None?;
    }
    if Misses(t, b) {
      var k :| k in t.Live(id) && k !in b.seen.sessions;
      assert k in t'.Live(id);
      assert k !in SwitchedOff(t, b.email, now).Live(id);
    } else {
      CommitSwitchesOff(t, b, now);
      RevokedNone(t, id, now);
    }
  }

  lemma CommitSwitchesOff(t: Tables, b: Begun, now: int)
    requires t.Valid() && BegunFits(t, b) && b.Writes() && !Misses(t, b)
    requires forall k :: k in t.Live(t.accounts[b.email].id) && k in b.seen.sessions ==> k in b.Revokes()
    ensures Committed(t, b, now) == SwitchedOff(t, b.email, now)
  {
    var id := t.accounts[b.email].id;
    forall k | k in t.sessions
      ensures k in b.Revokes() <==> t.sessions[k].staffId == id && t.sessions[k].revokedAt.None?
    {
      if t.sessions[k].staffId == id && t.sessions[k].revokedAt.None? { assert k in t.Live(id); }
    }
  }

  lemma OpenKeepsSignedOut(t: Tables, session: nat, staffId: string)
    requires t.OffMeansSignedOut() && session !in t.sessions
    ensures Opened(t, session, staffId).OffMeansSignedOut() <==> !IsOff(t, staffId)
  {
    var t' := Opened(t, session, staffId);
    forall e | e in t.accounts && !t.accounts[e].isActive
      ensures t'.Live(t.accounts[e].id) == if t.accounts[e].id == staffId then {session} else {}
    {
      assert t.Live(t.accounts[e].id) == {};
      assert forall k :: k in t'.Live(t.accounts[e].id) <==>
        k in t.Live(t.accounts[e].id) || (k == session && t.accounts[e].id == staffId);
    }
    if IsOff(t, staffId) {
      var e :| e in t.accounts && t.accounts[e].id == staffId && !t.accounts[e].isActive;
      assert session in t'.Live(t'.accounts[e].id);
    }
  }

  /** Revoking, or leaving alone, the sessions of accounts that were off. */
  lemma FewerLive(t: Tables, t': Tables)
    requires t.OffMeansSignedOut()
    requires forall e :: e in t'.accounts && !t'.accounts[e].isActive ==>
      e in t.accounts && t'.accounts[e].id == t.accounts[e].id && !t.accounts[e].isActive
    requires forall k :: k in t'.sessions && t'.sessions[k].revokedAt.None? ==>
      k in t.sessions && t'.sessions[k] == t.sessions[k]
    ensures t'.OffMeansSignedOut()
  {
    forall e | e in t'.accounts && !t'.accounts[e].isActive ensures t'.Live(t'.accounts[e].id) == {} {
      assert t.Live(t.accounts[e].id) == {};
      assert forall k :: k in t'.Live(t.accounts[e].id) ==> k in t.Live(t.accounts[e].id);
    }
  }

  lemma CommitKeepsSignedOut(t: Tables, b: Begun, now: int)
    requires t.Valid() && BegunFits(t, b) && b.Writes() && t.OffMeansSignedOut()
    ensures Committed(t, b, now).OffMeansSignedOut() <==> !Misses(t, b)
  {
    var t' := Committed(t, b, now);
    CommitIsSerial(t, b, now);
    assert !t'.accounts[b.email].isActive;
    forall e | e in t'.accounts && !t'.accounts[e].isActive && e != b.email ensures t'.Live(t'.accounts[e].id) == {} {
      CommitRevivesNobody(t, b, now, e);
    }
  }

  lemma CommitRevivesNobody(t: Tables, b: Begun, now: int, e: string)
    requires b.Writes() && e in t.accounts && t.Live(t.accounts[e].id) == {}
    ensures Committed(t, b, now).Live(t.accounts[e].id) == {}
  {
    assert forall k :: k in Committed(t, b, now).Live(t.accounts[e].id) ==> k in t.Live(t.accounts[e].id);
  }

  lemma NextKeepsSignedOut(s: Staff, op: Op)
    requires Fit(s) && s.tables.OffMeansSignedOut()
    ensures NextTables(s, op).OffMeansSignedOut() <==> !OpensForOff(s, op) && !CommitMisses(s, op)
  {
    match op
    case Commit(r, m) =>
      if r in s.begun && s.begun[r].Writes() { CommitKeepsSignedOut(s.tables, s.begun[r], m.now); }
    case Enrol(email, newId, role, now) =>
      if CanEnrol(s.tables, email, newId) { FewerLive(s.tables, Enrolled(s.tables, email, newId, role, now)); }
    case OpenSession(r, session) =>
      if CanOpen(s, r, session) { OpenKeepsSignedOut(s.tables, session, s.checked[r]); }
    case SignOut(session, now) =>
      if session in s.tables.sessions { FewerLive(s.tables, SignedOut(s.tables, session, now)); }
    case _ =>
  }

  /** No account was ever off with a session of its own on. */
  ghost predicate AlwaysSignedOut(hash: Hash, start: Staff, ops: seq<Op>) {
    && Run(hash, start, ops).tables.OffMeansSignedOut()
    && (ops != [] ==> AlwaysSignedOut(hash, start, ops[..|ops| - 1]))
  }

  ghost predicate NeverLeavesLive(hash: Hash, start: Staff, ops: seq<Op>) {
    ops != [] ==>
      var s, op := Run(hash, start, ops[..|ops| - 1]), ops[|ops| - 1];
      NeverLeavesLive(hash, start, ops[..|ops| - 1]) && !OpensForOff(s, op) && !CommitMisses(s, op)
  }

  /**
   * Whether an account that is off can have a session that is on. Over every
   * interleaving: it never does exactly when no sign-in creates its session for an
   * account that is off at that moment, and no deactivation commits with a live session
   * of its account that it does not see.
   */
  lemma {:induction false} RunSignedOut(hash: Hash, start: Staff, ops: seq<Op>)
    requires Fit(start) && start.tables.OffMeansSignedOut()
    ensures AlwaysSignedOut(hash, start, ops) <==> NeverLeavesLive(hash, start, ops)
  {
    if ops != [] {
      var s, op := Run(hash, start, ops[..|ops| - 1]), ops[|ops| - 1];
      RunSignedOut(hash, start, ops[..|ops| - 1]);
      RunFits(hash, start, ops[..|ops| - 1]);
      if s.tables.OffMeansSignedOut() { NextKeepsSignedOut(s, op); }
    }
  }

  // --- what a session left live is worth ----------------------------------------------------

  /** A session the panel takes: live, of an account that is on. */
  predicate Accepted(t: Tables, k: nat) {
    && k in t.sessions && t.sessions[k].revokedAt.None?
    && exists e :: e in t.accounts && t.accounts[e].id == t.sessions[k].staffId && t.accounts[e].isActive
  }

  /** Revoked, or of an account that is off. */
  predicate IsStale(t: Tables, k: nat) {
    k in t.sessions && (t.sessions[k].revokedAt.Some? || IsOff(t, t.sessions[k].staffId))
  }

  lemma EnrolKeepsStale(t: Tables, email: string, newId: string, role: Role, now: int, k: nat)
    requires t.Valid() && IsStale(t, k)
    ensures IsStale(Enrolled(t, email, newId, role, now), k)
  {
    var t' := Enrolled(t, email, newId, role, now);
    if t.sessions[k].revokedAt.None? {
      var e :| e in t.accounts && t.accounts[e].id == t.sessions[k].staffId && !t.accounts[e].isActive;
      if e != email && t'.sessions[k].revokedAt.None? { assert t'.accounts[e] == t.accounts[e]; }
    }
  }

  /** While nobody is switched on, what is stale stays so. */
  lemma OffStaysStale(t: Tables, t': Tables, k: nat)
    requires Kept(t, t') && IsStale(t, k)
    requires forall e :: e in t.accounts && !t.accounts[e].isActive ==> !t'.accounts[e].isActive
    ensures IsStale(t', k)
  {
    if t.sessions[k].revokedAt.None? {
      var e :| e in t.accounts && t.accounts[e].id == t.sessions[k].staffId && !t.accounts[e].isActive;
      assert t'.accounts[e].id == t'.sessions[k].staffId;
    }
  }

  /** Only a reset switches an account on. */
  lemma OffStaysOff(s: Staff, op: Op, e: string)
    requires !op.Enrol? && e in s.tables.accounts && !s.tables.accounts[e].isActive
    requires e in NextTables(s, op).accounts
    ensures !NextTables(s, op).accounts[e].isActive
  {
  }

  lemma NextKeepsStale(s: Staff, op: Op, k: nat)
    requires Fit(s) && IsStale(s.tables, k)
    ensures IsStale(NextTables(s, op), k)
  {
    if op.Enrol? {
      if CanEnrol(s.tables, op.email, op.newId) {
        EnrolKeepsStale(s.tables, op.email, op.newId, op.role, op.now, k);
      }
    } else {
      NextTablesFit(s, op);
      forall e | e in s.tables.accounts && !s.tables.accounts[e].isActive
        ensures !NextTables(s, op).accounts[e].isActive
      {
        OffStaysOff(s, op, e);
      }
      OffStaysStale(s.tables, NextTables(s, op), k);
    }
  }

  lemma StaleOneMore(hash: Hash, start: Staff, ops: seq<Op>, op: Op, k: nat)
    requires Fit(start) && IsStale(Run(hash, start, ops).tables, k)
    ensures IsStale(Run(hash, start, ops + [op]).tables, k)
  {
    RunFits(hash, start, ops);
    RunsOneMore(hash, start, ops, op);
    NextKeepsStale(Run(hash, start, ops), op, k);
  }

  lemma {:induction false} StaleStays(hash: Hash, start: Staff, ops: seq<Op>, more: seq<Op>, k: nat)
    requires Fit(start) && IsStale(Run(hash, start, ops).tables, k)
    ensures IsStale(Run(hash, start, ops + more).tables, k)
  {
    if more == [] {
      assert ops + more == ops;
    } else {
      var done, last := more[..|more| - 1], more[|more| - 1];
      StaleStays(hash, start, ops, done, k);
      StaleOneMore(hash, start, ops + done, last, k);
      assert ops + more == ops + done + [last];
    }
  }

  /**
   * What the session that is left can do: nothing. On every interleaving, a session
   * that was ever revoked, or live while its account was off, is never accepted from
   * then on, whatever comes after, the account's return included.
   */
  lemma StaleNeverAccepted(hash: Hash, start: Staff, ops: seq<Op>, more: seq<Op>, k: nat)
    requires Fit(start) && IsStale(Run(hash, start, ops).tables, k)
    ensures var t := Run(hash, start, ops + more).tables; IsStale(t, k) && !Accepted(t, k)
  {
    StaleStays(hash, start, ops, more, k);
    RunFits(hash, start, ops + more);
    StaleIsNotAccepted(Run(hash, start, ops + more).tables, k);
  }

  lemma StaleIsNotAccepted(t: Tables, k: nat)
    requires t.Valid() && IsStale(t, k)
    ensures !Accepted(t, k)
  {
  }

  // --- the last owner ---------------------------------------------------------------------------

  /**
   * Takes the panel from its last active owner: a reset of that account in a lesser
   * role, or a deactivation of it that began while there was another.
   */
  predicate TakesLastOwner(s: Staff, op: Op) {
    || (op.Enrol? && CanEnrol(s.tables, op.email, op.newId) && !op.role.OWNER? && !s.tables.HasOtherOwner(op.email))
    || (op.Commit? && op.r in s.begun && s.begun[op.r].Writes() && !s.tables.HasOtherOwner(s.begun[op.r].email))
  }

  lemma CommitLeavesOwner(t: Tables, b: Begun, now: int)
    requires b.Writes()
    ensures Committed(t, b, now).HasOwner() <==> t.HasOtherOwner(b.email)
  {
    var t' := Committed(t, b, now);
    if e :| e in t.accounts && e != b.email && t.IsActiveOwner(e) { assert t'.IsActiveOwner(e); }
    if e :| e in t'.accounts && t'.IsActiveOwner(e) { assert e != b.email && t.IsActiveOwner(e); }
  }

  lemma NextKeepsOwner(s: Staff, op: Op)
    requires s.tables.HasOwner()
    ensures NextTables(s, op).HasOwner() <==> !TakesLastOwner(s, op)
  {
    match op
    case Commit(r, m) => if r in s.begun && s.begun[r].Writes() { CommitLeavesOwner(s.tables, s.begun[r], m.now); }
    case Enrol(email, newId, role, now) => EnrolmentLeavesOwner(s.tables, email, newId, role, now);
    case _ =>
      var e :| e in s.tables.accounts && s.tables.IsActiveOwner(e);
      assert NextTables(s, op).IsActiveOwner(e);
  }

  ghost predicate AlwaysHasOwner(hash: Hash, start: Staff, ops: seq<Op>) {
    && Run(hash, start, ops).tables.HasOwner()
    && (ops != [] ==> AlwaysHasOwner(hash, start, ops[..|ops| - 1]))
  }

  ghost predicate NeverTakesLastOwner(hash: Hash, start: Staff, ops: seq<Op>) {
    ops != [] ==>
      && NeverTakesLastOwner(hash, start, ops[..|ops| - 1])
      && !TakesLastOwner(Run(hash, start, ops[..|ops| - 1]), ops[|ops| - 1])
  }

  /** Over every interleaving: a panel with an owner keeps one throughout exactly when nothing takes the last. */
  lemma {:induction false} RunKeepsOwner(hash: Hash, start: Staff, ops: seq<Op>)
    requires start.tables.HasOwner()
    ensures AlwaysHasOwner(hash, start, ops) <==> NeverTakesLastOwner(hash, start, ops)
  {
    if ops != [] {
      var s := Run(hash, start, ops[..|ops| - 1]);
      RunKeepsOwner(hash, start, ops[..|ops| - 1]);
      if s.tables.HasOwner() { NextKeepsOwner(s, ops[|ops| - 1]); }
    }
  }

  // --- how a deactivation comes to do either --------------------------------------------------

  /** The state after the first `n` operations of a run from nothing. */
  ghost function At(hash: Hash, ops: seq<Op>, n: nat): Staff
    requires n <= |ops|
  {
    Run(hash, Nothing(), ops[..n])
  }

  lemma AtNext(hash: Hash, ops: seq<Op>, n: nat)
    requires n < |ops|
    ensures At(hash, ops, n + 1) == Next(hash, At(hash, ops, n), ops[n])
  {
    var done := ops[..n + 1];
    assert done[..|done| - 1] == ops[..n] && done[|done| - 1] == ops[n];
  }

  /** Where a deactivation under way began, and that it has been under way since. */
  lemma {:induction false} BegunSince(hash: Hash, ops: seq<Op>, n: nat, r: nat) returns (i: nat)
    requires n <= |ops| && r in At(hash, ops, n).begun
    ensures i < n && ops[i].Begin? && ops[i].r == r
    ensures At(hash, ops, n).begun[r] == Begun(ops[i].email, ops[i].actor, At(hash, ops, i).tables)
    ensures forall k :: i < k <= n ==> r in At(hash, ops, k).begun
  {
    AtNext(hash, ops, n - 1);
    i := n - 1;
    if r in At(hash, ops, n - 1).begun { i := BegunSince(hash, ops, n - 1, r); }
  }

  /** A session that is there now and was not then was created in between. */
  lemma {:induction false} CreatedBetween(hash: Hash, ops: seq<Op>, i: nat, j: nat, k: nat) returns (n: nat)
    requires i <= j <= |ops| && k !in At(hash, ops, i).tables.sessions && k in At(hash, ops, j).tables.sessions
    ensures i <= n < j && ops[n].OpenSession? && ops[n].session == k && CanOpen(At(hash, ops, n), ops[n].r, k)
  {
    AtNext(hash, ops, j - 1);
    n := j - 1;
    if k in At(hash, ops, j - 1).tables.sessions { n := CreatedBetween(hash, ops, i, j - 1, k); }
  }

  /**
   * How a deactivation leaves a session: only when a sign-in created it between the
   * deactivation's beginning and its commit.
   */
  lemma MissedWasCreatedMeanwhile(hash: Hash, ops: seq<Op>, j: nat) returns (i: nat, n: nat)
    requires j < |ops| && CommitMisses(At(hash, ops, j), ops[j])
    ensures i < n < j && ops[i].Begin? && ops[i].r == ops[j].r
    ensures ops[n].OpenSession? && CanOpen(At(hash, ops, n), ops[n].r, ops[n].session)
    ensures var t := At(hash, ops, j).tables;
            ops[i].email in t.accounts && ops[n].session in t.Live(t.accounts[ops[i].email].id)
  {
    var s := At(hash, ops, j);
    var b := s.begun[ops[j].r];
    RunFits(hash, Nothing(), ops[..j]);
    assert BegunFits(s.tables, b);
    i := BegunSince(hash, ops, j, ops[j].r);
    var k :| k in s.tables.Live(b.seen.accounts[b.email].id) && k !in b.seen.sessions;
    n := CreatedBetween(hash, ops, i, j, k);
  }

  /** Only a reset in a lesser role, or a deactivation, stops anybody from being an active owner. */
  predicate Demotes(s: Staff, op: Op, e: string) {
    || (op.Enrol? && op.email == e && !op.role.OWNER?)
    || (op.Commit? && op.r in s.begun && s.begun[op.r].Writes())
  }

  lemma NextDemotes(s: Staff, op: Op, e: string)
    requires s.tables.IsActiveOwner(e) && !NextTables(s, op).IsActiveOwner(e)
    ensures Demotes(s, op, e)
  {
  }

  /** An owner that was active then and is not now was demoted in between. */
  lemma {:induction false} DemotedBetween(hash: Hash, ops: seq<Op>, i: nat, j: nat, e: string) returns (n: nat)
    requires i <= j <= |ops|
    requires At(hash, ops, i).tables.IsActiveOwner(e) && !At(hash, ops, j).tables.IsActiveOwner(e)
    ensures i <= n < j && At(hash, ops, n).tables.IsActiveOwner(e) && Demotes(At(hash, ops, n), ops[n], e)
  {
    AtNext(hash, ops, j - 1);
    n := j - 1;
    if At(hash, ops, j - 1).tables.IsActiveOwner(e) {
      NextDemotes(At(hash, ops, j - 1), ops[j - 1], e);
    } else {
      n := DemotedBetween(hash, ops, i, j - 1, e);
    }
  }

  /** No other deactivation commits while one stays under way. */
  lemma NoneCommits(s: Staff, op: Op, r: nat)
    requires op.Commit? && r in NextBegun(s, op)
    ensures !(op.r in s.begun && s.begun[op.r].Writes())
  {
  }

  /**
   * How a deactivation takes the last owner, which it checks not to: only when a reset
   * gave some other owner a lesser role between its beginning and its commit.
   */
  lemma TakenWhileDemoted(hash: Hash, ops: seq<Op>, j: nat) returns (i: nat, n: nat)
    requires j < |ops| && ops[j].Commit? && TakesLastOwner(At(hash, ops, j), ops[j])
    ensures i < n < j && ops[i].Begin? && ops[i].r == ops[j].r
    ensures ops[n].Enrol? && !ops[n].role.OWNER? && ops[n].email != ops[i].email
    ensures At(hash, ops, n).tables.IsActiveOwner(ops[n].email)
  {
    var b := At(hash, ops, j).begun[ops[j].r];
    i := BegunSince(hash, ops, j, ops[j].r);
    var e := OtherOwnerSeen(b);
    n := DemotedBetween(hash, ops, i, j, e);
    if ops[n].Commit? {
      AtNext(hash, ops, n);
      NoneCommits(At(hash, ops, n), ops[n], ops[j].r);
    }
  }

  lemma OtherOwnerSeen(b: Begun) returns (e: string)
    requires b.Writes()
    ensures e != b.email && b.seen.IsActiveOwner(e)
  {
    if b.actor == b.email {
      e :| e in b.seen.accounts && e != b.email && b.seen.IsActiveOwner(e);
    } else {
      e := b.actor;
    }
  }

  // --- the runs in which each fails -------------------------------------------------------------

  lemma RunOfFour(hash: Hash, start: Staff, a: Op, b: Op, c: Op, d: Op)
    ensures Run(hash, start, [a, b]) == Next(hash, Next(hash, start, a), b)
    ensures Run(hash, start, [a, b, c]) == Next(hash, Run(hash, start, [a, b]), c)
    ensures Run(hash, start, [a, b, c, d]) == Next(hash, Run(hash, start, [a, b, c]), d)
  {
    assert [a, b, c, d][..3] == [a, b, c] && [a, b, c][..2] == [a, b] && [a, b][..1] == [a] && [a][..0] == [];
    assert Run(hash, start, [a]) == Next(hash, start, a);
  }

  /** An owner and an account in some role, both new. */
  function Two(role: Role): Staff {
    Staff(Tables(map["o" := Account("1", OWNER, true), "a" := Account("2", role, true)], map[]),
          AuditRuns.Nothing(), map[], map[])
  }

  lemma RunOfTwo(hash: Hash, start: Staff, a: Op, b: Op)
    ensures Run(hash, start, [a, b]) == Next(hash, Next(hash, start, a), b)
  {
    RunOfFour(hash, start, a, b, a, b);
  }

  lemma OneIsEnrolled(hash: Hash)
    ensures Next(hash, Nothing(), Enrol("o", "1", OWNER, 0)) ==
      Staff(Tables(map["o" := Account("1", OWNER, true)], map[]), AuditRuns.Nothing(), map[], map[])
  {
  }

  lemma TwoAreEnrolled(hash: Hash, role: Role)
    ensures Run(hash, Nothing(), [Enrol("o", "1", OWNER, 0), Enrol("a", "2", role, 0)]) == Two(role)
  {
    RunOfTwo(hash, Nothing(), Enrol("o", "1", OWNER, 0), Enrol("a", "2", role, 0));
    OneIsEnrolled(hash);
  }

  /** The deactivation of the second account, begun when there are those two. */
  function AgainstTwo(role: Role, actor: string): Begun { Begun("a", actor, Two(role).tables) }

  lemma AgainstTwoWrites()
    ensures AgainstTwo(ADMIN, "o").Writes() && AgainstTwo(ADMIN, "o").Revokes() == {}
    ensures AgainstTwo(OWNER, "a").Writes() && AgainstTwo(OWNER, "a").Revokes() == {}
  {
    assert Two(ADMIN).tables.IsActiveOwner("o");
    assert Two(OWNER).tables.IsActiveOwner("o") && Two(OWNER).tables.IsActiveOwner("a");
  }

  /** After the account's check and the beginning of its deactivation. */
  lemma CheckedAndBegun(hash: Hash)
    ensures var s := Run(hash, Two(ADMIN), [CheckAccount(0, "a"), Begin(1, "a", "o", None)]);
            && s.tables == Two(ADMIN).tables && s.checked == map[0 := "2"]
            && s.begun == map[1 := AgainstTwo(ADMIN, "o")]
  {
    var x, y := CheckAccount(0, "a"), Begin(1, "a", "o", None);
    RunOfTwo(hash, Two(ADMIN), x, y);
    assert MayFind([], None);
  }

  /** The account is off and has a live session, which is not accepted. */
  predicate LiveThoughOff(t: Tables) {
    7 in t.Live("2") && t.accounts == map["o" := Account("1", OWNER, true), "a" := Account("2", ADMIN, false)]
  }

  lemma LiveThoughOffIsWrong(t: Tables)
    requires LiveThoughOff(t)
    ensures !t.OffMeansSignedOut() && !Accepted(t, 7)
  {
    assert t.accounts["a"].id == "2" && !t.accounts["a"].isActive;
  }

  lemma NextCommit(hash: Hash, s: Staff, r: nat, m: Moment)
    requires r in s.begun && s.begun[r].Writes()
    ensures Next(hash, s, Commit(r, m)).tables == Committed(s.tables, s.begun[r], m.now)
    ensures Next(hash, s, Commit(r, m)).checked == s.checked
  {
  }

  lemma NextOpen(hash: Hash, s: Staff, r: nat, session: nat)
    requires CanOpen(s, r, session)
    ensures Next(hash, s, OpenSession(r, session)).tables == Opened(s.tables, session, s.checked[r])
    ensures Next(hash, s, OpenSession(r, session)).begun == s.begun
  {
  }

  /** A deactivation that sees no session switches the account off and revokes none. */
  lemma CommitOfTwo(t: Tables, role: Role, actor: string, now: int)
    requires AgainstTwo(role, actor).Writes() && AgainstTwo(role, actor).Revokes() == {}
    ensures Committed(t, AgainstTwo(role, actor), now) == Tables(t.accounts["a" := Account("2", role, false)], t.sessions)
  {
  }

  lemma IsLiveThoughOff(t: Tables)
    requires t.accounts == Two(ADMIN).tables.accounts["a" := Account("2", ADMIN, false)]
    requires t.sessions == map[7 := Session("2", None)]
    ensures LiveThoughOff(t)
  {
    assert 7 in t.Live("2");
  }

  lemma CommitThenOpen(hash: Hash, s: Staff, m: Moment)
    requires s.tables == Two(ADMIN).tables && s.checked == map[0 := "2"] && s.begun == map[1 := AgainstTwo(ADMIN, "o")]
    ensures LiveThoughOff(Next(hash, Next(hash, s, Commit(1, m)), OpenSession(0, 7)).tables)
  {
    AgainstTwoWrites();
    CommitOfTwo(s.tables, ADMIN, "o", m.now);
    NextCommit(hash, s, 1, m);
    NextOpen(hash, Next(hash, s, Commit(1, m)), 0, 7);
    IsLiveThoughOff(Next(hash, Next(hash, s, Commit(1, m)), OpenSession(0, 7)).tables);
  }

  lemma OpenThenCommit(hash: Hash, s: Staff, m: Moment)
    requires s.tables == Two(ADMIN).tables && s.checked == map[0 := "2"] && s.begun == map[1 := AgainstTwo(ADMIN, "o")]
    ensures LiveThoughOff(Next(hash, Next(hash, s, OpenSession(0, 7)), Commit(1, m)).tables)
  {
    AgainstTwoWrites();
    NextOpen(hash, s, 0, 7);
    CommitOfTwo(Opened(s.tables, 7, "2"), ADMIN, "o", m.now);
    NextCommit(hash, Next(hash, s, OpenSession(0, 7)), 1, m);
    IsLiveThoughOff(Next(hash, Next(hash, s, OpenSession(0, 7)), Commit(1, m)).tables);
  }

  /**
   * Check, deactivate, create; and check, begin to deactivate, create, commit. Both ways
   * the account is off and has a live session.
   */
  lemma LateSignInIsLive(hash: Hash, m: Moment)
    ensures var check, begin := CheckAccount(0, "a"), Begin(1, "a", "o", None);
            var after := Run(hash, Two(ADMIN), [check, begin, Commit(1, m), OpenSession(0, 7)]).tables;
            var meanwhile := Run(hash, Two(ADMIN), [check, begin, OpenSession(0, 7), Commit(1, m)]).tables;
            && !after.OffMeansSignedOut() && !Accepted(after, 7)
            && !meanwhile.OffMeansSignedOut() && !Accepted(meanwhile, 7)
  {
    var check, begin, open, commit := CheckAccount(0, "a"), Begin(1, "a", "o", None), OpenSession(0, 7), Commit(1, m);
    var s := Run(hash, Two(ADMIN), [check, begin]);
    CheckedAndBegun(hash);
    CommitThenOpen(hash, s, m);
    OpenThenCommit(hash, s, m);
    RunOfFour(hash, Two(ADMIN), check, begin, commit, open);
    RunOfFour(hash, Two(ADMIN), check, begin, open, commit);
    LiveThoughOffIsWrong(Run(hash, Two(ADMIN), [check, begin, commit, open]).tables);
    LiveThoughOffIsWrong(Run(hash, Two(ADMIN), [check, begin, open, commit]).tables);
  }

  /**
   * Of two owners one switches itself off while the other is reset in a lesser role:
   * neither is the last when it is checked, and no owner is left.
   */
  lemma NoOwnerLeft(hash: Hash, m: Moment)
    ensures !Run(hash, Two(OWNER), [Begin(1, "a", "a", None), Enrol("o", "1", ADMIN, 0), Commit(1, m)]).tables.HasOwner()
    ensures var s := Run(hash, Two(OWNER), [Begin(1, "a", "a", None)]);
            !TakesLastOwner(s, Enrol("o", "1", ADMIN, 0)) && !TakesLastOwner(s, Commit(1, m))
  {
    var begin, reset, commit := Begin(1, "a", "a", None), Enrol("o", "1", ADMIN, 0), Commit(1, m);
    RunOfFour(hash, Two(OWNER), begin, reset, commit, commit);
    assert [begin][..0] == [];
    var s := Next(hash, Two(OWNER), begin);
    assert Run(hash, Two(OWNER), [begin]) == s;
    SelfBegun(hash);
    SelfBegunThenReset(hash, s);
    AgainstTwoWrites();
    NextCommit(hash, Next(hash, s, reset), 1, m);
    CommitOfTwo(Next(hash, s, reset).tables, OWNER, "a", m.now);
  }

  /** A deactivation of the second owner by itself has begun. */
  predicate IsSelfBegun(s: Staff) {
    s.tables == Two(OWNER).tables && s.begun == map[1 := AgainstTwo(OWNER, "a")]
  }

  lemma SelfBegun(hash: Hash)
    ensures IsSelfBegun(Next(hash, Two(OWNER), Begin(1, "a", "a", None)))
  {
    assert MayFind([], None);
  }

  lemma SelfBegunThenReset(hash: Hash, s: Staff)
    requires IsSelfBegun(s)
    ensures var s' := Next(hash, s, Enrol("o", "1", ADMIN, 0));
            && s'.tables.accounts == map["o" := Account("1", ADMIN, true), "a" := Account("2", OWNER, true)]
            && s'.begun == map[1 := AgainstTwo(OWNER, "a")]
    ensures s.tables.HasOtherOwner("o") && s.tables.HasOtherOwner("a")
  {
    assert s.tables.IsActiveOwner("o") && s.tables.IsActiveOwner("a");
  }
}
