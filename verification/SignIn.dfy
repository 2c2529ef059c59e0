/**
 * Signing in by an emailed link.
 *
 * `AccountStore` runs the service's database statements one after another.
 * `World` interleaves them: any number of requests, each between two of its own
 * statements, any of which may also die there. Tokens and session cookies are
 * named by the digest they are stored under; times are in milliseconds.
 */
module SignIn {
  import opened Options

  const LINK_MS := 15 * 60 * 1000
  const COOLDOWN_MS := 60 * 1000
  const SESSION_MS := 12 * 3600 * 1000

  datatype Customer = Customer(deletedAt: Option<int>, verifiedAt: Option<int>)
  datatype Token = Token(customerId: nat, createdAt: int, expiresAt: int, usedAt: Option<int>)
  datatype Session = Session(customerId: nat, expiresAt: int, revokedAt: Option<int>, lastSeenAt: int)

  datatype Db = Db(customers: map<nat, Customer>, tokens: map<string, Token>, sessions: map<string, Session>)

  // --- what each statement does -------------------------------------------------------

  predicate IsOpen(db: Db, customer: nat) {
    customer in db.customers && db.customers[customer].deletedAt.None?
  }

  predicate RecentlyAsked(db: Db, customer: nat, now: int) {
    exists k :: k in db.tokens && db.tokens[k].customerId == customer && db.tokens[k].createdAt > now - COOLDOWN_MS
  }

  function Issued(db: Db, customer: nat, token: string, now: int): Db {
    db.(tokens := db.tokens[token := Token(customer, now, now + LINK_MS, None)])
  }

  /** The check before an exchange: a known, unused, unexpired link of an open account. */
  predicate Redeemable(db: Db, token: string, now: int) {
    && token in db.tokens
    && db.tokens[token].usedAt.None?
    && now < db.tokens[token].expiresAt
    && IsOpen(db, db.tokens[token].customerId)
  }

  predicate IsUnused(db: Db, token: string) {
    token in db.tokens && db.tokens[token].usedAt.None?
  }

  /** The conditional claim: marks the link only if it is still unmarked. */
  function Claimed(db: Db, token: string, now: int): Db {
    if IsUnused(db, token)
    then db.(tokens := db.tokens[token := db.tokens[token].(usedAt := Some(now))])
    else db
  }

  /** The session and the verified address, in one transaction. */
  function Minted(db: Db, session: string, customer: nat, verifiedAt: Option<int>, expiresAt: int, now: int): Db
    requires customer in db.customers
  {
    db.(sessions := db.sessions[session := Session(customer, expiresAt, None, now)],
        customers := db.customers[customer :=
          db.customers[customer].(verifiedAt := Some(verifiedAt.GetOr(now)))])
  }

  /** A cookie that is good for a request. */
  predicate Accepts(db: Db, session: string, now: int) {
    && session in db.sessions
    && db.sessions[session].revokedAt.None?
    && now < db.sessions[session].expiresAt
    && IsOpen(db, db.sessions[session].customerId)
  }

  function Touched(db: Db, session: string, now: int): Db
    requires session in db.sessions
  {
    db.(sessions := db.sessions[session := db.sessions[session].(lastSeenAt := now)])
  }

  function SignedOut(db: Db, session: string, now: int): Db {
    if session in db.sessions && db.sessions[session].revokedAt.None?
    then db.(sessions := db.sessions[session := db.sessions[session].(revokedAt := Some(now))])
    else db
  }

  // --- the service, one request at a time ----------------------------------------------

  class AccountStore {
    var customers: map<nat, Customer>
    var tokens: map<string, Token>
    var sessions: map<string, Session>

    function State(): Db
      reads this
    {
      Db(customers, tokens, sessions)
    }

    /** Every token and session belongs to a customer, as the foreign keys require. */
    ghost predicate Valid()
      reads this
    {
      && (forall k :: k in tokens ==> tokens[k].customerId in customers)
      && (forall k :: k in sessions ==> sessions[k].customerId in customers)
    }

    constructor ()
      ensures State() == Db(map[], map[], map[]) && Valid()
    {
      customers, tokens, sessions := map[], map[], map[];
    }

    /** Silent for an unknown or closed account and within the cooldown; one row otherwise. */
    method RequestLink(customer: Option<nat>, token: string, now: int) returns (sent: bool)
      requires Valid() && token !in tokens
      modifies this`tokens
      ensures sent <==> customer.Some? && IsOpen(old(State()), customer.value) &&
                        !RecentlyAsked(old(State()), customer.value, now)
      ensures State() == if sent then Issued(old(State()), customer.value, token, now) else old(State())
      ensures sent <==>
        && customer.Some? && customer.value in customers && customers[customer.value].deletedAt.None?
        && forall k :: k in old(tokens) && old(tokens)[k].customerId == customer.value ==> old(tokens)[k].createdAt <= now - 60_000
      ensures sent ==> tokens == old(tokens)[token := Token(customer.value, now, now + 900_000, None)]
      ensures Valid()
    {
      sent := false;
      if customer.None? || customer.value !in customers { return; }
      if customers[customer.value].deletedAt.Some? { return; }
      if exists k :: k in tokens && tokens[k].customerId == customer.value && tokens[k].createdAt > now - COOLDOWN_MS {
        return;
      }
      tokens := tokens[token := Token(customer.value, now, now + LINK_MS, None)];
      sent := true;
    }

    method Claim(token: string, now: int) returns (count: nat)
      modifies this`tokens
      ensures State() == Claimed(old(State()), token, now)
      ensures count == if IsUnused(old(State()), token) then 1 else 0
    {
      count := 0;
      if token in tokens && tokens[token].usedAt.None? {
        tokens := tokens[token := tokens[token].(usedAt := Some(now))];
        count := 1;
      }
    }

    /** A link for a session, when nobody else is at work. */
    method Exchange(token: string, session: string, now: int) returns (expiresAt: Option<int>)
      requires Valid() && session !in sessions
      modifies this
      ensures expiresAt == if Redeemable(old(State()), token, now) then Some(now + SESSION_MS) else None
      ensures expiresAt.None? ==> State() == old(State())
      ensures expiresAt.Some? ==>
        var row := old(tokens)[token];
        && State() == Minted(Claimed(old(State()), token, now), session, row.customerId,
                             old(customers)[row.customerId].verifiedAt, now + SESSION_MS, now)
        && !Redeemable(State(), token, now) && Accepts(State(), session, now)
      ensures expiresAt.Some? <==>
        && token in old(tokens) && old(tokens)[token].usedAt.None? && now < old(tokens)[token].expiresAt
        && old(customers)[old(tokens)[token].customerId].deletedAt.None?
      ensures expiresAt.Some? ==>
        var row := old(tokens)[token];
        var was := old(customers)[row.customerId];
        && expiresAt.value == now + 43_200_000
        && tokens == old(tokens)[token := row.(usedAt := Some(now))]
        && sessions == old(sessions)[session := Session(row.customerId, now + 43_200_000, None, now)]
        && customers == old(customers)[row.customerId :=
             was.(verifiedAt := if was.verifiedAt.Some? then was.verifiedAt else Some(now))]
      ensures Valid()
    {
      expiresAt := None;
      if token !in tokens { return; }
      var row := tokens[token];
      var customer := customers[row.customerId];
      if row.usedAt.Some? || row.expiresAt <= now || customer.deletedAt.Some? { return; }
      var count := Claim(token, now);
      if count != 1 { return; }
      sessions := sessions[session := Session(row.customerId, now + SESSION_MS, None, now)];
      customers := customers[row.customerId :=
        customers[row.customerId].(verifiedAt := Some(customer.verifiedAt.GetOr(now)))];
      expiresAt := Some(now + SESSION_MS);
    }

    /** The customer behind a cookie, or nobody. */
    method SessionFor(session: string, now: int) returns (customer: Option<nat>)
      requires Valid()
      modifies this`sessions
      ensures customer.Some? <==> Accepts(old(State()), session, now)
      ensures customer.Some? ==>
        customer.value == old(sessions)[session].customerId && State() == Touched(old(State()), session, now)
      ensures customer.None? ==> State() == old(State())
      ensures customer.Some? <==>
        && session in old(sessions) && old(sessions)[session].revokedAt.None? && now < old(sessions)[session].expiresAt
        && customers[old(sessions)[session].customerId].deletedAt.None?
      ensures customer.Some? ==> sessions == old(sessions)[session := old(sessions)[session].(lastSeenAt := now)]
    {
      if session !in sessions { return None; }
      var row := sessions[session];
      if row.revokedAt.Some? || row.expiresAt <= now { return None; }
      if customers[row.customerId].deletedAt.Some? { return None; }
      sessions := sessions[session := row.(lastSeenAt := now)];
      return Some(row.customerId);
    }

    method SignOut(session: string, now: int)
      modifies this`sessions
      ensures State() == SignedOut(old(State()), session, now)
      ensures forall later :: !Accepts(State(), session, later)
      ensures sessions.Keys == old(sessions).Keys
      ensures forall k :: k in sessions ==>
        sessions[k] == if k == session && old(sessions)[k].revokedAt.None? then old(sessions)[k].(revokedAt := Some(now)) else old(sessions)[k]
    {
      if session in sessions && sessions[session].revokedAt.None? {
        sessions := sessions[session := sessions[session].(revokedAt := Some(now))];
      }
    }
  }

  // --- many requests at once --------------------------------------------------------------

  /** Where a request stands between two of its statements, and what it has read. */
  datatype Phase =
    | HasAsked(customer: nat, lookedAt: int)
    | HasRead(token: string, customer: nat, verifiedAt: Option<int>, readAt: int)
    | HasClaimed(token: string, customer: nat, verifiedAt: Option<int>, readAt: int)

  /** Which link a session came from, and when that link was read. */
  datatype Origin = Origin(token: string, readAt: int)

  /** `lost` are the links whose request died between the claim and the session. */
  datatype World = World(db: Db, requests: map<nat, Phase>, origins: map<string, Origin>, lost: set<string>)

  datatype Event =
    | Look(r: nat, customer: nat, now: int)
    | Issue(r: nat, token: string, now: int)
    | Read(r: nat, token: string, now: int)
    | Claim(r: nat, now: int)
    | Mint(r: nat, session: string, now: int)
    | Die(r: nat)
    | Visit(session: string, now: int)
    | Leave(session: string, now: int)
    | Join(customer: nat)
    | Close(customer: nat, now: int)

  predicate CanMint(w: World, r: nat, session: string) {
    r in w.requests && w.requests[r].HasClaimed? && session !in w.db.sessions && w.requests[r].customer in w.db.customers
  }

  /** One statement of one request, or the death of one; an event out of turn changes nothing. */
  function Next(w: World, e: Event): World {
    match e
    case Look(r, customer, now) =>
      if r !in w.requests && IsOpen(w.db, customer) && !RecentlyAsked(w.db, customer, now)
      then w.(requests := w.requests[r := HasAsked(customer, now)]) else w
    case Issue(r, token, now) =>
      if r in w.requests && w.requests[r].HasAsked? && token !in w.db.tokens
      then w.(db := Issued(w.db, w.requests[r].customer, token, now), requests := w.requests - {r}) else w
    case Read(r, token, now) =>
      if r !in w.requests && Redeemable(w.db, token, now)
      then
        var customer := w.db.tokens[token].customerId;
        w.(requests := w.requests[r := HasRead(token, customer, w.db.customers[customer].verifiedAt, now)])
      else w
    case Claim(r, now) =>
      if r in w.requests && w.requests[r].HasRead?
      then
        var p := w.requests[r];
        if IsUnused(w.db, p.token)
        then w.(db := Claimed(w.db, p.token, now),
                requests := w.requests[r := HasClaimed(p.token, p.customer, p.verifiedAt, p.readAt)])
        else w.(requests := w.requests - {r})
      else w
    case Mint(r, session, now) =>
      if CanMint(w, r, session)
      then
        var p := w.requests[r];
        w.(db := Minted(w.db, session, p.customer, p.verifiedAt, p.readAt + SESSION_MS, now),
           requests := w.requests - {r},
           origins := w.origins[session := Origin(p.token, p.readAt)])
      else w
    case Die(r) =>
      if r in w.requests
      then w.(requests := w.requests - {r},
              lost := w.lost + if w.requests[r].HasClaimed? then {w.requests[r].token} else {})
      else w
    case Visit(session, now) => if Accepts(w.db, session, now) then w.(db := Touched(w.db, session, now)) else w
    case Leave(session, now) => w.(db := SignedOut(w.db, session, now))
    case Join(customer) =>
      if customer in w.db.customers then w
      else w.(db := w.db.(customers := w.db.customers[customer := Customer(None, None)]))
    case Close(customer, now) =>
      if IsOpen(w.db, customer)
      then w.(db := w.db.(customers := w.db.customers[customer := w.db.customers[customer].(deletedAt := Some(now))]))
      else w
  }

  function Run(events: seq<Event>): World {
    if events == [] then World(Db(map[], map[], map[]), map[], map[], {})
    else Next(Run(events[..|events| - 1]), events[|events| - 1])
  }

  // --- what always holds --------------------------------------------------------------------

  /** A link that was unexpired at `readAt` and is marked used. */
  predicate SpentInTime(w: World, token: string, customer: nat, readAt: int) {
    && token in w.db.tokens
    && w.db.tokens[token].customerId == customer
    && w.db.tokens[token].usedAt.Some?
    && readAt < w.db.tokens[token].expiresAt
  }

  predicate HoldsClaim(w: World, r: nat, token: string) {
    r in w.requests && w.requests[r].HasClaimed? && w.requests[r].token == token
  }

  predicate CameFrom(w: World, session: string, token: string) {
    session in w.origins && w.origins[session].token == token
  }

  ghost predicate RequestsFit(w: World) {
    forall r :: r in w.requests ==>
      match w.requests[r]
      case HasAsked(customer, _) => customer in w.db.customers
      case HasRead(token, customer, _, readAt) =>
        && token in w.db.tokens && w.db.tokens[token].customerId == customer
        && readAt < w.db.tokens[token].expiresAt && customer in w.db.customers
      case HasClaimed(token, customer, _, readAt) =>
        SpentInTime(w, token, customer, readAt) && customer in w.db.customers
  }

  ghost predicate SessionsFit(w: World) {
    && w.origins.Keys == w.db.sessions.Keys
    && forall s :: s in w.db.sessions ==>
         && SpentInTime(w, w.origins[s].token, w.db.sessions[s].customerId, w.origins[s].readAt)
         && w.db.sessions[s].expiresAt == w.origins[s].readAt + SESSION_MS
  }

  /** A link is behind one session, or held by one request, or lost: never two of these, never twice. */
  ghost predicate OncePerLink(w: World) {
    && (forall s, t :: s in w.origins && t in w.origins && w.origins[s].token == w.origins[t].token ==> s == t)
    && (forall q, r, k :: HoldsClaim(w, q, k) && HoldsClaim(w, r, k) ==> q == r)
    && (forall r, s, k :: HoldsClaim(w, r, k) && CameFrom(w, s, k) ==> false)
    && (forall k :: k in w.lost ==> k in w.db.tokens && w.db.tokens[k].usedAt.Some?)
    && (forall r, k :: HoldsClaim(w, r, k) ==> k !in w.lost)
    && (forall s, k :: CameFrom(w, s, k) ==> k !in w.lost)
  }

  /** Every used link is accounted for. */
  ghost predicate UsedIsAccounted(w: World) {
    forall k :: k in w.db.tokens && w.db.tokens[k].usedAt.Some? ==>
      (exists s :: CameFrom(w, s, k)) || (exists r :: HoldsClaim(w, r, k)) || k in w.lost
  }

  ghost predicate Inv(w: World) {
    && (forall k :: k in w.db.tokens ==> w.db.tokens[k].customerId in w.db.customers)
    && RequestsFit(w) && SessionsFit(w) && OncePerLink(w) && UsedIsAccounted(w)
  }

  /** Nothing that was marked is ever unmarked, and nothing disappears. */
  ghost predicate MarksKept(d: Db, d': Db) {
    && (forall k :: k in d.tokens ==>
          k in d'.tokens && d'.tokens[k].expiresAt == d.tokens[k].expiresAt &&
          (d.tokens[k].usedAt.Some? ==> d'.tokens[k].usedAt == d.tokens[k].usedAt))
    && (forall s :: s in d.sessions ==>
          s in d'.sessions && d'.sessions[s].expiresAt == d.sessions[s].expiresAt &&
          d'.sessions[s].customerId == d.sessions[s].customerId &&
          (d.sessions[s].revokedAt.Some? ==> d'.sessions[s].revokedAt == d.sessions[s].revokedAt))
    && (forall c :: c in d.customers ==>
          c in d'.customers && (d.customers[c].verifiedAt.Some? ==> d'.customers[c].verifiedAt.Some?) &&
          (d.customers[c].deletedAt.Some? ==> d'.customers[c].deletedAt == d.customers[c].deletedAt))
  }

  lemma NextKeepsMarks(w: World, e: Event)
    ensures MarksKept(w.db, Next(w, e).db)
  {
  }

  // --- why it holds ---------------------------------------------------------------------------

  lemma ClaimedAccounted(w: World, r: nat, now: int)
    requires Inv(w) && r in w.requests && w.requests[r].HasRead? && IsUnused(w.db, w.requests[r].token)
    ensures UsedIsAccounted(Next(w, Claim(r, now)))
  {
    var w', token := Next(w, Claim(r, now)), w.requests[r].token;
    assert HoldsClaim(w', r, token);
    forall k | k in w'.db.tokens && w'.db.tokens[k].usedAt.Some? && k != token
      ensures (exists s :: CameFrom(w', s, k)) || (exists q :: HoldsClaim(w', q, k)) || k in w'.lost
    {
      AccountedElsewhere(w, w', k, r);
    }
  }

  /** The request that marks the link is the one that holds it. */
  lemma ClaimedOnce(w: World, r: nat, now: int)
    requires Inv(w) && r in w.requests && w.requests[r].HasRead? && IsUnused(w.db, w.requests[r].token)
    ensures OncePerLink(Next(w, Claim(r, now)))
  {
    var w', token := Next(w, Claim(r, now)), w.requests[r].token;
    forall q, k | HoldsClaim(w', q, k) ensures if q == r then k == token else HoldsClaim(w, q, k) {
    }
    forall s, k | CameFrom(w', s, k) ensures CameFrom(w, s, k) && k != token {
    }
  }

  lemma ClaimedFits(w: World, r: nat, now: int)
    requires Inv(w) && r in w.requests && w.requests[r].HasRead? && IsUnused(w.db, w.requests[r].token)
    ensures RequestsFit(Next(w, Claim(r, now))) && SessionsFit(Next(w, Claim(r, now)))
  {
  }

  lemma ClaimedKeepsInv(w: World, r: nat, now: int)
    requires Inv(w) && r in w.requests && w.requests[r].HasRead? && IsUnused(w.db, w.requests[r].token)
    ensures Inv(Next(w, Claim(r, now)))
  {
    ClaimedFits(w, r, now);
    ClaimedOnce(w, r, now);
    ClaimedAccounted(w, r, now);
  }

  lemma ClaimKeepsInv(w: World, r: nat, now: int)
    requires Inv(w)
    ensures Inv(Next(w, Claim(r, now)))
  {
    if r in w.requests && w.requests[r].HasRead? {
      if IsUnused(w.db, w.requests[r].token) {
        ClaimedKeepsInv(w, r, now);
      } else {
        ForgetKeepsInv(w, r);
      }
    }
  }

  /** A used link nobody touched stays accounted for. */
  lemma AccountedElsewhere(w: World, w': World, k: string, r: nat)
    requires UsedIsAccounted(w) && k in w.db.tokens && w.db.tokens[k].usedAt.Some?
    requires !HoldsClaim(w, r, k)
    requires forall s :: s in w.origins ==> s in w'.origins && w'.origins[s] == w.origins[s]
    requires forall q :: q in w.requests && q != r ==> q in w'.requests && w'.requests[q] == w.requests[q]
    requires w.lost <= w'.lost
    ensures (exists s :: CameFrom(w', s, k)) || (exists q :: HoldsClaim(w', q, k)) || k in w'.lost
  {
    if s :| CameFrom(w, s, k) {
      assert CameFrom(w', s, k);
    } else if q :| HoldsClaim(w, q, k) {
      assert HoldsClaim(w', q, k);
    }
  }

  /** A request that holds no claim may end at any time. */
  lemma ForgetKeepsInv(w: World, r: nat)
    requires Inv(w) && r in w.requests && !w.requests[r].HasClaimed?
    ensures Inv(w.(requests := w.requests - {r}))
  {
    var w' := w.(requests := w.requests - {r});
    assert forall q, k :: HoldsClaim(w', q, k) <==> HoldsClaim(w, q, k);
    assert forall s, k :: CameFrom(w', s, k) <==> CameFrom(w, s, k);
  }

  lemma MintAccounted(w: World, r: nat, session: string, now: int)
    requires Inv(w) && CanMint(w, r, session)
    ensures UsedIsAccounted(Next(w, Mint(r, session, now)))
  {
    var w', token := Next(w, Mint(r, session, now)), w.requests[r].token;
    assert session !in w.origins && CameFrom(w', session, token);
    forall k | k in w'.db.tokens && w'.db.tokens[k].usedAt.Some? && k != token
      ensures (exists s :: CameFrom(w', s, k)) || (exists q :: HoldsClaim(w', q, k)) || k in w'.lost
    {
      AccountedElsewhere(w, w', k, r);
    }
  }

  lemma MintOnce(w: World, r: nat, session: string, now: int)
    requires Inv(w) && CanMint(w, r, session)
    ensures OncePerLink(Next(w, Mint(r, session, now)))
  {
    var w', token := Next(w, Mint(r, session, now)), w.requests[r].token;
    assert HoldsClaim(w, r, token) && session !in w.origins;
    forall q, k | HoldsClaim(w', q, k) ensures HoldsClaim(w, q, k) && q != r && k != token {
      assert HoldsClaim(w, q, k);
      assert HoldsClaim(w, r, k) ==> q == r;
    }
    forall s, k | CameFrom(w', s, k) ensures if s == session then k == token else CameFrom(w, s, k) && k != token {
      if s != session { assert CameFrom(w, s, k); }
    }
    forall s, t | s in w'.origins && t in w'.origins && w'.origins[s].token == w'.origins[t].token ensures s == t {
      assert CameFrom(w', s, w'.origins[s].token) && CameFrom(w', t, w'.origins[t].token);
    }
  }

  lemma MintKeepsInv(w: World, r: nat, session: string, now: int)
    requires Inv(w)
    ensures Inv(Next(w, Mint(r, session, now)))
  {
    if CanMint(w, r, session) {
      MintAccounted(w, r, session, now);
      MintOnce(w, r, session, now);
    }
  }

  lemma LoseKeepsInv(w: World, r: nat, token: string)
    requires Inv(w) && HoldsClaim(w, r, token)
    ensures Inv(w.(requests := w.requests - {r}, lost := w.lost + {token}))
  {
    var w' := w.(requests := w.requests - {r}, lost := w.lost + {token});
    forall q, k | HoldsClaim(w', q, k) ensures HoldsClaim(w, q, k) && k != token {
      assert HoldsClaim(w, q, k);
      assert HoldsClaim(w, r, k) ==> q == r;
    }
    assert forall s, k :: CameFrom(w', s, k) <==> CameFrom(w, s, k);
    forall k | k in w'.db.tokens && w'.db.tokens[k].usedAt.Some? && k != token
      ensures (exists s :: CameFrom(w', s, k)) || (exists q :: HoldsClaim(w', q, k)) || k in w'.lost
    {
      AccountedElsewhere(w, w', k, r);
    }
    assert OncePerLink(w');
  }

  lemma DieKeepsInv(w: World, r: nat)
    requires Inv(w)
    ensures Inv(Next(w, Die(r)))
  {
    if r in w.requests {
      if w.requests[r].HasClaimed? {
        LoseKeepsInv(w, r, w.requests[r].token);
      } else {
        ForgetKeepsInv(w, r);
        assert w.lost + {} == w.lost;
      }
    }
  }

  /** What is left of the world when no link is claimed, minted or lost. */
  ghost predicate LinksUntouched(w: World, w': World) {
    && w'.origins == w.origins && w'.lost == w.lost
    && (forall k :: k in w.db.tokens ==> k in w'.db.tokens && w'.db.tokens[k] == w.db.tokens[k])
    && (forall k :: k in w'.db.tokens && k !in w.db.tokens ==>
          w'.db.tokens[k].usedAt.None? && w'.db.tokens[k].customerId in w'.db.customers)
    && (forall c :: c in w.db.customers ==> c in w'.db.customers)
    && w'.db.sessions.Keys == w.db.sessions.Keys
    && (forall s :: s in w.db.sessions ==>
          w'.db.sessions[s].customerId == w.db.sessions[s].customerId &&
          w'.db.sessions[s].expiresAt == w.db.sessions[s].expiresAt)
    && (forall q, k :: HoldsClaim(w', q, k) <==> HoldsClaim(w, q, k))
  }

  lemma UntouchedLinksFit(w: World, w': World)
    requires Inv(w) && LinksUntouched(w, w')
    ensures SessionsFit(w') && OncePerLink(w') && UsedIsAccounted(w')
    ensures forall t, c, at :: SpentInTime(w, t, c, at) ==> SpentInTime(w', t, c, at)
  {
    assert forall s, k :: CameFrom(w', s, k) <==> CameFrom(w, s, k);
    forall k | k in w'.db.tokens && w'.db.tokens[k].usedAt.Some?
      ensures (exists s :: CameFrom(w', s, k)) || (exists q :: HoldsClaim(w', q, k)) || k in w'.lost
    {
      assert k in w.db.tokens;
      if s :| CameFrom(w, s, k) { assert CameFrom(w', s, k); }
      else if q :| HoldsClaim(w, q, k) { assert HoldsClaim(w', q, k); }
    }
  }

  lemma LookReadKeepInv(w: World, e: Event)
    requires Inv(w) && (e.Look? || e.Read?)
    ensures Inv(Next(w, e))
  {
    var w' := Next(w, e);
    if e.r !in w.requests && e.r in w'.requests {
      forall q, k ensures HoldsClaim(w', q, k) <==> HoldsClaim(w, q, k) {
      }
      assert LinksUntouched(w, w');
      UntouchedLinksFit(w, w');
    }
  }

  lemma IssueKeepsInv(w: World, r: nat, token: string, now: int)
    requires Inv(w)
    ensures Inv(Next(w, Issue(r, token, now)))
  {
    var w' := Next(w, Issue(r, token, now));
    if r in w.requests && w.requests[r].HasAsked? && token !in w.db.tokens {
      forall q, k ensures HoldsClaim(w', q, k) <==> HoldsClaim(w, q, k) {
      }
      assert LinksUntouched(w, w');
      UntouchedLinksFit(w, w');
    }
  }

  /** Writes to customers and to a session's marks leave the links alone. */
  lemma OtherRowsKeepInv(w: World, w': World)
    requires Inv(w)
    requires w'.requests == w.requests && w'.db.tokens == w.db.tokens
    requires w'.origins == w.origins && w'.lost == w.lost && w'.db.sessions.Keys == w.db.sessions.Keys
    requires forall s :: s in w.db.sessions ==>
      w'.db.sessions[s].customerId == w.db.sessions[s].customerId &&
      w'.db.sessions[s].expiresAt == w.db.sessions[s].expiresAt
    requires forall c :: c in w.db.customers ==> c in w'.db.customers
    ensures Inv(w')
  {
    forall q, k ensures HoldsClaim(w', q, k) <==> HoldsClaim(w, q, k) {
    }
    assert LinksUntouched(w, w');
    UntouchedLinksFit(w, w');
  }

  lemma VisitKeepsInv(w: World, session: string, now: int)
    requires Inv(w)
    ensures Inv(Next(w, Visit(session, now)))
  {
    if Accepts(w.db, session, now) { OtherRowsKeepInv(w, Next(w, Visit(session, now))); }
  }

  lemma LeaveKeepsInv(w: World, session: string, now: int)
    requires Inv(w)
    ensures Inv(Next(w, Leave(session, now)))
  {
    OtherRowsKeepInv(w, Next(w, Leave(session, now)));
  }

  lemma CustomerRowsKeepInv(w: World, e: Event)
    requires Inv(w) && (e.Join? || e.Close?)
    ensures Inv(Next(w, e))
  {
    OtherRowsKeepInv(w, Next(w, e));
  }

  lemma NextKeepsInv(w: World, e: Event)
    requires Inv(w)
    ensures Inv(Next(w, e))
  {
    match e
    case Claim(r, now) => ClaimKeepsInv(w, r, now);
    case Mint(r, session, now) => MintKeepsInv(w, r, session, now);
    case Die(r) => DieKeepsInv(w, r);
    case Issue(r, token, now) => IssueKeepsInv(w, r, token, now);
    case Look(_, _, _) => LookReadKeepInv(w, e);
    case Read(_, _, _) => LookReadKeepInv(w, e);
    case Visit(session, now) => VisitKeepsInv(w, session, now);
    case Leave(session, now) => LeaveKeepsInv(w, session, now);
    case Join(_) => CustomerRowsKeepInv(w, e);
    case Close(_, _) => CustomerRowsKeepInv(w, e);
  }

  // --- over every interleaving -------------------------------------------------------------------

  lemma {:induction false} RunKeepsInv(events: seq<Event>)
    ensures Inv(Run(events))
  {
    if events != [] {
      RunKeepsInv(events[..|events| - 1]);
      NextKeepsInv(Run(events[..|events| - 1]), events[|events| - 1]);
    }
  }

  /**
   * However requests interleave and die: a link mints at most one session, and
   * every session comes from a used link that was unexpired when it was read,
   * belongs to that link's customer, and ends twelve hours after that reading.
   */
  lemma LinkMintsOnce(events: seq<Event>)
    ensures var w := Run(events);
            && w.origins.Keys == w.db.sessions.Keys
            && (forall s :: s in w.db.sessions ==>
                  var o := w.origins[s];
                  && o.token in w.db.tokens
                  && w.db.tokens[o.token].usedAt.Some?
                  && o.readAt < w.db.tokens[o.token].expiresAt
                  && w.db.sessions[s].customerId == w.db.tokens[o.token].customerId
                  && w.db.sessions[s].expiresAt == o.readAt + SESSION_MS)
            && (forall s, t :: s in w.db.sessions && t in w.db.sessions && s != t ==>
                  w.origins[s].token != w.origins[t].token)
  {
    RunKeepsInv(events);
  }

  /**
   * A used link is accounted for exactly once: behind its one session, in the
   * hands of its one request, or lost with the request that died holding it.
   */
  lemma UsedLinkAccounted(events: seq<Event>, token: string)
    requires token in Run(events).db.tokens
    ensures var w := Run(events);
            var minted := exists s :: CameFrom(w, s, token);
            var held := exists r :: HoldsClaim(w, r, token);
            && (w.db.tokens[token].usedAt.Some? <==> minted || held || token in w.lost)
            && !(minted && held) && !(minted && token in w.lost) && !(held && token in w.lost)
  {
    RunKeepsInv(events);
    var w := Run(events);
    if s :| CameFrom(w, s, token) { assert s in w.db.sessions; }
  }

  lemma RunsOneMore(events: seq<Event>, e: Event)
    ensures Run(events + [e]) == Next(Run(events), e)
  {
    var all := events + [e];
    assert all[..|all| - 1] == events && all[|all| - 1] == e;
  }

  /** A link and a cookie once spent stay spent through any further events. */
  lemma {:induction false} MarksNeverUndone(events: seq<Event>, more: seq<Event>)
    ensures MarksKept(Run(events).db, Run(events + more).db)
  {
    if more == [] {
      assert events + more == events;
    } else {
      var done, last := more[..|more| - 1], more[|more| - 1];
      MarksNeverUndone(events, done);
      assert events + more == events + done + [last];
      RunsOneMore(events + done, last);
      NextKeepsMarks(Run(events + done), last);
    }
  }

  /** A cookie that is refused because it is revoked, or too old, is refused from then on. */
  lemma RefusalIsFinal(events: seq<Event>, more: seq<Event>, session: string, now: int, later: int)
    requires session in Run(events).db.sessions && now <= later
    requires Run(events).db.sessions[session].revokedAt.Some? || Run(events).db.sessions[session].expiresAt <= now
    ensures !Accepts(Run(events + more).db, session, later)
  {
    MarksNeverUndone(events, more);
  }

  /**
   * Closing an account ends every session of it for good: none it has, and none a request
   * under way still makes, is accepted at any time after, whatever comes.
   */
  lemma ClosedIsRefused(events: seq<Event>, customer: nat, now: int, more: seq<Event>, session: string, later: int)
    requires customer in Run(events).db.customers
    ensures var db := Run(events + [Close(customer, now)] + more).db;
            session in db.sessions && db.sessions[session].customerId == customer ==> !Accepts(db, session, later)
  {
    RunsOneMore(events, Close(customer, now));
    MarksNeverUndone(events + [Close(customer, now)], more);
  }

  /** The cooldown is checked, not enforced: two requests that look before either writes both get a link. */
  lemma CooldownRaces(customer: nat, a: string, b: string, now: int)
    requires a != b
    ensures var w := Run([Join(customer), Look(0, customer, now), Look(1, customer, now),
                          Issue(0, a, now), Issue(1, b, now)]);
            && a in w.db.tokens && b in w.db.tokens
            && w.db.tokens[a].customerId == w.db.tokens[b].customerId == customer
            && w.db.tokens[a].createdAt == w.db.tokens[b].createdAt
  {
    var events := [Join(customer), Look(0, customer, now), Look(1, customer, now), Issue(0, a, now), Issue(1, b, now)];
    var open := Db(map[customer := Customer(None, None)], map[], map[]);
    assert Run(events[..0]) == World(Db(map[], map[], map[]), map[], map[], {});
    assert events[..1][..0] == events[..0] && events[..2][..1] == events[..1];
    assert events[..3][..2] == events[..2] && events[..4][..3] == events[..3] && events[..5] == events;
    assert Run(events[..1]) == World(open, map[], map[], {});
    assert Run(events[..2]) == World(open, map[0 := HasAsked(customer, now)], map[], {});
    assert Run(events[..3]) == World(open, map[0 := HasAsked(customer, now), 1 := HasAsked(customer, now)], map[], {});
    assert Run(events[..4]).db == Issued(open, customer, a, now);
    assert Run(events[..4]).requests == map[1 := HasAsked(customer, now)];
  }

  // --- when the cooldown holds ----------------------------------------------------------------

  /** Any two links of one customer are at least the cooldown apart. */
  ghost predicate Spaced(db: Db) {
    forall j, k :: j in db.tokens && k in db.tokens && j != k && db.tokens[j].customerId == db.tokens[k].customerId ==>
      db.tokens[j].createdAt + COOLDOWN_MS <= db.tokens[k].createdAt ||
      db.tokens[k].createdAt + COOLDOWN_MS <= db.tokens[j].createdAt
  }

  function TimeOf(e: Event): Option<int> {
    match e
    case Look(_, _, now) => Some(now)
    case Issue(_, _, now) => Some(now)
    case Read(_, _, now) => Some(now)
    case Claim(_, now) => Some(now)
    case Mint(_, _, now) => Some(now)
    case Visit(_, now) => Some(now)
    case Leave(_, now) => Some(now)
    case Close(_, now) => Some(now)
    case Die(_) => None
    case Join(_) => None
  }

  /** No statement reads a clock earlier than the one before it. */
  ghost predicate InClockOrder(events: seq<Event>) {
    forall i, j :: 0 <= i < j < |events| && TimeOf(events[i]).Some? && TimeOf(events[j]).Some? ==>
      TimeOf(events[i]).value <= TimeOf(events[j]).value
  }

  /** The write of a link that goes through. */
  predicate Issues(w: World, e: Event) {
    e.Issue? && e.r in w.requests && w.requests[e.r].HasAsked? && e.token !in w.db.tokens
  }

  /** Since this request looked, another wrote a link for its customer, less than the cooldown ago. */
  predicate Overtaken(w: World, e: Event)
    requires Issues(w, e)
  {
    var p := w.requests[e.r];
    exists k :: k in w.db.tokens && w.db.tokens[k].customerId == p.customer &&
                p.lookedAt <= w.db.tokens[k].createdAt && e.now < w.db.tokens[k].createdAt + COOLDOWN_MS
  }

  /** The link was out of the cooldown when the request looked, or was written since. */
  predicate SeenOrSince(p: Phase, link: Token)
    requires p.HasAsked?
  {
    link.customerId == p.customer ==> link.createdAt + COOLDOWN_MS <= p.lookedAt || p.lookedAt <= link.createdAt
  }

  /** Nothing is dated after `t`, and every waiting request saw its customer out of the cooldown. */
  ghost predicate DatedBy(w: World, t: int) {
    && (forall k :: k in w.db.tokens ==> w.db.tokens[k].createdAt <= t)
    && (forall r :: r in w.requests && w.requests[r].HasAsked? ==> w.requests[r].lookedAt <= t)
    && (forall r, k :: r in w.requests && w.requests[r].HasAsked? && k in w.db.tokens ==>
          SeenOrSince(w.requests[r], w.db.tokens[k]))
  }

  /** What neither looks nor writes a link moves no date. */
  lemma OtherDated(w: World, w': World, t: int)
    requires DatedBy(w, t)
    requires w'.db.tokens.Keys == w.db.tokens.Keys
    requires forall k :: k in w.db.tokens ==>
      w'.db.tokens[k].createdAt == w.db.tokens[k].createdAt && w'.db.tokens[k].customerId == w.db.tokens[k].customerId
    requires forall r :: r in w'.requests && w'.requests[r].HasAsked? ==> r in w.requests && w'.requests[r] == w.requests[r]
    ensures DatedBy(w', t)
  {
    forall r, k | r in w'.requests && w'.requests[r].HasAsked? && k in w'.db.tokens
      ensures SeenOrSince(w'.requests[r], w'.db.tokens[k])
    {
      assert SeenOrSince(w.requests[r], w.db.tokens[k]);
    }
  }

  lemma LookDated(w: World, r: nat, customer: nat, now: int)
    requires DatedBy(w, now)
    ensures DatedBy(Next(w, Look(r, customer, now)), now)
  {
  }

  lemma IssueDated(w: World, r: nat, token: string, now: int)
    requires DatedBy(w, now)
    ensures DatedBy(Next(w, Issue(r, token, now)), now)
  {
  }

  lemma NextDated(w: World, e: Event, t: int)
    requires DatedBy(w, t) && TimeOf(e) in {None, Some(t)}
    ensures DatedBy(Next(w, e), t)
  {
    match e
    case Look(r, customer, now) => LookDated(w, r, customer, now);
    case Issue(r, token, now) => IssueDated(w, r, token, now);
    case _ => OtherDated(w, Next(w, e), t);
  }

  lemma OvertakenIsTooClose(w: World, e: Event)
    requires Issues(w, e) && DatedBy(w, e.now) && Overtaken(w, e)
    ensures !Spaced(Next(w, e).db)
  {
    var p, db' := w.requests[e.r], Next(w, e).db;
    var k :| k in w.db.tokens && w.db.tokens[k].customerId == p.customer &&
             p.lookedAt <= w.db.tokens[k].createdAt && e.now < w.db.tokens[k].createdAt + COOLDOWN_MS;
    assert db'.tokens[k] == w.db.tokens[k] && e.token in db'.tokens;
  }

  /** What the request saw was out of the cooldown, so what is within it was written since. */
  lemma NotOvertakenIsFar(w: World, e: Event, k: string)
    requires Issues(w, e) && DatedBy(w, e.now) && !Overtaken(w, e)
    requires k in w.db.tokens && w.db.tokens[k].customerId == w.requests[e.r].customer
    ensures w.db.tokens[k].createdAt + COOLDOWN_MS <= e.now
  {
    assert SeenOrSince(w.requests[e.r], w.db.tokens[k]);
  }

  /** A link keeps the spacing exactly when no other request has overtaken its own. */
  lemma IssueKeepsSpacing(w: World, e: Event)
    requires Issues(w, e) && DatedBy(w, e.now) && Spaced(w.db)
    ensures Spaced(Next(w, e).db) <==> !Overtaken(w, e)
  {
    if Overtaken(w, e) {
      OvertakenIsTooClose(w, e);
    } else {
      forall k | k in w.db.tokens && w.db.tokens[k].customerId == w.requests[e.r].customer
        ensures w.db.tokens[k].createdAt + COOLDOWN_MS <= e.now
      {
        NotOvertakenIsFar(w, e, k);
      }
    }
  }

  /** Links are only ever added, so a gap that is too short stays. */
  lemma NextTokens(w: World, e: Event)
    ensures Spaced(Next(w, e).db) ==> Spaced(w.db)
    ensures !Issues(w, e) ==> (Spaced(Next(w, e).db) <==> Spaced(w.db))
  {
    var t, t' := w.db.tokens, Next(w, e).db.tokens;
    assert forall k :: k in t ==> k in t' && t'[k].customerId == t[k].customerId && t'[k].createdAt == t[k].createdAt;
    assert !Issues(w, e) ==> forall k :: k in t' ==> k in t;
  }

  /** No link of the run was written by a request that another had overtaken. */
  ghost predicate NeverOvertaken(events: seq<Event>) {
    events != [] ==>
      && NeverOvertaken(events[..|events| - 1])
      && (Issues(Run(events[..|events| - 1]), events[|events| - 1]) ==>
            !Overtaken(Run(events[..|events| - 1]), events[|events| - 1]))
  }

  /** Everything in the world of a run is dated by any time its events have reached. */
  lemma {:induction false} RunDated(events: seq<Event>, t: int)
    requires InClockOrder(events)
    requires forall i :: 0 <= i < |events| && TimeOf(events[i]).Some? ==> TimeOf(events[i]).value <= t
    ensures DatedBy(Run(events), t)
    decreases |events|
  {
    if events != [] {
      var n := |events| - 1;
      var front, last := events[..n], events[n];
      assert forall i :: 0 <= i < n ==> front[i] == events[i];
      var seen := TimeOf(last).GetOr(t);
      RunDated(front, seen);
      assert Run(events) == Next(Run(front), last);
      NextDated(Run(front), last, seen);
      DatedLater(Run(events), seen, t);
    }
  }

  lemma DatedLater(w: World, t: int, u: int)
    requires DatedBy(w, t) && t <= u
    ensures DatedBy(w, u)
  {
  }

  /**
   * When the cooldown holds. Over every interleaving with a clock that does not go
   * back: any two links of one customer are a minute apart exactly when no link was
   * written by a request that another link of the same customer had overtaken,
   * between its look and its write, within the last minute.
   */
  lemma {:induction false} CooldownHolds(events: seq<Event>)
    requires InClockOrder(events)
    ensures Spaced(Run(events).db) <==> NeverOvertaken(events)
  {
    if events != [] {
      var n := |events| - 1;
      var front, last := events[..n], events[n];
      assert forall i :: 0 <= i < n ==> front[i] == events[i];
      CooldownHolds(front);
      NextTokens(Run(front), last);
      if Issues(Run(front), last) && Spaced(Run(front).db) {
        RunDated(front, last.now);
        IssueKeepsSpacing(Run(front), last);
      }
    }
  }
}
