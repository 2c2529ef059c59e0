/**
 * One session refresh at a time, and one retry a call.
 *
 * The panel's calls share a module variable holding the refresh in flight. The
 * event loop may deliver responses, resume waiting calls and fire the clearing
 * timer in any order; `Next` takes one such event.
 */
module RefreshGate {
  import opened Options

  /** A refresh POST: outstanding, or answered. */
  datatype Attempt = Outstanding | Answered(ok: bool)

  /** The shared variable, every attempt so far, and the clears that are scheduled. */
  datatype Gate = Gate(refreshing: Option<nat>, attempts: seq<Attempt>, timers: set<nat>)

  /** Joins the attempt in flight, or starts one. */
  function Joined(g: Gate): Gate {
    if g.refreshing.Some? then g
    else g.(refreshing := Some(|g.attempts|), attempts := g.attempts + [Outstanding])
  }

  /** The POST answers, or fails, and its clear is scheduled for the next tick. */
  function Settled(g: Gate, k: nat, ok: bool): Gate
    requires k < |g.attempts|
  {
    g.(attempts := g.attempts[k := Answered(ok)], timers := g.timers + {k})
  }

  function Cleared(g: Gate, k: nat): Gate {
    g.(refreshing := None, timers := g.timers - {k})
  }

  class Refresher {
    var refreshing: Option<nat>
    var attempts: seq<Attempt>
    var timers: set<nat>

    function State(): Gate
      reads this
    {
      Gate(refreshing, attempts, timers)
    }

    constructor ()
      ensures State() == Gate(None, [], {}) && Sound(State())
    {
      refreshing, attempts, timers := None, [], {};
    }

    /** Which attempt the caller is to wait for. */
    method RefreshSession() returns (k: nat)
      requires Sound(State())
      modifies this
      ensures State() == Joined(old(State())) && Sound(State())
      ensures refreshing == Some(k) && k < |attempts|
      ensures old(refreshing).Some? ==> attempts == old(attempts)
      ensures old(refreshing).None? ==> attempts == old(attempts) + [Outstanding]
      ensures timers == old(timers)
    {
      if refreshing.None? {
        refreshing := Some(|attempts|);
        attempts := attempts + [Outstanding];
      }
      k := refreshing.value;
      JoinedSound(old(State()));
    }

    method Settle(k: nat, ok: bool)
      requires Sound(State()) && k < |attempts| && attempts[k].Outstanding?
      modifies this
      ensures State() == Settled(old(State()), k, ok) && Sound(State())
      ensures attempts == old(attempts)[k := Answered(ok)] && timers == old(timers) + {k} && refreshing == old(refreshing)
    {
      attempts := attempts[k := Answered(ok)];
      timers := timers + {k};
    }

    method TimerFires(k: nat)
      requires Sound(State()) && k in timers
      modifies this
      ensures State() == Cleared(old(State()), k) && Sound(State())
      ensures old(refreshing) == Some(k)
      ensures refreshing.None? && timers == old(timers) - {k} && attempts == old(attempts)
    {
      refreshing := None;
      timers := timers - {k};
    }
  }

  /**
   * The variable holds the newest attempt until that attempt's own timer clears
   * it: only it can be outstanding, and only it can have a clear scheduled.
   */
  ghost predicate Sound(g: Gate) {
    && (forall k :: 0 <= k < |g.attempts| && g.attempts[k].Outstanding? ==> g.refreshing == Some(k))
    && (forall k :: k in g.timers ==> g.refreshing == Some(k))
    && (g.refreshing.Some? ==>
          && g.refreshing.value + 1 == |g.attempts|
          && (g.attempts[g.refreshing.value].Answered? <==> g.refreshing.value in g.timers))
  }

  lemma JoinedSound(g: Gate)
    requires Sound(g)
    ensures Sound(Joined(g))
  {
    var g' := Joined(g);
    assert forall k :: 0 <= k < |g.attempts| ==> g'.attempts[k] == g.attempts[k];
  }

  // --- the calls ------------------------------------------------------------------------

  datatype Phase = Fetching | Waiting(attempt: nat) | Retrying | Done

  /**
   * One call: whether a 401 on its path may be refreshed, where it stands, how
   * often it has fetched, and which attempt answered it what.
   */
  datatype Call = Call(refreshable: bool, phase: Phase, fetches: nat, told: Option<(nat, bool)>)

  datatype Panel = Panel(gate: Gate, calls: map<nat, Call>)

  datatype Event =
    | Start(call: nat, refreshable: bool)
    | Response(call: nat, unauthorised: bool)
    | Refresh
    | RefreshAnswer(attempt: nat, ok: bool)
    | Resume(call: nat)
    | Timer(attempt: nat)

  predicate Enabled(p: Panel, e: Event) {
    match e
    case Start(call, _) => call !in p.calls
    case Response(call, _) => call in p.calls && (p.calls[call].phase.Fetching? || p.calls[call].phase.Retrying?)
    case Refresh => true
    case RefreshAnswer(k, _) => k < |p.gate.attempts| && p.gate.attempts[k].Outstanding?
    case Resume(call) =>
      && call in p.calls && p.calls[call].phase.Waiting?
      && p.calls[call].phase.attempt < |p.gate.attempts|
      && p.gate.attempts[p.calls[call].phase.attempt].Answered?
    case Timer(k) => k in p.gate.timers
  }

  function Next(p: Panel, e: Event): Panel
    requires Enabled(p, e)
  {
    match e
    case Start(call, refreshable) => p.(calls := p.calls[call := Call(refreshable, Fetching, 1, None)])
    case Response(call, unauthorised) =>
      var c := p.calls[call];
      // A 401 is refreshed once, on the paths that refresh at all; a failed fetch throws.
      if unauthorised && c.phase.Fetching? && c.refreshable then
        var gate := Joined(p.gate);
        Panel(gate, p.calls[call := c.(phase := Waiting(gate.refreshing.value))])
      else p.(calls := p.calls[call := c.(phase := Done)])
    case Refresh => p.(gate := Joined(p.gate))
    case RefreshAnswer(k, ok) => p.(gate := Settled(p.gate, k, ok))
    case Resume(call) =>
      var c := p.calls[call];
      var k := c.phase.attempt;
      var ok := p.gate.attempts[k].ok;
      p.(calls := p.calls[call :=
        if ok then c.(phase := Retrying, fetches := c.fetches + 1, told := Some((k, ok)))
        else c.(phase := Done, told := Some((k, ok)))])
    case Timer(k) => p.(gate := Cleared(p.gate, k))
  }

  ghost predicate IsRun(panels: seq<Panel>, events: seq<Event>) {
    && |panels| == |events| + 1
    && panels[0] == Panel(Gate(None, [], {}), map[])
    && forall i :: 0 <= i < |events| ==> Enabled(panels[i], events[i]) && panels[i + 1] == Next(panels[i], events[i])
  }

  /** One fetch before a refresh, one after, and an answer that is the attempt's own. */
  predicate CallOk(g: Gate, c: Call) {
    && c.fetches == (if c.phase.Retrying? || (c.phase.Done? && c.told.Some? && c.told.value.1) then 2 else 1)
    && (c.told.Some? ==> c.told.value.0 < |g.attempts| && g.attempts[c.told.value.0] == Answered(c.told.value.1))
    && (c.phase.Fetching? ==> c.told.None?)
    && (c.phase.Waiting? ==> c.told.None? && c.refreshable && c.phase.attempt < |g.attempts|)
    && (c.phase.Retrying? ==> c.told.Some? && c.told.value.1)
  }

  ghost predicate Inv(p: Panel) {
    Sound(p.gate) && forall c :: c in p.calls ==> CallOk(p.gate, p.calls[c])
  }

  /** An attempt once answered keeps its answer. */
  ghost predicate AnswersKept(g: Gate, g': Gate) {
    && |g.attempts| <= |g'.attempts|
    && forall k :: 0 <= k < |g.attempts| && g.attempts[k].Answered? ==> g'.attempts[k] == g.attempts[k]
  }

  lemma GateStep(p: Panel, e: Event)
    requires Inv(p) && Enabled(p, e)
    ensures Sound(Next(p, e).gate) && AnswersKept(p.gate, Next(p, e).gate)
  {
    JoinedSound(p.gate);
  }

  lemma NextKeepsInv(p: Panel, e: Event)
    requires Inv(p) && Enabled(p, e)
    ensures Inv(Next(p, e)) && AnswersKept(p.gate, Next(p, e).gate)
  {
    GateStep(p, e);
    var p' := Next(p, e);
    forall c | c in p'.calls ensures CallOk(p'.gate, p'.calls[c]) {
      if c in p.calls { assert CallOk(p.gate, p.calls[c]); }
    }
  }

  lemma {:induction false} RunKeepsInv(panels: seq<Panel>, events: seq<Event>)
    requires IsRun(panels, events)
    ensures Inv(panels[|events|])
  {
    if events != [] {
      var n := |events| - 1;
      assert IsRun(panels[..|events|], events[..n]);
      RunKeepsInv(panels[..|events|], events[..n]);
      NextKeepsInv(panels[n], events[n]);
    }
  }

  /** Under every schedule at most one refresh is outstanding, and a clear only ever clears its own attempt. */
  lemma OneRefreshAtATime(panels: seq<Panel>, events: seq<Event>)
    requires IsRun(panels, events)
    ensures var g := panels[|events|].gate;
            && (forall j, k | 0 <= j < |g.attempts| && 0 <= k < |g.attempts| ::
                  g.attempts[j].Outstanding? && g.attempts[k].Outstanding? ==> j == k)
            && (forall k :: k in g.timers ==> g.refreshing == Some(k) && k < |g.attempts| && g.attempts[k].Answered?)
  {
    RunKeepsInv(panels, events);
  }

  lemma InvAt(panels: seq<Panel>, events: seq<Event>, n: nat)
    requires IsRun(panels, events) && n <= |events|
    ensures Inv(panels[n])
  {
    assert IsRun(panels[..n + 1], events[..n]);
    RunKeepsInv(panels[..n + 1], events[..n]);
  }

  predicate IsWaiting(p: Panel, call: nat) {
    call in p.calls && p.calls[call].phase.Waiting?
  }

  /** Every call that starts to wait waits on the newest attempt. */
  ghost predicate JoinTheNewest(p: Panel, p': Panel) {
    forall c :: IsWaiting(p', c) && !IsWaiting(p, c) ==> p'.calls[c].phase.attempt + 1 == |p'.gate.attempts|
  }

  /**
   * At every moment of every schedule: a refresh is posted only when the variable is
   * empty and every earlier attempt has been answered, and then only one; and a call
   * that meets a 401 waits on the newest attempt, whether it was there or is new.
   */
  lemma PostsDoNotOverlap(panels: seq<Panel>, events: seq<Event>, n: nat)
    requires IsRun(panels, events) && n < |events|
    ensures var g, g' := panels[n].gate, panels[n + 1].gate;
            && |g.attempts| <= |g'.attempts| <= |g.attempts| + 1
            && (|g.attempts| < |g'.attempts| ==>
                  g.refreshing.None? && forall k :: 0 <= k < |g.attempts| ==> g.attempts[k].Answered?)
            && JoinTheNewest(panels[n], panels[n + 1])
  {
    InvAt(panels, events, n);
    InvAt(panels, events, n + 1);
  }

  /** Every call waiting on an attempt is told the same, whenever it is resumed. */
  lemma JoinersGetOneAnswer(panels: seq<Panel>, events: seq<Event>, c: nat, d: nat)
    requires IsRun(panels, events)
    requires c in panels[|events|].calls && d in panels[|events|].calls
    requires var p := panels[|events|];
             && p.calls[c].told.Some? && p.calls[d].told.Some?
             && p.calls[c].told.value.0 == p.calls[d].told.value.0
    ensures panels[|events|].calls[c].told == panels[|events|].calls[d].told
  {
    RunKeepsInv(panels, events);
    assert CallOk(panels[|events|].gate, panels[|events|].calls[c]);
    assert CallOk(panels[|events|].gate, panels[|events|].calls[d]);
  }

  // --- what an answer leads to ---------------------------------------------------------------

  ghost predicate OthersKept(p: Panel, p': Panel, call: nat) {
    && p'.calls.Keys == p.calls.Keys
    && forall c :: c in p.calls && c != call ==> p'.calls[c] == p.calls[c]
  }

  /**
   * A response. The first 401 on a path that refreshes waits on the attempt in flight, or
   * posts one when there is none. Anything else, a success, a path that does not refresh or
   * the answer to the retry, ends the call and posts nothing.
   */
  lemma ResponseDecides(p: Panel, call: nat, unauthorised: bool)
    requires Inv(p) && Enabled(p, Response(call, unauthorised))
    ensures var p' := Next(p, Response(call, unauthorised));
            var c, c' := p.calls[call], p'.calls[call];
            && OthersKept(p, p', call)
            && c'.fetches == c.fetches && c'.told == c.told && c'.refreshable == c.refreshable
            && (if unauthorised && c.phase == Fetching && c.refreshable
                then
                  && p'.gate.refreshing.Some? && c'.phase == Waiting(p'.gate.refreshing.value)
                  && p'.gate.attempts == (if p.gate.refreshing.Some? then p.gate.attempts else p.gate.attempts + [Outstanding])
                  && p'.gate.refreshing == (if p.gate.refreshing.Some? then p.gate.refreshing else Some(|p.gate.attempts|))
                  && p'.gate.timers == p.gate.timers
                else c'.phase == Done && p'.gate == p.gate)
  {
  }

  /** A call that waited fetches once more when the refresh went through, and gives up when it did not. */
  lemma AnswerDecides(p: Panel, call: nat)
    requires Inv(p) && Enabled(p, Resume(call))
    ensures var p' := Next(p, Resume(call));
            var c, c' := p.calls[call], p'.calls[call];
            var ok := p.gate.attempts[c.phase.attempt] == Answered(true);
            && OthersKept(p, p', call) && p'.gate == p.gate
            && c'.phase == (if ok then Retrying else Done)
            && c'.fetches == (if ok then c.fetches + 1 else c.fetches)
            && c'.told == Some((c.phase.attempt, ok))
  {
  }

  // --- every call ends ---------------------------------------------------------------------

  /** How many of its own events a call still needs at most. */
  function Remaining(c: Call): nat {
    match c.phase
    case Fetching => 3
    case Waiting(_) => 2
    case Retrying => 1
    case Done => 0
  }

  predicate IsOf(e: Event, call: nat) {
    (e.Response? || e.Resume?) && e.call == call
  }

  /** A call fetches its path at most twice, and each of its events brings it closer to its end. */
  lemma CallTerminates(p: Panel, e: Event, call: nat)
    requires Inv(p) && Enabled(p, e) && call in p.calls
    ensures var c, c' := p.calls[call], Next(p, e).calls[call];
            && c.fetches <= 2 && c'.fetches <= 2
            && (if IsOf(e, call) then Remaining(c') < Remaining(c) else c' == c)
  {
    NextKeepsInv(p, e);
    assert CallOk(p.gate, p.calls[call]);
    assert CallOk(Next(p, e).gate, Next(p, e).calls[call]);
  }

  /** A call that is not finished is waiting for something that can happen. */
  lemma CallNotStuck(p: Panel, call: nat)
    requires Inv(p) && call in p.calls && !p.calls[call].phase.Done?
    ensures Enabled(p, Response(call, false)) || Enabled(p, Resume(call))
      || (p.calls[call].phase.Waiting? && Enabled(p, RefreshAnswer(p.calls[call].phase.attempt, true)))
  {
    assert CallOk(p.gate, p.calls[call]);
  }

  function OwnEvents(events: seq<Event>, call: nat): nat {
    if events == [] then 0
    else OwnEvents(events[..|events| - 1], call) + if IsOf(events[|events| - 1], call) then 1 else 0
  }

  /** Over every schedule a call takes at most three events of its own, and then it is done. */
  lemma {:induction false} CallEnds(panels: seq<Panel>, events: seq<Event>, call: nat)
    requires IsRun(panels, events)
    ensures OwnEvents(events, call) <= 3
    ensures call in panels[|events|].calls ==>
      && OwnEvents(events, call) + Remaining(panels[|events|].calls[call]) <= 3
      && panels[|events|].calls[call].fetches <= 2
    ensures call !in panels[|events|].calls ==> OwnEvents(events, call) == 0
  {
    if events != [] {
      var n := |events| - 1;
      assert IsRun(panels[..n + 1], events[..n]);
      CallEnds(panels[..n + 1], events[..n], call);
      InvAt(panels, events, n);
      if call in panels[n].calls { CallTerminates(panels[n], events[n], call); }
    }
  }
}
