/**
 * Writers of the audit log, each in two statements.
 *
 * A writer asks for the newest row in one statement and stores its own in another,
 * and any number of writers interleave. Rows are in the order they were stored; a
 * row's time is the database's and need not follow that order.
 */
module AuditRuns {
  import opened Options
  import opened HashChain

  /** What a writer was answered, and how many rows there were then. */
  datatype Answer = Answer(head: Option<string>, rows: nat)

  /** The log, and the writers that have asked and not yet stored. */
  datatype Audit = Audit(rows: seq<Row>, found: map<nat, Answer>)

  datatype Event =
    | Idle
    | Find(w: nat, head: Option<string>)
    | Append(w: nat, payload: string, createdAt: int)

  predicate Appends(a: Audit, e: Event) {
    e.Append? && e.w in a.found && IsPayload(e.payload)
  }

  /** The row an append stores, linked to what its writer was answered. */
  function NewRow(hash: Hash, a: Audit, e: Event): Row
    requires Appends(a, e)
  {
    Linked(hash, a.found[e.w].head, e.payload, e.createdAt)
  }

  /** An answer the query cannot give, or a row nobody has asked for, changes nothing. */
  ghost function Next(hash: Hash, a: Audit, e: Event): Audit {
    match e
    case Idle => a
    case Find(w, head) =>
      if w !in a.found && MayFind(a.rows, head) then a.(found := a.found[w := Answer(head, |a.rows|)]) else a
    case Append(w, _, _) =>
      if Appends(a, e) then Audit(a.rows + [NewRow(hash, a, e)], a.found - {w}) else a
  }

  lemma AppendAdds(hash: Hash, a: Audit, w: nat, payload: string, createdAt: int)
    requires w in a.found && IsPayload(payload)
    ensures Next(hash, a, Append(w, payload, createdAt)) ==
      Audit(a.rows + [Linked(hash, a.found[w].head, payload, createdAt)], a.found - {w})
  {
  }

  ghost function Run(hash: Hash, start: Audit, es: seq<Event>): Audit {
    if es == [] then start else Next(hash, Run(hash, start, es[..|es| - 1]), es[|es| - 1])
  }

  function Nothing(): Audit { Audit([], map[]) }

  // --- when the log stays linear ----------------------------------------------------------

  /** An append whose head is not the last row's hash. */
  predicate IsStale(a: Audit, e: Event) {
    Appends(a, e) && a.found[e.w].head != Previous(a.rows, |a.rows|)
  }

  ghost predicate NeverStale(hash: Hash, start: Audit, es: seq<Event>) {
    es != [] ==>
      && NeverStale(hash, start, es[..|es| - 1])
      && !IsStale(Run(hash, start, es[..|es| - 1]), es[|es| - 1])
  }

  lemma ChainPrefix(hash: Hash, log: seq<Row>, row: Row)
    requires IsChain(hash, log + [row])
    ensures IsChain(hash, log)
  {
    forall i: nat | i < |log| ensures LinkedAt(hash, log, i) {
      assert LinkedAt(hash, log + [row], i);
    }
  }

  lemma NextKeepsChain(hash: Hash, a: Audit, e: Event)
    requires forall x :: IsDigest(hash(x))
    ensures IsChain(hash, Next(hash, a, e).rows) <==> IsChain(hash, a.rows) && !IsStale(a, e)
  {
    if Appends(a, e) {
      if IsChain(hash, a.rows) {
        AppendKeepsChain(hash, a.rows, a.found[e.w].head, e.payload, e.createdAt);
      } else if IsChain(hash, a.rows + [NewRow(hash, a, e)]) {
        ChainPrefix(hash, a.rows, NewRow(hash, a, e));
      }
    }
  }

  /**
   * Over every interleaving of writers, whatever the clock does: the log is one linear
   * chain exactly when no writer stored its row under a head that was no longer, or
   * never was, the last row.
   */
  lemma {:induction false} RunStaysLinear(hash: Hash, start: Audit, es: seq<Event>)
    requires IsChain(hash, start.rows) && forall x :: IsDigest(hash(x))
    ensures IsChain(hash, Run(hash, start, es).rows) <==> NeverStale(hash, start, es)
  {
    if es != [] {
      RunStaysLinear(hash, start, es[..|es| - 1]);
      NextKeepsChain(hash, Run(hash, start, es[..|es| - 1]), es[|es| - 1]);
    }
  }

  // --- what that asks of the schedule -------------------------------------------------------

  /** An append after another row was stored since its writer asked. */
  predicate IsOvertaken(a: Audit, e: Event) {
    Appends(a, e) && a.found[e.w].rows < |a.rows|
  }

  ghost predicate NeverOvertaken(hash: Hash, start: Audit, es: seq<Event>) {
    es != [] ==>
      && NeverOvertaken(hash, start, es[..|es| - 1])
      && !IsOvertaken(Run(hash, start, es[..|es| - 1]), es[|es| - 1])
  }

  /** Every answer was given on the rows there were. */
  ghost predicate Answered(a: Audit) {
    forall w :: w in a.found ==>
      a.found[w].rows <= |a.rows| && MayFind(a.rows[..a.found[w].rows], a.found[w].head)
  }

  lemma NextAnswered(hash: Hash, a: Audit, e: Event)
    requires Answered(a)
    ensures Answered(Next(hash, a, e))
  {
    var a' := Next(hash, a, e);
    forall w | w in a'.found
      ensures a'.found[w].rows <= |a'.rows| && MayFind(a'.rows[..a'.found[w].rows], a'.found[w].head)
    {
      if w in a.found {
        assert a'.rows[..a.found[w].rows] == a.rows[..a.found[w].rows];
      } else {
        assert a.rows[..|a.rows|] == a.rows;
      }
    }
  }

  lemma {:induction false} RunAnswered(hash: Hash, start: Audit, es: seq<Event>)
    requires Answered(start)
    ensures Answered(Run(hash, start, es))
  {
    if es != [] {
      RunAnswered(hash, start, es[..|es| - 1]);
      NextAnswered(hash, Run(hash, start, es[..|es| - 1]), es[|es| - 1]);
    }
  }

  lemma StaleIffOvertaken(a: Audit, e: Event)
    requires Answered(a) && Clocked(a.rows) && DistinctHashes(a.rows)
    ensures IsStale(a, e) <==> IsOvertaken(a, e)
  {
    if Appends(a, e) {
      var answer := a.found[e.w];
      var before := a.rows[..answer.rows];
      NewestIsLast(before, answer.head);
      if answer.rows == |a.rows| {
        assert before == a.rows;
      } else if answer.rows > 0 {
        assert before[|before| - 1] == a.rows[answer.rows - 1];
      }
    }
  }

  /** In a log stored in the order of its times, no overtaken writer means linear. */
  lemma {:induction false} NeverStaleIffNeverOvertaken(hash: Hash, start: Audit, es: seq<Event>)
    requires Answered(start)
    requires Clocked(Run(hash, start, es).rows) && DistinctHashes(Run(hash, start, es).rows)
    ensures NeverStale(hash, start, es) <==> NeverOvertaken(hash, start, es)
  {
    if es != [] {
      var a, e := Run(hash, start, es[..|es| - 1]), es[|es| - 1];
      assert a.rows <= Next(hash, a, e).rows;
      NeverStaleIffNeverOvertaken(hash, start, es[..|es| - 1]);
      RunAnswered(hash, start, es[..|es| - 1]);
      StaleIffOvertaken(a, e);
    }
  }

  /**
   * When the rows came out dated strictly up: the log is linear exactly when no row was
   * stored between the two statements of a writer.
   */
  lemma RunOverlaps(hash: Hash, start: Audit, es: seq<Event>)
    requires IsChain(hash, start.rows) && Answered(start) && forall x :: IsDigest(hash(x))
    requires Clocked(Run(hash, start, es).rows) && DistinctHashes(Run(hash, start, es).rows)
    ensures IsChain(hash, Run(hash, start, es).rows) <==> NeverOvertaken(hash, start, es)
  {
    RunStaysLinear(hash, start, es);
    NeverStaleIffNeverOvertaken(hash, start, es);
  }

  function Overlap(a: string, b: string, t: int, u: int, head: Option<string>): seq<Event> {
    [Find(0, head), Find(1, head), Append(0, a, t), Append(1, b, u)]
  }

  lemma RunOfFour(hash: Hash, start: Audit, e0: Event, e1: Event, e2: Event, e3: Event)
    ensures Run(hash, start, [e0, e1, e2]) == Next(hash, Next(hash, Next(hash, start, e0), e1), e2)
    ensures Run(hash, start, [e0, e1, e2, e3]) == Next(hash, Run(hash, start, [e0, e1, e2]), e3)
  {
    assert [e0, e1, e2, e3][..3] == [e0, e1, e2] && [e0, e1, e2][..2] == [e0, e1] && [e0, e1][..1] == [e0];
    assert [e0][..0] == [];
    assert Run(hash, start, [e0]) == Next(hash, start, e0);
    assert Run(hash, start, [e0, e1]) == Next(hash, Next(hash, start, e0), e1);
  }

  lemma OverlapRows(hash: Hash, log: seq<Row>, a: string, b: string, t: int, u: int)
    requires Clocked(log) && IsPayload(a) && IsPayload(b)
    ensures var head := Previous(log, |log|);
            var es, one := Overlap(a, b, t, u, head), log + [Linked(hash, head, a, t)];
            && Run(hash, Audit(log, map[]), es[..3]).rows == one
            && Run(hash, Audit(log, map[]), es).rows == one + [Linked(hash, head, b, u)]
  {
    var head := Previous(log, |log|);
    var es := Overlap(a, b, t, u, head);
    LastIsFound(log);
    assert es[..3] == [es[0], es[1], es[2]];
    RunOfFour(hash, Audit(log, map[]), es[0], es[1], es[2], es[3]);
  }

  lemma LastIsFound(log: seq<Row>)
    requires Clocked(log)
    ensures MayFind(log, Previous(log, |log|))
  {
    if log != [] { assert IsNewest(log, |log| - 1); }
  }

  /**
   * The run that forks a log dated strictly up throughout: two writers are answered the
   * same head and then both store. The first row continues the chain; the second does
   * only if the first one's hash is the head it was linked to.
   */
  lemma OverlapForks(hash: Hash, log: seq<Row>, a: string, b: string, t: int, u: int)
    requires IsChain(hash, log) && Clocked(log) && (forall r :: r in log ==> r.createdAt < t) && t < u
    requires IsPayload(a) && IsPayload(b) && forall x :: IsDigest(hash(x))
    ensures var head := Previous(log, |log|);
            var es, start := Overlap(a, b, t, u, head), Audit(log, map[]);
            && Clocked(Run(hash, start, es).rows)
            && IsChain(hash, Run(hash, start, es[..3]).rows)
            && (IsChain(hash, Run(hash, start, es).rows) <==> head == Some(hash(Hashed(head, a))))
  {
    var head := Previous(log, |log|);
    var one := log + [Linked(hash, head, a, t)];
    OverlapRows(hash, log, a, b, t, u);
    AppendKeepsChain(hash, log, head, a, t);
    AppendKeepsChain(hash, one, head, b, u);
  }

  // --- what the walk reports of it ------------------------------------------------------------

  /** Every row is hashed over the link it stores, which is nothing or the hash of an earlier row. */
  ghost predicate Rooted(hash: Hash, log: seq<Row>) {
    forall i: nat :: i < |log| ==> RootedAt(hash, log, i)
  }

  ghost predicate RootedAt(hash: Hash, log: seq<Row>, i: nat)
    requires i < |log|
  {
    && IsPayload(log[i].payload)
    && log[i] == Linked(hash, log[i].hashPrev, log[i].payload, log[i].createdAt)
    && (log[i].hashPrev.None? || exists j :: 0 <= j < i && log[i].hashPrev == Some(log[j].hash))
  }

  lemma FoundIsEarlier(log: seq<Row>, n: nat, head: Option<string>)
    requires n <= |log| && MayFind(log[..n], head)
    ensures head.None? || exists j :: 0 <= j < |log| && head == Some(log[j].hash)
  {
    if n > 0 {
      var i: nat :| IsNewest(log[..n], i) && head == Some(log[..n][i].hash);
      assert log[..n][i] == log[i];
    }
  }

  lemma NextRooted(hash: Hash, a: Audit, e: Event)
    requires Rooted(hash, a.rows) && Answered(a)
    ensures Rooted(hash, Next(hash, a, e).rows)
  {
    if Appends(a, e) {
      FoundIsEarlier(a.rows, a.found[e.w].rows, a.found[e.w].head);
      var rows := Next(hash, a, e).rows;
      forall i: nat | i < |rows| ensures RootedAt(hash, rows, i) {
        if i < |a.rows| {
          assert RootedAt(hash, a.rows, i);
          if rows[i].hashPrev.Some? {
            var j :| 0 <= j < i && a.rows[i].hashPrev == Some(a.rows[j].hash);
            assert rows[j] == a.rows[j];
          }
        } else if rows[i].hashPrev.Some? {
          var j :| 0 <= j < |a.rows| && rows[i].hashPrev == Some(a.rows[j].hash);
          assert rows[j] == a.rows[j];
        }
      }
    }
  }

  lemma {:induction false} RunRooted(hash: Hash, es: seq<Event>)
    ensures Rooted(hash, Run(hash, Nothing(), es).rows) && Answered(Run(hash, Nothing(), es))
  {
    if es != [] {
      RunRooted(hash, es[..|es| - 1]);
      NextRooted(hash, Run(hash, Nothing(), es[..|es| - 1]), es[|es| - 1]);
      NextAnswered(hash, Run(hash, Nothing(), es[..|es| - 1]), es[|es| - 1]);
    }
  }

  /**
   * What the walk says of a log that only writers wrote and nobody deleted from. It
   * reports some row exactly when the log forked. And it calls a row missing, which is
   * meant for deletions, exactly when its writer was answered by an empty log and
   * another row got there first.
   */
  lemma WalkOfRun(hash: Hash, es: seq<Event>)
    requires forall x :: IsDigest(hash(x))
    ensures var log := Run(hash, Nothing(), es).rows;
            && (IsChain(hash, log) <==> forall i: nat :: !LinkBroken(log, i))
            && (forall i: nat :: Orphaned(log, i) <==> 0 < i < |log| && log[i].hashPrev.None?)
  {
    var log := Run(hash, Nothing(), es).rows;
    RunRooted(hash, es);
    forall i: nat | i < |log| ensures LinkedAt(hash, log, i) <==> !LinkBroken(log, i) {
      assert RootedAt(hash, log, i);
    }
    forall i: nat ensures Orphaned(log, i) <==> 0 < i < |log| && log[i].hashPrev.None? {
      if i < |log| { assert RootedAt(hash, log, i); }
    }
    if IsChain(hash, log) {
      forall i: nat ensures !LinkBroken(log, i) {
        if i < |log| { assert LinkedAt(hash, log, i); }
      }
    }
  }

  /** Two writers of an empty log: the second row is reported missing its parent, and nothing is gone. */
  lemma MissingWithoutDeletion(hash: Hash, a: string, b: string, t: int, u: int)
    requires IsPayload(a) && IsPayload(b)
    ensures Orphaned(Run(hash, Nothing(), Overlap(a, b, t, u, None)).rows, 1)
  {
    OverlapRows(hash, [], a, b, t, u);
  }
}
