/**
 * The append-only audit log as a hash chain.
 *
 * Each row's hash covers its predecessor's hash and its own payload, one text
 * after the other. `hash` stands for SHA-256 in hex. It is never assumed free of
 * collisions everywhere, which no function onto 64 characters is: only that it
 * does not collide on the texts hashed in the logs being compared.
 */
module HashChain {
  import opened Options

  type Hash = string -> string

  /** A row, its recorded members as the one payload text the hash covers. */
  datatype Row = Row(payload: string, hashPrev: Option<string>, hash: string, createdAt: int)

  predicate IsHex(c: char) { '0' <= c <= '9' || 'a' <= c <= 'f' }

  predicate IsDigest(s: string) {
    |s| == 64 && forall i :: 0 <= i < |s| ==> IsHex(s[i])
  }

  /** A payload is the text of a JSON object. */
  predicate IsPayload(s: string) {
    s != "" && s[0] == '{'
  }

  // --- the chain --------------------------------------------------------------------

  /** The text a row's hash covers. */
  function Hashed(prev: Option<string>, payload: string): string {
    prev.GetOr("") + payload
  }

  function Linked(hash: Hash, prev: Option<string>, payload: string, createdAt: int): Row {
    Row(payload, prev, hash(Hashed(prev, payload)), createdAt)
  }

  function Previous(log: seq<Row>, i: nat): Option<string>
    requires i <= |log|
  {
    if i == 0 then None else Some(log[i - 1].hash)
  }

  /** The row's hash covers its payload and the hash of the row before it. */
  predicate LinkedAt(hash: Hash, log: seq<Row>, i: nat) {
    && i < |log|
    && IsPayload(log[i].payload)
    && log[i] == Linked(hash, Previous(log, i), log[i].payload, log[i].createdAt)
    && IsDigest(log[i].hash)
  }

  /** A linear hash chain. */
  ghost predicate IsChain(hash: Hash, log: seq<Row>) {
    forall i: nat :: i < |log| ==> LinkedAt(hash, log, i)
  }

  function HashedAt(log: seq<Row>, i: nat): string
    requires i < |log|
  {
    Hashed(log[i].hashPrev, log[i].payload)
  }

  /** No two different texts hashed in the two logs share a digest. */
  ghost predicate NoCollision(hash: Hash, a: seq<Row>, b: seq<Row>) {
    forall i, j :: 0 <= i < |a| && 0 <= j < |b| && hash(HashedAt(a, i)) == hash(HashedAt(b, j)) ==>
      HashedAt(a, i) == HashedAt(b, j)
  }

  /** A row as the chain protects it; the time it was stored at is not hashed. */
  function Protected(r: Row): (string, Option<string>, string) {
    (r.payload, r.hashPrev, r.hash)
  }

  /** Sixty-four hex digits or nothing, then a brace: the hashed text splits one way. */
  lemma HashedUnique(p: Option<string>, q: Option<string>, d: string, e: string)
    requires IsPayload(d) && IsPayload(e)
    requires p.Some? ==> IsDigest(p.value)
    requires q.Some? ==> IsDigest(q.value)
    requires Hashed(p, d) == Hashed(q, e)
    ensures p == q && d == e
  {
    var s, t := Hashed(p, d), Hashed(q, e);
    assert s[0] == (if p.Some? then p.value[0] else '{');
    assert t[0] == (if q.Some? then q.value[0] else '{');
    var n := |p.GetOr("")|;
    assert s[..n] == p.GetOr("") && t[..n] == q.GetOr("");
    assert s[n..] == d && t[n..] == e;
  }

  /** Two rows with one hash have one content and one predecessor. */
  lemma SameHashSameRow(hash: Hash, a: seq<Row>, b: seq<Row>, i: nat, j: nat)
    requires IsChain(hash, a) && IsChain(hash, b) && NoCollision(hash, a, b)
    requires i < |a| && j < |b| && a[i].hash == b[j].hash
    ensures Protected(a[i]) == Protected(b[j])
    ensures i == 0 <==> j == 0
    ensures i > 0 ==> a[i - 1].hash == b[j - 1].hash
  {
    assert LinkedAt(hash, a, i) && LinkedAt(hash, b, j);
    assert i > 0 ==> LinkedAt(hash, a, i - 1);
    assert j > 0 ==> LinkedAt(hash, b, j - 1);
    assert hash(HashedAt(a, i)) == a[i].hash && hash(HashedAt(b, j)) == b[j].hash;
    HashedUnique(a[i].hashPrev, b[j].hashPrev, a[i].payload, b[j].payload);
  }

  lemma {:induction false} SameHeadSamePrefix(hash: Hash, a: seq<Row>, b: seq<Row>, i: nat, j: nat)
    requires IsChain(hash, a) && IsChain(hash, b) && NoCollision(hash, a, b)
    requires i < |a| && j < |b| && a[i].hash == b[j].hash
    ensures i == j && forall k :: 0 <= k <= i ==> Protected(a[k]) == Protected(b[k])
    decreases i
  {
    SameHashSameRow(hash, a, b, i, j);
    if i > 0 { SameHeadSamePrefix(hash, a, b, i - 1, j - 1); }
  }

  /** Two chains with the same head hash are the same log, row for row. */
  lemma SameHeadSameLog(hash: Hash, a: seq<Row>, b: seq<Row>)
    requires IsChain(hash, a) && IsChain(hash, b) && NoCollision(hash, a, b)
    requires a != [] && b != [] && a[|a| - 1].hash == b[|b| - 1].hash
    ensures |a| == |b| && forall k :: 0 <= k < |a| ==> Protected(a[k]) == Protected(b[k])
  {
    SameHeadSamePrefix(hash, a, b, |a| - 1, |b| - 1);
  }

  // --- appending --------------------------------------------------------------------

  /** A row the query for the newest may return. */
  predicate IsNewest(log: seq<Row>, i: nat) {
    i < |log| && forall j :: 0 <= j < |log| ==> log[j].createdAt <= log[i].createdAt
  }

  /** The hash an append may find: of a newest row, or none when there is no row. */
  ghost predicate MayFind(log: seq<Row>, prev: Option<string>) {
    if log == [] then prev.None? else exists i: nat :: IsNewest(log, i) && prev == Some(log[i].hash)
  }

  /** The hash of a row no other is dated after. */
  predicate IsNewestHash(log: seq<Row>, h: string) {
    exists i :: 0 <= i < |log| && log[i].hash == h && (forall j :: 0 <= j < |log| ==> log[j].createdAt <= log[i].createdAt)
  }

  /** Every row was stored strictly after the ones before it. */
  predicate Clocked(log: seq<Row>) {
    forall i, j :: 0 <= i < j < |log| ==> log[i].createdAt < log[j].createdAt
  }

  lemma {:induction false} NewestExists(log: seq<Row>) returns (i: nat)
    requires log != []
    ensures IsNewest(log, i)
  {
    var n := |log| - 1;
    if n == 0 {
      i := 0;
    } else {
      i := NewestExists(log[..n]);
      assert forall j :: 0 <= j < n ==> log[..n][j] == log[j];
      if log[i].createdAt < log[n].createdAt { i := n; }
    }
  }

  class AuditLog {
    var rows: seq<Row>

    constructor ()
      ensures rows == []
    {
      rows := [];
    }

    method RecordAudit(hash: Hash, payload: string, createdAt: int) returns (ghost prev: Option<string>)
      modifies this
      ensures MayFind(old(rows), prev)
      ensures rows == old(rows) + [Linked(hash, prev, payload, createdAt)]
      ensures prev.None? <==> old(rows) == []
      ensures prev.Some? ==> IsNewestHash(old(rows), prev.value)
      ensures |rows| == |old(rows)| + 1
      ensures var row := rows[|rows| - 1];
              && row.payload == payload && row.hashPrev == prev && row.createdAt == createdAt
              && row.hash == hash((if prev.Some? then prev.value else "") + payload)
    {
      var previous: Option<string> := None;
      if rows != [] {
        ghost var _ := NewestExists(rows);
        var i: nat :| i < |rows| && IsNewest(rows, i);
        previous := Some(rows[i].hash);
      }
      prev := previous;
      rows := rows + [Linked(hash, previous, payload, createdAt)];
    }
  }

  /** An append keeps the chain linear exactly when it found the last row. */
  lemma AppendKeepsChain(hash: Hash, log: seq<Row>, prev: Option<string>, payload: string, createdAt: int)
    requires IsChain(hash, log) && IsPayload(payload) && IsDigest(hash(Hashed(prev, payload)))
    ensures IsChain(hash, log + [Linked(hash, prev, payload, createdAt)]) <==> prev == Previous(log, |log|)
  {
    var log' := log + [Linked(hash, prev, payload, createdAt)];
    forall i: nat | i < |log| ensures LinkedAt(hash, log', i) {
      assert LinkedAt(hash, log, i);
    }
    assert log'[|log|] == Linked(hash, prev, payload, createdAt);
    assert Previous(log', |log|) == Previous(log, |log|);
    assert LinkedAt(hash, log', |log|) <==> prev == Previous(log, |log|);
  }

  lemma NewestIsLast(log: seq<Row>, prev: Option<string>)
    requires Clocked(log) && MayFind(log, prev)
    ensures prev == Previous(log, |log|)
  {
    if log != [] {
      var i: nat :| IsNewest(log, i) && prev == Some(log[i].hash);
      assert log[|log| - 1].createdAt <= log[i].createdAt;
    }
  }

  /** The last row was stored strictly after every other. */
  predicate LastIsNewest(log: seq<Row>) {
    forall i :: 0 <= i < |log| - 1 ==> log[i].createdAt < log[|log| - 1].createdAt
  }

  /** The hash column is unique. */
  predicate DistinctHashes(log: seq<Row>) {
    forall i, j :: 0 <= i < j < |log| ==> log[i].hash != log[j].hash
  }

  /** The query can only find the last row exactly when no other row is as new. */
  lemma FindsLast(log: seq<Row>)
    requires DistinctHashes(log)
    ensures (forall prev :: MayFind(log, prev) ==> prev == Previous(log, |log|)) <==> LastIsNewest(log)
  {
    if log != [] {
      var last := |log| - 1;
      var n := NewestExists(log);
      assert MayFind(log, Some(log[n].hash));
      if LastIsNewest(log) {
        forall prev | MayFind(log, prev) ensures prev == Previous(log, |log|) {
          var i: nat :| IsNewest(log, i) && prev == Some(log[i].hash);
          assert log[last].createdAt <= log[i].createdAt;
        }
      } else {
        var i :| 0 <= i < last && log[i].createdAt >= log[last].createdAt;
        if n == last {
          assert IsNewest(log, i) && MayFind(log, Some(log[i].hash));
          assert log[i].hash != log[last].hash;
        } else {
          assert log[n].hash != log[last].hash;
        }
      }
    }
  }

  /**
   * When an append that nothing comes in between is safe, whatever the query answers:
   * exactly when the last row is strictly the newest. A tie with it, or a row dated
   * after it, lets the log fork. `AuditRuns` has the appends that overlap.
   */
  lemma AppendStaysLinear(hash: Hash, log: seq<Row>, payload: string, createdAt: int)
    requires IsChain(hash, log) && DistinctHashes(log) && IsPayload(payload)
    requires forall x :: IsDigest(hash(x))
    ensures (forall prev :: MayFind(log, prev) ==> IsChain(hash, log + [Linked(hash, prev, payload, createdAt)])) <==>
            LastIsNewest(log)
  {
    forall prev
      ensures IsChain(hash, log + [Linked(hash, prev, payload, createdAt)]) <==> prev == Previous(log, |log|)
    {
      AppendKeepsChain(hash, log, prev, payload, createdAt);
    }
    FindsLast(log);
  }

  /** Every answer forks the log at once exactly when some row is dated after the last. */
  lemma AppendAlwaysForks(hash: Hash, log: seq<Row>, payload: string, createdAt: int)
    requires IsChain(hash, log) && DistinctHashes(log) && IsPayload(payload)
    requires forall x :: IsDigest(hash(x))
    ensures (forall prev :: MayFind(log, prev) ==> !IsChain(hash, log + [Linked(hash, prev, payload, createdAt)])) <==>
            exists i :: 0 <= i < |log| && log[i].createdAt > log[|log| - 1].createdAt
  {
    forall prev
      ensures IsChain(hash, log + [Linked(hash, prev, payload, createdAt)]) <==> prev == Previous(log, |log|)
    {
      AppendKeepsChain(hash, log, prev, payload, createdAt);
    }
    if log == [] {
      assert MayFind(log, None);
    } else if IsNewest(log, |log| - 1) {
      assert MayFind(log, Previous(log, |log|));
    } else {
      forall prev | MayFind(log, prev) ensures prev != Previous(log, |log|) {
        var i: nat :| IsNewest(log, i) && prev == Some(log[i].hash);
        assert i != |log| - 1;
      }
    }
  }

  /** Two rows stored at one instant: nothing is out of order, and the next append may still fork. */
  lemma TiedAppendMayFork(hash: Hash, a: string, b: string, payload: string, at: int, createdAt: int)
    requires IsPayload(a) && IsPayload(b) && IsPayload(payload) && forall x :: IsDigest(hash(x))
    requires hash(a) != hash(hash(a) + b)
    ensures var log := [Linked(hash, None, a, at), Linked(hash, Some(hash(a)), b, at)];
            IsChain(hash, log) &&
            exists prev :: MayFind(log, prev) && !IsChain(hash, log + [Linked(hash, prev, payload, createdAt)])
  {
    var log := [Linked(hash, None, a, at), Linked(hash, Some(hash(a)), b, at)];
    assert "" + a == a;
    assert LinkedAt(hash, log, 0) && LinkedAt(hash, log, 1);
    AppendStaysLinear(hash, log, payload, createdAt);
    assert log[0].createdAt >= log[1].createdAt;
  }

  // --- walking the chain --------------------------------------------------------------

  /** A row whose stored link is not the hash of the row before it. */
  predicate LinkBroken(log: seq<Row>, i: nat) {
    0 < i < |log| && log[i].hashPrev != Some(log[i - 1].hash)
  }

  predicate Orphaned(log: seq<Row>, i: nat) {
    LinkBroken(log, i) && !exists j :: 0 <= j < |log| && log[i].hashPrev == Some(log[j].hash)
  }

  method VerifyChain(log: seq<Row>) returns (missing: seq<nat>, mismatched: seq<nat>)
    ensures forall i: nat :: i in missing <==> Orphaned(log, i)
    ensures forall i: nat :: i in mismatched <==> LinkBroken(log, i) && !Orphaned(log, i)
    ensures forall i: nat :: i in missing || i in mismatched <==> 0 < i < |log| && log[i].hashPrev != Some(log[i - 1].hash)
    ensures forall i: nat :: i in missing ==> i < |log| && forall j :: 0 <= j < |log| ==> log[i].hashPrev != Some(log[j].hash)
  {
    missing, mismatched := [], [];
    if log == [] { return; }
    for index := 1 to |log|
      invariant forall i: nat :: i in missing <==> i < index && Orphaned(log, i)
      invariant forall i: nat :: i in mismatched <==> i < index && LinkBroken(log, i) && !Orphaned(log, i)
    {
      var row := log[index];
      if row.hashPrev != Some(log[index - 1].hash) {
        var known := exists j :: 0 <= j < |log| && row.hashPrev == Some(log[j].hash);
        if row.hashPrev.None? || !known {
          missing := missing + [index];
        } else {
          mismatched := mismatched + [index];
        }
      }
    }
  }

  /**
   * What deleting rows leaves for the walk to find. A stretch of any length cut from
   * inside a chain of distinct hashes is reported, as one missing parent; a stretch
   * at its beginning or its end is not.
   */
  lemma DeletionIsFound(hash: Hash, log: seq<Row>, from: nat, to: nat)
    requires IsChain(hash, log) && DistinctHashes(log) && from < to <= |log|
    ensures var left := log[..from] + log[to..];
            && (forall i: nat :: LinkBroken(left, i) ==> i == from && Orphaned(left, i))
            && (LinkBroken(left, from) <==> 0 < from && to < |log|)
  {
    var left := log[..from] + log[to..];
    var cut := to - from;
    assert forall i: nat :: i < |left| ==> left[i] == log[if i < from then i else i + cut];
    forall i: nat | LinkBroken(left, i) ensures i == from && Orphaned(left, i) {
      assert LinkedAt(hash, log, if i < from then i else i + cut);
      forall j | 0 <= j < |left| ensures left[j].hash != log[to - 1].hash {
        assert left[j] == log[if j < from then j else j + cut];
      }
    }
    if 0 < from && to < |log| {
      assert LinkedAt(hash, log, to) && left[from] == log[to] && left[from - 1] == log[from - 1];
    }
  }

  /** A log with one payload rewritten and everything else as it was. */
  function Edited(log: seq<Row>, k: nat, payload: string): seq<Row>
    requires k < |log|
  {
    log[k := log[k].(payload := payload)]
  }

  /** A row whose stored hash is not the hash of its own text. */
  predicate Miscomputed(hash: Hash, log: seq<Row>, i: nat) {
    i < |log| && log[i].hash != hash(HashedAt(log, i))
  }

  /**
   * What rewriting a payload leaves to find. The walk compares stored hashes only and
   * reports the same rows as before. Recomputing them would report the edited row, and
   * no other, exactly when the new text hashes differently: for any real change, unless
   * the two texts collide.
   */
  lemma EditIsUnseen(hash: Hash, log: seq<Row>, k: nat, payload: string)
    requires IsChain(hash, log) && k < |log|
    ensures var edited := Edited(log, k, payload);
            && (forall i: nat :: LinkBroken(edited, i) <==> LinkBroken(log, i))
            && (forall i: nat :: Orphaned(edited, i) <==> Orphaned(log, i))
            && (forall i: nat :: Miscomputed(hash, edited, i) <==>
                  i == k && hash(Hashed(Previous(log, k), payload)) != log[k].hash)
            && (NoCollision(hash, log, edited) ==> (Miscomputed(hash, edited, k) <==> payload != log[k].payload))
  {
    var edited := Edited(log, k, payload);
    assert forall i: nat :: i < |log| ==> edited[i].hash == log[i].hash && edited[i].hashPrev == log[i].hashPrev;
    forall i: nat | i < |log| ensures Miscomputed(hash, edited, i) <==> i == k && hash(Hashed(Previous(log, k), payload)) != log[k].hash {
      assert LinkedAt(hash, log, i);
    }
    assert LinkedAt(hash, log, k);
    var was, now := HashedAt(log, k), HashedAt(edited, k);
    var n := |Previous(log, k).GetOr("")|;
    assert was[n..] == log[k].payload && now[n..] == payload;
  }
}
