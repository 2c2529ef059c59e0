/**
 * The redirect map and the writes a rename makes to it.
 *
 * The table is a functional graph over paths. `RedirectTable` carries the two
 * write sequences of the source; the lemmas say what a visitor who follows the
 * graph sees before and after a move, for chains of any length.
 */
module Redirects {
  import opened Options

  type Path = string

  datatype Redirect = Redirect(
    to: Path,
    code: int,
    isActive: bool,
    source: string,
    createdById: Option<string>)

  type Table = map<Path, Redirect>

  // --- what the two write sequences leave behind ------------------------------

  /** The row at the vacated address: re-pointed when it exists, created otherwise. */
  function Upserted(m: Table, from: Path, to: Path, actorId: Option<string>): Redirect {
    if from in m
    then m[from].(to := to, code := 301, isActive := true)
    else Redirect(to, 301, true, "manual", actorId)
  }

  /** A content move, described row by row. */
  function Moved(m: Table, from: Path, to: Path, actorId: Option<string>): Table {
    if from == to then m
    else
      map p | p in (m.Keys - {to}) + {from} ::
        if p == from then Upserted(m, from, to, actorId)
        else if m[p].to == from then m[p].(to := to)
        else m[p]
  }

  /** A product rename: the same, but a redirect already at the new address stays. */
  function ProductMoved(m: Table, from: Path, to: Path): Table {
    map p | p in m.Keys + {from} ::
      if p == from then Upserted(m, from, to, None)
      else if m[p].to == from then m[p].(to := to)
      else m[p]
  }

  class RedirectTable {
    var rows: Table

    constructor ()
      ensures rows == map[]
    {
      rows := map[];
    }

    method DeleteFrom(from: Path)
      modifies this
      ensures rows == old(rows) - {from}
    {
      rows := rows - {from};
    }

    method Upsert(from: Path, to: Path, actorId: Option<string>)
      modifies this
      ensures rows == old(rows)[from := Upserted(old(rows), from, to, actorId)]
    {
      rows := rows[from := Upserted(rows, from, to, actorId)];
    }

    method Retarget(from: Path, to: Path)
      modifies this
      ensures rows.Keys == old(rows).Keys
      ensures forall p :: p in rows ==>
        rows[p] == if old(rows)[p].to == from then old(rows)[p].(to := to) else old(rows)[p]
    {
      rows := map p | p in rows :: if rows[p].to == from then rows[p].(to := to) else rows[p];
    }

    /** Pages, posts and brands: three writes. */
    method RecordMove(from: Path, to: Path, actorId: Option<string>)
      modifies this
      ensures rows == Moved(old(rows), from, to, actorId)
    {
      if from == to { return; }
      DeleteFrom(to);
      Upsert(from, to, actorId);
      Retarget(from, to);
    }

    /** Products: the delete is missing. Only called when the slug really changes. */
    method RecordProductMove(from: Path, to: Path)
      requires from != to
      modifies this
      ensures rows == ProductMoved(old(rows), from, to)
    {
      Upsert(from, to, None);
      Retarget(from, to);
    }
  }

  // --- what a move stores --------------------------------------------------------

  /** A permanent redirect that is on. */
  predicate LeadsTo(m: Table, from: Path, to: Path) {
    from in m && m[from].to == to && m[from].code == 301 && m[from].isActive
  }

  /** A row with nothing changed but where it points. */
  predicate SameApartFromTarget(a: Redirect, b: Redirect) {
    a.code == b.code && a.isActive == b.isActive && a.source == b.source && a.createdById == b.createdById
  }

  /**
   * Whatever stood in the table, switched off or temporary included: the vacated address
   * leads to the new one for good, the new one has no row, and of every other row only the
   * target can have changed, from the vacated address to the new one.
   */
  lemma MoveStores(m: Table, from: Path, to: Path, actorId: Option<string>)
    requires from != to
    ensures var m' := Moved(m, from, to, actorId);
            && LeadsTo(m', from, to) && to !in m'
            && (forall p :: p != from && p != to ==>
                  && (p in m' <==> p in m)
                  && (p in m ==> SameApartFromTarget(m'[p], m[p]))
                  && (p in m ==> m'[p].to == if m[p].to == from then to else m[p].to))
            && m'[from].source == (if from in m then m[from].source else "manual")
            && m'[from].createdById == (if from in m then m[from].createdById else actorId)
  {
  }

  /** The same of a product's move, except that a row at the new address stays. */
  lemma ProductMoveStores(m: Table, from: Path, to: Path)
    requires from != to
    ensures var m' := ProductMoved(m, from, to);
            && LeadsTo(m', from, to)
            && (forall p :: p != from ==>
                  && (p in m' <==> p in m)
                  && (p in m ==> SameApartFromTarget(m'[p], m[p]))
                  && (p in m ==> m'[p].to == if m[p].to == from then to else m[p].to))
            && m'[from].source == (if from in m then m[from].source else "manual")
            && m'[from].createdById == (if from in m then m[from].createdById else None)
  {
  }

  // --- following the map ------------------------------------------------------

  /** Where a visitor to `p` stands after at most `n` redirects. */
  ghost function Hop(m: Table, p: Path, n: nat): Path {
    if n == 0 then p
    else
      var q := Hop(m, p, n - 1);
      if q in m then m[q].to else q
  }

  ghost predicate Visits(m: Table, p: Path, q: Path) {
    exists n: nat :: Hop(m, p, n) == q
  }

  /** Following redirects from `p` comes to rest at `t`. */
  ghost predicate Ends(m: Table, p: Path, t: Path) {
    t !in m && Visits(m, p, t)
  }

  ghost predicate Terminates(m: Table, p: Path) {
    exists n: nat :: Hop(m, p, n) !in m
  }

  ghost predicate Acyclic(m: Table) {
    forall p, n: nat :: p in m && n > 0 ==> Hop(m, p, n) != p
  }

  /** No redirect points at an address that itself redirects: every chain is one hop. */
  ghost predicate Flat(m: Table) {
    forall p :: p in m ==> m[p].to !in m
  }

  lemma {:induction false} HopAdd(m: Table, p: Path, i: nat, j: nat)
    ensures Hop(m, p, i + j) == Hop(m, Hop(m, p, i), j)
  {
    if j > 0 {
      HopAdd(m, p, i, j - 1);
      assert i + j - 1 == i + (j - 1);
    }
  }

  lemma {:induction false} HopStays(m: Table, p: Path, i: nat, j: nat)
    requires Hop(m, p, i) !in m && i <= j
    ensures Hop(m, p, j) == Hop(m, p, i)
    decreases j
  {
    if i < j { HopStays(m, p, i, j - 1); }
  }

  /** The address a path ends at is unique. */
  lemma EndsUnique(m: Table, p: Path, s: Path, t: Path)
    requires Ends(m, p, s) && Ends(m, p, t)
    ensures s == t
  {
    var i: nat :| Hop(m, p, i) == s;
    var j: nat :| Hop(m, p, j) == t;
    if i <= j { HopStays(m, p, i, j); } else { HopStays(m, p, j, i); }
  }

  // --- no cycle exactly when every visitor arrives ------------------------------

  /** Leaving `p` out of an acyclic table loses only the hops made from `p`. */
  lemma {:induction false} HopWithout(m: Table, p: Path, q: Path, n: nat)
    requires forall k: nat :: k < n ==> Hop(m - {p}, q, k) != p
    ensures Hop(m - {p}, q, n) == Hop(m, q, n)
  {
    if n > 0 { HopWithout(m, p, q, n - 1); }
  }

  /** The first of the first `n + 1` stops at which `p` stands, if there is one. */
  lemma {:induction false} FirstStop(m: Table, q: Path, p: Path, n: nat) returns (k: nat)
    requires Hop(m, q, n) == p
    ensures k <= n && Hop(m, q, k) == p
    ensures forall i: nat :: i < k ==> Hop(m, q, i) != p
  {
    if i: nat :| i < n && Hop(m, q, i) == p {
      k := FirstStop(m, q, p, i);
    } else {
      k := n;
    }
  }

  lemma {:induction false} WithoutKeepsAcyclic(m: Table, p: Path)
    requires Acyclic(m)
    ensures Acyclic(m - {p})
  {
    var m' := m - {p};
    forall q, n: nat | q in m' && n > 0 ensures Hop(m', q, n) != q {
      if i: nat :| i < n && Hop(m', q, i) == p {
        HopStays(m', q, i, n);
      } else {
        HopWithout(m, p, q, n);
      }
    }
  }

  lemma {:induction false} AcyclicArrives(m: Table, p: Path)
    requires Acyclic(m)
    ensures Terminates(m, p)
    decreases |m|
  {
    if p !in m {
      assert Hop(m, p, 0) !in m;
    } else {
      var m' := m - {p};
      var q := m[p].to;
      WithoutKeepsAcyclic(m, p);
      assert m'.Keys == m.Keys - {p};
      AcyclicArrives(m', q);
      var n: nat :| Hop(m', q, n) !in m';
      assert Hop(m, p, 1) == q;
      if Hop(m', q, n) == p {
        var k := FirstStop(m', q, p, n);
        HopWithout(m, p, q, k);
        HopAdd(m, p, 1, k);
        assert false;
      } else {
        if i: nat :| i < n && Hop(m', q, i) == p { HopStays(m', q, i, n); assert false; }
        HopWithout(m, p, q, n);
        HopAdd(m, p, 1, n);
        assert Hop(m, p, 1 + n) !in m;
      }
    }
  }

  lemma {:induction false} CycleRepeats(m: Table, p: Path, n: nat, k: nat)
    requires n > 0 && Hop(m, p, n) == p
    ensures Hop(m, p, n * k) == p
  {
    if k > 0 {
      CycleRepeats(m, p, n, k - 1);
      assert n * k == n * (k - 1) + n;
      HopAdd(m, p, n * (k - 1), n);
    }
  }

  /** A table has no cycle if and only if every path ends somewhere. */
  lemma AcyclicIffArrives(m: Table)
    ensures Acyclic(m) <==> forall p :: Terminates(m, p)
  {
    if Acyclic(m) {
      forall p ensures Terminates(m, p) { AcyclicArrives(m, p); }
    } else {
      var p, n: nat :| p in m && n > 0 && Hop(m, p, n) == p;
      if Terminates(m, p) {
        var k: nat :| Hop(m, p, k) !in m;
        CycleRepeats(m, p, n, k);
        assert n * k >= k;
        HopStays(m, p, k, n * k);
        assert false;
      }
    }
  }

  // --- what a move does to every visitor ----------------------------------------

  /** Until a chain stands at either end of the move, the move does not touch it. */
  lemma {:induction false} MoveKeepsPrefix(
    m: Table, from: Path, to: Path, actorId: Option<string>, p: Path, n: nat)
    requires from != to
    requires forall k: nat :: k <= n ==> Hop(m, p, k) != from && Hop(m, p, k) != to
    ensures Hop(Moved(m, from, to, actorId), p, n) == Hop(m, p, n)
  {
    if n > 0 {
      MoveKeepsPrefix(m, from, to, actorId, p, n - 1);
      var q := Hop(m, p, n - 1);
      assert Hop(m, p, n) != from;
    }
  }

  lemma {:induction false} MoveEndsAtTarget(
    m: Table, from: Path, to: Path, actorId: Option<string>, p: Path)
    requires from != to
    requires Visits(m, p, from) || Visits(m, p, to)
    ensures Ends(Moved(m, from, to, actorId), p, to)
  {
    var m' := Moved(m, from, to, actorId);
    var n: nat :| Hop(m, p, n) == from || Hop(m, p, n) == to;
    var k := FirstOfTwo(m, p, from, to, n);
    if k == 0 {
      assert Hop(m', p, 0) == p;
      if p == from { assert Hop(m', p, 1) == to; }
    } else {
      MoveKeepsPrefix(m, from, to, actorId, p, k - 1);
      var q := Hop(m, p, k - 1);
      assert q in m;
      assert Hop(m', p, k) == to;
    }
  }

  lemma {:induction false} FirstOfTwo(m: Table, p: Path, a: Path, b: Path, n: nat) returns (k: nat)
    requires Hop(m, p, n) == a || Hop(m, p, n) == b
    ensures k <= n && (Hop(m, p, k) == a || Hop(m, p, k) == b)
    ensures forall i: nat :: i < k ==> Hop(m, p, i) != a && Hop(m, p, i) != b
  {
    if i: nat :| i < n && (Hop(m, p, i) == a || Hop(m, p, i) == b) {
      k := FirstOfTwo(m, p, a, b, i);
    } else {
      k := n;
    }
  }

  /**
   * Where every visitor ends after a move, for any table at all. A chain that
   * touched either address now ends at the new one, even if it used to loop;
   * any other chain ends exactly where it ended before, or still nowhere.
   */
  lemma MoveResolution(
    m: Table, from: Path, to: Path, actorId: Option<string>, p: Path, t: Path)
    requires from != to
    ensures Ends(Moved(m, from, to, actorId), p, t) <==>
      if Visits(m, p, from) || Visits(m, p, to) then t == to else Ends(m, p, t)
  {
    var m' := Moved(m, from, to, actorId);
    if Visits(m, p, from) || Visits(m, p, to) {
      MoveEndsAtTarget(m, from, to, actorId, p);
      if Ends(m', p, t) { EndsUnique(m', p, t, to); }
    } else {
      forall n: nat ensures Hop(m', p, n) == Hop(m, p, n) {
        MoveKeepsPrefix(m, from, to, actorId, p, n);
      }
      if Visits(m, p, t) {
        var n: nat :| Hop(m, p, n) == t;
        assert Hop(m', p, n) == t;
        assert t != from && t != to;
      }
      if Visits(m', p, t) {
        var n: nat :| Hop(m', p, n) == t;
        assert Hop(m, p, n) == t;
        assert t != from && t != to;
      }
    }
  }

  lemma TerminatesIffEnds(m: Table, p: Path)
    ensures Terminates(m, p) <==> exists t :: Ends(m, p, t)
  {
    if Terminates(m, p) {
      var n: nat :| Hop(m, p, n) !in m;
      assert Ends(m, p, Hop(m, p, n));
    }
    if t :| Ends(m, p, t) {
      var n: nat :| Hop(m, p, n) == t;
    }
  }

  /** A move never makes a loop, and removes the ones through its two addresses. */
  lemma MoveTermination(m: Table, from: Path, to: Path, actorId: Option<string>, p: Path)
    requires from != to
    ensures Terminates(Moved(m, from, to, actorId), p) <==>
      Visits(m, p, from) || Visits(m, p, to) || Terminates(m, p)
  {
    var m' := Moved(m, from, to, actorId);
    TerminatesIffEnds(m, p);
    TerminatesIffEnds(m', p);
    forall t { MoveResolution(m, from, to, actorId, p, t); }
    if Visits(m, p, from) || Visits(m, p, to) { assert Ends(m', p, to); }
  }

  lemma MoveKeepsAcyclic(m: Table, from: Path, to: Path, actorId: Option<string>)
    requires Acyclic(m)
    ensures Acyclic(Moved(m, from, to, actorId))
  {
    if from != to {
      var m' := Moved(m, from, to, actorId);
      AcyclicIffArrives(m);
      forall p ensures Terminates(m', p) { MoveTermination(m, from, to, actorId, p); }
      AcyclicIffArrives(m');
    }
  }

  /** One hop stays one hop, whatever is renamed to whatever. */
  lemma MoveKeepsFlat(m: Table, from: Path, to: Path, actorId: Option<string>)
    requires Flat(m)
    ensures Flat(Moved(m, from, to, actorId))
  {
  }

  // --- the product rename, which leaves out the delete ------------------------------

  /** The two-write form is the three-write form exactly when no redirect sits at the new address. */
  lemma ProductMoveAgrees(m: Table, from: Path, to: Path)
    requires from != to
    ensures ProductMoved(m, from, to) == Moved(m, from, to, None) <==> to !in m
  {
    if to in m {
      assert to in ProductMoved(m, from, to);
    } else {
      assert (m.Keys - {to}) + {from} == m.Keys + {from};
    }
  }

  lemma ProductMoveFlat(m: Table, from: Path, to: Path)
    requires from != to && Flat(m)
    ensures Flat(ProductMoved(m, from, to)) <==> to !in m
  {
    var m' := ProductMoved(m, from, to);
    assert m'[from].to == to;
    if to !in m { ProductMoveAgrees(m, from, to); MoveKeepsFlat(m, from, to, None); }
  }

  /** From an address whose old chain avoids the vacated one, nothing changes. */
  lemma {:induction false} ProductKeepsPrefix(m: Table, from: Path, to: Path, p: Path, n: nat)
    requires forall k: nat :: k <= n ==> Hop(m, p, k) != from
    ensures Hop(ProductMoved(m, from, to), p, n) == Hop(m, p, n)
  {
    if n > 0 {
      ProductKeepsPrefix(m, from, to, p, n - 1);
      assert Hop(m, p, n) != from;
    }
  }

  lemma ProductReachesTarget(m: Table, from: Path, to: Path, p: Path)
    requires from != to && Visits(m, p, from)
    ensures Visits(ProductMoved(m, from, to), p, to)
  {
    var m' := ProductMoved(m, from, to);
    var n: nat :| Hop(m, p, n) == from;
    var k := FirstStop(m, p, from, n);
    if k == 0 {
      assert Hop(m', p, 0) == from;
      assert Hop(m', p, 1) == to;
    } else {
      ProductKeepsPrefix(m, from, to, p, k - 1);
      assert Hop(m', p, k) == to;
    }
  }

  /**
   * When a product rename is safe: it keeps an acyclic table acyclic exactly
   * when following redirects from the new address does not lead to the old one.
   */
  lemma ProductMoveAcyclic(m: Table, from: Path, to: Path)
    requires from != to && Acyclic(m)
    ensures Acyclic(ProductMoved(m, from, to)) <==> !Visits(m, to, from)
  {
    var m' := ProductMoved(m, from, to);
    AcyclicIffArrives(m');
    if Visits(m, to, from) {
      ProductClosesLoop(m, from, to);
    } else {
      AcyclicArrives(m, to);
      var e: nat :| Hop(m, to, e) !in m;
      ProductKeepsPrefix(m, from, to, to, e);
      assert Hop(m, to, e) != from;
      forall p ensures Terminates(m', p) {
        if Visits(m, p, from) {
          ProductReachesTarget(m, from, to, p);
          var k: nat :| Hop(m', p, k) == to;
          HopAdd(m', p, k, e);
          assert Hop(m', p, k + e) !in m';
        } else {
          AcyclicArrives(m, p);
          var n: nat :| Hop(m, p, n) !in m;
          ProductKeepsPrefix(m, from, to, p, n);
          assert Hop(m', p, n) !in m';
        }
      }
    }
  }

  lemma ProductClosesLoop(m: Table, from: Path, to: Path)
    requires from != to && Visits(m, to, from)
    ensures !Acyclic(ProductMoved(m, from, to))
  {
    var m' := ProductMoved(m, from, to);
    var n: nat :| Hop(m, to, n) == from;
    var k := FirstStop(m, to, from, n);
    assert k > 0;
    ProductKeepsPrefix(m, from, to, to, k - 1);
    assert Hop(m', to, k) == to;
    if to !in m { HopStays(m, to, 0, k); assert false; }
    assert to in m';
  }

  /** Renaming a product away and back leaves an address that redirects to itself. */
  lemma ProductThereAndBack(a: Path, b: Path)
    requires a != b
    ensures var m := ProductMoved(ProductMoved(map[], a, b), b, a);
            a in m && m[a].to == a && !Acyclic(m)
  {
    var m1 := ProductMoved(map[], a, b);
    var m := ProductMoved(m1, b, a);
    assert Hop(m, a, 0) == a;
    assert Hop(m, a, 1) == a;
  }

  // --- whole runs of product renames --------------------------------------------------

  /** One rename, from the old address to the new. */
  datatype Move = Move(from: Path, to: Path)

  predicate AreMoves(moves: seq<Move>) {
    forall i :: 0 <= i < |moves| ==> moves[i].from != moves[i].to
  }

  /** The table after a run of renames, recorded in two writes each. */
  function ProductRun(moves: seq<Move>): Table {
    if moves == [] then map[]
    else
      var last := moves[|moves| - 1];
      ProductMoved(ProductRun(moves[..|moves| - 1]), last.from, last.to)
  }

  /** The same run, recorded as a content move is. */
  function MovedRun(moves: seq<Move>): Table {
    if moves == [] then map[]
    else
      var last := moves[|moves| - 1];
      Moved(MovedRun(moves[..|moves| - 1]), last.from, last.to, None)
  }

  /** After every rename of the run the two tables are the same. */
  predicate AgreeThroughout(moves: seq<Move>) {
    ProductRun(moves) == MovedRun(moves) && (moves != [] ==> AgreeThroughout(moves[..|moves| - 1]))
  }

  /** No rename goes to an address that an earlier one gave up. */
  predicate NeverRetakes(moves: seq<Move>) {
    forall i, j :: 0 <= j < i < |moves| ==> moves[j].from != moves[i].to
  }

  lemma {:induction false} ProductRunKeys(moves: seq<Move>, p: Path)
    ensures p in ProductRun(moves) <==> exists j :: 0 <= j < |moves| && moves[j].from == p
  {
    if moves != [] {
      var front := moves[..|moves| - 1];
      ProductRunKeys(front, p);
      assert forall j :: 0 <= j < |front| ==> front[j] == moves[j];
      assert moves[|moves| - 1].from in ProductRun(moves);
    }
  }

  /** One more rename leaves the tables the same exactly when it re-takes no address. */
  lemma ProductStepAgrees(moves: seq<Move>)
    requires AreMoves(moves) && moves != [] && ProductRun(moves[..|moves| - 1]) == MovedRun(moves[..|moves| - 1])
    ensures ProductRun(moves) == MovedRun(moves) <==>
      forall j :: 0 <= j < |moves| - 1 ==> moves[j].from != moves[|moves| - 1].to
  {
    var front, last := moves[..|moves| - 1], moves[|moves| - 1];
    ProductMoveAgrees(ProductRun(front), last.from, last.to);
    ProductRunKeys(front, last.to);
    assert forall j :: 0 <= j < |front| ==> front[j] == moves[j];
  }

  /**
   * Over a whole run: after every rename the two-write table is what a content
   * move would have left, exactly when no rename re-takes an address given up before.
   */
  lemma {:induction false} ProductRunAgrees(moves: seq<Move>)
    requires AreMoves(moves)
    ensures AgreeThroughout(moves) <==> NeverRetakes(moves)
  {
    if moves != [] {
      var front := moves[..|moves| - 1];
      assert forall j :: 0 <= j < |front| ==> front[j] == moves[j];
      ProductRunAgrees(front);
      if AgreeThroughout(front) { ProductStepAgrees(moves); }
    }
  }
}
