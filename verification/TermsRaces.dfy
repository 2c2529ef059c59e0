/**
 * Changes of terms that overlap.
 *
 * `Catalogue` runs its writes one after another. Their transactions are at the default
 * isolation, though, and a change of terms is five statements: it looks at the variant
 * and decides, demotes the product's other defaults, writes the variant, reads the
 * published prices, and stores the least with the commit. Each statement sees what is
 * committed when it starts, and the request's own writes; a written row is locked until
 * the commit.
 */
module TermsRaces {
  import opened Options
  import opened Catalogue

  datatype Stage = Looked | Demoted | Written | Priced

  /** A request: what it asks, what it saw, whom it demotes, and the rows it read the prices of. */
  datatype Request = Request(
    at: nat, input: Terms, seen: Variant, stage: Stage, demotes: set<nat>, rows: seq<Variant>) {
    function Product(): nat { seen.productId }

    function Locks(): set<nat> { {at} + demotes }
  }

  /** The committed variants, the cached price of every product, and the requests under way. */
  datatype Shop = Shop(variants: seq<Variant>, prices: map<nat, Option<nat>>, requests: map<nat, Request>)

  datatype Event =
    | Look(r: nat, at: nat, input: Terms)
    | Demote(r: nat)
    | Write(r: nat)
    | Read(r: nat)
    | Commit(r: nat)

  /** The row a request writes: the fields it was sent, and a term worked out on the row it saw. */
  function Rewritten(v: Variant, q: Request): Variant {
    var unit := q.input.unit.GetOr(q.seen.unit);
    v.(price := NextPrice(v, q.input),
       compareAt := NextCompare(v, q.input),
       unit := unit,
       value := TermValue(unit, q.input.value.GetOr(q.seen.value)),
       status := q.input.status.GetOr(v.status),
       isDefault := q.input.isDefault.GetOr(v.isDefault))
  }

  /** The variants as the request sees or leaves them: with its own writes in. */
  function Applied(variants: seq<Variant>, q: Request): (r: seq<Variant>)
    ensures |r| == |variants|
    ensures forall i :: 0 <= i < |r| ==>
      r[i] == if i == q.at then Rewritten(variants[i], q)
              else if i in q.demotes then variants[i].(isDefault := false) else variants[i]
  {
    seq(|variants|, i requires 0 <= i < |variants| =>
      if i == q.at then Rewritten(variants[i], q)
      else if i in q.demotes then variants[i].(isDefault := false) else variants[i])
  }

  /** The minimum the request read. */
  function MinRead(q: Request): Option<nat> {
    Cheapest(Applied(q.rows, q), q.Product())
  }

  /** The other defaults there are when the demotion starts. */
  function OtherDefaults(variants: seq<Variant>, q: Request): set<nat> {
    if q.input.isDefault == Some(true)
    then set i: nat | i < |variants| && i != q.at && variants[i].productId == q.Product() && variants[i].isDefault
    else {}
  }

  /** Nobody else holds a row the request writes. */
  predicate IsFree(s: Shop, r: nat)
    requires r in s.requests
  {
    forall o :: o in s.requests && o != r && (s.requests[o].stage.Written? || s.requests[o].stage.Priced?) ==>
      s.requests[o].Locks() !! s.requests[r].Locks()
  }

  predicate IsAt(s: Shop, r: nat, stage: Stage) {
    r in s.requests && s.requests[r].stage == stage
  }

  predicate CanLook(s: Shop, r: nat, at: nat, input: Terms) {
    r !in s.requests && at < |s.variants| && !TermsRefused(s.variants[at], input)
  }

  /** A statement whose turn it is not changes nothing. */
  function Next(s: Shop, e: Event): Shop {
    match e
    case Look(r, at, input) =>
      if CanLook(s, r, at, input)
      then s.(requests := s.requests[r := Request(at, input, s.variants[at], Looked, {}, [])])
      else s
    case Demote(r) =>
      if IsAt(s, r, Looked)
      then With(s, r, s.requests[r].(stage := Demoted, demotes := OtherDefaults(s.variants, s.requests[r])))
      else s
    case Write(r) =>
      if IsAt(s, r, Demoted) && IsFree(s, r) then With(s, r, s.requests[r].(stage := Written)) else s
    case Read(r) =>
      if IsAt(s, r, Written) then With(s, r, s.requests[r].(stage := Priced, rows := s.variants)) else s
    case Commit(r) =>
      if IsAt(s, r, Priced) then Committed(s, r) else s
  }

  function With(s: Shop, r: nat, q: Request): Shop {
    s.(requests := s.requests[r := q])
  }

  function Committed(s: Shop, r: nat): Shop
    requires r in s.requests
  {
    var q := s.requests[r];
    Shop(Applied(s.variants, q), s.prices[q.Product() := MinRead(q)], s.requests - {r})
  }

  function Run(start: Shop, events: seq<Event>): Shop {
    if events == [] then start else Next(Run(start, events[..|events| - 1]), events[|events| - 1])
  }

  // --- what the requests under way agree with ---------------------------------------------

  /** Whose row it is never changes. */
  predicate SameOwners(a: seq<Variant>, b: seq<Variant>) {
    |a| == |b| && forall i :: 0 <= i < |a| ==> a[i].productId == b[i].productId
  }

  ghost predicate RequestFits(variants: seq<Variant>, q: Request) {
    && q.at < |variants| && variants[q.at].productId == q.Product()
    && (forall i :: i in q.demotes ==> i < |variants| && variants[i].productId == q.Product())
    && (q.stage.Priced? ==> SameOwners(q.rows, variants))
  }

  ghost predicate Fit(s: Shop) {
    forall r :: r in s.requests ==> RequestFits(s.variants, s.requests[r])
  }

  lemma StillFits(a: seq<Variant>, b: seq<Variant>, q: Request)
    requires SameOwners(a, b) && RequestFits(a, q)
    ensures RequestFits(b, q)
  {
  }

  lemma DemotedFits(variants: seq<Variant>, q: Request)
    requires RequestFits(variants, q) && q.stage.Looked?
    ensures RequestFits(variants, q.(stage := Demoted, demotes := OtherDefaults(variants, q)))
  {
  }

  lemma NextRequestFits(s: Shop, e: Event, r: nat)
    requires Fit(s) && !e.Commit? && r in Next(s, e).requests
    ensures RequestFits(s.variants, Next(s, e).requests[r])
  {
    if r in s.requests {
      assert RequestFits(s.variants, s.requests[r]);
      if e == Demote(r) && IsAt(s, r, Looked) { DemotedFits(s.variants, s.requests[r]); }
    }
  }

  lemma CommitFits(s: Shop, r: nat)
    requires Fit(s) && r in s.requests
    ensures Fit(Committed(s, r)) && SameOwners(s.variants, Committed(s, r).variants)
  {
    var s' := Committed(s, r);
    forall o | o in s'.requests ensures RequestFits(s'.variants, s'.requests[o]) {
      StillFits(s.variants, s'.variants, s.requests[o]);
    }
  }

  lemma NextFits(s: Shop, e: Event)
    requires Fit(s)
    ensures Fit(Next(s, e)) && SameOwners(s.variants, Next(s, e).variants)
  {
    if Commits(s, e) {
      CommitFits(s, e.r);
    } else if !e.Commit? {
      forall r | r in Next(s, e).requests ensures RequestFits(s.variants, Next(s, e).requests[r]) {
        NextRequestFits(s, e, r);
      }
    }
  }

  lemma {:induction false} RunFits(start: Shop, events: seq<Event>)
    requires Fit(start)
    ensures Fit(Run(start, events))
  {
    if events != [] {
      RunFits(start, events[..|events| - 1]);
      NextFits(Run(start, events[..|events| - 1]), events[|events| - 1]);
    }
  }

  // --- what a commit can break -----------------------------------------------------------------

  ghost predicate PricesTrue(s: Shop) {
    forall p :: p in s.prices ==> s.prices[p] == Cheapest(s.variants, p)
  }

  ghost predicate OneDefault(variants: seq<Variant>) {
    forall i, j :: 0 <= i < j < |variants| && variants[i].productId == variants[j].productId ==>
      !(variants[i].isDefault && variants[j].isDefault)
  }

  ghost predicate Sound(variants: seq<Variant>) {
    forall i :: 0 <= i < |variants| ==> VariantOk(variants[i])
  }

  predicate Commits(s: Shop, e: Event) {
    e.Commit? && IsAt(s, e.r, Priced)
  }

  /** The minimum it read is no longer that of the rows it commits over. */
  predicate StalePrice(s: Shop, e: Event) {
    Commits(s, e) && MinRead(s.requests[e.r]) != Cheapest(Applied(s.variants, s.requests[e.r]), s.requests[e.r].Product())
  }

  /** Another default is there that the demotion did not see. */
  ghost predicate SecondDefault(s: Shop, e: Event) {
    && Commits(s, e) && s.requests[e.r].input.isDefault == Some(true)
    && exists i: nat :: IsUnseenDefault(s.variants, s.requests[e.r], i)
  }

  predicate IsUnseenDefault(variants: seq<Variant>, q: Request, i: nat) {
    i < |variants| && i != q.at && i !in q.demotes && variants[i].productId == q.Product() && variants[i].isDefault
  }

  /** The check would refuse on the row as it is now. */
  predicate LateRefusal(s: Shop, e: Event) {
    Commits(s, e) && s.requests[e.r].at < |s.variants| && TermsRefused(s.variants[s.requests[e.r].at], s.requests[e.r].input)
  }

  /** Only a product's own rows count towards its minimum. */
  lemma {:induction false} CheapestOfOwn(a: seq<Variant>, b: seq<Variant>, product: nat)
    requires SameOwners(a, b) && forall i :: 0 <= i < |a| && a[i].productId == product ==> a[i] == b[i]
    ensures Cheapest(a, product) == Cheapest(b, product)
  {
    if a != [] {
      var n := |a| - 1;
      CheapestOfOwn(a[..n], b[..n], product);
    }
  }

  /** A commit over rows of one product leaves the minimum of every other as it was. */
  lemma OthersKeepPrice(variants: seq<Variant>, q: Request, p: nat)
    requires RequestFits(variants, q) && p != q.Product()
    ensures Cheapest(Applied(variants, q), p) == Cheapest(variants, p)
  {
    CheapestOfOwn(variants, Applied(variants, q), p);
  }

  lemma CommitKeepsPrices(s: Shop, r: nat)
    requires Fit(s) && PricesTrue(s) && r in s.requests
    ensures PricesTrue(Committed(s, r)) <==>
      MinRead(s.requests[r]) == Cheapest(Applied(s.variants, s.requests[r]), s.requests[r].Product())
  {
    var q, s' := s.requests[r], Committed(s, r);
    forall p | p in s.prices && p != q.Product() ensures s'.prices[p] == Cheapest(s'.variants, p) {
      OthersKeepPrice(s.variants, q, p);
    }
    assert s'.prices[q.Product()] == MinRead(q);
  }

  lemma NextKeepsPrices(s: Shop, e: Event)
    requires Fit(s) && PricesTrue(s)
    ensures PricesTrue(Next(s, e)) <==> !StalePrice(s, e)
  {
    if Commits(s, e) { CommitKeepsPrices(s, e.r); }
  }

  lemma NextKeepsDefault(s: Shop, e: Event)
    requires Fit(s) && OneDefault(s.variants)
    ensures OneDefault(Next(s, e).variants) <==> !SecondDefault(s, e)
  {
    if Commits(s, e) {
      assert RequestFits(s.variants, s.requests[e.r]);
      CommitKeepsDefault(s.variants, s.requests[e.r]);
    }
  }

  lemma CommitKeepsDefault(variants: seq<Variant>, q: Request)
    requires RequestFits(variants, q) && OneDefault(variants)
    ensures OneDefault(Applied(variants, q)) <==>
      !(q.input.isDefault == Some(true) && exists i: nat :: IsUnseenDefault(variants, q, i))
  {
    var after := Applied(variants, q);
    if q.input.isDefault == Some(true) && exists i: nat :: IsUnseenDefault(variants, q, i) {
      var i: nat :| IsUnseenDefault(variants, q, i);
      assert after[i].isDefault && after[q.at].isDefault;
    } else {
      forall i: nat, j: nat | i < j < |after| && after[i].productId == after[j].productId
        ensures !(after[i].isDefault && after[j].isDefault)
      {
        assert !IsUnseenDefault(variants, q, i) || q.input.isDefault != Some(true);
        assert !IsUnseenDefault(variants, q, j) || q.input.isDefault != Some(true);
      }
    }
  }

  lemma NextKeepsSound(s: Shop, e: Event)
    requires Fit(s) && Sound(s.variants)
    ensures Sound(Next(s, e).variants) <==> !LateRefusal(s, e)
  {
    if Commits(s, e) {
      var q := s.requests[e.r];
      assert RequestFits(s.variants, q);
      var after := Applied(s.variants, q);
      assert VariantOk(after[q.at]) <==> !TermsRefused(s.variants[q.at], q.input);
      forall i | 0 <= i < |after| && i != q.at ensures VariantOk(after[i]) {
        assert VariantOk(s.variants[i]);
      }
    }
  }

  // --- whole runs ---------------------------------------------------------------------------------

  ghost predicate InOrder(s: Shop) {
    PricesTrue(s) && OneDefault(s.variants) && Sound(s.variants)
  }

  ghost predicate Breaks(s: Shop, e: Event) {
    StalePrice(s, e) || SecondDefault(s, e) || LateRefusal(s, e)
  }

  ghost predicate AlwaysInOrder(start: Shop, events: seq<Event>) {
    && InOrder(Run(start, events))
    && (events != [] ==> AlwaysInOrder(start, events[..|events| - 1]))
  }

  ghost predicate NeverBreaks(start: Shop, events: seq<Event>) {
    events != [] ==>
      && NeverBreaks(start, events[..|events| - 1])
      && !Breaks(Run(start, events[..|events| - 1]), events[|events| - 1])
  }

  /**
   * Over every interleaving of changes of terms: every cached price is the true minimum,
   * every product has at most one default and every strike-through is above its price,
   * throughout, exactly when no commit finds its minimum changed, a default its demotion
   * did not see, or its variant as the check would have refused it.
   */
  lemma {:induction false} RunStaysInOrder(start: Shop, events: seq<Event>)
    requires Fit(start) && InOrder(start)
    ensures AlwaysInOrder(start, events) <==> NeverBreaks(start, events)
  {
    if events != [] {
      var s, e := Run(start, events[..|events| - 1]), events[|events| - 1];
      RunStaysInOrder(start, events[..|events| - 1]);
      RunFits(start, events[..|events| - 1]);
      if InOrder(s) {
        NextKeepsPrices(s, e);
        NextKeepsDefault(s, e);
        NextKeepsSound(s, e);
      }
    }
  }

  // --- what it takes -----------------------------------------------------------------------------

  /** Some row of the request's product is not as it was when the prices were read. */
  predicate IsRowChanged(variants: seq<Variant>, q: Request) {
    exists i :: 0 <= i < |variants| && i < |q.rows| && variants[i].productId == q.Product() && variants[i] != q.rows[i]
  }

  lemma SameRowsSameMinimum(variants: seq<Variant>, q: Request)
    requires SameOwners(q.rows, variants) && !IsRowChanged(variants, q)
    ensures MinRead(q) == Cheapest(Applied(variants, q), q.Product())
  {
    CheapestOfOwn(Applied(q.rows, q), Applied(variants, q), q.Product());
  }

  /** A minimum goes stale only when another row of the product was committed since it was read. */
  lemma StaleIsOvertaken(s: Shop, e: Event)
    requires Fit(s) && StalePrice(s, e)
    ensures IsRowChanged(s.variants, s.requests[e.r])
  {
    assert RequestFits(s.variants, s.requests[e.r]);
    if !IsRowChanged(s.variants, s.requests[e.r]) { SameRowsSameMinimum(s.variants, s.requests[e.r]); }
  }

  lemma {:induction false} RunThen(start: Shop, a: seq<Event>, b: seq<Event>)
    ensures Run(start, a + b) == Run(Run(start, a), b)
  {
    if b == [] {
      assert a + b == a;
    } else {
      var n := |b| - 1;
      RunThen(start, a, b[..n]);
      assert (a + b)[..|a + b| - 1] == a + b[..n] && (a + b)[|a + b| - 1] == b[n];
    }
  }

  lemma RunOfTwo(start: Shop, a: Event, b: Event)
    ensures Run(start, [a, b]) == Next(Next(start, a), b)
  {
    assert [a, b][..1] == [a] && [a][..0] == [];
    assert Run(start, [a]) == Next(start, a);
  }

  /** A request after its look and its demotion. */
  function Ready(variants: seq<Variant>, at: nat, input: Terms): Request
    requires at < |variants|
  {
    var q := Request(at, input, variants[at], Looked, {}, []);
    q.(stage := Demoted, demotes := OtherDefaults(variants, q))
  }

  lemma LookAndDemote(s: Shop, r: nat, at: nat, input: Terms)
    requires CanLook(s, r, at, input)
    ensures Run(s, [Look(r, at, input), Demote(r)]) == With(s, r, Ready(s.variants, at, input))
  {
    RunOfTwo(s, Look(r, at, input), Demote(r));
    var looked := Next(s, Look(r, at, input));
    assert looked == With(s, r, Request(at, input, s.variants[at], Looked, {}, []));
  }

  lemma WriteAndRead(s: Shop, r: nat)
    requires IsAt(s, r, Demoted) && IsFree(s, r)
    ensures Run(s, [Write(r), Read(r)]) == With(s, r, s.requests[r].(stage := Priced, rows := s.variants))
  {
    RunOfTwo(s, Write(r), Read(r));
  }

  function Alone(r: nat, at: nat, input: Terms): seq<Event> {
    [Look(r, at, input), Demote(r)] + [Write(r), Read(r)] + [Commit(r)]
  }

  /** Nobody has written anything that is not committed. */
  predicate NothingLocked(s: Shop) {
    forall o :: o in s.requests ==> s.requests[o].stage.Looked? || s.requests[o].stage.Demoted?
  }

  lemma AloneReads(s: Shop, r: nat, at: nat, input: Terms)
    requires CanLook(s, r, at, input) && NothingLocked(s)
    ensures Run(s, [Look(r, at, input), Demote(r)] + [Write(r), Read(r)]) ==
      With(s, r, Ready(s.variants, at, input).(stage := Priced, rows := s.variants))
  {
    LookAndDemote(s, r, at, input);
    WriteAndRead(With(s, r, Ready(s.variants, at, input)), r);
    RunThen(s, [Look(r, at, input), Demote(r)], [Write(r), Read(r)]);
  }

  /** A request that nobody comes in between, while nobody holds what it writes. */
  lemma AloneRuns(s: Shop, r: nat, at: nat, input: Terms)
    requires CanLook(s, r, at, input) && NothingLocked(s)
    ensures var q := Ready(s.variants, at, input);
            Run(s, Alone(r, at, input)) ==
            Shop(Applied(s.variants, q), s.prices[q.Product() := Cheapest(Applied(s.variants, q), q.Product())], s.requests)
  {
    var before := [Look(r, at, input), Demote(r)] + [Write(r), Read(r)];
    var q := Ready(s.variants, at, input);
    var priced := q.(stage := Priced, rows := s.variants);
    AloneReads(s, r, at, input);
    RunThen(s, before, [Commit(r)]);
    CommitOfPriced(With(s, r, priced), r);
    SamePriced(s.variants, q);
    assert s.requests[r := priced] - {r} == s.requests;
  }

  lemma CommitOfPriced(s: Shop, r: nat)
    requires IsAt(s, r, Priced)
    ensures Run(s, [Commit(r)]) == Committed(s, r)
  {
    assert [Commit(r)][..0] == [];
  }

  lemma SamePriced(variants: seq<Variant>, q: Request)
    ensures var priced := q.(stage := Priced, rows := variants);
            Applied(variants, priced) == Applied(variants, q) && MinRead(priced) == Cheapest(Applied(variants, q), q.Product())
  {
    var priced := q.(stage := Priced, rows := variants);
    assert forall v :: Rewritten(v, priced) == Rewritten(v, q);
    assert Applied(variants, priced) == Applied(variants, q);
  }

  /** So it does what the catalogue's own write does. */
  lemma AloneIsSerial(s: Shop, db: Db, at: nat, input: Terms)
    requires s.requests == map[] && s.variants == db.variants && at < |db.variants| && !TermsRefused(db.variants[at], input)
    requires db.variants[at].productId in db.products
    ensures var product, done := db.variants[at].productId, Run(s, Alone(0, at, input));
            && done.variants == TermsSet(db, at, input).variants && done.requests == map[]
            && done.prices == s.prices[product := TermsSet(db, at, input).products[product].minPrice]
  {
    AloneRuns(s, 0, at, input);
    AppliedIsTermsSet(db, at, input);
  }

  lemma AppliedIsTermsSet(db: Db, at: nat, input: Terms)
    requires at < |db.variants|
    ensures Applied(db.variants, Ready(db.variants, at, input)) == TermsSet(db, at, input).variants
  {
    var q, after := Ready(db.variants, at, input), TermsSet(db, at, input).variants;
    forall i | 0 <= i < |after| ensures after[i] == Applied(db.variants, q)[i] {
      if i != at && !db.variants[i].isDefault { assert db.variants[i].(isDefault := false) == db.variants[i]; }
    }
  }

  // --- the runs in which each fails -----------------------------------------------------------------

  /** One request decides and demotes, another runs from beginning to end, and then the first goes on. */
  function Interrupted(at: nat, input: Terms, other: nat, otherInput: Terms): seq<Event> {
    [Look(1, at, input), Demote(1)] + Alone(0, other, otherInput) + [Write(1), Read(1)] + [Commit(1)]
  }

  lemma InterruptedRuns(s: Shop, at: nat, input: Terms, other: nat, otherInput: Terms)
    requires s.requests == map[] && CanLook(s, 1, at, input) && CanLook(s, 0, other, otherInput)
    ensures Run(s, Interrupted(at, input, other, otherInput)).variants ==
      Applied(Applied(s.variants, Ready(s.variants, other, otherInput)), Ready(s.variants, at, input))
  {
    var a, b, c := [Look(1, at, input), Demote(1)], Alone(0, other, otherInput), [Write(1), Read(1)];
    var q := Ready(s.variants, at, input);
    LookAndDemote(s, 1, at, input);
    RunThen(s, a, b);
    AloneRuns(With(s, 1, q), 0, other, otherInput);
    var middle := Run(s, a + b);
    assert middle.requests == map[1 := q];
    RunThen(s, a + b, c);
    WriteAndRead(middle, 1);
    RunThen(s, a + b + c, [Commit(1)]);
    CommitOfPriced(Run(s, a + b + c), 1);
    SameRows(middle.variants, q);
  }

  lemma SameRows(variants: seq<Variant>, q: Request)
    ensures Applied(variants, q.(stage := Priced, rows := variants)) == Applied(variants, q)
  {
    SamePriced(variants, q);
  }

  /** Two requests that each make their variant the default: both are. */
  lemma TwoDefaults(s: Shop, at: nat, input: Terms, other: nat, otherInput: Terms)
    requires s.requests == map[] && CanLook(s, 1, at, input) && CanLook(s, 0, other, otherInput)
    requires at != other && s.variants[at].productId == s.variants[other].productId && !s.variants[other].isDefault
    requires input.isDefault == otherInput.isDefault == Some(true)
    ensures !OneDefault(Run(s, Interrupted(at, input, other, otherInput)).variants)
  {
    InterruptedRuns(s, at, input, other, otherInput);
    var after := Run(s, Interrupted(at, input, other, otherInput)).variants;
    assert after[at].isDefault && after[other].isDefault;
  }

  function NoTerms(): Terms { Terms(None, None, None, None, None, None) }

  /** A new price and a strike-through above the old one only: the discount is an increase. */
  lemma StrikeBelowPrice(s: Shop, at: nat, price: nat, strike: nat)
    requires s.requests == map[] && at < |s.variants| && s.variants[at].compareAt.None?
    requires s.variants[at].price < strike <= price
    ensures var raise, mark := NoTerms().(price := Some(price)), NoTerms().(compareAt := Some(Some(strike)));
            var after := Run(s, Interrupted(at, mark, at, raise)).variants;
            at < |after| && !VariantOk(after[at])
  {
    InterruptedRuns(s, at, NoTerms().(compareAt := Some(Some(strike))), at, NoTerms().(price := Some(price)));
  }

  function UntilRead(at: nat, input: Terms, other: nat, otherInput: Terms): seq<Event> {
    [Look(0, at, input), Demote(0)] + [Look(1, other, otherInput), Demote(1)] + [Write(0), Read(0)] + [Write(1), Read(1)]
  }

  /** Two requests that both write and read before either commits. */
  function Together(at: nat, input: Terms, other: nat, otherInput: Terms): seq<Event> {
    UntilRead(at, input, other, otherInput) + [Commit(0)] + [Commit(1)]
  }

  function ReadBy(s: Shop, at: nat, input: Terms): Request
    requires at < |s.variants|
  {
    Ready(s.variants, at, input).(stage := Priced, rows := s.variants)
  }

  function BothUnderWay(s: Shop, p: Request, q: Request): Shop {
    s.(requests := map[0 := p, 1 := q])
  }

  lemma BothReady(s: Shop, at: nat, input: Terms, other: nat, otherInput: Terms)
    requires s.requests == map[] && CanLook(s, 0, at, input) && CanLook(s, 1, other, otherInput)
    ensures Run(s, [Look(0, at, input), Demote(0)] + [Look(1, other, otherInput), Demote(1)]) ==
      BothUnderWay(s, Ready(s.variants, at, input), Ready(s.variants, other, otherInput))
  {
    RunThen(s, [Look(0, at, input), Demote(0)], [Look(1, other, otherInput), Demote(1)]);
    LookAndDemote(s, 0, at, input);
    LookAndDemote(With(s, 0, Ready(s.variants, at, input)), 1, other, otherInput);
  }

  lemma OneReplaced(s: Shop, p: Request, q: Request, x: Request)
    ensures With(BothUnderWay(s, p, q), 0, x) == BothUnderWay(s, x, q)
    ensures With(BothUnderWay(s, p, q), 1, x) == BothUnderWay(s, p, x)
  {
  }

  lemma FirstWrites(s: Shop, p: Request, q: Request)
    requires p.stage.Demoted? && p.Locks() !! q.Locks()
    ensures Run(BothUnderWay(s, p, q), [Write(0), Read(0)]) == BothUnderWay(s, p.(stage := Priced, rows := s.variants), q)
  {
    WriteAndRead(BothUnderWay(s, p, q), 0);
    OneReplaced(s, p, q, p.(stage := Priced, rows := s.variants));
  }

  lemma SecondWrites(s: Shop, p: Request, q: Request)
    requires q.stage.Demoted? && p.Locks() !! q.Locks()
    ensures Run(BothUnderWay(s, p, q), [Write(1), Read(1)]) == BothUnderWay(s, p, q.(stage := Priced, rows := s.variants))
  {
    WriteAndRead(BothUnderWay(s, p, q), 1);
    OneReplaced(s, p, q, q.(stage := Priced, rows := s.variants));
  }

  lemma BothWrite(s: Shop, p: Request, q: Request)
    requires p.stage.Demoted? && q.stage.Demoted? && p.Locks() !! q.Locks()
    ensures Run(BothUnderWay(s, p, q), [Write(0), Read(0)] + [Write(1), Read(1)]) ==
      BothUnderWay(s, p.(stage := Priced, rows := s.variants), q.(stage := Priced, rows := s.variants))
  {
    RunThen(BothUnderWay(s, p, q), [Write(0), Read(0)], [Write(1), Read(1)]);
    FirstWrites(s, p, q);
    SecondWrites(s, p.(stage := Priced, rows := s.variants), q);
  }

  lemma BothRead(s: Shop, at: nat, input: Terms, other: nat, otherInput: Terms)
    requires s.requests == map[] && at != other && CanLook(s, 0, at, input) && CanLook(s, 1, other, otherInput)
    requires input.isDefault.None? && otherInput.isDefault.None?
    ensures Run(s, UntilRead(at, input, other, otherInput)) ==
      BothUnderWay(s, ReadBy(s, at, input), ReadBy(s, other, otherInput))
  {
    var ready, read := [Look(0, at, input), Demote(0)] + [Look(1, other, otherInput), Demote(1)],
                       [Write(0), Read(0)] + [Write(1), Read(1)];
    assert UntilRead(at, input, other, otherInput) == ready + read;
    BothReady(s, at, input, other, otherInput);
    RunThen(s, ready, read);
    BothWrite(s, Ready(s.variants, at, input), Ready(s.variants, other, otherInput));
  }

  lemma TogetherRuns(s: Shop, at: nat, input: Terms, other: nat, otherInput: Terms)
    requires s.requests == map[] && at != other && CanLook(s, 0, at, input) && CanLook(s, 1, other, otherInput)
    requires input.isDefault.None? && otherInput.isDefault.None?
    ensures var p, q := Ready(s.variants, at, input), Ready(s.variants, other, otherInput);
            var done := Run(s, Together(at, input, other, otherInput));
            && done.variants == Applied(Applied(s.variants, p), q)
            && q.Product() in done.prices && done.prices[q.Product()] == Cheapest(Applied(s.variants, q), q.Product())
  {
    var p, q := ReadBy(s, at, input), ReadBy(s, other, otherInput);
    var read := BothUnderWay(s, p, q);
    var before := UntilRead(at, input, other, otherInput);
    BothRead(s, at, input, other, otherInput);
    RunThen(s, before, [Commit(0)]);
    CommitOfPriced(read, 0);
    RunThen(s, before + [Commit(0)], [Commit(1)]);
    CommitOfPriced(Committed(read, 0), 1);
    SamePriced(s.variants, Ready(s.variants, at, input));
    SamePriced(s.variants, Ready(s.variants, other, otherInput));
    AppliedAlike(Applied(s.variants, p), q, Ready(s.variants, other, otherInput));
  }

  lemma AppliedAlike(variants: seq<Variant>, q: Request, q': Request)
    requires q.at == q'.at && q.input == q'.input && q.seen == q'.seen && q.demotes == q'.demotes
    ensures Applied(variants, q) == Applied(variants, q')
  {
    assert forall v :: Rewritten(v, q) == Rewritten(v, q');
  }

  lemma CheapestOfBoth(v: Variant, w: Variant)
    requires v.productId == w.productId && v.status.PUBLISHED? && w.status.PUBLISHED?
    ensures Cheapest([v, w], v.productId) == Some(if w.price < v.price then w.price else v.price)
  {
    assert [v, w][..1] == [v] && [v][..0] == [];
    assert Cheapest([v], v.productId) == Some(v.price);
  }

  /** The only two variants of a product raised at once: the cached price stays the old one of the first. */
  lemma StaleMinimum(s: Shop, v: Variant, w: Variant, price: nat)
    requires s.requests == map[] && s.variants == [v, w] && v.productId == w.productId
    requires v.status.PUBLISHED? && w.status.PUBLISHED? && v.compareAt.None? && w.compareAt.None?
    requires v.price < price
    ensures var raise := NoTerms().(price := Some(price)); !PricesTrue(Run(s, Together(0, raise, 1, raise)))
  {
    var raise := NoTerms().(price := Some(price));
    TogetherRuns(s, 0, raise, 1, raise);
    var p, q := Ready(s.variants, 0, raise), Ready(s.variants, 1, raise);
    var v', w' := Rewritten(v, p), Rewritten(w, q);
    assert Applied(s.variants, q) == [v, w'];
    assert Applied(Applied(s.variants, p), q) == [v', w'];
    CheapestOfBoth(v, w');
    CheapestOfBoth(v', w');
  }
}
