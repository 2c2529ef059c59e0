/**
 * Runs of creates, status changes and renames of pages, posts and brands over
 * one redirect map, starting from nothing.
 */
module ContentSite {
  import opened Options
  import opened Redirects
  import opened Slugs

  /** A group of rows under one slug; `published` when any row of the group is. */
  datatype Item = Item(kind: Kind, slug: string, published: bool) {
    function Address(): Path { ContentPath(kind, slug) }

    /** A brand's move is always recorded, a page's or post's only when published. */
    predicate MoveIsRecorded() { kind.Brand? || published }
  }

  /** `holder` remembers, for every address ever held, who held it last. */
  datatype Site = Site(items: map<nat, Item>, redirects: Table, holder: map<Path, nat>) {
    function Addresses(): map<nat, Path> { map i | i in items :: items[i].Address() }

    /** Slugs are unique within a kind. */
    predicate Taken(kind: Kind, slug: string) {
      exists i :: i in items && items[i].kind == kind && items[i].slug == slug
    }

    predicate SlugRefused(kind: Kind, slug: string) {
      !IsSlug(slug) || (kind.Page? && slug in RESERVED_PAGE_SLUGS) || Taken(kind, slug)
    }

    /** Whether an operation goes through; a refused one leaves everything as it was. */
    predicate Accepts(op: Op) {
      match op
      case Create(id, kind, slug) => id !in items && !SlugRefused(kind, slug)
      case SetPublished(id, _) => id in items
      case Rename(id, slug, _) =>
        && id in items
        && slug != items[id].slug
        && !(items[id].kind.Page? && items[id].slug in PINNED_PAGE_SLUGS)
        && !SlugRefused(items[id].kind, slug)
    }

    function Apply(op: Op): Site {
      if !Accepts(op) then this else
      match op
      case Create(id, kind, slug) =>
        // Created as a draft, empty; no redirect is written or removed.
        this.(items := items[id := Item(kind, slug, false)],
              holder := holder[ContentPath(kind, slug) := id])
      case SetPublished(id, published) =>
        this.(items := items[id := items[id].(published := published)])
      case Rename(id, slug, actorId) =>
        var was := items[id];
        var now := was.(slug := slug);
        Site(
          items[id := now],
          if was.MoveIsRecorded()
          then Moved(redirects, was.Address(), now.Address(), actorId)
          else redirects,
          holder[now.Address() := id])
    }

    /** A rename that goes through without writing to the redirect map. */
    predicate RenamesUnrecorded(op: Op) {
      op.Rename? && Accepts(op) && !items[op.id].MoveIsRecorded()
    }

    ghost predicate Valid() {
      (forall i :: i in items ==> IsSlug(items[i].slug)) && Placed(Addresses(), holder)
    }

    /** Every row a rename wrote answers 301 and is switched on. */
    ghost predicate AllActive() {
      forall a :: a in redirects ==> redirects[a].isActive && redirects[a].code == 301
    }
  }

  datatype Op =
    | Create(id: nat, kind: Kind, slug: string)
    | SetPublished(id: nat, published: bool)
    | Rename(id: nat, slug: string, actorId: Option<string>)

  function Run(ops: seq<Op>): Site {
    if ops == [] then Site(map[], map[], map[]) else Run(ops[..|ops| - 1]).Apply(ops[|ops| - 1])
  }

  /** Every rename the run carried out was of a published page or post, or of a brand. */
  ghost predicate RenamesPublishedOnly(ops: seq<Op>) {
    ops != [] ==>
      && RenamesPublishedOnly(ops[..|ops| - 1])
      && !Run(ops[..|ops| - 1]).RenamesUnrecorded(ops[|ops| - 1])
  }

  // --- who lives where, without the slugs ---------------------------------------

  type Addresses = map<nat, Path>

  /** Addresses are distinct and the holder map knows every one of them. */
  ghost predicate Placed(at: Addresses, holder: map<Path, nat>) {
    && (forall i, j :: i in at && j in at && at[i] == at[j] ==> i == j)
    && (forall i :: i in at ==> at[i] in holder && holder[at[i]] == i)
    && (forall a :: a in holder ==> holder[a] in at)
  }

  ghost predicate Occupied(at: Addresses, a: Path) {
    exists i :: i in at && at[i] == a
  }

  /** Every address ever held leads to its last holder, directly or through one redirect. */
  ghost predicate AllResolve(at: Addresses, m: Table, holder: map<Path, nat>)
    requires Placed(at, holder)
  {
    forall a :: a in holder ==>
      a == at[holder[a]] || (a in m && m[a].to == at[holder[a]])
  }

  /** Every redirect lands on an address some item has now. */
  ghost predicate NoDeadRedirect(at: Addresses, m: Table) {
    forall a :: a in m ==> Occupied(at, m[a].to)
  }

  /** Something new, or something that moves, takes an address that is free. */
  lemma TakingKeepsPlaced(at: Addresses, holder: map<Path, nat>, id: nat, to: Path)
    requires Placed(at, holder) && !Occupied(at, to)
    ensures Placed(at[id := to], holder[to := id])
  {
  }

  lemma MoveResolves(at: Addresses, m: Table, holder: map<Path, nat>,
                     id: nat, to: Path, actorId: Option<string>)
    requires Placed(at, holder) && AllResolve(at, m, holder)
    requires id in at && !Occupied(at, to)
    ensures Placed(at[id := to], holder[to := id])
    ensures AllResolve(at[id := to], Moved(m, at[id], to, actorId), holder[to := id])
  {
    var m' := Moved(m, at[id], to, actorId);
    TakingKeepsPlaced(at, holder, id, to);
    assert at[id] != to;
    forall a | a in holder && a != to
      ensures a == at[id := to][holder[a]] || (a in m' && m'[a].to == at[id := to][holder[a]])
    {
      if a in m && holder[a] != id && m[a].to == at[holder[a]] { assert m[a].to != at[id]; }
    }
  }

  lemma MoveKeepsLive(at: Addresses, m: Table, id: nat, to: Path, actorId: Option<string>)
    requires NoDeadRedirect(at, m)
    requires id in at && !Occupied(at, to)
    ensures NoDeadRedirect(at[id := to], Moved(m, at[id], to, actorId))
  {
    var from, at' := at[id], at[id := to];
    var m' := Moved(m, from, to, actorId);
    assert from != to && at'[id] == to;
    forall a | a in m' && m'[a].to != to ensures Occupied(at', m'[a].to) {
      assert a in m && m[a].to == m'[a].to;
      var i :| i in at && at[i] == m[a].to;
      assert at'[i] == m'[a].to;
    }
  }

  /** Leaving an address without telling the map is safe exactly when nothing points there. */
  lemma LeavingKeepsLive(at: Addresses, m: Table, id: nat, to: Path)
    requires NoDeadRedirect(at, m)
    requires id in at && !Occupied(at, to)
    requires forall j :: j in at && at[j] == at[id] ==> j == id
    ensures NoDeadRedirect(at[id := to], m) <==> forall a :: a in m ==> m[a].to != at[id]
  {
    var at' := at[id := to];
    assert at[id] != to && !Occupied(at', at[id]);
    forall a | a in m && m[a].to != at[id] ensures Occupied(at', m[a].to) {
      var i :| i in at && at[i] == m[a].to;
      assert at'[i] == m[a].to;
    }
  }

  // --- what an operation stores ---------------------------------------------------

  /**
   * What an accepted operation does. A create adds a draft and touches no redirect. A status
   * change is that and nothing more. A rename changes the slug alone; of a brand, or of
   * anything published, it leaves a permanent redirect from the old address to the new one
   * and none at the new one, and of anything else it leaves the redirects as they are.
   */
  lemma ApplyStores(s: Site, op: Op)
    requires s.Accepts(op)
    ensures var s' := s.Apply(op);
            && (forall i :: i in s.items && i != op.id ==> i in s'.items && s'.items[i] == s.items[i])
            && s'.items.Keys == s.items.Keys + {op.id}
            && match op
               case Create(id, kind, slug) =>
                 id !in s.items && s'.items[id] == Item(kind, slug, false) && s'.redirects == s.redirects
               case SetPublished(id, published) =>
                 s'.items[id] == Item(s.items[id].kind, s.items[id].slug, published) && s'.redirects == s.redirects
               case Rename(id, slug, actorId) =>
                 && s'.items[id] == Item(s.items[id].kind, slug, s.items[id].published)
                 && var from, to := ContentPath(s.items[id].kind, s.items[id].slug), ContentPath(s.items[id].kind, slug);
                    if s.items[id].kind == Brand || s.items[id].published
                    then from != to && LeadsTo(s'.redirects, from, to) && to !in s'.redirects
                    else s'.redirects == s.redirects
  {
    match op
    case Rename(id, slug, actorId) =>
      PathsDiffer(s.items[id].kind, s.items[id].slug, slug);
      MoveStores(s.redirects, ContentPath(s.items[id].kind, s.items[id].slug), ContentPath(s.items[id].kind, slug), actorId);
    case _ =>
  }

  lemma PathsDiffer(kind: Kind, a: string, b: string)
    requires a != b
    ensures ContentPath(kind, a) != ContentPath(kind, b)
  {
    assert ContentPath(kind, a)[PrefixLength(kind)..] == a && ContentPath(kind, b)[PrefixLength(kind)..] == b;
  }

  // --- one step -------------------------------------------------------------------

  /** An accepted new address is nobody's. */
  lemma FreshAddress(s: Site, kind: Kind, slug: string)
    requires s.Valid() && !s.SlugRefused(kind, slug)
    ensures !Occupied(s.Addresses(), ContentPath(kind, slug))
  {
    forall i | i in s.items ensures s.Addresses()[i] != ContentPath(kind, slug) {
      ContentPathInjective(s.items[i].kind, s.items[i].slug, kind, slug);
    }
  }

  lemma CreateAddresses(s: Site, id: nat, kind: Kind, slug: string)
    requires s.Valid() && s.Accepts(Create(id, kind, slug))
    ensures s.Apply(Create(id, kind, slug)).Addresses() == s.Addresses()[id := ContentPath(kind, slug)]
    ensures !Occupied(s.Addresses(), ContentPath(kind, slug))
  {
    FreshAddress(s, kind, slug);
  }

  lemma RenameAddresses(s: Site, id: nat, slug: string, actorId: Option<string>)
    requires s.Valid() && s.Accepts(Rename(id, slug, actorId))
    ensures s.Apply(Rename(id, slug, actorId)).Addresses() == s.Addresses()[id := ContentPath(s.items[id].kind, slug)]
    ensures !Occupied(s.Addresses(), ContentPath(s.items[id].kind, slug))
  {
    FreshAddress(s, s.items[id].kind, slug);
  }

  /** What an operation does to the addresses. */
  lemma ApplyAddresses(s: Site, op: Op)
    requires s.Valid() && s.Accepts(op)
    ensures s.Apply(op).Addresses() ==
      match op
      case Create(id, kind, slug) => s.Addresses()[id := ContentPath(kind, slug)]
      case SetPublished(_, _) => s.Addresses()
      case Rename(id, slug, _) => s.Addresses()[id := ContentPath(s.items[id].kind, slug)]
    ensures op.Create? ==> !Occupied(s.Addresses(), ContentPath(op.kind, op.slug))
    ensures op.Rename? ==> !Occupied(s.Addresses(), ContentPath(s.items[op.id].kind, op.slug))
  {
    match op
    case Create(id, kind, slug) => CreateAddresses(s, id, kind, slug);
    case Rename(id, slug, actorId) => RenameAddresses(s, id, slug, actorId);
    case SetPublished(_, _) =>
  }

  lemma ApplyKeepsValid(s: Site, op: Op)
    requires s.Valid()
    ensures s.Apply(op).Valid()
  {
    if s.Accepts(op) {
      ApplyAddresses(s, op);
      match op
      case Create(id, kind, slug) => TakingKeepsPlaced(s.Addresses(), s.holder, id, ContentPath(kind, slug));
      case Rename(id, slug, _) =>
        TakingKeepsPlaced(s.Addresses(), s.holder, id, ContentPath(s.items[id].kind, slug));
      case SetPublished(_, _) =>
    }
  }

  lemma ApplyKeepsFlat(s: Site, op: Op)
    requires Flat(s.redirects) && s.AllActive()
    ensures Flat(s.Apply(op).redirects) && s.Apply(op).AllActive()
  {
    if s.Accepts(op) && op.Rename? {
      MoveKeepsFlat(s.redirects, s.items[op.id].Address(),
                    s.items[op.id].(slug := op.slug).Address(), op.actorId);
    }
  }

  lemma ApplyKeepsResolving(s: Site, op: Op)
    requires s.Valid() && AllResolve(s.Addresses(), s.redirects, s.holder)
    requires !s.RenamesUnrecorded(op)
    ensures var s' := s.Apply(op);
            s'.Valid() && AllResolve(s'.Addresses(), s'.redirects, s'.holder)
  {
    ApplyKeepsValid(s, op);
    if s.Accepts(op) {
      ApplyAddresses(s, op);
      if op.Rename? {
        MoveResolves(s.Addresses(), s.redirects, s.holder,
                     op.id, ContentPath(s.items[op.id].kind, op.slug), op.actorId);
      }
    }
  }

  // --- over whole runs ------------------------------------------------------------

  /** Whatever is created, renamed and published: no redirect ever points at a redirect. */
  lemma {:induction false} RunIsFlat(ops: seq<Op>)
    ensures Run(ops).Valid() && Flat(Run(ops).redirects) && Run(ops).AllActive()
  {
    if ops != [] {
      var before := ops[..|ops| - 1];
      RunIsFlat(before);
      ApplyKeepsValid(Run(before), ops[|ops| - 1]);
      ApplyKeepsFlat(Run(before), ops[|ops| - 1]);
    }
  }

  lemma {:induction false} RunResolves(ops: seq<Op>)
    requires RenamesPublishedOnly(ops)
    ensures Run(ops).Valid()
    ensures AllResolve(Run(ops).Addresses(), Run(ops).redirects, Run(ops).holder)
  {
    if ops != [] {
      RunResolves(ops[..|ops| - 1]);
      ApplyKeepsResolving(Run(ops[..|ops| - 1]), ops[|ops| - 1]);
    }
  }

  /**
   * After any run whose renames were all of published content, an address that
   * was once held and now is not leads in exactly one hop to where its last
   * holder lives.
   */
  lemma VacatedAddressesRedirect(ops: seq<Op>, a: Path)
    requires RenamesPublishedOnly(ops)
    requires a in Run(ops).holder && !Occupied(Run(ops).Addresses(), a)
    ensures var s := Run(ops);
            && s.holder[a] in s.items
            && a in s.redirects && s.redirects[a].isActive && s.redirects[a].code == 301
            && s.redirects[a].to == s.items[s.holder[a]].Address()
            && Ends(s.redirects, a, s.redirects[a].to)
  {
    RunResolves(ops);
    RunIsFlat(ops);
    var s := Run(ops);
    assert s.Addresses()[s.holder[a]] != a;
    assert Hop(s.redirects, a, 0) == a;
    assert Hop(s.redirects, a, 1) == s.redirects[a].to;
  }

  // --- renaming what is not published -----------------------------------------------

  /**
   * No operation leaves a redirect pointing at nobody, except a rename of an
   * unpublished page or post; and that one does exactly when some redirect
   * points at the address it leaves.
   */
  lemma ApplyKeepsLive(s: Site, op: Op)
    requires s.Valid() && NoDeadRedirect(s.Addresses(), s.redirects)
    ensures NoDeadRedirect(s.Apply(op).Addresses(), s.Apply(op).redirects) <==>
      !(s.RenamesUnrecorded(op) &&
        exists a :: a in s.redirects && s.redirects[a].to == s.items[op.id].Address())
  {
    var at := s.Addresses();
    if s.Accepts(op) {
      ApplyAddresses(s, op);
      match op
      case Create(id, kind, slug) =>
        forall a | a in s.redirects
          ensures Occupied(at[id := ContentPath(kind, slug)], s.redirects[a].to)
        {
          var i :| i in at && at[i] == s.redirects[a].to;
          assert at[id := ContentPath(kind, slug)][i] == s.redirects[a].to;
        }
      case SetPublished(_, _) =>
      case Rename(id, slug, actorId) =>
        var to := ContentPath(s.items[id].kind, slug);
        if s.items[id].MoveIsRecorded() {
          MoveKeepsLive(at, s.redirects, id, to, actorId);
        } else {
          LeavingKeepsLive(at, s.redirects, id, to);
        }
    }
  }

  /**
   * And that can happen: a published page or post that was renamed and then
   * taken down is pointed at by a redirect, and whatever it is renamed to next, that
   * redirect is left pointing at nobody.
   */
  lemma TakenDownAfterRename(s: Site, id: nat, slug: string, actorId: Option<string>, next: string)
    requires s.Valid() && id in s.items && s.items[id].published && !s.items[id].kind.Brand?
    requires s.Accepts(Rename(id, slug, actorId))
    ensures var t := s.Apply(Rename(id, slug, actorId)).Apply(SetPublished(id, false));
            t.Accepts(Rename(id, next, actorId)) ==>
              var u := t.Apply(Rename(id, next, actorId));
              !NoDeadRedirect(u.Addresses(), u.redirects)
  {
    var renamed := s.Apply(Rename(id, slug, actorId));
    var t := renamed.Apply(SetPublished(id, false));
    RedirectedTo(s, id, slug, actorId);
    ApplyKeepsValid(s, Rename(id, slug, actorId));
    ApplyKeepsValid(renamed, SetPublished(id, false));
    if t.Accepts(Rename(id, next, actorId)) { UnrecordedStrands(t, id, next, actorId, s.items[id].Address()); }
  }

  /** An unrecorded rename strands every redirect that points at the address it leaves. */
  lemma UnrecordedStrands(t: Site, id: nat, next: string, actorId: Option<string>, a: Path)
    requires t.Valid() && t.Accepts(Rename(id, next, actorId)) && !t.items[id].MoveIsRecorded()
    requires a in t.redirects && t.redirects[a].to == t.items[id].Address()
    ensures var u := t.Apply(Rename(id, next, actorId)); !NoDeadRedirect(u.Addresses(), u.redirects)
  {
    var u := t.Apply(Rename(id, next, actorId));
    RenameAddresses(t, id, next, actorId);
    assert t.Addresses()[id] == t.items[id].Address() && u.redirects == t.redirects;
    assert !Occupied(u.Addresses(), t.redirects[a].to);
  }

  lemma RedirectedTo(s: Site, id: nat, slug: string, actorId: Option<string>)
    requires s.Valid() && id in s.items && s.items[id].published
    requires s.Accepts(Rename(id, slug, actorId))
    ensures var t := s.Apply(Rename(id, slug, actorId)).Apply(SetPublished(id, false));
            && id in t.items && t.items[id] == s.items[id].(slug := slug, published := false)
            && s.items[id].Address() in t.redirects
            && t.redirects[s.items[id].Address()].to == t.items[id].Address()
  {
    RenameAddresses(s, id, slug, actorId);
    assert s.Addresses()[id] == s.items[id].Address();
  }

  lemma RunOfFive(a: Op, b: Op, c: Op, d: Op, e: Op)
    ensures Run([a, b, c, d, e]) == Site(map[], map[], map[]).Apply(a).Apply(b).Apply(c).Apply(d).Apply(e)
  {
    assert [a, b, c, d, e][..4] == [a, b, c, d] && [a, b, c, d][..3] == [a, b, c];
    assert [a, b, c][..2] == [a, b] && [a, b][..1] == [a] && [a][..0] == [];
    assert Run([a]) == Run([]).Apply(a);
    assert Run([a, b, c]) == Run([a, b]).Apply(c);
  }

  /** Created and published from nothing. */
  lemma FirstPost(slug: string)
    requires IsSlug(slug)
    ensures var s := Site(map[], map[], map[]).Apply(Create(0, Post, slug)).Apply(SetPublished(0, true));
            s.Valid() && s.items == map[0 := Item(Post, slug, true)]
  {
    var empty := Site(map[], map[], map[]);
    ApplyKeepsValid(empty, Create(0, Post, slug));
    ApplyKeepsValid(empty.Apply(Create(0, Post, slug)), SetPublished(0, true));
  }

  /** From nothing: create a post, publish it, rename it, take it down, rename it again. */
  lemma StrandingRun(a: string, b: string, c: string)
    requires IsSlug(a) && IsSlug(b) && IsSlug(c) && a != b && b != c
    ensures var s := Run([Create(0, Post, a), SetPublished(0, true), Rename(0, b, None), SetPublished(0, false),
                          Rename(0, c, None)]);
            !NoDeadRedirect(s.Addresses(), s.redirects)
  {
    RunOfFive(Create(0, Post, a), SetPublished(0, true), Rename(0, b, None), SetPublished(0, false), Rename(0, c, None));
    FirstPost(a);
    var s := Site(map[], map[], map[]).Apply(Create(0, Post, a)).Apply(SetPublished(0, true));
    RedirectedTo(s, 0, b, None);
    var t := s.Apply(Rename(0, b, None)).Apply(SetPublished(0, false));
    assert t.items.Keys == {0} && t.Accepts(Rename(0, c, None));
    TakenDownAfterRename(s, 0, b, None, c);
  }
}
