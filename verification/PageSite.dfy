/**
 * The page service seen as runs of the site.
 *
 * `PageHistory` keeps rows, versions and languages; `ContentSite` keeps only where
 * each group lives. Every operation of the service is a few operations of the site
 * on the same redirect map, so what is proved of the site's runs holds of the
 * service's.
 */
module PageSite {
  import opened Options
  import opened Redirects
  import opened Slugs
  import opened PageHistory
  import PageRuns
  import ContentSite

  /** All the site needs of a row: its group's slug, and whether it is published. */
  datatype Place = Place(slug: string, published: bool)

  type Places = map<nat, Place>

  function PlacesOf(pages: map<nat, PageRow>): Places {
    map id | id in pages :: Place(pages[id].slug, pages[id].status.PUBLISHED?)
  }

  predicate IsUsed(places: Places, slug: string) {
    exists id :: id in places && places[id].slug == slug
  }

  predicate IsPublished(places: Places, slug: string) {
    exists id :: id in places && places[id].slug == slug && places[id].published
  }

  type Items = map<nat, ContentSite.Item>

  predicate HasItem(items: Items, slug: string) {
    exists i :: i in items && items[i].slug == slug
  }

  /** A page whose slug some row has, published when any of those rows is. */
  predicate Fits(places: Places, item: ContentSite.Item) {
    item.kind.Page? && IsUsed(places, item.slug) && item.published == IsPublished(places, item.slug)
  }

  /** One item for every slug in use. */
  ghost predicate Groups(places: Places, items: Items) {
    && (forall i :: i in items ==> Fits(places, items[i]))
    && (forall id :: id in places ==> HasItem(items, places[id].slug))
  }

  ghost predicate Mirrors(db: Db, s: ContentSite.Site) {
    && s.redirects == db.redirects
    && Groups(PlacesOf(db.pages), s.items)
    && forall i :: i in s.items ==> i < db.nextId
  }

  // --- groups -----------------------------------------------------------------------------

  lemma UsedAlike(db: Db, slug: string)
    ensures db.Taken(slug) <==> IsUsed(PlacesOf(db.pages), slug)
    ensures db.WasPublished(slug) <==> IsPublished(PlacesOf(db.pages), slug)
  {
    var places := PlacesOf(db.pages);
    if db.Taken(slug) {
      var id :| id in db.pages && db.pages[id].slug == slug;
      assert places[id].slug == slug;
    }
    if db.WasPublished(slug) {
      var id :| id in db.pages && db.pages[id].slug == slug && db.pages[id].status.PUBLISHED?;
      assert places[id].slug == slug && places[id].published;
    }
  }

  lemma TakenAlike(places: Places, s: ContentSite.Site, slug: string)
    requires Groups(places, s.items)
    ensures s.Taken(Kind.Page, slug) <==> IsUsed(places, slug)
  {
    if IsUsed(places, slug) {
      var id :| id in places && places[id].slug == slug;
      var i :| i in s.items && s.items[i].slug == slug;
    }
  }

  /** A new row under a slug of its own is a new item. */
  lemma NewGroup(places: Places, items: Items, n: nat, slug: string)
    requires Groups(places, items) && n !in places && n !in items && !IsUsed(places, slug)
    ensures Groups(places[n := Place(slug, false)], items[n := ContentSite.Item(Kind.Page, slug, false)])
  {
    var places', items' := places[n := Place(slug, false)], items[n := ContentSite.Item(Kind.Page, slug, false)];
    forall i | i in items ensures Fits(places', items[i]) {
      assert Fits(places, items[i]);
      SameAway(places, places', slug, items[i].slug);
    }
    assert places'[n].slug == slug && items'[n].slug == slug;
    assert !IsPublished(places', slug);
    assert Fits(places', items'[n]);
    forall id | id in places' ensures HasItem(items', places'[id].slug) {
      if id != n {
        var i :| i in items && items[i].slug == places[id].slug;
        assert items'[i] == items[i];
      }
    }
  }

  /** Rows that are neither in `a` before nor in `a` after are what they were. */
  lemma SameAway(places: Places, places': Places, a: string, x: string)
    requires x != a
    requires forall id :: id in places && places[id].slug == x ==> id in places' && places'[id] == places[id]
    requires forall id :: id in places' && places'[id].slug == x ==> id in places && places'[id] == places[id]
    ensures IsUsed(places', x) == IsUsed(places, x) && IsPublished(places', x) == IsPublished(places, x)
  {
    if id :| id in places && places[id].slug == x { assert places'[id] == places[id]; }
    if id :| id in places && places[id].slug == x && places[id].published { assert places'[id] == places[id]; }
  }

  /** The rows of one group under their new slug, some perhaps with a new status, perhaps one row more. */
  ghost predicate RowsMove(places: Places, places': Places, slug: string, to: string) {
    && (forall id :: id in places && places[id].slug == slug ==> id in places' && places'[id].slug == to)
    && (forall id :: id in places && places[id].slug != slug ==> id in places' && places'[id] == places[id])
    && (forall id :: id in places' && id !in places ==> places'[id].slug == to)
  }

  lemma OtherGroups(places: Places, places': Places, items: Items, i: nat, to: string, j: nat)
    requires Groups(places, items) && i in items && j in items && items[j].slug != items[i].slug && items[j].slug != to
    requires RowsMove(places, places', items[i].slug, to)
    ensures Fits(places', items[j])
  {
    assert Fits(places, items[j]);
    SameAway(places, places', to, items[j].slug);
  }

  lemma MovedGroup(places: Places, places': Places, slug: string, to: string)
    requires RowsMove(places, places', slug, to) && IsUsed(places, slug)
    ensures Fits(places', ContentSite.Item(Kind.Page, to, IsPublished(places', to)))
  {
    var row :| row in places && places[row].slug == slug;
    assert places'[row].slug == to;
  }

  lemma GroupsHaveItems(places: Places, places': Places, items: Items, i: nat, to: string, published: bool)
    requires Groups(places, items) && i in items && RowsMove(places, places', items[i].slug, to)
    ensures var items' := items[i := ContentSite.Item(Kind.Page, to, published)];
            forall id :: id in places' ==> HasItem(items', places'[id].slug)
  {
    var items' := items[i := ContentSite.Item(Kind.Page, to, published)];
    forall id | id in places' ensures HasItem(items', places'[id].slug) {
      if id in places && places[id].slug != items[i].slug {
        var j :| j in items && items[j].slug == places[id].slug;
        assert items'[j] == items[j];
      } else {
        assert items'[i].slug == to;
      }
    }
  }

  lemma GroupMoves(places: Places, places': Places, items: Items, i: nat, to: string)
    requires Groups(places, items) && i in items
    requires forall j :: j in items && items[j].slug == items[i].slug ==> j == i
    requires RowsMove(places, places', items[i].slug, to) && (to == items[i].slug || !IsUsed(places, to))
    ensures Groups(places', items[i := ContentSite.Item(Kind.Page, to, IsPublished(places', to))])
  {
    assert Fits(places, items[i]);
    MovedGroup(places, places', items[i].slug, to);
    forall j | j in items && j != i ensures Fits(places', items[j]) {
      assert Fits(places, items[j]);
      OtherGroups(places, places', items, i, to, j);
    }
    GroupsHaveItems(places, places', items, i, to, IsPublished(places', to));
  }

  // --- the operations ------------------------------------------------------------------------

  /** A free slug is accepted by both. */
  lemma UsableAlike(db: Db, s: ContentSite.Site, slug: string)
    requires Mirrors(db, s)
    ensures SlugUsable(db, slug) <==> !s.SlugRefused(Kind.Page, slug)
  {
    UsedAlike(db, slug);
    TakenAlike(PlacesOf(db.pages), s, slug);
  }

  lemma CreateMirrors(db: Db, s: ContentSite.Site, slug: string, locale: Locale, title: string, template: string)
    requires db.Valid() && Mirrors(db, s) && SlugUsable(db, slug)
    ensures s.Accepts(ContentSite.Create(db.nextId, Kind.Page, slug))
    ensures Mirrors(Created(db, slug, locale, title, template), s.Apply(ContentSite.Create(db.nextId, Kind.Page, slug)))
  {
    var places := PlacesOf(db.pages);
    UsableAlike(db, s, slug);
    UsedAlike(db, slug);
    NewGroup(places, s.items, db.nextId, slug);
    CreatedPlaces(db, slug, locale, title, template);
  }

  lemma CreatedPlaces(db: Db, slug: string, locale: Locale, title: string, template: string)
    requires SlugUsable(db, slug)
    ensures var db' := Created(db, slug, locale, title, template);
            && PlacesOf(db'.pages) == PlacesOf(db.pages)[db.nextId := Place(slug, false)]
            && db'.redirects == db.redirects && db'.nextId == db.nextId + 1
  {
  }

  lemma RestoreMirrors(db: Db, s: ContentSite.Site, slug: string, version: nat)
    requires Mirrors(db, s)
    ensures Mirrors(Restored(db, slug, version), s)
  {
    assert PlacesOf(Restored(db, slug, version).pages) == PlacesOf(db.pages);
  }

  lemma RegroupedPlaces(pages: map<nat, PageRow>, slug: string, next: Option<string>, template: Option<string>)
    ensures RowsMove(PlacesOf(pages), PlacesOf(Regrouped(pages, slug, next, template)), slug, next.GetOr(slug))
  {
  }

  /** A language's save keeps every slug, and adds at most one row, under the group's. */
  lemma TranslatedPlaces(
    db: Db, pages: map<nat, PageRow>, to: string, template: string, row: Option<nat>, t: Translation, now: int)
    requires row.Some? ==> row.value in db.pages && row.value in pages && pages[row.value].slug == to
    requires row.None? ==> db.nextId !in pages
    ensures var after := PlacesOf(Translated(db, pages, to, template, row, t, now).pages);
            && (forall id :: id in pages ==> id in after && after[id].slug == pages[id].slug)
            && (forall id :: id in pages && pages[id].slug != to ==> after[id] == PlacesOf(pages)[id])
            && (forall id :: id in after && id !in pages ==> after[id].slug == to)
  {
  }

  lemma UpdatedPlaces(db: Db, slug: string, input: SetPage, now: int, actorId: Option<string>)
    requires db.Valid() && !Refuses(db, slug, input)
    ensures var db' := Updated(db, slug, input, now, actorId);
            && RowsMove(PlacesOf(db.pages), PlacesOf(db'.pages), slug, NextSlug(slug, input).GetOr(slug))
            && db'.redirects == MovedRedirects(db, slug, NextSlug(slug, input), actorId)
            && db.nextId <= db'.nextId
  {
    var next := NextSlug(slug, input);
    var pages := Regrouped(db.pages, slug, next, input.template);
    RegroupedPlaces(db.pages, slug, next, input.template);
    if input.translation.Some? {
      var t := input.translation.value;
      UsedAlike(db, next.GetOr(slug));
      TranslatedPlaces(db, pages, next.GetOr(slug), input.template.GetOr(TemplateOf(db, slug)), db.Row(slug, t.locale), t, now);
    }
  }

  /** What a group's item goes through: its new slug, and whether any of its rows is published now. */
  function Moves(i: nat, next: Option<string>, published: bool, actorId: Option<string>): seq<ContentSite.Op> {
    (if next.Some? then [ContentSite.Rename(i, next.value, actorId)] else []) + [ContentSite.SetPublished(i, published)]
  }

  function ApplyAll(s: ContentSite.Site, ops: seq<ContentSite.Op>): ContentSite.Site {
    if ops == [] then s else ApplyAll(s, ops[..|ops| - 1]).Apply(ops[|ops| - 1])
  }

  lemma ApplyOne(s: ContentSite.Site, a: ContentSite.Op)
    ensures ApplyAll(s, [a]) == s.Apply(a)
  {
    assert [a][..0] == [];
  }

  lemma ApplyTwo(s: ContentSite.Site, a: ContentSite.Op, b: ContentSite.Op)
    ensures ApplyAll(s, [a, b]) == s.Apply(a).Apply(b)
  {
    assert [a, b][..1] == [a];
    ApplyOne(s, a);
  }

  lemma RenamedItem(s: ContentSite.Site, i: nat, to: string, actorId: Option<string>)
    requires s.Accepts(ContentSite.Rename(i, to, actorId)) && s.items[i].kind.Page?
    ensures var was := s.items[i];
            var s' := s.Apply(ContentSite.Rename(i, to, actorId));
            && s'.items == s.items[i := was.(slug := to)]
            && s'.redirects == (if was.published
                                then Moved(s.redirects, ContentPath(Kind.Page, was.slug), ContentPath(Kind.Page, to), actorId)
                                else s.redirects)
  {
  }

  lemma MovedItem(s: ContentSite.Site, i: nat, next: Option<string>, published: bool, actorId: Option<string>)
    requires i in s.items && s.items[i].kind.Page?
    requires next.Some? ==> s.Accepts(ContentSite.Rename(i, next.value, actorId))
    ensures var slug := s.items[i].slug;
            var s' := ApplyAll(s, Moves(i, next, published, actorId));
            && s'.items == s.items[i := ContentSite.Item(Kind.Page, next.GetOr(slug), published)]
            && s'.redirects == (if next.Some? && s.items[i].published
                                then Moved(s.redirects, ContentPath(Kind.Page, slug), ContentPath(Kind.Page, next.value), actorId)
                                else s.redirects)
  {
    var b := ContentSite.SetPublished(i, published);
    if next.Some? {
      var a := ContentSite.Rename(i, next.value, actorId);
      assert Moves(i, next, published, actorId) == [a, b];
      ApplyTwo(s, a, b);
      RenamedItem(s, i, next.value, actorId);
    } else {
      assert Moves(i, next, published, actorId) == [b];
      ApplyOne(s, b);
    }
  }

  lemma UpdateAccepted(db: Db, s: ContentSite.Site, slug: string, input: SetPage, actorId: Option<string>, i: nat)
    requires Mirrors(db, s) && !Refuses(db, slug, input) && i in s.items && s.items[i].slug == slug
    ensures var next := NextSlug(slug, input);
            next.Some? ==> s.Accepts(ContentSite.Rename(i, next.value, actorId)) && !IsUsed(PlacesOf(db.pages), next.value)
  {
    var next := NextSlug(slug, input);
    if next.Some? {
      UsableAlike(db, s, next.value);
      UsedAlike(db, next.value);
    }
  }

  /** An accepted edit of the service is accepted by the site, and leaves the two alike. */
  lemma UpdateMirrors(db: Db, s: ContentSite.Site, slug: string, input: SetPage, now: int, actorId: Option<string>, i: nat)
    requires db.Valid() && s.Valid() && Mirrors(db, s) && !Refuses(db, slug, input)
    requires i in s.items && s.items[i].slug == slug
    ensures var db' := Updated(db, slug, input, now, actorId);
            var next := NextSlug(slug, input);
            && (next.Some? ==> s.Accepts(ContentSite.Rename(i, next.value, actorId)))
            && s.items[i].published == db.WasPublished(slug)
            && Mirrors(db', ApplyAll(s, Moves(i, next, db'.WasPublished(next.GetOr(slug)), actorId)))
  {
    var db', next := Updated(db, slug, input, now, actorId), NextSlug(slug, input);
    UsedAlike(db, slug);
    UsedAlike(db', next.GetOr(slug));
    UpdateAccepted(db, s, slug, input, actorId, i);
    UpdatedPlaces(db, slug, input, now, actorId);
    OneItem(s, i);
    MovedMirrors(db, db', s, i, next, actorId);
  }

  lemma MovedMirrors(db: Db, db': Db, s: ContentSite.Site, i: nat, next: Option<string>, actorId: Option<string>)
    requires Mirrors(db, s) && i in s.items && db.nextId <= db'.nextId
    requires forall j :: j in s.items && s.items[j].slug == s.items[i].slug ==> j == i
    requires next.Some? ==>
      s.Accepts(ContentSite.Rename(i, next.value, actorId)) && !IsUsed(PlacesOf(db.pages), next.value)
    requires RowsMove(PlacesOf(db.pages), PlacesOf(db'.pages), s.items[i].slug, next.GetOr(s.items[i].slug))
    requires db'.redirects == MovedRedirects(db, s.items[i].slug, next, actorId)
    ensures Mirrors(db', ApplyAll(s, Moves(i, next, db'.WasPublished(next.GetOr(s.items[i].slug)), actorId)))
  {
    var slug := s.items[i].slug;
    UsedAlike(db, slug);
    UsedAlike(db', next.GetOr(slug));
    GroupMoves(PlacesOf(db.pages), PlacesOf(db'.pages), s.items, i, next.GetOr(slug));
    MovedItem(s, i, next, db'.WasPublished(next.GetOr(slug)), actorId);
  }

  /** Two items at one slug would be at one address. */
  lemma OneItem(s: ContentSite.Site, i: nat)
    requires s.Valid() && i in s.items && forall j :: j in s.items ==> s.items[j].kind.Page?
    ensures forall j :: j in s.items && s.items[j].slug == s.items[i].slug ==> j == i
  {
    forall j | j in s.items && s.items[j].slug == s.items[i].slug ensures j == i {
      assert s.Addresses()[j] == s.Addresses()[i];
    }
  }

  // --- whole runs ---------------------------------------------------------------------------

  function Nothing(): Db { Db(map[], [], map[], 0) }

  ghost function After(ops: seq<PageRuns.Op>): Db {
    PageRuns.Run(Nothing(), ops).db
  }

  lemma AfterOneMore(ops: seq<PageRuns.Op>)
    requires ops != []
    ensures After(ops) == PageRuns.Step(After(ops[..|ops| - 1]), ops[|ops| - 1])
  {
  }

  lemma AfterIsValid(ops: seq<PageRuns.Op>)
    ensures After(ops).Valid()
  {
    PageRuns.RunKeepsHistory(Nothing(), ops);
  }

  /** A rename that goes through although no row of the group is published. */
  ghost predicate RenamesUnpublished(db: Db, op: PageRuns.Op) {
    && op.Update? && !Refuses(db, op.slug, op.input)
    && NextSlug(op.slug, op.input).Some? && !db.WasPublished(op.slug)
  }

  ghost predicate RenamesPublishedOnly(ops: seq<PageRuns.Op>) {
    ops != [] ==>
      && RenamesPublishedOnly(ops[..|ops| - 1])
      && !RenamesUnpublished(After(ops[..|ops| - 1]), ops[|ops| - 1])
  }

  lemma {:induction false} RunThen(a: seq<ContentSite.Op>, b: seq<ContentSite.Op>)
    ensures ContentSite.Run(a + b) == ApplyAll(ContentSite.Run(a), b)
  {
    if b == [] {
      assert a + b == a;
    } else {
      var n := |b| - 1;
      RunThen(a, b[..n]);
      assert (a + b)[..|a + b| - 1] == a + b[..n] && (a + b)[|a + b| - 1] == b[n];
    }
  }

  /** One operation of the service as operations of the site. */
  lemma StepMirrors(db: Db, s: ContentSite.Site, op: PageRuns.Op) returns (moves: seq<ContentSite.Op>)
    requires db.Valid() && s.Valid() && Mirrors(db, s)
    ensures Mirrors(PageRuns.Step(db, op), ApplyAll(s, moves))
    ensures AreMoves(s, moves, RenamesUnpublished(db, op))
  {
    moves := [];
    match op
    case Create(slug, locale, title, template) =>
      if SlugUsable(db, slug) {
        moves := [ContentSite.Create(db.nextId, Kind.Page, slug)];
        ApplyOne(s, moves[0]);
        CreateMirrors(db, s, slug, locale, title, template);
      }
    case Restore(slug, version) => RestoreMirrors(db, s, slug, version);
    case Update(slug, input, now, actorId) =>
      if !Refuses(db, slug, input) { moves := UpdateMoves(db, s, slug, input, now, actorId); }
  }

  /** At most two operations, of which only the first can be a rename, recorded unless the service's is not. */
  predicate AreMoves(s: ContentSite.Site, moves: seq<ContentSite.Op>, unpublished: bool) {
    && |moves| <= 2
    && forall k :: 0 <= k < |moves| && moves[k].Rename? ==> k == 0 && (s.RenamesUnrecorded(moves[0]) ==> unpublished)
  }

  lemma MovesAre(s: ContentSite.Site, i: nat, next: Option<string>, published: bool, actorId: Option<string>)
    requires i in s.items
    ensures AreMoves(s, Moves(i, next, published, actorId), next.Some? && !s.items[i].published)
  {
  }

  /** The item of a slug in use. */
  lemma ItemOf(db: Db, s: ContentSite.Site, slug: string) returns (i: nat)
    requires Mirrors(db, s) && db.Taken(slug)
    ensures i in s.items && s.items[i].slug == slug
  {
    UsedAlike(db, slug);
    TakenAlike(PlacesOf(db.pages), s, slug);
    i :| i in s.items && s.items[i].kind.Page? && s.items[i].slug == slug;
  }

  lemma UpdateMoves(db: Db, s: ContentSite.Site, slug: string, input: SetPage, now: int, actorId: Option<string>)
    returns (moves: seq<ContentSite.Op>)
    requires db.Valid() && s.Valid() && Mirrors(db, s) && !Refuses(db, slug, input)
    ensures Mirrors(Updated(db, slug, input, now, actorId), ApplyAll(s, moves))
    ensures AreMoves(s, moves, NextSlug(slug, input).Some? && !db.WasPublished(slug))
  {
    var i := ItemOf(db, s, slug);
    var next := NextSlug(slug, input);
    var published := Updated(db, slug, input, now, actorId).WasPublished(next.GetOr(slug));
    UpdateMirrors(db, s, slug, input, now, actorId, i);
    MovesAre(s, i, next, published, actorId);
    moves := Moves(i, next, published, actorId);
  }

  lemma OneMore(a: seq<ContentSite.Op>, b: ContentSite.Op)
    requires ContentSite.RenamesPublishedOnly(a) && !ContentSite.Run(a).RenamesUnrecorded(b)
    ensures ContentSite.RenamesPublishedOnly(a + [b])
  {
    var all := a + [b];
    assert all[..|all| - 1] == a && all[|all| - 1] == b;
  }

  lemma TwoMore(a: seq<ContentSite.Op>, b: ContentSite.Op, c: ContentSite.Op)
    requires ContentSite.RenamesPublishedOnly(a) && !ContentSite.Run(a).RenamesUnrecorded(b) && !c.Rename?
    ensures ContentSite.RenamesPublishedOnly(a + [b] + [c])
  {
    OneMore(a, b);
    OneMore(a + [b], c);
  }

  lemma SplitsInTwo(a: seq<ContentSite.Op>, b: seq<ContentSite.Op>)
    requires |b| == 2
    ensures a + b == a + [b[0]] + [b[1]]
  {
  }

  /** A few more operations, of which only the first can be a rename. */
  lemma FewMore(a: seq<ContentSite.Op>, b: seq<ContentSite.Op>)
    requires |b| <= 2 && forall k :: 0 <= k < |b| && b[k].Rename? ==> k == 0
    requires ContentSite.RenamesPublishedOnly(a) && (b != [] ==> !ContentSite.Run(a).RenamesUnrecorded(b[0]))
    ensures ContentSite.RenamesPublishedOnly(a + b)
  {
    if |b| == 2 {
      SplitsInTwo(a, b);
      TwoMore(a, b[0], b[1]);
    } else if |b| == 1 {
      assert b == [b[0]];
      OneMore(a, b[0]);
    } else {
      assert a + b == a;
    }
  }

  /** Every run of the service is a run of the site over the same redirects. */
  lemma {:induction false} RunMirrors(ops: seq<PageRuns.Op>) returns (moves: seq<ContentSite.Op>)
    ensures Mirrors(After(ops), ContentSite.Run(moves))
    ensures RenamesPublishedOnly(ops) ==> ContentSite.RenamesPublishedOnly(moves)
    ensures EverHeld(ops, ContentSite.Run(moves))
  {
    if ops == [] {
      moves := [];
    } else {
      var n := |ops| - 1;
      var before := RunMirrors(ops[..n]);
      var s := ContentSite.Run(before);
      AfterIsValid(ops[..n]);
      ContentSite.RunIsFlat(before);
      AfterOneMore(ops);
      var more := StepMirrors(After(ops[..n]), s, ops[n]);
      moves := before + more;
      RunThen(before, more);
      if RenamesPublishedOnly(ops) { FewMore(before, more); }
      HoldersStay(s, more);
      HeldSoFar(ops, s, moves);
    }
  }

  /** Every slug a page had at some point of the run has a holder on record. */
  ghost predicate EverHeld(ops: seq<PageRuns.Op>, s: ContentSite.Site) {
    forall n: nat, slug :: n <= |ops| && After(ops[..n]).Taken(slug) ==> ContentPath(Kind.Page, slug) in s.holder
  }

  lemma HeldSoFar(ops: seq<PageRuns.Op>, s: ContentSite.Site, moves: seq<ContentSite.Op>)
    requires ops != [] && EverHeld(ops[..|ops| - 1], s)
    requires s.holder.Keys <= ContentSite.Run(moves).holder.Keys && Mirrors(After(ops), ContentSite.Run(moves))
    ensures EverHeld(ops, ContentSite.Run(moves))
  {
    var n := |ops| - 1;
    forall k: nat, slug | k <= |ops| && After(ops[..k]).Taken(slug)
      ensures ContentPath(Kind.Page, slug) in ContentSite.Run(moves).holder
    {
      if k <= n {
        assert ops[..n][..k] == ops[..k];
      } else {
        assert ops[..k] == ops;
        TakenIsHeld(After(ops), moves, slug);
      }
    }
  }

  lemma {:induction false} HoldersStay(s: ContentSite.Site, ops: seq<ContentSite.Op>)
    ensures s.holder.Keys <= ApplyAll(s, ops).holder.Keys
  {
    if ops != [] { HoldersStay(s, ops[..|ops| - 1]); }
  }

  lemma TakenIsHeld(db: Db, moves: seq<ContentSite.Op>, slug: string)
    requires Mirrors(db, ContentSite.Run(moves)) && db.Taken(slug)
    ensures ContentPath(Kind.Page, slug) in ContentSite.Run(moves).holder
  {
    var s := ContentSite.Run(moves);
    ContentSite.RunIsFlat(moves);
    UsedAlike(db, slug);
    TakenAlike(PlacesOf(db.pages), s, slug);
    var i :| i in s.items && s.items[i].kind.Page? && s.items[i].slug == slug;
    assert s.Addresses()[i] == ContentPath(Kind.Page, slug);
  }

  /**
   * What the page service's redirects come to, over every run of its own operations
   * from nothing: every chain is one hop, and, when every rename was of a published
   * page, every slug a page ever had and none has now leads in that hop to a page.
   */
  lemma PageRedirects(ops: seq<PageRuns.Op>, n: nat, slug: string)
    requires n <= |ops|
    ensures Flat(After(ops).redirects)
    ensures RenamesPublishedOnly(ops) && After(ops[..n]).Taken(slug) && !After(ops).Taken(slug) ==>
      var m, a := After(ops).redirects, ContentPath(Kind.Page, slug);
      && a in m && m[a].isActive && m[a].code == 301
      && exists now :: After(ops).Taken(now) && m[a].to == ContentPath(Kind.Page, now) && Ends(m, a, ContentPath(Kind.Page, now))
  {
    var moves := RunMirrors(ops);
    ContentSite.RunIsFlat(moves);
    if RenamesPublishedOnly(ops) && After(ops[..n]).Taken(slug) && !After(ops).Taken(slug) {
      Vacated(After(ops), moves, slug);
    }
  }

  lemma Vacated(db: Db, moves: seq<ContentSite.Op>, slug: string)
    requires Mirrors(db, ContentSite.Run(moves)) && ContentSite.RenamesPublishedOnly(moves)
    requires ContentPath(Kind.Page, slug) in ContentSite.Run(moves).holder && !db.Taken(slug)
    ensures var m, a := db.redirects, ContentPath(Kind.Page, slug);
      && a in m && m[a].isActive && m[a].code == 301
      && exists now :: db.Taken(now) && m[a].to == ContentPath(Kind.Page, now) && Ends(m, a, ContentPath(Kind.Page, now))
  {
    var s, a := ContentSite.Run(moves), ContentPath(Kind.Page, slug);
    UsedAlike(db, slug);
    forall i | i in s.items ensures s.Addresses()[i] != a {
      assert Fits(PlacesOf(db.pages), s.items[i]);
      assert s.Addresses()[i][1..] == s.items[i].slug && a[1..] == slug;
    }
    ContentSite.VacatedAddressesRedirect(moves, a);
    var now := s.items[s.holder[a]].slug;
    assert Fits(PlacesOf(db.pages), s.items[s.holder[a]]);
    UsedAlike(db, now);
    assert db.Taken(now) && s.redirects[a].to == ContentPath(Kind.Page, now);
  }
}
