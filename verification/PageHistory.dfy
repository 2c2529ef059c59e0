/**
 * Editorial pages and the version log behind them.
 *
 * A page is a group of rows under one slug, one per language. Every save of a
 * row appends a snapshot; restoring appends one too. `PageStore` carries the
 * operations as the source runs them; `Created`, `Updated` and `Restored` say
 * what each leaves behind, and the lemmas follow the log over whole runs.
 */
module PageHistory {
  import opened Options
  import opened Json
  import opened Documents
  import opened Redirects
  import opened Slugs

  datatype Locale = AR | EN
  datatype Status = DRAFT | IN_REVIEW | SCHEDULED | PUBLISHED | ARCHIVED

  /** What a version holds. */
  datatype Content = Content(title: string, blocks: Json, seo: Json)

  datatype PageRow = PageRow(
    slug: string,
    locale: Locale,
    template: string,
    status: Status,
    content: Content,
    publishedAt: Option<int>,
    version: nat)

  datatype Snapshot = Snapshot(pageId: nat, version: nat, content: Content)

  /** One language's edit; `blocks` is what the document check answered for the blocks sent. */
  datatype Translation = Translation(
    locale: Locale,
    title: Option<string>,
    blocks: Option<StoredDocument>,
    seoTitle: Option<string>,
    seoDescription: Option<string>,
    status: Option<Status>)

  datatype SetPage = SetPage(
    slug: Option<string>, template: Option<string>, translation: Option<Translation>)

  // --- pure helpers -----------------------------------------------------------------

  function PutSeo(base: map<string, Json>, key: string, value: Option<string>): map<string, Json> {
    match value
    case None => base
    case Some(v) => if v == "" then base - {key} else base[key := Str(v)]
  }

  /** The stored object with two keys set; a key sent as "" is dropped and one not sent is left. */
  function MergeSeo(stored: Json, title: Option<string>, description: Option<string>): Json {
    var base := if stored.Obj? then stored.fields else map[];
    Obj(PutSeo(PutSeo(base, "title", title), "description", description))
  }

  /** A date that is sent wins; otherwise a date already there stays, and publishing without one takes the clock. */
  function PublishedAtAfter(
    current: Option<int>, next: Status, requested: Option<Option<int>>, now: int): Option<int>
  {
    match requested
    case Some(date) => date
    case None => if current.Some? then current else if next.PUBLISHED? then Some(now) else None
  }

  /** A row's copy after an edit; what the edit does not name stays. */
  function Edited(was: Content, t: Translation): Content {
    Content(
      t.title.GetOr(was.title),
      match t.blocks case Some(Stored(blocks)) => Arr(blocks) case _ => was.blocks,
      if t.seoTitle.None? && t.seoDescription.None? then was.seo
      else MergeSeo(was.seo, t.seoTitle, t.seoDescription))
  }

  /** What a language starts from when its first save creates it. */
  const EMPTY := Content("", Arr([]), Obj(map[]))

  // --- the tables -------------------------------------------------------------------

  datatype Db = Db(pages: map<nat, PageRow>, history: seq<Snapshot>, redirects: Table, nextId: nat) {
    predicate InGroup(id: nat, slug: string) {
      id in pages && pages[id].slug == slug
    }

    predicate Taken(slug: string) {
      exists id :: id in pages && pages[id].slug == slug
    }

    predicate WasPublished(slug: string) {
      exists id :: id in pages && pages[id].slug == slug && pages[id].status.PUBLISHED?
    }

    predicate HasHistory(id: nat) {
      exists i :: 0 <= i < |history| && history[i].pageId == id
    }

    ghost predicate Valid() {
      && (forall id :: id in pages ==> id < nextId)
      && (forall i, j :: i in pages && j in pages && pages[i].slug == pages[j].slug ==>
            pages[i].template == pages[j].template &&
            (pages[i].locale == pages[j].locale ==> i == j))
      && (forall i :: 0 <= i < |history| ==> history[i].pageId in pages)
    }

    /** The row of a language, when the group has one. */
    ghost function Row(slug: string, locale: Locale): Option<nat> {
      if id :| id in pages && pages[id].slug == slug && pages[id].locale == locale
      then Some(id) else None
    }
  }

  predicate SlugUsable(db: Db, slug: string) {
    IsSlug(slug) && slug !in RESERVED_PAGE_SLUGS && !db.Taken(slug)
  }

  /** A new page: one row, a draft, empty; no snapshot yet. */
  function Created(db: Db, slug: string, locale: Locale, title: string, template: string): Db {
    if !SlugUsable(db, slug) then db
    else
      db.(pages := db.pages[db.nextId := PageRow(slug, locale, template, DRAFT, EMPTY.(title := title), None, 1)],
          nextId := db.nextId + 1)
  }

  /** The slug an edit moves the group to, when it moves it. */
  function NextSlug(slug: string, input: SetPage): Option<string> {
    if input.slug.Some? && input.slug.value != slug then input.slug else None
  }

  ghost predicate Refuses(db: Db, slug: string, input: SetPage) {
    || !db.Taken(slug)
    || (NextSlug(slug, input).Some? &&
        (slug in PINNED_PAGE_SLUGS || !SlugUsable(db, NextSlug(slug, input).value)))
    || (input.translation.Some? &&
        var t := input.translation.value;
        || (t.blocks.Some? && t.blocks.value.Refused?)
        || (db.Row(slug, t.locale).None? && (t.title.None? || t.title.value == "")))
  }

  function Regrouped(pages: map<nat, PageRow>, slug: string, next: Option<string>, template: Option<string>): map<nat, PageRow> {
    map id | id in pages ::
      if pages[id].slug == slug
      then pages[id].(slug := next.GetOr(slug), template := template.GetOr(pages[id].template))
      else pages[id]
  }

  /** A row after a save: edited copy, status, stamp, next version. */
  function SavedRow(p: PageRow, t: Translation, now: int): PageRow {
    var status := t.status.GetOr(p.status);
    p.(content := Edited(p.content, t),
       status := status,
       publishedAt := PublishedAtAfter(p.publishedAt, status, None, now),
       version := p.version + 1)
  }

  function FirstRow(slug: string, template: string, t: Translation, now: int): PageRow {
    var status := t.status.GetOr(DRAFT);
    PageRow(slug, t.locale, template, status, Edited(EMPTY, t), PublishedAtAfter(None, status, None, now), 1)
  }

  /** The snapshots a save of an existing row adds: the state before, if none is kept yet, and the state after. */
  function SaveSnapshots(db: Db, id: nat, saved: PageRow): seq<Snapshot>
    requires id in db.pages
  {
    (if db.HasHistory(id) then [] else [Snapshot(id, db.pages[id].version, db.pages[id].content)])
    + [Snapshot(id, saved.version, saved.content)]
  }

  ghost function TemplateOf(db: Db, slug: string): string
    requires db.Taken(slug)
  {
    var id :| id in db.pages && db.pages[id].slug == slug;
    db.pages[id].template
  }

  /** One language's save: over its row when it has one, as a new row when it has none. */
  function Translated(
    db: Db, pages: map<nat, PageRow>, slug: string, template: string, row: Option<nat>, t: Translation, now: int): Db
    requires row.Some? ==> row.value in db.pages && row.value in pages
  {
    match row
    case Some(id) =>
      var saved := SavedRow(pages[id], t, now);
      db.(pages := pages[id := saved], history := db.history + SaveSnapshots(db, id, saved))
    case None =>
      var first := FirstRow(slug, template, t, now);
      db.(pages := pages[db.nextId := first],
          history := db.history + [Snapshot(db.nextId, first.version, first.content)],
          nextId := db.nextId + 1)
  }

  /** The redirects after a rename: a move is recorded when some row of the group was published. */
  function MovedRedirects(db: Db, slug: string, next: Option<string>, actorId: Option<string>): Table {
    if next.Some? && db.WasPublished(slug)
    then Moved(db.redirects, ContentPath(Kind.Page, slug), ContentPath(Kind.Page, next.value), actorId)
    else db.redirects
  }

  ghost function Updated(db: Db, slug: string, input: SetPage, now: int, actorId: Option<string>): Db {
    if Refuses(db, slug, input) then db
    else
      var next := NextSlug(slug, input);
      var pages := Regrouped(db.pages, slug, next, input.template);
      var redirects := MovedRedirects(db, slug, next, actorId);
      match input.translation
      case None => db.(pages := pages, redirects := redirects)
      case Some(t) =>
        Translated(db, pages, next.GetOr(slug), input.template.GetOr(TemplateOf(db, slug)),
                   db.Row(slug, t.locale), t, now).(redirects := redirects)
  }

  predicate CanRestore(db: Db, slug: string, version: nat) {
    version < |db.history| && db.InGroup(db.history[version].pageId, slug)
  }

  /** An old state put back as a new version; slug, status and dates are the page's now. */
  function Restored(db: Db, slug: string, version: nat): Db {
    if !CanRestore(db, slug, version) then db
    else
      var id := db.history[version].pageId;
      var saved := db.pages[id].(content := db.history[version].content, version := db.pages[id].version + 1);
      db.(pages := db.pages[id := saved], history := db.history + [Snapshot(id, saved.version, saved.content)])
  }

  // --- what each operation stores -------------------------------------------------------

  /** A text under a key of a stored SEO object: as sent, gone where it was sent empty, left where nothing was sent. */
  ghost predicate SeoKeyStored(was: Json, now: Json, key: string, sent: Option<string>) {
    && now.Obj?
    && match sent
       case Some(text) =>
         if text == "" then key !in now.fields else key in now.fields && now.fields[key] == Str(text)
       case None => SameKey(was, now, key)
  }

  ghost predicate SameKey(was: Json, now: Json, key: string) {
    && now.Obj?
    && (key in now.fields <==> was.Obj? && key in was.fields)
    && (key in now.fields ==> now.fields[key] == was.fields[key])
  }

  /** Every other key, `robots` and the like, is as it was. */
  ghost predicate SeoStored(was: Json, now: Json, title: Option<string>, description: Option<string>) {
    if title.None? && description.None? then now == was
    else
      && SeoKeyStored(was, now, "title", title) && SeoKeyStored(was, now, "description", description)
      && forall k :: k != "title" && k != "description" ==> SameKey(was, now, k)
  }

  /**
   * A row after a language's save: title, body, SEO texts and status as sent, or as they
   * were where nothing was sent; the date kept, or the clock where the row had none and
   * is published now.
   */
  ghost predicate IsSaved(was: PageRow, now: PageRow, sent: Translation, clock: int) {
    && now.content.title == (if sent.title.Some? then sent.title.value else was.content.title)
    && (sent.blocks.None? ==> now.content.blocks == was.content.blocks)
    && (sent.blocks.Some? && sent.blocks.value.Stored? ==> now.content.blocks == Arr(sent.blocks.value.blocks))
    && SeoStored(was.content.seo, now.content.seo, sent.seoTitle, sent.seoDescription)
    && now.status == (if sent.status.Some? then sent.status.value else was.status)
    && now.publishedAt ==
         (if was.publishedAt.Some? then was.publishedAt else if now.status.PUBLISHED? then Some(clock) else None)
    && now.version == was.version + 1
  }

  lemma SeoMerged(was: Json, title: Option<string>, description: Option<string>)
    ensures SeoStored(was, if title.None? && description.None? then was else MergeSeo(was, title, description),
                      title, description)
  {
  }

  lemma RowIsSaved(p: PageRow, t: Translation, now: int)
    ensures IsSaved(p, SavedRow(p, t, now), t, now)
  {
    SeoMerged(p.content.seo, t.seoTitle, t.seoDescription);
  }

  /** A row nobody has saved: empty, a draft, without a date. */
  function Blank(slug: string, locale: Locale, template: string): PageRow {
    PageRow(slug, locale, template, DRAFT, Content("", Arr([]), Obj(map[])), None, 0)
  }

  lemma FirstIsSaved(slug: string, template: string, t: Translation, now: int)
    ensures IsSaved(Blank(slug, t.locale, template), FirstRow(slug, template, t, now), t, now)
    ensures var p := FirstRow(slug, template, t, now); p.slug == slug && p.locale == t.locale && p.template == template
  {
    SeoMerged(Obj(map[]), t.seoTitle, t.seoDescription);
  }

  ghost predicate HasLanguage(db: Db, slug: string, locale: Locale) {
    exists id :: id in db.pages && db.pages[id].slug == slug && db.pages[id].locale == locale
  }

  /**
   * When an edit goes through: the page is there; a new slug is well formed, nobody's and
   * no route's, and the page is not one a route reads by name; the blocks passed the check;
   * and a language the page does not have comes with a title.
   */
  lemma UpdateGoesThrough(db: Db, slug: string, input: SetPage)
    ensures !Refuses(db, slug, input) <==>
      && (exists id :: id in db.pages && db.pages[id].slug == slug)
      && (input.slug.Some? && input.slug.value != slug ==>
            && slug != "golden-warranty" && slug != "contact"
            && IsSlug(input.slug.value) && input.slug.value !in RESERVED_PAGE_SLUGS
            && forall id :: id in db.pages ==> db.pages[id].slug != input.slug.value)
      && (input.translation.Some? ==>
            && (input.translation.value.blocks.Some? ==> input.translation.value.blocks.value.Stored?)
            && (HasLanguage(db, slug, input.translation.value.locale) ||
                (input.translation.value.title.Some? && input.translation.value.title.value != "")))
  {
    if input.translation.Some? { RowIsLanguage(db, slug, input.translation.value.locale); }
  }

  lemma RowIsLanguage(db: Db, slug: string, locale: Locale)
    ensures db.Row(slug, locale).Some? <==> HasLanguage(db, slug, locale)
  {
  }

  /** Where an edit leaves the group. */
  function AddressAfter(slug: string, input: SetPage): string {
    if input.slug.Some? then input.slug.value else slug
  }

  /** The rows of the group are at the new address in the new template, whatever their language; nobody else moves. */
  ghost predicate GroupMoved(was: PageRow, now: PageRow, slug: string, input: SetPage) {
    && now.locale == was.locale
    && (if was.slug == slug
        then now.slug == AddressAfter(slug, input)
             && now.template == (if input.template.Some? then input.template.value else was.template)
        else now.slug == was.slug && now.template == was.template)
  }

  /** A row whose copy, status, date and version an edit leaves alone. */
  predicate IsUnsaved(was: PageRow, now: PageRow) {
    now.content == was.content && now.status == was.status && now.publishedAt == was.publishedAt && now.version == was.version
  }

  /** The row of the language the edit sends. */
  predicate IsSent(p: PageRow, slug: string, input: SetPage) {
    input.translation.Some? && p.slug == slug && p.locale == input.translation.value.locale
  }

  lemma OneOfLanguage(db: Db, slug: string, locale: Locale, id: nat)
    requires db.Valid() && id in db.pages && db.pages[id].slug == slug && db.pages[id].locale == locale
    ensures db.Row(slug, locale) == Some(id)
  {
  }

  lemma RegroupedRow(pages: map<nat, PageRow>, slug: string, input: SetPage, id: nat)
    requires id in pages
    ensures var after := Regrouped(pages, slug, NextSlug(slug, input), input.template);
            id in after && GroupMoved(pages[id], after[id], slug, input) && IsUnsaved(pages[id], after[id])
  {
  }

  lemma UpdatedRow(db: Db, slug: string, input: SetPage, now: int, actorId: Option<string>, id: nat)
    requires db.Valid() && !Refuses(db, slug, input) && id in db.pages
    ensures var db' := Updated(db, slug, input, now, actorId);
            var row := Regrouped(db.pages, slug, NextSlug(slug, input), input.template)[id];
            && id in db'.pages
            && db'.pages[id] == if IsSent(db.pages[id], slug, input) then SavedRow(row, input.translation.value, now) else row
  {
    if IsSent(db.pages[id], slug, input) { OneOfLanguage(db, slug, db.pages[id].locale, id); }
  }

  /** Moving with the group makes no difference to what a save stores. */
  lemma MovedAndSaved(was: PageRow, moved: PageRow, slug: string, input: SetPage, t: Translation, now: int)
    requires GroupMoved(was, moved, slug, input) && IsUnsaved(was, moved)
    ensures GroupMoved(was, SavedRow(moved, t, now), slug, input)
    ensures IsSaved(was, SavedRow(moved, t, now), t, now)
  {
    RowIsSaved(moved, t, now);
  }

  /**
   * An accepted edit, for every row there was: the group is at its new address, the row of
   * the language sent is saved as sent, and no other copy, status, date or version changes.
   */
  lemma UpdateStores(db: Db, slug: string, input: SetPage, now: int, actorId: Option<string>, id: nat)
    requires db.Valid() && !Refuses(db, slug, input) && id in db.pages
    ensures var db' := Updated(db, slug, input, now, actorId);
            && id in db'.pages && GroupMoved(db.pages[id], db'.pages[id], slug, input)
            && (if IsSent(db.pages[id], slug, input)
                then IsSaved(db.pages[id], db'.pages[id], input.translation.value, now)
                else IsUnsaved(db.pages[id], db'.pages[id]))
  {
    var row := Regrouped(db.pages, slug, NextSlug(slug, input), input.template)[id];
    RegroupedRow(db.pages, slug, input, id);
    UpdatedRow(db, slug, input, now, actorId, id);
    if IsSent(db.pages[id], slug, input) {
      MovedAndSaved(db.pages[id], row, slug, input, input.translation.value, now);
    }
  }

  /** A language the page did not have: its row is as sent on an empty draft, under the group's address; nothing else is new. */
  lemma FirstStores(db: Db, slug: string, input: SetPage, now: int, actorId: Option<string>, any: nat)
    requires db.Valid() && !Refuses(db, slug, input) && any in db.pages && db.pages[any].slug == slug
    ensures var db' := Updated(db, slug, input, now, actorId);
            if input.translation.Some? && db.Row(slug, input.translation.value.locale).None?
            then
              && db'.pages.Keys == db.pages.Keys + {db.nextId} && db.nextId !in db.pages
              && var p, t := db'.pages[db.nextId], input.translation.value;
              && p.slug == AddressAfter(slug, input) && p.locale == t.locale
              && p.template == (if input.template.Some? then input.template.value else db.pages[any].template)
              && IsSaved(Blank(p.slug, p.locale, p.template), p, t, now)
              && p.content.title != ""
            else db'.pages.Keys == db.pages.Keys
  {
    if input.translation.Some? && db.Row(slug, input.translation.value.locale).None? {
      FirstIsSaved(NextSlug(slug, input).GetOr(slug), input.template.GetOr(TemplateOf(db, slug)),
                   input.translation.value, now);
    }
  }

  /** A page that is created: one empty draft as asked for, at version 1; nothing else changes. */
  lemma CreateStores(db: Db, slug: string, locale: Locale, title: string, template: string)
    requires db.Valid() && SlugUsable(db, slug)
    ensures var db' := Created(db, slug, locale, title, template);
            && db.nextId !in db.pages
            && db'.pages == db.pages[db.nextId :=
                 PageRow(slug, locale, template, DRAFT, Content(title, Arr([]), Obj(map[])), None, 1)]
            && db'.history == db.history && db'.redirects == db.redirects
  {
  }

  // --- the service --------------------------------------------------------------------

  class PageStore {
    var pages: map<nat, PageRow>
    var history: seq<Snapshot>
    var nextId: nat
    const redirects: RedirectTable

    ghost function State(): Db
      reads this, redirects
    {
      Db(pages, history, redirects.rows, nextId)
    }

    constructor (redirects: RedirectTable)
      ensures this.redirects == redirects && State() == Db(map[], [], redirects.rows, 0)
      ensures State().Valid()
    {
      pages, history, nextId := map[], [], 0;
      this.redirects := redirects;
    }

    method Find(slug: string, locale: Locale) returns (row: Option<nat>)
      requires State().Valid()
      ensures row == State().Row(slug, locale)
    {
      if id :| id in pages && pages[id].slug == slug && pages[id].locale == locale {
        row := Some(id);
      } else {
        row := None;
      }
    }

    method Create(slug: string, locale: Locale, title: string, template: string) returns (ok: bool)
      requires State().Valid()
      modifies this
      ensures State() == Created(old(State()), slug, locale, title, template)
      ensures ok <==> SlugUsable(old(State()), slug)
      ensures ok <==>
        && IsSlug(slug) && slug !in RESERVED_PAGE_SLUGS
        && forall id :: id in old(pages) ==> old(pages)[id].slug != slug
    {
      ok := IsSlug(slug) && slug !in RESERVED_PAGE_SLUGS && !(exists id :: id in pages && pages[id].slug == slug);
      if !ok { return; }
      pages := pages[nextId := PageRow(slug, locale, template, DRAFT, Content(title, Arr([]), Obj(map[])), None, 1)];
      nextId := nextId + 1;
    }

    /** Everything an edit checks before it writes. */
    method Admit(slug: string, input: SetPage) returns (ok: bool, row: Option<nat>)
      requires State().Valid()
      ensures ok <==> !Refuses(State(), slug, input)
      ensures ok && input.translation.Some? ==> row == State().Row(slug, input.translation.value.locale)
    {
      ok, row := false, None;
      if !(exists id :: id in pages && pages[id].slug == slug) { return; }
      var nextSlug := NextSlug(slug, input);
      if nextSlug.Some? {
        var next := nextSlug.value;
        if slug in PINNED_PAGE_SLUGS || !IsSlug(next) || next in RESERVED_PAGE_SLUGS { return; }
        if exists id :: id in pages && pages[id].slug == next { return; }
      }
      if input.translation.Some? {
        var t := input.translation.value;
        row := Find(slug, t.locale);
        if t.blocks.Some? && t.blocks.value.Refused? { return; }
        if row.None? && (t.title.None? || t.title.value == "") { return; }
      }
      ok := true;
    }

    method Regroup(slug: string, next: Option<string>, template: Option<string>)
      modifies this`pages
      ensures pages == Regrouped(old(pages), slug, next, template)
    {
      pages := map id | id in pages ::
        if pages[id].slug == slug
        then pages[id].(slug := next.GetOr(slug), template := template.GetOr(pages[id].template))
        else pages[id];
    }

    /** A language's save and its snapshots; `db` is the tables before the group moved. */
    method Translate(ghost db: Db, slug: string, template: string, row: Option<nat>, t: Translation, now: int)
      requires history == db.history && nextId == db.nextId
      requires row.Some? ==>
        && row.value in pages && row.value in db.pages
        && pages[row.value].version == db.pages[row.value].version
        && pages[row.value].content == db.pages[row.value].content
      modifies this`pages, this`history, this`nextId
      ensures var after := Translated(db, old(pages), slug, template, row, t, now);
              pages == after.pages && history == after.history && nextId == after.nextId
    {
      var id, saved;
      if row.Some? {
        id := row.value;
        saved := SavedRow(pages[id], t, now);
        if !(exists i :: 0 <= i < |history| && history[i].pageId == id) {
          history := history + [Snapshot(id, pages[id].version, pages[id].content)];
        }
      } else {
        id := nextId;
        saved := FirstRow(slug, template, t, now);
        nextId := nextId + 1;
      }
      pages := pages[id := saved];
      history := history + [Snapshot(id, saved.version, saved.content)];
    }

    /** What an admitted edit writes: the group, then the language, then the redirect. */
    method Write(slug: string, input: SetPage, row: Option<nat>, template: string, now: int, actorId: Option<string>)
      requires State().Valid() && !Refuses(State(), slug, input)
      requires input.translation.Some? ==> row == State().Row(slug, input.translation.value.locale)
      requires template == input.template.GetOr(TemplateOf(State(), slug))
      modifies this, redirects
      ensures State() == Updated(old(State()), slug, input, now, actorId)
    {
      ghost var db := State();
      var nextSlug := NextSlug(slug, input);
      var wasPublished := exists id :: id in pages && pages[id].slug == slug && pages[id].status.PUBLISHED?;
      Regroup(slug, nextSlug, input.template);
      if input.translation.Some? {
        Translate(db, nextSlug.GetOr(slug), template, row, input.translation.value, now);
      }
      if nextSlug.Some? && wasPublished {
        redirects.RecordMove(ContentPath(Kind.Page, slug), ContentPath(Kind.Page, nextSlug.value), actorId);
      }
    }

    method Update(slug: string, input: SetPage, now: int, actorId: Option<string>) returns (ok: bool)
      requires State().Valid()
      modifies this, redirects
      ensures State() == Updated(old(State()), slug, input, now, actorId)
      ensures ok <==> !Refuses(old(State()), slug, input)
    {
      var row;
      ok, row := Admit(slug, input);
      if !ok { return; }
      var any :| any in pages && pages[any].slug == slug;
      Write(slug, input, row, input.template.GetOr(pages[any].template), now, actorId);
    }

    method Restore(slug: string, version: nat) returns (ok: bool)
      requires State().Valid()
      modifies this
      ensures State() == Restored(old(State()), slug, version)
      ensures ok <==> CanRestore(old(State()), slug, version)
    {
      ok := version < |history| && history[version].pageId in pages && pages[history[version].pageId].slug == slug;
      if !ok { return; }
      var snapshot := history[version];
      var saved := pages[snapshot.pageId].(content := snapshot.content, version := pages[snapshot.pageId].version + 1);
      pages := pages[snapshot.pageId := saved];
      history := history + [Snapshot(snapshot.pageId, saved.version, saved.content)];
    }
  }
}
