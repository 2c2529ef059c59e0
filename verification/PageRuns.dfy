/** The version log over whole runs of creates, saves, renames and restores. */
module PageRuns {
  import opened Options
  import opened Json
  import opened Redirects
  import opened Slugs
  import opened PageHistory

  datatype Op =
    | Create(slug: string, locale: Locale, title: string, template: string)
    | Update(slug: string, input: SetPage, now: int, actorId: Option<string>)
    | Restore(slug: string, version: nat)

  ghost function Step(db: Db, op: Op): Db {
    match op
    case Create(slug, locale, title, template) => Created(db, slug, locale, title, template)
    case Update(slug, input, now, actorId) => Updated(db, slug, input, now, actorId)
    case Restore(slug, version) => Restored(db, slug, version)
  }

  /** A row's own snapshots, in the order they were written. */
  function SnapshotsOf(history: seq<Snapshot>, id: nat): seq<Snapshot> {
    if history == [] then []
    else
      var last := history[|history| - 1];
      SnapshotsOf(history[..|history| - 1], id) + if last.pageId == id then [last] else []
  }

  lemma SnapshotsAppend(history: seq<Snapshot>, s: Snapshot, id: nat)
    ensures SnapshotsOf(history + [s], id) == SnapshotsOf(history, id) + if s.pageId == id then [s] else []
  {
    assert (history + [s])[..|history|] == history;
  }

  lemma {:induction false} SnapshotsEmpty(history: seq<Snapshot>, id: nat)
    ensures SnapshotsOf(history, id) == [] <==> forall i :: 0 <= i < |history| ==> history[i].pageId != id
    ensures forall i :: 0 <= i < |SnapshotsOf(history, id)| ==> SnapshotsOf(history, id)[i] in history
  {
    if history != [] { SnapshotsEmpty(history[..|history| - 1], id); }
  }

  // --- one step -----------------------------------------------------------------------

  /** A step either leaves a row's copy and log alone, or saves it once. */
  ghost predicate LeftAlone(db: Db, db': Db, id: nat)
    requires id in db.pages && id in db'.pages
  {
    && db'.pages[id].version == db.pages[id].version
    && db'.pages[id].content == db.pages[id].content
    && SnapshotsOf(db'.history, id) == SnapshotsOf(db.history, id)
  }

  function Now(db: Db, id: nat): Snapshot
    requires id in db.pages
  {
    Snapshot(id, db.pages[id].version, db.pages[id].content)
  }

  /** A log after a save: the replaced state first, when none was kept, and the new state. */
  function Grown(log: seq<Snapshot>, was: Snapshot, now: Snapshot): seq<Snapshot> {
    (if log == [] then [was] else log) + [now]
  }

  ghost predicate SavedOnce(db: Db, db': Db, id: nat)
    requires id in db.pages && id in db'.pages
  {
    && db'.pages[id].version == db.pages[id].version + 1
    && SnapshotsOf(db'.history, id) == Grown(SnapshotsOf(db.history, id), Now(db, id), Now(db', id))
  }

  ghost predicate Born(db': Db, id: nat)
    requires id in db'.pages
  {
    && db'.pages[id].version == 1
    && SnapshotsOf(db'.history, id) in {[], [Now(db', id)]}
  }

  ghost predicate Effect(db: Db, db': Db) {
    && (forall id :: id in db.pages ==> id in db'.pages && (LeftAlone(db, db', id) || SavedOnce(db, db', id)))
    && (forall id :: id in db'.pages && id !in db.pages ==> Born(db', id))
  }

  lemma CreateEffect(db: Db, slug: string, locale: Locale, title: string, template: string)
    requires db.Valid()
    ensures Effect(db, Created(db, slug, locale, title, template))
  {
    SnapshotsEmpty(db.history, db.nextId);
  }

  lemma RestoreEffect(db: Db, slug: string, version: nat)
    requires db.Valid()
    ensures Effect(db, Restored(db, slug, version))
  {
    var db' := Restored(db, slug, version);
    if CanRestore(db, slug, version) {
      var touched := db.history[version].pageId;
      forall id | id in db.pages ensures LeftAlone(db, db', id) || SavedOnce(db, db', id) {
        SnapshotsAppend(db.history, Now(db', touched), id);
        SnapshotsEmpty(db.history, id);
      }
    }
  }

  /** The row's log after the snapshots of a save of it, the replaced state first where none was kept. */
  lemma SaveLog(history: seq<Snapshot>, was: Snapshot, now: Snapshot, id: nat)
    requires was.pageId == now.pageId
    ensures var kept := exists i :: 0 <= i < |history| && history[i].pageId == now.pageId;
            var after := (if kept then history else history + [was]) + [now];
            SnapshotsOf(after, id) ==
              if id == now.pageId then Grown(SnapshotsOf(history, id), was, now) else SnapshotsOf(history, id)
  {
    SnapshotsEmpty(history, now.pageId);
    if exists i :: 0 <= i < |history| && history[i].pageId == now.pageId {
      SnapshotsAppend(history, now, id);
    } else {
      SnapshotsAppend(history + [was], now, id);
      SnapshotsAppend(history, was, id);
    }
  }

  lemma SaveEffect(db: Db, pages: map<nat, PageRow>, row: nat, t: Translation, now: int)
    requires db.Valid() && pages.Keys == db.pages.Keys && row in pages
    requires forall id :: id in pages ==>
      pages[id].version == db.pages[id].version && pages[id].content == db.pages[id].content
    ensures Effect(db, Translated(db, pages, "", "", Some(row), t, now))
  {
    var db' := Translated(db, pages, "", "", Some(row), t, now);
    var before := if db.HasHistory(row) then db.history else db.history + [Now(db, row)];
    assert db'.history == before + [Now(db', row)];
    forall id | id in db.pages ensures LeftAlone(db, db', id) || SavedOnce(db, db', id) {
      SaveLog(db.history, Now(db, row), Now(db', row), id);
    }
  }

  lemma FirstEffect(db: Db, pages: map<nat, PageRow>, slug: string, template: string, t: Translation, now: int)
    requires db.Valid() && pages.Keys == db.pages.Keys
    requires forall id :: id in pages ==>
      pages[id].version == db.pages[id].version && pages[id].content == db.pages[id].content
    ensures Effect(db, Translated(db, pages, slug, template, None, t, now))
  {
    var db' := Translated(db, pages, slug, template, None, t, now);
    SnapshotsEmpty(db.history, db.nextId);
    forall id | id in db'.pages
      ensures if id in db.pages then LeftAlone(db, db', id) else Born(db', id)
    {
      SnapshotsAppend(db.history, Now(db', db.nextId), id);
      if id !in db.pages {
        assert id == db.nextId && SnapshotsOf(db.history, id) == [];
        assert SnapshotsOf(db'.history, id) == [Now(db', id)];
      }
    }
  }

  lemma TranslateEffect(
    db: Db, pages: map<nat, PageRow>, slug: string, template: string, row: Option<nat>, t: Translation, now: int)
    requires db.Valid() && pages.Keys == db.pages.Keys && (row.Some? ==> row.value in pages)
    requires forall id :: id in pages ==>
      pages[id].version == db.pages[id].version && pages[id].content == db.pages[id].content
    ensures Effect(db, Translated(db, pages, slug, template, row, t, now))
  {
    match row
    case Some(id) =>
      SaveEffect(db, pages, id, t, now);
      assert Translated(db, pages, slug, template, row, t, now) == Translated(db, pages, "", "", Some(id), t, now);
    case None => FirstEffect(db, pages, slug, template, t, now);
  }

  lemma EffectIgnoresRedirects(db: Db, db': Db, redirects: Table)
    requires Effect(db, db')
    ensures Effect(db, db'.(redirects := redirects))
  {
    var db'' := db'.(redirects := redirects);
    forall id | id in db.pages ensures LeftAlone(db, db'', id) || SavedOnce(db, db'', id) {
      assert LeftAlone(db, db', id) || SavedOnce(db, db', id);
    }
    forall id | id in db''.pages && id !in db.pages ensures Born(db'', id) {
      assert Born(db', id);
    }
  }

  lemma UpdateEffect(db: Db, slug: string, input: SetPage, now: int, actorId: Option<string>)
    requires db.Valid()
    ensures Effect(db, Updated(db, slug, input, now, actorId))
  {
    if !Refuses(db, slug, input) && input.translation.Some? {
      var next := NextSlug(slug, input);
      var t := input.translation.value;
      var pages := Regrouped(db.pages, slug, next, input.template);
      var template := input.template.GetOr(TemplateOf(db, slug));
      TranslateEffect(db, pages, next.GetOr(slug), template, db.Row(slug, t.locale), t, now);
      EffectIgnoresRedirects(db, Translated(db, pages, next.GetOr(slug), template, db.Row(slug, t.locale), t, now),
                             MovedRedirects(db, slug, next, actorId));
    }
  }

  lemma StepEffect(db: Db, op: Op)
    requires db.Valid()
    ensures Effect(db, Step(db, op))
  {
    match op
    case Create(slug, locale, title, template) => CreateEffect(db, slug, locale, title, template);
    case Update(slug, input, now, actorId) => UpdateEffect(db, slug, input, now, actorId);
    case Restore(slug, version) => RestoreEffect(db, slug, version);
  }

  lemma StepValid(db: Db, op: Op)
    requires db.Valid()
    ensures Step(db, op).Valid()
    ensures db.history <= Step(db, op).history
  {
    if op.Update? && !Refuses(db, op.slug, op.input) { UpdateValid(db, op.slug, op.input, op.now, op.actorId); }
  }

  /** Moving a group to a free slug keeps languages apart and the template shared. */
  lemma RegroupValid(db: Db, slug: string, next: Option<string>, template: Option<string>)
    requires db.Valid() && (next.Some? ==> !db.Taken(next.value))
    ensures db.(pages := Regrouped(db.pages, slug, next, template)).Valid()
  {
    var pages := Regrouped(db.pages, slug, next, template);
    forall i, j | i in pages && j in pages && pages[i].slug == pages[j].slug
      ensures db.pages[i].slug == db.pages[j].slug && pages[i].template == pages[j].template
    {
    }
  }

  lemma SaveValid(db: Db, pages: map<nat, PageRow>, id: nat, t: Translation, now: int)
    requires db.Valid() && db.(pages := pages).Valid() && pages.Keys == db.pages.Keys && id in pages
    ensures Translated(db, pages, "", "", Some(id), t, now).Valid()
  {
    var db' := Translated(db, pages, "", "", Some(id), t, now);
    assert forall i :: 0 <= i < |db'.history| ==> db'.history[i] in db.history || db'.history[i].pageId == id;
  }

  lemma FirstValid(db: Db, pages: map<nat, PageRow>, slug: string, template: string, t: Translation, now: int)
    requires db.Valid() && db.(pages := pages).Valid() && pages.Keys == db.pages.Keys
    requires forall id :: id in pages && pages[id].slug == slug ==>
      pages[id].template == template && pages[id].locale != t.locale
    ensures Translated(db, pages, slug, template, None, t, now).Valid()
  {
    var db' := Translated(db, pages, slug, template, None, t, now);
    assert forall i :: 0 <= i < |db'.history| ==> db'.history[i] in db.history || db'.history[i].pageId == db.nextId;
  }

  lemma TranslateValid(
    db: Db, pages: map<nat, PageRow>, slug: string, template: string, row: Option<nat>, t: Translation, now: int)
    requires db.Valid() && db.(pages := pages).Valid() && pages.Keys == db.pages.Keys
    requires row.Some? ==> row.value in pages
    requires row.None? ==> forall id :: id in pages && pages[id].slug == slug ==>
      pages[id].template == template && pages[id].locale != t.locale
    ensures Translated(db, pages, slug, template, row, t, now).Valid()
    ensures db.history <= Translated(db, pages, slug, template, row, t, now).history
  {
    match row
    case Some(id) =>
      SaveValid(db, pages, id, t, now);
      assert Translated(db, pages, slug, template, row, t, now) == Translated(db, pages, "", "", Some(id), t, now);
    case None => FirstValid(db, pages, slug, template, t, now);
  }

  lemma UpdateValid(db: Db, slug: string, input: SetPage, now: int, actorId: Option<string>)
    requires db.Valid() && !Refuses(db, slug, input)
    ensures Updated(db, slug, input, now, actorId).Valid()
    ensures db.history <= Updated(db, slug, input, now, actorId).history
  {
    var next := NextSlug(slug, input);
    var pages := Regrouped(db.pages, slug, next, input.template);
    RegroupValid(db, slug, next, input.template);
    if input.translation.Some? {
      var t := input.translation.value;
      var template := input.template.GetOr(TemplateOf(db, slug));
      forall id | id in pages && pages[id].slug == next.GetOr(slug)
        ensures pages[id].template == template
        ensures db.pages[id].slug == slug
      {
        assert db.InGroup(id, slug);
      }
      TranslateValid(db, pages, next.GetOr(slug), template, db.Row(slug, t.locale), t, now);
    }
  }

  // --- over whole runs ------------------------------------------------------------------

  /** Versions go up by one, and the last snapshot is the live row. */
  predicate Agrees(log: seq<Snapshot>, now: Snapshot) {
    log != [] ==>
      && log[|log| - 1] == now
      && forall i :: 0 <= i < |log| ==> log[i].version + (|log| - 1 - i) == now.version
  }

  ghost predicate LogsAgree(db: Db) {
    forall id :: id in db.pages ==> Agrees(SnapshotsOf(db.history, id), Now(db, id))
  }

  function Contents(log: seq<Snapshot>): seq<Content> {
    seq(|log|, i requires 0 <= i < |log| => log[i].content)
  }

  /** The copies a row is known to have held: its log, or only its present copy. */
  function Known(log: seq<Snapshot>, now: Snapshot): seq<Content> {
    if log == [] then [now.content] else Contents(log)
  }

  lemma GrownAgrees(log: seq<Snapshot>, was: Snapshot, now: Snapshot)
    requires Agrees(log, was) && now.version == was.version + 1
    ensures Agrees(Grown(log, was, now), now)
    ensures Known(Grown(log, was, now), now) == Known(log, was) + [now.content]
    ensures was in Grown(log, was, now)
  {
    var grown := Grown(log, was, now);
    assert grown[|grown| - 2] == was;
    assert Contents(grown) == Known(log, was) + [now.content];
  }

  /** The tables, and for every row the copies it has held, observed from outside the log. */
  datatype Observed = Observed(db: Db, held: map<nat, seq<Content>>)

  /** After each operation, a row whose version moved is seen to hold its new copy. */
  ghost function Observe(o: Observed, db': Db): Observed {
    Observed(db', map id | id in db'.pages ::
      if id !in o.db.pages || id !in o.held then [db'.pages[id].content]
      else if db'.pages[id].version == o.db.pages[id].version then o.held[id]
      else o.held[id] + [db'.pages[id].content])
  }

  ghost function Run(start: Db, ops: seq<Op>): Observed {
    if ops == [] then Observed(start, 
      map id | id in start.pages :: Known(SnapshotsOf(start.history, id), Now(start, id)))
    else
      var o := Run(start, ops[..|ops| - 1]);
      Observe(o, Step(o.db, ops[|ops| - 1]))
  }

  /** The log is exactly the copies the row has held; a row never saved has no log and one copy. */
  ghost predicate LogIsHeld(o: Observed, id: nat)
    requires id in o.db.pages
  {
    id in o.held && o.held[id] == Known(SnapshotsOf(o.db.history, id), Now(o.db, id))
  }

  lemma StepKeepsLog(o: Observed, op: Op, id: nat)
    requires o.db.Valid() && LogsAgree(o.db)
    requires forall i :: i in o.db.pages ==> LogIsHeld(o, i)
    requires id in Step(o.db, op).pages
    ensures Agrees(SnapshotsOf(Step(o.db, op).history, id), Now(Step(o.db, op), id))
    ensures LogIsHeld(Observe(o, Step(o.db, op)), id)
  {
    var db' := Step(o.db, op);
    StepEffect(o.db, op);
    EffectKeepsLog(o, db', id);
  }

  lemma EffectKeepsLog(o: Observed, db': Db, id: nat)
    requires Effect(o.db, db') && id in db'.pages
    requires id in o.db.pages ==> LogIsHeld(o, id) && Agrees(SnapshotsOf(o.db.history, id), Now(o.db, id))
    ensures Agrees(SnapshotsOf(db'.history, id), Now(db', id))
    ensures LogIsHeld(Observe(o, db'), id)
  {
    if id !in o.db.pages {
      assert Born(db', id);
      assert Contents([Now(db', id)]) == [db'.pages[id].content];
    } else if LeftAlone(o.db, db', id) {
      assert Now(db', id) == Now(o.db, id);
    } else {
      assert SavedOnce(o.db, db', id);
      GrownAgrees(SnapshotsOf(o.db.history, id), Now(o.db, id), Now(db', id));
    }
  }

  /**
   * After any run of creates, saves, renames and restores, every row's log has
   * contiguous versions ending at the row's version, agrees with the live row,
   * and is exactly the copies the row held, in order.
   */
  lemma {:induction false} RunKeepsHistory(start: Db, ops: seq<Op>)
    requires start.Valid() && LogsAgree(start)
    ensures var o := Run(start, ops);
            && o.db.Valid() && LogsAgree(o.db)
            && (forall id :: id in o.db.pages ==> LogIsHeld(o, id))
            && start.history <= o.db.history
  {
    if ops != [] {
      var before := ops[..|ops| - 1];
      RunKeepsHistory(start, before);
      var o := Run(start, before);
      StepValid(o.db, ops[|ops| - 1]);
      var o' := Run(start, ops);
      forall id | id in o'.db.pages 
        ensures Agrees(SnapshotsOf(o'.db.history, id), Now(o'.db, id)) && LogIsHeld(o', id)
      {
        StepKeepsLog(o, ops[|ops| - 1], id);
      }
    }
  }

  /** A row's log holds every snapshot of the row. */
  lemma {:induction false} SnapshotsHold(history: seq<Snapshot>, n: nat)
    requires n < |history|
    ensures history[n] in SnapshotsOf(history, history[n].pageId)
  {
    if n < |history| - 1 {
      SnapshotsHold(history[..|history| - 1], n);
    }
  }

  lemma LogContent(log: seq<Snapshot>, s: Snapshot, now: Snapshot)
    requires s in log
    ensures s.content in Known(log, now)
  {
    var i :| 0 <= i < |log| && log[i] == s;
    assert Contents(log)[i] == s.content;
  }

  lemma RestoredRow(db: Db, slug: string, version: nat)
    requires db.Valid() && CanRestore(db, slug, version)
    ensures var db' := Restored(db, slug, version);
            var id := db.history[version].pageId;
            && id in db.pages && db'.redirects == db.redirects
            && db'.pages == db.pages[id := db.pages[id].(
                 content := db.history[version].content, version := db.pages[id].version + 1)]
  {
  }

  lemma ObserveRestore(o: Observed, slug: string, version: nat)
    requires o.db.Valid() && o.held.Keys == o.db.pages.Keys && CanRestore(o.db, slug, version)
    ensures var o' := Observe(o, Restored(o.db, slug, version));
            var id, copy := o.db.history[version].pageId, o.db.history[version].content;
            && id in o.held && o'.held == o.held[id := o.held[id] + [copy]]
  {
    RestoredRow(o.db, slug, version);
  }

  lemma {:induction false} HeldKeys(start: Db, ops: seq<Op>)
    ensures Run(start, ops).held.Keys == Run(start, ops).db.pages.Keys
  {
  }

  /** The content of any snapshot in the log is a copy its row has held. */
  lemma SnapshotWasHeld(start: Db, ops: seq<Op>, n: nat)
    requires start.Valid() && LogsAgree(start) && n < |Run(start, ops).db.history|
    ensures var o := Run(start, ops);
            var s := o.db.history[n];
            s.pageId in o.db.pages && s.pageId in o.held && s.content in o.held[s.pageId]
  {
    var o := Run(start, ops);
    var s := o.db.history[n];
    RunKeepsHistory(start, ops);
    assert s.pageId in o.db.pages && LogIsHeld(o, s.pageId);
    SnapshotsHold(o.db.history, n);
    LogContent(SnapshotsOf(o.db.history, s.pageId), s, Now(o.db, s.pageId));
  }

  /**
   * What a restore does after any run: it puts back a copy the row really held, adds
   * that copy to what the row has held under the next version, and leaves every other
   * row, status, date and redirect as it was.
   */
  lemma RestoreIsRecorded(start: Db, ops: seq<Op>, slug: string, version: nat)
    requires start.Valid() && LogsAgree(start) && CanRestore(Run(start, ops).db, slug, version)
    ensures var o := Run(start, ops);
            var o' := Run(start, ops + [Restore(slug, version)]);
            var id, copy := o.db.history[version].pageId, o.db.history[version].content;
            && id in o.db.pages && id in o.held && copy in o.held[id]
            && o'.held == o.held[id := o.held[id] + [copy]]
            && o'.db.pages == o.db.pages[id := o.db.pages[id].(content := copy, version := o.db.pages[id].version + 1)]
            && o'.db.redirects == o.db.redirects
  {
    var o := Run(start, ops);
    RunAndRestore(start, ops, slug, version);
    SnapshotWasHeld(start, ops, version);
    RunIsValid(start, ops);
    HeldKeys(start, ops);
    RestoredRow(o.db, slug, version);
    ObserveRestore(o, slug, version);
  }

  lemma RunAndRestore(start: Db, ops: seq<Op>, slug: string, version: nat)
    ensures Run(start, ops + [Restore(slug, version)]) ==
      Observe(Run(start, ops), Restored(Run(start, ops).db, slug, version))
  {
    var all := ops + [Restore(slug, version)];
    assert all[..|all| - 1] == ops && all[|all| - 1] == Restore(slug, version);
  }

  lemma RunIsValid(start: Db, ops: seq<Op>)
    requires start.Valid() && LogsAgree(start)
    ensures Run(start, ops).db.Valid()
  {
    RunKeepsHistory(start, ops);
  }

  /** The log of a saved row holds the state the save replaced. */
  lemma SaveKeepsReplaced(db: Db, saved: Db, id: nat) returns (version: nat)
    requires db.Valid() && LogsAgree(db) && Effect(db, saved)
    requires id in db.pages && id in saved.pages && saved.pages[id].version == db.pages[id].version + 1
    ensures version < |saved.history| && saved.history[version] == Now(db, id)
  {
    assert SavedOnce(db, saved, id);
    GrownAgrees(SnapshotsOf(db.history, id), Now(db, id), Now(saved, id));
    SnapshotsEmpty(saved.history, id);
    version :| 0 <= version < |saved.history| && saved.history[version] == Now(db, id);
  }

  lemma SavedAddress(db: Db, slug: string, input: SetPage, now: int, actorId: Option<string>, id: nat)
    requires !Refuses(db, slug, input)
    requires input.translation.Some? && db.Row(slug, input.translation.value.locale) == Some(id)
    ensures var saved := Updated(db, slug, input, now, actorId);
            && id in db.pages && saved.InGroup(id, NextSlug(slug, input).GetOr(slug))
            && saved.pages[id].version == db.pages[id].version + 1
  {
  }

  /** A save of an existing row is undone by restoring the version it replaced, which the log always has. */
  lemma RestoreUndoesSave(
    db: Db, slug: string, input: SetPage, now: int, actorId: Option<string>, id: nat)
    returns (version: nat)
    requires db.Valid() && LogsAgree(db) && !Refuses(db, slug, input)
    requires input.translation.Some? && db.Row(slug, input.translation.value.locale) == Some(id)
    ensures var saved := Updated(db, slug, input, now, actorId);
            var address := NextSlug(slug, input).GetOr(slug);
            && CanRestore(saved, address, version)
            && saved.history[version] == Now(db, id)
            && var back := Restored(saved, address, version);
               && back.pages[id].content == db.pages[id].content
               && back.pages[id].version == db.pages[id].version + 2
               && back.pages[id].status == saved.pages[id].status
               && back.pages[id].publishedAt == saved.pages[id].publishedAt
  {
    UpdateEffect(db, slug, input, now, actorId);
    SavedAddress(db, slug, input, now, actorId, id);
    version := SaveKeepsReplaced(db, Updated(db, slug, input, now, actorId), id);
  }

  // --- publication dates ------------------------------------------------------------------

  lemma CreateKeepsStamp(db: Db, slug: string, locale: Locale, title: string, template: string, id: nat)
    requires db.Valid() && id in db.pages
    ensures var db' := Created(db, slug, locale, title, template); id in db'.pages && db'.pages[id] == db.pages[id]
  {
  }

  lemma UpdateKeepsStamp(db: Db, slug: string, input: SetPage, now: int, actorId: Option<string>, id: nat)
    requires db.Valid() && id in db.pages && db.pages[id].publishedAt.Some?
    ensures var db' := Updated(db, slug, input, now, actorId);
            id in db'.pages && db'.pages[id].publishedAt == db.pages[id].publishedAt
  {
  }

  lemma RestoreKeepsStamp(db: Db, slug: string, version: nat, id: nat)
    requires db.Valid() && id in db.pages
    ensures var db' := Restored(db, slug, version);
            id in db'.pages && db'.pages[id].publishedAt == db.pages[id].publishedAt
  {
  }

  /** Once a page carries a date, no operation on pages moves it. */
  lemma StepKeepsStamp(db: Db, op: Op, id: nat)
    requires db.Valid() && id in db.pages && db.pages[id].publishedAt.Some?
    ensures id in Step(db, op).pages && Step(db, op).pages[id].publishedAt == db.pages[id].publishedAt
  {
    match op
    case Create(slug, locale, title, template) => CreateKeepsStamp(db, slug, locale, title, template, id);
    case Update(slug, input, now, actorId) => UpdateKeepsStamp(db, slug, input, now, actorId, id);
    case Restore(slug, version) => RestoreKeepsStamp(db, slug, version, id);
  }

  lemma {:induction false} RunKeepsStamp(start: Db, ops: seq<Op>, id: nat)
    requires start.Valid() && LogsAgree(start)
    requires id in start.pages && start.pages[id].publishedAt.Some?
    ensures id in Run(start, ops).db.pages
    ensures Run(start, ops).db.pages[id].publishedAt == start.pages[id].publishedAt
  {
    if ops != [] {
      RunKeepsStamp(start, ops[..|ops| - 1], id);
      RunKeepsHistory(start, ops[..|ops| - 1]);
      StepKeepsStamp(Run(start, ops[..|ops| - 1]).db, ops[|ops| - 1], id);
    }
  }

  // --- addresses and bodies over whole runs -----------------------------------------------------

  /** Every page is where the storefront can serve it. */
  ghost predicate Addressable(db: Db) {
    forall id :: id in db.pages ==> IsSlug(db.pages[id].slug) && db.pages[id].slug !in RESERVED_PAGE_SLUGS
  }

  /** An edit leaves the slug of a group as it was, or takes it to one that is free, well formed and not reserved. */
  lemma UpdateMovesOnlyTo(db: Db, slug: string, input: SetPage, now: int, actorId: Option<string>)
    requires db.Valid() && !Refuses(db, slug, input) && AddressAfter(slug, input) != slug
    ensures var to := AddressAfter(slug, input);
            IsSlug(to) && to !in RESERVED_PAGE_SLUGS && !db.Taken(to) && slug !in PINNED_PAGE_SLUGS
  {
  }

  lemma UpdateAddressable(db: Db, slug: string, input: SetPage, now: int, actorId: Option<string>)
    requires db.Valid() && Addressable(db) && !Refuses(db, slug, input)
    ensures Addressable(Updated(db, slug, input, now, actorId))
  {
    var db' := Updated(db, slug, input, now, actorId);
    var any :| any in db.pages && db.pages[any].slug == slug;
    if AddressAfter(slug, input) != slug { UpdateMovesOnlyTo(db, slug, input, now, actorId); }
    FirstStores(db, slug, input, now, actorId, any);
    forall id | id in db'.pages ensures IsSlug(db'.pages[id].slug) && db'.pages[id].slug !in RESERVED_PAGE_SLUGS {
      if id in db.pages {
        UpdateStores(db, slug, input, now, actorId, id);
      } else {
        assert db'.pages[id].slug == AddressAfter(slug, input);
      }
    }
  }

  lemma StepAddressable(db: Db, op: Op)
    requires db.Valid() && Addressable(db)
    ensures Addressable(Step(db, op))
  {
    match op
    case Update(slug, input, now, actorId) =>
      if !Refuses(db, slug, input) { UpdateAddressable(db, slug, input, now, actorId); }
    case Create(slug, locale, title, template) =>
      if SlugUsable(db, slug) { CreateStores(db, slug, locale, title, template); }
    case Restore(slug, version) =>
      if CanRestore(db, slug, version) { RestoredRow(db, slug, version); }
  }

  lemma UpdateKeepsPinned(db: Db, slug: string, input: SetPage, now: int, actorId: Option<string>, pinned: string)
    requires db.Valid() && !Refuses(db, slug, input) && pinned in PINNED_PAGE_SLUGS && db.Taken(pinned)
    ensures Updated(db, slug, input, now, actorId).Taken(pinned)
  {
    var id :| id in db.pages && db.pages[id].slug == pinned;
    if AddressAfter(slug, input) != slug { UpdateMovesOnlyTo(db, slug, input, now, actorId); }
    UpdateStores(db, slug, input, now, actorId, id);
    assert Updated(db, slug, input, now, actorId).pages[id].slug == pinned;
  }

  lemma StepKeepsPinned(db: Db, op: Op, pinned: string)
    requires db.Valid() && pinned in PINNED_PAGE_SLUGS && db.Taken(pinned)
    ensures Step(db, op).Taken(pinned)
  {
    var id :| id in db.pages && db.pages[id].slug == pinned;
    match op
    case Update(slug, input, now, actorId) =>
      if !Refuses(db, slug, input) { UpdateKeepsPinned(db, slug, input, now, actorId, pinned); }
    case Create(slug, locale, title, template) =>
      CreateKeepsStamp(db, slug, locale, title, template, id);
      assert Step(db, op).pages[id].slug == pinned;
    case Restore(slug, version) =>
      if CanRestore(db, slug, version) { RestoredRow(db, slug, version); }
      assert Step(db, op).pages[id].slug == pinned;
  }

  /**
   * Over every run: no page gets a slug that is malformed or belongs to a route of its own,
   * and the two pages a route reads by name stay at their slugs for good.
   */
  lemma {:induction false} RunAddressable(start: Db, ops: seq<Op>, n: nat, pinned: string)
    requires start.Valid() && LogsAgree(start) && Addressable(start) && n <= |ops|
    ensures Addressable(Run(start, ops).db)
    ensures pinned in {"golden-warranty", "contact"} && Run(start, ops[..n]).db.Taken(pinned) ==> Run(start, ops).db.Taken(pinned)
    decreases |ops|
  {
    assert ops[..|ops|] == ops;
    if ops != [] {
      var done := ops[..|ops| - 1];
      RunIsValid(start, done);
      RunAddressable(start, done, if n < |ops| then n else 0, pinned);
      StepAddressable(Run(start, done).db, ops[|ops| - 1]);
      if n < |ops| {
        assert done[..n] == ops[..n];
        if pinned in PINNED_PAGE_SLUGS && Run(start, done).db.Taken(pinned) {
          StepKeepsPinned(Run(start, done).db, ops[|ops| - 1], pinned);
        }
      }
    }
  }
}
