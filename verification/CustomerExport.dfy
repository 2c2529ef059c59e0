/**
 * The customer list as CSV, read in batches behind a cursor.
 *
 * Customers are in the order of their ids; an id here is its rank in that order.
 * The table does not change while it is read. The search's letter comparison and
 * the text of one line are parameters: neither affects which customers are written.
 */
module CustomerExport {
  import opened Options

  datatype Consent = OPTED_IN | OPTED_OUT | NONE

  /** Both timestamps are kept; the later decides, and a tie is an opt-out. */
  function ConsentState(optInAt: Option<int>, optOutAt: Option<int>): Consent {
    if optInAt.Some? && (optOutAt.None? || optInAt.value > optOutAt.value) then OPTED_IN
    else if optOutAt.Some? then OPTED_OUT
    else NONE
  }

  datatype Customer = Customer(
    id: nat,
    email: string,
    firstName: Option<string>,
    lastName: Option<string>,
    optInAt: Option<int>,
    optOutAt: Option<int>,
    deletedAt: Option<int>)

  const EXPORT_BATCH := 500
  const SEARCH_WORDS := 5

  type Contains = (string, string) -> bool

  predicate FieldContains(field: Option<string>, word: string, contains: Contains) {
    field.Some? && contains(field.value, word)
  }

  /** Every word of the search, up to five, is somewhere in the customer; the erased are left out. */
  predicate IsFound(c: Customer, words: seq<string>, contains: Contains) {
    && c.deletedAt.None?
    && forall i :: 0 <= i < |words| && i < SEARCH_WORDS ==>
         || contains(c.email, words[i])
         || FieldContains(c.firstName, words[i], contains)
         || FieldContains(c.lastName, words[i], contains)
  }

  /** The query's filter. It asks for an opt-in date only, and leaves the rest of the consent rule to `IsWritten`. */
  predicate IsAsked(c: Customer, words: seq<string>, contains: Contains, optedInOnly: bool) {
    IsFound(c, words, contains) && (optedInOnly ==> c.optInAt.Some?)
  }

  /** What the row itself is asked. */
  predicate IsWritten(c: Customer, optedInOnly: bool) {
    optedInOnly ==> ConsentState(c.optInAt, c.optOutAt) == OPTED_IN
  }

  // --- the query ----------------------------------------------------------------------

  function Filter(rows: seq<Customer>, keep: Customer -> bool): seq<Customer> {
    if rows == [] then []
    else if keep(rows[0]) then [rows[0]] + Filter(rows[1..], keep)
    else Filter(rows[1..], keep)
  }

  predicate InIdOrder(rows: seq<Customer>) {
    forall i, j :: 0 <= i < j < |rows| ==> rows[i].id < rows[j].id
  }

  function Page(rows: seq<Customer>, skip: nat, take: nat): seq<Customer> {
    if skip >= |rows| then []
    else if |rows| - skip <= take then rows[skip..]
    else rows[skip..skip + take]
  }

  /** One query: the rows asked for from the cursor's on, without the cursor's own. */
  function FindMany(rows: seq<Customer>, where: Customer -> bool, cursor: Option<nat>, take: nat): seq<Customer> {
    match cursor
    case None => Page(Filter(rows, where), 0, take)
    case Some(id) => Page(Filter(rows, c => where(c) && c.id >= id), 1, take)
  }

  // --- the export ----------------------------------------------------------------------

  function Lines(rows: seq<Customer>, line: Customer -> string): string {
    if rows == [] then "" else line(rows[0]) + Lines(rows[1..], line)
  }

  function Joined(chunks: seq<string>): string {
    if chunks == [] then "" else Joined(chunks[..|chunks| - 1]) + chunks[|chunks| - 1]
  }

  /** The customers of the file: found by the search and, when only they are wanted, consenting now. */
  function Selected(rows: seq<Customer>, words: seq<string>, contains: Contains, optedInOnly: bool): seq<Customer> {
    Filter(rows, c => IsFound(c, words, contains) && IsWritten(c, optedInOnly))
  }

  function Batches(n: nat): nat {
    (n + EXPORT_BATCH - 1) / EXPORT_BATCH
  }

  function Asked(words: seq<string>, contains: Contains, optedInOnly: bool): Customer -> bool {
    c => IsAsked(c, words, contains, optedInOnly)
  }

  function Written(optedInOnly: bool): Customer -> bool {
    c => IsWritten(c, optedInOnly)
  }

  /**
   * The export's loop. However many batches it takes, it ends, and its chunks make
   * up one pass over the selected customers in the order of their ids.
   */
  method ExportCsv(
    rows: seq<Customer>, words: seq<string>, contains: Contains, optedInOnly: bool,
    preamble: string, header: string, line: Customer -> string)
    returns (yielded: seq<string>)
    requires InIdOrder(rows)
    ensures Joined(yielded) == preamble + header + Lines(Selected(rows, words, contains, optedInOnly), line)
    ensures |yielded| == 2 + Batches(|Filter(rows, Asked(words, contains, optedInOnly))|)
    ensures |yielded| == 2 + (|Filter(rows, Asked(words, contains, optedInOnly))| + 499) / 500
  {
    yielded := [preamble, header];
    var where := Asked(words, contains, optedInOnly);
    ghost var asked, front := Filter(rows, where), preamble + header;
    ghost var read: seq<Customer> := [];
    var cursor: Option<nat> := None;
    NothingRead(preamble, header, Written(optedInOnly), line);
    while true
      invariant read <= asked && IsWhole(|read|) && IsCursor(read, cursor)
      invariant Holds(yielded, read, Written(optedInOnly), line, front)
      decreases |asked| - |read|
    {
      var batch := ReadBatch(rows, where, cursor, read);
      if batch == [] {
        assert read + batch == read;
        break;
      }
      var chunk := Chunk(batch, optedInOnly, line);
      OneBatchMore(yielded, read, batch, Written(optedInOnly), line, front);
      yielded := yielded + [chunk];
      cursor := Some(batch[|batch| - 1].id);
      read := read + batch;
      if |batch| < EXPORT_BATCH { break; }
      OneBatchWhole(|read| - EXPORT_BATCH);
    }
    AskedAndWritten(rows, words, contains, optedInOnly);
  }

  /** What has been yielded once these rows are read. */
  ghost predicate Holds(
    yielded: seq<string>, read: seq<Customer>, kept: Customer -> bool, line: Customer -> string, front: string)
  {
    Joined(yielded) == front + Lines(Filter(read, kept), line) && |yielded| == 2 + Batches(|read|)
  }

  /** A whole number of batches. */
  predicate IsWhole(n: nat) { n % EXPORT_BATCH == 0 }

  lemma OneBatchWhole(n: nat)
    requires IsWhole(n)
    ensures IsWhole(n + EXPORT_BATCH)
  {
  }

  /** The cursor is the last of the rows already read. */
  ghost predicate IsCursor(read: seq<Customer>, cursor: Option<nat>) {
    cursor == if read == [] then None else Some(read[|read| - 1].id)
  }

  /** One query goes on exactly where the last batch stopped. */
  method ReadBatch(rows: seq<Customer>, where: Customer -> bool, cursor: Option<nat>, ghost read: seq<Customer>)
    returns (batch: seq<Customer>)
    requires InIdOrder(rows) && read <= Filter(rows, where) && IsCursor(read, cursor)
    ensures read + batch <= Filter(rows, where) && |batch| <= EXPORT_BATCH
    ensures |batch| < EXPORT_BATCH ==> read + batch == Filter(rows, where)
  {
    batch := FindMany(rows, where, cursor, EXPORT_BATCH);
    NextBatch(rows, where, read, cursor);
  }

  /** One batch as text, leaving out the rows whose consent does not stand. */
  method Chunk(batch: seq<Customer>, optedInOnly: bool, line: Customer -> string) returns (chunk: string)
    ensures chunk == Lines(Filter(batch, Written(optedInOnly)), line)
  {
    ghost var kept := Written(optedInOnly);
    chunk := "";
    for n := 0 to |batch|
      invariant chunk == Lines(Filter(batch[..n], kept), line)
    {
      assert batch[..n + 1] == batch[..n] + [batch[n]];
      FilterAppend(batch[..n], [batch[n]], kept);
      LinesAppend(Filter(batch[..n], kept), Filter([batch[n]], kept), line);
      if optedInOnly && ConsentState(batch[n].optInAt, batch[n].optOutAt) != OPTED_IN { continue; }
      chunk := chunk + line(batch[n]);
    }
    assert batch[..|batch|] == batch;
  }

  // --- filters -------------------------------------------------------------------------

  lemma {:induction false} FilterAppend(a: seq<Customer>, b: seq<Customer>, keep: Customer -> bool)
    ensures Filter(a + b, keep) == Filter(a, keep) + Filter(b, keep)
  {
    if a == [] {
      assert a + b == b;
    } else {
      assert (a + b)[0] == a[0] && (a + b)[1..] == a[1..] + b;
      FilterAppend(a[1..], b, keep);
    }
  }

  lemma {:induction false} LinesAppend(a: seq<Customer>, b: seq<Customer>, line: Customer -> string)
    ensures Lines(a + b, line) == Lines(a, line) + Lines(b, line)
  {
    if a == [] {
      assert a + b == b;
    } else {
      assert (a + b)[0] == a[0] && (a + b)[1..] == a[1..] + b;
      LinesAppend(a[1..], b, line);
    }
  }

  lemma {:induction false} FilterTwice(rows: seq<Customer>, p: Customer -> bool, q: Customer -> bool)
    ensures Filter(Filter(rows, p), q) == Filter(rows, c => p(c) && q(c))
  {
    if rows != [] {
      FilterTwice(rows[1..], p, q);
      FilterAppend(if p(rows[0]) then [rows[0]] else [], Filter(rows[1..], p), q);
    }
  }

  lemma {:induction false} SameFilter(rows: seq<Customer>, p: Customer -> bool, q: Customer -> bool)
    requires forall i :: 0 <= i < |rows| ==> p(rows[i]) == q(rows[i])
    ensures Filter(rows, p) == Filter(rows, q)
  {
    if rows != [] {
      SameFilter(rows[1..], p, q);
    }
  }

  /** The database's half of the condition and the row's half are the whole of it. */
  lemma AskedAndWritten(rows: seq<Customer>, words: seq<string>, contains: Contains, optedInOnly: bool)
    ensures Filter(Filter(rows, Asked(words, contains, optedInOnly)), Written(optedInOnly)) ==
      Selected(rows, words, contains, optedInOnly)
  {
    var p, q := Asked(words, contains, optedInOnly), Written(optedInOnly);
    FilterTwice(rows, p, q);
    SameFilter(rows, c => p(c) && q(c), c => IsFound(c, words, contains) && IsWritten(c, optedInOnly));
  }

  lemma JoinedPair(a: string, b: string)
    ensures Joined([a, b]) == a + b
  {
    assert [a, b][..1] == [a] && [a][..0] == [];
    assert Joined([a]) == a;
  }

  lemma NothingRead(preamble: string, header: string, kept: Customer -> bool, line: Customer -> string)
    ensures Holds([preamble, header], [], kept, line, preamble + header)
  {
    JoinedPair(preamble, header);
    assert Batches(0) == 0 && Lines([], line) == "";
    assert preamble + header + "" == preamble + header;
  }

  lemma JoinedMore(chunks: seq<string>, front: string, body: string, chunk: string)
    requires Joined(chunks) == front + body
    ensures Joined(chunks + [chunk]) == front + (body + chunk)
  {
    assert (chunks + [chunk])[..|chunks|] == chunks;
    assert front + body + chunk == front + (body + chunk);
  }

  lemma LinesMore(read: seq<Customer>, batch: seq<Customer>, kept: Customer -> bool, line: Customer -> string)
    ensures Lines(Filter(read + batch, kept), line) == Lines(Filter(read, kept), line) + Lines(Filter(batch, kept), line)
  {
    FilterAppend(read, batch, kept);
    LinesAppend(Filter(read, kept), Filter(batch, kept), line);
  }

  lemma BatchesMore(n: nat, size: nat)
    requires n % EXPORT_BATCH == 0 && 0 < size <= EXPORT_BATCH
    ensures Batches(n + size) == Batches(n) + 1
  {
  }

  /** One batch further, the file grows by the lines of that batch. */
  lemma OneBatchMore(
    yielded: seq<string>, read: seq<Customer>, batch: seq<Customer>,
    kept: Customer -> bool, line: Customer -> string, front: string)
    requires IsWhole(|read|) && 0 < |batch| <= EXPORT_BATCH
    requires Holds(yielded, read, kept, line, front)
    ensures Holds(yielded + [Lines(Filter(batch, kept), line)], read + batch, kept, line, front)
  {
    var chunk := Lines(Filter(batch, kept), line);
    LinesMore(read, batch, kept, line);
    BatchesMore(|read|, |batch|);
    JoinedMore(yielded, front, Lines(Filter(read, kept), line), chunk);
  }

  /** What is kept is what was there and satisfies the condition. */
  lemma {:induction false} FilterKeeps(rows: seq<Customer>, keep: Customer -> bool)
    ensures forall c :: c in Filter(rows, keep) <==> c in rows && keep(c)
  {
    if rows != [] {
      FilterKeeps(rows[1..], keep);
      assert forall c :: c in rows <==> c == rows[0] || c in rows[1..];
    }
  }

  lemma {:induction false} FilterInOrder(rows: seq<Customer>, keep: Customer -> bool)
    requires InIdOrder(rows)
    ensures InIdOrder(Filter(rows, keep))
  {
    if rows != [] {
      FilterInOrder(rows[1..], keep);
      FilterKeeps(rows[1..], keep);
      var rest := Filter(rows[1..], keep);
      forall j | 0 <= j < |rest| ensures rows[0].id < rest[j].id {
        assert rest[j] in rows[1..];
      }
    }
  }

  function FromId(id: nat): Customer -> bool {
    (c: Customer) => c.id >= id
  }

  /** In id order, the rows from a cursor on are the rows from its place on. */
  lemma {:induction false} FromCursor(rows: seq<Customer>, n: nat)
    requires InIdOrder(rows) && n < |rows|
    ensures Filter(rows, FromId(rows[n].id)) == rows[n..]
  {
    if n == 0 {
      assert rows[0..] == rows;
      FilterAll(rows, FromId(rows[0].id));
    } else {
      assert rows[1..][n - 1] == rows[n] && rows[1..][n - 1..] == rows[n..];
      FromCursor(rows[1..], n - 1);
    }
  }

  lemma {:induction false} FilterAll(rows: seq<Customer>, keep: Customer -> bool)
    requires forall i :: 0 <= i < |rows| ==> keep(rows[i])
    ensures Filter(rows, keep) == rows
  {
    if rows != [] { FilterAll(rows[1..], keep); }
  }

  lemma {:induction false} FilterNone(rows: seq<Customer>, keep: Customer -> bool)
    requires forall i :: 0 <= i < |rows| ==> !keep(rows[i])
    ensures Filter(rows, keep) == []
  {
    if rows != [] { FilterNone(rows[1..], keep); }
  }

  lemma QueryFrom(rows: seq<Customer>, where: Customer -> bool, id: nat)
    ensures Filter(rows, c => where(c) && c.id >= id) == Filter(Filter(rows, where), FromId(id))
  {
    FilterTwice(rows, where, FromId(id));
    SameFilter(rows, c => where(c) && FromId(id)(c), c => where(c) && c.id >= id);
  }

  /** Skipping the cursor's own row, the query starts at the first row not yet read. */
  lemma NextBatch(rows: seq<Customer>, where: Customer -> bool, read: seq<Customer>, cursor: Option<nat>)
    requires InIdOrder(rows) && read <= Filter(rows, where) && IsCursor(read, cursor)
    ensures FindMany(rows, where, cursor, EXPORT_BATCH) == Page(Filter(rows, where), |read|, EXPORT_BATCH)
  {
    if read != [] {
      var asked, last := Filter(rows, where), |read| - 1;
      assert asked[last] == read[last];
      FilterInOrder(rows, where);
      FromCursor(asked, last);
      QueryFrom(rows, where, cursor.value);
      SkipOne(asked, last);
    }
  }

  lemma SkipOne(rows: seq<Customer>, n: nat)
    requires n < |rows|
    ensures Page(rows[n..], 1, EXPORT_BATCH) == Page(rows, n + 1, EXPORT_BATCH)
  {
  }

  // --- what the file holds ----------------------------------------------------------------

  /**
   * The file's customers are in id order and each appears once: exactly those found
   * by the search who, when only they are wanted, consent now. Asking the database
   * for an opt-in first leaves nobody out.
   */
  lemma SelectedAreTheConsenting(
    rows: seq<Customer>, words: seq<string>, contains: Contains, optedInOnly: bool)
    requires InIdOrder(rows)
    ensures var file := Selected(rows, words, contains, optedInOnly);
            && InIdOrder(file)
            && (forall c :: c in file <==>
                  c in rows && IsFound(c, words, contains) &&
                  (optedInOnly ==> ConsentState(c.optInAt, c.optOutAt) == OPTED_IN))
            && (forall i, j :: 0 <= i < j < |file| ==> file[i] != file[j])
  {
    var keep := c => IsFound(c, words, contains) && IsWritten(c, optedInOnly);
    FilterInOrder(rows, keep);
    FilterKeeps(rows, keep);
  }

  /** A word that stands in a customer's email or in one of the two names. */
  predicate HasWord(c: Customer, word: string, contains: Contains) {
    || contains(c.email, word)
    || (c.firstName.Some? && contains(c.firstName.value, word))
    || (c.lastName.Some? && contains(c.lastName.value, word))
  }

  /**
   * Whom the file names, in the row's own terms: nobody erased; nobody without every one of
   * the first five words; when only the consenting are wanted, nobody who never opted in or
   * whose last opt-out is as late as the opt-in; and everybody else.
   */
  lemma FileHolds(rows: seq<Customer>, words: seq<string>, contains: Contains, optedInOnly: bool, c: Customer)
    requires InIdOrder(rows)
    ensures c in Selected(rows, words, contains, optedInOnly) <==>
      && c in rows && c.deletedAt.None?
      && (forall i :: 0 <= i < |words| && i < 5 ==> HasWord(c, words[i], contains))
      && (optedInOnly ==> c.optInAt.Some? && (c.optOutAt.Some? ==> c.optOutAt.value < c.optInAt.value))
  {
    SelectedAreTheConsenting(rows, words, contains, optedInOnly);
  }

  /** The text of a file: one line for each customer, in order. */
  lemma LinesGrow(rows: seq<Customer>, c: Customer, line: Customer -> string)
    ensures Lines([], line) == "" && Lines(rows + [c], line) == Lines(rows, line) + line(c)
  {
    LinesAppend(rows, [c], line);
    assert [c][1..] == [];
    assert Lines([c], line) == line(c);
  }

  // --- consent over time --------------------------------------------------------------------

  datatype Choice = In(at: int) | Out(at: int)

  /** The latest time of one kind of choice, which is all the row keeps. */
  function Latest(choices: seq<Choice>, kind: Choice -> bool): Option<int> {
    if choices == [] then None
    else
      var last := choices[|choices| - 1];
      if kind(last) then Some(last.at) else Latest(choices[..|choices| - 1], kind)
  }

  predicate InTimeOrder(choices: seq<Choice>) {
    forall i, j :: 0 <= i < j < |choices| ==> choices[i].at <= choices[j].at
  }

  lemma {:induction false} LatestIsLast(choices: seq<Choice>, kind: Choice -> bool)
    requires InTimeOrder(choices)
    ensures var t := Latest(choices, kind);
            && (t.Some? ==> exists i :: 0 <= i < |choices| && kind(choices[i]) && choices[i].at == t.value)
            && (forall i :: 0 <= i < |choices| && kind(choices[i]) ==> t.Some? && choices[i].at <= t.value)
  {
    if choices != [] && !kind(choices[|choices| - 1]) {
      var front := choices[..|choices| - 1];
      LatestIsLast(front, kind);
      assert forall i :: 0 <= i < |front| ==> front[i] == choices[i];
    }
  }

  /** The last recorded choice decides, except an opt-in at the very instant of an opt-out. */
  lemma LatestChoiceWins(choices: seq<Choice>)
    requires InTimeOrder(choices)
    ensures var state := ConsentState(Latest(choices, (c: Choice) => c.In?), Latest(choices, (c: Choice) => c.Out?));
            if choices == [] then state == NONE
            else
              var last := choices[|choices| - 1];
              && state != NONE
              && (state == OPTED_IN <==> last.In? && Out(last.at) !in choices)
  {
    LatestIsLast(choices, (c: Choice) => c.In?);
    LatestIsLast(choices, (c: Choice) => c.Out?);
    if choices != [] {
      var last := choices[|choices| - 1];
      assert forall i :: 0 <= i < |choices| ==> choices[i].at <= last.at;
    }
  }
}
