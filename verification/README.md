# A store back-end, modelled in Dafny

This project models the parts of a digital-goods store whose guarantees span
several writes, several requests or a whole run, and proves those guarantees.
Code that changes rows step by step is a class with methods, each method tied
to a function that describes the tables it leaves; the lemmas then follow those
functions over runs. Code made of expressions is functions and lemmas.

| area | files |
|---|---|
| addresses and redirects | `Redirects`, `Slugs`, `ContentSite` |
| stored documents and their editor | `Json`, `BlockSchema`, `Documents` |
| pages and their version log | `PageHistory`, `PageRuns`, `PageSite` |
| catalogue and cached price | `Catalogue`, `TermsRaces` |
| staff, sessions and the audit chain | `HashChain`, `AuditRuns`, `AuditPayload`, `StaffLifecycle`, `StaffRuns` |
| customer sign-in | `SignIn` |
| the panel's session refresh | `RefreshGate` |
| text | `ScriptJson`, `JsonReader`, `JsonText`, `WhatsappPhone`, `EnvFile`, `LatinSlug`, `DayKeys`, `Text`, `Options` |
| the customer export | `CustomerExport` |

`dafny verify dfyconfig.toml` checks everything.

## How to read the model

- **Tables** are maps and sequences; a transaction is one method. Money is in
  whole cents. Row ids are numbers, and in the export the rank of the id.
- **Concurrency** is modelled as steps. Customer sign-in requests are split at
  their statements (`SignIn.Next`), and any of them may die between two. A writer
  of the audit log asks for the newest row and stores its own apart
  (`AuditRuns.Next`). A staff sign-in checks the account and creates the session
  apart, and a deactivation checks and writes against the tables of its beginning
  (`StaffRuns.Next`). A change of a variant's terms is five statements
  (`TermsRaces.Next`). The panel's event loop interleaves responses, refresh
  answers and timers (`RefreshGate.Next`).
- **PostgreSQL's rules** are the model's: at the default isolation a statement sees
  what is committed when it starts, and a written row is locked until the commit; a
  serializable transaction sees the tables of its beginning, fails when a row it
  writes was written meanwhile, and fails when another serializable one that wrote
  overlaps it. Transactions at the default isolation are not checked against it.
- **Unseen code is a parameter** with the law it needs and no other: the HTML
  sanitiser is any idempotent function; SHA-256 any function to 64 hex digits,
  collision-free only on the two logs compared; NFKD, the kept scripts and lower
  case in slugs only have to leave lower-case Latin text alone; the search's
  letter comparison and the text of a CSV line may be anything.
- **Strings** are Unicode scalar values; where the source measures length the
  model counts UTF-16 code units. Stored JSON has no lone surrogates.

## Where the code and its comments part

Each is stated as an exact condition, for all inputs.

- A product rename leaves out the delete that a content move makes. Renaming a
  product away and back leaves an address that redirects to itself
  (`ProductThereAndBack`, `ProductMoveAcyclic`, `ProductRunAgrees`).
- A page or post renamed while unpublished writes no redirect, so redirects that
  already point at it are stranded (`ApplyKeepsLive`, `TakenDownAfterRename`,
  `StrandingRun`).
- `create-staff` can take the owner role from the only active owner. Deactivation
  checks that it does not, and its transaction is serializable, but `create-staff`'s
  is not: an owner reset in a lesser role while another is being deactivated leaves
  nobody (`NoOwnerLeft`). The panel keeps an owner exactly when neither happens
  (`RunKeepsOwner`), and the second takes such a reset between the deactivation's
  beginning and its commit (`TakenWhileDemoted`).
- Deactivation promises that no committed state has an account off and a session
  of it live. A staff sign-in checks the account, then the password and the code,
  and creates its session without looking again. A session created after the
  deactivation, or while it is under way and does not see it, leaves such a state.
  It holds exactly when neither happens (`RunSignedOut`, `LateSignInIsLive`,
  `MissedWasCreatedMeanwhile`). The session is never accepted, then or later
  (`StaleNeverAccepted`), and a second deactivation ends it
  (`SecondDeactivationRepairs`).
- A writer of the audit log reads the newest row and stores its own in two
  statements. The log stays one chain exactly when no row is stored under a head
  that is not the last row's (`RunStaysLinear`). Where the rows came out dated
  strictly up, that is when no row is stored between another writer's two
  statements (`RunOverlaps`); two writers that overlap fork it, with no tie and
  nothing out of order (`OverlapForks`). The query orders by time alone, so dates
  can fork it too: with nothing in between, an append is sure to continue the chain
  exactly when the last row is dated strictly after every other
  (`AppendStaysLinear`, `AppendAlwaysForks`).
- The walk calls a row's parent missing to mean that it was deleted. It says so of a
  log nobody deleted from as well: of a row whose writer was answered by an empty
  log that another writer then reached first, and of no other (`WalkOfRun`,
  `MissingWithoutDeletion`).
- The walk over the audit log promises that an edited row breaks every hash after
  it. It compares stored hashes and never recomputes one, so it reports no edit
  (`EditIsUnseen`). Cutting any number of rows off either end is not reported
  either (`DeletionIsFound`).
- The one-minute cooldown on sign-in links is checked, not enforced
  (`CooldownRaces`). It holds exactly when no request writes its link after
  another link of the same customer was written since it looked, within the last
  minute (`CooldownHolds`).
- A change of terms runs at the default isolation, so two that overlap can leave a
  cached minimum that is not the minimum, two defaults of one product, or a
  strike-through below the price (`StaleMinimum`, `TwoDefaults`,
  `StrikeBelowPrice`). None of the three happens exactly when no commit finds its
  minimum changed, a default its demotion did not see, or its variant as the check
  would have refused it (`RunStaysInOrder`).
- An identity write accepts the empty string as primary category although the
  product is in no such category (`EmptyPrimarySlipsThrough`,
  `EmptyPrimaryIsReachable`).
- `readEnvValue` returns the quotes with the value when a comment follows it
  (`SetThenRead`). With a key on two active lines, `parseEnvFile` does not see a freshly
  written secret (`SecretReadBack`).
- `dayKeys` gives text that is no calendar label for days before the year 0
  (`DayKeysAreLabels`, `DayBeforeYearZero`).
- `toLatinSlug` refuses a valid slug of one character (`SlugIsFixed`).

## Model

| member | source | states |
|---|---|---|
| Redirects.RedirectTable.RecordMove | apps/api/src/admin/content-redirect.ts:19-40 | The delete, the upsert and the bulk re-point together leave exactly the table described row by row: no row at the new address, the old address pointing at it with 301 and switched on, every row that pointed at the old address now pointing at the new |
| Redirects.MoveStores | apps/api/src/admin/content-redirect.ts:24-39 | For any table, rows that are off or temporary included: the old address leads to the new one with 301 and switched on, the new one has no row, and of every other row only the target can have changed |
| Redirects.MoveResolution | apps/api/src/admin/content-redirect.ts:24-39 | For any table, cyclic or not, and chains of any length: a path comes to rest at `t` after the move exactly when its old chain met either address of the move and `t` is the new one, or its old chain met neither and rested at `t` |
| Redirects.MoveTermination | apps/api/src/admin/content-redirect.ts:24-39 | A visitor to a path gets somewhere after the move exactly when the old chain met the move or got somewhere already, so a move can only remove loops |
| Redirects.MoveKeepsAcyclic | apps/api/src/admin/content-redirect.ts:12-39 | No rename, whatever its two addresses, closes a loop in a table that had none |
| Redirects.MoveKeepsFlat | apps/api/src/admin/content-redirect.ts:12-39 | A table in which no target is itself redirected stays so: the promise of no chain |
| Redirects.AcyclicIffArrives | apps/api/src/admin/content-redirect.ts:12-39 | Having no cycle is the same as every path coming to rest, which ties the graph property to what a visitor sees |
| Redirects.RedirectTable.RecordProductMove | apps/api/src/admin/catalog-edit.service.ts:360-371 | The two writes of a product rename leave the table described row by row; a redirect already at the new address stays |
| Redirects.ProductMoveStores | apps/api/src/admin/catalog-edit.service.ts:360-371 | The same of the two writes, a row at the new address staying |
| Redirects.ProductMoveAgrees | apps/api/src/admin/catalog-edit.service.ts:360-371 | The two-write form equals the three-write form exactly when no redirect sits at the new address |
| Redirects.ProductRunAgrees | apps/api/src/admin/catalog-edit.service.ts:360-371 | Over a whole run of product renames the table equals the three-write one after every rename exactly when no rename goes to an address given up earlier in the run |
| Redirects.ProductMoveFlat | apps/api/src/admin/catalog-edit.service.ts:360-371 | The two-write form keeps every chain one hop exactly when no redirect sits at the new address |
| Redirects.ProductMoveAcyclic | apps/api/src/admin/catalog-edit.service.ts:360-371 | The two-write form keeps an acyclic table acyclic exactly when following redirects from the new address does not lead to the old one |
| Redirects.ProductThereAndBack | apps/api/src/admin/catalog-edit.service.ts:360-371 | Renaming a product away and back leaves an address that redirects to itself |
| Slugs.ContentPathInjective | apps/api/src/admin/content-brands.service.ts:165-174 | Pages, posts and brands share one redirect table without collision: two addresses are equal exactly when kind and slug are |
| ContentSite.ApplyStores | apps/api/src/admin/content-articles.service.ts:211-276 | What each accepted operation changes and nothing else: a create adds a draft, a status change that status, a rename the slug; the rename of a brand or of anything published leaves a permanent redirect from the old address to the new |
| ContentSite.RunIsFlat | apps/api/src/admin/content-pages.service.ts:261-269 | Over every run of creates, status changes and renames of pages, posts and brands from nothing: no redirect target is ever a redirected address, slugs stay unique, every row answers 301 and is on |
| ContentSite.RunResolves | apps/api/src/admin/content-articles.service.ts:270-276 | When every rename is of something published, every address anybody ever held leads to its last holder, directly or in one hop |
| ContentSite.VacatedAddressesRedirect | apps/api/src/admin/content-pages.service.ts:178-187 | In such a run a vacated address nobody has taken is a redirect, on and permanent, whose target is the current address of its last holder and the end of the chain |
| ContentSite.ApplyKeepsLive | apps/api/src/admin/content-articles.service.ts:211-217 | An operation leaves every redirect landing on something exactly when it is not an unrecorded rename of the page or post some redirect points at |
| ContentSite.TakenDownAfterRename | apps/api/src/admin/content-pages.service.ts:261-269 | Rename a published page or post and take it down: whatever it is renamed to next, a redirect is left pointing at nobody |
| ContentSite.StrandingRun | apps/api/src/admin/content-articles.service.ts:211-276 | The run from nothing that ends so, for any three slugs |
| ContentSite.ApplyKeepsValid | apps/api/src/admin/content-brands.service.ts:94-136 | Every operation keeps slugs well formed, addresses distinct and the record of holders exact |
| PageSite.RunMirrors | apps/api/src/admin/content-pages.service.ts:92-360 | Every run of the page service is a run of the site on the same redirects: one item a slug in use, published when any of its rows is |
| PageSite.PageRedirects | apps/api/src/admin/content-pages.service.ts:129-270 | So over every run of creates, saves, renames and restores no redirect points at a redirect, and, when every rename was of a published page, every slug a page once had and none has now leads in one hop, on and permanent, to a page |
| Json.QuoteUnique | apps/api/src/admin/content-documents.ts:111-122 | A quoted string inside a longer text can be read back in one way only: string and remaining text are determined |
| Json.StableUnique | apps/api/src/admin/content-documents.ts:107-122 | Canonical texts of nested arrays, sorted objects, numbers and strings are uniquely decodable, alone or in front of other text |
| Json.StableInjective | apps/api/src/admin/content-documents.ts:107-122 | The canonical printer compares values: two texts are equal exactly when the values are equal up to key order |
| Documents.ToEditableDocument | apps/api/src/admin/content-documents.ts:30-50 | The loop over stored items yields one form block per object, shaped when nothing is lost and opaque otherwise |
| Documents.DocumentOpens | apps/api/src/admin/content-documents.ts:30-50 | Item by item, in order: what is no object gives no block; a block with exactly the keys of its form, each of its type, opens as that form's fields with its HTML cleaned; any other opens whole and untouched behind its type |
| Documents.BlockOpens | apps/api/src/admin/content-documents.ts:36-90 | The same of one block, the six forms named by their keys and the types under them: body, heading of level 2 or 3, short answer, and steps, questions or table with an optional title and rows of exactly their texts |
| Documents.FormIsAccepted | packages/contracts/src/blocks.ts:16-142 | A block in one of the six forms may be stored exactly when it keeps that form's limits: a heading with words, 40 to 600 characters of answer, 1 to 12 steps and 1 to 20 questions without an empty text, a row in the table |
| Documents.ToStoredDocument | apps/api/src/admin/content-documents.ts:154-179 | The checking loop stores the cleaned blocks or names the first the storefront rejects |
| Documents.StoredIsCleaned | apps/api/src/admin/content-documents.ts:154-166 | What is stored is the blocks sent, one for one, each out of its wrapping and with nothing changed but the HTML of rich text, which is cleaned |
| Documents.StoredIffParses | apps/api/src/admin/content-documents.ts:154-179 | Stored exactly when the whole document parses; a refusal names the least rejected index and the kind of that block |
| Documents.SameShapeIsSame | apps/api/src/admin/content-documents.ts:55-104 | The hand-written comparison of a shaped block with the stored one holds exactly when the two are equal as JSON, HTML included |
| Documents.BlockRoundTrip | apps/api/src/admin/content-documents.ts:30-104 | One block of any type through the form and back is the block itself with its HTML cleaned |
| Documents.OpenAndSave | apps/api/src/admin/content-documents.ts:30-179 | Opening any stored array and saving it unedited checks exactly its objects, each cleaned and otherwise untouched, H4 headings, ids, images and unknown types included |
| Documents.OpenAndSaveIsLossless | packages/contracts/src/blocks.ts:125-142 | For every stored array of objects the schema accepts, opening and saving succeeds and gives the array back with its HTML cleaned |
| Documents.OpenAndSaveAccepts | packages/contracts/src/blocks.ts:16-142 | Saving an unedited array of objects succeeds exactly when the schema accepts the array |
| Documents.SanitisingKeepsAcceptance | apps/api/src/admin/content-documents.ts:154-179 | Cleaning never changes whether the schema accepts a block, nor its kind |
| PageHistory.PageStore.Create | apps/api/src/admin/content-pages.service.ts:92-111 | A page is created exactly when its slug is well formed, not reserved and free; it is an empty draft at version 1 without a snapshot, and a refusal changes nothing |
| PageHistory.CreateStores | apps/api/src/admin/content-pages.service.ts:92-111 | The row a create adds, field by field, and that nothing else changes |
| PageHistory.PageStore.Update | apps/api/src/admin/content-pages.service.ts:129-270 | Group move, language save, first-state snapshot, new snapshot and redirect leave exactly the described tables; a refusal changes nothing, and each refusal condition is exact |
| PageHistory.UpdateStores | apps/api/src/admin/content-pages.service.ts:168-218 | For every row there was: the whole group is at the new address and template; the row of the language sent has title, blocks and status as sent or as they were, its SEO title and description as sent, dropped or left and every other SEO key as it was, the date kept or set by a first publication, and the next version; no other copy, status, date or version changes |
| PageHistory.FirstStores | apps/api/src/admin/content-pages.service.ts:168-218 | The row of a language the page did not have: as sent on an empty draft, under the group's address and template, at version 1, never without a title; and no other row is new |
| PageHistory.UpdateGoesThrough | apps/api/src/admin/content-pages.service.ts:129-167 | When an edit is accepted: the page exists; a new slug is well formed, free and no route's, and the old one is not one a route reads by name; the blocks passed; a new language has a title |
| PageHistory.PageStore.Restore | apps/api/src/admin/content-pages.service.ts:326-360 | An old state comes back as a new version of its row, only for a version of that page |
| PageRuns.RunKeepsHistory | apps/api/src/admin/content-pages.service.ts:190-258 | Over every run of creates, saves, renames and restores, from any consistent start: each row's snapshots have consecutive versions ending at the row's, the newest equals the live row, and the contents are exactly the copies the row held, in order, as observed from outside; the log only grows |
| PageRuns.StepEffect | apps/api/src/admin/content-pages.service.ts:190-258 | Any operation leaves a row's version, copy and log alone, or raises the version by one and appends the new state, preceded by the replaced state where none was kept |
| PageRuns.RestoreIsRecorded | apps/api/src/admin/content-pages.service.ts:326-360 | After any run, a restore puts back a copy the row really held, adds it to what the row has held under the next version, and touches no other row, status, date or redirect |
| PageRuns.RestoreUndoesSave | apps/api/src/admin/content-pages.service.ts:326-360 | After any save of an existing row the log holds the replaced state, at the page's new address, and restoring it gives the old content back under a version two higher |
| PageRuns.RunKeepsStamp | apps/api/src/admin/content-documents.ts:316-327 | A page that carries a publication date keeps that date through every run |
| PageRuns.RunAddressable | apps/api/src/admin/content-documents.ts:262-305 | Over every run no page gets a malformed slug or one of a route's own, and the two pages a route reads by name stay at their slugs |
| DayKeys.DateRoundTrip | apps/api/src/admin/dashboard-days.ts:37-42 | Date to day number and back are inverse over all Gregorian dates, across months, leap years and centuries |
| DayKeys.DayNumberOrdered | apps/api/src/admin/dashboard-days.ts:37-42 | Day numbers order dates as the calendar does, and equal numbers are equal dates |
| DayKeys.PreviousIsOneLess | apps/api/src/admin/dashboard-days.ts:37-42 | Turning the calendar back a day lowers the day number by exactly one |
| DayKeys.LabelRoundTrip | apps/api/src/admin/dashboard-days.ts:37-42 | A label is ten characters and reads back as its date |
| DayKeys.DayKeysAreTheWindow | apps/api/src/admin/dashboard-days.ts:37-42 | For every label and every count whose window stays in the years 0 to 9999, stepping in milliseconds gives exactly the labels of the window walked back on the calendar |
| DayKeys.WindowIsConsecutive | apps/api/src/admin/dashboard-days.ts:37-42 | That window is strictly increasing, without repeats, each day the day before the next, ending on the given day |
| DayKeys.DayKeysAreLabels | apps/api/src/admin/dashboard-days.ts:37-42 | Where the engine gives an answer it has one entry a day, and every entry is a calendar label exactly when the window does not start before the year 0 |
| DayKeys.DayBeforeYearZero | apps/api/src/admin/dashboard-days.ts:37-42 | Two days ending on the first of the year 0 are such an answer |
| HashChain.HashedUnique | packages/db/scripts/staff-lifecycle.ts:179-196 | Previous hash and payload, written one after the other, split in one way only: the first is empty or 64 hex digits and the second starts with a brace |
| HashChain.SameHeadSameLog | apps/api/src/auth/audit.service.ts:22-71 | Under a hash without collisions on the two logs, equal head hashes mean equal logs: same length and the same protected columns row for row |
| HashChain.AuditLog.RecordAudit | packages/db/scripts/staff-lifecycle.ts:162-206 | An append adds one row, linked to a row the newest-first query may return and hashed over it |
| HashChain.AppendStaysLinear | apps/api/src/auth/audit.service.ts:33-36 | For any chain with unique hashes: an append that nothing comes in between keeps it linear whatever the newest-first query answers exactly when the last row is dated strictly after every other |
| HashChain.AppendAlwaysForks | apps/api/src/auth/audit.service.ts:33-36 | And it forks whatever the query answers exactly when some row is dated after the last |
| HashChain.TiedAppendMayFork | apps/api/src/auth/audit.service.ts:33-36 | The smallest such log: two rows stored at one instant, nothing out of order, and the query may link the next row to the first |
| AuditRuns.RunStaysLinear | apps/api/src/auth/audit.service.ts:22-71 | Over every interleaving of writers, each of whom reads the newest row and stores its own in two statements, and whatever the clock does: the log is one linear chain exactly when no row is stored under a head that is not the last row's |
| AuditRuns.RunOverlaps | apps/api/src/auth/audit.service.ts:22-79 | Where hashes are unique and the rows came out dated strictly up, that is exactly when no row is stored between the two statements of another writer |
| AuditRuns.OverlapForks | apps/api/src/auth/audit.service.ts:74-79 | The run in which it fails, on any chain dated strictly up: two writers are answered one head and both store; the first row continues the chain and the second does not, unless the first one's hash is the head's |
| AuditRuns.WalkOfRun | apps/api/src/auth/audit.service.ts:73-117 | Of a log that only writers wrote to and nobody deleted from, taken in the order it was stored: the walk reports some row exactly when the log forked, and calls a parent missing exactly for a row after the first whose writer was answered by an empty log |
| AuditRuns.MissingWithoutDeletion | apps/api/src/auth/audit.service.ts:76-81 | Two writers of an empty log: the second row is reported missing its parent |
| HashChain.VerifyChain | apps/api/src/auth/audit.service.ts:88-117 | The walk reports exactly the rows whose predecessor hash is nowhere in the log, and exactly the other rows whose link does not match the row before them |
| HashChain.DeletionIsFound | apps/api/src/auth/audit.service.ts:88-117 | Cutting a stretch of rows, of any length, from a chain is reported at the row after it, and only there, exactly when rows are left on both sides |
| HashChain.EditIsUnseen | apps/api/src/auth/audit.service.ts:8-117 | Rewriting a payload changes nothing the walk reports; recomputing hashes would report that row and no other, exactly when the new text hashes differently, which without a collision is whenever it differs |
| AuditPayload.PayloadInjective | packages/db/scripts/staff-lifecycle.ts:179-191 | The payload text determines actor, entity, action, both values, time and nonce |
| AuditPayload.PayloadReads | packages/db/scripts/staff-lifecycle.ts:179-188 | Read as JSON the payload is the object of its eight members, each under its own name |
| AuditPayload.SameHeadSameEntries | packages/db/scripts/staff-lifecycle.ts:174-206 | Two audit logs with the same head hash record the same actions in the same order |
| StaffLifecycle.StaffStore.PlanDeactivation | packages/db/scripts/staff-lifecycle.ts:43-86 | Both emails trimmed and lower-cased; the plan refuses a requester who is no active owner, an unknown account and the last active owner, in that order, and otherwise counts the live sessions |
| StaffLifecycle.StaffStore.DeactivateIn | packages/db/scripts/staff-lifecycle.ts:120-152 | One transaction: refused or without effect it writes nothing, otherwise it switches the account off, revokes its sessions and appends one audit row, dated by the database at the transaction's start |
| StaffLifecycle.DeactivationIsRecorded | packages/db/scripts/staff-lifecycle.ts:141-149 | Read as JSON, the row says who deactivated whom: the requester's id as the actor's, the target's as the entity's, the switch and role the target had, and the number of sessions revoked |
| StaffLifecycle.StaffStore.CreateStaff | packages/db/scripts/create-staff.ts:65-89 | Creating or resetting an account leaves it on, in the role asked for and signed out everywhere |
| StaffLifecycle.StaffStore.RevokeAll | packages/db/scripts/staff-lifecycle.ts:136-139 | Every live session of one account is stamped, no other row changes, and the count is the number stamped |
| StaffLifecycle.EnrolmentIsComplete | packages/db/scripts/create-staff.ts:65-89 | A create or reset leaves the account on and without a live session, and every other account and its sessions as they were |
| StaffLifecycle.DeactivationIsComplete | packages/db/scripts/staff-lifecycle.ts:120-152 | After an effective deactivation the account is off with no live session, every other account and its live sessions are as before, and the announced count is the true one |
| StaffLifecycle.DeactivationLeavesOwner | packages/db/scripts/staff-lifecycle.ts:49-86 | Run by itself, a deactivation that does anything leaves an active owner, and none ever removes the last |
| StaffLifecycle.ChecksAloneAreNotEnough | packages/db/scripts/staff-lifecycle.ts:97-118 | Two owners each switching themselves off pass their checks on one snapshot and together leave no owner, while run one after the other the second is refused: why the transaction is serializable |
| StaffLifecycle.EnrolmentLeavesOwner | packages/db/scripts/create-staff.ts:65-89 | A create or reset leaves an active owner exactly when it makes one or another account is one |
| StaffLifecycle.SecondDeactivationRepairs | packages/db/scripts/staff-lifecycle.ts:88-96 | For an account that is off, an owner's deactivation does something exactly when a live session is left, and leaves none |
| StaffRuns.RunFits | packages/db/scripts/staff-lifecycle.ts:97-152 | Over every interleaving of deactivations, creates, resets, the two halves of sign-ins, sign-outs and audit writers: ids stay unique, no account is removed, no revoked session becomes live again, and every deactivation under way finds the rows it writes as it saw them |
| StaffRuns.RunChain | packages/db/scripts/staff-lifecycle.ts:162-206 | Over the same runs: the audit log is one linear chain exactly when no row, a deactivation's or anybody's, is stored under a head that is not the last row's, and, where the rows came out dated strictly up, exactly when none is stored between another writer's two statements |
| StaffRuns.CommitRecords | packages/db/scripts/staff-lifecycle.ts:141-149 | A deactivation that commits among others appends one row that says the same of the tables it saw, dated at its start |
| StaffRuns.CommitIsSerial | packages/db/scripts/staff-lifecycle.ts:120-152 | A deactivation that commits over the tables of another moment does to them what it would do alone exactly when no session of the account is live that it does not see; else it leaves that session live |
| StaffRuns.RunSignedOut | apps/api/src/auth/auth.service.ts:120-127 | An account that is off never has a live session exactly when no sign-in creates its session for an account that is off at that moment and no deactivation commits with a live session it does not see |
| StaffRuns.MissedWasCreatedMeanwhile | packages/db/scripts/staff-lifecycle.ts:132-139 | The second happens only when a sign-in creates the session between the deactivation's beginning and its commit |
| StaffRuns.LateSignInIsLive | apps/api/src/auth/auth.service.ts:282-296 | The runs in which it fails: check, deactivation, session; and check, beginning, session, commit. Both leave the account off and the session live, and not accepted |
| StaffRuns.StaleNeverAccepted | apps/api/src/auth/auth.service.ts:348-353 | What such a session is worth: on every interleaving, a session that was ever revoked, or live while its account was off, is never accepted from then on, the account's return included |
| StaffRuns.NextKeepsOwner | packages/db/scripts/create-staff.ts:65-89 | Any step leaves an active owner exactly when it is neither a reset of the only one in a lesser role nor a deactivation that commits when its account is the only one |
| StaffRuns.RunKeepsOwner | packages/db/scripts/staff-lifecycle.ts:97-152 | Over every interleaving the panel has an active owner throughout exactly when neither happens |
| StaffRuns.TakenWhileDemoted | packages/db/scripts/staff-lifecycle.ts:67-74 | A deactivation takes the last owner only when another active owner was reset in a lesser role between its beginning and its commit |
| StaffRuns.NoOwnerLeft | packages/db/scripts/create-staff.ts:65-89 | The run in which that happens: of two owners one switches itself off while the other is reset, neither is the last when it is checked, and none is left |
| SignIn.AccountStore.RequestLink | apps/api/src/account/account.service.ts:96-137 | A link is written exactly for an open account without a link in the last minute; otherwise nothing changes |
| SignIn.AccountStore.Claim | apps/api/src/account/account.service.ts:198-202 | The conditional update marks the link and counts one exactly when it was unmarked |
| SignIn.AccountStore.Exchange | apps/api/src/account/account.service.ts:172-227 | A redeemable link gives one session of twelve hours, is spent by it, and the cookie is accepted at once; anything else changes nothing |
| SignIn.AccountStore.SessionFor | apps/api/src/account/account.service.ts:230-253 | A cookie is accepted exactly when its session is unrevoked, unexpired and of an open account |
| SignIn.AccountStore.SignOut | apps/api/src/account/account.service.ts:255-261 | The cookie is never accepted afterwards and a second sign-out keeps the first mark |
| SignIn.LinkMintsOnce | apps/api/src/account/account.service.ts:172-227 | Under every interleaving and death of concurrent requests: a link is behind at most one session, and every session comes from a used link of the same customer that was unexpired when read and ends twelve hours after that reading |
| SignIn.UsedLinkAccounted | apps/api/src/account/account.service.ts:172-227 | A link is marked used exactly when it is behind a session, in the hands of one request, or lost with a request that died holding it, and only one of these |
| SignIn.MarksNeverUndone | apps/api/src/account/account.service.ts:172-261 | Used, revoked and verified marks, and every expiry, survive any further events |
| SignIn.RefusalIsFinal | apps/api/src/account/account.service.ts:230-261 | A cookie refused as revoked or expired is refused from then on, whatever happens |
| SignIn.ClosedIsRefused | apps/api/src/account/account.service.ts:230-243 | From the moment an account is closed none of its cookies is accepted, those of sign-ins still under way included, whatever happens |
| SignIn.CooldownHolds | apps/api/src/account/account.service.ts:96-137 | Over every interleaving with a clock that does not go back: any two links of one customer are a minute apart exactly when no link was written by a request that another link of the customer had overtaken, between its look and its write, within the last minute |
| SignIn.IssueKeepsSpacing | apps/api/src/account/account.service.ts:110-137 | One write of a link keeps the spacing exactly when its request was not overtaken |
| SignIn.CooldownRaces | apps/api/src/account/account.service.ts:96-137 | Two requests that both look before either writes get two links at the same instant |
| Catalogue.Catalog.MinPublishedPrice | packages/db/src/product-price.ts:39-49 | The loop returns the least price over the published variants of the product, and null exactly when there are none |
| Catalogue.CheapestIsMinimum | packages/db/src/product-price.ts:39-49 | The recursive form used in specifications is that minimum: attained, a lower bound, and null only without published variants |
| Catalogue.Catalog.RefreshProductPrice | packages/db/src/product-price.ts:51-64 | Only the cached column of the one product is rewritten |
| Catalogue.RefreshKeepsPrices | packages/db/src/product-price.ts:51-64 | After any write confined to one product's variants, refreshing that product makes every cached minimum true again |
| Catalogue.Catalog.CreateProduct | apps/api/src/admin/catalog-edit.service.ts:53-131 | Refused on a taken slug, a taken SKU once trimmed and upper-cased, an unknown category or an unknown brand; otherwise a draft with one default draft variant, the first category primary |
| Catalogue.CreateStores | apps/api/src/admin/catalog-edit.service.ts:80-131 | The product and the variant a create adds, field by field, and that nothing else changes |
| Catalogue.Catalog.CreateVariant | apps/api/src/admin/catalog-edit.service.ts:145-185 | Refused on an unknown product or a taken SKU; otherwise one more draft variant after the last position, never the default |
| Catalogue.VariantStores | apps/api/src/admin/catalog-edit.service.ts:160-185 | The draft a create adds, field by field, after every other variant of the product; products and prices stay |
| Catalogue.Catalog.SetIdentity | apps/api/src/admin/catalog-edit.service.ts:245-372 | Refused exactly for an unknown product, a taken slug, an unknown category, an unknown brand, or a non-empty primary category outside the product's; otherwise slug, brand, categories and primary change as asked and a slug change records the move |
| Catalogue.IdentityStores | apps/api/src/admin/catalog-edit.service.ts:304-372 | Slug, brand, primary category and categories are as sent or as they were and nothing else changes; a new slug leaves a permanent redirect from the old store address to the new one, and without one the redirects stay |
| Catalogue.GivenUpRedirects | apps/api/src/admin/catalog-edit.service.ts:352-372 | Over every run from nothing, an address a product once had and none has now is a redirect, permanent and on |
| Catalogue.Catalog.SetTerms | apps/api/src/admin/catalog-edit.service.ts:432-545 | Refused exactly for an unknown SKU or a strike-through not above the price; otherwise the variant's terms change, a new default demotes the others, and the price is refreshed |
| Catalogue.TermsStore | apps/api/src/admin/catalog-edit.service.ts:475-545 | Every field of the variant is as sent or as it was, a count only where the term takes one; a new default demotes the product's others; the price is the true minimum; nothing else changes |
| Catalogue.Catalog.SetStatus | apps/api/src/admin/admin.service.ts:256-311 | Publishing needs readiness; product and all its variants take the status, the first publication stamps the date, readiness is noted, and the price is refreshed |
| Catalogue.StatusStores | apps/api/src/admin/admin.service.ts:293-311 | The product and every variant of it take the status, the date is kept, set or cleared, the price is the true minimum, and nothing else changes |
| Catalogue.RunConsistent | apps/api/src/admin/catalog-edit.service.ts:80-545 | Over every run of creates, terms, identity and status writes, one after another, for all products at once: the cached price is the true minimum, at most one default variant, every compare-at above its price, a term value exactly when the unit takes one, the primary category among the product's or the empty id, brand and categories known ones and none twice, slugs and SKUs unique |
| Catalogue.StepConsistent | apps/api/src/admin/admin.service.ts:293-311 | Each single write keeps all of that from any consistent catalogue |
| Catalogue.EmptyPrimarySlipsThrough | apps/api/src/admin/catalog-edit.service.ts:291-301 | When an accepted identity write leaves a primary category the product is not in: exactly when the empty id was given or kept and is not among the categories |
| Catalogue.EmptyPrimaryIsReachable | apps/api/src/admin/catalog-edit.service.ts:291-323 | From nothing: a product in no category, then an identity write with the empty id, which is stored |
| Catalogue.PublishedPrice | apps/api/src/admin/admin.service.ts:293-311 | A status write leaves the product priced exactly when it publishes and the product has a variant |
| TermsRaces.RunStaysInOrder | apps/api/src/admin/catalog-edit.service.ts:432-545 | Over every interleaving of changes of terms, statement by statement: every cached price is the true minimum, every product has at most one default and every strike-through is above its price, throughout, exactly when no commit finds its minimum changed, a default its demotion did not see, or its variant as the check would have refused it |
| TermsRaces.StaleIsOvertaken | packages/db/src/product-price.ts:51-64 | A minimum is stale at its commit only when another row of the product was committed since the prices were read |
| TermsRaces.AloneIsSerial | apps/api/src/admin/catalog-edit.service.ts:504-545 | A change nobody comes in between leaves the variants and the price of the catalogue's own write |
| TermsRaces.StaleMinimum | packages/db/src/product-price.ts:51-64 | The two published variants of a product raised at once: the cached price stays the old one |
| TermsRaces.TwoDefaults | apps/api/src/admin/catalog-edit.service.ts:505-511 | Two changes that each make a variant the default, the one demoting before the other commits: both are |
| TermsRaces.StrikeBelowPrice | apps/api/src/admin/catalog-edit.service.ts:444-464 | A strike-through checked against a price that another change then raises: the stored discount is an increase |
| RefreshGate.Refresher.RefreshSession | apps/admin/src/lib/api.ts:161-190 | A caller joins the current attempt when there is one and starts one otherwise |
| RefreshGate.Refresher.Settle | apps/admin/src/lib/api.ts:161-190 | An answer is recorded once, for that attempt only, and arms its clearing timer |
| RefreshGate.Refresher.TimerFires | apps/admin/src/lib/api.ts:161-190 | The delayed clear finds its own attempt still in the variable and empties it |
| RefreshGate.ResponseDecides | apps/admin/src/lib/api.ts:206-253 | The first 401 on a path that refreshes waits on the attempt in flight or posts one; a success, another path or the answer to the retry ends the call and posts nothing |
| RefreshGate.AnswerDecides | apps/admin/src/lib/api.ts:206-253 | A call that waited fetches once more when the refresh went through and gives up when it did not |
| RefreshGate.OneRefreshAtATime | apps/admin/src/lib/api.ts:161-190 | Under every schedule at most one refresh is outstanding, and a pending clear always belongs to the current, answered attempt, so none discards a newer one |
| RefreshGate.PostsDoNotOverlap | apps/admin/src/lib/api.ts:161-190 | At every moment of every schedule a refresh is posted only when the variable is empty and every earlier attempt has been answered, and every call that starts to wait waits on the newest attempt |
| RefreshGate.JoinersGetOneAnswer | apps/admin/src/lib/api.ts:206-253 | All calls that waited on one attempt were told the same answer |
| RefreshGate.CallTerminates | apps/admin/src/lib/api.ts:206-253 | A call fetches at most twice; every event of its own brings it nearer its end and no other event touches it |
| RefreshGate.CallEnds | apps/admin/src/lib/api.ts:206-253 | Over every schedule a call takes at most three events of its own and fetches at most twice |
| RefreshGate.CallNotStuck | apps/admin/src/lib/api.ts:206-253 | A call that is not done can always go on, or waits only for an attempt whose answer can arrive |
| ScriptJson.SequentialIsSimultaneous | packages/seo/src/jsonld.ts:325-332 | The five replacements one after another equal one character map |
| ScriptJson.EscapeInsideString | packages/seo/src/jsonld.ts:325-332 | Inside a string, after any run of backslashes, the escaped text reads as the same code units |
| ScriptJson.EscapeReadsTheSame | packages/seo/src/jsonld.ts:325-332 | For every text with well-formed strings and none of the five characters outside them, the escaped text has none of the five anywhere and reads lexeme by lexeme as the original |
| ScriptJson.QuoteReads | packages/seo/src/jsonld.ts:294-332 | What the printer quotes, the reader of section 7 of RFC 8259 gives back, code unit by code unit |
| JsonReader.ValueIsJsonLike | packages/seo/src/jsonld.ts:312-332 | Every text that has a value by the grammar of RFC 8259 has well-formed strings and none of the five characters outside them |
| JsonReader.EscapingKeepsValue | packages/seo/src/jsonld.ts:294-332 | For every text that has a value, the escaped text has none of the five characters and the same value |
| JsonReader.PrintedValue | packages/seo/src/jsonld.ts:294-332 | The canonical text of every value reads back as that value, before and after the escape |
| JsonText.ObjectTextReads | packages/seo/src/jsonld.ts:312-332 | So does the text of every object printed in any order of its members |
| WhatsappPhone.OnePlan | packages/contracts/src/whatsapp.ts:39-50 | At most one plan's code starts a number, so the order in which plans are tried does not matter |
| WhatsappPhone.CheckIsCanonical | packages/contracts/src/whatsapp.ts:49-62 | Whatever the digits, an accepted number is E.164 (section 6 of ITU-T E.164) and is accepted again as it stands |
| WhatsappPhone.ForeignNumber | packages/contracts/src/whatsapp.ts:58-61 | A number of a country not in the table goes through as it stands exactly when it has eight to fifteen digits and no zero in front |
| WhatsappPhone.OnlyMobiles | packages/contracts/src/whatsapp.ts:49-57 | Of a country in the table exactly the mobile numbers of the right length go through, with or without the trunk zero |
| WhatsappPhone.LocalNeedsCountry | packages/contracts/src/whatsapp.ts:84-98 | A number with its trunk zero and no country of the table is refused |
| WhatsappPhone.LettersAreRefused | packages/contracts/src/whatsapp.ts:72-76 | So is a text with a letter in it |
| WhatsappPhone.LatePlusIsRefused | packages/contracts/src/whatsapp.ts:72-76 | And one with a plus anywhere but in front |
| WhatsappPhone.NormalizedIsCanonical | packages/contracts/src/whatsapp.ts:72-99 | Any non-null result is E.164 and normalises to itself under every country |
| WhatsappPhone.SpellingIsAllThatCounts | packages/contracts/src/whatsapp.ts:72-99 | Of a typed number only the plus and the digits count, in any of the three digit scripts, with any spaces and separators |
| WhatsappPhone.FormAgrees | packages/contracts/src/whatsapp.ts:49-99 | For every plan and valid national number, local, trunk-zero, bare-code, plus, plus-code-zero, double-zero and double-zero-code-zero digits give one number |
| WhatsappPhone.SpellingsAgree | packages/contracts/src/whatsapp.ts:72-99 | So do all ways of typing those forms |
| EnvFile.ReadEnvValue | scripts/generate-secrets.ts:117-134 | The loop returns the value of the first active line that sets the key |
| EnvFile.SetEnvValue | scripts/generate-secrets.ts:136-151 | The first active line that sets the key is overwritten in place, all others stay, and the answer says whether there was one |
| EnvFile.ParseEnvFile | scripts/env-check.ts:58-73 | The loop collects every active line, the last assignment of a key winning |
| EnvFile.PlainLine | scripts/env-check.ts:44-73 | An unquoted value is read as it stands by the generator and by the check |
| EnvFile.CommentedLine | scripts/generate-secrets.ts:117-134 | Both leave out everything from the first hash on |
| EnvFile.QuotedLine | scripts/generate-secrets.ts:117-134 | Both take a quoted value out of its quotes |
| EnvFile.OnlyAssignmentsSet | scripts/env-check.ts:58-73 | Empty lines, comments and lines without an equals sign set nothing |
| EnvFile.NewLineKeepsComment | scripts/generate-secrets.ts:144-147 | The rewritten line is the key, the secret in quotes and the comment the old line had |
| EnvFile.SetThenParse | scripts/generate-secrets.ts:136-151 | Parsing after a write: every other key keeps its value and the key gets the secret, unless a later line sets it again and nothing changes; the line count stays |
| EnvFile.SecretReadBack | scripts/env-check.ts:44-73 | A new secret is read back exactly when a single line sets its key |
| EnvFile.SetThenRead | scripts/generate-secrets.ts:117-151 | The generator reads its own secret back exactly when the line has no trailing comment |
| EnvFile.SetTwice | scripts/generate-secrets.ts:136-151 | Writing twice is writing the second: the comment survives any number of writes unchanged |
| LatinSlug.DashedIsJoinedWords | packages/i18n/src/arabic.ts:97-99 | The last three replacements amount to joining the words of the folded title by single hyphens |
| LatinSlug.SlugOrNothing | packages/i18n/src/arabic.ts:91-103 | Whatever the Unicode steps give: null exactly when fewer than two letters and digits are left; otherwise a slug of 2 to 96 characters that is a prefix of the joined words, all of them when they fit and all but at most one character of the limit when not |
| LatinSlug.DigitsAgree | packages/i18n/src/arabic.ts:91-92 | Arabic-Indic and Persian digits count as the Latin digits of their values |
| LatinSlug.MarksVanish | packages/i18n/src/arabic.ts:93-94 | A combining mark that decomposition splits off makes no difference |
| LatinSlug.UnkeptSeparates | packages/i18n/src/arabic.ts:95-99 | Whatever of a script that is not kept stands between two Latin words comes to one hyphen |
| LatinSlug.SlugIsFixed | packages/contracts/src/primitives.ts:34-38 | Every valid slug comes out as itself, except one of a single character, which gives null |
| LatinSlug.SlugTwice | packages/i18n/src/arabic.ts:91-103 | Slugging a result again changes nothing |
| CustomerExport.ExportCsv | apps/api/src/admin/customers.service.ts:162-216 | The cursor loop ends; its chunks concatenate to the preamble, the header and one line per selected customer in id order, in as many chunks as there are batches |
| CustomerExport.Chunk | apps/api/src/admin/customers.service.ts:197-211 | One batch as text leaves out exactly the rows whose consent does not stand |
| CustomerExport.NextBatch | apps/api/src/admin/customers.service.ts:187-194 | The query from the cursor, skipping the cursor's row, is the next page of the rows asked for |
| CustomerExport.AskedAndWritten | apps/api/src/admin/customers.service.ts:174-183 | The database pre-filter and the per-row check together are the filter by consent state alone |
| CustomerExport.SelectedAreTheConsenting | apps/api/src/admin/customers.service.ts:162-216 | The file holds exactly the customers found by the search, and when asked those who consent now, each once and in id order |
| CustomerExport.FileHolds | apps/api/src/admin/customers.service.ts:162-240 | Who is in the file, by the row's own fields: nobody erased, nobody without every one of the first five words, when only the consenting are wanted nobody whose opt-in is missing or not later than the opt-out, and everybody else |
| CustomerExport.LatestChoiceWins | apps/api/src/admin/customers.service.ts:36-40 | Of any history of choices the last decides, except an opt-in at the very instant of an opt-out, which is an opt-out; NONE means no choice |

## Left out

- Redirects.RedirectTable: manual redirect edits, category renames and hit counters are not part of this model.
- ContentSite.Site: holds a group's slug and whether any row is published; the other columns of pages, posts and brands are not in it, and brand creation is taken to follow the same slug rules.
- Documents.StoreDocument: the trimming the request schema applies between the form and the save is not modelled; the unedited document is saved as it was opened.
- Documents: `readingMinutes`, `blockTypes` and `seoField` only read a document and are left out.
- PageHistory.PageStore: transactions run one after another; two editors saving the same page at once are not modelled, nor are the audit rows of the panel.
- Catalogue.RunConsistent: its writes run one after another; of writes that overlap only changes of terms are modelled, in `TermsRaces`, where rows are neither added nor removed.
- TermsRaces.Shop: a wait for a lock is a statement that has not run yet; deadlocks and the audit row after the commit are left out.
- Catalogue.Catalog.CreateProduct: the product's kind, its translated names and the variant's fulfilment columns are not in the model.
- Catalogue.Catalog.SetIdentity: kind, the warranty flag and the translated names are not in the model.
- Catalogue.Catalog.SetTerms: cost, devices, platform, delivery and warranty columns are not in the model.
- Catalogue.Catalog.SetStatus: the readiness check is the parameter `publishable`, because it reads texts and images the model does not hold.
- Catalogue: the supplier's price writes, product deletion, inventory and translations are left out; the model has the writers a panel user reaches from the product screen.
- StaffLifecycle.StaffStore.CreateStaff: the email is given normalised; the refusal of an empty email, an empty name or an unknown role comes before the transaction and is left out.
- StaffLifecycle: passwords, two-factor secrets, token rotation, the pruning of old sessions and the retry after a serialization failure are left out; a sign-out names its session.
- StaffRuns.Next: a create or reset is one step, at its commit; a deactivation that fails because of an overlap just never commits.
- AuditRuns.Audit: the log is in the order its rows were stored; the walk takes it in the order of their times, which is the same where they came out dated strictly up.
- AuditPayload.Payload: the two recorded values have their keys in ascending order already, so the canonical printer gives the text the source hashes.
- HashChain.SameHeadSameLog: the time column of a row is outside the hashed text, as in the source, so it is not among the columns proved equal.
- SignIn.AccountStore.RequestLink: the lookup of the customer by email, the mail and the hashing of the token are left out; tokens are compared as they are.
- RefreshGate.Refresher: rotation of the refresh token on the server is not part of this model; an attempt is answered with yes or no.
- WhatsappPhone.NormalizeWhatsappPhone: the country is given upper-cased.
- JsonReader.ValueOf: a string with a lone surrogate has no value there, because the values are of Unicode scalars; `ScriptJson.EscapeReadsTheSame` covers such texts lexeme by lexeme. A number's value is its literal.
- JsonReader.PrintedValue: speaks of the canonical printer's text; the source prints keys in insertion order. `JsonText.ObjectTextReads` covers that for the members of an object, and `EscapingKeepsValue` for any JSON text.
- ScriptJson: the duplicate-type check of `buildGraph` and the builders of the individual nodes are left out.
- DayKeys.DayKeys: the last day must be a label; finding today's label in the store's time zone is left out.
- CustomerExport.ExportCsv: the search text is given as its words; order totals and CSV quoting are inside the `line` parameter.
- Controllers, user interface, vault, licences, mail, images and seeds are left out.
