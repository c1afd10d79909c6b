# Verified models of the HR platform's stateful cores

This project models the parts of the platform whose correctness spans many steps or many
functions, and proves what those parts are for. It covers the tenant reset (planner, review and
executor over a live relational state), the durable-work protocols (file cleanup, outbox,
due offboarding, refresh-token rotation), the asset lifecycle with its row locks, the two graph
closures (module entitlements, reporting-line teams), the attendance expiry sweep, the salary
breakup, the client authorization claims, and three text codecs.

`dafny verify dfyconfig.toml` checks everything. One file holds one module:

| file | what it models |
|---|---|
| `Graphs`, `Names`, `Sums`, `Multisets`, `Text`, `Outcomes` | shared notions: paths and cycles, name order, totals, reorderings, string helpers, results |
| `ResetOrder`, `ResetDatabase`, `ResetApply`, `ResetPrepare` | tenant reset: graph algorithm, database with foreign keys, executor, review |
| `ResetCycle`, `ResetErasedKey`, `ResetHalfNull` | two databases whose reset is accepted and then refused |
| `ResetCatalogue`, `ResetMeaning` | what the catalogue alone says about a clear; selectors, checks and clears told from the rows and the preserved users |
| `CleanupQueue`, `OutboxQueue`, `Offboarding`, `Sessions` | durable work as tables with their statements, and as step relations over any number of actors |
| `Assets` | categories, assets, allocations, return logs, as transactions interleaved lock by lock |
| `Entitlements`, `TeamScope` | module access and team membership |
| `Attendance`, `Salary`, `Rbac` | expiry sweep, salary arithmetic, permission scopes |
| `Csv`, `LikePattern`, `Base64Url` | report export, literal search, token encoding |

## How state is modelled

A table is a class field holding a map from ids to rows, and each SQL statement or transaction is a
method that states the whole new table. A protocol is modelled a second time as a step relation:
shared rows, the local copies every actor holds between its statements, and ghost history. Theorems
about runs quantify over every sequence of steps, so every interleaving, crash and retry is covered.
Clocks, fresh identifiers, results of deliveries and deletions, and the writes of other programs are
inputs.

## Where the code does less than its promise

Each of these is proved: an input or a run that shows it, and when the promise does hold.

- An accepted reset can still be refused by the database. Clearing a nullable link may erase a column
  that another foreign key refers to (`ResetErasedKey.AcceptedButRefused`), or leave a MATCH FULL
  reference half NULL (`ResetHalfNull.AcceptedButRefused`). An accepted reset succeeds if and only if
  no clear of its plan does this in turn, and the planner's clears are the only ones possible
  (`ResetPrepare.ReplaceTenant`, `ResetPrepare.ClearsAreUnique`). A condition on the catalogue alone
  excludes it on every state (`ResetApply.SchemaSafeClears`), and but for keys that a clear erases
  together with their own references it is needed for that (`ResetCatalogue.CatalogueDecides`). Nothing
  dangles in any case.
- Outbox marking and requeueing read the row and write it in two statements. A PROCESSED event stays so
  if and only if no worker that read it as PROCESSING is about to write a failure and nobody who read it
  as FAILED or PROCESSING is about to write a requeue (`OutboxQueue.ProcessedFinalIffNotUndermined`);
  `OutboxQueue.ProcessedCanBeUndone` reaches both. A stored `retry_count` goes down exactly where a
  worker writes a failure whose own claim read a count more than one below the stored one
  (`OutboxQueue.RetryCountDropsIff`, reached in `OutboxQueue.RetryCountCanDrop`); it never exceeds the
  failed deliveries. If stale claims are reclaimed only once nobody works on them and a requeue is
  written only over a FAILED row, each event has one worker at a time, counts never drop and PROCESSED
  is final (`OutboxQueue.CarefulRunsAreSafe`); neither half of this care is enough
  (`OutboxQueue.BothCaresAreNeeded`).
- An offboarding sweep that stops on an error does not report the separations it already offboarded.
  It stops exactly when a scanned separation is due and its employee is gone, and it then hides a win
  if and only if an earlier scanned one was due with a live employee (`Offboarding.ErrorHidesWinIff`).
  Over runs, wins stay unreported exactly when a sweep that has already won crashes or meets such a
  separation (`Offboarding.WinsHiddenIff`, reached in `Offboarding.FailedSweepLosesWin`).
- Revoking a user's sessions is not final: a request that passed its checks and deleted its session
  still issues the successor. The user stays out until the next login if and only if no such request
  is under way (`Sessions.RevocationLastsIff`).
- An attendance row can be shown as incomplete and not be persisted so. A row is persisted if and only
  if it is shown, every open day of its employee has a window and the database does not fail
  (`Attendance.PersistedIffShown`, `Attendance.ShownButNotPersisted`).
- Enqueueing a cleanup whose coordinates were completed earlier adds no new tombstone
  (`CleanupQueue.EnqueueCoversIff`, reached in `CleanupQueue.CompletedKeyStaysUncovered`).
- A CSV row without columns is an empty line and reads back as one empty field
  (`Csv.ExportReadsBack`).

## Facts taken as given

- Reset: referenced columns are unique, the identity columns of `user`, `employee` and `user_role` are
  never NULL and not nullable in the catalogue, every catalogue name has a table, and the schema name
  passed the option check; the account that runs the reset is among the preserved ones, as the preview
  checks. A comparison with NULL selects no row, so selectors are three-valued.
- Module ids and permission ids are unique. UUIDs and tokens drawn by the program are new.
- Other writers do not touch the offboarding columns and events. They respect row locks: an employee or
  location that a transaction holds a shared lock on does not change.
- The attendance window of a date does not change during an expiry.

## Model

| member | source | states |
|---|---|---|
| ResetOrder.Reaches | crates/kabipay-tenant-import/src/reset_order.rs:12-29 | the stack search answers exactly graph reachability along child-to-parent links, on every edge list, and terminates |
| ResetOrder.FirstUnblocked | crates/kabipay-tenant-import/src/reset.rs:51-58 | the scan finds the first waiting table no waiting child refers to, or none exactly when every waiting table has a waiting child |
| Names.BeforeIs | crates/kabipay-tenant-import/src/reset.rs:47-51 | the order of the set of waiting tables: up to some point the names agree, and there the first ends or has the smaller character |
| ResetOrder.DeletionOrder | crates/kabipay-tenant-import/src/reset.rs:47-66 | succeeds iff the dependencies among the tables are acyclic; the result is a permutation, child before parent, and lexicographically least among all such orders |
| ResetOrder.GreedyIsLeastValid | crates/kabipay-tenant-import/src/reset.rs:50-64 | every order made by always taking the smallest unblocked table is valid and at most every other valid order |
| ResetOrder.CycleForbidsOrder | crates/kabipay-tenant-import/src/reset.rs:60-62 | with a cycle among the tables no child-before-parent order exists |
| ResetOrder.Plan | crates/kabipay-tenant-import/src/reset_order.rs:31-56 | terminates; fails iff the links that cannot be cleared contain a cycle; clears one after another the first clearable link on a cycle; the order is least and valid for exactly the original non-self links minus the cleared ones; an acyclic graph clears nothing |
| ResetOrder.StuckMeansRigidCycle | crates/kabipay-tenant-import/src/reset_order.rs:46-51 | without an order and without a clearable link on a cycle, links without a clear already form a cycle |
| ResetOrder.OrderableMeansRigidAcyclic | crates/kabipay-tenant-import/src/reset_order.rs:43-45 | an order after some clears shows the links without a clear to be acyclic |
| ResetOrder.AcyclicClearsNothing | crates/kabipay-tenant-import/src/reset_order.rs:38-55 | whatever was cleared lay on a cycle when cleared, so an acyclic graph loses no link |
| ResetOrder.ClearOne | crates/kabipay-tenant-import/src/reset_order.rs:46-54 | one round removes exactly one link from those left and keeps the record of what was cleared in turn |
| ResetDatabase.Database.Truncate | crates/kabipay-tenant-import/src/reset.rs:308-330 | succeeds iff all tables exist and no foreign key enters the group from outside; empties exactly the group; foreign keys stay satisfied |
| ResetDatabase.EmptiedIntact | crates/kabipay-tenant-import/src/reset_scope.rs:7-31 | emptying a group closed under incoming references leaves no dangling reference |
| ResetDatabase.Database.ClearLinks | crates/kabipay-tenant-import/src/reset.rs:346-368 | sets the clear columns to NULL on exactly the doomed children joined to doomed parents, or is refused and changes nothing |
| ResetDatabase.Database.DeleteRows | crates/kabipay-tenant-import/src/reset.rs:370-385 | deletes exactly the rows the selector dooms, or is refused and changes nothing; nothing dangles |
| ResetApply.IntendedMeans | crates/kabipay-tenant-import/src/reset.rs:67-82 | the end state: truncated tables empty, identity tables reduced to exactly the kept identities' rows, other deleted tables empty, the rest unchanged |
| ResetMeaning.DoomedIsNotBelonging | crates/kabipay-tenant-import/src/reset.rs:67-82 | a DELETE selects exactly the rows that belong to nobody preserved: accounts and roles by account id, employees by employee id |
| ResetMeaning.IntactMeans | crates/kabipay-tenant-import/src/reset.rs:136-152 | the foreign keys hold iff every row with all columns set has a parent row with equal values and every other MATCH FULL row has all columns NULL |
| ResetMeaning.ClearedMeans | crates/kabipay-tenant-import/src/reset.rs:346-359 | a clear sets its columns to NULL in exactly the rows that belong to nobody preserved and match a parent row that belongs to nobody preserved |
| ResetMeaning.AllowedClears | crates/kabipay-tenant-import/src/reset.rs:331-345 | the executor clears only between listed tables, never in a kept one, and only with names it can quote |
| ResetMeaning.FoundationalIs | crates/kabipay-tenant-import/src/reset.rs:34-46 | the ten tables no reset touches, by name |
| ResetMeaning.SafeNames | crates/kabipay-tenant-import/src/preview.rs:45-51 | exactly the names of 1 to 63 ASCII letters, digits and underscores, so never a quote, a blank or a dot |
| ResetMeaning.SchemaNames | crates/kabipay-tenant-import/src/options.rs:79-87 | exactly the names that start with tenant_, go on, and have at most 63 ASCII letters, digits and underscores |
| ResetApply.ClearIntactIffSafe | crates/kabipay-tenant-import/src/reset.rs:331-369 | a clear leaves every foreign key satisfied iff it erases no key still referred to and half-nulls no MATCH FULL reference |
| ResetApply.SchemaSafeClears | crates/kabipay-tenant-import/src/reset.rs:229-247 | a condition on the catalogue alone makes every clear of a plan safe on every state |
| ResetCatalogue.CatalogueDecides | crates/kabipay-tenant-import/src/reset.rs:229-247 | without keys that a clear erases together with their own references, that condition holds iff the clear is safe on every sound state, whatever is preserved; in any catalogue a clear safe everywhere half-nulls nothing and erases no other key |
| ResetApply.ClearRemovesLink | crates/kabipay-tenant-import/src/reset.rs:346-359 | after a clear no doomed row refers to a doomed row through that key |
| ResetApply.DeletionsIntact | crates/kabipay-tenant-import/src/reset.rs:370-385 | after any prefix of the deletions no foreign key dangles |
| ResetApply.DeletionsEndAsIntended | crates/kabipay-tenant-import/src/reset.rs:370-385 | the deletions end in exactly the intended tables |
| ResetApply.TruncateGroup | crates/kabipay-tenant-import/src/reset.rs:308-330 | accepted iff every listed table may be truncated and the group is closed; empties exactly the group or changes nothing |
| ResetApply.ClearAll | crates/kabipay-tenant-import/src/reset.rs:331-369 | makes the clears in order, every state in between sound, and stops exactly at the first link that is not allowed or that the database refuses |
| ResetApply.ClearsStop | crates/kabipay-tenant-import/src/reset.rs:331-369 | for a reviewed manifest the clears run to the end iff each is safe in turn, and then every deletion is harmless |
| ResetApply.ClearsSpare | crates/kabipay-tenant-import/src/reset.rs:332-345 | no allowed clears touch a foundational or unlisted table or a preserved identity's row |
| ResetApply.DeleteAll | crates/kabipay-tenant-import/src/reset.rs:370-387 | deletes table by table in order and stops exactly at the first table that is foundational, unsafe or refused |
| ResetApply.DeletesPass | crates/kabipay-tenant-import/src/reset.rs:370-385 | once the clears are through, no deletion of a reviewed order is ever refused |
| ResetApply.Apply | crates/kabipay-tenant-import/src/reset.rs:300-387 | whatever the manifest, nothing dangles after any statement, and foundational tables, unlisted tables and the kept identities' rows are unchanged even when it fails; a reviewed manifest succeeds iff its clears are safe, and then the tables are exactly the intended ones |
| ResetPrepare.CollectDependencies | crates/kabipay-tenant-import/src/reset.rs:154-253 | succeeds iff no foreign key is unsupported or held by a staying row, else reports the first such key's error; returns one dependency per key with doomed pairs |
| ResetMeaning.KeyRefusedIff | crates/kabipay-tenant-import/src/reset.rs:154-215 | a foreign key is refused iff it leads into a listed table from one not truncated, both hold rows, and a column name cannot be quoted or a row that stays refers to a row that goes |
| ResetPrepare.DependenciesAre | crates/kabipay-tenant-import/src/reset.rs:216-252 | the dependencies are exactly those of keys under which a doomed child refers to a doomed parent |
| ResetMeaning.PlannedClearsAre | crates/kabipay-tenant-import/src/reset.rs:216-252 | every planned clear takes exactly the nullable columns of a key between two listed tables that some row to go uses towards a row to go; a MATCH FULL key is cleared whole |
| ResetPrepare.AcceptedIsReviewed | crates/kabipay-tenant-import/src/reset.rs:95-299 | the checks together with a plan give every fact the executor relies on |
| ResetPrepare.CheckOwned | crates/kabipay-tenant-import/src/reset.rs:254-283 | passes iff every table with a tenant column has a safe name and holds this tenant's rows only; otherwise the error of the first table that does not |
| ResetPrepare.Prepare | crates/kabipay-tenant-import/src/reset.rs:95-299 | succeeds iff every check passes and the rigid dependencies are acyclic; its manifest is reviewed, covers the given tables, carries the planner's clears and keeps the given identities; an error names the first check that fails |
| ResetPrepare.ListChecks | crates/kabipay-tenant-import/src/reset.rs:95-133 | the list checks, each iff: the four account tables listed, lists without repetition or overlap over existing tables with safe names, every table classified |
| ResetPrepare.TableChecks | crates/kabipay-tenant-import/src/reset_scope.rs:7-31 | the truncate group holds no identities and is closed under references from inside and outside the schema, iff its checks pass |
| ResetMeaning.AcceptedNamesEveryTable | crates/kabipay-tenant-import/src/reset.rs:95-283 | an accepted reset deletes from, truncates, retains or keeps every table of the catalogue, the first three exclusively, and every owned table holds this tenant's rows only |
| ResetPrepare.ClearsAreUnique | crates/kabipay-tenant-import/src/reset_order.rs:31-56 | all plans for a state clear the same links in the same turn |
| ResetPrepare.ReplaceTenant | crates/kabipay-tenant-import/src/reset.rs:95-387 | refused without a write unless accepted; once accepted it succeeds iff the planner's clears are safe in turn; after a success a row of user is left iff its id is a preserved account's, of employee iff its id is a preserved account's employee, of user_role iff its user_id is a preserved account's, all as they were, the other listed tables are empty and the rest unchanged; whatever the answer those rows and the ten kept tables are as they were and nothing dangles |
| ResetCycle.Attempt | crates/kabipay-tenant-import/src/reset.rs:95-387 | on every sound state that is accepted while no plan's clears go through, the whole reset ends in an error |
| ResetErasedKey.AcceptedButRefused | crates/kabipay-tenant-import/src/reset.rs:229-247 | a sound database, the acting account preserved and present, that passes every check, where every plan clears a key another row still uses and no plan's clears go through |
| ResetHalfNull.AcceptedButRefused | crates/kabipay-tenant-import/src/reset.rs:229-247 | a sound database, the acting account preserved and present, that passes every check, where every plan leaves a MATCH FULL reference half NULL, erasing no used key, and no plan's clears go through |
| CleanupQueue.BackoffGrows | crates/kabipay-common/src/private_file_cleanup.rs:296-299 | retry waits start at ten seconds, double up to an hour and never shrink as attempts grow |
| CleanupQueue.BackoffHolds | crates/kabipay-common/src/private_file_cleanup.rs:301-516 | in every run, whatever the clocks read, a task whose failed attempt k was recorded at time n is claimed by no later step before n plus the delay for k, until another outcome is recorded |
| CleanupQueue.CleanupStore.Enqueue | crates/kabipay-common/src/private_file_cleanup.rs:180-247 | inserts one pending tombstone unless the key is known, and otherwise changes nothing |
| CleanupQueue.CleanupStore.ClaimDueTask | crates/kabipay-common/src/private_file_cleanup.rs:301-355 | releases the oldest unlocked claim older than 300 seconds, if any, to be retried now; then claims under the new token the unlocked pending or failed task with the least next attempt not after now, earliest created first, or shows there is none |
| CleanupQueue.CleanupStore.Record | crates/kabipay-common/src/private_file_cleanup.rs:428-516 | applies iff the row still carries the copy's token; changes that row to the recorded outcome and no other row |
| CleanupQueue.CleanupStore.ProcessBatch | crates/kabipay-common/src/private_file_cleanup.rs:518-552 | each round claims the first due task and records its own outcome on it; between one and a hundred rounds as the limit says, stopping early only when no pending or failed task has reached its next attempt |
| CleanupQueue.EnqueueCoversIff | crates/kabipay-common/src/private_file_cleanup.rs:180-231 | after an enqueue a live tombstone exists iff the key was never completed before |
| CleanupQueue.CompletedKeyStaysUncovered | crates/kabipay-common/src/private_file_cleanup.rs:180-231 | for all coordinates: a run reaches their completed tombstone, and enqueueing them again leaves only completed rows |
| CleanupQueue.ClaimRefinesStep | crates/kabipay-common/src/private_file_cleanup.rs:301-355 | what the claim transaction does to the table is one step of the interleaved system |
| CleanupQueue.EveryRow | crates/kabipay-common/src/private_file_cleanup.rs:301-504 | in every run: token and claim time present iff PROCESSING, coordinates absent iff COMPLETED, attempts equal recorded outcomes up to saturation |
| CleanupQueue.FencedWorkerChangesNothing | crates/kabipay-common/src/private_file_cleanup.rs:440-516 | in every run a worker whose claim was taken over changes no row and records nothing |
| CleanupQueue.HolderRecordsOnce | crates/kabipay-common/src/private_file_cleanup.rs:440-504 | the current holder's record counts one attempt, schedules the backoff or completes, and touches no other row |
| CleanupQueue.CompletedIsFinal | crates/kabipay-common/src/private_file_cleanup.rs:440-465 | a COMPLETED row never changes again |
| CleanupQueue.CompletedWasDeleted | crates/kabipay-common/src/private_file_cleanup.rs:440-465 | for a completed task the run has a step in which a worker deleted the object under the very claim that completed it |
| CleanupQueue.CoordinatesLastUntilCompletion | crates/kabipay-common/src/private_file_cleanup.rs:440-504 | a task keeps its storage coordinates as enqueued until it completes |
| OutboxQueue.OutboxTable.ClaimNextPending | crates/kabipay-outbox-worker/src/main.rs:244-283 | claims an oldest unlocked pending event of an allowed aggregate, or changes nothing when there is none |
| OutboxQueue.MarkIsTwoSteps | crates/kabipay-outbox-worker/src/main.rs:285-343 | undisturbed, a worker reading and then writing its result does to the table what the mark as a whole does, and nothing when the row does not read as PROCESSING |
| OutboxQueue.ReclaimSettles | crates/kabipay-outbox-worker/src/main.rs:436-470 | after a reclaim no claim is older than the line, claims at or after it are untouched, counts are kept, rows stay well kept, and repeating it changes nothing |
| OutboxQueue.ReclaimKeepsFreshClaims | crates/kabipay-outbox-worker/src/main.rs:436-470 | a worker that has delivered can still mark its event after a reclaim iff it claimed it at or after the line |
| OutboxQueue.RequeueIsTwoSteps | crates/kabipay-analytics/src/services/analytics_service.rs:128-168 | undisturbed, reading and then writing a requeue is the requeue as a whole: the event is claimable again with its count |
| OutboxQueue.OutboxTable.ProcessTenant | crates/kabipay-outbox-worker/src/main.rs:472-503 | an undisturbed sweep ends within the retries left, tries an oldest claimable event each time, and settles every entitled event that was pending or whose worker is gone; claims made at or after the line and settled events are untouched |
| OutboxQueue.SweepSettles | crates/kabipay-outbox-worker/src/main.rs:472-503 | an event is untouched if never tried, PROCESSED iff a try succeeded, else one retry more per try and FAILED from the cap on |
| OutboxQueue.VerdictsAreEarned | crates/kabipay-outbox-worker/src/main.rs:244-343 | in every run: retry_count at most the failed deliveries among its steps, FAILED only after cap of them, PROCESSED only after a complete delivery, claim and processing times present as the status says |
| OutboxQueue.RequeuedFailsAtOnce | crates/kabipay-analytics/src/services/analytics_service.rs:158-163 | a requeued FAILED event fails for good on its next failure |
| OutboxQueue.ProcessedFinalIffNotUndermined | crates/kabipay-outbox-worker/src/main.rs:285-343 | PROCESSED lasts through every continuation iff no actor holds an earlier read and a contrary write |
| OutboxQueue.ProcessedCanBeUndone | crates/kabipay-outbox-worker/src/main.rs:305-343 | for events of every aggregate: unless reclaims and requeues are both careful, a run takes a delivered event back to pending, by a late failure or by a late requeue alone |
| OutboxQueue.RetryCountDropsIff | crates/kabipay-outbox-worker/src/main.rs:305-343 | over every run, a stored count never goes down iff no failure is written whose claim read a count more than one below the stored one |
| OutboxQueue.RetryCountCanDrop | crates/kabipay-outbox-worker/src/main.rs:305-343 | for events of every aggregate: unless reclaims and requeues are both careful, a run takes a count from two to one |
| OutboxQueue.BothCaresAreNeeded | crates/kabipay-outbox-worker/src/main.rs:436-470 | PROCESSED is final, and counts never drop, in all runs under a discipline iff the discipline has careful reclaims and careful requeues both |
| OutboxQueue.CarefulRunsAreSafe | crates/kabipay-outbox-worker/src/main.rs:244-343 | where reclaims spare events being worked on and requeues overwrite only FAILED rows: one worker per event, counts never drop, PROCESSED is final |
| Offboarding.TenantDatabase.OffboardApprovedSeparation | crates/kabipay-common/src/due_offboarding.rs:25-128 | wins iff the separation is due and its employee exists; a missing employee rolls everything back |
| Offboarding.TenantDatabase.ProcessDueSeparations | crates/kabipay-common/src/due_offboarding.rs:130-171 | succeeds iff no scanned separation is due without a live employee in the database it starts on, and then counts the wins; otherwise stops at the first such one with the earlier commits in place |
| Offboarding.WinsAreNewEvents | crates/kabipay-common/src/due_offboarding.rs:153-168 | the calls of a sweep add exactly one event per win and keep separations and events matched |
| Offboarding.WinnerDeactivates | crates/kabipay-common/src/due_offboarding.rs:56-127 | the winner leaves the employee inactive, the user without access and sessions, and other separations alone |
| Offboarding.OffboardedIffOneEvent | crates/kabipay-common/src/due_offboarding.rs:25-128 | in every run a separation is offboarded iff exactly one event of it exists, the recorded one |
| Offboarding.ErrorHidesWinIff | crates/kabipay-common/src/due_offboarding.rs:130-171 | a sweep that ends in an error has offboarded someone unreported iff a separation scanned before the failing one was due with a live employee in the starting database |
| Offboarding.EveryWinIsReported | crates/kabipay-common/src/due_offboarding.rs:130-171 | from any matched database, if nothing crashes and open separations keep live employees, the new events are exactly the direct and reported wins once no sweep runs |
| Offboarding.WinsHiddenIff | crates/kabipay-common/src/due_offboarding.rs:130-171 | in every run, once no sweep runs, events exceed the wins told to callers iff a sweep that had already won crashed or met a due separation without a live employee |
| Offboarding.FailedSweepLosesWin | crates/kabipay-common/src/due_offboarding.rs:153-168 | a run in which a failing sweep hides the win it already made |
| Sessions.SessionTable.Refresh | crates/kabipay-auth/src/handlers.rs:314-388 | undisturbed, succeeds iff the session is live, unexpired and its user active, and trades it for one successor |
| Sessions.RefreshIsSteps | crates/kabipay-auth/src/handlers.rs:314-388 | undisturbed, the lookup, check, delete and insert of one request do to the table what the whole refresh does, and a failed check changes nothing |
| Sessions.LoginAndLogout | crates/kabipay-auth/src/handlers.rs:390-421 | a login issues one session of that user and lineage, a logout removes that one session |
| Sessions.LoggedOutIsGone | crates/kabipay-auth/src/handlers.rs:390-421 | in every run a logged-out session is never live again and never exchanged afterwards, whoever had already checked it |
| Sessions.RevocationLastsIff | crates/kabipay-auth/src/handlers.rs:423-505 | in every run, revoking leaves no session of the user, and none reappears without a new login iff no request of the user is about to issue one |
| Sessions.ExchangedAtMostOnce | crates/kabipay-auth/src/handlers.rs:152-187 | in every interleaving a session is exchanged at most once and never returns |
| Sessions.AtMostOneSuccessor | crates/kabipay-auth/src/handlers.rs:537-644 | live sessions and exchanges in flight of one login never number more than one |
| Sessions.SecondConsumerIsRefused | crates/kabipay-auth/src/handlers.rs:314-388 | of two requests that checked the same session only the first to delete it goes on |
| Assets.AssetStore.UpsertAssetCategory | crates/kabipay-assets/src/services/asset_service.rs:521-568 | saves the name iff the category is new or exists and is active, leaving it active; a success is a commit of the locked protocol, a refusal excludes one |
| Assets.AssetStore.RetireAssetCategory | crates/kabipay-assets/src/services/asset_service.rs:570-613 | succeeds iff the category exists and, when active, holds retired assets only; it is then inactive and nothing else changed |
| Assets.AssetStore.UpsertAsset | crates/kabipay-assets/src/services/asset_service.rs:615-707 | succeeds iff category and location are active and an edited asset is AVAILABLE; the asset is then as given and AVAILABLE |
| Assets.AssetStore.RetireAsset | crates/kabipay-assets/src/services/asset_service.rs:709-758 | succeeds iff the asset is RETIRED already or AVAILABLE without active allocation; it is then RETIRED and nothing else changed |
| Assets.AssetStore.AssignAsset | crates/kabipay-assets/src/services/asset_service.rs:760-830 | succeeds iff the asset is AVAILABLE, the employee active and the dates in order; adds the allocation and makes the asset ASSIGNED |
| Assets.AssetStore.ReturnAsset | crates/kabipay-assets/src/services/asset_service.rs:833-907 | succeeds iff the allocation is active, not after the return date, and its asset exists; writes the log with that date, ends the allocation and makes the asset AVAILABLE |
| Assets.CommitMeans | crates/kabipay-assets/src/services/asset_service.rs:521-907 | what every commit of the interleaved protocol requires of the rows, and the whole state it leaves, operation by operation |
| Assets.ReturnedIsAssignable | crates/kabipay-assets/src/services/asset_service.rs:760-907 | right after a return the asset can be assigned to any active employee |
| Assets.StepKeepsInv | crates/kabipay-assets/src/services/asset_service.rs:521-907 | every lock, count, commit, abort or foreign write keeps the tables consistent, the locks exclusive, and every check made under a lock still true |
| Assets.TablesAgree | crates/kabipay-assets/src/services/asset_service.rs:521-907 | in every run: ASSIGNED iff exactly one active allocation, inactive categories hold only RETIRED assets, returned allocations have exactly one log with dates in order |
| Assets.FinalStatesStay | crates/kabipay-assets/src/services/asset_service.rs:570-758 | retired assets and categories, returned allocations and logs never change again |
| Assets.CommitsOnCurrentRows | crates/kabipay-assets/src/services/asset_service.rs:634-789 | category, location, asset and employee checks still hold at the moment of commit |
| Assets.WaitsRaiseRank | crates/kabipay-assets/src/services/asset_service.rs:634-674 | whoever is waited for can itself only wait for a lock of higher rank: category, location, allocation, asset, employee |
| Assets.NoDeadlock | crates/kabipay-assets/src/services/asset_service.rs:521-907 | in no state of any run do transactions wait for one another in a circle |
| Assets.SomeoneIsFree | crates/kabipay-assets/src/services/asset_service.rs:521-907 | following the waits from any transaction ends, after some steps, at one nothing blocks |
| Assets.CommitFindsItsRows | crates/kabipay-assets/src/services/asset_service.rs:687-907 | a transaction past its locks and counts always finds the rows it updates |
| Entitlements.AllowsModule | crates/kabipay-common/src/entitlements.rs:85-99 | terminates on cyclic dependencies, decides openness below the path, and restores the path set |
| Entitlements.Allows | crates/kabipay-common/src/entitlements.rs:73-98 | allowed iff everything the module transitively needs, itself included, is active, enabled, on no dependency cycle, and core or actively subscribed with today not before the start and before the expiry |
| Entitlements.OpenWhilePaid | crates/kabipay-common/src/entitlements.rs:85-91 | a non-core module without dependencies is open on exactly the days from the start of its subscription to before its expiry |
| Entitlements.ClosedOutsidePeriod | crates/kabipay-common/src/entitlements.rs:85-98 | before its subscription starts and from its expiry on, a non-core module and everything that depends on it are closed, every day |
| Entitlements.EntitledIsLeastFixpoint | crates/kabipay-common/src/entitlements.rs:73-98 | the allowed modules are the least fixpoint of the one-step rule, reached after as many rounds as there are modules |
| Entitlements.RestrictingNeverOpens | crates/kabipay-common/src/entitlements.rs:85-98 | fewer good modules and more dependencies never allow more |
| Entitlements.RevocationNeverEnables | crates/kabipay-common/src/entitlements.rs:85-98 | disabling, ending a subscription or adding a dependency never enables any module |
| TeamScope.RowsAreChains | crates/kabipay-common/src/client_data_scope.rs:263-278 | the recursion's rows are exactly the simple reporting paths of eligible employees, and it terminates on cycles |
| TeamScope.TeamIsReachable | crates/kabipay-common/src/client_data_scope.rs:257-289 | the team is exactly who is reachable from an eligible manager through eligible employees, nobody otherwise |
| TeamScope.TeamReportsDown | crates/kabipay-common/src/client_data_scope.rs:257-289 | an employee is in the team iff a line of current active or probation employees of the tenant, each reporting to the one before, leads down from the manager |
| TeamScope.ScopeShows | crates/kabipay-common/src/client_data_scope.rs:311-355 | whom each scope shows: everyone, only the viewer, the team, the department's current employees, and only the viewer without a department or nobody without an employee record |
| TeamScope.TeamIsEligible | crates/kabipay-common/src/client_data_scope.rs:257-289 | every member is a current employee of the tenant |
| TeamScope.OnePathEach | crates/kabipay-common/src/client_data_scope.rs:271-278 | with one manager each, every member arises from exactly one path |
| TeamScope.TeamCoversSelfIffEligible | crates/kabipay-common/src/client_data_scope.rs:311-355 | the team filter allows the viewer iff eligible, and nobody when not |
| Csv.ExportReadsBack | crates/kabipay-analytics/src/services/hr_reports.rs:110-133 | a reader for section 2 of RFC 4180 gets back every row and column, cells neutralised, iff every row has a column |
| Csv.NeutralisedIffDangerous | crates/kabipay-analytics/src/services/hr_reports.rs:123-133 | a cell gains one apostrophe iff a formula character comes first after blanks and controls or a tab or line break leads; no recovered cell is dangerous |
| LikePattern.ThreePassesAreOne | crates/kabipay-analytics/src/services/claim_travel_report_filters.rs:109-118 | the three replacements in sequence equal one simultaneous escape |
| LikePattern.PatternMeansContains | crates/kabipay-analytics/src/services/claim_travel_report_filters.rs:109-118 | the pattern matches a text under LIKE iff the text contains the search string literally |
| Base64Url.Base64UrlNoPad | crates/kabipay-auth/src/tokens.rs:27-50 | the loop writes the encoding of all bytes, group by group |
| Base64Url.EncodeDecodes | crates/kabipay-auth/src/tokens.rs:27-50 | the decoder of section 5 of RFC 4648 without padding returns the bytes, from exactly (4n+2)/3 characters |
| Base64Url.EncodeInjective | crates/kabipay-auth/src/tokens.rs:12-18 | different random bytes give different tokens |
| Base64Url.AlphabetIs | crates/kabipay-auth/src/tokens.rs:27-50 | the 64 characters, by number, in the order of RFC 4648 section 5 |
| Base64Url.FoobarIsEncoded | crates/kabipay-auth/src/tokens.rs:27-50 | the bytes of foobar become Zm9vYmFy, as in section 10 of RFC 4648 |
| Base64Url.DecodeEncodes | crates/kabipay-auth/src/tokens.rs:27-50 | every text the decoder accepts is the encoding of its value |
| Salary.BreakupForStructure | crates/kabipay-common/src/salary_breakup.rs:99-274 | fails exactly on no components, an unusable basic rule or an unknown basis; otherwise one sorted line per rule source, whatever order the hash map yields |
| Salary.RoundIsClose | crates/kabipay-common/src/salary_breakup.rs:53-54 | rounding moves an amount by at most half a cent and keeps whole cents |
| Salary.OrderOfOverridesIrrelevant | crates/kabipay-common/src/salary_breakup.rs:167-240 | the query's and the hash map's order give the same rule sources |
| Salary.GrossNearAnnual | crates/kabipay-common/src/salary_breakup.rs:252-273 | twelve monthly grosses differ from annual earnings by at most 0.06 per earning line, and net is exactly gross minus deductions |
| Salary.RulesMatchLines | crates/kabipay-common/src/salary_breakup.rs:167-251 | rules and lines carry the same multiset of code, normalised basis and value |
| Salary.BreakupMeans | crates/kabipay-common/src/salary_breakup.rs:137-273 | every line is priced from a structure row of an active component, its override replacing basis and value, or from an override without a row, and every such row and override has its line; net is gross minus deductions |
| Salary.BasicMeans | crates/kabipay-common/src/salary_breakup.rs:69-97 | basic comes from the first rule with the wanted code, else the first called BASIC, else the fallback if positive, else the CTC; unknown and circular bases are errors |
| Salary.HalfGoesToEven | crates/kabipay-common/src/salary_breakup.rs:53-59 | half a cent rounds to the even cent |
| Text.TrimMeans | crates/kabipay-common/src/salary_breakup.rs:35-36 | trimming takes white space off both ends and nothing else, and leaves none there |
| Text.CaseIs | crates/kabipay-common/src/salary_breakup.rs:35-36 | only the 26 letters change case, by 32 |
| Salary.BasicIsALine | crates/kabipay-common/src/salary_breakup.rs:69-97 | the rule chosen as basic is a line whose annual amount is the rounded basic |
| Attendance.ShowingIsStable | crates/kabipay-attendance/src/services/attendance_day_runtime.rs:9-19 | showing a row again later gives the later showing alone, a row once due stays due until shown, and no checkout is ever changed |
| Attendance.ProjectRows | crates/kabipay-attendance/src/services/attendance_day_runtime.rs:22-35 | shows every row in place, stopping untouched at the first foreign row or failed window |
| Attendance.AttendanceTable.ExpireEmployee | crates/kabipay-attendance/src/services/attendance_day_runtime.rs:75-101 | makes incomplete exactly the employee's rows without punch-out whose day's window had ended when read and that others left open; writes one audit row each with the prior reason and the window's end; counts them; an error undoes only its own writes |
| Attendance.AttendanceTable.ExpireRow | crates/kabipay-attendance/src/services/attendance_day_runtime.rs:82-98 | the guarded update and its audit row happen together or not at all |
| Attendance.AttendanceTable.Sweep | crates/kabipay-attendance/src/services/attendance_day_runtime.rs:112-140 | under any interference every candidate's round has exactly its effect, in order; the expired total equals the EXPIRE audit rows appended; failures are rolled back and counted |
| Attendance.SweptMovesAreDue | crates/kabipay-attendance/src/services/attendance_day_runtime.rs:112-140 | every row a sweep moves and records was open and past its window when read, whatever others do |
| Attendance.QuietSweep | crates/kabipay-attendance/src/services/attendance_day_runtime.rs:120-138 | undisturbed rounds together move each row at most once and change nothing else |
| Attendance.ExpiredCountsChanges | crates/kabipay-attendance/src/services/attendance_day_runtime.rs:112-140 | undisturbed, the total equals the rows gone from OPEN to INCOMPLETE, repeated candidates included, and nothing else changed |
| Attendance.ExpiryTouchesDueRowsOnly | crates/kabipay-attendance/src/services/attendance_day_runtime.rs:75-101 | under interference only rows past their window and open without checkout change, and no checkout is written |
| Attendance.PersistedIffShown | crates/kabipay-attendance/src/services/attendance_day_runtime.rs:9-101 | with nobody else writing, an expiry persists a row as incomplete iff it is shown so at that instant, every open day of the employee has a window and the database does not fail; it then persists what is shown |
| Attendance.ShownButNotPersisted | crates/kabipay-attendance/src/services/attendance_day_runtime.rs:22-101 | two open days, one without a window: the first is shown incomplete, while the expiry fails and persists nothing |
| Rbac.MergePermissionScope | crates/kabipay-auth/src/rbac.rs:20-32 | keeps the wider of two scopes and every other entry |
| Rbac.BuildClientAuthorization | crates/kabipay-auth/src/rbac.rs:47-124 | a permission has a scope iff an effective role both grants it and scopes it validly; the scope is the widest such; roles and permissions are exactly the effective ones, sorted |
| Rbac.ClaimsMean | crates/kabipay-auth/src/rbac.rs:47-124 | with unique permission ids: exactly the names and permissions of the tenant's undeleted roles, and per permission ALL if a counting row says so, else DEPARTMENT, else TEAM, else SELF, else no scope |
| Rbac.LastRowCounts | crates/kabipay-auth/src/rbac.rs:74-77 | of several permission rows with one id the last one gives the code |
| Rbac.WireReadsBack | crates/kabipay-common/src/context.rs:169-187 | the wire spelling of a scope parses back to it |
| Rbac.ScopedIsGranted | crates/kabipay-auth/src/rbac.rs:98-113 | every scoped permission is granted |
| Rbac.OrderOfRowsIrrelevant | crates/kabipay-auth/src/rbac.rs:47-124 | the claims depend only on which rows there are, not on their order or repetition |

## Left out

- OutboxQueue.OutboxTable.ClaimNextPending: does not fix which of several oldest events of equal creation time is taken, because the query does not either.
- CleanupQueue.CleanupStore.ProcessBatch: states one undisturbed worker; several workers are covered by the step relation.
- OutboxQueue.OutboxTable.ProcessTenant: states one undisturbed worker; concurrent ones are covered by the step relation.
- Offboarding.TenantDatabase.ProcessDueSeparations: the scan that yields the ids is an input.
- Attendance.AttendanceTable.Sweep: the candidate query's order, limit clamp and a failing commit are not modelled; a failing commit ends the source's sweep with an error.
- Salary.BreakupForStructure: amounts are exact reals, so the 28-digit precision of the decimal type before rounding is not modelled; component names and ids of persons are omitted.
- Assets.NoDeadlock: covers the row locks the transactions request; waits on unique indexes and implicit foreign-key locks are not modelled.
- Assets.AssetStore.UpsertAsset: serial number, tag, purchase data and their unique indexes are reduced to one name field.
- LikePattern.PatternMeansContains: case folding done by the surrounding query is not modelled.
- ResetCatalogue.CatalogueDecides: does not settle, for a key within one table whose referring and referred columns the same clear erases, on which states the clear is safe; `ResetCatalogue.SameColumnsNeverDangle` shows such keys can be harmless.
- ResetPrepare.Prepare: catalogue queries, the table fingerprint and the locks taken before the review are inputs; ON DELETE and ON UPDATE actions, UPDATE triggers and views with a tenant column are not modelled, and of DELETE triggers only the check that refuses them; an ON UPDATE action or an UPDATE trigger could change which clears the database accepts.
- Offboarding.TenantDatabase.OffboardApprovedSeparation: event payload and notification columns are reduced to the event's identity.
- Sessions.SessionTable.Refresh: token hashing, JWT issue, device columns and multi-factor state; tokens are fresh identifiers.
- Cleanup task error texts, the SHA-256 deduplication key and path validation: the key is an opaque value, two coordinates with one key count as the same.
- The sweep of expired upload stages: it depends on a database cascade that is not part of the repository.
- Outbox error texts, webhook signing and per-subscription delivery rows: a delivery is one success or failure.
- `filter_claims`, `outbox_aggregates` and the service and permission tables of the entitlements: single lookups over the modelled decision.
- `filter_employee` and `preview` of reports, the report queries, the per-day attendance aggregation and effective versions: filters and sorts without state.
- Workflow approval and current-step resolution: record lookups; their persisted repair is one conditional write.
- HTTP and GraphQL layers, service start-up, telemetry, storage clients, cryptography and time-zone tables.
