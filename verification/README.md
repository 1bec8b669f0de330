# Verification model of the SaaS template

This project models the parts of the template whose correctness depends on more than
one function at a time, and proves what they guarantee.

The core is the tutorial ticket module (`examples/tutorial-tickets`): a transactional
protocol over tickets, uploads, exports, files, jobs, idempotency records and the audit
log. HTTP requests, export workers (also ones holding a stale lease), the expiry sweep
and the maintenance of the files module all change the same rows. Each committed
transaction, each object-storage operation and each change of the surroundings (time,
memberships, sessions) is one atomic step, and every theorem about runs quantifies over
all sequences of such steps, with any number of processes under way.

| modules | what they hold |
|---|---|
| `Basics`, `TicketDomain`, `TicketModel` | sorted ids, input bounds, rows and answers |
| `TicketTransactions`, `TicketList`, `TicketSweep` | what each transaction refuses, answers and commits |
| `TicketDatabase` | the same transactions step by step on mutable tables, with rollback |
| `TicketSystem` | the state machine of all processes |
| `TicketReferences`, `TicketLedger`, `TicketEvolution` | what every transaction keeps, and how rows may change |
| `TicketSafety`, `TicketRuns` | the invariant of the whole system over runs |
| `TicketGuarantees`, `TicketAuthorization`, `TicketVersions`, `TicketIdempotency` | the results for users of the module |
| `TicketReplies`, `TicketUploads`, `TicketExports`, `TicketRetries` | what every request and worker step answers and leaves, in the rows' own fields, and that uploads and exports get through |
| `TicketLeases` | leases on jobs, and what a worker that lost its lease still does |
| `CrudRefinement` | the full module refines its CRUD checkpoint |
| `StatementLocks` | row locks one statement at a time: deadlock freedom, capacity |
| `LockedTransactions` | that commits of such transactions are the atomic steps of the state machine |
| `JsonText`, `ExportDocument`, `ExportLayout`, `ExportSize`, `ExportLimits` | the exported document, its layout and size, reading it back |
| `SigningDeadline` | how long a signed download lives |
| `RateWindow` | the Redis fixed-window counter |
| `UriComponent`, `GraphicPreference`, `PreferenceText`, `PreferenceStore` | the locally stored graphic preference |
| `SavePath` | the search for an unused download name |
| `AppContract`, `AppAssembly`, `AppCatalog`, `AppAssembler` | the assembly of example applications |
| `AppAcceptance`, `AppPages`, `AppShown` | which contributions are accepted, and what the assembled app shows of them |

`dafny verify dfyconfig.toml` checks everything.

## Assumptions

- Ids are natural numbers. A new id that is already in use is a database error, as a
  primary key makes it; freshness is never assumed.
- SHA-256 is ideal: distinct contents have distinct digests. The fingerprint of an
  idempotent request stands for its payload. There is one bucket, and stored objects are
  text under the id of their candidate.
- One monotone clock stands for the application's and the database's. Sessions stand for
  the background credential of an export.
- Each transaction of `TicketTransactions` is atomic. For what a transaction reads and writes
  of tickets, uploads and exports, `LockedTransactions` derives this from the row locks of
  `StatementLocks`; for memberships, sessions, keys, files, candidates and jobs, which have
  locks of their own, it is assumed. A timeout is a transaction that did not commit, or a
  reply that was lost: both are a step that is not taken or whose reply nobody looks at.
- Upload inputs are in the normal form validation gives them (lower-case media type and
  digest). A claim may delete any expired idempotency records, in any number.
- Other modules that use jobs, records, files or the audit log leave this module's rows in
  them alone.
- In `ExportLimits` a printed UUID takes at most 36 characters, a printed time at most 40,
  a printed digest at most 64, none of which JSON escapes.
- In `PreferenceStore` a parser stands for `JSON.parse`; all that is assumed of it is that
  it reads compact objects whose members are strings.

## Where the code promises less than it seems to

- An idempotency key is honoured for 24 hours after its first use
  (`migrations/0004_idempotency.sql`); afterwards the same request creates a second row,
  exactly when the ticket's limit leaves room for one.
- An export request keeps the raw path text in its key's scope, so two spellings of one
  ticket id are two requests; the second succeeds exactly when the limit leaves room.
- The window counter limits a window only for calls that reach the server before the
  counter expires; one more call under the old window exceeds the limit exactly when the
  calls before had used it up and the counter has expired.
- The catalog check looks names up on plain objects, so names every object inherits
  (`toString` and so on) pass without a text: both texts exist exactly when those names are
  declared in both locales or in neither.
- An example called `core` may replace Core's messages, because Core's own owner tag has
  that name. The catalog is the disjoint union of Core's and the examples' exactly when no
  example called `core` declares a `k` for which Core has the key `core.k`. The Core that
  is shipped (`packages/views/src/shell/core-messages.ts`) has no key under `core.`, so it
  is never touched.
- A navigation item may point at a route of an earlier example, although the comment at
  `packages/views/src/shell/app-contract.ts:220-223` says only at its own. It points at its
  own exactly when no earlier example contributes that path.

Each of these is stated and proved below, with the exact condition under which the promise
does hold. Lemmas at literal inputs show the failures.

## Model

| member | source | states |
|---|---|---|
| TicketDomain.AcceptedIsStable | examples/tutorial-tickets/domain.rs:7-20 | accepted input fits the table's checks, and a title read back is accepted again unchanged |
| TicketDomain.AcceptedAsSubmitted | examples/tutorial-tickets/domain.rs:7-20 | a title loses the whitespace at its ends and nothing else, a description is kept as submitted, and both are accepted exactly when 1 to 200 characters, at most 8192 bytes and no NUL are left |
| TicketDomain.CoreIsUnique | examples/tutorial-tickets/domain.rs:9 | there is only one text between whitespace at both ends that has none at its own |
| TicketDatabase.Database.Authorized | examples/tutorial-tickets/application.rs:18-32 | only members use tickets, members of lesser role only their own, and deleted tickets answer like missing ones |
| TicketDatabase.Database.Claim | crates/app/src/modules/idempotency/mod.rs:31-50 | a live record conflicts or replays; otherwise the key is claimed anew |
| TicketDatabase.Database.Complete | crates/app/src/modules/idempotency/mod.rs:52-63 | the response is saved in the claimed record |
| TicketDatabase.Database.MarkDeleting | crates/app/src/modules/files/cleanup.rs:23-62 | a file is marked and its cleanup enqueued once; a missing file is an error that changes nothing |
| TicketDatabase.Database.CreateTicket | examples/tutorial-tickets/application.rs:34-85 | the whole new state and answer of creation, replay and every refusal, rolled back |
| TicketDatabase.Database.ReadTicket | examples/tutorial-tickets/application.rs:87-96 | reading answers as authorization decides |
| TicketDatabase.Database.UpdateTicket | examples/tutorial-tickets/application.rs:99-126 | an update succeeds only on the expected version, raises it by one and is recorded |
| TicketDatabase.Database.ListTickets | examples/tutorial-tickets/application.rs:128-142 | the page is the listing function of the rows |
| TicketReplies.ReadAnswers | examples/tutorial-tickets/application.rs:18-32 | members read tickets that are not deleted, members of the lowest role only their own; the answer in each other case |
| TicketReplies.ListShowsWhatIsRead | examples/tutorial-tickets/application.rs:128-142 | every entry of a page is a ticket the same actor reads as it stands there, newest first, and every ticket the actor reads is on the page or older than a full page |
| TicketReplies.CreatedAsSubmitted | examples/tutorial-tickets/application.rs:34-85 | a first creation stores the submitted title without outer whitespace and the submitted description, open, at version 1, or answers which check refused it |
| TicketReplies.UpdatedAsSubmitted | examples/tutorial-tickets/application.rs:99-126 | an update of the version known stores what was submitted, status and next version, and keeps creator and creation time; the answer in each other case |
| TicketDatabase.Database.DeleteTicket | examples/tutorial-tickets/application.rs:144-195 | deletion marks every file once, drops uploads, clears exports, bumps the version and is recorded, or changes nothing |
| TicketReplies.DeleteAnswers | examples/tutorial-tickets/application.rs:144-195 | whoever may use a ticket deletes it, until its version is exhausted: uploads gone, exports cleared, exactly their files marked, version and time advanced, the event recorded |
| TicketDatabase.Database.FilesPointedAt | examples/tutorial-tickets/application.rs:152-171 | the collected ids are the files of both kinds of rows, ascending and without repetition |
| TicketDatabase.Database.MarkEach | examples/tutorial-tickets/application.rs:172-174 | the loop marks all of the files, or stops at a missing one |
| TicketDatabase.Database.StartUpload | examples/tutorial-tickets/attachments.rs:107-154 | registration inserts file, association and record together, replays, or changes nothing |
| TicketUploads.StartAnswers | examples/tutorial-tickets/attachments.rs:107-154 | a first request registers a pending file with what was declared and its unpublished association, or answers which check refused it |
| TicketUploads.AcceptableIsValid | crates/app/src/modules/files/mod.rs:197-227 | which names, media types and sizes are accepted |
| TicketDatabase.Database.Association | examples/tutorial-tickets/attachments.rs:157-170 | the association is found exactly for the ticket's own uploads |
| TicketDatabase.Database.PlanUpload | examples/tutorial-tickets/attachments.rs:197-206 | the plan for each file state, and the candidate or expiry it commits |
| TicketUploads.PlanAnswers | crates/app/src/modules/files/mod.rs:356-396 | a pending upload gets an attempt before its expiry and is expired from then on; ready, rejected, expired and marked files are answered as such and stay |
| TicketUploads.PlanRefuses | examples/tutorial-tickets/attachments.rs:196-202 | whoever may not use the ticket, or names a file that is not its own, is refused and changes nothing |
| TicketUploads.VerifyAnswers | crates/app/src/modules/files/mod.rs:398-453 | what was staged is stored once, and is verified exactly when it has the declared size and digest |
| TicketDatabase.Database.Publish | crates/app/src/modules/files/mod.rs:474-518 | a pending file adopts a copying candidate in time, otherwise the candidate is given up |
| TicketDatabase.Database.FinishUpload | examples/tutorial-tickets/attachments.rs:237-268 | publication adopts, publishes the association and records it together, or changes nothing but the attempt |
| TicketUploads.FinishAnswers | crates/app/src/modules/files/mod.rs:474-518 | for every state of file and candidate the answer and the rows of publication |
| TicketUploads.FinishRefuses | examples/tutorial-tickets/attachments.rs:238-247 | the refusals before publication, which change nothing |
| TicketUploads.UploadCompletes | examples/tutorial-tickets/attachments.rs:107-284 | an upload registered, planned, filled with what was declared and published within its time ends published |
| TicketDatabase.Database.AbandonUpload | examples/tutorial-tickets/attachments.rs:287-301 | abandoning touches only copying candidates and pending files |
| TicketUploads.AbandonAnswers | crates/app/src/modules/files/mod.rs:455-472 | giving up closes a copying candidate, and rejects a pending file only for wrong contents |
| TicketUploads.SweepAnswers | crates/app/src/modules/files/cleanup.rs:105-171 | pending files expire when their time is over, marked files end deleted, others stay |
| TicketUploads.CollectAnswers | crates/app/src/modules/files/cleanup.rs:15-21 | exactly which attempts may lose their bytes |
| TicketDatabase.Database.DeleteAttachment | examples/tutorial-tickets/attachments.rs:392-420 | the association goes and its file is marked together, or nothing changes |
| TicketReplies.DetachAnswers | examples/tutorial-tickets/attachments.rs:392-420 | whoever may use the ticket removes its attachment, whose file alone is marked; the answer in each other case |
| TicketDatabase.Database.ReadSnapshots | crates/app/src/modules/files/mod.rs:592-602 | one ready file for every id asked for, in ascending order, or an error |
| TicketDatabase.Database.TakeSnapshot | examples/tutorial-tickets/exports.rs:230-248 | the limits on exports, attachments and size, and the snapshot frozen when they hold |
| TicketDatabase.Database.RequestExport | examples/tutorial-tickets/exports.rs:200-308 | job, export row, event and record are inserted together, or the request is replayed or refused |
| TicketExports.SnapshotFreezes | examples/tutorial-tickets/exports.rs:239-247 | the frozen snapshot is the ticket row and its published attachments, each once, by ascending id, with the fields of their files |
| TicketExports.FrozenIsUnique | examples/tutorial-tickets/exports.rs:239-247 | there is only one such snapshot |
| TicketExports.RequestAnswers | examples/tutorial-tickets/exports.rs:200-308 | a first request freezes that snapshot for 3600 seconds and queues a job of three attempts, or answers which check refused it; the refusal for attachments that are not ready cannot happen |
| TicketDatabase.Database.AuthorizeWork | examples/tutorial-tickets/exports.rs:437-481 | the worker's re-check as a function of the rows, comparison loop included |
| TicketDatabase.Database.CompareObjects | examples/tutorial-tickets/exports.rs:468-479 | the loop accepts exactly pairwise equal objects |
| TicketExports.WorkAnswers | examples/tutorial-tickets/exports.rs:437-481 | the answer of the re-check in terms of rows and attachments, in the order it asks; none of them is retried |
| TicketDatabase.Database.LoadExport | examples/tutorial-tickets/exports.rs:570-590 | what the load transaction refuses, and what the worker keeps otherwise |
| TicketDatabase.Database.PrepareExport | examples/tutorial-tickets/exports.rs:596-619 | prepare re-checks and fences before it inserts file and candidate |
| TicketDatabase.Database.PublishExport | examples/tutorial-tickets/exports.rs:627-665 | publication re-checks, fences, adopts, attaches, records and succeeds in one step, or changes nothing |
| TicketExports.LoadAnswers | examples/tutorial-tickets/exports.rs:570-590 | the answer of the load transaction, and what the worker keeps |
| TicketExports.PrepareAnswers | examples/tutorial-tickets/exports.rs:596-619 | the answer of the prepare transaction, and the file and candidate it announces for an hour |
| TicketExports.WriteAnswers | examples/tutorial-tickets/exports.rs:621-625 | the document is written once, under its candidate |
| TicketExports.PublishAnswers | examples/tutorial-tickets/exports.rs:627-665 | the answer of publication for every state of job, export, file and candidate, and all the rows it writes at once |
| TicketExports.OnlyOutagesAreRetried | examples/tutorial-tickets/exports.rs:416-435 | which refusals end a job and which let it try again |
| TicketExports.RetriedExactlyWhen | examples/tutorial-tickets/exports.rs:596-665 | loading is never retried; preparing and publishing exactly when an id drawn is taken or the attempt was given up |
| TicketExports.ExportCompletes | examples/tutorial-tickets/exports.rs:551-672 | an export in order that is claimed, loaded, prepared, written and published within its lease and its hour ends published, its job succeeded |
| TicketLeases.StaleLoadStops | examples/tutorial-tickets/exports.rs:586-587 | if the job is gone, not running, has another token or is out of time, loading does not succeed and changes nothing |
| TicketLeases.StaleWorkerStops | examples/tutorial-tickets/exports.rs:597-630 | nor do preparing and publishing |
| TicketLeases.LoadLosesExactlyWhenStale | crates/app/src/modules/jobs/mod.rs:108-113 | loading answers that the lease is lost exactly when it is stale and everything asked before is in order |
| TicketLeases.WorkerLosesExactlyWhenStale | crates/app/src/modules/jobs/mod.rs:108-113 | so do preparing and publishing |
| TicketLeases.OldLeaseNeverPublishes | crates/app/src/modules/jobs/mod.rs:82-113 | once a job was claimed by another worker, no later run lets the old lease load, prepare or publish, unless its own token claims again |
| TicketLeases.ClaimAnswers | crates/app/src/modules/jobs/mod.rs:82-105 | what a claim makes of a job in every state |
| TicketLeases.RenewAnswers | crates/app/src/modules/jobs/mod.rs:136-147 | only the holder of a current lease renews it |
| TicketLeases.FailAnswers | crates/app/src/modules/jobs/mod.rs:149-166 | only the holder of a current lease fails its job, which waits to be retried exactly for a transient error with attempts left |
| TicketLeases.AttemptsAreBounded | crates/app/src/modules/jobs/mod.rs:89-97 | no run gives a job more attempts than it may have |
| TicketDatabase.Database.ExpireOne | examples/tutorial-tickets/exports.rs:698-709 | one row is cleared and its file marked together, if it is still due |
| TicketExports.ExpireAnswers | examples/tutorial-tickets/exports.rs:698-709 | an export is cleared and exactly its file marked if it is due and has data, and stays as it is otherwise |
| TicketExports.ExportsLiveTheirHour | examples/tutorial-tickets/exports.rs:694-709 | while an export's time lasts and its ticket is not deleted, no run takes its snapshot |
| TicketDatabase.Database.SelectDue | examples/tutorial-tickets/exports.rs:696-697 | the batch is the 25 due exports that expired first |
| TicketDatabase.Database.ScheduleExpiry | examples/tutorial-tickets/exports.rs:694-713 | a round is its rows one after the other |
| TicketSweep.RoundClearsEarliest | examples/tutorial-tickets/exports.rs:694-713 | a round clears the 25 due exports of earliest expiry, the smaller id first among equals, or all, and leaves every other row alone |
| TicketReferences.ReleaseKeepsReferences | examples/tutorial-tickets/application.rs:152-180 | rows that let go of files and the marking of those files keep all references sound |
| TicketReferences.RemoveKeepsReferences | examples/tutorial-tickets/application.rs:144-195 | deleting a ticket leaks no file and leaves no dangling row |
| TicketReferences.DetachKeepsReferences | examples/tutorial-tickets/attachments.rs:392-420 | removing an attachment leaks no file and leaves no dangling row |
| TicketReferences.PublishKeepsReferences | examples/tutorial-tickets/exports.rs:627-665 | publishing an export makes its file ready and referenced in one step |
| TicketReferences.ExpireKeepsReferences | examples/tutorial-tickets/exports.rs:698-709 | expiry leaks no file and leaves no dangling row |
| TicketSafety.InitialIsSafe | examples/tutorial-tickets/migrations/0001_tickets.sql:1-13 | the empty database satisfies the invariant |
| TicketSafety.CollectIsSafe | crates/app/src/modules/files/cleanup.rs:15-21 | object deletion never removes bytes a ready file or an open attempt relies on |
| TicketRuns.StepIsSafe | examples/tutorial-tickets/exports.rs:551-713 | every step of every process keeps the invariant and only evolves rows |
| TicketRuns.RunIsSafe | examples/tutorial-tickets/exports.rs:551-713 | so does every run |
| TicketGuarantees.NoDanglingReference | examples/tutorial-tickets/application.rs:152-180 | a referenced file was never marked, and no two rows reference one file |
| TicketGuarantees.MarkedAtMostOnce | crates/app/src/modules/files/cleanup.rs:33-36 | each file is marked at most once, and exactly the marked files are going |
| TicketGuarantees.NoLeak | examples/tutorial-tickets/application.rs:152-180 | a file adopted at any time is ever after referenced or marked, and never both |
| TicketGuarantees.ReadyFilesHaveTheirBytes | crates/app/src/modules/files/mod.rs:398-453 | the bytes of every ready file stay stored and match its digest |
| TicketGuarantees.DeletionAlwaysPossible | examples/tutorial-tickets/application.rs:164-174 | deletion is refused only for access or an exhausted version: over-50 and missing-file refusals are unreachable |
| TicketGuarantees.ReadyMeansPublished | examples/tutorial-tickets/attachments.rs:201-203 | completing an upload never meets a ready file that is not published |
| TicketGuarantees.ExportsOnlyMoveForward | examples/tutorial-tickets/exports.rs:551-713 | exports go from pending to published to cleared, and never trade snapshot or file |
| TicketGuarantees.PublicationIsRecordedOnce | examples/tutorial-tickets/exports.rs:648-665 | file implies snapshot, published implies succeeded, and completion is recorded at most once |
| TicketGuarantees.AttachingIsSucceeding | examples/tutorial-tickets/exports.rs:648-665 | the job succeeds in the very step that attaches the file |
| TicketGuarantees.AcceptedIsNeverOverLimit | examples/tutorial-tickets/exports.rs:587-592 | the worker never fails the size limit or the ticket check on a row the request accepted |
| TicketGuarantees.PublishedBytesAreTheRequestedOnes | examples/tutorial-tickets/exports.rs:244-249 | stored bytes are the document of what was read at request time, whatever commits in between |
| TicketAuthorization.CountCoversAll | examples/tutorial-tickets/exports.rs:462-466 | as many rows as ids exactly when ids are distinct and all are among the rows |
| TicketAuthorization.AuthorizedWorkMeans | examples/tutorial-tickets/exports.rs:437-481 | work goes on exactly when not expired, still accessible, credential current, and every input distinct, attached and unchanged |
| TicketAuthorization.PublicationFindsTheInputsAsRequested | examples/tutorial-tickets/exports.rs:627-632 | at publication every snapshotted attachment is distinct, published on the ticket and unchanged since the request |
| TicketVersions.VersionCountsEdits | examples/tutorial-tickets/application.rs:107-125 | a version is 1 plus the committed updates and deletions |
| TicketVersions.SameVersionSameRow | examples/tutorial-tickets/application.rs:107-125 | equal versions along a run mean equal rows |
| TicketVersions.UpdateRaisesVersion | examples/tutorial-tickets/application.rs:99-126 | a successful update started from the expected version and committed exactly the edit |
| TicketVersions.UpdateReplacesWhatWasRead | examples/tutorial-tickets/application.rs:99-126 | no lost update: what an update replaces is what its client read |
| TicketVersions.ExpectedVersionsAreDistinct | examples/tutorial-tickets/application.rs:99-126 | two successful updates never share an expected version |
| TicketVersions.DeletedStaysEmpty | examples/tutorial-tickets/application.rs:144-195 | after deletion no run gives the ticket an upload, an export with data or a new version |
| TicketIdempotency.ReplaysExactlyWhileRecorded | crates/app/src/modules/idempotency/mod.rs:31-50 | a granted claim replays exactly while its record lives |
| TicketRetries.ClaimDecides | crates/app/src/modules/idempotency/mod.rs:31-50 | which keys are granted, replayed or refused, for 86400 seconds, and what becomes of every other record |
| TicketRetries.RetryIsAnsweredWithTheRow | examples/tutorial-tickets/attachments.rs:117-151 | while a key is remembered the same request is answered with the row it made, as it is then, for as long as the actor may see it, and another request with the conflict |
| TicketIdempotency.RetriesNameTheSameRow | examples/tutorial-tickets/attachments.rs:117-151 | retries within the record's life name the same row or fail, add nothing, and with other input change nothing |
| TicketIdempotency.FirstUseIsRememberedForADay | migrations/0004_idempotency.sql:7 | a first use of any keyed request is remembered for 24 hours, whatever happens in them |
| TicketIdempotency.ExpiredKeyCreatesAgain | migrations/0004_idempotency.sql:7 | resubmitted after that, the same request creates a second ticket, upload or export, exactly when the ticket's limit leaves room |
| TicketIdempotency.SameRequestADayLater | migrations/0004_idempotency.sql:7 | a request that, sent again a day later, creates tickets 1 and 2 |
| TicketIdempotency.AnotherSpellingRequestsAgain | examples/tutorial-tickets/exports.rs:217 | another spelling of the ticket id is another export request, granted exactly when the limit leaves room |
| TicketIdempotency.OtherSpellingNamesAnotherExport | examples/tutorial-tickets/exports.rs:217 | one key under two spellings of the path of ticket 1 names exports 1 and 2 |
| CrudRefinement.CreateRefines | examples/tutorial-tickets/checkpoints/crud/application.rs:34-85 | creation is the checkpoint's creation with the same answer |
| CrudRefinement.UpdateRefines | examples/tutorial-tickets/checkpoints/crud/application.rs:99-126 | update is the checkpoint's update with the same answer |
| CrudRefinement.RemoveRefines | examples/tutorial-tickets/checkpoints/crud/application.rs:144-168 | deletion is the checkpoint's deletion with the same answer: its extra refusals cannot happen |
| CrudRefinement.StepRefines | examples/tutorial-tickets/checkpoints/crud/application.rs:34-168 | every step, reads and lists included, is one checkpoint step with the same reply, or invisible to it |
| CrudRefinement.RunRefines | examples/tutorial-tickets/checkpoints/crud/application.rs:34-168 | over any run the replies to all ticket requests are the checkpoint's |
| StatementLocks.RunIsSound | examples/tutorial-tickets/application.rs:28-30 | locks are ordered, compatible and held to the end in every state of every run |
| StatementLocks.NoUpgrade | examples/tutorial-tickets/exports.rs:337-340 | requests only go up the lock order and never strengthen a held lock |
| StatementLocks.NoDeadlock | examples/tutorial-tickets/application.rs:151-163 | the waits-for graph over ticket and export rows has no cycle |
| StatementLocks.SomeoneCanGoOn | examples/tutorial-tickets/application.rs:151-163 | while transactions are under way one of them can go on without another giving up |
| StatementLocks.WritersAreAlone | examples/tutorial-tickets/application.rs:28-30 | whoever writes a ticket, its uploads or a new export has the ticket's row to itself |
| StatementLocks.ReadersShare | examples/tutorial-tickets/application.rs:28-30 | whoever only reads a ticket's row waits there for such a writer, never for another reader |
| StatementLocks.HeldTicketIsStable | examples/tutorial-tickets/attachments.rs:115-136 | while a ticket's row is held no other transaction changes that row or any of its upload rows, nor under an exclusive lock any of its export rows |
| StatementLocks.ReadsHoldAtCommit | examples/tutorial-tickets/exports.rs:230-243 | the ticket, the count and the published attachments read at earlier statements are the committed ones when the transaction commits |
| StatementLocks.DeletedTicketIsEmpty | examples/tutorial-tickets/application.rs:144-195 | no interleaving of statements leaves a deleted ticket an upload or an export with data |
| StatementLocks.CapacityHolds | examples/tutorial-tickets/attachments.rs:130-143 | under any interleaving of statements a ticket never has more than 50 uploads or 50 live exports |
| LockedTransactions.StepActsAsItsKind | examples/tutorial-tickets/application.rs:99-195 | every step with locks changes tickets, uploads and exports exactly as its locking transaction commits them if all its checks pass, and else not at all |
| LockedTransactions.UnlockedStepKeepsRows | examples/tutorial-tickets/exports.rs:596-619 | every other step but creation leaves tickets, uploads and exports alone |
| LockedTransactions.CreateStepInserts | examples/tutorial-tickets/application.rs:34-85 | creation at most inserts a ticket that is not deleted |
| LockedTransactions.CommitIsOneStep | examples/tutorial-tickets/attachments.rs:115-151 | a commit after any interleaving of statements leaves exactly what the atomic step leaves, if that step's other checks pass, and it refuses nothing for what was read under the lock |
| LockedTransactions.FrozenIsCommitted | examples/tutorial-tickets/exports.rs:237-249 | the snapshot frozen of what was read under the lock is the one of the rows at commit |
| LockedTransactions.RefusalIsOneStep | examples/tutorial-tickets/attachments.rs:130-143 | a transaction that refuses for what it read of an existing ticket refuses what the atomic step refuses |
| LockedTransactions.CountedOutInsertsNothing | examples/tutorial-tickets/attachments.rs:130-143 | where the count reached the limit the atomic step inserts nothing |
| ExportDocument.DocumentReadsBack | examples/tutorial-tickets/exports.rs:83-108 | the pretty document reads back as exactly the ticket and metadata written, whatever they contain |
| ExportLayout.TicketLayout | examples/tutorial-tickets/exports.rs:83-108 | names, order and layout of the ticket's fields |
| ExportLayout.AttachmentLayout | examples/tutorial-tickets/exports.rs:83-108 | names, order and layout of an attachment's fields |
| ExportLayout.ListLayout | examples/tutorial-tickets/exports.rs:83-108 | the array of attachments and the end of the document |
| JsonText.StringReadsBack | examples/tutorial-tickets/exports.rs:110 | every escaped string reads back |
| JsonText.EscapedLength | examples/tutorial-tickets/exports.rs:110-113 | escaping costs at most six bytes per input byte, and plain text nothing |
| ExportSize.ByteLengthIsOfUtf8 | examples/tutorial-tickets/domain.rs:12 | text is measured in the bytes of its UTF-8 encoding |
| ExportSize.AcceptedContentFits | examples/tutorial-tickets/exports.rs:89-115 | for every accepted title and description the export without attachments fits 65536 bytes |
| ExportSize.RefusedOnlyForTheCount | examples/tutorial-tickets/exports.rs:89-115 | with stored attachments a document is refused exactly for having more than eight |
| ExportLimits.TooLargeMeansTooMany | examples/tutorial-tickets/exports.rs:240-249 | in every reachable state a request is too large exactly when more than eight attachments are published |
| ExportLimits.PublishedBytesReadBack | examples/tutorial-tickets/exports.rs:569-592 | stored bytes of a published export read back as a document that shows the ticket and its published attachments, field by field, as their rows were at the request |
| ExportLimits.RequestedExportCompletes | examples/tutorial-tickets/exports.rs:200-672 | from request to publication: a requested export that a worker gets through in time ends with a stored document that shows the rows of the request |
| SigningDeadline.SignedWithinTheDeadline | crates/platform/src/object_storage.rs:492-513 | a signature expires strictly after now, not after the deadline and less than a second before it |
| SigningDeadline.PassedMeansLessThanASecond | crates/platform/src/object_storage.rs:498-505 | signing gives up exactly when less than a second is left from the start of the current one |
| SigningDeadline.DownloadNeverOutlivesTheExport | examples/tutorial-tickets/exports.rs:391-406 | a granted download expires after it was signed and never outlives the export |
| SigningDeadline.FinalCheckPassesInTime | examples/tutorial-tickets/exports.rs:400-405 | the final check refuses nothing whose requested time ends within the export |
| SigningDeadline.StillClockGrants | examples/tutorial-tickets/exports.rs:391-406 | with a still clock a download is granted exactly when at least a second is left |
| SigningDeadline.OnlyReadyExportsAreHandedOut | examples/tutorial-tickets/exports.rs:391-400 | only a ready export is handed out; any other is not ready, or expired once less than a second is left |
| SigningDeadline.DownloadLastsAsLongAsItMay | examples/tutorial-tickets/exports.rs:391-406 | a granted download lasts as long as policy and export allow, up to rounding |
| RateWindow.WindowCounter.Consume | crates/platform/src/rate_limit.rs:28-34 | the script refuses unreadable counters, stops at the limit, and otherwise counts and renews |
| RateWindow.WindowCounter.Allow | crates/platform/src/rate_limit.rs:56-83 | one attempt applies the script at most once, whatever happens to the reply |
| RateWindow.CallAnswers | crates/platform/src/rate_limit.rs:28-83 | the answer and the counter after one call, for every counter and fate |
| RateWindow.KeysAreDistinct | crates/platform/src/rate_limit.rs:64-68 | distinct policies, windows or clients never share a key, even with colons in the policy |
| RateWindow.WindowLimit | crates/platform/src/rate_limit.rs:28-34 | over any run at most the limit of calls of one triple are answered true |
| RateWindow.NothingIsWasted | crates/platform/src/rate_limit.rs:28-34 | when every call gets through exactly the first ones up to the limit succeed |
| RateWindow.CallerOutlivesWindow | crates/app/src/modules/rate_limit/mod.rs:249-253 | the caller's arguments keep the counter alive to the window's end however long the request travels |
| RateWindow.LateCallExceedsLimitIfSpent | crates/platform/src/rate_limit.rs:28-34 | one more call exceeds the limit exactly when the calls before had used it up and the counter has expired |
| RateWindow.CallAfterExpiryExceedsLimitIfSpent | crates/platform/src/rate_limit.rs:28-34 | a call later than every requested time to live exceeds the limit exactly when it was used up |
| RateWindow.LateCallExceedsLimitOfOne | crates/platform/src/rate_limit.rs:28-34 | two calls of one window with a limit of one that are both answered true |
| RateWindow.AnswersOfAnyRun | crates/platform/src/rate_limit.rs:28-34 | the number of true answers of any run, cut at each expiry of the counter: in each part exactly the first calls applied up to the limit are granted, and those count whose reply arrived |
| UriComponent.DecodeEncode | packages/views/src/shell/graphic-preferences.ts:28-30 | encoded components decode to themselves |
| UriComponent.PlainTextStays | packages/views/src/shell/graphic-preferences.ts:28-30 | letters, digits and a few marks stand for themselves |
| GraphicPreference.ParseKeepsValid | packages/views/src/shell/graphic-choice.ts:66-105 | exactly the valid choices are accepted, and given back as they are |
| GraphicPreference.ParsedIsValid | packages/views/src/shell/graphic-choice.ts:66-105 | whatever the value, what is returned is valid |
| GraphicPreference.ChoicesAre | packages/views/src/shell/graphic-choice.ts:1-53 | which styles, glyphs, colors, seeds and backgrounds are valid for whom |
| GraphicPreference.ParsesExactlyWhatSpells | packages/views/src/shell/graphic-choice.ts:66-105 | exactly the objects whose members spell a valid choice are read, as that choice, whatever other members they have |
| GraphicPreference.DefaultGraphicIs | packages/views/src/shell/graphic-choice.ts:55-64 | people default to lorelei and collections to glass, of the given seed, without background |
| PreferenceText.QuotedReadsBack | packages/views/src/shell/graphic-preferences.ts:72 | every string, unpaired surrogates included, is read back from its quoted form |
| PreferenceText.StringifiedParses | packages/views/src/shell/graphic-preferences.ts:56-72 | a written choice parses to the value it came from |
| PreferenceText.StringifiedFits | packages/views/src/shell/graphic-preferences.ts:58 | every storable choice fits 2048 characters |
| PreferenceStore.KeysAreDistinct | packages/views/src/shell/graphic-preferences.ts:28-30 | distinct users or entities never share a key |
| PreferenceStore.Preferences.Read | packages/views/src/shell/graphic-preferences.ts:12-21 | the session's text wins over the stored one, and unreadable storage is empty |
| PreferenceStore.Preferences.SetChoice | packages/views/src/shell/graphic-preferences.ts:67-82 | an accepted choice goes to storage and leaves the session, or to the session when storage fails |
| PreferenceStore.Preferences.Shown | packages/views/src/shell/graphic-preferences.ts:56-66 | sound stored text is shown, anything else falls back to the identity's own graphic |
| PreferenceStore.StoredChoiceIsShown | packages/views/src/shell/graphic-preferences.ts:56-72 | a valid choice is shown again as it was stored |
| PreferenceStore.NothingSoundShowsTheDefault | packages/views/src/shell/graphic-preferences.ts:56-66 | missing, overlong, unreadable or invalid text shows that default |
| PreferenceStore.LastAcceptedIsShown | packages/views/src/shell/graphic-preferences.ts:56-82 | over any run in one tab each user and entity is shown its last accepted choice |
| SavePath.UniqueSavePath | apps/desktop/src/main.ts:158-169 | the search ends within as many increments as there are entries, at the lowest-numbered unused name |
| SavePath.NumberGoesBeforeTheExtension | apps/desktop/src/main.ts:159-165 | the number stands between stem and extension |
| SavePath.NumberGoesLast | apps/desktop/src/main.ts:159-165 | a name without an extension is followed by it |
| SavePath.FirstNamesCount | apps/desktop/src/main.ts:159-166 | the candidate names are pairwise distinct |
| SavePath.FirstFreeIsUnique | apps/desktop/src/main.ts:158-169 | there is exactly one name it may return |
| AppContract.NormalizeIsIdempotent | packages/views/src/shell/app-contract.ts:168-172 | a normal path is absolute, has no trailing slash and is its own normal form |
| AppContract.NormalizeCutsSlashes | packages/views/src/shell/app-contract.ts:168-172 | exactly the absolute paths are accepted, and nothing but trailing slashes is cut |
| AppContract.KeysAreDistinct | packages/views/src/shell/app-contract.ts:203 | a namespaced key determines example and key, because ids contain no dot |
| AppAssembly.AcceptedRoutesAreDistinct | packages/views/src/shell/app-contract.ts:183-196 | accepted routes are pairwise distinct after normalization and never Core's |
| AppAcceptance.AcceptedExactlyWhen | packages/views/src/shell/app-contract.ts:174-299 | contributions pass exactly when each is acceptable after those before it: id, paths, texts, menus, scenes, entry and icons |
| AppPages.AppHasThePages | packages/views/src/shell/app-contract.ts:380-386 | the app has exactly the contributed pages, in order, with path and example, and the examples' ids |
| AppPages.PagesAreDistinct | packages/views/src/shell/app-contract.ts:183-196 | no two pages of the app share a path, and none is the shell's |
| AppPages.EverythingLeadsToPages | packages/views/src/shell/app-contract.ts:224-377 | every menu item, the entry and every icon not the shell's belong to a page of the app; the shell's icons stay |
| AppAssembly.OwnersAreContributors | packages/views/src/shell/app-contract.ts:183-196 | exactly the contributed paths are owned, each by its contributor |
| AppAssembly.MenusLeadHomeUnlessBack | packages/views/src/shell/app-contract.ts:219-233 | an item leads to a route of this example or an earlier one, and to its own exactly when no earlier example has that path |
| AppAssembly.StaysHomeUnlessPointingBack | packages/views/src/shell/app-contract.ts:219-233 | an accepted example's menus all lead to its own routes exactly when no item names an earlier example's path |
| AppAssembly.MenuOfAnotherExampleIsAccepted | packages/views/src/shell/app-contract.ts:219-233 | an accepted assembly whose second example's menu leads to the first one's page |
| AppAssembly.MenusLeadToRoutes | packages/views/src/shell/app-contract.ts:224-243 | every menu of the assembly is some example's and leads to routes of it or of earlier ones, and the default entry, unless it is home, is a contributed route |
| AppAssembly.CoreIconsStay | packages/views/src/shell/app-contract.ts:368-377 | no Core icon is replaced and every other icon dresses a contributed route |
| AppShown.AppHasTheMenus | packages/views/src/shell/app-contract.ts:224-245 | the menus are the contributed groups with items, in order, under their examples' names, with normal paths |
| AppShown.AppHasTheScenes | packages/views/src/shell/app-contract.ts:246-262 | the scenes are the contributed ones, in order, under their examples' names |
| AppShown.AppStartsAtTheEntry | packages/views/src/shell/app-contract.ts:341-361 | the entry is the pinned one, else that of the first example that declares one, else home |
| AppShown.PagesWearTheirIcons | packages/views/src/shell/app-contract.ts:372-377 | a page wears the last icon its example lists for it |
| AppShown.AssembledExactlyWhen | packages/views/src/shell/app-contract.ts:301-361 | there is an app exactly when every contribution is acceptable, none but one called core declares a text of Core's, and the pinned page exists |
| AppShown.ExamplesSpeakTheirTexts | packages/views/src/shell/messages.tsx:59-71 | every declared text is shown under its example's name in its language |
| AppCatalog.TakeoverIsOfCore | packages/views/src/shell/app-contract.ts:320-340 | registration fails exactly when an example not called core declares a key of Core's |
| AppCatalog.CatalogIsDisjointUnion | packages/views/src/shell/app-contract.ts:320-340 | an accepted catalog is the disjoint union of Core's and the examples' exactly when no example called core declares a key that makes one of Core's |
| AppCatalog.PlainCoreIsNeverTouched | packages/views/src/shell/app-contract.ts:320-340 | a Core without keys under `core.` is never touched |
| AppCatalog.CoreNamesakeReplaces | packages/views/src/shell/app-contract.ts:326-339 | in either locale Core's texts all stay exactly when an example called core agrees with them wherever their keys meet |
| AppCatalog.CoreNamesakeIsAccepted | packages/views/src/shell/app-contract.ts:326-339 | an accepted example called core that replaces a title of Core's in both locales |
| AppCatalog.BilingualUpToInheritedNames | packages/views/src/shell/app-contract.ts:208-217 | keys have both texts exactly when inherited names are declared in both locales or neither |
| AppCatalog.InheritedNamePassesWithoutText | packages/views/src/shell/app-contract.ts:208-217 | an accepted example with a one-sided text exists |
| AppCatalog.LabelsResolve | packages/views/src/shell/messages.tsx:59-71 | every menu and scene label has a text exactly when no undeclared inherited name is used |
| AppCatalog.InheritedLabelShowsTheHint | packages/views/src/shell/messages.tsx:63-67 | an accepted assembly that shows the generic hint exists |
| AppCatalog.OrderDoesNotMatter | packages/views/src/shell/app-contract.ts:301-340 | two accepted orders of the same examples give equal messages and icons |
| AppAssembler.Assembler.ContributeRoutes | packages/views/src/shell/app-contract.ts:183-196 | the loop owns each normal path once, or reports the first problem |
| AppAssembler.Assembler.ValidatedExample | packages/views/src/shell/app-contract.ts:174-299 | the checks in order, and the contribution's menus, scenes and messages |
| AppAssembler.ReadNavigation | packages/views/src/shell/app-contract.ts:224-250 | the nested loops collect used keys and namespaced groups, or report the first foreign item |
| AppAssembler.RegisterKeys | packages/views/src/shell/app-contract.ts:328-340 | keys become the example's unless somebody else owns one |
| AppAssembler.AssembleApp | packages/views/src/shell/app-contract.ts:301-414 | the whole assembly, or the first problem |

## Left out

- HTTP routing, extractors, OpenAPI, response bodies, deep links and views.
- `get_export`, `list_attachments` and `download_attachment`: reads that add no state; the deadline of `download_export` is in `SigningDeadline`.
- Locks on memberships, idempotency records, jobs and files: `StatementLocks` covers ticket and export rows. A row lock is modelled whether or not the row exists, which only adds conflicts, and a waiting request blocks only on holders, not on earlier waiters.
- Isolation of one transaction's reads from concurrent commits outside the rows of its ticket: the file rows of a snapshot, which the request share-locks, are given to `StatementLocks` as they are at commit.
- Notifications, job batches, job scheduling times, correlation ids and HTTP rate limits.
- The configured size limit of uploads and the media type grammar beyond type, slash, subtype and their characters.
- The order in which two checks of one transaction fail is kept; which of several keys fails first inside one loop over an object's keys is not.
- Staged uploads in object storage: what is staged when a completion copies it is any text. Verification compares size and digest; the stored media type, the upload's metadata and the leading bytes of images and PDFs are not modelled.
- Clearing a job's token and lease when it stops running: a job that is not running accepts no token. Files on disk and their failures while a document is generated.
- `interpolate`, notification resolvers, describers and the components carried by pages and scenes.
- Storage events from other tabs, and user or entity ids with unpaired surrogates, for which `encodeURIComponent` throws.
- `sanitizeDownloadFilename`; `path.join` is taken as putting the name into the directory.
- The signing library's own limits: whether it builds a signature is a parameter.
- The intermediate checkpoint `examples/tutorial-tickets/checkpoints/files`.
