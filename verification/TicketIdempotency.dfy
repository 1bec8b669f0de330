/** Retried requests: one key names one row for as long as its record lives. */
module TicketIdempotency {
  import opened Basics
  import opened TicketDomain
  import opened TicketModel
  import opened TicketTransactions
  import opened TicketSystem
  import opened TicketLedger
  import opened TicketSafety
  import opened TicketRuns
  import opened TicketGuarantees

  /** The requests that carry an idempotency key. */
  predicate IsKeyed(step: Step) {
    step.CreateTicket? || step.StartUpload? || step.RequestExport?
  }

  function KeyOf(step: Step): RecordKey
    requires IsKeyed(step)
  {
    match step
    case CreateTicket(actor, _, _, key, _, _, _) => RecordKey(actor, TicketScope, key)
    case StartUpload(actor, t, _, key, _, _, _) => RecordKey(actor, UploadScope(t), key)
    case RequestExport(actor, _, t, spelling, key, _, _, _) => RecordKey(actor, ExportScope(t, spelling), key)
  }

  /** What the request asks for under its key; None when its content is not even accepted. */
  function MarkOf(step: Step): Option<Fingerprint>
    requires IsKeyed(step)
  {
    match step
    case CreateTicket(_, title, description, _, _, _, _) =>
      var content := New(title, description);
      if content.Some? then Some(OfTicket(content.value)) else None
    case StartUpload(_, _, input, _, _, _, _) => Some(OfUpload(input))
    case RequestExport(_, _, _, _, _, _, _, _) => Some(OfNothing)
  }

  /** The id a successful reply names. */
  function Named(reply: Reply): Option<Id> {
    match reply
    case TicketReply(Ok(ticket)) => Some(ticket.id)
    case UploadReply(Ok(id)) => Some(id)
    case ExportReply(Ok(id)) => Some(id)
    case _ => None
  }

  /** Under a live record of key k, with this mark, a row of this id was saved. */
  ghost predicate Recorded(s: State, k: RecordKey, mark: Fingerprint, id: Id) {
    LiveRecord(s, k) && s.records[k].fingerprint == mark && s.records[k].response.Some?
    && s.records[k].response.value.id == id
  }

  /** No row, job, audit event or cleanup is added or changed. */
  ghost predicate AddsNothing(s: State, after: State) {
    after == s.(records := after.records)
  }

  // ----- the claim -----------------------------------------------------------------------------

  /** A granted claim replays exactly while the key's record lives. */
  lemma ReplaysExactlyWhileRecorded(render: Renderer, sys: System, k: RecordKey, mark: Fingerprint,
                                    purge: set<RecordKey>)
    requires Reachable(render, sys) && ClaimKey(sys.db, k, mark, purge).KeyGranted?
    ensures ClaimKey(sys.db, k, mark, purge).saved.Some?
       <==> k in sys.db.records && sys.db.now < sys.db.records[k].expiresAt
  {
    ReachableIsSafe(render, sys);
  }

  lemma ClaimRecords(s: State, k: RecordKey, mark: Fingerprint, purge: set<RecordKey>, saved: Saved)
    requires RecordsOk(s)
    ensures var claim := ClaimKey(s, k, mark, purge);
            claim.KeyGranted? ==>
              var records := if claim.saved.Some? then claim.records else Completed(claim.records, k, saved);
              && k in records && s.now < records[k].expiresAt
              && records[k].fingerprint == mark
              && records[k].response == Some(if claim.saved.Some? then claim.saved.value else saved)
              && (!LiveRecord(s, k) ==> records[k].expiresAt == s.now + RECORD_RETENTION)
  {
  }

  // ----- one request ------------------------------------------------------------------------------

  lemma CreateRecords(s: State, actor: Id, content: Content, key: string, id: Id, stamp: int, purge: set<RecordKey>)
    requires RecordsOk(s) && TicketsOk(s.tickets, s.audit)
    ensures var (after, answer) := Create(s, actor, content, key, id, stamp, purge);
            answer.Ok? ==> Recorded(after, RecordKey(actor, TicketScope, key), OfTicket(content), answer.value.id)
  {
    ClaimRecords(s, RecordKey(actor, TicketScope, key), OfTicket(content), purge, SavedTicket(id));
  }

  lemma CreateReplays(s: State, actor: Id, content: Content, key: string, id: Id, stamp: int, purge: set<RecordKey>,
                      mark: Fingerprint, saved: Id)
    requires TicketsOk(s.tickets, s.audit) && Recorded(s, RecordKey(actor, TicketScope, key), mark, saved)
    ensures var (after, answer) := Create(s, actor, content, key, id, stamp, purge);
            && AddsNothing(s, after)
            && (answer.Ok? ==> answer.value.id == saved && mark == OfTicket(content))
            && (mark != OfTicket(content) ==> after == s)
  {
  }

  lemma RegisterRecords(s: State, actor: Id, t: Id, input: UploadInput, key: string, id: Id, lifetime: nat,
                        purge: set<RecordKey>)
    requires RecordsOk(s)
    ensures var (after, answer) := RegisterUpload(s, actor, t, input, key, id, lifetime, purge);
            answer.Ok? ==> Recorded(after, RecordKey(actor, UploadScope(t), key), OfUpload(input), answer.value)
  {
    ClaimRecords(s, RecordKey(actor, UploadScope(t), key), OfUpload(input), purge, SavedUpload(id));
  }

  lemma RegisterReplays(s: State, actor: Id, t: Id, input: UploadInput, key: string, id: Id, lifetime: nat,
                        purge: set<RecordKey>, mark: Fingerprint, saved: Id)
    requires Recorded(s, RecordKey(actor, UploadScope(t), key), mark, saved)
    ensures var (after, answer) := RegisterUpload(s, actor, t, input, key, id, lifetime, purge);
            && AddsNothing(s, after)
            && (answer.Ok? ==> answer.value == saved && mark == OfUpload(input))
            && (mark != OfUpload(input) ==> after == s)
  {
  }

  lemma RequestRecords(render: Renderer, s: State, actor: Id, session: Id, t: Id, spelling: string, key: string,
                       e: Id, job: Id, purge: set<RecordKey>)
    requires RecordsOk(s)
    ensures var (after, answer) := CreateExport(render, s, actor, session, t, spelling, key, e, job, purge);
            answer.Ok? ==> Recorded(after, RecordKey(actor, ExportScope(t, spelling), key), OfNothing, answer.value)
  {
    ClaimRecords(s, RecordKey(actor, ExportScope(t, spelling), key), OfNothing, purge, SavedExport(e));
  }

  lemma RequestReplays(render: Renderer, s: State, actor: Id, session: Id, t: Id, spelling: string, key: string,
                       e: Id, job: Id, purge: set<RecordKey>, mark: Fingerprint, saved: Id)
    requires Recorded(s, RecordKey(actor, ExportScope(t, spelling), key), mark, saved)
    ensures var (after, answer) := CreateExport(render, s, actor, session, t, spelling, key, e, job, purge);
            && AddsNothing(s, after)
            && (answer.Ok? ==> answer.value == saved && mark == OfNothing)
            && (mark != OfNothing ==> after == s)
  {
  }

  lemma SuccessIsRecorded(render: Renderer, sys: System, step: Step)
    requires Safe(render, sys) && IsKeyed(step) && Named(Apply(render, sys, step).1).Some?
    ensures MarkOf(step).Some?
    ensures Recorded(Apply(render, sys, step).0.db, KeyOf(step), MarkOf(step).value,
                     Named(Apply(render, sys, step).1).value)
  {
    hide Create, RegisterUpload, CreateExport, Recorded;
    match step
    case CreateTicket(actor, title, description, key, id, stamp, purge) =>
      CreateRecords(sys.db, actor, New(title, description).value, key, id, stamp, purge);
    case StartUpload(actor, t, input, key, id, lifetime, purge) =>
      RegisterRecords(sys.db, actor, t, input, key, id, lifetime, purge);
    case RequestExport(actor, session, t, spelling, key, e, job, purge) =>
      RequestRecords(render, sys.db, actor, session, t, spelling, key, e, job, purge);
  }

  /** A request under a recorded key answers with the recorded id or not at all, and changes no row. */
  ghost predicate Replays(render: Renderer, sys: System, retry: Step, mark: Option<Fingerprint>, id: Id)
    requires IsKeyed(retry)
  {
    && AddsNothing(sys.db, Apply(render, sys, retry).0.db)
    && Apply(render, sys, retry).0 == sys.(db := Apply(render, sys, retry).0.db)
    && (Named(Apply(render, sys, retry).1).Some? ==>
          Named(Apply(render, sys, retry).1) == Some(id) && MarkOf(retry) == mark)
    && (MarkOf(retry) != mark ==> Apply(render, sys, retry).0 == sys)
  }

  lemma TicketIsReplayed(render: Renderer, sys: System, retry: Step, mark: Fingerprint, id: Id)
    requires Safe(render, sys) && retry.CreateTicket? && Recorded(sys.db, KeyOf(retry), mark, id)
    ensures Replays(render, sys, retry, Some(mark), id)
  {
    if New(retry.title, retry.description).Some? {
      var content := New(retry.title, retry.description).value;
      CreateReplays(sys.db, retry.actor, content, retry.key, retry.id, retry.stamp, retry.purge, mark, id);
    }
  }

  lemma UploadIsReplayed(render: Renderer, sys: System, retry: Step, mark: Fingerprint, id: Id)
    requires retry.StartUpload? && Recorded(sys.db, KeyOf(retry), mark, id)
    ensures Replays(render, sys, retry, Some(mark), id)
  {
    RegisterReplays(sys.db, retry.actor, retry.ticket, retry.input, retry.key, retry.id, retry.lifetime, retry.purge,
                    mark, id);
  }

  lemma ExportIsReplayed(render: Renderer, sys: System, retry: Step, mark: Fingerprint, id: Id)
    requires retry.RequestExport? && Recorded(sys.db, KeyOf(retry), mark, id)
    ensures Replays(render, sys, retry, Some(mark), id)
  {
    RequestReplays(render, sys.db, retry.actor, retry.session, retry.ticket, retry.spelling, retry.key, retry.id,
                   retry.job, retry.purge, mark, id);
  }

  lemma RecordedIsReplayed(render: Renderer, sys: System, retry: Step, mark: Fingerprint, id: Id)
    requires Safe(render, sys) && IsKeyed(retry) && Recorded(sys.db, KeyOf(retry), mark, id)
    ensures Replays(render, sys, retry, Some(mark), id)
  {
    if retry.CreateTicket? {
      TicketIsReplayed(render, sys, retry, mark, id);
    } else if retry.StartUpload? {
      UploadIsReplayed(render, sys, retry, mark, id);
    } else {
      ExportIsReplayed(render, sys, retry, mark, id);
    }
  }

  // ----- over runs ----------------------------------------------------------------------------------

  /** Until when a key that was just used is remembered. */
  function RememberedUntil(s: State, k: RecordKey): int {
    if k in s.records then s.records[k].expiresAt else s.now
  }

  /**
   * One key, one row: once a keyed request succeeded, every retry under the same
   * key before its record expires, after any interleaving, names the same row or
   * is refused, adds no row, job or audit event, and with a different input
   * changes nothing at all.
   */
  lemma RetriesNameTheSameRow(render: Renderer, sys: System, first: Step, steps: seq<Step>, retry: Step)
    requires Reachable(render, sys) && IsKeyed(first) && IsKeyed(retry) && KeyOf(first) == KeyOf(retry)
    requires Named(Apply(render, sys, first).1).Some?
    requires var next := Apply(render, sys, first).0;
             Run(render, next, steps).db.now < RememberedUntil(next.db, KeyOf(first))
    ensures Replays(render, Run(render, Apply(render, sys, first).0, steps), retry, MarkOf(first),
                    Named(Apply(render, sys, first).1).value)
  {
    ReachableIsSafe(render, sys);
    SuccessIsRecorded(render, sys, first);
    StepIsSafe(render, sys, first);
    RecordIsKept(render, Apply(render, sys, first).0, steps, KeyOf(first), MarkOf(first).value,
                 Named(Apply(render, sys, first).1).value);
    RecordedIsReplayed(render, Run(render, Apply(render, sys, first).0, steps), retry, MarkOf(first).value,
                       Named(Apply(render, sys, first).1).value);
  }

  lemma RecordIsKept(render: Renderer, sys: System, steps: seq<Step>, k: RecordKey, mark: Fingerprint, id: Id)
    requires Safe(render, sys) && Recorded(sys.db, k, mark, id)
    requires Run(render, sys, steps).db.now < RememberedUntil(sys.db, k)
    ensures Safe(render, Run(render, sys, steps)) && Recorded(Run(render, sys, steps).db, k, mark, id)
  {
    RunIsSafe(render, sys, steps);
  }

  // ----- where the promise ends -----------------------------------------------------------------------

  lemma FirstUseSetsExpiry(render: Renderer, sys: System, first: Step)
    requires IsKeyed(first) && !LiveRecord(sys.db, KeyOf(first)) && Named(Apply(render, sys, first).1).Some?
    requires RecordsOk(sys.db)
    ensures RememberedUntil(Apply(render, sys, first).0.db, KeyOf(first)) == sys.db.now + RECORD_RETENTION
  {
    hide SnapshotOf, AllReady, PublishedOf;
  }

  /**
   * A key used for the first time, by a request of any of the three kinds, is
   * remembered for 24 hours, in seconds, whatever happens in them.
   */
  lemma FirstUseIsRememberedForADay(render: Renderer, sys: System, first: Step, steps: seq<Step>)
    requires Reachable(render, sys) && IsKeyed(first) && !LiveRecord(sys.db, KeyOf(first))
    requires Named(Apply(render, sys, first).1).Some?
    requires Run(render, Apply(render, sys, first).0, steps).db.now < sys.db.now + 86400
    ensures MarkOf(first).Some?
    ensures Recorded(Run(render, Apply(render, sys, first).0, steps).db, KeyOf(first), MarkOf(first).value,
                     Named(Apply(render, sys, first).1).value)
  {
    hide Apply;
    ReachableIsSafe(render, sys);
    FirstUseSetsExpiry(render, sys, first);
    SuccessIsRecorded(render, sys, first);
    StepIsSafe(render, sys, first);
    RecordIsKept(render, Apply(render, sys, first).0, steps, KeyOf(first), MarkOf(first).value,
                 Named(Apply(render, sys, first).1).value);
  }

  /** No row has the ids the request would give its new rows. */
  predicate BringsFreshIds(s: State, step: Step)
    requires IsKeyed(step)
  {
    match step
    case CreateTicket(_, _, _, _, id, _, _) => id !in s.tickets
    case StartUpload(_, _, _, _, id, _, _) => id !in s.files && id !in s.uploads
    case RequestExport(_, _, _, _, _, id, job, _) => id !in s.exports && job !in s.jobs
  }

  /** The same request once more, with new ids for its new rows. */
  function Resubmitted(first: Step, id: Id, job: Id): Step
    requires IsKeyed(first)
  {
    match first
    case CreateTicket(actor, title, description, key, _, stamp, purge) =>
      CreateTicket(actor, title, description, key, id, stamp, purge)
    case StartUpload(actor, t, input, key, _, lifetime, purge) => StartUpload(actor, t, input, key, id, lifetime, purge)
    case RequestExport(actor, session, t, spelling, key, _, _, purge) =>
      RequestExport(actor, session, t, spelling, key, id, job, purge)
  }

  /** The ticket's limits leave room for two more rows of the request's kind. */
  predicate HasRoomForTwo(s: State, step: Step)
    requires IsKeyed(step)
  {
    match step
    case CreateTicket(_, _, _, _, _, _, _) => true
    case StartUpload(_, t, _, _, _, _, _) => |UploadsOf(s.uploads, t)| + 1 < MAX_ASSOCIATIONS
    case RequestExport(_, _, t, _, _, _, _, _) => |LiveExportsOf(s.exports, t)| + 1 < MAX_LIVE_EXPORTS
  }

  /**
   * After those 24 hours the same request is a new one: resubmitted at the
   * record's expiry or later, with nothing else changed, it creates a second
   * ticket, upload or export, unless that would exceed the ticket's limit.
   */
  lemma ExpiredKeyCreatesAgain(render: Renderer, sys: System, first: Step, later: int, id: Id, job: Id)
    requires Reachable(render, sys) && IsKeyed(first) && BringsFreshIds(sys.db, first)
    requires Named(Apply(render, sys, first).1) == Some(first.id)
    requires sys.db.now + 86400 <= later
    requires BringsFreshIds(sys.db, Resubmitted(first, id, job))
    requires id != first.id && (first.RequestExport? ==> job != first.job)
    ensures Named(Apply(render, Run(render, sys, [first, Tick(later)]), Resubmitted(first, id, job)).1)
         == if HasRoomForTwo(sys.db, first) then Some(id) else None
  {
    hide Apply;
    ReachableIsSafe(render, sys);
    RunTwo(render, sys, first, Tick(later));
    if first.CreateTicket? {
      TicketIsCreatedAgain(render, sys, first, later, id);
    } else if first.StartUpload? {
      UploadIsStartedAgain(render, sys, first, later, id);
    } else {
      ExportIsRequestedAgain(render, sys, first, later, id, job);
    }
  }

  /** Such requests exist: in an empty database, one request sent again a day later creates tickets 1 and 2. */
  lemma SameRequestADayLater(render: Renderer, sys: System)
    requires Initial(sys) && sys.db.now == 0 && sys.db.members == map[7 := Member]
    ensures var first := CreateTicket(7, "title", "", "key", 1, 0, {});
            && Named(Apply(render, sys, first).1) == Some(1)
            && var later := Run(render, sys, [first, Tick(86400)]);
            Named(Apply(render, later, Resubmitted(first, 2, 0)).1) == Some(2)
  {
    hide Apply;
    var first := CreateTicket(7, "title", "", "key", 1, 0, {});
    assert Reachable(render, sys) by {
      assert Run(render, sys, []) == sys;
    }
    TitleIsAccepted();
    CreateApplies(render, sys, first);
    FreshCreateSucceeds(sys.db, 7, New("title", "").value, "key", 1, 0, {});
    ExpiredKeyCreatesAgain(render, sys, first, 86400, 2, 0);
  }

  lemma TitleIsAccepted()
    ensures New("title", "").Some?
  {
  }

  /**
   * Such spellings exist: in an empty database, one key under the spellings "0a"
   * and "0A" of the path of ticket 1 names exports 1 and 2.
   */
  lemma OtherSpellingNamesAnotherExport(render: Renderer, sys: System)
    requires Initial(sys) && sys.db.now == 0 && sys.db.members == map[7 := Member] && sys.db.sessions == map[9 := 7]
    requires forall x: Snapshot :: x.attachments == [] ==> render(x).Some?
    ensures var ticket := Apply(render, sys, CreateTicket(7, "title", "", "key", 1, 0, {}));
            var first := Apply(render, ticket.0, RequestExport(7, 9, 1, "0a", "key", 1, 1, {}));
            var second := Apply(render, first.0, RequestExport(7, 9, 1, "0A", "key", 2, 2, {}));
            Named(ticket.1) == Some(1) && Named(first.1) == Some(1) && Named(second.1) == Some(2)
  {
    hide Apply, New, Create, CreateExport;
    var create := CreateTicket(7, "title", "", "key", 1, 0, {});
    TitleIsAccepted();
    CreateApplies(render, sys, create);
    var content := New("title", "").value;
    FreshCreateSucceeds(sys.db, 7, content, "key", 1, 0, {});
    OnlyTicketIsCreated(sys.db, 7, content, "key", 1, 0, {});
    var next := Apply(render, sys, create).0;
    var first := RequestExport(7, 9, 1, "0a", "key", 1, 1, {});
    RequestApplies(render, next, first);
    BareTicketIsExported(render, next.db, 7, 9, 1, "0a", "key", 1, 1);
    RequestApplies(render, Apply(render, next, first).0, RequestExport(7, 9, 1, "0A", "key", 2, 2, {}));
    AnotherSpellingRequestsAgain(render, next, 7, 9, 1, "key", "0a", 1, 1, "0A", 2, 2, {});
  }

  lemma OnlyTicketIsCreated(s: State, actor: Id, content: Content, key: string, id: Id, stamp: int,
                            purge: set<RecordKey>)
    requires Create(s, actor, content, key, id, stamp, purge).1.Ok? && s.tickets == map[] && s.records == map[]
    ensures var after := Create(s, actor, content, key, id, stamp, purge).0;
            && after.tickets == map[id := TicketRow(NewTicket(actor, content, id, stamp), false)]
            && after == s.(tickets := after.tickets, records := after.records, audit := after.audit)
            && forall k :: k in after.records ==> k.scope.TicketScope?
  {
  }

  lemma BareTicketIsExported(render: Renderer, s: State, actor: Id, session: Id, t: Id, spelling: string, key: string,
                             e: Id, job: Id)
    requires ValidKey(key) && AccessRefusal(s, actor, t).None? && Current(s, actor, session)
    requires s.uploads == map[] && s.exports == map[] && s.jobs == map[]
    requires forall x: Snapshot :: x.attachments == [] ==> render(x).Some?
    requires RecordKey(actor, ExportScope(t, spelling), key) !in s.records
    ensures CreateExport(render, s, actor, session, t, spelling, key, e, job, {}).1 == Ok(e)
    ensures |LiveExportsOf(s.exports, t)| == 0
  {
    assert LiveExportsOf(s.exports, t) == {} && PublishedOf(s.uploads, t) == {};
    assert Sorted({}) == [] && ReadyAmong(s.files, []) == {};
    assert SnapshotOf(s, t).attachments == [];
  }

  // ----- what the steps do --------------------------------------------------------------------------

  lemma TickApplies(render: Renderer, sys: System, later: int)
    requires sys.db.now <= later
    ensures Apply(render, sys, Tick(later)).0.db == sys.db.(now := later)
  {
  }

  lemma CreateApplies(render: Renderer, sys: System, step: Step)
    requires step.CreateTicket?
    ensures var content := New(step.title, step.description);
            if content.None? then Named(Apply(render, sys, step).1).None?
            else
              var (after, answer) := Create(sys.db, step.actor, content.value, step.key, step.id, step.stamp,
                                            step.purge);
              Apply(render, sys, step).0.db == after
              && Named(Apply(render, sys, step).1) == if answer.Ok? then Some(answer.value.id) else None
  {
    hide Create, New;
  }

  lemma StartApplies(render: Renderer, sys: System, step: Step)
    requires step.StartUpload?
    ensures var (after, answer) := RegisterUpload(sys.db, step.actor, step.ticket, step.input, step.key, step.id,
                                                  step.lifetime, step.purge);
            Apply(render, sys, step).0.db == after
            && Named(Apply(render, sys, step).1) == if answer.Ok? then Some(answer.value) else None
  {
    hide RegisterUpload;
  }

  lemma RequestApplies(render: Renderer, sys: System, step: Step)
    requires step.RequestExport?
    ensures var (after, answer) := CreateExport(render, sys.db, step.actor, step.session, step.ticket, step.spelling,
                                                step.key, step.id, step.job, step.purge);
            Apply(render, sys, step).0.db == after
            && Named(Apply(render, sys, step).1) == if answer.Ok? then Some(answer.value) else None
  {
    hide CreateExport;
  }

  // ----- a second ticket ------------------------------------------------------------------------------

  lemma CreateInserts(s: State, actor: Id, content: Content, key: string, id: Id, stamp: int, purge: set<RecordKey>)
    requires RecordsOk(s) && TicketsOk(s.tickets, s.audit) && id !in s.tickets
    requires Create(s, actor, content, key, id, stamp, purge).1.Ok?
    requires Create(s, actor, content, key, id, stamp, purge).1.value.id == id
    ensures var after := Create(s, actor, content, key, id, stamp, purge).0;
            && ValidKey(key) && actor in after.members && after.tickets.Keys == s.tickets.Keys + {id}
            && after.now == s.now
            && RememberedUntil(after, RecordKey(actor, TicketScope, key)) == s.now + RECORD_RETENTION
  {
  }

  lemma FreshCreateSucceeds(s: State, actor: Id, content: Content, key: string, id: Id, stamp: int,
                            purge: set<RecordKey>)
    requires ValidKey(key) && actor in s.members && id !in s.tickets
    requires !LiveRecord(s, RecordKey(actor, TicketScope, key))
    ensures Create(s, actor, content, key, id, stamp, purge).1 == Ok(NewTicket(actor, content, id, stamp))
  {
  }

  lemma TicketIsCreatedAgain(render: Renderer, sys: System, first: Step, later: int, id: Id)
    requires Safe(render, sys) && first.CreateTicket? && first.id !in sys.db.tickets
    requires Named(Apply(render, sys, first).1) == Some(first.id)
    requires sys.db.now + RECORD_RETENTION <= later && id !in sys.db.tickets && id != first.id
    ensures var next := Apply(render, Apply(render, sys, first).0, Tick(later)).0;
            Named(Apply(render, next, Resubmitted(first, id, 0)).1) == Some(id)
  {
    hide Apply, Create;
    var next := Apply(render, Apply(render, sys, first).0, Tick(later)).0;
    CreateApplies(render, sys, first);
    CreateApplies(render, next, Resubmitted(first, id, 0));
    var content := New(first.title, first.description).value;
    CreateInserts(sys.db, first.actor, content, first.key, first.id, first.stamp, first.purge);
    var after := Create(sys.db, first.actor, content, first.key, first.id, first.stamp, first.purge).0;
    TickApplies(render, Apply(render, sys, first).0, later);
    FreshCreateSucceeds(after.(now := later), first.actor, content, first.key, id, first.stamp, first.purge);
  }

  // ----- a second upload ------------------------------------------------------------------------------

  lemma RegistersAgain(s: State, actor: Id, t: Id, input: UploadInput, key: string, id: Id, lifetime: nat,
                       purge: set<RecordKey>, later: int, other: Id)
    requires RecordsOk(s) && id !in s.uploads
    requires RegisterUpload(s, actor, t, input, key, id, lifetime, purge).1 == Ok(id)
    requires s.now + RECORD_RETENTION <= later && other !in s.files && other !in s.uploads && other != id
    ensures RegisterUpload(s, actor, t, input, key, id, lifetime, purge).0.now == s.now
    ensures var after := RegisterUpload(s, actor, t, input, key, id, lifetime, purge).0.(now := later);
            RegisterUpload(after, actor, t, input, key, other, lifetime, purge).1
            == if |UploadsOf(s.uploads, t)| + 1 < MAX_ASSOCIATIONS then Ok(other) else Err(AttachmentLimit)
  {
    hide ValidInput, NewFile;
    UploadsAfterInsert(s.uploads, id, UploadRow(t, false), t);
  }

  lemma UploadIsStartedAgain(render: Renderer, sys: System, first: Step, later: int, id: Id)
    requires Safe(render, sys) && first.StartUpload? && BringsFreshIds(sys.db, first)
    requires Named(Apply(render, sys, first).1) == Some(first.id)
    requires sys.db.now + RECORD_RETENTION <= later
    requires BringsFreshIds(sys.db, Resubmitted(first, id, 0)) && id != first.id
    ensures var next := Apply(render, Apply(render, sys, first).0, Tick(later)).0;
            Named(Apply(render, next, Resubmitted(first, id, 0)).1)
            == if HasRoomForTwo(sys.db, first) then Some(id) else None
  {
    hide Apply, RegisterUpload;
    var next := Apply(render, Apply(render, sys, first).0, Tick(later)).0;
    StartApplies(render, sys, first);
    StartApplies(render, next, Resubmitted(first, id, 0));
    RegistersAgain(sys.db, first.actor, first.ticket, first.input, first.key, first.id, first.lifetime, first.purge,
                   later, id);
    TickApplies(render, Apply(render, sys, first).0, later);
  }

  // ----- a second export ------------------------------------------------------------------------------

  /**
   * Two spellings of one ticket's id are two requests, even under one key: the
   * second creates another export, as long as the ticket's limit leaves room.
   */
  lemma AnotherSpellingRequestsAgain(render: Renderer, sys: System, actor: Id, session: Id, t: Id, key: string,
                                     spelling: string, e: Id, job: Id,
                                     otherSpelling: string, otherId: Id, otherJob: Id, purge: set<RecordKey>)
    requires CreateExport(render, sys.db, actor, session, t, spelling, key, e, job, purge).1 == Ok(e)
    requires e !in sys.db.exports
    requires otherSpelling != spelling && !LiveRecord(sys.db, RecordKey(actor, ExportScope(t, otherSpelling), key))
    requires otherId !in sys.db.exports && otherId != e && otherJob !in sys.db.jobs && otherJob != job
    ensures var after := CreateExport(render, sys.db, actor, session, t, spelling, key, e, job, purge).0;
            var answer := CreateExport(render, after, actor, session, t, otherSpelling, key, otherId, otherJob,
                                       purge).1;
            if |LiveExportsOf(sys.db.exports, t)| + 1 < MAX_LIVE_EXPORTS then answer == Ok(otherId) else answer.Err?
  {
    hide CreateExport, SnapshotOf, AllReady, PublishedOf, LiveExportsOf;
    var after := CreateExport(render, sys.db, actor, session, t, spelling, key, e, job, purge).0;
    RequestWasAcceptable(render, sys.db, actor, session, t, spelling, key, e, job, purge);
    RequestInserts(render, sys.db, actor, session, t, spelling, key, e, job, purge);
    RequestTouchesOneRecord(render, sys.db, actor, session, t, spelling, key, e, job, purge);
    LiveExportsAfterInsert(sys.db.exports, e, after.exports[e], t);
    NotYetLive(sys.db.exports, e, t);
    if |LiveExportsOf(sys.db.exports, t)| + 1 < MAX_LIVE_EXPORTS {
      FreshRequestSucceeds(render, sys.db, after, actor, session, t, otherSpelling, key, otherId, otherJob, purge);
    } else {
      FullTicketRefuses(render, after, actor, session, t, otherSpelling, key, otherId, otherJob, purge);
    }
  }

  lemma RequestInserts(render: Renderer, s: State, actor: Id, session: Id, t: Id, spelling: string, key: string,
                       e: Id, job: Id, purge: set<RecordKey>)
    requires CreateExport(render, s, actor, session, t, spelling, key, e, job, purge).1 == Ok(e) && e !in s.exports
    ensures var after := CreateExport(render, s, actor, session, t, spelling, key, e, job, purge).0;
            && e in after.exports && job in after.jobs && after.exports[e].ticket == t && after.exports[e].Live()
            && after == s.(exports := s.exports[e := after.exports[e]], jobs := s.jobs[job := after.jobs[job]],
                           records := after.records, audit := after.audit)
  {
  }

  lemma RequestTouchesOneRecord(render: Renderer, s: State, actor: Id, session: Id, t: Id, spelling: string,
                                key: string, e: Id, job: Id, purge: set<RecordKey>)
    ensures var after := CreateExport(render, s, actor, session, t, spelling, key, e, job, purge).0;
            forall x :: x != RecordKey(actor, ExportScope(t, spelling), key) && LiveRecord(after, x) ==>
              LiveRecord(s, x)
  {
  }

  lemma RequestWasAcceptable(render: Renderer, s: State, actor: Id, session: Id, t: Id, spelling: string, key: string,
                             e: Id, job: Id, purge: set<RecordKey>)
    requires CreateExport(render, s, actor, session, t, spelling, key, e, job, purge).1 == Ok(e) && e !in s.exports
    ensures ValidKey(key) && AccessRefusal(s, actor, t).None? && Current(s, actor, session)
    ensures |PublishedOf(s.uploads, t)| <= MAX_EXPORT_ATTACHMENTS
    ensures AllReady(s.files, Sorted(PublishedOf(s.uploads, t)))
    ensures render(SnapshotOf(s, t)).Some?
  {
  }

  lemma SameRowsSameSnapshot(s: State, after: State, t: Id)
    requires after.tickets == s.tickets && after.uploads == s.uploads && after.files == s.files && t in s.tickets
    ensures SnapshotOf(after, t) == SnapshotOf(s, t)
    ensures forall ids :: AllReady(after.files, ids) == AllReady(s.files, ids)
  {
    forall ids ensures ReadyAmong(after.files, ids) == ReadyAmong(s.files, ids) {
    }
    var ids := Sorted(PublishedOf(s.uploads, t));
    assert Snapshots(after.files, ids) == Snapshots(s.files, ids);
  }

  lemma FreshRequestSucceeds(render: Renderer, s: State, after: State, actor: Id, session: Id, t: Id, spelling: string,
                             key: string, e: Id, job: Id, purge: set<RecordKey>)
    requires ValidKey(key) && AccessRefusal(s, actor, t).None? && Current(s, actor, session)
    requires |PublishedOf(s.uploads, t)| <= MAX_EXPORT_ATTACHMENTS
    requires AllReady(s.files, Sorted(PublishedOf(s.uploads, t)))
    requires render(SnapshotOf(s, t)).Some?
    requires after.members == s.members && after.sessions == s.sessions && after.tickets == s.tickets
    requires after.uploads == s.uploads && after.files == s.files
    requires |LiveExportsOf(after.exports, t)| < MAX_LIVE_EXPORTS && e !in after.exports && job !in after.jobs
    requires !LiveRecord(after, RecordKey(actor, ExportScope(t, spelling), key))
    ensures CreateExport(render, after, actor, session, t, spelling, key, e, job, purge).1 == Ok(e)
  {
    SameRowsSameSnapshot(s, after, t);
  }

  lemma FullTicketRefuses(render: Renderer, s: State, actor: Id, session: Id, t: Id, spelling: string, key: string,
                          e: Id, job: Id, purge: set<RecordKey>)
    requires ValidKey(key) && !LiveRecord(s, RecordKey(actor, ExportScope(t, spelling), key))
    requires |LiveExportsOf(s.exports, t)| >= MAX_LIVE_EXPORTS
    ensures CreateExport(render, s, actor, session, t, spelling, key, e, job, purge).1.Err?
  {
  }

  lemma RequestExpires(render: Renderer, s: State, actor: Id, session: Id, t: Id, spelling: string, key: string,
                       e: Id, job: Id, purge: set<RecordKey>)
    requires RecordsOk(s)
    requires CreateExport(render, s, actor, session, t, spelling, key, e, job, purge).1 == Ok(e) && e !in s.exports
    ensures var after := CreateExport(render, s, actor, session, t, spelling, key, e, job, purge).0;
            var k := RecordKey(actor, ExportScope(t, spelling), key);
            k in after.records && after.records[k].expiresAt == s.now + RECORD_RETENTION
  {
    hide SnapshotOf, AllReady, PublishedOf;
  }

  lemma RequestsAgain(render: Renderer, s: State, actor: Id, session: Id, t: Id, spelling: string, key: string,
                      e: Id, job: Id, purge: set<RecordKey>, later: int, other: Id, otherJob: Id)
    requires RecordsOk(s)
    requires CreateExport(render, s, actor, session, t, spelling, key, e, job, purge).1 == Ok(e) && e !in s.exports
    requires s.now + RECORD_RETENTION <= later
    requires other !in s.exports && other != e && otherJob !in s.jobs && otherJob != job
    ensures CreateExport(render, s, actor, session, t, spelling, key, e, job, purge).0.now == s.now
    ensures var after := CreateExport(render, s, actor, session, t, spelling, key, e, job, purge).0.(now := later);
            var answer := CreateExport(render, after, actor, session, t, spelling, key, other, otherJob, purge).1;
            if |LiveExportsOf(s.exports, t)| + 1 < MAX_LIVE_EXPORTS then answer == Ok(other) else answer.Err?
  {
    hide CreateExport, SnapshotOf, AllReady, PublishedOf, LiveExportsOf;
    var next := CreateExport(render, s, actor, session, t, spelling, key, e, job, purge).0;
    var after := next.(now := later);
    RequestWasAcceptable(render, s, actor, session, t, spelling, key, e, job, purge);
    RequestInserts(render, s, actor, session, t, spelling, key, e, job, purge);
    RequestExpires(render, s, actor, session, t, spelling, key, e, job, purge);
    LiveExportsAfterInsert(s.exports, e, next.exports[e], t);
    NotYetLive(s.exports, e, t);
    if |LiveExportsOf(s.exports, t)| + 1 < MAX_LIVE_EXPORTS {
      FreshRequestSucceeds(render, s, after, actor, session, t, spelling, key, other, otherJob, purge);
    } else {
      FullTicketRefuses(render, after, actor, session, t, spelling, key, other, otherJob, purge);
    }
  }

  lemma NotYetLive(exports: map<Id, ExportRow>, e: Id, t: Id)
    requires e !in exports
    ensures |LiveExportsOf(exports, t) + {e}| == |LiveExportsOf(exports, t)| + 1
  {
  }

  lemma ExportIsRequestedAgain(render: Renderer, sys: System, first: Step, later: int, id: Id, job: Id)
    requires Safe(render, sys) && first.RequestExport? && BringsFreshIds(sys.db, first)
    requires Named(Apply(render, sys, first).1) == Some(first.id)
    requires sys.db.now + RECORD_RETENTION <= later && BringsFreshIds(sys.db, Resubmitted(first, id, job))
    requires id != first.id && job != first.job
    ensures var next := Apply(render, Apply(render, sys, first).0, Tick(later)).0;
            Named(Apply(render, next, Resubmitted(first, id, job)).1)
            == if HasRoomForTwo(sys.db, first) then Some(id) else None
  {
    hide Apply, CreateExport;
    var next := Apply(render, Apply(render, sys, first).0, Tick(later)).0;
    RequestApplies(render, sys, first);
    RequestApplies(render, next, Resubmitted(first, id, job));
    RequestsAgain(render, sys.db, first.actor, first.session, first.ticket, first.spelling, first.key, first.id,
                  first.job, first.purge, later, id, job);
    TickApplies(render, Apply(render, sys, first).0, later);
  }
}
