/** Capacity, versions, jobs, audit events and idempotency records: what every transaction keeps of them. */
module TicketLedger {
  import opened Basics
  import opened TicketDomain
  import opened TicketModel
  import opened TicketTransactions

  // ----- audit -----------------------------------------------------------------------

  function Count(audit: seq<Event>, action: Action, resource: Id): nat {
    if audit == [] then 0
    else
      var last := audit[|audit| - 1];
      Count(audit[..|audit| - 1], action, resource)
      + (if last.action == action && last.resource == resource then 1 else 0)
  }

  lemma CountAppend(audit: seq<Event>, event: Event)
    ensures forall action, resource ::
              Count(audit + [event], action, resource)
              == Count(audit, action, resource)
                 + (if event.action == action && event.resource == resource then 1 else 0)
  {
    assert (audit + [event])[..|audit|] == audit;
  }

  // ----- the invariants -----------------------------------------------------------------

  /** At most 50 associations and 50 live exports on any ticket. */
  ghost predicate CapacityOk(s: State) {
    forall t :: |UploadsOf(s.uploads, t)| <= MAX_ASSOCIATIONS && |LiveExportsOf(s.exports, t)| <= MAX_LIVE_EXPORTS
  }

  /** A ticket's version is 1 plus its committed updates and deletions, and its text fits the columns. */
  ghost predicate TicketsOk(tickets: map<Id, TicketRow>, audit: seq<Event>) {
    forall t ::
      if t in tickets then
        && tickets[t].ticket.id == t
        && tickets[t].ticket.version == 1 + Count(audit, TicketUpdated, t) + Count(audit, TicketDeleted, t)
        && tickets[t].ticket.version <= MAX_VERSION
        && Fits(tickets[t].ticket.title, tickets[t].ticket.description)
      else Count(audit, TicketUpdated, t) == 0 && Count(audit, TicketDeleted, t) == 0
  }

  /** Export rows and export jobs belong to each other. */
  ghost predicate JobsPaired(exports: map<Id, ExportRow>, jobs: map<Id, Job>) {
    && (forall e :: e in exports ==> exports[e].job in jobs && jobs[exports[e].job].exportId == e)
    && (forall j :: j in jobs ==> jobs[j].exportId in exports && exports[jobs[j].exportId].job == j)
  }

  predicate Pending(row: ExportRow) {
    row.snapshot.Some? && row.file.None?
  }

  /** A published export's job has succeeded, a pending export's has not. */
  ghost predicate OutcomesOk(exports: map<Id, ExportRow>, jobs: map<Id, Job>) {
    forall e :: e in exports && exports[e].job in jobs ==>
      && (exports[e].file.Some? ==> jobs[exports[e].job].status.Succeeded?)
      && (Pending(exports[e]) ==> !jobs[exports[e].job].status.Succeeded?)
  }

  /** One completion event exactly for the exports whose job succeeded. */
  ghost predicate CompletionsOk(exports: map<Id, ExportRow>, jobs: map<Id, Job>, audit: seq<Event>) {
    forall e :: Count(audit, ExportCompleted, e)
      == if e in exports && exports[e].job in jobs && jobs[exports[e].job].status.Succeeded? then 1 else 0
  }

  ghost predicate JobsOk(s: State) {
    JobsPaired(s.exports, s.jobs) && OutcomesOk(s.exports, s.jobs) && CompletionsOk(s.exports, s.jobs, s.audit)
  }

  /** Every stored snapshot is of its row's ticket and renders within the limits. */
  ghost predicate SnapshotsOk(render: Renderer, exports: map<Id, ExportRow>) {
    forall e :: e in exports && exports[e].snapshot.Some? ==>
      && exports[e].snapshot.value.ticket.id == exports[e].ticket
      && render(exports[e].snapshot.value).Some?
  }

  /** A committed record carries a response of its scope's kind, naming a row of its actor's. */
  ghost predicate RecordOk(s: State, k: RecordKey, r: Record) {
    r.response.Some? &&
    match k.scope
    case TicketScope =>
      r.response.value.SavedTicket? && r.response.value.id in s.tickets
      && s.tickets[r.response.value.id].ticket.createdBy == k.actor
    case UploadScope(t) => r.response.value.SavedUpload? && r.response.value.id in s.files
    case ExportScope(t, _) =>
      r.response.value.SavedExport? && r.response.value.id in s.exports
      && s.exports[r.response.value.id].ticket == t && s.exports[r.response.value.id].requestedBy == k.actor
  }

  ghost predicate RecordsOk(s: State) {
    forall k :: k in s.records ==> RecordOk(s, k, s.records[k])
  }

  // ----- how each may move ----------------------------------------------------------------

  lemma FewerKeepCapacity(s: State, after: State)
    requires CapacityOk(s)
    requires forall f :: f in after.uploads ==> f in s.uploads && after.uploads[f].ticket == s.uploads[f].ticket
    requires forall e :: e in after.exports ==>
      e in s.exports && after.exports[e].ticket == s.exports[e].ticket
      && (after.exports[e].Live() ==> s.exports[e].Live())
    ensures CapacityOk(after)
  {
    forall t
      ensures |UploadsOf(after.uploads, t)| <= MAX_ASSOCIATIONS && |LiveExportsOf(after.exports, t)| <= MAX_LIVE_EXPORTS
    {
      SubsetSize(UploadsOf(after.uploads, t), UploadsOf(s.uploads, t));
      SubsetSize(LiveExportsOf(after.exports, t), LiveExportsOf(s.exports, t));
    }
  }

  lemma UploadsAfterInsert(uploads: map<Id, UploadRow>, f: Id, row: UploadRow, t: Id)
    requires f !in uploads
    ensures UploadsOf(uploads[f := row], t) == UploadsOf(uploads, t) + if t == row.ticket then {f} else {}
  {
  }

  lemma OneUploadKeepsCapacity(s: State, f: Id, row: UploadRow, after: State)
    requires CapacityOk(s) && after.exports == s.exports
    requires f !in s.uploads && after.uploads == s.uploads[f := row]
    requires |UploadsOf(s.uploads, row.ticket)| < MAX_ASSOCIATIONS
    ensures CapacityOk(after)
  {
    forall t ensures |UploadsOf(after.uploads, t)| <= MAX_ASSOCIATIONS {
      UploadsAfterInsert(s.uploads, f, row, t);
    }
  }

  lemma LiveExportsAfterInsert(exports: map<Id, ExportRow>, e: Id, row: ExportRow, t: Id)
    requires e !in exports
    ensures LiveExportsOf(exports[e := row], t)
         == LiveExportsOf(exports, t) + if t == row.ticket && row.Live() then {e} else {}
  {
  }

  lemma OneExportKeepsCapacity(s: State, e: Id, row: ExportRow, after: State)
    requires CapacityOk(s) && after.uploads == s.uploads
    requires e !in s.exports && after.exports == s.exports[e := row]
    requires |LiveExportsOf(s.exports, row.ticket)| < MAX_LIVE_EXPORTS
    ensures CapacityOk(after)
  {
    forall t ensures |LiveExportsOf(after.exports, t)| <= MAX_LIVE_EXPORTS {
      LiveExportsAfterInsert(s.exports, e, row, t);
    }
  }

  /** Exports keep their identity and only lose data; no job changes hands, and no completion is recorded. */
  ghost predicate ExportsOnlyClear(s: State, after: State) {
    && after.exports.Keys == s.exports.Keys
    && (forall e :: e in s.exports ==> after.exports[e] == s.exports[e] || after.exports[e] == Cleared(s.exports[e]))
    && after.jobs == s.jobs
    && forall e :: Count(after.audit, ExportCompleted, e) == Count(s.audit, ExportCompleted, e)
  }

  lemma ClearingKeepsJobs(s: State, after: State)
    requires JobsOk(s) && ExportsOnlyClear(s, after)
    ensures JobsOk(after)
  {
  }

  lemma ClearingKeepsSnapshots(render: Renderer, s: State, after: State)
    requires SnapshotsOk(render, s.exports)
    requires after.exports.Keys == s.exports.Keys
    requires forall e :: e in s.exports ==>
      after.exports[e] == s.exports[e] || after.exports[e] == Cleared(s.exports[e])
    ensures SnapshotsOk(render, after.exports)
  {
  }

  lemma NewExportKeepsJobs(s: State, e: Id, row: ExportRow, after: State)
    requires JobsOk(s)
    requires e !in s.exports && row.job !in s.jobs && Pending(row)
    requires after.exports == s.exports[e := row]
    requires after.jobs == s.jobs[row.job := Job(e, Queued, 0, 0, 0, 3)]
    requires forall x :: Count(after.audit, ExportCompleted, x) == Count(s.audit, ExportCompleted, x)
    ensures JobsOk(after)
  {
    assert JobsPaired(after.exports, after.jobs);
    assert OutcomesOk(after.exports, after.jobs);
    NewExportKeepsCompletions(s, e, row, after);
  }

  lemma NewExportKeepsCompletions(s: State, e: Id, row: ExportRow, after: State)
    requires JobsPaired(s.exports, s.jobs) && CompletionsOk(s.exports, s.jobs, s.audit)
    requires e !in s.exports && row.job !in s.jobs
    requires after.exports == s.exports[e := row]
    requires after.jobs == s.jobs[row.job := Job(e, Queued, 0, 0, 0, 3)]
    requires forall x :: Count(after.audit, ExportCompleted, x) == Count(s.audit, ExportCompleted, x)
    ensures CompletionsOk(after.exports, after.jobs, after.audit)
  {
  }

  lemma PublishingKeepsJobs(s: State, e: Id, f: Id, j: Id, after: State)
    requires JobsOk(s)
    requires e in s.exports && s.exports[e].job == j && Pending(s.exports[e])
    requires after.exports == s.exports[e := s.exports[e].(file := Some(f))]
    requires after.jobs == s.jobs[j := s.jobs[j].(status := Succeeded)]
    requires forall x ::
      Count(after.audit, ExportCompleted, x) == Count(s.audit, ExportCompleted, x) + if x == e then 1 else 0
    ensures JobsOk(after)
  {
    assert j in s.jobs && s.jobs[j].exportId == e;
  }

  /** Any other job transition leaves unfinished work unfinished. */
  lemma JobStepKeepsJobs(s: State, j: Id, job: Job, after: State)
    requires JobsOk(s)
    requires j in s.jobs && !s.jobs[j].status.Succeeded? && !job.status.Succeeded?
    requires job.exportId == s.jobs[j].exportId
    requires after == s.(jobs := s.jobs[j := job])
    ensures JobsOk(after)
  {
  }

  /** Rows that records name are never lost, and records are kept, dropped or completed. */
  lemma RowsKeepRecords(s: State, after: State)
    requires RecordsOk(s)
    requires forall k :: k in after.records ==> k in s.records && after.records[k] == s.records[k]
    requires forall t :: t in s.tickets ==>
      t in after.tickets && after.tickets[t].ticket.createdBy == s.tickets[t].ticket.createdBy
    requires forall f :: f in s.files ==> f in after.files
    requires forall e :: e in s.exports ==>
      e in after.exports && after.exports[e].ticket == s.exports[e].ticket
      && after.exports[e].requestedBy == s.exports[e].requestedBy
    ensures RecordsOk(after)
  {
  }

  lemma NewRecordKeepsRecords(s: State, k: RecordKey, after: State)
    requires RecordsOk(s)
    requires k in after.records && RecordOk(after, k, after.records[k])
    requires forall x :: x in after.records && x != k ==> x in s.records && after.records[x] == s.records[x]
    requires forall t :: t in s.tickets ==>
      t in after.tickets && after.tickets[t].ticket.createdBy == s.tickets[t].ticket.createdBy
    requires forall f :: f in s.files ==> f in after.files
    requires forall e :: e in s.exports ==>
      e in after.exports && after.exports[e].ticket == s.exports[e].ticket
      && after.exports[e].requestedBy == s.exports[e].requestedBy
    ensures RecordsOk(after)
  {
  }

  // ----- the transactions ----------------------------------------------------------------

  ghost predicate Ledger(render: Renderer, s: State) {
    CapacityOk(s) && TicketsOk(s.tickets, s.audit) && JobsOk(s) && SnapshotsOk(render, s.exports) && RecordsOk(s)
  }

  /** Tables a transaction of another kind leaves alone. */
  ghost predicate SameRows(s: State, after: State) {
    && after.tickets == s.tickets && after.uploads == s.uploads && after.exports == s.exports
    && after.jobs == s.jobs && after.audit == s.audit && after.records == s.records
    && forall f :: f in s.files ==> f in after.files
  }

  lemma SameRowsKeepLedger(render: Renderer, s: State, after: State)
    requires Ledger(render, s) && SameRows(s, after)
    ensures Ledger(render, after)
  {
    assert ExportsOnlyClear(s, after);
    RowsKeepRecords(s, after);
  }

  /** Rows are dropped or cleared, nothing is added but audit events of other kinds. */
  ghost predicate OnlyClears(s: State, after: State) {
    && ExportsOnlyClear(s, after)
    && (forall f :: f in after.uploads ==> f in s.uploads && after.uploads[f].ticket == s.uploads[f].ticket)
    && after.records == s.records
    && (forall f :: f in s.files ==> f in after.files)
    && (forall t :: t in s.tickets ==>
          t in after.tickets && after.tickets[t].ticket.createdBy == s.tickets[t].ticket.createdBy)
  }

  lemma OnlyClearsKeepsLedger(render: Renderer, s: State, after: State)
    requires Ledger(render, s) && OnlyClears(s, after) && TicketsOk(after.tickets, after.audit)
    ensures Ledger(render, after)
  {
    FewerKeepCapacity(s, after);
    ClearingKeepsJobs(s, after);
    ClearingKeepsSnapshots(render, s, after);
    RowsKeepRecords(s, after);
  }

  /** An event that is neither an update nor a deletion of a ticket. */
  lemma EventKeepsTickets(tickets: map<Id, TicketRow>, audit: seq<Event>, event: Event)
    requires TicketsOk(tickets, audit) && !event.action.TicketUpdated? && !event.action.TicketDeleted?
    ensures TicketsOk(tickets, audit + [event])
  {
    CountAppend(audit, event);
  }

  lemma NewTicketKeepsTickets(tickets: map<Id, TicketRow>, audit: seq<Event>, id: Id, row: TicketRow, event: Event)
    requires TicketsOk(tickets, audit) && event.action.TicketCreated?
    requires id !in tickets && row.ticket.id == id && row.ticket.version == 1
    requires Fits(row.ticket.title, row.ticket.description)
    ensures TicketsOk(tickets[id := row], audit + [event])
  {
    CountAppend(audit, event);
  }

  lemma EditKeepsTickets(tickets: map<Id, TicketRow>, audit: seq<Event>, t: Id, row: TicketRow, event: Event)
    requires TicketsOk(tickets, audit) && (event.action.TicketUpdated? || event.action.TicketDeleted?)
    requires t in tickets && event.resource == t
    requires row.ticket.id == t && row.ticket.version == tickets[t].ticket.version + 1 <= MAX_VERSION
    requires Fits(row.ticket.title, row.ticket.description)
    ensures TicketsOk(tickets[t := row], audit + [event])
  {
    CountAppend(audit, event);
  }

  lemma CreateKeepsLedger(render: Renderer, s: State, actor: Id, content: Content, key: string, id: Id, stamp: int,
                          purge: set<RecordKey>)
    requires Ledger(render, s) && Fits(content.title, content.description)
    ensures Ledger(render, Create(s, actor, content, key, id, stamp, purge).0)
  {
    var after := Create(s, actor, content, key, id, stamp, purge).0;
    var k := RecordKey(actor, TicketScope, key);
    var claim := ClaimKey(s, k, OfTicket(content), purge);
    if CreateRefusal(s, actor, k, id, claim).None? {
      if claim.saved.Some? {
        RowsKeepRecords(s, after);
      } else {
        NewTicketKeepsLedger(render, s, actor, k, id, TicketRow(NewTicket(actor, content, id, stamp), false), after);
      }
    }
  }

  lemma NewTicketKeepsLedger(render: Renderer, s: State, actor: Id, k: RecordKey, id: Id, row: TicketRow, after: State)
    requires Ledger(render, s)
    requires id !in s.tickets && row.ticket.id == id && row.ticket.version == 1 && row.ticket.createdBy == actor
    requires Fits(row.ticket.title, row.ticket.description)
    requires after == s.(tickets := s.tickets[id := row], audit := s.audit + [Event(actor, TicketCreated, id)],
                         records := after.records)
    requires k.actor == actor && k.scope.TicketScope?
    requires k in after.records && after.records[k].response == Some(SavedTicket(id))
    requires forall x :: x in after.records && x != k ==> x in s.records && after.records[x] == s.records[x]
    ensures Ledger(render, after)
  {
    var event := Event(actor, TicketCreated, id);
    CountAppend(s.audit, event);
    NewTicketKeepsTickets(s.tickets, s.audit, id, row, event);
    ClearingKeepsJobs(s, after);
    NewRecordKeepsRecords(s, k, after);
  }

  lemma UpdateKeepsLedger(render: Renderer, s: State, actor: Id, t: Id, content: Content, status: Status, version: int,
                          stamp: int)
    requires Ledger(render, s) && Fits(content.title, content.description)
    ensures Ledger(render, Update(s, actor, t, content, status, version, stamp).0)
  {
    var after := Update(s, actor, t, content, status, version, stamp).0;
    if UpdateRefusal(s, actor, t, version).None? {
      var event := Event(actor, TicketUpdated, t);
      CountAppend(s.audit, event);
      EditKeepsTickets(s.tickets, s.audit, t, after.tickets[t], event);
      ClearingKeepsJobs(s, after);
      RowsKeepRecords(s, after);
    }
  }

  lemma RemoveKeepsLedger(render: Renderer, s: State, actor: Id, t: Id, stamp: int)
    requires Ledger(render, s)
    ensures Ledger(render, Remove(s, actor, t, stamp).0)
  {
    var after := Remove(s, actor, t, stamp).0;
    if RemoveRefusal(s, actor, t).None? {
      var event := Event(actor, TicketDeleted, t);
      CountAppend(s.audit, event);
      EditKeepsTickets(s.tickets, s.audit, t, after.tickets[t], event);
      OnlyClearsKeepsLedger(render, s, after);
    }
  }

  lemma RegisterKeepsLedger(render: Renderer, s: State, actor: Id, t: Id, input: UploadInput, key: string, id: Id,
                            lifetime: nat, purge: set<RecordKey>)
    requires Ledger(render, s)
    ensures Ledger(render, RegisterUpload(s, actor, t, input, key, id, lifetime, purge).0)
  {
    var after := RegisterUpload(s, actor, t, input, key, id, lifetime, purge).0;
    var k := RecordKey(actor, UploadScope(t), key);
    var claim := ClaimKey(s, k, OfUpload(input), purge);
    if RegisterRefusal(s, actor, t, input, id, claim).None? {
      if claim.saved.Some? {
        RowsKeepRecords(s, after);
      } else {
        OneUploadKeepsCapacity(s, id, UploadRow(t, false), after);
        NewRecordKeepsRecords(s, k, after);
      }
    }
  }

  lemma FinishedKeepsLedger(render: Renderer, s: State, actor: Id, t: Id, f: Id, c: Id, answer: Publication)
    requires Ledger(render, s) && Associated(s, t, f)
    ensures Ledger(render, Finished(s, actor, t, f, c, answer))
  {
    var after := Finished(s, actor, t, f, c, answer);
    if answer.NewlyAdopted? {
      AdoptedKeepsLedger(render, s, actor, f, after);
    } else {
      SameRowsKeepLedger(render, s, after);
    }
  }

  lemma FinishKeepsLedger(render: Renderer, s: State, actor: Id, session: Id, t: Id, f: Id, c: Id)
    requires Ledger(render, s)
    ensures Ledger(render, PublishUpload(s, actor, session, t, f, c).0)
  {
    var answer := PublicationOf(s, f, c);
    if FinishRefusal(s, actor, session, t, f, answer).None? {
      FinishedKeepsLedger(render, s, actor, t, f, c, answer);
    }
  }

  lemma AdoptedKeepsLedger(render: Renderer, s: State, actor: Id, f: Id, after: State)
    requires Ledger(render, s) && f in s.uploads
    requires after == s.(files := after.files, candidates := after.candidates,
                         uploads := s.uploads[f := s.uploads[f].(published := true)],
                         audit := s.audit + [Event(actor, AttachmentPublished, f)])
    requires forall x :: x in s.files ==> x in after.files
    ensures Ledger(render, after)
  {
    var event := Event(actor, AttachmentPublished, f);
    CountAppend(s.audit, event);
    EventKeepsTickets(s.tickets, s.audit, event);
    OnlyClearsKeepsLedger(render, s, after);
  }

  lemma DetachKeepsLedger(render: Renderer, s: State, actor: Id, t: Id, f: Id)
    requires Ledger(render, s)
    ensures Ledger(render, RemoveAttachment(s, actor, t, f).0)
  {
    var after := RemoveAttachment(s, actor, t, f).0;
    if DetachRefusal(s, actor, t, f).None? {
      var event := Event(actor, AttachmentDeleted, f);
      CountAppend(s.audit, event);
      EventKeepsTickets(s.tickets, s.audit, event);
      OnlyClearsKeepsLedger(render, s, after);
    }
  }

  lemma RequestKeepsLedger(render: Renderer, s: State, actor: Id, session: Id, t: Id, spelling: string, key: string,
                           e: Id, job: Id, purge: set<RecordKey>)
    requires Ledger(render, s)
    ensures Ledger(render, CreateExport(render, s, actor, session, t, spelling, key, e, job, purge).0)
  {
    var after := CreateExport(render, s, actor, session, t, spelling, key, e, job, purge).0;
    var k := RecordKey(actor, ExportScope(t, spelling), key);
    var claim := ClaimKey(s, k, OfNothing, purge);
    if RequestRefusal(render, s, actor, session, t, e, job, claim).None? {
      if claim.saved.Some? {
        RowsKeepRecords(s, after);
      } else {
        NewExportKeepsLedger(render, s, actor, k, e, after.exports[e], after);
      }
    }
  }

  lemma NewExportKeepsSnapshots(render: Renderer, exports: map<Id, ExportRow>, e: Id, row: ExportRow)
    requires SnapshotsOk(render, exports) && row.snapshot.Some?
    requires row.snapshot.value.ticket.id == row.ticket && render(row.snapshot.value).Some?
    ensures SnapshotsOk(render, exports[e := row])
  {
  }

  lemma NewExportKeepsLedger(render: Renderer, s: State, actor: Id, k: RecordKey, e: Id, row: ExportRow, after: State)
    requires Ledger(render, s)
    requires e !in s.exports && row.job !in s.jobs && Pending(row) && row.requestedBy == actor
    requires row.snapshot.value.ticket.id == row.ticket && render(row.snapshot.value).Some?
    requires |LiveExportsOf(s.exports, row.ticket)| < MAX_LIVE_EXPORTS
    requires after == s.(jobs := s.jobs[row.job := Job(e, Queued, 0, 0, 0, 3)], exports := s.exports[e := row],
                         audit := s.audit + [Event(actor, ExportRequested, e)], records := after.records)
    requires k.actor == actor && k.scope.ExportScope? && k.scope.ticket == row.ticket
    requires k in after.records && after.records[k].response == Some(SavedExport(e))
    requires forall x :: x in after.records && x != k ==> x in s.records && after.records[x] == s.records[x]
    ensures Ledger(render, after)
  {
    var event := Event(actor, ExportRequested, e);
    CountAppend(s.audit, event);
    EventKeepsTickets(s.tickets, s.audit, event);
    OneExportKeepsCapacity(s, e, row, after);
    NewExportKeepsJobs(s, e, row, after);
    NewExportKeepsSnapshots(render, s.exports, e, row);
    NewRecordKeepsRecords(s, k, after);
  }

  lemma PublishKeepsLedger(render: Renderer, s: State, lease: Lease, work: Work, f: Id, c: Id)
    requires Ledger(render, s)
    ensures Ledger(render, PublishWork(s, lease, work, f, c))
  {
    var after := PublishWork(s, lease, work, f, c);
    if PublishRefusal(s, lease, work, f, c).None? {
      PublishedKeepsLedger(render, s, lease.exportId, f, lease.job,
                           Event(work.row.requestedBy, ExportCompleted, lease.exportId), after);
    }
  }

  lemma PublishedKeepsLedger(render: Renderer, s: State, e: Id, f: Id, j: Id, event: Event, after: State)
    requires Ledger(render, s)
    requires e in s.exports && s.exports[e].job == j && Pending(s.exports[e])
    requires event.action.ExportCompleted? && event.resource == e
    requires j in s.jobs && after == s.(files := after.files, candidates := after.candidates,
                                        exports := s.exports[e := s.exports[e].(file := Some(f))],
                                        jobs := s.jobs[j := s.jobs[j].(status := Succeeded)],
                                        audit := s.audit + [event])
    requires forall x :: x in s.files ==> x in after.files
    ensures Ledger(render, after)
  {
    CountAppend(s.audit, event);
    EventKeepsTickets(s.tickets, s.audit, event);
    FewerKeepCapacity(s, after);
    PublishingKeepsJobs(s, e, f, j, after);
    RowsKeepRecords(s, after);
  }

  lemma ExpireKeepsLedger(render: Renderer, s: State, e: Id)
    requires Ledger(render, s)
    ensures Ledger(render, ExpireExport(s, e))
  {
    assert OnlyClears(s, ExpireExport(s, e));
    OnlyClearsKeepsLedger(render, s, ExpireExport(s, e));
  }

  lemma JobStepKeepsLedger(render: Renderer, s: State, j: Id, job: Job)
    requires Ledger(render, s)
    requires j in s.jobs && !s.jobs[j].status.Succeeded? && !job.status.Succeeded?
    requires job.exportId == s.jobs[j].exportId
    ensures Ledger(render, s.(jobs := s.jobs[j := job]))
  {
    JobStepKeepsJobs(s, j, job, s.(jobs := s.jobs[j := job]));
    RowsKeepRecords(s, s.(jobs := s.jobs[j := job]));
  }
}
