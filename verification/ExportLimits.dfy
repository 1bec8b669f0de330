/** In a running system, an export is refused as too large only for its number of attachments. */
module ExportLimits {
  import opened Basics
  import opened TicketDomain
  import opened TicketModel
  import opened TicketTransactions
  import opened TicketSystem
  import opened TicketReferences
  import opened TicketLedger
  import opened TicketEvolution
  import opened TicketSafety
  import opened TicketRuns
  import opened TicketGuarantees
  import opened TicketAuthorization
  import opened TicketExports
  import opened ExportDocument
  import opened ExportSize

  // ----- uploads are declared validly -----------------------------------------------------------

  /** Every upload row's file was declared with a valid input. */
  ghost predicate UploadsValid(s: State) {
    forall f :: f in s.uploads && f in s.files ==> ValidInput(InputOf(s.files[f]))
  }

  /** The transaction gives no unknown file to a ticket, unless it is a valid new upload. */
  ghost predicate AddsOnlyValid(s: State, after: State) {
    forall f :: f in after.uploads && f !in s.uploads ==> f in after.files && ValidInput(InputOf(after.files[f]))
  }

  lemma ValidStays(s: State, after: State)
    requires UploadsValid(s) && Evolves(s, after) && AddsOnlyValid(s, after) && UploadsOk(s)
    ensures UploadsValid(after)
  {
  }

  lemma RegisterAddsOnlyValid(s: State, actor: Id, t: Id, input: UploadInput, key: string, id: Id, lifetime: nat,
                              purge: set<RecordKey>)
    ensures AddsOnlyValid(s, RegisterUpload(s, actor, t, input, key, id, lifetime, purge).0)
  {
    hide ClaimKey, ValidInput;
    assert InputOf(NewFile(s, input, lifetime)) == input;
  }

  lemma CreateAddsNone(s: State, actor: Id, content: Content, key: string, id: Id, stamp: int, purge: set<RecordKey>)
    ensures Create(s, actor, content, key, id, stamp, purge).0.uploads == s.uploads
  {
  }

  lemma UpdateAddsNone(s: State, actor: Id, t: Id, content: Content, status: Status, version: int, stamp: int)
    ensures Update(s, actor, t, content, status, version, stamp).0.uploads == s.uploads
  {
  }

  lemma RemoveAddsNone(s: State, actor: Id, t: Id, stamp: int)
    ensures Remove(s, actor, t, stamp).0.uploads.Keys <= s.uploads.Keys
  {
  }

  lemma DetachAddsNone(s: State, actor: Id, t: Id, f: Id)
    ensures RemoveAttachment(s, actor, t, f).0.uploads.Keys <= s.uploads.Keys
  {
  }

  lemma RequestAddsNone(render: Renderer, s: State, actor: Id, session: Id, t: Id, spelling: string, key: string,
                        e: Id, job: Id, purge: set<RecordKey>)
    ensures CreateExport(render, s, actor, session, t, spelling, key, e, job, purge).0.uploads == s.uploads
  {
  }

  lemma FinishAddsNone(s: State, actor: Id, session: Id, t: Id, f: Id, c: Id)
    ensures PublishUpload(s, actor, session, t, f, c).0.uploads.Keys == s.uploads.Keys
  {
  }

  lemma RequestStepAddsOnlyValid(render: Renderer, sys: System, step: Step)
    requires step.CreateTicket? || step.UpdateTicket? || step.DeleteTicket?
             || step.StartUpload? || step.DeleteAttachment? || step.RequestExport?
    ensures AddsOnlyValid(sys.db, Apply(render, sys, step).0.db)
  {
    hide Create, Update, Remove, RegisterUpload, RemoveAttachment, CreateExport;
    match step
    case CreateTicket(actor, title, description, key, id, stamp, purge) =>
      if New(title, description).Some? {
        CreateAddsNone(sys.db, actor, New(title, description).value, key, id, stamp, purge);
      }
    case StartUpload(actor, t, input, key, id, lifetime, purge) =>
      RegisterAddsOnlyValid(sys.db, actor, t, input, key, id, lifetime, purge);
    case RequestExport(actor, session, t, spelling, key, e, job, purge) =>
      RequestAddsNone(render, sys.db, actor, session, t, spelling, key, e, job, purge);
    case UpdateTicket(actor, t, title, description, status, version, stamp) =>
      if New(title, description).Some? {
        UpdateAddsNone(sys.db, actor, t, New(title, description).value, status, version, stamp);
      }
    case DeleteTicket(actor, t, stamp) => RemoveAddsNone(sys.db, actor, t, stamp);
    case DeleteAttachment(actor, t, f) => DetachAddsNone(sys.db, actor, t, f);
  }

  lemma PlanAddsNone(s: State, actor: Id, t: Id, f: Id, candidate: Id)
    ensures PlanCompletion(s, actor, t, f, candidate).uploads == s.uploads
  {
  }

  lemma PlannedAddsNone(sys: System, p: Id, actor: Id, t: Id, f: Id, candidate: Id)
    ensures Planned(sys, p, actor, t, f, candidate).0.db.uploads == sys.db.uploads
  {
    PlanAddsNone(sys.db, actor, t, f, candidate);
  }

  lemma VerifiedAddsNone(sys: System, p: Id, staged: string)
    ensures Verified(sys, p, staged).db == sys.db
  {
  }

  lemma UploadAbandonedAddsNone(sys: System, p: Id, rejected: bool)
    ensures UploadAbandoned(sys, p, rejected).db.uploads == sys.db.uploads
  {
  }

  lemma FinishedAddsNone(sys: System, p: Id, actor: Id, session: Id, t: Id)
    ensures UploadFinished(sys, p, actor, session, t).0.db.uploads.Keys == sys.db.uploads.Keys
  {
    if p in sys.completions {
      var target := sys.completions[p].target;
      FinishAddsNone(sys.db, actor, session, t, target.file, target.candidate);
    }
  }

  lemma UploadStepAddsNone(render: Renderer, sys: System, step: Step)
    requires step.PlanUpload? || step.VerifyUpload? || step.FinishUpload? || step.AbandonUpload?
    ensures Apply(render, sys, step).0.db.uploads.Keys == sys.db.uploads.Keys
  {
    hide Planned, Verified, UploadFinished, UploadAbandoned;
    match step
    case PlanUpload(p, actor, t, f, candidate) => PlannedAddsNone(sys, p, actor, t, f, candidate);
    case VerifyUpload(p, staged) => VerifiedAddsNone(sys, p, staged);
    case FinishUpload(p, actor, session, t) => FinishedAddsNone(sys, p, actor, session, t);
    case AbandonUpload(p, rejected) => UploadAbandonedAddsNone(sys, p, rejected);
  }

  lemma PrepareAddsNone(s: State, lease: Lease, work: Work, name: string, text: string, f: Id, c: Id)
    ensures PrepareWork(s, lease, work, name, text, f, c).uploads == s.uploads
  {
  }

  lemma PublishAddsNone(s: State, lease: Lease, work: Work, f: Id, c: Id)
    ensures PublishWork(s, lease, work, f, c).uploads == s.uploads
  {
  }

  lemma PreparedAddsNone(render: Renderer, sys: System, p: Id, name: string, f: Id, c: Id)
    ensures ExportPrepared(render, sys, p, name, f, c).0.db.uploads == sys.db.uploads
  {
    if p in sys.workers && render(sys.workers[p].work.snapshot).Some? {
      var w := sys.workers[p];
      PrepareAddsNone(sys.db, w.lease, w.work, name, render(w.work.snapshot).value, f, c);
    }
  }

  lemma PublishedAddsNone(sys: System, p: Id)
    ensures ExportPublished(sys, p).0.db.uploads == sys.db.uploads
  {
    if p in sys.workers && sys.workers[p].target.Some? {
      var w := sys.workers[p];
      PublishAddsNone(sys.db, w.lease, w.work, w.target.value.file, w.target.value.candidate);
    }
  }

  lemma LoadedAddsNone(render: Renderer, sys: System, p: Id, lease: Lease)
    ensures ExportLoaded(render, sys, p, lease).0.db == sys.db
  {
  }

  lemma WrittenAddsNone(render: Renderer, sys: System, p: Id)
    ensures Written(render, sys, p).db == sys.db
  {
  }

  lemma ExportAbandonedAddsNone(sys: System, p: Id)
    ensures ExportAbandoned(sys, p).db.uploads == sys.db.uploads
  {
  }

  lemma WorkerStepAddsNone(render: Renderer, sys: System, step: Step)
    requires step.LoadExport? || step.PrepareExport? || step.WriteExport? || step.PublishExport? || step.AbandonExport?
    ensures Apply(render, sys, step).0.db.uploads == sys.db.uploads
  {
    hide ExportLoaded, ExportPrepared, Written, ExportPublished, ExportAbandoned;
    hide CreateAnswered, UpdateAnswered, Remove, RegisterUpload, RemoveAttachment, CreateExport, Planned;
    match step
    case LoadExport(p, lease) => LoadedAddsNone(render, sys, p, lease);
    case PrepareExport(p, name, f, c) => PreparedAddsNone(render, sys, p, name, f, c);
    case WriteExport(p) => WrittenAddsNone(render, sys, p);
    case PublishExport(p) => PublishedAddsNone(sys, p);
    case AbandonExport(p) => ExportAbandonedAddsNone(sys, p);
  }

  lemma MaintenanceAddsNone(render: Renderer, sys: System, step: Step)
    requires step.Expire? || step.SweepFile? || step.CollectObject?
    ensures Apply(render, sys, step).0.db.uploads == sys.db.uploads
  {
  }

  lemma OutsideStepAddsNone(render: Renderer, sys: System, step: Step)
    requires step.ReadTicket? || step.ListTickets? || step.Tick? || step.SetMember? || step.SetSession?
    ensures Apply(render, sys, step).0.db.uploads == sys.db.uploads
  {
  }

  lemma JobStepAddsNone(render: Renderer, sys: System, step: Step)
    requires step.ClaimJob? || step.RenewLease? || step.FailJob? || step.RetryJob?
    ensures Apply(render, sys, step).0.db.uploads == sys.db.uploads
  {
    hide Apply;
    JobStepMoves(render, sys, step);
  }

  lemma StepKeepsValid(render: Renderer, sys: System, step: Step)
    requires Safe(render, sys) && UploadsValid(sys.db)
    ensures UploadsValid(Apply(render, sys, step).0.db)
  {
    StepIsSafe(render, sys, step);
    if step.CreateTicket? || step.UpdateTicket? || step.DeleteTicket?
       || step.StartUpload? || step.DeleteAttachment? || step.RequestExport? {
      RequestStepAddsOnlyValid(render, sys, step);
    } else if step.PlanUpload? || step.VerifyUpload? || step.FinishUpload? || step.AbandonUpload? {
      UploadStepAddsNone(render, sys, step);
    } else if step.LoadExport? || step.PrepareExport? || step.WriteExport? || step.PublishExport?
              || step.AbandonExport? {
      WorkerStepAddsNone(render, sys, step);
    } else if step.ClaimJob? || step.RenewLease? || step.FailJob? || step.RetryJob? {
      JobStepAddsNone(render, sys, step);
    } else if step.Expire? || step.SweepFile? || step.CollectObject? {
      MaintenanceAddsNone(render, sys, step);
    } else {
      OutsideStepAddsNone(render, sys, step);
    }
    ValidStays(sys.db, Apply(render, sys, step).0.db);
  }

  lemma {:induction false} RunKeepsValid(render: Renderer, sys: System, steps: seq<Step>)
    requires Safe(render, sys) && UploadsValid(sys.db)
    ensures UploadsValid(Run(render, sys, steps).db)
    decreases |steps|
  {
    if steps != [] {
      StepIsSafe(render, sys, steps[0]);
      StepKeepsValid(render, sys, steps[0]);
      RunKeepsValid(render, Apply(render, sys, steps[0]).0, steps[1..]);
    }
  }

  lemma ReachableIsValid(render: Renderer, sys: System)
    requires Reachable(render, sys)
    ensures UploadsValid(sys.db)
  {
    var start, steps :| Initial(start) && Run(render, start, steps) == sys;
    InitialIsSafe(render, start);
    RunKeepsValid(render, start, steps);
  }

  // ----- so the document always fits ---------------------------------------------------------------

  lemma ValidIsBounded(file: FileSnapshot, input: UploadInput)
    requires ValidInput(input)
    requires file.fileName == input.fileName && file.contentType == input.contentType && file.size == input.size
    ensures MetadataBounded(file)
  {
    var s := input.contentType;
    var i :| 0 < i < |s| - 1 && s[i] == '/' && IsToken(s[..i]) && IsToken(s[i + 1..]);
    forall k | 0 <= k < |s| ensures ' ' <= s[k] <= '~' && s[k] != '"' && s[k] != '\\' {
      if k < i {
        assert s[..i][k] == s[k];
      } else if k > i {
        assert s[i + 1..][k - i - 1] == s[k];
      }
    }
  }

  lemma FrozenMetadataBounded(s: State, t: Id)
    requires UploadsValid(s) && t in s.tickets
    ensures forall i :: 0 <= i < |SnapshotOf(s, t).attachments| ==> MetadataBounded(SnapshotOf(s, t).attachments[i])
  {
    var ids := Sorted(PublishedOf(s.uploads, t));
    var entries := Snapshots(s.files, ids);
    forall i | 0 <= i < |entries| ensures MetadataBounded(entries[i]) {
      SnapshotEntry(s, ids, i);
      SortedHas(ReadyAmong(s.files, ids), entries[i].id);
      SortedHas(PublishedOf(s.uploads, t), entries[i].id);
      ValidIsBounded(entries[i], InputOf(s.files[entries[i].id]));
    }
  }

  /** Freezing a ticket of a reachable state fails only when more than eight attachments are ready. */
  lemma FreezingFailsOnlyForTheCount(p: Printing, sys: System, t: Id)
    requires PrintsPlainly(p) && Reachable(Rendering(p), sys) && t in sys.db.tickets
    ensures Rendering(p)(SnapshotOf(sys.db, t)).Some? <==> |SnapshotOf(sys.db, t).attachments| <= MAX_EXPORT_ATTACHMENTS
  {
    ReachableIsSafe(Rendering(p), sys);
    ReachableIsValid(Rendering(p), sys);
    FrozenMetadataBounded(sys.db, t);
    TicketIsBounded(sys.db, t);
    RefusedOnlyForTheCount(p, SnapshotOf(sys.db, t));
  }

  lemma TicketIsBounded(s: State, t: Id)
    requires TicketsOk(s.tickets, s.audit) && t in s.tickets
    ensures TicketBounded(s.tickets[t].ticket)
  {
  }

  /**
   * Whatever titles, descriptions, names and media types users chose, a new
   * export request is refused as too large exactly when the ticket has more than
   * eight published attachments.
   */
  lemma TooLargeMeansTooMany(p: Printing, sys: System, actor: Id, session: Id, t: Id, e: Id, job: Id, claim: Claim)
    requires PrintsPlainly(p) && Reachable(Rendering(p), sys)
    requires AccessRefusal(sys.db, actor, t).None? && Current(sys.db, actor, session)
    requires claim.KeyGranted? && claim.saved.None?
    requires |LiveExportsOf(sys.db.exports, t)| < MAX_LIVE_EXPORTS
    ensures RequestRefusal(Rendering(p), sys.db, actor, session, t, e, job, claim) == Some(ExportTooLarge)
       <==> |PublishedOf(sys.db.uploads, t)| > MAX_EXPORT_ATTACHMENTS
  {
    FreezingFailsOnlyForTheCount(p, sys, t);
  }

  /** The document says of the ticket what its row said. */
  ghost predicate ShowsTicket(p: Printing, was: Ticket, text: TicketText) {
    && text.id == p.idText(was.id) && text.createdBy == p.idText(was.createdBy)
    && text.title == was.title && text.description == was.description
    && (was.status == Open ==> text.status == "open") && (was.status == Closed ==> text.status == "closed")
    && text.version == was.version
    && text.createdAt == p.timeText(was.createdAt) && text.updatedAt == p.timeText(was.updatedAt)
  }

  /** And of each attachment what its file's row said, in the order frozen. */
  ghost predicate ShowsFiles(p: Printing, files: seq<FileSnapshot>, texts: seq<AttachmentText>) {
    && |texts| == |files|
    && forall i :: 0 <= i < |files| ==>
         && texts[i].id == p.idText(files[i].id) && texts[i].fileName == files[i].fileName
         && texts[i].contentType == files[i].contentType && texts[i].size == files[i].size
         && texts[i].sha256 == p.digestText(files[i].sha256)
  }

  ghost predicate Shows(p: Printing, s: State, t: Id, document: Document) {
    exists snapshot :: Freezes(s, t, snapshot) && ShowsTicket(p, snapshot.ticket, document.ticket)
                       && ShowsFiles(p, snapshot.attachments, document.attachments)
  }

  lemma FrozenIsShown(p: Printing, render: Renderer, sys: System, t: Id)
    requires Safe(render, sys) && t in sys.db.tickets
    ensures Shows(p, sys.db, t, DocumentOf(p, SnapshotOf(sys.db, t)))
  {
    hide Freezes, Safe, SnapshotOf, ShowsTicket, ShowsFiles, DocumentOf;
    SnapshotFreezes(render, sys, t);
    DocumentShows(p, SnapshotOf(sys.db, t));
  }

  lemma DocumentShows(p: Printing, snapshot: Snapshot)
    ensures ShowsTicket(p, snapshot.ticket, DocumentOf(p, snapshot).ticket)
    ensures ShowsFiles(p, snapshot.attachments, DocumentOf(p, snapshot).attachments)
  {
  }

  /**
   * End to end: whenever an export a request created is published later, its
   * stored bytes read back as a document that shows the ticket and its published
   * attachments, field by field, as their rows were at that request.
   */
  lemma PublishedBytesReadBack(p: Printing, sys: System, request: Step, steps: seq<Step>)
    requires Reachable(Rendering(p), sys) && request.RequestExport? && request.id !in sys.db.exports
    requires Apply(Rendering(p), sys, request).1 == ExportReply(Ok(request.id))
    requires var later := Run(Rendering(p), Apply(Rendering(p), sys, request).0, steps);
             request.id in later.db.exports && later.db.exports[request.id].file.Some?
    ensures var later := Run(Rendering(p), Apply(Rendering(p), sys, request).0, steps);
            exists document :: Shows(p, sys.db, request.ticket, document)
                               && ReadsAs(later, later.db.exports[request.id].file.value, document)
  {
    hide Apply, Shows, Safe, DocumentOf;
    PublishedBytesAreTheRequestedOnes(Rendering(p), sys, request, steps);
    ReachableIsSafe(Rendering(p), sys);
    FrozenIsShown(p, Rendering(p), sys, request.ticket);
    BytesSayTheSnapshot(p, SnapshotOf(sys.db, request.ticket));
  }

  /** The stored object of file f is a document that reads as this one. */
  ghost predicate ReadsAs(sys: System, f: Id, document: Document) {
    && f in sys.db.files && sys.db.files[f].readyCandidate.Some?
    && sys.db.files[f].readyCandidate.value in sys.objects
    && ReadDocument(sys.objects[sys.db.files[f].readyCandidate.value]) == Some(document)
  }

  lemma RenderedFits(p: Printing)
    ensures forall snapshot :: Rendering(p)(snapshot).Some? ==> ByteLength(Rendering(p)(snapshot).value) <= 65536
  {
    hide DocumentText, DocumentOf;
  }

  /**
   * A requested export gets through: if a worker claims its job, loads, prepares,
   * writes and publishes it while its lease and the hour last, with nothing
   * changed about the ticket, the export ends with its document stored.
   */
  lemma RequestedExportCompletes(p: Printing, sys: System, request: Step, w: Id, token: Id, seconds: nat, name: string,
                                 f: Id, c: Id, t1: int, t2: int, t3: int)
    requires Reachable(Rendering(p), sys) && request.RequestExport?
    requires RequestAnswer(Rendering(p), sys.db, request) == Ok(request.id)
    requires !LiveRecord(sys.db, RecordKey(request.actor, ExportScope(request.ticket, request.spelling), request.key))
    requires sys.db.now <= t1 <= t2 <= t3 && t3 < sys.db.now + seconds && t3 < sys.db.now + 3600
    requires f !in sys.db.files && c !in sys.db.candidates && c !in sys.objects
    ensures var requested := Apply(Rendering(p), sys, request).0;
            var claimed := Apply(Rendering(p), requested, ClaimJob(request.job, token, seconds)).0;
            var loaded := Apply(Rendering(p), Apply(Rendering(p), claimed, Tick(t1)).0,
                                LoadExport(w, Lease(request.job, token, request.id))).0;
            var prepared := Apply(Rendering(p), Apply(Rendering(p), loaded, Tick(t2)).0,
                                  PrepareExport(w, name, f, c)).0;
            var written := Apply(Rendering(p), prepared, WriteExport(w)).0;
            var (after, reply) := Apply(Rendering(p), Apply(Rendering(p), written, Tick(t3)).0, PublishExport(w));
            && reply == WorkReply(None)
            && request.id in after.db.exports && after.db.exports[request.id].file == Some(f)
            && request.job in after.db.jobs && after.db.jobs[request.job].status == Succeeded
            && exists document :: Shows(p, sys.db, request.ticket, document) && ReadsAs(after, f, document)
  {
    hide Apply, Safe, RequestAnswer, DocumentBytes, WorkAnswer, DocumentOf, Freezes, Shows;
    var requested := Apply(Rendering(p), sys, request).0;
    RenderedFits(p);
    RequestAnswers(Rendering(p), sys, request);
    RequestedIsInOrder(Rendering(p), sys, request);
    ExportCompletes(Rendering(p), requested, request.id, w, token, seconds, name, f, c, t1, t2, t3);
    var snapshot :| Freezes(sys.db, request.ticket, snapshot) && Rendering(p)(snapshot).Some?
                    && Requests(sys.db, requested.db, request, snapshot);
    FrozenReadsBack(p, sys.db, request.ticket, snapshot);
  }

  lemma FrozenReadsBack(p: Printing, s: State, t: Id, snapshot: Snapshot)
    requires Freezes(s, t, snapshot) && Rendering(p)(snapshot).Some?
    ensures Shows(p, s, t, DocumentOf(p, snapshot))
    ensures ReadDocument(Rendering(p)(snapshot).value) == Some(DocumentOf(p, snapshot))
  {
    hide Freezes, ShowsTicket, ShowsFiles, DocumentOf;
    DocumentShows(p, snapshot);
    BytesSayTheSnapshot(p, snapshot);
  }
}
