/**
 * The module as it was before files and exports, and that the full module still
 * behaves like it: checkpoints/crud/application.rs against application.rs.
 */
module CrudRefinement {
  import opened Basics
  import opened TicketDomain
  import opened TicketModel
  import opened TicketTransactions
  import opened TicketList
  import opened TicketSystem
  import opened TicketReferences
  import opened TicketLedger
  import opened TicketSafety
  import opened TicketGuarantees

  // ----- the checkpoint ------------------------------------------------------------------------

  /** The rows the checkpoint knows; records holds the idempotency records that have not expired. */
  datatype Crud = Crud(now: int, members: map<Id, Role>, tickets: map<Id, TicketRow>,
                       records: map<RecordKey, Record>, audit: seq<Event>)

  function Refusal(c: Crud, actor: Id, t: Id): Option<Failure> {
    if actor !in c.members then Some(Forbidden)
    else if t !in c.tickets || c.tickets[t].deleted then Some(NotFound)
    else if c.members[actor].Member? && c.tickets[t].ticket.createdBy != actor then Some(NotFound)
    else None
  }

  /** The ticket an unexpired record of the key saved. */
  function Replayed(c: Crud, k: RecordKey): Option<Saved> {
    if k in c.records then c.records[k].response else None
  }

  function CreationRefusal(c: Crud, actor: Id, content: Content, k: RecordKey, id: Id): Option<Failure> {
    if actor !in c.members then Some(Forbidden)
    else if !ValidKey(k.key) then Some(InvalidKey)
    else if k in c.records && c.records[k].fingerprint != OfTicket(content) then Some(KeyConflict)
    else
      match Replayed(c, k)
      case Some(SavedTicket(saved)) => Refusal(c, actor, saved)
      case Some(_) => Some(Unavailable)
      case None => if id in c.tickets then Some(Unavailable) else None
  }

  function CrudCreate(c: Crud, actor: Id, content: Content, key: string, id: Id, stamp: int): (Crud, Outcome<Ticket>) {
    var k := RecordKey(actor, TicketScope, key);
    var refusal := CreationRefusal(c, actor, content, k, id);
    if refusal.Some? then (c, Err(refusal.value))
    else if Replayed(c, k).Some? then (c, Ok(c.tickets[Replayed(c, k).value.id].ticket))
    else
      var ticket := Ticket(id, actor, content.title, content.description, Open, 1, stamp, stamp);
      (c.(tickets := c.tickets[id := TicketRow(ticket, false)],
          records := c.records[k := Record(OfTicket(content), Some(SavedTicket(id)), c.now + RECORD_RETENTION)],
          audit := c.audit + [Event(actor, TicketCreated, id)]), Ok(ticket))
  }

  function CrudUpdate(c: Crud, actor: Id, t: Id, content: Content, status: Status, version: int, stamp: int)
    : (Crud, Outcome<Ticket>)
  {
    if Refusal(c, actor, t).Some? then (c, Err(Refusal(c, actor, t).value))
    else if c.tickets[t].ticket.version != version then (c, Err(VersionConflict))
    else if version == MAX_VERSION then (c, Err(Unavailable))
    else
      var was := c.tickets[t].ticket;
      var ticket := Ticket(was.id, was.createdBy, content.title, content.description, status, version + 1,
                           was.createdAt, stamp);
      (c.(tickets := c.tickets[t := TicketRow(ticket, false)], audit := c.audit + [Event(actor, TicketUpdated, t)]),
       Ok(ticket))
  }

  function CrudRemove(c: Crud, actor: Id, t: Id, stamp: int): (Crud, Outcome<()>) {
    if Refusal(c, actor, t).Some? then (c, Err(Refusal(c, actor, t).value))
    else if c.tickets[t].ticket.version == MAX_VERSION then (c, Err(Unavailable))
    else
      var was := c.tickets[t].ticket;
      (c.(tickets := c.tickets[t := TicketRow(was.(version := was.version + 1, updatedAt := stamp), true)],
          audit := c.audit + [Event(actor, TicketDeleted, t)]), Ok(()))
  }

  function CrudRead(c: Crud, actor: Id, t: Id): Outcome<Ticket> {
    if Refusal(c, actor, t).Some? then Err(Refusal(c, actor, t).value) else Ok(c.tickets[t].ticket)
  }

  function CrudList(c: Crud, actor: Id, limit: nat): Outcome<seq<Ticket>> {
    if actor !in c.members then Err(Forbidden)
    else
      var visible := Visible(c.tickets, !c.members[actor].Member?, actor);
      VisibleInOrder(c.tickets, visible);
      Ok(Newest(c.tickets, Sorted(visible), limit))
  }

  /** The steps the checkpoint has. */
  predicate IsCrud(step: Step) {
    || step.CreateTicket? || step.UpdateTicket? || step.DeleteTicket? || step.ReadTicket? || step.ListTickets?
    || step.Tick? || step.SetMember?
  }

  function ApplyCrud(c: Crud, step: Step): (Crud, Reply)
    requires IsCrud(step)
  {
    match step
    case CreateTicket(actor, title, description, key, id, stamp, _) =>
      if New(title, description).None? then (c, TicketReply(Err(InvalidContent)))
      else
        var (after, answer) := CrudCreate(c, actor, New(title, description).value, key, id, stamp);
        (after, TicketReply(answer))
    case UpdateTicket(actor, t, title, description, status, version, stamp) =>
      if New(title, description).None? then (c, TicketReply(Err(InvalidContent)))
      else
        var (after, answer) := CrudUpdate(c, actor, t, New(title, description).value, status, version, stamp);
        (after, TicketReply(answer))
    case DeleteTicket(actor, t, stamp) =>
      var (after, answer) := CrudRemove(c, actor, t, stamp);
      (after, RemoveReply(answer))
    case ReadTicket(actor, t) => (c, TicketReply(CrudRead(c, actor, t)))
    case ListTickets(actor, limit) => (c, ListReply(CrudList(c, actor, limit)))
    case Tick(to) =>
      var now := if c.now <= to then to else c.now;
      (c.(now := now, records := map k | k in c.records && now < c.records[k].expiresAt :: c.records[k]), NoReply)
    case SetMember(user, role) =>
      (c.(members := if role.Some? then c.members[user := role.value] else c.members - {user}), NoReply)
  }

  // ----- forgetting files, uploads, exports and jobs -----------------------------------------------

  predicate IsTicketEvent(event: Event) {
    event.action.TicketCreated? || event.action.TicketUpdated? || event.action.TicketDeleted?
  }

  function TicketEvents(audit: seq<Event>): seq<Event> {
    if audit == [] then []
    else
      var last := audit[|audit| - 1];
      TicketEvents(audit[..|audit| - 1]) + (if IsTicketEvent(last) then [last] else [])
  }

  function TicketRecords(records: map<RecordKey, Record>, now: int): map<RecordKey, Record> {
    map k | k in records && k.scope.TicketScope? && now < records[k].expiresAt :: records[k]
  }

  function Forget(s: State): Crud {
    Crud(s.now, s.members, s.tickets, TicketRecords(s.records, s.now), TicketEvents(s.audit))
  }

  lemma TicketEventsAppend(audit: seq<Event>, event: Event)
    ensures TicketEvents(audit + [event]) == TicketEvents(audit) + if IsTicketEvent(event) then [event] else []
  {
    assert (audit + [event])[..|audit|] == audit;
  }

  // ----- one step -----------------------------------------------------------------------------------

  lemma AccessAgrees(s: State, actor: Id, t: Id)
    ensures Refusal(Forget(s), actor, t) == AccessRefusal(s, actor, t)
  {
  }

  lemma CreationRefusalAgrees(s: State, actor: Id, content: Content, k: RecordKey, id: Id, purge: set<RecordKey>)
    requires k.scope.TicketScope?
    ensures CreationRefusal(Forget(s), actor, content, k, id)
         == CreateRefusal(s, actor, k, id, ClaimKey(s, k, OfTicket(content), purge))
  {
  }

  lemma ReplayAgrees(s: State, actor: Id, content: Content, k: RecordKey, id: Id, purge: set<RecordKey>)
    requires RecordsOk(s) && k.scope.TicketScope?
    requires CreateRefusal(s, actor, k, id, ClaimKey(s, k, OfTicket(content), purge)).None?
    ensures var claim := ClaimKey(s, k, OfTicket(content), purge);
            && claim.KeyGranted? && Replayed(Forget(s), k) == claim.saved
            && (claim.saved.Some? ==> TicketRecords(claim.records, s.now) == TicketRecords(s.records, s.now))
            && (claim.saved.None? ==>
                  TicketRecords(Completed(claim.records, k, SavedTicket(id)), s.now)
                  == TicketRecords(s.records, s.now)[k := Record(OfTicket(content), Some(SavedTicket(id)),
                                                                 s.now + RECORD_RETENTION)])
  {
  }

  lemma NewTicketShows(s: State, id: Id, row: TicketRow, event: Event, records: map<RecordKey, Record>)
    requires IsTicketEvent(event)
    ensures Forget(s.(tickets := s.tickets[id := row], records := records, audit := s.audit + [event]))
         == Forget(s).(tickets := s.tickets[id := row], records := TicketRecords(records, s.now),
                       audit := TicketEvents(s.audit) + [event])
  {
    TicketEventsAppend(s.audit, event);
  }

  lemma CreateRefines(s: State, actor: Id, content: Content, key: string, id: Id, stamp: int, purge: set<RecordKey>)
    requires RecordsOk(s)
    ensures var (after, answer) := Create(s, actor, content, key, id, stamp, purge);
            CrudCreate(Forget(s), actor, content, key, id, stamp) == (Forget(after), answer)
  {
    hide ClaimKey, CreateRefusal, CreationRefusal, Replayed, Completed, TicketRecords, TicketEvents;
    var k := RecordKey(actor, TicketScope, key);
    var claim := ClaimKey(s, k, OfTicket(content), purge);
    CreationRefusalAgrees(s, actor, content, k, id, purge);
    if CreationRefusal(Forget(s), actor, content, k, id).None? {
      ReplayAgrees(s, actor, content, k, id, purge);
      if claim.saved.None? {
        NewTicketShows(s, id, TicketRow(NewTicket(actor, content, id, stamp), false), Event(actor, TicketCreated, id),
                       Completed(claim.records, k, SavedTicket(id)));
      }
    }
  }

  lemma UpdateRefines(s: State, actor: Id, t: Id, content: Content, status: Status, version: int, stamp: int)
    ensures var (after, answer) := Update(s, actor, t, content, status, version, stamp);
            CrudUpdate(Forget(s), actor, t, content, status, version, stamp) == (Forget(after), answer)
  {
    hide TicketRecords, TicketEvents;
    AccessAgrees(s, actor, t);
    if UpdateRefusal(s, actor, t, version).None? {
      TicketEventsAppend(s.audit, Event(actor, TicketUpdated, t));
    }
  }

  /** The full deletion is refused exactly when the checkpoint's is: its extra refusals cannot happen. */
  lemma RemoveRefines(s: State, actor: Id, t: Id, stamp: int)
    requires CapacityOk(s) && UploadsOk(s) && ExportFilesOk(s)
    ensures var (after, answer) := Remove(s, actor, t, stamp);
            CrudRemove(Forget(s), actor, t, stamp) == (Forget(after), answer)
  {
    AccessAgrees(s, actor, t);
    FilesOfExist(s, t);
    RemovalRefusedOnlyFor(s, actor, t);
    if RemoveRefusal(s, actor, t).None? {
      TicketEventsAppend(s.audit, Event(actor, TicketDeleted, t));
      RemoveShows(s, actor, t, stamp);
    }
  }

  lemma RemoveShows(s: State, actor: Id, t: Id, stamp: int)
    requires RemoveRefusal(s, actor, t).None?
    ensures var after := Remove(s, actor, t, stamp).0;
            && after.now == s.now && after.members == s.members && after.records == s.records
            && after.tickets == s.tickets[t := TicketRow(Removed(s.tickets[t].ticket, stamp), true)]
            && after.audit == s.audit + [Event(actor, TicketDeleted, t)]
            && Remove(s, actor, t, stamp).1 == Ok(())
  {
  }

  lemma TickRefines(s: State, to: int)
    ensures ApplyCrud(Forget(s), Tick(to)) == (Forget(Surrounded(s, Tick(to))), NoReply)
  {
    var now := if s.now <= to then to else s.now;
    var kept := TicketRecords(s.records, s.now);
    assert TicketRecords(s.records, now) == map k | k in kept && now < kept[k].expiresAt :: kept[k];
  }

  lemma ReadRefines(s: State, actor: Id, t: Id, limit: nat)
    ensures CrudRead(Forget(s), actor, t) == Read(s, actor, t)
    ensures CrudList(Forget(s), actor, limit) == List(s, actor, limit)
  {
    AccessAgrees(s, actor, t);
  }

  lemma CreateStepRefines(render: Renderer, sys: System, step: Step)
    requires RecordsOk(sys.db) && step.CreateTicket?
    ensures ApplyCrud(Forget(sys.db), step) == (Forget(Apply(render, sys, step).0.db), Apply(render, sys, step).1)
  {
    hide Create, CrudCreate, Forget;
    if New(step.title, step.description).Some? {
      CreateRefines(sys.db, step.actor, New(step.title, step.description).value, step.key, step.id, step.stamp,
                    step.purge);
    }
  }

  lemma UpdateStepRefines(render: Renderer, sys: System, step: Step)
    requires step.UpdateTicket?
    ensures ApplyCrud(Forget(sys.db), step) == (Forget(Apply(render, sys, step).0.db), Apply(render, sys, step).1)
  {
    hide Update, CrudUpdate, Forget;
    if New(step.title, step.description).Some? {
      UpdateRefines(sys.db, step.actor, step.ticket, New(step.title, step.description).value, step.status, step.version,
                    step.stamp);
    }
  }

  lemma DeleteStepRefines(render: Renderer, sys: System, step: Step)
    requires CapacityOk(sys.db) && UploadsOk(sys.db) && ExportFilesOk(sys.db) && step.DeleteTicket?
    ensures ApplyCrud(Forget(sys.db), step) == (Forget(Apply(render, sys, step).0.db), Apply(render, sys, step).1)
  {
    hide Remove, CrudRemove, Forget;
    RemoveRefines(sys.db, step.actor, step.ticket, step.stamp);
  }

  lemma ReadStepRefines(render: Renderer, sys: System, step: Step)
    requires step.ReadTicket? || step.ListTickets?
    ensures ApplyCrud(Forget(sys.db), step) == (Forget(Apply(render, sys, step).0.db), Apply(render, sys, step).1)
  {
    hide Read, List, CrudRead, CrudList, Forget;
    if step.ReadTicket? {
      ReadRefines(sys.db, step.actor, step.ticket, 0);
    } else {
      ReadRefines(sys.db, step.actor, 0, step.limit);
    }
  }

  lemma SurroundingStepRefines(render: Renderer, sys: System, step: Step)
    requires step.Tick? || step.SetMember?
    ensures ApplyCrud(Forget(sys.db), step) == (Forget(Apply(render, sys, step).0.db), Apply(render, sys, step).1)
  {
    if step.Tick? {
      TickRefines(sys.db, step.to);
    }
  }

  lemma CrudStepRefines(render: Renderer, sys: System, step: Step)
    requires Safe(render, sys) && IsCrud(step)
    ensures ApplyCrud(Forget(sys.db), step) == (Forget(Apply(render, sys, step).0.db), Apply(render, sys, step).1)
  {
    hide Apply, ApplyCrud, Forget;
    if step.CreateTicket? {
      CreateStepRefines(render, sys, step);
    } else if step.UpdateTicket? {
      UpdateStepRefines(render, sys, step);
    } else if step.DeleteTicket? {
      DeleteStepRefines(render, sys, step);
    } else if step.ReadTicket? || step.ListTickets? {
      ReadStepRefines(render, sys, step);
    } else {
      SurroundingStepRefines(render, sys, step);
    }
  }

  /** The step shows in none of the rows the checkpoint knows. */
  ghost predicate Hidden(s: State, after: State) {
    && after.now == s.now && after.members == s.members && after.tickets == s.tickets
    && (after.audit == s.audit || exists event :: after.audit == s.audit + [event] && !IsTicketEvent(event))
    && TicketRecords(after.records, s.now) == TicketRecords(s.records, s.now)
  }

  lemma HiddenIsForgotten(s: State, after: State)
    requires Hidden(s, after)
    ensures Forget(after) == Forget(s)
  {
    if after.audit != s.audit {
      var event :| after.audit == s.audit + [event] && !IsTicketEvent(event);
      TicketEventsAppend(s.audit, event);
    }
  }

  /** Claiming a key of another scope, and completing it, leaves the ticket records as they were. */
  lemma OtherScopesAreForgotten(s: State, k: RecordKey, mark: Fingerprint, purge: set<RecordKey>, saved: Saved)
    requires !k.scope.TicketScope?
    ensures var claim := ClaimKey(s, k, mark, purge);
            claim.KeyGranted? ==>
              && TicketRecords(claim.records, s.now) == TicketRecords(s.records, s.now)
              && TicketRecords(Completed(claim.records, k, saved), s.now) == TicketRecords(s.records, s.now)
  {
  }

  lemma RegisterIsHidden(s: State, actor: Id, t: Id, input: UploadInput, key: string, id: Id, lifetime: nat,
                         purge: set<RecordKey>)
    ensures Hidden(s, RegisterUpload(s, actor, t, input, key, id, lifetime, purge).0)
  {
    OtherScopesAreForgotten(s, RecordKey(actor, UploadScope(t), key), OfUpload(input), purge, SavedUpload(id));
  }

  lemma RequestIsHidden(render: Renderer, s: State, actor: Id, session: Id, t: Id, spelling: string, key: string,
                        e: Id, job: Id, purge: set<RecordKey>)
    ensures Hidden(s, CreateExport(render, s, actor, session, t, spelling, key, e, job, purge).0)
  {
    OtherScopesAreForgotten(s, RecordKey(actor, ExportScope(t, spelling), key), OfNothing, purge, SavedExport(e));
    assert !IsTicketEvent(Event(actor, ExportRequested, e));
  }

  lemma FinishIsHidden(s: State, actor: Id, session: Id, t: Id, f: Id, c: Id)
    ensures Hidden(s, PublishUpload(s, actor, session, t, f, c).0)
  {
    assert !IsTicketEvent(Event(actor, AttachmentPublished, f));
  }

  lemma DetachIsHidden(s: State, actor: Id, t: Id, f: Id)
    ensures Hidden(s, RemoveAttachment(s, actor, t, f).0)
  {
    assert !IsTicketEvent(Event(actor, AttachmentDeleted, f));
  }

  lemma PublishIsHidden(s: State, lease: Lease, work: Work, f: Id, c: Id)
    ensures Hidden(s, PublishWork(s, lease, work, f, c))
  {
    assert !IsTicketEvent(Event(work.row.requestedBy, ExportCompleted, lease.exportId));
  }

  lemma UploadFinishedIsHidden(sys: System, p: Id, actor: Id, session: Id, t: Id)
    ensures Hidden(sys.db, UploadFinished(sys, p, actor, session, t).0.db)
  {
    if p in sys.completions {
      FinishIsHidden(sys.db, actor, session, t, sys.completions[p].target.file, sys.completions[p].target.candidate);
    }
  }

  lemma ExportPublishedIsHidden(sys: System, p: Id)
    ensures Hidden(sys.db, ExportPublished(sys, p).0.db)
  {
    if p in sys.workers && sys.workers[p].target.Some? {
      var w := sys.workers[p];
      PublishIsHidden(sys.db, w.lease, w.work, w.target.value.file, w.target.value.candidate);
    }
  }

  /** The steps that write to the audit log or claim a key. */
  predicate IsRecorded(step: Step) {
    step.StartUpload? || step.RequestExport? || step.DeleteAttachment? || step.FinishUpload? || step.PublishExport?
  }

  lemma RecordedStepIsHidden(render: Renderer, sys: System, step: Step)
    requires IsRecorded(step)
    ensures Hidden(sys.db, Apply(render, sys, step).0.db)
  {
    hide Hidden, RegisterUpload, CreateExport, RemoveAttachment, UploadFinished, ExportPublished;
    match step
    case StartUpload(actor, t, input, key, id, lifetime, purge) =>
      RegisterIsHidden(sys.db, actor, t, input, key, id, lifetime, purge);
    case RequestExport(actor, session, t, spelling, key, e, job, purge) =>
      RequestIsHidden(render, sys.db, actor, session, t, spelling, key, e, job, purge);
    case FinishUpload(p, actor, session, t) => UploadFinishedIsHidden(sys, p, actor, session, t);
    case DeleteAttachment(actor, t, f) => DetachIsHidden(sys.db, actor, t, f);
    case PublishExport(p) => ExportPublishedIsHidden(sys, p);
  }

  lemma PlannedIsHidden(sys: System, p: Id, actor: Id, t: Id, f: Id, candidate: Id)
    ensures Hidden(sys.db, Planned(sys, p, actor, t, f, candidate).0.db)
  {
    KeepsTickets(sys.db, PlanCompletion(sys.db, actor, t, f, candidate));
  }

  lemma UploadAbandonedIsHidden(sys: System, p: Id, rejected: bool)
    ensures Hidden(sys.db, UploadAbandoned(sys, p, rejected).db)
  {
    KeepsTickets(sys.db, UploadAbandoned(sys, p, rejected).db);
  }

  lemma ExportAbandonedIsHidden(sys: System, p: Id)
    ensures Hidden(sys.db, ExportAbandoned(sys, p).db)
  {
    KeepsTickets(sys.db, ExportAbandoned(sys, p).db);
  }

  lemma ExportPreparedIsHidden(render: Renderer, sys: System, p: Id, name: string, f: Id, c: Id)
    ensures Hidden(sys.db, ExportPrepared(render, sys, p, name, f, c).0.db)
  {
    if p in sys.workers && render(sys.workers[p].work.snapshot).Some? {
      var w := sys.workers[p];
      KeepsTickets(sys.db, PrepareWork(sys.db, w.lease, w.work, name, render(w.work.snapshot).value, f, c));
    }
  }

  /** The steps that only change files, candidates and cleared exports. */
  predicate IsFileStep(step: Step) {
    step.PlanUpload? || step.AbandonUpload? || step.PrepareExport? || step.AbandonExport? || step.Expire?
  }

  lemma FileStepIsHidden(render: Renderer, sys: System, step: Step)
    requires IsFileStep(step)
    ensures Hidden(sys.db, Apply(render, sys, step).0.db)
  {
    hide Hidden, Planned, UploadAbandoned, ExportPrepared, ExportAbandoned;
    match step
    case PlanUpload(p, actor, t, f, candidate) => PlannedIsHidden(sys, p, actor, t, f, candidate);
    case AbandonUpload(p, rejected) => UploadAbandonedIsHidden(sys, p, rejected);
    case PrepareExport(p, name, f, c) => ExportPreparedIsHidden(render, sys, p, name, f, c);
    case AbandonExport(p) => ExportAbandonedIsHidden(sys, p);
    case Expire(e) => KeepsTickets(sys.db, ExpireExport(sys.db, e));
  }

  /** The remaining steps leave every row the checkpoint knows, and the records and events, as they are. */
  lemma QuietStepIsHidden(render: Renderer, sys: System, step: Step)
    requires !IsCrud(step) && !IsRecorded(step) && !IsFileStep(step)
    ensures Hidden(sys.db, Apply(render, sys, step).0.db)
  {
    hide Loaded, LoadRefusal, Collectable;
  }

  lemma OtherStepIsHidden(render: Renderer, sys: System, step: Step)
    requires !IsCrud(step)
    ensures Hidden(sys.db, Apply(render, sys, step).0.db)
  {
    hide Apply, Hidden;
    if IsRecorded(step) {
      RecordedStepIsHidden(render, sys, step);
    } else if IsFileStep(step) {
      FileStepIsHidden(render, sys, step);
    } else {
      QuietStepIsHidden(render, sys, step);
    }
  }

  lemma KeepsTickets(s: State, after: State)
    requires after == s.(uploads := after.uploads, exports := after.exports, files := after.files,
                         candidates := after.candidates, cleanups := after.cleanups)
    ensures Hidden(s, after)
  {
  }

  /** Every committed step is one step of the checkpoint with the same reply, or shows in nothing it knows. */
  lemma StepRefines(render: Renderer, sys: System, step: Step)
    requires Reachable(render, sys)
    ensures if IsCrud(step)
            then ApplyCrud(Forget(sys.db), step) == (Forget(Apply(render, sys, step).0.db), Apply(render, sys, step).1)
            else Forget(Apply(render, sys, step).0.db) == Forget(sys.db)
  {
    ReachableIsSafe(render, sys);
    if IsCrud(step) {
      CrudStepRefines(render, sys, step);
    } else {
      OtherStepIsHidden(render, sys, step);
      HiddenIsForgotten(sys.db, Apply(render, sys, step).0.db);
    }
  }

  // ----- whole runs -----------------------------------------------------------------------------------

  function CrudSteps(steps: seq<Step>): (r: seq<Step>)
    ensures forall i :: 0 <= i < |r| ==> IsCrud(r[i])
  {
    if steps == [] then []
    else (if IsCrud(steps[0]) then [steps[0]] else []) + CrudSteps(steps[1..])
  }

  /** The checkpoint's final state and its replies in order. */
  function RunCrud(c: Crud, steps: seq<Step>): (Crud, seq<Reply>)
    requires forall i :: 0 <= i < |steps| ==> IsCrud(steps[i])
    decreases |steps|
  {
    if steps == [] then (c, [])
    else
      var (next, reply) := ApplyCrud(c, steps[0]);
      var (final, replies) := RunCrud(next, steps[1..]);
      (final, [reply] + replies)
  }

  /** The replies the full module gave to the steps the checkpoint has. */
  function CrudReplies(render: Renderer, sys: System, steps: seq<Step>): seq<Reply>
    decreases |steps|
  {
    if steps == [] then []
    else
      var (next, reply) := Apply(render, sys, steps[0]);
      (if IsCrud(steps[0]) then [reply] else []) + CrudReplies(render, next, steps[1..])
  }

  lemma ReachableStep(render: Renderer, sys: System, step: Step)
    requires Reachable(render, sys)
    ensures Reachable(render, Apply(render, sys, step).0)
  {
    assert [step][1..] == [];
    assert Run(render, sys, [step]) == Run(render, Apply(render, sys, step).0, []);
    RunStaysReachable(render, sys, [step]);
  }

  lemma RunCrudFirst(c: Crud, step: Step, rest: seq<Step>)
    requires IsCrud(step) && forall i :: 0 <= i < |rest| ==> IsCrud(rest[i])
    ensures var (next, reply) := ApplyCrud(c, step);
            RunCrud(c, [step] + rest) == (RunCrud(next, rest).0, [reply] + RunCrud(next, rest).1)
  {
    assert ([step] + rest)[1..] == rest;
  }

  /** One step of the induction, for a step whose outcome is known. */
  lemma FirstRefines(c: Crud, next: Crud, steps: seq<Step>, reply: Reply, final: Crud, replies: seq<Reply>)
    requires steps != []
    requires if IsCrud(steps[0]) then ApplyCrud(c, steps[0]) == (next, reply) else next == c
    requires RunCrud(next, CrudSteps(steps[1..])) == (final, replies)
    ensures RunCrud(c, CrudSteps(steps)) == (final, (if IsCrud(steps[0]) then [reply] else []) + replies)
  {
    if IsCrud(steps[0]) {
      RunCrudFirst(c, steps[0], CrudSteps(steps[1..]));
    } else {
      assert CrudSteps(steps) == CrudSteps(steps[1..]);
      assert [] + replies == replies;
    }
  }

  /**
   * Over any run, the full module answers ticket requests exactly as the
   * checkpoint would if uploads, exports, files and jobs did not exist.
   */
  lemma {:induction false} RunRefines(render: Renderer, sys: System, steps: seq<Step>)
    requires Reachable(render, sys)
    ensures RunCrud(Forget(sys.db), CrudSteps(steps))
         == (Forget(Run(render, sys, steps).db), CrudReplies(render, sys, steps))
    decreases |steps|
  {
    if steps != [] {
      var (next, reply) := Apply(render, sys, steps[0]);
      StepRefines(render, sys, steps[0]);
      ReachableStep(render, sys, steps[0]);
      RunRefines(render, next, steps[1..]);
      FirstRefines(Forget(sys.db), Forget(next.db), steps, reply, Forget(Run(render, next, steps[1..]).db),
                   CrudReplies(render, next, steps[1..]));
    }
  }
}
