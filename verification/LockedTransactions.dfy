/**
 * What the row locks give the transactions: a transaction that ran statement by
 * statement commits exactly what its atomic step does at that moment, because
 * what it read of tickets, uploads and exports is still what is committed.
 */
module LockedTransactions {
  import opened Basics
  import opened TicketDomain
  import opened TicketModel
  import opened TicketTransactions
  import opened TicketSystem
  import opened TicketLedger
  import opened TicketSafety
  import opened TicketRuns
  import opened TicketGuarantees
  import Locks = StatementLocks

  // ----- which transaction a step is -------------------------------------------------------------

  /** The export row a request inserts, before it has its snapshot. */
  function Draft(s: State, actor: Id, session: Id, t: Id, job: Id): ExportRow {
    ExportRow(t, actor, session, job, None, None, s.now + EXPORT_RETENTION)
  }

  /** The locking transaction that commits the step, if it locks ticket or export rows. */
  function KindOf(sys: System, step: Step): Option<Locks.Kind> {
    match step
    case ReadTicket(_, t) => Some(Locks.ReadTicket(t))
    case UpdateTicket(_, t, title, description, status, version, stamp) =>
      var content := New(title, description);
      if content.Some? then Some(Locks.EditTicket(t, version, content.value, status, stamp)) else None
    case DeleteTicket(_, t, stamp) => Some(Locks.RemoveTicket(t, stamp))
    case StartUpload(_, t, _, _, id, _, _) => Some(Locks.AddUpload(t, id))
    case PlanUpload(_, _, t, _, _) => Some(Locks.WriteTicket(t))
    case FinishUpload(p, _, _, t) =>
      if p in sys.completions then Some(Locks.FinishUpload(t, sys.completions[p].target.file)) else None
    case DeleteAttachment(_, t, f) => Some(Locks.DropUpload(t, f))
    case RequestExport(actor, session, t, _, _, e, job, _) =>
      Some(Locks.AddExport(t, e, Draft(sys.db, actor, session, t, job), sys.db.files))
    case PublishExport(p) =>
      if p in sys.workers && sys.workers[p].target.Some?
      then Some(Locks.PublishExport(sys.workers[p].work.row.ticket, sys.workers[p].lease.exportId,
                                    sys.workers[p].target.value.file))
      else None
    case Expire(e) => if e in sys.db.exports then Some(Locks.ExpireExport(sys.db.exports[e].ticket, e)) else None
    case _ => None
  }

  /** The transaction run alone on these rows: it has read what they are now. */
  function Alone(s: State, kind: Locks.Kind): Locks.Tx {
    var t := kind.ticket;
    Locks.Tx(kind, [], map[], true, if t in s.tickets then Some(s.tickets[t]) else None,
             Some(Locks.Counts(s.uploads, s.exports, kind)), Some(PublishedOf(s.uploads, t)))
  }

  ghost predicate KeepsRows(s: State, after: State) {
    after.tickets == s.tickets && after.uploads == s.uploads && after.exports == s.exports
  }

  /** The rows change as the transaction of this kind commits them. */
  ghost predicate CommitsAs(s: State, after: State, kind: Locks.Kind) {
    && after.tickets == Locks.CommittedTickets(s.tickets, Alone(s, kind))
    && after.uploads == Locks.CommittedUploads(s.uploads, kind)
    && after.exports == Locks.CommittedExports(s.exports, Alone(s, kind))
  }

  // ----- what else a step checks -----------------------------------------------------------------

  predicate MayUse(s: State, actor: Id, t: Id) {
    actor in s.members && (!s.members[actor].Member? || (t in s.tickets && s.tickets[t].ticket.createdBy == actor))
  }

  predicate Unclaimed(s: State, k: RecordKey) {
    ValidKey(k.key) && !LiveRecord(s, k)
  }

  predicate RequestChecks(render: Renderer, s: State, actor: Id, session: Id, t: Id, k: RecordKey, e: Id, job: Id) {
    && MayUse(s, actor, t) && Current(s, actor, session) && Unclaimed(s, k)
    && AllReady(s.files, Sorted(PublishedOf(s.uploads, t)))
    && (t in s.tickets ==> render(SnapshotOf(s, t)).Some?)
    && job !in s.jobs && e !in s.exports
  }

  predicate RemoveChecks(s: State, actor: Id, t: Id) {
    && MayUse(s, actor, t)
    && |UploadsOf(s.uploads, t)| <= MAX_ASSOCIATIONS && |LiveExportsOf(s.exports, t)| <= MAX_LIVE_EXPORTS
    && FilesOf(s.uploads, s.exports, t) <= s.files.Keys
    && (t in s.tickets ==> s.tickets[t].ticket.version != MAX_VERSION)
  }

  /**
   * The step's checks on memberships, sessions, keys, files and leases, and on
   * rows only its last statements look at. A request under a key already used is
   * a replay, which is another kind of transaction.
   */
  ghost predicate OtherChecks(render: Renderer, sys: System, step: Step) {
    var s := sys.db;
    match step
    case ReadTicket(actor, t) => MayUse(s, actor, t)
    case UpdateTicket(actor, t, _, _, _, version, _) => MayUse(s, actor, t) && version != MAX_VERSION
    case DeleteTicket(actor, t, _) => RemoveChecks(s, actor, t)
    case StartUpload(actor, t, input, key, id, _, _) =>
      MayUse(s, actor, t) && Unclaimed(s, RecordKey(actor, UploadScope(t), key)) && ValidInput(input)
      && id !in s.files && id !in s.uploads
    case PlanUpload(_, actor, t, f, candidate) => PlanOf(s, actor, t, f, candidate).Ok?
    case FinishUpload(p, actor, session, t) => Apply(render, sys, step).1 == FinishReply(Ok(true))
    case DeleteAttachment(actor, t, f) => MayUse(s, actor, t) && Associated(s, t, f) && f in s.files
    case RequestExport(actor, session, t, spelling, key, e, job, _) =>
      RequestChecks(render, s, actor, session, t, RecordKey(actor, ExportScope(t, spelling), key), e, job)
    case PublishExport(p) => Apply(render, sys, step).1 == WorkReply(None)
    case Expire(e) => Due(s, e) && FileOf(s.exports[e]) <= s.files.Keys
    case _ => true
  }

  /** The step commits exactly as its kind if every check passes, and otherwise changes nothing. */
  ghost predicate ActsAs(s: State, after: State, kind: Locks.Kind, granted: bool) {
    if granted && Locks.Passes(Alone(s, kind)) then CommitsAs(s, after, kind) else KeepsRows(s, after)
  }

  // ----- one transaction -----------------------------------------------------------------------

  lemma AccessSplits(s: State, actor: Id, t: Id)
    ensures AccessRefusal(s, actor, t).None? <==> MayUse(s, actor, t) && t in s.tickets && !s.tickets[t].deleted
  {
  }

  lemma UpdateActs(s: State, actor: Id, t: Id, content: Content, status: Status, version: int, stamp: int)
    ensures ActsAs(s, Update(s, actor, t, content, status, version, stamp).0,
                   Locks.EditTicket(t, version, content, status, stamp), MayUse(s, actor, t) && version != MAX_VERSION)
  {
    hide AccessRefusal, MayUse, PublishedOf;
    AccessSplits(s, actor, t);
  }

  lemma RegisterActs(s: State, actor: Id, t: Id, input: UploadInput, key: string, id: Id, lifetime: nat,
                     purge: set<RecordKey>)
    requires RecordsOk(s)
    ensures ActsAs(s, RegisterUpload(s, actor, t, input, key, id, lifetime, purge).0, Locks.AddUpload(t, id),
                   MayUse(s, actor, t) && Unclaimed(s, RecordKey(actor, UploadScope(t), key)) && ValidInput(input)
                   && id !in s.files && id !in s.uploads)
  {
    hide AccessRefusal, MayUse, ValidInput, NewFile, PublishedOf, UploadsOf;
    AccessSplits(s, actor, t);
  }

  lemma DetachActs(s: State, actor: Id, t: Id, f: Id)
    ensures ActsAs(s, RemoveAttachment(s, actor, t, f).0, Locks.DropUpload(t, f),
                   MayUse(s, actor, t) && Associated(s, t, f) && f in s.files)
  {
    hide AccessRefusal, MayUse, PublishedOf;
    AccessSplits(s, actor, t);
  }

  lemma RemoveActs(s: State, actor: Id, t: Id, stamp: int)
    ensures ActsAs(s, Remove(s, actor, t, stamp).0, Locks.RemoveTicket(t, stamp), RemoveChecks(s, actor, t))
  {
    hide AccessRefusal, MayUse, PublishedOf, UploadsOf, LiveExportsOf, FilesOf;
    AccessSplits(s, actor, t);
  }

  lemma RequestActs(render: Renderer, s: State, actor: Id, session: Id, t: Id, spelling: string, key: string,
                    e: Id, job: Id, purge: set<RecordKey>)
    requires RecordsOk(s)
    ensures ActsAs(s, CreateExport(render, s, actor, session, t, spelling, key, e, job, purge).0,
                   Locks.AddExport(t, e, Draft(s, actor, session, t, job), s.files),
                   RequestChecks(render, s, actor, session, t, RecordKey(actor, ExportScope(t, spelling), key), e, job))
  {
    hide AccessRefusal, MayUse, AllReady, PublishedOf, LiveExportsOf, Snapshots;
    AccessSplits(s, actor, t);
  }

  lemma FinishActs(s: State, actor: Id, session: Id, t: Id, f: Id, c: Id)
    ensures var (after, answer) := PublishUpload(s, actor, session, t, f, c);
            ActsAs(s, after, Locks.FinishUpload(t, f), answer == Ok(true))
  {
    hide AccessRefusal, MayUse, PublishedOf;
    AccessSplits(s, actor, t);
  }

  lemma PublishActs(s: State, lease: Lease, work: Work, f: Id, c: Id)
    requires lease.exportId in s.exports ==> s.exports[lease.exportId].ticket == work.row.ticket
    ensures ActsAs(s, PublishWork(s, lease, work, f, c), Locks.PublishExport(work.row.ticket, lease.exportId, f),
                   PublishRefusal(s, lease, work, f, c).None?)
  {
    hide AccessRefusal, MayUse, PublicationOf, PublishedOf, AllReady, Snapshots, AssociatedAmong;
    AccessSplits(s, work.row.requestedBy, work.row.ticket);
  }

  lemma ExpireActs(s: State, e: Id)
    requires e in s.exports
    ensures ActsAs(s, ExpireExport(s, e), Locks.ExpireExport(s.exports[e].ticket, e),
                   Due(s, e) && FileOf(s.exports[e]) <= s.files.Keys)
  {
    hide PublishedOf;
  }

  // ----- one step ---------------------------------------------------------------------------------

  lemma UploadFinishedActs(sys: System, p: Id, actor: Id, session: Id, t: Id)
    requires p in sys.completions
    ensures var (after, reply) := UploadFinished(sys, p, actor, session, t);
            ActsAs(sys.db, after.db, Locks.FinishUpload(t, sys.completions[p].target.file),
                   reply == FinishReply(Ok(true)))
  {
    hide ActsAs, PublishUpload;
    KeptActs(sys.db, Locks.FinishUpload(t, sys.completions[p].target.file));
    FinishActs(sys.db, actor, session, t, sys.completions[p].target.file, sys.completions[p].target.candidate);
  }

  lemma ExportPublishedActs(render: Renderer, sys: System, p: Id)
    requires ProcessesOk(render, sys) && p in sys.workers && sys.workers[p].target.Some?
    ensures var w := sys.workers[p];
            var (after, reply) := ExportPublished(sys, p);
            ActsAs(sys.db, after.db,
                   Locks.PublishExport(w.work.row.ticket, w.lease.exportId, w.target.value.file),
                   reply == WorkReply(None))
  {
    hide ActsAs, PublishWork, PublishRefusal;
    var w := sys.workers[p];
    assert WorkerOk(render, sys.db, sys.objects, w);
    KeptActs(sys.db, Locks.PublishExport(w.work.row.ticket, w.lease.exportId, w.target.value.file));
    PublishActs(sys.db, w.lease, w.work, w.target.value.file, w.target.value.candidate);
  }

  lemma KeptActs(s: State, kind: Locks.Kind)
    ensures ActsAs(s, s, kind, false)
  {
  }

  lemma PlannedActs(sys: System, p: Id, actor: Id, t: Id, f: Id, candidate: Id, granted: bool)
    ensures ActsAs(sys.db, Planned(sys, p, actor, t, f, candidate).0.db, Locks.WriteTicket(t), granted)
  {
    hide PlanOf, PublishedOf;
  }

  lemma ReadActs(s: State, t: Id, granted: bool)
    ensures ActsAs(s, s, Locks.ReadTicket(t), granted)
  {
  }

  lemma UpdateAnsweredActs(sys: System, actor: Id, t: Id, content: Option<Content>, status: Status, version: int,
                           stamp: int)
    requires content.Some?
    ensures ActsAs(sys.db, UpdateAnswered(sys, actor, t, content, status, version, stamp).0.db,
                   Locks.EditTicket(t, version, content.value, status, stamp),
                   MayUse(sys.db, actor, t) && version != MAX_VERSION)
  {
    hide ActsAs, Update, MayUse;
    UpdateActs(sys.db, actor, t, content.value, status, version, stamp);
  }

  lemma TicketStepActs(render: Renderer, sys: System, step: Step, kind: Locks.Kind)
    requires step.ReadTicket? || step.UpdateTicket? || step.PlanUpload? || step.DeleteTicket?
    requires KindOf(sys, step) == Some(kind)
    ensures ActsAs(sys.db, Apply(render, sys, step).0.db, kind, OtherChecks(render, sys, step))
  {
    hide ActsAs, UpdateAnswered, Planned, Remove, New, MayUse, RemoveChecks;
    match step
    case ReadTicket(actor, t) => ReadActs(sys.db, t, MayUse(sys.db, actor, t));
    case UpdateTicket(actor, t, title, description, status, version, stamp) =>
      UpdateAnsweredActs(sys, actor, t, New(title, description), status, version, stamp);
    case PlanUpload(p, actor, t, f, candidate) =>
      PlannedActs(sys, p, actor, t, f, candidate, PlanOf(sys.db, actor, t, f, candidate).Ok?);
    case DeleteTicket(actor, t, stamp) => RemoveActs(sys.db, actor, t, stamp);
  }

  lemma ProcessStepActs(render: Renderer, sys: System, step: Step, kind: Locks.Kind)
    requires ProcessesOk(render, sys) && KindOf(sys, step) == Some(kind)
    requires step.FinishUpload? || step.PublishExport? || step.Expire?
    ensures ActsAs(sys.db, Apply(render, sys, step).0.db, kind, OtherChecks(render, sys, step))
  {
    hide ProcessesOk, ActsAs, UploadFinished, ExportPublished, ExpireExport;
    match step
    case FinishUpload(p, actor, session, t) => UploadFinishedActs(sys, p, actor, session, t);
    case PublishExport(p) => ExportPublishedActs(render, sys, p);
    case Expire(e) => ExpireActs(sys.db, e);
  }

  lemma RequestStepActs(render: Renderer, sys: System, step: Step, kind: Locks.Kind)
    requires RecordsOk(sys.db) && KindOf(sys, step) == Some(kind)
    requires step.StartUpload? || step.DeleteAttachment? || step.RequestExport?
    ensures ActsAs(sys.db, Apply(render, sys, step).0.db, kind, OtherChecks(render, sys, step))
  {
    hide ActsAs, RegisterUpload, RemoveAttachment, CreateExport, MayUse, Unclaimed, RequestChecks, Draft;
    match step
    case StartUpload(actor, t, input, key, id, lifetime, purge) =>
      RegisterActs(sys.db, actor, t, input, key, id, lifetime, purge);
    case DeleteAttachment(actor, t, f) => DetachActs(sys.db, actor, t, f);
    case RequestExport(actor, session, t, spelling, key, e, job, purge) =>
      RequestActs(render, sys.db, actor, session, t, spelling, key, e, job, purge);
  }

  /**
   * Every step with locks commits exactly what its locking transaction commits,
   * if its checks on these rows and its other checks pass, and otherwise changes
   * no ticket, upload or export.
   */
  lemma StepActsAsItsKind(render: Renderer, sys: System, step: Step, kind: Locks.Kind)
    requires Reachable(render, sys) && KindOf(sys, step) == Some(kind)
    ensures ActsAs(sys.db, Apply(render, sys, step).0.db, kind, OtherChecks(render, sys, step))
  {
    hide Apply, ActsAs, OtherChecks;
    ReachableIsSafe(render, sys);
    SafeProcesses(render, sys);
    SafeRecords(render, sys);
    if step.FinishUpload? || step.PublishExport? || step.Expire? {
      ProcessStepActs(render, sys, step, kind);
    } else if step.ReadTicket? || step.UpdateTicket? || step.PlanUpload? || step.DeleteTicket? {
      TicketStepActs(render, sys, step, kind);
    } else {
      RequestStepActs(render, sys, step, kind);
    }
  }

  lemma FileStepKeepsRows(render: Renderer, sys: System, step: Step)
    requires step.AbandonUpload? || step.PrepareExport? || step.AbandonExport?
    ensures KeepsRows(sys.db, Apply(render, sys, step).0.db)
  {
    hide PrepareRefusal;
  }

  lemma JobStepKeepsRows(render: Renderer, sys: System, step: Step)
    requires step.ClaimJob? || step.RenewLease? || step.FailJob? || step.RetryJob?
    ensures KeepsRows(sys.db, Apply(render, sys, step).0.db)
  {
    hide Apply;
    JobStepMoves(render, sys, step);
  }

  lemma QuietStepKeepsRows(render: Renderer, sys: System, step: Step)
    requires KindOf(sys, step).None? && !step.CreateTicket?
    requires !(step.AbandonUpload? || step.PrepareExport? || step.AbandonExport?)
    requires !(step.ClaimJob? || step.RenewLease? || step.FailJob? || step.RetryJob?)
    ensures KeepsRows(sys.db, Apply(render, sys, step).0.db)
  {
    hide LoadRefusal, Loaded, Collectable;
  }

  /** All other steps but the creation of a ticket change no ticket, upload or export. */
  lemma UnlockedStepKeepsRows(render: Renderer, sys: System, step: Step)
    requires KindOf(sys, step).None? && !step.CreateTicket?
    ensures KeepsRows(sys.db, Apply(render, sys, step).0.db)
  {
    hide Apply, KeepsRows;
    if step.AbandonUpload? || step.PrepareExport? || step.AbandonExport? {
      FileStepKeepsRows(render, sys, step);
    } else if step.ClaimJob? || step.RenewLease? || step.FailJob? || step.RetryJob? {
      JobStepKeepsRows(render, sys, step);
    } else {
      QuietStepKeepsRows(render, sys, step);
    }
  }

  /** A new ticket, not deleted, and nothing else. */
  ghost predicate InsertsTicket(s: State, after: State, t: Id) {
    && t !in s.tickets && t in after.tickets && !after.tickets[t].deleted
    && after.tickets == s.tickets[t := after.tickets[t]] && after.uploads == s.uploads && after.exports == s.exports
  }

  lemma CreateInserts(s: State, actor: Id, content: Content, key: string, id: Id, stamp: int, purge: set<RecordKey>)
    ensures var after := Create(s, actor, content, key, id, stamp, purge).0;
            KeepsRows(s, after) || InsertsTicket(s, after, id)
  {
    hide ClaimKey, Completed;
    var k := RecordKey(actor, TicketScope, key);
    var claim := ClaimKey(s, k, OfTicket(content), purge);
    if CreateRefusal(s, actor, k, id, claim).Some? {
      assert Create(s, actor, content, key, id, stamp, purge).0 == s;
    } else if claim.saved.Some? {
      assert Create(s, actor, content, key, id, stamp, purge).0 == s.(records := claim.records);
    } else {
      assert InsertsTicket(s, Create(s, actor, content, key, id, stamp, purge).0, id);
    }
  }

  /** Creating a ticket inserts its row at most, or changes nothing. */
  lemma CreateStepInserts(render: Renderer, sys: System, step: Step)
    requires step.CreateTicket?
    ensures var after := Apply(render, sys, step).0.db;
            KeepsRows(sys.db, after) || InsertsTicket(sys.db, after, step.id)
  {
    hide Create;
    if New(step.title, step.description).Some? {
      CreateInserts(sys.db, step.actor, New(step.title, step.description).value, step.key, step.id, step.stamp,
                    step.purge);
    }
  }

  // ----- statement by statement ---------------------------------------------------------------------

  /** Both see the same tickets, uploads and exports. */
  ghost predicate Shows(s: State, locks: Locks.LockState) {
    s.tickets == locks.tickets && s.uploads == locks.uploads && s.exports == locks.exports
  }

  /** What the transaction read is what it would read alone now. */
  lemma ReadsAsAlone(s: State, locks: Locks.LockState, tx: Locks.Tx)
    requires Shows(s, locks) && Locks.ReadsCurrent(locks, tx) && Locks.Finished(tx)
    requires tx.seen.Some? || Locks.Passes(tx)
    ensures Locks.Passes(tx) <==> Locks.Passes(Alone(s, tx.kind))
    ensures Locks.CommittedTickets(s.tickets, tx) == Locks.CommittedTickets(s.tickets, Alone(s, tx.kind))
    ensures Locks.CommittedExports(s.exports, tx) == Locks.CommittedExports(s.exports, Alone(s, tx.kind))
    ensures Locks.SnapshotRead(tx) == Locks.SnapshotRead(Alone(s, tx.kind))
  {
    hide Snapshots, PublishedOf, UploadsOf, LiveExportsOf;
  }

  lemma CommitsWhatAloneCommits(s: State, after: State, locks: Locks.LockState, x: Id)
    requires Locks.Sound(locks) && Locks.Enabled(locks, Locks.Commit(x)) && Shows(s, locks)
    requires ActsAs(s, after, locks.txs[x].kind, true)
    ensures Shows(after, Locks.Next(locks, Locks.Commit(x)))
  {
    hide Locks.TxOk, Locks.CommittedTickets, Locks.CommittedUploads, Locks.CommittedExports, Alone;
    assert Locks.ReadsCurrent(locks, locks.txs[x]);
    ReadsAsAlone(s, locks, locks.txs[x]);
  }

  /**
   * The commit of a transaction that ran statement by statement, among any
   * others, is one atomic step: if the step's other checks still pass, it leaves
   * exactly the tickets, uploads and exports the commit leaves, and refuses
   * nothing for what the transaction had read of them.
   */
  lemma CommitIsOneStep(states: seq<Locks.LockState>, steps: seq<Locks.Step>, i: nat, x: Id,
                        render: Renderer, sys: System, step: Step)
    requires Locks.IsRun(states, steps) && i < |steps| && steps[i] == Locks.Commit(x)
    requires Reachable(render, sys) && Shows(sys.db, states[i]) && x in states[i].txs
    requires KindOf(sys, step) == Some(states[i].txs[x].kind)
    ensures var after := Apply(render, sys, step).0.db;
            if OtherChecks(render, sys, step) then Shows(after, states[i + 1]) else KeepsRows(sys.db, after)
  {
    hide Apply, OtherChecks, Locks.Sound;
    Locks.RunIsSound(states, steps, i);
    StepActsAsItsKind(render, sys, step, states[i].txs[x].kind);
    if OtherChecks(render, sys, step) {
      CommitsWhatAloneCommits(sys.db, Apply(render, sys, step).0.db, states[i], x);
    }
  }

  /** The snapshot a request froze of what it read is the one of the rows it commits on. */
  lemma FrozenIsCommitted(states: seq<Locks.LockState>, steps: seq<Locks.Step>, i: nat, x: Id, sys: System, step: Step)
    requires Locks.IsRun(states, steps) && i < |steps| && steps[i] == Locks.Commit(x)
    requires Shows(sys.db, states[i]) && x in states[i].txs && step.RequestExport?
    requires KindOf(sys, step) == Some(states[i].txs[x].kind)
    ensures step.ticket in sys.db.tickets
    ensures Locks.SnapshotRead(states[i].txs[x]) == Some(SnapshotOf(sys.db, step.ticket))
  {
    hide Snapshots;
    Locks.ReadsHoldAtCommit(states, steps, i, x);
    ReadsAsAlone(sys.db, states[i], states[i].txs[x]);
  }

  /**
   * And a transaction that refuses for what it read of a ticket that exists, such
   * as too many rows or another version, refuses what the atomic step refuses.
   */
  lemma RefusalIsOneStep(states: seq<Locks.LockState>, steps: seq<Locks.Step>, i: nat, x: Id,
                         render: Renderer, sys: System, step: Step)
    requires Locks.IsRun(states, steps) && i < |states| && x in states[i].txs
    requires Locks.Finished(states[i].txs[x]) && !Locks.Passes(states[i].txs[x]) && states[i].txs[x].seen.Some?
    requires Reachable(render, sys) && Shows(sys.db, states[i]) && KindOf(sys, step) == Some(states[i].txs[x].kind)
    ensures KeepsRows(sys.db, Apply(render, sys, step).0.db)
  {
    hide Apply, OtherChecks, Locks.TxOk, Locks.Passes;
    Locks.RunIsSound(states, steps, i);
    assert Locks.ReadsCurrent(states[i], states[i].txs[x]);
    ReadsAsAlone(sys.db, states[i], states[i].txs[x]);
    StepActsAsItsKind(render, sys, step, states[i].txs[x].kind);
  }

  /** In particular, once it has counted too many rows the atomic step inserts none. */
  lemma CountedOutInsertsNothing(states: seq<Locks.LockState>, steps: seq<Locks.Step>, i: nat, x: Id,
                                 render: Renderer, sys: System, step: Step)
    requires Locks.IsRun(states, steps) && i < |states| && x in states[i].txs
    requires states[i].txs[x].counted.Some? && states[i].txs[x].counted.value >= Locks.LIMIT
    requires Reachable(render, sys) && Shows(sys.db, states[i]) && KindOf(sys, step) == Some(states[i].txs[x].kind)
    ensures KeepsRows(sys.db, Apply(render, sys, step).0.db)
  {
    hide Apply, OtherChecks;
    Locks.RunIsSound(states, steps, i);
    var tx := states[i].txs[x];
    assert Locks.TxOk(tx) && Locks.ReadsCurrent(states[i], tx);
    StepActsAsItsKind(render, sys, step, tx.kind);
  }
}
