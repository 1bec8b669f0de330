/** Every reachable state is safe, and every later state evolved from every earlier one. */
module TicketRuns {
  import opened TicketDomain
  import opened TicketModel
  import opened TicketTransactions
  import opened TicketSystem
  import opened TicketLedger
  import opened TicketEvolution
  import opened TicketSafety

  // ----- requests --------------------------------------------------------------------------------

  lemma CreateStep(render: Renderer, sys: System, actor: Id, title: string, description: string, key: string, id: Id,
                   stamp: int, purge: set<RecordKey>)
    requires Safe(render, sys)
    ensures Advances(render, sys, CreateAnswered(sys, actor, New(title, description), key, id, stamp, purge).0)
  {
    if New(title, description).Some? {
      var content := New(title, description).value;
      AcceptedIsStable(title, description);
      CreateCommits(render, sys.db, actor, content, key, id, stamp, purge);
      OrdinaryStepIsSafe(render, sys, Create(sys.db, actor, content, key, id, stamp, purge).0);
    } else {
      EvolvesReflexive(sys.db);
    }
  }

  lemma UpdateStep(render: Renderer, sys: System, actor: Id, t: Id, title: string, description: string, status: Status,
                   version: int, stamp: int)
    requires Safe(render, sys)
    ensures Advances(render, sys, UpdateAnswered(sys, actor, t, New(title, description), status, version, stamp).0)
  {
    if New(title, description).Some? {
      var content := New(title, description).value;
      AcceptedIsStable(title, description);
      UpdateCommits(render, sys.db, actor, t, content, status, version, stamp);
      OrdinaryStepIsSafe(render, sys, Update(sys.db, actor, t, content, status, version, stamp).0);
    } else {
      EvolvesReflexive(sys.db);
    }
  }

  lemma DeleteStep(render: Renderer, sys: System, actor: Id, t: Id, stamp: int)
    requires Safe(render, sys)
    ensures Advances(render, sys, sys.(db := Remove(sys.db, actor, t, stamp).0))
  {
    RemoveCommits(render, sys.db, actor, t, stamp);
    OrdinaryStepIsSafe(render, sys, Remove(sys.db, actor, t, stamp).0);
  }

  lemma StartStep(render: Renderer, sys: System, actor: Id, t: Id, input: UploadInput, key: string, id: Id,
                    lifetime: nat, purge: set<RecordKey>)
    requires Safe(render, sys)
    ensures Advances(render, sys, sys.(db := RegisterUpload(sys.db, actor, t, input, key, id, lifetime, purge).0))
  {
    RegisterCommits(render, sys.db, actor, t, input, key, id, lifetime, purge);
    OrdinaryStepIsSafe(render, sys, RegisterUpload(sys.db, actor, t, input, key, id, lifetime, purge).0);
  }

  lemma DetachStep(render: Renderer, sys: System, actor: Id, t: Id, f: Id)
    requires Safe(render, sys)
    ensures Advances(render, sys, sys.(db := RemoveAttachment(sys.db, actor, t, f).0))
  {
    DetachCommits(render, sys.db, actor, t, f);
    OrdinaryStepIsSafe(render, sys, RemoveAttachment(sys.db, actor, t, f).0);
  }

  lemma RequestStep(render: Renderer, sys: System, actor: Id, session: Id, t: Id, spelling: string, key: string,
                      e: Id, job: Id, purge: set<RecordKey>)
    requires Safe(render, sys)
    ensures Advances(render, sys,
                     sys.(db := CreateExport(render, sys.db, actor, session, t, spelling, key, e, job, purge).0))
  {
    RequestCommits(render, sys.db, actor, session, t, spelling, key, e, job, purge);
    OrdinaryStepIsSafe(render, sys, CreateExport(render, sys.db, actor, session, t, spelling, key, e, job, purge).0);
  }

  // ----- completing an upload ------------------------------------------------------------------------

  lemma PlannedIsSafe(render: Renderer, sys: System, actor: Id, t: Id, f: Id, candidate: Id, after: System)
    requires Safe(render, sys) && after == sys.(db := after.db)
    requires after.db == PlanCompletion(sys.db, actor, t, f, candidate)
    ensures Advances(render, sys, after)
  {
    PlanCommits(render, sys.db, actor, t, f, candidate);
    OrdinaryStepIsSafe(render, sys, after.db);
  }

  lemma PlanStep(render: Renderer, sys: System, p: Id, actor: Id, t: Id, f: Id, candidate: Id)
    requires Safe(render, sys)
    ensures Advances(render, sys, Planned(sys, p, actor, t, f, candidate).0)
  {
    if PlanOf(sys.db, actor, t, f, candidate) == Ok(Attempt(candidate)) {
      AttemptedIsSafe(render, sys, p, actor, t, f, candidate);
    } else {
      PlannedIsSafe(render, sys, actor, t, f, candidate, Planned(sys, p, actor, t, f, candidate).0);
    }
  }

  lemma VerifyStep(render: Renderer, sys: System, p: Id, staged: string)
    requires Safe(render, sys)
    ensures Advances(render, sys, Verified(sys, p, staged))
  {
    EvolvesReflexive(sys.db);
    VerifyIsSafe(render, sys, p, staged);
  }

  lemma FinishStep(render: Renderer, sys: System, p: Id, actor: Id, session: Id, t: Id)
    requires Safe(render, sys)
    ensures Advances(render, sys, UploadFinished(sys, p, actor, session, t).0)
  {
    if p in sys.completions && sys.completions[p].verified {
      FinishIsSafe(render, sys, actor, session, t, sys.completions[p].target);
    } else {
      EvolvesReflexive(sys.db);
    }
  }

  lemma AbandonIsSafe(render: Renderer, sys: System, target: Target, rejected: bool, after: System)
    requires Safe(render, sys) && after == sys.(db := after.db)
    requires after.db == AbandonAttempt(sys.db, target.file, target.candidate, rejected)
    ensures Advances(render, sys, after)
  {
    AbandonCommits(render, sys.db, target.file, target.candidate, rejected);
    OrdinaryStepIsSafe(render, sys, after.db);
  }

  lemma AbandonUploadStep(render: Renderer, sys: System, p: Id, rejected: bool)
    requires Safe(render, sys)
    ensures Advances(render, sys, UploadAbandoned(sys, p, rejected))
  {
    if p in sys.completions {
      AbandonIsSafe(render, sys, sys.completions[p].target, rejected, UploadAbandoned(sys, p, rejected));
    } else {
      EvolvesReflexive(sys.db);
    }
  }

  // ----- the export worker -----------------------------------------------------------------------------

  lemma LoadedWorkerOk(render: Renderer, s: State, objects: map<Id, string>, lease: Lease)
    requires SnapshotsOk(render, s.exports) && LoadRefusal(render, s, lease).None?
    ensures WorkerOk(render, s, objects, Loaded(s, lease))
  {
  }

  lemma LoadStep(render: Renderer, sys: System, p: Id, lease: Lease)
    requires Safe(render, sys)
    ensures Advances(render, sys, ExportLoaded(render, sys, p, lease).0)
  {
    EvolvesReflexive(sys.db);
    if LoadRefusal(render, sys.db, lease).None? {
      LoadedWorkerOk(render, sys.db, sys.objects, lease);
      NewWorkerIsSafe(render, sys, p, Loaded(sys.db, lease));
    }
  }

  lemma PrepareStep(render: Renderer, sys: System, p: Id, name: string, f: Id, c: Id)
    requires Safe(render, sys)
    ensures Advances(render, sys, ExportPrepared(render, sys, p, name, f, c).0)
  {
    EvolvesReflexive(sys.db);
    if p in sys.workers && render(sys.workers[p].work.snapshot).Some? {
      var w := sys.workers[p];
      var text := render(w.work.snapshot).value;
      if PrepareRefusal(sys.db, w.lease, w.work, text, f, c).None? {
        PreparedIsSafe(render, sys, p, w, name, text, f, c);
      }
    }
  }

  lemma WriteStep(render: Renderer, sys: System, p: Id)
    requires Safe(render, sys)
    ensures Advances(render, sys, Written(render, sys, p))
  {
    EvolvesReflexive(sys.db);
    WriteIsSafe(render, sys, p);
  }

  lemma PublishStep(render: Renderer, sys: System, p: Id)
    requires Safe(render, sys)
    ensures Advances(render, sys, ExportPublished(sys, p).0)
  {
    if p in sys.workers && sys.workers[p].written && sys.workers[p].target.Some? {
      PublishIsSafe(render, sys, sys.workers[p]);
    } else {
      EvolvesReflexive(sys.db);
    }
  }

  lemma AbandonExportStep(render: Renderer, sys: System, p: Id)
    requires Safe(render, sys)
    ensures Advances(render, sys, ExportAbandoned(sys, p))
  {
    if p in sys.workers && sys.workers[p].target.Some? {
      AbandonIsSafe(render, sys, sys.workers[p].target.value, false, ExportAbandoned(sys, p));
    } else {
      EvolvesReflexive(sys.db);
    }
  }

  // ----- maintenance, jobs and surroundings --------------------------------------------------------------

  lemma ExpireIsSafe(render: Renderer, sys: System, e: Id, after: System)
    requires Safe(render, sys) && after == sys.(db := after.db) && after.db == ExpireExport(sys.db, e)
    ensures Advances(render, sys, after)
  {
    ExpireCommits(render, sys.db, e);
    OrdinaryStepIsSafe(render, sys, after.db);
  }

  lemma ExpireStep(render: Renderer, sys: System, e: Id)
    requires Safe(render, sys)
    ensures Advances(render, sys, sys.(db := ExpireExport(sys.db, e)))
  {
    ExpireIsSafe(render, sys, e, sys.(db := ExpireExport(sys.db, e)));
  }

  lemma SweepIsSafe(render: Renderer, sys: System, f: Id, after: System)
    requires Safe(render, sys) && after == sys.(db := after.db) && after.db == Swept(sys.db, f)
    ensures Advances(render, sys, after)
  {
    SweepCommits(render, sys.db, f);
    OrdinaryStepIsSafe(render, sys, after.db);
  }

  lemma SweepStep(render: Renderer, sys: System, f: Id)
    requires Safe(render, sys)
    ensures Advances(render, sys, sys.(db := Swept(sys.db, f)))
  {
    SweepIsSafe(render, sys, f, sys.(db := Swept(sys.db, f)));
  }

  lemma CollectStep(render: Renderer, sys: System, c: Id)
    requires Safe(render, sys)
    ensures Advances(render, sys, Collected(sys, c))
  {
    EvolvesReflexive(sys.db);
    if Collectable(sys.db, c) {
      CollectIsSafe(render, sys, c);
    }
  }

  /** One job row that had not succeeded changes, and still has not. */
  ghost predicate ChangesJob(s: State, after: State, j: Id) {
    && j in s.jobs && j in after.jobs && after == s.(jobs := s.jobs[j := after.jobs[j]])
    && !s.jobs[j].status.Succeeded? && !after.jobs[j].status.Succeeded?
    && after.jobs[j].exportId == s.jobs[j].exportId
  }

  /** At most one job row changes, and nothing else. */
  ghost predicate MovesJob(sys: System, after: System) {
    after == sys.(db := after.db) && (after.db == sys.db || exists j :: ChangesJob(sys.db, after.db, j))
  }

  lemma JobMoveIsSafe(render: Renderer, sys: System, after: System)
    requires Safe(render, sys) && MovesJob(sys, after)
    ensures Advances(render, sys, after)
  {
    if after.db == sys.db {
      NothingCommits(render, sys.db);
    } else {
      var j :| ChangesJob(sys.db, after.db, j);
      JobStepCommits(render, sys.db, j, after.db.jobs[j]);
    }
    OrdinaryStepIsSafe(render, sys, after.db);
  }

  lemma ClaimedMoves(sys: System, j: Id, token: Id, seconds: nat)
    ensures MovesJob(sys, sys.(db := Claimed(sys.db, j, token, seconds)))
  {
    assert Claimed(sys.db, j, token, seconds) != sys.db ==> ChangesJob(sys.db, Claimed(sys.db, j, token, seconds), j);
  }

  lemma RetriedMoves(sys: System, j: Id)
    ensures MovesJob(sys, sys.(db := Retried(sys.db, j)))
  {
    assert Retried(sys.db, j) != sys.db ==> ChangesJob(sys.db, Retried(sys.db, j), j);
  }

  lemma RenewedMoves(sys: System, lease: Lease, seconds: nat)
    ensures MovesJob(sys, sys.(db := Renewed(sys.db, lease, seconds)))
  {
    assert Renewed(sys.db, lease, seconds) != sys.db ==>
        ChangesJob(sys.db, Renewed(sys.db, lease, seconds), lease.job);
  }

  lemma FailedMoves(sys: System, lease: Lease, transient: bool)
    ensures MovesJob(sys, sys.(db := FailedJob(sys.db, lease, transient)))
  {
    assert FailedJob(sys.db, lease, transient) != sys.db ==>
        ChangesJob(sys.db, FailedJob(sys.db, lease, transient), lease.job);
  }

  lemma JobStepMoves(render: Renderer, sys: System, step: Step)
    requires step.ClaimJob? || step.RetryJob? || step.RenewLease? || step.FailJob?
    ensures MovesJob(sys, Apply(render, sys, step).0)
  {
    hide MovesJob, Claimed, Retried, Renewed, FailedJob;
    match step
    case ClaimJob(j, token, seconds) => ClaimedMoves(sys, j, token, seconds);
    case RetryJob(j) => RetriedMoves(sys, j);
    case RenewLease(lease, seconds) => RenewedMoves(sys, lease, seconds);
    case FailJob(lease, transient) => FailedMoves(sys, lease, transient);
  }

  lemma SurroundedOnly(s: State, step: Step)
    ensures s.now <= Surrounded(s, step).now
    ensures var after := Surrounded(s, step);
            after == s.(now := after.now, members := after.members, sessions := after.sessions)
  {
  }

  lemma SurroundingIsSafe(render: Renderer, sys: System, step: Step, after: System)
    requires Safe(render, sys) && after == sys.(db := after.db) && after.db == Surrounded(sys.db, step)
    ensures Advances(render, sys, after)
  {
    SurroundedOnly(sys.db, step);
    SurroundingsCommit(render, sys.db, after.db);
    OrdinaryStepIsSafe(render, sys, after.db);
  }

  /** Time, memberships and sessions change no row of this module. */
  lemma SurroundingStep(render: Renderer, sys: System, step: Step)
    requires Safe(render, sys) && (step.Tick? || step.SetMember? || step.SetSession?)
    ensures Advances(render, sys, Apply(render, sys, step).0)
  {
    SurroundingIsSafe(render, sys, step, Apply(render, sys, step).0);
  }

  // ----- any step ----------------------------------------------------------------------------------------

  lemma RequestSteps(render: Renderer, sys: System, step: Step)
    requires Safe(render, sys)
    requires step.CreateTicket? || step.UpdateTicket? || step.DeleteTicket?
             || step.StartUpload? || step.DeleteAttachment? || step.RequestExport?
    ensures Advances(render, sys, Apply(render, sys, step).0)
  {
    hide Advances, CreateAnswered, UpdateAnswered, Remove, RegisterUpload, RemoveAttachment, CreateExport;
    match step
    case CreateTicket(actor, title, description, key, id, stamp, purge) =>
      CreateStep(render, sys, actor, title, description, key, id, stamp, purge);
    case UpdateTicket(actor, t, title, description, status, version, stamp) =>
      UpdateStep(render, sys, actor, t, title, description, status, version, stamp);
    case DeleteTicket(actor, t, stamp) => DeleteStep(render, sys, actor, t, stamp);
    case StartUpload(actor, t, input, key, id, lifetime, purge) =>
      StartStep(render, sys, actor, t, input, key, id, lifetime, purge);
    case DeleteAttachment(actor, t, f) => DetachStep(render, sys, actor, t, f);
    case RequestExport(actor, session, t, spelling, key, e, job, purge) =>
      RequestStep(render, sys, actor, session, t, spelling, key, e, job, purge);
  }

  lemma UploadSteps(render: Renderer, sys: System, step: Step)
    requires Safe(render, sys)
    requires step.PlanUpload? || step.VerifyUpload? || step.FinishUpload? || step.AbandonUpload?
    ensures Advances(render, sys, Apply(render, sys, step).0)
  {
    hide Advances, Planned, Verified, UploadFinished, UploadAbandoned;
    match step
    case PlanUpload(p, actor, t, f, candidate) => PlanStep(render, sys, p, actor, t, f, candidate);
    case VerifyUpload(p, staged) => VerifyStep(render, sys, p, staged);
    case FinishUpload(p, actor, session, t) => FinishStep(render, sys, p, actor, session, t);
    case AbandonUpload(p, rejected) => AbandonUploadStep(render, sys, p, rejected);
  }

  lemma WorkerSteps(render: Renderer, sys: System, step: Step)
    requires Safe(render, sys)
    requires step.LoadExport? || step.PrepareExport? || step.WriteExport? || step.PublishExport? || step.AbandonExport?
    ensures Advances(render, sys, Apply(render, sys, step).0)
  {
    hide Advances, ExportLoaded, ExportPrepared, Written, ExportPublished, ExportAbandoned;
    match step
    case LoadExport(p, lease) => LoadStep(render, sys, p, lease);
    case PrepareExport(p, name, f, c) => PrepareStep(render, sys, p, name, f, c);
    case WriteExport(p) => WriteStep(render, sys, p);
    case PublishExport(p) => PublishStep(render, sys, p);
    case AbandonExport(p) => AbandonExportStep(render, sys, p);
  }

  lemma JobSteps(render: Renderer, sys: System, step: Step)
    requires Safe(render, sys) && (step.ClaimJob? || step.RenewLease? || step.FailJob? || step.RetryJob?)
    ensures Advances(render, sys, Apply(render, sys, step).0)
  {
    hide Apply, Advances;
    JobStepMoves(render, sys, step);
    JobMoveIsSafe(render, sys, Apply(render, sys, step).0);
  }

  lemma MaintenanceSteps(render: Renderer, sys: System, step: Step)
    requires Safe(render, sys) && (step.Expire? || step.SweepFile? || step.CollectObject?)
    ensures Advances(render, sys, Apply(render, sys, step).0)
  {
    hide Advances, ExpireExport, Swept, Collected;
    match step
    case Expire(e) => ExpireStep(render, sys, e);
    case SweepFile(f) => SweepStep(render, sys, f);
    case CollectObject(c) => CollectStep(render, sys, c);
  }

  /** Every step of every process keeps the invariant, whatever happened in between, and its rows evolve. */
  lemma StepIsSafe(render: Renderer, sys: System, step: Step)
    requires Safe(render, sys)
    ensures Advances(render, sys, Apply(render, sys, step).0)
  {
    if step.CreateTicket? || step.UpdateTicket? || step.DeleteTicket?
       || step.StartUpload? || step.DeleteAttachment? || step.RequestExport? {
      RequestSteps(render, sys, step);
    } else if step.PlanUpload? || step.VerifyUpload? || step.FinishUpload? || step.AbandonUpload? {
      UploadSteps(render, sys, step);
    } else if step.LoadExport? || step.PrepareExport? || step.WriteExport? || step.PublishExport?
              || step.AbandonExport? {
      WorkerSteps(render, sys, step);
    } else if step.ClaimJob? || step.RenewLease? || step.FailJob? || step.RetryJob? {
      JobSteps(render, sys, step);
    } else if step.Expire? || step.SweepFile? || step.CollectObject? {
      MaintenanceSteps(render, sys, step);
    } else if step.ReadTicket? || step.ListTickets? {
      EvolvesReflexive(sys.db);
    } else {
      SurroundingStep(render, sys, step);
    }
  }

  /** A safe system stays safe over any run, and its rows evolve. */
  lemma {:induction false} RunIsSafe(render: Renderer, sys: System, steps: seq<Step>)
    requires Safe(render, sys)
    ensures Safe(render, Run(render, sys, steps))
    ensures Evolves(sys.db, Run(render, sys, steps).db)
    decreases |steps|
  {
    if steps == [] {
      EvolvesReflexive(sys.db);
    } else {
      var next := Apply(render, sys, steps[0]).0;
      StepIsSafe(render, sys, steps[0]);
      RunIsSafe(render, next, steps[1..]);
      EvolvesTransitive(sys.db, next.db, Run(render, next, steps[1..]).db);
    }
  }
}
