/** Leases on export jobs: who may work, for how long, and what a worker that lost its lease still does. */
module TicketLeases {
  import opened Basics
  import opened TicketModel
  import opened TicketTransactions
  import opened TicketSystem
  import opened TicketGuarantees

  /** The job is gone, finished or waiting, has been claimed by another worker, or its time is over. */
  predicate IsStale(s: State, lease: Lease) {
    || lease.job !in s.jobs
    || s.jobs[lease.job].status != Running
    || s.jobs[lease.job].token != lease.token
    || s.jobs[lease.job].leaseUntil <= s.now
  }

  // ----- what a stale worker does ----------------------------------------------------------------

  /** A worker with a stale lease loads nothing. */
  lemma StaleLoadStops(render: Renderer, sys: System, p: Id, lease: Lease)
    requires IsStale(sys.db, lease)
    ensures Apply(render, sys, LoadExport(p, lease)).0 == sys
    ensures Apply(render, sys, LoadExport(p, lease)).1 != WorkReply(None)
  {
    hide WorkRefusal, Loaded;
  }

  /** Nor does it prepare a file or publish one. */
  lemma StaleWorkerStops(render: Renderer, sys: System, p: Id, name: string, f: Id, c: Id)
    requires p in sys.workers && IsStale(sys.db, sys.workers[p].lease)
    ensures var (after, reply) := Apply(render, sys, PrepareExport(p, name, f, c));
            after == sys && reply != WorkReply(None)
    ensures var (after, reply) := Apply(render, sys, PublishExport(p));
            after.db == sys.db && reply != WorkReply(None)
  {
    PrepareStops(render, sys, p, name, f, c);
    PublishStops(render, sys, p);
  }

  lemma PrepareStops(render: Renderer, sys: System, p: Id, name: string, f: Id, c: Id)
    requires p in sys.workers && IsStale(sys.db, sys.workers[p].lease)
    ensures var (after, reply) := Apply(render, sys, PrepareExport(p, name, f, c));
            after == sys && reply != WorkReply(None)
  {
    hide WorkRefusal, PrepareWork;
  }

  lemma PublishStops(render: Renderer, sys: System, p: Id)
    requires p in sys.workers && IsStale(sys.db, sys.workers[p].lease)
    ensures var (after, reply) := Apply(render, sys, PublishExport(p));
            after.db == sys.db && reply != WorkReply(None)
  {
    hide WorkRefusal, Awaits, PublicationOf;
  }

  /** The load transaction answers that the lease is lost exactly when all it asks before is in order. */
  lemma LoadLosesExactlyWhenStale(render: Renderer, sys: System, p: Id, lease: Lease)
    ensures Apply(render, sys, LoadExport(p, lease)).1 == WorkReply(Some(LostLease))
       <==> && IsStale(sys.db, lease)
            && lease.exportId in sys.db.exports && sys.db.exports[lease.exportId].job == lease.job
            && var row := sys.db.exports[lease.exportId];
            && row.snapshot.Some? && render(row.snapshot.value).Some?
            && WorkRefusal(sys.db, row, row.snapshot.value).None?
  {
    hide Loaded;
  }

  /** So do the other two. */
  lemma WorkerLosesExactlyWhenStale(render: Renderer, sys: System, p: Id, name: string, f: Id, c: Id)
    requires p in sys.workers && render(sys.workers[p].work.snapshot).Some?
    ensures Apply(render, sys, PrepareExport(p, name, f, c)).1 == WorkReply(Some(LostLease))
       <==> IsStale(sys.db, sys.workers[p].lease)
            && WorkRefusal(sys.db, sys.workers[p].work.row, sys.workers[p].work.snapshot).None?
    ensures sys.workers[p].written && sys.workers[p].target.Some? ==>
              (Apply(render, sys, PublishExport(p)).1 == WorkReply(Some(LostLease))
          <==> IsStale(sys.db, sys.workers[p].lease)
               && WorkRefusal(sys.db, sys.workers[p].work.row, sys.workers[p].work.snapshot).None?)
  {
    WorkNeverLosesItsLease(sys.db, sys.workers[p].work.row, sys.workers[p].work.snapshot);
    PrepareLoses(render, sys, p, name, f, c);
    if sys.workers[p].written && sys.workers[p].target.Some? {
      PublishLoses(render, sys, p);
    }
  }

  lemma WorkNeverLosesItsLease(s: State, row: ExportRow, snapshot: Snapshot)
    ensures WorkRefusal(s, row, snapshot) != Some(LostLease)
  {
  }

  lemma PrepareLoses(render: Renderer, sys: System, p: Id, name: string, f: Id, c: Id)
    requires p in sys.workers && render(sys.workers[p].work.snapshot).Some?
    requires WorkRefusal(sys.db, sys.workers[p].work.row, sys.workers[p].work.snapshot) != Some(LostLease)
    ensures Apply(render, sys, PrepareExport(p, name, f, c)).1 == WorkReply(Some(LostLease))
       <==> IsStale(sys.db, sys.workers[p].lease)
            && WorkRefusal(sys.db, sys.workers[p].work.row, sys.workers[p].work.snapshot).None?
  {
    hide WorkRefusal, PrepareWork;
  }

  lemma PublishLoses(render: Renderer, sys: System, p: Id)
    requires p in sys.workers && sys.workers[p].written && sys.workers[p].target.Some?
    requires WorkRefusal(sys.db, sys.workers[p].work.row, sys.workers[p].work.snapshot) != Some(LostLease)
    ensures Apply(render, sys, PublishExport(p)).1 == WorkReply(Some(LostLease))
       <==> IsStale(sys.db, sys.workers[p].lease)
            && WorkRefusal(sys.db, sys.workers[p].work.row, sys.workers[p].work.snapshot).None?
  {
    hide WorkRefusal, Awaits, PublicationOf;
  }

  // ----- claiming, renewing and failing ----------------------------------------------------------

  /** The job may be given to a worker: it waits, or the worker that had it let its time pass. */
  predicate IsFree(job: Job, now: int) {
    job.status == Queued || job.status == RetryWait || (job.status == Running && job.leaseUntil <= now)
  }

  /**
   * Claiming gives a free job with attempts left to the worker, for the time asked
   * for, and counts the attempt; a job that ran out of time on its last attempt
   * fails; and a job somebody works on in time, or that has ended, stays as it is.
   */
  lemma ClaimAnswers(render: Renderer, sys: System, j: Id, token: Id, seconds: nat)
    requires j in sys.db.jobs
    ensures var job, now := sys.db.jobs[j], sys.db.now;
            Apply(render, sys, ClaimJob(j, token, seconds)).0
            == sys.(db := sys.db.(jobs := sys.db.jobs[j :=
                 if IsFree(job, now) && job.attempts < job.maxAttempts
                 then Job(job.exportId, Running, token, now + seconds, job.attempts + 1, job.maxAttempts)
                 else if job.status == Running && job.leaseUntil <= now then job.(status := JobStatus.Failed)
                 else job]))
  {
  }

  /** The holder of a current lease renews it and may fail its job; anybody else changes nothing. */
  lemma RenewAnswers(render: Renderer, sys: System, lease: Lease, seconds: nat)
    ensures Apply(render, sys, RenewLease(lease, seconds)).0
         == if IsStale(sys.db, lease) then sys
            else sys.(db := sys.db.(jobs := sys.db.jobs[lease.job :=
                   sys.db.jobs[lease.job].(leaseUntil := sys.db.now + seconds)]))
  {
  }

  lemma FailAnswers(render: Renderer, sys: System, lease: Lease, transient: bool)
    ensures Apply(render, sys, FailJob(lease, transient)).0
         == if IsStale(sys.db, lease) then sys
            else
              var job := sys.db.jobs[lease.job];
              sys.(db := sys.db.(jobs := sys.db.jobs[lease.job :=
                job.(status := if transient && job.attempts < job.maxAttempts then RetryWait else JobStatus.Failed)]))
  {
  }

  /** A failed job starts over when it is retried by hand. */
  lemma RetryAnswers(render: Renderer, sys: System, j: Id)
    ensures Apply(render, sys, RetryJob(j)).0
         == if j in sys.db.jobs && sys.db.jobs[j].status == JobStatus.Failed
            then sys.(db := sys.db.(jobs := sys.db.jobs[j :=
                   sys.db.jobs[j].(status := Queued, attempts := 0, leaseUntil := 0)]))
            else sys
  {
  }

  // ----- jobs over runs --------------------------------------------------------------------------

  lemma TicketRowsKeepJobs(s: State)
    ensures forall actor, content, key, id, stamp, purge ::
              Create(s, actor, content, key, id, stamp, purge).0.jobs == s.jobs
    ensures forall actor, t, content, status, version, stamp ::
              Update(s, actor, t, content, status, version, stamp).0.jobs == s.jobs
  {
  }

  lemma RemovalsKeepJobs(s: State)
    ensures forall actor, t, stamp :: Remove(s, actor, t, stamp).0.jobs == s.jobs
    ensures forall actor, t, f :: RemoveAttachment(s, actor, t, f).0.jobs == s.jobs
  {
  }

  lemma UploadsKeepJobs(s: State)
    ensures forall actor, t, input, key, id, lifetime, purge ::
              RegisterUpload(s, actor, t, input, key, id, lifetime, purge).0.jobs == s.jobs
  {
  }

  lemma CompletionsKeepJobs(s: State)
    ensures forall actor, t, f, c :: PlanCompletion(s, actor, t, f, c).jobs == s.jobs
    ensures forall actor, session, t, f, c :: PublishUpload(s, actor, session, t, f, c).0.jobs == s.jobs
  {
  }

  lemma AttemptsKeepJobs(s: State)
    ensures forall f, c, rejected :: AbandonAttempt(s, f, c, rejected).jobs == s.jobs
    ensures forall lease, work, name, text, f, c :: PrepareWork(s, lease, work, name, text, f, c).jobs == s.jobs
  {
  }

  lemma RequestKeepsJobs(render: Renderer, sys: System, step: Step)
    requires step.CreateTicket? || step.UpdateTicket? || step.DeleteTicket? || step.ReadTicket? || step.ListTickets?
             || step.StartUpload? || step.DeleteAttachment?
    ensures Apply(render, sys, step).0.db.jobs == sys.db.jobs
  {
    TicketRowsKeepJobs(sys.db);
    RemovalsKeepJobs(sys.db);
    UploadsKeepJobs(sys.db);
    hide Create, Update, Remove, RegisterUpload, RemoveAttachment;
  }

  lemma UploadKeepsJobs(render: Renderer, sys: System, step: Step)
    requires step.PlanUpload? || step.VerifyUpload? || step.FinishUpload? || step.AbandonUpload?
    ensures Apply(render, sys, step).0.db.jobs == sys.db.jobs
  {
    CompletionsKeepJobs(sys.db);
    AttemptsKeepJobs(sys.db);
    hide PlanOf, PlanCompletion, PublishUpload, AbandonAttempt;
  }

  lemma WorkerKeepsJobs(render: Renderer, sys: System, step: Step)
    requires step.LoadExport? || step.PrepareExport? || step.WriteExport? || step.AbandonExport?
    ensures Apply(render, sys, step).0.db.jobs == sys.db.jobs
  {
    AttemptsKeepJobs(sys.db);
    hide LoadRefusal, Loaded, PrepareRefusal, PrepareWork, AbandonAttempt;
  }

  lemma OutsideKeepsJobs(render: Renderer, sys: System, step: Step)
    requires step.Expire? || step.SweepFile? || step.CollectObject? || step.Tick? || step.SetMember? || step.SetSession?
    ensures Apply(render, sys, step).0.db.jobs == sys.db.jobs
  {
    hide Collectable, Due;
  }

  /** What one step does to a job that exists: it keeps its export, and only a claim changes its token. */
  ghost predicate KeepsToken(s: State, after: State, step: Step, j: Id)
    requires j in s.jobs
  {
    && j in after.jobs && after.jobs[j].exportId == s.jobs[j].exportId
    && (after.jobs[j].token == s.jobs[j].token
        || (step.ClaimJob? && step.job == j && after.jobs[j].token == step.token))
  }

  lemma RequestKeepsTokens(render: Renderer, s: State, actor: Id, session: Id, t: Id, spelling: string, key: string,
                           e: Id, job: Id, purge: set<RecordKey>)
    ensures var after := CreateExport(render, s, actor, session, t, spelling, key, e, job, purge).0;
            forall j :: j in s.jobs ==> j in after.jobs && after.jobs[j] == s.jobs[j]
  {
    hide ClaimKey, SnapshotOf, AllReady, PublishedOf;
  }

  lemma PublishKeepsTokens(s: State, lease: Lease, work: Work, f: Id, c: Id)
    ensures var after := PublishWork(s, lease, work, f, c);
            forall j :: j in s.jobs ==>
              j in after.jobs && after.jobs[j].token == s.jobs[j].token && after.jobs[j].exportId == s.jobs[j].exportId
  {
    hide WorkRefusal, PublicationOf, Awaits;
  }

  lemma ExportStepKeepsTokens(render: Renderer, sys: System, step: Step, j: Id)
    requires (step.RequestExport? || step.PublishExport?) && j in sys.db.jobs
    ensures KeepsToken(sys.db, Apply(render, sys, step).0.db, step, j)
  {
    hide CreateExport, PublishWork;
    match step
    case RequestExport(actor, session, t, spelling, key, e, job, purge) =>
      RequestKeepsTokens(render, sys.db, actor, session, t, spelling, key, e, job, purge);
    case PublishExport(p) =>
      if p in sys.workers && sys.workers[p].target.Some? {
        var w := sys.workers[p];
        PublishKeepsTokens(sys.db, w.lease, w.work, w.target.value.file, w.target.value.candidate);
      }
  }

  lemma JobStepKeepsTokens(render: Renderer, sys: System, step: Step, j: Id)
    requires (step.RenewLease? || step.FailJob? || step.RetryJob?) && j in sys.db.jobs
    ensures KeepsToken(sys.db, Apply(render, sys, step).0.db, step, j)
  {
    hide Apply;
    match step
    case RenewLease(lease, seconds) => RenewAnswers(render, sys, lease, seconds);
    case FailJob(lease, transient) => FailAnswers(render, sys, lease, transient);
    case RetryJob(i) => RetryAnswers(render, sys, i);
  }

  lemma ClaimKeepsTokens(render: Renderer, sys: System, step: Step, j: Id)
    requires step.ClaimJob? && j in sys.db.jobs
    ensures KeepsToken(sys.db, Apply(render, sys, step).0.db, step, j)
  {
    if step.job in sys.db.jobs {
      hide Apply;
      ClaimAnswers(render, sys, step.job, step.token, step.seconds);
    }
  }

  lemma StepKeepsToken(render: Renderer, sys: System, step: Step, j: Id)
    requires j in sys.db.jobs
    ensures KeepsToken(sys.db, Apply(render, sys, step).0.db, step, j)
  {
    hide Apply;
    if step.RequestExport? || step.PublishExport? {
      ExportStepKeepsTokens(render, sys, step, j);
    } else if step.ClaimJob? {
      ClaimKeepsTokens(render, sys, step, j);
    } else if step.RenewLease? || step.FailJob? || step.RetryJob? {
      JobStepKeepsTokens(render, sys, step, j);
    } else if step.PlanUpload? || step.VerifyUpload? || step.FinishUpload? || step.AbandonUpload? {
      UploadKeepsJobs(render, sys, step);
    } else if step.LoadExport? || step.PrepareExport? || step.WriteExport? || step.AbandonExport? {
      WorkerKeepsJobs(render, sys, step);
    } else if step.Expire? || step.SweepFile? || step.CollectObject? || step.Tick? || step.SetMember?
              || step.SetSession? {
      OutsideKeepsJobs(render, sys, step);
    } else {
      RequestKeepsJobs(render, sys, step);
    }
  }

  /** None of the steps gives the job to this lease's worker again. */
  ghost predicate NeverReclaims(steps: seq<Step>, lease: Lease) {
    forall i :: 0 <= i < |steps| ==> !(steps[i].ClaimJob? && steps[i].job == lease.job && steps[i].token == lease.token)
  }

  lemma {:induction false} LostStaysLost(render: Renderer, sys: System, steps: seq<Step>, lease: Lease)
    requires lease.job in sys.db.jobs && sys.db.jobs[lease.job].token != lease.token && NeverReclaims(steps, lease)
    ensures IsStale(Run(render, sys, steps).db, lease)
    decreases |steps|
  {
    if steps != [] {
      hide Apply;
      StepKeepsToken(render, sys, steps[0], lease.job);
      LostStaysLost(render, Apply(render, sys, steps[0]).0, steps[1..], lease);
    }
  }

  /**
   * Once a job was claimed by another worker, the lease it had before never
   * publishes again: whatever happens, short of claiming the job under the very
   * same token, its worker's attempts change nothing.
   */
  lemma OldLeaseNeverPublishes(render: Renderer, sys: System, claim: Step, steps: seq<Step>, p: Id, lost: Lease)
    requires claim.ClaimJob? && claim.job == lost.job && claim.token != lost.token && lost.job in sys.db.jobs
    requires var job := sys.db.jobs[lost.job];
             IsFree(job, sys.db.now) && job.attempts < job.maxAttempts
    requires NeverReclaims(steps, lost)
    requires var later := Run(render, Apply(render, sys, claim).0, steps);
             p in later.workers && later.workers[p].lease == lost
    ensures var later := Run(render, Apply(render, sys, claim).0, steps);
            var (after, reply) := Apply(render, later, PublishExport(p));
            after.db == later.db && reply != WorkReply(None)
  {
    hide Apply, Run;
    var next := Apply(render, sys, claim).0;
    ClaimAnswers(render, sys, claim.job, claim.token, claim.seconds);
    LostStaysLost(render, next, steps, lost);
    PublishStops(render, Run(render, next, steps), p);
  }

  // ----- attempts --------------------------------------------------------------------------------

  /** Every export job may be tried three times, and no more. */
  ghost predicate WithinAttempts(s: State) {
    forall j :: j in s.jobs ==> s.jobs[j].attempts <= s.jobs[j].maxAttempts == 3
  }

  lemma RequestKeepsAttempts(render: Renderer, s: State, actor: Id, session: Id, t: Id, spelling: string, key: string,
                             e: Id, job: Id, purge: set<RecordKey>)
    requires WithinAttempts(s)
    ensures WithinAttempts(CreateExport(render, s, actor, session, t, spelling, key, e, job, purge).0)
  {
    hide ClaimKey, SnapshotOf, AllReady, PublishedOf;
  }

  lemma PublishKeepsAttempts(s: State, lease: Lease, work: Work, f: Id, c: Id)
    requires WithinAttempts(s)
    ensures WithinAttempts(PublishWork(s, lease, work, f, c))
  {
    hide WorkRefusal, PublicationOf, Awaits;
  }

  lemma ExportStepKeepsAttempts(render: Renderer, sys: System, step: Step)
    requires (step.RequestExport? || step.PublishExport?) && WithinAttempts(sys.db)
    ensures WithinAttempts(Apply(render, sys, step).0.db)
  {
    hide CreateExport, PublishWork, WithinAttempts;
    match step
    case RequestExport(actor, session, t, spelling, key, e, job, purge) =>
      RequestKeepsAttempts(render, sys.db, actor, session, t, spelling, key, e, job, purge);
    case PublishExport(p) =>
      if p in sys.workers && sys.workers[p].target.Some? {
        var w := sys.workers[p];
        PublishKeepsAttempts(sys.db, w.lease, w.work, w.target.value.file, w.target.value.candidate);
      }
  }

  lemma JobStepKeepsAttempts(render: Renderer, sys: System, step: Step)
    requires (step.RenewLease? || step.FailJob? || step.RetryJob?) && WithinAttempts(sys.db)
    ensures WithinAttempts(Apply(render, sys, step).0.db)
  {
    hide Apply;
    match step
    case RenewLease(lease, seconds) => RenewAnswers(render, sys, lease, seconds);
    case FailJob(lease, transient) => FailAnswers(render, sys, lease, transient);
    case RetryJob(i) => RetryAnswers(render, sys, i);
  }

  lemma ClaimKeepsAttempts(render: Renderer, sys: System, step: Step)
    requires step.ClaimJob? && WithinAttempts(sys.db)
    ensures WithinAttempts(Apply(render, sys, step).0.db)
  {
    if step.job in sys.db.jobs {
      hide Apply;
      ClaimAnswers(render, sys, step.job, step.token, step.seconds);
    }
  }

  lemma StepKeepsAttempts(render: Renderer, sys: System, step: Step)
    requires WithinAttempts(sys.db)
    ensures WithinAttempts(Apply(render, sys, step).0.db)
  {
    hide Apply;
    if step.RequestExport? || step.PublishExport? {
      ExportStepKeepsAttempts(render, sys, step);
    } else if step.ClaimJob? {
      ClaimKeepsAttempts(render, sys, step);
    } else if step.RenewLease? || step.FailJob? || step.RetryJob? {
      JobStepKeepsAttempts(render, sys, step);
    } else if step.PlanUpload? || step.VerifyUpload? || step.FinishUpload? || step.AbandonUpload? {
      UploadKeepsJobs(render, sys, step);
    } else if step.LoadExport? || step.PrepareExport? || step.WriteExport? || step.AbandonExport? {
      WorkerKeepsJobs(render, sys, step);
    } else if step.Expire? || step.SweepFile? || step.CollectObject? || step.Tick? || step.SetMember?
              || step.SetSession? {
      OutsideKeepsJobs(render, sys, step);
    } else {
      RequestKeepsJobs(render, sys, step);
    }
  }

  lemma {:induction false} RunKeepsAttempts(render: Renderer, sys: System, steps: seq<Step>)
    requires WithinAttempts(sys.db)
    ensures WithinAttempts(Run(render, sys, steps).db)
    decreases |steps|
  {
    if steps != [] {
      hide Apply;
      StepKeepsAttempts(render, sys, steps[0]);
      RunKeepsAttempts(render, Apply(render, sys, steps[0]).0, steps[1..]);
    }
  }

  /** In every reachable state no export job has been tried more than three times. */
  lemma AttemptsAreBounded(render: Renderer, sys: System)
    requires Reachable(render, sys)
    ensures WithinAttempts(sys.db)
  {
    var start, steps :| Initial(start) && Run(render, start, steps) == sys;
    RunKeepsAttempts(render, start, steps);
  }
}
