/**
 * The whole system as a state machine: one atomic step per committed
 * transaction, per object-storage operation and per change in the surroundings.
 * Long operations are several steps, and any number of them are under way at
 * once, each remembered by what its process holds in memory.
 */
module TicketSystem {
  import opened Basics
  import opened TicketDomain
  import opened TicketModel
  import opened TicketTransactions
  import opened TicketList

  /** Where a completion attempt writes: a file row and its candidate. */
  datatype Target = Target(file: Id, candidate: Id)

  /** complete_upload between its planning and its publication. */
  datatype Completion = Completion(target: Target, verified: bool)

  /** ExportHandler::process after its load transaction. */
  datatype Worker = Worker(lease: Lease, work: Work, target: Option<Target>, written: bool)

  /** objects: the stored bytes, by candidate id. */
  datatype System = System(db: State, objects: map<Id, string>,
                           completions: map<Id, Completion>, workers: map<Id, Worker>)

  datatype Step =
    // requests
    | CreateTicket(actor: Id, title: string, description: string, key: string, id: Id, stamp: int,
                   purge: set<RecordKey>)
    | UpdateTicket(actor: Id, ticket: Id, title: string, description: string, status: Status, version: int,
                   stamp: int)
    | DeleteTicket(actor: Id, ticket: Id, stamp: int)
    | ReadTicket(actor: Id, ticket: Id)
    | ListTickets(actor: Id, limit: nat)
    | StartUpload(actor: Id, ticket: Id, input: UploadInput, key: string, id: Id, lifetime: nat,
                  purge: set<RecordKey>)
    | DeleteAttachment(actor: Id, ticket: Id, file: Id)
    | RequestExport(actor: Id, session: Id, ticket: Id, spelling: string, key: string, id: Id, job: Id,
                    purge: set<RecordKey>)
    // complete_upload, by the process p
    | PlanUpload(p: Id, actor: Id, ticket: Id, file: Id, candidate: Id)
    | VerifyUpload(p: Id, staged: string)
    | FinishUpload(p: Id, actor: Id, session: Id, ticket: Id)
    | AbandonUpload(p: Id, rejected: bool)
    // the export worker, by the process p
    | LoadExport(p: Id, lease: Lease)
    | PrepareExport(p: Id, name: string, file: Id, candidate: Id)
    | WriteExport(p: Id)
    | PublishExport(p: Id)
    | AbandonExport(p: Id)
    // maintenance
    | Expire(id: Id)
    | SweepFile(file: Id)
    | CollectObject(candidate: Id)
    // jobs
    | ClaimJob(job: Id, token: Id, seconds: nat)
    | RenewLease(lease: Lease, seconds: nat)
    | FailJob(lease: Lease, transient: bool)
    | RetryJob(job: Id)
    // surroundings
    | Tick(to: int)
    | SetMember(user: Id, role: Option<Role>)
    | SetSession(session: Id, holder: Option<Id>)

  datatype Reply =
    | TicketReply(ticket: Outcome<Ticket>)
    | ListReply(page: Outcome<seq<Ticket>>)
    | UploadReply(upload: Outcome<Id>)
    | ExportReply(exp: Outcome<Id>)
    | PlanReply(plan: Outcome<Plan>)
    | FinishReply(published: Outcome<bool>)
    | RemoveReply(removed: Outcome<()>)
    | WorkReply(refusal: Option<JobError>)
    | NoReply

  // ----- jobs, files and objects outside this module ------------------------------

  /** jobs::claim: queued work, or running work whose lease ran out; without attempts left such work fails. */
  function ClaimedJob(job: Job, now: int, token: Id, seconds: nat): Job {
    var lapsed := job.status.Running? && job.leaseUntil <= now;
    if job.attempts < job.maxAttempts && (job.status.Queued? || job.status.RetryWait? || lapsed)
    then job.(status := Running, token := token, leaseUntil := now + seconds, attempts := job.attempts + 1)
    else if lapsed then job.(status := JobStatus.Failed)
    else job
  }

  function Claimed(s: State, j: Id, token: Id, seconds: nat): State {
    if j in s.jobs && !s.jobs[j].status.Succeeded?
    then s.(jobs := s.jobs[j := ClaimedJob(s.jobs[j], s.now, token, seconds)])
    else s
  }

  function Renewed(s: State, lease: Lease, seconds: nat): State {
    if HoldsLease(s, lease)
    then s.(jobs := s.jobs[lease.job := s.jobs[lease.job].(leaseUntil := s.now + seconds)])
    else s
  }

  function FailedJob(s: State, lease: Lease, transient: bool): State {
    if HoldsLease(s, lease) then
      var job := s.jobs[lease.job];
      var status := if transient && job.attempts < job.maxAttempts then RetryWait else JobStatus.Failed;
      s.(jobs := s.jobs[lease.job := job.(status := status)])
    else s
  }

  function Retried(s: State, j: Id): State {
    if j in s.jobs && s.jobs[j].status.Failed?
    then s.(jobs := s.jobs[j := s.jobs[j].(status := Queued, attempts := 0, leaseUntil := 0)])
    else s
  }

  /** The files module's own maintenance: unused uploads expire, marked files end deleted. */
  function Swept(s: State, f: Id): State {
    s.(files := if f !in s.files then s.files
                else if s.files[f].state.PendingUpload? && s.files[f].expiresAt <= s.now
                then WithState(s.files, f, Expired)
                else if s.files[f].state.Deleting? then WithState(s.files, f, Deleted)
                else s.files)
  }

  /** register_locations: which candidates' objects may be deleted from storage. */
  predicate Collectable(s: State, c: Id) {
    c in s.candidates && s.candidates[c].file in s.files &&
    var file := s.files[s.candidates[c].file];
    || file.state.Gone() || file.state.Expired? || file.state.Rejected?
    || (s.candidates[c].state.Abandoned? && file.readyCandidate != Some(c))
  }

  /** The clock only moves forward; memberships and sessions come and go. */
  function Surrounded(s: State, step: Step): State {
    match step
    case Tick(to) => s.(now := if s.now <= to then to else s.now)
    case SetMember(user, role) =>
      s.(members := if role.Some? then s.members[user := role.value] else s.members - {user})
    case SetSession(session, holder) =>
      s.(sessions := if holder.Some? then s.sessions[session := holder.value] else s.sessions - {session})
    case _ => s
  }

  /** What the worker keeps in memory after its load transaction. */
  function Loaded(s: State, lease: Lease): Worker
    requires lease.exportId in s.exports && s.exports[lease.exportId].snapshot.Some?
  {
    var row := s.exports[lease.exportId];
    Worker(lease, Work(row, row.snapshot.value), None, false)
  }

  // ----- one step ---------------------------------------------------------------------

  function CreateAnswered(sys: System, actor: Id, content: Option<Content>, key: string, id: Id, stamp: int,
                          purge: set<RecordKey>): (System, Reply)
  {
    if content.None? then (sys, TicketReply(Err(InvalidContent)))
    else
      var (after, answer) := Create(sys.db, actor, content.value, key, id, stamp, purge);
      (sys.(db := after), TicketReply(answer))
  }

  function UpdateAnswered(sys: System, actor: Id, t: Id, content: Option<Content>, status: Status, version: int,
                          stamp: int): (System, Reply)
  {
    if content.None? then (sys, TicketReply(Err(InvalidContent)))
    else
      var (after, answer) := Update(sys.db, actor, t, content.value, status, version, stamp);
      (sys.(db := after), TicketReply(answer))
  }

  function RemoveAnswered(sys: System, outcome: (State, Outcome<()>)): (System, Reply) {
    (sys.(db := outcome.0), RemoveReply(outcome.1))
  }

  function UploadAnswered(sys: System, outcome: (State, Outcome<Id>)): (System, Reply) {
    (sys.(db := outcome.0), UploadReply(outcome.1))
  }

  function ExportAnswered(sys: System, outcome: (State, Outcome<Id>)): (System, Reply) {
    (sys.(db := outcome.0), ExportReply(outcome.1))
  }

  /** complete_upload plans: a new attempt is remembered by its process. */
  function Planned(sys: System, p: Id, actor: Id, t: Id, f: Id, candidate: Id): (System, Reply) {
    var answer := PlanOf(sys.db, actor, t, f, candidate);
    var after := sys.(db := PlanCompletion(sys.db, actor, t, f, candidate));
    (if answer == Ok(Attempt(candidate))
     then after.(completions := sys.completions[p := Completion(Target(f, candidate), false)])
     else after, PlanReply(answer))
  }

  function UploadFinished(sys: System, p: Id, actor: Id, session: Id, t: Id): (System, Reply) {
    if p in sys.completions && sys.completions[p].verified then
      var target := sys.completions[p].target;
      var (after, answer) := PublishUpload(sys.db, actor, session, t, target.file, target.candidate);
      (sys.(db := after), FinishReply(answer))
    else (sys, NoReply)
  }

  function UploadAbandoned(sys: System, p: Id, rejected: bool): System {
    if p in sys.completions then
      var target := sys.completions[p].target;
      sys.(db := AbandonAttempt(sys.db, target.file, target.candidate, rejected))
    else sys
  }

  function ExportLoaded(render: Renderer, sys: System, p: Id, lease: Lease): (System, Reply) {
    var refusal := LoadRefusal(render, sys.db, lease);
    (if refusal.Some? then sys
     else sys.(workers := sys.workers[p := Loaded(sys.db, lease)]), WorkReply(refusal))
  }

  function ExportPrepared(render: Renderer, sys: System, p: Id, name: string, f: Id, c: Id): (System, Reply) {
    if p in sys.workers && render(sys.workers[p].work.snapshot).Some? then
      var w := sys.workers[p];
      var text := render(w.work.snapshot).value;
      var refusal := PrepareRefusal(sys.db, w.lease, w.work, text, f, c);
      (if refusal.Some? then sys
       else sys.(db := PrepareWork(sys.db, w.lease, w.work, name, text, f, c),
                 workers := sys.workers[p := w.(target := Some(Target(f, c)), written := false)]),
       WorkReply(refusal))
    else (sys, NoReply)
  }

  function ExportPublished(sys: System, p: Id): (System, Reply) {
    if p in sys.workers && sys.workers[p].written && sys.workers[p].target.Some? then
      var w := sys.workers[p];
      var target := w.target.value;
      (sys.(db := PublishWork(sys.db, w.lease, w.work, target.file, target.candidate)),
       WorkReply(PublishRefusal(sys.db, w.lease, w.work, target.file, target.candidate)))
    else (sys, NoReply)
  }

  function ExportAbandoned(sys: System, p: Id): System {
    if p in sys.workers && sys.workers[p].target.Some? then
      var target := sys.workers[p].target.value;
      sys.(db := AbandonAttempt(sys.db, target.file, target.candidate, false))
    else sys
  }

  function Collected(sys: System, c: Id): System {
    if Collectable(sys.db, c) then sys.(objects := sys.objects - {c}) else sys
  }

  /**
   * verify_candidate: copies whatever was staged to the candidate's key, unless
   * something is there already, and accepts it only if it matches the declared size
   * and digest.
   */
  function Verified(sys: System, p: Id, staged: string): System {
    if p !in sys.completions then sys
    else
      var target := sys.completions[p].target;
      if target.candidate in sys.objects then sys
      else
        var ok := target.file in sys.db.files && ByteLength(staged) == sys.db.files[target.file].size
                  && Sha256(staged) == sys.db.files[target.file].sha256;
        sys.(objects := sys.objects[target.candidate := staged],
             completions := sys.completions[p := Completion(target, ok)])
  }

  /** write_generated: a conditional put of the finished document. */
  function Written(render: Renderer, sys: System, p: Id): System {
    if p !in sys.workers || sys.workers[p].target.None? || render(sys.workers[p].work.snapshot).None? then sys
    else
      var w := sys.workers[p];
      if w.target.value.candidate in sys.objects then sys
      else sys.(objects := sys.objects[w.target.value.candidate := render(w.work.snapshot).value],
                workers := sys.workers[p := w.(written := true)])
  }

  function Apply(render: Renderer, sys: System, step: Step): (System, Reply) {
    var s := sys.db;
    match step
    case CreateTicket(actor, title, description, key, id, stamp, purge) =>
      CreateAnswered(sys, actor, New(title, description), key, id, stamp, purge)
    case UpdateTicket(actor, t, title, description, status, version, stamp) =>
      UpdateAnswered(sys, actor, t, New(title, description), status, version, stamp)
    case DeleteTicket(actor, t, stamp) => RemoveAnswered(sys, Remove(s, actor, t, stamp))
    case ReadTicket(actor, t) => (sys, TicketReply(Read(s, actor, t)))
    case ListTickets(actor, limit) => (sys, ListReply(List(s, actor, limit)))
    case StartUpload(actor, t, input, key, id, lifetime, purge) =>
      UploadAnswered(sys, RegisterUpload(s, actor, t, input, key, id, lifetime, purge))
    case DeleteAttachment(actor, t, f) => RemoveAnswered(sys, RemoveAttachment(s, actor, t, f))
    case RequestExport(actor, session, t, spelling, key, e, job, purge) =>
      ExportAnswered(sys, CreateExport(render, s, actor, session, t, spelling, key, e, job, purge))
    case PlanUpload(p, actor, t, f, candidate) => Planned(sys, p, actor, t, f, candidate)
    case VerifyUpload(p, staged) => (Verified(sys, p, staged), NoReply)
    case FinishUpload(p, actor, session, t) => UploadFinished(sys, p, actor, session, t)
    case AbandonUpload(p, rejected) => (UploadAbandoned(sys, p, rejected), NoReply)
    case LoadExport(p, lease) => ExportLoaded(render, sys, p, lease)
    case PrepareExport(p, name, f, c) => ExportPrepared(render, sys, p, name, f, c)
    case WriteExport(p) => (Written(render, sys, p), NoReply)
    case PublishExport(p) => ExportPublished(sys, p)
    case AbandonExport(p) => (ExportAbandoned(sys, p), NoReply)
    case Expire(e) => (sys.(db := ExpireExport(s, e)), NoReply)
    case SweepFile(f) => (sys.(db := Swept(s, f)), NoReply)
    case CollectObject(c) => (Collected(sys, c), NoReply)
    case ClaimJob(j, token, seconds) => (sys.(db := Claimed(s, j, token, seconds)), NoReply)
    case RenewLease(lease, seconds) => (sys.(db := Renewed(s, lease, seconds)), NoReply)
    case FailJob(lease, transient) => (sys.(db := FailedJob(s, lease, transient)), NoReply)
    case RetryJob(j) => (sys.(db := Retried(s, j)), NoReply)
    case _ => (sys.(db := Surrounded(s, step)), NoReply)
  }

  /** The state after a sequence of steps. */
  function Run(render: Renderer, sys: System, steps: seq<Step>): System
    decreases |steps|
  {
    if steps == [] then sys
    else Run(render, Apply(render, sys, steps[0]).0, steps[1..])
  }

  lemma {:induction false} RunAppend(render: Renderer, sys: System, a: seq<Step>, b: seq<Step>)
    ensures Run(render, sys, a + b) == Run(render, Run(render, sys, a), b)
    decreases |a|
  {
    if a == [] {
      assert a + b == b;
    } else {
      assert (a + b)[0] == a[0] && (a + b)[1..] == a[1..] + b;
      RunAppend(render, Apply(render, sys, a[0]).0, a[1..], b);
    }
  }

  lemma RunTwo(render: Renderer, sys: System, a: Step, b: Step)
    ensures Run(render, sys, [a, b]) == Apply(render, Apply(render, sys, a).0, b).0
  {
    var next := Apply(render, sys, a).0;
    assert [a, b][1..] == [b] && [b][1..] == [];
    assert Run(render, sys, [a, b]) == Run(render, next, [b]) == Run(render, Apply(render, next, b).0, []);
  }

  /** An empty database at some time: where every history of this module starts. */
  ghost predicate Initial(sys: System) {
    && sys.db.tickets == map[] && sys.db.uploads == map[] && sys.db.exports == map[]
    && sys.db.files == map[] && sys.db.candidates == map[] && sys.db.jobs == map[]
    && sys.db.records == map[] && sys.db.audit == [] && sys.db.cleanups == multiset{}
    && sys.objects == map[] && sys.completions == map[] && sys.workers == map[]
  }
}
