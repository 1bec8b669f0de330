/** The invariant of the whole system, and that every step of every process keeps it. */
module TicketSafety {
  import opened Basics
  import opened TicketDomain
  import opened TicketModel
  import opened TicketTransactions
  import opened TicketSystem
  import opened TicketReferences
  import opened TicketLedger
  import opened TicketEvolution

  // ----- stored objects and processes under way --------------------------------------

  /** The object under candidate c has the digest file f declares. */
  ghost predicate Matches(files: map<Id, File>, objects: map<Id, string>, f: Id, c: Id) {
    f in files && c in objects && Sha256(objects[c]) == files[f].sha256
  }

  /** The object may still be adopted: the file is pending and the candidate is copying. */
  ghost predicate Open(s: State, f: Id, c: Id) {
    f in s.files && s.files[f].state.PendingUpload? && c in s.candidates && s.candidates[c].state.Copying?
  }

  /** Every ready file has its own adopted candidate, whose stored object matches its digest. */
  ghost predicate ReadyObjectsOk(s: State, objects: map<Id, string>) {
    forall f :: f in s.files && s.files[f].state.Ready? ==>
      && s.files[f].readyCandidate.Some?
      && s.files[f].readyCandidate.value in s.candidates
      && s.candidates[s.files[f].readyCandidate.value] == Candidate(f, Adopted)
      && Matches(s.files, objects, f, s.files[f].readyCandidate.value)
  }

  ghost predicate TargetOk(s: State, objects: map<Id, string>, target: Target, verified: bool) {
    && target.file in s.files
    && target.candidate in s.candidates && s.candidates[target.candidate].file == target.file
    && (verified && Open(s, target.file, target.candidate) ==>
          Matches(s.files, objects, target.file, target.candidate))
  }

  /** What a worker remembers is true of its export row for as long as that row has data. */
  ghost predicate WorkerOk(render: Renderer, s: State, objects: map<Id, string>, w: Worker) {
    var e := w.lease.exportId;
    && e in s.exports && s.exports[e].job == w.lease.job
    && w.work.row == s.exports[e].(snapshot := w.work.row.snapshot, file := w.work.row.file)
    && (s.exports[e].snapshot.Some? ==> s.exports[e].snapshot.value == w.work.snapshot)
    && render(w.work.snapshot).Some?
    && (w.target.Some? ==>
          && TargetOk(s, objects, w.target.value, w.written)
          && w.target.value.file !in s.uploads
          && s.files[w.target.value.file].sha256 == Sha256(render(w.work.snapshot).value))
  }

  /** The file of a published export was declared with the digest of its rendered snapshot. */
  ghost predicate ExportBytesOk(render: Renderer, s: State) {
    forall e :: e in s.exports && s.exports[e].file.Some? && s.exports[e].snapshot.Some? ==>
      && s.exports[e].file.value in s.files
      && render(s.exports[e].snapshot.value).Some?
      && s.files[s.exports[e].file.value].sha256 == Sha256(render(s.exports[e].snapshot.value).value)
  }

  ghost predicate ProcessesOk(render: Renderer, sys: System) {
    && (forall p :: p in sys.completions ==>
          TargetOk(sys.db, sys.objects, sys.completions[p].target, sys.completions[p].verified))
    && (forall p :: p in sys.workers ==> WorkerOk(render, sys.db, sys.objects, sys.workers[p]))
  }

  ghost predicate Safe(render: Renderer, sys: System) {
    && References(sys.db)
    && Ledger(render, sys.db)
    && ReadyObjectsOk(sys.db, sys.objects)
    && ExportBytesOk(render, sys.db)
    && ProcessesOk(render, sys)
  }

  lemma SafeProcesses(render: Renderer, sys: System)
    requires Safe(render, sys)
    ensures ProcessesOk(render, sys)
  {
  }

  lemma SafeRecords(render: Renderer, sys: System)
    requires Safe(render, sys)
    ensures RecordsOk(sys.db)
  {
  }

  lemma InitialIsSafe(render: Renderer, sys: System)
    requires Initial(sys)
    ensures Safe(render, sys)
  {
    assert References(sys.db);
    assert forall t :: UploadsOf(sys.db.uploads, t) == {} && LiveExportsOf(sys.db.exports, t) == {};
  }

  // ----- what processes know survives every transaction of others ------------------------

  lemma TargetSurvives(s: State, after: State, objects: map<Id, string>, target: Target, verified: bool)
    requires Evolves(s, after) && TargetOk(s, objects, target, verified)
    ensures TargetOk(after, objects, target, verified)
  {
  }

  lemma WorkerSurvives(render: Renderer, s: State, after: State, objects: map<Id, string>, w: Worker)
    requires Evolves(s, after) && WorkerOk(render, s, objects, w)
    ensures WorkerOk(render, after, objects, w)
  {
    if w.target.Some? {
      TargetSurvives(s, after, objects, w.target.value, w.written);
    }
  }

  lemma ProcessesSurvive(render: Renderer, sys: System, after: State)
    requires Evolves(sys.db, after) && ProcessesOk(render, sys)
    ensures ProcessesOk(render, sys.(db := after))
  {
    forall p | p in sys.completions
      ensures TargetOk(after, sys.objects, sys.completions[p].target, sys.completions[p].verified)
    {
      TargetSurvives(sys.db, after, sys.objects, sys.completions[p].target, sys.completions[p].verified);
    }
    forall p | p in sys.workers ensures WorkerOk(render, after, sys.objects, sys.workers[p]) {
      WorkerSurvives(render, sys.db, after, sys.objects, sys.workers[p]);
    }
  }

  /** No file becomes ready. */
  ghost predicate NoneReadied(a: map<Id, File>, b: map<Id, File>) {
    forall f :: f in b && b[f].state.Ready? ==> f in a && a[f].state.Ready?
  }

  /** No export becomes published. */
  ghost predicate NonePublished(a: map<Id, ExportRow>, b: map<Id, ExportRow>) {
    forall e :: e in b && b[e].file.Some? ==> e in a && a[e].file.Some?
  }

  lemma ReadyObjectsSurvive(s: State, after: State, objects: map<Id, string>)
    requires Evolves(s, after) && NoneReadied(s.files, after.files) && ReadyObjectsOk(s, objects)
    ensures ReadyObjectsOk(after, objects)
  {
  }

  lemma ExportBytesSurvive(render: Renderer, s: State, after: State)
    requires Evolves(s, after) && NonePublished(s.exports, after.exports) && ExportBytesOk(render, s)
    ensures ExportBytesOk(render, after)
  {
  }

  /** What a transaction that adopts no file keeps. */
  ghost predicate Commits(render: Renderer, s: State, after: State) {
    && Evolves(s, after) && NoneReadied(s.files, after.files) && NonePublished(s.exports, after.exports)
    && References(after) && Ledger(render, after)
  }

  /** Safe before, safe after, and the rows evolved. */
  ghost predicate Advances(render: Renderer, sys: System, after: System) {
    Safe(render, after) && Evolves(sys.db, after.db)
  }

  lemma OrdinaryStepIsSafe(render: Renderer, sys: System, after: State)
    requires Safe(render, sys) && Commits(render, sys.db, after)
    ensures Advances(render, sys, sys.(db := after))
  {
    ReadyObjectsSurvive(sys.db, after, sys.objects);
    ExportBytesSurvive(render, sys.db, after);
    ProcessesSurvive(render, sys, after);
  }

  lemma NewCompletionIsSafe(render: Renderer, sys: System, p: Id, completion: Completion)
    requires Safe(render, sys) && TargetOk(sys.db, sys.objects, completion.target, completion.verified)
    ensures Safe(render, sys.(completions := sys.completions[p := completion]))
  {
  }

  lemma NewWorkerIsSafe(render: Renderer, sys: System, p: Id, worker: Worker)
    requires Safe(render, sys) && WorkerOk(render, sys.db, sys.objects, worker)
    ensures Safe(render, sys.(workers := sys.workers[p := worker]))
  {
  }

  // ----- every step keeps it ---------------------------------------------------------------

  lemma CreateCommits(render: Renderer, s: State, actor: Id, content: Content, key: string, id: Id, stamp: int,
                      purge: set<RecordKey>)
    requires References(s) && Ledger(render, s) && Fits(content.title, content.description)
    ensures Commits(render, s, Create(s, actor, content, key, id, stamp, purge).0)
  {
    CreateEvolves(s, actor, content, key, id, stamp, purge);
    CreateTouchesNoFile(s, actor, content, key, id, stamp, purge);
    CreateKeepsReferences(s, actor, content, key, id, stamp, purge);
    CreateKeepsLedger(render, s, actor, content, key, id, stamp, purge);
  }

  lemma UpdateCommits(render: Renderer, s: State, actor: Id, t: Id, content: Content, status: Status, version: int,
                      stamp: int)
    requires References(s) && Ledger(render, s) && Fits(content.title, content.description)
    ensures Commits(render, s, Update(s, actor, t, content, status, version, stamp).0)
  {
    UpdateEvolves(s, actor, t, content, status, version, stamp);
    UpdateKeepsReferences(s, actor, t, content, status, version, stamp);
    UpdateKeepsLedger(render, s, actor, t, content, status, version, stamp);
  }

  lemma RemoveReadiesNothing(s: State, actor: Id, t: Id, stamp: int)
    ensures NoneReadied(s.files, Remove(s, actor, t, stamp).0.files)
    ensures NonePublished(s.exports, Remove(s, actor, t, stamp).0.exports)
  {
  }

  lemma RemoveCommits(render: Renderer, s: State, actor: Id, t: Id, stamp: int)
    requires References(s) && Ledger(render, s)
    ensures Commits(render, s, Remove(s, actor, t, stamp).0)
  {
    RemoveEvolves(s, actor, t, stamp);
    RemoveKeepsReferences(s, actor, t, stamp);
    RemoveKeepsLedger(render, s, actor, t, stamp);
    RemoveReadiesNothing(s, actor, t, stamp);
  }

  lemma RegisterReadiesNothing(s: State, actor: Id, t: Id, input: UploadInput, key: string, id: Id,
                               lifetime: nat, purge: set<RecordKey>)
    ensures NoneReadied(s.files, RegisterUpload(s, actor, t, input, key, id, lifetime, purge).0.files)
    ensures NonePublished(s.exports, RegisterUpload(s, actor, t, input, key, id, lifetime, purge).0.exports)
  {
    hide ClaimKey, ValidInput;
    assert NoneReadied(s.files, s.files[id := NewFile(s, input, lifetime)]);
  }

  lemma RegisterCommits(render: Renderer, s: State, actor: Id, t: Id, input: UploadInput, key: string, id: Id,
                        lifetime: nat, purge: set<RecordKey>)
    requires References(s) && Ledger(render, s)
    ensures Commits(render, s, RegisterUpload(s, actor, t, input, key, id, lifetime, purge).0)
  {
    RegisterEvolves(s, actor, t, input, key, id, lifetime, purge);
    RegisterKeepsReferences(s, actor, t, input, key, id, lifetime, purge);
    RegisterKeepsLedger(render, s, actor, t, input, key, id, lifetime, purge);
    RegisterReadiesNothing(s, actor, t, input, key, id, lifetime, purge);
  }

  lemma DetachReadiesNothing(s: State, actor: Id, t: Id, f: Id)
    ensures NoneReadied(s.files, RemoveAttachment(s, actor, t, f).0.files)
    ensures RemoveAttachment(s, actor, t, f).0.exports == s.exports
  {
  }

  lemma DetachCommits(render: Renderer, s: State, actor: Id, t: Id, f: Id)
    requires References(s) && Ledger(render, s)
    ensures Commits(render, s, RemoveAttachment(s, actor, t, f).0)
  {
    DetachEvolves(s, actor, t, f);
    DetachKeepsReferences(s, actor, t, f);
    DetachKeepsLedger(render, s, actor, t, f);
    DetachReadiesNothing(s, actor, t, f);
  }

  lemma RequestReadiesNothing(render: Renderer, s: State, actor: Id, session: Id, t: Id, spelling: string, key: string,
                              e: Id, job: Id, purge: set<RecordKey>)
    ensures NoneReadied(s.files, CreateExport(render, s, actor, session, t, spelling, key, e, job, purge).0.files)
    ensures NonePublished(s.exports, CreateExport(render, s, actor, session, t, spelling, key, e, job, purge).0.exports)
  {
    hide ClaimKey, SnapshotOf, AllReady, PublishedOf;
  }

  lemma RequestCommits(render: Renderer, s: State, actor: Id, session: Id, t: Id, spelling: string, key: string,
                       e: Id, job: Id, purge: set<RecordKey>)
    requires References(s) && Ledger(render, s)
    ensures Commits(render, s, CreateExport(render, s, actor, session, t, spelling, key, e, job, purge).0)
  {
    RequestEvolves(render, s, actor, session, t, spelling, key, e, job, purge);
    RequestKeepsReferences(render, s, actor, session, t, spelling, key, e, job, purge);
    RequestKeepsLedger(render, s, actor, session, t, spelling, key, e, job, purge);
    RequestReadiesNothing(render, s, actor, session, t, spelling, key, e, job, purge);
  }

  lemma PlanKeepsRows(s: State, actor: Id, t: Id, f: Id, candidate: Id)
    ensures SameRows(s, PlanCompletion(s, actor, t, f, candidate))
    ensures NoneReadied(s.files, PlanCompletion(s, actor, t, f, candidate).files)
  {
  }

  lemma PlanCommits(render: Renderer, s: State, actor: Id, t: Id, f: Id, candidate: Id)
    requires References(s) && Ledger(render, s)
    ensures Commits(render, s, PlanCompletion(s, actor, t, f, candidate))
  {
    PlanEvolves(s, actor, t, f, candidate);
    PlanKeepsReferences(s, actor, t, f, candidate);
    PlanKeepsRows(s, actor, t, f, candidate);
    SameRowsKeepLedger(render, s, PlanCompletion(s, actor, t, f, candidate));
  }

  lemma PlannedTargetOk(s: State, objects: map<Id, string>, actor: Id, t: Id, f: Id, candidate: Id)
    requires PlanOf(s, actor, t, f, candidate) == Ok(Attempt(candidate))
    ensures TargetOk(PlanCompletion(s, actor, t, f, candidate), objects, Target(f, candidate), false)
  {
  }

  lemma AttemptedIsSafe(render: Renderer, sys: System, p: Id, actor: Id, t: Id, f: Id, candidate: Id)
    requires Safe(render, sys) && PlanOf(sys.db, actor, t, f, candidate) == Ok(Attempt(candidate))
    ensures Advances(render, sys, sys.(db := PlanCompletion(sys.db, actor, t, f, candidate),
                                       completions := sys.completions[p := Completion(Target(f, candidate), false)]))
  {
    var after := sys.(db := PlanCompletion(sys.db, actor, t, f, candidate));
    PlanCommits(render, sys.db, actor, t, f, candidate);
    OrdinaryStepIsSafe(render, sys, after.db);
    PlannedTargetOk(sys.db, sys.objects, actor, t, f, candidate);
    NewCompletionIsSafe(render, after, p, Completion(Target(f, candidate), false));
  }

  lemma AbandonCommits(render: Renderer, s: State, f: Id, c: Id, rejected: bool)
    requires References(s) && Ledger(render, s)
    ensures Commits(render, s, AbandonAttempt(s, f, c, rejected))
  {
    AbandonEvolves(s, f, c, rejected);
    AbandonKeepsReferences(s, f, c, rejected);
    SameRowsKeepLedger(render, s, AbandonAttempt(s, f, c, rejected));
  }

  lemma TargetKeepsObject(s: State, objects: map<Id, string>, c: Id, text: string, target: Target, verified: bool)
    requires c !in objects && TargetOk(s, objects, target, verified)
    ensures TargetOk(s, objects[c := text], target, verified)
  {
  }

  lemma ProcessesKeepObject(render: Renderer, sys: System, c: Id, text: string)
    requires ProcessesOk(render, sys) && c !in sys.objects
    ensures ProcessesOk(render, sys.(objects := sys.objects[c := text]))
  {
    forall p | p in sys.completions
      ensures TargetOk(sys.db, sys.objects[c := text], sys.completions[p].target, sys.completions[p].verified)
    {
      TargetKeepsObject(sys.db, sys.objects, c, text, sys.completions[p].target, sys.completions[p].verified);
    }
    forall p | p in sys.workers ensures WorkerOk(render, sys.db, sys.objects[c := text], sys.workers[p]) {
      if sys.workers[p].target.Some? {
        TargetKeepsObject(sys.db, sys.objects, c, text, sys.workers[p].target.value, sys.workers[p].written);
      }
    }
  }

  /** Storing an object where none was leaves every stored object as it was. */
  lemma NewObjectIsSafe(render: Renderer, sys: System, c: Id, text: string)
    requires Safe(render, sys) && c !in sys.objects
    ensures Safe(render, sys.(objects := sys.objects[c := text]))
  {
    ProcessesKeepObject(render, sys, c, text);
  }

  lemma VerifyIsSafe(render: Renderer, sys: System, p: Id, staged: string)
    requires Safe(render, sys)
    ensures Safe(render, Verified(sys, p, staged))
  {
    if p in sys.completions && sys.completions[p].target.candidate !in sys.objects {
      NewObjectIsSafe(render, sys, sys.completions[p].target.candidate, staged);
    }
  }

  lemma WrittenWorkerOk(render: Renderer, s: State, objects: map<Id, string>, w: Worker)
    requires WorkerOk(render, s, objects, w) && w.target.Some?
    ensures WorkerOk(render, s, objects[w.target.value.candidate := render(w.work.snapshot).value], w.(written := true))
  {
  }

  lemma WriteIsSafe(render: Renderer, sys: System, p: Id)
    requires Safe(render, sys)
    ensures Safe(render, Written(render, sys, p))
  {
    hide References, Ledger, ReadyObjectsOk, ExportBytesOk;
    if p in sys.workers && sys.workers[p].target.Some? && sys.workers[p].target.value.candidate !in sys.objects {
      WrittenIsSafe(render, sys, p, sys.workers[p], sys.workers[p].target.value.candidate);
    }
  }

  lemma WrittenIsSafe(render: Renderer, sys: System, p: Id, w: Worker, c: Id)
    requires Safe(render, sys) && WorkerOk(render, sys.db, sys.objects, w)
    requires w.target.Some? && w.target.value.candidate == c && c !in sys.objects
    ensures Safe(render, sys.(objects := sys.objects[c := render(w.work.snapshot).value],
                              workers := sys.workers[p := w.(written := true)]))
  {
    var text := render(w.work.snapshot).value;
    NewObjectIsSafe(render, sys, c, text);
    WrittenWorkerOk(render, sys.db, sys.objects, w);
    NewWorkerIsSafe(render, sys.(objects := sys.objects[c := text]), p, w.(written := true));
  }

  /** Only objects no ready file and no open attempt relies on are ever deleted. */
  lemma CollectIsSafe(render: Renderer, sys: System, c: Id)
    requires Safe(render, sys) && Collectable(sys.db, c)
    ensures Safe(render, sys.(objects := sys.objects - {c}))
  {
    CollectKeepsReadyObjects(sys.db, sys.objects, c);
    forall target: Target, verified | TargetOk(sys.db, sys.objects, target, verified)
      ensures TargetOk(sys.db, sys.objects - {c}, target, verified)
    {
      CollectKeepsTargets(sys.db, sys.objects, c, target, verified);
    }
  }

  lemma CollectKeepsReadyObjects(s: State, objects: map<Id, string>, c: Id)
    requires ReadyObjectsOk(s, objects) && Collectable(s, c)
    ensures ReadyObjectsOk(s, objects - {c})
  {
  }

  lemma CollectKeepsTargets(s: State, objects: map<Id, string>, c: Id, target: Target, verified: bool)
    requires Collectable(s, c) && TargetOk(s, objects, target, verified)
    ensures TargetOk(s, objects - {c}, target, verified)
  {
  }

  /** Adopting a verified open attempt: the file becomes ready with a matching object. */
  lemma AdoptionIsSafe(s: State, after: State, objects: map<Id, string>, target: Target)
    requires ReadyObjectsOk(s, objects) && TargetOk(s, objects, target, true)
    requires Open(s, target.file, target.candidate)
    requires after.files == Adopt(s, target.file, target.candidate).files
    requires after.candidates == Adopt(s, target.file, target.candidate).candidates
    ensures ReadyObjectsOk(after, objects)
  {
  }

  lemma AdoptingStepIsSafe(render: Renderer, sys: System, after: State)
    requires Safe(render, sys) && Evolves(sys.db, after) && References(after) && Ledger(render, after)
    requires ReadyObjectsOk(after, sys.objects) && ExportBytesOk(render, after)
    ensures Advances(render, sys, sys.(db := after))
  {
    ProcessesSurvive(render, sys, after);
  }

  lemma FinishIsSafe(render: Renderer, sys: System, actor: Id, session: Id, t: Id, target: Target)
    requires Safe(render, sys) && TargetOk(sys.db, sys.objects, target, true)
    ensures Advances(render, sys, sys.(db := PublishUpload(sys.db, actor, session, t, target.file, target.candidate).0))
  {
    var s, f, c := sys.db, target.file, target.candidate;
    FinishEvolves(s, actor, session, t, f, c);
    FinishKeepsReferences(s, actor, session, t, f, c);
    FinishKeepsLedger(render, s, actor, session, t, f, c);
    FinishPublishesNoExport(s, actor, session, t, f, c);
    ExportBytesSurvive(render, s, PublishUpload(s, actor, session, t, f, c).0);
    FinishKeepsObjects(s, actor, session, t, target, sys.objects);
    AdoptingStepIsSafe(render, sys, PublishUpload(s, actor, session, t, f, c).0);
  }

  lemma FinishPublishesNoExport(s: State, actor: Id, session: Id, t: Id, f: Id, c: Id)
    ensures NonePublished(s.exports, PublishUpload(s, actor, session, t, f, c).0.exports)
  {
  }

  lemma FinishKeepsObjects(s: State, actor: Id, session: Id, t: Id, target: Target, objects: map<Id, string>)
    requires ReadyObjectsOk(s, objects) && TargetOk(s, objects, target, true)
    ensures ReadyObjectsOk(PublishUpload(s, actor, session, t, target.file, target.candidate).0, objects)
  {
    var after := PublishUpload(s, actor, session, t, target.file, target.candidate).0;
    var answer := PublicationOf(s, target.file, target.candidate);
    if FinishRefusal(s, actor, session, t, target.file, answer).None? {
      if answer.NewlyAdopted? {
        AdoptionIsSafe(s, after, objects, target);
      } else {
        FinishEvolves(s, actor, session, t, target.file, target.candidate);
        ReadyObjectsSurvive(s, after, objects);
      }
    }
  }

  lemma PrepareCommits(render: Renderer, s: State, lease: Lease, work: Work, name: string, text: string, f: Id, c: Id)
    requires References(s) && Ledger(render, s)
    ensures Commits(render, s, PrepareWork(s, lease, work, name, text, f, c))
  {
    PrepareEvolves(s, lease, work, name, text, f, c);
    PrepareKeepsReferences(s, lease, work, name, text, f, c);
    PrepareKeepsRows(s, lease, work, name, text, f, c);
    SameRowsKeepLedger(render, s, PrepareWork(s, lease, work, name, text, f, c));
  }

  lemma PrepareKeepsRows(s: State, lease: Lease, work: Work, name: string, text: string, f: Id, c: Id)
    ensures SameRows(s, PrepareWork(s, lease, work, name, text, f, c))
    ensures NoneReadied(s.files, PrepareWork(s, lease, work, name, text, f, c).files)
  {
    hide WorkRefusal, HoldsLease;
  }

  lemma PreparedIsSafe(render: Renderer, sys: System, p: Id, w: Worker, name: string, text: string, f: Id, c: Id)
    requires Safe(render, sys) && WorkerOk(render, sys.db, sys.objects, w)
    requires text == render(w.work.snapshot).value
    requires PrepareRefusal(sys.db, w.lease, w.work, text, f, c).None?
    ensures Advances(render, sys,
                     sys.(db := PrepareWork(sys.db, w.lease, w.work, name, text, f, c),
                          workers := sys.workers[p := w.(target := Some(Target(f, c)), written := false)]))
  {
    var s := sys.db;
    PrepareCommits(render, s, w.lease, w.work, name, text, f, c);
    PrepareAddsFile(s, w.lease, w.work, name, text, f, c);
    PreparedWorkerIsSafe(render, sys, PrepareWork(s, w.lease, w.work, name, text, f, c), p, w, Target(f, c));
  }

  lemma PrepareAddsFile(s: State, lease: Lease, work: Work, name: string, text: string, f: Id, c: Id)
    requires PrepareRefusal(s, lease, work, text, f, c).None?
    ensures AddsFile(s, PrepareWork(s, lease, work, name, text, f, c), Target(f, c), text)
  {
  }

  ghost predicate AddsFile(s: State, after: State, target: Target, text: string) {
    && target.file !in s.files && after.uploads == s.uploads
    && target.file in after.files && target.candidate in after.candidates
    && after.candidates[target.candidate].file == target.file
    && after.files[target.file].sha256 == Sha256(text)
  }

  lemma PreparedWorkerIsSafe(render: Renderer, sys: System, after: State, p: Id, w: Worker, target: Target)
    requires Safe(render, sys) && WorkerOk(render, sys.db, sys.objects, w)
    requires Commits(render, sys.db, after)
    requires AddsFile(sys.db, after, target, render(w.work.snapshot).value)
    ensures Advances(render, sys,
                     sys.(db := after, workers := sys.workers[p := w.(target := Some(target), written := false)]))
  {
    OrdinaryStepIsSafe(render, sys, after);
    PreparedWorkerOk(render, sys.db, after, sys.objects, w, target);
    NewWorkerIsSafe(render, sys.(db := after), p, w.(target := Some(target), written := false));
  }

  lemma PreparedWorkerOk(render: Renderer, s: State, after: State, objects: map<Id, string>, w: Worker, target: Target)
    requires UploadsOk(s) && WorkerOk(render, s, objects, w) && Evolves(s, after)
    requires AddsFile(s, after, target, render(w.work.snapshot).value)
    ensures WorkerOk(render, after, objects, w.(target := Some(target), written := false))
  {
    WorkerSurvives(render, s, after, objects, w);
  }

  lemma PublishIsSafe(render: Renderer, sys: System, w: Worker)
    requires Safe(render, sys)
    requires WorkerOk(render, sys.db, sys.objects, w) && w.written && w.target.Some?
    ensures Advances(render, sys,
                     sys.(db := PublishWork(sys.db, w.lease, w.work, w.target.value.file, w.target.value.candidate)))
  {
    var s, f, c := sys.db, w.target.value.file, w.target.value.candidate;
    PublishEvolves(s, w.lease, w.work, f, c);
    PublishKeepsReferences(s, w.lease, w.work, f, c);
    PublishKeepsLedger(render, s, w.lease, w.work, f, c);
    PublishKeepsObjects(render, s, sys.objects, w);
    AdoptingStepIsSafe(render, sys, PublishWork(s, w.lease, w.work, f, c));
  }

  lemma PublishKeepsObjects(render: Renderer, s: State, objects: map<Id, string>, w: Worker)
    requires ReadyObjectsOk(s, objects) && ExportBytesOk(render, s)
    requires WorkerOk(render, s, objects, w) && w.written && w.target.Some?
    ensures ReadyObjectsOk(PublishWork(s, w.lease, w.work, w.target.value.file, w.target.value.candidate), objects)
    ensures ExportBytesOk(render, PublishWork(s, w.lease, w.work, w.target.value.file, w.target.value.candidate))
  {
    var target := w.target.value;
    var after := PublishWork(s, w.lease, w.work, target.file, target.candidate);
    if PublishRefusal(s, w.lease, w.work, target.file, target.candidate).None? {
      PublishEvolves(s, w.lease, w.work, target.file, target.candidate);
      AdoptionIsSafe(s, after, objects, target);
      PublishedBytesOk(render, s, after, objects, w);
    }
  }

  lemma PublishedBytesOk(render: Renderer, s: State, after: State, objects: map<Id, string>, w: Worker)
    requires ExportBytesOk(render, s) && WorkerOk(render, s, objects, w) && w.target.Some? && Evolves(s, after)
    requires var e := w.lease.exportId;
             after.exports == s.exports[e := s.exports[e].(file := Some(w.target.value.file))]
    ensures ExportBytesOk(render, after)
  {
  }

  lemma ExpireReadiesNothing(s: State, e: Id)
    ensures NoneReadied(s.files, ExpireExport(s, e).files) && NonePublished(s.exports, ExpireExport(s, e).exports)
  {
  }

  lemma ExpireCommits(render: Renderer, s: State, e: Id)
    requires References(s) && Ledger(render, s)
    ensures Commits(render, s, ExpireExport(s, e))
  {
    ExpireEvolves(s, e);
    ExpireKeepsReferences(s, e);
    ExpireKeepsLedger(render, s, e);
    ExpireReadiesNothing(s, e);
  }

  lemma SweepCommits(render: Renderer, s: State, f: Id)
    requires References(s) && Ledger(render, s)
    ensures Commits(render, s, Swept(s, f))
  {
    SweepEvolves(s, f);
    SweepKeepsReferences(s, f);
    SameRowsKeepLedger(render, s, Swept(s, f));
  }

  lemma JobStepCommits(render: Renderer, s: State, j: Id, job: Job)
    requires References(s) && Ledger(render, s)
    requires j in s.jobs && !s.jobs[j].status.Succeeded? && !job.status.Succeeded?
    requires job.exportId == s.jobs[j].exportId
    ensures Commits(render, s, s.(jobs := s.jobs[j := job]))
  {
    JobStepEvolves(s, j, job);
    SameFilesKeepReferences(s, s.(jobs := s.jobs[j := job]));
    JobStepKeepsLedger(render, s, j, job);
  }

  lemma NothingCommits(render: Renderer, s: State)
    requires References(s) && Ledger(render, s)
    ensures Commits(render, s, s)
  {
    EvolvesReflexive(s);
  }

  lemma SurroundingsCommit(render: Renderer, s: State, after: State)
    requires References(s) && Ledger(render, s)
    requires after == s.(now := after.now, members := after.members, sessions := after.sessions) && s.now <= after.now
    ensures Commits(render, s, after)
  {
    SurroundingsEvolve(s, after);
    SameFilesKeepReferences(s, after);
    SameRowsKeepLedger(render, s, after);
  }
}
