/** How rows may change from any state to any later one, whatever commits in between. */
module TicketEvolution {
  import opened Basics
  import opened TicketDomain
  import opened TicketModel
  import opened TicketTransactions
  import opened TicketSystem
  import opened TicketLedger

  /** Tickets are never lost, a deleted one never changes, and an edit always raises the version. */
  ghost predicate TicketsEvolve(a: map<Id, TicketRow>, b: map<Id, TicketRow>) {
    forall t :: t in a ==>
      && t in b
      && b[t].ticket.createdBy == a[t].ticket.createdBy
      && a[t].ticket.version <= b[t].ticket.version
      && (a[t].ticket.version == b[t].ticket.version ==> b[t] == a[t])
      && (a[t].deleted ==> b[t] == a[t])
  }

  /** A known file is never given to another ticket or to a ticket again. */
  ghost predicate UploadsEvolve(known: map<Id, File>, a: map<Id, UploadRow>, b: map<Id, UploadRow>) {
    forall f :: f in known && f in b ==>
      f in a && b[f].ticket == a[f].ticket && (a[f].published ==> b[f].published)
  }

  /** Files keep their content identity; ready, lapsed and marked files never go back. */
  ghost predicate FilesEvolve(a: map<Id, File>, b: map<Id, File>) {
    forall f :: f in a ==>
      && f in b
      && b[f] == a[f].(state := b[f].state, readyCandidate := b[f].readyCandidate)
      && (b[f].state.PendingUpload? ==> b[f] == a[f])
      && (a[f].state.Ready? ==> b[f].state.Ready? || b[f].state.Gone())
      && (a[f].state.Gone() ==> b[f].state.Gone())
      && (!a[f].state.PendingUpload? ==> b[f].readyCandidate == a[f].readyCandidate)
      && (b[f].state.Ready? ==> a[f].state.Ready? || a[f].state.PendingUpload?)
  }

  ghost predicate CandidatesEvolve(a: map<Id, Candidate>, b: map<Id, Candidate>) {
    forall c :: c in a ==>
      && c in b && b[c].file == a[c].file
      && (b[c].state.Copying? ==> a[c].state.Copying?)
      && (a[c].state.Adopted? ==> b[c].state.Adopted?)
  }

  /** Pending, then perhaps published, then perhaps cleared; never back, and never with other data. */
  ghost predicate ExportsEvolve(a: map<Id, ExportRow>, b: map<Id, ExportRow>) {
    forall e :: e in a ==>
      && e in b
      && b[e] == a[e].(snapshot := b[e].snapshot, file := b[e].file)
      && (b[e].snapshot == a[e].snapshot || b[e].snapshot.None?)
      && (a[e].file.Some? ==> b[e].file == a[e].file || !b[e].Live())
      && (!a[e].Live() ==> !b[e].Live())
  }

  ghost predicate JobsEvolve(a: map<Id, Job>, b: map<Id, Job>) {
    forall j :: j in a ==>
      j in b && b[j].exportId == a[j].exportId && (a[j].status.Succeeded? ==> b[j].status.Succeeded?)
  }

  /** An idempotency record stays as it is until it expires. */
  ghost predicate RecordsEvolve(a: map<RecordKey, Record>, b: map<RecordKey, Record>, now: int) {
    forall k :: k in a && now < a[k].expiresAt ==> k in b && b[k] == a[k]
  }

  ghost predicate Evolves(a: State, b: State) {
    && a.now <= b.now
    && TicketsEvolve(a.tickets, b.tickets)
    && UploadsEvolve(a.files, a.uploads, b.uploads)
    && FilesEvolve(a.files, b.files)
    && CandidatesEvolve(a.candidates, b.candidates)
    && ExportsEvolve(a.exports, b.exports)
    && JobsEvolve(a.jobs, b.jobs)
    && RecordsEvolve(a.records, b.records, b.now)
    && a.audit <= b.audit
  }

  lemma EvolvesTransitive(a: State, b: State, c: State)
    requires Evolves(a, b) && Evolves(b, c)
    ensures Evolves(a, c)
  {
    assert TicketsEvolve(a.tickets, c.tickets);
    assert UploadsEvolve(a.files, a.uploads, c.uploads);
    FilesTransitive(a.files, b.files, c.files);
    assert CandidatesEvolve(a.candidates, c.candidates);
    ExportsTransitive(a.exports, b.exports, c.exports);
    assert JobsEvolve(a.jobs, c.jobs);
    assert RecordsEvolve(a.records, c.records, c.now);
  }

  lemma FilesTransitive(a: map<Id, File>, b: map<Id, File>, c: map<Id, File>)
    requires FilesEvolve(a, b) && FilesEvolve(b, c)
    ensures FilesEvolve(a, c)
  {
  }

  lemma ExportsTransitive(a: map<Id, ExportRow>, b: map<Id, ExportRow>, c: map<Id, ExportRow>)
    requires ExportsEvolve(a, b) && ExportsEvolve(b, c)
    ensures ExportsEvolve(a, c)
  {
  }

  lemma EvolvesReflexive(s: State)
    ensures Evolves(s, s)
  {
  }

  /** Claiming a key and completing it leave every live record as it was. */
  lemma ClaimEvolves(s: State, k: RecordKey, mark: Fingerprint, purge: set<RecordKey>, saved: Saved)
    requires RecordsOk(s)
    ensures var claim := ClaimKey(s, k, mark, purge);
            claim.KeyGranted? ==>
              && RecordsEvolve(s.records, claim.records, s.now)
              && (claim.saved.None? ==> RecordsEvolve(s.records, Completed(claim.records, k, saved), s.now))
  {
  }

  lemma WithStateEvolves(files: map<Id, File>, f: Id, state: FileState)
    requires f in files ==>
      (files[f].state.PendingUpload? && !state.PendingUpload?)
      || (files[f].state.Gone() && state.Gone()) || files[f].state == state
    ensures FilesEvolve(files, WithState(files, f, state))
  {
  }

  lemma RecordsOnlyEvolve(s: State, records: map<RecordKey, Record>)
    requires RecordsEvolve(s.records, records, s.now)
    ensures Evolves(s, s.(records := records))
  {
    EvolvesReflexive(s);
  }

  lemma NewTicketEvolves(s: State, id: Id, row: TicketRow, records: map<RecordKey, Record>, event: Event)
    requires id !in s.tickets && RecordsEvolve(s.records, records, s.now)
    ensures Evolves(s, s.(tickets := s.tickets[id := row], records := records, audit := s.audit + [event]))
  {
    EvolvesReflexive(s);
  }

  lemma CreateEvolves(s: State, actor: Id, content: Content, key: string, id: Id, stamp: int,
                      purge: set<RecordKey>)
    requires RecordsOk(s)
    ensures Evolves(s, Create(s, actor, content, key, id, stamp, purge).0)
  {
    hide ClaimKey, Completed, Evolves, RecordsEvolve;
    var k := RecordKey(actor, TicketScope, key);
    var claim := ClaimKey(s, k, OfTicket(content), purge);
    ClaimEvolves(s, k, OfTicket(content), purge, SavedTicket(id));
    if CreateRefusal(s, actor, k, id, claim).Some? {
      EvolvesReflexive(s);
    } else if claim.saved.Some? {
      RecordsOnlyEvolve(s, claim.records);
    } else {
      NewTicketEvolves(s, id, TicketRow(NewTicket(actor, content, id, stamp), false),
                       Completed(claim.records, k, SavedTicket(id)), Event(actor, TicketCreated, id));
    }
  }

  lemma UpdateEvolves(s: State, actor: Id, t: Id, content: Content, status: Status, version: int, stamp: int)
    ensures Evolves(s, Update(s, actor, t, content, status, version, stamp).0)
  {
    EvolvesReflexive(s);
  }

  lemma RemoveEvolves(s: State, actor: Id, t: Id, stamp: int)
    ensures Evolves(s, Remove(s, actor, t, stamp).0)
  {
    EvolvesReflexive(s);
  }

  lemma NewUploadEvolves(s: State, f: Id, row: File, t: Id, records: map<RecordKey, Record>)
    requires f !in s.files && RecordsEvolve(s.records, records, s.now)
    ensures Evolves(s, s.(files := s.files[f := row], uploads := s.uploads[f := UploadRow(t, false)],
                          records := records))
  {
    EvolvesReflexive(s);
  }

  lemma RegisterEvolves(s: State, actor: Id, t: Id, input: UploadInput, key: string, id: Id,
                        lifetime: nat, purge: set<RecordKey>)
    requires RecordsOk(s)
    ensures Evolves(s, RegisterUpload(s, actor, t, input, key, id, lifetime, purge).0)
  {
    hide ClaimKey, Completed, Evolves, RecordsEvolve, ValidInput;
    var k := RecordKey(actor, UploadScope(t), key);
    var claim := ClaimKey(s, k, OfUpload(input), purge);
    ClaimEvolves(s, k, OfUpload(input), purge, SavedUpload(id));
    if RegisterRefusal(s, actor, t, input, id, claim).Some? {
      EvolvesReflexive(s);
    } else if claim.saved.Some? {
      RecordsOnlyEvolve(s, claim.records);
    } else {
      NewUploadEvolves(s, id, NewFile(s, input, lifetime), t, Completed(claim.records, k, SavedUpload(id)));
    }
  }

  lemma PlanEvolves(s: State, actor: Id, t: Id, f: Id, candidate: Id)
    ensures Evolves(s, PlanCompletion(s, actor, t, f, candidate))
  {
    EvolvesReflexive(s);
    if PlanOf(s, actor, t, f, candidate) == Ok(PlanExpired) {
      WithStateEvolves(s.files, f, Expired);
    }
  }

  lemma AbandonEvolves(s: State, f: Id, c: Id, rejected: bool)
    ensures Evolves(s, AbandonAttempt(s, f, c, rejected))
  {
    EvolvesReflexive(s);
  }

  lemma FinishedEvolves(s: State, actor: Id, t: Id, f: Id, c: Id, answer: Publication)
    requires Associated(s, t, f) && answer == PublicationOf(s, f, c) && !answer.PublicationRefused?
    ensures Evolves(s, Finished(s, actor, t, f, c, answer))
  {
    EvolvesReflexive(s);
    if answer.PublicationExpired? {
      WithStateEvolves(s.files, f, Expired);
    }
  }

  lemma FinishEvolves(s: State, actor: Id, session: Id, t: Id, f: Id, c: Id)
    ensures Evolves(s, PublishUpload(s, actor, session, t, f, c).0)
  {
    EvolvesReflexive(s);
    var answer := PublicationOf(s, f, c);
    if FinishRefusal(s, actor, session, t, f, answer).None? {
      FinishedEvolves(s, actor, t, f, c, answer);
    }
  }

  lemma DetachEvolves(s: State, actor: Id, t: Id, f: Id)
    ensures Evolves(s, RemoveAttachment(s, actor, t, f).0)
  {
    EvolvesReflexive(s);
  }

  lemma NewExportEvolves(s: State, e: Id, row: ExportRow, job: Id, work: Job, records: map<RecordKey, Record>,
                         event: Event)
    requires e !in s.exports && job !in s.jobs && RecordsEvolve(s.records, records, s.now)
    ensures Evolves(s, s.(jobs := s.jobs[job := work], exports := s.exports[e := row], records := records,
                          audit := s.audit + [event]))
  {
    EvolvesReflexive(s);
  }

  lemma RequestEvolves(render: Renderer, s: State, actor: Id, session: Id, t: Id, spelling: string, key: string,
                       e: Id, job: Id, purge: set<RecordKey>)
    requires RecordsOk(s)
    ensures Evolves(s, CreateExport(render, s, actor, session, t, spelling, key, e, job, purge).0)
  {
    hide ClaimKey, Completed, Evolves, RecordsEvolve, SnapshotOf, AllReady, PublishedOf;
    var k := RecordKey(actor, ExportScope(t, spelling), key);
    var claim := ClaimKey(s, k, OfNothing, purge);
    ClaimEvolves(s, k, OfNothing, purge, SavedExport(e));
    if RequestRefusal(render, s, actor, session, t, e, job, claim).Some? {
      EvolvesReflexive(s);
    } else if claim.saved.Some? {
      RecordsOnlyEvolve(s, claim.records);
    } else {
      NewExportEvolves(s, e, ExportRow(t, actor, session, job, Some(SnapshotOf(s, t)), None, s.now + EXPORT_RETENTION),
                       job, Job(e, Queued, 0, 0, 0, 3), Completed(claim.records, k, SavedExport(e)),
                       Event(actor, ExportRequested, e));
    }
  }

  lemma PrepareEvolves(s: State, lease: Lease, work: Work, name: string, text: string, f: Id, c: Id)
    ensures Evolves(s, PrepareWork(s, lease, work, name, text, f, c))
  {
    EvolvesReflexive(s);
  }

  lemma AdoptEvolves(s: State, f: Id, c: Id)
    requires PublicationOf(s, f, c).NewlyAdopted?
    ensures FilesEvolve(s.files, Adopt(s, f, c).files) && CandidatesEvolve(s.candidates, Adopt(s, f, c).candidates)
  {
  }

  lemma PublishEvolves(s: State, lease: Lease, work: Work, f: Id, c: Id)
    ensures Evolves(s, PublishWork(s, lease, work, f, c))
  {
    EvolvesReflexive(s);
    if PublishRefusal(s, lease, work, f, c).None? {
      AdoptEvolves(s, f, c);
    }
  }

  lemma ExpireEvolves(s: State, e: Id)
    ensures Evolves(s, ExpireExport(s, e))
  {
    EvolvesReflexive(s);
  }

  lemma SweepEvolves(s: State, f: Id)
    ensures Evolves(s, Swept(s, f))
  {
    EvolvesReflexive(s);
    if f !in s.files {
      assert Swept(s, f).files == s.files;
    } else if s.files[f].state.PendingUpload? && s.files[f].expiresAt <= s.now {
      WithStateEvolves(s.files, f, Expired);
    } else if s.files[f].state.Deleting? {
      WithStateEvolves(s.files, f, Deleted);
    } else {
      assert Swept(s, f).files == s.files;
    }
  }

  lemma JobStepEvolves(s: State, j: Id, job: Job)
    requires j in s.jobs && !s.jobs[j].status.Succeeded? && job.exportId == s.jobs[j].exportId
    ensures Evolves(s, s.(jobs := s.jobs[j := job]))
  {
    EvolvesReflexive(s);
  }

  /** Time, memberships and sessions. */
  lemma SurroundingsEvolve(s: State, after: State)
    requires after == s.(now := after.now, members := after.members, sessions := after.sessions)
    requires s.now <= after.now
    ensures Evolves(s, after)
  {
    EvolvesReflexive(s);
  }
}
