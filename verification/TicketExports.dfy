/** Exporting a ticket: what is frozen, what each step of the worker answers and leaves, and that it gets through. */
module TicketExports {
  import opened Basics
  import opened TicketDomain
  import opened TicketModel
  import opened TicketTransactions
  import opened TicketSystem
  import opened TicketReferences
  import opened TicketEvolution
  import opened TicketSafety
  import opened TicketRuns
  import opened TicketGuarantees
  import opened TicketAuthorization
  import opened TicketReplies
  import opened TicketLeases
  import opened TicketUploads

  // ----- requesting ------------------------------------------------------------------------------

  /** The entry says what the row of its published file says. */
  ghost predicate Describes(s: State, t: Id, entry: FileSnapshot) {
    && entry.id in s.uploads && s.uploads[entry.id].ticket == t && s.uploads[entry.id].published
    && entry.id in s.files
    && var file := s.files[entry.id];
       && file.state == Ready && file.readyCandidate == Some(entry.objectKey)
       && entry.fileName == file.fileName && entry.contentType == file.contentType
       && entry.size == file.size && entry.sha256 == file.sha256
  }

  ghost predicate Lists(entries: seq<FileSnapshot>, f: Id) {
    exists i :: 0 <= i < |entries| && entries[i].id == f
  }

  /** The snapshot holds the ticket and its published attachments, each once and in the order of their ids. */
  ghost predicate Freezes(s: State, t: Id, snapshot: Snapshot) {
    && t in s.tickets && snapshot.ticket == s.tickets[t].ticket
    && (forall i, j :: 0 <= i < j < |snapshot.attachments| ==> snapshot.attachments[i].id < snapshot.attachments[j].id)
    && (forall i :: 0 <= i < |snapshot.attachments| ==> Describes(s, t, snapshot.attachments[i]))
    && (forall f :: f in s.uploads && s.uploads[f].ticket == t && s.uploads[f].published ==>
          Lists(snapshot.attachments, f))
  }

  lemma PublishedAreReady(render: Renderer, sys: System, t: Id)
    requires Safe(render, sys)
    ensures var ids := Sorted(PublishedOf(sys.db.uploads, t));
            && ReadyAmong(sys.db.files, ids) == PublishedOf(sys.db.uploads, t) && AllReady(sys.db.files, ids)
    ensures forall f :: f in PublishedOf(sys.db.uploads, t) ==>
              f in sys.db.files && sys.db.files[f].state == Ready && sys.db.files[f].readyCandidate.Some?
  {
    var published := PublishedOf(sys.db.uploads, t);
    forall f ensures f in Sorted(published) <==> f in published { SortedHas(published, f); }
    assert UploadsOk(sys.db) && ReadyObjectsOk(sys.db, sys.objects);
  }

  lemma SnapshotFreezes(render: Renderer, sys: System, t: Id)
    requires Safe(render, sys) && t in sys.db.tickets
    ensures Freezes(sys.db, t, SnapshotOf(sys.db, t))
  {
    var published := PublishedOf(sys.db.uploads, t);
    PublishedAreReady(render, sys, t);
    hide Safe, PublishedOf, ReadyAmong;
    EntriesDescribe(sys.db, t, published, Snapshots(sys.db.files, Sorted(published)));
  }

  lemma EntriesDescribe(s: State, t: Id, published: set<Id>, entries: seq<FileSnapshot>)
    requires published == PublishedOf(s.uploads, t) && ReadyAmong(s.files, Sorted(published)) == published
    requires entries == Snapshots(s.files, Sorted(published))
    requires forall f :: f in published ==> f in s.files && s.files[f].state == Ready && s.files[f].readyCandidate.Some?
    ensures forall i, j :: 0 <= i < j < |entries| ==> entries[i].id < entries[j].id
    ensures forall i :: 0 <= i < |entries| ==> Describes(s, t, entries[i])
    ensures forall f :: f in published ==> Lists(entries, f)
  {
    var ids := Sorted(published);
    SortedAscends(published);
    forall i | 0 <= i < |entries| ensures entries[i].id == ids[i] && Describes(s, t, entries[i]) {
      SortedHas(published, ids[i]);
    }
    hide Describes, ReadyAmong, Snapshots;
    forall f | f in published ensures Lists(entries, f) {
      SortedHas(published, f);
      var i :| 0 <= i < |ids| && ids[i] == f;
      assert entries[i].id == f;
    }
  }

  /** There is no other such snapshot. */
  lemma FrozenIsUnique(s: State, t: Id, a: Snapshot, b: Snapshot)
    requires Freezes(s, t, a) && Freezes(s, t, b)
    ensures a == b
  {
    hide Describes, Lists, IdsOf, Elements, Sorted, Ascending;
    SameAreListed(s, t, a.attachments, b.attachments);
    SameAreListed(s, t, b.attachments, a.attachments);
    IdsAreSorted(a.attachments);
    IdsAreSorted(b.attachments);
    assert Elements(IdsOf(a.attachments)) == Elements(IdsOf(b.attachments));
    EntriesAreDetermined(s, t, a.attachments, b.attachments);
  }

  lemma IdsAreSorted(entries: seq<FileSnapshot>)
    requires forall i, j :: 0 <= i < j < |entries| ==> entries[i].id < entries[j].id
    ensures Sorted(Elements(IdsOf(entries))) == IdsOf(entries)
  {
    AscendingIsSorted(IdsOf(entries));
  }

  lemma SameAreListed(s: State, t: Id, a: seq<FileSnapshot>, b: seq<FileSnapshot>)
    requires forall i :: 0 <= i < |a| ==> Describes(s, t, a[i])
    requires forall f :: f in s.uploads && s.uploads[f].ticket == t && s.uploads[f].published ==> Lists(b, f)
    ensures Elements(IdsOf(a)) <= Elements(IdsOf(b))
  {
    forall f | f in IdsOf(a) ensures f in IdsOf(b) {
      var i :| 0 <= i < |a| && IdsOf(a)[i] == f;
      assert Describes(s, t, a[i]) && Lists(b, f);
      var j :| 0 <= j < |b| && b[j].id == f;
      assert IdsOf(b)[j] == f;
    }
  }

  lemma EntriesAreDetermined(s: State, t: Id, a: seq<FileSnapshot>, b: seq<FileSnapshot>)
    requires forall i :: 0 <= i < |a| ==> Describes(s, t, a[i])
    requires forall i :: 0 <= i < |b| ==> Describes(s, t, b[i])
    requires IdsOf(a) == IdsOf(b)
    ensures a == b
  {
    assert |a| == |IdsOf(a)| == |b|;
    forall i | 0 <= i < |a| ensures a[i] == b[i] {
      assert a[i].id == IdsOf(a)[i] == IdsOf(b)[i] == b[i].id;
      assert Describes(s, t, a[i]) && Describes(s, t, b[i]);
    }
  }

  /** The answer to a first request to export, in the order the checks are made. */
  ghost function RequestAnswer(render: Renderer, s: State, step: Step): Outcome<Id>
    requires step.RequestExport?
  {
    if step.actor !in s.members then Err(Forbidden)
    else if !HasAccess(s, step.actor, step.ticket) then Err(NotFound)
    else if step.session !in s.sessions || s.sessions[step.session] != step.actor then Err(Unauthorized)
    else if !IsVisibleKey(step.key) then Err(InvalidKey)
    else if |set e | e in s.exports && s.exports[e].ticket == step.ticket
                     && (s.exports[e].snapshot.Some? || s.exports[e].file.Some?)| >= 50 then Err(ExportLimit)
    else if |set f | f in s.uploads && s.uploads[f].ticket == step.ticket && s.uploads[f].published| > 8
    then Err(ExportTooLarge)
    else if render(SnapshotOf(s, step.ticket)).None? then Err(ExportTooLarge)
    else if step.job in s.jobs || step.id in s.exports then Err(Unavailable)
    else Ok(step.id)
  }

  /** The job, the export for an hour with what it froze, its event and its record are inserted together. */
  ghost predicate Requests(s: State, after: State, step: Step, snapshot: Snapshot)
    requires step.RequestExport?
  {
    && after == s.(jobs := after.jobs, exports := after.exports, records := after.records, audit := after.audit)
    && after.jobs == s.jobs[step.job := Job(step.id, Queued, 0, 0, 0, 3)]
    && after.exports == s.exports[step.id := ExportRow(step.ticket, step.actor, step.session, step.job, Some(snapshot),
                                                       None, s.now + 3600)]
    && after.audit == s.audit + [Event(step.actor, ExportRequested, step.id)]
  }

  lemma FreshRequestAnswers(render: Renderer, s: State, step: Step)
    requires step.RequestExport? && AllReady(s.files, Sorted(PublishedOf(s.uploads, step.ticket)))
    requires !LiveRecord(s, RecordKey(step.actor, ExportScope(step.ticket, step.spelling), step.key))
    ensures var (after, answer) := CreateExport(render, s, step.actor, step.session, step.ticket, step.spelling,
                                                step.key, step.id, step.job, step.purge);
            answer == RequestAnswer(render, s, step)
            && (answer.Err? ==> after == s)
            && (answer.Ok? ==> step.ticket in s.tickets && Requests(s, after, step, SnapshotOf(s, step.ticket)))
  {
    hide SnapshotOf, AllReady;
    var t := step.ticket;
    assert LiveExportsOf(s.exports, t)
        == set e | e in s.exports && s.exports[e].ticket == t
                   && (s.exports[e].snapshot.Some? || s.exports[e].file.Some?);
    assert PublishedOf(s.uploads, t) == set f | f in s.uploads && s.uploads[f].ticket == t && s.uploads[f].published;
  }

  /**
   * A first request to export freezes the ticket with its published attachments
   * for an hour and queues a job of three attempts, or it changes nothing. The
   * refusal for attachments that are not ready cannot happen.
   */
  lemma RequestAnswers(render: Renderer, sys: System, step: Step)
    requires Reachable(render, sys) && step.RequestExport?
    requires !LiveRecord(sys.db, RecordKey(step.actor, ExportScope(step.ticket, step.spelling), step.key))
    ensures var (after, reply) := Apply(render, sys, step);
            reply == ExportReply(RequestAnswer(render, sys.db, step))
            && (RequestAnswer(render, sys.db, step).Err? ==> after == sys)
            && (RequestAnswer(render, sys.db, step).Ok? ==>
                  && after == sys.(db := after.db)
                  && exists snapshot :: Freezes(sys.db, step.ticket, snapshot) && render(snapshot).Some?
                                        && Requests(sys.db, after.db, step, snapshot))
  {
    ReachableIsSafe(render, sys);
    PublishedAreReady(render, sys, step.ticket);
    if step.ticket in sys.db.tickets {
      SnapshotFreezes(render, sys, step.ticket);
    }
    FreshRequestAnswers(render, sys.db, step);
    hide CreateExport, Requests, Freezes, SnapshotOf, AllReady, Safe;
  }

  // ----- letting go ------------------------------------------------------------------------------

  /** An export that is due loses its data and its file is marked; any other stays as it is. */
  lemma ExpireAnswers(render: Renderer, sys: System, e: Id)
    requires Reachable(render, sys)
    ensures var (s, after) := (sys.db, Apply(render, sys, Expire(e)).0);
            if e in s.exports && s.exports[e].expiresAt <= s.now
               && (s.exports[e].snapshot.Some? || s.exports[e].file.Some?)
            then && after == sys.(db := s.(exports := after.db.exports, files := after.db.files,
                                           cleanups := after.db.cleanups))
                 && after.db.exports == s.exports[e := s.exports[e].(snapshot := None, file := None)]
                 && MarksExactly(s, after.db, if s.exports[e].file.Some? then {s.exports[e].file.value} else {})
            else after == sys
  {
    hide Apply, Safe, ExpireExport, MarksExactly;
    ReachableIsSafe(render, sys);
    ExpireApplies(render, sys, e);
    ExpiryMarks(render, sys, e);
  }

  lemma ExpireApplies(render: Renderer, sys: System, e: Id)
    ensures Apply(render, sys, Expire(e)).0 == sys.(db := ExpireExport(sys.db, e))
  {
    hide ExpireExport;
  }

  lemma ExpiryMarks(render: Renderer, sys: System, e: Id)
    requires Safe(render, sys)
    ensures var (s, after) := (sys.db, ExpireExport(sys.db, e));
            if e in s.exports && s.exports[e].expiresAt <= s.now
               && (s.exports[e].snapshot.Some? || s.exports[e].file.Some?)
            then && after == s.(exports := after.exports, files := after.files, cleanups := after.cleanups)
                 && after.exports == s.exports[e := s.exports[e].(snapshot := None, file := None)]
                 && MarksExactly(s, after, if s.exports[e].file.Some? then {s.exports[e].file.value} else {})
            else after == s
  {
    hide Safe, MarkAll;
    HeldFilesAreHere(render, sys, e);
    if Due(sys.db, e) {
      var doomed := FileOf(sys.db.exports[e]);
      MarkingIsExact(sys.db, doomed);
      var after, marked := ExpireExport(sys.db, e), MarkAll(sys.db, doomed);
      assert after.files == marked.files && after.cleanups == marked.cleanups;
    }
  }

  lemma HeldFilesAreHere(render: Renderer, sys: System, e: Id)
    requires Safe(render, sys)
    ensures e in sys.db.exports ==>
              forall f :: f in FileOf(sys.db.exports[e]) ==> f in sys.db.files && !sys.db.files[f].state.Gone()
  {
    if e in sys.db.exports && sys.db.exports[e].file.Some? {
      assert Holds(sys.db.exports, e, sys.db.exports[e].file.value);
      assert ExportFilesOk(sys.db);
    }
  }

  // ----- may the work go on ----------------------------------------------------------------------

  /** The attachment's file is the object that was frozen. */
  ghost predicate IsUnchanged(s: State, saved: FileSnapshot) {
    && saved.id in s.files
    && var file := s.files[saved.id];
       file.size == saved.size && file.sha256 == saved.sha256
       && (file.readyCandidate == Some(saved.objectKey) || (file.readyCandidate.None? && saved.objectKey == 0))
  }

  lemma UnchangedIsSameObject(s: State, saved: FileSnapshot)
    requires saved.id in s.files
    ensures SameObject(FileSnapshotOf(s.files, saved.id), saved) <==> IsUnchanged(s, saved)
  {
  }

  ghost predicate IsPublishedOn(s: State, t: Id, f: Id) {
    f in s.uploads && s.uploads[f].ticket == t && s.uploads[f].published
  }

  ghost predicate IsReady(s: State, f: Id) {
    f in s.files && s.files[f].state == Ready
  }

  /** The answer of the re-check before each step of the work, in the order it asks. */
  ghost function WorkAnswer(s: State, row: ExportRow, snapshot: Snapshot): Option<JobError> {
    var saved := snapshot.attachments;
    if row.expiresAt <= s.now then Some(Permanent(ExportExpired))
    else if snapshot.ticket.id != row.ticket then Some(Permanent(InvalidSnapshot))
    else if !HasAccess(s, row.requestedBy, row.ticket) then Some(Permanent(AccessRevoked))
    else if row.credential !in s.sessions || s.sessions[row.credential] != row.requestedBy then
      Some(Permanent(CredentialRevoked))
    else if (exists i, j :: 0 <= i < j < |saved| && saved[i].id == saved[j].id)
            || (exists i :: 0 <= i < |saved| && !IsPublishedOn(s, row.ticket, saved[i].id)) then
      Some(Permanent(InputChanged))
    else if exists i :: 0 <= i < |saved| && !IsReady(s, saved[i].id) then Some(Permanent(InputMissing))
    else if (exists i, j :: 0 <= i < j < |saved| && saved[j].id < saved[i].id)
            || (exists i :: 0 <= i < |saved| && !IsUnchanged(s, saved[i])) then Some(Permanent(InputChanged))
    else None
  }

  /**
   * The re-check gives up on what can never pass again and never asks for another
   * try: an export out of time, a requester or credential that lost its rights,
   * and attachments that were removed, lost or replaced.
   */
  lemma WorkAnswers(s: State, row: ExportRow, snapshot: Snapshot)
    ensures WorkRefusal(s, row, snapshot) == WorkAnswer(s, row, snapshot)
  {
    AccessIsNotRefused(s, row.requestedBy, row.ticket);
    AssociationsCount(s, row.ticket, snapshot.attachments);
    ReadyCount(s, snapshot.attachments);
    hide HasAccess;
    var saved := snapshot.attachments;
    if DistinctIds(saved) && forall i :: 0 <= i < |saved| ==> IsReady(s, saved[i].id) {
      SameInOrder(s, saved);
    }
  }

  ghost predicate DistinctIds(saved: seq<FileSnapshot>) {
    forall i, j :: 0 <= i < j < |saved| ==> saved[i].id != saved[j].id
  }

  lemma AssociationsCount(s: State, t: Id, saved: seq<FileSnapshot>)
    ensures |AssociatedAmong(s.uploads, t, IdsOf(saved))| == |IdsOf(saved)|
       <==> DistinctIds(saved) && forall i :: 0 <= i < |saved| ==> IsPublishedOn(s, t, saved[i].id)
  {
    var ids := IdsOf(saved);
    var rows := AssociatedAmong(s.uploads, t, ids);
    assert forall i :: 0 <= i < |saved| ==> ids[i] == saved[i].id && ids[i] in Elements(ids);
    CountCoversAll(rows, ids);
    if forall i :: 0 <= i < |saved| ==> IsPublishedOn(s, t, saved[i].id) {
      forall f | f in Elements(ids) ensures f in rows {
        var i :| 0 <= i < |ids| && ids[i] == f;
      }
    } else {
      var i :| 0 <= i < |saved| && !IsPublishedOn(s, t, saved[i].id);
      assert ids[i] !in rows;
    }
  }

  lemma ReadyCount(s: State, saved: seq<FileSnapshot>)
    ensures AllReady(s.files, IdsOf(saved))
       <==> DistinctIds(saved) && forall i :: 0 <= i < |saved| ==> IsReady(s, saved[i].id)
  {
    var ids := IdsOf(saved);
    var rows := ReadyAmong(s.files, ids);
    assert forall i :: 0 <= i < |saved| ==> ids[i] == saved[i].id && ids[i] in Elements(ids);
    CountCoversAll(rows, ids);
    if forall i :: 0 <= i < |saved| ==> IsReady(s, saved[i].id) {
      forall f | f in Elements(ids) ensures f in rows {
        var i :| 0 <= i < |ids| && ids[i] == f;
      }
    } else {
      var i :| 0 <= i < |saved| && !IsReady(s, saved[i].id);
      assert ids[i] !in rows;
    }
  }

  lemma SameInOrder(s: State, saved: seq<FileSnapshot>)
    requires DistinctIds(saved) && forall i :: 0 <= i < |saved| ==> IsReady(s, saved[i].id)
    ensures SameObjects(Snapshots(s.files, IdsOf(saved)), saved)
       <==> (forall i, j :: 0 <= i < j < |saved| ==> saved[i].id <= saved[j].id)
            && forall i :: 0 <= i < |saved| ==> IsUnchanged(s, saved[i])
  {
    var ids := IdsOf(saved);
    ReadyCount(s, saved);
    assert forall i :: 0 <= i < |saved| ==> ids[i] == saved[i].id && ids[i] in Elements(ids);
    CountCoversAll(ReadyAmong(s.files, ids), ids);
    hide SameObjects, Snapshots, SameObject, FileSnapshotOf, IsUnchanged;
    ObjectsMatchInOrder(s, saved);
    forall i | 0 <= i < |saved|
      ensures saved[i].id in s.files
      ensures SameObject(FileSnapshotOf(s.files, saved[i].id), saved[i]) <==> IsUnchanged(s, saved[i])
    {
      UnchangedIsSameObject(s, saved[i]);
    }
  }

  // ----- the steps of the work -------------------------------------------------------------------

  /** The answer of the load transaction. */
  ghost function LoadAnswer(render: Renderer, s: State, lease: Lease): Option<JobError> {
    if lease.exportId !in s.exports || s.exports[lease.exportId].job != lease.job then Some(Permanent(SourceMissing))
    else
      var row := s.exports[lease.exportId];
      if row.snapshot.None? then Some(Permanent(ExportExpired))
      else if render(row.snapshot.value).None? then Some(Permanent(OverLimit))
      else if WorkAnswer(s, row, row.snapshot.value).Some? then WorkAnswer(s, row, row.snapshot.value)
      else if IsStale(s, lease) then Some(LostLease)
      else None
  }

  /** Loading reads the export and its snapshot for the worker and writes nothing. */
  lemma LoadAnswers(render: Renderer, sys: System, p: Id, lease: Lease)
    ensures var answer := LoadAnswer(render, sys.db, lease);
            Apply(render, sys, LoadExport(p, lease))
            == (if answer.Some? then sys
                else
                  var row := sys.db.exports[lease.exportId];
                  sys.(workers := sys.workers[p := Worker(lease, Work(row, row.snapshot.value), None, false)]),
                WorkReply(answer))
  {
    if lease.exportId in sys.db.exports && sys.db.exports[lease.exportId].snapshot.Some? {
      WorkAnswers(sys.db, sys.db.exports[lease.exportId], sys.db.exports[lease.exportId].snapshot.value);
    }
    hide WorkRefusal, WorkAnswer;
  }

  ghost function PrepareAnswer(s: State, w: Worker, text: string, f: Id, c: Id): Option<JobError> {
    var again := WorkAnswer(s, w.work.row, w.work.snapshot);
    if again.Some? then again
    else if IsStale(s, w.lease) then Some(LostLease)
    else if ByteLength(text) > 65536 then Some(Permanent(InputInvalid))
    else if f in s.files || c in s.candidates then Some(Transient(StorageUnavailable))
    else None
  }

  /** Preparing announces a file for the rendered document, for an hour, and one attempt to write it. */
  lemma PrepareAnswers(render: Renderer, sys: System, p: Id, name: string, f: Id, c: Id)
    requires p in sys.workers && render(sys.workers[p].work.snapshot).Some?
    ensures var (s, w) := (sys.db, sys.workers[p]);
            var text := render(w.work.snapshot).value;
            var answer := PrepareAnswer(s, w, text, f, c);
            var row := File(name, "application/json", ByteLength(text), Sha256(text), PendingUpload, None,
                            s.now + 3600);
            Apply(render, sys, PrepareExport(p, name, f, c))
            == (if answer.Some? then sys
                else sys.(db := s.(files := s.files[f := row], candidates := s.candidates[c := Candidate(f, Copying)]),
                          workers := sys.workers[p := Worker(w.lease, w.work, Some(Target(f, c)), false)]),
                WorkReply(answer))
  {
    WorkAnswers(sys.db, sys.workers[p].work.row, sys.workers[p].work.snapshot);
    hide WorkRefusal, WorkAnswer;
  }

  /** The document is written once. */
  lemma WriteAnswers(render: Renderer, sys: System, p: Id)
    requires p in sys.workers && sys.workers[p].target.Some? && render(sys.workers[p].work.snapshot).Some?
    ensures var (w, c) := (sys.workers[p], sys.workers[p].target.value.candidate);
            Apply(render, sys, WriteExport(p)).0
            == if c in sys.objects then sys
               else sys.(objects := sys.objects[c := render(w.work.snapshot).value],
                         workers := sys.workers[p := Worker(w.lease, w.work, w.target, true)])
  {
  }

  /** What becomes of a candidate depends on the file's row; only a lost candidate is worth another try. */
  ghost function AdoptionAnswer(s: State, f: Id, c: Id): Option<JobError> {
    if f !in s.files then Some(Permanent(InputMissing))
    else
      match s.files[f].state
      case PendingUpload =>
        if c !in s.candidates || s.candidates[c].file != f || s.candidates[c].state != Copying then
          Some(Transient(StorageUnavailable))
        else if s.files[f].expiresAt <= s.now then Some(Permanent(PublicationConflict))
        else None
      case Ready => Some(Permanent(PublicationConflict))
      case Rejected => Some(Permanent(InputInvalid))
      case Expired => Some(Permanent(ExportExpired))
      case Deleting => Some(Permanent(InputMissing))
      case Deleted => Some(Permanent(InputMissing))
  }

  ghost function PublishAnswer(s: State, w: Worker, f: Id, c: Id): Option<JobError> {
    var again := WorkAnswer(s, w.work.row, w.work.snapshot);
    var e := w.lease.exportId;
    if again.Some? then again
    else if IsStale(s, w.lease) then Some(LostLease)
    else if e !in s.exports || s.exports[e].job != w.lease.job || s.exports[e].file.Some? || s.exports[e].snapshot.None?
            || s.exports[e].expiresAt <= s.now then Some(Permanent(ExportExpired))
    else AdoptionAnswer(s, f, c)
  }

  /** The file is adopted and attached, the completion recorded and the job ended, all at once. */
  ghost predicate Publishes(s: State, after: State, w: Worker, f: Id, c: Id)
    requires f in s.files && w.lease.exportId in s.exports && w.lease.job in s.jobs
  {
    && after == s.(files := after.files, candidates := after.candidates, exports := after.exports, audit := after.audit,
                   jobs := after.jobs)
    && after.files == s.files[f := s.files[f].(state := Ready, readyCandidate := Some(c))]
    && after.candidates == OnlyAdopted(s.candidates, f, c)
    && after.exports == s.exports[w.lease.exportId := s.exports[w.lease.exportId].(file := Some(f))]
    && after.audit == s.audit + [Event(w.work.row.requestedBy, ExportCompleted, w.lease.exportId)]
    && after.jobs == s.jobs[w.lease.job := s.jobs[w.lease.job].(status := Succeeded)]
  }

  lemma AdoptionAnswers(s: State, f: Id, c: Id)
    ensures AdoptionAnswer(s, f, c)
         == match PublicationOf(s, f, c)
            case NewlyAdopted => None
            case PublicationRefused(error) => Some(FileJobError(error))
            case _ => Some(Permanent(PublicationConflict))
  {
  }

  /**
   * Publishing answers by what the rows say now; it publishes everything at once,
   * or it changes nothing.
   */
  lemma PublishAnswers(render: Renderer, sys: System, p: Id)
    requires p in sys.workers && sys.workers[p].written && sys.workers[p].target.Some?
    ensures var (s, w, f, c) := (sys.db, sys.workers[p], sys.workers[p].target.value.file,
                                 sys.workers[p].target.value.candidate);
            var (after, reply) := Apply(render, sys, PublishExport(p));
            reply == WorkReply(PublishAnswer(s, w, f, c))
            && if PublishAnswer(s, w, f, c).Some? then after == sys
               else after == sys.(db := after.db) && Publishes(s, after.db, w, f, c)
  {
    var (w, f, c) := (sys.workers[p], sys.workers[p].target.value.file, sys.workers[p].target.value.candidate);
    PublicationRow(sys.db, w, f, c);
    hide PublishRefusal, PublishWork, PublishAnswer, Publishes;
  }

  lemma PublicationRow(s: State, w: Worker, f: Id, c: Id)
    ensures PublishRefusal(s, w.lease, w.work, f, c) == PublishAnswer(s, w, f, c)
    ensures var after := PublishWork(s, w.lease, w.work, f, c);
            if PublishAnswer(s, w, f, c).Some? then after == s else Publishes(s, after, w, f, c)
  {
    WorkAnswers(s, w.work.row, w.work.snapshot);
    AdoptionAnswers(s, f, c);
    hide WorkRefusal, WorkAnswer, PublicationOf, FileJobError, Publishes, OnlyAdopted, WithAdopted;
    PublicationWrites(s, w, f, c);
  }

  lemma PublicationWrites(s: State, w: Worker, f: Id, c: Id)
    ensures PublishRefusal(s, w.lease, w.work, f, c).None? ==>
              && f in s.files && w.lease.exportId in s.exports && w.lease.job in s.jobs
              && Publishes(s, PublishWork(s, w.lease, w.work, f, c), w, f, c)
  {
    hide WorkRefusal;
    if PublishRefusal(s, w.lease, w.work, f, c).None? {
      assert c in s.candidates && s.candidates[c] == Candidate(f, Copying);
      assert WithAdopted(s.candidates, f, c) == OnlyAdopted(s.candidates, f, c);
    }
  }

  /** Giving up closes the attempt and leaves everything else. */
  lemma AbandonExportAnswers(render: Renderer, sys: System, p: Id)
    requires p in sys.workers && sys.workers[p].target.Some?
    ensures Apply(render, sys, AbandonExport(p)).0
         == sys.(db := sys.db.(candidates := GivenUp(sys.db.candidates, sys.workers[p].target.value.candidate)))
  {
  }

  /** A job is tried again only when the database or the storage failed it, and never for what the rows say. */
  lemma OnlyOutagesAreRetried(error: Failure)
    ensures AccessError(error) == Transient(DatabaseUnavailable) <==> error == Unavailable
    ensures AccessError(error) == Permanent(OverLimit) <==> error == ExportTooLarge
    ensures AccessError(error) == Permanent(AccessRevoked) <==> error != Unavailable && error != ExportTooLarge
    ensures FileJobError(error).Transient?
       <==> error !in {FileFailure(FileNotFound), FileFailure(UploadExpired), FileFailure(InvalidInput),
                       FileFailure(UploadRejected), FileFailure(TooLarge)}
    ensures FileJobError(error).Transient? ==> FileJobError(error) == Transient(StorageUnavailable)
  {
  }

  lemma WorkIsNeverRetried(s: State, row: ExportRow, snapshot: Snapshot)
    ensures var answer := WorkAnswer(s, row, snapshot); answer.Some? ==> answer.value.Permanent?
  {
  }

  /**
   * The worker is told to try again only if an id it drew is taken, or if its
   * attempt at a file that still waits was given up.
   */
  lemma RetriedExactlyWhen(render: Renderer, s: State, w: Worker, text: string, f: Id, c: Id)
    ensures LoadAnswer(render, s, w.lease) != Some(Transient(StorageUnavailable))
    ensures LoadAnswer(render, s, w.lease) != Some(Transient(DatabaseUnavailable))
    ensures PrepareAnswer(s, w, text, f, c).Some? && PrepareAnswer(s, w, text, f, c).value.Transient?
       <==> WorkAnswer(s, w.work.row, w.work.snapshot).None? && !IsStale(s, w.lease) && ByteLength(text) <= 65536
            && (f in s.files || c in s.candidates)
    ensures PublishAnswer(s, w, f, c).Some? && PublishAnswer(s, w, f, c).value.Transient?
       <==> && WorkAnswer(s, w.work.row, w.work.snapshot).None? && !IsStale(s, w.lease) && Awaits(s, w.lease)
            && f in s.files && s.files[f].state == PendingUpload
            && !(c in s.candidates && s.candidates[c] == Candidate(f, Copying))
  {
    WorkIsNeverRetried(s, w.work.row, w.work.snapshot);
    if w.lease.exportId in s.exports && s.exports[w.lease.exportId].snapshot.Some? {
      WorkIsNeverRetried(s, s.exports[w.lease.exportId], s.exports[w.lease.exportId].snapshot.value);
    }
    hide WorkAnswer, IsStale;
  }

  // ----- getting through -------------------------------------------------------------------------

  lemma WorkStaysInOrder(s: State, after: State, row: ExportRow, snapshot: Snapshot)
    requires WorkAnswer(s, row, snapshot).None? && after.now < row.expiresAt
    requires after.members == s.members && after.sessions == s.sessions && after.tickets == s.tickets
    requires after.uploads == s.uploads
    requires forall f :: f in s.files ==> f in after.files && after.files[f] == s.files[f]
    ensures WorkAnswer(after, row, snapshot).None?
  {
  }

  /** The export waits for its file, and its work may go on and stays small enough. */
  ghost predicate InOrder(render: Renderer, s: State, e: Id) {
    && e in s.exports && s.exports[e].snapshot.Some? && s.exports[e].file.None?
    && WorkAnswer(s, s.exports[e], s.exports[e].snapshot.value).None?
    && render(s.exports[e].snapshot.value).Some? && ByteLength(render(s.exports[e].snapshot.value).value) <= 65536
  }

  /** A worker that has loaded the export in time and holds its job publishes it. */
  lemma LoadedCompletes(render: Renderer, sys: System, e: Id, p: Id, token: Id, name: string, f: Id, c: Id,
                        t2: int, t3: int)
    requires InOrder(render, sys.db, e)
    requires var row := sys.db.exports[e];
             && p in sys.workers
             && sys.workers[p] == Worker(Lease(row.job, token, e), Work(row, row.snapshot.value), None, false)
             && row.job in sys.db.jobs && sys.db.jobs[row.job].status == Running && sys.db.jobs[row.job].token == token
             && sys.db.now <= t2 <= t3 < sys.db.jobs[row.job].leaseUntil && t3 < row.expiresAt <= sys.db.now + 3600
    requires f !in sys.db.files && c !in sys.db.candidates && c !in sys.objects
    ensures var row := sys.db.exports[e];
            var prepared := Apply(render, Apply(render, sys, Tick(t2)).0, PrepareExport(p, name, f, c));
            var written := Apply(render, prepared.0, WriteExport(p)).0;
            var (after, reply) := Apply(render, Apply(render, written, Tick(t3)).0, PublishExport(p));
            && prepared.1 == WorkReply(None) && reply == WorkReply(None)
            && after.db.exports == sys.db.exports[e := row.(file := Some(f))]
            && after.db.jobs == sys.db.jobs[row.job := sys.db.jobs[row.job].(status := Succeeded)]
            && StoredUnder(after, f, render(row.snapshot.value))
  {
    hide Apply, WorkAnswer, OnlyAdopted;
    var row := sys.db.exports[e];
    var text := render(row.snapshot.value).value;
    TickAnswers(render, sys, t2);
    var at2 := Apply(render, sys, Tick(t2)).0;
    WorkStaysInOrder(sys.db, at2.db, row, row.snapshot.value);
    PrepareAnswers(render, at2, p, name, f, c);
    var prepared := Apply(render, at2, PrepareExport(p, name, f, c)).0;
    WriteAnswers(render, prepared, p);
    var written := Apply(render, prepared, WriteExport(p)).0;
    TickAnswers(render, written, t3);
    var at3 := Apply(render, written, Tick(t3)).0;
    WorkStaysInOrder(sys.db, at3.db, row, row.snapshot.value);
    PublishAnswers(render, at3, p);
  }

  /**
   * An export gets through: claimed by a worker, loaded, prepared, written and
   * published while its lease and its hour last, with nothing changed about its
   * ticket, it ends published with its document stored and its job succeeded.
   */
  lemma ExportCompletes(render: Renderer, sys: System, e: Id, p: Id, token: Id, seconds: nat, name: string,
                        f: Id, c: Id, t1: int, t2: int, t3: int)
    requires InOrder(render, sys.db, e)
    requires var row := sys.db.exports[e];
             && row.job in sys.db.jobs && sys.db.jobs[row.job].exportId == e && IsFree(sys.db.jobs[row.job], sys.db.now)
             && sys.db.jobs[row.job].attempts < sys.db.jobs[row.job].maxAttempts
             && sys.db.now <= t1 <= t2 <= t3 < sys.db.now + seconds && t3 < row.expiresAt <= sys.db.now + 3600
    requires f !in sys.db.files && c !in sys.db.candidates && c !in sys.objects
    ensures var row := sys.db.exports[e];
            var claimed := Apply(render, sys, ClaimJob(row.job, token, seconds)).0;
            var loaded := Apply(render, Apply(render, claimed, Tick(t1)).0, LoadExport(p, Lease(row.job, token, e)));
            var prepared := Apply(render, Apply(render, loaded.0, Tick(t2)).0, PrepareExport(p, name, f, c));
            var written := Apply(render, prepared.0, WriteExport(p)).0;
            var (after, reply) := Apply(render, Apply(render, written, Tick(t3)).0, PublishExport(p));
            && loaded.1 == WorkReply(None) && prepared.1 == WorkReply(None) && reply == WorkReply(None)
            && after.db.exports == sys.db.exports[e := row.(file := Some(f))]
            && row.job in after.db.jobs && after.db.jobs[row.job].status == Succeeded
            && StoredUnder(after, f, render(row.snapshot.value))
  {
    hide Apply, WorkAnswer;
    var row := sys.db.exports[e];
    ClaimAnswers(render, sys, row.job, token, seconds);
    var claimed := Apply(render, sys, ClaimJob(row.job, token, seconds)).0;
    TickAnswers(render, claimed, t1);
    var at1 := Apply(render, claimed, Tick(t1)).0;
    WorkStaysInOrder(sys.db, at1.db, row, row.snapshot.value);
    LoadAnswers(render, at1, p, Lease(row.job, token, e));
    var loaded := Apply(render, at1, LoadExport(p, Lease(row.job, token, e))).0;
    LoadedCompletes(render, loaded, e, p, token, name, f, c, t2, t3);
  }

  /** What a request created is in order right away. */
  lemma RequestedIsInOrder(render: Renderer, sys: System, request: Step)
    requires Reachable(render, sys) && request.RequestExport?
    requires RequestAnswer(render, sys.db, request) == Ok(request.id)
    requires !LiveRecord(sys.db, RecordKey(request.actor, ExportScope(request.ticket, request.spelling), request.key))
    requires forall snapshot :: render(snapshot).Some? ==> ByteLength(render(snapshot).value) <= 65536
    ensures var after := Apply(render, sys, request).0.db;
            && InOrder(render, after, request.id) && after.exports[request.id].expiresAt == after.now + 3600
            && after.exports[request.id].job in after.jobs
            && after.jobs[after.exports[request.id].job] == Job(request.id, Queued, 0, 0, 0, 3)
  {
    hide Apply, Safe;
    ReachableIsSafe(render, sys);
    RequestAnswers(render, sys, request);
    var after := Apply(render, sys, request).0.db;
    var snapshot :| Freezes(sys.db, request.ticket, snapshot) && render(snapshot).Some?
                    && Requests(sys.db, after, request, snapshot);
    RowsCarryTheirIds(render, sys);
    FrozenIsInOrder(sys.db, after, request.ticket, snapshot, after.exports[request.id]);
  }

  lemma FrozenIsInOrder(s: State, after: State, t: Id, snapshot: Snapshot, row: ExportRow)
    requires Freezes(s, t, snapshot) && snapshot.ticket.id == t && row.ticket == t && after.now < row.expiresAt
    requires HasAccess(s, row.requestedBy, t)
    requires row.credential in s.sessions && s.sessions[row.credential] == row.requestedBy
    requires after.members == s.members && after.sessions == s.sessions && after.tickets == s.tickets
    requires after.uploads == s.uploads && after.files == s.files
    ensures WorkAnswer(after, row, snapshot).None?
  {
    assert forall i :: 0 <= i < |snapshot.attachments| ==> Describes(s, t, snapshot.attachments[i]);
  }

  // ----- living its hour -------------------------------------------------------------------------

  /** The export keeps what data it has, gets a file at most, or its time or its ticket's is over. */
  ghost predicate KeepsData(s: State, after: State, e: Id)
    requires e in s.exports && s.exports[e].ticket in s.tickets
  {
    || (e in after.exports && after.exports[e].snapshot == s.exports[e].snapshot
        && after.exports[e] == s.exports[e].(file := after.exports[e].file))
    || s.exports[e].expiresAt <= s.now
    || (s.exports[e].ticket in after.tickets && after.tickets[s.exports[e].ticket].deleted)
  }

  lemma RowsKeepExports(s: State)
    ensures forall actor, content, key, id, stamp, purge ::
              Create(s, actor, content, key, id, stamp, purge).0.exports == s.exports
    ensures forall actor, t, content, status, version, stamp ::
              Update(s, actor, t, content, status, version, stamp).0.exports == s.exports
  {
  }

  lemma AttachmentsKeepExports(s: State)
    ensures forall actor, t, f :: RemoveAttachment(s, actor, t, f).0.exports == s.exports
    ensures forall actor, t, input, key, id, lifetime, purge ::
              RegisterUpload(s, actor, t, input, key, id, lifetime, purge).0.exports == s.exports
  {
  }

  lemma CompletionsKeepExports(s: State)
    ensures forall actor, t, f, c :: PlanCompletion(s, actor, t, f, c).exports == s.exports
    ensures forall actor, session, t, f, c :: PublishUpload(s, actor, session, t, f, c).0.exports == s.exports
  {
  }

  lemma AttemptsKeepExports(s: State)
    ensures forall f, c, rejected :: AbandonAttempt(s, f, c, rejected).exports == s.exports
    ensures forall lease, work, name, text, f, c :: PrepareWork(s, lease, work, name, text, f, c).exports == s.exports
  {
  }

  predicate LeavesExports(step: Step) {
    !step.DeleteTicket? && !step.RequestExport? && !step.PublishExport? && !step.Expire?
  }

  lemma RequestKeepsExports(render: Renderer, sys: System, step: Step)
    requires step.CreateTicket? || step.UpdateTicket? || step.ReadTicket? || step.ListTickets? || step.StartUpload?
             || step.DeleteAttachment?
    ensures Apply(render, sys, step).0.db.exports == sys.db.exports
  {
    RowsKeepExports(sys.db);
    AttachmentsKeepExports(sys.db);
    hide Create, Update, RegisterUpload, RemoveAttachment;
  }

  lemma UploadKeepsExports(render: Renderer, sys: System, step: Step)
    requires step.PlanUpload? || step.VerifyUpload? || step.FinishUpload? || step.AbandonUpload?
    ensures Apply(render, sys, step).0.db.exports == sys.db.exports
  {
    CompletionsKeepExports(sys.db);
    AttemptsKeepExports(sys.db);
    hide PlanOf, PlanCompletion, PublishUpload, AbandonAttempt;
  }

  lemma WorkerKeepsExports(render: Renderer, sys: System, step: Step)
    requires step.LoadExport? || step.PrepareExport? || step.WriteExport? || step.AbandonExport?
    ensures Apply(render, sys, step).0.db.exports == sys.db.exports
  {
    AttemptsKeepExports(sys.db);
    hide LoadRefusal, Loaded, PrepareRefusal, PrepareWork, AbandonAttempt;
  }

  lemma OutsideKeepsExports(render: Renderer, sys: System, step: Step)
    requires step.SweepFile? || step.CollectObject? || step.Tick? || step.SetMember? || step.SetSession?
    ensures Apply(render, sys, step).0.db.exports == sys.db.exports
  {
    hide Collectable;
  }

  lemma JobsKeepExports(render: Renderer, sys: System, step: Step)
    requires step.ClaimJob? || step.RenewLease? || step.FailJob? || step.RetryJob?
    ensures Apply(render, sys, step).0.db.exports == sys.db.exports
  {
    hide HoldsLease, ClaimedJob;
  }

  lemma OthersKeepExports(render: Renderer, sys: System, step: Step)
    requires LeavesExports(step)
    ensures Apply(render, sys, step).0.db.exports == sys.db.exports
  {
    hide Apply;
    if step.PlanUpload? || step.VerifyUpload? || step.FinishUpload? || step.AbandonUpload? {
      UploadKeepsExports(render, sys, step);
    } else if step.LoadExport? || step.PrepareExport? || step.WriteExport? || step.AbandonExport? {
      WorkerKeepsExports(render, sys, step);
    } else if step.CreateTicket? || step.UpdateTicket? || step.ReadTicket? || step.ListTickets? || step.StartUpload?
              || step.DeleteAttachment? {
      RequestKeepsExports(render, sys, step);
    } else if step.ClaimJob? || step.RenewLease? || step.FailJob? || step.RetryJob? {
      JobsKeepExports(render, sys, step);
    } else {
      OutsideKeepsExports(render, sys, step);
    }
  }

  lemma ExportStepKeepsData(render: Renderer, sys: System, step: Step, e: Id)
    requires Reachable(render, sys) && e in sys.db.exports && sys.db.exports[e].ticket in sys.db.tickets
    requires step.DeleteTicket? || step.Expire? || step.PublishExport?
    ensures KeepsData(sys.db, Apply(render, sys, step).0.db, e)
  {
    hide Apply, HasAccess, MarksExactly, PublishAnswer, OnlyAdopted;
    match step
    case DeleteTicket(actor, t, stamp) => DeleteAnswers(render, sys, actor, t, stamp);
    case Expire(d) => ExpireAnswers(render, sys, d);
    case PublishExport(p) => PublicationKeepsData(render, sys, p, e);
  }

  lemma PublicationKeepsData(render: Renderer, sys: System, p: Id, e: Id)
    requires e in sys.db.exports && sys.db.exports[e].ticket in sys.db.tickets
    ensures KeepsData(sys.db, Apply(render, sys, PublishExport(p)).0.db, e)
  {
    hide PublishRefusal;
  }

  lemma RequestKeepsData(render: Renderer, sys: System, step: Step, e: Id)
    requires step.RequestExport? && e in sys.db.exports && sys.db.exports[e].ticket in sys.db.tickets
    ensures KeepsData(sys.db, Apply(render, sys, step).0.db, e)
  {
    hide CreateExport;
    RequestKeepsOthers(render, sys.db, step);
  }

  lemma RequestKeepsOthers(render: Renderer, s: State, step: Step)
    requires step.RequestExport?
    ensures var after := CreateExport(render, s, step.actor, step.session, step.ticket, step.spelling, step.key,
                                      step.id, step.job, step.purge).0;
            forall e :: e in s.exports ==> e in after.exports && after.exports[e] == s.exports[e]
  {
    hide ClaimKey, SnapshotOf, AllReady, PublishedOf;
  }

  lemma StepKeepsData(render: Renderer, sys: System, step: Step, e: Id)
    requires Reachable(render, sys) && e in sys.db.exports && sys.db.exports[e].ticket in sys.db.tickets
    ensures KeepsData(sys.db, Apply(render, sys, step).0.db, e)
  {
    hide Apply;
    if LeavesExports(step) {
      OthersKeepExports(render, sys, step);
    } else if step.RequestExport? {
      RequestKeepsData(render, sys, step, e);
    } else {
      ExportStepKeepsData(render, sys, step, e);
    }
  }

  /**
   * While an export's time lasts and its ticket is not deleted, it keeps its
   * snapshot, whatever else happens.
   */
  lemma {:induction false} ExportsLiveTheirHour(render: Renderer, sys: System, steps: seq<Step>, e: Id)
    requires Reachable(render, sys) && e in sys.db.exports && sys.db.exports[e].snapshot.Some?
    requires var later := Run(render, sys, steps).db;
             && later.now < sys.db.exports[e].expiresAt
             && (sys.db.exports[e].ticket in later.tickets ==> !later.tickets[sys.db.exports[e].ticket].deleted)
    ensures var later := Run(render, sys, steps).db;
            && e in later.exports && later.exports[e].snapshot == sys.db.exports[e].snapshot
            && later.exports[e] == sys.db.exports[e].(file := later.exports[e].file)
    decreases |steps|
  {
    if steps != [] {
      var next := Apply(render, sys, steps[0]).0;
      ReachableRunsEvolve(render, sys, steps);
      StepKeepsData(render, sys, steps[0], e);
      hide Apply;
      ExportsLiveTheirHour(render, next, steps[1..], e);
    }
  }

  lemma ReachableRunsEvolve(render: Renderer, sys: System, steps: seq<Step>)
    requires Reachable(render, sys) && steps != []
    ensures var next := Apply(render, sys, steps[0]).0;
            Reachable(render, next) && Evolves(sys.db, next.db) && Evolves(next.db, Run(render, sys, steps).db)
    ensures forall e :: e in sys.db.exports ==> sys.db.exports[e].ticket in sys.db.tickets
  {
    hide Apply, Evolves;
    ReachableIsSafe(render, sys);
    StepIsSafe(render, sys, steps[0]);
    var next := Apply(render, sys, steps[0]).0;
    RunIsSafe(render, next, steps[1..]);
    RunStaysReachable(render, sys, [steps[0]]);
    assert Run(render, sys, [steps[0]]) == Run(render, next, []) by {
      assert [steps[0]][1..] == [];
    }
  }
}
