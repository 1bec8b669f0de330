/**
 * The tables and the transactions that change them, step by step: application.rs,
 * attachments.rs and exports.rs. A transaction that returns early rolls its
 * changes back.
 */
module TicketDatabase {
  import opened Basics
  import opened TicketDomain
  import opened TicketModel
  import opened TicketList
  import opened TicketSweep
  import opened TicketTransactions

  class Database {
    var now: int
    var members: map<Id, Role>
    var sessions: map<Id, Id>
    var tickets: map<Id, TicketRow>
    var uploads: map<Id, UploadRow>
    var exports: map<Id, ExportRow>
    var files: map<Id, File>
    var candidates: map<Id, Candidate>
    var jobs: map<Id, Job>
    var records: map<RecordKey, Record>
    var audit: seq<Event>
    var cleanups: multiset<Id>

    ghost function Rows(): State
      reads this
    {
      State(now, members, sessions, tickets, uploads, exports, files, candidates, jobs, records, audit, cleanups)
    }

    constructor (time: int)
      ensures Rows() == State(time, map[], map[], map[], map[], map[], map[], map[], map[], map[], [], multiset{})
    {
      now := time;
      members, sessions, tickets, uploads, exports := map[], map[], map[], map[], map[];
      files, candidates, jobs, records, audit, cleanups := map[], map[], map[], map[], [], multiset{};
    }

    // ----- what several transactions do --------------------------------------------------------

    method Authorized(actor: Id, t: Id) returns (r: Outcome<Ticket>)
      ensures r == Read(Rows(), actor, t)
    {
      if actor !in members { return Err(Forbidden); }
      var manager := members[actor] in {Owner, Admin};
      if t !in tickets || tickets[t].deleted || !(manager || tickets[t].ticket.createdBy == actor) {
        return Err(NotFound);
      }
      return Ok(tickets[t].ticket);
    }

    /** Ok(None): the key is new and now claimed. Ok(Some(saved)): it was used before. */
    method Claim(k: RecordKey, mark: Fingerprint, purge: set<RecordKey>) returns (r: Outcome<Option<Saved>>)
      modifies `records
      ensures match ClaimKey(old(Rows()), k, mark, purge)
              case KeyRefused(error) => r == Err(error) && records == old(records)
              case KeyGranted(granted, saved) => r == Ok(saved) && records == granted
    {
      if !ValidKey(k.key) { return Err(InvalidKey); }
      if k in records && now < records[k].expiresAt && records[k].fingerprint != mark { return Err(KeyConflict); }
      records := map x | x in records && !(x in purge && records[x].expiresAt <= now) :: records[x];
      if k in records && now < records[k].expiresAt { return Ok(records[k].response); }
      records := records[k := Record(mark, None, now + RECORD_RETENTION)];
      return Ok(None);
    }

    method Complete(k: RecordKey, saved: Saved)
      modifies `records
      ensures records == Completed(old(records), k, saved)
    {
      if k in records { records := records[k := records[k].(response := Some(saved))]; }
    }

    /** Marks one file and enqueues its cleanup, unless it is on its way out already. */
    method MarkDeleting(f: Id) returns (r: Outcome<()>)
      modifies `files, `cleanups
      ensures r == if f in old(files) then Ok(()) else Err(FileFailure(FileNotFound))
      ensures r.Err? ==> files == old(files) && cleanups == old(cleanups)
      ensures files == Marked(old(files), {f}) && cleanups == old(cleanups) + multiset(Unmarked(old(files), {f}))
    {
      if f !in files { return Err(FileFailure(FileNotFound)); }
      if files[f].state.Deleting? || files[f].state.Deleted? {
        assert Unmarked(files, {f}) == {};
        return Ok(());
      }
      assert Unmarked(files, {f}) == {f};
      files := files[f := files[f].(state := Deleting)];
      cleanups := cleanups + multiset{f};
      return Ok(());
    }

    // ----- tickets --------------------------------------------------------------------------------

    method CreateTicket(actor: Id, content: Content, key: string, id: Id, stamp: int, purge: set<RecordKey>)
      returns (r: Outcome<Ticket>)
      modifies this
      ensures (Rows(), r) == Create(old(Rows()), actor, content, key, id, stamp, purge)
    {
      if actor !in members { return Err(Forbidden); }
      var k := RecordKey(actor, TicketScope, key);
      var before := records;
      var claim := Claim(k, OfTicket(content), purge);
      if claim.Err? { return Err(claim.error); }
      if claim.value.Some? {
        if !claim.value.value.SavedTicket? { records := before; return Err(Unavailable); }
        r := Authorized(actor, claim.value.value.id);
        if r.Err? { records := before; }
        return;
      }
      if id in tickets { records := before; return Err(Unavailable); }
      var ticket := Ticket(id, actor, content.title, content.description, Open, 1, stamp, stamp);
      tickets := tickets[id := TicketRow(ticket, false)];
      audit := audit + [Event(actor, TicketCreated, id)];
      Complete(k, SavedTicket(id));
      return Ok(ticket);
    }

    method ReadTicket(actor: Id, t: Id) returns (r: Outcome<Ticket>)
      ensures r == Read(Rows(), actor, t)
    {
      r := Authorized(actor, t);
    }

    method UpdateTicket(actor: Id, t: Id, content: Content, status: Status, version: int, stamp: int)
      returns (r: Outcome<Ticket>)
      modifies this
      ensures (Rows(), r) == Update(old(Rows()), actor, t, content, status, version, stamp)
    {
      var access := Authorized(actor, t);
      if access.Err? { return access; }
      if tickets[t].ticket.version != version { return Err(VersionConflict); }
      if tickets[t].ticket.version == MAX_VERSION { return Err(Unavailable); }
      var was := tickets[t].ticket;
      var ticket := was.(title := content.title, description := content.description, status := status,
                         version := was.version + 1, updatedAt := stamp);
      tickets := tickets[t := TicketRow(ticket, false)];
      audit := audit + [Event(actor, TicketUpdated, t)];
      return Ok(ticket);
    }

    method ListTickets(actor: Id, limit: nat) returns (r: Outcome<seq<Ticket>>)
      ensures r == List(Rows(), actor, limit)
    {
      if actor !in members { return Err(Forbidden); }
      var manager := members[actor].Owner? || members[actor].Admin?;
      var rest := Sorted(Visible(tickets, manager, actor));
      VisibleInOrder(tickets, Visible(tickets, manager, actor));
      ghost var all := Newest(tickets, rest, limit);
      var page := [];
      while |page| < limit && rest != []
        invariant |page| <= limit && forall t :: t in rest ==> t in tickets
        invariant page + Newest(tickets, rest, limit - |page|) == all
        decreases |rest|
      {
        page := page + [tickets[rest[|rest| - 1]].ticket];
        rest := rest[..|rest| - 1];
      }
      assert page == all;
      return Ok(page);
    }

    method DeleteTicket(actor: Id, t: Id, stamp: int) returns (r: Outcome<()>)
      modifies this
      ensures (Rows(), r) == Remove(old(Rows()), actor, t, stamp)
    {
      hide UploadsOf, LiveExportsOf, FilesOf;
      var access := Authorized(actor, t);
      if access.Err? { return Err(access.error); }
      var filesBefore, cleanupsBefore := files, cleanups;
      r := MarkFilesOf(t);
      if r.Ok? && tickets[t].ticket.version == MAX_VERSION { r := Err(Unavailable); }
      if r.Err? {
        files, cleanups := filesBefore, cleanupsBefore;
      } else {
        RemoveRows(actor, t, stamp);
      }
    }

    /** Marks every file the rows of the ticket point at, unless there are too many rows. */
    method MarkFilesOf(t: Id) returns (r: Outcome<()>)
      modifies `files, `cleanups
      ensures r == if |UploadsOf(uploads, t)| > MAX_ASSOCIATIONS || |LiveExportsOf(exports, t)| > MAX_LIVE_EXPORTS
                   then Err(Unavailable)
                   else if !(FilesOf(uploads, exports, t) <= old(files).Keys) then Err(FileFailure(FileNotFound))
                   else Ok(())
      ensures r.Ok? ==> files == Marked(old(files), FilesOf(uploads, exports, t))
      ensures r.Ok? ==> cleanups == old(cleanups) + multiset(Unmarked(old(files), FilesOf(uploads, exports, t)))
    {
      var uploadIds := Sorted(UploadsOf(uploads, t));
      var exportIds := Sorted(LiveExportsOf(exports, t));
      if |uploadIds| > 50 || |exportIds| > 50 { return Err(Unavailable); }
      SortedElements(UploadsOf(uploads, t));
      SortedElements(LiveExportsOf(exports, t));
      var fileIds := FilesPointedAt(t, uploadIds, exportIds);
      r := MarkEach(fileIds);
    }

    method RemoveRows(actor: Id, t: Id, stamp: int)
      requires t in tickets
      modifies `uploads, `exports, `tickets, `audit
      ensures uploads == WithoutUploadsOf(old(uploads), t) && exports == WithClearedOf(old(exports), t)
      ensures tickets == old(tickets)[t := TicketRow(Removed(old(tickets)[t].ticket, stamp), true)]
      ensures audit == old(audit) + [Event(actor, TicketDeleted, t)]
    {
      uploads := map f | f in uploads && uploads[f].ticket != t :: uploads[f];
      exports := map e | e in exports ::
        if exports[e].ticket == t && exports[e].Live() then exports[e].(snapshot := None, file := None) else exports[e];
      var was := tickets[t].ticket;
      tickets := tickets[t := TicketRow(was.(version := was.version + 1, updatedAt := stamp), true)];
      audit := audit + [Event(actor, TicketDeleted, t)];
    }

    /** Marks the files in order, and stops at one that does not exist. */
    method MarkEach(fileIds: seq<Id>) returns (r: Outcome<()>)
      requires Ascending(fileIds)
      modifies `files, `cleanups
      ensures r == if Elements(fileIds) <= old(files).Keys then Ok(()) else Err(FileFailure(FileNotFound))
      ensures r.Ok? ==> files == Marked(old(files), Elements(fileIds))
      ensures r.Ok? ==> cleanups == old(cleanups) + multiset(Unmarked(old(files), Elements(fileIds)))
    {
      ghost var done := {};
      var i := 0;
      while i < |fileIds|
        invariant i <= |fileIds|
        invariant forall f :: f in done <==> f in fileIds[..i]
        invariant done <= old(files).Keys
        invariant files == Marked(old(files), done)
        invariant cleanups == old(cleanups) + multiset(Unmarked(old(files), done))
      {
        assert fileIds[i] !in done;
        r := MarkDeleting(fileIds[i]);
        if r.Err? {
          assert fileIds[i] in Elements(fileIds);
          return;
        }
        MarkAnother(old(files), done, fileIds[i]);
        PrefixNext(fileIds, i);
        done := done + {fileIds[i]};
        i := i + 1;
      }
      assert fileIds[..i] == fileIds && done == Elements(fileIds);
      return Ok(());
    }

    /** The files of both kinds of rows, sorted and without repetitions. */
    method FilesPointedAt(t: Id, uploadIds: seq<Id>, exportIds: seq<Id>) returns (fileIds: seq<Id>)
      requires Elements(uploadIds) == UploadsOf(uploads, t) && Elements(exportIds) == LiveExportsOf(exports, t)
      ensures Ascending(fileIds) && Elements(fileIds) == FilesOf(uploads, exports, t)
    {
      fileIds := uploadIds;
      for i := 0 to |exportIds|
        invariant Elements(fileIds) == UploadsOf(uploads, t) + FilesAmong(exports, exportIds[..i])
      {
        assert exportIds[i] in Elements(exportIds);
        FilesAmongNext(exports, exportIds, i);
        if exports[exportIds[i]].file.Some? {
          ghost var before := fileIds;
          fileIds := fileIds + [exports[exportIds[i]].file.value];
          assert Elements(fileIds) == Elements(before) + {exports[exportIds[i]].file.value};
        }
      }
      assert exportIds[..|exportIds|] == exportIds;
      LiveExportsHaveTheFiles(exports, t, exportIds);
      SortedAscends(Elements(fileIds));
      SortedElements(Elements(fileIds));
      fileIds := Sorted(Elements(fileIds));
    }

    // ----- attachments ---------------------------------------------------------------------------

    /** Whether the file is published on the ticket; NotFound when it does not belong to it. */
    method Association(t: Id, f: Id) returns (r: Outcome<bool>)
      ensures r == if Associated(Rows(), t, f) then Ok(uploads[f].published) else Err(NotFound)
    {
      if f !in uploads || uploads[f].ticket != t { return Err(NotFound); }
      return Ok(uploads[f].published);
    }

    method StartUpload(actor: Id, t: Id, input: UploadInput, key: string, id: Id, lifetime: nat, purge: set<RecordKey>)
      returns (r: Outcome<Id>)
      modifies this
      ensures (Rows(), r) == RegisterUpload(old(Rows()), actor, t, input, key, id, lifetime, purge)
    {
      var access := Authorized(actor, t);
      if access.Err? { return Err(access.error); }
      var k := RecordKey(actor, UploadScope(t), key);
      var before := records;
      var claim := Claim(k, OfUpload(input), purge);
      if claim.Err? { return Err(claim.error); }
      if claim.value.Some? {
        var saved := claim.value.value;
        if !saved.SavedUpload? { records := before; return Err(Unavailable); }
        var associated := Association(t, saved.id);
        if associated.Err? { records := before; return Err(associated.error); }
        if saved.id !in files { records := before; return Err(FileFailure(FileNotFound)); }
        return Ok(saved.id);
      }
      if |UploadsOf(uploads, t)| >= MAX_ASSOCIATIONS { records := before; return Err(AttachmentLimit); }
      if !ValidInput(input) { records := before; return Err(FileFailure(InvalidInput)); }
      if id in files || id in uploads { records := before; return Err(FileFailure(FileUnavailable)); }
      files := files[id := File(input.fileName, input.contentType, input.size, input.sha256, PendingUpload, None,
                                now + lifetime)];
      uploads := uploads[id := UploadRow(t, false)];
      Complete(k, SavedUpload(id));
      return Ok(id);
    }

    method PlanUpload(actor: Id, t: Id, f: Id, candidate: Id) returns (r: Outcome<Plan>)
      modifies this
      ensures r == PlanOf(old(Rows()), actor, t, f, candidate)
      ensures Rows() == PlanCompletion(old(Rows()), actor, t, f, candidate)
    {
      var access := Authorized(actor, t);
      if access.Err? { return Err(access.error); }
      var published := Association(t, f);
      if published.Err? { return Err(published.error); }
      if f !in files { return Err(FileFailure(FileNotFound)); }
      match files[f].state {
        case Ready => if published.value { return Ok(AlreadyReady); } else { return Err(NotFound); }
        case Rejected => return Ok(PlanRejected);
        case Deleting => return Err(FileFailure(FileNotFound));
        case Deleted => return Err(FileFailure(FileNotFound));
        case _ =>
      }
      if files[f].state.Expired? || files[f].expiresAt <= now {
        files := files[f := files[f].(state := Expired)];
        return Ok(PlanExpired);
      }
      if candidate in candidates { return Err(FileFailure(FileUnavailable)); }
      candidates := candidates[candidate := Candidate(f, Copying)];
      return Ok(Attempt(candidate));
    }

    /** files::publish: adopts the candidate, or gives it up when it came too late. */
    method Publish(f: Id, c: Id) returns (r: Publication)
      modifies `files, `candidates
      ensures r == PublicationOf(old(Rows()), f, c)
      ensures match r
              case NewlyAdopted =>
                files == Adopt(old(Rows()), f, c).files && candidates == WithAdopted(old(candidates), f, c)
              case Existing => files == old(files) && candidates == WithAbandoned(old(candidates), c)
              case PublicationExpired =>
                files == WithState(old(files), f, Expired) && candidates == WithAbandoned(old(candidates), c)
              case PublicationRefused(_) => files == old(files) && candidates == old(candidates)
    {
      if f !in files { return PublicationRefused(FileFailure(FileNotFound)); }
      match files[f].state {
        case Ready =>
          candidates := WithAbandoned(candidates, c);
          return Existing;
        case Rejected => return PublicationRefused(FileFailure(UploadRejected));
        case Expired => return PublicationRefused(FileFailure(UploadExpired));
        case Deleting => return PublicationRefused(FileFailure(FileNotFound));
        case Deleted => return PublicationRefused(FileFailure(FileNotFound));
        case PendingUpload =>
      }
      if c !in candidates || candidates[c] != Candidate(f, Copying) {
        return PublicationRefused(FileFailure(FileUnavailable));
      }
      if files[f].expiresAt <= now {
        files := files[f := files[f].(state := Expired)];
        candidates := candidates[c := Candidate(f, Abandoned)];
        return PublicationExpired;
      }
      files := files[f := files[f].(state := Ready, readyCandidate := Some(c))];
      candidates := WithAdopted(candidates, f, c);
      return NewlyAdopted;
    }

    method FinishUpload(actor: Id, session: Id, t: Id, f: Id, c: Id) returns (r: Outcome<bool>)
      modifies this
      ensures (Rows(), r) == PublishUpload(old(Rows()), actor, session, t, f, c)
    {
      var access := Authorized(actor, t);
      if access.Err? { return Err(access.error); }
      if session !in sessions || sessions[session] != actor { return Err(Unauthorized); }
      var published := Association(t, f);
      if published.Err? { return Err(published.error); }
      var candidatesBefore := candidates;
      var answer := Publish(f, c);
      match answer {
        case NewlyAdopted =>
          uploads := uploads[f := uploads[f].(published := true)];
          audit := audit + [Event(actor, AttachmentPublished, f)];
          return Ok(true);
        case Existing =>
          if published.value { return Ok(true); }
          candidates := candidatesBefore;
          return Err(NotFound);
        case PublicationExpired => return Ok(false);
        case PublicationRefused(error) => return Err(error);
      }
    }

    /** The best-effort clean-up after a failed verification or publication. */
    method AbandonUpload(f: Id, c: Id, rejected: bool)
      modifies `files, `candidates
      ensures Rows() == AbandonAttempt(old(Rows()), f, c, rejected)
    {
      if c in candidates && candidates[c].state.Copying? {
        candidates := candidates[c := candidates[c].(state := Abandoned)];
      }
      if rejected && f in files && files[f].state.PendingUpload? {
        files := files[f := files[f].(state := Rejected)];
      }
    }

    method DeleteAttachment(actor: Id, t: Id, f: Id) returns (r: Outcome<()>)
      modifies this
      ensures (Rows(), r) == RemoveAttachment(old(Rows()), actor, t, f)
    {
      var access := Authorized(actor, t);
      if access.Err? { return Err(access.error); }
      if f !in uploads || uploads[f].ticket != t { return Err(NotFound); }
      var before := uploads;
      uploads := uploads - {f};
      var marked := MarkDeleting(f);
      if marked.Err? { uploads := before; return marked; }
      audit := audit + [Event(actor, AttachmentDeleted, f)];
      return Ok(());
    }

    // ----- exports ---------------------------------------------------------------------------------

    /** files::snapshots. */
    method ReadSnapshots(ids: seq<Id>) returns (r: Outcome<seq<FileSnapshot>>)
      ensures r == if AllReady(files, ids) then Ok(Snapshots(files, ids)) else Err(FileFailure(FileNotFound))
    {
      var ready := Sorted(ReadyAmong(files, ids));
      if |ready| != |ids| { return Err(FileFailure(FileNotFound)); }
      var found := [];
      while |found| < |ready|
        invariant |found| <= |ready| && found == Snapshots(files, ids)[..|found|]
        decreases |ready| - |found|
      {
        SortedHas(ReadyAmong(files, ids), ready[|found|]);
        found := found + [FileSnapshotOf(files, ready[|found|])];
      }
      assert found == Snapshots(files, ids);
      return Ok(found);
    }

    method TakeSnapshot(render: Renderer, ticket: Ticket, t: Id) returns (r: Outcome<Snapshot>)
      requires t in tickets && ticket == tickets[t].ticket
      ensures r == if |LiveExportsOf(exports, t)| >= MAX_LIVE_EXPORTS then Err(ExportLimit)
                   else if |PublishedOf(uploads, t)| > MAX_EXPORT_ATTACHMENTS then Err(ExportTooLarge)
                   else if !AllReady(files, Sorted(PublishedOf(uploads, t))) then Err(FileFailure(FileNotFound))
                   else if render(SnapshotOf(Rows(), t)).None? then Err(ExportTooLarge)
                   else Ok(SnapshotOf(Rows(), t))
    {
      if |LiveExportsOf(exports, t)| >= MAX_LIVE_EXPORTS { return Err(ExportLimit); }
      var ids := Sorted(PublishedOf(uploads, t));
      if |ids| > MAX_EXPORT_ATTACHMENTS { return Err(ExportTooLarge); }
      var attachments := ReadSnapshots(ids);
      if attachments.Err? { return Err(attachments.error); }
      var snapshot := Snapshot(ticket, attachments.value);
      if render(snapshot).None? { return Err(ExportTooLarge); }
      return Ok(snapshot);
    }

    method RequestedBefore(actor: Id, t: Id, saved: Saved) returns (r: Outcome<Id>)
      ensures r == if !saved.SavedExport? then Err(Unavailable)
                   else if saved.id in exports && exports[saved.id].ticket == t
                           && exports[saved.id].requestedBy == actor
                   then Ok(saved.id)
                   else Err(NotFound)
    {
      if !saved.SavedExport? { return Err(Unavailable); }
      if saved.id !in exports || exports[saved.id].ticket != t || exports[saved.id].requestedBy != actor {
        return Err(NotFound);
      }
      return Ok(saved.id);
    }

    method RequestExport(render: Renderer, actor: Id, session: Id, t: Id, spelling: string, key: string,
                         e: Id, job: Id, purge: set<RecordKey>) returns (r: Outcome<Id>)
      modifies this
      ensures (Rows(), r) == CreateExport(render, old(Rows()), actor, session, t, spelling, key, e, job, purge)
    {
      var access := Authorized(actor, t);
      if access.Err? { return Err(access.error); }
      if session !in sessions || sessions[session] != actor { return Err(Unauthorized); }
      var k := RecordKey(actor, ExportScope(t, spelling), key);
      var before := records;
      var claim := Claim(k, OfNothing, purge);
      if claim.Err? { return Err(claim.error); }
      if claim.value.Some? {
        r := RequestedBefore(actor, t, claim.value.value);
        if r.Err? { records := before; }
        return;
      }
      var snapshot := TakeSnapshot(render, access.value, t);
      if snapshot.Ok? && (job in jobs || e in exports) { snapshot := Err(Unavailable); }
      if snapshot.Err? { records := before; return Err(snapshot.error); }
      InsertExport(actor, session, t, snapshot.value, e, job);
      Complete(k, SavedExport(e));
      return Ok(e);
    }

    method InsertExport(actor: Id, session: Id, t: Id, snapshot: Snapshot, e: Id, job: Id)
      modifies `jobs, `exports, `audit
      ensures jobs == old(jobs)[job := Job(e, Queued, 0, 0, 0, 3)]
      ensures var row := ExportRow(t, actor, session, job, Some(snapshot), None, now + EXPORT_RETENTION);
              exports == old(exports)[e := row]
      ensures audit == old(audit) + [Event(actor, ExportRequested, e)]
    {
      jobs := jobs[job := Job(e, Queued, 0, 0, 0, 3)];
      exports := exports[e := ExportRow(t, actor, session, job, Some(snapshot), None, now + EXPORT_RETENTION)];
      audit := audit + [Event(actor, ExportRequested, e)];
    }

    method AuthorizeWork(row: ExportRow, snapshot: Snapshot) returns (r: Option<JobError>)
      ensures r == WorkRefusal(Rows(), row, snapshot)
    {
      if row.expiresAt <= now { return Some(Permanent(ExportExpired)); }
      if snapshot.ticket.id != row.ticket { return Some(Permanent(InvalidSnapshot)); }
      var access := Authorized(row.requestedBy, row.ticket);
      if access.Err? { return Some(AccessError(access.error)); }
      if row.credential !in sessions || sessions[row.credential] != row.requestedBy {
        return Some(Permanent(CredentialRevoked));
      }
      var ids := IdsOf(snapshot.attachments);
      if |AssociatedAmong(uploads, row.ticket, ids)| != |ids| { return Some(Permanent(InputChanged)); }
      var current := ReadSnapshots(ids);
      if current.Err? { return Some(FileJobError(current.error)); }
      var same := CompareObjects(current.value, snapshot.attachments);
      return if same then None else Some(Permanent(InputChanged));
    }

    /** The pairwise comparison of what is stored now with what was saved. */
    static method CompareObjects(current: seq<FileSnapshot>, saved: seq<FileSnapshot>) returns (same: bool)
      requires |current| == |saved|
      ensures same <==> SameObjects(current, saved)
    {
      for i := 0 to |saved|
        invariant forall j :: 0 <= j < i ==> SameObject(current[j], saved[j])
      {
        if current[i].id != saved[i].id || current[i].objectKey != saved[i].objectKey
           || current[i].size != saved[i].size || current[i].sha256 != saved[i].sha256 {
          return false;
        }
      }
      return true;
    }

    method LockCurrent(lease: Lease) returns (current: bool)
      ensures current <==> HoldsLease(Rows(), lease)
    {
      return lease.job in jobs && jobs[lease.job].status.Running? && jobs[lease.job].token == lease.token
             && now < jobs[lease.job].leaseUntil;
    }

    /** The load transaction; on success the worker keeps the row and its snapshot. */
    method LoadExport(render: Renderer, lease: Lease) returns (refusal: Option<JobError>, work: Option<Work>)
      ensures refusal == LoadRefusal(render, Rows(), lease)
      ensures refusal.None? ==> lease.exportId in exports && exports[lease.exportId].snapshot.Some?
                                && work == Some(Work(exports[lease.exportId], exports[lease.exportId].snapshot.value))
      ensures refusal.Some? ==> work.None?
    {
      var e := lease.exportId;
      if e !in exports || exports[e].job != lease.job { return Some(Permanent(SourceMissing)), None; }
      if exports[e].snapshot.None? { return Some(Permanent(ExportExpired)), None; }
      var snapshot := exports[e].snapshot.value;
      if render(snapshot).None? { return Some(AccessError(ExportTooLarge)), None; }
      refusal := AuthorizeWork(exports[e], snapshot);
      if refusal.Some? { return refusal, None; }
      var current := LockCurrent(lease);
      if !current { return Some(LostLease), None; }
      return None, Some(Work(exports[e], snapshot));
    }

    method PrepareExport(lease: Lease, work: Work, name: string, text: string, f: Id, c: Id)
      returns (refusal: Option<JobError>)
      modifies `files, `candidates
      ensures refusal == PrepareRefusal(old(Rows()), lease, work, text, f, c)
      ensures Rows() == PrepareWork(old(Rows()), lease, work, name, text, f, c)
    {
      refusal := AuthorizeWork(work.row, work.snapshot);
      if refusal.Some? { return; }
      var current := LockCurrent(lease);
      if !current { return Some(LostLease); }
      if ByteLength(text) > MAX_EXPORT_BYTES { return Some(FileJobError(FileFailure(InvalidInput))); }
      if f in files || c in candidates { return Some(Transient(StorageUnavailable)); }
      files := files[f := File(name, "application/json", ByteLength(text), Sha256(text), PendingUpload, None,
                               now + EXPORT_RETENTION)];
      candidates := candidates[c := Candidate(f, Copying)];
    }

    /** Re-checks, the fence, and that the export still waits for a file. */
    method MayPublish(lease: Lease, work: Work) returns (refusal: Option<JobError>)
      ensures refusal == if WorkRefusal(Rows(), work.row, work.snapshot).Some?
                         then WorkRefusal(Rows(), work.row, work.snapshot)
                         else if !HoldsLease(Rows(), lease) then Some(LostLease)
                         else if !Awaits(Rows(), lease) then Some(Permanent(ExportExpired))
                         else None
    {
      refusal := AuthorizeWork(work.row, work.snapshot);
      if refusal.Some? { return; }
      var current := LockCurrent(lease);
      if !current { return Some(LostLease); }
      var e := lease.exportId;
      if e !in exports || exports[e].job != lease.job || exports[e].file.Some? || exports[e].snapshot.None?
         || exports[e].expiresAt <= now {
        return Some(Permanent(ExportExpired));
      }
    }

    method PublishExport(lease: Lease, work: Work, f: Id, c: Id) returns (refusal: Option<JobError>)
      modifies this
      ensures refusal == PublishRefusal(old(Rows()), lease, work, f, c)
      ensures Rows() == PublishWork(old(Rows()), lease, work, f, c)
    {
      hide WorkRefusal;
      refusal := MayPublish(lease, work);
      if refusal.Some? { return; }
      var e := lease.exportId;
      var filesBefore, candidatesBefore := files, candidates;
      var answer := Publish(f, c);
      if !answer.NewlyAdopted? {
        files, candidates := filesBefore, candidatesBefore;
        return Some(if answer.PublicationRefused? then FileJobError(answer.error) else Permanent(PublicationConflict));
      }
      Attach(e, f, lease.job, work.row.requestedBy);
    }

    /** Attaches the file, records the completion and lets the job succeed. */
    method Attach(e: Id, f: Id, job: Id, requester: Id)
      requires e in exports && job in jobs
      modifies `exports, `audit, `jobs
      ensures exports == old(exports)[e := old(exports)[e].(file := Some(f))]
      ensures audit == old(audit) + [Event(requester, ExportCompleted, e)]
      ensures jobs == old(jobs)[job := old(jobs)[job].(status := Succeeded)]
    {
      exports := exports[e := exports[e].(file := Some(f))];
      audit := audit + [Event(requester, ExportCompleted, e)];
      jobs := jobs[job := jobs[job].(status := Succeeded)];
    }

    /** One row of the sweep, in its own transaction, which looks again before it clears. */
    method ExpireOne(e: Id)
      modifies `files, `cleanups, `exports
      ensures Rows() == ExpireExport(old(Rows()), e)
    {
      if e !in exports || now < exports[e].expiresAt || !exports[e].Live() { return; }
      if exports[e].file.Some? {
        var marked := MarkDeleting(exports[e].file.value);
        if marked.Err? { return; }
      }
      exports := exports[e := exports[e].(snapshot := None, file := None)];
    }

    /** The rows a round will look at: due, the earliest first, and no more than a batch. */
    method SelectDue(limit: nat) returns (due: seq<Id>)
      ensures due == FirstOf(exports, DueExports(exports, now), limit)
    {
      due := [];
      var rest := DueExports(exports, now);
      while |due| < limit && rest != {}
        invariant |due| <= limit && rest <= exports.Keys
        invariant due + FirstOf(exports, rest, limit - |due|) == FirstOf(exports, DueExports(exports, now), limit)
        decreases limit - |due|
      {
        var e := Earliest(exports, rest);
        due := due + [e];
        rest := rest - {e};
      }
    }

    method ScheduleExpiry()
      modifies `files, `cleanups, `exports
      ensures Rows() == AfterRound(old(Rows()))
    {
      var due := SelectDue(SWEEP_BATCH);
      while due != []
        invariant ExpireEach(Rows(), due) == AfterRound(old(Rows()))
        decreases |due|
      {
        ExpireOne(due[0]);
        due := due[1..];
      }
    }
  }

  lemma PrefixNext(ids: seq<Id>, i: nat)
    requires i < |ids|
    ensures forall f :: f in ids[..i + 1] <==> f in ids[..i] || f == ids[i]
  {
    assert ids[..i + 1] == ids[..i] + [ids[i]];
  }

  lemma SortedElements(ids: set<Id>)
    ensures Elements(Sorted(ids)) == ids
  {
    forall x ensures x in Elements(Sorted(ids)) <==> x in ids {
      SortedHas(ids, x);
    }
  }

  ghost function FilesAmong(exports: map<Id, ExportRow>, ids: seq<Id>): set<Id> {
    set e | e in ids && e in exports && exports[e].file.Some? :: exports[e].file.value
  }

  lemma FilesAmongNext(exports: map<Id, ExportRow>, ids: seq<Id>, i: nat)
    requires i < |ids| && ids[i] in exports
    ensures FilesAmong(exports, ids[..i + 1]) == FilesAmong(exports, ids[..i]) + FileOf(exports[ids[i]])
  {
    assert ids[..i + 1] == ids[..i] + [ids[i]];
    forall f | f in FilesAmong(exports, ids[..i]) + FileOf(exports[ids[i]])
      ensures f in FilesAmong(exports, ids[..i + 1])
    {
      if f in FileOf(exports[ids[i]]) {
        assert ids[i] in ids[..i + 1];
      }
    }
  }

  lemma LiveExportsHaveTheFiles(exports: map<Id, ExportRow>, t: Id, ids: seq<Id>)
    requires Elements(ids) == LiveExportsOf(exports, t)
    ensures FilesAmong(exports, ids) == ExportFilesOf(exports, t)
  {
    forall f | f in ExportFilesOf(exports, t) ensures f in FilesAmong(exports, ids) {
      var e :| e in exports && exports[e].ticket == t && exports[e].file == Some(f);
      assert e in Elements(ids);
    }
    forall f | f in FilesAmong(exports, ids) ensures f in ExportFilesOf(exports, t) {
      var e :| e in ids && e in exports && exports[e].file == Some(f);
      assert e in Elements(ids);
    }
  }

  /** Marking one more file. */
  lemma MarkAnother(files: map<Id, File>, marked: set<Id>, f: Id)
    requires f !in marked && f in files
    ensures Marked(Marked(files, marked), {f}) == Marked(files, marked + {f})
    ensures multiset(Unmarked(files, marked)) + multiset(Unmarked(Marked(files, marked), {f}))
         == multiset(Unmarked(files, marked + {f}))
  {
    assert Unmarked(Marked(files, marked), {f}) == Unmarked(files, {f});
    assert Unmarked(files, marked + {f}) == Unmarked(files, marked) + Unmarked(files, {f});
  }
}
