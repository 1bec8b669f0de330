/** No leak and no dangling reference: what every transaction keeps of files and the rows that point at them. */
module TicketReferences {
  import opened Basics
  import opened TicketDomain
  import opened TicketModel
  import opened TicketTransactions
  import opened TicketSystem

  // ----- references: no leak, no dangling ------------------------------------------

  /** An upload row points at a file that was never marked, on a ticket that is not deleted. */
  ghost predicate UploadsOk(s: State) {
    forall f :: f in s.uploads ==>
      && f in s.files && !s.files[f].state.Gone()
      && s.uploads[f].ticket in s.tickets && !s.tickets[s.uploads[f].ticket].deleted
      && (s.uploads[f].published <==> s.files[f].state.Ready?)
  }

  /** An export row moves from pending to published to cleared, and only live tickets have live exports. */
  ghost predicate ExportsOk(s: State) {
    forall e :: e in s.exports ==>
      && s.exports[e].ticket in s.tickets
      && (s.exports[e].file.Some? ==> s.exports[e].snapshot.Some?)
      && (s.exports[e].snapshot.Some? ==> !s.tickets[s.exports[e].ticket].deleted)
  }

  ghost predicate Holds(exports: map<Id, ExportRow>, e: Id, f: Id) {
    e in exports && exports[e].file == Some(f)
  }

  /** The file of a published export is ready and belongs to that export alone. */
  ghost predicate ExportFilesOk(s: State) {
    && (forall e, f :: Holds(s.exports, e, f) ==> f in s.files && s.files[f].state.Ready? && f !in s.uploads)
    && (forall d, e, f :: Holds(s.exports, d, f) && Holds(s.exports, e, f) ==> d == e)
  }

  /** Every adopted file that is not on its way out is referenced. */
  ghost predicate NothingLeaks(s: State) {
    forall f :: f in s.files && s.files[f].state.Ready? ==> f in s.uploads || exists e :: Holds(s.exports, e, f)
  }

  /** Exactly the marked files have a cleanup job from this module, and exactly one. */
  ghost predicate CleanupsOk(s: State) {
    forall f :: s.cleanups[f] == if f in s.files && s.files[f].state.Gone() then 1 else 0
  }

  ghost predicate References(s: State) {
    UploadsOk(s) && ExportsOk(s) && ExportFilesOk(s) && NothingLeaks(s) && CleanupsOk(s)
  }

  // ----- how the rows may move ---------------------------------------------------------

  /** Uploads, exports, files and cleanups stay; tickets may be added or edited. */
  ghost predicate SameFiles(s: State, after: State) {
    && after.uploads == s.uploads && after.exports == s.exports && after.files == s.files
    && after.cleanups == s.cleanups
    && forall t :: t in s.tickets ==> t in after.tickets && after.tickets[t].deleted == s.tickets[t].deleted
  }

  lemma SameFilesKeepReferences(s: State, after: State)
    requires References(s)
    requires SameFiles(s, after)
    ensures References(after)
  {
  }

  /** A file that is neither ready nor marked may change to another such state. */
  lemma IdleFileKeepsReferences(s: State, f: Id, row: File, after: State)
    requires References(s)
    requires after.uploads == s.uploads && after.exports == s.exports && after.tickets == s.tickets
    requires after.cleanups == s.cleanups && after.files == s.files[f := row]
    requires f in s.files ==> !s.files[f].state.Ready? && !s.files[f].state.Gone()
    requires !row.state.Ready? && !row.state.Gone()
    ensures References(after)
  {
  }

  /** A new file that an upload row already references. */
  lemma NewUploadKeepsReferences(s: State, f: Id, row: File, t: Id, after: State)
    requires References(s)
    requires after.exports == s.exports && after.tickets == s.tickets && after.cleanups == s.cleanups
    requires f !in s.files && after.files == s.files[f := row] && row.state.PendingUpload?
    requires t in s.tickets && !s.tickets[t].deleted
    requires after.uploads == s.uploads[f := UploadRow(t, false)]
    ensures References(after)
  {
  }

  /** A pending upload becomes ready and its row published, together. */
  lemma AdoptUploadKeepsReferences(s: State, f: Id, row: File, after: State)
    requires References(s)
    requires after.exports == s.exports && after.tickets == s.tickets && after.cleanups == s.cleanups
    requires f in s.uploads && row.state.Ready?
    requires after.files == s.files[f := row]
    requires after.uploads == s.uploads[f := s.uploads[f].(published := true)]
    requires s.files[f].state.PendingUpload?
    ensures References(after)
  {
  }

  /** A pending generated file becomes ready and its export published, together. */
  lemma AdoptExportKeepsReferences(s: State, f: Id, row: File, e: Id, after: State)
    requires References(s)
    requires after.uploads == s.uploads && after.tickets == s.tickets && after.cleanups == s.cleanups
    requires f in s.files && s.files[f].state.PendingUpload? && f !in s.uploads
    requires row.state.Ready? && after.files == s.files[f := row]
    requires e in s.exports && s.exports[e].file.None? && s.exports[e].snapshot.Some?
    requires after.exports == s.exports[e := s.exports[e].(file := Some(f))]
    ensures References(after)
  {
    forall x | x in after.files && after.files[x].state.Ready? && x !in after.uploads
      ensures exists d :: Holds(after.exports, d, x)
    {
      if x == f {
        assert Holds(after.exports, e, f);
      } else {
        var d :| Holds(s.exports, d, x);
        assert Holds(after.exports, d, x);
      }
    }
    assert forall d, x :: Holds(after.exports, d, x) ==> (d == e && x == f) || Holds(s.exports, d, x);
  }

  /** A new pending export row on a ticket that is not deleted. */
  lemma NewExportKeepsReferences(s: State, e: Id, row: ExportRow, after: State)
    requires References(s)
    requires after.uploads == s.uploads && after.tickets == s.tickets && after.cleanups == s.cleanups
    requires after.files == s.files
    requires e !in s.exports && after.exports == s.exports[e := row]
    requires row.ticket in s.tickets && !s.tickets[row.ticket].deleted && row.file.None?
    ensures References(after)
  {
    assert forall d, x :: Holds(after.exports, d, x) <==> Holds(s.exports, d, x);
    forall x | x in after.files && after.files[x].state.Ready? && x !in after.uploads
      ensures exists d :: Holds(after.exports, d, x)
    {
      var d :| Holds(s.exports, d, x);
      assert Holds(after.exports, d, x);
    }
  }

  /** Rows let go of some files and those files are marked, together. */
  ghost predicate Releases(s: State, ids: set<Id>, after: State) {
    && ids <= s.files.Keys
    && after.files == MarkAll(s, ids).files && after.cleanups == MarkAll(s, ids).cleanups
    && (forall f :: f in ids ==> f in s.uploads || exists e :: Holds(s.exports, e, f))
    && (forall f :: f in after.uploads ==> f in s.uploads && after.uploads[f] == s.uploads[f])
    && (forall f :: f in s.uploads && f !in after.uploads ==> f in ids)
    && (forall f :: f in ids ==> f !in after.uploads)
    && after.exports.Keys == s.exports.Keys
    && (forall e :: e in s.exports ==> after.exports[e] == s.exports[e] || after.exports[e] == Cleared(s.exports[e]))
    && (forall e, f :: Holds(s.exports, e, f) && f !in ids ==> Holds(after.exports, e, f))
    && (forall e, f :: Holds(after.exports, e, f) ==> f !in ids)
    && (forall t :: t in s.tickets ==> t in after.tickets)
    && (forall t :: t in s.tickets && after.tickets[t].deleted && !s.tickets[t].deleted ==>
          (forall f :: f in after.uploads ==> after.uploads[f].ticket != t)
          && (forall e :: e in after.exports && after.exports[e].ticket == t ==> after.exports[e].snapshot.None?))
  }

  lemma ReleasedFilesWereLive(s: State, ids: set<Id>)
    requires UploadsOk(s) && ExportFilesOk(s)
    requires forall f :: f in ids ==> f in s.uploads || exists e :: Holds(s.exports, e, f)
    ensures Unmarked(s.files, ids) == ids
    ensures forall f :: f in ids ==> f in s.files && !s.files[f].state.Gone()
  {
    forall f | f in ids ensures f in Unmarked(s.files, ids) {
      if f !in s.uploads {
        var e :| Holds(s.exports, e, f);
      }
    }
  }

  lemma ReleaseKeepsReferences(s: State, ids: set<Id>, after: State)
    requires References(s)
    requires Releases(s, ids, after)
    ensures References(after)
  {
    ReleasedFilesWereLive(s, ids);
    ReleaseKeepsUploads(s, ids, after);
    ReleaseKeepsExports(s, ids, after);
    ReleaseKeepsFiles(s, ids, after);
    assert CleanupsOk(after);
  }

  lemma ReleaseKeepsUploads(s: State, ids: set<Id>, after: State)
    requires UploadsOk(s) && Releases(s, ids, after) && Unmarked(s.files, ids) == ids
    ensures UploadsOk(after)
  {
  }

  lemma ReleaseKeepsExports(s: State, ids: set<Id>, after: State)
    requires ExportsOk(s) && Releases(s, ids, after)
    ensures ExportsOk(after)
  {
  }

  lemma ReleaseKeepsFiles(s: State, ids: set<Id>, after: State)
    requires ExportFilesOk(s) && NothingLeaks(s) && Releases(s, ids, after) && Unmarked(s.files, ids) == ids
    ensures ExportFilesOk(after) && NothingLeaks(after)
  {
    assert forall e, f :: Holds(after.exports, e, f) ==> Holds(s.exports, e, f);
    forall f | f in after.files && after.files[f].state.Ready? && f !in after.uploads
      ensures exists e :: Holds(after.exports, e, f)
    {
      var e :| Holds(s.exports, e, f);
      assert Holds(after.exports, e, f);
    }
  }

  // ----- the transactions ----------------------------------------------------------------

  lemma CreateTouchesNoFile(s: State, actor: Id, content: Content, key: string, id: Id, stamp: int,
                            purge: set<RecordKey>)
    ensures SameFiles(s, Create(s, actor, content, key, id, stamp, purge).0)
  {
    var k := RecordKey(actor, TicketScope, key);
    var claim := ClaimKey(s, k, OfTicket(content), purge);
    if CreateRefusal(s, actor, k, id, claim).None? && claim.saved.None? {
      NewTicketTouchesNoFile(s, id, Create(s, actor, content, key, id, stamp, purge).0);
    }
  }

  lemma NewTicketTouchesNoFile(s: State, id: Id, after: State)
    requires id !in s.tickets && id in after.tickets
    requires after == s.(tickets := s.tickets[id := after.tickets[id]], records := after.records, audit := after.audit)
    ensures SameFiles(s, after)
  {
  }

  lemma CreateKeepsReferences(s: State, actor: Id, content: Content, key: string, id: Id, stamp: int,
                              purge: set<RecordKey>)
    requires References(s)
    ensures References(Create(s, actor, content, key, id, stamp, purge).0)
  {
    CreateTouchesNoFile(s, actor, content, key, id, stamp, purge);
    SameFilesKeepReferences(s, Create(s, actor, content, key, id, stamp, purge).0);
  }

  lemma UpdateKeepsReferences(s: State, actor: Id, t: Id, content: Content, status: Status, version: int, stamp: int)
    requires References(s)
    ensures References(Update(s, actor, t, content, status, version, stamp).0)
  {
    var after := Update(s, actor, t, content, status, version, stamp).0;
    assert SameFiles(s, after);
    SameFilesKeepReferences(s, after);
  }

  lemma RemoveKeepsReferences(s: State, actor: Id, t: Id, stamp: int)
    requires References(s)
    ensures References(Remove(s, actor, t, stamp).0)
  {
    var after := Remove(s, actor, t, stamp).0;
    if RemoveRefusal(s, actor, t).None? {
      RemoveReleases(s, actor, t, stamp, after);
      ReleaseKeepsReferences(s, FilesOf(s.uploads, s.exports, t), after);
    }
  }

  lemma RemoveReleases(s: State, actor: Id, t: Id, stamp: int, after: State)
    requires References(s)
    requires RemoveRefusal(s, actor, t).None? && after == Remove(s, actor, t, stamp).0
    ensures Releases(s, FilesOf(s.uploads, s.exports, t), after)
  {
    RemovedRowsRelease(s, t, after);
  }

  lemma RemovedRowsRelease(s: State, t: Id, after: State)
    requires UploadsOk(s) && ExportFilesOk(s) && FilesOf(s.uploads, s.exports, t) <= s.files.Keys
    requires after.uploads == WithoutUploadsOf(s.uploads, t) && after.exports == WithClearedOf(s.exports, t)
    requires after.files == MarkAll(s, FilesOf(s.uploads, s.exports, t)).files
    requires after.cleanups == MarkAll(s, FilesOf(s.uploads, s.exports, t)).cleanups
    requires t in after.tickets && after.tickets == s.tickets[t := after.tickets[t]]
    ensures Releases(s, FilesOf(s.uploads, s.exports, t), after)
  {
    RemoveLetsGo(s, t, after.exports);
    UploadsAreNoExportFiles(s, t);
  }

  /** Clearing the exports of a ticket lets go of exactly its export files. */
  lemma RemoveLetsGo(s: State, t: Id, cleared: map<Id, ExportRow>)
    requires ExportFilesOk(s)
    requires cleared == WithClearedOf(s.exports, t)
    ensures forall f :: f in ExportFilesOf(s.exports, t) ==> exists e :: Holds(s.exports, e, f)
    ensures forall e, f :: Holds(s.exports, e, f) && f !in FilesOf(s.uploads, s.exports, t) ==> Holds(cleared, e, f)
    ensures forall e, f :: Holds(cleared, e, f) ==> f !in FilesOf(s.uploads, s.exports, t)
  {
    forall f | f in ExportFilesOf(s.exports, t) ensures exists e :: Holds(s.exports, e, f) && s.exports[e].ticket == t {
      var e :| e in s.exports && s.exports[e].ticket == t && s.exports[e].file == Some(f);
      assert Holds(s.exports, e, f);
    }
    forall e, f | Holds(s.exports, e, f) && f !in FilesOf(s.uploads, s.exports, t) ensures Holds(cleared, e, f) {
      assert s.exports[e].ticket == t ==> f in ExportFilesOf(s.exports, t);
    }
    forall e, f | Holds(cleared, e, f) ensures f !in FilesOf(s.uploads, s.exports, t) {
      assert Holds(s.exports, e, f);
    }
  }

  lemma UploadsAreNoExportFiles(s: State, t: Id)
    requires UploadsOk(s) && ExportFilesOk(s)
    ensures forall f :: f in s.uploads && f in FilesOf(s.uploads, s.exports, t) ==> s.uploads[f].ticket == t
  {
    forall f | f in s.uploads && f in ExportFilesOf(s.exports, t) ensures false {
      var e :| e in s.exports && s.exports[e].ticket == t && s.exports[e].file == Some(f);
      assert Holds(s.exports, e, f);
    }
  }

  lemma RegisterKeepsReferences(s: State, actor: Id, t: Id, input: UploadInput, key: string, id: Id,
                                lifetime: nat, purge: set<RecordKey>)
    requires References(s)
    ensures References(RegisterUpload(s, actor, t, input, key, id, lifetime, purge).0)
  {
    var after := RegisterUpload(s, actor, t, input, key, id, lifetime, purge).0;
    if after.uploads == s.uploads && after.files == s.files {
      SameFilesKeepReferences(s, after);
    } else {
      NewUploadKeepsReferences(s, id, NewFile(s, input, lifetime), t, after);
    }
  }

  lemma ExpireFileKeepsReferences(s: State, f: Id)
    requires References(s)
    requires f in s.files ==> !s.files[f].state.Ready? && !s.files[f].state.Gone()
    ensures References(ExpireFile(s, f))
  {
    if f in s.files {
      IdleFileKeepsReferences(s, f, s.files[f].(state := Expired), ExpireFile(s, f));
    }
  }

  lemma PlanKeepsReferences(s: State, actor: Id, t: Id, f: Id, candidate: Id)
    requires References(s)
    ensures References(PlanCompletion(s, actor, t, f, candidate))
  {
    var after := PlanCompletion(s, actor, t, f, candidate);
    if PlanOf(s, actor, t, f, candidate) == Ok(PlanExpired) {
      ExpireFileKeepsReferences(s, f);
    } else {
      SameFilesKeepReferences(s, after);
    }
  }

  lemma AbandonKeepsReferences(s: State, f: Id, c: Id, rejected: bool)
    requires References(s)
    ensures References(AbandonAttempt(s, f, c, rejected))
  {
    var after := AbandonAttempt(s, f, c, rejected);
    if after.files == s.files {
      SameFilesKeepReferences(s, after);
    } else {
      IdleFileKeepsReferences(s, f, s.files[f].(state := Rejected), after);
    }
  }

  lemma FinishKeepsReferences(s: State, actor: Id, session: Id, t: Id, f: Id, c: Id)
    requires References(s)
    ensures References(PublishUpload(s, actor, session, t, f, c).0)
  {
    var after := PublishUpload(s, actor, session, t, f, c).0;
    var answer := PublicationOf(s, f, c);
    if FinishRefusal(s, actor, session, t, f, answer).None? {
      if answer.NewlyAdopted? {
        AdoptUploadKeepsReferences(s, f, s.files[f].(state := Ready, readyCandidate := Some(c)), after);
      } else if answer.Existing? {
        SameFilesKeepReferences(s, after);
      } else {
        ExpireFileKeepsReferences(s, f);
        SameFilesKeepReferences(ExpireFile(s, f), after);
      }
    }
  }

  lemma DetachKeepsReferences(s: State, actor: Id, t: Id, f: Id)
    requires References(s)
    ensures References(RemoveAttachment(s, actor, t, f).0)
  {
    var after := RemoveAttachment(s, actor, t, f).0;
    if DetachRefusal(s, actor, t, f).None? {
      assert f in s.uploads;
      assert forall e :: !Holds(s.exports, e, f);
      assert Releases(s, {f}, after);
      ReleaseKeepsReferences(s, {f}, after);
    }
  }

  lemma RequestKeepsReferences(render: Renderer, s: State, actor: Id, session: Id, t: Id, spelling: string, key: string,
                               e: Id, job: Id, purge: set<RecordKey>)
    requires References(s)
    ensures References(CreateExport(render, s, actor, session, t, spelling, key, e, job, purge).0)
  {
    hide ClaimKey, SnapshotOf, AllReady, PublishedOf, References;
    var after := CreateExport(render, s, actor, session, t, spelling, key, e, job, purge).0;
    var claim := ClaimKey(s, RecordKey(actor, ExportScope(t, spelling), key), OfNothing, purge);
    if RequestRefusal(render, s, actor, session, t, e, job, claim).None? {
      if claim.saved.Some? {
        SameFilesKeepReferences(s, after);
      } else {
        NewExportKeepsReferences(s, e, after.exports[e], after);
      }
    }
  }

  lemma PrepareKeepsReferences(s: State, lease: Lease, work: Work, name: string, text: string, f: Id, c: Id)
    requires References(s)
    ensures References(PrepareWork(s, lease, work, name, text, f, c))
  {
    var after := PrepareWork(s, lease, work, name, text, f, c);
    if PrepareRefusal(s, lease, work, text, f, c).None? {
      IdleFileKeepsReferences(s, f, after.files[f], after);
    }
  }

  /** A generated file is in no upload row: that is all publication needs of the worker's memory. */
  lemma PublishKeepsReferences(s: State, lease: Lease, work: Work, f: Id, c: Id)
    requires References(s) && f !in s.uploads
    ensures References(PublishWork(s, lease, work, f, c))
  {
    var after := PublishWork(s, lease, work, f, c);
    if PublishRefusal(s, lease, work, f, c).None? {
      AdoptExportKeepsReferences(s, f, after.files[f], lease.exportId, after);
    }
  }

  lemma ExpireKeepsReferences(s: State, e: Id)
    requires References(s)
    ensures References(ExpireExport(s, e))
  {
    if Due(s, e) {
      var ids := FileOf(s.exports[e]);
      ExpireReleases(s, e, ids, ExpireExport(s, e));
      ReleaseKeepsReferences(s, ids, ExpireExport(s, e));
    }
  }

  lemma ExpireReleases(s: State, e: Id, ids: set<Id>, after: State)
    requires References(s)
    requires Due(s, e) && ids == FileOf(s.exports[e]) && after == ExpireExport(s, e)
    ensures Releases(s, ids, after)
  {
    assert ids <= s.files.Keys by {
      forall f | f in ids ensures f in s.files {
        assert Holds(s.exports, e, f);
      }
    }
    ExpireLetsGo(s, e, ids, after.exports);
  }

  lemma ExpireLetsGo(s: State, e: Id, ids: set<Id>, cleared: map<Id, ExportRow>)
    requires ExportFilesOk(s)
    requires e in s.exports && ids == FileOf(s.exports[e])
    requires cleared == s.exports[e := Cleared(s.exports[e])]
    ensures forall f :: f in ids ==> f !in s.uploads && exists d :: Holds(s.exports, d, f)
    ensures forall d, f :: Holds(s.exports, d, f) && f !in ids ==> Holds(cleared, d, f)
    ensures forall d, f :: Holds(cleared, d, f) ==> f !in ids
  {
    forall f | f in ids ensures f !in s.uploads && exists d :: Holds(s.exports, d, f) {
      assert Holds(s.exports, e, f);
    }
    forall d, f | Holds(cleared, d, f) ensures f !in ids {
      assert Holds(s.exports, d, f) && d != e;
      assert f in ids ==> Holds(s.exports, e, f);
    }
  }

  lemma SweepKeepsReferences(s: State, f: Id)
    requires References(s)
    ensures References(Swept(s, f))
  {
    if f in s.files && s.files[f].state.Deleting? {
      DeletedKeepsReferences(s, f, Swept(s, f));
    } else if f in s.files && s.files[f].state.PendingUpload? {
      ExpireFileKeepsReferences(s, f);
    }
  }

  lemma DeletedKeepsReferences(s: State, f: Id, after: State)
    requires References(s)
    requires f in s.files && s.files[f].state.Deleting?
    requires after == s.(files := s.files[f := s.files[f].(state := Deleted)])
    ensures References(after)
  {
  }
}
