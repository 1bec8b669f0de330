/** What it means that the export worker may go on: exports.rs, authorize_work. */
module TicketAuthorization {
  import opened Basics
  import opened TicketModel
  import opened TicketTransactions
  import opened TicketSystem
  import opened TicketEvolution
  import opened TicketSafety
  import opened TicketRuns
  import opened TicketGuarantees

  /** The attachment is still published on the ticket and its object is the one that was saved. */
  ghost predicate StillAttached(s: State, t: Id, saved: FileSnapshot) {
    && saved.id in s.uploads && s.uploads[saved.id] == UploadRow(t, true)
    && saved.id in s.files && s.files[saved.id].state.Ready?
    && SameObject(FileSnapshotOf(s.files, saved.id), saved)
  }

  lemma SubsetOfSameSize(a: set<Id>, b: set<Id>)
    requires a <= b && |a| >= |b|
    ensures a == b
  {
    assert b == a + (b - a);
  }

  /** Counting as many rows as ids forces the ids to be distinct and each of them to be among the rows. */
  lemma CountCoversAll(rows: set<Id>, ids: seq<Id>)
    requires rows <= Elements(ids)
    ensures |rows| == |ids| <==> rows == Elements(ids) && Distinct(ids)
  {
    ElementsCount(ids);
    if |rows| == |ids| {
      SubsetOfSameSize(rows, Elements(ids));
    }
  }

  lemma {:induction false} AscendingIsSorted(ids: seq<Id>)
    requires Ascending(ids)
    ensures Sorted(Elements(ids)) == ids
  {
    if ids != [] {
      assert Smallest(Elements(ids)) == ids[0] by {
        assert ids[0] in Elements(ids);
      }
      assert Elements(ids) - {ids[0]} == Elements(ids[1..]) by {
        assert ids == [ids[0]] + ids[1..];
      }
      AscendingIsSorted(ids[1..]);
    }
  }

  /** The files are read back in the order asked for exactly when that order is ascending. */
  lemma ObjectsMatchInOrder(s: State, saved: seq<FileSnapshot>)
    requires ReadyAmong(s.files, IdsOf(saved)) == Elements(IdsOf(saved)) && Distinct(IdsOf(saved))
    ensures SameObjects(Snapshots(s.files, IdsOf(saved)), saved)
       <==> Ascending(IdsOf(saved))
            && forall i :: 0 <= i < |saved| ==>
                 saved[i].id in s.files && SameObject(FileSnapshotOf(s.files, saved[i].id), saved[i])
  {
    var ids := IdsOf(saved);
    var sorted := Sorted(Elements(ids));
    ElementsCount(ids);
    SortedAscends(Elements(ids));
    assert forall i :: 0 <= i < |saved| ==> ids[i] == saved[i].id && ids[i] in Elements(ids);
    if Ascending(ids) {
      AscendingIsSorted(ids);
    } else {
      assert sorted != ids;
    }
  }

  /** The three checks on the inputs together, in terms of each attachment. */
  lemma InputsUnchanged(s: State, t: Id, saved: seq<FileSnapshot>)
    ensures |AssociatedAmong(s.uploads, t, IdsOf(saved))| == |saved| && AllReady(s.files, IdsOf(saved))
            && SameObjects(Snapshots(s.files, IdsOf(saved)), saved)
       <==> Ascending(IdsOf(saved)) && forall i :: 0 <= i < |saved| ==> StillAttached(s, t, saved[i])
  {
    var ids := IdsOf(saved);
    var rows, ready := AssociatedAmong(s.uploads, t, ids), ReadyAmong(s.files, ids);
    assert forall i :: 0 <= i < |saved| ==> ids[i] == saved[i].id && ids[i] in Elements(ids);
    CountCoversAll(rows, ids);
    CountCoversAll(ready, ids);
    if rows == Elements(ids) && ready == Elements(ids) && Distinct(ids) {
      ObjectsMatchInOrder(s, saved);
      assert forall i :: 0 <= i < |saved| ==> ids[i] in rows && ids[i] in ready;
    } else if forall i :: 0 <= i < |saved| ==> StillAttached(s, t, saved[i]) {
      AllAttachedCovers(s, t, saved);
    }
  }

  lemma AllAttachedCovers(s: State, t: Id, saved: seq<FileSnapshot>)
    requires forall i :: 0 <= i < |saved| ==> StillAttached(s, t, saved[i])
    ensures AssociatedAmong(s.uploads, t, IdsOf(saved)) == Elements(IdsOf(saved))
    ensures ReadyAmong(s.files, IdsOf(saved)) == Elements(IdsOf(saved))
  {
    forall f | f in Elements(IdsOf(saved))
      ensures f in AssociatedAmong(s.uploads, t, IdsOf(saved)) && f in ReadyAmong(s.files, IdsOf(saved))
    {
      var i :| 0 <= i < |saved| && IdsOf(saved)[i] == f;
      assert StillAttached(s, t, saved[i]);
    }
  }

  /**
   * authorize_work passes exactly when the export has not expired, its ticket is
   * still the requester's to use, the credential is current, and every snapshotted
   * attachment is distinct, still published on the ticket and the same object.
   */
  lemma AuthorizedWorkMeans(s: State, row: ExportRow, snapshot: Snapshot)
    ensures WorkRefusal(s, row, snapshot).None?
       <==> && s.now < row.expiresAt && snapshot.ticket.id == row.ticket
            && AccessRefusal(s, row.requestedBy, row.ticket).None?
            && Current(s, row.requestedBy, row.credential)
            && Ascending(IdsOf(snapshot.attachments))
            && (forall i :: 0 <= i < |snapshot.attachments| ==>
                  StillAttached(s, row.ticket, snapshot.attachments[i]))
  {
    InputsUnchanged(s, row.ticket, snapshot.attachments);
  }

  // ----- the inputs of a published export -------------------------------------------------

  lemma SnapshotEntry(s: State, ids: seq<Id>, i: nat)
    requires i < |Snapshots(s.files, ids)|
    ensures var entry := Snapshots(s.files, ids)[i];
            entry.id in s.files && s.files[entry.id].state.Ready? && entry == FileSnapshotOf(s.files, entry.id)
  {
    SortedHas(ReadyAmong(s.files, ids), Sorted(ReadyAmong(s.files, ids))[i]);
  }

  lemma ReadyFileKeepsItsSnapshot(s: State, later: State, f: Id)
    requires Evolves(s, later) && f in s.files && s.files[f].state.Ready?
    ensures f in later.files && FileSnapshotOf(later.files, f) == FileSnapshotOf(s.files, f)
  {
  }

  lemma FrozenInputsUnchanged(s: State, later: State, t: Id)
    requires Evolves(s, later) && t in s.tickets
    ensures forall i :: 0 <= i < |SnapshotOf(s, t).attachments| ==>
              var saved := SnapshotOf(s, t).attachments[i];
              saved.id in later.files && FileSnapshotOf(later.files, saved.id) == saved
  {
    var ids := Sorted(PublishedOf(s.uploads, t));
    forall i | 0 <= i < |Snapshots(s.files, ids)|
      ensures Snapshots(s.files, ids)[i].id in later.files
      ensures FileSnapshotOf(later.files, Snapshots(s.files, ids)[i].id) == Snapshots(s.files, ids)[i]
    {
      SnapshotEntry(s, ids, i);
      ReadyFileKeepsItsSnapshot(s, later, Snapshots(s.files, ids)[i].id);
    }
  }

  /** Every attachment of the snapshot, in all its metadata, is what the ticket still has. */
  ghost predicate InputsAsRequested(s: State, t: Id, snapshot: Snapshot) {
    && Distinct(IdsOf(snapshot.attachments))
    && forall i :: 0 <= i < |snapshot.attachments| ==>
         && StillAttached(s, t, snapshot.attachments[i])
         && FileSnapshotOf(s.files, snapshot.attachments[i].id) == snapshot.attachments[i]
  }

  /**
   * Whenever any worker publishes the export a request created, however much
   * later, the snapshotted attachments are distinct, still associated with the
   * ticket, published, and unchanged since the request.
   */
  lemma PublicationFindsTheInputsAsRequested(render: Renderer, sys: System, request: Step, steps: seq<Step>, p: Id)
    requires Reachable(render, sys) && request.RequestExport?
    requires request.id !in sys.db.exports
    requires Apply(render, sys, request).1 == ExportReply(Ok(request.id))
    requires var later := Run(render, Apply(render, sys, request).0, steps);
             && p in later.workers && later.workers[p].lease.exportId == request.id
             && Apply(render, later, PublishExport(p)).1 == WorkReply(None)
    ensures request.ticket in sys.db.tickets
    ensures InputsAsRequested(Run(render, Apply(render, sys, request).0, steps).db, request.ticket,
                              SnapshotOf(sys.db, request.ticket))
  {
    hide Apply, Safe, SnapshotOf, StillAttached, InputsAsRequested;
    ReachableIsSafe(render, sys);
    RequestFreezes(render, sys, request);
    StepIsSafe(render, sys, request);
    var next := Apply(render, sys, request).0;
    RunIsSafe(render, next, steps);
    var later := Run(render, next, steps);
    EvolvesTransitive(sys.db, next.db, later.db);
    FrozenInputsUnchanged(sys.db, later.db, request.ticket);
    SafeProcesses(render, later);
    PublisherChecked(render, next, later, p, request.id, SnapshotOf(sys.db, request.ticket));
    ThenInputsAreAsRequested(later.db, request.ticket, SnapshotOf(sys.db, request.ticket));
  }

  lemma ThenInputsAreAsRequested(s: State, t: Id, snapshot: Snapshot)
    requires Ascending(IdsOf(snapshot.attachments))
    requires forall i :: 0 <= i < |snapshot.attachments| ==> StillAttached(s, t, snapshot.attachments[i])
    requires forall i :: 0 <= i < |snapshot.attachments| ==>
      snapshot.attachments[i].id in s.files
      && FileSnapshotOf(s.files, snapshot.attachments[i].id) == snapshot.attachments[i]
    ensures InputsAsRequested(s, t, snapshot)
  {
  }

  lemma PublisherRechecks(render: Renderer, sys: System, p: Id)
    requires p in sys.workers && Apply(render, sys, PublishExport(p)).1 == WorkReply(None)
    ensures WorkRefusal(sys.db, sys.workers[p].work.row, sys.workers[p].work.snapshot).None?
    ensures var e := sys.workers[p].lease.exportId;
            e in sys.db.exports && sys.db.exports[e].snapshot.Some?
  {
  }

  lemma PublisherChecked(render: Renderer, sys: System, later: System, p: Id, e: Id, snapshot: Snapshot)
    requires e in sys.db.exports && sys.db.exports[e].snapshot == Some(snapshot)
    requires Evolves(sys.db, later.db) && ProcessesOk(render, later)
    requires p in later.workers && later.workers[p].lease.exportId == e
    requires Apply(render, later, PublishExport(p)).1 == WorkReply(None)
    ensures Ascending(IdsOf(snapshot.attachments))
    ensures forall i :: 0 <= i < |snapshot.attachments| ==>
              StillAttached(later.db, sys.db.exports[e].ticket, snapshot.attachments[i])
  {
    PublisherRechecks(render, later, p);
    WorkIsOfTheRequest(render, sys.db, later, p, e, snapshot);
    AuthorizedWorkMeans(later.db, later.workers[p].work.row, snapshot);
  }

  lemma WorkIsOfTheRequest(render: Renderer, s: State, later: System, p: Id, e: Id, snapshot: Snapshot)
    requires e in s.exports && s.exports[e].snapshot == Some(snapshot) && Evolves(s, later.db)
    requires ProcessesOk(render, later) && p in later.workers && later.workers[p].lease.exportId == e
    requires e in later.db.exports && later.db.exports[e].snapshot.Some?
    ensures later.workers[p].work.snapshot == snapshot && later.workers[p].work.row.ticket == s.exports[e].ticket
  {
    assert WorkerOk(render, later.db, later.objects, later.workers[p]);
  }
}
