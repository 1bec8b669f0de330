/** What the ticket module guarantees over whole runs, whatever is interleaved. */
module TicketGuarantees {
  import opened Basics
  import opened TicketModel
  import opened TicketTransactions
  import opened TicketSystem
  import opened TicketReferences
  import opened TicketLedger
  import opened TicketEvolution
  import opened TicketSafety
  import opened TicketRuns

  /** A state some run from an empty database leads to. */
  ghost predicate Reachable(render: Renderer, sys: System) {
    exists start, steps :: Initial(start) && Run(render, start, steps) == sys
  }

  lemma ReachableIsSafe(render: Renderer, sys: System)
    requires Reachable(render, sys)
    ensures Safe(render, sys)
  {
    var start, steps :| Initial(start) && Run(render, start, steps) == sys;
    InitialIsSafe(render, start);
    RunIsSafe(render, start, steps);
  }

  lemma RunStaysReachable(render: Renderer, sys: System, steps: seq<Step>)
    requires Reachable(render, sys)
    ensures Reachable(render, Run(render, sys, steps))
  {
    var start, before :| Initial(start) && Run(render, start, before) == sys;
    RunAppend(render, start, before, steps);
  }

  // ----- files ---------------------------------------------------------------------------

  /**
   * No dangling reference: a file a row still points at was never marked for
   * deletion, and no two rows point at the same file.
   */
  lemma NoDanglingReference(render: Renderer, sys: System)
    requires Reachable(render, sys)
    ensures forall f :: f in sys.db.uploads ==>
              f in sys.db.files && sys.db.cleanups[f] == 0 && !sys.db.files[f].state.Gone()
    ensures forall e, f :: Holds(sys.db.exports, e, f) ==>
              f in sys.db.files && sys.db.cleanups[f] == 0 && !sys.db.files[f].state.Gone()
    ensures forall e, f :: Holds(sys.db.exports, e, f) ==> f !in sys.db.uploads
    ensures forall d, e, f :: Holds(sys.db.exports, d, f) && Holds(sys.db.exports, e, f) ==> d == e
  {
    ReachableIsSafe(render, sys);
  }

  /** Each file is marked for deletion at most once, by whichever transaction lets go of it. */
  lemma MarkedAtMostOnce(render: Renderer, sys: System, f: Id)
    requires Reachable(render, sys)
    ensures sys.db.cleanups[f] <= 1
    ensures sys.db.cleanups[f] == 1 <==> f in sys.db.files && sys.db.files[f].state.Gone()
  {
    ReachableIsSafe(render, sys);
  }

  ghost predicate Referenced(s: State, f: Id) {
    f in s.uploads || exists e :: Holds(s.exports, e, f)
  }

  lemma AdoptedIsReferencedOrMarked(s: State, f: Id)
    requires UploadsOk(s) && ExportFilesOk(s) && NothingLeaks(s) && CleanupsOk(s)
    requires f in s.files && (s.files[f].state.Ready? || s.files[f].state.Gone())
    ensures Referenced(s, f) <==> s.cleanups[f] == 0
  {
  }

  /**
   * No leak: a file adopted at any point of a run is, at every later point,
   * either referenced by a row or marked for deletion, and never both.
   */
  lemma NoLeak(render: Renderer, sys: System, steps: seq<Step>, f: Id)
    requires Reachable(render, sys) && f in sys.db.files && sys.db.files[f].state.Ready?
    ensures Referenced(Run(render, sys, steps).db, f) <==> Run(render, sys, steps).db.cleanups[f] == 0
  {
    ReachableIsSafe(render, sys);
    RunIsSafe(render, sys, steps);
    AdoptedIsReferencedOrMarked(Run(render, sys, steps).db, f);
  }

  /** The bytes behind every ready file stay in storage and match its digest. */
  lemma ReadyFilesHaveTheirBytes(render: Renderer, sys: System, f: Id)
    requires Reachable(render, sys) && f in sys.db.files && sys.db.files[f].state.Ready?
    ensures sys.db.files[f].readyCandidate.Some?
    ensures Matches(sys.db.files, sys.objects, f, sys.db.files[f].readyCandidate.value)
  {
    ReachableIsSafe(render, sys);
  }

  /**
   * A ticket one may use can always be deleted, until its version is exhausted:
   * the refusals for more than 50 rows and for a missing file cannot happen.
   */
  lemma DeletionAlwaysPossible(render: Renderer, sys: System, actor: Id, t: Id)
    requires Reachable(render, sys)
    ensures RemoveRefusal(sys.db, actor, t)
         == if AccessRefusal(sys.db, actor, t).Some? then AccessRefusal(sys.db, actor, t)
            else if sys.db.tickets[t].ticket.version == MAX_VERSION then Some(Unavailable)
            else None
  {
    ReachableIsSafe(render, sys);
    FilesOfExist(sys.db, t);
    RemovalRefusedOnlyFor(sys.db, actor, t);
  }

  lemma RemovalRefusedOnlyFor(s: State, actor: Id, t: Id)
    requires CapacityOk(s) && FilesOf(s.uploads, s.exports, t) <= s.files.Keys
    ensures RemoveRefusal(s, actor, t)
         == if AccessRefusal(s, actor, t).Some? then AccessRefusal(s, actor, t)
            else if s.tickets[t].ticket.version == MAX_VERSION then Some(Unavailable)
            else None
  {
  }

  lemma FilesOfExist(s: State, t: Id)
    requires UploadsOk(s) && ExportFilesOk(s)
    ensures FilesOf(s.uploads, s.exports, t) <= s.files.Keys
  {
    forall f | f in ExportFilesOf(s.exports, t) ensures f in s.files {
      var e :| e in s.exports && s.exports[e].ticket == t && s.exports[e].file == Some(f);
      assert Holds(s.exports, e, f);
    }
  }

  /**
   * Completing an upload never meets a file that is ready but not published:
   * neither when planning nor when publishing.
   */
  lemma ReadyMeansPublished(render: Renderer, sys: System, t: Id, f: Id)
    requires Reachable(render, sys) && Associated(sys.db, t, f)
    ensures f in sys.db.files && (sys.db.files[f].state.Ready? <==> sys.db.uploads[f].published)
    ensures forall actor, c :: AccessRefusal(sys.db, actor, t).None? ==>
              (PlanOf(sys.db, actor, t, f, c) == Ok(AlreadyReady) <==> sys.db.uploads[f].published)
    ensures forall c :: PublicationOf(sys.db, f, c).Existing? ==> sys.db.uploads[f].published
  {
    ReachableIsSafe(render, sys);
  }

  // ----- exports --------------------------------------------------------------------------

  /** An export is pending, published or cleared, and its phase never goes back. */
  datatype Phase = PendingPhase | PublishedPhase | ClearedPhase

  function PhaseOf(row: ExportRow): Phase {
    if !row.Live() then ClearedPhase else if row.file.Some? then PublishedPhase else PendingPhase
  }

  function Rank(p: Phase): nat {
    match p
    case PendingPhase => 0
    case PublishedPhase => 1
    case ClearedPhase => 2
  }

  /** The later row is the earlier one, or what publication and clearing made of it. */
  ghost predicate MovedForward(row: ExportRow, later: ExportRow) {
    && Rank(PhaseOf(row)) <= Rank(PhaseOf(later))
    && later == row.(snapshot := later.snapshot, file := later.file)
    && (PhaseOf(later).ClearedPhase? ==> later == Cleared(row))
    && (!PhaseOf(later).ClearedPhase? ==> later.snapshot == row.snapshot)
    && (PhaseOf(row).PublishedPhase? && PhaseOf(later).PublishedPhase? ==> later == row)
  }

  lemma RowMovesForward(s: State, later: State, e: Id)
    requires Evolves(s, later) && ExportsOk(later) && e in s.exports
    ensures e in later.exports && MovedForward(s.exports[e], later.exports[e])
  {
  }

  /**
   * Over any run an export only moves forward, keeps its identity, never trades
   * its snapshot or its file for another, and has data exactly while not cleared.
   */
  lemma ExportsOnlyMoveForward(render: Renderer, sys: System, steps: seq<Step>, e: Id)
    requires Reachable(render, sys) && e in sys.db.exports
    ensures var later := Run(render, sys, steps).db.exports;
            e in later && MovedForward(sys.db.exports[e], later[e])
  {
    ReachableIsSafe(render, sys);
    RunIsSafe(render, sys, steps);
    RowMovesForward(sys.db, Run(render, sys, steps).db, e);
  }

  /** In every reachable state: file implies snapshot, published implies succeeded, at most one completion event. */
  lemma PublicationIsRecordedOnce(render: Renderer, sys: System, e: Id)
    requires Reachable(render, sys) && e in sys.db.exports
    ensures sys.db.exports[e].file.Some? ==> sys.db.exports[e].snapshot.Some?
    ensures sys.db.exports[e].job in sys.db.jobs && sys.db.jobs[sys.db.exports[e].job].exportId == e
    ensures var done := sys.db.jobs[sys.db.exports[e].job].status.Succeeded?;
            && (PhaseOf(sys.db.exports[e]).PublishedPhase? ==> done)
            && (PhaseOf(sys.db.exports[e]).PendingPhase? ==> !done)
            && Count(sys.db.audit, ExportCompleted, e) == if done then 1 else 0
  {
    ReachableIsSafe(render, sys);
  }

  /** The export's job succeeds and its completion is recorded between the two states. */
  ghost predicate Completes(s: State, after: State, e: Id) {
    && e in s.exports && s.exports[e].job in s.jobs && s.exports[e].job in after.jobs
    && Count(s.audit, ExportCompleted, e) == 0 && Count(after.audit, ExportCompleted, e) == 1
    && !s.jobs[s.exports[e].job].status.Succeeded? && after.jobs[s.exports[e].job].status.Succeeded?
  }

  lemma PublishedFromPending(render: Renderer, s: State, after: State, e: Id)
    requires References(s) && Ledger(render, s) && References(after) && Ledger(render, after)
    requires Evolves(s, after) && e in s.exports
    ensures e in after.exports
    ensures s.exports[e].file.None? && after.exports[e].file.Some? ==> Completes(s, after, e)
  {
  }

  /**
   * The job succeeds in the very step that attaches the file, whichever worker
   * takes it, and that step records the completion.
   */
  lemma AttachingIsSucceeding(render: Renderer, sys: System, step: Step, e: Id)
    requires Reachable(render, sys) && e in sys.db.exports
    ensures var after := Apply(render, sys, step).0.db;
            && e in after.exports
            && (sys.db.exports[e].file.None? && after.exports[e].file.Some? ==> Completes(sys.db, after, e))
  {
    ReachableIsSafe(render, sys);
    StepIsSafe(render, sys, step);
    PublishedFromPending(render, sys.db, Apply(render, sys, step).0.db, e);
  }

  /** What a request accepted, the worker never finds too large, and never for another ticket. */
  lemma AcceptedIsNeverOverLimit(render: Renderer, sys: System, lease: Lease)
    requires Reachable(render, sys)
    ensures LoadRefusal(render, sys.db, lease) != Some(Permanent(OverLimit))
    ensures LoadRefusal(render, sys.db, lease) != Some(Permanent(InvalidSnapshot))
  {
    ReachableIsSafe(render, sys);
    StoredSnapshotsAreUsable(render, sys.db, lease);
  }

  lemma StoredSnapshotsAreUsable(render: Renderer, s: State, lease: Lease)
    requires SnapshotsOk(render, s.exports)
    ensures LoadRefusal(render, s, lease) != Some(Permanent(OverLimit))
    ensures LoadRefusal(render, s, lease) != Some(Permanent(InvalidSnapshot))
  {
  }

  /** While the export has data it is this snapshot, and once published its stored bytes are the snapshot's document. */
  ghost predicate Delivers(render: Renderer, sys: System, e: Id, snapshot: Snapshot) {
    && e in sys.db.exports
    && var row := sys.db.exports[e];
    && (row.Live() ==> row.snapshot == Some(snapshot))
    && (row.file.Some? ==> StoredUnder(sys, row.file.value, render(snapshot)))
  }

  /** The object of the adopted candidate of file f holds this text. */
  ghost predicate StoredUnder(sys: System, f: Id, text: Option<string>) {
    && f in sys.db.files && sys.db.files[f].readyCandidate.Some?
    && sys.db.files[f].readyCandidate.value in sys.objects
    && text == Some(sys.objects[sys.db.files[f].readyCandidate.value])
  }

  /**
   * Snapshot fidelity: if a request created an export, then whenever it is
   * published later, the stored bytes are the document of the ticket and the
   * attachments as they were read by that request, whatever committed in between.
   */
  lemma PublishedBytesAreTheRequestedOnes(render: Renderer, sys: System, request: Step, steps: seq<Step>)
    requires Reachable(render, sys) && request.RequestExport?
    requires request.id !in sys.db.exports
    requires Apply(render, sys, request).1 == ExportReply(Ok(request.id))
    ensures request.ticket in sys.db.tickets
    ensures Delivers(render, Run(render, Apply(render, sys, request).0, steps), request.id,
                     SnapshotOf(sys.db, request.ticket))
  {
    ReachableIsSafe(render, sys);
    RequestFreezes(render, sys, request);
    StepIsSafe(render, sys, request);
    FrozenIsDelivered(render, Apply(render, sys, request).0, steps, request.id, SnapshotOf(sys.db, request.ticket));
  }

  lemma FrozenIsDelivered(render: Renderer, sys: System, steps: seq<Step>, e: Id, snapshot: Snapshot)
    requires Safe(render, sys) && e in sys.db.exports && sys.db.exports[e].snapshot == Some(snapshot)
    ensures Delivers(render, Run(render, sys, steps), e, snapshot)
  {
    RunIsSafe(render, sys, steps);
    var later := Run(render, sys, steps);
    RowMovesForward(sys.db, later.db, e);
    if later.db.exports[e].file.Some? {
      PublishedBytes(render, later, e);
    }
  }

  lemma RequestFreezes(render: Renderer, sys: System, request: Step)
    requires Safe(render, sys) && request.RequestExport?
    requires request.id !in sys.db.exports
    requires Apply(render, sys, request).1 == ExportReply(Ok(request.id))
    ensures request.ticket in sys.db.tickets
    ensures var after := Apply(render, sys, request).0.db.exports;
            request.id in after && after[request.id].snapshot == Some(SnapshotOf(sys.db, request.ticket))
            && after[request.id].ticket == request.ticket
  {
  }

  lemma PublishedBytes(render: Renderer, sys: System, e: Id)
    requires Safe(render, sys) && e in sys.db.exports && sys.db.exports[e].file.Some?
    ensures sys.db.exports[e].snapshot.Some?
    ensures StoredUnder(sys, sys.db.exports[e].file.value, render(sys.db.exports[e].snapshot.value))
  {
    assert Holds(sys.db.exports, e, sys.db.exports[e].file.value);
  }
}
