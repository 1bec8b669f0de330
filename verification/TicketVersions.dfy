/** Versions, lost updates and deletion, over whole runs. */
module TicketVersions {
  import opened TicketDomain
  import opened TicketModel
  import opened TicketTransactions
  import opened TicketSystem
  import opened TicketReferences
  import opened TicketLedger
  import opened TicketRuns
  import opened TicketGuarantees

  /** A ticket's version counts its committed updates and deletions; it starts at 1. */
  lemma VersionCountsEdits(render: Renderer, sys: System, t: Id)
    requires Reachable(render, sys) && t in sys.db.tickets
    ensures sys.db.tickets[t].ticket.version
         == 1 + Count(sys.db.audit, TicketUpdated, t) + Count(sys.db.audit, TicketDeleted, t)
    ensures Fits(sys.db.tickets[t].ticket.title, sys.db.tickets[t].ticket.description)
  {
    ReachableIsSafe(render, sys);
  }

  /** The versions of one ticket seen along a run never fall, and equal versions mean equal rows. */
  lemma SameVersionSameRow(render: Renderer, sys: System, steps: seq<Step>, t: Id)
    requires Reachable(render, sys) && t in sys.db.tickets
    ensures var later := Run(render, sys, steps).db.tickets;
            && t in later
            && sys.db.tickets[t].ticket.version <= later[t].ticket.version
            && (later[t].ticket.version == sys.db.tickets[t].ticket.version ==> later[t] == sys.db.tickets[t])
  {
    ReachableIsSafe(render, sys);
    RunIsSafe(render, sys, steps);
  }

  predicate Succeeds(render: Renderer, sys: System, step: Step) {
    var reply := Apply(render, sys, step).1;
    reply.TicketReply? && reply.ticket.Ok?
  }

  lemma UpdateRaisesVersion(render: Renderer, sys: System, step: Step)
    requires step.UpdateTicket? && Succeeds(render, sys, step)
    ensures var t := step.ticket;
            var after := Apply(render, sys, step).0.db.tickets;
            && t in sys.db.tickets && !sys.db.tickets[t].deleted && t in after
            && sys.db.tickets[t].ticket.version == step.version
            && after[t].ticket.version == step.version + 1
            && Apply(render, sys, step).1 == TicketReply(Ok(after[t].ticket))
            && after[t].ticket == Edited(sys.db.tickets[t].ticket, New(step.title, step.description).value, step.status,
                                         step.stamp)
  {
  }

  /**
   * No lost update: a client that read a ticket and then updates it expecting the
   * version it read replaces exactly what it read, or is refused.
   */
  lemma UpdateReplacesWhatWasRead(render: Renderer, sys: System, reader: Id, steps: seq<Step>, update: Step)
    requires Reachable(render, sys) && update.UpdateTicket?
    requires Read(sys.db, reader, update.ticket).Ok?
    requires update.version == Read(sys.db, reader, update.ticket).value.version
    requires Succeeds(render, Run(render, sys, steps), update)
    ensures var later := Run(render, sys, steps).db.tickets;
            && update.ticket in later
            && later[update.ticket] == TicketRow(Read(sys.db, reader, update.ticket).value, false)
  {
    SameVersionSameRow(render, sys, steps, update.ticket);
    UpdateRaisesVersion(render, Run(render, sys, steps), update);
  }

  /** No two successful updates of a ticket share an expected version. */
  lemma ExpectedVersionsAreDistinct(render: Renderer, sys: System, first: Step, steps: seq<Step>, second: Step)
    requires Reachable(render, sys)
    requires first.UpdateTicket? && second.UpdateTicket? && first.ticket == second.ticket
    requires Succeeds(render, sys, first)
    requires Succeeds(render, Run(render, Apply(render, sys, first).0, steps), second)
    ensures first.version < second.version
  {
    var next := Apply(render, sys, first).0;
    UpdateRaisesVersion(render, sys, first);
    assert Run(render, sys, [first]) == next by {
      assert [first][1..] == [];
      assert Run(render, next, []) == next;
    }
    RunStaysReachable(render, sys, [first]);
    SameVersionSameRow(render, next, steps, first.ticket);
    UpdateRaisesVersion(render, Run(render, next, steps), second);
  }

  // ----- deletion -----------------------------------------------------------------------------

  /** The ticket has no attachment and no export with data. */
  ghost predicate Emptied(s: State, t: Id) {
    && (forall f :: f in s.uploads ==> s.uploads[f].ticket != t)
    && (forall e :: e in s.exports && s.exports[e].ticket == t ==> !s.exports[e].Live())
  }

  lemma DeletedIsEmpty(s: State, t: Id)
    requires UploadsOk(s) && ExportsOk(s) && t in s.tickets && s.tickets[t].deleted
    ensures Emptied(s, t)
  {
  }

  lemma RemoveDeletes(render: Renderer, sys: System, remove: Step)
    requires remove.DeleteTicket? && Apply(render, sys, remove).1 == RemoveReply(Ok(()))
    ensures var after := Apply(render, sys, remove).0.db.tickets;
            remove.ticket in after && after[remove.ticket].deleted
  {
  }

  /**
   * A deleted ticket stays empty: after a deletion commits, no run gives it an
   * upload row, an export with data or a new version, even when a worker had
   * loaded its snapshot before the deletion.
   */
  lemma DeletedStaysEmpty(render: Renderer, sys: System, remove: Step, steps: seq<Step>)
    requires Reachable(render, sys) && remove.DeleteTicket?
    requires Apply(render, sys, remove).1 == RemoveReply(Ok(()))
    ensures var gone := Apply(render, sys, remove).0;
            var later := Run(render, gone, steps);
            && remove.ticket in gone.db.tickets && remove.ticket in later.db.tickets
            && Emptied(later.db, remove.ticket)
            && later.db.tickets[remove.ticket] == gone.db.tickets[remove.ticket]
  {
    ReachableIsSafe(render, sys);
    StepIsSafe(render, sys, remove);
    RemoveDeletes(render, sys, remove);
    var gone := Apply(render, sys, remove).0;
    RunIsSafe(render, gone, steps);
    DeletedIsEmpty(Run(render, gone, steps).db, remove.ticket);
  }
}
