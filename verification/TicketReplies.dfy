/** What the answers to ticket requests say, in terms of the rows and of the request itself. */
module TicketReplies {
  import opened Basics
  import opened TicketDomain
  import opened TicketModel
  import opened TicketTransactions
  import opened TicketList
  import opened TicketSystem
  import opened TicketReferences
  import opened TicketLedger
  import opened TicketSafety
  import opened TicketGuarantees

  // ----- reading ---------------------------------------------------------------------------------

  /** A member's own ticket, or any ticket for members of a higher role, as long as it is not deleted. */
  predicate HasAccess(s: State, actor: Id, t: Id) {
    && actor in s.members && t in s.tickets && !s.tickets[t].deleted
    && (s.members[actor] != Member || s.tickets[t].ticket.createdBy == actor)
  }

  lemma AccessIsNotRefused(s: State, actor: Id, t: Id)
    ensures AccessRefusal(s, actor, t).None? <==> HasAccess(s, actor, t)
  {
  }

  /**
   * Who reads a ticket: members read it while it is not deleted, and members of
   * the lowest role only if they created it; others are told they are no members,
   * or that there is no such ticket.
   */
  lemma ReadAnswers(render: Renderer, sys: System, actor: Id, t: Id)
    ensures Apply(render, sys, ReadTicket(actor, t)).0 == sys
    ensures Apply(render, sys, ReadTicket(actor, t)).1
         == TicketReply(
              if actor !in sys.db.members then Err(Forbidden)
              else if t !in sys.db.tickets || sys.db.tickets[t].deleted then Err(NotFound)
              else if sys.db.members[actor] == Member && sys.db.tickets[t].ticket.createdBy != actor then Err(NotFound)
              else Ok(sys.db.tickets[t].ticket))
  {
    hide List;
  }

  ghost predicate Reads(render: Renderer, sys: System, actor: Id, t: Id) {
    var reply := Apply(render, sys, ReadTicket(actor, t)).1;
    reply.TicketReply? && reply.ticket.Ok?
  }

  /** Distinct tickets, last first. */
  ghost predicate Descends(page: seq<Ticket>) {
    forall i, j :: 0 <= i < j < |page| ==> page[j].id < page[i].id
  }

  lemma ReadableIsVisible(render: Renderer, sys: System, actor: Id, t: Id)
    requires actor in sys.db.members
    ensures Reads(render, sys, actor, t)
       <==> t in Visible(sys.db.tickets, !sys.db.members[actor].Member?, actor)
  {
    hide Apply, List;
    ReadAnswers(render, sys, actor, t);
  }

  /**
   * A listing is what reading one by one would give: every entry is a ticket the
   * same actor reads as it stands there, newest first and no more than asked for;
   * and every ticket the actor reads is there, unless the page is full of newer ones.
   */
  lemma ListShowsWhatIsRead(render: Renderer, sys: System, actor: Id, limit: nat)
    requires Reachable(render, sys) && actor in sys.db.members
    ensures Apply(render, sys, ListTickets(actor, limit)).0 == sys
    ensures var reply := Apply(render, sys, ListTickets(actor, limit)).1;
            && reply.ListReply? && reply.page.Ok? && |reply.page.value| <= limit && Descends(reply.page.value)
            && (forall i :: 0 <= i < |reply.page.value| ==>
                  Apply(render, sys, ReadTicket(actor, reply.page.value[i].id)).1
                  == TicketReply(Ok(reply.page.value[i])))
            && (forall t: Id :: Reads(render, sys, actor, t) ==>
                  || (exists i :: 0 <= i < |reply.page.value| && reply.page.value[i].id == t)
                  || (|reply.page.value| == limit && forall i :: 0 <= i < limit ==> t < reply.page.value[i].id))
  {
    ReachableIsSafe(render, sys);
    RowsCarryTheirIds(render, sys);
    ListIsNewestVisible(sys.db, actor, limit);
    ListApplies(render, sys, actor, limit);
    hide Apply, List, Safe, Reads, Visible;
    var visible := Visible(sys.db.tickets, !sys.db.members[actor].Member?, actor);
    var page := List(sys.db, actor, limit).value;
    forall i | 0 <= i < |page|
      ensures Apply(render, sys, ReadTicket(actor, page[i].id)).1 == TicketReply(Ok(page[i]))
    {
      ReadAnswers(render, sys, actor, page[i].id);
      ReadableIsVisible(render, sys, actor, page[i].id);
    }
    forall t: Id | Reads(render, sys, actor, t) && !exists i :: 0 <= i < |page| && page[i].id == t
      ensures |page| == limit && forall i :: 0 <= i < limit ==> t < page[i].id
    {
      ReadableIsVisible(render, sys, actor, t);
      MissedIsOlder(sys.db.tickets, visible, limit, page, t);
    }
  }

  lemma RowsCarryTheirIds(render: Renderer, sys: System)
    requires Safe(render, sys)
    ensures forall t :: t in sys.db.tickets ==> sys.db.tickets[t].ticket.id == t
  {
    assert TicketsOk(sys.db.tickets, sys.db.audit);
  }

  lemma ListApplies(render: Renderer, sys: System, actor: Id, limit: nat)
    ensures Apply(render, sys, ListTickets(actor, limit)) == (sys, ListReply(List(sys.db, actor, limit)))
  {
    hide List;
  }

  lemma MissedIsOlder(tickets: map<Id, TicketRow>, visible: set<Id>, limit: nat, page: seq<Ticket>, t: Id)
    requires IsNewestPage(tickets, visible, limit, page)
    requires t in visible && forall i :: 0 <= i < |page| ==> page[i].id != t
    ensures |page| == limit && forall i :: 0 <= i < limit ==> t < page[i].id
  {
    if |page| < limit {
      var ids := seq(|page|, i requires 0 <= i < |page| => page[i].id);
      ElementsCount(ids);
      assert Distinct(ids);
      assert Elements(ids) <= visible - {t};
      SubsetSize(Elements(ids), visible - {t});
    }
  }

  /** Only members list, and nobody else. */
  lemma StrangersListNothing(render: Renderer, sys: System, actor: Id, limit: nat)
    requires actor !in sys.db.members
    ensures Apply(render, sys, ListTickets(actor, limit)) == (sys, ListReply(Err(Forbidden)))
  {
  }

  // ----- writing ---------------------------------------------------------------------------------

  /** Keys of 1 to 128 printable characters without blanks. */
  predicate IsVisibleKey(key: string) {
    1 <= |key| <= 128 && forall i :: 0 <= i < |key| ==> '!' <= key[i] <= '~'
  }

  lemma FreshCreation(s: State, actor: Id, content: Content, key: string, id: Id, stamp: int, purge: set<RecordKey>)
    requires RecordsOk(s) && !LiveRecord(s, RecordKey(actor, TicketScope, key))
    ensures var (after, answer) := Create(s, actor, content, key, id, stamp, purge);
            var ticket := Ticket(id, actor, content.title, content.description, Open, 1, stamp, stamp);
            if actor !in s.members then answer == Err(Forbidden) && after == s
            else if !IsVisibleKey(key) then answer == Err(InvalidKey) && after == s
            else if id in s.tickets then answer == Err(Unavailable) && after == s
            else && answer == Ok(ticket)
                 && after == s.(tickets := s.tickets[id := TicketRow(ticket, false)], records := after.records,
                                audit := s.audit + [Event(actor, TicketCreated, id)])
  {
  }

  /**
   * A first request to create a ticket stores what was submitted: the title
   * without the whitespace at its ends, and the description as it was. The ticket
   * is open, its creator's, at version 1, and stored as it is answered, next to
   * tickets nothing happened to.
   */
  lemma CreatedAsSubmitted(render: Renderer, sys: System, step: Step, before: string, core: string, after: string)
    requires Reachable(render, sys) && step.CreateTicket? && IsCoreOf(step.title, before, core, after)
    requires !LiveRecord(sys.db, RecordKey(step.actor, TicketScope, step.key))
    ensures var (next, reply) := Apply(render, sys, step);
            var ticket := Ticket(step.id, step.actor, core, step.description, Open, 1, step.stamp, step.stamp);
            if !Fits(core, step.description) then reply == TicketReply(Err(InvalidContent)) && next == sys
            else if step.actor !in sys.db.members then reply == TicketReply(Err(Forbidden)) && next == sys
            else if !IsVisibleKey(step.key) then reply == TicketReply(Err(InvalidKey)) && next == sys
            else if step.id in sys.db.tickets then reply == TicketReply(Err(Unavailable)) && next == sys
            else && reply == TicketReply(Ok(ticket)) && next == sys.(db := next.db)
                 && next.db.tickets == sys.db.tickets[step.id := TicketRow(ticket, false)]
                 && next.db.audit == sys.db.audit + [Event(step.actor, TicketCreated, step.id)]
                 && next.db == sys.db.(tickets := next.db.tickets, records := next.db.records, audit := next.db.audit)
  {
    hide New, Create, IsCoreOf, Safe, IsVisibleKey;
    ReachableIsSafe(render, sys);
    SafeRecords(render, sys);
    AcceptedAsSubmitted(step.title, step.description, before, core, after);
    if New(step.title, step.description).Some? {
      FreshCreation(sys.db, step.actor, New(step.title, step.description).value, step.key, step.id, step.stamp,
                    step.purge);
    }
  }

  /**
   * An update of the version the client knows stores what was submitted the same
   * way, with the status asked for and the next version; it leaves the ticket's
   * creator and creation time, and every other ticket, as they were.
   */
  lemma UpdatedAsSubmitted(render: Renderer, sys: System, step: Step, before: string, core: string, after: string)
    requires step.UpdateTicket? && IsCoreOf(step.title, before, core, after)
    ensures var (next, reply) := Apply(render, sys, step);
            if !Fits(core, step.description) then reply == TicketReply(Err(InvalidContent)) && next == sys
            else if step.actor !in sys.db.members then reply == TicketReply(Err(Forbidden)) && next == sys
            else if !HasAccess(sys.db, step.actor, step.ticket) then reply == TicketReply(Err(NotFound)) && next == sys
            else
              var was := sys.db.tickets[step.ticket].ticket;
              var ticket := Ticket(was.id, was.createdBy, core, step.description, step.status, was.version + 1,
                                   was.createdAt, step.stamp);
              if was.version != step.version then reply == TicketReply(Err(VersionConflict)) && next == sys
              else if was.version == 0x7fff_ffff_ffff_ffff then reply == TicketReply(Err(Unavailable)) && next == sys
              else && reply == TicketReply(Ok(ticket))
                   && next == sys.(db := sys.db.(
                        tickets := sys.db.tickets[step.ticket := TicketRow(ticket, false)],
                        audit := sys.db.audit + [Event(step.actor, TicketUpdated, step.ticket)]))
  {
    hide New, IsCoreOf;
    AcceptedAsSubmitted(step.title, step.description, before, core, after);
  }

  // ----- deleting --------------------------------------------------------------------------------

  /** The files the ticket's uploads and exports point at. */
  function FilesUnder(s: State, t: Id): set<Id> {
    (set f | f in s.uploads && s.uploads[f].ticket == t)
    + (set e | e in s.exports && s.exports[e].ticket == t && s.exports[e].file.Some? :: s.exports[e].file.value)
  }

  /** These files are on their way out, each with one cleanup job. */
  ghost predicate MarksExactly(s: State, after: State, doomed: set<Id>) {
    && after.files.Keys == s.files.Keys
    && (forall f :: f in s.files ==>
          after.files[f] == if f in doomed then s.files[f].(state := Deleting) else s.files[f])
    && (forall f :: after.cleanups[f] == s.cleanups[f] + if f in doomed then 1 else 0)
  }

  lemma MarkingIsExact(s: State, doomed: set<Id>)
    requires doomed <= s.files.Keys && forall f :: f in doomed ==> !s.files[f].state.Gone()
    ensures var after := MarkAll(s, doomed);
            MarksExactly(s, after, doomed) && after == s.(files := after.files, cleanups := after.cleanups)
  {
    assert Unmarked(s.files, doomed) == doomed;
  }

  lemma ReferencedAreHere(s: State, t: Id)
    requires References(s)
    ensures FilesUnder(s, t) == FilesOf(s.uploads, s.exports, t)
    ensures forall f :: f in FilesUnder(s, t) ==> f in s.files && !s.files[f].state.Gone()
  {
    forall f | f in ExportFilesOf(s.exports, t) ensures f in s.files && !s.files[f].state.Gone() {
      var e :| e in s.exports && s.exports[e].ticket == t && s.exports[e].file == Some(f);
      assert Holds(s.exports, e, f);
    }
  }

  /** The ticket is deleted at its next version, without uploads, and its exports have lost their data. */
  ghost predicate DeletesTicket(s: State, after: State, actor: Id, t: Id, stamp: int)
    requires t in s.tickets
  {
    var was := s.tickets[t].ticket;
    && after == s.(tickets := after.tickets, uploads := after.uploads, exports := after.exports, files := after.files,
                   cleanups := after.cleanups, audit := after.audit)
    && after.tickets == s.tickets[t := TicketRow(was.(version := was.version + 1, updatedAt := stamp), true)]
    && after.uploads == (map f | f in s.uploads && s.uploads[f].ticket != t :: s.uploads[f])
    && after.exports == (map e | e in s.exports :: if s.exports[e].ticket == t
                                                   then s.exports[e].(snapshot := None, file := None) else s.exports[e])
    && after.audit == s.audit + [Event(actor, TicketDeleted, t)]
    && MarksExactly(s, after, FilesUnder(s, t))
  }

  /**
   * Deleting a ticket one has access to always succeeds, until its version is
   * exhausted, and takes everything with it in one step; nobody else changes
   * anything.
   */
  lemma DeleteAnswers(render: Renderer, sys: System, actor: Id, t: Id, stamp: int)
    requires Reachable(render, sys)
    ensures var (after, reply) := Apply(render, sys, DeleteTicket(actor, t, stamp));
            if HasAccess(sys.db, actor, t) && sys.db.tickets[t].ticket.version != 0x7fff_ffff_ffff_ffff
            then reply == RemoveReply(Ok(())) && after == sys.(db := after.db)
                 && DeletesTicket(sys.db, after.db, actor, t, stamp)
            else after == sys
                 && reply == RemoveReply(Err(if actor !in sys.db.members then Forbidden
                                             else if !HasAccess(sys.db, actor, t) then NotFound else Unavailable))
  {
    hide Remove, RemoveRefusal, DeletesTicket, Safe;
    ReachableIsSafe(render, sys);
    RemoveAnswers(render, sys, actor, t, stamp);
  }

  lemma RemoveAnswers(render: Renderer, sys: System, actor: Id, t: Id, stamp: int)
    requires Safe(render, sys)
    ensures var (after, answer) := Remove(sys.db, actor, t, stamp);
            if HasAccess(sys.db, actor, t) && sys.db.tickets[t].ticket.version != 0x7fff_ffff_ffff_ffff
            then answer == Ok(()) && DeletesTicket(sys.db, after, actor, t, stamp)
            else after == sys.db
                 && answer == Err(if actor !in sys.db.members then Forbidden
                                  else if !HasAccess(sys.db, actor, t) then NotFound else Unavailable)
  {
    hide Remove, RemoveRefusal, FilesOf, FilesUnder, DeletesTicket;
    AccessIsNotRefused(sys.db, actor, t);
    ReferencedAreHere(sys.db, t);
    FilesOfExist(sys.db, t);
    RemovalRefusedOnlyFor(sys.db, actor, t);
    if RemoveRefusal(sys.db, actor, t).None? {
      RemovesTicket(sys.db, actor, t, stamp);
    } else {
      RefusedRemoval(sys.db, actor, t, stamp);
    }
  }

  lemma RefusedRemoval(s: State, actor: Id, t: Id, stamp: int)
    requires RemoveRefusal(s, actor, t).Some?
    ensures Remove(s, actor, t, stamp) == (s, Err(RemoveRefusal(s, actor, t).value))
  {
  }

  lemma RemovesTicket(s: State, actor: Id, t: Id, stamp: int)
    requires RemoveRefusal(s, actor, t).None? && t in s.tickets
    requires FilesUnder(s, t) == FilesOf(s.uploads, s.exports, t)
    requires forall f :: f in FilesUnder(s, t) ==> f in s.files && !s.files[f].state.Gone()
    ensures Remove(s, actor, t, stamp).1 == Ok(())
    ensures DeletesTicket(s, Remove(s, actor, t, stamp).0, actor, t, stamp)
  {
    hide FilesOf, FilesUnder, MarkAll, RemoveRefusal;
    MarkingIsExact(s, FilesUnder(s, t));
    var after, marked := Remove(s, actor, t, stamp).0, MarkAll(s, FilesUnder(s, t));
    assert after.files == marked.files && after.cleanups == marked.cleanups;
  }

  /** Removing an attachment takes its association away and marks its file, in one step. */
  lemma DetachAnswers(render: Renderer, sys: System, actor: Id, t: Id, f: Id)
    requires Reachable(render, sys)
    ensures var (after, reply) := Apply(render, sys, DeleteAttachment(actor, t, f));
            if HasAccess(sys.db, actor, t) && f in sys.db.uploads && sys.db.uploads[f].ticket == t
            then && reply == RemoveReply(Ok(())) && after == sys.(db := after.db)
                 && after.db == sys.db.(uploads := sys.db.uploads - {f}, files := after.db.files,
                                        cleanups := after.db.cleanups,
                                        audit := sys.db.audit + [Event(actor, AttachmentDeleted, f)])
                 && MarksExactly(sys.db, after.db, {f})
            else after == sys
                 && reply == RemoveReply(Err(if actor !in sys.db.members then Forbidden else NotFound))
  {
    hide RemoveAttachment, Safe, MarksExactly, HasAccess;
    ReachableIsSafe(render, sys);
    DetachmentAnswers(render, sys, actor, t, f);
  }

  lemma DetachmentAnswers(render: Renderer, sys: System, actor: Id, t: Id, f: Id)
    requires Safe(render, sys)
    ensures var (after, answer) := RemoveAttachment(sys.db, actor, t, f);
            if HasAccess(sys.db, actor, t) && f in sys.db.uploads && sys.db.uploads[f].ticket == t
            then && answer == Ok(())
                 && after == sys.db.(uploads := sys.db.uploads - {f}, files := after.files, cleanups := after.cleanups,
                                     audit := sys.db.audit + [Event(actor, AttachmentDeleted, f)])
                 && MarksExactly(sys.db, after, {f})
            else after == sys.db && answer == Err(if actor !in sys.db.members then Forbidden else NotFound)
  {
    hide MarkAll, Ledger;
    AccessIsNotRefused(sys.db, actor, t);
    if HasAccess(sys.db, actor, t) && f in sys.db.uploads && sys.db.uploads[f].ticket == t {
      assert UploadsOk(sys.db);
      MarkingIsExact(sys.db, {f});
      var after, marked := RemoveAttachment(sys.db, actor, t, f).0, MarkAll(sys.db, {f});
      assert after.files == marked.files && after.cleanups == marked.cleanups;
    }
  }
}
