/** What listing tickets returns: application.rs, list. */
module TicketList {
  import opened Basics
  import opened TicketModel

  /** The tickets a member may see: all of them, or the own ones. */
  function Visible(tickets: map<Id, TicketRow>, all: bool, actor: Id): set<Id> {
    set t | t in tickets && !tickets[t].deleted && (all || tickets[t].ticket.createdBy == actor)
  }

  /** The last of the given tickets, last first. */
  function Newest(tickets: map<Id, TicketRow>, ids: seq<Id>, limit: nat): seq<Ticket>
    requires forall t :: t in ids ==> t in tickets
  {
    if limit == 0 || ids == [] then []
    else [tickets[ids[|ids| - 1]].ticket] + Newest(tickets, ids[..|ids| - 1], limit - 1)
  }

  /** list: the newest visible tickets, newest first. */
  function List(s: State, actor: Id, limit: nat): Outcome<seq<Ticket>> {
    if actor !in s.members then Err(Forbidden)
    else
      var visible := Visible(s.tickets, !s.members[actor].Member?, actor);
      VisibleInOrder(s.tickets, visible);
      Ok(Newest(s.tickets, Sorted(visible), limit))
  }

  lemma VisibleInOrder(tickets: map<Id, TicketRow>, visible: set<Id>)
    requires visible <= tickets.Keys
    ensures forall t :: t in Sorted(visible) ==> t in tickets
  {
    forall t | t in Sorted(visible) ensures t in tickets {
      SortedHas(visible, t);
    }
  }

  lemma {:induction false} NewestAre(tickets: map<Id, TicketRow>, ids: seq<Id>, limit: nat)
    requires forall t :: t in ids ==> t in tickets
    ensures |Newest(tickets, ids, limit)| == if limit < |ids| then limit else |ids|
    ensures forall i :: 0 <= i < |Newest(tickets, ids, limit)| ==>
              Newest(tickets, ids, limit)[i] == tickets[ids[|ids| - 1 - i]].ticket
  {
    if limit != 0 && ids != [] {
      NewestAre(tickets, ids[..|ids| - 1], limit - 1);
    }
  }

  lemma PageEntries(s: State, actor: Id, limit: nat)
    requires actor in s.members && forall t :: t in s.tickets ==> s.tickets[t].ticket.id == t
    ensures var ids := Sorted(Visible(s.tickets, !s.members[actor].Member?, actor));
            var page := List(s, actor, limit);
            && page.Ok? && |page.value| == (if limit < |ids| then limit else |ids|)
            && forall i :: 0 <= i < |page.value| ==>
                 page.value[i].id == ids[|ids| - 1 - i] && page.value[i].id in s.tickets
                 && page.value[i] == s.tickets[page.value[i].id].ticket
  {
    var visible := Visible(s.tickets, !s.members[actor].Member?, actor);
    VisibleInOrder(s.tickets, visible);
    NewestAre(s.tickets, Sorted(visible), limit);
  }

  /**
   * The page holds exactly the visible tickets with the largest ids, in
   * descending order, and as many as asked for if there are so many.
   */
  ghost predicate IsNewestPage(tickets: map<Id, TicketRow>, visible: set<Id>, limit: nat, page: seq<Ticket>) {
    && |page| == (if limit < |visible| then limit else |visible|)
    && (forall i :: 0 <= i < |page| ==>
          page[i].id in visible && page[i].id in tickets && page[i] == tickets[page[i].id].ticket)
    && (forall i, j :: 0 <= i < j < |page| ==> page[j].id < page[i].id)
    && (forall t, i :: t in visible && 0 <= i < |page| && page[i].id < t ==> exists j :: 0 <= j < i && page[j].id == t)
  }

  lemma ListIsNewestVisible(s: State, actor: Id, limit: nat)
    requires actor in s.members && forall t :: t in s.tickets ==> s.tickets[t].ticket.id == t
    ensures List(s, actor, limit).Ok?
    ensures IsNewestPage(s.tickets, Visible(s.tickets, !s.members[actor].Member?, actor), limit,
                         List(s, actor, limit).value)
  {
    var visible := Visible(s.tickets, !s.members[actor].Member?, actor);
    PageEntries(s, actor, limit);
    NewestFirst(s.tickets, visible, Sorted(visible), limit, List(s, actor, limit).value);
  }

  lemma NewestFirst(tickets: map<Id, TicketRow>, visible: set<Id>, ids: seq<Id>, limit: nat, page: seq<Ticket>)
    requires ids == Sorted(visible) && |page| == if limit < |ids| then limit else |ids|
    requires forall i :: 0 <= i < |page| ==>
      page[i].id == ids[|ids| - 1 - i] && page[i].id in tickets && page[i] == tickets[page[i].id].ticket
    ensures IsNewestPage(tickets, visible, limit, page)
  {
    SortedAscends(visible);
    forall t ensures t in ids <==> t in visible { SortedHas(visible, t); }
    forall t, i | t in visible && 0 <= i < |page| && page[i].id < t ensures exists j :: 0 <= j < i && page[j].id == t {
      var k :| 0 <= k < |ids| && ids[k] == t;
      assert page[|ids| - 1 - k].id == t;
    }
  }
}
