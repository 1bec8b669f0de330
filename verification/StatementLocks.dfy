/**
 * The row locks on tickets and exports, one statement at a time: which lock each
 * transaction takes, in what order, and what it has read when it commits. Any
 * number of transactions are under way at once; each statement sees what was
 * committed when it ran; locks are held to the end.
 */
module StatementLocks {
  import opened Basics
  import opened TicketDomain
  import opened TicketModel
  import opened TicketTransactions

  datatype Mode = Shared | Exclusive
  datatype Row = TicketLock(id: Id) | ExportLock(id: Id)
  datatype Request = Request(row: Row, mode: Mode)

  /**
   * The transactions that lock ticket or export rows, by what they lock and write.
   * files: the file rows a request reads for its snapshot and share-locks too.
   */
  datatype Kind =
    | ReadTicket(ticket: Id)                      // read, a replayed create, attachments, the worker's load and prepare
    | WriteTicket(ticket: Id)                     // planning an upload
    | EditTicket(ticket: Id, version: int, content: Content, status: Status, stamp: int)
    | AddUpload(ticket: Id, file: Id)
    | FinishUpload(ticket: Id, file: Id)
    | DropUpload(ticket: Id, file: Id)
    | AddExport(ticket: Id, exp: Id, draft: ExportRow, files: map<Id, File>)
    | ReadExport(ticket: Id, exp: Id)             // read or download: the ticket twice, then the export
    | PublishExport(ticket: Id, exp: Id, file: Id)
    | ExpireExport(ticket: Id, exp: Id)
    | RemoveTicket(ticket: Id, stamp: int)

  /**
   * requests: the row locks still to be taken; seen: the ticket's row as the
   * locking statement returned it; counted: what a counting statement returned;
   * published: the attachments a request found.
   */
  datatype Tx = Tx(kind: Kind, requests: seq<Request>, held: map<Row, Mode>, selected: bool,
                   seen: Option<TicketRow>, counted: Option<nat>, published: Option<set<Id>>)

  datatype LockState = LockState(tickets: map<Id, TicketRow>, uploads: map<Id, UploadRow>, exports: map<Id, ExportRow>,
                                 txs: map<Id, Tx>)

  datatype Step =
    | Begin(tx: Id, kind: Kind)
    | Acquire(tx: Id)    // the row comes back as committed now
    | Select(tx: Id)     // the ticket's exports to lock, as committed now
    | Count(tx: Id)      // the ticket's rows, as committed now
    | Attachments(tx: Id)  // the ticket's published uploads, as committed now
    | Insert(ticket: Id, row: TicketRow)   // a ticket is created, which takes none of these locks
    | Commit(tx: Id)
    | Abort(tx: Id)      // a refusal, an error or a timeout, at any point

  const LIMIT := 50

  // ----- one transaction ------------------------------------------------------------------------

  /** authorized(.., write) and the worker's and sweep's own first statement. */
  function TicketMode(kind: Kind): Mode {
    match kind
    case WriteTicket(_) => Exclusive
    case EditTicket(_, _, _, _, _) => Exclusive
    case AddUpload(_, _) => Exclusive
    case FinishUpload(_, _) => Exclusive
    case DropUpload(_, _) => Exclusive
    case AddExport(_, _, _, _) => Exclusive
    case RemoveTicket(_, _) => Exclusive
    case _ => Shared
  }

  /** The locking statements of a transaction, in program order. */
  function Program(kind: Kind): seq<Request> {
    var ticket := Request(TicketLock(kind.ticket), TicketMode(kind));
    match kind
    case ReadExport(_, e) => [ticket, ticket, Request(ExportLock(e), Shared)]
    case PublishExport(_, e, _) => [ticket, Request(ExportLock(e), Exclusive)]
    case ExpireExport(_, e) => [ticket, Request(ExportLock(e), Exclusive)]
    case _ => [ticket]
  }

  /** Deleting a ticket locks its live exports one by one, in ascending id. */
  function ExportRequests(ids: seq<Id>): seq<Request> {
    seq(|ids|, i requires 0 <= i < |ids| => Request(ExportLock(ids[i]), Exclusive))
  }

  predicate Conflict(a: Mode, b: Mode) {
    a.Exclusive? || b.Exclusive?
  }

  /** x asks for a row that y holds in a conflicting mode. */
  predicate WaitsFor(s: LockState, x: Id, y: Id) {
    && x in s.txs && y in s.txs && x != y && s.txs[x].requests != []
    && var request := s.txs[x].requests[0];
    request.row in s.txs[y].held && Conflict(request.mode, s.txs[y].held[request.row])
  }

  ghost predicate Grantable(s: LockState, x: Id) {
    x in s.txs && s.txs[x].requests != [] && forall y :: !WaitsFor(s, x, y)
  }

  function Granted(held: map<Row, Mode>, request: Request): map<Row, Mode> {
    if request.row in held && held[request.row].Exclusive? then held else held[request.row := request.mode]
  }

  /** The counting statement of a transaction, when it has one. */
  function Counts(uploads: map<Id, UploadRow>, exports: map<Id, ExportRow>, kind: Kind): nat {
    match kind
    case AddUpload(t, _) => |UploadsOf(uploads, t)|
    case AddExport(t, _, _, _) => |LiveExportsOf(exports, t)|
    case _ => 0
  }

  predicate Inserts(kind: Kind) {
    kind.AddUpload? || kind.AddExport?
  }

  function Started(kind: Kind): Tx {
    Tx(kind, Program(kind), map[], false, None, None, None)
  }

  function Acquired(tickets: map<Id, TicketRow>, tx: Tx): Tx
    requires tx.requests != []
  {
    var request := tx.requests[0];
    tx.(requests := tx.requests[1..], held := Granted(tx.held, request),
        seen := if !request.row.TicketLock? then tx.seen
                else if request.row.id in tickets then Some(tickets[request.row.id]) else None)
  }

  /** Every statement before the commit has run. */
  predicate Finished(tx: Tx) {
    && tx.requests == []
    && (tx.kind.RemoveTicket? ==> tx.selected)
    && (Inserts(tx.kind) ==> tx.counted.Some?)
    && (tx.kind.AddExport? ==> tx.published.Some?)
  }

  /** What the transaction read of tickets, uploads and exports gives it no reason to refuse. */
  predicate Passes(tx: Tx) {
    && (!tx.kind.ExpireExport? ==> tx.seen.Some? && !tx.seen.value.deleted)
    && (tx.kind.EditTicket? ==> tx.seen.Some? && tx.seen.value.ticket.version == tx.kind.version)
    && (Inserts(tx.kind) ==> tx.counted.Some? && tx.counted.value < LIMIT)
    && (tx.kind.AddExport? ==> tx.published.Some? && |tx.published.value| <= MAX_EXPORT_ATTACHMENTS)
  }

  /** The snapshot made of the ticket and the attachments as they were read. */
  function SnapshotRead(tx: Tx): Option<Snapshot> {
    if tx.kind.AddExport? && tx.seen.Some? && tx.published.Some?
    then Some(Snapshot(tx.seen.value.ticket, Snapshots(tx.kind.files, Sorted(tx.published.value))))
    else None
  }

  function CommittedTickets(tickets: map<Id, TicketRow>, tx: Tx): map<Id, TicketRow> {
    if tx.seen.None? then tickets
    else
      match tx.kind
      case EditTicket(t, _, content, status, stamp) =>
        tickets[t := TicketRow(Edited(tx.seen.value.ticket, content, status, stamp), false)]
      case RemoveTicket(t, stamp) => tickets[t := TicketRow(Removed(tx.seen.value.ticket, stamp), true)]
      case _ => tickets
  }

  function CommittedUploads(uploads: map<Id, UploadRow>, kind: Kind): map<Id, UploadRow> {
    match kind
    case AddUpload(t, f) => if f in uploads then uploads else uploads[f := UploadRow(t, false)]
    case FinishUpload(t, f) =>
      if f in uploads && uploads[f].ticket == t then uploads[f := UploadRow(t, true)] else uploads
    case DropUpload(t, f) => if f in uploads && uploads[f].ticket == t then uploads - {f} else uploads
    case RemoveTicket(t, _) => WithoutUploadsOf(uploads, t)
    case _ => uploads
  }

  function CommittedExports(exports: map<Id, ExportRow>, tx: Tx): map<Id, ExportRow> {
    match tx.kind
    case AddExport(t, e, draft, _) =>
      if e in exports then exports else exports[e := draft.(ticket := t, snapshot := SnapshotRead(tx))]
    case PublishExport(t, e, f) =>
      if e in exports && exports[e].ticket == t && exports[e].snapshot.Some?
      then exports[e := exports[e].(file := Some(f))] else exports
    case ExpireExport(t, e) =>
      if e in exports && exports[e].ticket == t then exports[e := Cleared(exports[e])] else exports
    case RemoveTicket(t, _) => WithClearedOf(exports, t)
    case _ => exports
  }

  // ----- steps -----------------------------------------------------------------------------------

  ghost predicate Enabled(s: LockState, step: Step) {
    match step
    case Begin(x, _) => x !in s.txs
    case Acquire(x) => Grantable(s, x)
    case Select(x) => x in s.txs && s.txs[x].kind.RemoveTicket? && s.txs[x].requests == [] && !s.txs[x].selected
    case Count(x) => x in s.txs && Inserts(s.txs[x].kind) && s.txs[x].requests == [] && s.txs[x].counted.None?
    case Attachments(x) =>
      x in s.txs && s.txs[x].kind.AddExport? && s.txs[x].counted.Some? && s.txs[x].published.None?
    case Insert(t, row) => t !in s.tickets && !row.deleted
    case Commit(x) => x in s.txs && Finished(s.txs[x]) && Passes(s.txs[x])
    case Abort(x) => x in s.txs
  }

  ghost function Next(s: LockState, step: Step): LockState
    requires Enabled(s, step)
  {
    match step
    case Begin(x, kind) => s.(txs := s.txs[x := Started(kind)])
    case Acquire(x) => s.(txs := s.txs[x := Acquired(s.tickets, s.txs[x])])
    case Select(x) =>
      var tx := s.txs[x];
      var ids := Sorted(LiveExportsOf(s.exports, tx.kind.ticket));
      s.(txs := s.txs[x := tx.(requests := ExportRequests(ids), selected := true)])
    case Count(x) =>
      var tx := s.txs[x];
      s.(txs := s.txs[x := tx.(counted := Some(Counts(s.uploads, s.exports, tx.kind)))])
    case Attachments(x) =>
      var tx := s.txs[x];
      s.(txs := s.txs[x := tx.(published := Some(PublishedOf(s.uploads, tx.kind.ticket)))])
    case Insert(t, row) => s.(tickets := s.tickets[t := row])
    case Commit(x) =>
      var tx := s.txs[x];
      LockState(CommittedTickets(s.tickets, tx), CommittedUploads(s.uploads, tx.kind), CommittedExports(s.exports, tx),
                s.txs - {x})
    case Abort(x) => s.(txs := s.txs - {x})
  }

  /** The states of a run: each step is enabled where it is taken. */
  ghost predicate IsRun(states: seq<LockState>, steps: seq<Step>) {
    && |states| == |steps| + 1
    && states[0] == LockState(map[], map[], map[], map[])
    && forall i :: 0 <= i < |steps| ==> Enabled(states[i], steps[i]) && states[i + 1] == Next(states[i], steps[i])
  }

  // ----- the lock order ---------------------------------------------------------------------------

  /** Tickets before exports, exports by ascending id. */
  predicate Below(a: Row, b: Row) {
    (a.TicketLock? && b.ExportLock?) || (a.ExportLock? && b.ExportLock? && a.id < b.id)
  }

  /** Locks are requested in order, and a row already held is only asked for in a mode it covers. */
  ghost predicate Ordered(tx: Tx) {
    && (forall i, j :: 0 <= i < j < |tx.requests| ==>
          Below(tx.requests[i].row, tx.requests[j].row) || tx.requests[i] == tx.requests[j])
    && (forall r, i :: r in tx.held && 0 <= i < |tx.requests| ==>
          Below(r, tx.requests[i].row) || (r == tx.requests[i].row && tx.requests[i].mode == tx.held[r]))
  }

  /** Past its first statement a transaction holds its ticket's row in the mode it asked for. */
  ghost predicate HoldsTicket(tx: Tx) {
    TicketLock(tx.kind.ticket) in tx.held && tx.held[TicketLock(tx.kind.ticket)] == TicketMode(tx.kind)
  }

  ghost predicate TxOk(tx: Tx) {
    && Ordered(tx)
    && (HoldsTicket(tx) || (tx.held == map[] && tx.requests == Program(tx.kind)))
    && (tx.selected || tx.seen.Some? || tx.counted.Some? || tx.published.Some? ==> HoldsTicket(tx))
    && (tx.counted.Some? ==> Inserts(tx.kind) && tx.requests == [])
    && (tx.published.Some? ==> tx.kind.AddExport? && tx.counted.Some?)
    && (tx.kind.RemoveTicket? && !tx.selected ==>
          (forall r :: r in tx.held ==> r.TicketLock?)
          && (forall i :: 0 <= i < |tx.requests| ==> tx.requests[i].row.TicketLock?))
  }

  /** No two transactions hold one row in conflicting modes. */
  ghost predicate Compatible(s: LockState) {
    forall x, y, r :: x in s.txs && y in s.txs && x != y && r in s.txs[x].held && r in s.txs[y].held ==>
      !Conflict(s.txs[x].held[r], s.txs[y].held[r])
  }

  /** What the transaction read is what is committed. */
  ghost predicate ReadsCurrent(s: LockState, tx: Tx) {
    var t := tx.kind.ticket;
    && (tx.seen.Some? ==> t in s.tickets && s.tickets[t] == tx.seen.value)
    && (tx.counted.Some? ==> tx.counted.value == Counts(s.uploads, s.exports, tx.kind))
    && (tx.published.Some? ==> tx.published.value == PublishedOf(s.uploads, t))
  }

  ghost predicate WithinLimits(s: LockState) {
    forall t :: |UploadsOf(s.uploads, t)| <= LIMIT && |LiveExportsOf(s.exports, t)| <= LIMIT
  }

  /** The ticket is not deleted, or has no upload and no export with data. */
  ghost predicate EmptyIfDeleted(tickets: map<Id, TicketRow>, uploads: map<Id, UploadRow>, exports: map<Id, ExportRow>,
                                 t: Id) {
    t in tickets && tickets[t].deleted ==> UploadsOf(uploads, t) == {} && LiveExportsOf(exports, t) == {}
  }

  ghost predicate DeletedEmpty(s: LockState) {
    forall t :: EmptyIfDeleted(s.tickets, s.uploads, s.exports, t)
  }

  ghost predicate Sound(s: LockState) {
    && (forall x :: x in s.txs ==> TxOk(s.txs[x]) && ReadsCurrent(s, s.txs[x]))
    && Compatible(s) && WithinLimits(s) && DeletedEmpty(s)
  }

  lemma ProgramIsOrdered(kind: Kind)
    ensures TxOk(Started(kind))
  {
  }

  lemma AcquireKeepsTx(tickets: map<Id, TicketRow>, tx: Tx)
    requires TxOk(tx) && tx.requests != []
    ensures TxOk(Acquired(tickets, tx))
    ensures tx.requests[0].row.TicketLock? ==> tx.requests[0].row.id == tx.kind.ticket
  {
    var after := Acquired(tickets, tx);
    assert forall i :: 0 <= i < |after.requests| ==> after.requests[i] == tx.requests[i + 1];
  }

  lemma SelectKeepsTx(tx: Tx, ids: set<Id>)
    requires TxOk(tx) && tx.kind.RemoveTicket? && tx.requests == [] && !tx.selected
    ensures TxOk(tx.(requests := ExportRequests(Sorted(ids)), selected := true))
  {
    SortedAscends(ids);
  }

  // ----- every step keeps it -----------------------------------------------------------------------

  lemma AcquireIsSound(s: LockState, x: Id)
    requires Sound(s) && Grantable(s, x)
    ensures Sound(Next(s, Acquire(x)))
  {
    AcquireKeepsTx(s.tickets, s.txs[x]);
    var after := Next(s, Acquire(x));
    var request := s.txs[x].requests[0];
    forall y, z, r | y in after.txs && z in after.txs && y != z && r in after.txs[y].held && r in after.txs[z].held
      ensures !Conflict(after.txs[y].held[r], after.txs[z].held[r])
    {
      if y == x && r == request.row {
        assert !WaitsFor(s, x, z);
      } else if z == x && r == request.row {
        assert !WaitsFor(s, x, y);
      }
    }
  }

  /** The rows of one ticket. */
  function UploadRowsOf(uploads: map<Id, UploadRow>, t: Id): map<Id, UploadRow> {
    map f | f in uploads && uploads[f].ticket == t :: uploads[f]
  }

  function ExportRowsOf(exports: map<Id, ExportRow>, t: Id): map<Id, ExportRow> {
    map e | e in exports && exports[e].ticket == t :: exports[e]
  }

  /** Neither the ticket's row nor any row of its uploads and exports differs. */
  ghost predicate SameTicket(s: LockState, after: LockState, t: Id) {
    && (t in s.tickets ==> t in after.tickets && after.tickets[t] == s.tickets[t])
    && (t in after.tickets ==> t in s.tickets)
    && UploadRowsOf(after.uploads, t) == UploadRowsOf(s.uploads, t)
    && ExportRowsOf(after.exports, t) == ExportRowsOf(s.exports, t)
  }

  lemma SameRowsSameSets(s: LockState, after: LockState, t: Id)
    requires SameTicket(s, after, t)
    ensures UploadsOf(after.uploads, t) == UploadsOf(s.uploads, t)
    ensures PublishedOf(after.uploads, t) == PublishedOf(s.uploads, t)
    ensures LiveExportsOf(after.exports, t) == LiveExportsOf(s.exports, t)
  {
    var rows, later := UploadRowsOf(s.uploads, t), UploadRowsOf(after.uploads, t);
    assert forall f :: f in UploadsOf(s.uploads, t) <==> f in rows;
    assert forall f :: f in UploadsOf(after.uploads, t) <==> f in later;
    assert forall f :: f in PublishedOf(s.uploads, t) <==> f in rows && rows[f].published;
    assert forall f :: f in PublishedOf(after.uploads, t) <==> f in later && later[f].published;
    var exports, left := ExportRowsOf(s.exports, t), ExportRowsOf(after.exports, t);
    assert forall e :: e in LiveExportsOf(s.exports, t) <==> e in exports && exports[e].Live();
    assert forall e :: e in LiveExportsOf(after.exports, t) <==> e in left && left[e].Live();
  }

  lemma OtherTicketsStay(tickets: map<Id, TicketRow>, tx: Tx, t: Id)
    requires tx.kind.ticket != t
    ensures t in CommittedTickets(tickets, tx) <==> t in tickets
    ensures t in tickets ==> CommittedTickets(tickets, tx)[t] == tickets[t]
  {
  }

  lemma OtherUploadsStay(uploads: map<Id, UploadRow>, kind: Kind, t: Id)
    requires kind.ticket != t
    ensures UploadRowsOf(CommittedUploads(uploads, kind), t) == UploadRowsOf(uploads, t)
  {
  }

  lemma OtherExportsStay(exports: map<Id, ExportRow>, tx: Tx, t: Id)
    requires tx.kind.ticket != t
    ensures ExportRowsOf(CommittedExports(exports, tx), t) == ExportRowsOf(exports, t)
  {
    hide SnapshotRead;
  }

  /** A commit changes rows of its own ticket only. */
  lemma CommitStaysOnItsTicket(s: LockState, x: Id, t: Id)
    requires Enabled(s, Commit(x)) && s.txs[x].kind.ticket != t
    ensures SameTicket(s, Next(s, Commit(x)), t)
  {
    hide CommittedTickets, CommittedUploads, CommittedExports, UploadRowsOf, ExportRowsOf, Finished, Passes;
    OtherTicketsStay(s.tickets, s.txs[x], t);
    OtherUploadsStay(s.uploads, s.txs[x].kind, t);
    OtherExportsStay(s.exports, s.txs[x], t);
  }

  lemma HoldsAtCommit(s: LockState, x: Id)
    requires Sound(s) && Enabled(s, Commit(x))
    ensures HoldsTicket(s.txs[x])
  {
  }

  /** Two that hold a ticket's row hold it for reading. */
  lemma HoldersShare(s: LockState, x: Id, y: Id)
    requires Sound(s) && x in s.txs && y in s.txs && x != y && s.txs[x].kind.ticket == s.txs[y].kind.ticket
    requires HoldsTicket(s.txs[x]) && HoldsTicket(s.txs[y])
    ensures TicketMode(s.txs[x].kind).Shared? && TicketMode(s.txs[y].kind).Shared?
  {
    assert !Conflict(s.txs[x].held[TicketLock(s.txs[x].kind.ticket)], s.txs[y].held[TicketLock(s.txs[x].kind.ticket)]);
  }

  /** Under a share lock a commit only publishes or clears an export. */
  lemma SharedCommitKeepsUploads(s: LockState, x: Id)
    requires Enabled(s, Commit(x)) && TicketMode(s.txs[x].kind).Shared?
    ensures Next(s, Commit(x)).tickets == s.tickets && Next(s, Commit(x)).uploads == s.uploads
  {
  }

  lemma SameTicketKeepsReads(s: LockState, after: LockState, tx: Tx)
    requires ReadsCurrent(s, tx) && SameTicket(s, after, tx.kind.ticket)
    ensures ReadsCurrent(after, tx)
  {
    SameRowsSameSets(s, after, tx.kind.ticket);
    hide UploadsOf, PublishedOf, LiveExportsOf, UploadRowsOf, ExportRowsOf;
  }

  /** What was read survives every commit of another transaction: they cannot both hold the ticket's row. */
  lemma CommitKeepsReads(s: LockState, x: Id, y: Id)
    requires Sound(s) && Enabled(s, Commit(x)) && y in s.txs && y != x
    ensures ReadsCurrent(Next(s, Commit(x)), s.txs[y])
  {
    hide CommittedTickets, CommittedUploads, CommittedExports, UploadsOf, PublishedOf, LiveExportsOf, SameTicket;
    hide Finished, Passes, Compatible, WithinLimits, DeletedEmpty, Ordered;
    var tx := s.txs[y];
    HoldsAtCommit(s, x);
    if tx.seen.Some? || tx.counted.Some? || tx.published.Some? {
      assert TxOk(tx) && ReadsCurrent(s, tx);
      if s.txs[x].kind.ticket != tx.kind.ticket {
        CommitStaysOnItsTicket(s, x, tx.kind.ticket);
        SameTicketKeepsReads(s, Next(s, Commit(x)), tx);
      } else {
        HoldersShare(s, x, y);
        SharedCommitKeepsUploads(s, x);
      }
    }
  }

  lemma CommittedRowsOf(uploads: map<Id, UploadRow>, exports: map<Id, ExportRow>, tx: Tx, t: Id)
    ensures UploadsOf(CommittedUploads(uploads, tx.kind), t)
         <= UploadsOf(uploads, t) + if tx.kind.AddUpload? && tx.kind.ticket == t then {tx.kind.file} else {}
    ensures LiveExportsOf(CommittedExports(exports, tx), t)
         <= LiveExportsOf(exports, t) + if tx.kind.AddExport? && tx.kind.ticket == t then {tx.kind.exp} else {}
  {
  }

  lemma RoomAtCommit(s: LockState, x: Id)
    requires Sound(s) && Enabled(s, Commit(x)) && Inserts(s.txs[x].kind)
    ensures Counts(s.uploads, s.exports, s.txs[x].kind) < LIMIT
  {
    assert ReadsCurrent(s, s.txs[x]);
  }

  lemma CommitKeepsUploadLimit(s: LockState, x: Id, t: Id)
    requires Sound(s) && Enabled(s, Commit(x))
    ensures |UploadsOf(Next(s, Commit(x)).uploads, t)| <= LIMIT
  {
    hide CommittedTickets, CommittedUploads, CommittedExports, UploadsOf, LiveExportsOf;
    hide TxOk, ReadsCurrent, Compatible, DeletedEmpty, Finished, Passes;
    var kind := s.txs[x].kind;
    CommittedRowsOf(s.uploads, s.exports, s.txs[x], t);
    SubsetSize(UploadsOf(Next(s, Commit(x)).uploads, t),
               UploadsOf(s.uploads, t) + if kind.AddUpload? && kind.ticket == t then {kind.file} else {});
    if kind.AddUpload? {
      RoomAtCommit(s, x);
    }
  }

  lemma CommitKeepsExportLimit(s: LockState, x: Id, t: Id)
    requires Sound(s) && Enabled(s, Commit(x))
    ensures |LiveExportsOf(Next(s, Commit(x)).exports, t)| <= LIMIT
  {
    hide CommittedTickets, CommittedUploads, CommittedExports, UploadsOf, LiveExportsOf;
    hide TxOk, ReadsCurrent, Compatible, DeletedEmpty, Finished, Passes;
    var kind := s.txs[x].kind;
    CommittedRowsOf(s.uploads, s.exports, s.txs[x], t);
    SubsetSize(LiveExportsOf(Next(s, Commit(x)).exports, t),
               LiveExportsOf(s.exports, t) + if kind.AddExport? && kind.ticket == t then {kind.exp} else {});
    if kind.AddExport? {
      RoomAtCommit(s, x);
    }
  }

  lemma TxKeepsDeletedEmpty(s: LockState, tx: Tx, t: Id)
    requires EmptyIfDeleted(s.tickets, s.uploads, s.exports, t) && ReadsCurrent(s, tx) && Passes(tx)
    ensures EmptyIfDeleted(CommittedTickets(s.tickets, tx), CommittedUploads(s.uploads, tx.kind),
                           CommittedExports(s.exports, tx), t)
  {
    hide Counts, SnapshotRead, PublishedOf;
    if t == tx.kind.ticket && tx.kind.RemoveTicket? {
      RemovedIsEmpty(s.uploads, s.exports, t);
    } else {
      hide CommittedUploads, CommittedExports, UploadsOf, LiveExportsOf;
      CommittedRowsOf(s.uploads, s.exports, tx, t);
    }
  }

  lemma CommitKeepsDeletedEmpty(s: LockState, x: Id)
    requires Sound(s) && Enabled(s, Commit(x))
    ensures DeletedEmpty(Next(s, Commit(x)))
  {
    hide CommittedTickets, CommittedUploads, CommittedExports, UploadsOf, LiveExportsOf, Passes, Finished, TxOk;
    hide ReadsCurrent, Compatible, EmptyIfDeleted;
    var after, tx := Next(s, Commit(x)), s.txs[x];
    forall t ensures EmptyIfDeleted(after.tickets, after.uploads, after.exports, t) {
      TxKeepsDeletedEmpty(s, tx, t);
    }
  }

  lemma RemovedIsEmpty(uploads: map<Id, UploadRow>, exports: map<Id, ExportRow>, t: Id)
    ensures UploadsOf(WithoutUploadsOf(uploads, t), t) == {} && LiveExportsOf(WithClearedOf(exports, t), t) == {}
  {
  }

  lemma CommitIsSound(s: LockState, x: Id)
    requires Sound(s) && Enabled(s, Commit(x))
    ensures Sound(Next(s, Commit(x)))
  {
    var after := Next(s, Commit(x));
    CommitKeepsDeletedEmpty(s, x);
    forall y | y in after.txs ensures ReadsCurrent(after, after.txs[y]) {
      CommitKeepsReads(s, x, y);
    }
    forall t ensures |UploadsOf(after.uploads, t)| <= LIMIT && |LiveExportsOf(after.exports, t)| <= LIMIT {
      CommitKeepsUploadLimit(s, x, t);
      CommitKeepsExportLimit(s, x, t);
    }
  }

  /** A step that only changes what one transaction has still to do, and what it has read. */
  lemma OwnStepIsSound(s: LockState, x: Id, tx: Tx)
    requires Sound(s) && TxOk(tx) && ReadsCurrent(s, tx)
    requires if x in s.txs then tx.held == s.txs[x].held else tx.held == map[]
    ensures Sound(s.(txs := s.txs[x := tx]))
  {
    hide TxOk, ReadsCurrent, UploadsOf, LiveExportsOf;
    var after := s.(txs := s.txs[x := tx]);
    forall y | y in after.txs ensures ReadsCurrent(after, after.txs[y]) {
      ReadsIgnoreOthers(s, after.txs, after.txs[y]);
    }
  }

  lemma ReadsIgnoreOthers(s: LockState, txs: map<Id, Tx>, tx: Tx)
    ensures ReadsCurrent(s.(txs := txs), tx) <==> ReadsCurrent(s, tx)
  {
  }

  lemma InsertIsSound(s: LockState, t: Id, row: TicketRow)
    requires Sound(s) && Enabled(s, Insert(t, row))
    ensures Sound(Next(s, Insert(t, row)))
  {
    var after := Next(s, Insert(t, row));
    assert forall y :: y in after.txs ==> ReadsCurrent(s, after.txs[y]) && ReadsCurrent(after, after.txs[y]);
    forall u ensures EmptyIfDeleted(after.tickets, after.uploads, after.exports, u) {
      assert EmptyIfDeleted(s.tickets, s.uploads, s.exports, u);
    }
  }

  lemma AbortIsSound(s: LockState, x: Id)
    requires Sound(s)
    ensures Sound(s.(txs := s.txs - {x}))
  {
  }

  lemma StepIsSound(s: LockState, step: Step)
    requires Sound(s) && Enabled(s, step)
    ensures Sound(Next(s, step))
  {
    match step
    case Begin(x, kind) =>
      ProgramIsOrdered(kind);
      OwnStepIsSound(s, x, Started(kind));
    case Acquire(x) => AcquireIsSound(s, x);
    case Select(x) =>
      SelectKeepsTx(s.txs[x], LiveExportsOf(s.exports, s.txs[x].kind.ticket));
      OwnStepIsSound(s, x, Next(s, step).txs[x]);
    case Count(x) => OwnStepIsSound(s, x, Next(s, step).txs[x]);
    case Attachments(x) => OwnStepIsSound(s, x, Next(s, step).txs[x]);
    case Insert(t, row) => InsertIsSound(s, t, row);
    case Commit(x) => CommitIsSound(s, x);
    case Abort(x) => AbortIsSound(s, x);
  }

  /** Every state of every run is sound. */
  lemma {:induction false} RunIsSound(states: seq<LockState>, steps: seq<Step>, i: nat)
    requires IsRun(states, steps) && i < |states|
    ensures Sound(states[i])
  {
    if i == 0 {
      assert forall t :: UploadsOf(states[0].uploads, t) == {} && LiveExportsOf(states[0].exports, t) == {};
    } else {
      RunIsSound(states, steps, i - 1);
      StepIsSound(states[i - 1], steps[i - 1]);
    }
  }

  // ----- what follows -------------------------------------------------------------------------------

  /**
   * Capacity: under any interleaving of statements no ticket ever has more than
   * 50 uploads or 50 live exports committed, so a deletion never meets more.
   */
  lemma CapacityHolds(states: seq<LockState>, steps: seq<Step>, i: nat, t: Id)
    requires IsRun(states, steps) && i < |states|
    ensures |UploadsOf(states[i].uploads, t)| <= 50 && |LiveExportsOf(states[i].exports, t)| <= 50
  {
    RunIsSound(states, steps, i);
  }

  /** A held lock is never asked for again in a stronger mode, and requests only go up the lock order. */
  lemma NoUpgrade(states: seq<LockState>, steps: seq<Step>, i: nat, x: Id, r: Row)
    requires IsRun(states, steps) && i < |states|
    requires x in states[i].txs && r in states[i].txs[x].held && states[i].txs[x].requests != []
    ensures var request := states[i].txs[x].requests[0];
            Below(r, request.row) || (r == request.row && request.mode == states[i].txs[x].held[r])
  {
    RunIsSound(states, steps, i);
  }

  /** A transaction that waits for a waiting one waits for a lower row. */
  lemma WaitingGoesUp(s: LockState, x: Id, y: Id, z: Id)
    requires Sound(s) && WaitsFor(s, x, y) && WaitsFor(s, y, z)
    ensures Below(s.txs[x].requests[0].row, s.txs[y].requests[0].row)
  {
    var row := s.txs[x].requests[0].row;
    if s.txs[y].requests[0].row == row {
      assert false;
    }
  }

  /** Each waits for the next, and the last for the first. */
  ghost predicate IsCycle(s: LockState, cycle: seq<Id>) {
    && cycle != []
    && (forall i :: 0 <= i < |cycle| - 1 ==> WaitsFor(s, cycle[i], cycle[i + 1]))
    && WaitsFor(s, cycle[|cycle| - 1], cycle[0])
  }

  /** Both wait, the first for a lower row. */
  predicate WaitsLower(s: LockState, x: Id, y: Id) {
    && x in s.txs && y in s.txs && s.txs[x].requests != [] && s.txs[y].requests != []
    && Below(s.txs[x].requests[0].row, s.txs[y].requests[0].row)
  }

  lemma {:induction false} RowsRise(s: LockState, cycle: seq<Id>, i: nat)
    requires Sound(s) && IsCycle(s, cycle) && 0 < i < |cycle|
    ensures WaitsLower(s, cycle[0], cycle[i])
  {
    var z := if i + 1 < |cycle| then cycle[i + 1] else cycle[0];
    WaitingGoesUp(s, cycle[i - 1], cycle[i], z);
    if i > 1 {
      RowsRise(s, cycle, i - 1);
    }
  }

  /** Deadlock freedom: in every state of every run the waits-for graph has no cycle. */
  lemma NoDeadlock(states: seq<LockState>, steps: seq<Step>, i: nat, cycle: seq<Id>)
    requires IsRun(states, steps) && i < |states|
    ensures !IsCycle(states[i], cycle)
  {
    RunIsSound(states, steps, i);
    var s := states[i];
    if IsCycle(s, cycle) {
      var last := |cycle| - 1;
      if last > 0 {
        RowsRise(s, cycle, last);
        WaitingGoesUp(s, cycle[last], cycle[0], cycle[1]);
      }
    }
  }

  ghost predicate Blocked(s: LockState, x: Id) {
    exists y :: WaitsFor(s, x, y)
  }

  ghost predicate AllWaitLower(s: LockState, seen: set<Id>, x: Id) {
    forall w :: w in seen ==> WaitsLower(s, w, x)
  }

  lemma OneMoreWaitsLower(s: LockState, seen: set<Id>, x: Id, y: Id)
    requires AllWaitLower(s, seen, x) && WaitsLower(s, x, y)
    ensures AllWaitLower(s, seen + {x}, y) && x !in seen
  {
  }

  lemma ChainStep(s: LockState, x: Id, y: Id)
    requires Sound(s) && WaitsFor(s, x, y) && Blocked(s, y)
    ensures WaitsLower(s, x, y)
  {
    var z :| WaitsFor(s, y, z);
    WaitingGoesUp(s, x, y, z);
  }

  /** From any waiting transaction the chain of waiting leads to one that is not blocked. */
  lemma {:induction false} ChainEnds(s: LockState, x: Id, seen: set<Id>)
    requires Sound(s) && x in s.txs && seen <= s.txs.Keys && AllWaitLower(s, seen, x)
    ensures exists y :: y in s.txs && !Blocked(s, y)
    decreases |s.txs.Keys - seen|
  {
    if Blocked(s, x) {
      var y :| WaitsFor(s, x, y);
      if Blocked(s, y) {
        ChainStep(s, x, y);
        OneMoreWaitsLower(s, seen, x, y);
        assert s.txs.Keys - (seen + {x}) == s.txs.Keys - seen - {x};
        ChainEnds(s, y, seen + {x});
      }
    }
  }

  /** A step that takes its transaction further; a refusal for what it has read ends it. */
  predicate Advances(s: LockState, step: Step) {
    match step
    case Begin(_, _) => false
    case Insert(_, _) => false
    case Abort(x) => x in s.txs && Finished(s.txs[x]) && !Passes(s.txs[x])
    case _ => true
  }

  /** Progress: while transactions are under way, one of them can go on without any other giving up. */
  lemma SomeoneCanGoOn(states: seq<LockState>, steps: seq<Step>, i: nat)
    requires IsRun(states, steps) && i < |states| && states[i].txs != map[]
    ensures exists step :: Enabled(states[i], step) && Advances(states[i], step)
  {
    RunIsSound(states, steps, i);
    var s := states[i];
    var x :| x in s.txs;
    ChainEnds(s, x, {});
    var y :| y in s.txs && !Blocked(s, y);
    var tx := s.txs[y];
    var step :=
      if tx.requests != [] then Acquire(y)
      else if tx.kind.RemoveTicket? && !tx.selected then Select(y)
      else if Inserts(tx.kind) && tx.counted.None? then Count(y)
      else if tx.kind.AddExport? && tx.published.None? then Attachments(y)
      else if !Passes(tx) then Abort(y)
      else Commit(y);
    assert Enabled(s, step) && Advances(s, step);
  }

  /** The ticket's row and its uploads are the same; and its exports, if the lock is exclusive. */
  ghost predicate IsUndisturbed(s: LockState, after: LockState, kind: Kind) {
    var t := kind.ticket;
    && (t in s.tickets ==> t in after.tickets && after.tickets[t] == s.tickets[t])
    && UploadRowsOf(after.uploads, t) == UploadRowsOf(s.uploads, t)
    && (TicketMode(kind).Exclusive? ==> ExportRowsOf(after.exports, t) == ExportRowsOf(s.exports, t))
  }

  lemma CommitDisturbsNobody(s: LockState, x: Id, y: Id)
    requires Sound(s) && Enabled(s, Commit(y)) && x in s.txs && x != y && HoldsTicket(s.txs[x])
    ensures IsUndisturbed(s, Next(s, Commit(y)), s.txs[x].kind)
  {
    hide TxOk, ReadsCurrent, CommittedTickets, CommittedUploads, CommittedExports, Passes;
    HoldsAtCommit(s, y);
    if s.txs[y].kind.ticket == s.txs[x].kind.ticket {
      HoldersShare(s, x, y);
      SharedCommitKeepsUploads(s, y);
    } else {
      CommitStaysOnItsTicket(s, y, s.txs[x].kind.ticket);
    }
  }

  /**
   * While a transaction holds a ticket's row, others change neither that row nor
   * any row of the ticket's uploads; and none of its exports, if the lock is
   * exclusive.
   */
  lemma HeldTicketIsStable(states: seq<LockState>, steps: seq<Step>, i: nat, x: Id)
    requires IsRun(states, steps) && i < |steps| && x in states[i].txs && x in states[i + 1].txs
    requires HoldsTicket(states[i].txs[x])
    ensures IsUndisturbed(states[i], states[i + 1], states[i].txs[x].kind)
  {
    hide Sound;
    RunIsSound(states, steps, i);
    if steps[i].Commit? {
      CommitDisturbsNobody(states[i], x, steps[i].tx);
    }
  }

  /** Kinds that only read their ticket's row, and write at most a row of one of its exports. */
  predicate OnlyReadsTicket(kind: Kind) {
    kind.ReadTicket? || kind.ReadExport? || kind.PublishExport? || kind.ExpireExport?
  }

  /** Whoever writes the ticket, its uploads or a new export has the ticket's row to itself. */
  lemma WritersAreAlone(states: seq<LockState>, steps: seq<Step>, i: nat, x: Id, y: Id)
    requires IsRun(states, steps) && i < |states| && x in states[i].txs && y in states[i].txs && x != y
    requires !OnlyReadsTicket(states[i].txs[x].kind)
    requires TicketLock(states[i].txs[x].kind.ticket) in states[i].txs[x].held
    ensures TicketLock(states[i].txs[x].kind.ticket) !in states[i].txs[y].held
  {
    RunIsSound(states, steps, i);
    assert TxOk(states[i].txs[x]);
  }

  /** Whoever only reads it waits at its row for such a writer, never for another reader. */
  lemma ReadersShare(states: seq<LockState>, steps: seq<Step>, i: nat, x: Id, y: Id)
    requires IsRun(states, steps) && i < |states| && WaitsFor(states[i], x, y)
    requires OnlyReadsTicket(states[i].txs[x].kind) && states[i].txs[x].requests[0].row.TicketLock?
    ensures !OnlyReadsTicket(states[i].txs[y].kind) && states[i].txs[y].kind.ticket == states[i].txs[x].kind.ticket
  {
    RunIsSound(states, steps, i);
    TicketLocksAreOwn(states, steps, i, x);
    TicketLocksAreOwn(states, steps, i, y);
  }

  /** A transaction locks no other ticket's row than its own, in its own mode. */
  lemma {:induction false} TicketLocksAreOwn(states: seq<LockState>, steps: seq<Step>, i: nat, x: Id)
    requires IsRun(states, steps) && i < |states| && x in states[i].txs
    ensures OwnTicketLocks(states[i].txs[x])
  {
    if i > 0 {
      if x in states[i - 1].txs {
        TicketLocksAreOwn(states, steps, i - 1, x);
      }
      StepKeepsOwnLocks(states[i - 1], steps[i - 1], x);
    }
  }

  ghost predicate OwnTicketLocks(tx: Tx) {
    var own := TicketLock(tx.kind.ticket);
    && (forall r :: r in tx.held && r.TicketLock? ==> r == own && tx.held[r] == TicketMode(tx.kind))
    && (forall k :: 0 <= k < |tx.requests| && tx.requests[k].row.TicketLock? ==>
          tx.requests[k] == Request(own, TicketMode(tx.kind)))
  }

  lemma StepKeepsOwnLocks(s: LockState, step: Step, x: Id)
    requires Enabled(s, step) && x in Next(s, step).txs
    requires x in s.txs ==> OwnTicketLocks(s.txs[x])
    ensures OwnTicketLocks(Next(s, step).txs[x])
  {
    hide CommittedTickets, CommittedUploads, CommittedExports, Counts, PublishedOf, LiveExportsOf;
    if step.Acquire? && step.tx == x {
      assert forall k :: 0 < k < |s.txs[x].requests| ==> s.txs[x].requests[1..][k - 1] == s.txs[x].requests[k];
    }
  }

  /** So whatever a transaction read at an earlier statement is still what is committed when it commits. */
  lemma ReadsHoldAtCommit(states: seq<LockState>, steps: seq<Step>, i: nat, x: Id)
    requires IsRun(states, steps) && i < |steps| && steps[i] == Commit(x)
    ensures x in states[i].txs && ReadsCurrent(states[i], states[i].txs[x])
  {
    RunIsSound(states, steps, i);
  }

  /** And no interleaving of statements leaves a deleted ticket an upload or an export with data. */
  lemma DeletedTicketIsEmpty(states: seq<LockState>, steps: seq<Step>, i: nat, t: Id)
    requires IsRun(states, steps) && i < |states| && t in states[i].tickets && states[i].tickets[t].deleted
    ensures UploadsOf(states[i].uploads, t) == {} && LiveExportsOf(states[i].exports, t) == {}
  {
    RunIsSound(states, steps, i);
    assert EmptyIfDeleted(states[i].tickets, states[i].uploads, states[i].exports, t);
  }
}
