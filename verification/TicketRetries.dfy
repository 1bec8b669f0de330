/** What a retried request is answered, as long as its key is remembered. */
module TicketRetries {
  import opened Basics
  import opened TicketDomain
  import opened TicketModel
  import opened TicketTransactions
  import opened TicketSystem
  import opened TicketLedger
  import opened TicketSafety
  import opened TicketRuns
  import opened TicketGuarantees
  import opened TicketIdempotency
  import opened TicketReplies

  // ----- the claim -------------------------------------------------------------------------------

  /** Of the chosen keys' records the expired ones are gone, and k's record is given. */
  ghost predicate Reclaims(s: State, records: map<RecordKey, Record>, k: RecordKey, purge: set<RecordKey>) {
    forall x :: x != k ==>
      if x in s.records && (x !in purge || s.now < s.records[x].expiresAt)
      then x in records && records[x] == s.records[x] else x !in records
  }

  /**
   * A key of 1 to 128 visible characters is granted, as a replay of what was
   * saved while its record lives, and else anew for 86400 seconds; only a live
   * record of another request refuses it.
   */
  lemma ClaimDecides(s: State, k: RecordKey, mark: Fingerprint, purge: set<RecordKey>)
    ensures var claim := ClaimKey(s, k, mark, purge);
            if !IsVisibleKey(k.key) then claim == KeyRefused(InvalidKey)
            else if k in s.records && s.now < s.records[k].expiresAt then
              if s.records[k].fingerprint == mark
              then && claim.KeyGranted? && claim.saved == s.records[k].response
                   && k in claim.records && claim.records[k] == s.records[k] && Reclaims(s, claim.records, k, purge)
              else claim == KeyRefused(KeyConflict)
            else && claim.KeyGranted? && claim.saved.None?
                 && k in claim.records && claim.records[k] == Record(mark, None, s.now + 86400)
                 && Reclaims(s, claim.records, k, purge)
  {
  }

  // ----- retries ---------------------------------------------------------------------------------

  predicate HasSession(s: State, user: Id, session: Id) {
    session in s.sessions && s.sessions[session] == user
  }

  /** The actor may make such a request at all. */
  predicate MayAsk(s: State, step: Step)
    requires IsKeyed(step)
  {
    match step
    case CreateTicket(actor, _, _, _, _, _, _) => actor in s.members
    case StartUpload(actor, t, _, _, _, _, _) => HasAccess(s, actor, t)
    case RequestExport(actor, session, t, _, _, _, _, _) => HasAccess(s, actor, t) && HasSession(s, actor, session)
  }

  /** And what it made is still there for the actor. */
  predicate MaySee(s: State, step: Step, id: Id)
    requires IsKeyed(step)
  {
    match step
    case CreateTicket(actor, _, _, _, _, _, _) => HasAccess(s, actor, id)
    case StartUpload(_, t, _, _, _, _, _) => id in s.uploads && s.uploads[id].ticket == t
    case RequestExport(_, _, _, _, _, _, _, _) => true
  }

  ghost predicate IsError(reply: Reply, error: Failure) {
    reply == TicketReply(Err(error)) || reply == UploadReply(Err(error)) || reply == ExportReply(Err(error))
  }

  /** The reply to a request under the key of a row that was saved for another request, or for the same. */
  ghost predicate RepliesFor(s: State, retry: Step, mark: Option<Fingerprint>, id: Id, reply: Reply)
    requires IsKeyed(retry)
  {
    if MarkOf(retry).None? then IsError(reply, InvalidContent)
    else if !MayAsk(s, retry) then Named(reply).None?
    else if MarkOf(retry) != mark then IsError(reply, KeyConflict)
    else if !MaySee(s, retry, id) then IsError(reply, NotFound)
    else Named(reply) == Some(id)
         && (reply.TicketReply? ==> id in s.tickets && reply == TicketReply(Ok(s.tickets[id].ticket)))
  }

  lemma CreateRepeats(render: Renderer, sys: System, retry: Step, mark: Fingerprint, id: Id)
    requires Safe(render, sys) && retry.CreateTicket? && ValidKey(retry.key) && Recorded(sys.db, KeyOf(retry), mark, id)
    ensures RepliesFor(sys.db, retry, Some(mark), id, Apply(render, sys, retry).1)
  {
    RowsCarryTheirIds(render, sys);
    SafeRecords(render, sys);
    AccessIsNotRefused(sys.db, retry.actor, id);
    hide Safe, New, Ledger;
  }

  lemma StartReplies(render: Renderer, sys: System, step: Step)
    requires step.StartUpload?
    ensures Apply(render, sys, step).1
         == UploadReply(RegisterUpload(sys.db, step.actor, step.ticket, step.input, step.key, step.id, step.lifetime,
                                       step.purge).1)
  {
    hide RegisterUpload;
  }

  lemma StartRepeats(render: Renderer, sys: System, retry: Step, mark: Fingerprint, id: Id)
    requires Safe(render, sys) && retry.StartUpload? && ValidKey(retry.key) && Recorded(sys.db, KeyOf(retry), mark, id)
    ensures RepliesFor(sys.db, retry, Some(mark), id, Apply(render, sys, retry).1)
  {
    hide Apply, Safe, HasAccess, ValidInput, AccessRefusal;
    SafeRecords(render, sys);
    AccessIsNotRefused(sys.db, retry.actor, retry.ticket);
    StartReplies(render, sys, retry);
  }

  lemma RequestReplies(render: Renderer, sys: System, step: Step)
    requires step.RequestExport?
    ensures Apply(render, sys, step).1
         == ExportReply(CreateExport(render, sys.db, step.actor, step.session, step.ticket, step.spelling, step.key,
                                     step.id, step.job, step.purge).1)
  {
    hide CreateExport;
  }

  lemma RequestRepeats(render: Renderer, sys: System, retry: Step, mark: Fingerprint, id: Id)
    requires Safe(render, sys) && retry.RequestExport? && ValidKey(retry.key)
    requires Recorded(sys.db, KeyOf(retry), mark, id)
    ensures RepliesFor(sys.db, retry, Some(mark), id, Apply(render, sys, retry).1)
  {
    hide Apply, Safe, HasAccess, SnapshotOf, AllReady, AccessRefusal;
    SafeRecords(render, sys);
    AccessIsNotRefused(sys.db, retry.actor, retry.ticket);
    RequestReplies(render, sys, retry);
  }

  lemma RecordedRepeats(render: Renderer, sys: System, retry: Step, mark: Fingerprint, id: Id)
    requires Safe(render, sys) && IsKeyed(retry) && ValidKey(retry.key) && Recorded(sys.db, KeyOf(retry), mark, id)
    ensures RepliesFor(sys.db, retry, Some(mark), id, Apply(render, sys, retry).1)
  {
    hide Apply, Safe, RepliesFor, Recorded;
    match retry
    case CreateTicket(_, _, _, _, _, _, _) => CreateRepeats(render, sys, retry, mark, id);
    case StartUpload(_, _, _, _, _, _, _) => StartRepeats(render, sys, retry, mark, id);
    case RequestExport(_, _, _, _, _, _, _, _) => RequestRepeats(render, sys, retry, mark, id);
  }

  lemma SuccessHadValidKey(render: Renderer, sys: System, step: Step)
    requires IsKeyed(step) && Named(Apply(render, sys, step).1).Some?
    ensures ValidKey(step.key)
  {
    hide SnapshotOf, AllReady, PublishedOf, ValidKey, New;
  }

  /**
   * A retry gets through: as long as a key is remembered, after any interleaving,
   * the same request is answered with the row it made, as that row is now, for as
   * long as the actor may see it; and another request under that key is refused
   * for the conflict.
   */
  lemma RetryIsAnsweredWithTheRow(render: Renderer, sys: System, first: Step, steps: seq<Step>, retry: Step)
    requires Reachable(render, sys) && IsKeyed(first) && IsKeyed(retry) && KeyOf(first) == KeyOf(retry)
    requires Named(Apply(render, sys, first).1).Some?
    requires var next := Apply(render, sys, first).0;
             Run(render, next, steps).db.now < RememberedUntil(next.db, KeyOf(first))
    ensures var later := Run(render, Apply(render, sys, first).0, steps);
            RepliesFor(later.db, retry, MarkOf(first), Named(Apply(render, sys, first).1).value,
                       Apply(render, later, retry).1)
  {
    hide Apply, Safe, RepliesFor, Recorded;
    ReachableIsSafe(render, sys);
    SuccessIsRecorded(render, sys, first);
    SuccessHadValidKey(render, sys, first);
    StepIsSafe(render, sys, first);
    RecordIsKept(render, Apply(render, sys, first).0, steps, KeyOf(first), MarkOf(first).value,
                 Named(Apply(render, sys, first).1).value);
    SameKeyText(first, retry);
    RecordedRepeats(render, Run(render, Apply(render, sys, first).0, steps), retry, MarkOf(first).value,
                    Named(Apply(render, sys, first).1).value);
  }

  lemma SameKeyText(a: Step, b: Step)
    requires IsKeyed(a) && IsKeyed(b) && KeyOf(a) == KeyOf(b)
    ensures a.key == b.key
  {
  }
}
