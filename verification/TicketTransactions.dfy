/**
 * What each transaction of the ticket module does to the rows: when it is
 * refused, what it answers, and the state it commits. A refused transaction
 * leaves the state it was given.
 */
module TicketTransactions {
  import opened Basics
  import opened TicketDomain
  import opened TicketModel

  // ----- rows of one ticket ---------------------------------------------------

  function UploadsOf(uploads: map<Id, UploadRow>, t: Id): set<Id> {
    set f | f in uploads && uploads[f].ticket == t
  }

  function PublishedOf(uploads: map<Id, UploadRow>, t: Id): set<Id> {
    set f | f in uploads && uploads[f].ticket == t && uploads[f].published
  }

  function LiveExportsOf(exports: map<Id, ExportRow>, t: Id): set<Id> {
    set e | e in exports && exports[e].ticket == t && exports[e].Live()
  }

  /** Files the live exports of a ticket still point at. */
  function ExportFilesOf(exports: map<Id, ExportRow>, t: Id): set<Id> {
    set e | e in exports && exports[e].ticket == t && exports[e].file.Some? :: exports[e].file.value
  }

  // ----- authorization and idempotency ------------------------------------------

  /** application::authorized refuses; None means the ticket may be used. */
  function AccessRefusal(s: State, actor: Id, t: Id): Option<Failure> {
    if actor !in s.members then Some(Forbidden)
    else if t in s.tickets && !s.tickets[t].deleted
            && (!s.members[actor].Member? || s.tickets[t].ticket.createdBy == actor)
    then None
    else Some(NotFound)
  }

  function Read(s: State, actor: Id, t: Id): Outcome<Ticket> {
    var refusal := AccessRefusal(s, actor, t);
    if refusal.Some? then Err(refusal.value) else Ok(s.tickets[t].ticket)
  }

  /** A session reference is current for a user. */
  predicate Current(s: State, user: Id, session: Id) {
    session in s.sessions && s.sessions[session] == user
  }

  predicate ValidKey(key: string) {
    1 <= |key| <= 128 && forall i :: 0 <= i < |key| ==> 33 as char <= key[i] <= 126 as char
  }

  datatype Claim =
    | KeyRefused(error: Failure)
    | KeyGranted(records: map<RecordKey, Record>, saved: Option<Saved>)

  predicate LiveRecord(s: State, k: RecordKey) {
    k in s.records && s.now < s.records[k].expiresAt
  }

  /** Reclamation: any expired records among the chosen keys disappear. */
  function Purged(s: State, purge: set<RecordKey>): map<RecordKey, Record> {
    map k | k in s.records && !(k in purge && s.records[k].expiresAt <= s.now) :: s.records[k]
  }

  /** idempotency::claim. */
  function ClaimKey(s: State, k: RecordKey, mark: Fingerprint, purge: set<RecordKey>): Claim {
    if !ValidKey(k.key) then KeyRefused(InvalidKey)
    else if LiveRecord(s, k) then
      if s.records[k].fingerprint != mark then KeyRefused(KeyConflict)
      else KeyGranted(Purged(s, purge), s.records[k].response)
    else
      KeyGranted(Purged(s, purge)[k := Record(mark, None, s.now + RECORD_RETENTION)], None)
  }

  /** idempotency::complete, in the transaction that claimed. */
  function Completed(records: map<RecordKey, Record>, k: RecordKey, saved: Saved): map<RecordKey, Record> {
    if k in records then records[k := records[k].(response := Some(saved))] else records
  }

  // ----- files ------------------------------------------------------------------

  /** Of the files to delete, those not already on their way out. */
  function Unmarked(files: map<Id, File>, ids: set<Id>): set<Id> {
    set f | f in ids && f in files && !files[f].state.Gone()
  }

  function Marked(files: map<Id, File>, ids: set<Id>): map<Id, File> {
    map f | f in files :: if f in ids && !files[f].state.Gone() then files[f].(state := Deleting) else files[f]
  }

  /** files::mark_deleting for each of the files. */
  function MarkAll(s: State, ids: set<Id>): State {
    s.(files := Marked(s.files, ids), cleanups := s.cleanups + multiset(Unmarked(s.files, ids)))
  }

  /** files::publish for the verified candidate c of file f: its answer. */
  function PublicationOf(s: State, f: Id, c: Id): Publication {
    if f !in s.files then PublicationRefused(FileFailure(FileNotFound))
    else
      match s.files[f].state
      case Ready => Existing
      case Rejected => PublicationRefused(FileFailure(UploadRejected))
      case Expired => PublicationRefused(FileFailure(UploadExpired))
      case Deleting => PublicationRefused(FileFailure(FileNotFound))
      case Deleted => PublicationRefused(FileFailure(FileNotFound))
      case PendingUpload =>
        if c !in s.candidates || s.candidates[c] != Candidate(f, Copying) then
          PublicationRefused(FileFailure(FileUnavailable))
        else if s.now < s.files[f].expiresAt then NewlyAdopted
        else PublicationExpired
  }

  /** The file changes its state; an unknown file changes nothing. */
  function WithState(files: map<Id, File>, f: Id, state: FileState): map<Id, File> {
    if f in files then files[f := files[f].(state := state)] else files
  }

  function WithAbandoned(candidates: map<Id, Candidate>, c: Id): map<Id, Candidate> {
    if c in candidates && candidates[c].state.Copying?
    then candidates[c := candidates[c].(state := Abandoned)]
    else candidates
  }

  /** The candidate is adopted; the other attempts at the same file are abandoned. */
  function WithAdopted(candidates: map<Id, Candidate>, f: Id, c: Id): map<Id, Candidate> {
    map d | d in candidates ::
      if d == c then Candidate(f, Adopted)
      else if candidates[d] == Candidate(f, Copying) then Candidate(f, Abandoned)
      else candidates[d]
  }

  /** The file becomes ready with this candidate. */
  function Adopt(s: State, f: Id, c: Id): State {
    s.(files := if f in s.files then s.files[f := s.files[f].(state := Ready, readyCandidate := Some(c))] else s.files,
       candidates := WithAdopted(s.candidates, f, c))
  }

  /** A file whose upload time ran out. */
  function ExpireFile(s: State, f: Id): State {
    s.(files := WithState(s.files, f, Expired))
  }

  /** FileService::abandon, after a failed verification or publication. */
  function AbandonAttempt(s: State, f: Id, c: Id, rejected: bool): State {
    s.(candidates := WithAbandoned(s.candidates, c),
       files := if rejected && f in s.files && s.files[f].state.PendingUpload?
                then WithState(s.files, f, Rejected) else s.files)
  }

  function FileSnapshotOf(files: map<Id, File>, f: Id): FileSnapshot
    requires f in files
  {
    var row := files[f];
    FileSnapshot(f, row.fileName, row.contentType, row.size, row.sha256,
                 if row.readyCandidate.Some? then row.readyCandidate.value else 0)
  }

  function ReadyAmong(files: map<Id, File>, ids: seq<Id>): set<Id> {
    set f | f in ids && f in files && files[f].state.Ready?
  }

  /** files::snapshots finds one ready row for each requested id, or refuses. */
  predicate AllReady(files: map<Id, File>, ids: seq<Id>) {
    |ReadyAmong(files, ids)| == |ids|
  }

  /** files::snapshots: the distinct ready rows, ordered by id. */
  function Snapshots(files: map<Id, File>, ids: seq<Id>): seq<FileSnapshot> {
    var ready := Sorted(ReadyAmong(files, ids));
    seq(|ready|, i requires 0 <= i < |ready| =>
          SortedHas(ReadyAmong(files, ids), ready[i]); FileSnapshotOf(files, ready[i]))
  }

  // ----- tickets: application.rs ---------------------------------------------------

  function CreateRefusal(s: State, actor: Id, k: RecordKey, id: Id, claim: Claim): Option<Failure> {
    if actor !in s.members then Some(Forbidden)
    else if claim.KeyRefused? then Some(claim.error)
    else if claim.saved.Some? then
      if claim.saved.value.SavedTicket? then AccessRefusal(s, actor, claim.saved.value.id) else Some(Unavailable)
    else if id in s.tickets then Some(Unavailable)
    else None
  }

  function NewTicket(actor: Id, content: Content, id: Id, stamp: int): Ticket {
    Ticket(id, actor, content.title, content.description, Open, 1, stamp, stamp)
  }

  function Create(s: State, actor: Id, content: Content, key: string, id: Id, stamp: int,
                  purge: set<RecordKey>): (State, Outcome<Ticket>)
  {
    var k := RecordKey(actor, TicketScope, key);
    var claim := ClaimKey(s, k, OfTicket(content), purge);
    var refusal := CreateRefusal(s, actor, k, id, claim);
    if refusal.Some? then (s, Err(refusal.value))
    else if claim.saved.Some? then
      (s.(records := claim.records), Ok(s.tickets[claim.saved.value.id].ticket))
    else
      (s.(tickets := s.tickets[id := TicketRow(NewTicket(actor, content, id, stamp), false)],
          records := Completed(claim.records, k, SavedTicket(id)),
          audit := s.audit + [Event(actor, TicketCreated, id)]),
       Ok(NewTicket(actor, content, id, stamp)))
  }

  function UpdateRefusal(s: State, actor: Id, t: Id, version: int): Option<Failure> {
    var access := AccessRefusal(s, actor, t);
    if access.Some? then access
    else if s.tickets[t].ticket.version != version then Some(VersionConflict)
    else if version == MAX_VERSION then Some(Unavailable)
    else None
  }

  function Edited(ticket: Ticket, content: Content, status: Status, stamp: int): Ticket {
    ticket.(title := content.title, description := content.description, status := status,
            version := ticket.version + 1, updatedAt := stamp)
  }

  function Update(s: State, actor: Id, t: Id, content: Content, status: Status, version: int,
                  stamp: int): (State, Outcome<Ticket>)
  {
    var refusal := UpdateRefusal(s, actor, t, version);
    if refusal.Some? then (s, Err(refusal.value))
    else
      var ticket := Edited(s.tickets[t].ticket, content, status, stamp);
      (s.(tickets := s.tickets[t := TicketRow(ticket, false)],
          audit := s.audit + [Event(actor, TicketUpdated, t)]), Ok(ticket))
  }

  /** Every file the rows of a ticket point at. */
  function FilesOf(uploads: map<Id, UploadRow>, exports: map<Id, ExportRow>, t: Id): set<Id> {
    UploadsOf(uploads, t) + ExportFilesOf(exports, t)
  }

  function RemoveRefusal(s: State, actor: Id, t: Id): Option<Failure> {
    var access := AccessRefusal(s, actor, t);
    if access.Some? then access
    else if |UploadsOf(s.uploads, t)| > MAX_ASSOCIATIONS || |LiveExportsOf(s.exports, t)| > MAX_LIVE_EXPORTS
    then Some(Unavailable)
    else if !(FilesOf(s.uploads, s.exports, t) <= s.files.Keys) then Some(FileFailure(FileNotFound))
    else if s.tickets[t].ticket.version == MAX_VERSION then Some(Unavailable)
    else None
  }

  function Removed(ticket: Ticket, stamp: int): Ticket {
    ticket.(version := ticket.version + 1, updatedAt := stamp)
  }

  function Cleared(row: ExportRow): ExportRow {
    row.(snapshot := None, file := None)
  }

  function WithoutUploadsOf(uploads: map<Id, UploadRow>, t: Id): map<Id, UploadRow> {
    map f | f in uploads && uploads[f].ticket != t :: uploads[f]
  }

  function WithClearedOf(exports: map<Id, ExportRow>, t: Id): map<Id, ExportRow> {
    map e | e in exports :: if exports[e].ticket == t then Cleared(exports[e]) else exports[e]
  }

  function Remove(s: State, actor: Id, t: Id, stamp: int): (State, Outcome<()>) {
    var refusal := RemoveRefusal(s, actor, t);
    if refusal.Some? then (s, Err(refusal.value))
    else
      (MarkAll(s, FilesOf(s.uploads, s.exports, t)).(
         tickets := s.tickets[t := TicketRow(Removed(s.tickets[t].ticket, stamp), true)],
         uploads := WithoutUploadsOf(s.uploads, t),
         exports := WithClearedOf(s.exports, t),
         audit := s.audit + [Event(actor, TicketDeleted, t)]), Ok(()))
  }

  // ----- attachments: attachments.rs --------------------------------------------------

  /** The association of a file with a ticket. */
  predicate Associated(s: State, t: Id, f: Id) {
    f in s.uploads && s.uploads[f].ticket == t
  }

  predicate IsControl(c: char) {
    c < ' ' || '\U{7F}' <= c <= '\U{9F}'
  }

  predicate IsToken(s: string) {
    forall i :: 0 <= i < |s| ==>
      'a' <= s[i] <= 'z' || '0' <= s[i] <= '9' || s[i] in {'!', '#', '$', '&', '-', '^', '_', '.', '+'}
  }

  /** A media type without parameters, in lower case, no longer than 127 bytes. */
  predicate IsMediaType(s: string) {
    |s| <= 127 && exists i :: 0 < i < |s| - 1 && s[i] == '/' && IsToken(s[..i]) && IsToken(s[i + 1..])
  }

  /** FileService::validate, for an input in its normal form. */
  predicate ValidInput(input: UploadInput) {
    && 0 <= input.size <= MAX_SIZE
    && Trim(input.fileName) != [] && |input.fileName| <= 255
    && (forall i :: 0 <= i < |input.fileName| ==> !IsControl(input.fileName[i]) && input.fileName[i] !in {'/', '\\'})
    && input.fileName != "." && input.fileName != ".."
    && IsMediaType(input.contentType)
  }

  function RegisterRefusal(s: State, actor: Id, t: Id, input: UploadInput, id: Id, claim: Claim): Option<Failure> {
    var access := AccessRefusal(s, actor, t);
    if access.Some? then access
    else if claim.KeyRefused? then Some(claim.error)
    else if claim.saved.Some? then
      if !claim.saved.value.SavedUpload? then Some(Unavailable)
      else if !Associated(s, t, claim.saved.value.id) then Some(NotFound)
      else if claim.saved.value.id !in s.files then Some(FileFailure(FileNotFound))
      else None
    else if |UploadsOf(s.uploads, t)| >= MAX_ASSOCIATIONS then Some(AttachmentLimit)
    else if !ValidInput(input) then Some(FileFailure(InvalidInput))
    else if id in s.files || id in s.uploads then Some(FileFailure(FileUnavailable))
    else None
  }

  /** What the upload's row was declared with. */
  function InputOf(file: File): UploadInput {
    UploadInput(file.fileName, file.contentType, file.size, file.sha256)
  }

  function NewFile(s: State, input: UploadInput, lifetime: nat): File {
    File(input.fileName, input.contentType, input.size, input.sha256, PendingUpload, None, s.now + lifetime)
  }

  function RegisterUpload(s: State, actor: Id, t: Id, input: UploadInput, key: string, id: Id,
                          lifetime: nat, purge: set<RecordKey>): (State, Outcome<Id>)
  {
    var k := RecordKey(actor, UploadScope(t), key);
    var claim := ClaimKey(s, k, OfUpload(input), purge);
    var refusal := RegisterRefusal(s, actor, t, input, id, claim);
    if refusal.Some? then (s, Err(refusal.value))
    else if claim.saved.Some? then (s.(records := claim.records), Ok(claim.saved.value.id))
    else
      (s.(files := s.files[id := NewFile(s, input, lifetime)],
          uploads := s.uploads[id := UploadRow(t, false)],
          records := Completed(claim.records, k, SavedUpload(id))), Ok(id))
  }

  /** The planning transaction of complete_upload; candidate is the id of a new attempt. */
  function PlanOf(s: State, actor: Id, t: Id, f: Id, candidate: Id): Outcome<Plan> {
    var access := AccessRefusal(s, actor, t);
    if access.Some? then Err(access.value)
    else if !Associated(s, t, f) then Err(NotFound)
    else if f !in s.files then Err(FileFailure(FileNotFound))
    else
      match s.files[f].state
      case Ready => if s.uploads[f].published then Ok(AlreadyReady) else Err(NotFound)
      case Rejected => Ok(PlanRejected)
      case Deleting => Err(FileFailure(FileNotFound))
      case Deleted => Err(FileFailure(FileNotFound))
      case Expired => Ok(PlanExpired)
      case PendingUpload =>
        if s.files[f].expiresAt <= s.now then Ok(PlanExpired)
        else if candidate in s.candidates then Err(FileFailure(FileUnavailable))
        else Ok(Attempt(candidate))
  }

  function PlanCompletion(s: State, actor: Id, t: Id, f: Id, candidate: Id): State {
    var answer := PlanOf(s, actor, t, f, candidate);
    s.(candidates := if answer == Ok(Attempt(candidate)) then s.candidates[candidate := Candidate(f, Copying)]
                     else s.candidates,
       files := if answer == Ok(PlanExpired) then WithState(s.files, f, Expired) else s.files)
  }

  function FinishRefusal(s: State, actor: Id, session: Id, t: Id, f: Id, answer: Publication): Option<Failure> {
    var access := AccessRefusal(s, actor, t);
    if access.Some? then access
    else if !Current(s, actor, session) then Some(Unauthorized)
    else if !Associated(s, t, f) then Some(NotFound)
    else if answer.PublicationRefused? then Some(answer.error)
    else if answer.Existing? && !s.uploads[f].published then Some(NotFound)
    else None
  }

  /** What publication commits, by the answer files::publish gave. */
  function Finished(s: State, actor: Id, t: Id, f: Id, c: Id, answer: Publication): State {
    if answer.NewlyAdopted? then
      Adopt(s, f, c).(uploads := s.uploads[f := UploadRow(t, true)],
                      audit := s.audit + [Event(actor, AttachmentPublished, f)])
    else if answer.Existing? then s.(candidates := WithAbandoned(s.candidates, c))
    else s.(files := WithState(s.files, f, Expired), candidates := WithAbandoned(s.candidates, c))
  }

  /** The publication transaction of complete_upload; Ok(true) means the file is published. */
  function PublishUpload(s: State, actor: Id, session: Id, t: Id, f: Id, c: Id): (State, Outcome<bool>) {
    var answer := PublicationOf(s, f, c);
    var refusal := FinishRefusal(s, actor, session, t, f, answer);
    if refusal.Some? then (s, Err(refusal.value))
    else (Finished(s, actor, t, f, c, answer), Ok(!answer.PublicationExpired?))
  }

  function DetachRefusal(s: State, actor: Id, t: Id, f: Id): Option<Failure> {
    var access := AccessRefusal(s, actor, t);
    if access.Some? then access
    else if !Associated(s, t, f) then Some(NotFound)
    else if f !in s.files then Some(FileFailure(FileNotFound))
    else None
  }

  function RemoveAttachment(s: State, actor: Id, t: Id, f: Id): (State, Outcome<()>) {
    var refusal := DetachRefusal(s, actor, t, f);
    if refusal.Some? then (s, Err(refusal.value))
    else
      (MarkAll(s, {f}).(uploads := s.uploads - {f},
                        audit := s.audit + [Event(actor, AttachmentDeleted, f)]), Ok(()))
  }

  // ----- exports: exports.rs -----------------------------------------------------------

  /** document_bytes: None when the snapshot exceeds a limit. */
  type Renderer = Snapshot -> Option<string>

  /** What the request transaction freezes: the ticket and its published attachments. */
  function SnapshotOf(s: State, t: Id): Snapshot
    requires t in s.tickets
  {
    Snapshot(s.tickets[t].ticket, Snapshots(s.files, Sorted(PublishedOf(s.uploads, t))))
  }

  function RequestRefusal(render: Renderer, s: State, actor: Id, session: Id, t: Id, e: Id, job: Id, claim: Claim)
    : Option<Failure>
  {
    var access := AccessRefusal(s, actor, t);
    if access.Some? then access
    else if !Current(s, actor, session) then Some(Unauthorized)
    else if claim.KeyRefused? then Some(claim.error)
    else if claim.saved.Some? then
      if !claim.saved.value.SavedExport? then Some(Unavailable)
      else
        var x := claim.saved.value.id;
        if x in s.exports && s.exports[x].ticket == t && s.exports[x].requestedBy == actor then None
        else Some(NotFound)
    else if |LiveExportsOf(s.exports, t)| >= MAX_LIVE_EXPORTS then Some(ExportLimit)
    else if |PublishedOf(s.uploads, t)| > MAX_EXPORT_ATTACHMENTS then Some(ExportTooLarge)
    else if !AllReady(s.files, Sorted(PublishedOf(s.uploads, t))) then Some(FileFailure(FileNotFound))
    else if render(SnapshotOf(s, t)).None? then Some(ExportTooLarge)
    else if job in s.jobs || e in s.exports then Some(Unavailable)
    else None
  }

  function CreateExport(render: Renderer, s: State, actor: Id, session: Id, t: Id, spelling: string, key: string,
                        e: Id, job: Id, purge: set<RecordKey>): (State, Outcome<Id>)
  {
    var k := RecordKey(actor, ExportScope(t, spelling), key);
    var claim := ClaimKey(s, k, OfNothing, purge);
    var refusal := RequestRefusal(render, s, actor, session, t, e, job, claim);
    if refusal.Some? then (s, Err(refusal.value))
    else if claim.saved.Some? then (s.(records := claim.records), Ok(claim.saved.value.id))
    else
      var row := ExportRow(t, actor, session, job, Some(SnapshotOf(s, t)), None, s.now + EXPORT_RETENTION);
      (s.(jobs := s.jobs[job := Job(e, Queued, 0, 0, 0, 3)],
          exports := s.exports[e := row],
          records := Completed(claim.records, k, SavedExport(e)),
          audit := s.audit + [Event(actor, ExportRequested, e)]), Ok(e))
  }

  /** access_error: how a refused authorization ends a job. */
  function AccessError(error: Failure): JobError {
    match error
    case Unavailable => Transient(DatabaseUnavailable)
    case ExportTooLarge => Permanent(OverLimit)
    case _ => Permanent(AccessRevoked)
  }

  /** file_error: how a refused file operation ends a job. */
  function FileJobError(error: Failure): JobError {
    match error
    case FileFailure(FileNotFound) => Permanent(InputMissing)
    case FileFailure(UploadExpired) => Permanent(ExportExpired)
    case FileFailure(InvalidInput) => Permanent(InputInvalid)
    case FileFailure(UploadRejected) => Permanent(InputInvalid)
    case FileFailure(TooLarge) => Permanent(InputInvalid)
    case _ => Transient(StorageUnavailable)
  }

  function IdsOf(attachments: seq<FileSnapshot>): seq<Id> {
    seq(|attachments|, i requires 0 <= i < |attachments| => attachments[i].id)
  }

  /** The rows the association count ranges over: file_id = ANY(ids), so each row once. */
  function AssociatedAmong(uploads: map<Id, UploadRow>, t: Id, ids: seq<Id>): set<Id> {
    set f | f in uploads && uploads[f].ticket == t && uploads[f].published && f in ids
  }

  predicate SameObject(current: FileSnapshot, saved: FileSnapshot) {
    current.id == saved.id && current.objectKey == saved.objectKey
    && current.size == saved.size && current.sha256 == saved.sha256
  }

  predicate SameObjects(current: seq<FileSnapshot>, saved: seq<FileSnapshot>) {
    |current| == |saved| && forall i :: 0 <= i < |saved| ==> SameObject(current[i], saved[i])
  }

  /** authorize_work: None when the work may go on. */
  function WorkRefusal(s: State, row: ExportRow, snapshot: Snapshot): Option<JobError> {
    var access := AccessRefusal(s, row.requestedBy, row.ticket);
    var ids := IdsOf(snapshot.attachments);
    if row.expiresAt <= s.now then Some(Permanent(ExportExpired))
    else if snapshot.ticket.id != row.ticket then Some(Permanent(InvalidSnapshot))
    else if access.Some? then Some(AccessError(access.value))
    else if !Current(s, row.requestedBy, row.credential) then Some(Permanent(CredentialRevoked))
    else if |AssociatedAmong(s.uploads, row.ticket, ids)| != |ids| then Some(Permanent(InputChanged))
    else if !AllReady(s.files, ids) then Some(Permanent(InputMissing))
    else if !SameObjects(Snapshots(s.files, ids), snapshot.attachments) then Some(Permanent(InputChanged))
    else None
  }

  /** lease.lock_current: the fence a stale worker cannot pass. */
  predicate HoldsLease(s: State, lease: Lease) {
    lease.job in s.jobs && s.jobs[lease.job].status.Running?
    && s.jobs[lease.job].token == lease.token && s.now < s.jobs[lease.job].leaseUntil
  }

  datatype Work = Work(row: ExportRow, snapshot: Snapshot)

  /** The load transaction of the export worker refuses; otherwise it reads the row. */
  function LoadRefusal(render: Renderer, s: State, lease: Lease): Option<JobError> {
    var e := lease.exportId;
    if e !in s.exports || s.exports[e].job != lease.job then Some(Permanent(SourceMissing))
    else if s.exports[e].snapshot.None? then Some(Permanent(ExportExpired))
    else if render(s.exports[e].snapshot.value).None? then Some(Permanent(OverLimit))
    else
      var refusal := WorkRefusal(s, s.exports[e], s.exports[e].snapshot.value);
      if refusal.Some? then refusal
      else if !HoldsLease(s, lease) then Some(LostLease)
      else None
  }

  function PrepareRefusal(s: State, lease: Lease, work: Work, text: string, f: Id, c: Id): Option<JobError> {
    var refusal := WorkRefusal(s, work.row, work.snapshot);
    if refusal.Some? then refusal
    else if !HoldsLease(s, lease) then Some(LostLease)
    else if ByteLength(text) > MAX_EXPORT_BYTES then Some(Permanent(InputInvalid))
    else if f in s.files || c in s.candidates then Some(Transient(StorageUnavailable))
    else None
  }

  /** The prepare transaction: a new generated file and its candidate. */
  function PrepareWork(s: State, lease: Lease, work: Work, name: string, text: string, f: Id, c: Id): State {
    if PrepareRefusal(s, lease, work, text, f, c).Some? then s
    else
      var row := File(name, "application/json", ByteLength(text), Sha256(text), PendingUpload, None,
                      s.now + EXPORT_RETENTION);
      s.(files := s.files[f := row], candidates := s.candidates[c := Candidate(f, Copying)])
  }

  /** The export of the lease's job still waits for its file. */
  predicate Awaits(s: State, lease: Lease) {
    var e := lease.exportId;
    e in s.exports && s.exports[e].job == lease.job && s.exports[e].file.None? && s.exports[e].snapshot.Some?
    && s.now < s.exports[e].expiresAt
  }

  function PublishRefusal(s: State, lease: Lease, work: Work, f: Id, c: Id): Option<JobError> {
    var refusal := WorkRefusal(s, work.row, work.snapshot);
    var answer := PublicationOf(s, f, c);
    if refusal.Some? then refusal
    else if !HoldsLease(s, lease) then Some(LostLease)
    else if !Awaits(s, lease) then Some(Permanent(ExportExpired))
    else if answer.PublicationRefused? then Some(FileJobError(answer.error))
    else if !answer.NewlyAdopted? then Some(Permanent(PublicationConflict))
    else None
  }

  /** The publication transaction: re-check, fence, adopt, attach, record, succeed. */
  function PublishWork(s: State, lease: Lease, work: Work, f: Id, c: Id): State {
    var e := lease.exportId;
    if PublishRefusal(s, lease, work, f, c).Some? then s
    else
      Adopt(s, f, c).(exports := s.exports[e := s.exports[e].(file := Some(f))],
                      audit := s.audit + [Event(work.row.requestedBy, ExportCompleted, e)],
                      jobs := s.jobs[lease.job := s.jobs[lease.job].(status := Succeeded)])
  }

  /** One row of the expiry sweep is still due when its transaction looks again. */
  predicate Due(s: State, e: Id) {
    e in s.exports && s.exports[e].expiresAt <= s.now && s.exports[e].Live()
  }

  function FileOf(row: ExportRow): set<Id> {
    if row.file.Some? then {row.file.value} else {}
  }

  function ExpireExport(s: State, e: Id): State {
    if Due(s, e) && FileOf(s.exports[e]) <= s.files.Keys
    then MarkAll(s, FileOf(s.exports[e])).(exports := s.exports[e := Cleared(s.exports[e])])
    else s
  }
}
