/**
 * The rows the ticket module reads and writes, and the answers it gives.
 * Ids stand for UUIDs, times for whole clock ticks.
 */
module TicketModel {
  import opened Basics
  import opened TicketDomain

  type Id = nat

  /** An ideal SHA-256: distinct contents have distinct digests. */
  datatype Digest = Sha256(content: string)

  datatype Role = Owner | Admin | Member

  // support.tickets
  datatype Status = Open | Closed
  datatype Ticket = Ticket(id: Id, createdBy: Id, title: string, description: string,
                           status: Status, version: int, createdAt: int, updatedAt: int)
  datatype TicketRow = TicketRow(ticket: Ticket, deleted: bool)

  /** version is a 64-bit column: adding one to the largest value is a database error. */
  const MAX_VERSION := 0x7fff_ffff_ffff_ffff

  /** Sizes are 64-bit columns. */
  const MAX_SIZE := 0x7fff_ffff_ffff_ffff

  // support.uploads, keyed by file id
  datatype UploadRow = UploadRow(ticket: Id, published: bool)

  // saas_core.files and saas_core.file_candidates
  datatype FileState = PendingUpload | Ready | Rejected | Expired | Deleting | Deleted {
    /** Marked for deletion; the file never comes back from here. */
    predicate Gone() { Deleting? || Deleted? }
  }
  datatype File = File(fileName: string, contentType: string, size: int, sha256: Digest,
                       state: FileState, readyCandidate: Option<Id>, expiresAt: int)
  datatype CandidateState = Copying | Adopted | Abandoned
  datatype Candidate = Candidate(file: Id, state: CandidateState)
  datatype UploadInput = UploadInput(fileName: string, contentType: string, size: int, sha256: Digest)

  /** The object of a ready file lives under a key made of its file and candidate ids. */
  datatype FileSnapshot = FileSnapshot(id: Id, fileName: string, contentType: string, size: int,
                                       sha256: Digest, objectKey: Id)

  // support.exports
  datatype Snapshot = Snapshot(ticket: Ticket, attachments: seq<FileSnapshot>)
  datatype ExportRow = ExportRow(ticket: Id, requestedBy: Id, credential: Id, job: Id,
                                 snapshot: Option<Snapshot>, file: Option<Id>, expiresAt: int) {
    /** The row still holds data: pending or published, not cleared. */
    predicate Live() { snapshot.Some? || file.Some? }
  }

  // saas_core.jobs; the payload of an export job is the export's id
  datatype JobStatus = Queued | Running | RetryWait | Succeeded | Failed
  datatype Job = Job(exportId: Id, status: JobStatus, token: Id, leaseUntil: int,
                     attempts: nat, maxAttempts: nat)
  datatype Lease = Lease(job: Id, token: Id, exportId: Id)

  // saas_core.idempotency_records
  datatype Scope =
    | TicketScope
    | UploadScope(ticket: Id)
    | ExportScope(ticket: Id, spelling: string)   // keeps the raw path text
  datatype RecordKey = RecordKey(actor: Id, scope: Scope, key: string)
  datatype Fingerprint = OfTicket(content: Content) | OfUpload(input: UploadInput) | OfNothing
  datatype Saved = SavedTicket(id: Id) | SavedUpload(id: Id) | SavedExport(id: Id)
  datatype Record = Record(fingerprint: Fingerprint, response: Option<Saved>, expiresAt: int)

  // saas_core.audit_events
  datatype Action = TicketCreated | TicketUpdated | TicketDeleted | AttachmentPublished
                  | AttachmentDeleted | ExportRequested | ExportCompleted
  datatype Event = Event(actor: Id, action: Action, resource: Id)

  /**
   * Everything a transaction can read or write. cleanups holds the file id of
   * every cleanup job this module enqueued.
   */
  datatype State = State(
    now: int,
    members: map<Id, Role>,
    sessions: map<Id, Id>,
    tickets: map<Id, TicketRow>,
    uploads: map<Id, UploadRow>,
    exports: map<Id, ExportRow>,
    files: map<Id, File>,
    candidates: map<Id, Candidate>,
    jobs: map<Id, Job>,
    records: map<RecordKey, Record>,
    audit: seq<Event>,
    cleanups: multiset<Id>)

  datatype FileError = InvalidInput | TooLarge | FileNotFound | UploadExpired | UploadRejected | FileUnavailable

  datatype Failure =
    | FileFailure(error: FileError)
    | Unauthorized | AttachmentLimit | ExportLimit | ExportTooLarge | InvalidContent
    | InvalidKey | KeyConflict | VersionConflict | Forbidden | NotFound | Unavailable

  datatype Reason =
    | ExportExpired | InvalidSnapshot | AccessRevoked | CredentialRevoked | OverLimit
    | InputChanged | InputMissing | InputInvalid | SourceMissing | PublicationConflict
    | DatabaseUnavailable | StorageUnavailable
  datatype JobError = Permanent(reason: Reason) | Transient(reason: Reason) | LostLease

  datatype Outcome<+T> = Ok(value: T) | Err(error: Failure)

  datatype Plan = AlreadyReady | Attempt(candidate: Id) | PlanExpired | PlanRejected
  datatype Publication = NewlyAdopted | Existing | PublicationExpired | PublicationRefused(error: Failure)

  const MAX_ASSOCIATIONS := 50
  const MAX_LIVE_EXPORTS := 50
  const MAX_EXPORT_ATTACHMENTS := 8
  const MAX_EXPORT_BYTES := 64 * 1024
  const EXPORT_RETENTION := 3600
  const RECORD_RETENTION := 24 * 3600
}
