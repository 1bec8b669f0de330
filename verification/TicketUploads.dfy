/** Uploading an attachment: what each step answers and does to the file's row, and that it gets through in time. */
module TicketUploads {
  import opened Basics
  import opened TicketDomain
  import opened TicketModel
  import opened TicketTransactions
  import opened TicketSystem
  import opened TicketLedger
  import opened TicketSafety
  import opened TicketGuarantees
  import opened TicketReplies

  // ----- planning --------------------------------------------------------------------------------

  ghost predicate IsAttached(s: State, t: Id, f: Id) {
    f in s.uploads && s.uploads[f].ticket == t && f in s.files
  }

  /** The planning transaction alone decides what becomes of the file's row. */
  ghost predicate PlansAs(render: Renderer, sys: System, step: Step, answer: Outcome<Plan>, files: map<Id, File>,
                          candidates: map<Id, Candidate>)
    requires step.PlanUpload?
  {
    var (after, reply) := Apply(render, sys, step);
    && reply == PlanReply(answer)
    && after.db == sys.db.(files := files, candidates := candidates)
  }

  /**
   * Planning the completion of an accessible upload: a pending upload gets an
   * attempt while its time lasts, and is expired when its time is over; an upload
   * that ended is told how it ended.
   */
  lemma PlanAnswers(render: Renderer, sys: System, step: Step)
    requires step.PlanUpload? && HasAccess(sys.db, step.actor, step.ticket)
    requires IsAttached(sys.db, step.ticket, step.file) && step.candidate !in sys.db.candidates
    ensures var (s, f, c) := (sys.db, step.file, step.candidate);
            var file := s.files[f];
            match file.state
            case PendingUpload =>
              if s.now < file.expiresAt
              then PlansAs(render, sys, step, Ok(Attempt(c)), s.files, s.candidates[c := Candidate(f, Copying)])
              else PlansAs(render, sys, step, Ok(PlanExpired), s.files[f := file.(state := Expired)], s.candidates)
            case Expired => PlansAs(render, sys, step, Ok(PlanExpired), s.files, s.candidates)
            case Rejected => PlansAs(render, sys, step, Ok(PlanRejected), s.files, s.candidates)
            case Ready =>
              PlansAs(render, sys, step, if s.uploads[f].published then Ok(AlreadyReady) else Err(NotFound),
                      s.files, s.candidates)
            case Deleting => PlansAs(render, sys, step, Err(FileFailure(FileNotFound)), s.files, s.candidates)
            case Deleted => PlansAs(render, sys, step, Err(FileFailure(FileNotFound)), s.files, s.candidates)
  {
    hide AccessRefusal, HasAccess;
    AccessIsNotRefused(sys.db, step.actor, step.ticket);
    assert sys.db.files[step.file := sys.db.files[step.file]] == sys.db.files;
  }

  /** Nobody else learns or changes anything. */
  lemma PlanRefuses(render: Renderer, sys: System, step: Step)
    requires step.PlanUpload?
    requires !HasAccess(sys.db, step.actor, step.ticket) || !IsAttached(sys.db, step.ticket, step.file)
    ensures var (after, reply) := Apply(render, sys, step);
            after == sys
            && reply == PlanReply(Err(if step.actor !in sys.db.members then Forbidden
                                      else if HasAccess(sys.db, step.actor, step.ticket) && step.file in sys.db.uploads
                                              && sys.db.uploads[step.file].ticket == step.ticket
                                      then FileFailure(FileNotFound)
                                      else NotFound))
  {
    hide HasAccess;
    AccessIsNotRefused(sys.db, step.actor, step.ticket);
  }

  // ----- starting --------------------------------------------------------------------------------

  /** Small letters, digits and the marks that names of media types may have. */
  predicate IsTypeName(s: string) {
    s != "" && forall c :: c in s ==> 'a' <= c <= 'z' || '0' <= c <= '9' || c in "!#$&-^_.+"
  }

  ghost predicate IsTypeOf(s: string, kind: string, subtype: string) {
    s == kind + "/" + subtype && IsTypeName(kind) && IsTypeName(subtype)
  }

  /** A media type of two lower-case tokens, and nothing after them. */
  ghost predicate IsBareType(s: string) {
    |s| <= 127 && exists kind, subtype :: IsTypeOf(s, kind, subtype)
  }

  /** A name a file system takes anywhere, a bare media type and a size. */
  ghost predicate IsAcceptable(input: UploadInput) {
    && !AllWhitespace(input.fileName) && |input.fileName| <= 255 && input.fileName != "." && input.fileName != ".."
    && (forall c :: c in input.fileName ==> c != '/' && c != '\\' && !(c < ' ') && !('\U{7F}' <= c <= '\U{9F}'))
    && IsBareType(input.contentType) && 0 <= input.size < 0x8000_0000_0000_0000
  }

  lemma TokensAreTypeNames(s: string)
    ensures s != "" ==> (IsToken(s) <==> IsTypeName(s))
  {
    assert forall i :: 0 <= i < |s| ==> s[i] in s;
    assert forall c :: c in "!#$&-^_.+" <==> c in {'!', '#', '$', '&', '-', '^', '_', '.', '+'};
  }

  lemma TypeSplits(s: string, kind: string, subtype: string)
    requires IsTypeOf(s, kind, subtype)
    ensures 0 < |kind| < |s| - 1 && s[|kind|] == '/' && IsToken(s[..|kind|]) && IsToken(s[|kind| + 1..])
  {
    TokensAreTypeNames(kind);
    TokensAreTypeNames(subtype);
    assert s[..|kind|] == kind && s[|kind| + 1..] == subtype;
  }

  lemma BareTypesAreMediaTypes(s: string)
    ensures IsBareType(s) <==> IsMediaType(s)
  {
    hide IsToken, IsTypeName;
    if IsMediaType(s) {
      var i :| 0 < i < |s| - 1 && s[i] == '/' && IsToken(s[..i]) && IsToken(s[i + 1..]);
      assert s == s[..i] + "/" + s[i + 1..];
      TokensAreTypeNames(s[..i]);
      TokensAreTypeNames(s[i + 1..]);
      assert IsTypeOf(s, s[..i], s[i + 1..]);
    }
    if IsBareType(s) {
      var kind, subtype :| IsTypeOf(s, kind, subtype);
      TypeSplits(s, kind, subtype);
    }
  }

  lemma AcceptableIsValid(input: UploadInput)
    ensures IsAcceptable(input) <==> ValidInput(input)
  {
    BareTypesAreMediaTypes(input.contentType);
    var before, after := TrimIsCore(input.fileName);
    BlankHasEmptyCore(input.fileName, before, Trim(input.fileName), after);
    assert forall i :: 0 <= i < |input.fileName| ==> input.fileName[i] in input.fileName;
  }

  /** The answer to a first request to upload, in the order the checks are made. */
  ghost function StartAnswer(s: State, step: Step): Outcome<Id>
    requires step.StartUpload?
  {
    if step.actor !in s.members then Err(Forbidden)
    else if !HasAccess(s, step.actor, step.ticket) then Err(NotFound)
    else if !IsVisibleKey(step.key) then Err(InvalidKey)
    else if |set f | f in s.uploads && s.uploads[f].ticket == step.ticket| >= 50 then Err(AttachmentLimit)
    else if !IsAcceptable(step.input) then Err(FileFailure(InvalidInput))
    else if step.id in s.files || step.id in s.uploads then Err(FileFailure(FileUnavailable))
    else Ok(step.id)
  }

  lemma RegisterAnswers(s: State, step: Step)
    requires step.StartUpload? && RecordsOk(s)
    requires !LiveRecord(s, RecordKey(step.actor, UploadScope(step.ticket), step.key))
    ensures var (after, answer) := RegisterUpload(s, step.actor, step.ticket, step.input, step.key, step.id,
                                                  step.lifetime, step.purge);
            answer == StartAnswer(s, step)
            && (answer.Err? ==> after == s)
            && (answer.Ok? ==>
                  && after == s.(files := after.files, uploads := after.uploads, records := after.records)
                  && after.uploads == s.uploads[step.id := UploadRow(step.ticket, false)]
                  && after.files == s.files[step.id :=
                       File(step.input.fileName, step.input.contentType, step.input.size, step.input.sha256,
                            PendingUpload, None, s.now + step.lifetime)])
  {
    hide IsAcceptable, ValidInput;
    AcceptableIsValid(step.input);
    assert UploadsOf(s.uploads, step.ticket) == set f | f in s.uploads && s.uploads[f].ticket == step.ticket;
  }

  /**
   * A first request to upload registers a pending file with what was declared, and
   * its association, for the time the file module allows; or it changes nothing.
   */
  lemma StartAnswers(render: Renderer, sys: System, step: Step)
    requires Reachable(render, sys) && step.StartUpload?
    requires !LiveRecord(sys.db, RecordKey(step.actor, UploadScope(step.ticket), step.key))
    ensures var (after, reply) := Apply(render, sys, step);
            reply == UploadReply(StartAnswer(sys.db, step))
            && (StartAnswer(sys.db, step).Err? ==> after == sys)
            && (StartAnswer(sys.db, step).Ok? ==>
                  && after == sys.(db := after.db) && after.db.candidates == sys.db.candidates
                  && after.db == sys.db.(files := after.db.files, uploads := after.db.uploads,
                                         records := after.db.records)
                  && after.db.uploads == sys.db.uploads[step.id := UploadRow(step.ticket, false)]
                  && after.db.files == sys.db.files[step.id :=
                       File(step.input.fileName, step.input.contentType, step.input.size, step.input.sha256,
                            PendingUpload, None, sys.db.now + step.lifetime)])
  {
    hide RegisterUpload, StartAnswer, Safe;
    ReachableIsSafe(render, sys);
    SafeRecords(render, sys);
    RegisterAnswers(sys.db, step);
  }

  // ----- verifying and giving up -------------------------------------------------------------------

  /** What was staged is stored once, and counts as verified exactly if it is what was declared. */
  lemma VerifyAnswers(render: Renderer, sys: System, p: Id, staged: string)
    requires p in sys.completions
    ensures var (f, c) := (sys.completions[p].target.file, sys.completions[p].target.candidate);
            var matches := f in sys.db.files && sys.db.files[f].size == ByteLength(staged)
                           && sys.db.files[f].sha256 == Sha256(staged);
            Apply(render, sys, VerifyUpload(p, staged)).0
            == if c in sys.objects then sys
               else sys.(objects := sys.objects[c := staged],
                         completions := sys.completions[p := Completion(Target(f, c), matches)])
  {
  }

  /** Giving up an attempt closes its candidate; a pending file is rejected only if its contents were wrong. */
  lemma AbandonAnswers(render: Renderer, sys: System, p: Id, rejected: bool)
    requires p in sys.completions
    ensures var (s, f, c) := (sys.db, sys.completions[p].target.file, sys.completions[p].target.candidate);
            var after := Apply(render, sys, AbandonUpload(p, rejected)).0;
            && after == sys.(db := s.(files := after.db.files, candidates := after.db.candidates))
            && after.db.candidates == (if c in s.candidates && s.candidates[c].state == Copying
                                       then s.candidates[c := Candidate(s.candidates[c].file, Abandoned)]
                                       else s.candidates)
            && after.db.files == if rejected && f in s.files && s.files[f].state == PendingUpload
                                 then s.files[f := s.files[f].(state := Rejected)] else s.files
  {
  }

  // ----- publishing --------------------------------------------------------------------------------

  /** One candidate is adopted, and every other open attempt at the file is closed. */
  function OnlyAdopted(candidates: map<Id, Candidate>, f: Id, c: Id): map<Id, Candidate> {
    map d | d in candidates ::
      if d == c then Candidate(f, Adopted)
      else Candidate(candidates[d].file,
                     if candidates[d].file == f && candidates[d].state == Copying then Abandoned
                     else candidates[d].state)
  }

  function GivenUp(candidates: map<Id, Candidate>, c: Id): map<Id, Candidate> {
    if c in candidates && candidates[c].state == Copying
    then candidates[c := Candidate(candidates[c].file, Abandoned)] else candidates
  }

  ghost predicate FinishesAs(render: Renderer, sys: System, step: Step, answer: Outcome<bool>, db: State)
    requires step.FinishUpload?
  {
    Apply(render, sys, step) == (sys.(db := db), FinishReply(answer))
  }

  lemma PublicationAnswers(s: State, actor: Id, session: Id, t: Id, f: Id, c: Id)
    requires HasAccess(s, actor, t) && session in s.sessions && s.sessions[session] == actor && IsAttached(s, t, f)
    requires c in s.candidates && s.candidates[c].file == f
    ensures var file := s.files[f];
            PublishUpload(s, actor, session, t, f, c)
            == match file.state
               case PendingUpload =>
                 if s.candidates[c].state != Copying then (s, Err(FileFailure(FileUnavailable)))
                 else if s.now < file.expiresAt then
                   (s.(files := s.files[f := file.(state := Ready, readyCandidate := Some(c))],
                       candidates := OnlyAdopted(s.candidates, f, c), uploads := s.uploads[f := UploadRow(t, true)],
                       audit := s.audit + [Event(actor, AttachmentPublished, f)]), Ok(true))
                 else
                   (s.(files := s.files[f := file.(state := Expired)], candidates := GivenUp(s.candidates, c)),
                    Ok(false))
               case Ready =>
                 if s.uploads[f].published then (s.(candidates := GivenUp(s.candidates, c)), Ok(true))
                 else (s, Err(NotFound))
               case Rejected => (s, Err(FileFailure(UploadRejected)))
               case Expired => (s, Err(FileFailure(UploadExpired)))
               case Deleting => (s, Err(FileFailure(FileNotFound)))
               case Deleted => (s, Err(FileFailure(FileNotFound)))
  {
    hide AccessRefusal, HasAccess;
    AccessIsNotRefused(s, actor, t);
    assert WithAdopted(s.candidates, f, c) == OnlyAdopted(s.candidates, f, c);
  }

  /**
   * Publishing a verified upload: a pending file adopts the candidate while its
   * time lasts, with the association and the event, and every other attempt is
   * closed; later it expires; and a file that ended otherwise stays as it is.
   */
  lemma FinishAnswers(render: Renderer, sys: System, step: Step)
    requires step.FinishUpload? && step.p in sys.completions && sys.completions[step.p].verified
    requires HasAccess(sys.db, step.actor, step.ticket)
    requires step.session in sys.db.sessions && sys.db.sessions[step.session] == step.actor
    requires var (f, c) := (sys.completions[step.p].target.file, sys.completions[step.p].target.candidate);
             IsAttached(sys.db, step.ticket, f) && c in sys.db.candidates && sys.db.candidates[c].file == f
    ensures var (s, f, c) := (sys.db, sys.completions[step.p].target.file, sys.completions[step.p].target.candidate);
            var file := s.files[f];
            match file.state
            case PendingUpload =>
              if s.candidates[c].state != Copying
              then FinishesAs(render, sys, step, Err(FileFailure(FileUnavailable)), s)
              else if s.now < file.expiresAt then
                FinishesAs(render, sys, step, Ok(true),
                           s.(files := s.files[f := file.(state := Ready, readyCandidate := Some(c))],
                              candidates := OnlyAdopted(s.candidates, f, c),
                              uploads := s.uploads[f := UploadRow(step.ticket, true)],
                              audit := s.audit + [Event(step.actor, AttachmentPublished, f)]))
              else
                FinishesAs(render, sys, step, Ok(false),
                           s.(files := s.files[f := file.(state := Expired)], candidates := GivenUp(s.candidates, c)))
            case Ready =>
              if s.uploads[f].published
              then FinishesAs(render, sys, step, Ok(true), s.(candidates := GivenUp(s.candidates, c)))
              else FinishesAs(render, sys, step, Err(NotFound), s)
            case Rejected => FinishesAs(render, sys, step, Err(FileFailure(UploadRejected)), s)
            case Expired => FinishesAs(render, sys, step, Err(FileFailure(UploadExpired)), s)
            case Deleting => FinishesAs(render, sys, step, Err(FileFailure(FileNotFound)), s)
            case Deleted => FinishesAs(render, sys, step, Err(FileFailure(FileNotFound)), s)
  {
    hide PublishUpload, HasAccess, OnlyAdopted, GivenUp;
    PublicationAnswers(sys.db, step.actor, step.session, step.ticket, sys.completions[step.p].target.file,
                       sys.completions[step.p].target.candidate);
  }

  /** Nobody else publishes, and nothing unverified is published. */
  lemma FinishRefuses(render: Renderer, sys: System, step: Step)
    requires step.FinishUpload?
    ensures var (after, reply) := Apply(render, sys, step);
            if step.p !in sys.completions || !sys.completions[step.p].verified then after == sys && reply == NoReply
            else
              var f := sys.completions[step.p].target.file;
              && (step.actor !in sys.db.members ==> after == sys && reply == FinishReply(Err(Forbidden)))
              && (step.actor in sys.db.members && !HasAccess(sys.db, step.actor, step.ticket) ==>
                    after == sys && reply == FinishReply(Err(NotFound)))
              && (HasAccess(sys.db, step.actor, step.ticket)
                  && (step.session !in sys.db.sessions || sys.db.sessions[step.session] != step.actor) ==>
                    after == sys && reply == FinishReply(Err(Unauthorized)))
              && (HasAccess(sys.db, step.actor, step.ticket)
                  && step.session in sys.db.sessions && sys.db.sessions[step.session] == step.actor
                  && (f !in sys.db.uploads || sys.db.uploads[f].ticket != step.ticket) ==>
                    after == sys && reply == FinishReply(Err(NotFound)))
  {
    hide HasAccess, PublicationOf, Finished;
    AccessIsNotRefused(sys.db, step.actor, step.ticket);
  }

  // ----- maintenance -------------------------------------------------------------------------------

  /** A pending file expires once its time is over, a marked one ends deleted, and any other stays. */
  lemma SweepAnswers(render: Renderer, sys: System, f: Id)
    ensures var s := sys.db;
            Apply(render, sys, SweepFile(f)).0
            == if f in s.files && s.files[f].state == PendingUpload && s.files[f].expiresAt <= s.now
               then sys.(db := s.(files := s.files[f := s.files[f].(state := Expired)]))
               else if f in s.files && s.files[f].state == Deleting
               then sys.(db := s.(files := s.files[f := s.files[f].(state := Deleted)]))
               else sys
  {
  }

  /**
   * The bytes of an attempt may go once its file ended without being ready, or
   * the attempt was given up and another one or none was adopted.
   */
  lemma CollectAnswers(render: Renderer, sys: System, c: Id)
    ensures var s := sys.db;
            Apply(render, sys, CollectObject(c)).0
            == if && c in s.candidates && s.candidates[c].file in s.files
                  && var file := s.files[s.candidates[c].file];
                     file.state in {FileState.Expired, FileState.Rejected, Deleting, Deleted}
                     || (s.candidates[c].state == Abandoned && file.readyCandidate != Some(c))
               then sys.(objects := sys.objects - {c})
               else sys
  {
  }

  // ----- getting through ---------------------------------------------------------------------------

  lemma TickAnswers(render: Renderer, sys: System, to: int)
    requires sys.db.now <= to
    ensures Apply(render, sys, Tick(to)).0 == sys.(db := sys.db.(now := to))
  {
  }

  lemma TimeNeverGoesBack(render: Renderer, sys: System, to: int)
    requires to < sys.db.now
    ensures Apply(render, sys, Tick(to)).0 == sys
  {
  }

  /** Memberships and sessions are what they were last set to. */
  lemma MembersAreSet(render: Renderer, sys: System, user: Id, role: Option<Role>)
    ensures Apply(render, sys, SetMember(user, role)).0
         == sys.(db := sys.db.(members := match role
                                          case Some(r) => sys.db.members[user := r]
                                          case None => sys.db.members - {user}))
  {
  }

  lemma SessionsAreSet(render: Renderer, sys: System, session: Id, holder: Option<Id>)
    ensures Apply(render, sys, SetSession(session, holder)).0
         == sys.(db := sys.db.(sessions := match holder
                                           case Some(user) => sys.db.sessions[session := user]
                                           case None => sys.db.sessions - {session}))
  {
  }

  /** The upload is registered for this ticket, still has time, and nothing was stored for candidate c. */
  ghost predicate Underway(sys: System, actor: Id, session: Id, t: Id, f: Id, c: Id, until: int, text: string) {
    && HasAccess(sys.db, actor, t) && session in sys.db.sessions && sys.db.sessions[session] == actor
    && f in sys.db.uploads && sys.db.uploads[f].ticket == t
    && f in sys.db.files && sys.db.files[f].state == PendingUpload && sys.db.files[f].expiresAt == until
    && sys.db.files[f].size == ByteLength(text) && sys.db.files[f].sha256 == Sha256(text) && c !in sys.objects
  }

  /** A planned, verified and published upload, with time passing in between, is Ready and attached. */
  lemma UnderwayCompletes(render: Renderer, sys: System, p: Id, actor: Id, session: Id, t: Id, f: Id, c: Id,
                          text: string, t1: int, t2: int, t3: int)
    requires f in sys.db.files && c !in sys.db.candidates
    requires Underway(sys, actor, session, t, f, c, sys.db.files[f].expiresAt, text)
    requires sys.db.now <= t1 <= t2 <= t3 < sys.db.files[f].expiresAt
    ensures var planned := Apply(render, Apply(render, sys, Tick(t1)).0, PlanUpload(p, actor, t, f, c));
            var verified := Apply(render, Apply(render, planned.0, Tick(t2)).0, VerifyUpload(p, text)).0;
            var (after, reply) := Apply(render, Apply(render, verified, Tick(t3)).0,
                                        FinishUpload(p, actor, session, t));
            && planned.1 == PlanReply(Ok(Attempt(c))) && reply == FinishReply(Ok(true))
            && f in after.db.files && after.db.files[f].state == Ready && after.db.files[f].readyCandidate == Some(c)
            && after.db.uploads == sys.db.uploads[f := UploadRow(t, true)]
            && c in after.objects && after.objects[c] == text
  {
    hide Apply;
    var at1 := Apply(render, sys, Tick(t1)).0;
    TickAnswers(render, sys, t1);
    var plan := PlanUpload(p, actor, t, f, c);
    PlanAnswers(render, at1, plan);
    PlanRemembers(render, at1, plan);
    var planned := Apply(render, at1, plan).0;
    TickAnswers(render, planned, t2);
    var at2 := Apply(render, planned, Tick(t2)).0;
    VerifyAnswers(render, at2, p, text);
    var verified := Apply(render, at2, VerifyUpload(p, text)).0;
    TickAnswers(render, verified, t3);
    FinishAnswers(render, Apply(render, verified, Tick(t3)).0, FinishUpload(p, actor, session, t));
  }

  /** A granted attempt is what its process completes, unverified at first; nothing else is remembered. */
  lemma PlanRemembers(render: Renderer, sys: System, step: Step)
    requires step.PlanUpload?
    ensures var (after, reply) := Apply(render, sys, step);
            after == sys.(db := after.db,
                          completions := if reply == PlanReply(Ok(Attempt(step.candidate)))
                                         then sys.completions[step.p :=
                                                Completion(Target(step.file, step.candidate), false)]
                                         else sys.completions)
  {
    hide PlanOf, PlanCompletion;
  }

  /**
   * An upload gets through: registered, planned, filled with what was declared and
   * published by the same user, all within its time, it ends published.
   */
  lemma UploadCompletes(render: Renderer, sys: System, start: Step, p: Id, session: Id, c: Id, text: string,
                        t1: int, t2: int, t3: int)
    requires Reachable(render, sys) && start.StartUpload? && StartAnswer(sys.db, start) == Ok(start.id)
    requires !LiveRecord(sys.db, RecordKey(start.actor, UploadScope(start.ticket), start.key))
    requires session in sys.db.sessions && sys.db.sessions[session] == start.actor
    requires c !in sys.db.candidates && c !in sys.objects
    requires start.input.size == ByteLength(text) && start.input.sha256 == Sha256(text)
    requires sys.db.now <= t1 <= t2 <= t3 < sys.db.now + start.lifetime
    ensures var started := Apply(render, sys, start).0;
            var planned := Apply(render, Apply(render, started, Tick(t1)).0,
                                 PlanUpload(p, start.actor, start.ticket, start.id, c)).0;
            var verified := Apply(render, Apply(render, planned, Tick(t2)).0, VerifyUpload(p, text)).0;
            var (after, reply) := Apply(render, Apply(render, verified, Tick(t3)).0,
                                        FinishUpload(p, start.actor, session, start.ticket));
            && reply == FinishReply(Ok(true))
            && after.db.uploads == sys.db.uploads[start.id := UploadRow(start.ticket, true)]
            && start.id in after.db.files && after.db.files[start.id].state == Ready
  {
    hide Apply;
    StartAnswers(render, sys, start);
    var started := Apply(render, sys, start).0;
    UnderwayCompletes(render, started, p, start.actor, session, start.ticket, start.id, c, text, t1, t2, t3);
  }
}
