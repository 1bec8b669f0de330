/** How large an exported document can get, and what its stored bytes say: domain.rs and exports.rs. */
module ExportSize {
  import opened Basics
  import opened TicketDomain
  import opened TicketModel
  import opened TicketTransactions
  import opened JsonText
  import opened ExportDocument
  import UriComponent

  /** How ids, times and digests are printed. */
  datatype Printing = Printing(idText: Id -> string, timeText: int -> string, digestText: Digest -> string)

  /** A UUID takes 36 characters, a time at most 40, a SHA-256 in hexadecimal 64, and none needs escaping. */
  ghost predicate PrintsPlainly(p: Printing) {
    && (forall id :: Plain(p.idText(id)) && |p.idText(id)| <= 36)
    && (forall time :: Plain(p.timeText(time)) && |p.timeText(time)| <= 40)
    && (forall digest :: Plain(p.digestText(digest)) && |p.digestText(digest)| <= 64)
  }

  function StatusText(status: Status): string {
    if status.Open? then "open" else "closed"
  }

  function AttachmentTextOf(p: Printing, file: FileSnapshot): AttachmentText {
    AttachmentText(p.idText(file.id), file.fileName, file.contentType, file.size, p.digestText(file.sha256))
  }

  /** The parts of a snapshot that the document shows. */
  function DocumentOf(p: Printing, snapshot: Snapshot): Document {
    var t := snapshot.ticket;
    Document(TicketText(p.idText(t.id), p.idText(t.createdBy), t.title, t.description, StatusText(t.status), t.version,
                        p.timeText(t.createdAt), p.timeText(t.updatedAt)),
             seq(|snapshot.attachments|, i requires 0 <= i < |snapshot.attachments| =>
                   AttachmentTextOf(p, snapshot.attachments[i])))
  }

  /** document_bytes. */
  function DocumentBytes(p: Printing, snapshot: Snapshot): Option<string> {
    if |snapshot.attachments| > MAX_EXPORT_ATTACHMENTS || |snapshot.ticket.title| > 200
       || ByteLength(snapshot.ticket.description) > 8192
    then None
    else
      var text := DocumentText(DocumentOf(p, snapshot));
      if ByteLength(text) > MAX_EXPORT_BYTES then None else Some(text)
  }

  function Rendering(p: Printing): Renderer {
    snapshot => DocumentBytes(p, snapshot)
  }

  /** The document says what the snapshot said: no other ticket or metadata prints the same bytes. */
  lemma BytesSayTheSnapshot(p: Printing, snapshot: Snapshot)
    requires DocumentBytes(p, snapshot).Some?
    ensures ReadDocument(DocumentBytes(p, snapshot).value) == Some(DocumentOf(p, snapshot))
  {
    DocumentReadsBack(DocumentOf(p, snapshot));
  }

  /** The bytes of a text in UTF-8. */
  ghost function Utf8Of(s: string): seq<nat> {
    if s == [] then [] else UriComponent.Utf8(s[0]) + Utf8Of(s[1..])
  }

  /** Text is measured in the bytes it is stored in. */
  lemma {:induction false} ByteLengthIsOfUtf8(s: string)
    ensures ByteLength(s) == |Utf8Of(s)|
  {
    if s != [] {
      ByteLengthIsOfUtf8(s[1..]);
    }
  }

  // ----- the bound ---------------------------------------------------------------------------------

  ghost function CostFrom(pieces: seq<Piece>, i: nat): nat
    requires i <= |pieces|
    decreases |pieces| - i
  {
    if i == |pieces| then 0 else Cost(pieces[i]) + CostFrom(pieces, i + 1)
  }

  lemma {:induction false} CostFromIsTotal(pieces: seq<Piece>, i: nat)
    requires i <= |pieces|
    ensures CostFrom(pieces, i) == TotalCost(pieces[i..])
    decreases |pieces| - i
  {
    if i < |pieces| {
      CostFromIsTotal(pieces, i + 1);
      assert pieces[i..][1..] == pieces[i + 1..];
    } else {
      assert pieces[i..] == [];
    }
  }

  /** Two pieces at a time, from the front. */
  lemma NextTwo(pieces: seq<Piece>, i: nat)
    requires i + 2 <= |pieces|
    ensures CostFrom(pieces, i) == Cost(pieces[i]) + Cost(pieces[i + 1]) + CostFrom(pieces, i + 2)
  {
  }

  lemma TextCost(value: string)
    ensures Cost(Text(value)) <= 6 * |value| + 2
    ensures Cost(Text(value)) <= 6 * ByteLength(value) + 2
    ensures NoControls(value) ==> Cost(Text(value)) <= 4 * |value| + 2
    ensures Plain(value) ==> Cost(Text(value)) == |value| + 2
  {
    EscapedLength(value, "");
  }

  lemma NumberCost(n: int)
    requires 0 <= n <= MAX_SIZE
    ensures Cost(Number(n)) <= 19
  {
    assert Power10(19) == 10_000_000_000_000_000_000 by {
      assert Power10(4) == 10_000;
      assert Power10(8) == 100_000_000;
      assert Power10(12) == 1_000_000_000_000;
      assert Power10(16) == 10_000_000_000_000_000;
    }
    DigitsLength(n, 19);
  }

  lemma SeventeenPieces(p: seq<Piece>)
    requires |p| == 17
    ensures TotalCost(p)
         == Cost(p[0]) + Cost(p[1]) + Cost(p[2]) + Cost(p[3]) + Cost(p[4]) + Cost(p[5]) + Cost(p[6]) + Cost(p[7])
            + Cost(p[8]) + Cost(p[9]) + Cost(p[10]) + Cost(p[11]) + Cost(p[12]) + Cost(p[13]) + Cost(p[14])
            + Cost(p[15]) + Cost(p[16])
  {
    CostFromIsTotal(p, 0);
    assert p[0..] == p;
    NextTwo(p, 0);
    NextTwo(p, 2);
    NextTwo(p, 4);
    NextTwo(p, 6);
    NextTwo(p, 8);
    NextTwo(p, 10);
    NextTwo(p, 12);
    NextTwo(p, 14);
    assert CostFrom(p, 16) == Cost(p[16]) + CostFrom(p, 17);
  }

  lemma ElevenPieces(p: seq<Piece>)
    requires |p| == 11
    ensures TotalCost(p)
         == Cost(p[0]) + Cost(p[1]) + Cost(p[2]) + Cost(p[3]) + Cost(p[4]) + Cost(p[5]) + Cost(p[6]) + Cost(p[7])
            + Cost(p[8]) + Cost(p[9]) + Cost(p[10])
  {
    CostFromIsTotal(p, 0);
    assert p[0..] == p;
    NextTwo(p, 0);
    NextTwo(p, 2);
    NextTwo(p, 4);
    NextTwo(p, 6);
    NextTwo(p, 8);
    assert CostFrom(p, 10) == Cost(p[10]) + CostFrom(p, 11);
  }

  lemma TicketTotal(t: TicketText)
    ensures TotalCost(TicketPieces(t))
         == 712 + Cost(Text(t.id)) + Cost(Text(t.createdBy)) + Cost(Text(t.title)) + Cost(Text(t.description))
            + Cost(Text(t.status)) + Cost(Number(t.version)) + Cost(Text(t.createdAt)) + Cost(Text(t.updatedAt))
  {
    SeventeenPieces(TicketPieces(t));
  }

  lemma AttachmentTotal(a: AttachmentText)
    ensures TotalCost(AttachmentPieces(a))
         == 396 + Cost(Text(a.id)) + Cost(Text(a.fileName)) + Cost(Text(a.contentType)) + Cost(Number(a.size))
            + Cost(Text(a.sha256))
  {
    ElevenPieces(AttachmentPieces(a));
  }

  /** What a stored ticket satisfies. */
  predicate TicketBounded(t: Ticket) {
    Fits(t.title, t.description) && 0 <= t.version <= MAX_VERSION
  }

  /** What the metadata of a stored upload satisfies. */
  predicate MetadataBounded(file: FileSnapshot) {
    && |file.fileName| <= 255 && NoControls(file.fileName)
    && |file.contentType| <= 127 && Plain(file.contentType)
    && 0 <= file.size <= MAX_SIZE
  }

  lemma TicketTextCost(t: TicketText)
    requires Plain(t.id) && |t.id| <= 36 && Plain(t.createdBy) && |t.createdBy| <= 36
    requires |t.title| <= 200 && ByteLength(t.description) <= 8192 && |t.status| <= 6
    requires 0 <= t.version <= MAX_VERSION
    requires Plain(t.createdAt) && |t.createdAt| <= 40 && Plain(t.updatedAt) && |t.updatedAt| <= 40
    ensures TotalCost(TicketPieces(t)) <= 51_300
  {
    TicketTotal(t);
    TextCost(t.id);
    TextCost(t.createdBy);
    TextCost(t.title);
    TextCost(t.description);
    TextCost(t.status);
    NumberCost(t.version);
    TextCost(t.createdAt);
    TextCost(t.updatedAt);
  }

  lemma TicketCost(p: Printing, snapshot: Snapshot)
    requires PrintsPlainly(p) && TicketBounded(snapshot.ticket)
    ensures TotalCost(TicketPieces(DocumentOf(p, snapshot).ticket)) <= 51_300
  {
    TicketTextCost(DocumentOf(p, snapshot).ticket);
  }

  lemma AttachmentCost(p: Printing, file: FileSnapshot)
    requires PrintsPlainly(p) && MetadataBounded(file)
    ensures TotalCost(AttachmentPieces(AttachmentTextOf(p, file))) <= PER_ATTACHMENT
  {
    var a := AttachmentTextOf(p, file);
    AttachmentTotal(a);
    TextCost(a.id);
    TextCost(a.fileName);
    TextCost(a.contentType);
    NumberCost(a.size);
    TextCost(a.sha256);
  }

  /** Generous bounds on one attachment and on what separates two of them. */
  const PER_ATTACHMENT := 1_670
  const PER_ITEM := 1_694

  ghost predicate AllWithin(attachments: seq<AttachmentText>) {
    forall i :: 0 <= i < |attachments| ==> TotalCost(AttachmentPieces(attachments[i])) <= PER_ATTACHMENT
  }

  lemma MarkThen(mark: string, rest: string)
    ensures ByteLength(mark + rest) <= 4 * |mark| + ByteLength(rest)
  {
    ByteLengthAppend(mark, rest);
    AtMostFourBytes(mark);
  }

  lemma {:induction false} MoreLength(attachments: seq<AttachmentText>, rest: string)
    requires AllWithin(attachments)
    ensures ByteLength(MoreThen(attachments, rest)) <= PER_ITEM * |attachments| + 16 + ByteLength(rest)
  {
    if attachments == [] {
      MarkThen(LAST, rest);
    } else {
      var more := MoreThen(attachments[1..], rest);
      MoreLength(attachments[1..], rest);
      PrintedLength(AttachmentPieces(attachments[0]), more);
      MarkThen(NEXT, PrintThen(AttachmentPieces(attachments[0]), more));
    }
  }

  lemma AttachmentsLength(attachments: seq<AttachmentText>, rest: string)
    requires AllWithin(attachments)
    ensures ByteLength(AttachmentsThen(attachments, rest)) <= PER_ITEM * |attachments| + 16 + ByteLength(rest)
  {
    if attachments == [] {
      MarkThen(NONE, rest);
    } else {
      var more := MoreThen(attachments[1..], rest);
      MoreLength(attachments[1..], rest);
      PrintedLength(AttachmentPieces(attachments[0]), more);
      MarkThen(FIRST, PrintThen(AttachmentPieces(attachments[0]), more));
    }
  }

  lemma DocumentLength(p: Printing, snapshot: Snapshot)
    requires PrintsPlainly(p) && TicketBounded(snapshot.ticket)
    requires forall i :: 0 <= i < |snapshot.attachments| ==> MetadataBounded(snapshot.attachments[i])
    ensures ByteLength(DocumentText(DocumentOf(p, snapshot))) <= 51_324 + PER_ITEM * |snapshot.attachments|
  {
    var document := DocumentOf(p, snapshot);
    forall i | 0 <= i < |document.attachments|
      ensures TotalCost(AttachmentPieces(document.attachments[i])) <= PER_ATTACHMENT
    {
      AttachmentCost(p, snapshot.attachments[i]);
    }
    TicketCost(p, snapshot);
    AttachmentsLength(document.attachments, END);
    AtMostFourBytes(END);
    PrintedLength(TicketPieces(document.ticket), AttachmentsThen(document.attachments, END));
  }

  /**
   * Every title and description the module accepts, escaped as badly as they can
   * be, leaves room: without attachments the export is never too large.
   */
  lemma AcceptedContentFits(p: Printing, title: string, description: string, snapshot: Snapshot)
    requires PrintsPlainly(p) && New(title, description).Some? && snapshot.attachments == []
    requires snapshot.ticket.title == New(title, description).value.title
    requires snapshot.ticket.description == New(title, description).value.description
    requires 0 <= snapshot.ticket.version <= MAX_VERSION
    ensures DocumentBytes(p, snapshot).Some?
  {
    AcceptedIsStable(title, description);
    DocumentLength(p, snapshot);
  }

  /** With stored attachments the size limit refuses nothing: only their number can. */
  lemma RefusedOnlyForTheCount(p: Printing, snapshot: Snapshot)
    requires PrintsPlainly(p) && TicketBounded(snapshot.ticket)
    requires forall i :: 0 <= i < |snapshot.attachments| ==> MetadataBounded(snapshot.attachments[i])
    ensures DocumentBytes(p, snapshot).Some? <==> |snapshot.attachments| <= MAX_EXPORT_ATTACHMENTS
  {
    if |snapshot.attachments| <= MAX_EXPORT_ATTACHMENTS {
      DocumentLength(p, snapshot);
    }
  }
}
