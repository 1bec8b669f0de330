/** The exported document: exports.rs, document_bytes. */
module ExportDocument {
  import opened Basics
  import opened JsonText

  /** A ticket and its attachments' metadata in the order of the serialized fields. */
  datatype TicketText = TicketText(id: string, createdBy: string, title: string, description: string, status: string,
                                   version: int, createdAt: string, updatedAt: string)
  datatype AttachmentText = AttachmentText(id: string, fileName: string, contentType: string, size: int, sha256: string)
  datatype Document = Document(ticket: TicketText, attachments: seq<AttachmentText>)

  // ----- writing --------------------------------------------------------------------------------

  const TICKET_ID := "{\n  \"ticket\": {\n    \"id\": "
  const CREATED_BY := ",\n    \"created_by\": "
  const TITLE := ",\n    \"title\": "
  const DESCRIPTION := ",\n    \"description\": "
  const STATUS := ",\n    \"status\": "
  const VERSION := ",\n    \"version\": "
  const CREATED_AT := ",\n    \"created_at\": "
  const UPDATED_AT := ",\n    \"updated_at\": "
  const ATTACHMENTS := "\n  },\n  \"attachments\": "

  function TicketPieces(t: TicketText): seq<Piece> {
    [Mark(TICKET_ID), Text(t.id), Mark(CREATED_BY), Text(t.createdBy), Mark(TITLE), Text(t.title),
     Mark(DESCRIPTION), Text(t.description), Mark(STATUS), Text(t.status), Mark(VERSION), Number(t.version),
     Mark(CREATED_AT), Text(t.createdAt), Mark(UPDATED_AT), Text(t.updatedAt), Mark(ATTACHMENTS)]
  }

  const ATTACHMENT_ID := "{\n      \"id\": "
  const FILE_NAME := ",\n      \"file_name\": "
  const CONTENT_TYPE := ",\n      \"content_type\": "
  const SIZE := ",\n      \"size\": "
  const SHA256 := ",\n      \"sha256\": "
  const ATTACHMENT_END := "\n    }"

  function AttachmentPieces(a: AttachmentText): seq<Piece> {
    [Mark(ATTACHMENT_ID), Text(a.id), Mark(FILE_NAME), Text(a.fileName), Mark(CONTENT_TYPE), Text(a.contentType),
     Mark(SIZE), Number(a.size), Mark(SHA256), Text(a.sha256), Mark(ATTACHMENT_END)]
  }

  const NONE := "[]"
  const FIRST := "[\n    "
  const NEXT := ",\n    "
  const LAST := "\n  ]"
  const END := "\n}"

  function MoreThen(attachments: seq<AttachmentText>, rest: string): string {
    if attachments == [] then LAST + rest
    else NEXT + PrintThen(AttachmentPieces(attachments[0]), MoreThen(attachments[1..], rest))
  }

  function AttachmentsThen(attachments: seq<AttachmentText>, rest: string): string {
    if attachments == [] then NONE + rest
    else FIRST + PrintThen(AttachmentPieces(attachments[0]), MoreThen(attachments[1..], rest))
  }

  /** serde_json::to_vec_pretty. */
  function DocumentText(document: Document): string {
    PrintThen(TicketPieces(document.ticket), AttachmentsThen(document.attachments, END))
  }

  // ----- reading back ------------------------------------------------------------------------------

  function TicketOf(p: seq<Piece>): Option<TicketText> {
    if |p| == 17 && p[1].Text? && p[3].Text? && p[5].Text? && p[7].Text? && p[9].Text? && p[11].Number?
       && p[13].Text? && p[15].Text?
    then Some(TicketText(p[1].value, p[3].value, p[5].value, p[7].value, p[9].value, p[11].n, p[13].value, p[15].value))
    else None
  }

  function AttachmentOf(p: seq<Piece>): Option<AttachmentText> {
    if |p| == 11 && p[1].Text? && p[3].Text? && p[5].Text? && p[7].Number? && p[9].Text?
    then Some(AttachmentText(p[1].value, p[3].value, p[5].value, p[7].n, p[9].value))
    else None
  }

  const BLANK_TICKET := TicketText("", "", "", "", "", 0, "", "")
  const BLANK_ATTACHMENT := AttachmentText("", "", "", 0, "")

  function ReadAttachment(text: string): (r: Option<(AttachmentText, string)>)
    ensures r.Some? ==> |r.value.1| <= |text|
  {
    var read := ReadPieces(AttachmentPieces(BLANK_ATTACHMENT), text);
    if read.None? || AttachmentOf(read.value.0).None? then None
    else Some((AttachmentOf(read.value.0).value, read.value.1))
  }

  function ReadMoreAttachments(text: string): Option<(seq<AttachmentText>, string)>
    decreases |text|
  {
    if LAST <= text then Some(([], text[|LAST|..]))
    else if NEXT <= text then
      var first := ReadAttachment(text[|NEXT|..]);
      if first.None? then None
      else
        var more := ReadMoreAttachments(first.value.1);
        if more.None? then None else Some(([first.value.0] + more.value.0, more.value.1))
    else None
  }

  function ReadAttachments(text: string): Option<(seq<AttachmentText>, string)> {
    if NONE <= text then Some(([], text[|NONE|..]))
    else if FIRST <= text then
      var first := ReadAttachment(text[|FIRST|..]);
      if first.None? then None
      else
        var more := ReadMoreAttachments(first.value.1);
        if more.None? then None else Some(([first.value.0] + more.value.0, more.value.1))
    else None
  }

  function ReadDocument(text: string): Option<Document> {
    var ticket := ReadPieces(TicketPieces(BLANK_TICKET), text);
    if ticket.None? || TicketOf(ticket.value.0).None? then None
    else
      var attachments := ReadAttachments(ticket.value.1);
      if attachments.None? || attachments.value.1 != END then None
      else Some(Document(TicketOf(ticket.value.0).value, attachments.value.0))
  }

  lemma AttachmentReadsBack(a: AttachmentText, rest: string)
    ensures ReadAttachment(PrintThen(AttachmentPieces(a), rest)) == Some((a, rest))
  {
    hide ReadPieces, PrintThen;
    PiecesReadBack(AttachmentPieces(BLANK_ATTACHMENT), AttachmentPieces(a), rest);
  }

  lemma {:induction false} MoreReadBack(attachments: seq<AttachmentText>, rest: string)
    ensures ReadMoreAttachments(MoreThen(attachments, rest)) == Some((attachments, rest))
    decreases |attachments|
  {
    var text := MoreThen(attachments, rest);
    if attachments == [] {
      assert text[|LAST|..] == rest;
    } else {
      var more := MoreThen(attachments[1..], rest);
      assert text[0] == ',' && text[..|NEXT|] == NEXT;
      assert text[|NEXT|..] == PrintThen(AttachmentPieces(attachments[0]), more);
      AttachmentReadsBack(attachments[0], more);
      MoreReadBack(attachments[1..], rest);
      assert [attachments[0]] + attachments[1..] == attachments;
    }
  }

  lemma AttachmentsReadBack(attachments: seq<AttachmentText>, rest: string)
    ensures ReadAttachments(AttachmentsThen(attachments, rest)) == Some((attachments, rest))
  {
    var text := AttachmentsThen(attachments, rest);
    if attachments == [] {
      assert text[|NONE|..] == rest;
    } else {
      var more := MoreThen(attachments[1..], rest);
      assert text[1] == '\n' && text[..|FIRST|] == FIRST;
      assert text[|FIRST|..] == PrintThen(AttachmentPieces(attachments[0]), more);
      AttachmentReadsBack(attachments[0], more);
      MoreReadBack(attachments[1..], rest);
      assert [attachments[0]] + attachments[1..] == attachments;
    }
  }

  lemma TicketShape(t: TicketText)
    ensures SameShape(TicketPieces(BLANK_TICKET), TicketPieces(t))
    ensures TicketOf(TicketPieces(t)) == Some(t)
  {
  }

  lemma TicketDelimited(t: TicketText)
    ensures Delimited(TicketPieces(t))
  {
    var p := TicketPieces(t);
    assert p[12].text[0] == ',';
    assert forall i :: 0 <= i < |p| && p[i].Number? ==> i == 11;
  }

  /** Whatever the texts contain, a reader of the document gets back exactly the ticket and the metadata. */
  lemma DocumentReadsBack(document: Document)
    ensures ReadDocument(DocumentText(document)) == Some(document)
  {
    TicketShape(document.ticket);
    TicketDelimited(document.ticket);
    AttachmentsReadBack(document.attachments, END);
    PiecesReadBack(TicketPieces(BLANK_TICKET), TicketPieces(document.ticket),
                   AttachmentsThen(document.attachments, END));
  }
}
