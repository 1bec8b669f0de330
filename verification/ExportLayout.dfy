/** The layout of the exported document: the names of its fields, their order, and how text is escaped. */
module ExportLayout {
  import opened JsonText
  import opened ExportDocument

  /** A field with text, on a line of its own after another one. */
  function Field(indent: string, name: string, value: string, rest: string): string {
    ",\n" + indent + "\"" + name + "\": \"" + EscapedThen(value, rest)
  }

  function NumberField(indent: string, name: string, n: int, rest: string): string {
    ",\n" + indent + "\"" + name + "\": " + (Decimal(n) + rest)
  }

  lemma MarkThenText(pieces: seq<Piece>, rest: string)
    requires |pieces| >= 2 && pieces[0].Mark? && pieces[1].Text?
    ensures PrintThen(pieces, rest)
         == pieces[0].text + "\"" + EscapedThen(pieces[1].value, PrintThen(pieces[2..], rest))
  {
    assert pieces[1..][1..] == pieces[2..];
    assert PrintThen(pieces[1..], rest) == "\"" + EscapedThen(pieces[1].value, PrintThen(pieces[2..], rest));
  }

  lemma MarkThenNumber(pieces: seq<Piece>, rest: string)
    requires |pieces| >= 2 && pieces[0].Mark? && pieces[1].Number?
    ensures PrintThen(pieces, rest) == pieces[0].text + (Decimal(pieces[1].n) + PrintThen(pieces[2..], rest))
  {
    assert pieces[1..][1..] == pieces[2..];
  }

  lemma MarkLast(pieces: seq<Piece>, rest: string)
    requires |pieces| == 1 && pieces[0].Mark?
    ensures PrintThen(pieces, rest) == pieces[0].text + rest
  {
  }

  /** The mark names the field and ends where its value begins. */
  predicate Names(mark: string, indent: string, name: string) {
    mark == ",\n" + indent + "\"" + name + "\": "
  }

  lemma TextField(p: seq<Piece>, i: nat, rest: string, indent: string, name: string)
    requires i + 2 <= |p| && p[i].Mark? && Names(p[i].text, indent, name) && p[i + 1].Text?
    ensures PrintThen(p[i..], rest) == Field(indent, name, p[i + 1].value, PrintThen(p[i + 2..], rest))
  {
    assert p[i..][2..] == p[i + 2..];
    MarkThenText(p[i..], rest);
  }

  lemma CountField(p: seq<Piece>, i: nat, rest: string, indent: string, name: string)
    requires i + 2 <= |p| && p[i].Mark? && Names(p[i].text, indent, name) && p[i + 1].Number?
    ensures PrintThen(p[i..], rest) == NumberField(indent, name, p[i + 1].n, PrintThen(p[i + 2..], rest))
  {
    assert p[i..][2..] == p[i + 2..];
    MarkThenNumber(p[i..], rest);
  }

  const TICKET_INDENT := "    "
  const ENTRY_INDENT := "      "

  lemma FirstTicketNames()
    ensures Names(CREATED_BY, TICKET_INDENT, "created_by") && Names(TITLE, TICKET_INDENT, "title")
    ensures Names(DESCRIPTION, TICKET_INDENT, "description")
  {
  }

  lemma LastTicketNames()
    ensures Names(STATUS, TICKET_INDENT, "status") && Names(VERSION, TICKET_INDENT, "version")
    ensures Names(CREATED_AT, TICKET_INDENT, "created_at") && Names(UPDATED_AT, TICKET_INDENT, "updated_at")
  {
  }

  lemma EntryNames()
    ensures Names(FILE_NAME, ENTRY_INDENT, "file_name") && Names(CONTENT_TYPE, ENTRY_INDENT, "content_type")
    ensures Names(SIZE, ENTRY_INDENT, "size") && Names(SHA256, ENTRY_INDENT, "sha256")
  {
  }

  /** The piece at i names this field, and the next one is its value. */
  ghost predicate Carries(p: seq<Piece>, i: nat, indent: string, name: string, value: string) {
    i + 2 <= |p| && p[i].Mark? && Names(p[i].text, indent, name) && p[i + 1] == Text(value)
  }

  lemma CarriedField(p: seq<Piece>, i: nat, rest: string, indent: string, name: string, value: string)
    requires Carries(p, i, indent, name, value)
    ensures PrintThen(p[i..], rest) == Field(indent, name, value, PrintThen(p[i + 2..], rest))
  {
    TextField(p, i, rest, indent, name);
  }

  lemma TicketCarries(t: TicketText)
    ensures var p := TicketPieces(t);
            && Carries(p, 2, TICKET_INDENT, "created_by", t.createdBy) && Carries(p, 4, TICKET_INDENT, "title", t.title)
            && Carries(p, 6, TICKET_INDENT, "description", t.description)
            && Carries(p, 8, TICKET_INDENT, "status", t.status)
            && Carries(p, 12, TICKET_INDENT, "created_at", t.createdAt)
            && Carries(p, 14, TICKET_INDENT, "updated_at", t.updatedAt)
    ensures var p := TicketPieces(t);
            |p| == 17 && p[10].Mark? && Names(p[10].text, TICKET_INDENT, "version") && p[11] == Number(t.version)
  {
    hide Names;
    FirstTicketNames();
    LastTicketNames();
  }

  lemma TicketFields(t: TicketText, rest: string)
    ensures |TicketPieces(t)| == 17
    ensures PrintThen(TicketPieces(t)[2..], rest)
         == Field(TICKET_INDENT, "created_by", t.createdBy,
            Field(TICKET_INDENT, "title", t.title,
            Field(TICKET_INDENT, "description", t.description,
            Field(TICKET_INDENT, "status", t.status,
            NumberField(TICKET_INDENT, "version", t.version,
            Field(TICKET_INDENT, "created_at", t.createdAt,
            Field(TICKET_INDENT, "updated_at", t.updatedAt, PrintThen(TicketPieces(t)[16..], rest))))))))
  {
    hide PrintThen, EscapedThen, Decimal, Field, NumberField, Names, Carries, TicketPieces;
    var p := TicketPieces(t);
    TicketCarries(t);
    CarriedField(p, 2, rest, TICKET_INDENT, "created_by", t.createdBy);
    CarriedField(p, 4, rest, TICKET_INDENT, "title", t.title);
    CarriedField(p, 6, rest, TICKET_INDENT, "description", t.description);
    CarriedField(p, 8, rest, TICKET_INDENT, "status", t.status);
    CountField(p, 10, rest, TICKET_INDENT, "version");
    CarriedField(p, 12, rest, TICKET_INDENT, "created_at", t.createdAt);
    CarriedField(p, 14, rest, TICKET_INDENT, "updated_at", t.updatedAt);
  }

  /** The ticket's fields as they stand in the document, and what follows. */
  lemma TicketLayout(t: TicketText, rest: string)
    ensures PrintThen(TicketPieces(t), rest)
         == "{\n  \"ticket\": {\n    \"id\": \"" + EscapedThen(t.id,
            Field(TICKET_INDENT, "created_by", t.createdBy,
            Field(TICKET_INDENT, "title", t.title,
            Field(TICKET_INDENT, "description", t.description,
            Field(TICKET_INDENT, "status", t.status,
            NumberField(TICKET_INDENT, "version", t.version,
            Field(TICKET_INDENT, "created_at", t.createdAt,
            Field(TICKET_INDENT, "updated_at", t.updatedAt,
                  "\n  },\n  \"attachments\": " + rest))))))))
  {
    hide PrintThen, EscapedThen, Decimal, Field, NumberField;
    var p := TicketPieces(t);
    MarkThenText(p, rest);
    assert TICKET_ID + "\"" == "{\n  \"ticket\": {\n    \"id\": \"";
    TicketFields(t, rest);
    MarkLast(p[16..], rest);
  }

  lemma AttachmentLayout(a: AttachmentText, rest: string)
    ensures PrintThen(AttachmentPieces(a), rest)
         == "{\n      \"id\": \"" + EscapedThen(a.id,
            Field(ENTRY_INDENT, "file_name", a.fileName,
            Field(ENTRY_INDENT, "content_type", a.contentType,
            NumberField(ENTRY_INDENT, "size", a.size,
            Field(ENTRY_INDENT, "sha256", a.sha256, "\n    }" + rest)))))
  {
    hide PrintThen, EscapedThen, Decimal, Field, NumberField, Names;
    var p := AttachmentPieces(a);
    MarkThenText(p, rest);
    EntryNames();
    assert ATTACHMENT_ID + "\"" == "{\n      \"id\": \"";
    TextField(p, 2, rest, ENTRY_INDENT, "file_name");
    TextField(p, 4, rest, ENTRY_INDENT, "content_type");
    CountField(p, 6, rest, ENTRY_INDENT, "size");
    TextField(p, 8, rest, ENTRY_INDENT, "sha256");
    MarkLast(p[10..], rest);
  }

  /** The attachments stand one after the other in one array, which ends the document. */
  lemma ListLayout(document: Document, attachments: seq<AttachmentText>, rest: string)
    ensures DocumentText(document)
         == PrintThen(TicketPieces(document.ticket), AttachmentsThen(document.attachments, "\n}"))
    ensures AttachmentsThen([], rest) == "[]" + rest && MoreThen([], rest) == "\n  ]" + rest
    ensures attachments != [] ==>
              && AttachmentsThen(attachments, rest)
                 == "[\n    " + PrintThen(AttachmentPieces(attachments[0]), MoreThen(attachments[1..], rest))
              && MoreThen(attachments, rest)
                 == ",\n    " + PrintThen(AttachmentPieces(attachments[0]), MoreThen(attachments[1..], rest))
  {
  }

  /** Quotation marks, backslashes and control characters are escaped, in the short form where JSON has one. */
  lemma EscapesAre(c: char)
    ensures EscapeChar('"') == "\\\"" && EscapeChar('\\') == "\\\\"
    ensures EscapeChar('\n') == "\\n" && EscapeChar('\r') == "\\r" && EscapeChar('\t') == "\\t"
    ensures EscapeChar('\U{8}') == "\\b" && EscapeChar('\U{C}') == "\\f"
    ensures EscapeChar('\0') == "\\u0000" && EscapeChar('\U{B}') == "\\u000b" && EscapeChar('\U{1F}') == "\\u001f"
    ensures ' ' <= c && c != '"' && c != '\\' ==> EscapeChar(c) == [c]
  {
  }
}
