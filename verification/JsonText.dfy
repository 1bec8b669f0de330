/** The JSON text of strings and numbers as serde_json writes it, and reading it back. */
module JsonText {
  import opened Basics
  import opened TicketDomain

  /** Text is a sequence of fixed marks, quoted strings and numbers. */
  datatype Piece = Mark(text: string) | Text(value: string) | Number(n: int)

  // ----- writing --------------------------------------------------------------------------------

  function HexDigit(n: nat): (c: char)
    requires n < 16
  {
    if n < 10 then '0' + n as char else 'a' + (n - 10) as char
  }

  /** Section 7 of RFC 8259, with the short escapes serde_json prefers. */
  function EscapeChar(c: char): string {
    if c == '"' then "\\\""
    else if c == '\\' then "\\\\"
    else if c == '\U{8}' then "\\b"
    else if c == '\t' then "\\t"
    else if c == '\n' then "\\n"
    else if c == '\U{C}' then "\\f"
    else if c == '\r' then "\\r"
    else if c < ' ' then "\\u00" + [HexDigit(c as int / 16), HexDigit(c as int % 16)]
    else [c]
  }

  /** The escaped string, the closing quote and what follows. */
  function EscapedThen(s: string, rest: string): string {
    if s == [] then "\"" + rest else EscapeChar(s[0]) + EscapedThen(s[1..], rest)
  }

  predicate IsDigit(c: char) { '0' <= c <= '9' }

  predicate AllDigits(s: string) {
    forall i :: 0 <= i < |s| ==> IsDigit(s[i])
  }

  function Digits(n: nat): (r: string)
    ensures r != [] && AllDigits(r)
  {
    if n < 10 then ['0' + n as char] else Digits(n / 10) + ['0' + (n % 10) as char]
  }

  function Decimal(n: int): string {
    if n < 0 then "-" + Digits(-n) else Digits(n)
  }

  function PrintThen(pieces: seq<Piece>, rest: string): string {
    if pieces == [] then rest
    else
      match pieces[0]
      case Mark(text) => text + PrintThen(pieces[1..], rest)
      case Text(value) => "\"" + EscapedThen(value, PrintThen(pieces[1..], rest))
      case Number(n) => Decimal(n) + PrintThen(pieces[1..], rest)
  }

  // ----- reading --------------------------------------------------------------------------------

  function HexValue(c: char): Option<nat> {
    if '0' <= c <= '9' then Some(c as int - '0' as int)
    else if 'a' <= c <= 'f' then Some(c as int - 'a' as int + 10)
    else None
  }

  /** One character of a quoted string and what follows it. */
  function ReadChar(text: string): (r: Option<(char, string)>)
    ensures r.Some? ==> |r.value.1| < |text|
  {
    if text == [] || text[0] < ' ' || text[0] == '"' then None
    else if text[0] != '\\' then Some((text[0], text[1..]))
    else if |text| < 2 then None
    else
      match text[1]
      case '"' => Some(('"', text[2..]))
      case '\\' => Some(('\\', text[2..]))
      case 'b' => Some(('\U{8}', text[2..]))
      case 't' => Some(('\t', text[2..]))
      case 'n' => Some(('\n', text[2..]))
      case 'f' => Some(('\U{C}', text[2..]))
      case 'r' => Some(('\r', text[2..]))
      case 'u' =>
        if |text| >= 6 && text[2] == '0' && text[3] == '0' && HexValue(text[4]).Some? && HexValue(text[5]).Some?
        then Some(((HexValue(text[4]).value * 16 + HexValue(text[5]).value) as char, text[6..]))
        else None
      case _ => None
  }

  /** The rest of a quoted string, up to and including its closing quote. */
  function ReadString(text: string): (r: Option<(string, string)>)
    ensures r.Some? ==> |r.value.1| < |text|
  {
    if text != [] && text[0] == '"' then Some(("", text[1..]))
    else
      var first := ReadChar(text);
      if first.None? then None
      else
        var more := ReadString(first.value.1);
        if more.None? then None else Some(([first.value.0] + more.value.0, more.value.1))
  }

  function DigitRun(text: string): (n: nat)
    ensures n <= |text|
  {
    if text != [] && IsDigit(text[0]) then 1 + DigitRun(text[1..]) else 0
  }

  function Value(digits: string): nat
    requires AllDigits(digits)
  {
    if digits == [] then 0 else Value(digits[..|digits| - 1]) * 10 + (digits[|digits| - 1] as int - '0' as int)
  }

  function ReadNumber(text: string): (r: Option<(int, string)>)
    ensures r.Some? ==> |r.value.1| < |text|
  {
    if text != [] && text[0] == '-' then
      var k := DigitRun(text[1..]);
      RunIsDigits(text[1..]);
      if k == 0 then None else Some((0 - Value(text[1..][..k]), text[1..][k..]))
    else
      var k := DigitRun(text);
      RunIsDigits(text);
      if k == 0 then None else Some((Value(text[..k]), text[k..]))
  }

  lemma {:induction false} RunIsDigits(text: string)
    ensures AllDigits(text[..DigitRun(text)])
  {
    if text != [] && IsDigit(text[0]) {
      RunIsDigits(text[1..]);
      var k := DigitRun(text[1..]);
      assert text[..k + 1] == [text[0]] + text[1..][..k];
    }
  }

  function Prepend(piece: Piece, more: Option<(seq<Piece>, string)>): Option<(seq<Piece>, string)> {
    if more.None? then None else Some(([piece] + more.value.0, more.value.1))
  }

  /** Reads the pieces of a shape: its marks must be there, its other pieces may hold anything. */
  function ReadPieces(shape: seq<Piece>, text: string): (r: Option<(seq<Piece>, string)>)
    ensures r.Some? ==> |r.value.1| <= |text| && |r.value.0| == |shape|
    decreases |shape|
  {
    if shape == [] then Some(([], text))
    else
      match shape[0]
      case Mark(mark) =>
        if mark <= text then Prepend(Mark(mark), ReadPieces(shape[1..], text[|mark|..])) else None
      case Text(_) =>
        if text == [] || text[0] != '"' then None
        else
          var value := ReadString(text[1..]);
          if value.None? then None else Prepend(Text(value.value.0), ReadPieces(shape[1..], value.value.1))
      case Number(_) =>
        var value := ReadNumber(text);
        if value.None? then None else Prepend(Number(value.value.0), ReadPieces(shape[1..], value.value.1))
  }

  // ----- reading back what was written -------------------------------------------------------------

  lemma CharReadsBack(c: char, rest: string)
    ensures ReadChar(EscapeChar(c) + rest) == Some((c, rest))
    ensures EscapeChar(c)[0] != '"'
  {
    var text := EscapeChar(c) + rest;
    if EscapeChar(c) == [c] {
      assert text[1..] == rest;
    } else if |EscapeChar(c)| == 2 {
      assert text[2..] == rest;
    } else {
      assert text[6..] == rest;
    }
  }

  lemma {:induction false} StringReadsBack(s: string, rest: string)
    ensures ReadString(EscapedThen(s, rest)) == Some((s, rest))
  {
    if s == [] {
    } else {
      CharReadsBack(s[0], EscapedThen(s[1..], rest));
      StringReadsBack(s[1..], rest);
      assert [s[0]] + s[1..] == s;
    }
  }

  lemma {:induction false} DigitsReadBack(n: nat)
    ensures Value(Digits(n)) == n
  {
    if n >= 10 {
      DigitsReadBack(n / 10);
      var d := Digits(n);
      assert d[..|d| - 1] == Digits(n / 10);
    }
  }

  lemma {:induction false} RunStopsAt(digits: string, rest: string)
    requires AllDigits(digits)
    requires rest == [] || !IsDigit(rest[0])
    ensures DigitRun(digits + rest) == |digits|
  {
    if digits == [] {
      assert digits + rest == rest;
    } else {
      assert (digits + rest)[1..] == digits[1..] + rest;
      RunStopsAt(digits[1..], rest);
    }
  }

  lemma RunReadsBack(n: nat, rest: string)
    requires rest == [] || !IsDigit(rest[0])
    ensures var text := Digits(n) + rest;
            var k := DigitRun(text);
            k > 0 && text[..k] == Digits(n) && text[k..] == rest && Value(Digits(n)) == n
  {
    DigitsReadBack(n);
    RunStopsAt(Digits(n), rest);
  }

  lemma NatReadsBack(n: nat, rest: string)
    requires rest == [] || !IsDigit(rest[0])
    ensures ReadNumber(Digits(n) + rest) == Some((n, rest))
  {
    RunReadsBack(n, rest);
    assert IsDigit((Digits(n) + rest)[0]);
  }

  lemma NegativeReadsBack(n: int, rest: string)
    requires n < 0 && (rest == [] || !IsDigit(rest[0]))
    ensures ReadNumber("-" + Digits(-n) + rest) == Some((n, rest))
  {
    RunReadsBack(-n, rest);
    assert ("-" + Digits(-n) + rest)[1..] == Digits(-n) + rest;
  }

  lemma NumberReadsBack(n: int, rest: string)
    requires rest == [] || !IsDigit(rest[0])
    ensures ReadNumber(Decimal(n) + rest) == Some((n, rest))
  {
    if n < 0 {
      NegativeReadsBack(n, rest);
    } else {
      NatReadsBack(n, rest);
    }
  }

  /** Every number is followed by a mark that does not start with a digit. */
  ghost predicate Delimited(pieces: seq<Piece>) {
    forall i :: 0 <= i < |pieces| && pieces[i].Number? ==>
      && i + 1 < |pieces| && pieces[i + 1].Mark?
      && pieces[i + 1].text != [] && !IsDigit(pieces[i + 1].text[0])
  }

  ghost predicate SameShape(shape: seq<Piece>, pieces: seq<Piece>) {
    && |shape| == |pieces|
    && forall i :: 0 <= i < |shape| ==>
         || (shape[i].Mark? && pieces[i] == shape[i])
         || (shape[i].Text? && pieces[i].Text?)
         || (shape[i].Number? && pieces[i].Number?)
  }

  lemma {:induction false} PiecesReadBack(shape: seq<Piece>, pieces: seq<Piece>, rest: string)
    requires SameShape(shape, pieces) && Delimited(pieces)
    ensures ReadPieces(shape, PrintThen(pieces, rest)) == Some((pieces, rest))
    decreases |shape|
  {
    if pieces != [] {
      var more := PrintThen(pieces[1..], rest);
      PiecesReadBack(shape[1..], pieces[1..], rest);
      match pieces[0] {
        case Mark(mark) =>
          assert (mark + more)[|mark|..] == more;
        case Text(value) =>
          StringReadsBack(value, more);
          assert ("\"" + EscapedThen(value, more))[1..] == EscapedThen(value, more);
        case Number(n) =>
          assert pieces[1..][0] == pieces[1];
          assert more == pieces[1].text + PrintThen(pieces[1..][1..], rest);
          NumberReadsBack(n, more);
      }
      assert [pieces[0]] + pieces[1..] == pieces;
    }
  }

  // ----- how long it is --------------------------------------------------------------------------------

  lemma {:induction false} ByteLengthAppend(a: string, b: string)
    ensures ByteLength(a + b) == ByteLength(a) + ByteLength(b)
  {
    if a == [] {
      assert a + b == b;
    } else {
      assert (a + b)[1..] == a[1..] + b;
      ByteLengthAppend(a[1..], b);
    }
  }

  /** Printable ASCII without the characters JSON escapes. */
  predicate Plain(s: string) {
    forall i :: 0 <= i < |s| ==> ' ' <= s[i] <= '~' && s[i] != '"' && s[i] != '\\'
  }

  predicate NoControls(s: string) {
    forall i :: 0 <= i < |s| ==> ' ' <= s[i]
  }

  lemma {:induction false} AsciiLength(s: string)
    requires forall i :: 0 <= i < |s| ==> s[i] < '\U{80}'
    ensures ByteLength(s) == |s|
  {
    if s != [] {
      AsciiLength(s[1..]);
    }
  }

  lemma EscapedCharLength(c: char)
    ensures ByteLength(EscapeChar(c)) <= 6
    ensures ByteLength(EscapeChar(c)) <= 6 * Width(c)
    ensures ' ' <= c ==> ByteLength(EscapeChar(c)) <= 4
    ensures ' ' <= c <= '~' && c != '"' && c != '\\' ==> ByteLength(EscapeChar(c)) == 1
  {
    if EscapeChar(c) == [c] {
      assert ByteLength([c]) == Width(c) + ByteLength([c][1..]);
    } else {
      AsciiLength(EscapeChar(c));
    }
  }

  /** Escaping costs at most six bytes per character and per byte, and plain text nothing. */
  lemma {:induction false} EscapedLength(s: string, rest: string)
    ensures ByteLength(EscapedThen(s, rest)) <= 6 * |s| + 1 + ByteLength(rest)
    ensures ByteLength(EscapedThen(s, rest)) <= 6 * ByteLength(s) + 1 + ByteLength(rest)
    ensures NoControls(s) ==> ByteLength(EscapedThen(s, rest)) <= 4 * |s| + 1 + ByteLength(rest)
    ensures Plain(s) ==> ByteLength(EscapedThen(s, rest)) == |s| + 1 + ByteLength(rest)
  {
    if s == [] {
      ByteLengthAppend("\"", rest);
      assert ByteLength("\"") == 1;
    } else {
      ByteLengthAppend(EscapeChar(s[0]), EscapedThen(s[1..], rest));
      EscapedCharLength(s[0]);
      EscapedLength(s[1..], rest);
      assert Plain(s) ==> Plain(s[1..]);
    }
  }

  lemma {:induction false} DigitsLength(n: nat, k: nat)
    requires k > 0 && n < Power10(k)
    ensures |Digits(n)| <= k
    decreases k
  {
    if n >= 10 {
      DigitsLength(n / 10, k - 1);
    }
  }

  function Power10(k: nat): nat {
    if k == 0 then 1 else 10 * Power10(k - 1)
  }

  lemma {:induction false} AtMostFourBytes(s: string)
    ensures ByteLength(s) <= 4 * |s|
  {
    if s != [] {
      AtMostFourBytes(s[1..]);
    }
  }

  /** An upper bound on the bytes of one piece: four for each character of a mark is generous. */
  ghost function Cost(piece: Piece): nat {
    match piece
    case Mark(text) => 4 * |text|
    case Text(value) => 1 + ByteLength(EscapedThen(value, ""))
    case Number(n) => |Decimal(n)|
  }

  ghost function TotalCost(pieces: seq<Piece>): nat {
    if pieces == [] then 0 else Cost(pieces[0]) + TotalCost(pieces[1..])
  }

  lemma {:induction false} EscapedRest(s: string, rest: string)
    ensures EscapedThen(s, rest) == EscapedThen(s, "") + rest
  {
    if s == [] {
    } else {
      EscapedRest(s[1..], rest);
    }
  }

  lemma {:induction false} PrintedLength(pieces: seq<Piece>, rest: string)
    ensures ByteLength(PrintThen(pieces, rest)) <= TotalCost(pieces) + ByteLength(rest)
  {
    if pieces != [] {
      var more := PrintThen(pieces[1..], rest);
      PrintedLength(pieces[1..], rest);
      match pieces[0] {
        case Mark(text) =>
          ByteLengthAppend(text, more);
          AtMostFourBytes(text);
        case Text(value) =>
          EscapedRest(value, more);
          ByteLengthAppend("\"", EscapedThen(value, "") + more);
          ByteLengthAppend(EscapedThen(value, ""), more);
          assert ByteLength("\"") == 1;
        case Number(n) =>
          ByteLengthAppend(Decimal(n), more);
          AsciiLength(Decimal(n));
      }
    }
  }
}
