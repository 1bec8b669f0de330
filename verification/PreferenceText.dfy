/**
 * The stored text of a graphic choice: JSON.stringify and JSON.parse, sections
 * 25.5.1 and 25.5.2 of ECMA-262, on objects whose members are strings.
 */
module PreferenceText {
  import opened Basics
  import opened GraphicPreference

  const QUOTE: Unit := 34
  const BACKSLASH: Unit := 92
  const COLON: Unit := 58
  const COMMA: Unit := 44
  const OPEN_BRACE: Unit := 123
  const CLOSE_BRACE: Unit := 125
  const LETTER_U: Unit := 117

  // ----- writing --------------------------------------------------------------------------------

  predicate IsHigh(u: Unit) { 0xD800 <= u < 0xDC00 }

  predicate IsLow(u: Unit) { 0xDC00 <= u < 0xE000 }

  function HexUnit(n: nat): (u: Unit)
    requires n < 16
  {
    if n < 10 then 48 + n else 97 + n - 10
  }

  function UnicodeEscape(u: Unit): JsString {
    [BACKSLASH, LETTER_U, HexUnit(u / 4096), HexUnit(u / 256 % 16), HexUnit(u / 16 % 16), HexUnit(u % 16)]
  }

  /** One unit that is not half of a surrogate pair. */
  function EscapeUnit(u: Unit): JsString {
    if u == 8 then [BACKSLASH, 98]
    else if u == 9 then [BACKSLASH, 116]
    else if u == 10 then [BACKSLASH, 110]
    else if u == 12 then [BACKSLASH, 102]
    else if u == 13 then [BACKSLASH, 114]
    else if u == QUOTE || u == BACKSLASH then [BACKSLASH, u]
    else if u < 32 || IsHigh(u) || IsLow(u) then UnicodeEscape(u)
    else [u]
  }

  /** The quoted rest of a string, its closing quote and what follows. */
  function QuotedThen(s: JsString, rest: JsString): JsString
    decreases |s|
  {
    if s == [] then [QUOTE] + rest
    else if IsHigh(s[0]) && |s| > 1 && IsLow(s[1]) then [s[0], s[1]] + QuotedThen(s[2..], rest)
    else EscapeUnit(s[0]) + QuotedThen(s[1..], rest)
  }

  function MembersThen(members: seq<(JsString, JsString)>): JsString
    requires members != []
    decreases |members|
  {
    var rest := if |members| == 1 then [CLOSE_BRACE] else [COMMA] + MembersThen(members[1..]);
    [QUOTE] + QuotedThen(members[0].0, [COLON, QUOTE] + QuotedThen(members[0].1, rest))
  }

  /** JSON.stringify of a validated choice. */
  function Stringify(choice: Choice): JsString {
    [OPEN_BRACE] + MembersThen(MembersOf(choice))
  }

  // ----- reading --------------------------------------------------------------------------------

  function HexUnitValue(u: Unit): Option<nat> {
    if 48 <= u <= 57 then Some(u - 48)
    else if 97 <= u <= 102 then Some(u - 97 + 10)
    else if 65 <= u <= 70 then Some(u - 65 + 10)
    else None
  }

  function ReadUnicode(text: JsString): Option<Unit>
    requires |text| >= 6
  {
    if HexUnitValue(text[2]).Some? && HexUnitValue(text[3]).Some? && HexUnitValue(text[4]).Some?
       && HexUnitValue(text[5]).Some?
    then Some(((HexUnitValue(text[2]).value * 16 + HexUnitValue(text[3]).value) * 16 + HexUnitValue(text[4]).value) * 16
              + HexUnitValue(text[5]).value)
    else None
  }

  function ReadUnit(text: JsString): (r: Option<(Unit, JsString)>)
    ensures r.Some? ==> |r.value.1| < |text|
  {
    if text == [] || text[0] < 32 || text[0] == QUOTE then None
    else if text[0] != BACKSLASH then Some((text[0], text[1..]))
    else if |text| < 2 then None
    else if text[1] in {QUOTE, BACKSLASH, 47} then Some((text[1], text[2..]))
    else if text[1] == 98 then Some((8, text[2..]))
    else if text[1] == 116 then Some((9, text[2..]))
    else if text[1] == 110 then Some((10, text[2..]))
    else if text[1] == 102 then Some((12, text[2..]))
    else if text[1] == 114 then Some((13, text[2..]))
    else if text[1] == LETTER_U && |text| >= 6 && ReadUnicode(text).Some?
    then Some((ReadUnicode(text).value, text[6..]))
    else None
  }

  /** The rest of a quoted string, and what follows its closing quote. */
  function ReadQuoted(text: JsString): (r: Option<(JsString, JsString)>)
    ensures r.Some? ==> |r.value.1| < |text|
    decreases |text|
  {
    if text != [] && text[0] == QUOTE then Some(([], text[1..]))
    else
      var first := ReadUnit(text);
      if first.None? then None
      else
        var more := ReadQuoted(first.value.1);
        if more.None? then None else Some(([first.value.0] + more.value.0, more.value.1))
  }

  /** "name":"value", with its opening quote already seen to be there or not. */
  function ReadMember(text: JsString): (r: Option<((JsString, JsString), JsString)>)
    ensures r.Some? ==> |r.value.1| < |text|
  {
    if text == [] || text[0] != QUOTE then None
    else
      var name := ReadQuoted(text[1..]);
      if name.None? || |name.value.1| < 2 || name.value.1[0] != COLON || name.value.1[1] != QUOTE then None
      else
        var value := ReadQuoted(name.value.1[2..]);
        if value.None? then None else Some(((name.value.0, value.value.0), value.value.1))
  }

  function ReadMembers(before: map<JsString, Value>, text: JsString): Option<map<JsString, Value>>
    decreases |text|
  {
    var member := ReadMember(text);
    if member.None? || member.value.1 == [] then None
    else
      var after := before[member.value.0.0 := Text(member.value.0.1)];
      if member.value.1 == [CLOSE_BRACE] then Some(after)
      else if member.value.1[0] == COMMA then ReadMembers(after, member.value.1[1..])
      else None
  }

  /** JSON.parse of a compact object whose members are all strings. */
  function ParseFlat(text: JsString): Option<Value> {
    if text == [] || text[0] != OPEN_BRACE then None
    else if text[1..] == [CLOSE_BRACE] then Some(Object(map[]))
    else
      var members := ReadMembers(map[], text[1..]);
      if members.None? then None else Some(Object(members.value))
  }

  // ----- reading back what was written --------------------------------------------------------------

  lemma HexReadsBack(n: nat)
    requires n < 16
    ensures HexUnitValue(HexUnit(n)) == Some(n)
  {
  }

  lemma HexParts(u: Unit)
    ensures ((u / 4096 * 16 + u / 256 % 16) * 16 + u / 16 % 16) * 16 + u % 16 == u
  {
    assert u / 16 == u / 256 * 16 + u / 16 % 16 && u / 256 == u / 4096 * 16 + u / 256 % 16;
    assert u == u / 16 * 16 + u % 16;
  }

  lemma UnicodeReadsBack(u: Unit, rest: JsString)
    ensures ReadUnicode(UnicodeEscape(u) + rest) == Some(u)
  {
    hide HexUnit, HexUnitValue;
    HexReadsBack(u / 4096);
    HexReadsBack(u / 256 % 16);
    HexReadsBack(u / 16 % 16);
    HexReadsBack(u % 16);
    HexParts(u);
    var text := UnicodeEscape(u) + rest;
    assert text[2] == HexUnit(u / 4096) && text[3] == HexUnit(u / 256 % 16);
    assert text[4] == HexUnit(u / 16 % 16) && text[5] == HexUnit(u % 16);
  }

  lemma UnitReadsBack(u: Unit, rest: JsString)
    ensures ReadUnit(EscapeUnit(u) + rest) == Some((u, rest))
    ensures EscapeUnit(u)[0] != QUOTE
  {
    var text := EscapeUnit(u) + rest;
    if EscapeUnit(u) == [u] {
      assert text[1..] == rest;
    } else if |EscapeUnit(u)| == 2 {
      assert text[2..] == rest;
    } else {
      UnicodeReadsBack(u, rest);
      assert text[6..] == rest;
    }
  }

  /** Putting one more readable unit in front. */
  lemma OneMoreUnit(u: Unit, written: JsString, more: JsString, s: JsString, rest: JsString)
    requires written != [] && written[0] != QUOTE && ReadUnit(written + more) == Some((u, more))
    requires ReadQuoted(more) == Some((s, rest))
    ensures ReadQuoted(written + more) == Some(([u] + s, rest))
  {
  }

  lemma SurrogateReads(u: Unit, more: JsString)
    requires IsHigh(u) || IsLow(u)
    ensures ReadUnit([u] + more) == Some((u, more))
  {
    assert ([u] + more)[1..] == more;
  }

  lemma PairReadsBack(high: Unit, low: Unit, more: JsString, s: JsString, rest: JsString)
    requires IsHigh(high) && IsLow(low) && ReadQuoted(more) == Some((s, rest))
    ensures ReadQuoted([high, low] + more) == Some(([high, low] + s, rest))
  {
    SurrogateReads(low, more);
    OneMoreUnit(low, [low], more, s, rest);
    SurrogateReads(high, [low] + more);
    OneMoreUnit(high, [high], [low] + more, [low] + s, rest);
    assert [high, low] + more == [high] + ([low] + more);
    assert [high, low] + s == [high] + ([low] + s);
  }

  /** Any string reads back, paired and unpaired surrogates alike. */
  lemma {:induction false} QuotedReadsBack(s: JsString, rest: JsString)
    ensures ReadQuoted(QuotedThen(s, rest)) == Some((s, rest))
    decreases |s|
  {
    if s == [] {
    } else if IsHigh(s[0]) && |s| > 1 && IsLow(s[1]) {
      QuotedReadsBack(s[2..], rest);
      PairReadsBack(s[0], s[1], QuotedThen(s[2..], rest), s[2..], rest);
      assert [s[0], s[1]] + s[2..] == s;
    } else {
      UnitReadsBack(s[0], QuotedThen(s[1..], rest));
      QuotedReadsBack(s[1..], rest);
      OneMoreUnit(s[0], EscapeUnit(s[0]), QuotedThen(s[1..], rest), s[1..], rest);
      assert [s[0]] + s[1..] == s;
    }
  }

  lemma MemberReadsBack(member: (JsString, JsString), rest: JsString)
    ensures ReadMember([QUOTE] + QuotedThen(member.0, [COLON, QUOTE] + QuotedThen(member.1, rest)))
         == Some((member, rest))
  {
    var value := [COLON, QUOTE] + QuotedThen(member.1, rest);
    QuotedReadsBack(member.0, value);
    QuotedReadsBack(member.1, rest);
    assert ([QUOTE] + QuotedThen(member.0, value))[1..] == QuotedThen(member.0, value);
    assert value[2..] == QuotedThen(member.1, rest);
  }

  lemma {:induction false} MembersReadBack(before: map<JsString, Value>, members: seq<(JsString, JsString)>)
    requires members != []
    ensures ReadMembers(before, MembersThen(members)) == Some(Gathered(before, members))
    decreases |members|
  {
    var after := before[members[0].0 := Text(members[0].1)];
    if |members| == 1 {
      MemberReadsBack(members[0], [CLOSE_BRACE]);
      assert members[1..] == [];
    } else {
      var rest := [COMMA] + MembersThen(members[1..]);
      MemberReadsBack(members[0], rest);
      assert rest[1..] == MembersThen(members[1..]);
      MembersReadBack(after, members[1..]);
    }
  }

  /** A written choice parses to the value it was written from. */
  lemma StringifiedParses(choice: Choice)
    ensures ParseFlat(Stringify(choice)) == Some(AsValue(choice))
  {
    var text := Stringify(choice);
    MembersReadBack(map[], MembersOf(choice));
    assert text[1..] == MembersThen(MembersOf(choice));
    assert text[1..][0] == QUOTE;
  }

  /** Short escapes where JSON has them. */
  lemma ShortEscapesAre()
    ensures EscapeUnit(8) == Units("\\b") && EscapeUnit(9) == Units("\\t") && EscapeUnit(10) == Units("\\n")
    ensures EscapeUnit(12) == Units("\\f") && EscapeUnit(13) == Units("\\r")
    ensures EscapeUnit('"' as int) == Units("\\\"") && EscapeUnit('\\' as int) == Units("\\\\")
  {
  }

  /** Four hexadecimal digits for other control characters and lone surrogates; nothing else is escaped. */
  lemma LongEscapesAre(u: Unit)
    ensures EscapeUnit(11) == Units("\\u000b") && EscapeUnit(0xD83D) == Units("\\ud83d")
    ensures 32 <= u && u != '"' as int && u != '\\' as int && !(0xD800 <= u < 0xE000) ==> EscapeUnit(u) == [u]
  {
  }

  // ----- how long it is --------------------------------------------------------------------------------

  lemma {:induction false} QuotedLength(s: JsString, rest: JsString)
    ensures |QuotedThen(s, rest)| <= 6 * |s| + 1 + |rest|
    decreases |s|
  {
    if s == [] {
    } else if IsHigh(s[0]) && |s| > 1 && IsLow(s[1]) {
      QuotedLength(s[2..], rest);
    } else {
      QuotedLength(s[1..], rest);
    }
  }

  ghost function Sizes(members: seq<(JsString, JsString)>): nat {
    if members == [] then 0 else 6 * |members[0].0| + 6 * |members[0].1| + 6 + Sizes(members[1..])
  }

  lemma {:induction false} MembersLength(members: seq<(JsString, JsString)>)
    requires members != []
    ensures |MembersThen(members)| <= Sizes(members)
    decreases |members|
  {
    var rest := if |members| == 1 then [CLOSE_BRACE] else [COMMA] + MembersThen(members[1..]);
    if |members| > 1 {
      MembersLength(members[1..]);
    }
    QuotedLength(members[0].1, rest);
    QuotedLength(members[0].0, [COLON, QUOTE] + QuotedThen(members[0].1, rest));
  }

  lemma SizesOf(members: seq<(JsString, JsString)>)
    requires 3 <= |members| <= 4
    ensures Sizes(members)
         == 6 * (|members[0].0| + |members[0].1| + |members[1].0| + |members[1].1|
                 + |members[2].0| + |members[2].1|) + 18
            + if |members| == 4 then 6 * (|members[3].0| + |members[3].1|) + 6 else 0
  {
    var more, last, none := members[1..], members[2..], members[3..];
    assert more[1..] == last && last[1..] == none;
    assert Sizes(last) == 6 * |last[0].0| + 6 * |last[0].1| + 6 + Sizes(none);
    if |members| == 4 {
      assert none[1..] == [] && Sizes(none) == 6 * |none[0].0| + 6 * |none[0].1| + 6 + Sizes([]);
    }
  }

  lemma NamesAreShort(name: JsString)
    requires name in Styles() || name in Colors() || name in Glyphs()
    ensures |name| <= 22
  {
  }

  /** Every choice that may be stored fits the 2048 characters that are read back. */
  lemma StringifiedFits(choice: Choice, kind: GraphicKind)
    requires Valid(choice, kind)
    ensures 0 < |Stringify(choice)| <= 2048
  {
    MembersLength(MembersOf(choice));
    SizesOf(MembersOf(choice));
    match choice
    case Icon(glyph, color) =>
      NamesAreShort(glyph);
      NamesAreShort(color);
    case Generated(style, _, _) => NamesAreShort(style);
  }
}
