/**
 * The graphic a user picks for a person or a collection, as it is validated, stored
 * and read back: packages/views/src/shell/graphic-choice.ts and
 * graphic-preferences.ts. Stored text and seeds are JavaScript strings: any
 * sequence of 16-bit code units, unpaired surrogates included.
 */
module GraphicPreference {
  import opened Basics

  type Unit = n: nat | n < 0x10000
  type JsString = seq<Unit>

  // ----- choices ---------------------------------------------------------------------------------

  /** The code units of an ASCII name. */
  function Units(name: string): (r: JsString)
    ensures |r| == |name|
  {
    seq(|name|, i requires 0 <= i < |name| => name[i] as int % 0x10000)
  }

  function AllUnits(names: seq<string>): seq<JsString> {
    seq(|names|, i requires 0 <= i < |names| => Units(names[i]))
  }

  function Styles(): seq<JsString> {
    AllUnits(["lorelei", "voxel-bot", "marbles", "glass"])
  }

  function Colors(): seq<JsString> {
    AllUnits(["orange", "amber", "green", "teal", "cyan", "blue", "indigo", "violet", "purple", "pink"])
  }

  function Glyphs(): seq<JsString> {
    AllUnits(["users", "folder-kanban", "workflow", "book-open", "brain", "blocks", "flask-conical", "microscope",
              "compass", "network", "lightbulb", "layers", "target", "telescope", "chart-no-axes-combined",
              "code", "palette", "globe", "file-text", "database"])
  }

  datatype GraphicKind = ForUser | ForCollection
  datatype Choice =
    | Generated(style: JsString, seed: JsString, background: Option<JsString>)
    | Icon(glyph: JsString, color: JsString)

  /** A JavaScript value: an object by its members, a string, or anything else. */
  datatype Value = Object(members: map<JsString, Value>) | Text(text: JsString) | Other

  function Member(members: map<JsString, Value>, name: string): Option<Value> {
    if Units(name) in members then Some(members[Units(name)]) else None
  }

  /** The value, when it is one of the names. */
  function OneOf(names: seq<JsString>, value: Option<Value>): Option<JsString> {
    if value.Some? && value.value.Text? && value.value.text in names then Some(value.value.text) else None
  }

  predicate IsHexUnit(u: Unit) {
    48 <= u <= 57 || 65 <= u <= 70 || 97 <= u <= 102
  }

  /** Six hexadecimal digits. */
  predicate IsBackground(s: JsString) {
    |s| == 6 && forall i :: 0 <= i < 6 ==> IsHexUnit(s[i])
  }

  function DefaultGraphic(kind: GraphicKind, seed: JsString): Choice {
    Generated(if kind.ForUser? then Units("lorelei") else Units("glass"), seed, None)
  }

  function ParseGraphic(value: Value, kind: GraphicKind): Option<Choice> {
    if !value.Object? then None
    else
      var m := value.members;
      var glyph, color := OneOf(Glyphs(), Member(m, "glyph")), OneOf(Colors(), Member(m, "color"));
      if Member(m, "kind") == Some(Text(Units("icon"))) && kind.ForCollection? && glyph.Some? && color.Some?
      then Some(Icon(glyph.value, color.value))
      else ParseGenerated(m, kind)
  }

  function ParseGenerated(m: map<JsString, Value>, kind: GraphicKind): Option<Choice> {
    var style, seed, background := OneOf(Styles(), Member(m, "style")), Member(m, "seed"), Member(m, "background");
    if Member(m, "kind") != Some(Text(Units("generated"))) || style.None? || seed.None? || !seed.value.Text?
       || seed.value.text == [] || |seed.value.text| > 200
    then None
    else if (style.value == Units("glass")) != kind.ForCollection? then None
    else if background.Some? && !(background.value.Text? && IsBackground(background.value.text)) then None
    else Some(Generated(style.value, seed.value.text, if background.Some? then Some(background.value.text) else None))
  }

  /** What parseGraphic lets through for a kind. */
  predicate Valid(choice: Choice, kind: GraphicKind) {
    match choice
    case Icon(glyph, color) => kind.ForCollection? && glyph in Glyphs() && color in Colors()
    case Generated(style, seed, background) =>
      style in Styles() && (style == Units("glass") <==> kind.ForCollection?) && 1 <= |seed| <= 200
      && (background.Some? ==> IsBackground(background.value))
  }

  /** The members of a choice, in the order they are written. */
  function MembersOf(choice: Choice): seq<(JsString, JsString)> {
    match choice
    case Icon(glyph, color) =>
      [(Units("kind"), Units("icon")), (Units("glyph"), glyph), (Units("color"), color)]
    case Generated(style, seed, background) =>
      [(Units("kind"), Units("generated")), (Units("style"), style), (Units("seed"), seed)]
      + if background.Some? then [(Units("background"), background.value)] else []
  }

  /** Later members replace earlier ones of the same name. */
  function Gathered(before: map<JsString, Value>, members: seq<(JsString, JsString)>): map<JsString, Value>
    decreases |members|
  {
    if members == [] then before
    else Gathered(before[members[0].0 := Text(members[0].1)], members[1..])
  }

  function AsValue(choice: Choice): Value {
    Object(Gathered(map[], MembersOf(choice)))
  }

  lemma MemberNamesDiffer()
    ensures Units("kind") != Units("seed")
    ensures Units("style") != Units("glyph") && Units("style") != Units("color") && Units("glyph") != Units("color")
  {
    assert Units("kind")[0] != Units("seed")[0];
    assert Units("style")[0] != Units("glyph")[0];
    assert Units("style")[0] != Units("color")[0];
    assert Units("glyph")[0] != Units("color")[0];
  }

  lemma GatheredOne(before: map<JsString, Value>, members: seq<(JsString, JsString)>, first: (JsString, JsString))
    ensures Gathered(before, [first] + members) == Gathered(before[first.0 := Text(first.1)], members)
  {
    assert ([first] + members)[1..] == members;
  }

  lemma GatheredThree(a: (JsString, JsString), b: (JsString, JsString), c: (JsString, JsString),
                      rest: seq<(JsString, JsString)>)
    ensures Gathered(map[], [a, b, c] + rest)
         == Gathered(map[a.0 := Text(a.1)][b.0 := Text(b.1)][c.0 := Text(c.1)], rest)
  {
    assert [a, b, c] + rest == [a] + ([b] + ([c] + rest));
    GatheredOne(map[], [b] + ([c] + rest), a);
    GatheredOne(map[a.0 := Text(a.1)], [c] + rest, b);
    GatheredOne(map[a.0 := Text(a.1)][b.0 := Text(b.1)], rest, c);
  }

  /** The members of a generated graphic, whatever their values. */
  lemma GeneratedMembers(style: JsString, seed: JsString, background: Option<JsString>)
    ensures var m := Gathered(map[], MembersOf(Generated(style, seed, background)));
            && Member(m, "kind") == Some(Text(Units("generated"))) && Member(m, "style") == Some(Text(style))
            && Member(m, "seed") == Some(Text(seed))
            && Member(m, "background") == if background.Some? then Some(Text(background.value)) else None
  {
    MemberNamesDiffer();
    var last := if background.Some? then [(Units("background"), background.value)] else [];
    GatheredThree((Units("kind"), Units("generated")), (Units("style"), style), (Units("seed"), seed), last);
    if background.Some? {
      assert last == [last[0]] + [];
      GatheredOne(map[Units("kind") := Text(Units("generated"))][Units("style") := Text(style)]
                  [Units("seed") := Text(seed)],
                  [], last[0]);
    }
  }

  lemma IconMembers(glyph: JsString, color: JsString)
    ensures var m := Gathered(map[], MembersOf(Icon(glyph, color)));
            && Member(m, "kind") == Some(Text(Units("icon"))) && Member(m, "glyph") == Some(Text(glyph))
            && Member(m, "color") == Some(Text(color))
  {
    MemberNamesDiffer();
    var a, b, c := (Units("kind"), Units("icon")), (Units("glyph"), glyph), (Units("color"), color);
    assert MembersOf(Icon(glyph, color)) == [a, b, c] + [];
    GatheredThree(a, b, c, []);
  }

  /** parseGraphic accepts exactly the valid choices, and gives them back as they are. */
  lemma ParseKeepsValid(choice: Choice, kind: GraphicKind)
    ensures ParseGraphic(AsValue(choice), kind) == if Valid(choice, kind) then Some(choice) else None
  {
    assert Units("icon") != Units("generated");
    match choice
    case Icon(glyph, color) => IconMembers(glyph, color);
    case Generated(style, seed, background) => GeneratedMembers(style, seed, background);
  }

  /** Whatever value it is given, what it returns is valid. */
  lemma ParsedIsValid(value: Value, kind: GraphicKind)
    requires ParseGraphic(value, kind).Some?
    ensures Valid(ParseGraphic(value, kind).value, kind)
  {
  }

  // ----- the choices in full ---------------------------------------------------------------------

  lemma AmongUnits(names: seq<string>, x: JsString)
    ensures x in AllUnits(names) <==> exists i :: 0 <= i < |names| && x == Units(names[i])
  {
    forall i | 0 <= i < |names| ensures Units(names[i]) in AllUnits(names) {
      assert AllUnits(names)[i] == Units(names[i]);
    }
  }

  predicate IsColorName(name: string) {
    name in {"orange", "amber", "green", "teal", "cyan", "blue", "indigo", "violet", "purple", "pink"}
  }

  predicate IsGlyphName(name: string) {
    name in {"users", "folder-kanban", "workflow", "book-open", "brain", "blocks", "flask-conical", "microscope",
             "compass", "network", "lightbulb", "layers", "target", "telescope", "chart-no-axes-combined", "code",
             "palette", "globe", "file-text", "database"}
  }

  predicate IsHexDigit(u: Unit) {
    '0' as int <= u <= '9' as int || 'A' as int <= u <= 'F' as int || 'a' as int <= u <= 'f' as int
  }

  lemma ColorsAre(x: JsString)
    ensures x in Colors() <==> exists name :: IsColorName(name) && x == Units(name)
  {
    var names := ["orange", "amber", "green", "teal", "cyan", "blue", "indigo", "violet", "purple", "pink"];
    AmongUnits(names, x);
    assert forall name :: name in names <==> IsColorName(name);
  }

  lemma GlyphsAre(x: JsString)
    ensures x in Glyphs() <==> exists name :: IsGlyphName(name) && x == Units(name)
  {
    var names := ["users", "folder-kanban", "workflow", "book-open", "brain", "blocks", "flask-conical", "microscope",
                  "compass", "network", "lightbulb", "layers", "target", "telescope", "chart-no-axes-combined", "code",
                  "palette", "globe", "file-text", "database"];
    AmongUnits(names, x);
    assert forall name :: name in names <==> IsGlyphName(name);
  }

  lemma StylesAre(x: JsString)
    ensures x in Styles() && x == Units("glass") <==> x == Units("glass")
    ensures x in Styles() && x != Units("glass") <==> x in {Units("lorelei"), Units("voxel-bot"), Units("marbles")}
  {
    var names := ["lorelei", "voxel-bot", "marbles", "glass"];
    AmongUnits(names, x);
    assert names[0] == "lorelei" && names[1] == "voxel-bot" && names[2] == "marbles" && names[3] == "glass";
    assert Units("glass")[0] != Units("lorelei")[0] && Units("glass")[0] != Units("voxel-bot")[0];
    assert Units("glass")[0] != Units("marbles")[0];
  }

  /** People have one of three styles, collections a glass or an icon of a known glyph and color. */
  lemma ChoicesAre(choice: Choice, kind: GraphicKind)
    ensures Valid(choice, kind)
       <==> match choice
            case Icon(glyph, color) =>
              && kind == ForCollection && (exists name :: IsGlyphName(name) && glyph == Units(name))
              && (exists name :: IsColorName(name) && color == Units(name))
            case Generated(style, seed, background) =>
              && (kind == ForUser ==> style in {Units("lorelei"), Units("voxel-bot"), Units("marbles")})
              && (kind == ForCollection ==> style == Units("glass"))
              && 1 <= |seed| <= 200
              && (background.Some? ==>
                    |background.value| == 6 && forall i :: 0 <= i < 6 ==> IsHexDigit(background.value[i]))
  {
    hide Styles, Glyphs, Colors, Units, IsGlyphName, IsColorName;
    match choice
    case Icon(glyph, color) =>
      GlyphsAre(glyph);
      ColorsAre(color);
    case Generated(style, seed, background) =>
      StylesAre(style);
  }

  /** Without a stored choice people show the lorelei of their seed and collections its glass, on no background. */
  lemma DefaultGraphicIs(kind: GraphicKind, seed: JsString)
    ensures DefaultGraphic(kind, seed)
         == match kind
            case ForUser => Generated(Units("lorelei"), seed, None)
            case ForCollection => Generated(Units("glass"), seed, None)
    ensures Valid(DefaultGraphic(kind, seed), kind) <==> 1 <= |seed| <= 200
  {
    StylesAre(Units("lorelei"));
    StylesAre(Units("glass"));
    hide Styles;
  }

  predicate HasText(m: map<JsString, Value>, name: string, text: JsString) {
    Units(name) in m && m[Units(name)] == Text(text)
  }

  /** The members spell the choice, whatever other members there are. */
  predicate Spells(m: map<JsString, Value>, choice: Choice) {
    match choice
    case Icon(glyph, color) =>
      HasText(m, "kind", Units("icon")) && HasText(m, "glyph", glyph) && HasText(m, "color", color)
    case Generated(style, seed, background) =>
      && HasText(m, "kind", Units("generated")) && HasText(m, "style", style) && HasText(m, "seed", seed)
      && if background.Some? then HasText(m, "background", background.value) else Units("background") !in m
  }

  /** parseGraphic reads exactly the objects whose members spell a valid choice. */
  lemma ParsesExactlyWhatSpells(value: Value, choice: Choice, kind: GraphicKind)
    ensures ParseGraphic(value, kind) == Some(choice)
       <==> value.Object? && Valid(choice, kind) && Spells(value.members, choice)
  {
    assert Units("icon") != Units("generated");
    hide Styles, Glyphs, Colors, IsBackground;
  }
}
