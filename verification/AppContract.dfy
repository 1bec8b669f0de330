/**
 * When the shell accepts the contributions of its examples, and what they become
 * together: packages/views/src/shell/app-contract.ts and messages.tsx.
 */
module AppContract {
  import opened Basics

  type Catalog = map<string, string>
  type Icon = nat

  datatype Item = Item(id: string, labelKey: string, path: string)
  datatype Group = Group(id: string, labelKey: string, items: seq<Item>)
  datatype Scene = Scene(exampleId: string, id: string, titleKey: string, descriptionKey: Option<string>)

  /** routes: the paths of the pages. icons: in the order the object lists them. */
  datatype Example = Example(id: string, routes: seq<string>, navigation: seq<Group>, zh: Option<Catalog>,
                             en: Option<Catalog>, defaultEntry: Option<string>, scenes: seq<Scene>,
                             icons: seq<(string, Icon)>)

  /** What the shell itself brings. */
  datatype Core = Core(zh: Catalog, en: Catalog, icons: map<string, Icon>)

  datatype Problem =
    | BadId | DuplicateId | RelativePath | ReservedRoute | TakenRoute | MissingLocale | MissingText
    | ForeignItem | UndeclaredKey | ForeignEntry | ForeignIcon | Takeover | ReservedEntry | UnknownEntry
  datatype Checked<+T> = Fine(value: T) | Refused(problem: Problem)

  const RESERVED: set<string> := {
    "/", "/login", "/register", "/forgot-password", "/reset-password", "/members", "/jobs", "/jobs/$jobId",
    "/api-keys", "/audit", "/notifications", "/system", "/settings", "/design-system"
  }

  /** Names every JavaScript object inherits: looking one up finds something even in an empty catalog. */
  const INHERITED: set<string> := {
    "constructor", "hasOwnProperty", "isPrototypeOf", "propertyIsEnumerable", "toLocaleString", "toString", "valueOf",
    "__proto__", "__defineGetter__", "__defineSetter__", "__lookupGetter__", "__lookupSetter__"
  }

  // ----- paths -------------------------------------------------------------------------------------

  function WithoutSlashes(path: string): string {
    if path != "" && path[|path| - 1] == '/' then WithoutSlashes(path[..|path| - 1]) else path
  }

  function Normalize(path: string): Checked<string> {
    if path == "" || path[0] != '/' then Refused(RelativePath)
    else if WithoutSlashes(path) == "" then Fine("/")
    else Fine(WithoutSlashes(path))
  }

  lemma {:induction false} WithoutSlashesIsPrefix(path: string)
    ensures WithoutSlashes(path) <= path
    ensures WithoutSlashes(path) != "" ==> WithoutSlashes(path)[|WithoutSlashes(path)| - 1] != '/'
  {
    if path != "" && path[|path| - 1] == '/' {
      WithoutSlashesIsPrefix(path[..|path| - 1]);
    }
  }

  /** A normal path is absolute, ends with no slash unless it is the root, and is its own normal form. */
  lemma NormalizeIsIdempotent(path: string)
    requires Normalize(path).Fine?
    ensures var normal := Normalize(path).value;
            && Normalize(normal) == Fine(normal)
            && normal != "" && normal[0] == '/' && (normal != "/" ==> normal[|normal| - 1] != '/')
  {
    WithoutSlashesIsPrefix(path);
    if Normalize(path).value == "/" {
      assert "/"[..0] == "";
      assert WithoutSlashes("/") == WithoutSlashes("") == "";
    }
  }

  /** The path without its trailing slashes, or the root if it is nothing else. */
  ghost predicate IsNormalFormOf(path: string, normal: string) {
    || (normal == "/" && forall i :: 0 <= i < |path| ==> path[i] == '/')
    || (normal != "" && normal <= path && normal[|normal| - 1] != '/'
        && forall i :: |normal| <= i < |path| ==> path[i] == '/')
  }

  lemma {:induction false} WithoutSlashesCuts(path: string)
    ensures WithoutSlashes(path) <= path
    ensures forall i :: |WithoutSlashes(path)| <= i < |path| ==> path[i] == '/'
  {
    if path != "" && path[|path| - 1] == '/' {
      WithoutSlashesCuts(path[..|path| - 1]);
    }
  }

  /** Normalizing refuses exactly the paths that are not absolute, and cuts nothing but trailing slashes. */
  lemma NormalizeCutsSlashes(path: string, normal: string)
    ensures Normalize(path) == Fine(normal) <==> path != "" && path[0] == '/' && IsNormalFormOf(path, normal)
    ensures path == "" || path[0] != '/' <==> Normalize(path) == Refused(RelativePath)
  {
    WithoutSlashesIsPrefix(path);
    WithoutSlashesCuts(path);
    var cut := WithoutSlashes(path);
    if IsNormalFormOf(path, normal) && normal != "/" {
      assert path[|normal| - 1] != '/' && |normal| <= |cut|;
      assert cut != "" ==> path[|cut| - 1] != '/';
      assert normal == path[..|normal|] == path[..|cut|] == cut;
    }
  }

  /** The normal forms of the paths an example contributes. */
  function OwnRoutes(routes: seq<string>): set<string> {
    set i | 0 <= i < |routes| && Normalize(routes[i]).Fine? :: Normalize(routes[i]).value
  }

  // ----- message keys -------------------------------------------------------------------------------

  function Key(id: string, key: string): string {
    id + "." + key
  }

  predicate KebabCase(id: string) {
    id != "" && forall i :: 0 <= i < |id| ==> 'a' <= id[i] <= 'z' || '0' <= id[i] <= '9' || id[i] == '-'
  }

  /** Ids contain no dot, so a namespaced key says which example it belongs to and which key it was. */
  lemma KeysAreDistinct(id: string, key: string, id': string, key': string)
    requires KebabCase(id) && KebabCase(id') && Key(id, key) == Key(id', key')
    ensures id == id' && key == key'
  {
    var s, t := Key(id, key), Key(id', key');
    assert s[|id|] == '.' && t[|id'|] == '.';
    assert forall i :: 0 <= i < |id| ==> s[i] == id[i] && s[i] != '.';
    assert forall i :: 0 <= i < |id'| ==> t[i] == id'[i] && t[i] != '.';
    assert id == s[..|id|] && id' == t[..|id'|];
    assert key == s[|id| + 1..] && key' == t[|id'| + 1..];
  }

  lemma SameIdKeysAreDistinct(id: string)
    ensures forall j, k :: Key(id, j) == Key(id, k) ==> j == k
  {
    forall j, k | Key(id, j) == Key(id, k) ensures j == k {
      assert j == Key(id, j)[|id| + 1..];
    }
  }

  function Namespaced(id: string, catalog: Catalog): Catalog {
    SameIdKeysAreDistinct(id);
    map k | k in catalog :: Key(id, k) := catalog[k]
  }

  /** catalog[key] is falsy: missing and not inherited, or empty. */
  predicate Lacks(catalog: Catalog, key: string) {
    if key in catalog then catalog[key] == "" else key !in INHERITED
  }

  /** key in catalog, inherited names included. */
  predicate Has(catalog: Catalog, key: string) {
    key in catalog || key in INHERITED
  }

  predicate Complete(of: Catalog, other: Catalog) {
    forall k :: k in of ==> !Lacks(other, k)
  }

  function ItemKeys(items: seq<Item>): set<string> {
    set i | 0 <= i < |items| :: items[i].labelKey
  }

  /** The keys the example's navigation uses; groups without items are dropped. */
  function NavigationKeys(groups: seq<Group>): set<string> {
    if groups == [] then {}
    else
      var last := groups[|groups| - 1];
      NavigationKeys(groups[..|groups| - 1])
      + if last.items == [] then {} else {last.labelKey} + ItemKeys(last.items)
  }

  function SceneKeys(scenes: seq<Scene>): set<string> {
    if scenes == [] then {}
    else
      var last := scenes[|scenes| - 1];
      SceneKeys(scenes[..|scenes| - 1]) + {last.titleKey}
      + if last.descriptionKey.Some? && last.descriptionKey.value != "" then {last.descriptionKey.value} else {}
  }

  function UsedKeys(x: Example): set<string> {
    NavigationKeys(x.navigation) + SceneKeys(x.scenes)
  }

  // ----- one contribution ------------------------------------------------------------------------------

  /** The owners of the normal paths seen so far, after an example's routes; an error stays. */
  function AddRoutes(routes: seq<string>, id: string, seen: map<string, string>): Checked<map<string, string>> {
    if routes == [] then Fine(seen)
    else
      var before := AddRoutes(routes[..|routes| - 1], id, seen);
      var path := Normalize(routes[|routes| - 1]);
      if before.Refused? then before
      else if path.Refused? then Refused(path.problem)
      else if path.value in RESERVED then Refused(ReservedRoute)
      else if path.value in before.value then Refused(TakenRoute)
      else Fine(before.value[path.value := id])
  }

  function ItemsProblem(items: seq<Item>, seen: map<string, string>): Option<Problem> {
    if items == [] then None
    else
      var before := ItemsProblem(items[..|items| - 1], seen);
      var path := Normalize(items[|items| - 1].path);
      if before.Some? then before
      else if path.Refused? then Some(path.problem)
      else if path.value !in seen then Some(ForeignItem)
      else None
  }

  function NavigationProblem(groups: seq<Group>, seen: map<string, string>): Option<Problem> {
    if groups == [] then None
    else
      var before := NavigationProblem(groups[..|groups| - 1], seen);
      if before.Some? then before else ItemsProblem(groups[|groups| - 1].items, seen)
  }

  function IconsProblem(icons: seq<(string, Icon)>, own: set<string>): Option<Problem> {
    if icons == [] then None
    else
      var before := IconsProblem(icons[..|icons| - 1], own);
      var path := Normalize(icons[|icons| - 1].0);
      if before.Some? then before
      else if path.Refused? then Some(path.problem)
      else if path.value !in own then Some(ForeignIcon)
      else None
  }

  function EntryProblem(entry: Option<string>, own: set<string>): Option<Problem> {
    if entry.None? then None
    else
      var path := Normalize(entry.value);
      if path.Refused? then Some(path.problem) else if path.value !in own then Some(ForeignEntry) else None
  }

  function MessagesProblem(x: Example): Option<Problem> {
    if x.zh.None? || x.en.None? then Some(MissingLocale)
    else if !Complete(x.zh.value, x.en.value) || !Complete(x.en.value, x.zh.value) then Some(MissingText)
    else None
  }

  /** validatedExample: refused, or the owners of all paths seen so far. */
  function Validate(x: Example, ids: set<string>, seen: map<string, string>): Checked<map<string, string>> {
    if !KebabCase(x.id) then Refused(BadId)
    else if x.id in ids then Refused(DuplicateId)
    else
      var routes := AddRoutes(x.routes, x.id, seen);
      var own := OwnRoutes(x.routes);
      if routes.Refused? then routes
      else if MessagesProblem(x).Some? then Refused(MessagesProblem(x).value)
      else if NavigationProblem(x.navigation, routes.value).Some?
      then Refused(NavigationProblem(x.navigation, routes.value).value)
      else if !(forall k :: k in UsedKeys(x) ==> Has(x.zh.value, k)) then Refused(UndeclaredKey)
      else if EntryProblem(x.defaultEntry, own).Some? then Refused(EntryProblem(x.defaultEntry, own).value)
      else if IconsProblem(x.icons, own).Some? then Refused(IconsProblem(x.icons, own).value)
      else routes
  }

  function Ids(examples: seq<Example>): set<string> {
    set i | 0 <= i < |examples| :: examples[i].id
  }

  /** The contributions one after the other. */
  function ValidateAll(examples: seq<Example>): Checked<map<string, string>> {
    if examples == [] then Fine(map[])
    else
      var before := ValidateAll(examples[..|examples| - 1]);
      if before.Refused? then before
      else Validate(examples[|examples| - 1], Ids(examples[..|examples| - 1]), before.value)
  }

  // ----- all together -----------------------------------------------------------------------------------

  /** The keys an example registers, in either locale. */
  function KeysOf(x: Example): set<string>
    requires x.zh.Some? && x.en.Some?
  {
    Namespaced(x.id, x.zh.value).Keys + Namespaced(x.id, x.en.value).Keys
  }

  ghost predicate HaveMessages(examples: seq<Example>) {
    forall i :: 0 <= i < |examples| ==> examples[i].zh.Some? && examples[i].en.Some?
  }

  /** The keys are the owner's now, whoever had them before. */
  function Claimed(owners: map<string, string>, keys: set<string>, owner: string): map<string, string> {
    map k | k in owners.Keys + keys :: if k in keys then owner else owners[k]
  }

  /** The example wants a key that somebody else owns. */
  ghost predicate Collides(owners: map<string, string>, keys: set<string>, id: string) {
    exists k :: k in keys && k in owners && owners[k] != id
  }

  /** Who owns each message key after the examples registered theirs; an error stays. */
  ghost function Register(core: Core, examples: seq<Example>): Checked<map<string, string>>
    requires HaveMessages(examples)
  {
    if examples == [] then Fine(map k | k in core.zh.Keys + core.en.Keys :: "core")
    else
      var before := Register(core, examples[..|examples| - 1]);
      var last := examples[|examples| - 1];
      if before.Refused? then before
      else if Collides(before.value, KeysOf(last), last.id) then Refused(Takeover)
      else Fine(Claimed(before.value, KeysOf(last), last.id))
  }

  ghost function Merged(core: Catalog, examples: seq<Example>, english: bool): Catalog
    requires HaveMessages(examples)
  {
    if examples == [] then core
    else
      var last := examples[|examples| - 1];
      Merged(core, examples[..|examples| - 1], english)
      + Namespaced(last.id, if english then last.en.value else last.zh.value)
  }

  /** The later entry of a path replaces an earlier one. */
  function AddIcons(icons: seq<(string, Icon)>, before: map<string, Icon>): map<string, Icon> {
    if icons == [] then before
    else
      var last := icons[|icons| - 1];
      var rest := AddIcons(icons[..|icons| - 1], before);
      if Normalize(last.0).Fine? then rest[Normalize(last.0).value := last.1] else rest
  }

  function MergedIcons(core: map<string, Icon>, examples: seq<Example>): map<string, Icon> {
    if examples == [] then core
    else AddIcons(examples[|examples| - 1].icons, MergedIcons(core, examples[..|examples| - 1]))
  }

  /** The first example's own default entry. */
  function FirstEntry(examples: seq<Example>): Option<string> {
    if examples == [] then None
    else if examples[0].defaultEntry.Some? then examples[0].defaultEntry
    else FirstEntry(examples[1..])
  }

  function SelectEntry(pinned: Option<string>, examples: seq<Example>, seen: map<string, string>): Checked<string> {
    var selected := if pinned.Some? then pinned else FirstEntry(examples);
    if selected.None? then Fine("/")
    else
      var path := Normalize(selected.value);
      if path.Refused? then path
      else if path.value in RESERVED then Refused(ReservedEntry)
      else if path.value !in seen then Refused(UnknownEntry)
      else path
  }

  function NavigationOf(id: string, groups: seq<Group>): seq<Group> {
    if groups == [] then []
    else
      var last := groups[|groups| - 1];
      NavigationOf(id, groups[..|groups| - 1])
      + if last.items == [] then [] else [Group(id + ":" + last.id, Key(id, last.labelKey), ItemsOf(id, last.items))]
  }

  function ItemsOf(id: string, items: seq<Item>): seq<Item> {
    seq(|items|, i requires 0 <= i < |items| =>
          Item(id + ":" + items[i].id, Key(id, items[i].labelKey),
               if Normalize(items[i].path).Fine? then Normalize(items[i].path).value else items[i].path))
  }

  function ScenesOf(id: string, scenes: seq<Scene>): seq<Scene> {
    seq(|scenes|, i requires 0 <= i < |scenes| =>
          Scene(id, scenes[i].id, Key(id, scenes[i].titleKey),
                if scenes[i].descriptionKey.Some? && scenes[i].descriptionKey.value != ""
                then Some(Key(id, scenes[i].descriptionKey.value)) else None))
  }

  function AllNavigation(examples: seq<Example>): seq<Group> {
    if examples == [] then []
    else
      var last := examples[|examples| - 1];
      AllNavigation(examples[..|examples| - 1]) + NavigationOf(last.id, last.navigation)
  }

  function AllScenes(examples: seq<Example>): seq<Scene> {
    if examples == [] then []
    else
      var last := examples[|examples| - 1];
      AllScenes(examples[..|examples| - 1]) + ScenesOf(last.id, last.scenes)
  }

  /** The pages with the example each belongs to; paths stay as they were contributed. */
  function AllRoutes(examples: seq<Example>): seq<(string, string)> {
    if examples == [] then []
    else
      var last := examples[|examples| - 1];
      AllRoutes(examples[..|examples| - 1]) + RoutesOf(last)
  }

  function RoutesOf(x: Example): seq<(string, string)> {
    seq(|x.routes|, i requires 0 <= i < |x.routes| => (x.routes[i], x.id))
  }

  datatype App = App(examples: seq<string>, routes: seq<(string, string)>, navigation: seq<Group>, zh: Catalog,
                     en: Catalog, defaultEntry: string, scenes: seq<Scene>, icons: map<string, Icon>)

  /** assembleApp. */
  ghost function Assemble(core: Core, examples: seq<Example>, pinned: Option<string>): Checked<App> {
    var seen := ValidateAll(examples);
    if seen.Refused? then Refused(seen.problem)
    else
      AcceptedHaveMessages(examples);
      var owners := Register(core, examples);
      var entry := SelectEntry(pinned, examples, seen.value);
      if owners.Refused? then Refused(owners.problem)
      else if entry.Refused? then Refused(entry.problem)
      else
        Fine(App(seq(|examples|, i requires 0 <= i < |examples| => examples[i].id), AllRoutes(examples),
                 AllNavigation(examples),
                 Merged(core.zh, examples, false), Merged(core.en, examples, true), entry.value, AllScenes(examples),
                 MergedIcons(core.icons, examples)))
  }

  /** Every prefix of an accepted sequence was accepted, and each example passed every check when its turn came. */
  lemma {:induction false} EachWasValidated(examples: seq<Example>, i: nat)
    requires ValidateAll(examples).Fine? && i < |examples|
    ensures ValidateAll(examples[..i]).Fine?
    ensures ValidateAll(examples[..i + 1])
         == Validate(examples[i], Ids(examples[..i]), ValidateAll(examples[..i]).value)
    ensures ValidateAll(examples[..i + 1]).Fine?
  {
    var front := examples[..|examples| - 1];
    if i == |examples| - 1 {
      assert examples[..i + 1] == examples;
    } else {
      EachWasValidated(front, i);
      assert front[..i] == examples[..i] && front[..i + 1] == examples[..i + 1];
    }
  }

  lemma AcceptedHaveMessages(examples: seq<Example>)
    requires ValidateAll(examples).Fine?
    ensures HaveMessages(examples)
  {
    forall i | 0 <= i < |examples| ensures examples[i].zh.Some? && examples[i].en.Some? {
      EachWasValidated(examples, i);
    }
  }
}
