/** How menus, scenes, icons and the entry of an accepted app come from the contributions, field by field. */
module AppShown {
  import opened Basics
  import opened AppContract
  import opened AppAssembly
  import opened AppPages
  import opened AppCatalog
  import opened AppAcceptance

  // ----- menus -----------------------------------------------------------------------------------

  /** Of the first n groups those that have items. */
  function ShownBefore(groups: seq<Group>, n: nat): nat
    requires n <= |groups|
  {
    if n == 0 then 0 else ShownBefore(groups, n - 1) + if groups[n - 1].items == [] then 0 else 1
  }

  /** The group under the example's name: its labels are the example's, its paths in normal form. */
  ghost predicate IsShownAs(id: string, group: Group, shown: Group) {
    && shown.id == id + ":" + group.id && shown.labelKey == id + "." + group.labelKey
    && |shown.items| == |group.items|
    && forall j :: 0 <= j < |group.items| ==>
         && shown.items[j].id == id + ":" + group.items[j].id
         && shown.items[j].labelKey == id + "." + group.items[j].labelKey
         && Normalize(group.items[j].path) == Fine(shown.items[j].path)
  }

  ghost predicate ArePathsFine(groups: seq<Group>) {
    forall g, j :: 0 <= g < |groups| && 0 <= j < |groups[g].items| ==> Normalize(groups[g].items[j].path).Fine?
  }

  /** The group, if it has items, stands after those of the groups before it that have some. */
  ghost predicate GroupStands(id: string, groups: seq<Group>, g: nat, shown: seq<Group>)
    requires g < |groups|
  {
    ShownBefore(groups, g) < |shown| && IsShownAs(id, groups[g], shown[ShownBefore(groups, g)])
  }

  lemma GroupStays(id: string, groups: seq<Group>, g: nat, before: seq<Group>, more: seq<Group>)
    requires g < |groups| && GroupStands(id, groups, g, before)
    ensures GroupStands(id, groups, g, before + more)
  {
  }

  lemma GroupComes(id: string, groups: seq<Group>, g: nat, before: seq<Group>)
    requires g < |groups| && groups[g].items != [] && ArePathsFine(groups) && |before| == ShownBefore(groups, g)
    ensures var group := groups[g];
            GroupStands(id, groups, g,
                        before + [Group(id + ":" + group.id, Key(id, group.labelKey), ItemsOf(id, group.items))])
  {
  }

  lemma {:induction false} GroupsAreInOrder(id: string, groups: seq<Group>, n: nat)
    requires n <= |groups| && ArePathsFine(groups)
    ensures var shown := NavigationOf(id, groups[..n]);
            && |shown| == ShownBefore(groups, n)
            && forall g :: 0 <= g < n && groups[g].items != [] ==> GroupStands(id, groups, g, shown)
  {
    hide GroupStands, ItemsOf, ArePathsFine;
    if n > 0 {
      GroupsAreInOrder(id, groups, n - 1);
      assert groups[..n][..n - 1] == groups[..n - 1];
      var last, before := groups[n - 1], NavigationOf(id, groups[..n - 1]);
      if last.items != [] {
        var added := [Group(id + ":" + last.id, Key(id, last.labelKey), ItemsOf(id, last.items))];
        assert NavigationOf(id, groups[..n]) == before + added;
        forall g | 0 <= g < n && groups[g].items != [] ensures GroupStands(id, groups, g, before + added) {
          if g < n - 1 {
            GroupStays(id, groups, g, before, added);
          } else {
            GroupComes(id, groups, g, before);
          }
        }
      } else {
        assert NavigationOf(id, groups[..n]) == before;
      }
    }
  }

  lemma GroupsOfOne(id: string, groups: seq<Group>)
    requires ArePathsFine(groups)
    ensures var shown := NavigationOf(id, groups);
            && |shown| == ShownBefore(groups, |groups|)
            && forall g :: 0 <= g < |groups| && groups[g].items != [] ==> GroupStands(id, groups, g, shown)
  {
    assert groups[..|groups|] == groups;
    GroupsAreInOrder(id, groups, |groups|);
  }

  /** The groups with items of the first n examples. */
  function GroupsBefore(examples: seq<Example>, n: nat): nat
    requires n <= |examples|
  {
    if n == 0 then 0
    else GroupsBefore(examples, n - 1) + ShownBefore(examples[n - 1].navigation, |examples[n - 1].navigation|)
  }

  /** The example's group stands among the menus at the place it has, counted from where they start. */
  ghost predicate MenuStands(x: Example, g: nat, start: nat, menus: seq<Group>)
    requires g < |x.navigation|
  {
    && start + ShownBefore(x.navigation, g) < |menus|
    && IsShownAs(x.id, x.navigation[g], menus[start + ShownBefore(x.navigation, g)])
  }

  ghost predicate AreTheMenus(examples: seq<Example>, n: nat, menus: seq<Group>)
    requires n <= |examples|
  {
    && |menus| == GroupsBefore(examples, n)
    && forall i, g :: 0 <= i < n && 0 <= g < |examples[i].navigation| && examples[i].navigation[g].items != [] ==>
         MenuStands(examples[i], g, GroupsBefore(examples, i), menus)
  }

  lemma MenuStays(x: Example, g: nat, start: nat, before: seq<Group>, more: seq<Group>)
    requires g < |x.navigation| && MenuStands(x, g, start, before)
    ensures MenuStands(x, g, start, before + more)
  {
  }

  lemma MenuComes(x: Example, g: nat, before: seq<Group>)
    requires ArePathsFine(x.navigation) && g < |x.navigation| && x.navigation[g].items != []
    ensures MenuStands(x, g, |before|, before + NavigationOf(x.id, x.navigation))
  {
    hide NavigationOf;
    GroupsOfOne(x.id, x.navigation);
    assert GroupStands(x.id, x.navigation, g, NavigationOf(x.id, x.navigation));
  }

  lemma MenusOfOneMore(examples: seq<Example>, n: nat, before: seq<Group>)
    requires n < |examples| && AreTheMenus(examples, n, before) && ArePathsFine(examples[n].navigation)
    ensures AreTheMenus(examples, n + 1, before + NavigationOf(examples[n].id, examples[n].navigation))
  {
    hide NavigationOf, MenuStands, ArePathsFine;
    var more := NavigationOf(examples[n].id, examples[n].navigation);
    GroupsOfOne(examples[n].id, examples[n].navigation);
    forall i, g | 0 <= i < n + 1 && 0 <= g < |examples[i].navigation| && examples[i].navigation[g].items != []
      ensures MenuStands(examples[i], g, GroupsBefore(examples, i), before + more)
    {
      if i < n {
        MenuStays(examples[i], g, GroupsBefore(examples, i), before, more);
      } else {
        MenuComes(examples[n], g, before);
      }
    }
  }

  lemma {:induction false} MenusAreInOrder(examples: seq<Example>, n: nat)
    requires n <= |examples| && forall i :: 0 <= i < |examples| ==> ArePathsFine(examples[i].navigation)
    ensures AreTheMenus(examples, n, AllNavigation(examples[..n]))
  {
    if n > 0 {
      MenusAreInOrder(examples, n - 1);
      assert examples[..n][..n - 1] == examples[..n - 1];
      MenusOfOneMore(examples, n - 1, AllNavigation(examples[..n - 1]));
    }
  }

  lemma PathsAreFine(examples: seq<Example>, i: nat)
    requires ValidateAll(examples).Fine? && i < |examples|
    ensures ArePathsFine(examples[i].navigation)
  {
    forall g, j | 0 <= g < |examples[i].navigation| && 0 <= j < |examples[i].navigation[g].items|
      ensures Normalize(examples[i].navigation[g].items[j].path).Fine?
    {
      ItemWasChecked(examples, i, g, j);
    }
  }

  /**
   * The app's menus are the contributed groups that have items, in order, under
   * the names of their examples, and there is no other.
   */
  lemma AppHasTheMenus(core: Core, examples: seq<Example>, pinned: Option<string>)
    requires Assemble(core, examples, pinned).Fine?
    ensures AreTheMenus(examples, |examples|, Assemble(core, examples, pinned).value.navigation)
  {
    hide Assemble, AreTheMenus, ValidateAll, ArePathsFine;
    PartsOf(core, examples, pinned);
    forall i | 0 <= i < |examples| ensures ArePathsFine(examples[i].navigation) {
      PathsAreFine(examples, i);
    }
    MenusAreInOrder(examples, |examples|);
  }

  // ----- scenes ----------------------------------------------------------------------------------

  function ScenesBefore(examples: seq<Example>, n: nat): nat
    requires n <= |examples|
  {
    if n == 0 then 0 else ScenesBefore(examples, n - 1) + |examples[n - 1].scenes|
  }

  /** An empty description is none. */
  ghost predicate IsSceneOf(id: string, scene: Scene, shown: Scene) {
    && shown.exampleId == id && shown.id == scene.id && shown.titleKey == id + "." + scene.titleKey
    && shown.descriptionKey == match scene.descriptionKey
                               case None => None
                               case Some(key) => if key == "" then None else Some(id + "." + key)
  }

  ghost predicate SceneStands(x: Example, j: nat, start: nat, scenes: seq<Scene>)
    requires j < |x.scenes|
  {
    start + j < |scenes| && IsSceneOf(x.id, x.scenes[j], scenes[start + j])
  }

  ghost predicate AreTheScenes(examples: seq<Example>, n: nat, scenes: seq<Scene>)
    requires n <= |examples|
  {
    && |scenes| == ScenesBefore(examples, n)
    && forall i, j :: 0 <= i < n && 0 <= j < |examples[i].scenes| ==>
         SceneStands(examples[i], j, ScenesBefore(examples, i), scenes)
  }

  lemma SceneStays(x: Example, j: nat, start: nat, before: seq<Scene>, more: seq<Scene>)
    requires j < |x.scenes| && SceneStands(x, j, start, before)
    ensures SceneStands(x, j, start, before + more)
  {
  }

  lemma SceneComes(x: Example, j: nat, before: seq<Scene>)
    requires j < |x.scenes|
    ensures SceneStands(x, j, |before|, before + ScenesOf(x.id, x.scenes))
  {
  }

  lemma ScenesOfOneMore(examples: seq<Example>, n: nat, before: seq<Scene>)
    requires n < |examples| && AreTheScenes(examples, n, before)
    ensures AreTheScenes(examples, n + 1, before + ScenesOf(examples[n].id, examples[n].scenes))
  {
    hide SceneStands;
    var more := ScenesOf(examples[n].id, examples[n].scenes);
    forall i, j | 0 <= i < n + 1 && 0 <= j < |examples[i].scenes|
      ensures SceneStands(examples[i], j, ScenesBefore(examples, i), before + more)
    {
      if i < n {
        SceneStays(examples[i], j, ScenesBefore(examples, i), before, more);
      } else {
        SceneComes(examples[n], j, before);
      }
    }
  }

  lemma {:induction false} ScenesAreInOrder(examples: seq<Example>, n: nat)
    requires n <= |examples|
    ensures AreTheScenes(examples, n, AllScenes(examples[..n]))
  {
    if n > 0 {
      ScenesAreInOrder(examples, n - 1);
      assert examples[..n][..n - 1] == examples[..n - 1];
      ScenesOfOneMore(examples, n - 1, AllScenes(examples[..n - 1]));
    }
  }

  /** The app's scenes are the contributed ones, in order, and there is no other. */
  lemma AppHasTheScenes(core: Core, examples: seq<Example>, pinned: Option<string>)
    requires Assemble(core, examples, pinned).Fine?
    ensures AreTheScenes(examples, |examples|, Assemble(core, examples, pinned).value.scenes)
  {
    hide Assemble, AreTheScenes;
    PartsOf(core, examples, pinned);
    ScenesAreInOrder(examples, |examples|);
  }

  // ----- the entry -------------------------------------------------------------------------------

  /** The first example that declares an entry. */
  ghost predicate IsFirstDeclarer(examples: seq<Example>, i: int) {
    0 <= i < |examples| && examples[i].defaultEntry.Some? && forall k :: 0 <= k < i ==> examples[k].defaultEntry.None?
  }

  lemma {:induction false} FirstEntryIsDeclared(examples: seq<Example>)
    ensures FirstEntry(examples).None? <==> forall i :: 0 <= i < |examples| ==> examples[i].defaultEntry.None?
    ensures forall i :: IsFirstDeclarer(examples, i) ==> FirstEntry(examples) == examples[i].defaultEntry
  {
    if examples != [] && examples[0].defaultEntry.None? {
      var rest := examples[1..];
      FirstEntryIsDeclared(rest);
      assert forall k :: 0 < k < |examples| ==> examples[k] == rest[k - 1];
      forall i | IsFirstDeclarer(examples, i) ensures FirstEntry(examples) == examples[i].defaultEntry {
        assert IsFirstDeclarer(rest, i - 1);
      }
    }
  }

  /**
   * After login the app shows the pinned page if one is pinned, else the entry of
   * the first example that declares one, and else the shell's home.
   */
  lemma AppStartsAtTheEntry(core: Core, examples: seq<Example>, pinned: Option<string>)
    requires Assemble(core, examples, pinned).Fine?
    ensures var entry := Assemble(core, examples, pinned).value.defaultEntry;
            && (pinned.Some? ==> Normalize(pinned.value) == Fine(entry))
            && (pinned.None? ==> forall i :: IsFirstDeclarer(examples, i) ==>
                  Normalize(examples[i].defaultEntry.value) == Fine(entry))
            && (pinned.None? && (forall i :: 0 <= i < |examples| ==> examples[i].defaultEntry.None?) ==> entry == "/")
  {
    FirstEntryIsDeclared(examples);
    hide ValidateAll, Register, Normalize;
  }

  // ----- icons -----------------------------------------------------------------------------------

  /** The last of the entries for its path. */
  ghost predicate IsLastFor(icons: seq<(string, Icon)>, j: nat, path: string) {
    && j < |icons| && Normalize(icons[j].0) == Fine(path)
    && forall k :: j < k < |icons| ==> Normalize(icons[k].0) != Fine(path)
  }

  lemma {:induction false} LastIconWins(icons: seq<(string, Icon)>, before: map<string, Icon>, j: nat, path: string)
    requires IsLastFor(icons, j, path)
    ensures path in AddIcons(icons, before) && AddIcons(icons, before)[path] == icons[j].1
  {
    var front := icons[..|icons| - 1];
    if j < |front| {
      assert IsLastFor(front, j, path);
      LastIconWins(front, before, j, path);
    }
  }

  lemma IconIsOwn(examples: seq<Example>, i: nat, j: nat, path: string)
    requires ValidateAll(examples).Fine? && i < |examples| && IsLastFor(examples[i].icons, j, path)
    ensures path in OwnRoutes(examples[i].routes)
  {
    IconsWereChecked(examples, i);
    hide ValidateAll, OwnRoutes, IconsProblem;
    IconPathIsOwn(examples[i].icons, OwnRoutes(examples[i].routes), j);
  }

  lemma IconsWereChecked(examples: seq<Example>, i: nat)
    requires ValidateAll(examples).Fine? && i < |examples|
    ensures IconsProblem(examples[i].icons, OwnRoutes(examples[i].routes)).None?
  {
    EachWasValidated(examples, i);
    ValidatedIcons(examples[i], Ids(examples[..i]), ValidateAll(examples[..i]).value);
  }

  lemma OthersKeepIcon(examples: seq<Example>, k: nat, before: map<string, Icon>, path: string)
    requires ValidateAll(examples).Fine? && k < |examples| && path !in OwnRoutes(examples[k].routes) && path in before
    ensures var after := AddIcons(examples[k].icons, before); path in after && after[path] == before[path]
  {
    IconsWereChecked(examples, k);
    IconsAreOwn(examples[k].icons, OwnRoutes(examples[k].routes), before);
  }

  lemma {:induction false} IconIsKept(examples: seq<Example>, core: map<string, Icon>, n: nat, i: nat, j: nat,
                                      path: string)
    requires ValidateAll(examples).Fine? && i < n <= |examples| && IsLastFor(examples[i].icons, j, path)
    ensures var icons := MergedIcons(core, examples[..n]); path in icons && icons[path] == examples[i].icons[j].1
  {
    hide ValidateAll, AddIcons, OwnRoutes;
    assert examples[..n][..n - 1] == examples[..n - 1];
    var before := MergedIcons(core, examples[..n - 1]);
    if i == n - 1 {
      LastIconWins(examples[i].icons, before, j, path);
    } else {
      IconIsKept(examples, core, n - 1, i, j, path);
      IconIsOwn(examples, i, j, path);
      ContributorsAreDistinct(examples, i, n - 1);
      OthersKeepIcon(examples, n - 1, before, path);
    }
  }

  lemma {:induction false} IconPathIsOwn(icons: seq<(string, Icon)>, own: set<string>, j: nat)
    requires IconsProblem(icons, own).None? && j < |icons|
    ensures Normalize(icons[j].0).Fine? && Normalize(icons[j].0).value in own
  {
    if j < |icons| - 1 {
      IconPathIsOwn(icons[..|icons| - 1], own, j);
    }
  }

  /** A page wears the icon its example lists for it, the last one if there are several. */
  lemma PagesWearTheirIcons(core: Core, examples: seq<Example>, pinned: Option<string>, i: nat, j: nat, path: string)
    requires Assemble(core, examples, pinned).Fine? && i < |examples| && IsLastFor(examples[i].icons, j, path)
    ensures var icons := Assemble(core, examples, pinned).value.icons;
            path in icons && icons[path] == examples[i].icons[j].1
  {
    hide Assemble, MergedIcons;
    PartsOf(core, examples, pinned);
    IconIsKept(examples, core.icons, |examples|, i, j, path);
  }

  // ----- texts -----------------------------------------------------------------------------------

  /** A text declared by an example is shown under the example's name, in each language; English stands in for it. */
  lemma ExamplesSpeakTheirTexts(core: Core, examples: seq<Example>, pinned: Option<string>, i: nat, k: string)
    requires Assemble(core, examples, pinned).Fine? && i < |examples|
    ensures examples[i].zh.Some? && examples[i].en.Some?
    ensures var (app, x) := (Assemble(core, examples, pinned).value, examples[i]);
            && (k in x.zh.value ==> Resolve(app, false, x.id + "." + k) == Some(x.zh.value[k]))
            && (k in x.en.value ==> Resolve(app, true, x.id + "." + k) == Some(x.en.value[k]))
            && (x.id + "." + k !in app.zh ==> Resolve(app, false, x.id + "." + k) == Resolve(app, true, x.id + "." + k))
  {
    hide Assemble, Merged, Register, ValidateAll;
    AssembledCatalogs(core, examples, pinned);
    var x := examples[i];
    TextsAreNamespaced(x, k);
    if k in x.zh.value {
      OwnText(core.zh, examples, false, i, x.id + "." + k);
    }
    if k in x.en.value {
      OwnText(core.en, examples, true, i, x.id + "." + k);
    }
  }

  lemma TextsAreNamespaced(x: Example, k: string)
    requires x.zh.Some? && x.en.Some?
    ensures k in x.zh.value ==>
              x.id + "." + k in CatalogOf(x, false) && CatalogOf(x, false)[x.id + "." + k] == x.zh.value[k]
    ensures k in x.en.value ==>
              x.id + "." + k in CatalogOf(x, true) && CatalogOf(x, true)[x.id + "." + k] == x.en.value[k]
  {
    SameIdKeysAreDistinct(x.id);
    assert Key(x.id, k) == x.id + "." + k;
  }

  // ----- when there is an app at all -------------------------------------------------------------

  /** The pinned page, if one is pinned, is a contributed one. */
  ghost predicate IsUsablePin(examples: seq<Example>, pinned: Option<string>) {
    pinned.Some? ==> Normalize(pinned.value).Fine? && SomeoneContributes(examples, Normalize(pinned.value).value)
  }

  predicate Declares(x: Example, k: string) {
    (x.zh.Some? && k in x.zh.value) || (x.en.Some? && k in x.en.value)
  }

  /** The example declares a text that Core has under the same name, and is not called "core". */
  ghost predicate DeclaresTextOfCore(core: Core, x: Example) {
    x.id != "core" && exists k :: Declares(x, k) && (x.id + "." + k in core.zh || x.id + "." + k in core.en)
  }

  lemma TakingOverIsDeclaring(core: Core, x: Example)
    requires x.zh.Some? && x.en.Some?
    ensures TakesOver(core, x) <==> DeclaresTextOfCore(core, x)
  {
    if TakesOver(core, x) {
      var key :| key in KeysOf(x) && key in CoreKeys(core);
      var k :| (k in x.zh.value || k in x.en.value) && key == Key(x.id, k);
      assert Declares(x, k) && x.id + "." + k == key;
    }
    if DeclaresTextOfCore(core, x) {
      var k :| Declares(x, k) && (x.id + "." + k in core.zh || x.id + "." + k in core.en);
      assert Key(x.id, k) == x.id + "." + k;
      assert Key(x.id, k) in KeysOf(x);
    }
  }

  lemma {:induction false} EntriesAreOwn(examples: seq<Example>, n: nat)
    requires ValidateAll(examples).Fine? && n <= |examples|
    ensures var entry := FirstEntry(examples[n..]);
            entry.Some? ==> Normalize(entry.value).Fine? && SomeoneContributes(examples, Normalize(entry.value).value)
    decreases |examples| - n
  {
    hide ValidateAll, Normalize, OwnRoutes;
    if n < |examples| {
      assert examples[n..][0] == examples[n] && examples[n..][1..] == examples[n + 1..];
      if examples[n].defaultEntry.Some? {
        EntryIsOwn(examples, n);
        assert Contributes(examples[n], Normalize(examples[n].defaultEntry.value).value);
      } else {
        EntriesAreOwn(examples, n + 1);
      }
    }
  }

  lemma EntryIsOwn(examples: seq<Example>, i: nat)
    requires ValidateAll(examples).Fine? && i < |examples| && examples[i].defaultEntry.Some?
    ensures var path := Normalize(examples[i].defaultEntry.value); path.Fine? && Contributes(examples[i], path.value)
  {
    AcceptedExactlyWhen(examples);
    assert Acceptable(examples, i);
    hide ValidateAll;
  }

  lemma EntryIsFound(examples: seq<Example>, pinned: Option<string>)
    requires ValidateAll(examples).Fine?
    ensures SelectEntry(pinned, examples, ValidateAll(examples).value).Fine? <==> IsUsablePin(examples, pinned)
  {
    hide ValidateAll, Normalize;
    EntriesAreOwn(examples, 0);
    assert examples[0..] == examples;
    OwnersAreContributors(examples);
  }

  /**
   * An app is assembled exactly when every contribution is acceptable after those
   * before it, none declares a text of Core's, and the pinned page exists.
   */
  lemma AssembledExactlyWhen(core: Core, examples: seq<Example>, pinned: Option<string>)
    ensures Assemble(core, examples, pinned).Fine?
       <==> && (forall i :: 0 <= i < |examples| ==> Acceptable(examples, i))
            && (forall i :: 0 <= i < |examples| ==> !DeclaresTextOfCore(core, examples[i]))
            && IsUsablePin(examples, pinned)
  {
    AcceptedExactlyWhen(examples);
    hide ValidateAll, Acceptable, Register, DeclaresTextOfCore, IsUsablePin, SelectEntry, TakesOver;
    if ValidateAll(examples).Fine? {
      AcceptedAreWellNamed(examples);
      TakeoverIsOfCore(core, examples);
      forall i | 0 <= i < |examples| ensures TakesOver(core, examples[i]) <==> DeclaresTextOfCore(core, examples[i]) {
        TakingOverIsDeclaring(core, examples[i]);
      }
      EntryIsFound(examples, pinned);
    }
  }
}
