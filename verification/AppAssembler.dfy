/**
 * The assembly as the shell performs it, one contribution after the other:
 * packages/views/src/shell/app-contract.ts, validatedExample and assembleApp.
 */
module AppAssembler {
  import opened Basics
  import opened AppContract

  // ----- what a loop has done so far -------------------------------------------------------------------

  lemma {:induction false} RoutesStop(routes: seq<string>, id: string, seen: map<string, string>, i: nat)
    requires i <= |routes| && AddRoutes(routes[..i], id, seen).Refused?
    ensures AddRoutes(routes, id, seen) == AddRoutes(routes[..i], id, seen)
    decreases |routes|
  {
    if i == |routes| {
      assert routes[..i] == routes;
    } else {
      var front := routes[..|routes| - 1];
      assert front[..i] == routes[..i];
      RoutesStop(front, id, seen, i);
    }
  }

  lemma {:induction false} ItemsStop(items: seq<Item>, seen: map<string, string>, i: nat)
    requires i <= |items| && ItemsProblem(items[..i], seen).Some?
    ensures ItemsProblem(items, seen) == ItemsProblem(items[..i], seen)
    decreases |items|
  {
    if i == |items| {
      assert items[..i] == items;
    } else {
      var front := items[..|items| - 1];
      assert front[..i] == items[..i];
      ItemsStop(front, seen, i);
    }
  }

  lemma {:induction false} GroupsStop(groups: seq<Group>, seen: map<string, string>, i: nat)
    requires i <= |groups| && NavigationProblem(groups[..i], seen).Some?
    ensures NavigationProblem(groups, seen) == NavigationProblem(groups[..i], seen)
    decreases |groups|
  {
    if i == |groups| {
      assert groups[..i] == groups;
    } else {
      var front := groups[..|groups| - 1];
      assert front[..i] == groups[..i];
      GroupsStop(front, seen, i);
    }
  }

  lemma {:induction false} IconsStop(icons: seq<(string, Icon)>, own: set<string>, i: nat)
    requires i <= |icons| && IconsProblem(icons[..i], own).Some?
    ensures IconsProblem(icons, own) == IconsProblem(icons[..i], own)
    decreases |icons|
  {
    if i == |icons| {
      assert icons[..i] == icons;
    } else {
      var front := icons[..|icons| - 1];
      assert front[..i] == icons[..i];
      IconsStop(front, own, i);
    }
  }

  function Restricted(catalog: Catalog, keys: set<string>): Catalog {
    map k | k in catalog && k in keys :: catalog[k]
  }

  lemma NamespacedText(id: string, catalog: Catalog, k: string)
    ensures Key(id, k) in Namespaced(id, catalog) <==> k in catalog
    ensures k in catalog ==> Namespaced(id, catalog)[Key(id, k)] == catalog[k]
  {
    SameIdKeysAreDistinct(id);
  }

  lemma NamespacedOnly(id: string, catalog: Catalog, key: string)
    requires key in Namespaced(id, catalog)
    ensures |key| > |id| && key == Key(id, key[|id| + 1..]) && key[|id| + 1..] in catalog
  {
    var k :| k in catalog && key == Key(id, k);
    assert key[|id| + 1..] == k;
  }

  lemma NamespacedNext(id: string, catalog: Catalog, done: set<string>, k: string)
    requires k in catalog
    ensures Namespaced(id, Restricted(catalog, done + {k}))
         == Namespaced(id, Restricted(catalog, done))[Key(id, k) := catalog[k]]
  {
    var less, more := Restricted(catalog, done), Restricted(catalog, done + {k});
    forall key ensures key in Namespaced(id, more) <==> key in Namespaced(id, less)[Key(id, k) := catalog[k]] {
      NextKey(id, catalog, done, k, key);
    }
    forall key | key in Namespaced(id, more)
      ensures Namespaced(id, more)[key] == Namespaced(id, less)[Key(id, k) := catalog[k]][key] {
      NextKey(id, catalog, done, k, key);
    }
  }

  lemma NextKey(id: string, catalog: Catalog, done: set<string>, k: string, key: string)
    requires k in catalog
    ensures var before := Namespaced(id, Restricted(catalog, done));
            var after := Namespaced(id, Restricted(catalog, done + {k}));
            && (key in after <==> key in before || key == Key(id, k))
            && (key in after ==> after[key] == if key == Key(id, k) then catalog[k] else before[key])
  {
    var less, more := Restricted(catalog, done), Restricted(catalog, done + {k});
    NamespacedText(id, more, k);
    if key == Key(id, k) {
    } else if key in Namespaced(id, more) {
      NamespacedOnly(id, more, key);
      NamespacedText(id, more, key[|id| + 1..]);
      NamespacedText(id, less, key[|id| + 1..]);
    } else if key in Namespaced(id, less) {
      NamespacedOnly(id, less, key);
      NamespacedText(id, more, key[|id| + 1..]);
    }
  }

  // ----- the loops -----------------------------------------------------------------------------------

  /** The keys of one catalog that the other lacks. */
  method CheckTexts(of: Catalog, other: Catalog) returns (complete: bool)
    ensures complete <==> Complete(of, other)
  {
    var rest := of.Keys;
    while rest != {}
      invariant rest <= of.Keys && forall k :: k in of && k !in rest ==> !Lacks(other, k)
      decreases |rest|
    {
      var k :| k in rest;
      if Lacks(other, k) { return false; }
      rest := rest - {k};
    }
    return true;
  }

  method CheckDeclared(keys: set<string>, zh: Catalog) returns (declared: bool)
    ensures declared <==> forall k :: k in keys ==> Has(zh, k)
  {
    var rest := keys;
    while rest != {}
      invariant rest <= keys && forall k :: k in keys && k !in rest ==> Has(zh, k)
      decreases |rest|
    {
      var k :| k in rest;
      if !Has(zh, k) { return false; }
      rest := rest - {k};
    }
    return true;
  }

  method Namespace(id: string, catalog: Catalog) returns (messages: Catalog)
    ensures messages == Namespaced(id, catalog)
  {
    messages := map[];
    var rest := catalog.Keys;
    ghost var done: set<string> := {};
    NamespacedNone(id, catalog);
    while rest != {}
      invariant forall k :: k in catalog <==> k in rest || k in done
      invariant rest !! done && messages == Namespaced(id, Restricted(catalog, done))
      decreases |rest|
    {
      var k :| k in rest;
      NamespacedNext(id, catalog, done, k);
      messages, rest, done := messages[Key(id, k) := catalog[k]], rest - {k}, done + {k};
    }
    RestrictedAll(catalog, done);
  }

  lemma NamespacedNone(id: string, catalog: Catalog)
    ensures Namespaced(id, Restricted(catalog, {})) == map[]
  {
    assert Restricted(catalog, {}) == map[];
  }

  lemma RestrictedAll(catalog: Catalog, keys: set<string>)
    requires forall k :: k in catalog ==> k in keys
    ensures Restricted(catalog, keys) == catalog
  {
  }

  method ReadItems(items: seq<Item>, seen: map<string, string>) returns (problem: Option<Problem>, keys: set<string>)
    ensures problem == ItemsProblem(items, seen)
    ensures problem.None? ==> keys == ItemKeys(items)
  {
    keys := {};
    for j := 0 to |items|
      invariant ItemsProblem(items[..j], seen).None? && keys == ItemKeys(items[..j])
    {
      assert items[..j + 1][..j] == items[..j];
      keys := keys + {items[j].labelKey};
      ItemKeysNext(items, j);
      var path := Normalize(items[j].path);
      if path.Refused? || path.value !in seen {
        ItemsStop(items, seen, j + 1);
        return Some(if path.Refused? then path.problem else ForeignItem), keys;
      }
    }
    assert items[..|items|] == items;
    return None, keys;
  }

  lemma ItemKeysNext(items: seq<Item>, j: nat)
    requires j < |items|
    ensures ItemKeys(items[..j + 1]) == ItemKeys(items[..j]) + {items[j].labelKey}
  {
    assert items[..j + 1] == items[..j] + [items[j]];
    forall k | k in ItemKeys(items[..j]) ensures k in ItemKeys(items[..j + 1]) {
      var i :| 0 <= i < j && items[..j][i].labelKey == k;
      assert items[..j + 1][i].labelKey == k;
    }
    assert items[..j + 1][j].labelKey == items[j].labelKey;
    forall k | k in ItemKeys(items[..j + 1]) ensures k in ItemKeys(items[..j]) + {items[j].labelKey} {
      var i :| 0 <= i < j + 1 && items[..j + 1][i].labelKey == k;
      if i < j {
        assert items[..j][i].labelKey == k;
      }
    }
  }

  method ReadNavigation(id: string, groups: seq<Group>, seen: map<string, string>)
    returns (problem: Option<Problem>, keys: set<string>, navigation: seq<Group>)
    ensures problem == NavigationProblem(groups, seen)
    ensures problem.None? ==> keys == NavigationKeys(groups) && navigation == NavigationOf(id, groups)
  {
    keys, navigation := {}, [];
    for g := 0 to |groups|
      invariant NavigationProblem(groups[..g], seen).None?
      invariant keys == NavigationKeys(groups[..g]) && navigation == NavigationOf(id, groups[..g])
    {
      assert groups[..g + 1][..g] == groups[..g];
      var group := groups[g];
      if group.items == [] {
        continue;
      }
      var trouble, itemKeys := ReadItems(group.items, seen);
      if trouble.Some? {
        GroupsStop(groups, seen, g + 1);
        return trouble, keys, navigation;
      }
      keys := keys + ({group.labelKey} + itemKeys);
      navigation := navigation + [Group(id + ":" + group.id, Key(id, group.labelKey), ItemsOf(id, group.items))];
    }
    assert groups[..|groups|] == groups;
    return None, keys, navigation;
  }

  method ReadScenes(id: string, scenes: seq<Scene>) returns (keys: set<string>, out: seq<Scene>)
    ensures keys == SceneKeys(scenes) && out == ScenesOf(id, scenes)
  {
    keys, out := {}, [];
    for i := 0 to |scenes|
      invariant keys == SceneKeys(scenes[..i]) && out == ScenesOf(id, scenes[..i])
    {
      assert scenes[..i + 1][..i] == scenes[..i];
      var scene := scenes[i];
      var described := scene.descriptionKey.Some? && scene.descriptionKey.value != "";
      keys := keys + {scene.titleKey} + if described then {scene.descriptionKey.value} else {};
      out := out + [Scene(id, scene.id, Key(id, scene.titleKey),
                          if described then Some(Key(id, scene.descriptionKey.value)) else None)];
    }
    assert scenes[..|scenes|] == scenes;
  }

  method CheckIcons(icons: seq<(string, Icon)>, own: set<string>) returns (problem: Option<Problem>)
    ensures problem == IconsProblem(icons, own)
  {
    for i := 0 to |icons|
      invariant IconsProblem(icons[..i], own).None?
    {
      assert icons[..i + 1][..i] == icons[..i];
      var path := Normalize(icons[i].0);
      if path.Refused? || path.value !in own {
        IconsStop(icons, own, i + 1);
        return Some(if path.Refused? then path.problem else ForeignIcon);
      }
    }
    assert icons[..|icons|] == icons;
    return None;
  }

  method DressRoutes(icons: seq<(string, Icon)>, before: map<string, Icon>) returns (after: map<string, Icon>)
    ensures after == AddIcons(icons, before)
  {
    after := before;
    for i := 0 to |icons|
      invariant after == AddIcons(icons[..i], before)
    {
      assert icons[..i + 1][..i] == icons[..i];
      var path := Normalize(icons[i].0);
      if path.Fine? { after := after[path.value := icons[i].1]; }
    }
    assert icons[..|icons|] == icons;
  }

  /** What one example becomes. */
  datatype Entry = Entry(navigation: seq<Group>, scenes: seq<Scene>, zh: Catalog, en: Catalog)

  ghost predicate IsEntryOf(entry: Entry, x: Example) {
    && x.zh.Some? && x.en.Some?
    && entry == Entry(NavigationOf(x.id, x.navigation), ScenesOf(x.id, x.scenes), Namespaced(x.id, x.zh.value),
                      Namespaced(x.id, x.en.value))
  }

  ghost predicate AreEntriesOf(entries: seq<Entry>, examples: seq<Example>) {
    |entries| <= |examples| && forall i :: 0 <= i < |entries| ==> IsEntryOf(entries[i], examples[i])
  }

  lemma EntriesNext(entries: seq<Entry>, entry: Entry, examples: seq<Example>)
    requires |entries| < |examples| && AreEntriesOf(entries, examples) && IsEntryOf(entry, examples[|entries|])
    ensures AreEntriesOf(entries + [entry], examples)
  {
  }

  lemma IdsNext(examples: seq<Example>, i: nat)
    requires i < |examples|
    ensures Ids(examples[..i + 1]) == Ids(examples[..i]) + {examples[i].id}
  {
    var before, after := examples[..i], examples[..i + 1];
    assert after == before + [examples[i]];
    forall id | id in Ids(before) + {examples[i].id} ensures id in Ids(after) {
      if id != examples[i].id {
        var j :| 0 <= j < i && before[j].id == id;
        assert after[j].id == id;
      } else {
        assert after[i].id == id;
      }
    }
    forall id | id in Ids(after) ensures id in Ids(before) + {examples[i].id} {
      var j :| 0 <= j < i + 1 && after[j].id == id;
      assert j < i ==> before[j].id == id;
    }
  }

  lemma ValidateNext(examples: seq<Example>, i: nat, seen: map<string, string>)
    requires i < |examples| && ValidateAll(examples[..i]) == Fine(seen)
    ensures ValidateAll(examples[..i + 1]) == Validate(examples[i], Ids(examples[..i]), seen)
  {
    assert examples[..i + 1][..i] == examples[..i];
  }

  class Assembler {
    var seenIds: set<string>
    var seenRoutes: map<string, string>

    constructor ()
      ensures seenIds == {} && seenRoutes == map[]
    {
      seenIds, seenRoutes := {}, map[];
    }

    method ContributeRoutes(routes: seq<string>, id: string) returns (problem: Option<Problem>)
      modifies `seenRoutes
      ensures match AddRoutes(routes, id, old(seenRoutes))
              case Fine(after) => problem == None && seenRoutes == after
              case Refused(p) => problem == Some(p)
    {
      for i := 0 to |routes|
        invariant AddRoutes(routes[..i], id, old(seenRoutes)) == Fine(seenRoutes)
      {
        assert routes[..i + 1][..i] == routes[..i];
        var path := Normalize(routes[i]);
        if path.Refused? || path.value in RESERVED || path.value in seenRoutes {
          RoutesStop(routes, id, old(seenRoutes), i + 1);
          return Some(if path.Refused? then path.problem
                      else if path.value in RESERVED then ReservedRoute else TakenRoute);
        }
        seenRoutes := seenRoutes[path.value := id];
      }
      assert routes[..|routes|] == routes;
      return None;
    }

    method ValidatedExample(x: Example) returns (r: Checked<Entry>)
      modifies this
      ensures match Validate(x, old(seenIds), old(seenRoutes))
              case Refused(problem) => r == Refused(problem)
              case Fine(after) =>
                seenIds == old(seenIds) + {x.id} && seenRoutes == after && r.Fine? && IsEntryOf(r.value, x)
    {
      if !KebabCase(x.id) { return Refused(BadId); }
      if x.id in seenIds { return Refused(DuplicateId); }
      seenIds := seenIds + {x.id};
      var problem := ContributeRoutes(x.routes, x.id);
      if problem.Some? { return Refused(problem.value); }
      if x.zh.None? || x.en.None? { return Refused(MissingLocale); }
      var english := CheckTexts(x.zh.value, x.en.value);
      if !english { return Refused(MissingText); }
      var chinese := CheckTexts(x.en.value, x.zh.value);
      if !chinese { return Refused(MissingText); }
      var trouble, keys, navigation := ReadNavigation(x.id, x.navigation, seenRoutes);
      if trouble.Some? { return Refused(trouble.value); }
      var sceneKeys, scenes := ReadScenes(x.id, x.scenes);
      var declared := CheckDeclared(keys + sceneKeys, x.zh.value);
      if !declared { return Refused(UndeclaredKey); }
      var zh := Namespace(x.id, x.zh.value);
      var en := Namespace(x.id, x.en.value);
      var entry := EntryProblem(x.defaultEntry, OwnRoutes(x.routes));
      if entry.Some? { return Refused(entry.value); }
      var icons := CheckIcons(x.icons, OwnRoutes(x.routes));
      if icons.Some? { return Refused(icons.value); }
      return Fine(Entry(navigation, scenes, zh, en));
    }

    /** The next of the examples, after the ones before it were accepted. */
    method Contribute(examples: seq<Example>, i: nat) returns (r: Checked<Entry>)
      requires i < |examples| && ValidateAll(examples[..i]) == Fine(seenRoutes) && seenIds == Ids(examples[..i])
      modifies this
      ensures match ValidateAll(examples[..i + 1])
              case Refused(problem) => r == Refused(problem)
              case Fine(after) =>
                seenIds == Ids(examples[..i + 1]) && seenRoutes == after && r.Fine? && IsEntryOf(r.value, examples[i])
    {
      ValidateNext(examples, i, seenRoutes);
      IdsNext(examples, i);
      r := ValidatedExample(examples[i]);
    }
  }

  // ----- all examples together ------------------------------------------------------------------------

  lemma {:induction false} ExamplesStop(examples: seq<Example>, i: nat)
    requires i <= |examples| && ValidateAll(examples[..i]).Refused?
    ensures ValidateAll(examples) == ValidateAll(examples[..i])
    decreases |examples|
  {
    if i == |examples| {
      assert examples[..i] == examples;
    } else {
      var front := examples[..|examples| - 1];
      assert front[..i] == examples[..i];
      ExamplesStop(front, i);
    }
  }

  lemma {:induction false} RegistrationStops(core: Core, examples: seq<Example>, i: nat)
    requires HaveMessages(examples) && i <= |examples| && Register(core, examples[..i]).Refused?
    ensures Register(core, examples) == Register(core, examples[..i])
    decreases |examples|
  {
    if i == |examples| {
      assert examples[..i] == examples;
    } else {
      var front := examples[..|examples| - 1];
      assert front[..i] == examples[..i];
      RegistrationStops(core, front, i);
    }
  }

  lemma ClaimedNone(owners: map<string, string>, id: string)
    ensures Claimed(owners, {}, id) == owners
  {
  }

  lemma ClaimedNext(owners: map<string, string>, keys: set<string>, k: string, id: string)
    requires k !in keys
    ensures Claimed(owners, keys + {k}, id) == Claimed(owners, keys, id)[k := id]
    ensures Collides(owners, keys + {k}, id)
       <==> Collides(owners, keys, id) || (k in Claimed(owners, keys, id) && Claimed(owners, keys, id)[k] != id)
  {
  }

  lemma CollidesMore(owners: map<string, string>, keys: set<string>, more: set<string>, id: string)
    requires keys <= more && Collides(owners, keys, id)
    ensures Collides(owners, more, id)
  {
  }

  lemma ClaimedTwice(owners: map<string, string>, a: set<string>, b: set<string>, id: string)
    ensures Claimed(Claimed(owners, a, id), b, id) == Claimed(owners, a + b, id)
    ensures Collides(owners, a + b, id) <==> Collides(owners, a, id) || Collides(Claimed(owners, a, id), b, id)
  {
    if Collides(owners, a + b, id) && !Collides(owners, a, id) {
      var k :| k in a + b && k in owners && owners[k] != id;
      assert k in Claimed(owners, a, id) && Claimed(owners, a, id)[k] == owners[k];
    }
  }

  /** Whether another owner has one of the keys; if not, they are the example's now. */
  method RegisterKeys(keys: set<string>, id: string, owners: map<string, string>)
    returns (taken: bool, after: map<string, string>)
    ensures taken <==> Collides(owners, keys, id)
    ensures !taken ==> after == Claimed(owners, keys, id)
  {
    after := owners;
    var rest := keys;
    ghost var done: set<string> := {};
    ClaimedNone(owners, id);
    while rest != {}
      invariant forall x :: x in keys <==> x in rest || x in done
      invariant rest !! done
      invariant !Collides(owners, done, id) && after == Claimed(owners, done, id)
      decreases |rest|
    {
      var k :| k in rest;
      ClaimedNext(owners, done, k, id);
      if k in after && after[k] != id {
        CollidesMore(owners, done + {k}, keys, id);
        return true, after;
      }
      after := after[k := id];
      rest := rest - {k};
      done := done + {k};
    }
    assert done == keys;
    return false, after;
  }

  /** The Chinese keys first, then the English ones. */
  method RegisterExample(x: Example, entry: Entry, owners: map<string, string>)
    returns (taken: bool, after: map<string, string>)
    requires IsEntryOf(entry, x)
    ensures taken <==> Collides(owners, KeysOf(x), x.id)
    ensures !taken ==> after == Claimed(owners, KeysOf(x), x.id)
  {
    ClaimedTwice(owners, entry.zh.Keys, entry.en.Keys, x.id);
    taken, after := RegisterKeys(entry.zh.Keys, x.id, owners);
    if !taken {
      taken, after := RegisterKeys(entry.en.Keys, x.id, after);
    }
  }

  method ValidateExamples(examples: seq<Example>) returns (r: Checked<(map<string, string>, seq<Entry>)>)
    ensures match ValidateAll(examples)
            case Refused(problem) => r == Refused(problem)
            case Fine(seen) =>
              r.Fine? && r.value.0 == seen && |r.value.1| == |examples| && AreEntriesOf(r.value.1, examples)
  {
    var assembler := new Assembler();
    var entries: seq<Entry> := [];
    for i := 0 to |examples|
      invariant ValidateAll(examples[..i]) == Fine(assembler.seenRoutes) && assembler.seenIds == Ids(examples[..i])
      invariant |entries| == i && AreEntriesOf(entries, examples)
    {
      var checked := assembler.Contribute(examples, i);
      if checked.Refused? {
        ExamplesStop(examples, i + 1);
        return Refused(checked.problem);
      }
      EntriesNext(entries, checked.value, examples);
      entries := entries + [checked.value];
    }
    assert examples[..|examples|] == examples;
    return Fine((assembler.seenRoutes, entries));
  }

  lemma MergedNext(core: Catalog, examples: seq<Example>, english: bool, i: nat)
    requires HaveMessages(examples) && i < |examples|
    ensures Merged(core, examples[..i + 1], english)
         == Merged(core, examples[..i], english)
            + Namespaced(examples[i].id, if english then examples[i].en.value else examples[i].zh.value)
  {
    assert examples[..i + 1][..i] == examples[..i];
  }

  lemma RegisterNext(core: Core, examples: seq<Example>, i: nat, owners: map<string, string>)
    requires HaveMessages(examples) && i < |examples| && Register(core, examples[..i]) == Fine(owners)
    ensures var x := examples[i];
            Register(core, examples[..i + 1])
            == if Collides(owners, KeysOf(x), x.id) then Refused(Takeover) else Fine(Claimed(owners, KeysOf(x), x.id))
  {
    assert examples[..i + 1][..i] == examples[..i];
  }

  method MergeMessages(core: Core, examples: seq<Example>, entries: seq<Entry>) returns (r: Checked<(Catalog, Catalog)>)
    requires HaveMessages(examples) && |entries| == |examples| && AreEntriesOf(entries, examples)
    ensures match Register(core, examples)
            case Refused(problem) => r == Refused(problem)
            case Fine(_) => r == Fine((Merged(core.zh, examples, false), Merged(core.en, examples, true)))
  {
    var zh, en := core.zh, core.en;
    var owners := map k | k in core.zh.Keys + core.en.Keys :: "core";
    for i := 0 to |examples|
      invariant Register(core, examples[..i]) == Fine(owners)
      invariant zh == Merged(core.zh, examples[..i], false) && en == Merged(core.en, examples[..i], true)
    {
      RegisterNext(core, examples, i, owners);
      MergedNext(core.zh, examples, false, i);
      MergedNext(core.en, examples, true, i);
      var taken;
      taken, owners := RegisterExample(examples[i], entries[i], owners);
      if taken {
        RegistrationStops(core, examples, i + 1);
        return Refused(Takeover);
      }
      zh, en := zh + entries[i].zh, en + entries[i].en;
    }
    assert examples[..|examples|] == examples;
    return Fine((zh, en));
  }

  method MergeIcons(core: map<string, Icon>, examples: seq<Example>) returns (icons: map<string, Icon>)
    ensures icons == MergedIcons(core, examples)
  {
    icons := core;
    for i := 0 to |examples|
      invariant icons == MergedIcons(core, examples[..i])
    {
      assert examples[..i + 1][..i] == examples[..i];
      icons := DressRoutes(examples[i].icons, icons);
    }
    assert examples[..|examples|] == examples;
  }

  lemma FlattenNext(examples: seq<Example>, i: nat)
    requires i < |examples|
    ensures var before, x, after := examples[..i], examples[i], examples[..i + 1];
            && AllRoutes(after) == AllRoutes(before) + RoutesOf(x)
            && AllNavigation(after) == AllNavigation(before) + NavigationOf(x.id, x.navigation)
            && AllScenes(after) == AllScenes(before) + ScenesOf(x.id, x.scenes)
  {
    assert examples[..i + 1][..i] == examples[..i];
  }

  method Flatten(examples: seq<Example>, entries: seq<Entry>)
    returns (routes: seq<(string, string)>, navigation: seq<Group>, scenes: seq<Scene>)
    requires |entries| == |examples| && AreEntriesOf(entries, examples)
    ensures routes == AllRoutes(examples) && navigation == AllNavigation(examples) && scenes == AllScenes(examples)
  {
    routes, navigation, scenes := [], [], [];
    for i := 0 to |examples|
      invariant routes == AllRoutes(examples[..i])
      invariant navigation == AllNavigation(examples[..i]) && scenes == AllScenes(examples[..i])
    {
      FlattenNext(examples, i);
      assert IsEntryOf(entries[i], examples[i]);
      routes := routes + RoutesOf(examples[i]);
      navigation, scenes := navigation + entries[i].navigation, scenes + entries[i].scenes;
    }
    assert examples[..|examples|] == examples;
  }

  /** assembleApp. */
  method AssembleApp(core: Core, examples: seq<Example>, pinned: Option<string>) returns (r: Checked<App>)
    ensures r == Assemble(core, examples, pinned)
  {
    var validated := ValidateExamples(examples);
    if validated.Refused? { return Refused(validated.problem); }
    var (seen, entries) := validated.value;
    AcceptedHaveMessages(examples);
    var messages := MergeMessages(core, examples, entries);
    if messages.Refused? { return Refused(messages.problem); }
    var entry := SelectEntry(pinned, examples, seen);
    if entry.Refused? { return Refused(entry.problem); }
    var routes, navigation, scenes := Flatten(examples, entries);
    var icons := MergeIcons(core.icons, examples);
    return Fine(App(seq(|examples|, i requires 0 <= i < |examples| => examples[i].id), routes, navigation,
                    messages.value.0, messages.value.1, entry.value, scenes, icons));
  }
}
