/** Which contributions the shell accepts, said of the contributions alone. */
module AppAcceptance {
  import opened AppContract
  import opened AppAssembly

  // ----- one contribution ------------------------------------------------------------------------

  /** The path is absolute, not the shell's, and nobody has it yet. */
  ghost predicate IsFree(routes: seq<string>, j: nat, seen: map<string, string>)
    requires j < |routes|
  {
    var path := Normalize(routes[j]);
    && path.Fine? && path.value !in RESERVED && path.value !in seen
    && forall k :: 0 <= k < j ==> Normalize(routes[k]) != path
  }

  lemma LastIsFree(routes: seq<string>, id: string, seen: map<string, string>)
    requires routes != [] && AddRoutes(routes[..|routes| - 1], id, seen).Fine?
    ensures AddRoutes(routes, id, seen).Fine? <==> IsFree(routes, |routes| - 1, seen)
  {
    var n := |routes| - 1;
    var front, path := routes[..n], Normalize(routes[n]);
    RoutesAdded(front, id, seen);
    hide Normalize;
    if path.Fine? {
      if path.value in OwnRoutes(front) {
        var k :| 0 <= k < |front| && Normalize(front[k]) == Fine(path.value);
        assert Normalize(routes[k]) == path;
      } else {
        forall k | 0 <= k < n ensures Normalize(routes[k]) != path {
          assert front[k] == routes[k];
          assert Normalize(front[k]).Fine? ==> Normalize(front[k]).value in OwnRoutes(front);
        }
      }
    }
  }

  lemma {:induction false} RoutesAreTaken(routes: seq<string>, id: string, seen: map<string, string>)
    ensures AddRoutes(routes, id, seen).Fine? <==> forall j :: 0 <= j < |routes| ==> IsFree(routes, j, seen)
  {
    if routes != [] {
      var n := |routes| - 1;
      RoutesAreTaken(routes[..n], id, seen);
      assert forall j :: 0 <= j < n ==> (IsFree(routes[..n], j, seen) <==> IsFree(routes, j, seen));
      hide IsFree;
      if AddRoutes(routes[..n], id, seen).Fine? {
        LastIsFree(routes, id, seen);
      }
    }
  }

  lemma {:induction false} ItemsArePassed(items: seq<Item>, seen: map<string, string>)
    ensures ItemsProblem(items, seen).None?
       <==> forall j :: 0 <= j < |items| ==> Normalize(items[j].path).Fine? && Normalize(items[j].path).value in seen
  {
    if items != [] {
      ItemsArePassed(items[..|items| - 1], seen);
    }
  }

  lemma {:induction false} GroupsArePassed(groups: seq<Group>, seen: map<string, string>)
    ensures NavigationProblem(groups, seen).None?
       <==> forall g :: 0 <= g < |groups| ==> ItemsProblem(groups[g].items, seen).None?
  {
    if groups != [] {
      GroupsArePassed(groups[..|groups| - 1], seen);
    }
  }

  lemma {:induction false} IconsArePassed(icons: seq<(string, Icon)>, own: set<string>)
    ensures IconsProblem(icons, own).None?
       <==> forall j :: 0 <= j < |icons| ==> Normalize(icons[j].0).Fine? && Normalize(icons[j].0).value in own
  {
    if icons != [] {
      IconsArePassed(icons[..|icons| - 1], own);
    }
  }

  /** The keys of groups that have items, and of those items. */
  ghost predicate LabelsDeclared(groups: seq<Group>, zh: Catalog) {
    forall g :: 0 <= g < |groups| && groups[g].items != [] ==>
      Has(zh, groups[g].labelKey) && forall j :: 0 <= j < |groups[g].items| ==> Has(zh, groups[g].items[j].labelKey)
  }

  /** Titles, and descriptions that are not empty. */
  ghost predicate ScenesDeclared(scenes: seq<Scene>, zh: Catalog) {
    forall j :: 0 <= j < |scenes| ==>
      && Has(zh, scenes[j].titleKey)
      && (scenes[j].descriptionKey.Some? && scenes[j].descriptionKey.value != "" ==>
            Has(zh, scenes[j].descriptionKey.value))
  }

  lemma {:induction false} NavigationKeysDeclared(groups: seq<Group>, zh: Catalog)
    ensures (forall k :: k in NavigationKeys(groups) ==> Has(zh, k)) <==> LabelsDeclared(groups, zh)
  {
    if groups != [] {
      var n := |groups| - 1;
      var front, last := groups[..n], groups[n];
      NavigationKeysDeclared(front, zh);
      hide Has;
      if LabelsDeclared(groups, zh) {
        assert LabelsDeclared(front, zh);
      }
      if forall k :: k in NavigationKeys(groups) ==> Has(zh, k) {
        assert forall j :: 0 <= j < |last.items| ==> last.items[j].labelKey in ItemKeys(last.items);
      }
    } else {
      assert LabelsDeclared(groups, zh);
    }
  }

  lemma {:induction false} SceneKeysDeclared(scenes: seq<Scene>, zh: Catalog)
    ensures (forall k :: k in SceneKeys(scenes) ==> Has(zh, k)) <==> ScenesDeclared(scenes, zh)
  {
    if scenes != [] {
      var front := scenes[..|scenes| - 1];
      SceneKeysDeclared(front, zh);
      hide Has;
      if ScenesDeclared(scenes, zh) {
        assert ScenesDeclared(front, zh);
      }
    } else {
      assert ScenesDeclared(scenes, zh);
    }
  }

  /** Both catalogs exist, and each declares what the other does, up to names every object inherits. */
  ghost predicate IsBilingual(x: Example) {
    && x.zh.Some? && x.en.Some?
    && (forall k :: k in x.zh.value ==> !Lacks(x.en.value, k))
    && (forall k :: k in x.en.value ==> !Lacks(x.zh.value, k))
  }

  ghost predicate ItemsLeadTo(items: seq<Item>, seen: map<string, string>) {
    forall j :: 0 <= j < |items| ==> Normalize(items[j].path).Fine? && Normalize(items[j].path).value in seen
  }

  ghost predicate Passes(x: Example, ids: set<string>, seen: map<string, string>, now: map<string, string>) {
    && KebabCase(x.id) && x.id !in ids
    && (forall j :: 0 <= j < |x.routes| ==> IsFree(x.routes, j, seen))
    && IsBilingual(x)
    && (forall g :: 0 <= g < |x.navigation| ==> ItemsLeadTo(x.navigation[g].items, now))
    && LabelsDeclared(x.navigation, x.zh.value) && ScenesDeclared(x.scenes, x.zh.value)
    && (x.defaultEntry.Some? ==> Normalize(x.defaultEntry.value).Fine?
                                 && Contributes(x, Normalize(x.defaultEntry.value).value))
    && (forall j :: 0 <= j < |x.icons| ==>
          Normalize(x.icons[j].0).Fine? && Contributes(x, Normalize(x.icons[j].0).value))
  }

  lemma ExamplePasses(x: Example, ids: set<string>, seen: map<string, string>, now: map<string, string>)
    requires AddRoutes(x.routes, x.id, seen) == Fine(now)
    ensures Validate(x, ids, seen).Fine? <==> Passes(x, ids, seen, now)
  {
    hide AddRoutes, IsFree, NavigationProblem, ItemsProblem, ItemsLeadTo, IconsProblem, LabelsDeclared, ScenesDeclared,
         NavigationKeys, SceneKeys, OwnRoutes, Normalize, KebabCase, Has, Lacks;
    RoutesAreTaken(x.routes, x.id, seen);
    MenusPass(x.navigation, now);
    IconsArePassed(x.icons, OwnRoutes(x.routes));
    if x.zh.Some? {
      NavigationKeysDeclared(x.navigation, x.zh.value);
      SceneKeysDeclared(x.scenes, x.zh.value);
    }
  }

  lemma MenusPass(groups: seq<Group>, now: map<string, string>)
    ensures NavigationProblem(groups, now).None?
       <==> forall g :: 0 <= g < |groups| ==> ItemsLeadTo(groups[g].items, now)
  {
    hide NavigationProblem, ItemsProblem;
    GroupsArePassed(groups, now);
    forall g | 0 <= g < |groups|
      ensures ItemsProblem(groups[g].items, now).None? <==> ItemsLeadTo(groups[g].items, now)
    {
      ItemsArePassed(groups[g].items, now);
    }
  }

  // ----- all of them -----------------------------------------------------------------------------

  /** Nobody before has the path, and the example itself has it only once. */
  ghost predicate IsNewPath(examples: seq<Example>, i: nat, j: nat)
    requires i < |examples| && j < |examples[i].routes|
  {
    var path := Normalize(examples[i].routes[j]);
    && path.Fine? && path.value !in RESERVED && !LeadsBack(examples, i, path.value)
    && forall k :: 0 <= k < j ==> Normalize(examples[i].routes[k]) != path
  }

  /** What the shell asks of one contribution, given those before it. */
  ghost predicate Acceptable(examples: seq<Example>, i: nat)
    requires i < |examples|
  {
    var x := examples[i];
    && x.id != "" && (forall c :: c in x.id ==> 'a' <= c <= 'z' || '0' <= c <= '9' || c == '-')
    && (forall k :: 0 <= k < i ==> examples[k].id != x.id)
    && (forall j :: 0 <= j < |x.routes| ==> IsNewPath(examples, i, j))
    && IsBilingual(x)
    && (forall g, j :: 0 <= g < |x.navigation| && 0 <= j < |x.navigation[g].items| ==>
          var path := Normalize(x.navigation[g].items[j].path);
          path.Fine? && LeadsHomeOrBack(examples, i, path.value))
    && LabelsDeclared(x.navigation, x.zh.value) && ScenesDeclared(x.scenes, x.zh.value)
    && (x.defaultEntry.Some? ==> Normalize(x.defaultEntry.value).Fine?
                                 && Contributes(x, Normalize(x.defaultEntry.value).value))
    && (forall j :: 0 <= j < |x.icons| ==>
          Normalize(x.icons[j].0).Fine? && Contributes(x, Normalize(x.icons[j].0).value))
  }

  lemma SeenIsContributedBefore(examples: seq<Example>, i: nat, path: string)
    requires i <= |examples| && ValidateAll(examples[..i]).Fine?
    ensures path in ValidateAll(examples[..i]).value <==> LeadsBack(examples, i, path)
  {
    hide ValidateAll;
    OwnedIsContributed(examples[..i], path);
    assert forall k :: 0 <= k < i ==> examples[..i][k] == examples[k];
  }

  lemma NowIsContributed(examples: seq<Example>, i: nat, now: map<string, string>, path: string)
    requires i < |examples| && ValidateAll(examples[..i]).Fine?
    requires AddRoutes(examples[i].routes, examples[i].id, ValidateAll(examples[..i]).value) == Fine(now)
    ensures path in now <==> LeadsHomeOrBack(examples, i, path)
  {
    hide ValidateAll, OwnRoutes;
    SeenIsContributedBefore(examples, i, path);
    RoutesAdded(examples[i].routes, examples[i].id, ValidateAll(examples[..i]).value);
    assert Contributes(examples[i], path) <==> path in OwnRoutes(examples[i].routes);
  }

  lemma FreeIsNew(examples: seq<Example>, i: nat)
    requires i < |examples| && ValidateAll(examples[..i]).Fine?
    ensures forall j :: 0 <= j < |examples[i].routes| ==>
              (IsFree(examples[i].routes, j, ValidateAll(examples[..i]).value) <==> IsNewPath(examples, i, j))
  {
    hide ValidateAll, Normalize;
    forall path ensures path in ValidateAll(examples[..i]).value <==> LeadsBack(examples, i, path) {
      SeenIsContributedBefore(examples, i, path);
    }
  }

  lemma LeadsAreNow(examples: seq<Example>, i: nat, now: map<string, string>)
    requires i < |examples| && ValidateAll(examples[..i]).Fine?
    requires AddRoutes(examples[i].routes, examples[i].id, ValidateAll(examples[..i]).value) == Fine(now)
    ensures (forall g :: 0 <= g < |examples[i].navigation| ==> ItemsLeadTo(examples[i].navigation[g].items, now))
       <==> forall g, j :: 0 <= g < |examples[i].navigation| && 0 <= j < |examples[i].navigation[g].items| ==>
              var path := Normalize(examples[i].navigation[g].items[j].path);
              path.Fine? && LeadsHomeOrBack(examples, i, path.value)
  {
    hide ValidateAll, Normalize, AddRoutes, LeadsHomeOrBack;
    forall path ensures path in now <==> LeadsHomeOrBack(examples, i, path) {
      NowIsContributed(examples, i, now, path);
    }
  }

  lemma IdIsKebab(id: string)
    ensures KebabCase(id) <==> id != "" && forall c :: c in id ==> 'a' <= c <= 'z' || '0' <= c <= '9' || c == '-'
  {
    assert forall i :: 0 <= i < |id| ==> id[i] in id;
  }

  lemma NextIsAcceptable(examples: seq<Example>, i: nat)
    requires i < |examples| && ValidateAll(examples[..i]).Fine?
    ensures Validate(examples[i], Ids(examples[..i]), ValidateAll(examples[..i]).value).Fine?
       <==> Acceptable(examples, i)
  {
    hide ValidateAll, Normalize, AddRoutes, LeadsHomeOrBack, IsFree, IsNewPath, LabelsDeclared, ScenesDeclared,
         ItemsLeadTo, IsBilingual, Contributes, KebabCase, Validate;
    var x, seen := examples[i], ValidateAll(examples[..i]).value;
    FreeIsNew(examples, i);
    RoutesAreTaken(x.routes, x.id, seen);
    IdIsKebab(x.id);
    assert x.id in Ids(examples[..i]) <==> exists k :: 0 <= k < i && examples[..i][k].id == x.id;
    if AddRoutes(x.routes, x.id, seen).Fine? {
      var now := AddRoutes(x.routes, x.id, seen).value;
      ExamplePasses(x, Ids(examples[..i]), seen, now);
      LeadsAreNow(examples, i, now);
    } else {
      TakenIsRefused(x, Ids(examples[..i]), seen);
    }
  }

  lemma TakenIsRefused(x: Example, ids: set<string>, seen: map<string, string>)
    requires AddRoutes(x.routes, x.id, seen).Refused?
    ensures Validate(x, ids, seen).Refused?
  {
  }

  lemma {:induction false} PrefixIsAccepted(examples: seq<Example>, n: nat)
    requires n <= |examples|
    ensures ValidateAll(examples[..n]).Fine? <==> forall i :: 0 <= i < n ==> Acceptable(examples, i)
  {
    if n > 0 {
      PrefixIsAccepted(examples, n - 1);
      assert examples[..n][..n - 1] == examples[..n - 1];
      hide Acceptable, Validate;
      if ValidateAll(examples[..n - 1]).Fine? {
        NextIsAcceptable(examples, n - 1);
      }
    }
  }

  /** The shell accepts the contributions exactly when each is acceptable after those before it. */
  lemma AcceptedExactlyWhen(examples: seq<Example>)
    ensures ValidateAll(examples).Fine? <==> forall i :: 0 <= i < |examples| ==> Acceptable(examples, i)
  {
    hide ValidateAll, Acceptable;
    assert examples[..|examples|] == examples;
    PrefixIsAccepted(examples, |examples|);
  }
}
