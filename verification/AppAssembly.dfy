/** What holds of every accepted assembly. */
module AppAssembly {
  import opened Basics
  import opened AppContract

  // ----- routes ------------------------------------------------------------------------------------

  lemma {:induction false} RoutesAdded(routes: seq<string>, id: string, seen: map<string, string>)
    requires AddRoutes(routes, id, seen).Fine?
    ensures var after := AddRoutes(routes, id, seen).value;
            && (forall p :: p in after <==> p in seen || p in OwnRoutes(routes))
            && (forall p :: p in seen ==> after[p] == seen[p])
            && (forall p :: p in OwnRoutes(routes) ==> p in after && after[p] == id && p !in seen && p !in RESERVED)
  {
    if routes != [] {
      RoutesAdded(routes[..|routes| - 1], id, seen);
      OwnRoutesOf(routes);
    }
  }

  lemma {:induction false} RouteIsAdded(routes: seq<string>, id: string, seen: map<string, string>, k: nat)
    requires AddRoutes(routes, id, seen).Fine? && k < |routes|
    ensures AddRoutes(routes[..k], id, seen).Fine?
    ensures Normalize(routes[k]).Fine? && Normalize(routes[k]).value !in AddRoutes(routes[..k], id, seen).value
  {
    var front := routes[..|routes| - 1];
    if k < |front| {
      RouteIsAdded(front, id, seen, k);
      assert front[..k] == routes[..k];
    } else {
      assert routes[..k] == front;
    }
  }

  lemma RoutesDiffer(routes: seq<string>, id: string, seen: map<string, string>)
    requires AddRoutes(routes, id, seen).Fine?
    ensures forall j :: 0 <= j < |routes| ==>
              Normalize(routes[j]).Fine? && Normalize(routes[j]).value in OwnRoutes(routes)
    ensures forall j, k :: 0 <= j < k < |routes| ==> Normalize(routes[j]) != Normalize(routes[k])
  {
    forall j | 0 <= j < |routes| ensures Normalize(routes[j]).Fine? {
      RouteIsAdded(routes, id, seen, j);
    }
    forall j, k | 0 <= j < k < |routes| ensures Normalize(routes[j]) != Normalize(routes[k]) {
      RouteIsAdded(routes, id, seen, k);
      RoutesAdded(routes[..k], id, seen);
      assert routes[..k][j] == routes[j];
      assert Normalize(routes[j]).value in OwnRoutes(routes[..k]);
    }
  }

  lemma OwnRoutesOf(routes: seq<string>)
    requires routes != []
    ensures var front, last := routes[..|routes| - 1], Normalize(routes[|routes| - 1]);
            OwnRoutes(routes) == OwnRoutes(front) + if last.Fine? then {last.value} else {}
  {
    var front := routes[..|routes| - 1];
    forall p | p in OwnRoutes(front) ensures p in OwnRoutes(routes) {
      var i :| 0 <= i < |front| && Normalize(front[i]).Fine? && Normalize(front[i]).value == p;
      assert routes[i] == front[i];
    }
    forall p | p in OwnRoutes(routes) && p !in OwnRoutes(front) ensures Normalize(routes[|routes| - 1]) == Fine(p) {
      var i :| 0 <= i < |routes| && Normalize(routes[i]).Fine? && Normalize(routes[i]).value == p;
      assert forall k :: 0 <= k < |front| && Normalize(front[k]).Fine? ==>
          Normalize(front[k]).value in OwnRoutes(front);
    }
  }

  /** The example that contributes this path, in normal form. */
  ghost predicate Contributes(x: Example, path: string) {
    path in OwnRoutes(x.routes)
  }

  ghost predicate SomeoneContributes(examples: seq<Example>, path: string) {
    exists i :: 0 <= i < |examples| && Contributes(examples[i], path)
  }

  lemma ContributedByLast(examples: seq<Example>, path: string)
    requires examples != []
    ensures SomeoneContributes(examples, path)
       <==> SomeoneContributes(examples[..|examples| - 1], path) || Contributes(examples[|examples| - 1], path)
  {
    var front := examples[..|examples| - 1];
    if SomeoneContributes(front, path) {
      var i :| 0 <= i < |front| && Contributes(front[i], path);
      assert examples[i] == front[i];
    }
    if SomeoneContributes(examples, path) {
      var i :| 0 <= i < |examples| && Contributes(examples[i], path);
      assert i < |front| ==> front[i] == examples[i];
    }
  }

  lemma ValidateAddsRoutes(x: Example, ids: set<string>, seen: map<string, string>)
    requires Validate(x, ids, seen).Fine?
    ensures Validate(x, ids, seen) == AddRoutes(x.routes, x.id, seen)
  {
  }

  /** The last step of an accepted sequence. */
  lemma LastAdds(examples: seq<Example>)
    requires ValidateAll(examples).Fine? && examples != []
    ensures var front, last := examples[..|examples| - 1], examples[|examples| - 1];
            && ValidateAll(front).Fine?
            && AddRoutes(last.routes, last.id, ValidateAll(front).value) == ValidateAll(examples)
  {
    var front, last := examples[..|examples| - 1], examples[|examples| - 1];
    ValidateAddsRoutes(last, Ids(front), ValidateAll(front).value);
  }

  lemma {:induction false} OwnedIsContributed(examples: seq<Example>, path: string)
    requires ValidateAll(examples).Fine?
    ensures path in ValidateAll(examples).value <==> SomeoneContributes(examples, path)
    ensures path in ValidateAll(examples).value ==> path !in RESERVED
  {
    if examples != [] {
      var front, last := examples[..|examples| - 1], examples[|examples| - 1];
      LastAdds(examples);
      OwnedIsContributed(front, path);
      RoutesAdded(last.routes, last.id, ValidateAll(front).value);
      ContributedByLast(examples, path);
    }
  }

  lemma {:induction false} OwnerIsContributor(examples: seq<Example>, i: nat, path: string)
    requires ValidateAll(examples).Fine? && i < |examples| && Contributes(examples[i], path)
    ensures path in ValidateAll(examples).value && ValidateAll(examples).value[path] == examples[i].id
  {
    var front, last := examples[..|examples| - 1], examples[|examples| - 1];
    RoutesAdded(last.routes, last.id, ValidateAll(front).value);
    if i < |front| {
      OwnerIsContributor(front, i, path);
    }
  }

  /** Exactly the contributed paths are owned, each by the example that contributes it. */
  lemma OwnersAreContributors(examples: seq<Example>)
    requires ValidateAll(examples).Fine?
    ensures var seen := ValidateAll(examples).value;
            && (forall p :: p in seen <==> SomeoneContributes(examples, p))
            && (forall i, p :: 0 <= i < |examples| && Contributes(examples[i], p) ==>
                  p in seen && seen[p] == examples[i].id)
            && (forall p :: p in seen ==> p !in RESERVED)
  {
    forall p ensures p in ValidateAll(examples).value <==> SomeoneContributes(examples, p)
             ensures p in ValidateAll(examples).value ==> p !in RESERVED {
      OwnedIsContributed(examples, p);
    }
    forall i, p | 0 <= i < |examples| && Contributes(examples[i], p)
      ensures p in ValidateAll(examples).value && ValidateAll(examples).value[p] == examples[i].id {
      OwnerIsContributor(examples, i, p);
    }
  }

  /** No two examples contribute one path, and ids are distinct. */
  lemma ContributorsAreDistinct(examples: seq<Example>, i: nat, k: nat)
    requires ValidateAll(examples).Fine? && i < k < |examples|
    ensures OwnRoutes(examples[i].routes) !! OwnRoutes(examples[k].routes)
    ensures examples[i].id != examples[k].id
  {
    EachWasValidated(examples, k);
    var before := examples[..k];
    OwnersAreContributors(before);
    RoutesAdded(examples[k].routes, examples[k].id, ValidateAll(before).value);
    assert before[i] == examples[i];
    assert examples[i].id in Ids(before);
    forall p | p in OwnRoutes(examples[i].routes) ensures p in ValidateAll(before).value {
      assert Contributes(before[i], p);
    }
  }

  lemma OwnRoutesFacts(examples: seq<Example>, i: nat)
    requires ValidateAll(examples).Fine? && i < |examples|
    ensures forall j :: 0 <= j < |examples[i].routes| ==>
              Normalize(examples[i].routes[j]).Fine?
              && Normalize(examples[i].routes[j]).value in OwnRoutes(examples[i].routes)
              && Normalize(examples[i].routes[j]).value !in RESERVED
    ensures forall j, k :: 0 <= j < k < |examples[i].routes| ==>
              Normalize(examples[i].routes[j]) != Normalize(examples[i].routes[k])
  {
    EachWasValidated(examples, i);
    RoutesAdded(examples[i].routes, examples[i].id, ValidateAll(examples[..i]).value);
    RoutesDiffer(examples[i].routes, examples[i].id, ValidateAll(examples[..i]).value);
  }

  /** Accepted routes are pairwise distinct after normalization, and none is the shell's. */
  lemma AcceptedRoutesAreDistinct(examples: seq<Example>, i: nat, j: nat, k: nat, l: nat)
    requires ValidateAll(examples).Fine?
    requires i < |examples| && j < |examples[i].routes| && k < |examples| && l < |examples[k].routes|
    requires (i, j) != (k, l)
    ensures Normalize(examples[i].routes[j]).Fine? && Normalize(examples[i].routes[j]).value !in RESERVED
    ensures Normalize(examples[i].routes[j]) != Normalize(examples[k].routes[l])
  {
    OwnRoutesFacts(examples, i);
    OwnRoutesFacts(examples, k);
    if i < k {
      ContributorsAreDistinct(examples, i, k);
    } else if k < i {
      ContributorsAreDistinct(examples, k, i);
    }
  }

  // ----- navigation, entry and icons -----------------------------------------------------------------

  lemma {:induction false} ItemsPointAtSeen(items: seq<Item>, seen: map<string, string>, j: nat)
    requires ItemsProblem(items, seen).None? && j < |items|
    ensures Normalize(items[j].path).Fine? && Normalize(items[j].path).value in seen
  {
    if j < |items| - 1 {
      ItemsPointAtSeen(items[..|items| - 1], seen, j);
    }
  }

  lemma {:induction false} GroupsPointAtSeen(groups: seq<Group>, seen: map<string, string>, g: nat)
    requires NavigationProblem(groups, seen).None? && g < |groups|
    ensures ItemsProblem(groups[g].items, seen).None?
  {
    if g < |groups| - 1 {
      GroupsPointAtSeen(groups[..|groups| - 1], seen, g);
    }
  }

  /** Which example contributes the path: this one, or one before it. */
  ghost predicate LeadsHomeOrBack(examples: seq<Example>, i: nat, path: string) {
    exists k :: 0 <= k <= i && k < |examples| && Contributes(examples[k], path)
  }

  ghost predicate LeadsBack(examples: seq<Example>, i: nat, path: string) {
    exists k :: 0 <= k < i && k < |examples| && Contributes(examples[k], path)
  }

  lemma OwnedByNow(examples: seq<Example>, i: nat, path: string)
    requires ValidateAll(examples).Fine? && i < |examples|
    ensures ValidateAll(examples[..i + 1]).Fine?
    ensures path in ValidateAll(examples[..i + 1]).value <==> LeadsHomeOrBack(examples, i, path)
  {
    EachWasValidated(examples, i);
    var now := examples[..i + 1];
    OwnedIsContributed(now, path);
    assert forall k :: 0 <= k <= i ==> now[k] == examples[k];
  }

  /** The item passed the check when its example's turn came. */
  lemma ItemWasChecked(examples: seq<Example>, i: nat, g: nat, j: nat)
    requires ValidateAll(examples).Fine? && i < |examples|
    requires g < |examples[i].navigation| && j < |examples[i].navigation[g].items|
    ensures ValidateAll(examples[..i + 1]).Fine?
    ensures var path := Normalize(examples[i].navigation[g].items[j].path);
            path.Fine? && path.value in ValidateAll(examples[..i + 1]).value
  {
    EachWasValidated(examples, i);
    var seen := ValidateAll(examples[..i + 1]).value;
    GroupsPointAtSeen(examples[i].navigation, seen, g);
    ItemsPointAtSeen(examples[i].navigation[g].items, seen, j);
  }

  /**
   * Where an accepted example's menus lead: to a route of this example or of an
   * earlier one, and to its own exactly when no earlier example has that path.
   */
  lemma MenusLeadHomeUnlessBack(examples: seq<Example>, i: nat, g: nat, j: nat)
    requires ValidateAll(examples).Fine? && i < |examples|
    requires g < |examples[i].navigation| && j < |examples[i].navigation[g].items|
    ensures var path := Normalize(examples[i].navigation[g].items[j].path);
            && path.Fine? && LeadsHomeOrBack(examples, i, path.value)
            && (Contributes(examples[i], path.value) <==> !LeadsBack(examples, i, path.value))
  {
    ItemWasChecked(examples, i, g, j);
    var path := Normalize(examples[i].navigation[g].items[j].path).value;
    OwnedByNow(examples, i, path);
    if k :| 0 <= k < i && Contributes(examples[k], path) {
      ContributorsAreDistinct(examples, k, i);
    }
  }

  /** An example whose menus all lead to its own routes. */
  ghost predicate StaysHome(x: Example) {
    forall g, j :: 0 <= g < |x.navigation| && 0 <= j < |x.navigation[g].items| ==>
      var path := Normalize(x.navigation[g].items[j].path);
      path.Fine? && Contributes(x, path.value)
  }

  /** Some item names a path an earlier example contributes. */
  ghost predicate PointsBack(examples: seq<Example>, i: nat)
    requires i < |examples|
  {
    exists g, j :: 0 <= g < |examples[i].navigation| && 0 <= j < |examples[i].navigation[g].items| &&
      var path := Normalize(examples[i].navigation[g].items[j].path);
      path.Fine? && LeadsBack(examples, i, path.value)
  }

  /** Exactly the examples that name no earlier example's path keep their menus to their own routes. */
  lemma StaysHomeUnlessPointingBack(examples: seq<Example>, i: nat)
    requires ValidateAll(examples).Fine? && i < |examples|
    ensures StaysHome(examples[i]) <==> !PointsBack(examples, i)
  {
    forall g, j | 0 <= g < |examples[i].navigation| && 0 <= j < |examples[i].navigation[g].items|
      ensures var path := Normalize(examples[i].navigation[g].items[j].path);
              path.Fine? && (Contributes(examples[i], path.value) <==> !LeadsBack(examples, i, path.value))
    {
      MenusLeadHomeUnlessBack(examples, i, g, j);
    }
  }

  /** A page without a menu, and a menu without a page. */
  function OnePage(): Example {
    Example("one", ["/one"], [], Some(map[]), Some(map[]), None, [], [])
  }

  function OneMenu(): Example {
    var texts := Some(map["label" := "text"]);
    Example("two", [], [Group("menu", "label", [Item("item", "label", "/one/")])], texts, texts, None, [], [])
  }

  lemma OnePageIsValid()
    ensures Validate(OnePage(), {}, map[]) == Fine(map["/one" := "one"])
    ensures Normalize("/one/") == Normalize("/one") == Fine("/one")
  {
    assert "/one/"[..4] == "/one";
    assert WithoutSlashes("/one") == "/one";
    assert WithoutSlashes("/one/") == WithoutSlashes("/one/"[..4]);
    assert ["/one"][..0] == [];
    assert AddRoutes(["/one"], "one", map[]) == Fine(map["/one" := "one"]);
  }

  lemma OneMenuIsValid()
    ensures var seen := map["/one" := "one"];
            Validate(OneMenu(), {"one"}, seen) == Fine(seen)
    ensures NavigationOf("two", OneMenu().navigation)
         == [Group("two:menu", "two.label", [Item("two:item", "two.label", "/one")])]
  {
    OnePageIsValid();
    var seen, groups := map["/one" := "one"], OneMenu().navigation;
    var items := groups[0].items;
    assert groups[..0] == [] && items[..0] == [];
    assert ItemsProblem(items, seen) == None;
    assert NavigationProblem(groups, seen) == None;
    assert NavigationKeys(groups) == {"label"};
    assert "two" + ":" + "item" == "two:item" && "two" + ":" + "menu" == "two:menu";
    assert "two" + "." + "label" == "two.label";
    assert ItemsOf("two", items) == [Item("two:item", "two.label", "/one")];
  }

  lemma BothAreValid()
    ensures ValidateAll([OnePage(), OneMenu()]) == Fine(map["/one" := "one"])
  {
    OnePageIsValid();
    OneMenuIsValid();
    var both := [OnePage(), OneMenu()];
    assert both[..1] == [OnePage()] && both[..1][..0] == [];
    assert Ids([]) == {};
    assert Ids(both[..1]) == {"one"} by {
      assert both[..1][0].id == "one";
    }
    assert ValidateAll(both[..1]) == Fine(map["/one" := "one"]);
  }

  lemma OneMenuPointsBack()
    ensures var both := [OnePage(), OneMenu()];
            PointsBack(both, 1)
  {
    OnePageIsValid();
    var both := [OnePage(), OneMenu()];
    assert Contributes(both[0], "/one") by {
      assert OnePage().routes[0] == "/one";
    }
    assert LeadsBack(both, 1, "/one");
    assert both[1].navigation[0].items[0].path == "/one/";
  }

  lemma FirstRegisters(core: Core, x: Example)
    requires core.zh == map[] && core.en == map[] && x.zh == Some(map[]) && x.en == Some(map[])
    ensures HaveMessages([x]) && Register(core, [x]) == Fine(map[])
  {
    assert [x][..0] == [];
    assert Register(core, []) == Fine(map[]);
    assert KeysOf(x) == {};
    assert Claimed(map[], {}, x.id) == map[];
  }

  lemma SecondRegisters(core: Core, x: Example, y: Example)
    requires core.zh == map[] && core.en == map[] && x.zh == Some(map[]) && x.en == Some(map[])
    requires y.zh.Some? && y.en.Some?
    ensures HaveMessages([x, y]) && Register(core, [x, y]).Fine?
  {
    FirstRegisters(core, x);
    assert [x, y][..1] == [x];
  }

  /** Such a menu is accepted: its only item leads to the page of the example before it. */
  lemma MenuOfAnotherExampleIsAccepted()
    ensures var both := [OnePage(), OneMenu()];
            var assembly := Assemble(Core(map[], map[], map[]), both, None);
            && assembly.Fine? && PointsBack(both, 1) && !StaysHome(OneMenu())
            && assembly.value.navigation == [Group("two:menu", "two.label", [Item("two:item", "two.label", "/one")])]
  {
    hide Register, ValidateAll, PointsBack, StaysHome;
    BothAreValid();
    SecondRegisters(Core(map[], map[], map[]), OnePage(), OneMenu());
    OneMenuPointsBack();
    StaysHomeUnlessPointingBack([OnePage(), OneMenu()], 1);
    BothMenus();
  }

  lemma BothMenus()
    ensures FirstEntry([OnePage(), OneMenu()]) == None
    ensures AllNavigation([OnePage(), OneMenu()])
         == [Group("two:menu", "two.label", [Item("two:item", "two.label", "/one")])]
  {
    OneMenuIsValid();
    var both := [OnePage(), OneMenu()];
    assert both[..1] == [OnePage()] && both[..1][..0] == [];
    assert both[1..] == [OneMenu()] && both[1..][1..] == [];
    assert AllNavigation(both[..1]) == [];
  }

  /** The group is one the i-th example's navigation became, and its paths are contributed by then. */
  ghost predicate IsMenuOf(examples: seq<Example>, i: nat, group: Group) {
    && i < |examples| && group in NavigationOf(examples[i].id, examples[i].navigation)
    && forall j :: 0 <= j < |group.items| ==> LeadsHomeOrBack(examples, i, group.items[j].path)
  }

  lemma {:induction false} GroupComesFrom(id: string, groups: seq<Group>, group: Group) returns (g: nat)
    requires group in NavigationOf(id, groups)
    ensures g < |groups| && group.items == ItemsOf(id, groups[g].items)
  {
    if group in NavigationOf(id, groups[..|groups| - 1]) {
      g := GroupComesFrom(id, groups[..|groups| - 1], group);
    } else {
      g := |groups| - 1;
    }
  }

  lemma OwnGroupIsMenu(examples: seq<Example>, i: nat, group: Group)
    requires ValidateAll(examples).Fine? && i < |examples|
    requires group in NavigationOf(examples[i].id, examples[i].navigation)
    ensures IsMenuOf(examples, i, group)
  {
    var g := GroupComesFrom(examples[i].id, examples[i].navigation, group);
    forall j | 0 <= j < |group.items| ensures LeadsHomeOrBack(examples, i, group.items[j].path) {
      MenusLeadHomeUnlessBack(examples, i, g, j);
    }
  }

  lemma {:induction false} GroupIsMenu(examples: seq<Example>, n: nat, group: Group) returns (i: nat)
    requires ValidateAll(examples).Fine? && n <= |examples| && group in AllNavigation(examples[..n])
    ensures IsMenuOf(examples, i, group)
  {
    assert examples[..n][..n - 1] == examples[..n - 1];
    if group in AllNavigation(examples[..n - 1]) {
      i := GroupIsMenu(examples, n - 1, group);
    } else {
      i := n - 1;
      OwnGroupIsMenu(examples, i, group);
    }
  }

  /**
   * Every path in the menus is a route of the example whose menu it is or of an
   * earlier one, and the default entry, unless it is the shell's home, is a
   * contributed route.
   */
  lemma MenusLeadToRoutes(core: Core, examples: seq<Example>, pinned: Option<string>)
    requires Assemble(core, examples, pinned).Fine?
    ensures var app := Assemble(core, examples, pinned).value;
            && (forall group :: group in app.navigation ==> exists i :: IsMenuOf(examples, i, group))
            && (app.defaultEntry == "/" <==> pinned.None? && FirstEntry(examples).None?)
            && (app.defaultEntry != "/" ==> SomeoneContributes(examples, app.defaultEntry))
  {
    var app, seen := Assemble(core, examples, pinned).value, ValidateAll(examples).value;
    assert examples[..|examples|] == examples;
    forall group | group in app.navigation ensures exists i :: IsMenuOf(examples, i, group) {
      var i := GroupIsMenu(examples, |examples|, group);
    }
    OwnersAreContributors(examples);
    assert app.defaultEntry == "/" || app.defaultEntry in seen;
    assert "/" in RESERVED;
  }

  lemma {:induction false} IconsAreOwn(icons: seq<(string, Icon)>, own: set<string>, before: map<string, Icon>)
    requires IconsProblem(icons, own).None?
    ensures var after := AddIcons(icons, before);
            && before.Keys <= after.Keys <= before.Keys + own
            && (forall p :: p in before && p !in own ==> after[p] == before[p])
  {
    if icons != [] {
      IconsAreOwn(icons[..|icons| - 1], own, before);
    }
  }

  /** No icon of the shell is replaced, and every other icon dresses a route of some example. */
  lemma {:induction false} CoreIconsStay(core: map<string, Icon>, examples: seq<Example>)
    requires ValidateAll(examples).Fine? && core.Keys <= RESERVED
    ensures var icons := MergedIcons(core, examples);
            && (forall p :: p in core ==> p in icons && icons[p] == core[p])
            && (forall p :: p in icons && p !in core ==> SomeoneContributes(examples, p))
  {
    if examples != [] {
      var front, last := examples[..|examples| - 1], examples[|examples| - 1];
      CoreIconsStay(core, front);
      IconsAreOwn(last.icons, OwnRoutes(last.routes), MergedIcons(core, front));
      OwnRoutesFacts(examples, |examples| - 1);
      RoutesAdded(last.routes, last.id, ValidateAll(front).value);
      forall p | p in MergedIcons(core, examples) && p !in core
        ensures SomeoneContributes(examples, p)
      {
        ContributedByLast(examples, p);
      }
    }
  }
}
