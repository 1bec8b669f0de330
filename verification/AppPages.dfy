/** What the assembled app shows: its pages, menus, scenes, icons and entry, said of the app itself. */
module AppPages {
  import opened Basics
  import opened AppContract
  import opened AppAssembly

  // ----- pages -----------------------------------------------------------------------------------

  /** How many pages the first n examples have together. */
  function PagesBefore(examples: seq<Example>, n: nat): nat
    requires n <= |examples|
  {
    if n == 0 then 0 else PagesBefore(examples, n - 1) + |examples[n - 1].routes|
  }

  ghost predicate IsPage(examples: seq<Example>, page: (string, string)) {
    exists i, j ::
      0 <= i < |examples| && 0 <= j < |examples[i].routes| && page == (examples[i].routes[j], examples[i].id)
  }

  /** The example's page stands at its place, counted from where the example's pages start. */
  ghost predicate PageStands(x: Example, j: nat, start: nat, pages: seq<(string, string)>)
    requires j < |x.routes|
  {
    start + j < |pages| && pages[start + j] == (x.routes[j], x.id)
  }

  /** The pages of the first n examples, each at its place, and no others. */
  ghost predicate AreThePages(examples: seq<Example>, n: nat, pages: seq<(string, string)>)
    requires n <= |examples|
  {
    && |pages| == PagesBefore(examples, n)
    && (forall i, j :: 0 <= i < n && 0 <= j < |examples[i].routes| ==>
          PageStands(examples[i], j, PagesBefore(examples, i), pages))
    && (forall k :: 0 <= k < |pages| ==> IsPage(examples, pages[k]))
  }

  lemma PageStays(x: Example, j: nat, start: nat, before: seq<(string, string)>, more: seq<(string, string)>)
    requires j < |x.routes| && PageStands(x, j, start, before)
    ensures PageStands(x, j, start, before + more)
  {
  }

  lemma PageComes(x: Example, j: nat, before: seq<(string, string)>)
    requires j < |x.routes|
    ensures PageStands(x, j, |before|, before + RoutesOf(x))
  {
  }

  lemma OneMore(examples: seq<Example>, n: nat, before: seq<(string, string)>)
    requires n < |examples| && AreThePages(examples, n, before)
    ensures AreThePages(examples, n + 1, before + RoutesOf(examples[n]))
  {
    hide PageStands;
    var pages := before + RoutesOf(examples[n]);
    forall i, j | 0 <= i < n + 1 && 0 <= j < |examples[i].routes|
      ensures PageStands(examples[i], j, PagesBefore(examples, i), pages)
    {
      if i < n {
        PageStays(examples[i], j, PagesBefore(examples, i), before, RoutesOf(examples[n]));
      } else {
        PageComes(examples[n], j, before);
      }
    }
    forall k | 0 <= k < |pages| ensures IsPage(examples, pages[k]) {
      if k >= |before| {
        assert pages[k] == (examples[n].routes[k - |before|], examples[n].id);
      }
    }
  }

  lemma {:induction false} PagesAreInOrder(examples: seq<Example>, n: nat)
    requires n <= |examples|
    ensures AreThePages(examples, n, AllRoutes(examples[..n]))
  {
    if n > 0 {
      PagesAreInOrder(examples, n - 1);
      assert examples[..n][..n - 1] == examples[..n - 1];
      OneMore(examples, n - 1, AllRoutes(examples[..n - 1]));
    }
  }

  lemma PartsOf(core: Core, examples: seq<Example>, pinned: Option<string>)
    requires Assemble(core, examples, pinned).Fine?
    ensures ValidateAll(examples).Fine? && examples[..|examples|] == examples
    ensures var app := Assemble(core, examples, pinned).value;
            && app.routes == AllRoutes(examples) && app.navigation == AllNavigation(examples)
            && app.scenes == AllScenes(examples) && app.icons == MergedIcons(core.icons, examples)
            && |app.examples| == |examples| && forall i :: 0 <= i < |examples| ==> app.examples[i] == examples[i].id
  {
  }

  /**
   * The app has exactly the contributed pages: those of the first example, then
   * those of the second, and so on, each with its path as it was contributed and
   * the id of its example.
   */
  lemma AppHasThePages(core: Core, examples: seq<Example>, pinned: Option<string>)
    requires Assemble(core, examples, pinned).Fine?
    ensures var app := Assemble(core, examples, pinned).value;
            && AreThePages(examples, |examples|, app.routes)
            && |app.examples| == |examples| && forall i :: 0 <= i < |examples| ==> app.examples[i] == examples[i].id
  {
    hide Assemble, AreThePages;
    PartsOf(core, examples, pinned);
    PagesAreInOrder(examples, |examples|);
  }

  /** One of the pages is at this path. */
  ghost predicate HasPage(pages: seq<(string, string)>, path: string) {
    exists k :: 0 <= k < |pages| && Normalize(pages[k].0) == Fine(path)
  }

  lemma PageIsContributed(examples: seq<Example>, pages: seq<(string, string)>, k: nat)
    requires k < |pages| && IsPage(examples, pages[k]) && Normalize(pages[k].0).Fine?
    ensures SomeoneContributes(examples, Normalize(pages[k].0).value)
  {
    var i, j :| 0 <= i < |examples| && 0 <= j < |examples[i].routes|
                && pages[k] == (examples[i].routes[j], examples[i].id);
    assert Contributes(examples[i], Normalize(examples[i].routes[j]).value);
  }

  lemma ContributedIsAPage(examples: seq<Example>, pages: seq<(string, string)>, path: string)
    requires AreThePages(examples, |examples|, pages)
    ensures SomeoneContributes(examples, path) <==> HasPage(pages, path)
  {
    if SomeoneContributes(examples, path) {
      var i :| 0 <= i < |examples| && Contributes(examples[i], path);
      var j :| 0 <= j < |examples[i].routes| && Normalize(examples[i].routes[j]) == Fine(path);
      assert PageStands(examples[i], j, PagesBefore(examples, i), pages);
    }
    if HasPage(pages, path) {
      var k :| 0 <= k < |pages| && Normalize(pages[k].0) == Fine(path);
      PageIsContributed(examples, pages, k);
    }
  }

  lemma {:induction false} PlaceOf(examples: seq<Example>, n: nat, k: nat) returns (i: nat, j: nat)
    requires n <= |examples| && k < PagesBefore(examples, n)
    ensures i < n && j < |examples[i].routes| && k == PagesBefore(examples, i) + j
  {
    if k < PagesBefore(examples, n - 1) {
      i, j := PlaceOf(examples, n - 1, k);
    } else {
      i, j := n - 1, k - PagesBefore(examples, n - 1);
    }
  }

  lemma TwoPagesDiffer(examples: seq<Example>, pages: seq<(string, string)>, k: nat, l: nat)
    requires ValidateAll(examples).Fine? && AreThePages(examples, |examples|, pages)
    requires k < |pages| && l < |pages| && k != l
    ensures Normalize(pages[k].0) != Normalize(pages[l].0)
  {
    hide ValidateAll, Normalize;
    var i, j := PlaceOf(examples, |examples|, k);
    var i', j' := PlaceOf(examples, |examples|, l);
    assert PageStands(examples[i], j, PagesBefore(examples, i), pages);
    assert PageStands(examples[i'], j', PagesBefore(examples, i'), pages);
    AcceptedRoutesAreDistinct(examples, i, j, i', j');
  }

  lemma PageIsFree(examples: seq<Example>, pages: seq<(string, string)>, k: nat)
    requires ValidateAll(examples).Fine? && AreThePages(examples, |examples|, pages) && k < |pages|
    ensures Normalize(pages[k].0).Fine? && Normalize(pages[k].0).value !in RESERVED
  {
    hide ValidateAll, Normalize;
    var i, j := PlaceOf(examples, |examples|, k);
    assert PageStands(examples[i], j, PagesBefore(examples, i), pages);
    OwnRoutesFacts(examples, i);
  }

  /** No two pages of the app share a path, up to trailing slashes, and none is at one of the shell's own. */
  lemma PagesAreDistinct(core: Core, examples: seq<Example>, pinned: Option<string>)
    requires Assemble(core, examples, pinned).Fine?
    ensures var pages := Assemble(core, examples, pinned).value.routes;
            && (forall k :: 0 <= k < |pages| ==>
                  Normalize(pages[k].0).Fine? && Normalize(pages[k].0).value !in RESERVED)
            && forall k, l :: 0 <= k < l < |pages| ==> Normalize(pages[k].0) != Normalize(pages[l].0)
  {
    hide Assemble, AreThePages, Normalize;
    AppHasThePages(core, examples, pinned);
    PartsOf(core, examples, pinned);
    var pages := Assemble(core, examples, pinned).value.routes;
    forall k | 0 <= k < |pages| ensures Normalize(pages[k].0).Fine? && Normalize(pages[k].0).value !in RESERVED {
      PageIsFree(examples, pages, k);
    }
    forall k, l | 0 <= k < l < |pages| ensures Normalize(pages[k].0) != Normalize(pages[l].0) {
      TwoPagesDiffer(examples, pages, k, l);
    }
  }

  // ----- what leads to them ----------------------------------------------------------------------

  /** Every item of the menus, the entry and every icon that is not the shell's belong to a page of the app. */
  lemma EverythingLeadsToPages(core: Core, examples: seq<Example>, pinned: Option<string>)
    requires Assemble(core, examples, pinned).Fine? && core.icons.Keys <= RESERVED
    ensures var app := Assemble(core, examples, pinned).value;
            && (forall group, item :: group in app.navigation && item in group.items ==> HasPage(app.routes, item.path))
            && (app.defaultEntry != "/" ==> HasPage(app.routes, app.defaultEntry))
            && (forall p :: p in app.icons && p !in core.icons ==> HasPage(app.routes, p))
            && (forall p :: p in core.icons ==> p in app.icons && app.icons[p] == core.icons[p])
  {
    hide Assemble, MergedIcons, IsMenuOf, HasPage, SomeoneContributes, AreThePages, AllRoutes, AllNavigation;
    var app := Assemble(core, examples, pinned).value;
    PartsOf(core, examples, pinned);
    AppHasThePages(core, examples, pinned);
    MenusLeadToRoutes(core, examples, pinned);
    CoreIconsStay(core.icons, examples);
    forall path ensures SomeoneContributes(examples, path) <==> HasPage(app.routes, path) {
      ContributedIsAPage(examples, app.routes, path);
    }
    forall group, item | group in app.navigation && item in group.items ensures HasPage(app.routes, item.path) {
      var i :| IsMenuOf(examples, i, group);
      MenuItemIsContributed(examples, i, group, item);
    }
  }

  lemma MenuItemIsContributed(examples: seq<Example>, i: nat, group: Group, item: Item)
    requires IsMenuOf(examples, i, group) && item in group.items
    ensures SomeoneContributes(examples, item.path)
  {
    var j :| 0 <= j < |group.items| && group.items[j] == item;
    assert LeadsHomeOrBack(examples, i, group.items[j].path);
  }
}
