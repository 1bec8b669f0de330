/** Messages and icons of an accepted assembly: whose they are, and when every label has a text. */
module AppCatalog {
  import opened Basics
  import opened AppContract
  import opened AppAssembly

  function CoreKeys(core: Core): set<string> {
    core.zh.Keys + core.en.Keys
  }

  function CatalogOf(x: Example, english: bool): Catalog
    requires x.zh.Some? && x.en.Some?
  {
    Namespaced(x.id, if english then x.en.value else x.zh.value)
  }

  /** What acceptance says of the ids and the messages. */
  ghost predicate WellNamed(examples: seq<Example>) {
    && HaveMessages(examples)
    && (forall i :: 0 <= i < |examples| ==> KebabCase(examples[i].id))
    && (forall i, k :: 0 <= i < k < |examples| ==> examples[i].id != examples[k].id)
  }

  lemma AcceptedAreWellNamed(examples: seq<Example>)
    requires ValidateAll(examples).Fine?
    ensures WellNamed(examples)
  {
    AcceptedHaveMessages(examples);
    forall i | 0 <= i < |examples| ensures KebabCase(examples[i].id) {
      EachWasValidated(examples, i);
    }
    forall i, k | 0 <= i < k < |examples| ensures examples[i].id != examples[k].id {
      ContributorsAreDistinct(examples, i, k);
    }
  }

  // ----- who owns a key ------------------------------------------------------------------------------

  /** A key tells its example. */
  lemma KeysTellTheExample(x: Example, y: Example, key: string)
    requires x.zh.Some? && x.en.Some? && y.zh.Some? && y.en.Some? && KebabCase(x.id) && KebabCase(y.id)
    requires key in KeysOf(x) && key in KeysOf(y)
    ensures x.id == y.id
  {
    var j :| (j in x.zh.value || j in x.en.value) && key == Key(x.id, j);
    var k :| (k in y.zh.value || k in y.en.value) && key == Key(y.id, k);
    KeysAreDistinct(x.id, j, y.id, k);
  }

  /** After registration a key is Core's, or belongs to an example that declares it. */
  ghost predicate RightOwner(core: Core, examples: seq<Example>, key: string, owner: string)
    requires HaveMessages(examples)
  {
    || (owner == "core" && key in CoreKeys(core))
    || exists i :: 0 <= i < |examples| && key in KeysOf(examples[i]) && owner == examples[i].id
  }

  lemma {:induction false} OwnersAreRight(core: Core, examples: seq<Example>, key: string)
    requires HaveMessages(examples) && Register(core, examples).Fine?
    ensures key in CoreKeys(core) ==> key in Register(core, examples).value
    ensures key in Register(core, examples).value ==>
              RightOwner(core, examples, key, Register(core, examples).value[key])
  {
    if examples != [] {
      var front, last := examples[..|examples| - 1], examples[|examples| - 1];
      OwnersAreRight(core, front, key);
      if key in Register(core, examples).value && key !in KeysOf(last) {
        var owner := Register(core, front).value[key];
        if !(owner == "core" && key in CoreKeys(core)) {
          var i :| 0 <= i < |front| && key in KeysOf(front[i]) && owner == front[i].id;
          assert examples[i] == front[i];
        }
      }
    }
  }

  /** The example claims a key of Core's and is not called "core". */
  ghost predicate TakesOver(core: Core, x: Example)
    requires x.zh.Some? && x.en.Some?
  {
    x.id != "core" && exists key :: key in KeysOf(x) && key in CoreKeys(core)
  }

  lemma CoreKeepsItsOwner(core: Core, examples: seq<Example>, key: string)
    requires WellNamed(examples) && Register(core, examples).Fine? && key in CoreKeys(core)
    requires forall i :: 0 <= i < |examples| ==> !TakesOver(core, examples[i])
    ensures key in Register(core, examples).value && Register(core, examples).value[key] == "core"
  {
    OwnersAreRight(core, examples, key);
  }

  /**
   * Taking over a message can only mean taking over one of Core's: registration
   * fails exactly when some example not called "core" declares a key Core has.
   */
  lemma {:induction false} TakeoverIsOfCore(core: Core, examples: seq<Example>)
    requires WellNamed(examples)
    ensures Register(core, examples).Refused? <==> exists i :: 0 <= i < |examples| && TakesOver(core, examples[i])
  {
    if examples != [] {
      var front, last := examples[..|examples| - 1], examples[|examples| - 1];
      assert WellNamed(front);
      TakeoverIsOfCore(core, front);
      if Register(core, front).Fine? {
        forall i | 0 <= i < |front| ensures !TakesOver(core, examples[i]) {
          assert front[i] == examples[i];
        }
        LastTakeover(core, front, last, examples);
      } else {
        var i :| 0 <= i < |front| && TakesOver(core, front[i]);
        assert examples[i] == front[i];
      }
    }
  }

  lemma LastTakeover(core: Core, front: seq<Example>, last: Example, examples: seq<Example>)
    requires examples == front + [last] && WellNamed(examples) && HaveMessages(front) && Register(core, front).Fine?
    requires last.zh.Some? && last.en.Some?
    requires forall i :: 0 <= i < |front| ==> !TakesOver(core, front[i])
    ensures Collides(Register(core, front).value, KeysOf(last), last.id) <==> TakesOver(core, last)
  {
    var owners := Register(core, front).value;
    assert forall i :: 0 <= i < |front| ==> front[i] == examples[i];
    assert WellNamed(front) && last == examples[|front|];
    if k :| k in KeysOf(last) && k in owners && owners[k] != last.id {
      OwnersAreRight(core, front, k);
      if !(owners[k] == "core" && k in CoreKeys(core)) {
        var i :| 0 <= i < |front| && k in KeysOf(front[i]) && owners[k] == front[i].id;
        KeysTellTheExample(front[i], last, k);
        assert false;
      }
    }
    if TakesOver(core, last) {
      var k :| k in KeysOf(last) && k in CoreKeys(core);
      CoreKeepsItsOwner(core, front, k);
    }
  }

  // ----- the merged catalogs ----------------------------------------------------------------------------

  lemma {:induction false} OwnText(core: Catalog, examples: seq<Example>, english: bool, i: nat, key: string)
    requires WellNamed(examples) && i < |examples| && key in CatalogOf(examples[i], english)
    ensures key in Merged(core, examples, english)
    ensures Merged(core, examples, english)[key] == CatalogOf(examples[i], english)[key]
  {
    var front, last := examples[..|examples| - 1], examples[|examples| - 1];
    if i < |front| {
      assert WellNamed(front) && front[i] == examples[i];
      OwnText(core, front, english, i, key);
      if key in CatalogOf(last, english) {
        KeysTellTheExample(examples[i], last, key);
      }
    }
  }

  lemma {:induction false} CoreText(core: Catalog, examples: seq<Example>, english: bool, key: string)
    requires HaveMessages(examples) && forall i :: 0 <= i < |examples| ==> key !in CatalogOf(examples[i], english)
    ensures key in Merged(core, examples, english) <==> key in core
    ensures key in core ==> Merged(core, examples, english)[key] == core[key]
  {
    if examples != [] {
      var front := examples[..|examples| - 1];
      assert forall i :: 0 <= i < |front| ==> front[i] == examples[i];
      CoreText(core, front, english, key);
    }
  }

  /** A key of an example has the example's text, any other key Core's. */
  lemma MergedText(core: Catalog, examples: seq<Example>, english: bool, key: string)
    requires WellNamed(examples)
    ensures var merged := Merged(core, examples, english);
            && (forall i :: 0 <= i < |examples| && key in CatalogOf(examples[i], english) ==>
                  key in merged && merged[key] == CatalogOf(examples[i], english)[key])
            && ((forall i :: 0 <= i < |examples| ==> key !in CatalogOf(examples[i], english)) ==>
                  (key in merged <==> key in core) && (key in core ==> merged[key] == core[key]))
  {
    forall i | 0 <= i < |examples| && key in CatalogOf(examples[i], english)
      ensures key in Merged(core, examples, english)
      ensures Merged(core, examples, english)[key] == CatalogOf(examples[i], english)[key]
    {
      OwnText(core, examples, english, i, key);
    }
    if forall i :: 0 <= i < |examples| ==> key !in CatalogOf(examples[i], english) {
      CoreText(core, examples, english, key);
    }
  }

  /** No key belongs to two of the parts, whatever the locale. */
  ghost predicate ShareNoKey(core: Core, examples: seq<Example>)
    requires HaveMessages(examples)
  {
    && (forall i :: 0 <= i < |examples| ==> KeysOf(examples[i]) !! CoreKeys(core))
    && (forall i, j :: 0 <= i < j < |examples| ==> KeysOf(examples[i]) !! KeysOf(examples[j]))
  }

  /** Every text of the parts is there, and nothing else. */
  ghost predicate IsUnion(own: Catalog, examples: seq<Example>, english: bool, merged: Catalog)
    requires HaveMessages(examples)
  {
    && KeepsCore(own, merged)
    && (forall i, key :: 0 <= i < |examples| && key in CatalogOf(examples[i], english) ==>
          key in merged && merged[key] == CatalogOf(examples[i], english)[key])
    && (forall key :: key in merged && key !in own ==>
          exists i :: 0 <= i < |examples| && key in CatalogOf(examples[i], english))
  }

  ghost predicate KeepsCore(own: Catalog, merged: Catalog) {
    forall key :: key in own ==> key in merged && merged[key] == own[key]
  }

  ghost predicate IsDisjointUnion(core: Core, examples: seq<Example>, app: App)
    requires HaveMessages(examples)
  {
    && ShareNoKey(core, examples)
    && IsUnion(core.zh, examples, false, app.zh) && IsUnion(core.en, examples, true, app.en)
  }

  /** An example called "core" declares a key that makes one of Core's. */
  ghost predicate NamesakeMeetsCore(core: Core, examples: seq<Example>)
    requires HaveMessages(examples)
  {
    exists i, k :: 0 <= i < |examples| && examples[i].id == "core"
                   && (k in examples[i].zh.value || k in examples[i].en.value) && Key("core", k) in CoreKeys(core)
  }

  lemma MetKeyIsShared(core: Core, examples: seq<Example>)
    requires HaveMessages(examples) && NamesakeMeetsCore(core, examples)
    ensures !ShareNoKey(core, examples)
  {
    var i, k :| 0 <= i < |examples| && examples[i].id == "core"
                && (k in examples[i].zh.value || k in examples[i].en.value) && Key("core", k) in CoreKeys(core);
    assert Key("core", k) in KeysOf(examples[i]);
  }

  lemma SharedKeyIsMet(core: Core, examples: seq<Example>)
    requires WellNamed(examples) && forall i :: 0 <= i < |examples| ==> !TakesOver(core, examples[i])
    requires !NamesakeMeetsCore(core, examples)
    ensures ShareNoKey(core, examples)
  {
    forall i, key | 0 <= i < |examples| && key in KeysOf(examples[i]) ensures key !in CoreKeys(core) {
      var k :| (k in examples[i].zh.value || k in examples[i].en.value) && key == Key(examples[i].id, k);
      assert !TakesOver(core, examples[i]);
    }
    forall i, j, key | 0 <= i < j < |examples| && key in KeysOf(examples[i]) ensures key !in KeysOf(examples[j]) {
      if key in KeysOf(examples[j]) {
        KeysTellTheExample(examples[i], examples[j], key);
      }
    }
  }

  lemma UnshareableKey(core: Core, examples: seq<Example>, english: bool, key: string)
    requires HaveMessages(examples) && ShareNoKey(core, examples) && key in if english then core.en else core.zh
    ensures forall i :: 0 <= i < |examples| ==> key !in CatalogOf(examples[i], english)
  {
    forall i | 0 <= i < |examples| ensures key !in CatalogOf(examples[i], english) {
      assert KeysOf(examples[i]) !! CoreKeys(core);
    }
  }

  lemma DisjointPartsUnite(core: Core, examples: seq<Example>, english: bool)
    requires WellNamed(examples) && ShareNoKey(core, examples)
    ensures var own := if english then core.en else core.zh;
            IsUnion(own, examples, english, Merged(own, examples, english))
  {
    hide ShareNoKey, CatalogOf, Merged;
    var own := if english then core.en else core.zh;
    forall key | key in own
      ensures key in Merged(own, examples, english) && Merged(own, examples, english)[key] == own[key]
    {
      UnshareableKey(core, examples, english, key);
      MergedText(own, examples, english, key);
    }
    forall i, key | 0 <= i < |examples| && key in CatalogOf(examples[i], english)
      ensures key in Merged(own, examples, english)
      ensures Merged(own, examples, english)[key] == CatalogOf(examples[i], english)[key]
    {
      MergedText(own, examples, english, key);
    }
    forall key | key in Merged(own, examples, english) && key !in own
      ensures exists i :: 0 <= i < |examples| && key in CatalogOf(examples[i], english)
    {
      MergedText(own, examples, english, key);
    }
  }

  lemma AssembledCatalogs(core: Core, examples: seq<Example>, pinned: Option<string>)
    requires Assemble(core, examples, pinned).Fine?
    ensures WellNamed(examples) && Register(core, examples).Fine?
    ensures var app := Assemble(core, examples, pinned).value;
            app.zh == Merged(core.zh, examples, false) && app.en == Merged(core.en, examples, true)
  {
    AcceptedAreWellNamed(examples);
  }

  /**
   * The catalog of an accepted assembly is the disjoint union of Core's and the
   * examples', in both locales, exactly when no example called "core" declares a
   * key that makes one of Core's.
   */
  lemma CatalogIsDisjointUnion(core: Core, examples: seq<Example>, pinned: Option<string>)
    requires Assemble(core, examples, pinned).Fine?
    ensures HaveMessages(examples)
    ensures IsDisjointUnion(core, examples, Assemble(core, examples, pinned).value)
       <==> !NamesakeMeetsCore(core, examples)
  {
    hide Assemble, IsUnion;
    AssembledCatalogs(core, examples, pinned);
    if NamesakeMeetsCore(core, examples) {
      MetKeyIsShared(core, examples);
    } else {
      TakeoverIsOfCore(core, examples);
      SharedKeyIsMet(core, examples);
      DisjointPartsUnite(core, examples, false);
      DisjointPartsUnite(core, examples, true);
    }
  }

  /** So a Core without keys under "core.", as the one shipped, is never touched. */
  lemma PlainCoreIsNeverTouched(core: Core, examples: seq<Example>, pinned: Option<string>)
    requires Assemble(core, examples, pinned).Fine?
    requires forall key :: key in CoreKeys(core) ==> !("core." <= key)
    ensures HaveMessages(examples) && IsDisjointUnion(core, examples, Assemble(core, examples, pinned).value)
  {
    hide Assemble, IsDisjointUnion;
    CatalogIsDisjointUnion(core, examples, pinned);
    assert forall k :: "core." <= Key("core", k);
  }

  /** Wherever an example called "core" has a text for one of Core's keys, it is Core's text. */
  ghost predicate NamesakeAgrees(own: Catalog, examples: seq<Example>, english: bool)
    requires HaveMessages(examples)
  {
    forall i, key :: 0 <= i < |examples| && examples[i].id == "core"
                     && key in CatalogOf(examples[i], english) && key in own ==>
      CatalogOf(examples[i], english)[key] == own[key]
  }

  lemma CoreStaysIfAgreed(core: Core, examples: seq<Example>, english: bool, key: string)
    requires WellNamed(examples) && forall i :: 0 <= i < |examples| ==> !TakesOver(core, examples[i])
    requires var own := if english then core.en else core.zh;
             NamesakeAgrees(own, examples, english) && key in own
    ensures var own := if english then core.en else core.zh;
            var merged := Merged(own, examples, english);
            key in merged && merged[key] == own[key]
  {
    var own := if english then core.en else core.zh;
    MergedText(own, examples, english, key);
    if i :| 0 <= i < |examples| && key in CatalogOf(examples[i], english) {
      assert key in KeysOf(examples[i]) && !TakesOver(core, examples[i]);
    }
  }

  /**
   * An example called "core" replaces Core's own texts, and nothing refuses it:
   * in either locale Core's texts all stay exactly when the example's agree with
   * them wherever their keys meet.
   */
  lemma CoreNamesakeReplaces(core: Core, examples: seq<Example>, pinned: Option<string>, english: bool)
    requires Assemble(core, examples, pinned).Fine?
    ensures HaveMessages(examples)
    ensures var app := Assemble(core, examples, pinned).value;
            var own := if english then core.en else core.zh;
            KeepsCore(own, if english then app.en else app.zh) <==> NamesakeAgrees(own, examples, english)
  {
    AssembledCatalogs(core, examples, pinned);
    TakeoverIsOfCore(core, examples);
    CoreStaysExactlyIfAgreed(core, examples, english);
  }

  lemma CoreStaysExactlyIfAgreed(core: Core, examples: seq<Example>, english: bool)
    requires WellNamed(examples) && forall i :: 0 <= i < |examples| ==> !TakesOver(core, examples[i])
    ensures var own := if english then core.en else core.zh;
            KeepsCore(own, Merged(own, examples, english)) <==> NamesakeAgrees(own, examples, english)
  {
    var own := if english then core.en else core.zh;
    if NamesakeAgrees(own, examples, english) {
      forall key | key in own
        ensures key in Merged(own, examples, english) && Merged(own, examples, english)[key] == own[key]
      {
        CoreStaysIfAgreed(core, examples, english, key);
      }
    } else {
      var i, key :| 0 <= i < |examples| && examples[i].id == "core" && key in CatalogOf(examples[i], english)
                    && key in own && CatalogOf(examples[i], english)[key] != own[key];
      MergedText(own, examples, english, key);
    }
  }

  /** Such an assembly exists: an example called "core" is accepted and replaces a title of Core's in both locales. */
  lemma CoreNamesakeIsAccepted()
    ensures var texts := map["title" := "text"];
            var x := Example("core", [], [], Some(texts), Some(texts), None, [], []);
            var core := Core(map["core.title" := "Console"], map["core.title" := "Console"], map[]);
            var assembly := Assemble(core, [x], None);
            && assembly.Fine? && assembly.value.zh == assembly.value.en == map["core.title" := "text"]
            && HaveMessages([x]) && NamesakeMeetsCore(core, [x])
  {
    var texts := map["title" := "text"];
    var x := Example("core", [], [], Some(texts), Some(texts), None, [], []);
    var core := Core(map["core.title" := "Console"], map["core.title" := "Console"], map[]);
    NamesakeIsValid(x, texts);
    NamesakeRegisters(core, x, texts);
    assert [x][1..] == [] && FirstEntry([x]) == None;
  }

  lemma NamesakeIsValid(x: Example, texts: Catalog)
    requires texts == map["title" := "text"]
    requires x == Example("core", [], [], Some(texts), Some(texts), None, [], [])
    ensures ValidateAll([x]) == Fine(map[])
  {
    assert [x][..0] == [];
    assert UsedKeys(x) == {};
    assert Validate(x, Ids([]), map[]) == Fine(map[]);
  }

  lemma NamesakeRegisters(core: Core, x: Example, texts: Catalog)
    requires texts == map["title" := "text"]
    requires core.zh == core.en == map["core.title" := "Console"]
    requires x == Example("core", [], [], Some(texts), Some(texts), None, [], [])
    ensures HaveMessages([x]) && Register(core, [x]).Fine? && NamesakeMeetsCore(core, [x])
    ensures Merged(core.zh, [x], false) == Merged(core.en, [x], true) == map["core.title" := "text"]
  {
    assert [x][..0] == [];
    assert Key("core", "title") == "core.title";
    assert Namespaced("core", texts) == map["core.title" := "text"];
    assert KeysOf(x) == {"core.title"};
    assert [x][0].id == "core" && "title" in [x][0].en.value;
    assert HaveMessages([]);
    assert Register(core, []).value == map["core.title" := "core"];
    assert Merged(core.zh, [], false) == core.zh && Merged(core.en, [], true) == core.en;
  }

  // ----- both locales --------------------------------------------------------------------------------------

  /** Every key has a text in both locales. */
  ghost predicate Bilingual(x: Example)
    requires x.zh.Some? && x.en.Some?
  {
    forall k :: k in x.zh.value || k in x.en.value ==>
      k in x.zh.value && k in x.en.value && x.zh.value[k] != "" && x.en.value[k] != ""
  }

  /** Both catalogs pass for complete, and the used keys for declared. */
  ghost predicate PassesForComplete(x: Example) {
    && x.zh.Some? && x.en.Some? && Complete(x.zh.value, x.en.value) && Complete(x.en.value, x.zh.value)
    && forall k :: k in UsedKeys(x) ==> Has(x.zh.value, k)
  }

  lemma AcceptedPasses(examples: seq<Example>, i: nat)
    requires ValidateAll(examples).Fine? && i < |examples|
    ensures PassesForComplete(examples[i])
  {
    EachWasValidated(examples, i);
    ValidatedPasses(examples[i], Ids(examples[..i]), ValidateAll(examples[..i]).value);
  }

  lemma ValidatedPasses(x: Example, ids: set<string>, seen: map<string, string>)
    requires Validate(x, ids, seen).Fine?
    ensures PassesForComplete(x)
  {
  }

  lemma CompleteUpToInheritedNames(x: Example)
    requires PassesForComplete(x)
    ensures Bilingual(x) <==> forall k :: k in INHERITED ==> (k in x.zh.value <==> k in x.en.value)
  {
    forall k | k in x.zh.value && k in x.en.value ensures x.zh.value[k] != "" && x.en.value[k] != "" {
      assert !Lacks(x.en.value, k) && !Lacks(x.zh.value, k);
    }
    forall k | k in x.zh.value && k !in x.en.value ensures k in INHERITED {
      assert !Lacks(x.en.value, k);
    }
    forall k | k in x.en.value && k !in x.zh.value ensures k in INHERITED {
      assert !Lacks(x.zh.value, k);
    }
  }

  /**
   * An accepted example has both texts for every key exactly when it declares
   * every name JavaScript objects inherit in both locales or in neither: those
   * names pass the check without a text.
   */
  lemma BilingualUpToInheritedNames(examples: seq<Example>, i: nat)
    requires ValidateAll(examples).Fine? && i < |examples|
    ensures examples[i].zh.Some? && examples[i].en.Some?
    ensures Bilingual(examples[i])
       <==> forall k :: k in INHERITED ==> (k in examples[i].zh.value <==> k in examples[i].en.value)
  {
    AcceptedPasses(examples, i);
    CompleteUpToInheritedNames(examples[i]);
  }

  /** Such an example exists: "toString" with a Chinese text only is accepted. */
  lemma InheritedNamePassesWithoutText()
    ensures var x := Example("demo", [], [], Some(map["toString" := "text"]), Some(map[]), None, [], []);
            ValidateAll([x]).Fine? && !Bilingual(x)
  {
    var x := Example("demo", [], [], Some(map["toString" := "text"]), Some(map[]), None, [], []);
    assert [x][..0] == [];
    assert Validate(x, Ids([]), map[]).Fine?;
    assert "toString" in x.zh.value && "toString" !in x.en.value;
  }

  // ----- labels ---------------------------------------------------------------------------------------------

  /** messages.tsx: the active locale's text, else the English one; None is the generic hint. */
  function Resolve(app: App, english: bool, key: string): Option<string> {
    if !english && key in app.zh then Some(app.zh[key])
    else if key in app.en then Some(app.en[key])
    else None
  }

  ghost predicate AlwaysResolves(app: App, key: string) {
    Resolve(app, true, key).Some? && Resolve(app, false, key).Some?
  }

  function Labels(app: App): set<string> {
    NavigationKeys(app.navigation) + SceneKeys(app.scenes)
  }

  ghost function Prefixed(id: string, keys: set<string>): set<string> {
    set k | k in keys :: Key(id, k)
  }

  lemma {:induction false} NavigationKeysAppend(a: seq<Group>, b: seq<Group>)
    ensures NavigationKeys(a + b) == NavigationKeys(a) + NavigationKeys(b)
  {
    if b == [] {
      assert a + b == a;
    } else {
      assert (a + b)[..|a + b| - 1] == a + b[..|b| - 1];
      NavigationKeysAppend(a, b[..|b| - 1]);
    }
  }

  lemma {:induction false} SceneKeysAppend(a: seq<Scene>, b: seq<Scene>)
    ensures SceneKeys(a + b) == SceneKeys(a) + SceneKeys(b)
  {
    if b == [] {
      assert a + b == a;
    } else {
      assert (a + b)[..|a + b| - 1] == a + b[..|b| - 1];
      SceneKeysAppend(a, b[..|b| - 1]);
    }
  }

  lemma ItemKeysPrefixed(id: string, items: seq<Item>)
    ensures ItemKeys(ItemsOf(id, items)) == Prefixed(id, ItemKeys(items))
  {
    forall k | k in Prefixed(id, ItemKeys(items)) ensures k in ItemKeys(ItemsOf(id, items)) {
      var i :| 0 <= i < |items| && k == Key(id, items[i].labelKey);
      assert ItemsOf(id, items)[i].labelKey == k;
    }
    forall k | k in ItemKeys(ItemsOf(id, items)) ensures k in Prefixed(id, ItemKeys(items)) {
      var i :| 0 <= i < |items| && k == ItemsOf(id, items)[i].labelKey;
      assert items[i].labelKey in ItemKeys(items);
    }
  }

  lemma {:induction false} NavigationKeysPrefixed(id: string, groups: seq<Group>)
    ensures NavigationKeys(NavigationOf(id, groups)) == Prefixed(id, NavigationKeys(groups))
  {
    if groups != [] {
      var front, last := groups[..|groups| - 1], groups[|groups| - 1];
      NavigationKeysPrefixed(id, front);
      if last.items == [] {
        assert NavigationOf(id, groups) == NavigationOf(id, front);
      } else {
        var group := Group(id + ":" + last.id, Key(id, last.labelKey), ItemsOf(id, last.items));
        ItemKeysPrefixed(id, last.items);
        NavigationKeysAppend(NavigationOf(id, front), [group]);
        assert NavigationKeys([group]) == {group.labelKey} + ItemKeys(group.items) by {
          assert [group][..0] == [];
        }
      }
    }
  }

  lemma {:induction false} SceneKeysPrefixed(id: string, scenes: seq<Scene>)
    ensures SceneKeys(ScenesOf(id, scenes)) == Prefixed(id, SceneKeys(scenes))
  {
    if scenes != [] {
      var out := ScenesOf(id, scenes);
      assert out[..|out| - 1] == ScenesOf(id, scenes[..|scenes| - 1]);
      SceneKeysPrefixed(id, scenes[..|scenes| - 1]);
      var last := scenes[|scenes| - 1];
      assert Key(id, "") != "";
      assert last.descriptionKey.Some? ==> Key(id, last.descriptionKey.value) != "";
    }
  }

  function LabelsOf(examples: seq<Example>): set<string> {
    NavigationKeys(AllNavigation(examples)) + SceneKeys(AllScenes(examples))
  }

  ghost predicate IsUsedKey(x: Example, text: string) {
    text in Prefixed(x.id, UsedKeys(x))
  }

  lemma LabelsOfLast(examples: seq<Example>, text: string)
    requires examples != []
    ensures text in LabelsOf(examples)
       <==> text in LabelsOf(examples[..|examples| - 1]) || IsUsedKey(examples[|examples| - 1], text)
  {
    var front, last := examples[..|examples| - 1], examples[|examples| - 1];
    NavigationKeysAppend(AllNavigation(front), NavigationOf(last.id, last.navigation));
    SceneKeysAppend(AllScenes(front), ScenesOf(last.id, last.scenes));
    NavigationKeysPrefixed(last.id, last.navigation);
    SceneKeysPrefixed(last.id, last.scenes);
    PrefixedUnion(last.id, NavigationKeys(last.navigation), SceneKeys(last.scenes));
  }

  lemma PrefixedUnion(id: string, a: set<string>, b: set<string>)
    ensures Prefixed(id, a + b) == Prefixed(id, a) + Prefixed(id, b)
  {
  }

  ghost predicate SomeoneUses(examples: seq<Example>, text: string) {
    exists i :: 0 <= i < |examples| && IsUsedKey(examples[i], text)
  }

  lemma UsedByLast(examples: seq<Example>, text: string)
    requires examples != []
    ensures SomeoneUses(examples, text)
       <==> SomeoneUses(examples[..|examples| - 1], text) || IsUsedKey(examples[|examples| - 1], text)
  {
    var front := examples[..|examples| - 1];
    if SomeoneUses(front, text) {
      var i :| 0 <= i < |front| && IsUsedKey(front[i], text);
      assert examples[i] == front[i];
    }
    if SomeoneUses(examples, text) {
      var i :| 0 <= i < |examples| && IsUsedKey(examples[i], text);
      assert i < |front| ==> front[i] == examples[i];
    }
  }

  /** The labels of the assembled menus and scenes are the examples' used keys in their namespaces. */
  lemma {:induction false} LabelsAreUsedKeys(examples: seq<Example>, text: string)
    ensures text in LabelsOf(examples) <==> SomeoneUses(examples, text)
  {
    if examples != [] {
      LabelsAreUsedKeys(examples[..|examples| - 1], text);
      LabelsOfLast(examples, text);
      UsedByLast(examples, text);
    }
  }

  /** A used key that is no inherited name is declared in English too. */
  lemma UsedIsDeclared(x: Example, k: string)
    requires PassesForComplete(x) && k in UsedKeys(x) && k !in INHERITED
    ensures k in x.en.value
  {
    assert Has(x.zh.value, k) && !Lacks(x.en.value, k);
  }

  /** The English catalog has an example's key exactly when the example or Core declares it. */
  lemma EnglishHas(core: Core, examples: seq<Example>, i: nat, k: string)
    requires WellNamed(examples) && i < |examples|
    ensures Key(examples[i].id, k) in Merged(core.en, examples, true)
       <==> k in examples[i].en.value || Key(examples[i].id, k) in core.en
  {
    var key := Key(examples[i].id, k);
    MergedText(core.en, examples, true, key);
    assert k in examples[i].en.value ==> key in CatalogOf(examples[i], true);
    forall j | 0 <= j < |examples| && key in CatalogOf(examples[j], true) ensures k in examples[i].en.value {
      var l :| l in examples[j].en.value && Key(examples[j].id, l) == key;
      KeysAreDistinct(examples[j].id, l, examples[i].id, k);
    }
  }

  /** The text an example uses but does not declare in English, under no name of Core's. */
  ghost predicate UsesUndeclared(core: Core, x: Example)
    requires x.en.Some?
  {
    exists k :: k in UsedKeys(x) && k in INHERITED && k !in x.en.value && Key(x.id, k) !in core.en
  }

  lemma UsedKeyIsLabel(examples: seq<Example>, i: nat, k: string)
    requires i < |examples| && k in UsedKeys(examples[i])
    ensures Key(examples[i].id, k) in LabelsOf(examples)
  {
    assert IsUsedKey(examples[i], Key(examples[i].id, k));
    LabelsAreUsedKeys(examples, Key(examples[i].id, k));
  }

  lemma UndeclaredHasNoText(core: Core, examples: seq<Example>, i: nat)
    requires WellNamed(examples) && i < |examples| && UsesUndeclared(core, examples[i])
    ensures exists text :: text in LabelsOf(examples) && text !in Merged(core.en, examples, true)
  {
    var k :| k in UsedKeys(examples[i]) && k in INHERITED && k !in examples[i].en.value
             && Key(examples[i].id, k) !in core.en;
    UsedKeyIsLabel(examples, i, k);
    EnglishHas(core, examples, i, k);
  }

  lemma LabelIsUsedKey(examples: seq<Example>, text: string) returns (i: nat, k: string)
    requires text in LabelsOf(examples)
    ensures i < |examples| && k in UsedKeys(examples[i]) && text == Key(examples[i].id, k)
  {
    LabelsAreUsedKeys(examples, text);
    i :| 0 <= i < |examples| && IsUsedKey(examples[i], text);
    k :| k in UsedKeys(examples[i]) && text == Key(examples[i].id, k);
  }

  lemma UsedIsInEnglish(core: Core, x: Example, k: string)
    requires PassesForComplete(x) && k in UsedKeys(x) && !UsesUndeclared(core, x)
    ensures k in x.en.value || Key(x.id, k) in core.en
  {
    if k !in INHERITED {
      UsedIsDeclared(x, k);
    }
  }

  lemma DeclaredHasText(core: Core, examples: seq<Example>, text: string)
    requires ValidateAll(examples).Fine? && WellNamed(examples) && text in LabelsOf(examples)
    requires forall i :: 0 <= i < |examples| ==> !UsesUndeclared(core, examples[i])
    ensures text in Merged(core.en, examples, true)
  {
    var i, k := LabelIsUsedKey(examples, text);
    AcceptedPasses(examples, i);
    UsedIsInEnglish(core, examples[i], k);
    EnglishHas(core, examples, i, k);
  }

  lemma LabelsInEnglish(core: Core, examples: seq<Example>)
    requires ValidateAll(examples).Fine? && WellNamed(examples)
    ensures LabelsOf(examples) <= Merged(core.en, examples, true).Keys
       <==> forall i :: 0 <= i < |examples| ==> !UsesUndeclared(core, examples[i])
  {
    if i :| 0 <= i < |examples| && UsesUndeclared(core, examples[i]) {
      UndeclaredHasNoText(core, examples, i);
    } else {
      forall text | text in LabelsOf(examples) ensures text in Merged(core.en, examples, true) {
        DeclaredHasText(core, examples, text);
      }
    }
  }

  lemma ResolvesInEnglish(app: App)
    ensures (forall text :: text in Labels(app) ==> AlwaysResolves(app, text)) <==> Labels(app) <= app.en.Keys
  {
    assert forall text :: AlwaysResolves(app, text) <==> text in app.en;
  }

  lemma AssembledParts(core: Core, examples: seq<Example>, pinned: Option<string>)
    requires Assemble(core, examples, pinned).Fine?
    ensures ValidateAll(examples).Fine? && HaveMessages(examples)
    ensures var app := Assemble(core, examples, pinned).value;
            app.navigation == AllNavigation(examples) && app.scenes == AllScenes(examples)
            && app.en == Merged(core.en, examples, true)
  {
    AcceptedHaveMessages(examples);
  }

  /**
   * Every label of an accepted assembly's menus and scenes has a text in both
   * locales exactly when no example uses an inherited name it does not declare:
   * for all other names the generic hint never shows.
   */
  lemma LabelsResolve(core: Core, examples: seq<Example>, pinned: Option<string>)
    requires Assemble(core, examples, pinned).Fine?
    ensures WellNamed(examples)
    ensures var app := Assemble(core, examples, pinned).value;
            (forall text :: text in Labels(app) ==> AlwaysResolves(app, text))
            <==> forall i :: 0 <= i < |examples| ==> !UsesUndeclared(core, examples[i])
  {
    AssembledParts(core, examples, pinned);
    AcceptedAreWellNamed(examples);
    LabelsInEnglish(core, examples);
    ResolvesInEnglish(Assemble(core, examples, pinned).value);
  }

  /** Such an assembly exists: a scene titled "valueOf" is accepted and shows the generic hint. */
  lemma InheritedLabelShowsTheHint(pinned: Option<string>)
    requires pinned.None?
    ensures var x := Example("demo", [], [], Some(map[]), Some(map[]), None, [Scene("demo", "s", "valueOf", None)], []);
            var core := Core(map[], map[], map[]);
            Assemble(core, [x], pinned).Fine?
            && exists text :: text in Labels(Assemble(core, [x], pinned).value)
                              && !AlwaysResolves(Assemble(core, [x], pinned).value, text)
  {
    var x := Example("demo", [], [], Some(map[]), Some(map[]), None, [Scene("demo", "s", "valueOf", None)], []);
    var core := Core(map[], map[], map[]);
    assert [x][..0] == [] && x.scenes[..0] == [];
    assert UsedKeys(x) == {"valueOf"};
    assert Validate(x, Ids([]), map[]).Fine?;
    AcceptedAreWellNamed([x]);
    assert WellNamed([]) && HaveMessages([]);
    assert KeysOf(x) == {};
    assert Register(core, [x]).Fine?;
    assert [x][1..] == [] && FirstEntry([x]) == None;
    assert UsesUndeclared(core, [x][0]);
    LabelsResolve(core, [x], pinned);
  }

  // ----- the order of the examples ------------------------------------------------------------------------

  ghost predicate SameExamples(a: seq<Example>, b: seq<Example>) {
    forall x :: x in a <==> x in b
  }

  lemma MergedKeyIn(core: Catalog, a: seq<Example>, b: seq<Example>, english: bool, key: string)
    requires WellNamed(a) && WellNamed(b) && SameExamples(a, b)
    requires key in Merged(core, a, english)
    ensures key in Merged(core, b, english) && Merged(core, b, english)[key] == Merged(core, a, english)[key]
  {
    MergedText(core, a, english, key);
    MergedText(core, b, english, key);
    if i :| 0 <= i < |a| && key in CatalogOf(a[i], english) {
      assert a[i] in b;
      var j :| 0 <= j < |b| && b[j] == a[i];
    } else {
      forall j | 0 <= j < |b| ensures key !in CatalogOf(b[j], english) {
        assert b[j] in a;
        var i :| 0 <= i < |a| && a[i] == b[j];
      }
    }
  }

  lemma MergedIgnoresOrder(core: Catalog, a: seq<Example>, b: seq<Example>, english: bool)
    requires WellNamed(a) && WellNamed(b) && SameExamples(a, b)
    ensures Merged(core, a, english) == Merged(core, b, english)
  {
    forall key | key in Merged(core, a, english)
      ensures key in Merged(core, b, english) && Merged(core, b, english)[key] == Merged(core, a, english)[key] {
      MergedKeyIn(core, a, b, english, key);
    }
    forall key | key in Merged(core, b, english) ensures key in Merged(core, a, english) {
      MergedKeyIn(core, b, a, english, key);
    }
  }

  lemma {:induction false} IconsOnTop(icons: seq<(string, Icon)>, before: map<string, Icon>)
    ensures AddIcons(icons, before) == before + AddIcons(icons, map[])
  {
    if icons != [] {
      IconsOnTop(icons[..|icons| - 1], before);
    }
  }

  function IconsOf(x: Example): map<string, Icon> {
    AddIcons(x.icons, map[])
  }

  lemma {:induction false} OwnIcon(core: map<string, Icon>, examples: seq<Example>, i: nat, p: string)
    requires ValidateAll(examples).Fine? && i < |examples| && p in IconsOf(examples[i])
    ensures p in MergedIcons(core, examples) && MergedIcons(core, examples)[p] == IconsOf(examples[i])[p]
  {
    var front, last := examples[..|examples| - 1], examples[|examples| - 1];
    IconsOnTop(last.icons, MergedIcons(core, front));
    if i < |front| {
      assert front[i] == examples[i];
      OwnIcon(core, front, i, p);
      IconsStayHome(examples, i, p);
      if p in IconsOf(last) {
        IconsStayHome(examples, |examples| - 1, p);
        ContributorsAreDistinct(examples, i, |examples| - 1);
      }
    }
  }

  lemma {:induction false} CoreIcon(core: map<string, Icon>, examples: seq<Example>, p: string)
    requires forall i :: 0 <= i < |examples| ==> p !in IconsOf(examples[i])
    ensures p in MergedIcons(core, examples) <==> p in core
    ensures p in core ==> MergedIcons(core, examples)[p] == core[p]
  {
    if examples != [] {
      var front := examples[..|examples| - 1];
      assert forall i :: 0 <= i < |front| ==> front[i] == examples[i];
      CoreIcon(core, front, p);
      IconsOnTop(examples[|examples| - 1].icons, MergedIcons(core, front));
    }
  }

  /** A path of an example's icons has that example's icon, any other path Core's. */
  lemma MergedIcon(core: map<string, Icon>, examples: seq<Example>, p: string)
    requires ValidateAll(examples).Fine?
    ensures var merged := MergedIcons(core, examples);
            && (forall i :: 0 <= i < |examples| && p in IconsOf(examples[i]) ==>
                  p in merged && merged[p] == IconsOf(examples[i])[p])
            && ((forall i :: 0 <= i < |examples| ==> p !in IconsOf(examples[i])) ==>
                  (p in merged <==> p in core) && (p in core ==> merged[p] == core[p]))
  {
    forall i | 0 <= i < |examples| && p in IconsOf(examples[i])
      ensures p in MergedIcons(core, examples) && MergedIcons(core, examples)[p] == IconsOf(examples[i])[p]
    {
      OwnIcon(core, examples, i, p);
    }
    if forall i :: 0 <= i < |examples| ==> p !in IconsOf(examples[i]) {
      CoreIcon(core, examples, p);
    }
  }

  lemma ValidatedIcons(x: Example, ids: set<string>, seen: map<string, string>)
    requires Validate(x, ids, seen).Fine?
    ensures IconsProblem(x.icons, OwnRoutes(x.routes)).None?
  {
  }

  lemma IconsStayHome(examples: seq<Example>, i: nat, p: string)
    requires ValidateAll(examples).Fine? && i < |examples| && p in IconsOf(examples[i])
    ensures p in OwnRoutes(examples[i].routes)
  {
    EachWasValidated(examples, i);
    ValidatedIcons(examples[i], Ids(examples[..i]), ValidateAll(examples[..i]).value);
    IconsAreOwn(examples[i].icons, OwnRoutes(examples[i].routes), map[]);
  }

  lemma MergedIconIn(core: map<string, Icon>, a: seq<Example>, b: seq<Example>, p: string)
    requires ValidateAll(a).Fine? && ValidateAll(b).Fine? && SameExamples(a, b)
    requires p in MergedIcons(core, a)
    ensures p in MergedIcons(core, b) && MergedIcons(core, b)[p] == MergedIcons(core, a)[p]
  {
    MergedIcon(core, a, p);
    MergedIcon(core, b, p);
    if i :| 0 <= i < |a| && p in IconsOf(a[i]) {
      assert a[i] in b;
      var j :| 0 <= j < |b| && b[j] == a[i];
    } else {
      forall j | 0 <= j < |b| ensures p !in IconsOf(b[j]) {
        assert b[j] in a;
        var i :| 0 <= i < |a| && a[i] == b[j];
      }
    }
  }

  lemma IconsIgnoreOrder(core: map<string, Icon>, a: seq<Example>, b: seq<Example>)
    requires ValidateAll(a).Fine? && ValidateAll(b).Fine? && SameExamples(a, b)
    ensures MergedIcons(core, a) == MergedIcons(core, b)
  {
    forall p | p in MergedIcons(core, a)
      ensures p in MergedIcons(core, b) && MergedIcons(core, b)[p] == MergedIcons(core, a)[p]
    {
      MergedIconIn(core, a, b, p);
    }
    forall p | p in MergedIcons(core, b) ensures p in MergedIcons(core, a) {
      MergedIconIn(core, b, a, p);
    }
  }

  /** When two orders of the same examples are both accepted, they give equal messages and icons. */
  lemma OrderDoesNotMatter(core: Core, a: seq<Example>, b: seq<Example>, pinned: Option<string>)
    requires Assemble(core, a, pinned).Fine? && Assemble(core, b, pinned).Fine? && SameExamples(a, b)
    ensures Assemble(core, a, pinned).value.zh == Assemble(core, b, pinned).value.zh
    ensures Assemble(core, a, pinned).value.en == Assemble(core, b, pinned).value.en
    ensures Assemble(core, a, pinned).value.icons == Assemble(core, b, pinned).value.icons
  {
    AcceptedAreWellNamed(a);
    AcceptedAreWellNamed(b);
    MergedIgnoresOrder(core.zh, a, b, false);
    MergedIgnoresOrder(core.en, a, b, true);
    IconsIgnoreOrder(core.icons, a, b);
  }
}
