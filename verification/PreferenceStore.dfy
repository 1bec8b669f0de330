/** Where choices are kept in one tab: packages/views/src/shell/graphic-preferences.ts. */
module PreferenceStore {
  import opened Basics
  import opened UriComponent
  import opened GraphicPreference
  import opened PreferenceText

  // ----- keys ------------------------------------------------------------------------------------

  const PREFIX := "saas.graphic.v1:"

  /** No key without a user. */
  function KeyOf(user: Option<string>, entity: string): Option<string> {
    if user.None? || user.value == "" then None else Some(PREFIX + Encode(user.value) + ":" + Encode(entity))
  }

  /** Only the first colon can end text without a colon. */
  lemma FirstColon(a: string, x: string, b: string, y: string)
    requires a + ":" + x == b + ":" + y && ':' !in a && ':' !in b
    ensures a == b && x == y
  {
    var s := a + ":" + x;
    var t := b + ":" + y;
    assert s[|a|] == ':' && t[|b|] == ':';
    assert forall i :: 0 <= i < |a| ==> s[i] == a[i];
    assert forall i :: 0 <= i < |b| ==> t[i] == b[i];
    assert a == s[..|a|] && b == t[..|b|];
    assert x == s[|a| + 1..] && y == t[|b| + 1..];
  }

  /** Distinct pairs of user and entity never share a key. */
  lemma KeysAreDistinct(user: string, entity: string, user': string, entity': string)
    requires user != "" && KeyOf(Some(user), entity) == KeyOf(Some(user'), entity')
    ensures user == user' && entity == entity'
  {
    EncodedHasNoColon(user);
    EncodedHasNoColon(user');
    SplitKey(PREFIX, Encode(user), Encode(entity), Encode(user'), Encode(entity'));
    DecodeEncode(user);
    DecodeEncode(user');
    DecodeEncode(entity);
    DecodeEncode(entity');
  }

  lemma SplitKey(prefix: string, a: string, x: string, b: string, y: string)
    requires prefix + a + ":" + x == prefix + b + ":" + y && ':' !in a && ':' !in b
    ensures a == b && x == y
  {
    assert a + ":" + x == (prefix + a + ":" + x)[|prefix|..];
    assert b + ":" + y == (prefix + b + ":" + y)[|prefix|..];
    FirstColon(a, x, b, y);
  }

  // ----- reading and writing ---------------------------------------------------------------------

  /** local: localStorage. session: what could not be written there. */
  datatype Store = Store(local: map<string, JsString>, session: map<string, JsString>)

  /** The stored text; nothing when there is no key or storage cannot be read. */
  function RawOf(store: Store, key: Option<string>, readable: bool): JsString {
    if key.None? then []
    else if key.value in store.session then store.session[key.value]
    else if readable && key.value in store.local then store.local[key.value]
    else []
  }

  /** JSON.parse; None when it throws. */
  type Parser = JsString -> Option<Value>

  /** It parses at least the compact objects of strings. */
  ghost predicate ReadsFlat(parse: Parser) {
    forall text :: ParseFlat(text).Some? ==> parse(text) == ParseFlat(text)
  }

  /** The choice shown for stored text: the stored one if it is sound, else the identity's own. */
  function ChoiceOf(parse: Parser, raw: JsString, kind: GraphicKind, seed: JsString): Choice {
    if raw == [] || |raw| > 2048 || parse(raw).None? || ParseGraphic(parse(raw).value, kind).None?
    then DefaultGraphic(kind, seed)
    else ParseGraphic(parse(raw).value, kind).value
  }

  datatype Change = Change(user: Option<string>, entity: string, kind: GraphicKind, next: Value, writable: bool)

  /** The choice a change stores, if it is let through. */
  function Accepted(change: Change): Option<Choice> {
    if KeyOf(change.user, change.entity).None? then None else ParseGraphic(change.next, change.kind)
  }

  function Changed(store: Store, change: Change): Store {
    if Accepted(change).None? then store
    else
      var key := KeyOf(change.user, change.entity).value;
      var text := Stringify(Accepted(change).value);
      if change.writable then Store(store.local[key := text], store.session - {key})
      else store.(session := store.session[key := text])
  }

  class Preferences {
    var local: map<string, JsString>
    var session: map<string, JsString>

    function Contents(): Store
      reads this
    {
      Store(local, session)
    }

    /** A tab starts with whatever localStorage holds. */
    constructor (local: map<string, JsString>)
      ensures Contents() == Store(local, map[])
    {
      this.local := local;
      session := map[];
    }

    method Read(key: Option<string>, readable: bool) returns (raw: JsString)
      ensures raw == RawOf(Contents(), key, readable)
    {
      if key.None? { return []; }
      if key.value in session { return session[key.value]; }
      if !readable || key.value !in local { return []; }
      return local[key.value];
    }

    /** writable: whether localStorage takes the write. */
    method SetChoice(user: Option<string>, entity: string, kind: GraphicKind, next: Value, writable: bool)
      modifies this
      ensures Contents() == Changed(old(Contents()), Change(user, entity, kind, next, writable))
    {
      if user.None? || user.value == "" { return; }
      var key := PREFIX + Encode(user.value) + ":" + Encode(entity);
      var valid := ParseGraphic(next, kind);
      if valid.None? { return; }
      var serialized := Stringify(valid.value);
      if writable {
        local := local[key := serialized];
        session := session - {key};
      } else {
        session := session[key := serialized];
      }
    }

    method Shown(parse: Parser, user: Option<string>, entity: string, kind: GraphicKind, seed: JsString, readable: bool)
      returns (choice: Choice)
      ensures choice == ChoiceOf(parse, RawOf(Contents(), KeyOf(user, entity), readable), kind, seed)
    {
      var raw := Read(KeyOf(user, entity), readable);
      if raw != [] && |raw| <= 2048 {
        var value := parse(raw);
        if value.Some? {
          var parsed := ParseGraphic(value.value, kind);
          if parsed.Some? { return parsed.value; }
        }
      }
      return DefaultGraphic(kind, seed);
    }
  }

  // ----- one choice ------------------------------------------------------------------------------------

  /** A valid choice is written in at most 2048 characters and shown again as it was. */
  lemma StoredChoiceIsShown(parse: Parser, choice: Choice, kind: GraphicKind, seed: JsString)
    requires ReadsFlat(parse) && Valid(choice, kind)
    ensures |Stringify(choice)| <= 2048 && ChoiceOf(parse, Stringify(choice), kind, seed) == choice
  {
    StringifiedFits(choice, kind);
    StringifiedParses(choice);
    ParseKeepsValid(choice, kind);
  }

  /** Text that is missing, too long, unreadable or no valid choice shows the identity's own graphic. */
  lemma NothingSoundShowsTheDefault(parse: Parser, raw: JsString, kind: GraphicKind, seed: JsString)
    requires raw == [] || |raw| > 2048 || parse(raw).None? || ParseGraphic(parse(raw).value, kind).None?
    ensures ChoiceOf(parse, raw, kind, seed)
         == match kind
            case ForUser => Generated(Units("lorelei"), seed, None)
            case ForCollection => Generated(Units("glass"), seed, None)
  {
  }

  /** Without a user nothing is stored or read, and storage that cannot be read holds nothing. */
  lemma NothingWithoutUserOrStorage(store: Store, change: Change, key: string)
    requires change.user == None || change.user == Some("")
    ensures Changed(store, change) == store
    ensures RawOf(store, KeyOf(change.user, change.entity), true) == []
    ensures key !in store.session ==> RawOf(store, Some(key), false) == []
    ensures key in store.session ==> RawOf(store, Some(key), false) == store.session[key]
  {
  }

  // ----- runs in one tab -------------------------------------------------------------------------------

  function AfterAll(store: Store, changes: seq<Change>): Store {
    if changes == [] then store
    else Changed(AfterAll(store, changes[..|changes| - 1]), changes[|changes| - 1])
  }

  /** The last change of the key that was let through. */
  function LastAccepted(changes: seq<Change>, key: string): Option<Change> {
    if changes == [] then None
    else
      var last := changes[|changes| - 1];
      if KeyOf(last.user, last.entity) == Some(key) && Accepted(last).Some? then Some(last)
      else LastAccepted(changes[..|changes| - 1], key)
  }

  lemma {:induction false} RawIsLastAccepted(store: Store, changes: seq<Change>, key: string)
    ensures var last := LastAccepted(changes, key);
            && (last.Some? ==> Accepted(last.value).Some?)
            && RawOf(AfterAll(store, changes), Some(key), true)
               == if last.Some? then Stringify(Accepted(last.value).value) else RawOf(store, Some(key), true)
  {
    if changes != [] {
      RawIsLastAccepted(store, changes[..|changes| - 1], key);
    }
  }

  /**
   * Over any run in one tab, with writes failing arbitrarily, every user and
   * entity is shown the choice last accepted for them; other users and entities
   * make no difference to it.
   */
  lemma LastAcceptedIsShown(parse: Parser, store: Store, changes: seq<Change>, user: string, entity: string,
                            seed: JsString)
    requires ReadsFlat(parse) && user != ""
    requires LastAccepted(changes, KeyOf(Some(user), entity).value).Some?
    ensures var last := LastAccepted(changes, KeyOf(Some(user), entity).value).value;
            && last.user == Some(user) && last.entity == entity && Accepted(last).Some?
            && ChoiceOf(parse, RawOf(AfterAll(store, changes), KeyOf(Some(user), entity), true), last.kind, seed)
               == Accepted(last).value
  {
    var key := KeyOf(Some(user), entity).value;
    var last := LastAccepted(changes, key).value;
    RawIsLastAccepted(store, changes, key);
    LastAcceptedHasKey(changes, key);
    KeysAreDistinct(user, entity, last.user.value, last.entity);
    ParsedIsValid(last.next, last.kind);
    StoredChoiceIsShown(parse, Accepted(last).value, last.kind, seed);
  }

  lemma {:induction false} LastAcceptedHasKey(changes: seq<Change>, key: string)
    requires LastAccepted(changes, key).Some?
    ensures var last := LastAccepted(changes, key).value;
            KeyOf(last.user, last.entity) == Some(key) && Accepted(last).Some?
  {
    var last := changes[|changes| - 1];
    if !(KeyOf(last.user, last.entity) == Some(key) && Accepted(last).Some?) {
      LastAcceptedHasKey(changes[..|changes| - 1], key);
    }
  }
}
