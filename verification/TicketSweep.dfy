/** One round of the export expiry sweep: exports.rs, ExportExpiry::schedule. */
module TicketSweep {
  import opened Basics
  import opened TicketModel
  import opened TicketTransactions
  import opened TicketReferences

  const SWEEP_BATCH := 25

  function DueExports(exports: map<Id, ExportRow>, now: int): set<Id> {
    set e | e in exports && exports[e].expiresAt <= now && exports[e].Live()
  }

  /** The order of the sweep: by expiry, then by id. */
  predicate Before(exports: map<Id, ExportRow>, d: Id, e: Id)
    requires d in exports && e in exports
  {
    exports[d].expiresAt < exports[e].expiresAt || (exports[d].expiresAt == exports[e].expiresAt && d <= e)
  }

  ghost predicate IsEarliest(exports: map<Id, ExportRow>, ids: set<Id>, m: Id)
    requires ids <= exports.Keys
  {
    m in ids && forall e :: e in ids ==> Before(exports, m, e)
  }

  lemma EarliestExists(exports: map<Id, ExportRow>, ids: set<Id>)
    requires ids != {} && ids <= exports.Keys
    ensures exists m :: IsEarliest(exports, ids, m)
  {
    var y :| y in ids;
    if ids == {y} {
      assert IsEarliest(exports, ids, y);
    } else {
      EarliestExists(exports, ids - {y});
      var m :| IsEarliest(exports, ids - {y}, m);
      EarlierOfBoth(exports, ids, y, m, if Before(exports, m, y) then m else y);
    }
  }

  lemma EarlierOfBoth(exports: map<Id, ExportRow>, ids: set<Id>, y: Id, m: Id, first: Id)
    requires ids <= exports.Keys && y in ids && IsEarliest(exports, ids - {y}, m)
    requires first == if Before(exports, m, y) then m else y
    ensures IsEarliest(exports, ids, first)
  {
    forall e | e in ids ensures Before(exports, first, e) {
      if e != y {
        assert e in ids - {y};
        BeforeTransitive(exports, first, m, e);
      }
    }
  }

  lemma BeforeTransitive(exports: map<Id, ExportRow>, a: Id, b: Id, c: Id)
    requires a in exports && b in exports && c in exports
    requires Before(exports, a, b) && Before(exports, b, c)
    ensures Before(exports, a, c)
  {
  }

  function Earliest(exports: map<Id, ExportRow>, ids: set<Id>): (m: Id)
    requires ids != {} && ids <= exports.Keys
    ensures IsEarliest(exports, ids, m)
  {
    EarliestExists(exports, ids);
    EarliestIsUnique(exports, ids);
    var m :| m in ids && forall e :: e in ids ==> Before(exports, m, e);
    m
  }

  lemma EarliestIsUnique(exports: map<Id, ExportRow>, ids: set<Id>)
    requires ids <= exports.Keys
    ensures forall a, b :: IsEarliest(exports, ids, a) && IsEarliest(exports, ids, b) ==> a == b
  {
  }

  /** The n earliest of the given exports, in order. */
  function FirstOf(exports: map<Id, ExportRow>, ids: set<Id>, n: nat): seq<Id>
    requires ids <= exports.Keys
    decreases n
  {
    if n == 0 || ids == {} then []
    else
      var e := Earliest(exports, ids);
      [e] + FirstOf(exports, ids - {e}, n - 1)
  }

  lemma {:induction false} FirstOfAre(exports: map<Id, ExportRow>, ids: set<Id>, n: nat)
    requires ids <= exports.Keys
    ensures var batch := FirstOf(exports, ids, n);
            && |batch| == (if n < |ids| then n else |ids|)
            && Elements(batch) <= ids
            && (forall d, e :: d in batch && e in ids && e !in batch ==> Before(exports, d, e))
    decreases n
  {
    if n != 0 && ids != {} {
      FirstOfAre(exports, ids - {Earliest(exports, ids)}, n - 1);
    }
  }

  /** The rows one after the other, each in its own transaction. */
  function ExpireEach(s: State, batch: seq<Id>): State
    decreases |batch|
  {
    if batch == [] then s else ExpireEach(ExpireExport(s, batch[0]), batch[1..])
  }

  function AfterRound(s: State): State {
    ExpireEach(s, FirstOf(s.exports, DueExports(s.exports, s.now), SWEEP_BATCH))
  }

  lemma ExpireClears(s: State, e: Id)
    requires ExportFilesOk(s)
    ensures !Due(ExpireExport(s, e), e)
    ensures ExpireExport(s, e).now == s.now && ExpireExport(s, e).exports.Keys == s.exports.Keys
    ensures forall d :: d in s.exports && d != e ==> ExpireExport(s, e).exports[d] == s.exports[d]
  {
    if Due(s, e) {
      assert FileOf(s.exports[e]) <= s.files.Keys by {
        forall f | f in FileOf(s.exports[e]) ensures f in s.files {
          assert Holds(s.exports, e, f);
        }
      }
    }
  }

  lemma {:induction false} EachClears(s: State, batch: seq<Id>)
    requires References(s)
    ensures var after := ExpireEach(s, batch);
            && after.now == s.now && after.exports.Keys == s.exports.Keys
            && (forall e :: e in batch ==> !Due(after, e))
            && (forall e :: e in s.exports && e !in batch ==> after.exports[e] == s.exports[e])
            && (forall e :: e in s.exports && !Due(s, e) ==> after.exports[e] == s.exports[e])
    decreases |batch|
  {
    if batch != [] {
      var next := ExpireExport(s, batch[0]);
      ExpireKeepsReferences(s, batch[0]);
      ExpireClears(s, batch[0]);
      EachClears(next, batch[1..]);
      var after := ExpireEach(s, batch);
      forall e | e in batch ensures !Due(after, e) {
        if e !in batch[1..] { assert e == batch[0]; }
      }
    }
  }

  /** The export still has data, and its time is over. */
  ghost predicate IsDueAt(exports: map<Id, ExportRow>, now: int, e: Id) {
    e in exports && exports[e].expiresAt <= now && (exports[e].snapshot.Some? || exports[e].file.Some?)
  }

  /**
   * One round clears the 25 exports that expired first, or all of them if there
   * are fewer, the smaller id first among equals, and leaves every other export
   * row alone.
   */
  lemma RoundClearsEarliest(s: State)
    requires References(s)
    ensures var after := AfterRound(s);
            var due := set e | e in s.exports && IsDueAt(s.exports, s.now, e);
            var left := set e | e in after.exports && IsDueAt(after.exports, s.now, e);
            && left <= due && |due - left| == (if |due| > 25 then 25 else |due|)
            && (forall d, e :: d in due - left && e in left ==>
                  s.exports[d].expiresAt < s.exports[e].expiresAt
                  || (s.exports[d].expiresAt == s.exports[e].expiresAt && d < e))
            && (forall e :: e in s.exports && e !in due - left ==>
                  e in after.exports && after.exports[e] == s.exports[e])
  {
    hide AfterRound, DueExports, IsDueAt, References;
    RoundTakesEarliest(s);
    DueAre(s.exports, s.now);
    DueAre(AfterRound(s).exports, s.now);
  }

  lemma DueAre(exports: map<Id, ExportRow>, now: int)
    ensures DueExports(exports, now) == set e | e in exports && IsDueAt(exports, now, e)
  {
  }

  lemma RoundTakesEarliest(s: State)
    requires References(s)
    ensures var due := DueExports(s.exports, s.now);
            var left := DueExports(AfterRound(s).exports, s.now);
            && left <= due
            && |due - left| == (if SWEEP_BATCH < |due| then SWEEP_BATCH else |due|)
            && (forall d, e :: d in due - left && e in left ==> Before(s.exports, d, e))
            && (forall e :: e in s.exports && e !in due - left ==>
                  e in AfterRound(s).exports && AfterRound(s).exports[e] == s.exports[e])
  {
    RoundTakesBatch(s);
    FirstOfAre(s.exports, DueExports(s.exports, s.now), SWEEP_BATCH);
    FirstOfDistinct(s.exports, DueExports(s.exports, s.now), SWEEP_BATCH);
    ElementsCount(FirstOf(s.exports, DueExports(s.exports, s.now), SWEEP_BATCH));
  }

  /** What a round leaves due is what it did not select. */
  lemma RoundTakesBatch(s: State)
    requires References(s)
    ensures var due := DueExports(s.exports, s.now);
            var batch := FirstOf(s.exports, due, SWEEP_BATCH);
            var left := DueExports(AfterRound(s).exports, s.now);
            && left <= due && due - left == Elements(batch)
            && (forall e :: e in s.exports && e !in Elements(batch) ==>
                  e in AfterRound(s).exports && AfterRound(s).exports[e] == s.exports[e])
  {
    hide FirstOf;
    var due := DueExports(s.exports, s.now);
    var batch := FirstOf(s.exports, due, SWEEP_BATCH);
    FirstOfAre(s.exports, due, SWEEP_BATCH);
    EachClears(s, batch);
    BatchIsGone(s, ExpireEach(s, batch), batch);
  }

  lemma BatchIsGone(s: State, after: State, batch: seq<Id>)
    requires after.now == s.now && after.exports.Keys == s.exports.Keys
    requires Elements(batch) <= DueExports(s.exports, s.now)
    requires forall e :: e in batch ==> !Due(after, e)
    requires forall e :: e in s.exports && e !in batch ==> after.exports[e] == s.exports[e]
    ensures DueExports(after.exports, s.now) == DueExports(s.exports, s.now) - Elements(batch)
  {
    forall e | e in DueExports(after.exports, s.now) ensures e in DueExports(s.exports, s.now) - Elements(batch) {
      assert Due(after, e);
    }
  }

  lemma {:induction false} FirstOfDistinct(exports: map<Id, ExportRow>, ids: set<Id>, n: nat)
    requires ids <= exports.Keys
    ensures Distinct(FirstOf(exports, ids, n))
    decreases n
  {
    if n != 0 && ids != {} {
      var e := Earliest(exports, ids);
      FirstOfDistinct(exports, ids - {e}, n - 1);
      FirstOfAre(exports, ids - {e}, n - 1);
      var rest := FirstOf(exports, ids - {e}, n - 1);
      assert forall i :: 0 <= i < |rest| ==> rest[i] in Elements(rest);
    }
  }
}
