/** Small values and facts the other modules share. */
module Basics {

  datatype Option<+T> = None | Some(value: T)

  /** True iff every element of the sequence is strictly above the one before it. */
  ghost predicate Ascending(xs: seq<nat>) {
    forall i, j :: 0 <= i < j < |xs| ==> xs[i] < xs[j]
  }

  ghost predicate IsSmallest(ids: set<nat>, m: nat) {
    m in ids && forall x :: x in ids ==> m <= x
  }

  lemma SmallestExists(ids: set<nat>)
    requires ids != {}
    ensures exists m :: IsSmallest(ids, m)
  {
    var y :| y in ids;
    var rest := ids - {y};
    var least := y;
    if rest != {} {
      SmallestExists(rest);
      var m :| IsSmallest(rest, m);
      least := if m <= y then m else y;
    }
    forall x | x in ids ensures least <= x {
      assert x == y || x in rest;
    }
    assert IsSmallest(ids, least);
  }

  function Smallest(ids: set<nat>): (m: nat)
    requires ids != {}
    ensures m in ids && forall x :: x in ids ==> m <= x
  {
    SmallestExists(ids);
    var m :| m in ids && forall x :: x in ids ==> m <= x;
    m
  }

  /** The ids of a finite set in ascending order: what ORDER BY id returns. */
  function Sorted(ids: set<nat>): (r: seq<nat>)
    ensures |r| == |ids|
  {
    if ids == {} then []
    else
      var m := Smallest(ids);
      [m] + Sorted(ids - {m})
  }

  lemma {:induction false} SortedHas(ids: set<nat>, x: nat)
    ensures x in Sorted(ids) <==> x in ids
  {
    if ids != {} {
      var m := Smallest(ids);
      SortedHas(ids - {m}, x);
    }
  }

  lemma {:induction false} SortedAscends(ids: set<nat>)
    ensures Ascending(Sorted(ids))
  {
    if ids != {} {
      var m := Smallest(ids);
      var rest := Sorted(ids - {m});
      SortedAscends(ids - {m});
      forall k | 0 <= k < |rest| ensures m < rest[k] {
        SortedHas(ids - {m}, rest[k]);
      }
    }
  }

  lemma SubsetSize(a: set<nat>, b: set<nat>)
    requires a <= b
    ensures |a| <= |b|
  {
    assert b == a + (b - a);
  }

  /** A sequence without repetitions is as long as the set of its elements. */
  ghost predicate Distinct<T>(xs: seq<T>) {
    forall i, j :: 0 <= i < j < |xs| ==> xs[i] != xs[j]
  }

  function Elements<T>(xs: seq<T>): set<T> {
    set x | x in xs
  }

  lemma {:induction false} ElementsCount<T>(xs: seq<T>)
    ensures |Elements(xs)| <= |xs|
    ensures |Elements(xs)| == |xs| <==> Distinct(xs)
  {
    if xs == [] {
    } else {
      var n := |xs| - 1;
      var front := xs[..n];
      ElementsCount(front);
      assert xs == front + [xs[n]];
      assert Elements(xs) == Elements(front) + {xs[n]};
      if xs[n] in front {
        assert Elements(xs) == Elements(front);
        var i :| 0 <= i < |front| && front[i] == xs[n];
        assert xs[i] == xs[n];
      } else if Distinct(front) {
        assert forall i :: 0 <= i < n ==> xs[i] == front[i];
      } else {
        var i, j :| 0 <= i < j < |front| && front[i] == front[j];
        assert xs[i] == xs[j];
      }
    }
  }
}
