/** Choosing an unused name for a download: apps/desktop/src/main.ts, uniqueSavePath. */
module SavePath {
  import opened JsonText

  /** lastIndexOf('.'). */
  function LastDot(name: string): (i: int)
    ensures -1 <= i < |name|
    ensures i >= 0 ==> name[i] == '.'
    ensures forall k :: i < k < |name| ==> name[k] != '.'
  {
    if name == [] then -1
    else if name[|name| - 1] == '.' then |name| - 1
    else LastDot(name[..|name| - 1])
  }

  /** The part before the extension; a leading dot starts no extension. */
  function Stem(name: string): string {
    if LastDot(name) > 0 then name[..LastDot(name)] else name
  }

  function Suffix(name: string): string {
    if LastDot(name) > 0 then name[LastDot(name)..] else ""
  }

  function Numbered(name: string, k: nat): string {
    Stem(name) + "-" + Digits(k) + Suffix(name)
  }

  /** The number goes between the name and its extension. */
  lemma NumberGoesBeforeTheExtension(stem: string, extension: string, k: nat)
    requires stem != "" && extension != "" && extension[0] == '.' && '.' !in extension[1..]
    ensures Numbered(stem + extension, k) == stem + "-" + Digits(k) + extension
  {
    var name := stem + extension;
    assert name[|stem|] == '.';
    forall i | |stem| < i < |name| ensures name[i] != '.' {
      assert name[i] == extension[1..][i - |stem| - 1];
    }
    assert LastDot(name) == |stem|;
    assert name[..|stem|] == stem && name[|stem|..] == extension;
  }

  /** A name without an extension, or of an extension only, is followed by the number. */
  lemma NumberGoesLast(name: string, k: nat)
    requires forall i :: 0 < i < |name| ==> name[i] != '.'
    ensures Numbered(name, k) == name + "-" + Digits(k)
  {
    assert LastDot(name) <= 0;
  }

  lemma NumbersAreDistinct(name: string, j: nat, k: nat)
    requires Numbered(name, j) == Numbered(name, k)
    ensures j == k
  {
    var front := Stem(name) + "-";
    var a, b := Numbered(name, j), Numbered(name, k);
    assert a == front + Digits(j) + Suffix(name) && b == front + Digits(k) + Suffix(name);
    assert Digits(j) == a[|front|..|a| - |Suffix(name)|];
    assert Digits(k) == b[|front|..|b| - |Suffix(name)|];
    DigitsReadBack(j);
    DigitsReadBack(k);
  }

  lemma NumberedIsLonger(name: string, k: nat)
    ensures |Numbered(name, k)| > |name|
  {
    assert name == Stem(name) + Suffix(name);
  }

  /** The name itself and its first k numbered forms. */
  ghost function FirstNames(name: string, k: nat): set<string> {
    if k == 0 then {name} else FirstNames(name, k - 1) + {Numbered(name, k)}
  }

  lemma {:induction false} FirstNamesAre(name: string, k: nat, x: string)
    ensures x in FirstNames(name, k) <==> x == name || exists i :: 1 <= i <= k && x == Numbered(name, i)
  {
    if k > 0 {
      FirstNamesAre(name, k - 1, x);
    }
  }

  /** No two of them coincide, so k numbered names and the name itself are k + 1 names. */
  lemma {:induction false} FirstNamesCount(name: string, k: nat)
    ensures |FirstNames(name, k)| == k + 1
  {
    if k > 0 {
      FirstNamesCount(name, k - 1);
      FirstNamesAre(name, k - 1, Numbered(name, k));
      NumberedIsLonger(name, k);
      forall i | 1 <= i < k ensures Numbered(name, i) != Numbered(name, k) {
        if Numbered(name, i) == Numbered(name, k) {
          NumbersAreDistinct(name, i, k);
        }
      }
    }
  }

  /** A directory that holds the first k + 1 names has at least k + 1 entries. */
  lemma Pigeonhole(name: string, k: nat, entries: set<string>)
    requires FirstNames(name, k) <= entries
    ensures k + 1 <= |entries|
  {
    FirstNamesCount(name, k);
    assert entries == FirstNames(name, k) + (entries - FirstNames(name, k));
  }

  /** What the search returns: the first of the name and its numbered forms that is not taken. */
  ghost predicate IsFirstFree(name: string, entries: set<string>, candidate: string, k: nat) {
    && candidate !in entries
    && candidate == (if k == 0 then name else Numbered(name, k))
    && (k > 0 ==> FirstNames(name, k - 1) <= entries)
  }

  /** There is exactly one such candidate. */
  lemma FirstFreeIsUnique(name: string, entries: set<string>, a: string, j: nat, b: string, k: nat)
    requires IsFirstFree(name, entries, a, j) && IsFirstFree(name, entries, b, k)
    ensures a == b && j == k
  {
    if j < k {
      TakenBefore(name, entries, j, k);
    } else if k < j {
      TakenBefore(name, entries, k, j);
    }
  }

  lemma TakenBefore(name: string, entries: set<string>, j: nat, k: nat)
    requires j < k && FirstNames(name, k - 1) <= entries
    ensures (if j == 0 then name else Numbered(name, j)) in entries
  {
    FirstNamesAre(name, k - 1, if j == 0 then name else Numbered(name, j));
  }

  /**
   * The search stops after at most as many increments as the directory has
   * entries, with the lowest-numbered name that is not taken.
   */
  method UniqueSavePath(filename: string, entries: set<string>) returns (candidate: string)
    ensures exists increments: nat :: increments <= |entries| && IsFirstFree(filename, entries, candidate, increments)
  {
    var dot := LastDot(filename);
    var stem := if dot > 0 then filename[..dot] else filename;
    var suffix := if dot > 0 then filename[dot..] else "";
    candidate := filename;
    var counter := 1;
    ghost var increments: nat := 0;
    while candidate in entries
      invariant counter == increments + 1
      invariant candidate == if increments == 0 then filename else Numbered(filename, increments)
      invariant increments > 0 ==> FirstNames(filename, increments - 1) <= entries
      invariant increments <= |entries|
      decreases |entries| - increments
    {
      Pigeonhole(filename, increments, entries);
      candidate := stem + "-" + Digits(counter) + suffix;
      counter := counter + 1;
      increments := increments + 1;
    }
    assert IsFirstFree(filename, entries, candidate, increments);
  }
}
