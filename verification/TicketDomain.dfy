/** The input bounds of a ticket: examples/tutorial-tickets/domain.rs. */
module TicketDomain {
  import opened Basics

  datatype Content = Content(title: string, description: string)

  const MAX_TITLE_CHARS := 200
  const MAX_DESCRIPTION_BYTES := 8192

  /** Bytes of one character in UTF-8 (Rust strings are UTF-8). */
  function Width(c: char): (n: nat)
    ensures 1 <= n <= 4
  {
    if c < '\U{80}' then 1 else if c < '\U{800}' then 2 else if c < '\U{10000}' then 3 else 4
  }

  function ByteLength(s: string): (n: nat) {
    if s == [] then 0 else Width(s[0]) + ByteLength(s[1..])
  }

  /** Unicode White_Space, which Rust's trim removes from both ends. */
  predicate IsWhitespace(c: char) {
    || '\U{9}' <= c <= '\U{D}'
    || c in {' ', '\U{85}', '\U{A0}', '\U{1680}', '\U{2028}', '\U{2029}', '\U{202F}', '\U{205F}', '\U{3000}'}
    || '\U{2000}' <= c <= '\U{200A}'
  }

  function TrimStart(s: string): string {
    if s != [] && IsWhitespace(s[0]) then TrimStart(s[1..]) else s
  }

  function TrimEnd(s: string): string {
    if s != [] && IsWhitespace(s[|s| - 1]) then TrimEnd(s[..|s| - 1]) else s
  }

  function Trim(s: string): string {
    TrimEnd(TrimStart(s))
  }

  /** Content::new: the only way a title and a description enter the module. */
  function New(title: string, description: string): Option<Content> {
    var trimmed := Trim(title);
    if |trimmed| == 0 || |trimmed| > MAX_TITLE_CHARS || ByteLength(description) > MAX_DESCRIPTION_BYTES
       || '\0' in trimmed || '\0' in description
    then None
    else Some(Content(trimmed, description))
  }

  /** What the table's CHECK constraints demand of a row, plus the absence of NUL. */
  predicate Fits(title: string, description: string) {
    && 1 <= |title| <= 200
    && ByteLength(description) <= 8192
    && '\0' !in title && '\0' !in description
  }

  lemma {:induction false} TrimStartClean(s: string)
    ensures TrimStart(s) != [] ==> !IsWhitespace(TrimStart(s)[0])
  {
    if s != [] && IsWhitespace(s[0]) {
      TrimStartClean(s[1..]);
    }
  }

  lemma {:induction false} TrimEndClean(s: string)
    ensures TrimEnd(s) <= s
    ensures TrimEnd(s) != [] ==> !IsWhitespace(TrimEnd(s)[|TrimEnd(s)| - 1])
  {
    if s != [] && IsWhitespace(s[|s| - 1]) {
      TrimEndClean(s[..|s| - 1]);
    }
  }

  /**
   * Accepted input fits the columns, and what was accepted is accepted again
   * unchanged: a title read back from a row can always be submitted as it is.
   */
  lemma AcceptedIsStable(title: string, description: string)
    requires New(title, description).Some?
    ensures var c := New(title, description).value;
            Fits(c.title, c.description) && New(c.title, c.description) == Some(c)
  {
    var start := TrimStart(title);
    TrimStartClean(title);
    TrimEndClean(start);
    var kept := Trim(title);
    assert kept[0] == start[0];
  }

  /** The code points of the property White_Space. */
  lemma WhitespaceAre(c: char)
    ensures IsWhitespace(c)
       <==> var n := c as int;
            || 9 <= n <= 13 || n == 32 || n == 133 || n == 160 || n == 5760 || 8192 <= n <= 8202
            || n == 8232 || n == 8233 || n == 8239 || n == 8287 || n == 12288
  {
  }

  // ----- what is accepted, and as what --------------------------------------------------------------

  ghost predicate AllWhitespace(s: string) {
    forall i :: 0 <= i < |s| ==> IsWhitespace(s[i])
  }

  /** Nothing is left to trim at either end. */
  ghost predicate IsTrimmed(s: string) {
    s != [] ==> !IsWhitespace(s[0]) && !IsWhitespace(s[|s| - 1])
  }

  /** The core of a text: what stands between whitespace at its two ends. */
  ghost predicate IsCoreOf(title: string, before: string, core: string, after: string) {
    title == before + core + after && AllWhitespace(before) && AllWhitespace(after) && IsTrimmed(core)
  }

  lemma {:induction false} TrimStartCuts(s: string) returns (before: string)
    ensures s == before + TrimStart(s) && AllWhitespace(before)
  {
    if s != [] && IsWhitespace(s[0]) {
      var more := TrimStartCuts(s[1..]);
      before := [s[0]] + more;
    } else {
      before := [];
    }
  }

  lemma {:induction false} TrimEndCuts(s: string) returns (after: string)
    ensures s == TrimEnd(s) + after && AllWhitespace(after)
  {
    if s != [] && IsWhitespace(s[|s| - 1]) {
      var more := TrimEndCuts(s[..|s| - 1]);
      after := more + [s[|s| - 1]];
      assert s == s[..|s| - 1] + [s[|s| - 1]];
    } else {
      after := [];
    }
  }

  lemma TrimIsCore(title: string) returns (before: string, after: string)
    ensures IsCoreOf(title, before, Trim(title), after)
  {
    before := TrimStartCuts(title);
    after := TrimEndCuts(TrimStart(title));
    TrimStartClean(title);
    TrimEndClean(TrimStart(title));
  }

  /** A text has one core only. */
  lemma CoreIsUnique(title: string, a: string, x: string, b: string, c: string, y: string, d: string)
    requires IsCoreOf(title, a, x, b) && IsCoreOf(title, c, y, d)
    ensures x == y
  {
    if x == [] || y == [] {
      BlankHasEmptyCore(title, a, x, b);
      BlankHasEmptyCore(title, c, y, d);
    } else {
      CoreSpans(title, a, x, b);
      CoreSpans(title, c, y, d);
    }
  }

  lemma CoreSpans(title: string, a: string, x: string, b: string)
    requires IsCoreOf(title, a, x, b) && x != []
    ensures x == title[|a|..|title| - |b|]
    ensures (forall i :: 0 <= i < |a| ==> IsWhitespace(title[i])) && !IsWhitespace(title[|a|])
    ensures forall i :: |title| - |b| <= i < |title| ==> IsWhitespace(title[i])
    ensures !IsWhitespace(title[|title| - |b| - 1])
  {
    assert forall i :: 0 <= i < |a| ==> title[i] == a[i];
    assert forall i :: |title| - |b| <= i < |title| ==> title[i] == b[i - (|title| - |b|)];
    assert title[|a|] == x[0] && title[|title| - |b| - 1] == x[|x| - 1];
  }

  lemma BlankHasEmptyCore(title: string, a: string, x: string, b: string)
    requires IsCoreOf(title, a, x, b)
    ensures AllWhitespace(title) <==> x == []
  {
    if x != [] {
      assert title[|a|] == x[0];
    }
  }

  /**
   * What becomes of a title and a description: the title loses the whitespace at
   * its ends and nothing else, the description is kept as it is, and they are
   * accepted exactly when the title then has 1 to 200 characters, the description
   * at most 8192 bytes, and neither holds NUL.
   */
  lemma AcceptedAsSubmitted(title: string, description: string, before: string, core: string, after: string)
    requires IsCoreOf(title, before, core, after)
    ensures New(title, description)
         == if Fits(core, description) then Some(Content(core, description)) else None
  {
    var a, b := TrimIsCore(title);
    CoreIsUnique(title, before, core, after, a, Trim(title), b);
  }

  /** Every title has such a core. */
  lemma EveryTitleHasACore(title: string) returns (before: string, core: string, after: string)
    ensures IsCoreOf(title, before, core, after)
  {
    core := Trim(title);
    before, after := TrimIsCore(title);
  }
}
