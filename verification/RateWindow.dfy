/** The fixed-window counter: crates/platform/src/rate_limit.rs and its Redis script. */
module RateWindow {
  import opened JsonText

  /** What a key holds: a whole number of uses, or text the script refuses. */
  datatype Stored = Uses(n: nat) | Unreadable
  datatype Counter = Counter(stored: Stored, expiresAt: int)

  datatype ScriptReply = Granted | Exhausted | InvalidCounter

  /** What becomes of one call: its request may get lost, or only its reply. */
  datatype Fate = NotApplied | ReplyLost | Delivered

  datatype Answer = Allowed(allowed: bool) | CounterUnavailable

  type Client = bytes: seq<nat> | |bytes| == 32 && forall i :: 0 <= i < |bytes| ==> bytes[i] < 256
    witness seq(32, _ => 0)

  // ----- the script -----------------------------------------------------------------------------

  predicate Alive(counters: map<string, Counter>, now: int, key: string) {
    key in counters && now < counters[key].expiresAt
  }

  /** What GET finds: an expired key is as good as none. */
  function Current(counters: map<string, Counter>, now: int, key: string): Stored {
    if Alive(counters, now, key) then counters[key].stored else Uses(0)
  }

  function ReplyOf(current: Stored, limit: nat): ScriptReply {
    match current
    case Unreadable => InvalidCounter
    case Uses(n) => if n >= limit then Exhausted else Granted
  }

  function Consumed(counters: map<string, Counter>, now: int, key: string, limit: nat, ttl: nat): map<string, Counter> {
    var current := Current(counters, now, key);
    if ReplyOf(current, limit).Granted? then counters[key := Counter(Uses(current.n + 1), now + ttl)] else counters
  }

  // ----- keys ------------------------------------------------------------------------------------

  function Hex(bytes: seq<nat>): string
    requires forall i :: 0 <= i < |bytes| ==> bytes[i] < 256
  {
    if bytes == [] then "" else [HexDigit(bytes[0] / 16), HexDigit(bytes[0] % 16)] + Hex(bytes[1..])
  }

  function KeyFor(prefix: string, policy: string, window: nat, client: Client): string {
    prefix + ":rate:" + policy + ":" + Digits(window) + ":" + Hex(client)
  }

  lemma {:induction false} HexLength(bytes: seq<nat>)
    requires forall i :: 0 <= i < |bytes| ==> bytes[i] < 256
    ensures |Hex(bytes)| == 2 * |bytes|
  {
    if bytes != [] {
      HexLength(bytes[1..]);
    }
  }

  lemma {:induction false} HexInjective(a: seq<nat>, b: seq<nat>)
    requires forall i :: 0 <= i < |a| ==> a[i] < 256
    requires forall i :: 0 <= i < |b| ==> b[i] < 256
    requires Hex(a) == Hex(b)
    ensures a == b
  {
    HexLength(a);
    HexLength(b);
    if a != [] {
      var s, t := Hex(a), Hex(b);
      assert s[0] == t[0] && s[1] == t[1];
      assert HexValue(s[0]).value == a[0] / 16 && HexValue(t[0]).value == b[0] / 16;
      assert HexValue(s[1]).value == a[0] % 16 && HexValue(t[1]).value == b[0] % 16;
      assert s[2..] == Hex(a[1..]) && t[2..] == Hex(b[1..]);
      HexInjective(a[1..], b[1..]);
      assert a == [a[0]] + a[1..] && b == [b[0]] + b[1..];
    }
  }

  lemma {:induction false} DigitsInjective(m: nat, n: nat)
    requires Digits(m) == Digits(n)
    ensures m == n
  {
    DigitsReadBack(m);
    DigitsReadBack(n);
  }

  /** Only the last colon can separate text without a colon. */
  lemma LastColon(a: string, d: string, b: string, e: string)
    requires a + ":" + d == b + ":" + e
    requires AllDigits(d) && AllDigits(e)
    ensures a == b && d == e
  {
    var s := a + ":" + d;
    var t := b + ":" + e;
    assert s[|a|] == ':' && t[|b|] == ':';
    assert forall i :: |a| < i < |s| ==> s[i] == d[i - |a| - 1] && IsDigit(s[i]);
    assert forall i :: |b| < i < |t| ==> t[i] == e[i - |b| - 1] && IsDigit(t[i]);
    assert a == s[..|a|] && b == t[..|b|];
    assert d == s[|a| + 1..] && e == t[|b| + 1..];
  }

  /** Distinct triples never share a key, even when policies contain colons. */
  lemma KeysAreDistinct(prefix: string, policy: string, window: nat, client: Client,
                        policy': string, window': nat, client': Client)
    requires KeyFor(prefix, policy, window, client) == KeyFor(prefix, policy', window', client')
    ensures policy == policy' && window == window' && client == client'
  {
    HexLength(client);
    HexLength(client');
    var key, key' := KeyFor(prefix, policy, window, client), KeyFor(prefix, policy', window', client');
    var head := prefix + ":rate:";
    var middle, middle' := policy + ":" + Digits(window), policy' + ":" + Digits(window');
    assert key == head + middle + ":" + Hex(client) && key' == head + middle' + ":" + Hex(client');
    assert Hex(client) == key[|key| - 64..] && Hex(client') == key'[|key'| - 64..];
    assert middle == key[|head|..|key| - 65] && middle' == key'[|head|..|key'| - 65];
    LastColon(policy, Digits(window), policy', Digits(window'));
    DigitsInjective(window, window');
    HexInjective(client, client');
  }

  // ----- the client ---------------------------------------------------------------------------------

  /** The time to live the script is given. */
  function TimeToLive(remaining: nat): nat {
    if remaining < 1 then 1 else remaining
  }

  function AnswerOf(reply: ScriptReply, fate: Fate): Answer {
    if !fate.Delivered? || reply.InvalidCounter? then CounterUnavailable else Allowed(reply.Granted?)
  }

  class WindowCounter {
    const prefix: string
    var now: int
    var counters: map<string, Counter>

    constructor (prefix: string, now: int)
      ensures this.prefix == prefix && this.now == now && counters == map[]
    {
      this.prefix := prefix;
      this.now := now;
      counters := map[];
    }

    /** The script, one atomic operation on the server. */
    method Consume(key: string, limit: nat, ttl: nat) returns (reply: ScriptReply)
      modifies `counters
      ensures reply == ReplyOf(Current(old(counters), now, key), limit)
      ensures counters == Consumed(old(counters), now, key, limit, ttl)
    {
      var current := 0;
      if key in counters && now < counters[key].expiresAt {
        match counters[key].stored {
          case Unreadable => return InvalidCounter;
          case Uses(n) => current := n;
        }
      }
      if current >= limit { return Exhausted; }
      counters := counters[key := Counter(Uses(current + 1), now + ttl)];
      return Granted;
    }

    /** One bounded attempt: the script runs at most once, and its reply may be lost. */
    method Allow(policy: string, client: Client, window: nat, remaining: nat, limit: nat, fate: Fate)
      returns (r: Answer)
      modifies `counters
      ensures var key := KeyFor(prefix, policy, window, client);
              && counters == (if fate.NotApplied? then old(counters)
                              else Consumed(old(counters), now, key, limit, TimeToLive(remaining)))
              && r == AnswerOf(ReplyOf(Current(old(counters), now, key), limit), fate)
    {
      if fate.NotApplied? { return CounterUnavailable; }
      var key := KeyFor(prefix, policy, window, client);
      var reply := Consume(key, limit, if remaining < 1 then 1 else remaining);
      if fate.ReplyLost? || reply.InvalidCounter? { return CounterUnavailable; }
      return Allowed(reply.Granted?);
    }
  }

  // ----- runs of calls ---------------------------------------------------------------------------------

  datatype Call = Call(at: int, policy: string, client: Client, window: nat, remaining: nat, limit: nat, fate: Fate)

  function KeyOf(prefix: string, call: Call): string {
    KeyFor(prefix, call.policy, call.window, call.client)
  }

  function After(prefix: string, counters: map<string, Counter>, call: Call): map<string, Counter> {
    if call.fate.NotApplied? then counters
    else Consumed(counters, call.at, KeyOf(prefix, call), call.limit, TimeToLive(call.remaining))
  }

  function AnswerTo(prefix: string, counters: map<string, Counter>, call: Call): Answer {
    AnswerOf(ReplyOf(Current(counters, call.at, KeyOf(prefix, call)), call.limit), call.fate)
  }

  /**
   * What one call does and is answered: a use is counted, and the counter's life
   * renewed by what remains of the window but at least one tick, unless the limit
   * is reached or the counter cannot be read; and it is answered only if its reply
   * arrives.
   */
  lemma CallAnswers(prefix: string, counters: map<string, Counter>, call: Call)
    ensures var key := prefix + ":rate:" + call.policy + ":" + Digits(call.window) + ":" + Hex(call.client);
            var alive := key in counters && call.at < counters[key].expiresAt;
            var (after, answer) := (After(prefix, counters, call), AnswerTo(prefix, counters, call));
            if call.fate == NotApplied || (alive && counters[key].stored == Unreadable)
            then after == counters && answer == CounterUnavailable
            else
              var used := if alive then counters[key].stored.n else 0;
              && after == (if used >= call.limit then counters
                           else counters[key := Counter(Uses(used + 1),
                                                        call.at + if call.remaining == 0 then 1 else call.remaining)])
              && answer == if call.fate == ReplyLost then CounterUnavailable else Allowed(used < call.limit)
  {
  }

  /** How many calls under this key were answered true. */
  function TrueAnswers(prefix: string, counters: map<string, Counter>, calls: seq<Call>, key: string): nat
    decreases |calls|
  {
    if calls == [] then 0
    else
      (if KeyOf(prefix, calls[0]) == key && AnswerTo(prefix, counters, calls[0]) == Allowed(true) then 1 else 0)
      + TrueAnswers(prefix, After(prefix, counters, calls[0]), calls[1..], key)
  }

  /** How many calls were made under this key. */
  function CallsUnder(prefix: string, calls: seq<Call>, key: string): nat
    decreases |calls|
  {
    if calls == [] then 0 else (if KeyOf(prefix, calls[0]) == key then 1 else 0) + CallsUnder(prefix, calls[1..], key)
  }

  /**
   * The calls under this key reach the server before the window ends, and ask
   * for the counter to live at least until then.
   */
  ghost predicate InWindow(prefix: string, calls: seq<Call>, key: string, end: int, limit: nat) {
    forall i :: 0 <= i < |calls| && KeyOf(prefix, calls[i]) == key ==>
      calls[i].at < end <= calls[i].at + TimeToLive(calls[i].remaining) && calls[i].limit <= limit
  }

  /** A counter that exists lives to the end of the window. */
  ghost predicate LivesUntil(counters: map<string, Counter>, key: string, end: int) {
    key in counters ==> end <= counters[key].expiresAt
  }

  function UsesOf(counters: map<string, Counter>, key: string): nat {
    if key in counters && counters[key].stored.Uses? then counters[key].stored.n else 0
  }

  lemma CallKeepsCount(prefix: string, counters: map<string, Counter>, call: Call, key: string, end: int, limit: nat)
    requires LivesUntil(counters, key, end)
    requires KeyOf(prefix, call) == key ==> call.at < end <= call.at + TimeToLive(call.remaining) && call.limit <= limit
    ensures var after := After(prefix, counters, call);
            && LivesUntil(after, key, end)
            && UsesOf(counters, key) <= UsesOf(after, key) <= UsesOf(counters, key) + 1
            && (UsesOf(after, key) > UsesOf(counters, key) ==>
                  KeyOf(prefix, call) == key && UsesOf(after, key) <= limit)
            && (KeyOf(prefix, call) == key && AnswerTo(prefix, counters, call) == Allowed(true) ==>
                  UsesOf(after, key) == UsesOf(counters, key) + 1)
  {
  }

  lemma {:induction false} AnswersBounded(prefix: string, counters: map<string, Counter>, calls: seq<Call>, key: string,
                                          end: int, limit: nat)
    requires LivesUntil(counters, key, end) && InWindow(prefix, calls, key, end, limit)
    ensures TrueAnswers(prefix, counters, calls, key) == 0
         || TrueAnswers(prefix, counters, calls, key) + UsesOf(counters, key) <= limit
    decreases |calls|
  {
    if calls != [] {
      CallKeepsCount(prefix, counters, calls[0], key, end, limit);
      assert forall i :: 0 <= i < |calls[1..]| ==> calls[1..][i] == calls[i + 1];
      AnswersBounded(prefix, After(prefix, counters, calls[0]), calls[1..], key, end, limit);
    }
  }

  /**
   * The window limit: over any run of calls, of any policies and clients, with
   * requests or replies lost anywhere, at most `limit` calls of one triple are
   * answered true.
   */
  lemma WindowLimit(prefix: string, calls: seq<Call>, policy: string, window: nat, client: Client, end: int, limit: nat)
    requires InWindow(prefix, calls, KeyFor(prefix, policy, window, client), end, limit)
    ensures TrueAnswers(prefix, map[], calls, KeyFor(prefix, policy, window, client)) <= limit
  {
    AnswersBounded(prefix, map[], calls, KeyFor(prefix, policy, window, client), end, limit);
  }

  /**
   * The caller computes the window and the remaining time from its own clock;
   * however long the request travels, the counter it renews outlives the window.
   */
  lemma CallerOutlivesWindow(now: nat, length: nat, at: int)
    requires length > 0 && now <= at
    ensures 1 <= length - now % length
    ensures (now / length + 1) * length <= at + TimeToLive(length - now % length)
  {
    assert now == now / length * length + now % length;
    assert (now / length + 1) * length == now / length * length + length;
  }

  /** When every call gets through, the limit is used up exactly: the first `limit` calls succeed. */
  lemma {:induction false} NothingIsWasted(prefix: string, counters: map<string, Counter>, calls: seq<Call>,
                                           key: string, end: int, limit: nat)
    requires LivesUntil(counters, key, end) && InWindow(prefix, calls, key, end, limit)
    requires forall i :: 0 <= i < |calls| && KeyOf(prefix, calls[i]) == key ==>
      calls[i].fate.Delivered? && calls[i].limit == limit
    requires key in counters ==> counters[key].stored.Uses?
    requires UsesOf(counters, key) <= limit
    ensures TrueAnswers(prefix, counters, calls, key)
         == if UsesOf(counters, key) + CallsUnder(prefix, calls, key) <= limit then CallsUnder(prefix, calls, key)
            else limit - UsesOf(counters, key)
    decreases |calls|
  {
    if calls != [] {
      CallKeepsCount(prefix, counters, calls[0], key, end, limit);
      assert forall i :: 0 <= i < |calls[1..]| ==> calls[1..][i] == calls[i + 1];
      NothingIsWasted(prefix, After(prefix, counters, calls[0]), calls[1..], key, end, limit);
    }
  }

  // ----- where the limit ends ------------------------------------------------------------------------------

  /** What a run of calls leaves on the server. */
  function AfterAll(prefix: string, counters: map<string, Counter>, calls: seq<Call>): map<string, Counter>
    decreases |calls|
  {
    if calls == [] then counters else AfterAll(prefix, After(prefix, counters, calls[0]), calls[1..])
  }

  lemma {:induction false} AnswersAppend(prefix: string, counters: map<string, Counter>, a: seq<Call>, last: Call,
                                         key: string)
    requires KeyOf(prefix, last) == key
    ensures TrueAnswers(prefix, counters, a + [last], key)
         == TrueAnswers(prefix, counters, a, key)
            + if AnswerTo(prefix, AfterAll(prefix, counters, a), last) == Allowed(true) then 1 else 0
    decreases |a|
  {
    if a == [] {
      assert a + [last] == [last];
      assert TrueAnswers(prefix, After(prefix, counters, last), [last][1..], key) == 0;
    } else {
      assert (a + [last])[1..] == a[1..] + [last];
      AnswersAppend(prefix, After(prefix, counters, a[0]), a[1..], last, key);
    }
  }

  /** The counter holds exactly the true answers, as long as no reply is lost. */
  ghost predicate Counted(counters: map<string, Counter>, key: string, n: nat) {
    (key in counters ==> counters[key].stored == Uses(n)) && (key !in counters ==> n == 0)
  }

  lemma {:induction false} CounterIsExact(prefix: string, counters: map<string, Counter>, calls: seq<Call>, key: string,
                                          end: int, limit: nat)
    requires LivesUntil(counters, key, end) && InWindow(prefix, calls, key, end, limit)
    requires forall i :: 0 <= i < |calls| && KeyOf(prefix, calls[i]) == key ==> calls[i].fate.Delivered?
    requires key in counters ==> counters[key].stored.Uses?
    ensures Counted(AfterAll(prefix, counters, calls), key,
                    UsesOf(counters, key) + TrueAnswers(prefix, counters, calls, key))
    decreases |calls|
  {
    if calls != [] {
      CallKeepsCount(prefix, counters, calls[0], key, end, limit);
      assert forall i :: 0 <= i < |calls[1..]| ==> calls[1..][i] == calls[i + 1];
      CounterIsExact(prefix, After(prefix, counters, calls[0]), calls[1..], key, end, limit);
    }
  }

  /** A counter lives no longer than one of the calls that renewed it asked for. */
  lemma {:induction false} CounterExpires(prefix: string, counters: map<string, Counter>, calls: seq<Call>, key: string,
                                          late: int)
    requires key in counters ==> counters[key].expiresAt <= late
    requires forall i :: 0 <= i < |calls| && KeyOf(prefix, calls[i]) == key ==>
      calls[i].at + TimeToLive(calls[i].remaining) <= late
    ensures !Alive(AfterAll(prefix, counters, calls), late, key)
    decreases |calls|
  {
    if calls != [] {
      assert forall i :: 0 <= i < |calls[1..]| ==> calls[1..][i] == calls[i + 1];
      CounterExpires(prefix, After(prefix, counters, calls[0]), calls[1..], key, late);
    }
  }

  /**
   * The limit of a window is exceeded by one more call, whenever it reaches the
   * server, exactly when the calls before it had used the limit up and the
   * window's counter has expired by then: a new count starts under the old window.
   */
  lemma LateCallExceedsLimitIfSpent(prefix: string, calls: seq<Call>, late: Call, end: int, limit: nat)
    requires limit > 0 && late.fate.Delivered? && late.limit == limit
    requires InWindow(prefix, calls, KeyOf(prefix, late), end, limit)
    requires forall i :: 0 <= i < |calls| && KeyOf(prefix, calls[i]) == KeyOf(prefix, late) ==>
      calls[i].fate.Delivered? && calls[i].limit == limit
    ensures TrueAnswers(prefix, map[], calls + [late], KeyOf(prefix, late)) > limit
       <==> CallsUnder(prefix, calls, KeyOf(prefix, late)) >= limit
            && !Alive(AfterAll(prefix, map[], calls), late.at, KeyOf(prefix, late))
  {
    var key := KeyOf(prefix, late);
    NothingIsWasted(prefix, map[], calls, key, end, limit);
    CounterIsExact(prefix, map[], calls, key, end, limit);
    AnswersAppend(prefix, map[], calls, late, key);
  }

  /** In particular when it arrives after every time to live the earlier calls asked for. */
  lemma CallAfterExpiryExceedsLimitIfSpent(prefix: string, calls: seq<Call>, late: Call, end: int, limit: nat)
    requires limit > 0 && late.fate.Delivered? && late.limit == limit
    requires InWindow(prefix, calls, KeyOf(prefix, late), end, limit)
    requires forall i :: 0 <= i < |calls| && KeyOf(prefix, calls[i]) == KeyOf(prefix, late) ==>
      calls[i].fate.Delivered? && calls[i].limit == limit
      && calls[i].at + TimeToLive(calls[i].remaining) <= late.at
    ensures TrueAnswers(prefix, map[], calls + [late], KeyOf(prefix, late)) > limit
       <==> CallsUnder(prefix, calls, KeyOf(prefix, late)) >= limit
  {
    CounterExpires(prefix, map[], calls, KeyOf(prefix, late), late.at);
    LateCallExceedsLimitIfSpent(prefix, calls, late, end, limit);
  }

  /** Such calls exist: two calls under one window of ten milliseconds, and a limit of one, are both answered true. */
  lemma LateCallExceedsLimitOfOne(prefix: string, policy: string, client: Client)
    ensures var call := Call(0, policy, client, 0, 10, 1, Delivered);
            && InWindow(prefix, [call], KeyOf(prefix, call), 10, 1)
            && TrueAnswers(prefix, map[], [call, call.(at := 10)], KeyOf(prefix, call)) > 1
  {
    var call := Call(0, policy, client, 0, 10, 1, Delivered);
    assert [call][1..] == [] && CallsUnder(prefix, [call], KeyOf(prefix, call)) == 1;
    assert [call] + [call.(at := 10)] == [call, call.(at := 10)];
    CallAfterExpiryExceedsLimitIfSpent(prefix, [call], call.(at := 10), 10, 1);
  }

  // ----- any run of calls ---------------------------------------------------------------------------------------

  predicate Applies(prefix: string, call: Call, key: string) {
    KeyOf(prefix, call) == key && !call.fate.NotApplied?
  }

  /** Of the first `room` calls applied under this key, those whose reply arrived. */
  function AnsweredAmong(prefix: string, calls: seq<Call>, key: string, room: nat): nat {
    if calls == [] || room == 0 then 0
    else if Applies(prefix, calls[0], key)
    then (if calls[0].fate.Delivered? then 1 else 0) + AnsweredAmong(prefix, calls[1..], key, room - 1)
    else AnsweredAmong(prefix, calls[1..], key, room)
  }

  predicate HasExpired(counters: map<string, Counter>, at: int, key: string) {
    key in counters && counters[key].expiresAt <= at
  }

  /** No call applied under this key finds the counter expired: it lives through all of them. */
  ghost predicate OneLife(prefix: string, counters: map<string, Counter>, calls: seq<Call>, key: string)
    decreases |calls|
  {
    calls != [] ==>
      && !(Applies(prefix, calls[0], key) && HasExpired(counters, calls[0].at, key))
      && OneLife(prefix, After(prefix, counters, calls[0]), calls[1..], key)
  }

  ghost predicate OneLimit(prefix: string, calls: seq<Call>, key: string, limit: nat) {
    forall i :: 0 <= i < |calls| && KeyOf(prefix, calls[i]) == key ==> calls[i].limit == limit
  }

  /** The counter of this key can be read and is within the limit. */
  predicate Readable(counters: map<string, Counter>, key: string, limit: nat) {
    key in counters ==> counters[key].stored.Uses? && counters[key].stored.n <= limit
  }

  lemma FirstOfLife(prefix: string, counters: map<string, Counter>, call: Call, key: string, limit: nat)
    requires Readable(counters, key, limit) && (KeyOf(prefix, call) == key ==> call.limit == limit)
    requires !(Applies(prefix, call, key) && HasExpired(counters, call.at, key))
    ensures var uses, after := UsesOf(counters, key), After(prefix, counters, call);
            && Readable(after, key, limit)
            && UsesOf(after, key) == (if Applies(prefix, call, key) && uses < limit then uses + 1 else uses)
            && (KeyOf(prefix, call) == key ==>
                  (AnswerTo(prefix, counters, call) == Allowed(true) <==> call.fate.Delivered? && uses < limit))
  {
  }

  lemma {:induction false} LifeAnswers(prefix: string, counters: map<string, Counter>, calls: seq<Call>, key: string,
                                       limit: nat)
    requires Readable(counters, key, limit) && OneLimit(prefix, calls, key, limit)
    requires OneLife(prefix, counters, calls, key)
    ensures TrueAnswers(prefix, counters, calls, key)
         == AnsweredAmong(prefix, calls, key, limit - UsesOf(counters, key))
    ensures Readable(AfterAll(prefix, counters, calls), key, limit)
    decreases |calls|
  {
    if calls != [] {
      FirstOfLife(prefix, counters, calls[0], key, limit);
      assert forall i :: 0 <= i < |calls[1..]| ==> calls[1..][i] == calls[i + 1];
      LifeAnswers(prefix, After(prefix, counters, calls[0]), calls[1..], key, limit);
      if UsesOf(counters, key) == limit {
        assert AnsweredAmong(prefix, calls[1..], key, 0) == 0;
      }
    }
  }

  function Flat(lives: seq<seq<Call>>): seq<Call> {
    if lives == [] then [] else lives[0] + Flat(lives[1..])
  }

  /** The run is cut where a call applied under this key finds the counter expired, and nowhere else. */
  ghost predicate IsCut(prefix: string, counters: map<string, Counter>, lives: seq<seq<Call>>, key: string)
    decreases |lives|
  {
    && lives != [] && OneLife(prefix, counters, lives[0], key)
    && (|lives| > 1 ==>
          var after := AfterAll(prefix, counters, lives[0]);
          && lives[1] != [] && Applies(prefix, lives[1][0], key) && HasExpired(after, lives[1][0].at, key)
          && IsCut(prefix, after - {key}, lives[1..], key))
  }

  /** In each life of the counter the first `limit` applied calls count, and of those the delivered ones. */
  function AnswersByLife(prefix: string, lives: seq<seq<Call>>, key: string, limit: nat): nat {
    if lives == [] then 0
    else AnsweredAmong(prefix, lives[0], key, limit) + AnswersByLife(prefix, lives[1..], key, limit)
  }

  lemma {:induction false} AnswersOfBoth(prefix: string, counters: map<string, Counter>, a: seq<Call>, b: seq<Call>,
                                         key: string)
    ensures TrueAnswers(prefix, counters, a + b, key)
         == TrueAnswers(prefix, counters, a, key) + TrueAnswers(prefix, AfterAll(prefix, counters, a), b, key)
    decreases |a|
  {
    if a == [] {
      assert a + b == b;
    } else {
      assert (a + b)[1..] == a[1..] + b;
      AnswersOfBoth(prefix, After(prefix, counters, a[0]), a[1..], b, key);
    }
  }

  /** An expired counter is as good as none. */
  lemma ExpiredIsGone(prefix: string, counters: map<string, Counter>, call: Call)
    requires Applies(prefix, call, KeyOf(prefix, call)) && HasExpired(counters, call.at, KeyOf(prefix, call))
    requires call.limit > 0
    ensures After(prefix, counters, call) == After(prefix, counters - {KeyOf(prefix, call)}, call)
    ensures AnswerTo(prefix, counters, call) == AnswerTo(prefix, counters - {KeyOf(prefix, call)}, call)
  {
  }

  lemma LifeStartsAnew(prefix: string, counters: map<string, Counter>, calls: seq<Call>, key: string, limit: nat)
    requires calls != [] && Applies(prefix, calls[0], key) && HasExpired(counters, calls[0].at, key)
    requires limit > 0 && OneLimit(prefix, calls, key, limit)
    ensures TrueAnswers(prefix, counters, calls, key) == TrueAnswers(prefix, counters - {key}, calls, key)
  {
    ExpiredIsGone(prefix, counters, calls[0]);
  }

  lemma ForgottenIsUnused(counters: map<string, Counter>, key: string, limit: nat)
    ensures Readable(counters - {key}, key, limit) && UsesOf(counters - {key}, key) == 0
  {
  }

  lemma NoCallsNoAnswers(prefix: string, counters: map<string, Counter>, key: string)
    ensures TrueAnswers(prefix, counters, [], key) == 0
  {
  }

  lemma OneLimitOfBoth(prefix: string, a: seq<Call>, b: seq<Call>, key: string, limit: nat)
    requires OneLimit(prefix, a + b, key, limit)
    ensures OneLimit(prefix, a, key, limit) && OneLimit(prefix, b, key, limit)
  {
    assert forall i :: 0 <= i < |a| ==> (a + b)[i] == a[i];
    assert forall i :: 0 <= i < |b| ==> (a + b)[|a| + i] == b[i];
  }

  lemma {:induction false} CutAnswers(prefix: string, counters: map<string, Counter>, lives: seq<seq<Call>>,
                                      key: string, limit: nat)
    requires limit > 0 && Readable(counters, key, limit)
    requires OneLimit(prefix, Flat(lives), key, limit) && IsCut(prefix, counters, lives, key)
    ensures TrueAnswers(prefix, counters, Flat(lives), key)
         == AnsweredAmong(prefix, lives[0], key, limit - UsesOf(counters, key))
            + AnswersByLife(prefix, lives[1..], key, limit)
    decreases |lives|
  {
    hide OneLimit, AfterAll, AnsweredAmong, OneLife, Readable, UsesOf, TrueAnswers, Applies, HasExpired;
    var first, rest := lives[0], Flat(lives[1..]);
    OneLimitOfBoth(prefix, first, rest, key, limit);
    LifeAnswers(prefix, counters, first, key, limit);
    AnswersOfBoth(prefix, counters, first, rest, key);
    if |lives| > 1 {
      var after := AfterAll(prefix, counters, first);
      assert rest == lives[1] + Flat(lives[1..][1..]) && rest[0] == lives[1][0];
      LifeStartsAnew(prefix, after, rest, key, limit);
      ForgottenIsUnused(after, key, limit);
      CutAnswers(prefix, after - {key}, lives[1..], key, limit);
    } else {
      NoCallsNoAnswers(prefix, AfterAll(prefix, counters, first), key);
    }
  }

  lemma LifeBegins(prefix: string, counters: map<string, Counter>, call: Call, rest: seq<Call>, key: string)
    ensures AfterAll(prefix, counters, [call] + rest) == AfterAll(prefix, After(prefix, counters, call), rest)
    ensures OneLife(prefix, counters, [call] + rest, key)
       <==> !(Applies(prefix, call, key) && HasExpired(counters, call.at, key))
            && OneLife(prefix, After(prefix, counters, call), rest, key)
  {
    assert ([call] + rest)[1..] == rest;
  }

  lemma CutBegins(prefix: string, counters: map<string, Counter>, call: Call, rest: seq<seq<Call>>, key: string)
    requires !(Applies(prefix, call, key) && HasExpired(counters, call.at, key))
    requires IsCut(prefix, After(prefix, counters, call), rest, key)
    ensures IsCut(prefix, counters, [[call] + rest[0]] + rest[1..], key)
    ensures Flat([[call] + rest[0]] + rest[1..]) == [call] + Flat(rest)
  {
    hide After, Applies, HasExpired, AfterAll, OneLife;
    var lives := [[call] + rest[0]] + rest[1..];
    LifeBegins(prefix, counters, call, rest[0], key);
    assert lives[1..] == rest[1..];
    assert |lives| > 1 ==> lives[1] == rest[1];
  }

  /** Every run has its cut. */
  lemma {:induction false} CutExists(prefix: string, counters: map<string, Counter>, calls: seq<Call>, key: string,
                                     limit: nat) returns (lives: seq<seq<Call>>)
    requires limit > 0 && OneLimit(prefix, calls, key, limit)
    ensures Flat(lives) == calls && IsCut(prefix, counters, lives, key)
    decreases |calls|
  {
    if calls == [] {
      return [[]];
    }
    assert forall i :: 0 <= i < |calls[1..]| ==> calls[1..][i] == calls[i + 1];
    var rest := CutExists(prefix, After(prefix, counters, calls[0]), calls[1..], key, limit);
    if Applies(prefix, calls[0], key) && HasExpired(counters, calls[0].at, key) {
      ExpiredIsGone(prefix, counters, calls[0]);
      CutBegins(prefix, counters - {key}, calls[0], rest, key);
      var begun := [[calls[0]] + rest[0]] + rest[1..];
      lives := [[]] + begun;
      assert lives[1..] == begun;
    } else {
      CutBegins(prefix, counters, calls[0], rest, key);
      lives := [[calls[0]] + rest[0]] + rest[1..];
    }
  }

  /**
   * The number of true answers of any run, with requests and replies lost anywhere
   * and calls arriving at any time: the run falls into the lives of the counter,
   * and in each of them exactly the first `limit` calls applied are granted, of
   * which those count whose reply arrived.
   */
  lemma AnswersOfAnyRun(prefix: string, calls: seq<Call>, key: string, limit: nat) returns (lives: seq<seq<Call>>)
    requires limit > 0 && OneLimit(prefix, calls, key, limit)
    ensures Flat(lives) == calls && IsCut(prefix, map[], lives, key)
    ensures TrueAnswers(prefix, map[], calls, key) == AnswersByLife(prefix, lives, key, limit)
  {
    lives := CutExists(prefix, map[], calls, key, limit);
    CutAnswers(prefix, map[], lives, key, limit);
  }
}
