/**
  A fixed-window admission limiter: a per-endpoint table of windows, each a
  start instant and a count of the calls seen since then. A call installs a
  fresh window when the key has none or its window has expired, counts
  itself in that window, and is rejected when the new count exceeds the
  per-window maximum.

  The wall clock is a parameter: `now` is the instant, in milliseconds, at
  which a call is made.
 */
module RateLimiter {

  datatype Option<+T> = None | Some(value: T)

  /** Largest number of calls a key may make within one window. */
  const MaxRequests: nat := 10

  /** Length of a window in milliseconds (one second). */
  const WindowSizeMillis: int := 1000

  /** The status a rejected call carries: 429, Too Many Requests. */
  const TooManyRequests: int := 429

  /** The reason a rejected call carries. */
  const RateLimitExceeded: string := "Rate limit exceeded"

  /** The counting record of one key: when its window began and how many calls it has seen. */
  datatype Window = Window(startTime: int, count: nat)

  /** The outcome of one call. */
  datatype Decision = Admitted | Rejected(status: int, reason: string)

  /** The table from endpoint keys to their current windows. */
  type Table = map<string, Window>

  /** One call: the endpoint key and the instant it is made at. */
  datatype Call = Call(key: string, now: int)

  /** What one call does to a single key's window. */
  datatype WindowStep = WindowStep(window: Window, decision: Decision)

  /** What one call does to the whole table. */
  datatype StepResult = StepResult(table: Table, decision: Decision)

  /** A key's window after a series of calls, and the decisions taken on them in order. */
  datatype WindowTrace = WindowTrace(window: Option<Window>, decisions: seq<Decision>)

  /** The table after a series of calls, and the decisions taken on them in order. */
  datatype Trace = Trace(table: Table, decisions: seq<Decision>)

  function Entry(t: Table, key: string): Option<Window>
  {
    if key in t then Some(t[key]) else None
  }

  /**
    A window has expired once strictly more than one window length has
    passed since it began: the first instant at which it counts as expired
    is one millisecond after the window length has elapsed.
   */
  predicate IsExpired(w: Window, now: int): (expired: bool)
    ensures expired <==> now >= w.startTime + WindowSizeMillis + 1
  {
    now - w.startTime > WindowSizeMillis
  }

  /**
    The window a call should count in, given the key's stored window (if
    any): the stored one while it is current, otherwise a fresh one that
    starts now with no calls counted.
   */
  function Rotate(v: Option<Window>, now: int): (w: Window)
    ensures !IsExpired(w, now)
    ensures v == Some(w) <==> v.Some? && !IsExpired(v.value, now)
    ensures v != Some(w) ==> w.startTime == now && w.count == 0
  {
    if v.None? || IsExpired(v.value, now) then Window(now, 0) else v.value
  }

  /** One call on a single key: choose the window, count the call in it, compare with the maximum. */
  function StepWindow(v: Option<Window>, now: int): (r: WindowStep)
    ensures !IsExpired(r.window, now) && r.window.count >= 1
    ensures r.decision == Admitted <==> r.window.count <= MaxRequests
    ensures r.decision != Admitted ==> r.decision == Rejected(TooManyRequests, RateLimitExceeded)
    ensures v.None? ==> r.window == Window(now, 1) && r.decision == Admitted
    ensures v.Some? && IsExpired(v.value, now) ==> r.window == Window(now, 1) && r.decision == Admitted
    ensures v.Some? && !IsExpired(v.value, now) ==>
              r.window.startTime == v.value.startTime && r.window.count == v.value.count + 1
  {
    var w := Rotate(v, now);
    var n := w.count + 1;
    WindowStep(w.(count := n), if n > MaxRequests then Rejected(TooManyRequests, RateLimitExceeded) else Admitted)
  }

  /** One call on the table: only the entry of the called key changes, and it is always present afterwards. */
  function Step(t: Table, key: string, now: int): (r: StepResult)
    ensures r.table.Keys == t.Keys + {key}
    ensures forall k :: k in t && k != key ==> r.table[k] == t[k]
    ensures r.decision == Admitted <==> r.table[key].count <= MaxRequests
    ensures r.decision != Admitted ==> r.decision == Rejected(TooManyRequests, RateLimitExceeded)
    ensures key !in t ==> r.table[key] == Window(now, 1) && r.decision == Admitted
    ensures key in t && IsExpired(t[key], now) ==> r.table[key] == Window(now, 1) && r.decision == Admitted
    ensures key in t && !IsExpired(t[key], now) ==>
              r.table[key] == t[key].(count := t[key].count + 1)
  {
    var s := StepWindow(Entry(t, key), now);
    StepResult(t[key := s.window], s.decision)
  }

  /** The set of keys a series of calls names. */
  function CallKeys(calls: seq<Call>): set<string>
  {
    set i | 0 <= i < |calls| :: calls[i].key
  }

  /** The calls in order, applied one by one to the table `t`. */
  function Run(t: Table, calls: seq<Call>): (r: Trace)
    ensures |r.decisions| == |calls|
    decreases |calls|
  {
    if calls == [] then Trace(t, [])
    else
      var prev := Run(t, calls[..|calls| - 1]);
      var c := calls[|calls| - 1];
      var s := Step(prev.table, c.key, c.now);
      Trace(s.table, prev.decisions + [s.decision])
  }

  /**
    Entries are never removed: after a series of calls the table holds the
    keys it held before and every key called, and the entry of a key that
    was not called is as it was.
   */
  lemma {:induction false} RunKeepsEntries(t: Table, calls: seq<Call>)
    ensures Run(t, calls).table.Keys == t.Keys + CallKeys(calls)
    ensures forall k :: k in t && k !in CallKeys(calls) ==> Run(t, calls).table[k] == t[k]
    decreases |calls|
  {
    if calls != [] {
      var pre := calls[..|calls| - 1];
      var c := calls[|calls| - 1];
      RunKeepsEntries(t, pre);
      assert CallKeys(calls) == CallKeys(pre) + {c.key} by {
        assert forall i :: 0 <= i < |pre| ==> pre[i] == calls[i];
      }
    }
  }

  /** A table produced by a series of calls, stepped by one more call, is what the longer series produces. */
  lemma RunAppendCall(t: Table, calls: seq<Call>, c: Call, before: Table, after: StepResult)
    requires before == Run(t, calls).table
    requires after == Step(before, c.key, c.now)
    ensures Run(t, calls + [c]).table == after.table
    ensures Run(t, calls + [c]).decisions[|calls|] == after.decision
  {
    assert (calls + [c])[..|calls|] == calls;
  }

  /** The instants, in order, applied one by one to a single key's window `v`. */
  function RunWindow(v: Option<Window>, times: seq<int>): (r: WindowTrace)
    ensures |r.decisions| == |times|
    ensures forall i :: 0 <= i < |times| ==>
              r.decisions[i] == Admitted || r.decisions[i] == Rejected(TooManyRequests, RateLimitExceeded)
    ensures times != [] ==> r.window.Some? && !IsExpired(r.window.value, times[|times| - 1])
    decreases |times|
  {
    if times == [] then WindowTrace(v, [])
    else
      var prev := RunWindow(v, times[..|times| - 1]);
      var s := StepWindow(prev.window, times[|times| - 1]);
      WindowTrace(Some(s.window), prev.decisions + [s.decision])
  }

  /**
    The limiter object. `History` is the series of calls made on it so far;
    the object invariant says the table is exactly what those calls produce
    from an empty table.
   */
  class RateLimiterConfig {
    var requestWindows: Table
    ghost var History: seq<Call>

    ghost predicate Valid()
      reads this
    {
      requestWindows == Run(map[], History).table
    }

    constructor ()
      ensures Valid()
      ensures requestWindows == map[] && History == []
    {
      requestWindows := map[];
      History := [];
    }

    /**
      Installs, under `key`, the window a call at `now` should count in and
      returns it: a fresh window when there is none or the stored one has
      expired, the stored one otherwise.
     */
    method Compute(key: string, now: int) returns (w: Window)
      modifies this`requestWindows
      ensures w == Rotate(Entry(old(requestWindows), key), now)
      ensures requestWindows == old(requestWindows)[key := w]
    {
      if key !in requestWindows || IsExpired(requestWindows[key], now) {
        w := Window(now, 0);
      } else {
        w := requestWindows[key];
      }
      requestWindows := requestWindows[key := w];
    }

    /** Records a call on `endpoint` at `now` and decides whether it may proceed. */
    method CheckRateLimit(endpoint: string, now: int) returns (d: Decision)
      requires Valid()
      modifies this
      ensures Valid()
      ensures History == old(History) + [Call(endpoint, now)]
      ensures StepResult(requestWindows, d) == Step(old(requestWindows), endpoint, now)
      ensures d == Run(map[], History).decisions[|History| - 1]
      ensures requestWindows.Keys == old(requestWindows).Keys + {endpoint}
      ensures forall k :: k in old(requestWindows) && k != endpoint ==>
                requestWindows[k] == old(requestWindows)[k]
      ensures d == Admitted <==> requestWindows[endpoint].count <= MaxRequests
      ensures d != Admitted ==> d == Rejected(TooManyRequests, RateLimitExceeded)
    {
      var key := endpoint;
      var window := Compute(key, now);
      var n := window.count + 1;
      requestWindows := requestWindows[key := window.(count := n)];
      if n > MaxRequests {
        d := Rejected(TooManyRequests, RateLimitExceeded);
      } else {
        d := Admitted;
      }
      assert requestWindows == old(requestWindows)[key := window.(count := n)];
      assert StepResult(requestWindows, d) == Step(old(requestWindows), endpoint, now);
      RunAppendCall(map[], History, Call(endpoint, now), old(requestWindows), StepResult(requestWindows, d));
      History := History + [Call(endpoint, now)];
    }
  }
}
