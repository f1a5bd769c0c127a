/**
  Properties of series of calls on the limiter: the per-window bound, the
  reset on expiry, the independence of keys, and two concrete runs of the
  limiter object (a burst on one key followed by a call after expiry, and a
  saturated key that leaves another key's budget alone).
 */
module RateLimiterProperties {
  import opened RateLimiter

  /** The instants, in order, of the calls in `calls` that name key `k`. */
  function TimesFor(calls: seq<Call>, k: string): seq<int>
    decreases |calls|
  {
    if calls == [] then []
    else
      var prev := TimesFor(calls[..|calls| - 1], k);
      if calls[|calls| - 1].key == k then prev + [calls[|calls| - 1].now] else prev
  }

  /** The decisions, in order, taken on the calls in `calls` that name key `k`. */
  function DecisionsFor(calls: seq<Call>, ds: seq<Decision>, k: string): seq<Decision>
    requires |ds| == |calls|
    decreases |calls|
  {
    if calls == [] then []
    else
      var prev := DecisionsFor(calls[..|calls| - 1], ds[..|ds| - 1], k);
      if calls[|calls| - 1].key == k then prev + [ds[|ds| - 1]] else prev
  }

  /** Running two series of instants one after the other is running their concatenation. */
  lemma {:induction false} RunWindowAppend(v: Option<Window>, a: seq<int>, b: seq<int>)
    ensures RunWindow(v, a + b).window == RunWindow(RunWindow(v, a).window, b).window
    ensures RunWindow(v, a + b).decisions == RunWindow(v, a).decisions + RunWindow(RunWindow(v, a).window, b).decisions
    decreases |b|
  {
    if b == [] {
      assert a + b == a;
    } else {
      var b' := b[..|b| - 1];
      RunWindowAppend(v, a, b');
      assert (a + b)[..|a + b| - 1] == a + b';
    }
  }

  /**
    Calls that all fall within window `w` (none later than one window
    length after its start) keep its start, each add exactly one to its
    count, and the call that brings the count to n is admitted exactly when
    n is at most the maximum; rejected calls are counted too.
   */
  lemma {:induction false} CallsWithinWindow(w: Window, times: seq<int>)
    requires forall i :: 0 <= i < |times| ==> !IsExpired(w, times[i])
    ensures RunWindow(Some(w), times).window == Some(Window(w.startTime, w.count + |times|))
    ensures forall i :: 0 <= i < |times| ==>
              (RunWindow(Some(w), times).decisions[i] == Admitted <==> w.count + i + 1 <= MaxRequests)
    decreases |times|
  {
    if times != [] {
      var pre := times[..|times| - 1];
      CallsWithinWindow(w, pre);
      var r := RunWindow(Some(w), times);
      assert r.decisions[..|pre|] == RunWindow(Some(w), pre).decisions;
    }
  }

  /**
    For a key with no window, or whose window has expired by the first
    call, a burst of calls that all fall within one window length of the
    first call admits exactly the first MaxRequests of them and counts every
    one of them in a window that starts at the first call.
   */
  lemma {:induction false} BurstFromFreshWindow(v: Option<Window>, times: seq<int>)
    requires times != []
    requires v.None? || IsExpired(v.value, times[0])
    requires forall i :: 0 <= i < |times| ==> times[i] - times[0] <= WindowSizeMillis
    ensures RunWindow(v, times).window == Some(Window(times[0], |times|))
    ensures forall i :: 0 <= i < |times| ==>
              (RunWindow(v, times).decisions[i] == Admitted <==> i < MaxRequests)
  {
    var first := Window(times[0], 1);
    var rest := times[1..];
    assert RunWindow(v, [times[0]]) == WindowTrace(Some(first), [Admitted]);
    assert [times[0]] + rest == times;
    RunWindowAppend(v, [times[0]], rest);
    assert forall i :: 0 <= i < |rest| ==> !IsExpired(first, rest[i]) by {
      forall i | 0 <= i < |rest| ensures !IsExpired(first, rest[i]) {
        assert rest[i] == times[i + 1];
      }
    }
    CallsWithinWindow(first, rest);
    var ds := RunWindow(v, times).decisions;
    var tail := RunWindow(Some(first), rest).decisions;
    assert ds == [Admitted] + tail;
    forall i | 0 <= i < |times| ensures ds[i] == Admitted <==> i < MaxRequests {
      if i > 0 {
        assert ds[i] == tail[i - 1];
      }
    }
  }

  /**
    Once a window holds MaxRequests calls, every further call within it is
    rejected with 429 "Rate limit exceeded", and is still counted.
   */
  lemma SaturatedWindowRejects(w: Window, times: seq<int>)
    requires w.count >= MaxRequests
    requires forall i :: 0 <= i < |times| ==> !IsExpired(w, times[i])
    ensures RunWindow(Some(w), times).window == Some(Window(w.startTime, w.count + |times|))
    ensures forall i :: 0 <= i < |times| ==>
              RunWindow(Some(w), times).decisions[i] == Rejected(TooManyRequests, RateLimitExceeded)
  {
    CallsWithinWindow(w, times);
  }

  /**
    Keys are independent: whatever other keys are called in between, the
    window of key `k` and the decisions on `k`'s calls are those that `k`'s
    own calls alone produce from `k`'s own entry.
   */
  lemma {:induction false} KeysAreIndependent(t: Table, calls: seq<Call>, k: string)
    ensures Entry(Run(t, calls).table, k) == RunWindow(Entry(t, k), TimesFor(calls, k)).window
    ensures DecisionsFor(calls, Run(t, calls).decisions, k) ==
              RunWindow(Entry(t, k), TimesFor(calls, k)).decisions
    decreases |calls|
  {
    if calls != [] {
      var pre := calls[..|calls| - 1];
      var c := calls[|calls| - 1];
      KeysAreIndependent(t, pre, k);
      var prev := Run(t, pre);
      var s := Step(prev.table, c.key, c.now);
      var r := Run(t, calls);
      assert r == Trace(s.table, prev.decisions + [s.decision]);
      assert r.decisions[..|r.decisions| - 1] == prev.decisions;
      var ts := TimesFor(pre, k);
      if c.key == k {
        assert TimesFor(calls, k) == ts + [c.now];
        assert (ts + [c.now])[..|ts|] == ts;
      } else {
        assert Entry(s.table, k) == Entry(prev.table, k);
      }
    }
  }

  /** A call at exactly one window length after the window began still counts in that window. */
  lemma WindowBoundaryIsInclusive(w: Window)
    ensures StepWindow(Some(w), w.startTime + WindowSizeMillis).window == Window(w.startTime, w.count + 1)
    ensures StepWindow(Some(w), w.startTime + WindowSizeMillis + 1).window == Window(w.startTime + WindowSizeMillis + 1, 1)
  {
  }

  /**
    A burst on one key, then a call after expiry: ten calls on "vets" within
    200 ms are admitted, an eleventh 50 ms later is rejected, and a twelfth
    1100 ms after the first is admitted again in a fresh window.
   */
  method BurstThenReset() returns (burst: seq<Decision>, eleventh: Decision, twelfth: Decision)
    ensures |burst| == 10 && forall i :: 0 <= i < 10 ==> burst[i] == Admitted
    ensures eleventh == Rejected(TooManyRequests, RateLimitExceeded)
    ensures twelfth == Admitted
  {
    var limiter := new RateLimiterConfig();
    burst := Burst(limiter, "vets", 0, 10);
    eleventh := limiter.CheckRateLimit("vets", 140);
    twelfth := limiter.CheckRateLimit("vets", 1100);
  }

  /**
    Drives `n` calls on a key that has no window yet, 10 ms apart starting at
    `start`, through the limiter: the first ten are admitted, the rest
    rejected, and no other key's window changes.
   */
  method Burst(limiter: RateLimiterConfig, key: string, start: int, n: nat) returns (ds: seq<Decision>)
    requires limiter.Valid() && key !in limiter.requestWindows
    requires 10 * (n - 1) <= WindowSizeMillis  // the last call, 10 ms apart, is still within the first call's window
    modifies limiter
    ensures limiter.Valid()
    ensures |ds| == n
    ensures forall i :: 0 <= i < n ==>
              ds[i] == if i < MaxRequests then Admitted else Rejected(TooManyRequests, RateLimitExceeded)
    ensures n > 0 ==> limiter.requestWindows == old(limiter.requestWindows)[key := Window(start, n)]
  {
    ds := [];
    var i := 0;
    while i < n
      invariant 0 <= i <= n
      invariant limiter.Valid()
      invariant |ds| == i
      invariant forall j :: 0 <= j < i ==>
                  ds[j] == if j < MaxRequests then Admitted else Rejected(TooManyRequests, RateLimitExceeded)
      invariant i == 0 ==> limiter.requestWindows == old(limiter.requestWindows)
      invariant i > 0 ==> limiter.requestWindows == old(limiter.requestWindows)[key := Window(start, i)]
    {
      var d := limiter.CheckRateLimit(key, start + 10 * i);
      ds := ds + [d];
      i := i + 1;
    }
  }

  /**
    A saturated key leaves another key's budget alone: "owners" is driven
    past the maximum in one window; "vets", called in
    the same window afterwards, still gets its own ten admissions and is
    rejected only on its own eleventh call.
   */
  method SaturationStaysOnItsKey() returns (owners: seq<Decision>, vets: seq<Decision>)
    ensures |owners| == 11 && |vets| == 11
    ensures forall i :: 0 <= i < 10 ==> owners[i] == Admitted && vets[i] == Admitted
    ensures owners[10] == Rejected(TooManyRequests, RateLimitExceeded)
    ensures vets[10] == Rejected(TooManyRequests, RateLimitExceeded)
  {
    var limiter := new RateLimiterConfig();
    owners := Burst(limiter, "owners", 0, 11);
    assert "vets" != "owners";
    vets := Burst(limiter, "vets", 200, 11);
  }
}
