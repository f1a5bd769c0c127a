# Fixed-window rate limiter of the petclinic service

This project models the per-endpoint admission limiter `RateLimiterConfig` of
the Spring petclinic service in Dafny, and proves properties of it.

The limiter keeps a table `requestWindows` from endpoint keys to request
windows. A window is a start instant plus a count of the calls made since then.
A call `checkRateLimit(endpoint)` does three things:

1. It installs a fresh window (start = now, count 0) if the key has no window,
   or if its window has expired. A window has expired when strictly more than
   `WINDOW_SIZE` = 1000 ms have passed since it began.
2. It increments the count of that window.
3. It rejects the call with status 429 and the reason "Rate limit exceeded"
   when the incremented count exceeds `MAX_REQUESTS` = 10.

Files:

- `rate_limiter.dfy`, module `RateLimiter`. It holds the constants, the
  `Window` and `Decision` datatypes, and the expiry predicate. It holds the
  window choice made inside `compute` (`Rotate`) and one call as a
  specification function, per key (`StepWindow`) and on the whole table
  (`Step`). It holds a series of calls (`Run`, `RunWindow`). It also holds the
  class `RateLimiterConfig`: its `requestWindows` map field is updated in
  place by `Compute` and `CheckRateLimit`. A ghost `History` records the calls
  made so far, and the object invariant `Valid()` says the table is what
  `Run` gives for that history.
- `properties.dfy`, module `RateLimiterProperties`. It holds the properties of
  series of calls:
  - the bound within one window, and that rejected calls are counted too;
  - the reset on expiry;
  - the inclusive 1000 ms boundary;
  - the independence of keys under any interleaving of calls;
  - two concrete runs of the class: a burst on one key followed by a call
    after expiry, and a saturated key that leaves another key's budget alone.

The wall clock is not modelled. The two clock reads of one call become one
parameter `now`, in milliseconds. No ordering of instants is assumed. The
source behaves the same way: a call whose instant lies before the window's
start leaves the window current.

## Model

| member | source | states |
|---|---|---|
| `RateLimiter.IsExpired` | src/main/java/org/springframework/samples/petclinic/system/RateLimiterConfig.java:28-30 | A window is expired exactly when `now - startTime > 1000`, i.e. from the instant `startTime + 1001` on; the strict comparison keeps the instant `startTime + 1000` inside the window. One `now` stands for the clock read. |
| `RateLimiter.Rotate` | src/main/java/org/springframework/samples/petclinic/system/RateLimiterConfig.java:23-40 | The stored window is kept exactly when there is one and it has not expired. Otherwise a fresh window is installed that starts at `now` with count 0, as the `RequestWindow` constructor (lines 23-26) creates it. Either way the chosen window is current at `now`. |
| `RateLimiter.StepWindow` | src/main/java/org/springframework/samples/petclinic/system/RateLimiterConfig.java:35-44 | One call on a key: a missing or expired window is replaced and the call is admitted with count 1, however saturated the old window was. A current window keeps its start and its count grows by exactly one. The call is admitted iff the new count is at most 10, and otherwise rejected with 429 "Rate limit exceeded". |
| `RateLimiter.Step` | src/main/java/org/springframework/samples/petclinic/system/RateLimiterConfig.java:33-45 | One call on the table: the key set becomes the old key set plus the called key. Every other key's window is unchanged. A key with no entry gets the window (now, 1) and is admitted. Admission iff the stored count is at most 10; a refused call is Rejected(429, "Rate limit exceeded"). |
| `RateLimiter.Run` | src/main/java/org/springframework/samples/petclinic/system/RateLimiterConfig.java:33-45 | A series of calls gives exactly one decision per call. |
| `RateLimiter.RunKeepsEntries` | src/main/java/org/springframework/samples/petclinic/system/RateLimiterConfig.java:17 | Entries are never removed. After any series of calls the keys are the old keys plus every key called, and uncalled keys keep their windows. |
| `RateLimiter.RunWindow` | src/main/java/org/springframework/samples/petclinic/system/RateLimiterConfig.java:42-44 | A series of calls on one key gives one decision per call, each either Admitted or Rejected(429, "Rate limit exceeded"). After at least one call the key's window is current at the last instant. |
| `RateLimiter.RateLimiterConfig.constructor` | src/main/java/org/springframework/samples/petclinic/system/RateLimiterConfig.java:17 | The limiter starts with an empty table and an empty history. |
| `RateLimiter.RateLimiterConfig.Compute` | src/main/java/org/springframework/samples/petclinic/system/RateLimiterConfig.java:35-40 | `compute` stores under the key the window that `Rotate` chooses and returns it. All other entries are untouched. |
| `RateLimiter.RateLimiterConfig.CheckRateLimit` | src/main/java/org/springframework/samples/petclinic/system/RateLimiterConfig.java:33-45 | The new table and the decision are what `Step` gives for the old table, so the keys are the old keys plus `endpoint` and every other key's window is unchanged. The call is admitted iff the stored count is at most 10, and otherwise rejected with 429 "Rate limit exceeded". The call is appended to the history, and the object invariant (table = run of the history) is kept. |
| `RateLimiterProperties.CallsWithinWindow` | src/main/java/org/springframework/samples/petclinic/system/RateLimiterConfig.java:36-44 | Calls that all fall in an unexpired window keep its start and leave its count at old count + number of calls, rejected calls included. The call that brings the count to n is admitted iff n <= 10. |
| `RateLimiterProperties.BurstFromFreshWindow` | src/main/java/org/springframework/samples/petclinic/system/RateLimiterConfig.java:14-44 | For a key with no window, or whose window has expired, take calls within 1000 ms of the first one. Calls 1 to 10 are admitted and every later call is rejected. The window starts at the first call and counts every call. |
| `RateLimiterProperties.SaturatedWindowRejects` | src/main/java/org/springframework/samples/petclinic/system/RateLimiterConfig.java:42-44 | Once a window holds 10 calls, every further call within it is rejected with 429 "Rate limit exceeded" and still counted. |
| `RateLimiterProperties.KeysAreIndependent` | src/main/java/org/springframework/samples/petclinic/system/RateLimiterConfig.java:34-40 | Whatever other keys are called in between, a key's final window and the decisions on its calls equal those its own calls alone produce from its own entry. |
| `RateLimiterProperties.WindowBoundaryIsInclusive` | src/main/java/org/springframework/samples/petclinic/system/RateLimiterConfig.java:28-30 | A call exactly 1000 ms after the window began still counts in the old window. A call 1001 ms after it starts a fresh window. |
| `RateLimiterProperties.BurstThenReset` | src/main/java/org/springframework/samples/petclinic/system/RateLimiterConfig.java:33-45 | Ten calls on "vets" within 200 ms are admitted. An eleventh at 140 ms, 50 ms after the tenth, is rejected. A twelfth at 1100 ms is admitted. |
| `RateLimiterProperties.SaturationStaysOnItsKey` | src/main/java/org/springframework/samples/petclinic/system/RateLimiterConfig.java:33-45 | After "owners" is driven to rejection, "vets" in the same window still gets ten admissions, and only its own eleventh call is rejected. |

## Left out

- Concurrency is not modelled. `ConcurrentHashMap.compute` and `AtomicInteger.incrementAndGet` are treated as one atomic step per call. The boundary race is not modelled either: a caller could increment a window after another caller has replaced it. So no bound on admissions under concurrent callers is stated.
- The increment of the shared `AtomicInteger` inside the stored window object is modelled as storing the incremented window value back into the map. Aliasing of window objects is not modelled.
- `System.currentTimeMillis()` is not modelled. Its two reads in one call (lines 24 and 29) become one parameter `now`.
- Integer widths are not modelled. `count` is unbounded, so the `int` overflow after 2^31 calls in one window is absent. The `long` subtraction of instants is exact.
- Exceptions are not modelled. Instead of throwing `ResponseStatusException`, a rejection is returned as `Rejected(429, "Rate limit exceeded")`.
- The Spring wiring is not modelled: the `@Component` registration, and how a caller would map the exception to a response.
