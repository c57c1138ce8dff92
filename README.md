# routing-api in Dafny

A model of the routing core of `routing-api`, a round-robin HTTP load balancer placed in
front of a set of identical `application-api` instances, with proofs about that model.

- **Dispatcher** (`RoutingService`, module `Routing`). A shared 32-bit round-robin
  counter and a registry of circuit breakers keyed by upstream base URL. `forward` takes
  the health monitor's sorted snapshot. An empty snapshot fails with "No healthy
  instances available". Otherwise `tryForward` walks the snapshot:
  - each attempt selects `Math.abs(counter.getAndIncrement() % n)`;
  - it gets or creates that upstream's breaker (`computeIfAbsent`);
  - it posts the payload to `<base>/api/echo` under the breaker;
  - on any error or refusal it falls back to the next attempt.

  After `n` attempts the walk fails with "All healthy instances failed or are in OPEN
  state". The function `FallbackWalk` states what `tryForward` computes. The class
  `RoutingService` has `counter` and `circuitBreakers` fields. Its methods `Forward`,
  `TryForward` (the recursion on `attempt`, written as a loop) and `TryAttempt` (one
  attempt) are proved against `FallbackWalk`.
- **Circuit breaker** (module `CircuitBreaker`). A value-level state machine that uses
  only the configured parameters:
  - a count-based window of 5;
  - a failure-rate threshold of 50%;
  - 30 s in OPEN;
  - 2 permitted calls in HALF_OPEN.
- **Java integers** (module `JavaInt`):
  - the wrap of `AtomicInteger` from `Integer.MAX_VALUE` to `Integer.MIN_VALUE`;
  - Java's truncating `%`;
  - `Math.abs`, with its `Integer.MIN_VALUE` case.
- **Health monitor** (`HealthCheckService`, module `HealthCheck`). A class with the
  configured list `allInstances` and the set `healthyInstances`. Each probe callback adds
  or removes its own URL. `Init` runs one sweep. `GetHealthyInstances` is the sorted,
  duplicate-free copy, in `String.compareTo` order (module `StringOrder`).
- **Ingress** (`RoutingController`, module `Controller`). `POST /route` maps a reply to
  status 200 with the reply as the body. It maps an error to status 503 with the body
  `{"status":"error","message":<message>}`.

The environment becomes parameters:
- Each forward's HTTP calls are an oracle `upstream: (url, payload) -> Reply(json) | Error`.
- The clock is `now` (milliseconds): one instant for a whole forward (see "## Left out").
- Each health probe's outcome is `probe: url -> bool`.

## Model

| member | source | states |
|---|---|---|
| JavaInt.Wrap | routing-api/src/main/java/com/coda/routingapi/service/RoutingService.java:26 | the 32-bit value of an unbounded integer: congruent to it mod 2^32, and equal to it when it is in int range |
| JavaInt.Increment | routing-api/src/main/java/com/coda/routingapi/service/RoutingService.java:46 | getAndIncrement on a 32-bit counter: one more below MAX_VALUE, MIN_VALUE from MAX_VALUE |
| JavaInt.IncrementWraps | routing-api/src/main/java/com/coda/routingapi/service/RoutingService.java:46 | getAndIncrement leaves the two's-complement reduction of counter + 1 (MAX_VALUE goes to MIN_VALUE) |
| JavaInt.AdvanceWraps | routing-api/src/main/java/com/coda/routingapi/service/RoutingService.java:46 | k successive getAndIncrement calls from c leave Wrap(c + k) |
| JavaInt.AdvanceInRange | routing-api/src/main/java/com/coda/routingapi/service/RoutingService.java:46 | without overflow, k increments simply add k |
| JavaInt.Rem | routing-api/src/main/java/com/coda/routingapi/service/RoutingService.java:46 | Java's `%`: the remainder has the dividend's sign, its magnitude is below n and at most the dividend's, and it differs from the dividend by a multiple of n |
| JavaInt.Abs | routing-api/src/main/java/com/coda/routingapi/service/RoutingService.java:46 | Math.abs: non-negative and ±x for every x except MIN_VALUE, which comes back unchanged |
| JavaInt.ModDistinct | routing-api/src/main/java/com/coda/routingapi/service/RoutingService.java:46 | fewer than n consecutive non-negative counter values select pairwise distinct positions |
| Routing.SelectIndex | routing-api/src/main/java/com/coda/routingapi/service/RoutingService.java:46 | `Math.abs(counter % n)` is a valid index in [0, n) for every 32-bit counter, negative ones included; it is counter mod n for counter >= 0 and (-counter) mod n otherwise |
| Routing.EchoUrlShape | routing-api/src/main/java/com/coda/routingapi/service/RoutingService.java:48 | the URL an attempt posts to is the base URL followed by exactly `/api/echo` |
| Routing.EchoUrlInjective | routing-api/src/main/java/com/coda/routingapi/service/RoutingService.java:48 | distinct upstreams are posted to at distinct `<base>/api/echo` URLs |
| Routing.BreakerFor | routing-api/src/main/java/com/coda/routingapi/service/RoutingService.java:50-70 | computeIfAbsent: the registered breaker of an upstream that has one, otherwise a fresh CLOSED breaker with an empty window |
| Routing.BreakerForValid | routing-api/src/main/java/com/coda/routingapi/service/RoutingService.java:50-70 | the breaker the registry yields is in a reachable state when the registry's are, and one created on first use refuses no call at any time |
| Routing.Step | routing-api/src/main/java/com/coda/routingapi/service/RoutingService.java:46-81 | one attempt: the index is SelectIndex of the counter and the URL is that upstream's echo URL; the call is refused exactly when that upstream's (existing or fresh) breaker refuses, and a refusal leaves the breaker unchanged; the attempt is served exactly when it is permitted and the upstream replies, with that reply |
| Routing.FallbackWalk | routing-api/src/main/java/com/coda/routingapi/service/RoutingService.java:41-88 | tryForward from attempt a: at most n - a attempts; at least one while a < n; it posts at most once per attempt; a failure is always the all-failed message, after exactly n - a attempts |
| Routing.ForwardOutcome | routing-api/src/main/java/com/coda/routingapi/service/RoutingService.java:33-39 | forward: the no-healthy message exactly when the snapshot is empty, and then no attempt, no post, counter and registry unchanged; otherwise between 1 and n attempts, and the only errors are the two messages |
| Routing.WalkCounter | routing-api/src/main/java/com/coda/routingapi/service/RoutingService.java:41-88 | the counter after a forward is the starting counter advanced by one getAndIncrement for each attempt made |
| Routing.PicksFollowCounter | routing-api/src/main/java/com/coda/routingapi/service/RoutingService.java:41-88 | attempt i of a forward selects SelectIndex of the counter after i increments |
| Routing.SequentialRoundRobin | routing-api/src/main/java/com/coda/routingapi/service/RoutingService.java:26-46 | from a non-negative counter c, while c + i does not overflow, attempt i uses position (c + i) mod n; those attempts select pairwise distinct positions and, over a sorted snapshot, pairwise distinct upstreams |
| Routing.WrapCanRepeat | routing-api/src/main/java/com/coda/routingapi/service/RoutingService.java:46 | across the wrap the round robin repeats within one forward: from MAX_VALUE over three failing upstreams the positions are 1, 2 and 1 again |
| Routing.NegativeCanRepeat | routing-api/src/main/java/com/coda/routingapi/service/RoutingService.java:46 | the round robin also repeats within one forward where the counter crosses from -1 to 0: from -1 over three failing upstreams the positions are 1, 0 and 1 again |
| Routing.WalkServed | routing-api/src/main/java/com/coda/routingapi/service/RoutingService.java:74-87 | a successful forward's last attempt posted, to the echo URL of the last upstream it selected |
| Routing.WalkReply | routing-api/src/main/java/com/coda/routingapi/service/RoutingService.java:79-82 | a successful forward returns, unchanged, the reply of the last upstream it selected to the payload |
| Routing.WalkRegistryKey | routing-api/src/main/java/com/coda/routingapi/service/RoutingService.java:50-70 | after a forward, an upstream has a breaker exactly when it had one before or the forward selected it |
| Routing.WalkRegistryKeys | routing-api/src/main/java/com/coda/routingapi/service/RoutingService.java:50-70 | the registry's keys after a forward are the old keys plus the selected upstreams: entries are created on first use and never removed |
| Routing.WalkRegistryOthers | routing-api/src/main/java/com/coda/routingapi/service/RoutingService.java:50-70 | the breaker of every upstream the forward did not select is left exactly as it was |
| Routing.OpenBreakerSkipped | routing-api/src/main/java/com/coda/routingapi/service/RoutingService.java:81-87 | an upstream whose breaker is OPEN and, at the forward's instant, still inside its 30 s wait is never posted to during that forward, and its breaker is unchanged |
| Routing.AllFailExhausts | routing-api/src/main/java/com/coda/routingapi/service/RoutingService.java:41-88 | when every upstream answers with an error, the forward makes every remaining attempt and fails with the all-failed message |
| Routing.FailedAttempt | routing-api/src/main/java/com/coda/routingapi/service/RoutingService.java:81-87 | an attempt whose upstream errors leaves that upstream's breaker as one failed call at `now` leaves it (one more failure recorded, or unchanged when it refuses) and continues with the next attempt from the advanced counter |
| Routing.FailureRound | routing-api/src/test/java/com/coda/routingapi/service/RoutingServiceTest.java:204-211 | one all-fail forward over three distinct upstreams from a non-wrapping multiple of 3: the all-failed message, counter + 3, and each of the three breakers as one failed call at `now` leaves it (one more failure recorded, or unchanged when it refuses) |
| Routing.FailureRoundLevel | routing-api/src/main/java/com/coda/routingapi/service/RoutingService.java:51-56 | with every breaker CLOSED on k failures, an all-fail round moves each breaker to k + 1 failures, and the fifth round opens all three, stamped with that forward's single instant |
| Routing.FirstSuccessStops | routing-api/src/main/java/com/coda/routingapi/service/RoutingService.java:74-87 | a permitted first attempt whose upstream answers ends the forward: that reply unchanged, one attempt, one post, counter + 1, and only that upstream's breaker updated |
| Routing.ServedRound | routing-api/src/test/java/com/coda/routingapi/service/RoutingServiceTest.java:69-112 | from counter k, with no breaker yet for the upstreams from position k on, the forward makes one attempt, at position k, posts once to the k-th upstream's echo URL, returns that upstream's reply, and creates no breaker for later ones |
| Routing.FallbackOnFirstFailure | routing-api/src/test/java/com/coda/routingapi/service/RoutingServiceTest.java:148-167 | a failing first upstream followed by an answering second one: the second's reply after exactly two attempts, both of which posted |
| Routing.RoutingService.constructor | routing-api/src/main/java/com/coda/routingapi/service/RoutingService.java:25-31 | a new dispatcher: counter 0, empty registry, the given health monitor |
| Routing.RoutingService.TryAttempt | routing-api/src/main/java/com/coda/routingapi/service/RoutingService.java:46-81 | one attempt changes the counter to its increment and the registry at the selected upstream to the breaker's new state, exactly as Step says |
| Routing.RoutingService.TryForward | routing-api/src/main/java/com/coda/routingapi/service/RoutingService.java:41-88 | the loop leaves the result, counter and registry of FallbackWalk from attempt 0 and keeps every breaker in a reachable state |
| Routing.RoutingService.Forward | routing-api/src/main/java/com/coda/routingapi/service/RoutingService.java:33-39 | result, counter and registry are ForwardOutcome's over the snapshot taken at the call; the health monitor is not changed |
| Routing.ServedForward | routing-api/src/test/java/com/coda/routingapi/service/RoutingServiceTest.java:76-111 | one forward of the round-robin test on the service object: the k-th upstream's reply, counter k + 1, and no breaker yet for the upstreams after k |
| Routing.RoundRobinOrder | routing-api/src/test/java/com/coda/routingapi/service/RoutingServiceTest.java:69-112 | three forwards from a new dispatcher return, unchanged, the replies of the 1st, 2nd and 3rd upstream of the sorted snapshot, and leave the counter at 3 |
| Routing.FailingForward | routing-api/src/test/java/com/coda/routingapi/service/RoutingServiceTest.java:204-211 | one all-fail forward on the service object: the all-failed message, counter + 3, breakers one failure up, or OPEN after the fifth |
| Routing.CircuitBreakerOpens | routing-api/src/test/java/com/coda/routingapi/service/RoutingServiceTest.java:189-222 | five all-fail forwards over three healthy upstreams each fail with the all-failed message, and afterwards every healthy upstream's breaker is OPEN since the fifth forward |
| CircuitBreaker.FailureCount | routing-api/src/main/java/com/coda/routingapi/service/RoutingService.java:52 | the failures in a window are at most the window's length |
| CircuitBreaker.ExceededCases | routing-api/src/main/java/com/coda/routingapi/service/RoutingService.java:52-54 | the 50% failure-rate check: on a full window of 5 it fires exactly at 3 failures or more, on the 2 results of a half-open trial exactly at 1 failure or more, and in both only when the minimum number of calls fits the window |
| CircuitBreaker.Slide | routing-api/src/main/java/com/coda/routingapi/service/RoutingService.java:54 | the count window grows up to 5 outcomes, then stays at 5; its newest outcome is the one just recorded (which outcomes it keeps: SlideKeepsLatest) |
| CircuitBreaker.SlideKeepsLatest | routing-api/src/main/java/com/coda/routingapi/service/RoutingService.java:54 | the window after recording an outcome is exactly the newest min(\|w\| + 1, 5) outcomes of w followed by that outcome |
| CircuitBreaker.TryAcquire | routing-api/src/main/java/com/coda/routingapi/service/RoutingService.java:53-55 | permission is given exactly when the breaker does not refuse (OPEN inside its 30 s wait, or HALF_OPEN without permits); a refusal changes nothing; reachable states stay reachable |
| CircuitBreaker.RefusesCases | routing-api/src/main/java/com/coda/routingapi/service/RoutingService.java:53-55 | CLOSED never refuses; OPEN refuses exactly while no more than 30 s have passed since it opened; HALF_OPEN refuses exactly when no permit is left |
| CircuitBreaker.OnResultCases | routing-api/src/main/java/com/coda/routingapi/service/RoutingService.java:51-55 | recording an outcome: CLOSED appends to its window until 5 outcomes and opens exactly when the full window has at least 3 failures, otherwise stays CLOSED on the slid window; HALF_OPEN collects its 2 trial results, then closes with an empty window when none failed and reopens otherwise; an OPEN breaker is unchanged; a newly opened breaker is stamped with the outcome's time |
| CircuitBreaker.Execute | routing-api/src/main/java/com/coda/routingapi/service/RoutingService.java:81 | a guarded call is refused exactly when the breaker refuses, and is then not made; it is served exactly when permitted and the call replies, with that reply; reachable states stay reachable |
| CircuitBreaker.OpensOnlyOnFullWindow | routing-api/src/main/java/com/coda/routingapi/service/RoutingService.java:52-54 | a CLOSED breaker opens exactly when the new outcome leaves 5 outcomes with a failure rate of at least 50%; before the window is full it only records |
| CircuitBreaker.AllFailures | routing-api/src/main/java/com/coda/routingapi/service/RoutingService.java:52 | a window of k failures counts k failures |
| CircuitBreaker.FailureStep | routing-api/src/main/java/com/coda/routingapi/service/RoutingService.java:52-54 | a failed call on a CLOSED breaker holding k failures gives k + 1 failures, or OPEN at that time when k + 1 = 5 |
| CircuitBreaker.FourFailures | routing-api/src/main/java/com/coda/routingapi/service/RoutingService.java:51-54 | four failed calls on a fresh breaker leave it CLOSED with four failures, whatever their times |
| CircuitBreaker.FiveFailuresOpen | routing-api/src/main/java/com/coda/routingapi/service/RoutingService.java:51-54 | five failed calls open a fresh breaker, which then refuses every call until 30 s have passed |
| CircuitBreaker.HalfOpenTrial | routing-api/src/main/java/com/coda/routingapi/service/RoutingService.java:53-55 | after the wait an OPEN breaker lets two trial calls through, the first leaving it HALF_OPEN with one permit; two successes close it with an empty window, and a failure among them reopens it at the second call's time |
| HealthCheck.HealthUrlInjective | routing-api/src/main/java/com/coda/routingapi/service/HealthCheckService.java:34 | distinct upstreams are probed at distinct `<base>/actuator/health` URLs |
| HealthCheck.HealthUrlShape | routing-api/src/main/java/com/coda/routingapi/service/HealthCheckService.java:34 | the URL a probe requests is the base URL followed by exactly `/actuator/health` |
| HealthCheck.HealthCheckService.constructor | routing-api/src/main/java/com/coda/routingapi/service/HealthCheckService.java:19-28 | the configured list is kept and no upstream is healthy before the first sweep |
| HealthCheck.HealthCheckService.RecordProbe | routing-api/src/main/java/com/coda/routingapi/service/HealthCheckService.java:41-48 | a probe's callback makes its upstream healthy exactly when the probe succeeded, leaves every other upstream's membership as it was, and keeps the healthy set inside the configured list |
| HealthCheck.HealthCheckService.Init | routing-api/src/main/java/com/coda/routingapi/service/HealthCheckService.java:32-51 | after a sweep in which every probe completed, the healthy set is exactly the configured upstreams whose probe succeeded |
| HealthCheck.HealthCheckService.GetHealthyInstances | routing-api/src/main/java/com/coda/routingapi/service/HealthCheckService.java:53-55 | the snapshot lists exactly the healthy upstreams, strictly ascending (sorted, no duplicates), no more of them than are configured |
| HealthCheck.PeriodicHealthCheck | routing-api/src/test/java/com/coda/routingapi/service/HealthCheckServiceTest.java:40-63 | first probe healthy and second failing gives the snapshot [first]; after the flip it is [second] |
| HealthCheck.SingletonListing | routing-api/src/main/java/com/coda/routingapi/service/HealthCheckService.java:54 | a one-element listing of the set {x} is [x] |
| StringOrder.LessIrreflexive | routing-api/src/main/java/com/coda/routingapi/service/HealthCheckService.java:22 | no string is below itself |
| StringOrder.Less | routing-api/src/main/java/com/coda/routingapi/service/HealthCheckService.java:22 | String.compareTo order at the first character: a proper prefix comes first, the first character decides when the strings differ there, and nothing is below the empty string (the full case split: LessCases) |
| StringOrder.LessCases | routing-api/src/main/java/com/coda/routingapi/service/HealthCheckService.java:22 | compareTo in full: when one string is a prefix of the other it is below exactly when it is shorter, and otherwise the characters at the first position where they differ decide, in both directions |
| StringOrder.LessTransitive | routing-api/src/main/java/com/coda/routingapi/service/HealthCheckService.java:22 | compareTo order is transitive |
| StringOrder.LessTotal | routing-api/src/main/java/com/coda/routingapi/service/HealthCheckService.java:22 | any two distinct strings are ordered one way or the other |
| StringOrder.LessAsymmetric | routing-api/src/main/java/com/coda/routingapi/service/HealthCheckService.java:22 | two strings are never below each other |
| StringOrder.AscendingIsDistinct | routing-api/src/main/java/com/coda/routingapi/service/HealthCheckService.java:54 | a strictly ascending listing has no repeated element |
| StringOrder.LeastExists | routing-api/src/main/java/com/coda/routingapi/service/HealthCheckService.java:22 | every non-empty finite set of strings has a least element |
| StringOrder.LeastUnique | routing-api/src/main/java/com/coda/routingapi/service/HealthCheckService.java:22 | the least element is unique |
| StringOrder.SortedElements | routing-api/src/main/java/com/coda/routingapi/service/HealthCheckService.java:22-55 | the sorted copy of a set: strictly ascending, exactly its elements, as many as the set has |
| StringOrder.AscendingUnique | routing-api/src/main/java/com/coda/routingapi/service/HealthCheckService.java:54 | two strictly ascending listings of the same elements are equal, so the sorted copy is the only such listing |
| StringOrder.AscendingCount | routing-api/src/main/java/com/coda/routingapi/service/HealthCheckService.java:54 | a strictly ascending listing has as many positions as distinct elements |
| StringOrder.ElementsBound | routing-api/src/main/java/com/coda/routingapi/service/HealthCheckService.java:19 | a list has at least as many positions as distinct elements |
| Json.PutField | routing-api/src/main/java/com/coda/routingapi/controller/RoutingController.java:34-35 | ObjectNode.put: the key then maps to the value and other keys are untouched; every existing field keeps its position and key, only the field under the key changes its value, and a new key is appended |
| Json.Put | routing-api/src/main/java/com/coda/routingapi/controller/RoutingController.java:34-35 | put on an object node gives an object holding the value under the key and every other field as before |
| Controller.CreateErrorResponse | routing-api/src/main/java/com/coda/routingapi/controller/RoutingController.java:32-36 | the error envelope is exactly the object `{"status":"error","message":message}`, in that field order, with no other field |
| Controller.ToResponse | routing-api/src/main/java/com/coda/routingapi/controller/RoutingController.java:24-29 | status 200 exactly for a reply, with the reply unchanged as the body; 503 exactly for an error, with the envelope of its message |
| Controller.FromResponse | routing-api/src/test/java/com/coda/routingapi/controller/RoutingControllerTest.java:31-67 | what a client reads back: a reply only from a 200, an error only from a 503 |
| Controller.ResponseRoundTrip | routing-api/src/main/java/com/coda/routingapi/controller/RoutingController.java:24-36 | reading back a response of /route gives exactly the dispatcher's result: the reply, or the error's message |
| Controller.ToResponseInjective | routing-api/src/main/java/com/coda/routingapi/controller/RoutingController.java:24-36 | different forward results never give the same response |
| Controller.NoHealthyIs503 | routing-api/src/test/java/com/coda/routingapi/controller/RoutingControllerTest.java:52-67 | with no healthy upstream the answer is 503 with `{"status":"error","message":"No healthy instances available"}` |
| Controller.RoutingController.constructor | routing-api/src/main/java/com/coda/routingapi/controller/RoutingController.java:15-19 | the controller keeps the dispatcher it is given |
| Controller.RoutingController.Route | routing-api/src/main/java/com/coda/routingapi/controller/RoutingController.java:23-30 | the payload goes to forward unchanged; the response is ToResponse of forward's result; counter and registry move as that forward prescribes |

## Left out

- Reactor and WebClient plumbing (`Mono` chaining, `retrieve`, `bodyToMono`, content type), because it is library code outside the repository. Each POST becomes the `upstream` oracle and each health GET the `probe` outcome. The oracle is fixed for one forward, so a URL posted to twice in one forward (possible only when a forward's attempts cross the 2^31 wrap, as WrapCanRepeat shows, or the later crossing from -1 to 0, as NegativeCanRepeat shows) gets the same answer both times.
- Routing.Forward: one instant `now` per forward. Calls take no time, so an OPEN wait cannot run out during a forward, and a breaker that opens in a forward is stamped with that forward's instant. This applies to OpenBreakerSkipped, FailureRoundLevel, FailingForward and CircuitBreakerOpens (whose breakers open at the fifth forward's instant).
- A 2xx reply with an empty body: in the source, `bodyToMono` then completes empty. The forward completes with no value and does not fall back, and a probe runs neither of its callbacks (HealthCheckService.java:37-48). `Call<T>` (reply or error) and `probe: url -> bool` cannot express this third outcome.
- The 2 s timeouts of both HTTP calls: a timeout is one more way for a call to end in `Error`, or for a probe to end `false`.
- Concurrency: the atomicity of `AtomicInteger`, `ConcurrentHashMap` and `ConcurrentSkipListSet`, overlapping sweeps, probes that finish in any order, and `testConcurrentRoundRobin`. The model has one sequential caller. In `Init` each probe completes before the next one starts.
- Reactor's laziness: the model runs each attempt's counter increment, breaker lookup and call in program order, which is the order a single subscriber sees.
- Spring scheduling and bootstrap (`@Scheduled`, `@PostConstruct`, `RoutingApiApplication`) and all logging, including the breaker event listeners.
- Resilience4j beyond its configured parameters. Two of its defaults are assumptions here:
  - The minimum number of calls equals the window size (5).
  - OPEN turns HALF_OPEN on the first request strictly after 30 s.

  Slow-call thresholds, automatic transitions, exception filters and metrics are not modelled.
- CircuitBreaker.HalfOpenTrial: states only the two trial calls the configured permits allow, each completing before the next starts. A third request during the trial, and trials in flight at the same time, are not modelled.
- JSON parsing and serialization: `JsonNode` is a value, and objects are insertion-ordered field lists.
- StringOrder.Less: compares Dafny characters (Unicode scalar values), while `String.compareTo` compares UTF-16 code units. The two orders differ only for supplementary-plane characters compared with characters from U+E000 to U+FFFF.
- `ApplicationApiController` (the echo upstream) is not part of this model; its behaviour is what the `upstream` oracle stands for.
