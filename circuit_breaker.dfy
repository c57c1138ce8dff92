/** The per-upstream circuit breaker, reduced to the parameters the dispatcher configures
    (RoutingService.java:51-56): a count-based window of the last 5 outcomes, a 50%
    failure-rate threshold, 30 seconds in OPEN, and 2 permitted calls in HALF_OPEN.
    Time is a parameter, in milliseconds. */
module CircuitBreaker {

  const FailureRateThreshold: nat := 50
  const WaitDurationInOpenState: int := 30_000
  const SlidingWindowSize: nat := 5
  const PermittedCallsInHalfOpen: nat := 2

  datatype Outcome = Success | Failure

  /** CLOSED records the last window outcomes; OPEN remembers when it opened; HALF_OPEN
      counts the permits it still has and the outcomes of the calls it let through. */
  datatype Breaker =
    | Closed(window: seq<Outcome>)
    | Open(openedAt: int)
    | HalfOpen(permits: nat, results: seq<Outcome>)

  /** A breaker as it is created: CLOSED with an empty window. */
  const Fresh: Breaker := Closed([])

  function FailureCount(w: seq<Outcome>): (k: nat)
    ensures k <= |w|
  {
    if |w| == 0 then 0
    else (if w[|w| - 1] == Failure then 1 else 0) + FailureCount(w[..|w| - 1])
  }

  /** The failure rate of w, evaluated only once w holds at least minimumCalls outcomes,
      reaches the threshold. */
  predicate Exceeded(w: seq<Outcome>, minimumCalls: nat)
  {
    |w| >= minimumCalls && FailureCount(w) * 100 >= FailureRateThreshold * |w|
  }

  /** The 50% threshold in failures: at least 3 of a full window of 5, at least 1 of the
      2 half-open trial results, in both cases only once the minimum number of calls fits. */
  lemma ExceededCases(w: seq<Outcome>, minimumCalls: nat)
    ensures |w| == SlidingWindowSize ==>
              (Exceeded(w, minimumCalls) <==> minimumCalls <= SlidingWindowSize && FailureCount(w) >= 3)
    ensures |w| == PermittedCallsInHalfOpen ==>
              (Exceeded(w, minimumCalls) <==> minimumCalls <= PermittedCallsInHalfOpen && FailureCount(w) >= 1)
  {
  }

  /** Appends o to the window and evicts the oldest outcome once the window is full. */
  function Slide(w: seq<Outcome>, o: Outcome): (r: seq<Outcome>)
    ensures |w| <= SlidingWindowSize ==> |r| == if |w| < SlidingWindowSize then |w| + 1 else SlidingWindowSize
    ensures |r| > 0 && r[|r| - 1] == o
  {
    if |w| < SlidingWindowSize then w + [o] else w[1..] + [o]
  }

  /** The window after a slide is exactly the newest outcomes of w followed by o: the
      last |w| + 1 of them while the window is filling, the last 5 once it is full. */
  lemma SlideKeepsLatest(w: seq<Outcome>, o: Outcome)
    requires |w| <= SlidingWindowSize
    ensures var r := Slide(w, o);
            && |r| == (if |w| < SlidingWindowSize then |w| + 1 else SlidingWindowSize)
            && r == (w + [o])[|w| + 1 - |r|..]
  {
    if |w| == SlidingWindowSize {
      assert (w + [o])[1..] == w[1..] + [o];
    } else {
      assert (w + [o])[0..] == w + [o];
    }
  }

  /** The states a breaker can reach: a CLOSED window is never over the threshold (it
      would have opened), and HALF_OPEN never holds more outcomes than permits issued. */
  ghost predicate Valid(b: Breaker)
  {
    match b
    case Closed(w) => |w| <= SlidingWindowSize && !Exceeded(w, SlidingWindowSize)
    case Open(_) => true
    case HalfOpen(p, rs) => |rs| < PermittedCallsInHalfOpen && p + |rs| <= PermittedCallsInHalfOpen
  }

  /** When acquisition is refused: OPEN before its wait has elapsed, or HALF_OPEN with
      every permit handed out. */
  predicate Refuses(b: Breaker, now: int)
  {
    || (b.Open? && now <= b.openedAt + WaitDurationInOpenState)
    || (b.HalfOpen? && b.permits == 0)
  }

  /** CLOSED never refuses; OPEN refuses exactly while no more than the 30 s wait has
      passed since it opened; HALF_OPEN refuses exactly when no permit is left. */
  lemma RefusesCases(b: Breaker, now: int)
    ensures b.Closed? ==> !Refuses(b, now)
    ensures b.Open? ==> (Refuses(b, now) <==> now - b.openedAt <= WaitDurationInOpenState)
    ensures b.HalfOpen? ==> (Refuses(b, now) <==> b.permits == 0)
  {
  }

  datatype Permit = Permit(permitted: bool, breaker: Breaker)

  /** Asking for permission to call. CLOSED always permits. OPEN moves to HALF_OPEN once
      the wait has elapsed and then takes a half-open permit. */
  function TryAcquire(b: Breaker, now: int): (r: Permit)
    ensures r.permitted <==> !Refuses(b, now)
    ensures !r.permitted ==> r.breaker == b
    ensures Valid(b) ==> Valid(r.breaker)
  {
    match b
    case Closed(_) => Permit(true, b)
    case Open(t) =>
      if now > t + WaitDurationInOpenState
      then Permit(true, HalfOpen(PermittedCallsInHalfOpen - 1, []))
      else Permit(false, b)
    case HalfOpen(p, rs) =>
      if p > 0 then Permit(true, HalfOpen(p - 1, rs)) else Permit(false, b)
  }

  /** Recording the outcome of a permitted call. CLOSED opens when its window crosses the
      threshold; HALF_OPEN decides once all its permitted calls are in: back to CLOSED
      with an empty window, or OPEN again. */
  function OnResult(b: Breaker, o: Outcome, now: int): (r: Breaker)
  {
    match b
    case Closed(w) =>
      var w' := Slide(w, o);
      if Exceeded(w', SlidingWindowSize) then Open(now) else Closed(w')
    case Open(_) => b
    case HalfOpen(p, rs) =>
      var rs' := rs + [o];
      if |rs'| < PermittedCallsInHalfOpen then HalfOpen(p, rs')
      else if Exceeded(rs', PermittedCallsInHalfOpen) then Open(now)
      else Closed([])
  }

  /** What recording an outcome does, case by case: a CLOSED breaker appends to its window
      until it holds 5 outcomes and opens exactly when the full window has at least 3
      failures, otherwise it stays CLOSED on the slid window; an OPEN breaker is left as it
      is; a HALF_OPEN breaker collects its trial results and, at the second, closes with an
      empty window when none failed and reopens otherwise; a breaker that opens is stamped
      with the time of the outcome. */
  lemma OnResultCases(b: Breaker, o: Outcome, now: int)
    ensures b.Closed? && |b.window| <= SlidingWindowSize ==>
              (OnResult(b, o, now).Open? <==>
                 |b.window| + 1 >= SlidingWindowSize && FailureCount(Slide(b.window, o)) >= 3)
    ensures b.Closed? && |b.window| + 1 < SlidingWindowSize ==> OnResult(b, o, now) == Closed(b.window + [o])
    ensures b.Closed? && !OnResult(b, o, now).Open? ==> OnResult(b, o, now) == Closed(Slide(b.window, o))
    ensures b.Open? ==> OnResult(b, o, now) == b
    ensures b.HalfOpen? && |b.results| + 1 < PermittedCallsInHalfOpen ==>
              OnResult(b, o, now) == HalfOpen(b.permits, b.results + [o])
    ensures b.HalfOpen? && |b.results| + 1 == PermittedCallsInHalfOpen ==>
              OnResult(b, o, now) == if FailureCount(b.results + [o]) == 0 then Closed([]) else Open(now)
    ensures OnResult(b, o, now).Open? && !b.Open? ==> OnResult(b, o, now).openedAt == now
  {
  }

  /** What the guarded HTTP call did: a reply body, or any error (non-2xx, timeout,
      transport failure, unreadable body). */
  datatype Call<T> = Reply(value: T) | Error

  datatype Guarded<T> = Served(value: T) | Failed | NotPermitted

  function OutcomeOf<T>(c: Call<T>): Outcome
  {
    if c.Reply? then Success else Failure
  }

  /** One call under the breaker: refused without calling, or called with its outcome
      recorded. */
  function Execute<T>(b: Breaker, now: int, call: Call<T>): (r: (Guarded<T>, Breaker))
    ensures r.0.NotPermitted? <==> Refuses(b, now)
    ensures r.0.Served? <==> !Refuses(b, now) && call.Reply?
    ensures r.0.Served? ==> r.0.value == call.value
    ensures Refuses(b, now) ==> r.1 == b
    ensures Valid(b) ==> Valid(r.1)
  {
    var p := TryAcquire(b, now);
    if !p.permitted then (NotPermitted, b)
    else
      var b' := OnResult(p.breaker, OutcomeOf(call), now);
      (if call.Reply? then Served(call.value) else Failed, b')
  }

  /** A CLOSED breaker opens exactly when the outcome just recorded fills the window and
      at least 3 of its 5 outcomes are failures; before the window is full it never
      opens. */
  lemma OpensOnlyOnFullWindow<T>(w: seq<Outcome>, now: int, call: Call<T>)
    requires Valid(Closed(w))
    ensures var w' := Slide(w, OutcomeOf(call));
            (Execute(Closed(w), now, call).1.Open?
             <==> |w'| == SlidingWindowSize && FailureCount(w') >= 3)
    ensures |w| + 1 < SlidingWindowSize ==> Execute(Closed(w), now, call).1 == Closed(w + [OutcomeOf(call)])
  {
  }

  /** A CLOSED breaker whose window holds k failures and nothing else. */
  function ClosedAfterFailures(k: nat): (b: Breaker)
    requires k < SlidingWindowSize
  {
    Closed(seq(k, _ => Failure))
  }

  lemma {:induction false} AllFailures(k: nat)
    ensures FailureCount(seq(k, _ => Failure)) == k
  {
    if k > 0 {
      assert seq(k, _ => Failure)[..k - 1] == seq(k - 1, _ => Failure);
      AllFailures(k - 1);
    }
  }

  /** Consecutive failed calls on a fresh breaker: the first four fill the window, the
      fifth opens the breaker at that moment. */
  lemma FailureStep<T>(k: nat, now: int)
    requires k < SlidingWindowSize
    ensures Valid(ClosedAfterFailures(k))
    ensures Execute(ClosedAfterFailures(k), now, Call<T>.Error)
         == (Failed, if k + 1 == SlidingWindowSize then Open(now) else ClosedAfterFailures(k + 1))
  {
    AllFailures(k);
    AllFailures(k + 1);
    assert seq(k, _ => Failure) + [Failure] == seq(k + 1, _ => Failure);
  }

  /** Four failed calls on a fresh breaker leave it CLOSED on four failures. */
  lemma FourFailures<T>(t1: int, t2: int, t3: int, t4: int)
    ensures var b1 := Execute(Fresh, t1, Call<T>.Error).1;
            var b2 := Execute(b1, t2, Call<T>.Error).1;
            var b3 := Execute(b2, t3, Call<T>.Error).1;
            && b1.Closed? && b2.Closed? && b3.Closed?
            && Execute(b3, t4, Call<T>.Error).1 == ClosedAfterFailures(4)
  {
    assert Fresh == ClosedAfterFailures(0);
    FailureStep<T>(0, t1);
    FailureStep<T>(1, t2);
    FailureStep<T>(2, t3);
    FailureStep<T>(3, t4);
  }

  /** Five failed calls in a row open a fresh breaker, which then refuses every call for
      the next 30 seconds without recording anything. */
  lemma FiveFailuresOpen<T>(t1: int, t2: int, t3: int, t4: int, t5: int, later: int, call: Call<T>)
    requires t5 <= later <= t5 + WaitDurationInOpenState
    ensures var b1 := Execute(Fresh, t1, Call<T>.Error).1;
            var b2 := Execute(b1, t2, Call<T>.Error).1;
            var b3 := Execute(b2, t3, Call<T>.Error).1;
            var b4 := Execute(b3, t4, Call<T>.Error).1;
            var b5 := Execute(b4, t5, Call<T>.Error).1;
            && b1.Closed? && b2.Closed? && b3.Closed? && b4.Closed?
            && b5 == Open(t5)
            && Execute(b5, later, call) == (NotPermitted, b5)
  {
    FourFailures<T>(t1, t2, t3, t4);
    FailureStep<T>(4, t5);
  }

  /** After the wait, an OPEN breaker lets exactly two trial calls through: both succeed
      and it closes with an empty window, otherwise it opens again when the second
      outcome comes in. This half-open timing is a modelling assumption about the
      breaker library. */
  lemma HalfOpenTrial<T>(t: int, now1: int, now2: int, c1: Call<T>, c2: Call<T>)
    requires now1 > t + WaitDurationInOpenState
    ensures var (g1, b1) := Execute(Open(t), now1, c1);
            var (g2, b2) := Execute(b1, now2, c2);
            && !g1.NotPermitted? && !g2.NotPermitted?
            && b1 == HalfOpen(PermittedCallsInHalfOpen - 1, [OutcomeOf(c1)])
            && b2 == if c1.Reply? && c2.Reply? then Closed([]) else Open(now2)
  {
    var rs := [OutcomeOf(c1), OutcomeOf(c2)];
    assert rs[..1] == [OutcomeOf(c1)];
    assert FailureCount(rs) == (if c1.Reply? then 0 else 1) + (if c2.Reply? then 0 else 1);
  }
}
