/** The dispatcher (RoutingService.java): a round-robin counter shared by all requests and
    a registry of circuit breakers keyed by upstream URL. A forward takes the health
    monitor's snapshot and walks it, one attempt per healthy upstream at most, until an
    upstream answers.

    The HTTP POST of an attempt is an oracle, `upstream`, fixed for the duration of one
    forward; the clock is the parameter `now`. */
module Routing {
  import opened Wrappers
  import opened JavaInt
  import opened Json
  import opened StringOrder
  import CB = CircuitBreaker
  import opened HC = HealthCheck

  const NoHealthyInstances: string := "No healthy instances available"
  const AllInstancesFailed: string := "All healthy instances failed or are in OPEN state"
  const EchoPath: string := "/api/echo"

  /** The URL an attempt on baseUrl posts to. */
  function EchoUrl(baseUrl: Url): (url: string)
  {
    baseUrl + EchoPath
  }

  /** The echo URL is the base URL followed by exactly the echo path. */
  lemma EchoUrlShape(baseUrl: Url)
    ensures |EchoUrl(baseUrl)| == |baseUrl| + |EchoPath|
    ensures EchoUrl(baseUrl)[..|baseUrl|] == baseUrl && EchoUrl(baseUrl)[|baseUrl|..] == EchoPath
  {
  }

  lemma EchoUrlInjective(a: Url, b: Url)
    requires EchoUrl(a) == EchoUrl(b)
    ensures a == b
  {
    EchoUrlShape(a);
    EchoUrlShape(b);
  }

  /** How the upstreams answer during one forward: the outcome of posting a payload to a URL. */
  type Upstream = (string, Json) -> CB.Call<Json>

  /** Math.abs(counter % n) with Java's truncating `%`: always a valid index, also for the
      negative values the counter takes after it wraps. */
  function SelectIndex(counter: Int32, n: int): (index: nat)
    requires 0 < n <= MaxInt
    ensures index < n
    ensures counter >= 0 ==> index == counter % n
    ensures counter < 0 ==> index == (-(counter as int)) % n
  {
    Abs(Rem(counter, n))
  }

  /** computeIfAbsent on the registry: the breaker already kept for url, or a fresh one. */
  function BreakerFor(breakers: map<Url, CB.Breaker>, url: Url): (b: CB.Breaker)
    ensures url in breakers ==> b == breakers[url]
    ensures url !in breakers ==> b == CB.Fresh
  {
    if url in breakers then breakers[url] else CB.Fresh
  }

  ghost predicate BreakersValid(breakers: map<Url, CB.Breaker>)
  {
    forall u :: u in breakers ==> CB.Valid(breakers[u])
  }

  /** The breaker the registry yields is in a reachable state, and one created on first
      use permits every call, whatever the time. */
  lemma BreakerForValid(breakers: map<Url, CB.Breaker>, url: Url, now: int)
    ensures BreakersValid(breakers) ==> CB.Valid(BreakerFor(breakers, url))
    ensures url !in breakers ==> !CB.Refuses(BreakerFor(breakers, url), now) && CB.Valid(BreakerFor(breakers, url))
  {
  }

  /** What one forward produces: its result, the counter and registry it leaves behind,
      the snapshot index of every attempt in order, and the URLs actually posted to (an
      attempt a breaker refuses posts nothing). */
  datatype Dispatch = Dispatch(
    result: Result<Json, string>,
    counter: Int32,
    breakers: map<Url, CB.Breaker>,
    picks: seq<nat>,
    sent: seq<string>)

  function Extend(picks: seq<nat>, sent: seq<string>, d: Dispatch): Dispatch
  {
    Dispatch(d.result, d.counter, d.breakers, picks + d.picks, sent + d.sent)
  }

  /** One attempt: the upstream the counter selects, what the call under its breaker
      gave, and the state that breaker is left in. */
  datatype Attempt = Attempt(
    index: nat,
    url: string,
    guarded: CB.Guarded<Json>,
    breaker: CB.Breaker)

  /** The body of tryForward before the fallback: getAndIncrement picks the index, the
      registry yields (or creates) that upstream's breaker, and the breaker guards the call;
      the breaker's new state is what the registry keeps under that URL. */
  function Step(s: seq<Url>, payload: Json, upstream: Upstream, now: int,
                counter: Int32, breakers: map<Url, CB.Breaker>): (a: Attempt)
    requires 0 < |s| <= MaxInt
    ensures a.index == SelectIndex(counter, |s|)
    ensures a.url == EchoUrl(s[a.index])
    ensures a.guarded.NotPermitted? <==> CB.Refuses(BreakerFor(breakers, s[a.index]), now)
    ensures a.guarded.NotPermitted? ==> a.breaker == BreakerFor(breakers, s[a.index])
    ensures a.guarded.Served? <==> !a.guarded.NotPermitted? && upstream(a.url, payload).Reply?
    ensures a.guarded.Served? ==> upstream(a.url, payload) == CB.Reply(a.guarded.value)
  {
    var index := SelectIndex(counter, |s|);
    var url := EchoUrl(s[index]);
    var r := CB.Execute(BreakerFor(breakers, s[index]), now, upstream(url, payload));
    Attempt(index, url, r.0, r.1)
  }

  /** The URLs an attempt posts to: none when its breaker refuses. */
  function Posted(a: Attempt): (urls: seq<string>)
  {
    if a.guarded.NotPermitted? then [] else [a.url]
  }

  /** tryForward(payload, s, attempt): give up once every position has had its attempt;
      otherwise make the attempt, and on any failure or refusal go on with attempt + 1.
      The walk makes one attempt per remaining position at most, with an index inside
      the snapshot each time, and fails only once every position has been tried. */
  function FallbackWalk(s: seq<Url>, payload: Json, upstream: Upstream, now: int,
                        counter: Int32, breakers: map<Url, CB.Breaker>, attempt: nat): (d: Dispatch)
    requires 0 < |s| <= MaxInt && attempt <= |s|
    ensures attempt < |s| ==> |d.picks| >= 1
    ensures |d.picks| <= |s| - attempt
    ensures |d.sent| <= |d.picks|
    ensures d.result.Failure? ==> d.result.error == AllInstancesFailed && |d.picks| == |s| - attempt
    decreases |s| - attempt
  {
    if attempt >= |s| then Dispatch(Failure(AllInstancesFailed), counter, breakers, [], [])
    else
      var a := Step(s, payload, upstream, now, counter, breakers);
      var next := breakers[s[a.index] := a.breaker];
      if a.guarded.Served? then
        Dispatch(Success(a.guarded.value), Increment(counter), next, [a.index], Posted(a))
      else
        var rest := FallbackWalk(s, payload, upstream, now, Increment(counter), next, attempt + 1);
        Extend([a.index], Posted(a), rest)
  }

  /** forward(payload) over the snapshot s: an empty snapshot fails at once and touches
      nothing; otherwise the walk starts at attempt 0. Either the walk succeeds or it
      fails with one of the two messages, the first exactly when there is no healthy
      upstream. */
  function ForwardOutcome(s: seq<Url>, payload: Json, upstream: Upstream, now: int,
                          counter: Int32, breakers: map<Url, CB.Breaker>): (d: Dispatch)
    requires |s| <= MaxInt
    ensures d.result == Failure(NoHealthyInstances) <==> |s| == 0
    ensures |s| == 0 ==> d.counter == counter && d.breakers == breakers && d.picks == [] && d.sent == []
    ensures 0 < |s| ==> 1 <= |d.picks| <= |s|
    ensures d.result.Failure? ==> d.result.error in {NoHealthyInstances, AllInstancesFailed}
    ensures d.result == Failure(AllInstancesFailed) ==> |d.picks| == |s|
  {
    if |s| == 0 then Dispatch(Failure(NoHealthyInstances), counter, breakers, [], [])
    else FallbackWalk(s, payload, upstream, now, counter, breakers, 0)
  }

  /** One attempt of the walk, spelled out: with every position tried it fails at once;
      served, the attempt ends the walk; otherwise this attempt is prepended to the walk
      that goes on from the advanced counter and the updated registry. */
  lemma WalkStep(s: seq<Url>, payload: Json, upstream: Upstream, now: int,
                 counter: Int32, breakers: map<Url, CB.Breaker>, attempt: nat)
    requires 0 < |s| <= MaxInt && attempt <= |s|
    ensures attempt == |s| ==>
            FallbackWalk(s, payload, upstream, now, counter, breakers, attempt)
              == Dispatch(Failure(AllInstancesFailed), counter, breakers, [], [])
    ensures attempt < |s| ==>
            var a := Step(s, payload, upstream, now, counter, breakers);
            var next := breakers[s[a.index] := a.breaker];
            FallbackWalk(s, payload, upstream, now, counter, breakers, attempt)
              == if a.guarded.Served?
                 then Dispatch(Success(a.guarded.value), Increment(counter), next, [a.index], [a.url])
                 else Extend([a.index], Posted(a), FallbackWalk(s, payload, upstream, now, Increment(counter), next, attempt + 1))
  {
  }

  /** The parts of a walk that still has attempts to make: its first attempt a, the
      registry next after it, and the walk rest from the following attempt, which the walk
      continues with unless a was served. */
  lemma WalkParts(s: seq<Url>, payload: Json, upstream: Upstream, now: int,
                  counter: Int32, breakers: map<Url, CB.Breaker>, attempt: nat)
    returns (a: Attempt, next: map<Url, CB.Breaker>, rest: Dispatch)
    requires 0 < |s| <= MaxInt && attempt < |s|
    ensures a == Step(s, payload, upstream, now, counter, breakers)
    ensures a.index == SelectIndex(counter, |s|) && a.index < |s| && a.url == EchoUrl(s[a.index])
    ensures next == breakers[s[a.index] := a.breaker]
    ensures rest == FallbackWalk(s, payload, upstream, now, Increment(counter), next, attempt + 1)
    ensures a.guarded.Served? ==>
              FallbackWalk(s, payload, upstream, now, counter, breakers, attempt)
                == Dispatch(Success(a.guarded.value), Increment(counter), next, [a.index], [a.url])
    ensures !a.guarded.Served? ==>
              FallbackWalk(s, payload, upstream, now, counter, breakers, attempt) == Extend([a.index], Posted(a), rest)
  {
    WalkStep(s, payload, upstream, now, counter, breakers, attempt);
    a := Step(s, payload, upstream, now, counter, breakers);
    next := breakers[s[a.index] := a.breaker];
    rest := FallbackWalk(s, payload, upstream, now, Increment(counter), next, attempt + 1);
  }

  /** d's counter is one getAndIncrement further on per attempt d made, starting from counter. */
  predicate CounterFollows(counter: Int32, d: Dispatch)
  {
    d.counter == Advance(counter, |d.picks|)
  }

  lemma CounterFollowsPrepend(counter: Int32, i: nat, posted: seq<string>, rest: Dispatch)
    requires CounterFollows(Increment(counter), rest)
    ensures CounterFollows(counter, Extend([i], posted, rest))
  {
    assert |[i] + rest.picks| - 1 == |rest.picks|;
  }

  lemma CounterFollowsSingle(counter: Int32, r: Result<Json, string>, breakers: map<Url, CB.Breaker>,
                             i: nat, sent: seq<string>)
    ensures CounterFollows(counter, Dispatch(r, Increment(counter), breakers, [i], sent))
  {
    assert Advance(counter, 1) == Advance(Increment(counter), 0);
  }

  /** Each attempt advances the counter by one: a walk of k attempts leaves it k
      getAndIncrement calls further on, so a fallback shifts where the next forward starts. */
  lemma {:induction false} WalkCounter(s: seq<Url>, payload: Json, upstream: Upstream, now: int,
                                       counter: Int32, breakers: map<Url, CB.Breaker>, attempt: nat)
    requires 0 < |s| <= MaxInt && attempt <= |s|
    ensures CounterFollows(counter, FallbackWalk(s, payload, upstream, now, counter, breakers, attempt))
    decreases |s| - attempt
  {
    if attempt < |s| {
      var a, next, rest := WalkParts(s, payload, upstream, now, counter, breakers, attempt);
      if a.guarded.Served? {
        CounterFollowsSingle(counter, Success(a.guarded.value), next, a.index, [a.url]);
      } else {
        WalkCounter(s, payload, upstream, now, Increment(counter), next, attempt + 1);
        CounterFollowsPrepend(counter, a.index, Posted(a), rest);
      }
    }
  }

  /** Attempt i of d used the snapshot index of the counter value i increments after counter. */
  predicate PicksFollow(s: seq<Url>, counter: Int32, d: Dispatch)
    requires 0 < |s| <= MaxInt
  {
    forall i :: 0 <= i < |d.picks| ==> d.picks[i] == SelectIndex(Advance(counter, i), |s|)
  }

  /** Indexing into a sequence with one element prepended. */
  lemma PrependIndex<T>(x: T, ys: seq<T>, i: nat)
    requires i < |ys| + 1
    ensures ([x] + ys)[i] == if i == 0 then x else ys[i - 1]
  {
  }

  lemma PicksFollowPrepend(s: seq<Url>, counter: Int32, posted: seq<string>, rest: Dispatch)
    requires 0 < |s| <= MaxInt
    requires PicksFollow(s, Increment(counter), rest)
    ensures PicksFollow(s, counter, Extend([SelectIndex(counter, |s|)], posted, rest))
  {
    var d := Extend([SelectIndex(counter, |s|)], posted, rest);
    forall i | 0 <= i < |d.picks|
      ensures d.picks[i] == SelectIndex(Advance(counter, i), |s|)
    {
      PrependIndex(SelectIndex(counter, |s|), rest.picks, i);
    }
  }

  lemma PicksFollowSingle(s: seq<Url>, counter: Int32, r: Result<Json, string>, c: Int32,
                          breakers: map<Url, CB.Breaker>, sent: seq<string>)
    requires 0 < |s| <= MaxInt
    ensures PicksFollow(s, counter, Dispatch(r, c, breakers, [SelectIndex(counter, |s|)], sent))
  {
  }

  /** One attempt keeps PicksFollow: its own index is the counter's, and the rest of the
      walk starts from the incremented counter. */
  lemma PicksFollowAttempt(s: seq<Url>, counter: Int32, a: Attempt, next: map<Url, CB.Breaker>,
                           rest: Dispatch, d: Dispatch)
    requires 0 < |s| <= MaxInt && a.index == SelectIndex(counter, |s|)
    requires a.guarded.Served? ==> d == Dispatch(Success(a.guarded.value), Increment(counter), next, [a.index], [a.url])
    requires !a.guarded.Served? ==> d == Extend([a.index], Posted(a), rest) && PicksFollow(s, Increment(counter), rest)
    ensures PicksFollow(s, counter, d)
  {
    if a.guarded.Served? {
      PicksFollowSingle(s, counter, Success(a.guarded.value), Increment(counter), next, [a.url]);
    } else {
      PicksFollowPrepend(s, counter, Posted(a), rest);
    }
  }

  /** Attempt i of a walk uses the index of the counter value after i increments. */
  lemma {:induction false} PicksFollowCounter(s: seq<Url>, payload: Json, upstream: Upstream, now: int,
                                              counter: Int32, breakers: map<Url, CB.Breaker>, attempt: nat)
    requires 0 < |s| <= MaxInt && attempt <= |s|
    ensures PicksFollow(s, counter, FallbackWalk(s, payload, upstream, now, counter, breakers, attempt))
    decreases |s| - attempt
  {
    if attempt < |s| {
      var a, next, rest := WalkParts(s, payload, upstream, now, counter, breakers, attempt);
      if !a.guarded.Served? {
        PicksFollowCounter(s, payload, upstream, now, Increment(counter), next, attempt + 1);
      }
      PicksFollowAttempt(s, counter, a, next, rest, FallbackWalk(s, payload, upstream, now, counter, breakers, attempt));
    }
  }

  /** Sequential round robin: without a wrap, attempt i of a walk that starts from a
      non-negative counter c uses position (c + i) mod n, so the attempts of one walk select
      pairwise distinct positions, and over a strictly ascending snapshot pairwise distinct
      upstreams. */
  lemma SequentialRoundRobin(s: seq<Url>, payload: Json, upstream: Upstream, now: int,
                             counter: Int32, breakers: map<Url, CB.Breaker>, attempt: nat)
    requires 0 < |s| <= MaxInt && attempt <= |s|
    requires 0 <= counter
    ensures var d := FallbackWalk(s, payload, upstream, now, counter, breakers, attempt);
            && (forall i :: 0 <= i < |d.picks| && counter + i <= MaxInt ==> d.picks[i] == (counter + i) % |s|)
            && (forall i, j :: 0 <= i < j < |d.picks| && counter + j <= MaxInt ==> d.picks[i] != d.picks[j])
            && (StrictlyAscending(s) ==>
                  forall i, j :: 0 <= i < j < |d.picks| && counter + j <= MaxInt ==> s[d.picks[i]] != s[d.picks[j]])
  {
    PicksFollowCounter(s, payload, upstream, now, counter, breakers, attempt);
    var d := FallbackWalk(s, payload, upstream, now, counter, breakers, attempt);
    forall i | 0 <= i < |d.picks| && counter + i <= MaxInt
      ensures d.picks[i] == (counter + i) % |s|
    {
      AdvanceInRange(counter, i);
    }
    forall i, j | 0 <= i < j < |d.picks| && counter + j <= MaxInt
      ensures d.picks[i] != d.picks[j]
    {
      ModDistinct(counter + i, counter + j, |s|);
    }
    if StrictlyAscending(s) {
      forall i, j | 0 <= i < j < |d.picks| && counter + j <= MaxInt
        ensures s[d.picks[i]] != s[d.picks[j]]
      {
        if d.picks[i] < d.picks[j] {
          AscendingIsDistinct(s, d.picks[i], d.picks[j]);
        } else {
          AscendingIsDistinct(s, d.picks[j], d.picks[i]);
        }
      }
    }
  }

  /** Across the 32-bit wrap the round robin can repeat itself within one forward: from
      counter Integer.MAX_VALUE over three upstreams that all fail, Math.abs of the
      truncating remainder gives positions 1, 2 and then 1 again, and position 0 is never
      tried. */
  lemma WrapCanRepeat(s: seq<Url>, payload: Json, upstream: Upstream, now: int, breakers: map<Url, CB.Breaker>)
    requires |s| == 3
    requires forall i :: 0 <= i < |s| ==> upstream(EchoUrl(s[i]), payload).Error?
    ensures FallbackWalk(s, payload, upstream, now, MaxInt, breakers, 0).picks == [1, 2, 1]
  {
    var d := FallbackWalk(s, payload, upstream, now, MaxInt, breakers, 0);
    PicksFollowCounter(s, payload, upstream, now, MaxInt, breakers, 0);
    AllFailExhausts(s, payload, upstream, now, MaxInt, breakers, 0);
    assert Advance(MaxInt, 1) == MinInt;
    assert Advance(MaxInt, 2) == MinInt + 1 by {
      assert Advance(MaxInt, 2) == Advance(MinInt, 1);
    }
    assert d.picks[0] == 1 && d.picks[1] == 2 && d.picks[2] == 1;
  }

  /** The round robin also repeats itself within one forward when the counter crosses from
      -1 to 0: Math.abs of the truncating remainder maps -1 and 1 to the same position, so
      over three upstreams that all fail the positions are 1, 0 and then 1 again, and
      position 2 is never tried. */
  lemma NegativeCanRepeat(s: seq<Url>, payload: Json, upstream: Upstream, now: int, breakers: map<Url, CB.Breaker>)
    requires |s| == 3
    requires forall i :: 0 <= i < |s| ==> upstream(EchoUrl(s[i]), payload).Error?
    ensures FallbackWalk(s, payload, upstream, now, -1, breakers, 0).picks == [1, 0, 1]
  {
    var d := FallbackWalk(s, payload, upstream, now, -1, breakers, 0);
    PicksFollowCounter(s, payload, upstream, now, -1, breakers, 0);
    AllFailExhausts(s, payload, upstream, now, -1, breakers, 0);
    assert Advance(-1, 1) == 0;
    assert Advance(-1, 2) == 1 by {
      assert Advance(-1, 2) == Advance(0, 1);
    }
    assert d.picks[0] == 1 && d.picks[1] == 0 && d.picks[2] == 1;
  }

  /** Prepending keeps the last element. */
  lemma LastOfPrepend<T>(xs: seq<T>, ys: seq<T>)
    requires |ys| > 0
    ensures (xs + ys)[|xs + ys| - 1] == ys[|ys| - 1]
  {
  }

  /** A successful dispatch ends with an attempt that posted: the last URL posted to is
      the echo URL of the last upstream selected. */
  predicate EndsWithPost(s: seq<Url>, d: Dispatch)
  {
    d.result.Success? ==>
      && |d.picks| >= 1 && |d.sent| >= 1
      && d.picks[|d.picks| - 1] < |s|
      && d.sent[|d.sent| - 1] == EchoUrl(s[d.picks[|d.picks| - 1]])
  }

  lemma EndsWithPostPrepend(s: seq<Url>, i: nat, posted: seq<string>, rest: Dispatch)
    requires EndsWithPost(s, rest)
    ensures EndsWithPost(s, Extend([i], posted, rest))
  {
    if rest.result.Success? {
      LastOfPrepend([i], rest.picks);
      LastOfPrepend(posted, rest.sent);
    }
  }

  lemma EndsWithPostSingle(s: seq<Url>, r: Result<Json, string>, c: Int32,
                           breakers: map<Url, CB.Breaker>, i: nat)
    requires i < |s|
    ensures EndsWithPost(s, Dispatch(r, c, breakers, [i], [EchoUrl(s[i])]))
  {
  }

  /** A successful walk ends with an attempt that posted: the last URL posted to is the
      echo URL of the last upstream selected. */
  lemma {:induction false} WalkServed(s: seq<Url>, payload: Json, upstream: Upstream, now: int,
                                      counter: Int32, breakers: map<Url, CB.Breaker>, attempt: nat)
    requires 0 < |s| <= MaxInt && attempt <= |s|
    ensures EndsWithPost(s, FallbackWalk(s, payload, upstream, now, counter, breakers, attempt))
    decreases |s| - attempt
  {
    if attempt < |s| {
      var a, next, rest := WalkParts(s, payload, upstream, now, counter, breakers, attempt);
      if a.guarded.Served? {
        EndsWithPostSingle(s, Success(a.guarded.value), Increment(counter), next, a.index);
      } else {
        WalkServed(s, payload, upstream, now, Increment(counter), next, attempt + 1);
        EndsWithPostPrepend(s, a.index, Posted(a), rest);
      }
    }
  }

  /** The JSON a successful dispatch returns is, unchanged, the reply the last upstream it
      selected gave to the payload. */
  predicate EndsWithReply(s: seq<Url>, payload: Json, upstream: Upstream, d: Dispatch)
  {
    d.result.Success? ==>
      && |d.picks| >= 1 && d.picks[|d.picks| - 1] < |s|
      && upstream(EchoUrl(s[d.picks[|d.picks| - 1]]), payload) == CB.Reply(d.result.value)
  }

  lemma EndsWithReplyPrepend(s: seq<Url>, payload: Json, upstream: Upstream, i: nat, posted: seq<string>,
                             rest: Dispatch)
    requires EndsWithReply(s, payload, upstream, rest)
    ensures EndsWithReply(s, payload, upstream, Extend([i], posted, rest))
  {
    if rest.result.Success? {
      LastOfPrepend([i], rest.picks);
    }
  }

  lemma EndsWithReplySingle(s: seq<Url>, payload: Json, upstream: Upstream, value: Json, c: Int32,
                            breakers: map<Url, CB.Breaker>, i: nat, sent: seq<string>)
    requires i < |s| && upstream(EchoUrl(s[i]), payload) == CB.Reply(value)
    ensures EndsWithReply(s, payload, upstream, Dispatch(Success(value), c, breakers, [i], sent))
  {
  }

  /** One attempt keeps EndsWithReply: a reply that ends the walk is the reply of the
      attempt's own upstream, and an attempt that goes on leaves the property to the rest. */
  lemma EndsWithReplyAttempt(s: seq<Url>, payload: Json, upstream: Upstream, a: Attempt,
                             c: Int32, next: map<Url, CB.Breaker>, rest: Dispatch, d: Dispatch)
    requires a.index < |s| && a.url == EchoUrl(s[a.index])
    requires a.guarded.Served? ==> upstream(a.url, payload) == CB.Reply(a.guarded.value)
    requires a.guarded.Served? ==> d == Dispatch(Success(a.guarded.value), c, next, [a.index], [a.url])
    requires !a.guarded.Served? ==> d == Extend([a.index], Posted(a), rest) && EndsWithReply(s, payload, upstream, rest)
    ensures EndsWithReply(s, payload, upstream, d)
  {
    if a.guarded.Served? {
      EndsWithReplySingle(s, payload, upstream, a.guarded.value, c, next, a.index, [a.url]);
    } else {
      EndsWithReplyPrepend(s, payload, upstream, a.index, Posted(a), rest);
    }
  }

  /** The JSON a successful walk returns is, unchanged, the reply of the last upstream it
      selected. */
  lemma {:induction false} WalkReply(s: seq<Url>, payload: Json, upstream: Upstream, now: int,
                                     counter: Int32, breakers: map<Url, CB.Breaker>, attempt: nat)
    requires 0 < |s| <= MaxInt && attempt <= |s|
    ensures EndsWithReply(s, payload, upstream, FallbackWalk(s, payload, upstream, now, counter, breakers, attempt))
    decreases |s| - attempt
  {
    if attempt < |s| {
      var a, next, rest := WalkParts(s, payload, upstream, now, counter, breakers, attempt);
      if !a.guarded.Served? {
        WalkReply(s, payload, upstream, now, Increment(counter), next, attempt + 1);
      }
      EndsWithReplyAttempt(s, payload, upstream, a, Increment(counter), next, rest,
                           FallbackWalk(s, payload, upstream, now, counter, breakers, attempt));
    }
  }

  /** The upstreams a walk selected. */
  function Targets(s: seq<Url>, picks: seq<nat>): (targets: set<Url>)
  {
    set p | p in picks && p < |s| :: s[p]
  }

  lemma TargetsCons(s: seq<Url>, i: nat, picks: seq<nat>)
    requires i < |s|
    ensures Targets(s, [i] + picks) == {s[i]} + Targets(s, picks)
  {
    var ps := [i] + picks;
    forall u ensures u in Targets(s, ps) <==> u in {s[i]} + Targets(s, picks) {
      if u in Targets(s, ps) {
        var p :| p in ps && p < |s| && s[p] == u;
        if p != i {
          assert p in picks;
        }
      }
      if u in Targets(s, picks) {
        var p :| p in picks && p < |s| && s[p] == u;
        assert p in ps;
      }
      if u == s[i] {
        assert i in ps;
      }
    }
  }

  lemma TargetsSingle(s: seq<Url>, i: nat)
    requires i < |s|
    ensures Targets(s, [i]) == {s[i]}
  {
    assert i in [i];
  }

  /** u has a breaker in d's registry exactly when it had one in breakers or d selected it. */
  predicate KeyTracked(s: seq<Url>, breakers: map<Url, CB.Breaker>, u: Url, d: Dispatch)
  {
    u in d.breakers <==> u in breakers || u in Targets(s, d.picks)
  }

  lemma KeyTrackedPrepend(s: seq<Url>, breakers: map<Url, CB.Breaker>, u: Url, i: nat, b: CB.Breaker,
                          posted: seq<string>, rest: Dispatch)
    requires i < |s|
    requires KeyTracked(s, breakers[s[i] := b], u, rest)
    ensures KeyTracked(s, breakers, u, Extend([i], posted, rest))
  {
    TargetsCons(s, i, rest.picks);
  }

  lemma KeyTrackedSingle(s: seq<Url>, breakers: map<Url, CB.Breaker>, u: Url, i: nat, b: CB.Breaker,
                         r: Result<Json, string>, c: Int32, sent: seq<string>)
    requires i < |s|
    ensures KeyTracked(s, breakers, u, Dispatch(r, c, breakers[s[i] := b], [i], sent))
  {
    TargetsSingle(s, i);
  }

  lemma KeyTrackedEmpty(s: seq<Url>, breakers: map<Url, CB.Breaker>, u: Url, r: Result<Json, string>, c: Int32)
    ensures KeyTracked(s, breakers, u, Dispatch(r, c, breakers, [], []))
  {
    assert Targets(s, []) == {};
  }

  /** computeIfAbsent: an upstream has a breaker after the walk exactly when it had one
      before or the walk selected it. */
  lemma {:induction false} WalkRegistryKey(s: seq<Url>, payload: Json, upstream: Upstream, now: int,
                                           counter: Int32, breakers: map<Url, CB.Breaker>, attempt: nat,
                                           u: Url)
    requires 0 < |s| <= MaxInt && attempt <= |s|
    ensures KeyTracked(s, breakers, u, FallbackWalk(s, payload, upstream, now, counter, breakers, attempt))
    decreases |s| - attempt
  {
    if attempt < |s| {
      var a, next, rest := WalkParts(s, payload, upstream, now, counter, breakers, attempt);
      if a.guarded.Served? {
        KeyTrackedSingle(s, breakers, u, a.index, a.breaker, Success(a.guarded.value), Increment(counter), [a.url]);
      } else {
        WalkRegistryKey(s, payload, upstream, now, Increment(counter), next, attempt + 1, u);
        KeyTrackedPrepend(s, breakers, u, a.index, a.breaker, Posted(a), rest);
      }
    } else {
      KeyTrackedEmpty(s, breakers, u, Failure(AllInstancesFailed), counter);
    }
  }

  /** computeIfAbsent: the registry gains a key for every upstream selected and loses none. */
  lemma WalkRegistryKeys(s: seq<Url>, payload: Json, upstream: Upstream, now: int,
                         counter: Int32, breakers: map<Url, CB.Breaker>, attempt: nat)
    requires 0 < |s| <= MaxInt && attempt <= |s|
    ensures var d := FallbackWalk(s, payload, upstream, now, counter, breakers, attempt);
            d.breakers.Keys == breakers.Keys + Targets(s, d.picks)
  {
    var d := FallbackWalk(s, payload, upstream, now, counter, breakers, attempt);
    forall u ensures u in d.breakers.Keys <==> u in breakers.Keys + Targets(s, d.picks) {
      WalkRegistryKey(s, payload, upstream, now, counter, breakers, attempt, u);
    }
  }

  /** If d did not select u, u's breaker in d's registry is the one breakers held. */
  predicate Untouched(s: seq<Url>, breakers: map<Url, CB.Breaker>, u: Url, d: Dispatch)
  {
    u in breakers && u !in Targets(s, d.picks) ==> u in d.breakers && d.breakers[u] == breakers[u]
  }

  lemma UntouchedPrepend(s: seq<Url>, breakers: map<Url, CB.Breaker>, u: Url, i: nat, b: CB.Breaker,
                         posted: seq<string>, rest: Dispatch)
    requires i < |s|
    requires Untouched(s, breakers[s[i] := b], u, rest)
    ensures Untouched(s, breakers, u, Extend([i], posted, rest))
  {
    TargetsCons(s, i, rest.picks);
  }

  lemma UntouchedSingle(s: seq<Url>, breakers: map<Url, CB.Breaker>, u: Url, i: nat, b: CB.Breaker,
                        r: Result<Json, string>, c: Int32, sent: seq<string>)
    requires i < |s|
    ensures Untouched(s, breakers, u, Dispatch(r, c, breakers[s[i] := b], [i], sent))
  {
    TargetsSingle(s, i);
  }

  /** The breaker of every upstream the walk did not select is left as it was. */
  lemma {:induction false} WalkRegistryOthers(s: seq<Url>, payload: Json, upstream: Upstream, now: int,
                                              counter: Int32, breakers: map<Url, CB.Breaker>, attempt: nat,
                                              u: Url)
    requires 0 < |s| <= MaxInt && attempt <= |s|
    ensures Untouched(s, breakers, u, FallbackWalk(s, payload, upstream, now, counter, breakers, attempt))
    decreases |s| - attempt
  {
    if attempt < |s| {
      var a, next, rest := WalkParts(s, payload, upstream, now, counter, breakers, attempt);
      if a.guarded.Served? {
        UntouchedSingle(s, breakers, u, a.index, a.breaker, Success(a.guarded.value), Increment(counter), [a.url]);
      } else {
        WalkRegistryOthers(s, payload, upstream, now, Increment(counter), next, attempt + 1, u);
        UntouchedPrepend(s, breakers, u, a.index, a.breaker, Posted(a), rest);
      }
    }
  }

  /** d posted nothing to u, and u's breaker in d's registry is b. */
  predicate Skipped(u: Url, b: CB.Breaker, d: Dispatch)
  {
    EchoUrl(u) !in d.sent && u in d.breakers && d.breakers[u] == b
  }

  lemma SkippedPrepend(u: Url, b: CB.Breaker, i: nat, posted: seq<string>, rest: Dispatch)
    requires EchoUrl(u) !in posted && Skipped(u, b, rest)
    ensures Skipped(u, b, Extend([i], posted, rest))
  {
  }

  /** An attempt neither posts to an upstream whose breaker refuses nor changes that
      breaker: on that upstream itself it is refused, and any other upstream has another
      echo URL. */
  lemma AttemptSkips(s: seq<Url>, payload: Json, upstream: Upstream, now: int,
                     counter: Int32, breakers: map<Url, CB.Breaker>, u: Url, a: Attempt)
    requires 0 < |s| <= MaxInt && a == Step(s, payload, upstream, now, counter, breakers)
    requires u in breakers && CB.Refuses(breakers[u], now)
    ensures EchoUrl(u) !in Posted(a)
    ensures u in breakers[s[a.index] := a.breaker] && breakers[s[a.index] := a.breaker][u] == breakers[u]
  {
    if s[a.index] != u && a.url == EchoUrl(u) {
      EchoUrlInjective(s[a.index], u);
    }
  }

  /** An upstream whose breaker is OPEN and still inside its wait is never posted to during
      the walk, and its breaker comes out unchanged: every attempt on it is refused and the
      walk falls back to the next one. */
  lemma {:induction false} OpenBreakerSkipped(s: seq<Url>, payload: Json, upstream: Upstream, now: int,
                                              counter: Int32, breakers: map<Url, CB.Breaker>, attempt: nat,
                                              u: Url)
    requires 0 < |s| <= MaxInt && attempt <= |s|
    requires u in breakers && CB.Refuses(breakers[u], now) && breakers[u].Open?
    ensures Skipped(u, breakers[u], FallbackWalk(s, payload, upstream, now, counter, breakers, attempt))
    decreases |s| - attempt
  {
    if attempt < |s| {
      var a, next, rest := WalkParts(s, payload, upstream, now, counter, breakers, attempt);
      AttemptSkips(s, payload, upstream, now, counter, breakers, u, a);
      if !a.guarded.Served? {
        OpenBreakerSkipped(s, payload, upstream, now, Increment(counter), next, attempt + 1, u);
        SkippedPrepend(u, breakers[u], a.index, Posted(a), rest);
      }
    }
  }

  /** When every upstream answers with an error the walk tries every remaining position
      and fails with the all-failed message. */
  lemma {:induction false} AllFailExhausts(s: seq<Url>, payload: Json, upstream: Upstream, now: int,
                                           counter: Int32, breakers: map<Url, CB.Breaker>, attempt: nat)
    requires 0 < |s| <= MaxInt && attempt <= |s|
    requires forall i :: 0 <= i < |s| ==> upstream(EchoUrl(s[i]), payload).Error?
    ensures var d := FallbackWalk(s, payload, upstream, now, counter, breakers, attempt);
            d.result == Failure(AllInstancesFailed) && |d.picks| == |s| - attempt
    decreases |s| - attempt
  {
    if attempt < |s| {
      var a, next, rest := WalkParts(s, payload, upstream, now, counter, breakers, attempt);
      assert upstream(a.url, payload).Error?;
      AllFailExhausts(s, payload, upstream, now, Increment(counter), next, attempt + 1);
    }
  }

  /** Two dispatches that end in the same result, counter and breaker registry. */
  predicate SameOutcome(d: Dispatch, e: Dispatch)
  {
    d.result == e.result && d.counter == e.counter && d.breakers == e.breakers
  }

  /** The breaker of u once it has recorded one more failed call at time now. */
  function AfterFailure(breakers: map<Url, CB.Breaker>, u: Url, now: int): (b: CB.Breaker)
  {
    CB.Execute(BreakerFor(breakers, u), now, CB.Call<Json>.Error).1
  }

  /** An attempt whose upstream answers with an error is recorded by that upstream's
      breaker, and the walk falls back to the next attempt. */
  lemma FailedAttempt(s: seq<Url>, payload: Json, upstream: Upstream, now: int,
                      counter: Int32, breakers: map<Url, CB.Breaker>, attempt: nat)
    requires 0 < |s| <= MaxInt && attempt < |s|
    requires upstream(EchoUrl(s[SelectIndex(counter, |s|)]), payload).Error?
    ensures var u := s[SelectIndex(counter, |s|)];
            var d := FallbackWalk(s, payload, upstream, now, counter, breakers, attempt);
            var rest := FallbackWalk(s, payload, upstream, now, Increment(counter),
                                     breakers[u := AfterFailure(breakers, u, now)], attempt + 1);
            SameOutcome(d, rest)
  {
    WalkStep(s, payload, upstream, now, counter, breakers, attempt);
    var a := Step(s, payload, upstream, now, counter, breakers);
    assert upstream(a.url, payload) == CB.Call<Json>.Error;
  }

  /** Three increments from a non-wrapping multiple of 3 visit positions 0, 1 and 2. */
  lemma RoundIndices(counter: Int32)
    requires 0 <= counter && counter % 3 == 0 && counter + 3 <= MaxInt
    ensures SelectIndex(counter, 3) == 0 && Increment(counter) == counter + 1
    ensures SelectIndex(counter + 1, 3) == 1 && Increment(counter + 1) == counter + 2
    ensures SelectIndex(counter + 2, 3) == 2 && Increment(counter + 2) == counter + 3
  {
  }

  /** One round of testCircuitBreakerOpen: a forward over three distinct upstreams that all
      answer with an error, from a counter that is a multiple of 3 and does not wrap. Each
      position is tried once, each breaker records one failure, the counter moves on by 3
      and the forward fails with the all-failed message. */
  lemma FailureRound(s: seq<Url>, payload: Json, upstream: Upstream, now: int,
                     counter: Int32, breakers: map<Url, CB.Breaker>)
    requires |s| == 3 && s[0] != s[1] && s[1] != s[2] && s[0] != s[2]
    requires 0 <= counter && counter % 3 == 0 && counter + 3 <= MaxInt
    requires forall i :: 0 <= i < |s| ==> upstream(EchoUrl(s[i]), payload).Error?
    ensures var d := ForwardOutcome(s, payload, upstream, now, counter, breakers);
            && d.result == Failure(AllInstancesFailed)
            && d.counter == counter + 3
            && d.breakers == breakers[s[0] := AfterFailure(breakers, s[0], now)]
                                     [s[1] := AfterFailure(breakers, s[1], now)]
                                     [s[2] := AfterFailure(breakers, s[2], now)]
  {
    RoundIndices(counter);
    var m1 := breakers[s[0] := AfterFailure(breakers, s[0], now)];
    var m2 := m1[s[1] := AfterFailure(breakers, s[1], now)];
    var m3 := m2[s[2] := AfterFailure(breakers, s[2], now)];
    assert AfterFailure(m1, s[1], now) == AfterFailure(breakers, s[1], now) by {
      assert BreakerFor(m1, s[1]) == BreakerFor(breakers, s[1]);
    }
    assert AfterFailure(m2, s[2], now) == AfterFailure(breakers, s[2], now) by {
      assert BreakerFor(m2, s[2]) == BreakerFor(breakers, s[2]);
    }
    var w0 := FallbackWalk(s, payload, upstream, now, counter, breakers, 0);
    var w1 := FallbackWalk(s, payload, upstream, now, counter + 1, m1, 1);
    var w2 := FallbackWalk(s, payload, upstream, now, counter + 2, m2, 2);
    var w3 := FallbackWalk(s, payload, upstream, now, counter + 3, m3, 3);
    FailedAttempt(s, payload, upstream, now, counter, breakers, 0);
    assert SameOutcome(w0, w1);
    FailedAttempt(s, payload, upstream, now, counter + 1, m1, 1);
    assert SameOutcome(w1, w2);
    FailedAttempt(s, payload, upstream, now, counter + 2, m2, 2);
    assert SameOutcome(w2, w3);
    WalkStep(s, payload, upstream, now, counter + 3, m3, 3);
  }

  /** Every upstream of the snapshot sits in a CLOSED breaker whose window holds exactly k
      failures (k = 0 is a breaker not created yet). */
  predicate AtLevel(s: seq<Url>, breakers: map<Url, CB.Breaker>, k: nat)
    requires k < CB.SlidingWindowSize
  {
    forall i :: 0 <= i < |s| ==> BreakerFor(breakers, s[i]) == CB.ClosedAfterFailures(k)
  }

  /** A failing round moves every breaker one failure up; the fifth failing round opens all
      three breakers at the time of that forward. */
  lemma FailureRoundLevel(s: seq<Url>, payload: Json, upstream: Upstream, now: int,
                          counter: Int32, breakers: map<Url, CB.Breaker>, k: nat)
    requires |s| == 3 && s[0] != s[1] && s[1] != s[2] && s[0] != s[2]
    requires 0 <= counter && counter % 3 == 0 && counter + 3 <= MaxInt
    requires forall i :: 0 <= i < |s| ==> upstream(EchoUrl(s[i]), payload).Error?
    requires k < CB.SlidingWindowSize && AtLevel(s, breakers, k)
    ensures var d := ForwardOutcome(s, payload, upstream, now, counter, breakers);
            && d.result == Failure(AllInstancesFailed)
            && d.counter == counter + 3
            && (k + 1 < CB.SlidingWindowSize ==> AtLevel(s, d.breakers, k + 1))
            && (k + 1 == CB.SlidingWindowSize ==>
                  forall i :: 0 <= i < |s| ==> s[i] in d.breakers && d.breakers[s[i]] == CB.Open(now))
  {
    FailureRound(s, payload, upstream, now, counter, breakers);
    CB.FailureStep<Json>(k, now);
    var next := if k + 1 == CB.SlidingWindowSize then CB.Open(now) else CB.ClosedAfterFailures(k + 1);
    assert forall i :: 0 <= i < |s| ==> AfterFailure(breakers, s[i], now) == next;
  }

  /** The first attempt is the last when its upstream is permitted and answers: the reply
      comes back unchanged, one URL is posted to, the counter moves on by exactly one and
      the registry keeps that upstream's breaker in the state the call left it in. */
  lemma FirstSuccessStops(s: seq<Url>, payload: Json, upstream: Upstream, now: int,
                          counter: Int32, breakers: map<Url, CB.Breaker>, attempt: nat)
    requires 0 < |s| <= MaxInt && attempt < |s|
    requires var i := SelectIndex(counter, |s|);
             && !CB.Refuses(BreakerFor(breakers, s[i]), now)
             && upstream(EchoUrl(s[i]), payload).Reply?
    ensures var i := SelectIndex(counter, |s|);
            var d := FallbackWalk(s, payload, upstream, now, counter, breakers, attempt);
            && d.result == Success(upstream(EchoUrl(s[i]), payload).value)
            && d.picks == [i]
            && d.sent == [EchoUrl(s[i])]
            && d.counter == Increment(counter)
            && d.breakers == breakers[s[i] := CB.Execute(BreakerFor(breakers, s[i]), now, upstream(EchoUrl(s[i]), payload)).1]
  {
    var a := Step(s, payload, upstream, now, counter, breakers);
    assert a.guarded.Served?;
  }

  /** Round k of testRoundRobinBehaviour: from counter k, with the later upstreams of a
      strictly ascending snapshot still without a breaker, the forward is served by upstream
      k, moves the counter to k + 1 and creates no breaker for the upstreams after k. */
  lemma ServedRound(s: seq<Url>, payload: Json, upstream: Upstream, now: int,
                    k: nat, breakers: map<Url, CB.Breaker>)
    requires StrictlyAscending(s) && k < |s| <= MaxInt
    requires forall j :: k <= j < |s| ==> s[j] !in breakers
    requires upstream(EchoUrl(s[k]), payload).Reply?
    ensures var d := ForwardOutcome(s, payload, upstream, now, k, breakers);
            && d.result == Success(upstream(EchoUrl(s[k]), payload).value)
            && d.picks == [k] && d.sent == [EchoUrl(s[k])]
            && d.counter == k + 1
            && (forall j :: k < j < |s| ==> s[j] !in d.breakers)
  {
    SmallMod(k, |s|);
    FirstSuccessStops(s, payload, upstream, now, k, breakers, 0);
    var b := CB.Execute(BreakerFor(breakers, s[k]), now, upstream(EchoUrl(s[k]), payload)).1;
    forall j | k < j < |s|
      ensures s[j] !in breakers[s[k] := b]
    {
      AscendingIsDistinct(s, k, j);
    }
  }

  /** A failing first upstream followed by a permitted, answering second one: the second's
      reply is returned after exactly two attempts, both of which posted. */
  lemma FallbackOnFirstFailure(s: seq<Url>, payload: Json, upstream: Upstream, now: int,
                               counter: Int32, breakers: map<Url, CB.Breaker>)
    requires 2 <= |s| <= MaxInt
    requires var i := SelectIndex(counter, |s|);
             var j := SelectIndex(Increment(counter), |s|);
             && s[i] != s[j]
             && !CB.Refuses(BreakerFor(breakers, s[i]), now)
             && upstream(EchoUrl(s[i]), payload).Error?
             && !CB.Refuses(BreakerFor(breakers, s[j]), now)
             && upstream(EchoUrl(s[j]), payload).Reply?
    ensures var i := SelectIndex(counter, |s|);
            var j := SelectIndex(Increment(counter), |s|);
            var d := ForwardOutcome(s, payload, upstream, now, counter, breakers);
            && d.result == Success(upstream(EchoUrl(s[j]), payload).value)
            && d.picks == [i, j]
            && d.sent == [EchoUrl(s[i]), EchoUrl(s[j])]
            && d.counter == Advance(counter, 2)
  {
    var a := Step(s, payload, upstream, now, counter, breakers);
    assert !a.guarded.Served? && !a.guarded.NotPermitted?;
    var j := SelectIndex(Increment(counter), |s|);
    assert BreakerFor(breakers[s[a.index] := a.breaker], s[j]) == BreakerFor(breakers, s[j]);
    FirstSuccessStops(s, payload, upstream, now, Increment(counter), breakers[s[a.index] := a.breaker], 1);
  }

  class RoutingService {
    const healthCheckService: HC.HealthCheckService
    var counter: Int32
    var circuitBreakers: map<Url, CB.Breaker>

    ghost predicate Valid()
      reads this, healthCheckService
    {
      healthCheckService.Valid() && BreakersValid(circuitBreakers)
    }

    /** A new dispatcher: counter 0, no breakers yet. */
    constructor (healthCheckService: HC.HealthCheckService)
      requires healthCheckService.Valid()
      ensures Valid()
      ensures this.healthCheckService == healthCheckService
      ensures counter == 0 && circuitBreakers == map[]
    {
      this.healthCheckService := healthCheckService;
      counter := 0;
      circuitBreakers := map[];
    }

    /** One attempt of tryForward: getAndIncrement, computeIfAbsent, the call under the
        breaker, and the breaker's new state kept in the registry. */
    method TryAttempt(healthyInstances: seq<Url>, payload: Json, upstream: Upstream, now: int)
      returns (guarded: CB.Guarded<Json>)
      requires 0 < |healthyInstances| <= MaxInt
      requires BreakersValid(circuitBreakers)
      modifies this
      ensures var a := Step(healthyInstances, payload, upstream, now, old(counter), old(circuitBreakers));
              && guarded == a.guarded
              && counter == Increment(old(counter))
              && circuitBreakers == old(circuitBreakers)[healthyInstances[a.index] := a.breaker]
      ensures BreakersValid(circuitBreakers)
    {
      var index := SelectIndex(counter, |healthyInstances|);
      counter := Increment(counter);
      var baseUrl := healthyInstances[index];
      var url := EchoUrl(baseUrl);
      var cb := BreakerFor(circuitBreakers, baseUrl);
      circuitBreakers := circuitBreakers[baseUrl := cb];
      var r := CB.Execute(cb, now, upstream(url, payload));
      circuitBreakers := circuitBreakers[baseUrl := r.1];
      guarded := r.0;
    }

    /** tryForward over a non-empty snapshot, its recursion on attempt written as a loop:
        the result, the new counter and the new registry are those of the fallback walk
        from attempt 0. */
    method TryForward(healthyInstances: seq<Url>, payload: Json, upstream: Upstream, now: int)
      returns (result: Result<Json, string>)
      requires 0 < |healthyInstances| <= MaxInt
      requires BreakersValid(circuitBreakers)
      modifies this
      ensures var d := FallbackWalk(healthyInstances, payload, upstream, now, old(counter), old(circuitBreakers), 0);
              result == d.result && counter == d.counter && circuitBreakers == d.breakers
      ensures BreakersValid(circuitBreakers)
    {
      ghost var walk := FallbackWalk(healthyInstances, payload, upstream, now, counter, circuitBreakers, 0);
      var attempt := 0;
      while attempt < |healthyInstances|
        invariant 0 <= attempt <= |healthyInstances|
        invariant BreakersValid(circuitBreakers)
        invariant var rest := FallbackWalk(healthyInstances, payload, upstream, now, counter, circuitBreakers, attempt);
                  rest.result == walk.result && rest.counter == walk.counter && rest.breakers == walk.breakers
        decreases |healthyInstances| - attempt
      {
        WalkStep(healthyInstances, payload, upstream, now, counter, circuitBreakers, attempt);
        var guarded := TryAttempt(healthyInstances, payload, upstream, now);
        if guarded.Served? {
          return Success(guarded.value);
        }
        attempt := attempt + 1;
      }
      return Failure(AllInstancesFailed);
    }

    /** forward: the snapshot taken at the start decides everything. The result, the new
        counter and the new registry are those of ForwardOutcome on it; the health
        monitor's set is left alone. */
    method Forward(payload: Json, upstream: Upstream, now: int) returns (result: Result<Json, string>)
      requires Valid()
      modifies this
      ensures Valid()
      ensures var d := ForwardOutcome(old(healthCheckService.GetHealthyInstances()), payload, upstream, now,
                                      old(counter), old(circuitBreakers));
              result == d.result && counter == d.counter && circuitBreakers == d.breakers
      ensures healthCheckService.healthyInstances == old(healthCheckService.healthyInstances)
    {
      var healthyInstances := healthCheckService.GetHealthyInstances();
      if |healthyInstances| == 0 {
        return Failure(NoHealthyInstances);
      }
      result := TryForward(healthyInstances, payload, upstream, now);
    }
  }

  /** One forward of testRoundRobinBehaviour: from counter k with no breaker yet for the
      upstreams from k on, the k-th upstream of the snapshot serves the call. */
  method ServedForward(service: RoutingService, s: seq<Url>, payload: Json, upstream: Upstream, now: int, k: nat)
    returns (result: Result<Json, string>)
    requires service.Valid() && s == service.healthCheckService.GetHealthyInstances()
    requires k < |s| && service.counter == k
    requires forall j :: k <= j < |s| ==> s[j] !in service.circuitBreakers
    requires upstream(EchoUrl(s[k]), payload).Reply?
    modifies service
    ensures service.Valid() && s == service.healthCheckService.GetHealthyInstances()
    ensures result == Success(upstream(EchoUrl(s[k]), payload).value)
    ensures service.counter == k + 1
    ensures forall j :: k < j < |s| ==> s[j] !in service.circuitBreakers
  {
    ServedRound(s, payload, upstream, now, k, service.circuitBreakers);
    result := service.Forward(payload, upstream, now);
  }

  /** testRoundRobinBehaviour: on a new dispatcher over three healthy upstreams, three
      forwards whose chosen upstream answers go to the first, the second and the third
      upstream of the sorted snapshot in turn and return their replies unchanged. */
  method RoundRobinOrder(service: RoutingService, payload: Json, upstream: Upstream, times: seq<int>)
    returns (results: seq<Result<Json, string>>)
    requires service.Valid() && service.counter == 0 && service.circuitBreakers == map[]
    requires |service.healthCheckService.healthyInstances| == 3 && |times| == 3
    requires forall u :: u in service.healthCheckService.healthyInstances ==> upstream(EchoUrl(u), payload).Reply?
    modifies service
    ensures var s := old(service.healthCheckService.GetHealthyInstances());
            && |results| == 3
            && (forall i :: 0 <= i < 3 ==> results[i] == Success(upstream(EchoUrl(s[i]), payload).value))
            && service.counter == 3
  {
    var s := service.healthCheckService.GetHealthyInstances();
    results := [];
    var k := 0;
    while k < 3
      invariant 0 <= k <= 3 && service.Valid()
      invariant service.healthCheckService.GetHealthyInstances() == s
      invariant service.counter == k
      invariant forall j :: k <= j < 3 ==> s[j] !in service.circuitBreakers
      invariant |results| == k
      invariant forall i :: 0 <= i < k ==> results[i] == Success(upstream(EchoUrl(s[i]), payload).value)
    {
      assert s[k] in Elements(s);
      var r := ServedForward(service, s, payload, upstream, times[k], k);
      results := results + [r];
      k := k + 1;
    }
  }

  /** One forward of testCircuitBreakerOpen: with every breaker k failures up, the forward
      fails over all three upstreams and every breaker moves one failure up, or opens at
      time now on the fifth. */
  method FailingForward(service: RoutingService, s: seq<Url>, payload: Json, upstream: Upstream, now: int, k: nat)
    returns (result: Result<Json, string>)
    requires service.Valid() && s == service.healthCheckService.GetHealthyInstances()
    requires |s| == 3 && s[0] != s[1] && s[1] != s[2] && s[0] != s[2]
    requires forall i :: 0 <= i < |s| ==> upstream(EchoUrl(s[i]), payload).Error?
    requires k < CB.SlidingWindowSize && service.counter == 3 * k && AtLevel(s, service.circuitBreakers, k)
    modifies service
    ensures service.Valid() && s == service.healthCheckService.GetHealthyInstances()
    ensures result == Failure(AllInstancesFailed)
    ensures service.counter == 3 * (k + 1)
    ensures k + 1 < CB.SlidingWindowSize ==> AtLevel(s, service.circuitBreakers, k + 1)
    ensures k + 1 == CB.SlidingWindowSize ==>
              forall i :: 0 <= i < |s| ==> s[i] in service.circuitBreakers && service.circuitBreakers[s[i]] == CB.Open(now)
  {
    FailureRoundLevel(s, payload, upstream, now, 3 * k, service.circuitBreakers, k);
    result := service.Forward(payload, upstream, now);
  }

  /** The snapshot of three healthy upstreams that all answer with an error: three
      distinct upstreams, each of which errors. */
  lemma ThreeFailing(s: seq<Url>, healthy: set<Url>, payload: Json, upstream: Upstream)
    requires StrictlyAscending(s) && Elements(s) == healthy && |s| == 3
    requires forall u :: u in healthy ==> upstream(EchoUrl(u), payload).Error?
    ensures s[0] != s[1] && s[1] != s[2] && s[0] != s[2]
    ensures forall i :: 0 <= i < |s| ==> upstream(EchoUrl(s[i]), payload).Error?
  {
    AscendingIsDistinct(s, 0, 1);
    AscendingIsDistinct(s, 1, 2);
    AscendingIsDistinct(s, 0, 2);
    forall i | 0 <= i < |s|
      ensures upstream(EchoUrl(s[i]), payload).Error?
    {
      assert s[i] in Elements(s);
    }
  }

  /** Every upstream of s has a breaker, OPEN since t. */
  predicate AllOpenSince(s: seq<Url>, breakers: map<Url, CB.Breaker>, t: int)
  {
    forall i :: 0 <= i < |s| ==> s[i] in breakers && breakers[s[i]] == CB.Open(t)
  }

  lemma AllOpenSinceHealthy(s: seq<Url>, healthy: set<Url>, breakers: map<Url, CB.Breaker>, t: int)
    requires Elements(s) == healthy && AllOpenSince(s, breakers, t)
    ensures forall u :: u in healthy ==> u in breakers && breakers[u] == CB.Open(t)
  {
    forall u | u in healthy
      ensures u in breakers && breakers[u] == CB.Open(t)
    {
      var i :| 0 <= i < |s| && s[i] == u;
    }
  }

  /** testCircuitBreakerOpen: on a new dispatcher over three healthy upstreams that all
      answer with errors, five forwards each fail with the all-failed message and afterwards
      the breaker of every healthy upstream is OPEN since the fifth forward. */
  method CircuitBreakerOpens(service: RoutingService, payload: Json, upstream: Upstream, times: seq<int>)
    returns (results: seq<Result<Json, string>>)
    requires service.Valid() && service.counter == 0 && service.circuitBreakers == map[]
    requires |service.healthCheckService.healthyInstances| == 3 && |times| == CB.SlidingWindowSize
    requires forall u :: u in service.healthCheckService.healthyInstances ==> upstream(EchoUrl(u), payload).Error?
    modifies service
    ensures |results| == CB.SlidingWindowSize
    ensures forall i :: 0 <= i < |results| ==> results[i] == Failure(AllInstancesFailed)
    ensures forall u :: u in service.healthCheckService.healthyInstances ==>
              u in service.circuitBreakers && service.circuitBreakers[u] == CB.Open(times[CB.SlidingWindowSize - 1])
    ensures service.counter == 3 * CB.SlidingWindowSize
  {
    var s := service.healthCheckService.GetHealthyInstances();
    ThreeFailing(s, service.healthCheckService.healthyInstances, payload, upstream);
    assert CB.Fresh == CB.ClosedAfterFailures(0);
    results := [];
    var k := 0;
    while k < CB.SlidingWindowSize
      invariant 0 <= k <= CB.SlidingWindowSize && service.Valid()
      invariant service.healthCheckService.GetHealthyInstances() == s
      invariant service.counter == 3 * k
      invariant k < CB.SlidingWindowSize ==> AtLevel(s, service.circuitBreakers, k)
      invariant k == CB.SlidingWindowSize ==> AllOpenSince(s, service.circuitBreakers, times[k - 1])
      invariant |results| == k
      invariant forall i :: 0 <= i < k ==> results[i] == Failure(AllInstancesFailed)
    {
      var r := FailingForward(service, s, payload, upstream, times[k], k);
      results := results + [r];
      k := k + 1;
    }
    AllOpenSinceHealthy(s, service.healthCheckService.healthyInstances, service.circuitBreakers,
                        times[CB.SlidingWindowSize - 1]);
  }
}
