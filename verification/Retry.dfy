/**
 Retry with exponential backoff (packages/odf/utils/retry.ts). Time is in milliseconds; a call takes
 as long as it takes, and a sleep takes exactly the time asked for.
 */
module Retry {
  import opened Options

  /** What the n-th call of the retried function does. */
  datatype Call<+T, +E> = Call(outcome: Result<T, E>, duration: real)

  datatype Settings = Settings(
    maxRetries: int, initialDelay: real, maxDelay: real, timeout: Option<real>, factor: real)

  const DEFAULTS := Settings(5, 1000.0, 30000.0, None, 2.0)

  ghost predicate Sensible(o: Settings) {
    o.initialDelay >= 0.0 && o.maxDelay >= 0.0 && o.factor >= 0.0
  }

  function Power(b: real, n: nat): real {
    if n == 0 then 1.0 else b * Power(b, n - 1)
  }

  function Min(a: real, b: real): real {
    if a < b then a else b
  }

  function Uncapped(o: Settings, attempt: nat): real {
    o.initialDelay * Power(o.factor, attempt)
  }

  function Delay(o: Settings, attempt: nat): real {
    Min(Uncapped(o, attempt), o.maxDelay)
  }

  predicate Expired(o: Settings, elapsed: real) {
    o.timeout.Some? && elapsed >= o.timeout.value
  }

  /** What a call of the retrier did: the settled promise, where an error of `None` is a rejection
      with `undefined`, the times at which calls started, the lengths of the sleeps. */
  datatype Trace<+T, +E> = Trace(
    result: Result<T, Option<E>>, starts: seq<real>, sleeps: seq<real>, end: real)

  /** The clock and the observable effects of the loop. */
  class World {
    var now: real
    var starts: seq<real>
    var sleeps: seq<real>

    constructor (now: real)
      ensures this.now == now && starts == [] && sleeps == []
    {
      this.now := now;
      starts, sleeps := [], [];
    }

    method Sleep(ms: real)
      modifies this
      ensures now == old(now) + ms && sleeps == old(sleeps) + [ms] && starts == old(starts)
    {
      now := now + ms;
      sleeps := sleeps + [ms];
    }
  }

  /** The loop from iteration `attempt` on. */
  function Loop<T, E>(fn: nat -> Call<T, E>, o: Settings, start: real, now: real, attempt: nat, last: Option<E>)
    : Trace<T, E>
    decreases if attempt <= o.maxRetries then o.maxRetries + 1 - attempt else 0
  {
    if attempt > o.maxRetries || Expired(o, now - start) then Trace(Err(last), [], [], now)
    else
      var call := fn(attempt);
      var then_ := now + call.duration;
      if call.outcome.Ok? then Trace(Ok(call.outcome.value), [now], [], then_)
      else
        var error := Some(call.outcome.error);
        if attempt == o.maxRetries || Expired(o, then_ - start) then Trace(Err(error), [now], [], then_)
        else
          var delay := Delay(o, attempt);
          var ms := if o.timeout.Some? then Min(delay, o.timeout.value - (then_ - start)) else delay;
          var rest := Loop(fn, o, start, then_ + ms, attempt + 1, error);
          Trace(rest.result, [now] + rest.starts, [ms] + rest.sleeps, rest.end)
  }

  function Retried<T, E>(fn: nat -> Call<T, E>, o: Settings, start: real): Trace<T, E> {
    Loop(fn, o, start, start, 0, None)
  }

  ghost function Behind<T, E>(starts: seq<real>, sleeps: seq<real>, t: Trace<T, E>): Trace<T, E> {
    t.(starts := starts + t.starts, sleeps := sleeps + t.sleeps)
  }

  lemma BehindStep<T, E>(starts: seq<real>, sleeps: seq<real>, now: real, ms: real, rest: Trace<T, E>)
    ensures Behind(starts, sleeps, Trace(rest.result, [now] + rest.starts, [ms] + rest.sleeps, rest.end))
         == Behind(starts + [now], sleeps + [ms], rest)
  {
    assert starts + ([now] + rest.starts) == (starts + [now]) + rest.starts;
    assert sleeps + ([ms] + rest.sleeps) == (sleeps + [ms]) + rest.sleeps;
  }

  method RetryWithBackoff<T, E>(fn: nat -> Call<T, E>, o: Settings, world: World)
    returns (result: Result<T, Option<E>>)
    requires world.starts == [] && world.sleeps == []
    modifies world
    ensures Trace(result, world.starts, world.sleeps, world.now) == Retried(fn, o, old(world.now))
  {
    var startTime := world.now;
    var lastError: Option<E> := None;
    var attempt := 0;
    while attempt <= o.maxRetries
      invariant 0 <= attempt
      invariant Behind(world.starts, world.sleeps, Loop(fn, o, startTime, world.now, attempt, lastError))
             == Retried(fn, o, startTime)
      decreases o.maxRetries + 1 - attempt
    {
      if o.timeout.Some? && world.now - startTime >= o.timeout.value {
        break;
      }
      ghost var was := Loop(fn, o, startTime, world.now, attempt, lastError);
      ghost var starts, sleeps, now := world.starts, world.sleeps, world.now;
      var call := fn(attempt);
      world.starts := world.starts + [world.now];
      world.now := world.now + call.duration;
      if call.outcome.Ok? {
        return Ok(call.outcome.value);
      }
      lastError := Some(call.outcome.error);
      if attempt < o.maxRetries {
        var delay := Delay(o, attempt);
        if o.timeout.Some? {
          var remaining := o.timeout.value - (world.now - startTime);
          if remaining <= 0.0 {
            break;
          }
          delay := Min(delay, remaining);
        }
        world.Sleep(delay);
        ghost var rest := Loop(fn, o, startTime, world.now, attempt + 1, lastError);
        assert was == Trace(rest.result, [now] + rest.starts, [delay] + rest.sleeps, rest.end);
        BehindStep(starts, sleeps, now, delay, rest);
      } else {
        assert was == Trace(Err(lastError), [now], [], world.now);
      }
      attempt := attempt + 1;
    }
    result := Err(lastError);
  }

  // ----- calls and results -----

  ghost predicate FailedFromTo<T, E>(fn: nat -> Call<T, E>, from: nat, to: int) {
    forall a: nat :: from <= a < to ==> fn(a).outcome.Err?
  }

  function Settled<T, E>(outcome: Result<T, E>): Result<T, Option<E>> {
    match outcome
    case Ok(v) => Ok(v)
    case Err(e) => Err(Some(e))
  }

  /** The first success, or the error of the last call, of at most `maxRetries + 1` calls; the
      rejection carries no error only if no call was made at all. */
  lemma {:induction false} LoopResult<T, E>(
    fn: nat -> Call<T, E>, o: Settings, start: real, now: real, attempt: nat, last: Option<E>)
    ensures var t := Loop(fn, o, start, now, attempt, last);
            var n := |t.starts|;
            && (attempt <= o.maxRetries ==> attempt + n <= o.maxRetries + 1)
            && (n == 0 <==> attempt > o.maxRetries || Expired(o, now - start))
            && (n == 0 ==> t.result == Err(last))
            && FailedFromTo(fn, attempt, attempt + n - 1)
            && (n > 0 ==> t.result == Settled(fn(attempt + n - 1).outcome))
            && (t.result.Err? && o.timeout.None? && attempt <= o.maxRetries ==> attempt + n == o.maxRetries + 1)
    decreases if attempt <= o.maxRetries then o.maxRetries + 1 - attempt else 0
  {
    if attempt <= o.maxRetries && !Expired(o, now - start) {
      var call := fn(attempt);
      var then_ := now + call.duration;
      if call.outcome.Err? && attempt < o.maxRetries && !Expired(o, then_ - start) {
        var delay := Delay(o, attempt);
        var ms := if o.timeout.Some? then Min(delay, o.timeout.value - (then_ - start)) else delay;
        LoopResult(fn, o, start, then_ + ms, attempt + 1, Some(call.outcome.error));
        var rest := Loop(fn, o, start, then_ + ms, attempt + 1, Some(call.outcome.error));
        assert |Loop(fn, o, start, now, attempt, last).starts| == 1 + |rest.starts|;
      }
    }
  }

  lemma RetriedResult<T, E>(fn: nat -> Call<T, E>, o: Settings, start: real)
    ensures var t := Retried(fn, o, start);
            var n := |t.starts|;
            && n <= (if o.maxRetries < 0 then 0 else o.maxRetries + 1)
            && FailedFromTo(fn, 0, n - 1)
            && (t.result.Ok? ==> n > 0 && fn(n - 1).outcome == Ok(t.result.value))
            && (t.result.Err? && t.result.error.Some? ==> n > 0 && fn(n - 1).outcome == Err(t.result.error.value))
            && (t.result == Err(None) <==> o.maxRetries < 0 || Expired(o, 0.0))
            && (t.result.Err? && o.timeout.None? && o.maxRetries >= 0 ==> n == o.maxRetries + 1)
  {
    LoopResult(fn, o, start, start, 0, None);
  }

  // ----- how long it sleeps without a timeout -----

  function Sum(s: seq<real>): real {
    if s == [] then 0.0 else s[0] + Sum(s[1..])
  }

  /** The delays after `count` attempts beginning with `from`. */
  function Delays(o: Settings, from: nat, count: nat): seq<real>
    decreases count
  {
    if count == 0 then [] else [Delay(o, from)] + Delays(o, from + 1, count - 1)
  }

  lemma {:induction false} SleepsWithoutTimeout<T, E>(
    fn: nat -> Call<T, E>, o: Settings, start: real, now: real, attempt: nat, last: Option<E>)
    requires o.timeout.None? && attempt <= o.maxRetries
    ensures var t := Loop(fn, o, start, now, attempt, last);
            |t.starts| > 0 && t.sleeps == Delays(o, attempt, |t.starts| - 1)
    decreases o.maxRetries - attempt
  {
    var call := fn(attempt);
    if call.outcome.Err? && attempt < o.maxRetries {
      SleepsWithoutTimeout(fn, o, start, now + call.duration + Delay(o, attempt), attempt + 1,
                            Some(call.outcome.error));
    }
  }

  lemma {:induction false} PowerStep(b: real, n: nat)
    requires b >= 0.0
    ensures Power(b, n) >= 0.0
    ensures b > 1.0 ==> Power(b, n) >= 1.0
  {
    if n == 0 {
    } else {
      PowerStep(b, n - 1);
      var p := Power(b, n - 1);
      assert b * p >= 0.0;
      if b > 1.0 {
        assert (b - 1.0) * p >= 0.0;
        assert b * p == (b - 1.0) * p + p;
      }
    }
  }

  lemma DelayBounded(o: Settings, attempt: nat)
    requires Sensible(o)
    ensures 0.0 <= Delay(o, attempt) <= o.maxDelay
    ensures Delay(o, attempt) <= Uncapped(o, attempt)
  {
    PowerStep(o.factor, attempt);
  }

  lemma CapStep(n: nat, cap: real, d: real, rest: real)
    requires d <= cap && rest <= n as real * cap
    ensures d + rest <= (n + 1) as real * cap
  {
    assert (n + 1) as real * cap == cap + n as real * cap;
  }

  /** The total sleep is at most one full cap per sleep. */
  lemma {:induction false} DelaysCapped(o: Settings, from: nat, count: nat)
    requires Sensible(o)
    ensures Sum(Delays(o, from, count)) <= count as real * o.maxDelay
    decreases count
  {
    if count == 0 {
    } else {
      DelaysCapped(o, from + 1, count - 1);
      DelayBounded(o, from);
      CapStep(count - 1, o.maxDelay, Delay(o, from), Sum(Delays(o, from + 1, count - 1)));
    }
  }

  lemma UncappedStep(o: Settings, attempt: nat)
    ensures Uncapped(o, attempt + 1) == o.factor * Uncapped(o, attempt)
  {
    var init, b, p := o.initialDelay, o.factor, Power(o.factor, attempt);
    assert init * (b * p) == b * (init * p);
  }

  function Scaled(f: real, x: real): real {
    f * x
  }

  function ScaledSum(f: real, s: seq<real>): real {
    if s == [] then 0.0 else Scaled(f, s[0]) + ScaledSum(f, s[1..])
  }

  lemma {:induction false} ScaledSumIs(f: real, s: seq<real>)
    ensures ScaledSum(f, s) == f * Sum(s)
  {
    if s == [] {
    } else {
      ScaledSumIs(f, s[1..]);
    }
  }

  /** A delay, scaled, is at most the growth of the uncapped delay at its attempt. */
  lemma DelayGrowth(o: Settings, attempt: nat)
    requires Sensible(o) && o.factor >= 1.0
    ensures Scaled(o.factor - 1.0, Delay(o, attempt)) <= Uncapped(o, attempt + 1) - Uncapped(o, attempt)
  {
    DelayBounded(o, attempt);
    UncappedStep(o, attempt);
    assert (o.factor - 1.0) * (Uncapped(o, attempt) - Delay(o, attempt)) >= 0.0;
  }

  /** The scaled total sleep is at most the growth of the uncapped delay: a telescoping sum. */
  lemma {:induction false} DelaysGeometric(o: Settings, from: nat, count: nat)
    requires Sensible(o) && o.factor >= 1.0
    ensures ScaledSum(o.factor - 1.0, Delays(o, from, count)) <= Uncapped(o, from + count) - Uncapped(o, from)
    decreases count
  {
    if count == 0 {
    } else {
      DelaysGeometric(o, from + 1, count - 1);
      DelayGrowth(o, from);
      assert Delays(o, from, count)[1..] == Delays(o, from + 1, count - 1);
    }
  }

  lemma GeometricBound(o: Settings, count: nat)
    requires Sensible(o) && o.factor >= 1.0
    ensures (o.factor - 1.0) * Sum(Delays(o, 0, count)) <= Uncapped(o, count) - o.initialDelay
  {
    DelaysGeometric(o, 0, count);
    ScaledSumIs(o.factor - 1.0, Delays(o, 0, count));
    assert Uncapped(o, 0) == o.initialDelay;
  }

  /** An exhausted retrier without timeout has slept the sum of its capped delays, which is at most
      `maxRetries` full caps and at most the closed form of the geometric series. */
  lemma ExhaustedSleep<T, E>(fn: nat -> Call<T, E>, o: Settings, start: real)
    requires Sensible(o) && o.timeout.None? && o.maxRetries >= 0
    ensures var t := Retried(fn, o, start);
            t.result.Err? ==>
              && t.sleeps == Delays(o, 0, o.maxRetries)
              && Sum(t.sleeps) <= o.maxRetries as real * o.maxDelay
              && (o.factor >= 1.0 ==>
                    (o.factor - 1.0) * Sum(t.sleeps) <= Uncapped(o, o.maxRetries) - o.initialDelay)
  {
    SleepsWithoutTimeout(fn, o, start, start, 0, None);
    LoopResult(fn, o, start, start, 0, None);
    DelaysCapped(o, 0, o.maxRetries);
    if o.factor >= 1.0 {
      GeometricBound(o, o.maxRetries);
    }
  }

  /** The settings of `updateRamenHubOperatorConfig`: three sleeps of 0.5, 1 and 2 seconds. */
  lemma ConfigMapRetrySleeps<T, E>(fn: nat -> Call<T, E>, start: real)
    ensures var t := Retried(fn, DEFAULTS.(maxRetries := 3, initialDelay := 500.0), start);
            t.result.Err? ==> |t.starts| == 4 && t.sleeps == [500.0, 1000.0, 2000.0]
  {
    var o := DEFAULTS.(maxRetries := 3, initialDelay := 500.0);
    ExhaustedSleep(fn, o, start);
    RetriedResult(fn, o, start);
    assert Power(2.0, 0) == 1.0 && Power(2.0, 1) == 2.0 && Power(2.0, 2) == 4.0;
    assert Delays(o, 2, 1) == [2000.0] + Delays(o, 3, 0);
    assert Delays(o, 1, 2) == [1000.0, 2000.0];
    assert Delays(o, 0, 3) == [500.0, 1000.0, 2000.0];
  }

  // ----- deadlines -----

  /** With a timeout no call starts at or past the deadline, every sleep is over by then, and
      each call starts when the sleep before it is over. */
  ghost predicate MeetsDeadline<T, E>(
    fn: nat -> Call<T, E>, deadline: real, attempt: nat, starts: seq<real>, sleeps: seq<real>)
    decreases |starts|
  {
    if starts == [] then sleeps == []
    else if sleeps == [] then starts[0] < deadline && |starts| == 1
    else
      var wakes := starts[0] + fn(attempt).duration + sleeps[0];
      && starts[0] < deadline && wakes <= deadline
      && (|starts| > 1 ==> starts[1] == wakes)
      && MeetsDeadline(fn, deadline, attempt + 1, starts[1..], sleeps[1..])
  }

  lemma MeetsDeadlineStep<T, E>(
    fn: nat -> Call<T, E>, deadline: real, attempt: nat, now: real, ms: real, starts: seq<real>, sleeps: seq<real>,
    allStarts: seq<real>, allSleeps: seq<real>)
    requires allStarts == [now] + starts && allSleeps == [ms] + sleeps
    requires MeetsDeadline(fn, deadline, attempt + 1, starts, sleeps)
    requires now < deadline && now + fn(attempt).duration + ms <= deadline
    requires starts != [] ==> starts[0] == now + fn(attempt).duration + ms
    ensures MeetsDeadline(fn, deadline, attempt, allStarts, allSleeps)
  {
    assert allStarts[1..] == starts && allSleeps[1..] == sleeps;
  }

  /** The iteration ends in a sleep, after which the loop goes on. */
  predicate Continues<T, E>(fn: nat -> Call<T, E>, o: Settings, start: real, now: real, attempt: nat) {
    && attempt < o.maxRetries && !Expired(o, now - start) && fn(attempt).outcome.Err?
    && !Expired(o, now + fn(attempt).duration - start)
  }

  lemma LoopStops<T, E>(fn: nat -> Call<T, E>, o: Settings, start: real, now: real, attempt: nat, last: Option<E>)
    requires o.timeout.Some? && !Continues(fn, o, start, now, attempt)
    ensures var t := Loop(fn, o, start, now, attempt, last);
            MeetsDeadline(fn, start + o.timeout.value, attempt, t.starts, t.sleeps)
  {
    var t := Loop(fn, o, start, now, attempt, last);
    assert t.sleeps == [] && (t.starts == [] || (t.starts == [now] && now < start + o.timeout.value));
  }

  lemma LoopStartsNow<T, E>(fn: nat -> Call<T, E>, o: Settings, start: real, now: real, attempt: nat, last: Option<E>)
    ensures var t := Loop(fn, o, start, now, attempt, last); t.starts != [] ==> t.starts[0] == now
  {
  }

  lemma LoopGoesOn<T, E>(fn: nat -> Call<T, E>, o: Settings, start: real, now: real, attempt: nat, last: Option<E>)
    returns (ms: real, rest: Trace<T, E>)
    requires o.timeout.Some? && Continues(fn, o, start, now, attempt)
    ensures now < start + o.timeout.value && now + fn(attempt).duration + ms <= start + o.timeout.value
    ensures rest == Loop(fn, o, start, now + fn(attempt).duration + ms, attempt + 1, Some(fn(attempt).outcome.error))
    ensures rest.starts != [] ==> rest.starts[0] == now + fn(attempt).duration + ms
    ensures var t := Loop(fn, o, start, now, attempt, last);
            t.starts == [now] + rest.starts && t.sleeps == [ms] + rest.sleeps
  {
    var then_ := now + fn(attempt).duration;
    ms := Min(Delay(o, attempt), o.timeout.value - (then_ - start));
    rest := Loop(fn, o, start, then_ + ms, attempt + 1, Some(fn(attempt).outcome.error));
    LoopStartsNow(fn, o, start, then_ + ms, attempt + 1, Some(fn(attempt).outcome.error));
  }

  lemma {:induction false} LoopMeetsDeadline<T, E>(
    fn: nat -> Call<T, E>, o: Settings, start: real, now: real, attempt: nat, last: Option<E>)
    requires o.timeout.Some?
    ensures var t := Loop(fn, o, start, now, attempt, last);
            MeetsDeadline(fn, start + o.timeout.value, attempt, t.starts, t.sleeps)
    decreases if attempt <= o.maxRetries then o.maxRetries + 1 - attempt else 0
  {
    if Continues(fn, o, start, now, attempt) {
      var ms, rest := LoopGoesOn(fn, o, start, now, attempt, last);
      LoopMeetsDeadline(fn, o, start, now + fn(attempt).duration + ms, attempt + 1, Some(fn(attempt).outcome.error));
      var t := Loop(fn, o, start, now, attempt, last);
      MeetsDeadlineStep(fn, start + o.timeout.value, attempt, now, ms, rest.starts, rest.sleeps, t.starts, t.sleeps);
    } else {
      LoopStops(fn, o, start, now, attempt, last);
    }
  }

  // ----- the times, call by call -----

  /** The delay after attempt `k`: the initial delay, multiplied by the factor `k` times, but at most
      the cap. `u` lists the uncapped delays. */
  lemma {:induction false} DelayIs(o: Settings, u: seq<real>, k: nat)
    requires k < |u| && u[0] == o.initialDelay && forall i :: 0 <= i < |u| - 1 ==> u[i + 1] == u[i] * o.factor
    ensures Uncapped(o, k) == u[k]
    ensures Delay(o, k) == if u[k] <= o.maxDelay then u[k] else o.maxDelay
  {
    if k == 0 {
    } else {
      DelayIs(o, u, k - 1);
      UncappedStep(o, k - 1);
      assert u[k - 1 + 1] == u[k - 1] * o.factor;
    }
  }

  /** Sleep `k` lasts for the delay of its attempt, but with a timeout not beyond the deadline. */
  ghost predicate SleepIs<T, E>(
    fn: nat -> Call<T, E>, o: Settings, start: real, first: nat, starts: seq<real>, sleeps: seq<real>, k: nat)
    requires k < |starts| && k < |sleeps|
  {
    var delay := Delay(o, first + k);
    if o.timeout.None? then sleeps[k] == delay
    else
      var left := start + o.timeout.value - (starts[k] + fn(first + k).duration);
      sleeps[k] == if delay <= left then delay else left
  }

  ghost predicate TimesAre<T, E>(
    fn: nat -> Call<T, E>, o: Settings, start: real, now: real, first: nat, t: Trace<T, E>)
  {
    var n := |t.starts|;
    && |t.sleeps| <= n <= |t.sleeps| + 1
    && (n > 0 ==> t.starts[0] == now)
    && (forall k :: 0 <= k < n - 1 ==> t.starts[k + 1] == t.starts[k] + fn(first + k).duration + t.sleeps[k])
    && (forall k :: 0 <= k < |t.sleeps| ==> SleepIs(fn, o, start, first, t.starts, t.sleeps, k))
    && t.end == if n == 0 then now
                else t.starts[n - 1] + fn(first + n - 1).duration + if |t.sleeps| == n then t.sleeps[n - 1] else 0.0
  }

  lemma TimesLater<T, E>(
    fn: nat -> Call<T, E>, o: Settings, start: real, now: real, ms: real, first: nat, rest: Trace<T, E>, t: Trace<T, E>)
    requires TimesAre(fn, o, start, now + fn(first).duration + ms, first + 1, rest)
    requires t == Trace(rest.result, [now] + rest.starts, [ms] + rest.sleeps, rest.end)
    requires SleepIs(fn, o, start, first, [now], [ms], 0)
    ensures TimesAre(fn, o, start, now, first, t)
  {
    var n := |t.starts|;
    forall k | 0 <= k < n - 1
      ensures t.starts[k + 1] == t.starts[k] + fn(first + k).duration + t.sleeps[k]
    {
      if k > 0 {
        assert rest.starts[k - 1 + 1] == rest.starts[k - 1] + fn(first + 1 + (k - 1)).duration + rest.sleeps[k - 1];
      }
    }
    forall k | 0 <= k < |t.sleeps|
      ensures SleepIs(fn, o, start, first, t.starts, t.sleeps, k)
    {
      if k > 0 {
        assert SleepIs(fn, o, start, first + 1, rest.starts, rest.sleeps, k - 1);
      }
    }
  }

  lemma LoopNext<T, E>(fn: nat -> Call<T, E>, o: Settings, start: real, now: real, attempt: nat, last: Option<E>)
    returns (ms: real, rest: Trace<T, E>)
    requires Continues(fn, o, start, now, attempt)
    ensures rest == Loop(fn, o, start, now + fn(attempt).duration + ms, attempt + 1, Some(fn(attempt).outcome.error))
    ensures Loop(fn, o, start, now, attempt, last)
         == Trace(rest.result, [now] + rest.starts, [ms] + rest.sleeps, rest.end)
    ensures SleepIs(fn, o, start, attempt, [now], [ms], 0)
  {
    var then_ := now + fn(attempt).duration;
    var delay := Delay(o, attempt);
    ms := if o.timeout.Some? then Min(delay, o.timeout.value - (then_ - start)) else delay;
    rest := Loop(fn, o, start, then_ + ms, attempt + 1, Some(fn(attempt).outcome.error));
  }

  lemma LoopEnds<T, E>(fn: nat -> Call<T, E>, o: Settings, start: real, now: real, attempt: nat, last: Option<E>)
    requires !Continues(fn, o, start, now, attempt)
    ensures TimesAre(fn, o, start, now, attempt, Loop(fn, o, start, now, attempt, last))
    ensures var t := Loop(fn, o, start, now, attempt, last);
            t.result.Err? && attempt + |t.starts| <= o.maxRetries ==> Expired(o, t.end - start)
  {
    var t := Loop(fn, o, start, now, attempt, last);
    assert t.sleeps == [] && (t.starts == [] || t.starts == [now]);
  }

  lemma {:induction false} LoopTimes<T, E>(
    fn: nat -> Call<T, E>, o: Settings, start: real, now: real, attempt: nat, last: Option<E>)
    ensures TimesAre(fn, o, start, now, attempt, Loop(fn, o, start, now, attempt, last))
    ensures var t := Loop(fn, o, start, now, attempt, last);
            t.result.Err? && attempt + |t.starts| <= o.maxRetries ==> Expired(o, t.end - start)
    decreases if attempt <= o.maxRetries then o.maxRetries + 1 - attempt else 0
  {
    if Continues(fn, o, start, now, attempt) {
      var ms, rest := LoopNext(fn, o, start, now, attempt, last);
      var next := now + fn(attempt).duration + ms;
      LoopTimes(fn, o, start, next, attempt + 1, Some(fn(attempt).outcome.error));
      TimesLater(fn, o, start, now, ms, attempt, rest, Loop(fn, o, start, now, attempt, last));
    } else {
      LoopEnds(fn, o, start, now, attempt, last);
    }
  }

  /** Every start, every sleep and the end of a call of the retrier; and unless it succeeds or has made
      all its attempts, it ends at or past the deadline. */
  lemma RetriedTimes<T, E>(fn: nat -> Call<T, E>, o: Settings, start: real)
    ensures TimesAre(fn, o, start, start, 0, Retried(fn, o, start))
    ensures var t := Retried(fn, o, start);
            t.result.Err? && |t.starts| <= o.maxRetries ==> o.timeout.Some? && t.end >= start + o.timeout.value
  {
    LoopTimes(fn, o, start, start, 0, None);
  }

  lemma FiveDelays(o: Settings)
    ensures Delays(o, 0, 5) == [Delay(o, 0), Delay(o, 1), Delay(o, 2), Delay(o, 3), Delay(o, 4)]
  {
    assert Delays(o, 4, 1) == [Delay(o, 4)] + Delays(o, 5, 0);
    assert Delays(o, 3, 2) == [Delay(o, 3)] + Delays(o, 4, 1);
    assert Delays(o, 2, 3) == [Delay(o, 2)] + Delays(o, 3, 2);
    assert Delays(o, 1, 4) == [Delay(o, 1)] + Delays(o, 2, 3);
  }

  lemma DefaultDelay(k: nat)
    requires k <= 5
    ensures Delay(DEFAULTS, k) == [1000.0, 2000.0, 4000.0, 8000.0, 16000.0, 30000.0][k]
  {
    DelayIs(DEFAULTS, [1000.0, 2000.0, 4000.0, 8000.0, 16000.0, 32000.0], k);
  }

  /** The defaults: six calls, and sleeps of one second, doubled each time; a sixth sleep would be
      cut to thirty. */
  lemma DefaultSleeps<T, E>(fn: nat -> Call<T, E>, start: real)
    ensures var t := Retried(fn, DEFAULTS, start);
            t.result.Err? ==> |t.starts| == 6 && t.sleeps == [1000.0, 2000.0, 4000.0, 8000.0, 16000.0]
  {
    ExhaustedSleep(fn, DEFAULTS, start);
    RetriedResult(fn, DEFAULTS, start);
    FiveDelays(DEFAULTS);
    DefaultDelay(0);
    DefaultDelay(1);
    DefaultDelay(2);
    DefaultDelay(3);
    DefaultDelay(4);
  }
}
