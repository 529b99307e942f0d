/**
 Exponential backoff and the retry loop built on it. Durations are reals; the
 random draw behind each jitter and the outcome of each attempt are inputs.
 */
module Backoff {
  import opened TaskModel

  datatype Error = WaitTimeout | Failure(id: int)

  /** The share of a duration that jitter may add: all of it for a factor of zero or less. */
  function Share(maxFactor: real): real {
    if maxFactor <= 0.0 then 1.0 else maxFactor
  }

  /** A duration plus a random part of its share. */
  function Jitter(duration: real, maxFactor: real, draw: real): real {
    duration + draw * (Share(maxFactor) * duration)
  }

  /** The duration after `i` growth steps, with nothing to stop them. */
  function Base(duration: real, factor: real, i: nat): real {
    if i == 0 || factor == 0.0 then duration else Base(duration, factor, i - 1) * factor
  }

  function SumOfBases(duration: real, factor: real, n: nat): real {
    if n == 0 then 0.0 else SumOfBases(duration, factor, n - 1) + Base(duration, factor, n - 1)
  }

  /** The first `k` growth steps stay within the cap. */
  ghost predicate WithinCap(duration: real, factor: real, cap: real, k: nat) {
    cap <= 0.0 || factor == 0.0 || forall i: nat :: 0 < i <= k ==> Base(duration, factor, i) <= cap
  }

  /** How many of `taken` calls may have grown the duration. */
  function Growths(allowed: int, taken: nat): nat {
    if allowed <= 0 then 0 else if taken < allowed then taken else allowed
  }

  /**
   A backoff object. `start` and `allowed` are its initial duration and steps,
   `taken` counts the calls of `Step`.
   */
  class Backoff {
    var duration: real
    var steps: int
    const factor: real
    const jitter: real
    const cap: real
    ghost const start: real
    ghost const allowed: int
    ghost var taken: nat

    /**
     The duration is the initial one times a power of the factor, one power for
     each call that was allowed to grow it, until it stays at the cap.
     */
    ghost predicate Valid()
      reads this
    {
      var grown := Growths(allowed, taken);
      if WithinCap(start, factor, cap, grown) then
        && duration == Base(start, factor, grown)
        && steps == if taken == 0 || taken < allowed then allowed - taken else 0
      else
        duration == cap && steps == 0
    }

    constructor (duration: real, factor: real, jitter: real, steps: int, cap: real)
      ensures Valid() && start == duration && allowed == steps && taken == 0
      ensures this.factor == factor && this.jitter == jitter && this.cap == cap
    {
      this.duration, this.factor, this.jitter, this.steps, this.cap := duration, factor, jitter, steps, cap;
      start, allowed, taken := duration, steps, 0;
    }

    /** Sleeps for the current duration and its jitter, and moves on to the next power. */
    method Step(draw: real) returns (sleep: real)
      requires Valid()
      modifies this
      ensures Valid() && taken == old(taken) + 1
      ensures sleep == if jitter > 0.0 then Jitter(old(duration), jitter, draw) else old(duration)
      ensures start >= 0.0 && factor >= 0.0 && 0.0 <= draw < 1.0 ==>
                0.0 <= old(duration) <= sleep <= Stretched(old(duration), jitter)
    {
      if start >= 0.0 && factor >= 0.0 && 0.0 <= draw < 1.0 {
        BaseIsPositive(start, factor, Growths(allowed, taken));
        SleepBounds(duration, jitter, draw);
      }
      sleep := if jitter > 0.0 then Jitter(duration, jitter, draw) else duration;
      taken := taken + 1;
      if steps < 1 {
        steps := 0;
        return;
      }
      steps := steps - 1;
      if factor != 0.0 {
        duration := duration * factor;
        assert duration == Base(start, factor, taken);
        if cap > 0.0 && duration > cap {
          duration := cap;
          steps := 0;
        }
      }
    }
  }

  /** The attempt failed, and with an error worth retrying. */
  predicate Retries(retriable: Error -> bool, result: Option<Error>) {
    result.Some? && retriable(result.value)
  }

  lemma {:induction false} BaseIsPositive(duration: real, factor: real, i: nat)
    requires duration >= 0.0 && factor >= 0.0
    ensures Base(duration, factor, i) >= 0.0
  {
    if i > 0 {
      BaseIsPositive(duration, factor, i - 1);
    }
  }

  /** Durations grow by the factor each time; a factor of zero keeps them. */
  lemma {:induction false} BaseGrows(duration: real, factor: real, i: nat)
    ensures Base(duration, factor, 0) == duration
    ensures factor != 0.0 ==> Base(duration, factor, i + 1) == Base(duration, factor, i) * factor
    ensures factor != 0.0 ==> Base(duration, factor, 1) == duration * factor
    ensures factor == 0.0 ==> Base(duration, factor, i) == duration
  {
  }

  /** A longer start makes every later duration longer in the same proportion. */
  lemma {:induction false} BaseScales(duration: real, factor: real, scale: real, i: nat)
    ensures Base(scale * duration, factor, i) == scale * Base(duration, factor, i)
  {
    if i > 0 && factor != 0.0 {
      BaseScales(duration, factor, scale, i - 1);
      Regroup(scale, Base(duration, factor, i - 1), factor);
    }
  }

  lemma Regroup(a: real, b: real, c: real)
    ensures (a * b) * c == a * (b * c)
  {
  }

  /** The longest a jittered duration can get. */
  function Stretched(duration: real, jitter: real): real {
    if jitter > 0.0 then duration + jitter * duration else duration
  }

  function SumOfStretched(duration: real, factor: real, jitter: real, n: nat): real {
    if n == 0 then 0.0
    else SumOfStretched(duration, factor, jitter, n - 1) + Stretched(Base(duration, factor, n - 1), jitter)
  }

  /** Jitter stretches a total by the same share as each part. */
  lemma {:induction false} TotalStretch(duration: real, factor: real, jitter: real, n: nat)
    ensures SumOfStretched(duration, factor, jitter, n) == Stretched(SumOfBases(duration, factor, n), jitter)
  {
    if n > 0 {
      TotalStretch(duration, factor, jitter, n - 1);
      StretchAdds(SumOfBases(duration, factor, n - 1), Base(duration, factor, n - 1), jitter);
    }
  }

  lemma StretchAdds(a: real, b: real, jitter: real)
    ensures Stretched(a + b, jitter) == Stretched(a, jitter) + Stretched(b, jitter)
  {
    Distribute(jitter, a, b);
  }

  lemma Distribute(k: real, a: real, b: real)
    ensures k * (a + b) == k * a + k * b
  {
  }

  lemma ShareBounds(draw: real, whole: real)
    requires whole >= 0.0 && 0.0 <= draw < 1.0
    ensures 0.0 <= draw * whole <= whole
  {
  }

  lemma ProductIsNonNegative(a: real, b: real)
    requires a >= 0.0 && b >= 0.0
    ensures a * b >= 0.0
  {
  }

  /** What jitter adds lies between nothing and its share, a share of one for a factor of zero or less. */
  lemma JitterBounds(duration: real, maxFactor: real, draw: real)
    requires duration >= 0.0 && 0.0 <= draw < 1.0
    ensures duration <= Jitter(duration, maxFactor, draw) <= duration + Share(maxFactor) * duration
  {
    var whole := Share(maxFactor) * duration;
    ProductIsNonNegative(Share(maxFactor), duration);
    ShareBounds(draw, whole);
    assert Jitter(duration, maxFactor, draw) == duration + draw * whole;
  }

  /** And every amount in that range can be drawn, nothing else. */
  lemma JitterRange(duration: real, maxFactor: real, sleep: real)
    requires duration > 0.0
    ensures (exists draw :: 0.0 <= draw < 1.0 && Jitter(duration, maxFactor, draw) == sleep)
            <==> duration <= sleep < duration + (if maxFactor <= 0.0 then duration else maxFactor * duration)
  {
    var whole := Share(maxFactor) * duration;
    assert whole == if maxFactor <= 0.0 then duration else maxFactor * duration;
    PositiveProduct(Share(maxFactor), duration);
    if duration <= sleep < duration + whole {
      var draw := DrawFor(whole, sleep - duration);
      assert Jitter(duration, maxFactor, draw) == sleep;
    }
    forall draw | 0.0 <= draw < 1.0 && Jitter(duration, maxFactor, draw) == sleep
      ensures duration <= sleep < duration + whole
    {
      DrawnSleep(duration, maxFactor, draw, whole);
    }
  }

  lemma DrawnSleep(duration: real, maxFactor: real, draw: real, whole: real)
    requires whole == Share(maxFactor) * duration && whole > 0.0 && 0.0 <= draw < 1.0
    ensures duration <= Jitter(duration, maxFactor, draw) < duration + whole
  {
    StrictPart(draw, whole);
    assert Jitter(duration, maxFactor, draw) == duration + draw * whole;
  }

  lemma DrawFor(whole: real, part: real) returns (draw: real)
    requires 0.0 <= part < whole
    ensures 0.0 <= draw < 1.0 && draw * whole == part
  {
    draw := part / whole;
    assert draw * whole == part;
  }

  lemma PositiveProduct(a: real, b: real)
    requires a > 0.0 && b > 0.0
    ensures a * b > 0.0
  {
  }

  lemma StrictPart(draw: real, whole: real)
    requires whole > 0.0 && 0.0 <= draw < 1.0
    ensures 0.0 <= draw * whole < whole
  {
    PositiveProduct(1.0 - draw, whole);
    Distribute(whole, 1.0, -draw);
  }

  lemma SleepBounds(duration: real, jitter: real, draw: real)
    requires duration >= 0.0 && 0.0 <= draw < 1.0
    ensures duration <= (if jitter > 0.0 then Jitter(duration, jitter, draw) else duration) <= Stretched(duration, jitter)
  {
    JitterBounds(duration, jitter, draw);
  }

  /** A total sleep over `k` intervals, each stretched by at most the jitter. */
  ghost predicate SleptFor(slept: real, duration: real, factor: real, jitter: real, k: nat) {
    SumOfBases(duration, factor, k) <= slept <= SumOfStretched(duration, factor, jitter, k)
  }

  /**
   `OnError`: runs `fn` until it succeeds, fails for good, or the steps are used
   up. `attempts` counts the calls, `slept` adds up the sleeps between them.
   Growing past the cap uses up the steps: one more sleep, and no attempt.
   */
  method OnError(duration: real, factor: real, jitter: real, steps: int, cap: real,
                 retriable: Error -> bool, fn: nat -> Option<Error>, draw: nat -> real)
    returns (err: Option<Error>, attempts: nat, slept: real)
    requires duration >= 0.0 && factor >= 0.0
    requires forall i: nat :: 0.0 <= draw(i) < 1.0
    // how often
    ensures attempts <= (if steps > 0 then steps else 0)
    ensures steps > 0 ==> attempts > 0 && WithinCap(duration, factor, cap, attempts - 1)
    ensures forall i: nat :: i + 1 < attempts ==> Retries(retriable, fn(i))
    ensures attempts > 0 && Retries(retriable, fn(attempts - 1)) ==>
              attempts == steps || !WithinCap(duration, factor, cap, attempts)
    // with which answer
    ensures attempts > 0 && Retries(retriable, fn(attempts - 1)) ==> err == fn(attempts - 1)
    ensures attempts > 0 && !Retries(retriable, fn(attempts - 1)) ==>
              err == if fn(attempts - 1) != Some(WaitTimeout) then fn(attempts - 1)
                     else if attempts == 1 then None else fn(attempts - 2)
    // nil means that some attempt succeeded, but for two exceptions
    ensures err == None <==>
              || (exists i: nat :: i < attempts && fn(i) == None)
              || steps <= 0
              || (fn(0) == Some(WaitTimeout) && !retriable(WaitTimeout))
    // how long
    ensures attempts > 0 && Retries(retriable, fn(attempts - 1)) && attempts < steps ==>
              SleptFor(slept, duration, factor, jitter, attempts)
    ensures attempts > 0 && !(Retries(retriable, fn(attempts - 1)) && attempts < steps) ==>
              SleptFor(slept, duration, factor, jitter, attempts - 1)
  {
    var backoff := new Backoff(duration, factor, jitter, steps, cap);
    var lastErr: Option<Error> := None;
    attempts, slept := 0, 0.0;
    while backoff.steps > 0
      invariant backoff.Valid() && backoff.taken == attempts
      invariant backoff.start == duration && backoff.allowed == steps
      invariant backoff.factor == factor && backoff.jitter == jitter && backoff.cap == cap
      invariant attempts > 0 ==> attempts < steps && WithinCap(duration, factor, cap, attempts - 1)
      invariant forall i: nat :: i < attempts ==> Retries(retriable, fn(i))
      invariant lastErr == if attempts == 0 then None else fn(attempts - 1)
      invariant SleptFor(slept, duration, factor, jitter, attempts)
      decreases backoff.steps
    {
      assert WithinCap(duration, factor, cap, attempts) && backoff.duration == Base(duration, factor, attempts);
      var result := fn(attempts);
      attempts := attempts + 1;
      if result == None {
        return None, attempts, slept;
      }
      if !retriable(result.value) {
        // A failure that looks like the loop's own timeout is replaced by the last retried error.
        err := if result.value == WaitTimeout then lastErr else result;
        return err, attempts, slept;
      }
      lastErr := result;
      if backoff.steps == 1 {
        break;
      }
      var sleep := backoff.Step(draw(attempts - 1));
      slept := slept + sleep;
    }
    err := lastErr;
  }
}
