/**
 Retry with exponential backoff (zdrovena/common/retry.py, retry_request). What the server answers to each
 attempt, and where in its range each jitter falls, are inputs. Times are reals.
 */
module Retry {
  import opened Prelude

  /** One attempt: an answer, or a failure with its status (if there was a response at all) and the seconds
      its Retry-After header parses to (section 10.2.3 of RFC 9110). */
  datatype Attempt<T> = Answered(response: T) | Failed(status: Option<int>, retryAfter: Option<real>)

  const RETRYABLE: set<int> := {408, 429, 502, 503, 504}

  /** A position in [0, 1] of the jitter's range. */
  type Unit = u: real | 0.0 <= u <= 1.0 witness 0.0

  function Times(a: real, b: real): real { a * b }

  /** random.uniform(low, high). */
  function Uniform(low: real, high: real, u: Unit): real { low + Times(high - low, u) }

  function Jittered(base: real, u: Unit): real { Uniform(base * 0.8, base * 1.2, u) }

  /** The waiting time before jitter: the current delay, or the server's wish where that is longer. */
  function Wait<T>(a: Attempt<T>, delay: real): real {
    if a.Failed? && a.status.Some? && a.status.value in RETRYABLE && a.retryAfter.Some?
       && a.retryAfter.value > delay
    then a.retryAfter.value
    else delay
  }

  /** The delay after `k` failures. */
  function Delay(initial: real, k: nat): real {
    if k == 0 then initial else 2.0 * Delay(initial, k - 1)
  }

  /** The sleeps between the attempts: the wait after each failure, jittered. */
  ghost predicate SleepsOf<T>(sleeps: seq<real>, initial: real, attempts: seq<Attempt<T>>, jitter: seq<Unit>) {
    && |sleeps| <= |attempts| && |sleeps| <= |jitter|
    && forall i :: 0 <= i < |sleeps| ==> sleeps[i] == Jittered(Wait(attempts[i], Delay(initial, i)), jitter[i])
  }

  /** The loop. With no answer in `max` attempts it gives None, where the source raises. */
  method RetryRequest<T>(max: int, initial: real, attempts: seq<Attempt<T>>, jitter: seq<Unit>)
    returns (result: Option<T>, requests: nat, sleeps: seq<real>)
    requires max <= |attempts| && max <= |jitter|
    ensures result.Some? ==>
              0 < requests <= max && attempts[requests - 1] == Answered(result.value) && |sleeps| == requests - 1
    ensures result.None? ==>
              requests == (if max < 0 then 0 else max) && |sleeps| == (if max < 1 then 0 else max - 1)
    ensures |sleeps| <= requests <= |attempts|
    ensures forall i :: 0 <= i < requests && (result.None? || i < requests - 1) ==> attempts[i].Failed?
    ensures SleepsOf(sleeps, initial, attempts, jitter)
  {
    var delay := initial;
    requests, sleeps := 0, [];
    var attempt := 1;
    while attempt <= max
      invariant requests == attempt - 1 && requests <= (if max < 0 then 0 else max)
      invariant |sleeps| == if requests == 0 || requests < max then requests else requests - 1
      invariant requests < max ==> delay == Delay(initial, requests)
      invariant forall i :: 0 <= i < requests ==> attempts[i].Failed?
      invariant SleepsOf(sleeps, initial, attempts, jitter)
    {
      var a := attempts[attempt - 1];
      requests := requests + 1;
      if a.Answered? {
        return Some(a.response), requests, sleeps;
      }
      if attempt < max {
        sleeps := sleeps + [Jittered(Wait(a, delay), jitter[attempt - 1])];
        delay := delay * 2.0;
      }
      attempt := attempt + 1;
    }
    return None, requests, sleeps;
  }

  // ---- Bounds --------------------------------------------------------------------------------------

  function Total(sleeps: seq<real>): real {
    if sleeps == [] then 0.0 else Total(sleeps[..|sleeps| - 1]) + sleeps[|sleeps| - 1]
  }

  function Power2(k: nat): real { if k == 0 then 1.0 else 2.0 * Power2(k - 1) }

  lemma UniformBound(low: real, high: real, u: Unit)
    requires low <= high
    ensures low <= Uniform(low, high, u) <= high
  {
    TimesWithin(high - low, u);
  }

  lemma TimesWithin(span: real, u: Unit)
    requires span >= 0.0
    ensures 0.0 <= Times(span, u) <= span
  {
    assert span * u + span * (1.0 - u) == span;
    assert span * (1.0 - u) >= 0.0;
  }

  lemma JitterBound(base: real, u: Unit)
    requires base >= 0.0
    ensures base * 0.8 <= Jittered(base, u) <= base * 1.2
  {
    UniformBound(base * 0.8, base * 1.2, u);
  }

  lemma {:induction false} DelayIsPower(initial: real, k: nat)
    requires initial >= 0.0
    ensures Delay(initial, k) == initial * Power2(k) && Delay(initial, k) >= 0.0
  {
    if k > 0 { DelayIsPower(initial, k - 1); }
  }

  /** The failures whose Retry-After is honoured: request timeout, too many requests, bad gateway, service
      unavailable and gateway timeout, with a header that parses. */
  predicate Honoured<T>(a: Attempt<T>) {
    a.Failed? && a.retryAfter.Some?
    && (a.status == Some(408) || a.status == Some(429) || a.status == Some(502) || a.status == Some(503)
        || a.status == Some(504))
  }

  /** Every sleep is within a fifth of the larger of the server's wish, where it is honoured, and the delay
      doubled after each failure; the doubling does not depend on what the server wished. */
  lemma SleepBound<T>(sleeps: seq<real>, initial: real, attempts: seq<Attempt<T>>, jitter: seq<Unit>, i: nat)
    requires SleepsOf(sleeps, initial, attempts, jitter) && initial >= 0.0 && i < |sleeps|
    ensures var delay := initial * Power2(i);
            var wait := if Honoured(attempts[i]) && attempts[i].retryAfter.value > delay
                        then attempts[i].retryAfter.value else delay;
            wait * 0.8 <= sleeps[i] <= wait * 1.2
  {
    DelayIsPower(initial, i);
    JitterBound(Wait(attempts[i], Delay(initial, i)), jitter[i]);
  }

  /** No honoured Retry-After is longer than the delay of its turn. */
  ghost predicate NothingWished<T>(attempts: seq<Attempt<T>>, initial: real, n: nat)
    requires n <= |attempts|
  {
    forall i :: 0 <= i < n && Honoured(attempts[i]) ==> attempts[i].retryAfter.value <= Delay(initial, i)
  }

  /** The sum of the first `k` delays. */
  function Geometric(initial: real, k: nat): real { initial * (Power2(k) - 1.0) }

  lemma GeometricStep(initial: real, k: nat)
    requires initial >= 0.0
    ensures Geometric(initial, k + 1) == Geometric(initial, k) + Delay(initial, k)
  {
    DelayIsPower(initial, k);
    Distribute(initial, Power2(k));
  }

  lemma Distribute(initial: real, p: real)
    ensures initial * (2.0 * p - 1.0) == initial * (p - 1.0) + initial * p
  {
  }

  /** Main result: however the jitter falls, the sleeps of a run that fails throughout come to at least 0.8
      times initial * (2 ^ sleeps - 1), and where no server asked for longer to at most 1.2 times that. */
  lemma {:induction false} TotalBound<T>(sleeps: seq<real>, initial: real, attempts: seq<Attempt<T>>, jitter: seq<Unit>)
    requires SleepsOf(sleeps, initial, attempts, jitter) && initial >= 0.0
    ensures 0.8 * Geometric(initial, |sleeps|) <= Total(sleeps)
    ensures NothingWished(attempts, initial, |sleeps|) ==> Total(sleeps) <= 1.2 * Geometric(initial, |sleeps|)
  {
    if sleeps == [] {
    } else {
      var n := |sleeps| - 1;
      TotalBound(sleeps[..n], initial, attempts, jitter);
      DelayIsPower(initial, n);
      JitterBound(Wait(attempts[n], Delay(initial, n)), jitter[n]);
      GeometricStep(initial, n);
    }
  }

  lemma LargestJitter(base: real)
    ensures Jittered(base, 1.0) == base * 1.2
  {
  }

  /** The upper bound is exact: with every jitter at its largest it is kept if and only if no server asked
      for longer than the current delay. */
  lemma {:induction false} UpperBoundIsExact<T>(
    sleeps: seq<real>, initial: real, attempts: seq<Attempt<T>>, jitter: seq<Unit>)
    requires SleepsOf(sleeps, initial, attempts, jitter) && initial >= 0.0
    requires forall i :: 0 <= i < |sleeps| ==> jitter[i] == 1.0
    ensures Total(sleeps) >= 1.2 * Geometric(initial, |sleeps|)
    ensures Total(sleeps) == 1.2 * Geometric(initial, |sleeps|) <==> NothingWished(attempts, initial, |sleeps|)
  {
    if sleeps == [] {
    } else {
      var n := |sleeps| - 1;
      UpperBoundIsExact(sleeps[..n], initial, attempts, jitter);
      LargestJitter(Wait(attempts[n], Delay(initial, n)));
      GeometricStep(initial, n);
    }
  }
}
