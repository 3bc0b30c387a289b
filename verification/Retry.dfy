/** Retries with two budgets (packages/llm/src/util/retry.ts). What each attempt yields is an arbitrary function of its
    number; sleeping and classification of errors are outside. */
module Retry {
  import opened Wrappers

  /** `retryAfter` is the server's own delay, when it gave one. */
  datatype Attempt =
    | Success(value: int)
    | Fatal
    | Transient(retryAfter: Option<real>)
    | RateLimited(retryAfter: Option<real>)

  datatype Outcome = Returned(value: int) | Threw(attempt: Attempt)

  predicate Retryable(a: Attempt) {
    a.Transient? || a.RateLimited?
  }

  /** Transient failures among the first k attempts. */
  function Transients(tries: nat -> Attempt, k: nat): nat {
    if k == 0 then 0 else Transients(tries, k - 1) + if tries(k - 1).Transient? then 1 else 0
  }

  function RateLimits(tries: nat -> Attempt, k: nat): nat {
    if k == 0 then 0 else RateLimits(tries, k - 1) + if tries(k - 1).RateLimited? then 1 else 0
  }

  predicate Exhausted(tries: nat -> Attempt, k: nat, maxAttempts: int, maxRateLimitAttempts: int) {
    Transients(tries, k) >= maxAttempts || RateLimits(tries, k) >= maxRateLimitAttempts
  }

  /** A delay stretched by a share of its jitter. */
  function Stretched(delay: real, jitter: real, share: real): real {
    delay + delay * jitter * share
  }

  function Backoff(failures: nat, base: real): real {
    base * Pow2(if failures > 10 then 10 else failures) / 2.0
  }

  /** Delay before the next attempt; `draw` is the random number in [0, 1). */
  function Delay(retryAfter: Option<real>, failures: nat, base: real, cap: real, jitter: real, draw: real): (d: real)
    ensures d >= 100.0
  {
    var raw := if retryAfter.Some? then Stretched(retryAfter.value, jitter, draw)
               else Stretched(if Backoff(failures, base) < cap then Backoff(failures, base) else cap, jitter,
                              draw * 2.0 - 1.0);
    if raw > 100.0 then raw else 100.0
  }

  function Pow2(n: nat): real {
    if n == 0 then 1.0 else 2.0 * Pow2(n - 1)
  }

  /** Attempt i failed retryably with both budgets still open. */
  predicate GoesOn(tries: nat -> Attempt, i: nat, maxAttempts: int, maxRateLimitAttempts: int) {
    Retryable(tries(i)) && !Exhausted(tries, i + 1, maxAttempts, maxRateLimitAttempts)
  }

  /** The attempts go on exactly while they fail retryably within both budgets. */
  ghost predicate Runs(tries: nat -> Attempt, attempts: nat, maxAttempts: int, maxRateLimitAttempts: int) {
    && attempts >= 1
    && (forall i :: 0 <= i < attempts - 1 ==> GoesOn(tries, i, maxAttempts, maxRateLimitAttempts))
    && (Retryable(tries(attempts - 1)) ==> Exhausted(tries, attempts, maxAttempts, maxRateLimitAttempts))
  }

  method WithRetry(tries: nat -> Attempt, maxAttempts: int, maxRateLimitAttempts: int)
    returns (outcome: Outcome, attempts: nat)
    ensures Runs(tries, attempts, maxAttempts, maxRateLimitAttempts)
    ensures outcome == if tries(attempts - 1).Success? then Returned(tries(attempts - 1).value)
              else Threw(tries(attempts - 1))
  {
    attempts := 0;
    var nonRateLimitAttempts, rateLimitAttempts := 0, 0;
    while true
      invariant nonRateLimitAttempts == Transients(tries, attempts) && rateLimitAttempts == RateLimits(tries, attempts)
      invariant forall i :: 0 <= i < attempts ==> GoesOn(tries, i, maxAttempts, maxRateLimitAttempts)
      invariant attempts > 0 ==> nonRateLimitAttempts < maxAttempts && rateLimitAttempts < maxRateLimitAttempts
      decreases if attempts == 0 then 1 else 0, maxAttempts - nonRateLimitAttempts +
                  maxRateLimitAttempts - rateLimitAttempts
    {
      var a := tries(attempts);
      attempts := attempts + 1;
      match a {
        case Success(v) => return Returned(v), attempts;
        case Fatal => return Threw(a), attempts;
        case RateLimited(_) => rateLimitAttempts := rateLimitAttempts + 1;
        case Transient(_) => nonRateLimitAttempts := nonRateLimitAttempts + 1;
      }
      if nonRateLimitAttempts >= maxAttempts || rateLimitAttempts >= maxRateLimitAttempts { return Threw(a), attempts; }
    }
  }

  lemma {:induction false} Counted(tries: nat -> Attempt, k: nat)
    requires forall i :: 0 <= i < k ==> Retryable(tries(i))
    ensures Transients(tries, k) + RateLimits(tries, k) == k
  {
    if k > 0 { Counted(tries, k - 1); }
  }

  /** The attempts of one call: at most one less than the two budgets together, when both are at least one. */
  function AttemptBound(maxAttempts: int, maxRateLimitAttempts: int): (b: nat)
    ensures b >= 1
  {
    if maxAttempts < 1 || maxRateLimitAttempts < 1 then 1 else maxAttempts + maxRateLimitAttempts - 1
  }

  /** No call ever makes more attempts. With a budget of 0 it stops at its first failure, although the option's
      comment promises one shared budget. */
  lemma {:induction false} AttemptsBounded(tries: nat -> Attempt, attempts: nat, maxAttempts: int,
                                           maxRateLimitAttempts: int)
    requires Runs(tries, attempts, maxAttempts, maxRateLimitAttempts)
    ensures attempts <= AttemptBound(maxAttempts, maxRateLimitAttempts)
  {
    if attempts > 1 {
      assert GoesOn(tries, attempts - 2, maxAttempts, maxRateLimitAttempts);
      forall i | 0 <= i < attempts - 1 ensures Retryable(tries(i)) {
        assert GoesOn(tries, i, maxAttempts, maxRateLimitAttempts);
      }
      Counted(tries, attempts - 1);
    }
  }

  /** The worst case: all but one of the rate limits, then transient failures. */
  function Worst(maxRateLimitAttempts: int): nat -> Attempt {
    (i: nat) => if i < maxRateLimitAttempts - 1 then RateLimited(None) else Transient(None)
  }

  lemma {:induction false} WorstCounts(maxRateLimitAttempts: int, k: nat)
    requires maxRateLimitAttempts >= 1
    ensures var n := maxRateLimitAttempts - 1;
            RateLimits(Worst(maxRateLimitAttempts), k) == (if k < n then k else n) &&
            Transients(Worst(maxRateLimitAttempts), k) == (if k < n then 0 else k - n)
  {
    if k > 0 { WorstCounts(maxRateLimitAttempts, k - 1); }
  }

  /** ... reaches the bound, for every pair of budgets. */
  lemma {:induction false} BoundReached(maxAttempts: int, maxRateLimitAttempts: int)
    requires maxAttempts >= 1 && maxRateLimitAttempts >= 1
    ensures Runs(Worst(maxRateLimitAttempts), AttemptBound(maxAttempts, maxRateLimitAttempts), maxAttempts,
                 maxRateLimitAttempts)
  {
    var b := AttemptBound(maxAttempts, maxRateLimitAttempts);
    WorstCounts(maxRateLimitAttempts, b);
    forall i | 0 <= i < b - 1 ensures GoesOn(Worst(maxRateLimitAttempts), i, maxAttempts, maxRateLimitAttempts) {
      WorstCounts(maxRateLimitAttempts, i + 1);
    }
  }

  /** A call that ends in success ran out of nothing on the way; one that ends in a retryable failure spent a
      whole budget. */
  lemma {:induction false} WhyItStopped(tries: nat -> Attempt, attempts: nat, maxAttempts: int,
                                        maxRateLimitAttempts: int)
    requires Runs(tries, attempts, maxAttempts, maxRateLimitAttempts) && Retryable(tries(attempts - 1)) &&
             maxAttempts >= 1 && maxRateLimitAttempts >= 1
    ensures Transients(tries, attempts) == maxAttempts || RateLimits(tries, attempts) == maxRateLimitAttempts
  {
    if attempts > 1 {
      assert GoesOn(tries, attempts - 2, maxAttempts, maxRateLimitAttempts);
    } else {
      assert Transients(tries, 0) == 0 && RateLimits(tries, 0) == 0;
    }
  }

  // ---------- Delays ----------

  /** The nominal delay after so many transient failures: half the base, doubled per failure up to ten of them, but
      no more than the cap. */
  function Nominal(failures: nat, base: real, cap: real): real {
    if failures > 10 then Nominal(10, base, cap)
    else
      var d := if failures == 0 then base / 2.0 else 2.0 * Nominal(failures - 1, base, cap);
      if d < cap then d else cap
  }

  lemma {:induction false} Doubled(failures: nat, base: real)
    requires failures <= 10 && base >= 0.0
    ensures Backoff(failures, base) >= 0.0
    ensures Backoff(failures, base) == if failures == 0 then base / 2.0 else 2.0 * Backoff(failures - 1, base)
  {
    if failures == 0 {
      assert Pow2(0) == 1.0;
    } else {
      Doubled(failures - 1, base);
      Twice(base, Pow2(failures - 1));
    }
  }

  lemma {:induction false} Twice(base: real, p: real)
    ensures base * (2.0 * p) / 2.0 == 2.0 * (base * p / 2.0)
  {
  }

  lemma {:induction false} DoublesToCap(failures: nat, base: real, cap: real)
    requires failures <= 10 && base >= 0.0 && cap >= 0.0
    ensures Nominal(failures, base, cap) == if Backoff(failures, base) < cap then Backoff(failures, base) else cap
    ensures Nominal(failures, base, cap) >= 0.0
  {
    hide Backoff;
    Doubled(failures, base);
    if failures > 0 { DoublesToCap(failures - 1, base, cap); }
  }

  lemma {:induction false} StretchedMore(delay: real, jitter: real, share: real, more: real)
    requires delay >= 0.0 && jitter >= 0.0 && share <= more
    ensures Stretched(delay, jitter, share) <= Stretched(delay, jitter, more)
  {
    var dj := delay * jitter;
    assert dj >= 0.0 && dj * (more - share) >= 0.0;
    assert dj * (more - share) == dj * more - dj * share;
  }

  lemma {:induction false} StretchedEnds(delay: real, jitter: real)
    ensures Stretched(delay, jitter, 1.0) == delay + delay * jitter
    ensures Stretched(delay, jitter, 0.0) == delay
    ensures Stretched(delay, jitter, -1.0) == delay - delay * jitter
  {
  }

  /** Without word from the server the delay is the nominal one, give or take its jitter, but never below 100 ms. */
  lemma {:induction false} OwnDelay(failures: nat, base: real, cap: real, jitter: real, draw: real)
    requires base >= 0.0 && cap >= 0.0 && 0.0 <= jitter && 0.0 <= draw < 1.0
    ensures var d, n := Delay(None, failures, base, cap, jitter, draw), Nominal(failures, base, cap);
            n - n * jitter <= d && (d == 100.0 || d <= n + n * jitter)
  {
    hide Stretched, Nominal;
    var k := if failures > 10 then 10 else failures;
    DoublesToCap(k, base, cap);
    PastTen(failures, base, cap);
    var n := Nominal(k, base, cap);
    StretchedMore(n, jitter, -1.0, draw * 2.0 - 1.0);
    StretchedMore(n, jitter, draw * 2.0 - 1.0, 1.0);
    StretchedEnds(n, jitter);
  }

  lemma {:induction false} PastTen(failures: nat, base: real, cap: real)
    ensures failures > 10 ==> Nominal(failures, base, cap) == Nominal(10, base, cap) &&
                              Backoff(failures, base) == Backoff(10, base)
  {
  }

  /** The server's own delay is never cut short, and stretched by no more than the jitter. */
  lemma {:induction false} ServerDelay(after: real, failures: nat, base: real, cap: real, jitter: real, draw: real)
    requires after >= 0.0 && 0.0 <= jitter && 0.0 <= draw < 1.0
    ensures var d := Delay(Some(after), failures, base, cap, jitter, draw);
            after <= d &&
            (d == 100.0 || d <= after + after * jitter)
  {
    hide Stretched;
    StretchedMore(after, jitter, 0.0, draw);
    StretchedMore(after, jitter, draw, 1.0);
    StretchedEnds(after, jitter);
  }
}
