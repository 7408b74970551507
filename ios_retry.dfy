/** iOS RetryHelper (RetryHelper.swift): the same bounded attempt loop, with the delays of
    `RetryConfig` computed in seconds as `Double`. Here the delays are whole milliseconds, which
    is exact for every attempt, and the `lastError` variable is kept as a flag. */
module IosRetry {
  import opened AndroidRetry

  /** `RetryConfig`, with the two times in milliseconds (0.5 s and 5.0 s). */
  const ConfigMaxAttempts: int := 3
  const ConfigInitialDelayMs: int := 500
  const ConfigMaxDelayMs: int := 5000
  const ConfigBackoffMultiplier: int := 2

  /** `calculateBackoffDelay`: `min(0.5 * pow(2.0, attempt - 1), 5.0)` seconds. A power of two
      beyond the range of Double is infinity, which the `min` caps as well, so no overflow. */
  function DelayMs(attempt: Attempt): (r: int)
    ensures 0 < r <= ConfigMaxDelayMs
  {
    var exponential := ConfigInitialDelayMs * Pow2(attempt - 1);
    if exponential < ConfigMaxDelayMs then exponential else ConfigMaxDelayMs
  }

  /** Both platforms wait the same: the iOS delay is the Android delay for every attempt. */
  lemma DelayAgreesWithAndroid(attempt: Attempt)
    ensures DelayMs(attempt) == BackoffDelay(attempt)
    ensures DelayMs(1) == 500 && DelayMs(2) == 1000 && DelayMs(3) == 2000
    ensures attempt >= 5 ==> DelayMs(attempt) == ConfigMaxDelayMs
  {
    BackoffDelayValues(attempt);
  }

  /** The default three attempts of an always-failing block: three calls, sleeps of 0.5 s and
      1 s, and false. */
  lemma DefaultAlwaysFailing(block: Attempt -> Outcome)
    requires forall a: Attempt :: block(a) != Succeeded
    ensures RetrySpec(1, ConfigMaxAttempts, block, DelayMs) == Run(false, [1, 2, 3], [500, 1000])
  {
    DelayAgreesWithAndroid(1);
    assert RetrySpec(4, 3, block, DelayMs) == Run(false, [], []);
    assert RetrySpec(3, 3, block, DelayMs) == Run(false, [3], []);
    assert RetrySpec(2, 3, block, DelayMs) == Run(false, [2, 3], [1000]);
  }

  /** Some attempt in `calls` threw. */
  predicate AnyThrew(calls: seq<int>, block: Attempt -> Outcome) {
    if |calls| == 0 then false
    else
      var last := calls[|calls| - 1];
      AnyThrew(calls[..|calls| - 1], block) || (last >= 1 && block(last) == Threw)
  }

  /** One more call threw exactly when it or an earlier one did. */
  lemma AnyThrewSnoc(calls: seq<int>, a: Attempt, block: Attempt -> Outcome)
    ensures AnyThrew(calls + [a], block) == (AnyThrew(calls, block) || block(a) == Threw)
  {
    assert (calls + [a])[..|calls|] == calls;
  }

  /** `withRetry`: the loop of RetryHelper.swift. `hadError` is whether `lastError` was set,
      which decides only the wording of the final log line. */
  method WithRetry(maxAttempts: int, block: Attempt -> Outcome) returns (ok: bool, calls: seq<int>, sleeps: seq<int>, hadError: bool)
    ensures Run(ok, calls, sleeps) == RetrySpec(1, maxAttempts, block, DelayMs)
    ensures hadError == AnyThrew(calls, block)
  {
    var attempt: Attempt := 1;
    var lastError := false;
    calls, sleeps := [], [];
    RunSoFarStart(maxAttempts, block, DelayMs);
    while attempt <= maxAttempts
      invariant attempt <= (if maxAttempts >= 1 then maxAttempts + 1 else 1)
      invariant RunSoFar(attempt, maxAttempts, block, DelayMs, calls, sleeps)
      invariant lastError == AnyThrew(calls, block)
      decreases maxAttempts - attempt
    {
      var outcome := block(attempt);
      AnyThrewSnoc(calls, attempt, block);
      if outcome == Succeeded {
        SucceededAttemptStep(attempt, maxAttempts, block, DelayMs, calls, sleeps);
        return true, calls + [attempt], sleeps, lastError;
      } else if outcome == Threw {
        lastError := true;
      }
      FailedAttemptStep(attempt, maxAttempts, block, DelayMs, calls, sleeps);
      calls := calls + [attempt];
      if attempt < maxAttempts {
        var delayMs := DelayMs(attempt);
        sleeps := sleeps + [delayMs];
      } else {
        assert sleeps + [] == sleeps;
      }
      attempt := attempt + 1;
    }
    ExhaustedStep(attempt, maxAttempts, block, DelayMs, calls, sleeps);
    return false, calls, sleeps, lastError;
  }
}
