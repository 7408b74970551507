/** Android RetryHelper (RetryHelper.kt with the constants of StateSyncSpec.Retry): a bounded
    attempt loop with capped exponential backoff. The block is a function from the attempt
    number to its outcome; sleeping is recorded as the list of delays in milliseconds. The
    attempt-loop specification is generic in the delay so the iOS helper shares it. */
module AndroidRetry {
  /** What one call of the block does: returns true, returns false, or throws. */
  datatype Outcome = Succeeded | ReturnedFalse | Threw

  /** Attempts are numbered from 1. */
  type Attempt = a: int | a >= 1 witness 1

  const MaxAttempts: int := 3
  const InitialDelayMs: int := 500
  const MaxDelayMs: int := 5000
  const BackoffMultiplier: int := 2

  function Pow2(n: nat): (r: nat)
    ensures r >= 1
  {
    if n == 0 then 1 else 2 * Pow2(n - 1)
  }

  lemma {:induction false} Pow2Add(a: nat, b: nat)
    ensures Pow2(a + b) == Pow2(a) * Pow2(b)
  {
    if a > 0 { Pow2Add(a - 1, b); }
  }

  lemma {:induction false} Pow2Monotone(a: nat, b: nat)
    requires a <= b
    ensures Pow2(a) <= Pow2(b)
  {
    if a < b { Pow2Monotone(a, b - 1); }
  }

  /** The delay after a failed attempt: 500 ms doubled per attempt, capped at 5000 ms. */
  function BackoffDelay(attempt: Attempt): (r: int)
    ensures 0 < r <= MaxDelayMs
  {
    var exponential := InitialDelayMs * Pow2(attempt - 1);
    if exponential < MaxDelayMs then exponential else MaxDelayMs
  }

  /** The first four delays and the cap. */
  lemma BackoffDelayValues(attempt: Attempt)
    ensures BackoffDelay(1) == 500 && BackoffDelay(2) == 1000
    ensures BackoffDelay(3) == 2000 && BackoffDelay(4) == 4000
    ensures attempt >= 5 ==> BackoffDelay(attempt) == MaxDelayMs
  {
    assert Pow2(1) == 2 && Pow2(2) == 4 && Pow2(3) == 8 && Pow2(4) == 16;
    if attempt >= 5 { Pow2Monotone(4, attempt - 1); }
  }

  /** Later attempts never wait less. */
  lemma BackoffDelayMonotone(a: Attempt, b: Attempt)
    requires a <= b
    ensures BackoffDelay(a) <= BackoffDelay(b)
  {
    Pow2Monotone(a - 1, b - 1);
  }

  // ---------------------------------------------------------------------------
  // calculateBackoffDelay as written: `(500L * 2.0.pow(attempt - 1).toLong())` in 64-bit Long
  // arithmetic, then `min` with 5000.

  const LongMax: int := 0x7fff_ffff_ffff_ffff

  /** Two's-complement wrap-around of a 64-bit Long. */
  function WrapLong(x: int): (r: int)
    ensures -LongMax - 1 <= r <= LongMax
    ensures -LongMax - 1 <= x <= LongMax ==> r == x
  {
    var m := x % 0x1_0000_0000_0000_0000;
    if m > LongMax then m - 0x1_0000_0000_0000_0000 else m
  }

  /** Kotlin's `Double.toLong` on a non-negative power of two: exact up to Long.MAX_VALUE,
      saturated above it. */
  function DoubleToLong(x: nat): (r: int)
    ensures 0 <= r <= LongMax && r <= x
  {
    if x > LongMax then LongMax else x
  }

  function BackoffDelayAsWritten(attempt: Attempt): (r: int)
    ensures r <= MaxDelayMs
  {
    var exponential := WrapLong(InitialDelayMs * DoubleToLong(Pow2(attempt - 1)));
    if exponential < MaxDelayMs then exponential else MaxDelayMs
  }

  lemma Pow2Of10()
    ensures Pow2(10) == 1024
  {
    Pow2Add(5, 5);
    assert Pow2(5) == 32;
  }

  lemma Pow2Of20()
    ensures Pow2(20) == 1048576
  {
    Pow2Of10();
    Pow2Add(10, 10);
  }

  lemma Pow2Of40()
    ensures Pow2(40) == 1099511627776
  {
    Pow2Of20();
    Pow2Add(20, 20);
  }

  lemma Pow2Of50()
    ensures Pow2(50) == 1125899906842624
  {
    Pow2Of40();
    Pow2Of10();
    Pow2Add(40, 10);
  }

  lemma Pow2Of54And55()
    ensures Pow2(54) == 18014398509481984
    ensures Pow2(55) == 36028797018963968
  {
    Pow2Of50();
    Pow2Add(50, 4);
    assert Pow2(4) == 16;
  }

  /** Up to attempt 55 the Long product does not overflow and the code computes the intended
      delay. */
  lemma AsWrittenAgreesUpTo55(attempt: Attempt)
    requires attempt <= 55
    ensures BackoffDelayAsWritten(attempt) == BackoffDelay(attempt)
  {
    Pow2Monotone(attempt - 1, 54);
    Pow2Of54And55();
  }

  /** At attempt 56 the product 500 * 2^55 wraps to a negative Long, so `min` picks it and
      `Thread.sleep` would be given a negative delay (an IllegalArgumentException raised outside
      the loop's try). A `withRetry` call needs `maxAttempts >= 57` to reach it. */
  lemma AsWrittenNegativeAt56()
    ensures BackoffDelayAsWritten(56) < 0
    ensures BackoffDelay(56) == MaxDelayMs
  {
    Pow2Of54And55();
    assert WrapLong(InitialDelayMs * 36028797018963968) == -432345564227567616;
  }

  // ---------------------------------------------------------------------------
  // withRetry.

  /** What a run did: the result, the attempt numbers passed to the block, and the sleeps. */
  datatype Run = Run(ok: bool, calls: seq<int>, sleeps: seq<int>)

  /** The run of the attempt loop from `attempt` on: a success returns at once; any other
      outcome sleeps (unless it was the last attempt) and moves to the next attempt. */
  function RetrySpec(attempt: Attempt, maxAttempts: int, block: Attempt -> Outcome, delay: Attempt -> int): Run
    decreases maxAttempts - attempt
  {
    if attempt > maxAttempts then Run(false, [], [])
    else if block(attempt) == Succeeded then Run(true, [attempt], [])
    else
      var rest := RetrySpec(attempt + 1, maxAttempts, block, delay);
      var pause := if attempt < maxAttempts then [delay(attempt)] else [];
      Run(rest.ok, [attempt] + rest.calls, pause + rest.sleeps)
  }

  /** The block is called with consecutive attempt numbers, never more than allowed; true is
      returned iff some allowed attempt succeeds, and then the last call was the first success;
      false is returned only after every allowed attempt failed. */
  lemma {:induction false} RetryCalls(attempt: Attempt, maxAttempts: int, block: Attempt -> Outcome, delay: Attempt -> int)
    ensures var run := RetrySpec(attempt, maxAttempts, block, delay);
            && |run.calls| <= (if maxAttempts >= attempt then maxAttempts - attempt + 1 else 0)
            && (forall i :: 0 <= i < |run.calls| ==> run.calls[i] == attempt + i)
            && (run.ok <==> exists a: Attempt :: attempt <= a <= maxAttempts && block(a) == Succeeded)
            && (run.ok ==> |run.calls| > 0 && block(run.calls[|run.calls| - 1]) == Succeeded)
            && (forall i :: 0 <= i < |run.calls| - 1 ==> block(run.calls[i]) != Succeeded)
            && (!run.ok ==> |run.calls| == (if maxAttempts >= attempt then maxAttempts - attempt + 1 else 0))
    decreases maxAttempts - attempt
  {
    if attempt <= maxAttempts && block(attempt) != Succeeded {
      RetryCalls(attempt + 1, maxAttempts, block, delay);
      var rest := RetrySpec(attempt + 1, maxAttempts, block, delay);
      var run := RetrySpec(attempt, maxAttempts, block, delay);
      assert run.calls == [attempt] + rest.calls;
      forall i | 1 <= i < |run.calls| ensures run.calls[i] == attempt + i {
        assert run.calls[i] == rest.calls[i - 1];
      }
      if rest.ok {
        assert run.calls[|run.calls| - 1] == rest.calls[|rest.calls| - 1];
      }
      forall i | 1 <= i < |run.calls| - 1 ensures block(run.calls[i]) != Succeeded {
        assert run.calls[i] == rest.calls[i - 1];
      }
      if exists a: Attempt :: attempt <= a <= maxAttempts && block(a) == Succeeded {
        var a: Attempt :| attempt <= a <= maxAttempts && block(a) == Succeeded;
        assert a != attempt;
      }
    }
  }

  /** One sleep between consecutive calls and none after the last: the i-th sleep is the delay
      of the i-th attempt. */
  lemma {:induction false} RetrySleeps(attempt: Attempt, maxAttempts: int, block: Attempt -> Outcome, delay: Attempt -> int)
    ensures var run := RetrySpec(attempt, maxAttempts, block, delay);
            && |run.sleeps| == (if |run.calls| == 0 then 0 else |run.calls| - 1)
            && forall i :: 0 <= i < |run.sleeps| ==> run.sleeps[i] == delay(attempt + i)
    decreases maxAttempts - attempt
  {
    if attempt <= maxAttempts && block(attempt) != Succeeded {
      RetrySleeps(attempt + 1, maxAttempts, block, delay);
      var rest := RetrySpec(attempt + 1, maxAttempts, block, delay);
      var run := RetrySpec(attempt, maxAttempts, block, delay);
      if attempt < maxAttempts {
        assert rest.calls != [] by {
          if block(attempt + 1) != Succeeded {
            assert rest.calls == [attempt + 1] + RetrySpec(attempt + 2, maxAttempts, block, delay).calls;
          }
        }
        forall i | 1 <= i < |run.sleeps| ensures run.sleeps[i] == delay(attempt + i) {
          assert run.sleeps[i] == rest.sleeps[i - 1];
        }
      }
    }
  }

  /** A throw and a false return are the same to the loop: each uses up one attempt. */
  lemma {:induction false} ThrowIsLikeFalse(attempt: Attempt, maxAttempts: int, b1: Attempt -> Outcome, b2: Attempt -> Outcome, delay: Attempt -> int)
    requires forall a: Attempt :: (b1(a) == Succeeded) == (b2(a) == Succeeded)
    ensures RetrySpec(attempt, maxAttempts, b1, delay) == RetrySpec(attempt, maxAttempts, b2, delay)
    decreases maxAttempts - attempt
  {
    if attempt <= maxAttempts {
      ThrowIsLikeFalse(attempt + 1, maxAttempts, b1, b2, delay);
    }
  }

  /** With the default three attempts, a block that always fails is called three times and
      the loop sleeps 500 ms and 1000 ms. */
  lemma DefaultAlwaysFailing(block: Attempt -> Outcome)
    requires forall a: Attempt :: block(a) != Succeeded
    ensures RetrySpec(1, MaxAttempts, block, BackoffDelay) == Run(false, [1, 2, 3], [500, 1000])
  {
    BackoffDelayValues(1);
    assert RetrySpec(4, 3, block, BackoffDelay) == Run(false, [], []);
    assert RetrySpec(3, 3, block, BackoffDelay) == Run(false, [3], []);
    assert RetrySpec(2, 3, block, BackoffDelay) == Run(false, [2, 3], [1000]);
  }

  /** The loop's run equation: what is already recorded, followed by the run from `attempt`
      on, is the whole run. */
  predicate RunSoFar(attempt: Attempt, maxAttempts: int, block: Attempt -> Outcome, delay: Attempt -> int,
                     calls: seq<int>, sleeps: seq<int>) {
    var rest := RetrySpec(attempt, maxAttempts, block, delay);
    RetrySpec(1, maxAttempts, block, delay) == Run(rest.ok, calls + rest.calls, sleeps + rest.sleeps)
  }

  /** Before the first attempt nothing is recorded. */
  lemma RunSoFarStart(maxAttempts: int, block: Attempt -> Outcome, delay: Attempt -> int)
    ensures RunSoFar(1, maxAttempts, block, delay, [], [])
  {
    var rest := RetrySpec(1, maxAttempts, block, delay);
    assert [] + rest.calls == rest.calls && [] + rest.sleeps == rest.sleeps;
  }

  /** One failed attempt keeps the run equation: the attempt joins the calls and its pause,
      unless it was the last attempt, joins the sleeps. */
  lemma FailedAttemptStep(attempt: Attempt, maxAttempts: int, block: Attempt -> Outcome, delay: Attempt -> int,
                          calls: seq<int>, sleeps: seq<int>)
    requires attempt <= maxAttempts && block(attempt) != Succeeded
    requires RunSoFar(attempt, maxAttempts, block, delay, calls, sleeps)
    ensures RunSoFar(attempt + 1, maxAttempts, block, delay, calls + [attempt],
                     sleeps + if attempt < maxAttempts then [delay(attempt)] else [])
  {
    var rest := RetrySpec(attempt + 1, maxAttempts, block, delay);
    var pause := if attempt < maxAttempts then [delay(attempt)] else [];
    assert calls + ([attempt] + rest.calls) == (calls + [attempt]) + rest.calls;
    assert sleeps + (pause + rest.sleeps) == (sleeps + pause) + rest.sleeps;
  }

  /** A successful attempt ends the run: it is the last call and no sleep follows. */
  lemma SucceededAttemptStep(attempt: Attempt, maxAttempts: int, block: Attempt -> Outcome, delay: Attempt -> int,
                             calls: seq<int>, sleeps: seq<int>)
    requires attempt <= maxAttempts && block(attempt) == Succeeded
    requires RunSoFar(attempt, maxAttempts, block, delay, calls, sleeps)
    ensures Run(true, calls + [attempt], sleeps) == RetrySpec(1, maxAttempts, block, delay)
  {
    assert sleeps + [] == sleeps;
  }

  /** Past the last attempt nothing is left: the run failed with what is recorded. */
  lemma ExhaustedStep(attempt: Attempt, maxAttempts: int, block: Attempt -> Outcome, delay: Attempt -> int,
                      calls: seq<int>, sleeps: seq<int>)
    requires attempt > maxAttempts
    requires RunSoFar(attempt, maxAttempts, block, delay, calls, sleeps)
    ensures Run(false, calls, sleeps) == RetrySpec(1, maxAttempts, block, delay)
  {
    assert calls + [] == calls && sleeps + [] == sleeps;
  }

  /** `withRetry`: the loop as written, with the corrected delay. */
  method WithRetry(maxAttempts: int, block: Attempt -> Outcome) returns (ok: bool, calls: seq<int>, sleeps: seq<int>)
    ensures Run(ok, calls, sleeps) == RetrySpec(1, maxAttempts, block, BackoffDelay)
  {
    var attempt: Attempt := 1;
    calls, sleeps := [], [];
    RunSoFarStart(maxAttempts, block, BackoffDelay);
    while attempt <= maxAttempts
      invariant attempt <= (if maxAttempts >= 1 then maxAttempts + 1 else 1)
      invariant RunSoFar(attempt, maxAttempts, block, BackoffDelay, calls, sleeps)
      decreases maxAttempts - attempt
    {
      var outcome := block(attempt);
      if outcome == Succeeded {
        SucceededAttemptStep(attempt, maxAttempts, block, BackoffDelay, calls, sleeps);
        return true, calls + [attempt], sleeps;
      }
      FailedAttemptStep(attempt, maxAttempts, block, BackoffDelay, calls, sleeps);
      calls := calls + [attempt];
      if attempt < maxAttempts {
        var delayMs := BackoffDelay(attempt);
        sleeps := sleeps + [delayMs];
      } else {
        assert sleeps + [] == sleeps;
      }
      attempt := attempt + 1;
    }
    ExhaustedStep(attempt, maxAttempts, block, BackoffDelay, calls, sleeps);
    return false, calls, sleeps;
  }
}
