/** The retry policy of the label check: how many attempts are made and how long
    the producer sleeps after each failed one. */
module Backoff {

  /** Attempts made before the failure is rethrown (MAX_RETRIES). */
  const MaxRetries: nat := 5

  function Pow2(n: nat): (p: nat)
    ensures p >= 1
  {
    if n == 0 then 1 else 2 * Pow2(n - 1)
  }

  /** Milliseconds slept after the `retries`-th failure: 2^retries * 1000. */
  function BackoffDelay(retries: nat): (ms: nat)
    ensures ms >= 1000
  {
    1000 * Pow2(retries)
  }

  /** The loop rethrows once the failure counter reaches MaxRetries. */
  predicate ShouldGiveUp(retries: nat)
  {
    retries >= MaxRetries
  }

  /** The schedule the policy produces: 2 s, 4 s, 8 s, 16 s (and 32 s, never slept),
      giving up exactly at the fifth failure. */
  lemma BackoffSchedule()
    ensures BackoffDelay(1) == 2000 && BackoffDelay(2) == 4000
    ensures BackoffDelay(3) == 8000 && BackoffDelay(4) == 16000
    ensures BackoffDelay(5) == 32000
    ensures forall r :: 1 <= r < MaxRetries ==> !ShouldGiveUp(r)
    ensures ShouldGiveUp(MaxRetries)
  {
  }
}
