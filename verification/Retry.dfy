/** Retry classification and delays, over exact reals; the jitter and the parsed header are inputs. */
module Retry {
  import opened Prelude

  const MAX_RETRY_DELAY: real := 30.0

  datatype RetryPolicy = RetryPolicy(
    maxRetries: int, baseDelay: real, maxDelay: real, jitter: real)

  predicate ShouldRetryStatus(status: Option<int>) {
    status.Some? && status.value in {429, 500, 502, 503, 504}
  }

  /** The delay-seconds form of a Retry-After header (section 10.2.3 of RFC 9110). */
  function RetryAfterSeconds(header: Option<int>): Option<int> {
    match header
    case None => None
    case Some(v) => Some(Max(v, 0))
  }

  function Pow2(n: nat): real { if n == 0 then 1.0 else 2.0 * Pow2(n - 1) }

  function RealMin(a: real, b: real): real { if a <= b then a else b }

  /** `random` is the draw from [0, 1). */
  function DelayForAttempt(p: RetryPolicy, attempt: int, random: real): real {
    RealMin(p.baseDelay * Pow2(Max(attempt - 1, 0)) + p.jitter * random, p.maxDelay)
  }

  function RetryDelay(p: RetryPolicy, header: Option<int>, attempt: int, random: real): real {
    match RetryAfterSeconds(header)
    case Some(v) => RealMin(v as real, MAX_RETRY_DELAY)
    case None => RealMin(DelayForAttempt(p, attempt, random), MAX_RETRY_DELAY)
  }

  function Ceil(x: real): int { -((-x).Floor) }

  /** Whatever the policy, the header and the jitter, a row is handed back for at most 30 seconds; a
   *  server's Retry-After is honoured exactly up to that cap. */
  lemma RetryDelayCapped(p: RetryPolicy, header: Option<int>, attempt: int, random: real)
    ensures Ceil(RetryDelay(p, header, attempt, random)) <= 30
    ensures header.Some? ==>
      Ceil(RetryDelay(p, header, attempt, random)) == Min(Max(header.value, 0), 30)
  {
    var d := RetryDelay(p, header, attempt, random);
    assert (-d).Floor >= -30;
  }

  lemma {:induction false} Pow2Grows(a: nat, b: nat)
    requires a <= b
    ensures 1.0 <= Pow2(a) <= Pow2(b)
  {
    if b > 0 { Pow2Grows(if a < b then a else a - 1, b - 1); }
  }

  lemma MultiplyLe(c: real, x: real, y: real)
    requires c >= 0.0 && 0.0 <= x <= y
    ensures 0.0 <= c * x <= c * y
  {
    assert c * y == c * x + c * (y - x);
  }

  /** With non-negative settings, delays are never negative, never above the policy's maximum, and
   *  back off: a later attempt waits at least as long for the same jitter draw. */
  lemma BackoffGrows(p: RetryPolicy, a: int, b: int, random: real)
    requires p.baseDelay >= 0.0 && p.jitter >= 0.0 && p.maxDelay >= 0.0 && 0.0 <= random < 1.0
    requires a <= b
    ensures 0.0 <= DelayForAttempt(p, a, random) <= DelayForAttempt(p, b, random) <= p.maxDelay
  {
    Pow2Grows(Max(a - 1, 0), Max(b - 1, 0));
    MultiplyLe(p.baseDelay, Pow2(Max(a - 1, 0)), Pow2(Max(b - 1, 0)));
    MultiplyLe(p.jitter, 0.0, random);
  }

  /** Only these five statuses are worth another try. */
  lemma RetriedStatuses(status: int)
    ensures ShouldRetryStatus(Some(status))
      <==> status == 429 || status == 500 || status == 502 || status == 503 || status == 504
    ensures !ShouldRetryStatus(None)
  {
  }

  /** The first delay is the base plus the jitter, capped. */
  lemma FirstDelay(p: RetryPolicy, attempt: int, random: real)
    requires attempt <= 1
    ensures var d := p.baseDelay + p.jitter * random;
      DelayForAttempt(p, attempt, random) == if d <= p.maxDelay then d else p.maxDelay
  {
    assert p.baseDelay * Pow2(0) == p.baseDelay;
  }

  /** Without jitter each further delay is twice the one before, until the maximum is reached. */
  lemma DelayDoubles(p: RetryPolicy, attempt: int)
    requires attempt >= 1 && p.baseDelay >= 0.0
    ensures var d := 2.0 * DelayForAttempt(p, attempt, 0.0);
      DelayForAttempt(p, attempt, 0.0) < p.maxDelay ==>
        DelayForAttempt(p, attempt + 1, 0.0) == if d <= p.maxDelay then d else p.maxDelay
    ensures DelayForAttempt(p, attempt, 0.0) == p.maxDelay ==> DelayForAttempt(p, attempt + 1, 0.0) == p.maxDelay
  {
    var x := Pow2(attempt - 1);
    assert Pow2(attempt) == 2.0 * x;
    assert p.baseDelay * (2.0 * x) == 2.0 * (p.baseDelay * x);
    Pow2Grows(0, attempt - 1);
    MultiplyLe(p.baseDelay, 0.0, x);
    assert p.jitter * 0.0 == 0.0;
  }

  /** The jitter comes on top, below the maximum. */
  lemma JitterAdds(p: RetryPolicy, attempt: int, random: real)
    requires DelayForAttempt(p, attempt, 0.0) < p.maxDelay
    ensures var d := DelayForAttempt(p, attempt, 0.0) + p.jitter * random;
      DelayForAttempt(p, attempt, random) == if d <= p.maxDelay then d else p.maxDelay
  {
    assert p.jitter * 0.0 == 0.0;
  }

  /** Without a header the delay is the policy's, up to 30 seconds; whole seconds are rounded up. */
  lemma DelayWithoutHeader(p: RetryPolicy, attempt: int, random: real)
    ensures var d := DelayForAttempt(p, attempt, random);
      RetryDelay(p, None, attempt, random) == if d <= 30.0 then d else 30.0
    ensures var d := RetryDelay(p, None, attempt, random);
      (Ceil(d) - 1) as real < d <= Ceil(d) as real
  {
  }
}
