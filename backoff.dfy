/**
  FeedMonitor._backoff_delay: exponential backoff with jitter, capped at
  five minutes. The random draw is a parameter `u` standing for
  random.random() in [0, 1); arithmetic is on reals.
*/
module Backoff {

  /** 2 ** e for any integer e (a fraction for negative e, as in Python) */
  function Pow2(e: int): (r: real)
    ensures r > 0.0
    decreases if e >= 0 then e else -e
  {
    if e == 0 then 1.0
    else if e > 0 then 2.0 * Pow2(e - 1)
    else Pow2(e + 1) / 2.0
  }

  function MinInt(a: int, b: int): int {
    if a <= b then a else b
  }

  function MinReal(a: real, b: real): real {
    if a <= b then a else b
  }

  /** The cap on any delay, in seconds */
  const MaxDelay: real := 300.0

  /** base_delay = base_backoff * 2 ** (min(errors, max_retries) - 1) */
  function BackoffBase(errors: int, maxRetries: int, baseBackoff: int): real {
    baseBackoff as real * Pow2(MinInt(errors, maxRetries) - 1)
  }

  /** random.uniform(0, base * 0.5) = 0 + (base * 0.5 - 0) * random.random() */
  function Jitter(base: real, u: real): real {
    base * 0.5 * u
  }

  /** _backoff_delay */
  function BackoffDelay(errors: int, maxRetries: int, baseBackoff: int, u: real): (d: real)
    ensures d <= MaxDelay
  {
    var base := BackoffBase(errors, maxRetries, baseBackoff);
    MinReal(base + Jitter(base, u), MaxDelay)
  }

  /** The jitter adds between 0 and half the base, so the delay lies between
      min(base, 300) and 1.5 * base */
  lemma DelayRange(errors: int, maxRetries: int, baseBackoff: int, u: real)
    requires baseBackoff >= 0 && 0.0 <= u < 1.0
    ensures MinReal(BackoffBase(errors, maxRetries, baseBackoff), MaxDelay)
      <= BackoffDelay(errors, maxRetries, baseBackoff, u)
      <= 1.5 * BackoffBase(errors, maxRetries, baseBackoff)
  {
    var base := BackoffBase(errors, maxRetries, baseBackoff);
    assert base >= 0.0;
    JitterBounds(base, u);
  }

  lemma JitterBounds(base: real, u: real)
    requires base >= 0.0 && 0.0 <= u < 1.0
    ensures 0.0 <= Jitter(base, u) <= base * 0.5
  {
    assert base * 0.5 * u <= base * 0.5 * 1.0;
  }

  lemma {:induction false} Pow2Monotone(a: int, b: int)
    requires a <= b
    ensures Pow2(a) <= Pow2(b)
    decreases b - a
  {
    if a < b {
      Pow2Monotone(a + 1, b);
      Pow2Step(a);
    }
  }

  /** Pow2(a + 1) is twice Pow2(a), for negative exponents too */
  lemma {:induction false} Pow2Step(a: int)
    ensures Pow2(a + 1) == 2.0 * Pow2(a)
    decreases if a >= 0 then a else -a
  {
    if a < -1 {
      Pow2Step(a + 1);
    }
  }

  /** More consecutive errors never shorten the base delay */
  lemma BaseMonotone(e1: int, e2: int, maxRetries: int, baseBackoff: int)
    requires e1 <= e2 && baseBackoff >= 0
    ensures BackoffBase(e1, maxRetries, baseBackoff) <= BackoffBase(e2, maxRetries, baseBackoff)
  {
    var x := Pow2(MinInt(e1, maxRetries) - 1);
    var y := Pow2(MinInt(e2, maxRetries) - 1);
    Pow2Monotone(MinInt(e1, maxRetries) - 1, MinInt(e2, maxRetries) - 1);
    ScaleMonotone(baseBackoff as real, x, y);
  }

  lemma ScaleMonotone(k: real, x: real, y: real)
    requires k >= 0.0 && x <= y
    ensures k * x <= k * y
  {
    assert k * y - k * x == k * (y - x);
  }

  /** From max_retries errors on, the base delay no longer grows */
  lemma BaseConstantAfterMax(errors: int, maxRetries: int, baseBackoff: int)
    requires errors >= maxRetries
    ensures BackoffBase(errors, maxRetries, baseBackoff) == BackoffBase(maxRetries, maxRetries, baseBackoff)
  {
  }

  /** With the default settings (max_retries 5, base_backoff 2) the base
      delays after 1 to 5 errors are 2, 4, 8, 16 and 32 seconds */
  lemma DefaultSchedule(errors: int)
    requires errors >= 5
    ensures BackoffBase(1, 5, 2) == 2.0 && BackoffBase(2, 5, 2) == 4.0
    ensures BackoffBase(3, 5, 2) == 8.0 && BackoffBase(4, 5, 2) == 16.0
    ensures BackoffBase(errors, 5, 2) == 32.0
  {
    assert Pow2(1) == 2.0;
    assert Pow2(2) == 4.0;
    assert Pow2(3) == 8.0;
    assert Pow2(4) == 16.0;
  }
}
