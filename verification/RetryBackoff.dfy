/** The delay before a retry, in the 64-bit nanoseconds the worker computes with. */
module RetryBackoff {

  const LIMIT := 0x8000_0000_0000_0000

  function Pow2(k: nat): nat {
    if k == 0 then 1 else 2 * Pow2(k - 1)
  }

  /** Two's complement: what a 64-bit product keeps of an integer. */
  function Wrap64(x: int): int {
    (x + LIMIT) % (2 * LIMIT) - LIMIT
  }

  function Min(a: int, b: int): int {
    if a <= b then a else b
  }

  /** The power of two as the worker converts it to an int64. What a conversion of
      2^63 and more gives depends on the platform; `huge` stands for it. */
  function Factor(k: nat, huge: int): int {
    if k < 63 then Pow2(k) else huge
  }

  /** `attempt` counts from 1. */
  function Backoff(base: nat, max: nat, attempt: nat, huge: int): int
    requires attempt >= 1
  {
    var product := Wrap64(base * Factor(attempt - 1, huge));
    if product > max then max else product
  }

  predicate Fits(base: nat, attempt: nat)
    requires attempt >= 1
  {
    base * Pow2(attempt - 1) < LIMIT
  }

  lemma {:induction false} Pow2Grows(j: nat, k: nat)
    requires j <= k
    ensures 1 <= Pow2(j) <= Pow2(k)
  {
    if k > 0 {
      if j < k { Pow2Grows(j, k - 1); } else { Pow2Grows(j - 1, k - 1); }
    }
  }

  /** The delay is the doubled base capped at the maximum exactly when the product
      fits, or when what the product wrapped to happens to reach the cap. */
  lemma DelayIsCappedDoublingExactly(base: nat, max: nat, attempt: nat, huge: int)
    requires attempt >= 1 && max < LIMIT
    ensures Backoff(base, max, attempt, huge) == Min(max, base * Pow2(attempt - 1))
      <==> Fits(base, attempt) || Wrap64(base * Factor(attempt - 1, huge)) >= max
  {
    if Fits(base, attempt) {
      FittingDelay(base, max, attempt, huge);
    }
  }

  lemma FittingDelay(base: nat, max: nat, attempt: nat, huge: int)
    requires attempt >= 1 && max < LIMIT && Fits(base, attempt)
    ensures Backoff(base, max, attempt, huge) == Min(max, base * Pow2(attempt - 1))
  {
    Scaled(base, 0, Pow2(attempt - 1));
    WrapKeeps(base * Pow2(attempt - 1));
    if attempt > 63 {
      PowOf63();
      Pow2Grows(63, attempt - 1);
      Scaled(base, LIMIT, Pow2(attempt - 1));
      assert base * LIMIT < LIMIT;
      assert base == 0;
    }
  }

  lemma PowOf63()
    ensures Pow2(63) == LIMIT
  {
    assert Pow2(10) == 1024;
    PowAdds(10, 10);
    PowAdds(20, 10);
    PowAdds(30, 30);
    assert Pow2(63) == 2 * Pow2(62) == 4 * Pow2(61) == 8 * Pow2(60);
  }

  lemma DelayNeverShrinks(base: nat, max: nat, a: nat, b: nat, huge: int)
    requires 1 <= a <= b && max < LIMIT && Fits(base, b)
    ensures Backoff(base, max, a, huge) <= Backoff(base, max, b, huge)
  {
    Pow2Grows(a - 1, b - 1);
    Scaled(base, Pow2(a - 1), Pow2(b - 1));
    FittingDelay(base, max, a, huge);
    FittingDelay(base, max, b, huge);
  }

  lemma Scaled(base: nat, x: nat, y: nat)
    requires x <= y
    ensures 0 <= base * x <= base * y
  {
  }

  lemma WrapKeeps(x: int)
    requires 0 <= x < LIMIT
    ensures Wrap64(x) == x
  {
  }

  /** With the shipped five seconds and fifteen minutes, the thirty-second attempt
      wraps: the retry is due in the past instead of in fifteen minutes. */
  lemma ShippedDelayWraps(huge: int)
    ensures Backoff(5_000_000_000, 900_000_000_000, 31, huge) == 900_000_000_000
    ensures Backoff(5_000_000_000, 900_000_000_000, 32, huge) < 0
  {
    assert Pow2(10) == 1024;
    PowAdds(10, 10);
    PowAdds(20, 10);
    assert Pow2(31) == 2 * Pow2(30);
  }

  lemma {:induction false} PowAdds(j: nat, k: nat)
    ensures Pow2(j + k) == Pow2(j) * Pow2(k)
  {
    if k > 0 {
      PowAdds(j, k - 1);
      assert j + k - 1 == j + (k - 1);
    }
  }
}
