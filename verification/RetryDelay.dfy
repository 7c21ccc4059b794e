/** The backoff before the next attempt: an int64 shift, a cap and a random half. */
module RetryDelay {
  import opened GoInt64

  const DEFAULT_BASE := 100_000_000
  const DEFAULT_MAX_DELAY := 1_000_000_000

  /** Go's `x << k` on int64, one bit at a time. */
  function ShiftLeft(x: int, k: nat): (r: int)
    requires Fits(x)
    ensures Fits(r)
  {
    if k == 0 then x else Wrap(2 * ShiftLeft(x, k - 1))
  }

  function Pow2(k: nat): (r: nat)
    ensures r >= 1
  {
    if k == 0 then 1 else 2 * Pow2(k - 1)
  }

  lemma WrapUnique(x: int, r: int, m: int)
    requires Fits(r) && x - r == m * SPAN
    ensures Wrap(x) == r
  {
    assert x - MIN == m * SPAN + (r - MIN);
    var y := x - MIN;
    assert y / SPAN == m;
  }

  lemma WrapDouble(x: int)
    ensures Wrap(2 * Wrap(x)) == Wrap(2 * x)
  {
    var m := (x - Wrap(x)) / SPAN;
    var w := Wrap(2 * Wrap(x));
    var n := (2 * Wrap(x) - w) / SPAN;
    assert 2 * x - w == (2 * m + n) * SPAN;
    WrapUnique(2 * x, w, 2 * m + n);
  }

  lemma DoubleProduct(x: int, p: int)
    ensures x * (2 * p) == 2 * (x * p)
  {
  }

  /** The shift is the product, wrapped once. */
  lemma {:induction false} ShiftIsProduct(x: int, k: nat)
    requires Fits(x)
    ensures ShiftLeft(x, k) == Wrap(x * Pow2(k))
  {
    if k > 0 {
      ShiftIsProduct(x, k - 1);
      var before := x * Pow2(k - 1);
      WrapDouble(before);
      DoubleProduct(x, Pow2(k - 1));
    } else {
      assert Pow2(k) == 1;
    }
  }

  lemma {:induction false} Pow2Sum(a: nat, b: nat)
    ensures Pow2(a + b) == Pow2(a) * Pow2(b)
  {
    if a > 0 {
      Pow2Sum(a - 1, b);
    }
  }

  lemma Pow2Of64()
    ensures Pow2(64) == SPAN
  {
    assert Pow2(4) == 16;
    Pow2Sum(4, 4);
    assert Pow2(8) == 0x100;
    Pow2Sum(8, 8);
    assert Pow2(16) == 0x1_0000;
    Pow2Sum(16, 16);
    assert Pow2(32) == 0x1_0000_0000;
    Pow2Sum(32, 32);
  }

  lemma Regroup(x: int, n: int, p: int)
    ensures x * (n * p) == (x * p) * n
  {
  }

  /** Sixty-four places or more shift everything out. */
  lemma ShiftedOut(x: int, k: nat)
    requires Fits(x) && k >= 64
    ensures ShiftLeft(x, k) == 0
  {
    ShiftIsProduct(x, k);
    Pow2Sum(64, k - 64);
    Pow2Of64();
    var m := x * Pow2(k - 64);
    Regroup(x, SPAN, Pow2(k - 64));
    WrapUnique(x * Pow2(k), 0, m);
  }

  function Base(baseDelay: int): (r: int)
    ensures r > 0
    ensures baseDelay > 0 ==> r == baseDelay
    ensures baseDelay <= 0 ==> r == 100_000_000
  {
    if baseDelay <= 0 then DEFAULT_BASE else baseDelay
  }

  function Cap(maxDelay: int): (r: int)
    ensures r > 0
    ensures maxDelay > 0 ==> r == maxDelay
    ensures maxDelay <= 0 ==> r == 1_000_000_000
  {
    if maxDelay <= 0 then DEFAULT_MAX_DELAY else maxDelay
  }

  /** The backoff before jitter. */
  function Capped(baseDelay: int, maxDelay: int, attempt: int): int
    requires Fits(baseDelay) && Fits(maxDelay) && attempt >= 1
  {
    var shifted := ShiftLeft(Base(baseDelay), attempt - 1);
    if shifted > Cap(maxDelay) then Cap(maxDelay) else shifted
  }

  /** retryDelay; `draw` stands for the random source, reduced to the range asked of it. */
  function Delay(baseDelay: int, maxDelay: int, attempt: int, draw: nat): (r: int)
    requires Fits(baseDelay) && Fits(maxDelay) && attempt >= 1
    ensures 0 <= r < Cap(maxDelay)
  {
    var delay := Capped(baseDelay, maxDelay, attempt);
    if delay <= 0 then 0 else delay / 2 + draw % delay / 2
  }

  /** Where the doubled base fits an int64, the wait is at least half and less than all of the capped doubling. */
  lemma BackoffRange(baseDelay: int, maxDelay: int, attempt: int, draw: nat)
    requires Fits(baseDelay) && Fits(maxDelay) && attempt >= 1
    requires Fits(Base(baseDelay) * Pow2(attempt - 1))
    ensures var full := Base(baseDelay) * Pow2(attempt - 1);
            var d := if full > Cap(maxDelay) then Cap(maxDelay) else full;
            d / 2 <= Delay(baseDelay, maxDelay, attempt, draw) < d
  {
    ShiftIsProduct(Base(baseDelay), attempt - 1);
    assert Base(baseDelay) * Pow2(attempt - 1) > 0;
  }

  /** The capped doubling is met exactly if the doubled base fits an int64 or its wrapped value reaches the cap. */
  lemma BackoffHoldsIff(baseDelay: int, maxDelay: int, attempt: int)
    requires Fits(baseDelay) && Fits(maxDelay) && attempt >= 1
    ensures var full := Base(baseDelay) * Pow2(attempt - 1);
            Capped(baseDelay, maxDelay, attempt) == (if full > Cap(maxDelay) then Cap(maxDelay) else full)
            <==> Fits(full) || Wrap(full) >= Cap(maxDelay)
  {
    ShiftIsProduct(Base(baseDelay), attempt - 1);
    assert Base(baseDelay) * Pow2(attempt - 1) > 0;
  }

  /** Each wait in the upper half of the capped doubling comes up. */
  lemma EveryWaitComesUp(baseDelay: int, maxDelay: int, attempt: int, wait: int)
    requires Fits(baseDelay) && Fits(maxDelay) && attempt >= 1
    requires var d := Capped(baseDelay, maxDelay, attempt); d > 0 && d / 2 <= wait <= d / 2 + (d - 1) / 2
    ensures exists draw: nat :: Delay(baseDelay, maxDelay, attempt, draw) == wait
  {
    var d := Capped(baseDelay, maxDelay, attempt);
    var draw := HalvedDraw(d, wait);
    assert Delay(baseDelay, maxDelay, attempt, draw) == wait;
  }

  lemma HalvedDraw(d: int, wait: int) returns (draw: nat)
    requires d > 0 && d / 2 <= wait <= d / 2 + (d - 1) / 2
    ensures d / 2 + draw % d / 2 == wait
  {
    var half := wait - d / 2;
    draw := 2 * half;
    SmallRemainder(draw, d);
    assert draw / 2 == half;
  }

  lemma SmallRemainder(x: nat, d: int)
    requires x < d
    ensures x % d == x
  {
  }

  /** Past the sixty-fourth attempt there is no wait at all, whatever the options. */
  lemma LateAttemptsDoNotWait(baseDelay: int, maxDelay: int, attempt: int, draw: nat)
    requires Fits(baseDelay) && Fits(maxDelay) && attempt > 64
    ensures Delay(baseDelay, maxDelay, attempt, draw) == 0
  {
    ShiftedOut(Base(baseDelay), attempt - 1);
  }
}
