/** Bounded retry with exponential backoff (`retry_sync` in src/reliability/retry.rs), in exact arithmetic. */
module Retry {
  import opened Integers
  import opened Wrappers

  /** Durations are seconds; the jitter field is not read by `retry_sync`. */
  datatype RetryConfig = RetryConfig(maxRetries: u32, initialDelay: real, maxDelay: real, factor: real)

  predicate ValidConfig(c: RetryConfig) {
    c.initialDelay >= 0.0 && c.maxDelay >= 0.0 && c.factor >= 0.0
  }

  function Min(a: real, b: real): real {
    if a <= b then a else b
  }

  /** The uncapped backoff step. */
  function Scale(factor: real): real -> real {
    (delay: real) => delay * factor
  }

  function Iterate(g: real -> real, a: real, n: nat): real {
    if n == 0 then a else g(Iterate(g, a, n - 1))
  }

  function CappedIterate(g: real -> real, cap: real, a: real, n: nat): real {
    if n == 0 then a else Min(g(CappedIterate(g, cap, a, n - 1)), cap)
  }

  /** `initial` times the n-th power of `factor`. */
  function Geometric(initial: real, factor: real, n: nat): real {
    Iterate(Scale(factor), initial, n)
  }

  /** The delay after `k` rounds of the recurrence in the loop. */
  function Delay(c: RetryConfig, k: nat): real {
    CappedIterate(Scale(c.factor), c.maxDelay, c.initialDelay, k)
  }

  /**
   The loop.  `operation(i)` is the outcome of its i-th call and `isTransient` the error
   classification; both are arbitrary.  Besides the result, the number of attempts and the
   sleeps between them are returned.
   */
  method RetrySync<T, E>(c: RetryConfig, operation: nat -> Result<T, E>, isTransient: E -> bool)
    returns (result: Result<T, E>, attempts: nat, sleeps: seq<real>)
    ensures 1 <= attempts <= c.maxRetries + 1
    ensures result == operation(attempts - 1)
    ensures forall i :: 0 <= i < attempts - 1 ==> operation(i).Err? && isTransient(operation(i).error)
    ensures attempts == c.maxRetries + 1 || result.Ok? || !isTransient(result.error)
    ensures |sleeps| == attempts - 1
    ensures forall k :: 0 <= k < |sleeps| ==> sleeps[k] == Delay(c, k)
  {
    var attempt: u32 := 0;
    var delay := c.initialDelay;
    attempts, sleeps := 0, [];
    while true
      invariant attempt <= c.maxRetries
      invariant attempts == attempt == |sleeps|
      invariant delay == Delay(c, attempt)
      invariant forall i :: 0 <= i < attempts ==> operation(i).Err? && isTransient(operation(i).error)
      invariant forall k :: 0 <= k < |sleeps| ==> sleeps[k] == Delay(c, k)
      decreases c.maxRetries - attempt
    {
      result := operation(attempts);
      attempts := attempts + 1;
      match result
      case Ok(_) =>
        return;
      case Err(e) =>
        if !isTransient(e) {
          return;
        }
        if attempt >= c.maxRetries {
          return;
        }
        sleeps := sleeps + [delay];
        attempt := attempt + 1;
        delay := Min(delay * c.factor, c.maxDelay);
    }
  }

  // ---- Capped iteration of any step ----

  ghost predicate Monotone(g: real -> real) {
    forall a, b :: 0.0 <= a <= b ==> 0.0 <= g(a) <= g(b)
  }

  ghost predicate Grows(g: real -> real) {
    forall a :: 0.0 <= a ==> a <= g(a)
  }

  ghost predicate Shrinks(g: real -> real) {
    forall a :: 0.0 <= a ==> g(a) <= a
  }

  lemma {:induction false} IterateBounds(g: real -> real, a: real, n: nat)
    requires Monotone(g) && a >= 0.0
    ensures Iterate(g, a, n) >= 0.0
    ensures Shrinks(g) ==> Iterate(g, a, n) <= a
  {
    if n > 0 {
      IterateBounds(g, a, n - 1);
    }
  }

  lemma {:induction false} IterateShift(g: real -> real, a: real, n: nat)
    ensures Iterate(g, g(a), n) == Iterate(g, a, n + 1)
  {
    if n > 0 {
      IterateShift(g, a, n - 1);
    } else {
      assert Iterate(g, a, 0) == a;
    }
  }

  /** A growing step may be capped every round or once at the end. */
  lemma {:induction false} CapOnceAtTheEnd(g: real -> real, cap: real, a: real, n: nat)
    requires Monotone(g) && Grows(g) && a >= 0.0 && cap >= 0.0 && n >= 1
    ensures CappedIterate(g, cap, a, n) == Min(Iterate(g, a, n), cap)
  {
    if n == 1 {
      assert CappedIterate(g, cap, a, 0) == Iterate(g, a, 0) == a;
    } else {
      CapOnceAtTheEnd(g, cap, a, n - 1);
      IterateBounds(g, a, n - 1);
    }
  }

  /** A shrinking step is capped in the first round or never. */
  lemma {:induction false} CapAtTheStart(g: real -> real, cap: real, a: real, n: nat)
    requires Monotone(g) && Shrinks(g) && a >= 0.0 && cap >= 0.0 && n >= 1
    ensures CappedIterate(g, cap, a, n) == Iterate(g, Min(g(a), cap), n - 1)
  {
    if n == 1 {
      assert CappedIterate(g, cap, a, 0) == a;
    } else {
      CapAtTheStart(g, cap, a, n - 1);
      IterateBounds(g, Min(g(a), cap), n - 1);
    }
  }

  lemma CapNeverMet(g: real -> real, cap: real, a: real, n: nat)
    requires Monotone(g) && Shrinks(g) && a >= 0.0 && cap >= 0.0 && n >= 1
    requires g(a) <= cap || cap == 0.0
    ensures CappedIterate(g, cap, a, n) == Min(Iterate(g, a, n), cap)
  {
    CapAtTheStart(g, cap, a, n);
    IterateShift(g, a, n - 1);
    IterateBounds(g, g(a), n - 1);
    IterateBounds(g, Min(g(a), cap), n - 1);
  }

  /** A cap met by a shrinking first step is left again on the second. */
  lemma CapMetByShrinking(g: real -> real, cap: real, a: real)
    requires Monotone(g) && Shrinks(g) && a >= 0.0 && g(a) > cap > 0.0
    requires g(cap) < cap && g(cap) < g(g(a))
    ensures CappedIterate(g, cap, a, 2) < Min(Iterate(g, a, 2), cap)
  {
    CapAtTheStart(g, cap, a, 2);
    assert Iterate(g, cap, 1) == g(cap) by { assert Iterate(g, cap, 0) == cap; }
    IterateShift(g, a, 1);
    assert Iterate(g, g(a), 1) == g(g(a)) by { assert Iterate(g, g(a), 0) == g(a); }
  }

  ghost predicate CapLaw(g: real -> real, cap: real, a: real) {
    forall n: nat :: n >= 1 ==> CappedIterate(g, cap, a, n) == Min(Iterate(g, a, n), cap)
  }

  /** Capping every round is capping at the end, exactly unless a shrinking step starts above the cap. */
  lemma CapLawIff(g: real -> real, cap: real, a: real)
    requires Monotone(g) && a >= 0.0 && cap >= 0.0
    requires Grows(g) || (Shrinks(g) && (g(a) > cap > 0.0 ==> g(cap) < cap && g(cap) < g(g(a))))
    ensures CapLaw(g, cap, a) <==> Grows(g) || g(a) <= cap || cap == 0.0
  {
    if Grows(g) {
      forall n: nat | n >= 1 ensures CappedIterate(g, cap, a, n) == Min(Iterate(g, a, n), cap) {
        CapOnceAtTheEnd(g, cap, a, n);
      }
    } else if g(a) <= cap || cap == 0.0 {
      forall n: nat | n >= 1 ensures CappedIterate(g, cap, a, n) == Min(Iterate(g, a, n), cap) {
        CapNeverMet(g, cap, a, n);
      }
    } else {
      CapMetByShrinking(g, cap, a);
    }
  }

  // ---- Closed form ----

  lemma MulMonotone(a: real, b: real, f: real)
    requires a <= b && f >= 0.0
    ensures a * f <= b * f
  {
    assert (b - a) * f >= 0.0;
  }

  lemma MulStrict(a: real, b: real, f: real)
    requires a < b && f > 0.0
    ensures a * f < b * f
  {
    assert (b - a) * f > 0.0;
  }

  lemma ScalePair(factor: real, a: real, b: real)
    requires factor >= 0.0 && 0.0 <= a <= b
    ensures 0.0 <= Scale(factor)(a) <= Scale(factor)(b)
  {
    MulMonotone(a, b, factor);
    assert a * factor >= 0.0;
  }

  lemma ScaleMonotone(factor: real)
    requires factor >= 0.0
    ensures Monotone(Scale(factor))
  {
    forall a: real, b: real | 0.0 <= a <= b
      ensures 0.0 <= Scale(factor)(a) <= Scale(factor)(b)
    {
      ScalePair(factor, a, b);
    }
  }

  lemma ScaleGrows(factor: real)
    ensures Grows(Scale(factor)) <==> factor >= 1.0
  {
    if factor >= 1.0 {
      forall a: real | 0.0 <= a ensures a <= Scale(factor)(a) {
        MulMonotone(1.0, factor, a);
      }
    } else {
      assert Scale(factor)(1.0) == factor;
    }
  }

  lemma ScaleShrinks(factor: real)
    requires factor <= 1.0
    ensures Shrinks(Scale(factor))
  {
    forall a: real | 0.0 <= a ensures Scale(factor)(a) <= a {
      MulMonotone(factor, 1.0, a);
    }
  }

  lemma ScaleStrict(factor: real, a: real, cap: real)
    requires 0.0 <= factor < 1.0 && cap > 0.0 && Scale(factor)(a) > cap
    ensures Scale(factor)(cap) < cap && Scale(factor)(cap) < Scale(factor)(Scale(factor)(a))
  {
    MulStrict(factor, 1.0, cap);
    assert factor > 0.0;
    MulStrict(cap, Scale(factor)(a), factor);
  }

  function Power(f: real, n: nat): real {
    if n == 0 then 1.0 else f * Power(f, n - 1)
  }

  lemma MulAround(a: real, b: real, f: real)
    ensures a * b * f == a * (f * b)
  {
  }

  /** The repeated backoff step multiplies by a power of the factor. */
  lemma {:induction false} GeometricIsPower(a: real, f: real, n: nat)
    ensures Geometric(a, f, n) == a * Power(f, n)
  {
    if n > 0 {
      GeometricIsPower(a, f, n - 1);
      MulAround(a, Power(f, n - 1), f);
      assert Geometric(a, f, n) == Scale(f)(Geometric(a, f, n - 1));
    }
  }

  lemma FirstPower(a: real, f: real)
    ensures Geometric(a, f, 1) == a * f
  {
    assert Iterate(Scale(f), a, 0) == a;
  }

  function CappedPower(c: RetryConfig, k: nat): real {
    Min(c.initialDelay * Power(c.factor, k), c.maxDelay)
  }

  lemma CappedPowerIsCappedGeometric(c: RetryConfig, k: nat)
    ensures CappedPower(c, k) == Min(Geometric(c.initialDelay, c.factor, k), c.maxDelay)
  {
    var product := c.initialDelay * Power(c.factor, k);
    assert Geometric(c.initialDelay, c.factor, k) == product by {
      GeometricIsPower(c.initialDelay, c.factor, k);
    }
    assert CappedPower(c, k) == Min(product, c.maxDelay);
  }

  /** Every delay after the zeroth is initial * factor^k, cut at the maximum. */
  ghost predicate CappedPowerLaw(c: RetryConfig) {
    forall k: nat :: k >= 1 ==> Delay(c, k) == CappedPower(c, k)
  }

  /** The law holds exactly when the factor does not shrink, or the first step stays under the cap. */
  lemma CappedPowerLawIff(c: RetryConfig)
    requires ValidConfig(c)
    ensures CappedPowerLaw(c) <==>
              c.factor >= 1.0 || c.initialDelay * c.factor <= c.maxDelay || c.maxDelay == 0.0
  {
    LawIsCapLaw(c);
    FirstPower(c.initialDelay, c.factor);
    CapLawOfScale(c.factor, c.maxDelay, c.initialDelay);
  }

  lemma CapLawOfScale(factor: real, cap: real, a: real)
    requires factor >= 0.0 && a >= 0.0 && cap >= 0.0
    ensures CapLaw(Scale(factor), cap, a) <==>
              factor >= 1.0 || Geometric(a, factor, 1) <= cap || cap == 0.0
  {
    ScaleMonotone(factor);
    ScaleGrows(factor);
    if factor < 1.0 {
      ScaleShrinks(factor);
      if Scale(factor)(a) > cap > 0.0 {
        ScaleStrict(factor, a, cap);
      }
    }
    FirstTerm(factor, a);
    CapLawIff(Scale(factor), cap, a);
  }

  lemma FirstTerm(factor: real, a: real)
    ensures Geometric(a, factor, 1) == Scale(factor)(a)
  {
    assert Iterate(Scale(factor), a, 0) == a;
  }

  lemma LawIsCapLaw(c: RetryConfig)
    ensures CappedPowerLaw(c) <==> CapLaw(Scale(c.factor), c.maxDelay, c.initialDelay)
  {
    var g := Scale(c.factor);
    forall n: nat | n >= 1
      ensures CappedPower(c, n) == Min(Iterate(g, c.initialDelay, n), c.maxDelay)
    {
      CappedPowerIsCappedGeometric(c, n);
    }
    if CappedPowerLaw(c) {
      forall n: nat | n >= 1
        ensures CappedIterate(g, c.maxDelay, c.initialDelay, n) == Min(Iterate(g, c.initialDelay, n), c.maxDelay)
      {
        assert Delay(c, n) == CappedPower(c, n);
      }
    }
  }

  lemma ShrinkingDelays(c: RetryConfig, first: real, k: nat)
    requires ValidConfig(c) && c.factor <= 1.0 && k >= 1
    requires first == Min(Scale(c.factor)(c.initialDelay), c.maxDelay)
    ensures Delay(c, k) == Geometric(first, c.factor, k - 1)
  {
    ScaleMonotone(c.factor);
    ScaleShrinks(c.factor);
    CapAtTheStart(Scale(c.factor), c.maxDelay, c.initialDelay, k);
  }

  /** For a shrinking factor the delays decay from the first capped one. */
  lemma ShrinkingClosedForm(c: RetryConfig, k: nat)
    requires ValidConfig(c) && c.factor <= 1.0 && k >= 1
    ensures Delay(c, k) == Min(c.initialDelay * c.factor, c.maxDelay) * Power(c.factor, k - 1)
  {
    var first := Min(c.initialDelay * c.factor, c.maxDelay);
    ShrinkingDelays(c, first, k);
    GeometricIsPower(first, c.factor, k - 1);
  }

  // ---- The maximum delay ----

  lemma LaterDelaysAreCapped(c: RetryConfig, k: nat)
    requires k >= 1
    ensures Delay(c, k) <= c.maxDelay
  {
  }

  /**
   The cap is applied only after the first sleep: all sleeps keep to the maximum exactly if the
   initial delay does.
   */
  lemma DelaysWithinMaxIff(c: RetryConfig, n: nat)
    requires n >= 1
    ensures (forall k: nat :: k < n ==> Delay(c, k) <= c.maxDelay) <==> c.initialDelay <= c.maxDelay
  {
    assert Delay(c, 0) == c.initialDelay;
    forall k: nat | 1 <= k < n ensures Delay(c, k) <= c.maxDelay {
      LaterDelaysAreCapped(c, k);
    }
  }

  // ---- Total time ----

  function TotalDelay(c: RetryConfig, n: nat): real {
    if n == 0 then 0.0 else TotalDelay(c, n - 1) + Delay(c, n - 1)
  }

  /** Only the first sleep may exceed the maximum, so all sleeps together are bounded. */
  lemma {:induction false} TotalDelayBound(c: RetryConfig, n: nat)
    requires ValidConfig(c) && n >= 1
    ensures TotalDelay(c, n) <= c.initialDelay + (n - 1) as real * c.maxDelay
  {
    if n == 1 {
      assert TotalDelay(c, 0) == 0.0;
    } else {
      TotalDelayBound(c, n - 1);
      assert Delay(c, n - 1) <= c.maxDelay;
      assert (n - 2) as real * c.maxDelay + c.maxDelay == (n - 1) as real * c.maxDelay;
    }
  }
}
