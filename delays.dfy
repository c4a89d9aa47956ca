/** Delay schedules: pure functions from a retry index (the number of retries
    already performed) to a wait duration.

    A duration is an integer number of nanoseconds, as Go's time.Duration is.
    Integers here are unbounded: the Go code computes in 64-bit integers and
    float64 and guards against neither overflow nor loss of precision. */
module Delays {

  /** Go's time.Millisecond, in nanoseconds. */
  const Millisecond: int := 1_000_000

  /** A delay schedule, as the Retrier stores it. */
  type Schedule = nat -> int

  /** Exact integer power. The Go code computes int(math.Pow(float64(base),
      float64(n))); that agrees with Pow(base, n) only while the power is an
      integer float64 holds exactly (magnitude at most 2^53); beyond that the
      float result is rounded and its conversion to int is not modelled. */
  function Pow(base: int, n: nat): (p: int)
    ensures base >= 1 ==> p >= 1
    ensures base == 0 ==> p == (if n == 0 then 1 else 0)
  {
    if n == 0 then 1 else base * Pow(base, n - 1)
  }

  /** No delay between retries. */
  function NoDelay(): (f: Schedule)
    ensures forall retries: nat :: f(retries) == 0
  {
    (retries: nat) => 0
  }

  /** A constant delay; the code scales its argument by a millisecond. */
  function ConstantDelay(delay: int): (f: Schedule)
    ensures forall retries: nat :: f(retries) == f(0)
    ensures f(0) == delay * Millisecond
  {
    (retries: nat) => delay * Millisecond
  }

  /** A delay that grows by one step per retry; the first retry waits one step. */
  function LinearDelay(step: int): (f: Schedule)
    ensures f(0) == step
    ensures forall retries: nat :: f(retries) == (retries + 1) * step
  {
    (retries: nat) => step + retries * step
  }

  /** The linear delay, clamped to cap once it reaches it. */
  function CappedLinearDelay(step: int, cap: int): (f: Schedule)
    ensures forall retries: nat :: f(retries) <= cap
    ensures forall retries: nat ::
      LinearDelay(step)(retries) < cap ==> f(retries) == LinearDelay(step)(retries)
    ensures forall retries: nat ::
      LinearDelay(step)(retries) >= cap ==> f(retries) == cap
  {
    (retries: nat) =>
      var delay := step + retries * step;
      if delay < cap then delay else cap
  }

  /** The uncapped exponential value in milliseconds, coef * base^retries. */
  function ExponentialMillis(coef: int, base: int, retries: nat): int
  {
    coef * Pow(base, retries)
  }

  /** An exponentially growing delay of coef * base^retries milliseconds. */
  function ExponentialDelay(coef: int, base: int): (f: Schedule)
    ensures f(0) == coef * Millisecond
    ensures forall retries: nat :: f(retries) == ExponentialMillis(coef, base, retries) * Millisecond
  {
    (retries: nat) => ExponentialMillis(coef, base, retries) * Millisecond
  }

  /** The exponential delay, clamped to cap milliseconds. */
  function CappedExponentialDelay(coef: int, base: int, cap: int): (f: Schedule)
    ensures forall retries: nat :: f(retries) <= cap * Millisecond
    ensures forall retries: nat ::
      ExponentialMillis(coef, base, retries) < cap ==> f(retries) == ExponentialDelay(coef, base)(retries)
    ensures forall retries: nat ::
      ExponentialMillis(coef, base, retries) >= cap ==> f(retries) == cap * Millisecond
  {
    (retries: nat) =>
      var raw := ExponentialMillis(coef, base, retries);
      var millis := if raw <= cap then raw else cap;
      millis * Millisecond
  }

  // ---------------------------------------------------------------------
  // Properties of the schedules

  /** Each retry waits exactly one step longer than the one before. */
  lemma LinearDelayStep(step: int, retries: nat)
    ensures LinearDelay(step)(retries + 1) == LinearDelay(step)(retries) + step
  {
  }

  /** Pow splits over a sum of exponents. */
  lemma {:induction false} PowAdd(base: int, m: nat, n: nat)
    ensures Pow(base, m + n) == Pow(base, m) * Pow(base, n)
  {
    if m > 0 {
      PowAdd(base, m - 1, n);
      calc {
        Pow(base, m + n);
        base * Pow(base, m - 1 + n);
        base * (Pow(base, m - 1) * Pow(base, n));
        (base * Pow(base, m - 1)) * Pow(base, n);
        Pow(base, m) * Pow(base, n);
      }
    }
  }

  /** With a base of at least one, Pow never decreases as the exponent grows. */
  lemma {:induction false} PowMonotone(base: int, m: nat, n: nat)
    requires base >= 1 && m <= n
    ensures Pow(base, m) <= Pow(base, n)
  {
    if m < n {
      PowMonotone(base, m, n - 1);
      MulGrows(base, Pow(base, n - 1));
    }
  }

  lemma MulGrows(k: int, x: int)
    requires k >= 1 && x >= 1
    ensures x <= k * x
  {
  }

  lemma MulMonotone(c: int, x: int, y: int)
    requires c >= 0 && x <= y
    ensures c * x <= c * y
  {
  }

  /** Each exponential delay is base times the one before. */
  lemma ExponentialDelayStep(coef: int, base: int, retries: nat)
    ensures ExponentialDelay(coef, base)(retries + 1) == base * ExponentialDelay(coef, base)(retries)
  {
  }

  /** The exponential schedule never shrinks for coef >= 0 and base >= 1. */
  lemma ExponentialDelayMonotone(coef: int, base: int, m: nat, n: nat)
    requires coef >= 0 && base >= 1 && m <= n
    ensures ExponentialDelay(coef, base)(m) <= ExponentialDelay(coef, base)(n)
  {
    PowMonotone(base, m, n);
    MulMonotone(coef, Pow(base, m), Pow(base, n));
    MulMonotone(Millisecond, coef * Pow(base, m), coef * Pow(base, n));
  }

  /** Once the capped exponential schedule reaches its cap it stays there
      (coef >= 0, base >= 1). */
  lemma CappedExponentialSaturates(coef: int, base: int, cap: int, m: nat, n: nat)
    requires coef >= 0 && base >= 1 && m <= n
    requires CappedExponentialDelay(coef, base, cap)(m) == cap * Millisecond
    ensures CappedExponentialDelay(coef, base, cap)(n) == cap * Millisecond
  {
    PowMonotone(base, m, n);
    MulMonotone(coef, Pow(base, m), Pow(base, n));
  }

  /** Once the capped linear schedule reaches its cap it stays there (step >= 0). */
  lemma CappedLinearSaturates(step: int, cap: int, m: nat, n: nat)
    requires step >= 0 && m <= n
    requires CappedLinearDelay(step, cap)(m) == cap
    ensures CappedLinearDelay(step, cap)(n) == cap
  {
  }

  // ---------------------------------------------------------------------
  // Where the code and its tests disagree on units

  /** ConstantDelay(time.Second) waits a million seconds, not one second. */
  lemma ConstantDelayScalesByMillisecond(second: int, retries: nat)
    requires second == 1_000_000_000
    ensures ConstantDelay(second)(retries) == 1_000_000 * second
    ensures ConstantDelay(second)(retries) != second
  {
  }

  /** In general, ConstantDelay returns its argument unchanged only when it is 0. */
  lemma ConstantDelayKeepsOnlyZero(delay: int, retries: nat)
    ensures ConstantDelay(delay)(retries) == delay <==> delay == 0
  {
  }

  /** In general, the first exponential delay equals coef only when coef is 0. */
  lemma ExponentialDelayKeepsOnlyZero(coef: int, base: int)
    ensures ExponentialDelay(coef, base)(0) == coef <==> coef == 0
  {
  }

  /** ExponentialDelay(time.Second, 4) at retry 1 gives a million times time.Second * 4. */
  lemma ExponentialDelayScalesByMillisecond(second: int)
    requires second == 1_000_000_000
    ensures ExponentialDelay(second, 4)(1) == 1_000_000 * (second * 4)
    ensures ExponentialDelay(second, 4)(1) != second * 4
  {
  }
}
