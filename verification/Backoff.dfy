/** Capped exponential retry delays. */
module Backoff {

  /** Durations are 64-bit counts of nanoseconds. */
  const MAX_DURATION: int := 0x7FFF_FFFF_FFFF_FFFF
  const MIN_DURATION: int := -0x8000_0000_0000_0000
  const RANGE: int := 0x1_0000_0000_0000_0000

  predicate IsDuration(d: int) { MIN_DURATION <= d <= MAX_DURATION }

  /** Two's complement. */
  function Wrap(x: int): int { (x - MIN_DURATION) % RANGE + MIN_DURATION }

  /** Half, rounded toward zero. */
  function Half(d: int): int { if d >= 0 then d / 2 else -((-d) / 2) }

  function Pow2(n: nat): nat { if n == 0 then 1 else 2 * Pow2(n - 1) }

  /** The delay after up to n doublings, made only while it is below half of the maximum. */
  function Doubled(base: int, maximum: int, n: nat): int {
    if n == 0 then base
    else
      var before := Doubled(base, maximum, n - 1);
      if before < Half(maximum) then Wrap(2 * before) else before
  }

  function Capped(delay: int, maximum: int): int { if delay > maximum then maximum else delay }

  /** How many doublings an attempt allows; attempts count from one. */
  function Allowed(attempt: int): nat { if attempt < 1 then 0 else attempt - 1 }

  /** The delay after a completed attempt. */
  function Delay(base: int, maximum: int, attempt: int): int {
    Capped(Doubled(base, maximum, Allowed(attempt)), maximum)
  }

  lemma {:induction false} DoubledStays(base: int, maximum: int, n: nat, m: nat)
    requires n <= m && Half(maximum) <= Doubled(base, maximum, n)
    ensures Doubled(base, maximum, m) == Doubled(base, maximum, n)
  {
    if n < m {
      DoubledStays(base, maximum, n, m - 1);
    }
  }

  /** The loop of the policy. */
  method ExponentialBackoff(base: int, maximum: int, attempt: int) returns (delay: int)
    requires IsDuration(base) && IsDuration(maximum)
    ensures delay == Delay(base, maximum, attempt)
  {
    var last := if attempt < 1 then 1 else attempt;
    delay := base;
    var i := 1;
    while i < last && delay < Half(maximum)
      invariant 1 <= i <= last && delay == Doubled(base, maximum, i - 1)
    {
      delay := Wrap(delay * 2);
      i := i + 1;
    }
    if i < last {
      DoubledStays(base, maximum, i - 1, last - 1);
    }
    if delay > maximum {
      delay := maximum;
    }
  }

  // ---------------------------------------------------------------------------------------------
  // Closed form

  lemma WrapOnce(x: int)
    ensures exists k :: Wrap(x) == x - k * RANGE
  {
    var k := (x - MIN_DURATION) / RANGE;
    assert Wrap(x) == x - k * RANGE;
  }

  lemma WrapShift(x: int, k: int)
    ensures Wrap(x - k * RANGE) == Wrap(x)
  {
    ModShift(x - MIN_DURATION, k);
  }

  lemma ModShift(y: int, k: int)
    ensures (y - k * RANGE) % RANGE == y % RANGE
  {
    var q, r := y / RANGE, y % RANGE;
    assert y - k * RANGE == (q - k) * RANGE + r;
    ModOf(q - k, r);
  }

  lemma ModOf(q: int, r: int)
    requires 0 <= r < RANGE
    ensures (q * RANGE + r) % RANGE == r
  {
    var y := q * RANGE + r;
    assert y == RANGE * (y / RANGE) + y % RANGE;
    assert RANGE * (y / RANGE - q) == r - y % RANGE;
  }

  /** Doubling commutes with wrapping around. */
  lemma WrapTwice(x: int)
    ensures Wrap(2 * Wrap(x)) == Wrap(2 * x)
  {
    WrapOnce(x);
    var k :| Wrap(x) == x - k * RANGE;
    assert 2 * Wrap(x) == 2 * x - (2 * k) * RANGE;
    WrapShift(2 * x, 2 * k);
  }

  /** How many of n doublings are made. */
  function Doublings(base: int, maximum: int, n: nat): nat {
    if n == 0 then 0
    else if Doubled(base, maximum, n - 1) < Half(maximum) then Doublings(base, maximum, n - 1) + 1
    else Doublings(base, maximum, n - 1)
  }

  /** The base doubled n times in 64 bits. */
  function Scaled(base: int, n: nat): int { Wrap(base * Pow2(n)) }

  lemma ScaledNext(base: int, n: nat)
    ensures Scaled(base, n + 1) == Wrap(2 * Scaled(base, n))
  {
    assert base * Pow2(n + 1) == 2 * (base * Pow2(n));
    WrapTwice(base * Pow2(n));
  }

  lemma {:induction false} DoublingsCounted(base: int, maximum: int, n: nat)
    requires IsDuration(base)
    ensures
      var k := Doublings(base, maximum, n);
      && k <= n && Doubled(base, maximum, n) == Scaled(base, k)
      && (k < n ==> Half(maximum) <= Scaled(base, k))
      && (forall j :: 0 <= j < k ==> Scaled(base, j) < Half(maximum))
  {
    if n == 0 {
      assert base * Pow2(0) == base;
    } else {
      DoublingsCounted(base, maximum, n - 1);
      ScaledNext(base, Doublings(base, maximum, n - 1));
    }
  }

  /** The policy in closed form, for every base and maximum: the base doubled in 64 bits once for
      every attempt after the first, but not beyond the first value at or above half of the maximum,
      and capped at the maximum. */
  lemma DelayClosedForm(base: int, maximum: int, attempt: int) returns (k: nat)
    requires IsDuration(base) && IsDuration(maximum)
    ensures Delay(base, maximum, attempt) == Capped(Scaled(base, k), maximum)
    ensures forall j :: 0 <= j < k ==> Scaled(base, j) < Half(maximum)
    ensures k == Allowed(attempt) || (k < Allowed(attempt) && Half(maximum) <= Scaled(base, k))
  {
    k := Doublings(base, maximum, Allowed(attempt));
    DoublingsCounted(base, maximum, Allowed(attempt));
  }

  /** A base that is not negative is never doubled out of range, so the closed form has the exact
      product. */
  lemma {:induction false} NothingOverflows(base: int, maximum: int, k: nat)
    requires 0 <= base <= MAX_DURATION && IsDuration(maximum)
    requires forall j :: 0 <= j < k ==> Scaled(base, j) < Half(maximum)
    ensures Scaled(base, k) == base * Pow2(k) && 0 <= base * Pow2(k) <= MAX_DURATION
  {
    if k == 0 {
      assert base * Pow2(0) == base;
    } else {
      NothingOverflows(base, maximum, k - 1);
      assert base * Pow2(k) == 2 * (base * Pow2(k - 1));
      assert Scaled(base, k - 1) < Half(maximum);
    }
  }

  // ---------------------------------------------------------------------------------------------
  // Monotone delays

  lemma {:induction false} DoubledInRange(base: int, maximum: int, n: nat)
    requires 0 <= base <= MAX_DURATION && IsDuration(maximum)
    ensures 0 <= Doubled(base, maximum, n) <= MAX_DURATION
    ensures Doubled(base, maximum, n) <= Doubled(base, maximum, n + 1)
  {
    if n > 0 {
      DoubledInRange(base, maximum, n - 1);
    }
  }

  lemma {:induction false} DoubledGrows(base: int, maximum: int, n: nat, m: nat)
    requires 0 <= base <= MAX_DURATION && IsDuration(maximum) && n <= m
    ensures Doubled(base, maximum, n) <= Doubled(base, maximum, m)
  {
    if n < m {
      DoubledGrows(base, maximum, n, m - 1);
      DoubledInRange(base, maximum, m - 1);
    }
  }

  /** The first doubling, and then the rest. */
  lemma {:induction false} DoubledFromFirst(base: int, maximum: int, n: nat)
    ensures Doubled(base, maximum, n + 1) == Doubled(Doubled(base, maximum, 1), maximum, n)
  {
    if n > 0 {
      DoubledFromFirst(base, maximum, n - 1);
    }
  }

  /** A base that doubling makes smaller. */
  predicate Shrinks(base: int, maximum: int) {
    Half(MIN_DURATION) <= base < 0 && base < Half(maximum)
  }

  lemma ShrinksAtOnce(base: int, maximum: int)
    requires IsDuration(base) && IsDuration(maximum) && Shrinks(base, maximum)
    ensures Delay(base, maximum, 2) < Delay(base, maximum, 1)
  {
    assert Doubled(base, maximum, 1) == Wrap(2 * base) == 2 * base;
  }

  lemma GrowsOtherwise(base: int, maximum: int, n: nat, m: nat)
    requires IsDuration(base) && IsDuration(maximum) && !Shrinks(base, maximum) && n <= m
    ensures Doubled(base, maximum, n) <= Doubled(base, maximum, m)
  {
    if 0 <= base {
      DoubledGrows(base, maximum, n, m);
    } else if Half(maximum) <= base {
      DoubledStays(base, maximum, 0, n);
      DoubledStays(base, maximum, 0, m);
    } else if n < m {
      WrapsToPositive(base, maximum);
      GrowsFromFirst(base, maximum, n, m);
    }
  }

  /** The double of a base too small to double wraps around. */
  lemma WrapsToPositive(base: int, maximum: int)
    requires IsDuration(base) && base < Half(MIN_DURATION) && base < Half(maximum)
    ensures 0 <= Doubled(base, maximum, 1) <= MAX_DURATION
  {
    assert Doubled(base, maximum, 1) == Wrap(2 * base) == 2 * base + RANGE;
  }

  lemma GrowsFromFirst(base: int, maximum: int, n: nat, m: nat)
    requires base < 0 <= Doubled(base, maximum, 1) <= MAX_DURATION && IsDuration(maximum) && n < m
    ensures Doubled(base, maximum, n) <= Doubled(base, maximum, m)
  {
    var first := Doubled(base, maximum, 1);
    DoubledFromFirst(base, maximum, m - 1);
    if n == 0 {
      DoubledGrows(first, maximum, 0, m - 1);
    } else {
      DoubledFromFirst(base, maximum, n - 1);
      DoubledGrows(first, maximum, n - 1, m - 1);
    }
  }

  /** Delays never shrink from one attempt to a later one if and only if the base is not one that
      doubling makes smaller: a negative base below half of the maximum whose double does not wrap
      around. No delay exceeds the maximum. */
  lemma DelayIsMonotoneExactly(base: int, maximum: int)
    requires IsDuration(base) && IsDuration(maximum)
    ensures forall a :: Delay(base, maximum, a) <= maximum
    ensures (forall a, b :: a <= b ==> Delay(base, maximum, a) <= Delay(base, maximum, b)) <==> !Shrinks(base, maximum)
  {
    if Shrinks(base, maximum) {
      ShrinksAtOnce(base, maximum);
      assert !(Delay(base, maximum, 1) <= Delay(base, maximum, 2));
    } else {
      forall a, b | a <= b
        ensures Delay(base, maximum, a) <= Delay(base, maximum, b)
      {
        GrowsOtherwise(base, maximum, Allowed(a), Allowed(b));
      }
    }
  }

  // ---------------------------------------------------------------------------------------------
  // Settling

  lemma {:induction false} ProductGrows(base: int, n: nat, m: nat)
    requires 0 <= base && n <= m
    ensures base * Pow2(n) <= base * Pow2(m)
  {
    if n < m {
      ProductGrows(base, n, m - 1);
      assert base * Pow2(m) == 2 * (base * Pow2(m - 1));
      assert 0 <= base * Pow2(m - 1);
    }
  }

  /** The uncapped delay reaches half of the maximum exactly with the product, and is the product
      until then. */
  lemma DoubledOrHalf(base: int, maximum: int, n: nat)
    requires 0 <= base <= MAX_DURATION && IsDuration(maximum)
    ensures Half(maximum) <= Doubled(base, maximum, n) <==> Half(maximum) <= base * Pow2(n)
    ensures base * Pow2(n) < Half(maximum) ==> Doubled(base, maximum, n) == base * Pow2(n)
  {
    var k := Doublings(base, maximum, n);
    DoublingsCounted(base, maximum, n);
    NothingOverflows(base, maximum, k);
    ProductGrows(base, k, n);
  }

  /** For positive settings, exactly when the delays settle: an attempt has at least half of the
      maximum as its delay if and only if the base doubled once for every attempt before it comes to
      that much. From then on every attempt has the same delay; until then the delay is that
      product. */
  lemma DelaySettles(base: int, maximum: int, attempt: int)
    requires 1 <= base <= MAX_DURATION && 1 <= maximum <= MAX_DURATION
    ensures Half(maximum) <= Delay(base, maximum, attempt) <==> Half(maximum) <= base * Pow2(Allowed(attempt))
    ensures Half(maximum) <= Delay(base, maximum, attempt) ==>
              forall later :: attempt <= later ==> Delay(base, maximum, later) == Delay(base, maximum, attempt)
    ensures Delay(base, maximum, attempt) < Half(maximum) ==> Delay(base, maximum, attempt) == base * Pow2(Allowed(attempt))
  {
    DoubledOrHalf(base, maximum, Allowed(attempt));
    if Half(maximum) <= Delay(base, maximum, attempt) {
      forall later | attempt <= later
        ensures Delay(base, maximum, later) == Delay(base, maximum, attempt)
      {
        DoubledStays(base, maximum, Allowed(attempt), Allowed(later));
      }
    }
  }
}
