/** The retry delay of the watch loop: full-jitter exponential backoff in 64-bit arithmetic. */
module Backoff {
  import opened Wrappers
  import opened Bytes

  const MAX_INT64 := 0x7FFF_FFFF_FFFF_FFFF
  const TWO_64 := 0x1_0000_0000_0000_0000
  const EXP_CEILING := 20

  /** An integer as a signed 64-bit register holds it. */
  function Wrap64(x: int): int
  {
    var low := x % TWO_64;
    if low <= MAX_INT64 then low else low - TWO_64
  }

  /** How often the base has been doubled by an attempt. */
  function Doublings(attempt: int): nat
  {
    if attempt <= 1 then 0 else if attempt - 1 <= EXP_CEILING then attempt - 1 else EXP_CEILING
  }

  /** The documented ceiling, over the integers. */
  function Ideal(base: int, max: int, attempt: int): int
  {
    var p := base * Pow2(Doublings(attempt));
    if p < max then p else max
  }

  /** The ceiling the code computes. */
  function Upper(base: int, max: int, attempt: int): int
  {
    var product := Wrap64(base * Pow2(Doublings(attempt)));
    if product <= 0 || product > max then max else product
  }

  lemma WrapOfNext(u: int)
    requires 0 < u <= MAX_INT64
    ensures Wrap64(u + 1) == if u == MAX_INT64 then -MAX_INT64 - 1 else u + 1
  {
  }

  /** The delay, or None where rand.Int63n panics on a bound that is not positive. `draw` is the
      generator's choice: its remainder is any value below the bound. */
  method FullJitterBackoff(base: int, max: int, attempt: int, draw: nat) returns (delay: Option<int>)
    requires max <= MAX_INT64
    ensures var upper := Upper(base, max, attempt);
            if upper <= 0 then delay == Some(0)
            else if upper == MAX_INT64 then delay == None
            else delay == Some(draw % (upper + 1)) && 0 <= delay.value <= upper
  {
    hide Wrap64, Pow2;
    var a := attempt;
    if a < 1 {
      a := 1;
    }
    var exp := a - 1;
    if exp > EXP_CEILING {
      exp := EXP_CEILING;
    }
    var upper := Wrap64(base * Pow2(exp));
    if upper <= 0 || upper > max {
      upper := max;
    }
    if upper <= 0 {
      return Some(0);
    }
    var bound := Wrap64(upper + 1);
    WrapOfNext(upper);
    if bound <= 0 {
      return None;
    }
    return Some(draw % bound);
  }

  // ---- How the code's ceiling compares with the documented one ----

  lemma WrapCases(p: nat, max: int)
    requires 0 < p && 0 < max <= MAX_INT64
    ensures var low := p % TWO_64;
            (if Wrap64(p) <= 0 || Wrap64(p) > max then max else Wrap64(p)) == (if p < max then p else max)
            <==> p < TWO_64 || low == 0 || low >= max
  {
    if p < TWO_64 {
      assert p % TWO_64 == p;
    }
  }

  /** Exactly when the overflow guard works: the product stays below 2^64, or its low 64 bits are
      zero, or they are at least the maximum (which covers every value that reads as negative). */
  lemma UpperIsIdealExactly(base: int, max: int, attempt: int)
    requires 0 < base && 0 < max <= MAX_INT64
    ensures var p := base * Pow2(Doublings(attempt));
            Upper(base, max, attempt) == Ideal(base, max, attempt)
            <==> p < TWO_64 || p % TWO_64 == 0 || p % TWO_64 >= max
  {
    hide Wrap64;
    var k := Pow2(Doublings(attempt));
    Pow2Monotone(0, Doublings(attempt));
    ProductPositive(base, k);
    WrapCases(base * k, max);
  }

  lemma ProductPositive(a: int, b: int)
    requires a > 0 && b > 0
    ensures a * b > 0
  {
  }

  lemma Pow2Of20()
    ensures Pow2(20) == 0x10_0000
  {
    assert Pow2(4) == 16;
    assert Pow2(8) == 256;
    assert Pow2(12) == 4096;
    assert Pow2(16) == 65536;
  }

  const SAFE_BASE := 0x1000_0000_0000

  /** Up to a base of 2^44 nanoseconds (almost five hours) the computed ceiling is the documented
      one for every maximum and every attempt. */
  lemma SafeBaseIsIdeal(base: int, max: int, attempt: int)
    requires 0 < base <= SAFE_BASE && 0 < max <= MAX_INT64
    ensures Upper(base, max, attempt) == Ideal(base, max, attempt)
  {
    hide Upper, Ideal, Wrap64;
    UpperIsIdealExactly(base, max, attempt);
    var k := Pow2(Doublings(attempt));
    Pow2Monotone(Doublings(attempt), 20);
    Pow2Of20();
    ProductBound(base, k, SAFE_BASE, 0x10_0000);
  }

  lemma ProductBound(a: nat, b: nat, c: nat, d: nat)
    requires a <= c && b <= d
    ensures a * b <= c * d
  {
    assert a * b <= a * d by {
      assert a * (d - b) >= 0;
    }
    assert a * d <= c * d by {
      assert (c - a) * d >= 0;
    }
  }

  /** One nanosecond more and the guard misses: from the 21st failure on the ceiling collapses to
      about a millisecond, whatever larger maximum was asked for. */
  lemma SafeBaseIsTight(max: int, attempt: int)
    requires 0x10_0000 < max <= MAX_INT64 && attempt > 20
    ensures Upper(SAFE_BASE + 1, max, attempt) == 0x10_0000 && Ideal(SAFE_BASE + 1, max, attempt) == max
  {
    Pow2Of20();
    assert (SAFE_BASE + 1) * 0x10_0000 == TWO_64 + 0x10_0000;
    assert (TWO_64 + 0x10_0000) % TWO_64 == 0x10_0000;
  }

  /** With a safe base the ceiling never falls from one attempt to a later one. */
  lemma CeilingIsMonotone(base: int, max: int, a: int, b: int)
    requires 0 < base <= SAFE_BASE && 0 < max <= MAX_INT64 && a <= b
    ensures Upper(base, max, a) <= Upper(base, max, b)
  {
    hide Upper;
    SafeBaseIsIdeal(base, max, a);
    SafeBaseIsIdeal(base, max, b);
    Pow2Monotone(Doublings(a), Doublings(b));
    ProductBound(base, Pow2(Doublings(a)), base, Pow2(Doublings(b)));
  }

  /** Whatever overflows, the ceiling stays within the maximum, so a delay never exceeds it; and the
      generator panics only when the maximum is the largest 64-bit value. */
  lemma UpperWithinMax(base: int, max: int, attempt: int)
    requires 0 < max
    ensures 0 < Upper(base, max, attempt) <= max
  {
  }

  // ---- The ceiling attempt by attempt ----

  /** Two's complement: the one number of the 64-bit range that differs by a multiple of 2^64. */
  lemma WrapIsCongruent(x: int)
    ensures -0x8000_0000_0000_0000 <= Wrap64(x) < 0x8000_0000_0000_0000
    ensures (x - Wrap64(x)) % 0x1_0000_0000_0000_0000 == 0
    ensures -0x8000_0000_0000_0000 <= x < 0x8000_0000_0000_0000 ==> Wrap64(x) == x
  {
    var low := x % TWO_64;
    assert x == TWO_64 * (x / TWO_64) + low;
    if low > MAX_INT64 {
      assert x - Wrap64(x) == TWO_64 * (x / TWO_64 + 1);
      MultipleOf(x - Wrap64(x), x / TWO_64 + 1);
    } else {
      MultipleOf(x - Wrap64(x), x / TWO_64);
    }
  }

  lemma MultipleOf(y: int, q: int)
    requires y == TWO_64 * q
    ensures y % TWO_64 == 0
  {
  }

  /** Attempt 1, and any number below it, has the base for its ceiling; each of the next twenty doubles
      it before it is wrapped; from attempt 21 on it stays. A maximum that is not positive is no delay. */
  lemma CeilingByAttempt(base: int, max: int, attempt: int)
    ensures attempt <= 1 ==> Upper(base, max, attempt) == Clamped(base, max)
    ensures attempt <= 1 && 0 < base <= 0x1000_0000_0000 && 0 < max <= MAX_INT64 ==>
              Upper(base, max, attempt) == if base < max then base else max
    ensures 1 <= attempt <= 20 && 0 < base <= 0x1000_0000_0000 && 0 < max <= MAX_INT64 ==>
              Upper(base, max, attempt + 1) == if 2 * Upper(base, max, attempt) < max then 2 * Upper(base, max, attempt) else max
    ensures attempt >= 21 ==> Upper(base, max, attempt) == Clamped(base * 0x10_0000, max)
    ensures max <= 0 ==> Upper(base, max, attempt) <= 0
  {
    hide Wrap64;
    Pow2Of20();
    assert Pow2(0) == 1;
    if attempt <= 1 && 0 < base <= SAFE_BASE && 0 < max <= MAX_INT64 {
      SafeBaseIsIdeal(base, max, attempt);
    }
    if 1 <= attempt <= 20 && 0 < base <= SAFE_BASE && 0 < max <= MAX_INT64 {
      SafeBaseIsIdeal(base, max, attempt);
      SafeBaseIsIdeal(base, max, attempt + 1);
      assert Pow2(Doublings(attempt + 1)) == 2 * Pow2(Doublings(attempt));
      DoubledProduct(base, Pow2(Doublings(attempt)));
    }
  }

  /** A wrapped product, saturated where it is not positive or past the maximum. */
  function Clamped(product: int, max: int): int
  {
    var p := Wrap64(product);
    if p <= 0 || p > max then max else p
  }

  lemma DoubledProduct(a: int, k: int)
    ensures a * (2 * k) == 2 * (a * k)
  {
  }

  /** For every base the ceiling of attempt k + 1, up to the 21st, is the wrapped base x 2^k. */
  lemma CeilingOfAttempt(base: int, max: int, k: nat)
    requires k <= 20
    ensures Upper(base, max, k + 1) == Clamped(base * Pow2(k), max)
  {
    hide Wrap64, Pow2;
  }
}
