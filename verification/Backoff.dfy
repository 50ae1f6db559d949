/** The retry delay of `RetryConfig::next_delay_ms`: saturating 64-bit arithmetic,
    set against the same formula over unbounded integers. */
module Backoff {
  import opened Prelude

  const U64_MAX: nat := 0xFFFF_FFFF_FFFF_FFFF

  /** `jitter` is the f64 of the source, read as an exact real. */
  datatype RetryConfig = RetryConfig(maxRetries: u32, baseBackoffMs: u64, maxBackoffMs: u64, jitter: real)

  function Min(a: int, b: int): int {
    if a <= b then a else b
  }

  function Pow2(n: nat): nat {
    if n == 0 then 1 else 2 * Pow2(n - 1)
  }

  /** The saturating operations clamp the exact result to the largest u64. */
  function Saturate(x: nat): u64 {
    if x <= U64_MAX then x else U64_MAX
  }

  /** Rust's `as u64` from a float: truncate, clamping at both ends. */
  function CastToU64(r: real): u64 {
    if r < 0.0 then 0 else Saturate(r.Floor)
  }

  /** The last four lines of the code, from the capped delay on. */
  function AddJitter(capped: u64, jitter: real, retryCount: u32, max: u64): u64 {
    var jitterRange := CastToU64(capped as real * jitter);
    var withJitter := if jitterRange > 0 then Saturate(capped + retryCount * 7 % jitterRange) else capped;
    Min(withJitter, max)
  }

  /** The code, with its own order of saturations and caps. */
  function NextDelayMs(c: RetryConfig, retryCount: u32): u64 {
    AddJitter(CappedBase(c, retryCount), c.jitter, retryCount, c.maxBackoffMs)
  }

  function CappedBase(c: RetryConfig, retryCount: u32): u64 {
    var base := Saturate(c.baseBackoffMs * Saturate(Pow2(retryCount)));
    Min(base, c.maxBackoffMs)
  }

  /** min(base * 2^n, max) over unbounded integers. */
  function Capped(c: RetryConfig, n: nat): nat {
    Min(c.baseBackoffMs * Pow2(n), c.maxBackoffMs)
  }

  function JitterRange(capped: nat, jitter: real): int {
    (capped as real * jitter).Floor
  }

  function Spread(n: nat, range: int): nat {
    if range > 0 then n * 7 % range else 0
  }

  /** The documented formula, with no fixed-width arithmetic at all. */
  function IdealDelay(c: RetryConfig, n: nat): nat {
    Jittered(Capped(c, n), c.jitter, n, c.maxBackoffMs)
  }

  function Jittered(capped: nat, jitter: real, n: nat, max: nat): nat {
    Min(capped + Spread(n, JitterRange(capped, jitter)), max)
  }

  lemma {:induction false} Pow2Positive(n: nat)
    ensures Pow2(n) >= 1
  {
    if n > 0 { Pow2Positive(n - 1); }
  }

  lemma SaturatedBaseCaps(base: u64, pow: nat, max: u64)
    requires pow >= 1
    ensures Min(Saturate(base * Saturate(pow)), max) == Min(base * pow, max)
  {
    if pow > U64_MAX && base > 0 {
      assert base * U64_MAX >= U64_MAX;
      assert base * pow >= pow;
    }
  }

  lemma CappedBaseIsExact(c: RetryConfig, n: u32)
    ensures CappedBase(c, n) == Capped(c, n)
  {
    Pow2Positive(n);
    SaturatedBaseCaps(c.baseBackoffMs, Pow2(n), c.maxBackoffMs);
  }

  lemma CastKeepsRemainder(r: real, x: nat)
    requires x < U64_MAX
    ensures CastToU64(r) > 0 <==> r.Floor > 0
    ensures r.Floor > 0 ==> x % CastToU64(r) == x % r.Floor
  {
    if r.Floor > U64_MAX {
      RemainderBound(x, r.Floor);
      RemainderBound(x, U64_MAX);
    }
  }

  lemma AddJitterIsExact(capped: u64, jitter: real, n: u32, max: u64)
    ensures AddJitter(capped, jitter, n, max) == Jittered(capped, jitter, n, max)
  {
    CastKeepsRemainder(capped as real * jitter, n * 7);
  }

  /** Every saturation in the code is invisible: the result is the ideal one for
      every u32 attempt number and every jitter, even a negative or huge one. */
  lemma NextDelayIsIdeal(c: RetryConfig, n: u32)
    ensures NextDelayMs(c, n) == IdealDelay(c, n)
  {
    CappedBaseIsExact(c, n);
    AddJitterIsExact(CappedBase(c, n), c.jitter, n, c.maxBackoffMs);
  }

  lemma JitteredSpelledOut(base: nat, jitter: real, n: nat, max: nat)
    ensures
      var range := (base as real * jitter).Floor;
      var delay := base + if range > 0 then n * 7 % range else 0;
      Jittered(base, jitter, n, max) == if delay <= max then delay else max
  {
  }

  /** The delay in one formula: base * 2^n, plus 7n modulo the jitter range when there is one,
      cut off at the cap. */
  lemma DelaySpelledOut(c: RetryConfig, n: u32, base: nat)
    requires base == c.baseBackoffMs * Pow2(n) && base <= c.maxBackoffMs
    ensures
      var range := (base as real * c.jitter).Floor;
      var delay := base + if range > 0 then n * 7 % range else 0;
      NextDelayMs(c, n) == if delay <= c.maxBackoffMs then delay else c.maxBackoffMs
  {
    NextDelayIsIdeal(c, n);
    JitteredSpelledOut(base, c.jitter, n, c.maxBackoffMs);
  }

  /** Without jitter: base * 2^n up to the cap, and the cap from there on. */
  lemma DelayWithoutJitter(c: RetryConfig, n: u32)
    requires c.jitter == 0.0
    ensures c.baseBackoffMs * Pow2(n) <= c.maxBackoffMs ==> NextDelayMs(c, n) == c.baseBackoffMs * Pow2(n)
    ensures c.baseBackoffMs * Pow2(n) >= c.maxBackoffMs ==> NextDelayMs(c, n) == c.maxBackoffMs
  {
    NextDelayIsIdeal(c, n);
  }

  /** From the cap on the jitter makes no difference. */
  lemma DelayAtCap(c: RetryConfig, n: u32)
    requires c.baseBackoffMs * Pow2(n) >= c.maxBackoffMs
    ensures NextDelayMs(c, n) == c.maxBackoffMs
  {
    NextDelayIsIdeal(c, n);
  }

  lemma DelayWithinBounds(c: RetryConfig, n: u32)
    ensures Capped(c, n) <= NextDelayMs(c, n) <= c.maxBackoffMs
  {
    NextDelayIsIdeal(c, n);
  }

  /** A remainder is small on two counts: below the divisor, and at most x - j once j fits. */
  lemma RemainderBound(x: nat, j: nat)
    requires j > 0
    ensures x % j < j
    ensures j <= x ==> x % j <= x - j
    ensures j > x ==> x % j == x
  {
    if j <= x {
      assert x % j == x - j * (x / j);
      assert x / j >= 1;
      assert j * (x / j) >= j;
    }
  }

  lemma {:induction false} Pow2Dominates(n: nat)
    requires n >= 6
    ensures Pow2(n) >= 7 * n
  {
    if n == 6 {
      assert Pow2(6) == 2 * 2 * Pow2(4) == 16 * Pow2(2) == 64;
    } else {
      Pow2Dominates(n - 1);
    }
  }

  lemma SmallPowers()
    ensures Pow2(1) == 2 && Pow2(2) == 4 && Pow2(3) == 8 && Pow2(4) == 16 && Pow2(5) == 32
  {
    assert Pow2(3) == 2 * Pow2(2);
    assert Pow2(5) == 2 * Pow2(4);
  }

  /** The only attempts whose jitter can exceed their uncapped delay are 1, 2 and 3 with base 1. */
  lemma JitterAboveBaseIsRare(base: nat, n: nat, j: nat)
    requires base >= 1 && 0 < j <= n * 7
    requires n * 7 % j > base * Pow2(n)
    ensures (n == 1 && j == 4) || (n == 2 && 8 <= j <= 9) || (n == 3 && 11 <= j <= 12)
  {
    RemainderBound(n * 7, j);
    Pow2Positive(n);
    assert base * Pow2(n) >= Pow2(n);
    SmallPowers();
    if n >= 6 {
      Pow2Dominates(n);
    } else if n == 2 {
      assert j == 6 || j == 7 || j == 8 || j == 9;
    } else if n == 3 {
      assert j == 10 || j == 11 || j == 12;
    }
  }

  lemma RareJitterFits(n: nat, j: nat, j': nat)
    requires (n == 1 && j == 4) || (n == 2 && 8 <= j <= 9) || (n == 3 && 11 <= j <= 12)
    requires 2 * j <= j' <= 2 * j + 1
    ensures n * 7 % j <= Pow2(n) + (n + 1) * 7 % j'
  {
    SmallPowers();
    if n == 1 {
      assert 14 % j' == 14 % 8 || 14 % j' == 14 % 9;
    } else if n == 2 {
      assert 14 % j == 14 % 8 || 14 % j == 14 % 9;
      assert 21 % j' >= 2 by { assert j' == 16 || j' == 17 || j' == 18 || j' == 19; }
    } else {
      assert 21 % j == 21 % 11 || 21 % j == 21 % 12;
      assert 28 % j' >= 2 by { assert j' == 22 || j' == 23 || j' == 24 || j' == 25; }
    }
  }

  /** Doubling the delay leaves room for the previous attempt's jitter. */
  lemma JitterStepFits(base: nat, n: nat, j: nat, j': nat)
    requires base >= 1 && 0 < j && 2 * j <= j' <= 2 * j + 1
    ensures base * Pow2(n) + n * 7 % j <= base * Pow2(n + 1) + (n + 1) * 7 % j'
  {
    var c := base * Pow2(n);
    assert base * Pow2(n + 1) == 2 * c;
    RemainderBound(n * 7, j);
    RemainderBound((n + 1) * 7, j');
    if n * 7 % j > c && j <= n * 7 {
      JitterAboveBaseIsRare(base, n, j);
      RareJitterFits(n, j, j');
      Pow2Positive(n);
      assert c >= Pow2(n);
    }
  }

  lemma FloorOfDouble(r: real)
    ensures 2 * r.Floor <= (2.0 * r).Floor <= 2 * r.Floor + 1
  {
  }

  lemma JitterRangeDoubles(capped: nat, jitter: real)
    ensures 2 * JitterRange(capped, jitter) <= JitterRange(2 * capped, jitter) <= 2 * JitterRange(capped, jitter) + 1
  {
    FloorOfDouble(capped as real * jitter);
    assert (2 * capped) as real * jitter == 2.0 * (capped as real * jitter);
  }

  lemma SpreadStep(base: nat, n: nat, jitter: real)
    requires base >= 1
    ensures base * Pow2(n) + Spread(n, JitterRange(base * Pow2(n), jitter))
         <= base * Pow2(n + 1) + Spread(n + 1, JitterRange(base * Pow2(n + 1), jitter))
  {
    var capped := base * Pow2(n);
    assert base * Pow2(n + 1) == 2 * capped;
    JitterRangeDoubles(capped, jitter);
    if JitterRange(capped, jitter) > 0 {
      JitterStepFits(base, n, JitterRange(capped, jitter), JitterRange(2 * capped, jitter));
    }
  }

  lemma DelayStep(c: RetryConfig, n: nat)
    ensures IdealDelay(c, n) <= IdealDelay(c, n + 1)
  {
    if Capped(c, n + 1) < c.maxBackoffMs && c.baseBackoffMs >= 1 {
      assert c.baseBackoffMs * Pow2(n) <= c.baseBackoffMs * Pow2(n + 1) by { Doubling(c.baseBackoffMs, n); }
      SpreadStep(c.baseBackoffMs, n, c.jitter);
    } else if c.baseBackoffMs == 0 {
      assert Capped(c, n) == 0 && Capped(c, n + 1) == 0;
    }
  }

  lemma Doubling(base: nat, n: nat)
    ensures base * Pow2(n) <= base * Pow2(n + 1)
  {
    assert base * Pow2(n + 1) == 2 * (base * Pow2(n));
  }

  lemma {:induction false} IdealDelayMonotone(c: RetryConfig, n: nat, m: nat)
    requires n <= m
    ensures IdealDelay(c, n) <= IdealDelay(c, m)
    decreases m
  {
    if n < m {
      IdealDelayMonotone(c, n, m - 1);
      DelayStep(c, m - 1);
    }
  }

  /** Later attempts never wait less, for every base, cap and jitter. */
  lemma DelayMonotone(c: RetryConfig, n: u32, m: u32)
    requires n <= m
    ensures NextDelayMs(c, n) <= NextDelayMs(c, m)
  {
    NextDelayIsIdeal(c, n);
    NextDelayIsIdeal(c, m);
    IdealDelayMonotone(c, n, m);
  }
}
