/** `retryNode` of internal/engine/retry.go: the attempt loop, and exponential backoff computed in
    wrapping 64-bit arithmetic. Durations are nanoseconds. */
module Retry {
  import opened Common
  import opened Executor

  const TWO63 := 0x8000_0000_0000_0000
  const TWO64 := 0x1_0000_0000_0000_0000
  const TWO39 := 0x80_0000_0000
  const MAX_BACKOFF := 300_000_000_000  // five minutes

  type Int64 = x: int | -TWO63 <= x < TWO63

  /** Two's complement truncation to 64 bits. */
  function Wrap(x: int): (r: Int64) {
    var u := x % TWO64;
    if u < TWO63 then u else u - TWO64
  }

  function Pow2(n: nat): nat
    ensures Pow2(n) >= 1
  {
    if n == 0 then 1 else 2 * Pow2(n - 1)
  }

  /** The shift `1 << n` on a 64-bit integer. */
  function ShiftOne(n: nat): Int64 {
    if n >= 64 then 0 else Wrap(Pow2(n))
  }

  /** The wait before an attempt. */
  function CurrentDelay(delay: Int64, attempt: nat, exponential: bool): Int64
    requires attempt >= 1
  {
    if !exponential then delay
    else
      Capped(Wrap(delay * ShiftOne(attempt - 1)))
  }

  /** The cap, which also catches overflow into the non-positive range. */
  function Capped(d: Int64): Int64 {
    if d > MAX_BACKOFF || d <= 0 then MAX_BACKOFF else d
  }

  /** What exponential backoff is meant to be; durations may be zero or negative. */
  function ExactDelay(delay: int, attempt: nat): int
    requires attempt >= 1
  {
    var exact := delay * Pow2(attempt - 1);
    if exact < MAX_BACKOFF then exact else MAX_BACKOFF
  }

  // ---------------------------------------------------------------------------
  // Powers of two

  lemma {:induction false} Pow2Splits(a: nat, b: nat)
    ensures Pow2(a + b) == Pow2(a) * Pow2(b)
  {
    if b > 0 { Pow2Splits(a, b - 1); }
  }

  lemma {:induction false} Pow2Grows(a: nat, b: nat)
    requires a <= b
    ensures Pow2(a) <= Pow2(b)
  {
    if a < b { Pow2Grows(a, b - 1); }
  }

  lemma Pow2At16()
    ensures Pow2(16) == 0x1_0000
  {
    assert Pow2(8) == 256;
    Pow2Splits(8, 8);
  }

  lemma Pow2At32()
    ensures Pow2(32) == 0x1_0000_0000
  {
    Pow2At16();
    Pow2Splits(16, 16);
  }

  lemma Pow2At38()
    ensures Pow2(38) == 0x40_0000_0000 && Pow2(39) == TWO39
  {
    Pow2At32();
    Pow2Splits(32, 6);
    assert Pow2(6) == 64;
  }

  lemma Pow2At63()
    ensures Pow2(63) == TWO63
  {
    Pow2At32();
    Pow2Splits(32, 32);
    assert Pow2(64) == 2 * Pow2(63);
  }

  // ---------------------------------------------------------------------------
  // Wrapping

  lemma WrapPeriodic(x: int, k: int)
    ensures Wrap(x + TWO64 * k) == Wrap(x)
  {
    assert (x + TWO64 * k) % TWO64 == x % TWO64;
  }

  /** Shifting first and multiplying after wraps to the same value as the exact product. */
  lemma ShiftedProduct(delay: Int64, n: nat)
    requires n < 64
    ensures Wrap(delay * ShiftOne(n)) == Wrap(delay * Pow2(n))
  {
    if n == 63 {
      Pow2At63();
      TopShift(delay);
    } else {
      SmallShift(n);
    }
  }

  lemma SmallShift(n: nat)
    requires n < 63
    ensures ShiftOne(n) == Pow2(n)
  {
    Pow2Grows(n + 1, 63);
    Pow2At63();
  }

  lemma TopShift(delay: Int64)
    ensures Wrap(delay * Wrap(TWO63)) == Wrap(delay * TWO63)
  {
    var d: int := delay;
    WrapPeriodic(d * TWO63, -d);
  }

  /** A multiple of 2^39 stays one when reduced modulo 2^64. */
  lemma HighMultiple(y: nat)
    ensures (TWO39 * y) % TWO64 == TWO39 * (y % 0x200_0000)
  {
    var q, r := y / 0x200_0000, y % 0x200_0000;
    assert TWO39 * y == TWO64 * q + TWO39 * r;
  }

  /** From the fortieth attempt on, the code always waits the cap, which is right. */
  lemma LateAttempts(delay: Int64, attempt: nat)
    requires delay > 0 && attempt > 39
    ensures CurrentDelay(delay, attempt, true) == MAX_BACKOFF == ExactDelay(delay, attempt)
  {
    var n := attempt - 1;
    LargeProduct(delay, n);
    if n < 64 {
      ShiftedProduct(delay, n);
      var y :| delay * Pow2(n) == TWO39 * y && y >= 1;
      HighCapped(y);
    }
  }

  lemma HighCapped(y: nat)
    ensures Capped(Wrap(TWO39 * y)) == MAX_BACKOFF
  {
    HighMultiple(y);
  }

  lemma LargeProduct(delay: nat, n: nat)
    requires delay > 0 && n >= 39
    ensures exists y: nat :: delay * Pow2(n) == TWO39 * y && y >= 1
  {
    Pow2At38();
    Pow2Splits(39, n - 39);
    var y := delay * Pow2(n - 39);
    assert delay * Pow2(n) == TWO39 * y by { Regroup(delay, TWO39, Pow2(n - 39)); }
    assert y >= 1 by { Positive(delay, Pow2(n - 39)); }
  }

  lemma Regroup(a: int, b: int, c: int)
    ensures a * (b * c) == b * (a * c)
  {
  }

  lemma Positive(a: int, b: int)
    requires a >= 1 && b >= 1
    ensures a * b >= 1
  {
  }

  /** Before that, the product is wrong exactly when it overflows into the range below the cap. */
  lemma EarlyAttempts(delay: Int64, attempt: nat)
    requires delay > 0 && 1 <= attempt <= 39
    ensures CurrentDelay(delay, attempt, true) == ExactDelay(delay, attempt)
            <==> !OverflowsBelowCap(delay, attempt - 1)
  {
    ShiftedProduct(delay, attempt - 1);
    Positive(delay, Pow2(attempt - 1));
    CappedProduct(delay * Pow2(attempt - 1));
  }

  lemma CappedProduct(x: nat)
    requires x >= 1
    ensures Capped(Wrap(x)) == (if x < MAX_BACKOFF then x else MAX_BACKOFF)
            <==> !(x >= TWO64 && 0 < x % TWO64 < MAX_BACKOFF)
  {
  }

  /** The product no longer fits 64 bits, and what is left of it is positive and below the cap. */
  predicate OverflowsBelowCap(delay: int, n: nat) {
    var x := delay * Pow2(n);
    x >= TWO64 && 0 < x % TWO64 < MAX_BACKOFF
  }

  /** A delay that is not positive is exact at no first attempt: the cap takes its place. */
  lemma NonPositiveWaitsCap(delay: Int64)
    requires delay <= 0
    ensures CurrentDelay(delay, 1, true) == MAX_BACKOFF && ExactDelay(delay, 1) == delay
  {
    assert ShiftOne(0) == 1;
  }

  /** With a delay of zero every attempt waits five minutes instead of nothing. */
  lemma ZeroDelayWaitsCap(attempt: nat)
    requires attempt >= 1
    ensures CurrentDelay(0, attempt, true) == MAX_BACKOFF && ExactDelay(0, attempt) == 0
  {
    var shift: int := ShiftOne(attempt - 1);
    assert 0 * shift == 0 && 0 * Pow2(attempt - 1) == 0;
  }

  /** Exponential backoff is exact at every attempt if and only if the delay is positive and none of
      the first 39 products overflows into the range below the cap. */
  lemma BackoffExactIff(delay: Int64)
    ensures (forall attempt: nat :: attempt >= 1 ==> CurrentDelay(delay, attempt, true) == ExactDelay(delay, attempt))
            <==> (delay > 0 && forall n: nat :: n <= 38 ==> !OverflowsBelowCap(delay, n))
  {
    if delay <= 0 {
      NonPositiveWaitsCap(delay);
    } else {
      PositiveExactIff(delay);
    }
  }

  lemma PositiveExactIff(delay: Int64)
    requires delay > 0
    ensures (forall attempt: nat :: attempt >= 1 ==> CurrentDelay(delay, attempt, true) == ExactDelay(delay, attempt))
            <==> (forall n: nat :: n <= 38 ==> !OverflowsBelowCap(delay, n))
  {
    if forall n: nat :: n <= 38 ==> !OverflowsBelowCap(delay, n) {
      forall attempt: nat | attempt >= 1 ensures CurrentDelay(delay, attempt, true) == ExactDelay(delay, attempt) {
        if attempt > 39 { LateAttempts(delay, attempt); } else { EarlyAttempts(delay, attempt); }
      }
    }
    if forall attempt: nat :: attempt >= 1 ==> CurrentDelay(delay, attempt, true) == ExactDelay(delay, attempt) {
      forall n: nat | n <= 38 ensures !OverflowsBelowCap(delay, n) {
        EarlyAttempts(delay, n + 1);
      }
    }
  }

  /** A delay whose odd part is below 2^26 never goes wrong: any product that overflows is a
      multiple of 2^39. */
  lemma SmallOddPartIsExact(odd: nat, k: nat, attempt: nat)
    requires 1 <= odd < 0x400_0000 && odd * Pow2(k) < TWO63 && attempt >= 1
    ensures var delay: Int64 := odd * Pow2(k);
            delay > 0 && CurrentDelay(delay, attempt, true) == ExactDelay(delay, attempt)
  {
    Positive(odd, Pow2(k));
    if attempt > 39 {
      LateAttempts(odd * Pow2(k), attempt);
    } else {
      SmallOddPartProduct(odd, k, attempt - 1);
      EarlyAttempts(odd * Pow2(k), attempt);
    }
  }

  lemma SmallOddPartProduct(odd: nat, k: nat, n: nat)
    requires 1 <= odd < 0x400_0000 && n <= 38
    ensures !OverflowsBelowCap(odd * Pow2(k), n)
  {
    Pow2Splits(k, n);
    assert odd * Pow2(k) * Pow2(n) == odd * Pow2(k + n) by { Associate(odd, Pow2(k), Pow2(n)); }
    if k + n >= 39 {
      LargeProduct(odd, k + n);
      var y :| odd * Pow2(k + n) == TWO39 * y && y >= 1;
      HighMultiple(y);
    } else {
      Pow2Grows(k + n, 38);
      Pow2At38();
      assert odd * Pow2(k + n) <= 0x3ff_ffff * 0x40_0000_0000 by { Bounded(odd, 0x3ff_ffff, Pow2(k + n), 0x40_0000_0000); }
    }
  }

  lemma Associate(a: int, b: int, c: int)
    ensures a * b * c == a * (b * c)
  {
  }

  lemma Bounded(a: nat, a': nat, b: nat, b': nat)
    requires a <= a' && b <= b'
    ensures a * b <= a' * b'
  {
    assert a * b <= a' * b <= a' * b';
  }

  /** The bound is sharp: with a delay of 2^26 + 1 nanoseconds the 39th attempt waits 2^38
      nanoseconds instead of the cap. */
  lemma BackoffCanFallBelowCap()
    ensures CurrentDelay(0x400_0001, 39, true) == 0x40_0000_0000
    ensures ExactDelay(0x400_0001, 39) == MAX_BACKOFF
  {
    Pow2At38();
    ShiftedProduct(0x400_0001, 38);
  }

  // ---------------------------------------------------------------------------
  // The attempt loop

  /** An attempt that leads to another one: the wait was not cut short and the node failed again. */
  predicate FailsAgain(replies: nat -> Attempt, cut: nat -> bool, attempt: nat) {
    !cut(attempt) && replies(attempt) == Output("error")
  }

  /** The configured delay; one that cannot be parsed counts as a second. */
  function Configured(delay: Option<Int64>): Int64 {
    if delay.Some? then delay.value else 1_000_000_000
  }

  /** Re-executes a node: `cut(k)` says whether the context ends during the wait before attempt `k`,
      and `replies(k)` is what dispatching the node at attempt `k` returns. Every attempt but the
      last failed again; the result is that of the last attempt, or "error" if the wait was cut short
      or no attempt is allowed. Every wait is the configured delay, or with exponential backoff a
      positive one up to the cap. */
  method RetryNode(parsed: Option<Int64>, attempts: int, backoff: string, replies: nat -> Attempt, cut: nat -> bool)
    returns (r: Attempt, waits: seq<Int64>)
    ensures |waits| <= if attempts > 0 then attempts else 0
    ensures backoff != "exponential" ==> forall i :: 0 <= i < |waits| ==> waits[i] == Configured(parsed)
    ensures backoff == "exponential" ==> forall i :: 0 <= i < |waits| ==>
      0 < waits[i] <= MAX_BACKOFF && waits[i] == CurrentDelay(Configured(parsed), i + 1, true)
    ensures forall k :: 1 <= k < |waits| ==> FailsAgain(replies, cut, k)
    ensures |waits| < attempts ==> |waits| > 0 && !FailsAgain(replies, cut, |waits|)
    ensures r == if |waits| > 0 && !cut(|waits|) then replies(|waits|) else Output("error")
  {
    var delay: Int64 := if parsed.Some? then parsed.value else 1_000_000_000;
    waits := [];
    var attempt := 1;
    while attempt <= attempts
      invariant 1 <= attempt && |waits| == attempt - 1
      invariant attempt <= attempts + 1 || attempt == 1
      invariant forall i :: 0 <= i < |waits| ==> waits[i] == CurrentDelay(delay, i + 1, backoff == "exponential")
      invariant forall k :: 1 <= k <= |waits| ==> FailsAgain(replies, cut, k)
    {
      var currentDelay := delay;
      if backoff == "exponential" {
        currentDelay := Wrap(delay * ShiftOne(attempt - 1));
        if currentDelay > MAX_BACKOFF || currentDelay <= 0 { currentDelay := MAX_BACKOFF; }
      }
      waits := waits + [currentDelay];
      if cut(attempt) { return Output("error"), waits; }
      r := replies(attempt);
      if r != Output("error") { return; }
      attempt := attempt + 1;
    }
    r := Output("error");
    assert |waits| > 0 ==> FailsAgain(replies, cut, |waits|);
  }
}
