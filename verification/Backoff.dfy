/** Retry delays in 64-bit nanoseconds, with Go's wrap-around made explicit. */
module Backoff {

  const MILLISECOND: int := 1_000_000
  const MAX_INT64: int := 0x7FFF_FFFF_FFFF_FFFF
  const TWO_64: int := 0x1_0000_0000_0000_0000

  /** A retry policy: base delay and cap in milliseconds, and how delays grow. */
  datatype Policy = Policy(delay: int, backoff: string, maxDelay: int, jitter: bool)

  predicate InInt64(x: int) {
    -MAX_INT64 - 1 <= x <= MAX_INT64
  }

  /** The 64-bit two's complement value congruent to x. */
  function Wrap64(x: int): (w: int)
    ensures InInt64(w) && (InInt64(x) ==> w == x)
  {
    (x + MAX_INT64 + 1) % TWO_64 - MAX_INT64 - 1
  }

  function Pow2(e: nat): (p: nat)
    ensures p >= 1
  {
    if e == 0 then 1 else 2 * Pow2(e - 1)
  }

  /** The multiplier of exponential backoff. Converting a float of 2^63 or more to an
      integer is left to the hardware, so its result is a parameter. */
  function Doubling(attempt: nat, huge: int): int
    requires attempt >= 1
  {
    if attempt - 1 < 63 then Pow2(attempt - 1) else huge
  }

  function Uncapped(p: Policy, attempt: nat, huge: int): int
    requires attempt >= 1
  {
    var base := Wrap64(p.delay * MILLISECOND);
    if p.backoff == "linear" then Wrap64(attempt * base)
    else if p.backoff == "exponential" then Wrap64(Doubling(attempt, huge) * base)
    else base
  }

  /** The delay before jitter is added. */
  function PreJitter(p: Policy, attempt: nat, huge: int): int
    requires attempt >= 1
  {
    Capped(Uncapped(p, attempt, huge), p.maxDelay)
  }

  function Capped(delay: int, maxDelay: int): int {
    var cap := Wrap64(maxDelay * MILLISECOND);
    if maxDelay > 0 && delay > cap then cap else delay
  }

  /** The exclusive bound of the random jitter; drawing panics unless it is positive. */
  function JitterBound(delay: int): int {
    if delay >= 0 then delay / 10 else -(-delay / 10)
  }

  predicate Jitters(p: Policy, delay: int) {
    p.jitter && delay > 0
  }

  /** The whole computation, for the number drawn when jitter applies. */
  function ComputeDelay(p: Policy, attempt: nat, huge: int, draw: int): int
    requires attempt >= 1
  {
    var delay := PreJitter(p, attempt, huge);
    if Jitters(p, delay) then Wrap64(delay + draw) else delay
  }

  // ---------------------------------------------------------------------------
  // The intended delays
  // ---------------------------------------------------------------------------

  /** The delay over the integers, before cap and jitter. */
  function Ideal(p: Policy, attempt: nat): int
    requires attempt >= 1
  {
    var base := p.delay * MILLISECOND;
    if p.backoff == "linear" then attempt * base
    else if p.backoff == "exponential" then Pow2(attempt - 1) * base
    else base
  }

  lemma {:induction false} Pow2Monotone(a: nat, b: nat)
    requires a <= b
    ensures Pow2(a) <= Pow2(b)
    decreases b
  {
    if a < b {
      Pow2Monotone(a, b - 1);
    }
  }

  lemma Pow2Large()
    ensures Pow2(63) == MAX_INT64 + 1
  {
    assert Pow2(8) == 256;
    assert Pow2(16) == 0x1_0000;
    assert Pow2(24) == 0x100_0000;
    assert Pow2(32) == 0x1_0000_0000;
    assert Pow2(40) == 0x100_0000_0000;
    assert Pow2(48) == 0x1_0000_0000_0000;
    assert Pow2(56) == 0x100_0000_0000_0000;
  }

  lemma IdealAtLeastBase(p: Policy, attempt: nat)
    requires attempt >= 1 && p.delay > 0
    ensures Ideal(p, attempt) >= p.delay * MILLISECOND > 0
  {
    var base := p.delay * MILLISECOND;
    assert attempt * base >= base;
    assert Pow2(attempt - 1) * base >= base;
  }

  lemma LargePowerOverflows(e: nat, base: int)
    requires e >= 63 && base >= 1
    ensures Pow2(e) * base > MAX_INT64
  {
    Pow2Large();
    Pow2Monotone(63, e);
    assert Pow2(e) * base >= Pow2(e);
  }

  /** The computed delay is the intended one exactly while that fits in 64 bits. */
  lemma UncappedExactIffFits(p: Policy, attempt: nat, huge: int)
    requires attempt >= 1 && p.delay > 0
    ensures Uncapped(p, attempt, huge) == Ideal(p, attempt) <==> Ideal(p, attempt) <= MAX_INT64
  {
    IdealAtLeastBase(p, attempt);
    if Ideal(p, attempt) <= MAX_INT64 {
      var base := p.delay * MILLISECOND;
      assert Wrap64(base) == base;
      if p.backoff == "exponential" && attempt - 1 >= 63 {
        LargePowerOverflows(attempt - 1, base);
      }
    }
  }

  /** A delay whose products fit in 64 bits, also when a cap is set. */
  predicate Fits(p: Policy, attempt: nat)
    requires attempt >= 1
  {
    && p.delay > 0 && Ideal(p, attempt) <= MAX_INT64
    && (p.maxDelay > 0 ==> p.maxDelay * MILLISECOND <= MAX_INT64)
  }

  /** The intended delay cut at a positive cap. */
  function CappedIdeal(p: Policy, attempt: nat): int
    requires attempt >= 1
  {
    if p.maxDelay > 0 && Ideal(p, attempt) > p.maxDelay * MILLISECOND
    then p.maxDelay * MILLISECOND else Ideal(p, attempt)
  }

  /** The delay before jitter is the intended one cut at a positive cap. */
  lemma PreJitterIsCappedIdeal(p: Policy, attempt: nat, huge: int)
    requires attempt >= 1 && Fits(p, attempt)
    ensures PreJitter(p, attempt, huge) == CappedIdeal(p, attempt) <= Ideal(p, attempt)
    ensures PreJitter(p, attempt, huge) > 0
    ensures p.maxDelay > 0 ==> PreJitter(p, attempt, huge) <= p.maxDelay * MILLISECOND
  {
    UncappedExactIffFits(p, attempt, huge);
    IdealAtLeastBase(p, attempt);
  }

  lemma IdealGrows(p: Policy, attempt: nat)
    requires attempt >= 1 && p.delay > 0
    ensures Ideal(p, attempt) <= Ideal(p, attempt + 1)
  {
    var base := p.delay * MILLISECOND;
    assert (attempt + 1) * base == attempt * base + base;
    assert Pow2(attempt) * base == Pow2(attempt - 1) * base + Pow2(attempt - 1) * base;
  }

  /** Delays before jitter never shrink from one attempt to the next. */
  lemma PreJitterGrows(p: Policy, attempt: nat, huge: int)
    requires attempt >= 1 && Fits(p, attempt + 1)
    ensures PreJitter(p, attempt, huge) <= PreJitter(p, attempt + 1, huge)
  {
    IdealGrows(p, attempt);
    PreJitterIsCappedIdeal(p, attempt, huge);
    PreJitterIsCappedIdeal(p, attempt + 1, huge);
  }

  /** Outside the range the law fails: a linear delay can wrap to a negative one. */
  lemma OverflowGoesNegative()
    ensures var p := Policy(4_611_686_018_427, "linear", 0, false);
            Uncapped(p, 2, 0) > 0 && Uncapped(p, 3, 0) < 0
  {
  }

  // ---------------------------------------------------------------------------
  // Jitter
  // ---------------------------------------------------------------------------

  lemma MulKeepsMultiple(a: int, b: int)
    requires b % 64 == 0
    ensures (a * b) % 64 == 0
  {
    var k := b / 64;
    assert b == 64 * k;
    assert a * b == 64 * (a * k);
  }

  lemma WrapKeepsMultiple(x: int)
    requires x % 64 == 0
    ensures Wrap64(x) % 64 == 0
  {
    var q := (x + MAX_INT64 + 1) / TWO_64;
    assert Wrap64(x) == x - TWO_64 * q;
  }

  lemma WrappedProduct(a: int, b: int)
    requires b % 64 == 0
    ensures Wrap64(a * b) % 64 == 0
  {
    MulKeepsMultiple(a, b);
    WrapKeepsMultiple(a * b);
  }

  lemma ProductIsMultiple(factor: int, milliseconds: int)
    ensures Wrap64(factor * Wrap64(milliseconds * MILLISECOND)) % 64 == 0
    ensures Wrap64(milliseconds * MILLISECOND) % 64 == 0
  {
    WrappedProduct(milliseconds, MILLISECOND);
    WrappedProduct(factor, Wrap64(milliseconds * MILLISECOND));
  }

  lemma UncappedIsMultiple(p: Policy, attempt: nat, huge: int)
    requires attempt >= 1
    ensures Uncapped(p, attempt, huge) % 64 == 0
  {
    ProductIsMultiple(attempt, p.delay);
    ProductIsMultiple(Doubling(attempt, huge), p.delay);
  }

  lemma PositiveMultipleLeavesBound(delay: int)
    requires delay % 64 == 0 && delay > 0
    ensures JitterBound(delay) > 0
  {
    var k := delay / 64;
    assert delay == 64 * k && k >= 1;
  }

  lemma CappedIsMultiple(delay: int, maxDelay: int)
    requires delay % 64 == 0
    ensures Capped(delay, maxDelay) % 64 == 0
  {
    ProductIsMultiple(1, maxDelay);
  }

  /** Whatever wraps around, a positive delay is at least 64 ns, so the bound of the
      random draw is positive and the draw never panics. */
  lemma JitterBoundIsPositive(p: Policy, attempt: nat, huge: int)
    requires attempt >= 1
    ensures PreJitter(p, attempt, huge) > 0 ==> JitterBound(PreJitter(p, attempt, huge)) > 0
  {
    UncappedIsMultiple(p, attempt, huge);
    CappedIsMultiple(Uncapped(p, attempt, huge), p.maxDelay);
    if PreJitter(p, attempt, huge) > 0 {
      PositiveMultipleLeavesBound(PreJitter(p, attempt, huge));
    }
  }

  predicate ExactSum(delay: int, draw: int) {
    Wrap64(delay + draw) == delay + draw
  }

  /** Adding jitter stays exact for every possible draw exactly when the largest sum fits. */
  lemma JitterExactIffFits(delay: int)
    requires InInt64(delay) && JitterBound(delay) > 0
    ensures (forall draw :: 0 <= draw < JitterBound(delay) ==> ExactSum(delay, draw))
            <==> delay + JitterBound(delay) - 1 <= MAX_INT64
  {
    var largest := JitterBound(delay) - 1;
    assert ExactSum(delay, largest) <==> delay + largest <= MAX_INT64;
  }

  /** The delay fits, and with jitter so does its largest sum. */
  predicate Safe(p: Policy, attempt: nat)
    requires attempt >= 1
  {
    && Fits(p, attempt)
    && (p.jitter ==> CappedIdeal(p, attempt) + JitterBound(CappedIdeal(p, attempt)) - 1 <= MAX_INT64)
  }

  /** Jitter adds less than a tenth. */
  lemma DelayWithinBounds(p: Policy, attempt: nat, huge: int, draw: int)
    requires attempt >= 1 && Safe(p, attempt)
    requires Jitters(p, PreJitter(p, attempt, huge)) ==> 0 <= draw < JitterBound(PreJitter(p, attempt, huge))
    ensures PreJitter(p, attempt, huge) <= ComputeDelay(p, attempt, huge, draw)
    ensures 10 * ComputeDelay(p, attempt, huge, draw) < 11 * PreJitter(p, attempt, huge)
    ensures 0 < ComputeDelay(p, attempt, huge, draw)
    ensures 10 * ComputeDelay(p, attempt, huge, draw) < 11 * Ideal(p, attempt)
  {
    PreJitterIsCappedIdeal(p, attempt, huge);
    JitterBoundIsPositive(p, attempt, huge);
  }

  /** With jitter the possible delays are exactly those from the intended one up to, and not
      including, a tenth more; without jitter there is only the intended one. */
  lemma PossibleDelays(p: Policy, attempt: nat, huge: int, x: int)
    requires attempt >= 1 && Safe(p, attempt)
    ensures p.jitter ==>
              ((exists draw :: 0 <= draw < JitterBound(PreJitter(p, attempt, huge)) &&
                               ComputeDelay(p, attempt, huge, draw) == x) <==>
               CappedIdeal(p, attempt) <= x < CappedIdeal(p, attempt) + CappedIdeal(p, attempt) / 10)
    ensures !p.jitter ==> forall draw :: ComputeDelay(p, attempt, huge, draw) == CappedIdeal(p, attempt)
  {
    PreJitterIsCappedIdeal(p, attempt, huge);
    var delay := CappedIdeal(p, attempt);
    if p.jitter && delay <= x < delay + delay / 10 {
      assert ComputeDelay(p, attempt, huge, x - delay) == x;
    }
  }

  // ---------------------------------------------------------------------------
  // The total over a run of attempts
  // ---------------------------------------------------------------------------

  /** The intended waits before attempts 1 to n-1. */
  function IdealTotal(p: Policy, n: nat): int {
    if n <= 1 then 0 else IdealTotal(p, n - 1) + Ideal(p, n - 1)
  }

  lemma Distribute(b: int, x: int, y: int)
    ensures b * (x + y) == b * x + b * y
  {
  }

  lemma NextTriangle(b: int, m: int)
    ensures b * ((m + 1) * m) == b * (m * (m - 1)) + 2 * (m * b)
  {
    Distribute(m, m, 1);
    Distribute(m, m, -1);
    assert (m + 1) * m == m * (m - 1) + 2 * m;
    Distribute(b, m * (m - 1), 2 * m);
    Distribute(b, m, m);
  }

  /** One more attempt, by kind of backoff. */
  lemma LinearStep(p: Policy, m: nat, b: int)
    requires m >= 1 && b == p.delay * MILLISECOND && p.backoff == "linear"
    requires 2 * IdealTotal(p, m) == b * (m * (m - 1))
    ensures 2 * IdealTotal(p, m + 1) == b * ((m + 1) * m)
  {
    assert IdealTotal(p, m + 1) == IdealTotal(p, m) + m * b;
    NextTriangle(b, m);
  }

  lemma ExponentialStep(p: Policy, m: nat, b: int)
    requires m >= 1 && b == p.delay * MILLISECOND && p.backoff == "exponential"
    requires IdealTotal(p, m) == b * (Pow2(m - 1) - 1)
    ensures IdealTotal(p, m + 1) == b * (Pow2(m) - 1)
  {
    var power := Pow2(m - 1);
    assert IdealTotal(p, m + 1) == IdealTotal(p, m) + power * b;
    assert Pow2(m) == 2 * power;
    Distribute(b, power - 1, power);
  }

  lemma ConstantStep(p: Policy, m: nat, b: int)
    requires m >= 1 && b == p.delay * MILLISECOND && p.backoff != "linear" && p.backoff != "exponential"
    requires IdealTotal(p, m) == b * (m - 1)
    ensures IdealTotal(p, m + 1) == b * m
  {
    assert IdealTotal(p, m + 1) == IdealTotal(p, m) + b;
    Distribute(b, m - 1, 1);
  }

  /** In closed form: constant, triangular or doubling, by kind of backoff. */
  lemma {:induction false} IdealTotalClosed(p: Policy, n: nat)
    requires n >= 1
    ensures var b := p.delay * MILLISECOND;
            if p.backoff == "linear" then 2 * IdealTotal(p, n) == b * (n * (n - 1))
            else if p.backoff == "exponential" then IdealTotal(p, n) == b * (Pow2(n - 1) - 1)
            else IdealTotal(p, n) == b * (n - 1)
  {
    if n > 1 {
      var b := p.delay * MILLISECOND;
      IdealTotalClosed(p, n - 1);
      if p.backoff == "linear" {
        LinearStep(p, n - 1, b);
      } else if p.backoff == "exponential" {
        ExponentialStep(p, n - 1, b);
      } else {
        ConstantStep(p, n - 1, b);
      }
    }
  }
}
