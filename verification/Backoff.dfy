/** The two exponential backoffs of the runtime, with their 64-bit saturating arithmetic. */
module Backoff {
  import opened Prelude

  const U32_MAX: nat := 0xFFFF_FFFF
  const U64_MAX: nat := 0xFFFF_FFFF_FFFF_FFFF

  function SaturatingMul(a: nat, b: nat): nat {
    Min(a * b, U64_MAX)
  }

  function SaturatingPow(b: nat, e: nat): nat {
    if e == 0 then 1 else SaturatingMul(SaturatingPow(b, e - 1), b)
  }

  function SaturatingPred(n: nat): nat {
    if n == 0 then 0 else n - 1
  }

  datatype BackoffStrategy =
    | NoBackoff
    | Constant(ms: nat)
    | Linear(baseMs: nat)
    | Exponential(base: nat, max: nat)

  /** The delay of the retry policy. */
  function DelayMs(b: BackoffStrategy, attempt: nat): nat {
    match b
    case NoBackoff => 0
    case Constant(ms) => ms
    case Linear(base) => SaturatingMul(base, attempt)
    case Exponential(base, max) =>
      var exp := SaturatingPow(2, Min(SaturatingPred(attempt), 20));
      Min(SaturatingMul(base, exp), max)
  }

  /** The delay of the recovery policy; shifting a 64-bit one by at most 20 loses nothing. */
  function BackoffDelay(base: nat, max: nat, attempt: nat): nat {
    if attempt == 0 then 0 else
    var shift := Min(SaturatingPred(attempt), 20);
    Min(SaturatingMul(base, Pow2(shift)), max)
  }

  lemma Pow2Of20()
    ensures Pow2(20) == 0x10_0000
  {
    assert Pow2(5) == 32;
    assert Pow2(10) == 1024;
    assert Pow2(15) == 0x8000;
  }

  lemma {:induction false} PowDoesNotSaturate(e: nat)
    requires e <= 20
    ensures SaturatingPow(2, e) == Pow2(e)
  {
    Pow2Monotone(e, 20);
    Pow2Of20();
    if e > 0 {
      PowDoesNotSaturate(e - 1);
    }
  }

  /** What both are meant to be, on unbounded integers. */
  function IdealDelay(base: nat, max: nat, attempt: nat): nat
    requires attempt >= 1
  {
    Min(base * Pow2(Min(attempt - 1, 20)), max)
  }

  /** From the first attempt on both backoffs are the ideal one: saturation is invisible behind the cap. */
  lemma BackoffsAreIdeal(base: nat, max: nat, attempt: nat)
    requires base <= U64_MAX && max <= U64_MAX && attempt >= 1
    ensures DelayMs(Exponential(base, max), attempt) == IdealDelay(base, max, attempt)
    ensures BackoffDelay(base, max, attempt) == IdealDelay(base, max, attempt)
    ensures IdealDelay(base, max, attempt) <= max
  {
    PowDoesNotSaturate(Min(attempt - 1, 20));
  }

  /** They part only before the first attempt, where one waits and the other does not. */
  lemma BackoffsAgreeIff(base: nat, max: nat, attempt: nat)
    requires base <= U64_MAX && max <= U64_MAX
    ensures DelayMs(Exponential(base, max), attempt) == BackoffDelay(base, max, attempt)
       <==> attempt >= 1 || base == 0 || max == 0
  {
    if attempt >= 1 {
      BackoffsAreIdeal(base, max, attempt);
    } else {
      assert SaturatingPow(2, 0) == 1;
    }
  }

  /** Waiting never gets shorter from one attempt to a later one. */
  lemma BackoffMonotone(base: nat, max: nat, a: nat, b: nat)
    requires base <= U64_MAX && max <= U64_MAX && a <= b
    ensures BackoffDelay(base, max, a) <= BackoffDelay(base, max, b)
    ensures DelayMs(Exponential(base, max), a) <= DelayMs(Exponential(base, max), b)
  {
    if b > 0 {
      IdealMonotone(base, max, Max(a, 1), b);
      BackoffsAreIdeal(base, max, Max(a, 1));
      BackoffsAreIdeal(base, max, b);
    }
  }

  lemma IdealMonotone(base: nat, max: nat, a: nat, b: nat)
    requires 1 <= a <= b
    ensures IdealDelay(base, max, a) <= IdealDelay(base, max, b)
  {
    hide Pow2;
    Pow2Monotone(Min(a - 1, 20), Min(b - 1, 20));
    ScaleKeepsOrder(Pow2(Min(a - 1, 20)), Pow2(Min(b - 1, 20)), base);
  }

  predicate FitsU64(b: BackoffStrategy) {
    match b
    case NoBackoff => true
    case Constant(ms) => ms <= U64_MAX
    case Linear(base) => base <= U64_MAX
    case Exponential(base, max) => base <= U64_MAX && max <= U64_MAX
  }

  /** The backoff no longer grows after `attempt`: it is flat, or has met its ceiling. */
  predicate Levelled(b: BackoffStrategy, attempt: nat) {
    match b
    case NoBackoff => true
    case Constant(_) => true
    case Linear(base) => base == 0 || base * attempt >= U64_MAX
    case Exponential(base, max) => attempt == 0 || attempt >= 21 || base == 0 || base * Pow2(attempt - 1) >= max
  }

  /** One attempt later the delay is the same exactly when the backoff has levelled out. */
  lemma NextDelaySameIff(b: BackoffStrategy, attempt: nat)
    requires FitsU64(b)
    ensures DelayMs(b, attempt + 1) == DelayMs(b, attempt) <==> Levelled(b, attempt)
  {
    match b
    case NoBackoff =>
    case Constant(_) =>
    case Linear(base) => LinearStep(base, attempt);
    case Exponential(base, max) =>
      if attempt > 0 {
        hide DelayMs;
        BackoffsAreIdeal(base, max, attempt);
        BackoffsAreIdeal(base, max, attempt + 1);
        if attempt < 21 {
          ExponentialStep(base, max, attempt);
        }
      }
  }

  lemma LinearStep(base: nat, attempt: nat)
    requires base <= U64_MAX
    ensures SaturatingMul(base, attempt + 1) == SaturatingMul(base, attempt) <==> base == 0 || base * attempt >= U64_MAX
  {
    assert base * (attempt + 1) == base * attempt + base;
  }

  lemma ExponentialStep(base: nat, max: nat, attempt: nat)
    requires 1 <= attempt < 21
    ensures IdealDelay(base, max, attempt + 1) == IdealDelay(base, max, attempt) <==> base == 0 || base * Pow2(attempt - 1) >= max
  {
    var p := Pow2(attempt - 1);
    assert Pow2(attempt) == 2 * p && p >= 1;
    assert base * (2 * p) == base * p + base * p;
    assert base > 0 ==> base * p > 0;
  }
}
