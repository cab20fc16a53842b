/**
 The start-up check that inbox entries outlive the outbox retries. The horizon is computed
 in float64; the model keeps the rounding abstract and uses only that it is exact on
 integers up to 2^53 and monotone.
 */
module Retention {
  import opened Arithmetic

  const TWO_53 := 0x20_0000_0000_0000
  const DEFAULT_RETENTION := 7 * 24 * 3600 * SECOND
  const DEFAULT_MAX_RETRIES := 10

  datatype EventConfig = EventConfig(inbox: bool, outbox: bool, maxRetries: Int64, retention: Int64)

  /** A float64 that can appear here; PosInf is what Pow yields past the exponent range. */
  datatype Float = Finite(value: real) | PosInf

  type Rounding = real -> real

  predicate ExactAt(round: Rounding, n: int) {
    round(n as real) == n as real
  }

  ghost predicate IsRounding(round: Rounding) {
    && (forall n: int | -TWO_53 <= n <= TWO_53 :: ExactAt(round, n))
    && (forall x: real, y: real | x <= y :: round(x) <= round(y))
  }

  /** math.Pow(2, n) for an integer exponent: exact up to 2^1023, zero far below one. */
  function PowOfTwo(n: Int64): Float {
    if n > 1023 then PosInf
    else if n >= 0 then Finite(Pow2(n) as real)
    else Finite(0.0)
  }

  /** The int addition maxRetries + 1, wrapping. */
  function Increment(n: Int64): Int64 {
    if n == MAX_INT64 then MIN_INT64 else n + 1
  }

  function BackoffSeconds(round: Rounding, maxRetries: Int64): Float {
    match PowOfTwo(Increment(maxRetries))
    case PosInf => PosInf
    case Finite(v) => Finite(round(v - 2.0))
  }

  /** Conversion of a float to int truncates toward zero. */
  function Truncate(x: real): int {
    if x >= 0.0 then x.Floor else -((-x).Floor)
  }

  /** MaxInt64 / 1e9 in seconds. */
  const MAX_SECONDS := 9223372036.854775807

  function BackoffHorizon(secs: Float): int {
    if secs.PosInf? || secs.value >= MAX_SECONDS then MAX_INT64 else Truncate(secs.value) * SECOND
  }

  function EffectiveRetention(c: EventConfig): Int64 {
    if c.retention > 0 then c.retention else DEFAULT_RETENTION
  }

  function EffectiveRetries(c: EventConfig): Int64 {
    if c.maxRetries <= 0 then DEFAULT_MAX_RETRIES else c.maxRetries
  }

  function Horizon(round: Rounding, c: EventConfig): int {
    BackoffHorizon(BackoffSeconds(round, EffectiveRetries(c)))
  }

  /** Validate accepts. */
  predicate Accepts(round: Rounding, c: EventConfig) {
    !c.inbox || !c.outbox || EffectiveRetention(c) > Horizon(round, c)
  }

  // ---------------------------------------------------------------- what the check is for

  /** The longest a delivery can be delayed: 2^1 + ... + 2^n seconds. */
  function RetrySum(n: nat): nat {
    if n == 0 then 0 else RetrySum(n - 1) + Pow2(n)
  }

  lemma {:induction false} RetrySumClosedForm(n: nat)
    ensures RetrySum(n) == Pow2(n + 1) - 2
  {
    if n > 0 { RetrySumClosedForm(n - 1); }
  }

  lemma ExactHorizon(round: Rounding, p: int)
    requires IsRounding(round) && 4 <= p <= 0x2_0000_0000
    ensures BackoffHorizon(Finite(round(p as real - 2.0))) == (p - 2) * SECOND
  {
    assert p as real - 2.0 == (p - 2) as real;
    assert ExactAt(round, p - 2);
    assert Truncate((p - 2) as real) == p - 2;
  }

  lemma SaturatedHorizon(round: Rounding, p: int)
    requires IsRounding(round) && p >= 0x4_0000_0000
    ensures BackoffHorizon(Finite(round(p as real - 2.0))) == MAX_INT64
  {
    var least := 0x4_0000_0000 - 2;
    assert least as real <= p as real - 2.0;
    assert ExactAt(round, least);
  }

  /** Up to 32 retries the horizon is exact; from 33 on it saturates, and the true sum is
      beyond every Duration as well. The horizon never wraps. */
  lemma HorizonIsExactOrSaturated(round: Rounding, n: Int64)
    requires IsRounding(round) && 1 <= n < MAX_INT64
    ensures var h := BackoffHorizon(BackoffSeconds(round, n));
      && 0 < h <= MAX_INT64
      && (n <= 32 ==> h == RetrySum(n) * SECOND && h < MAX_INT64)
      && (n >= 33 ==> h == MAX_INT64 && RetrySum(n) * SECOND > MAX_INT64)
  {
    RetrySumClosedForm(n);
    Pow2Values();
    var p := Pow2(n + 1);
    if n <= 32 {
      Pow2Grows(n + 1, 33);
      Pow2Grows(2, n + 1);
      ExactHorizon(round, p);
    } else {
      Pow2Grows(34, n + 1);
      SaturatedHorizon(round, p);
    }
  }

  /** With inbox and outbox enabled, Validate accepts exactly when the retention strictly
      exceeds the sum of the retry delays, for every retry count but the largest int. */
  lemma AcceptsIffRetentionOutlastsRetries(round: Rounding, c: EventConfig)
    requires IsRounding(round) && c.inbox && c.outbox && c.maxRetries != MAX_INT64
    ensures Accepts(round, c) <==> EffectiveRetention(c) > RetrySum(EffectiveRetries(c)) * SECOND
  {
    HorizonIsExactOrSaturated(round, EffectiveRetries(c));
  }

  /** The same by the configured values, with the defaults written out: seven days and ten
      retries stand in for values that are not positive. A configuration without inbox or
      without outbox is always accepted. */
  lemma AcceptsByConfiguredValues(round: Rounding, c: EventConfig)
    requires IsRounding(round) && c.maxRetries != MAX_INT64
    ensures !c.inbox || !c.outbox ==> Accepts(round, c)
    ensures c.inbox && c.outbox ==>
      var retention := if c.retention > 0 then c.retention else 604_800 * 1_000_000_000;
      var retries: nat := if c.maxRetries > 0 then c.maxRetries else 10;
      Accepts(round, c) <==> retention > RetrySum(retries) * 1_000_000_000
  {
    if c.inbox && c.outbox { AcceptsIffRetentionOutlastsRetries(round, c); }
  }

  lemma SumBeyondDuration(n: nat)
    requires n >= 33
    ensures RetrySum(n) * SECOND > MAX_INT64
  {
    RetrySumClosedForm(n);
    Pow2Values();
    Pow2Grows(34, n + 1);
  }

  /** At the largest int the increment wraps, the horizon is minus two seconds, and every
      retention is accepted. */
  lemma LargestRetryCountEscapes(round: Rounding, c: EventConfig)
    requires IsRounding(round) && c.maxRetries == MAX_INT64
    ensures Accepts(round, c)
    ensures c.inbox && c.outbox ==> Horizon(round, c) == -2 * SECOND
    ensures EffectiveRetention(c) < RetrySum(EffectiveRetries(c)) * SECOND
  {
    assert ExactAt(round, -2);
    assert Truncate(-2.0) == -2;
    var n: nat := EffectiveRetries(c);
    SumBeyondDuration(n);
  }
}
