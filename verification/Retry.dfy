/** HTTP retries: the backoff arithmetic in 64-bit integers and the attempt loop. */
module Retry {
  import opened Options
  import opened Arithmetic

  /** Two's-complement wrap-around to 64 bits. */
  function Wrap(x: int): (r: Int64)
    ensures (r - x) % TWO_64 == 0
  {
    var m := x % TWO_64;
    if m >= TWO_63 then m - TWO_64 else m
  }

  /** The int64 shift x << n. */
  function Shl(x: Int64, n: nat): Int64 {
    Wrap(x * Pow2(n))
  }

  // ---------------------------------------------------------------- backoff

  /** The jitter ceiling before the retry-th retry, as computed. */
  function Ceiling(initial: Int64, max: Int64, retry: nat): Int64
    requires retry >= 1
  {
    var shift := retry - 1;
    if shift < 63 then
      var d := Shl(initial, shift);
      if d > 0 && d < max then d else max
    else max
  }

  /** The jitter ceiling as intended. */
  function ExactCeiling(initial: int, max: int, retry: nat): int
    requires retry >= 1
  {
    Min(initial * Pow2(retry - 1), max)
  }

  lemma MultipleIsAtLeast(x: int, p: int, q: int, k: int, r: int)
    requires p >= 1 && r == x * p + k * (p * q) && r > 0
    ensures r >= p
  {
    var m := x + k * q;
    assert r == m * p;
    assert m <= 0 ==> m * p <= 0;
    assert m >= 1 ==> m * p >= p;
  }

  lemma WrappedMultiple(x: int, p: int, q: int)
    requires p >= 1 && p * q == TWO_64 && Wrap(x * p) > 0
    ensures Wrap(x * p) >= p
  {
    var e := x * p;
    var r := Wrap(e);
    var k := (r - e) / TWO_64;
    assert r == e + k * TWO_64;
    MultipleIsAtLeast(x, p, q, k, r);
  }

  /** A wrapped multiple of 2^n is a multiple of 2^n: a positive one is at least 2^n. */
  lemma WrapKeepsMultiples(x: int, n: nat)
    requires n <= 64 && Wrap(x * Pow2(n)) > 0
    ensures Wrap(x * Pow2(n)) >= Pow2(n)
  {
    var p, q := Pow2(n), Pow2(64 - n);
    assert p * q == TWO_64 by { Pow2Adds(n, 64 - n); Pow2Values(); }
    WrappedMultiple(x, p, q);
  }

  lemma AtLeastFactor(x: int, p: int)
    requires x >= 1 && p >= 0
    ensures x * p >= p
  {
  }

  lemma NoWrap(x: int)
    requires 0 <= x < TWO_63
    ensures Wrap(x) == x
  {
  }

  lemma BigShift(x: int, n: nat)
    requires x >= 1
    ensures n >= 63 ==> x * Pow2(n) >= TWO_63
  {
    var p := Pow2(n);
    AtLeastFactor(x, p);
    if n >= 63 { assert p >= TWO_63 by { Pow2Values(); Pow2Grows(63, n); } }
  }

  /** The wrapping shift may only be wrong when it lands strictly between 0 and the cap
      although the true value does not. */
  predicate Misleads(initial: Int64, max: Int64, retry: nat)
    requires retry >= 1
  {
    retry - 1 < 63 && initial * Pow2(retry - 1) >= TWO_63 && 0 < Shl(initial, retry - 1) < max
  }

  /** The computed ceiling is the intended one exactly when the shift does not mislead. */
  lemma CeilingIsExactIff(initial: Int64, max: Int64, retry: nat)
    requires initial > 0 && max > 0 && retry >= 1
    ensures Ceiling(initial, max, retry) == ExactCeiling(initial, max, retry) <==> !Misleads(initial, max, retry)
  {
    var shift := retry - 1;
    var exact := initial * Pow2(shift);
    if exact < TWO_63 {
      assert exact > 0 by { assert initial * Pow2(shift) >= 1 * 1; }
      NoWrap(exact);
      BigShift(initial, shift);
    }
  }

  lemma SmallerFactor(x: int, a: int, b: int)
    requires x >= 1 && x * a >= x * b
    ensures a >= b
  {
    assert a <= b - 1 ==> x * a <= x * (b - 1);
  }

  /** For every configuration whose product InitialBackoff * MaxBackoff is at most 2^63 the
      ceiling is min(InitialBackoff * 2^(retry-1), MaxBackoff) for every retry. */
  lemma CeilingIsExact(initial: Int64, max: Int64, retry: nat)
    requires initial > 0 && max > 0 && initial * max <= TWO_63 && retry >= 1
    ensures Ceiling(initial, max, retry) == ExactCeiling(initial, max, retry)
  {
    var shift := retry - 1;
    CeilingIsExactIff(initial, max, retry);
    if initial * Pow2(shift) >= TWO_63 && shift < 63 {
      // initial * 2^shift >= 2^63 >= initial * max, hence 2^shift >= max.
      SmallerFactor(initial, Pow2(shift), max);
      if Shl(initial, shift) > 0 { WrapKeepsMultiples(initial, shift); }
    }
  }

  /** Beyond the product bound the shift can mislead: 5 ns doubled 62 times wraps to 2^62. */
  lemma CeilingCanWrap()
    ensures Misleads(5, TWO_63 - 1, 63)
    ensures Ceiling(5, TWO_63 - 1, 63) == TWO_63 / 2 && ExactCeiling(5, TWO_63 - 1, 63) == TWO_63 - 1
  {
    Pow2Values();
    assert 5 * Pow2(62) == TWO_64 + TWO_63 / 2;
    assert Shl(5, 62) == TWO_63 / 2;
  }

  // ---------------------------------------------------------------- policy

  const IDEMPOTENT := {"GET", "HEAD", "PUT", "DELETE", "OPTIONS", "TRACE"}
  const RETRYABLE_STATUSES := {429, 502, 503, 504}

  datatype TransportError = Canceled | DeadlineExceeded | ResponseTooLarge | OtherError

  /** The Retry-After header: seconds, or an HTTP date seen as the time until it. */
  datatype RetryAfter = Absent | Seconds(n: Int64) | Date(until: Int64)

  datatype Response = Response(status: int, retryAfter: RetryAfter)

  type Outcome = Result<Response, TransportError>

  datatype RetryConfig = RetryConfig(
    maxAttempts: int, initialBackoff: Int64, maxBackoff: Int64, retryIf: Option<Outcome -> bool>)

  predicate Normalized(c: RetryConfig) {
    c.maxAttempts >= 1 && c.initialBackoff > 0 && c.maxBackoff > 0
  }

  /** Non-positive fields become the defaults; the others are kept. */
  function WithDefaults(c: RetryConfig): (r: RetryConfig)
    ensures Normalized(r) && r.retryIf == c.retryIf
    ensures r.maxAttempts == if c.maxAttempts > 0 then c.maxAttempts else 3
    ensures r.initialBackoff == if c.initialBackoff > 0 then c.initialBackoff else 100 * MILLISECOND
    ensures r.maxBackoff == if c.maxBackoff > 0 then c.maxBackoff else 2 * SECOND
    ensures Normalized(c) ==> r == c
  {
    var c := if c.maxAttempts <= 0 then c.(maxAttempts := 3) else c;
    var c := if c.initialBackoff <= 0 then c.(initialBackoff := 100 * MILLISECOND) else c;
    if c.maxBackoff <= 0 then c.(maxBackoff := 2 * SECOND) else c
  }

  predicate ShouldRetry(c: RetryConfig, httpMethod: string, o: Outcome) {
    if c.retryIf.Some? then c.retryIf.value(o)
    else if httpMethod !in IDEMPOTENT then false
    else match o
      case Err(e) => e.OtherError?
      case Ok(resp) => resp.status in RETRYABLE_STATUSES
  }

  /** The server's hint; a huge number of seconds wraps like any Duration product. */
  function Hint(r: RetryAfter): Int64 {
    match r
    case Absent => 0
    case Seconds(n) => if n >= 0 then Wrap(n * SECOND) else 0
    case Date(until) => if until > 0 then until else 0
  }

  /** draw is the random number behind rand.N. */
  function BackoffDelay(c: RetryConfig, retry: nat, hint: Int64, draw: nat): (d: int)
    requires retry >= 1
    ensures Normalized(c) ==> 0 <= d <= c.maxBackoff
  {
    if hint > 0 then Min(hint, c.maxBackoff)
    else
      var ceiling := Ceiling(c.initialBackoff, c.maxBackoff, retry);
      if ceiling <= 0 then 0 else draw % ceiling
  }

  /** Without a hint the delay stays below the intended exponential ceiling. */
  lemma JitterStaysBelowCeiling(c: RetryConfig, retry: nat, hint: Int64, draw: nat)
    requires Normalized(c) && c.initialBackoff * c.maxBackoff <= TWO_63 && retry >= 1 && hint <= 0
    ensures 0 <= BackoffDelay(c, retry, hint, draw) < ExactCeiling(c.initialBackoff, c.maxBackoff, retry)
  {
    CeilingIsExact(c.initialBackoff, c.maxBackoff, retry);
    var p := Pow2(retry - 1);
    AtLeastFactor(c.initialBackoff, p);
  }

  // ---------------------------------------------------------------- the attempt loop

  /** What each attempt meets: its outcome, whether the context is done after it, the
      random draw, and whether the context ends the pause that follows. */
  datatype World = World(
    outcome: nat -> Outcome, ctxDone: nat -> bool, draw: nat -> nat, interrupted: nat -> bool)

  datatype SendError = Plain(cause: TransportError) | GaveUp(attempts: nat, cause: TransportError)

  function AttemptLimit(policy: Option<RetryConfig>, streamed: bool): int {
    if policy.Some? && !streamed then policy.value.maxAttempts else 1
  }

  /** Attempt n asks for another one. */
  predicate AsksForMore(policy: Option<RetryConfig>, streamed: bool, httpMethod: string, w: World, n: nat) {
    && n < AttemptLimit(policy, streamed) && !w.ctxDone(n)
    && policy.Some? && ShouldRetry(policy.value, httpMethod, w.outcome(n))
  }

  /** The pause asked for after attempt n. */
  function Pause(c: RetryConfig, w: World, n: nat): int
    requires n >= 1
  {
    var hint := if w.outcome(n).Ok? then Hint(w.outcome(n).value.retryAfter) else 0;
    BackoffDelay(c, n, hint, w.draw(n))
  }

  /** An outcome worth another attempt by default: throttling or a gateway's trouble, or a
      transport error that is neither final by its nature nor the caller's own doing. */
  predicate Transient(o: Outcome) {
    match o
    case Ok(resp) => resp.status == 429 || resp.status == 502 || resp.status == 503 || resp.status == 504
    case Err(e) => e != Canceled && e != DeadlineExceeded && e != ResponseTooLarge
  }

  predicate SafeToRepeat(httpMethod: string) {
    || httpMethod == "GET" || httpMethod == "HEAD" || httpMethod == "PUT"
    || httpMethod == "DELETE" || httpMethod == "OPTIONS" || httpMethod == "TRACE"
  }

  /** Nothing ends the call from outside: no context is done and no pause is cut short. */
  ghost predicate Undisturbed(w: World) {
    forall n: nat :: Calm(w, n)
  }

  predicate Calm(w: World, n: nat) {
    !w.ctxDone(n) && !w.interrupted(n)
  }

  /** How many attempts a policy leads to, in the policy's own terms: by default a method that
      is safe to repeat is tried again after transient outcomes and after no others, a custom
      condition replaces that choice, and either way up to MaxAttempts. */
  ghost predicate FollowsPolicy(policy: Option<RetryConfig>, streamed: bool, httpMethod: string, w: World, attempts: nat) {
    policy.Some? && !streamed ==>
      && attempts <= policy.value.maxAttempts
      && (policy.value.retryIf.None? && SafeToRepeat(httpMethod) ==>
            && (forall n | 1 <= n < attempts :: Transient(w.outcome(n)) && Calm(w, n))
            && (Undisturbed(w) && attempts < policy.value.maxAttempts ==> !Transient(w.outcome(attempts))))
      && (policy.value.retryIf.Some? ==>
            && (forall n | 1 <= n < attempts :: policy.value.retryIf.value(w.outcome(n)) && Calm(w, n))
            && (Undisturbed(w) && attempts < policy.value.maxAttempts ==>
                  !policy.value.retryIf.value(w.outcome(attempts))))
  }

  lemma SendFollowsPolicy(policy: Option<RetryConfig>, streamed: bool, httpMethod: string, w: World, attempts: nat)
    requires 1 <= attempts <= AttemptLimit(policy, streamed)
    requires forall n | 1 <= n < attempts :: AsksForMore(policy, streamed, httpMethod, w, n) && !w.interrupted(n)
    requires !AsksForMore(policy, streamed, httpMethod, w, attempts) || w.interrupted(attempts)
    ensures FollowsPolicy(policy, streamed, httpMethod, w, attempts)
    ensures policy.None? || streamed || (policy.value.retryIf.None? && !SafeToRepeat(httpMethod)) ==> attempts == 1
  {
    assert attempts > 1 ==> AsksForMore(policy, streamed, httpMethod, w, 1);
    if policy.Some? && !streamed {
      var c := policy.value;
      forall n: nat | 1 <= n < attempts
        ensures Calm(w, n) && ShouldRetry(c, httpMethod, w.outcome(n))
        ensures c.retryIf.None? ==> Transient(w.outcome(n))
        ensures c.retryIf.Some? ==> c.retryIf.value(w.outcome(n))
      {
        assert AsksForMore(policy, streamed, httpMethod, w, n);
        DefaultPolicy(c, httpMethod, w.outcome(n));
      }
      DefaultPolicy(c, httpMethod, w.outcome(attempts));
      assert Undisturbed(w) ==> Calm(w, attempts);
      assert Undisturbed(w) && attempts < c.maxAttempts ==> !ShouldRetry(c, httpMethod, w.outcome(attempts));
    }
  }

  /** The call stops at the first attempt that does not ask for another or whose pause is
      interrupted; it returns that attempt's outcome, and the pauses it asked for are each
      within MaxBackoff whatever Retry-After said. */
  method Send(policy: Option<RetryConfig>, streamed: bool, httpMethod: string, w: World)
    returns (r: Result<Response, SendError>, attempts: nat, waits: seq<int>)
    requires policy.Some? ==> Normalized(policy.value)
    ensures 1 <= attempts <= AttemptLimit(policy, streamed)
    ensures forall n | 1 <= n < attempts ::
              AsksForMore(policy, streamed, httpMethod, w, n) && !w.interrupted(n)
    ensures !AsksForMore(policy, streamed, httpMethod, w, attempts) || w.interrupted(attempts)
    ensures |waits| == if AsksForMore(policy, streamed, httpMethod, w, attempts) then attempts else attempts - 1
    ensures forall i | 0 <= i < |waits| ::
              policy.Some? && waits[i] == Pause(policy.value, w, i + 1) && 0 <= waits[i] <= policy.value.maxBackoff
    ensures policy.Some? ==> 0 <= Sum(waits) <= attempts * policy.value.maxBackoff
    ensures r.Ok? <==> w.outcome(attempts).Ok?
    ensures r.Ok? ==> r.value == w.outcome(attempts).value
    ensures r.Err? ==> r.error == if attempts > 1 then GaveUp(attempts, w.outcome(attempts).error)
                                  else Plain(w.outcome(attempts).error)
    ensures policy.None? || streamed || (policy.value.retryIf.None? && !SafeToRepeat(httpMethod)) ==>
              attempts == 1 && waits == []
    ensures FollowsPolicy(policy, streamed, httpMethod, w, attempts)
  {
    hide FollowsPolicy, Undisturbed;
    var maxAttempts := 1;
    if policy.Some? && !streamed {
      maxAttempts := policy.value.maxAttempts;
    }
    attempts, waits := 1, [];
    var outcome := w.outcome(1);
    while true
      invariant 1 <= attempts <= maxAttempts == AttemptLimit(policy, streamed)
      invariant outcome == w.outcome(attempts)
      invariant forall n | 1 <= n < attempts ::
                  AsksForMore(policy, streamed, httpMethod, w, n) && !w.interrupted(n)
      invariant |waits| == attempts - 1
      invariant forall i | 0 <= i < |waits| ::
                  policy.Some? && waits[i] == Pause(policy.value, w, i + 1) && 0 <= waits[i] <= policy.value.maxBackoff
      decreases maxAttempts - attempts
    {
      if attempts == maxAttempts || w.ctxDone(attempts) { break; }
      if !ShouldRetry(policy.value, httpMethod, outcome) { break; }
      var hint := 0;
      if outcome.Ok? {
        hint := Hint(outcome.value.retryAfter);
      }
      waits := waits + [BackoffDelay(policy.value, attempts, hint, w.draw(attempts))];
      if w.interrupted(attempts) { break; }
      attempts := attempts + 1;
      outcome := w.outcome(attempts);
    }
    assert attempts > 1 ==> AsksForMore(policy, streamed, httpMethod, w, 1);
    SendFollowsPolicy(policy, streamed, httpMethod, w, attempts);
    if policy.Some? { TotalWaitIsBounded(waits, attempts, policy.value.maxBackoff); }
    match outcome
    case Ok(resp) => r := Ok(resp);
    case Err(e) => r := Err(if attempts > 1 then GaveUp(attempts, e) else Plain(e));
  }

  /** What the default policy retries. */
  lemma DefaultPolicy(c: RetryConfig, httpMethod: string, o: Outcome)
    ensures c.retryIf.None? ==> (ShouldRetry(c, httpMethod, o) <==> SafeToRepeat(httpMethod) && Transient(o))
  {
  }

  /** A server's hint of n seconds is honoured up to the cap, and so is a date. */
  lemma HintIsHonoured(c: RetryConfig, w: World, n: nat, resp: Response)
    requires Normalized(c) && n >= 1 && w.outcome(n) == Ok(resp)
    ensures resp.retryAfter.Seconds? && 0 < resp.retryAfter.n <= 9_223_372_036 ==>
              Pause(c, w, n) == if resp.retryAfter.n * 1_000_000_000 < c.maxBackoff
                                then resp.retryAfter.n * 1_000_000_000 else c.maxBackoff
    ensures resp.retryAfter.Date? && resp.retryAfter.until > 0 ==>
              Pause(c, w, n) == if resp.retryAfter.until < c.maxBackoff then resp.retryAfter.until else c.maxBackoff
  {
    if resp.retryAfter.Seconds? && 0 < resp.retryAfter.n <= 9_223_372_036 { NoWrap(resp.retryAfter.n * SECOND); }
  }

  /** Without a usable hint the jitter is full: every delay below the ceiling, and no other, can
      be drawn. */
  lemma JitterIsFull(c: RetryConfig, retry: nat, hint: Int64, d: int)
    requires Normalized(c) && c.initialBackoff * c.maxBackoff <= TWO_63 && retry >= 1 && hint <= 0
    ensures (exists draw: nat :: BackoffDelay(c, retry, hint, draw) == d) <==>
              0 <= d < ExactCeiling(c.initialBackoff, c.maxBackoff, retry)
  {
    forall draw: nat
      ensures 0 <= BackoffDelay(c, retry, hint, draw) < ExactCeiling(c.initialBackoff, c.maxBackoff, retry)
    {
      JitterStaysBelowCeiling(c, retry, hint, draw);
    }
    if 0 <= d < ExactCeiling(c.initialBackoff, c.maxBackoff, retry) { Drawn(c, retry, hint, d); }
  }

  lemma Drawn(c: RetryConfig, retry: nat, hint: Int64, d: nat)
    requires Normalized(c) && c.initialBackoff * c.maxBackoff <= TWO_63 && retry >= 1 && hint <= 0
    requires d < ExactCeiling(c.initialBackoff, c.maxBackoff, retry)
    ensures BackoffDelay(c, retry, hint, d) == d
  {
    CeilingIsExact(c.initialBackoff, c.maxBackoff, retry);
    hide ExactCeiling, Ceiling;
    var ceiling := ExactCeiling(c.initialBackoff, c.maxBackoff, retry);
    SmallRemainder(d, ceiling);
  }

  lemma SmallRemainder(d: nat, m: int)
    requires d < m
    ensures d % m == d
  {
  }

  function Sum(s: seq<int>): int {
    if s == [] then 0 else s[0] + Sum(s[1..])
  }

  /** The pauses of a call never add up to more than MaxBackoff per attempt. */
  lemma {:induction false} TotalWaitIsBounded(waits: seq<int>, attempts: nat, maxBackoff: int)
    requires |waits| <= attempts && 0 <= maxBackoff
    requires forall i | 0 <= i < |waits| :: 0 <= waits[i] <= maxBackoff
    ensures 0 <= Sum(waits) <= attempts * maxBackoff
  {
    if waits != [] {
      TotalWaitIsBounded(waits[1..], attempts - 1, maxBackoff);
      assert attempts * maxBackoff == maxBackoff + (attempts - 1) * maxBackoff;
    }
  }
}
