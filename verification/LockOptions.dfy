/** Resolving the options of a lock acquisition. Durations are nanoseconds. */
module LockOptions {
  import opened Options
  import opened Arithmetic

  const DEFAULT_TTL := 30_000 * MILLISECOND
  const DEFAULT_RETRY_INTERVAL := 100 * MILLISECOND
  const MIN_AUTO_RENEW_TTL := 30 * MILLISECOND

  datatype AcquireOption =
    | WithTTL(ttl: int)
    | WithWait(wait: int)
    | WithRetryInterval(interval: int)
    | WithAutoRenew(enabled: bool)

  datatype AcquireConfig = AcquireConfig(ttl: int, wait: int, retryInterval: int, autoRenew: bool)

  datatype OptionError = AutoRenewTTLTooShort(got: int)

  const DEFAULTS := AcquireConfig(DEFAULT_TTL, 0, DEFAULT_RETRY_INTERVAL, false)

  /** What a list of options asks for: the last option of each kind, or else the default. */
  function AskedTTL(opts: seq<AcquireOption>): int {
    if opts == [] then DEFAULT_TTL
    else if opts[|opts| - 1].WithTTL? then opts[|opts| - 1].ttl
    else AskedTTL(opts[..|opts| - 1])
  }

  function AskedRetryInterval(opts: seq<AcquireOption>): int {
    if opts == [] then DEFAULT_RETRY_INTERVAL
    else if opts[|opts| - 1].WithRetryInterval? then opts[|opts| - 1].interval
    else AskedRetryInterval(opts[..|opts| - 1])
  }

  predicate AskedAutoRenew(opts: seq<AcquireOption>) {
    if opts == [] then false
    else if opts[|opts| - 1].WithAutoRenew? then opts[|opts| - 1].enabled
    else AskedAutoRenew(opts[..|opts| - 1])
  }

  function AskedWait(opts: seq<AcquireOption>): int {
    if opts == [] then 0
    else if opts[|opts| - 1].WithWait? then opts[|opts| - 1].wait
    else AskedWait(opts[..|opts| - 1])
  }

  /** Later options win, non-positive durations fall back to the defaults, and the only
      combination refused is auto-renewal of a lease below the minimum. */
  method ResolveAcquireConfig(opts: seq<AcquireOption>) returns (r: Result<AcquireConfig, OptionError>)
    ensures r.Err? <==> AskedAutoRenew(opts) && 0 < AskedTTL(opts) < 30_000_000
    ensures r.Err? ==> r.error.got == AskedTTL(opts)
    ensures r.Ok? ==> r.value == AcquireConfig(
                        if AskedTTL(opts) > 0 then AskedTTL(opts) else 30_000_000_000, AskedWait(opts),
                        if AskedRetryInterval(opts) > 0 then AskedRetryInterval(opts) else 100_000_000, AskedAutoRenew(opts))
  {
    var cfg := DEFAULTS;
    for i := 0 to |opts|
      invariant cfg == AcquireConfig(AskedTTL(opts[..i]), AskedWait(opts[..i]),
                                     AskedRetryInterval(opts[..i]), AskedAutoRenew(opts[..i]))
    {
      assert opts[..i + 1][..i] == opts[..i];
      match opts[i]
      case WithTTL(ttl) => cfg := cfg.(ttl := ttl);
      case WithWait(wait) => cfg := cfg.(wait := wait);
      case WithRetryInterval(interval) => cfg := cfg.(retryInterval := interval);
      case WithAutoRenew(enabled) => cfg := cfg.(autoRenew := enabled);
    }
    assert opts[..|opts|] == opts;
    if cfg.ttl <= 0 {
      cfg := cfg.(ttl := DEFAULT_TTL);
    }
    if cfg.retryInterval <= 0 {
      cfg := cfg.(retryInterval := DEFAULT_RETRY_INTERVAL);
    }
    if cfg.autoRenew && cfg.ttl < MIN_AUTO_RENEW_TTL {
      return Err(AutoRenewTTLTooShort(cfg.ttl));
    }
    return Ok(cfg);
  }

  /** A configuration the watchdog can be started with. */
  predicate Renewable(cfg: AcquireConfig) {
    cfg.autoRenew && cfg.ttl >= MIN_AUTO_RENEW_TTL
  }
}
