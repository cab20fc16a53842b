/**
 The interrupt lifecycle of the JavaScript runtime over any sequence of runs. Each run
 registers a callback that interrupts the VM when its context ends; the callback fires
 on a goroutine of its own and may land at any later moment, even against the end of the
 run. Contexts, callbacks and VM steps interleave freely.
 */
module JsRuntime {
  import opened Options

  /** A callback registered with context.AfterFunc: armed, running, landed, or stopped. */
  datatype Callback = Armed | Firing | Landed | Stopped

  /** How exec ended. */
  datatype Outcome = Finished | ScriptError | Interrupted | Panicked

  /** What run hands to its caller. */
  datatype Report = Value | Error | InterruptError | ContextError(run: nat) | Panic

  datatype Pc =
    | Idle
    | Executing
    | Unwinding(outcome: Outcome)             // deferred function entered
    | Draining(outcome: Outcome)              // stop() said false: waiting for the callback
    | Settled(outcome: Outcome)               // no callback can land any more
    | Cleared(outcome: Outcome)               // ClearInterrupt done
    | Reporting(report: Report)               // r.ctx is nil again

  /** current numbers the latest run; flag is the run whose callback interrupted the VM;
      outcomes is how the exec of each run that got that far ended. */
  datatype State = State(
    pc: Pc, current: nat, published: Option<nat>, flag: Option<nat>,
    cancelled: set<nat>, callbacks: map<nat, Callback>,
    outcomes: map<nat, Outcome>, reports: map<nat, Report>)

  datatype Action =
    | Begin(ctxDone: bool)
    | Cancel(run: nat)
    | Fire(run: nat)
    | Land(run: nat)
    | ExecEnds(outcome: Outcome)
    | StopCallback
    | Drain
    | ClearInterrupt
    | Unpublish
    | Return

  const INITIAL := State(Idle, 0, None, None, {}, map[], map[], map[])

  predicate Enabled(s: State, a: Action) {
    match a
    case Begin(_) => s.pc.Idle?
    case Cancel(_) => true
    case Fire(run) => run in s.callbacks && s.callbacks[run].Armed? && run in s.cancelled
    case Land(run) => run in s.callbacks && s.callbacks[run].Firing?
    case ExecEnds(outcome) => s.pc.Executing? && (outcome.Interrupted? ==> s.flag.Some?)
    case StopCallback => s.pc.Unwinding?
    case Drain => s.pc.Draining? && s.current in s.callbacks && s.callbacks[s.current].Landed?
    case ClearInterrupt => s.pc.Settled?
    case Unpublish => s.pc.Cleared?
    case Return => s.pc.Reporting?
  }

  /** The report after the error translation at the end of the deferred function. */
  function Translate(s: State, outcome: Outcome): Report {
    match outcome
    case Finished => Value
    case ScriptError => Error
    case Interrupted => if s.current in s.cancelled then ContextError(s.current) else InterruptError
    case Panicked => Panic
  }

  function Apply(s: State, a: Action): State
    requires Enabled(s, a)
  {
    match a
    case Begin(ctxDone) =>
      var run := s.current + 1;
      if ctxDone || run in s.cancelled then
        // ctx.Err() is checked before anything is published or registered.
        s.(current := run, cancelled := s.cancelled + {run}, reports := s.reports[run := ContextError(run)])
      else
        s.(pc := Executing, current := run, published := Some(run), callbacks := s.callbacks[run := Armed])
    case Cancel(run) => s.(cancelled := s.cancelled + {run})
    case Fire(run) => s.(callbacks := s.callbacks[run := Firing])
    case Land(run) => s.(callbacks := s.callbacks[run := Landed], flag := Some(run))
    case ExecEnds(outcome) => s.(pc := Unwinding(outcome), outcomes := s.outcomes[s.current := outcome])
    case StopCallback =>
      if s.current in s.callbacks && s.callbacks[s.current].Armed?
      then s.(pc := Settled(s.pc.outcome), callbacks := s.callbacks[s.current := Stopped])
      else s.(pc := Draining(s.pc.outcome))
    case Drain => s.(pc := Settled(s.pc.outcome))
    case ClearInterrupt => s.(pc := Cleared(s.pc.outcome), flag := None)
    case Unpublish => s.(pc := Reporting(Translate(s, s.pc.outcome)), published := None)
    case Return => s.(pc := Idle, reports := s.reports[s.current := s.pc.report])
  }

  predicate Legal(s: State, run: seq<Action>)
    decreases |run|
  {
    run == [] || (Enabled(s, run[0]) && Legal(Apply(s, run[0]), run[1..]))
  }

  function Exec(s: State, run: seq<Action>): State
    requires Legal(s, run)
    decreases |run|
  {
    if run == [] then s else Exec(Apply(s, run[0]), run[1..])
  }

  // ---------------------------------------------------------------- the invariant

  predicate Quiet(c: Callback) { c.Landed? || c.Stopped? }

  /** run has begun to unwind because the VM was interrupted. */
  predicate WasInterrupted(pc: Pc) {
    (pc.Unwinding? || pc.Draining? || pc.Settled? || pc.Cleared?) && pc.outcome.Interrupted?
  }

  ghost predicate Inv(s: State) {
    && (forall r | r in s.callbacks :: r <= s.current)
    && (forall r | r in s.callbacks && r != s.current :: Quiet(s.callbacks[r]))
    && (forall r | r in s.callbacks && (s.callbacks[r].Firing? || s.callbacks[r].Landed?) :: r in s.cancelled)
    && (s.flag.Some? ==>
          s.flag == Some(s.current) && s.current in s.callbacks && s.callbacks[s.current].Landed?
          && !s.pc.Idle? && !s.pc.Cleared? && !s.pc.Reporting?)
    && (WasInterrupted(s.pc) ==> s.current in s.cancelled)
    && (s.pc.Idle? || s.pc.Reporting? ==> s.published.None?)
    && (s.pc.Executing? || s.pc.Unwinding? || s.pc.Draining? ==>
          s.published == Some(s.current) && s.current in s.callbacks)
    && (s.pc.Draining? ==> !s.callbacks[s.current].Armed? && !s.callbacks[s.current].Stopped?)
    && (s.pc.Executing? || s.pc.Unwinding? ==> !s.callbacks[s.current].Stopped?)
    && (s.pc.Idle? || s.pc.Settled? || s.pc.Cleared? || s.pc.Reporting? ==>
          forall r | r in s.callbacks :: Quiet(s.callbacks[r]))
    && (s.pc.Reporting? ==> s.pc.report != InterruptError && (s.pc.report.ContextError? ==> s.pc.report.run == s.current))
    && (forall r | r in s.reports ::
          s.reports[r] != InterruptError && (s.reports[r].ContextError? ==> s.reports[r].run == r))
  }

  /** The report that fits how the exec of run r ended. */
  predicate Fits(r: nat, outcome: Outcome, report: Report) {
    match outcome
    case Finished => report == Value
    case ScriptError => report == Error
    case Panicked => report == Panic
    case Interrupted => report == ContextError(r)
  }

  /** Reports and outcomes belong to runs that have begun, and every run that is over has a
      report. */
  ghost predicate RangeInv(s: State) {
    && (forall r | r in s.outcomes :: 1 <= r <= s.current)
    && (forall r | r in s.reports :: 1 <= r <= s.current)
    && (forall r | 1 <= r <= s.current && (r < s.current || s.pc.Idle?) :: r in s.reports)
    && (!s.pc.Idle? ==> s.current >= 1 && s.current !in s.reports)
  }

  /** What is known of the outcome of the run under way. */
  ghost predicate OutcomeInv(s: State) {
    && (s.pc.Executing? ==> s.current !in s.outcomes)
    && (s.pc.Unwinding? || s.pc.Draining? || s.pc.Settled? || s.pc.Cleared? ==>
          s.current in s.outcomes && s.outcomes[s.current] == s.pc.outcome)
    && (s.pc.Reporting? ==> s.current in s.outcomes && Fits(s.current, s.outcomes[s.current], s.pc.report))
  }

  /** The report of a run that is over fits; a run whose context had ended before it began has
      no outcome and reports its context's error. */
  ghost predicate FitInv(s: State) {
    forall r | r in s.reports ::
      if r in s.outcomes then Fits(r, s.outcomes[r], s.reports[r])
      else s.reports[r] == ContextError(r) && r in s.cancelled
  }

  ghost predicate ReportInv(s: State) {
    RangeInv(s) && OutcomeInv(s) && FitInv(s)
  }

  lemma StepKeepsRange(s: State, a: Action)
    requires RangeInv(s) && Enabled(s, a)
    ensures RangeInv(Apply(s, a))
  {
  }

  lemma StepKeepsOutcome(s: State, a: Action)
    requires Inv(s) && RangeInv(s) && OutcomeInv(s) && Enabled(s, a)
    ensures OutcomeInv(Apply(s, a))
  {
  }

  lemma StepKeepsFit(s: State, a: Action)
    requires RangeInv(s) && OutcomeInv(s) && FitInv(s) && Enabled(s, a)
    ensures FitInv(Apply(s, a))
  {
  }

  lemma StepKeepsReports(s: State, a: Action)
    requires Inv(s) && ReportInv(s) && Enabled(s, a)
    ensures ReportInv(Apply(s, a))
  {
    hide Inv, RangeInv, OutcomeInv, FitInv;
    StepKeepsRange(s, a);
    StepKeepsOutcome(s, a);
    StepKeepsFit(s, a);
  }

  /** While a script executes, a landed callback has raised the flag. */
  ghost predicate DeliveryInv(s: State) {
    s.pc.Executing? ==>
      s.current in s.callbacks && !s.callbacks[s.current].Stopped?
      && (s.callbacks[s.current].Landed? ==> s.flag == Some(s.current))
  }

  lemma StepKeepsDelivery(s: State, a: Action)
    requires Inv(s) && DeliveryInv(s) && Enabled(s, a)
    ensures DeliveryInv(Apply(s, a))
  {
  }

  lemma StepKeepsInv(s: State, a: Action)
    requires Inv(s) && Enabled(s, a)
    ensures Inv(Apply(s, a))
  {
  }

  lemma {:induction false} RunKeepsInv(s: State, run: seq<Action>)
    requires Inv(s) && Legal(s, run)
    ensures Inv(Exec(s, run))
    ensures ReportInv(s) ==> ReportInv(Exec(s, run))
    ensures DeliveryInv(s) ==> DeliveryInv(Exec(s, run))
    decreases |run|
  {
    if run != [] {
      hide Inv, ReportInv, DeliveryInv;
      if ReportInv(s) { StepKeepsReports(s, run[0]); }
      if DeliveryInv(s) { StepKeepsDelivery(s, run[0]); }
      StepKeepsInv(s, run[0]);
      RunKeepsInv(Apply(s, run[0]), run[1..]);
    }
  }

  // ---------------------------------------------------------------- what every sequence of runs satisfies

  /** Between runs the interrupt flag is clear, no callback is pending or in flight, and no
      context is published, whatever was cancelled and whenever. */
  lemma IdleRuntimeIsClean(run: seq<Action>)
    requires Legal(INITIAL, run)
    ensures var s := Exec(INITIAL, run);
            s.pc.Idle? ==>
              && s.flag.None? && s.published.None?
              && forall r | r in s.callbacks :: Quiet(s.callbacks[r])
  {
    RunKeepsInv(INITIAL, run);
  }

  /** A script is only ever interrupted by the context of the run it belongs to, which has
      indeed ended; the interrupted run then reports that context's own error. */
  lemma InterruptsStayInTheirRun(run: seq<Action>)
    requires Legal(INITIAL, run)
    ensures var s := Exec(INITIAL, run);
            && (s.flag.Some? ==> s.flag.value == s.current && s.current in s.cancelled)
            && (s.pc.Executing? ==> s.published == Some(s.current))
            && (s.pc.Cleared? && s.pc.outcome.Interrupted? ==>
                  Apply(s, Unpublish).pc == Reporting(ContextError(s.current)))
  {
    RunKeepsInv(INITIAL, run);
  }

  /** No caller ever sees a raw interrupt error or another run's context error. */
  lemma ReportsAreOwn(run: seq<Action>, r: nat)
    requires Legal(INITIAL, run) && r in Exec(INITIAL, run).reports
    ensures var s := Exec(INITIAL, run);
            && s.reports[r] != InterruptError
            && (s.reports[r].ContextError? ==> s.reports[r] == ContextError(r))
  {
    RunKeepsInv(INITIAL, run);
  }

  /** The context of run r had ended: it was cancelled, or it was over when the run began. */
  ghost predicate Ended(s: State, run: seq<Action>, r: nat)
    requires Legal(s, run)
    decreases |run|
  {
    run != [] &&
    (|| run[0] == Cancel(r)
     || (run[0] == Begin(true) && s.current + 1 == r)
     || Ended(Apply(s, run[0]), run[1..], r))
  }

  lemma {:induction false} CancelledMeansEnded(s: State, run: seq<Action>, r: nat)
    requires Legal(s, run) && r !in s.cancelled && r in Exec(s, run).cancelled
    ensures Ended(s, run, r)
    decreases |run|
  {
    var s1 := Apply(s, run[0]);
    if r !in s1.cancelled { CancelledMeansEnded(s1, run[1..], r); }
  }

  /** Each run is reported once it has returned, and as it went: its value if exec finished,
      the script's error if the script failed, the panic if it panicked, and its own
      context's error if it was interrupted or never begun. */
  lemma ReportsFitTheOutcome(run: seq<Action>, r: nat)
    requires Legal(INITIAL, run) && Exec(INITIAL, run).pc.Idle? && 1 <= r <= Exec(INITIAL, run).current
    ensures var s := Exec(INITIAL, run);
            && r in s.reports
            && (r in s.outcomes && s.outcomes[r] == Finished ==> s.reports[r] == Value)
            && (r in s.outcomes && s.outcomes[r] == ScriptError ==> s.reports[r] == Error)
            && (r in s.outcomes && s.outcomes[r] == Panicked ==> s.reports[r] == Panic)
            && (r in s.outcomes && s.outcomes[r] == Interrupted ==> s.reports[r] == ContextError(r))
            && (r !in s.outcomes ==> s.reports[r] == ContextError(r))
            && (s.reports[r].ContextError? ==> Ended(INITIAL, run, r))
  {
    RunKeepsInv(INITIAL, run);
    var s := Exec(INITIAL, run);
    if s.reports[r].ContextError? {
      assert s.reports[r] == ContextError(r);
      InterruptedWasCancelled(run, r);
      CancelledMeansEnded(INITIAL, run, r);
    }
  }

  lemma InterruptedWasCancelled(run: seq<Action>, r: nat)
    requires Legal(INITIAL, run) && r in Exec(INITIAL, run).reports && Exec(INITIAL, run).reports[r] == ContextError(r)
    ensures r in Exec(INITIAL, run).cancelled
  {
    ReportedContextEnded(INITIAL, run, r);
  }

  lemma {:induction false} ReportedContextEnded(s: State, run: seq<Action>, r: nat)
    requires Legal(s, run) && Inv(s)
    requires (r in s.reports && s.reports[r] == ContextError(r)) || s.pc == Reporting(ContextError(r)) ==> r in s.cancelled
    ensures var s' := Exec(s, run); r in s'.reports && s'.reports[r] == ContextError(r) ==> r in s'.cancelled
    decreases |run|
  {
    if run != [] {
      StepKeepsInv(s, run[0]);
      ReportedContextEnded(Apply(s, run[0]), run[1..], r);
    }
  }

  lemma StepKeepsOutcomes(s: State, a: Action, r: nat)
    requires OutcomeInv(s) && Enabled(s, a)
    ensures r in s.outcomes ==> r in Apply(s, a).outcomes && Apply(s, a).outcomes[r] == s.outcomes[r]
    ensures r in Apply(s, a).outcomes && r !in s.outcomes ==> a == ExecEnds(Apply(s, a).outcomes[r])
  {
  }

  /** The outcome on record is the one the exec of that run ended with. */
  lemma {:induction false} OutcomesAreActions(s: State, run: seq<Action>, r: nat)
    requires Inv(s) && ReportInv(s) && Legal(s, run)
    ensures r in s.outcomes ==> r in Exec(s, run).outcomes && Exec(s, run).outcomes[r] == s.outcomes[r]
    ensures r in Exec(s, run).outcomes && r !in s.outcomes ==> ExecEnds(Exec(s, run).outcomes[r]) in run
    decreases |run|
  {
    if run != [] {
      StepKeepsInv(s, run[0]);
      StepKeepsReports(s, run[0]);
      StepKeepsOutcomes(s, run[0], r);
      hide Inv, ReportInv, Apply, Enabled;
      OutcomesAreActions(Apply(s, run[0]), run[1..], r);
      assert run == [run[0]] + run[1..];
    }
  }

  /** Cancellation reaches the script: while the run of a cancelled context executes, its
      callback can fire, or is firing and can land, or has landed and the VM is interrupted. */
  lemma CancellationIsDelivered(run: seq<Action>)
    requires Legal(INITIAL, run)
    requires var s := Exec(INITIAL, run); s.pc.Executing? && Cancel(s.current) in run
    ensures var s := Exec(INITIAL, run);
            || Enabled(s, Fire(s.current))
            || Enabled(s, Land(s.current))
            || (s.flag == Some(s.current) && Enabled(s, ExecEnds(Interrupted)))
  {
    RunKeepsInv(INITIAL, run);
    CancelIsRemembered(INITIAL, run, Exec(INITIAL, run).current);
  }

  /** A callback that lands interrupts the VM. */
  lemma LandingInterrupts(s: State, r: nat)
    requires Enabled(s, Fire(r))
    ensures Enabled(Apply(s, Fire(r)), Land(r))
    ensures Apply(Apply(s, Fire(r)), Land(r)).flag == Some(r)
  {
  }

  lemma {:induction false} CancelIsRemembered(s: State, run: seq<Action>, r: nat)
    requires Legal(s, run) && (Cancel(r) in run || r in s.cancelled)
    ensures r in Exec(s, run).cancelled
    decreases |run|
  {
    if run != [] {
      assert run == [run[0]] + run[1..];
      CancelIsRemembered(Apply(s, run[0]), run[1..], r);
    }
  }

  /** The deferred function never hangs: while it waits, the callback is running or has landed. */
  lemma DrainingEnds(run: seq<Action>)
    requires Legal(INITIAL, run) && Exec(INITIAL, run).pc.Draining?
    ensures var s := Exec(INITIAL, run);
            Enabled(s, Drain) || (Enabled(s, Land(s.current)) && Enabled(Apply(s, Land(s.current)), Drain))
  {
    RunKeepsInv(INITIAL, run);
  }
}
