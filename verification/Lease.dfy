/**
 The lock lease and its renewal watchdog. The watchdog goroutine, any number of Release
 and Refresh calls and the token-guarded backend take steps in any order; the backend
 answers a refresh at one moment and the watchdog sees the answer at a later one, if ever.
 */
module Lease {
  import opened LockOptions
  import opened Arithmetic

  /** Why the token owns the lock in the backend, or no longer does. */
  datatype Ownership = Held | ReleasedByUs | Taken

  /** What the watchdog's refresh call returns; a transient error may hide a refresh that the
      backend did apply. */
  datatype Reply = Renewed | NotHeld(ours: bool) | Transient(applied: bool)

  datatype Pc =
    | Waiting                          // in select on stop and the ticker
    | Refreshing(start: int)           // backend.refresh called, not yet answered
    | Answered(start: int, reply: Reply)
    | Marking                          // in markLostUnlessStopped, before its select
    | Closing                          // the select found stop open
    | Exited

  /** Extended is an extension of the lease that the watchdog does not see; expiry is the
      backend's expiry instant when the watchdog gave up. */
  datatype Event =
    | Refreshed(at: int)
    | Extended(at: int)
    | NotHeldReported(ours: bool)
    | TtlElapsed(at: int, expiry: int)
    | StopClosed
    | DoneClosed

  datatype State = State(
    ttl: int, startedAt: int, now: int,
    pc: Pc, due: int, lastRefreshed: int,
    stopped: bool, done: bool, releasing: nat,
    owner: Ownership, expiresAt: int, log: seq<Event>)

  datatype Action =
    | Advance(elapsed: nat)
    | Tick
    | Quit
    | Answer(reply: Reply)
    | Return
    | Select
    | Close
    | ReleaseStop
    | ReleaseBackend
    | Refresh
    | Lose

  function Interval(s: State): int { s.ttl / 3 }

  /** A lease just acquired with an accepted auto-renew configuration. */
  function Started(cfg: AcquireConfig, now: int): State
    requires Renewable(cfg)
  {
    State(cfg.ttl, now, now, Waiting, now + cfg.ttl / 3, now, false, false, 0, Held, now + cfg.ttl, [])
  }

  predicate Enabled(s: State, a: Action) {
    match a
    case Advance(_) => true
    case Tick => s.pc.Waiting? && s.now >= s.due
    case Quit => s.pc.Waiting? && s.stopped
    case Answer(r) =>
      && s.pc.Refreshing?
      && (r.Renewed? || (r.Transient? && r.applied) ==> s.owner.Held?)
      && (r.NotHeld? ==> !s.owner.Held? && r.ours == s.owner.ReleasedByUs?)
    case Return => s.pc.Answered?
    case Select => s.pc.Marking?
    case Close => s.pc.Closing?
    case ReleaseStop => true
    case ReleaseBackend => s.releasing > 0
    case Refresh => s.owner.Held?
    case Lose => s.owner.Held?
  }

  function Apply(s: State, a: Action): State
    requires Enabled(s, a)
  {
    match a
    case Advance(elapsed) => s.(now := s.now + elapsed)
    case Tick => s.(pc := Refreshing(s.now), due := s.due + Interval(s))
    case Quit => s.(pc := Exited)
    case Answer(r) =>
      var s1 := if r.Transient? && r.applied then Extend(s) else s;
      s1.(pc := Answered(s.pc.start, r), expiresAt := if r.Renewed? then s.now + s.ttl else s1.expiresAt)
    case Return =>
      (match s.pc.reply
       case Renewed => s.(pc := Waiting, lastRefreshed := s.now, log := s.log + [Refreshed(s.now)])
       case NotHeld(ours) => s.(pc := Marking, log := s.log + [NotHeldReported(ours)])
       case Transient(_) =>
         if s.now - s.lastRefreshed >= s.ttl
         then s.(pc := Marking, log := s.log + [TtlElapsed(s.now, s.expiresAt)])
         else s.(pc := Waiting))
    case Select => s.(pc := if s.stopped then Exited else Closing)
    case Close => s.(pc := Exited, done := true, log := if s.done then s.log else s.log + [DoneClosed])
    case ReleaseStop =>
      s.(stopped := true, releasing := s.releasing + 1, log := if s.stopped then s.log else s.log + [StopClosed])
    case ReleaseBackend =>
      s.(releasing := s.releasing - 1, owner := if s.owner.Held? then ReleasedByUs else s.owner)
    case Refresh => Extend(s)
    case Lose => s.(owner := Taken)
  }

  /** The backend extends the lease and the watchdog does not learn of it: a Refresh by the
      holder, or a renewal whose reply is lost. */
  function Extend(s: State): State {
    s.(expiresAt := s.now + s.ttl, log := s.log + [Extended(s.now)])
  }

  predicate Legal(s: State, run: seq<Action>)
    decreases |run|
  {
    run == [] || (Enabled(s, run[0]) && Legal(Apply(s, run[0]), run[1..]))
  }

  function Exec(s: State, run: seq<Action>): State
    requires Legal(s, run)
    decreases |run|
  {
    if run == [] then s else Exec(Apply(s, run[0]), run[1..])
  }

  // ---------------------------------------------------------------- a loss has evidence

  /** log[j] is evidence of a loss, observed while stop was still open: a backend report
      that our own release did not cause, or a full TTL since every refresh the watchdog saw
      succeed. */
  ghost predicate Evidence(s: State, j: int)
    requires 0 <= j < |s.log|
  {
    && (forall m | 0 <= m < j :: !s.log[m].StopClosed?)
    && (|| (s.log[j].NotHeldReported? && !s.log[j].ours)
        || (s.log[j].TtlElapsed?
            && s.startedAt + s.ttl <= s.log[j].at
            && forall m | 0 <= m < j && s.log[m].Refreshed? :: s.log[m].at + s.ttl <= s.log[j].at))
  }

  ghost predicate Justified(s: State) {
    exists j :: 0 <= j < |s.log| && Evidence(s, j)
  }

  /** What the log, the stop channel and the backend say agree. */
  ghost predicate StopInv(s: State) {
    && s.startedAt <= s.lastRefreshed <= s.now
    && (forall m | 0 <= m < |s.log| && s.log[m].Refreshed? :: s.log[m].at <= s.lastRefreshed)
    && (s.stopped <==> StopClosed in s.log)
    && (s.releasing > 0 || s.owner.ReleasedByUs? ==> s.stopped)
    && (s.pc.Answered? && s.pc.reply.NotHeld? && s.pc.reply.ours ==> s.stopped)
  }

  ghost predicate EvidenceBefore(s: State, i: int)
    requires 0 <= i <= |s.log|
  {
    exists j :: 0 <= j < i && Evidence(s, j)
  }

  /** Done is closed at most once, by a watchdog that then exits. */
  ghost predicate DoneInv(s: State) {
    && (s.done <==> DoneClosed in s.log)
    && (s.done ==> s.pc.Exited?)
    && (s.pc.Exited? ==> s.stopped || s.done)
    && (forall i, j | 0 <= i < j < |s.log| && s.log[i].DoneClosed? :: !s.log[j].DoneClosed?)
  }

  /** Whoever is about to close done, and whoever has closed it, had evidence. */
  ghost predicate EvidenceInv(s: State) {
    && (s.pc.Marking? && !s.stopped ==> Justified(s))
    && (s.pc.Closing? ==> Justified(s))
    && (forall i | 0 <= i < |s.log| && s.log[i].DoneClosed? :: EvidenceBefore(s, i))
  }

  ghost predicate Inv(s: State) {
    StopInv(s) && DoneInv(s) && EvidenceInv(s)
  }

  lemma JustifiedGrows(s: State, s': State)
    requires Justified(s) && s.log <= s'.log && s'.ttl == s.ttl && s'.startedAt == s.startedAt
    ensures Justified(s')
  {
    var j :| 0 <= j < |s.log| && Evidence(s, j);
    assert Evidence(s', j);
  }

  lemma EvidenceStays(s: State, s': State, i: int)
    requires s.log <= s'.log && s'.ttl == s.ttl && s'.startedAt == s.startedAt && 0 <= i <= |s'.log|
    requires if i < |s.log| then EvidenceBefore(s, i) else Justified(s)
    ensures EvidenceBefore(s', i)
  {
    var j :| 0 <= j < i && j < |s.log| && Evidence(s, j);
    assert Evidence(s', j);
  }

  lemma StepKeepsStop(s: State, a: Action)
    requires StopInv(s) && Enabled(s, a)
    ensures StopInv(Apply(s, a))
  {
  }

  /** A report or a timeout seen while stop is open is evidence. */
  lemma ReportIsEvidence(s: State)
    requires StopInv(s) && s.pc.Answered? && !s.stopped
    ensures var s' := Apply(s, Return); s'.pc.Marking? ==> Justified(s')
  {
    var s' := Apply(s, Return);
    if s'.pc.Marking? { assert Evidence(s', |s.log|); }
  }

  lemma StepKeepsDone(s: State, a: Action)
    requires DoneInv(s) && Enabled(s, a)
    ensures DoneInv(Apply(s, a))
  {
  }

  /** What a step does to the log and to what evidence refers to. */
  lemma LogGrows(s: State, a: Action)
    requires Enabled(s, a)
    ensures var s' := Apply(s, a); s.log <= s'.log && s'.ttl == s.ttl && s'.startedAt == s.startedAt
    ensures forall i | |s.log| <= i < |Apply(s, a).log| && Apply(s, a).log[i].DoneClosed? :: s.pc.Closing?
  {
  }

  lemma StepKeepsEvidence(s: State, a: Action)
    requires StopInv(s) && EvidenceInv(s) && Enabled(s, a)
    ensures EvidenceInv(Apply(s, a))
  {
    hide StopInv, Evidence;
    var s' := Apply(s, a);
    LogGrows(s, a);
    if Justified(s) { JustifiedGrows(s, s'); }
    if a.Return? && !s.stopped { ReportIsEvidence(s); }
    forall i | 0 <= i < |s'.log| && s'.log[i].DoneClosed? ensures EvidenceBefore(s', i) {
      EvidenceStays(s, s', i);
    }
  }

  lemma StepKeepsInv(s: State, a: Action)
    requires Inv(s) && Enabled(s, a)
    ensures Inv(Apply(s, a))
  {
    StepKeepsStop(s, a);
    StepKeepsDone(s, a);
    StepKeepsEvidence(s, a);
  }

  lemma {:induction false} RunKeepsInv(s: State, run: seq<Action>)
    requires Inv(s) && Legal(s, run)
    ensures Inv(Exec(s, run))
    decreases |run|
  {
    if run != [] {
      StepKeepsInv(s, run[0]);
      RunKeepsInv(Apply(s, run[0]), run[1..]);
    }
  }

  /** In every interleaving Done closes at most once, and only after the watchdog had evidence
      of a loss, met before the first Release closed stop; our own release is never the
      reason. TtlLossIsExpiryIff says when evidence of the second kind is a real loss. */
  lemma DoneMeansLost(cfg: AcquireConfig, now: int, run: seq<Action>, i: int)
    requires Renewable(cfg) && Legal(Started(cfg, now), run)
    requires var s := Exec(Started(cfg, now), run); 0 <= i < |s.log| && s.log[i].DoneClosed?
    ensures var s := Exec(Started(cfg, now), run);
            && (forall j | 0 <= j < |s.log| && s.log[j].DoneClosed? :: j == i)
            && (exists j :: 0 <= j < i && Evidence(s, j))
  {
    RunKeepsInv(Started(cfg, now), run);
    var s := Exec(Started(cfg, now), run);
    assert EvidenceBefore(s, i);
  }

  // ---------------------------------------------------------------- is the lease over in the backend?

  /** The backend's expiry is a TTL after the last refresh the watchdog saw, after one it is
      about to see, or after an unseen extension. */
  ghost predicate ExpiryInv(s: State) {
    ExtensionInv(s) && SourceInv(s)
  }

  ghost predicate ExtensionInv(s: State) {
    && s.startedAt <= s.lastRefreshed <= s.now && s.expiresAt <= s.now + s.ttl
    && (forall m | 0 <= m < |s.log| && s.log[m].Extended? :: s.log[m].at + s.ttl <= s.expiresAt)
  }

  ghost predicate SourceInv(s: State) {
    || s.expiresAt <= s.lastRefreshed + s.ttl
    || (s.pc.Answered? && s.pc.reply.Renewed?)
    || exists m :: 0 <= m < |s.log| && ExtendedTo(s, m, s.expiresAt)
  }

  ghost predicate ExtendedTo(s: State, m: int, expiry: int)
    requires 0 <= m < |s.log|
  {
    s.log[m].Extended? && s.log[m].at + s.ttl == expiry
  }

  /** When the watchdog gave up at log[j], the lease had expired in the backend exactly if
      every unseen extension was at least a full TTL old. */
  ghost predicate ExpiredIffUnextended(s: State, j: int)
    requires 0 <= j < |s.log| && s.log[j].TtlElapsed?
  {
    s.log[j].expiry <= s.log[j].at <==>
      forall m | 0 <= m < j && s.log[m].Extended? :: s.log[m].at + s.ttl <= s.log[j].at
  }

  ghost predicate GaveUpInv(s: State) {
    forall j | 0 <= j < |s.log| && s.log[j].TtlElapsed? :: ExpiredIffUnextended(s, j)
  }

  lemma StepKeepsExtension(s: State, a: Action)
    requires ExtensionInv(s) && Enabled(s, a)
    ensures ExtensionInv(Apply(s, a))
  {
  }

  lemma StepKeepsExpiry(s: State, a: Action)
    requires ExpiryInv(s) && Enabled(s, a)
    ensures ExpiryInv(Apply(s, a))
  {
    StepKeepsExtension(s, a);
    StepKeepsSource(s, a);
  }

  lemma StepKeepsSource(s: State, a: Action)
    requires ExpiryInv(s) && Enabled(s, a)
    ensures SourceInv(Apply(s, a))
  {
    var s' := Apply(s, a);
    if s'.expiresAt != s.expiresAt && s'.log != s.log {
      assert ExtendedTo(s', |s.log|, s'.expiresAt);
    } else if m :| 0 <= m < |s.log| && ExtendedTo(s, m, s.expiresAt) {
      assert ExtendedTo(s', m, s.expiresAt);
    }
  }

  lemma StepKeepsGaveUp(s: State, a: Action)
    requires ExpiryInv(s) && GaveUpInv(s) && Enabled(s, a)
    ensures GaveUpInv(Apply(s, a))
  {
    var s' := Apply(s, a);
    assert forall m | 0 <= m < |s.log| :: s'.log[m] == s.log[m];
    forall j | 0 <= j < |s'.log| && s'.log[j].TtlElapsed? ensures ExpiredIffUnextended(s', j) {
      if j < |s.log| {
        assert ExpiredIffUnextended(s, j);
      } else if m :| 0 <= m < |s.log| && ExtendedTo(s, m, s.expiresAt) {
        assert s'.log[m] == s.log[m];
      }
    }
  }

  lemma {:induction false} RunKeepsExpiry(s: State, run: seq<Action>)
    requires ExpiryInv(s) && GaveUpInv(s) && Legal(s, run)
    ensures GaveUpInv(Exec(s, run)) && Exec(s, run).ttl == s.ttl
    decreases |run|
  {
    if run != [] {
      StepKeepsExpiry(s, run[0]);
      StepKeepsGaveUp(s, run[0]);
      RunKeepsExpiry(Apply(s, run[0]), run[1..]);
    }
  }

  /** A loss declared for want of refreshes is a server-side expiry exactly when no extension
      of the last TTL went unseen by the watchdog. */
  lemma TtlLossIsExpiryIff(cfg: AcquireConfig, now: int, run: seq<Action>, j: int)
    requires Renewable(cfg) && Legal(Started(cfg, now), run)
    requires var log := Exec(Started(cfg, now), run).log; 0 <= j < |log| && log[j].TtlElapsed?
    ensures var log := Exec(Started(cfg, now), run).log;
            log[j].expiry <= log[j].at <==>
              forall m | 0 <= m < j && log[m].Extended? :: log[m].at + cfg.ttl <= log[j].at
  {
    RunKeepsExpiry(Started(cfg, now), run);
    var s := Exec(Started(cfg, now), run);
    assert ExpiredIffUnextended(s, j);
  }

  lemma {:induction false} OneMore(s: State, run: seq<Action>, a: Action)
    requires Legal(s, run) && Enabled(Exec(s, run), a)
    ensures Legal(s, run + [a]) && Exec(s, run + [a]) == Apply(Exec(s, run), a)
    decreases |run|
  {
    if run != [] {
      OneMore(Apply(s, run[0]), run[1..], a);
      assert (run + [a])[1..] == run[1..] + [a];
    } else {
      assert (run + [a])[1..] == [];
    }
  }

  /** The watchdog fails to refresh once, at its next tick. */
  lemma FailedTick(s0: State, run: seq<Action>) returns (run': seq<Action>)
    requires Legal(s0, run)
    requires var s := Exec(s0, run); s.pc.Waiting? && s.now <= s.due
    ensures Legal(s0, run')
    ensures var s, s' := Exec(s0, run), Exec(s0, run');
            var t := s.(now := s.due, due := s.due + Interval(s));
            s' == if t.now - t.lastRefreshed >= t.ttl
                  then t.(pc := Marking, log := t.log + [TtlElapsed(t.now, t.expiresAt)]) else t
  {
    var s := Exec(s0, run);
    run' := run;
    OneMore(s0, run', Advance(s.due - s.now)); run' := run' + [Advance(s.due - s.now)];
    OneMore(s0, run', Tick); run' := run' + [Tick];
    OneMore(s0, run', Answer(Transient(false))); run' := run' + [Answer(Transient(false))];
    OneMore(s0, run', Return); run' := run' + [Return];
  }

  /** The condition is needed: three failed ticks of a 30 ms lease that the holder refreshed
      by hand after 20 ms close Done while the lease is held and unexpired. */
  lemma DoneCanCloseOnAHeldLease(cfg: AcquireConfig) returns (run: seq<Action>)
    requires Renewable(cfg) && cfg.ttl == 30 * MILLISECOND
    ensures Legal(Started(cfg, 0), run)
    ensures var s := Exec(Started(cfg, 0), run); s.done && !s.stopped && s.owner.Held? && s.now < s.expiresAt
  {
    var s0 := Started(cfg, 0);
    run := FailedTick(s0, []);
    run := FailedTick(s0, run);
    OneMore(s0, run, Refresh); run := run + [Refresh];
    run := FailedTick(s0, run);
    OneMore(s0, run, Select); run := run + [Select];
    OneMore(s0, run, Close); run := run + [Close];
  }

  // ---------------------------------------------------------------- timing

  /** Time does not pass a due tick or the deadline of a refresh in progress, nor while a
      loss is being marked. */
  predicate Timely(s: State, a: Action) {
    a.Advance? ==>
      match s.pc
      case Waiting => s.now + a.elapsed <= s.due
      case Refreshing(start) => s.now + a.elapsed <= start + Interval(s)
      case Answered(start, _) => s.now + a.elapsed <= start + Interval(s)
      case Marking => a.elapsed == 0
      case Closing => a.elapsed == 0
      case Exited => true
  }

  predicate TimelyRun(s: State, run: seq<Action>)
    requires Legal(s, run)
    decreases |run|
  {
    run == [] || (Timely(s, run[0]) && TimelyRun(Apply(s, run[0]), run[1..]))
  }

  /** The watchdog keeps its rhythm, and has not yet seen a full TTL without a refresh. */
  ghost predicate RhythmInv(s: State) {
    && s.ttl >= MIN_AUTO_RENEW_TTL && s.lastRefreshed <= s.now
    && match s.pc
       case Waiting => s.now <= s.due && s.due < s.lastRefreshed + s.ttl + Interval(s)
       case Refreshing(start) =>
         start <= s.now <= s.due == start + Interval(s) && start < s.lastRefreshed + s.ttl + Interval(s)
       case Answered(start, _) =>
         start <= s.now <= s.due == start + Interval(s) && start < s.lastRefreshed + s.ttl + Interval(s)
       case Marking => s.now < s.lastRefreshed + s.ttl + 2 * Interval(s)
       case Closing => s.now < s.lastRefreshed + s.ttl + 2 * Interval(s)
       case Exited => true
  }

  lemma StepKeepsRhythm(s: State, a: Action)
    requires RhythmInv(s) && Enabled(s, a) && Timely(s, a)
    ensures RhythmInv(Apply(s, a))
  {
  }

  lemma {:induction false} RunKeepsRhythm(s: State, run: seq<Action>)
    requires RhythmInv(s) && Legal(s, run) && TimelyRun(s, run)
    ensures RhythmInv(Exec(s, run)) && Exec(s, run).ttl == s.ttl
    decreases |run|
  {
    if run != [] {
      StepKeepsRhythm(s, run[0]);
      RunKeepsRhythm(Apply(s, run[0]), run[1..]);
    }
  }

  /** Once refreshes stop succeeding, an unreleased lease is declared lost before
      last success + TTL + 2 * (TTL / 3). */
  lemma LossIsDetected(cfg: AcquireConfig, now: int, run: seq<Action>)
    requires Renewable(cfg) && Legal(Started(cfg, now), run) && TimelyRun(Started(cfg, now), run)
    ensures var s := Exec(Started(cfg, now), run);
            !s.stopped && s.now >= s.lastRefreshed + cfg.ttl + 2 * (cfg.ttl / 3) ==> s.done
  {
    RunKeepsInv(Started(cfg, now), run);
    RunKeepsRhythm(Started(cfg, now), run);
  }

  lemma {:induction false} SplitRun(s: State, a: seq<Action>, b: seq<Action>)
    requires Legal(s, a + b)
    ensures Legal(s, a) && Legal(Exec(s, a), b) && Exec(s, a + b) == Exec(Exec(s, a), b)
    ensures TimelyRun(s, a + b) ==> TimelyRun(s, a) && TimelyRun(Exec(s, a), b)
    decreases |a|
  {
    if a == [] {
      assert a + b == b;
    } else {
      assert (a + b)[1..] == a[1..] + b;
      SplitRun(Apply(s, a[0]), a[1..], b);
    }
  }

  /** In a run without a renewal the watchdog's last success stays where it was. */
  lemma {:induction false} NoRenewalNoSuccess(s: State, run: seq<Action>)
    requires Legal(s, run) && Answer(Renewed) !in run && !(s.pc.Answered? && s.pc.reply.Renewed?)
    ensures Exec(s, run).lastRefreshed == s.lastRefreshed
    decreases |run|
  {
    if run != [] {
      assert run[0] in run;
      NoRenewalNoSuccess(Apply(s, run[0]), run[1..]);
    }
  }

  lemma {:induction false} StopNeedsRelease(s: State, run: seq<Action>)
    requires Legal(s, run) && ReleaseStop !in run
    ensures Exec(s, run).stopped == s.stopped
    decreases |run|
  {
    if run != [] {
      assert run[0] in run;
      StopNeedsRelease(Apply(s, run[0]), run[1..]);
    }
  }

  /** The same by what happens in the run: if the backend renews nothing from some point on and
      no Release comes, the lease is declared lost before that point + TTL + 2 * (TTL / 3). */
  lemma LossFollowsTheLastRenewal(cfg: AcquireConfig, now: int, before: seq<Action>, after: seq<Action>)
    requires Renewable(cfg) && Legal(Started(cfg, now), before + after) && TimelyRun(Started(cfg, now), before + after)
    requires ReleaseStop !in before && ReleaseStop !in after && Answer(Renewed) !in after
    requires Legal(Started(cfg, now), before)
    requires var s := Exec(Started(cfg, now), before); s.pc.Answered? ==> !s.pc.reply.Renewed?
    ensures var s, s' := Exec(Started(cfg, now), before), Exec(Started(cfg, now), before + after);
            s'.now >= s.now + cfg.ttl + 2 * (cfg.ttl / 3) ==> s'.done
  {
    var s0 := Started(cfg, now);
    SplitRun(s0, before, after);
    var s := Exec(s0, before);
    RunKeepsInv(s0, before);
    NoRenewalNoSuccess(s, after);
    StopNeedsRelease(s0, before + after);
    LossIsDetected(cfg, now, before + after);
  }

  // ---------------------------------------------------------------- a denial is definitive

  /** The watchdog was told that the token no longer owns the lock, and nobody has called
      Release: it is on its way to closing done, and has until the deadline. */
  ghost predicate Denied(s: State, deadline: int) {
    && !s.stopped
    && match s.pc
       case Answered(start, reply) => reply == NotHeld(false) && s.now <= start + Interval(s) == deadline
       case Marking => s.now <= deadline
       case Closing => s.now <= deadline
       case Exited => s.done
       case _ => false
  }

  lemma {:induction false} DeniedStays(s: State, run: seq<Action>, deadline: int)
    requires Denied(s, deadline) && Legal(s, run) && TimelyRun(s, run) && ReleaseStop !in run
    ensures Denied(Exec(s, run), deadline) && Tick !in run
    decreases |run|
  {
    if run != [] {
      assert run[0] in run;
      DeniedStays(Apply(s, run[0]), run[1..], deadline);
      assert run == [run[0]] + run[1..];
    }
  }

  /** Without a tick no other refresh is under way than the one that was. */
  lemma {:induction false} OneRefreshPerTick(s: State, run: seq<Action>, start: int)
    requires Legal(s, run) && Tick !in run && (s.pc.Refreshing? ==> s.pc.start == start)
    ensures var s' := Exec(s, run); s'.pc.Refreshing? ==> s'.pc.start == start
    decreases |run|
  {
    if run != [] {
      assert run[0] in run;
      OneRefreshPerTick(Apply(s, run[0]), run[1..], start);
    }
  }

  /** ErrNotHeld is definitive: when the backend denies the token to the refresh of some tick
      and no Release comes, no later refresh is sent, and done is closed before the clock
      passes that tick + TTL / 3. */
  lemma DenialIsDefinitive(cfg: AcquireConfig, now: int, before: seq<Action>, during: seq<Action>, after: seq<Action>)
    requires Renewable(cfg) && Tick !in during
    requires var run := (before + ([Tick] + during)) + ([Answer(NotHeld(false))] + after);
             && Legal(Started(cfg, now), before)
             && Legal(Started(cfg, now), run) && TimelyRun(Started(cfg, now), run) && ReleaseStop !in run
    ensures Tick !in after
    ensures var run := (before + ([Tick] + during)) + ([Answer(NotHeld(false))] + after);
            var s, s' := Exec(Started(cfg, now), before), Exec(Started(cfg, now), run);
            s'.now > s.now + cfg.ttl / 3 ==> s'.done
  {
    var s0 := Started(cfg, now);
    var denial := [Answer(NotHeld(false))] + after;
    SplitRun(s0, before + ([Tick] + during), denial);
    SplitRun(s0, before, [Tick] + during);
    var s := Exec(s0, before);
    assert ([Tick] + during)[1..] == during && denial[1..] == after;
    assert forall a | a in after :: a in denial;
    var s1 := Apply(s, Tick);
    OneRefreshPerTick(s1, during, s.now);
    var s2 := Exec(s1, during);
    RunKeepsRhythm(s0, before + ([Tick] + during));
    StopNeedsRelease(s0, before + ([Tick] + during));
    DeniedStays(Apply(s2, Answer(NotHeld(false))), after, s.now + cfg.ttl / 3);
  }

  // ---------------------------------------------------------------- rhythm and release

  function Ticks(run: seq<Action>): nat {
    if run == [] then 0 else (if run[0].Tick? then 1 else 0) + Ticks(run[1..])
  }

  lemma {:induction false} DueTimes(s: State, run: seq<Action>)
    requires Legal(s, run)
    ensures Exec(s, run).due == s.due + Ticks(run) * Interval(s) && Exec(s, run).ttl == s.ttl
    decreases |run|
  {
    if run != [] {
      DueTimes(Apply(s, run[0]), run[1..]);
      assert (1 + Ticks(run[1..])) * Interval(s) == Interval(s) + Ticks(run[1..]) * Interval(s);
    }
  }

  /** The watchdog refreshes every third of the TTL: in a timely run its n-th refresh is sent
      exactly n * (TTL / 3) after the start. */
  lemma RefreshesAreRegular(cfg: AcquireConfig, now: int, before: seq<Action>)
    requires Renewable(cfg) && Legal(Started(cfg, now), before) && TimelyRun(Started(cfg, now), before)
    requires Enabled(Exec(Started(cfg, now), before), Tick)
    ensures Exec(Started(cfg, now), before).now == now + (Ticks(before) + 1) * (cfg.ttl / 3)
  {
    RunKeepsRhythm(Started(cfg, now), before);
    DueTimes(Started(cfg, now), before);
    assert (Ticks(before) + 1) * (cfg.ttl / 3) == cfg.ttl / 3 + Ticks(before) * (cfg.ttl / 3);
  }

  /** How many steps the watchdog can still take when it picks no tick. */
  function StepsLeft(pc: Pc): nat {
    match pc
    case Refreshing(_) => 5
    case Answered(_, _) => 4
    case Waiting => 3
    case Marking => 2
    case Closing => 1
    case Exited => 0
  }

  predicate IsWatchdogStep(a: Action) {
    a.Quit? || a.Answer? || a.Return? || a.Select? || a.Close?
  }

  /** After Release the watchdog goes away: it can always take a step, and unless it picks a
      tick that was due as well, each step brings it closer to its exit. */
  lemma StoppedWatchdogExits(s: State, a: Action)
    requires s.stopped && !s.pc.Exited? && Enabled(s, a)
    ensures (exists b :: IsWatchdogStep(b) && Enabled(s, b))
    ensures if IsWatchdogStep(a) then StepsLeft(Apply(s, a).pc) < StepsLeft(s.pc)
            else a.Tick? || Apply(s, a).pc == s.pc
    ensures Apply(s, a).stopped
  {
    var b := match s.pc
      case Waiting => Quit
      case Refreshing(_) => Answer(Transient(false))
      case Answered(_, _) => Return
      case Marking => Select
      case Closing => Close;
    assert IsWatchdogStep(b) && Enabled(s, b);
  }

  /** A Release that has reached the backend ends the token's ownership for good. */
  lemma {:induction false} ReleaseIsFinal(s: State, run: seq<Action>)
    requires Legal(s, run) && (ReleaseBackend in run || !s.owner.Held?)
    ensures !Exec(s, run).owner.Held?
    decreases |run|
  {
    if run != [] {
      assert run == [run[0]] + run[1..];
      ReleaseIsFinal(Apply(s, run[0]), run[1..]);
    }
  }

  /** The backend answers every refresh with success and takes the lock away only at expiry. */
  predicate Healthy(s: State, a: Action) {
    && (a.Answer? ==> a.reply.Renewed?)
    && (a.Lose? ==> s.now >= s.expiresAt)
    && !a.ReleaseStop?
  }

  predicate HealthyRun(s: State, run: seq<Action>)
    requires Legal(s, run)
    decreases |run|
  {
    run == [] || (Healthy(s, run[0]) && HealthyRun(Apply(s, run[0]), run[1..]))
  }

  /** The backend lease always outlives the next refresh. */
  ghost predicate HealthInv(s: State) {
    && s.owner.Held? && !s.stopped && s.releasing == 0 && s.now < s.expiresAt <= s.now + s.ttl
    && s.ttl >= MIN_AUTO_RENEW_TTL
    && match s.pc
       case Waiting => s.now <= s.due && s.expiresAt >= s.due - Interval(s) + s.ttl
       case Refreshing(start) =>
         start <= s.now <= s.due == start + Interval(s) && s.expiresAt >= start - Interval(s) + s.ttl
       case Answered(start, reply) =>
         reply.Renewed? && start <= s.now <= s.due == start + Interval(s) && s.expiresAt >= start + s.ttl
       case _ => false
  }

  lemma StepKeepsHealth(s: State, a: Action)
    requires HealthInv(s) && Enabled(s, a) && Timely(s, a) && Healthy(s, a)
    ensures HealthInv(Apply(s, a))
  {
  }

  lemma {:induction false} RunKeepsHealth(s: State, run: seq<Action>)
    requires HealthInv(s) && Legal(s, run) && TimelyRun(s, run) && HealthyRun(s, run)
    ensures HealthInv(Exec(s, run))
    decreases |run|
  {
    if run != [] {
      StepKeepsHealth(s, run[0]);
      RunKeepsHealth(Apply(s, run[0]), run[1..]);
    }
  }

  /** With timely ticks and successful refreshes the lease never expires: it is still held
      by this token, the clock is short of its expiry, and no loss has been declared. */
  lemma HealthyLeaseNeverExpires(cfg: AcquireConfig, now: int, run: seq<Action>)
    requires Renewable(cfg) && Legal(Started(cfg, now), run)
    requires TimelyRun(Started(cfg, now), run) && HealthyRun(Started(cfg, now), run)
    ensures var s := Exec(Started(cfg, now), run);
            s.owner.Held? && s.now < s.expiresAt && !s.done
  {
    RunKeepsHealth(Started(cfg, now), run);
    RunKeepsInv(Started(cfg, now), run);
  }
}
