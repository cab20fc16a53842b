/**
 Schedule triggers. Instants are nanoseconds since the zero time, so 0 is the zero time
 itself; instants are unbounded here, durations are int64.
 */
module Trigger {
  import opened Options
  import opened Arithmetic

  const MIN_INTERVAL_MS := 1000
  const MAX_DURATION_MS := MAX_INT64 / MILLISECOND

  type Instant = int

  datatype Kind = CronKind | IntervalKind | OnceKind | OtherKind

  datatype TriggerSpec = TriggerSpec(kind: Kind, expr: string, timezone: string, everyMs: int, at: Option<Instant>)

  /** The cron-expression and timezone libraries: which expressions parse, which zones
      load, and the next fire of an expression in a zone (0 when there is none). */
  datatype Library = Library(
    parses: string -> bool, loads: string -> bool, fires: (string, string, Instant) -> bool,
    next: (string, string, Instant) -> Instant)

  datatype TriggerError =
    | FieldsConflict | ExprRequired | ExprInvalid | TimezoneInvalid
    | IntervalTooLong | IntervalTooShort | FireTimeRequired | KindUnknown

  datatype Compiled =
    | CronTrigger(expr: string, timezone: string)
    | IntervalTrigger(everyMs: int)
    | OnceTrigger(at: Instant)

  predicate HasFieldConflict(t: TriggerSpec) {
    match t.kind
    case CronKind => t.everyMs != 0 || t.at.Some?
    case IntervalKind => t.expr != "" || t.timezone != "" || t.at.Some?
    case OnceKind => t.expr != "" || t.timezone != "" || t.everyMs != 0
    case OtherKind => false
  }

  predicate ZoneResolves(lib: Library, zone: string) {
    zone == "" || (zone != "Local" && lib.loads(zone))
  }

  function Validate(lib: Library, t: TriggerSpec): Result<(), TriggerError> {
    if HasFieldConflict(t) then Err(FieldsConflict) else
    match t.kind
    case CronKind =>
      if t.expr == "" then Err(ExprRequired)
      else if !lib.parses(t.expr) then Err(ExprInvalid)
      else if !ZoneResolves(lib, t.timezone) then Err(TimezoneInvalid)
      else Ok(())
    case IntervalKind =>
      if t.everyMs > MAX_DURATION_MS then Err(IntervalTooLong)
      else if t.everyMs < MIN_INTERVAL_MS then Err(IntervalTooShort)
      else Ok(())
    case OnceKind => if t.at.None? || t.at.value == 0 then Err(FireTimeRequired) else Ok(())
    case OtherKind => Err(KindUnknown)
  }

  function Compile(lib: Library, t: TriggerSpec): Option<Compiled> {
    if HasFieldConflict(t) then None else
    match t.kind
    case CronKind =>
      if lib.parses(t.expr) && ZoneResolves(lib, t.timezone) then Some(CronTrigger(t.expr, t.timezone)) else None
    case IntervalKind =>
      if t.everyMs < MIN_INTERVAL_MS || t.everyMs > MAX_DURATION_MS then None else Some(IntervalTrigger(t.everyMs))
    case OnceKind => if t.at.None? then None else Some(OnceTrigger(t.at.value))
    case OtherKind => None
  }

  /** Everything Validate accepts compiles; the converse fails only for an empty cron
      expression the parser would take and for a one-shot trigger at the zero time. */
  lemma ValidIffCompiles(lib: Library, t: TriggerSpec)
    ensures Validate(lib, t).Ok? <==>
              Compile(lib, t).Some? && !(t.kind.CronKind? && t.expr == "") && !(t.kind.OnceKind? && t.at == Some(0))
  {
  }

  /** time.Time.Sub: the difference, saturated to int64. */
  function Sub(a: Instant, b: Instant): int {
    if a - b > MAX_INT64 then MAX_INT64 else if a - b < MIN_INT64 then MIN_INT64 else a - b
  }

  /** A compiled spec: Compile never yields a rate outside these bounds. */
  predicate WellFormed(c: Compiled) {
    c.IntervalTrigger? ==> MIN_INTERVAL_MS <= c.everyMs <= MAX_DURATION_MS
  }

  function Next(lib: Library, c: Compiled, after: Instant, anchor: Instant): Option<Instant>
    requires WellFormed(c)
  {
    match c
    case CronTrigger(expr, zone) =>
      var n := lib.next(expr, zone, after);
      if n == 0 then None else Some(n)
    case IntervalTrigger(everyMs) =>
      var every := everyMs * MILLISECOND;
      var a := if anchor == 0 then after else anchor;
      if after < a then Some(a)
      else Some(after + (every - Sub(after, a) % every))
    case OnceTrigger(at) => if at <= after then None else Some(at)
  }

  /** Milliseconds to nanoseconds never overflows a Duration for a compiled rate, and the
      delay handed to Time.Add is a positive Duration of at most one period. */
  lemma RateFitsDuration(lib: Library, t: TriggerSpec, gap: int)
    requires Compile(lib, t).Some? && t.kind.IntervalKind? && 0 <= gap <= MAX_INT64
    ensures WellFormed(Compile(lib, t).value)
    ensures 0 < t.everyMs * MILLISECOND <= MAX_INT64
    ensures 0 < t.everyMs * MILLISECOND - gap % (t.everyMs * MILLISECOND) <= MAX_INT64
  {
  }

  // ---------------------------------------------------------------- fire times

  /** x is a fire of an interval of period every anchored at a. */
  ghost predicate OnPhase(a: Instant, every: int, x: Instant) {
    exists k: nat :: x == a + k * every
  }

  ghost predicate Fires(lib: Library, c: Compiled, anchor: Instant, x: Instant) {
    match c
    case CronTrigger(expr, zone) => lib.fires(expr, zone, x)
    case IntervalTrigger(everyMs) => OnPhase(anchor, everyMs * MILLISECOND, x)
    case OnceTrigger(at) => x == at
  }

  /** n is the least fire strictly after t; None means there is none. */
  ghost predicate IsNext(lib: Library, c: Compiled, anchor: Instant, t: Instant, n: Option<Instant>) {
    match n
    case None => forall x | x > t :: !Fires(lib, c, anchor, x)
    case Some(n) => n > t && Fires(lib, c, anchor, n) && forall x | t < x < n :: !Fires(lib, c, anchor, x)
  }

  /** The cron library's side of the bargain for one expression: its next is the least of a
      set of fires, or the zero time when there is none left. Expressions that fire relative
      to the query do not have such a set; see Relative below. */
  ghost predicate LibraryIsLeast(lib: Library, c: Compiled) {
    c.CronTrigger? ==> forall t :: LeastOrNone(lib, c.expr, c.timezone, t)
  }

  ghost predicate LeastOrNone(lib: Library, expr: string, zone: string, t: Instant) {
    var n := lib.next(expr, zone, t);
    || (n > t && lib.fires(expr, zone, n) && forall x | t < x < n :: !lib.fires(expr, zone, x))
    || (n == 0 && forall x | x > t :: !lib.fires(expr, zone, x))
  }

  /** A fire at the zero time itself cannot be told from "none": it is hidden from queries
      before it. */
  predicate HidesZero(lib: Library, c: Compiled, t: Instant) {
    c.CronTrigger? && t < 0 && lib.next(c.expr, c.timezone, t) == 0 && lib.fires(c.expr, c.timezone, 0)
  }

  lemma NextOnPhase(a: Instant, every: int, after: Instant, gap: int)
    requires every > 0 && after >= a && 0 <= gap
    ensures var n := after + (every - gap % every);
      && after < n <= after + every
      && ((after - a) % every == gap % every ==>
            OnPhase(a, every, n) && forall x | after < x < n :: !OnPhase(a, every, x))
      && ((after - a) % every != gap % every ==> !OnPhase(a, every, n))
  {
    var q, r := (after - a) / every, (after - a) % every;
    if r == gap % every {
      NextFireIsLeast(a, every, after, q, r);
    } else {
      OffPhase(a, every, after, q, r, gap % every);
    }
  }

  lemma NextFireIsLeast(a: Instant, every: int, after: Instant, q: nat, r: int)
    requires 0 <= r < every && after == a + q * every + r
    ensures OnPhase(a, every, after + (every - r))
    ensures forall x | after < x < after + (every - r) :: !OnPhase(a, every, x)
  {
    var n := after + (every - r);
    assert n == a + (q + 1) * every;
    forall x | after < x < n ensures !OnPhase(a, every, x) {
      forall k: nat ensures x != a + k * every { Between(k, q, every); }
    }
  }

  lemma OffPhase(a: Instant, every: int, after: Instant, q: nat, r: int, g: int)
    requires 0 <= r < every && 0 <= g < every && r != g && after == a + q * every + r
    ensures !OnPhase(a, every, after + (every - g))
  {
    var n := after + (every - g);
    forall k: nat ensures n != a + k * every {
      assert (k - q) * every == k * every - q * every;
      if (k - q) * every == every - g + r { Congruent(k - q, every, g, r); }
    }
  }

  lemma Between(k: int, q: int, every: int)
    requires every > 0
    ensures k <= q ==> k * every <= q * every
    ensures k >= q + 1 ==> k * every >= (q + 1) * every
    ensures k >= q + 2 ==> k * every >= (q + 2) * every
  {
  }

  lemma Congruent(d: int, every: int, g: int, r: int)
    requires every > 0 && 0 <= g < every && 0 <= r < every && d * every == every - g + r
    ensures g == r
  {
    assert d <= 0 ==> d * every <= 0;
    assert d >= 2 ==> d * every >= 2 * every;
  }

  /** The phase survives the subtraction: it did not saturate, or saturated congruently. */
  predicate PhaseKept(c: Compiled, anchor: Instant, t: Instant) {
    c.IntervalTrigger? && c.everyMs > 0 && anchor <= t ==>
      var every := c.everyMs * MILLISECOND;
      t - anchor <= MAX_INT64 || (t - anchor) % every == MAX_INT64 % every
  }

  /** The least fire after a query, computed without saturation. */
  lemma ExactNextIsLeast(lib: Library, c: Compiled, anchor: Instant, after: Instant)
    requires WellFormed(c) && c.IntervalTrigger?
    ensures var every := c.everyMs * MILLISECOND;
            var n := if after < anchor then anchor else after + (every - (after - anchor) % every);
            IsNext(lib, c, anchor, after, Some(n))
  {
    var every := c.everyMs * MILLISECOND;
    if after < anchor {
      AnchorIsFirst(anchor, every, after);
    } else {
      NextOnPhase(anchor, every, after, after - anchor);
    }
  }

  lemma AnchorIsFirst(anchor: Instant, every: int, after: Instant)
    requires every > 0 && after < anchor
    ensures OnPhase(anchor, every, anchor) && forall x | after < x < anchor :: !OnPhase(anchor, every, x)
  {
    assert anchor == anchor + 0 * every;
    forall x | after < x < anchor ensures !OnPhase(anchor, every, x) {
      assert forall k: nat :: k * every >= 0;
    }
  }

  /** The answer is the least fire, or a fire at all, exactly when the phase is kept. */
  lemma IntervalNextIsLeast(lib: Library, c: Compiled, anchor: Instant, after: Instant)
    requires WellFormed(c) && c.IntervalTrigger? && anchor != 0
    ensures var n := Next(lib, c, after, anchor);
            && (IsNext(lib, c, anchor, after, n) <==> PhaseKept(c, anchor, after))
            && (n.Some? && Fires(lib, c, anchor, n.value) <==> PhaseKept(c, anchor, after))
  {
    var every := c.everyMs * MILLISECOND;
    if after < anchor {
      AnchorIsFirst(anchor, every, after);
    } else {
      NextOnPhase(anchor, every, after, Sub(after, anchor));
    }
  }

  /** Next is the least fire strictly after the query, for every kind of trigger, exactly
      when the phase is kept and no fire at the zero time is hidden: always for one-shot
      triggers, for cron queries at or after the zero time, and for an anchored interval
      whenever the gap fits a Duration. */
  lemma NextIsLeastFire(lib: Library, c: Compiled, anchor: Instant, after: Instant)
    requires WellFormed(c) && LibraryIsLeast(lib, c) && (c.IntervalTrigger? ==> anchor != 0)
    ensures IsNext(lib, c, anchor, after, Next(lib, c, after, anchor)) <==>
              PhaseKept(c, anchor, after) && !HidesZero(lib, c, after)
  {
    match c
    case CronTrigger(expr, zone) =>
      assert LeastOrNone(lib, expr, zone, after);
      assert forall x :: Fires(lib, c, anchor, x) <==> lib.fires(expr, zone, x);
    case OnceTrigger(_) =>
    case IntervalTrigger(_) => IntervalNextIsLeast(lib, c, anchor, after);
  }

  /** Saturation does cost the phase: a query 2^63 ns past the anchor of a 2 s interval is
      answered with an instant that is not anchor + k * 2 s for any k, so with no fire at all. */
  lemma SaturationLosesThePhase(lib: Library)
    ensures var c, anchor := IntervalTrigger(2000), 1;
            var n := Next(lib, c, anchor + MAX_INT64 + 1, anchor);
            n.Some? && !OnPhase(anchor, 2000 * MILLISECOND, n.value)
  {
    IntervalNextIsLeast(lib, IntervalTrigger(2000), 1, 1 + MAX_INT64 + 1);
  }

  /** Even when the phase drifts, an interval fires within one period of the query. */
  lemma DelayStaysWithinPeriod(lib: Library, c: Compiled, anchor: Instant, after: Instant)
    requires WellFormed(c) && c.IntervalTrigger? && (anchor == 0 || anchor <= after)
    ensures var n := Next(lib, c, after, anchor); n.Some? && after < n.value <= after + c.everyMs * MILLISECOND
  {
    var every := c.everyMs * MILLISECOND;
    var a := if anchor == 0 then after else anchor;
    NextOnPhase(a, every, after, Sub(after, a));
  }

  // ---------------------------------------------------------------- what a spec says

  /** The specs that have fires at all, by their own fields. */
  predicate Runs(lib: Library, t: TriggerSpec) {
    match t.kind
    case CronKind =>
      && t.everyMs == 0 && t.at.None? && lib.parses(t.expr)
      && (t.timezone == "" || (t.timezone != "Local" && lib.loads(t.timezone)))
    case IntervalKind => t.expr == "" && t.timezone == "" && t.at.None? && 1000 <= t.everyMs <= 9_223_372_036_854
    case OnceKind => t.expr == "" && t.timezone == "" && t.everyMs == 0 && t.at.Some?
    case OtherKind => false
  }

  /** x is a fire of spec t, by its own fields. */
  ghost predicate SpecFires(lib: Library, t: TriggerSpec, anchor: Instant, x: Instant) {
    match t.kind
    case CronKind => lib.fires(t.expr, t.timezone, x)
    case IntervalKind => exists k: nat :: x == anchor + k * (t.everyMs * 1_000_000)
    case OnceKind => t.at == Some(x)
    case OtherKind => false
  }

  /** The cron expression of t, if it is a cron spec, has a set of fires. */
  ghost predicate HasFireSet(lib: Library, t: TriggerSpec) {
    t.kind.CronKind? ==> forall x :: LeastOrNone(lib, t.expr, t.timezone, x)
  }

  /** What compile keeps of a spec is its meaning: it succeeds exactly for the specs that run,
      and the compiled trigger has the fires of the spec. */
  lemma CompileKeepsTheSpec(lib: Library, t: TriggerSpec, anchor: Instant)
    ensures Compile(lib, t).Some? <==> Runs(lib, t)
    ensures Compile(lib, t).Some? ==>
      var c := Compile(lib, t).value;
      && WellFormed(c) && (c.IntervalTrigger? <==> t.kind.IntervalKind?)
      && (c.CronTrigger? <==> t.kind.CronKind?) && (c.OnceTrigger? <==> t.kind.OnceKind?)
      && (c.CronTrigger? ==> c.expr == t.expr && c.timezone == t.timezone)
      && (c.IntervalTrigger? ==> c.everyMs == t.everyMs)
      && forall x :: Fires(lib, c, anchor, x) <==> SpecFires(lib, t, anchor, x)
  {
    if Compile(lib, t).Some? {
      var c := Compile(lib, t).value;
      forall x ensures Fires(lib, c, anchor, x) <==> SpecFires(lib, t, anchor, x) {
        if c.IntervalTrigger? { SamePhase(anchor, t.everyMs, x); }
      }
    }
  }

  lemma SamePhase(anchor: Instant, everyMs: int, x: Instant)
    ensures OnPhase(anchor, everyMs * MILLISECOND, x) <==> exists k: nat :: x == anchor + k * (everyMs * 1_000_000)
  {
  }

  /** TriggerSpec.Next. */
  function NextOfSpec(lib: Library, t: TriggerSpec, after: Instant, anchor: Instant): Option<Instant> {
    var c := Compile(lib, t);
    if c.None? || !WellFormed(c.value) then None else Next(lib, c.value, after, anchor)
  }

  /** The answer is a fire of the spec, strictly after the query, with none between; None means
      that there is none. */
  ghost predicate IsNextFire(lib: Library, t: TriggerSpec, anchor: Instant, after: Instant, n: Option<Instant>) {
    match n
    case None => forall x | x > after :: !SpecFires(lib, t, anchor, x)
    case Some(n) =>
      && n > after && SpecFires(lib, t, anchor, n)
      && forall x | after < x < n :: !SpecFires(lib, t, anchor, x)
  }

  /** A spec that does not run has no next fire; one that does, and is not an interval with the
      zero anchor, is answered with its least fire after the query, exactly unless an
      interval's gap to the anchor saturates out of phase or a cron fire at the zero time is
      hidden from a query before it. */
  lemma NextOfSpecIsItsNextFire(lib: Library, t: TriggerSpec, anchor: Instant, after: Instant)
    requires HasFireSet(lib, t) && (t.kind.IntervalKind? ==> anchor != 0)
    ensures !Runs(lib, t) ==> NextOfSpec(lib, t, after, anchor).None?
    ensures Runs(lib, t) ==>
      (IsNextFire(lib, t, anchor, after, NextOfSpec(lib, t, after, anchor)) <==>
         && (t.kind.IntervalKind? && anchor <= after ==>
               || after - anchor <= 0x7FFF_FFFF_FFFF_FFFF
               || (after - anchor) % (t.everyMs * 1_000_000) == 0x7FFF_FFFF_FFFF_FFFF % (t.everyMs * 1_000_000))
         && (t.kind.CronKind? && after < 0 ==>
               lib.next(t.expr, t.timezone, after) != 0 || !lib.fires(t.expr, t.timezone, 0)))
  {
    CompileKeepsTheSpec(lib, t, anchor);
    if Runs(lib, t) {
      var c := Compile(lib, t).value;
      NextIsLeastFire(lib, c, anchor, after);
      SameNext(lib, t, c, anchor, after, Next(lib, c, after, anchor));
    }
  }

  lemma SameNext(lib: Library, t: TriggerSpec, c: Compiled, anchor: Instant, after: Instant, n: Option<Instant>)
    requires forall x :: Fires(lib, c, anchor, x) <==> SpecFires(lib, t, anchor, x)
    ensures IsNextFire(lib, t, anchor, after, n) <==> IsNext(lib, c, anchor, after, n)
  {
  }

  /** Validate says what is wrong with a spec, by its own fields. */
  lemma ValidateNamesTheFault(lib: Library, t: TriggerSpec)
    ensures Validate(lib, t).Ok? <==>
              Runs(lib, t) && (t.kind.CronKind? ==> t.expr != "") && (t.kind.OnceKind? ==> t.at != Some(0))
    ensures Validate(lib, t) == Err(IntervalTooLong) ==> t.kind.IntervalKind? && t.everyMs > 9_223_372_036_854
    ensures Validate(lib, t) == Err(IntervalTooShort) ==> t.kind.IntervalKind? && t.everyMs < 1000
    ensures Validate(lib, t) == Err(ExprRequired) ==> t.kind.CronKind? && t.expr == ""
    ensures Validate(lib, t) == Err(ExprInvalid) ==> t.kind.CronKind? && t.expr != "" && !lib.parses(t.expr)
    ensures Validate(lib, t) == Err(TimezoneInvalid) ==>
              t.kind.CronKind? && lib.parses(t.expr) && t.timezone != "" && (t.timezone == "Local" || !lib.loads(t.timezone))
    ensures Validate(lib, t) == Err(FireTimeRequired) ==> t.kind.OnceKind? && (t.at.None? || t.at == Some(0))
    ensures Validate(lib, t) == Err(KindUnknown) <==> t.kind.OtherKind?
  {
  }

  // ---------------------------------------------------------------- counting

  ghost function FiresIn(lib: Library, c: Compiled, anchor: Instant, from: Instant, to: Instant): set<Instant> {
    set x: Instant | from < x <= to && Fires(lib, c, anchor, x)
  }

  /** Next is the least fire at every instant the loop can visit. */
  ghost predicate Faithful(lib: Library, c: Compiled, anchor: Instant, from: Instant, to: Instant) {
    && WellFormed(c)
    && forall t | from <= t <= to :: IsNext(lib, c, anchor, t, Next(lib, c, t, anchor))
  }

  /** The loop of Occurrences from cursor on, with `room` more fires to count. */
  function Walk(lib: Library, c: Compiled, anchor: Instant, cursor: Instant, to: Instant, room: nat): nat
    requires WellFormed(c)
    decreases room
  {
    if room == 0 then 0 else
    var n := Next(lib, c, cursor, anchor);
    if n.None? || n.value > to then 0 else 1 + Walk(lib, c, anchor, n.value, to, room - 1)
  }

  /** The fires of spec t in the window. */
  ghost function SpecFiresIn(lib: Library, t: TriggerSpec, anchor: Instant, from: Instant, to: Instant): set<Instant> {
    set x: Instant | from < x <= to && SpecFires(lib, t, anchor, x)
  }

  /** The specs and windows for which counting is counting fires: an interval needs an anchor,
      and a window that ends within a Duration of it; a cron expression needs a set of fires,
      and a window that does not reach back over a fire at the zero time. */
  ghost predicate Countable(lib: Library, t: TriggerSpec, anchor: Instant, from: Instant, to: Instant) {
    && HasFireSet(lib, t)
    && (t.kind.IntervalKind? ==> anchor != 0 && to - anchor <= 0x7FFF_FFFF_FFFF_FFFF)
    && (t.kind.CronKind? ==> from >= 0 || !lib.fires(t.expr, t.timezone, 0))
  }

  lemma CountableIsFaithful(lib: Library, t: TriggerSpec, anchor: Instant, from: Instant, to: Instant)
    requires Runs(lib, t) && Countable(lib, t, anchor, from, to)
    ensures Compile(lib, t).Some? && Faithful(lib, Compile(lib, t).value, anchor, from, to)
    ensures FiresIn(lib, Compile(lib, t).value, anchor, from, to) == SpecFiresIn(lib, t, anchor, from, to)
  {
    CompileKeepsTheSpec(lib, t, anchor);
    AnchoredIsFaithful(lib, Compile(lib, t).value, anchor, from, to);
  }

  /** Counts the fires of the spec in (from, to], up to the limit; 0 for a spec that does not
      run. An interval with the zero anchor is counted from the start of the window. */
  method Occurrences(lib: Library, t: TriggerSpec, from: Instant, to: Instant, anchor: Instant, limit: int)
    returns (count: int)
    ensures Compile(lib, t).Some? ==> WellFormed(Compile(lib, t).value)
    ensures count == if limit <= 0 || to <= from || Compile(lib, t).None? then 0
                     else Walk(lib, Compile(lib, t).value, anchor, from, to, limit)
    ensures limit > 0 && from < to && Compile(lib, t).Some? && Faithful(lib, Compile(lib, t).value, anchor, from, to) ==>
              count == Min(limit, |FiresIn(lib, Compile(lib, t).value, anchor, from, to)|)
    ensures limit <= 0 || to <= from || !Runs(lib, t) ==> count == 0
    ensures limit > 0 && from < to && Runs(lib, t) && Countable(lib, t, anchor, from, to) ==>
              count == Min(limit, |SpecFiresIn(lib, t, anchor, from, to)|)
    ensures limit > 0 && from < to && Runs(lib, t) && t.kind.IntervalKind? && anchor == 0 ==>
              count == Min(limit, (to - from) / (t.everyMs * 1_000_000))
  {
    CompileKeepsTheSpec(lib, t, anchor);
    if limit <= 0 || to <= from { return 0; }
    var compiled := Compile(lib, t);
    if compiled.None? { return 0; }
    var c := compiled.value;
    count := 0;
    var cursor := from;
    while count < limit
      invariant 0 <= count <= limit
      invariant count + Walk(lib, c, anchor, cursor, to, limit - count) == Walk(lib, c, anchor, from, to, limit)
    {
      var next := Next(lib, c, cursor, anchor);
      if next.None? || next.value > to { break; }
      count := count + 1;
      cursor := next.value;
    }
    if Faithful(lib, c, anchor, from, to) { WalkCountsFires(lib, c, anchor, from, to, limit); }
    if Countable(lib, t, anchor, from, to) { CountableIsFaithful(lib, t, anchor, from, to); }
    if t.kind.IntervalKind? && anchor == 0 { ZeroAnchorClosedForm(lib, c, from, to, limit); }
  }

  lemma FirstFire(lib: Library, c: Compiled, anchor: Instant, from: Instant, to: Instant, n: Option<Instant>)
    requires from <= to && IsNext(lib, c, anchor, from, n)
    ensures |FiresIn(lib, c, anchor, from, to)| ==
              if n.None? || n.value > to then 0 else 1 + |FiresIn(lib, c, anchor, n.value, to)|
  {
    var all := FiresIn(lib, c, anchor, from, to);
    if n.None? || n.value > to {
      assert forall x :: x !in all;
      assert all == {};
    } else {
      var rest := FiresIn(lib, c, anchor, n.value, to);
      assert forall x :: x in all <==> x == n.value || x in rest;
      assert all == {n.value} + rest && n.value !in rest;
    }
  }

  /** The loop counts the fires in (from, to], up to the limit. */
  lemma {:induction false} WalkCountsFires(
      lib: Library, c: Compiled, anchor: Instant, from: Instant, to: Instant, limit: nat)
    requires from <= to && Faithful(lib, c, anchor, from, to)
    ensures Walk(lib, c, anchor, from, to, limit) == Min(limit, |FiresIn(lib, c, anchor, from, to)|)
    decreases limit
  {
    var n := Next(lib, c, from, anchor);
    FirstFire(lib, c, anchor, from, to, n);
    if limit > 0 && n.Some? && n.value <= to {
      WalkCountsFires(lib, c, anchor, n.value, to, limit - 1);
    }
  }

  /** Which triggers are faithful: one-shot triggers always, a cron expression with a fire set
      on windows from the zero time on, and an interval with a non-zero anchor as long as
      the window ends within a Duration of the anchor. */
  lemma AnchoredIsFaithful(lib: Library, c: Compiled, anchor: Instant, from: Instant, to: Instant)
    requires WellFormed(c) && LibraryIsLeast(lib, c)
    requires c.IntervalTrigger? ==> anchor != 0 && to - anchor <= MAX_INT64
    requires c.CronTrigger? ==> from >= 0 || !lib.fires(c.expr, c.timezone, 0)
    ensures Faithful(lib, c, anchor, from, to)
  {
    forall t | from <= t <= to ensures IsNext(lib, c, anchor, t, Next(lib, c, t, anchor)) {
      NextIsLeastFire(lib, c, anchor, t);
    }
  }

  /** The windows of every faithful trigger add up. */
  lemma FiresSplit(lib: Library, c: Compiled, anchor: Instant, from: Instant, mid: Instant, to: Instant)
    requires from <= mid <= to
    ensures |FiresIn(lib, c, anchor, from, to)| == |FiresIn(lib, c, anchor, from, mid)| + |FiresIn(lib, c, anchor, mid, to)|
  {
    var l, r := FiresIn(lib, c, anchor, from, mid), FiresIn(lib, c, anchor, mid, to);
    assert FiresIn(lib, c, anchor, from, to) == l + r && l !! r;
  }

  /** Counts over adjacent windows add up exactly when the limit does not cut the total
      short, or one of the windows is empty. */
  lemma OccurrencesSplit(
      lib: Library, c: Compiled, anchor: Instant, from: Instant, mid: Instant, to: Instant, limit: nat)
    requires from <= mid <= to && Faithful(lib, c, anchor, from, to)
    ensures
      var l, r := |FiresIn(lib, c, anchor, from, mid)|, |FiresIn(lib, c, anchor, mid, to)|;
      Walk(lib, c, anchor, from, mid, limit) + Walk(lib, c, anchor, mid, to, limit)
        == Walk(lib, c, anchor, from, to, limit)
      <==> l + r <= limit || l == 0 || r == 0 || limit == 0
  {
    WalkCountsFires(lib, c, anchor, from, mid, limit);
    WalkCountsFires(lib, c, anchor, mid, to, limit);
    WalkCountsFires(lib, c, anchor, from, to, limit);
    FiresSplit(lib, c, anchor, from, mid, to);
  }

  /** The number of fires of an anchored interval up to and including x. */
  function FiresUpTo(anchor: Instant, every: int, x: Instant): int
    requires every > 0
  {
    if x < anchor then 0 else (x - anchor) / every + 1
  }

  /** The loop over an anchored interval counts, up to the limit, what the closed form says. */
  lemma WalkClosedForm(
      lib: Library, c: Compiled, anchor: Instant, from: Instant, to: Instant, limit: nat)
    requires WellFormed(c) && c.IntervalTrigger? && anchor != 0 && from <= to && to - anchor <= MAX_INT64
    ensures var every := c.everyMs * MILLISECOND;
            Walk(lib, c, anchor, from, to, limit) == Min(limit, FiresUpTo(anchor, every, to) - FiresUpTo(anchor, every, from))
  {
    AnchoredIsFaithful(lib, c, anchor, from, to);
    WalkCountsFires(lib, c, anchor, from, to, limit);
    FiresClosedForm(lib, c, anchor, from, to);
  }

  /** The fires of an interval in (from, to] in closed form, for every anchor and window. */
  lemma {:induction false} FiresClosedForm(lib: Library, c: Compiled, anchor: Instant, from: Instant, to: Instant)
    requires WellFormed(c) && c.IntervalTrigger? && from <= to
    ensures var every := c.everyMs * MILLISECOND;
            |FiresIn(lib, c, anchor, from, to)| == FiresUpTo(anchor, every, to) - FiresUpTo(anchor, every, from)
    decreases (to - from)
  {
    var every := c.everyMs * MILLISECOND;
    var n := if from < anchor then anchor else from + (every - (from - anchor) % every);
    ExactNextIsLeast(lib, c, anchor, from);
    StepUpTo(anchor, every, from, n);
    FirstFire(lib, c, anchor, from, to, Some(n));
    if n <= to {
      FiresClosedForm(lib, c, anchor, n, to);
    } else {
      SameUpTo(anchor, every, from, to, n);
    }
  }

  /** From one query to its answer the count grows by one ... */
  lemma StepUpTo(anchor: Instant, every: int, x: Instant, n: Instant)
    requires every > 0
    requires n == if x < anchor then anchor else x + (every - (x - anchor) % every)
    ensures n > x && FiresUpTo(anchor, every, n) == FiresUpTo(anchor, every, x) + 1
  {
    if x >= anchor {
      var q := (x - anchor) / every;
      assert n - anchor == (q + 1) * every;
      DivIsUnique(n - anchor, every, q + 1);
    }
  }

  lemma DivIsUnique(x: int, every: int, q: int)
    requires every > 0 && 0 <= x - q * every < every
    ensures x / every == q
  {
    var d := x / every - q;
    assert d * every == (x / every) * every - q * every;
    assert d >= 1 ==> d * every >= every;
    assert d <= -1 ==> d * every <= -every;
  }

  /** ... and not before the answer is reached. */
  lemma SameUpTo(anchor: Instant, every: int, x: Instant, y: Instant, n: Instant)
    requires every > 0 && x <= y < n
    requires n == if x < anchor then anchor else x + (every - (x - anchor) % every)
    ensures FiresUpTo(anchor, every, y) == FiresUpTo(anchor, every, x)
  {
    if x >= anchor {
      var q := (x - anchor) / every;
      DivIsUnique(y - anchor, every, q);
    }
  }

  lemma ZeroAnchorNext(lib: Library, c: Compiled, t: Instant)
    requires WellFormed(c) && c.IntervalTrigger?
    ensures Next(lib, c, t, 0) == Some(t + c.everyMs * MILLISECOND)
  {
    var every := c.everyMs * MILLISECOND;
    assert Sub(t, t) == 0;
    DivIsUnique(0, every, 0);
  }

  /** With a zero anchor each fire is one period after the last query, so a window holds
      (to - from) / every of them whatever the phase. */
  lemma {:induction false} ZeroAnchorClosedForm(lib: Library, c: Compiled, from: Instant, to: Instant, limit: nat)
    requires WellFormed(c) && c.IntervalTrigger? && from <= to
    ensures Walk(lib, c, 0, from, to, limit) == Min(limit, (to - from) / (c.everyMs * MILLISECOND))
    decreases limit
  {
    var every := c.everyMs * MILLISECOND;
    var n := from + every;
    ZeroAnchorNext(lib, c, from);
    if n <= to {
      DivIsUnique(to - from, every, (to - n) / every + 1);
      if limit > 0 { ZeroAnchorClosedForm(lib, c, n, to, limit - 1); }
    } else {
      DivIsUnique(to - from, every, 0);
    }
  }

  /** A zero anchor does not split: two windows of one second hold no fire of a 2 s
      interval each, their union holds one. */
  lemma ZeroAnchorDoesNotSplit(lib: Library)
    ensures var c, s := IntervalTrigger(2000), 1000 * MILLISECOND;
            && Walk(lib, c, 0, s, 2 * s, 10) == 0 && Walk(lib, c, 0, 2 * s, 3 * s, 10) == 0
            && Walk(lib, c, 0, s, 3 * s, 10) == 1
  {
    var c, s := IntervalTrigger(2000), 1000 * MILLISECOND;
    ZeroAnchorClosedForm(lib, c, s, 2 * s, 10);
    ZeroAnchorClosedForm(lib, c, 2 * s, 3 * s, 10);
    ZeroAnchorClosedForm(lib, c, s, 3 * s, 10);
  }

  // ---------------------------------------------------------------- relative cron expressions

  function RoundDown(t: int, unit: int): (r: int)
    requires unit >= 1
    ensures r <= t < r + unit
  {
    t - t % unit
  }

  /** An expression such as "@every 90m": its next is a delay after the query, once the query
      is rounded down to a unit (a second, or a nanosecond for no rounding). */
  ghost predicate Relative(lib: Library, c: Compiled, unit: int, delay: int) {
    && c.CronTrigger? && 1 <= unit <= delay && delay % unit == 0
    && forall t :: lib.next(c.expr, c.timezone, t) == RoundDown(t, unit) + delay
  }

  /** Such a next is the least fire of no set at all, unless the delay is a single unit, in
      which case it is that of the multiples of the unit. */
  lemma RelativeIsLeastOnlyForOneUnit(lib: Library, c: Compiled, unit: int, delay: int)
    requires Relative(lib, c, unit, delay)
    ensures delay > unit ==> !LibraryIsLeast(lib, c)
    ensures delay == unit && (forall x :: lib.fires(c.expr, c.timezone, x) <==> x % unit == 0) ==> LibraryIsLeast(lib, c)
  {
    var expr, zone := c.expr, c.timezone;
    if delay > unit {
      QueriesClash(lib, c, unit, delay);
    } else if forall x :: lib.fires(expr, zone, x) <==> x % unit == 0 {
      forall t ensures LeastOrNone(lib, expr, zone, t) { MultiplesAreLeast(t, unit); }
    }
  }

  /** The answer to a query at 0 falls inside the gap that the answer to a query at unit leaves. */
  lemma QueriesClash(lib: Library, c: Compiled, unit: int, delay: int)
    requires Relative(lib, c, unit, delay) && delay > unit
    ensures !LeastOrNone(lib, c.expr, c.timezone, 0) || !LeastOrNone(lib, c.expr, c.timezone, unit)
  {
    DivIsUnique(0, unit, 0);
    DivIsUnique(unit, unit, 1);
    assert lib.next(c.expr, c.timezone, 0) == delay;
    assert lib.next(c.expr, c.timezone, unit) == unit + delay;
  }

  lemma MultiplesAreLeast(t: int, unit: int)
    requires unit >= 1
    ensures var n := RoundDown(t, unit) + unit;
            n > t && n % unit == 0 && forall x | t < x < n :: x % unit != 0
  {
    var q := t / unit;
    var n := RoundDown(t, unit) + unit;
    assert n == (q + 1) * unit;
    DivIsUnique(n, unit, q + 1);
    forall x | t < x < n ensures x % unit != 0 { DivIsUnique(x, unit, q); }
  }

  /** Its count, too, is relative to where the window begins: (to - from) / delay, with from
      rounded down. The side condition says that the walk does not land on the zero time. */
  lemma {:induction false} RelativeClosedForm(
      lib: Library, c: Compiled, anchor: Instant, unit: int, delay: int, from: Instant, to: Instant, limit: nat)
    requires Relative(lib, c, unit, delay) && from <= to
    requires var start := RoundDown(from, unit); start >= 0 || start % delay != 0
    ensures Walk(lib, c, anchor, from, to, limit) == Min(limit, (to - RoundDown(from, unit)) / delay)
    decreases limit
  {
    var start := RoundDown(from, unit);
    var n := start + delay;
    StaysOffZero(start, delay);
    OneDelayLess(start, delay, to);
    SumOfMultiples(from, unit, delay);
    hide RoundDown;
    assert lib.next(c.expr, c.timezone, from) == n;
    if n <= to && limit > 0 {
      RelativeClosedForm(lib, c, anchor, unit, delay, n, to, limit - 1);
    }
  }

  lemma OneDelayLess(start: int, delay: int, to: int)
    requires delay >= 1 && start <= to
    ensures (to - start) / delay == if start + delay <= to then (to - (start + delay)) / delay + 1 else 0
    ensures start + delay <= to ==> (to - (start + delay)) / delay >= 0
  {
    if start + delay <= to {
      DivIsUnique(to - start, delay, (to - (start + delay)) / delay + 1);
    } else {
      DivIsUnique(to - start, delay, 0);
    }
  }

  lemma StaysOffZero(start: int, delay: int)
    requires delay >= 1 && (start >= 0 || start % delay != 0)
    ensures start + delay != 0 && (start + delay >= 0 || (start + delay) % delay != 0)
  {
    var q := start / delay;
    DivIsUnique(start + delay, delay, q + 1);
    if start == -delay { DivIsUnique(start, delay, -1); }
  }

  lemma SumOfMultiples(from: int, unit: int, delay: int)
    requires unit >= 1 && delay % unit == 0
    ensures var n := RoundDown(from, unit) + delay; RoundDown(n, unit) == n
  {
    var p, q := from / unit, delay / unit;
    var n := RoundDown(from, unit) + delay;
    assert n == (p + q) * unit;
    DivIsUnique(n, unit, p + q);
  }
}
