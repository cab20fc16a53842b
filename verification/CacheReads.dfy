/**
 What a Get must answer, in every interleaving: when it has to hit, why it may miss, and
 that its touches and the Sets of its key are remembered by the eviction handler.
 */
module CacheReads {
  import opened EvictionHistory
  import opened CacheRuns
  import opened CacheGuarantees

  // ---------------------------------------------------------------- a Get that must hit

  /** In every state of the run key is stored, with an entry that will not have expired by the
      time `end`. */
  predicate LiveUntil<V(==)>(s: State<V>, run: seq<Action<V>>, key: string, end: int)
    requires Legal(s, run)
    decreases |run|
  {
    && key in s.data && (s.data[key].expiresAt == 0 || end <= s.data[key].expiresAt)
    && (run == [] || LiveUntil(Apply(s, run[0]), run[1..], key, end))
  }

  /** In some state of the run key maps to e. */
  ghost predicate StoredAtSomeTime<V>(s: State<V>, run: seq<Action<V>>, key: string, e: Entry<V>)
    requires Legal(s, run)
    decreases |run|
  {
    || (key in s.data && s.data[key] == e)
    || (run != [] && StoredAtSomeTime(Apply(s, run[0]), run[1..], key, e))
  }

  /** The steps that reader t itself takes in the run. */
  function OwnSteps<V>(run: seq<Action<V>>, t: nat): nat {
    if run == [] then 0
    else (if IsStepOf(run[0], t) then 1 else 0) + OwnSteps(run[1..], t)
  }

  predicate IsStepOf<V>(a: Action<V>, t: nat) {
    (a.Load? || a.Probe? || a.Answer?) && a.t == t
  }

  /** How many steps reader r still needs when nothing stands in its way. */
  function StepsToHit<V>(r: Reader<V>): nat {
    match r
    case Called(_, _, _) => 3
    case Loaded(_, _, _, _, _) => 2
    case Live(_, _, _, _, _) => 1
    case _ => 0
  }

  predicate OnCourse<V>(s: State<V>, t: nat, key: string, end: int) {
    && t in s.readers && s.readers[t].key == key
    && match s.readers[t]
       case Called(_, _, _) => true
       case Loaded(_, _, _, _, e) => e.expiresAt == 0 || end <= e.expiresAt
       case Live(_, _, _, _, e) => e.expiresAt == 0 || end <= e.expiresAt
       case Hit(_, _, _, _, e) => e.expiresAt == 0 || end <= e.expiresAt
       case _ => false
  }

  lemma StepStaysOnCourse<V>(s: State<V>, a: Action<V>, t: nat, key: string, end: int)
    requires Enabled(s, a) && OnCourse(s, t, key, end) && s.now <= end
    requires key in s.data && (s.data[key].expiresAt == 0 || end <= s.data[key].expiresAt)
    ensures OnCourse(Apply(s, a), t, key, end)
    ensures var r, r' := s.readers[t], Apply(s, a).readers[t];
            && StepsToHit(r') == StepsToHit(r) - (if IsStepOf(a, t) then 1 else 0)
            && (r'.Called? || (if r.Called? then r'.entry == s.data[key] else r'.entry == r.entry))
  {
  }

  lemma {:induction false} ClockGrows<V>(s: State<V>, run: seq<Action<V>>)
    requires Legal(s, run)
    ensures s.now <= Exec(s, run).now
    decreases |run|
  {
    if run != [] { ClockGrows(Apply(s, run[0]), run[1..]); }
  }

  lemma {:induction false} StaysOnCourse<V>(s: State<V>, run: seq<Action<V>>, t: nat, key: string, end: int)
    requires Legal(s, run) && OnCourse(s, t, key, end) && LiveUntil(s, run, key, end) && Exec(s, run).now <= end
    ensures OnCourse(Exec(s, run), t, key, end)
    ensures StepsToHit(Exec(s, run).readers[t]) == StepsToHit(s.readers[t]) - OwnSteps(run, t)
    ensures var r, r' := s.readers[t], Exec(s, run).readers[t];
            r'.Called? || (if r.Called? then StoredAtSomeTime(s, run, key, r'.entry) else r'.entry == r.entry)
    decreases |run|
  {
    if run != [] {
      ClockGrows(s, run);
      StepStaysOnCourse(s, run[0], t, key, end);
      StaysOnCourse(Apply(s, run[0]), run[1..], t, key, end);
    }
  }

  /** A Get must find a key that stays stored. Call it on an open cache; as long as the key is
      stored in every state from then on, under entries that have not expired by the end of
      the run, the Get neither misses nor finds anything stale, and after three steps of its
      own it has answered with an entry that the key had at some time since the call. */
  lemma LiveKeyIsFound<V>(s: State<V>, run: seq<Action<V>>, t: nat, key: string)
    requires !s.closed && t !in s.readers
    requires var s1 := Apply(s, Call(t, key));
             Legal(s1, run) && LiveUntil(s1, run, key, Exec(s1, run).now)
    ensures var s1 := Apply(s, Call(t, key));
            var r := Exec(s1, run).readers;
            && t in r && r[t].key == key && !r[t].Miss? && !r[t].Stale?
            && (OwnSteps(run, t) >= 3 ==> r[t].Hit?)
            && (r[t].Hit? ==> StoredAtSomeTime(s1, run, key, r[t].entry))
  {
    var s1 := Apply(s, Call(t, key));
    StaysOnCourse(s1, run, t, key, Exec(s1, run).now);
  }

  // ---------------------------------------------------------------- a Get that misses

  /** Step a of s is the one that makes reader t miss key, for one of the three reasons there
      are: the cache is closed at the call, the key is not stored at the load, or the entry
      it loaded has expired at the probe. */
  predicate MissesHere<V(==)>(s: State<V>, a: Action<V>, t: nat, key: string) {
    || (a == Call(t, key) && s.closed)
    || (a == Load(t) && t in s.readers && s.readers[t].Called? && s.readers[t].key == key && key !in s.data)
    || (a == Probe(t) && t in s.readers && s.readers[t].Loaded? && s.readers[t].key == key
        && s.readers[t].entry.expiresAt != 0 && s.now > s.readers[t].entry.expiresAt)
  }

  predicate LostBy<V>(s: State<V>, t: nat) {
    t in s.readers && (s.readers[t].Miss? || s.readers[t].Stale?)
  }

  lemma StepMissesForAReason<V>(s: State<V>, a: Action<V>, t: nat)
    requires Enabled(s, a) && !LostBy(s, t) && LostBy(Apply(s, a), t)
    ensures MissesHere(s, a, t, Apply(s, a).readers[t].key)
  {
  }

  lemma {:induction false} LostStaysLost<V>(s: State<V>, run: seq<Action<V>>, t: nat)
    requires Legal(s, run) && LostBy(s, t)
    ensures LostBy(Exec(s, run), t) && Exec(s, run).readers[t].key == s.readers[t].key
    decreases |run|
  {
    if run != [] { LostStaysLost(Apply(s, run[0]), run[1..], t); }
  }

  /** No Get misses without a reason: somewhere in the run is the step that made it miss. */
  lemma {:induction false} MissHasACause<V>(s: State<V>, run: seq<Action<V>>, t: nat) returns (n: nat)
    requires Legal(s, run) && !LostBy(s, t) && LostBy(Exec(s, run), t)
    ensures n < |run| && Legal(s, run[..n])
    ensures MissesHere(Exec(s, run[..n]), run[n], t, Exec(s, run).readers[t].key)
    decreases |run|
  {
    var s1 := Apply(s, run[0]);
    if LostBy(s1, t) {
      n := 0;
      StepMissesForAReason(s, run[0], t);
      LostStaysLost(s1, run[1..], t);
    } else {
      n := MissHasACause(s1, run[1..], t);
      n := n + 1;
      assert run[..n][1..] == run[1..][..n - 1];
    }
  }

  /** On a closed cache every Get misses. */
  lemma ClosedGetMisses<V>(s: State<V>, before: seq<Action<V>>, t: nat, key: string, after: seq<Action<V>>)
    requires Enabled(s, Close) && Legal(Apply(s, Close), before)
    requires var s1 := Exec(Apply(s, Close), before);
             t !in s1.readers && Legal(Apply(s1, Call(t, key)), after)
    ensures var s' := Exec(Apply(Exec(Apply(s, Close), before), Call(t, key)), after);
            t in s'.readers && s'.readers[t] == Miss(key)
  {
    ClosedForever(Apply(s, Close), before);
    MissStays(Apply(Exec(Apply(s, Close), before), Call(t, key)), after, t);
  }

  lemma {:induction false} ClosedForever<V>(s: State<V>, run: seq<Action<V>>)
    requires Legal(s, run) && s.closed
    ensures Exec(s, run).closed
    decreases |run|
  {
    if run != [] { ClosedForever(Apply(s, run[0]), run[1..]); }
  }

  lemma {:induction false} MissStays<V>(s: State<V>, run: seq<Action<V>>, t: nat)
    requires Legal(s, run) && t in s.readers && s.readers[t].Miss?
    ensures t in Exec(s, run).readers && Exec(s, run).readers[t] == s.readers[t]
    decreases |run|
  {
    if run != [] { MissStays(Apply(s, run[0]), run[1..], t); }
  }

  /** How many steps reader r can still take. */
  function ReaderStepsLeft<V>(r: Reader<V>): nat {
    match r
    case Called(_, _, _) => 3
    case Loaded(_, _, _, _, _) => 2
    case Stale(_, _, _, _, _) => 1
    case Live(_, _, _, _, _) => 1
    case _ => 0
  }

  predicate IsOwnStep<V>(a: Action<V>, t: nat) {
    (a.Load? || a.Probe? || a.Answer? || a.LockRemove?) && a.t == t
  }

  /** Every Get ends: each of its own steps brings it closer to its answer, no step of another
      sets it back, and it can always take one, though a stale reader may have to wait for
      the mutex. */
  lemma ReadersEnd<V>(s: State<V>, a: Action<V>, t: nat)
    requires Enabled(s, a) && t in s.readers
    ensures t in Apply(s, a).readers
    ensures var r, r' := s.readers[t], Apply(s, a).readers[t];
            if IsOwnStep(a, t) then ReaderStepsLeft(r') < ReaderStepsLeft(r) else r' == r
    ensures var r := s.readers[t];
            && (r.Called? ==> Enabled(s, Load(t))) && (r.Loaded? ==> Enabled(s, Probe(t)))
            && (r.Live? ==> Enabled(s, Answer(t, true))) && (r.Stale? && s.holder.Free? ==> Enabled(s, LockRemove(t)))
  {
  }

  // ---------------------------------------------------------------- live, and yet missed

  /** In every state of the run key is stored and unexpired at that time. */
  predicate LiveThroughout<V(==)>(s: State<V>, run: seq<Action<V>>, key: string)
    requires Legal(s, run)
    decreases |run|
  {
    && key in s.data && (s.data[key].expiresAt == 0 || s.now <= s.data[key].expiresAt)
    && (run == [] || LiveThroughout(Apply(s, run[0]), run[1..], key))
  }

  lemma OneBefore<V>(s: State<V>, a: Action<V>, rest: seq<Action<V>>, key: string)
    requires Enabled(s, a) && Legal(Apply(s, a), rest) && LiveThroughout(Apply(s, a), rest, key)
    requires key in s.data && (s.data[key].expiresAt == 0 || s.now <= s.data[key].expiresAt)
    ensures Legal(s, [a] + rest) && LiveThroughout(s, [a] + rest, key)
    ensures Exec(s, [a] + rest) == Exec(Apply(s, a), rest)
  {
    assert ([a] + rest)[1..] == rest;
  }

  /** LiveKeyIsFound looks at the end of the run for a reason: a key that is live in every
      state can still be missed, when the reader loads an entry that is replaced and then
      expires before the reader probes it. */
  lemma LiveKeyCanBeMissed(policy: Policy) returns (prefix: seq<Action<int>>, run: seq<Action<int>>)
    ensures Legal(Initial(policy, 1, 1), prefix)
    ensures var s := Exec(Initial(policy, 1, 1), prefix);
            && !s.closed && 0 !in s.readers
            && Legal(s, run) && run != [] && run[0] == Call(0, "k") && LiveThroughout(s, run, "k")
            && 0 in Exec(s, run).readers && Exec(s, run).readers[0].Stale?
  {
    prefix := SetNewKey(Initial<int>(policy, 1, 1), [], "k", 7, 10);
    run := OvertakenRead(Exec(Initial<int>(policy, 1, 1), prefix));
  }

  lemma OvertakenRead(s: State<int>) returns (run: seq<Action<int>>)
    requires s.now == 1 && !s.closed && s.holder.Free? && 0 !in s.readers
    requires "k" in s.data && s.data["k"].expiresAt == 10
    ensures Legal(s, run) && run != [] && run[0] == Call(0, "k") && LiveThroughout(s, run, "k")
    ensures 0 in Exec(s, run).readers && Exec(s, run).readers[0].Stale?
  {
    var s1 := Apply(s, Call(0, "k"));
    var s2 := Apply(s1, Load(0));
    var s3 := Apply(s2, LockSet("k", 8, 0));
    run := OvertakingSet(s3);
    hide LiveThroughout, Legal, Exec;
    OneBefore(s2, LockSet("k", 8, 0), run, "k"); run := [LockSet("k", 8, 0)] + run;
    OneBefore(s1, Load(0), run, "k"); run := [Load(0)] + run;
    OneBefore(s, Call(0, "k"), run, "k"); run := [Call(0, "k")] + run;
  }

  lemma OvertakingSet(s: State<int>) returns (run: seq<Action<int>>)
    requires s.now == 1 && "k" in s.data && s.data["k"].expiresAt == 10
    requires s.holder.Setting? && s.holder.pc.Entered? && s.holder.req.key == "k" && s.holder.req.expiresAt == 0
    requires 0 in s.readers && s.readers[0].Loaded? && s.readers[0].entry.expiresAt == 10
    ensures Legal(s, run) && LiveThroughout(s, run, "k")
    ensures 0 in Exec(s, run).readers && Exec(s, run).readers[0].Stale?
  {
    var s1 := Apply(s, Advance(""));
    var s2 := Apply(s1, Advance(""));
    var s3 := Apply(s2, Tick(20));
    var s4 := Apply(s3, Probe(0));
    run := [];
    assert Legal(s4, run) && LiveThroughout(s4, run, "k") && Exec(s4, run) == s4;
    hide LiveThroughout, Legal, Exec;
    OneBefore(s3, Probe(0), run, "k"); run := [Probe(0)] + run;
    OneBefore(s2, Tick(20), run, "k"); run := [Tick(20)] + run;
    OneBefore(s1, Advance(""), run, "k"); run := [Advance("")] + run;
    OneBefore(s, Advance(""), run, "k"); run := [Advance("")] + run;
  }

  // ---------------------------------------------------------------- uses are remembered

  lemma StepKeepsStamps<V>(s: State<V>, a: Action<V>, key: string)
    requires Enabled(s, a)
    ensures var h, h' := s.history, Apply(s, a).history;
            Length(h) <= Length(h') && LastUse(h, key) <= LastUse(h', key) && LastTouch(h, key) <= LastTouch(h', key)
  {
    StampsInRange(s.history, key);
    assert Apply(s, a).history == s.history
        || (Apply(s, a).history.Then? && Apply(s, a).history.past == s.history) by { HistoryStep(s, a); }
  }

  lemma HistoryStep<V>(s: State<V>, a: Action<V>)
    requires Enabled(s, a)
    ensures var h' := Apply(s, a).history; h' == s.history || (h'.Then? && h'.past == s.history)
  {
  }

  lemma {:induction false} RunKeepsStamps<V>(s: State<V>, run: seq<Action<V>>, key: string)
    requires Legal(s, run)
    ensures var h, h' := s.history, Exec(s, run).history;
            Length(h) <= Length(h') && LastUse(h, key) <= LastUse(h', key) && LastTouch(h, key) <= LastTouch(h', key)
    decreases |run|
  {
    if run != [] {
      StepKeepsStamps(s, run[0], key);
      RunKeepsStamps(Apply(s, run[0]), run[1..], key);
    }
  }

  /** The touch of a Get is never lost: in every continuation the handler remembers a use of
      the key no older than the answer. Under LRU the key is therefore not selected while
      some tracked key has not been used since. */
  lemma ReadIsRemembered<V>(s: State<V>, t: nat, run: seq<Action<V>>)
    requires Enabled(s, Answer(t, true)) && Legal(Apply(s, Answer(t, true)), run)
    ensures var key, h' := s.readers[t].key, Exec(Apply(s, Answer(t, true)), run).history;
            && LastUse(h', key) >= Length(s.history)
            && (key in Tracked(s.history) ==> LastTouch(h', key) >= Length(s.history))
            && (Selects(LRU, h', key) ==> forall k | k in Tracked(h') && k != key :: LastUse(h', k) > Length(s.history))
  {
    RunKeepsStamps(Apply(s, Answer(t, true)), run, s.readers[t].key);
  }

  /** So is a Set, of a new key or of a stored one: once finished it counts as a use and as a
      touch of its key, which happened since it took the lock. */
  lemma SetIsRemembered<V>(s: State<V>, key: string, value: V, expiresAt: int, run: seq<Action<V>>)
    requires Inv(s) && s.holder.Free? && Legal(Apply(s, LockSet(key, value, expiresAt)), run)
    requires var s1 := Apply(s, LockSet(key, value, expiresAt));
             Holding(s1, run) && Exec(s1, run).holder.Setting? && Exec(s1, run).holder.pc == Finished(true)
    ensures var h' := Exec(Apply(s, LockSet(key, value, expiresAt)), run).history;
            LastUse(h', key) >= Length(s.history) && LastTouch(h', key) >= Length(s.history)
  {
    var s1 := Apply(s, LockSet(key, value, expiresAt));
    StepKeepsInv(s, LockSet(key, value, expiresAt));
    RunCountsSet(s1, run, Length(s.history));
    RequestIsFixed(s1, run);
  }

  ghost predicate SetCounted<V>(s: State<V>, n: nat) {
    && Length(s.history) >= n
    && (s.holder.Setting? && s.holder.pc == Finished(true) ==>
          LastUse(s.history, s.holder.req.key) >= n && LastTouch(s.history, s.holder.req.key) >= n)
  }

  lemma StepCountsSet<V>(s: State<V>, a: Action<V>, n: nat)
    requires Inv(s) && s.holder.Setting? && Enabled(s, a) && SetCounted(s, n)
    ensures SetCounted(Apply(s, a), n)
  {
    var key := s.holder.req.key;
    StepKeepsStamps(s, a, key);
    if a.Advance? {
      WrittenIsTracked(s);
      FinishCounts(s, s.holder.req, s.holder.pc, a.choice);
    }
  }

  /** Whether the handler tracks the key when the Set is about to account for it. */
  lemma WrittenIsTracked<V>(s: State<V>)
    requires BalanceInv(s) && HolderInv(s) && s.holder.Setting?
    ensures s.holder.pc == Written(true) ==> s.holder.req.key in Tracked(s.history)
    ensures s.holder.pc == Counted ==> s.holder.req.key !in Tracked(s.history)
  {
  }

  lemma FinishCounts<V>(s: State<V>, r: Request<V>, pc: SetPc, c: string)
    requires s.holder == Setting(r, pc)
    requires pc == Written(true) ==> r.key in Tracked(s.history)
    requires pc == Counted ==> r.key !in Tracked(s.history)
    ensures var s' := AdvanceSet(s, r, pc, c);
            s'.holder.Setting? && s'.holder.pc == Finished(true) ==>
              && s'.holder.req.key == r.key
              && LastUse(s'.history, r.key) == LastTouch(s'.history, r.key) == Length(s.history)
  {
  }

  lemma {:induction false} RunCountsSet<V>(s: State<V>, run: seq<Action<V>>, n: nat)
    requires Inv(s) && Legal(s, run) && Holding(s, run) && SetCounted(s, n)
    ensures SetCounted(Exec(s, run), n)
    decreases |run|
  {
    if run != [] {
      StepCountsSet(s, run[0], n);
      StepKeepsInv(s, run[0]);
      RunCountsSet(Apply(s, run[0]), run[1..], n);
    }
  }
}
