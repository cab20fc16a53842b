/** What holds of the in-memory cache in every state of every interleaving. */
module CacheGuarantees {
  import opened EvictionHistory
  import opened CacheRuns

  lemma {:induction false} RunKeepsInv<V>(s: State<V>, run: seq<Action<V>>)
    requires Inv(s) && Legal(s, run)
    ensures Inv(Exec(s, run))
    decreases |run|
  {
    if run != [] {
      StepKeepsInv(s, run[0]);
      RunKeepsInv(Apply(s, run[0]), run[1..]);
    }
  }

  lemma ReachableInv<V>(policy: Policy, maxSize: int, now: int, run: seq<Action<V>>)
    requires Legal(Initial(policy, maxSize, now), run)
    ensures Inv(Exec(Initial(policy, maxSize, now), run))
  {
    assert Inv(Initial<V>(policy, maxSize, now));
    RunKeepsInv(Initial(policy, maxSize, now), run);
  }

  /** Whenever the mutex is free, the handler tracks exactly the stored keys, the size
      counter is their number, and a bounded cache is within its bound. */
  lemma ConsistentWhenFree<V>(policy: Policy, maxSize: int, now: int, run: seq<Action<V>>)
    requires Legal(Initial(policy, maxSize, now), run)
    ensures var s := Exec(Initial(policy, maxSize, now), run);
            s.holder.Free? ==>
              && Tracked(s.history) == s.data.Keys
              && s.size == |s.data|
              && (maxSize > 0 ==> s.size <= maxSize)
  {
    ReachableInv(policy, maxSize, now, run);
    ConfigIsFixed(Initial<V>(policy, maxSize, now), run);
  }

  lemma {:induction false} ConfigIsFixed<V>(s: State<V>, run: seq<Action<V>>)
    requires Legal(s, run)
    ensures var s' := Exec(s, run); s'.maxSize == s.maxSize && s'.policy == s.policy
    decreases |run|
  {
    if run != [] { ConfigIsFixed(Apply(s, run[0]), run[1..]); }
  }

  /** A Get that answers with a value answers with the entry that was stored last when it
      loaded it, hence never with one older than the last store before the Get began, nor
      with one that had already expired then. */
  lemma GetIsFresh<V>(policy: Policy, maxSize: int, now: int, run: seq<Action<V>>, t: nat)
    requires Legal(Initial(policy, maxSize, now), run)
    requires var s := Exec(Initial(policy, maxSize, now), run); t in s.readers && s.readers[t].Hit?
    ensures var s := Exec(Initial(policy, maxSize, now), run);
            var r := s.readers[t];
            && r.begin <= r.at <= |s.log|
            && Latest(s.log, r.at, r.key, r.entry)
            && (r.entry.expiresAt == 0 || r.clock <= r.entry.expiresAt)
            && forall j | 0 <= j < r.begin && s.log[j].key == r.key :: j <= r.entry.id
  {
    ReachableInv(policy, maxSize, now, run);
    var s := Exec(Initial(policy, maxSize, now), run);
    assert ReaderInv(s, s.readers[t]);
  }

  /** Removing what a reader or the sweep saw expired deletes that entry if it is still in
      place, and nothing else: a key stored again since the observation keeps its new entry. */
  lemma StaleRemovalSparesNewEntries<V>(policy: Policy, maxSize: int, now: int, run: seq<Action<V>>, c: string)
    requires Legal(Initial(policy, maxSize, now), run)
    requires var s := Exec(Initial(policy, maxSize, now), run);
             s.holder.Removing? && s.holder.rpc.RemoveEntered? && s.holder.guard.Some?
    ensures var s := Exec(Initial(policy, maxSize, now), run);
            GuardedRemoval(s, Apply(s, Advance(c)))
  {
    ReachableInv(policy, maxSize, now, run);
    GuardSparesNewEntries(Exec(Initial(policy, maxSize, now), run));
  }

  ghost predicate GuardedRemoval<V>(s: State<V>, s': State<V>)
    requires s.holder.Removing? && s.holder.guard.Some?
  {
    var key, e := s.holder.key, s.holder.guard.value;
    && e.expiresAt != 0 && s.now > e.expiresAt
    && s'.data == (if key in s.data && s.data[key] == e then s.data - {key} else s.data)
    && ((exists j :: s.holder.at <= j < |s.log| && s.log[j].key == key) ==> s'.data == s.data)
  }

  lemma GuardSparesNewEntries<V>(s: State<V>)
    requires StoreLogInv(s) && HolderInv(s)
    requires s.holder.Removing? && s.holder.rpc.RemoveEntered? && s.holder.guard.Some?
    ensures GuardedRemoval(s, AdvanceRemove(s))
  {
    var key := s.holder.key;
    assert key in s.data ==> Latest(s.log, |s.log|, key, s.data[key]);
  }

  /** One step changes the map by one store, one removal or a clear, and logs exactly the
      stores: this is what lets SingleFlight treat each of them as one step. */
  lemma MapChangesOneKeyOrAll<V>(s: State<V>, a: Action<V>)
    requires Enabled(s, a)
    ensures OneChange(s, Apply(s, a))
  {
    if a.Advance? && s.holder.Setting? {
      SetChangesOneKey(s, s.holder.req, s.holder.pc, a.choice);
    } else if a.Advance? && s.holder.Removing? {
      RemoveChangesOneKey(s);
    }
  }

  lemma SetChangesOneKey<V>(s: State<V>, r: Request<V>, pc: SetPc, c: string)
    ensures OneChange(s, AdvanceSet(s, r, pc, c))
  {
    var s' := AdvanceSet(s, r, pc, c);
    if pc.Chosen? && s'.data != s.data {
      assert r.chosen.value.key in s.data && s'.data == s.data - {r.chosen.value.key};
    }
  }

  lemma RemoveChangesOneKey<V>(s: State<V>)
    requires s.holder.Removing?
    ensures OneChange(s, AdvanceRemove(s))
  {
    var s' := AdvanceRemove(s);
    if s'.data != s.data { assert s.holder.key in s.data && s'.data == s.data - {s.holder.key}; }
  }

  ghost predicate OneChange<V>(s: State<V>, s': State<V>) {
    if s'.log == s.log
    then s'.data == s.data || s'.data == map[] || exists k :: k in s.data && s'.data == s.data - {k}
    else
      && |s'.log| == |s.log| + 1 && s'.log[..|s.log|] == s.log
      && var stored := s'.log[|s.log|];
         stored.entry.id == |s.log| && s'.data == s.data[stored.key := stored.entry]
  }

  // ---------------------------------------------------------------- after a removal

  /** key is not stored and nobody is storing it. */
  predicate Absent<V>(s: State<V>, key: string) {
    key !in s.data && !(s.holder.Setting? && s.holder.req.key == key)
  }

  ghost predicate NeverSet<V>(run: seq<Action<V>>, key: string) {
    forall a | a in run :: !(a.LockSet? && a.key == key)
  }

  /** Reader t has not found key. */
  predicate NotFoundBy<V>(s: State<V>, key: string, t: nat) {
    t in s.readers && s.readers[t].key == key ==> s.readers[t].Called? || s.readers[t].Miss?
  }

  /** A key that is not stored stays so until it is Set, and no reader called meanwhile finds it. */
  lemma {:induction false} AbsentUntilSet<V>(s: State<V>, run: seq<Action<V>>, key: string)
    requires Legal(s, run) && Absent(s, key) && NeverSet(run, key)
    ensures Absent(Exec(s, run), key)
    ensures forall t | NotFoundBy(s, key, t) :: NotFoundBy(Exec(s, run), key, t)
    decreases |run|
  {
    if run != [] {
      assert run[0] in run;
      AbsentStep(s, run[0], key);
      AbsentUntilSet(Apply(s, run[0]), run[1..], key);
    }
  }

  lemma AbsentStep<V>(s: State<V>, a: Action<V>, key: string)
    requires Enabled(s, a) && Absent(s, key) && !(a.LockSet? && a.key == key)
    ensures Absent(Apply(s, a), key)
    ensures forall t | NotFoundBy(s, key, t) :: NotFoundBy(Apply(s, a), key, t)
  {
    if a.Advance? && s.holder.Setting? {
      SetSparesOthers(s, s.holder.req, s.holder.pc, a.choice, key);
    }
  }

  lemma SetSparesOthers<V>(s: State<V>, r: Request<V>, pc: SetPc, c: string, key: string)
    requires s.holder == Setting(r, pc) && r.key != key && key !in s.data
    ensures Absent(AdvanceSet(s, r, pc, c), key) && AdvanceSet(s, r, pc, c).readers == s.readers
  {
  }

  /** A Delete of key or a Clear holds the mutex and is about to act. */
  predicate AboutToRemove<V>(s: State<V>, key: string) {
    || (s.holder.Removing? && s.holder.key == key && s.holder.guard.None? && s.holder.rpc.RemoveEntered?)
    || (s.holder.Clearing? && s.holder.cpc.ClearEntered?)
  }

  /** From its first step on the removal is in effect. */
  lemma {:induction false} RemovalTakesEffect<V>(s: State<V>, run: seq<Action<V>>, key: string)
    requires Legal(s, run) && AboutToRemove(s, key) && Advances(run) >= 1 && NeverSet(run, key)
    ensures Absent(Exec(s, run), key)
    decreases |run|
  {
    assert run[0] in run;
    var s1 := Apply(s, run[0]);
    if run[0].Advance? {
      AbsentUntilSet(s1, run[1..], key);
    } else {
      RemovalTakesEffect(s1, run[1..], key);
    }
  }

  /** A Get called after a Delete of its key, or a Clear, has acted does not answer with a
      value until the key is Set again. */
  lemma GetAfterRemovalMisses<V>(
      s: State<V>, removal: Action<V>, during: seq<Action<V>>, after: seq<Action<V>>, key: string, t: nat)
    requires Enabled(s, removal) && (removal == LockDelete(key) || removal.LockClear?)
    requires Legal(Apply(s, removal), during) && Advances(during) >= 1
    requires var s1 := Exec(Apply(s, removal), during); t !in s1.readers && Legal(s1, after)
    requires NeverSet(during, key) && NeverSet(after, key)
    ensures var s' := Exec(Exec(Apply(s, removal), during), after);
            key !in s'.data && NotFoundBy(s', key, t)
  {
    var s1 := Exec(Apply(s, removal), during);
    RemovalTakesEffect(Apply(s, removal), during, key);
    AbsentUntilSet(s1, after, key);
    assert NotFoundBy(s1, key, t);
  }

  // ---------------------------------------------------------------- one Set

  /** The mutex stays with the same Set throughout run. */
  predicate Holding<V(==)>(s: State<V>, run: seq<Action<V>>)
    requires Legal(s, run)
    decreases |run|
  {
    s.holder.Setting? && (run == [] || Holding(Apply(s, run[0]), run[1..]))
  }

  lemma StepKeepsRequest<V>(s: State<V>, a: Action<V>)
    requires Enabled(s, a) && s.holder.Setting? && Apply(s, a).holder.Setting?
    ensures var q, q' := s.holder.req, Apply(s, a).holder.req;
            && q'.key == q.key && q'.value == q.value
            && q'.expiresAt == q.expiresAt && q'.before == q.before && q'.since == q.since
  {
    if a.Advance? { SetKeepsRequest(s, s.holder.req, s.holder.pc, a.choice); }
  }

  lemma SetKeepsRequest<V>(s: State<V>, r: Request<V>, pc: SetPc, c: string)
    requires s.holder == Setting(r, pc)
    ensures var s' := AdvanceSet(s, r, pc, c);
            s'.holder.Setting? ==>
              var q := s'.holder.req;
              && q.key == r.key && q.value == r.value
              && q.expiresAt == r.expiresAt && q.before == r.before && q.since == r.since
  {
  }

  lemma {:induction false} RequestIsFixed<V>(s: State<V>, run: seq<Action<V>>)
    requires Legal(s, run) && Holding(s, run)
    ensures Exec(s, run).holder.Setting?
    ensures var q, q' := s.holder.req, Exec(s, run).holder.req;
            && q'.key == q.key && q'.value == q.value
            && q'.expiresAt == q.expiresAt && q'.before == q.before && q'.since == q.since
    decreases |run|
  {
    if run != [] {
      StepKeepsRequest(s, run[0]);
      RequestIsFixed(Apply(s, run[0]), run[1..]);
    }
  }

  /** A Set needs room when it brings a new key to a full bounded cache. */
  predicate NeedsRoom<V>(s: State<V>, key: string) {
    s.maxSize > 0 && key !in s.data && |s.data| >= s.maxSize
  }

  /** What a finished Set has done to the map it found in s, whatever the readers did
      meanwhile. When it needed room it chose one victim, the policy's selection in the
      history `when` of the selection step (the history found in s plus reader touches);
      it evicted that key and no other, unless the victim was the empty-string key, in which
      case it failed and changed nothing. */
  lemma SetOutcome<V>(policy: Policy, maxSize: int, now: int, prefix: seq<Action<V>>,
                      key: string, value: V, expiresAt: int, run: seq<Action<V>>)
    requires Legal(Initial(policy, maxSize, now), prefix)
    requires var s := Exec(Initial(policy, maxSize, now), prefix);
             && s.holder.Free?
             && var s1 := Apply(s, LockSet(key, value, expiresAt));
             && Legal(s1, run) && Holding(s1, run)
             && var s' := Exec(s1, run);
             && s'.holder.Setting? && s'.holder.pc.Finished?
    ensures var s := Exec(Initial(policy, maxSize, now), prefix);
            var s' := Exec(Apply(s, LockSet(key, value, expiresAt)), run);
            var chosen := s'.holder.req.chosen;
            && (NeedsRoom(s, key) ==>
                  && chosen.Some? && OnlyAccessesSince(s.history, chosen.value.when)
                  && Tracked(chosen.value.when) == s.data.Keys
                  && Selects(policy, chosen.value.when, chosen.value.key)
                  && (s'.holder.pc.ok <==> chosen.value.key != ""))
            && (!NeedsRoom(s, key) ==> s'.holder.pc.ok)
            && (!s'.holder.pc.ok ==> s'.data == s.data)
            && (s'.holder.pc.ok ==>
                  && key in s'.data && s'.data[key].value == value && s'.data[key].expiresAt == expiresAt
                  && s'.data - {key} ==
                     (if NeedsRoom(s, key) then s.data - {chosen.value.key} else s.data) - {key})
  {
    ReachableInv(policy, maxSize, now, prefix);
    var s0 := Initial<V>(policy, maxSize, now);
    var s := Exec(s0, prefix);
    var s1 := Apply(s, LockSet(key, value, expiresAt));
    StepKeepsInv(s, LockSet(key, value, expiresAt));
    RunKeepsInv(s1, run);
    RequestIsFixed(s1, run);
    ConfigIsFixed(s0, prefix);
    ConfigIsFixed(s1, run);
    FinishedOutcome(Exec(s1, run));
  }

  lemma FinishedOutcome<V>(s: State<V>)
    requires Inv(s) && s.holder.Setting? && s.holder.pc.Finished?
    ensures var r := s.holder.req;
            && r.full == (s.maxSize > 0 && r.key !in r.before && |r.before| >= s.maxSize)
            && (r.full ==> VictimInv(s, r) && (s.holder.pc.ok <==> r.chosen.value.key != ""))
            && (!r.full ==> s.holder.pc.ok)
            && (!s.holder.pc.ok ==> s.data == r.before)
            && (s.holder.pc.ok ==>
                  && StoredInv(s, r)
                  && s.data - {r.key} == (if r.full then r.before - {r.chosen.value.key} else r.before) - {r.key})
  {
  }

  /** A Set never fails while the empty-string key is not stored. */
  lemma SetSucceedsWithoutEmptyKey<V>(policy: Policy, maxSize: int, now: int, prefix: seq<Action<V>>,
                                      key: string, value: V, expiresAt: int, run: seq<Action<V>>)
    requires Legal(Initial(policy, maxSize, now), prefix)
    requires var s := Exec(Initial(policy, maxSize, now), prefix);
             && s.holder.Free? && "" !in s.data
             && var s1 := Apply(s, LockSet(key, value, expiresAt));
             && Legal(s1, run) && Holding(s1, run)
             && var s' := Exec(s1, run);
             && s'.holder.Setting? && s'.holder.pc.Finished?
    ensures var s := Exec(Initial(policy, maxSize, now), prefix);
            Exec(Apply(s, LockSet(key, value, expiresAt)), run).holder.pc.ok
  {
    SetOutcome(policy, maxSize, now, prefix, key, value, expiresAt, run);
  }

  lemma {:induction false} OneMore<V>(s: State<V>, run: seq<Action<V>>, a: Action<V>)
    requires Legal(s, run) && Enabled(Exec(s, run), a)
    ensures Legal(s, run + [a]) && Exec(s, run + [a]) == Apply(Exec(s, run), a)
    decreases |run|
  {
    if run != [] {
      OneMore(Apply(s, run[0]), run[1..], a);
      assert (run + [a])[1..] == run[1..] + [a];
    } else {
      assert (run + [a])[1..] == [];
    }
  }

  /** The holder takes one step that selects no victim. */
  lemma HolderStep<V>(s0: State<V>, run: seq<Action<V>>) returns (run': seq<Action<V>>)
    requires Legal(s0, run)
    requires var s := Exec(s0, run); !s.holder.Free? && !Selecting(s)
    ensures Legal(s0, run') && Exec(s0, run') == AdvanceHolder(Exec(s0, run), "")
  {
    OneMore(s0, run, Advance(""));
    run' := run + [Advance("")];
  }

  /** An uninterrupted Set of a new key that finds room. */
  lemma SetNewKey<V>(s0: State<V>, run: seq<Action<V>>, key: string, value: V, expiresAt: int) returns (run': seq<Action<V>>)
    requires Legal(s0, run)
    requires var s := Exec(s0, run); s.holder.Free? && key !in s.data && s.size < s.maxSize && s.maxSize > 0
    ensures Legal(s0, run')
    ensures var s := Exec(s0, run);
            var e := Entry(|s.log|, value, expiresAt);
            Exec(s0, run') == s.(data := s.data[key := e], log := s.log + [Stored(key, e)],
                                 size := s.size + 1, history := Then(s.history, Insert(key)))
  {
    hide Legal, Exec, IsCandidate;
    OneMore(s0, run, LockSet(key, value, expiresAt));
    run' := run + [LockSet(key, value, expiresAt)];
    run' := HolderStep(s0, run');
    run' := HolderStep(s0, run');
    run' := StoreNewKey(s0, run');
  }

  /** The rest of that Set, from the store on. */
  lemma StoreNewKey<V>(s0: State<V>, run: seq<Action<V>>) returns (run': seq<Action<V>>)
    requires Legal(s0, run)
    requires var s := Exec(s0, run); s.holder.Setting? && s.holder.pc == Ready(false)
    ensures Legal(s0, run')
    ensures var s := Exec(s0, run);
            var r, e := s.holder.req, Entry(|s.log|, s.holder.req.value, s.holder.req.expiresAt);
            Exec(s0, run') == s.(data := s.data[r.key := e], log := s.log + [Stored(r.key, e)], size := s.size + 1,
                                 history := Then(s.history, Insert(r.key)), holder := Free)
  {
    hide Legal, Exec, IsCandidate;
    run' := HolderStep(s0, run);
    run' := HolderStep(s0, run');
    run' := HolderStep(s0, run');
    run' := HolderStep(s0, run');
  }

  /** It does fail on a cache of size one that holds the empty-string key, under every policy:
      Set("") fills the cache, and the Set("a") after it is refused. */
  lemma EmptyKeyBlocksTheCache(policy: Policy) returns (run: seq<Action<int>>)
    ensures Legal(Initial(policy, 1, 0), run)
    ensures var s := Exec(Initial(policy, 1, 0), run);
            && s.holder.Setting? && s.holder.req.key == "a" && s.holder.pc == Finished(false)
            && s.data.Keys == {""}
  {
    var s0 := Initial<int>(policy, 1, 0);
    run := SetNewKey(s0, [], "", 7, 0);
    var s := Exec(s0, run);
    assert Tracked(s.history) == {""} && Selects(policy, s.history, "");
    hide Legal, Exec, Selects;
    OneMore(s0, run, LockSet("a", 8, 0));
    run := HolderStep(s0, run + [LockSet("a", 8, 0)]);
    OneMore(s0, run, Advance(""));
    run := run + [Advance("")];
  }

  // ---------------------------------------------------------------- termination

  /** How many steps of its own the holder can still take before it frees the mutex. */
  function Rank<V>(s: State<V>): nat {
    match s.holder
    case Free => 0
    case Setting(r, pc) =>
      (match pc
       case Entered => 10
       case LoopHead => if r.evicted == [] then 9 else 5
       case Chosen => 8
       case Dropped => 7
       case Untracked => 6
       case Ready(_) => 4
       case Written(_) => 3
       case Counted => 2
       case Finished(_) => 1)
    case Removing(_, _, _, pc) =>
      (match pc case RemoveEntered => 3 case RemoveDropped => 2 case RemoveUntracked => 1)
    case Clearing(pc) =>
      (match pc case ClearEntered => 3 case ClearDropped => 2 case ClearUntracked => 1)
  }

  /** The holder can always take its next step; no wait for a victim is possible. */
  lemma HolderIsNeverStuck<V>(s: State<V>) returns (c: string)
    requires !s.holder.Free?
    ensures Enabled(s, Advance(c))
  {
    c := CandidateExists(s.policy, s.history);
  }

  /** Why the loop cannot spin: a chosen victim is stored, and after one eviction there is room. */
  ghost predicate LoopFacts<V>(s: State<V>)
    requires s.holder.Setting?
  {
    var r, pc := s.holder.req, s.holder.pc;
    && (pc.Chosen? ==> r.chosen.Some? && r.chosen.value.key in s.data)
    && (pc.Dropped? ==> r.chosen.Some?)
    && (pc.Untracked? ==> r.evicted != [])
    && (pc.LoopHead? && r.evicted != [] ==> s.size < s.maxSize)
  }

  lemma InvGivesLoopFacts<V>(s: State<V>)
    requires HolderInv(s) && s.holder.Setting?
    ensures LoopFacts(s)
  {
  }

  lemma SetMakesProgress<V>(s: State<V>, c: string)
    requires s.holder.Setting? && LoopFacts(s)
    ensures Rank(AdvanceSet(s, s.holder.req, s.holder.pc, c)) < Rank(s)
  {
  }

  lemma HolderMakesProgress<V>(s: State<V>, a: Action<V>)
    requires HolderInv(s) && Enabled(s, a) && !s.holder.Free?
    ensures if a.Advance? then Rank(Apply(s, a)) < Rank(s) else Rank(Apply(s, a)) == Rank(s)
  {
    if a.Advance? && s.holder.Setting? {
      InvGivesLoopFacts(s);
      SetMakesProgress(s, a.choice);
    }
  }

  function Advances<V>(run: seq<Action<V>>): nat {
    if run == [] then 0 else (if run[0].Advance? then 1 else 0) + Advances(run[1..])
  }

  /** The eviction loop terminates: no mutator takes more than ten steps of its own, so
      any run in which the holder takes Rank(s) of them passes a state with a free mutex. */
  lemma {:induction false} MutexIsReleased<V>(s: State<V>, run: seq<Action<V>>) returns (n: nat)
    requires Inv(s) && Legal(s, run) && Advances(run) >= Rank(s)
    ensures n <= |run| && Legal(s, run[..n]) && Exec(s, run[..n]).holder.Free?
    decreases |run|
  {
    if s.holder.Free? {
      n := 0;
    } else {
      StepKeepsInv(s, run[0]);
      HolderMakesProgress(s, run[0]);
      n := MutexIsReleased(Apply(s, run[0]), run[1..]);
      n := n + 1;
      assert run[..n][1..] == run[1..][..n - 1];
    }
  }
}
