/**
 The in-memory cache under every interleaving of its goroutines.

 Readers (Get, Contains, the sweep of cleanupExpired) run off the lock: they load an
 entry, probe its expiry, and only later touch the eviction handler or queue for the
 lock to remove what they saw. Mutators hold the lock but their writes to the map, to
 the handler and to the size counter are separate steps, and readers may run between
 any two of them. One Action below is one such step. Every operation first checks that the
 cache is open; a mutator that passed the check may take the lock after the cache is closed,
 so the Lock actions do not test the flag.
 */
module CacheRuns {
  import opened Options
  import opened EvictionHistory

  /** id stands for the entry's address: the position of its store in the log. */
  datatype Entry<V> = Entry(id: nat, value: V, expiresAt: int)

  datatype Stored<V> = Stored(key: string, entry: Entry<V>)

  predicate Expired<V>(e: Entry<V>, now: int) {
    e.expiresAt != 0 && now > e.expiresAt
  }

  /** A reader; begin and at are the log lengths when it was called and when it loaded,
      clock the time of the call. */
  datatype Reader<V> =
    | Called(key: string, begin: nat, clock: int)
    | Loaded(key: string, begin: nat, clock: int, at: nat, entry: Entry<V>)
    | Stale(key: string, begin: nat, clock: int, at: nat, entry: Entry<V>)
    | Live(key: string, begin: nat, clock: int, at: nat, entry: Entry<V>)
    | Hit(key: string, begin: nat, clock: int, at: nat, entry: Entry<V>)
    | Miss(key: string)

  /** A key and the handler history in which it was selected. */
  datatype Victim = Victim(key: string, when: History)

  /** A Set in progress. before and since are the map and the handler history it found;
      full, chosen and evicted record what it met on the way. */
  datatype Request<V> = Request(
    key: string, value: V, expiresAt: int,
    before: map<string, Entry<V>>, since: History, full: bool, chosen: Option<Victim>, evicted: seq<Victim>)

  datatype SetPc =
    | Entered | LoopHead | Chosen | Dropped | Untracked
    | Ready(exists_: bool) | Written(exists_: bool) | Counted | Finished(ok: bool)

  datatype RemovePc = RemoveEntered | RemoveDropped | RemoveUntracked

  datatype ClearPc = ClearEntered | ClearDropped | ClearUntracked

  /** Who holds the cache mutex, and how far it has got. */
  datatype Holder<V> =
    | Free
    | Setting(req: Request<V>, pc: SetPc)
    | Removing(key: string, guard: Option<Entry<V>>, at: nat, rpc: RemovePc)
    | Clearing(cpc: ClearPc)

  datatype State<V> = State(
    policy: Policy, maxSize: int,
    data: map<string, Entry<V>>, size: int, history: History,
    holder: Holder<V>, readers: map<nat, Reader<V>>,
    log: seq<Stored<V>>, closed: bool, now: int)

  datatype Action<V> =
    | Call(t: nat, key: string)
    | Load(t: nat)
    | Probe(t: nat)
    | Answer(t: nat, touch: bool)
    | LockRemove(t: nat)
    | LockSet(key: string, value: V, expiresAt: int)
    | LockDelete(key: string)
    | LockClear
    | Advance(choice: string)
    | Close
    | Tick(elapsed: nat)

  function Initial<V>(policy: Policy, maxSize: int, now: int): State<V> {
    State(policy, maxSize, map[], 0, Start, Free, map[], [], false, now)
  }

  predicate Enabled<V(==)>(s: State<V>, a: Action<V>) {
    match a
    case Call(t, _) => t !in s.readers
    case Load(t) => t in s.readers && s.readers[t].Called?
    case Probe(t) => t in s.readers && s.readers[t].Loaded?
    case Answer(t, _) => t in s.readers && s.readers[t].Live?
    case LockRemove(t) => s.holder.Free? && t in s.readers && s.readers[t].Stale?
    case LockSet(_, _, _) => s.holder.Free?
    case LockDelete(_) => s.holder.Free?
    case LockClear => s.holder.Free?
    case Advance(c) =>
      && !s.holder.Free?
      && (Selecting(s) ==> IsCandidate(s.policy, s.history, c))
    case Close => true
    case Tick(_) => true
  }

  /** The holder is about to call SelectEvictionCandidate. */
  predicate Selecting<V>(s: State<V>) {
    s.holder.Setting? && s.holder.pc == LoopHead && s.size >= s.maxSize
  }

  function Apply<V(==)>(s: State<V>, a: Action<V>): State<V>
    requires Enabled(s, a)
  {
    match a
    case Call(t, key) =>
      // A closed cache misses at once; a reader that found it open goes on if it closes.
      s.(readers := s.readers[t := if s.closed then Miss(key) else Called(key, |s.log|, s.now)])
    case Load(t) =>
      var r := s.readers[t];
      s.(readers := s.readers[t :=
        if r.key in s.data then Loaded(r.key, r.begin, r.clock, |s.log|, s.data[r.key]) else Miss(r.key)])
    case Probe(t) =>
      var r := s.readers[t];
      s.(readers := s.readers[t :=
        if Expired(r.entry, s.now) then Stale(r.key, r.begin, r.clock, r.at, r.entry)
        else Live(r.key, r.begin, r.clock, r.at, r.entry)])
    case Answer(t, touch) =>
      var r := s.readers[t];
      s.(readers := s.readers[t := Hit(r.key, r.begin, r.clock, r.at, r.entry)],
         history := if touch then Then(s.history, Access(r.key)) else s.history)
    case LockRemove(t) =>
      var r := s.readers[t];
      s.(readers := s.readers[t := Miss(r.key)],
         holder := Removing(r.key, Some(r.entry), r.at, RemoveEntered))
    case LockSet(key, value, expiresAt) =>
      s.(holder := Setting(Request(key, value, expiresAt, s.data, s.history, false, None, []), Entered))
    case LockDelete(key) => s.(holder := Removing(key, None, |s.log|, RemoveEntered))
    case LockClear => s.(holder := Clearing(ClearEntered))
    case Advance(c) => AdvanceHolder(s, c)
    case Close => s.(closed := true)
    case Tick(elapsed) => s.(now := s.now + elapsed)
  }

  function AdvanceHolder<V(==)>(s: State<V>, c: string): State<V>
    requires !s.holder.Free?
  {
    match s.holder
    case Setting(r, pc) => AdvanceSet(s, r, pc, c)
    case Removing(_, _, _, _) => AdvanceRemove(s)
    case Clearing(_) => AdvanceClear(s)
  }

  function AdvanceRemove<V(==)>(s: State<V>): State<V>
    requires s.holder.Removing?
  {
    var Removing(key, guard, at, pc) := s.holder;
    match pc
    case RemoveEntered =>
      if key in s.data && (guard.None? || guard.value.id == s.data[key].id)
      then s.(data := s.data - {key}, holder := Removing(key, guard, at, RemoveDropped))
      else s.(holder := Free)
    case RemoveDropped =>
      s.(history := Then(s.history, Evict(key)), holder := Removing(key, guard, at, RemoveUntracked))
    case RemoveUntracked => s.(size := s.size - 1, holder := Free)
  }

  function AdvanceClear<V(==)>(s: State<V>): State<V>
    requires s.holder.Clearing?
  {
    match s.holder.cpc
    case ClearEntered => s.(data := map[], holder := Clearing(ClearDropped))
    case ClearDropped => s.(history := Then(s.history, Reset), holder := Clearing(ClearUntracked))
    case ClearUntracked => s.(size := 0, holder := Free)
  }

  function AdvanceSet<V(==)>(s: State<V>, r: Request<V>, pc: SetPc, c: string): State<V> {
    match pc
    case Entered =>
      if r.key in s.data then s.(holder := Setting(r, Ready(true)))
      else if s.maxSize > 0 then s.(holder := Setting(r.(full := s.size >= s.maxSize), LoopHead))
      else s.(holder := Setting(r, Ready(false)))
    case LoopHead =>
      if s.size < s.maxSize then s.(holder := Setting(r, Ready(false)))
      else s.(holder := Setting(r.(chosen := Some(Victim(c, s.history))),
                                if c == "" then Finished(false) else Chosen))
    case Chosen =>
      if r.chosen.Some? && r.chosen.value.key in s.data
      then s.(data := s.data - {r.chosen.value.key},
              holder := Setting(r.(evicted := r.evicted + [r.chosen.value]), Dropped))
      else s.(holder := Setting(r, LoopHead))
    case Dropped =>
      if r.chosen.Some?
      then s.(history := Then(s.history, Evict(r.chosen.value.key)), holder := Setting(r, Untracked))
      else s
    case Untracked => s.(size := s.size - 1, holder := Setting(r, LoopHead))
    case Ready(b) =>
      var e := Entry(|s.log|, r.value, r.expiresAt);
      s.(data := s.data[r.key := e], log := s.log + [Stored(r.key, e)], holder := Setting(r, Written(b)))
    case Written(true) => s.(history := Then(s.history, Access(r.key)), holder := Setting(r, Finished(true)))
    case Written(false) => s.(size := s.size + 1, holder := Setting(r, Counted))
    case Counted => s.(history := Then(s.history, Insert(r.key)), holder := Setting(r, Finished(true)))
    case Finished(_) => s.(holder := Free)
  }

  // ---------------------------------------------------------------- runs

  predicate Legal<V(==)>(s: State<V>, run: seq<Action<V>>)
    decreases |run|
  {
    run == [] || (Enabled(s, run[0]) && Legal(Apply(s, run[0]), run[1..]))
  }

  function Exec<V(==)>(s: State<V>, run: seq<Action<V>>): State<V>
    requires Legal(s, run)
    decreases |run|
  {
    if run == [] then s else Exec(Apply(s, run[0]), run[1..])
  }

  // ---------------------------------------------------------------- the invariant

  /** e is the entry of the last store of k among the first n. */
  ghost predicate Latest<V>(log: seq<Stored<V>>, n: nat, k: string, e: Entry<V>) {
    && e.id < n <= |log|
    && log[e.id] == Stored(k, e)
    && forall j | e.id < j < n :: log[j].key != k
  }

  ghost predicate StoreLogInv<V>(s: State<V>) {
    && (forall i | 0 <= i < |s.log| :: s.log[i].entry.id == i)
    && (forall k | k in s.data :: Latest(s.log, |s.log|, k, s.data[k]))
  }

  ghost predicate ReaderInv<V>(s: State<V>, r: Reader<V>) {
    match r
    case Called(_, begin, clock) => begin <= |s.log| && clock <= s.now
    case Miss(_) => true
    case _ =>
      && r.begin <= r.at <= |s.log| && r.clock <= s.now
      && Latest(s.log, r.at, r.key, r.entry)
      && (r.Stale? ==> Expired(r.entry, s.now))
      && (r.Live? || r.Hit? ==> !Expired(r.entry, r.clock))
  }

  ghost predicate ReadersInv<V>(s: State<V>) {
    forall t | t in s.readers :: ReaderInv(s, s.readers[t])
  }

  /** The handler tracks the stored keys and the counter is debt ahead of their number. */
  ghost predicate Even<V>(s: State<V>, debt: int) {
    Tracked(s.history) == s.data.Keys && s.size == |s.data| + debt
  }

  /** The handler still tracks k, which has just left the map. */
  ghost predicate Behind<V>(s: State<V>, k: string) {
    k !in s.data && Tracked(s.history) == s.data.Keys + {k} && s.size == |s.data| + 1
  }

  /** The handler does not yet track k, which has just entered the map. */
  ghost predicate Ahead<V>(s: State<V>, k: string, debt: int) {
    && k in s.data && k !in Tracked(s.history)
    && Tracked(s.history) + {k} == s.data.Keys && s.size == |s.data| + debt
  }

  /** How far the map, the handler and the counter are apart at each point of a mutator. */
  ghost predicate BalanceInv<V>(s: State<V>) {
    match s.holder
    case Free => Even(s, 0)
    case Setting(r, pc) =>
      (match pc
       case Dropped => r.chosen.Some? && Behind(s, r.chosen.value.key)
       case Untracked => Even(s, 1)
       case Written(false) => Ahead(s, r.key, -1)
       case Counted => Ahead(s, r.key, 0)
       case _ => Even(s, 0))
    case Removing(key, _, _, pc) =>
      (match pc
       case RemoveEntered => Even(s, 0)
       case RemoveDropped => Behind(s, key)
       case RemoveUntracked => Even(s, 1))
    case Clearing(pc) =>
      (match pc
       case ClearEntered => Even(s, 0)
       case ClearDropped => s.data == map[]
       case ClearUntracked => s.data == map[] && Tracked(s.history) == {})
  }

  ghost predicate BoundInv<V>(s: State<V>) {
    s.maxSize > 0 ==> s.size <= s.maxSize && |s.data| <= s.maxSize
  }

  /** h is base followed by accesses only. */
  predicate OnlyAccessesSince(base: History, h: History) {
    h == base || (h.Then? && h.last.Access? && OnlyAccessesSince(base, h.past))
  }

  /** The victim recorded by r is the policy's choice in the history it was selected in,
      which is the one the Set found plus touches by readers. */
  ghost predicate VictimInv<V>(s: State<V>, r: Request<V>) {
    && r.chosen.Some?
    && OnlyAccessesSince(r.since, r.chosen.value.when)
    && Selects(s.policy, r.chosen.value.when, r.chosen.value.key)
    && Tracked(r.chosen.value.when) == r.before.Keys
  }

  /** The map as the Set found it, less the key it has evicted, if any. */
  ghost function Kept<V>(r: Request<V>): map<string, Entry<V>> {
    if r.evicted == [] then r.before else r.before - {r.evicted[0].key}
  }

  ghost predicate SetInv<V>(s: State<V>, r: Request<V>, pc: SetPc) {
    var bounded := s.maxSize > 0;
    && (r.evicted != [] ==> r.full && VictimInv(s, r) && r.chosen.value.key != "" && r.evicted == [r.chosen.value])
    && (!pc.Entered? ==> r.full == (bounded && r.key !in r.before && |r.before| >= s.maxSize))
    && (match pc
        case Entered => s.data == r.before && r.evicted == [] && !r.full && OnlyAccessesSince(r.since, s.history)
        case LoopHead =>
          && bounded && s.data == Kept(r) && r.key !in r.before
          && (r.evicted == [] ==> r.full == (s.size >= s.maxSize) && OnlyAccessesSince(r.since, s.history))
          && (r.evicted != [] ==> s.size < s.maxSize)
        case Chosen =>
          bounded && r.full && r.evicted == [] && s.data == r.before && VictimInv(s, r) && r.chosen.value.key != ""
        case Dropped => r.evicted != [] && s.data == Kept(r)
        case Untracked => r.evicted != [] && s.data == Kept(r)
        case Ready(b) =>
          && s.data == Kept(r) && b == (r.key in r.before) && (b ==> !r.full)
          && (r.full ==> r.evicted != [])
          && (bounded && !b ==> s.size < s.maxSize)
        case Written(b) => b == (r.key in r.before) && StoredInv(s, r) && (bounded && !b ==> s.size < s.maxSize)
        case Counted => r.key !in r.before && StoredInv(s, r)
        case Finished(true) => StoredInv(s, r)
        case Finished(false) =>
          && s.data == r.before && r.full && r.evicted == []
          && VictimInv(s, r) && r.chosen.value.key == "")
  }

  /** The new entry is in place and it is the only change besides the eviction. */
  ghost predicate StoredInv<V>(s: State<V>, r: Request<V>) {
    && (r.full ==> r.evicted != [])
    && r.key in s.data
    && s.data[r.key].value == r.value && s.data[r.key].expiresAt == r.expiresAt
    && s.data == Kept(r)[r.key := s.data[r.key]]
  }

  ghost predicate HolderInv<V>(s: State<V>) {
    match s.holder
    case Setting(r, pc) => SetInv(s, r, pc)
    case Removing(key, Some(e), at, _) => Latest(s.log, at, key, e) && Expired(e, s.now)
    case _ => true
  }

  ghost predicate Inv<V>(s: State<V>) {
    StoreLogInv(s) && ReadersInv(s) && BalanceInv(s) && BoundInv(s) && HolderInv(s)
  }

  // ---------------------------------------------------------------- every step keeps it

  lemma DropMakesBehind<V>(s: State<V>, k: string, s': State<V>)
    requires Even(s, 0) && k in s.data
    requires s'.data == s.data - {k} && s'.history == s.history && s'.size == s.size
    ensures Behind(s', k) && |s'.data| == |s.data| - 1
  {
    assert s'.data.Keys == s.data.Keys - {k};
  }

  lemma UntrackMakesEven<V>(s: State<V>, k: string, s': State<V>)
    requires Behind(s, k)
    requires s'.data == s.data && s'.history == Then(s.history, Evict(k)) && s'.size == s.size
    ensures Even(s', 1)
  {
    assert Tracked(s'.history) == Tracked(s.history) - {k};
  }

  lemma StoreMakesAhead<V>(s: State<V>, k: string, e: Entry<V>, s': State<V>)
    requires Even(s, 0)
    requires s'.data == s.data[k := e] && s'.history == s.history && s'.size == s.size
    ensures if k in s.data then Even(s', 0) && |s'.data| == |s.data| else Ahead(s', k, -1)
  {
    assert s'.data.Keys == s.data.Keys + {k};
    if k in s.data { assert s'.data.Keys == s.data.Keys; }
  }

  lemma TrackMakesEven<V>(s: State<V>, k: string, s': State<V>)
    requires Ahead(s, k, 0)
    requires s'.data == s.data && s'.history == Then(s.history, Insert(k)) && s'.size == s.size
    ensures Even(s', 0)
  {
    assert Tracked(s'.history) == Tracked(s.history) + {k};
  }

  /** s' differs from s only in its readers, its clock and the order of tracked keys. */
  ghost predicate OffLock<V>(s: State<V>, s': State<V>) {
    && s' == s.(readers := s'.readers, now := s'.now, history := s'.history, closed := s'.closed)
    && s.now <= s'.now
    && (s'.history == s.history || (s'.history.Then? && s'.history.last.Access? && s'.history.past == s.history))
  }

  lemma OffLockKeepsBalance<V>(s: State<V>, s': State<V>)
    requires OffLock(s, s') && BalanceInv(s)
    ensures BalanceInv(s')
  {
  }

  lemma OffLockKeepsHolder<V>(s: State<V>, s': State<V>)
    requires OffLock(s, s') && HolderInv(s)
    ensures HolderInv(s')
  {
  }

  lemma OffLockKeepsReaders<V>(s: State<V>, a: Action<V>)
    requires ReadersInv(s) && StoreLogInv(s) && Enabled(s, a)
    requires a.Call? || a.Load? || a.Probe? || a.Answer? || a.Close? || a.Tick?
    ensures ReadersInv(Apply(s, a))
  {
    var s' := Apply(s, a);
    forall t | t in s'.readers ensures ReaderInv(s', s'.readers[t]) {
      if t in s.readers { assert ReaderInv(s, s.readers[t]); }
    }
  }

  lemma OffLockStepKeepsInv<V>(s: State<V>, a: Action<V>)
    requires Inv(s) && Enabled(s, a)
    requires a.Call? || a.Load? || a.Probe? || a.Answer? || a.Close? || a.Tick?
    ensures Inv(Apply(s, a))
  {
    var s' := Apply(s, a);
    assert OffLock(s, s');
    OffLockKeepsBalance(s, s');
    OffLockKeepsHolder(s, s');
    OffLockKeepsReaders(s, a);
  }

  lemma LockStepKeepsInv<V>(s: State<V>, a: Action<V>)
    requires Inv(s) && Enabled(s, a)
    requires a.LockRemove? || a.LockSet? || a.LockDelete? || a.LockClear?
    ensures Inv(Apply(s, a))
  {
    var s' := Apply(s, a);
    assert ReadersInv(s') by {
      forall t | t in s'.readers ensures ReaderInv(s', s'.readers[t]) {
        assert ReaderInv(s, s.readers[t]);
      }
    }
    assert HolderInv(s') by {
      if a.LockRemove? { assert ReaderInv(s, s.readers[a.t]); }
    }
  }

  /** A holder step that stores nothing keeps what is known of the log and the readers. */
  lemma NoStoreKeepsLog<V>(s: State<V>, s': State<V>)
    requires StoreLogInv(s) && ReadersInv(s)
    requires s'.log == s.log && s'.readers == s.readers && s'.now == s.now
    requires forall k | k in s'.data :: k in s.data && s'.data[k] == s.data[k]
    ensures StoreLogInv(s') && ReadersInv(s')
  {
    forall t | t in s'.readers ensures ReaderInv(s', s'.readers[t]) {
      assert ReaderInv(s, s.readers[t]);
    }
  }

  lemma RemoveKeepsBalance<V>(s: State<V>)
    requires BalanceInv(s) && s.holder.Removing?
    ensures BalanceInv(AdvanceRemove(s))
    ensures BoundInv(s) ==> BoundInv(AdvanceRemove(s))
  {
    var s' := AdvanceRemove(s);
    match s.holder.rpc
    case RemoveEntered =>
      if s'.holder.Removing? { DropMakesBehind(s, s.holder.key, s'); }
    case RemoveDropped => UntrackMakesEven(s, s.holder.key, s');
    case RemoveUntracked =>
  }

  lemma ClearKeepsBalance<V>(s: State<V>)
    requires BalanceInv(s) && s.holder.Clearing?
    ensures BalanceInv(AdvanceClear(s))
    ensures BoundInv(s) ==> BoundInv(AdvanceClear(s))
  {
  }

  lemma RemoveKeepsHolder<V>(s: State<V>)
    requires HolderInv(s) && s.holder.Removing?
    ensures HolderInv(AdvanceRemove(s))
  {
  }

  lemma RemoveKeepsInv<V>(s: State<V>)
    requires Inv(s) && s.holder.Removing?
    ensures Inv(AdvanceRemove(s))
  {
    hide StoreLogInv, ReadersInv, BalanceInv, BoundInv, HolderInv;
    var s' := AdvanceRemove(s);
    RemoveKeepsBalance(s);
    RemoveKeepsHolder(s);
    NoStoreKeepsLog(s, s');
  }

  lemma ClearKeepsInv<V>(s: State<V>)
    requires Inv(s) && s.holder.Clearing?
    ensures Inv(AdvanceClear(s))
  {
    hide StoreLogInv, ReadersInv, BalanceInv, BoundInv;
    NoStoreKeepsLog(s, AdvanceClear(s));
    ClearKeepsBalance(s);
  }

  lemma EnterKeepsInv<V>(s: State<V>, r: Request<V>, c: string)
    requires Inv(s) && s.holder == Setting(r, Entered)
    ensures Inv(AdvanceSet(s, r, Entered, c))
  {
    hide ReaderInv, Latest;
    NoStoreKeepsLog(s, AdvanceSet(s, r, Entered, c));
  }

  lemma SelectKeepsHolder<V>(s: State<V>, r: Request<V>, c: string)
    requires BalanceInv(s) && HolderInv(s) && s.holder == Setting(r, LoopHead)
    requires Selecting(s) ==> IsCandidate(s.policy, s.history, c)
    ensures HolderInv(AdvanceSet(s, r, LoopHead, c))
  {
  }

  lemma SelectKeepsInv<V>(s: State<V>, r: Request<V>, c: string)
    requires Inv(s) && s.holder == Setting(r, LoopHead)
    requires Selecting(s) ==> IsCandidate(s.policy, s.history, c)
    ensures Inv(AdvanceSet(s, r, LoopHead, c))
  {
    hide ReaderInv, Latest, HolderInv;
    SelectKeepsHolder(s, r, c);
    NoStoreKeepsLog(s, AdvanceSet(s, r, LoopHead, c));
  }

  lemma EvictKeepsHolder<V>(s: State<V>, r: Request<V>, c: string)
    requires HolderInv(s) && s.holder == Setting(r, Chosen)
    ensures r.chosen.Some? && r.chosen.value.key in s.data
    ensures HolderInv(AdvanceSet(s, r, Chosen, c))
  {
  }

  lemma EvictKeepsInv<V>(s: State<V>, r: Request<V>, c: string)
    requires Inv(s) && s.holder == Setting(r, Chosen)
    ensures Inv(AdvanceSet(s, r, Chosen, c))
  {
    var s' := AdvanceSet(s, r, Chosen, c);
    EvictKeepsHolder(s, r, c);
    DropMakesBehind(s, r.chosen.value.key, s');
    NoStoreKeepsLog(s, s');
  }

  lemma UntrackKeepsInv<V>(s: State<V>, r: Request<V>, pc: SetPc, c: string)
    requires Inv(s) && s.holder == Setting(r, pc) && (pc.Dropped? || pc.Untracked?)
    ensures Inv(AdvanceSet(s, r, pc, c))
  {
    var s' := AdvanceSet(s, r, pc, c);
    NoStoreKeepsLog(s, s');
    if pc.Dropped? { UntrackMakesEven(s, r.chosen.value.key, s'); }
  }

  lemma StoreKeepsLog<V>(s: State<V>, r: Request<V>, b: bool, c: string)
    requires StoreLogInv(s) && ReadersInv(s) && s.holder == Setting(r, Ready(b))
    ensures var s' := AdvanceSet(s, r, Ready(b), c); StoreLogInv(s') && ReadersInv(s')
  {
    var s' := AdvanceSet(s, r, Ready(b), c);
    forall k | k in s'.data ensures Latest(s'.log, |s'.log|, k, s'.data[k]) {
      if k != r.key { assert Latest(s.log, |s.log|, k, s.data[k]); }
    }
    forall t | t in s'.readers ensures ReaderInv(s', s'.readers[t]) {
      assert ReaderInv(s, s.readers[t]);
    }
  }

  lemma StoreKeepsBalance<V>(s: State<V>, r: Request<V>, b: bool, c: string)
    requires BalanceInv(s) && BoundInv(s) && HolderInv(s) && s.holder == Setting(r, Ready(b))
    ensures var s' := AdvanceSet(s, r, Ready(b), c); BalanceInv(s') && BoundInv(s')
  {
    var s' := AdvanceSet(s, r, Ready(b), c);
    StoreMakesAhead(s, r.key, s'.data[r.key], s');
    assert b == (r.key in s.data);
  }

  lemma StoreKeepsHolder<V>(s: State<V>, r: Request<V>, b: bool, c: string)
    requires HolderInv(s) && s.holder == Setting(r, Ready(b))
    ensures HolderInv(AdvanceSet(s, r, Ready(b), c))
  {
    assert StoredInv(AdvanceSet(s, r, Ready(b), c), r);
  }

  lemma StoreKeepsInv<V>(s: State<V>, r: Request<V>, b: bool, c: string)
    requires Inv(s) && s.holder == Setting(r, Ready(b))
    ensures Inv(AdvanceSet(s, r, Ready(b), c))
  {
    hide StoreLogInv, ReadersInv, BalanceInv, BoundInv, HolderInv;
    StoreKeepsLog(s, r, b, c);
    StoreKeepsBalance(s, r, b, c);
    StoreKeepsHolder(s, r, b, c);
  }

  lemma CountKeepsBalance<V>(s: State<V>, r: Request<V>, b: bool, c: string)
    requires BalanceInv(s) && BoundInv(s) && HolderInv(s) && s.holder == Setting(r, Written(b))
    ensures var s' := AdvanceSet(s, r, Written(b), c); BalanceInv(s') && BoundInv(s')
  {
  }

  lemma CountKeepsHolder<V>(s: State<V>, r: Request<V>, b: bool, c: string)
    requires HolderInv(s) && s.holder == Setting(r, Written(b))
    ensures HolderInv(AdvanceSet(s, r, Written(b), c))
  {
    assert StoredInv(AdvanceSet(s, r, Written(b), c), r);
  }

  lemma CountKeepsInv<V>(s: State<V>, r: Request<V>, b: bool, c: string)
    requires Inv(s) && s.holder == Setting(r, Written(b))
    ensures Inv(AdvanceSet(s, r, Written(b), c))
  {
    hide StoreLogInv, ReadersInv, BalanceInv, BoundInv, HolderInv;
    CountKeepsBalance(s, r, b, c);
    CountKeepsHolder(s, r, b, c);
    NoStoreKeepsLog(s, AdvanceSet(s, r, Written(b), c));
  }

  lemma FinishKeepsInv<V>(s: State<V>, r: Request<V>, pc: SetPc, c: string)
    requires Inv(s) && s.holder == Setting(r, pc) && (pc.Counted? || pc.Finished?)
    ensures Inv(AdvanceSet(s, r, pc, c))
  {
    var s' := AdvanceSet(s, r, pc, c);
    NoStoreKeepsLog(s, s');
    if pc.Counted? { TrackMakesEven(s, r.key, s'); }
  }

  /** Every step of every goroutine keeps the invariant. */
  lemma StepKeepsInv<V>(s: State<V>, a: Action<V>)
    requires Inv(s) && Enabled(s, a)
    ensures Inv(Apply(s, a))
  {
    match a
    case Advance(c) =>
      match s.holder {
        case Removing(_, _, _, _) => RemoveKeepsInv(s);
        case Clearing(_) => ClearKeepsInv(s);
        case Setting(r, pc) =>
          match pc
          case Entered => EnterKeepsInv(s, r, c);
          case LoopHead => SelectKeepsInv(s, r, c);
          case Chosen => EvictKeepsInv(s, r, c);
          case Ready(b) => StoreKeepsInv(s, r, b, c);
          case Dropped => UntrackKeepsInv(s, r, pc, c);
          case Untracked => UntrackKeepsInv(s, r, pc, c);
          case Written(b) => CountKeepsInv(s, r, b, c);
          case _ => FinishKeepsInv(s, r, pc, c);
      }
    case LockRemove(_) => LockStepKeepsInv(s, a);
    case LockSet(_, _, _) => LockStepKeepsInv(s, a);
    case LockDelete(_) => LockStepKeepsInv(s, a);
    case LockClear => LockStepKeepsInv(s, a);
    case _ => OffLockStepKeepsInv(s, a);
  }
}
