/**
 Concurrent GetOrLoad calls over the in-memory cache: a first look, a flight shared by
 all callers of a key, a second look inside the flight, the loader, and the store. A look
 is a Get, so it checks that the cache is open, loads the entry at a later moment, probes
 its expiry at a third and, if it has expired, removes it at a fourth if it is still in
 place. The store is a Set, so it checks again that the cache is open before it acts. Sets
 and removals by other goroutines interleave freely; CacheGuarantees.MapChangesOneKeyOrAll shows that each step
 of the cache changes its map by one store, one removal or a clear, as here.
 */
module SingleFlight {
  import opened Options

  /** id stands for the entry's address: the position of its store in the log. */
  datatype Entry<V> = Entry(id: nat, value: V, expiresAt: int)

  datatype Failure = LoaderFailed | StoreFailed | CacheClosed

  type Answer<V> = Result<V, Failure>

  /** What a look that missed went by: the log length when it loaded, the clock when it
      probed, and whether it missed because it found the cache closed. */
  datatype Look = Look(seen: nat, clock: int, closed: bool)

  /** Where an answer comes from: an entry a look found, the loader store at log[at], or a
      failure. */
  datatype Source<V> = FromCache(entry: Entry<V>, look: Look) | FromLoader(at: nat) | FromFailure

  datatype Verdict<V> = Verdict(answer: Answer<V>, source: Source<V>)

  function Failed<V>(f: Failure): Verdict<V> {
    Verdict(Err(f), FromFailure)
  }

  /** What has happened to the cache. A store records its time and, if it is by a loader, the
      look that led to it. */
  datatype Event<V> =
    | Stored(key: string, loader: Option<Look>, value: V, expiresAt: int, at: int)
    | Removed(key: string)
    | Cleared

  /** How far a Get has got. */
  datatype Get<V> =
    | Begun
    | Admitted
    | Fetched(entry: Entry<V>, seen: nat)
    | Stale(entry: Entry<V>, look: Look)

  /** How far the leader of a flight has got. */
  datatype LeadPc<V> =
    | Rechecking(get: Get<V>)
    | Loading(look: Look)
    | Loaded(value: V, look: Look)
    | Storing(value: V, look: Look)
    | Finished(verdict: Verdict<V>)

  /** A Done caller was answered by a flight, that of its leader, or by its own first look. */
  datatype Caller<V> =
    | Checking(key: string, get: Get<V>)
    | Missed(key: string, look: Look)
    | Leading(key: string, pc: LeadPc<V>)
    | Waiting(key: string, leader: nat)
    | Done(key: string, verdict: Verdict<V>, flight: Option<nat>)

  /** loads is what the loaders of the flights returned, None for an error, and refused the
      leaders whose Set failed. */
  datatype State<V> = State(
    cache: map<string, Entry<V>>, closed: bool, now: int,
    flights: map<string, nat>, results: map<nat, Verdict<V>>,
    callers: map<nat, Caller<V>>, log: seq<Event<V>>,
    loads: map<nat, Option<V>>, refused: set<nat>)

  datatype Action<V> =
    | Enter(t: nat, key: string)
    | CheckOpen(t: nat)
    | Fetch(t: nat)
    | Probe(t: nat)
    | Discard(t: nat)
    | Join(t: nat)
    | LoaderReturns(t: nat, loaded: Option<V>)
    | BeginSet(t: nat)
    | Store(t: nat, ok: bool, expiresAt: int)
    | Land(t: nat)
    | Wake(t: nat)
    | Put(key: string, value: V, expiresAt: int)
    | Remove(key: string)
    | Clear
    | Close
    | Tick(elapsed: nat)

  function Initial<V>(now: int): State<V> {
    State(map[], false, now, map[], map[], map[], [], map[], {})
  }

  predicate Expired<V>(e: Entry<V>, now: int) {
    e.expiresAt != 0 && now > e.expiresAt
  }

  predicate Leads<V>(s: State<V>, t: nat) {
    t in s.callers && s.callers[t].Leading?
  }

  /** The Get a caller is in, first or second. */
  function GetOf<V>(c: Caller<V>): Option<Get<V>> {
    if c.Checking? then Some(c.get)
    else if c.Leading? && c.pc.Rechecking? then Some(c.pc.get)
    else None
  }

  predicate Gets<V>(s: State<V>, t: nat) {
    t in s.callers && GetOf(s.callers[t]).Some?
  }

  function Continued<V>(c: Caller<V>, g: Get<V>): Caller<V> {
    if c.Leading? then Leading(c.key, Rechecking(g)) else Checking(c.key, g)
  }

  function AfterHit<V>(c: Caller<V>, e: Entry<V>, look: Look): Caller<V> {
    var verdict := Verdict(Ok(e.value), FromCache(e, look));
    if c.Leading? then Leading(c.key, Finished(verdict)) else Done(c.key, verdict, None)
  }

  function AfterMiss<V>(c: Caller<V>, look: Look): Caller<V> {
    if c.Leading? then Leading(c.key, Loading(look)) else Missed(c.key, look)
  }

  predicate Enabled<V>(s: State<V>, a: Action<V>) {
    match a
    case Enter(t, _) => t !in s.callers
    case CheckOpen(t) => Gets(s, t) && GetOf(s.callers[t]).value.Begun?
    case Fetch(t) => Gets(s, t) && GetOf(s.callers[t]).value.Admitted?
    case Probe(t) => Gets(s, t) && GetOf(s.callers[t]).value.Fetched?
    case Discard(t) => Gets(s, t) && GetOf(s.callers[t]).value.Stale?
    case Join(t) => t in s.callers && s.callers[t].Missed?
    case LoaderReturns(t, _) => Leads(s, t) && s.callers[t].pc.Loading?
    case BeginSet(t) => Leads(s, t) && s.callers[t].pc.Loaded?
    case Store(t, _, _) => Leads(s, t) && s.callers[t].pc.Storing?
    case Land(t) => Leads(s, t) && s.callers[t].pc.Finished?
    case Wake(t) => t in s.callers && s.callers[t].Waiting? && s.callers[t].leader in s.results
    case _ => true
  }

  function Kept<V>(s: State<V>, key: string, loader: Option<Look>, value: V, expiresAt: int): State<V> {
    s.(cache := s.cache[key := Entry(|s.log|, value, expiresAt)],
       log := s.log + [Stored(key, loader, value, expiresAt, s.now)])
  }

  function Dropped<V>(s: State<V>, key: string): State<V> {
    s.(cache := s.cache - {key}, log := s.log + [Removed(key)])
  }

  /** The caller that takes the step, if it is a caller's. */
  function Actor<V>(a: Action<V>): Option<nat> {
    match a
    case Put(_, _, _) => None
    case Remove(_) => None
    case Clear => None
    case Close => None
    case Tick(_) => None
    case _ => Some(a.t)
  }

  /** What a step makes of the caller that takes it. */
  function CallerAfter<V>(s: State<V>, a: Action<V>): Caller<V>
    requires Enabled(s, a) && Actor(a).Some?
  {
    match a
    case Enter(_, key) => Checking(key, Begun)
    case CheckOpen(t) =>
      var c := s.callers[t];
      if s.closed then AfterMiss(c, Look(|s.log|, s.now, true)) else Continued(c, Admitted)
    case Fetch(t) =>
      var c := s.callers[t];
      if c.key in s.cache then Continued(c, Fetched(s.cache[c.key], |s.log|))
      else AfterMiss(c, Look(|s.log|, s.now, false))
    case Probe(t) =>
      var c, g := s.callers[t], GetOf(s.callers[t]).value;
      var look := Look(g.seen, s.now, false);
      if Expired(g.entry, s.now) then Continued(c, Stale(g.entry, look)) else AfterHit(c, g.entry, look)
    case Discard(t) => AfterMiss(s.callers[t], GetOf(s.callers[t]).value.look)
    case Join(t) =>
      var key := s.callers[t].key;
      if key in s.flights then Waiting(key, s.flights[key]) else Leading(key, Rechecking(Begun))
    case LoaderReturns(t, loaded) =>
      var Leading(key, Loading(look)) := s.callers[t];
      Leading(key, if loaded.Some? then Loaded(loaded.value, look) else Finished(Failed(LoaderFailed)))
    case BeginSet(t) =>
      var Leading(key, Loaded(v, look)) := s.callers[t];
      Leading(key, if s.closed then Finished(Failed(CacheClosed)) else Storing(v, look))
    case Store(t, ok, _) =>
      var Leading(key, Storing(v, _)) := s.callers[t];
      Leading(key, Finished(if ok then Verdict(Ok(v), FromLoader(|s.log|)) else Failed(StoreFailed)))
    case Land(t) =>
      var Leading(key, Finished(verdict)) := s.callers[t];
      Done(key, verdict, Some(t))
    case Wake(t) =>
      var Waiting(key, leader) := s.callers[t];
      Done(key, s.results[leader], Some(leader))
  }

  /** What a step makes of everything that callers share. */
  function SharedAfter<V>(s: State<V>, a: Action<V>): State<V>
    requires Enabled(s, a)
  {
    match a
    case Discard(t) =>
      var key, e := s.callers[t].key, GetOf(s.callers[t]).value.entry;
      if key in s.cache && s.cache[key].id == e.id then Dropped(s, key) else s
    case Join(t) =>
      var key := s.callers[t].key;
      if key in s.flights then s else s.(flights := s.flights[key := t])
    case LoaderReturns(t, loaded) => s.(loads := s.loads[t := loaded])
    case Store(t, ok, expiresAt) =>
      var Leading(key, Storing(v, look)) := s.callers[t];
      if ok then Kept(s, key, Some(look), v, expiresAt) else s.(refused := s.refused + {t})
    case Land(t) =>
      var Leading(key, Finished(verdict)) := s.callers[t];
      s.(flights := s.flights - {key}, results := s.results[t := verdict])
    case Put(key, value, expiresAt) => Kept(s, key, None, value, expiresAt)
    case Remove(key) => Dropped(s, key)
    case Clear => s.(cache := map[], log := s.log + [Cleared])
    case Close => s.(closed := true)
    case Tick(elapsed) => s.(now := s.now + elapsed)
    case _ => s
  }

  function Apply<V>(s: State<V>, a: Action<V>): State<V>
    requires Enabled(s, a)
  {
    var s1 := SharedAfter(s, a);
    if Actor(a).Some? then s1.(callers := s.callers[Actor(a).value := CallerAfter(s, a)]) else s1
  }

  predicate Legal<V>(s: State<V>, run: seq<Action<V>>)
    decreases |run|
  {
    run == [] || (Enabled(s, run[0]) && Legal(Apply(s, run[0]), run[1..]))
  }

  function Exec<V>(s: State<V>, run: seq<Action<V>>): State<V>
    requires Legal(s, run)
    decreases |run|
  {
    if run == [] then s else Exec(Apply(s, run[0]), run[1..])
  }

  // ---------------------------------------------------------------- why a second load happens

  predicate Drops<V>(e: Event<V>, key: string) {
    e.Cleared? || (e.Removed? && e.key == key)
  }

  predicate Stores<V>(e: Event<V>, key: string) {
    e.Stored? && e.key == key
  }

  predicate LoaderStores<V>(e: Event<V>, key: string) {
    Stores(e, key) && e.loader.Some?
  }

  /** log[m] is the last store of key among the first n events, by a loader or by a Set. */
  ghost predicate LastStore<V>(log: seq<Event<V>>, m: int, n: nat, key: string) {
    && 0 <= m < n <= |log|
    && Stores(log[m], key)
    && forall j | m < j < n :: !Stores(log[j], key)
  }

  /** What was stored at log[m] was dropped since, before the look loaded, or had itself
      expired when the look probed. */
  ghost predicate Unusable<V>(log: seq<Event<V>>, m: int, key: string, look: Look)
    requires 0 <= m < look.seen <= |log|
  {
    || (exists d | m < d < look.seen :: Drops(log[d], key))
    || (log[m].Stored? && log[m].expiresAt != 0 && look.clock > log[m].expiresAt)
  }

  /** The last store after log[i] or at it that the look could see was of no use to it. */
  ghost predicate Lost<V>(log: seq<Event<V>>, i: int, key: string, look: Look) {
    exists m :: i <= m && LastStore(log, m, look.seen, key) && Unusable(log, m, key, look)
  }

  // ---------------------------------------------------------------- the invariant

  /** The flight table and the leaders are one-to-one: one flight, one leader per key. */
  ghost predicate FlightInv<V>(s: State<V>) {
    && (forall t | Leads(s, t) :: s.callers[t].key in s.flights && s.flights[s.callers[t].key] == t)
    && (forall k | k in s.flights :: Leads(s, s.flights[k]) && s.callers[s.flights[k]].key == k)
  }

  /** e is the entry of the last store of k among the first n events. */
  ghost predicate Latest<V>(log: seq<Event<V>>, n: nat, k: string, e: Entry<V>) {
    && e.id < n <= |log|
    && Stores(log[e.id], k) && log[e.id].value == e.value && log[e.id].expiresAt == e.expiresAt
    && forall j | e.id < j < n :: !Stores(log[j], k)
  }

  /** The entry of a cached key is its last store; a missing key was dropped after each of
      its stores. */
  ghost predicate CacheInv<V>(s: State<V>) {
    && (forall k | k in s.cache :: Latest(s.log, |s.log|, k, s.cache[k]))
    && (forall i | 0 <= i < |s.log| && s.log[i].Stored? && s.log[i].key !in s.cache ::
          exists m :: i < m < |s.log| && Drops(s.log[m], s.log[i].key))
  }

  /** A Get in progress knows the last store of its key as of its load. */
  ghost predicate GetInv<V>(s: State<V>, key: string, g: Get<V>) {
    match g
    case Begun => true
    case Admitted => true
    case Fetched(e, seen) => Latest(s.log, seen, key, e)
    case Stale(e, look) => 
      Latest(s.log, look.seen, key, e) && Expired(e, look.clock) && look.clock <= s.now && !look.closed
  }

  ghost predicate GetsInv<V>(s: State<V>) {
    forall t | Gets(s, t) :: GetInv(s, s.callers[t].key, GetOf(s.callers[t]).value)
  }

  /** The log length at the load of the second look, once the leader has taken it. */
  function SeenBy<V>(pc: LeadPc<V>): Option<nat> {
    match pc
    case Rechecking(Fetched(_, seen)) => Some(seen)
    case Rechecking(Stale(_, look)) => Some(look.seen)
    case Loading(look) => Some(look.seen)
    case Loaded(_, look) => Some(look.seen)
    case Storing(_, look) => Some(look.seen)
    case _ => None
  }

  /** Since the load of a leader's second look no loader has stored the key. */
  ghost predicate AloneInv<V>(s: State<V>) {
    forall t, i | Leads(s, t) && SeenBy(s.callers[t].pc).Some?
                  && SeenBy(s.callers[t].pc).value <= i < |s.log| ::
      !LoaderStores(s.log[i], s.callers[t].key)
  }

  predicate PastLook<V>(pc: LeadPc<V>) {
    pc.Loading? || pc.Loaded? || pc.Storing?
  }

  /** A leader past its second look saw a closed cache, and then cannot store, or a last
      store that was of no use to it; so did a caller whose first look missed. */
  ghost predicate LoadingInv<V>(s: State<V>) {
    && (forall t | Leads(s, t) && PastLook(s.callers[t].pc) ::
          PcRight(s, s.callers[t].key, s.callers[t].pc))
    && (forall t | t in s.callers && s.callers[t].Missed? ::
          MissRight(s, s.callers[t].key, s.callers[t].look))
  }

  ghost predicate MissRight<V>(s: State<V>, key: string, look: Look) {
    look.clock <= s.now && LooksRight(s.log, key, look) && (look.closed ==> s.closed)
  }

  ghost predicate PcRight<V>(s: State<V>, key: string, pc: LeadPc<V>)
    requires PastLook(pc)
  {
    MissRight(s, key, pc.look) && (pc.look.closed ==> !pc.Storing?)
  }

  ghost predicate LooksRight<V>(log: seq<Event<V>>, key: string, look: Look) {
    && look.seen <= |log|
    && (!look.closed ==> forall m | LastStore(log, m, look.seen, key) :: Unusable(log, m, key, look))
  }

  /** Every loader store of a key before another had been seen, and lost, by the look that
      led to the other. */
  ghost predicate PairInv<V>(log: seq<Event<V>>) {
    forall i, j | 0 <= i < j < |log| && log[i].Stored? && LoaderStores(log[i], log[i].key)
                  && LoaderStores(log[j], log[i].key) ::
      var look := log[j].loader.value;
      !look.closed && i < look.seen <= j && look.clock <= log[j].at && Lost(log, i, log[i].key, look)
  }

  /** A landed leader returned the verdict it published, and every caller answered by a
      flight has the verdict that its leader published. */
  ghost predicate ResultInv<V>(s: State<V>) {
    && (forall l | l in s.results :: l in s.callers && s.callers[l] == Done(s.callers[l].key, s.results[l], Some(l)))
    && (forall t | t in s.callers && s.callers[t].Done? && s.callers[t].flight.Some? :: Answered(s, s.callers[t]))
  }

  ghost predicate Answered<V>(s: State<V>, c: Caller<V>)
    requires c.Done? && c.flight.Some?
  {
    var l := c.flight.value;
    l in s.results && l in s.callers && s.callers[l].key == c.key && c.verdict == s.results[l]
  }

  /** A waiter's leader works on the same key and is still in flight or has published. */
  ghost predicate Served<V>(s: State<V>, key: string, leader: nat) {
    && leader in s.callers && s.callers[leader].key == key
    && (s.callers[leader].Leading? || leader in s.results)
  }

  ghost predicate WaiterInv<V>(s: State<V>) {
    forall t | t in s.callers && s.callers[t].Waiting? :: Served(s, s.callers[t].key, s.callers[t].leader)
  }

  /** v was stored under key, by a loader or by a Set. */
  ghost predicate Supplied<V>(log: seq<Event<V>>, key: string, v: V) {
    exists m :: 0 <= m < |log| && Stores(log[m], key) && log[m].value == v
  }

  /** The verdict of a look or a flight for key is right. */
  ghost predicate Right<V>(s: State<V>, key: string, flight: Option<nat>, v: Verdict<V>) {
    match v.source
    case FromCache(e, look) =>
      && v.answer == Ok(e.value) && Latest(s.log, look.seen, key, e)
      && (e.expiresAt == 0 || look.clock <= e.expiresAt) && look.clock <= s.now
      && (flight.Some? ==> flight.value !in s.loads)
    case FromLoader(at) =>
      && flight.Some? && flight.value in s.loads && flight.value !in s.refused
      && s.loads[flight.value].Some? && v.answer == Ok(s.loads[flight.value].value)
      && at < |s.log| && LoaderStores(s.log[at], key) && s.log[at].value == s.loads[flight.value].value
    case FromFailure =>
      && flight.Some? && flight.value in s.loads && v.answer.Err?
      && match v.answer.error
         case LoaderFailed => s.loads[flight.value].None?
         case StoreFailed => s.loads[flight.value].Some? && flight.value in s.refused
         case CacheClosed => s.loads[flight.value].Some? && s.closed
  }

  /** The verdict a caller has reached itself, if any. */
  function OwnVerdict<V>(t: nat, c: Caller<V>): Option<(Verdict<V>, Option<nat>)> {
    if c.Done? && c.flight.None? then Some((c.verdict, None))
    else if c.Done? && c.flight == Some(t) then Some((c.verdict, Some(t)))
    else if c.Leading? && c.pc.Finished? then Some((c.pc.verdict, Some(t)))
    else None
  }

  ghost predicate RightBy<V>(s: State<V>, t: nat, c: Caller<V>) {
    OwnVerdict(t, c).Some? ==> Right(s, c.key, OwnVerdict(t, c).value.1, OwnVerdict(t, c).value.0)
  }

  ghost predicate VerdictInv<V>(s: State<V>) {
    forall t | t in s.callers :: RightBy(s, t, s.callers[t])
  }

  /** loads and refused know the leaders that have got that far, and no others. */
  ghost predicate LoadsRight<V>(s: State<V>, t: nat, c: Caller<V>) {
    && (c.Leading? && (c.pc.Loaded? || c.pc.Storing?) ==>
          t in s.loads && s.loads[t] == Some(c.pc.value) && t !in s.refused)
    && (t in s.loads ==> (c.Leading? && (c.pc.Loaded? || c.pc.Storing? || c.pc.Finished?)) || c.Done?)
    && (t in s.refused ==> t in s.loads)
  }

  ghost predicate LoadsInv<V>(s: State<V>) {
    && (forall t | t in s.callers :: LoadsRight(s, t, s.callers[t]))
    && (forall t | t in s.loads || t in s.refused :: t in s.callers)
  }

  ghost predicate Inv<V>(s: State<V>) {
    && FlightInv(s) && CacheInv(s) && GetsInv(s) && AloneInv(s) && LoadingInv(s) && PairInv(s.log)
    && ResultInv(s) && WaiterInv(s) && LoadsInv(s) && VerdictInv(s)
  }

  // ---------------------------------------------------------------- every step keeps it

  lemma LastStoreStays<V>(log: seq<Event<V>>, log': seq<Event<V>>, m: int, n: nat, key: string)
    requires log <= log' && n <= |log|
    ensures LastStore(log, m, n, key) <==> LastStore(log', m, n, key)
  {
    assert forall j | 0 <= j < n :: log'[j] == log[j];
  }

  lemma UnusableStays<V>(log: seq<Event<V>>, log': seq<Event<V>>, m: int, key: string, look: Look)
    requires log <= log' && 0 <= m < look.seen <= |log| && Unusable(log, m, key, look)
    ensures Unusable(log', m, key, look)
  {
    if d :| m < d < look.seen && Drops(log[d], key) { assert Drops(log'[d], key); }
  }

  lemma LostGrows<V>(log: seq<Event<V>>, log': seq<Event<V>>, i: int, key: string, look: Look)
    requires look.seen <= |log| && log <= log' && Lost(log, i, key, look)
    ensures Lost(log', i, key, look)
  {
    var m :| i <= m && LastStore(log, m, look.seen, key) && Unusable(log, m, key, look);
    LastStoreStays(log, log', m, look.seen, key);
    UnusableStays(log, log', m, key, look);
  }

  /** Where there is a store there is a last one. */
  lemma {:induction false} LastStoreExists<V>(log: seq<Event<V>>, i: int, n: nat, key: string) returns (m: int)
    requires 0 <= i < n <= |log| && Stores(log[i], key)
    ensures i <= m && LastStore(log, m, n, key)
  {
    if Stores(log[n - 1], key) {
      m := n - 1;
    } else {
      m := LastStoreExists(log, i, n - 1, key);
    }
  }

  /** A right look on an open cache gives every store it could see a reason. */
  lemma LooksRightGivesLost<V>(log: seq<Event<V>>, i: int, key: string, look: Look)
    requires LooksRight(log, key, look) && !look.closed && 0 <= i < look.seen && Stores(log[i], key)
    ensures Lost(log, i, key, look)
  {
    var m := LastStoreExists(log, i, look.seen, key);
  }

  lemma LatestGrows<V>(log: seq<Event<V>>, log': seq<Event<V>>, n: nat, k: string, e: Entry<V>)
    requires log <= log' && Latest(log, n, k, e)
    ensures Latest(log', n, k, e)
  {
    forall j | e.id < j < n ensures !Stores(log'[j], k) { assert !Stores(log[j], k); }
  }

  lemma OthersStay<V>(s: State<V>, a: Action<V>, t: nat)
    requires Enabled(s, a) && Actor(a) != Some(t)
    ensures t in Apply(s, a).callers <==> t in s.callers
    ensures t in s.callers ==> Apply(s, a).callers[t] == s.callers[t]
  {
    hide CallerAfter;
  }

  lemma ActorMoves<V>(s: State<V>, a: Action<V>, t: nat)
    requires Enabled(s, a) && Actor(a) == Some(t)
    ensures t in Apply(s, a).callers && Apply(s, a).callers[t] == CallerAfter(s, a)
  {
    hide CallerAfter, SharedAfter;
  }

  /** A caller that has its answer takes no more steps. */
  lemma DoneIsFinal<V>(s: State<V>, a: Action<V>, t: nat)
    requires Enabled(s, a) && Actor(a) == Some(t) && t in s.callers
    ensures !s.callers[t].Done? && !a.Enter?
  {
  }

  /** What is recorded of others stays. */
  lemma RecordsStay<V>(s: State<V>, a: Action<V>)
    requires Enabled(s, a)
    ensures var s' := Apply(s, a);
            && (forall t | Actor(a) != Some(t) :: t in s'.loads <==> t in s.loads)
            && (forall t | Actor(a) != Some(t) && t in s.loads :: s'.loads[t] == s.loads[t])
            && (forall t | Actor(a) != Some(t) :: t in s'.refused <==> t in s.refused)
  {
    hide CallerAfter;
  }

  lemma ClockGrows<V>(s: State<V>, a: Action<V>)
    requires Enabled(s, a)
    ensures s.now <= Apply(s, a).now && (s.closed ==> Apply(s, a).closed)
  {
    hide CallerAfter;
  }

  /** What a step logs: at most one event, and a loader's store only by a leader that was
      storing. */
  lemma LogsOneEvent<V>(s: State<V>, a: Action<V>)
    requires Enabled(s, a)
    ensures Apply(s, a).log == SharedAfter(s, a).log
    ensures var log' := SharedAfter(s, a).log;
            || log' == s.log
            || (&& |log'| == |s.log| + 1 && log' == s.log + [log'[|s.log|]]
                && (log'[|s.log|].Stored? && log'[|s.log|].loader.Some? ==>
                      && a.Store? && log'[|s.log|].key == s.callers[a.t].key
                      && log'[|s.log|].loader.value == s.callers[a.t].pc.look && log'[|s.log|].at == s.now))
  {
    hide CallerAfter;
  }

  /** The log only grows, by one event, and a loader's store is by a leader that was storing. */
  lemma LogGrows<V>(s: State<V>, a: Action<V>)
    requires Enabled(s, a)
    ensures var s' := Apply(s, a);
            && s.log <= s'.log && |s'.log| <= |s.log| + 1 && s.now <= s'.now && (s.closed ==> s'.closed)
            && (|s.log| < |s'.log| && s'.log[|s.log|].Stored? && s'.log[|s.log|].loader.Some? ==>
                  && a.Store? && s'.log[|s.log|].key == s.callers[a.t].key
                  && s'.log[|s.log|].loader.value == s.callers[a.t].pc.look && s'.log[|s.log|].at == s.now)
  {
    hide Apply, SharedAfter;
    ClockGrows(s, a);
    LogsOneEvent(s, a);
  }

  lemma FlightsStay<V>(s: State<V>, a: Action<V>)
    requires Enabled(s, a) && !a.Join? && !a.Land?
    ensures Apply(s, a).flights == s.flights
  {
    hide CallerAfter;
  }

  /** A caller keeps its key, and a leader leads until it lands. */
  lemma ActorKeepsKey<V>(s: State<V>, a: Action<V>, t: nat)
    requires Enabled(s, a) && Actor(a) == Some(t) && t in s.callers
    ensures CallerAfter(s, a).key == s.callers[t].key
    ensures !a.Join? && !a.Land? ==> (CallerAfter(s, a).Leading? <==> s.callers[t].Leading?)
  {
  }

  lemma QuietStepKeepsLeaders<V>(s: State<V>, a: Action<V>, t: nat)
    requires Enabled(s, a) && !a.Join? && !a.Land?
    ensures Leads(Apply(s, a), t) <==> Leads(s, t)
    ensures Leads(s, t) ==> Apply(s, a).callers[t].key == s.callers[t].key
  {
    if Actor(a) != Some(t) {
      hide Apply, Enabled;
      OthersStay(s, a, t);
    } else {
      hide Apply;
      ActorMoves(s, a, t);
      if t in s.callers { hide CallerAfter; ActorKeepsKey(s, a, t); }
    }
  }

  lemma JoinKeepsFlights<V>(s: State<V>, t: nat)
    requires FlightInv(s) && Enabled(s, Join(t))
    ensures FlightInv(Apply(s, Join(t)))
  {
    var s' := Apply(s, Join(t));
    assert forall x | x != t :: Leads(s', x) <==> Leads(s, x);
  }

  lemma LandKeepsFlights<V>(s: State<V>, t: nat)
    requires FlightInv(s) && Enabled(s, Land(t))
    ensures FlightInv(Apply(s, Land(t)))
  {
    var s' := Apply(s, Land(t));
    assert forall x | Leads(s', x) :: Leads(s, x) && x != t && s'.callers[x] == s.callers[x];
  }

  lemma QuietStepKeepsFlights<V>(s: State<V>, a: Action<V>)
    requires FlightInv(s) && Enabled(s, a) && !a.Join? && !a.Land?
    ensures FlightInv(Apply(s, a))
  {
    hide Apply, Enabled;
    var s' := Apply(s, a);
    forall t ensures Leads(s', t) <==> Leads(s, t)
      ensures Leads(s, t) ==> s'.callers[t].key == s.callers[t].key { QuietStepKeepsLeaders(s, a, t); }
    FlightsStay(s, a);
  }

  lemma StepKeepsFlights<V>(s: State<V>, a: Action<V>)
    requires FlightInv(s) && Enabled(s, a)
    ensures FlightInv(Apply(s, a))
  {
    hide Apply, FlightInv;
    match a
    case Join(t) => JoinKeepsFlights(s, t);
    case Land(t) => LandKeepsFlights(s, t);
    case _ => QuietStepKeepsFlights(s, a);
  }

  lemma KeptKeepsCache<V>(s: State<V>, k: string, loader: Option<Look>, v: V, expiresAt: int)
    requires CacheInv(s)
    ensures CacheInv(Kept(s, k, loader, v, expiresAt))
  {
    var s' := Kept(s, k, loader, v, expiresAt);
    forall x | x in s'.cache ensures Latest(s'.log, |s'.log|, x, s'.cache[x]) {
      if x != k { LatestGrows(s.log, s'.log, |s.log|, x, s.cache[x]); }
    }
    forall i | 0 <= i < |s'.log| && s'.log[i].Stored? && s'.log[i].key !in s'.cache
      ensures exists m :: i < m < |s'.log| && Drops(s'.log[m], s'.log[i].key)
    {
      var m :| i < m < |s.log| && Drops(s.log[m], s.log[i].key);
      assert Drops(s'.log[m], s'.log[i].key);
    }
  }

  lemma DropKeepsCache<V>(s: State<V>, s': State<V>, e: Event<V>)
    requires CacheInv(s) && !e.Stored?
    requires s'.cache == (if e.Cleared? then map[] else s.cache - {e.key})
    requires s'.log == s.log + [e]
    ensures CacheInv(s')
  {
    forall x | x in s'.cache ensures Latest(s'.log, |s'.log|, x, s'.cache[x]) {
      LatestGrows(s.log, s'.log, |s.log|, x, s.cache[x]);
    }
    forall i | 0 <= i < |s'.log| && s'.log[i].Stored? && s'.log[i].key !in s'.cache
      ensures exists m :: i < m < |s'.log| && Drops(s'.log[m], s'.log[i].key)
    {
      if s.log[i].key in s.cache {
        assert Drops(s'.log[|s.log|], s'.log[i].key);
      } else {
        var m :| i < m < |s.log| && Drops(s.log[m], s.log[i].key);
        assert Drops(s'.log[m], s'.log[i].key);
      }
    }
  }

  lemma SameCache<V>(s: State<V>, s': State<V>)
    requires CacheInv(s) && s'.cache == s.cache && s'.log == s.log
    ensures CacheInv(s')
  {
  }

  lemma SameCacheAfter<V>(s: State<V>, a: Action<V>)
    requires Enabled(s, a)
    ensures CacheInv(SharedAfter(s, a)) ==> CacheInv(Apply(s, a))
  {
    hide SharedAfter, CallerAfter;
  }

  lemma StepKeepsCache<V>(s: State<V>, a: Action<V>)
    requires CacheInv(s) && Enabled(s, a)
    ensures CacheInv(Apply(s, a))
  {
    hide CacheInv, CallerAfter, Apply;
    var s' := SharedAfter(s, a);
    SameCacheAfter(s, a);
    if s'.log == s.log {
      SameCache(s, s');
    } else {
      match a
      case Put(k, v, x) => KeptKeepsCache(s, k, None, v, x);
      case Store(t, _, x) =>
        var c := s.callers[t];
        KeptKeepsCache(s, c.key, Some(c.pc.look), c.pc.value, x);
      case Remove(k) => DropKeepsCache(s, s', Removed(k));
      case Discard(t) => DropKeepsCache(s, s', Removed(s.callers[t].key));
      case Clear => DropKeepsCache(s, s', Cleared);
    }
  }

  lemma ActorKeepsGet<V>(s: State<V>, a: Action<V>, t: nat)
    requires CacheInv(s) && GetsInv(s) && Enabled(s, a) && Actor(a) == Some(t) && Gets(Apply(s, a), t)
    ensures var s' := Apply(s, a); GetInv(s', s'.callers[t].key, GetOf(s'.callers[t]).value)
  {
    hide SharedAfter, Apply;
    ActorMoves(s, a, t);
    LogGrows(s, a);
    if a.Fetch? {
      LatestGrows(s.log, Apply(s, a).log, |s.log|, s.callers[t].key, s.cache[s.callers[t].key]);
    } else if a.Probe? {
      GetGrows(s, Apply(s, a), s.callers[t].key, GetOf(s.callers[t]).value);
      ClockStays(s, a);
    }
  }

  lemma ClockStays<V>(s: State<V>, a: Action<V>)
    requires Enabled(s, a) && Actor(a).Some?
    ensures Apply(s, a).now == s.now && Apply(s, a).closed == s.closed
  {
    hide CallerAfter;
  }

  lemma StepKeepsGets<V>(s: State<V>, a: Action<V>)
    requires CacheInv(s) && GetsInv(s) && Enabled(s, a)
    ensures GetsInv(Apply(s, a))
  {
    hide Apply, Enabled, GetInv, CacheInv;
    var s' := Apply(s, a);
    LogGrows(s, a);
    forall t | Gets(s', t) ensures GetInv(s', s'.callers[t].key, GetOf(s'.callers[t]).value) {
      if Actor(a) == Some(t) {
        ActorKeepsGet(s, a, t);
      } else {
        OthersStay(s, a, t);
        GetGrows(s, s', s.callers[t].key, GetOf(s.callers[t]).value);
      }
    }
  }

  lemma GetGrows<V>(s: State<V>, s': State<V>, key: string, g: Get<V>)
    requires GetInv(s, key, g) && s.log <= s'.log && s.now <= s'.now
    ensures GetInv(s', key, g)
  {
    match g
    case Begun =>
    case Admitted =>
    case Fetched(e, seen) => LatestGrows(s.log, s'.log, seen, key, e);
    case Stale(e, look) => LatestGrows(s.log, s'.log, look.seen, key, e);
  }

  /** A loader store comes from the one leader of its key, which then is done looking. */
  lemma StepKeepsAlone<V>(s: State<V>, a: Action<V>)
    requires FlightInv(s) && AloneInv(s) && Enabled(s, a)
    ensures AloneInv(Apply(s, a))
  {
    var s' := Apply(s, a);
    forall t, i | Leads(s', t) && SeenBy(s'.callers[t].pc).Some?
                  && SeenBy(s'.callers[t].pc).value <= i < |s'.log|
      ensures !LoaderStores(s'.log[i], s'.callers[t].key)
    {
      StaysAlone(s, a, t, i);
    }
  }

  /** The actor's own second look begins at the end of the log, or it is the one it had. */
  lemma ActorSees<V>(s: State<V>, a: Action<V>, t: nat)
    requires Enabled(s, a) && Actor(a) == Some(t) && Leads(Apply(s, a), t) && SeenBy(Apply(s, a).callers[t].pc).Some?
    ensures var s' := Apply(s, a);
            && !a.Store? && Leads(s, t) && s'.callers[t].key == s.callers[t].key
            && (SeenBy(s'.callers[t].pc) == Some(|s.log|) || SeenBy(s'.callers[t].pc) == SeenBy(s.callers[t].pc))
  {
    hide Apply;
    ActorMoves(s, a, t);
  }

  lemma StaysAlone<V>(s: State<V>, a: Action<V>, t: nat, i: int)
    requires FlightInv(s) && AloneInv(s) && Enabled(s, a)
    requires var s' := Apply(s, a);
      Leads(s', t) && SeenBy(s'.callers[t].pc).Some? && SeenBy(s'.callers[t].pc).value <= i < |s'.log|
    ensures var s' := Apply(s, a); !LoaderStores(s'.log[i], s'.callers[t].key)
  {
    hide Apply, SeenBy;
    var s' := Apply(s, a);
    LogGrows(s, a);
    if Actor(a) == Some(t) { ActorSees(s, a, t); } else { OthersStay(s, a, t); }
    if a.Store? {
      assert s.flights[s.callers[t].key] == t && s.flights[s.callers[a.t].key] == a.t;
    }
  }

  /** A look that finds no entry: the last store of the key was dropped since. */
  lemma AbsenceHasReason<V>(s: State<V>, key: string)
    requires CacheInv(s) && key !in s.cache
    ensures LooksRight(s.log, key, Look(|s.log|, s.now, false))
  {
    var look := Look(|s.log|, s.now, false);
    forall m | LastStore(s.log, m, |s.log|, key) ensures Unusable(s.log, m, key, look) {
      assert s.log[m].key == key;
    }
  }

  /** A look that finds an entry which has expired when it probes: that entry is the last
      store of the key it could see. */
  lemma ExpiryHasReason<V>(log: seq<Event<V>>, key: string, e: Entry<V>, look: Look)
    requires Latest(log, look.seen, key, e) && Expired(e, look.clock)
    ensures LooksRight(log, key, look)
  {
    forall m | LastStore(log, m, look.seen, key) ensures Unusable(log, m, key, look) {
      assert m == e.id;
    }
  }

  /** A look that misses has a reason: it found the cache closed, no entry, or an expired one. */
  lemma LookMissHasReason<V>(s: State<V>, a: Action<V>, t: nat, look: Look)
    requires CacheInv(s) && GetsInv(s) && Enabled(s, a) && Gets(s, t) && Actor(a) == Some(t)
    requires CallerAfter(s, a) == AfterMiss(s.callers[t], look)
    ensures var s' := Apply(s, a); MissRight(s', s.callers[t].key, look)
    ensures look.closed <==> s.closed && GetOf(s.callers[t]).value.Begun?
  {
    hide LooksRight, CacheInv, GetsInv, Apply, SharedAfter;
    var s' := Apply(s, a);
    var key, g := s.callers[t].key, GetOf(s.callers[t]).value;
    LogGrows(s, a);
    match g
    case Begun => ClosedLooksRight(s'.log, key, look);
    case Admitted => AbsenceHasReason(s, key); LooksRightGrows(s.log, s'.log, key, look);
    case Stale(e, _) => StaleHasReason(s, t); LooksRightGrows(s.log, s'.log, key, look);
    case Fetched(_, _) =>
  }

  /** A second look that misses has a reason: this is the window the double check closes. */
  lemma MissHasReason<V>(s: State<V>, a: Action<V>, t: nat)
    requires CacheInv(s) && GetsInv(s) && Enabled(s, a) && Leads(s, t) && s.callers[t].pc.Rechecking?
    requires Leads(Apply(s, a), t) && Apply(s, a).callers[t].pc.Loading?
    ensures var s' := Apply(s, a); PcRight(s', s'.callers[t].key, s'.callers[t].pc)
    ensures Apply(s, a).callers[t].pc.look.closed <==> s.closed && s.callers[t].pc.get.Begun?
  {
    hide Apply, SharedAfter, MissRight, CacheInv, GetsInv;
    if Actor(a) != Some(t) { OthersStay(s, a, t); }
    ActorMoves(s, a, t);
    LookMissHasReason(s, a, t, Apply(s, a).callers[t].pc.look);
  }

  lemma StaleHasReason<V>(s: State<V>, t: nat)
    requires GetsInv(s) && Gets(s, t) && GetOf(s.callers[t]).value.Stale?
    ensures var look := GetOf(s.callers[t]).value.look;
            LooksRight(s.log, s.callers[t].key, look) && look.clock <= s.now && !look.closed
  {
    var key, g := s.callers[t].key, GetOf(s.callers[t]).value;
    assert GetInv(s, key, g);
    ExpiryHasReason(s.log, key, g.entry, g.look);
  }

  lemma ClosedLooksRight<V>(log: seq<Event<V>>, key: string, look: Look)
    requires look.closed && look.seen <= |log|
    ensures LooksRight(log, key, look)
  {
  }

  lemma LooksRightGrows<V>(log: seq<Event<V>>, log': seq<Event<V>>, key: string, look: Look)
    requires log <= log' && LooksRight(log, key, look)
    ensures LooksRight(log', key, look)
  {
    if !look.closed {
      forall m | LastStore(log', m, look.seen, key) ensures Unusable(log', m, key, look) {
        LastStoreStays(log, log', m, look.seen, key);
        UnusableStays(log, log', m, key, look);
      }
    }
  }

  lemma StepKeepsLoading<V>(s: State<V>, a: Action<V>)
    requires CacheInv(s) && GetsInv(s) && LoadingInv(s) && Enabled(s, a)
    ensures LoadingInv(Apply(s, a))
  {
    var s' := Apply(s, a);
    forall t | Leads(s', t) && PastLook(s'.callers[t].pc)
      ensures PcRight(s', s'.callers[t].key, s'.callers[t].pc)
    {
      KeepsLooking(s, a, t);
    }
    forall t | t in s'.callers && s'.callers[t].Missed?
      ensures MissRight(s', s'.callers[t].key, s'.callers[t].look)
    {
      KeepsMiss(s, a, t);
    }
  }

  /** A first look misses for the same reasons as a second one. */
  lemma FirstMissHasReason<V>(s: State<V>, a: Action<V>, t: nat)
    requires CacheInv(s) && GetsInv(s) && Enabled(s, a) && Actor(a) == Some(t)
    requires t in Apply(s, a).callers && Apply(s, a).callers[t].Missed?
    ensures var s' := Apply(s, a); MissRight(s', s'.callers[t].key, s'.callers[t].look)
  {
    hide Apply, SharedAfter, MissRight, CacheInv, GetsInv;
    ActorMoves(s, a, t);
    LookMissHasReason(s, a, t, Apply(s, a).callers[t].look);
  }

  lemma KeepsMiss<V>(s: State<V>, a: Action<V>, t: nat)
    requires CacheInv(s) && GetsInv(s) && LoadingInv(s) && Enabled(s, a)
    requires t in Apply(s, a).callers && Apply(s, a).callers[t].Missed?
    ensures var s' := Apply(s, a); MissRight(s', s'.callers[t].key, s'.callers[t].look)
  {
    hide Apply, Enabled, LooksRight, CacheInv, GetsInv;
    if Actor(a) == Some(t) {
      FirstMissHasReason(s, a, t);
    } else {
      OthersStay(s, a, t);
      LogGrows(s, a);
      assert MissRight(s, s.callers[t].key, s.callers[t].look);
      LooksRightGrows(s.log, Apply(s, a).log, s.callers[t].key, s.callers[t].look);
    }
  }

  /** An actor past its second look has just missed, or keeps the look it had. */
  lemma ActorLooks<V>(s: State<V>, a: Action<V>, t: nat)
    requires Enabled(s, a) && Actor(a) == Some(t) && Leads(Apply(s, a), t) && PastLook(Apply(s, a).callers[t].pc)
    ensures var pc' := Apply(s, a).callers[t].pc;
            && Leads(s, t) && Apply(s, a).callers[t].key == s.callers[t].key
            && (if s.callers[t].pc.Rechecking? then pc'.Loading?
                else PastLook(s.callers[t].pc) && pc'.look == s.callers[t].pc.look && (pc'.Storing? ==> !s.closed))
  {
    hide Apply;
    ActorMoves(s, a, t);
  }

  lemma KeepsLooking<V>(s: State<V>, a: Action<V>, t: nat)
    requires CacheInv(s) && GetsInv(s) && LoadingInv(s) && Enabled(s, a)
    requires var s' := Apply(s, a); Leads(s', t) && PastLook(s'.callers[t].pc)
    ensures var s' := Apply(s, a); PcRight(s', s'.callers[t].key, s'.callers[t].pc)
  {
    hide Apply, Enabled, LooksRight, CacheInv, GetsInv;
    var s' := Apply(s, a);
    LogGrows(s, a);
    if Actor(a) == Some(t) { ActorLooks(s, a, t); } else { OthersStay(s, a, t); }
    if s.callers[t].pc.Rechecking? {
      MissHasReason(s, a, t);
    } else {
      assert PcRight(s, s.callers[t].key, s.callers[t].pc);
      LooksRightGrows(s.log, s'.log, s.callers[t].key, s.callers[t].pc.look);
    }
  }

  lemma StepKeepsPairs<V>(s: State<V>, a: Action<V>)
    requires AloneInv(s) && LoadingInv(s) && PairInv(s.log) && Enabled(s, a)
    ensures PairInv(Apply(s, a).log)
  {
    hide Apply, AloneInv, LoadingInv, Lost;
    var s' := Apply(s, a);
    LogGrows(s, a);
    forall i, j | 0 <= i < j < |s'.log| && s'.log[i].Stored? && LoaderStores(s'.log[i], s'.log[i].key)
                  && LoaderStores(s'.log[j], s'.log[i].key)
      ensures var look := s'.log[j].loader.value;
              !look.closed && i < look.seen <= j && look.clock <= s'.log[j].at && Lost(s'.log, i, s'.log[i].key, look)
    {
      var key := s'.log[i].key;
      if j < |s.log| {
        assert s'.log[j] == s.log[j] && s'.log[i] == s.log[i];
        LostGrows(s.log, s'.log, i, key, s.log[j].loader.value);
      } else {
        assert a.Store? && s.callers[a.t].key == key && Leads(s, a.t);
        StoreSawEarlierOnes(s, a.t, i);
        LostGrows(s.log, s'.log, i, key, s.callers[a.t].pc.look);
      }
    }
  }

  lemma StoreSawEarlierOnes<V>(s: State<V>, t: nat, i: int)
    requires AloneInv(s) && LoadingInv(s) && Leads(s, t) && PastLook(s.callers[t].pc)
    requires 0 <= i < |s.log| && LoaderStores(s.log[i], s.callers[t].key)
    ensures var pc := s.callers[t].pc;
            && i < pc.look.seen <= |s.log| && pc.look.clock <= s.now
            && (pc.look.closed ==> s.closed && !pc.Storing?)
            && (pc.look.closed || Lost(s.log, i, s.callers[t].key, pc.look))
  {
    var pc := s.callers[t].pc;
    assert SeenBy(pc) == Some(pc.look.seen);
    assert PcRight(s, s.callers[t].key, pc);
    if !pc.look.closed { LooksRightGivesLost(s.log, i, s.callers[t].key, pc.look); }
  }

  /** Only landing publishes. */
  lemma ResultsGrow<V>(s: State<V>, a: Action<V>)
    requires Enabled(s, a)
    ensures Apply(s, a).results == if a.Land? then s.results[a.t := s.callers[a.t].pc.verdict] else s.results
  {
    hide CallerAfter;
  }

  lemma WakeCopies<V>(s: State<V>, t: nat)
    requires ResultInv(s) && WaiterInv(s) && Enabled(s, Wake(t))
    ensures var s' := Apply(s, Wake(t));
            && t in s'.callers && s'.callers[t].Done? && s'.callers[t].flight.Some?
            && s'.callers[t].flight.value in s.results && s'.callers[t].flight.value != t
            && Answered(s, s'.callers[t])
  {
    assert Served(s, s.callers[t].key, s.callers[t].leader);
  }

  /** Only landing and waking make a caller answered by a flight. */
  lemma AnsweredByFlight<V>(s: State<V>, a: Action<V>, t: nat)
    requires Enabled(s, a) && Actor(a) == Some(t) && CallerAfter(s, a).Done? && CallerAfter(s, a).flight.Some?
    ensures a == Land(t) || a == Wake(t)
  {
  }

  lemma LandPublishes<V>(s: State<V>, t: nat)
    requires Enabled(s, Land(t))
    ensures var s' := Apply(s, Land(t));
            t in s'.results && t in s'.callers && s'.callers[t] == Done(s.callers[t].key, s'.results[t], Some(t))
  {
  }

  lemma PublishedStays<V>(s: State<V>, a: Action<V>, l: nat)
    requires ResultInv(s) && Enabled(s, a) && l in s.results
    ensures var s' := Apply(s, a);
            l in s'.results && s'.results[l] == s.results[l] && l in s'.callers && s'.callers[l] == s.callers[l]
  {
    hide Apply, Enabled;
    ResultsGrow(s, a);
    if Actor(a) == Some(l) { DoneIsFinal(s, a, l); }
    OthersStay(s, a, l);
  }

  lemma StepKeepsResults<V>(s: State<V>, a: Action<V>)
    requires ResultInv(s) && WaiterInv(s) && Enabled(s, a)
    ensures ResultInv(Apply(s, a))
  {
    hide Apply, SharedAfter;
    var s' := Apply(s, a);
    ResultsGrow(s, a);
    forall l | l in s'.results
      ensures l in s'.callers && s'.callers[l] == Done(s'.callers[l].key, s'.results[l], Some(l))
    {
      if l in s.results {
        PublishedStays(s, a, l);
      } else {
        assert a.Land? && a.t == l;
        ActorMoves(s, a, l);
      }
    }
    forall t | t in s'.callers && s'.callers[t].Done? && s'.callers[t].flight.Some?
      ensures Answered(s', s'.callers[t])
    {
      StaysAnswered(s, a, t);
    }
  }

  lemma StaysAnswered<V>(s: State<V>, a: Action<V>, t: nat)
    requires ResultInv(s) && WaiterInv(s) && Enabled(s, a) && t in Apply(s, a).callers
    requires Apply(s, a).callers[t].Done? && Apply(s, a).callers[t].flight.Some?
    ensures Answered(Apply(s, a), Apply(s, a).callers[t])
  {
    hide Apply, Enabled;
    if Actor(a) != Some(t) {
      OthersStay(s, a, t);
      assert Answered(s, s.callers[t]);
      PublishedStays(s, a, s.callers[t].flight.value);
    } else {
      ActorMoves(s, a, t);
      AnsweredByFlight(s, a, t);
      if a == Land(t) {
        LandPublishes(s, t);
      } else {
        WakeCopies(s, t);
        PublishedStays(s, a, Apply(s, a).callers[t].flight.value);
      }
    }
  }

  lemma LeaderLandsOrLeads<V>(s: State<V>, a: Action<V>, t: nat)
    requires Enabled(s, a) && Actor(a) == Some(t) && Leads(s, t)
    ensures CallerAfter(s, a).key == s.callers[t].key && (CallerAfter(s, a).Leading? || a.Land?)
  {
  }

  lemma StaysServed<V>(s: State<V>, a: Action<V>, key: string, leader: nat)
    requires ResultInv(s) && Enabled(s, a) && Served(s, key, leader)
    ensures Served(Apply(s, a), key, leader)
  {
    hide Apply, CallerAfter, SharedAfter;
    ResultsGrow(s, a);
    if Actor(a) != Some(leader) {
      OthersStay(s, a, leader);
    } else {
      DoneIsFinal(s, a, leader);
      ActorMoves(s, a, leader);
      LeaderLandsOrLeads(s, a, leader);
    }
  }

  lemma StepKeepsWaiters<V>(s: State<V>, a: Action<V>)
    requires FlightInv(s) && ResultInv(s) && WaiterInv(s) && Enabled(s, a)
    ensures WaiterInv(Apply(s, a))
  {
    hide Apply, SharedAfter, ResultInv;
    var s' := Apply(s, a);
    forall t | t in s'.callers && s'.callers[t].Waiting?
      ensures Served(s', s'.callers[t].key, s'.callers[t].leader)
    {
      if Actor(a) != Some(t) {
        OthersStay(s, a, t);
      } else {
        ActorMoves(s, a, t);
        assert a.Join? && Served(s, s.callers[t].key, s.flights[s.callers[t].key]);
      }
      StaysServed(s, a, s'.callers[t].key, s'.callers[t].leader);
    }
  }

  /** A verdict stays right while the log grows and its flight has nothing more to record. */
  lemma RightStays<V>(s: State<V>, s': State<V>, key: string, flight: Option<nat>, v: Verdict<V>)
    requires Right(s, key, flight, v) && s.log <= s'.log && s.now <= s'.now && (s.closed ==> s'.closed)
    requires flight.Some? ==>
      && (flight.value in s'.loads <==> flight.value in s.loads)
      && (flight.value in s.loads ==> s'.loads[flight.value] == s.loads[flight.value])
      && (flight.value in s'.refused <==> flight.value in s.refused)
    ensures Right(s', key, flight, v)
  {
    match v.source
    case FromCache(e, look) => LatestGrows(s.log, s'.log, look.seen, key, e);
    case FromLoader(at) => assert s'.log[at] == s.log[at];
    case FromFailure =>
  }

  /** A look that hits decides by the entry it loaded. */
  lemma ProbeDecides<V>(s: State<V>, t: nat)
    requires LoadsInv(s) && GetsInv(s) && Enabled(s, Probe(t))
    ensures var s' := Apply(s, Probe(t)); t in s'.callers && RightBy(s', t, s'.callers[t])
  {
    assert GetInv(s, s.callers[t].key, GetOf(s.callers[t]).value);
    assert LoadsRight(s, t, s.callers[t]);
  }

  lemma LoaderDecides<V>(s: State<V>, t: nat, loaded: Option<V>)
    requires Enabled(s, LoaderReturns(t, loaded))
    ensures var s' := Apply(s, LoaderReturns(t, loaded)); t in s'.callers && RightBy(s', t, s'.callers[t])
  {
  }

  lemma SetDecides<V>(s: State<V>, a: Action<V>, t: nat)
    requires LoadsInv(s) && Enabled(s, a) && Actor(a) == Some(t) && (a.BeginSet? || a.Store?)
    ensures var s' := Apply(s, a); t in s'.callers && RightBy(s', t, s'.callers[t])
  {
    assert LoadsRight(s, t, s.callers[t]);
  }

  /** The other steps leave their caller without a verdict. */
  lemma NoVerdictYet<V>(s: State<V>, a: Action<V>, t: nat)
    requires Enabled(s, a) && Actor(a) == Some(t)
    requires !a.Probe? && !a.LoaderReturns? && !a.BeginSet? && !a.Store? && !a.Land? && !a.Wake?
    ensures OwnVerdict(t, CallerAfter(s, a)).None?
  {
  }

  lemma LandKeepsVerdict<V>(s: State<V>, t: nat)
    requires VerdictInv(s) && Enabled(s, Land(t))
    ensures var s' := Apply(s, Land(t)); t in s'.callers && RightBy(s', t, s'.callers[t])
  {
    assert RightBy(s, t, s.callers[t]);
    RightStays(s, Apply(s, Land(t)), s.callers[t].key, Some(t), s.callers[t].pc.verdict);
  }

  lemma KeepsVerdict<V>(s: State<V>, a: Action<V>, t: nat)
    requires LoadsInv(s) && VerdictInv(s) && GetsInv(s) && ResultInv(s) && WaiterInv(s)
    requires Enabled(s, a) && t in Apply(s, a).callers
    ensures RightBy(Apply(s, a), t, Apply(s, a).callers[t])
  {
    hide Apply, Enabled, LoadsInv, GetsInv, ResultInv, WaiterInv, Right;
    var s' := Apply(s, a);
    if Actor(a) != Some(t) {
      OthersStay(s, a, t);
      LogGrows(s, a);
      RecordsStay(s, a);
      assert RightBy(s, t, s.callers[t]);
      var own := OwnVerdict(t, s.callers[t]);
      if own.Some? { RightStays(s, s', s.callers[t].key, own.value.1, own.value.0); }
    } else {
      match a
      case Land(x) => LandKeepsVerdict(s, x);
      case Wake(x) => WakeCopies(s, x);
      case Probe(x) => ProbeDecides(s, x);
      case LoaderReturns(x, loaded) => LoaderDecides(s, x, loaded);
      case BeginSet(x) => SetDecides(s, a, x);
      case Store(x, _, _) => SetDecides(s, a, x);
      case _ => ActorMoves(s, a, t); NoVerdictYet(s, a, t);
    }
  }

  lemma StepKeepsVerdicts<V>(s: State<V>, a: Action<V>)
    requires LoadsInv(s) && VerdictInv(s) && GetsInv(s) && ResultInv(s) && WaiterInv(s) && Enabled(s, a)
    ensures VerdictInv(Apply(s, a))
  {
    hide Apply, Enabled, LoadsInv, GetsInv, ResultInv, WaiterInv, RightBy;
    forall t | t in Apply(s, a).callers ensures RightBy(Apply(s, a), t, Apply(s, a).callers[t]) { KeepsVerdict(s, a, t); }
  }

  lemma ActorKeepsLoads<V>(s: State<V>, a: Action<V>, t: nat)
    requires LoadsInv(s) && Enabled(s, a) && Actor(a) == Some(t)
    ensures t in Apply(s, a).callers && LoadsRight(Apply(s, a), t, Apply(s, a).callers[t])
  {
    if t in s.callers { assert LoadsRight(s, t, s.callers[t]); }
  }

  lemma StepKeepsLoads<V>(s: State<V>, a: Action<V>)
    requires LoadsInv(s) && Enabled(s, a)
    ensures LoadsInv(Apply(s, a))
  {
    hide Apply, Enabled;
    var s' := Apply(s, a);
    RecordsStay(s, a);
    forall t | t in s'.callers || t in s'.loads || t in s'.refused
      ensures t in s'.callers && LoadsRight(s', t, s'.callers[t])
    {
      if Actor(a) == Some(t) {
        ActorKeepsLoads(s, a, t);
      } else {
        OthersStay(s, a, t);
        assert t in s.callers && LoadsRight(s, t, s.callers[t]);
      }
    }
  }

  lemma StepKeepsInv<V>(s: State<V>, a: Action<V>)
    requires Inv(s) && Enabled(s, a)
    ensures Inv(Apply(s, a))
  {
    hide FlightInv, CacheInv, GetsInv, AloneInv, LoadingInv, PairInv, ResultInv, WaiterInv, LoadsInv, VerdictInv;
    StepKeepsResults(s, a);
    StepKeepsWaiters(s, a);
    StepKeepsFlights(s, a);
    StepKeepsCache(s, a);
    StepKeepsGets(s, a);
    StepKeepsAlone(s, a);
    StepKeepsLoading(s, a);
    StepKeepsPairs(s, a);
    StepKeepsLoads(s, a);
    StepKeepsVerdicts(s, a);
  }

  lemma {:induction false} RunKeepsInv<V>(s: State<V>, run: seq<Action<V>>)
    requires Inv(s) && Legal(s, run)
    ensures Inv(Exec(s, run))
    decreases |run|
  {
    if run != [] {
      StepKeepsInv(s, run[0]);
      RunKeepsInv(Apply(s, run[0]), run[1..]);
    }
  }

  // ---------------------------------------------------------------- what every run satisfies

  /** Two callers that are both inside the flight of a key are the same caller, so at most
      one loader per key is running at any time. */
  lemma OneLoaderPerKey<V>(now: int, run: seq<Action<V>>, t1: nat, t2: nat)
    requires Legal(Initial(now), run)
    requires var s := Exec(Initial(now), run);
             Leads(s, t1) && Leads(s, t2) && s.callers[t1].key == s.callers[t2].key
    ensures t1 == t2
  {
    assert Inv(Initial<V>(now));
    RunKeepsInv(Initial(now), run);
  }

  /** A first look that missed had the same kind of reason: the cache was closed, or the last
      store of the key visible to the look had been dropped or had itself expired. */
  lemma FirstMissIsJustified<V>(now: int, run: seq<Action<V>>, t: nat)
    requires Legal(Initial(now), run)
    requires var s := Exec(Initial(now), run); t in s.callers && s.callers[t].Missed?
    ensures var s := Exec(Initial(now), run);
            var key, look := s.callers[t].key, s.callers[t].look;
            && look.seen <= |s.log| && look.clock <= s.now
            && (if look.closed then s.closed
                else forall m | LastStore(s.log, m, look.seen, key) :: Unusable(s.log, m, key, look))
  {
    assert Inv(Initial<V>(now));
    RunKeepsInv(Initial(now), run);
    var s := Exec(Initial(now), run);
    assert MissRight(s, s.callers[t].key, s.callers[t].look);
  }

  /** A loader only stores for a reason that its caller's second look met: every earlier
      loader store of the key was visible to that look, and the last store visible to it, by
      a loader or by a Set, had been dropped by then or had itself expired. How long the
      loader takes does not matter. */
  lemma NoRedundantLoad<V>(now: int, run: seq<Action<V>>, i: int, j: int, key: string)
    requires Legal(Initial(now), run)
    requires var log := Exec(Initial(now), run).log;
             0 <= i < j < |log| && LoaderStores(log[i], key) && LoaderStores(log[j], key)
    ensures var log := Exec(Initial(now), run).log;
            var look := log[j].loader.value;
            !look.closed && i < look.seen <= j && look.clock <= log[j].at && Lost(log, i, key, look)
  {
    assert Inv(Initial<V>(now));
    RunKeepsInv(Initial(now), run);
  }

  /** The same while the loader is still running, unless the look found the cache closed; the
      caller then cannot store, and no caller gets the value. */
  lemma NoRedundantLoader<V>(now: int, run: seq<Action<V>>, t: nat, i: int)
    requires Legal(Initial(now), run)
    requires var s := Exec(Initial(now), run);
             && Leads(s, t) && s.callers[t].pc.Loading?
             && 0 <= i < |s.log| && LoaderStores(s.log[i], s.callers[t].key)
    ensures var s := Exec(Initial(now), run);
            var look := s.callers[t].pc.look;
            && i < look.seen <= |s.log| && look.clock <= s.now && (look.closed ==> s.closed)
            && (look.closed || Lost(s.log, i, s.callers[t].key, look))
  {
    assert Inv(Initial<V>(now));
    RunKeepsInv(Initial(now), run);
    StoreSawEarlierOnes(Exec(Initial(now), run), t, i);
  }

  /** A loaded value that meets a closed cache ends in an error and changes nothing. */
  lemma ClosedCacheKeepsNothing<V>(now: int, run: seq<Action<V>>, t: nat)
    requires Legal(Initial(now), run)
    requires var s := Exec(Initial(now), run);
             Leads(s, t) && PastLook(s.callers[t].pc) && s.callers[t].pc.look.closed
    ensures var s := Exec(Initial(now), run);
            && !Enabled(s, Store(t, true, 0))
            && (Enabled(s, BeginSet(t)) ==>
                  Apply(s, BeginSet(t)) ==
                  s.(callers := s.callers[t := Leading(s.callers[t].key, Finished(Failed(CacheClosed)))]))
  {
    assert Inv(Initial<V>(now));
    RunKeepsInv(Initial(now), run);
    ClosedLookStoresNothing(Exec(Initial(now), run), t);
  }

  lemma ClosedLookStoresNothing<V>(s: State<V>, t: nat)
    requires LoadingInv(s) && Leads(s, t) && PastLook(s.callers[t].pc) && s.callers[t].pc.look.closed
    ensures !Enabled(s, Store(t, true, 0))
    ensures Enabled(s, BeginSet(t)) ==>
              Apply(s, BeginSet(t)) ==
              s.(callers := s.callers[t := Leading(s.callers[t].key, Finished(Failed(CacheClosed)))])
  {
    assert PcRight(s, s.callers[t].key, s.callers[t].pc);
  }

  lemma {:induction false} OneMore<V>(s: State<V>, run: seq<Action<V>>, a: Action<V>)
    requires Legal(s, run) && Enabled(Exec(s, run), a)
    ensures Legal(s, run + [a]) && Exec(s, run + [a]) == Apply(Exec(s, run), a)
    decreases |run|
  {
    if run != [] {
      OneMore(Apply(s, run[0]), run[1..], a);
      assert (run + [a])[1..] == run[1..] + [a];
    } else {
      assert (run + [a])[1..] == [];
    }
  }

  /** The exception is real: once the cache is closed, a loader runs for a key whose entry is
      stored and never expires. */
  lemma ClosedCacheLoadsALiveKey(now: int) returns (run: seq<Action<int>>)
    ensures Legal(Initial(now), run)
    ensures var s := Exec(Initial(now), run);
            && Leads(s, 0) && s.callers[0].key == "k" && s.callers[0].pc.Loading?
            && "k" in s.cache && s.cache["k"].expiresAt == 0
  {
    var s0 := Initial<int>(now);
    OneMore(s0, [], Put("k", 7, 0)); run := [Put("k", 7, 0)];
    hide Legal, Exec;
    OneMore(s0, run, Close); run := run + [Close];
    OneMore(s0, run, Enter(0, "k")); run := run + [Enter(0, "k")];
    OneMore(s0, run, CheckOpen(0)); run := run + [CheckOpen(0)];
    OneMore(s0, run, Join(0)); run := run + [Join(0)];
    OneMore(s0, run, CheckOpen(0)); run := run + [CheckOpen(0)];
  }

  /** A caller that waits for a flight is never orphaned, and is answered with exactly what
      the leader of a flight of its own key returned. */
  lemma WaitersShareTheAnswer<V>(now: int, run: seq<Action<V>>, t: nat)
    requires Legal(Initial(now), run)
    requires var s := Exec(Initial(now), run); t in s.callers && s.callers[t].Waiting?
    ensures var s := Exec(Initial(now), run);
            var leader := s.callers[t].leader;
            && leader in s.callers && s.callers[leader].key == s.callers[t].key
            && (!Enabled(s, Wake(t)) ==> Leads(s, leader))
            && (Enabled(s, Wake(t)) ==> Apply(s, Wake(t)).callers[t] == s.callers[leader])
  {
    assert Inv(Initial<V>(now));
    RunKeepsInv(Initial(now), run);
    WaiterIsServed(Exec(Initial(now), run), t);
  }

  lemma WaiterIsServed<V>(s: State<V>, t: nat)
    requires ResultInv(s) && WaiterInv(s) && t in s.callers && s.callers[t].Waiting?
    ensures var leader := s.callers[t].leader;
            && leader in s.callers && s.callers[leader].key == s.callers[t].key
            && (!Enabled(s, Wake(t)) ==> Leads(s, leader))
            && (Enabled(s, Wake(t)) ==> Apply(s, Wake(t)).callers[t] == s.callers[leader])
  {
    assert Served(s, s.callers[t].key, s.callers[t].leader);
  }

  // ---------------------------------------------------------------- what a call returns

  /** The verdict of every answered caller is right. */
  lemma VerdictsAreRight<V>(now: int, run: seq<Action<V>>, t: nat)
    requires Legal(Initial(now), run)
    requires var s := Exec(Initial(now), run); t in s.callers && s.callers[t].Done?
    ensures var s := Exec(Initial(now), run);
            Right(s, s.callers[t].key, s.callers[t].flight, s.callers[t].verdict)
  {
    assert Inv(Initial<V>(now));
    RunKeepsInv(Initial(now), run);
    var s := Exec(Initial(now), run);
    var c := s.callers[t];
    assert RightBy(s, t, c);
    if c.flight.Some? {
      assert Answered(s, c);
      assert RightBy(s, c.flight.value, s.callers[c.flight.value]);
    }
  }

  /** A value handed to any caller, leader, waiter or plain hit, was stored under its own
      key, by a loader or by a Set: a value that could not be stored is never handed out. */
  lemma AnswersAreGenuine<V>(now: int, run: seq<Action<V>>, t: nat)
    requires Legal(Initial(now), run)
    requires var s := Exec(Initial(now), run);
             t in s.callers && s.callers[t].Done? && s.callers[t].verdict.answer.Ok?
    ensures var s := Exec(Initial(now), run);
            Supplied(s.log, s.callers[t].key, s.callers[t].verdict.answer.value)
  {
    VerdictsAreRight(now, run, t);
  }

  /** A value that no loader of the caller's flight returned is the last one stored under the
      key when a look of that flight, or its own first look, loaded it, and it had not
      expired when that look probed it. */
  lemma CachedAnswersAreCurrent<V>(now: int, run: seq<Action<V>>, t: nat)
    requires Legal(Initial(now), run)
    requires var s := Exec(Initial(now), run);
             && t in s.callers && s.callers[t].Done? && s.callers[t].verdict.answer.Ok?
             && (s.callers[t].flight.Some? ==> forall x :: LoaderReturns(s.callers[t].flight.value, x) !in run)
    ensures var s := Exec(Initial(now), run);
            var v := s.callers[t].verdict;
            && v.source.FromCache? && LastStore(s.log, v.source.entry.id, v.source.look.seen, s.callers[t].key)
            && v.answer.value == s.log[v.source.entry.id].value
            && (s.log[v.source.entry.id].expiresAt == 0 || v.source.look.clock <= s.log[v.source.entry.id].expiresAt)
  {
    VerdictsAreRight(now, run, t);
    RecordsAreActions(Initial<V>(now), run);
  }

  /** What is recorded of loaders, Sets and Close is what happened in the run. */
  lemma {:induction false} RecordsAreActions<V>(s: State<V>, run: seq<Action<V>>)
    requires Inv(s) && Legal(s, run)
    ensures var s' := Exec(s, run);
      && (forall t | t in s.loads :: t in s'.loads && s'.loads[t] == s.loads[t])
      && (forall t | t in s'.loads && t !in s.loads :: LoaderReturns(t, s'.loads[t]) in run)
      && (forall t, x | LoaderReturns(t, x) in run :: t in s'.loads && s'.loads[t] == x)
      && (forall t | t in s'.refused && t !in s.refused :: exists x :: Store(t, false, x) in run)
      && (s'.closed ==> s.closed || Close in run)
    decreases |run|
  {
    if run != [] {
      var s1, rest := Apply(s, run[0]), run[1..];
      StepKeepsInv(s, run[0]);
      RecordsAreActions(s1, rest);
      StepRecords(s, run[0]);
      assert run == [run[0]] + rest;
      var s' := Exec(s, run);
      forall t | t in s'.refused && t !in s.refused ensures exists x :: Store(t, false, x) in run {
        if t in s1.refused {
          assert Store(t, false, run[0].expiresAt) in run;
        } else {
          var x :| Store(t, false, x) in rest;
          assert Store(t, false, x) in run;
        }
      }
    }
  }

  lemma StepRecords<V>(s: State<V>, a: Action<V>)
    requires LoadsInv(s) && Enabled(s, a)
    ensures var s' := Apply(s, a);
      && (forall t | t in s.loads :: t in s'.loads && s'.loads[t] == s.loads[t])
      && (forall t | t in s'.loads && t !in s.loads :: a == LoaderReturns(t, s'.loads[t]))
      && (a.LoaderReturns? ==> a.t in s'.loads && s'.loads[a.t] == a.loaded)
      && (forall t | t in s'.refused && t !in s.refused :: a.Store? && a.t == t && !a.ok)
      && (s'.closed ==> s.closed || a.Close?)
  {
    hide CallerAfter;
    if a.LoaderReturns? { assert LoadsRight(s, a.t, s.callers[a.t]); }
  }

  /** What a loader returns reaches everyone: if the loader of flight l returned v, the cache
      was never closed and the Set of l was not refused, every caller answered by that
      flight, l included, has v, and v is stored under its key by a loader. */
  lemma LoadedValueIsReturned<V>(now: int, run: seq<Action<V>>, t: nat, l: nat, v: V)
    requires Legal(Initial(now), run)
    requires LoaderReturns(l, Some(v)) in run && Close !in run && forall x :: Store(l, false, x) !in run
    requires var s := Exec(Initial(now), run);
             t in s.callers && s.callers[t].Done? && s.callers[t].flight == Some(l)
    ensures var s := Exec(Initial(now), run);
            && s.callers[t].verdict.answer == Ok(v)
            && exists m :: 0 <= m < |s.log| && LoaderStores(s.log[m], s.callers[t].key) && s.log[m].value == v
  {
    VerdictsAreRight(now, run, t);
    assert Inv(Initial<V>(now));
    RecordsAreActions(Initial<V>(now), run);
  }

  /** An error has its cause: the loader of the caller's flight failed, the Set of that flight
      was refused, or the cache was closed. */
  lemma ErrorsHaveCauses<V>(now: int, run: seq<Action<V>>, t: nat)
    requires Legal(Initial(now), run)
    requires var s := Exec(Initial(now), run);
             t in s.callers && s.callers[t].Done? && s.callers[t].verdict.answer.Err?
    ensures var c := Exec(Initial(now), run).callers[t];
            && c.flight.Some?
            && match c.verdict.answer.error
               case LoaderFailed => LoaderReturns(c.flight.value, None) in run
               case StoreFailed =>
                 && (exists v :: LoaderReturns(c.flight.value, Some(v)) in run)
                 && (exists x :: Store(c.flight.value, false, x) in run)
               case CacheClosed => (exists v :: LoaderReturns(c.flight.value, Some(v)) in run) && Close in run
  {
    VerdictsAreRight(now, run, t);
    assert Inv(Initial<V>(now));
    RecordsAreActions(Initial<V>(now), run);
    var s := Exec(Initial(now), run);
    var l := s.callers[t].flight.value;
    assert LoaderReturns(l, s.loads[l]) in run;
  }

  /** A store puts the value with the expiry it was asked for, under its key alone; a loader's
      store puts what the loader returned. A removal takes its key away, and a clear all. */
  lemma StoresAsAsked<V>(s: State<V>, a: Action<V>)
    requires Inv(s) && Enabled(s, a)
    ensures a.Remove? ==> Apply(s, a).cache == s.cache - {a.key}
    ensures a.Clear? ==> Apply(s, a).cache == map[]
    ensures a.Put? ==> Apply(s, a).cache == s.cache[a.key := Entry(|s.log|, a.value, a.expiresAt)]
    ensures a.Store? && a.ok ==>
              && a.t in s.loads && s.loads[a.t].Some?
              && Apply(s, a).cache == s.cache[s.callers[a.t].key := Entry(|s.log|, s.loads[a.t].value, a.expiresAt)]
  {
    hide FlightInv, CacheInv, GetsInv, AloneInv, LoadingInv, PairInv, ResultInv, WaiterInv, VerdictInv, CallerAfter;
    if a.Store? { assert LoadsRight(s, a.t, s.callers[a.t]); }
  }

  /** A look that found an expired entry removes that very entry, and no newer one and no other
      key's. */
  lemma StaleEntryIsRemoved<V>(s: State<V>, t: nat)
    requires Enabled(s, Discard(t))
    ensures var key, e := s.callers[t].key, GetOf(s.callers[t]).value.entry;
            Apply(s, Discard(t)).cache == if key in s.cache && s.cache[key].id == e.id then s.cache - {key} else s.cache
  {
  }

  /** How many steps of its own a caller can still take. */
  function StepsLeft<V>(c: Caller<V>): nat {
    match c
    case Checking(_, g) => 13 + GetStepsLeft(g)
    case Missed(_, _) => 13
    case Leading(_, Rechecking(g)) => 8 + GetStepsLeft(g)
    case Leading(_, Loading(_)) => 8
    case Leading(_, Loaded(_, _)) => 7
    case Leading(_, Storing(_, _)) => 6
    case Leading(_, Finished(_)) => 5
    case Waiting(_, _) => 4
    case Done(_, _, _) => 0
  }

  function GetStepsLeft<V>(g: Get<V>): nat {
    match g
    case Begun => 4
    case Admitted => 3
    case Fetched(_, _) => 2
    case Stale(_, _) => 1
  }

  /** Every call ends: each step of a caller brings it closer to its answer, and no step of
      another sets it back. */
  lemma CallsEnd<V>(s: State<V>, a: Action<V>, t: nat)
    requires Enabled(s, a) && t in s.callers
    ensures t in Apply(s, a).callers
    ensures var c, c' := s.callers[t], Apply(s, a).callers[t];
            if Actor(a) == Some(t) then StepsLeft(c') < StepsLeft(c) else c' == c
  {
    hide Apply, SharedAfter;
    if Actor(a) != Some(t) { OthersStay(s, a, t); } else { ActorMoves(s, a, t); }
  }

  /** ... and none is ever stuck: a caller without an answer can take a step, or waits for a
      leader that has none yet. */
  lemma NoCallerIsStuck<V>(now: int, run: seq<Action<V>>, t: nat) returns (a: Action<V>)
    requires Legal(Initial(now), run)
    requires var s := Exec(Initial(now), run); t in s.callers && !s.callers[t].Done?
    ensures var s := Exec(Initial(now), run);
            || (Enabled(s, a) && Actor(a) == Some(t))
            || (s.callers[t].Waiting? && Leads(s, s.callers[t].leader))
  {
    var s := Exec(Initial(now), run);
    var c := s.callers[t];
    if c.Waiting? {
      a := Wake(t);
      WaitersShareTheAnswer(now, run, t);
    } else if GetOf(c).Some? {
      match GetOf(c).value
      case Begun => a := CheckOpen(t);
      case Admitted => a := Fetch(t);
      case Fetched(_, _) => a := Probe(t);
      case Stale(_, _) => a := Discard(t);
    } else if c.Missed? {
      a := Join(t);
    } else {
      match c.pc
      case Loading(_) => a := LoaderReturns(t, None);
      case Loaded(_, _) => a := BeginSet(t);
      case Storing(_, _) => a := Store(t, false, 0);
      case Finished(_) => a := Land(t);
    }
  }

}
