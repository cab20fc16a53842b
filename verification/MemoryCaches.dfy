/**
 The in-memory cache as one goroutine sees it, running on the real eviction handlers.
 CacheRuns and CacheGuarantees cover the interleavings.
 */
module MemoryCaches {
  import opened Options
  import opened EvictionHistory
  import opened LfuHandlers
  import opened EvictionHandlers

  datatype EvictionPolicy = PolicyNone | PolicyLRU | PolicyLFU | PolicyFIFO

  datatype CacheError = CacheClosed | MemoryLimitExceeded

  /** The handler of an unlimited cache: it tracks nothing and selects nothing. */
  class NoOpHandler {
    ghost var history: History

    constructor ()
      ensures history == Start
    {
      history := Start;
    }
  }

  datatype Handler =
    | NoOp(noop: NoOpHandler) | Lru(lru: LruHandler) | Lfu(lfu: LfuHandler) | Fifo(fifo: FifoHandler)
  {
    ghost function Object(): object {
      match this
      case NoOp(h) => h
      case Lru(h) => h
      case Lfu(h) => h
      case Fifo(h) => h
    }

    ghost predicate Valid()
      reads Object()
    {
      match this
      case NoOp(_) => true
      case Lru(h) => h.Valid()
      case Lfu(h) => h.Valid()
      case Fifo(h) => h.Valid()
    }

    /** The calls the handler has received. */
    ghost function Past(): History
      reads Object()
    {
      match this
      case NoOp(h) => h.history
      case Lru(h) => h.history
      case Lfu(h) => h.history
      case Fifo(h) => h.history
    }

    ghost function Policy(): Policy {
      if Lru? then LRU else if Lfu? then LFU else FIFO
    }

    method OnAccess(key: string)
      requires Valid()
      modifies Object()
      ensures Valid() && Past() == Then(old(Past()), Access(key))
    {
      match this
      case NoOp(h) => h.history := Then(h.history, Access(key));
      case Lru(h) => h.OnAccess(key);
      case Lfu(h) => h.OnAccess(key);
      case Fifo(h) => h.OnAccess(key);
    }

    method OnInsert(key: string)
      requires Valid()
      modifies Object()
      ensures Valid() && Past() == Then(old(Past()), Insert(key))
    {
      match this
      case NoOp(h) => h.history := Then(h.history, Insert(key));
      case Lru(h) => h.OnInsert(key);
      case Lfu(h) => h.OnInsert(key);
      case Fifo(h) => h.OnInsert(key);
    }

    method OnEvict(key: string)
      requires Valid()
      modifies Object()
      ensures Valid() && Past() == Then(old(Past()), Evict(key))
    {
      match this
      case NoOp(h) => h.history := Then(h.history, Evict(key));
      case Lru(h) => h.OnEvict(key);
      case Lfu(h) => h.OnEvict(key);
      case Fifo(h) => h.OnEvict(key);
    }

    method Reset()
      requires Valid()
      modifies Object()
      ensures Valid() && Past() == Then(old(Past()), EvictionHistory.Reset)
    {
      match this
      case NoOp(h) => h.history := Then(h.history, EvictionHistory.Reset);
      case Lru(h) => h.Reset();
      case Lfu(h) => h.Reset();
      case Fifo(h) => h.Reset();
    }

    method SelectEvictionCandidate() returns (c: string)
      requires Valid()
      ensures if NoOp? then c == "" else IsCandidate(Policy(), Past(), c)
    {
      match this
      case NoOp(_) => c := "";
      case Lru(h) => c := h.SelectEvictionCandidate();
      case Lfu(h) => c := h.SelectEvictionCandidate();
      case Fifo(h) => c := h.SelectEvictionCandidate();
    }
  }

  /** newEvictionHandler. */
  method NewHandler(policy: EvictionPolicy) returns (h: Handler)
    ensures h.Valid() && h.Past() == Start && fresh(h.Object())
    ensures h.NoOp? <==> policy.PolicyNone?
    ensures h.Lru? <==> policy.PolicyLRU?
    ensures h.Lfu? <==> policy.PolicyLFU?
  {
    match policy
    case PolicyNone => var n := new NoOpHandler(); h := NoOp(n);
    case PolicyLRU => var l := new LruHandler(); h := Lru(l);
    case PolicyLFU => var l := new LfuHandler(); h := Lfu(l);
    case PolicyFIFO => var f := new FifoHandler(); h := Fifo(f);
  }

  class Entry<T> {
    const data: T
    const expiresAt: int

    constructor (data: T, expiresAt: int)
      ensures this.data == data && this.expiresAt == expiresAt
    {
      this.data, this.expiresAt := data, expiresAt;
    }

    predicate IsExpired(now: int) {
      expiresAt != 0 && now > expiresAt
    }
  }

  /** The expiry instant of a store at time now: the given TTL if positive, else the default
      TTL if positive, else none, which is 0. */
  function ExpiryAt(ttl: Option<int>, defaultTTL: int, now: int): int {
    if ttl.Some? && ttl.value > 0 then now + ttl.value
    else if defaultTTL > 0 then now + defaultTTL
    else 0
  }

  /** How long a stored value lives: up to and including now + TTL, by the given TTL or else the
      default one, and for ever without either. An expiry that falls on instant 0 is taken
      for none. */
  lemma Lifetime<T>(e: Entry<T>, ttl: Option<int>, defaultTTL: int, now: int, later: int)
    requires e.expiresAt == ExpiryAt(ttl, defaultTTL, now)
    ensures ttl.Some? && ttl.value > 0 && now + ttl.value != 0 ==> (e.IsExpired(later) <==> later > now + ttl.value)
    ensures (ttl.None? || ttl.value <= 0) && defaultTTL > 0 && now + defaultTTL != 0 ==>
              (e.IsExpired(later) <==> later > now + defaultTTL)
    ensures (ttl.None? || ttl.value <= 0) && defaultTTL <= 0 ==> !e.IsExpired(later)
    ensures e.expiresAt == 0 ==> !e.IsExpired(later)
  {
  }

  /** The handler's view after a store, given that it matched the map before. */
  lemma TrackedAfterPut<V>(m: map<string, V>, h: History, key: string, v: V)
    requires Tracked(h) == m.Keys
    ensures key in m ==> Tracked(Then(h, Access(key))) == m[key := v].Keys && |m[key := v]| == |m|
    ensures key !in m ==> Tracked(Then(h, Insert(key))) == m[key := v].Keys && |m[key := v]| == |m| + 1
  {
    assert m[key := v].Keys == m.Keys + {key};
    if key in m { assert m.Keys + {key} == m.Keys; }
  }

  lemma TrackedAfterForget<V>(m: map<string, V>, h: History, key: string)
    requires Tracked(h) == m.Keys && key in m
    ensures Tracked(Then(h, Evict(key))) == (m - {key}).Keys && |m - {key}| == |m| - 1
  {
    assert (m - {key}).Keys == m.Keys - {key};
  }

  lemma NothingTrackedAfterReset(h: History)
    ensures Tracked(Then(h, EvictionHistory.Reset)) == {}
  {
  }

  /** The handler call that accounts for a store. */
  ghost function StoreEvent(key: string, exists_: bool): Event {
    if exists_ then Access(key) else Insert(key)
  }

  /** h is base followed by evictions only. */
  ghost predicate OnlyEvictionsSince(base: History, h: History) {
    h == base || (h.Then? && h.last.Evict? && OnlyEvictionsSince(base, h.past))
  }

  /** The scan comes across key at a time when entry e has expired. */
  ghost predicate FoundExpired<T>(keys: seq<string>, clock: seq<int>, key: string, e: Entry<T>)
    requires |clock| == |keys|
  {
    exists i :: 0 <= i < |keys| && keys[i] == key && e.IsExpired(clock[i])
  }

  lemma FoundOneMore<T>(keys: seq<string>, clock: seq<int>, i: int, key: string, e: Entry<T>)
    requires |clock| == |keys| && 0 <= i < |keys|
    ensures FoundExpired(keys[..i + 1], clock[..i + 1], key, e) <==>
              FoundExpired(keys[..i], clock[..i], key, e) || (keys[i] == key && e.IsExpired(clock[i]))
  {
    var k1, c1 := keys[..i + 1], clock[..i + 1];
    if keys[i] == key && e.IsExpired(clock[i]) { assert k1[i] == key && e.IsExpired(c1[i]); }
    if j :| 0 <= j < i && keys[..i][j] == key && e.IsExpired(clock[..i][j]) {
      assert k1[j] == key && e.IsExpired(c1[j]);
    }
    if j :| 0 <= j < i && k1[j] == key && e.IsExpired(c1[j]) {
      assert keys[..i][j] == key && e.IsExpired(clock[..i][j]);
    }
  }

  class MemoryCache<T> {
    const maxSize: int
    const defaultTTL: int
    const handler: Handler
    var data: map<string, Entry<T>>
    var size: int
    var closed: bool

    /** Map, counter and handler agree, and a bounded cache is within its bound. */
    ghost predicate Valid()
      reads this, handler.Object()
    {
      && handler.Valid()
      && Tracked(handler.Past()) == data.Keys
      && size == |data|
      && (handler.NoOp? <==> maxSize <= 0)
      && (maxSize > 0 ==> size <= maxSize)
    }

    /** An unlimited cache never evicts; a bounded one falls back to LRU. */
    constructor (maxSize: int, defaultTTL: int, policy: EvictionPolicy)
      ensures Valid() && data == map[] && !closed && fresh(handler.Object()) && handler.Past() == Start
      ensures this.maxSize == maxSize && this.defaultTTL == defaultTTL
      ensures maxSize > 0 ==> handler.Lfu? == policy.PolicyLFU? && handler.Fifo? == policy.PolicyFIFO?
    {
      var p := if maxSize <= 0 then PolicyNone else if policy.PolicyNone? then PolicyLRU else policy;
      var h := NewHandler(p);
      this.maxSize, this.defaultTTL, this.handler := maxSize, defaultTTL, h;
      data, size, closed := map[], 0, false;
    }

    ghost predicate NeedsRoom(key: string)
      reads this
    {
      maxSize > 0 && key !in data && |data| >= maxSize
    }

    /** Removes key from the map, the handler and the counter together. */
    method Forget(key: string)
      requires Valid() && key in data
      modifies this`data, this`size, handler.Object()
      ensures Valid() && data == old(data) - {key}
      ensures handler.Past() == Then(old(handler.Past()), Evict(key))
    {
      hide Handler.Valid, Tracked;
      TrackedAfterForget(data, handler.Past(), key);
      data := data - {key};
      handler.OnEvict(key);
      size := size - 1;
    }

    /** The eviction loop of Set. */
    method MakeRoom() returns (ok: bool, ghost victim: string)
      requires Valid() && maxSize > 0
      modifies this`data, this`size, handler.Object()
      ensures Valid()
      ensures old(|data|) < maxSize ==> ok && data == old(data) && handler.Past() == old(handler.Past())
      ensures old(|data|) >= maxSize ==>
                && Selects(handler.Policy(), old(handler.Past()), victim)
                && (ok <==> victim != "")
                && data == (if ok then old(data) - {victim} else old(data))
                && handler.Past() == if ok then Then(old(handler.Past()), Evict(victim)) else old(handler.Past())
      ensures ok ==> size < maxSize
    {
      hide Handler.Valid;
      ok, victim := true, "";
      while size >= maxSize
        invariant Valid()
        invariant if size >= maxSize then data == old(data) && handler.Past() == old(handler.Past())
                  else if old(|data|) < maxSize then data == old(data) && handler.Past() == old(handler.Past())
                  else victim != "" && Selects(handler.Policy(), old(handler.Past()), victim)
                       && data == old(data) - {victim}
                       && handler.Past() == Then(old(handler.Past()), Evict(victim))
        invariant old(|data|) < maxSize ==> size < maxSize
        decreases size
      {
        var candidate := handler.SelectEvictionCandidate();
        assert data.Keys != {};
        victim := candidate;
        if candidate == "" { return false, victim; }
        if candidate in data {
          Forget(candidate);
        }
      }
    }

    /** The part of Set under the lock. A new key in a full cache evicts one key, the policy's
        selection, or fails without any change when that selection is the empty-string key. */
    method SetLocked(key: string, entry: Entry<T>) returns (ok: bool, ghost victim: string)
      requires Valid()
      modifies this`data, this`size, handler.Object()
      ensures Valid()
      ensures !old(NeedsRoom(key)) ==>
                && ok && data == old(data)[key := entry]
                && handler.Past() == Then(old(handler.Past()), StoreEvent(key, key in old(data)))
      ensures old(NeedsRoom(key)) ==>
                && Selects(handler.Policy(), old(handler.Past()), victim)
                && (ok <==> victim != "")
                && data == (if ok then (old(data) - {victim})[key := entry] else old(data))
                && handler.Past() == (if ok then Then(Then(old(handler.Past()), Evict(victim)), Insert(key))
                                      else old(handler.Past()))
    {
      hide Valid, Selects;
      ok, victim := true, "";
      if key !in data && maxSize > 0 {
        ok, victim := MakeRoom();
      }
      if ok {
        Put(key, entry);
      }
    }

    /** Stores a value with the given TTL, or with the default one. */
    method Set(key: string, value: T, ttl: Option<int>, now: int)
      returns (r: Result<(), CacheError>, ghost entry: Entry<T>, ghost victim: string)
      requires Valid()
      modifies this`data, this`size, handler.Object()
      ensures Valid() && fresh(entry) && entry.data == value && entry.expiresAt == ExpiryAt(ttl, defaultTTL, now)
      ensures forall later :: entry.IsExpired(later) <==>
                if ttl.Some? && ttl.value > 0 then now + ttl.value != 0 && later > now + ttl.value
                else defaultTTL > 0 && now + defaultTTL != 0 && later > now + defaultTTL
      ensures closed ==> r == Err(CacheClosed) && data == old(data) && handler.Past() == old(handler.Past())
      ensures !closed && !old(NeedsRoom(key)) ==>
                && r.Ok? && data == old(data)[key := entry]
                && handler.Past() == Then(old(handler.Past()), StoreEvent(key, key in old(data)))
      ensures !closed && old(NeedsRoom(key)) ==>
                && Selects(handler.Policy(), old(handler.Past()), victim)
                && r == (if victim == "" then Err(MemoryLimitExceeded) else Ok(()))
                && data == (if victim == "" then old(data) else (old(data) - {victim})[key := entry])
                && handler.Past() == (if victim == "" then old(handler.Past())
                                      else Then(Then(old(handler.Past()), Evict(victim)), Insert(key)))
    {
      hide Valid, Selects;
      var e := new Entry(value, ExpiryAt(ttl, defaultTTL, now));
      entry, victim := e, "";
      if closed {
        r := Err(CacheClosed);
      } else {
        var ok;
        ok, victim := SetLocked(key, e);
        r := if ok then Ok(()) else Err(MemoryLimitExceeded);
      }
    }

    /** The rest of Set: store the entry and account for it. */
    method Put(key: string, entry: Entry<T>)
      requires Valid() && (maxSize > 0 && key !in data ==> size < maxSize)
      modifies this`data, this`size, handler.Object()
      ensures Valid() && data == old(data)[key := entry]
      ensures handler.Past() == Then(old(handler.Past()), StoreEvent(key, key in old(data)))
    {
      hide Handler.Valid, Tracked;
      TrackedAfterPut(data, handler.Past(), key, entry);
      if key !in data {
        data, size := data[key := entry], size + 1;
        handler.OnInsert(key);
      } else {
        data := data[key := entry];
        handler.OnAccess(key);
      }
    }

    /** Deletes key only while it still maps to the entry the caller observed. */
    method RemoveExpiredEntry(key: string, entry: Entry<T>)
      requires Valid()
      modifies this`data, this`size, handler.Object()
      ensures Valid()
      ensures if key in old(data) && old(data)[key] == entry
              then data == old(data) - {key} && handler.Past() == Then(old(handler.Past()), Evict(key))
              else data == old(data) && handler.Past() == old(handler.Past())
    {
      hide Handler.Valid;
      if key in data && data[key] == entry {
        Forget(key);
      }
    }

    method Get(key: string, now: int) returns (r: Option<T>)
      requires Valid()
      modifies this`data, this`size, handler.Object()
      ensures Valid()
      ensures r == if !closed && key in old(data) && !old(data)[key].IsExpired(now)
                   then Some(old(data)[key].data) else None
      ensures if closed || key !in old(data) then data == old(data) && handler.Past() == old(handler.Past())
              else if old(data)[key].IsExpired(now)
              then data == old(data) - {key} && handler.Past() == Then(old(handler.Past()), Evict(key))
              else data == old(data) && handler.Past() == Then(old(handler.Past()), Access(key))
    {
      hide Handler.Valid;
      if closed || key !in data { return None; }
      var entry := data[key];
      if entry.IsExpired(now) {
        RemoveExpiredEntry(key, entry);
        return None;
      }
      handler.OnAccess(key);
      return Some(entry.data);
    }

    method Contains(key: string, now: int) returns (r: bool)
      requires Valid()
      modifies this`data, this`size, handler.Object()
      ensures Valid()
      ensures r <==> !closed && key in old(data) && !old(data)[key].IsExpired(now)
      ensures if !closed && key in old(data) && !r
              then data == old(data) - {key} && handler.Past() == Then(old(handler.Past()), Evict(key))
              else data == old(data) && handler.Past() == old(handler.Past())
    {
      hide Handler.Valid;
      if closed || key !in data { return false; }
      var entry := data[key];
      if entry.IsExpired(now) {
        RemoveExpiredEntry(key, entry);
        return false;
      }
      return true;
    }

    method Delete(key: string)
      requires Valid()
      modifies this`data, this`size, handler.Object()
      ensures Valid() && data == if closed then old(data) else old(data) - {key}
      ensures handler.Past() == if closed || key !in old(data) then old(handler.Past())
                                else Then(old(handler.Past()), Evict(key))
    {
      hide Handler.Valid;
      if closed { return; }
      if key in data {
        Forget(key);
      } else {
        assert data - {key} == data;
      }
    }

    method Clear()
      requires Valid()
      modifies this`data, this`size, handler.Object()
      ensures Valid() && data == if closed then old(data) else map[]
      ensures handler.Past() == if closed then old(handler.Past()) else Then(old(handler.Past()), EvictionHistory.Reset)
    {
      hide Handler.Valid, Tracked;
      if closed { return; }
      NothingTrackedAfterReset(handler.Past());
      data := map[];
      handler.Reset();
      size := 0;
    }

    /** The first half of the sweep: a snapshot of the expired pairs. keys is the scan order
        and clock[i] the time at which the i-th entry is probed. */
    method ScanExpired(keys: seq<string>, clock: seq<int>) returns (stale: seq<(string, Entry<T>)>)
      requires |clock| == |keys| && forall k | k in keys :: k in data
      ensures forall j | 0 <= j < |stale| :: stale[j].0 in data && stale[j].1 == data[stale[j].0]
      ensures forall k | k in data :: (k, data[k]) in stale <==> FoundExpired(keys, clock, k, data[k])
    {
      stale := [];
      for i := 0 to |keys|
        invariant forall j | 0 <= j < |stale| :: stale[j].0 in data && stale[j].1 == data[stale[j].0]
        invariant forall k | k in data :: (k, data[k]) in stale <==> FoundExpired(keys[..i], clock[..i], k, data[k])
      {
        ghost var was := stale;
        var key, entry := keys[i], data[keys[i]];
        if entry.IsExpired(clock[i]) {
          stale := stale + [(key, entry)];
        }
        forall k | k in data
          ensures (k, data[k]) in stale <==> FoundExpired(keys[..i + 1], clock[..i + 1], k, data[k])
        {
          FoundOneMore(keys, clock, i, k, data[k]);
          assert (k, data[k]) in stale <==> (k, data[k]) in was || (k == key && entry.IsExpired(clock[i]));
        }
      }
      assert keys[..|keys|] == keys && clock[..|clock|] == clock;
    }

    /** The second half: remove each pair that is still in place. */
    method RemoveStale(stale: seq<(string, Entry<T>)>)
      requires Valid()
      modifies this`data, this`size, handler.Object()
      ensures Valid()
      ensures forall k | k in data :: k in old(data) && data[k] == old(data)[k] && (k, data[k]) !in stale
      ensures forall k | k in old(data) && k !in data :: (k, old(data)[k]) in stale
      ensures OnlyEvictionsSince(old(handler.Past()), handler.Past())
    {
      hide Valid;
      for i := 0 to |stale|
        invariant Valid()
        invariant forall k | k in data :: k in old(data) && data[k] == old(data)[k] && (k, data[k]) !in stale[..i]
        invariant forall k | k in old(data) && k !in data :: (k, old(data)[k]) in stale
        invariant OnlyEvictionsSince(old(handler.Past()), handler.Past())
      {
        RemoveExpiredEntry(stale[i].0, stale[i].1);
      }
    }

    /** The sweep: exactly the entries that were expired when probed go. */
    method CleanupExpired(keys: seq<string>, clock: seq<int>)
      requires Valid() && |clock| == |keys| && forall k :: k in keys <==> k in data
      modifies this`data, this`size, handler.Object()
      ensures Valid()
      ensures forall k :: k in data <==> k in old(data) && (closed || !FoundExpired(keys, clock, k, old(data)[k]))
      ensures forall k | k in data :: data[k] == old(data)[k]
      ensures OnlyEvictionsSince(old(handler.Past()), handler.Past())
    {
      hide Valid;
      if closed { return; }
      var stale := ScanExpired(keys, clock);
      RemoveStale(stale);
    }
  }
}
