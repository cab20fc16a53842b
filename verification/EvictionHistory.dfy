/**
 What each eviction policy is meant to select, defined from the history of handler
 calls alone. Nothing here mentions lists, buckets or cached minima: the handlers in
 EvictionHandlers and LfuHandlers are proved against these definitions, and the
 interleaved cache in CacheRuns uses them in place of a concrete handler.
 */
module EvictionHistory {

  datatype Policy = LRU | LFU | FIFO

  datatype Event = Insert(key: string) | Access(key: string) | Evict(key: string) | Reset

  /** The calls a handler has received, oldest first. */
  datatype History = Start | Then(past: History, last: Event)

  /** The number of calls so far, which is also the time stamp of the next call. */
  function Length(h: History): nat {
    match h
    case Start => 0
    case Then(past, _) => Length(past) + 1
  }

  /** The keys inserted and neither evicted nor reset since. */
  function Tracked(h: History): set<string> {
    match h
    case Start => {}
    case Then(past, Insert(k)) => Tracked(past) + {k}
    case Then(past, Access(_)) => Tracked(past)
    case Then(past, Evict(k)) => Tracked(past) - {k}
    case Then(_, Reset) => {}
  }

  /** When the current tracking of k began. */
  function Born(h: History, k: string): int {
    match h
    case Start => -1
    case Then(past, e) =>
      if e == Insert(k) && k !in Tracked(past) then Length(past) else Born(past, k)
  }

  /** When k was last inserted or accessed, whether or not it was tracked then. */
  function LastUse(h: History, k: string): int {
    match h
    case Start => -1
    case Then(past, e) =>
      if e == Insert(k) || e == Access(k) then Length(past) else LastUse(past, k)
  }

  /** How often k was touched since it was inserted, the insertion included. */
  function Touches(h: History, k: string): nat {
    match h
    case Start => 0
    case Then(past, e) =>
      if e == Reset || e == Evict(k) then 0
      else if e == Insert(k) && k !in Tracked(past) then 1
      else if e == Access(k) && k in Tracked(past) then Touches(past, k) + 1
      else Touches(past, k)
  }

  /** When the last of those touches happened. */
  function LastTouch(h: History, k: string): int {
    match h
    case Start => -1
    case Then(past, e) =>
      if (e == Insert(k) && k !in Tracked(past)) || (e == Access(k) && k in Tracked(past))
      then Length(past)
      else LastTouch(past, k)
  }

  /** a has to leave before b. */
  predicate Before(p: Policy, h: History, a: string, b: string) {
    match p
    case LRU => LastUse(h, a) < LastUse(h, b)
    case FIFO => Born(h, a) < Born(h, b)
    case LFU =>
      || Touches(h, a) < Touches(h, b)
      || (Touches(h, a) == Touches(h, b) && LastTouch(h, a) < LastTouch(h, b))
  }

  /** v is the tracked key that has to leave before every other one. */
  predicate Selects(p: Policy, h: History, v: string) {
    v in Tracked(h) && forall k | k in Tracked(h) && k != v :: Before(p, h, v, k)
  }

  /** What SelectEvictionCandidate must return: "" stands for "nothing tracked". */
  predicate IsCandidate(p: Policy, h: History, c: string) {
    if Tracked(h) == {} then c == "" else Selects(p, h, c)
  }

  // ---------------------------------------------------------------- the order is total

  lemma {:induction false} StampsInRange(h: History, k: string)
    ensures -1 <= Born(h, k) < Length(h)
    ensures -1 <= LastUse(h, k) < Length(h)
    ensures -1 <= LastTouch(h, k) < Length(h)
    ensures k in Tracked(h) ==> 0 <= Born(h, k) && 0 <= LastUse(h, k) && 0 <= LastTouch(h, k)
    ensures k in Tracked(h) <==> Touches(h, k) > 0
  {
    if h.Then? { StampsInRange(h.past, k); }
  }

  lemma {:induction false} StampsDiffer(h: History, a: string, b: string)
    requires a in Tracked(h) && b in Tracked(h) && a != b
    ensures Born(h, a) != Born(h, b)
    ensures LastUse(h, a) != LastUse(h, b)
    ensures LastTouch(h, a) != LastTouch(h, b)
  {
    StampsInRange(h.past, a);
    StampsInRange(h.past, b);
    if a in Tracked(h.past) && b in Tracked(h.past) { StampsDiffer(h.past, a, b); }
  }

  lemma BeforeIsTotal(p: Policy, h: History, a: string, b: string)
    requires a in Tracked(h) && b in Tracked(h) && a != b
    ensures Before(p, h, a, b) <==> !Before(p, h, b, a)
  {
    StampsDiffer(h, a, b);
  }

  lemma FirstOf(p: Policy, h: History, keys: set<string>) returns (v: string)
    requires keys != {} && keys <= Tracked(h)
    ensures v in keys && forall k | k in keys && k != v :: Before(p, h, v, k)
  {
    v :| v in keys;
    if keys != {v} {
      var w := FirstOf(p, h, keys - {v});
      BeforeIsTotal(p, h, v, w);
      assert forall k | k in keys - {v} && k != w :: Before(p, h, w, k);
      if Before(p, h, w, v) { v := w; }
      forall k | k in keys && k != v ensures Before(p, h, v, k) {
        assert k != w ==> Before(p, h, w, k);
      }
    }
  }

  /** Every policy has exactly one answer in every history. */
  lemma CandidateExists(p: Policy, h: History) returns (c: string)
    ensures IsCandidate(p, h, c)
    ensures forall d :: IsCandidate(p, h, d) ==> d == c
  {
    if Tracked(h) == {} {
      c := "";
    } else {
      c := FirstOf(p, h, Tracked(h));
      forall d | IsCandidate(p, h, d) ensures d == c {
        if d != c { BeforeIsTotal(p, h, c, d); }
      }
    }
  }

  /** The LFU tie-break is the oldest last touch, not the oldest insertion: both keys
      have two touches and "a" was inserted first, yet "b" is selected. */
  lemma LfuTieBreakIsLastTouch()
    ensures var h := Then(Then(Then(Then(Start, Insert("a")), Insert("b")), Access("b")), Access("a"));
            && Touches(h, "a") == Touches(h, "b")
            && Born(h, "a") < Born(h, "b")
            && Selects(LFU, h, "b")
  {
    var h1 := Then(Start, Insert("a"));
    var h2 := Then(h1, Insert("b"));
    var h3 := Then(h2, Access("b"));
    var h := Then(h3, Access("a"));
    assert Tracked(h1) == {"a"} && Tracked(h2) == {"a", "b"} && Tracked(h3) == {"a", "b"} && Tracked(h) == {"a", "b"};
    assert Insert("a") != Insert("b") && Access("a") != Access("b");
    assert Born(h1, "a") == 0 && Born(h2, "a") == 0 && Born(h2, "b") == 1;
    assert Born(h3, "a") == 0 && Born(h3, "b") == 1;
    assert Touches(h2, "a") == 1 && Touches(h2, "b") == 1 && Touches(h3, "b") == 2 && Touches(h3, "a") == 1;
    assert LastTouch(h3, "b") == 2 && LastTouch(h, "b") == 2 && LastTouch(h, "a") == 3;
  }
}
