/**
 The list-based eviction handlers, LRU and FIFO. A list element is named by the key it
 holds, so the element map of the original is here the set of its keys.
 */
module EvictionHandlers {
  import opened EvictionHistory
  import opened LfuOrder

  /** Most recently used first. */
  class LruHandler {
    var accessList: seq<string>
    var accessMap: set<string>
    ghost var history: History

    ghost predicate Valid()
      reads this
    {
      && accessMap == Tracked(history)
      && (forall k :: k in accessList <==> k in accessMap)
      && (forall i, j | 0 <= i < j < |accessList| :: LastUse(history, accessList[i]) > LastUse(history, accessList[j]))
    }

    constructor ()
      ensures Valid() && history == Start
    {
      accessList, accessMap, history := [], {}, Start;
    }

    method MoveToFront(key: string)
      requires Valid() && key in accessMap
      modifies this`accessList
      ensures accessList == [key] + Without(old(accessList), key)
    {
      accessList := [key] + Without(accessList, key);
    }

    method OnAccess(key: string)
      requires Valid()
      modifies this
      ensures Valid() && history == Then(old(history), Access(key))
    {
      if key in accessMap {
        UsedFirst(accessList, history, Access(key));
        MoveToFront(key);
      }
      history := Then(history, Access(key));
    }

    method OnInsert(key: string)
      requires Valid()
      modifies this
      ensures Valid() && history == Then(old(history), Insert(key))
    {
      if key in accessMap {
        UsedFirst(accessList, history, Insert(key));
        MoveToFront(key);
        history := Then(history, Insert(key));
        return;
      }
      StampsBelow(accessList, history);
      accessList := [key] + accessList;
      accessMap := accessMap + {key};
      history := Then(history, Insert(key));
    }

    method OnEvict(key: string)
      requires Valid()
      modifies this
      ensures Valid() && history == Then(old(history), Evict(key))
    {
      if key in accessMap {
        UseOrderWithout(accessList, history, key);
        WithoutMembers(accessList, key);
        OthersKeepLastUse(Without(accessList, key), history, Evict(key));
        accessList := Without(accessList, key);
        accessMap := accessMap - {key};
      }
      history := Then(history, Evict(key));
    }

    method SelectEvictionCandidate() returns (c: string)
      requires Valid()
      ensures IsCandidate(LRU, history, c)
    {
      if |accessList| == 0 {
        assert forall k :: k !in Tracked(history);
        return "";
      }
      c := accessList[|accessList| - 1];
      assert c in accessList;
      forall k | k in Tracked(history) && k != c ensures Before(LRU, history, c, k) {
        assert accessList[IndexOf(accessList, k)] == k;
      }
    }

    method Reset()
      modifies this
      ensures Valid() && history == Then(old(history), EvictionHistory.Reset)
    {
      accessList, accessMap, history := [], {}, Then(history, EvictionHistory.Reset);
    }
  }

  /** Oldest insertion first. */
  class FifoHandler {
    var insertList: seq<string>
    var insertMap: set<string>
    ghost var history: History

    ghost predicate Valid()
      reads this
    {
      && insertMap == Tracked(history)
      && (forall k :: k in insertList <==> k in insertMap)
      && (forall i, j | 0 <= i < j < |insertList| :: Born(history, insertList[i]) < Born(history, insertList[j]))
    }

    constructor ()
      ensures Valid() && history == Start
    {
      insertList, insertMap, history := [], {}, Start;
    }

    method OnAccess(key: string)
      requires Valid()
      modifies this
      ensures Valid() && history == Then(old(history), Access(key))
    {
      history := Then(history, Access(key));
    }

    method OnInsert(key: string)
      requires Valid()
      modifies this
      ensures Valid() && history == Then(old(history), Insert(key))
    {
      if key !in insertMap {
        StampsBelow(insertList, history);
        insertList := insertList + [key];
        insertMap := insertMap + {key};
      }
      history := Then(history, Insert(key));
    }

    method OnEvict(key: string)
      requires Valid()
      modifies this
      ensures Valid() && history == Then(old(history), Evict(key))
    {
      if key in insertMap {
        BirthOrderWithout(insertList, history, key);
        WithoutMembers(insertList, key);
        insertList := Without(insertList, key);
        insertMap := insertMap - {key};
      }
      history := Then(history, Evict(key));
    }

    method SelectEvictionCandidate() returns (c: string)
      requires Valid()
      ensures IsCandidate(FIFO, history, c)
    {
      if |insertList| == 0 {
        assert forall k :: k !in Tracked(history);
        return "";
      }
      c := insertList[0];
      assert c in insertList;
      forall k | k in Tracked(history) && k != c ensures Before(FIFO, history, c, k) {
        assert insertList[IndexOf(insertList, k)] == k;
      }
    }

    method Reset()
      modifies this
      ensures Valid() && history == Then(old(history), EvictionHistory.Reset)
    {
      insertList, insertMap, history := [], {}, Then(history, EvictionHistory.Reset);
    }
  }

  lemma StampsBelow(s: seq<string>, h: History)
    ensures forall k | k in s :: LastUse(h, k) < Length(h) && Born(h, k) < Length(h)
  {
    forall k | k in s ensures LastUse(h, k) < Length(h) && Born(h, k) < Length(h) { StampsInRange(h, k); }
  }

  lemma WithoutMembers(s: seq<string>, x: string)
    requires x in s && Distinct(s)
    ensures forall k :: k in Without(s, x) <==> k in s && k != x
  {
    forall k ensures k in Without(s, x) <==> k in s && k != x { WithoutElements(s, x, k); }
  }

  /** Unlinking an element keeps the order of last use. */
  lemma UseOrderWithout(s: seq<string>, h: History, x: string)
    requires x in s && forall i, j | 0 <= i < j < |s| :: LastUse(h, s[i]) > LastUse(h, s[j])
    ensures var r := Without(s, x); forall i, j | 0 <= i < j < |r| :: LastUse(h, r[i]) > LastUse(h, r[j])
    ensures Distinct(s)
  {
    var r := Without(s, x);
    forall i, j | 0 <= i < j < |r| ensures LastUse(h, r[i]) > LastUse(h, r[j]) {
      var i', j' := WithoutIsSubsequence(s, x, i, j);
    }
  }

  /** Unlinking an element keeps the order of insertion. */
  lemma BirthOrderWithout(s: seq<string>, h: History, x: string)
    requires x in s && forall i, j | 0 <= i < j < |s| :: Born(h, s[i]) < Born(h, s[j])
    ensures var r := Without(s, x); forall i, j | 0 <= i < j < |r| :: Born(h, r[i]) < Born(h, r[j])
    ensures Distinct(s)
  {
    var r := Without(s, x);
    forall i, j | 0 <= i < j < |r| ensures Born(h, r[i]) < Born(h, r[j]) {
      var i', j' := WithoutIsSubsequence(s, x, i, j);
    }
  }

  lemma OthersKeepLastUse(r: seq<string>, h: History, e: Event)
    requires !e.Reset? && e.key !in r
    ensures forall i | 0 <= i < |r| :: LastUse(Then(h, e), r[i]) == LastUse(h, r[i]) < Length(h)
  {
    forall i | 0 <= i < |r| ensures LastUse(Then(h, e), r[i]) == LastUse(h, r[i]) < Length(h) {
      assert r[i] in r;
      StampsInRange(h, r[i]);
    }
  }

  /** A list in order of last use, once its element for e.key is moved to the front. */
  lemma UsedFirst(s: seq<string>, h: History, e: Event)
    requires (e.Access? || e.Insert?) && e.key in s
    requires forall i, j | 0 <= i < j < |s| :: LastUse(h, s[i]) > LastUse(h, s[j])
    ensures var s', h' := [e.key] + Without(s, e.key), Then(h, e);
      && (forall k :: k in s' <==> k in s)
      && (forall i, j | 0 <= i < j < |s'| :: LastUse(h', s'[i]) > LastUse(h', s'[j]))
  {
    UseOrderWithout(s, h, e.key);
    WithoutMembers(s, e.key);
    OthersKeepLastUse(Without(s, e.key), h, e);
  }
}
