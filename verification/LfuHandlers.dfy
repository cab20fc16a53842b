/**
 The frequency-bucket LFU handler. A bucket is named by its frequency and a node by its
 key, which is how the list elements and pointers of the original are told apart: no two
 live buckets share a frequency and no two live nodes share a key.
 */
module LfuHandlers {
  import opened EvictionHistory
  import opened LfuOrder

  datatype Node = Node(key: string, frequency: int, insertOrder: int)

  predicate Ascending(s: seq<int>) {
    forall i, j | 0 <= i < j < |s| :: s[i] < s[j]
  }

  /** The key maps lead from every tracked key to its node and to the bucket of its touches. */
  ghost predicate Indexed(nodes: map<string, Node>, buckets: map<string, int>, h: History) {
    && nodes.Keys == buckets.Keys == Tracked(h)
    && (forall k | k in nodes ::
          nodes[k].key == k && nodes[k].frequency == buckets[k] == Touches(h, k))
  }

  class LfuHandler {
    var freqBuckets: seq<int>
    var bucketMap: Groups
    var keyToBucket: map<string, int>
    var keyToNode: map<string, Node>
    var minFreq: int
    var insertCounter: int

    ghost var history: History

    /** The sorted list and the frequency map name the same buckets, and minFreq the lowest. */
    ghost predicate Linked()
      reads this`freqBuckets, this`bucketMap, this`minFreq
    {
      && Ascending(freqBuckets)
      && (forall f :: f in freqBuckets <==> f in bucketMap)
      && minFreq == if freqBuckets == [] then 0 else freqBuckets[0]
    }

    ghost predicate Valid()
      reads this
    {
      Linked() && Indexed(keyToNode, keyToBucket, history) && Ranked(bucketMap, history)
    }

    constructor ()
      ensures Valid() && history == Start
    {
      freqBuckets, bucketMap, keyToBucket, keyToNode := [], map[], map[], map[];
      minFreq, insertCounter := 0, 0;
      history := Start;
    }

    method InsertBucketSorted(f: int)
      requires Ascending(freqBuckets) && f !in freqBuckets
      modifies this`freqBuckets
      ensures Ascending(freqBuckets)
      ensures forall g :: g in freqBuckets <==> g == f || g in old(freqBuckets)
    {
      var i := 0;
      while i < |freqBuckets| && freqBuckets[i] <= f
        invariant 0 <= i <= |freqBuckets| && freqBuckets == old(freqBuckets)
        invariant forall j | 0 <= j < i :: freqBuckets[j] < f
      {
        i := i + 1;
      }
      AscendingInsert(freqBuckets, i, f);
      freqBuckets := freqBuckets[..i] + [f] + freqBuckets[i..];
    }

    method AddToFreqBucket(key: string, f: int)
      requires Ascending(freqBuckets) && forall g :: g in freqBuckets <==> g in bucketMap
      modifies this`freqBuckets, this`bucketMap, this`keyToBucket
      ensures Ascending(freqBuckets) && forall g :: g in freqBuckets <==> g in bucketMap
      ensures bucketMap == Append(old(bucketMap), f, key)
      ensures keyToBucket == old(keyToBucket)[key := f]
    {
      if f !in bucketMap {
        InsertBucketSorted(f);
        bucketMap := bucketMap[f := []];
      }
      bucketMap := bucketMap[f := bucketMap[f] + [key]];
      keyToBucket := keyToBucket[key := f];
    }

    method RemoveFromFreqBucket(key: string, f: int)
      requires Ascending(freqBuckets) && forall g :: g in freqBuckets <==> g in bucketMap
      modifies this`freqBuckets, this`bucketMap
      ensures Ascending(freqBuckets) && forall g :: g in freqBuckets <==> g in bucketMap
      ensures var m := old(bucketMap);
              bucketMap == if f in m && key in m[f] then Drop(m, f, key) else m
    {
      hide Ascending;
      if f !in bucketMap || key !in bucketMap[f] { return; }
      bucketMap := bucketMap[f := Without(bucketMap[f], key)];
      if |bucketMap[f]| == 0 {
        AscendingWithout(freqBuckets, f);
        freqBuckets := Without(freqBuckets, f);
        bucketMap := bucketMap - {f};
      }
    }

    method MoveToFreqBucket(key: string, oldFreq: int, newFreq: int)
      requires Ascending(freqBuckets) && forall g :: g in freqBuckets <==> g in bucketMap
      requires oldFreq in bucketMap && key in bucketMap[oldFreq]
      modifies this`freqBuckets, this`bucketMap, this`keyToBucket
      ensures Ascending(freqBuckets) && forall g :: g in freqBuckets <==> g in bucketMap
      ensures bucketMap == Append(Drop(old(bucketMap), oldFreq, key), newFreq, key)
      ensures keyToBucket == old(keyToBucket)[key := newFreq]
    {
      RemoveFromFreqBucket(key, oldFreq);
      AddToFreqBucket(key, newFreq);
    }

    method RecalculateMinFreq()
      modifies this`minFreq
      ensures minFreq == if freqBuckets == [] then 0 else freqBuckets[0]
    {
      if |freqBuckets| == 0 {
        minFreq := 0;
        return;
      }
      minFreq := freqBuckets[0];
    }

    /** The part of OnAccess that moves a tracked key up by one frequency. */
    method Touch(key: string)
      requires Linked() && key in keyToNode
      requires var f := keyToNode[key].frequency; f in bucketMap && key in bucketMap[f]
      modifies this`freqBuckets, this`bucketMap, this`keyToBucket, this`keyToNode, this`minFreq
      ensures Linked()
      ensures var f := old(keyToNode)[key].frequency;
              && bucketMap == Append(Drop(old(bucketMap), f, key), f + 1, key)
              && keyToNode == old(keyToNode)[key := old(keyToNode)[key].(frequency := f + 1)]
              && keyToBucket == old(keyToBucket)[key := f + 1]
    {
      var oldFreq := keyToNode[key].frequency;
      var newFreq := oldFreq + 1;
      keyToNode := keyToNode[key := keyToNode[key].(frequency := newFreq)];
      MoveToFreqBucket(key, oldFreq, newFreq);
      if oldFreq == minFreq {
        RecalculateMinFreq();
      } else {
        LowestStays(old(freqBuckets), freqBuckets, oldFreq, newFreq);
      }
    }

    method OnAccess(key: string)
      requires Valid()
      modifies this
      ensures Valid() && history == Then(old(history), Access(key))
    {
      hide Indexed, Ranked;
      if key in keyToNode {
        Accessed(bucketMap, history, keyToNode, keyToBucket, key);
        Touch(key);
      } else {
        Ignored(bucketMap, history, keyToNode, keyToBucket, Access(key));
      }
      history := Then(history, Access(key));
    }

    /** The part of OnInsert that links a new key into the bucket of frequency one. */
    method Enter(key: string)
      requires Linked() && forall f | f in bucketMap :: f >= 1
      modifies this`freqBuckets, this`bucketMap, this`keyToBucket, this`keyToNode, this`minFreq, this`insertCounter
      ensures Linked() && bucketMap == Append(old(bucketMap), 1, key)
      ensures keyToNode == old(keyToNode)[key := Node(key, 1, old(insertCounter) + 1)]
      ensures keyToBucket == old(keyToBucket)[key := 1]
    {
      insertCounter := insertCounter + 1;
      keyToNode := keyToNode[key := Node(key, 1, insertCounter)];
      AddToFreqBucket(key, 1);
      minFreq := 1;
      assert 1 in freqBuckets && freqBuckets[0] in freqBuckets;
    }

    method OnInsert(key: string)
      requires Valid()
      modifies this
      ensures Valid() && history == Then(old(history), Insert(key))
    {
      hide Indexed, Ranked;
      if key !in keyToNode {
        Inserted(bucketMap, history, keyToNode, keyToBucket, key, insertCounter + 1);
        Enter(key);
      } else {
        Ignored(bucketMap, history, keyToNode, keyToBucket, Insert(key));
      }
      history := Then(history, Insert(key));
    }

    /** The part of OnEvict that unlinks a tracked key. */
    method Leave(key: string)
      requires Linked() && key in keyToNode
      requires var f := keyToNode[key].frequency; f in bucketMap && key in bucketMap[f]
      modifies this`freqBuckets, this`bucketMap, this`keyToBucket, this`keyToNode, this`minFreq
      ensures Linked()
      ensures bucketMap == Drop(old(bucketMap), old(keyToNode)[key].frequency, key)
      ensures keyToNode == old(keyToNode) - {key} && keyToBucket == old(keyToBucket) - {key}
    {
      var f := keyToNode[key].frequency;
      RemoveFromFreqBucket(key, f);
      keyToNode := keyToNode - {key};
      keyToBucket := keyToBucket - {key};
      if f == minFreq {
        RecalculateMinFreq();
      } else {
        LowestStays(old(freqBuckets), freqBuckets, f, f + 1);
      }
    }

    method OnEvict(key: string)
      requires Valid()
      modifies this
      ensures Valid() && history == Then(old(history), Evict(key))
    {
      hide Indexed, Ranked;
      if key in keyToNode {
        Evicted(bucketMap, history, keyToNode, keyToBucket, key);
        Leave(key);
      } else {
        Ignored(bucketMap, history, keyToNode, keyToBucket, Evict(key));
      }
      history := Then(history, Evict(key));
    }

    method SelectEvictionCandidate() returns (c: string)
      requires Valid()
      ensures IsCandidate(LFU, history, c)
    {
      if |keyToNode| == 0 { return ""; }
      ghost var k :| k in keyToNode.Keys;
      assert Touches(history, k) in freqBuckets;
      if minFreq !in bucketMap { return ""; }
      FrontOfLowestIsSelected(bucketMap, history, minFreq);
      c := bucketMap[minFreq][0];
    }

    method Reset()
      modifies this
      ensures Valid() && history == Then(old(history), EvictionHistory.Reset)
    {
      freqBuckets, bucketMap, keyToBucket, keyToNode := [], map[], map[], map[];
      minFreq, insertCounter := 0, 0;
      history := Then(history, EvictionHistory.Reset);
    }
  }

  lemma AscendingInsert(s: seq<int>, i: nat, f: int)
    requires Ascending(s) && i <= |s|
    requires forall j | 0 <= j < i :: s[j] < f
    requires i < |s| ==> f < s[i]
    ensures Ascending(s[..i] + [f] + s[i..])
    ensures forall g :: g in s[..i] + [f] + s[i..] <==> g == f || g in s
  {
    var s' := s[..i] + [f] + s[i..];
    forall x, y | 0 <= x < y < |s'| ensures s'[x] < s'[y] {
      assert s'[x] == if x < i then s[x] else if x == i then f else s[x - 1];
      assert s'[y] == if y < i then s[y] else if y == i then f else s[y - 1];
      assert y > i ==> f < s[y - 1];
    }
    MembersOfInsert(s, i, f);
  }

  lemma MembersOfInsert(s: seq<int>, i: nat, f: int)
    requires i <= |s|
    ensures forall g :: g in s[..i] + [f] + s[i..] <==> g == f || g in s
  {
    assert s == s[..i] + s[i..];
  }

  lemma AscendingWithout(s: seq<int>, x: int)
    requires Ascending(s) && x in s
    ensures Ascending(Without(s, x))
    ensures forall y :: y in Without(s, x) <==> y in s && y != x
  {
    forall i, j | 0 <= i < j < |Without(s, x)| ensures Without(s, x)[i] < Without(s, x)[j] {
      var i', j' := WithoutIsSubsequence(s, x, i, j);
    }
    forall y ensures y in Without(s, x) <==> y in s && y != x { WithoutElements(s, x, y); }
  }

  /** Moving a key from f > s[0] to a higher frequency leaves the lowest frequency in place. */
  lemma LowestStays(s: seq<int>, s': seq<int>, f: int, g: int)
    requires Ascending(s) && Ascending(s') && f in s && f != s[0] && f < g
    requires forall x | x in s' :: x in s || x == g
    requires forall x | x in s && x != f :: x in s'
    ensures s' != [] && s'[0] == s[0]
  {
    assert s[0] in s && s[0] in s' && s'[0] in s';
  }

  /** What an access to a tracked key does to the groups and to the index. */
  lemma Accessed(m: Groups, h: History, nodes: map<string, Node>, buckets: map<string, int>, k: string)
    requires Ranked(m, h) && Indexed(nodes, buckets, h) && k in nodes
    ensures var f, h' := nodes[k].frequency, Then(h, Access(k));
      && f in m && k in m[f]
      && Ranked(Append(Drop(m, f, k), f + 1, k), h')
      && Indexed(nodes[k := nodes[k].(frequency := f + 1)], buckets[k := f + 1], h')
  {
    hide Ranked, Indexed, Append, Drop;
    FrequencyIsTouches(h, nodes, buckets, k);
    InItsGroup(m, h, k);
    RankedAccess(m, h, k);
    IndexedAccess(h, nodes, buckets, k);
  }

  lemma FrequencyIsTouches(h: History, nodes: map<string, Node>, buckets: map<string, int>, k: string)
    requires Indexed(nodes, buckets, h) && k in nodes
    ensures k in Tracked(h) && nodes[k].frequency == Touches(h, k)
  {
  }

  lemma IndexedAccess(h: History, nodes: map<string, Node>, buckets: map<string, int>, k: string)
    requires Indexed(nodes, buckets, h) && k in nodes
    ensures var f := nodes[k].frequency;
      Indexed(nodes[k := nodes[k].(frequency := f + 1)], buckets[k := f + 1], Then(h, Access(k)))
  {
    OnlyItsKeyChanges(h, Access(k));
    var n', b' := nodes[k := nodes[k].(frequency := nodes[k].frequency + 1)], buckets[k := nodes[k].frequency + 1];
    assert n'.Keys == nodes.Keys && b'.Keys == buckets.Keys;
  }

  /** What inserting a new key does to the groups and to the index. */
  lemma Inserted(m: Groups, h: History, nodes: map<string, Node>, buckets: map<string, int>, k: string, order: int)
    requires Ranked(m, h) && Indexed(nodes, buckets, h) && k !in nodes
    ensures forall f | f in m :: f >= 1
    ensures var h' := Then(h, Insert(k));
      && Ranked(Append(m, 1, k), h')
      && Indexed(nodes[k := Node(k, 1, order)], buckets[k := 1], h')
  {
    RankedInsert(m, h, k);
    IndexedInsert(h, nodes, buckets, k, order);
    forall f | f in m ensures f >= 1 { StampsInRange(h, m[f][0]); }
  }

  lemma IndexedInsert(h: History, nodes: map<string, Node>, buckets: map<string, int>, k: string, order: int)
    requires Indexed(nodes, buckets, h) && k !in nodes
    ensures Indexed(nodes[k := Node(k, 1, order)], buckets[k := 1], Then(h, Insert(k)))
  {
    OnlyItsKeyChanges(h, Insert(k));
    var n', b' := nodes[k := Node(k, 1, order)], buckets[k := 1];
    assert n'.Keys == nodes.Keys + {k} && b'.Keys == buckets.Keys + {k};
  }

  /** What evicting a tracked key does to the groups and to the index. */
  lemma Evicted(m: Groups, h: History, nodes: map<string, Node>, buckets: map<string, int>, k: string)
    requires Ranked(m, h) && Indexed(nodes, buckets, h) && k in nodes
    ensures var f, h' := nodes[k].frequency, Then(h, Evict(k));
      && f in m && k in m[f]
      && Ranked(Drop(m, f, k), h')
      && Indexed(nodes - {k}, buckets - {k}, h')
  {
    hide Ranked, Indexed, Drop;
    FrequencyIsTouches(h, nodes, buckets, k);
    InItsGroup(m, h, k);
    RankedEvict(m, h, k);
    IndexedEvict(h, nodes, buckets, k);
  }

  lemma IndexedEvict(h: History, nodes: map<string, Node>, buckets: map<string, int>, k: string)
    requires Indexed(nodes, buckets, h) && k in nodes
    ensures Indexed(nodes - {k}, buckets - {k}, Then(h, Evict(k)))
  {
    OnlyItsKeyChanges(h, Evict(k));
    assert (nodes - {k}).Keys == nodes.Keys - {k} && (buckets - {k}).Keys == buckets.Keys - {k};
  }

  /** A call that finds nothing to do leaves both as they were. */
  lemma Ignored(m: Groups, h: History, nodes: map<string, Node>, buckets: map<string, int>, e: Event)
    requires Ranked(m, h) && Indexed(nodes, buckets, h) && !e.Reset?
    requires if e.Insert? then e.key in nodes else e.key !in nodes
    ensures Ranked(m, Then(h, e)) && Indexed(nodes, buckets, Then(h, e))
  {
    RankedIdle(m, h, e);
    OnlyItsKeyChanges(h, e);
    assert Tracked(Then(h, e)) == Tracked(h);
  }
}
