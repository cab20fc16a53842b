/**
 The frequency groups of the LFU handler as values: for each frequency in use, the keys
 that have it, in order of arrival. The handler in LfuHandlers keeps these groups in
 linked buckets; here they are proved to agree with the history definition.
 */
module LfuOrder {
  import opened EvictionHistory

  type Groups = map<int, seq<string>>

  function IndexOf<T(==)>(s: seq<T>, x: T): (i: nat)
    requires x in s
    ensures i < |s| && s[i] == x
  {
    if s[0] == x then 0 else 1 + IndexOf(s[1..], x)
  }

  function Without<T(==)>(s: seq<T>, x: T): (r: seq<T>)
    requires x in s
    ensures |r| == |s| - 1
  {
    var i := IndexOf(s, x);
    s[..i] + s[i + 1..]
  }

  /** Takes x out of group f, and the group itself once it is empty. */
  function Drop<T(==)>(m: map<int, seq<T>>, f: int, x: T): map<int, seq<T>>
    requires f in m && x in m[f]
  {
    if |m[f]| == 1 then m - {f} else m[f := Without(m[f], x)]
  }

  /** Puts x at the back of group f, which is created when missing. */
  function Append<T>(m: map<int, seq<T>>, f: int, x: T): map<int, seq<T>> {
    m[f := (if f in m then m[f] else []) + [x]]
  }

  /** The groups hold the tracked keys by number of touches, each in order of last touch. */
  ghost predicate Ranked(m: Groups, h: History) {
    && (forall f | f in m :: m[f] != [])
    && (forall f, i | f in m && 0 <= i < |m[f]| :: m[f][i] in Tracked(h) && Touches(h, m[f][i]) == f)
    && (forall k | k in Tracked(h) :: Touches(h, k) in m && k in m[Touches(h, k)])
    && (forall f, i, j | f in m && 0 <= i < j < |m[f]| :: LastTouch(h, m[f][i]) < LastTouch(h, m[f][j]))
  }

  /** The front of the lowest group is the least touched key, the oldest touch breaking ties. */
  lemma FrontOfLowestIsSelected(m: Groups, h: History, f: int)
    requires Ranked(m, h) && f in m && forall g | g in m :: f <= g
    ensures Selects(LFU, h, m[f][0])
  {
    var v := m[f][0];
    forall k | k in Tracked(h) && k != v ensures Before(LFU, h, v, k) {
      var i := IndexOf(m[Touches(h, k)], k);
      assert m[Touches(h, k)][i] == k;
    }
  }

  lemma InItsGroup(m: Groups, h: History, k: string)
    requires Ranked(m, h) && k in Tracked(h)
    ensures Touches(h, k) in m && k in m[Touches(h, k)]
  {
  }

  /** Without(s, x) keeps the order of the other elements. */
  lemma WithoutIsSubsequence<T>(s: seq<T>, x: T, i: nat, j: nat) returns (i': nat, j': nat)
    requires x in s && i < j < |Without(s, x)|
    ensures i' < j' < |s| && Without(s, x)[i] == s[i'] && Without(s, x)[j] == s[j']
  {
    var p := IndexOf(s, x);
    i' := if i < p then i else i + 1;
    j' := if j < p then j else j + 1;
  }

  ghost predicate Distinct<T>(s: seq<T>) {
    forall i, j | 0 <= i < j < |s| :: s[i] != s[j]
  }

  lemma WithoutElements<T>(s: seq<T>, x: T, y: T)
    requires x in s && Distinct(s)
    ensures y in Without(s, x) <==> y in s && y != x
  {
    var p := IndexOf(s, x);
    assert s == s[..p] + [x] + s[p + 1..];
  }

  lemma RankedIsDistinct(m: Groups, h: History, f: int)
    requires Ranked(m, h) && f in m
    ensures Distinct(m[f])
  {
  }

  /** Dropping a tracked key ranks the others as before. */
  ghost predicate RankedExcept(m: Groups, h: History, k: string) {
    && (forall f | f in m :: m[f] != [])
    && (forall f, i | f in m && 0 <= i < |m[f]| ::
          m[f][i] != k && m[f][i] in Tracked(h) && Touches(h, m[f][i]) == f)
    && (forall x | x in Tracked(h) && x != k :: Touches(h, x) in m && x in m[Touches(h, x)])
    && (forall f, i, j | f in m && 0 <= i < j < |m[f]| :: LastTouch(h, m[f][i]) < LastTouch(h, m[f][j]))
  }

  lemma DropMembers(m: Groups, h: History, k: string)
    requires Ranked(m, h) && k in Tracked(h)
    ensures var m' := Drop(m, Touches(h, k), k);
      && (forall f | f in m' :: m'[f] != [])
      && (forall f, i | f in m' && 0 <= i < |m'[f]| ::
          m'[f][i] != k && m'[f][i] in Tracked(h) && Touches(h, m'[f][i]) == f)
      && (forall x | x in Tracked(h) && x != k :: Touches(h, x) in m' && x in m'[Touches(h, x)])
  {
    var f0 := Touches(h, k);
    var m' := Drop(m, f0, k);
    RankedIsDistinct(m, h, f0);
    forall f, i | f in m' && 0 <= i < |m'[f]|
      ensures m'[f][i] != k && m'[f][i] in Tracked(h) && Touches(h, m'[f][i]) == f
    {
      var x := m'[f][i];
      if f == f0 { WithoutElements(m[f0], k, x); }
      var p := IndexOf(m[f], x);
      assert m[f][p] == x;
    }
    forall x | x in Tracked(h) && x != k ensures Touches(h, x) in m' && x in m'[Touches(h, x)] {
      if Touches(h, x) == f0 { WithoutElements(m[f0], k, x); assert m[f0][0] != x || m[f0][0] != k; }
    }
  }

  lemma RankedDrop(m: Groups, h: History, k: string)
    requires Ranked(m, h) && k in Tracked(h)
    ensures RankedExcept(Drop(m, Touches(h, k), k), h, k)
  {
    var f0 := Touches(h, k);
    var m' := Drop(m, f0, k);
    DropMembers(m, h, k);
    forall f, i, j | f in m' && 0 <= i < j < |m'[f]|
      ensures LastTouch(h, m'[f][i]) < LastTouch(h, m'[f][j])
    {
      if f == f0 { var i', j' := WithoutIsSubsequence(m[f0], k, i, j); }
    }
  }

  /** From h to h' nothing changed for keys other than k. */
  ghost predicate SameBut(h: History, h': History, k: string) {
    forall x | x != k ::
      && (x in Tracked(h') <==> x in Tracked(h))
      && Touches(h', x) == Touches(h, x) && LastTouch(h', x) == LastTouch(h, x)
  }

  lemma RankedAppend(d: Groups, h: History, h': History, k: string)
    requires RankedExcept(d, h, k) && SameBut(h, h', k)
    requires k in Tracked(h') && LastTouch(h', k) == Length(h)
    ensures Ranked(Append(d, Touches(h', k), k), h')
  {
    var m' := Append(d, Touches(h', k), k);
    forall f, i, j | f in m' && 0 <= i < j < |m'[f]|
      ensures LastTouch(h', m'[f][i]) < LastTouch(h', m'[f][j])
    {
      StampsInRange(h, m'[f][i]);
    }
  }

  lemma RankedForget(d: Groups, h: History, h': History, k: string)
    requires RankedExcept(d, h, k) && SameBut(h, h', k) && k !in Tracked(h')
    ensures Ranked(d, h')
  {
  }

  lemma RankedWithoutUntracked(m: Groups, h: History, k: string)
    requires Ranked(m, h) && k !in Tracked(h)
    ensures RankedExcept(m, h, k)
  {
  }

  lemma OnlyItsKeyChanges(h: History, e: Event)
    requires !e.Reset?
    ensures SameBut(h, Then(h, e), e.key)
  {
  }

  lemma RankedInsert(m: Groups, h: History, k: string)
    requires Ranked(m, h) && k !in Tracked(h)
    ensures Ranked(Append(m, 1, k), Then(h, Insert(k)))
  {
    hide Ranked, RankedExcept, SameBut, Append;
    RankedWithoutUntracked(m, h, k);
    OnlyItsKeyChanges(h, Insert(k));
    RankedAppend(m, h, Then(h, Insert(k)), k);
  }

  lemma RankedEvict(m: Groups, h: History, k: string)
    requires Ranked(m, h) && k in Tracked(h)
    ensures Ranked(Drop(m, Touches(h, k), k), Then(h, Evict(k)))
  {
    hide Ranked, RankedExcept, SameBut, Drop;
    InItsGroup(m, h, k);
    RankedDrop(m, h, k);
    OnlyItsKeyChanges(h, Evict(k));
    RankedForget(Drop(m, Touches(h, k), k), h, Then(h, Evict(k)), k);
  }

  lemma RankedAccess(m: Groups, h: History, k: string)
    requires Ranked(m, h) && k in Tracked(h)
    ensures Ranked(Append(Drop(m, Touches(h, k), k), Touches(h, k) + 1, k), Then(h, Access(k)))
  {
    hide Ranked, RankedExcept, SameBut, Append, Drop;
    InItsGroup(m, h, k);
    RankedDrop(m, h, k);
    OnlyItsKeyChanges(h, Access(k));
    RankedAppend(Drop(m, Touches(h, k), k), h, Then(h, Access(k)), k);
  }

  /** The calls that change nothing: inserting a tracked key, accessing or evicting any other. */
  lemma RankedIdle(m: Groups, h: History, e: Event)
    requires Ranked(m, h) && !e.Reset?
    requires if e.Insert? then e.key in Tracked(h) else e.key !in Tracked(h)
    ensures Ranked(m, Then(h, e))
  {
    var h' := Then(h, e);
    OnlyItsKeyChanges(h, e);
    StampsInRange(h, e.key);
    assert Tracked(h') == Tracked(h);
    assert forall x :: x in Tracked(h) ==> Touches(h', x) == Touches(h, x) && LastTouch(h', x) == LastTouch(h, x);
  }

  lemma RankedReset(h: History)
    ensures Ranked(map[], Then(h, Reset))
  {
  }

  /** The groups after a whole history of calls. */
  function GroupsAfter(h: History): Groups {
    match h
    case Start => map[]
    case Then(past, e) =>
      var m := GroupsAfter(past);
      if e.Reset? then map[] else
      var k, f := e.key, Touches(past, e.key);
      if e.Insert? then (if k in Tracked(past) then m else Append(m, 1, k))
      else if k !in Tracked(past) || f !in m || k !in m[f] then m
      else if e.Access? then Append(Drop(m, f, k), f + 1, k)
      else Drop(m, f, k)
  }

  lemma {:induction false} GroupsAreRanked(h: History)
    ensures Ranked(GroupsAfter(h), h)
  {
    if h.Start? { return; }
    hide Ranked, Append, Drop;
    var past, e := h.past, h.last;
    GroupsAreRanked(past);
    var m := GroupsAfter(past);
    if e.Reset? {
      RankedReset(past);
    } else if e.Insert? && e.key !in Tracked(past) {
      RankedInsert(m, past, e.key);
    } else if e.Insert? || e.key !in Tracked(past) {
      RankedIdle(m, past, e);
    } else {
      InItsGroup(m, past, e.key);
      if e.Access? { RankedAccess(m, past, e.key); } else { RankedEvict(m, past, e.key); }
    }
  }

  /** Whatever calls were made, the front of the lowest group is the key the history
      definition selects: fewest touches since insertion, oldest last touch among those. */
  lemma GroupsFollowHistory(h: History, f: int)
    requires f in GroupsAfter(h) && forall g | g in GroupsAfter(h) :: f <= g
    ensures GroupsAfter(h)[f] != [] && Selects(LFU, h, GroupsAfter(h)[f][0])
  {
    GroupsAreRanked(h);
    FrontOfLowestIsSelected(GroupsAfter(h), h, f);
  }
}
