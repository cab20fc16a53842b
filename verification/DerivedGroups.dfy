/**
 The process-wide registry of derived consumer groups. Subscriptions claim a derived name,
 attach to the bus, and release the name when the attachment fails or when they are torn
 down; calls from different goroutines interleave between any two of those steps.
 */
module DerivedGroups {
  import opened Options

  /** Claimed: name taken, bus not yet asked. Failing / Detached: the bus is done with the
      subscription, the name is still to be released. */
  datatype Phase = Claimed | Attached | Failing | Detached | Gone

  datatype Subscription = Subscription(group: string, derived: bool, phase: Phase)

  datatype State = State(names: set<string>, subs: map<nat, Subscription>)

  datatype Action =
    | Claim(id: nat, group: string)
    | Explicit(id: nat, group: string)
    | BusAccepts(id: nat)
    | BusRefuses(id: nat)
    | ReleaseRefused(id: nat)
    | Unsubscribe(id: nat)
    | ReleaseDetached(id: nat)

  const EMPTY := State({}, map[])

  predicate InPhase(s: State, id: nat, p: Phase) {
    id in s.subs && s.subs[id].phase == p
  }

  predicate Enabled(s: State, a: Action) {
    match a
    case Claim(id, _) => id !in s.subs
    case Explicit(id, _) => id !in s.subs
    case BusAccepts(id) => InPhase(s, id, Claimed)
    case BusRefuses(id) => InPhase(s, id, Claimed)
    case ReleaseRefused(id) => InPhase(s, id, Failing)
    case Unsubscribe(id) => id in s.subs && !InPhase(s, id, Claimed) && !InPhase(s, id, Failing)
    case ReleaseDetached(id) => InPhase(s, id, Detached)
  }

  function To(s: State, id: nat, p: Phase): State
    requires id in s.subs
  {
    s.(subs := s.subs[id := s.subs[id].(phase := p)])
  }

  function Apply(s: State, a: Action): State
    requires Enabled(s, a)
  {
    match a
    case Claim(id, g) =>
      // claimDerivedGroup refuses a taken name and the call fails with a conflict.
      if g in s.names then s
      else State(s.names + {g}, s.subs[id := Subscription(g, true, Claimed)])
    case Explicit(id, g) => s.(subs := s.subs[id := Subscription(g, false, Claimed)])
    case BusAccepts(id) => To(s, id, Attached)
    case BusRefuses(id) => To(s, id, if s.subs[id].derived then Failing else Gone)
    case ReleaseRefused(id) => To(s, id, Gone).(names := s.names - {s.subs[id].group})
    case Unsubscribe(id) =>
      if s.subs[id].phase.Attached? then To(s, id, if s.subs[id].derived then Detached else Gone) else s
    case ReleaseDetached(id) => To(s, id, Gone).(names := s.names - {s.subs[id].group})
  }

  predicate Legal(s: State, run: seq<Action>)
    decreases |run|
  {
    run == [] || (Enabled(s, run[0]) && Legal(Apply(s, run[0]), run[1..]))
  }

  function Exec(s: State, run: seq<Action>): State
    requires Legal(s, run)
    decreases |run|
  {
    if run == [] then s else Exec(Apply(s, run[0]), run[1..])
  }

  /** A derived subscription that is not yet fully torn down. */
  predicate Live(s: State, id: nat) {
    id in s.subs && s.subs[id].derived && !s.subs[id].phase.Gone?
  }

  /** Every live derived subscription holds its name, and holds it alone. */
  ghost predicate HeldOnce(s: State) {
    && (forall id | Live(s, id) :: s.subs[id].group in s.names)
    && (forall id, id' | Live(s, id) && Live(s, id') && s.subs[id].group == s.subs[id'].group :: id == id')
    && (forall id | id in s.subs && (s.subs[id].phase.Failing? || s.subs[id].phase.Detached?) :: s.subs[id].derived)
  }

  ghost predicate Holds(s: State, id: nat, g: string) {
    Live(s, id) && s.subs[id].group == g
  }

  /** Every claimed name has a holder. */
  ghost predicate NoOrphan(s: State) {
    forall g | g in s.names :: exists id :: Holds(s, id, g)
  }

  ghost predicate Inv(s: State) {
    HeldOnce(s) && NoOrphan(s)
  }

  lemma OthersStay(s: State, a: Action, id: nat)
    requires Enabled(s, a) && id != a.id
    ensures Live(Apply(s, a), id) <==> Live(s, id)
    ensures Live(s, id) ==> Apply(s, a).subs[id] == s.subs[id]
  {
  }

  /** A step leaves its own subscription live only if it was live, or has just claimed. */
  lemma StaysLiveOrClaims(s: State, a: Action)
    requires HeldOnce(s) && Enabled(s, a) && Live(Apply(s, a), a.id)
    ensures var s' := Apply(s, a); s'.subs[a.id].group in s'.names
    ensures var s' := Apply(s, a);
            || (Live(s, a.id) && s'.subs[a.id].group == s.subs[a.id].group)
            || (a.Claim? && s'.subs[a.id].group !in s.names)
  {
  }

  lemma StepKeepsHeldOnce(s: State, a: Action)
    requires HeldOnce(s) && Enabled(s, a)
    ensures HeldOnce(Apply(s, a))
  {
    var s' := Apply(s, a);
    forall id | Live(s', id) ensures s'.subs[id].group in s'.names {
      if id == a.id { StaysLiveOrClaims(s, a); } else { OthersStay(s, a, id); }
    }
    forall id, id' | Live(s', id) && Live(s', id') && s'.subs[id].group == s'.subs[id'].group ensures id == id' {
      if id != a.id { OthersStay(s, a, id); }
      if id' != a.id { OthersStay(s, a, id'); }
      if id == a.id || id' == a.id { StaysLiveOrClaims(s, a); }
    }
  }

  lemma StepKeepsNoOrphan(s: State, a: Action)
    requires HeldOnce(s) && NoOrphan(s) && Enabled(s, a)
    ensures NoOrphan(Apply(s, a))
  {
    var s' := Apply(s, a);
    forall g | g in s'.names ensures exists id :: Holds(s', id, g) {
      if g in s.names {
        var id :| Holds(s, id, g);
        assert Holds(s', id, g);
      } else {
        assert Holds(s', a.id, g);
      }
    }
  }

  lemma StepKeepsInv(s: State, a: Action)
    requires Inv(s) && Enabled(s, a)
    ensures Inv(Apply(s, a))
  {
    StepKeepsHeldOnce(s, a);
    StepKeepsNoOrphan(s, a);
  }

  lemma {:induction false} RunKeepsInv(s: State, run: seq<Action>)
    requires Inv(s) && Legal(s, run)
    ensures Inv(Exec(s, run))
    decreases |run|
  {
    if run != [] {
      StepKeepsInv(s, run[0]);
      RunKeepsInv(Apply(s, run[0]), run[1..]);
    }
  }

  /** In every interleaving the claimed names are exactly the groups of the derived
      subscriptions not yet torn down, and each is held by one of them. */
  lemma ClaimsAreExact(run: seq<Action>, g: string)
    requires Legal(EMPTY, run)
    ensures var s := Exec(EMPTY, run);
            && (g in s.names <==> exists id :: Holds(s, id, g))
            && (forall id, id' | Holds(s, id, g) && Holds(s, id', g) :: id == id')
  {
    RunKeepsInv(EMPTY, run);
  }

  /** A claim outlives everything that happens to other subscriptions: as long as a run takes
      no step of id itself, id stays as it is and keeps its name, even while an older
      subscription that had the same name is unsubscribed again and again. */
  lemma ClaimSurvivesOthers(before: seq<Action>, run: seq<Action>, id: nat)
    requires Legal(EMPTY, before) && Live(Exec(EMPTY, before), id) && Legal(Exec(EMPTY, before), run)
    requires forall a | a in run :: a.id != id
    ensures var s := Exec(EMPTY, before); var s' := Exec(s, run);
            && Live(s', id) && s'.subs[id] == s.subs[id] && s.subs[id].group in s'.names
            && forall other | Holds(s', other, s.subs[id].group) :: other == id
  {
    RunKeepsInv(EMPTY, before);
    var s := Exec(EMPTY, before);
    RunKeepsInv(s, run);
    OthersStayOverRun(s, run, id);
  }

  lemma {:induction false} OthersStayOverRun(s: State, run: seq<Action>, id: nat)
    requires Legal(s, run) && Live(s, id) && forall a | a in run :: a.id != id
    ensures var s' := Exec(s, run); Live(s', id) && s'.subs[id] == s.subs[id]
    decreases |run|
  {
    if run != [] {
      assert run[0] in run;
      OthersStay(s, run[0], id);
      OthersStayOverRun(Apply(s, run[0]), run[1..], id);
    }
  }

  /** The step gives the name of id back. */
  predicate Releases(a: Action, id: nat) {
    a == ReleaseRefused(id) || a == ReleaseDetached(id)
  }

  function ReleaseCount(run: seq<Action>, id: nat): nat {
    if run == [] then 0 else (if Releases(run[0], id) then 1 else 0) + ReleaseCount(run[1..], id)
  }

  /** No subscription releases its name twice, in any run. */
  lemma ReleasedAtMostOnce(run: seq<Action>, id: nat)
    requires Legal(EMPTY, run)
    ensures ReleaseCount(run, id) <= 1
  {
    ReleasesLeft(EMPTY, run, id);
  }

  lemma {:induction false} ReleasesLeft(s: State, run: seq<Action>, id: nat)
    requires Legal(s, run)
    ensures ReleaseCount(run, id) <= if InPhase(s, id, Gone) then 0 else 1
    decreases |run|
  {
    if run != [] { ReleasesLeft(Apply(s, run[0]), run[1..], id); }
  }

  /** The run with every Unsubscribe of id left out. */
  function WithoutUnsubscribe(run: seq<Action>, id: nat): seq<Action> {
    if run == [] then []
    else (if run[0] == Unsubscribe(id) then [] else [run[0]]) + WithoutUnsubscribe(run[1..], id)
  }

  /** Once id has been unsubscribed, further unsubscribes of it are invisible: leaving all of
      them out of any continuation gives a legal continuation with the same end, whoever
      has claimed the name meanwhile. */
  lemma {:induction false} RepeatedUnsubscribeIsInvisible(s: State, run: seq<Action>, id: nat)
    requires Legal(s, run) && (InPhase(s, id, Detached) || InPhase(s, id, Gone))
    ensures var rest := WithoutUnsubscribe(run, id);
            Legal(s, rest) && Exec(s, rest) == Exec(s, run)
    decreases |run|
  {
    if run != [] {
      var s1 := Apply(s, run[0]);
      RepeatedUnsubscribeIsInvisible(s1, run[1..], id);
      if run[0] == Unsubscribe(id) {
        assert WithoutUnsubscribe(run, id) == WithoutUnsubscribe(run[1..], id);
      } else {
        ExecCons(s, run[0], WithoutUnsubscribe(run[1..], id));
      }
    }
  }

  // ---------------------------------------------------------------- the code

  datatype SubscribeError = AnonymousHandler | GroupConflict | BusError | NonCommandAction | UnnamedCommandType

  /** The teardown returned to the caller; releaseOnce keeps `fired`. nested is the explicit
      subscription that a command binding with a derived name wraps. */
  class Teardown {
    const id: nat
    const group: string
    const derived: bool
    const nested: Option<nat>
    var fired: bool

    constructor (id: nat, group: string, derived: bool, nested: Option<nat>)
      ensures this.id == id && this.group == group && this.derived == derived && this.nested == nested && !fired
    {
      this.id, this.group, this.derived, this.nested, fired := id, group, derived, nested, false;
    }
  }

  /** The steps a subscribe call takes when it runs without interruption. */
  function SubscribeSteps(id: nat, group: string, derived: bool, taken: bool, busOk: bool): seq<Action> {
    if derived then
      [Claim(id, group)] + (if taken then [] else if busOk then [BusAccepts(id)] else [BusRefuses(id), ReleaseRefused(id)])
    else [Explicit(id, group)] + (if busOk then [BusAccepts(id)] else [BusRefuses(id)])
  }

  class Registry {
    var names: set<string>
    ghost var state: State

    ghost predicate Valid()
      reads this
    {
      names == state.names && Inv(state)
    }

    /** t belongs to this registry: attached until it has fired, and gone from then on. */
    ghost predicate Issued(t: Teardown)
      reads this, t
    {
      var phase := if t.fired then Gone else Attached;
      && t.id in state.subs && state.subs[t.id] == Subscription(t.group, t.derived, phase)
      && (t.nested.Some? ==>
            && t.nested.value != t.id && t.nested.value in state.subs
            && state.subs[t.nested.value] == Subscription(t.group, false, phase))
    }

    constructor ()
      ensures Valid() && state == EMPTY
    {
      names, state := {}, EMPTY;
    }

    method ClaimDerivedGroup(name: string) returns (ok: bool)
      modifies this`names
      ensures ok <==> name !in old(names)
      ensures names == old(names) + {name}
    {
      if name in names { return false; }
      names := names + {name};
      return true;
    }

    method ReleaseDerivedGroup(name: string)
      modifies this`names
      ensures names == old(names) - {name}
    {
      names := names - {name};
    }

    /** group is the configured group, derivable what deriveGroup yields for the handler;
        busOk is the answer of the bus. */
    method SubscribeInstance(id: nat, group: string, derivable: Option<string>, busOk: bool)
      returns (r: Result<Teardown, SubscribeError>)
      requires Valid() && id !in state.subs
      modifies this
      ensures Valid()
      ensures group == "" && derivable.None? ==> r == Err(AnonymousHandler) && state == old(state)
      ensures !(group == "" && derivable.None?) ==>
        var derived := group == "";
        var name := if derived then derivable.value else group;
        var steps := SubscribeSteps(id, name, derived, name in old(names), busOk);
        && Legal(old(state), steps) && state == Exec(old(state), steps)
        && (r.Ok? <==> busOk && !(derived && name in old(names)))
        && (r.Err? ==> r.error == if derived && name in old(names) then GroupConflict else BusError)
        && (r.Ok? ==> fresh(r.value) && Issued(r.value) && !r.value.fired && r.value.id == id
                      && r.value.group == name && r.value.derived == derived && r.value.nested.None?)
    {
      var name := group;
      var derived := false;
      if name == "" {
        if derivable.None? { return Err(AnonymousHandler); }
        name := derivable.value;
        var ok := ClaimDerivedGroup(name);
        if !ok {
          assert names == old(names);
          return Err(GroupConflict);
        }
        derived := true;
      }
      ghost var steps := SubscribeSteps(id, name, derived, name in old(names), busOk);
      FollowSteps(state, id, name, derived, busOk);
      state := Exec(state, steps);
      if !busOk {
        if derived { ReleaseDerivedGroup(name); }
        return Err(BusError);
      }
      var t := new Teardown(id, name, derived, None);
      return Ok(t);
    }

    /** Gives back the name of a claimed subscription the bus has refused. */
    method Abandon(id: nat, name: string)
      requires Valid() && InPhase(state, id, Claimed) && state.subs[id].derived && state.subs[id].group == name
      modifies this
      ensures Valid() && names == old(names) - {name}
      ensures state.subs == old(state).subs[id := old(state).subs[id].(phase := Gone)]
    {
      StepKeepsInv(state, BusRefuses(id));
      state := Apply(state, BusRefuses(id));
      StepKeepsInv(state, ReleaseRefused(id));
      state := Apply(state, ReleaseRefused(id));
      ReleaseDerivedGroup(name);
    }

    /** named tells whether the command type has a stable identity and isCommand whether it
        is a command. The bus subscription is a nested SubscribeInstance (inner) that gets
        the name as an explicit group and so claims nothing itself. */
    method BindCommand(id: nat, inner: nat, group: string, named: Option<string>, isCommand: bool, busOk: bool)
      returns (r: Result<Teardown, SubscribeError>)
      requires Valid() && id !in state.subs && inner !in state.subs && id != inner
      modifies this
      ensures Valid()
      ensures named.None? ==> r == Err(UnnamedCommandType) && state == old(state)
      ensures named.Some? && !isCommand ==> r == Err(NonCommandAction) && state == old(state)
      ensures named.Some? && isCommand ==>
        var derived := group == "";
        var name := if derived then "vef:cmd:" + named.value else group;
        && (r.Ok? <==> busOk && !(derived && name in old(names)))
        && names == (if r.Ok? && derived then old(names) + {name} else old(names))
        && (r.Err? ==> r.error == if derived && name in old(names) then GroupConflict else BusError)
        && (r.Ok? ==> fresh(r.value) && Issued(r.value) && !r.value.fired
                      && r.value.group == name && r.value.derived == derived
                      && r.value.id == (if derived then id else inner)
                      && r.value.nested == if derived then Some(inner) else None)
      ensures forall i | i in old(state).subs :: i in state.subs && state.subs[i] == old(state).subs[i]
    {
      hide Inv;
      if named.None? { return Err(UnnamedCommandType); }
      if !isCommand { return Err(NonCommandAction); }
      var name := group;
      var derived := false;
      if name == "" {
        name := "vef:cmd:" + named.value;
        var ok := ClaimDerivedGroup(name);
        if !ok {
          assert names == old(names);
          return Err(GroupConflict);
        }
        derived := true;
        StepKeepsInv(state, Claim(id, name));
        state := Apply(state, Claim(id, name));
      }
      ghost var before := state;
      r := SubscribeInstance(inner, name, None, busOk);
      FollowSteps(before, inner, name, false, busOk);
      if r.Err? {
        if derived { Abandon(id, name); }
        return;
      }
      if derived {
        StepKeepsInv(state, BusAccepts(id));
        state := Apply(state, BusAccepts(id));
        var t := new Teardown(id, name, true, Some(inner));
        r := Ok(t);
      }
    }

    /** The first call detaches and releases; every later one does nothing. No call touches
        another subscription, so the other teardowns stay Issued. */
    method TearDown(t: Teardown)
      requires Valid() && Issued(t)
      modifies this, t`fired
      ensures Valid() && Issued(t) && t.fired
      ensures old(t.fired) ==> names == old(names) && state == old(state)
      ensures !old(t.fired) ==> names == if t.derived then old(names) - {t.group} else old(names)
      ensures forall id | id in old(state).subs && id != t.id && Some(id) != t.nested ::
                id in state.subs && state.subs[id] == old(state).subs[id]
    {
      hide Inv;
      if t.fired { return; }
      t.fired := true;
      if t.nested.Some? {
        StepKeepsInv(state, Unsubscribe(t.nested.value));
        state := Apply(state, Unsubscribe(t.nested.value));
      }
      StepKeepsInv(state, Unsubscribe(t.id));
      state := Apply(state, Unsubscribe(t.id));
      if t.derived {
        StepKeepsInv(state, ReleaseDetached(t.id));
        state := Apply(state, ReleaseDetached(t.id));
        ReleaseDerivedGroup(t.group);
      }
    }
  }

  /** The uninterrupted steps are legal and end as the code does. */
  lemma FollowSteps(s: State, id: nat, name: string, derived: bool, busOk: bool)
    requires Inv(s) && id !in s.subs && (derived ==> name !in s.names)
    ensures var steps := SubscribeSteps(id, name, derived, name in s.names, busOk);
            && Legal(s, steps)
            && Inv(Exec(s, steps))
            && Exec(s, steps).names == (if derived && busOk then s.names + {name} else s.names)
            && Exec(s, steps).subs == s.subs[id := Subscription(name, derived, if busOk then Attached else Gone)]
  {
    hide Inv;
    var first := if derived then Claim(id, name) else Explicit(id, name);
    var s1 := Apply(s, first);
    StepKeepsInv(s, first);
    if busOk {
      StepKeepsInv(s1, BusAccepts(id));
      ExecCons(s1, BusAccepts(id), []);
      ExecCons(s, first, [BusAccepts(id)]);
    } else {
      StepKeepsInv(s1, BusRefuses(id));
      var s2 := Apply(s1, BusRefuses(id));
      var rest := if derived then [ReleaseRefused(id)] else [];
      if derived {
        StepKeepsInv(s2, ReleaseRefused(id));
        ExecCons(s2, ReleaseRefused(id), []);
      }
      ExecCons(s1, BusRefuses(id), rest);
      ExecCons(s, first, [BusRefuses(id)] + rest);
      assert SubscribeSteps(id, name, derived, name in s.names, busOk) == [first] + ([BusRefuses(id)] + rest);
    }
  }

  lemma ExecCons(s: State, a: Action, rest: seq<Action>)
    requires Enabled(s, a) && Legal(Apply(s, a), rest)
    ensures Legal(s, [a] + rest) && Exec(s, [a] + rest) == Exec(Apply(s, a), rest)
  {
    assert ([a] + rest)[1..] == rest;
  }
}
