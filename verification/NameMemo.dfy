/** The copy-on-write memo that validations of one schema share: loads that read a
    published snapshot without a lock, stores that gather in a pending map under
    one, and every interleaving of their steps. */
module NameMemo {
  import opened Basics
  import opened RelaxSyntax

  type Key = QName
  type Val = Pattern

  const MAX_OPEN_MEMO: nat := 1024
  const PENDING_HITS_PUBLISH: nat := 8

  /** Where a thread stands.  From Looking and Storing on it holds the lock. */
  datatype Pc =
    | Idle
    | ReadSnapshot(k: Key)
    | ReadCount(k: Key)
    | AwaitLook(k: Key)
    | Looking(k: Key)
    | AwaitStore(k: Key, v: Val)
    | Storing(k: Key, v: Val)
    | SetCount
    | Decide
    | SwapSnapshot(found: Option<(Key, Val)>)
    | DropPending(found: Option<(Key, Val)>)
    | ClearCount(found: Option<(Key, Val)>)
    | Leave(found: Option<(Key, Val)>)
  {
    predicate Holds() { !(Idle? || ReadSnapshot? || ReadCount? || AwaitLook? || AwaitStore?) }
  }

  datatype Event = Hit(k: Key, v: Val) | Miss(k: Key)

  /** `puts` and `names` record every value put and every name taken so far;
      `events` what the loads answered. */
  datatype State = State(
    snapshot: map<Key, Val>,
    pending: map<Key, Val>,
    count: nat,
    hits: nat,
    owner: Option<nat>,
    pc: map<nat, Pc>,
    puts: set<(Key, Val)>,
    names: set<Key>,
    events: seq<Event>)

  const Start := State(map[], map[], 0, 0, None, map[], {}, {}, [])

  datatype Action = BeginLoad(t: nat, k: Key) | BeginStore(t: nat, k: Key, v: Val) | Run(t: nat)

  function At(s: State, t: nat): Pc { if t in s.pc then s.pc[t] else Idle }

  function Go(s: State, t: nat, p: Pc): State { s.(pc := s.pc[t := p]) }

  /** A step outside the lock; a thread waiting for a held lock stays where it is. */
  function FreeStep(s: State, t: nat): State {
    match At(s, t)
    case ReadSnapshot(k) =>
      if k in s.snapshot then Go(s, t, Idle).(events := s.events + [Hit(k, s.snapshot[k])])
      else Go(s, t, ReadCount(k))
    case ReadCount(k) =>
      if s.count == 0 then Go(s, t, Idle).(events := s.events + [Miss(k)]) else Go(s, t, AwaitLook(k))
    case AwaitLook(k) => if s.owner.Some? then s else Go(s, t, Looking(k)).(owner := Some(t))
    case AwaitStore(k, v) => if s.owner.Some? then s else Go(s, t, Storing(k, v)).(owner := Some(t))
    case _ => s
  }

  /** The look-up under the lock, which publishes after enough hits. */
  function Look(s: State, t: nat, k: Key): State {
    if k !in s.pending then Go(s, t, Leave(None)).(events := s.events + [Miss(k)])
    else
      var found := Some((k, s.pending[k]));
      var next := if s.hits + 1 >= PENDING_HITS_PUBLISH then SwapSnapshot(found) else Leave(found);
      Go(s, t, next).(hits := s.hits + 1, events := s.events + [Hit(k, s.pending[k])])
  }

  /** A step inside the lock. */
  function LockedStep(s: State, t: nat): State {
    match At(s, t)
    case Looking(k) => Look(s, t, k)
    case Storing(k, v) =>
      if k !in s.pending && |s.snapshot| + |s.pending| >= MAX_OPEN_MEMO then Go(s, t, Leave(None))
      else Go(s, t, SetCount).(pending := s.pending[k := v], puts := s.puts + {(k, v)}, names := s.names + {k})
    case SetCount => Go(s, t, Decide).(count := |s.pending|)
    case Decide => Go(s, t, if |s.pending| > |s.snapshot| then SwapSnapshot(None) else Leave(None))
    case SwapSnapshot(f) => Go(s, t, DropPending(f)).(snapshot := s.snapshot + s.pending)
    case DropPending(f) => Go(s, t, ClearCount(f)).(pending := map[])
    case ClearCount(f) => Go(s, t, Leave(f)).(count := 0, hits := 0)
    case Leave(_) => Go(s, t, Idle).(owner := None)
    case _ => s
  }

  function Step(s: State, t: nat): State {
    if At(s, t).Holds() then LockedStep(s, t) else FreeStep(s, t)
  }

  function Apply(s: State, a: Action): State {
    match a
    case Run(t) => Step(s, t)
    case BeginLoad(t, k) => if At(s, t).Idle? then Go(s, t, ReadSnapshot(k)) else s
    case BeginStore(t, k, v) => if At(s, t).Idle? then Go(s, t, AwaitStore(k, v)) else s
  }

  /** The state after an interleaving of actions. */
  function After(s: State, run: seq<Action>): State
    decreases |run|
  {
    if run == [] then s else Apply(After(s, run[..|run| - 1]), run[|run| - 1])
  }

  // ---- what every step keeps ---------------------------------------------

  /** Exactly the thread that owns the lock is inside a locked section. */
  ghost predicate Exclusive(s: State) { forall t: nat :: At(s, t).Holds() <==> s.owner == Some(t) }

  ghost predicate FromPuts(s: State) {
    && (forall k | k in s.snapshot :: (k, s.snapshot[k]) in s.puts)
    && (forall k | k in s.pending :: (k, s.pending[k]) in s.puts)
    && (forall i | 0 <= i < |s.events| && s.events[i].Hit? :: (s.events[i].k, s.events[i].v) in s.puts)
  }

  ghost predicate Bounded(s: State) {
    && s.names == s.snapshot.Keys + s.pending.Keys
    && |s.names| <= MAX_OPEN_MEMO
  }

  /** The count is right but where the lock's owner has yet to set it; a snapshot
      just swapped in holds all that is pending. */
  ghost predicate Counted(s: State) {
    var p := if s.owner.Some? then At(s, s.owner.value) else Idle;
    && (!p.SetCount? && !p.ClearCount? ==> s.count == |s.pending|)
    && (p.DropPending? ==> s.pending.Keys <= s.snapshot.Keys)
    && (p.ClearCount? ==> s.pending == map[])
  }

  ghost predicate Inv(s: State) { Exclusive(s) && FromPuts(s) && Bounded(s) && Counted(s) }

  lemma StoreBounded(s: State, k: Key)
    requires Bounded(s) && (k in s.pending || |s.snapshot| + |s.pending| < MAX_OPEN_MEMO)
    ensures |s.names + {k}| <= MAX_OPEN_MEMO
  {
    if k in s.pending {
      assert s.names + {k} == s.names;
    } else {
      assert |s.snapshot.Keys + s.pending.Keys| <= |s.snapshot.Keys| + |s.pending.Keys|;
      assert |s.snapshot.Keys| == |s.snapshot| && |s.pending.Keys| == |s.pending|;
    }
  }

  /** How a step moves its thread and the lock. */
  lemma Moves(s: State, t: nat)
    requires Exclusive(s)
    ensures var s' := Step(s, t);
      && (s' == s || s'.pc == s.pc[t := At(s', t)])
      && (At(s', t).Holds() <==> s'.owner == Some(t))
      && (s.owner != Some(t) && s.owner.Some? ==> s'.owner == s.owner)
      && (s.owner == Some(t) || s.owner.None? ==> s'.owner.None? || s'.owner == Some(t))
  {
    assert At(s, t).Holds() <==> s.owner == Some(t);
    if At(s, t).Holds() { MovesLocked(s, t); } else { MovesFree(s, t); }
  }

  lemma MovesLocked(s: State, t: nat)
    requires s.owner == Some(t) && At(s, t).Holds()
    ensures var s' := LockedStep(s, t);
      && s'.pc == s.pc[t := At(s', t)]
      && s'.owner == if At(s', t).Holds() then Some(t) else None
  {
    match At(s, t)
    case Looking(k) =>
    case Storing(k, v) =>
    case Leave(_) =>
    case _ =>
  }

  lemma MovesFree(s: State, t: nat)
    requires s.owner != Some(t) && !At(s, t).Holds()
    ensures var s' := FreeStep(s, t);
      && (s' == s || s'.pc == s.pc[t := At(s', t)])
      && (At(s', t).Holds() <==> s'.owner == Some(t))
      && (s'.owner == s.owner || (s.owner.None? && s'.owner == Some(t)))
  {
  }

  lemma StepExclusive(s: State, t: nat)
    requires Exclusive(s)
    ensures Exclusive(Step(s, t))
  {
    var s' := Step(s, t);
    Moves(s, t);
    forall u: nat | u != t ensures At(s', u) == At(s, u) {}
  }

  /** What a step does to the maps and the record of answers. */
  ghost predicate Changed(s: State, s': State, p: Pc) {
    || (s'.snapshot == s.snapshot && s'.pending == s.pending && s'.puts == s.puts && s'.names == s.names
        && Noted(s, s'.events))
    || (p.Storing? && s'.events == s.events && s'.snapshot == s.snapshot
        && (p.k in s.pending || |s.snapshot| + |s.pending| < MAX_OPEN_MEMO)
        && s'.pending == s.pending[p.k := p.v]
        && s'.puts == s.puts + {(p.k, p.v)} && s'.names == s.names + {p.k})
    || (p.SwapSnapshot? && s'.events == s.events && s'.snapshot == s.snapshot + s.pending
        && s'.pending == s.pending && s'.puts == s.puts && s'.names == s.names)
    || (p.DropPending? && s'.events == s.events && s'.snapshot == s.snapshot
        && s'.pending == map[] && s'.puts == s.puts && s'.names == s.names)
  }

  /** At most one more answer, right by one of the maps. */
  ghost predicate Noted(s: State, events: seq<Event>) {
    || events == s.events
    || (exists k :: events == s.events + [Miss(k)])
    || (exists k :: k in s.snapshot && events == s.events + [Hit(k, s.snapshot[k])])
    || (exists k :: k in s.pending && events == s.events + [Hit(k, s.pending[k])])
  }

  lemma Changes(s: State, t: nat)
    ensures Changed(s, Step(s, t), At(s, t))
  {
    if At(s, t).Holds() { ChangesLocked(s, t); } else { ChangesFree(s, t); }
  }

  lemma ChangesLocked(s: State, t: nat)
    requires At(s, t).Holds()
    ensures Changed(s, LockedStep(s, t), At(s, t))
  {
    match At(s, t)
    case Looking(k) =>
    case Storing(k, v) =>
    case _ =>
  }

  lemma ChangesFree(s: State, t: nat)
    requires !At(s, t).Holds()
    ensures Changed(s, FreeStep(s, t), At(s, t))
  {
    match At(s, t)
    case ReadSnapshot(k) =>
    case ReadCount(k) =>
    case _ =>
  }

  lemma StepFromPuts(s: State, t: nat)
    requires FromPuts(s)
    ensures FromPuts(Step(s, t))
  {
    Changes(s, t);
    var s' := Step(s, t);
    forall i | 0 <= i < |s'.events| && s'.events[i].Hit?
      ensures (s'.events[i].k, s'.events[i].v) in s'.puts
    {
      if i < |s.events| { assert s'.events[i] == s.events[i]; }
    }
  }

  lemma StoredBounded(s: State, s': State, k: Key, v: Val)
    requires Bounded(s) && (k in s.pending || |s.snapshot| + |s.pending| < MAX_OPEN_MEMO)
    requires s'.snapshot == s.snapshot && s'.pending == s.pending[k := v] && s'.names == s.names + {k}
    ensures Bounded(s')
  {
    StoreBounded(s, k);
    assert s.pending[k := v].Keys == s.pending.Keys + {k};
    assert s'.names == s'.snapshot.Keys + s'.pending.Keys;
  }

  /** Publishing moves names from one map to the other. */
  lemma MovedBounded(s: State, s': State)
    requires Bounded(s) && s'.names == s.names
    requires s'.snapshot.Keys + s'.pending.Keys == s.snapshot.Keys + s.pending.Keys
    ensures Bounded(s')
  {
  }

  lemma StepBounded(s: State, t: nat)
    requires Inv(s)
    ensures Bounded(Step(s, t))
  {
    Changes(s, t);
    assert At(s, t).Holds() ==> s.owner == Some(t);
    ChangedBounded(s, Step(s, t), At(s, t));
  }

  lemma ChangedBounded(s: State, s': State, p: Pc)
    requires Bounded(s) && Changed(s, s', p)
    requires p.DropPending? ==> s.pending.Keys <= s.snapshot.Keys
    ensures Bounded(s')
  {
    if p.Storing? && s'.names != s.names {
      StoredBounded(s, s', p.k, p.v);
    } else {
      assert s'.snapshot.Keys + s'.pending.Keys == s.snapshot.Keys + s.pending.Keys;
      MovedBounded(s, s');
    }
  }

  lemma ChangedGrows(s: State, s': State, p: Pc)
    requires Changed(s, s', p)
    ensures s.puts <= s'.puts && s.names <= s'.names && s.events <= s'.events
  {
  }

  lemma StepCounted(s: State, t: nat)
    requires Exclusive(s) && Counted(s)
    ensures Counted(Step(s, t))
  {
    if At(s, t).Holds() { LockedCounted(s, t); } else { FreeCounted(s, t); }
  }

  lemma LockedCounted(s: State, t: nat)
    requires s.owner == Some(t) && At(s, t).Holds() && Counted(s)
    ensures Counted(LockedStep(s, t))
  {
    MovesLocked(s, t);
  }

  lemma FreeCounted(s: State, t: nat)
    requires s.owner != Some(t) && !At(s, t).Holds() && Counted(s)
    ensures Counted(FreeStep(s, t))
  {
    MovesFree(s, t);
    if s.owner.Some? { assert At(FreeStep(s, t), s.owner.value) == At(s, s.owner.value); }
  }

  lemma ApplyKeeps(s: State, a: Action)
    requires Inv(s)
    ensures Inv(Apply(s, a))
    ensures s.puts <= Apply(s, a).puts && s.names <= Apply(s, a).names
    ensures s.events <= Apply(s, a).events
  {
    if a.Run? {
      StepExclusive(s, a.t);
      StepFromPuts(s, a.t);
      StepBounded(s, a.t);
      StepCounted(s, a.t);
      Changes(s, a.t);
      ChangedGrows(s, Step(s, a.t), At(s, a.t));
    } else {
      BeginKeeps(s, a);
    }
  }

  lemma BeginKeeps(s: State, a: Action)
    requires Inv(s) && !a.Run?
    ensures Inv(Apply(s, a))
    ensures var s' := Apply(s, a); s.puts == s'.puts && s.names == s'.names && s.events == s'.events
  {
    var s' := Apply(s, a);
    assert At(s, a.t).Idle? ==> s.owner != Some(a.t);
    forall u: nat ensures At(s', u).Holds() <==> s'.owner == Some(u) {
      assert u != a.t ==> At(s', u) == At(s, u);
    }
    if s.owner.Some? { assert At(s', s.owner.value) == At(s, s.owner.value); }
    assert FromPuts(s') && Bounded(s');
  }

  /** Every interleaving, from the empty memo. */
  lemma {:induction false} RunKeeps(run: seq<Action>)
    ensures Inv(After(Start, run))
    decreases |run|
  {
    if run != [] {
      var before := run[..|run| - 1];
      RunKeeps(before);
      ApplyKeeps(After(Start, before), run[|run| - 1]);
    }
  }

  /** In every interleaving a hit answers with a value some store put under that
      name, the memo holds exactly the names taken and at most so many, and the
      count is the number pending whenever the lock is free. */
  lemma EveryRun(run: seq<Action>)
    ensures var s := After(Start, run);
      && (forall i | 0 <= i < |s.events| && s.events[i].Hit? :: (s.events[i].k, s.events[i].v) in s.puts)
      && s.snapshot.Keys + s.pending.Keys == s.names && |s.names| <= MAX_OPEN_MEMO
      && (s.owner.None? ==> s.count == |s.pending|)
  {
    RunKeeps(run);
  }

  lemma StepLosesNothing(run: seq<Action>, a: Action)
    ensures After(Start, run).names <= After(Start, run + [a]).names
    ensures After(Start, run).puts <= After(Start, run + [a]).puts
  {
    RunKeeps(run);
    var s := After(Start, run);
    var whole := run + [a];
    assert whole[..|whole| - 1] == run && whole[|whole| - 1] == a;
    ApplyKeeps(s, a);
  }

  /** What was stored stays: names and puts only grow along a run. */
  lemma {:induction false} NothingLost(run: seq<Action>, more: seq<Action>)
    ensures After(Start, run).names <= After(Start, run + more).names
    ensures After(Start, run).puts <= After(Start, run + more).puts
    decreases |more|
  {
    if more == [] {
      assert run + more == run;
    } else {
      var init := more[..|more| - 1];
      assert run + more == (run + init) + [more[|more| - 1]];
      NothingLost(run, init);
      StepLosesNothing(run + init, more[|more| - 1]);
    }
  }

  /** If every value put under a name is the one answer for it, so is every hit. */
  lemma HitsAreAnswers(run: seq<Action>, answer: Key -> Val)
    requires forall p | p in After(Start, run).puts :: p.1 == answer(p.0)
    ensures var s := After(Start, run);
      forall i | 0 <= i < |s.events| && s.events[i].Hit? :: s.events[i].v == answer(s.events[i].k)
  {
    EveryRun(run);
    var s := After(Start, run);
    forall i | 0 <= i < |s.events| && s.events[i].Hit? ensures s.events[i].v == answer(s.events[i].k) {
      assert (s.events[i].k, s.events[i].v) in s.puts;
    }
  }

  // ---- loads undisturbed and disturbed -----------------------------------

  /** A load of thread `t` that runs alone, from its first step to its answer. */
  function Load(s: State, t: nat, k: Key): State {
    var a := Step(Go(s, t, ReadSnapshot(k)), t);
    if At(a, t).Idle? then a
    else
      var b := Step(a, t);
      if At(b, t).Idle? then b else Step(Step(b, t), t)
  }

  /** Undisturbed, the lock being free, a load hits exactly when the name is held. */
  lemma SoloLoad(s: State, t: nat, k: Key)
    requires Inv(s) && At(s, t).Idle? && s.owner.None?
    ensures k in s.names ==> exists v :: Load(s, t, k).events == s.events + [Hit(k, v)] && (k, v) in s.puts
    ensures k !in s.names ==> Load(s, t, k).events == s.events + [Miss(k)]
  {
    var a := Step(Go(s, t, ReadSnapshot(k)), t);
    if k in s.snapshot {
      assert a.events == s.events + [Hit(k, s.snapshot[k])];
    } else {
      SoloCount(s, a, t, k);
    }
  }

  lemma SoloCount(s: State, a: State, t: nat, k: Key)
    requires Inv(s) && At(s, t).Idle? && s.owner.None? && k !in s.snapshot
    requires a == Step(Go(s, t, ReadSnapshot(k)), t)
    ensures At(a, t) == ReadCount(k)
    ensures s.count == 0 ==> Step(a, t).events == s.events + [Miss(k)] && At(Step(a, t), t).Idle?
    ensures s.count > 0 ==> At(Step(a, t), t) == AwaitLook(k)
    ensures s.count > 0 ==>
      Step(Step(Step(a, t), t), t).events == s.events + [if k in s.pending then Hit(k, s.pending[k]) else Miss(k)]
    ensures s.count == |s.pending|
  {
    assert At(a, t) == ReadCount(k) && a.events == s.events && a.pending == s.pending && a.owner == None;
    if s.count > 0 {
      var b := Step(a, t);
      assert At(b, t) == AwaitLook(k) && b.events == s.events && b.pending == s.pending && b.owner == None;
      SoloLook(b, t, k);
    }
  }

  lemma SoloLook(b: State, t: nat, k: Key)
    requires At(b, t) == AwaitLook(k) && b.owner.None?
    ensures Step(Step(b, t), t).events
         == b.events + [if k in b.pending then Hit(k, b.pending[k]) else Miss(k)]
  {
    var c := Step(b, t);
    assert At(c, t) == Looking(k) && c.events == b.events && c.pending == b.pending;
    assert Step(c, t) == Look(c, t, k);
  }

  /** Steps by which thread `t` begins to load `k` while thread `u` publishes. */
  function Overtaken(t: nat, u: nat, k: Key): seq<Action> {
    [BeginLoad(t, k), Run(t), Run(u), Run(u), Run(u), Run(t)]
  }

  /** A load may miss a name that was held from before it began: its snapshot was
      read before a publication, the count after. */
  lemma LoadOvertaken(s: State, t: nat, u: nat, k: Key)
    requires Inv(s) && t != u && At(s, t).Idle? && At(s, u) == SwapSnapshot(None)
    requires k in s.pending && k !in s.snapshot
    ensures var after := After(s, Overtaken(t, u, k));
      k in s.names && after.events == s.events + [Miss(k)] && k in after.names
  {
    var run := Overtaken(t, u, k);
    var s2 := Apply(Apply(s, run[0]), run[1]);
    assert At(s2, t) == ReadCount(k) && At(s2, u) == SwapSnapshot(None) && s2.events == s.events;
    assert s2.names == s.names;
    Publish(s2, t, u, k);
    Prefixes(s, run);
  }

  /** The steps of a store, up to where it publishes what is pending. */
  function StoreOf(u: nat, k: Key, v: Val): seq<Action> { [BeginStore(u, k, v), Run(u), Run(u), Run(u), Run(u)] }

  /** So from the empty memo: one thread stores a name, another begins to load it
      afterwards, and misses. */
  lemma SpuriousMiss(t: nat, u: nat, k: Key, v: Val)
    requires t != u
    ensures var s := After(Start, StoreOf(u, k, v));
      k in s.names && (k, v) in s.puts && s.events == []
    ensures After(Start, StoreOf(u, k, v) + Overtaken(t, u, k)).events == [Miss(k)]
  {
    var s := After(Start, StoreOf(u, k, v));
    Stored(t, u, k, v);
    RunKeeps(StoreOf(u, k, v));
    LoadOvertaken(s, t, u, k);
    AfterBoth(Start, StoreOf(u, k, v), Overtaken(t, u, k));
  }

  lemma Stored(t: nat, u: nat, k: Key, v: Val)
    requires t != u
    ensures ToPublish(After(Start, StoreOf(u, k, v)), t, u, k, v)
  {
    var run := StoreOf(u, k, v);
    var s1 := Apply(Start, run[0]);
    assert At(s1, u) == AwaitStore(k, v) && At(s1, t).Idle?;
    FivePrefixes(run);
    LocksAndPuts(s1, t, u, k, v);
    CountsAndDecides(Step(Step(s1, u), u), t, u, k, v);
  }

  /** A store is about to publish. */
  predicate ToPublish(s: State, t: nat, u: nat, k: Key, v: Val) {
    && At(s, t).Idle? && At(s, u) == SwapSnapshot(None) && s.events == []
    && k in s.pending && k !in s.snapshot && k in s.names && (k, v) in s.puts
  }

  /** It has put its entry. */
  predicate HasPut(s: State, t: nat, u: nat, k: Key, v: Val) {
    && At(s, t).Idle? && At(s, u) == SetCount && s.events == []
    && s.pending == map[k := v] && s.snapshot == map[] && k in s.names && (k, v) in s.puts
  }

  lemma LocksAndPuts(s: State, t: nat, u: nat, k: Key, v: Val)
    requires t != u && At(s, t).Idle? && At(s, u) == AwaitStore(k, v) && s.owner.None? && s.events == []
    requires s.pending == map[] && s.snapshot == map[]
    ensures HasPut(Step(Step(s, u), u), t, u, k, v)
  {
    var a := Step(s, u);
    assert At(a, u) == Storing(k, v) && At(a, t).Idle? && a.pending == map[] && a.snapshot == map[] && a.events == [];
  }

  lemma CountsAndDecides(s: State, t: nat, u: nat, k: Key, v: Val)
    requires t != u && HasPut(s, t, u, k, v)
    ensures ToPublish(Step(Step(s, u), u), t, u, k, v)
  {
    var a := Step(s, u);
    assert At(a, u) == Decide && At(a, t).Idle? && a.pending == s.pending && a.snapshot == map[] && a.events == [];
    assert |a.pending| == 1;
  }

  lemma FivePrefixes(run: seq<Action>)
    requires |run| == 5
    ensures After(Start, run) == Apply(Apply(Apply(Apply(Apply(Start, run[0]), run[1]), run[2]), run[3]), run[4])
  {
    assert run[..4][..3] == run[..3] && run[..3][..2] == run[..2] && run[..2][..1] == run[..1] && run[..1][..0] == [];
    AfterLast(Start, run);
    AfterLast(Start, run[..4]);
    AfterLast(Start, run[..3]);
    AfterLast(Start, run[..2]);
    AfterLast(Start, run[..1]);
  }

  lemma AfterLast(s: State, run: seq<Action>)
    requires run != []
    ensures After(s, run) == Apply(After(s, run[..|run| - 1]), run[|run| - 1])
  {
  }

  lemma {:induction false} AfterBoth(s: State, run: seq<Action>, more: seq<Action>)
    ensures After(s, run + more) == After(After(s, run), more)
    decreases |more|
  {
    if more == [] {
      assert run + more == run;
    } else {
      var (n, whole) := (|more| - 1, run + more);
      AfterBoth(s, run, more[..n]);
      assert whole[..|whole| - 1] == run + more[..n] && whole[|whole| - 1] == more[n];
      AfterLast(s, whole);
      AfterLast(After(s, run), more);
    }
  }

  lemma Publish(s: State, t: nat, u: nat, k: Key)
    requires t != u && At(s, t) == ReadCount(k) && At(s, u) == SwapSnapshot(None)
    ensures var s' := Step(Step(Step(Step(s, u), u), u), t);
      s'.events == s.events + [Miss(k)] && s'.names == s.names
  {
    var s3 := Step(s, u);
    assert At(s3, u) == DropPending(None) && At(s3, t) == ReadCount(k) && s3.events == s.events && s3.names == s.names;
    var s4 := Step(s3, u);
    assert At(s4, u) == ClearCount(None) && At(s4, t) == ReadCount(k) && s4.events == s.events && s4.names == s.names;
    var s5 := Step(s4, u);
    assert s5.count == 0 && At(s5, t) == ReadCount(k) && s5.events == s.events && s5.names == s.names;
  }

  lemma {:induction false} Prefixes(s: State, run: seq<Action>)
    requires |run| == 6
    ensures After(s, run) == Apply(Apply(Apply(Apply(Apply(Apply(s,
              run[0]), run[1]), run[2]), run[3]), run[4]), run[5])
  {
    assert run[..5][..4] == run[..4] && run[..4][..3] == run[..3] && run[..3][..2] == run[..2];
    assert run[..2][..1] == run[..1] && run[..1][..0] == [];
    assert After(s, run[..1]) == Apply(s, run[0]);
    assert After(s, run[..2]) == Apply(After(s, run[..1]), run[1]);
    assert After(s, run[..3]) == Apply(After(s, run[..2]), run[2]);
    assert After(s, run[..4]) == Apply(After(s, run[..3]), run[3]);
    assert After(s, run[..5]) == Apply(After(s, run[..4]), run[4]);
  }
}
