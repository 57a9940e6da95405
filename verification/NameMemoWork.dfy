/** What the name memo costs over a run, when it publishes, and what an undisturbed store
    does. */
module NameMemoWork {
  import opened Basics
  import opened NameMemo

  // ---- when it publishes -------------------------------------------------

  function Owner(s: State): Pc { if s.owner.Some? then At(s, s.owner.value) else Idle }

  predicate Publishing(p: Pc) { p.SwapSnapshot? || p.DropPending? || p.ClearCount? }

  /** Nothing is due to be published but where the lock's owner is about to. */
  predicate Due(s: State) {
    var p := Owner(s);
    && (s.hits < PENDING_HITS_PUBLISH || Publishing(p))
    && (|s.pending| <= |s.snapshot| || p.SetCount? || p.Decide? || Publishing(p))
    && (p == SwapSnapshot(None) ==> |s.pending| > |s.snapshot|)
    && (p.SwapSnapshot? && p.found.Some? ==> s.hits >= PENDING_HITS_PUBLISH)
  }

  // ---- what it costs -----------------------------------------------------

  /** Stores that put something, entries copied as they publish, loads that hit under the
      lock, and publications by these. */
  datatype Tally = Tally(stores: nat, copied: nat, lockHits: nat, hitPublishes: nat)

  const NONE_YET := Tally(0, 0, 0, 0)

  function Counting(s: State, n: Tally, a: Action): Tally {
    if !a.Run? then n
    else
      match At(s, a.t)
      case Storing(k, _) =>
        if k !in s.pending && |s.snapshot| + |s.pending| >= MAX_OPEN_MEMO then n else n.(stores := n.stores + 1)
      case Looking(k) => if k in s.pending then n.(lockHits := n.lockHits + 1) else n
      case SwapSnapshot(found) =>
        if found.None? then n.(copied := n.copied + |s.snapshot| + |s.pending|)
        else n.(hitPublishes := n.hitPublishes + 1)
      case _ => n
  }

  function Count(run: seq<Action>): Tally
    decreases |run|
  {
    if run == [] then NONE_YET
    else
      var before := run[..|run| - 1];
      Counting(After(Start, before), Count(before), run[|run| - 1])
  }

  /** Each store pays for two entries: what is pending has not been copied yet. */
  predicate PaidFor(s: State, n: Tally) {
    var p := Owner(s);
    && n.copied + (if p.DropPending? then 0 else 2 * |s.pending|) <= 2 * n.stores
    && PENDING_HITS_PUBLISH * n.hitPublishes + (if p.DropPending? || p.ClearCount? then 0 else s.hits) <= n.lockHits
  }

  lemma OwnerMoves(s: State, t: nat)
    requires Exclusive(s)
    ensures At(s, t).Holds() ==> s.owner == Some(t) && Owner(s) == At(s, t)
    ensures At(s, t).Holds() ==> Owner(Step(s, t)) == if At(Step(s, t), t).Holds() then At(Step(s, t), t) else Idle
    ensures var p := Owner(Step(s, t));
            !At(s, t).Holds() ==> p == Owner(s) || (Owner(s).Idle? && (p.Looking? || p.Storing?))
  {
    assert At(s, t).Holds() <==> s.owner == Some(t);
    if At(s, t).Holds() { MovesLocked(s, t); } else { FreeOwner(s, t); }
  }

  lemma FreeOwner(s: State, t: nat)
    requires s.owner != Some(t) && !At(s, t).Holds()
    ensures var s' := FreeStep(s, t);
            Owner(s') == Owner(s) || (Owner(s).Idle? && (Owner(s').Looking? || Owner(s').Storing?))
  {
    MovesFree(s, t);
    if s.owner.Some? { assert At(FreeStep(s, t), s.owner.value) == At(s, s.owner.value); }
  }

  lemma StepWorks(s: State, n: Tally, t: nat)
    requires Exclusive(s) && Counted(s) && Due(s) && PaidFor(s, n)
    ensures Due(Step(s, t)) && PaidFor(Step(s, t), Counting(s, n, Run(t)))
  {
    OwnerMoves(s, t);
    if At(s, t).Holds() { LockedWorks(s, n, t); } else { FreeWorks(s, n, t); }
  }

  lemma FreeWorks(s: State, n: Tally, t: nat)
    requires !At(s, t).Holds() && Due(s) && PaidFor(s, n)
    requires var p := Owner(Step(s, t)); p == Owner(s) || (Owner(s).Idle? && (p.Looking? || p.Storing?))
    ensures Due(Step(s, t)) && PaidFor(Step(s, t), Counting(s, n, Run(t)))
  {
    var s' := Step(s, t);
    assert s'.snapshot == s.snapshot && s'.pending == s.pending && s'.hits == s.hits;
  }

  /** A step of the lock's owner. */
  ghost predicate Owned(s: State, n: Tally, t: nat) {
    && At(s, t).Holds() && s.owner == Some(t) && Counted(s) && Due(s) && PaidFor(s, n)
    && Owner(Step(s, t)) == if At(Step(s, t), t).Holds() then At(Step(s, t), t) else Idle
  }

  lemma LockedWorks(s: State, n: Tally, t: nat)
    requires Owned(s, n, t)
    ensures Due(Step(s, t)) && PaidFor(Step(s, t), Counting(s, n, Run(t)))
  {
    match At(s, t)
    case Storing(_, _) => StoringWorks(s, n, t);
    case Looking(_) => LookingWorks(s, n, t);
    case SwapSnapshot(_) => SwapWorks(s, n, t);
    case _ => OtherWorks(s, n, t);
  }

  lemma StoringWorks(s: State, n: Tally, t: nat)
    requires Owned(s, n, t) && At(s, t).Storing?
    ensures Due(Step(s, t)) && PaidFor(Step(s, t), Counting(s, n, Run(t)))
  {
    var Storing(k, v) := At(s, t);
    assert |s.pending[k := v]| <= |s.pending| + 1;
  }

  lemma LookingWorks(s: State, n: Tally, t: nat)
    requires Owned(s, n, t) && At(s, t).Looking?
    ensures Due(Step(s, t)) && PaidFor(Step(s, t), Counting(s, n, Run(t)))
  {
    var s' := Step(s, t);
    assert s'.snapshot == s.snapshot && s'.pending == s.pending;
  }

  lemma SwapWorks(s: State, n: Tally, t: nat)
    requires Owned(s, n, t) && At(s, t).SwapSnapshot?
    ensures Due(Step(s, t)) && PaidFor(Step(s, t), Counting(s, n, Run(t)))
  {
  }

  lemma OtherWorks(s: State, n: Tally, t: nat)
    requires Owned(s, n, t) && !At(s, t).Storing? && !At(s, t).Looking? && !At(s, t).SwapSnapshot?
    ensures Due(Step(s, t)) && PaidFor(Step(s, t), Counting(s, n, Run(t)))
  {
  }

  lemma BeginWorks(s: State, n: Tally, a: Action)
    requires Exclusive(s) && Due(s) && PaidFor(s, n) && !a.Run?
    ensures Due(Apply(s, a)) && PaidFor(Apply(s, a), Counting(s, n, a))
  {
    assert At(s, a.t).Idle? ==> s.owner != Some(a.t);
    var s' := Apply(s, a);
    assert Owner(s') == Owner(s);
  }

  lemma {:induction false} RunWorks(run: seq<Action>)
    ensures Due(After(Start, run)) && PaidFor(After(Start, run), Count(run))
    decreases |run|
  {
    if run != [] {
      var (before, a) := (run[..|run| - 1], run[|run| - 1]);
      var s := After(Start, before);
      RunWorks(before);
      RunKeeps(before);
      if a.Run? { StepWorks(s, Count(before), a.t); } else { BeginWorks(s, Count(before), a); }
    }
  }

  /** In every interleaving the entries that stores copy as they publish are at most twice
      the stores; a load under the lock publishes at most once in eight hits there; and while
      the lock is free no more is pending than published. */
  lemma WorkBounded(run: seq<Action>)
    ensures Count(run).copied <= 2 * Count(run).stores
    ensures PENDING_HITS_PUBLISH * Count(run).hitPublishes <= Count(run).lockHits
    ensures var s := After(Start, run);
            s.owner.None? ==> |s.pending| <= |s.snapshot| && s.hits < PENDING_HITS_PUBLISH
  {
    RunWorks(run);
  }

  // ---- an undisturbed store ----------------------------------------------

  /** Thread `t` alone, for so many steps or until it is done. */
  function Finish(s: State, t: nat, steps: nat): State
    decreases steps
  {
    if steps == 0 || At(s, t).Idle? then s else Finish(Step(s, t), t, steps - 1)
  }

  /** The lock is free and the memo holds these. */
  predicate Settled(s: State, t: nat, snapshot: map<Key, Val>, pending: map<Key, Val>) {
    At(s, t).Idle? && s.owner.None? && s.snapshot == snapshot && s.pending == pending
  }

  /** Undisturbed, the lock being free, a store puts its value unless the memo is full, and
      publishes what is pending if that is more than is published. */
  lemma SoloStore(s: State, t: nat, k: Key, v: Val)
    requires Inv(s) && At(s, t).Idle? && s.owner.None?
    ensures var s' := Finish(Go(s, t, AwaitStore(k, v)), t, 8);
            var pending := s.pending[k := v];
            if k !in s.pending && |s.snapshot| + |s.pending| >= MAX_OPEN_MEMO
            then Settled(s', t, s.snapshot, s.pending) && s'.puts == s.puts && s'.names == s.names
            else if |pending| > |s.snapshot| then
              Settled(s', t, s.snapshot + pending, map[]) && s'.puts == s.puts + {(k, v)} && s'.names == s.names + {k}
            else Settled(s', t, s.snapshot, pending) && s'.puts == s.puts + {(k, v)} && s'.names == s.names + {k}
  {
    var a := Step(Go(s, t, AwaitStore(k, v)), t);
    assert At(a, t) == Storing(k, v) && a.owner == Some(t) && Same(s, a);
    if k !in s.pending && |s.snapshot| + |s.pending| >= MAX_OPEN_MEMO {
      var b := Step(a, t);
      assert At(b, t) == Leave(None) && Same(s, b);
      LeavesThen(b, t, 6);
    } else {
      Puts(s, a, t, k, v);
    }
  }

  predicate Same(s: State, s': State) {
    && s'.snapshot == s.snapshot && s'.pending == s.pending && s'.puts == s.puts && s'.names == s.names
    && s'.events == s.events
  }

  lemma LeavesThen(b: State, t: nat, n: nat)
    requires At(b, t).Leave? && n > 0
    ensures var c := Finish(b, t, n); At(c, t).Idle? && c.owner.None? && Same(b, c)
  {
    var c := Step(b, t);
    assert At(c, t).Idle?;
  }

  lemma Puts(s: State, a: State, t: nat, k: Key, v: Val)
    requires At(a, t) == Storing(k, v) && a.owner == Some(t) && Same(s, a)
    requires k in s.pending || |s.snapshot| + |s.pending| < MAX_OPEN_MEMO
    ensures var s' := Finish(a, t, 7);
            var pending := s.pending[k := v];
            && s'.puts == s.puts + {(k, v)} && s'.names == s.names + {k}
            && if |pending| > |s.snapshot| then Settled(s', t, s.snapshot + pending, map[])
               else Settled(s', t, s.snapshot, pending)
  {
    var b := Step(a, t);
    assert At(b, t) == SetCount;
    var c := Step(b, t);
    assert At(c, t) == Decide && Same(b, c);
    var d := Step(c, t);
    assert Same(b, d);
    assert Finish(a, t, 7) == Finish(b, t, 6) == Finish(c, t, 5) == Finish(d, t, 4);
    if At(d, t).Leave? { LeavesThen(d, t, 4); } else { Publishes(d, t); }
  }

  lemma Publishes(d: State, t: nat)
    requires At(d, t) == SwapSnapshot(None)
    ensures var s' := Finish(d, t, 4);
            Settled(s', t, d.snapshot + d.pending, map[]) && s'.puts == d.puts && s'.names == d.names
  {
    var e := Step(d, t);
    assert At(e, t) == DropPending(None);
    var f := Step(e, t);
    assert At(f, t) == ClearCount(None);
    var g := Step(f, t);
    assert At(g, t) == Leave(None);
    assert Finish(d, t, 4) == Finish(e, t, 3) == Finish(f, t, 2) == Finish(g, t, 1);
    LeavesThen(g, t, 1);
  }
}
