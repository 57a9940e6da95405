/** Patterns of a streamed parse: the set of steps matched so far, carried from parent
    to child, against where on the path the steps are placed. */
module BurstMatch {
  import opened Basics

  /** A name test, reached as a child or, with `descendant`, at any depth. */
  datatype Step = Step(uri: string, local: string, anyUri: bool, anyLocal: bool, descendant: bool)

  predicate Takes(s: Step, q: QName) { (s.anyUri || s.uri == q.uri) && (s.anyLocal || s.local == q.local) }

  /** The steps matched by an element named `q` whose parent matched the set `s`. */
  function Advance(steps: seq<Step>, s: set<nat>, q: QName): set<nat> {
    (set k | k in s && k < |steps| && steps[k].descendant)
    + (set k | k in s && k < |steps| && Takes(steps[k], q) :: k + 1)
  }

  /** The set carried to the end of a path of names, from the document element down. */
  function State(steps: seq<Step>, path: seq<QName>): set<nat> {
    if path == [] then {0} else Advance(steps, State(steps, path[..|path| - 1]), path[|path| - 1])
  }

  /** Where the first steps are placed on the path: in order, each where it takes the
      name, and next to the one before unless it is a descendant step. */
  ghost predicate Placed(steps: seq<Step>, path: seq<QName>, at: seq<nat>) {
    |at| <= |steps| && forall j | 0 <= j < |at| :: Stands(steps, path, at, j)
  }

  predicate Stands(steps: seq<Step>, path: seq<QName>, at: seq<nat>, j: nat)
    requires j < |at| <= |steps|
  {
    && at[j] < |path| && Takes(steps[j], path[at[j]])
    && (if steps[j].descendant then After(at, j) <= at[j] else After(at, j) == at[j])
  }

  /** The place next to where step `j - 1` is. */
  function After(at: seq<nat>, j: nat): nat
    requires j <= |at|
  {
    if j == 0 then 0 else at[j - 1] + 1
  }

  /** A placement of `k` steps that ends with the path, or may go on below it. */
  ghost predicate Reached(steps: seq<Step>, path: seq<QName>, k: nat, at: seq<nat>) {
    && |at| == k && Placed(steps, path, at)
    && (After(at, k) == |path| || (k < |steps| && steps[k].descendant))
  }

  ghost predicate Reachable(steps: seq<Step>, path: seq<QName>, k: nat) {
    exists at: seq<nat> :: Reached(steps, path, k, at)
  }

  /** All steps are placed, the last at the end of the path. */
  ghost predicate Matches(steps: seq<Step>, path: seq<QName>) {
    exists at: seq<nat> :: |at| == |steps| && Placed(steps, path, at) && After(at, |at|) == |path|
  }

  /** Steps take places of their own, in order. */
  lemma {:induction false} PlacedBelow(steps: seq<Step>, path: seq<QName>, at: seq<nat>, j: nat)
    requires Placed(steps, path, at) && j <= |at|
    ensures After(at, j) >= j && forall i | 0 <= i < j :: at[i] < After(at, j)
  {
    if j > 0 {
      PlacedBelow(steps, path, at, j - 1);
      assert Stands(steps, path, at, j - 1);
    }
  }

  lemma PlacedFits(steps: seq<Step>, path: seq<QName>, at: seq<nat>)
    requires Placed(steps, path, at)
    ensures |at| <= |path| && After(at, |at|) <= |path|
  {
    PlacedBelow(steps, path, at, |at|);
    if |at| > 0 { assert Stands(steps, path, at, |at| - 1); }
  }

  /** On a longer path the placement stands. */
  lemma PlacedLonger(steps: seq<Step>, path: seq<QName>, q: QName, at: seq<nat>)
    requires Placed(steps, path, at)
    ensures Placed(steps, path + [q], at)
  {
    forall j | 0 <= j < |at| ensures Stands(steps, path + [q], at, j) {
      assert Stands(steps, path, at, j) && (path + [q])[at[j]] == path[at[j]];
    }
  }

  lemma PlacedShorter(steps: seq<Step>, path: seq<QName>, q: QName, at: seq<nat>, k: nat)
    requires Placed(steps, path + [q], at) && k <= |at| && After(at, k) <= |path|
    ensures Placed(steps, path, at[..k])
  {
    PlacedBelow(steps, path + [q], at, k);
    forall j | 0 <= j < k ensures Stands(steps, path, at[..k], j) {
      assert Stands(steps, path + [q], at, j) && (path + [q])[at[j]] == path[at[j]];
      assert After(at[..k], j) == After(at, j);
    }
  }

  /** A bit is carried by waiting for a descendant, or by a step of the parent's. */
  predicate Carried(steps: seq<Step>, s: set<nat>, q: QName, k: nat) {
    || (k in s && k < |steps| && steps[k].descendant)
    || (0 < k <= |steps| && k - 1 in s && Takes(steps[k - 1], q))
  }

  lemma OneStep(steps: seq<Step>, path: seq<QName>, q: QName, k: nat)
    ensures k in State(steps, path + [q]) <==> Carried(steps, State(steps, path), q, k)
  {
    assert (path + [q])[..|path|] == path;
    assert State(steps, path + [q]) == Advance(steps, State(steps, path), q);
  }

  /** Bit `k` is carried exactly when the first `k` steps can be placed. */
  lemma {:induction false} StateExact(steps: seq<Step>, path: seq<QName>, k: nat)
    requires k <= |steps|
    ensures k in State(steps, path) <==> Reachable(steps, path, k)
    decreases |path|
  {
    if path == [] {
      assert Reached(steps, path, 0, []);
      forall at: seq<nat> | Reached(steps, path, k, at) ensures k == 0 { PlacedFits(steps, path, at); }
    } else {
      var n := |path| - 1;
      var (init, q) := (path[..n], path[n]);
      assert path == init + [q];
      StateExact(steps, init, k);
      if k > 0 { StateExact(steps, init, k - 1); }
      StateStep(steps, init, q, k);
    }
  }

  lemma StateStep(steps: seq<Step>, init: seq<QName>, q: QName, k: nat)
    requires k <= |steps|
    requires k in State(steps, init) <==> Reachable(steps, init, k)
    requires k > 0 ==> (k - 1 in State(steps, init) <==> Reachable(steps, init, k - 1))
    ensures k in State(steps, init + [q]) <==> Reachable(steps, init + [q], k)
  {
    OneStep(steps, init, q, k);
    if k in State(steps, init + [q]) {
      if k < |steps| && k in State(steps, init) && steps[k].descendant {
        StepWaits(steps, init, q, k);
      } else {
        StepTaken(steps, init, q, k - 1);
      }
    }
    if Reachable(steps, init + [q], k) {
      var at: seq<nat> :| Reached(steps, init + [q], k, at);
      Backward(steps, init, q, k, at);
    }
  }

  lemma StepWaits(steps: seq<Step>, path: seq<QName>, q: QName, k: nat)
    requires k < |steps| && steps[k].descendant && Reachable(steps, path, k)
    ensures Reachable(steps, path + [q], k)
  {
    var at: seq<nat> :| Reached(steps, path, k, at);
    PlacedLonger(steps, path, q, at);
    assert Reached(steps, path + [q], k, at);
  }

  lemma StepTaken(steps: seq<Step>, path: seq<QName>, q: QName, k: nat)
    requires k < |steps| && Takes(steps[k], q) && Reachable(steps, path, k)
    ensures Reachable(steps, path + [q], k + 1)
  {
    var at: seq<nat> :| Reached(steps, path, k, at);
    PlacedLonger(steps, path, q, at);
    PlacedFits(steps, path, at);
    var more: seq<nat> := at + [|path|];
    assert forall j | 0 <= j <= k :: After(more, j) == After(at, j);
    PlacedOneMore(steps, path + [q], at, more);
    assert Reached(steps, path + [q], k + 1, more);
  }

  lemma PlacedOneMore(steps: seq<Step>, path: seq<QName>, at: seq<nat>, more: seq<nat>)
    requires Placed(steps, path, at) && |at| < |steps| && |more| == |at| + 1 && more[..|at|] == at
    requires more[|at|] < |path| && Takes(steps[|at|], path[more[|at|]])
    requires if steps[|at|].descendant then After(at, |at|) <= more[|at|] else After(at, |at|) == more[|at|]
    ensures Placed(steps, path, more)
  {
    forall j | 0 <= j < |more| ensures Stands(steps, path, more, j) {
      assert After(more, j) == After(at, j);
      if j < |at| { assert Stands(steps, path, at, j) && more[j] == at[j]; }
    }
  }

  lemma Backward(steps: seq<Step>, path: seq<QName>, q: QName, k: nat, at: seq<nat>)
    requires k <= |steps| && Reached(steps, path + [q], k, at)
    requires Reachable(steps, path, k) ==> k in State(steps, path)
    requires k > 0 && Reachable(steps, path, k - 1) ==> k - 1 in State(steps, path)
    ensures Carried(steps, State(steps, path), q, k)
  {
    PlacedFits(steps, path + [q], at);
    if After(at, k) == |path| + 1 {
      var init := at[..k - 1];
      assert Stands(steps, path + [q], at, k - 1) && (path + [q])[at[k - 1]] == q;
      assert After(at, k - 1) <= |path|;
      PlacedShorter(steps, path, q, at, k - 1);
      assert After(init, k - 1) == After(at, k - 1);
      assert Reached(steps, path, k - 1, init);
    } else {
      PlacedShorter(steps, path, q, at, k);
      assert at[..k] == at;
      assert Reached(steps, path, k, at);
    }
  }

  /** The last bit is carried exactly when the path matches the pattern. */
  lemma MatchExact(steps: seq<Step>, path: seq<QName>)
    ensures |steps| in State(steps, path) <==> Matches(steps, path)
  {
    StateExact(steps, path, |steps|);
    if |steps| in State(steps, path) {
      var at: seq<nat> :| Reached(steps, path, |steps|, at);
      assert |at| == |steps| && Placed(steps, path, at) && After(at, |at|) == |path|;
    }
    if Matches(steps, path) {
      var at: seq<nat> :| |at| == |steps| && Placed(steps, path, at) && After(at, |at|) == |path|;
      assert Reached(steps, path, |steps|, at);
    }
  }

  /** Where no bit is left, nothing below matches. */
  lemma {:induction false} DeadBelow(steps: seq<Step>, path: seq<QName>, more: seq<QName>)
    requires State(steps, path) == {}
    ensures State(steps, path + more) == {}
    decreases |more|
  {
    if more == [] {
      assert path + more == path;
    } else {
      var n := |more| - 1;
      assert (path + more)[..|path| + n] == path + more[..n];
      DeadBelow(steps, path, more[..n]);
    }
  }

  /** The set fits a machine word of one bit more than there are steps. */
  lemma {:induction false} StateFits(steps: seq<Step>, path: seq<QName>)
    ensures forall k | k in State(steps, path) :: k <= |steps|
    decreases |path|
  {
    if path != [] { StateFits(steps, path[..|path| - 1]); }
  }
}
