/** Chains in a relation between numbered things. */
module References {
  type Relation = map<nat, set<nat>>

  function Next(r: Relation, n: nat): set<nat> { if n in r then r[n] else {} }

  ghost predicate IsPath(r: Relation, path: seq<nat>) {
    forall i, j {:trigger path[i], path[j]} | 0 <= i && j == i + 1 && j < |path| :: path[j] in Next(r, path[i])
  }

  /** A chain of at least one step leads from `n` to `m`. */
  ghost predicate Reaches(r: Relation, n: nat, m: nat) {
    exists path :: |path| >= 2 && path[0] == n && path[|path| - 1] == m && IsPath(r, path)
  }

  ghost predicate Acyclic(r: Relation) { forall n :: !Reaches(r, n, n) }

  lemma StepReaches(r: Relation, n: nat, m: nat)
    requires m in Next(r, n)
    ensures Reaches(r, n, m)
  {
    var path := [n, m];
    assert path[0] == n && path[|path| - 1] == m && IsPath(r, path);
  }

  lemma ReachesOn(r: Relation, n: nat, m: nat, k: nat)
    requires Reaches(r, n, m) && Reaches(r, m, k)
    ensures Reaches(r, n, k)
  {
    var p :| |p| >= 2 && p[0] == n && p[|p| - 1] == m && IsPath(r, p);
    var q :| |q| >= 2 && q[0] == m && q[|q| - 1] == k && IsPath(r, q);
    var whole := p + q[1..];
    forall i, j | 0 <= i && j == i + 1 && j < |whole| ensures whole[j] in Next(r, whole[i]) {
      if j < |p| {
        assert p[j] in Next(r, p[i]);
      } else {
        assert whole[i] == q[i - |p| + 1] && whole[j] == q[j - |p| + 1];
      }
    }
    assert whole[0] == n && whole[|whole| - 1] == k && IsPath(r, whole);
  }

  /** Chains of steps that are each a chain of another relation. */
  lemma {:induction false} PathWithin(r: Relation, q: Relation, path: seq<nat>)
    requires |path| >= 2 && IsPath(r, path)
    requires forall n, m | m in Next(r, n) :: Reaches(q, n, m)
    ensures Reaches(q, path[0], path[|path| - 1])
    decreases |path|
  {
    assert path[1] in Next(r, path[0]);
    if |path| > 2 {
      var rest := path[1..];
      forall i, j | 0 <= i && j == i + 1 && j < |rest| ensures rest[j] in Next(r, rest[i]) {
        assert rest[i] == path[i + 1] && rest[j] == path[j + 1];
      }
      PathWithin(r, q, rest);
      ReachesOn(q, path[0], path[1], path[|path| - 1]);
    }
  }

  lemma ReachesWithin(r: Relation, q: Relation, n: nat, m: nat)
    requires Reaches(r, n, m)
    requires forall x, y | y in Next(r, x) :: Reaches(q, x, y)
    ensures Reaches(q, n, m)
  {
    var p :| |p| >= 2 && p[0] == n && p[|p| - 1] == m && IsPath(r, p);
    PathWithin(r, q, p);
  }

  /** A relation between another one and its chains has the same chains. */
  lemma SameChains(r: Relation, q: Relation, n: nat, m: nat)
    requires forall x, y | y in Next(r, x) :: y in Next(q, x)
    requires forall x, y | y in Next(q, x) :: Reaches(r, x, y)
    ensures Reaches(r, n, m) <==> Reaches(q, n, m)
  {
    if Reaches(r, n, m) {
      forall x, y | y in Next(r, x) ensures Reaches(q, x, y) { StepReaches(q, x, y); }
      ReachesWithin(r, q, n, m);
    }
    if Reaches(q, n, m) { ReachesWithin(q, r, n, m); }
  }
}
