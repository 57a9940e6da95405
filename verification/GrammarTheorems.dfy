/** Results about compiling a whole grammar: which refusals are right, what success
    guarantees, and where recursion without an element goes unnoticed. */
module GrammarTheorems {
  import opened RelaxSyntax
  import opened References
  import opened GrammarWalk
  import opened GrammarCheck

  /** The start patterns compiled and joined, in a fresh compiler. */
  ghost function CompileGrammar(defs: Defs, j: Joiner, starts: seq<Source>): Out {
    CompileKids(defs, Fresh, j, starts)
  }

  ghost function GraphOf(defs: Defs): Graph {
    Graph(defs.Keys, BareEdges(defs), Edges(defs),
          iset n: nat, m: nat | Reaches(BareEdges(defs), n, m) :: (n, m))
  }

  lemma GraphIs(defs: Defs)
    ensures Of(GraphOf(defs), defs)
  {
    var g := GraphOf(defs);
    forall n: nat, m: nat | m in Next(g.near, n) ensures (n, m) in g.reach { StepReaches(g.near, n, m); }
    forall n: nat, m: nat, k: nat | Linked(g, n, m, k) ensures (n, k) in g.reach { ReachesOn(g.near, n, m, k); }
  }

  lemma StartGood(defs: Defs, j: Joiner, starts: seq<Source>)
    ensures Good(GraphOf(defs), Fresh, CompileGrammar(defs, j, starts), BareRefsOf(starts), AllRefsOf(starts))
  {
    GraphIs(defs);
    assert Sane(GraphOf(defs), Fresh);
    KidsGood(GraphOf(defs), defs, Fresh, j, starts);
  }

  /** A grammar refused for recursion has it, and a name called undefined is. */
  lemma RefusalsRight(defs: Defs, j: Joiner, starts: seq<Source>, n: nat)
    ensures CompileGrammar(defs, j, starts).result == Err(Cyclic(n)) ==> Reaches(BareEdges(defs), n, n)
    ensures CompileGrammar(defs, j, starts).result == Err(Undefined(n)) ==> n !in defs
  {
    StartGood(defs, j, starts);
  }

  /** What was recorded for each definition compiled. */
  function RecordedIn(s: State): Relation { map n | n in s.compiled :: s.compiled[n].bare }

  /** The references of the definitions compiled. */
  function EdgesIn(defs: Defs, s: State): Relation {
    map n | n in s.compiled && n in defs :: BareRefsOf(defs[n].bodies)
  }

  /** On success every definition the start leads to is compiled, and what is recorded
      for one holds its references, only what they lead to, and not itself. */
  lemma SuccessRecords(defs: Defs, j: Joiner, starts: seq<Source>)
    requires CompileGrammar(defs, j, starts).result.Ok?
    ensures var s := CompileGrammar(defs, j, starts).state;
      && AllRefsOf(starts) <= s.compiled.Keys <= defs.Keys
      && (forall n | n in s.compiled :: Next(Edges(defs), n) <= s.compiled.Keys)
      && (forall n | n in s.compiled :: Next(BareEdges(defs), n) <= s.compiled[n].bare <= s.compiled.Keys)
      && (forall n | n in s.compiled :: n !in s.compiled[n].bare)
      && (forall n, m | n in s.compiled && m in s.compiled[n].bare :: Reaches(BareEdges(defs), n, m))
  {
    StartGood(defs, j, starts);
    var s := CompileGrammar(defs, j, starts).state;
    var g := GraphOf(defs);
    assert s.at == map[];
    forall n | n in s.compiled
      ensures n in defs && Next(Edges(defs), n) <= s.compiled.Keys && n !in s.compiled[n].bare
      ensures Next(BareEdges(defs), n) <= s.compiled[n].bare <= s.compiled.Keys
      ensures forall m | m in s.compiled[n].bare :: Reaches(BareEdges(defs), n, m)
    {
      assert DoneOk(g, s, n, s.compiled[n]);
      forall m | m in s.compiled[n].bare ensures m in s.compiled && Reaches(BareEdges(defs), n, m) {
        assert Known(s, m) && (n, m) in g.reach;
      }
      forall m | m in Next(Edges(defs), n) ensures m in s.compiled { assert Known(s, m); }
    }
    forall m | m in AllRefsOf(starts) ensures m in s.compiled { assert Known(s, m); }
  }

  /** The chains of what was recorded are the chains of references: so no definition
      compiled reaches itself exactly when following recorded names never returns. */
  lemma RecordedChains(defs: Defs, j: Joiner, starts: seq<Source>, n: nat, m: nat)
    requires CompileGrammar(defs, j, starts).result.Ok?
    requires n in CompileGrammar(defs, j, starts).state.compiled
    ensures Reaches(BareEdges(defs), n, m) <==> Reaches(RecordedIn(CompileGrammar(defs, j, starts).state), n, m)
  {
    SuccessRecords(defs, j, starts);
    var s := CompileGrammar(defs, j, starts).state;
    var e := EdgesIn(defs, s);
    var r := RecordedIn(s);
    forall x: nat, y: nat | y in Next(r, x) ensures Reaches(e, x, y) {
      WithinCompiled(defs, s, x, y);
    }
    forall x: nat, y: nat | y in Next(e, x) ensures y in Next(r, x) { assert y in Next(BareEdges(defs), x); }
    SameChains(e, r, n, m);
    WithinCompiled(defs, s, n, m);
  }

  /** A chain that begins at a compiled definition passes only compiled ones. */
  lemma WithinCompiled(defs: Defs, s: State, n: nat, m: nat)
    requires s.compiled.Keys <= defs.Keys && n in s.compiled
    requires forall x | x in s.compiled :: Next(BareEdges(defs), x) <= s.compiled.Keys
    ensures Reaches(BareEdges(defs), n, m) <==> Reaches(EdgesIn(defs, s), n, m)
  {
    var (b, e) := (BareEdges(defs), EdgesIn(defs, s));
    if Reaches(b, n, m) {
      var p :| |p| >= 2 && p[0] == n && p[|p| - 1] == m && IsPath(b, p);
      forall i | 0 <= i < |p| ensures p[i] in s.compiled { PathStays(b, s.compiled.Keys, p, i); }
      forall i, k | 0 <= i && k == i + 1 && k < |p| ensures p[k] in Next(e, p[i]) {
        assert p[k] in Next(b, p[i]);
      }
      assert IsPath(e, p);
    }
    if Reaches(e, n, m) {
      forall x: nat, y: nat | y in Next(e, x) ensures Reaches(b, x, y) { StepReaches(b, x, y); }
      ReachesWithin(e, b, n, m);
    }
  }

  lemma {:induction false} PathStays(r: Relation, among: set<nat>, p: seq<nat>, i: nat)
    requires i < |p| && IsPath(r, p) && p[0] in among
    requires forall n | n in among :: Next(r, n) <= among
    ensures p[i] in among
  {
    if i > 0 {
      PathStays(r, among, p, i - 1);
      assert p[i] in Next(r, p[i - 1]);
    }
  }

  // ---- the rank that references need -------------------------------------

  /** The compiled definitions `n` leads to without an element. */
  ghost function Below(defs: Defs, s: State, n: nat): set<nat> {
    set m | m in s.compiled && Reaches(BareEdges(defs), n, m)
  }

  /** The grammar the references resolve in: a shared reference stands for the
      definition's body, the one made where it recurs for its shared pattern. */
  ghost function Resolved(defs: Defs, s: State, lib: Library): RawGrammar {
    RawGrammar(
      map id: nat | id in Ids(s) :: if id % 2 == 0 then s.compiled[id / 2].body else s.compiled[id / 2].pat,
      map id: nat | id in Ids(s) :: 2 * |Below(defs, s, id / 2)| + id % 2,
      lib)
  }

  function Ids(s: State): (ids: set<nat>)
    ensures forall id: nat :: id in ids <==> id / 2 in s.compiled
  {
    var even := set n | n in s.compiled :: Shared(n);
    var odd := set n | n in s.compiled :: Lazy(n);
    assert forall id: nat | id / 2 in s.compiled :: id == Shared(id / 2) || id == Lazy(id / 2);
    even + odd
  }

  /** If no definition compiled reaches itself, the references can be ranked, so
      that following them before an element comes to an end. */
  lemma AcyclicIsRanked(defs: Defs, j: Joiner, starts: seq<Source>, lib: Library)
    requires CompileGrammar(defs, j, starts).result.Ok?
    requires var s := CompileGrammar(defs, j, starts).state;
             forall n | n in s.compiled :: !Reaches(BareEdges(defs), n, n)
    ensures Ranked(Resolved(defs, CompileGrammar(defs, j, starts).state, lib))
  {
    var s := CompileGrammar(defs, j, starts).state;
    StartGood(defs, j, starts);
    SuccessRecords(defs, j, starts);
    forall id: nat | id / 2 in s.compiled
      ensures Level(Resolved(defs, s, lib).rank, Resolved(defs, s, lib).defs[id])
            < RankOf(Resolved(defs, s, lib).rank, id)
    {
      assert DoneOk(GraphOf(defs), s, id / 2, s.compiled[id / 2]);
      IdRanked(defs, s, lib, id, s.compiled[id / 2]);
    }
  }

  lemma RankIs(defs: Defs, s: State, lib: Library, id: nat)
    requires id / 2 in s.compiled
    ensures RankOf(Resolved(defs, s, lib).rank, id) == 2 * |Below(defs, s, id / 2)| + id % 2 + 1
  {
    assert id in Ids(s);
  }

  lemma IdRanked(defs: Defs, s: State, lib: Library, id: nat, c: Compiled)
    requires id / 2 in s.compiled && c == s.compiled[id / 2]
    requires forall m | m in Next(BareEdges(defs), id / 2) :: m in s.compiled && !Reaches(BareEdges(defs), m, m)
    requires OnlyRefs(c.body, Next(BareEdges(defs), id / 2)) && c.pat == SharedPattern(id / 2, c.body)
    ensures Level(Resolved(defs, s, lib).rank, Resolved(defs, s, lib).defs[id])
          < RankOf(Resolved(defs, s, lib).rank, id)
  {
    var n := id / 2;
    BodyRanked(defs, s, lib, n, c.body);
    RankIs(defs, s, lib, id);
    SharedRank(defs, s, lib, n);
    var p := if id % 2 == 0 then c.body else c.pat;
    ResolvedIs(defs, s, lib, id, p);
    DefinitionLevel(Resolved(defs, s, lib).rank, id, c, p, 2 * |Below(defs, s, n)|);
  }

  lemma SharedRank(defs: Defs, s: State, lib: Library, n: nat)
    requires n in s.compiled
    ensures RankOf(Resolved(defs, s, lib).rank, Shared(n)) == 2 * |Below(defs, s, n)| + 1
  {
    var id := Shared(n);
    assert id / 2 == n && id % 2 == 0;
    RankIs(defs, s, lib, id);
  }

  lemma ResolvedIs(defs: Defs, s: State, lib: Library, id: nat, p: Pattern)
    requires id / 2 in s.compiled
    requires p == if id % 2 == 0 then s.compiled[id / 2].body else s.compiled[id / 2].pat
    ensures id in Resolved(defs, s, lib).defs && Resolved(defs, s, lib).defs[id] == p
  {
    assert id in Ids(s);
  }

  lemma BodyRanked(defs: Defs, s: State, lib: Library, n: nat, body: Pattern)
    requires n in s.compiled && OnlyRefs(body, Next(BareEdges(defs), n))
    requires forall m | m in Next(BareEdges(defs), n) :: m in s.compiled && !Reaches(BareEdges(defs), m, m)
    ensures Level(Resolved(defs, s, lib).rank, body) <= 2 * |Below(defs, s, n)|
  {
    forall k: nat | k / 2 in Next(BareEdges(defs), n)
      ensures RankOf(Resolved(defs, s, lib).rank, k) <= 2 * |Below(defs, s, n)|
    {
      BelowShrinks(defs, s, n, k / 2);
      RankIs(defs, s, lib, k);
    }
    LevelBelow(Resolved(defs, s, lib).rank, body, Next(BareEdges(defs), n), 2 * |Below(defs, s, n)|);
  }

  /** The body is below both references to its definition, the shared pattern below
      the one made where the definition recurs. */
  lemma DefinitionLevel(rank: map<nat, nat>, id: nat, c: Compiled, p: Pattern, bound: nat)
    requires p == if id % 2 == 0 then c.body else c.pat
    requires Level(rank, c.body) <= bound && c.pat == SharedPattern(id / 2, c.body)
    requires RankOf(rank, id) == bound + id % 2 + 1 && RankOf(rank, Shared(id / 2)) == bound + 1
    ensures Level(rank, p) < RankOf(rank, id)
  {
  }

  lemma BelowShrinks(defs: Defs, s: State, n: nat, m: nat)
    requires m in Next(BareEdges(defs), n) && m in s.compiled && !Reaches(BareEdges(defs), m, m)
    ensures |Below(defs, s, m)| + 1 <= |Below(defs, s, n)|
  {
    var e := BareEdges(defs);
    StepReaches(e, n, m);
    forall k | k in Below(defs, s, m) ensures k in Below(defs, s, n) - {m} { ReachesOn(e, n, m, k); }
    CardUpTo(Below(defs, s, m), Below(defs, s, n) - {m});
  }

  lemma {:induction false} CardUpTo(a: set<nat>, b: set<nat>)
    requires a <= b
    ensures |a| <= |b|
  {
    if a != {} {
      var x :| x in a;
      CardUpTo(a - {x}, b - {x});
    }
  }
}
