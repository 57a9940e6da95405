/** Where the check for recursion without an element misses nothing: if no definition on
    such a cycle also leads to itself through an element, a grammar that compiles has
    none, and its references can be ranked. */
module GrammarExact {
  import opened RelaxSyntax
  import opened References
  import opened GrammarWalk
  import opened GrammarCheck
  import opened GrammarTheorems

  // ---- references through an element -------------------------------------

  /** The names `s` refers to inside an element. */
  function CrossRefs(s: Source): set<nat>
    decreases s, 0
  {
    if s.SRef? || s.SLeaf? then {} else if s.SElement? then AllRefsOf(s.kids) else CrossRefsOf(s.kids)
  }

  function CrossRefsOf(kids: seq<Source>): set<nat>
    decreases kids, 1
  {
    if kids == [] then {} else CrossRefsOf(kids[..|kids| - 1]) + CrossRefs(kids[|kids| - 1])
  }

  function CrossEdges(defs: Defs): Relation { map n | n in defs :: CrossRefsOf(defs[n].bodies) }

  lemma {:induction false} RefsSplit(s: Source)
    ensures AllRefs(s) == BareRefs(s) + CrossRefs(s)
    decreases s, 0
  {
    if !s.SRef? && !s.SLeaf? && !s.SElement? { RefsSplitOf(s.kids); }
  }

  lemma {:induction false} RefsSplitOf(kids: seq<Source>)
    ensures AllRefsOf(kids) == BareRefsOf(kids) + CrossRefsOf(kids)
    decreases kids, 1
  {
    if kids != [] {
      RefsSplitOf(kids[..|kids| - 1]);
      RefsSplit(kids[|kids| - 1]);
    }
  }

  /** `n` leads to `m`, at some step through an element. */
  ghost predicate CrossReaches(defs: Defs, n: nat, m: nat) {
    exists a, b :: Turns(defs, n, a, b, m)
  }

  ghost predicate Turns(defs: Defs, n: nat, a: nat, b: nat, m: nat) {
    && (n == a || Reaches(Edges(defs), n, a)) && b in Next(CrossEdges(defs), a)
    && (b == m || Reaches(Edges(defs), b, m))
  }

  /** No definition that reaches itself without crossing an element also does so
      crossing one. */
  ghost predicate OneWay(defs: Defs) {
    forall n :: Reaches(BareEdges(defs), n, n) ==> !CrossReaches(defs, n, n)
  }

  // ---- what every step keeps ---------------------------------------------

  /** The references of a grammar; those inside elements; and pairs closed under adding
      a reference to a pair, or one inside an element to a chain outside. */
  datatype Crossing = Crossing(g: Graph, cross: Relation, over: iset<(nat, nat)>)

  ghost predicate Through(x: Crossing, n: nat, m: nat) { (n, m) in x.over }

  ghost predicate Closed(x: Crossing) {
    && (forall n, m :: m in Next(x.cross, n) ==> Through(x, n, m))
    && (forall n, m, k :: Through(x, n, m) && k in Next(x.g.all, m) ==> Through(x, n, k))
    && (forall n: nat, m: nat, k :: (n, m) in x.g.reach && k in Next(x.cross, m) ==> Through(x, n, k))
    && (forall n :: Next(x.g.near, n) <= Next(x.g.all, n) && Next(x.cross, n) <= Next(x.g.all, n))
  }

  ghost predicate IsCrossing(x: Crossing, defs: Defs) {
    && Of(x.g, defs) && x.cross == CrossEdges(defs) && Closed(x)
    && forall n :: Reaches(BareEdges(defs), n, n) ==> !Through(x, n, n)
  }

  /** A definition in progress is reached through an element from those around it that
      began less deep. */
  ghost predicate OverOk(x: Crossing, s: State) {
    forall i, j | 0 <= i < j < |s.stack| && s.stack[i] in s.at && s.stack[j] in s.at
                  && s.at[s.stack[i]] < s.at[s.stack[j]] :: Through(x, s.stack[i], s.stack[j])
  }

  /** `near` and, inside elements, `deep` are referred to by the innermost definition, the
      first without an element unless one has been crossed already. */
  ghost predicate Here(x: Crossing, s: State, near: set<nat>, deep: set<nat>) {
    s.stack != [] ==>
      && deep <= Next(x.cross, Top(s))
      && near <= if Bare(s) then Next(x.g.near, Top(s)) else Next(x.cross, Top(s))
  }

  /** `n` is reached through an element from those in progress that began less deep. */
  ghost predicate Far(x: Crossing, s: State, n: nat) {
    forall m | m in s.at && s.at[m] < s.depth :: Through(x, m, n)
  }

  lemma FarHere(x: Crossing, s: State, near: set<nat>, deep: set<nat>, n: nat)
    requires Closed(x) && StackOk(s) && ChainOk(x.g, s) && OverOk(x, s) && Here(x, s, near, deep) && n in near
    ensures Far(x, s, n)
  {
    forall m | m in s.at && s.at[m] < s.depth ensures Through(x, m, n) {
      var i :| 0 <= i < |s.stack| && s.stack[i] == m;
      var k := |s.stack| - 1;
      assert s.stack[k] == Top(s) && s.at[s.stack[i]] <= s.at[s.stack[k]];
      if s.at[m] < s.at[Top(s)] {
        assert Through(x, m, Top(s)) && n in Next(x.g.all, Top(s));
      } else {
        assert !Bare(s) && n in Next(x.cross, Top(s));
        if i < k { assert (m, Top(s)) in x.g.reach; }
      }
    }
  }

  lemma EnteredOver(x: Crossing, s: State, n: nat)
    requires StackOk(s) && OverOk(x, s) && n !in s.at && Far(x, s, n)
    ensures OverOk(x, Entered(s, n))
  {
    var e := Entered(s, n);
    forall i, j | 0 <= i < j < |e.stack| && e.stack[i] in e.at && e.stack[j] in e.at
                  && e.at[e.stack[i]] < e.at[e.stack[j]]
      ensures Through(x, e.stack[i], e.stack[j])
    {
      assert e.stack[i] == s.stack[i] && e.stack[i] in s.at;
      if j < |s.stack| { assert e.stack[j] == s.stack[j] && e.stack[j] in s.at; }
    }
  }

  ghost predicate NoCycle(defs: Defs, s: State) { Acyclic(EdgesIn(defs, s)) }

  /** Definitions compiled meanwhile that refer to one in progress are reached from it
      through an element. */
  ghost predicate NewFar(x: Crossing, s: State, s': State) {
    forall y, m | y in s'.compiled && y !in s.compiled && m in Next(x.g.near, y) && m in s.at :: Through(x, m, y)
  }

  ghost predicate Shallow(s: State, near: set<nat>) { forall m | m in near && m in s.at :: s.at[m] < s.depth }

  ghost predicate FineIn(x: Crossing, defs: Defs, s: State, o: Out, near: set<nat>) {
    o.result.Ok? ==> Shallow(s, near) && NewFar(x, s, o.state) && NoCycle(defs, o.state)
  }

  ghost predicate ReadyIn(x: Crossing, defs: Defs, s: State) {
    IsCrossing(x, defs) && Sane(x.g, s) && OverOk(x, s) && NoCycle(defs, s)
  }

  /** Asserted where what is hidden behind it is wanted. */
  ghost predicate Shown(k: nat) { true }

  /** What holds whenever something is compiled. */
  ghost predicate Ready(x: Crossing, defs: Defs, s: State) { forall k :: Shown(k) ==> ReadyIn(x, defs, s) }

  /** The outcome of compiling something that refers to `near` without an element. */
  ghost predicate Fine(x: Crossing, defs: Defs, s: State, o: Out, near: set<nat>) {
    forall k :: Shown(k) ==> FineIn(x, defs, s, o, near)
  }

  lemma ReadyIs(x: Crossing, defs: Defs, s: State)
    ensures Ready(x, defs, s) <==> ReadyIn(x, defs, s)
  {
    assert Shown(0);
  }

  lemma FineIs(x: Crossing, defs: Defs, s: State, o: Out, near: set<nat>)
    ensures Fine(x, defs, s, o, near) <==> FineIn(x, defs, s, o, near)
  {
    assert Shown(0);
  }

  lemma ReadyGood(x: Crossing, defs: Defs, s: State)
    requires Ready(x, defs, s)
    ensures Of(x.g, defs) && Sane(x.g, s) && (forall m | m in s.compiled :: m !in s.at)
  {
    ReadyIs(x, defs, s);
    forall m | m in s.compiled ensures m !in s.at { assert DoneOk(x.g, s, m, s.compiled[m]); }
  }

  lemma HerePlaced(x: Crossing, s: State, near: set<nat>, deep: set<nat>)
    requires Here(x, s, near, deep)
    ensures Placed(x.g, s, near)
  {
  }

  /** Nothing new is compiled. */
  lemma SameCompiled(x: Crossing, defs: Defs, s: State, o: Out, near: set<nat>)
    requires Ready(x, defs, s) && o.state.compiled == s.compiled && (o.result.Ok? ==> Shallow(s, near))
    ensures Fine(x, defs, s, o, near)
  {
    ReadyIs(x, defs, s);
    FineIs(x, defs, s, o, near);
    SameEdges(defs, o.state, s);
  }

  lemma SameEdges(defs: Defs, s: State, t: State)
    requires s.compiled == t.compiled
    ensures EdgesIn(defs, s) == EdgesIn(defs, t)
  {
  }

  // ---- a definition finished ---------------------------------------------

  lemma LastStep(r: Relation, n: nat, m: nat) returns (w: nat)
    requires Reaches(r, n, m)
    ensures m in Next(r, w) && w in r
  {
    var p :| |p| >= 2 && p[0] == n && p[|p| - 1] == m && IsPath(r, p);
    w := p[|p| - 2];
    assert p[|p| - 1] in Next(r, p[|p| - 2]);
  }

  /** A cycle of a relation to which one thing was added was there before, or passes the
      thing. */
  lemma CycleThrough(r: Relation, q: Relation, n: nat, k: nat)
    requires Reaches(q, k, k) && q.Keys == r.Keys + {n} && forall y | y in r && y != n :: r[y] == q[y]
    ensures Reaches(r, k, k) || Reaches(q, n, n)
  {
    var p :| |p| >= 2 && p[0] == k && p[|p| - 1] == k && IsPath(q, p);
    if n in p {
      var i :| 0 <= i < |p| && p[i] == n;
      if 0 < i < |p| - 1 {
        PathPart(q, p, 0, i);
        PathPart(q, p, i, |p| - 1);
        ReachesOn(q, n, k, n);
      }
    } else {
      forall i, j | 0 <= i && j == i + 1 && j < |p| ensures p[j] in Next(r, p[i]) {
        assert p[j] in Next(q, p[i]) && p[i] in p;
      }
      assert IsPath(r, p);
    }
  }

  lemma PathPart(r: Relation, p: seq<nat>, i: nat, k: nat)
    requires IsPath(r, p) && i < k < |p|
    ensures Reaches(r, p[i], p[k])
  {
    var part := p[i..k + 1];
    forall a, b | 0 <= a && b == a + 1 && b < |part| ensures part[b] in Next(r, part[a]) {
      assert part[a] == p[i + a] && part[b] == p[i + b];
    }
    assert part[0] == p[i] && part[|part| - 1] == p[k] && IsPath(r, part);
  }

  /** What was compiled before a definition does not refer to it. */
  lemma NotBefore(g: Graph, s: State, n: nat, w: nat)
    requires AllDone(g, s) && n !in s.at && n !in s.compiled
    ensures w in s.compiled ==> n !in Next(g.all, w)
  {
    if w in s.compiled { assert DoneOk(g, s, w, s.compiled[w]); }
  }

  /** A definition finished that closes a cycle is on one through an element as well. */
  lemma ClosesThrough(x: Crossing, defs: Defs, s: State, n: nat, e: State, s': State)
    requires Of(x.g, defs) && Closed(x) && AllDone(x.g, s) && n !in s.at && n !in s.compiled
    requires NewFar(x, Entered(s, n), e) && Shallow(Entered(s, n), Next(x.g.near, n))
    requires s'.compiled.Keys == e.compiled.Keys + {n} && Reaches(EdgesIn(defs, s'), n, n)
    ensures Reaches(BareEdges(defs), n, n) && Through(x, n, n)
  {
    var q := EdgesIn(defs, s');
    var w := LastStep(q, n, n);
    assert n in Next(x.g.near, w) && n in Next(x.g.all, w);
    forall y: nat, z: nat | z in Next(q, y) ensures Reaches(x.g.near, y, z) { StepReaches(x.g.near, y, z); }
    ReachesWithin(q, x.g.near, n, n);
    NotBefore(x.g, s, n, w);
    assert n in Entered(s, n).at && Entered(s, n).at[n] == Entered(s, n).depth;
    assert w in e.compiled && w !in Entered(s, n).compiled;
    assert Through(x, n, w);
  }

  lemma FinishedFree(x: Crossing, defs: Defs, s: State, n: nat, e: State, s': State)
    requires IsCrossing(x, defs) && AllDone(x.g, s) && n in defs && n !in s.at && n !in s.compiled
    requires NoCycle(defs, e) && NewFar(x, Entered(s, n), e) && Shallow(Entered(s, n), Next(x.g.near, n))
    requires s'.compiled.Keys == e.compiled.Keys + {n}
    ensures NoCycle(defs, s')
  {
    var (r, q) := (EdgesIn(defs, e), EdgesIn(defs, s'));
    if exists k :: Reaches(q, k, k) {
      var k :| Reaches(q, k, k);
      CycleThrough(r, q, n, k);
      ClosesThrough(x, defs, s, n, e, s');
      assert false;
    }
  }

  lemma LeftFine(x: Crossing, defs: Defs, s: State, n: nat, o: Out)
    requires Ready(x, defs, s) && n in defs && n !in s.at && n !in s.compiled && Far(x, s, n)
    requires o.state.stack != [] && o.state.stack[|o.state.stack| - 1] == n
    requires Fine(x, defs, Entered(s, n), o, BareRefsOf(defs[n].bodies))
    ensures Fine(x, defs, s, Left(o), {n})
  {
    ReadyIs(x, defs, s);
    FineIs(x, defs, Entered(s, n), o, BareRefsOf(defs[n].bodies));
    FineIs(x, defs, s, Left(o), {n});
    if o.result.Ok? {
      var s' := Finished(o.state, o.result.value);
      assert Next(x.g.near, n) == BareRefsOf(defs[n].bodies);
      FinishedFree(x, defs, s, n, o.state, s');
      FinishedFar(x, s, n, o.state, s');
    }
  }

  lemma FinishedFar(x: Crossing, s: State, n: nat, e: State, s': State)
    requires NewFar(x, Entered(s, n), e) && Shallow(Entered(s, n), Next(x.g.near, n)) && Far(x, s, n) && n !in s.at
    requires s'.compiled.Keys == e.compiled.Keys + {n}
    ensures NewFar(x, s, s')
  {
    forall y, m | y in s'.compiled && y !in s.compiled && m in Next(x.g.near, y) && m in s.at
      ensures Through(x, m, y)
    {
      assert m in Entered(s, n).at && Entered(s, n).at[m] == s.at[m];
    }
  }

  // ---- the walk ----------------------------------------------------------

  lemma EnteredReady(x: Crossing, defs: Defs, s: State, n: nat, deep: set<nat>)
    requires Ready(x, defs, s) && Here(x, s, {n}, deep) && n in defs && n !in s.at && n !in s.compiled
    ensures Ready(x, defs, Entered(s, n)) && Far(x, s, n)
    ensures Here(x, Entered(s, n), BareRefsOf(defs[n].bodies), CrossRefsOf(defs[n].bodies))
  {
    ReadyIs(x, defs, s);
    var e := Entered(s, n);
    ReadyIs(x, defs, e);
    HerePlaced(x, s, {n}, deep);
    FarHere(x, s, {n}, deep, n);
    EnteredSane(x.g, defs, s, n);
    EnteredOver(x, s, n);
    SameEdges(defs, e, s);
  }

  lemma {:induction false} RefFine(x: Crossing, defs: Defs, s: State, n: nat, deep: set<nat>)
    requires Ready(x, defs, s) && Here(x, s, {n}, deep)
    ensures (forall m | m in s.compiled :: m !in s.at) && Fine(x, defs, s, CompileRef(defs, s, n), {n})
    decreases Ahead(defs, s), SRef(n), 1
  {
    ReadyGood(x, defs, s);
    if n in defs && n !in s.at && n !in s.compiled && s.expansions + 1 <= MAX_REF_EXPANSIONS {
      NewFine(x, defs, s, n, deep);
    } else {
      OldRef(defs, s, n);
      SameCompiled(x, defs, s, CompileRef(defs, s, n), {n});
    }
  }

  lemma OldRef(defs: Defs, s: State, n: nat)
    requires forall m | m in s.compiled :: m !in s.at
    requires n !in defs || n in s.at || n in s.compiled || s.expansions + 1 > MAX_REF_EXPANSIONS
    ensures CompileRef(defs, s, n).state.compiled == s.compiled
    ensures CompileRef(defs, s, n).result.Ok? ==> Shallow(s, {n})
  {
  }

  lemma {:induction false} NewFine(x: Crossing, defs: Defs, s: State, n: nat, deep: set<nat>)
    requires Ready(x, defs, s) && Here(x, s, {n}, deep)
    requires n in defs && n !in s.at && n !in s.compiled && s.expansions + 1 <= MAX_REF_EXPANSIONS
    ensures (forall m | m in s.compiled :: m !in s.at) && Fine(x, defs, s, CompileRef(defs, s, n), {n})
    decreases Ahead(defs, s), SRef(n), 0
  {
    ReadyGood(x, defs, s);
    EnteredReady(x, defs, s, n, deep);
    var e := Entered(s, n);
    assert n in Ahead(defs, s) && n !in Ahead(defs, e);
    KidsFine(x, defs, e, defs[n].join, defs[n].bodies);
    NewUnfolds(defs, s, n);
    LeftFine(x, defs, s, n, CompileKids(defs, e, defs[n].join, defs[n].bodies));
  }

  lemma DeeperReady(x: Crossing, defs: Defs, s: State, src: Source)
    requires Ready(x, defs, s) && src.SElement? && Here(x, s, {}, CrossRefs(src))
    ensures Ready(x, defs, s.(depth := s.depth + 1))
    ensures Here(x, s.(depth := s.depth + 1), BareRefsOf(src.kids), CrossRefsOf(src.kids))
  {
    ReadyIs(x, defs, s);
    ReadyDeeper(x, defs, s);
    ReadyIs(x, defs, s.(depth := s.depth + 1));
    RefsSplitOf(src.kids);
    HereDeeper(x, s, BareRefsOf(src.kids), CrossRefsOf(src.kids));
  }

  lemma ReadyDeeper(x: Crossing, defs: Defs, s: State)
    requires ReadyIn(x, defs, s)
    ensures ReadyIn(x, defs, s.(depth := s.depth + 1))
  {
    DeeperSane(x.g, s, s.depth + 1);
    SameEdges(defs, s.(depth := s.depth + 1), s);
  }

  /** Inside an element all references have crossed it. */
  lemma HereDeeper(x: Crossing, s: State, near: set<nat>, deep: set<nat>)
    requires Here(x, s, {}, near + deep) && (forall n | n in s.at :: s.at[n] <= s.depth)
    ensures Here(x, s.(depth := s.depth + 1), near, deep)
  {
  }

  lemma CrossedFine(x: Crossing, defs: Defs, s: State, o: Out, r: Result, near: set<nat>)
    requires Fine(x, defs, s.(depth := s.depth + 1), o, near) && (r.Ok? ==> o.result.Ok?)
    ensures Fine(x, defs, s, Out(r, o.state.(depth := s.depth)), {})
  {
    FineIs(x, defs, s.(depth := s.depth + 1), o, near);
    FineIs(x, defs, s, Out(r, o.state.(depth := s.depth)), {});
    SameEdges(defs, o.state.(depth := s.depth), o.state);
  }

  lemma BuiltFine(x: Crossing, defs: Defs, s: State, o: Out, r: Result, near: set<nat>)
    requires Fine(x, defs, s, o, near) && (r.Ok? ==> o.result.Ok?)
    ensures Fine(x, defs, s, Out(r, o.state), near)
  {
    FineIs(x, defs, s, o, near);
    FineIs(x, defs, s, Out(r, o.state), near);
  }

  lemma {:induction false} PatternFine(x: Crossing, defs: Defs, s: State, src: Source)
    requires Ready(x, defs, s) && Here(x, s, BareRefs(src), CrossRefs(src))
    ensures (forall m | m in s.compiled :: m !in s.at) && Fine(x, defs, s, CompilePattern(defs, s, src), BareRefs(src))
    decreases Ahead(defs, s), src, 2
  {
    ReadyGood(x, defs, s);
    if src.SRef? {
      RefFine(x, defs, s, src.to, CrossRefs(src));
    } else if src.SElement? {
      ElementFine(x, defs, s, src);
    } else if src.SLeaf? || (src.SAttribute? && src.kids == []) {
      PlainPattern(defs, s, src);
      SameCompiled(x, defs, s, CompilePattern(defs, s, src), BareRefs(src));
    } else {
      InnerFine(x, defs, s, src);
    }
  }

  lemma PlainPattern(defs: Defs, s: State, src: Source)
    requires (forall m | m in s.compiled :: m !in s.at) && (src.SLeaf? || (src.SAttribute? && src.kids == []))
    ensures BareRefs(src) == {} && CompilePattern(defs, s, src).state == s
  {
  }

  lemma {:induction false} ElementFine(x: Crossing, defs: Defs, s: State, src: Source)
    requires Ready(x, defs, s) && src.SElement? && Here(x, s, {}, CrossRefs(src))
    ensures (forall m | m in s.compiled :: m !in s.at) && Fine(x, defs, s, CompilePattern(defs, s, src), {})
    decreases Ahead(defs, s), src, 1
  {
    ReadyGood(x, defs, s);
    DeeperReady(x, defs, s, src);
    var d := s.(depth := s.depth + 1);
    assert Ahead(defs, d) == Ahead(defs, s);
    KidsFine(x, defs, d, ByGroup, src.kids);
    var o := CompileKids(defs, d, ByGroup, src.kids);
    CrossedFine(x, defs, s, o, Built(src, o.result), BareRefsOf(src.kids));
    ElementCompiled(defs, s, src);
  }

  lemma ElementCompiled(defs: Defs, s: State, src: Source)
    requires src.SElement? && forall m | m in s.compiled :: m !in s.at
    ensures var o := CompileKids(defs, s.(depth := s.depth + 1), ByGroup, src.kids);
            CompilePattern(defs, s, src) == Out(Built(src, o.result), o.state.(depth := s.depth))
  {
  }

  lemma {:induction false} InnerFine(x: Crossing, defs: Defs, s: State, src: Source)
    requires Ready(x, defs, s) && !src.SElement? && !src.SRef? && !src.SLeaf? && !(src.SAttribute? && src.kids == [])
    requires Here(x, s, BareRefsOf(src.kids), CrossRefsOf(src.kids))
    ensures (forall m | m in s.compiled :: m !in s.at)
         && Fine(x, defs, s, CompilePattern(defs, s, src), BareRefsOf(src.kids))
    decreases Ahead(defs, s), src, 1
  {
    ReadyGood(x, defs, s);
    KidsFine(x, defs, s, JoinerOf(src), src.kids);
    var o := CompileKids(defs, s, JoinerOf(src), src.kids);
    BuiltFine(x, defs, s, o, Built(src, o.result), BareRefsOf(src.kids));
  }

  lemma {:induction false} KidsFine(x: Crossing, defs: Defs, s: State, j: Joiner, kids: seq<Source>)
    requires Ready(x, defs, s) && Here(x, s, BareRefsOf(kids), CrossRefsOf(kids))
    ensures (forall m | m in s.compiled :: m !in s.at)
         && Fine(x, defs, s, CompileKids(defs, s, j, kids), BareRefsOf(kids))
    decreases Ahead(defs, s), kids, 3
  {
    ReadyGood(x, defs, s);
    if kids == [] {
      SameCompiled(x, defs, s, CompileKids(defs, s, j, kids), {});
    } else if |kids| == 1 {
      OnlyKid(kids);
      OnlyKidCross(kids);
      PatternFine(x, defs, s, kids[0]);
    } else {
      MoreFine(x, defs, s, j, kids);
    }
  }

  lemma {:induction false} MoreFine(x: Crossing, defs: Defs, s: State, j: Joiner, kids: seq<Source>)
    requires Ready(x, defs, s) && Here(x, s, BareRefsOf(kids), CrossRefsOf(kids)) && |kids| > 1
    ensures (forall m | m in s.compiled :: m !in s.at)
         && Fine(x, defs, s, CompileKids(defs, s, j, kids), BareRefsOf(kids))
    decreases Ahead(defs, s), kids, 2
  {
    ReadyGood(x, defs, s);
    var (init, last) := (kids[..|kids| - 1], kids[|kids| - 1]);
    HereOn(x, s, s, BareRefsOf(kids), CrossRefsOf(kids), BareRefsOf(init), CrossRefsOf(init));
    KidsFine(x, defs, s, j, init);
    var o := CompileKids(defs, s, j, init);
    if o.result.Ok? {
      ReadyOn(x, defs, s, j, init);
      HereOn(x, s, o.state, BareRefsOf(kids), CrossRefsOf(kids), BareRefs(last), CrossRefs(last));
      PatternFine(x, defs, o.state, last);
    }
    BothFine(x, defs, s, j, kids, o, if o.result.Ok? then CompilePattern(defs, o.state, last) else o);
  }

  lemma BothFine(x: Crossing, defs: Defs, s: State, j: Joiner, kids: seq<Source>, o: Out, q: Out)
    requires |kids| > 1 && forall m | m in s.compiled :: m !in s.at
    requires o == CompileKids(defs, s, j, kids[..|kids| - 1]) && Fine(x, defs, s, o, BareRefsOf(kids[..|kids| - 1]))
    requires q == if o.result.Ok? then CompilePattern(defs, o.state, kids[|kids| - 1]) else o
    requires o.result.Ok? ==> Fine(x, defs, o.state, q, BareRefs(kids[|kids| - 1]))
    ensures Fine(x, defs, s, CompileKids(defs, s, j, kids), BareRefsOf(kids))
  {
    var (init, last) := (kids[..|kids| - 1], kids[|kids| - 1]);
    if o.result.Ok? {
      FineBoth(x, defs, s, o, q, Joined(j, o.result.value, q.result), BareRefsOf(init), BareRefs(last));
    } else {
      FineIs(x, defs, s, o, BareRefsOf(kids));
    }
  }

  lemma ReadyOn(x: Crossing, defs: Defs, s: State, j: Joiner, kids: seq<Source>)
    requires Ready(x, defs, s) && Here(x, s, BareRefsOf(kids), CrossRefsOf(kids))
    requires forall m | m in s.compiled :: m !in s.at
    requires var o := CompileKids(defs, s, j, kids); o.result.Ok? && Fine(x, defs, s, o, BareRefsOf(kids))
    ensures Ready(x, defs, CompileKids(defs, s, j, kids).state)
  {
    var o := CompileKids(defs, s, j, kids);
    ReadyIs(x, defs, s);
    ReadyIs(x, defs, o.state);
    FineIs(x, defs, s, o, BareRefsOf(kids));
    HerePlaced(x, s, BareRefsOf(kids), CrossRefsOf(kids));
    KidsGood(x.g, defs, s, j, kids);
    OverOn(x, s, o.state);
  }

  lemma OnlyKidCross(kids: seq<Source>)
    requires |kids| == 1
    ensures CrossRefsOf(kids) == CrossRefs(kids[0])
  {
    assert kids[..|kids| - 1] == [];
    assert {} + CrossRefs(kids[0]) == CrossRefs(kids[0]);
  }

  lemma HereOn(x: Crossing, s: State, s': State, near: set<nat>, deep: set<nat>, near2: set<nat>, deep2: set<nat>)
    requires Here(x, s, near, deep) && near2 <= near && deep2 <= deep && Framed(s, s')
    ensures Here(x, s', near2, deep2)
  {
  }

  lemma OverOn(x: Crossing, s: State, s': State)
    requires OverOk(x, s) && Framed(s, s')
    ensures OverOk(x, s')
  {
  }

  lemma FineBoth(x: Crossing, defs: Defs, s: State, o: Out, q: Out, r: Result, near: set<nat>, near2: set<nat>)
    requires o.result.Ok? && Framed(s, o.state) && Fine(x, defs, s, o, near) && Fine(x, defs, o.state, q, near2)
    requires r.Ok? ==> q.result.Ok?
    ensures Fine(x, defs, s, Out(r, q.state), near + near2)
  {
    FineIs(x, defs, s, o, near);
    FineIs(x, defs, o.state, q, near2);
    FineIs(x, defs, s, Out(r, q.state), near + near2);
    if r.Ok? {
      forall y, m | y in q.state.compiled && y !in s.compiled && m in Next(x.g.near, y) && m in s.at
        ensures Through(x, m, y)
      {
        if y !in o.state.compiled { assert m in o.state.at; }
      }
    }
  }

  // ---- whole grammars ----------------------------------------------------

  ghost function CrossingOf(defs: Defs): Crossing {
    Crossing(GraphOf(defs), CrossEdges(defs), iset n: nat, m: nat | CrossReaches(defs, n, m) :: (n, m))
  }

  lemma EdgesSplit(defs: Defs, n: nat)
    ensures Next(BareEdges(defs), n) <= Next(Edges(defs), n) && Next(CrossEdges(defs), n) <= Next(Edges(defs), n)
  {
    if n in defs { RefsSplitOf(defs[n].bodies); }
  }

  lemma CrossOn(defs: Defs, n: nat, m: nat, k: nat)
    requires CrossReaches(defs, n, m) && k in Next(Edges(defs), m)
    ensures CrossReaches(defs, n, k)
  {
    var a, b :| Turns(defs, n, a, b, m);
    StepReaches(Edges(defs), m, k);
    if b != m { ReachesOn(Edges(defs), b, m, k); }
    assert Turns(defs, n, a, b, k);
  }

  lemma BareThenCross(defs: Defs, n: nat, m: nat, k: nat)
    requires Reaches(BareEdges(defs), n, m) && k in Next(CrossEdges(defs), m)
    ensures CrossReaches(defs, n, k)
  {
    forall y: nat, z: nat | z in Next(BareEdges(defs), y) ensures Reaches(Edges(defs), y, z) {
      EdgesSplit(defs, y);
      StepReaches(Edges(defs), y, z);
    }
    ReachesWithin(BareEdges(defs), Edges(defs), n, m);
    assert Turns(defs, n, m, k, k);
  }

  lemma CrossingIs(defs: Defs)
    requires OneWay(defs)
    ensures IsCrossing(CrossingOf(defs), defs)
  {
    GraphIs(defs);
    var x := CrossingOf(defs);
    forall n: nat, m: nat | m in Next(x.cross, n) ensures Through(x, n, m) { assert Turns(defs, n, n, m, m); }
    forall n: nat, m: nat, k: nat | Through(x, n, m) && k in Next(x.g.all, m) ensures Through(x, n, k) {
      CrossOn(defs, n, m, k);
    }
    forall n: nat, m: nat, k: nat | (n, m) in x.g.reach && k in Next(x.cross, m) ensures Through(x, n, k) {
      BareThenCross(defs, n, m, k);
    }
    forall n: nat ensures Next(x.g.near, n) <= Next(x.g.all, n) && Next(x.cross, n) <= Next(x.g.all, n) {
      EdgesSplit(defs, n);
    }
  }

  /** A grammar of which no definition is on both kinds of cycle: if it compiles, no
      definition compiled reaches itself without crossing an element. */
  lemma CyclesRefused(defs: Defs, j: Joiner, starts: seq<Source>)
    requires OneWay(defs) && CompileGrammar(defs, j, starts).result.Ok?
    ensures forall n | n in CompileGrammar(defs, j, starts).state.compiled :: !Reaches(BareEdges(defs), n, n)
  {
    CrossingIs(defs);
    var x := CrossingOf(defs);
    forall k ensures !Reaches(EdgesIn(defs, Fresh), k, k) {
      if Reaches(EdgesIn(defs, Fresh), k, k) { var w := LastStep(EdgesIn(defs, Fresh), k, k); }
    }
    ReadyIs(x, defs, Fresh);
    KidsFine(x, defs, Fresh, j, starts);
    FineIs(x, defs, Fresh, CompileGrammar(defs, j, starts), BareRefsOf(starts));
    SuccessRecords(defs, j, starts);
    var s := CompileGrammar(defs, j, starts).state;
    forall n | n in s.compiled ensures !Reaches(BareEdges(defs), n, n) { WithinCompiled(defs, s, n, n); }
  }

  /** And its references can be ranked, so that following them before an element comes to
      an end. */
  lemma CompiledIsRanked(defs: Defs, j: Joiner, starts: seq<Source>, lib: Library)
    requires OneWay(defs) && CompileGrammar(defs, j, starts).result.Ok?
    ensures Ranked(Resolved(defs, CompileGrammar(defs, j, starts).state, lib))
  {
    CyclesRefused(defs, j, starts);
    AcyclicIsRanked(defs, j, starts, lib);
  }

  // ---- which definition is named -----------------------------------------

  /** A set of names closed under references. */
  ghost predicate LedOn(defs: Defs, led: iset<nat>) {
    forall n, m :: n in led && m in Next(Edges(defs), n) ==> m in led
  }

  ghost predicate Among(s: State, led: iset<nat>, refs: set<nat>) {
    && (forall m | m in s.compiled :: m !in s.at)
    && (forall m | m in s.at :: m in led) && (forall m | m in refs :: m in led)
  }

  ghost predicate NamesLed(o: Out, led: iset<nat>) {
    o.result.Err? && o.result.fault.Cyclic? ==> o.result.fault.name in led
  }

  lemma {:induction false} RefLed(defs: Defs, led: iset<nat>, s: State, n: nat)
    requires LedOn(defs, led) && Among(s, led, {n})
    ensures NamesLed(CompileRef(defs, s, n), led)
    decreases Ahead(defs, s), SRef(n), 0
  {
    if n in defs && n !in s.at && n !in s.compiled && s.expansions + 1 <= MAX_REF_EXPANSIONS {
      var e := Entered(s, n);
      assert n in Ahead(defs, s) && n !in Ahead(defs, e);
      assert forall m | m in AllRefsOf(defs[n].bodies) :: m in Next(Edges(defs), n);
      KidsLed(defs, led, e, defs[n].join, defs[n].bodies);
      NewUnfolds(defs, s, n);
    }
  }

  lemma {:induction false} PatternLed(defs: Defs, led: iset<nat>, s: State, src: Source)
    requires LedOn(defs, led) && Among(s, led, AllRefs(src))
    ensures NamesLed(CompilePattern(defs, s, src), led)
    decreases Ahead(defs, s), src, 1
  {
    if src.SRef? {
      RefLed(defs, led, s, src.to);
    } else if src.SElement? {
      var d := s.(depth := s.depth + 1);
      assert Ahead(defs, d) == Ahead(defs, s);
      KidsLed(defs, led, d, ByGroup, src.kids);
    } else if !src.SLeaf? && !(src.SAttribute? && src.kids == []) {
      KidsLed(defs, led, s, JoinerOf(src), src.kids);
    }
  }

  lemma {:induction false} KidsLed(defs: Defs, led: iset<nat>, s: State, j: Joiner, kids: seq<Source>)
    requires LedOn(defs, led) && Among(s, led, AllRefsOf(kids))
    ensures NamesLed(CompileKids(defs, s, j, kids), led)
    decreases Ahead(defs, s), kids, 2
  {
    if |kids| == 1 {
      OnlyKid(kids);
      PatternLed(defs, led, s, kids[0]);
    } else if |kids| > 1 {
      KidsLed(defs, led, s, j, kids[..|kids| - 1]);
      var o := CompileKids(defs, s, j, kids[..|kids| - 1]);
      if o.result.Ok? { PatternLed(defs, led, o.state, kids[|kids| - 1]); }
    }
  }

  /** The start refers to `n`, through others or not. */
  ghost predicate Leads(defs: Defs, starts: seq<Source>, n: nat) {
    n in AllRefsOf(starts) || exists m :: m in AllRefsOf(starts) && Reaches(Edges(defs), m, n)
  }

  lemma LeadsOn(defs: Defs, starts: seq<Source>)
    ensures LedOn(defs, iset n: nat | Leads(defs, starts, n))
  {
    forall n: nat, m: nat | Leads(defs, starts, n) && m in Next(Edges(defs), n) ensures Leads(defs, starts, m) {
      StepReaches(Edges(defs), n, m);
      if n !in AllRefsOf(starts) {
        var k :| k in AllRefsOf(starts) && Reaches(Edges(defs), k, n);
        ReachesOn(Edges(defs), k, n, m);
      }
    }
  }

  lemma LedIsCompiled(defs: Defs, j: Joiner, starts: seq<Source>, n: nat)
    requires CompileGrammar(defs, j, starts).result.Ok? && Leads(defs, starts, n)
    ensures n in CompileGrammar(defs, j, starts).state.compiled
  {
    SuccessRecords(defs, j, starts);
    var s := CompileGrammar(defs, j, starts).state;
    if n !in AllRefsOf(starts) {
      var m :| m in AllRefsOf(starts) && Reaches(Edges(defs), m, n);
      var p :| |p| >= 2 && p[0] == m && p[|p| - 1] == n && IsPath(Edges(defs), p);
      PathStays(Edges(defs), s.compiled.Keys, p, |p| - 1);
    }
  }

  /** Of such a grammar, unless it is refused for something else: it is compiled exactly
      when no definition the start leads to reaches itself without crossing an element. */
  lemma CheckExact(defs: Defs, j: Joiner, starts: seq<Source>)
    requires OneWay(defs)
    requires var r := CompileGrammar(defs, j, starts).result; r.Ok? || r.fault.Cyclic?
    ensures CompileGrammar(defs, j, starts).result.Ok?
       <==> forall n :: Leads(defs, starts, n) ==> !Reaches(BareEdges(defs), n, n)
  {
    var o := CompileGrammar(defs, j, starts);
    if o.result.Ok? {
      CyclesRefused(defs, j, starts);
      forall n | Leads(defs, starts, n) ensures !Reaches(BareEdges(defs), n, n) { LedIsCompiled(defs, j, starts, n); }
    } else {
      LeadsOn(defs, starts);
      KidsLed(defs, (iset n: nat | Leads(defs, starts, n)), Fresh, j, starts);
      RefusalsRight(defs, j, starts, o.result.fault.name);
      assert Leads(defs, starts, o.result.fault.name);
    }
  }
}
