/** What the compilation of a grammar establishes: a refusal for recursion names a
    definition that does reach itself, and on success the recorded names lie
    between the references and their chains. */
module GrammarCheck {
  import opened Basics
  import opened RelaxSyntax
  import opened References
  import opened GrammarWalk

  // ---- references left in a pattern --------------------------------------

  /** Before an element, `p` refers only to definitions in `s`. */
  predicate OnlyRefs(p: Pattern, s: set<nat>) {
    match p
    case Choice(l, r) => OnlyRefs(l, s) && OnlyRefs(r, s)
    case Group(l, r) => OnlyRefs(l, s) && OnlyRefs(r, s)
    case Interleave(l, r) => OnlyRefs(l, s) && OnlyRefs(r, s)
    case After(l, r) => OnlyRefs(l, s) && OnlyRefs(r, s)
    case OneOrMore(q) => OnlyRefs(q, s)
    case List(q) => OnlyRefs(q, s)
    case Attribute(_, q) => OnlyRefs(q, s)
    case Data(_, _, x) => x.Some? ==> OnlyRefs(x.value, s)
    case Static(q, _, _, _, _) => OnlyRefs(q, s)
    case Ref(id) => id / 2 in s
    case _ => true
  }

  lemma {:induction false} OnlyRefsMore(p: Pattern, s: set<nat>, t: set<nat>)
    requires OnlyRefs(p, s) && s <= t
    ensures OnlyRefs(p, t)
  {
    match p
    case Choice(l, r) => OnlyRefsMore(l, s, t); OnlyRefsMore(r, s, t);
    case Group(l, r) => OnlyRefsMore(l, s, t); OnlyRefsMore(r, s, t);
    case Interleave(l, r) => OnlyRefsMore(l, s, t); OnlyRefsMore(r, s, t);
    case After(l, r) => OnlyRefsMore(l, s, t); OnlyRefsMore(r, s, t);
    case OneOrMore(q) => OnlyRefsMore(q, s, t);
    case List(q) => OnlyRefsMore(q, s, t);
    case Attribute(_, q) => OnlyRefsMore(q, s, t);
    case Data(_, _, x) => if x.Some? { OnlyRefsMore(x.value, s, t); }
    case Static(q, _, _, _, _) => OnlyRefsMore(q, s, t);
    case _ =>
  }

  lemma ChoiceRefs(x: Pattern, y: Pattern, s: set<nat>)
    requires OnlyRefs(x, s) && OnlyRefs(y, s)
    ensures OnlyRefs(MkChoice(x, y), s)
  {
    ChoiceKeeps(p => OnlyRefs(p, s), x, y);
  }

  lemma PairRefs(j: Joiner, x: Pattern, y: Pattern, s: set<nat>)
    requires OnlyRefs(x, s) && OnlyRefs(y, s) && j != ByChoice
    ensures OnlyRefs(Join(j, x, y), s)
  {
  }

  lemma JoinRefs(j: Joiner, x: Pattern, y: Pattern, s: set<nat>, t: set<nat>)
    requires OnlyRefs(x, s) && OnlyRefs(y, t)
    ensures OnlyRefs(Join(j, x, y), s + t)
  {
    OnlyRefsMore(x, s, s + t);
    OnlyRefsMore(y, t, s + t);
    if j == ByChoice { ChoiceRefs(x, y, s + t); } else { PairRefs(j, x, y, s + t); }
  }

  lemma BuildRefs(src: Source, p: Pattern, s: set<nat>)
    requires OnlyRefs(p, s)
    ensures OnlyRefs(Build(src, p), if src.SElement? then {} else s)
  {
    if src.SOptional? { ChoiceRefs(p, Empty, s); }
    if src.SZeroOrMore? { ChoiceRefs(MkOneOrMore(p), Empty, s); }
  }

  /** A level above every reference is above the pattern. */
  lemma {:induction false} LevelBelow(rank: map<nat, nat>, p: Pattern, s: set<nat>, bound: nat)
    requires OnlyRefs(p, s) && forall id: nat | id / 2 in s :: RankOf(rank, id) <= bound
    ensures Level(rank, p) <= bound
  {
    match p
    case Choice(l, r) => LevelBelow(rank, l, s, bound); LevelBelow(rank, r, s, bound);
    case Group(l, r) => LevelBelow(rank, l, s, bound); LevelBelow(rank, r, s, bound);
    case Interleave(l, r) => LevelBelow(rank, l, s, bound); LevelBelow(rank, r, s, bound);
    case After(l, r) => LevelBelow(rank, l, s, bound); LevelBelow(rank, r, s, bound);
    case OneOrMore(q) => LevelBelow(rank, q, s, bound);
    case List(q) => LevelBelow(rank, q, s, bound);
    case Attribute(_, q) => LevelBelow(rank, q, s, bound);
    case Data(_, _, x) => if x.Some? { LevelBelow(rank, x.value, s, bound); }
    case Static(q, _, _, _, _) => LevelBelow(rank, q, s, bound);
    case _ =>
  }

  // ---- what every step of the walk keeps ---------------------------------

  /** A grammar's references: those that cross no element, all of them, and pairs
      that contain the first and are transitive. */
  datatype Graph = Graph(names: set<nat>, near: Relation, all: Relation, reach: iset<(nat, nat)>)

  ghost predicate Of(g: Graph, defs: Defs) {
    && g.names == defs.Keys && g.near == BareEdges(defs) && g.all == Edges(defs)
    && (forall n: nat, m: nat | m in Next(g.near, n) :: (n, m) in g.reach)
    && (forall n: nat, m: nat, k: nat :: Linked(g, n, m, k) ==> (n, k) in g.reach)
  }

  ghost predicate Linked(g: Graph, n: nat, m: nat, k: nat) { (n, m) in g.reach && (m, k) in g.reach }

  ghost predicate Known(s: State, m: nat) { m in s.at || m in s.compiled }

  ghost predicate Distinct(stack: seq<nat>) {
    forall i, j | 0 <= i < j < |stack| :: stack[i] != stack[j]
  }

  /** Each definition in progress began no deeper than those inside it. */
  ghost predicate Rising(stack: seq<nat>, at: map<nat, nat>) {
    && (forall i | 0 <= i < |stack| :: stack[i] in at)
    && (forall i, j | 0 <= i <= j < |stack| :: at[stack[i]] <= at[stack[j]])
  }

  ghost predicate StackOk(s: State) {
    && Distinct(s.stack) && Rising(s.stack, s.at)
    && (forall n | n in s.at :: n in s.stack)
    && s.bare.Keys == s.at.Keys
    && (forall n | n in s.at :: s.at[n] <= s.depth)
  }

  /** A definition in progress is reached from those around it that began at the
      same depth. */
  ghost predicate ChainOk(g: Graph, s: State) {
    forall i, j | 0 <= i < j < |s.stack| && s.stack[i] in s.at && s.stack[j] in s.at
                  && s.at[s.stack[i]] == s.at[s.stack[j]] :: (s.stack[i], s.stack[j]) in g.reach
  }

  /** A definition in progress is a reference of the one around it, if that began at
      the same depth. */
  ghost predicate EdgeOk(g: Graph, s: State) {
    forall i, j {:trigger s.stack[i], s.stack[j]} |
      0 <= i && j == i + 1 && j < |s.stack| && s.stack[i] in s.at && s.stack[j] in s.at
      && s.at[s.stack[i]] == s.at[s.stack[j]] :: s.stack[j] in Next(g.near, s.stack[i])
  }

  /** What is recorded is reached. */
  ghost predicate BareOk(g: Graph, s: State) {
    forall n: nat, m: nat | n in s.bare && m in s.bare[n] :: (n, m) in g.reach
  }

  ghost predicate KnownOk(s: State) { forall n, m | n in s.bare && m in s.bare[n] :: Known(s, m) }

  /** Of the definitions around one in progress, only those an element further out
      are recorded for it. */
  ghost predicate OuterOk(s: State) {
    forall i, j | 0 <= j <= i < |s.stack| && s.stack[i] in s.bare && s.stack[j] in s.bare[s.stack[i]] ::
      s.stack[j] in s.at && s.stack[i] in s.at && s.at[s.stack[j]] < s.at[s.stack[i]]
  }

  ghost predicate DoneOk(g: Graph, s: State, n: nat, c: Compiled) {
    && n in g.names && n !in s.at
    && Next(g.near, n) <= c.bare && n !in c.bare
    && (forall m | m in c.bare :: (n, m) in g.reach && Known(s, m))
    && (forall m | m in Next(g.all, n) :: Known(s, m))
    && OnlyRefs(c.body, Next(g.near, n)) && c.pat == SharedPattern(n, c.body)
  }

  ghost predicate AllDone(g: Graph, s: State) {
    forall n | n in s.compiled :: DoneOk(g, s, n, s.compiled[n])
  }

  ghost predicate Sound(g: Graph, s: State) {
    StackOk(s) && ChainOk(g, s) && EdgeOk(g, s) && BareOk(g, s) && OuterOk(s) && AllDone(g, s)
  }

  ghost predicate Sane(g: Graph, s: State) { Sound(g, s) && KnownOk(s) }

  /** Nothing known or recorded is forgotten, and names are recorded for the
      innermost definition alone. */
  ghost predicate Extends(s: State, s': State) {
    && Framed(s, s') && s'.bare.Keys == s.bare.Keys
    && (forall n | n in s.bare :: s.bare[n] <= s'.bare[n])
  }

  ghost predicate Proper(g: Graph, f: Fault) {
    && (f.Cyclic? ==> (f.name, f.name) in g.reach)
    && (f.Undefined? ==> f.name !in g.names)
  }

  /** The outcome of compiling something that refers to `near` without crossing an
      element, and to `all` in one way or another. */
  ghost predicate Good(g: Graph, s: State, o: Out, near: set<nat>, all: set<nat>) {
    if o.result.Err? then Proper(g, o.result.fault)
    else
      && Sane(g, o.state) && Extends(s, o.state)
      && OnlyRefs(o.result.value, near)
      && (Bare(s) ==> near <= Recorded(o.state, Top(s)))
      && (forall m | m in all :: Known(o.state, m))
  }

  /** A reference standing where no element has been crossed is one of the
      innermost definition's. */
  ghost predicate Placed(g: Graph, s: State, near: set<nat>) {
    Bare(s) ==> near <= Next(g.near, Top(s))
  }

  // ---- the steps ---------------------------------------------------------

  /** Knowing more keeps what is said of compiled definitions. */
  lemma DoneKept(g: Graph, s: State, s': State)
    requires AllDone(g, s) && s'.compiled == s.compiled
    requires forall m | Known(s, m) :: Known(s', m)
    requires forall n | n in s'.at :: n in s.at || n !in s.compiled
    ensures AllDone(g, s')
  {
    forall n | n in s'.compiled ensures DoneOk(g, s', n, s'.compiled[n]) { assert DoneOk(g, s, n, s.compiled[n]); }
  }

  lemma NotedBare(g: Graph, s: State, names: set<nat>)
    requires BareOk(g, s) && Bare(s) && forall m | m in names :: (Top(s), m) in g.reach
    ensures BareOk(g, Noted(s, names))
  {
  }

  lemma NotedOuter(s: State, names: set<nat>)
    requires StackOk(s) && OuterOk(s) && Bare(s)
    requires forall m | m in names && m in s.at :: s.at[m] < s.depth
    ensures OuterOk(Noted(s, names))
  {
    var s' := Noted(s, names);
    forall i, j | 0 <= j <= i < |s.stack| && s'.stack[i] in s'.bare && s.stack[j] in s'.bare[s.stack[i]]
      ensures s.stack[j] in s.at && s.stack[i] in s.at && s.at[s.stack[j]] < s.at[s.stack[i]]
    {
      assert s.stack[j] in s.bare[s.stack[i]] || (s.stack[i] == Top(s) && s.stack[j] in names);
    }
  }

  lemma NotedExtends(s: State, names: set<nat>)
    requires StackOk(s)
    ensures Extends(s, Noted(s, names)) && StackOk(Noted(s, names))
    ensures Bare(s) ==> names <= Recorded(Noted(s, names), Top(s))
  {
  }

  lemma NotedSound(g: Graph, s: State, names: set<nat>)
    requires Sound(g, s)
    requires Bare(s) ==> forall m | m in names :: (Top(s), m) in g.reach
    requires Bare(s) ==> forall m | m in names && m in s.at :: s.at[m] < s.depth
    ensures Sound(g, Noted(s, names)) && Extends(s, Noted(s, names))
    ensures Bare(s) ==> names <= Recorded(Noted(s, names), Top(s))
  {
    NotedExtends(s, names);
    if Bare(s) {
      var s' := Noted(s, names);
      DoneKept(g, s, s');
      NotedBare(g, s, names);
      NotedOuter(s, names);
      assert ChainOk(g, s');
      assert EdgeOk(g, s');
    }
  }

  lemma NotedKnown(s: State, names: set<nat>)
    requires KnownOk(s) && forall m | m in names :: Known(s, m)
    ensures KnownOk(Noted(s, names))
  {
    var s' := Noted(s, names);
    forall x, m | x in s'.bare && m in s'.bare[x] ensures Known(s', m) {
      if x in s.bare && m in s.bare[x] { assert Known(s, m); } else { assert m in names; }
    }
  }

  lemma RisingMore(stack: seq<nat>, at: map<nat, nat>, n: nat, depth: nat)
    requires Rising(stack, at) && n !in at && forall m | m in at :: at[m] <= depth
    ensures Rising(stack + [n], at[n := depth])
  {
    var more := stack + [n];
    assert forall i | 0 <= i < |stack| :: more[i] == stack[i] && stack[i] != n;
  }

  lemma PushedStack(s: State, n: nat)
    requires StackOk(s) && n !in s.at
    ensures StackOk(Pushed(s, n))
  {
    var s' := Pushed(s, n);
    RisingMore(s.stack, s.at, n, s.depth);
    assert Distinct(s'.stack);
    forall m | m in s'.at ensures m in s'.stack {
      assert m != n ==> m in s.stack;
      assert s'.stack[|s.stack|] == n;
    }
  }

  lemma PushedChain(g: Graph, defs: Defs, s: State, n: nat, i: nat)
    requires Of(g, defs) && StackOk(s) && ChainOk(g, s) && n !in s.at && i < |s.stack| && s.at[s.stack[i]] == s.depth
    requires (Top(s), n) in g.reach
    ensures (s.stack[i], n) in g.reach
  {
    var k := |s.stack| - 1;
    if i < k {
      assert s.at[s.stack[i]] <= s.at[s.stack[k]] <= s.depth;
      assert Linked(g, s.stack[i], s.stack[k], n);
    }
  }

  lemma PushedChains(g: Graph, defs: Defs, s: State, n: nat)
    requires Of(g, defs) && StackOk(s) && ChainOk(g, s) && n !in s.at
    requires Bare(s) ==> (Top(s), n) in g.reach
    ensures ChainOk(g, Pushed(s, n))
  {
    var s' := Pushed(s, n);
    forall i, j | 0 <= i < j < |s'.stack| && s'.stack[i] in s'.at && s'.stack[j] in s'.at
                  && s'.at[s'.stack[i]] == s'.at[s'.stack[j]]
      ensures (s'.stack[i], s'.stack[j]) in g.reach
    {
      assert s'.stack[i] == s.stack[i];
      if j == |s.stack| {
        assert s.at[s.stack[i]] <= s.at[Top(s)] <= s.depth;
        PushedChain(g, defs, s, n, i);
      } else {
        assert s'.stack[j] == s.stack[j];
      }
    }
  }

  lemma PushedEdge(g: Graph, s: State, n: nat)
    requires StackOk(s) && EdgeOk(g, s) && n !in s.at && Placed(g, s, {n})
    ensures EdgeOk(g, Pushed(s, n))
  {
    var s' := Pushed(s, n);
    forall i, j | 0 <= i && j == i + 1 && j < |s'.stack| && s'.stack[i] in s'.at && s'.stack[j] in s'.at
                  && s'.at[s'.stack[i]] == s'.at[s'.stack[j]]
      ensures s'.stack[j] in Next(g.near, s'.stack[i])
    {
      assert s'.stack[i] == s.stack[i];
      if j < |s.stack| { assert s'.stack[j] == s.stack[j]; }
    }
  }

  lemma PushedOuter(s: State, n: nat)
    requires StackOk(s) && OuterOk(s) && n !in s.at
    ensures OuterOk(Pushed(s, n))
  {
    var s' := Pushed(s, n);
    forall i, j | 0 <= j <= i < |s'.stack| && s'.stack[i] in s'.bare && s'.stack[j] in s'.bare[s'.stack[i]]
      ensures s'.stack[j] in s'.at && s'.stack[i] in s'.at && s'.at[s'.stack[j]] < s'.at[s'.stack[i]]
    {
      assert i < |s.stack|;
      assert s'.stack[i] == s.stack[i] && s'.stack[j] == s.stack[j];
    }
  }

  lemma PushedBare(g: Graph, s: State, n: nat)
    requires StackOk(s) && BareOk(g, s)
    ensures BareOk(g, Pushed(s, n))
  {
  }

  lemma PushedSound(g: Graph, defs: Defs, s: State, n: nat)
    requires Of(g, defs) && Sound(g, s) && n in g.names && n !in s.at && n !in s.compiled
    requires Placed(g, s, {n})
    ensures Sound(g, Pushed(s, n))
  {
    PushedStack(s, n);
    PushedChains(g, defs, s, n);
    PushedEdge(g, s, n);
    PushedOuter(s, n);
    PushedBare(g, s, n);
    DoneKept(g, s, Pushed(s, n));
  }

  lemma PoppedNames(s: State)
    requires StackOk(s) && s.stack != []
    ensures forall n :: n in Popped(s).stack <==> n in s.stack && n != Top(s)
  {
    var s' := Popped(s);
    assert s.stack == s'.stack + [Top(s)];
    forall n | n in s'.stack ensures n != Top(s) {
      var i :| 0 <= i < |s'.stack| && s'.stack[i] == n;
      assert s.stack[i] != s.stack[|s.stack| - 1];
    }
  }

  lemma PoppedKeys(s: State)
    requires StackOk(s) && s.stack != []
    ensures Popped(s).at.Keys == s.at.Keys - {Top(s)} && Popped(s).bare.Keys == Popped(s).at.Keys
  {
    var rest := s.stack[..|s.stack| - 1];
    assert forall n | n in rest :: n in s.stack;
    assert rest != [] ==> rest[|rest| - 1] in s.bare;
  }

  /** The outer part of a stack is in order. */
  lemma StackPrefix(s: State, s': State, k: nat)
    requires StackOk(s) && k <= |s.stack| && s'.stack == s.stack[..k] && s'.depth == s.depth
    requires forall n | n in s'.at :: n in s'.stack
    requires forall i | 0 <= i < k :: s'.stack[i] in s'.at
    requires forall n | n in s'.at :: n in s.at && s'.at[n] == s.at[n]
    requires s'.bare.Keys == s'.at.Keys
    ensures StackOk(s')
  {
    forall i, j | 0 <= i <= j < |s'.stack| ensures s'.at[s'.stack[i]] <= s'.at[s'.stack[j]] {
      assert s'.stack[i] == s.stack[i] && s'.stack[j] == s.stack[j];
    }
  }

  lemma PoppedStack(s: State)
    requires StackOk(s) && s.stack != []
    ensures StackOk(Popped(s))
  {
    PoppedNames(s);
    PoppedKeys(s);
    StackPrefix(s, Popped(s), |s.stack| - 1);
  }

  lemma PoppedChain(g: Graph, s: State)
    requires StackOk(s) && ChainOk(g, s) && EdgeOk(g, s) && s.stack != []
    ensures ChainOk(g, Popped(s)) && EdgeOk(g, Popped(s))
  {
    var s' := Popped(s);
    var k := |s.stack| - 1;
    assert forall i | 0 <= i < k :: s'.stack[i] == s.stack[i];
    assert forall n | n in s'.at :: s'.at[n] == s.at[n];
  }

  /** The names of a finished definition pass to one around it that refers to it. */
  lemma PoppedBare(g: Graph, defs: Defs, s: State, s': State)
    requires Of(g, defs) && StackOk(s) && EdgeOk(g, s) && BareOk(g, s) && s.stack != []
    requires s'.bare == Popped(s).bare
    ensures BareOk(g, s')
  {
    var n := Top(s);
    var k := |s.stack| - 1;
    forall x: nat, m: nat | x in s'.bare && m in s'.bare[x] ensures (x, m) in g.reach {
      assert x in s.bare;
      if m in s.bare[x] {
        assert (x, m) in g.reach;
      } else {
        assert k > 0 && x == s.stack[k - 1] && s.at[x] == s.at[n] && m in s.bare[n];
        assert s.stack[k] in Next(g.near, s.stack[k - 1]);
        assert Linked(g, x, n, m);
      }
    }
  }

  lemma PoppedOuter(s: State)
    requires StackOk(s) && OuterOk(s) && s.stack != []
    ensures OuterOk(Popped(s))
  {
    var s' := Popped(s);
    forall i, j | 0 <= j <= i < |s'.stack| && s'.stack[i] in s'.bare && s'.stack[j] in s'.bare[s'.stack[i]]
      ensures s'.stack[j] in s'.at && s'.stack[i] in s'.at && s'.at[s'.stack[j]] < s'.at[s'.stack[i]]
    {
      PoppedAt(s, i);
      PoppedAt(s, j);
      OuterStays(s, i, j);
    }
  }

  lemma PoppedAt(s: State, i: nat)
    requires StackOk(s) && i < |s.stack| - 1
    ensures var n := s.stack[i];
            Popped(s).stack[i] == n && n in Popped(s).at && Popped(s).at[n] == s.at[n]
  {
    assert s.stack[i] != s.stack[|s.stack| - 1];
  }

  /** What a definition records after the innermost is taken off, it or that one
      recorded before. */
  lemma OuterStays(s: State, i: nat, j: nat)
    requires StackOk(s) && OuterOk(s) && j <= i < |s.stack| - 1
    requires s.stack[i] in Popped(s).bare && s.stack[j] in Popped(s).bare[s.stack[i]]
    ensures s.stack[j] in s.at && s.stack[i] in s.at && s.at[s.stack[j]] < s.at[s.stack[i]]
  {
    var k := |s.stack| - 1;
    assert s.stack[..k][i] == s.stack[i];
    assert s.stack[i] != s.stack[k];
    if s.stack[j] !in s.bare[s.stack[i]] {
      assert s.stack[j] in s.bare[s.stack[k]] && s.stack[..k][k - 1] == s.stack[i];
    }
  }

  lemma FinishedSane(g: Graph, defs: Defs, s: State, p: Pattern)
    requires Of(g, defs) && Sane(g, s) && s.stack != [] && Top(s) in g.names && Top(s) !in s.compiled
    requires Next(g.near, Top(s)) <= Recorded(s, Top(s))
    requires forall m | m in Next(g.all, Top(s)) :: Known(s, m)
    requires OnlyRefs(p, Next(g.near, Top(s)))
    ensures Sane(g, Finished(s, p))
  {
    var n := Top(s);
    var s' := Finished(s, p);
    PoppedStack(s);
    PoppedKeys(s);
    PoppedChain(g, s);
    PoppedOuter(s);
    SameStack(g, Popped(s), s');
    PoppedBare(g, defs, s, s');
    FinishedKnown(s, p);
    FinishedDone(g, s, s', p);
  }

  /** What is said of the definitions in progress does not depend on those compiled. */
  lemma SameStack(g: Graph, s: State, t: State)
    requires StackOk(s) && ChainOk(g, s) && EdgeOk(g, s) && OuterOk(s)
    requires t.at == s.at && t.bare == s.bare && t.stack == s.stack && t.depth == s.depth
    ensures StackOk(t) && ChainOk(g, t) && EdgeOk(g, t) && OuterOk(t)
  {
    forall i, j | 0 <= j <= i < |t.stack| && t.stack[i] in t.bare && t.stack[j] in t.bare[t.stack[i]]
      ensures t.stack[j] in t.at && t.stack[i] in t.at && t.at[t.stack[j]] < t.at[t.stack[i]]
    {
      assert s.stack[j] in s.bare[s.stack[i]];
    }
  }

  lemma FinishedKnown(s: State, p: Pattern)
    requires KnownOk(s) && StackOk(s) && s.stack != []
    ensures KnownOk(Finished(s, p))
  {
    var s' := Finished(s, p);
    var n := Top(s);
    assert forall m | Known(s, m) :: Known(s', m);
    forall x, m | x in s'.bare && m in s'.bare[x] ensures Known(s', m) {
      assert m in Recorded(s, x) || m in Recorded(s, n);
      assert Known(s, m);
    }
  }

  lemma FinishedDone(g: Graph, s: State, s': State, p: Pattern)
    requires StackOk(s) && BareOk(g, s) && KnownOk(s) && OuterOk(s) && AllDone(g, s) && s.stack != []
    requires Top(s) in g.names && Top(s) !in s.compiled
    requires Next(g.near, Top(s)) <= Recorded(s, Top(s))
    requires forall m | m in Next(g.all, Top(s)) :: Known(s, m)
    requires OnlyRefs(p, Next(g.near, Top(s)))
    requires s'.at.Keys == s.at.Keys - {Top(s)}
    requires s'.compiled == s.compiled[Top(s) := Compiled(SharedPattern(Top(s), p), p, Recorded(s, Top(s)))]
    ensures AllDone(g, s')
  {
    var n := Top(s);
    assert forall m | Known(s, m) :: Known(s', m);
    assert n in s.at && n in s.bare && n !in s.bare[n] by { assert s.stack[|s.stack| - 1] == n; }
    assert DoneOk(g, s', n, s'.compiled[n]);
    forall m | m in s.compiled && m != n ensures DoneOk(g, s', m, s.compiled[m]) {
      assert DoneOk(g, s, m, s.compiled[m]);
    }
  }

  /** What matters of a state: the stack, what is recorded, what is compiled, and
      that no definition in progress began deeper. */
  lemma DepthSound(g: Graph, s: State, s': State)
    requires Sound(g, s)
    requires s'.at == s.at && s'.bare == s.bare && s'.stack == s.stack && s'.compiled == s.compiled
    requires forall n | n in s.at :: s.at[n] <= s'.depth
    ensures Sound(g, s')
  {
    assert StackOk(s') && ChainOk(g, s') && EdgeOk(g, s') && BareOk(g, s') && OuterOk(s');
    DoneKept(g, s, s');
  }

  // ---- one reference -----------------------------------------------------

  /** A definition in progress that no element stands before, reached from the
      innermost one, reaches itself. */
  lemma ClosesCycle(g: Graph, defs: Defs, s: State, m: nat)
    requires Of(g, defs) && StackOk(s) && ChainOk(g, s) && m in s.at && s.depth <= s.at[m]
    requires Bare(s) ==> (Top(s), m) in g.reach
    ensures (m, m) in g.reach
  {
    var k := |s.stack| - 1;
    var i :| 0 <= i < |s.stack| && s.stack[i] == m;
    assert s.at[s.stack[i]] <= s.at[s.stack[k]] <= s.depth;
    assert Bare(s);
    if i < k { assert Linked(g, m, Top(s), m); }
  }

  lemma SharedRefs(n: nat, p: Pattern)
    ensures OnlyRefs(SharedPattern(n, p), {n})
  {
  }

  lemma LazyGood(g: Graph, defs: Defs, s: State, n: nat)
    requires Of(g, defs) && Sane(g, s) && Placed(g, s, {n}) && n in s.at && n in defs
    ensures var r := if s.depth <= s.at[n] then Err(Cyclic(n)) else Ok(Ref(Lazy(n)));
            Good(g, s, Out(r, Noted(s, {n})), {n}, {n})
  {
    if s.depth <= s.at[n] {
      ClosesCycle(g, defs, s, n);
    } else {
      NotedSound(g, s, {n});
      NotedKnown(s, {n});
      assert OnlyRefs(Ref(Lazy(n)), {n});
    }
  }

  lemma NotedTwice(s: State, n: nat, names: set<nat>)
    ensures Noted(Noted(s, {n}), names) == Noted(s, {n} + names)
  {
    if Bare(s) {
      var d := Top(s);
      assert Recorded(s, d) + {n} + names == Recorded(s, d) + ({n} + names);
      assert s.bare[d := Recorded(s, d) + {n}][d := Recorded(s, d) + {n} + names]
          == s.bare[d := Recorded(s, d) + ({n} + names)];
    }
  }

  lemma ReusedGood(g: Graph, defs: Defs, s: State, n: nat)
    requires Of(g, defs) && Sane(g, s) && Placed(g, s, {n}) && n !in s.at && n in s.compiled
    requires Closing(s, s.compiled[n].bare) == {}
    ensures Good(g, s, Out(Ok(s.compiled[n].pat), Noted(Noted(s, {n}), s.compiled[n].bare)), {n}, {n})
  {
    var c := s.compiled[n];
    assert DoneOk(g, s, n, c);
    NotedTwice(s, n, c.bare);
    forall m | Bare(s) && m in {n} + c.bare ensures (Top(s), m) in g.reach {
      if m != n { assert Linked(g, Top(s), n, m); }
    }
    forall m | m in {n} + c.bare && m in s.at ensures s.at[m] < s.depth {
      assert m !in Closing(s, c.bare);
    }
    NotedSound(g, s, {n} + c.bare);
    NotedKnown(s, {n} + c.bare);
    SharedRefs(n, c.body);
  }

  lemma ReusedProper(g: Graph, defs: Defs, s: State, n: nat)
    requires Of(g, defs) && Sane(g, s) && Placed(g, s, {n}) && n in s.compiled
    requires Closing(s, s.compiled[n].bare) != {}
    ensures Proper(g, Cyclic(Least(Closing(s, s.compiled[n].bare))))
  {
    var c := s.compiled[n];
    assert DoneOk(g, s, n, c);
    var m := Least(Closing(s, c.bare));
    assert Bare(s) ==> Linked(g, Top(s), n, m);
    ClosesCycle(g, defs, s, m);
  }

  lemma EnteredSane(g: Graph, defs: Defs, s: State, n: nat)
    requires Of(g, defs) && Sane(g, s) && Placed(g, s, {n}) && n in defs && n !in s.at && n !in s.compiled
    ensures Sane(g, Entered(s, n)) && Bare(Entered(s, n))
  {
    NotedSound(g, s, {n});
    NotedPlaced(g, s, n);
    PushedSound(g, defs, Noted(s, {n}), n);
    EnteredKnown(s, n);
  }

  lemma NotedPlaced(g: Graph, s: State, n: nat)
    requires Placed(g, s, {n})
    ensures Placed(g, Noted(s, {n}), {n})
    ensures Noted(s, {n}).at == s.at && Noted(s, {n}).compiled == s.compiled
  {
  }

  lemma EnteredKeeps(s: State, n: nat)
    requires StackOk(s) && n !in s.at
    ensures Bare(s) ==> n in Recorded(Entered(s, n), Top(s))
    ensures forall m | m in s.bare :: m in Entered(s, n).bare && s.bare[m] <= Entered(s, n).bare[m]
  {
  }

  lemma EnteredKnown(s: State, n: nat)
    requires KnownOk(s)
    ensures KnownOk(Entered(s, n))
  {
    var s' := Entered(s, n);
    forall x, m | x in s'.bare && m in s'.bare[x] ensures Known(s', m) {
      if x in s.bare && m in s.bare[x] { assert Known(s, m); } else { assert m == n; }
    }
  }

  /** Leaving the innermost definition forgets nothing of those around it. */
  lemma PoppedKeeps(s: State, m: nat)
    requires StackOk(s) && s.stack != [] && m in s.bare && m != Top(s)
    ensures m in Popped(s).bare && s.bare[m] <= Popped(s).bare[m]
  {
  }

  /** Nor does going through a definition, of what was there before. */
  lemma FinishedExtends(s: State, e: State, n: nat, p: Pattern)
    requires StackOk(s) && n !in s.at && StackOk(e)
    requires e.at == s.at[n := s.depth] && e.stack == s.stack + [n] && e.depth == s.depth
    requires s.compiled.Keys <= e.compiled.Keys
    requires forall m | m in s.bare :: m in e.bare && s.bare[m] <= e.bare[m]
    ensures Extends(s, Finished(e, p))
  {
    PoppedKeys(e);
    PoppedFramed(s, n, e);
    forall m | m in s.bare ensures m in Popped(e).bare && s.bare[m] <= Popped(e).bare[m] { PoppedKeeps(e, m); }
  }

  lemma EnteredExtends(s: State, e: State, n: nat)
    requires StackOk(s) && n !in s.at && Extends(Entered(s, n), e)
    ensures e.at == s.at[n := s.depth] && e.stack == s.stack + [n] && e.depth == s.depth
    ensures s.compiled.Keys <= e.compiled.Keys
    ensures forall m | m in s.bare :: m in e.bare && s.bare[m] <= e.bare[m]
    ensures Bare(s) ==> n in Recorded(e, Top(s))
  {
    EnteredKeeps(s, n);
  }

  // ---- the whole walk ----------------------------------------------------

  lemma {:induction false} RefGood(g: Graph, defs: Defs, s: State, n: nat)
    requires Of(g, defs) && Sane(g, s) && Placed(g, s, {n})
    ensures Good(g, s, CompileRef(defs, s, n), {n}, {n})
    decreases Ahead(defs, s), SRef(n), 1
  {
    if n in defs {
      if n in s.at {
        LazyGood(g, defs, s, n);
      } else if n in s.compiled {
        if Closing(s, s.compiled[n].bare) == {} { ReusedGood(g, defs, s, n); } else { ReusedProper(g, defs, s, n); }
      } else if s.expansions + 1 <= MAX_REF_EXPANSIONS {
        NewGood(g, defs, s, n);
      }
    }
  }

  lemma {:induction false} NewGood(g: Graph, defs: Defs, s: State, n: nat)
    requires Of(g, defs) && Sane(g, s) && Placed(g, s, {n})
    requires n in defs && n !in s.at && n !in s.compiled && s.expansions + 1 <= MAX_REF_EXPANSIONS
    ensures Good(g, s, CompileRef(defs, s, n), {n}, {n})
    decreases Ahead(defs, s), SRef(n), 0
  {
    EnteredSane(g, defs, s, n);
    var e := Entered(s, n);
    assert n in Ahead(defs, s) && n !in Ahead(defs, e);
    KidsGood(g, defs, e, defs[n].join, defs[n].bodies);
    LeftGood(g, defs, s, n, CompileKids(defs, e, defs[n].join, defs[n].bodies));
    NewUnfolds(defs, s, n);
  }

  lemma NewUnfolds(defs: Defs, s: State, n: nat)
    requires forall m | m in s.compiled :: m !in s.at
    requires n in defs && n !in s.at && n !in s.compiled && s.expansions + 1 <= MAX_REF_EXPANSIONS
    ensures var o := CompileKids(defs, Entered(s, n), defs[n].join, defs[n].bodies);
            o.state.stack != [] && CompileRef(defs, s, n) == Left(o)
  {
  }

  lemma LeftGood(g: Graph, defs: Defs, s: State, n: nat, o: Out)
    requires Of(g, defs) && Sane(g, s) && n in defs && n !in s.at && n !in s.compiled
    requires Bare(Entered(s, n)) && Good(g, Entered(s, n), o, BareRefsOf(defs[n].bodies), AllRefsOf(defs[n].bodies))
    requires Framed(Entered(s, n), o.state)
    ensures o.state.stack != [] && Good(g, s, Left(o), {n}, {n})
  {
    if o.result.Ok? {
      var (e, p) := (o.state, o.result.value);
      EnteredExtends(s, e, n);
      FinishedExtends(s, e, n, p);
      FinishedSane(g, defs, e, p);
      SharedRefs(n, p);
      assert n in Finished(e, p).compiled;
      if Bare(s) { PoppedKeeps(e, Top(s)); }
    }
  }

  lemma {:induction false} PatternGood(g: Graph, defs: Defs, s: State, src: Source)
    requires Of(g, defs) && Sane(g, s) && Placed(g, s, BareRefs(src))
    ensures Good(g, s, CompilePattern(defs, s, src), BareRefs(src), AllRefs(src))
    decreases Ahead(defs, s), src, 2
  {
    if src.SRef? {
      RefGood(g, defs, s, src.to);
    } else if src.SElement? {
      ElementGood(g, defs, s, src);
    } else if !src.SLeaf? && !(src.SAttribute? && src.kids == []) {
      KidsGood(g, defs, s, JoinerOf(src), src.kids);
      BuiltGood(g, s, src, CompileKids(defs, s, JoinerOf(src), src.kids), BareRefsOf(src.kids), AllRefsOf(src.kids));
    }
  }

  lemma {:induction false} ElementGood(g: Graph, defs: Defs, s: State, src: Source)
    requires Of(g, defs) && Sane(g, s) && Placed(g, s, {}) && src.SElement?
    ensures Good(g, s, CompilePattern(defs, s, src), {}, AllRefsOf(src.kids))
    decreases Ahead(defs, s), src, 1
  {
    var d := s.(depth := s.depth + 1);
    DeeperSane(g, s, s.depth + 1);
    KidsGood(g, defs, d, ByGroup, src.kids);
    CrossedGood(g, s, src, CompileKids(defs, d, ByGroup, src.kids), BareRefsOf(src.kids), AllRefsOf(src.kids));
  }

  lemma BuiltGood(g: Graph, s: State, src: Source, o: Out, near: set<nat>, all: set<nat>)
    requires Good(g, s, o, near, all) && !src.SElement?
    ensures Good(g, s, Out(Built(src, o.result), o.state), near, all)
  {
    if o.result.Ok? { BuildRefs(src, o.result.value, near); }
  }

  /** Inside an element nothing is recorded for the definitions around it. */
  lemma CrossedGood(g: Graph, s: State, src: Source, o: Out, near: set<nat>, all: set<nat>)
    requires Sane(g, s) && src.SElement? && Good(g, s.(depth := s.depth + 1), o, near, all)
    ensures Good(g, s, Out(Built(src, o.result), o.state.(depth := s.depth)), {}, all)
  {
    if o.result.Ok? {
      BuildRefs(src, o.result.value, near);
      DeeperSane(g, o.state, s.depth);
      assert forall m | Known(o.state, m) :: Known(o.state.(depth := s.depth), m);
    }
  }

  lemma DeeperSane(g: Graph, s: State, d: nat)
    requires Sane(g, s) && forall n | n in s.at :: s.at[n] <= d
    ensures Sane(g, s.(depth := d))
  {
    DepthSound(g, s, s.(depth := d));
    forall x, m | x in s.bare && m in s.bare[x] ensures Known(s.(depth := d), m) { assert Known(s, m); }
  }

  lemma ExtendsOn(s: State, s': State, s'': State)
    requires Extends(s, s') && Extends(s', s'')
    ensures Extends(s, s'')
    ensures forall n :: Recorded(s', n) <= Recorded(s'', n)
    ensures forall m | Known(s', m) :: Known(s'', m)
  {
  }

  lemma NearTogether(s: State, s': State, s'': State, near: set<nat>, near2: set<nat>)
    requires Bare(s) && Extends(s, s') && Extends(s', s'')
    requires near <= Recorded(s', Top(s)) && (Bare(s') ==> near2 <= Recorded(s'', Top(s')))
    ensures near + near2 <= Recorded(s'', Top(s))
  {
  }

  lemma PlacedParts(g: Graph, s: State, s': State, kids: seq<Source>)
    requires |kids| > 1 && Placed(g, s, BareRefsOf(kids)) && Framed(s, s')
    ensures Placed(g, s', BareRefsOf(kids[..|kids| - 1])) && Placed(g, s', BareRefs(kids[|kids| - 1]))
  {
  }

  lemma JoinGood(g: Graph, s: State, j: Joiner, o: Out, q: Out, near: set<nat>, all: set<nat>,
                 near2: set<nat>, all2: set<nat>)
    requires Good(g, s, o, near, all) && o.result.Ok? && Good(g, o.state, q, near2, all2)
    ensures Good(g, s, Out(Joined(j, o.result.value, q.result), q.state), near + near2, all + all2)
  {
    if q.result.Ok? {
      JoinRefs(j, o.result.value, q.result.value, near, near2);
      ExtendsOn(s, o.state, q.state);
      if Bare(s) { NearTogether(s, o.state, q.state, near, near2); }
    }
  }

  lemma {:induction false} KidsGood(g: Graph, defs: Defs, s: State, j: Joiner, kids: seq<Source>)
    requires Of(g, defs) && Sane(g, s) && Placed(g, s, BareRefsOf(kids))
    ensures Good(g, s, CompileKids(defs, s, j, kids), BareRefsOf(kids), AllRefsOf(kids))
    decreases Ahead(defs, s), kids, 3
  {
    if |kids| == 1 {
      OnlyKid(kids);
      PatternGood(g, defs, s, kids[0]);
    } else if |kids| > 1 {
      LaterGood(g, defs, s, j, kids);
    }
  }

  lemma {:induction false} LaterGood(g: Graph, defs: Defs, s: State, j: Joiner, kids: seq<Source>)
    requires Of(g, defs) && Sane(g, s) && Placed(g, s, BareRefsOf(kids)) && |kids| > 1
    ensures Good(g, s, CompileKids(defs, s, j, kids), BareRefsOf(kids), AllRefsOf(kids))
    decreases Ahead(defs, s), kids, 2
  {
    PlacedParts(g, s, s, kids);
    KidsGood(g, defs, s, j, kids[..|kids| - 1]);
    LastGood(g, defs, s, j, kids, CompileKids(defs, s, j, kids[..|kids| - 1]));
  }

  lemma {:induction false} LastGood(g: Graph, defs: Defs, s: State, j: Joiner, kids: seq<Source>, o: Out)
    requires Of(g, defs) && Sane(g, s) && Placed(g, s, BareRefsOf(kids)) && |kids| > 1
    requires o == CompileKids(defs, s, j, kids[..|kids| - 1]) && Framed(s, o.state)
    requires Good(g, s, o, BareRefsOf(kids[..|kids| - 1]), AllRefsOf(kids[..|kids| - 1]))
    ensures Good(g, s, CompileKids(defs, s, j, kids), BareRefsOf(kids), AllRefsOf(kids))
    decreases Ahead(defs, s), kids, 1
  {
    var last := kids[|kids| - 1];
    if o.result.Ok? {
      PlacedParts(g, s, o.state, kids);
      PatternGood(g, defs, o.state, last);
      MoreGood(g, defs, s, j, kids, o, CompilePattern(defs, o.state, last));
    } else {
      MoreGood(g, defs, s, j, kids, o, o);
    }
  }

  lemma MoreGood(g: Graph, defs: Defs, s: State, j: Joiner, kids: seq<Source>, o: Out, q: Out)
    requires |kids| > 1 && forall m | m in s.compiled :: m !in s.at
    requires o == CompileKids(defs, s, j, kids[..|kids| - 1])
    requires q == if o.result.Ok? then CompilePattern(defs, o.state, kids[|kids| - 1]) else o
    requires Good(g, s, o, BareRefsOf(kids[..|kids| - 1]), AllRefsOf(kids[..|kids| - 1]))
    requires o.result.Ok? ==> Good(g, o.state, q, BareRefs(kids[|kids| - 1]), AllRefs(kids[|kids| - 1]))
    ensures Good(g, s, CompileKids(defs, s, j, kids), BareRefsOf(kids), AllRefsOf(kids))
  {
    var (init, last) := (kids[..|kids| - 1], kids[|kids| - 1]);
    if o.result.Ok? {
      JoinGood(g, s, j, o, q, BareRefsOf(init), AllRefsOf(init), BareRefs(last), AllRefs(last));
    }
  }

  lemma OnlyKid(kids: seq<Source>)
    requires |kids| == 1
    ensures BareRefsOf(kids) == BareRefs(kids[0]) && AllRefsOf(kids) == AllRefs(kids[0])
  {
    assert kids[..|kids| - 1] == [];
    assert {} + BareRefs(kids[0]) == BareRefs(kids[0]) && {} + AllRefs(kids[0]) == AllRefs(kids[0]);
  }
}
