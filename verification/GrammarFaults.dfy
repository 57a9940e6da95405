/** Which grammars compile: every fault is named rightly, and without one of them a grammar
    compiles. */
module GrammarFaults {
  import opened Basics
  import opened RelaxSyntax
  import opened References
  import opened GrammarWalk
  import opened GrammarCheck
  import opened GrammarTheorems
  import opened GrammarExact
  import opened GrammarSchema

  /** Whatever asks for patterns inside has some; an attribute need not. */
  predicate Solid(src: Source)
    decreases src, 0
  {
    src.SLeaf? || src.SRef? || (src.SAttribute? && src.kids == []) || AllSolid(src.kids)
  }

  predicate AllSolid(kids: seq<Source>)
    decreases kids, 1
  {
    kids != [] && forall i | 0 <= i < |kids| :: Solid(kids[i])
  }

  /** The definitions the start leads to. */
  ghost function Needed(defs: Defs, starts: seq<Source>): set<nat> { set n | n in defs && Leads(defs, starts, n) }

  /** Definitions begun so far are among those needed, and counted. */
  ghost predicate Begun(s: State, needed: set<nat>) {
    && Started(s) <= needed && s.expansions == |Started(s)| <= MAX_REF_EXPANSIONS
    && forall m | m in s.compiled :: m !in s.at
  }

  function Started(s: State): set<nat> { s.at.Keys + s.compiled.Keys }

  ghost predicate Blamed(defs: Defs, led: iset<nat>, needed: set<nat>, f: Fault) {
    match f
    case Cyclic(n) => n in led
    case Undefined(n) => n in led && n !in defs
    case NoPattern => exists n :: n in needed && n in defs && !AllSolid(defs[n].bodies)
    case TooMany => |needed| > MAX_REF_EXPANSIONS
  }

  ghost predicate NeededOf(defs: Defs, led: iset<nat>, needed: set<nat>) {
    LedOn(defs, led) && forall n :: n in needed <==> n in defs && n in led
  }

  /** What becomes of compiling: definitions are counted, and a fault is there, unless it is
      that something compiled here lacks patterns. */
  ghost predicate Answers(defs: Defs, led: iset<nat>, needed: set<nat>, solid: bool, o: Out) {
    if o.result.Ok? then Begun(o.state, needed)
    else Blamed(defs, led, needed, o.result.fault) || (!solid && o.result.fault.NoPattern?)
  }

  lemma {:induction false} RefAnswers(defs: Defs, led: iset<nat>, needed: set<nat>, s: State, n: nat)
    requires NeededOf(defs, led, needed) && Begun(s, needed) && n in led
    ensures Answers(defs, led, needed, true, CompileRef(defs, s, n))
    decreases Ahead(defs, s), SRef(n), 1
  {
    if n in defs && n !in s.at && n !in s.compiled {
      if s.expansions + 1 <= MAX_REF_EXPANSIONS {
        NewAnswers(defs, led, needed, s, n);
      } else {
        MoreNeeded(Started(s), needed, n);
      }
    } else {
      SeenAnswers(defs, led, needed, s, n);
    }
  }

  lemma SeenAnswers(defs: Defs, led: iset<nat>, needed: set<nat>, s: State, n: nat)
    requires NeededOf(defs, led, needed) && Begun(s, needed) && n in led && (n !in defs || n in Started(s))
    ensures Answers(defs, led, needed, true, CompileRef(defs, s, n))
  {
    var o := CompileRef(defs, s, n);
    SeenOnly(defs, s, n);
    if o.result.Ok? {
      SameBegun(s, o.state, needed);
    } else {
      assert Blamed(defs, led, needed, o.result.fault);
    }
  }

  /** A definition seen before begins nothing, and its only faults are these. */
  lemma SeenOnly(defs: Defs, s: State, n: nat)
    requires (forall m | m in s.compiled :: m !in s.at) && (n !in defs || n in Started(s))
    ensures var o := CompileRef(defs, s, n);
            if o.result.Ok? then
              o.state.at == s.at && o.state.compiled == s.compiled && o.state.expansions == s.expansions
            else if n !in defs then o.result.fault == Undefined(n)
            else o.result.fault.Cyclic? && (o.result.fault.name == n || o.result.fault.name in s.at)
  {
  }

  lemma SameBegun(s: State, t: State, needed: set<nat>)
    requires Begun(s, needed) && t.at == s.at && t.compiled == s.compiled && t.expansions == s.expansions
    ensures Begun(t, needed)
  {
  }

  lemma {:induction false} NewAnswers(defs: Defs, led: iset<nat>, needed: set<nat>, s: State, n: nat)
    requires NeededOf(defs, led, needed) && Begun(s, needed) && n in led
    requires n in defs && n !in s.at && n !in s.compiled && s.expansions + 1 <= MAX_REF_EXPANSIONS
    ensures Answers(defs, led, needed, true, CompileRef(defs, s, n))
    decreases Ahead(defs, s), SRef(n), 0
  {
    var e := Entered(s, n);
    assert n in Ahead(defs, s) && n !in Ahead(defs, e);
    assert forall m | m in AllRefsOf(defs[n].bodies) :: m in Next(Edges(defs), n);
    EnteredBegun(s, needed, n);
    KidsAnswer(defs, led, needed, e, defs[n].join, defs[n].bodies);
    NewUnfolds(defs, s, n);
    NewDone(defs, led, needed, s, n, CompileKids(defs, e, defs[n].join, defs[n].bodies));
  }

  lemma NewDone(defs: Defs, led: iset<nat>, needed: set<nat>, s: State, n: nat, o: Out)
    requires NeededOf(defs, led, needed) && n in led && n in defs && Framed(Entered(s, n), o.state)
    requires Answers(defs, led, needed, AllSolid(defs[n].bodies), o)
    ensures o.state.stack != [] && Answers(defs, led, needed, true, Left(o))
  {
    if o.result.Ok? { LeftBegun(o, needed, n); }
  }

  lemma MoreNeeded(begun: set<nat>, needed: set<nat>, n: nat)
    requires begun <= needed && n in needed && n !in begun
    ensures |begun| < |needed|
  {
    SubsetSize(begun + {n}, needed);
  }

  lemma {:induction false} SubsetSize(a: set<nat>, b: set<nat>)
    requires a <= b
    ensures |a| <= |b|
    decreases |a|
  {
    if a != {} {
      var x :| x in a;
      SubsetSize(a - {x}, b - {x});
    }
  }

  lemma EnteredBegun(s: State, needed: set<nat>, n: nat)
    requires Begun(s, needed) && n in needed && n !in s.at && n !in s.compiled
    requires s.expansions + 1 <= MAX_REF_EXPANSIONS
    ensures Begun(Entered(s, n), needed)
  {
    var e := Entered(s, n);
    assert Started(e) == Started(s) + {n};
  }

  lemma LeftBegun(o: Out, needed: set<nat>, n: nat)
    requires Begun(o.state, needed) && o.result.Ok? && o.state.stack != [] && Top(o.state) == n && n in o.state.at
    ensures Begun(Left(o).state, needed)
  {
    var l := Left(o).state;
    LeftKeys(o, n);
    Moved(o.state.at.Keys, o.state.compiled.Keys, n);
  }

  lemma Moved(a: set<nat>, c: set<nat>, n: nat)
    requires n in a
    ensures (a - {n}) + (c + {n}) == a + c
  {
  }

  lemma LeftKeys(o: Out, n: nat)
    requires o.result.Ok? && o.state.stack != [] && Top(o.state) == n
    ensures Left(o).state.at.Keys == o.state.at.Keys - {n}
    ensures Left(o).state.compiled.Keys == o.state.compiled.Keys + {n}
    ensures Left(o).state.expansions == o.state.expansions
  {
  }

  /** An outcome passed on, of a part or of the whole. */
  lemma PassedOn(defs: Defs, led: iset<nat>, needed: set<nat>, part: bool, o: Out, whole: bool, q: Out)
    requires Answers(defs, led, needed, part, o) && (whole ==> part)
    requires if o.result.Ok? then q.result.Ok? else q.result == o.result
    requires q.state.at == o.state.at && q.state.compiled == o.state.compiled
    requires q.state.expansions == o.state.expansions
    ensures Answers(defs, led, needed, whole, q)
  {
    if o.result.Ok? { SameBegun(o.state, q.state, needed); }
  }

  lemma {:induction false} PatternAnswers(defs: Defs, led: iset<nat>, needed: set<nat>, s: State, src: Source)
    requires NeededOf(defs, led, needed) && Begun(s, needed) && forall m | m in AllRefs(src) :: m in led
    ensures Answers(defs, led, needed, Solid(src), CompilePattern(defs, s, src))
    decreases Ahead(defs, s), src, 2
  {
    if src.SRef? {
      assert src.to in AllRefs(src);
      RefAnswers(defs, led, needed, s, src.to);
    } else if src.SElement? {
      ElementAnswers(defs, led, needed, s, src);
    } else if !src.SLeaf? && !(src.SAttribute? && src.kids == []) {
      var o := CompileKids(defs, s, JoinerOf(src), src.kids);
      KidsAnswer(defs, led, needed, s, JoinerOf(src), src.kids);
      PassedOn(defs, led, needed, AllSolid(src.kids), o, Solid(src), Out(Built(src, o.result), o.state));
    }
  }

  lemma {:induction false} ElementAnswers(defs: Defs, led: iset<nat>, needed: set<nat>, s: State, src: Source)
    requires NeededOf(defs, led, needed) && Begun(s, needed) && src.SElement?
    requires forall m | m in AllRefsOf(src.kids) :: m in led
    ensures Answers(defs, led, needed, Solid(src), CompilePattern(defs, s, src))
    decreases Ahead(defs, s), src, 1
  {
    var d := s.(depth := s.depth + 1);
    DeeperSame(defs, s, d, needed);
    KidsAnswer(defs, led, needed, d, ByGroup, src.kids);
    ElementIs(defs, s, src);
    ElementPassed(defs, led, needed, s, src, CompileKids(defs, d, ByGroup, src.kids), CompilePattern(defs, s, src));
  }

  lemma ElementIs(defs: Defs, s: State, src: Source)
    requires src.SElement? && forall m | m in s.compiled :: m !in s.at
    ensures var o := CompileKids(defs, s.(depth := s.depth + 1), ByGroup, src.kids);
            CompilePattern(defs, s, src) == Out(Built(src, o.result), o.state.(depth := s.depth))
  {
  }

  lemma DeeperSame(defs: Defs, s: State, d: State, needed: set<nat>)
    requires Begun(s, needed) && d == s.(depth := s.depth + 1)
    ensures Ahead(defs, d) == Ahead(defs, s) && Begun(d, needed)
  {
    SameBegun(s, d, needed);
  }

  lemma ElementPassed(defs: Defs, led: iset<nat>, needed: set<nat>, s: State, src: Source, o: Out,
                      q: Out)
    requires src.SElement? && Answers(defs, led, needed, AllSolid(src.kids), o)
    requires q == Out(Built(src, o.result), o.state.(depth := s.depth))
    ensures Answers(defs, led, needed, Solid(src), q)
  {
    PassedOn(defs, led, needed, AllSolid(src.kids), o, Solid(src), q);
  }

  lemma {:induction false} KidsAnswer(defs: Defs, led: iset<nat>, needed: set<nat>, s: State, j: Joiner,
                                      kids: seq<Source>)
    requires NeededOf(defs, led, needed) && Begun(s, needed) && forall m | m in AllRefsOf(kids) :: m in led
    ensures Answers(defs, led, needed, AllSolid(kids), CompileKids(defs, s, j, kids))
    decreases Ahead(defs, s), kids, 4
  {
    if |kids| == 1 {
      OnlyKid(kids);
      PatternAnswers(defs, led, needed, s, kids[0]);
      assert AllSolid(kids) ==> Solid(kids[0]);
      PassedOn(defs, led, needed, Solid(kids[0]), CompilePattern(defs, s, kids[0]), AllSolid(kids),
               CompileKids(defs, s, j, kids));
    } else if |kids| > 1 {
      KidsAnswer(defs, led, needed, s, j, kids[..|kids| - 1]);
      LastAnswers(defs, led, needed, s, j, kids, CompileKids(defs, s, j, kids[..|kids| - 1]));
    }
  }

  lemma {:induction false} LastAnswers(defs: Defs, led: iset<nat>, needed: set<nat>, s: State, j: Joiner,
                                       kids: seq<Source>, o: Out)
    requires NeededOf(defs, led, needed) && Begun(s, needed)
    requires |kids| > 1 && forall m | m in AllRefs(kids[|kids| - 1]) :: m in led
    requires o == CompileKids(defs, s, j, kids[..|kids| - 1]) && Framed(s, o.state)
    requires Answers(defs, led, needed, AllSolid(kids[..|kids| - 1]), o)
    ensures Answers(defs, led, needed, AllSolid(kids), CompileKids(defs, s, j, kids))
    decreases Ahead(defs, s), kids, 3
  {
    if o.result.Ok? {
      var last := kids[|kids| - 1];
      PatternAnswers(defs, led, needed, o.state, last);
      LastPassed(defs, led, needed, j, kids, o, CompilePattern(defs, o.state, last));
    } else {
      InitSolid(kids);
      PassedOn(defs, led, needed, AllSolid(kids[..|kids| - 1]), o, AllSolid(kids), o);
    }
  }

  lemma InitSolid(kids: seq<Source>)
    requires |kids| > 1
    ensures AllSolid(kids) ==> AllSolid(kids[..|kids| - 1]) && Solid(kids[|kids| - 1])
  {
  }

  lemma LastPassed(defs: Defs, led: iset<nat>, needed: set<nat>, j: Joiner, kids: seq<Source>, o: Out, q: Out)
    requires |kids| > 1 && o.result.Ok? && Answers(defs, led, needed, Solid(kids[|kids| - 1]), q)
    ensures Answers(defs, led, needed, AllSolid(kids), Out(Joined(j, o.result.value, q.result), q.state))
  {
    InitSolid(kids);
    PassedOn(defs, led, needed, Solid(kids[|kids| - 1]), q, AllSolid(kids),
             Out(Joined(j, o.result.value, q.result), q.state));
  }

  // ---- success -----------------------------------------------------------

  lemma {:induction false} MadeSolid(done: Done, src: Source, p: Pattern)
    requires Made(done, src, p)
    ensures Solid(src)
    decreases src, 0
  {
    if !src.SRef? && !src.SLeaf? && !(src.SAttribute? && src.kids == []) {
      var q :| MadeAll(done, JoinerOf(src), src.kids, q) && p == Build(src, q);
      MadeAllSolid(done, JoinerOf(src), src.kids, q);
    }
  }

  lemma {:induction false} MadeAllSolid(done: Done, j: Joiner, kids: seq<Source>, p: Pattern)
    requires MadeAll(done, j, kids, p)
    ensures AllSolid(kids)
    decreases kids, 1
  {
    if |kids| == 1 {
      MadeSolid(done, kids[0], p);
    } else {
      var (init, last) := (kids[..|kids| - 1], kids[|kids| - 1]);
      var x, y :| MadeOf(done, j, kids, x, y) && p == Join(j, x, y);
      MadeAllSolid(done, j, init, x);
      MadeSolid(done, last, y);
      forall i | 0 <= i < |kids| ensures Solid(kids[i]) { if i < |init| { assert kids[i] == init[i]; } }
    }
  }

  /** Nothing is wrong with a grammar: the start and every definition it leads to, there is
      one for each reference, none lacks patterns, none reaches itself without crossing an
      element, and they are not too many. */
  ghost predicate Faultless(defs: Defs, starts: seq<Source>) {
    && AllSolid(starts)
    && (forall n :: Leads(defs, starts, n) ==>
          n in defs && AllSolid(defs[n].bodies) && !Reaches(BareEdges(defs), n, n))
    && |Needed(defs, starts)| <= MAX_REF_EXPANSIONS
  }

  lemma StartAnswers(defs: Defs, j: Joiner, starts: seq<Source>)
    ensures Answers(defs, (iset n: nat | Leads(defs, starts, n)), Needed(defs, starts), AllSolid(starts),
                    CompileGrammar(defs, j, starts))
  {
    LeadsOn(defs, starts);
    var led := iset n: nat | Leads(defs, starts, n);
    assert Begun(Fresh, Needed(defs, starts));
    KidsAnswer(defs, led, Needed(defs, starts), Fresh, j, starts);
  }

  /** A refusal is for a fault the grammar has. */
  lemma RefusedForFault(defs: Defs, j: Joiner, starts: seq<Source>)
    requires CompileGrammar(defs, j, starts).result.Err?
    ensures !Faultless(defs, starts)
  {
    StartAnswers(defs, j, starts);
    var f := CompileGrammar(defs, j, starts).result.fault;
    if f.Cyclic? { RefusalsRight(defs, j, starts, f.name); }
    if f.NoPattern? && AllSolid(starts) {
      var n :| n in Needed(defs, starts) && n in defs && !AllSolid(defs[n].bodies);
      assert Leads(defs, starts, n);
    }
  }

  /** Where no definition is on both kinds of cycle: a grammar compiles exactly when nothing
      is wrong with it. */
  lemma CompilesExactly(defs: Defs, j: Joiner, starts: seq<Source>)
    requires OneWay(defs)
    ensures CompileGrammar(defs, j, starts).result.Ok? <==> Faultless(defs, starts)
  {
    var o := CompileGrammar(defs, j, starts);
    if o.result.Err? {
      RefusedForFault(defs, j, starts);
    } else {
      StartAnswers(defs, j, starts);
      CompiledIsTranslated(defs, j, starts);
      SuccessRecords(defs, j, starts);
      CyclesRefused(defs, j, starts);
      MadeAllSolid(o.state.compiled, j, starts, o.result.value);
      forall n | Leads(defs, starts, n)
        ensures n in defs && AllSolid(defs[n].bodies) && !Reaches(BareEdges(defs), n, n)
      {
        LedIsCompiled(defs, j, starts, n);
        MadeAllSolid(o.state.compiled, defs[n].join, defs[n].bodies, o.state.compiled[n].body);
      }
      assert Needed(defs, starts) <= o.state.compiled.Keys by {
        forall n | n in Needed(defs, starts) ensures n in o.state.compiled { LedIsCompiled(defs, j, starts, n); }
      }
      SubsetSize(Needed(defs, starts), o.state.at.Keys + o.state.compiled.Keys);
    }
  }
}
