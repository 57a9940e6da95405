/** What a grammar is compiled to: its own patterns, references standing for
    definitions. */
module GrammarSchema {
  import opened RelaxSyntax
  import opened GrammarWalk
  import opened GrammarCheck
  import opened GrammarTheorems

  // ---- the patterns made -------------------------------------------------

  type Done = map<nat, Compiled>

  /** `p` is the pattern of `src`, a reference being a definition's shared pattern or one
      resolved later. */
  ghost predicate Made(done: Done, src: Source, p: Pattern)
    decreases src, 0
  {
    match src
    case SRef(n) => p == Ref(Lazy(n)) || (n in done && p == done[n].pat)
    case SLeaf(l) => p == LeafPattern(l)
    case _ =>
      if src.SAttribute? && src.kids == [] then p == Attribute(src.name, Text)
      else exists q :: MadeAll(done, JoinerOf(src), src.kids, q) && p == Build(src, q)
  }

  ghost predicate MadeAll(done: Done, j: Joiner, kids: seq<Source>, p: Pattern)
    decreases kids, 1
  {
    kids != []
    && if |kids| == 1 then Made(done, kids[0], p)
       else exists x, y :: MadeOf(done, j, kids, x, y) && p == Join(j, x, y)
  }

  ghost predicate MadeOf(done: Done, j: Joiner, kids: seq<Source>, x: Pattern, y: Pattern)
    requires |kids| > 1
    decreases kids, 0
  {
    MadeAll(done, j, kids[..|kids| - 1], x) && Made(done, kids[|kids| - 1], y)
  }

  ghost predicate Grown(done: Done, more: Done) { forall n | n in done :: n in more && more[n] == done[n] }

  lemma {:induction false} MadeMore(done: Done, more: Done, src: Source, p: Pattern)
    requires Made(done, src, p) && Grown(done, more)
    ensures Made(more, src, p)
    decreases src, 0
  {
    if !src.SRef? && !src.SLeaf? && !(src.SAttribute? && src.kids == []) {
      var q :| MadeAll(done, JoinerOf(src), src.kids, q) && p == Build(src, q);
      MadeAllMore(done, more, JoinerOf(src), src.kids, q);
    }
  }

  lemma {:induction false} MadeAllMore(done: Done, more: Done, j: Joiner, kids: seq<Source>, p: Pattern)
    requires MadeAll(done, j, kids, p) && Grown(done, more)
    ensures MadeAll(more, j, kids, p)
    decreases kids, 1
  {
    if |kids| == 1 {
      MadeMore(done, more, kids[0], p);
    } else {
      var x, y :| MadeOf(done, j, kids, x, y) && p == Join(j, x, y);
      MadeAllMore(done, more, j, kids[..|kids| - 1], x);
      MadeMore(done, more, kids[|kids| - 1], y);
      assert MadeOf(more, j, kids, x, y);
    }
  }

  /** Each definition compiled stands for the pattern of its bodies. */
  ghost predicate Translated(defs: Defs, done: Done) {
    forall n | n in done ::
      && n in defs && MadeAll(done, defs[n].join, defs[n].bodies, done[n].body)
      && done[n].pat == SharedPattern(n, done[n].body)
  }

  ghost predicate Ready(defs: Defs, s: State) {
    Translated(defs, s.compiled) && forall m | m in s.compiled :: m !in s.at
  }

  ghost predicate Step(defs: Defs, s: State, s': State) {
    Translated(defs, s'.compiled) && Grown(s.compiled, s'.compiled)
  }

  lemma {:induction false} RefMade(defs: Defs, s: State, n: nat)
    requires Ready(defs, s)
    ensures var o := CompileRef(defs, s, n);
            o.result.Ok? ==> Step(defs, s, o.state) && Made(o.state.compiled, SRef(n), o.result.value)
    decreases Ahead(defs, s), SRef(n), 0
  {
    if n in defs && n !in s.at && n !in s.compiled && s.expansions + 1 <= MAX_REF_EXPANSIONS {
      var e := Entered(s, n);
      assert n in Ahead(defs, s) && n !in Ahead(defs, e);
      KidsMade(defs, e, defs[n].join, defs[n].bodies);
      NewUnfolds(defs, s, n);
      var o := CompileKids(defs, e, defs[n].join, defs[n].bodies);
      if o.result.Ok? { FinishedMade(defs, s, n, o.state, o.result.value); }
    }
  }

  lemma FinishedMade(defs: Defs, s: State, n: nat, e: State, p: Pattern)
    requires n in defs && n !in s.compiled && e.stack != [] && e.stack[|e.stack| - 1] == n && n !in e.compiled
    requires Step(defs, s, e) && MadeAll(e.compiled, defs[n].join, defs[n].bodies, p)
    ensures Step(defs, s, Finished(e, p)) && Made(Finished(e, p).compiled, SRef(n), SharedPattern(n, p))
  {
    var done := Finished(e, p).compiled;
    assert Grown(e.compiled, done);
    forall m | m in done
      ensures m in defs && MadeAll(done, defs[m].join, defs[m].bodies, done[m].body)
           && done[m].pat == SharedPattern(m, done[m].body)
    {
      MadeAllMore(e.compiled, done, defs[m].join, defs[m].bodies, done[m].body);
    }
  }

  lemma {:induction false} PatternMade(defs: Defs, s: State, src: Source)
    requires Ready(defs, s)
    ensures var o := CompilePattern(defs, s, src);
            o.result.Ok? ==> Step(defs, s, o.state) && Made(o.state.compiled, src, o.result.value)
    decreases Ahead(defs, s), src, 1
  {
    if src.SRef? {
      RefMade(defs, s, src.to);
    } else if src.SElement? {
      ElementMade(defs, s, src);
    } else if !src.SLeaf? && !(src.SAttribute? && src.kids == []) {
      KidsMade(defs, s, JoinerOf(src), src.kids);
    }
  }

  lemma {:induction false} ElementMade(defs: Defs, s: State, src: Source)
    requires Ready(defs, s) && src.SElement?
    ensures var o := CompilePattern(defs, s, src);
            o.result.Ok? ==> Step(defs, s, o.state) && Made(o.state.compiled, src, o.result.value)
    decreases Ahead(defs, s), src, 0
  {
    var d := s.(depth := s.depth + 1);
    assert Ahead(defs, d) == Ahead(defs, s);
    KidsMade(defs, d, ByGroup, src.kids);
  }

  lemma {:induction false} KidsMade(defs: Defs, s: State, j: Joiner, kids: seq<Source>)
    requires Ready(defs, s)
    ensures var o := CompileKids(defs, s, j, kids);
            o.result.Ok? ==> Step(defs, s, o.state) && MadeAll(o.state.compiled, j, kids, o.result.value)
    decreases Ahead(defs, s), kids, 2
  {
    if |kids| == 1 {
      PatternMade(defs, s, kids[0]);
    } else if |kids| > 1 {
      KidsMade(defs, s, j, kids[..|kids| - 1]);
      var o := CompileKids(defs, s, j, kids[..|kids| - 1]);
      if o.result.Ok? {
        PatternMade(defs, o.state, kids[|kids| - 1]);
        LastMade(defs, s, j, kids, o, CompilePattern(defs, o.state, kids[|kids| - 1]));
      }
    }
  }

  lemma LastMade(defs: Defs, s: State, j: Joiner, kids: seq<Source>, o: Out, q: Out)
    requires |kids| > 1 && Ready(defs, s) && o == CompileKids(defs, s, j, kids[..|kids| - 1]) && o.result.Ok?
    requires Step(defs, s, o.state) && MadeAll(o.state.compiled, j, kids[..|kids| - 1], o.result.value)
    requires q == CompilePattern(defs, o.state, kids[|kids| - 1])
    requires q.result.Ok? ==>
      Step(defs, o.state, q.state) && Made(q.state.compiled, kids[|kids| - 1], q.result.value)
    ensures var r := CompileKids(defs, s, j, kids);
            r.result.Ok? ==> Step(defs, s, r.state) && MadeAll(r.state.compiled, j, kids, r.result.value)
  {
    if q.result.Ok? { JoinMade(o.state.compiled, q.state.compiled, j, kids, o.result.value, q.result.value); }
  }

  lemma JoinMade(done: Done, more: Done, j: Joiner, kids: seq<Source>, x: Pattern, y: Pattern)
    requires |kids| > 1 && Grown(done, more)
    requires MadeAll(done, j, kids[..|kids| - 1], x) && Made(more, kids[|kids| - 1], y)
    ensures MadeAll(more, j, kids, Join(j, x, y))
  {
    MadeAllMore(done, more, j, kids[..|kids| - 1], x);
    assert MadeOf(more, j, kids, x, y);
  }

  /** A grammar that compiles is translated: the start, and every definition. */
  lemma CompiledIsTranslated(defs: Defs, j: Joiner, starts: seq<Source>)
    requires CompileGrammar(defs, j, starts).result.Ok?
    ensures var o := CompileGrammar(defs, j, starts);
            Translated(defs, o.state.compiled) && MadeAll(o.state.compiled, j, starts, o.result.value)
  {
    KidsMade(defs, Fresh, j, starts);
  }
}
