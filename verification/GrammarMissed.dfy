/** Grammars compiled without complaint although a definition reaches itself without
    crossing an element: of two definitions that meet twice, once inside an element,
    the names recorded for the one completed first stop at the other, which was
    still in progress, and are not completed later. */
module GrammarMissed {
  import opened RelaxSyntax
  import opened References
  import opened GrammarWalk
  import opened GrammarCheck
  import opened GrammarTheorems

  /** a is an element around c, then b; b is c; c is an element around b, then a. */
  function Triangle(a: nat, b: nat, c: nat, nc: NameClass): Defs {
    map[a := Definition([SGroup([SElement(nc, [SRef(c)]), SRef(b)])], ByChoice),
        b := Definition([SGroup([SRef(c)])], ByChoice),
        c := Definition([SGroup([SElement(nc, [SRef(b)]), SRef(a)])], ByChoice)]
  }

  ghost predicate IsTriangle(defs: Defs, a: nat, b: nat, c: nat, nc: NameClass) {
    && a != b && b != c && a != c && a in defs && b in defs && c in defs
    && defs[a] == Definition([SGroup([SElement(nc, [SRef(c)]), SRef(b)])], ByChoice)
    && defs[b] == Definition([SGroup([SRef(c)])], ByChoice)
    && defs[c] == Definition([SGroup([SElement(nc, [SRef(b)]), SRef(a)])], ByChoice)
  }

  lemma TriangleCycle(a: nat, b: nat, c: nat, nc: NameClass)
    requires a != b && b != c && a != c
    ensures Reaches(BareEdges(Triangle(a, b, c, nc)), a, a)
  {
    var e := BareEdges(Triangle(a, b, c, nc));
    OneRef(c);
    TwoRefs(nc, c, b);
    TwoRefs(nc, b, a);
    assert b in Next(e, a) && c in Next(e, b) && a in Next(e, c);
    StepReaches(e, a, b);
    StepReaches(e, b, c);
    StepReaches(e, c, a);
    ReachesOn(e, a, b, c);
    ReachesOn(e, a, c, a);
  }

  lemma OneRef(n: nat)
    ensures BareRefsOf([SGroup([SRef(n)])]) == {n}
  {
    var (g, k) := ([SGroup([SRef(n)])], [SRef(n)]);
    assert g[..0] == [] && k[..0] == [];
    assert BareRefsOf(k) == BareRefsOf(k[..0]) + BareRefs(k[0]);
    assert BareRefsOf(g) == BareRefsOf(g[..0]) + BareRefs(g[0]);
  }

  lemma TwoRefs(nc: NameClass, n: nat, m: nat)
    ensures BareRefsOf([SGroup([SElement(nc, [SRef(n)]), SRef(m)])]) == {m}
  {
    var k := [SElement(nc, [SRef(n)]), SRef(m)];
    var g := [SGroup(k)];
    assert g[..0] == [] && k[..1] == [k[0]] && k[..1][..0] == [];
    assert BareRefsOf(k[..1]) == BareRefsOf(k[..1][..0]) + BareRefs(k[0]);
    assert BareRefsOf(k) == BareRefsOf(k[..1]) + BareRefs(k[1]);
    assert BareRefsOf(g) == BareRefsOf(g[..0]) + BareRefs(g[0]);
  }

  // ---- unfolding the walk ------------------------------------------------

  ghost predicate Apart(s: State) { forall m | m in s.compiled :: m !in s.at }

  lemma OneKid(defs: Defs, s: State, j: Joiner, kid: Source)
    requires Apart(s)
    ensures CompileKids(defs, s, j, [kid]) == CompilePattern(defs, s, kid)
  {
  }

  lemma TwoKids(defs: Defs, s: State, j: Joiner, x: Source, y: Source)
    requires Apart(s) && CompilePattern(defs, s, x).result.Ok?
    ensures var o := CompilePattern(defs, s, x);
            var q := CompilePattern(defs, o.state, y);
            CompileKids(defs, s, j, [x, y]) == Out(Joined(j, o.result.value, q.result), q.state)
  {
    var k := [x, y];
    assert k[..1] == [x];
    OneKid(defs, s, j, x);
  }

  /** An element around one reference. */
  lemma Wrapped(defs: Defs, s: State, nc: NameClass, n: nat)
    requires Apart(s)
    ensures var src := SElement(nc, [SRef(n)]);
            var o := CompileRef(defs, s.(depth := s.depth + 1), n);
            CompilePattern(defs, s, src) == Out(Built(src, o.result), o.state.(depth := s.depth))
  {
    OneKid(defs, s.(depth := s.depth + 1), ByGroup, SRef(n));
  }

  lemma Grouped(defs: Defs, s: State, kids: seq<Source>)
    requires Apart(s)
    ensures CompileKids(defs, s, ByChoice, [SGroup(kids)]) == CompileKids(defs, s, ByGroup, kids)
  {
    OneKid(defs, s, ByChoice, SGroup(kids));
    var o := CompileKids(defs, s, ByGroup, kids);
    assert Built(SGroup(kids), o.result) == o.result;
  }

  // ---- the walk of the triangle ------------------------------------------

  /** Inside both elements b is compiled; it records only c, still in progress. */
  lemma WalkB(defs: Defs, s: State, a: nat, b: nat, c: nat, d: nat)
    requires a != b && b != c && a != c && b in defs && c in defs
    requires defs[b] == Definition([SGroup([SRef(c)])], ByChoice)
    requires s == State(map[a := d, c := d + 1], map[a := {}, c := {}], [a, c], map[], d + 2, 2)
    ensures CompileRef(defs, s, b)
         == Out(Ok(Ref(Shared(b))),
                State(s.at, s.bare, s.stack, map[b := Compiled(Ref(Shared(b)), Ref(Lazy(c)), {c})], d + 2, 3))
  {
    var e := Entered(s, b);
    assert Noted(s, {b}) == s;
    assert e.stack == [a, c, b] && Top(e) == b && Bare(e);
    var e' := Noted(e, {c});
    assert {} + {c} == {c} && e.bare[b := {c}] == s.bare[b := {c}];
    assert e' == State(s.at[b := d + 2], s.bare[b := {c}], [a, c, b], map[], d + 2, 3);
    assert CompileRef(defs, e, c) == Out(Ok(Ref(Lazy(c))), e');
    Grouped(defs, e, [SRef(c)]);
    OneKid(defs, e, ByGroup, SRef(c));
    var o := CompileKids(defs, e, ByChoice, defs[b].bodies);
    assert o == Out(Ok(Ref(Lazy(c))), e');
    assert e'.stack[..2] == s.stack && e'.at - {b} == s.at && e'.bare - {b} == s.bare;
    NewUnfolds(defs, s, b);
  }

  /** Two children of which the first leaves the definitions in progress alone, and
      the second refers to `n`. */
  lemma TwoParts(defs: Defs, e: State, nc: NameClass, n: nat, m: nat, o: Out, q: Out)
    requires Apart(e) && o == CompilePattern(defs, e, SElement(nc, [SRef(n)])) && o.result.Ok?
    requires q == CompileRef(defs, o.state, m) && q.result.Ok?
    ensures CompileKids(defs, e, ByChoice, [SGroup([SElement(nc, [SRef(n)]), SRef(m)])])
         == Out(Ok(MkGroup(o.result.value, q.result.value)), q.state)
  {
    TwoKids(defs, e, ByGroup, SElement(nc, [SRef(n)]), SRef(m));
    Grouped(defs, e, [SElement(nc, [SRef(n)]), SRef(m)]);
  }

  /** c refers to a, which is still in progress: it is recorded, and resolved later. */
  lemma NoteA(defs: Defs, f: State, a: nat, c: nat, d: nat, done: map<nat, Compiled>)
    requires a != c && a in defs && a !in done && c !in done
    requires f == State(map[a := d, c := d + 1], map[a := {}, c := {}], [a, c], done, d + 1, 3)
    ensures CompileRef(defs, f, a) == Out(Ok(Ref(Lazy(a))), f.(bare := map[a := {}, c := {a}]))
  {
    assert Top(f) == c && Bare(f);
    assert {} + {a} == {a} && f.bare[c := {a}] == map[a := {}, c := {a}];
  }

  lemma LeaveC(s: State, f: State, a: nat, c: nat, d: nat, p: Pattern)
    requires a != c && s.at == map[a := d] && s.bare == map[a := {}] && s.stack == [a]
    requires f.at == map[a := d, c := d + 1] && f.bare == map[a := {}, c := {a}] && f.stack == [a, c]
    requires p.Group?
    ensures Left(Out(Ok(p), f))
         == Out(Ok(Ref(Shared(c))),
                State(s.at, s.bare, s.stack, f.compiled[c := Compiled(Ref(Shared(c)), p, {a})], f.depth, f.expansions))
  {
    assert f.stack[..1] == s.stack && f.at - {c} == s.at && f.bare - {c} == s.bare;
  }

  function DoneB(b: nat, c: nat): map<nat, Compiled> { map[b := Compiled(Ref(Shared(b)), Ref(Lazy(c)), {c})] }

  lemma InsideC(defs: Defs, e: State, a: nat, b: nat, c: nat, nc: NameClass, d: nat)
    requires IsTriangle(defs, a, b, c, nc)
    requires e == State(map[a := d, c := d + 1], map[a := {}, c := {}], [a, c], map[], d + 1, 2)
    ensures CompilePattern(defs, e, SElement(nc, [SRef(b)]))
         == Out(Ok(Element(nc, Ref(Shared(b)))), State(e.at, e.bare, e.stack, DoneB(b, c), d + 1, 3))
  {
    var within := e.(depth := e.depth + 1);
    var after := State(e.at, e.bare, e.stack, DoneB(b, c), d + 2, 3);
    WalkB(defs, within, a, b, c, d);
    assert CompileRef(defs, within, b) == Out(Ok(Ref(Shared(b))), after);
    WrappedIn(defs, e, nc, b, Ref(Shared(b)), after);
    assert after.(depth := d + 1) == State(e.at, e.bare, e.stack, DoneB(b, c), d + 1, 3);
  }

  lemma WrappedIn(defs: Defs, e: State, nc: NameClass, n: nat, p: Pattern, s: State)
    requires Apart(e) && CompileRef(defs, e.(depth := e.depth + 1), n) == Out(Ok(p), s)
    ensures CompilePattern(defs, e, SElement(nc, [SRef(n)])) == Out(Ok(Element(nc, p)), s.(depth := e.depth))
  {
    Wrapped(defs, e, nc, n);
  }

  lemma BodyOfC(defs: Defs, e: State, f: State, a: nat, b: nat, c: nat, nc: NameClass, d: nat)
    requires IsTriangle(defs, a, b, c, nc)
    requires e == State(map[a := d, c := d + 1], map[a := {}, c := {}], [a, c], map[], d + 1, 2)
    requires f == State(e.at, e.bare, e.stack, DoneB(b, c), d + 1, 3)
    ensures CompileKids(defs, e, ByChoice, defs[c].bodies)
         == Out(Ok(Group(Element(nc, Ref(Shared(b))), Ref(Lazy(a)))), f.(bare := map[a := {}, c := {a}]))
  {
    InsideC(defs, e, a, b, c, nc, d);
    NoteA(defs, f, a, c, d, DoneB(b, c));
    TwoParts(defs, e, nc, b, a, Out(Ok(Element(nc, Ref(Shared(b)))), f), CompileRef(defs, f, a));
  }

  /** Inside the first element c is compiled; it records only a, still in progress. */
  lemma WalkC(defs: Defs, s: State, a: nat, b: nat, c: nat, nc: NameClass, d: nat)
    requires IsTriangle(defs, a, b, c, nc)
    requires s == State(map[a := d], map[a := {}], [a], map[], d + 1, 1)
    ensures var o := CompileRef(defs, s, c);
            o.result == Ok(Ref(Shared(c))) && Halfway(o.state, s, b, c)
  {
    var e := Entered(s, c);
    var f := State(e.at, e.bare, e.stack, DoneB(b, c), d + 1, 3);
    BodyOfC(defs, e, f, a, b, c, nc, d);
    FinishC(defs, s, a, b, c, nc, d, f, Group(Element(nc, Ref(Shared(b))), Ref(Lazy(a))));
  }

  lemma FinishC(defs: Defs, s: State, a: nat, b: nat, c: nat, nc: NameClass, d: nat, f: State, p: Pattern)
    requires IsTriangle(defs, a, b, c, nc) && p.Group?
    requires s == State(map[a := d], map[a := {}], [a], map[], d + 1, 1)
    requires f == State(map[a := d, c := d + 1], map[a := {}, c := {}], [a, c], DoneB(b, c), d + 1, 3)
    requires CompileKids(defs, Entered(s, c), ByChoice, defs[c].bodies)
          == Out(Ok(p), f.(bare := map[a := {}, c := {a}]))
    ensures var o := CompileRef(defs, s, c);
            o.result == Ok(Ref(Shared(c))) && Halfway(o.state, s, b, c)
  {
    NewUnfolds(defs, s, c);
    LeaveC(s, f.(bare := map[a := {}, c := {a}]), a, c, d, p);
    assert DoneB(b, c).Keys == {b};
  }

  /** b and c are compiled, and for b only c is recorded. */
  ghost predicate Halfway(f: State, s: State, b: nat, c: nat) {
    && f.at == s.at && f.stack == s.stack && f.depth == s.depth && f.compiled.Keys == {b, c}
    && f.compiled[b].pat == Ref(Shared(b)) && f.compiled[b].bare == {c}
  }

  /** When a comes to b, what b records is no longer in progress. */
  lemma ReuseB(defs: Defs, f: State, a: nat, b: nat, c: nat)
    requires Apart(f) && a != b && a != c && b in defs && f.at.Keys == {a} && f.stack == [a]
    requires b in f.compiled && f.compiled[b].pat == Ref(Shared(b)) && f.compiled[b].bare == {c}
    ensures var o := CompileRef(defs, f, b);
            o.result == Ok(Ref(Shared(b))) && o.state.compiled == f.compiled
  {
    assert Closing(f, {c}) == {};
  }

  lemma InsideA(defs: Defs, e: State, a: nat, b: nat, c: nat, nc: NameClass, d: nat)
    requires IsTriangle(defs, a, b, c, nc)
    requires e == State(map[a := d], map[a := {}], [a], map[], d, 1)
    ensures var p := CompilePattern(defs, e, SElement(nc, [SRef(c)]));
            p.result == Ok(Element(nc, Ref(Shared(c)))) && Halfway(p.state, e, b, c)
  {
    var within := State(map[a := d], map[a := {}], [a], map[], d + 1, 1);
    WalkC(defs, within, a, b, c, nc, d);
    assert e.(depth := e.depth + 1) == within;
    var o := CompileRef(defs, within, c);
    WrappedIn(defs, e, nc, c, Ref(Shared(c)), o.state);
    HalfwayOut(o.state, within, e, b, c);
  }

  lemma HalfwayOut(f: State, within: State, e: State, b: nat, c: nat)
    requires Halfway(f, within, b, c) && within == e.(depth := e.depth + 1)
    ensures Halfway(f.(depth := e.depth), e, b, c)
  {
  }

  lemma BodyOfA(defs: Defs, e: State, a: nat, b: nat, c: nat, nc: NameClass, d: nat)
    requires IsTriangle(defs, a, b, c, nc)
    requires e == State(map[a := d], map[a := {}], [a], map[], d, 1)
    ensures var o := CompileKids(defs, e, ByChoice, defs[a].bodies);
            o.result.Ok? && o.state.compiled.Keys == {b, c}
  {
    InsideA(defs, e, a, b, c, nc, d);
    var p := CompilePattern(defs, e, SElement(nc, [SRef(c)]));
    assert p.state.at.Keys == {a};
    ReuseB(defs, p.state, a, b, c);
    TwoParts(defs, e, nc, c, b, p, CompileRef(defs, p.state, b));
  }

  lemma WalkA(defs: Defs, s: State, a: nat, b: nat, c: nat, nc: NameClass, d: nat)
    requires IsTriangle(defs, a, b, c, nc)
    requires s == State(map[], map[], [], map[], d, 0)
    ensures var o := CompileRef(defs, s, a);
            o.result.Ok? && o.state.compiled.Keys == {a, b, c}
  {
    var e := Entered(s, a);
    BodyOfA(defs, e, a, b, c, nc, d);
    NewUnfolds(defs, s, a);
  }

  /** The grammar compiles, a being the content of the start element, and a reaches
      itself through b and c without crossing an element. */
  lemma MissedCycle(a: nat, b: nat, c: nat, nc: NameClass)
    requires a != b && b != c && a != c
    ensures var defs := Triangle(a, b, c, nc);
            var o := CompileGrammar(defs, ByChoice, [SElement(nc, [SRef(a)])]);
            o.result.Ok? && o.state.compiled.Keys == {a, b, c} && Reaches(BareEdges(defs), a, a)
  {
    var defs := Triangle(a, b, c, nc);
    assert IsTriangle(defs, a, b, c, nc);
    TriangleCycle(a, b, c, nc);
    OneKid(defs, Fresh, ByChoice, SElement(nc, [SRef(a)]));
    Wrapped(defs, Fresh, nc, a);
    WalkA(defs, Fresh.(depth := 1), a, b, c, nc, 1);
  }
}
