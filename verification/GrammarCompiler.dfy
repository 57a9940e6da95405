/** The compiler as the program runs it: one object whose tables are pushed and
    popped during the walk, proved to do what GrammarWalk says. */
module GrammarCompiler {
  import opened Basics
  import opened RelaxSyntax
  import opened GrammarWalk
  import opened GrammarTheorems

  ghost predicate LeastOf(c: Option<nat>, names: set<nat>) {
    if c.None? then names == {} else c.value in names && forall m | m in names :: c.value <= m
  }

  lemma LeastWith(c: Option<nat>, names: set<nat>, n: nat)
    requires LeastOf(c, names)
    ensures LeastOf(if c.None? || n < c.value then Some(n) else c, names + {n})
  {
  }

  lemma OneMoreCloses(s: State, seen: set<nat>, n: nat)
    ensures Closing(s, seen + {n})
         == if n in s.at && s.depth <= s.at[n] then Closing(s, seen) + {n} else Closing(s, seen)
  {
  }

  class Compiler {
    const defs: Defs
    var expandingAt: map<nat, nat>
    var bare: map<nat, set<nat>>
    var bareStack: seq<nat>
    var compiled: map<nat, Compiled>
    var elementDepth: nat
    var expansions: nat

    constructor (defs: Defs)
      ensures this.defs == defs && View() == Fresh
    {
      this.defs := defs;
      expandingAt, bare, bareStack := map[], map[], [];
      compiled, elementDepth, expansions := map[], 0, 0;
    }

    ghost function View(): State
      reads this
    {
      State(expandingAt, bare, bareStack, compiled, elementDepth, expansions)
    }

    ghost predicate Apart()
      reads this
    {
      forall m | m in compiled :: m !in expandingAt
    }

    method NoteBare(names: set<nat>)
      modifies this`bare
      ensures View() == Noted(old(View()), names)
    {
      var k := |bareStack|;
      if k == 0 { return; }
      var d := bareStack[k - 1];
      if d !in expandingAt || expandingAt[d] != elementDepth { return; }
      bare := bare[d := (if d in bare then bare[d] else {}) + names];
    }

    /** The least name of `names` that closes a cycle here. */
    method FindClosing(names: set<nat>) returns (cyclic: Option<nat>)
      ensures cyclic == if Closing(View(), names) == {} then None else Some(Least(Closing(View(), names)))
    {
      cyclic := None;
      var left := names;
      ghost var s := View();
      ghost var seen: set<nat> := {};
      while left != {}
        invariant seen + left == names
        invariant LeastOf(cyclic, Closing(s, seen))
        decreases |left|
      {
        var n :| n in left;
        var closes := n in expandingAt && elementDepth <= expandingAt[n];
        OneMoreCloses(s, seen, n);
        if closes { LeastWith(cyclic, Closing(s, seen), n); }
        if closes && (cyclic.None? || n < cyclic.value) { cyclic := Some(n); }
        left := left - {n};
        seen := seen + {n};
      }
      assert seen == names;
    }

    /** Puts a definition on the stack. */
    method Enter(n: nat)
      modifies this
      ensures View() == Pushed(old(View()), n)
    {
      expansions := expansions + 1;
      expandingAt := expandingAt[n := elementDepth];
      bare := bare[n := {}];
      bareStack := bareStack + [n];
    }

    /** Takes the innermost definition off, its names passing outward. */
    method Leave()
      requires bareStack != []
      modifies this`bareStack, this`bare, this`expandingAt
      ensures View() == Popped(old(View()))
    {
      var n := bareStack[|bareStack| - 1];
      bareStack := bareStack[..|bareStack| - 1];
      var k := |bareStack|;
      if k > 0 {
        var up := bareStack[k - 1];
        if n in expandingAt && up in expandingAt && expandingAt[up] == expandingAt[n] {
          bare := bare[up := (if up in bare then bare[up] else {}) + (if n in bare then bare[n] else {})];
        }
      }
      expandingAt := expandingAt - {n};
      bare := bare - {n};
    }

    method CompileRefNamed(n: nat) returns (r: Result)
      requires Apart()
      modifies this
      ensures Out(r, View()) == CompileRef(defs, old(View()), n)
      decreases Ahead(defs, View()), SRef(n), 0
    {
      if n !in defs { return Err(Undefined(n)); }
      NoteBare({n});
      if n in expandingAt {
        if elementDepth <= expandingAt[n] { return Err(Cyclic(n)); }
        return Ok(Ref(Lazy(n)));
      }
      if n in compiled {
        var d := compiled[n];
        var cyclic := FindClosing(d.bare);
        assert Closing(View(), d.bare) == Closing(old(View()), d.bare);
        if cyclic.Some? { return Err(Cyclic(cyclic.value)); }
        NoteBare(d.bare);
        return Ok(d.pat);
      }
      if expansions + 1 > MAX_REF_EXPANSIONS {
        expansions := expansions + 1;
        return Err(TooMany);
      }
      Enter(n);
      assert View() == Entered(old(View()), n);
      assert n in Ahead(defs, old(View())) && n !in Ahead(defs, View());
      r := CompileChildren(defs[n].join, defs[n].bodies);
      assert Out(r, View()) == CompileKids(defs, Entered(old(View()), n), defs[n].join, defs[n].bodies);
      LeftFramed(old(View()), n, Out(r, View()));
      ghost var done := View();
      var names := if n in bare then bare[n] else {};
      Leave();
      if r.Ok? {
        var p := if r.value.NotAllowed? || r.value.Empty? || r.value.Text? then r.value else Ref(Shared(n));
        compiled := compiled[n := Compiled(p, r.value, names)];
        r := Ok(p);
      }
      assert Out(r, View()) == Left(CompileKids(defs, Entered(old(View()), n), defs[n].join, defs[n].bodies));
    }

    method Compile(src: Source) returns (r: Result)
      requires Apart()
      modifies this
      ensures Out(r, View()) == CompilePattern(defs, old(View()), src)
      decreases Ahead(defs, View()), src, 1
    {
      if src.SLeaf? {
        r := Ok(LeafPattern(src.leaf));
      } else if src.SRef? {
        r := CompileRefNamed(src.to);
      } else if src.SElement? {
        elementDepth := elementDepth + 1;
        r := CompileChildren(ByGroup, src.kids);
        elementDepth := elementDepth - 1;
        r := Built(src, r);
      } else if src.SAttribute? && src.kids == [] {
        r := Ok(Attribute(src.name, Text));
      } else {
        r := CompileChildren(JoinerOf(src), src.kids);
        r := Built(src, r);
      }
    }

    method CompileChildren(j: Joiner, kids: seq<Source>) returns (r: Result)
      requires Apart()
      modifies this
      ensures Out(r, View()) == CompileKids(defs, old(View()), j, kids)
      decreases Ahead(defs, View()), kids, 2
    {
      if kids == [] {
        r := Err(NoPattern);
      } else {
        r := CompileSome(j, kids);
      }
    }

    method CompileSome(j: Joiner, kids: seq<Source>) returns (r: Result)
      requires Apart() && kids != []
      modifies this
      ensures Out(r, View()) == CompileKids(defs, old(View()), j, kids)
      decreases Ahead(defs, View()), kids, 1
    {
      ghost var s := View();
      r := Compile(kids[0]);
      FirstKid(defs, s, j, kids);
      var i := 1;
      while i < |kids| && r.Ok?
        invariant 1 <= i <= |kids|
        invariant Apart() && Ahead(defs, View()) <= Ahead(defs, s)
        invariant Out(r, View()) == CompileKids(defs, s, j, kids[..i])
      {
        NextKid(defs, s, j, kids, i);
        var q := Compile(kids[i]);
        r := Joined(j, r.value, q);
        i := i + 1;
      }
      AllKids(defs, s, j, kids, i);
    }
  }

  /** A whole grammar, by a compiler of its own. */
  method CompileStart(defs: Defs, j: Joiner, starts: seq<Source>) returns (r: Result, ghost s: State)
    ensures r == CompileGrammar(defs, j, starts).result && s == CompileGrammar(defs, j, starts).state
  {
    var c := new Compiler(defs);
    r := c.CompileChildren(j, starts);
    s := c.View();
  }

  lemma FirstKid(defs: Defs, s: State, j: Joiner, kids: seq<Source>)
    requires (forall m | m in s.compiled :: m !in s.at) && kids != []
    ensures CompileKids(defs, s, j, kids[..1]) == CompilePattern(defs, s, kids[0])
  {
    assert kids[..1] == [kids[0]];
  }

  lemma AllKids(defs: Defs, s: State, j: Joiner, kids: seq<Source>, i: nat)
    requires forall m | m in s.compiled :: m !in s.at
    requires 1 <= i <= |kids| && (i == |kids| || CompileKids(defs, s, j, kids[..i]).result.Err?)
    ensures CompileKids(defs, s, j, kids) == CompileKids(defs, s, j, kids[..i])
  {
    if i < |kids| { ErrStays(defs, s, j, kids, i); } else { assert kids[..i] == kids; }
  }

  lemma NextKid(defs: Defs, s: State, j: Joiner, kids: seq<Source>, i: nat)
    requires forall m | m in s.compiled :: m !in s.at
    requires 1 <= i < |kids| && CompileKids(defs, s, j, kids[..i]).result.Ok?
    ensures var o := CompileKids(defs, s, j, kids[..i]);
            var q := CompilePattern(defs, o.state, kids[i]);
            CompileKids(defs, s, j, kids[..i + 1]) == Out(Joined(j, o.result.value, q.result), q.state)
  {
    assert kids[..i + 1][..i] == kids[..i];
  }

  /** Children after one that fails are not compiled. */
  lemma {:induction false} ErrStays(defs: Defs, s: State, j: Joiner, kids: seq<Source>, i: nat)
    requires forall m | m in s.compiled :: m !in s.at
    requires 1 <= i <= |kids| && CompileKids(defs, s, j, kids[..i]).result.Err?
    ensures CompileKids(defs, s, j, kids) == CompileKids(defs, s, j, kids[..i])
    decreases |kids| - i
  {
    if i == |kids| {
      assert kids[..i] == kids;
    } else {
      assert kids[..i + 1][..i] == kids[..i];
      ErrStays(defs, s, j, kids, i + 1);
    }
  }
}
