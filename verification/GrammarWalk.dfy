/** Compiling a grammar's definitions: each is compiled once and shared, recursion
    through an element becomes a reference resolved later, and a definition that
    reaches itself without crossing an element is to be refused (RELAX NG,
    section 4.19). */
module GrammarWalk {
  import opened Basics
  import opened RelaxSyntax
  import opened References

  /** Patterns of the XML syntax.  A definition is known by its number. */
  datatype Source =
    | SLeaf(leaf: Leaf)
    | SElement(name: NameClass, kids: seq<Source>)
    | SAttribute(name: NameClass, kids: seq<Source>)
    | SGroup(kids: seq<Source>)
    | SInterleave(kids: seq<Source>)
    | SChoice(kids: seq<Source>)
    | SOptional(kids: seq<Source>)
    | SZeroOrMore(kids: seq<Source>)
    | SOneOrMore(kids: seq<Source>)
    | SMixed(kids: seq<Source>)
    | SList(kids: seq<Source>)
    | SExcept(ty: nat, params: seq<Param>, kids: seq<Source>)  // data with an except
    | SRef(to: nat)

  datatype Leaf =
    | LEmpty
    | LNotAllowed
    | LText
    | LValue(ty: nat, value: string, scope: Context)
    | LData(ty: nat, params: seq<Param>)

  /** The definitions of one name, each the group of its children, in order, and
      the method that joins them. */
  datatype Definition = Definition(bodies: seq<Source>, join: Joiner)

  type Defs = map<nat, Definition>

  datatype Joiner = ByGroup | ByChoice | ByInterleave

  datatype Fault = Cyclic(name: nat) | Undefined(name: nat) | NoPattern | TooMany

  datatype Result = Ok(value: Pattern) | Err(fault: Fault)

  const MAX_REF_EXPANSIONS: nat := 200_000

  // ---- the graph of references -------------------------------------------

  /** The names `s` refers to without crossing an element. */
  function BareRefs(s: Source): set<nat>
    decreases s, 0
  {
    if s.SRef? then {s.to} else if s.SLeaf? || s.SElement? then {} else BareRefsOf(s.kids)
  }

  function BareRefsOf(kids: seq<Source>): set<nat>
    decreases kids, 1
  {
    if kids == [] then {} else BareRefsOf(kids[..|kids| - 1]) + BareRefs(kids[|kids| - 1])
  }

  function AllRefs(s: Source): set<nat>
    decreases s, 0
  {
    if s.SRef? then {s.to} else if s.SLeaf? then {} else AllRefsOf(s.kids)
  }

  function AllRefsOf(kids: seq<Source>): set<nat>
    decreases kids, 1
  {
    if kids == [] then {} else AllRefsOf(kids[..|kids| - 1]) + AllRefs(kids[|kids| - 1])
  }

  /** From each definition to those it refers to without crossing an element. */
  function BareEdges(defs: Defs): Relation { map n | n in defs :: BareRefsOf(defs[n].bodies) }

  /** From each definition to all it refers to. */
  function Edges(defs: Defs): Relation { map n | n in defs :: AllRefsOf(defs[n].bodies) }

  // ---- the patterns made -------------------------------------------------

  /** A definition's shared reference, and the one made where it recurs. */
  function Shared(n: nat): nat { 2 * n }

  function Lazy(n: nat): nat { 2 * n + 1 }

  function LeafPattern(l: Leaf): Pattern {
    match l
    case LEmpty => Empty
    case LNotAllowed => NotAllowed
    case LText => Text
    case LValue(ty, v, cx) => Value(ty, v, cx)
    case LData(ty, ps) => Data(ty, ps, None)
  }

  function Join(j: Joiner, x: Pattern, y: Pattern): Pattern {
    match j
    case ByChoice => MkChoice(x, y)
    case ByInterleave => MkInterleave(x, y)
    case ByGroup => MkGroup(x, y)
  }

  /** How the children of `s` are joined. */
  function JoinerOf(s: Source): Joiner {
    match s
    case SInterleave(_) => ByInterleave
    case SChoice(_) => ByChoice
    case SExcept(_, _, _) => ByChoice
    case _ => ByGroup
  }

  /** The pattern of `s`, its children joined being `p`. */
  function Build(s: Source, p: Pattern): Pattern {
    match s
    case SElement(n, _) => Element(n, p)
    case SAttribute(n, _) => Attribute(n, p)
    case SOptional(_) => MkChoice(p, Empty)
    case SZeroOrMore(_) => MkChoice(MkOneOrMore(p), Empty)
    case SOneOrMore(_) => MkOneOrMore(p)
    case SMixed(_) => MkInterleave(Text, p)
    case SList(_) => List(p)
    case SExcept(ty, ps, _) => Data(ty, ps, Some(p))
    case _ => p
  }

  // ---- the walk ----------------------------------------------------------

  /** A compiled definition: the pattern its references share, what that stands
      for, and the names recorded as reached without crossing an element. */
  datatype Compiled = Compiled(pat: Pattern, body: Pattern, bare: set<nat>)

  /** `stack` holds the definitions in progress, innermost last; `at` and `bare`
      the element depth at which each began and the names recorded for it. */
  datatype State = State(
    at: map<nat, nat>,
    bare: map<nat, set<nat>>,
    stack: seq<nat>,
    compiled: map<nat, Compiled>,
    depth: nat,
    expansions: nat)

  datatype Out = Out(result: Result, state: State)

  const Fresh := State(map[], map[], [], map[], 0, 0)

  function Top(s: State): nat
    requires s.stack != []
  {
    s.stack[|s.stack| - 1]
  }

  /** No element has been crossed since the innermost definition began. */
  predicate Bare(s: State) { s.stack != [] && Top(s) in s.at && s.at[Top(s)] == s.depth }

  function Recorded(s: State, n: nat): set<nat> { if n in s.bare then s.bare[n] else {} }

  function Noted(s: State, names: set<nat>): State {
    if Bare(s) then s.(bare := s.bare[Top(s) := Recorded(s, Top(s)) + names]) else s
  }

  /** Begins a definition, which counts as one more expansion. */
  function Pushed(s: State, n: nat): State {
    State(s.at[n := s.depth], s.bare[n := {}], s.stack + [n], s.compiled, s.depth, s.expansions + 1)
  }

  /** Leaves the innermost definition; one around it that began at the same depth
      receives its names. */
  function Popped(s: State): State
    requires s.stack != []
  {
    var n := Top(s);
    var rest := s.stack[..|s.stack| - 1];
    var bare :=
      if rest != [] && n in s.at && rest[|rest| - 1] in s.at && s.at[rest[|rest| - 1]] == s.at[n]
      then s.bare[rest[|rest| - 1] := Recorded(s, rest[|rest| - 1]) + Recorded(s, n)] else s.bare;
    s.(at := s.at - {n}, bare := bare - {n}, stack := rest)
  }

  /** A leaf stays as it is; anything else is shared behind a reference. */
  function SharedPattern(n: nat, p: Pattern): Pattern {
    if p.NotAllowed? || p.Empty? || p.Text? then p else Ref(Shared(n))
  }

  function Finished(s: State, p: Pattern): State
    requires s.stack != []
  {
    var n := Top(s);
    Popped(s).(compiled := s.compiled[n := Compiled(SharedPattern(n, p), p, Recorded(s, n))])
  }

  /** The state in which a definition's bodies are compiled, and the outcome of
      having compiled them. */
  function Entered(s: State, n: nat): State { Pushed(Noted(s, {n}), n) }

  function Left(o: Out): Out
    requires o.state.stack != []
  {
    if o.result.Err? then Out(o.result, Popped(o.state))
    else Out(Ok(SharedPattern(Top(o.state), o.result.value)), Finished(o.state, o.result.value))
  }

  /** The names in progress that no element stands before. */
  function Closing(s: State, names: set<nat>): set<nat> {
    set m | m in names && m in s.at && s.depth <= s.at[m]
  }

  ghost function Least(names: set<nat>): (m: nat)
    requires names != {}
    ensures m in names && forall k | k in names :: m <= k
  {
    var m :| m in names;
    if names == {m} then m
    else
      assert names - {m} != {} by { assert names == {m} + (names - {m}); }
      var l := Least(names - {m});
      assert forall k | k in names :: k == m || k in names - {m};
      if l < m then l else m
  }

  /** The definitions not yet begun. */
  function Ahead(defs: Defs, s: State): set<nat> { defs.Keys - s.at.Keys - s.compiled.Keys }

  /** What compiling leaves as it was. */
  ghost predicate Framed(s: State, s': State) {
    && s'.at == s.at && s'.stack == s.stack && s'.depth == s.depth
    && s.compiled.Keys <= s'.compiled.Keys
  }

  /** The innermost definition left, the others stand as they did. */
  lemma PoppedFramed(s: State, n: nat, e: State)
    requires n !in s.at && e.at == s.at[n := s.depth] && e.stack == s.stack + [n]
    ensures Popped(e).at == s.at && Popped(e).stack == s.stack
  {
    assert s.at[n := s.depth] - {n} == s.at;
  }

  lemma LeftFramed(s: State, n: nat, o: Out)
    requires Framed(Entered(s, n), o.state) && n !in s.at && n !in s.compiled
    requires forall m | m in o.state.compiled :: m !in o.state.at
    ensures o.state.stack != [] && Framed(s, Left(o).state)
    ensures forall m | m in Left(o).state.compiled :: m !in s.at
  {
    PoppedFramed(s, n, o.state);
  }

  ghost function CompileRef(defs: Defs, s: State, n: nat): (o: Out)
    requires forall m | m in s.compiled :: m !in s.at
    ensures Framed(s, o.state) && forall m | m in o.state.compiled :: m !in s.at
    decreases Ahead(defs, s), SRef(n), 0
  {
    if n !in defs then Out(Err(Undefined(n)), s)
    else
      var s1 := Noted(s, {n});
      if n in s.at then
        Out(if s.depth <= s.at[n] then Err(Cyclic(n)) else Ok(Ref(Lazy(n))), s1)
      else if n in s.compiled then
        var back := Closing(s, s.compiled[n].bare);
        if back != {} then Out(Err(Cyclic(Least(back))), s1)
        else Out(Ok(s.compiled[n].pat), Noted(s1, s.compiled[n].bare))
      else
        if s.expansions + 1 > MAX_REF_EXPANSIONS then Out(Err(TooMany), s1.(expansions := s.expansions + 1))
        else
          assert n in Ahead(defs, s) && n !in Ahead(defs, Entered(s, n));
          var o := CompileKids(defs, Entered(s, n), defs[n].join, defs[n].bodies);
          LeftFramed(s, n, o);
          Left(o)
  }

  ghost function CompilePattern(defs: Defs, s: State, src: Source): (o: Out)
    requires forall m | m in s.compiled :: m !in s.at
    ensures Framed(s, o.state) && forall m | m in o.state.compiled :: m !in s.at
    decreases Ahead(defs, s), src, 1
  {
    if src.SLeaf? then Out(Ok(LeafPattern(src.leaf)), s)
    else if src.SRef? then CompileRef(defs, s, src.to)
    else if src.SElement? then
      var o := CompileKids(defs, s.(depth := s.depth + 1), ByGroup, src.kids);
      Out(Built(src, o.result), o.state.(depth := s.depth))
    else if src.SAttribute? && src.kids == [] then Out(Ok(Attribute(src.name, Text)), s)
    else
      var o := CompileKids(defs, s, JoinerOf(src), src.kids);
      Out(Built(src, o.result), o.state)
  }

  function Built(src: Source, r: Result): Result { if r.Ok? then Ok(Build(src, r.value)) else r }

  function Joined(j: Joiner, x: Pattern, r: Result): Result { if r.Ok? then Ok(Join(j, x, r.value)) else r }

  /** Children, or the bodies of one name, compiled in order and joined. */
  ghost function CompileKids(defs: Defs, s: State, j: Joiner, kids: seq<Source>): (o: Out)
    requires forall m | m in s.compiled :: m !in s.at
    ensures Framed(s, o.state) && forall m | m in o.state.compiled :: m !in s.at
    decreases Ahead(defs, s), kids, 2
  {
    if kids == [] then Out(Err(NoPattern), s)
    else if |kids| == 1 then CompilePattern(defs, s, kids[0])
    else
      var o := CompileKids(defs, s, j, kids[..|kids| - 1]);
      if o.result.Err? then o
      else
        var q := CompilePattern(defs, o.state, kids[|kids| - 1]);
        Out(Joined(j, o.result.value, q.result), q.state)
  }
}
