/** Patterns of the RELAX NG engine, the grammar they are read in, and the
    constructors that simplify while they build. */
module RelaxSyntax {
  import opened Basics

  datatype NameClass =
    | AnyName(except: Option<NameClass>)
    | NsName(ns: string, except: Option<NameClass>)
    | Name(name: QName)
    | NameChoice(left: NameClass, right: NameClass)
  {
    predicate Contains(n: QName) {
      match this
      case AnyName(x) => x.None? || !x.value.Contains(n)
      case NsName(ns, x) => n.uri == ns && (x.None? || !x.value.Contains(n))
      case Name(q) => n == q
      case NameChoice(l, r) => l.Contains(n) || r.Contains(n)
    }
  }

  /** Namespace bindings in force where a value or a string was written. */
  datatype Context = Context(prefixes: map<string, string>, default: string)

  datatype Param = Param(name: string, value: string)

  /** A datatype is known by a number; what it accepts and equates is a
      parameter of the model.  Only a contextual one is asked with contexts. */
  datatype Library = Library(
    contextual: nat -> bool,
    check: (nat, string, seq<Param>) -> bool,
    checkIn: (nat, string, seq<Param>, Context) -> bool,
    equal: (nat, string, string) -> bool,
    equalIn: (nat, string, Context, string, Context) -> bool)

  /** A reference is an index into the grammar's definitions.  A static wrapper
      holds a schema subtree and what was worked out about it once. */
  datatype Pattern =
    | NotAllowed
    | Empty
    | Text
    | Choice(left: Pattern, right: Pattern)
    | Interleave(left: Pattern, right: Pattern)
    | Group(left: Pattern, right: Pattern)
    | OneOrMore(body: Pattern)
    | Element(name: NameClass, content: Pattern)
    | Attribute(name: NameClass, content: Pattern)
    | Value(ty: nat, value: string, scope: Context)
    | Data(ty: nat, params: seq<Param>, except: Option<Pattern>)
    | List(body: Pattern)
    | After(left: Pattern, right: Pattern)
    | Ref(id: nat)
    | Static(inner: Pattern, size: nat, nullable: bool, dataFree: bool, selfEq: bool)

  /** The definitions of a grammar.  A name missing from `defs` is a reference
      whose compilation failed; it stands for NotAllowed.  `rank` orders the
      definitions so that one reaches, without crossing an element, only
      definitions of lower rank (section 4.19). */
  datatype RawGrammar = RawGrammar(defs: map<nat, Pattern>, rank: map<nat, nat>, lib: Library)

  function Max(a: nat, b: nat): nat { if a < b then b else a }

  function RankOf(rank: map<nat, nat>, id: nat): nat { if id in rank then rank[id] + 1 else 1 }

  /** One more than the highest rank `p` refers to before an element. */
  function Level(rank: map<nat, nat>, p: Pattern): nat {
    match p
    case Choice(l, r) => Max(Level(rank, l), Level(rank, r))
    case Interleave(l, r) => Max(Level(rank, l), Level(rank, r))
    case Group(l, r) => Max(Level(rank, l), Level(rank, r))
    case After(l, r) => Max(Level(rank, l), Level(rank, r))
    case OneOrMore(q) => Level(rank, q)
    case List(q) => Level(rank, q)
    case Attribute(_, v) => Level(rank, v)
    case Data(_, _, x) => if x.Some? then Level(rank, x.value) else 0
    case Static(q, _, _, _, _) => Level(rank, q)
    case Ref(id) => RankOf(rank, id)
    case _ => 0
  }

  ghost predicate Ranked(g: RawGrammar) {
    forall id | id in g.defs :: Level(g.rank, g.defs[id]) < RankOf(g.rank, id)
  }

  type Grammar = g: RawGrammar | Ranked(g)
    witness RawGrammar(map[], map[],
      Library(t => false, (t, s, ps) => false, (t, s, ps, c) => false,
              (t, v, s) => false, (t, v, c, s, d) => false))

  /** What a reference stands for. */
  function Expand(g: Grammar, id: nat): (p: Pattern)
    ensures Level(g.rank, p) < RankOf(g.rank, id)
  {
    if id in g.defs then g.defs[id] else NotAllowed
  }

  predicate Nullable(g: Grammar, p: Pattern)
    decreases Level(g.rank, p), p
  {
    match p
    case Empty => true
    case Text => true
    case Choice(l, r) => Nullable(g, l) || Nullable(g, r)
    case Interleave(l, r) => Nullable(g, l) && Nullable(g, r)
    case Group(l, r) => Nullable(g, l) && Nullable(g, r)
    case OneOrMore(q) => Nullable(g, q)
    case Ref(id) => Nullable(g, Expand(g, id))
    case Static(_, _, nullable, _, _) => nullable
    case _ => false
  }

  // ---- sizes -------------------------------------------------------------

  const MAX_INT: nat := 0x7FFF_FFFF_FFFF_FFFF

  /** Addition that stops at the largest machine integer. */
  function AddSize(a: nat, b: nat): nat { if a + b > MAX_INT then MAX_INT else a + b }

  function Size(p: Pattern): nat {
    match p
    case Choice(l, r) => AddSize(1, AddSize(Size(l), Size(r)))
    case Interleave(l, r) => AddSize(1, AddSize(Size(l), Size(r)))
    case Group(l, r) => AddSize(1, AddSize(Size(l), Size(r)))
    case After(l, r) => AddSize(1, AddSize(Size(l), Size(r)))
    case OneOrMore(q) => AddSize(1, Size(q))
    case List(q) => AddSize(1, Size(q))
    case Static(_, size, _, _, _) => size
    case _ => 1
  }

  // ---- equality ----------------------------------------------------------

  /** Looks through static wrappers. */
  function Unstatic(p: Pattern): (q: Pattern)
    ensures !q.Static?
    ensures q == p || q < p
  {
    if p.Static? then Unstatic(p.inner) else p
  }

  /** Structural equality, conservative: values and data never compare equal. */
  predicate PatEq(a: Pattern, b: Pattern)
    decreases a
  {
    if a.Static? && a == b then a.selfEq
    else
      var x, y := Unstatic(a), Unstatic(b);
      match x
      case Choice(l, r) => y.Choice? && PatEq(l, y.left) && PatEq(r, y.right)
      case Group(l, r) => y.Group? && PatEq(l, y.left) && PatEq(r, y.right)
      case Interleave(l, r) => y.Interleave? && PatEq(l, y.left) && PatEq(r, y.right)
      case After(l, r) => y.After? && PatEq(l, y.left) && PatEq(r, y.right)
      case OneOrMore(q) => y.OneOrMore? && PatEq(q, y.body)
      case List(q) => y.List? && PatEq(q, y.body)
      case Element(n, q) => y.Element? && n == y.name && PatEq(q, y.content)
      case Attribute(n, q) => y.Attribute? && n == y.name && PatEq(q, y.content)
      case Value(_, _, _) => false
      case Data(_, _, _) => false
      case _ => x == y
  }

  /** The number of alternatives in a chain of choices. */
  function AltCount(p: Pattern): nat
    decreases p
  {
    var q := Unstatic(p);
    if q.Choice? then AltCount(q.left) + AltCount(q.right) else 1
  }

  /** Whether `b` is already one of the alternatives of the chain `a`; sizes are
      compared first. */
  predicate InChoice(a: Pattern, b: Pattern)
    decreases a
  {
    var c := Unstatic(a);
    if c.Choice? then (Size(c.right) == Size(b) && PatEq(c.right, b)) || InChoice(c.left, b)
    else Size(a) == Size(b) && PatEq(a, b)
  }

  // ---- simplifying constructors ------------------------------------------

  const MAX_MERGE_PAIRS: nat := 1024

  function MkChoice(a: Pattern, b: Pattern): (c: Pattern)
    ensures c == NotAllowed <==> a == NotAllowed && b == NotAllowed
    decreases b
  {
    if a == NotAllowed then b
    else if b == NotAllowed then a
    else if PatEq(a, b) || InChoice(a, b) then a
    else if b.Choice? && AltCount(a) * AltCount(b) <= MAX_MERGE_PAIRS then
      MkChoice(MkChoice(a, b.left), b.right)
    else Choice(a, b)
  }

  /** What holds of both alternatives, and of a choice when of its branches,
      holds of the merged choice. */
  lemma {:induction false} ChoiceKeeps(f: Pattern -> bool, x: Pattern, y: Pattern)
    requires forall l, r {:trigger f(Choice(l, r))} :: f(Choice(l, r)) <==> f(l) && f(r)
    requires f(x) && f(y)
    ensures f(MkChoice(x, y))
    decreases y
  {
    var c := MkChoice(x, y);
    if x == NotAllowed || y == NotAllowed {
    } else if PatEq(x, y) || InChoice(x, y) {
      assert c == x;
    } else if y.Choice? && AltCount(x) * AltCount(y) <= MAX_MERGE_PAIRS {
      var d := MkChoice(x, y.left);
      assert y == Choice(y.left, y.right);
      ChoiceKeeps(f, x, y.left);
      ChoiceKeeps(f, d, y.right);
      assert c == MkChoice(d, y.right);
    } else {
      assert c == Choice(x, y);
    }
  }

  function MkGroup(a: Pattern, b: Pattern): (c: Pattern)
    ensures c == NotAllowed <==> a == NotAllowed || b == NotAllowed
  {
    if a == NotAllowed || b == NotAllowed then NotAllowed
    else if a == Empty then b
    else if b == Empty then a
    else Group(a, b)
  }

  function MkInterleave(a: Pattern, b: Pattern): (c: Pattern)
    ensures c == NotAllowed <==> a == NotAllowed || b == NotAllowed
  {
    if a == NotAllowed || b == NotAllowed then NotAllowed
    else if a == Empty then b
    else if b == Empty then a
    else Interleave(a, b)
  }

  function MkAfter(a: Pattern, b: Pattern): (c: Pattern)
    ensures c == NotAllowed <==> a == NotAllowed || b == NotAllowed
  {
    if a == NotAllowed || b == NotAllowed then NotAllowed else After(a, b)
  }

  function MkOneOrMore(p: Pattern): (c: Pattern)
    ensures c == NotAllowed <==> p == NotAllowed
  {
    if p == NotAllowed then NotAllowed else OneOrMore(p)
  }
}
