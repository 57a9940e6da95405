/** When the bounds of a validation bind: how deep elements nest, and how large the patterns
    are that are carried into elements and to attributes. */
module RelaxBounds {
  import opened RelaxSyntax
  import opened RelaxLanguage
  import opened RelaxDerivative
  import opened RelaxRun

  // ---- depth -------------------------------------------------------------

  /** How many elements stand within one another. */
  function Height(n: Node): nat
    decreases n, 1
  {
    if n.ElementNode? then 1 + HeightAll(n.children) else 0
  }

  function HeightAll(nodes: seq<Node>): nat
    decreases nodes, 0
  {
    if nodes == [] then 0 else Max(Height(nodes[0]), HeightAll(nodes[1..]))
  }

  /** An element with `depth` around it, or one inside it, is one too many. */
  predicate TooFar(n: Node, depth: int, max: int)
    decreases n, 1
  {
    n.ElementNode? && (depth >= max || FarAmong(n.children, depth + 1, max))
  }

  predicate FarAmong(nodes: seq<Node>, depth: int, max: int)
    decreases nodes, 0
  {
    nodes != [] && (TooFar(nodes[0], depth, max) || FarAmong(nodes[1..], depth, max))
  }

  lemma {:induction false} FarIs(n: Node, depth: int, max: int)
    requires depth <= max
    ensures TooFar(n, depth, max) <==> depth + Height(n) > max
    decreases n, 1
  {
    if n.ElementNode? && depth < max { FarAmongIs(n.children, depth + 1, max); }
  }

  lemma {:induction false} FarAmongIs(nodes: seq<Node>, depth: int, max: int)
    requires depth <= max
    ensures FarAmong(nodes, depth, max) <==> depth + HeightAll(nodes) > max
    decreases nodes, 0
  {
    if nodes != [] {
      FarIs(nodes[0], depth, max);
      FarAmongIs(nodes[1..], depth, max);
    }
  }

  // ---- size --------------------------------------------------------------

  /** A pattern larger than `max` is carried into the element, to one of its attributes or
      into an element inside. */
  predicate Big(g: Grammar, p: Pattern, el: Item, max: int)
    requires el.Elem?
    decreases el, 3
  {
    Size(p) > max || BigWithin(g, p, el, max)
  }

  predicate BigWithin(g: Grammar, p: Pattern, el: Item, max: int)
    requires el.Elem?
    decreases el, 2
  {
    || BigAtts(g, OpenDeriv(g, p, el.tag), el.attrs, el.cx, max)
    || BigKids(g, TagRun(g, p, el), el.kids, el.cx, max)
  }

  predicate BigAtts(g: Grammar, p: Pattern, attrs: seq<Attr>, cx: Context, max: int)
    decreases |attrs|
  {
    attrs != [] && (Size(p) > max || BigAtts(g, AttDeriv(g, p, attrs[0], cx), attrs[1..], cx, max))
  }

  predicate BigKids(g: Grammar, p: Pattern, kids: seq<Item>, cx: Context, max: int)
    decreases kids, 1
  {
    BigAmong(g, p, kids, cx, HasElem(kids), max)
  }

  predicate BigAmong(g: Grammar, p: Pattern, m: seq<Item>, cx: Context, hasElem: bool, max: int)
    decreases m, 0
  {
    && m != []
    && if m[0].Str? then BigAmong(g, StringRun(g, p, m[0].s, cx, hasElem), m[1..], cx, hasElem, max)
       else Big(g, p, m[0], max) || BigAmong(g, ElemRun(g, p, m[0]), m[1..], cx, hasElem, max)
  }
}
