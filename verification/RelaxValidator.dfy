/** The validator: one walk of the document that takes remembered derivatives,
    under bounds on depth and on the size of the carried pattern. */
module RelaxValidator {
  import opened Basics
  import opened RelaxSyntax
  import opened RelaxLanguage
  import opened RelaxDerivative
  import opened RelaxSchema
  import opened RelaxAttribute
  import opened RelaxStack
  import opened RelaxQuotient
  import opened RelaxRun
  import opened RelaxBounds
  import opened RelaxDocuments
  import opened RelaxBuilder

  datatype Outcome = Accepted | NoRoot | TooBig | TooDeep | Invalid

  const MEMO_AFTER: nat := 1000

  // ---- nodes and items ---------------------------------------------------

  function ContentChildren(nodes: seq<Node>): seq<Node> {
    if nodes == [] then []
    else if nodes[0].OtherNode? then ContentChildren(nodes[1..])
    else [nodes[0]] + ContentChildren(nodes[1..])
  }

  lemma {:induction false} ContentChildrenOnly(nodes: seq<Node>)
    ensures Items(ContentChildren(nodes)) == Items(nodes)
    ensures forall n | n in ContentChildren(nodes) :: n in nodes && !n.OtherNode?
  {
    if nodes != [] {
      ContentChildrenOnly(nodes[1..]);
      if !nodes[0].OtherNode? {
        assert ([nodes[0]] + ContentChildren(nodes[1..]))[1..] == ContentChildren(nodes[1..]);
      }
    }
  }

  lemma {:induction false} FarContent(nodes: seq<Node>, depth: int, max: int)
    ensures FarAmong(ContentChildren(nodes), depth, max) <==> FarAmong(nodes, depth, max)
  {
    if nodes != [] {
      FarContent(nodes[1..], depth, max);
      if !nodes[0].OtherNode? {
        assert ([nodes[0]] + ContentChildren(nodes[1..]))[1..] == ContentChildren(nodes[1..]);
      }
    }
  }

  /** A string put in front of content, joining a string already there. */
  function Prepend(s: string, m: seq<Item>): seq<Item> {
    if m != [] && m[0].Str? then [Str(s + m[0].s)] + m[1..] else [Str(s)] + m
  }

  lemma PrependTwice(s: string, t: string, m: seq<Item>)
    ensures Prepend(s, Prepend(t, m)) == Prepend(s + t, m)
  {
    if m != [] && m[0].Str? { assert s + (t + m[0].s) == s + t + m[0].s; }
  }

  lemma ItemsFrom(ks: seq<Node>, i: nat)
    requires i < |ks| && !ks[i].OtherNode?
    ensures ks[i].TextNode? ==> Items(ks[i..]) == Prepend(ks[i].value, Items(ks[i + 1..]))
    ensures ks[i].ElementNode? ==> Items(ks[i..]) == [ItemOf(ks[i])] + Items(ks[i + 1..])
  {
    assert ks[i..][0] == ks[i] && ks[i..][1..] == ks[i + 1..];
  }

  /** A string before content, apart or joined to its first, adds no element. */
  lemma PrependElems(s: string, m: seq<Item>)
    ensures HasElem(Prepend(s, m)) <==> HasElem(m)
  {
    var k := if m != [] && m[0].Str? then 0 else 1;
    var all := Prepend(s, m);
    if HasElem(m) {
      var i :| 0 <= i < |m| && m[i].Elem?;
      assert all[i + k].Elem?;
    }
    if HasElem(all) {
      var i :| 0 <= i < |all| && all[i].Elem?;
      assert m[i - k].Elem?;
    }
  }

  lemma ElemFirst(x: Item, m: seq<Item>)
    requires x.Elem?
    ensures HasElem([x] + m)
  {
    assert ([x] + m)[0].Elem?;
  }

  lemma {:induction false} ElemAmong(ks: seq<Node>)
    requires forall n | n in ks :: !n.OtherNode?
    ensures HasElem(Items(ks)) <==> exists n :: n in ks && n.ElementNode?
  {
    if ks != [] {
      ElemAmong(ks[1..]);
      ItemsFrom(ks, 0);
      assert ks[0..] == ks && ks == [ks[0]] + ks[1..];
      if ks[0].ElementNode? {
        ElemFirst(ItemOf(ks[0]), Items(ks[1..]));
      } else {
        PrependElems(ks[0].value, Items(ks[1..]));
      }
    }
  }

  // ---- one item at a time ------------------------------------------------

  lemma FirstTaken(g: Grammar, p: Pattern, q: Pattern, x: Item, rest: seq<Item>, cx: Context, hasElem: bool)
    requires q == if x.Str? then StringRun(g, p, x.s, cx, hasElem) else ElemRun(g, p, x)
    ensures ItemsRun(g, p, [x] + rest, cx, hasElem) == ItemsRun(g, q, rest, cx, hasElem)
  {
    assert ([x] + rest)[1..] == rest;
  }

  lemma StringKeeps(g: Grammar, p: Pattern, k: nat, s: string, cx: Context, hasElem: bool)
    requires SchemaGrammar(g) && k > 0 && Stacked(IsSchema(g), p, k)
    ensures Stacked(IsSchema(g), StringRun(g, p, s, cx, hasElem), k)
  {
    SchemaHereditary(g);
    TextKeepsLevel(g, IsSchema(g), p, k, s, cx);
    StackedChoice(IsSchema(g), p, TextDeriv(g, p, s, cx), k);
  }

  lemma ElementKeeps(g: Grammar, p: Pattern, k: nat, el: Item)
    requires SchemaGrammar(g) && el.Elem? && Stacked(IsSchema(g), p, k)
    ensures Stacked(IsSchema(g), ElemRun(g, p, el), k)
  {
    SchemaHereditary(g);
    ElemKeeps(g, IsSchema(g), p, k, el);
  }

  // ---- bounds, one item at a time ----------------------------------------

  lemma FarFrom(ks: seq<Node>, i: nat, depth: int, max: int)
    requires i < |ks|
    ensures FarAmong(ks[i..], depth, max) <==> TooFar(ks[i], depth, max) || FarAmong(ks[i + 1..], depth, max)
  {
    assert ks[i..][0] == ks[i] && ks[i..][1..] == ks[i + 1..];
  }

  lemma BigAfterString(g: Grammar, p: Pattern, q: Pattern, s: string, rest: seq<Item>, cx: Context, hasElem: bool,
                       max: int)
    requires q == StringRun(g, p, s, cx, hasElem)
    ensures BigAmong(g, p, [Str(s)] + rest, cx, hasElem, max) == BigAmong(g, q, rest, cx, hasElem, max)
  {
    assert ([Str(s)] + rest)[1..] == rest;
  }

  lemma BigFrom(g: Grammar, p: Pattern, x: Item, rest: seq<Item>, cx: Context, hasElem: bool, max: int)
    requires x.Elem?
    ensures BigAmong(g, p, [x] + rest, cx, hasElem, max)
       <==> Big(g, p, x, max) || BigAmong(g, ElemRun(g, p, x), rest, cx, hasElem, max)
  {
    assert ([x] + rest)[1..] == rest;
  }

  lemma DeadTag(g: Grammar, p: Pattern, el: Item)
    requires el.Elem? && AttsRun(g, OpenDeriv(g, p, el.tag), el.attrs, el.cx) == NotAllowed
    ensures ElemRun(g, p, el) == NotAllowed
  {
    DeadKids(g, el.kids, el.cx);
  }

  lemma DeadOpen(g: Grammar, p: Pattern, el: Item)
    requires el.Elem? && OpenDeriv(g, p, el.tag) == NotAllowed
    ensures ElemRun(g, p, el) == NotAllowed
  {
    DeadAtts(g, el.attrs, el.cx);
    DeadTag(g, p, el);
  }

  // ---- the walk ----------------------------------------------------------

  /** What the walk makes of one node when no bound fires. */
  function NodeRun(g: Grammar, p: Pattern, n: Node): Pattern {
    match n
    case ElementNode(_, _, _, _) => ElemRun(g, p, ItemOf(n))
    case TextNode(s) =>
      if WhitespaceOnly(s) && TextDeriv(g, p, s, NO_BINDINGS) == NotAllowed then p
      else TextDeriv(g, p, s, NO_BINDINGS)
    case OtherNode => p
  }

  class Validator {
    const g: Grammar
    const memo: SchemaMemo
    const pb: PatBuilder
    const maxDepth: int
    const maxPattern: int
    var depth: int
    var elems: nat
    var tooDeep: bool
    var tooBig: bool
    var kids: seq<Node>

    constructor (g: Grammar, memo: SchemaMemo, maxDepth: int, maxPattern: int)
      requires memo.Valid(g)
      ensures this.g == g && this.memo == memo && fresh(pb) && this.maxDepth == maxDepth
      ensures this.maxPattern == maxPattern && depth == 0 && kids == [] && !Fired() && Valid()
    {
      this.g, this.memo, this.maxDepth, this.maxPattern := g, memo, maxDepth, maxPattern;
      pb := new PatBuilder();
      depth, elems, tooDeep, tooBig, kids := 0, 0, false, false, [];
    }

    ghost predicate Valid()
      reads memo, pb
    {
      Fit(g, memo, pb) && pb.Remembers(g)
    }

    predicate Fired()
      reads this`tooDeep, this`tooBig
    {
      tooDeep || tooBig
    }

    /** A bound has fired only where it had to, and what is left is alive only where none had. */
    predicate Justified(deep: bool, big: bool, q: Pattern)
      reads this`tooDeep, this`tooBig
    {
      && (tooDeep ==> maxDepth >= 0 && deep) && (tooBig ==> maxPattern >= 0 && big) && (Fired() ==> q == NotAllowed)
      && (q != NotAllowed ==> (maxDepth >= 0 ==> !deep) && (maxPattern >= 0 ==> !big))
    }

    method AttsDeriv(p: Pattern, ghost k: nat, attrs: seq<Attr>, cx: Context) returns (q: Pattern)
      requires Valid() && SchemaGrammar(g) && Stacked(IsSchema(g), p, k) && !Fired()
      modifies this`tooBig, memo, pb
      ensures Valid()
      ensures Justified(false, BigAtts(g, p, attrs, cx, maxPattern), q)
      ensures !Fired() ==> q == AttsRun(g, p, attrs, cx)
    {
      SchemaHereditary(g);
      q := p;
      for i := 0 to |attrs|
        invariant Valid() && !Fired() && Stacked(IsSchema(g), q, k)
        invariant AttsRun(g, p, attrs, cx) == AttsRun(g, q, attrs[i..], cx)
        invariant maxPattern >= 0 ==> BigAtts(g, p, attrs, cx, maxPattern) == BigAtts(g, q, attrs[i..], cx, maxPattern)
      {
        if maxPattern >= 0 && Size(q) > maxPattern {
          tooBig := true;
          return NotAllowed;
        }
        assert attrs[i..][0] == attrs[i] && attrs[i..][1..] == attrs[i + 1..];
        AttKeepsLevel(g, IsSchema(g), q, k, attrs[i], cx);
        q := Att(g, memo, pb, q, k, attrs[i], cx);
      }
      assert attrs[|attrs|..] == [];
    }

    method ChildDeriv(p: Pattern, ghost k: nat, n: Node) returns (q: Pattern)
      requires Valid() && SchemaGrammar(g) && Stacked(IsSchema(g), p, k) && !Fired()
      modifies this, memo, pb
      ensures Valid() && depth == old(depth) && kids == old(kids)
      ensures Justified(TooFar(n, depth, maxDepth), n.ElementNode? && Big(g, p, ItemOf(n), maxPattern), q)
      ensures !Fired() ==> q == NodeRun(g, p, n)
      decreases n, 3
    {
      match n
      case OtherNode => q := p;
      case TextNode(s) =>
        q := TakeText(g, memo, pb, p, k, s, NO_BINDINGS);
        if WhitespaceOnly(s) && q == NotAllowed { q := p; }
      case ElementNode(_, _, _, _) => q := BoundedElement(p, k, n);
    }

    /** An element under the bounds on depth and on the size of the pattern. */
    method BoundedElement(p: Pattern, ghost k: nat, n: Node) returns (q: Pattern)
      requires n.ElementNode?
      requires Valid() && SchemaGrammar(g) && Stacked(IsSchema(g), p, k) && !Fired()
      modifies this, memo, pb
      ensures Valid() && depth == old(depth) && kids == old(kids)
      ensures Justified(TooFar(n, depth, maxDepth), Big(g, p, ItemOf(n), maxPattern), q)
      ensures !Fired() ==> q == ElemRun(g, p, ItemOf(n))
      decreases n, 2
    {
      if maxDepth >= 0 && depth >= maxDepth {
        tooDeep := true;
        return NotAllowed;
      }
      depth := depth + 1;
      q := SizedElement(p, k, n);
      depth := depth - 1;
    }

    /** One element more, under the bound on the size of the pattern. */
    method SizedElement(p: Pattern, ghost k: nat, n: Node) returns (q: Pattern)
      requires n.ElementNode?
      requires Valid() && SchemaGrammar(g) && Stacked(IsSchema(g), p, k) && !Fired()
      modifies this, memo, pb
      ensures Valid() && depth == old(depth) && kids == old(kids)
      ensures Justified(FarAmong(n.children, depth, maxDepth), Big(g, p, ItemOf(n), maxPattern), q)
      ensures !Fired() ==> q == ElemRun(g, p, ItemOf(n))
      decreases n, 1
    {
      elems := elems + 1;
      if elems == MEMO_AFTER { pb.live := true; }
      if maxPattern >= 0 && Size(p) > maxPattern {
        tooBig := true;
        return NotAllowed;
      }
      q := ElementDeriv(p, k, n);
    }

    /** Start tag, content and end tag of one element. */
    method ElementDeriv(p: Pattern, ghost k: nat, n: Node) returns (q: Pattern)
      requires n.ElementNode?
      requires Valid() && SchemaGrammar(g) && Stacked(IsSchema(g), p, k) && !Fired()
      modifies this, memo, pb
      ensures Valid() && depth == old(depth) && kids == old(kids)
      ensures Justified(FarAmong(n.children, depth, maxDepth), BigWithin(g, p, ItemOf(n), maxPattern), q)
      ensures !Fired() ==> q == ElemRun(g, p, ItemOf(n))
      decreases n, 0
    {
      ghost var el := ItemOf(n);
      SchemaHereditary(g);
      OpenStacked(g, IsSchema(g), p, k, n.tag);
      TagKeeps(g, IsSchema(g), p, k, el);
      var p1 := Open(g, memo, pb, p, n.tag);
      if p1 == NotAllowed {
        DeadOpen(g, p, el);
        return NotAllowed;
      }
      p1 := AttsDeriv(p1, k + 1, ElementAttrs(n.attrs), n.cx);
      if p1 == NotAllowed {
        if !Fired() { DeadTag(g, p, el); }
        return NotAllowed;
      }
      p1 := CloseTag(g, memo, pb, p1);
      q := InsideDeriv(p1, k, n);
    }

    /** From the close of the start tag to the end tag. */
    method InsideDeriv(t: Pattern, ghost k: nat, n: Node) returns (q: Pattern)
      requires n.ElementNode?
      requires Valid() && SchemaGrammar(g) && Stacked(IsSchema(g), t, k + 1) && !Fired()
      modifies this, memo, pb
      ensures Valid() && depth == old(depth) && kids == old(kids)
      ensures Justified(FarAmong(n.children, depth, maxDepth), BigKids(g, t, Items(n.children), n.cx, maxPattern), q)
      ensures !Fired() ==> q == EndDeriv(g, KidsRun(g, t, Items(n.children), n.cx))
      decreases n.children, 5
    {
      if t == NotAllowed {
        DeadKids(g, Items(n.children), n.cx);
        return NotAllowed;
      }
      var p1 := ChildrenDeriv(t, k + 1, n.children, n.cx);
      if p1 == NotAllowed { return NotAllowed; }
      q := End(g, memo, pb, p1);
    }

    method ChildrenDeriv(p: Pattern, ghost k: nat, children: seq<Node>, cx: Context) returns (q: Pattern)
      requires Valid() && SchemaGrammar(g) && k > 0 && Stacked(IsSchema(g), p, k) && !Fired()
      modifies this, memo, pb
      ensures Valid() && depth == old(depth) && kids == old(kids)
      ensures Justified(FarAmong(children, depth, maxDepth), BigKids(g, p, Items(children), cx, maxPattern), q)
      ensures !Fired() ==> q == KidsRun(g, p, Items(children), cx)
      decreases children, 4
    {
      var base := |kids|;
      ghost var was := kids;
      ContentChildrenOnly(children);
      FarContent(children, depth, maxDepth);
      kids := kids + ContentChildren(children);
      assert kids[..base] == was && kids[base..] == ContentChildren(children);
      if |kids| == base {
        assert ContentChildren(children) == [];
        q := EmptyDeriv(p, k, cx);
      } else {
        var ks := kids[base..];
        var hasElem := AnyElement(ks);
        q := SequenceDeriv(p, k, children, ks, cx, hasElem);
      }
      kids := kids[..base];
    }

    method EmptyDeriv(p: Pattern, ghost k: nat, cx: Context) returns (q: Pattern)
      requires Valid() && SchemaGrammar(g) && Stacked(IsSchema(g), p, k) && !Fired()
      modifies memo, pb
      ensures Valid() && !Fired() && q == EmptyRun(g, p, cx)
    {
      if Nullable(g, p) { return p; }
      var d := TakeText(g, memo, pb, p, k, "", cx);
      var e := TakeEnd(g, pb, d);
      q := if e != NotAllowed then d else p;
    }

    method SequenceDeriv(p: Pattern, ghost k: nat, ghost children: seq<Node>, ks: seq<Node>, cx: Context,
                         hasElem: bool)
      returns (q: Pattern)
      requires Valid() && SchemaGrammar(g) && k > 0 && Stacked(IsSchema(g), p, k) && !Fired()
      requires forall n | n in ks :: n in children && !n.OtherNode?
      modifies this, memo, pb
      ensures Valid() && depth == old(depth) && kids == old(kids)
      ensures Justified(FarAmong(ks, depth, maxDepth), BigAmong(g, p, Items(ks), cx, hasElem, maxPattern), q)
      ensures !Fired() ==> q == ItemsRun(g, p, Items(ks), cx, hasElem)
      decreases children, 3
    {
      q := p;
      var i := 0;
      assert ks[0..] == ks;
      while i < |ks|
        invariant 0 <= i <= |ks|
        invariant Valid() && !Fired() && depth == old(depth) && kids == old(kids)
        invariant Stacked(IsSchema(g), q, k)
        invariant ItemsRun(g, p, Items(ks), cx, hasElem) == ItemsRun(g, q, Items(ks[i..]), cx, hasElem)
        invariant maxDepth >= 0 ==> FarAmong(ks, depth, maxDepth) == FarAmong(ks[i..], depth, maxDepth)
        invariant maxPattern >= 0 ==> BigAmong(g, p, Items(ks), cx, hasElem, maxPattern)
                                      == BigAmong(g, q, Items(ks[i..]), cx, hasElem, maxPattern)
      {
        q, i := ItemDeriv(q, k, children, ks, i, cx, hasElem);
        if q == NotAllowed {
          if !Fired() { DeadItems(g, Items(ks[i..]), cx, hasElem); }
          return NotAllowed;
        }
      }
      assert ks[|ks|..] == [];
    }

    /** One string or one element, and where the next begins. */
    method ItemDeriv(p: Pattern, ghost k: nat, ghost children: seq<Node>, ks: seq<Node>, i: nat, cx: Context,
                     hasElem: bool)
      returns (q: Pattern, j: nat)
      requires Valid() && SchemaGrammar(g) && k > 0 && Stacked(IsSchema(g), p, k) && !Fired()
      requires i < |ks| && forall n | n in ks :: n in children && !n.OtherNode?
      modifies this, memo, pb
      ensures Valid() && depth == old(depth) && kids == old(kids) && i < j <= |ks|
      ensures Following(p, q, k, ks, i, j, cx, hasElem)
      decreases children, 2
    {
      assert ks[i] in ks;
      if ks[i].TextNode? {
        var s, e := JoinText(ks, i, depth, maxDepth);
        j := e;
        StringKeeps(g, p, k, s, cx, hasElem);
        q := StringDeriv(p, k, s, cx, hasElem);
        FirstTaken(g, p, q, Str(s), Items(ks[j..]), cx, hasElem);
        BigAfterString(g, p, q, s, Items(ks[j..]), cx, hasElem, maxPattern);
      } else {
        j := i + 1;
        q := ElementItem(p, k, children, ks, i, cx, hasElem);
      }
    }

    method ElementItem(p: Pattern, ghost k: nat, ghost children: seq<Node>, ks: seq<Node>, i: nat, cx: Context,
                       hasElem: bool)
      returns (q: Pattern)
      requires Valid() && SchemaGrammar(g) && k > 0 && Stacked(IsSchema(g), p, k) && !Fired()
      requires i < |ks| && ks[i].ElementNode? && ks[i] in children
      modifies this, memo, pb
      ensures Valid() && depth == old(depth) && kids == old(kids)
      ensures Following(p, q, k, ks, i, i + 1, cx, hasElem)
      decreases children, 1
    {
      ItemsFrom(ks, i);
      ElementKeeps(g, p, k, ItemOf(ks[i]));
      FarFrom(ks, i, depth, maxDepth);
      BigFrom(g, p, ItemOf(ks[i]), Items(ks[i + 1..]), cx, hasElem, maxPattern);
      q := ChildDeriv(p, k, ks[i]);
      if !Fired() { FirstTaken(g, p, q, ItemOf(ks[i]), Items(ks[i + 1..]), cx, hasElem); }
    }

    /** What is left to do from `j` on with `q` is what was from `i` on with `p`. */
    ghost predicate Following(p: Pattern, q: Pattern, k: nat, ks: seq<Node>, i: nat, j: nat, cx: Context, hasElem: bool)
      requires i <= j <= |ks|
      reads this
    {
      var (before, after) := (Items(ks[i..]), Items(ks[j..]));
      if Fired() then
        Justified(FarAmong(ks[i..], depth, maxDepth), BigAmong(g, p, before, cx, hasElem, maxPattern), q)
      else
        && Stacked(IsSchema(g), q, k)
        && ItemsRun(g, p, before, cx, hasElem) == ItemsRun(g, q, after, cx, hasElem)
        && (q != NotAllowed && maxDepth >= 0 ==>
              FarAmong(ks[i..], depth, maxDepth) == FarAmong(ks[j..], depth, maxDepth))
        && (q != NotAllowed && maxPattern >= 0 ==>
              BigAmong(g, p, before, cx, hasElem, maxPattern) == BigAmong(g, q, after, cx, hasElem, maxPattern))
    }

    method StringDeriv(p: Pattern, ghost k: nat, s: string, cx: Context, hasElem: bool) returns (q: Pattern)
      requires Valid() && SchemaGrammar(g) && Stacked(IsSchema(g), p, k) && !Fired()
      modifies memo, pb
      ensures Valid() && q == StringRun(g, p, s, cx, hasElem)
    {
      if !WhitespaceOnly(s) {
        q := TakeText(g, memo, pb, p, k, s, cx);
      } else if hasElem {
        q := p;
      } else {
        q := TakeText(g, memo, pb, p, k, s, cx);
        q := BuildChoice(pb, p, q);
      }
    }

    static method AnyElement(ks: seq<Node>) returns (any: bool)
      requires ks != [] && forall n | n in ks :: !n.OtherNode?
      ensures any == HasElem(Items(ks)) && Items(ks) != []
    {
      any := exists n :: n in ks && n.ElementNode?;
      ElemAmong(ks);
      assert ks[0] in ks;
    }

    /** The string that begins at `ks[i]` and where it ends. */
    static method JoinText(ks: seq<Node>, i: nat, ghost depth: int, ghost max: int) returns (s: string, j: nat)
      requires i < |ks| && ks[i].TextNode? && forall n | n in ks :: !n.OtherNode?
      ensures i < j <= |ks| && Items(ks[i..]) == [Str(s)] + Items(ks[j..])
      ensures FarAmong(ks[i..], depth, max) == FarAmong(ks[j..], depth, max)
    {
      s, j := ks[i].value, i + 1;
      ghost var whole := Items(ks[i..]);
      ItemsFrom(ks, i);
      FarFrom(ks, i, depth, max);
      while j < |ks| && ks[j].TextNode?
        invariant i < j <= |ks|
        invariant whole == Prepend(s, Items(ks[j..]))
        invariant FarAmong(ks[i..], depth, max) == FarAmong(ks[j..], depth, max)
      {
        ItemsFrom(ks, j);
        FarFrom(ks, j, depth, max);
        PrependTwice(s, ks[j].value, Items(ks[j + 1..]));
        s, j := s + ks[j].value, j + 1;
      }
      NotText(ks, j);
    }
  }

  lemma NotText(ks: seq<Node>, j: nat)
    requires j <= |ks| && (forall n | n in ks :: !n.OtherNode?) && (j < |ks| ==> !ks[j].TextNode?)
    ensures Items(ks[j..]) == [] || Items(ks[j..])[0].Elem?
  {
    if j < |ks| {
      assert ks[j] in ks;
      ItemsFrom(ks, j);
    }
  }

  // ---- validation --------------------------------------------------------

  datatype Document = Tree(children: seq<Node>) | Fragment(node: Node)

  /** The node validated: a document's first element child, or the node itself. */
  function RootOf(doc: Document): Option<Node> {
    match doc
    case Fragment(n) => Some(n)
    case Tree(children) => FirstElement(children)
  }

  function FirstElement(nodes: seq<Node>): Option<Node> {
    if nodes == [] then None
    else if nodes[0].ElementNode? then Some(nodes[0])
    else FirstElement(nodes[1..])
  }

  lemma {:induction false} FirstElementIs(nodes: seq<Node>)
    ensures match FirstElement(nodes)
            case None => forall i | 0 <= i < |nodes| :: !nodes[i].ElementNode?
            case Some(n) =>
              exists i | 0 <= i < |nodes| ::
                nodes[i] == n && n.ElementNode? && forall k | 0 <= k < i :: !nodes[k].ElementNode?
  {
    if nodes != [] && !nodes[0].ElementNode? {
      var rest := nodes[1..];
      FirstElementIs(rest);
      assert forall i | 0 <= i < |rest| :: rest[i] == nodes[i + 1];
      if FirstElement(rest).Some? {
        var i :| 0 <= i < |rest| && rest[i] == FirstElement(rest).value && rest[i].ElementNode?
                 && forall k | 0 <= k < i :: !rest[k].ElementNode?;
        assert nodes[i + 1] == rest[i];
        forall k | 0 <= k < i + 1 ensures !nodes[k].ElementNode? { if k > 0 { assert nodes[k] == rest[k - 1]; } }
      }
    }
  }

  const DEFAULT_MAX_DEPTH := 1000
  const DEFAULT_MAX_PATTERN := 100_000

  /** What a verdict says of the document. */
  ghost predicate Right(g: Grammar, start: Pattern, root: Node, accepted: bool)
    requires root.ElementNode?
  {
    && (SoundGrammar(g) && Sound(g, start) && accepted ==> Valid(g, start, root))
    && (ExactGrammar(g) && Exact(g, start) && ClearElem(g, start, ItemOf(root)) && !accepted ==> !Valid(g, start, root))
    && (WellFormed(g, start) && Filled(ItemOf(root).kids) ==> (accepted <==> Valid(g, start, root)))
  }

  lemma VerdictRight(g: Grammar, start: Pattern, root: Node)
    requires root.ElementNode?
    ensures Right(g, start, root, Nullable(g, NodeRun(g, start, root)))
  {
    var accepted := Nullable(g, ElemRun(g, start, ItemOf(root)));
    if SoundGrammar(g) && Sound(g, start) && accepted { RunSound(g, start, root); }
    if ExactGrammar(g) && Exact(g, start) && ClearElem(g, start, ItemOf(root)) && Valid(g, start, root) {
      RunComplete(g, start, root);
    }
    if WellFormed(g, start) && Filled(ItemOf(root).kids) { FilledDecided(g, start, root); }
  }

  /** A bound of zero is the default one, a negative one none. */
  function Limit(bound: int, default: int): int { if bound == 0 then default else bound }

  /** Within both bounds, as far as there are any. */
  predicate Bounded(g: Grammar, start: Pattern, root: Node, maxDepth: int, maxPattern: int) {
    && (maxDepth >= 0 ==> Height(root) <= maxDepth)
    && (maxPattern >= 0 && root.ElementNode? ==> !Big(g, start, ItemOf(root), maxPattern))
  }

  /** Validates one node; what is refused for a bound is beyond it, and what is accepted
      within both. */
  method ValidateNode(g: Grammar, start: Pattern, memo: SchemaMemo, root: Node, maxDepth: int, maxPattern: int)
    returns (out: Outcome)
    requires memo.Valid(g) && SchemaGrammar(g) && Schema(g, start) && maxDepth != 0 && maxPattern != 0
    modifies memo
    ensures memo.Valid(g) && !out.NoRoot?
    ensures out.Accepted? || out.Invalid? ==> (out.Accepted? <==> Nullable(g, NodeRun(g, start, root)))
    ensures out.TooDeep? ==> 0 < maxDepth < Height(root)
    ensures out.TooBig? ==> maxPattern > 0 && root.ElementNode? && Big(g, start, ItemOf(root), maxPattern)
    ensures out.Accepted? ==> Bounded(g, start, root, maxDepth, maxPattern)
  {
    var v := new Validator(g, memo, maxDepth, maxPattern);
    if maxDepth > 0 { FarIs(root, 0, maxDepth); }
    var p := v.ChildDeriv(start, 0, root);
    out := if v.tooBig then TooBig else if v.tooDeep then TooDeep else if Nullable(g, p) then Accepted else Invalid;
  }

  /** Validates against a schema whose shared tables hold right answers, and
      leaves them so. */
  method Validate(g: Grammar, start: Pattern, memo: SchemaMemo, doc: Document, maxDepth: int, maxPattern: int)
    returns (out: Outcome)
    requires memo.Valid(g) && SchemaGrammar(g) && Schema(g, start)
    modifies memo
    ensures memo.Valid(g)
    ensures out.NoRoot? <==> RootOf(doc).None?
    ensures out.Accepted? || out.Invalid? ==>
      (out.Accepted? <==> Nullable(g, NodeRun(g, start, RootOf(doc).value)))
    ensures out.TooDeep? ==> 0 < Limit(maxDepth, DEFAULT_MAX_DEPTH) < Height(RootOf(doc).value)
    ensures out.TooBig? ==> var (limit, root) := (Limit(maxPattern, DEFAULT_MAX_PATTERN), RootOf(doc).value);
                            limit > 0 && root.ElementNode? && Big(g, start, ItemOf(root), limit)
    ensures out.Accepted? ==> Bounded(g, start, RootOf(doc).value, Limit(maxDepth, DEFAULT_MAX_DEPTH),
                                      Limit(maxPattern, DEFAULT_MAX_PATTERN))
    ensures (out.Accepted? || out.Invalid?) && RootOf(doc).value.ElementNode?
      ==> Right(g, start, RootOf(doc).value, out.Accepted?)
  {
    var root := RootOf(doc);
    if root.None? {
      out := NoRoot;
    } else {
      out := ValidateNode(g, start, memo, root.value, Limit(maxDepth, DEFAULT_MAX_DEPTH),
                          Limit(maxPattern, DEFAULT_MAX_PATTERN));
      if root.value.ElementNode? { VerdictRight(g, start, root.value); }
    }
  }
}
