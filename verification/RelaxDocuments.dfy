/** Which documents every schema decides rightly: those of which no element but the
    document element is empty. */
module RelaxDocuments {
  import opened Basics
  import opened RelaxSyntax
  import opened RelaxLanguage
  import opened RelaxDerivative
  import opened RelaxSchema
  import opened RelaxLaws
  import opened RelaxAttribute
  import opened RelaxStack
  import opened RelaxQuotient
  import opened RelaxRun

  /** What may stand as a start (section 7.1.5): one element, or alternatives of them. */
  predicate StartLike(g: Grammar, p: Pattern)
    decreases Level(g.rank, p), p
  {
    match p
    case NotAllowed => true
    case Element(_, _) => true
    case Choice(l, r) => StartLike(g, l) && StartLike(g, r)
    case Ref(id) => StartLike(g, Expand(g, id))
    case Static(q, _, _, _, _) => StartLike(g, q)
    case _ => false
  }

  /** A schema that meets the restrictions of section 7. */
  ghost predicate WellFormed(g: Grammar, start: Pattern) {
    ExactGrammar(g) && Exact(g, start) && StartLike(g, start)
  }

  ghost predicate Decides(g: Grammar, start: Pattern, root: Node)
    requires root.ElementNode?
  {
    Nullable(g, ElemRun(g, start, ItemOf(root))) <==> Valid(g, start, root)
  }

  // ---- an empty document element -----------------------------------------

  /** Nothing is wanted after the document element. */
  predicate Last(p: Pattern) {
    match p
    case NotAllowed => true
    case Choice(l, r) => Last(l) && Last(r)
    case After(_, r) => r == Empty
    case _ => false
  }

  lemma {:induction false} LastChoice(x: Pattern, y: Pattern)
    requires Last(x) && Last(y)
    ensures Last(MkChoice(x, y))
    decreases y
  {
    ChoiceKeeps(p => Last(p), x, y);
  }

  lemma {:induction false} OpenLast(g: Grammar, p: Pattern, name: QName)
    requires StartLike(g, p)
    ensures Last(OpenDeriv(g, p, name))
    decreases Level(g.rank, p), p
  {
    match p
    case Choice(l, r) =>
      OpenLast(g, l, name); OpenLast(g, r, name);
      LastChoice(OpenDeriv(g, l, name), OpenDeriv(g, r, name));
    case Ref(id) => OpenLast(g, Expand(g, id), name);
    case Static(q, _, _, _, _) => OpenLast(g, q, name);
    case _ =>
  }

  lemma {:induction false} AttLast(g: Grammar, p: Pattern, a: Attr, cx: Context)
    requires Last(p)
    ensures Last(AttDeriv(g, p, a, cx))
    decreases p
  {
    if p.Choice? {
      AttLast(g, p.left, a, cx); AttLast(g, p.right, a, cx);
      LastChoice(AttDeriv(g, p.left, a, cx), AttDeriv(g, p.right, a, cx));
    }
  }

  lemma {:induction false} AttsLast(g: Grammar, p: Pattern, attrs: seq<Attr>, cx: Context)
    requires Last(p)
    ensures Last(AttsRun(g, p, attrs, cx))
    decreases attrs
  {
    if attrs != [] {
      AttLast(g, p, attrs[0], cx);
      AttsLast(g, AttDeriv(g, p, attrs[0], cx), attrs[1..], cx);
    }
  }

  lemma {:induction false} CloseLast(g: Grammar, p: Pattern)
    requires Last(p)
    ensures Last(CloseDeriv(g, p).0)
    decreases p
  {
    if p.Choice? {
      CloseLast(g, p.left); CloseLast(g, p.right);
      LastChoice(CloseDeriv(g, p.left).0, CloseDeriv(g, p.right).0);
    }
  }

  lemma {:induction false} TextLast(g: Grammar, p: Pattern, s: string, cx: Context)
    requires Last(p)
    ensures Last(TextDeriv(g, p, s, cx))
    decreases p
  {
    if p.Choice? {
      TextLast(g, p.left, s, cx); TextLast(g, p.right, s, cx);
      LastChoice(TextDeriv(g, p.left, s, cx), TextDeriv(g, p.right, s, cx));
    }
  }

  lemma {:induction false} EndLast(g: Grammar, p: Pattern)
    requires Last(p)
    ensures EndDeriv(g, p) == NotAllowed || EndDeriv(g, p) == Empty
    decreases p
  {
    if p.Choice? {
      EndLast(g, p.left); EndLast(g, p.right);
      assert MkChoice(Empty, Empty) == Empty;
    }
  }

  /** An empty document element is decided rightly: whichever reading is live ends the
      document. */
  lemma EmptyRootDecided(g: Grammar, start: Pattern, el: Item)
    requires WellFormed(g, start) && el.Elem? && el.kids == []
    ensures Nullable(g, ElemRun(g, start, el)) <==> Matches(g, NO_BINDINGS, start, [], [el])
  {
    ExactHereditary(g);
    var t := TagRun(g, start, el);
    var d := TextDeriv(g, t, "", el.cx);
    OpenLast(g, start, el.tag);
    AttsLast(g, OpenDeriv(g, start, el.tag), el.attrs, el.cx);
    CloseLast(g, AttsRun(g, OpenDeriv(g, start, el.tag), el.attrs, el.cx));
    TextLast(g, t, "", el.cx);
    EndLast(g, d);
    if Nullable(g, ElemRun(g, start, el)) {
      ItemSound(g, start, el);
    } else if Matches(g, NO_BINDINGS, start, [], [el]) {
      assert !Nullable(g, t) by { TagKeeps(g, IsExact(g), start, 0, el); StackNotNullable(g, IsExact(g), t, 1); }
      assert KidsRun(g, t, el.kids, el.cx) == EmptyRun(g, t, el.cx);
      assert EndDeriv(g, d) == NotAllowed;
      ItemComplete(g, start, el);
      assert false;
    }
  }

  lemma FilledDecided(g: Grammar, start: Pattern, root: Node)
    requires WellFormed(g, start) && root.ElementNode? && Filled(ItemOf(root).kids)
    ensures Decides(g, start, root)
  {
    if ItemOf(root).kids == [] {
      EmptyRootDecided(g, start, ItemOf(root));
    } else {
      assert [ItemOf(root)][1..] == [];
      RunExact(g, start, root);
    }
  }

  // ---- a schema made for a document --------------------------------------

  function AttrPattern(attrs: seq<Attr>): Pattern {
    if attrs == [] then Empty else Group(Attribute(Name(attrs[0].name), Text), AttrPattern(attrs[1..]))
  }

  /** Elements as they are, text anywhere beside them, and nothing in an empty one. */
  function ElemPattern(el: Item): Pattern
    requires el.Elem?
    decreases el, 1
  {
    Element(Name(el.tag), Group(AttrPattern(el.attrs), ContentPattern(el.kids)))
  }

  function ContentPattern(kids: seq<Item>): Pattern
    decreases kids, 1
  {
    if kids == [] then Empty else Interleave(Text, KidsPattern(kids))
  }

  function KidsPattern(m: seq<Item>): Pattern
    decreases m, 0
  {
    if m == [] then Empty
    else if m[0].Str? then KidsPattern(m[1..])
    else Group(ElemPattern(m[0]), KidsPattern(m[1..]))
  }

  function Elems(m: seq<Item>): seq<Item> {
    if m == [] then [] else if m[0].Str? then Elems(m[1..]) else [m[0]] + Elems(m[1..])
  }

  function Strs(m: seq<Item>): seq<Item> {
    if m == [] then [] else if m[0].Str? then [m[0]] + Strs(m[1..]) else Strs(m[1..])
  }

  // No value, data, list, reference or wrapper anywhere: text reads alike whatever it is.
  predicate Plain(p: Pattern) {
    match p
    case Choice(l, r) => Plain(l) && Plain(r)
    case Group(l, r) => Plain(l) && Plain(r)
    case Interleave(l, r) => Plain(l) && Plain(r)
    case OneOrMore(q) => Plain(q)
    case Element(_, q) => Plain(q)
    case Attribute(_, q) => q == Text
    case NotAllowed => true
    case Empty => true
    case Text => true
    case _ => false
  }

  /** A grammar with no definitions. */
  ghost predicate Bare(g: Grammar) { g.defs == map[] }

  lemma {:induction false} PlainSchema(g: Grammar, p: Pattern)
    requires Plain(p)
    ensures Schema(g, p) && SingleStrings(g, p)
  {
    match p
    case Choice(l, r) => PlainSchema(g, l); PlainSchema(g, r);
    case Group(l, r) => PlainSchema(g, l); PlainSchema(g, r);
    case Interleave(l, r) => PlainSchema(g, l); PlainSchema(g, r);
    case OneOrMore(q) => PlainSchema(g, q);
    case Element(_, q) => PlainSchema(g, q);
    case _ =>
  }

  ghost function IsPlain(): Pattern -> bool { p => Plain(p) }

  lemma PlainHereditary(g: Grammar)
    requires Bare(g)
    ensures Hereditary(g, IsPlain()) && ExactGrammar(g)
    ensures forall q {:trigger IsPlain()(q)} :: IsPlain()(q) ==> Schema(g, q)
  {
    forall q | Plain(q) ensures Schema(g, q) { PlainSchema(g, q); }
  }

  lemma {:induction false} AttrPlain(g: Grammar, attrs: seq<Attr>)
    ensures Plain(AttrPattern(attrs)) && FlatRepeats(g, AttrPattern(attrs))
  {
    if attrs != [] { AttrPlain(g, attrs[1..]); }
  }

  lemma {:induction false} ElemPlain(g: Grammar, el: Item)
    requires el.Elem?
    ensures Plain(ElemPattern(el)) && FlatRepeats(g, ElemPattern(el))
    decreases el, 1
  {
    AttrPlain(g, el.attrs);
    KidsPlain(g, el.kids);
    assert Plain(ContentPattern(el.kids)) && FlatRepeats(g, ContentPattern(el.kids));
  }

  lemma {:induction false} KidsPlain(g: Grammar, m: seq<Item>)
    ensures Plain(KidsPattern(m)) && FlatRepeats(g, KidsPattern(m))
    decreases m, 0
  {
    if m != [] {
      KidsPlain(g, m[1..]);
      if m[0].Elem? { ElemPlain(g, m[0]); }
    }
  }

  /** The derivative of such a pattern does not tell strings apart. */
  lemma {:induction false} PlainText(g: Grammar, p: Pattern, s: string, t: string, cx: Context)
    requires Plain(p)
    ensures TextDeriv(g, p, s, cx) == TextDeriv(g, p, t, cx)
    decreases p
  {
    match p
    case Choice(l, r) => PlainText(g, l, s, t, cx); PlainText(g, r, s, t, cx);
    case Group(l, r) => PlainText(g, l, s, t, cx); PlainText(g, r, s, t, cx);
    case Interleave(l, r) => PlainText(g, l, s, t, cx); PlainText(g, r, s, t, cx);
    case OneOrMore(q) => PlainText(g, q, s, t, cx);
    case _ =>
  }

  lemma {:induction false} StackText(g: Grammar, p: Pattern, k: nat, s: string, t: string, cx: Context)
    requires Stacked(IsPlain(), p, k)
    ensures TextDeriv(g, p, s, cx) == TextDeriv(g, p, t, cx)
    decreases p
  {
    if k == 0 {
      PlainText(g, p, s, t, cx);
    } else {
      match p
      case Choice(l, r) => StackText(g, l, k, s, t, cx); StackText(g, r, k, s, t, cx);
      case After(l, r) => PlainText(g, l, s, t, cx);
      case _ =>
    }
  }

  // ---- it matches the document -------------------------------------------

  lemma {:induction false} SplitKinds(m: seq<Item>)
    ensures Shuffle(m, Strs(m), Elems(m)) && AllStr(Strs(m))
    ensures forall x | x in Elems(m) :: x.Elem?
  {
    if m != [] { SplitKinds(m[1..]); }
  }

  lemma {:induction false} StripElems(m: seq<Item>)
    ensures Elems(StripBlank(m)) == Elems(m)
  {
    if m != [] {
      StripElems(m[1..]);
      if !IsBlank(m[0]) { assert ([m[0]] + StripBlank(m[1..]))[1..] == StripBlank(m[1..]); }
    }
  }

  lemma {:induction false} NoElems(m: seq<Item>)
    requires !HasElem(m)
    ensures Elems(m) == []
  {
    if m != [] { NoElems(m[1..]); }
  }

  /** However content is read, its elements are the same. */
  lemma ReadElems(kids: seq<Item>, k: seq<Item>)
    requires ReadAs(kids, k)
    ensures Elems(k) == Elems(kids)
  {
    if HasElem(kids) { StripElems(kids); } else { NoElems(kids); }
  }

  lemma {:induction false} AttrMatches(g: Grammar, cx: Context, attrs: seq<Attr>)
    ensures Matches(g, cx, AttrPattern(attrs), attrs, [])
  {
    if attrs != [] {
      AttrMatches(g, cx, attrs[1..]);
      ShuffleAppend([attrs[0]], attrs[1..]);
      assert attrs == [attrs[0]] + attrs[1..];
      assert InSequence(attrs, [], Share([attrs[0]], attrs[1..], [], []));
      assert Matches(g, cx, Attribute(Name(attrs[0].name), Text), [attrs[0]], []);
    }
  }

  lemma {:induction false} ElemMatches(g: Grammar, cx: Context, el: Item)
    requires el.Elem?
    ensures Matches(g, cx, ElemPattern(el), [], [el])
    decreases el, 1
  {
    var k := if HasElem(el.kids) then StripBlank(el.kids) else el.kids;
    assert ReadAs(el.kids, k);
    ReadElems(el.kids, k);
    AttrMatches(g, el.cx, el.attrs);
    ContentMatches(g, el.cx, el.kids, k);
    Beside(g, el.cx, AttrPattern(el.attrs), ContentPattern(el.kids), el.attrs, k);
    ReadAsWeight([el], k);
  }

  lemma Beside(g: Grammar, cx: Context, l: Pattern, r: Pattern, a: seq<Attr>, m: seq<Item>)
    requires Matches(g, cx, l, a, []) && Matches(g, cx, r, [], m)
    ensures Matches(g, cx, Group(l, r), a, m)
  {
    ShuffleAppend(a, []);
    assert a + [] == a && [] + m == m;
    assert InSequence(a, m, Share(a, [], [], m));
  }

  lemma {:induction false} ContentMatches(g: Grammar, cx: Context, kids: seq<Item>, k: seq<Item>)
    requires Elems(k) == Elems(kids) && (kids == [] ==> k == [])
    ensures Matches(g, cx, ContentPattern(kids), [], k)
    decreases kids, 1
  {
    if kids != [] {
      SplitKinds(k);
      KidsMatch(g, cx, kids);
      assert Interleaved([], k, Share([], [], Strs(k), Elems(k)));
    }
  }

  lemma {:induction false} KidsMatch(g: Grammar, cx: Context, m: seq<Item>)
    ensures Matches(g, cx, KidsPattern(m), [], Elems(m))
    decreases m, 0
  {
    if m != [] {
      KidsMatch(g, cx, m[1..]);
      if m[0].Elem? {
        ElemMatches(g, cx, m[0]);
        assert InSequence([], Elems(m), Share([], [], [m[0]], Elems(m[1..])));
      }
    }
  }

  // ---- what it does not match --------------------------------------------

  lemma {:induction false} AttrNothing(g: Grammar, cx: Context, attrs: seq<Attr>, a: seq<Attr>, m: seq<Item>)
    requires Matches(g, cx, AttrPattern(attrs), a, m)
    ensures m == []
    decreases attrs
  {
    if attrs != [] {
      var h :| InSequence(a, m, h) && Matches(g, cx, Attribute(Name(attrs[0].name), Text), h.a1, h.m1)
            && Matches(g, cx, AttrPattern(attrs[1..]), h.a2, h.m2);
      AttrNothing(g, cx, attrs[1..], h.a2, h.m2);
    }
  }

  lemma {:induction false} ShuffledElems(w: seq<Item>, u: seq<Item>, v: seq<Item>)
    requires Shuffle(w, u, v) && AllStr(u) && forall x | x in v :: x.Elem?
    ensures Elems(w) == v
  {
    if w != [] {
      if u != [] && u[0] == w[0] && Shuffle(w[1..], u[1..], v) {
        assert IsStr(u[0]);
        assert AllStr(u[1..]) by { assert forall i | 0 <= i < |u[1..]| :: u[1..][i] == u[i + 1]; }
        ShuffledElems(w[1..], u[1..], v);
      } else {
        assert v[0] in v && v == [v[0]] + v[1..];
        ShuffledElems(w[1..], u, v[1..]);
      }
    }
  }

  /** A sequence of elements that match one after another. */
  ghost predicate Matched(g: Grammar, cx: Context, m: seq<Item>, w: seq<Item>)
    decreases m
  {
    if m == [] then w == []
    else if m[0].Str? then Matched(g, cx, m[1..], w)
    else w != [] && w[0].Elem? && Matches(g, cx, ElemPattern(m[0]), [], [w[0]]) && Matched(g, cx, m[1..], w[1..])
  }

  lemma {:induction false} KidsMatched(g: Grammar, cx: Context, m: seq<Item>, a: seq<Attr>, w: seq<Item>)
    requires Matches(g, cx, KidsPattern(m), a, w)
    ensures Matched(g, cx, m, w) && forall x | x in w :: x.Elem?
    decreases m
  {
    if m != [] {
      if m[0].Str? {
        KidsMatched(g, cx, m[1..], a, w);
      } else {
        var h :| InSequence(a, w, h) && Matches(g, cx, ElemPattern(m[0]), h.a1, h.m1)
              && Matches(g, cx, KidsPattern(m[1..]), h.a2, h.m2);
        KidsMatched(g, cx, m[1..], h.a2, h.m2);
        assert h.m1 == [w[0]] && w == [w[0]] + h.m2 && w[1..] == h.m2;
      }
    }
  }

  /** What an element that matches holds: elements that match, and text beside them only
      where there was some content. */
  lemma ElemMatched(g: Grammar, cx: Context, el: Item, x: Item) returns (k: seq<Item>)
    requires el.Elem? && x.Elem? && Matches(g, cx, ElemPattern(el), [], [x])
    ensures ReadAs(x.kids, k) && Matched(g, x.cx, el.kids, Elems(k)) && (el.kids == [] ==> k == [])
  {
    var q := Group(AttrPattern(el.attrs), ContentPattern(el.kids));
    k :| ReadAs(x.kids, k) && Matches(g, x.cx, q, x.attrs, k);
    var h :| InSequence(x.attrs, k, h) && Matches(g, x.cx, AttrPattern(el.attrs), h.a1, h.m1)
          && Matches(g, x.cx, ContentPattern(el.kids), h.a2, h.m2);
    AttrNothing(g, x.cx, el.attrs, h.a1, h.m1);
    assert h.m2 == k;
    if el.kids != [] {
      var i :| Interleaved(h.a2, k, i) && Matches(g, x.cx, Text, i.a1, i.m1)
            && Matches(g, x.cx, KidsPattern(el.kids), i.a2, i.m2);
      KidsMatched(g, x.cx, el.kids, i.a2, i.m2);
      ShuffledElems(k, i.m1, i.m2);
    }
  }

  lemma {:induction false} ElemsWeight(m: seq<Item>)
    ensures Weight(Elems(m)) == Weight(m)
  {
    if m != [] {
      ElemsWeight(m[1..]);
      if m[0].Elem? { assert ([m[0]] + Elems(m[1..]))[1..] == Elems(m[1..]); }
    }
  }

  /** It matches nothing with more elements, or fewer. */
  lemma {:induction false} SameWeight(g: Grammar, cx: Context, m: seq<Item>, w: seq<Item>)
    requires Matched(g, cx, m, w)
    ensures Weight(m) == Weight(w)
    decreases m, 0
  {
    if m != [] {
      if m[0].Str? {
        SameWeight(g, cx, m[1..], w);
      } else {
        ElemWeight(g, cx, m[0], w[0]);
        SameWeight(g, cx, m[1..], w[1..]);
      }
    }
  }

  lemma {:induction false} ElemWeight(g: Grammar, cx: Context, el: Item, x: Item)
    requires el.Elem? && x.Elem? && Matches(g, cx, ElemPattern(el), [], [x])
    ensures Weight(el.kids) == Weight(x.kids)
    decreases el, 1
  {
    var k := ElemMatched(g, cx, el, x);
    SameWeight(g, x.cx, el.kids, Elems(k));
    ReadElems(x.kids, k);
    ElemsWeight(x.kids);
  }

  // ---- two changes to a document -----------------------------------------

  const SOME := [Str("v")]

  lemma SomeText()
    ensures !HasElem(SOME) && SOME[1..] == [] && !WhitespaceOnly("v") && Filled(SOME) && Coalesced(SOME)
  {
    assert !IsSpace("v"[0]);
  }

  lemma HeadElem(m: seq<Item>)
    requires m != [] && m[0].Elem?
    ensures HasElem(m)
  {
  }

  /** The first empty element given text. */
  function Marked(m: seq<Item>): (w: seq<Item>)
    requires !Filled(m)
    ensures HasElem(m) && HasElem(w)
    decreases m
  {
    if m[0].Elem? && m[0].kids == [] then
      var w := [m[0].(kids := SOME)] + m[1..]; HeadElem(m); HeadElem(w); w
    else if m[0].Elem? && !Filled(m[0].kids) then
      var w := [m[0].(kids := Marked(m[0].kids))] + m[1..]; HeadElem(m); HeadElem(w); w
    else
      var rest := Marked(m[1..]);
      HasMore(m[0], m[1..]); HasMore(m[0], rest);
      assert m == [m[0]] + m[1..];
      [m[0]] + rest
  }

  /** The first empty element given text, `more` after it, and all that followed left out. */
  function Ended(m: seq<Item>, more: Item): (w: seq<Item>)
    requires !Filled(m)
    ensures HasElem(w)
    decreases m
  {
    if m[0].Elem? && m[0].kids == [] then
      var w := [m[0].(kids := SOME), more]; HeadElem(w); w
    else if m[0].Elem? && !Filled(m[0].kids) then
      var w := [m[0].(kids := Ended(m[0].kids, more))]; HeadElem(w); w
    else
      var rest := Ended(m[1..], more);
      HasMore(m[0], rest);
      [m[0]] + rest
  }

  lemma HasMore(x: Item, m: seq<Item>)
    requires HasElem(m)
    ensures HasElem([x] + m)
  {
    var i :| 0 <= i < |m| && m[i].Elem?;
    assert ([x] + m)[i + 1] == m[i];
  }

  /** Elements one within another, of some weight. */
  function Deep(n: nat): (x: Item)
    ensures x.Elem? && Weight(x.kids) == n && Filled([x]) && Coalesced([x])
  {
    if n == 0 then
      var x := Elem(QName("", "x"), NO_BINDINGS, [], SOME);
      SomeText();
      assert [x][1..] == [];
      x
    else
      var x := Elem(QName("", "x"), NO_BINDINGS, [], [Deep(n - 1)]);
      assert x.kids[1..] == [] && [x][1..] == [];
      x
  }

  lemma {:induction false} MarkedShape(m: seq<Item>)
    requires !Filled(m) && Coalesced(m)
    ensures Coalesced(Marked(m)) && Weight(Marked(m)) == Weight(m)
    ensures m[0].Elem? <==> Marked(m)[0].Elem?
    decreases m
  {
    var w := Marked(m);
    if m[0].Elem? && m[0].kids == [] {
      assert w[1..] == m[1..] && SOME[1..] == [];
    } else if m[0].Elem? && !Filled(m[0].kids) {
      MarkedShape(m[0].kids);
      assert w[1..] == m[1..];
    } else {
      MarkedShape(m[1..]);
      assert w[1..] == Marked(m[1..]);
    }
  }

  lemma {:induction false} EndedShape(m: seq<Item>, more: Item)
    requires !Filled(m) && Coalesced(m) && more.Elem? && Filled([more]) && Coalesced([more])
    ensures var w := Ended(m, more);
            Coalesced(w) && Filled(w) && Weight(w) > Weight(more.kids) && (m[0].Elem? <==> w[0].Elem?)
    decreases m
  {
    var w := Ended(m, more);
    if m[0].Elem? && m[0].kids == [] {
      assert w[1..] == [more] && [more][1..] == [] && SOME[1..] == [];
    } else if m[0].Elem? && !Filled(m[0].kids) {
      EndedShape(m[0].kids, more);
      assert w[1..] == [];
    } else {
      EndedShape(m[1..], more);
      assert w[1..] == Ended(m[1..], more);
    }
  }

  /** The document with text in its empty element does not match the pattern made for it. */
  lemma {:induction false} MarkedUnmatched(g: Grammar, cx: Context, m: seq<Item>)
    requires !Filled(m)
    ensures !Matched(g, cx, m, Elems(Marked(m)))
    decreases m, 0
  {
    var w := Marked(m);
    if m[0].Elem? && (m[0].kids == [] || !Filled(m[0].kids)) {
      MarkedElemUnmatched(g, cx, m[0], w[0]);
      assert Elems(w)[0] == w[0];
    } else {
      MarkedUnmatched(g, cx, m[1..]);
      assert w[1..] == Marked(m[1..]);
      if m[0].Elem? { assert Elems(w)[1..] == Elems(w[1..]); }
    }
  }

  lemma {:induction false} MarkedElemUnmatched(g: Grammar, cx: Context, el: Item, x: Item)
    requires el.Elem? && (el.kids == [] || !Filled(el.kids))
    requires x == el.(kids := if el.kids == [] then SOME else Marked(el.kids))
    ensures !Matches(g, cx, ElemPattern(el), [], [x])
    decreases el, 1
  {
    if Matches(g, cx, ElemPattern(el), [], [x]) {
      var k := ElemMatched(g, cx, el, x);
      ReadElems(x.kids, k);
      if el.kids == [] {
        SomeText();
      } else {
        MarkedUnmatched(g, x.cx, el.kids);
      }
      assert false;
    }
  }

  // ---- the run does not tell them apart ----------------------------------

  /** What the run carries inside elements. */
  ghost predicate Carried(g: Grammar, p: Pattern, k: nat) { Bare(g) && Stacked(IsPlain(), p, k) }

  lemma CarriedOn(g: Grammar, p: Pattern, k: nat, el: Item)
    requires Carried(g, p, k) && el.Elem?
    ensures Carried(g, TagRun(g, p, el), k + 1) && Carried(g, ElemRun(g, p, el), k)
  {
    PlainHereditary(g);
    TagKeeps(g, IsPlain(), p, k, el);
    ElemKeeps(g, IsPlain(), p, k, el);
  }

  lemma CarriedString(g: Grammar, p: Pattern, k: nat, s: string, cx: Context)
    requires Carried(g, p, k)
    ensures Carried(g, StringRun(g, p, s, cx, true), k)
  {
    PlainHereditary(g);
    TextKeepsLevel(g, IsPlain(), p, k, s, cx);
  }

  /** An empty element is read as the string it might hold, while that is live. */
  lemma EmptyAsText(g: Grammar, p: Pattern, k: nat, el: Item)
    requires Carried(g, p, k) && el.Elem? && el.kids == []
    requires ElemRun(g, p, el.(kids := SOME)) != NotAllowed
    ensures ElemRun(g, p, el) == ElemRun(g, p, el.(kids := SOME))
  {
    var t := TagRun(g, p, el);
    CarriedOn(g, p, k, el);
    StackText(g, t, k + 1, "", "v", el.cx);
    StackNotNullable(g, IsPlain(), t, k + 1);
    SomeRun(g, t, el.cx);
    assert ElemRun(g, p, el.(kids := SOME)) == EndDeriv(g, TextDeriv(g, t, "v", el.cx));
  }

  lemma SomeRun(g: Grammar, p: Pattern, cx: Context)
    ensures KidsRun(g, p, SOME, cx) == TextDeriv(g, p, "v", cx)
  {
    SomeText();
    assert StringRun(g, p, "v", cx, false) == TextDeriv(g, p, "v", cx);
  }

  lemma {:induction false} RunMarked(g: Grammar, p: Pattern, k: nat, m: seq<Item>, more: Item, cx: Context)
    requires Carried(g, p, k) && !Filled(m) && more.Elem?
    requires ItemsRun(g, p, Ended(m, more), cx, true) != NotAllowed
    ensures ItemsRun(g, p, m, cx, true) == ItemsRun(g, p, Marked(m), cx, true)
    decreases m, 0
  {
    var (u, w) := (Ended(m, more), Marked(m));
    if m[0].Str? {
      CarriedString(g, p, k, m[0].s, cx);
      assert u[1..] == Ended(m[1..], more) && w[1..] == Marked(m[1..]);
      RunMarked(g, StringRun(g, p, m[0].s, cx, true), k, m[1..], more, cx);
    } else if m[0].kids == [] {
      assert u[0] == m[0].(kids := SOME) && w[1..] == m[1..];
      DeadItems(g, u[1..], cx, true);
      EmptyAsText(g, p, k, m[0]);
    } else if !Filled(m[0].kids) {
      assert u[0] == m[0].(kids := Ended(m[0].kids, more)) && w[1..] == m[1..];
      DeadItems(g, u[1..], cx, true);
      ElemMarked(g, p, k, m[0], more);
    } else {
      CarriedOn(g, p, k, m[0]);
      assert u[1..] == Ended(m[1..], more) && w[1..] == Marked(m[1..]);
      RunMarked(g, ElemRun(g, p, m[0]), k, m[1..], more, cx);
    }
  }

  lemma {:induction false} ElemMarked(g: Grammar, p: Pattern, k: nat, el: Item, more: Item)
    requires Carried(g, p, k) && el.Elem? && !Filled(el.kids) && more.Elem?
    requires ElemRun(g, p, el.(kids := Ended(el.kids, more))) != NotAllowed
    ensures ElemRun(g, p, el) == ElemRun(g, p, el.(kids := Marked(el.kids)))
    decreases el, 1
  {
    var t := TagRun(g, p, el);
    CarriedOn(g, p, k, el);
    assert EndDeriv(g, NotAllowed) == NotAllowed;
    RunMarked(g, t, k + 1, el.kids, more, el.cx);
  }

  // ---- the verdict is wrong ----------------------------------------------

  /** The pattern made for the document, or for the document with text in its first empty
      element, more elements after it and nothing else. */
  function Misleading(el: Item): Pattern
    requires el.Elem? && !Filled(el.kids)
  {
    Choice(ElemPattern(el), ElemPattern(Longer(el)))
  }

  function Longer(el: Item): Item
    requires el.Elem? && !Filled(el.kids)
  {
    el.(kids := Ended(el.kids, Deep(Weight(el.kids))))
  }

  lemma MisleadingWellFormed(g: Grammar, el: Item)
    requires el.Elem? && !Filled(el.kids) && Bare(g)
    ensures WellFormed(g, Misleading(el)) && Plain(Misleading(el))
  {
    PlainHereditary(g);
    ElemPlain(g, el);
    ElemPlain(g, Longer(el));
    PlainSchema(g, Misleading(el));
  }

  lemma LongerAccepted(g: Grammar, el: Item)
    requires el.Elem? && !Filled(el.kids) && Coalesced(el.kids) && Bare(g)
    ensures Nullable(g, ElemRun(g, Misleading(el), Longer(el)))
    ensures Weight(Longer(el).kids) > Weight(el.kids)
  {
    var more := Deep(Weight(el.kids));
    EndedShape(el.kids, more);
    MisleadingWellFormed(g, el);
    ElemMatches(g, NO_BINDINGS, Longer(el));
    FilledClear(g, Misleading(el), [Longer(el)], NO_BINDINGS, true);
    assert [Longer(el)][1..] == [];
    ItemComplete(g, Misleading(el), Longer(el));
  }

  lemma MarkedRefused(g: Grammar, el: Item)
    requires el.Elem? && !Filled(el.kids) && Coalesced(el.kids) && Bare(g)
    ensures !Nullable(g, ElemRun(g, Misleading(el), el.(kids := Marked(el.kids))))
  {
    var x := el.(kids := Marked(el.kids));
    MarkedShape(el.kids);
    MisleadingWellFormed(g, el);
    if Nullable(g, ElemRun(g, Misleading(el), x)) {
      ItemSound(g, Misleading(el), x);
      MarkedElemUnmatched(g, NO_BINDINGS, el, x);
      LongerAccepted(g, el);
      ElemWeight(g, NO_BINDINGS, Longer(el), x);
      assert false;
    }
  }

  /** A valid document refused. */
  lemma Misled(g: Grammar, root: Node)
    requires Bare(g) && root.ElementNode? && !Filled(ItemOf(root).kids)
    ensures var start := Misleading(ItemOf(root));
            WellFormed(g, start) && Valid(g, start, root) && !Nullable(g, ElemRun(g, start, ItemOf(root)))
  {
    var el := ItemOf(root);
    var start := Misleading(el);
    ItemsCoalesced(root.children);
    MisleadingWellFormed(g, el);
    ElemMatches(g, NO_BINDINGS, el);
    LongerAccepted(g, el);
    MarkedRefused(g, el);
    assert ElemRun(g, start, Longer(el)) != NotAllowed;
    ElemMarked(g, start, 0, el, Deep(Weight(el.kids)));
  }

  ghost predicate AllDecide(root: Node)
    requires root.ElementNode?
  {
    forall g: Grammar, start: Pattern | WellFormed(g, start) :: Decides(g, start, root)
  }

  const NO_LIBRARY :=
    Library(t => false, (t, s, ps) => false, (t, s, ps, c) => false, (t, v, s) => false, (t, v, c, s, d) => false)

  /** Every schema decides a document rightly exactly when no element of it but the
      document element is empty. */
  lemma DecidedExactly(root: Node)
    requires root.ElementNode?
    ensures AllDecide(root) <==> Filled(ItemOf(root).kids)
  {
    if Filled(ItemOf(root).kids) {
      forall g: Grammar, start: Pattern | WellFormed(g, start) ensures Decides(g, start, root) {
        FilledDecided(g, start, root);
      }
    } else {
      var g: Grammar := RawGrammar(map[], map[], NO_LIBRARY);
      Misled(g, root);
    }
  }
}
