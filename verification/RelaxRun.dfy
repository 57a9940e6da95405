/** A whole validation as a fold of derivatives over a document, and its verdict
    against the language of the schema. */
module RelaxRun {
  import opened Basics
  import opened RelaxSyntax
  import opened RelaxLanguage
  import opened RelaxDerivative
  import opened RelaxSchema
  import opened RelaxAttribute
  import opened RelaxStack
  import opened RelaxQuotient

  // ---- documents ---------------------------------------------------------

  datatype Node =
    | ElementNode(tag: QName, cx: Context, attrs: seq<Attr>, children: seq<Node>)
    | TextNode(value: string)
    | OtherNode

  const XMLNS := "http://www.w3.org/2000/xmlns/"

  /** A namespace declaration is not an attribute of the data model. */
  predicate IsDeclaration(a: Attr) { a.name.uri == XMLNS || a.name.local == "xmlns" }

  function ElementAttrs(attrs: seq<Attr>): seq<Attr> {
    if attrs == [] then []
    else if IsDeclaration(attrs[0]) then ElementAttrs(attrs[1..])
    else [attrs[0]] + ElementAttrs(attrs[1..])
  }

  /** The content of a list of nodes: comments and the like left out, and
      consecutive text one string. */
  function Items(nodes: seq<Node>): (m: seq<Item>)
    ensures m == [] <==> forall n | n in nodes :: n.OtherNode?
  {
    if nodes == [] then []
    else
      var rest := Items(nodes[1..]);
      assert nodes[0] in nodes && nodes == [nodes[0]] + nodes[1..];
      match nodes[0]
      case OtherNode => rest
      case TextNode(s) =>
        if rest != [] && rest[0].Str? then [Str(s + rest[0].s)] + rest[1..] else [Str(s)] + rest
      case ElementNode(_, _, _, _) => [ItemOf(nodes[0])] + rest
  }

  function ItemOf(n: Node): Item
    requires n.ElementNode?
  {
    Elem(n.tag, n.cx, ElementAttrs(n.attrs), Items(n.children))
  }

  /** No two strings side by side, at any depth. */
  predicate Coalesced(m: seq<Item>) {
    m == [] ||
    (&& (m[0].Str? ==> |m| == 1 || m[1].Elem?)
     && (m[0].Elem? ==> Coalesced(m[0].kids))
     && Coalesced(m[1..]))
  }

  lemma {:induction false} ItemsCoalesced(nodes: seq<Node>)
    ensures Coalesced(Items(nodes))
  {
    if nodes != [] {
      ItemsCoalesced(nodes[1..]);
      var (rest, m) := (Items(nodes[1..]), Items(nodes));
      match nodes[0]
      case OtherNode =>
      case TextNode(s) =>
        if rest != [] && rest[0].Str? {
          assert m[1..] == rest[1..];
          assert |rest| > 1 ==> m[1] == rest[1];
        } else {
          assert m[1..] == rest;
        }
      case ElementNode(_, _, _, _) =>
        ItemsCoalesced(nodes[0].children);
        assert m[1..] == rest;
    }
  }

  // ---- the run -----------------------------------------------------------

  function AttsRun(g: Grammar, p: Pattern, attrs: seq<Attr>, cx: Context): Pattern
    decreases attrs
  {
    if attrs == [] then p else AttsRun(g, AttDeriv(g, p, attrs[0], cx), attrs[1..], cx)
  }

  /** An element with no children: read as the empty string if the end tag can
      follow that, as nothing otherwise. */
  function EmptyRun(g: Grammar, p: Pattern, cx: Context): Pattern {
    if Nullable(g, p) then p
    else
      var d := TextDeriv(g, p, "", cx);
      if EndDeriv(g, d) != NotAllowed then d else p
  }

  function StringRun(g: Grammar, p: Pattern, s: string, cx: Context, hasElem: bool): Pattern {
    if !WhitespaceOnly(s) then TextDeriv(g, p, s, cx)
    else if hasElem then p
    else MkChoice(p, TextDeriv(g, p, s, cx))
  }

  function ItemsRun(g: Grammar, p: Pattern, m: seq<Item>, cx: Context, hasElem: bool): Pattern
    decreases m, 0
  {
    if m == [] then p
    else
      var q := if m[0].Str? then StringRun(g, p, m[0].s, cx, hasElem) else ElemRun(g, p, m[0]);
      ItemsRun(g, q, m[1..], cx, hasElem)
  }

  function KidsRun(g: Grammar, p: Pattern, kids: seq<Item>, cx: Context): Pattern
    decreases kids, 1
  {
    if kids == [] then EmptyRun(g, p, cx) else ItemsRun(g, p, kids, cx, HasElem(kids))
  }

  /** The pattern once the start tag of an element has been read. */
  function TagRun(g: Grammar, p: Pattern, el: Item): Pattern
    requires el.Elem?
  {
    CloseDeriv(g, AttsRun(g, OpenDeriv(g, p, el.tag), el.attrs, el.cx)).0
  }

  function ElemRun(g: Grammar, p: Pattern, el: Item): Pattern
    requires el.Elem?
    decreases el
  {
    EndDeriv(g, KidsRun(g, TagRun(g, p, el), el.kids, el.cx))
  }

  // ---- a dead pattern stays dead -----------------------------------------

  lemma {:induction false} DeadAtts(g: Grammar, attrs: seq<Attr>, cx: Context)
    ensures AttsRun(g, NotAllowed, attrs, cx) == NotAllowed
    decreases attrs
  {
    if attrs != [] { DeadAtts(g, attrs[1..], cx); }
  }

  lemma {:induction false} DeadItems(g: Grammar, m: seq<Item>, cx: Context, hasElem: bool)
    ensures ItemsRun(g, NotAllowed, m, cx, hasElem) == NotAllowed
    decreases m, 0
  {
    if m != [] {
      if m[0].Elem? { DeadElem(g, m[0]); }
      DeadItems(g, m[1..], cx, hasElem);
    }
  }

  lemma {:induction false} DeadElem(g: Grammar, el: Item)
    requires el.Elem?
    ensures ElemRun(g, NotAllowed, el) == NotAllowed
    decreases el, 1
  {
    DeadAtts(g, el.attrs, el.cx);
    DeadItems(g, el.kids, el.cx, HasElem(el.kids));
  }

  lemma DeadKids(g: Grammar, kids: seq<Item>, cx: Context)
    ensures KidsRun(g, NotAllowed, kids, cx) == NotAllowed
  {
    DeadItems(g, kids, cx, HasElem(kids));
  }

  // ---- what runs keep ----------------------------------------------------

  lemma {:induction false} AttsKeep(g: Grammar, f: Pattern -> bool, p: Pattern, k: nat, attrs: seq<Attr>, cx: Context)
    requires Hereditary(g, f) && Stacked(f, p, k)
    ensures Stacked(f, AttsRun(g, p, attrs, cx), k)
    decreases attrs
  {
    if attrs != [] {
      AttKeepsLevel(g, f, p, k, attrs[0], cx);
      AttsKeep(g, f, AttDeriv(g, p, attrs[0], cx), k, attrs[1..], cx);
    }
  }

  lemma TagKeeps(g: Grammar, f: Pattern -> bool, p: Pattern, k: nat, el: Item)
    requires el.Elem? && Hereditary(g, f) && Stacked(f, p, k)
    ensures Stacked(f, AttsRun(g, OpenDeriv(g, p, el.tag), el.attrs, el.cx), k + 1)
    ensures Stacked(f, TagRun(g, p, el), k + 1)
  {
    OpenStacked(g, f, p, k, el.tag);
    AttsKeep(g, f, OpenDeriv(g, p, el.tag), k + 1, el.attrs, el.cx);
    CloseQuotient(g, f, AttsRun(g, OpenDeriv(g, p, el.tag), el.attrs, el.cx),
                  el.cx, [], seq(k + 1, i => Frame(el.cx, [], [])));
  }

  lemma {:induction false} ItemsKeep(
      g: Grammar, f: Pattern -> bool, p: Pattern, k: nat, m: seq<Item>, cx: Context, hasElem: bool)
    requires SchemaGrammar(g) && Hereditary(g, f) && forall q {:trigger f(q)} :: f(q) ==> Schema(g, q)
    requires k > 0 && Stacked(f, p, k)
    ensures Stacked(f, ItemsRun(g, p, m, cx, hasElem), k)
    decreases m, 0
  {
    if m != [] {
      if m[0].Str? {
        var s := m[0].s;
        TextKeepsLevel(g, f, p, k, s, cx);
        StackedChoice(f, p, TextDeriv(g, p, s, cx), k);
        ItemsKeep(g, f, StringRun(g, p, s, cx, hasElem), k, m[1..], cx, hasElem);
      } else {
        ElemKeeps(g, f, p, k, m[0]);
        ItemsKeep(g, f, ElemRun(g, p, m[0]), k, m[1..], cx, hasElem);
      }
    }
  }

  /** An element's run ends at the level it began at. */
  lemma {:induction false} ElemKeeps(g: Grammar, f: Pattern -> bool, p: Pattern, k: nat, el: Item)
    requires SchemaGrammar(g) && Hereditary(g, f) && forall q {:trigger f(q)} :: f(q) ==> Schema(g, q)
    requires el.Elem? && Stacked(f, p, k)
    ensures Stacked(f, KidsRun(g, TagRun(g, p, el), el.kids, el.cx), k + 1)
    ensures Stacked(f, ElemRun(g, p, el), k)
    decreases el
  {
    var t := TagRun(g, p, el);
    TagKeeps(g, f, p, k, el);
    if el.kids == [] {
      TextKeepsLevel(g, f, t, k + 1, "", el.cx);
    } else {
      ItemsKeep(g, f, t, k + 1, el.kids, el.cx, HasElem(el.kids));
    }
    EndQuotient(g, f, KidsRun(g, t, el.kids, el.cx), el.cx, seq(k + 1, i => Frame(el.cx, [], [])));
  }

  // ---- soundness ---------------------------------------------------------

  lemma {:induction false} AttsSound(
      g: Grammar, p: Pattern, attrs: seq<Attr>, cx: Context, m: seq<Item>, rest: seq<Frame>)
    requires SoundGrammar(g) && Stacked(IsSound(g), p, |rest|)
    requires Accepts(g, AttsRun(g, p, attrs, cx), [Frame(cx, [], m)] + rest)
    ensures Accepts(g, p, [Frame(cx, attrs, m)] + rest)
    decreases attrs
  {
    if attrs != [] {
      SoundHereditary(g);
      AttKeepsLevel(g, IsSound(g), p, |rest|, attrs[0], cx);
      AttsSound(g, AttDeriv(g, p, attrs[0], cx), attrs[1..], cx, m, rest);
      AttQuotientSound(g, p, cx, attrs[0], attrs[1..], m, rest);
      assert [attrs[0]] + attrs[1..] == attrs;
    }
  }

  /** Beside an element, content is read with its blank strings stripped. */
  lemma {:induction false} MixedSound(
      g: Grammar, p: Pattern, m: seq<Item>, cx: Context, rest: seq<Frame>)
    requires SoundGrammar(g) && Stacked(IsSound(g), p, |rest|) && rest != [] && Coalesced(m)
    requires Accepts(g, ItemsRun(g, p, m, cx, true), [Frame(cx, [], [])] + rest)
    ensures Accepts(g, p, [Frame(cx, [], StripBlank(m))] + rest)
    decreases m, 0
  {
    if m != [] {
      SoundHereditary(g);
      StackedMono(IsSound(g), IsSchema(g), p, |rest|);
      if m[0].Str? {
        var s := m[0].s;
        TextKeepsLevel(g, IsSound(g), p, |rest|, s, cx);
        MixedSound(g, StringRun(g, p, s, cx, true), m[1..], cx, rest);
        TextQuotient(g, p, cx, s, StripBlank(m[1..]), rest);
      } else {
        ElemKeeps(g, IsSound(g), p, |rest|, m[0]);
        MixedSound(g, ElemRun(g, p, m[0]), m[1..], cx, rest);
        ElemSound(g, p, m[0], cx, StripBlank(m[1..]), rest);
      }
    }
  }

  lemma OneStringLeft(kids: seq<Item>)
    requires Coalesced(kids) && kids != [] && !HasElem(kids)
    ensures kids[0].Str? && kids == [Str(kids[0].s)] + []
  {
    assert forall i | 0 <= i < |kids| :: kids[i].Str?;
  }

  /** Content that is one string, read as text or, when blank, as nothing. */
  lemma StringQuotient(g: Grammar, p: Pattern, kids: seq<Item>, cx: Context, rest: seq<Frame>)
    requires SchemaGrammar(g) && Stacked(IsSchema(g), p, |rest|) && rest != []
    requires Coalesced(kids) && kids != [] && !HasElem(kids)
    ensures Accepts(g, KidsRun(g, p, kids, cx), [Frame(cx, [], [])] + rest)
        <==> exists k :: ReadAs(kids, k) && Accepts(g, p, [Frame(cx, [], k)] + rest)
  {
    OneStringLeft(kids);
    var s := kids[0].s;
    var q := StringRun(g, p, s, cx, false);
    assert KidsRun(g, p, kids, cx) == ItemsRun(g, q, kids[1..], cx, false) == q;
    TextQuotient(g, p, cx, s, [], rest);
    if WhitespaceOnly(s) {
      AcceptsChoice(g, p, TextDeriv(g, p, s, cx), [Frame(cx, [], [])] + rest);
      assert ReadAs(kids, []) && ReadAs(kids, kids);
      assert forall k :: ReadAs(kids, k) ==> k == [] || k == kids;
    } else {
      assert ReadAs(kids, kids);
      assert forall k :: ReadAs(kids, k) ==> k == kids;
    }
  }

  lemma {:induction false} KidsSound(
      g: Grammar, p: Pattern, kids: seq<Item>, cx: Context, rest: seq<Frame>) returns (k: seq<Item>)
    requires SoundGrammar(g) && Stacked(IsSound(g), p, |rest|) && rest != [] && Coalesced(kids)
    requires Accepts(g, KidsRun(g, p, kids, cx), [Frame(cx, [], [])] + rest)
    ensures ReadAs(kids, k) && Accepts(g, p, [Frame(cx, [], k)] + rest)
    decreases kids, 1
  {
    SoundHereditary(g);
    StackedMono(IsSound(g), IsSchema(g), p, |rest|);
    if kids == [] {
      TextQuotient(g, p, cx, "", [], rest);
      k := if KidsRun(g, p, kids, cx) == p then [] else [Str("")];
      assert [Str("")] + [] == [Str("")];
    } else if HasElem(kids) {
      MixedSound(g, p, kids, cx, rest);
      k := StripBlank(kids);
    } else {
      StringQuotient(g, p, kids, cx, rest);
      k :| ReadAs(kids, k) && Accepts(g, p, [Frame(cx, [], k)] + rest);
    }
  }

  /** What can be completed after the start tag can be completed with the element before it. */
  lemma TagOpened(g: Grammar, p: Pattern, el: Item, cx: Context, k: seq<Item>, m: seq<Item>, rest: seq<Frame>)
    requires SoundGrammar(g) && Stacked(IsSound(g), p, |rest|) && el.Elem? && ReadAs(el.kids, k)
    requires Accepts(g, TagRun(g, p, el), [Frame(el.cx, [], k)] + ([Frame(cx, [], m)] + rest))
    ensures Accepts(g, p, [Frame(cx, [], [el] + m)] + rest)
  {
    SoundHereditary(g);
    var outer := [Frame(cx, [], m)] + rest;
    var o := OpenDeriv(g, p, el.tag);
    OpenStacked(g, IsSound(g), p, |rest|, el.tag);
    TagKeeps(g, IsSound(g), p, |rest|, el);
    CloseQuotient(g, IsSound(g), AttsRun(g, o, el.attrs, el.cx), el.cx, k, outer);
    AttsSound(g, o, el.attrs, el.cx, k, outer);
    assert [Frame(el.cx, el.attrs, k)] + outer == [Frame(el.cx, el.attrs, k), Frame(cx, [], m)] + rest;
    StackedMono(IsSound(g), IsSchema(g), p, |rest|);
    OpenQuotient(g, p, cx, el, m, rest);
  }

  /** If the pattern left after an element can be completed, the pattern before
      it can be completed with that element first. */
  lemma {:induction false} ElemSound(
      g: Grammar, p: Pattern, el: Item, cx: Context, m: seq<Item>, rest: seq<Frame>)
    requires SoundGrammar(g) && Stacked(IsSound(g), p, |rest|) && el.Elem? && Coalesced(el.kids)
    requires Accepts(g, ElemRun(g, p, el), [Frame(cx, [], m)] + rest)
    ensures Accepts(g, p, [Frame(cx, [], [el] + m)] + rest)
    decreases el
  {
    SoundHereditary(g);
    var outer := [Frame(cx, [], m)] + rest;
    var t := TagRun(g, p, el);
    TagKeeps(g, IsSound(g), p, |rest|, el);
    ElemKeeps(g, IsSound(g), p, |rest|, el);
    EndQuotient(g, IsSound(g), KidsRun(g, t, el.kids, el.cx), el.cx, outer);
    var k := KidsSound(g, t, el.kids, el.cx, outer);
    TagOpened(g, p, el, cx, k, m, rest);
  }

  // ---- completeness ------------------------------------------------------

  /** At an empty element nothing is lost by the order in which its two readings
      are tried: after the end tag, either the string reading leads nowhere or
      the other adds no alternative to it. */
  predicate OneReading(g: Grammar, p: Pattern, cx: Context) {
    var (e, d) := (EndDeriv(g, p), EndDeriv(g, TextDeriv(g, p, "", cx)));
    d == NotAllowed || MkChoice(d, e) == d
  }

  /** So at every empty element of a run. */
  predicate ClearItems(g: Grammar, p: Pattern, m: seq<Item>, cx: Context, hasElem: bool)
    decreases m, 0
  {
    m == [] ||
    if m[0].Str? then ClearItems(g, StringRun(g, p, m[0].s, cx, hasElem), m[1..], cx, hasElem)
    else ClearElem(g, p, m[0]) && ClearItems(g, ElemRun(g, p, m[0]), m[1..], cx, hasElem)
  }

  predicate ClearElem(g: Grammar, p: Pattern, el: Item)
    requires el.Elem?
    decreases el
  {
    var t := TagRun(g, p, el);
    if el.kids == [] then OneReading(g, t, el.cx)
    else ClearItems(g, t, el.kids, el.cx, HasElem(el.kids))
  }

  lemma {:induction false} AttsComplete(
      g: Grammar, p: Pattern, attrs: seq<Attr>, cx: Context, m: seq<Item>, rest: seq<Frame>)
    requires ExactGrammar(g) && Stacked(IsExact(g), p, |rest|)
    requires Accepts(g, p, [Frame(cx, attrs, m)] + rest)
    ensures Accepts(g, AttsRun(g, p, attrs, cx), [Frame(cx, [], m)] + rest)
    decreases attrs
  {
    if attrs != [] {
      ExactHereditary(g);
      assert [attrs[0]] + attrs[1..] == attrs;
      AttQuotientComplete(g, p, cx, attrs[0], attrs[1..], m, rest);
      AttKeepsLevel(g, IsExact(g), p, |rest|, attrs[0], cx);
      AttsComplete(g, AttDeriv(g, p, attrs[0], cx), attrs[1..], cx, m, rest);
    }
  }

  lemma {:induction false} MixedComplete(
      g: Grammar, p: Pattern, m: seq<Item>, cx: Context, rest: seq<Frame>)
    requires ExactGrammar(g) && Stacked(IsExact(g), p, |rest|) && rest != [] && Coalesced(m)
    requires ClearItems(g, p, m, cx, true)
    requires Accepts(g, p, [Frame(cx, [], StripBlank(m))] + rest)
    ensures Accepts(g, ItemsRun(g, p, m, cx, true), [Frame(cx, [], [])] + rest)
    decreases m, 0
  {
    if m != [] {
      ExactHereditary(g);
      SoundHereditary(g);
      StackedMono(IsExact(g), IsSchema(g), p, |rest|);
      if m[0].Str? {
        var s := m[0].s;
        TextKeepsLevel(g, IsExact(g), p, |rest|, s, cx);
        TextQuotient(g, p, cx, s, StripBlank(m[1..]), rest);
        MixedComplete(g, StringRun(g, p, s, cx, true), m[1..], cx, rest);
      } else {
        ElemKeeps(g, IsExact(g), p, |rest|, m[0]);
        ElemComplete(g, p, m[0], cx, StripBlank(m[1..]), rest);
        MixedComplete(g, ElemRun(g, p, m[0]), m[1..], cx, rest);
      }
    }
  }

  lemma {:induction false} KidsComplete(
      g: Grammar, p: Pattern, kids: seq<Item>, cx: Context, k: seq<Item>, rest: seq<Frame>)
    requires ExactGrammar(g) && Stacked(IsExact(g), p, |rest|) && rest != [] && Coalesced(kids)
    requires if kids == [] then OneReading(g, p, cx) else ClearItems(g, p, kids, cx, HasElem(kids))
    requires ReadAs(kids, k) && Accepts(g, p, [Frame(cx, [], k)] + rest)
    ensures Accepts(g, KidsRun(g, p, kids, cx), [Frame(cx, [], [])] + rest)
    decreases kids, 1
  {
    ExactHereditary(g);
    SoundHereditary(g);
    StackedMono(IsExact(g), IsSchema(g), p, |rest|);
    if kids == [] {
      var d := TextDeriv(g, p, "", cx);
      TextQuotient(g, p, cx, "", [], rest);
      assert [Str("")] + [] == [Str("")];
      TextKeepsLevel(g, IsExact(g), p, |rest|, "", cx);
      EndQuotient(g, IsExact(g), p, cx, rest);
      EndQuotient(g, IsExact(g), d, cx, rest);
      AcceptsChoice(g, EndDeriv(g, d), EndDeriv(g, p), rest);
      NothingAccepts(g, rest);
      StackNotNullable(g, IsExact(g), p, |rest|);
    } else if HasElem(kids) {
      MixedComplete(g, p, kids, cx, rest);
    } else {
      StringQuotient(g, p, kids, cx, rest);
    }
  }

  lemma NothingAccepts(g: Grammar, fs: seq<Frame>)
    requires fs != []
    ensures !Accepts(g, NotAllowed, fs)
  {
  }

  /** Inside an element the carried pattern is never nullable. */
  lemma {:induction false} StackNotNullable(g: Grammar, f: Pattern -> bool, p: Pattern, k: nat)
    requires k > 0 && Stacked(f, p, k)
    ensures !Nullable(g, p)
    decreases p
  {
    if p.Choice? {
      StackNotNullable(g, f, p.left, k);
      StackNotNullable(g, f, p.right, k);
    }
  }

  /** The start tag passes what can be completed with the element, read one way. */
  lemma TagPassed(g: Grammar, p: Pattern, el: Item, cx: Context, m: seq<Item>, rest: seq<Frame>)
    returns (k: seq<Item>)
    requires ExactGrammar(g) && Stacked(IsExact(g), p, |rest|) && el.Elem?
    requires Accepts(g, p, [Frame(cx, [], [el] + m)] + rest)
    ensures ReadAs(el.kids, k)
    ensures Accepts(g, TagRun(g, p, el), [Frame(el.cx, [], k)] + ([Frame(cx, [], m)] + rest))
  {
    ExactHereditary(g);
    SoundHereditary(g);
    var outer := [Frame(cx, [], m)] + rest;
    var o := OpenDeriv(g, p, el.tag);
    StackedMono(IsExact(g), IsSchema(g), p, |rest|);
    OpenStacked(g, IsExact(g), p, |rest|, el.tag);
    TagKeeps(g, IsExact(g), p, |rest|, el);
    OpenQuotient(g, p, cx, el, m, rest);
    k :| ReadAs(el.kids, k) && Accepts(g, o, [Frame(el.cx, el.attrs, k), Frame(cx, [], m)] + rest);
    assert [Frame(el.cx, el.attrs, k)] + outer == [Frame(el.cx, el.attrs, k), Frame(cx, [], m)] + rest;
    AttsComplete(g, o, el.attrs, el.cx, k, outer);
    CloseQuotient(g, IsExact(g), AttsRun(g, o, el.attrs, el.cx), el.cx, k, outer);
  }

  lemma {:induction false} ElemComplete(
      g: Grammar, p: Pattern, el: Item, cx: Context, m: seq<Item>, rest: seq<Frame>)
    requires ExactGrammar(g) && Stacked(IsExact(g), p, |rest|) && el.Elem? && Coalesced(el.kids)
    requires ClearElem(g, p, el)
    requires Accepts(g, p, [Frame(cx, [], [el] + m)] + rest)
    ensures Accepts(g, ElemRun(g, p, el), [Frame(cx, [], m)] + rest)
    decreases el
  {
    ExactHereditary(g);
    SoundHereditary(g);
    var outer := [Frame(cx, [], m)] + rest;
    var t := TagRun(g, p, el);
    TagKeeps(g, IsExact(g), p, |rest|, el);
    ElemKeeps(g, IsExact(g), p, |rest|, el);
    var k := TagPassed(g, p, el, cx, m, rest);
    KidsComplete(g, t, el.kids, el.cx, k, outer);
    EndsElem(g, KidsRun(g, t, el.kids, el.cx), el.cx, outer);
  }

  lemma EndsElem(g: Grammar, d: Pattern, cx: Context, outer: seq<Frame>)
    requires ExactGrammar(g) && outer != [] && Stacked(IsExact(g), d, |outer|)
    requires Accepts(g, d, [Frame(cx, [], [])] + outer)
    ensures Accepts(g, EndDeriv(g, d), outer)
  {
    ExactHereditary(g);
    EndQuotient(g, IsExact(g), d, cx, outer);
  }

  // ---- verdicts ----------------------------------------------------------

  const NO_BINDINGS := Context(map[], "")

  /** The document element is in the language of the start pattern. */
  ghost predicate Valid(g: Grammar, start: Pattern, root: Node)
    requires root.ElementNode?
  {
    Matches(g, NO_BINDINGS, start, [], [ItemOf(root)])
  }

  /** The same of an item of content. */
  lemma ItemSound(g: Grammar, start: Pattern, el: Item)
    requires SoundGrammar(g) && Sound(g, start) && el.Elem? && Coalesced(el.kids)
    requires Nullable(g, ElemRun(g, start, el))
    ensures Matches(g, NO_BINDINGS, start, [], [el])
  {
    var fs := [Frame(NO_BINDINGS, [], [])];
    SoundHereditary(g);
    ElemKeeps(g, IsSound(g), start, 0, el);
    NullableExact(g, NO_BINDINGS, ElemRun(g, start, el));
    assert fs + [] == fs;
    ElemSound(g, start, el, NO_BINDINGS, [], []);
    assert [el] + [] == [el];
  }

  /** Every document the run accepts is valid. */
  lemma RunSound(g: Grammar, start: Pattern, root: Node)
    requires SoundGrammar(g) && Sound(g, start) && root.ElementNode?
    requires Nullable(g, ElemRun(g, start, ItemOf(root)))
    ensures Valid(g, start, root)
  {
    ItemsCoalesced(root.children);
    ItemSound(g, start, ItemOf(root));
  }

  lemma ItemComplete(g: Grammar, start: Pattern, el: Item)
    requires ExactGrammar(g) && Exact(g, start) && el.Elem? && Coalesced(el.kids)
    requires ClearElem(g, start, el) && Matches(g, NO_BINDINGS, start, [], [el])
    ensures Nullable(g, ElemRun(g, start, el))
  {
    var fs := [Frame(NO_BINDINGS, [], [])];
    ExactHereditary(g);
    SoundHereditary(g);
    ElemKeeps(g, IsExact(g), start, 0, el);
    assert [el] + [] == [el];
    assert [Frame(NO_BINDINGS, [], [el] + [])] + [] == [Frame(NO_BINDINGS, [], [el] + [])];
    ElemComplete(g, start, el, NO_BINDINGS, [], []);
    assert fs + [] == fs;
    NullableExact(g, NO_BINDINGS, ElemRun(g, start, el));
  }

  /** Every valid document is accepted whose empty elements have one reading. */
  lemma RunComplete(g: Grammar, start: Pattern, root: Node)
    requires ExactGrammar(g) && Exact(g, start) && root.ElementNode?
    requires ClearElem(g, start, ItemOf(root))
    requires Valid(g, start, root)
    ensures Nullable(g, ElemRun(g, start, ItemOf(root)))
  {
    ItemsCoalesced(root.children);
    ItemComplete(g, start, ItemOf(root));
  }

  /** No element is without content. */
  predicate Filled(m: seq<Item>) {
    m == [] || ((m[0].Elem? ==> m[0].kids != [] && Filled(m[0].kids)) && Filled(m[1..]))
  }

  lemma {:induction false} FilledClear(
      g: Grammar, p: Pattern, m: seq<Item>, cx: Context, hasElem: bool)
    requires Filled(m)
    ensures ClearItems(g, p, m, cx, hasElem)
    decreases m, 0
  {
    if m != [] {
      if m[0].Str? {
        FilledClear(g, StringRun(g, p, m[0].s, cx, hasElem), m[1..], cx, hasElem);
      } else {
        var t := TagRun(g, p, m[0]);
        FilledClear(g, t, m[0].kids, m[0].cx, HasElem(m[0].kids));
        FilledClear(g, ElemRun(g, p, m[0]), m[1..], cx, hasElem);
      }
    }
  }

  /** Where no element is empty the run decides validity. */
  lemma RunExact(g: Grammar, start: Pattern, root: Node)
    requires ExactGrammar(g) && Exact(g, start) && root.ElementNode?
    requires Filled([ItemOf(root)])
    ensures Nullable(g, ElemRun(g, start, ItemOf(root))) <==> Valid(g, start, root)
  {
    ExactHereditary(g);
    FilledClear(g, start, [ItemOf(root)], NO_BINDINGS, true);
    if Valid(g, start, root) { RunComplete(g, start, root); }
    if Nullable(g, ElemRun(g, start, ItemOf(root))) { RunSound(g, start, root); }
  }

  /** At an empty element the run keeps both readings, whatever follows, exactly
      when reading it as nothing allows nothing more than reading it as "". */
  lemma EmptyExact(g: Grammar, p: Pattern, k: nat, cx: Context)
    requires k > 0 && SchemaGrammar(g) && Stacked(IsSchema(g), p, k)
    ensures
      (forall rest: seq<Frame> | |rest| == k ::
        Accepts(g, EndDeriv(g, EmptyRun(g, p, cx)), rest)
        <==> exists m :: ReadAs([], m) && Accepts(g, p, [Frame(cx, [], m)] + rest))
      <==>
      (EndDeriv(g, TextDeriv(g, p, "", cx)) == NotAllowed
       || forall rest: seq<Frame> | |rest| == k && Accepts(g, EndDeriv(g, p), rest) ::
            Accepts(g, EndDeriv(g, TextDeriv(g, p, "", cx)), rest))
  {
    var d := TextDeriv(g, p, "", cx);
    SchemaHereditary(g);
    StackNotNullable(g, IsSchema(g), p, k);
    TextKeepsLevel(g, IsSchema(g), p, k, "", cx);
    forall rest: seq<Frame> | |rest| == k
      ensures (exists m :: ReadAs([], m) && Accepts(g, p, [Frame(cx, [], m)] + rest))
          <==> Accepts(g, EndDeriv(g, p), rest) || Accepts(g, EndDeriv(g, d), rest)
      ensures EndDeriv(g, d) == NotAllowed ==> !Accepts(g, EndDeriv(g, d), rest)
    {
      TextQuotient(g, p, cx, "", [], rest);
      assert [Str("")] + [] == [Str("")];
      EndQuotient(g, IsSchema(g), p, cx, rest);
      EndQuotient(g, IsSchema(g), d, cx, rest);
      assert ReadAs([], []) && ReadAs([], [Str("")]);
      NothingAccepts(g, rest);
    }
  }
}
