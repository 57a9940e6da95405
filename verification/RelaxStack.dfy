/** Patterns carried inside open elements: choices of Afters, one level for each
    element still open, and their derivatives. */
module RelaxStack {
  import opened Basics
  import opened RelaxSyntax
  import opened RelaxLanguage
  import opened RelaxDerivative
  import opened RelaxSchema
  import opened RelaxLaws
  import opened RelaxLanguages

  /** What is still to be read of one open element. */
  datatype Frame = Frame(cx: Context, attrs: seq<Attr>, items: seq<Item>)

  /** Inside `k` open elements the carried pattern is a choice of Afters, `k` deep. */
  predicate Stacked(f: Pattern -> bool, p: Pattern, k: nat) {
    if k == 0 then f(p)
    else
      match p
      case NotAllowed => true
      case Choice(l, r) => Stacked(f, l, k) && Stacked(f, r, k)
      case After(l, r) => f(l) && Stacked(f, r, k - 1)
      case _ => false
  }

  /** The open elements, innermost first, can be completed with `p`. */
  ghost predicate Accepts(g: Grammar, p: Pattern, fs: seq<Frame>)
    requires fs != []
    decreases p
  {
    if |fs| == 1 then Matches(g, fs[0].cx, p, fs[0].attrs, fs[0].items)
    else
      match p
      case Choice(l, r) => Accepts(g, l, fs) || Accepts(g, r, fs)
      case After(l, r) =>
        Matches(g, fs[0].cx, l, fs[0].attrs, fs[0].items) && Accepts(g, r, fs[1..])
      case Static(q, _, _, _, _) => Accepts(g, q, fs)
      case _ => false
  }

  // ---- constructors on stacks --------------------------------------------

  lemma {:induction false} AcceptsUnwrap(g: Grammar, p: Pattern, fs: seq<Frame>)
    requires fs != []
    ensures Accepts(g, Unwrap(p), fs) == Accepts(g, p, fs)
    decreases p
  {
    UnwrapTwice(p);
    if |fs| == 1 {
      SameMeaning(g, g, fs[0].cx, Unwrap(p), p, fs[0].attrs, fs[0].items);
    } else {
      match p
      case Choice(l, r) => AcceptsUnwrap(g, l, fs); AcceptsUnwrap(g, r, fs);
      case After(l, r) =>
        UnwrapTwice(l);
        SameMeaning(g, g, fs[0].cx, Unwrap(l), l, fs[0].attrs, fs[0].items);
        AcceptsUnwrap(g, r, fs[1..]);
      case Static(q, _, _, _, _) => AcceptsUnwrap(g, q, fs);
      case _ =>
    }
  }

  lemma AcceptsChoice(g: Grammar, x: Pattern, y: Pattern, fs: seq<Frame>)
    requires fs != []
    ensures Accepts(g, MkChoice(x, y), fs) <==> Accepts(g, x, fs) || Accepts(g, y, fs)
  {
    var f := p => Accepts(g, p, fs);
    forall p ensures f(Unwrap(p)) == f(p) { AcceptsUnwrap(g, p, fs); }
    ChoiceAdds(f, x, y);
  }

  lemma AcceptsAfter(g: Grammar, l: Pattern, r: Pattern, f0: Frame, rest: seq<Frame>)
    requires rest != []
    ensures Accepts(g, MkAfter(l, r), [f0] + rest)
        <==> Matches(g, f0.cx, l, f0.attrs, f0.items) && Accepts(g, r, rest)
  {
    var fs := [f0] + rest;
    assert fs[1..] == rest && |fs| > 1;
    assert Accepts(g, After(l, r), fs)
        <==> Matches(g, f0.cx, l, f0.attrs, f0.items) && Accepts(g, r, rest);
    if r == NotAllowed { assert !Accepts(g, r, rest); }
  }

  lemma StackedChoice(f: Pattern -> bool, x: Pattern, y: Pattern, k: nat)
    requires k > 0 && Stacked(f, x, k) && Stacked(f, y, k)
    ensures Stacked(f, MkChoice(x, y), k)
  {
    ChoiceKeeps(p => Stacked(f, p, k), x, y);
  }

  // ---- open tag ----------------------------------------------------------

  /** What a wrapper adds to a continuation within one element. */
  function Part(w: Wrapper): Pattern { if w.BesideLeft? then w.left else w.right }

  lemma {:induction false} ApplyKeeps(g: Grammar, f: Pattern -> bool, w: Wrapper, d: Pattern)
    requires Hereditary(g, f) && !w.Inside? && f(Part(w)) && Stacked(f, d, 1)
    ensures Stacked(f, ApplyAfter(w, d), 1)
    decreases d
  {
    match d
    case Choice(l, r) =>
      ApplyKeeps(g, f, w, l);
      ApplyKeeps(g, f, w, r);
      StackedChoice(f, ApplyAfter(w, l), ApplyAfter(w, r), 1);
    case After(l, r) =>
      assert f(r) && f(Wrap(w, r));
    case _ =>
  }

  lemma {:induction false} ApplyInside(f: Pattern -> bool, r: Pattern, d: Pattern, k: nat)
    requires Stacked(f, d, 1) && Stacked(f, r, k)
    ensures Stacked(f, ApplyAfter(Inside(r), d), k + 2)
    decreases d
  {
    match d
    case Choice(x, y) =>
      ApplyInside(f, r, x, k);
      ApplyInside(f, r, y, k);
      StackedChoice(f, ApplyAfter(Inside(r), x), ApplyAfter(Inside(r), y), k + 2);
    case After(x, y) =>
      assert f(y) && Stacked(f, MkAfter(y, r), k + 1);
    case _ =>
  }

  /** Opening an element from its parent's content gives one level. */
  lemma {:induction false} OpenKeeps(g: Grammar, f: Pattern -> bool, p: Pattern, name: QName)
    requires Hereditary(g, f) && f(p)
    ensures Stacked(f, OpenDeriv(g, p, name), 1)
    decreases Depth(g, p)
  {
    match p
    case Choice(l, r) =>
      OpenKeeps(g, f, l, name);
      OpenKeeps(g, f, r, name);
      StackedChoice(f, OpenDeriv(g, l, name), OpenDeriv(g, r, name), 1);
    case Interleave(l, r) =>
      var (x, y) := (OpenDeriv(g, l, name), OpenDeriv(g, r, name));
      OpenKeeps(g, f, l, name);
      OpenKeeps(g, f, r, name);
      ApplyKeeps(g, f, BesideRight(r), x);
      ApplyKeeps(g, f, BesideLeft(l), y);
      StackedChoice(f, ApplyAfter(BesideRight(r), x), ApplyAfter(BesideLeft(l), y), 1);
    case OneOrMore(q) =>
      OpenKeeps(g, f, q, name);
      KeepsMore(g, f, q);
      ApplyKeeps(g, f, Before(More(q)), OpenDeriv(g, q, name));
    case Group(l, r) =>
      OpenKeeps(g, f, l, name);
      OpenKeeps(g, f, r, name);
      ApplyKeeps(g, f, Before(r), OpenDeriv(g, l, name));
      StackedChoice(f, ApplyAfter(Before(r), OpenDeriv(g, l, name)), OpenDeriv(g, r, name), 1);
    case Ref(id) => OpenKeeps(g, f, Expand(g, id), name);
    case Static(q, _, _, _, _) => OpenKeeps(g, f, q, name);
    case _ =>
  }

  /** Opening an element adds a level. */
  lemma {:induction false} OpenStacked(g: Grammar, f: Pattern -> bool, p: Pattern, k: nat, name: QName)
    requires Hereditary(g, f) && Stacked(f, p, k)
    ensures Stacked(f, OpenDeriv(g, p, name), k + 1)
    decreases p
  {
    if k == 0 {
      OpenKeeps(g, f, p, name);
    } else {
      match p
      case Choice(l, r) =>
        OpenStacked(g, f, l, k, name);
        OpenStacked(g, f, r, k, name);
        StackedChoice(f, OpenDeriv(g, l, name), OpenDeriv(g, r, name), k + 1);
      case After(l, r) =>
        OpenKeeps(g, f, l, name);
        ApplyInside(f, r, OpenDeriv(g, l, name), k - 1);
      case _ =>
    }
  }

  /** What a pattern derived by an open tag leaves for the enclosing content,
      the opened element having been `el`. */
  ghost predicate Opened(g: Grammar, d: Pattern, el: Item, cx: Context, a: seq<Attr>, m: seq<Item>)
    requires el.Elem?
  {
    && a == []
    && exists k :: ReadAs(el.kids, k) && Accepts(g, d, [Frame(el.cx, el.attrs, k), Frame(cx, [], m)])
  }

  ghost function OpenedLang(g: Grammar, d: Pattern, el: Item, cx: Context): Lang
    requires el.Elem?
  {
    (a, m) => Opened(g, d, el, cx, a, m)
  }

  /** Level-one patterns with a wrapped continuation. */
  lemma {:induction false} ApplyBefore(
      g: Grammar, d: Pattern, r: Pattern, f0: Frame, cx: Context, m: seq<Item>)
    requires Stacked(p => true, d, 1)
    ensures Accepts(g, ApplyAfter(Before(r), d), [f0, Frame(cx, [], m)]) <==>
      exists h :: InSequence([], m, h)
        && Accepts(g, d, [f0, Frame(cx, [], h.m1)]) && Matches(g, cx, r, [], h.m2)
    decreases d
  {
    match d
    case Choice(x, y) =>
      ApplyBefore(g, x, r, f0, cx, m);
      ApplyBefore(g, y, r, f0, cx, m);
      AcceptsChoice(g, ApplyAfter(Before(r), x), ApplyAfter(Before(r), y), [f0, Frame(cx, [], m)]);
    case After(x, y) =>
      AcceptsAfter(g, x, MkGroup(y, r), f0, [Frame(cx, [], m)]);
      GroupLaw(g, cx, y, r, [], m);
      GroupIs(g, cx, y, r, [], m);
      forall h | InSequence([], m, h)
        ensures h.a1 == [] && h.a2 == []
        ensures Accepts(g, d, [f0, Frame(cx, [], h.m1)])
            <==> Matches(g, f0.cx, x, f0.attrs, f0.items) && Matches(g, cx, y, [], h.m1)
      {
        NoAttrs([], m, h);
        AcceptsAfter(g, x, y, f0, [Frame(cx, [], h.m1)]);
      }
    case _ =>
  }

  lemma {:induction false} ApplyBeside(
      g: Grammar, d: Pattern, w: Wrapper, r: Pattern, f0: Frame, cx: Context, m: seq<Item>)
    requires Stacked(p => true, d, 1) && (w == BesideRight(r) || w == BesideLeft(r))
    ensures Accepts(g, ApplyAfter(w, d), [f0, Frame(cx, [], m)]) <==>
      exists h :: Interleaved([], m, h)
        && Accepts(g, d, [f0, Frame(cx, [], h.m1)]) && Matches(g, cx, r, [], h.m2)
    decreases d
  {
    match d
    case Choice(x, y) =>
      ApplyBeside(g, x, w, r, f0, cx, m);
      ApplyBeside(g, y, w, r, f0, cx, m);
      AcceptsChoice(g, ApplyAfter(w, x), ApplyAfter(w, y), [f0, Frame(cx, [], m)]);
    case After(x, y) =>
      AcceptsAfter(g, x, Wrap(w, y), f0, [Frame(cx, [], m)]);
      WrapBeside(g, cx, w, r, y, m);
      forall h | Interleaved([], m, h)
        ensures h.a1 == [] && h.a2 == []
        ensures Accepts(g, d, [f0, Frame(cx, [], h.m1)])
            <==> Matches(g, f0.cx, x, f0.attrs, f0.items) && Matches(g, cx, y, [], h.m1)
      {
        NoAttrs([], m, h);
        AcceptsAfter(g, x, y, f0, [Frame(cx, [], h.m1)]);
      }
    case _ =>
  }

  lemma WrapBeside(g: Grammar, cx: Context, w: Wrapper, r: Pattern, y: Pattern, m: seq<Item>)
    requires w == BesideRight(r) || w == BesideLeft(r)
    ensures Matches(g, cx, Wrap(w, y), [], m)
        <==> InInterleave(LangOf(g, cx, y), LangOf(g, cx, r), [], m)
  {
    if w == BesideRight(r) {
      InterleaveLaw(g, cx, y, r, [], m);
      InterleaveIs(g, cx, y, r, [], m);
    } else {
      InterleaveLaw(g, cx, r, y, [], m);
      InterleaveIs(g, cx, r, y, [], m);
      InterleaveSwap(LangOf(g, cx, r), LangOf(g, cx, y), [], m);
    }
  }

  lemma InterleaveSwap(u: Lang, v: Lang, a: seq<Attr>, m: seq<Item>)
    ensures InInterleave(u, v, a, m) <==> InInterleave(v, u, a, m)
  {
    forall h | Interleaved(a, m, h)
      ensures Interleaved(a, m, Share(h.a2, h.a1, h.m2, h.m1))
    {
      ShuffleSwap(a, h.a1, h.a2);
      ShuffleSwap(m, h.m1, h.m2);
    }
  }

  lemma OpenedBefore(g: Grammar, d: Pattern, r: Pattern, el: Item, cx: Context, m: seq<Item>)
    requires el.Elem? && Stacked(p => true, d, 1)
    ensures Opened(g, ApplyAfter(Before(r), d), el, cx, [], m)
        <==> InGroup(OpenedLang(g, d, el, cx), LangOf(g, cx, r), [], m)
  {
    forall k | ReadAs(el.kids, k) {
      ApplyBefore(g, d, r, Frame(el.cx, el.attrs, k), cx, m);
    }
    forall h | InSequence([], m, h) ensures h.a1 == [] && h.a2 == [] { NoAttrs([], m, h); }
  }

  lemma OpenedBeside(g: Grammar, d: Pattern, w: Wrapper, r: Pattern, el: Item, cx: Context, m: seq<Item>)
    requires el.Elem? && Stacked(p => true, d, 1) && (w == BesideRight(r) || w == BesideLeft(r))
    ensures Opened(g, ApplyAfter(w, d), el, cx, [], m)
        <==> InInterleave(OpenedLang(g, d, el, cx), LangOf(g, cx, r), [], m)
  {
    forall k | ReadAs(el.kids, k) {
      ApplyBeside(g, d, w, r, Frame(el.cx, el.attrs, k), cx, m);
    }
    forall h | Interleaved([], m, h) ensures h.a1 == [] && h.a2 == [] { NoAttrs([], m, h); }
  }

  lemma OpenedChoice(g: Grammar, x: Pattern, y: Pattern, el: Item, cx: Context, m: seq<Item>)
    requires el.Elem?
    ensures Opened(g, MkChoice(x, y), el, cx, [], m)
        <==> Opened(g, x, el, cx, [], m) || Opened(g, y, el, cx, [], m)
  {
    forall k | ReadAs(el.kids, k) {
      AcceptsChoice(g, x, y, [Frame(el.cx, el.attrs, k), Frame(cx, [], m)]);
    }
  }

  lemma {:induction false} AnyStacked(f: Pattern -> bool, p: Pattern, k: nat)
    requires k > 0 && Stacked(f, p, k)
    ensures Stacked(q => true, p, k)
    decreases p
  {
    match p
    case Choice(l, r) => AnyStacked(f, l, k); AnyStacked(f, r, k);
    case After(l, r) => if k > 1 { AnyStacked(f, r, k - 1); }
    case _ =>
  }

  lemma OpenLevel(g: Grammar, p: Pattern, name: QName)
    requires SchemaGrammar(g) && Schema(g, p)
    ensures Stacked(q => true, OpenDeriv(g, p, name), 1)
  {
    SchemaHereditary(g);
    OpenKeeps(g, q => Schema(g, q), p, name);
    AnyStacked(q => Schema(g, q), OpenDeriv(g, p, name), 1);
  }

  /** The open-tag derivative is the exact quotient by the element opened. */
  lemma {:induction false} OpenExact(g: Grammar, cx: Context, p: Pattern, el: Item, m: seq<Item>)
    requires SchemaGrammar(g) && Schema(g, p) && el.Elem?
    ensures Matches(g, cx, p, [], [el] + m) <==> Opened(g, OpenDeriv(g, p, el.tag), el, cx, [], m)
    decreases Depth(g, p), 1
  {
    match p
    case Choice(l, r) =>
      OpenExact(g, cx, l, el, m);
      OpenExact(g, cx, r, el, m);
      OpenedChoice(g, OpenDeriv(g, l, el.tag), OpenDeriv(g, r, el.tag), el, cx, m);
    case Element(nc, q) => OpenElement(g, cx, nc, q, el, m);
    case Group(l, r) => OpenGroup(g, cx, l, r, el, m);
    case Interleave(l, r) => OpenInterleave(g, cx, l, r, el, m);
    case OneOrMore(q) => OpenRepeat(g, cx, q, el, m);
    case Text => assert ([el] + m)[0] == el;
    case Value(_, _, _) => assert ([el] + m)[0] == el;
    case Data(_, _, _) => assert ([el] + m)[0] == el;
    case List(_) => assert ([el] + m)[0] == el;
    case Ref(id) => OpenExact(g, cx, Expand(g, id), el, m);
    case Static(q, _, _, _, _) => OpenExact(g, cx, q, el, m);
    case _ =>
  }

  lemma OpenElement(g: Grammar, cx: Context, nc: NameClass, q: Pattern, el: Item, m: seq<Item>)
    requires el.Elem?
    ensures Matches(g, cx, Element(nc, q), [], [el] + m)
        <==> Opened(g, OpenDeriv(g, Element(nc, q), el.tag), el, cx, [], m)
  {
    assert ([el] + m)[0] == el;
    forall k | ReadAs(el.kids, k) {
      AcceptsAfter(g, q, Empty, Frame(el.cx, el.attrs, k), [Frame(cx, [], m)]);
    }
    if m == [] { assert [el] + m == [el]; }
  }

  lemma {:induction false} OpenGroup(
      g: Grammar, cx: Context, l: Pattern, r: Pattern, el: Item, m: seq<Item>)
    requires SchemaGrammar(g) && Schema(g, l) && Schema(g, r) && el.Elem?
    ensures Matches(g, cx, Group(l, r), [], [el] + m)
        <==> Opened(g, OpenDeriv(g, Group(l, r), el.tag), el, cx, [], m)
    decreases Depth(g, Group(l, r)), 0
  {
    var (dl, dr) := (OpenDeriv(g, l, el.tag), OpenDeriv(g, r, el.tag));
    var (u, v) := (LangOf(g, cx, l), LangOf(g, cx, r));
    var (du, dv) := (OpenedLang(g, dl, el, cx), OpenedLang(g, dr, el, cx));
    forall k ensures du([], k) <==> u([], [el] + k) { OpenExact(g, cx, l, el, k); }
    forall k ensures dv([], k) <==> v([], [el] + k) { OpenExact(g, cx, r, el, k); }
    GroupByItem(u, v, du, dv, el, m);
    GroupIs(g, cx, l, r, [], [el] + m);
    OpenLevel(g, l, el.tag);
    OpenedBefore(g, dl, r, el, cx, m);
    NullableExact(g, cx, l);
    OpenedChoice(g, ApplyAfter(Before(r), dl), dr, el, cx, m);
  }

  lemma {:induction false} OpenInterleave(
      g: Grammar, cx: Context, l: Pattern, r: Pattern, el: Item, m: seq<Item>)
    requires SchemaGrammar(g) && Schema(g, l) && Schema(g, r) && el.Elem?
    ensures Matches(g, cx, Interleave(l, r), [], [el] + m)
        <==> Opened(g, OpenDeriv(g, Interleave(l, r), el.tag), el, cx, [], m)
    decreases Depth(g, Interleave(l, r)), 0
  {
    var (dl, dr) := (OpenDeriv(g, l, el.tag), OpenDeriv(g, r, el.tag));
    var (u, v) := (LangOf(g, cx, l), LangOf(g, cx, r));
    var (du, dv) := (OpenedLang(g, dl, el, cx), OpenedLang(g, dr, el, cx));
    forall k ensures du([], k) <==> u([], [el] + k) { OpenExact(g, cx, l, el, k); }
    forall k ensures dv([], k) <==> v([], [el] + k) { OpenExact(g, cx, r, el, k); }
    InterleaveByItem(u, v, du, dv, el, m);
    InterleaveIs(g, cx, l, r, [], [el] + m);
    OpenLevel(g, l, el.tag);
    OpenLevel(g, r, el.tag);
    OpenedBeside(g, dl, BesideRight(r), r, el, cx, m);
    OpenedBeside(g, dr, BesideLeft(l), l, el, cx, m);
    InterleaveSwap(u, dv, [], m);
    OpenedChoice(g, ApplyAfter(BesideRight(r), dl), ApplyAfter(BesideLeft(l), dr), el, cx, m);
  }

  lemma {:induction false} OpenRepeat(g: Grammar, cx: Context, q: Pattern, el: Item, m: seq<Item>)
    requires SchemaGrammar(g) && Schema(g, q) && el.Elem?
    ensures Matches(g, cx, OneOrMore(q), [], [el] + m)
        <==> Opened(g, OpenDeriv(g, OneOrMore(q), el.tag), el, cx, [], m)
    decreases Depth(g, OneOrMore(q)), 0
  {
    var d := OpenDeriv(g, q, el.tag);
    var (u, du) := (LangOf(g, cx, q), OpenedLang(g, d, el, cx));
    forall k ensures du([], k) <==> u([], [el] + k) { OpenExact(g, cx, q, el, k); }
    RepeatByItem(u, du, el, m);
    OneOrMoreIs(g, cx, q, [], [el] + m);
    OpenLevel(g, q, el.tag);
    OpenedBefore(g, d, More(q), el, cx, m);
    forall h | InSequence([], m, h)
      ensures LangOf(g, cx, More(q))(h.a2, h.m2) <==> InMore(u, h.a2, h.m2)
    {
      MoreIs(g, cx, q, h.a2, h.m2);
    }
  }
}
