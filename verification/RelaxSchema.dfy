/** What holds of the patterns a schema compiles to, and of those derived from
    them inside one element. */
module RelaxSchema {
  import opened Basics
  import opened RelaxSyntax
  import opened RelaxLanguage
  import opened RelaxDerivative

  /** Only alternatives of values and data may stand in an except (section 7.1.4). */
  predicate ExceptLike(g: Grammar, p: Pattern)
    decreases Level(g.rank, p), p
  {
    match p
    case NotAllowed => true
    case Value(_, _, _) => true
    case Data(_, _, _) => true
    case Choice(l, r) => ExceptLike(g, l) && ExceptLike(g, r)
    case Ref(id) => ExceptLike(g, Expand(g, id))
    case Static(q, _, _, _, _) => ExceptLike(g, q)
    case _ => false
  }

  /** No value, data or list before an element boundary. */
  predicate DataFree(g: Grammar, p: Pattern)
    decreases Level(g.rank, p), p
  {
    match p
    case Value(_, _, _) => false
    case Data(_, _, _) => false
    case List(_) => false
    case Choice(l, r) => DataFree(g, l) && DataFree(g, r)
    case Group(l, r) => DataFree(g, l) && DataFree(g, r)
    case Interleave(l, r) => DataFree(g, l) && DataFree(g, r)
    case OneOrMore(q) => DataFree(g, q)
    case After(_, _) => false
    case Ref(id) => DataFree(g, Expand(g, id))
    case Static(q, _, _, _, _) => DataFree(g, q)
    case _ => true
  }

  /** No attribute before an element boundary. */
  predicate AttrFree(g: Grammar, p: Pattern)
    decreases Level(g.rank, p), p
  {
    match p
    case Attribute(_, _) => false
    case Choice(l, r) => AttrFree(g, l) && AttrFree(g, r)
    case Group(l, r) => AttrFree(g, l) && AttrFree(g, r)
    case Interleave(l, r) => AttrFree(g, l) && AttrFree(g, r)
    case OneOrMore(q) => AttrFree(g, q)
    case After(l, r) => AttrFree(g, l)
    case Ref(id) => AttrFree(g, Expand(g, id))
    case Static(q, _, _, _, _) => AttrFree(g, q)
    case _ => true
  }

  /** What a wrapper reports of its subtree is so. */
  predicate Reported(g: Grammar, p: Pattern)
    requires p.Static?
  {
    && p.size == Size(p.inner)
    && p.nullable == Nullable(g, p.inner)
    && (p.dataFree ==> DataFree(g, p.inner))
    && p.selfEq == PatEq(p.inner, p.inner)
  }

  /** A pattern of one element's content: it holds no After, its wrappers report
      truly and its excepts obey section 7.1.4, element contents included. */
  predicate Schema(g: Grammar, p: Pattern) {
    match p
    case Choice(l, r) => Schema(g, l) && Schema(g, r)
    case Group(l, r) => Schema(g, l) && Schema(g, r)
    case Interleave(l, r) => Schema(g, l) && Schema(g, r)
    case OneOrMore(q) => Schema(g, q)
    case List(q) => Schema(g, q)
    case Element(_, q) => Schema(g, q)
    case Attribute(_, q) => Schema(g, q)
    case Data(_, _, x) => x.Some? ==> ExceptLike(g, x.value) && Schema(g, x.value)
    case After(_, _) => false
    case Static(q, _, _, _, _) => Schema(g, q) && Reported(g, p)
    case _ => true
  }

  ghost predicate SchemaGrammar(g: Grammar) { forall id :: Schema(g, Expand(g, id)) }

  // ---- what derivatives keep ---------------------------------------------

  /** A property of one element's content that passes from a pattern to the
      parts its derivatives are made of, and from those to what is made. */
  ghost predicate Hereditary(g: Grammar, f: Pattern -> bool) {
    && f(NotAllowed) && f(Empty) && f(Text)
    && (forall l, r {:trigger f(Choice(l, r))} :: f(Choice(l, r)) <==> f(l) && f(r))
    && (forall l, r {:trigger f(Group(l, r))} :: f(Group(l, r)) <==> f(l) && f(r))
    && (forall l, r {:trigger f(Interleave(l, r))} :: f(Interleave(l, r)) <==> f(l) && f(r))
    && (forall l, r {:trigger f(After(l, r))} :: !f(After(l, r)))
    && (forall q {:trigger f(OneOrMore(q))} :: f(OneOrMore(q)) ==> f(q))
    && (forall q {:trigger f(OneOrMore(q))} :: f(q) && AttrFree(g, q) ==> f(OneOrMore(q)))
    && (forall n, q {:trigger f(Element(n, q))} :: f(Element(n, q)) ==> f(q))
    && (forall p: Pattern {:trigger f(p), p.inner} :: p.Static? && f(p) ==> f(p.inner))
    && (forall id {:trigger Expand(g, id)} :: f(Expand(g, id)))
  }

  lemma SchemaHereditary(g: Grammar)
    requires SchemaGrammar(g)
    ensures Hereditary(g, p => Schema(g, p))
  {
  }

  lemma KeepsMore(g: Grammar, f: Pattern -> bool, q: Pattern)
    requires Hereditary(g, f) && f(OneOrMore(q))
    ensures f(More(q))
  {
    ChoiceKeeps(f, MkOneOrMore(q), Empty);
  }

  lemma {:induction false} KeepsText(g: Grammar, f: Pattern -> bool, p: Pattern, s: string, cx: Context)
    requires Hereditary(g, f) && f(p)
    ensures f(TextDeriv(g, p, s, cx))
    decreases Depth(g, p)
  {
    match p
    case Choice(l, r) =>
      KeepsText(g, f, l, s, cx); KeepsText(g, f, r, s, cx);
      ChoiceKeeps(f, TextDeriv(g, l, s, cx), TextDeriv(g, r, s, cx));
    case Interleave(l, r) =>
      KeepsText(g, f, l, s, cx); KeepsText(g, f, r, s, cx);
      ChoiceKeeps(f, MkInterleave(TextDeriv(g, l, s, cx), r), MkInterleave(l, TextDeriv(g, r, s, cx)));
    case Group(l, r) =>
      KeepsText(g, f, l, s, cx); KeepsText(g, f, r, s, cx);
      ChoiceKeeps(f, MkGroup(TextDeriv(g, l, s, cx), r), TextDeriv(g, r, s, cx));
    case OneOrMore(q) => KeepsText(g, f, q, s, cx); KeepsMore(g, f, q);
    case Ref(id) => KeepsText(g, f, Expand(g, id), s, cx);
    case Static(q, _, _, _, _) => KeepsText(g, f, q, s, cx);
    case _ =>
  }

  lemma {:induction false} KeepsAtt(g: Grammar, f: Pattern -> bool, p: Pattern, a: Attr, cx: Context)
    requires Hereditary(g, f) && f(p)
    ensures f(AttDeriv(g, p, a, cx))
    decreases Depth(g, p)
  {
    match p
    case Choice(l, r) =>
      KeepsAtt(g, f, l, a, cx); KeepsAtt(g, f, r, a, cx);
      ChoiceKeeps(f, AttDeriv(g, l, a, cx), AttDeriv(g, r, a, cx));
    case Interleave(l, r) =>
      KeepsAtt(g, f, l, a, cx); KeepsAtt(g, f, r, a, cx);
      ChoiceKeeps(f, MkInterleave(AttDeriv(g, l, a, cx), r), MkInterleave(l, AttDeriv(g, r, a, cx)));
    case Group(l, r) =>
      KeepsAtt(g, f, l, a, cx); KeepsAtt(g, f, r, a, cx);
      ChoiceKeeps(f, MkGroup(AttDeriv(g, l, a, cx), r), MkGroup(l, AttDeriv(g, r, a, cx)));
    case OneOrMore(q) => KeepsAtt(g, f, q, a, cx); KeepsMore(g, f, q);
    case Ref(id) => KeepsAtt(g, f, Expand(g, id), a, cx);
    case Static(q, _, _, _, _) => KeepsAtt(g, f, q, a, cx);
    case _ =>
  }

  /** The close of a start tag leaves no attribute, and reports a change
      exactly when there was one. */
  lemma {:induction false} CloseAttrFree(g: Grammar, p: Pattern)
    ensures AttrFree(g, CloseDeriv(g, p).0)
    ensures CloseDeriv(g, p).1 <==> !AttrFree(g, p)
    decreases Depth(g, p)
  {
    match p
    case Choice(l, r) =>
      CloseAttrFree(g, l); CloseAttrFree(g, r);
      var (x, y) := (CloseDeriv(g, l).0, CloseDeriv(g, r).0);
      ChoiceKeeps(q => AttrFree(g, q), x, y);
    case Interleave(l, r) => CloseAttrFree(g, l); CloseAttrFree(g, r);
    case Group(l, r) => CloseAttrFree(g, l); CloseAttrFree(g, r);
    case OneOrMore(q) => CloseAttrFree(g, q);
    case After(l, _) => CloseAttrFree(g, l);
    case Ref(id) => CloseAttrFree(g, Expand(g, id));
    case Static(q, _, _, _, _) => CloseAttrFree(g, q);
    case _ =>
  }

  lemma {:induction false} KeepsClose(g: Grammar, f: Pattern -> bool, p: Pattern)
    requires Hereditary(g, f) && f(p)
    ensures f(CloseDeriv(g, p).0)
    decreases Depth(g, p)
  {
    match p
    case Choice(l, r) =>
      KeepsClose(g, f, l); KeepsClose(g, f, r);
      ChoiceKeeps(f, CloseDeriv(g, l).0, CloseDeriv(g, r).0);
    case Interleave(l, r) => KeepsClose(g, f, l); KeepsClose(g, f, r);
    case Group(l, r) => KeepsClose(g, f, l); KeepsClose(g, f, r);
    case OneOrMore(q) => KeepsClose(g, f, q); CloseAttrFree(g, q);
    case Ref(id) => KeepsClose(g, f, Expand(g, id));
    case Static(q, _, _, _, _) => KeepsClose(g, f, q);
    case _ =>
  }

  /** `Nullable` decides whether nothing at all matches. */
  lemma {:induction false} NullableExact(g: Grammar, cx: Context, p: Pattern)
    requires SchemaGrammar(g) && Schema(g, p)
    ensures Nullable(g, p) <==> Matches(g, cx, p, [], [])
    decreases Depth(g, p)
  {
    match p
    case Choice(l, r) => NullableExact(g, cx, l); NullableExact(g, cx, r);
    case Group(l, r) =>
      NullableExact(g, cx, l); NullableExact(g, cx, r);
      assert InSequence([], [], Share([], [], [], []));
    case Interleave(l, r) =>
      NullableExact(g, cx, l); NullableExact(g, cx, r);
      assert Interleaved([], [], Share([], [], [], []));
    case OneOrMore(q) =>
      NullableExact(g, cx, q);
      if Nullable(g, q) { assert Repeats(g, cx, q, 1, [], []); }
    case Ref(id) => NullableExact(g, cx, Expand(g, id));
    case Static(q, _, _, _, _) => NullableExact(g, cx, q);
    case _ =>
  }
}
