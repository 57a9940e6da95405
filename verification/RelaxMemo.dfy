/** Why a derivative may be remembered under less than all it is given. */
module RelaxMemo {
  import opened Basics
  import opened RelaxSyntax
  import opened RelaxLanguage
  import opened RelaxDerivative
  import opened RelaxSchema

  /** A pattern without attributes derives to notAllowed for each of them. */
  lemma {:induction false} AttrFreeAtt(g: Grammar, p: Pattern, a: Attr, cx: Context)
    requires AttrFree(g, p)
    ensures AttDeriv(g, p, a, cx) == NotAllowed
    decreases Depth(g, p)
  {
    match p
    case Choice(l, r) => AttrFreeAtt(g, l, a, cx); AttrFreeAtt(g, r, a, cx);
    case Group(l, r) => AttrFreeAtt(g, l, a, cx); AttrFreeAtt(g, r, a, cx);
    case Interleave(l, r) => AttrFreeAtt(g, l, a, cx); AttrFreeAtt(g, r, a, cx);
    case OneOrMore(q) => AttrFreeAtt(g, q, a, cx);
    case After(l, _) => AttrFreeAtt(g, l, a, cx);
    case Ref(id) => AttrFreeAtt(g, Expand(g, id), a, cx);
    case Static(q, _, _, _, _) => AttrFreeAtt(g, q, a, cx);
    case _ =>
  }

  /** Without a datatype to ask, the string and its bindings do not matter. */
  lemma {:induction false} DataFreeText(
      g: Grammar, p: Pattern, s: string, cx: Context, s': string, cx': Context)
    requires DataFree(g, p)
    ensures TextDeriv(g, p, s, cx) == TextDeriv(g, p, s', cx')
    decreases Depth(g, p)
  {
    match p
    case Choice(l, r) => DataFreeText(g, l, s, cx, s', cx'); DataFreeText(g, r, s, cx, s', cx');
    case Group(l, r) => DataFreeText(g, l, s, cx, s', cx'); DataFreeText(g, r, s, cx, s', cx');
    case Interleave(l, r) => DataFreeText(g, l, s, cx, s', cx'); DataFreeText(g, r, s, cx, s', cx');
    case OneOrMore(q) => DataFreeText(g, q, s, cx, s', cx');
    case Ref(id) => DataFreeText(g, Expand(g, id), s, cx, s', cx');
    case Static(q, _, _, _, _) => DataFreeText(g, q, s, cx, s', cx');
    case _ =>
  }

  /** Whether every attribute pattern in `p` that admits `name` takes any value.
      `free` are references known to hold no attribute, `done` those resolved. */
  predicate AnyValueFor(
      g: Grammar, p: Pattern, name: QName, free: set<Pattern>, done: set<Pattern>, visiting: set<Pattern>)
    decreases Level(g.rank, p), p
  {
    match p
    case Attribute(nc, v) => !nc.Contains(name) || v.Text?
    case Choice(l, r) =>
      AnyValueFor(g, l, name, free, done, visiting) && AnyValueFor(g, r, name, free, done, visiting)
    case Group(l, r) =>
      AnyValueFor(g, l, name, free, done, visiting) && AnyValueFor(g, r, name, free, done, visiting)
    case Interleave(l, r) =>
      AnyValueFor(g, l, name, free, done, visiting) && AnyValueFor(g, r, name, free, done, visiting)
    case OneOrMore(q) => AnyValueFor(g, q, name, free, done, visiting)
    case Ref(id) =>
      p in free ||
      (p in done && p !in visiting && AnyValueFor(g, Expand(g, id), name, free, done, visiting + {p}))
    case Static(q, _, _, _, _) =>
      p in free || (p !in visiting && AnyValueFor(g, q, name, free, done, visiting + {p}))
    case _ => true
  }

  /** Then the derivative depends on the attribute's name alone. */
  lemma {:induction false} AnyValueSame(
      g: Grammar, p: Pattern, name: QName, free: set<Pattern>, done: set<Pattern>, visiting: set<Pattern>,
      a: Attr, cx: Context, a': Attr, cx': Context)
    requires Schema(g, p) && SchemaGrammar(g) && forall q | q in free :: AttrFree(g, q)
    requires a.name == name && a'.name == name && AnyValueFor(g, p, name, free, done, visiting)
    ensures AttDeriv(g, p, a, cx) == AttDeriv(g, p, a', cx')
    decreases Depth(g, p)
  {
    if p in free {
      AttrFreeAtt(g, p, a, cx);
      AttrFreeAtt(g, p, a', cx');
    } else {
      match p
      case Choice(l, r) =>
        AnyValueSame(g, l, name, free, done, visiting, a, cx, a', cx');
        AnyValueSame(g, r, name, free, done, visiting, a, cx, a', cx');
      case Group(l, r) =>
        AnyValueSame(g, l, name, free, done, visiting, a, cx, a', cx');
        AnyValueSame(g, r, name, free, done, visiting, a, cx, a', cx');
      case Interleave(l, r) =>
        AnyValueSame(g, l, name, free, done, visiting, a, cx, a', cx');
        AnyValueSame(g, r, name, free, done, visiting, a, cx, a', cx');
      case Attribute(nc, v) =>
        if nc.Contains(name) {
          assert TextDeriv(g, v, a.value, cx) == Text && TextDeriv(g, v, a'.value, cx') == Text;
        }
      case OneOrMore(q) => AnyValueSame(g, q, name, free, done, visiting, a, cx, a', cx');
      case Ref(id) => AnyValueSame(g, Expand(g, id), name, free, done, visiting + {p}, a, cx, a', cx');
      case Static(q, _, _, _, _) => AnyValueSame(g, q, name, free, done, visiting + {p}, a, cx, a', cx');
      case _ =>
    }
  }

  // ---- independence of the namespace bindings ----------------------------

  ghost predicate TextFixed(g: Grammar, p: Pattern, s: string) {
    forall cx, cx' :: TextDeriv(g, p, s, cx) == TextDeriv(g, p, s, cx')
  }

  ghost predicate ValueFixed(g: Grammar, p: Pattern, s: string) {
    forall cx, cx' :: ValueMatch(g, p, s, cx) == ValueMatch(g, p, s, cx')
  }

  ghost predicate ListFixed(g: Grammar, p: Pattern, tokens: seq<string>) {
    forall cx, cx' :: ListDeriv(g, p, tokens, cx) == ListDeriv(g, p, tokens, cx')
  }

  ghost predicate AttFixed(g: Grammar, p: Pattern, a: Attr) {
    forall cx, cx' :: AttDeriv(g, p, a, cx) == AttDeriv(g, p, a, cx')
  }

  /** The parts of `p` the text derivative looks at do not ask for bindings. */
  ghost predicate TextPartsFixed(g: Grammar, p: Pattern, s: string) {
    match p
    case Choice(l, r) => TextFixed(g, l, s) && TextFixed(g, r, s)
    case Interleave(l, r) => TextFixed(g, l, s) && TextFixed(g, r, s)
    case Group(l, r) => TextFixed(g, l, s) && (Nullable(g, l) ==> TextFixed(g, r, s))
    case After(l, _) => TextFixed(g, l, s)
    case OneOrMore(q) => TextFixed(g, q, s)
    case Value(ty, _, _) => !g.lib.contextual(ty)
    case Data(ty, ps, x) =>
      !g.lib.contextual(ty) && (x.Some? && g.lib.check(ty, s, ps) ==> ValueFixed(g, x.value, s))
    case List(q) => ListFixed(g, q, SplitTokens(s))
    case Ref(id) => TextFixed(g, Expand(g, id), s)
    case Static(q, _, _, _, _) => TextFixed(g, q, s)
    case _ => true
  }

  lemma {:induction false} TextFixedByParts(g: Grammar, p: Pattern, s: string)
    requires TextPartsFixed(g, p, s)
    ensures TextFixed(g, p, s)
  {
    forall cx, cx' ensures TextDeriv(g, p, s, cx) == TextDeriv(g, p, s, cx') {
      match p
      case Choice(l, r) =>
        assert TextDeriv(g, l, s, cx) == TextDeriv(g, l, s, cx') && TextDeriv(g, r, s, cx) == TextDeriv(g, r, s, cx');
      case Interleave(l, r) =>
        assert TextDeriv(g, l, s, cx) == TextDeriv(g, l, s, cx') && TextDeriv(g, r, s, cx) == TextDeriv(g, r, s, cx');
      case Group(l, r) =>
        assert TextDeriv(g, l, s, cx) == TextDeriv(g, l, s, cx');
        if Nullable(g, l) { assert TextDeriv(g, r, s, cx) == TextDeriv(g, r, s, cx'); }
      case After(l, _) => assert TextDeriv(g, l, s, cx) == TextDeriv(g, l, s, cx');
      case OneOrMore(q) => assert TextDeriv(g, q, s, cx) == TextDeriv(g, q, s, cx');
      case Data(ty, ps, x) =>
        if x.Some? && g.lib.check(ty, s, ps) {
          assert ValueMatch(g, x.value, s, cx) == ValueMatch(g, x.value, s, cx');
        }
      case List(q) => assert ListDeriv(g, q, SplitTokens(s), cx) == ListDeriv(g, q, SplitTokens(s), cx');
      case Ref(id) => assert TextDeriv(g, Expand(g, id), s, cx) == TextDeriv(g, Expand(g, id), s, cx');
      case Static(q, _, _, _, _) => assert TextDeriv(g, q, s, cx) == TextDeriv(g, q, s, cx');
      case _ =>
    }
  }

  lemma ValueFixedByText(g: Grammar, p: Pattern, s: string)
    requires (Nullable(g, p) && WhitespaceOnly(s)) || TextFixed(g, p, s)
    ensures ValueFixed(g, p, s)
  {
    forall cx, cx' ensures ValueMatch(g, p, s, cx) == ValueMatch(g, p, s, cx') {
      if !(Nullable(g, p) && WhitespaceOnly(s)) {
        assert TextDeriv(g, p, s, cx) == TextDeriv(g, p, s, cx');
      }
    }
  }

  ghost predicate AttPartsFixed(g: Grammar, p: Pattern, a: Attr) {
    match p
    case Choice(l, r) => AttFixed(g, l, a) && AttFixed(g, r, a)
    case Interleave(l, r) => AttFixed(g, l, a) && AttFixed(g, r, a)
    case Group(l, r) => AttFixed(g, l, a) && AttFixed(g, r, a)
    case After(l, _) => AttFixed(g, l, a)
    case OneOrMore(q) => AttFixed(g, q, a)
    case Attribute(nc, v) => nc.Contains(a.name) ==> ValueFixed(g, v, a.value)
    case Ref(id) => AttFixed(g, Expand(g, id), a)
    case Static(q, _, _, _, _) => AttFixed(g, q, a)
    case _ => true
  }

  lemma {:induction false} AttFixedByParts(g: Grammar, p: Pattern, a: Attr)
    requires AttPartsFixed(g, p, a)
    ensures AttFixed(g, p, a)
  {
    forall cx, cx' ensures AttDeriv(g, p, a, cx) == AttDeriv(g, p, a, cx') {
      match p
      case Choice(l, r) =>
        assert AttDeriv(g, l, a, cx) == AttDeriv(g, l, a, cx') && AttDeriv(g, r, a, cx) == AttDeriv(g, r, a, cx');
      case Interleave(l, r) =>
        assert AttDeriv(g, l, a, cx) == AttDeriv(g, l, a, cx') && AttDeriv(g, r, a, cx) == AttDeriv(g, r, a, cx');
      case Group(l, r) =>
        assert AttDeriv(g, l, a, cx) == AttDeriv(g, l, a, cx') && AttDeriv(g, r, a, cx) == AttDeriv(g, r, a, cx');
      case After(l, _) => assert AttDeriv(g, l, a, cx) == AttDeriv(g, l, a, cx');
      case OneOrMore(q) => assert AttDeriv(g, q, a, cx) == AttDeriv(g, q, a, cx');
      case Attribute(nc, v) =>
        if nc.Contains(a.name) { assert ValueMatch(g, v, a.value, cx) == ValueMatch(g, v, a.value, cx'); }
      case Ref(id) => assert AttDeriv(g, Expand(g, id), a, cx) == AttDeriv(g, Expand(g, id), a, cx');
      case Static(q, _, _, _, _) => assert AttDeriv(g, q, a, cx) == AttDeriv(g, q, a, cx');
      case _ =>
    }
  }
}
