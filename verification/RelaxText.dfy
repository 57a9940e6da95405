/** The text derivative is the exact quotient of the language by a string. */
module RelaxText {
  import opened Basics
  import opened RelaxSyntax
  import opened RelaxLanguage
  import opened RelaxDerivative
  import opened RelaxSchema
  import opened RelaxLaws
  import opened RelaxLanguages

  /** An except's derivative is empty or nothing, so that "not notAllowed" is
      nullability there. */
  lemma {:induction false} ExceptDeriv(g: Grammar, p: Pattern, s: string, cx: Context)
    requires SchemaGrammar(g) && Schema(g, p) && ExceptLike(g, p)
    ensures !Nullable(g, p)
    ensures TextDeriv(g, p, s, cx) == NotAllowed || TextDeriv(g, p, s, cx) == Empty
    decreases Depth(g, p)
  {
    match p
    case Choice(l, r) => ExceptDeriv(g, l, s, cx); ExceptDeriv(g, r, s, cx);
    case Ref(id) => ExceptDeriv(g, Expand(g, id), s, cx);
    case Static(q, _, _, _, _) => ExceptDeriv(g, q, s, cx);
    case _ =>
  }

  lemma TextList(g: Grammar, cx: Context, q: Pattern, s: string, m: seq<Item>)
    requires ListDeriv(g, q, SplitTokens(s), cx) == Empty <==> Matches(g, cx, q, [], Strings(SplitTokens(s)))
    ensures Matches(g, cx, TextDeriv(g, List(q), s, cx), [], m) <==> Matches(g, cx, List(q), [], [Str(s)] + m)
  {
    if m == [] { assert [Str(s)] + m == [Str(s)]; }
  }

  lemma {:induction false} TextExact(g: Grammar, cx: Context, p: Pattern, s: string, m: seq<Item>)
    requires SchemaGrammar(g) && Schema(g, p)
    ensures Matches(g, cx, TextDeriv(g, p, s, cx), [], m) <==> Matches(g, cx, p, [], [Str(s)] + m)
    decreases Nest(g, p), 0, Depth(g, p), 1
  {
    var x := Str(s);
    match p
    case Choice(l, r) =>
      TextExact(g, cx, l, s, m);
      TextExact(g, cx, r, s, m);
      ChoiceLaw(g, cx, TextDeriv(g, l, s, cx), TextDeriv(g, r, s, cx), [], m);
    case Group(l, r) => TextGroup(g, cx, l, r, s, m);
    case Interleave(l, r) => TextInterleave(g, cx, l, r, s, m);
    case OneOrMore(q) => TextRepeat(g, cx, q, s, m);
    case Text =>
      assert ([x] + m)[0] == x && forall i | 0 <= i < |m| :: m[i] == ([x] + m)[i + 1];
    case Data(_, _, _) => TextData(g, cx, p, s, m);
    case Value(_, _, _) =>
      if m == [] { assert [x] + m == [x]; }
    case List(q) =>
      ListExact(g, cx, q, SplitTokens(s));
      TextList(g, cx, q, s, m);
    case Ref(id) => TextExact(g, cx, Expand(g, id), s, m);
    case Static(q, _, _, _, _) => TextExact(g, cx, q, s, m);
    case _ =>
  }

  lemma {:induction false} TextData(g: Grammar, cx: Context, p: Pattern, s: string, m: seq<Item>)
    requires p.Data? && SchemaGrammar(g) && Schema(g, p)
    ensures Matches(g, cx, TextDeriv(g, p, s, cx), [], m) <==> Matches(g, cx, p, [], [Str(s)] + m)
    decreases Nest(g, p), 0, Depth(g, p), 0
  {
    if p.except.Some? {
      ExceptDeriv(g, p.except.value, s, cx);
      TextExact(g, cx, p.except.value, s, []);
      assert [Str(s)] + [] == [Str(s)];
    }
    if m == [] { assert [Str(s)] + m == [Str(s)]; }
  }

  lemma {:induction false} TextGroup(
      g: Grammar, cx: Context, l: Pattern, r: Pattern, s: string, m: seq<Item>)
    requires SchemaGrammar(g) && Schema(g, l) && Schema(g, r)
    ensures Matches(g, cx, TextDeriv(g, Group(l, r), s, cx), [], m)
        <==> Matches(g, cx, Group(l, r), [], [Str(s)] + m)
    decreases Nest(g, Group(l, r)), 0, Depth(g, Group(l, r)), 0
  {
    var (dl, dr) := (TextDeriv(g, l, s, cx), TextDeriv(g, r, s, cx));
    var (u, v, du, dv) := (LangOf(g, cx, l), LangOf(g, cx, r), LangOf(g, cx, dl), LangOf(g, cx, dr));
    forall k ensures du([], k) <==> u([], [Str(s)] + k) { TextExact(g, cx, l, s, k); }
    forall k ensures dv([], k) <==> v([], [Str(s)] + k) { TextExact(g, cx, r, s, k); }
    GroupByItem(u, v, du, dv, Str(s), m);
    GroupIs(g, cx, l, r, [], [Str(s)] + m);
    GroupLaw(g, cx, dl, r, [], m);
    GroupIs(g, cx, dl, r, [], m);
    NullableExact(g, cx, l);
    ChoiceLaw(g, cx, MkGroup(dl, r), dr, [], m);
  }

  lemma {:induction false} TextRepeat(g: Grammar, cx: Context, q: Pattern, s: string, m: seq<Item>)
    requires SchemaGrammar(g) && Schema(g, q)
    ensures Matches(g, cx, TextDeriv(g, OneOrMore(q), s, cx), [], m)
        <==> Matches(g, cx, OneOrMore(q), [], [Str(s)] + m)
    decreases Nest(g, OneOrMore(q)), 0, Depth(g, OneOrMore(q)), 0
  {
    var d := TextDeriv(g, q, s, cx);
    forall k ensures LangOf(g, cx, d)([], k) <==> LangOf(g, cx, q)([], [Str(s)] + k) {
      TextExact(g, cx, q, s, k);
    }
    RepeatByItem(LangOf(g, cx, q), LangOf(g, cx, d), Str(s), m);
    OneOrMoreIs(g, cx, q, [], [Str(s)] + m);
    ThenMoreIs(g, cx, d, q, [], m);
  }

  lemma {:induction false} TextInterleave(
      g: Grammar, cx: Context, l: Pattern, r: Pattern, s: string, m: seq<Item>)
    requires SchemaGrammar(g) && Schema(g, l) && Schema(g, r)
    ensures Matches(g, cx, TextDeriv(g, Interleave(l, r), s, cx), [], m)
        <==> Matches(g, cx, Interleave(l, r), [], [Str(s)] + m)
    decreases Nest(g, Interleave(l, r)), 0, Depth(g, Interleave(l, r)), 0
  {
    var (dl, dr) := (TextDeriv(g, l, s, cx), TextDeriv(g, r, s, cx));
    var (u, v, du, dv) := (LangOf(g, cx, l), LangOf(g, cx, r), LangOf(g, cx, dl), LangOf(g, cx, dr));
    forall k ensures du([], k) <==> u([], [Str(s)] + k) { TextExact(g, cx, l, s, k); }
    forall k ensures dv([], k) <==> v([], [Str(s)] + k) { TextExact(g, cx, r, s, k); }
    InterleaveByItem(u, v, du, dv, Str(s), m);
    InterleaveIs(g, cx, l, r, [], [Str(s)] + m);
    InterleaveLaw(g, cx, dl, r, [], m);
    InterleaveIs(g, cx, dl, r, [], m);
    InterleaveLaw(g, cx, l, dr, [], m);
    InterleaveIs(g, cx, l, dr, [], m);
    ChoiceLaw(g, cx, MkInterleave(dl, r), MkInterleave(l, dr), [], m);
  }

  /** A list pattern accepts exactly the token sequences its body matches. */
  lemma {:induction false} ListExact(g: Grammar, cx: Context, p: Pattern, tokens: seq<string>)
    requires SchemaGrammar(g) && Schema(g, p)
    ensures ListDeriv(g, p, tokens, cx) == Empty <==> Matches(g, cx, p, [], Strings(tokens))
    decreases Nest(g, p), 1, |tokens|
  {
    if tokens == [] {
      NullableExact(g, cx, p);
      assert Strings(tokens) == [];
    } else {
      var d := TextDeriv(g, p, tokens[0], cx);
      assert Strings(tokens) == [Str(tokens[0])] + Strings(tokens[1..]);
      TextExact(g, cx, p, tokens[0], Strings(tokens[1..]));
      SchemaHereditary(g);
      KeepsText(g, q => Schema(g, q), p, tokens[0], cx);
      ListExact(g, cx, d, tokens[1..]);
    }
  }
}
