/** When the test of an attribute's value errs: it asks whether something could follow the
    value where it should ask whether nothing need. */
module RelaxValues {
  import opened RelaxSyntax
  import opened RelaxLanguage
  import opened RelaxDerivative
  import opened RelaxSchema
  import opened RelaxLaws
  import opened RelaxText
  import opened RelaxAttribute

  /** Some strings, one after another, match `p`. */
  ghost predicate Alive(g: Grammar, cx: Context, p: Pattern) {
    exists ss: seq<string> :: Matches(g, cx, p, [], Strings(ss))
  }

  /** Some strings match what must stand beside another part: simplification has removed
      what nothing matches (section 4.20). */
  ghost predicate PartsAlive(g: Grammar, cx: Context, p: Pattern)
    decreases Level(g.rank, p), p
  {
    match p
    case Choice(l, r) => PartsAlive(g, cx, l) && PartsAlive(g, cx, r)
    case Group(l, r) => PartsAlive(g, cx, l) && PartsAlive(g, cx, r) && Alive(g, cx, r)
    case Interleave(l, r) =>
      PartsAlive(g, cx, l) && PartsAlive(g, cx, r) && Alive(g, cx, l) && Alive(g, cx, r)
    case OneOrMore(q) => PartsAlive(g, cx, q)
    case Ref(id) => PartsAlive(g, cx, Expand(g, id))
    case Static(q, _, _, _, _) => PartsAlive(g, cx, q)
    case _ => true
  }

  /** Strings that begin with `s` match `p`. */
  ghost predicate Begins(g: Grammar, cx: Context, p: Pattern, s: string) {
    exists ss: seq<string> :: Matches(g, cx, p, [], Strings([s] + ss))
  }

  lemma StringsJoin(ss: seq<string>, tt: seq<string>)
    ensures Strings(ss + tt) == Strings(ss) + Strings(tt)
  {
  }

  lemma BeginsBy(g: Grammar, cx: Context, p: Pattern, s: string, ss: seq<string>)
    requires Matches(g, cx, p, [], Strings([s] + ss))
    ensures Begins(g, cx, p, s)
  {
  }

  lemma GroupBegins(g: Grammar, cx: Context, l: Pattern, r: Pattern, s: string)
    requires Begins(g, cx, l, s) && Alive(g, cx, r)
    ensures Begins(g, cx, Group(l, r), s)
  {
    var ss: seq<string> :| Matches(g, cx, l, [], Strings([s] + ss));
    var tt: seq<string> :| Matches(g, cx, r, [], Strings(tt));
    StringsJoin([s] + ss, tt);
    assert [s] + ss + tt == [s] + (ss + tt);
    var h := Share([], [], Strings([s] + ss), Strings(tt));
    assert InSequence([], Strings([s] + (ss + tt)), h);
    assert Matches(g, cx, l, h.a1, h.m1) && Matches(g, cx, r, h.a2, h.m2);
    BeginsBy(g, cx, Group(l, r), s, ss + tt);
  }

  lemma GroupBeginsLater(g: Grammar, cx: Context, l: Pattern, r: Pattern, s: string)
    requires Matches(g, cx, l, [], []) && Begins(g, cx, r, s)
    ensures Begins(g, cx, Group(l, r), s)
  {
    var ss: seq<string> :| Matches(g, cx, r, [], Strings([s] + ss));
    assert InSequence([], Strings([s] + ss), Share([], [], [], Strings([s] + ss)));
    BeginsBy(g, cx, Group(l, r), s, ss);
  }

  lemma InterleaveBegins(g: Grammar, cx: Context, l: Pattern, r: Pattern, s: string)
    requires Begins(g, cx, l, s) && Alive(g, cx, r)
    ensures Begins(g, cx, Interleave(l, r), s) && Begins(g, cx, Interleave(r, l), s)
  {
    var ss: seq<string> :| Matches(g, cx, l, [], Strings([s] + ss));
    var tt: seq<string> :| Matches(g, cx, r, [], Strings(tt));
    var (u, v) := (Strings([s] + ss), Strings(tt));
    StringsJoin([s] + ss, tt);
    assert [s] + ss + tt == [s] + (ss + tt);
    ShuffleAppend(u, v);
    ShuffleSwap(u + v, u, v);
    assert Interleaved([], u + v, Share([], [], u, v));
    assert Interleaved([], u + v, Share([], [], v, u));
    BeginsBy(g, cx, Interleave(l, r), s, ss + tt);
    BeginsBy(g, cx, Interleave(r, l), s, ss + tt);
  }

  lemma RepeatBegins(g: Grammar, cx: Context, q: Pattern, s: string)
    requires Begins(g, cx, q, s)
    ensures Begins(g, cx, OneOrMore(q), s)
  {
    var ss: seq<string> :| Matches(g, cx, q, [], Strings([s] + ss));
    assert Repeats(g, cx, q, 1, [], Strings([s] + ss));
    BeginsBy(g, cx, OneOrMore(q), s, ss);
  }

  /** What is left of a leaf is nothing more, or there is nothing to match. */
  lemma LeafBegins(g: Grammar, cx: Context, p: Pattern, s: string)
    requires SchemaGrammar(g) && Schema(g, p) && (p.Text? || p.Value? || p.Data? || p.List?)
    requires TextDeriv(g, p, s, cx) != NotAllowed
    ensures Begins(g, cx, p, s)
  {
    TextExact(g, cx, p, s, []);
    assert [Str(s)] + [] == Strings([s] + []);
    assert Matches(g, cx, TextDeriv(g, p, s, cx), [], []);
    BeginsBy(g, cx, p, s, []);
  }

  /** Something is left after a string exactly when strings beginning with it match. */
  lemma {:induction false} LeftIffBegins(g: Grammar, cx: Context, p: Pattern, s: string)
    requires SchemaGrammar(g) && Schema(g, p) && PartsAlive(g, cx, p)
    ensures TextDeriv(g, p, s, cx) != NotAllowed <==> Begins(g, cx, p, s)
  {
    if TextDeriv(g, p, s, cx) != NotAllowed { LeftBegins(g, cx, p, s); }
    if ss: seq<string> :| Matches(g, cx, p, [], Strings([s] + ss)) {
      assert Strings([s] + ss) == [Str(s)] + Strings(ss);
      TextExact(g, cx, p, s, Strings(ss));
    }
  }

  lemma {:induction false} LeftBegins(g: Grammar, cx: Context, p: Pattern, s: string)
    requires SchemaGrammar(g) && Schema(g, p) && PartsAlive(g, cx, p)
    requires TextDeriv(g, p, s, cx) != NotAllowed
    ensures Begins(g, cx, p, s)
    decreases Depth(g, p), 1
  {
    match p
    case Choice(l, r) => ChoiceLeft(g, cx, l, r, s);
    case Group(l, r) => GroupLeft(g, cx, l, r, s);
    case Interleave(l, r) => InterleaveLeft(g, cx, l, r, s);
    case OneOrMore(q) =>
      LeftBegins(g, cx, q, s);
      RepeatBegins(g, cx, q, s);
    case Ref(id) =>
      LeftBegins(g, cx, Expand(g, id), s);
      var ss: seq<string> :| Matches(g, cx, Expand(g, id), [], Strings([s] + ss));
      BeginsBy(g, cx, p, s, ss);
    case Static(q, _, _, _, _) =>
      LeftBegins(g, cx, q, s);
      var ss: seq<string> :| Matches(g, cx, q, [], Strings([s] + ss));
      BeginsBy(g, cx, p, s, ss);
    case _ => LeafBegins(g, cx, p, s);
  }

  lemma {:induction false} ChoiceLeft(g: Grammar, cx: Context, l: Pattern, r: Pattern, s: string)
    requires SchemaGrammar(g) && Schema(g, Choice(l, r)) && PartsAlive(g, cx, Choice(l, r))
    requires TextDeriv(g, Choice(l, r), s, cx) != NotAllowed
    ensures Begins(g, cx, Choice(l, r), s)
    decreases Depth(g, Choice(l, r)), 0
  {
    var q := if TextDeriv(g, l, s, cx) != NotAllowed then l else r;
    LeftBegins(g, cx, q, s);
    var ss: seq<string> :| Matches(g, cx, q, [], Strings([s] + ss));
    BeginsBy(g, cx, Choice(l, r), s, ss);
  }

  lemma {:induction false} GroupLeft(g: Grammar, cx: Context, l: Pattern, r: Pattern, s: string)
    requires SchemaGrammar(g) && Schema(g, Group(l, r)) && PartsAlive(g, cx, Group(l, r))
    requires TextDeriv(g, Group(l, r), s, cx) != NotAllowed
    ensures Begins(g, cx, Group(l, r), s)
    decreases Depth(g, Group(l, r)), 0
  {
    if TextDeriv(g, l, s, cx) != NotAllowed {
      LeftBegins(g, cx, l, s);
      GroupBegins(g, cx, l, r, s);
    } else {
      NullableExact(g, cx, l);
      LeftBegins(g, cx, r, s);
      GroupBeginsLater(g, cx, l, r, s);
    }
  }

  lemma {:induction false} InterleaveLeft(g: Grammar, cx: Context, l: Pattern, r: Pattern, s: string)
    requires SchemaGrammar(g) && Schema(g, Interleave(l, r)) && PartsAlive(g, cx, Interleave(l, r))
    requires TextDeriv(g, Interleave(l, r), s, cx) != NotAllowed
    ensures Begins(g, cx, Interleave(l, r), s)
    decreases Depth(g, Interleave(l, r)), 0
  {
    if TextDeriv(g, l, s, cx) != NotAllowed {
      LeftBegins(g, cx, l, s);
      InterleaveBegins(g, cx, l, r, s);
    } else {
      LeftBegins(g, cx, r, s);
      InterleaveBegins(g, cx, r, l, s);
    }
  }

  /** Longer sequences of strings that begin with `s` match `v`. */
  ghost predicate WantsMore(g: Grammar, cx: Context, v: Pattern, s: string) {
    exists t: string, ss: seq<string> :: Matches(g, cx, v, [], Strings([s, t] + ss))
  }

  lemma BeginsIs(g: Grammar, cx: Context, v: Pattern, s: string)
    ensures Begins(g, cx, v, s) <==> Matches(g, cx, v, [], Strings([s])) || WantsMore(g, cx, v, s)
  {
    if ss: seq<string> :| Matches(g, cx, v, [], Strings([s] + ss)) {
      if ss == [] { assert [s] + ss == [s]; } else { assert [s] + ss == [s, ss[0]] + ss[1..]; }
    }
    if Matches(g, cx, v, [], Strings([s])) { OneBegins(g, cx, v, s); }
    if WantsMore(g, cx, v, s) { MoreBegins(g, cx, v, s); }
  }

  lemma OneBegins(g: Grammar, cx: Context, v: Pattern, s: string)
    requires Matches(g, cx, v, [], Strings([s]))
    ensures Begins(g, cx, v, s)
  {
    assert [s] + [] == [s];
    BeginsBy(g, cx, v, s, []);
  }

  lemma MoreBegins(g: Grammar, cx: Context, v: Pattern, s: string)
    requires WantsMore(g, cx, v, s)
    ensures Begins(g, cx, v, s)
  {
    var t: string, ss: seq<string> :| Matches(g, cx, v, [], Strings([s, t] + ss));
    assert [s, t] + ss == [s] + ([t] + ss);
    BeginsBy(g, cx, v, s, [t] + ss);
  }

  /** The test errs on a value exactly when the content does not match it and matches a
      longer sequence of strings beginning with it. */
  lemma ErrsExactly(g: Grammar, cx: Context, v: Pattern, s: string)
    requires SchemaGrammar(g) && Schema(g, v) && PartsAlive(g, cx, v)
    ensures ValueMatch(g, v, s, cx) != ValueReadAs(g, cx, v, s)
       <==> !ValueReadAs(g, cx, v, s) && WantsMore(g, cx, v, s)
  {
    ValueMatchExact(g, cx, v, s);
    LeftIffBegins(g, cx, v, s);
    NullableExact(g, cx, v);
    BeginsIs(g, cx, v, s);
  }

  /** So every value is tested rightly exactly when whatever begins a match is one. */
  lemma AlwaysRight(g: Grammar, cx: Context, v: Pattern)
    requires SchemaGrammar(g) && Schema(g, v) && PartsAlive(g, cx, v)
    ensures (forall s :: ValueMatch(g, v, s, cx) == ValueReadAs(g, cx, v, s))
       <==> forall s :: WantsMore(g, cx, v, s) ==> ValueReadAs(g, cx, v, s)
  {
    forall s ensures ValueMatch(g, v, s, cx) == ValueReadAs(g, cx, v, s)
                <==> (WantsMore(g, cx, v, s) ==> ValueReadAs(g, cx, v, s)) {
      ErrsExactly(g, cx, v, s);
    }
  }
}
