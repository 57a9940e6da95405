/** What a grammar of the XML syntax means, by the cases of its own patterns, and that what
    it is compiled to means the same. */
module GrammarMeaning {
  import opened Basics
  import opened RelaxSyntax
  import opened RelaxLanguage
  import opened RelaxLaws
  import opened RelaxLanguages
  import opened RelaxRun
  import RelaxValidator
  import opened RelaxBounds
  import opened References
  import opened GrammarWalk
  import opened GrammarCheck
  import opened GrammarTheorems
  import opened GrammarExact
  import opened GrammarSchema
  import opened GrammarRestrictions

  // ---- grammars as written -----------------------------------------------

  /** Definitions, ranked so that those one refers to without an element are lower. */
  datatype RawSource = RawSource(defs: Defs, rank: map<nat, nat>, lib: Library)

  /** One more than the highest rank a pattern refers to before an element. */
  function SLevel(rank: map<nat, nat>, src: Source): nat
    decreases src, 0
  {
    match src
    case SRef(n) => RankOf(rank, n)
    case SLeaf(_) => 0
    case SElement(_, _) => 0
    case _ => SLevelOf(rank, src.kids)
  }

  function SLevelOf(rank: map<nat, nat>, kids: seq<Source>): nat
    decreases kids, 1
  {
    if kids == [] then 0 else Max(SLevelOf(rank, kids[..|kids| - 1]), SLevel(rank, kids[|kids| - 1]))
  }

  ghost predicate RankedSource(s: RawSource) {
    forall n | n in s.defs :: SLevelOf(s.rank, s.defs[n].bodies) < RankOf(s.rank, n)
  }

  type SourceGrammar = s: RawSource | RankedSource(s)
    witness RawSource(map[], map[],
      Library(t => false, (t, s, ps) => false, (t, s, ps, c) => false,
              (t, v, s) => false, (t, v, c, s, d) => false))

  lemma OneLevel(rank: map<nat, nat>, kid: Source)
    ensures SLevelOf(rank, [kid]) == SLevel(rank, kid)
  {
    assert [kid][..0] == [];
  }

  // ---- what they mean ----------------------------------------------------

  /** A string of a datatype, which may be asked with the bindings in force. */
  predicate OfType(lib: Library, ty: nat, params: seq<Param>, cx: Context, m: seq<Item>) {
    && |m| == 1 && m[0].Str?
    && if lib.contextual(ty) then lib.checkIn(ty, m[0].s, params, cx) else lib.check(ty, m[0].s, params)
  }

  predicate LeafMatches(lib: Library, l: Leaf, cx: Context, a: seq<Attr>, m: seq<Item>) {
    && a == []
    && match l
       case LEmpty => m == []
       case LNotAllowed => false
       case LText => forall x | x in m :: x.Str?
       case LData(ty, ps) => OfType(lib, ty, ps, cx, m)
       case LValue(ty, v, scope) =>
         && |m| == 1 && m[0].Str?
         && if lib.contextual(ty) then lib.equalIn(ty, v, scope, m[0].s, cx) else lib.equal(ty, v, m[0].s)
  }

  /** Attributes `a` and content `m`, with bindings `cx`, are what `src` asks for. */
  ghost predicate SMatches(sg: SourceGrammar, cx: Context, src: Source, a: seq<Attr>, m: seq<Item>)
    decreases Weight(m), SLevel(sg.rank, src), src, 0, 0
  {
    match src
    case SLeaf(l) => LeafMatches(sg.lib, l, cx, a, m)
    case SRef(n) => n in sg.defs && SJoined(sg, cx, sg.defs[n].join, sg.defs[n].bodies, a, m)
    case SElement(name, kids) =>
      && a == [] && |m| == 1 && m[0].Elem? && name.Contains(m[0].tag)
      && exists k :: ReadAs(m[0].kids, k) && (ReadAsWeight(m, k);
           SJoined(sg, m[0].cx, ByGroup, kids, m[0].attrs, k))
    case SAttribute(name, kids) =>
      && m == [] && |a| == 1 && name.Contains(a[0].name)
      && (kids == [] || ValueMatches(sg, cx, kids, a[0].value))
    case SGroup(kids) => SJoined(sg, cx, ByGroup, kids, a, m)
    case SInterleave(kids) => SJoined(sg, cx, ByInterleave, kids, a, m)
    case SChoice(kids) => SJoined(sg, cx, ByChoice, kids, a, m)
    case SOptional(kids) => (a == [] && m == []) || SJoined(sg, cx, ByGroup, kids, a, m)
    case SZeroOrMore(kids) => (a == [] && m == []) || SMany(sg, cx, kids, a, m)
    case SOneOrMore(kids) => SMany(sg, cx, kids, a, m)
    case SMixed(kids) =>
      exists h :: Interleaved(a, m, h) && (ShareWeight(a, m, h);
        h.a1 == [] && AllStr(h.m1) && SJoined(sg, cx, ByGroup, kids, h.a2, h.m2))
    case SList(kids) =>
      && a == [] && |m| == 1 && m[0].Str?
      && (StringsWeight(SplitTokens(m[0].s));
          SJoined(sg, cx, ByGroup, kids, [], Strings(SplitTokens(m[0].s))))
    case SExcept(ty, ps, kids) =>
      a == [] && OfType(sg.lib, ty, ps, cx, m) && !SJoined(sg, cx, ByChoice, kids, [], m)
  }

  /** The value of an attribute, which may be read as nothing if it is blank. */
  ghost predicate ValueMatches(sg: SourceGrammar, cx: Context, kids: seq<Source>, v: string)
    decreases 0, SLevelOf(sg.rank, kids), kids, 2, 0
  {
    StringsWeight([v]);
    || SJoined(sg, cx, ByGroup, kids, [], Strings([v]))
    || (WhitespaceOnly(v) && SJoined(sg, cx, ByGroup, kids, [], []))
  }

  /** Several patterns: a choice of them, or all of them in order or in any. */
  ghost predicate SJoined(sg: SourceGrammar, cx: Context, j: Joiner, kids: seq<Source>, a: seq<Attr>, m: seq<Item>)
    decreases Weight(m), SLevelOf(sg.rank, kids), kids, 1, 0
  {
    if kids == [] then false
    else if |kids| == 1 then OneLevel(sg.rank, kids[0]); assert kids == [kids[0]]; SMatches(sg, cx, kids[0], a, m)
    else
      var (init, last) := (kids[..|kids| - 1], kids[|kids| - 1]);
      match j
      case ByChoice => SJoined(sg, cx, j, init, a, m) || SMatches(sg, cx, last, a, m)
      case ByGroup =>
        exists h :: InSequence(a, m, h) && (ShareWeight(a, m, h);
          SJoined(sg, cx, j, init, h.a1, h.m1) && SMatches(sg, cx, last, h.a2, h.m2))
      case ByInterleave =>
        exists h :: Interleaved(a, m, h) && (ShareWeight(a, m, h);
          SJoined(sg, cx, j, init, h.a1, h.m1) && SMatches(sg, cx, last, h.a2, h.m2))
  }

  /** Once or more. */
  ghost predicate SMany(sg: SourceGrammar, cx: Context, kids: seq<Source>, a: seq<Attr>, m: seq<Item>)
    decreases Weight(m), SLevelOf(sg.rank, kids), kids, 3, 0
  {
    exists n: nat :: n >= 1 && STimes(sg, cx, kids, n, a, m)
  }

  /** `n` times, one after another. */
  ghost predicate STimes(sg: SourceGrammar, cx: Context, kids: seq<Source>, n: nat, a: seq<Attr>, m: seq<Item>)
    requires n >= 1
    decreases Weight(m), SLevelOf(sg.rank, kids), kids, 2, n
  {
    if n == 1 then SJoined(sg, cx, ByGroup, kids, a, m)
    else exists h :: InSequence(a, m, h) && (ShareWeight(a, m, h);
           SJoined(sg, cx, ByGroup, kids, h.a1, h.m1) && STimes(sg, cx, kids, n - 1, h.a2, h.m2))
  }

  // ---- the compiled grammar means the same -------------------------------

  /** What is compiled of each definition is its pattern, and references find it. */
  ghost predicate Fits(sg: SourceGrammar, done: Done, g: Grammar) {
    sg.lib == g.lib && forall n | n in sg.defs && n in done :: DefinitionFits(sg, done, g, n)
  }

  ghost predicate DefinitionFits(sg: SourceGrammar, done: Done, g: Grammar, n: nat)
    requires n in sg.defs && n in done
  {
    && MadeAll(done, sg.defs[n].join, sg.defs[n].bodies, done[n].body)
    && done[n].pat == SharedPattern(n, done[n].body)
    && Expand(g, Shared(n)) == done[n].body && Expand(g, Lazy(n)) == done[n].pat
    && Known(sg, done, AllRefsOf(sg.defs[n].bodies))
  }

  predicate Known(sg: SourceGrammar, done: Done, names: set<nat>) {
    names <= sg.defs.Keys && names <= done.Keys
  }

  lemma LeafSame(g: Grammar, l: Leaf, cx: Context, a: seq<Attr>, m: seq<Item>)
    ensures LeafMatches(g.lib, l, cx, a, m) <==> Matches(g, cx, LeafPattern(l), a, m)
  {
    if l.LText? {
      assert AllStr(m) <==> forall x | x in m :: x.Str? by {
        if AllStr(m) { forall x | x in m ensures x.Str? { var i :| 0 <= i < |m| && m[i] == x; assert IsStr(m[i]); } }
      }
    }
  }

  /** A reference stands for the definition's pattern, resolved at once or later. */
  lemma RefMeans(sg: SourceGrammar, done: Done, g: Grammar, n: nat, p: Pattern, cx: Context, a: seq<Attr>, m: seq<Item>)
    requires n in sg.defs && n in done && DefinitionFits(sg, done, g, n)
    requires p == Ref(Lazy(n)) || p == done[n].pat
    ensures Matches(g, cx, p, a, m) <==> Matches(g, cx, done[n].body, a, m)
  {
    var b := done[n].body;
    assert Matches(g, cx, done[n].pat, a, m) <==> Matches(g, cx, b, a, m);
  }

  lemma {:induction false} Same(sg: SourceGrammar, done: Done, g: Grammar, cx: Context, src: Source, p: Pattern,
                                a: seq<Attr>, m: seq<Item>)
    requires Fits(sg, done, g) && Made(done, src, p) && Known(sg, done, AllRefs(src))
    ensures SMatches(sg, cx, src, a, m) <==> Matches(g, cx, p, a, m)
    decreases Weight(m), SLevel(sg.rank, src), src, 2
  {
    if src.SLeaf? {
      LeafSame(g, src.leaf, cx, a, m);
    } else if src.SRef? {
      var n := src.to;
      assert n in AllRefs(src) && DefinitionFits(sg, done, g, n);
      JoinedSame(sg, done, g, cx, sg.defs[n].join, sg.defs[n].bodies, done[n].body, a, m);
      RefMeans(sg, done, g, n, p, cx, a, m);
    } else if src.SAttribute? && src.kids == [] {
      AnyValue(g, cx, src.name, a, m);
    } else {
      var q :| MadeAll(done, JoinerOf(src), src.kids, q) && p == Build(src, q);
      InnerSame(sg, done, g, cx, src, q, a, m);
    }
  }

  lemma AnyValue(g: Grammar, cx: Context, name: NameClass, a: seq<Attr>, m: seq<Item>)
    ensures Matches(g, cx, Attribute(name, Text), a, m)
       <==> m == [] && |a| == 1 && name.Contains(a[0].name)
  {
    if |a| == 1 { assert Matches(g, cx, Text, [], Strings([a[0].value])); }
  }

  lemma {:induction false} InnerSame(sg: SourceGrammar, done: Done, g: Grammar, cx: Context, src: Source, q: Pattern,
                                     a: seq<Attr>, m: seq<Item>)
    requires Fits(sg, done, g) && !src.SRef? && !src.SLeaf? && src.kids != []
    requires MadeAll(done, JoinerOf(src), src.kids, q) && Known(sg, done, AllRefsOf(src.kids))
    ensures SMatches(sg, cx, src, a, m) <==> Matches(g, cx, Build(src, q), a, m)
    decreases Weight(m), SLevel(sg.rank, src), src, 1
  {
    if src.SElement? {
      ElementInner(sg, done, g, cx, src, q, a, m);
    } else if src.SAttribute? {
      AttributeInner(sg, done, g, cx, src, q, a, m);
    } else if src.SMixed? {
      MixedInner(sg, done, g, cx, src, q, a, m);
    } else if src.SList? {
      ListInner(sg, done, g, cx, src, q, a, m);
    } else if src.SExcept? {
      ExceptInner(sg, done, g, cx, src, q, a, m);
    } else if src.SZeroOrMore? || src.SOneOrMore? {
      ManySame(sg, done, g, cx, src.kids, q, a, m);
      if src.SZeroOrMore? { OrNothing(g, cx, MkOneOrMore(q), a, m); }
    } else {
      JoinedSame(sg, done, g, cx, JoinerOf(src), src.kids, q, a, m);
      if src.SOptional? { OrNothing(g, cx, q, a, m); }
    }
  }

  lemma {:induction false} ElementInner(sg: SourceGrammar, done: Done, g: Grammar, cx: Context, src: Source, q: Pattern,
                                        a: seq<Attr>, m: seq<Item>)
    requires Fits(sg, done, g) && src.SElement?
    requires MadeAll(done, ByGroup, src.kids, q) && Known(sg, done, AllRefsOf(src.kids))
    ensures SMatches(sg, cx, src, a, m) <==> Matches(g, cx, Element(src.name, q), a, m)
    decreases Weight(m), SLevel(sg.rank, src), src, 0
  {
    if |m| == 1 && m[0].Elem? {
      forall k | ReadAs(m[0].kids, k)
        ensures SJoined(sg, m[0].cx, ByGroup, src.kids, m[0].attrs, k) <==> Matches(g, m[0].cx, q, m[0].attrs, k)
      {
        ReadAsWeight(m, k);
        JoinedSame(sg, done, g, m[0].cx, ByGroup, src.kids, q, m[0].attrs, k);
      }
    }
    ElementSame(sg, g, cx, src.name, src.kids, q, a, m);
  }

  lemma {:induction false} AttributeInner(sg: SourceGrammar, done: Done, g: Grammar, cx: Context, src: Source,
                                          q: Pattern, a: seq<Attr>, m: seq<Item>)
    requires Fits(sg, done, g) && src.SAttribute? && src.kids != []
    requires MadeAll(done, ByGroup, src.kids, q) && Known(sg, done, AllRefsOf(src.kids))
    ensures SMatches(sg, cx, src, a, m) <==> Matches(g, cx, Attribute(src.name, q), a, m)
    decreases Weight(m), SLevel(sg.rank, src), src, 0
  {
    if |a| == 1 && m == [] {
      StringsWeight([a[0].value]);
      JoinedSame(sg, done, g, cx, ByGroup, src.kids, q, [], Strings([a[0].value]));
      JoinedSame(sg, done, g, cx, ByGroup, src.kids, q, [], []);
    }
  }

  lemma {:induction false} MixedInner(sg: SourceGrammar, done: Done, g: Grammar, cx: Context, src: Source, q: Pattern,
                                      a: seq<Attr>, m: seq<Item>)
    requires Fits(sg, done, g) && src.SMixed?
    requires MadeAll(done, ByGroup, src.kids, q) && Known(sg, done, AllRefsOf(src.kids))
    ensures SMatches(sg, cx, src, a, m) <==> Matches(g, cx, MkInterleave(Text, q), a, m)
    decreases Weight(m), SLevel(sg.rank, src), src, 0
  {
    forall h | Interleaved(a, m, h)
      ensures SJoined(sg, cx, ByGroup, src.kids, h.a2, h.m2) <==> Matches(g, cx, q, h.a2, h.m2)
    {
      ShareWeight(a, m, h);
      JoinedSame(sg, done, g, cx, ByGroup, src.kids, q, h.a2, h.m2);
    }
    MixedSame(sg, g, cx, src.kids, q, a, m);
  }

  lemma {:induction false} ListInner(sg: SourceGrammar, done: Done, g: Grammar, cx: Context, src: Source, q: Pattern,
                                     a: seq<Attr>, m: seq<Item>)
    requires Fits(sg, done, g) && src.SList?
    requires MadeAll(done, ByGroup, src.kids, q) && Known(sg, done, AllRefsOf(src.kids))
    ensures SMatches(sg, cx, src, a, m) <==> Matches(g, cx, List(q), a, m)
    decreases Weight(m), SLevel(sg.rank, src), src, 0
  {
    if |m| == 1 && m[0].Str? {
      StringsWeight(SplitTokens(m[0].s));
      JoinedSame(sg, done, g, cx, ByGroup, src.kids, q, [], Strings(SplitTokens(m[0].s)));
    }
  }

  lemma {:induction false} ExceptInner(sg: SourceGrammar, done: Done, g: Grammar, cx: Context, src: Source, q: Pattern,
                                       a: seq<Attr>, m: seq<Item>)
    requires Fits(sg, done, g) && src.SExcept?
    requires MadeAll(done, ByChoice, src.kids, q) && Known(sg, done, AllRefsOf(src.kids))
    ensures SMatches(sg, cx, src, a, m) <==> Matches(g, cx, Data(src.ty, src.params, Some(q)), a, m)
    decreases Weight(m), SLevel(sg.rank, src), src, 0
  {
    JoinedSame(sg, done, g, cx, ByChoice, src.kids, q, [], m);
  }

  lemma OrNothing(g: Grammar, cx: Context, q: Pattern, a: seq<Attr>, m: seq<Item>)
    ensures Matches(g, cx, MkChoice(q, Empty), a, m) <==> (a == [] && m == []) || Matches(g, cx, q, a, m)
  {
    ChoiceLaw(g, cx, q, Empty, a, m);
  }

  lemma ElementSame(sg: SourceGrammar, g: Grammar, cx: Context, name: NameClass, kids: seq<Source>, q: Pattern,
                    a: seq<Attr>, m: seq<Item>)
    requires |m| == 1 && m[0].Elem? ==> forall k | ReadAs(m[0].kids, k) ::
      SJoined(sg, m[0].cx, ByGroup, kids, m[0].attrs, k) <==> Matches(g, m[0].cx, q, m[0].attrs, k)
    ensures SMatches(sg, cx, SElement(name, kids), a, m) <==> Matches(g, cx, Element(name, q), a, m)
  {
  }

  lemma MixedSame(sg: SourceGrammar, g: Grammar, cx: Context, kids: seq<Source>, q: Pattern, a: seq<Attr>, m: seq<Item>)
    requires forall h | Interleaved(a, m, h) ::
      SJoined(sg, cx, ByGroup, kids, h.a2, h.m2) <==> Matches(g, cx, q, h.a2, h.m2)
    ensures SMatches(sg, cx, SMixed(kids), a, m) <==> Matches(g, cx, MkInterleave(Text, q), a, m)
  {
    InterleaveLaw(g, cx, Text, q, a, m);
    InterleaveIs(g, cx, Text, q, a, m);
    if SMatches(sg, cx, SMixed(kids), a, m) {
      var h :| Interleaved(a, m, h) && h.a1 == [] && AllStr(h.m1) && SJoined(sg, cx, ByGroup, kids, h.a2, h.m2);
      assert LangOf(g, cx, Text)(h.a1, h.m1) && LangOf(g, cx, q)(h.a2, h.m2);
    }
    if InInterleave(LangOf(g, cx, Text), LangOf(g, cx, q), a, m) {
      var h :| Interleaved(a, m, h) && LangOf(g, cx, Text)(h.a1, h.m1) && LangOf(g, cx, q)(h.a2, h.m2);
      assert h.a1 == [] && AllStr(h.m1) && SJoined(sg, cx, ByGroup, kids, h.a2, h.m2);
    }
  }

  lemma ManyTimes(sg: SourceGrammar, cx: Context, kids: seq<Source>, a: seq<Attr>, m: seq<Item>)
    requires SMany(sg, cx, kids, a, m)
    ensures exists n: nat :: n >= 1 && STimes(sg, cx, kids, n, a, m)
  {
  }

  lemma {:induction false} ManySame(sg: SourceGrammar, done: Done, g: Grammar, cx: Context, kids: seq<Source>,
                                    q: Pattern, a: seq<Attr>, m: seq<Item>)
    requires Fits(sg, done, g) && MadeAll(done, ByGroup, kids, q) && Known(sg, done, AllRefsOf(kids))
    ensures SMany(sg, cx, kids, a, m) <==> Matches(g, cx, MkOneOrMore(q), a, m)
    decreases Weight(m), SLevelOf(sg.rank, kids), kids, 3
  {
    OneOrMoreLaw(g, cx, q, a, m);
    forall n: nat | n >= 1 ensures STimes(sg, cx, kids, n, a, m) <==> Repeats(g, cx, q, n, a, m) {
      TimesSame(sg, done, g, cx, kids, q, n, a, m);
    }
    if SMany(sg, cx, kids, a, m) {
      ManyTimes(sg, cx, kids, a, m);
      var n: nat :| n >= 1 && STimes(sg, cx, kids, n, a, m);
      assert Repeats(g, cx, q, n, a, m);
    }
    if Matches(g, cx, OneOrMore(q), a, m) {
      var n: nat :| n >= 1 && Repeats(g, cx, q, n, a, m);
      assert STimes(sg, cx, kids, n, a, m);
    }
  }

  lemma {:induction false} TimesSame(sg: SourceGrammar, done: Done, g: Grammar, cx: Context, kids: seq<Source>,
                                     q: Pattern, n: nat, a: seq<Attr>, m: seq<Item>)
    requires Fits(sg, done, g) && MadeAll(done, ByGroup, kids, q) && Known(sg, done, AllRefsOf(kids)) && n >= 1
    ensures STimes(sg, cx, kids, n, a, m) <==> Repeats(g, cx, q, n, a, m)
    decreases Weight(m), SLevelOf(sg.rank, kids), kids, 2, n
  {
    if n == 1 {
      JoinedSame(sg, done, g, cx, ByGroup, kids, q, a, m);
    } else {
      forall h | InSequence(a, m, h)
        ensures SJoined(sg, cx, ByGroup, kids, h.a1, h.m1) <==> Matches(g, cx, q, h.a1, h.m1)
        ensures STimes(sg, cx, kids, n - 1, h.a2, h.m2) <==> Repeats(g, cx, q, n - 1, h.a2, h.m2)
      {
        ShareWeight(a, m, h);
        JoinedSame(sg, done, g, cx, ByGroup, kids, q, h.a1, h.m1);
        TimesSame(sg, done, g, cx, kids, q, n - 1, h.a2, h.m2);
      }
    }
  }

  lemma {:induction false} JoinedSame(sg: SourceGrammar, done: Done, g: Grammar, cx: Context, j: Joiner,
                                      kids: seq<Source>, p: Pattern, a: seq<Attr>, m: seq<Item>)
    requires Fits(sg, done, g) && MadeAll(done, j, kids, p) && Known(sg, done, AllRefsOf(kids))
    ensures SJoined(sg, cx, j, kids, a, m) <==> Matches(g, cx, p, a, m)
    decreases Weight(m), SLevelOf(sg.rank, kids), kids, 1
  {
    if |kids| == 1 {
      OneLevel(sg.rank, kids[0]);
      assert kids == [kids[0]];
      OnlyKid(kids);
      Same(sg, done, g, cx, kids[0], p, a, m);
    } else {
      var (init, last) := (kids[..|kids| - 1], kids[|kids| - 1]);
      var x, y :| MadeOf(done, j, kids, x, y) && p == Join(j, x, y);
      if j == ByChoice {
        JoinedSame(sg, done, g, cx, j, init, x, a, m);
        Same(sg, done, g, cx, last, y, a, m);
        ChoiceLaw(g, cx, x, y, a, m);
      } else {
        forall h | InSequence(a, m, h) || Interleaved(a, m, h)
          ensures SJoined(sg, cx, j, init, h.a1, h.m1) <==> Matches(g, cx, x, h.a1, h.m1)
          ensures SMatches(sg, cx, last, h.a2, h.m2) <==> Matches(g, cx, y, h.a2, h.m2)
        {
          ShareWeight(a, m, h);
          JoinedSame(sg, done, g, cx, j, init, x, h.a1, h.m1);
          Same(sg, done, g, cx, last, y, h.a2, h.m2);
        }
        PairSame(sg, g, cx, j, kids, x, y, a, m);
      }
    }
  }

  lemma PairSame(sg: SourceGrammar, g: Grammar, cx: Context, j: Joiner, kids: seq<Source>, x: Pattern, y: Pattern,
                 a: seq<Attr>, m: seq<Item>)
    requires |kids| > 1 && j != ByChoice
    requires forall h | InSequence(a, m, h) || Interleaved(a, m, h) ::
      && (SJoined(sg, cx, j, kids[..|kids| - 1], h.a1, h.m1) <==> Matches(g, cx, x, h.a1, h.m1))
      && (SMatches(sg, cx, kids[|kids| - 1], h.a2, h.m2) <==> Matches(g, cx, y, h.a2, h.m2))
    ensures SJoined(sg, cx, j, kids, a, m) <==> Matches(g, cx, Join(j, x, y), a, m)
  {
    if j == ByGroup { GroupLaw(g, cx, x, y, a, m); } else { InterleaveLaw(g, cx, x, y, a, m); }
  }

  // ---- compiled grammars -------------------------------------------------

  /** The definitions of `sg` are the grammar's, and there is one for each reference. */
  ghost predicate Covers(sg: SourceGrammar, defs: Defs, starts: seq<Source>) {
    && (forall n | n in sg.defs :: n in defs && sg.defs[n] == defs[n] && AllRefsOf(defs[n].bodies) <= sg.defs.Keys)
    && AllRefsOf(starts) <= sg.defs.Keys
  }

  lemma CompiledFits(defs: Defs, j: Joiner, starts: seq<Source>, g: Grammar, start: Pattern, sg: SourceGrammar)
    requires CompiledTo(defs, j, starts, g, start) && Covers(sg, defs, starts) && sg.lib == g.lib
    ensures var done := CompileGrammar(defs, j, starts).state.compiled;
            Fits(sg, done, g) && MadeAll(done, j, starts, start) && Known(sg, done, AllRefsOf(starts))
  {
    var s := CompileGrammar(defs, j, starts).state;
    CompiledIsTranslated(defs, j, starts);
    SuccessRecords(defs, j, starts);
    forall n | n in sg.defs && n in s.compiled ensures DefinitionFits(sg, s.compiled, g, n) {
      ExpandIs(defs, s, g, n);
      assert Next(Edges(defs), n) == AllRefsOf(defs[n].bodies);
    }
  }

  lemma ExpandIs(defs: Defs, s: State, g: Grammar, n: nat)
    requires g == Resolved(defs, s, g.lib) && n in s.compiled
    ensures Expand(g, Shared(n)) == s.compiled[n].body && Expand(g, Lazy(n)) == s.compiled[n].pat
  {
    assert Shared(n) / 2 == n && Shared(n) % 2 == 0 && Lazy(n) / 2 == n && Lazy(n) % 2 == 1;
    assert Shared(n) in Ids(s) && Lazy(n) in Ids(s);
  }

  /** Of every grammar that compiles: what the compiled start matches is what the start
      patterns, as written, ask for. */
  lemma CompiledMeans(defs: Defs, j: Joiner, starts: seq<Source>, g: Grammar, start: Pattern, sg: SourceGrammar,
                      cx: Context, a: seq<Attr>, m: seq<Item>)
    requires CompiledTo(defs, j, starts, g, start) && Covers(sg, defs, starts) && sg.lib == g.lib
    ensures Matches(g, cx, start, a, m) <==> SJoined(sg, cx, j, starts, a, m)
  {
    CompiledFits(defs, j, starts, g, start, sg);
    JoinedSame(sg, CompileGrammar(defs, j, starts).state.compiled, g, cx, j, starts, start, a, m);
  }

  // ---- ranks -------------------------------------------------------------

  lemma {:induction false} SLevelBelow(rank: map<nat, nat>, src: Source, bound: nat)
    requires forall m | m in BareRefs(src) :: RankOf(rank, m) <= bound
    ensures SLevel(rank, src) <= bound
    decreases src, 0
  {
    if !src.SRef? && !src.SLeaf? && !src.SElement? { SLevelOfBelow(rank, src.kids, bound); }
  }

  lemma {:induction false} SLevelOfBelow(rank: map<nat, nat>, kids: seq<Source>, bound: nat)
    requires forall m | m in BareRefsOf(kids) :: RankOf(rank, m) <= bound
    ensures SLevelOf(rank, kids) <= bound
    decreases kids, 1
  {
    if kids != [] {
      SLevelOfBelow(rank, kids[..|kids| - 1], bound);
      SLevelBelow(rank, kids[|kids| - 1], bound);
    }
  }

  /** A grammar that compiles can be ranked as written, where no definition is on both kinds
      of cycle. */
  lemma SourceExists(defs: Defs, j: Joiner, starts: seq<Source>, lib: Library) returns (sg: SourceGrammar)
    requires OneWay(defs) && CompileGrammar(defs, j, starts).result.Ok?
    ensures Covers(sg, defs, starts) && sg.lib == lib
  {
    var s := CompileGrammar(defs, j, starts).state;
    SuccessRecords(defs, j, starts);
    CyclesRefused(defs, j, starts);
    var raw := RawSource(map n | n in s.compiled :: defs[n], map n | n in s.compiled :: |Below(defs, s, n)|, lib);
    forall n | n in raw.defs
      ensures SLevelOf(raw.rank, raw.defs[n].bodies) < RankOf(raw.rank, n)
      ensures AllRefsOf(defs[n].bodies) <= raw.defs.Keys
    {
      assert Next(Edges(defs), n) == AllRefsOf(defs[n].bodies);
      forall m | m in BareRefsOf(defs[n].bodies) ensures RankOf(raw.rank, m) <= |Below(defs, s, n)| {
        assert m in Next(BareEdges(defs), n) && m in s.compiled[n].bare;
        BelowShrinks(defs, s, n, m);
      }
      SLevelOfBelow(raw.rank, defs[n].bodies, |Below(defs, s, n)|);
    }
    sg := raw;
  }

  // ---- documents ---------------------------------------------------------

  /** The document element is what the start patterns, as written, ask for. */
  ghost predicate Asked(sg: SourceGrammar, j: Joiner, starts: seq<Source>, root: Node)
    requires root.ElementNode?
  {
    SJoined(sg, NO_BINDINGS, j, starts, [], [ItemOf(root)])
  }

  /** From a grammar as written to the verdict on a document: what is accepted is what the
      grammar asks for; and if it conforms to section 7 and no element but the document
      element is empty, what is refused is not. */
  method ValidateGrammar(ghost defs: Defs, ghost j: Joiner, ghost starts: seq<Source>, ghost sg: SourceGrammar,
                         g: Grammar, start: Pattern, done: set<nat>, doc: RelaxValidator.Document, maxDepth: int,
                         maxPattern: int)
    returns (out: RelaxValidator.Outcome)
    requires OneWay(defs) && Restrained(defs, starts, false) && CompiledTo(defs, j, starts, g, start)
    requires Covers(sg, defs, starts) && sg.lib == g.lib
    ensures out.NoRoot? <==> RelaxValidator.RootOf(doc).None?
    ensures out.TooBig? ==> RelaxValidator.Limit(maxPattern, RelaxValidator.DEFAULT_MAX_PATTERN) > 0
    ensures out.TooDeep? || out.Accepted? ==>
      var limit := RelaxValidator.Limit(maxDepth, RelaxValidator.DEFAULT_MAX_DEPTH);
      var n := RelaxValidator.RootOf(doc).value;
      if out.TooDeep? then 0 < limit < Height(n) else limit >= 0 ==> Height(n) <= limit
    ensures (out.Accepted? || out.Invalid?) && RelaxValidator.RootOf(doc).value.ElementNode? ==>
      var root := RelaxValidator.RootOf(doc).value;
      && (out.Accepted? ==> Asked(sg, j, starts, root))
      && (Conforms(defs, j, starts) && Filled(ItemOf(root).kids) && out.Invalid? ==> !Asked(sg, j, starts, root))
  {
    out := ValidateCompiled(defs, j, starts, g, start, done, doc, maxDepth, maxPattern);
    var root := RelaxValidator.RootOf(doc);
    if root.Some? && root.value.ElementNode? {
      CompiledMeans(defs, j, starts, g, start, sg, NO_BINDINGS, [], [ItemOf(root.value)]);
    }
  }
}
