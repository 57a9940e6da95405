/** A grammar that compiles and keeps to the restrictions of section 7 gives a schema that
    validation is right about, before and after memo points are added to it. */
module GrammarRestrictions {
  import opened RelaxSyntax
  import opened RelaxLanguage
  import opened RelaxSchema
  import opened RelaxAttribute
  import opened RelaxLaws
  import opened RelaxMemoPoints
  import opened RelaxRun
  import opened RelaxDocuments
  import RelaxBuilder
  import RelaxValidator
  import opened RelaxBounds
  import opened References
  import opened GrammarWalk
  import GrammarCheck
  import opened GrammarTheorems
  import opened GrammarExact
  import opened GrammarSchema
  import opened GrammarKinds

  // ---- the restrictions --------------------------------------------------

  /** The definitions that may stand in an except, in an attribute, among attributes in a
      group, and in a repetition. */
  datatype Names = Names(excepts: set<nat>, strings: set<nat>, free: set<nat>, flats: set<nat>)

  function NamesOf(defs: Defs): Names {
    var free := Found(NoAttribute, defs.Keys, defs);
    Names(Found(InExcept, defs.Keys, defs), Found(OneStringOnly, defs.Keys, defs), free,
          Found(NotGrouped(free), defs.Keys, defs))
  }

  ghost predicate NamesRight(ns: Names, defs: Defs) {
    && KindDefined(InExcept, ns.excepts, defs) && KindDefined(OneStringOnly, ns.strings, defs)
    && KindDefined(NotGrouped(ns.free), ns.flats, defs)
  }

  lemma NamesOfRight(defs: Defs)
    ensures NamesRight(NamesOf(defs), defs)
  {
    FoundIs(InExcept, defs);
    FoundIs(OneStringOnly, defs);
    FoundIs(NotGrouped(NamesOf(defs).free), defs);
  }

  /** Every except and every attribute in `src` holds what it may and, if `flat`, every
      repetition. */
  predicate Restricted(ns: Names, flat: bool, src: Source)
    decreases src, 0
  {
    match src
    case SRef(_) => true
    case SLeaf(_) => true
    case _ =>
      && AllRestricted(ns, flat, src.kids)
      && (src.SExcept? ==> JoinedKind(InExcept, ns.excepts, ByChoice, src.kids))
      && (src.SAttribute? && src.kids != [] ==> JoinedKind(OneStringOnly, ns.strings, ByGroup, src.kids))
      && (flat && (src.SOneOrMore? || src.SZeroOrMore?)
          ==> JoinedKind(NotGrouped(ns.free), ns.flats, ByGroup, src.kids))
  }

  predicate AllRestricted(ns: Names, flat: bool, kids: seq<Source>)
    decreases kids, 1
  {
    kids == [] || (AllRestricted(ns, flat, kids[..|kids| - 1]) && Restricted(ns, flat, kids[|kids| - 1]))
  }

  /** A grammar whose excepts, attributes and, if `flat`, repetitions hold what they may. */
  predicate Restrained(defs: Defs, starts: seq<Source>, flat: bool) {
    && (forall n | n in defs :: AllRestricted(NamesOf(defs), flat, defs[n].bodies))
    && AllRestricted(NamesOf(defs), flat, starts)
  }

  /** One that moreover starts with elements only. */
  predicate Conforms(defs: Defs, j: Joiner, starts: seq<Source>) {
    Restrained(defs, starts, true) && JoinedKind(AtStart, Found(AtStart, defs.Keys, defs), j, starts)
  }

  // ---- nothing allowed is left out ---------------------------------------

  lemma {:induction false} RestrictedMore(ns: Names, more: Names, src: Source)
    requires ns.excepts <= more.excepts && ns.strings <= more.strings && Restricted(ns, false, src)
    ensures Restricted(more, false, src)
    decreases src, 0
  {
    if !src.SRef? && !src.SLeaf? {
      AllRestrictedMore(ns, more, src.kids);
      if src.SExcept? { MoreJoined(InExcept, ns.excepts, more.excepts, ByChoice, src.kids); }
      if src.SAttribute? && src.kids != [] { MoreJoined(OneStringOnly, ns.strings, more.strings, ByGroup, src.kids); }
    }
  }

  lemma {:induction false} AllRestrictedMore(ns: Names, more: Names, kids: seq<Source>)
    requires ns.excepts <= more.excepts && ns.strings <= more.strings && AllRestricted(ns, false, kids)
    ensures AllRestricted(more, false, kids)
    decreases kids, 1
  {
    if kids != [] {
      AllRestrictedMore(ns, more, kids[..|kids| - 1]);
      RestrictedMore(ns, more, kids[|kids| - 1]);
    }
  }

  /** If any choice of definitions shows that a grammar keeps to the restrictions, those
      found do. */
  lemma FoundShows(defs: Defs, starts: seq<Source>, ns: Names)
    requires ns.excepts <= defs.Keys && KindDefined(InExcept, ns.excepts, defs)
    requires ns.strings <= defs.Keys && KindDefined(OneStringOnly, ns.strings, defs)
    requires (forall n | n in defs :: AllRestricted(ns, false, defs[n].bodies)) && AllRestricted(ns, false, starts)
    ensures Restrained(defs, starts, false)
  {
    FoundAll(InExcept, defs.Keys, defs, ns.excepts);
    FoundAll(OneStringOnly, defs.Keys, defs, ns.strings);
    forall n | n in defs ensures AllRestricted(NamesOf(defs), false, defs[n].bodies) {
      AllRestrictedMore(ns, NamesOf(defs), defs[n].bodies);
    }
    AllRestrictedMore(ns, NamesOf(defs), starts);
  }

  // ---- they hold of the patterns made ------------------------------------

  predicate Good(g: Grammar, flat: bool, p: Pattern) {
    Sound(g, p) && FlagsTrue(g, p) && (flat ==> FlatRepeats(g, p))
  }

  lemma GoodBuild(g: Grammar, flat: bool, src: Source, q: Pattern)
    requires Good(g, flat, q) && !src.SRef? && !src.SLeaf?
    requires src.SExcept? ==> ExceptLike(g, q)
    requires src.SAttribute? ==> OneString(g, q)
    requires flat && (src.SOneOrMore? || src.SZeroOrMore?) ==> AttrFlat(g, q)
    ensures Good(g, flat, Build(src, q))
  {
    var f := p => Good(g, flat, p);
    assert f(q) && f(Empty) && (src.SZeroOrMore? ==> f(MkOneOrMore(q)));
    if src.SOptional? { ChoiceKeeps(f, q, Empty); }
    if src.SZeroOrMore? { ChoiceKeeps(f, MkOneOrMore(q), Empty); }
    assert Sound(g, Build(src, q));
    assert FlagsTrue(g, Build(src, q));
    assert flat ==> FlatRepeats(g, Build(src, q));
  }

  lemma GoodPair(g: Grammar, flat: bool, j: Joiner, x: Pattern, y: Pattern)
    requires Good(g, flat, x) && Good(g, flat, y) && j != ByChoice
    ensures Good(g, flat, Join(j, x, y))
  {
  }

  lemma GoodJoin(g: Grammar, flat: bool, j: Joiner, x: Pattern, y: Pattern)
    requires Good(g, flat, x) && Good(g, flat, y)
    ensures Good(g, flat, Join(j, x, y))
  {
    if j == ByChoice { ChoiceKeeps(p => Good(g, flat, p), x, y); } else { GoodPair(g, flat, j, x, y); }
  }

  lemma {:induction false} MadeGood(defs: Defs, s: State, g: Grammar, ns: Names, flat: bool, src: Source, p: Pattern)
    requires Stands(defs, s, g) && NamesRight(ns, defs)
    requires Restricted(ns, flat, src) && Made(s.compiled, src, p) && AllRefs(src) <= s.compiled.Keys
    ensures Good(g, flat, p)
    decreases src, 1
  {
    if src.SRef? || src.SLeaf? || (src.SAttribute? && src.kids == []) {
      SimpleGood(s, g, flat, src, p);
    } else {
      var q :| MadeAll(s.compiled, JoinerOf(src), src.kids, q) && p == Build(src, q);
      AllGood(defs, s, g, ns, flat, JoinerOf(src), src.kids, q);
      BuiltGood(defs, s, g, ns, flat, src, q);
    }
  }

  lemma SimpleGood(s: State, g: Grammar, flat: bool, src: Source, p: Pattern)
    requires Made(s.compiled, src, p) && (src.SRef? || src.SLeaf? || (src.SAttribute? && src.kids == []))
    requires forall n | n in s.compiled :: s.compiled[n].pat == SharedPattern(n, s.compiled[n].body)
    ensures Good(g, flat, p)
  {
    assert Sound(g, p);
    assert FlagsTrue(g, p);
    assert FlatRepeats(g, p);
  }

  lemma BuiltGood(defs: Defs, s: State, g: Grammar, ns: Names, flat: bool, src: Source, q: Pattern)
    requires Stands(defs, s, g) && NamesRight(ns, defs)
    requires Restricted(ns, flat, src) && AllRefs(src) <= s.compiled.Keys
    requires !src.SRef? && !src.SLeaf? && src.kids != [] && MadeAll(s.compiled, JoinerOf(src), src.kids, q)
    requires Good(g, flat, q)
    ensures Good(g, flat, Build(src, q))
  {
    if src.SExcept? {
      ContentHolds(defs, s, g, InExcept, ns.excepts, ByChoice, src.kids, q);
    } else if src.SAttribute? {
      ContentHolds(defs, s, g, OneStringOnly, ns.strings, ByGroup, src.kids, q);
    } else if flat && (src.SOneOrMore? || src.SZeroOrMore?) {
      ContentHolds(defs, s, g, NotGrouped(ns.free), ns.flats, ByGroup, src.kids, q);
    }
    GoodBuild(g, flat, src, q);
  }

  lemma {:induction false} AllGood(defs: Defs, s: State, g: Grammar, ns: Names, flat: bool, j: Joiner,
                                   kids: seq<Source>, p: Pattern)
    requires Stands(defs, s, g) && NamesRight(ns, defs)
    requires AllRestricted(ns, flat, kids) && MadeAll(s.compiled, j, kids, p) && AllRefsOf(kids) <= s.compiled.Keys
    ensures Good(g, flat, p)
    decreases kids, 2
  {
    if |kids| == 1 {
      GrammarCheck.OnlyKid(kids);
      MadeGood(defs, s, g, ns, flat, kids[0], p);
    } else {
      var x, y :| MadeOf(s.compiled, j, kids, x, y) && p == Join(j, x, y);
      AllGood(defs, s, g, ns, flat, j, kids[..|kids| - 1], x);
      MadeGood(defs, s, g, ns, flat, kids[|kids| - 1], y);
      GoodJoin(g, flat, j, x, y);
    }
  }

  lemma EachGood(defs: Defs, s: State, g: Grammar, flat: bool, id: nat)
    requires Stands(defs, s, g) && forall n | n in defs :: AllRestricted(NamesOf(defs), flat, defs[n].bodies)
    ensures Good(g, flat, Expand(g, id))
  {
    var n := id / 2;
    NamesOfRight(defs);
    if n in s.compiled {
      assert Next(Edges(defs), n) == AllRefsOf(defs[n].bodies);
      AllGood(defs, s, g, NamesOf(defs), flat, defs[n].join, defs[n].bodies, s.compiled[n].body);
      SharedGood(g, flat, n, s.compiled[n].body);
      assert Expand(g, id) == if id % 2 == 0 then s.compiled[n].body else s.compiled[n].pat;
    }
  }

  lemma SharedGood(g: Grammar, flat: bool, n: nat, p: Pattern)
    requires Good(g, flat, p)
    ensures Good(g, flat, SharedPattern(n, p))
  {
    assert FlatRepeats(g, Ref(Shared(n)));
  }

  // ---- compiled grammars -------------------------------------------------

  /** `g` and `start` are what a grammar compiles to. */
  ghost predicate CompiledTo(defs: Defs, j: Joiner, starts: seq<Source>, g: Grammar, start: Pattern) {
    var o := CompileGrammar(defs, j, starts);
    o.result == Ok(start) && g == Resolved(defs, o.state, g.lib)
  }

  lemma CompiledStands(defs: Defs, j: Joiner, starts: seq<Source>, g: Grammar, start: Pattern)
    requires OneWay(defs) && CompiledTo(defs, j, starts, g, start)
    ensures Stands(defs, CompileGrammar(defs, j, starts).state, g)
    ensures MadeAll(CompileGrammar(defs, j, starts).state.compiled, j, starts, start)
    ensures AllRefsOf(starts) <= CompileGrammar(defs, j, starts).state.compiled.Keys
  {
    CompiledIsTranslated(defs, j, starts);
    SuccessRecords(defs, j, starts);
    CyclesRefused(defs, j, starts);
  }

  lemma CompiledIsGood(defs: Defs, j: Joiner, starts: seq<Source>, flat: bool, g: Grammar, start: Pattern)
    requires OneWay(defs) && Restrained(defs, starts, flat) && CompiledTo(defs, j, starts, g, start)
    ensures Good(g, flat, start) && forall id :: Good(g, flat, Expand(g, id))
  {
    var s := CompileGrammar(defs, j, starts).state;
    CompiledStands(defs, j, starts, g, start);
    NamesOfRight(defs);
    AllGood(defs, s, g, NamesOf(defs), flat, j, starts, start);
    forall id: nat ensures Good(g, flat, Expand(g, id)) { EachGood(defs, s, g, flat, id); }
  }

  /** A grammar that compiles, keeps excepts and attributes to what they may hold and has
      no definition on both kinds of cycle gives a schema of which what is accepted is
      valid. */
  lemma CompiledIsSound(defs: Defs, j: Joiner, starts: seq<Source>, lib: Library)
    requires OneWay(defs) && Restrained(defs, starts, false) && CompileGrammar(defs, j, starts).result.Ok?
    ensures var o := CompileGrammar(defs, j, starts);
            var raw := Resolved(defs, o.state, lib);
            Ranked(raw) && SoundGrammar(raw) && Sound(raw, o.result.value)
  {
    var o := CompileGrammar(defs, j, starts);
    CompiledIsRanked(defs, j, starts, lib);
    var g: Grammar := Resolved(defs, o.state, lib);
    CompiledIsGood(defs, j, starts, false, g, o.result.value);
    forall id ensures Sound(g, Expand(g, id)) { assert Good(g, false, Expand(g, id)); }
  }

  /** One that keeps repetitions and its start to what they may hold besides gives a
      well-formed schema: what DecidedExactly says of documents is so of it. */
  lemma CompiledIsExact(defs: Defs, j: Joiner, starts: seq<Source>, g: Grammar, start: Pattern)
    requires OneWay(defs) && Conforms(defs, j, starts) && CompiledTo(defs, j, starts, g, start)
    ensures WellFormed(g, start)
  {
    var s := CompileGrammar(defs, j, starts).state;
    CompiledIsGood(defs, j, starts, true, g, start);
    forall id ensures Exact(g, Expand(g, id)) { assert Good(g, true, Expand(g, id)); }
    CompiledStands(defs, j, starts, g, start);
    FoundIs(AtStart, defs);
    ContentHolds(defs, s, g, AtStart, Found(AtStart, defs.Keys, defs), j, starts, start);
    assert OfKind(g, AtStart, start);
  }

  // ---- with memo points --------------------------------------------------

  lemma {:induction false} StartBlind(g: Grammar, g': Grammar, p: Pattern, p': Pattern)
    requires Wrapped(g, g') && Unwrap(p) == Unwrap(p')
    ensures StartLike(g, p) == StartLike(g', p')
    decreases Level(g.rank, p), p, p'
  {
    if p.Static? {
      StartBlind(g, g', p.inner, p');
    } else if p'.Static? {
      StartBlind(g, g', p, p'.inner);
    } else {
      match p
      case Choice(l, r) => StartBlind(g, g', l, p'.left); StartBlind(g, g', r, p'.right);
      case Ref(id) => StartBlind(g, g', Expand(g, id), Expand(g', id));
      case _ =>
    }
  }

  /** Validates against a compiled grammar with its memo points added: what is accepted is
      valid by the grammar as compiled; and if it conforms to section 7 and no element but
      the document element is empty, what is refused is not. */
  method ValidateCompiled(ghost defs: Defs, ghost j: Joiner, ghost starts: seq<Source>, g: Grammar, start: Pattern,
                          done: set<nat>, doc: RelaxValidator.Document, maxDepth: int, maxPattern: int)
    returns (out: RelaxValidator.Outcome)
    requires OneWay(defs) && Restrained(defs, starts, false) && CompiledTo(defs, j, starts, g, start)
    ensures out.NoRoot? <==> RelaxValidator.RootOf(doc).None?
    ensures out.TooBig? ==> RelaxValidator.Limit(maxPattern, RelaxValidator.DEFAULT_MAX_PATTERN) > 0
    ensures out.TooDeep? || out.Accepted? ==>
      var limit := RelaxValidator.Limit(maxDepth, RelaxValidator.DEFAULT_MAX_DEPTH);
      var n := RelaxValidator.RootOf(doc).value;
      if out.TooDeep? then 0 < limit < Height(n) else limit >= 0 ==> Height(n) <= limit
    ensures (out.Accepted? || out.Invalid?) && RelaxValidator.RootOf(doc).value.ElementNode? ==>
      var root := RelaxValidator.RootOf(doc).value;
      && (out.Accepted? ==> Valid(g, start, root))
      && (Conforms(defs, j, starts) && Filled(ItemOf(root).kids) && out.Invalid? ==> !Valid(g, start, root))
  {
    CompiledIsGood(defs, j, starts, false, g, start);
    forall id ensures Sound(g, Expand(g, id)) && FlagsTrue(g, Expand(g, id)) { assert Good(g, false, Expand(g, id)); }
    var g', start', free := AddMemoPoints(g, done, start);
    var memo := new RelaxBuilder.SchemaMemo(g', free);
    SoundHereditary(g');
    out := RelaxValidator.Validate(g', start', memo, doc, maxDepth, maxPattern);
    var root := RelaxValidator.RootOf(doc);
    if root.Some? && root.value.ElementNode? {
      SameValid(g, start, g', start', root.value);
      if Conforms(defs, j, starts) { WrappedConforms(defs, j, starts, g, start, g', start'); }
    }
  }

  lemma SameValid(g: Grammar, start: Pattern, g': Grammar, start': Pattern, root: Node)
    requires SameLanguage(g, start, g', start') && root.ElementNode?
    ensures Valid(g', start', root) <==> Valid(g, start, root)
  {
  }

  /** A schema that conforms goes on conforming behind its wrappers. */
  lemma WrappedConforms(defs: Defs, j: Joiner, starts: seq<Source>, g: Grammar, start: Pattern, g': Grammar,
                        start': Pattern)
    requires OneWay(defs) && Conforms(defs, j, starts) && CompiledTo(defs, j, starts, g, start)
    requires Wrapped(g, g') && Unwrap(start') == Unwrap(start) && AllTrue(g') && FlagsTrue(g', start')
    ensures WellFormed(g', start')
  {
    CompiledIsExact(defs, j, starts, g, start);
    CompiledIsGood(defs, j, starts, true, g, start);
    forall id ensures FlagsTrue(g, Expand(g, id)) { assert Good(g, true, Expand(g, id)); }
    ExactHereditary(g);
    WrappedSound(g, g', start, start');
    StartBlind(g, g', start, start');
  }
}
