/** What a grammar's definitions may stand for where section 7 of RELAX NG restricts it:
    an except, an attribute, a repetition, a start.  The patterns compiled from sources
    of a kind are of that kind. */
module GrammarKinds {
  import opened RelaxSyntax
  import opened RelaxSchema
  import opened RelaxAttribute
  import opened RelaxDocuments
  import opened References
  import opened GrammarWalk
  import opened GrammarCheck
  import opened GrammarTheorems
  import opened GrammarExact
  import opened GrammarSchema

  /** What an except may hold (section 7.1.4), what is surely a single string, what holds
      no attribute before an element, what holds none in a group (section 7.1.2), `free`
      being the definitions without, and what may be a start (section 7.1.5). */
  datatype Mode = InExcept | OneStringOnly | NoAttribute | NotGrouped(free: set<nat>) | AtStart

  /** Sources of the kind a mode asks for, references leading to definitions in `names`. */
  predicate KindOf(mode: Mode, names: set<nat>, src: Source)
    decreases src, 0
  {
    match src
    case SRef(n) => n in names
    case SLeaf(l) => LeafKind(mode, l)
    case SChoice(kids) => AllKind(mode, names, kids)
    case SGroup(kids) => JoinedKind(mode, names, ByGroup, kids)
    case SInterleave(kids) => JoinedKind(mode, names, ByInterleave, kids)
    case SElement(_, _) => !mode.InExcept?
    case SExcept(_, _, _) => !mode.AtStart?
    case SAttribute(_, _) => mode.OneStringOnly? || mode.NotGrouped?
    case SList(_) => !mode.InExcept? && !mode.AtStart?
    case SMixed(kids) => MixedKind(mode, names, kids)
    case _ => !mode.InExcept? && !mode.AtStart? && JoinedKind(mode, names, ByGroup, src.kids)
  }

  predicate LeafKind(mode: Mode, l: Leaf) {
    if mode.InExcept? then l.LNotAllowed? || l.LValue? || l.LData?
    else if mode.AtStart? then l.LNotAllowed?
    else true
  }

  predicate MixedKind(mode: Mode, names: set<nat>, kids: seq<Source>)
    decreases kids, 2
  {
    match mode
    case NoAttribute => AllKind(mode, names, kids)
    case NotGrouped(free) => AllKind(NoAttribute, free, kids)
    case _ => false
  }

  predicate AllKind(mode: Mode, names: set<nat>, kids: seq<Source>)
    decreases kids, 1
  {
    kids == [] || (AllKind(mode, names, kids[..|kids| - 1]) && KindOf(mode, names, kids[|kids| - 1]))
  }

  /** Children joined: one alone, alternatives, or else parts of a group. */
  predicate JoinedKind(mode: Mode, names: set<nat>, j: Joiner, kids: seq<Source>)
    decreases kids, 3
  {
    if |kids| == 1 || j == ByChoice then AllKind(mode, names, kids) else MixedKind(mode, names, kids)
  }

  /** The definitions in `names` are of the kind. */
  predicate KindDefined(mode: Mode, names: set<nat>, defs: Defs) {
    && (forall n | n in names && n in defs :: JoinedKind(mode, names, defs[n].join, defs[n].bodies))
    && (mode.NotGrouped? ==>
          forall n | n in mode.free && n in defs :: JoinedKind(NoAttribute, mode.free, defs[n].join, defs[n].bodies))
  }

  predicate OfKind(g: Grammar, mode: Mode, p: Pattern) {
    match mode
    case InExcept => ExceptLike(g, p)
    case OneStringOnly => OneString(g, p)
    case NoAttribute => AttrFree(g, p)
    case NotGrouped(_) => AttrFlat(g, p)
    case AtStart => StartLike(g, p)
  }

  // ---- the definitions of a kind, found ----------------------------------

  /** Those of `names` that are of the kind when references may lead to these only. */
  function Kept(mode: Mode, names: set<nat>, defs: Defs): set<nat> {
    set n | n in names && (n in defs ==> JoinedKind(mode, names, defs[n].join, defs[n].bodies))
  }

  /** What is left of `names` when those that are not of the kind are taken away, again
      and again. */
  function Found(mode: Mode, names: set<nat>, defs: Defs): (found: set<nat>)
    ensures found <= names && Kept(mode, found, defs) == found
    decreases |names|
  {
    var kept := Kept(mode, names, defs);
    if kept == names then names
    else
      FewerKept(kept, names);
      Found(mode, kept, defs)
  }

  lemma FewerKept(a: set<nat>, b: set<nat>)
    requires a < b
    ensures |a| < |b|
  {
    assert !(b <= a);
    var x :| x in b && x !in a;
    CardUpTo(a, b - {x});
  }

  lemma {:induction false} MoreNames(mode: Mode, names: set<nat>, more: set<nat>, src: Source)
    requires names <= more && KindOf(mode, names, src)
    ensures KindOf(mode, more, src)
    decreases src, 0
  {
    match src
    case SChoice(kids) => MoreNamesOf(mode, names, more, kids);
    case SGroup(kids) => MoreJoined(mode, names, more, ByGroup, kids);
    case SInterleave(kids) => MoreJoined(mode, names, more, ByInterleave, kids);
    case SMixed(kids) => if mode.NoAttribute? { MoreNamesOf(mode, names, more, kids); }
    case SRef(_) =>
    case SLeaf(_) =>
    case SElement(_, _) =>
    case SExcept(_, _, _) =>
    case SAttribute(_, _) =>
    case SList(_) =>
    case _ => MoreJoined(mode, names, more, ByGroup, src.kids);
  }

  lemma {:induction false} MoreNamesOf(mode: Mode, names: set<nat>, more: set<nat>, kids: seq<Source>)
    requires names <= more && AllKind(mode, names, kids)
    ensures AllKind(mode, more, kids)
    decreases kids, 1
  {
    if kids != [] {
      MoreNamesOf(mode, names, more, kids[..|kids| - 1]);
      MoreNames(mode, names, more, kids[|kids| - 1]);
    }
  }

  lemma {:induction false} MoreJoined(mode: Mode, names: set<nat>, more: set<nat>, j: Joiner, kids: seq<Source>)
    requires names <= more && JoinedKind(mode, names, j, kids)
    ensures JoinedKind(mode, more, j, kids)
    decreases kids, 2
  {
    if |kids| == 1 || j == ByChoice || mode.NoAttribute? { MoreNamesOf(mode, names, more, kids); }
  }

  /** Nothing of the kind is lost: any set of definitions of the kind is found. */
  lemma {:induction false} FoundAll(mode: Mode, names: set<nat>, defs: Defs, some: set<nat>)
    requires some <= names && KindDefined(mode, some, defs)
    ensures some <= Found(mode, names, defs)
    decreases |names|
  {
    var kept := Kept(mode, names, defs);
    if kept != names {
      forall n | n in some ensures n in kept {
        if n in defs { MoreJoined(mode, some, names, defs[n].join, defs[n].bodies); }
      }
      FewerKept(kept, names);
      FoundAll(mode, kept, defs, some);
    }
  }

  lemma FoundIs(mode: Mode, defs: Defs)
    requires mode.NotGrouped? ==> mode.free == Found(NoAttribute, defs.Keys, defs)
    ensures KindDefined(mode, Found(mode, defs.Keys, defs), defs)
  {
    var names := Found(mode, defs.Keys, defs);
    forall n | n in names && n in defs ensures JoinedKind(mode, names, defs[n].join, defs[n].bodies) {
      assert n in Kept(mode, names, defs);
    }
    if mode.NotGrouped? {
      forall n | n in mode.free && n in defs ensures JoinedKind(NoAttribute, mode.free, defs[n].join, defs[n].bodies) {
        assert n in Kept(NoAttribute, mode.free, defs);
      }
    }
  }

  // ---- patterns made of sources of a kind --------------------------------

  /** What a grammar compiled stands for. */
  ghost predicate Stands(defs: Defs, s: State, g: Grammar) {
    && s.compiled.Keys <= defs.Keys && Translated(defs, s.compiled)
    && (forall n | n in s.compiled :: Next(Edges(defs), n) <= s.compiled.Keys && !Reaches(BareEdges(defs), n, n))
    && (forall id: nat :: Expand(g, id) == if id / 2 !in s.compiled then NotAllowed
                                           else if id % 2 == 0 then s.compiled[id / 2].body
                                           else s.compiled[id / 2].pat)
  }

  lemma ChoiceHolds(g: Grammar, mode: Mode, x: Pattern, y: Pattern)
    requires OfKind(g, mode, x) && OfKind(g, mode, y)
    ensures OfKind(g, mode, MkChoice(x, y))
  {
    ChoiceKeeps(p => OfKind(g, mode, p), x, y);
  }

  lemma RefHolds(g: Grammar, mode: Mode, id: nat)
    ensures OfKind(g, mode, Ref(id)) <==> OfKind(g, mode, Expand(g, id))
  {
  }

  /** A group without attributes holds none, alone or in a group. */
  lemma GroupHolds(g: Grammar, mode: Mode, j: Joiner, x: Pattern, y: Pattern)
    requires mode.NoAttribute? || mode.NotGrouped?
    requires AttrFree(g, x) && AttrFree(g, y)
    ensures OfKind(g, mode, Join(j, x, y))
  {
    if j == ByChoice { ChoiceHolds(g, NoAttribute, x, y); }
    assert AttrFree(g, Join(j, x, y));
    AttrFreeIsFlat(g, Join(j, x, y));
  }

  lemma BuildHolds(g: Grammar, mode: Mode, names: set<nat>, src: Source, q: Pattern)
    requires KindOf(mode, names, src) && !src.SRef? && !src.SLeaf? && !src.SMixed?
    requires src.SExcept? || src.SElement? || src.SAttribute? || src.SList? || OfKind(g, mode, q)
    ensures OfKind(g, mode, Build(src, q))
  {
    if src.SOptional? { ChoiceHolds(g, mode, q, Empty); }
    if src.SZeroOrMore? { ChoiceHolds(g, mode, MkOneOrMore(q), Empty); }
  }

  lemma LeafHolds(g: Grammar, mode: Mode, l: Leaf)
    requires LeafKind(mode, l)
    ensures OfKind(g, mode, LeafPattern(l))
  {
  }

  /** Names compiled, each leading to fewer than `b`. */
  ghost predicate Lower(defs: Defs, s: State, names: set<nat>, b: nat) {
    forall m | m in names :: m in s.compiled && |Below(defs, s, m)| < b
  }

  lemma {:induction false} KindHolds(defs: Defs, s: State, g: Grammar, mode: Mode, names: set<nat>, src: Source,
                                     p: Pattern, b: nat)
    requires Stands(defs, s, g) && KindDefined(mode, names, defs) && KindOf(mode, names, src)
    requires Made(s.compiled, src, p) && Lower(defs, s, BareRefs(src), b)
    ensures OfKind(g, mode, p)
    decreases 2 * b, src, 0
  {
    if src.SRef? {
      var n := src.to;
      assert n in BareRefs(src);
      DefinitionHolds(defs, s, g, mode, names, n);
      SharedHolds(g, s, mode, n);
    } else if src.SLeaf? {
      LeafHolds(g, mode, src.leaf);
    } else if src.SMixed? {
      MixedHolds(defs, s, g, mode, names, src, p, b);
    } else if src.SAttribute? && src.kids == [] {
      assert p == Attribute(src.name, Text);
    } else {
      InnerHolds(defs, s, g, mode, names, src, p, b);
    }
  }

  lemma {:induction false} InnerHolds(defs: Defs, s: State, g: Grammar, mode: Mode, names: set<nat>, src: Source,
                                      p: Pattern, b: nat)
    requires Stands(defs, s, g) && KindDefined(mode, names, defs) && KindOf(mode, names, src)
    requires !src.SRef? && !src.SLeaf? && !src.SMixed? && !(src.SAttribute? && src.kids == [])
    requires Made(s.compiled, src, p) && Lower(defs, s, BareRefs(src), b)
    ensures OfKind(g, mode, p)
    decreases 2 * b, src, 0, 0
  {
    var q :| MadeAll(s.compiled, JoinerOf(src), src.kids, q) && p == Build(src, q);
    if !src.SExcept? && !src.SElement? && !src.SAttribute? && !src.SList? {
      JoinedHolds(defs, s, g, mode, names, JoinerOf(src), src.kids, q, b);
    }
    BuildHolds(g, mode, names, src, q);
  }

  lemma {:induction false} MixedHolds(defs: Defs, s: State, g: Grammar, mode: Mode, names: set<nat>, src: Source,
                                      p: Pattern, b: nat)
    requires Stands(defs, s, g) && KindDefined(mode, names, defs) && KindOf(mode, names, src) && src.SMixed?
    requires Made(s.compiled, src, p) && Lower(defs, s, BareRefs(src), b)
    ensures OfKind(g, mode, p)
    decreases 2 * b, src, 0, 0
  {
    var q :| MadeAll(s.compiled, ByGroup, src.kids, q) && p == Build(src, q);
    var free := Without(mode, names);
    JoinedHolds(defs, s, g, NoAttribute, free, ByGroup, src.kids, q, b);
    GroupHolds(g, mode, ByInterleave, Text, q);
  }

  lemma SharedHolds(g: Grammar, s: State, mode: Mode, n: nat)
    requires n in s.compiled && s.compiled[n].pat == SharedPattern(n, s.compiled[n].body)
    requires Expand(g, Shared(n)) == s.compiled[n].body && Expand(g, Lazy(n)) == s.compiled[n].pat
    requires OfKind(g, mode, s.compiled[n].body)
    ensures OfKind(g, mode, s.compiled[n].pat) && OfKind(g, mode, Ref(Lazy(n)))
  {
    RefHolds(g, mode, Shared(n));
    RefHolds(g, mode, Lazy(n));
  }

  lemma NearIsLower(defs: Defs, s: State, g: Grammar, n: nat)
    requires Stands(defs, s, g) && n in s.compiled
    ensures n in defs && Lower(defs, s, BareRefsOf(defs[n].bodies), |Below(defs, s, n)|)
  {
    EdgesSplit(defs, n);
    assert Next(BareEdges(defs), n) == BareRefsOf(defs[n].bodies);
    forall m | m in BareRefsOf(defs[n].bodies) ensures m in s.compiled && |Below(defs, s, m)| < |Below(defs, s, n)| {
      BelowShrinks(defs, s, n, m);
    }
  }

  lemma {:induction false} DefinitionHolds(defs: Defs, s: State, g: Grammar, mode: Mode, names: set<nat>, n: nat)
    requires Stands(defs, s, g) && KindDefined(mode, names, defs) && n in names && n in s.compiled
    ensures n in defs && s.compiled[n].pat == SharedPattern(n, s.compiled[n].body)
    ensures OfKind(g, mode, s.compiled[n].body)
    ensures Expand(g, Shared(n)) == s.compiled[n].body && Expand(g, Lazy(n)) == s.compiled[n].pat
    decreases 2 * |Below(defs, s, n)| + 1
  {
    NearIsLower(defs, s, g, n);
    assert Shared(n) / 2 == n && Lazy(n) / 2 == n && Shared(n) % 2 == 0 && Lazy(n) % 2 == 1;
    JoinedHolds(defs, s, g, mode, names, defs[n].join, defs[n].bodies, s.compiled[n].body, |Below(defs, s, n)|);
  }

  lemma {:induction false} JoinedHolds(defs: Defs, s: State, g: Grammar, mode: Mode, names: set<nat>, j: Joiner,
                                       kids: seq<Source>, p: Pattern, b: nat)
    requires Stands(defs, s, g) && KindDefined(mode, names, defs) && JoinedKind(mode, names, j, kids)
    requires MadeAll(s.compiled, j, kids, p) && Lower(defs, s, BareRefsOf(kids), b)
    ensures OfKind(g, mode, p)
    decreases 2 * b, kids, 1
  {
    if |kids| == 1 {
      OnlyKid(kids);
      KindHolds(defs, s, g, mode, names, kids[0], p, b);
    } else {
      var x, y :| MadeOf(s.compiled, j, kids, x, y) && p == Join(j, x, y);
      if j == ByChoice {
        JoinedHolds(defs, s, g, mode, names, j, kids[..|kids| - 1], x, b);
        KindHolds(defs, s, g, mode, names, kids[|kids| - 1], y, b);
        ChoiceHolds(g, mode, x, y);
      } else {
        var free := Without(mode, names);
        GroupParts(defs, mode, names, j, kids);
        JoinedHolds(defs, s, g, NoAttribute, free, j, kids[..|kids| - 1], x, b);
        KindHolds(defs, s, g, NoAttribute, free, kids[|kids| - 1], y, b);
        GroupHolds(g, mode, j, x, y);
      }
    }
  }

  /** The definitions that hold no attribute, where a mode cares for them. */
  function Without(mode: Mode, names: set<nat>): set<nat> { if mode.NotGrouped? then mode.free else names }

  lemma GroupParts(defs: Defs, mode: Mode, names: set<nat>, j: Joiner, kids: seq<Source>)
    requires KindDefined(mode, names, defs) && JoinedKind(mode, names, j, kids) && |kids| > 1 && j != ByChoice
    ensures (mode.NoAttribute? || mode.NotGrouped?) && KindDefined(NoAttribute, Without(mode, names), defs)
    ensures JoinedKind(NoAttribute, Without(mode, names), j, kids[..|kids| - 1])
    ensures KindOf(NoAttribute, Without(mode, names), kids[|kids| - 1])
  {
    var free := Without(mode, names);
    assert MixedKind(mode, names, kids) && AllKind(NoAttribute, free, kids);
    assert MixedKind(NoAttribute, free, kids[..|kids| - 1]);
  }

  lemma BelowBound(defs: Defs, s: State, n: nat)
    ensures |Below(defs, s, n)| <= |s.compiled.Keys|
  {
    CardUpTo(Below(defs, s, n), s.compiled.Keys);
  }

  /** Whatever is compiled of children of a kind is of that kind. */
  lemma ContentHolds(defs: Defs, s: State, g: Grammar, mode: Mode, names: set<nat>, j: Joiner, kids: seq<Source>,
                     q: Pattern)
    requires Stands(defs, s, g) && KindDefined(mode, names, defs) && JoinedKind(mode, names, j, kids)
    requires MadeAll(s.compiled, j, kids, q) && AllRefsOf(kids) <= s.compiled.Keys
    ensures OfKind(g, mode, q)
  {
    RefsSplitOf(kids);
    forall m | m in BareRefsOf(kids) ensures m in s.compiled && |Below(defs, s, m)| < |s.compiled.Keys| + 1 {
      BelowBound(defs, s, m);
    }
    JoinedHolds(defs, s, g, mode, names, j, kids, q, |s.compiled.Keys| + 1);
  }
}
