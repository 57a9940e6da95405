/** The check of the path oneOrMore//group//attribute (section 7.1.2) as it is made, on
    sources as written, and a schema it lets by. */
module GrammarPaths {
  import opened Basics
  import opened RelaxSyntax
  import opened RelaxLanguage
  import opened RelaxDerivative
  import opened RelaxRun
  import opened RelaxExamples
  import opened GrammarWalk
  import opened GrammarTheorems

  // ---- the check ---------------------------------------------------------

  /** How much of the path stands above, within one element. */
  datatype Steps = Outside | InRepeat | InGroup

  /** What simplification would erase (section 4.20). */
  predicate Pruned(src: Source)
    decreases src, 0
  {
    match src
    case SLeaf(l) => l.LNotAllowed?
    case SRef(_) => false
    case SExcept(_, _, _) => false
    case SChoice(kids) => kids != [] && AllPruned(kids)
    case _ => AnyPruned(src.kids)
  }

  predicate AllPruned(kids: seq<Source>)
    decreases kids, 1
  {
    kids == [] || (Pruned(kids[0]) && AllPruned(kids[1..]))
  }

  predicate AnyPruned(kids: seq<Source>)
    decreases kids, 1
  {
    kids != [] && (Pruned(kids[0]) || AnyPruned(kids[1..]))
  }

  /** The children but for `<empty/>`: a group of one is no group. */
  function Parts(kids: seq<Source>): nat {
    if kids == [] then 0 else (if kids[0] == SLeaf(LEmpty) then 0 else 1) + Parts(kids[1..])
  }

  /** Whether an attribute in `src` stands at the end of the path.  A reference is not
      followed, and neither zeroOrMore nor mixed is a step of it. */
  predicate Refused(at: Steps, src: Source)
    decreases src, 0
  {
    !Pruned(src) &&
    match src
    case SLeaf(_) => false
    case SRef(_) => false
    case SElement(_, kids) => AnyRefused(Outside, kids)
    case SAttribute(_, kids) => at == InGroup || AnyRefused(at, kids)
    case SOneOrMore(kids) => AnyRefused(if at == Outside then InRepeat else at, kids)
    case SGroup(kids) => AnyRefused(Grouped(at, kids), kids)
    case SInterleave(kids) => AnyRefused(Grouped(at, kids), kids)
    case _ => AnyRefused(at, src.kids)
  }

  function Grouped(at: Steps, kids: seq<Source>): Steps { if at == InRepeat && Parts(kids) >= 2 then InGroup else at }

  predicate AnyRefused(at: Steps, kids: seq<Source>)
    decreases kids, 1
  {
    kids != [] && (Refused(at, kids[0]) || AnyRefused(at, kids[1..]))
  }

  // ---- sources without references ----------------------------------------

  /** The pattern of a source that refers to nothing. */
  function PatternOf(src: Source): Pattern
    decreases src, 0
  {
    if src.SLeaf? then LeafPattern(src.leaf)
    else if src.SRef? then NotAllowed
    else if src.SAttribute? && src.kids == [] then Attribute(src.name, Text)
    else Build(src, PatternOfAll(JoinerOf(src), src.kids))
  }

  function PatternOfAll(j: Joiner, kids: seq<Source>): Pattern
    decreases kids, 1
  {
    if kids == [] then NotAllowed
    else if |kids| == 1 then PatternOf(kids[0])
    else Join(j, PatternOfAll(j, kids[..|kids| - 1]), PatternOf(kids[|kids| - 1]))
  }

  /** It refers to nothing, and whatever should have children has. */
  predicate Selfstanding(src: Source)
    decreases src, 0
  {
    if src.SLeaf? then true
    else if src.SRef? then false
    else (src.SAttribute? && src.kids == []) || AllSelfstanding(src.kids)
  }

  predicate AllSelfstanding(kids: seq<Source>)
    decreases kids, 1
  {
    kids != [] && Selfstanding(kids[|kids| - 1]) && (|kids| > 1 ==> AllSelfstanding(kids[..|kids| - 1]))
  }

  /** Such a source is compiled to its pattern. */
  lemma {:induction false} CompilesTo(defs: Defs, s: State, src: Source)
    requires Selfstanding(src) && forall m | m in s.compiled :: m !in s.at
    ensures CompilePattern(defs, s, src) == Out(Ok(PatternOf(src)), s)
    decreases src, 0
  {
    if !src.SLeaf? && !(src.SAttribute? && src.kids == []) {
      if src.SElement? {
        AllCompileTo(defs, s.(depth := s.depth + 1), ByGroup, src.kids);
      } else {
        AllCompileTo(defs, s, JoinerOf(src), src.kids);
      }
    }
  }

  lemma {:induction false} AllCompileTo(defs: Defs, s: State, j: Joiner, kids: seq<Source>)
    requires AllSelfstanding(kids) && forall m | m in s.compiled :: m !in s.at
    ensures CompileKids(defs, s, j, kids) == Out(Ok(PatternOfAll(j, kids)), s)
    decreases kids, 1
  {
    if |kids| == 1 {
      CompilesTo(defs, s, kids[0]);
    } else {
      AllCompileTo(defs, s, j, kids[..|kids| - 1]);
      CompilesTo(defs, s, kids[|kids| - 1]);
    }
  }

  // ---- a repeated group of an attribute ----------------------------------

  function EmptySource(n: QName): Source { SElement(Name(n), [SLeaf(LEmpty)]) }

  /** An x, or a y with attribute a. */
  function EitherSource(x: QName, y: QName, a: QName): Source {
    SChoice([EmptySource(x), SGroup([SAttribute(Name(a), [SLeaf(LText)]), EmptySource(y)])])
  }

  /** An element r holding any number of them; or, written otherwise, one at least. */
  function RepeatSource(r: QName, x: QName, y: QName, a: QName): Source {
    SElement(Name(r), [SZeroOrMore([EitherSource(x, y, a)])])
  }

  function OnceSource(r: QName, x: QName, y: QName, a: QName): Source {
    SElement(Name(r), [SOneOrMore([EitherSource(x, y, a)])])
  }

  function RepeatPattern(r: QName, x: QName, y: QName, a: QName): Pattern {
    Element(Name(r), Choice(OneOrMore(Either(x, y, a)), Empty))
  }

  lemma OneKidRefused(at: Steps, kid: Source)
    ensures AnyRefused(at, [kid]) <==> Refused(at, kid)
  {
    assert [kid][1..] == [];
  }

  lemma TwoKidsRefused(at: Steps, kid: Source, other: Source)
    ensures AnyRefused(at, [kid, other]) <==> Refused(at, kid) || Refused(at, other)
    ensures AnyPruned([kid, other]) <==> Pruned(kid) || Pruned(other)
  {
    assert [kid, other][1..] == [other];
    OneKidRefused(at, other);
    OneKidPruned(other);
  }

  lemma OneKidPruned(kid: Source)
    ensures AnyPruned([kid]) <==> Pruned(kid)
  {
    assert [kid][1..] == [];
  }

  lemma EitherStays(x: QName, y: QName, a: QName)
    ensures !Pruned(EitherSource(x, y, a))
  {
    OneKidPruned(SLeaf(LEmpty));
    assert !Pruned(EmptySource(x));
  }

  lemma EmptyFine(at: Steps, n: QName)
    ensures !Refused(at, EmptySource(n)) && !Pruned(EmptySource(n))
  {
    OneKidPruned(SLeaf(LEmpty));
    OneKidRefused(Outside, SLeaf(LEmpty));
  }

  lemma TwoParts(kid: Source, other: Source)
    requires kid != SLeaf(LEmpty) && other != SLeaf(LEmpty)
    ensures Parts([kid, other]) == 2
  {
    assert [kid, other][1..] == [other] && [other][1..] == [];
    assert Parts([other]) == 1;
  }

  /** Only below a oneOrMore is the group with its attribute found. */
  lemma EitherRefused(at: Steps, x: QName, y: QName, a: QName)
    ensures Refused(at, EitherSource(x, y, a)) <==> at != Outside
  {
    var att := SAttribute(Name(a), [SLeaf(LText)]);
    var group := SGroup([att, EmptySource(y)]);
    EmptyFine(at, x);
    OneKidPruned(SLeaf(LText));
    EitherStays(x, y, a);
    TwoParts(att, EmptySource(y));
    var below := Grouped(at, [att, EmptySource(y)]);
    OneKidRefused(below, SLeaf(LText));
    EmptyFine(below, y);
    TwoKidsRefused(below, att, EmptySource(y));
    assert !Pruned(group) && (Refused(at, group) <==> below == InGroup);
    TwoKidsRefused(at, EmptySource(x), group);
  }

  /** Written with oneOrMore the schema is refused, with zeroOrMore it is not. */
  lemma OnlyOneWritingRefused(r: QName, x: QName, y: QName, a: QName)
    ensures Refused(Outside, OnceSource(r, x, y, a)) && !Refused(Outside, RepeatSource(r, x, y, a))
  {
    var q := EitherSource(x, y, a);
    EitherStays(x, y, a);
    EitherRefused(Outside, x, y, a);
    EitherRefused(InRepeat, x, y, a);
    OneKidPruned(q);
    OneKidRefused(InRepeat, q);
    OneKidRefused(Outside, q);
    OneKidPruned(SOneOrMore([q]));
    OneKidPruned(SZeroOrMore([q]));
    OneKidRefused(Outside, SOneOrMore([q]));
    OneKidRefused(Outside, SZeroOrMore([q]));
  }

  lemma OneKidOf(j: Joiner, kid: Source)
    ensures PatternOfAll(j, [kid]) == PatternOf(kid)
    ensures AllSelfstanding([kid]) <==> Selfstanding(kid)
  {
  }

  lemma TwoKidsOf(j: Joiner, kid: Source, other: Source)
    ensures PatternOfAll(j, [kid, other]) == Join(j, PatternOf(kid), PatternOf(other))
    ensures AllSelfstanding([kid, other]) <==> Selfstanding(kid) && Selfstanding(other)
  {
    assert [kid, other][..1] == [kid];
    OneKidOf(j, kid);
  }

  lemma EmptyOf(n: QName)
    ensures PatternOf(EmptySource(n)) == EmptyElement(n) && Selfstanding(EmptySource(n))
  {
    OneKidOf(ByGroup, SLeaf(LEmpty));
  }

  lemma EitherOf(x: QName, y: QName, a: QName)
    ensures PatternOf(EitherSource(x, y, a)) == Either(x, y, a) && Selfstanding(EitherSource(x, y, a))
  {
    var att := SAttribute(Name(a), [SLeaf(LText)]);
    var group := SGroup([att, EmptySource(y)]);
    EmptyOf(x);
    EmptyOf(y);
    OneKidOf(ByGroup, SLeaf(LText));
    TwoKidsOf(ByGroup, att, EmptySource(y));
    TwoKidsOf(ByChoice, EmptySource(x), group);
    assert PatternOf(att) == Attribute(Name(a), Text);
    assert PatternOf(group) == Group(Attribute(Name(a), Text), EmptyElement(y));
    assert MkChoice(EmptyElement(x), PatternOf(group)) == Either(x, y, a);
  }

  /** Written with zeroOrMore it is compiled as it means. */
  lemma RepeatCompiles(defs: Defs, r: QName, x: QName, y: QName, a: QName)
    ensures CompileGrammar(defs, ByChoice, [RepeatSource(r, x, y, a)]).result == Ok(RepeatPattern(r, x, y, a))
  {
    var q := EitherSource(x, y, a);
    EitherOf(x, y, a);
    OneKidOf(ByGroup, q);
    OneKidOf(ByGroup, SZeroOrMore([q]));
    OneKidOf(ByChoice, RepeatSource(r, x, y, a));
    assert !PatEq(OneOrMore(Either(x, y, a)), Empty) && !InChoice(OneOrMore(Either(x, y, a)), Empty);
    assert PatternOf(SZeroOrMore([q])) == Choice(OneOrMore(Either(x, y, a)), Empty);
    AllCompileTo(defs, Fresh, ByChoice, [RepeatSource(r, x, y, a)]);
  }

  // ---- the document it refuses -------------------------------------------

  function WithAttribute(r: QName, x: QName, y: QName, a: Attr): Node {
    ElementNode(r, NO_BINDINGS, [a], [ElementNode(x, NO_BINDINGS, [], []), ElementNode(y, NO_BINDINGS, [], [])])
  }

  lemma WithAttributeItem(r: QName, x: QName, y: QName, a: Attr)
    requires !IsDeclaration(a)
    ensures ItemOf(WithAttribute(r, x, y, a)) == Elem(r, NO_BINDINGS, [a], [Tag(x), Tag(y)])
  {
    DocumentItem(r, x, y);
    assert [a][1..] == [];
  }

  lemma WithAttributeValid(g: Grammar, r: QName, x: QName, y: QName, a: Attr)
    requires !IsDeclaration(a)
    ensures Valid(g, RepeatPattern(r, x, y, a.name), WithAttribute(r, x, y, a))
  {
    var m := [Tag(x), Tag(y)];
    RepeatedGroupMatches(g, x, y, a);
    WithAttributeItem(r, x, y, a);
    assert StripBlank(m[1..]) == [Tag(y)] by { assert m[1..][1..] == []; }
    assert m[0].Elem? && ReadAs(m, m);
    assert Matches(g, NO_BINDINGS, Choice(OneOrMore(Either(x, y, a.name)), Empty), [a], m);
  }

  /** What is left of the content once the attribute has been given to the first
      repetition: a y, and then more. */
  lemma FirstTakesIt(g: Grammar, r: QName, x: QName, y: QName, a: Attr)
    requires x != y && !IsDeclaration(a)
    ensures exists more :: TagRun(g, RepeatPattern(r, x, y, a.name), ItemOf(WithAttribute(r, x, y, a)))
                        == After(Group(EmptyElement(y), more), Empty)
  {
    var q := Either(x, y, a.name);
    var c := Choice(OneOrMore(q), Empty);
    WithAttributeItem(r, x, y, a);
    assert OpenDeriv(g, RepeatPattern(r, x, y, a.name), r) == After(c, Empty);
    GivenToFirst(g, x, y, a);
    var d := Group(EmptyElement(y), c);
    assert AttDeriv(g, After(c, Empty), a, NO_BINDINGS) == After(d, Empty);
    assert [a][1..] == [];
    assert AttsRun(g, After(c, Empty), [a], NO_BINDINGS) == After(d, Empty);
    CloseSecond(g, x, y, a.name);
    var more := CloseDeriv(g, c).0;
    assert CloseDeriv(g, After(d, Empty)) == (After(Group(EmptyElement(y), more), Empty), true);
  }

  lemma GivenToFirst(g: Grammar, x: QName, y: QName, a: Attr)
    ensures var c := Choice(OneOrMore(Either(x, y, a.name)), Empty);
            AttDeriv(g, c, a, NO_BINDINGS) == Group(EmptyElement(y), c)
  {
    var q := Either(x, y, a.name);
    assert TextDeriv(g, Text, a.value, NO_BINDINGS) == Text;
    assert AttDeriv(g, Attribute(Name(a.name), Text), a, NO_BINDINGS) == Empty;
    assert AttDeriv(g, q.right, a, NO_BINDINGS) == EmptyElement(y);
    assert AttDeriv(g, q, a, NO_BINDINGS) == EmptyElement(y);
    assert !PatEq(OneOrMore(q), Empty) && !InChoice(OneOrMore(q), Empty);
    assert More(q) == Choice(OneOrMore(q), Empty);
  }

  predicate Rest(more: Pattern) { more != NotAllowed && more != Empty }

  /** Closing the start tag changes only what is left to repeat. */
  lemma CloseSecond(g: Grammar, x: QName, y: QName, a: QName)
    ensures var c := Choice(OneOrMore(Either(x, y, a)), Empty);
            var more := CloseDeriv(g, c).0;
            Rest(more) && CloseDeriv(g, Group(EmptyElement(y), c)) == (Group(EmptyElement(y), more), true)
  {
    var q := Either(x, y, a);
    EmptyElementPlain(g, x);
    EmptyElementPlain(g, y);
    assert CloseDeriv(g, q.right) == (NotAllowed, true);
    assert CloseDeriv(g, q) == (EmptyElement(x), true);
    assert CloseDeriv(g, OneOrMore(q)) == (OneOrMore(EmptyElement(x)), true);
    var c := Choice(OneOrMore(q), Empty);
    assert !PatEq(OneOrMore(EmptyElement(x)), Empty) && !InChoice(OneOrMore(EmptyElement(x)), Empty);
    assert CloseDeriv(g, c) == (Choice(OneOrMore(EmptyElement(x)), Empty), true);
  }

  lemma DeadAtX(g: Grammar, x: QName, y: QName, more: Pattern)
    requires x != y
    ensures ElemRun(g, After(Group(EmptyElement(y), more), Empty), Tag(x)) == NotAllowed
  {
    var p := After(Group(EmptyElement(y), more), Empty);
    assert OpenDeriv(g, EmptyElement(y), x) == NotAllowed;
    assert OpenDeriv(g, Group(EmptyElement(y), more), x) == NotAllowed;
    assert OpenDeriv(g, p, x) == NotAllowed;
    assert TagRun(g, p, Tag(x)) == NotAllowed;
    DeadKids(g, [], NO_BINDINGS);
  }

  /** The check lets the schema by, it compiles, and a valid document is refused. */
  lemma RepeatedGroupReceived(g: Grammar, defs: Defs, r: QName, x: QName, y: QName, a: Attr)
    requires x != y && !IsDeclaration(a)
    ensures var src := RepeatSource(r, x, y, a.name);
            var start := RepeatPattern(r, x, y, a.name);
            var root := WithAttribute(r, x, y, a);
            && !Refused(Outside, src)
            && CompileGrammar(defs, ByChoice, [src]).result == Ok(start)
            && Valid(g, start, root) && !Nullable(g, ElemRun(g, start, ItemOf(root)))
  {
    OnlyOneWritingRefused(r, x, y, a.name);
    RepeatCompiles(defs, r, x, y, a.name);
    WithAttributeValid(g, r, x, y, a);
    RefusedRun(g, r, x, y, a);
  }

  lemma RefusedRun(g: Grammar, r: QName, x: QName, y: QName, a: Attr)
    requires x != y && !IsDeclaration(a)
    ensures !Nullable(g, ElemRun(g, RepeatPattern(r, x, y, a.name), ItemOf(WithAttribute(r, x, y, a))))
  {
    var m := [Tag(x), Tag(y)];
    WithAttributeItem(r, x, y, a);
    FirstTakesIt(g, r, x, y, a);
    var more :| TagRun(g, RepeatPattern(r, x, y, a.name), ItemOf(WithAttribute(r, x, y, a)))
             == After(Group(EmptyElement(y), more), Empty);
    DeadAtX(g, x, y, more);
    assert m[0].Elem?;
    DeadItems(g, m[1..], NO_BINDINGS, true);
    assert KidsRun(g, After(Group(EmptyElement(y), more), Empty), m, NO_BINDINGS) == NotAllowed;
  }
}
