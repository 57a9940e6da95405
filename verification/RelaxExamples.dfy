/** Families of schemas on which the verdict and the language part. */
module RelaxExamples {
  import opened Basics
  import opened RelaxSyntax
  import opened RelaxLanguage
  import opened RelaxDerivative
  import opened RelaxSchema
  import opened RelaxLaws
  import opened RelaxAttribute
  import opened RelaxRun

  function Tag(n: QName): Item { Elem(n, NO_BINDINGS, [], []) }

  function EmptyElement(n: QName): Pattern { Element(Name(n), Empty) }

  lemma EmptyTagMatches(g: Grammar, n: QName)
    ensures Matches(g, NO_BINDINGS, EmptyElement(n), [], [Tag(n)])
  {
    assert ReadAs([], []);
  }

  lemma EmptyElementPlain(g: Grammar, n: QName)
    ensures Exact(g, EmptyElement(n))
    ensures CloseDeriv(g, EmptyElement(n)) == (EmptyElement(n), false)
  {
    assert Exact(g, Empty);
  }

  // ---- an empty element with two readings --------------------------------

  /** An empty x and then y, or an x holding data. */
  function TwoReadings(x: QName, y: QName, ty: nat): Pattern {
    Choice(Group(EmptyElement(x), EmptyElement(y)), Element(Name(x), Data(ty, [], None)))
  }

  function Document(r: QName, x: QName, y: QName): Node {
    ElementNode(r, NO_BINDINGS, [],
      [ElementNode(x, NO_BINDINGS, [], []), ElementNode(y, NO_BINDINGS, [], [])])
  }

  lemma DocumentItem(r: QName, x: QName, y: QName)
    ensures ItemOf(Document(r, x, y)) == Elem(r, NO_BINDINGS, [], [Tag(x), Tag(y)])
  {
    var c := Document(r, x, y).children;
    assert c[1..][1..] == [];
    assert Items(c[1..]) == [Tag(y)];
    assert Items(c) == [Tag(x)] + [Tag(y)];
  }

  lemma DocumentValid(g: Grammar, r: QName, x: QName, y: QName, ty: nat)
    ensures Valid(g, Element(Name(r), TwoReadings(x, y, ty)), Document(r, x, y))
  {
    var m := [Tag(x), Tag(y)];
    EmptyTagMatches(g, x);
    EmptyTagMatches(g, y);
    assert InSequence([], m, Share([], [], [Tag(x)], [Tag(y)]));
    assert Matches(g, NO_BINDINGS, Group(EmptyElement(x), EmptyElement(y)), [], m);
    assert m[0].Elem?;
    assert StripBlank(m[1..]) == [Tag(y)] by { assert m[1..][1..] == []; }
    assert ReadAs(m, m);
    DocumentItem(r, x, y);
  }

  lemma OpenReadings(g: Grammar, x: QName, y: QName, ty: nat)
    ensures OpenDeriv(g, TwoReadings(x, y, ty), x)
         == Choice(After(Empty, EmptyElement(y)), After(Data(ty, [], None), Empty))
  {
    var (ey, dt) := (EmptyElement(y), Data(ty, [], None));
    assert OpenDeriv(g, Group(EmptyElement(x), ey), x) == After(Empty, ey);
    assert OpenDeriv(g, Element(Name(x), dt), x) == After(dt, Empty);
    assert !PatEq(Empty, dt);
  }

  lemma OpenX(g: Grammar, x: QName, y: QName, ty: nat)
    ensures TagRun(g, After(TwoReadings(x, y, ty), Empty), Tag(x))
         == Choice(After(Empty, After(EmptyElement(y), Empty)),
                   After(Data(ty, [], None), After(Empty, Empty)))
  {
    var p := TwoReadings(x, y, ty);
    OpenReadings(g, x, y, ty);
    InsideReadings(EmptyElement(y), ty);
    assert OpenDeriv(g, After(p, Empty), x) == ApplyAfter(Inside(Empty), OpenDeriv(g, p, x));
    CloseReadings(g, EmptyElement(y), ty);
  }

  lemma InsideLeaf(l: Pattern, r: Pattern)
    requires l != NotAllowed && r != NotAllowed
    ensures ApplyAfter(Inside(Empty), After(l, r)) == After(l, After(r, Empty))
  {
  }

  lemma InsideReadings(ey: Pattern, ty: nat)
    requires ey != NotAllowed
    ensures ApplyAfter(Inside(Empty), Choice(After(Empty, ey), After(Data(ty, [], None), Empty)))
         == Choice(After(Empty, After(ey, Empty)), After(Data(ty, [], None), After(Empty, Empty)))
  {
    var dt := Data(ty, [], None);
    assert !PatEq(Empty, dt);
    var (a, b) := (After(Empty, After(ey, Empty)), After(dt, After(Empty, Empty)));
    InsideLeaf(Empty, ey);
    InsideLeaf(dt, Empty);
    assert MkChoice(a, b) == Choice(a, b);
  }

  lemma CloseReadings(g: Grammar, ey: Pattern, ty: nat)
    ensures var p := Choice(After(Empty, After(ey, Empty)), After(Data(ty, [], None), After(Empty, Empty)));
            CloseDeriv(g, p).0 == p
  {
    CloseLeaf(g, Empty, After(ey, Empty));
    CloseLeaf(g, Data(ty, [], None), After(Empty, Empty));
  }

  lemma CloseLeaf(g: Grammar, l: Pattern, r: Pattern)
    requires l.Empty? || l.Data?
    ensures CloseDeriv(g, After(l, r)) == (After(l, r), false)
  {
    assert CloseDeriv(g, l) == (l, false);
  }

  /** The string reading of the empty x is live, so the other is dropped. */
  lemma ReadX(g: Grammar, x: QName, y: QName, ty: nat)
    requires Allowed(g, ty, [], "", NO_BINDINGS)
    ensures ElemRun(g, After(TwoReadings(x, y, ty), Empty), Tag(x)) == After(Empty, Empty)
  {
    OpenX(g, x, y, ty);
    var (a, b) := (After(Empty, After(EmptyElement(y), Empty)), After(Data(ty, [], None), After(Empty, Empty)));
    var c := After(Empty, After(Empty, Empty));
    assert TextDeriv(g, a, "", NO_BINDINGS) == NotAllowed;
    assert TextDeriv(g, b, "", NO_BINDINGS) == c;
    assert TextDeriv(g, Choice(a, b), "", NO_BINDINGS) == c;
    assert !Nullable(g, a) && !Nullable(g, b);
    assert EndDeriv(g, c) == After(Empty, Empty);
    assert KidsRun(g, Choice(a, b), [], NO_BINDINGS) == After(Empty, After(Empty, Empty));
  }

  lemma ReadY(g: Grammar, y: QName)
    ensures ElemRun(g, After(Empty, Empty), Tag(y)) == NotAllowed
  {
    assert OpenDeriv(g, Empty, y) == NotAllowed;
    assert OpenDeriv(g, After(Empty, Empty), y) == NotAllowed;
    assert TagRun(g, After(Empty, Empty), Tag(y)) == NotAllowed;
    assert KidsRun(g, NotAllowed, [], NO_BINDINGS) == NotAllowed;
  }

  /** Whatever the names and the datatype, if the datatype takes "": the empty x
      is read as that string, which forgets the alternative that wanted y after
      it, and the valid document is refused. */
  lemma EmptyElementLoses(g: Grammar, r: QName, x: QName, y: QName, ty: nat)
    requires Allowed(g, ty, [], "", NO_BINDINGS)
    ensures var start := Element(Name(r), TwoReadings(x, y, ty));
            && Exact(g, start)
            && Valid(g, start, Document(r, x, y))
            && !Nullable(g, ElemRun(g, start, ItemOf(Document(r, x, y))))
  {
    var start := Element(Name(r), TwoReadings(x, y, ty));
    var p := After(TwoReadings(x, y, ty), Empty);
    var m := [Tag(x), Tag(y)];
    DocumentValid(g, r, x, y, ty);
    DocumentItem(r, x, y);
    ReadX(g, x, y, ty);
    ReadY(g, y);
    ItemsTwice(g, p, m);
    assert m[0].Elem?;
    assert OpenDeriv(g, start, r) == p;
    EmptyElementPlain(g, x);
    EmptyElementPlain(g, y);
    assert CloseDeriv(g, Group(EmptyElement(x), EmptyElement(y))).1 == false;
    assert CloseDeriv(g, TwoReadings(x, y, ty)) == (TwoReadings(x, y, ty), false);
    assert TagRun(g, start, ItemOf(Document(r, x, y))) == p;
    assert Exact(g, start) by {
      assert Exact(g, Group(EmptyElement(x), EmptyElement(y)));
      assert Exact(g, Element(Name(x), Data(ty, [], None)));
      assert Exact(g, TwoReadings(x, y, ty));
    }
  }

  lemma ItemsTwice(g: Grammar, p: Pattern, m: seq<Item>)
    requires |m| == 2 && m[0].Elem? && m[1].Elem?
    ensures ItemsRun(g, p, m, NO_BINDINGS, true) == ElemRun(g, ElemRun(g, p, m[0]), m[1])
  {
    assert m[1..][1..] == [] && m[1..][0] == m[1];
    assert ItemsRun(g, ElemRun(g, p, m[0]), m[1..], NO_BINDINGS, true)
        == ElemRun(g, ElemRun(g, p, m[0]), m[1]);
  }

  // ---- an attribute value that is not one string -------------------------

  /** An attribute holding a sequence of two values is accepted on the first. */
  lemma SequencedValueAccepted(g: Grammar, name: QName, ty: nat, s: string, t: string)
    requires EqualValue(g, ty, s, NO_BINDINGS, s, NO_BINDINGS)
    ensures var pair := Group(Value(ty, s, NO_BINDINGS), Value(ty, t, NO_BINDINGS));
            && Schema(g, pair) && !OneString(g, pair)
            && AttDeriv(g, Attribute(Name(name), pair), Attr(name, s), NO_BINDINGS) == Empty
            && !Matches(g, NO_BINDINGS, Attribute(Name(name), pair), [Attr(name, s)], [])
  {
    var (v, w) := (Value(ty, s, NO_BINDINGS), Value(ty, t, NO_BINDINGS));
    assert TextDeriv(g, Group(v, w), s, NO_BINDINGS) == w;
    forall m, h | |m| <= 1 && InSequence([], m, h)
      ensures !(Matches(g, NO_BINDINGS, v, h.a1, h.m1) && Matches(g, NO_BINDINGS, w, h.a2, h.m2))
    {
      assert |h.m1| + |h.m2| <= 1;
    }
    assert !Matches(g, NO_BINDINGS, Group(v, w), [], Strings([s]));
    assert !Matches(g, NO_BINDINGS, Group(v, w), [], []);
  }

  // ---- an attribute of a group inside a repetition -----------------------

  /** An x, or a y with attribute a. */
  function Either(x: QName, y: QName, a: QName): Pattern {
    Choice(EmptyElement(x), Group(Attribute(Name(a), Text), EmptyElement(y)))
  }

  lemma SecondMatches(g: Grammar, x: QName, y: QName, a: Attr)
    ensures Repeats(g, NO_BINDINGS, Either(x, y, a.name), 1, [a], [Tag(y)])
  {
    EmptyTagMatches(g, y);
    ShuffleLeft([a]);
    assert InSequence([a], [Tag(y)], Share([a], [], [], [Tag(y)]));
    assert Matches(g, NO_BINDINGS, Attribute(Name(a.name), Text), [a], []);
    assert Matches(g, NO_BINDINGS, Either(x, y, a.name).right, [a], [Tag(y)]);
  }

  lemma RepeatedGroupMatches(g: Grammar, x: QName, y: QName, a: Attr)
    ensures Matches(g, NO_BINDINGS, OneOrMore(Either(x, y, a.name)), [a], [Tag(x), Tag(y)])
  {
    var q := Either(x, y, a.name);
    EmptyTagMatches(g, x);
    ShuffleRight([a]);
    SecondMatches(g, x, y, a);
    assert InSequence([a], [Tag(x), Tag(y)], Share([], [a], [Tag(x)], [Tag(y)]));
    assert Matches(g, NO_BINDINGS, q, [], [Tag(x)]);
    assert Repeats(g, NO_BINDINGS, q, 2, [a], [Tag(x), Tag(y)]);
  }

  /** The attribute is taken to belong to the first repetition, so content that
      begins with another is refused (section 7.1.2 forbids the schema). */
  lemma RepeatedGroupLoses(g: Grammar, x: QName, y: QName, a: Attr)
    requires x != y
    ensures var q := Either(x, y, a.name);
            && Sound(g, OneOrMore(q)) && !AttrFlat(g, q)
            && Matches(g, NO_BINDINGS, OneOrMore(q), [a], [Tag(x), Tag(y)])
            && !Matches(g, NO_BINDINGS, AttDeriv(g, OneOrMore(q), a, NO_BINDINGS), [], [Tag(x), Tag(y)])
  {
    RepeatedGroupMatches(g, x, y, a);
    var q := Either(x, y, a.name);
    EmptyElementPlain(g, x);
    EmptyElementPlain(g, y);
    assert OneString(g, Text) && Schema(g, Text);
    assert Sound(g, Attribute(Name(a.name), Text));
    assert Sound(g, q.right) && Sound(g, q);
    var m := [Tag(x), Tag(y)];
    assert TextDeriv(g, Text, a.value, NO_BINDINGS) == Text;
    assert AttDeriv(g, Attribute(Name(a.name), Text), a, NO_BINDINGS) == Empty;
    assert AttDeriv(g, q.right, a, NO_BINDINGS) == EmptyElement(y);
    assert AttDeriv(g, q, a, NO_BINDINGS) == EmptyElement(y);
    assert AttDeriv(g, OneOrMore(q), a, NO_BINDINGS) == MkGroup(EmptyElement(y), More(q));
    GroupLaw(g, NO_BINDINGS, EmptyElement(y), More(q), [], m);
    forall h | InSequence([], m, h) ensures !Matches(g, NO_BINDINGS, EmptyElement(y), h.a1, h.m1) {
      if |h.m1| == 1 { assert (h.m1 + h.m2)[0] == h.m1[0]; }
    }
  }
}
