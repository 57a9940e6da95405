/** The attribute derivative against the quotient of the language by an
    attribute: what it takes is always right when attribute values are single
    strings, and it misses nothing when repetitions hold no group of attributes. */
module RelaxAttribute {
  import opened RelaxSyntax
  import opened RelaxLanguage
  import opened RelaxDerivative
  import opened RelaxSchema
  import opened RelaxLaws
  import opened RelaxLanguages
  import opened RelaxText

  // ---- attribute values --------------------------------------------------

  /** A pattern of which one string is always enough: once a string is read,
      what is left matches nothing more or nothing at all. */
  predicate OneString(g: Grammar, p: Pattern)
    decreases Level(g.rank, p), p
  {
    match p
    case Choice(l, r) => OneString(g, l) && OneString(g, r)
    case Group(l, r) => OneString(g, l) && OneString(g, r) && Nullable(g, r)
    case Interleave(l, r) => OneString(g, l) && OneString(g, r) && Nullable(g, l) && Nullable(g, r)
    case OneOrMore(q) => OneString(g, q)
    case After(_, _) => false
    case Ref(id) => OneString(g, Expand(g, id))
    case Static(q, _, _, _, _) => OneString(g, q)
    case _ => true
  }

  lemma {:induction false} OneStringDeriv(g: Grammar, p: Pattern, s: string, cx: Context)
    requires OneString(g, p)
    ensures TextDeriv(g, p, s, cx) == NotAllowed || Nullable(g, TextDeriv(g, p, s, cx))
    decreases Depth(g, p)
  {
    match p
    case Choice(l, r) =>
      OneStringDeriv(g, l, s, cx); OneStringDeriv(g, r, s, cx);
      NullableChoice(g, TextDeriv(g, l, s, cx), TextDeriv(g, r, s, cx));
    case Group(l, r) =>
      OneStringDeriv(g, l, s, cx); OneStringDeriv(g, r, s, cx);
      NullableChoice(g, MkGroup(TextDeriv(g, l, s, cx), r), TextDeriv(g, r, s, cx));
    case Interleave(l, r) =>
      OneStringDeriv(g, l, s, cx); OneStringDeriv(g, r, s, cx);
      NullableChoice(g, MkInterleave(TextDeriv(g, l, s, cx), r), MkInterleave(l, TextDeriv(g, r, s, cx)));
    case OneOrMore(q) => OneStringDeriv(g, q, s, cx); NullableMore(g, q);
    case Ref(id) => OneStringDeriv(g, Expand(g, id), s, cx);
    case Static(q, _, _, _, _) => OneStringDeriv(g, q, s, cx);
    case _ =>
  }

  /** Nullable of a merged choice of patterns that are nullable or notAllowed. */
  lemma NullableChoice(g: Grammar, x: Pattern, y: Pattern)
    requires x == NotAllowed || Nullable(g, x)
    requires y == NotAllowed || Nullable(g, y)
    ensures MkChoice(x, y) == NotAllowed || Nullable(g, MkChoice(x, y))
  {
    if x != NotAllowed { NullableLeft(g, x, y); }
  }

  /** A merged choice keeps its first alternative. */
  lemma {:induction false} NullableLeft(g: Grammar, x: Pattern, y: Pattern)
    requires Nullable(g, x)
    ensures Nullable(g, MkChoice(x, y))
    decreases y
  {
    var c := MkChoice(x, y);
    if y == NotAllowed || PatEq(x, y) || InChoice(x, y) {
      assert c == x;
    } else if y.Choice? && AltCount(x) * AltCount(y) <= MAX_MERGE_PAIRS {
      var d := MkChoice(x, y.left);
      NullableLeft(g, x, y.left);
      NullableLeft(g, d, y.right);
      assert c == MkChoice(d, y.right);
    } else {
      assert c == Choice(x, y);
    }
  }

  lemma NullableMore(g: Grammar, q: Pattern)
    ensures Nullable(g, More(q))
  {
    if q != NotAllowed {
      assert !PatEq(OneOrMore(q), Empty) && !InChoice(OneOrMore(q), Empty);
    }
  }

  /** Section 6.2.8: a value matches as a string, or as nothing if blank. */
  ghost predicate ValueReadAs(g: Grammar, cx: Context, v: Pattern, s: string) {
    Matches(g, cx, v, [], Strings([s])) || (WhitespaceOnly(s) && Matches(g, cx, v, [], []))
  }

  /** What `ValueMatch` decides: the derivative is live, where it should be nullable. */
  lemma ValueMatchExact(g: Grammar, cx: Context, v: Pattern, s: string)
    requires SchemaGrammar(g) && Schema(g, v)
    ensures ValueReadAs(g, cx, v, s) <==>
      (Nullable(g, v) && WhitespaceOnly(s)) || Nullable(g, TextDeriv(g, v, s, cx))
    ensures ValueReadAs(g, cx, v, s) ==> ValueMatch(g, v, s, cx)
    ensures OneString(g, v) ==> (ValueMatch(g, v, s, cx) <==> ValueReadAs(g, cx, v, s))
  {
    var d := TextDeriv(g, v, s, cx);
    NullableExact(g, cx, v);
    TextExact(g, cx, v, s, []);
    SchemaHereditary(g);
    KeepsText(g, q => Schema(g, q), v, s, cx);
    NullableExact(g, cx, d);
    assert [Str(s)] + [] == Strings([s]);
    if OneString(g, v) { OneStringDeriv(g, v, s, cx); }
  }

  // ---- conditions on a schema --------------------------------------------

  /** Every attribute holds a single string, element contents included. */
  predicate SingleStrings(g: Grammar, p: Pattern) {
    match p
    case Choice(l, r) => SingleStrings(g, l) && SingleStrings(g, r)
    case Group(l, r) => SingleStrings(g, l) && SingleStrings(g, r)
    case Interleave(l, r) => SingleStrings(g, l) && SingleStrings(g, r)
    case OneOrMore(q) => SingleStrings(g, q)
    case Element(_, q) => SingleStrings(g, q)
    case Attribute(_, v) => OneString(g, v)
    case After(_, _) => false
    case Static(q, _, _, _, _) => SingleStrings(g, q)
    case _ => true
  }

  /** No group or interleave holding an attribute, before an element. */
  predicate AttrFlat(g: Grammar, p: Pattern)
    decreases Level(g.rank, p), p
  {
    match p
    case Choice(l, r) => AttrFlat(g, l) && AttrFlat(g, r)
    case Group(l, r) => AttrFree(g, l) && AttrFree(g, r)
    case Interleave(l, r) => AttrFree(g, l) && AttrFree(g, r)
    case OneOrMore(q) => AttrFlat(g, q)
    case Ref(id) => AttrFlat(g, Expand(g, id))
    case Static(q, _, _, _, _) => AttrFlat(g, q)
    case _ => true
  }

  /** No attribute of a group or interleave inside a repetition (section 7.1.2),
      element contents included. */
  predicate FlatRepeats(g: Grammar, p: Pattern) {
    match p
    case Choice(l, r) => FlatRepeats(g, l) && FlatRepeats(g, r)
    case Group(l, r) => FlatRepeats(g, l) && FlatRepeats(g, r)
    case Interleave(l, r) => FlatRepeats(g, l) && FlatRepeats(g, r)
    case OneOrMore(q) => AttrFlat(g, q) && FlatRepeats(g, q)
    case Element(_, q) => FlatRepeats(g, q)
    case After(_, _) => false
    case Static(q, _, _, _, _) => FlatRepeats(g, q)
    case _ => true
  }

  /** What soundness asks of a pattern, and what completeness asks besides. */
  predicate Sound(g: Grammar, p: Pattern) { Schema(g, p) && SingleStrings(g, p) }

  predicate Exact(g: Grammar, p: Pattern) { Sound(g, p) && FlatRepeats(g, p) }

  ghost predicate SoundGrammar(g: Grammar) { forall id :: Sound(g, Expand(g, id)) }

  ghost predicate ExactGrammar(g: Grammar) { forall id :: Exact(g, Expand(g, id)) }

  lemma SoundHereditary(g: Grammar)
    requires SoundGrammar(g)
    ensures SchemaGrammar(g) && Hereditary(g, p => Sound(g, p))
  {
    assert forall id :: Sound(g, Expand(g, id)) ==> Schema(g, Expand(g, id));
  }

  lemma {:induction false} AttrFreeIsFlat(g: Grammar, p: Pattern)
    requires AttrFree(g, p)
    ensures AttrFlat(g, p)
    decreases Depth(g, p)
  {
    match p
    case Choice(l, r) => AttrFreeIsFlat(g, l); AttrFreeIsFlat(g, r);
    case OneOrMore(q) => AttrFreeIsFlat(g, q);
    case Ref(id) => AttrFreeIsFlat(g, Expand(g, id));
    case Static(q, _, _, _, _) => AttrFreeIsFlat(g, q);
    case _ =>
  }

  lemma ExactHereditary(g: Grammar)
    requires ExactGrammar(g)
    ensures SoundGrammar(g) && Hereditary(g, p => Exact(g, p))
  {
    assert forall id :: Exact(g, Expand(g, id)) ==> Sound(g, Expand(g, id));
    forall q | Exact(g, q) && AttrFree(g, q) ensures Exact(g, OneOrMore(q)) { AttrFreeIsFlat(g, q); }
  }

  // ---- the quotient ------------------------------------------------------

  /** What the attribute derivative accepts, the pattern accepts with the
      attribute put back. */
  lemma {:induction false} AttSound(
      g: Grammar, cx: Context, p: Pattern, x: Attr, a: seq<Attr>, m: seq<Item>)
    requires SoundGrammar(g) && Sound(g, p)
    requires Matches(g, cx, AttDeriv(g, p, x, cx), a, m)
    ensures Matches(g, cx, p, [x] + a, m)
    decreases Depth(g, p)
  {
    match p
    case Choice(l, r) =>
      ChoiceLaw(g, cx, AttDeriv(g, l, x, cx), AttDeriv(g, r, x, cx), a, m);
      if Matches(g, cx, AttDeriv(g, l, x, cx), a, m) { AttSound(g, cx, l, x, a, m); }
      else { AttSound(g, cx, r, x, a, m); }
    case Group(l, r) =>
      var (dl, dr) := (AttDeriv(g, l, x, cx), AttDeriv(g, r, x, cx));
      var (u, v, du, dv) := (LangOf(g, cx, l), LangOf(g, cx, r), LangOf(g, cx, dl), LangOf(g, cx, dr));
      forall b, k | du(b, k) ensures u([x] + b, k) { AttSound(g, cx, l, x, b, k); }
      forall b, k | dv(b, k) ensures v([x] + b, k) { AttSound(g, cx, r, x, b, k); }
      AttGroupIs(g, cx, l, r, dl, dr, a, m);
      GroupAttrBelow(u, v, du, dv, x, a, m);
      GroupIs(g, cx, l, r, [x] + a, m);
    case Interleave(l, r) =>
      var (dl, dr) := (AttDeriv(g, l, x, cx), AttDeriv(g, r, x, cx));
      var (u, v, du, dv) := (LangOf(g, cx, l), LangOf(g, cx, r), LangOf(g, cx, dl), LangOf(g, cx, dr));
      forall b, k | du(b, k) ensures u([x] + b, k) { AttSound(g, cx, l, x, b, k); }
      forall b, k | dv(b, k) ensures v([x] + b, k) { AttSound(g, cx, r, x, b, k); }
      AttInterleaveIs(g, cx, l, r, dl, dr, a, m);
      InterleaveAttrBelow(u, v, du, dv, x, a, m);
      InterleaveIs(g, cx, l, r, [x] + a, m);
    case OneOrMore(q) =>
      var d := AttDeriv(g, q, x, cx);
      forall b, k | LangOf(g, cx, d)(b, k) ensures LangOf(g, cx, q)([x] + b, k) {
        AttSound(g, cx, q, x, b, k);
      }
      ThenMoreIs(g, cx, d, q, a, m);
      RepeatAttrBelow(LangOf(g, cx, q), LangOf(g, cx, d), x, a, m);
      OneOrMoreIs(g, cx, q, [x] + a, m);
    case Attribute(_, v) =>
      ValueMatchExact(g, cx, v, x.value);
      assert [x] + a == [x];
    case Ref(id) => AttSound(g, cx, Expand(g, id), x, a, m);
    case Static(q, _, _, _, _) => AttSound(g, cx, q, x, a, m);
    case _ =>
  }

  lemma AttGroupIs(g: Grammar, cx: Context, l: Pattern, r: Pattern, dl: Pattern, dr: Pattern,
                   a: seq<Attr>, m: seq<Item>)
    ensures Matches(g, cx, MkChoice(MkGroup(dl, r), MkGroup(l, dr)), a, m) <==>
      || InGroup(LangOf(g, cx, dl), LangOf(g, cx, r), a, m)
      || InGroup(LangOf(g, cx, l), LangOf(g, cx, dr), a, m)
  {
    ChoiceLaw(g, cx, MkGroup(dl, r), MkGroup(l, dr), a, m);
    GroupLaw(g, cx, dl, r, a, m);
    GroupLaw(g, cx, l, dr, a, m);
    GroupIs(g, cx, dl, r, a, m);
    GroupIs(g, cx, l, dr, a, m);
  }

  lemma AttInterleaveIs(g: Grammar, cx: Context, l: Pattern, r: Pattern, dl: Pattern, dr: Pattern,
                        a: seq<Attr>, m: seq<Item>)
    ensures Matches(g, cx, MkChoice(MkInterleave(dl, r), MkInterleave(l, dr)), a, m) <==>
      || InInterleave(LangOf(g, cx, dl), LangOf(g, cx, r), a, m)
      || InInterleave(LangOf(g, cx, l), LangOf(g, cx, dr), a, m)
  {
    ChoiceLaw(g, cx, MkInterleave(dl, r), MkInterleave(l, dr), a, m);
    InterleaveLaw(g, cx, dl, r, a, m);
    InterleaveLaw(g, cx, l, dr, a, m);
    InterleaveIs(g, cx, dl, r, a, m);
    InterleaveIs(g, cx, l, dr, a, m);
  }

  lemma {:induction false} AttrFreeTakesNone(
      g: Grammar, cx: Context, p: Pattern, a: seq<Attr>, m: seq<Item>)
    requires AttrFree(g, p) && Matches(g, cx, p, a, m)
    ensures a == []
    decreases Depth(g, p), 0
  {
    match p
    case Choice(l, r) =>
      if Matches(g, cx, l, a, m) { AttrFreeTakesNone(g, cx, l, a, m); }
      else { AttrFreeTakesNone(g, cx, r, a, m); }
    case Group(l, r) =>
      var h :| InSequence(a, m, h) && Matches(g, cx, l, h.a1, h.m1) && Matches(g, cx, r, h.a2, h.m2);
      AttrFreeTakesNone(g, cx, l, h.a1, h.m1);
      AttrFreeTakesNone(g, cx, r, h.a2, h.m2);
    case Interleave(l, r) =>
      var h :| Interleaved(a, m, h) && Matches(g, cx, l, h.a1, h.m1) && Matches(g, cx, r, h.a2, h.m2);
      AttrFreeTakesNone(g, cx, l, h.a1, h.m1);
      AttrFreeTakesNone(g, cx, r, h.a2, h.m2);
    case OneOrMore(q) =>
      var n: nat :| n >= 1 && Repeats(g, cx, q, n, a, m);
      AttrFreeRepeats(g, cx, q, n, a, m);
    case Ref(id) => AttrFreeTakesNone(g, cx, Expand(g, id), a, m);
    case Static(q, _, _, _, _) => AttrFreeTakesNone(g, cx, q, a, m);
    case _ =>
  }

  lemma {:induction false} AttrFreeRepeats(
      g: Grammar, cx: Context, q: Pattern, n: nat, a: seq<Attr>, m: seq<Item>)
    requires n >= 1 && AttrFree(g, q) && Repeats(g, cx, q, n, a, m)
    ensures a == []
    decreases Depth(g, q), n
  {
    if n == 1 {
      AttrFreeTakesNone(g, cx, q, a, m);
    } else {
      var h :| InSequence(a, m, h) && Matches(g, cx, q, h.a1, h.m1) && Repeats(g, cx, q, n - 1, h.a2, h.m2);
      AttrFreeTakesNone(g, cx, q, h.a1, h.m1);
      AttrFreeRepeats(g, cx, q, n - 1, h.a2, h.m2);
    }
  }

  /** Where attributes stand outside groups, one read is one done with. */
  lemma {:induction false} FlatAlone(
      g: Grammar, cx: Context, p: Pattern, x: Attr, a: seq<Attr>, m: seq<Item>)
    requires SchemaGrammar(g) && Schema(g, p)
    requires AttrFlat(g, p) && Matches(g, cx, p, [x] + a, m)
    ensures Matches(g, cx, AttDeriv(g, p, x, cx), [], [])
    ensures (a == [] && m == []) || Matches(g, cx, p, a, m)
    decreases Depth(g, p), 0
  {
    match p
    case Choice(l, r) =>
      if Matches(g, cx, l, [x] + a, m) { FlatAlone(g, cx, l, x, a, m); }
      else { FlatAlone(g, cx, r, x, a, m); }
      ChoiceLaw(g, cx, AttDeriv(g, l, x, cx), AttDeriv(g, r, x, cx), [], []);
    case Group(l, r) =>
      AttrFreeTakesNone(g, cx, p, [x] + a, m);
    case Interleave(l, r) =>
      AttrFreeTakesNone(g, cx, p, [x] + a, m);
    case OneOrMore(q) => FlatAloneRepeat(g, cx, q, x, a, m);
    case Attribute(_, v) =>
      assert ([x] + a)[0] == x;
      ValueMatchExact(g, cx, v, x.value);
    case Ref(id) => FlatAlone(g, cx, Expand(g, id), x, a, m);
    case Static(q, _, _, _, _) => FlatAlone(g, cx, q, x, a, m);
    case _ =>
  }

  lemma {:induction false} FlatAloneRepeat(
      g: Grammar, cx: Context, q: Pattern, x: Attr, a: seq<Attr>, m: seq<Item>)
    requires SchemaGrammar(g) && Schema(g, q)
    requires AttrFlat(g, q) && Matches(g, cx, OneOrMore(q), [x] + a, m)
    ensures Matches(g, cx, AttDeriv(g, OneOrMore(q), x, cx), [], [])
    ensures (a == [] && m == []) || Matches(g, cx, OneOrMore(q), a, m)
    decreases Depth(g, q), 1
  {
    var (u, du) := (LangOf(g, cx, q), LangOf(g, cx, AttDeriv(g, q, x, cx)));
    forall b, k | u([x] + b, k)
      ensures (b == [] && k == []) || u(b, k)
      ensures du([], [])
    {
      FlatAlone(g, cx, q, x, b, k);
    }
    OneOrMoreIs(g, cx, q, [x] + a, m);
    OneOrMoreIs(g, cx, q, a, m);
    var n: nat :| n >= 1 && InRepeat(u, n, [x] + a, m);
    AloneInRepeat(u, n, x, a, m);
    ThenMoreIs(g, cx, AttDeriv(g, q, x, cx), q, [], []);
    assert InSequence([], [], Share([], [], [], []));
  }

  lemma RepeatComplete(g: Grammar, cx: Context, q: Pattern, x: Attr, a: seq<Attr>, m: seq<Item>)
    requires ExactGrammar(g) && Exact(g, OneOrMore(q))
    requires Matches(g, cx, OneOrMore(q), [x] + a, m)
    ensures Matches(g, cx, MkGroup(AttDeriv(g, q, x, cx), More(q)), a, m)
  {
    var (u, du) := (LangOf(g, cx, q), LangOf(g, cx, AttDeriv(g, q, x, cx)));
    forall b, k | u([x] + b, k)
      ensures (b == [] && k == []) || u(b, k)
      ensures du([], [])
    {
      FlatAlone(g, cx, q, x, b, k);
    }
    OneOrMoreIs(g, cx, q, [x] + a, m);
    RepeatAttrAbove(u, du, x, a, m);
    ThenMoreIs(g, cx, AttDeriv(g, q, x, cx), q, a, m);
  }

  lemma GroupComplete(g: Grammar, cx: Context, l: Pattern, r: Pattern, dl: Pattern, dr: Pattern,
                      x: Attr, a: seq<Attr>, m: seq<Item>)
    requires AttrAbove(LangOf(g, cx, l), LangOf(g, cx, dl), x) && AttrAbove(LangOf(g, cx, r), LangOf(g, cx, dr), x)
    requires Matches(g, cx, Group(l, r), [x] + a, m)
    ensures Matches(g, cx, MkChoice(MkGroup(dl, r), MkGroup(l, dr)), a, m)
  {
    GroupIs(g, cx, l, r, [x] + a, m);
    GroupAttrAbove(LangOf(g, cx, l), LangOf(g, cx, r), LangOf(g, cx, dl), LangOf(g, cx, dr), x, a, m);
    AttGroupIs(g, cx, l, r, dl, dr, a, m);
  }

  lemma InterleaveComplete(g: Grammar, cx: Context, l: Pattern, r: Pattern, dl: Pattern, dr: Pattern,
                           x: Attr, a: seq<Attr>, m: seq<Item>)
    requires AttrAbove(LangOf(g, cx, l), LangOf(g, cx, dl), x) && AttrAbove(LangOf(g, cx, r), LangOf(g, cx, dr), x)
    requires Matches(g, cx, Interleave(l, r), [x] + a, m)
    ensures Matches(g, cx, MkChoice(MkInterleave(dl, r), MkInterleave(l, dr)), a, m)
  {
    InterleaveIs(g, cx, l, r, [x] + a, m);
    InterleaveAttrAbove(LangOf(g, cx, l), LangOf(g, cx, r), LangOf(g, cx, dl), LangOf(g, cx, dr), x, a, m);
    AttInterleaveIs(g, cx, l, r, dl, dr, a, m);
  }

  /** The attribute derivative misses nothing. */
  lemma {:induction false} AttComplete(
      g: Grammar, cx: Context, p: Pattern, x: Attr, a: seq<Attr>, m: seq<Item>)
    requires ExactGrammar(g) && Exact(g, p)
    requires Matches(g, cx, p, [x] + a, m)
    ensures Matches(g, cx, AttDeriv(g, p, x, cx), a, m)
    decreases Depth(g, p)
  {
    match p
    case Choice(l, r) =>
      ChoiceLaw(g, cx, AttDeriv(g, l, x, cx), AttDeriv(g, r, x, cx), a, m);
      if Matches(g, cx, l, [x] + a, m) { AttComplete(g, cx, l, x, a, m); }
      else { AttComplete(g, cx, r, x, a, m); }
    case Group(l, r) =>
      var (dl, dr) := (AttDeriv(g, l, x, cx), AttDeriv(g, r, x, cx));
      forall b, k | LangOf(g, cx, l)([x] + b, k) ensures LangOf(g, cx, dl)(b, k) { AttComplete(g, cx, l, x, b, k); }
      forall b, k | LangOf(g, cx, r)([x] + b, k) ensures LangOf(g, cx, dr)(b, k) { AttComplete(g, cx, r, x, b, k); }
      GroupComplete(g, cx, l, r, dl, dr, x, a, m);
    case Interleave(l, r) =>
      var (dl, dr) := (AttDeriv(g, l, x, cx), AttDeriv(g, r, x, cx));
      forall b, k | LangOf(g, cx, l)([x] + b, k) ensures LangOf(g, cx, dl)(b, k) { AttComplete(g, cx, l, x, b, k); }
      forall b, k | LangOf(g, cx, r)([x] + b, k) ensures LangOf(g, cx, dr)(b, k) { AttComplete(g, cx, r, x, b, k); }
      InterleaveComplete(g, cx, l, r, dl, dr, x, a, m);
    case OneOrMore(q) => RepeatComplete(g, cx, q, x, a, m);
    case Attribute(_, v) =>
      assert ([x] + a)[0] == x;
      ValueMatchExact(g, cx, v, x.value);
    case Ref(id) => AttComplete(g, cx, Expand(g, id), x, a, m);
    case Static(q, _, _, _, _) => AttComplete(g, cx, q, x, a, m);
    case _ =>
  }

  /** Without attributes, `u` and `v` take the same items. */
  ghost predicate BareSame(u: Lang, v: Lang) { forall m :: v([], m) <==> u([], m) }

  lemma CloseGroup(g: Grammar, cx: Context, l: Pattern, r: Pattern, dl: Pattern, dr: Pattern, m: seq<Item>)
    requires BareSame(LangOf(g, cx, l), LangOf(g, cx, dl)) && BareSame(LangOf(g, cx, r), LangOf(g, cx, dr))
    ensures Matches(g, cx, MkGroup(dl, dr), [], m) <==> Matches(g, cx, Group(l, r), [], m)
  {
    forall h | InSequence([], m, h) ensures h.a1 == [] && h.a2 == [] { NoAttrs([], m, h); }
    GroupLaw(g, cx, dl, dr, [], m);
    GroupIs(g, cx, dl, dr, [], m);
    GroupIs(g, cx, l, r, [], m);
  }

  lemma CloseInterleave(g: Grammar, cx: Context, l: Pattern, r: Pattern, dl: Pattern, dr: Pattern, m: seq<Item>)
    requires BareSame(LangOf(g, cx, l), LangOf(g, cx, dl)) && BareSame(LangOf(g, cx, r), LangOf(g, cx, dr))
    ensures Matches(g, cx, MkInterleave(dl, dr), [], m) <==> Matches(g, cx, Interleave(l, r), [], m)
  {
    forall h | Interleaved([], m, h) ensures h.a1 == [] && h.a2 == [] { NoAttrs([], m, h); }
    InterleaveLaw(g, cx, dl, dr, [], m);
    InterleaveIs(g, cx, dl, dr, [], m);
    InterleaveIs(g, cx, l, r, [], m);
  }

  lemma CloseMore(g: Grammar, cx: Context, q: Pattern, d: Pattern, m: seq<Item>)
    requires BareSame(LangOf(g, cx, q), LangOf(g, cx, d))
    ensures Matches(g, cx, MkOneOrMore(d), [], m) <==> Matches(g, cx, OneOrMore(q), [], m)
  {
    var (u, du) := (LangOf(g, cx, q), LangOf(g, cx, d));
    OneOrMoreIs(g, cx, q, [], m);
    OneOrMoreIs(g, cx, d, [], m);
    OneOrMoreLaw(g, cx, d, [], m);
    forall n: nat | n >= 1 ensures InRepeat(u, n, [], m) <==> InRepeat(du, n, [], m) {
      SameRepeat(u, du, n, m);
    }
  }

  /** The close of a start tag keeps exactly what matches without attributes. */
  lemma {:induction false} CloseExact(g: Grammar, cx: Context, p: Pattern, m: seq<Item>)
    ensures Matches(g, cx, CloseDeriv(g, p).0, [], m) <==> Matches(g, cx, p, [], m)
    decreases Depth(g, p)
  {
    match p
    case Choice(l, r) =>
      CloseExact(g, cx, l, m); CloseExact(g, cx, r, m);
      ChoiceLaw(g, cx, CloseDeriv(g, l).0, CloseDeriv(g, r).0, [], m);
    case Group(l, r) =>
      var (dl, dr) := (CloseDeriv(g, l).0, CloseDeriv(g, r).0);
      forall k ensures LangOf(g, cx, dl)([], k) <==> LangOf(g, cx, l)([], k) { CloseExact(g, cx, l, k); }
      forall k ensures LangOf(g, cx, dr)([], k) <==> LangOf(g, cx, r)([], k) { CloseExact(g, cx, r, k); }
      CloseGroup(g, cx, l, r, dl, dr, m);
    case Interleave(l, r) =>
      var (dl, dr) := (CloseDeriv(g, l).0, CloseDeriv(g, r).0);
      forall k ensures LangOf(g, cx, dl)([], k) <==> LangOf(g, cx, l)([], k) { CloseExact(g, cx, l, k); }
      forall k ensures LangOf(g, cx, dr)([], k) <==> LangOf(g, cx, r)([], k) { CloseExact(g, cx, r, k); }
      CloseInterleave(g, cx, l, r, dl, dr, m);
    case OneOrMore(q) =>
      var d := CloseDeriv(g, q).0;
      forall k ensures LangOf(g, cx, d)([], k) <==> LangOf(g, cx, q)([], k) { CloseExact(g, cx, q, k); }
      CloseMore(g, cx, q, d, m);
    case Ref(id) => CloseExact(g, cx, Expand(g, id), m);
    case Static(q, _, _, _, _) => CloseExact(g, cx, q, m);
    case _ =>
  }

  lemma {:induction false} SameRepeat(u: Lang, v: Lang, n: nat, m: seq<Item>)
    requires n >= 1 && forall k :: u([], k) <==> v([], k)
    ensures InRepeat(u, n, [], m) <==> InRepeat(v, n, [], m)
    decreases n
  {
    if n > 1 {
      forall h | InSequence([], m, h)
        ensures h.a1 == [] && h.a2 == []
        ensures InRepeat(u, n - 1, h.a2, h.m2) <==> InRepeat(v, n - 1, h.a2, h.m2)
      {
        NoAttrs([], m, h);
        SameRepeat(u, v, n - 1, h.m2);
      }
    }
  }
}
