/** The simplifying constructors keep the language of what they build. */
module RelaxLaws {
  import opened Basics
  import opened RelaxSyntax
  import opened RelaxLanguage

  // ---- shuffles ----------------------------------------------------------

  lemma {:induction false} ShuffleRight<T>(w: seq<T>)
    ensures Shuffle(w, [], w)
  {
    if w != [] { ShuffleRight(w[1..]); }
  }

  lemma {:induction false} ShuffleLeft<T>(w: seq<T>)
    ensures Shuffle(w, w, [])
  {
    if w != [] { ShuffleLeft(w[1..]); }
  }

  lemma {:induction false} ShuffleWithNothing<T>(w: seq<T>, u: seq<T>)
    requires Shuffle(w, u, []) || Shuffle(w, [], u)
    ensures u == w
  {
    if w != [] {
      ShuffleWithNothing(w[1..], u[1..]);
      assert w == [w[0]] + w[1..] && u == [u[0]] + u[1..];
    }
  }

  lemma {:induction false} ShuffleSwap<T>(w: seq<T>, u: seq<T>, v: seq<T>)
    requires Shuffle(w, u, v)
    ensures Shuffle(w, v, u)
  {
    if w != [] {
      if u != [] && u[0] == w[0] && Shuffle(w[1..], u[1..], v) {
        ShuffleSwap(w[1..], u[1..], v);
      } else {
        ShuffleSwap(w[1..], u, v[1..]);
      }
    }
  }

  lemma {:induction false} ShuffleAppend<T>(u: seq<T>, v: seq<T>)
    ensures Shuffle(u + v, u, v)
  {
    if u != [] {
      assert (u + v)[1..] == u[1..] + v;
      ShuffleAppend(u[1..], v);
    } else {
      assert u + v == v;
      if v != [] {
        assert v[1..] == [] + v[1..];
        ShuffleAppend(u, v[1..]);
      }
    }
  }

  /** Putting an item in front of the whole puts it in front of either part. */
  lemma ShuffleCons<T>(x: T, w: seq<T>, u: seq<T>, v: seq<T>)
    requires Shuffle(w, u, v)
    ensures Shuffle([x] + w, [x] + u, v)
    ensures Shuffle([x] + w, u, [x] + v)
  {
    assert ([x] + w)[1..] == w;
    assert ([x] + u)[1..] == u;
    assert ([x] + v)[1..] == v;
  }

  // ---- structural equality is sound --------------------------------------

  /** The pattern with its static wrappers taken away. */
  function Unwrap(p: Pattern): Pattern {
    match p
    case Choice(l, r) => Choice(Unwrap(l), Unwrap(r))
    case Interleave(l, r) => Interleave(Unwrap(l), Unwrap(r))
    case Group(l, r) => Group(Unwrap(l), Unwrap(r))
    case After(l, r) => After(Unwrap(l), Unwrap(r))
    case OneOrMore(q) => OneOrMore(Unwrap(q))
    case List(q) => List(Unwrap(q))
    case Element(n, q) => Element(n, Unwrap(q))
    case Attribute(n, q) => Attribute(n, Unwrap(q))
    case Data(ty, ps, x) => Data(ty, ps, if x.Some? then Some(Unwrap(x.value)) else None)
    case Static(q, _, _, _, _) => Unwrap(q)
    case _ => p
  }

  lemma {:induction false} UnwrapUnstatic(p: Pattern)
    ensures Unwrap(Unstatic(p)) == Unwrap(p)
  {
    if p.Static? { UnwrapUnstatic(p.inner); }
  }

  /** `PatEq` never equates patterns that differ beneath their wrappers. */
  lemma {:induction false} PatEqSound(a: Pattern, b: Pattern)
    requires PatEq(a, b)
    ensures Unwrap(a) == Unwrap(b)
    decreases a
  {
    if !(a.Static? && a == b) {
      UnwrapUnstatic(a);
      UnwrapUnstatic(b);
      var x, y := Unstatic(a), Unstatic(b);
      match x
      case Choice(l, r) => PatEqSound(l, y.left); PatEqSound(r, y.right);
      case Group(l, r) => PatEqSound(l, y.left); PatEqSound(r, y.right);
      case Interleave(l, r) => PatEqSound(l, y.left); PatEqSound(r, y.right);
      case After(l, r) => PatEqSound(l, y.left); PatEqSound(r, y.right);
      case OneOrMore(q) => PatEqSound(q, y.body);
      case List(q) => PatEqSound(q, y.body);
      case Element(n, q) => PatEqSound(q, y.content);
      case Attribute(n, q) => PatEqSound(q, y.content);
      case _ =>
    }
  }

  /** Two grammars with the same definitions, wrappers apart. */
  ghost predicate SameGrammar(g: Grammar, g': Grammar) {
    g.lib == g'.lib && forall id :: Unwrap(Expand(g, id)) == Unwrap(Expand(g', id))
  }

  /** Patterns that differ only in wrappers have one language. */
  lemma {:induction false} SameMeaning(
      g: Grammar, g': Grammar, cx: Context, p: Pattern, p': Pattern, a: seq<Attr>, m: seq<Item>)
    requires SameGrammar(g, g') && Unwrap(p) == Unwrap(p')
    ensures Matches(g, cx, p, a, m) <==> Matches(g', cx, p', a, m)
    decreases Weight(m), Level(g.rank, p), p, p', 2
  {
    if p.Static? {
      SameMeaning(g, g', cx, p.inner, p', a, m);
    } else if p'.Static? {
      SameMeaning(g, g', cx, p, p'.inner, a, m);
    } else if p.Group? || p.Interleave? {
      SameBoth(g, g', cx, p, p', a, m);
    } else if p.Element? || p.Attribute? {
      SameContent(g, g', cx, p, p', a, m);
    } else {
      match p
      case Choice(l, r) =>
        SameMeaning(g, g', cx, l, p'.left, a, m);
        SameMeaning(g, g', cx, r, p'.right, a, m);
      case OneOrMore(q) =>
        forall n: nat | n >= 1
          ensures Repeats(g, cx, q, n, a, m) <==> Repeats(g', cx, p'.body, n, a, m)
        {
          SameRepeats(g, g', cx, q, p'.body, n, a, m);
        }
      case Data(ty, params, x) =>
        if x.Some? { SameMeaning(g, g', cx, x.value, p'.except.value, [], m); }
      case List(q) =>
        if |m| == 1 && m[0].Str? {
          StringsWeight(SplitTokens(m[0].s));
          SameMeaning(g, g', cx, q, p'.body, [], Strings(SplitTokens(m[0].s)));
        }
      case Ref(id) =>
        SameMeaning(g, g', cx, Expand(g, id), Expand(g', id), a, m);
      case _ =>
    }
  }

  lemma {:induction false} SameBoth(
      g: Grammar, g': Grammar, cx: Context, p: Pattern, p': Pattern, a: seq<Attr>, m: seq<Item>)
    requires (p.Group? && p'.Group?) || (p.Interleave? && p'.Interleave?)
    requires SameGrammar(g, g') && Unwrap(p) == Unwrap(p')
    ensures Matches(g, cx, p, a, m) <==> Matches(g', cx, p', a, m)
    decreases Weight(m), Level(g.rank, p), p, p', 1
  {
    forall h | InSequence(a, m, h) || Interleaved(a, m, h)
      ensures Matches(g, cx, p.left, h.a1, h.m1) <==> Matches(g', cx, p'.left, h.a1, h.m1)
      ensures Matches(g, cx, p.right, h.a2, h.m2) <==> Matches(g', cx, p'.right, h.a2, h.m2)
    {
      SameShares(g, g', cx, p, p', a, m, h);
    }
  }

  lemma {:induction false} SameContent(
      g: Grammar, g': Grammar, cx: Context, p: Pattern, p': Pattern, a: seq<Attr>, m: seq<Item>)
    requires (p.Element? && p'.Element?) || (p.Attribute? && p'.Attribute?)
    requires SameGrammar(g, g') && Unwrap(p) == Unwrap(p')
    ensures Matches(g, cx, p, a, m) <==> Matches(g', cx, p', a, m)
    decreases Weight(m), Level(g.rank, p), p, p', 1
  {
    var v, v' := p.content, p'.content;
    if p.Attribute? && m == [] && |a| == 1 {
      StringsWeight([a[0].value]);
      SameMeaning(g, g', cx, v, v', [], Strings([a[0].value]));
      SameMeaning(g, g', cx, v, v', [], []);
    } else if p.Element? && |m| == 1 && m[0].Elem? {
      forall k | ReadAs(m[0].kids, k)
        ensures Matches(g, m[0].cx, v, m[0].attrs, k) <==> Matches(g', m[0].cx, v', m[0].attrs, k)
      {
        ReadAsWeight(m, k);
        SameMeaning(g, g', m[0].cx, v, v', m[0].attrs, k);
      }
    }
  }

  lemma {:induction false} SameShares(
      g: Grammar, g': Grammar, cx: Context, p: Pattern, p': Pattern, a: seq<Attr>, m: seq<Item>, h: Share)
    requires (p.Group? && p'.Group?) || (p.Interleave? && p'.Interleave?)
    requires InSequence(a, m, h) || Interleaved(a, m, h)
    requires SameGrammar(g, g') && Unwrap(p) == Unwrap(p')
    ensures Matches(g, cx, p.left, h.a1, h.m1) <==> Matches(g', cx, p'.left, h.a1, h.m1)
    ensures Matches(g, cx, p.right, h.a2, h.m2) <==> Matches(g', cx, p'.right, h.a2, h.m2)
    decreases Weight(m), Level(g.rank, p), p, p', 0
  {
    ShareWeight(a, m, h);
    SameMeaning(g, g', cx, p.left, p'.left, h.a1, h.m1);
    SameMeaning(g, g', cx, p.right, p'.right, h.a2, h.m2);
  }

  lemma {:induction false} SameRepeats(
      g: Grammar, g': Grammar, cx: Context, q: Pattern, q': Pattern, n: nat, a: seq<Attr>, m: seq<Item>)
    requires n >= 1 && SameGrammar(g, g') && Unwrap(q) == Unwrap(q')
    ensures Repeats(g, cx, q, n, a, m) <==> Repeats(g', cx, q', n, a, m)
    decreases Weight(m), Level(g.rank, q), q, q', n + 2
  {
    if n == 1 {
      SameMeaning(g, g', cx, q, q', a, m);
    } else {
      forall h | InSequence(a, m, h)
        ensures Matches(g, cx, q, h.a1, h.m1) <==> Matches(g', cx, q', h.a1, h.m1)
        ensures Repeats(g, cx, q, n - 1, h.a2, h.m2) <==> Repeats(g', cx, q', n - 1, h.a2, h.m2)
      {
        ShareWeight(a, m, h);
        SameMeaning(g, g', cx, q, q', h.a1, h.m1);
        SameRepeats(g, g', cx, q, q', n - 1, h.a2, h.m2);
      }
    }
  }

  // ---- constructors ------------------------------------------------------

  /** A property of patterns that holds of a choice when it holds of either
      branch, and does not see wrappers. */
  ghost predicate Additive(f: Pattern -> bool) {
    && !f(NotAllowed)
    && (forall l, r {:trigger f(Choice(l, r))} :: f(Choice(l, r)) <==> f(l) || f(r))
    && (forall p {:trigger f(Unwrap(p))} :: f(Unwrap(p)) == f(p))
  }

  /** A pattern already among the alternatives adds nothing. */
  lemma {:induction false} InChoiceAdds(f: Pattern -> bool, x: Pattern, y: Pattern)
    requires Additive(f) && InChoice(x, y) && f(y)
    ensures f(x)
    decreases x
  {
    var c := Unstatic(x);
    UnwrapUnstatic(x);
    assert f(Unwrap(c)) == f(Unwrap(x));
    if !c.Choice? {
      PatEqSound(x, y);
      assert f(Unwrap(x)) == f(Unwrap(y));
    } else if Size(c.right) == Size(y) && PatEq(c.right, y) {
      PatEqSound(c.right, y);
      assert f(Unwrap(c.right)) == f(Unwrap(y));
      assert c == Choice(c.left, c.right);
    } else {
      InChoiceAdds(f, c.left, y);
      assert c == Choice(c.left, c.right);
    }
  }

  lemma {:induction false} ChoiceAdds(f: Pattern -> bool, x: Pattern, y: Pattern)
    requires Additive(f)
    ensures f(MkChoice(x, y)) <==> f(x) || f(y)
    decreases y
  {
    var c := MkChoice(x, y);
    if x == NotAllowed || y == NotAllowed {
      assert f(c) <==> f(x) || f(y);
    } else if PatEq(x, y) {
      PatEqSound(x, y);
      assert f(Unwrap(x)) == f(Unwrap(y));
      assert c == x;
      assert f(c) <==> f(x) || f(y);
    } else if InChoice(x, y) {
      assert c == x;
      if f(y) { InChoiceAdds(f, x, y); }
      assert f(c) <==> f(x) || f(y);
    } else if y.Choice? && AltCount(x) * AltCount(y) <= MAX_MERGE_PAIRS {
      var d := MkChoice(x, y.left);
      assert c == MkChoice(d, y.right);
      ChoiceAdds(f, x, y.left);
      ChoiceAdds(f, d, y.right);
      assert y == Choice(y.left, y.right);
      assert f(c) <==> f(x) || f(y);
    } else {
      assert c == Choice(x, y);
      assert f(c) <==> f(x) || f(y);
    }
  }

  lemma {:induction false} UnwrapTwice(p: Pattern)
    ensures Unwrap(Unwrap(p)) == Unwrap(p)
  {
    match p
    case Choice(l, r) => UnwrapTwice(l); UnwrapTwice(r);
    case Interleave(l, r) => UnwrapTwice(l); UnwrapTwice(r);
    case Group(l, r) => UnwrapTwice(l); UnwrapTwice(r);
    case After(l, r) => UnwrapTwice(l); UnwrapTwice(r);
    case OneOrMore(q) => UnwrapTwice(q);
    case List(q) => UnwrapTwice(q);
    case Element(n, q) => UnwrapTwice(q);
    case Attribute(n, q) => UnwrapTwice(q);
    case Data(ty, ps, x) => if x.Some? { UnwrapTwice(x.value); }
    case Static(q, _, _, _, _) => UnwrapTwice(q);
    case _ =>
  }

  lemma ChoiceLaw(g: Grammar, cx: Context, x: Pattern, y: Pattern, a: seq<Attr>, m: seq<Item>)
    ensures Matches(g, cx, MkChoice(x, y), a, m) <==> Matches(g, cx, x, a, m) || Matches(g, cx, y, a, m)
  {
    var f := p => Matches(g, cx, p, a, m);
    forall p ensures f(Unwrap(p)) == f(p) {
      UnwrapTwice(p);
      SameMeaning(g, g, cx, Unwrap(p), p, a, m);
    }
    ChoiceAdds(f, x, y);
  }

  lemma GroupLaw(g: Grammar, cx: Context, x: Pattern, y: Pattern, a: seq<Attr>, m: seq<Item>)
    ensures Matches(g, cx, MkGroup(x, y), a, m) <==> Matches(g, cx, Group(x, y), a, m)
  {
    if x == NotAllowed || y == NotAllowed {
    } else if x == Empty {
      if Matches(g, cx, y, a, m) {
        ShuffleRight(a);
        assert InSequence(a, m, Share([], a, [], m));
      }
      forall h | InSequence(a, m, h) && h.a1 == [] && h.m1 == []
        ensures h.a2 == a && h.m2 == m
      {
        ShuffleWithNothing(a, h.a2);
      }
    } else if y == Empty {
      if Matches(g, cx, x, a, m) {
        ShuffleLeft(a);
        assert InSequence(a, m, Share(a, [], m, []));
      }
      forall h | InSequence(a, m, h) && h.a2 == [] && h.m2 == []
        ensures h.a1 == a && h.m1 == m
      {
        ShuffleWithNothing(a, h.a1);
      }
    }
  }

  lemma InterleaveLaw(g: Grammar, cx: Context, x: Pattern, y: Pattern, a: seq<Attr>, m: seq<Item>)
    ensures Matches(g, cx, MkInterleave(x, y), a, m) <==> Matches(g, cx, Interleave(x, y), a, m)
  {
    if x == NotAllowed || y == NotAllowed {
    } else if x == Empty {
      if Matches(g, cx, y, a, m) {
        ShuffleRight(a);
        ShuffleRight(m);
        assert Interleaved(a, m, Share([], a, [], m));
      }
      forall h | Interleaved(a, m, h) && h.a1 == [] && h.m1 == []
        ensures h.a2 == a && h.m2 == m
      {
        ShuffleWithNothing(a, h.a2);
        ShuffleWithNothing(m, h.m2);
      }
    } else if y == Empty {
      if Matches(g, cx, x, a, m) {
        ShuffleLeft(a);
        ShuffleLeft(m);
        assert Interleaved(a, m, Share(a, [], m, []));
      }
      forall h | Interleaved(a, m, h) && h.a2 == [] && h.m2 == []
        ensures h.a1 == a && h.m1 == m
      {
        ShuffleWithNothing(a, h.a1);
        ShuffleWithNothing(m, h.m1);
      }
    }
  }

  lemma {:induction false} NothingRepeats(g: Grammar, cx: Context, n: nat, a: seq<Attr>, m: seq<Item>)
    requires n >= 1
    ensures !Repeats(g, cx, NotAllowed, n, a, m)
  {
  }

  lemma OneOrMoreLaw(g: Grammar, cx: Context, q: Pattern, a: seq<Attr>, m: seq<Item>)
    ensures Matches(g, cx, MkOneOrMore(q), a, m) <==> Matches(g, cx, OneOrMore(q), a, m)
  {
    if q == NotAllowed {
      forall n: nat | n >= 1 ensures !Repeats(g, cx, q, n, a, m) {
        NothingRepeats(g, cx, n, a, m);
      }
    }
  }

  /** Structurally equal patterns have one size, so comparing sizes first
      loses no equality. */
  lemma {:induction false} PatEqSize(a: Pattern, b: Pattern)
    requires PatEq(a, b) && SizesRight(a) && SizesRight(b)
    ensures Size(a) == Size(b)
    decreases a
  {
    if !(a.Static? && a == b) {
      SizeUnstatic(a);
      SizeUnstatic(b);
      var x, y := Unstatic(a), Unstatic(b);
      match x
      case Choice(l, r) => PatEqSize(l, y.left); PatEqSize(r, y.right);
      case Group(l, r) => PatEqSize(l, y.left); PatEqSize(r, y.right);
      case Interleave(l, r) => PatEqSize(l, y.left); PatEqSize(r, y.right);
      case After(l, r) => PatEqSize(l, y.left); PatEqSize(r, y.right);
      case OneOrMore(q) => PatEqSize(q, y.body);
      case List(q) => PatEqSize(q, y.body);
      case _ =>
    }
  }

  /** Every wrapper outside element, attribute and except contents reports the
      size of what it holds. */
  predicate SizesRight(p: Pattern) {
    match p
    case Choice(l, r) => SizesRight(l) && SizesRight(r)
    case Interleave(l, r) => SizesRight(l) && SizesRight(r)
    case Group(l, r) => SizesRight(l) && SizesRight(r)
    case After(l, r) => SizesRight(l) && SizesRight(r)
    case OneOrMore(q) => SizesRight(q)
    case List(q) => SizesRight(q)
    case Static(q, size, _, _, _) => SizesRight(q) && size == Size(q)
    case _ => true
  }

  /** Some alternative of the chain `a` equals `b`, sizes not asked. */
  predicate SomeAlternative(a: Pattern, b: Pattern)
    decreases a
  {
    var c := Unstatic(a);
    if c.Choice? then PatEq(c.right, b) || SomeAlternative(c.left, b) else PatEq(a, b)
  }

  /** Comparing sizes before patterns finds every alternative. */
  lemma {:induction false} SizeTestHarmless(a: Pattern, b: Pattern)
    requires SizesRight(a) && SizesRight(b)
    ensures InChoice(a, b) <==> SomeAlternative(a, b)
    decreases a
  {
    var c := Unstatic(a);
    SizeUnstatic(a);
    if c.Choice? {
      SizeTestHarmless(c.left, b);
      if PatEq(c.right, b) { PatEqSize(c.right, b); }
    } else if PatEq(a, b) {
      PatEqSize(a, b);
    }
  }

  lemma {:induction false} SizeUnstatic(p: Pattern)
    requires SizesRight(p)
    ensures Size(Unstatic(p)) == Size(p) && SizesRight(Unstatic(p))
  {
    if p.Static? { SizeUnstatic(p.inner); }
  }
}
