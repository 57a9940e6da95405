/** Sets of (attributes, content) pairs and their quotients by a first item or a
    first attribute, free of patterns. */
module RelaxLanguages {
  import opened RelaxSyntax
  import opened RelaxLanguage
  import opened RelaxDerivative
  import opened RelaxLaws

  type Lang = (seq<Attr>, seq<Item>) -> bool

  ghost predicate InGroup(u: Lang, v: Lang, a: seq<Attr>, m: seq<Item>) {
    exists h :: InSequence(a, m, h) && u(h.a1, h.m1) && v(h.a2, h.m2)
  }

  ghost predicate InInterleave(u: Lang, v: Lang, a: seq<Attr>, m: seq<Item>) {
    exists h :: Interleaved(a, m, h) && u(h.a1, h.m1) && v(h.a2, h.m2)
  }

  ghost predicate InRepeat(u: Lang, n: nat, a: seq<Attr>, m: seq<Item>)
    requires n >= 1
  {
    if n == 1 then u(a, m)
    else exists h :: InSequence(a, m, h) && u(h.a1, h.m1) && InRepeat(u, n - 1, h.a2, h.m2)
  }

  ghost predicate InOneOrMore(u: Lang, a: seq<Attr>, m: seq<Item>) {
    exists n: nat :: n >= 1 && InRepeat(u, n, a, m)
  }

  /** One or more matches, or nothing. */
  ghost predicate InMore(u: Lang, a: seq<Attr>, m: seq<Item>) {
    (a == [] && m == []) || InOneOrMore(u, a, m)
  }

  // ---- the language of a pattern -----------------------------------------

  ghost function LangOf(g: Grammar, cx: Context, p: Pattern): Lang {
    (a, m) => Matches(g, cx, p, a, m)
  }

  lemma GroupIs(g: Grammar, cx: Context, l: Pattern, r: Pattern, a: seq<Attr>, m: seq<Item>)
    ensures Matches(g, cx, Group(l, r), a, m)
        <==> InGroup(LangOf(g, cx, l), LangOf(g, cx, r), a, m)
  {
  }

  lemma InterleaveIs(g: Grammar, cx: Context, l: Pattern, r: Pattern, a: seq<Attr>, m: seq<Item>)
    ensures Matches(g, cx, Interleave(l, r), a, m)
        <==> InInterleave(LangOf(g, cx, l), LangOf(g, cx, r), a, m)
  {
  }

  lemma {:induction false} RepeatIs(
      g: Grammar, cx: Context, q: Pattern, n: nat, a: seq<Attr>, m: seq<Item>)
    requires n >= 1
    ensures Repeats(g, cx, q, n, a, m) <==> InRepeat(LangOf(g, cx, q), n, a, m)
    decreases n
  {
    if n > 1 {
      forall h | InSequence(a, m, h)
        ensures Repeats(g, cx, q, n - 1, h.a2, h.m2) <==> InRepeat(LangOf(g, cx, q), n - 1, h.a2, h.m2)
      {
        RepeatIs(g, cx, q, n - 1, h.a2, h.m2);
      }
    }
  }

  lemma OneOrMoreIs(g: Grammar, cx: Context, q: Pattern, a: seq<Attr>, m: seq<Item>)
    ensures Matches(g, cx, OneOrMore(q), a, m) <==> InOneOrMore(LangOf(g, cx, q), a, m)
  {
    forall n: nat | n >= 1
      ensures Repeats(g, cx, q, n, a, m) <==> InRepeat(LangOf(g, cx, q), n, a, m)
    {
      RepeatIs(g, cx, q, n, a, m);
    }
  }

  lemma MoreIs(g: Grammar, cx: Context, q: Pattern, a: seq<Attr>, m: seq<Item>)
    ensures Matches(g, cx, More(q), a, m) <==> InMore(LangOf(g, cx, q), a, m)
  {
    ChoiceLaw(g, cx, MkOneOrMore(q), Empty, a, m);
    OneOrMoreLaw(g, cx, q, a, m);
    OneOrMoreIs(g, cx, q, a, m);
  }

  /** A group, built by its constructor, of a pattern and more of another. */
  lemma ThenMoreIs(g: Grammar, cx: Context, d: Pattern, q: Pattern, a: seq<Attr>, m: seq<Item>)
    ensures Matches(g, cx, MkGroup(d, More(q)), a, m)
        <==> InGroup(LangOf(g, cx, d), (b, k) => InMore(LangOf(g, cx, q), b, k), a, m)
  {
    GroupLaw(g, cx, d, More(q), a, m);
    GroupIs(g, cx, d, More(q), a, m);
    forall h | InSequence(a, m, h)
      ensures LangOf(g, cx, More(q))(h.a2, h.m2) <==> InMore(LangOf(g, cx, q), h.a2, h.m2)
    {
      MoreIs(g, cx, q, h.a2, h.m2);
    }
  }

  // ---- quotient by the first item of content -----------------------------

  /** `du` is what remains of `u` once `x` has been read, attributes being over. */
  ghost predicate ItemQuotient(u: Lang, du: Lang, x: Item) {
    forall m :: du([], m) <==> u([], [x] + m)
  }

  lemma ConsConcat<T>(x: T, w: seq<T>, u: seq<T>, v: seq<T>)
    requires [x] + w == u + v
    ensures u == [] ==> v == [x] + w
    ensures u != [] ==> u == [x] + u[1..] && w == u[1..] + v
  {
    if u != [] {
      assert (u + v)[0] == u[0] && ([x] + w)[0] == x;
      assert (u + v)[1..] == u[1..] + v;
      assert ([x] + w)[1..] == w;
    }
  }

  lemma NoAttrs(a: seq<Attr>, m: seq<Item>, h: Share)
    requires a == [] && (InSequence(a, m, h) || Interleaved(a, m, h))
    ensures h.a1 == [] && h.a2 == []
  {
  }

  /** A group's first item goes to the left, or to the right past a left that
      takes nothing. */
  lemma GroupByItem(u: Lang, v: Lang, du: Lang, dv: Lang, x: Item, m: seq<Item>)
    requires ItemQuotient(u, du, x) && ItemQuotient(v, dv, x)
    ensures InGroup(u, v, [], [x] + m) <==> InGroup(du, v, [], m) || (u([], []) && dv([], m))
  {
    if InGroup(du, v, [], m) {
      var h :| InSequence([], m, h) && du(h.a1, h.m1) && v(h.a2, h.m2);
      NoAttrs([], m, h);
      assert [x] + m == ([x] + h.m1) + h.m2;
      assert InSequence([], [x] + m, Share([], [], [x] + h.m1, h.m2));
    }
    if u([], []) && dv([], m) {
      assert [x] + m == [] + ([x] + m);
      assert InSequence([], [x] + m, Share([], [], [], [x] + m));
    }
    if InGroup(u, v, [], [x] + m) {
      var h :| InSequence([], [x] + m, h) && u(h.a1, h.m1) && v(h.a2, h.m2);
      NoAttrs([], [x] + m, h);
      ConsConcat(x, m, h.m1, h.m2);
      if h.m1 != [] {
        assert InSequence([], m, Share([], [], h.m1[1..], h.m2));
      }
    }
  }

  /** An interleave's first item goes to either side. */
  lemma InterleaveByItem(u: Lang, v: Lang, du: Lang, dv: Lang, x: Item, m: seq<Item>)
    requires ItemQuotient(u, du, x) && ItemQuotient(v, dv, x)
    ensures InInterleave(u, v, [], [x] + m) <==> InInterleave(du, v, [], m) || InInterleave(u, dv, [], m)
  {
    forall h | Interleaved([], m, h)
      ensures du(h.a1, h.m1) && v(h.a2, h.m2) ==> InInterleave(u, v, [], [x] + m)
      ensures u(h.a1, h.m1) && dv(h.a2, h.m2) ==> InInterleave(u, v, [], [x] + m)
    {
      NoAttrs([], m, h);
      ShuffleCons(x, m, h.m1, h.m2);
      assert Interleaved([], [x] + m, Share([], [], [x] + h.m1, h.m2));
      assert Interleaved([], [x] + m, Share([], [], h.m1, [x] + h.m2));
    }
    if InInterleave(u, v, [], [x] + m) {
      var h :| Interleaved([], [x] + m, h) && u(h.a1, h.m1) && v(h.a2, h.m2);
      NoAttrs([], [x] + m, h);
      assert ([x] + m)[1..] == m;
      if h.m1 != [] && h.m1[0] == x && Shuffle(m, h.m1[1..], h.m2) {
        assert h.m1 == [x] + h.m1[1..];
        assert Interleaved([], m, Share([], [], h.m1[1..], h.m2));
      } else {
        assert h.m2 == [x] + h.m2[1..];
        assert Interleaved([], m, Share([], [], h.m1, h.m2[1..]));
      }
    }
  }

  /** The match that takes the first item may as well come first. */
  lemma {:induction false} FirstMatch(u: Lang, n: nat, x: Item, m: seq<Item>) returns (h: Share)
    requires n >= 1 && InRepeat(u, n, [], [x] + m)
    ensures InSequence([], m, h) && h.a1 == [] && h.a2 == []
    ensures u([], [x] + h.m1) && InMore(u, [], h.m2)
    decreases n
  {
    if n == 1 {
      h := Share([], [], m, []);
    } else {
      var k :| InSequence([], [x] + m, k) && u(k.a1, k.m1) && InRepeat(u, n - 1, k.a2, k.m2);
      NoAttrs([], [x] + m, k);
      ConsConcat(x, m, k.m1, k.m2);
      if k.m1 == [] {
        h := FirstMatch(u, n - 1, x, m);
      } else {
        h := Share([], [], k.m1[1..], k.m2);
      }
    }
  }

  /** Adding a match in front of a repetition. */
  lemma PrependMatch(u: Lang, a: seq<Attr>, m: seq<Item>, h: Share)
    requires InSequence(a, m, h) && u(h.a1, h.m1) && InMore(u, h.a2, h.m2)
    ensures InOneOrMore(u, a, m)
  {
    if h.a2 == [] && h.m2 == [] {
      ShuffleWithNothing(a, h.a1);
      assert m == h.m1;
      assert InRepeat(u, 1, a, m);
    } else {
      var n: nat :| n >= 1 && InRepeat(u, n, h.a2, h.m2);
      assert InRepeat(u, n + 1, a, m);
    }
  }

  /** A repetition's first item begins a match, and more may follow. */
  lemma RepeatByItem(u: Lang, du: Lang, x: Item, m: seq<Item>)
    requires ItemQuotient(u, du, x)
    ensures InOneOrMore(u, [], [x] + m) <==> InGroup(du, (a, k) => InMore(u, a, k), [], m)
  {
    var more := (a, k) => InMore(u, a, k);
    if InGroup(du, more, [], m) {
      var h :| InSequence([], m, h) && du(h.a1, h.m1) && more(h.a2, h.m2);
      NoAttrs([], m, h);
      assert [x] + m == ([x] + h.m1) + h.m2;
      PrependMatch(u, [], [x] + m, Share([], [], [x] + h.m1, h.m2));
    }
    if InOneOrMore(u, [], [x] + m) {
      var n: nat :| n >= 1 && InRepeat(u, n, [], [x] + m);
      var h := FirstMatch(u, n, x, m);
      assert InSequence([], m, h) && du(h.a1, h.m1) && more(h.a2, h.m2);
    }
  }

  // ---- quotient by the first attribute -----------------------------------

  /** Reading `x` into `du` takes nothing that `u` would not. */
  ghost predicate AttrBelow(u: Lang, du: Lang, x: Attr) {
    forall a, m {:trigger du(a, m)} :: du(a, m) ==> u([x] + a, m)
  }

  /** `du` misses nothing of what `u` takes after `x`. */
  ghost predicate AttrAbove(u: Lang, du: Lang, x: Attr) {
    forall a, m {:trigger u([x] + a, m)} :: u([x] + a, m) ==> du(a, m)
  }

  /** Where the first attribute of a shuffle went. */
  lemma ShuffleHead<T>(x: T, w: seq<T>, u: seq<T>, v: seq<T>)
    requires Shuffle([x] + w, u, v)
    ensures || (u != [] && u == [x] + u[1..] && Shuffle(w, u[1..], v))
            || (v != [] && v == [x] + v[1..] && Shuffle(w, u, v[1..]))
  {
    assert ([x] + w)[1..] == w;
  }

  lemma GroupAttrBelow(u: Lang, v: Lang, du: Lang, dv: Lang, x: Attr, a: seq<Attr>, m: seq<Item>)
    requires AttrBelow(u, du, x) && AttrBelow(v, dv, x)
    requires InGroup(du, v, a, m) || InGroup(u, dv, a, m)
    ensures InGroup(u, v, [x] + a, m)
  {
    if InGroup(du, v, a, m) {
      var h :| InSequence(a, m, h) && du(h.a1, h.m1) && v(h.a2, h.m2);
      ShuffleCons(x, a, h.a1, h.a2);
      assert InSequence([x] + a, m, Share([x] + h.a1, h.a2, h.m1, h.m2));
    } else {
      var h :| InSequence(a, m, h) && u(h.a1, h.m1) && dv(h.a2, h.m2);
      ShuffleCons(x, a, h.a1, h.a2);
      assert InSequence([x] + a, m, Share(h.a1, [x] + h.a2, h.m1, h.m2));
    }
  }

  lemma GroupAttrAbove(u: Lang, v: Lang, du: Lang, dv: Lang, x: Attr, a: seq<Attr>, m: seq<Item>)
    requires AttrAbove(u, du, x) && AttrAbove(v, dv, x)
    requires InGroup(u, v, [x] + a, m)
    ensures InGroup(du, v, a, m) || InGroup(u, dv, a, m)
  {
    var h :| InSequence([x] + a, m, h) && u(h.a1, h.m1) && v(h.a2, h.m2);
    ShuffleHead(x, a, h.a1, h.a2);
    if h.a1 != [] && h.a1 == [x] + h.a1[1..] && Shuffle(a, h.a1[1..], h.a2) {
      assert InSequence(a, m, Share(h.a1[1..], h.a2, h.m1, h.m2));
    } else {
      assert InSequence(a, m, Share(h.a1, h.a2[1..], h.m1, h.m2));
    }
  }

  lemma InterleaveAttrBelow(u: Lang, v: Lang, du: Lang, dv: Lang, x: Attr, a: seq<Attr>, m: seq<Item>)
    requires AttrBelow(u, du, x) && AttrBelow(v, dv, x)
    requires InInterleave(du, v, a, m) || InInterleave(u, dv, a, m)
    ensures InInterleave(u, v, [x] + a, m)
  {
    if InInterleave(du, v, a, m) {
      var h :| Interleaved(a, m, h) && du(h.a1, h.m1) && v(h.a2, h.m2);
      ShuffleCons(x, a, h.a1, h.a2);
      assert Interleaved([x] + a, m, Share([x] + h.a1, h.a2, h.m1, h.m2));
    } else {
      var h :| Interleaved(a, m, h) && u(h.a1, h.m1) && dv(h.a2, h.m2);
      ShuffleCons(x, a, h.a1, h.a2);
      assert Interleaved([x] + a, m, Share(h.a1, [x] + h.a2, h.m1, h.m2));
    }
  }

  lemma InterleaveAttrAbove(u: Lang, v: Lang, du: Lang, dv: Lang, x: Attr, a: seq<Attr>, m: seq<Item>)
    requires AttrAbove(u, du, x) && AttrAbove(v, dv, x)
    requires InInterleave(u, v, [x] + a, m)
    ensures InInterleave(du, v, a, m) || InInterleave(u, dv, a, m)
  {
    var h :| Interleaved([x] + a, m, h) && u(h.a1, h.m1) && v(h.a2, h.m2);
    ShuffleHead(x, a, h.a1, h.a2);
    if h.a1 != [] && h.a1 == [x] + h.a1[1..] && Shuffle(a, h.a1[1..], h.a2) {
      assert Interleaved(a, m, Share(h.a1[1..], h.a2, h.m1, h.m2));
    } else {
      assert Interleaved(a, m, Share(h.a1, h.a2[1..], h.m1, h.m2));
    }
  }

  lemma RepeatAttrBelow(u: Lang, du: Lang, x: Attr, a: seq<Attr>, m: seq<Item>)
    requires AttrBelow(u, du, x)
    requires InGroup(du, (b, k) => InMore(u, b, k), a, m)
    ensures InOneOrMore(u, [x] + a, m)
  {
    var h :| InSequence(a, m, h) && du(h.a1, h.m1) && InMore(u, h.a2, h.m2);
    ShuffleCons(x, a, h.a1, h.a2);
    PrependMatch(u, [x] + a, m, Share([x] + h.a1, h.a2, h.m1, h.m2));
  }

  /** The attribute `x` stands alone in `u`: whatever else was matched with it
      can be matched without. */
  ghost predicate Alone(u: Lang, x: Attr) {
    forall a, m {:trigger u([x] + a, m)} :: u([x] + a, m) ==> (a == [] && m == []) || u(a, m)
  }

  /** So it stands alone in a repetition, in whichever match it fell. */
  lemma {:induction false} AloneInRepeat(u: Lang, n: nat, x: Attr, a: seq<Attr>, m: seq<Item>)
    requires n >= 1 && Alone(u, x) && InRepeat(u, n, [x] + a, m)
    ensures InMore(u, a, m)
    ensures exists b, k :: u([x] + b, k)
    decreases n
  {
    if n == 1 {
      if !(a == [] && m == []) { assert InRepeat(u, 1, a, m); }
    } else {
      var h :| InSequence([x] + a, m, h) && u(h.a1, h.m1) && InRepeat(u, n - 1, h.a2, h.m2);
      ShuffleHead(x, a, h.a1, h.a2);
      if h.a1 != [] && h.a1 == [x] + h.a1[1..] && Shuffle(a, h.a1[1..], h.a2) {
        var b := h.a1[1..];
        assert u([x] + b, h.m1);
        if b == [] && h.m1 == [] {
          ShuffleWithNothing(a, h.a2);
          assert m == h.m2;
          assert InOneOrMore(u, a, m);
        } else {
          assert InOneOrMore(u, h.a2, h.m2);
          PrependMatch(u, a, m, Share(b, h.a2, h.m1, h.m2));
        }
      } else {
        var b := h.a2[1..];
        AloneInRepeat(u, n - 1, x, b, h.m2);
        PrependMatch(u, a, m, Share(h.a1, b, h.m1, h.m2));
      }
    }
  }

  lemma RepeatAttrAbove(u: Lang, du: Lang, x: Attr, a: seq<Attr>, m: seq<Item>)
    requires Alone(u, x) && (forall b, k :: u([x] + b, k) ==> du([], []))
    requires InOneOrMore(u, [x] + a, m)
    ensures InGroup(du, (b, k) => InMore(u, b, k), a, m)
  {
    var n: nat :| n >= 1 && InRepeat(u, n, [x] + a, m);
    AloneInRepeat(u, n, x, a, m);
    ShuffleRight(a);
    var h := Share([], a, [], m);
    assert InSequence(a, m, h);
    var more := (b, k) => InMore(u, b, k);
    assert du(h.a1, h.m1) && more(h.a2, h.m2);
  }
}
