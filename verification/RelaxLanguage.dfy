/** What a RELAX NG pattern means: the matching relation of the RELAX NG
    specification (OASIS, 3 December 2001), section 6.2, over attribute
    sequences and content sequences. */
module RelaxLanguage {
  import opened Basics
  import opened RelaxSyntax

  datatype Attr = Attr(name: QName, value: string)

  /** One item of content.  An element carries the namespace bindings in scope
      on it, its attributes and its content. */
  datatype Item =
    | Str(s: string)
    | Elem(tag: QName, cx: Context, attrs: seq<Attr>, kids: seq<Item>)

  predicate WhitespaceOnly(s: string) { forall i | 0 <= i < |s| :: IsSpace(s[i]) }

  /** The length of the run of non-space characters at the front. */
  function TokenLength(s: string): (n: nat)
    ensures n <= |s|
    ensures forall i | 0 <= i < n :: !IsSpace(s[i])
    ensures n < |s| ==> IsSpace(s[n])
  {
    if s == [] || IsSpace(s[0]) then 0 else 1 + TokenLength(s[1..])
  }

  /** The whitespace-separated tokens of a string. */
  function SplitTokens(s: string): seq<string>
    decreases |s|
  {
    if s == [] then []
    else if IsSpace(s[0]) then SplitTokens(s[1..])
    else var n := TokenLength(s); [s[..n]] + SplitTokens(s[n..])
  }

  function Strings(tokens: seq<string>): (m: seq<Item>)
    ensures |m| == |tokens|
    ensures forall i | 0 <= i < |m| :: m[i] == Str(tokens[i])
  {
    seq(|tokens|, i requires 0 <= i < |tokens| => Str(tokens[i]))
  }

  /** The number of elements in a content sequence, at any depth. */
  function Weight(m: seq<Item>): nat {
    if m == [] then 0
    else (match m[0]
          case Str(_) => 0
          case Elem(_, _, _, kids) => 1 + Weight(kids)) + Weight(m[1..])
  }

  /** `w` is an interleaving of `u` and `v`. */
  ghost predicate Shuffle<T>(w: seq<T>, u: seq<T>, v: seq<T>) {
    if w == [] then u == [] && v == []
    else
      || (u != [] && u[0] == w[0] && Shuffle(w[1..], u[1..], v))
      || (v != [] && v[0] == w[0] && Shuffle(w[1..], u, v[1..]))
  }

  /** One way of sharing attributes and content between two patterns. */
  datatype Share = Share(a1: seq<Attr>, a2: seq<Attr>, m1: seq<Item>, m2: seq<Item>)

  /** Content in sequence; attributes have no order. */
  ghost predicate InSequence(a: seq<Attr>, m: seq<Item>, h: Share) {
    Shuffle(a, h.a1, h.a2) && m == h.m1 + h.m2
  }

  ghost predicate Interleaved(a: seq<Attr>, m: seq<Item>, h: Share) {
    Shuffle(a, h.a1, h.a2) && Shuffle(m, h.m1, h.m2)
  }

  predicate IsStr(x: Item) { x.Str? }

  predicate AllStr(m: seq<Item>) { forall i | 0 <= i < |m| :: IsStr(m[i]) }

  predicate HasElem(m: seq<Item>) { exists i :: 0 <= i < |m| && m[i].Elem? }

  predicate IsBlank(x: Item) { x.Str? && WhitespaceOnly(x.s) }

  function StripBlank(m: seq<Item>): seq<Item> {
    if m == [] then []
    else if IsBlank(m[0]) then StripBlank(m[1..])
    else [m[0]] + StripBlank(m[1..])
  }

  /** The content an element with children `kids` may be matched as: section
      6.2.7.  Beside an element, whitespace is stripped; whitespace alone may
      be read as text or as nothing, and nothing as the empty string. */
  ghost predicate ReadAs(kids: seq<Item>, m: seq<Item>) {
    if HasElem(kids) then m == StripBlank(kids)
    else if kids == [] then m == [] || m == [Str("")]
    else if |kids| == 1 && IsBlank(kids[0]) then m == kids || m == []
    else m == kids
  }

  predicate EqualValue(g: Grammar, ty: nat, v: string, scope: Context, s: string, cx: Context) {
    if g.lib.contextual(ty) then g.lib.equalIn(ty, v, scope, s, cx) else g.lib.equal(ty, v, s)
  }

  predicate Allowed(g: Grammar, ty: nat, params: seq<Param>, s: string, cx: Context) {
    if g.lib.contextual(ty) then g.lib.checkIn(ty, s, params, cx) else g.lib.check(ty, s, params)
  }

  /** Section 6.2: attributes `a` and content `m`, with bindings `cx`, match `p`. */
  ghost predicate Matches(g: Grammar, cx: Context, p: Pattern, a: seq<Attr>, m: seq<Item>)
    decreases Weight(m), Level(g.rank, p), p, 0
  {
    match p
    case NotAllowed => false
    case Empty => a == [] && m == []
    case Text => a == [] && AllStr(m)
    case Choice(l, r) => Matches(g, cx, l, a, m) || Matches(g, cx, r, a, m)
    case Group(l, r) =>
      exists h :: InSequence(a, m, h) && (ShareWeight(a, m, h);
        Matches(g, cx, l, h.a1, h.m1) && Matches(g, cx, r, h.a2, h.m2))
    case Interleave(l, r) =>
      exists h :: Interleaved(a, m, h) && (ShareWeight(a, m, h);
        Matches(g, cx, l, h.a1, h.m1) && Matches(g, cx, r, h.a2, h.m2))
    case OneOrMore(q) => exists n: nat :: n >= 1 && Repeats(g, cx, q, n, a, m)
    case Element(name, q) =>
      && a == [] && |m| == 1 && m[0].Elem? && name.Contains(m[0].tag)
      && exists k :: ReadAs(m[0].kids, k) && (ReadAsWeight(m, k);
           Matches(g, m[0].cx, q, m[0].attrs, k))
    case Attribute(name, v) =>
      && m == [] && |a| == 1 && name.Contains(a[0].name)
      && (StringsWeight([a[0].value]);
          || Matches(g, cx, v, [], Strings([a[0].value]))
          || (WhitespaceOnly(a[0].value) && Matches(g, cx, v, [], [])))
    case Value(ty, v, scope) =>
      a == [] && |m| == 1 && m[0].Str? && EqualValue(g, ty, v, scope, m[0].s, cx)
    case Data(ty, params, x) =>
      && a == [] && |m| == 1 && m[0].Str? && Allowed(g, ty, params, m[0].s, cx)
      && (x.Some? ==> !Matches(g, cx, x.value, [], m))
    case List(q) =>
      && a == [] && |m| == 1 && m[0].Str?
      && (StringsWeight(SplitTokens(m[0].s)); Matches(g, cx, q, [], Strings(SplitTokens(m[0].s))))
    case After(_, _) => false
    case Ref(id) => Matches(g, cx, Expand(g, id), a, m)
    case Static(q, _, _, _, _) => Matches(g, cx, q, a, m)
  }

  /** `n` matches of `p`, one after another. */
  ghost predicate Repeats(g: Grammar, cx: Context, p: Pattern, n: nat, a: seq<Attr>, m: seq<Item>)
    requires n >= 1
    decreases Weight(m), Level(g.rank, p), p, n
  {
    if n == 1 then Matches(g, cx, p, a, m)
    else exists h :: InSequence(a, m, h) && (ShareWeight(a, m, h);
           Matches(g, cx, p, h.a1, h.m1) && Repeats(g, cx, p, n - 1, h.a2, h.m2))
  }

  // ---- weights -----------------------------------------------------------

  lemma WeightConcat(u: seq<Item>, v: seq<Item>)
    ensures Weight(u + v) == Weight(u) + Weight(v)
  {
    if u == [] {
      assert u + v == v;
    } else {
      assert (u + v)[1..] == u[1..] + v;
      WeightConcat(u[1..], v);
    }
  }

  lemma WeightShuffle(w: seq<Item>, u: seq<Item>, v: seq<Item>)
    requires Shuffle(w, u, v)
    ensures Weight(w) == Weight(u) + Weight(v)
  {
    if w != [] {
      if u != [] && u[0] == w[0] && Shuffle(w[1..], u[1..], v) {
        WeightShuffle(w[1..], u[1..], v);
      } else {
        WeightShuffle(w[1..], u, v[1..]);
      }
    }
  }

  lemma ShareWeight(a: seq<Attr>, m: seq<Item>, h: Share)
    requires InSequence(a, m, h) || Interleaved(a, m, h)
    ensures Weight(m) == Weight(h.m1) + Weight(h.m2)
  {
    if InSequence(a, m, h) {
      WeightConcat(h.m1, h.m2);
    } else {
      WeightShuffle(m, h.m1, h.m2);
    }
  }

  lemma StripWeight(m: seq<Item>)
    ensures Weight(StripBlank(m)) == Weight(m)
  {
    if m != [] {
      StripWeight(m[1..]);
      if !IsBlank(m[0]) {
        assert ([m[0]] + StripBlank(m[1..]))[1..] == StripBlank(m[1..]);
      }
    }
  }

  lemma ReadAsWeight(m: seq<Item>, k: seq<Item>)
    requires |m| == 1 && m[0].Elem? && ReadAs(m[0].kids, k)
    ensures Weight(k) < Weight(m)
  {
    StripWeight(m[0].kids);
    StringsWeight([""]);
    assert Strings([""]) == [Str("")];
  }

  lemma StringsWeight(tokens: seq<string>)
    ensures Weight(Strings(tokens)) == 0
  {
    if tokens != [] {
      assert Strings(tokens)[1..] == Strings(tokens[1..]);
      StringsWeight(tokens[1..]);
    }
  }
}
