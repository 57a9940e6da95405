/** The derivatives of a pattern: what the rest of the input must match once an
    open tag, an attribute, the close of a start tag, a string or an end tag
    has been read. */
module RelaxDerivative {
  import opened Basics
  import opened RelaxSyntax
  import opened RelaxLanguage

  // ---- open tag ----------------------------------------------------------

  /** The rewriting of a continuation that `ApplyAfter` threads through. */
  datatype Wrapper =
    | BesideRight(right: Pattern)
    | BesideLeft(left: Pattern)
    | Before(right: Pattern)
    | Inside(right: Pattern)

  function Wrap(w: Wrapper, x: Pattern): Pattern {
    match w
    case BesideRight(r) => MkInterleave(x, r)
    case BesideLeft(l) => MkInterleave(l, x)
    case Before(r) => MkGroup(x, r)
    case Inside(r) => MkAfter(x, r)
  }

  function ApplyAfter(w: Wrapper, p: Pattern): Pattern {
    match p
    case After(l, r) => MkAfter(l, Wrap(w, r))
    case Choice(l, r) => MkChoice(ApplyAfter(w, l), ApplyAfter(w, r))
    case _ => NotAllowed
  }

  /** One or more, or nothing: what may follow an item of a repetition. */
  function More(q: Pattern): Pattern { MkChoice(MkOneOrMore(q), Empty) }

  function OpenDeriv(g: Grammar, p: Pattern, name: QName): Pattern
    decreases Level(g.rank, p), p
  {
    match p
    case Choice(l, r) => MkChoice(OpenDeriv(g, l, name), OpenDeriv(g, r, name))
    case Element(nc, q) => if nc.Contains(name) then MkAfter(q, Empty) else NotAllowed
    case Interleave(l, r) =>
      MkChoice(ApplyAfter(BesideRight(r), OpenDeriv(g, l, name)),
               ApplyAfter(BesideLeft(l), OpenDeriv(g, r, name)))
    case OneOrMore(q) => ApplyAfter(Before(More(q)), OpenDeriv(g, q, name))
    case Group(l, r) =>
      var d := ApplyAfter(Before(r), OpenDeriv(g, l, name));
      if Nullable(g, l) then MkChoice(d, OpenDeriv(g, r, name)) else d
    case After(l, r) => ApplyAfter(Inside(r), OpenDeriv(g, l, name))
    case Ref(id) => OpenDeriv(g, Expand(g, id), name)
    case Static(q, _, _, _, _) => OpenDeriv(g, q, name)
    case _ => NotAllowed
  }

  // ---- text --------------------------------------------------------------

  /** The height of `p`, through the definitions it refers to. */
  function Depth(g: Grammar, p: Pattern): nat
    decreases Level(g.rank, p), p
  {
    match p
    case Choice(l, r) => 1 + Max(Depth(g, l), Depth(g, r))
    case Interleave(l, r) => 1 + Max(Depth(g, l), Depth(g, r))
    case Group(l, r) => 1 + Max(Depth(g, l), Depth(g, r))
    case After(l, r) => 1 + Max(Depth(g, l), Depth(g, r))
    case OneOrMore(q) => 1 + Depth(g, q)
    case List(q) => 1 + Depth(g, q)
    case Attribute(_, q) => 1 + Depth(g, q)
    case Data(_, _, x) => if x.Some? then 1 + Depth(g, x.value) else 0
    case Ref(id) => 1 + Depth(g, Expand(g, id))
    case Static(q, _, _, _, _) => 1 + Depth(g, q)
    case _ => 0
  }

  /** How deeply lists are nested in `p`. */
  function Nest(g: Grammar, p: Pattern): nat
    decreases Level(g.rank, p), p
  {
    match p
    case Choice(l, r) => Max(Nest(g, l), Nest(g, r))
    case Interleave(l, r) => Max(Nest(g, l), Nest(g, r))
    case Group(l, r) => Max(Nest(g, l), Nest(g, r))
    case After(l, r) => Max(Nest(g, l), Nest(g, r))
    case OneOrMore(q) => Nest(g, q)
    case List(q) => 1 + Nest(g, q)
    case Data(_, _, x) => if x.Some? then Nest(g, x.value) else 0
    case Ref(id) => Nest(g, Expand(g, id))
    case Static(q, _, _, _, _) => Nest(g, q)
    case _ => 0
  }

  lemma NestChoice(g: Grammar, a: Pattern, b: Pattern)
    ensures Nest(g, MkChoice(a, b)) <= Max(Nest(g, a), Nest(g, b))
  {
    ChoiceKeeps(p => Nest(g, p) <= Max(Nest(g, a), Nest(g, b)), a, b);
  }

  function EitherBranch(g: Grammar, x: Pattern, y: Pattern): (d: Pattern)
    ensures Nest(g, d) <= Max(Nest(g, x), Nest(g, y))
  {
    NestChoice(g, x, y);
    MkChoice(x, y)
  }

  /** One item taken by the left or by the right of an interleave, whose
      derivatives are `x` and `y`. */
  function EitherSide(g: Grammar, x: Pattern, l: Pattern, r: Pattern, y: Pattern): (d: Pattern)
    ensures Nest(g, d) <= Max(Max(Nest(g, x), Nest(g, r)), Max(Nest(g, l), Nest(g, y)))
  {
    EitherBranch(g, MkInterleave(x, r), MkInterleave(l, y))
  }

  function FirstOf(g: Grammar, x: Pattern, r: Pattern): (d: Pattern)
    ensures Nest(g, d) <= Max(Nest(g, x), Nest(g, r))
  {
    MkGroup(x, r)
  }

  /** One item taken by the first of a group, or by the second if the first may be empty. */
  function OneOfGroup(g: Grammar, x: Pattern, l: Pattern, r: Pattern, y: Pattern): (d: Pattern)
    ensures Nest(g, d) <= Max(Max(Nest(g, x), Nest(g, r)), Nest(g, y))
  {
    var d := FirstOf(g, x, r);
    if Nullable(g, l) then EitherBranch(g, d, y) else d
  }

  function Within(g: Grammar, x: Pattern, r: Pattern): (d: Pattern)
    ensures Nest(g, d) <= Max(Nest(g, x), Nest(g, r))
  {
    MkAfter(x, r)
  }

  /** One item taken by a match of `q`, whose derivative is `x`, and more to come. */
  function OneThenMore(g: Grammar, x: Pattern, q: Pattern): (d: Pattern)
    ensures Nest(g, d) <= Max(Nest(g, x), Nest(g, q))
  {
    NestChoice(g, MkOneOrMore(q), Empty);
    MkGroup(x, More(q))
  }

  /** The derivative with respect to a string of character data. */
  function TextDeriv(g: Grammar, p: Pattern, s: string, cx: Context): (d: Pattern)
    ensures Nest(g, d) <= Nest(g, p)
    decreases Nest(g, p), 0, Depth(g, p), 0
  {
    match p
    case Choice(l, r) => EitherBranch(g, TextDeriv(g, l, s, cx), TextDeriv(g, r, s, cx))
    case Interleave(l, r) => EitherSide(g, TextDeriv(g, l, s, cx), l, r, TextDeriv(g, r, s, cx))
    case Group(l, r) => OneOfGroup(g, TextDeriv(g, l, s, cx), l, r, TextDeriv(g, r, s, cx))
    case After(l, r) => Within(g, TextDeriv(g, l, s, cx), r)
    case OneOrMore(q) => OneThenMore(g, TextDeriv(g, q, s, cx), q)
    case Text => Text
    case Value(ty, v, scope) => if EqualValue(g, ty, v, scope, s, cx) then Empty else NotAllowed
    case Data(ty, params, x) =>
      if !Allowed(g, ty, params, s, cx) then NotAllowed
      else if x.Some? && ValueMatch(g, x.value, s, cx) then NotAllowed
      else Empty
    case List(q) => ListDeriv(g, q, SplitTokens(s), cx)
    case Ref(id) => TextDeriv(g, Expand(g, id), s, cx)
    case Static(q, _, _, _, _) => TextDeriv(g, q, s, cx)
    case _ => NotAllowed
  }

  /** Applies a pattern to the tokens of a list. */
  function ListDeriv(g: Grammar, p: Pattern, tokens: seq<string>, cx: Context): (d: Pattern)
    ensures d == Empty || d == NotAllowed
    decreases Nest(g, p), 1, |tokens|
  {
    if tokens == [] then (if Nullable(g, p) then Empty else NotAllowed)
    else ListDeriv(g, TextDeriv(g, p, tokens[0], cx), tokens[1..], cx)
  }

  /** Whether a string satisfies a pattern, as the code asks it. */
  predicate ValueMatch(g: Grammar, p: Pattern, s: string, cx: Context)
    decreases Nest(g, p), 0, Depth(g, p), 1
  {
    (Nullable(g, p) && WhitespaceOnly(s)) || TextDeriv(g, p, s, cx) != NotAllowed
  }

  // ---- attributes --------------------------------------------------------

  function AttDeriv(g: Grammar, p: Pattern, a: Attr, cx: Context): Pattern
    decreases Level(g.rank, p), p
  {
    match p
    case After(l, r) => MkAfter(AttDeriv(g, l, a, cx), r)
    case Choice(l, r) => MkChoice(AttDeriv(g, l, a, cx), AttDeriv(g, r, a, cx))
    case Group(l, r) =>
      MkChoice(MkGroup(AttDeriv(g, l, a, cx), r), MkGroup(l, AttDeriv(g, r, a, cx)))
    case Interleave(l, r) =>
      MkChoice(MkInterleave(AttDeriv(g, l, a, cx), r), MkInterleave(l, AttDeriv(g, r, a, cx)))
    case OneOrMore(q) => MkGroup(AttDeriv(g, q, a, cx), More(q))
    case Attribute(name, v) =>
      if name.Contains(a.name) && ValueMatch(g, v, a.value, cx) then Empty else NotAllowed
    case Ref(id) => AttDeriv(g, Expand(g, id), a, cx)
    case Static(q, _, _, _, _) => AttDeriv(g, q, a, cx)
    case _ => NotAllowed
  }

  // ---- close of the start tag, end tag -----------------------------------

  /** The pattern without the attributes never matched, and whether it had any;
      a pattern that had none comes back as it was. */
  function CloseDeriv(g: Grammar, p: Pattern): (Pattern, bool)
    decreases Level(g.rank, p), p
  {
    match p
    case After(l, r) =>
      var (x, ch) := CloseDeriv(g, l);
      if ch then (MkAfter(x, r), true) else (p, false)
    case Choice(l, r) =>
      var (x, chl) := CloseDeriv(g, l);
      var (y, chr) := CloseDeriv(g, r);
      if chl || chr then (MkChoice(x, y), true) else (p, false)
    case Group(l, r) =>
      var (x, chl) := CloseDeriv(g, l);
      var (y, chr) := CloseDeriv(g, r);
      if chl || chr then (MkGroup(x, y), true) else (p, false)
    case Interleave(l, r) =>
      var (x, chl) := CloseDeriv(g, l);
      var (y, chr) := CloseDeriv(g, r);
      if chl || chr then (MkInterleave(x, y), true) else (p, false)
    case OneOrMore(q) =>
      var (x, ch) := CloseDeriv(g, q);
      if ch then (MkOneOrMore(x), true) else (p, false)
    case Attribute(_, _) => (NotAllowed, true)
    case Ref(id) =>
      var (x, ch) := CloseDeriv(g, Expand(g, id));
      if ch then (x, true) else (p, false)
    case Static(q, _, _, _, _) =>
      var (x, ch) := CloseDeriv(g, q);
      if ch then (x, true) else (p, false)
    case _ => (p, false)
  }

  function EndDeriv(g: Grammar, p: Pattern): Pattern {
    match p
    case Choice(l, r) => MkChoice(EndDeriv(g, l), EndDeriv(g, r))
    case After(l, r) => if Nullable(g, l) then r else NotAllowed
    case _ => NotAllowed
  }
}
