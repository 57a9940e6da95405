/** The derivatives as the validator takes them: nodes interned and answers
    remembered, in tables of one run and in tables shared by every run of a
    schema.  Each method returns what the pure derivative is. */
module RelaxBuilder {
  import opened Basics
  import opened RelaxSyntax
  import opened RelaxLanguage
  import opened RelaxDerivative
  import opened RelaxSchema
  import opened RelaxMemo
  import opened RelaxStack
  import opened RelaxQuotient

  datatype Kind = KChoice | KGroup | KInterleave | KAfter | KOneOrMore

  function Node(k: Kind, l: Pattern, r: Pattern): Pattern {
    match k
    case KChoice => Choice(l, r)
    case KGroup => Group(l, r)
    case KInterleave => Interleave(l, r)
    case KAfter => After(l, r)
    case KOneOrMore => OneOrMore(l)
  }

  const MAX_MEMO := 65536

  /** The tables of one run.  A run begins without one, which is a builder that
      is not `live`: it keeps nothing.  `ctxUsed` tells whether the derivative being taken
      has asked for the namespace bindings, which the keys leave out. */
  class PatBuilder {
    var intern: map<(Kind, Pattern, Pattern), Pattern>
    var openM: map<(Pattern, QName), Pattern>
    var attM: map<(Pattern, Attr), Pattern>
    var closeM: map<Pattern, Pattern>
    var endM: map<Pattern, Pattern>
    var ctxUsed: bool
    var live: bool

    constructor ()
      ensures !live && Interned() && forall g :: Remembers(g)
    {
      intern, openM, attM, closeM, endM, ctxUsed, live := map[], map[], map[], map[], map[], false, false;
    }

    ghost predicate Interned()
      reads this`intern
    {
      forall k | k in intern :: intern[k] == Node(k.0, k.1, k.2)
    }

    ghost predicate OpenRight(g: Grammar)
      reads this`openM
    {
      forall k | k in openM :: openM[k] == OpenDeriv(g, k.0, k.1)
    }

    ghost predicate AttRight(g: Grammar)
      reads this`attM
    {
      forall k | k in attM :: forall cx :: attM[k] == AttDeriv(g, k.0, k.1, cx)
    }

    ghost predicate EndsRight(g: Grammar)
      reads this`closeM, this`endM
    {
      && (forall k | k in closeM :: closeM[k] == CloseDeriv(g, k).0)
      && (forall k | k in endM :: endM[k] == EndDeriv(g, k))
    }

    /** Every entry is the answer the computation would give. */
    ghost predicate Remembers(g: Grammar)
      reads this`openM, this`attM, this`closeM, this`endM
    {
      OpenRight(g) && AttRight(g) && EndsRight(g)
    }
  }

  /** The tables every run of a schema shares, indexed by the reference or the
      wrapper that holds them. */
  class SchemaMemo {
    var open: map<(Pattern, QName), Pattern>
    var att: map<(Pattern, QName), Option<Pattern>>
    var text: map<Pattern, Pattern>
    var close: map<Pattern, (Pattern, bool)>
    var attrFree: set<Pattern>
    var resolved: set<Pattern>

    /** A compiled schema may come with wrappers known to hold no attribute. */
    constructor (g: Grammar, free: set<Pattern>)
      requires forall p | p in free :: AttrFree(g, p)
      ensures Valid(g)
    {
      open, att, text, close, attrFree, resolved := map[], map[], map[], map[], free, {};
    }

    ghost predicate OpenRight(g: Grammar)
      reads this`open
    {
      forall k | k in open :: open[k] == OpenDeriv(g, k.0, k.1)
    }

    ghost predicate AttRight(g: Grammar)
      reads this`att
    {
      forall k | k in att && att[k].Some? ::
        forall a: Attr, cx | a.name == k.1 :: AttDeriv(g, k.0, a, cx) == att[k].value
    }

    ghost predicate TextRight(g: Grammar)
      reads this`text
    {
      forall k | k in text :: forall s, cx :: TextDeriv(g, k, s, cx) == text[k]
    }

    ghost predicate CloseRight(g: Grammar)
      reads this`close, this`attrFree
    {
      && (forall k | k in close :: close[k] == CloseDeriv(g, k))
      && (forall k | k in attrFree :: AttrFree(g, k))
    }

    /** Every entry is the answer the computation would give. */
    ghost predicate Valid(g: Grammar)
      reads this
    {
      OpenRight(g) && AttRight(g) && TextRight(g) && CloseRight(g)
    }
  }

  /** The run has asked for namespace bindings, or keeps no account of it. */
  ghost predicate Asked(pb: PatBuilder)
    reads pb`live, pb`ctxUsed
  {
    !pb.live || pb.ctxUsed
  }

  // ---- constructors ------------------------------------------------------

  method Make(pb: PatBuilder, k: Kind, l: Pattern, r: Pattern) returns (p: Pattern)
    requires pb.Interned()
    modifies pb`intern
    ensures pb.Interned() && p == Node(k, l, r)
  {
    var key := (k, l, r);
    if key in pb.intern { return pb.intern[key]; }
    p := Node(k, l, r);
    if |pb.intern| < MAX_MEMO { pb.intern := pb.intern[key := p]; }
  }

  method CountAlternatives(p: Pattern) returns (n: nat)
    ensures n == AltCount(p)
    decreases p
  {
    n := 1;
    var q := p;
    while true
      invariant q == p || q < p
      invariant n + AltCount(q) == AltCount(p) + 1
      decreases q
    {
      var c := Unstatic(q);
      if !c.Choice? { return; }
      var k := CountAlternatives(c.right);
      n, q := n + k, c.left;
    }
  }

  method FindAlternative(a: Pattern, b: Pattern) returns (found: bool)
    ensures found == InChoice(a, b)
  {
    var size, q := Size(b), a;
    while true
      invariant InChoice(a, b) == InChoice(q, b)
      decreases q
    {
      var c := Unstatic(q);
      if !c.Choice? { return Size(q) == size && PatEq(q, b); }
      if Size(c.right) == size && PatEq(c.right, b) { return true; }
      q := c.left;
    }
  }

  method BuildChoice(pb: PatBuilder, a: Pattern, b: Pattern) returns (c: Pattern)
    requires pb.Interned()
    modifies pb`intern
    ensures pb.Interned() && c == MkChoice(a, b)
    decreases b
  {
    if a == NotAllowed { return b; }
    if b == NotAllowed { return a; }
    var found := FindAlternative(a, b);
    if PatEq(a, b) || found {
      assert MkChoice(a, b) == a;
      return a;
    }
    if b.Choice? {
      var m := CountAlternatives(a);
      var n := CountAlternatives(b);
      if m * n <= MAX_MERGE_PAIRS {
        var d := BuildChoice(pb, a, b.left);
        c := BuildChoice(pb, d, b.right);
        assert MkChoice(a, b) == MkChoice(d, b.right);
        return;
      }
    }
    assert MkChoice(a, b) == Choice(a, b);
    if pb.live { c := Make(pb, KChoice, a, b); } else { c := Choice(a, b); }
  }

  method BuildGroup(pb: PatBuilder, a: Pattern, b: Pattern) returns (c: Pattern)
    requires pb.Interned()
    modifies pb`intern
    ensures pb.Interned() && c == MkGroup(a, b)
  {
    if a == NotAllowed || b == NotAllowed { return NotAllowed; }
    if a == Empty { return b; }
    if b == Empty { return a; }
    if pb.live { c := Make(pb, KGroup, a, b); } else { c := Group(a, b); }
  }

  method BuildInterleave(pb: PatBuilder, a: Pattern, b: Pattern) returns (c: Pattern)
    requires pb.Interned()
    modifies pb`intern
    ensures pb.Interned() && c == MkInterleave(a, b)
  {
    if a == NotAllowed || b == NotAllowed { return NotAllowed; }
    if a == Empty { return b; }
    if b == Empty { return a; }
    if pb.live { c := Make(pb, KInterleave, a, b); } else { c := Interleave(a, b); }
  }

  method BuildAfter(pb: PatBuilder, a: Pattern, b: Pattern) returns (c: Pattern)
    requires pb.Interned()
    modifies pb`intern
    ensures pb.Interned() && c == MkAfter(a, b)
  {
    if a == NotAllowed || b == NotAllowed { return NotAllowed; }
    if pb.live { c := Make(pb, KAfter, a, b); } else { c := After(a, b); }
  }

  method BuildOneOrMore(pb: PatBuilder, p: Pattern) returns (c: Pattern)
    requires pb.Interned()
    modifies pb`intern
    ensures pb.Interned() && c == MkOneOrMore(p)
  {
    if p == NotAllowed { return NotAllowed; }
    if pb.live { c := Make(pb, KOneOrMore, p, NotAllowed); } else { c := OneOrMore(p); }
  }

  method BuildMore(pb: PatBuilder, q: Pattern) returns (c: Pattern)
    requires pb.Interned()
    modifies pb`intern
    ensures pb.Interned() && c == More(q)
  {
    var r := BuildOneOrMore(pb, q);
    c := BuildChoice(pb, r, Empty);
  }

  // ---- derivatives -------------------------------------------------------

  ghost predicate Fit(g: Grammar, memo: SchemaMemo, pb: PatBuilder)
    reads memo, pb`intern
  {
    memo.Valid(g) && pb.Interned()
  }

  method BuildWrap(pb: PatBuilder, w: Wrapper, x: Pattern) returns (c: Pattern)
    requires pb.Interned()
    modifies pb`intern
    ensures pb.Interned() && c == Wrap(w, x)
  {
    match w
    case BesideRight(r) => c := BuildInterleave(pb, x, r);
    case BesideLeft(l) => c := BuildInterleave(pb, l, x);
    case Before(r) => c := BuildGroup(pb, x, r);
    case Inside(r) => c := BuildAfter(pb, x, r);
  }

  method BuildApply(pb: PatBuilder, w: Wrapper, p: Pattern) returns (c: Pattern)
    requires pb.Interned()
    modifies pb`intern
    ensures pb.Interned() && c == ApplyAfter(w, p)
    decreases p
  {
    match p
    case After(l, r) =>
      var x := BuildWrap(pb, w, r);
      c := BuildAfter(pb, l, x);
    case Choice(l, r) =>
      var x := BuildApply(pb, w, l);
      var y := BuildApply(pb, w, r);
      c := BuildChoice(pb, x, y);
    case _ => c := NotAllowed;
  }

  method TakeOpen(g: Grammar, memo: SchemaMemo, pb: PatBuilder, p: Pattern, name: QName) returns (d: Pattern)
    requires Fit(g, memo, pb)
    modifies memo`open, memo`resolved, pb`intern
    ensures Fit(g, memo, pb)
    ensures d == OpenDeriv(g, p, name)
    decreases Depth(g, p)
  {
    if p.Ref? || p.Static? {
      var found: bool := *; // a lookup may miss an entry another run is storing
      if found && (p, name) in memo.open { return memo.open[(p, name)]; }
      if p.Ref? {
        memo.resolved := memo.resolved + {p};
        d := TakeOpen(g, memo, pb, Expand(g, p.id), name);
      } else {
        d := TakeOpen(g, memo, pb, p.inner, name);
      }
      memo.open := memo.open[(p, name) := d];
      return;
    }
    match p
    case Choice(l, r) =>
      var x := TakeOpen(g, memo, pb, l, name);
      var y := TakeOpen(g, memo, pb, r, name);
      d := BuildChoice(pb, x, y);
    case Element(nc, q) =>
      if nc.Contains(name) { d := BuildAfter(pb, q, Empty); } else { d := NotAllowed; }
    case Interleave(l, r) =>
      var x := TakeOpen(g, memo, pb, l, name);
      x := BuildApply(pb, BesideRight(r), x);
      var y := TakeOpen(g, memo, pb, r, name);
      y := BuildApply(pb, BesideLeft(l), y);
      d := BuildChoice(pb, x, y);
    case OneOrMore(q) =>
      var x := TakeOpen(g, memo, pb, q, name);
      var more := BuildMore(pb, q);
      d := BuildApply(pb, Before(more), x);
    case Group(l, r) =>
      var x := TakeOpen(g, memo, pb, l, name);
      d := BuildApply(pb, Before(r), x);
      if Nullable(g, l) {
        var y := TakeOpen(g, memo, pb, r, name);
        d := BuildChoice(pb, d, y);
      }
    case After(l, r) =>
      var x := TakeOpen(g, memo, pb, l, name);
      d := BuildApply(pb, Inside(r), x);
    case _ => d := NotAllowed;
  }

  method SplitOnSpace(s: string) returns (out: seq<string>)
    ensures out == SplitTokens(s)
  {
    out := [];
    var start := -1;
    for i := 0 to |s|
      invariant -1 <= start < i || start == -1
      invariant start < 0 ==> out + SplitTokens(s[i..]) == SplitTokens(s)
      invariant start >= 0 ==> out + SplitTokens(s[start..]) == SplitTokens(s)
      invariant start >= 0 ==> forall k | start <= k < i :: !IsSpace(s[k])
    {
      if IsSpace(s[i]) {
        if start >= 0 {
          TokenTaken(s, start, i, out);
          out := out + [s[start..i]];
          start := -1;
        }
        assert s[i..][1..] == s[i + 1..];
      } else if start < 0 {
        start := i;
      }
    }
    if start >= 0 {
      TokenTaken(s, start, |s|, out);
      out := out + [s[start..]];
      assert s[start..|s|] == s[start..];
    }
    assert s[|s|..] == [];
  }

  lemma TokenTaken(s: string, start: nat, end: nat, out: seq<string>)
    requires start < end <= |s| && (end < |s| ==> IsSpace(s[end]))
    requires forall k | start <= k < end :: !IsSpace(s[k])
    requires out + SplitTokens(s[start..]) == SplitTokens(s)
    ensures out + [s[start..end]] + SplitTokens(s[end..]) == SplitTokens(s)
  {
    var (first, others) := ([s[start..end]], SplitTokens(s[end..]));
    assert SplitTokens(s[start..]) == first + others by { TokenAt(s, start, end); }
    InTurn(out, first, others);
  }

  lemma InTurn(a: seq<string>, b: seq<string>, c: seq<string>)
    ensures a + (b + c) == a + b + c
  {
  }

  lemma TokenAt(s: string, start: nat, end: nat)
    requires start < end <= |s| && (end < |s| ==> IsSpace(s[end]))
    requires forall k | start <= k < end :: !IsSpace(s[k])
    ensures SplitTokens(s[start..]) == [s[start..end]] + SplitTokens(s[end..])
  {
    var (t, n) := (s[start..], end - start);
    assert forall k | 0 <= k < n :: t[k] == s[start + k];
    assert n < |t| ==> IsSpace(t[n]);
    assert TokenLength(t) == n;
    assert t[..n] == s[start..end] && t[n..] == s[end..];
  }

  method TakeText(g: Grammar, memo: SchemaMemo, pb: PatBuilder, p: Pattern, ghost k: nat, s: string, cx: Context)
    returns (d: Pattern)
    requires SchemaGrammar(g) && Stacked(IsSchema(g), p, k) && Fit(g, memo, pb)
    modifies memo`text, memo`resolved, pb`intern, pb`ctxUsed
    ensures Fit(g, memo, pb) && (old(Asked(pb)) ==> Asked(pb))
    ensures d == TextDeriv(g, p, s, cx)
    ensures Asked(pb) || TextFixed(g, p, s)
    decreases Nest(g, p), 0, Depth(g, p), 1
  {
    match p {
      case Static(_, _, _, _, _) => d := TakeStaticText(g, memo, pb, p, k, s, cx);
      case Ref(id) =>
        memo.resolved := memo.resolved + {p};
        d := TakeText(g, memo, pb, Expand(g, id), 0, s, cx);
      case After(l, r) =>
        var x := TakeText(g, memo, pb, l, 0, s, cx);
        d := BuildAfter(pb, x, r);
      case OneOrMore(q) =>
        var x := TakeText(g, memo, pb, q, 0, s, cx);
        var more := BuildMore(pb, q);
        d := BuildGroup(pb, x, more);
      case Text => d := Text;
      case Value(ty, v, scope) =>
        if g.lib.contextual(ty) { UseContext(pb); }
        d := if EqualValue(g, ty, v, scope, s, cx) then Empty else NotAllowed;
      case Data(_, _, _) => d := TakeData(g, memo, pb, p, s, cx);
      case List(q) =>
        var tokens := SplitOnSpace(s);
        d := TakeList(g, memo, pb, q, tokens, cx);
      case Choice(_, _) => d := TakePairText(g, memo, pb, p, k, s, cx);
      case Interleave(_, _) => d := TakePairText(g, memo, pb, p, k, s, cx);
      case Group(_, _) => d := TakePairText(g, memo, pb, p, k, s, cx);
      case _ => d := NotAllowed;
    }
    if pb.live && !pb.ctxUsed && TextPartsFixed(g, p, s) { TextFixedByParts(g, p, s); }
  }

  /** A wrapper around data-free content answers every text alike, and remembers it. */
  method TakeStaticText(g: Grammar, memo: SchemaMemo, pb: PatBuilder, p: Pattern, ghost k: nat, s: string, cx: Context)
    returns (d: Pattern)
    requires SchemaGrammar(g) && Stacked(IsSchema(g), p, k) && Fit(g, memo, pb) && p.Static?
    modifies memo`text, memo`resolved, pb`intern, pb`ctxUsed
    ensures Fit(g, memo, pb) && (old(Asked(pb)) ==> Asked(pb))
    ensures d == TextDeriv(g, p, s, cx)
    ensures Asked(pb) || TextPartsFixed(g, p, s) || TextFixed(g, p, s)
    decreases Nest(g, p), 0, Depth(g, p), 0
  {
    var q := p.inner;
    if p.dataFree && p in memo.text {
      d := memo.text[p];
    } else {
      d := TakeText(g, memo, pb, q, 0, s, cx);
      if p.dataFree {
        forall s', cx' ensures TextDeriv(g, p, s', cx') == d { DataFreeText(g, q, s', cx', s, cx); }
        memo.text := memo.text[p := d];
      }
    }
    if p.dataFree { forall cx, cx' { DataFreeText(g, p, s, cx, s, cx'); } }
  }

  method TakePairText(g: Grammar, memo: SchemaMemo, pb: PatBuilder, p: Pattern, ghost k: nat, s: string, cx: Context)
    returns (d: Pattern)
    requires p.Choice? || p.Interleave? || p.Group?
    requires SchemaGrammar(g) && Stacked(IsSchema(g), p, k) && Fit(g, memo, pb)
    modifies memo`text, memo`resolved, pb`intern, pb`ctxUsed
    ensures Fit(g, memo, pb) && (old(Asked(pb)) ==> Asked(pb))
    ensures d == TextDeriv(g, p, s, cx)
    ensures Asked(pb) || TextPartsFixed(g, p, s)
    decreases Nest(g, p), 0, Depth(g, p), 0
  {
    var (l, r) := (p.left, p.right);
    match p
    case Choice(_, _) =>
      var x := TakeText(g, memo, pb, l, k, s, cx);
      var y := TakeText(g, memo, pb, r, k, s, cx);
      d := BuildChoice(pb, x, y);
    case Interleave(_, _) =>
      var x := TakeText(g, memo, pb, l, 0, s, cx);
      x := BuildInterleave(pb, x, r);
      var y := TakeText(g, memo, pb, r, 0, s, cx);
      y := BuildInterleave(pb, l, y);
      d := BuildChoice(pb, x, y);
    case Group(_, _) =>
      var x := TakeText(g, memo, pb, l, 0, s, cx);
      d := BuildGroup(pb, x, r);
      if Nullable(g, l) {
        var y := TakeText(g, memo, pb, r, 0, s, cx);
        d := BuildChoice(pb, d, y);
      }
  }

  /** A datatype, and what is excepted from it. */
  method TakeData(g: Grammar, memo: SchemaMemo, pb: PatBuilder, p: Pattern, s: string, cx: Context)
    returns (d: Pattern)
    requires SchemaGrammar(g) && Schema(g, p) && p.Data? && Fit(g, memo, pb)
    modifies memo`text, memo`resolved, pb`intern, pb`ctxUsed
    ensures Fit(g, memo, pb) && (old(Asked(pb)) ==> Asked(pb))
    ensures d == TextDeriv(g, p, s, cx)
    ensures Asked(pb) || TextPartsFixed(g, p, s)
    decreases Nest(g, p), 0, Depth(g, p), 0
  {
    if g.lib.contextual(p.ty) { UseContext(pb); }
    d := NotAllowed;
    if Allowed(g, p.ty, p.params, s, cx) {
      d := Empty;
      if p.except.Some? {
        var hit := TakeValue(g, memo, pb, p.except.value, s, cx);
        if hit { d := NotAllowed; }
      }
    }
  }

  method UseContext(pb: PatBuilder)
    modifies pb`ctxUsed
    ensures Asked(pb)
  {
    if pb.live { pb.ctxUsed := true; }
  }

  method TakeValue(g: Grammar, memo: SchemaMemo, pb: PatBuilder, p: Pattern, s: string, cx: Context)
    returns (hit: bool)
    requires SchemaGrammar(g) && Schema(g, p) && Fit(g, memo, pb)
    modifies memo`text, memo`resolved, pb`intern, pb`ctxUsed
    ensures Fit(g, memo, pb) && (old(Asked(pb)) ==> Asked(pb))
    ensures hit == ValueMatch(g, p, s, cx)
    ensures Asked(pb) || ValueFixed(g, p, s)
    decreases Nest(g, p), 0, Depth(g, p), 2
  {
    if Nullable(g, p) && WhitespaceOnly(s) {
      hit := true;
      ValueFixedByText(g, p, s);
    } else {
      var d := TakeText(g, memo, pb, p, 0, s, cx);
      hit := d != NotAllowed;
      if TextFixed(g, p, s) { ValueFixedByText(g, p, s); }
    }
  }

  method TakeList(g: Grammar, memo: SchemaMemo, pb: PatBuilder, p: Pattern, tokens: seq<string>, cx: Context)
    returns (d: Pattern)
    requires SchemaGrammar(g) && Schema(g, p) && Fit(g, memo, pb)
    modifies memo`text, memo`resolved, pb`intern, pb`ctxUsed
    ensures Fit(g, memo, pb) && (old(Asked(pb)) ==> Asked(pb))
    ensures d == ListDeriv(g, p, tokens, cx)
    ensures Asked(pb) || ListFixed(g, p, tokens)
    decreases Nest(g, p), 1
  {
    var q := p;
    for i := 0 to |tokens|
      invariant Schema(g, q) && Nest(g, q) <= Nest(g, p)
      invariant Fit(g, memo, pb) && (old(Asked(pb)) ==> Asked(pb))
      invariant ListDeriv(g, p, tokens, cx) == ListDeriv(g, q, tokens[i..], cx)
      invariant Asked(pb) || forall c :: ListDeriv(g, p, tokens, c) == ListDeriv(g, q, tokens[i..], c)
    {
      assert tokens[i..][0] == tokens[i] && tokens[i..][1..] == tokens[i + 1..];
      SchemaHereditary(g);
      KeepsText(g, x => Schema(g, x), q, tokens[i], cx);
      ghost var was := q;
      q := TakeText(g, memo, pb, q, 0, tokens[i], cx);
      if !Asked(pb) {
        forall c ensures ListDeriv(g, was, tokens[i..], c) == ListDeriv(g, q, tokens[i + 1..], c) {
          assert TextDeriv(g, was, tokens[i], c) == TextDeriv(g, was, tokens[i], cx);
        }
      }
    }
    assert tokens[|tokens|..] == [];
    if !Asked(pb) {
      forall c ensures ListDeriv(g, p, tokens, c) == ListDeriv(g, q, [], c) {}
    }
    d := if Nullable(g, q) then Empty else NotAllowed;
  }

  method TakeAtt(g: Grammar, memo: SchemaMemo, pb: PatBuilder, p: Pattern, ghost k: nat, a: Attr, cx: Context)
    returns (d: Pattern)
    requires SchemaGrammar(g) && Stacked(IsSchema(g), p, k) && Fit(g, memo, pb)
    modifies memo`text, memo`att, memo`resolved, pb`intern, pb`ctxUsed
    ensures Fit(g, memo, pb) && (old(Asked(pb)) ==> Asked(pb))
    ensures d == AttDeriv(g, p, a, cx)
    ensures Asked(pb) || AttFixed(g, p, a)
    decreases Depth(g, p), 1
  {
    if (p.Ref? || p.Static?) && p in memo.attrFree {
      d := NotAllowed;
      forall c ensures AttDeriv(g, p, a, c) == d { AttrFreeAtt(g, p, a, c); }
      return;
    }
    match p {
      case Ref(id) =>
        memo.resolved := memo.resolved + {p};
        d := TakeAtt(g, memo, pb, Expand(g, id), 0, a, cx);
      case Static(_, _, _, _, _) => d := TakeStaticAtt(g, memo, pb, p, k, a, cx);
      case After(l, r) =>
        var x := TakeAtt(g, memo, pb, l, 0, a, cx);
        d := BuildAfter(pb, x, r);
      case OneOrMore(q) =>
        var x := TakeAtt(g, memo, pb, q, 0, a, cx);
        var more := BuildMore(pb, q);
        d := BuildGroup(pb, x, more);
      case Attribute(_, _) => d := TakeAttribute(g, memo, pb, p, a, cx);
      case Choice(_, _) => d := TakePairAtt(g, memo, pb, p, k, a, cx);
      case Interleave(_, _) => d := TakePairAtt(g, memo, pb, p, k, a, cx);
      case Group(_, _) => d := TakePairAtt(g, memo, pb, p, k, a, cx);
      case _ => d := NotAllowed;
    }
    if pb.live && !pb.ctxUsed && AttPartsFixed(g, p, a) { AttFixedByParts(g, p, a); }
  }

  method TakeAttribute(g: Grammar, memo: SchemaMemo, pb: PatBuilder, p: Pattern, a: Attr, cx: Context)
    returns (d: Pattern)
    requires SchemaGrammar(g) && Schema(g, p) && p.Attribute? && Fit(g, memo, pb)
    modifies memo`text, memo`resolved, pb`intern, pb`ctxUsed
    ensures Fit(g, memo, pb) && (old(Asked(pb)) ==> Asked(pb))
    ensures d == AttDeriv(g, p, a, cx)
    ensures Asked(pb) || AttPartsFixed(g, p, a)
  {
    d := NotAllowed;
    if p.name.Contains(a.name) {
      var hit := TakeValue(g, memo, pb, p.content, a.value, cx);
      if hit { d := Empty; }
    }
  }

  /** A wrapper whose answer does not depend on the value remembers it by the name. */
  method TakeStaticAtt(g: Grammar, memo: SchemaMemo, pb: PatBuilder, p: Pattern, ghost k: nat, a: Attr, cx: Context)
    returns (d: Pattern)
    requires SchemaGrammar(g) && Stacked(IsSchema(g), p, k) && Fit(g, memo, pb) && p.Static?
    modifies memo`text, memo`att, memo`resolved, pb`intern, pb`ctxUsed
    ensures Fit(g, memo, pb) && (old(Asked(pb)) ==> Asked(pb))
    ensures d == AttDeriv(g, p, a, cx)
    ensures Asked(pb) || AttPartsFixed(g, p, a) || AttFixed(g, p, a)
    decreases Depth(g, p), 0
  {
    var found: bool := *; // a lookup may miss an entry another run is storing
    if found && (p, a.name) in memo.att && memo.att[(p, a.name)].Some? {
      d := memo.att[(p, a.name)].value;
    } else {
      d := TakeAtt(g, memo, pb, p.inner, 0, a, cx);
      if !found || (p, a.name) !in memo.att { Remember(g, memo, pb, p, a, cx, d); }
    }
  }

  method TakePairAtt(g: Grammar, memo: SchemaMemo, pb: PatBuilder, p: Pattern, ghost k: nat, a: Attr, cx: Context)
    returns (d: Pattern)
    requires p.Choice? || p.Interleave? || p.Group?
    requires SchemaGrammar(g) && Stacked(IsSchema(g), p, k) && Fit(g, memo, pb)
    modifies memo`text, memo`att, memo`resolved, pb`intern, pb`ctxUsed
    ensures Fit(g, memo, pb) && (old(Asked(pb)) ==> Asked(pb))
    ensures d == AttDeriv(g, p, a, cx)
    ensures Asked(pb) || AttPartsFixed(g, p, a)
    decreases Depth(g, p), 0
  {
    var (l, r) := (p.left, p.right);
    ghost var j := if p.Choice? then k else 0;
    var x := TakeAtt(g, memo, pb, l, j, a, cx);
    match p {
      case Choice(_, _) =>
      case Interleave(_, _) => x := BuildInterleave(pb, x, r);
      case Group(_, _) => x := BuildGroup(pb, x, r);
    }
    var y := TakeAtt(g, memo, pb, r, j, a, cx);
    match p {
      case Choice(_, _) =>
      case Interleave(_, _) => y := BuildInterleave(pb, l, y);
      case Group(_, _) => y := BuildGroup(pb, l, y);
    }
    d := BuildChoice(pb, x, y);
  }

  /** Stores a wrapper's derivative by attribute name, or that it depends on the
      value. */
  method Remember(g: Grammar, memo: SchemaMemo, pb: PatBuilder, p: Pattern, a: Attr, cx: Context, d: Pattern)
    requires SchemaGrammar(g) && p.Static? && Schema(g, p) && Fit(g, memo, pb)
    requires d == AttDeriv(g, p, a, cx)
    modifies memo`att
    ensures Fit(g, memo, pb)
  {
    var keep := None;
    if AnyValueFor(g, p.inner, a.name, memo.attrFree, memo.resolved, {}) {
      keep := Some(d);
      forall a': Attr, cx' | a'.name == a.name ensures AttDeriv(g, p, a', cx') == d {
        AnyValueSame(g, p.inner, a.name, memo.attrFree, memo.resolved, {}, a', cx', a, cx);
      }
    }
    memo.att := memo.att[(p, a.name) := keep];
  }

  method TakeClose(g: Grammar, memo: SchemaMemo, pb: PatBuilder, p: Pattern) returns (d: Pattern, ch: bool)
    requires Fit(g, memo, pb)
    modifies memo`close, memo`attrFree, memo`resolved, pb`intern
    ensures Fit(g, memo, pb)
    ensures (d, ch) == CloseDeriv(g, p)
    decreases Depth(g, p), 1
  {
    match p
    case Ref(id) =>
      CloseAttrFree(g, p);
      if p in memo.attrFree { return p, false; }
      memo.resolved := memo.resolved + {p};
      d, ch := TakeClose(g, memo, pb, Expand(g, id));
      if !ch {
        memo.attrFree := memo.attrFree + {p};
        d := p;
      }
    case Static(_, _, _, _, _) => d, ch := TakeStaticClose(g, memo, pb, p);
    case After(l, r) =>
      d, ch := TakeClose(g, memo, pb, l);
      if ch { d := BuildAfter(pb, d, r); } else { d := p; }
    case Choice(_, _) => d, ch := TakePairClose(g, memo, pb, p);
    case Interleave(_, _) => d, ch := TakePairClose(g, memo, pb, p);
    case Group(_, _) => d, ch := TakePairClose(g, memo, pb, p);
    case OneOrMore(q) =>
      d, ch := TakeClose(g, memo, pb, q);
      if ch { d := BuildOneOrMore(pb, d); } else { d := p; }
    case Attribute(_, _) => d, ch := NotAllowed, true;
    case _ => d, ch := p, false;
  }

  method TakeStaticClose(g: Grammar, memo: SchemaMemo, pb: PatBuilder, p: Pattern) returns (d: Pattern, ch: bool)
    requires Fit(g, memo, pb) && p.Static?
    modifies memo`close, memo`attrFree, memo`resolved, pb`intern
    ensures Fit(g, memo, pb)
    ensures (d, ch) == CloseDeriv(g, p)
    decreases Depth(g, p), 0
  {
    CloseAttrFree(g, p);
    if p in memo.attrFree { return p, false; }
    if p in memo.close { return memo.close[p].0, memo.close[p].1; }
    d, ch := TakeClose(g, memo, pb, p.inner);
    if !ch { d := p; }
    memo.close := memo.close[p := (d, ch)];
  }

  method TakePairClose(g: Grammar, memo: SchemaMemo, pb: PatBuilder, p: Pattern) returns (d: Pattern, ch: bool)
    requires p.Choice? || p.Interleave? || p.Group?
    requires Fit(g, memo, pb)
    modifies memo`close, memo`attrFree, memo`resolved, pb`intern
    ensures Fit(g, memo, pb)
    ensures (d, ch) == CloseDeriv(g, p)
    decreases Depth(g, p), 0
  {
    var x, chl := TakeClose(g, memo, pb, p.left);
    var y, chr := TakeClose(g, memo, pb, p.right);
    d, ch := p, chl || chr;
    if ch {
      match p
      case Choice(_, _) => d := BuildChoice(pb, x, y);
      case Interleave(_, _) => d := BuildInterleave(pb, x, y);
      case Group(_, _) => d := BuildGroup(pb, x, y);
    }
  }

  method TakeEnd(g: Grammar, pb: PatBuilder, p: Pattern) returns (d: Pattern)
    requires pb.Interned()
    modifies pb`intern
    ensures pb.Interned() && d == EndDeriv(g, p)
    decreases p
  {
    match p
    case Choice(l, r) =>
      var x := TakeEnd(g, pb, l);
      var y := TakeEnd(g, pb, r);
      d := BuildChoice(pb, x, y);
    case After(l, r) => d := if Nullable(g, l) then r else NotAllowed;
    case _ => d := NotAllowed;
  }

  // ---- the derivatives a run remembers -----------------------------------

  method Open(g: Grammar, memo: SchemaMemo, pb: PatBuilder, p: Pattern, name: QName) returns (d: Pattern)
    requires Fit(g, memo, pb) && pb.Remembers(g)
    modifies memo`open, memo`resolved, pb`intern, pb`openM
    ensures Fit(g, memo, pb) && pb.Remembers(g)
    ensures d == OpenDeriv(g, p, name)
  {
    if pb.live && (p, name) in pb.openM {
      d := pb.openM[(p, name)];
    } else {
      d := TakeOpen(g, memo, pb, p, name);
      if pb.live && |pb.openM| + |pb.attM| < MAX_MEMO { pb.openM := pb.openM[(p, name) := d]; }
    }
  }

  /** The bindings are not part of the key: an answer that asked for them is not
      remembered. */
  method Att(g: Grammar, memo: SchemaMemo, pb: PatBuilder, p: Pattern, ghost k: nat, a: Attr, cx: Context)
    returns (d: Pattern)
    requires SchemaGrammar(g) && Stacked(IsSchema(g), p, k) && Fit(g, memo, pb) && pb.Remembers(g)
    modifies memo`text, memo`att, memo`resolved, pb`intern, pb`ctxUsed, pb`attM
    ensures Fit(g, memo, pb) && pb.Remembers(g)
    ensures d == AttDeriv(g, p, a, cx)
  {
    if !pb.live {
      d := TakeAtt(g, memo, pb, p, k, a, cx);
    } else if (p, a) in pb.attM {
      d := pb.attM[(p, a)];
    } else {
      pb.ctxUsed := false;
      d := TakeAtt(g, memo, pb, p, k, a, cx);
      KeepAtt(g, pb, p, a, cx, d);
    }
  }

  method KeepAtt(g: Grammar, pb: PatBuilder, p: Pattern, a: Attr, ghost cx: Context, d: Pattern)
    requires pb.Remembers(g) && d == AttDeriv(g, p, a, cx) && (pb.ctxUsed || AttFixed(g, p, a))
    modifies pb`attM
    ensures pb.Remembers(g)
  {
    if !pb.ctxUsed && |pb.openM| + |pb.attM| < MAX_MEMO { pb.attM := pb.attM[(p, a) := d]; }
  }

  method CloseTag(g: Grammar, memo: SchemaMemo, pb: PatBuilder, p: Pattern) returns (d: Pattern)
    requires Fit(g, memo, pb) && pb.Remembers(g)
    modifies memo`close, memo`attrFree, memo`resolved, pb`intern, pb`closeM
    ensures Fit(g, memo, pb) && pb.Remembers(g)
    ensures d == CloseDeriv(g, p).0
  {
    if pb.live && p in pb.closeM {
      d := pb.closeM[p];
    } else {
      var ch;
      d, ch := TakeClose(g, memo, pb, p);
      KeepClose(g, pb, p, d);
    }
  }

  method KeepClose(g: Grammar, pb: PatBuilder, p: Pattern, d: Pattern)
    requires pb.Remembers(g) && d == CloseDeriv(g, p).0
    modifies pb`closeM
    ensures pb.Remembers(g)
  {
    if pb.live && |pb.closeM| < MAX_MEMO { pb.closeM := pb.closeM[p := d]; }
  }

  method End(g: Grammar, memo: SchemaMemo, pb: PatBuilder, p: Pattern) returns (d: Pattern)
    requires Fit(g, memo, pb) && pb.Remembers(g)
    modifies pb`intern, pb`endM
    ensures Fit(g, memo, pb) && pb.Remembers(g)
    ensures d == EndDeriv(g, p)
  {
    if pb.live && p in pb.endM {
      d := pb.endM[p];
    } else {
      d := TakeEnd(g, pb, p);
      if pb.live && |pb.endM| < MAX_MEMO { pb.endM := pb.endM[p := d]; }
    }
  }
}
