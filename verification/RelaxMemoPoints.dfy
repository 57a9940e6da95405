/** Static memo points: compiled subtrees put behind wrappers that report what is
    known of them, without changing what the schema means. */
module RelaxMemoPoints {
  import opened Basics
  import opened RelaxSyntax
  import opened RelaxLanguage
  import opened RelaxSchema
  import opened RelaxLaws
  import opened RelaxAttribute

  const MIN_WRAP: nat := 4

  datatype Holds = Attributes | Strings

  /** Whether `p` is seen to hold none of the kind before an element.  `done`
      are the references resolved, `free` the wrappers known attribute-free. */
  predicate StaticFree(g: Grammar, p: Pattern, k: Holds, done: set<nat>, free: set<Pattern>, visiting: set<nat>)
    decreases Level(g.rank, p), p
  {
    match p
    case Attribute(_, _) => k != Attributes
    case Value(_, _, _) => k != Strings
    case Data(_, _, _) => k != Strings
    case List(_) => k != Strings
    case Choice(l, r) => StaticFree(g, l, k, done, free, visiting) && StaticFree(g, r, k, done, free, visiting)
    case Group(l, r) => StaticFree(g, l, k, done, free, visiting) && StaticFree(g, r, k, done, free, visiting)
    case Interleave(l, r) => StaticFree(g, l, k, done, free, visiting) && StaticFree(g, r, k, done, free, visiting)
    case OneOrMore(q) => StaticFree(g, q, k, done, free, visiting)
    case After(_, _) => false
    case Ref(id) =>
      id in done && id !in visiting && StaticFree(g, Expand(g, id), k, done, free, visiting + {id})
    case Static(_, _, _, dataFree, _) => if k == Attributes then p in free else dataFree
    case _ => true
  }

  /** Nullability worked out afresh, trusting no wrapper. */
  predicate Null(g: Grammar, p: Pattern)
    decreases Level(g.rank, p), p
  {
    match p
    case Empty => true
    case Text => true
    case Choice(l, r) => Null(g, l) || Null(g, r)
    case Interleave(l, r) => Null(g, l) && Null(g, r)
    case Group(l, r) => Null(g, l) && Null(g, r)
    case OneOrMore(q) => Null(g, q)
    case Ref(id) => Null(g, Expand(g, id))
    case Static(q, _, _, _, _) => Null(g, q)
    case _ => false
  }

  /** Every wrapper in `p` reports truly, element contents included. */
  predicate FlagsTrue(g: Grammar, p: Pattern) {
    match p
    case Choice(l, r) => FlagsTrue(g, l) && FlagsTrue(g, r)
    case Group(l, r) => FlagsTrue(g, l) && FlagsTrue(g, r)
    case Interleave(l, r) => FlagsTrue(g, l) && FlagsTrue(g, r)
    case After(l, r) => FlagsTrue(g, l) && FlagsTrue(g, r)
    case OneOrMore(q) => FlagsTrue(g, q)
    case List(q) => FlagsTrue(g, q)
    case Element(_, q) => FlagsTrue(g, q)
    case Attribute(_, q) => FlagsTrue(g, q)
    case Data(_, _, x) => x.Some? ==> FlagsTrue(g, x.value)
    case Static(q, size, nullable, dataFree, selfEq) =>
      && FlagsTrue(g, q) && size == Size(q) && nullable == Null(g, q)
      && (dataFree ==> DataFree(g, q)) && selfEq == PatEq(q, q)
    case _ => true
  }

  /** No After, and excepts as section 7.1.4 wants them. */
  predicate Plain(g: Grammar, p: Pattern) {
    match p
    case Choice(l, r) => Plain(g, l) && Plain(g, r)
    case Group(l, r) => Plain(g, l) && Plain(g, r)
    case Interleave(l, r) => Plain(g, l) && Plain(g, r)
    case After(l, r) => false
    case OneOrMore(q) => Plain(g, q)
    case List(q) => Plain(g, q)
    case Element(_, q) => Plain(g, q)
    case Attribute(_, q) => Plain(g, q)
    case Data(_, _, x) => x.Some? ==> ExceptLike(g, x.value) && Plain(g, x.value)
    case Static(q, _, _, _, _) => Plain(g, q)
    case _ => true
  }

  /** `g'` is `g` with some wrappers added. */
  ghost predicate Wrapped(g: Grammar, g': Grammar) {
    && g.rank == g'.rank && g.lib == g'.lib
    && forall id :: Unwrap(Expand(g, id)) == Unwrap(Expand(g', id))
  }

  // ---- what does not see wrappers ----------------------------------------

  lemma {:induction false} LevelUnwrap(rank: map<nat, nat>, p: Pattern)
    ensures Level(rank, Unwrap(p)) == Level(rank, p)
  {
    match p
    case Choice(l, r) => LevelUnwrap(rank, l); LevelUnwrap(rank, r);
    case Group(l, r) => LevelUnwrap(rank, l); LevelUnwrap(rank, r);
    case Interleave(l, r) => LevelUnwrap(rank, l); LevelUnwrap(rank, r);
    case After(l, r) => LevelUnwrap(rank, l); LevelUnwrap(rank, r);
    case OneOrMore(q) => LevelUnwrap(rank, q);
    case List(q) => LevelUnwrap(rank, q);
    case Attribute(_, q) => LevelUnwrap(rank, q);
    case Data(_, _, x) => if x.Some? { LevelUnwrap(rank, x.value); }
    case Static(q, _, _, _, _) => LevelUnwrap(rank, q);
    case _ =>
  }

  lemma {:induction false} NullBlind(g: Grammar, g': Grammar, p: Pattern, p': Pattern)
    requires Wrapped(g, g') && Unwrap(p) == Unwrap(p')
    ensures Null(g, p) == Null(g', p')
    decreases Level(g.rank, p), p, p'
  {
    if p.Static? {
      NullBlind(g, g', p.inner, p');
    } else if p'.Static? {
      NullBlind(g, g', p, p'.inner);
    } else {
      match p
      case Choice(l, r) => NullBlind(g, g', l, p'.left); NullBlind(g, g', r, p'.right);
      case Group(l, r) => NullBlind(g, g', l, p'.left); NullBlind(g, g', r, p'.right);
      case Interleave(l, r) => NullBlind(g, g', l, p'.left); NullBlind(g, g', r, p'.right);
      case OneOrMore(q) => NullBlind(g, g', q, p'.body);
      case Ref(id) => NullBlind(g, g', Expand(g, id), Expand(g', id));
      case _ =>
    }
  }

  lemma {:induction false} DataBlind(g: Grammar, g': Grammar, p: Pattern, p': Pattern)
    requires Wrapped(g, g') && Unwrap(p) == Unwrap(p')
    ensures DataFree(g, p) == DataFree(g', p')
    decreases Level(g.rank, p), p, p'
  {
    if p.Static? {
      DataBlind(g, g', p.inner, p');
    } else if p'.Static? {
      DataBlind(g, g', p, p'.inner);
    } else {
      match p
      case Choice(l, r) => DataBlind(g, g', l, p'.left); DataBlind(g, g', r, p'.right);
      case Group(l, r) => DataBlind(g, g', l, p'.left); DataBlind(g, g', r, p'.right);
      case Interleave(l, r) => DataBlind(g, g', l, p'.left); DataBlind(g, g', r, p'.right);
      case OneOrMore(q) => DataBlind(g, g', q, p'.body);
      case Ref(id) => DataBlind(g, g', Expand(g, id), Expand(g', id));
      case _ =>
    }
  }

  lemma {:induction false} AttrBlind(g: Grammar, g': Grammar, p: Pattern, p': Pattern)
    requires Wrapped(g, g') && Unwrap(p) == Unwrap(p')
    ensures AttrFree(g, p) == AttrFree(g', p')
    decreases Level(g.rank, p), p, p'
  {
    if p.Static? {
      AttrBlind(g, g', p.inner, p');
    } else if p'.Static? {
      AttrBlind(g, g', p, p'.inner);
    } else {
      match p
      case Choice(l, r) => AttrBlind(g, g', l, p'.left); AttrBlind(g, g', r, p'.right);
      case Group(l, r) => AttrBlind(g, g', l, p'.left); AttrBlind(g, g', r, p'.right);
      case Interleave(l, r) => AttrBlind(g, g', l, p'.left); AttrBlind(g, g', r, p'.right);
      case After(l, r) => AttrBlind(g, g', l, p'.left);
      case OneOrMore(q) => AttrBlind(g, g', q, p'.body);
      case Ref(id) => AttrBlind(g, g', Expand(g, id), Expand(g', id));
      case _ =>
    }
  }

  lemma {:induction false} ExceptBlind(g: Grammar, g': Grammar, p: Pattern, p': Pattern)
    requires Wrapped(g, g') && Unwrap(p) == Unwrap(p')
    ensures ExceptLike(g, p) == ExceptLike(g', p')
    decreases Level(g.rank, p), p, p'
  {
    if p.Static? {
      ExceptBlind(g, g', p.inner, p');
    } else if p'.Static? {
      ExceptBlind(g, g', p, p'.inner);
    } else {
      match p
      case Choice(l, r) => ExceptBlind(g, g', l, p'.left); ExceptBlind(g, g', r, p'.right);
      case Ref(id) => ExceptBlind(g, g', Expand(g, id), Expand(g', id));
      case _ =>
    }
  }

  lemma {:induction false} PlainUnwrap(g: Grammar, g': Grammar, p: Pattern, p': Pattern)
    requires Wrapped(g, g') && Unwrap(p) == Unwrap(p')
    ensures Plain(g, p) == Plain(g', p')
    decreases p, p'
  {
    if p.Static? {
      PlainUnwrap(g, g', p.inner, p');
    } else if p'.Static? {
      PlainUnwrap(g, g', p, p'.inner);
    } else {
      match p
      case Choice(l, r) => PlainUnwrap(g, g', l, p'.left); PlainUnwrap(g, g', r, p'.right);
      case Group(l, r) => PlainUnwrap(g, g', l, p'.left); PlainUnwrap(g, g', r, p'.right);
      case Interleave(l, r) => PlainUnwrap(g, g', l, p'.left); PlainUnwrap(g, g', r, p'.right);
      case OneOrMore(q) => PlainUnwrap(g, g', q, p'.body);
      case List(q) => PlainUnwrap(g, g', q, p'.body);
      case Element(_, q) => PlainUnwrap(g, g', q, p'.content);
      case Attribute(_, q) => PlainUnwrap(g, g', q, p'.content);
      case Data(_, _, x) =>
        if x.Some? {
          ExceptBlind(g, g', x.value, p'.except.value);
          PlainUnwrap(g, g', x.value, p'.except.value);
        }
      case _ =>
    }
  }

  lemma {:induction false} FlagsStay(g: Grammar, g': Grammar, p: Pattern)
    requires Wrapped(g, g') && FlagsTrue(g, p)
    ensures FlagsTrue(g', p)
  {
    match p
    case Choice(l, r) => FlagsStay(g, g', l); FlagsStay(g, g', r);
    case Group(l, r) => FlagsStay(g, g', l); FlagsStay(g, g', r);
    case Interleave(l, r) => FlagsStay(g, g', l); FlagsStay(g, g', r);
    case After(l, r) => FlagsStay(g, g', l); FlagsStay(g, g', r);
    case OneOrMore(q) => FlagsStay(g, g', q);
    case List(q) => FlagsStay(g, g', q);
    case Element(_, q) => FlagsStay(g, g', q);
    case Attribute(_, q) => FlagsStay(g, g', q);
    case Data(_, _, x) => if x.Some? { FlagsStay(g, g', x.value); }
    case Static(q, _, _, _, _) => FlagsStay(g, g', q); NullBlind(g, g', q, q); DataBlind(g, g', q, q);
    case _ =>
  }

  ghost predicate AllTrue(g: Grammar) { forall id :: FlagsTrue(g, Expand(g, id)) }

  /** With true flags the quick answer is the full one. */
  lemma {:induction false} NullableIsNull(g: Grammar, p: Pattern)
    requires AllTrue(g) && FlagsTrue(g, p)
    ensures Nullable(g, p) == Null(g, p)
    decreases Level(g.rank, p), p
  {
    match p
    case Choice(l, r) => NullableIsNull(g, l); NullableIsNull(g, r);
    case Group(l, r) => NullableIsNull(g, l); NullableIsNull(g, r);
    case Interleave(l, r) => NullableIsNull(g, l); NullableIsNull(g, r);
    case OneOrMore(q) => NullableIsNull(g, q);
    case Ref(id) => NullableIsNull(g, Expand(g, id));
    case _ =>
  }

  lemma {:induction false} PlainIsSchema(g: Grammar, p: Pattern)
    requires AllTrue(g) && FlagsTrue(g, p) && Plain(g, p)
    ensures Schema(g, p)
  {
    match p
    case Choice(l, r) => PlainIsSchema(g, l); PlainIsSchema(g, r);
    case Group(l, r) => PlainIsSchema(g, l); PlainIsSchema(g, r);
    case Interleave(l, r) => PlainIsSchema(g, l); PlainIsSchema(g, r);
    case OneOrMore(q) => PlainIsSchema(g, q);
    case List(q) => PlainIsSchema(g, q);
    case Element(_, q) => PlainIsSchema(g, q);
    case Attribute(_, q) => PlainIsSchema(g, q);
    case Data(_, _, x) => if x.Some? { PlainIsSchema(g, x.value); }
    case Static(q, _, _, _, _) => PlainIsSchema(g, q); NullableIsNull(g, q);
    case _ =>
  }

  /** What is seen to be free is free. */
  lemma {:induction false} StaticFreeSound(
      g: Grammar, p: Pattern, k: Holds, done: set<nat>, free: set<Pattern>, visiting: set<nat>)
    requires StaticFree(g, p, k, done, free, visiting) && AllTrue(g) && FlagsTrue(g, p)
    requires forall q | q in free :: AttrFree(g, q)
    ensures k == Attributes ==> AttrFree(g, p)
    ensures k == Strings ==> DataFree(g, p)
    decreases Level(g.rank, p), p
  {
    match p
    case Choice(l, r) =>
      StaticFreeSound(g, l, k, done, free, visiting); StaticFreeSound(g, r, k, done, free, visiting);
    case Group(l, r) =>
      StaticFreeSound(g, l, k, done, free, visiting); StaticFreeSound(g, r, k, done, free, visiting);
    case Interleave(l, r) =>
      StaticFreeSound(g, l, k, done, free, visiting); StaticFreeSound(g, r, k, done, free, visiting);
    case OneOrMore(q) => StaticFreeSound(g, q, k, done, free, visiting);
    case Ref(id) => StaticFreeSound(g, Expand(g, id), k, done, free, visiting + {id});
    case _ =>
  }

  // ---- the walk ----------------------------------------------------------

  /** The compiled definitions while wrappers are being added. */
  class Walk {
    const g: Grammar
    const done: set<nat>
    var defs: map<nat, Pattern>
    var refs: set<nat>
    var free: set<Pattern>

    constructor (g: Grammar, done: set<nat>)
      requires AllTrue(g)
      ensures this.g == g && this.done == done && Valid() && refs == {}
    {
      this.g, this.done, defs, refs, free := g, done, g.defs, {}, {};
      new;
      assert forall id | id in g.defs :: Expand(g, id) == g.defs[id];
    }

    ghost predicate Valid()
      reads this
    {
      && defs.Keys == g.defs.Keys && AllTrue(g)
      && (forall id | id in defs ::
            Unwrap(defs[id]) == Unwrap(g.defs[id]) && Size(defs[id]) == Size(g.defs[id]) && FlagsTrue(g, defs[id]))
      && (forall q | q in free :: AttrFree(g, q))
    }

    function Now(): (g': Grammar)
      requires Valid()
      reads this
      ensures Wrapped(g, g') && AllTrue(g')
      ensures forall q | q in free :: AttrFree(g', q)
    {
      var r := RawGrammar(defs, g.rank, g.lib);
      assert Ranked(r) by {
        forall id | id in defs ensures Level(g.rank, defs[id]) < RankOf(g.rank, id) {
          LevelUnwrap(g.rank, defs[id]);
          LevelUnwrap(g.rank, g.defs[id]);
        }
      }
      var g': Grammar := r;
      assert Wrapped(g, g') && AllTrue(g') && forall q | q in free :: AttrFree(g', q) by {
        forall id ensures FlagsTrue(g', Expand(g', id)) { FlagsStay(g, g', Expand(g', id)); }
        forall q | q in free ensures AttrFree(g', q) { AttrBlind(g, g', q, q); }
      }
      g'
    }

    /** Rebuilds `p` with its larger subtrees behind wrappers. */
    method Transform(p: Pattern) returns (q: Pattern)
      requires Valid() && FlagsTrue(g, p)
      modifies this`defs, this`refs, this`free
      ensures Valid() && old(refs) <= refs
      ensures Unwrap(q) == Unwrap(p) && Size(q) == Size(p) && FlagsTrue(g, q)
      decreases g.defs.Keys - refs, p, 1
    {
      match p
      case Ref(id) =>
        q := p;
        if id !in refs && id in defs { Visit(id); }
      case Element(n, c) =>
        var d := Transform(c);
        q := Element(n, d);
      case Choice(l, r) =>
        var x, y := TransformPair(p, l, r);
        q := Enclose(Choice(x, y));
      case Group(l, r) =>
        var x, y := TransformPair(p, l, r);
        q := Enclose(Group(x, y));
      case Interleave(l, r) =>
        var x, y := TransformPair(p, l, r);
        q := Enclose(Interleave(x, y));
      case OneOrMore(c) =>
        var x := Transform(c);
        q := Enclose(OneOrMore(x));
      case _ => q := p;
    }

    /** Meets a definition for the first time, and rebuilds it if it is resolved. */
    method Visit(id: nat)
      requires Valid() && id in defs && id !in refs
      modifies this`defs, this`refs, this`free
      ensures Valid() && old(refs) <= refs
      decreases g.defs.Keys - refs, Ref(id), 0
    {
      refs := refs + {id};
      if id in done {
        var d := Transform(defs[id]);
        defs := defs[id := d];
      }
    }

    method TransformPair(ghost p: Pattern, l: Pattern, r: Pattern) returns (x: Pattern, y: Pattern)
      requires Valid() && FlagsTrue(g, l) && FlagsTrue(g, r) && l < p && r < p
      modifies this`defs, this`refs, this`free
      ensures Valid() && old(refs) <= refs
      ensures Unwrap(x) == Unwrap(l) && Size(x) == Size(l) && FlagsTrue(g, x)
      ensures Unwrap(y) == Unwrap(r) && Size(y) == Size(r) && FlagsTrue(g, y)
      decreases g.defs.Keys - refs, p, 0
    {
      x := Transform(l);
      y := Transform(r);
    }

    /** Puts a subtree of four nodes or more behind a wrapper. */
    method Enclose(q: Pattern) returns (w: Pattern)
      requires Valid() && FlagsTrue(g, q)
      modifies this`free
      ensures Valid() && Unwrap(w) == Unwrap(q) && Size(w) == Size(q) && FlagsTrue(g, w)
    {
      var n := Size(q);
      if n < MIN_WRAP { return q; }
      var now := Now();
      FlagsStay(g, now, q);
      NullableIsNull(now, q);
      NullBlind(g, now, q, q);
      DataBlind(g, now, q, q);
      AttrBlind(g, now, q, q);
      var dataFree := StaticFree(now, q, Strings, done, free, {});
      var attrFree := StaticFree(now, q, Attributes, done, free, {});
      if dataFree { StaticFreeSound(now, q, Strings, done, free, {}); }
      if attrFree { StaticFreeSound(now, q, Attributes, done, free, {}); }
      w := Static(q, n, Nullable(now, q), dataFree, PatEq(q, q));
      if attrFree { free := free + {w}; }
    }
  }

  ghost predicate AllPlain(g: Grammar) { forall id :: Plain(g, Expand(g, id)) }

  ghost predicate SameLanguage(g: Grammar, p: Pattern, g': Grammar, p': Pattern) {
    forall cx, a, m :: Matches(g', cx, p', a, m) <==> Matches(g, cx, p, a, m)
  }

  lemma WrappedSame(g: Grammar, g': Grammar, p: Pattern, p': Pattern)
    requires Wrapped(g, g') && Unwrap(p) == Unwrap(p')
    requires AllTrue(g) && FlagsTrue(g, p) && AllTrue(g') && FlagsTrue(g', p')
    ensures Nullable(g', p') == Nullable(g, p)
    ensures SameLanguage(g, p, g', p')
  {
    NullableIsNull(g, p);
    NullableIsNull(g', p');
    NullBlind(g, g', p, p');
    forall cx, a, m ensures Matches(g', cx, p', a, m) <==> Matches(g, cx, p, a, m) {
      SameMeaning(g, g', cx, p, p', a, m);
    }
  }

  lemma WrappedSchema(g: Grammar, g': Grammar, p: Pattern, p': Pattern)
    requires Wrapped(g, g') && Unwrap(p) == Unwrap(p') && AllTrue(g') && FlagsTrue(g', p')
    requires AllPlain(g) && Plain(g, p)
    ensures SchemaGrammar(g') && Schema(g', p')
  {
    forall id ensures Schema(g', Expand(g', id)) {
      PlainUnwrap(g, g', Expand(g, id), Expand(g', id));
      PlainIsSchema(g', Expand(g', id));
    }
    PlainUnwrap(g, g', p, p');
    PlainIsSchema(g', p');
  }

  // ---- what validation asks of a schema is kept --------------------------

  lemma {:induction false} SchemaIsPlain(g: Grammar, p: Pattern)
    requires Schema(g, p)
    ensures Plain(g, p)
  {
    match p
    case Choice(l, r) => SchemaIsPlain(g, l); SchemaIsPlain(g, r);
    case Group(l, r) => SchemaIsPlain(g, l); SchemaIsPlain(g, r);
    case Interleave(l, r) => SchemaIsPlain(g, l); SchemaIsPlain(g, r);
    case OneOrMore(q) => SchemaIsPlain(g, q);
    case List(q) => SchemaIsPlain(g, q);
    case Element(_, q) => SchemaIsPlain(g, q);
    case Attribute(_, q) => SchemaIsPlain(g, q);
    case Data(_, _, x) => if x.Some? { SchemaIsPlain(g, x.value); }
    case Static(q, _, _, _, _) => SchemaIsPlain(g, q);
    case _ =>
  }

  /** Wrappers with true flags, in both grammars and both patterns. */
  ghost predicate BothTrue(g: Grammar, g': Grammar, p: Pattern, p': Pattern) {
    && Wrapped(g, g') && Unwrap(p) == Unwrap(p')
    && AllTrue(g) && FlagsTrue(g, p) && AllTrue(g') && FlagsTrue(g', p')
  }

  lemma NullableBlind(g: Grammar, g': Grammar, p: Pattern, p': Pattern)
    requires BothTrue(g, g', p, p')
    ensures Nullable(g, p) == Nullable(g', p')
  {
    NullableIsNull(g, p);
    NullableIsNull(g', p');
    NullBlind(g, g', p, p');
  }

  lemma PairBlind(g: Grammar, g': Grammar, p: Pattern, p': Pattern)
    requires BothTrue(g, g', p, p') && (p.Group? || p.Interleave?) && !p'.Static?
    requires OneString(g, p.left) == OneString(g', p'.left) && OneString(g, p.right) == OneString(g', p'.right)
    ensures OneString(g, p) == OneString(g', p')
  {
    NullableBlind(g, g', p.left, p'.left);
    NullableBlind(g, g', p.right, p'.right);
  }

  lemma {:induction false} OneStringBlind(g: Grammar, g': Grammar, p: Pattern, p': Pattern)
    requires BothTrue(g, g', p, p')
    ensures OneString(g, p) == OneString(g', p')
    decreases Level(g.rank, p), p, p'
  {
    if p.Static? {
      OneStringBlind(g, g', p.inner, p');
    } else if p'.Static? {
      OneStringBlind(g, g', p, p'.inner);
    } else {
      match p
      case Choice(l, r) => OneStringBlind(g, g', l, p'.left); OneStringBlind(g, g', r, p'.right);
      case Group(l, r) =>
        OneStringBlind(g, g', l, p'.left); OneStringBlind(g, g', r, p'.right);
        PairBlind(g, g', p, p');
      case Interleave(l, r) =>
        OneStringBlind(g, g', l, p'.left); OneStringBlind(g, g', r, p'.right);
        PairBlind(g, g', p, p');
      case OneOrMore(q) => OneStringBlind(g, g', q, p'.body);
      case Ref(id) => OneStringBlind(g, g', Expand(g, id), Expand(g', id));
      case _ =>
    }
  }

  lemma {:induction false} SinglesBlind(g: Grammar, g': Grammar, p: Pattern, p': Pattern)
    requires BothTrue(g, g', p, p')
    ensures SingleStrings(g, p) == SingleStrings(g', p')
    decreases p, p'
  {
    if p.Static? {
      SinglesBlind(g, g', p.inner, p');
    } else if p'.Static? {
      SinglesBlind(g, g', p, p'.inner);
    } else {
      match p
      case Choice(l, r) => SinglesBlind(g, g', l, p'.left); SinglesBlind(g, g', r, p'.right);
      case Group(l, r) => SinglesBlind(g, g', l, p'.left); SinglesBlind(g, g', r, p'.right);
      case Interleave(l, r) => SinglesBlind(g, g', l, p'.left); SinglesBlind(g, g', r, p'.right);
      case OneOrMore(q) => SinglesBlind(g, g', q, p'.body);
      case Element(_, q) => SinglesBlind(g, g', q, p'.content);
      case Attribute(_, v) => OneStringBlind(g, g', v, p'.content);
      case _ =>
    }
  }

  lemma {:induction false} FlatBlind(g: Grammar, g': Grammar, p: Pattern, p': Pattern)
    requires Wrapped(g, g') && Unwrap(p) == Unwrap(p')
    ensures AttrFlat(g, p) == AttrFlat(g', p')
    decreases Level(g.rank, p), p, p'
  {
    if p.Static? {
      FlatBlind(g, g', p.inner, p');
    } else if p'.Static? {
      FlatBlind(g, g', p, p'.inner);
    } else {
      match p
      case Choice(l, r) => FlatBlind(g, g', l, p'.left); FlatBlind(g, g', r, p'.right);
      case Group(l, r) => AttrBlind(g, g', l, p'.left); AttrBlind(g, g', r, p'.right);
      case Interleave(l, r) => AttrBlind(g, g', l, p'.left); AttrBlind(g, g', r, p'.right);
      case OneOrMore(q) => FlatBlind(g, g', q, p'.body);
      case Ref(id) => FlatBlind(g, g', Expand(g, id), Expand(g', id));
      case _ =>
    }
  }

  lemma {:induction false} RepeatsBlind(g: Grammar, g': Grammar, p: Pattern, p': Pattern)
    requires Wrapped(g, g') && Unwrap(p) == Unwrap(p')
    ensures FlatRepeats(g, p) == FlatRepeats(g', p')
    decreases p, p'
  {
    if p.Static? {
      RepeatsBlind(g, g', p.inner, p');
    } else if p'.Static? {
      RepeatsBlind(g, g', p, p'.inner);
    } else {
      match p
      case Choice(l, r) => RepeatsBlind(g, g', l, p'.left); RepeatsBlind(g, g', r, p'.right);
      case Group(l, r) => RepeatsBlind(g, g', l, p'.left); RepeatsBlind(g, g', r, p'.right);
      case Interleave(l, r) => RepeatsBlind(g, g', l, p'.left); RepeatsBlind(g, g', r, p'.right);
      case OneOrMore(q) => RepeatsBlind(g, g', q, p'.body); FlatBlind(g, g', q, p'.body);
      case Element(_, q) => RepeatsBlind(g, g', q, p'.content);
      case _ =>
    }
  }

  lemma SoundBlind(g: Grammar, g': Grammar, p: Pattern, p': Pattern)
    requires BothTrue(g, g', p, p') && Sound(g, p)
    ensures Sound(g', p')
    ensures Exact(g, p) ==> Exact(g', p')
  {
    SchemaIsPlain(g, p);
    PlainUnwrap(g, g', p, p');
    PlainIsSchema(g', p');
    SinglesBlind(g, g', p, p');
    RepeatsBlind(g, g', p, p');
  }

  /** A schema that meets what soundness and completeness ask goes on meeting it. */
  lemma WrappedSound(g: Grammar, g': Grammar, p: Pattern, p': Pattern)
    requires BothTrue(g, g', p, p') && SoundGrammar(g) && Sound(g, p)
    ensures SoundGrammar(g') && Sound(g', p')
    ensures ExactGrammar(g) && Exact(g, p) ==> ExactGrammar(g') && Exact(g', p')
  {
    SoundBlind(g, g', p, p');
    forall id ensures Sound(g', Expand(g', id)) && (Exact(g, Expand(g, id)) ==> Exact(g', Expand(g', id))) {
      SoundBlind(g, g', Expand(g, id), Expand(g', id));
    }
    if ExactGrammar(g) {
      forall id ensures Exact(g', Expand(g', id)) { assert Exact(g, Expand(g, id)); }
    }
  }

  /** Adding memo points keeps the language, nullability and size of the start
      pattern, leaves every wrapper truthful, and hands on only wrappers that
      really hold no attribute. */
  method AddMemoPoints(g: Grammar, done: set<nat>, start: Pattern)
    returns (g': Grammar, start': Pattern, free: set<Pattern>)
    requires AllTrue(g) && FlagsTrue(g, start)
    ensures Wrapped(g, g') && AllTrue(g') && FlagsTrue(g', start')
    ensures Unwrap(start') == Unwrap(start) && Size(start') == Size(start)
    ensures Nullable(g', start') == Nullable(g, start)
    ensures SameLanguage(g, start, g', start')
    ensures forall q | q in free :: AttrFree(g', q)
    ensures AllPlain(g) && Plain(g, start)
        ==> SchemaGrammar(g') && Schema(g', start')
    ensures SoundGrammar(g) && Sound(g, start) ==> SoundGrammar(g') && Sound(g', start')
    ensures ExactGrammar(g) && Exact(g, start) ==> ExactGrammar(g') && Exact(g', start')
  {
    var w := new Walk(g, done);
    start' := w.Transform(start);
    g', free := w.Now(), w.free;
    FlagsStay(g, g', start');
    WrappedSame(g, g', start, start');
    if AllPlain(g) && Plain(g, start) { WrappedSchema(g, g', start, start'); }
    if ExactGrammar(g) && Exact(g, start) { ExactHereditary(g); }
    if SoundGrammar(g) && Sound(g, start) { WrappedSound(g, g', start, start'); }
  }
}
