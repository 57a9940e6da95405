/** Loading a DTD: one loader charges every fetch and every substitution, of both subsets,
    to the same counters. */
module Expansion {
  import opened SectionText
  import opened ExpansionRules

  method EndOfDeclaration(s: string) returns (end: Place)
    ensures end == DeclarationEnd(s, 0, 0)
  {
    var depth, i := 0, 0;
    while i < |s|
      invariant i <= |s| && DeclarationEnd(s, 0, 0) == DeclarationEnd(s, i, depth)
    {
      if s[i] == '"' || s[i] == '\'' {
        var j := Index(s[i + 1..], [s[i]]);
        if j.Nowhere? { return Nowhere; }
        i := i + j.place + 1;
      } else if s[i] == '(' {
        depth := depth + 1;
      } else if s[i] == ')' {
        depth := depth - 1;
      } else if s[i] == '>' && depth <= 0 {
        return At(i);
      }
      i := i + 1;
    }
    end := Nowhere;
  }

  method EndOfConstruct(s: string, i: nat) returns (end: nat)
    requires i <= |s|
    ensures end == ConstructEnd(s, i)
  {
    var rest := s[i..];
    if Opens(rest) { return i; }
    if HasPrefix(rest, "<!--") {
      var close := Index(rest[4..], "-->");
      if close.Nowhere? { return |s|; }
      return i + 4 + close.place + 3;
    }
    if !HasPrefix(rest, "<!") && !HasPrefix(rest, "<?") { return i; }
    var close := EndOfDeclaration(rest);
    if close.Nowhere? { return |s|; }
    end := i + close.place + 1;
  }

  class Loader {
    const world: World
    var docs: nat
    var bytes: nat
    var expanded: nat
    var params: map<string, Param>
    var active: set<string>

    constructor (world: World)
      ensures this.world == world && Spent() == NOTHING_YET && active == {}
    {
      this.world := world;
      docs, bytes, expanded, params, active := 0, 0, 0, map[], {};
    }

    function Spent(): Account
      reads this
    {
      Account(docs, bytes, expanded, params)
    }

    method ChargeExpansion(n: nat) returns (ok: bool)
      modifies this`expanded
      ensures Spent() == Charged(world, old(Spent()), n) && ok == !Overcharged(world, Spent())
    {
      if world.maxExpand < 0 { return true; }
      expanded := expanded + n;
      ok := expanded <= world.maxExpand;
    }

    method CollectParams(subset: string, base: string)
      modifies this`params
      ensures Spent() == Collected(world, old(Spent()), subset, base)
    {
      params := world.declares(subset, base) + params;
    }

    method FetchOne(systemId: string, publicId: string, base: string) returns (got: Fetched)
      modifies this`docs, this`bytes, this`expanded
      ensures (Spent(), got) == Fetch(world, old(Spent()), systemId, publicId, base)
    {
      if world.maxDocs >= 0 && docs >= world.maxDocs { return Lost(TooManyDocuments); }
      docs := docs + 1;
      var found := world.resolve(docs, systemId, publicId, base);
      if found.Unresolved? { return Lost(NotFound); }
      if Bounded(world) && |found.data| > Room(world, Spent()) { return Lost(TooLarge); }
      bytes := bytes + |found.data|;
      var ok := ChargeExpansion(|found.data|);
      if !ok { return Lost(TooLarge); }
      got := Got(StripTextDecl(found.data), if found.base == "" then systemId else found.base);
    }

    /** Substitutes references; what is being substituted is the same afterwards, however
        it ends. */
    method Expand(subset: string, depth: nat, declLevel: bool) returns (r: Result)
      modifies this
      ensures active == old(active)
      ensures (Spent(), r) == Expanded(world, old(Spent()), old(active), subset, depth, declLevel)
      decreases MAX_PARAMETER_DEPTH + 1 - depth, 2
    {
      if depth > MAX_PARAMETER_DEPTH { return Err(TooDeep); }
      if '%' !in subset { return Ok(subset); }
      var sb := "";
      var i := 0;
      ghost var before, running := Spent(), active;
      NothingInFront(ExpandedFrom(world, before, running, subset, 0, depth, declLevel));
      while i < |subset|
        invariant i <= |subset| && active == running
        invariant Joins(ExpandedFrom(world, before, running, subset, 0, depth, declLevel), sb,
                        ExpandedFrom(world, Spent(), running, subset, i, depth, declLevel))
        decreases |subset| - i
      {
        ghost var now := Spent();
        var t := NextToken(subset, i, declLevel);
        var piece := ExpandToken(t, depth, declLevel);
        OneMore(world, before, running, subset, i, depth, declLevel, sb, now);
        if piece.Err? { return piece; }
        sb := sb + piece.text;
        i := t.end;
      }
      r := Ok(sb);
      assert sb + "" == sb;
    }

    method NextToken(s: string, i: nat, declLevel: bool) returns (t: Token)
      requires i < |s|
      ensures t == TokenAt(params, s, i, declLevel)
    {
      var end := EndOfConstruct(s, i);
      if end > i {
        var construct := s[i..end];
        if declLevel && HasPrefix(construct, "<!") && !HasPrefix(construct, "<!--") && '%' in construct[2..] {
          return Within(construct[2..|construct| - 1], end);
        }
        return Copied(construct, end);
      }
      if s[i] != '%' { return Copied([s[i]], i + 1); }
      var j := Index(s[i..], ";");
      if j.Nowhere? { return Copied([s[i]], i + 1); }
      var name := s[i + 1..i + j.place];
      if name !in params || !IsEntityName(name) { return Copied(s[i..i + j.place + 1], i + j.place + 1); }
      t := Reference(name, i + j.place + 1);
    }

    method ExpandToken(t: Token, depth: nat, declLevel: bool) returns (piece: Result)
      requires (t.Reference? ==> t.name in params) && depth <= MAX_PARAMETER_DEPTH
      modifies this
      ensures active == old(active)
      ensures (Spent(), piece) == Piece(world, old(Spent()), old(active), t, depth, declLevel)
      decreases MAX_PARAMETER_DEPTH + 1 - depth, 1
    {
      match t {
        case Copied(text, _) =>
          piece := Ok(text);
        case Within(inner, _) =>
          piece := Expand(inner, depth + 1, declLevel);
          if piece.Ok? { piece := Ok("<!" + piece.text + ">"); }
        case Reference(name, _) =>
          piece := ExpandEntity(name, depth, declLevel);
      }
    }

    method ExpandEntity(name: string, depth: nat, declLevel: bool) returns (r: Result)
      requires name in params && depth <= MAX_PARAMETER_DEPTH
      modifies this
      ensures active == old(active)
      ensures (Spent(), r) == Substituted(world, old(Spent()), old(active), name, depth, declLevel)
      decreases MAX_PARAMETER_DEPTH + 1 - depth, 0
    {
      var p := params[name];
      if name in active { return Err(Recursive(name)); }
      var text := "";
      if p.External? {
        var got := FetchOne(p.systemId, p.publicId, p.base);
        if got.Lost? { return Err(got.fault); }
        text := got.text;
        CollectParams(text, got.base);
      } else {
        text := p.text;
      }
      ghost var running := active;
      active := active + {name};
      r := Expand(text, depth + 1, declLevel);
      active := active - {name};
      assert active == running;
      if r.Err? { return; }
      var ok := ChargeExpansion(|r.text|);
      if !ok { r := Err(TooLarge); }
    }

    method ExpandSubset(subset: string, base: string, declLevel: bool) returns (r: Result)
      requires active == {}
      modifies this
      ensures active == {}
      ensures (Spent(), r) == ExpandedSubset(world, old(Spent()), subset, base, declLevel)
    {
      CollectParams(subset, base);
      r := Expand(subset, 0, declLevel);
      if r.Err? || !declLevel { return; }
      r := Conditionals(r.text, 0);
    }
  }

  /** A run is what it was before, with `sb` in front of what is left. */
  predicate Joins(whole: (Account, Result), sb: string, left: (Account, Result)) {
    whole == (left.0, Before(sb, left.1))
  }

  lemma NothingInFront(x: (Account, Result))
    ensures Joins(x, "", x)
  {
    if x.1.Ok? {
      assert "" + x.1.text == x.1.text;
    }
  }

  lemma OneMore(w: World, before: Account, active: set<string>, s: string, i: nat, depth: nat, declLevel: bool,
                sb: string, now: Account)
    requires i < |s| && depth <= MAX_PARAMETER_DEPTH
    requires Joins(ExpandedFrom(w, before, active, s, 0, depth, declLevel), sb,
                   ExpandedFrom(w, now, active, s, i, depth, declLevel))
    ensures var t := TokenAt(now.params, s, i, declLevel);
            var whole := ExpandedFrom(w, before, active, s, 0, depth, declLevel);
            var (a, piece) := Piece(w, now, active, t, depth, declLevel);
            if piece.Err? then whole == (a, piece)
            else Joins(whole, sb + piece.text, ExpandedFrom(w, a, active, s, t.end, depth, declLevel))
  {
    var t := TokenAt(now.params, s, i, declLevel);
    var (a, piece) := Piece(w, now, active, t, depth, declLevel);
    if piece.Ok? {
      BothTwice(sb, piece, ExpandedFrom(w, a, active, s, t.end, depth, declLevel).1);
    }
  }

  const DEFAULT_DOCUMENTS := 64
  const DEFAULT_BYTES := 0x40_0000
  const DEFAULT_ENTITY_BYTES := 0x10_0000

  /** A limit of zero is the default one. */
  function Limited(w: World): World {
    w.(maxDocs := if w.maxDocs == 0 then DEFAULT_DOCUMENTS else w.maxDocs,
       maxBytes := if w.maxBytes == 0 then DEFAULT_BYTES else w.maxBytes,
       maxExpand := if w.maxExpand == 0 then DEFAULT_ENTITY_BYTES else w.maxExpand)
  }

  /** Both subsets of a document, merged; by one loader, whose limits therefore bind their
      sum. */
  method Load(w: World, subset: string, systemId: string, publicId: string, base: string) returns (r: Result)
    ensures r == Loaded(Limited(w), subset, systemId, publicId, base).1
    ensures w.maxExpand >= 0 && r.Ok? ==> |r.text| <= |subset| + Limited(w).maxExpand + 1
  {
    var l := new Loader(Limited(w));
    LoadBounded(Limited(w), subset, systemId, publicId, base);
    var inner := l.ExpandSubset(subset, base, false);
    if inner.Err? { return inner; }
    var got := l.FetchOne(systemId, publicId, base);
    if got.Lost? { return Err(got.fault); }
    var outer := l.ExpandSubset(got.text, got.base, true);
    if outer.Err? { return outer; }
    r := Ok(inner.text + "\n" + outer.text);
  }
}
