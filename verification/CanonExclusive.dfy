/** What exclusive canonicalization outputs, said of the declarations that stand in source
    and output alone, and what makes a canonicalization be refused. */
module CanonExclusive {
  import opened Basics
  import opened CanonSyntax
  import opened CanonLaws

  /** What the last declaration of `p` says. */
  function LastUri(bs: seq<Binding>, p: string): string
    requires p in Prefixes(bs)
    decreases |bs|
  {
    var last := bs[|bs| - 1];
    if last.prefix == p then last.uri else DeclaredBefore(bs, p); LastUri(bs[..|bs| - 1], p)
  }

  lemma DeclaredBefore(bs: seq<Binding>, p: string)
    requires p in Prefixes(bs) && bs[|bs| - 1].prefix != p
    ensures p in Prefixes(bs[..|bs| - 1])
  {
    var i :| 0 <= i < |bs| && bs[i].prefix == p;
    assert bs[..|bs| - 1][i] == bs[i];
  }

  /** What the declarations of a chain of elements, outermost first, say of `p`: what the
      nearest that declares it says, and nothing if none does. */
  function Said(chain: seq<seq<Binding>>, p: string): string
    decreases |chain|
  {
    if chain == [] then ""
    else
      var nearest := chain[|chain| - 1];
      if p in Prefixes(nearest) then LastUri(nearest, p) else Said(chain[..|chain| - 1], p)
  }

  /** The element, an attribute of it in the set, or the list utilises `p`. */
  predicate Uses(listed: seq<string>, e: Elem, p: string) {
    p == e.prefix || (p != "" && p in e.attrs) || p in listed
  }

  /** A declaration of `p` stands on the tag of `e`: it is utilised, in scope or the default,
      and the output elements around do not say the same.  `xml` is never declared. */
  predicate Stands(listed: seq<string>, e: Elem, source: seq<seq<Binding>>, output: seq<seq<Binding>>, p: string) {
    p != "xml" && Uses(listed, e, p) && (p == "" || Said(source, p) != "") && Said(output, p) != Said(source, p)
  }

  /** The declarations on the tag of `e`, in order of prefix. */
  ghost predicate Declares(listed: seq<string>, e: Elem, source: seq<seq<Binding>>, output: seq<seq<Binding>>,
                           bs: seq<Binding>) {
    && Ascending(bs)
    && (forall p :: p in Prefixes(bs) <==> Stands(listed, e, source, output, p))
    && forall b | b in bs :: b.uri == Said(source, b.prefix)
  }

  /** The chosen elements in document order, each under its nearest chosen ancestor.
      `source` is the declarations of the elements around `e`, `output` those on the tags
      around. */
  ghost predicate IsForest(listed: seq<string>, e: Elem, source: seq<seq<Binding>>, output: seq<seq<Binding>>,
                           ts: seq<Tag>)
    decreases e, 1
  {
    if e.chosen then
      && |ts| == 1 && ts[0].prefix == e.prefix && ts[0].attrs == e.attrs
      && Declares(listed, e, source + [e.decls], output, ts[0].decls)
      && AreForest(listed, e.kids, source + [e.decls], output + [ts[0].decls], ts[0].kids)
    else AreForest(listed, e.kids, source + [e.decls], output, ts)
  }

  ghost predicate AreForest(listed: seq<string>, kids: seq<Elem>, source: seq<seq<Binding>>,
                            output: seq<seq<Binding>>, ts: seq<Tag>)
    decreases kids, 0
  {
    if kids == [] then ts == []
    else
      exists i | 0 <= i <= |ts| ::
        && AreForest(listed, kids[..|kids| - 1], source, output, ts[..i])
        && IsForest(listed, kids[|kids| - 1], source, output, ts[i..])
  }

  // ---- scopes and chains -------------------------------------------------

  /** A scope says what a chain says. */
  ghost predicate SameSaid(m: Scope, chain: seq<seq<Binding>>) { forall p :: Lookup(m, p) == Said(chain, p) }

  lemma {:induction false} DeclareLast(m: Scope, bs: seq<Binding>, b: Binding)
    ensures Declare(m, bs + [b]) == Declare(m, bs)[b.prefix := b.uri]
    decreases |bs|
  {
    if bs == [] {
      assert bs + [b] == [b];
    } else {
      assert (bs + [b])[0] == bs[0] && (bs + [b])[1..] == bs[1..] + [b];
      DeclareLast(m[bs[0].prefix := bs[0].uri], bs[1..], b);
    }
  }

  lemma {:induction false} DeclareSays(m: Scope, bs: seq<Binding>, p: string)
    ensures Lookup(Declare(m, bs), p) == if p in Prefixes(bs) then LastUri(bs, p) else Lookup(m, p)
    decreases |bs|
  {
    if bs != [] {
      var (init, last) := (bs[..|bs| - 1], bs[|bs| - 1]);
      assert bs == init + [last];
      DeclareLast(m, init, last);
      DeclareSays(m, init, p);
      if last.prefix != p {
        if p in Prefixes(bs) { DeclaredBefore(bs, p); }
        if p in Prefixes(init) {
          var i :| 0 <= i < |init| && init[i].prefix == p;
          assert bs[i] == init[i] && bs[i] in bs;
        }
      } else {
        assert last in bs;
      }
    }
  }

  lemma SaidMore(m: Scope, chain: seq<seq<Binding>>, bs: seq<Binding>)
    requires SameSaid(m, chain)
    ensures SameSaid(Declare(m, bs), chain + [bs])
  {
    assert (chain + [bs])[..|chain|] == chain;
    forall p ensures Lookup(Declare(m, bs), p) == Said(chain + [bs], p) { DeclareSays(m, bs, p); }
  }

  // ---- what is output ----------------------------------------------------

  lemma ShownStands(listed: seq<string>, e: Elem, parentIn: bool, inner: Scope, rendered: Scope,
                    source: seq<seq<Binding>>, output: seq<seq<Binding>>, p: string)
    requires Lookup(inner, p) == Said(source, p) && Lookup(rendered, p) == Said(output, p)
    ensures p in ShownSet(Exclusive(listed), e, parentIn, inner, rendered) <==> Stands(listed, e, source, output, p)
  {
  }

  /** What the listing of the set of shown prefixes says is what the source says. */
  lemma ListedDeclares(listed: seq<string>, e: Elem, inner: Scope, ps: set<string>, bs: seq<Binding>,
                       source: seq<seq<Binding>>, output: seq<seq<Binding>>)
    requires SameSaid(inner, source) && Ascending(bs) && Prefixes(bs) == ps
    requires forall b | b in bs :: b.uri == Lookup(inner, b.prefix)
    requires forall p :: p in ps <==> Stands(listed, e, source, output, p)
    ensures Declares(listed, e, source, output, bs)
  {
    forall b | b in bs ensures b.uri == Said(source, b.prefix) { assert b.uri == Lookup(inner, b.prefix); }
  }

  lemma ShownDeclares(listed: seq<string>, e: Elem, parentIn: bool, inner: Scope, rendered: Scope,
                      source: seq<seq<Binding>>, output: seq<seq<Binding>>)
    requires SameSaid(inner, source) && SameSaid(rendered, output)
    ensures Declares(listed, e, source, output, Shown(Exclusive(listed), e, parentIn, inner, rendered))
  {
    var ps := ShownSet(Exclusive(listed), e, parentIn, inner, rendered);
    forall p ensures p in ps <==> Stands(listed, e, source, output, p) {
      ShownStands(listed, e, parentIn, inner, rendered, source, output, p);
    }
    ListingIs(ps, inner);
    ListedDeclares(listed, e, inner, ps, Listing(ps, inner), source, output);
  }

  /** Exclusive canonicalization outputs, for every choice of elements, exactly that. */
  lemma {:induction false} ExclusiveExact(listed: seq<string>, e: Elem, parentIn: bool, scope: Scope, rendered: Scope,
                                          source: seq<seq<Binding>>, output: seq<seq<Binding>>)
    requires SameSaid(scope, source) && SameSaid(rendered, output)
    ensures IsForest(listed, e, source, output, Render(Exclusive(listed), e, parentIn, scope, rendered))
    decreases e, 1
  {
    var inner := Declare(scope, e.decls);
    SaidMore(scope, source, e.decls);
    if e.chosen {
      var bs := Shown(Exclusive(listed), e, parentIn, inner, rendered);
      ShownDeclares(listed, e, parentIn, inner, rendered, source + [e.decls], output);
      SaidMore(rendered, output, bs);
      KidsExact(listed, e, e.kids, true, inner, Declare(rendered, bs), source + [e.decls], output + [bs]);
    } else {
      KidsExact(listed, e, e.kids, false, inner, rendered, source + [e.decls], output);
    }
  }

  lemma {:induction false} KidsExact(listed: seq<string>, e: Elem, kids: seq<Elem>, parentIn: bool, scope: Scope,
                                     rendered: Scope, source: seq<seq<Binding>>, output: seq<seq<Binding>>)
    requires SameSaid(scope, source) && SameSaid(rendered, output) && forall k | k in kids :: k < e
    ensures AreForest(listed, kids, source, output, RenderKids(Exclusive(listed), kids, parentIn, scope, rendered))
    decreases e, 0, |kids|
  {
    if kids != [] {
      var n := |kids| - 1;
      var x := RenderKids(Exclusive(listed), kids[..n], parentIn, scope, rendered);
      var y := Render(Exclusive(listed), kids[n], parentIn, scope, rendered);
      forall k | k in kids[..n] ensures k < e { assert k in kids; }
      assert kids[n] in kids;
      KidsExact(listed, e, kids[..n], parentIn, scope, rendered, source, output);
      ExclusiveExact(listed, kids[n], parentIn, scope, rendered, source, output);
      assert (x + y)[..|x|] == x && (x + y)[|x|..] == y;
    }
  }

  /** A whole document, from its document element. */
  lemma ExclusiveDocument(listed: seq<string>, e: Elem)
    ensures IsForest(listed, e, [], [], Render(Exclusive(listed), e, false, map[], map[]))
  {
    ExclusiveExact(listed, e, false, map[], map[], [], []);
  }

  // ---- the order of prefixes ---------------------------------------------

  /** Prefixes are in order of their first character that differs, a shorter one first. */
  lemma {:induction false} BeforeIs(a: string, b: string)
    ensures Before(a, b) <==>
      exists i | 0 <= i <= |a| && i < |b| :: a[..i] == b[..i] && (i == |a| || a[i] < b[i])
    decreases |a|
  {
    if a == "" || b == "" {
      assert b != "" ==> a[..0] == b[..0];
    } else {
      BeforeIs(a[1..], b[1..]);
      assert a[..0] == b[..0];
      if a[0] == b[0] {
        if i: int :| 0 <= i <= |a[1..]| && i < |b[1..]| && a[1..][..i] == b[1..][..i]
                     && (i == |a[1..]| || a[1..][i] < b[1..][i]) {
          assert a[..i + 1] == [a[0]] + a[1..][..i] && b[..i + 1] == [b[0]] + b[1..][..i];
        }
        if i: int :| 0 <= i <= |a| && i < |b| && a[..i] == b[..i] && (i == |a| || a[i] < b[i]) {
          assert i > 0 && a[1..][..i - 1] == a[..i][1..] && b[1..][..i - 1] == b[..i][1..];
        }
      } else {
        forall i | 0 < i <= |a| && i < |b| ensures a[..i] != b[..i] { assert a[..i][0] == a[0] && b[..i][0] == b[0]; }
      }
    }
  }

  // ---- refusals ----------------------------------------------------------

  /** The element reached by going down by these places. */
  function At(e: Elem, path: seq<nat>): Option<Elem>
    decreases |path|
  {
    if path == [] then Some(e) else if path[0] < |e.kids| then At(e.kids[path[0]], path[1..]) else None
  }

  ghost predicate Fine(e: Elem, depth: nat, limit: nat, accepts: Binding -> bool) {
    forall path: seq<nat> | At(e, path).Some? ::
      depth + |path| <= limit && forall b | b in At(e, path).value.decls :: accepts(b)
  }

  /** A document is refused exactly for an element too deep or a declaration not accepted. */
  lemma {:induction false} AllowedIs(e: Elem, depth: nat, limit: nat, accepts: Binding -> bool)
    ensures Allowed(e, depth, limit, accepts) <==> Fine(e, depth, limit, accepts)
    decreases e
  {
    forall k | k in e.kids
      ensures Allowed(k, depth + 1, limit, accepts) <==> Fine(k, depth + 1, limit, accepts)
    {
      AllowedIs(k, depth + 1, limit, accepts);
    }
    if Allowed(e, depth, limit, accepts) {
      forall path: seq<nat> | At(e, path).Some?
        ensures depth + |path| <= limit && forall b | b in At(e, path).value.decls :: accepts(b)
      {
        if path != [] {
          assert e.kids[path[0]] in e.kids && At(e.kids[path[0]], path[1..]).Some?;
        }
      }
    }
    if Fine(e, depth, limit, accepts) {
      assert At(e, []).Some?;
      forall k | k in e.kids ensures Fine(k, depth + 1, limit, accepts) {
        var i :| 0 <= i < |e.kids| && e.kids[i] == k;
        forall path: seq<nat> | At(k, path).Some?
          ensures depth + 1 + |path| <= limit && forall b | b in At(k, path).value.decls :: accepts(b)
        {
          var longer: seq<nat> := [i] + path;
          assert longer[1..] == path && At(e, longer) == At(k, path);
        }
      }
    }
  }
}
