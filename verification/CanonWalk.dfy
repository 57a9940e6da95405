/** The canonicalizing walk: namespace state in maps that log how to undo each change,
    candidates collected, sorted and stripped of repeats. */
module CanonWalk {
  import opened Basics
  import opened CanonSyntax
  import opened CanonLaws

  datatype Saved = Saved(prefix: string, uri: string, had: bool)

  function UndoOne(m: Scope, u: Saved): Scope { if u.had then m[u.prefix := u.uri] else m - {u.prefix} }

  /** The map as it was when the log was `mark` entries long. */
  function Rewind(m: Scope, undo: seq<Saved>, mark: nat): Scope
    decreases |undo|
  {
    if |undo| <= mark then m else Rewind(UndoOne(m, undo[|undo| - 1]), undo[..|undo| - 1], mark)
  }

  /** A change just logged is undone exactly. */
  lemma RewindSet(m: Scope, undo: seq<Saved>, mark: nat, p: string, uri: string)
    requires mark <= |undo|
    ensures var logged := undo + [Saved(p, Lookup(m, p), p in m)];
            Rewind(m[p := uri], logged, mark) == Rewind(m, undo, mark)
  {
    var u := Saved(p, Lookup(m, p), p in m);
    var logged := undo + [u];
    assert logged[..|logged| - 1] == undo && logged[|logged| - 1] == u;
    assert UndoOne(m[p := uri], u) == m;
  }

  class Bindings {
    var m: Scope
    var undo: seq<Saved>

    constructor (m: Scope)
      ensures this.m == m && undo == []
    {
      this.m, undo := m, [];
    }

    method Set(p: string, uri: string)
      modifies this
      ensures m == old(m)[p := uri]
      ensures old(undo) <= undo && |undo| == |old(undo)| + 1
      ensures forall mark: nat | mark <= |old(undo)| :: Rewind(m, undo, mark) == Rewind(old(m), old(undo), mark)
    {
      forall mark: nat | mark <= |undo| ensures
        Rewind(m[p := uri], undo + [Saved(p, Lookup(m, p), p in m)], mark) == Rewind(m, undo, mark)
      {
        RewindSet(m, undo, mark, p, uri);
      }
      undo := undo + [Saved(p, Lookup(m, p), p in m)];
      m := m[p := uri];
    }

    /** Reverses every change made since the log was `mark` entries long. */
    method Restore(mark: nat)
      requires mark <= |undo|
      modifies this
      ensures m == Rewind(old(m), old(undo), mark) && undo == old(undo)[..mark]
    {
      var i := |undo|;
      assert undo[..i] == undo;
      while i > mark
        invariant mark <= i <= |undo| && undo == old(undo)
        invariant Rewind(m, undo[..i], mark) == Rewind(old(m), old(undo), mark)
      {
        i := i - 1;
        var u := undo[i];
        assert undo[..i + 1][..i] == undo[..i];
        m := if u.had then m[u.prefix := u.uri] else m - {u.prefix};
      }
      undo := undo[..mark];
    }
  }

  // ---- sorting candidates ------------------------------------------------

  function SortIn(bs: seq<Binding>, b: Binding): seq<Binding> {
    if bs == [] || Before(b.prefix, bs[0].prefix) then [b] + bs else [bs[0]] + SortIn(bs[1..], b)
  }

  function Sort(bs: seq<Binding>): seq<Binding> {
    if bs == [] then [] else SortIn(Sort(bs[..|bs| - 1]), bs[|bs| - 1])
  }

  /** Drops a binding that follows one of the same prefix. */
  function Compact(bs: seq<Binding>): seq<Binding>
    decreases |bs|
  {
    if |bs| <= 1 then bs
    else if bs[0].prefix == bs[1].prefix then Compact([bs[0]] + bs[2..])
    else [bs[0]] + Compact(bs[1..])
  }

  ghost predicate Sorted(bs: seq<Binding>) {
    forall i, j | 0 <= i < j < |bs| :: !Before(bs[j].prefix, bs[i].prefix)
  }

  lemma NotAfterOn(a: string, b: string, c: string)
    requires !Before(b, a) && !Before(c, b)
    ensures !Before(c, a)
  {
    BeforeTotal(a, b);
    BeforeTotal(b, c);
    BeforeTotal(a, c);
    if Before(a, b) && Before(b, c) { BeforeOn(a, b, c); }
  }

  lemma SortedCons(b: Binding, bs: seq<Binding>)
    requires Sorted(bs) && forall c | c in bs :: !Before(c.prefix, b.prefix)
    ensures Sorted([b] + bs)
  {
    var all := [b] + bs;
    forall i, j | 0 <= i < j < |all| ensures !Before(all[j].prefix, all[i].prefix) {
      assert all[j] == bs[j - 1] && bs[j - 1] in bs;
      if i > 0 { assert all[i] == bs[i - 1]; }
    }
  }

  lemma SortedTail(bs: seq<Binding>)
    requires bs != [] && Sorted(bs)
    ensures Sorted(bs[1..]) && forall c | c in bs :: !Before(c.prefix, bs[0].prefix)
  {
    BeforeTotal(bs[0].prefix, bs[0].prefix);
    var rest := bs[1..];
    forall i, j | 0 <= i < j < |rest| ensures !Before(rest[j].prefix, rest[i].prefix) {
      assert rest[i] == bs[i + 1] && rest[j] == bs[j + 1];
    }
    forall c | c in bs ensures !Before(c.prefix, bs[0].prefix) {
      var i :| 0 <= i < |bs| && bs[i] == c;
    }
  }

  lemma {:induction false} SortInSorted(bs: seq<Binding>, b: Binding)
    requires Sorted(bs)
    ensures Sorted(SortIn(bs, b)) && forall c :: c in SortIn(bs, b) <==> c == b || c in bs
  {
    if bs != [] {
      SortedTail(bs);
      assert bs == [bs[0]] + bs[1..];
      if Before(b.prefix, bs[0].prefix) {
        forall c | c in bs ensures !Before(c.prefix, b.prefix) {
          BeforeTotal(b.prefix, bs[0].prefix);
          NotAfterOn(b.prefix, bs[0].prefix, c.prefix);
        }
        SortedCons(b, bs);
      } else {
        SortInSorted(bs[1..], b);
        SortedCons(bs[0], SortIn(bs[1..], b));
      }
    }
  }

  lemma {:induction false} SortSorted(bs: seq<Binding>)
    ensures Sorted(Sort(bs)) && forall c :: c in Sort(bs) <==> c in bs
  {
    if bs != [] {
      var n := |bs| - 1;
      assert bs == bs[..n] + [bs[n]];
      SortSorted(bs[..n]);
      SortInSorted(Sort(bs[..n]), bs[n]);
    }
  }

  /** Sorted bindings without repeats ascend; no prefix is lost. */
  lemma {:induction false} CompactAscends(bs: seq<Binding>)
    requires Sorted(bs)
    ensures Ascending(Compact(bs)) && Prefixes(Compact(bs)) == Prefixes(bs)
    ensures forall c | c in Compact(bs) :: c in bs
    ensures bs != [] ==> Compact(bs) != [] && Compact(bs)[0] == bs[0]
    decreases |bs|
  {
    if |bs| > 1 {
      SortedTail(bs);
      SortedTail(bs[1..]);
      assert bs == [bs[0]] + bs[1..] && bs[1..] == [bs[1]] + bs[2..] && bs[1..][1..] == bs[2..];
      if bs[0].prefix == bs[1].prefix {
        var rest := [bs[0]] + bs[2..];
        forall c | c in bs[2..] ensures !Before(c.prefix, bs[0].prefix) { assert c in bs; }
        SortedCons(bs[0], bs[2..]);
        CompactAscends(rest);
        assert Prefixes(rest) == {bs[0].prefix} + Prefixes(bs[2..]);
        assert Prefixes(bs) == {bs[0].prefix} + ({bs[1].prefix} + Prefixes(bs[2..]));
      } else {
        CompactAscends(bs[1..]);
        var c := Compact(bs[1..]);
        BeforeTotal(bs[0].prefix, bs[1].prefix);
        forall x | x in c ensures Before(bs[0].prefix, x.prefix) {
          AfterSecond(bs, x);
        }
        AscendingCons(bs[0], c);
        assert Prefixes([bs[0]] + c) == {bs[0].prefix} + Prefixes(c);
        assert Prefixes(bs) == {bs[0].prefix} + Prefixes(bs[1..]);
      }
    }
  }

  lemma AfterSecond(bs: seq<Binding>, x: Binding)
    requires |bs| > 1 && Sorted(bs) && bs[0].prefix != bs[1].prefix && x in bs[1..]
    ensures Before(bs[0].prefix, x.prefix)
  {
    var i :| 0 <= i < |bs[1..]| && bs[1..][i] == x;
    assert x == bs[i + 1];
    BeforeTotal(bs[0].prefix, bs[1].prefix);
    BeforeTotal(bs[1].prefix, x.prefix);
    if i > 0 && Before(bs[1].prefix, x.prefix) { BeforeOn(bs[0].prefix, bs[1].prefix, x.prefix); }
  }

  /** Candidates collected in any order, with repeats, come out as the listing. */
  lemma SortCompactIs(bs: seq<Binding>, scope: Scope)
    requires forall b | b in bs :: b.uri == Lookup(scope, b.prefix)
    ensures Compact(Sort(bs)) == Listing(Prefixes(bs), scope)
  {
    SortSorted(bs);
    CompactAscends(Sort(bs));
    assert Prefixes(Sort(bs)) == Prefixes(bs);
    ListingUnique(Compact(Sort(bs)), scope);
  }

  // ---- the walk ----------------------------------------------------------

  class Canon {
    const mode: Mode
    const maxDepth: nat
    const accepts: Binding -> bool
    const scope: Bindings
    const rendered: Bindings
    var nsOut: seq<Binding>

    /** `above` is what is bound above the root of the walk. */
    constructor (mode: Mode, maxDepth: nat, accepts: Binding -> bool, above: Scope)
      ensures this.mode == mode && this.maxDepth == maxDepth && this.accepts == accepts
      ensures fresh(scope) && fresh(rendered) && scope != rendered
      ensures scope.m == above && scope.undo == [] && rendered.m == map[] && rendered.undo == []
    {
      this.mode, this.maxDepth, this.accepts := mode, maxDepth, accepts;
      nsOut := [];
      scope := new Bindings(above);
      rendered := new Bindings(map[]);
    }

    /** What has been collected of the candidates looked at so far. */
    ghost predicate Collected(seen: set<string>)
      reads this`nsOut, scope`m, rendered`m
    {
      && Prefixes(nsOut) == (set p | p in seen && Renders(scope.m, rendered.m, p))
      && forall b | b in nsOut :: b.uri == Lookup(scope.m, b.prefix)
    }

    method Consider(p: string, ghost seen: set<string>)
      requires Collected(seen)
      modifies this`nsOut
      ensures Collected(seen + {p})
    {
      if p == "xml" { return; }
      var uri := Lookup(scope.m, p);
      if p != "" && uri == "" { return; }
      if Lookup(rendered.m, p) == uri { return; }
      ghost var before := nsOut;
      nsOut := nsOut + [Binding(p, uri)];
      assert Prefixes(nsOut) == Prefixes(before) + {p};
    }

    /** Considers each of a list of prefixes. */
    method ConsiderAll(ps: seq<string>, ghost seen: set<string>)
      requires Collected(seen)
      modifies this`nsOut
      ensures Collected(seen + set p | p in ps)
    {
      var i := 0;
      ghost var now := seen;
      while i < |ps|
        invariant i <= |ps| && Collected(now) && now == seen + set p | p in ps[..i]
      {
        assert ps[..i + 1] == ps[..i] + [ps[i]];
        Consider(ps[i], now);
        now := now + {ps[i]};
        i := i + 1;
      }
      assert ps[..i] == ps;
    }

    /** The prefixes an element visibly utilises: its own and its attributes'. */
    method ConsiderUsed(e: Elem)
      requires Collected({})
      modifies this`nsOut
      ensures Collected({e.prefix} + set a | a in e.attrs && a != "")
    {
      Consider(e.prefix, {});
      ghost var now := {e.prefix};
      var i := 0;
      while i < |e.attrs|
        invariant i <= |e.attrs| && Collected(now)
        invariant now == {e.prefix} + set a | a in e.attrs[..i] && a != ""
      {
        assert e.attrs[..i + 1] == e.attrs[..i] + [e.attrs[i]];
        if e.attrs[i] != "" {
          Consider(e.attrs[i], now);
          now := now + {e.attrs[i]};
        }
        i := i + 1;
      }
      assert e.attrs[..i] == e.attrs;
    }

    method ConsiderOwn(decls: seq<Binding>)
      requires Collected({})
      modifies this`nsOut
      ensures Collected(Prefixes(decls))
    {
      ghost var now: set<string> := {};
      var i := 0;
      while i < |decls|
        invariant i <= |decls| && Collected(now) && now == Prefixes(decls[..i])
      {
        assert decls[..i + 1] == decls[..i] + [decls[i]];
        assert Prefixes(decls[..i + 1]) == Prefixes(decls[..i]) + {decls[i].prefix};
        Consider(decls[i].prefix, now);
        now := now + {decls[i].prefix};
        i := i + 1;
      }
      assert decls[..i] == decls;
    }

    /** Every prefix in scope, in any order, and the default. */
    method ConsiderScope()
      requires Collected({})
      modifies this`nsOut
      ensures Collected(scope.m.Keys + {""})
    {
      var left := scope.m.Keys;
      ghost var now: set<string> := {};
      while left != {}
        invariant Collected(now) && now + left == scope.m.Keys
        decreases |left|
      {
        var p :| p in left;
        Consider(p, now);
        now := now + {p};
        left := left - {p};
      }
      assert now == scope.m.Keys;
      Consider("", now);
    }

    method CollectCandidates(e: Elem, parentIn: bool)
      modifies this`nsOut
      ensures Collected(Candidates(mode, e, parentIn, scope.m))
    {
      nsOut := [];
      assert Collected({});
      match mode {
        case Exclusive(prefixes) =>
          ConsiderUsed(e);
          ConsiderAll(prefixes, {e.prefix} + set a | a in e.attrs && a != "");
        case Inclusive(shortcut) =>
          if shortcut && parentIn { ConsiderOwn(e.decls); } else { ConsiderScope(); }
      }
    }

    /** Renders the candidates in order, once each, and records them. */
    method WriteNamespaces(ghost seen: set<string>) returns (bs: seq<Binding>)
      requires Collected(seen) && scope != rendered
      modifies this`nsOut, rendered
      ensures bs == Listing((set p | p in seen && Renders(scope.m, old(rendered.m), p)), scope.m)
      ensures rendered.m == Declare(old(rendered.m), bs) && old(rendered.undo) <= rendered.undo
      ensures forall mark: nat | mark <= |old(rendered.undo)| ::
                Rewind(rendered.m, rendered.undo, mark) == Rewind(old(rendered.m), old(rendered.undo), mark)
    {
      SortCompactIs(nsOut, scope.m);
      nsOut := Compact(Sort(nsOut));
      bs := nsOut;
      var i := 0;
      while i < |bs|
        invariant i <= |bs| && nsOut == bs
        invariant Declare(rendered.m, bs[i..]) == Declare(old(rendered.m), bs)
        invariant old(rendered.undo) <= rendered.undo
        invariant forall mark: nat | mark <= |old(rendered.undo)| ::
                    Rewind(rendered.m, rendered.undo, mark) == Rewind(old(rendered.m), old(rendered.undo), mark)
      {
        assert bs[i..][1..] == bs[i + 1..];
        rendered.Set(nsOut[i].prefix, nsOut[i].uri);
        i := i + 1;
      }
    }

    /** The namespace state of the walk, which every element leaves as it found it. */
    twostate predicate Restored()
      reads scope, rendered
    {
      && scope.m == old(scope.m) && scope.undo == old(scope.undo)
      && rendered.m == old(rendered.m) && rendered.undo == old(rendered.undo)
    }

    method DeclareAll(decls: seq<Binding>) returns (ok: bool)
      modifies scope
      ensures ok <==> forall b | b in decls :: accepts(b)
      ensures ok ==> scope.m == Declare(old(scope.m), decls) && old(scope.undo) <= scope.undo
      ensures ok ==> forall mark: nat | mark <= |old(scope.undo)| ::
                Rewind(scope.m, scope.undo, mark) == Rewind(old(scope.m), old(scope.undo), mark)
    {
      var i := 0;
      while i < |decls|
        invariant i <= |decls| && forall b | b in decls[..i] :: accepts(b)
        invariant Declare(scope.m, decls[i..]) == Declare(old(scope.m), decls)
        invariant old(scope.undo) <= scope.undo
        invariant forall mark: nat | mark <= |old(scope.undo)| ::
                    Rewind(scope.m, scope.undo, mark) == Rewind(old(scope.m), old(scope.undo), mark)
      {
        if !accepts(decls[i]) { return false; }
        assert decls[i..][1..] == decls[i + 1..];
        assert decls[..i + 1] == decls[..i] + [decls[i]];
        scope.Set(decls[i].prefix, decls[i].uri);
        i := i + 1;
      }
      assert decls[..i] == decls;
      ok := true;
    }

    /** One element and all below it.  None is a refusal: too deep, or a declaration not
        accepted. */
    method Element(e: Elem, parentIn: bool, depth: nat) returns (out: Option<seq<Tag>>)
      requires scope != rendered
      modifies this`nsOut, scope, rendered
      ensures out == if Allowed(e, depth, maxDepth, accepts)
                     then Some(Render(mode, e, parentIn, old(scope.m), old(rendered.m))) else None
      ensures out.Some? ==> Restored()
      decreases e, 1
    {
      if depth > maxDepth { return None; }
      var scopeMark, renderedMark := |scope.undo|, |rendered.undo|;
      var ok := DeclareAll(e.decls);
      if !ok { return None; }
      ghost var inner := scope.m;
      var bs: seq<Binding> := [];
      if e.chosen {
        CollectCandidates(e, parentIn);
        bs := WriteNamespaces(Candidates(mode, e, parentIn, scope.m));
      }
      var source := scope.m;
      var kids := Children(e, depth);
      if kids.None? { return None; }
      scope.Restore(scopeMark);
      rendered.Restore(renderedMark);
      out := Some(if e.chosen then [Tag(e.prefix, bs, e.attrs, kids.value, source)] else kids.value);
    }

    method Children(e: Elem, depth: nat) returns (out: Option<seq<Tag>>)
      requires scope != rendered
      modifies this`nsOut, scope, rendered
      ensures out == if forall k | k in e.kids :: Allowed(k, depth + 1, maxDepth, accepts)
                     then Some(RenderKids(mode, e.kids, e.chosen, old(scope.m), old(rendered.m))) else None
      ensures out.Some? ==> Restored()
      decreases e, 0
    {
      var tags: seq<Tag> := [];
      var i := 0;
      while i < |e.kids|
        invariant i <= |e.kids| && Restored()
        invariant forall k | k in e.kids[..i] :: Allowed(k, depth + 1, maxDepth, accepts)
        invariant tags == RenderKids(mode, e.kids[..i], e.chosen, old(scope.m), old(rendered.m))
      {
        var r := Element(e.kids[i], e.chosen, depth + 1);
        assert e.kids[i] in e.kids;
        if r.None? { return None; }
        assert e.kids[..i + 1] == e.kids[..i] + [e.kids[i]] && e.kids[..i + 1][..i] == e.kids[..i];
        tags := tags + r.value;
        i := i + 1;
      }
      assert e.kids[..i] == e.kids;
      out := Some(tags);
    }
  }
}
