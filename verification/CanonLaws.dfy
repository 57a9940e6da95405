/** What the rendered namespaces guarantee: the shortcut changes nothing, the standard's
    rule is met, prefixes mean in the output what they mean in the source, and
    canonicalizing the output again changes nothing. */
module CanonLaws {
  import opened Basics
  import opened CanonSyntax

  // ---- listings and scopes -----------------------------------------------

  lemma AscendingCons(b: Binding, bs: seq<Binding>)
    requires Ascending(bs) && forall c | c in bs :: Before(b.prefix, c.prefix)
    ensures Ascending([b] + bs)
  {
    var all := [b] + bs;
    forall i, j | 0 <= i < j < |all| ensures Before(all[i].prefix, all[j].prefix) {
      assert all[j] == bs[j - 1] && bs[j - 1] in bs;
      if i > 0 { assert all[i] == bs[i - 1]; }
    }
  }

  lemma {:induction false} ListingIs(ps: set<string>, scope: Scope)
    ensures Ascending(Listing(ps, scope)) && Prefixes(Listing(ps, scope)) == ps
    ensures forall b | b in Listing(ps, scope) :: b.prefix in ps && b.uri == Lookup(scope, b.prefix)
    decreases ps
  {
    if ps != {} {
      var p := Least(ps);
      var b := Binding(p, Lookup(scope, p));
      var rest := Listing(ps - {p}, scope);
      ListingIs(ps - {p}, scope);
      assert Listing(ps, scope) == [b] + rest;
      AscendingCons(b, rest);
      assert Prefixes([b] + rest) == {p} + Prefixes(rest);
    }
  }

  /** An ascending list is the listing of its prefixes. */
  lemma {:induction false} ListingUnique(bs: seq<Binding>, scope: Scope)
    requires Ascending(bs) && forall b | b in bs :: b.uri == Lookup(scope, b.prefix)
    ensures bs == Listing(Prefixes(bs), scope)
    decreases |bs|
  {
    if bs != [] {
      var (p, rest) := (bs[0].prefix, bs[1..]);
      assert bs == [bs[0]] + rest;
      assert Prefixes(bs) == {p} + Prefixes(rest);
      forall q | q in Prefixes(rest) ensures Before(p, q) {
        var i :| 0 <= i < |rest| && rest[i].prefix == q;
        assert bs[i + 1] == rest[i];
      }
      BeforeTotal(p, p);
      assert Prefixes(rest) == Prefixes(bs) - {p};
      var least := Least(Prefixes(bs));
      BeforeTotal(p, least);
      assert least == p;
      forall i, j | 0 <= i < j < |rest| ensures Before(rest[i].prefix, rest[j].prefix) {
        assert rest[i] == bs[i + 1] && rest[j] == bs[j + 1];
      }
      ListingUnique(rest, scope);
    } else {
      assert Prefixes(bs) == {};
    }
  }

  lemma {:induction false} DeclareOther(m: Scope, bs: seq<Binding>, p: string)
    requires p !in Prefixes(bs)
    ensures Lookup(Declare(m, bs), p) == Lookup(m, p) && (p in Declare(m, bs) <==> p in m)
    decreases |bs|
  {
    if bs != [] {
      assert bs[0] in bs && forall b | b in bs[1..] :: b in bs;
      DeclareOther(m[bs[0].prefix := bs[0].uri], bs[1..], p);
    }
  }

  lemma {:induction false} DeclareKeys(m: Scope, bs: seq<Binding>)
    ensures Declare(m, bs).Keys == m.Keys + Prefixes(bs)
    decreases |bs|
  {
    if bs != [] {
      DeclareKeys(m[bs[0].prefix := bs[0].uri], bs[1..]);
      assert bs == [bs[0]] + bs[1..];
      assert Prefixes(bs) == {bs[0].prefix} + Prefixes(bs[1..]);
    }
  }

  /** Declaring a listing of `scope` gives its prefixes their meaning there. */
  lemma {:induction false} DeclareListed(m: Scope, bs: seq<Binding>, scope: Scope, p: string)
    requires forall b | b in bs :: b.uri == Lookup(scope, b.prefix)
    ensures Lookup(Declare(m, bs), p) == if p in Prefixes(bs) then Lookup(scope, p) else Lookup(m, p)
    decreases |bs|
  {
    if bs != [] {
      var m' := m[bs[0].prefix := bs[0].uri];
      assert bs == [bs[0]] + bs[1..];
      assert Prefixes(bs) == {bs[0].prefix} + Prefixes(bs[1..]);
      DeclareListed(m', bs[1..], scope, p);
    }
  }

  // ---- the shortcut ------------------------------------------------------

  /** The output says of every bound prefix, and of the default, what the source does. */
  ghost predicate Agree(scope: Scope, rendered: Scope) {
    forall p | p != "xml" && (p == "" || Lookup(scope, p) != "") :: Lookup(rendered, p) == Lookup(scope, p)
  }

  ghost function ShownSet(mode: Mode, e: Elem, parentIn: bool, scope: Scope, rendered: Scope): set<string> {
    set p | p in Candidates(mode, e, parentIn, scope) && Renders(scope, rendered, p)
  }

  lemma SameShown(e: Elem, scope: Scope, rendered: Scope)
    requires Agree(scope, rendered)
    ensures var inner := Declare(scope, e.decls);
            ShownSet(Inclusive(true), e, true, inner, rendered) == ShownSet(Inclusive(false), e, true, inner, rendered)
  {
    var inner := Declare(scope, e.decls);
    DeclareKeys(scope, e.decls);
    forall p | p in inner.Keys + {""} && Renders(inner, rendered, p) ensures p in Prefixes(e.decls) {
      if p !in Prefixes(e.decls) { DeclareOther(scope, e.decls, p); }
    }
  }

  /** After an inclusive element's declarations, source and output agree. */
  lemma ShownAgrees(shortcut: bool, e: Elem, parentIn: bool, scope: Scope, rendered: Scope)
    requires parentIn ==> Agree(scope, rendered)
    ensures var inner := Declare(scope, e.decls);
            Agree(inner, Declare(rendered, Shown(Inclusive(shortcut), e, parentIn, inner, rendered)))
  {
    var inner := Declare(scope, e.decls);
    var ps := ShownSet(Inclusive(shortcut), e, parentIn, inner, rendered);
    var bs := Shown(Inclusive(shortcut), e, parentIn, inner, rendered);
    assert bs == Listing(ps, inner);
    ListingIs(ps, inner);
    if parentIn { SameShown(e, scope, rendered); }
    forall p | p != "xml" && (p == "" || Lookup(inner, p) != "")
      ensures Lookup(Declare(rendered, bs), p) == Lookup(inner, p)
    {
      DeclareListed(rendered, bs, inner, p);
      if p !in ps { assert p in inner.Keys + {""} && !Renders(inner, rendered, p); }
    }
  }

  /** Considering only an element's own declarations when its parent was output renders
      what scanning the whole scope would. */
  lemma {:induction false} ShortcutExact(e: Elem, parentIn: bool, scope: Scope, rendered: Scope)
    requires parentIn ==> Agree(scope, rendered)
    ensures Render(Inclusive(true), e, parentIn, scope, rendered)
         == Render(Inclusive(false), e, parentIn, scope, rendered)
    decreases e, 1
  {
    var inner := Declare(scope, e.decls);
    if e.chosen {
      if parentIn { SameShown(e, scope, rendered); }
      var bs := Shown(Inclusive(true), e, parentIn, inner, rendered);
      assert bs == Shown(Inclusive(false), e, parentIn, inner, rendered);
      ShownAgrees(true, e, parentIn, scope, rendered);
      ShortcutKids(e.kids, true, inner, Declare(rendered, bs));
    } else {
      ShortcutKids(e.kids, false, inner, rendered);
    }
  }

  lemma {:induction false} ShortcutKids(kids: seq<Elem>, parentIn: bool, scope: Scope, rendered: Scope)
    requires parentIn ==> Agree(scope, rendered)
    ensures RenderKids(Inclusive(true), kids, parentIn, scope, rendered)
         == RenderKids(Inclusive(false), kids, parentIn, scope, rendered)
    decreases kids, 0
  {
    if kids != [] {
      var n := |kids| - 1;
      ShortcutKids(kids[..n], parentIn, scope, rendered);
      ShortcutExact(kids[n], parentIn, scope, rendered);
    }
  }

  // ---- the standard's rule -----------------------------------------------

  /** Canonical XML 1.0, section 2.3: a namespace node renders unless the nearest output
      ancestor has it with the same value; xmlns="" renders where the element has no
      default namespace and that ancestor has one. */
  predicate StandardShows(scope: Scope, ancestor: Option<Scope>, p: string) {
    p != "xml"
    && if Lookup(scope, p) != "" then ancestor.None? || Lookup(ancestor.value, p) != Lookup(scope, p)
       else p == "" && ancestor.Some? && Lookup(ancestor.value, p) != ""
  }

  ghost function Standard(e: Elem, ancestor: Option<Scope>, scope: Scope): seq<Tag>
    decreases e, 1
  {
    var inner := Declare(scope, e.decls);
    if e.chosen then
      var bs := Listing((set p | p in inner.Keys + {""} && StandardShows(inner, ancestor, p)), inner);
      [Tag(e.prefix, bs, e.attrs, StandardKids(e.kids, Some(inner), inner), inner)]
    else StandardKids(e.kids, ancestor, inner)
  }

  ghost function StandardKids(kids: seq<Elem>, ancestor: Option<Scope>, scope: Scope): seq<Tag>
    decreases kids, 0
  {
    if kids == [] then []
    else
      var n := |kids| - 1;
      StandardKids(kids[..n], ancestor, scope) + Standard(kids[n], ancestor, scope)
  }

  /** Only the default namespace is undeclared. */
  predicate KeepsPrefixes(e: Elem)
    decreases e
  {
    && (forall b | b in e.decls :: b.prefix != "" ==> b.uri != "")
    && forall k | k in e.kids :: KeepsPrefixes(k)
  }

  /** What was rendered is the nearest output ancestor's scope, which is still in scope. */
  ghost predicate Follows(ancestor: Option<Scope>, rendered: Scope, scope: Scope) {
    match ancestor
    case None => forall p :: Lookup(rendered, p) == ""
    case Some(a) =>
      && (forall p | p != "xml" :: Lookup(rendered, p) == Lookup(a, p))
      && (forall p | p != "" && Lookup(a, p) != "" :: Lookup(scope, p) != "")
  }

  lemma {:induction false} StillBound(scope: Scope, bs: seq<Binding>, p: string)
    requires p != "" && Lookup(scope, p) != "" && forall b | b in bs :: b.prefix != "" ==> b.uri != ""
    ensures Lookup(Declare(scope, bs), p) != ""
    decreases |bs|
  {
    if bs != [] {
      assert bs[0] in bs && forall b | b in bs[1..] :: b in bs;
      StillBound(scope[bs[0].prefix := bs[0].uri], bs[1..], p);
    }
  }

  lemma FollowsInside(ancestor: Option<Scope>, rendered: Scope, scope: Scope, bs: seq<Binding>)
    requires Follows(ancestor, rendered, scope) && forall b | b in bs :: b.prefix != "" ==> b.uri != ""
    ensures Follows(ancestor, rendered, Declare(scope, bs))
  {
    if ancestor.Some? {
      forall p | p != "" && Lookup(ancestor.value, p) != "" ensures Lookup(Declare(scope, bs), p) != "" {
        StillBound(scope, bs, p);
      }
    }
  }

  lemma FollowsShown(ancestor: Option<Scope>, rendered: Scope, inner: Scope)
    requires Follows(ancestor, rendered, inner)
    ensures var full := set p | p in inner.Keys + {""} && Renders(inner, rendered, p);
      && full == (set p | p in inner.Keys + {""} && StandardShows(inner, ancestor, p))
      && Follows(Some(inner), Declare(rendered, Listing(full, inner)), inner)
  {
    var full := set p | p in inner.Keys + {""} && Renders(inner, rendered, p);
    forall p | p in inner.Keys + {""} ensures Renders(inner, rendered, p) <==> StandardShows(inner, ancestor, p) {
      ShowsSame(ancestor, rendered, inner, p);
    }
    FollowsOn(rendered, inner, full);
  }

  lemma ShowsSame(ancestor: Option<Scope>, rendered: Scope, inner: Scope, p: string)
    requires Follows(ancestor, rendered, inner) && p in inner.Keys + {""}
    ensures Renders(inner, rendered, p) <==> StandardShows(inner, ancestor, p)
  {
  }

  /** Once all that differs is declared, what is in force is the scope. */
  lemma FollowsOn(rendered: Scope, inner: Scope, full: set<string>)
    requires full == set p | p in inner.Keys + {""} && Renders(inner, rendered, p)
    requires forall p | p != "" && p != "xml" && Lookup(rendered, p) != "" :: Lookup(inner, p) != ""
    ensures Follows(Some(inner), Declare(rendered, Listing(full, inner)), inner)
  {
    var bs := Listing(full, inner);
    ListingIs(full, inner);
    forall p | p != "xml" ensures Lookup(Declare(rendered, bs), p) == Lookup(inner, p) {
      DeclareListed(rendered, bs, inner, p);
      if p !in full { assert p in inner.Keys + {""} ==> !Renders(inner, rendered, p); }
    }
  }

  /** Inclusive canonicalization renders what the standard says, for any choice of
      elements, so long as no prefix is undeclared. */
  lemma {:induction false} MeetsStandard(e: Elem, parentIn: bool, ancestor: Option<Scope>, scope: Scope,
                                         rendered: Scope)
    requires KeepsPrefixes(e) && Follows(ancestor, rendered, scope) && (parentIn ==> Agree(scope, rendered))
    ensures Render(Inclusive(true), e, parentIn, scope, rendered) == Standard(e, ancestor, scope)
    decreases e, 1
  {
    var inner := Declare(scope, e.decls);
    FollowsInside(ancestor, rendered, scope, e.decls);
    if e.chosen {
      FollowsShown(ancestor, rendered, inner);
      if parentIn { SameShown(e, scope, rendered); }
      var bs := Shown(Inclusive(true), e, parentIn, inner, rendered);
      assert Candidates(Inclusive(false), e, parentIn, inner) == inner.Keys + {""};
      assert ShownSet(Inclusive(true), e, parentIn, inner, rendered)
          == set p | p in inner.Keys + {""} && StandardShows(inner, ancestor, p);
      ShownAgrees(true, e, parentIn, scope, rendered);
      StandardKidsMet(e, e.kids, true, Some(inner), inner, Declare(rendered, bs));
    } else {
      StandardKidsMet(e, e.kids, false, ancestor, inner, rendered);
    }
  }

  lemma {:induction false} StandardKidsMet(e: Elem, kids: seq<Elem>, parentIn: bool, ancestor: Option<Scope>,
                                           scope: Scope, rendered: Scope)
    requires KeepsPrefixes(e) && forall k | k in kids :: k in e.kids && k < e
    requires Follows(ancestor, rendered, scope) && (parentIn ==> Agree(scope, rendered))
    ensures RenderKids(Inclusive(true), kids, parentIn, scope, rendered) == StandardKids(kids, ancestor, scope)
    decreases e, 0, |kids|
  {
    if kids != [] {
      var n := |kids| - 1;
      StandardKidsMet(e, kids[..n], parentIn, ancestor, scope, rendered);
      assert kids[n] in kids;
      MeetsStandard(kids[n], parentIn, ancestor, scope, rendered);
    }
  }

  // ---- what the output says ----------------------------------------------

  /** Every prefix a tag or its attributes use is bound in the source. */
  ghost predicate NsWellFormed(e: Elem, scope: Scope)
    decreases e
  {
    var inner := Declare(scope, e.decls);
    && (forall p | p == e.prefix || p in e.attrs :: p == "" || p == "xml" || Lookup(inner, p) != "")
    && forall k | k in e.kids :: NsWellFormed(k, inner)
  }

  /** Read with the declarations output around it, each prefix a tag uses means what it
      means in the source. */
  ghost predicate Resolved(t: Tag, outside: Scope)
    decreases t
  {
    var here := Declare(outside, t.decls);
    && (t.prefix != "xml" ==> Lookup(here, t.prefix) == Lookup(t.source, t.prefix))
    && (forall a | a in t.attrs && a != "" && a != "xml" :: Lookup(here, a) == Lookup(t.source, a))
    && forall k | k in t.kids :: Resolved(k, here)
  }

  /** Declarations come in order of prefix, none of them idle, none for xml, none
      undeclaring a prefix. */
  ghost predicate Tidy(t: Tag, outside: Scope)
    decreases t
  {
    && Ascending(t.decls)
    && (forall b | b in t.decls :: b.prefix != "xml" && (b.prefix != "" ==> b.uri != "")
                                   && Lookup(outside, b.prefix) != b.uri)
    && forall k | k in t.kids :: Tidy(k, Declare(outside, t.decls))
  }

  /** What an element's declarations settle about one prefix it considers. */
  lemma ConsideredResolves(mode: Mode, e: Elem, parentIn: bool, inner: Scope, rendered: Scope, p: string)
    requires p in Candidates(mode, e, parentIn, inner) && p != "xml" && (p == "" || Lookup(inner, p) != "")
    ensures Lookup(Declare(rendered, Shown(mode, e, parentIn, inner, rendered)), p) == Lookup(inner, p)
  {
    var ps := ShownSet(mode, e, parentIn, inner, rendered);
    assert Shown(mode, e, parentIn, inner, rendered) == Listing(ps, inner);
    ListingIs(ps, inner);
    DeclareListed(rendered, Listing(ps, inner), inner, p);
  }

  lemma TagResolves(mode: Mode, e: Elem, parentIn: bool, scope: Scope, rendered: Scope, p: string)
    requires mode.Inclusive? && parentIn ==> Agree(scope, rendered)
    requires p == e.prefix || (p in e.attrs && p != "")
    requires p != "xml" && (p == "" || Lookup(Declare(scope, e.decls), p) != "")
    ensures var inner := Declare(scope, e.decls);
            Lookup(Declare(rendered, Shown(mode, e, parentIn, inner, rendered)), p) == Lookup(inner, p)
  {
    var inner := Declare(scope, e.decls);
    match mode
    case Exclusive(_) => ConsideredResolves(mode, e, parentIn, inner, rendered, p);
    case Inclusive(shortcut) => ShownAgrees(shortcut, e, parentIn, scope, rendered);
  }

  lemma ShownTidy(mode: Mode, e: Elem, parentIn: bool, inner: Scope, rendered: Scope)
    ensures var bs := Shown(mode, e, parentIn, inner, rendered);
      && Ascending(bs)
      && forall b | b in bs :: b.prefix != "xml" && (b.prefix != "" ==> b.uri != "")
                               && Lookup(rendered, b.prefix) != b.uri
  {
    ListingIs(ShownSet(mode, e, parentIn, inner, rendered), inner);
    assert Shown(mode, e, parentIn, inner, rendered) == Listing(ShownSet(mode, e, parentIn, inner, rendered), inner);
  }

  /** Both algorithms: the output's prefixes resolve as in the source, and its
      declarations are in order and none is idle. */
  lemma {:induction false} OutputRight(mode: Mode, e: Elem, parentIn: bool, scope: Scope, rendered: Scope, t: Tag)
    requires NsWellFormed(e, scope) && (mode.Inclusive? && parentIn ==> Agree(scope, rendered))
    requires t in Render(mode, e, parentIn, scope, rendered)
    ensures Resolved(t, rendered) && Tidy(t, rendered)
    decreases e, 1
  {
    var inner := Declare(scope, e.decls);
    if e.chosen {
      var bs := Shown(mode, e, parentIn, inner, rendered);
      var here := Declare(rendered, bs);
      ShownTidy(mode, e, parentIn, inner, rendered);
      if mode.Inclusive? { ShownAgrees(mode.shortcut, e, parentIn, scope, rendered); }
      forall p | (p == e.prefix || (p in e.attrs && p != "")) && p != "xml"
        ensures Lookup(here, p) == Lookup(inner, p)
      {
        TagResolves(mode, e, parentIn, scope, rendered, p);
      }
      forall k | k in t.kids ensures Resolved(k, here) && Tidy(k, here) {
        KidsRight(mode, e, e.kids, true, inner, here, k);
      }
    } else {
      KidsRight(mode, e, e.kids, false, inner, rendered, t);
    }
  }

  lemma {:induction false} KidsRight(mode: Mode, e: Elem, kids: seq<Elem>, parentIn: bool, scope: Scope,
                                     rendered: Scope, t: Tag)
    requires forall k | k in kids :: k < e && NsWellFormed(k, scope)
    requires mode.Inclusive? && parentIn ==> Agree(scope, rendered)
    requires t in RenderKids(mode, kids, parentIn, scope, rendered)
    ensures Resolved(t, rendered) && Tidy(t, rendered)
    decreases e, 0, |kids|
  {
    var n := |kids| - 1;
    if t in RenderKids(mode, kids[..n], parentIn, scope, rendered) {
      forall k | k in kids[..n] ensures k < e && NsWellFormed(k, scope) { assert k in kids; }
      KidsRight(mode, e, kids[..n], parentIn, scope, rendered, t);
    } else {
      assert kids[n] in kids;
      OutputRight(mode, kids[n], parentIn, scope, rendered, t);
    }
  }

  /** A whole canonicalization, from an element whose parent is not output. */
  lemma Apex(e: Elem, scope: Scope)
    requires KeepsPrefixes(e) && NsWellFormed(e, scope)
    ensures Render(Inclusive(true), e, false, scope, map[]) == Standard(e, None, scope)
    ensures forall mode: Mode, t | t in Render(mode, e, false, scope, map[]) :: Resolved(t, map[]) && Tidy(t, map[])
  {
    MeetsStandard(e, false, None, scope, map[]);
    forall mode: Mode, t | t in Render(mode, e, false, scope, map[]) ensures Resolved(t, map[]) && Tidy(t, map[]) {
      OutputRight(mode, e, false, scope, map[], t);
    }
  }

  // ---- canonical form is a fixed point -----------------------------------

  /** The output read as a source. */
  function Reread(t: Tag): Elem { Elem(t.prefix, t.decls, t.attrs, true, RereadAll(t.kids)) }

  function RereadAll(ts: seq<Tag>): (es: seq<Elem>)
    ensures |es| == |ts|
  {
    if ts == [] then [] else RereadAll(ts[..|ts| - 1]) + [Reread(ts[|ts| - 1])]
  }

  /** Tags alike but for the source scope noted on them. */
  predicate Alike(t: Tag, u: Tag)
    decreases t
  {
    && t.prefix == u.prefix && t.decls == u.decls && t.attrs == u.attrs && |t.kids| == |u.kids|
    && forall i | 0 <= i < |t.kids| :: Alike(t.kids[i], u.kids[i])
  }

  predicate AllAlike(ts: seq<Tag>, us: seq<Tag>) {
    |ts| == |us| && forall i | 0 <= i < |ts| :: Alike(ts[i], us[i])
  }

  /** Under the exclusive rule, declarations are of prefixes used or listed. */
  predicate Utilised(mode: Mode, t: Tag)
    decreases t
  {
    && (mode.Exclusive? ==> forall b | b in t.decls ::
          b.prefix == t.prefix || (b.prefix in t.attrs && b.prefix != "") || b.prefix in mode.prefixes)
    && forall k | k in t.kids :: Utilised(mode, k)
  }

  lemma {:induction false} OutputUtilised(mode: Mode, e: Elem, parentIn: bool, scope: Scope, rendered: Scope, t: Tag)
    requires t in Render(mode, e, parentIn, scope, rendered)
    ensures Utilised(mode, t)
    decreases e, 1
  {
    var inner := Declare(scope, e.decls);
    if e.chosen {
      var ps := ShownSet(mode, e, parentIn, inner, rendered);
      assert t.decls == Listing(ps, inner);
      ListingIs(ps, inner);
      forall b | b in t.decls && mode.Exclusive?
        ensures b.prefix == t.prefix || (b.prefix in t.attrs && b.prefix != "") || b.prefix in mode.prefixes
      {
        assert b.prefix in Candidates(mode, e, parentIn, inner);
      }
      forall k | k in t.kids ensures Utilised(mode, k) {
        KidsUtilised(mode, e, e.kids, true, inner, Declare(rendered, t.decls), k);
      }
    } else {
      KidsUtilised(mode, e, e.kids, false, inner, rendered, t);
    }
  }

  lemma {:induction false} KidsUtilised(mode: Mode, e: Elem, kids: seq<Elem>, parentIn: bool, scope: Scope,
                                        rendered: Scope, t: Tag)
    requires forall k | k in kids :: k < e
    requires t in RenderKids(mode, kids, parentIn, scope, rendered)
    ensures Utilised(mode, t)
    decreases e, 0, |kids|
  {
    var n := |kids| - 1;
    if t in RenderKids(mode, kids[..n], parentIn, scope, rendered) {
      forall k | k in kids[..n] ensures k < e { assert k in kids; }
      KidsUtilised(mode, e, kids[..n], parentIn, scope, rendered, t);
    } else {
      assert kids[n] in kids && t in Render(mode, kids[n], parentIn, scope, rendered);
      OutputUtilised(mode, kids[n], parentIn, scope, rendered, t);
    }
  }

  /** The declarations of tidy output, read as a source, are shown again. */
  lemma ShownAgain(mode: Mode, t: Tag, parentIn: bool, outside: Scope)
    requires Tidy(t, outside) && Utilised(mode, t)
    ensures Shown(mode, Reread(t), parentIn, Declare(outside, t.decls), outside) == t.decls
  {
    var here := Declare(outside, t.decls);
    DeclareKeys(outside, t.decls);
    forall b | b in t.decls ensures b.uri == Lookup(here, b.prefix) { AscendingDeclared(outside, t.decls, b); }
    var ps := ShownSet(mode, Reread(t), parentIn, here, outside);
    forall p | p in ps ensures p in Prefixes(t.decls) {
      if p !in Prefixes(t.decls) { DeclareOther(outside, t.decls, p); }
    }
    forall p | p in Prefixes(t.decls) ensures p in ps {
      var b :| b in t.decls && b.prefix == p;
    }
    assert ps == Prefixes(t.decls);
    ListingUnique(t.decls, here);
  }

  lemma {:induction false} AscendingDeclared(m: Scope, bs: seq<Binding>, b: Binding)
    requires Ascending(bs) && b in bs
    ensures Lookup(Declare(m, bs), b.prefix) == b.uri
    decreases |bs|
  {
    var m' := m[bs[0].prefix := bs[0].uri];
    var rest := bs[1..];
    forall i, j | 0 <= i < j < |rest| ensures Before(rest[i].prefix, rest[j].prefix) {
      assert rest[i] == bs[i + 1] && rest[j] == bs[j + 1];
    }
    if b in rest {
      AscendingDeclared(m', rest, b);
    } else {
      BeforeTotal(b.prefix, b.prefix);
      forall c | c in rest ensures c.prefix != b.prefix {
        var i :| 0 <= i < |rest| && rest[i] == c;
        assert bs[i + 1] == c && bs[0] == b;
      }
      DeclareOther(m', rest, b.prefix);
    }
  }

  /** Canonicalizing canonical output gives it back. */
  lemma {:induction false} FixedPoint(mode: Mode, t: Tag, parentIn: bool, outside: Scope)
    requires Tidy(t, outside) && Utilised(mode, t)
    ensures var out := Render(mode, Reread(t), parentIn, outside, outside);
            |out| == 1 && Alike(out[0], t)
    decreases t, 1
  {
    var here := Declare(outside, t.decls);
    ShownAgain(mode, t, parentIn, outside);
    KidsFixed(mode, t, t.kids, here);
  }

  lemma {:induction false} KidsFixed(mode: Mode, t: Tag, ts: seq<Tag>, outside: Scope)
    requires forall k | k in ts :: k < t && Tidy(k, outside) && Utilised(mode, k)
    ensures AllAlike(RenderKids(mode, RereadAll(ts), true, outside, outside), ts)
    decreases t, 0, |ts|
  {
    if ts != [] {
      var n := |ts| - 1;
      var es := RereadAll(ts);
      assert es[..n] == RereadAll(ts[..n]) && es[n] == Reread(ts[n]);
      KidsFixed(mode, t, ts[..n], outside);
      assert ts[n] in ts;
      FixedPoint(mode, ts[n], true, outside);
      var a := RenderKids(mode, es[..n], true, outside, outside);
      var b := Render(mode, es[n], true, outside, outside);
      assert RenderKids(mode, es, true, outside, outside) == a + b;
      forall i | 0 <= i < |ts| ensures Alike((a + b)[i], ts[i]) {
        if i < n { assert (a + b)[i] == a[i] && ts[..n][i] == ts[i]; }
      }
    }
  }

  /** So the output of a canonicalization, read again and canonicalized by the same rules,
      comes back. */
  lemma OutputFixed(mode: Mode, e: Elem, scope: Scope, t: Tag)
    requires NsWellFormed(e, scope) && t in Render(mode, e, false, scope, map[])
    ensures var out := Render(mode, Reread(t), false, map[], map[]);
            |out| == 1 && Alike(out[0], t)
  {
    OutputRight(mode, e, false, scope, map[], t);
    OutputUtilised(mode, e, false, scope, map[], t);
    FixedPoint(mode, t, false, map[]);
  }
}
