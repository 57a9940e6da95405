/** Records renumbered and written where the index says are the layout of the edited
    tree. */
module CloneLaws {
  import opened CloneLayout

  /** The records from `b` on are those of `t` laid out there. */
  ghost predicate Lies(job: Job, t: Tree, b: nat, p: int, q: int)
    decreases t, 1
  {
    && Linked(job, b, p, q) && b + Size(t) <= job.hi <= |job.recs|
    && match t {
         case Text(d) => job.recs[b] == Rec(Leaf, d, p, q, b + 1, NONE, 0)
         case Inner(element, d, attrs, kids) =>
           HeadAt(job, t, b)
           && job.recs[b] == Head(t, b, p, q)
           && AllLie(job, kids, b + 1 + |attrs|, b, NONE)
       }
  }

  ghost predicate AllLie(job: Job, kids: seq<Tree>, c: nat, p: int, q: int)
    decreases kids, 0
  {
    && job.lo < c && Linked(job, c, p, q) && c + SizeAll(kids) <= job.hi <= |job.recs|
    && (kids != [] ==> Lies(job, kids[0], c, p, q) && AllLie(job, kids[1..], c + Size(kids[0]), p, c))
  }

  /** Links lead back, and not out of what is cloned. */
  ghost predicate Linked(job: Job, b: nat, p: int, q: int) {
    job.lo <= b && p < b && q < b && (b != job.lo ==> job.lo <= p && (q == NONE || job.lo <= q))
  }

  /** A node's record with those of its attributes. */
  ghost predicate HeadAt(job: Job, t: Tree, b: nat) {
    && t.Inner? && job.lo <= b && b + 1 + |t.attrs| <= job.hi <= |job.recs|
    && job.recs[b].kind == (if t.element then Element else Document) && job.recs[b].nattr == |t.attrs|
    && forall i: nat {:trigger Now(i)} :: Now(i) && i < |t.attrs| ==>
         job.recs[b + 1 + i] == Rec(Attribute, t.attrs[i], b, NONE, b + 2 + i, NONE, 0)
  }

  lemma AttrsLie(job: Job, attrs: seq<nat>, b: nat)
    requires b + 1 + |attrs| <= |job.recs| && job.recs[b + 1..b + 1 + |attrs|] == AttrRecs(attrs, b + 1, b)
    ensures forall i | 0 <= i < |attrs| :: job.recs[b + 1 + i] == Rec(Attribute, attrs[i], b, NONE, b + 2 + i, NONE, 0)
  {
    forall i | 0 <= i < |attrs|
      ensures job.recs[b + 1 + i] == Rec(Attribute, attrs[i], b, NONE, b + 2 + i, NONE, 0)
    {
      assert job.recs[b + 1 + i] == job.recs[b + 1..b + 1 + |attrs|][i];
      AttrAt(attrs, b + 1, b, i);
    }
  }

  lemma Thirds(rs: seq<Rec>, b: nat, head: Rec, attrs: seq<Rec>, kids: seq<Rec>)
    requires b + 1 + |attrs| + |kids| <= |rs| && rs[b..b + 1 + |attrs| + |kids|] == [head] + attrs + kids
    ensures var (first, end) := (b + 1 + |attrs|, b + 1 + |attrs| + |kids|);
            rs[b] == head && rs[b + 1..first] == attrs && rs[first..end] == kids
  {
    var (n, all) := (|attrs|, rs[b..b + 1 + |attrs| + |kids|]);
    assert rs[b] == all[0];
    ThreeParts(head, attrs, kids);
    Within(rs, b, 1 + n + |kids|, 1, 1 + n);
    Within(rs, b, 1 + n + |kids|, 1 + n, 1 + n + |kids|);
  }

  lemma ThreeParts(head: Rec, attrs: seq<Rec>, kids: seq<Rec>)
    ensures var (n, all) := (|attrs|, [head] + attrs + kids);
            all[0] == head && all[1..1 + n] == attrs && all[1 + n..1 + n + |kids|] == kids
  {
    var front := [head] + attrs;
    assert |front| == 1 + |attrs|;
    assert (front + kids)[1..|front|] == front[1..];
  }

  lemma Within(rs: seq<Rec>, b: nat, n: nat, i: nat, j: nat)
    requires i <= j <= n && b + n <= |rs|
    ensures rs[b..b + n][i..j] == rs[b + i..b + j]
  {
    var all := rs[b..b + n];
    assert forall k | i <= k < j :: all[i..j][k - i] == all[k] == rs[b + k] == rs[b + i..b + j][k - i];
  }

  /** A node's own record, where it is laid out. */
  function Head(t: Tree, b: nat, p: int, q: int): Rec
    requires t.Inner?
  {
    Rec(if t.element then Element else Document, t.data, p, q, b + Size(t), LastOf(t.kids, b + 1 + |t.attrs|, NONE),
        |t.attrs|)
  }

  lemma LayoutParts(t: Tree, b: nat, p: int, q: int)
    requires t.Inner?
    ensures Layout(t, b, p, q) == [Head(t, b, p, q)] + AttrRecs(t.attrs, b + 1, b)
                                  + LayoutAll(t.kids, b + 1 + |t.attrs|, b, NONE)
    ensures Size(t) == 1 + |t.attrs| + SizeAll(t.kids)
  {
  }

  lemma {:induction false} LayoutLies(job: Job, t: Tree, b: nat, p: int, q: int)
    requires Linked(job, b, p, q) && b + Size(t) <= job.hi <= |job.recs|
    requires job.recs[b..b + Size(t)] == Layout(t, b, p, q)
    ensures Lies(job, t, b, p, q)
    decreases t, 1
  {
    if t.Inner? {
      var first := b + 1 + |t.attrs|;
      LayoutParts(t, b, p, q);
      Thirds(job.recs, b, Head(t, b, p, q), AttrRecs(t.attrs, b + 1, b), LayoutAll(t.kids, first, b, NONE));
      AttrsLie(job, t.attrs, b);
      LayoutAllLie(job, t, t.kids, first, b, NONE);
    } else {
      assert job.recs[b] == job.recs[b..b + Size(t)][0];
    }
  }

  lemma {:induction false} LayoutAllLie(job: Job, t: Tree, kids: seq<Tree>, c: nat, p: int, q: int)
    requires job.lo < c && Linked(job, c, p, q) && c + SizeAll(kids) <= job.hi <= |job.recs|
    requires job.recs[c..c + SizeAll(kids)] == LayoutAll(kids, c, p, q) && forall k | k in kids :: k < t
    ensures AllLie(job, kids, c, p, q)
    decreases t, 0, |kids|
  {
    if kids != [] {
      assert kids[0] in kids;
      KidsApart(job.recs, kids, c, p, q);
      LayoutLies(job, kids[0], c, p, q);
      forall k | k in kids[1..] ensures k < t { assert k in kids; }
      LayoutAllLie(job, t, kids[1..], c + Size(kids[0]), p, c);
    }
  }

  lemma KidsApart(rs: seq<Rec>, kids: seq<Tree>, c: nat, p: int, q: int)
    requires kids != [] && c + SizeAll(kids) <= |rs| && rs[c..c + SizeAll(kids)] == LayoutAll(kids, c, p, q)
    ensures var (d, end) := (c + Size(kids[0]), c + SizeAll(kids));
            d <= end && end == d + SizeAll(kids[1..])
            && rs[c..d] == Layout(kids[0], c, p, q) && rs[d..end] == LayoutAll(kids[1..], d, p, c)
  {
    var n := Size(kids[0]);
    Halves(rs, c, n, SizeAll(kids[1..]), Layout(kids[0], c, p, q), LayoutAll(kids[1..], c + n, p, c));
  }

  lemma Halves(rs: seq<Rec>, c: nat, n: nat, m: nat, one: seq<Rec>, rest: seq<Rec>)
    requires c + (n + m) <= |rs| && |one| == n && |rest| == m && rs[c..c + (n + m)] == one + rest
    ensures rs[c..c + n] == one && rs[c + n..c + n + m] == rest
  {
    assert rs[c..c + n] == (one + rest)[..n] == one;
    Within(rs, c, n + m, n, n + m);
    assert (one + rest)[n..n + m] == rest;
  }

  lemma {:induction false} AttrAt(attrs: seq<nat>, at: nat, owner: int, i: nat)
    requires i < |attrs|
    ensures AttrRecs(attrs, at, owner)[i] == Rec(Attribute, attrs[i], owner, NONE, at + i + 1, NONE, 0)
  {
    if i < |attrs| - 1 { AttrAt(attrs[..|attrs| - 1], at, owner, i); }
  }

  lemma {:induction false} AttrsJoin(a: seq<nat>, b: seq<nat>, at: nat, owner: int)
    ensures AttrRecs(a + b, at, owner) == AttrRecs(a, at, owner) + AttrRecs(b, at + |a|, owner)
    decreases |b|
  {
    if b == [] {
      assert a + b == a;
    } else {
      var n := |b| - 1;
      assert (a + b)[..|a| + n] == a + b[..n];
      AttrsJoin(a, b[..n], at, owner);
    }
  }

  // ---- a node and its attributes -----------------------------------------

  function Added(job: Job, t: Tree, b: nat): seq<nat> {
    if t.Inner? && t.element then job.ed.add(b) else []
  }

  /** Only past its last attribute does a node have attributes added. */
  lemma OwnerIs(job: Job, t: Tree, b: nat, i: nat)
    requires HeadAt(job, t, b) && i <= |t.attrs|
    ensures job.OwnerBefore(b + 1 + i) == if i == |t.attrs| && t.element then b else NONE
    ensures job.AddedBefore(b + 1 + i) == if i == |t.attrs| then Added(job, t, b) else []
    ensures !job.Dropped(b + i)
  {
    if i > 0 {
      assert Now(i - 1);
      assert job.recs[b + 1 + (i - 1)] == Rec(Attribute, t.attrs[i - 1], b, NONE, b + 1 + i, NONE, 0);
    }
  }

  lemma {:induction false} HeadPlaced(job: Job, index: seq<nat>, t: Tree, b: nat, i: nat)
    requires Numbered(job, index) && HeadAt(job, t, b) && i <= |t.attrs|
    ensures index[b + i] == index[b] + i
  {
    if i > 0 {
      HeadPlaced(job, index, t, b, i - 1);
      OwnerIs(job, t, b, i - 1);
      assert Now(b + i);
    }
  }

  lemma AttrCopied(job: Job, index: seq<nat>, out: seq<Rec>, t: Tree, b: nat, i: nat)
    requires Numbered(job, index) && Written(job, index, out) && HeadAt(job, t, b) && i < |t.attrs|
    ensures index[b] + 1 + i < |out|
    ensures out[index[b] + 1 + i] == Rec(Attribute, t.attrs[i], index[b], NONE, index[b] + 2 + i, NONE, 0)
  {
    HeadPlaced(job, index, t, b, i + 1);
    OwnerIs(job, t, b, i + 1);
    assert Now(i) && Now(b + 1 + i);
    assert job.recs[b + 1 + i] == Rec(Attribute, t.attrs[i], b, NONE, b + 2 + i, NONE, 0);
  }

  /** A node's attributes with those added, in the copy. */
  lemma HeadCopied(job: Job, index: seq<nat>, out: seq<Rec>, t: Tree, b: nat)
    requires Numbered(job, index) && Written(job, index, out) && HeadAt(job, t, b)
    ensures var (first, at) := (b + 1 + |t.attrs|, index[b]);
      && index[first] == at + 1 + |t.attrs| + |Added(job, t, b)| <= |out|
      && out[at] == job.Fixed(index, b)
      && out[at + 1..index[first]] == AttrRecs(t.attrs + Added(job, t, b), at + 1, at)
  {
    HeadEnds(job, index, out, t, b);
    HeadFixed(job, index, out, t, b);
    OwnAttrs(job, index, out, t, b);
    BothAttrs(out, t.attrs, Added(job, t, b), index[b], index[b + 1 + |t.attrs|]);
  }

  lemma HeadEnds(job: Job, index: seq<nat>, out: seq<Rec>, t: Tree, b: nat)
    requires Numbered(job, index) && Written(job, index, out) && HeadAt(job, t, b)
    ensures var (first, mid, more) := (b + 1 + |t.attrs|, index[b] + 1 + |t.attrs|, Added(job, t, b));
      && index[first] == mid + |more| <= |out|
      && (more != [] ==> out[mid..index[first]] == AttrRecs(more, mid, index[b]))
  {
    var n := |t.attrs|;
    HeadPlaced(job, index, t, b, n);
    OwnerIs(job, t, b, n);
    assert Now(b + 1 + n) && Now(b + n);
  }

  lemma HeadFixed(job: Job, index: seq<nat>, out: seq<Rec>, t: Tree, b: nat)
    requires Numbered(job, index) && Written(job, index, out) && HeadAt(job, t, b)
    ensures index[b] < |out| && out[index[b]] == job.Fixed(index, b)
  {
    OwnerIs(job, t, b, 0);
    assert Now(b);
  }

  lemma BothAttrs(out: seq<Rec>, attrs: seq<nat>, more: seq<nat>, at: nat, end: nat)
    requires end == at + 1 + |attrs| + |more| && end <= |out|
    requires out[at + 1..at + 1 + |attrs|] == AttrRecs(attrs, at + 1, at)
    requires more != [] ==> out[at + 1 + |attrs|..end] == AttrRecs(more, at + 1 + |attrs|, at)
    ensures out[at + 1..end] == AttrRecs(attrs + more, at + 1, at)
  {
    var mid := at + 1 + |attrs|;
    assert more == [] ==> AttrRecs(more, mid, at) == [];
    AttrsJoin(attrs, more, at + 1, at);
    TwoSlices(out, at + 1, mid, end, AttrRecs(attrs, at + 1, at), AttrRecs(more, mid, at));
  }

  lemma OwnAttrs(job: Job, index: seq<nat>, out: seq<Rec>, t: Tree, b: nat)
    requires Numbered(job, index) && Written(job, index, out) && HeadAt(job, t, b)
    requires index[b] + 1 + |t.attrs| <= |out|
    ensures out[index[b] + 1..index[b] + 1 + |t.attrs|] == AttrRecs(t.attrs, index[b] + 1, index[b])
  {
    var at := index[b];
    var mine := out[at + 1..at + 1 + |t.attrs|];
    forall i | 0 <= i < |t.attrs| ensures mine[i] == AttrRecs(t.attrs, at + 1, at)[i] {
      AttrCopied(job, index, out, t, b, i);
      AttrAt(t.attrs, at + 1, at, i);
    }
  }

  // ---- the index ---------------------------------------------------------

  /** The index leads every kept record to its copy, in order, none to another's. */
  lemma {:induction false} IndexRises(job: Job, index: seq<nat>, x: nat, y: nat)
    requires Numbered(job, index) && job.lo <= x < y <= job.hi
    ensures index[x] <= index[y] && (!job.Dropped(x) ==> index[x] < index[y])
    decreases y
  {
    assert Now(y);
    if x < y - 1 { IndexRises(job, index, x, y - 1); }
  }

  lemma IndexWithin(job: Job, index: seq<nat>, out: seq<Rec>, x: nat)
    requires Numbered(job, index) && Written(job, index, out) && job.lo <= x <= job.hi
    ensures index[x] <= |out|
  {
    if x < job.hi { IndexRises(job, index, x, job.hi); }
  }

  // ---- whole trees -------------------------------------------------------

  ghost predicate LeftOut(job: Job, t: Tree, b: nat) { t.Text? && b != job.lo && job.ed.drop(b) }

  function ParentLink(job: Job, index: seq<nat>, b: nat, p: int): int
    requires p < |index|
  {
    if b == job.lo || p < 0 then NONE else index[p]
  }

  function PrevLink(job: Job, index: seq<nat>, b: nat, q: int): int
    requires q < |job.recs| <= |index|
  {
    if b == job.lo then NONE else job.MapLink(index, q)
  }

  /** The records of a subtree have become those of the edited subtree, or nothing. */
  ghost predicate Copied(job: Job, index: seq<nat>, out: seq<Rec>, t: Tree, b: nat, p: int, q: int)
    requires b + Size(t) < |index| && p < |index| && q < |job.recs| <= |index|
  {
    var (at, end) := (index[b], index[b + Size(t)]);
    if LeftOut(job, t, b) then end == at
    else
      && end == at + Size(Edit(t, b, job.ed)) <= |out|
      && out[at..end] == Layout(Edit(t, b, job.ed), at, ParentLink(job, index, b, p), PrevLink(job, index, b, q))
  }

  lemma TextCopied(job: Job, index: seq<nat>, out: seq<Rec>, t: Tree, b: nat, p: int, q: int)
    requires Numbered(job, index) && Written(job, index, out) && Lies(job, t, b, p, q) && t.Text?
    ensures Copied(job, index, out, t, b, p, q)
  {
    assert Now(b) && Now(b + 1);
    assert job.OwnerBefore(b + 1) == NONE;
    assert job.Dropped(b) <==> LeftOut(job, t, b);
  }

  lemma {:induction false} TreeCopied(job: Job, index: seq<nat>, out: seq<Rec>, t: Tree, b: nat, p: int, q: int)
    requires Numbered(job, index) && Written(job, index, out) && Lies(job, t, b, p, q)
    ensures Copied(job, index, out, t, b, p, q)
    decreases t, 1
  {
    if t.Text? {
      TextCopied(job, index, out, t, b, p, q);
    } else {
      KidsCopied(job, index, out, t, t.kids, b + 1 + |t.attrs|, b, NONE);
      InnerCopied(job, index, out, t, b, p, q);
    }
  }

  lemma InnerCopied(job: Job, index: seq<nat>, out: seq<Rec>, t: Tree, b: nat, p: int, q: int)
    requires Numbered(job, index) && Written(job, index, out) && Lies(job, t, b, p, q) && t.Inner?
    requires AllCopied(job, index, out, t.kids, b + 1 + |t.attrs|, b, NONE)
    ensures Copied(job, index, out, t, b, p, q)
  {
    HeadCopied(job, index, out, t, b);
    IndexWithin(job, index, out, b + Size(t));
    NodeCopied(job, index, out, t, b, p, q);
  }

  /** A node's record, its attributes and its children together. */
  lemma NodeCopied(job: Job, index: seq<nat>, out: seq<Rec>, t: Tree, b: nat, p: int, q: int)
    requires t.Inner? && job.lo <= b && p < b && q < b && b + Size(t) <= job.hi <= |job.recs| == |index| - 1
    requires b != job.lo ==> p >= 0
    requires job.recs[b] == Head(t, b, p, q)
    requires LastOf(t.kids, b + 1 + |t.attrs|, NONE) < |job.recs|
    requires var (first, at, end) := (b + 1 + |t.attrs|, index[b], index[b + Size(t)]);
             var es := EditAll(t.kids, first, job.ed);
      && index[first] == at + 1 + |t.attrs| + |Added(job, t, b)| && end == index[first] + SizeAll(es) && end <= |out|
      && out[at] == job.Fixed(index, b)
      && out[at + 1..index[first]] == AttrRecs(t.attrs + Added(job, t, b), at + 1, at)
      && out[index[first]..end] == LayoutAll(es, index[first], at, NONE)
      && job.MapLink(index, LastOf(t.kids, first, NONE)) == LastOf(es, index[first], NONE)
    ensures Copied(job, index, out, t, b, p, q)
  {
    EditIs(t, b, job.ed);
    var (first, e) := (b + 1 + |t.attrs|, Edit(t, b, job.ed));
    var (at, end) := (index[b], index[b + Size(t)]);
    var (parent, prev) := (ParentLink(job, index, b, p), PrevLink(job, index, b, q));
    assert e.attrs == t.attrs + Added(job, t, b) && e.kids == EditAll(t.kids, first, job.ed);
    assert Size(e) == 1 + |e.attrs| + SizeAll(e.kids);
    HeadRenumbered(job, index, t, e, b, p, q);
    NodeJoined(out, e, at, index[first], end, parent, prev);
  }

  /** A node's record, its attributes and its children, as the layout has them. */
  lemma NodeJoined(out: seq<Rec>, e: Tree, at: nat, mid: nat, end: nat, p: int, q: int)
    requires e.Inner? && mid == at + 1 + |e.attrs| && end == mid + SizeAll(e.kids) <= |out|
    requires out[at] == Head(e, at, p, q) && out[at + 1..mid] == AttrRecs(e.attrs, at + 1, at)
    requires out[mid..end] == LayoutAll(e.kids, mid, at, NONE)
    ensures end == at + Size(e) && out[at..end] == Layout(e, at, p, q)
  {
    LayoutParts(e, at, p, q);
    Slices(out, at, mid, end);
  }

  /** A node's own record in the copy. */
  lemma HeadRenumbered(job: Job, index: seq<nat>, t: Tree, e: Tree, b: nat, p: int, q: int)
    requires t.Inner? && job.lo <= b && p < b && q < b && b + Size(t) <= job.hi <= |job.recs| == |index| - 1
    requires b != job.lo ==> p >= 0
    requires job.recs[b] == Head(t, b, p, q) && LastOf(t.kids, b + 1 + |t.attrs|, NONE) < |job.recs|
    requires e.Inner? && e.element == t.element && e.data == t.data && e.attrs == t.attrs + Added(job, t, b)
    requires index[b + Size(t)] == index[b] + Size(e)
    requires job.MapLink(index, LastOf(t.kids, b + 1 + |t.attrs|, NONE))
          == LastOf(e.kids, index[b] + 1 + |e.attrs|, NONE)
    ensures job.Fixed(index, b) == Head(e, index[b], ParentLink(job, index, b, p), PrevLink(job, index, b, q))
  {
  }

  lemma Slices(out: seq<Rec>, at: nat, mid: nat, end: nat)
    requires at < mid <= end <= |out|
    ensures out[at..end] == [out[at]] + out[at + 1..mid] + out[mid..end]
  {
  }

  lemma EditIs(t: Tree, b: nat, ed: Edits)
    requires t.Inner?
    ensures var e := Edit(t, b, ed);
      && e == Inner(t.element, t.data, t.attrs + (if t.element then ed.add(b) else []),
                    EditAll(t.kids, b + 1 + |t.attrs|, ed))
      && Size(e) == 1 + |e.attrs| + SizeAll(e.kids)
  {
  }

  /** Siblings laid out in part of the copy, `last` leading to the last of them. */
  ghost predicate Stand(out: seq<Rec>, es: seq<Tree>, at: nat, end: nat, p: int, q: int, last: int) {
    && end == at + SizeAll(es) && end <= |out| && out[at..end] == LayoutAll(es, at, p, q)
    && last == LastOf(es, at, q)
  }

  /** What a first child `e` has become between `at` and `mid`, `link` leading back to what
      is now the last before the others. */
  ghost predicate Begun(out: seq<Rec>, e: Tree, gone: bool, at: nat, mid: nat, p: int, q: int, link: int) {
    if gone then mid == at && link == q
    else mid == at + Size(e) <= |out| && link == at && out[at..mid] == Layout(e, at, p, q)
  }

  /** A first child, kept or gone, with the others. */
  lemma OneMoreStands(out: seq<Rec>, e: Tree, es: seq<Tree>, gone: bool, at: nat, mid: nat, end: nat, p: int, q: int,
                      link: int, last: int)
    requires Begun(out, e, gone, at, mid, p, q, link) && Stand(out, es, mid, end, p, link, last)
    ensures Stand(out, if gone then es else [e] + es, at, end, p, q, last)
  {
    if !gone {
      KidsJoin(e, es, at, p, q);
      TwoSlices(out, at, mid, end, Layout(e, at, p, q), LayoutAll(es, mid, p, at));
    }
  }

  /** What siblings have become. */
  ghost predicate AllCopied(job: Job, index: seq<nat>, out: seq<Rec>, kids: seq<Tree>, c: nat, p: nat, q: int)
    requires c + SizeAll(kids) < |index| && p < |index| && q < |job.recs| <= |index|
  {
    && LastOf(kids, c, q) < |job.recs|
    && Stand(out, EditAll(kids, c, job.ed), index[c], index[c + SizeAll(kids)], index[p], job.MapLink(index, q),
             job.MapLink(index, LastOf(kids, c, q)))
  }

  lemma {:induction false} KidsCopied(job: Job, index: seq<nat>, out: seq<Rec>, t: Tree, kids: seq<Tree>, c: nat,
                                      p: nat, q: int)
    requires Numbered(job, index) && Written(job, index, out)
    requires AllLie(job, kids, c, p, q) && forall k | k in kids :: k < t
    ensures AllCopied(job, index, out, kids, c, p, q)
    decreases t, 0, |kids|
  {
    IndexWithin(job, index, out, c);
    if kids != [] {
      var k := kids[0];
      assert k in kids;
      TreeCopied(job, index, out, k, c, p, q);
      forall x | x in kids[1..] ensures x < t { assert x in kids; }
      KidsCopied(job, index, out, t, kids[1..], c + Size(k), p, c);
      KidLink(job, index, k, c, p, q);
      FirstCopied(job, index, out, kids, c, p, q);
    }
  }

  /** What a first child has become, before what the others have. */
  lemma FirstCopied(job: Job, index: seq<nat>, out: seq<Rec>, kids: seq<Tree>, c: nat, p: nat, q: int)
    requires kids != [] && c != job.lo && p < c && q < c && c + SizeAll(kids) < |index| == |job.recs| + 1
    requires Copied(job, index, out, kids[0], c, p, q)
    requires AllCopied(job, index, out, kids[1..], c + Size(kids[0]), p, c)
    requires job.MapLink(index, c) == if LeftOut(job, kids[0], c) then job.MapLink(index, q) else index[c]
    ensures AllCopied(job, index, out, kids, c, p, q)
  {
    var (k, d) := (kids[0], c + Size(kids[0]));
    SiblingsSplit(kids, c, q);
    FirstBegun(job, index, out, k, c, p, q);
    OthersStand(job, index, out, kids, c, p, q);
    KidsTogether(out, kids, c, job.ed, LeftOut(job, k, c), index[c], index[d], index[c + SizeAll(kids)], index[p],
                 job.MapLink(index, q), job.MapLink(index, c), job.MapLink(index, LastOf(kids, c, q)));
  }

  lemma KidsTogether(out: seq<Rec>, kids: seq<Tree>, c: nat, ed: Edits, gone: bool, at: nat, mid: nat, end: nat,
                     p: int, q: int, link: int, last: int)
    requires kids != [] && (gone <==> kids[0].Text? && ed.drop(c))
    requires Begun(out, Edit(kids[0], c, ed), gone, at, mid, p, q, link)
    requires Stand(out, EditAll(kids[1..], c + Size(kids[0]), ed), mid, end, p, link, last)
    ensures Stand(out, EditAll(kids, c, ed), at, end, p, q, last)
  {
    EditAllIs(kids, c, ed);
    OneMoreStands(out, Edit(kids[0], c, ed), EditAll(kids[1..], c + Size(kids[0]), ed), gone, at, mid, end, p, q,
                  link, last);
  }

  lemma SiblingsSplit(kids: seq<Tree>, c: nat, q: int)
    requires kids != []
    ensures LastOf(kids, c, q) == LastOf(kids[1..], c + Size(kids[0]), c)
    ensures SizeAll(kids) == Size(kids[0]) + SizeAll(kids[1..])
  {
  }

  lemma OthersStand(job: Job, index: seq<nat>, out: seq<Rec>, kids: seq<Tree>, c: nat, p: nat, q: int)
    requires kids != [] && p < c && q < c && c + SizeAll(kids) < |index| == |job.recs| + 1
    requires SizeAll(kids) == Size(kids[0]) + SizeAll(kids[1..])
    requires LastOf(kids, c, q) == LastOf(kids[1..], c + Size(kids[0]), c)
    requires AllCopied(job, index, out, kids[1..], c + Size(kids[0]), p, c)
    ensures LastOf(kids, c, q) < |job.recs|
    ensures Stand(out, EditAll(kids[1..], c + Size(kids[0]), job.ed), index[c + Size(kids[0])],
                  index[c + SizeAll(kids)], index[p], job.MapLink(index, c),
                  job.MapLink(index, LastOf(kids, c, q)))
  {
  }

  lemma FirstBegun(job: Job, index: seq<nat>, out: seq<Rec>, k: Tree, c: nat, p: nat, q: int)
    requires c != job.lo && p < c && q < c && c + Size(k) < |index| == |job.recs| + 1
    requires Copied(job, index, out, k, c, p, q)
    requires job.MapLink(index, c) == if LeftOut(job, k, c) then job.MapLink(index, q) else index[c]
    ensures Begun(out, Edit(k, c, job.ed), LeftOut(job, k, c), index[c], index[c + Size(k)], index[p],
                  job.MapLink(index, q), job.MapLink(index, c))
  {
  }

  lemma TwoSlices(out: seq<Rec>, at: nat, mid: nat, end: nat, one: seq<Rec>, others: seq<Rec>)
    requires at <= mid <= end <= |out| && out[at..mid] == one && out[mid..end] == others
    ensures out[at..end] == one + others
  {
    assert out[at..end] == out[at..mid] + out[mid..end];
  }

  lemma EditAllIs(kids: seq<Tree>, c: nat, ed: Edits)
    requires kids != []
    ensures var es := EditAll(kids[1..], c + Size(kids[0]), ed);
            EditAll(kids, c, ed) == if kids[0].Text? && ed.drop(c) then es else [Edit(kids[0], c, ed)] + es
  {
  }

  /** A first child and the others, as the layout has them. */
  lemma KidsJoin(e: Tree, es: seq<Tree>, at: nat, p: int, q: int)
    ensures SizeAll([e] + es) == Size(e) + SizeAll(es)
    ensures LayoutAll([e] + es, at, p, q) == Layout(e, at, p, q) + LayoutAll(es, at + Size(e), p, at)
    ensures LastOf([e] + es, at, q) == LastOf(es, at + Size(e), at)
  {
    assert ([e] + es)[1..] == es;
  }

  /** A kept child is where the next one's link leads; past a dropped one, what was
      before it. */
  lemma KidLink(job: Job, index: seq<nat>, k: Tree, c: nat, p: int, q: int)
    requires Lies(job, k, c, p, q) && c != job.lo && |job.recs| <= |index|
    ensures job.MapLink(index, c) == if LeftOut(job, k, c) then job.MapLink(index, q) else index[c]
  {
    assert job.recs[c].prev == q && (job.recs[c].kind == Leaf <==> k.Text?);
  }

  // ---- the clone ---------------------------------------------------------

  /** The copy is the layout of the edited tree, on its own from index 0. */
  lemma CloneExact(job: Job, index: seq<nat>, out: seq<Rec>, t: Tree, p: int, q: int)
    requires Numbered(job, index) && Written(job, index, out)
    requires job.hi == job.lo + Size(t) && p < job.lo && q < job.lo
    requires job.recs[job.lo..job.hi] == Layout(t, job.lo, p, q)
    ensures out == Layout(Edit(t, job.lo, job.ed), 0, NONE, NONE)
  {
    LayoutLies(job, t, job.lo, p, q);
    TreeCopied(job, index, out, t, job.lo, p, q);
    assert out[0..|out|] == out;
  }
}
