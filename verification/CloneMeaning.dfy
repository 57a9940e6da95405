/** What records hold, read by following their links; and what an edit does to a document
    read from left to right. */
module CloneMeaning {
  import opened CloneLayout

  // ---- records read by their links ---------------------------------------

  /** The records from `x` on hold `t`, under `parent` and behind the sibling `prev`. */
  ghost predicate Holds(rs: seq<Rec>, x: nat, t: Tree, parent: int, prev: int)
    decreases t, 1
  {
    && x < |rs| && rs[x].parent == parent && rs[x].prev == prev && rs[x].data == t.data
    && match t
       case Text(_) => rs[x].kind == Leaf && rs[x].end == x + 1 && rs[x].last == NONE && rs[x].nattr == 0
       case Inner(element, _, attrs, kids) =>
         && rs[x].kind == (if element then Element else Document) && rs[x].nattr == |attrs|
         && (forall i | 0 <= i < |attrs| :: IsAttribute(rs, x + 1 + i, attrs[i], x))
         && HoldAll(rs, x + 1 + |attrs|, kids, rs[x].end, x, NONE, rs[x].last)
  }

  predicate IsAttribute(rs: seq<Rec>, x: nat, data: nat, owner: nat) {
    x < |rs| && rs[x] == Rec(Attribute, data, owner, NONE, x + 1, NONE, 0)
  }

  /** The siblings from `x` up to `end`, each beginning where the one before ends; `last` is
      the last of them. */
  ghost predicate HoldAll(rs: seq<Rec>, x: nat, kids: seq<Tree>, end: nat, parent: int, prev: int, last: int)
    decreases kids, 0
  {
    if kids == [] then x == end && last == prev
    else
      && Holds(rs, x, kids[0], parent, prev)
      && HoldAll(rs, rs[x].end, kids[1..], end, parent, x, last)
  }

  lemma {:induction false} AttrAt(attrs: seq<nat>, at: nat, owner: int, i: nat)
    requires i < |attrs|
    ensures AttrRecs(attrs, at, owner)[i] == Rec(Attribute, attrs[i], owner, NONE, at + i + 1, NONE, 0)
    decreases |attrs|
  {
    if i < |attrs| - 1 { AttrAt(attrs[..|attrs| - 1], at, owner, i); }
  }

  /** Somewhere among records stands a part. */
  predicate PartAt(rs: seq<Rec>, x: nat, part: seq<Rec>) { x + |part| <= |rs| && rs[x..x + |part|] == part }

  lemma PartsAt(rs: seq<Rec>, x: nat, a: seq<Rec>, b: seq<Rec>)
    requires PartAt(rs, x, a + b)
    ensures PartAt(rs, x, a) && PartAt(rs, x + |a|, b)
  {
    assert rs[x..x + |a + b|][..|a|] == a && rs[x..x + |a + b|][|a|..] == b;
  }

  /** A layout holds the tree it lays out, every link leading where it should. */
  lemma {:induction false} LayoutHolds(rs: seq<Rec>, x: nat, t: Tree, parent: int, prev: int)
    requires PartAt(rs, x, Layout(t, x, parent, prev))
    ensures Holds(rs, x, t, parent, prev) && rs[x].end == x + Size(t)
    decreases t, 1
  {
    FirstOf(rs, x, Layout(t, x, parent, prev));
    if t.Inner? {
      var first := x + 1 + |t.attrs|;
      PartsOf(rs, x, Layout(t, x, parent, prev)[0], AttrRecs(t.attrs, x + 1, x), LayoutAll(t.kids, first, x, NONE));
      AttrsHold(rs, x, t.attrs);
      AllHold(rs, first, t.kids, x, NONE, x + Size(t), LastOf(t.kids, first, NONE));
      InnerHolds(rs, x, t, parent, prev, x + Size(t), LastOf(t.kids, first, NONE));
    }
  }

  lemma InnerHolds(rs: seq<Rec>, x: nat, t: Tree, parent: int, prev: int, end: nat, last: int)
    requires t.Inner? && x < |rs|
    requires rs[x] == Rec(if t.element then Element else Document, t.data, parent, prev, end, last, |t.attrs|)
    requires forall i | 0 <= i < |t.attrs| :: IsAttribute(rs, x + 1 + i, t.attrs[i], x)
    requires HoldAll(rs, x + 1 + |t.attrs|, t.kids, end, x, NONE, last)
    ensures Holds(rs, x, t, parent, prev)
  {
  }

  lemma FirstOf(rs: seq<Rec>, x: nat, part: seq<Rec>)
    requires PartAt(rs, x, part) && part != []
    ensures x < |rs| && rs[x] == part[0]
  {
    assert rs[x..x + |part|][0] == rs[x];
  }

  lemma PartsOf(rs: seq<Rec>, x: nat, r: Rec, attrs: seq<Rec>, kids: seq<Rec>)
    requires PartAt(rs, x, [r] + attrs + kids)
    ensures PartAt(rs, x + 1, attrs) && PartAt(rs, x + 1 + |attrs|, kids)
  {
    assert [r] + attrs + kids == [r] + (attrs + kids);
    PartsAt(rs, x, [r], attrs + kids);
    PartsAt(rs, x + 1, attrs, kids);
  }

  lemma AttrsHold(rs: seq<Rec>, x: nat, attrs: seq<nat>)
    requires PartAt(rs, x + 1, AttrRecs(attrs, x + 1, x))
    ensures forall i | 0 <= i < |attrs| :: IsAttribute(rs, x + 1 + i, attrs[i], x)
  {
    forall i | 0 <= i < |attrs| ensures IsAttribute(rs, x + 1 + i, attrs[i], x) {
      AttrAt(attrs, x + 1, x, i);
      assert rs[x + 1..x + 1 + |attrs|][i] == rs[x + 1 + i];
    }
  }

  lemma {:induction false} AllHold(rs: seq<Rec>, x: nat, kids: seq<Tree>, parent: int, prev: int, end: nat,
                                   last: int)
    requires PartAt(rs, x, LayoutAll(kids, x, parent, prev))
    requires end == x + SizeAll(kids) && last == LastOf(kids, x, prev)
    ensures HoldAll(rs, x, kids, end, parent, prev, last)
    decreases kids, 0
  {
    if kids != [] {
      var (t, after) := (kids[0], kids[1..]);
      KidParts(rs, x, kids, parent, prev);
      LayoutHolds(rs, x, t, parent, prev);
      AllHold(rs, x + Size(t), after, parent, x, end, last);
      HoldMore(rs, x, kids, t, after, x + Size(t), end, parent, prev, last);
    }
  }

  lemma KidParts(rs: seq<Rec>, x: nat, kids: seq<Tree>, parent: int, prev: int)
    requires kids != [] && PartAt(rs, x, LayoutAll(kids, x, parent, prev))
    ensures PartAt(rs, x, Layout(kids[0], x, parent, prev))
    ensures PartAt(rs, x + Size(kids[0]), LayoutAll(kids[1..], x + Size(kids[0]), parent, x))
  {
    PartsAt(rs, x, Layout(kids[0], x, parent, prev), LayoutAll(kids[1..], x + Size(kids[0]), parent, x));
  }

  lemma HoldMore(rs: seq<Rec>, x: nat, kids: seq<Tree>, t: Tree, after: seq<Tree>, next: nat, end: nat, parent: int,
                 prev: int, last: int)
    requires kids != [] && t == kids[0] && after == kids[1..] && Holds(rs, x, t, parent, prev) && rs[x].end == next
    requires HoldAll(rs, next, after, end, parent, x, last)
    ensures HoldAll(rs, x, kids, end, parent, prev, last)
  {
  }

  // ---- edits from left to right ------------------------------------------

  /** A document read from left to right. */
  datatype Token = Opens(element: bool, data: nat, attrs: seq<nat>) | Says(data: nat) | Closes

  function Tokens(t: Tree): seq<Token>
    decreases t, 1
  {
    match t
    case Text(d) => [Says(d)]
    case Inner(element, d, attrs, kids) => [Opens(element, d, attrs)] + TokensOf(kids) + [Closes]
  }

  function TokensOf(kids: seq<Tree>): seq<Token>
    decreases kids, 0
  {
    if kids == [] then [] else Tokens(kids[0]) + TokensOf(kids[1..])
  }

  /** Each token edited on its own: `x` counts the records read before, one for a text and
      one for an element and each of its attributes. */
  function Edited(ts: seq<Token>, x: nat, ed: Edits): seq<Token>
    decreases |ts|
  {
    if ts == [] then []
    else
      match ts[0]
      case Opens(element, d, attrs) =>
        [Opens(element, d, attrs + if element then ed.add(x) else [])] + Edited(ts[1..], x + 1 + |attrs|, ed)
      case Says(d) => (if ed.drop(x) then [] else [Says(d)]) + Edited(ts[1..], x + 1, ed)
      case Closes => [Closes] + Edited(ts[1..], x, ed)
  }

  lemma OneToken(a: Token, ts: seq<Token>, x: nat, ed: Edits)
    ensures Edited([a] + ts, x, ed)
         == match a
            case Opens(element, d, attrs) =>
              [Opens(element, d, attrs + if element then ed.add(x) else [])] + Edited(ts, x + 1 + |attrs|, ed)
            case Says(d) => (if ed.drop(x) then [] else [Says(d)]) + Edited(ts, x + 1, ed)
            case Closes => [Closes] + Edited(ts, x, ed)
  {
    assert ([a] + ts)[1..] == ts;
  }

  /** The edited tree reads as the tokens edited one by one. */
  lemma {:induction false} EditReads(t: Tree, x: nat, ed: Edits, more: seq<Token>)
    requires t.Inner?
    ensures Edited(Tokens(t) + more, x, ed) == Tokens(Edit(t, x, ed)) + Edited(more, x + Size(t), ed)
    decreases t, 1
  {
    var Inner(element, d, attrs, kids) := t;
    var first := x + 1 + |attrs|;
    var (a, b) := (Opens(element, d, attrs), Opens(element, d, attrs + if element then ed.add(x) else []));
    var (read, edited, after) := (TokensOf(kids), TokensOf(EditAll(kids, first, ed)), Edited(more, x + Size(t), ed));
    Bracketed(a, read, more);
    OneToken(a, read + ([Closes] + more), x, ed);
    OneToken(Closes, more, first + SizeAll(kids), ed);
    EditReadsAll(kids, first, ed, [Closes] + more, [Closes] + after);
    Bracketed(b, edited, after);
    assert Tokens(Edit(t, x, ed)) == [b] + edited + [Closes];
  }

  lemma Bracketed(a: Token, inner: seq<Token>, more: seq<Token>)
    ensures [a] + inner + [Closes] + more == [a] + (inner + ([Closes] + more))
  {
  }

  /** What is left to read of a child. */
  function KidReads(t: Tree, x: nat, ed: Edits): seq<Token> {
    if t.Text? && ed.drop(x) then [] else Tokens(Edit(t, x, ed))
  }

  lemma {:induction false} EditReadsAll(kids: seq<Tree>, x: nat, ed: Edits, more: seq<Token>, after: seq<Token>)
    requires after == Edited(more, x + SizeAll(kids), ed)
    ensures Edited(TokensOf(kids) + more, x, ed) == TokensOf(EditAll(kids, x, ed)) + after
    decreases kids, 0
  {
    if kids == [] {
      assert TokensOf(kids) + more == more;
    } else {
      var (t, others) := (kids[0], kids[1..]);
      var next := x + Size(t);
      KidEdits(t, x, ed, TokensOf(others) + more);
      EditReadsAll(others, next, ed, more, after);
      EditedFirst(t, kids, x, ed);
      Regroup(Tokens(t), TokensOf(others), more);
      Regroup(KidReads(t, x, ed), TokensOf(EditAll(others, next, ed)), after);
    }
  }

  lemma {:induction false} KidEdits(t: Tree, x: nat, ed: Edits, rest: seq<Token>)
    ensures Edited(Tokens(t) + rest, x, ed) == KidReads(t, x, ed) + Edited(rest, x + Size(t), ed)
    decreases t, 2
  {
    if t.Inner? { EditReads(t, x, ed, rest); } else { OneToken(Says(t.data), rest, x, ed); }
  }

  lemma Regroup(a: seq<Token>, b: seq<Token>, c: seq<Token>)
    ensures (a + b) + c == a + (b + c)
  {
  }

  lemma EditedFirst(t: Tree, kids: seq<Tree>, x: nat, ed: Edits)
    requires kids != [] && t == kids[0]
    ensures TokensOf(EditAll(kids, x, ed)) == KidReads(t, x, ed) + TokensOf(EditAll(kids[1..], x + Size(t), ed))
  {
    var after := EditAll(kids[1..], x + Size(t), ed);
    if t.Text? && ed.drop(x) {
      assert EditAll(kids, x, ed) == after;
    } else {
      assert EditAll(kids, x, ed) == [Edit(t, x, ed)] + after;
      assert ([Edit(t, x, ed)] + after)[1..] == after;
    }
  }
}
