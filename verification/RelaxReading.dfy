/** What the validator reads of a document: which attributes, which strings, which names
    and tokens, stated without the functions that compute them. */
module RelaxReading {
  import opened Basics
  import opened RelaxSyntax
  import opened RelaxLanguage
  import opened RelaxRun

  // ---- attributes --------------------------------------------------------

  /** A binding of a prefix, or of the default namespace. */
  predicate Binds(a: Attr) { a.name.uri == "http://www.w3.org/2000/xmlns/" || a.name.local == "xmlns" }

  predicate Rises(at: seq<nat>) { forall i, j | 0 <= i < j < |at| :: at[i] < at[j] }

  /** `out` is what stands in `attrs` at the places `at`, which are those of all attributes
      that bind nothing. */
  ghost predicate AttrsAt(attrs: seq<Attr>, out: seq<Attr>, at: seq<nat>) {
    && Rises(at) && |at| == |out|
    && (forall i | 0 <= i < |at| :: at[i] < |attrs| && out[i] == attrs[at[i]])
    && (forall j: nat | j < |attrs| :: j in at <==> !Binds(attrs[j]))
  }

  /** Every attribute that binds nothing is kept, and in order. */
  lemma {:induction false} AttrsKept(attrs: seq<Attr>) returns (at: seq<nat>)
    ensures AttrsAt(attrs, ElementAttrs(attrs), at)
  {
    if attrs == [] {
      at := [];
    } else {
      var more := AttrsKept(attrs[1..]);
      at := (if Binds(attrs[0]) then [] else [0]) + Shifted(more);
      AttrsShifted(attrs, ElementAttrs(attrs[1..]), more);
    }
  }

  /** As often as it stands there. */
  lemma {:induction false} AttrsCounted(attrs: seq<Attr>, a: Attr)
    ensures multiset(ElementAttrs(attrs))[a] == if Binds(a) then 0 else multiset(attrs)[a]
  {
    if attrs != [] {
      AttrsCounted(attrs[1..], a);
      assert attrs == [attrs[0]] + attrs[1..];
    }
  }

  function Shifted(at: seq<nat>): seq<nat> { seq(|at|, i requires 0 <= i < |at| => at[i] + 1) }

  lemma AttrsShifted(attrs: seq<Attr>, out: seq<Attr>, more: seq<nat>)
    requires attrs != [] && AttrsAt(attrs[1..], out, more)
    ensures var first := !Binds(attrs[0]);
            AttrsAt(attrs, (if first then [attrs[0]] else []) + out, (if first then [0] else []) + Shifted(more))
  {
    AttrsLater(attrs, out, more);
    if !Binds(attrs[0]) {
      AttrsFirst(attrs, out, Shifted(more));
    } else {
      assert [] + out == out && [] + Shifted(more) == Shifted(more);
    }
  }

  /** The same places, of all attributes but the first. */
  ghost predicate AfterFirst(attrs: seq<Attr>, out: seq<Attr>, at: seq<nat>) {
    && Rises(at) && |at| == |out|
    && (forall i | 0 <= i < |at| :: 0 < at[i] < |attrs| && out[i] == attrs[at[i]])
    && (forall j: nat | 0 < j < |attrs| :: j in at <==> !Binds(attrs[j]))
  }

  lemma AttrsLater(attrs: seq<Attr>, out: seq<Attr>, more: seq<nat>)
    requires attrs != [] && AttrsAt(attrs[1..], out, more)
    ensures AfterFirst(attrs, out, Shifted(more)) && 0 !in Shifted(more)
  {
    forall j: nat | 0 < j < |attrs| ensures j in Shifted(more) <==> !Binds(attrs[j]) {
      ShiftedHas(more, j);
      assert attrs[j] == attrs[1..][j - 1];
    }
  }

  lemma AttrsFirst(attrs: seq<Attr>, out: seq<Attr>, at: seq<nat>)
    requires attrs != [] && !Binds(attrs[0]) && AfterFirst(attrs, out, at)
    ensures AttrsAt(attrs, [attrs[0]] + out, [0] + at)
  {
    assert ([0] + at)[0] == 0;
    forall j: nat | 0 < j < |attrs| ensures j in [0] + at <==> j in at {}
  }

  lemma ShiftedHas(at: seq<nat>, j: nat)
    requires j > 0
    ensures j in Shifted(at) <==> j - 1 in at
  {
    if j - 1 in at {
      var i :| 0 <= i < |at| && at[i] == j - 1;
      assert Shifted(at)[i] == j;
    }
  }

  // ---- content -----------------------------------------------------------

  /** The texts among the nodes, one after another. */
  function Joined(nodes: seq<Node>): string {
    if nodes == [] then "" else (if nodes[0].TextNode? then nodes[0].value else "") + Joined(nodes[1..])
  }

  /** What stands where there are no elements: the texts as one string, if there are any. */
  function Gap(nodes: seq<Node>): seq<Item> {
    if exists n | n in nodes :: n.TextNode? then [Str(Joined(nodes))] else []
  }

  /** All places at which an element stands. */
  ghost predicate Elements(nodes: seq<Node>, places: seq<nat>) {
    && Rises(places)
    && (forall i | 0 <= i < |places| :: places[i] < |nodes|)
    && (forall j: nat | j < |nodes| :: j in places <==> nodes[j].ElementNode?)
  }

  /** The elements in order, and between each and the next, before the first and after the
      last, what stands there. */
  ghost function Reading(nodes: seq<Node>, places: seq<nat>): seq<Item>
    requires Elements(nodes, places)
    decreases |places|
  {
    if places == [] then Gap(nodes)
    else
      ElementsAfter(nodes, places);
      Gap(nodes[..places[0]]) + ([ItemOf(nodes[places[0]])]
      + Reading(nodes[places[0] + 1..], Lowered(places[1..], places[0] + 1)))
  }

  function Lowered(places: seq<nat>, n: nat): seq<nat>
    requires forall i | 0 <= i < |places| :: places[i] >= n
  {
    seq(|places|, i requires 0 <= i < |places| => places[i] - n)
  }

  lemma ElementsAfter(nodes: seq<Node>, places: seq<nat>)
    requires Elements(nodes, places) && places != []
    ensures places[0] < |nodes| && nodes[places[0]].ElementNode?
    ensures forall i | 0 <= i < |places[1..]| :: places[1..][i] >= places[0] + 1
    ensures Elements(nodes[places[0] + 1..], Lowered(places[1..], places[0] + 1))
    ensures forall j: nat | j < places[0] :: !nodes[j].ElementNode?
  {
    var p := places[0];
    assert p in places;
    var (rest, low) := (nodes[p + 1..], Lowered(places[1..], p + 1));
    forall j: nat | j < |rest| ensures j in low <==> rest[j].ElementNode? {
      assert rest[j] == nodes[j + p + 1];
      if j + p + 1 in places {
        var i :| 0 <= i < |places| && places[i] == j + p + 1;
        assert low[i - 1] == j;
      }
      if j in low {
        var i :| 0 <= i < |low| && low[i] == j;
        assert places[i + 1] == j + p + 1;
      }
    }
  }

  lemma {:induction false} NoText(nodes: seq<Node>)
    requires forall n | n in nodes :: !n.TextNode?
    ensures Joined(nodes) == ""
  {
    if nodes != [] {
      assert nodes[0] in nodes && forall n | n in nodes[1..] :: n in nodes;
      NoText(nodes[1..]);
    }
  }

  /** One node more in front of a gap. */
  lemma GapStep(nodes: seq<Node>)
    requires nodes != []
    ensures Gap(nodes) == if nodes[0].TextNode? then [Str(nodes[0].value + Joined(nodes[1..]))] else Gap(nodes[1..])
    ensures Gap(nodes[1..]) == [] ==> Joined(nodes[1..]) == ""
  {
    assert nodes == [nodes[0]] + nodes[1..] && nodes[0] in nodes;
    if forall n | n in nodes[1..] :: !n.TextNode? { NoText(nodes[1..]); }
    if !nodes[0].TextNode? {
      assert (exists n | n in nodes :: n.TextNode?) <==> exists n | n in nodes[1..] :: n.TextNode?;
      assert "" + Joined(nodes[1..]) == Joined(nodes[1..]);
    }
  }

  /** Without elements there is one string at most. */
  lemma {:induction false} GapIs(nodes: seq<Node>)
    requires forall n | n in nodes :: !n.ElementNode?
    ensures Items(nodes) == Gap(nodes)
  {
    if nodes != [] {
      assert nodes[0] in nodes && forall n | n in nodes[1..] :: n in nodes;
      GapIs(nodes[1..]);
      GapStep(nodes);
      if nodes[0].TextNode? && Gap(nodes[1..]) == [] { assert nodes[0].value + "" == nodes[0].value; }
    }
  }

  /** What comes before an element does not touch what comes after it. */
  lemma {:induction false} ItemsAround(front: seq<Node>, e: Node, back: seq<Node>)
    requires e.ElementNode? && forall n | n in front :: !n.ElementNode?
    ensures Items(front + ([e] + back)) == Gap(front) + ([ItemOf(e)] + Items(back))
    decreases |front|
  {
    var nodes := front + ([e] + back);
    if front == [] {
      assert nodes == [e] + back && nodes[1..] == back;
    } else {
      assert front[0] in front && forall n | n in front[1..] :: n in front;
      assert nodes[0] == front[0] && nodes[1..] == front[1..] + ([e] + back);
      ItemsAround(front[1..], e, back);
      FrontMore(front, [ItemOf(e)] + Items(back));
    }
  }

  function InFront(n: Node, m: seq<Item>): seq<Item>
    requires !n.ElementNode?
  {
    if n.OtherNode? then m
    else if m != [] && m[0].Str? then [Str(n.value + m[0].s)] + m[1..] else [Str(n.value)] + m
  }

  lemma FrontMore(front: seq<Node>, rest: seq<Item>)
    requires front != [] && !front[0].ElementNode? && rest != [] && rest[0].Elem?
    ensures Gap(front) + rest == InFront(front[0], Gap(front[1..]) + rest)
  {
    GapStep(front);
    var gap := Gap(front[1..]);
    if gap == [] {
      assert gap + rest == rest && front[0].TextNode? ==> front[0].value + "" == front[0].value;
    } else {
      assert (gap + rest)[0] == gap[0] && (gap + rest)[1..] == gap[1..] + rest;
    }
  }

  /** Of every list of nodes: the items read are the elements, one for one and in order, and
      between them the texts as one string wherever there is text. */
  lemma {:induction false} ItemsRead(nodes: seq<Node>, places: seq<nat>)
    requires Elements(nodes, places)
    ensures Items(nodes) == Reading(nodes, places)
    decreases |places|
  {
    if places == [] {
      forall n | n in nodes ensures !n.ElementNode? {
        var j :| 0 <= j < |nodes| && nodes[j] == n;
        assert j !in places;
      }
      GapIs(nodes);
    } else {
      var p := places[0];
      ElementsAfter(nodes, places);
      var (front, e, back) := (nodes[..p], nodes[p], nodes[p + 1..]);
      assert nodes == front + ([e] + back);
      ItemsAround(front, e, back);
      ItemsRead(back, Lowered(places[1..], p + 1));
    }
  }

  lemma {:induction false} PlacesExist(nodes: seq<Node>) returns (places: seq<nat>)
    ensures Elements(nodes, places)
    decreases |nodes|
  {
    places := [];
    if nodes != [] {
      var n := |nodes| - 1;
      var early := PlacesExist(nodes[..n]);
      places := early + if nodes[n].ElementNode? then [n] else [];
      forall j: nat | j < |nodes| ensures j in places <==> nodes[j].ElementNode? {
        if j < n { assert nodes[j] == nodes[..n][j]; }
      }
    }
  }

  /** Of every element: its name, its bindings, its attributes but for the bindings, and its
      content. */
  lemma ElementRead(n: Node) returns (at: seq<nat>, places: seq<nat>)
    requires n.ElementNode?
    ensures Elements(n.children, places)
    ensures exists attrs :: AttrsAt(n.attrs, attrs, at)
                         && ItemOf(n) == Elem(n.tag, n.cx, attrs, Reading(n.children, places))
  {
    at := AttrsKept(n.attrs);
    places := PlacesExist(n.children);
    ItemsRead(n.children, places);
    assert AttrsAt(n.attrs, ElementAttrs(n.attrs), at);
  }

  // ---- tokens ------------------------------------------------------------

  predicate Blank(s: string) { forall i | 0 <= i < |s| :: s[i] in " \t\n\r" }

  predicate Solid(s: string) { s != "" && forall i | 0 <= i < |s| :: s[i] !in " \t\n\r" }

  /** White space is the four characters of XML. */
  lemma WhitespaceIs(s: string)
    ensures WhitespaceOnly(s) <==> Blank(s)
  {
  }

  /** Tokens with white space before each, and after the last. */
  function Spaced(gaps: seq<string>, tokens: seq<string>, last: string): string
    requires |gaps| == |tokens|
  {
    if tokens == [] then last else gaps[0] + (tokens[0] + Spaced(gaps[1..], tokens[1..], last))
  }

  /** However tokens are spaced, if no two touch, splitting gives them back. */
  lemma {:induction false} TokensRead(gaps: seq<string>, tokens: seq<string>, last: string)
    requires |gaps| == |tokens| && Blank(last)
    requires forall i | 0 <= i < |tokens| :: Blank(gaps[i]) && Solid(tokens[i]) && (i > 0 ==> gaps[i] != "")
    ensures SplitTokens(Spaced(gaps, tokens, last)) == tokens
    decreases |tokens|
  {
    if tokens == [] {
      assert last + "" == last;
      SkipsBlank(last, "");
    } else {
      var rest := Spaced(gaps[1..], tokens[1..], last);
      TokensRead(gaps[1..], tokens[1..], last);
      SkipsBlank(gaps[0], tokens[0] + rest);
      SpacedFirst(gaps, tokens, last);
      FirstToken(tokens[0], rest);
    }
  }

  lemma SpacedFirst(gaps: seq<string>, tokens: seq<string>, last: string)
    requires |gaps| == |tokens| > 0 && Blank(last)
    requires forall i | 0 <= i < |tokens| :: Blank(gaps[i]) && (i > 0 ==> gaps[i] != "")
    ensures var rest := Spaced(gaps[1..], tokens[1..], last); rest == "" || IsSpace(rest[0])
  {
    if |tokens| > 1 {
      assert gaps[1..][0] == gaps[1] && Blank(gaps[1]);
    }
  }

  lemma {:induction false} SkipsBlank(b: string, s: string)
    requires Blank(b)
    ensures SplitTokens(b + s) == SplitTokens(s)
    decreases |b|
  {
    if b == "" {
      assert b + s == s;
    } else {
      assert (b + s)[1..] == b[1..] + s;
      SkipsBlank(b[1..], s);
    }
  }

  lemma FirstToken(t: string, rest: string)
    requires Solid(t) && (rest == "" || IsSpace(rest[0]))
    ensures SplitTokens(t + rest) == [t] + SplitTokens(rest)
  {
    LengthIs(t, rest);
    assert (t + rest)[..|t|] == t && (t + rest)[|t|..] == rest;
  }

  lemma {:induction false} LengthIs(t: string, rest: string)
    requires (forall i | 0 <= i < |t| :: !IsSpace(t[i])) && (rest == "" || IsSpace(rest[0]))
    ensures TokenLength(t + rest) == |t|
    decreases |t|
  {
    if t == "" {
      assert t + rest == rest;
    } else {
      assert (t + rest)[0] == t[0] && (t + rest)[1..] == t[1..] + rest;
      LengthIs(t[1..], rest);
    }
  }

  // ---- names -------------------------------------------------------------

  /** The names of a class, as a set. */
  ghost function NamesOf(nc: NameClass): iset<QName> {
    match nc
    case AnyName(x) => iset q: QName {:trigger q.local} | q !in if x.None? then iset{} else NamesOf(x.value)
    case NsName(ns, x) => (iset q: QName | q.uri == ns) - (if x.None? then iset{} else NamesOf(x.value))
    case Name(q) => iset{q}
    case NameChoice(l, r) => NamesOf(l) + NamesOf(r)
  }

  lemma {:induction false} NamesAre(nc: NameClass, q: QName)
    ensures nc.Contains(q) <==> q in NamesOf(nc)
  {
    match nc
    case AnyName(x) => if x.Some? { NamesAre(x.value, q); }
    case NsName(_, x) => if x.Some? { NamesAre(x.value, q); }
    case Name(_) =>
    case NameChoice(l, r) => NamesAre(l, q); NamesAre(r, q);
  }
}
