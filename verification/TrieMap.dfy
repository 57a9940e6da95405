/** Maps of the data model: a trie, a count and the next sequence number; and the
    insertion-ordered list of pairs each stands for. */
module TrieMap {
  import opened Basics
  import opened TrieBits
  import opened Trie
  import opened TrieLaws
  import opened TrieChanges

  datatype MapItem = MapItem(root: Option<Node>, n: nat, next: nat)

  const NewMap := MapItem(None, 0, 0)

  type Hash = string -> nat

  // ---- the operations ----------------------------------------------------

  function MapPut(hash: Hash, m: MapItem, c: string, v: nat): MapItem {
    var e := Entry(c, hash(c), v, m.next);
    var (root, added) := match m.root
      case None => (Node(SetBit(0, Digit(e.hash, 0)), [Leaf(e)]), true)
      case Some(r) => Put(r, e, 0);
    if added then MapItem(Some(root), m.n + 1, m.next + 1) else MapItem(Some(root), m.n, m.next)
  }

  function MapGet(hash: Hash, m: MapItem, c: string): Option<nat> {
    if m.root.None? then None
    else
      match Get(m.root.value, hash(c), 0, c)
      case None => None
      case Some(e) => Some(e.value)
  }

  /** One key removed; `n` is lowered only when it was there. */
  function MapRemove(hash: Hash, m: MapItem, c: string): MapItem {
    if m.root.None? then m
    else
      match Remove(m.root.value, hash(c), 0, c)
      case Absent => m
      case Gone => m.(root := None, n := if m.n > 0 then m.n - 1 else 0)
      case Left(s) =>
        m.(root := if s.Sub? then Some(s.node) else None, n := if m.n > 0 then m.n - 1 else 0)
  }

  function MapRemoveAll(hash: Hash, m: MapItem, keys: seq<string>): MapItem
    decreases |keys|
  {
    if keys == [] then m else MapRemoveAll(hash, MapRemove(hash, m, keys[0]), keys[1..])
  }

  function Entries(m: MapItem): seq<Entry> { if m.root.None? then [] else Walk(m.root.value) }

  /** Insertion into a list sorted by place. */
  function SortIn(es: seq<Entry>, e: Entry): seq<Entry> {
    if es == [] || e.place < es[0].place then [e] + es else [es[0]] + SortIn(es[1..], e)
  }

  function Sorted(es: seq<Entry>): seq<Entry> { if es == [] then [] else SortIn(Sorted(es[1..]), es[0]) }

  /** The entries in insertion order. */
  function Ordered(m: MapItem): seq<Entry> { Sorted(Entries(m)) }

  // ---- what a map stands for ---------------------------------------------

  type Pairs = seq<(string, nat)>

  function PairIndex(l: Pairs, c: string): (i: nat)
    ensures i <= |l| && (i < |l| ==> l[i].0 == c) && forall j | 0 <= j < i :: l[j].0 != c
  {
    if l == [] || l[0].0 == c then 0 else 1 + PairIndex(l[1..], c)
  }

  /** A replaced key keeps its place; a new one comes last. */
  function ListPut(l: Pairs, c: string, v: nat): Pairs {
    var i := PairIndex(l, c); if i < |l| then l[i := (c, v)] else l + [(c, v)]
  }

  function ListGet(l: Pairs, c: string): Option<nat> {
    var i := PairIndex(l, c); if i < |l| then Some(l[i].1) else None
  }

  function ListRemove(l: Pairs, keys: seq<string>): Pairs {
    if l == [] then [] else (if l[0].0 in keys then [] else [l[0]]) + ListRemove(l[1..], keys)
  }

  function PairsOf(es: seq<Entry>): Pairs {
    if es == [] then [] else [(es[0].ckey, es[0].value)] + PairsOf(es[1..])
  }

  function View(m: MapItem): Pairs { PairsOf(Ordered(m)) }

  /** `n` counts the entries; sequence numbers are distinct and below the next. */
  ghost predicate Valid(hash: Hash, m: MapItem) {
    && (m.root.Some? ==> NodeValid(hash, m.root.value, []))
    && m.n == |Entries(m)|
    && (forall e | e in Entries(m) :: e.place < m.next)
    && DistinctPlaces(Entries(m))
  }

  ghost predicate DistinctPlaces(es: seq<Entry>) {
    forall i, j | 0 <= i < j < |es| :: es[i].place != es[j].place
  }

  ghost predicate Rising(es: seq<Entry>) { forall i, j | 0 <= i < j < |es| :: es[i].place < es[j].place }

  // ---- sorting -----------------------------------------------------------

  lemma {:induction false} SortInBag(es: seq<Entry>, e: Entry)
    ensures multiset(SortIn(es, e)) == multiset(es) + multiset{e}
    ensures forall x | x in SortIn(es, e) :: x == e || x in es
  {
    if es != [] && !(e.place < es[0].place) {
      assert es == [es[0]] + es[1..];
      SortInBag(es[1..], e);
    }
  }

  lemma RisingCons(e: Entry, es: seq<Entry>)
    requires Rising(es) && forall x | x in es :: e.place < x.place
    ensures Rising([e] + es)
  {
  }

  lemma RisingTail(es: seq<Entry>)
    requires es != [] && Rising(es)
    ensures Rising(es[1..]) && forall x | x in es[1..] :: es[0].place < x.place
  {
    forall x | x in es[1..] ensures es[0].place < x.place {
      var i :| 0 <= i < |es| - 1 && es[1..][i] == x;
      assert es[i + 1] == x;
    }
  }

  lemma {:induction false} SortInRises(es: seq<Entry>, e: Entry)
    requires Rising(es) && forall x | x in es :: x.place != e.place
    ensures Rising(SortIn(es, e))
  {
    if es != [] {
      RisingTail(es);
      if e.place < es[0].place {
        assert forall x | x in es :: x == es[0] || x in es[1..];
        RisingCons(e, es);
      } else {
        SortInRises(es[1..], e);
        SortInBag(es[1..], e);
        RisingCons(es[0], SortIn(es[1..], e));
      }
    }
  }

  lemma {:induction false} SortedBag(es: seq<Entry>)
    ensures multiset(Sorted(es)) == multiset(es) && forall x | x in Sorted(es) :: x in es
  {
    if es != [] {
      assert es == [es[0]] + es[1..];
      SortedBag(es[1..]);
      SortInBag(Sorted(es[1..]), es[0]);
    }
  }

  lemma {:induction false} SortedRises(es: seq<Entry>)
    requires DistinctPlaces(es)
    ensures Rising(Sorted(es))
  {
    if es != [] {
      var rest := es[1..];
      SortedRises(rest);
      SortedBag(rest);
      forall x | x in Sorted(rest) ensures x.place != es[0].place {
        var i :| 0 <= i < |rest| && rest[i] == x;
        assert es[i + 1] == x;
      }
      SortInRises(Sorted(rest), es[0]);
    }
  }

  lemma TailBag(a: seq<Entry>)
    requires a != []
    ensures multiset(a) == multiset(a[1..]) + multiset{a[0]}
  {
    assert a == [a[0]] + a[1..];
  }

  lemma HeadLeast(a: seq<Entry>, b: seq<Entry>)
    requires Rising(a) && a != [] && multiset(a) == multiset(b) && b != []
    ensures a[0].place <= b[0].place && (a[0].place == b[0].place ==> a[0] == b[0])
  {
    assert b[0] in multiset(a);
    var j :| 0 <= j < |a| && a[j] == b[0];
  }

  lemma SameHead(a: seq<Entry>, b: seq<Entry>)
    requires Rising(a) && Rising(b) && multiset(a) == multiset(b) && a != []
    ensures b != [] && a[0] == b[0] && multiset(a[1..]) == multiset(b[1..])
  {
    assert |multiset(a)| == |a| && |multiset(b)| == |b|;
    HeadLeast(a, b);
    HeadLeast(b, a);
    TailBag(a);
    TailBag(b);
    BagCancel(multiset(a[1..]), multiset(b[1..]), a[0]);
  }

  /** There is one rising list of given entries. */
  lemma {:induction false} RisingUnique(a: seq<Entry>, b: seq<Entry>)
    requires Rising(a) && Rising(b) && multiset(a) == multiset(b)
    ensures a == b
  {
    if a == [] {
      assert |multiset(b)| == |b|;
    } else {
      SameHead(a, b);
      RisingTail(a);
      RisingTail(b);
      RisingUnique(a[1..], b[1..]);
      assert a == [a[0]] + a[1..] && b == [b[0]] + b[1..];
    }
  }

  lemma {:induction false} RisingDistinct(a: seq<Entry>, b: seq<Entry>)
    requires Rising(a) && multiset(a) == multiset(b)
    ensures DistinctPlaces(b)
  {
    forall i, j | 0 <= i < j < |b| ensures b[i].place != b[j].place {
      if b[i].place == b[j].place {
        assert b[i] in multiset(a) && b[j] in multiset(a);
        var x :| 0 <= x < |a| && a[x] == b[i];
        var y :| 0 <= y < |a| && a[y] == b[j];
        assert x == y;
        TwiceIn(b, i, j);
        OnceIn(a, x);
      }
    }
  }

  lemma TwiceIn(b: seq<Entry>, i: nat, j: nat)
    requires i < j < |b| && b[i] == b[j]
    ensures multiset(b)[b[i]] >= 2
  {
    assert b == b[..i] + [b[i]] + b[i + 1..j] + [b[j]] + b[j + 1..];
  }

  lemma OnceIn(a: seq<Entry>, x: nat)
    requires Rising(a) && x < |a|
    ensures multiset(a)[a[x]] == 1
  {
    assert a == a[..x] + [a[x]] + a[x + 1..];
    assert a[x] !in a[..x] && a[x] !in a[x + 1..];
  }

  /** So a map's ordered entries are any rising list of what its trie holds. */
  lemma OrderedIs(m: MapItem, l: seq<Entry>)
    requires Rising(l) && multiset(l) == multiset(Entries(m))
    ensures Ordered(m) == l && DistinctPlaces(Entries(m))
  {
    RisingDistinct(l, Entries(m));
    SortedRises(Entries(m));
    SortedBag(Entries(m));
    RisingUnique(Ordered(m), l);
  }

  // ---- the map and its list ----------------------------------------------

  lemma {:induction false} PairsAt(es: seq<Entry>)
    ensures |PairsOf(es)| == |es| && forall i | 0 <= i < |es| :: PairsOf(es)[i] == (es[i].ckey, es[i].value)
  {
    if es != [] { PairsAt(es[1..]); }
  }

  /** The ordered entries: the trie's, rising. */
  lemma OrderedEntries(m: MapItem)
    requires DistinctPlaces(Entries(m))
    ensures Rising(Ordered(m)) && multiset(Ordered(m)) == multiset(Entries(m))
    ensures |Ordered(m)| == |Entries(m)| && forall e :: e in Ordered(m) <==> e in Entries(m)
  {
    SortedRises(Entries(m));
    SortedBag(Entries(m));
    assert |multiset(Ordered(m))| == |Ordered(m)| && |multiset(Entries(m))| == |Entries(m)|;
    forall e ensures e in Ordered(m) <==> e in Entries(m) {
      assert e in Ordered(m) <==> e in multiset(Ordered(m));
    }
  }

  lemma UniqueKeys(hash: Hash, m: MapItem, x: Entry, y: Entry)
    requires Valid(hash, m) && x in Entries(m) && y in Entries(m) && x.ckey == y.ckey
    ensures x == y
  {
    NodeDistinct(hash, m.root.value, []);
    var es := Entries(m);
    var i :| 0 <= i < |es| && es[i] == x;
    var j :| 0 <= j < |es| && es[j] == y;
  }

  /** A look-up in the map is one in the list. */
  lemma GetRefines(hash: Hash, m: MapItem, c: string)
    requires Valid(hash, m)
    ensures MapGet(hash, m, c) == ListGet(View(m), c)
  {
    OrderedEntries(m);
    var l := Ordered(m);
    PairsAt(l);
    var i := PairIndex(View(m), c);
    if m.root.Some? {
      if i < |l| {
        assert l[i] in Entries(m);
        GetExact(hash, m.root.value, [], c, l[i]);
      } else {
        forall j | 0 <= j < |l| ensures l[j].ckey != c { assert View(m)[j].0 != c; }
        assert forall e | e in Entries(m) :: e in l;
        var g := Get(m.root.value, hash(c), 0, c);
        if g.Some? { GetExact(hash, m.root.value, [], c, g.value); }
      }
    }
  }

  lemma NewValid(hash: Hash)
    ensures Valid(hash, NewMap) && View(NewMap) == []
  {
  }

  // ---- insertion ---------------------------------------------------------

  lemma NewRoot(hash: Hash, e: Entry)
    requires e.hash == hash(e.ckey)
    ensures var r := Node(SetBit(0, Digit(e.hash, 0)), [Leaf(e)]);
            NodeValid(hash, r, []) && Walk(r) == [e]
  {
    SingleValid(hash, Leaf(e), [], Digit(e.hash, 0));
    WalkOne(Leaf(e));
  }

  /** The entry a key is held under. */
  function Held(hash: Hash, m: MapItem, c: string): Option<Entry> {
    if m.root.None? then None else Get(m.root.value, hash(c), 0, c)
  }

  lemma HeldExact(hash: Hash, m: MapItem, c: string, e: Entry)
    requires Valid(hash, m)
    ensures Held(hash, m, c) == Some(e) <==> e in Entries(m) && e.ckey == c
  {
    if m.root.Some? { GetExact(hash, m.root.value, [], c, e); }
  }

  /** One entry more, or one in the place of another. */
  ghost predicate PutOutcome(m: MapItem, m': MapItem, c: string, h: nat, v: nat, found: Option<Entry>) {
    match found
    case None =>
      && m'.n == m.n + 1 && m'.next == m.next + 1
      && multiset(Entries(m')) == multiset(Entries(m)) + multiset{Entry(c, h, v, m.next)}
    case Some(x) =>
      && m'.n == m.n && m'.next == m.next && x in Entries(m)
      && multiset(Entries(m')) == multiset(Entries(m)) - multiset{x} + multiset{Entry(c, h, v, x.place)}
  }

  lemma PutEntries(hash: Hash, m: MapItem, c: string, v: nat)
    requires Spread(hash) && Valid(hash, m)
    ensures var m' := MapPut(hash, m, c, v);
            m'.root.Some? && NodeValid(hash, m'.root.value, []) && PutOutcome(m, m', c, hash(c), v, Held(hash, m, c))
  {
    var e := Entry(c, hash(c), v, m.next);
    if m.root.None? {
      NewRoot(hash, e);
    } else {
      PutValid(hash, m.root.value, e, []);
      PutExact(hash, m.root.value, e, []);
    }
  }

  /** Putting a key puts it in the list, at its place or last. */
  lemma PutRefines(hash: Hash, m: MapItem, c: string, v: nat)
    requires Spread(hash) && Valid(hash, m)
    ensures Valid(hash, MapPut(hash, m, c, v)) && View(MapPut(hash, m, c, v)) == ListPut(View(m), c, v)
  {
    var m' := MapPut(hash, m, c, v);
    PutEntries(hash, m, c, v);
    var found := Held(hash, m, c);
    if found.None? {
      AppendRefines(hash, m, m', c, v);
    } else {
      HeldExact(hash, m, c, found.value);
      ReplaceRefines(hash, m, m', found.value, Entry(c, hash(c), v, found.value.place));
    }
  }

  lemma BagCount(m: MapItem, l: seq<Entry>)
    requires multiset(l) == multiset(Entries(m))
    ensures |l| == |Entries(m)| && forall e :: e in Entries(m) <==> e in l
  {
    assert |multiset(l)| == |l| && |multiset(Entries(m))| == |Entries(m)|;
    forall e ensures e in Entries(m) <==> e in l { assert e in l <==> e in multiset(l); }
  }

  lemma AppendList(o: seq<Entry>, e: Entry)
    requires forall x | x in o :: x.ckey != e.ckey
    ensures PairsOf(o + [e]) == ListPut(PairsOf(o), e.ckey, e.value)
  {
    PairsAt(o);
    PairsAt(o + [e]);
    forall i | 0 <= i < |o| ensures PairsOf(o)[i].0 != e.ckey { assert o[i] in o; }
    assert PairsOf(o + [e]) == PairsOf(o) + [(e.ckey, e.value)];
  }

  /** A rising list of the entries settles what a changed map stands for. */
  lemma ChangedIs(hash: Hash, m: MapItem, l: seq<Entry>)
    requires Rising(l) && multiset(l) == multiset(Entries(m)) && m.n == |l|
    requires m.root.Some? ==> NodeValid(hash, m.root.value, [])
    requires forall x | x in l :: x.place < m.next
    ensures Valid(hash, m) && Ordered(m) == l
  {
    OrderedIs(m, l);
    BagCount(m, l);
  }

  lemma AppendRefines(hash: Hash, m: MapItem, m': MapItem, c: string, v: nat)
    requires Valid(hash, m) && Held(hash, m, c).None? && m'.root.Some? && NodeValid(hash, m'.root.value, [])
    requires m'.n == m.n + 1 && m'.next == m.next + 1
    requires multiset(Entries(m')) == multiset(Entries(m)) + multiset{Entry(c, hash(c), v, m.next)}
    ensures Valid(hash, m') && View(m') == ListPut(View(m), c, v)
  {
    OrderedEntries(m);
    var e := Entry(c, hash(c), v, m.next);
    ChangedIs(hash, m', Ordered(m) + [e]);
    forall x | x in Ordered(m) ensures x.ckey != c { HeldExact(hash, m, c, x); }
    AppendList(Ordered(m), e);
  }

  lemma ReplaceList(o: seq<Entry>, i: nat, e: Entry)
    requires i < |o| && o[i].ckey == e.ckey && forall j | 0 <= j < i :: o[j].ckey != e.ckey
    ensures PairsOf(o[i := e]) == ListPut(PairsOf(o), e.ckey, e.value)
  {
    PairsAt(o);
    PairsAt(o[i := e]);
    var j := PairIndex(PairsOf(o), e.ckey);
    assert PairsOf(o)[i].0 == e.ckey;
    assert j <= i;
    assert PairsOf(o)[j].0 == o[j].ckey;
    assert PairsOf(o[i := e]) == PairsOf(o)[i := (e.ckey, e.value)];
  }

  /** The same places in the same order. */
  lemma ReplaceRises(o: seq<Entry>, i: nat, e: Entry)
    requires i < |o| && Rising(o) && e.place == o[i].place
    ensures Rising(o[i := e])
  {
    var l := o[i := e];
    assert forall j | 0 <= j < |o| :: l[j].place == o[j].place;
  }

  lemma PlaceOf(hash: Hash, m: MapItem, x: Entry) returns (i: nat)
    requires Valid(hash, m) && x in Entries(m)
    ensures i < |Ordered(m)| && Ordered(m)[i] == x && forall j | 0 <= j < i :: Ordered(m)[j].ckey != x.ckey
  {
    OrderedEntries(m);
    var o := Ordered(m);
    i :| 0 <= i < |o| && o[i] == x;
    forall j | 0 <= j < i ensures o[j].ckey != x.ckey {
      if o[j].ckey == x.ckey { UniqueKeys(hash, m, o[j], x); }
    }
  }

  lemma ReplaceRefines(hash: Hash, m: MapItem, m': MapItem, x: Entry, e: Entry)
    requires Valid(hash, m) && x in Entries(m) && e.ckey == x.ckey && e.place == x.place
    requires m'.root.Some? && NodeValid(hash, m'.root.value, []) && m'.n == m.n && m'.next == m.next
    requires multiset(Entries(m')) == multiset(Entries(m)) - multiset{x} + multiset{e}
    ensures Valid(hash, m') && View(m') == ListPut(View(m), e.ckey, e.value)
  {
    var i := PlaceOf(hash, m, x);
    OrderedEntries(m);
    var o := Ordered(m);
    ReplaceOne(o, i, e);
    ReplaceRises(o, i, e);
    ReplaceList(o, i, e);
    forall y: Entry | y in o[i := e] ensures y.place < m'.next { assert y == e || y in o; }
    ChangedIs(hash, m', o[i := e]);
  }

  // ---- removal -----------------------------------------------------------

  lemma RemoveEntries(hash: Hash, m: MapItem, c: string)
    requires Valid(hash, m)
    ensures var m' := MapRemove(hash, m, c);
      match Held(hash, m, c)
      case None => m' == m
      case Some(x) =>
        && x in Entries(m) && m'.n == m.n - 1 && m'.next == m.next
        && (m'.root.Some? ==> NodeValid(hash, m'.root.value, []))
        && multiset(Entries(m)) == multiset(Entries(m')) + multiset{x}
  {
    if m.root.Some? {
      RemoveExact(hash, m.root.value, c, []);
      if Held(hash, m, c).Some? {
        var x := Held(hash, m, c).value;
        HeldExact(hash, m, c, x);
        assert |Entries(m)| > 0;
      }
    }
  }

  lemma {:induction false} RemoveMissing(l: Pairs, c: string)
    requires PairIndex(l, c) == |l|
    ensures ListRemove(l, [c]) == l
  {
    if l != [] { RemoveMissing(l[1..], c); }
  }

  lemma {:induction false} RemoveAt(l: Pairs, c: string, i: nat)
    requires i < |l| && l[i].0 == c && forall j | 0 <= j < |l| && j != i :: l[j].0 != c
    ensures ListRemove(l, [c]) == l[..i] + l[i + 1..]
  {
    if i == 0 {
      forall k | 0 <= k < |l[1..]| ensures l[1..][k].0 != c { assert l[1..][k] == l[k + 1]; }
      RemoveMissing(l[1..], c);
    } else {
      RemoveAt(l[1..], c, i - 1);
      assert l[1..][..i - 1] == l[..i][1..] && l[1..][i..] == l[i + 1..];
      assert l[..i] == [l[0]] + l[..i][1..];
    }
  }

  /** Removing a key drops its pair; the others keep their order. */
  lemma RemoveRefines(hash: Hash, m: MapItem, c: string)
    requires Valid(hash, m)
    ensures Valid(hash, MapRemove(hash, m, c)) && View(MapRemove(hash, m, c)) == ListRemove(View(m), [c])
  {
    RemoveEntries(hash, m, c);
    OrderedEntries(m);
    var o := Ordered(m);
    PairsAt(o);
    var i := PairIndex(View(m), c);
    if i < |o| {
      HeldExact(hash, m, c, o[i]);
      DropRefines(hash, m, MapRemove(hash, m, c), i);
    } else {
      NotHeld(hash, m, c);
      RemoveMissing(View(m), c);
    }
  }

  lemma NotHeld(hash: Hash, m: MapItem, c: string)
    requires Valid(hash, m) && PairIndex(View(m), c) == |View(m)|
    ensures Held(hash, m, c).None?
  {
    OrderedEntries(m);
    var o := Ordered(m);
    PairsAt(o);
    forall e | e in Entries(m) ensures e.ckey != c {
      var j :| 0 <= j < |o| && o[j] == e;
      assert View(m)[j].0 != c;
    }
    if Held(hash, m, c).Some? { HeldExact(hash, m, c, Held(hash, m, c).value); }
  }

  lemma BagCancel(a: multiset<Entry>, b: multiset<Entry>, x: Entry)
    requires a + multiset{x} == b + multiset{x}
    ensures a == b
  {
    assert a == a + multiset{x} - multiset{x};
    assert b == b + multiset{x} - multiset{x};
  }

  lemma DropList(o: seq<Entry>, i: nat)
    requires i < |o| && forall j | 0 <= j < |o| && j != i :: o[j].ckey != o[i].ckey
    ensures PairsOf(o[..i] + o[i + 1..]) == ListRemove(PairsOf(o), [o[i].ckey])
  {
    var l := o[..i] + o[i + 1..];
    PairsAt(l);
    PairsAt(o);
    RemoveAt(PairsOf(o), o[i].ckey, i);
    assert PairsOf(l) == PairsOf(o)[..i] + PairsOf(o)[i + 1..];
  }

  lemma DropRises(o: seq<Entry>, i: nat)
    requires i < |o| && Rising(o)
    ensures Rising(o[..i] + o[i + 1..]) && multiset(o) == multiset(o[..i] + o[i + 1..]) + multiset{o[i]}
  {
    var l := o[..i] + o[i + 1..];
    assert o == o[..i] + [o[i]] + o[i + 1..];
    assert forall j | 0 <= j < |l| :: l[j] == o[if j < i then j else j + 1];
  }

  lemma DropRefines(hash: Hash, m: MapItem, m': MapItem, i: nat)
    requires Valid(hash, m) && i < |Ordered(m)| && m'.n == m.n - 1 && m'.next == m.next
    requires m'.root.Some? ==> NodeValid(hash, m'.root.value, [])
    requires multiset(Entries(m)) == multiset(Entries(m')) + multiset{Ordered(m)[i]}
    ensures Valid(hash, m') && View(m') == ListRemove(View(m), [Ordered(m)[i].ckey])
  {
    OrderedEntries(m);
    var o := Ordered(m);
    var l := o[..i] + o[i + 1..];
    DropRises(o, i);
    BagCancel(multiset(l), multiset(Entries(m')), o[i]);
    forall j | 0 <= j < |o| && j != i ensures o[j].ckey != o[i].ckey {
      if o[j].ckey == o[i].ckey { UniqueKeys(hash, m, o[j], o[i]); }
    }
    DropList(o, i);
    RestWithin(o, i);
    ChangedIs(hash, m', l);
  }

  lemma RestWithin(o: seq<Entry>, i: nat)
    requires i < |o|
    ensures forall y | y in o[..i] + o[i + 1..] :: y in o
  {
  }
}
