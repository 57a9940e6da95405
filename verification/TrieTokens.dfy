/** Builders whose tokens may be equal: a builder leaves the map it begins with alone,
    whatever is set, exactly when no node of that map carries its token. */
module TrieTokens {
  import opened Basics
  import opened TrieBits
  import opened Trie
  import opened TrieLaws
  import opened TrieMap

  /** Nodes by address, so that one may be reached along several ways. */
  datatype Held = Single(entry: Entry) | Many(hash: nat, entries: seq<Entry>) | At(cell: nat)

  datatype Cell = Cell(bitmap: nat, slots: seq<Held>, edit: Edit)

  type Store = seq<Cell>

  // ---- the operations on addresses ---------------------------------------

  function Left(k: nat): nat { if k <= DEPTH then DEPTH + 1 - k else 0 }

  function GetAt(st: Store, a: nat, h: nat, k: nat, c: string): Option<Entry>
    decreases Left(k)
  {
    if a >= |st| || k > DEPTH then None
    else
      var d := Digit(h, k);
      if !Bit(st[a].bitmap, d) || Rank(st[a].bitmap, d) >= |st[a].slots| then None
      else
        match st[a].slots[Rank(st[a].bitmap, d)]
        case Single(e) => if e.ckey == c then Some(e) else None
        case Many(_, es) => FindIn(es, c)
        case At(b) => GetAt(st, b, h, k + 1, c)
  }

  /** The cell itself if it carries the token, and a copy that does otherwise. */
  function Mutable(st: Store, a: nat, token: nat): (Store, nat)
    requires a < |st|
  {
    if st[a].edit == Token(token) then (st, a) else (st + [st[a].(edit := Token(token))], |st|)
  }

  function HeldHash(s: Held): nat {
    match s
    case Single(e) => e.hash
    case Many(h, _) => h
    case At(_) => 0
  }

  function HeldEntries(s: Held): seq<Entry> {
    match s
    case Single(e) => [e]
    case Many(_, es) => es
    case At(_) => []
  }

  function MergeAt(st: Store, s: Held, e: Entry, k: nat, token: nat): (Store, Held)
    decreases DEPTH - k
  {
    if k >= DEPTH then (st, Many(e.hash, HeldEntries(s) + [e]))
    else
      var (o, n) := (Digit(HeldHash(s), k), Digit(e.hash, k));
      if o == n then
        var (s1, inner) := MergeAt(st, s, e, k + 1, token);
        (s1 + [Cell(SetBit(0, o), [inner], Token(token))], At(|s1|))
      else if o < n then (st + [Cell(SetBit(SetBit(0, o), n), [s, Single(e)], Token(token))], At(|st|))
      else (st + [Cell(SetBit(SetBit(0, n), o), [Single(e), s], Token(token))], At(|st|))
  }

  function PutHeld(st: Store, s: Held, e: Entry, k: nat, token: nat): (r: (Store, Held, bool))
    ensures |st| <= |r.0|
    decreases Left(k), 1
  {
    match s
    case Single(x) =>
      if x.ckey == e.ckey then (st, Single(e.(place := x.place)), false)
      else MergeGrows(st, s, e, k, token); var (s1, h) := MergeAt(st, s, e, k, token); (s1, h, true)
    case Many(h, es) =>
      if h == e.hash then var (es', added) := PutIn(es, e); (st, Many(h, es'), added)
      else MergeGrows(st, s, e, k, token); var (s1, m) := MergeAt(st, s, e, k, token); (s1, m, true)
    case At(b) =>
      var (s1, o, added) := PutAt(st, b, e, k, token); (s1, At(o), added)
  }

  /** No trie is deeper than its hashes. */
  function PutAt(st: Store, a: nat, e: Entry, k: nat, token: nat): (r: (Store, nat, bool))
    ensures |st| <= |r.0|
    decreases Left(k), 0
  {
    if a >= |st| || k > DEPTH then (st, a, false)
    else
      var d := Digit(e.hash, k);
      var i := Rank(st[a].bitmap, d);
      if i > |st[a].slots| then (st, a, false)
      else if !Bit(st[a].bitmap, d) then
        var (s1, o) := Mutable(st, a, token);
        var slots := st[a].slots[..i] + [Single(e)] + st[a].slots[i..];
        (s1[o := Cell(SetBit(st[a].bitmap, d), slots, Token(token))], o, true)
      else if i == |st[a].slots| then (st, a, false)
      else
        var (s1, h, added) := PutHeld(st, st[a].slots[i], e, k + 1, token);
        var (s2, o) := Mutable(s1, a, token);
        (WriteSlot(s2, o, i, h), o, added)
  }

  function WriteSlot(st: Store, o: nat, i: nat, h: Held): (r: Store)
    requires o < |st|
    ensures |r| == |st| && forall x | 0 <= x < |st| && x != o :: r[x] == st[x]
  {
    if i < |st[o].slots| then st[o := st[o].(slots := st[o].slots[i := h])] else st
  }

  lemma {:induction false} MergeGrows(st: Store, s: Held, e: Entry, k: nat, token: nat)
    ensures |st| <= |MergeAt(st, s, e, k, token).0|
    decreases DEPTH - k
  {
    if k < DEPTH { MergeGrows(st, s, e, k + 1, token); }
  }

  /** A builder: the store, its root and the next sequence number. */
  datatype Building = Building(st: Store, root: nat, next: nat)

  function SetOne(hash: Hash, b: Building, token: nat, c: string, v: nat): Building {
    var (s, o, added) := PutAt(b.st, b.root, Entry(c, hash(c), v, b.next), 0, token);
    Building(s, o, if added then b.next + 1 else b.next)
  }

  function SetAll(hash: Hash, b: Building, token: nat, ops: seq<(string, nat)>): Building {
    if ops == [] then b
    else
      var was := SetAll(hash, b, token, ops[..|ops| - 1]);
      SetOne(hash, was, token, ops[|ops| - 1].0, ops[|ops| - 1].1)
  }

  /** What the map with root `a` answers. */
  function Answer(hash: Hash, st: Store, a: nat, c: string): Option<nat> {
    var e := GetAt(st, a, hash(c), 0, c);
    if e.None? then None else Some(e.value.value)
  }

  // ---- the cells of a map ------------------------------------------------

  ghost predicate StandsAt(st: Store, a: nat, t: Node)
    decreases t, 0
  {
    && a < |st| && st[a].bitmap == t.bitmap && |st[a].slots| == |t.slots|
    && forall i | 0 <= i < |t.slots| :: SlotStands(st, st[a].slots[i], t.slots[i])
  }

  ghost predicate SlotStands(st: Store, s: Held, u: Slot)
    decreases u, 1
  {
    match u
    case Leaf(e) => s == Single(e)
    case Collision(h, es) => s == Many(h, es)
    case Sub(m) => s.At? && StandsAt(st, s.cell, m)
  }

  ghost function Cells(st: Store, a: nat, t: Node): set<nat>
    requires StandsAt(st, a, t)
    decreases t, 0
  {
    {a} + set i, x | 0 <= i < |t.slots| && x in SlotCells(st, st[a].slots[i], t.slots[i]) :: x
  }

  ghost function SlotCells(st: Store, s: Held, u: Slot): set<nat>
    requires SlotStands(st, s, u)
    decreases u, 1
  {
    match u
    case Leaf(_) => {}
    case Collision(_, _) => {}
    case Sub(m) => Cells(st, s.cell, m)
  }

  ghost predicate Carries(st: Store, a: nat, t: Node, token: nat)
    requires StandsAt(st, a, t)
  {
    exists x :: x in Cells(st, a, t) && x < |st| && st[x].edit == Token(token)
  }

  // ---- where no node carries the token -----------------------------------

  /** Cells that lead only to each other, none with the token. */
  ghost predicate Closed(st: Store, z: set<nat>, token: nat) {
    forall x | x in z :: x < |st| && st[x].edit != Token(token) && forall s | s in st[x].slots :: s.At? ==> s.cell in z
  }

  /** A slot may lead to cells of `z` and to cells made later. */
  ghost predicate Fair(st: Store, z: set<nat>, s: Held) { s.At? ==> s.cell >= |st| || s.cell in z }

  ghost predicate AllFair(st: Store, z: set<nat>, ss: seq<Held>) { forall s | s in ss :: Fair(st, z, s) }

  /** `now` is `st` with cells added. */
  ghost predicate Grown(st: Store, z: set<nat>, now: Store) {
    && |st| <= |now| && (forall x | 0 <= x < |st| :: now[x] == st[x])
    && (forall x | |st| <= x < |now| :: AllFair(st, z, now[x].slots))
  }

  lemma {:induction false} CellsClose(st: Store, a: nat, t: Node, x: nat)
    requires StandsAt(st, a, t) && x in Cells(st, a, t)
    ensures x < |st| && forall s | s in st[x].slots :: s.At? ==> s.cell in Cells(st, a, t)
    decreases t
  {
    if x == a {
      forall s | s in st[a].slots && s.At? ensures s.cell in Cells(st, a, t) {
        var i :| 0 <= i < |st[a].slots| && st[a].slots[i] == s;
        assert SlotStands(st, st[a].slots[i], t.slots[i]);
        assert s.cell in SlotCells(st, st[a].slots[i], t.slots[i]);
      }
    } else {
      var i :| 0 <= i < |t.slots| && x in SlotCells(st, st[a].slots[i], t.slots[i]);
      assert SlotStands(st, st[a].slots[i], t.slots[i]);
      CellsClose(st, st[a].slots[i].cell, t.slots[i].node, x);
      assert forall y | y in SlotCells(st, st[a].slots[i], t.slots[i]) :: y in Cells(st, a, t);
    }
  }

  lemma {:induction false} MergeFair(st: Store, z: set<nat>, now: Store, s: Held, e: Entry, k: nat, token: nat)
    requires Grown(st, z, now) && Fair(st, z, s)
    ensures Grown(st, z, MergeAt(now, s, e, k, token).0) && Fair(st, z, MergeAt(now, s, e, k, token).1)
    decreases DEPTH - k
  {
    if k < DEPTH { MergeFair(st, z, now, s, e, k + 1, token); }
  }

  lemma {:induction false} PutHeldFair(st: Store, z: set<nat>, now: Store, s: Held, e: Entry, k: nat, token: nat)
    requires Closed(st, z, token) && Grown(st, z, now) && Fair(st, z, s)
    ensures var r := PutHeld(now, s, e, k, token); Grown(st, z, r.0) && Fair(st, z, r.1)
    decreases Left(k), 1
  {
    match s
    case Single(_) => MergeFair(st, z, now, s, e, k, token);
    case Many(_, _) => MergeFair(st, z, now, s, e, k, token);
    case At(b) => PutAtFair(st, z, now, b, e, k, token);
  }

  lemma {:induction false} PutAtFair(st: Store, z: set<nat>, now: Store, a: nat, e: Entry, k: nat, token: nat)
    requires Closed(st, z, token) && Grown(st, z, now) && Fair(st, z, At(a))
    ensures var r := PutAt(now, a, e, k, token); Grown(st, z, r.0) && Fair(st, z, At(r.1))
    decreases Left(k), 0
  {
    if a < |now| && k <= DEPTH {
      var d := Digit(e.hash, k);
      var i := Rank(now[a].bitmap, d);
      SlotsFair(st, z, now, a, token);
      if Bit(now[a].bitmap, d) && i < |now[a].slots| {
        PutHeldFair(st, z, now, now[a].slots[i], e, k + 1, token);
        var (s1, h, _) := PutHeld(now, now[a].slots[i], e, k + 1, token);
        SlotsFair(st, z, s1, a, token);
        MutableFair(st, z, s1, a, token);
        var (s2, o) := Mutable(s1, a, token);
        WriteFair(st, z, s2, o, i, h);
      } else if !Bit(now[a].bitmap, d) && i <= |now[a].slots| {
        MutableFair(st, z, now, a, token);
      }
    }
  }

  lemma SlotsFair(st: Store, z: set<nat>, now: Store, a: nat, token: nat)
    requires Closed(st, z, token) && Grown(st, z, now) && Fair(st, z, At(a)) && a < |now|
    ensures AllFair(st, z, now[a].slots) && (now[a].edit == Token(token) ==> a >= |st|)
  {
  }

  lemma MutableFair(st: Store, z: set<nat>, now: Store, a: nat, token: nat)
    requires Closed(st, z, token) && Grown(st, z, now) && Fair(st, z, At(a)) && a < |now|
    ensures var (s2, o) := Mutable(now, a, token);
            Grown(st, z, s2) && |st| <= o < |s2| && AllFair(st, z, s2[o].slots)
  {
    SlotsFair(st, z, now, a, token);
  }

  lemma WriteFair(st: Store, z: set<nat>, now: Store, o: nat, i: nat, h: Held)
    requires Grown(st, z, now) && |st| <= o < |now| && Fair(st, z, h) && AllFair(st, z, now[o].slots)
    ensures Grown(st, z, WriteSlot(now, o, i, h))
  {
  }

  lemma {:induction false} SetAllFair(hash: Hash, st: Store, z: set<nat>, a: nat, next: nat, token: nat,
                                      ops: seq<(string, nat)>)
    requires Closed(st, z, token) && a in z
    ensures var b := SetAll(hash, Building(st, a, next), token, ops); Grown(st, z, b.st) && Fair(st, z, At(b.root))
    decreases |ops|
  {
    if ops != [] {
      var init := ops[..|ops| - 1];
      SetAllFair(hash, st, z, a, next, token, init);
      var b := SetAll(hash, Building(st, a, next), token, init);
      var (c, v) := ops[|ops| - 1];
      PutAtFair(st, z, b.st, b.root, Entry(c, hash(c), v, b.next), 0, token);
    }
  }

  /** What a map answers is told by its cells. */
  lemma {:induction false} SameAnswers(st: Store, now: Store, a: nat, t: Node, h: nat, k: nat, c: string)
    requires StandsAt(st, a, t) && |st| <= |now| && forall x | 0 <= x < |st| :: now[x] == st[x]
    ensures GetAt(now, a, h, k, c) == GetAt(st, a, h, k, c)
    decreases t
  {
    var d := Digit(h, k);
    var i := Rank(st[a].bitmap, d);
    if k <= DEPTH && Bit(st[a].bitmap, d) && i < |st[a].slots| && st[a].slots[i].At? {
      assert SlotStands(st, st[a].slots[i], t.slots[i]);
      SameAnswers(st, now, st[a].slots[i].cell, t.slots[i].node, h, k + 1, c);
    }
  }

  /** Every map in the store, the seeding one or not, answers as before. */
  lemma ForeignKeepsAll(hash: Hash, st: Store, a: nat, t: Node, next: nat, token: nat, ops: seq<(string, nat)>,
                        r: nat, u: Node, c: string)
    requires StandsAt(st, a, t) && !Carries(st, a, t, token) && StandsAt(st, r, u)
    ensures Answer(hash, SetAll(hash, Building(st, a, next), token, ops).st, r, c) == Answer(hash, st, r, c)
  {
    var z := Cells(st, a, t);
    forall x | x in z
      ensures x < |st| && st[x].edit != Token(token) && forall s | s in st[x].slots :: s.At? ==> s.cell in z
    {
      CellsClose(st, a, t, x);
    }
    SetAllFair(hash, st, z, a, next, token, ops);
    SameAnswers(st, SetAll(hash, Building(st, a, next), token, ops).st, r, u, hash(c), 0, c);
  }

  // ---- where one does ----------------------------------------------------

  lemma {:induction false} StandsOnce(st: Store, a: nat, t: Node, u: Node)
    requires StandsAt(st, a, t) && StandsAt(st, a, u)
    ensures t == u
    decreases t
  {
    forall i | 0 <= i < |t.slots| ensures t.slots[i] == u.slots[i] {
      assert SlotStands(st, st[a].slots[i], t.slots[i]) && SlotStands(st, st[a].slots[i], u.slots[i]);
      if t.slots[i].Sub? && u.slots[i].Sub? {
        StandsOnce(st, st[a].slots[i].cell, t.slots[i].node, u.slots[i].node);
      }
    }
    assert t.slots == u.slots;
  }

  function Height(t: Node): nat
    decreases t, 1
  {
    1 + HeightAll(t.slots)
  }

  function HeightAll(ss: seq<Slot>): nat
    decreases ss, 0
  {
    if ss == [] then 0 else if HeightOf(ss[0]) > HeightAll(ss[1..]) then HeightOf(ss[0]) else HeightAll(ss[1..])
  }

  function HeightOf(s: Slot): nat
    decreases s, 2
  {
    if s.Sub? then Height(s.node) else 0
  }

  lemma {:induction false} LessHigh(ss: seq<Slot>, i: nat)
    requires i < |ss| && ss[i].Sub?
    ensures Height(ss[i].node) <= HeightAll(ss)
  {
    if i > 0 { LessHigh(ss[1..], i - 1); }
  }

  lemma {:induction false} CellHeight(st: Store, a: nat, t: Node, x: nat) returns (u: Node)
    requires StandsAt(st, a, t) && x in Cells(st, a, t)
    ensures StandsAt(st, x, u) && Height(u) <= Height(t)
    decreases t
  {
    if x == a {
      u := t;
    } else {
      var i :| 0 <= i < |t.slots| && x in SlotCells(st, st[a].slots[i], t.slots[i]);
      assert SlotStands(st, st[a].slots[i], t.slots[i]);
      u := CellHeight(st, st[a].slots[i].cell, t.slots[i].node, x);
      LessHigh(t.slots, i);
    }
  }

  /** No cell lies below itself. */
  lemma NotBelowItself(st: Store, a: nat, t: Node, i: nat)
    requires StandsAt(st, a, t) && i < |t.slots| && t.slots[i].Sub?
    ensures SlotStands(st, st[a].slots[i], t.slots[i]) && a !in Cells(st, st[a].slots[i].cell, t.slots[i].node)
  {
    assert SlotStands(st, st[a].slots[i], t.slots[i]);
    var m := t.slots[i].node;
    if a in Cells(st, st[a].slots[i].cell, m) {
      var u := CellHeight(st, st[a].slots[i].cell, m, a);
      StandsOnce(st, a, t, u);
      LessHigh(t.slots, i);
    }
  }

  /** The cells a look-up reads. */
  function Read(st: Store, a: nat, h: nat, k: nat): set<nat>
    decreases Left(k)
  {
    if a >= |st| || k > DEPTH then {}
    else
      var d := Digit(h, k);
      if !Bit(st[a].bitmap, d) || Rank(st[a].bitmap, d) >= |st[a].slots| then {a}
      else
        match st[a].slots[Rank(st[a].bitmap, d)]
        case Single(_) => {a}
        case Many(_, _) => {a}
        case At(b) => {a} + Read(st, b, h, k + 1)
  }

  lemma {:induction false} SameRead(st: Store, now: Store, a: nat, h: nat, k: nat, c: string)
    requires |st| <= |now| && forall x | x in Read(st, a, h, k) :: x < |st| && now[x] == st[x]
    requires a < |st| && GetAt(st, a, h, k, c).Some?
    ensures GetAt(now, a, h, k, c) == GetAt(st, a, h, k, c) && Read(now, a, h, k) == Read(st, a, h, k)
    decreases Left(k)
  {
    var i := Rank(st[a].bitmap, Digit(h, k));
    assert a in Read(st, a, h, k);
    if st[a].slots[i].At? { SameRead(st, now, st[a].slots[i].cell, h, k + 1, c); }
  }

  /** The cells in which two stores differ, and those a look-up then reads, are among those
      of the map and those made since. */
  ghost predicate Touches(st: Store, z: set<nat>, now: Store, o: nat, h: nat, k: nat) {
    && Unchanged(st, z, now)
    && (forall x | x in Read(now, o, h, k) :: x < |now| && (x < |st| ==> x in z))
  }

  /** What a builder does with a key the map has. */
  ghost predicate Replaced(st: Store, z: set<nat>, r: (Store, nat, bool), e: Entry, k: nat) {
    && r.1 < |r.0| && Touches(st, z, r.0, r.1, e.hash, k)
    && GetAt(r.0, r.1, e.hash, k, e.ckey).Some? && GetAt(r.0, r.1, e.hash, k, e.ckey).value.value == e.value
  }

  ghost predicate HeldReplaced(st: Store, z: set<nat>, r: (Store, Held, bool), e: Entry, k: nat) {
    match r.1
    case Single(x) => r.0 == st && x.ckey == e.ckey && x.value == e.value
    case Many(_, es) => r.0 == st && FindIn(es, e.ckey).Some? && FindIn(es, e.ckey).value.value == e.value
    case At(o) => Replaced(st, z, (r.0, o, r.2), e, k)
  }

  lemma ReplacedIn(es: seq<Entry>, c: string, e: Entry)
    requires FindIn(es, c).Some? && e.ckey == c
    ensures var f := FindIn(PutIn(es, e).0, c); f.Some? && f.value.value == e.value
  {
    var i := KeyIndex(es, c);
    var put := PutIn(es, e).0;
    assert put[i].ckey == c;
    assert KeyIndex(put, c) <= i;
    assert forall j | 0 <= j < i :: put[j] == es[j];
  }

  lemma {:induction false} PutReplaces(hash: Hash, st: Store, a: nat, t: Node, path: seq<nat>, x: Entry, e: Entry,
                                       token: nat)
    requires StandsAt(st, a, t) && NodeValid(hash, t, path) && |path| < DEPTH
    requires x in Walk(t) && e.ckey == x.ckey && e.hash == x.hash
    ensures Replaced(st, Cells(st, a, t), PutAt(st, a, e, |path|, token), e, |path|)
    ensures st[a].edit == Token(token) ==> PutAt(st, a, e, |path|, token).1 == a
    decreases t
  {
    var k := |path|;
    var d := Digit(e.hash, k);
    EntrySlot(hash, t, path, x);
    var i := Rank(t.bitmap, d);
    assert SlotStands(st, st[a].slots[i], t.slots[i]) && SlotValid(hash, t.slots[i], path + [d]);
    SlotReplaces(hash, st, a, t, path, i, x, e, token);
    var z := Cells(st, a, t);
    var r := PutHeld(st, st[a].slots[i], e, k + 1, token);
    if t.slots[i].Sub? { NotBelowItself(st, a, t, i); }
    assert SlotCells(st, st[a].slots[i], t.slots[i]) <= z;
    WritesUp(st, z, a, i, r, SlotCells(st, st[a].slots[i], t.slots[i]), e, k, token);
    PutThrough(st, a, i, e, k, token);
  }

  lemma {:induction false} SlotReplaces(hash: Hash, st: Store, a: nat, t: Node, path: seq<nat>, i: nat, x: Entry,
                                        e: Entry, token: nat)
    requires StandsAt(st, a, t) && NodeValid(hash, t, path) && |path| < DEPTH && i < |t.slots|
    requires SlotStands(st, st[a].slots[i], t.slots[i]) && SlotValid(hash, t.slots[i], path + [Digit(e.hash, |path|)])
    requires x in WalkSlot(t.slots[i]) && e.ckey == x.ckey && e.hash == x.hash
    ensures HeldReplaced(st, SlotCells(st, st[a].slots[i], t.slots[i]),
                         PutHeld(st, st[a].slots[i], e, |path| + 1, token), e, |path| + 1)
    decreases t, 0
  {
    var p := path + [Digit(e.hash, |path|)];
    match t.slots[i]
    case Leaf(_) =>
    case Collision(h, es) =>
      FindExact(es, x.ckey, x);
      ReplacedIn(es, x.ckey, e);
    case Sub(m) =>
      PutReplaces(hash, st, st[a].slots[i].cell, m, p, x, e, token);
  }

  lemma PutThrough(st: Store, a: nat, i: nat, e: Entry, k: nat, token: nat)
    requires a < |st| && k < DEPTH && Bit(st[a].bitmap, Digit(e.hash, k)) && i == Rank(st[a].bitmap, Digit(e.hash, k))
    requires i < |st[a].slots|
    ensures var (s1, h, added) := PutHeld(st, st[a].slots[i], e, k + 1, token);
            var (s2, o) := Mutable(s1, a, token);
            PutAt(st, a, e, k, token) == (WriteSlot(s2, o, i, h), o, added)
  {
  }

  /** The slot written, its cell does as the slot. */
  lemma WritesUp(st: Store, z: set<nat>, a: nat, i: nat, r: (Store, Held, bool), below: set<nat>, e: Entry, k: nat,
                 token: nat)
    requires a < |st| && k < DEPTH && Bit(st[a].bitmap, Digit(e.hash, k)) && i == Rank(st[a].bitmap, Digit(e.hash, k))
    requires i < |st[a].slots| && |st| <= |r.0|
    requires HeldReplaced(st, below, r, e, k + 1) && below <= z && a in z && a !in below
    ensures var (s2, o) := Mutable(r.0, a, token);
            Replaced(st, z, (WriteSlot(s2, o, i, r.1), o, r.2), e, k) && (st[a].edit == Token(token) ==> o == a)
  {
    var (s1, h, _) := r;
    assert s1[a] == st[a];
    var (s2, o) := Mutable(s1, a, token);
    var s3 := WriteSlot(s2, o, i, h);
    assert s3[o].bitmap == st[a].bitmap && s3[o].slots[i] == h;
    if h.At? {
      assert o !in Read(s1, h.cell, e.hash, k + 1);
      SameRead(s1, s3, h.cell, e.hash, k + 1, e.ckey);
    }
  }

  ghost predicate Unchanged(st: Store, z: set<nat>, now: Store) {
    |st| <= |now| && forall x | 0 <= x < |st| && x !in z :: now[x] == st[x]
  }

  lemma {:induction false} GetExtends(st: Store, now: Store, a: nat, h: nat, k: nat, c: string)
    requires Unchanged(st, {}, now) && GetAt(st, a, h, k, c).Some?
    ensures GetAt(now, a, h, k, c) == GetAt(st, a, h, k, c)
    decreases Left(k)
  {
    assert now[a] == st[a];
    var i := Rank(st[a].bitmap, Digit(h, k));
    if st[a].slots[i].At? { GetExtends(st, now, st[a].slots[i].cell, h, k + 1, c); }
  }

  /** A cell that is left leads to what was written below it. */
  lemma LeadsOn(now: Store, a: nat, d: nat, i: nat, b: nat, h: nat, k: nat, c: string)
    requires a < |now| && k < DEPTH && d == Digit(h, k) && Bit(now[a].bitmap, d) && i == Rank(now[a].bitmap, d)
    requires i < |now[a].slots| && now[a].slots[i] == At(b)
    ensures GetAt(now, a, h, k, c) == GetAt(now, b, h, k + 1, c)
  {
  }

  lemma CopyLeaves(s1: Store, a: nat, i: nat, h: Held, token: nat)
    requires a < |s1| && s1[a].edit != Token(token)
    ensures var (s2, o) := Mutable(s1, a, token);
            Unchanged(s1, {}, WriteSlot(s2, o, i, h))
  {
  }

  lemma SomeEntry(hash: Hash, t: Node, path: seq<nat>) returns (e: Entry)
    requires NodeValid(hash, t, path)
    ensures e in Walk(t)
    decreases t
  {
    var d := Select(t.bitmap, 0);
    match t.slots[0] {
      case Leaf(x) => e := x;
      case Collision(_, es) => e := es[0];
      case Sub(m) => e := SomeEntry(hash, m, path + [d]);
    }
    SlotIn(t.slots, 0, e);
  }

  /** Put with the token, whatever the value, the key is answered with it by `a` itself. */
  ghost predicate Shown(st: Store, a: nat, x: Entry, k: nat, token: nat) {
    forall v, place :: ShownWith(st, a, Entry(x.ckey, x.hash, v, place), k, token)
  }

  predicate ShownWith(st: Store, a: nat, e: Entry, k: nat, token: nat) {
    var r := GetAt(PutAt(st, a, e, k, token).0, a, e.hash, k, e.ckey);
    r.Some? && r.value.value == e.value
  }

  lemma ShownHere(hash: Hash, st: Store, a: nat, t: Node, path: seq<nat>, x: Entry, token: nat)
    requires StandsAt(st, a, t) && NodeValid(hash, t, path) && |path| < DEPTH && x in Walk(t)
    requires st[a].edit == Token(token)
    ensures Shown(st, a, x, |path|, token)
  {
    forall v, place ensures ShownWith(st, a, Entry(x.ckey, x.hash, v, place), |path|, token) {
      PutReplaces(hash, st, a, t, path, x, Entry(x.ckey, x.hash, v, place), token);
    }
  }

  /** Setting `x`'s key below `b` writes only what hangs from `b`, whatever the value. */
  ghost predicate WritesBelow(st: Store, b: nat, below: set<nat>, x: Entry, k: nat, token: nat) {
    forall v, place :: Unchanged(st, below, PutAt(st, b, Entry(x.ckey, x.hash, v, place), k, token).0)
  }

  lemma LowerWrites(hash: Hash, st: Store, b: nat, m: Node, path: seq<nat>, k: nat, x: Entry, token: nat)
    requires StandsAt(st, b, m) && NodeValid(hash, m, path) && |path| == k < DEPTH && x in Walk(m)
    ensures WritesBelow(st, b, Cells(st, b, m), x, k, token)
  {
    forall v, place
      ensures Unchanged(st, Cells(st, b, m), PutAt(st, b, Entry(x.ckey, x.hash, v, place), k, token).0)
    {
      PutReplaces(hash, st, b, m, path, x, Entry(x.ckey, x.hash, v, place), token);
    }
  }

  lemma ShownUp(st: Store, a: nat, i: nat, b: nat, below: set<nat>, x: Entry, d: nat, k: nat, token: nat)
    requires a < |st| && k < DEPTH && st[a].edit != Token(token) && a !in below
    requires d == Digit(x.hash, k) && Bit(st[a].bitmap, d) && Rank(st[a].bitmap, d) == i
    requires i < |st[a].slots| && st[a].slots[i] == At(b)
    requires WritesBelow(st, b, below, x, k + 1, token) && Shown(st, b, x, k + 1, token)
    ensures Shown(st, a, x, k, token)
  {
    forall v, place ensures ShownWith(st, a, Entry(x.ckey, x.hash, v, place), k, token) {
      var e := Entry(x.ckey, x.hash, v, place);
      assert ShownWith(st, b, e, k + 1, token) && Unchanged(st, below, PutAt(st, b, e, k + 1, token).0);
      OneCopied(st, a, i, b, below, e, k, token);
    }
  }

  lemma DigitOf(hash: Hash, m: Node, path: seq<nat>, d: nat, x: Entry)
    requires NodeValid(hash, m, path + [d]) && x in Walk(m) && |path| + 1 < DEPTH
    ensures Digit(x.hash, |path|) == d
  {
    NodeFits(hash, m, path + [d], x);
    assert Digit(x.hash, |path|) == (path + [d])[|path|];
  }

  lemma OneCopied(st: Store, a: nat, i: nat, b: nat, below: set<nat>, e: Entry, k: nat, token: nat)
    requires a < |st| && k < DEPTH && st[a].edit != Token(token) && a !in below
    requires Bit(st[a].bitmap, Digit(e.hash, k)) && i == Rank(st[a].bitmap, Digit(e.hash, k))
    requires i < |st[a].slots| && st[a].slots[i] == At(b)
    requires Unchanged(st, below, PutAt(st, b, e, k + 1, token).0) && ShownWith(st, b, e, k + 1, token)
    ensures ShownWith(st, a, e, k, token)
  {
    var (s1, h, _) := PutHeld(st, st[a].slots[i], e, k + 1, token);
    CopyLeaves(s1, a, i, h, token);
    PutThrough(st, a, i, e, k, token);
    var now := PutAt(st, a, e, k, token).0;
    GetExtends(s1, now, b, e.hash, k + 1, e.ckey);
    assert now[a] == s1[a] == st[a];
    LeadsOn(now, a, Digit(e.hash, k), i, b, e.hash, k, e.ckey);
  }

  lemma StandsInside(hash: Hash, st: Store, a: nat, t: Node, path: seq<nat>, i: nat, x: nat)
    returns (d: nat)
    requires StandsAt(st, a, t) && NodeValid(hash, t, path) && |path| < DEPTH && i < |t.slots|
    requires x in SlotCells(st, st[a].slots[i], t.slots[i])
    ensures Bit(t.bitmap, d) && Rank(t.bitmap, d) == i && st[a].bitmap == t.bitmap
    ensures st[a].slots[i].At? && t.slots[i].Sub? && |path| + 1 < DEPTH
    ensures StandsAt(st, st[a].slots[i].cell, t.slots[i].node) && NodeValid(hash, t.slots[i].node, path + [d])
    ensures x in Cells(st, st[a].slots[i].cell, t.slots[i].node)
  {
    d := Select(t.bitmap, i);
    assert SlotStands(st, st[a].slots[i], t.slots[i]);
    assert SlotValid(hash, t.slots[i], path + [d]);
  }

  /** Some key of the map is shown, where a cell of it carries the token. */
  lemma {:induction false} Overwrites(hash: Hash, st: Store, a: nat, t: Node, path: seq<nat>, token: nat, x: nat)
    returns (e: Entry)
    requires StandsAt(st, a, t) && NodeValid(hash, t, path) && |path| < DEPTH
    requires x in Cells(st, a, t) && x < |st| && st[x].edit == Token(token)
    ensures e in Walk(t) && Shown(st, a, e, |path|, token)
    decreases t
  {
    if st[a].edit == Token(token) {
      e := SomeEntry(hash, t, path);
      ShownHere(hash, st, a, t, path, e, token);
    } else {
      var i :| 0 <= i < |t.slots| && x in SlotCells(st, st[a].slots[i], t.slots[i]);
      var d := StandsInside(hash, st, a, t, path, i, x);
      e := Overwrites(hash, st, st[a].slots[i].cell, t.slots[i].node, path + [d], token, x);
      SlotIn(t.slots, i, e);
      NotBelowItself(st, a, t, i);
      var (b, m) := (st[a].slots[i].cell, t.slots[i].node);
      DigitOf(hash, m, path, d, e);
      LowerWrites(hash, st, b, m, path + [d], |path| + 1, e, token);
      ShownUp(st, a, i, b, Cells(st, b, m), e, d, |path|, token);
    }
  }

  /** A cell of the map that carries the token is written for the map to see. */
  lemma SharedTokenShows(hash: Hash, st: Store, a: nat, t: Node, next: nat, token: nat)
    returns (c: string, v: nat)
    requires StandsAt(st, a, t) && NodeValid(hash, t, []) && Carries(st, a, t, token)
    ensures (Answer(hash, SetAll(hash, Building(st, a, next), token, [(c, v)]).st, a, c) == Some(v)
             != Answer(hash, st, a, c))
  {
    var x :| x in Cells(st, a, t) && x < |st| && st[x].edit == Token(token);
    var e := Overwrites(hash, st, a, t, [], token, x);
    NodeFits(hash, t, [], e);
    c := e.ckey;
    v := match Answer(hash, st, a, c) case None => 0 case Some(w) => w + 1;
    var ops := [(c, v)];
    assert ops[..0] == [];
    assert SetAll(hash, Building(st, a, next), token, []) == Building(st, a, next);
    assert ShownWith(st, a, Entry(c, hash(c), v, next), 0, token);
  }

  /** The map a builder begins with keeps its answers, whatever is set, exactly when none
      of its nodes carries the builder's token. */
  lemma KeptIffForeign(hash: Hash, st: Store, a: nat, t: Node, next: nat, token: nat)
    requires StandsAt(st, a, t) && NodeValid(hash, t, [])
    ensures (forall ops: seq<(string, nat)>, c: string ::
               Answer(hash, SetAll(hash, Building(st, a, next), token, ops).st, a, c) == Answer(hash, st, a, c))
         <==> !Carries(st, a, t, token)
  {
    if Carries(st, a, t, token) {
      var c, v := SharedTokenShows(hash, st, a, t, next, token);
    } else {
      forall ops: seq<(string, nat)>, c: string
        ensures Answer(hash, SetAll(hash, Building(st, a, next), token, ops).st, a, c) == Answer(hash, st, a, c)
      {
        ForeignKeepsAll(hash, st, a, t, next, token, ops, a, t, c);
      }
    }
  }

  /** Two builders with one token: the first hands over a map of one key; the second,
      beginning with it, sets that key, and the map answers as the second would. */
  lemma TwoBuildersOneToken(hash: Hash, c: string, v: nat, w: nat, token: nat)
    ensures var st := [Cell(SetBit(0, Digit(hash(c), 0)), [Single(Entry(c, hash(c), v, 0))], Token(token))];
            Answer(hash, st, 0, c) == Some(v)
            && Answer(hash, SetAll(hash, Building(st, 0, 1), token, [(c, w)]).st, 0, c) == Some(w)
  {
    var d := Digit(hash(c), 0);
    OneBit(d, d);
    var st := [Cell(SetBit(0, d), [Single(Entry(c, hash(c), v, 0))], Token(token))];
    var ops := [(c, w)];
    assert ops[..0] == [];
    assert SetAll(hash, Building(st, 0, 1), token, []) == Building(st, 0, 1);
    var e := Entry(c, hash(c), w, 1);
    var h := Single(e.(place := 0));
    PutThrough(st, 0, 0, e, 0, token);
    assert st[0].slots[0 := h] == [h];
    assert st[0 := st[0].(slots := [h])] == [Cell(SetBit(0, d), [h], Token(token))];
    assert PutAt(st, 0, e, 0, token) == ([Cell(SetBit(0, d), [Single(e.(place := 0))], Token(token))], 0, false);
  }
}
