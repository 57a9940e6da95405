/** Insertion and removal keep tries well formed and change exactly one entry. */
module TrieChanges {
  import opened Basics
  import opened TrieBits
  import opened Trie
  import opened TrieLaws

  // ---- merging -----------------------------------------------------------

  lemma FitsMore(e: Entry, path: seq<nat>)
    requires Fits(e, path)
    ensures Fits(e, path + [Digit(e.hash, |path|)])
  {
    var more := path + [Digit(e.hash, |path|)];
    forall i | 0 <= i < |more| ensures Digit(e.hash, i) == more[i] {
      if i < |path| { assert more[i] == path[i]; }
    }
  }

  /** Two entries that fit all twelve digits have the same hash. */
  lemma SpentHashes(hash: string -> nat, x: Entry, e: Entry, path: seq<nat>)
    requires Spread(hash) && |path| == DEPTH && EntryOk(hash, x, path) && EntryOk(hash, e, path)
    ensures x.hash == e.hash
  {
    forall i | 0 <= i < DEPTH ensures Digit(x.hash, i) == Digit(e.hash, i) {
      assert Digit(x.hash, i) == path[i];
    }
    DigitsAreLowBits(x.hash, e.hash, DEPTH);
  }

  lemma NodeOf(hash: string -> nat, n: Node, path: seq<nat>)
    requires |n.slots| == Ones(n.bitmap) && n.slots != []
    requires forall d | Bit(n.bitmap, d) ::
               d < 32 && Rank(n.bitmap, d) < |n.slots| && SlotValid(hash, n.slots[Rank(n.bitmap, d)], path + [d])
    ensures NodeValid(hash, n, path)
  {
  }

  /** A node of one slot. */
  lemma SingleValid(hash: string -> nat, s: Slot, path: seq<nat>, d: nat)
    requires d < 32 && SlotValid(hash, s, path + [d])
    ensures NodeValid(hash, Node(SetBit(0, d), [s]), path)
  {
    OneBit(d, d);
    forall x: nat | Bit(SetBit(0, d), x) ensures x == d { OneBit(d, x); }
  }

  /** A node of two slots, in the order of their digits. */
  lemma PairValid(hash: string -> nat, s: Slot, t: Slot, path: seq<nat>, d: nat, f: nat)
    requires d < f < 32 && SlotValid(hash, s, path + [d]) && SlotValid(hash, t, path + [f])
    ensures NodeValid(hash, Node(SetBit(SetBit(0, d), f), [s, t]), path)
  {
    TwoBits(d, f, d);
    forall x: nat | Bit(SetBit(SetBit(0, d), f), x) ensures x == d || x == f { TwoBits(d, f, x); }
  }

  lemma MergeApart(hash: string -> nat, x: Entry, e: Entry, path: seq<nat>)
    requires |path| < DEPTH && Digit(x.hash, |path|) != Digit(e.hash, |path|)
    requires EntryOk(hash, x, path) && EntryOk(hash, e, path)
    ensures SlotValid(hash, Merge(Leaf(x), e, |path|), path)
    ensures multiset(WalkSlot(Merge(Leaf(x), e, |path|))) == multiset{x, e}
  {
    var (o, n) := (Digit(x.hash, |path|), Digit(e.hash, |path|));
    FitsMore(x, path);
    FitsMore(e, path);
    if o < n {
      PairValid(hash, Leaf(x), Leaf(e), path, o, n);
      WalkTwo(Leaf(x), Leaf(e));
    } else {
      PairValid(hash, Leaf(e), Leaf(x), path, n, o);
      WalkTwo(Leaf(e), Leaf(x));
    }
  }

  /** Merging holds both entries, apart as soon as their digits differ. */
  lemma {:induction false} MergeValid(hash: string -> nat, x: Entry, e: Entry, path: seq<nat>)
    requires Spread(hash) && |path| <= DEPTH && x.ckey != e.ckey
    requires EntryOk(hash, x, path) && EntryOk(hash, e, path)
    ensures SlotValid(hash, Merge(Leaf(x), e, |path|), path)
    ensures multiset(WalkSlot(Merge(Leaf(x), e, |path|))) == multiset{x, e}
    decreases DEPTH - |path|
  {
    var k := |path|;
    if k == DEPTH {
      SpentHashes(hash, x, e, path);
    } else {
      var d := Digit(x.hash, k);
      if d == Digit(e.hash, k) {
        FitsMore(x, path);
        FitsMore(e, path);
        MergeValid(hash, x, e, path + [d]);
        var s := Merge(Leaf(x), e, k + 1);
        SingleValid(hash, s, path, d);
        WalkOne(s);
      } else {
        MergeApart(hash, x, e, path);
      }
    }
  }

  lemma WalkOne(s: Slot)
    ensures WalkSlots([s]) == WalkSlot(s)
  {
    assert [s][1..] == [];
  }

  lemma WalkTwo(s: Slot, t: Slot)
    ensures WalkSlots([s, t]) == WalkSlot(s) + WalkSlot(t)
  {
    assert [s, t][1..] == [t];
    WalkOne(t);
  }

  // ---- insertion ---------------------------------------------------------

  /** A key's entry before the change, and the entries after it. */
  ghost predicate Inserted(was: seq<Entry>, now: seq<Entry>, e: Entry, found: Option<Entry>, added: bool) {
    match found
    case None => added && multiset(now) == multiset(was) + multiset{e}
    case Some(x) => !added && x in was && multiset(now) == multiset(was) - multiset{x} + multiset{e.(place := x.place)}
  }

  lemma PutInExact(es: seq<Entry>, e: Entry)
    ensures Inserted(es, PutIn(es, e).0, e, FindIn(es, e.ckey), PutIn(es, e).1)
  {
    var i := KeyIndex(es, e.ckey);
    if i < |es| { ReplaceOne(es, i, e.(place := es[i].place)); }
  }

  lemma ReplaceOne(es: seq<Entry>, i: nat, e: Entry)
    requires i < |es|
    ensures multiset(es[i := e]) == multiset(es) - multiset{es[i]} + multiset{e}
  {
    assert es == es[..i] + [es[i]] + es[i + 1..];
    assert es[i := e] == es[..i] + [e] + es[i + 1..];
  }

  lemma PutInDistinct(es: seq<Entry>, e: Entry)
    requires DistinctKeys(es)
    ensures DistinctKeys(PutIn(es, e).0) && |PutIn(es, e).0| >= |es|
    ensures forall x | x in PutIn(es, e).0 :: x in es || (x.ckey == e.ckey && x.hash == e.hash)
  {
    var i := KeyIndex(es, e.ckey);
    var now := PutIn(es, e).0;
    assert forall j | 0 <= j < |es| :: now[j].ckey == es[j].ckey;
  }

  /** A list without one of its entries. */
  lemma RemoveInExact(es: seq<Entry>, c: string)
    requires FindIn(es, c).Some? && DistinctKeys(es)
    ensures multiset(es) == multiset(RemoveIn(es, c)) + multiset{FindIn(es, c).value}
    ensures DistinctKeys(RemoveIn(es, c)) && forall x | x in RemoveIn(es, c) :: x in es
  {
    var i := KeyIndex(es, c);
    var rest := RemoveIn(es, c);
    assert es == es[..i] + [es[i]] + es[i + 1..];
    assert forall j | 0 <= j < |rest| :: rest[j] == es[if j < i then j else j + 1];
  }

  lemma {:induction false} PutSlotValid(hash: string -> nat, s: Slot, e: Entry, path: seq<nat>)
    requires Spread(hash) && |path| <= DEPTH && SlotValid(hash, s, path) && EntryOk(hash, e, path)
    ensures SlotValid(hash, PutSlot(s, e, |path|).0, path)
    decreases s, 0
  {
    match s
    case Leaf(x) => if x.ckey != e.ckey { MergeValid(hash, x, e, path); }
    case Collision(h, es) =>
      SpentHashes(hash, es[0], e, path);
      PutInDistinct(es, e);
    case Sub(m) => PutValid(hash, m, e, path);
  }

  lemma {:induction false} PutValid(hash: string -> nat, n: Node, e: Entry, path: seq<nat>)
    requires Spread(hash) && |path| < DEPTH && NodeValid(hash, n, path) && EntryOk(hash, e, path)
    ensures NodeValid(hash, Put(n, e, |path|).0, path)
    decreases n, 1
  {
    var d := Digit(e.hash, |path|);
    var i := Rank(n.bitmap, d);
    FitsMore(e, path);
    if Bit(n.bitmap, d) {
      PutSlotValid(hash, n.slots[i], e, path + [d]);
      ReplacedValid(hash, n, d, PutSlot(n.slots[i], e, |path| + 1).0, path);
    } else {
      RankBelow(n.bitmap, d);
      InsertedValid(hash, n, d, Leaf(e), path);
    }
  }

  /** Another slot for a bit that is set. */
  lemma ReplacedValid(hash: string -> nat, n: Node, d: nat, s: Slot, path: seq<nat>)
    requires NodeValid(hash, n, path) && Bit(n.bitmap, d) && SlotValid(hash, s, path + [d])
    ensures NodeValid(hash, n.(slots := n.slots[Rank(n.bitmap, d) := s]), path)
  {
    var m := n.(slots := n.slots[Rank(n.bitmap, d) := s]);
    forall x: nat | Bit(m.bitmap, x)
      ensures x < 32 && Rank(m.bitmap, x) < |m.slots| && SlotValid(hash, m.slots[Rank(m.bitmap, x)], path + [x])
    {
      assert Bit(n.bitmap, x);
      if x < d { RankRises(n.bitmap, x, d); }
      if d < x { RankRises(n.bitmap, d, x); }
    }
    NodeOf(hash, m, path);
  }

  /** A slot for a bit that was clear, put before those of higher bits. */
  lemma InsertedValid(hash: string -> nat, n: Node, d: nat, s: Slot, path: seq<nat>)
    requires NodeValid(hash, n, path) && !Bit(n.bitmap, d) && d < 32 && SlotValid(hash, s, path + [d])
    ensures Rank(n.bitmap, d) <= |n.slots|
    ensures var i := Rank(n.bitmap, d);
            NodeValid(hash, Node(SetBit(n.bitmap, d), n.slots[..i] + [s] + n.slots[i..]), path)
  {
    RankBelow(n.bitmap, d);
    var i := Rank(n.bitmap, d);
    var m := Node(SetBit(n.bitmap, d), n.slots[..i] + [s] + n.slots[i..]);
    SetBitIs(n.bitmap, d, d);
    forall x: nat | Bit(m.bitmap, x)
      ensures x < 32 && Rank(m.bitmap, x) < |m.slots| && SlotValid(hash, m.slots[Rank(m.bitmap, x)], path + [x])
    {
      SetBitIs(n.bitmap, d, x);
      if x != d {
        assert Bit(n.bitmap, x);
        Beside(n.bitmap, d, x);
      }
    }
    NodeOf(hash, m, path);
  }

  /** The slots of lower bits come before the place of a clear bit, the others after. */
  lemma {:induction false} Beside(b: nat, d: nat, x: nat)
    requires !Bit(b, d) && Bit(b, x)
    ensures if x < d then Rank(b, x) < Rank(b, d) else Rank(b, x) >= Rank(b, d)
  {
    RankStep(b, d);
    RankStep(b, x);
    if d > 0 && x > 0 { Beside(b / 2, d - 1, x - 1); }
  }

  /** Insertion changes what the walk lists by the one entry. */
  lemma {:induction false} PutSlotExact(hash: string -> nat, s: Slot, e: Entry, path: seq<nat>)
    requires Spread(hash) && |path| <= DEPTH && SlotValid(hash, s, path) && EntryOk(hash, e, path)
    ensures var (t, added) := PutSlot(s, e, |path|);
            Inserted(WalkSlot(s), WalkSlot(t), e, SlotFind(s, e.hash, |path|, e.ckey), added)
    decreases s, 0
  {
    match s
    case Leaf(x) => if x.ckey != e.ckey { MergeValid(hash, x, e, path); }
    case Collision(h, es) =>
      SpentHashes(hash, es[0], e, path);
      PutInExact(es, e);
    case Sub(m) => PutExact(hash, m, e, path);
  }

  function SlotFind(s: Slot, h: nat, k: nat, ckey: string): Option<Entry> {
    match s
    case Leaf(e) => if e.ckey == ckey then Some(e) else None
    case Collision(_, es) => FindIn(es, ckey)
    case Sub(m) => Get(m, h, k, ckey)
  }

  lemma {:induction false} PutExact(hash: string -> nat, n: Node, e: Entry, path: seq<nat>)
    requires Spread(hash) && |path| < DEPTH && NodeValid(hash, n, path) && EntryOk(hash, e, path)
    ensures var (m, added) := Put(n, e, |path|);
            Inserted(Walk(n), Walk(m), e, Get(n, e.hash, |path|, e.ckey), added)
    decreases n, 1
  {
    var d := Digit(e.hash, |path|);
    var i := Rank(n.bitmap, d);
    if Bit(n.bitmap, d) {
      FitsMore(e, path);
      PutSlotExact(hash, n.slots[i], e, path + [d]);
      var (t, added) := PutSlot(n.slots[i], e, |path| + 1);
      InsertedAround(n.slots, i, t, e, SlotFind(n.slots[i], e.hash, |path| + 1, e.ckey), added);
      assert Put(n, e, |path|) == (Node(n.bitmap, n.slots[i := t]), added);
      assert Get(n, e.hash, |path|, e.ckey) == SlotFind(n.slots[i], e.hash, |path| + 1, e.ckey);
    } else {
      PutNew(n, e, |path|);
    }
  }

  lemma PutNew(n: Node, e: Entry, k: nat)
    requires |n.slots| == Ones(n.bitmap) && !Bit(n.bitmap, Digit(e.hash, k))
    ensures Inserted(Walk(n), Walk(Put(n, e, k).0), e, None, Put(n, e, k).1)
  {
    RankBelow(n.bitmap, Digit(e.hash, k));
    WalkInsert(n.slots, Rank(n.bitmap, Digit(e.hash, k)), Leaf(e));
  }

  lemma BagSwap(rest: multiset<Entry>, was: multiset<Entry>, now: multiset<Entry>, x: Entry, y: Entry)
    requires x in was && now == was - multiset{x} + multiset{y}
    ensures rest + now == rest + was - multiset{x} + multiset{y}
  {
  }

  lemma InsertedAround(ss: seq<Slot>, i: nat, t: Slot, e: Entry, found: Option<Entry>, added: bool)
    requires i < |ss| && Inserted(WalkSlot(ss[i]), WalkSlot(t), e, found, added)
    ensures Inserted(WalkSlots(ss), WalkSlots(ss[i := t]), e, found, added)
  {
    WalkUpdate(ss, i, t);
    if found.Some? {
      var x := found.value;
      SlotIn(ss, i, x);
      BagSwap(multiset(WalkSlots(ss[..i] + ss[i + 1..])), multiset(WalkSlot(ss[i])), multiset(WalkSlot(t)),
              x, e.(place := x.place));
    }
  }

  // ---- removal -----------------------------------------------------------

  function Listed(r: Removal): seq<Entry>
    requires !r.Absent?
  {
    if r.Gone? then [] else WalkSlot(r.slot)
  }

  /** What is left of a slot is well formed, and lists all but the key's entry; nothing
      happens when the key is absent. */
  ghost predicate Removed(hash: string -> nat, s: Slot, r: Removal, found: Option<Entry>, path: seq<nat>) {
    match found
    case None => r.Absent?
    case Some(x) =>
      && !r.Absent? && multiset(WalkSlot(s)) == multiset(Listed(r)) + multiset{x}
      && (r.Left? ==> SlotValid(hash, r.slot, path))
  }

  lemma {:induction false} RemoveSlotExact(hash: string -> nat, s: Slot, c: string, path: seq<nat>)
    requires 0 < |path| <= DEPTH && SlotValid(hash, s, path)
    ensures Removed(hash, s, RemoveSlot(s, hash(c), |path|, c), SlotFind(s, hash(c), |path|, c), path)
    decreases s, 0
  {
    match s
    case Leaf(x) =>
    case Collision(h, es) => if FindIn(es, c).Some? { CollisionRemoved(hash, h, es, c, path); }
    case Sub(m) => RemoveExact(hash, m, c, path);
  }

  lemma CollisionRemoved(hash: string -> nat, h: nat, es: seq<Entry>, c: string, path: seq<nat>)
    requires SlotValid(hash, Collision(h, es), path) && FindIn(es, c).Some?
    ensures Removed(hash, Collision(h, es), RemoveSlot(Collision(h, es), hash(c), |path|, c), FindIn(es, c), path)
  {
    RemoveInExact(es, c);
    var rest := RemoveIn(es, c);
    if |rest| == 1 { assert rest == [rest[0]] && rest[0] in rest; }
  }

  lemma {:induction false} RemoveExact(hash: string -> nat, n: Node, c: string, path: seq<nat>)
    requires |path| < DEPTH && NodeValid(hash, n, path)
    ensures Removed(hash, Sub(n), Remove(n, hash(c), |path|, c), Get(n, hash(c), |path|, c), path)
    ensures path == [] && Remove(n, hash(c), 0, c).Left? ==> Remove(n, hash(c), 0, c).slot.Sub?
    decreases n, 1
  {
    var (h, k) := (hash(c), |path|);
    var d := Digit(h, k);
    var i := Rank(n.bitmap, d);
    if Bit(n.bitmap, d) {
      RemoveSlotExact(hash, n.slots[i], c, path + [d]);
      var r := RemoveSlot(n.slots[i], h, k + 1, c);
      var found := SlotFind(n.slots[i], h, k + 1, c);
      assert Get(n, h, k, c) == found;
      if r.Left? {
        SlotLeft(hash, n, d, r.slot, found, path);
      } else if r.Gone? {
        SlotGone(hash, n, d, found, path);
      }
    }
  }

  lemma SlotLeft(hash: string -> nat, n: Node, d: nat, s: Slot, found: Option<Entry>, path: seq<nat>)
    requires |path| < DEPTH && NodeValid(hash, n, path) && Bit(n.bitmap, d)
    requires Removed(hash, n.slots[Rank(n.bitmap, d)], Left(s), found, path + [d])
    ensures Removed(hash, Sub(n), Left(Sub(n.(slots := n.slots[Rank(n.bitmap, d) := s]))), found, path)
  {
    var m := Node(n.bitmap, n.slots[Rank(n.bitmap, d) := s]);
    var x := found.value;
    WalkUpdate(n.slots, Rank(n.bitmap, d), s);
    assert multiset(Walk(n)) == multiset(Walk(m)) + multiset{x};
    assert WalkSlot(Sub(m)) == Walk(m);
    ReplacedValid(hash, n, d, s, path);
  }

  lemma SlotGone(hash: string -> nat, n: Node, d: nat, found: Option<Entry>, path: seq<nat>)
    requires |path| < DEPTH && NodeValid(hash, n, path) && Bit(n.bitmap, d)
    requires Removed(hash, n.slots[Rank(n.bitmap, d)], Gone, found, path + [d])
    ensures Removed(hash, Sub(n), Without(n, d, |path|), found, path)
    ensures path == [] && Without(n, d, |path|).Left? ==> Without(n, d, |path|).slot.Sub?
  {
    var i := Rank(n.bitmap, d);
    var rest := n.slots[..i] + n.slots[i + 1..];
    var x := found.value;
    SlotTakenOut(n, i, x);
    if |n.slots| == 1 { assert rest == []; } else { OthersLeft(hash, n, d, x, rest, path); }
  }

  lemma SlotTakenOut(n: Node, i: nat, x: Entry)
    requires i < |n.slots| && multiset(WalkSlot(n.slots[i])) == multiset{x}
    ensures multiset(Walk(n)) == multiset(WalkSlots(n.slots[..i] + n.slots[i + 1..])) + multiset{x}
  {
    WalkUpdate(n.slots, i, n.slots[i]);
  }

  lemma OthersLeft(hash: string -> nat, n: Node, d: nat, x: Entry, rest: seq<Slot>, path: seq<nat>)
    requires |path| < DEPTH && NodeValid(hash, n, path) && Bit(n.bitmap, d) && |n.slots| > 1
    requires rest == n.slots[..Rank(n.bitmap, d)] + n.slots[Rank(n.bitmap, d) + 1..]
    requires multiset(Walk(n)) == multiset(WalkSlots(rest)) + multiset{x}
    ensures Removed(hash, Sub(n), Without(n, d, |path|), Some(x), path)
    ensures path == [] && Without(n, d, |path|).Left? ==> Without(n, d, |path|).slot.Sub?
  {
    var m := Node(ClearBit(n.bitmap, d), rest);
    ClearedValid(hash, n, d, path);
    if |rest| == 1 && rest[0].Leaf? && |path| > 0 {
      LeafRaised(hash, m, path);
      assert Without(n, d, |path|) == Left(rest[0]);
    } else {
      assert Without(n, d, |path|) == Left(Sub(m)) && Walk(m) == WalkSlots(rest);
    }
  }

  lemma LeafRaised(hash: string -> nat, n: Node, path: seq<nat>)
    requires NodeValid(hash, n, path) && |n.slots| == 1 && n.slots[0].Leaf?
    ensures SlotValid(hash, n.slots[0], path) && Walk(n) == WalkSlot(n.slots[0])
  {
    assert n.slots == [n.slots[0]];
    WalkOne(n.slots[0]);
    NodeFits(hash, n, path, n.slots[0].entry);
  }

  lemma ClearedValid(hash: string -> nat, n: Node, d: nat, path: seq<nat>)
    requires NodeValid(hash, n, path) && Bit(n.bitmap, d) && |n.slots| > 1
    ensures var i := Rank(n.bitmap, d);
            NodeValid(hash, Node(ClearBit(n.bitmap, d), n.slots[..i] + n.slots[i + 1..]), path)
  {
    var i := Rank(n.bitmap, d);
    var m := Node(ClearBit(n.bitmap, d), n.slots[..i] + n.slots[i + 1..]);
    ClearBitIs(n.bitmap, d, d);
    forall x: nat | Bit(m.bitmap, x)
      ensures x < 32 && Rank(m.bitmap, x) < |m.slots| && SlotValid(hash, m.slots[Rank(m.bitmap, x)], path + [x])
    {
      ClearBitIs(n.bitmap, d, x);
      if x < d { RankRises(n.bitmap, x, d); } else { RankRises(n.bitmap, d, x); }
    }
    NodeOf(hash, m, path);
  }
}
