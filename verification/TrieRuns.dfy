/** Every history of a map: the trie answers as the insertion-ordered list does, for
    all histories exactly when no two hashes differ in their top bits alone. */
module TrieRuns {
  import opened Basics
  import opened TrieBits
  import opened Trie
  import opened TrieChanges
  import opened TrieMap

  datatype Op = DoPut(ckey: string, value: nat) | DoRemove(keys: seq<string>)

  /** The map after a history, beginning empty. */
  function Run(hash: Hash, ops: seq<Op>): MapItem {
    if ops == [] then NewMap
    else
      var m := Run(hash, ops[..|ops| - 1]);
      match ops[|ops| - 1]
      case DoPut(c, v) => MapPut(hash, m, c, v)
      case DoRemove(ks) => MapRemoveAll(hash, m, ks)
  }

  function ListRun(ops: seq<Op>): Pairs {
    if ops == [] then []
    else
      var l := ListRun(ops[..|ops| - 1]);
      match ops[|ops| - 1]
      case DoPut(c, v) => ListPut(l, c, v)
      case DoRemove(ks) => ListRemove(l, ks)
  }

  lemma {:induction false} RemoveTwice(l: Pairs, c: string, ks: seq<string>)
    ensures ListRemove(ListRemove(l, [c]), ks) == ListRemove(l, [c] + ks)
  {
    if l != [] {
      RemoveTwice(l[1..], c, ks);
      var rest := ListRemove(l[1..], [c]);
      if l[0].0 == c {
        assert ListRemove(l, [c]) == rest;
      } else {
        assert ListRemove(l, [c]) == [l[0]] + rest && ([l[0]] + rest)[1..] == rest;
      }
    }
  }

  lemma {:induction false} RemoveNone(l: Pairs)
    ensures ListRemove(l, []) == l
  {
    if l != [] { RemoveNone(l[1..]); }
  }

  /** Removing keys drops their pairs, present or not, and leaves the rest. */
  lemma {:induction false} RemoveAllRefines(hash: Hash, m: MapItem, keys: seq<string>)
    requires Valid(hash, m)
    ensures Valid(hash, MapRemoveAll(hash, m, keys))
    ensures View(MapRemoveAll(hash, m, keys)) == ListRemove(View(m), keys)
    ensures MapRemoveAll(hash, m, keys).n <= m.n
    ensures MapRemoveAll(hash, m, keys).n == m.n ==> MapRemoveAll(hash, m, keys) == m
    decreases |keys|
  {
    if keys == [] {
      RemoveNone(View(m));
    } else {
      var m' := MapRemove(hash, m, keys[0]);
      RemoveRefines(hash, m, keys[0]);
      RemoveEntries(hash, m, keys[0]);
      RemoveAllRefines(hash, m', keys[1..]);
      RemoveTwice(View(m), keys[0], keys[1..]);
      assert [keys[0]] + keys[1..] == keys;
    }
  }

  /** After every history the trie is well formed and stands for the list. */
  lemma {:induction false} RunRefines(hash: Hash, ops: seq<Op>)
    requires Spread(hash)
    ensures Valid(hash, Run(hash, ops)) && View(Run(hash, ops)) == ListRun(ops)
    ensures Run(hash, ops).n == |ListRun(ops)|
    decreases |ops|
  {
    if ops == [] {
      NewValid(hash);
    } else {
      var init := ops[..|ops| - 1];
      RunRefines(hash, init);
      match ops[|ops| - 1]
      case DoPut(c, v) => PutRefines(hash, Run(hash, init), c, v);
      case DoRemove(ks) => RemoveAllRefines(hash, Run(hash, init), ks);
    }
    OrderedEntries(Run(hash, ops));
    PairsAt(Ordered(Run(hash, ops)));
  }

  ghost predicate AnswersRight(hash: Hash) {
    forall ops: seq<Op>, c: string :: MapGet(hash, Run(hash, ops), c) == ListGet(ListRun(ops), c)
  }

  /** The condition on hashes is exact. */
  lemma RightIffSpread(hash: Hash)
    ensures AnswersRight(hash) <==> Spread(hash)
  {
    if Spread(hash) {
      forall ops: seq<Op>, c: string ensures MapGet(hash, Run(hash, ops), c) == ListGet(ListRun(ops), c) {
        RunRefines(hash, ops);
        GetRefines(hash, Run(hash, ops), c);
      }
    } else {
      var a, b :| LowPart(hash(a), DEPTH) == LowPart(hash(b), DEPTH) && hash(a) != hash(b);
      StaleAnswer(hash, a, b);
    }
  }

  // ---- 64-bit hashes -----------------------------------------------------

  const TWO60: nat := 0x1000_0000_0000_0000

  function Pow32(k: nat): (p: nat)
    ensures p > 0
  {
    if k == 0 then 1 else 32 * Pow32(k - 1)
  }

  lemma {:induction false} LowPartIs(h: nat, k: nat)
    ensures LowPart(h, k) < Pow32(k) && exists q: nat :: h == LowPart(h, k) + q * Pow32(k)
  {
    if k == 0 {
      assert h == LowPart(h, 0) + h * Pow32(0);
    } else {
      LowPartIs(h / 32, k - 1);
      var low, p := LowPart(h / 32, k - 1), Pow32(k - 1);
      var q: nat :| h / 32 == low + q * p;
      assert 32 * (q * p) == q * (32 * p);
      assert h == LowPart(h, k) + q * Pow32(k);
    }
  }

  lemma Twelve()
    ensures Pow32(DEPTH) == TWO60
  {
    assert Pow32(4) == 0x10_0000;
    assert Pow32(8) == 0x100_0000_0000;
  }

  /** The part that counts of a 64-bit hash is its low 60 bits; four are left over. */
  lemma LowSixty(h: nat)
    ensures LowPart(h, DEPTH) == h % TWO60
  {
    Twelve();
    LowPartIs(h, DEPTH);
    var q: nat :| h == LowPart(h, DEPTH) + q * Pow32(DEPTH);
    assert h == LowPart(h, DEPTH) + q * TWO60;
  }

  ghost predicate Words(hash: Hash) { forall c :: hash(c) < 16 * TWO60 }

  /** Of 64-bit hashes: every history is answered right exactly when none agree in their
      low 60 bits and differ in their top four. */
  lemma RightIffTopFour(hash: Hash)
    requires Words(hash)
    ensures AnswersRight(hash)
         <==> forall a, b :: hash(a) % TWO60 == hash(b) % TWO60 ==> hash(a) / TWO60 == hash(b) / TWO60
  {
    RightIffSpread(hash);
    forall a, b
      ensures LowPart(hash(a), DEPTH) == LowPart(hash(b), DEPTH) <==> hash(a) % TWO60 == hash(b) % TWO60
    {
      LowSixty(hash(a));
      LowSixty(hash(b));
    }
  }

  // ---- a key held twice --------------------------------------------------

  /** Nodes of one slot each, from digit `k` of `h` on, around `s`. */
  function Nest(h: nat, k: nat, s: Slot): Slot
    decreases DEPTH - k
  {
    if k >= DEPTH then s else Sub(Node(SetBit(0, Digit(h, k)), [Nest(h, k + 1, s)]))
  }

  lemma {:induction false} NestMerge(x: Entry, e: Entry, k: nat)
    requires k <= DEPTH && SameDigits(x.hash, e.hash, DEPTH)
    ensures Merge(Leaf(x), e, k) == Nest(x.hash, k, Collision(e.hash, [x, e]))
    decreases DEPTH - k
  {
    if k < DEPTH { NestMerge(x, e, k + 1); }
  }

  lemma OneSlotPut(d: nat, s: Slot, e: Entry, k: nat)
    requires Digit(e.hash, k) == d
    ensures Put(Node(SetBit(0, d), [s]), e, k)
         == (Node(SetBit(0, d), [PutSlot(s, e, k + 1).0]), PutSlot(s, e, k + 1).1)
  {
    OneBit(d, d);
    assert [s][0 := PutSlot(s, e, k + 1).0] == [PutSlot(s, e, k + 1).0];
  }

  lemma {:induction false} NestPut(h: nat, k: nat, s: Slot, e: Entry)
    requires k <= DEPTH && SameDigits(h, e.hash, DEPTH)
    ensures PutSlot(Nest(h, k, s), e, k) == (Nest(h, k, PutSlot(s, e, DEPTH).0), PutSlot(s, e, DEPTH).1)
    decreases DEPTH - k
  {
    if k < DEPTH {
      assert Digit(e.hash, k) == Digit(h, k);
      OneSlotPut(Digit(h, k), Nest(h, k + 1, s), e, k);
      NestPut(h, k + 1, s, e);
    }
  }

  lemma {:induction false} NestFind(h: nat, k: nat, s: Slot, c: string)
    requires k <= DEPTH
    ensures SlotFind(Nest(h, k, s), h, k, c) == SlotFind(s, h, DEPTH, c)
    decreases DEPTH - k
  {
    if k < DEPTH {
      OneBit(Digit(h, k), Digit(h, k));
      NestFind(h, k + 1, s, c);
    }
  }

  /** Two keys whose hashes differ only above the low 60 bits: put again, the first
      gets a second entry, and look-up goes on finding the one it had. */
  lemma StaleAnswer(hash: Hash, a: string, b: string)
    requires LowPart(hash(a), DEPTH) == LowPart(hash(b), DEPTH) && hash(a) != hash(b)
    ensures var ops := [DoPut(a, 1), DoPut(b, 2), DoPut(a, 3)];
            MapGet(hash, Run(hash, ops), a) == Some(1) && ListGet(ListRun(ops), a) == Some(3)
            && Run(hash, ops).n == 3 && |ListRun(ops)| == 2
  {
    DigitsAreLowBits(hash(a), hash(b), DEPTH);
    var (x, y, z) := (Entry(a, hash(a), 1, 0), Entry(b, hash(b), 2, 1), Entry(a, hash(a), 3, 2));
    StaleTrie(hash, a, b, x, y, z);
    StaleFound(hash, a, x, y, z);
    ListStale(a, b);
  }

  /** The second put makes a collision node, though the hashes differ. */
  lemma CollidingPuts(hash: Hash, a: string, b: string, x: Entry, y: Entry)
    requires SameDigits(hash(a), hash(b), DEPTH) && hash(a) != hash(b)
    requires x == Entry(a, hash(a), 1, 0) && y == Entry(b, hash(b), 2, 1)
    ensures Run(hash, [DoPut(a, 1), DoPut(b, 2)])
         == OneSlot(Digit(hash(a), 0), Nest(hash(a), 1, Collision(hash(b), [x, y])), 2)
  {
    var ops := [DoPut(a, 1), DoPut(b, 2)];
    assert ops[..1] == [DoPut(a, 1)] && ops[..1][..0] == [];
    var d := Digit(hash(a), 0);
    assert Digit(hash(b), 0) == d;
    assert Run(hash, ops[..1]) == OneSlot(d, Leaf(x), 1);
    NestMerge(x, y, 1);
    OneSlotPut(d, Leaf(x), y, 0);
  }

  /** The third adds another entry for the first key. */
  lemma StaleTrie(hash: Hash, a: string, b: string, x: Entry, y: Entry, z: Entry)
    requires SameDigits(hash(a), hash(b), DEPTH) && hash(a) != hash(b)
    requires x == Entry(a, hash(a), 1, 0) && y == Entry(b, hash(b), 2, 1) && z == Entry(a, hash(a), 3, 2)
    ensures Run(hash, [DoPut(a, 1), DoPut(b, 2), DoPut(a, 3)])
         == OneSlot(Digit(hash(a), 0), Nest(hash(a), 1, Collision(hash(a), [x, y, z])), 3)
  {
    var (h, g) := (hash(a), hash(b));
    var ops := [DoPut(a, 1), DoPut(b, 2), DoPut(a, 3)];
    assert ops[..2] == [DoPut(a, 1), DoPut(b, 2)];
    CollidingPuts(hash, a, b, x, y);
    CollisionGrows(x, y, z);
    NestPut(h, 1, Collision(g, [x, y]), z);
    OneSlotPut(Digit(h, 0), Nest(h, 1, Collision(g, [x, y])), z, 0);
  }

  lemma StaleFound(hash: Hash, a: string, x: Entry, y: Entry, z: Entry)
    requires x == Entry(a, hash(a), 1, 0)
    ensures MapGet(hash, OneSlot(Digit(hash(a), 0), Nest(hash(a), 1, Collision(hash(a), [x, y, z])), 3), a) == Some(1)
  {
    OneBit(Digit(hash(a), 0), Digit(hash(a), 0));
    NestFind(hash(a), 1, Collision(hash(a), [x, y, z]), a);
    assert KeyIndex([x, y, z], a) == 0;
  }

  function OneSlot(d: nat, s: Slot, n: nat): MapItem { MapItem(Some(Node(SetBit(0, d), [s])), n, n) }

  /** The collision's hash is no longer the key's own. */
  lemma CollisionGrows(x: Entry, y: Entry, z: Entry)
    requires y.hash != z.hash
    ensures PutSlot(Collision(y.hash, [x, y]), z, DEPTH) == (Collision(z.hash, [x, y, z]), true)
  {
    assert [x, y] + [z] == [x, y, z];
  }

  lemma ListStale(a: string, b: string)
    requires a != b
    ensures ListRun([DoPut(a, 1), DoPut(b, 2), DoPut(a, 3)]) == [(a, 3), (b, 2)]
    ensures ListGet([(a, 3), (b, 2)], a) == Some(3)
  {
    var ops := [DoPut(a, 1), DoPut(b, 2), DoPut(a, 3)];
    assert ops[..2] == [DoPut(a, 1), DoPut(b, 2)] && ops[..2][..1] == [DoPut(a, 1)] && ops[..2][..1][..0] == [];
    assert ListRun(ops[..2][..1]) == [(a, 1)];
    assert [(a, 1)][1..] == [];
    assert PairIndex([(a, 1)], b) == 1;
    assert ListRun(ops[..2]) == [(a, 1), (b, 2)];
    assert PairIndex([(a, 1), (b, 2)], a) == 0;
  }
}
