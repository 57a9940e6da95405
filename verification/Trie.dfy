/** The hash array mapped trie as a value: look-up, insertion, merging, removal and
    the walk, as the program computes them. */
module Trie {
  import opened Basics
  import opened TrieBits

  /** `place` numbers entries by first insertion. */
  datatype Entry = Entry(ckey: string, hash: nat, value: nat, place: nat)

  datatype Slot = Leaf(entry: Entry) | Collision(hash: nat, entries: seq<Entry>) | Sub(node: Node)

  datatype Node = Node(bitmap: nat, slots: seq<Slot>)

  /** The token of the builder that may write a node; one made by no builder carries none. */
  datatype Edit = Published | Token(id: nat)

  // ---- the operations ----------------------------------------------------

  /** The first place of a key in a list, or its length. */
  function KeyIndex(es: seq<Entry>, ckey: string): (i: nat)
    ensures i <= |es| && (i < |es| ==> es[i].ckey == ckey)
    ensures forall j | 0 <= j < i :: es[j].ckey != ckey
  {
    if es == [] || es[0].ckey == ckey then 0 else 1 + KeyIndex(es[1..], ckey)
  }

  function FindIn(es: seq<Entry>, ckey: string): Option<Entry> {
    var i := KeyIndex(es, ckey); if i < |es| then Some(es[i]) else None
  }

  /** `k` counts digits: the shift is 5k. */
  function Get(n: Node, h: nat, k: nat, ckey: string): Option<Entry>
    decreases n
  {
    var d := Digit(h, k);
    if !Bit(n.bitmap, d) || Rank(n.bitmap, d) >= |n.slots| then None
    else
      match n.slots[Rank(n.bitmap, d)]
      case Leaf(e) => if e.ckey == ckey then Some(e) else None
      case Collision(_, es) => FindIn(es, ckey)
      case Sub(m) => Get(m, h, k + 1, ckey)
  }

  function SlotHash(s: Slot): nat {
    match s
    case Leaf(e) => e.hash
    case Collision(h, _) => h
    case Sub(_) => 0
  }

  function SlotEntries(s: Slot): seq<Entry> {
    match s
    case Leaf(e) => [e]
    case Collision(_, es) => es
    case Sub(_) => []
  }

  /** Holds an existing slot and an entry whose hashes agree up to `k`. */
  function Merge(was: Slot, e: Entry, k: nat): Slot
    decreases DEPTH - k
  {
    if k >= DEPTH then Collision(e.hash, SlotEntries(was) + [e])
    else
      var (o, n) := (Digit(SlotHash(was), k), Digit(e.hash, k));
      if o == n then Sub(Node(SetBit(0, o), [Merge(was, e, k + 1)]))
      else if o < n then Sub(Node(SetBit(SetBit(0, o), n), [was, Leaf(e)]))
      else Sub(Node(SetBit(SetBit(0, n), o), [Leaf(e), was]))
  }

  function PutIn(es: seq<Entry>, e: Entry): (seq<Entry>, bool) {
    var i := KeyIndex(es, e.ckey);
    if i < |es| then (es[i := e.(place := es[i].place)], false) else (es + [e], true)
  }

  /** The new slot, and whether the key is new; a replacing entry takes over the
      sequence number. */
  function PutSlot(s: Slot, e: Entry, k: nat): (Slot, bool)
    decreases s, 0
  {
    match s
    case Leaf(x) => if x.ckey == e.ckey then (Leaf(e.(place := x.place)), false) else (Merge(s, e, k), true)
    case Collision(h, es) =>
      if h == e.hash then var (es', added) := PutIn(es, e); (Collision(h, es'), added)
      else (Merge(s, e, k), true)
    case Sub(m) => var (m', added) := Put(m, e, k); (Sub(m'), added)
  }

  function Put(n: Node, e: Entry, k: nat): (Node, bool)
    decreases n, 1
  {
    var d := Digit(e.hash, k);
    var i := Rank(n.bitmap, d);
    if !Bit(n.bitmap, d) then
      if i <= |n.slots| then (Node(SetBit(n.bitmap, d), n.slots[..i] + [Leaf(e)] + n.slots[i..]), true) else (n, false)
    else if i < |n.slots| then
      var (s, added) := PutSlot(n.slots[i], e, k + 1);
      (n.(slots := n.slots[i := s]), added)
    else (n, false)
  }

  function RemoveIn(es: seq<Entry>, ckey: string): seq<Entry> {
    var i := KeyIndex(es, ckey); if i < |es| then es[..i] + es[i + 1..] else es
  }

  /** What a slot becomes when a key is removed, `Gone` standing for nothing left. */
  datatype Removal = Absent | Gone | Left(slot: Slot)

  function RemoveSlot(s: Slot, h: nat, k: nat, ckey: string): Removal
    decreases s, 0
  {
    match s
    case Leaf(x) => if x.ckey == ckey then Gone else Absent
    case Collision(g, es) =>
      if FindIn(es, ckey).None? then Absent
      else
        var es' := RemoveIn(es, ckey);
        if |es'| == 1 then Left(Leaf(es'[0])) else Left(Collision(g, es'))
    case Sub(m) => Remove(m, h, k, ckey)
  }

  /** A node below the root left with one leaf gives way to it. */
  function Remove(n: Node, h: nat, k: nat, ckey: string): Removal
    decreases n, 1
  {
    var d := Digit(h, k);
    var i := Rank(n.bitmap, d);
    if !Bit(n.bitmap, d) || i >= |n.slots| then Absent
    else
      match RemoveSlot(n.slots[i], h, k + 1, ckey)
      case Absent => Absent
      case Left(s) => Left(Sub(n.(slots := n.slots[i := s])))
      case Gone => Without(n, d, k)
  }

  /** A node whose slot for `d` has gone. */
  function Without(n: Node, d: nat, k: nat): Removal
    requires Rank(n.bitmap, d) < |n.slots|
  {
    if |n.slots| == 1 then Gone
    else
      var i := Rank(n.bitmap, d);
      var rest := n.slots[..i] + n.slots[i + 1..];
      if |rest| == 1 && rest[0].Leaf? && k > 0 then Left(rest[0])
      else Left(Sub(Node(ClearBit(n.bitmap, d), rest)))
  }

  /** All entries, in hash order. */
  function Walk(n: Node): seq<Entry>
    decreases n, 1
  {
    WalkSlots(n.slots)
  }

  function WalkSlots(ss: seq<Slot>): seq<Entry>
    decreases ss, 0
  {
    if ss == [] then [] else WalkSlot(ss[0]) + WalkSlots(ss[1..])
  }

  function WalkSlot(s: Slot): seq<Entry>
    decreases s, 2
  {
    match s
    case Leaf(e) => [e]
    case Collision(_, es) => es
    case Sub(m) => Walk(m)
  }

  // ---- well-formed tries -------------------------------------------------

  ghost predicate Fits(e: Entry, path: seq<nat>) {
    forall i | 0 <= i < |path| :: Digit(e.hash, i) == path[i]
  }

  ghost predicate EntryOk(hash: string -> nat, e: Entry, path: seq<nat>) { e.hash == hash(e.ckey) && Fits(e, path) }

  ghost predicate DistinctKeys(es: seq<Entry>) {
    forall i, j | 0 <= i < j < |es| :: es[i].ckey != es[j].ckey
  }

  /** A slot reached along the digits of `path`. */
  ghost predicate SlotValid(hash: string -> nat, s: Slot, path: seq<nat>)
    decreases s, 0
  {
    match s
    case Leaf(e) => EntryOk(hash, e, path)
    case Collision(h, es) =>
      && |path| == DEPTH && |es| >= 2 && DistinctKeys(es)
      && (forall e | e in es :: EntryOk(hash, e, path) && e.hash == h)
    case Sub(m) => |path| < DEPTH && NodeValid(hash, m, path)
  }

  /** As many slots as bits, each slot holding the hashes that continue with its bit's
      digit. */
  ghost predicate NodeValid(hash: string -> nat, n: Node, path: seq<nat>)
    decreases n, 1
  {
    && |n.slots| == Ones(n.bitmap) && n.slots != []
    && (forall d {:trigger Bit(n.bitmap, d)} | Bit(n.bitmap, d) ::
          d < 32 && Rank(n.bitmap, d) < |n.slots|
          && SlotValid(hash, n.slots[Rank(n.bitmap, d)], path + [d]))
  }

  /** Keys whose hashes agree on the low 60 bits have equal hashes. */
  ghost predicate Spread(hash: string -> nat) {
    forall a, b :: LowPart(hash(a), DEPTH) == LowPart(hash(b), DEPTH) ==> hash(a) == hash(b)
  }
}
