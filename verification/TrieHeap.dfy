/** The trie as objects: nodes are shared between maps, and a builder writes in place
    through the nodes that carry its edit token.  Tokens are values: nothing makes one
    builder's differ from another's. */
module TrieHeap {
  import opened Basics
  import opened TrieBits
  import opened Trie
  import opened TrieMap

  datatype HSlot = HLeaf(entry: Entry) | HCollision(hash: nat, entries: seq<Entry>) | HSub(node: HNode)

  /** `own` is the nodes at or below this one that its builder may still write. */
  class HNode {
    var bitmap: nat
    var slots: seq<HSlot>
    const edit: Edit
    ghost var own: set<HNode>

    constructor (bitmap: nat, slots: seq<HSlot>, edit: Edit, ghost below: set<HNode>)
      ensures this.bitmap == bitmap && this.slots == slots && this.edit == edit && own == below + {this}
    {
      this.bitmap, this.slots, this.edit, own := bitmap, slots, edit, below + {this};
    }
  }

  /** Nodes among `z` that stand for `t`. */
  ghost predicate Holds(n: HNode, t: Node, z: set<HNode>)
    reads z
    decreases t, 0
  {
    && n in z && n.bitmap == t.bitmap && |n.slots| == |t.slots|
    && forall i | 0 <= i < |t.slots| :: SlotHolds(n.slots[i], t.slots[i], z)
  }

  ghost predicate SlotHolds(s: HSlot, t: Slot, z: set<HNode>)
    reads z
    decreases t, 1
  {
    match t
    case Leaf(e) => s == HLeaf(e)
    case Collision(h, es) => s == HCollision(h, es)
    case Sub(u) => s.HSub? && Holds(s.node, u, z)
  }

  /** The nodes a slot leads to that are not among the frozen ones `z`. */
  ghost function Own(s: HSlot, z: set<HNode>): set<HNode>
    reads if s.HSub? then {s.node} else {}
  {
    if s.HSub? && s.node !in z then s.node.own else {}
  }

  /** A node of the builder with token `edit`, standing for `t`: what lies below it is
      frozen or the builder's, and no node of the builder is reached twice. */
  ghost predicate Owned(n: HNode, t: Node, edit: Edit, z: set<HNode>)
    reads z, n, n.own
    decreases t, 1
  {
    Kept(n, t, edit, z, -1)
  }

  /** The same, of all slots but `skip`. */
  ghost predicate Kept(n: HNode, t: Node, edit: Edit, z: set<HNode>, skip: int)
    reads z, n, n.own
    decreases t, 0
  {
    && n in n.own && n.own !! z && n.bitmap == t.bitmap && |n.slots| == |t.slots|
    && (forall m | m in n.own :: m.edit == edit)
    && (forall i | 0 <= i < |t.slots| && i != skip ::
          Below(n, n.slots[i], z) && SlotOwned(n.slots[i], t.slots[i], edit, z))
    && (forall i, j | 0 <= i < j < |t.slots| && i != skip && j != skip ::
          Own(n.slots[i], z) !! Own(n.slots[j], z))
  }

  /** The slot leads to frozen nodes, or to nodes of the builder under `n`. */
  ghost predicate Below(n: HNode, s: HSlot, z: set<HNode>)
    reads n, n.own
  {
    s.HSub? ==> s.node in z || (s.node in n.own && s.node.own <= n.own - {n})
  }

  ghost predicate SlotOwned(s: HSlot, t: Slot, edit: Edit, z: set<HNode>)
    reads z, if s.HSub? then {s.node} else {}, Own(s, z)
    decreases t, 1
  {
    match t
    case Leaf(e) => s == HLeaf(e)
    case Collision(h, es) => s == HCollision(h, es)
    case Sub(u) => s.HSub? && if s.node in z then Holds(s.node, u, z) else Owned(s.node, u, edit, z)
  }

  /** A builder's node is written by its builder alone. */
  lemma OwnMarked(s: HSlot, t: Slot, edit: Edit, z: set<HNode>)
    requires SlotOwned(s, t, edit, z)
    ensures Own(s, z) !! z && forall m | m in Own(s, z) :: m.edit == edit
    ensures s.HSub? && s.node !in z ==> s.node in s.node.own
  {
    if s.HSub? && s.node !in z { assert Kept(s.node, t.node, edit, z, -1); }
  }

  ghost predicate Packed(t: Node) {
    |t.slots| == Ones(t.bitmap) && forall i | 0 <= i < |t.slots| && t.slots[i].Sub? :: Packed(t.slots[i].node)
  }

  lemma {:induction false} ValidPacked(hash: Hash, t: Node, path: seq<nat>)
    requires NodeValid(hash, t, path)
    ensures Packed(t)
  {
    forall i | 0 <= i < |t.slots| && t.slots[i].Sub? ensures Packed(t.slots[i].node) {
      var d := Select(t.bitmap, i);
      ValidPacked(hash, t.slots[i].node, path + [d]);
    }
  }

  /** Look-up follows the nodes down. */
  method GetFrom(n: HNode, h: nat, c: string, ghost t: Node, ghost z: set<HNode>) returns (r: Option<Entry>)
    requires Holds(n, t, z) && Packed(t)
    ensures r == Get(t, h, 0, c)
  {
    var cur := n;
    var k: nat := 0;
    ghost var u := t;
    while true
      invariant Holds(cur, u, z) && Packed(u) && Get(t, h, 0, c) == Get(u, h, k, c)
      decreases u
    {
      var d := Digit(h, k);
      if !Bit(cur.bitmap, d) { return None; }
      RankBelow(u.bitmap, d);
      var i := Rank(cur.bitmap, d);
      assert SlotHolds(cur.slots[i], u.slots[i], z);
      match cur.slots[i] {
        case HLeaf(e) => return if e.ckey == c then Some(e) else None;
        case HCollision(_, es) => return FindIn(es, c);
        case HSub(m) =>
          u := u.slots[i].node;
          cur, k := m, k + 1;
      }
    }
  }

  /** A new node of one slot. */
  method NewSingle(bitmap: nat, s: HSlot, edit: Edit, ghost t: Slot, ghost z: set<HNode>) returns (m: HNode)
    requires SlotOwned(s, t, edit, z)
    ensures fresh(m) && Owned(m, Node(bitmap, [t]), edit, z) && m.own == Own(s, z) + {m}
  {
    OwnMarked(s, t, edit, z);
    m := new HNode(bitmap, [s], edit, Own(s, z));
    assert Below(m, s, z) && SlotOwned(s, t, edit, z);
  }

  /** A new node of two slots, neither of which leads to nodes of the builder. */
  method NewPair(bitmap: nat, s1: HSlot, s2: HSlot, edit: Edit, ghost t1: Slot, ghost t2: Slot, ghost z: set<HNode>)
    returns (m: HNode)
    requires !t1.Sub? && !t2.Sub? && SlotOwned(s1, t1, edit, z) && SlotOwned(s2, t2, edit, z)
    ensures fresh(m) && Owned(m, Node(bitmap, [t1, t2]), edit, z) && m.own == {m}
  {
    m := new HNode(bitmap, [s1, s2], edit, {});
    assert SlotOwned(s1, t1, edit, z) && SlotOwned(s2, t2, edit, z);
  }

  /** A slot that is new: it leads to fresh nodes, or to none of the builder's. */
  method MergeSlot(s: HSlot, e: Entry, k: nat, edit: Edit, ghost t: Slot, ghost z: set<HNode>) returns (r: HSlot)
    requires !t.Sub? && SlotOwned(s, t, edit, z)
    ensures SlotOwned(r, Merge(t, e, k), edit, z) && fresh(Own(r, z)) && (r.HSub? ==> r.node in Own(r, z))
    decreases DEPTH - k
  {
    if k >= DEPTH {
      var es := match s case HLeaf(x) => [x] case HCollision(_, xs) => xs case HSub(_) => [];
      return HCollision(e.hash, es + [e]);
    }
    var hash := match s case HLeaf(x) => x.hash case HCollision(x, _) => x case HSub(_) => 0;
    var (o, n) := (Digit(hash, k), Digit(e.hash, k));
    var m: HNode;
    if o == n {
      var inner := MergeSlot(s, e, k + 1, edit, t, z);
      m := NewSingle(SetBit(0, o), inner, edit, Merge(t, e, k + 1), z);
    } else if o < n {
      m := NewPair(SetBit(SetBit(0, o), n), s, HLeaf(e), edit, t, Leaf(e), z);
    } else {
      m := NewPair(SetBit(SetBit(0, n), o), HLeaf(e), s, edit, Leaf(e), t, z);
    }
    r := HSub(m);
    assert Owned(m, Merge(t, e, k).node, edit, z);
  }

  // ---- insertion ---------------------------------------------------------

  /** No frozen node carries the token. */
  ghost predicate Foreign(edit: Edit, z: set<HNode>) { forall m | m in z :: edit.Published? || m.edit != edit }

  /** Nodes that may be put in: frozen ones, or the builder's. */
  ghost predicate Usable(n: HNode, t: Node, edit: Edit, z: set<HNode>, skip: int)
    reads z, n, if n in z then {} else n.own
  {
    if n in z then Holds(n, t, z) else edit.Token? && Kept(n, t, edit, z, skip)
  }

  /** The node itself if the builder owns it, and a copy otherwise. */
  method Mutable(n: HNode, edit: Edit, ghost t: Node, ghost z: set<HNode>, ghost skip: int) returns (out: HNode)
    requires Foreign(edit, z) && Usable(n, t, edit, z, skip)
    ensures Kept(out, t, edit, z, skip)
    ensures if n in z then fresh(out) && out.own == {out} else out == n
    ensures n in z ==> forall i | 0 <= i < |t.slots| :: Own(out.slots[i], z) == {}
    ensures out.slots == n.slots
  {
    if edit.Token? && n.edit == edit { return n; }
    out := new HNode(n.bitmap, n.slots, edit, {});
    forall i | 0 <= i < |t.slots|
      ensures Below(out, out.slots[i], z) && SlotOwned(out.slots[i], t.slots[i], edit, z) && Own(out.slots[i], z) == {}
    {
      assert SlotHolds(n.slots[i], t.slots[i], z);
      if t.slots[i].Sub? { assert Holds(n.slots[i].node, t.slots[i].node, z); }
    }
  }

  method ReplaceSlot(n: HNode, i: nat, s: HSlot, edit: Edit, ghost t: Node, ghost u: Slot, ghost z: set<HNode>)
    returns (out: HNode)
    requires i < |t.slots| && Foreign(edit, z) && Usable(n, t, edit, z, i) && SlotOwned(s, u, edit, z)
    requires n !in Own(s, z)
    requires n !in z ==> forall j | 0 <= j < |t.slots| && j != i :: Own(n.slots[j], z) !! Own(s, z)
    modifies if n in z then {} else {n}
    ensures Owned(out, t.(slots := t.slots[i := u]), edit, z)
    ensures if n in z then fresh(out) && out.own == Own(s, z) + {out} else out == n && out.own == old(n.own) + Own(s, z)
  {
    OwnMarked(s, u, edit, z);
    out := Mutable(n, edit, t, z, i);
    ghost var before := out.slots;
    ghost var mine := Own(s, z);
    out.slots := out.slots[i := s];
    out.own := out.own + mine;
    forall j | 0 <= j < |t.slots|
      ensures Below(out, out.slots[j], z) && SlotOwned(out.slots[j], t.slots[i := u][j], edit, z)
    {
      if j != i { assert out.slots[j] == before[j]; }
    }
  }

  method InsertSlot(n: HNode, d: nat, i: nat, e: Entry, edit: Edit, ghost t: Node, ghost z: set<HNode>)
    returns (out: HNode)
    requires i <= |t.slots| && Foreign(edit, z) && Usable(n, t, edit, z, -1)
    modifies if n in z then {} else {n}
    ensures Owned(out, Node(SetBit(t.bitmap, d), t.slots[..i] + [Leaf(e)] + t.slots[i..]), edit, z)
    ensures if n in z then fresh(out) && out.own == {out} else out == n && out.own == old(n.own)
  {
    out := Mutable(n, edit, t, z, -1);
    ghost var before := out.slots;
    out.slots := out.slots[..i] + [HLeaf(e)] + out.slots[i..];
    out.bitmap := SetBit(out.bitmap, d);
    ghost var ts := t.slots[..i] + [Leaf(e)] + t.slots[i..];
    forall j | 0 <= j < |ts| ensures Below(out, out.slots[j], z) && SlotOwned(out.slots[j], ts[j], edit, z) {
      if j == i {
        assert out.slots[j] == HLeaf(e) && ts[j] == Leaf(e);
      } else {
        var k := if j < i then j else j - 1;
        assert out.slots[j] == before[k] && ts[j] == t.slots[k];
        assert Below(out, before[k], z) && SlotOwned(before[k], t.slots[k], edit, z);
      }
    }
    InsertApart(before, i, HLeaf(e), z);
  }

  lemma InsertApart(ss: seq<HSlot>, i: nat, s: HSlot, z: set<HNode>)
    requires i <= |ss| && Own(s, z) == {}
    requires forall j, k | 0 <= j < k < |ss| :: Own(ss[j], z) !! Own(ss[k], z)
    ensures var ts := ss[..i] + [s] + ss[i..];
            forall j, k | 0 <= j < k < |ts| :: Own(ts[j], z) !! Own(ts[k], z)
  {
    var ts := ss[..i] + [s] + ss[i..];
    forall j, k | 0 <= j < k < |ts| ensures Own(ts[j], z) !! Own(ts[k], z) {
      assert j != i ==> ts[j] == ss[if j < i then j else j - 1];
      assert k != i ==> ts[k] == ss[if k < i then k else k - 1];
    }
  }

  /** What a builder may come to own through a slot: what it owned, and new nodes. */
  method PutInSlot(s: HSlot, e: Entry, k: nat, edit: Edit, ghost t: Slot, ghost z: set<HNode>)
    returns (r: HSlot, added: bool)
    requires Foreign(edit, z) && SlotOwned(s, t, edit, z) && (t.Sub? ==> Packed(t.node))
    requires edit.Published? && s.HSub? ==> s.node in z
    modifies Own(s, z)
    ensures SlotOwned(r, PutSlot(t, e, k).0, edit, z) && added == PutSlot(t, e, k).1
    ensures fresh(Own(r, z) - old(Own(s, z)))
    decreases t, 0
  {
    match s {
      case HLeaf(x) =>
        if x.ckey == e.ckey {
          r, added := HLeaf(e.(place := x.place)), false;
        } else {
          r := MergeSlot(s, e, k, edit, t, z);
          added := true;
        }
      case HCollision(h, es) =>
        if h == e.hash {
          var (es', new_) := PutIn(es, e);
          r, added := HCollision(h, es'), new_;
        } else {
          r := MergeSlot(s, e, k, edit, t, z);
          added := true;
        }
      case HSub(m) =>
        var out;
        out, added := PutNode(m, e, k, edit, t.node, z);
        r := HSub(out);
    }
  }

  method PutNode(n: HNode, e: Entry, k: nat, edit: Edit, ghost t: Node, ghost z: set<HNode>)
    returns (out: HNode, added: bool)
    requires Foreign(edit, z) && Usable(n, t, edit, z, -1) && Packed(t)
    modifies if n in z then {} else n.own
    ensures out !in z && Owned(out, Put(t, e, k).0, edit, z) && added == Put(t, e, k).1
    ensures fresh(out.own - old(if n in z then {} else n.own))
    decreases t, 1
  {
    var d := Digit(e.hash, k);
    var i := Rank(n.bitmap, d);
    RankBelow(t.bitmap, d);
    if !Bit(n.bitmap, d) {
      out := InsertSlot(n, d, i, e, edit, t, z);
      added := true;
    } else {
      ghost var p := PutSlot(t.slots[i], e, k + 1);
      ghost var touched := Own(n.slots[i], z);
      UsableSlot(n, t, edit, z, i);
      if n !in z { OthersApart(n, t, edit, z, i); }
      var s;
      s, added := PutInSlot(n.slots[i], e, k + 1, edit, t.slots[i], z);
      if n !in z {
        forall j | 0 <= j < |t.slots| && j != i
          ensures Below(n, n.slots[j], z) && SlotOwned(n.slots[j], t.slots[j], edit, z)
          ensures Own(n.slots[j], z) == old(Own(n.slots[j], z))
        {
          assert old(Below(n, n.slots[j], z) && SlotOwned(n.slots[j], t.slots[j], edit, z));
          assert old(Own(n.slots[j], z)) !! touched;
        }
      }
      out := ReplaceSlot(n, i, s, edit, t, p.0, z);
    }
  }

  lemma OthersApart(n: HNode, t: Node, edit: Edit, z: set<HNode>, i: nat)
    requires i < |t.slots| && Owned(n, t, edit, z)
    ensures |n.slots| == |t.slots|
    ensures forall j | 0 <= j < |t.slots| && j != i :: Own(n.slots[j], z) !! Own(n.slots[i], z)
    ensures forall j | 0 <= j < |t.slots| && n.slots[j].HSub? && n.slots[j].node !in z ::
              n.slots[j].node in Own(n.slots[j], z)
  {
    forall j | 0 <= j < |t.slots| && n.slots[j].HSub? && n.slots[j].node !in z
      ensures n.slots[j].node in Own(n.slots[j], z)
    {
      OwnMarked(n.slots[j], t.slots[j], edit, z);
    }
  }

  lemma UsableSlot(n: HNode, t: Node, edit: Edit, z: set<HNode>, i: nat)
    requires i < |t.slots| && Usable(n, t, edit, z, -1)
    ensures SlotOwned(n.slots[i], t.slots[i], edit, z)
    ensures if n in z then Own(n.slots[i], z) == {} && (n.slots[i].HSub? ==> n.slots[i].node in z)
            else Own(n.slots[i], z) <= n.own - {n} && Own(n.slots[i], z) !! z
  {
    if n in z {
      assert SlotHolds(n.slots[i], t.slots[i], z);
      if t.slots[i].Sub? { assert Holds(n.slots[i].node, t.slots[i].node, z); }
    } else {
      OwnMarked(n.slots[i], t.slots[i], edit, z);
    }
  }

  // ---- removal -----------------------------------------------------------

  datatype HRemoval = HAbsent | HGone | HLeft(slot: HSlot)

  /** Nothing there is written: what is left leads to new nodes and frozen ones. */
  ghost predicate Leaves(hr: HRemoval, r: Removal, z: set<HNode>)
    reads z, if hr.HLeft? && hr.slot.HSub? then {hr.slot.node} else {}, if hr.HLeft? then Own(hr.slot, z) else {}
  {
    match r
    case Absent => hr == HAbsent
    case Gone => hr == HGone
    case Left(u) => hr.HLeft? && SlotOwned(hr.slot, u, Published, z)
  }

  method RemoveInSlot(s: HSlot, h: nat, k: nat, c: string, ghost t: Slot, ghost z: set<HNode>) returns (r: HRemoval)
    requires SlotHolds(s, t, z) && (t.Sub? ==> Packed(t.node))
    ensures Leaves(r, RemoveSlot(t, h, k, c), z) && (r.HLeft? ==> fresh(Own(r.slot, z)))
    decreases t, 0
  {
    match s {
      case HLeaf(x) => r := if x.ckey == c then HGone else HAbsent;
      case HCollision(g, es) =>
        if FindIn(es, c).None? { return HAbsent; }
        var es' := RemoveIn(es, c);
        r := if |es'| == 1 then HLeft(HLeaf(es'[0])) else HLeft(HCollision(g, es'));
      case HSub(m) => r := RemoveNode(m, h, k, c, t.node, z);
    }
  }

  method WithoutSlot(n: HNode, d: nat, k: nat, ghost t: Node, ghost z: set<HNode>) returns (r: HRemoval)
    requires Holds(n, t, z) && Rank(t.bitmap, d) < |t.slots|
    ensures Leaves(r, Without(t, d, k), z) && (r.HLeft? ==> fresh(Own(r.slot, z)))
  {
    if |n.slots| == 1 { return HGone; }
    var i := Rank(n.bitmap, d);
    var rest := n.slots[..i] + n.slots[i + 1..];
    ghost var left := t.slots[..i] + t.slots[i + 1..];
    forall j | 0 <= j < |rest|
      ensures SlotHolds(rest[j], left[j], z) && Own(rest[j], z) == {} && SlotOwned(rest[j], left[j], Published, z)
      ensures rest[j].HSub? ==> rest[j].node in z
    {
      var x := if j < i then j else j + 1;
      assert rest[j] == n.slots[x] && left[j] == t.slots[x] && SlotHolds(n.slots[x], t.slots[x], z);
      if left[j].Sub? { assert Holds(rest[j].node, left[j].node, z); }
    }
    if |rest| == 1 && rest[0].HLeaf? && k > 0 { return HLeft(rest[0]); }
    var out := new HNode(ClearBit(n.bitmap, d), rest, Published, {});
    assert Kept(out, Node(ClearBit(t.bitmap, d), left), Published, z, -1);
    r := HLeft(HSub(out));
  }

  method RemoveNode(n: HNode, h: nat, k: nat, c: string, ghost t: Node, ghost z: set<HNode>) returns (r: HRemoval)
    requires Holds(n, t, z) && Packed(t)
    ensures Leaves(r, Remove(t, h, k, c), z) && (r.HLeft? ==> fresh(Own(r.slot, z)))
    decreases t, 1
  {
    var d := Digit(h, k);
    var i := Rank(n.bitmap, d);
    if !Bit(n.bitmap, d) { return HAbsent; }
    RankBelow(t.bitmap, d);
    assert SlotHolds(n.slots[i], t.slots[i], z);
    var inner := RemoveInSlot(n.slots[i], h, k + 1, c, t.slots[i], z);
    match inner {
      case HAbsent => return HAbsent;
      case HGone => r := WithoutSlot(n, d, k, t, z);
      case HLeft(s) =>
        ghost var u := RemoveSlot(t.slots[i], h, k + 1, c).slot;
        var out := ReplaceSlot(n, i, s, Published, t, u, z);
        r := HLeft(HSub(out));
    }
  }

  // ---- publishing --------------------------------------------------------

  lemma {:induction false} HoldsMore(n: HNode, t: Node, z: set<HNode>, y: set<HNode>)
    requires Holds(n, t, z) && z <= y
    ensures Holds(n, t, y)
    decreases t
  {
    forall i | 0 <= i < |t.slots| ensures SlotHolds(n.slots[i], t.slots[i], y) {
      assert SlotHolds(n.slots[i], t.slots[i], z);
      if t.slots[i].Sub? { HoldsMore(n.slots[i].node, t.slots[i].node, z, y); }
    }
  }

  /** When the builder is done its nodes are frozen with the rest. */
  lemma {:induction false} Publish(n: HNode, t: Node, edit: Edit, z: set<HNode>, y: set<HNode>)
    requires Owned(n, t, edit, z) && z + n.own <= y
    ensures Holds(n, t, y)
    decreases t
  {
    forall i | 0 <= i < |t.slots| ensures SlotHolds(n.slots[i], t.slots[i], y) {
      assert Below(n, n.slots[i], z) && SlotOwned(n.slots[i], t.slots[i], edit, z);
      if t.slots[i].Sub? {
        var m := n.slots[i].node;
        if m in z {
          HoldsMore(m, t.slots[i].node, z, y);
        } else {
          Publish(m, t.slots[i].node, edit, z, y);
        }
      }
    }
  }
}
