/** Maps and builders over shared nodes: whatever is put, removed or built, every map
    handed out before goes on standing for what it stood for. */
module TrieSession {
  import opened Basics
  import opened TrieBits
  import opened Trie
  import opened TrieChanges
  import opened TrieMap
  import opened TrieRuns
  import opened TrieHeap

  /** `nodes` is what the map may reach, `view` the map as a value. */
  class HMap {
    const root: HNode?
    const n: nat
    const next: nat
    ghost const view: MapItem
    ghost const nodes: set<HNode>

    constructor (root: HNode?, n: nat, next: nat, ghost view: MapItem, ghost nodes: set<HNode>)
      ensures this.root == root && this.n == n && this.next == next && this.view == view && this.nodes == nodes
    {
      this.root, this.n, this.next, this.view, this.nodes := root, n, next, view, nodes;
    }

    ghost predicate Valid(hash: Hash)
      reads nodes
    {
      && TrieMap.Valid(hash, view) && n == view.n && next == view.next
      && Stands(root, view.root, nodes)
    }

    method Get(hash: Hash, c: string) returns (r: Option<nat>)
      requires Valid(hash)
      ensures r == ListGet(View(view), c)
    {
      GetRefines(hash, view, c);
      if root == null { return None; }
      ValidPacked(hash, view.root.value, []);
      var e := GetFrom(root, hash(c), c, view.root.value, nodes);
      r := if e.None? then None else Some(e.value.value);
    }

    /** A new map; nothing that exists is written. */
    method Put(hash: Hash, c: string, v: nat) returns (m: HMap)
      requires Valid(hash) && Spread(hash)
      ensures fresh(m) && m.Valid(hash) && m.view == MapPut(hash, view, c, v)
      ensures nodes <= m.nodes && fresh(m.nodes - nodes)
      ensures View(m.view) == ListPut(View(view), c, v)
    {
      PutRefines(hash, view, c, v);
      var e := Entry(c, hash(c), v, next);
      ghost var view' := MapPut(hash, view, c, v);
      var r, added := PutRoot(root, e, Published, hash, view.root, nodes);
      Publish(r, view'.root.value, Published, nodes, nodes + r.own);
      m := new HMap(r, if added then n + 1 else n, if added then next + 1 else next, view', nodes + r.own);
    }

    method RemoveAll(hash: Hash, keys: seq<string>) returns (m: HMap)
      requires Valid(hash)
      ensures m.Valid(hash) && m.view == MapRemoveAll(hash, view, keys)
      ensures m == this || fresh(m)
      ensures nodes <= m.nodes && fresh(m.nodes - nodes)
      ensures View(m.view) == ListRemove(View(view), keys)
    {
      RemoveAllRefines(hash, view, keys);
      var r := root;
      var count := n;
      ghost var v := view;
      ghost var z := nodes;
      var i := 0;
      while i < |keys|
        invariant i <= |keys|
        invariant MapRemoveAll(hash, view, keys) == MapRemoveAll(hash, v, keys[i..])
        invariant TrieMap.Valid(hash, v) && count == v.n && v.next == view.next
        invariant nodes <= z && fresh(z - nodes) && Stands(r, v.root, z)
      {
        assert keys[i..][1..] == keys[i + 1..];
        var gone;
        r, gone, z := RemoveRoot(r, hash, keys[i], v, z);
        v := MapRemove(hash, v, keys[i]);
        if gone { count := count - 1; }
        i := i + 1;
      }
      if count == n { return this; }
      m := new HMap(r, count, next, v, z);
    }
  }

  ghost predicate Stands(root: HNode?, t: Option<Node>, z: set<HNode>)
    reads z
  {
    (root == null <==> t.None?) && (root != null ==> Holds(root, t.value, z))
  }

  method RemoveRoot(root: HNode?, hash: Hash, c: string, ghost v: MapItem, ghost z: set<HNode>)
    returns (r: HNode?, gone: bool, ghost y: set<HNode>)
    requires TrieMap.Valid(hash, v) && Stands(root, v.root, z)
    ensures TrieMap.Valid(hash, MapRemove(hash, v, c)) && Stands(r, MapRemove(hash, v, c).root, y)
    ensures z <= y && fresh(y - z)
    ensures MapRemove(hash, v, c).next == v.next && MapRemove(hash, v, c).n == v.n - (if gone then 1 else 0)
  {
    r, gone, y := root, false, z;
    RemoveRefines(hash, v, c);
    RemoveEntries(hash, v, c);
    if root == null { return; }
    ValidPacked(hash, v.root.value, []);
    RemoveExact(hash, v.root.value, c, []);
    var left := RemoveNode(root, hash(c), 0, c, v.root.value, z);
    if left.HAbsent? { return; }
    gone, r := true, null;
    if left.HLeft? && left.slot.HSub? {
      r := left.slot.node;
      y := z + Own(left.slot, z);
      ghost var t := Remove(v.root.value, hash(c), 0, c).slot.node;
      if r in z { HoldsMore(r, t, z, y); } else { Publish(r, t, Published, z, y); }
    }
  }

  /** `n.put(e, 0, edit)` where the map may be empty. */
  method PutRoot(root: HNode?, e: Entry, edit: Edit, ghost hash: Hash, ghost t: Option<Node>, ghost z: set<HNode>)
    returns (r: HNode, added: bool)
    requires Foreign(edit, z) && (root == null <==> t.None?)
    requires root != null ==> NodeValid(hash, t.value, []) && Usable(root, t.value, edit, z, -1)
    modifies if root == null || root in z then {} else root.own
    ensures r !in z && fresh(r.own - old(if root == null || root in z then {} else root.own))
    ensures if t.None? then Owned(r, Node(SetBit(0, Digit(e.hash, 0)), [Leaf(e)]), edit, z) && added
            else Owned(r, Put(t.value, e, 0).0, edit, z) && added == Put(t.value, e, 0).1
  {
    if root == null {
      r := NewSingle(SetBit(0, Digit(e.hash, 0)), HLeaf(e), edit, Leaf(e), z);
      added := true;
    } else {
      ValidPacked(hash, t.value, []);
      r, added := PutNode(root, e, 0, edit, t.value, z);
    }
  }

  /** Accumulates entries, writing through the nodes that carry its token; `frozen` is
      what it must not write. */
  class HBuilder {
    const edit: Edit
    var root: HNode?
    var n: nat
    var next: nat
    ghost var view: MapItem
    ghost const frozen: set<HNode>

    constructor (token: nat)
      ensures frozen == {} && view == NewMap && Mine() == {} && edit == Token(token)
      ensures forall hash :: Valid(hash)
    {
      edit := Token(token);
      root, n, next := null, 0, 0;
      view, frozen := NewMap, {};
    }

    /** Begins with the entries of an existing map, whose nodes `z` must not carry the
        token; then they are never written. */
    constructor From(hash: Hash, m: HMap, token: nat, ghost z: set<HNode>)
      requires m.Valid(hash) && z <= m.nodes && Stands(m.root, m.view.root, z)
      requires Foreign(Token(token), z)
      ensures Valid(hash) && frozen == z && view == m.view && Mine() == {} && edit == Token(token)
    {
      edit := Token(token);
      root, n, next := m.root, m.n, m.next;
      view, frozen := m.view, z;
    }

    ghost function Mine(): set<HNode>
      reads this, if root == null then {} else {root}
    {
      if root == null || root in frozen then {} else root.own
    }

    /** Every node the builder may reach. */
    ghost function Reach(): set<HNode>
      reads this, if root == null then {} else {root}
    {
      frozen + (if root == null then {} else {root}) + Mine()
    }

    ghost predicate Valid(hash: Hash)
      reads this, Reach()
    {
      && TrieMap.Valid(hash, view) && n == view.n && next == view.next
      && edit.Token? && Foreign(edit, frozen)
      && (root == null <==> view.root.None?)
      && (root != null ==> Usable(root, view.root.value, edit, frozen, -1))
    }

    method Set(hash: Hash, c: string, v: nat)
      requires Valid(hash) && Spread(hash)
      modifies this, Mine()
      ensures Valid(hash) && view == MapPut(hash, old(view), c, v)
      ensures fresh(Mine() - old(Mine())) && Mine() !! frozen
      ensures View(view) == ListPut(View(old(view)), c, v)
    {
      PutRefines(hash, view, c, v);
      var e := Entry(c, hash(c), v, next);
      var r, added := PutRoot(root, e, edit, hash, view.root, frozen);
      view := MapPut(hash, view, c, v);
      root := r;
      if added { n, next := n + 1, next + 1; }
    }

    method Lookup(hash: Hash, c: string) returns (r: Option<nat>)
      requires Valid(hash)
      ensures r == ListGet(View(view), c)
    {
      GetRefines(hash, view, c);
      if root == null { return None; }
      ghost var z := frozen + Mine();
      UsableHolds(root, view.root.value, edit, frozen, z);
      ValidPacked(hash, view.root.value, []);
      var e := GetFrom(root, hash(c), c, view.root.value, z);
      r := if e.None? then None else Some(e.value.value);
    }

    /** Hands the map over; the builder's nodes are frozen with the rest. */
    method Build(hash: Hash) returns (m: HMap)
      requires Valid(hash)
      ensures fresh(m) && m.Valid(hash) && m.view == view && m.nodes == frozen + Mine()
    {
      if root != null { UsableHolds(root, view.root.value, edit, frozen, frozen + Mine()); }
      m := new HMap(root, n, next, view, frozen + Mine());
    }
  }

  lemma UsableHolds(n: HNode, t: Node, edit: Edit, z: set<HNode>, y: set<HNode>)
    requires Usable(n, t, edit, z, -1) && z <= y && (n !in z ==> n.own <= y)
    ensures Holds(n, t, y)
  {
    if n in z { HoldsMore(n, t, z, y); } else { Publish(n, t, edit, z, y); }
  }

  ghost function MapNodes(maps: seq<HMap>): set<HNode> { set m, x | m in maps && x in m.nodes :: x }

  ghost function Roots(bs: seq<HBuilder>): set<HNode>
    reads bs
  {
    set b | b in bs && b.root != null :: b.root
  }

  ghost function BuilderNodes(bs: seq<HBuilder>): set<HNode>
    reads bs, Roots(bs)
  {
    set b, x | b in bs && x in b.Reach() :: x
  }

  ghost predicate MapsValid(hash: Hash, maps: seq<HMap>)
    reads MapNodes(maps)
  {
    forall m | m in maps :: m.Valid(hash)
  }

  /** What one builder may write is neither frozen nor another's. */
  ghost predicate BuildersValid(hash: Hash, bs: seq<HBuilder>)
    reads bs, Roots(bs), BuilderNodes(bs)
  {
    && (forall b | b in bs :: b.Valid(hash) && b.Mine() !! b.frozen)
    && (forall j, k | 0 <= j < k < |bs| :: bs[j] != bs[k])
    && (forall a, b | a in bs && b in bs && a != b ::
          a.Mine() !! b.Mine() && a.frozen !! b.Mine())
  }

  /** Nor does it lie in a map handed out. */
  ghost predicate Separate(maps: seq<HMap>, bs: seq<HBuilder>)
    reads bs, Roots(bs)
  {
    forall m, b | m in maps && b in bs :: m.nodes !! b.Mine()
  }

  lemma OneMoreMap(hash: Hash, maps: seq<HMap>, bs: seq<HBuilder>, m: HMap)
    requires MapsValid(hash, maps) && Separate(maps, bs) && m.Valid(hash)
    requires forall b | b in bs :: m.nodes !! b.Mine()
    ensures MapsValid(hash, maps + [m]) && Separate(maps + [m], bs)
  {
  }

  lemma OneMoreBuilder(hash: Hash, maps: seq<HMap>, bs: seq<HBuilder>, b: HBuilder)
    requires BuildersValid(hash, bs) && Separate(maps, bs) && b.Valid(hash) && b.Mine() == {} && b !in bs
    requires forall x | x in bs :: b.frozen !! x.Mine()
    ensures BuildersValid(hash, bs + [b]) && Separate(maps, bs + [b])
  {
  }

  lemma OneBuilderLess(hash: Hash, maps: seq<HMap>, bs: seq<HBuilder>, j: nat)
    requires BuildersValid(hash, bs) && Separate(maps, bs) && j < |bs|
    ensures BuildersValid(hash, bs[..j] + bs[j + 1..]) && Separate(maps, bs[..j] + bs[j + 1..])
    ensures forall b | b in bs[..j] + bs[j + 1..] :: b in bs && b != bs[j]
  {
    var rest := bs[..j] + bs[j + 1..];
    assert forall k | 0 <= k < |rest| :: rest[k] == bs[if k < j then k else k + 1];
  }

  /** Any number of maps handed out and of open builders. */
  datatype Session = Session(maps: seq<HMap>, builders: seq<HBuilder>)

  ghost predicate Valid(hash: Hash, s: Session)
    reads MapNodes(s.maps), s.builders, Roots(s.builders), BuilderNodes(s.builders)
  {
    Spread(hash) && MapsValid(hash, s.maps) && BuildersValid(hash, s.builders) && Separate(s.maps, s.builders)
  }

  method PutInto(hash: Hash, s: Session, i: nat, c: string, v: nat) returns (m: HMap)
    requires Valid(hash, s) && i < |s.maps|
    ensures Valid(hash, Session(s.maps + [m], s.builders))
    ensures View(m.view) == ListPut(View(s.maps[i].view), c, v)
  {
    m := s.maps[i].Put(hash, c, v);
    OneMoreMap(hash, s.maps, s.builders, m);
  }

  method RemoveFrom(hash: Hash, s: Session, i: nat, keys: seq<string>) returns (m: HMap)
    requires Valid(hash, s) && i < |s.maps|
    ensures Valid(hash, Session(s.maps + [m], s.builders))
    ensures View(m.view) == ListRemove(View(s.maps[i].view), keys)
  {
    m := s.maps[i].RemoveAll(hash, keys);
    OneMoreMap(hash, s.maps, s.builders, m);
  }

  method StartEmpty(hash: Hash, s: Session, token: nat) returns (b: HBuilder)
    requires Valid(hash, s)
    ensures fresh(b) && Valid(hash, Session(s.maps, s.builders + [b])) && View(b.view) == []
  {
    NewValid(hash);
    b := new HBuilder(token);
    OneMoreBuilder(hash, s.maps, s.builders, b);
  }

  /** Whatever other tokens are about, the seeding map's nodes alone must not carry this
      one. */
  method Start(hash: Hash, s: Session, i: nat, token: nat, ghost z: set<HNode>) returns (b: HBuilder)
    requires Valid(hash, s) && i < |s.maps|
    requires z <= s.maps[i].nodes && Stands(s.maps[i].root, s.maps[i].view.root, z) && Foreign(Token(token), z)
    ensures fresh(b) && Valid(hash, Session(s.maps, s.builders + [b])) && b.view == s.maps[i].view
  {
    b := new HBuilder.From(hash, s.maps[i], token, z);
    OneMoreBuilder(hash, s.maps, s.builders, b);
  }

  /** No map handed out before, and no other builder, sees what one builder writes. */
  method SetIn(hash: Hash, s: Session, j: nat, c: string, v: nat)
    requires Valid(hash, s) && j < |s.builders|
    modifies s.builders[j], s.builders[j].Mine()
    ensures Valid(hash, s) && View(s.builders[j].view) == ListPut(View(old(s.builders[j].view)), c, v)
    ensures forall k | 0 <= k < |s.builders| && k != j :: s.builders[k].view == old(s.builders[k].view)
  {
    var b := s.builders[j];
    b.Set(hash, c, v);
    assert MapsValid(hash, s.maps);
    forall a | a in s.builders && a != b ensures a.Valid(hash) && a.Mine() == old(a.Mine()) && a.view == old(a.view) {
      assert old(a.Valid(hash)) && old(b.Mine()) !! a.frozen;
    }
    assert Separate(s.maps, s.builders);
  }

  method BuildFrom(hash: Hash, s: Session, j: nat) returns (m: HMap)
    requires Valid(hash, s) && j < |s.builders|
    ensures Valid(hash, Session(s.maps + [m], s.builders[..j] + s.builders[j + 1..])) && m.view == s.builders[j].view
  {
    m := s.builders[j].Build(hash);
    OneBuilderLess(hash, s.maps, s.builders, j);
    OneMoreMap(hash, s.maps, s.builders[..j] + s.builders[j + 1..], m);
  }
}
