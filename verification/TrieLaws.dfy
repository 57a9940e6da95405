/** The trie is a finite map: look-up finds exactly what the walk lists, keys are
    distinct, and insertion and removal change one entry. */
module TrieLaws {
  import opened Basics
  import opened TrieBits
  import opened Trie

  // ---- the walk ----------------------------------------------------------

  lemma {:induction false} WalkSplit(ss: seq<Slot>, i: nat)
    requires i <= |ss|
    ensures WalkSlots(ss) == WalkSlots(ss[..i]) + WalkSlots(ss[i..])
  {
    if i == 0 {
      assert ss[..0] == [] && ss[0..] == ss;
    } else {
      WalkSplit(ss[1..], i - 1);
      assert ss[..i][1..] == ss[1..][..i - 1] && ss[1..][i - 1..] == ss[i..];
    }
  }

  /** One slot among the others. */
  lemma WalkAround(a: seq<Slot>, s: Slot, b: seq<Slot>)
    ensures WalkSlots(a + [s] + b) == WalkSlots(a) + WalkSlot(s) + WalkSlots(b)
  {
    var ss := a + [s] + b;
    WalkSplit(ss, |a|);
    assert ss[..|a|] == a && ss[|a|..] == [s] + b;
    assert ([s] + b)[1..] == b;
  }

  lemma WalkUpdate(ss: seq<Slot>, i: nat, s: Slot)
    requires i < |ss|
    ensures multiset(WalkSlots(ss)) == multiset(WalkSlots(ss[..i] + ss[i + 1..])) + multiset(WalkSlot(ss[i]))
    ensures multiset(WalkSlots(ss[i := s])) == multiset(WalkSlots(ss[..i] + ss[i + 1..])) + multiset(WalkSlot(s))
  {
    var (a, b) := (ss[..i], ss[i + 1..]);
    assert ss == a + [ss[i]] + b && ss[i := s] == a + [s] + b;
    WalkBetween(a, ss[i], b);
    WalkBetween(a, s, b);
  }

  lemma WalkBetween(a: seq<Slot>, s: Slot, b: seq<Slot>)
    ensures multiset(WalkSlots(a + [s] + b)) == multiset(WalkSlots(a + b)) + multiset(WalkSlot(s))
  {
    WalkAround(a, s, b);
    WalkSplit(a + b, |a|);
    assert (a + b)[..|a|] == a && (a + b)[|a|..] == b;
  }

  lemma WalkInsert(ss: seq<Slot>, i: nat, s: Slot)
    requires i <= |ss|
    ensures multiset(WalkSlots(ss[..i] + [s] + ss[i..])) == multiset(WalkSlots(ss)) + multiset(WalkSlot(s))
  {
    WalkAround(ss[..i], s, ss[i..]);
    WalkSplit(ss, i);
  }

  lemma {:induction false} InSlots(ss: seq<Slot>, e: Entry) returns (i: nat)
    requires e in WalkSlots(ss)
    ensures i < |ss| && e in WalkSlot(ss[i])
  {
    if e in WalkSlot(ss[0]) {
      i := 0;
    } else {
      var r := InSlots(ss[1..], e);
      i := r + 1;
    }
  }

  lemma SlotIn(ss: seq<Slot>, i: nat, e: Entry)
    requires i < |ss| && e in WalkSlot(ss[i])
    ensures e in WalkSlots(ss)
  {
    assert ss == ss[..i] + [ss[i]] + ss[i + 1..];
    WalkAround(ss[..i], ss[i], ss[i + 1..]);
  }

  // ---- where entries lie -------------------------------------------------

  lemma {:induction false} SlotFits(hash: string -> nat, s: Slot, path: seq<nat>, e: Entry)
    requires SlotValid(hash, s, path) && e in WalkSlot(s)
    ensures EntryOk(hash, e, path)
    decreases s, 0
  {
    if s.Sub? { NodeFits(hash, s.node, path, e); }
  }

  lemma {:induction false} NodeFits(hash: string -> nat, n: Node, path: seq<nat>, e: Entry)
    requires NodeValid(hash, n, path) && e in Walk(n)
    ensures EntryOk(hash, e, path)
    decreases n, 1
  {
    var i := InSlots(n.slots, e);
    var d := Select(n.bitmap, i);
    SlotFits(hash, n.slots[i], path + [d], e);
    assert forall j | 0 <= j < |path| :: (path + [d])[j] == path[j];
  }

  /** An entry lies in the slot of its digit. */
  lemma EntrySlot(hash: string -> nat, n: Node, path: seq<nat>, e: Entry)
    requires NodeValid(hash, n, path) && e in Walk(n)
    ensures var d := Digit(e.hash, |path|);
            Bit(n.bitmap, d) && e in WalkSlot(n.slots[Rank(n.bitmap, d)])
  {
    var i := InSlots(n.slots, e);
    var d := Select(n.bitmap, i);
    SlotFits(hash, n.slots[i], path + [d], e);
    assert (path + [d])[|path|] == d;
  }

  // ---- look-up -----------------------------------------------------------

  lemma FindExact(es: seq<Entry>, c: string, e: Entry)
    requires DistinctKeys(es)
    ensures FindIn(es, c) == Some(e) <==> e in es && e.ckey == c
  {
    if e in es && e.ckey == c {
      var i :| 0 <= i < |es| && es[i] == e;
      var j := KeyIndex(es, c);
      assert j <= i;
      assert es[j].ckey == es[i].ckey;
    }
  }

  /** Look-up finds an entry exactly when the trie holds it under that key. */
  lemma {:induction false} GetExact(hash: string -> nat, n: Node, path: seq<nat>, c: string, e: Entry)
    requires NodeValid(hash, n, path) && forall i | 0 <= i < |path| :: Digit(hash(c), i) == path[i]
    ensures Get(n, hash(c), |path|, c) == Some(e) <==> e in Walk(n) && e.ckey == c
    decreases n
  {
    var d := Digit(hash(c), |path|);
    var i := Rank(n.bitmap, d);
    if e in Walk(n) && e.ckey == c {
      NodeFits(hash, n, path, e);
      EntrySlot(hash, n, path, e);
    }
    if Bit(n.bitmap, d) {
      var s := n.slots[i];
      if s.Sub? {
        GetExact(hash, s.node, path + [d], c, e);
      } else if s.Collision? {
        FindExact(s.entries, c, e);
      }
      if Get(n, hash(c), |path|, c) == Some(e) { SlotIn(n.slots, i, e); }
    }
  }

  lemma DistinctJoin(a: seq<Entry>, b: seq<Entry>)
    requires DistinctKeys(a) && DistinctKeys(b)
    requires forall x, y | x in a && y in b :: x.ckey != y.ckey
    ensures DistinctKeys(a + b)
  {
    var ab := a + b;
    forall i, j | 0 <= i < j < |ab| ensures ab[i].ckey != ab[j].ckey {
      if i < |a| <= j {
        assert ab[i] in a && ab[j] in b;
      }
    }
  }

  lemma {:induction false} SlotDistinct(hash: string -> nat, s: Slot, path: seq<nat>)
    requires SlotValid(hash, s, path)
    ensures DistinctKeys(WalkSlot(s))
    decreases s, 0
  {
    if s.Sub? { NodeDistinct(hash, s.node, path); }
  }

  /** No key is held twice. */
  lemma {:induction false} NodeDistinct(hash: string -> nat, n: Node, path: seq<nat>)
    requires NodeValid(hash, n, path)
    ensures DistinctKeys(Walk(n))
    decreases n, 1
  {
    assert n.slots[0..] == n.slots;
    RestDistinct(hash, n, path, 0);
  }

  lemma {:induction false} RestDistinct(hash: string -> nat, n: Node, path: seq<nat>, i: nat)
    requires NodeValid(hash, n, path) && i <= |n.slots|
    ensures DistinctKeys(WalkSlots(n.slots[i..]))
    decreases n, 0, |n.slots| - i
  {
    if i < |n.slots| {
      var (s, rest) := (n.slots[i], n.slots[i..][1..]);
      assert n.slots[i..][0] == s && rest == n.slots[i + 1..];
      RestDistinct(hash, n, path, i + 1);
      var d := Select(n.bitmap, i);
      SlotDistinct(hash, s, path + [d]);
      forall x, y | x in WalkSlot(s) && y in WalkSlots(rest) ensures x.ckey != y.ckey {
        var j := InSlots(rest, y);
        Apart(hash, n, path, i, i + 1 + j, x, y);
      }
      DistinctJoin(WalkSlot(s), WalkSlots(rest));
    }
  }

  lemma Apart(hash: string -> nat, n: Node, path: seq<nat>, i: nat, j: nat, x: Entry, y: Entry)
    requires NodeValid(hash, n, path) && i < j < |n.slots| && x in WalkSlot(n.slots[i]) && y in WalkSlot(n.slots[j])
    ensures x.ckey != y.ckey
  {
    var d := Select(n.bitmap, i);
    var f := Select(n.bitmap, j);
    SlotFits(hash, n.slots[i], path + [d], x);
    SlotFits(hash, n.slots[j], path + [f], y);
    assert Digit(x.hash, |path|) == (path + [d])[|path|] && Digit(y.hash, |path|) == (path + [f])[|path|];
  }
}
