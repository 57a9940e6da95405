/** What a map holds after a history, said of the history alone. */
module TrieHistory {
  import opened Basics
  import opened Trie
  import opened TrieMap
  import opened TrieRuns

  predicate Puts(op: Op, c: string) { op.DoPut? && op.ckey == c }

  predicate Drops(op: Op, c: string) { op.DoRemove? && c in op.keys }

  /** The last operation on `c` puts `v`. */
  predicate PutLast(ops: seq<Op>, i: nat, c: string, v: nat) {
    i < |ops| && ops[i] == DoPut(c, v) && forall k | i < k < |ops| :: !Puts(ops[k], c) && !Drops(ops[k], c)
  }

  /** Operation `i` brought `c` in: nothing removes it afterwards, and it was not there. */
  predicate Brought(ops: seq<Op>, i: nat, c: string) {
    && i < |ops| && Puts(ops[i], c) && (forall k | i < k < |ops| :: !Drops(ops[k], c))
    && forall j | 0 <= j < i && Puts(ops[j], c) :: DroppedBetween(ops, j, i, c)
  }

  predicate DroppedBetween(ops: seq<Op>, j: nat, i: nat, c: string)
    requires i < |ops|
  {
    exists k | j < k < i :: Drops(ops[k], c)
  }

  /** The value of a key is the one put last. */
  ghost predicate Valued(ops: seq<Op>, l: Pairs) {
    forall c, v: nat :: (c, v) in l <==> exists i: nat :: PutLast(ops, i, c, v)
  }

  /** The value of a key is the one put last; keys stand in the order they were brought in. */
  ghost predicate Told(ops: seq<Op>, l: Pairs) {
    Valued(ops, l) && exists at: seq<nat> :: InOrder(ops, l, at)
  }

  ghost predicate InOrder(ops: seq<Op>, l: Pairs, at: seq<nat>) {
    && |at| == |l| && (forall i, j | 0 <= i < j < |at| :: at[i] < at[j])
    && forall i | 0 <= i < |l| :: Brought(ops, at[i], l[i].0)
  }

  // ---- what one more operation does --------------------------------------

  lemma LastMore(ops: seq<Op>, op: Op, i: nat, c: string, v: nat)
    ensures PutLast(ops + [op], i, c, v)
       <==> if i == |ops| then op == DoPut(c, v) else PutLast(ops, i, c, v) && !Puts(op, c) && !Drops(op, c)
  {
    var more := ops + [op];
    if i < |ops| {
      assert more[i] == ops[i] && more[|ops|] == op && forall k | 0 <= k < |ops| :: more[k] == ops[k];
    }
  }

  lemma BroughtMore(ops: seq<Op>, op: Op, i: nat, c: string)
    requires Brought(ops, i, c) && !Drops(op, c)
    ensures Brought(ops + [op], i, c)
  {
    var more := ops + [op];
    assert forall k | 0 <= k < |ops| :: more[k] == ops[k];
    forall j | 0 <= j < i && Puts(more[j], c) ensures DroppedBetween(more, j, i, c) {
      assert DroppedBetween(ops, j, i, c);
      var k :| j < k < i && Drops(ops[k], c);
      assert Drops(more[k], c);
    }
  }

  /** A key once put is put last somewhere, or removed afterwards. */
  lemma {:induction false} Fate(ops: seq<Op>, j: nat, c: string)
    requires j < |ops| && Puts(ops[j], c)
    ensures (exists i: nat, v: nat :: PutLast(ops, i, c, v)) || exists k | j < k < |ops| :: Drops(ops[k], c)
    decreases |ops| - j
  {
    if later :| j < later < |ops| && Puts(ops[later], c) {
      Fate(ops, later, c);
    } else if forall k | j < k < |ops| :: !Drops(ops[k], c) {
      assert PutLast(ops, j, c, ops[j].value);
    }
  }

  lemma BroughtNow(ops: seq<Op>, c: string, v: nat)
    requires forall i: nat, w: nat :: !PutLast(ops, i, c, w)
    ensures Brought(ops + [DoPut(c, v)], |ops|, c)
  {
    var more := ops + [DoPut(c, v)];
    forall j | 0 <= j < |ops| && Puts(more[j], c) ensures DroppedBetween(more, j, |ops|, c) {
      Fate(ops, j, c);
      var k :| j < k < |ops| && Drops(ops[k], c);
      assert Drops(more[k], c);
    }
  }

  // ---- the list tells the history ----------------------------------------

  lemma ValuedPut(ops: seq<Op>, l: Pairs, c: string, v: nat)
    requires Valued(ops, l) && forall i, j | 0 <= i < j < |l| :: l[i].0 != l[j].0
    ensures Valued(ops + [DoPut(c, v)], ListPut(l, c, v))
  {
    var (more, k) := (ops + [DoPut(c, v)], PairIndex(l, c));
    var after := ListPut(l, c, v);
    forall x, w: nat ensures (x, w) in after <==> exists i: nat :: PutLast(more, i, x, w) {
      OnePut(l, c, v, x, w);
      OnePutLast(ops, c, v, x, w);
    }
  }

  lemma OnePut(l: Pairs, c: string, v: nat, x: string, w: nat)
    requires forall i, j | 0 <= i < j < |l| :: l[i].0 != l[j].0
    ensures (x, w) in ListPut(l, c, v) <==> if x == c then w == v else (x, w) in l
  {
    var (k, after) := (PairIndex(l, c), ListPut(l, c, v));
    if k < |l| {
      assert after[k] == (c, v) && forall i | 0 <= i < |l| && i != k :: after[i] == l[i];
    } else {
      assert after[|l|] == (c, v);
    }
  }

  lemma OnePutLast(ops: seq<Op>, c: string, v: nat, x: string, w: nat)
    ensures (exists i: nat :: PutLast(ops + [DoPut(c, v)], i, x, w))
       <==> if x == c then w == v else exists i: nat :: PutLast(ops, i, x, w)
  {
    var op := DoPut(c, v);
    forall i: nat
      ensures PutLast(ops + [op], i, x, w)
         <==> if i == |ops| then op == DoPut(x, w) else PutLast(ops, i, x, w) && !Puts(op, x) && !Drops(op, x)
    {
      LastMore(ops, op, i, x, w);
    }
    if x == c && w == v { assert PutLast(ops + [op], |ops|, x, w); }
    if i: nat :| PutLast(ops, i, x, w) { assert x != c ==> PutLast(ops + [op], i, x, w); }
  }

  lemma {:induction false} OneRemove(l: Pairs, ks: seq<string>, x: string, w: nat)
    ensures (x, w) in ListRemove(l, ks) <==> (x, w) in l && x !in ks
  {
    if l != [] {
      OneRemove(l[1..], ks, x, w);
      assert l == [l[0]] + l[1..];
    }
  }

  lemma ValuedRemove(ops: seq<Op>, l: Pairs, ks: seq<string>)
    requires Valued(ops, l)
    ensures Valued(ops + [DoRemove(ks)], ListRemove(l, ks))
  {
    var op := DoRemove(ks);
    forall x, w: nat ensures (x, w) in ListRemove(l, ks) <==> exists i: nat :: PutLast(ops + [op], i, x, w) {
      OneRemove(l, ks, x, w);
      forall i: nat
        ensures PutLast(ops + [op], i, x, w)
           <==> if i == |ops| then op == DoPut(x, w) else PutLast(ops, i, x, w) && !Puts(op, x) && !Drops(op, x)
      {
        LastMore(ops, op, i, x, w);
      }
      if i: nat :| PutLast(ops, i, x, w) { assert x !in ks ==> PutLast(ops + [op], i, x, w); }
    }
  }

  /** No key is brought in twice without being removed between. */
  lemma KeysDiffer(ops: seq<Op>, l: Pairs, at: seq<nat>)
    requires InOrder(ops, l, at)
    ensures forall i, j | 0 <= i < j < |l| :: l[i].0 != l[j].0
  {
    forall i, j | 0 <= i < j < |l| ensures l[i].0 != l[j].0 {
      BroughtApart(ops, at[i], l[i].0, at[j], l[j].0);
    }
  }

  lemma BroughtApart(ops: seq<Op>, i: nat, c: string, j: nat, d: string)
    requires Brought(ops, i, c) && Brought(ops, j, d) && i < j
    ensures c != d
  {
  }

  lemma NeverPut(ops: seq<Op>, l: Pairs, c: string)
    requires Valued(ops, l) && PairIndex(l, c) == |l|
    ensures forall i: nat, w: nat :: !PutLast(ops, i, c, w)
  {
    forall i: nat, w: nat ensures PutLast(ops, i, c, w) ==> (c, w) in l {}
    assert forall w: nat :: (c, w) !in l;
  }

  lemma OrderedPut(ops: seq<Op>, l: Pairs, at: seq<nat>, c: string, v: nat) returns (more: seq<nat>)
    requires Valued(ops, l) && InOrder(ops, l, at)
    ensures InOrder(ops + [DoPut(c, v)], ListPut(l, c, v), more)
  {
    var (k, op) := (PairIndex(l, c), DoPut(c, v));
    forall i | 0 <= i < |l| ensures at[i] < |ops| && Brought(ops + [op], at[i], l[i].0) {
      assert Brought(ops, at[i], l[i].0);
      BroughtMore(ops, op, at[i], l[i].0);
    }
    if k < |l| {
      more := at;
    } else {
      NeverPut(ops, l, c);
      BroughtNow(ops, c, v);
      more := at + [|ops|];
    }
  }

  lemma {:induction false} OrderedRemove(ops: seq<Op>, l: Pairs, at: seq<nat>, ks: seq<string>)
    returns (less: seq<nat>)
    requires InOrder(ops, l, at)
    ensures InOrder(ops + [DoRemove(ks)], ListRemove(l, ks), less) && forall b | b in less :: b in at
    decreases |l|
  {
    less := [];
    if l != [] {
      OrderedTail(ops, l, at);
      less := OrderedRemove(ops, l[1..], at[1..], ks);
      if l[0].0 !in ks {
        BroughtMore(ops, DoRemove(ks), at[0], l[0].0);
        OrderedCons(ops + [DoRemove(ks)], l[0], ListRemove(l[1..], ks), at[0], less);
        less := [at[0]] + less;
      }
    }
  }

  lemma OrderedTail(ops: seq<Op>, l: Pairs, at: seq<nat>)
    requires InOrder(ops, l, at) && l != []
    ensures InOrder(ops, l[1..], at[1..]) && Brought(ops, at[0], l[0].0) && forall b | b in at[1..] :: at[0] < b
  {
  }

  lemma OrderedCons(ops: seq<Op>, x: (string, nat), l: Pairs, b: nat, at: seq<nat>)
    requires InOrder(ops, l, at) && Brought(ops, b, x.0) && forall a | a in at :: b < a
    ensures InOrder(ops, [x] + l, [b] + at)
  {
    var (m, to) := ([x] + l, [b] + at);
    forall i | 0 <= i < |m| ensures Brought(ops, to[i], m[i].0) {
      if i > 0 { assert to[i] == at[i - 1] && m[i] == l[i - 1] && Brought(ops, at[i - 1], l[i - 1].0); }
    }
    forall i, j | 0 <= i < j < |to| ensures to[i] < to[j] {
      assert to[j] == at[j - 1] && at[j - 1] in at;
      if i > 0 { assert to[i] == at[i - 1]; }
    }
  }

  lemma {:induction false} ListTold(ops: seq<Op>) returns (at: seq<nat>)
    ensures Valued(ops, ListRun(ops)) && InOrder(ops, ListRun(ops), at)
    decreases |ops|
  {
    if ops == [] {
      at := [];
    } else {
      var (init, op) := (ops[..|ops| - 1], ops[|ops| - 1]);
      var l := ListRun(init);
      assert ops == init + [op];
      var before := ListTold(init);
      match op
      case DoPut(c, v) =>
        KeysDiffer(init, l, before);
        ValuedPut(init, l, c, v);
        at := OrderedPut(init, l, before, c, v);
      case DoRemove(ks) =>
        ValuedRemove(init, l, ks);
        at := OrderedRemove(init, l, before, ks);
    }
  }

  /** After every history a map holds what was put last and not removed since, in the order
      in which the keys were brought in; and counts it. */
  lemma RunTold(hash: Hash, ops: seq<Op>)
    requires Spread(hash)
    ensures Told(ops, View(Run(hash, ops))) && Run(hash, ops).n == |View(Run(hash, ops))|
  {
    RunRefines(hash, ops);
    var at := ListTold(ops);
  }

  /** So look-up finds a value exactly if it was put last and not removed since. */
  lemma GetTold(hash: Hash, ops: seq<Op>, c: string, v: nat)
    requires Spread(hash)
    ensures MapGet(hash, Run(hash, ops), c) == Some(v) <==> exists i: nat :: PutLast(ops, i, c, v)
  {
    RunRefines(hash, ops);
    GetRefines(hash, Run(hash, ops), c);
    var at := ListTold(ops);
    var l := ListRun(ops);
    KeysDiffer(ops, l, at);
    assert (c, v) in l <==> exists i: nat :: PutLast(ops, i, c, v);
    if i :| 0 <= i < |l| && l[i] == (c, v) { assert l[i].0 == l[PairIndex(l, c)].0; }
  }
}
