/** Elements indexed by expanded name with a counting sort, and looked up by binary
    search: what a walk over the records would list. */
module NameIndex {
  import opened Basics

  datatype TableName = TableName(prefix: string, uri: string, local: string)

  type Expanded = QName

  /** A record: an element with the number of its name in the table, or not. */
  datatype Rec = Rec(element: bool, name: nat, end: nat)

  function NameOf(q: TableName): Expanded { QName(q.uri, q.local) }

  /** A frozen tree: names in range. */
  predicate Proper(recs: seq<Rec>, names: seq<TableName>) {
    forall r | r in recs :: r.element ==> r.name < |names|
  }

  /** The elements of one expanded name among the records from `lo` up to `hi`, in
      document order. */
  function Walk(recs: seq<Rec>, names: seq<TableName>, lo: nat, hi: nat, key: Expanded): seq<nat>
    requires lo <= hi <= |recs| && Proper(recs, names)
    decreases hi - lo
  {
    if lo == hi then []
    else
      Walk(recs, names, lo, hi - 1, key)
      + (if recs[hi - 1].element && NameOf(names[recs[hi - 1].name]) == key then [hi - 1] else [])
  }

  /** These are the elements with that URI and local name, whatever their prefix. */
  lemma {:induction false} WalkHas(recs: seq<Rec>, names: seq<TableName>, lo: nat, hi: nat, key: Expanded, k: nat)
    requires lo <= hi <= |recs| && Proper(recs, names)
    ensures k in Walk(recs, names, lo, hi, key)
       <==> lo <= k < hi && recs[k].element
            && names[recs[k].name].uri == key.uri && names[recs[k].name].local == key.local
    decreases hi - lo
  {
    if lo < hi {
      var (before, r) := (Walk(recs, names, lo, hi - 1, key), recs[hi - 1]);
      WalkHas(recs, names, lo, hi - 1, key, k);
      assert r in recs;
      assert k in Walk(recs, names, lo, hi, key)
        <==> k in before || (k == hi - 1 && r.element && NameOf(names[r.name]) == key);
    }
  }

  predicate Rises(w: seq<nat>) { forall i, j | 0 <= i < j < |w| :: w[i] < w[j] }

  /** And they come in order. */
  lemma {:induction false} WalkRises(recs: seq<Rec>, names: seq<TableName>, lo: nat, hi: nat, key: Expanded)
    requires lo <= hi <= |recs| && Proper(recs, names)
    ensures Rises(Walk(recs, names, lo, hi, key))
    decreases hi - lo
  {
    if lo < hi {
      var before := Walk(recs, names, lo, hi - 1, key);
      WalkRises(recs, names, lo, hi - 1, key);
      forall i | 0 <= i < |before| ensures before[i] < hi - 1 {
        assert before[i] in before;
        WalkHas(recs, names, lo, hi - 1, key, before[i]);
      }
      RisesMore(before, hi - 1);
      assert recs[hi - 1] in recs && before + [] == before;
    }
  }

  lemma RisesMore(w: seq<nat>, k: nat)
    requires Rises(w) && forall i | 0 <= i < |w| :: w[i] < k
    ensures Rises(w + [k])
  {
  }

  /** The elements among the first records whose names have number `k` in `ids`. */
  function Numbered(recs: seq<Rec>, ids: seq<nat>, hi: nat, k: nat): seq<nat>
    requires hi <= |recs| && forall r | r in recs :: r.element ==> r.name < |ids|
  {
    if hi == 0 then []
    else
      Numbered(recs, ids, hi - 1, k)
      + (if recs[hi - 1].element && ids[recs[hi - 1].name] == k then [hi - 1] else [])
  }

  /** Table entries have the same number exactly when they have the same expanded name. */
  ghost predicate NumbersOk(names: seq<TableName>, ids: seq<nat>, numbers: map<Expanded, nat>, n: nat) {
    && |ids| == |names|
    && (forall i | 0 <= i < n <= |names| ::
          NameOf(names[i]) in numbers && ids[i] == numbers[NameOf(names[i])])
    && (forall q | q in numbers :: numbers[q] < |numbers|)
    && (forall p, q | p in numbers && q in numbers && p != q :: numbers[p] != numbers[q])
  }

  /** Numbers the expanded names in the table, prefixes apart. */
  method NumberNames(names: seq<TableName>) returns (ids: array<nat>, numbers: map<Expanded, nat>)
    ensures NumbersOk(names, ids[..], numbers, |names|)
    ensures fresh(ids)
  {
    ids := new nat[|names|](_ => 0);
    numbers := map[];
    var i := 0;
    while i < |names|
      invariant i <= |names| && NumbersOk(names, ids[..], numbers, i)
    {
      var key := NameOf(names[i]);
      if key !in numbers {
        assert |numbers[key := |numbers|]| == |numbers| + 1;
        numbers := numbers[key := |numbers|];
      }
      ids[i] := numbers[key];
      i := i + 1;
    }
  }

  // ---- the counting sort -------------------------------------------------

  /** More records have no fewer elements of a number, and the first of them first. */
  lemma {:induction false} NumberedGrows(recs: seq<Rec>, ids: seq<nat>, m: nat, hi: nat, k: nat)
    requires m <= hi <= |recs| && forall r | r in recs :: r.element ==> r.name < |ids|
    ensures Numbered(recs, ids, m, k) <= Numbered(recs, ids, hi, k)
    decreases hi - m
  {
    if m < hi { NumberedGrows(recs, ids, m, hi - 1, k); }
  }

  /** `start` gives each number its stretch, as long as its elements are many. */
  ghost predicate Stretches(recs: seq<Rec>, ids: seq<nat>, start: seq<nat>, n: nat)
    requires forall r | r in recs :: r.element ==> r.name < |ids|
  {
    && |start| == n + 1 && start[0] == 0
    && forall k | 0 <= k < n :: Stretch(recs, ids, start, k)
  }

  ghost predicate Stretch(recs: seq<Rec>, ids: seq<nat>, start: seq<nat>, k: nat)
    requires k + 1 < |start| && forall r | r in recs :: r.element ==> r.name < |ids|
  {
    start[k + 1] == start[k] + |Numbered(recs, ids, |recs|, k)|
  }

  /** The list of each number, one after another. */
  ghost predicate Grouped(recs: seq<Rec>, ids: seq<nat>, start: seq<nat>, elems: seq<nat>, n: nat)
    requires forall r | r in recs :: r.element ==> r.name < |ids|
  {
    && Stretches(recs, ids, start, n) && |elems| == start[n]
    && forall k | 0 <= k < n :: HasList(start, elems, k, Numbered(recs, ids, |recs|, k))
  }

  /** The stretch of number `k`. */
  ghost predicate HasList(start: seq<nat>, elems: seq<nat>, k: nat, list: seq<nat>)
    requires k + 1 < |start|
  {
    start[k] <= start[k + 1] <= |elems| && elems[start[k]..start[k + 1]] == list
  }

  lemma {:induction false} StartRises(recs: seq<Rec>, ids: seq<nat>, start: seq<nat>, n: nat, j: nat, k: nat)
    requires forall r | r in recs :: r.element ==> r.name < |ids|
    requires Stretches(recs, ids, start, n) && j <= k <= n
    ensures start[j] <= start[k] && (j < k ==> start[j] + |Numbered(recs, ids, |recs|, j)| <= start[k])
    decreases k
  {
    if j < k {
      assert Stretch(recs, ids, start, k - 1);
      StartRises(recs, ids, start, n, j, k - 1);
    }
  }

  /** How many elements each number has, one place up. */
  method Tally(recs: seq<Rec>, ids: seq<nat>, n: nat, start: array<nat>)
    requires forall r | r in recs :: r.element ==> r.name < |ids| && ids[r.name] < n
    requires start.Length == n + 1 && forall k | 0 <= k <= n :: start[k] == 0
    modifies start
    ensures start[0] == 0 && forall k | 0 <= k < n :: start[k + 1] == |Numbered(recs, ids, |recs|, k)|
  {
    var i := 0;
    while i < |recs|
      invariant i <= |recs| && start[0] == 0
      invariant forall k | 0 <= k < n :: start[k + 1] == |Numbered(recs, ids, i, k)|
    {
      assert recs[i] in recs;
      if recs[i].element {
        var k := ids[recs[i].name];
        start[k + 1] := start[k + 1] + 1;
      }
      i := i + 1;
    }
  }

  /** One pass counts the elements of each number; the counts are summed. */
  method Count(recs: seq<Rec>, ids: seq<nat>, n: nat) returns (start: array<nat>)
    requires forall r | r in recs :: r.element ==> r.name < |ids| && ids[r.name] < n
    ensures fresh(start) && Stretches(recs, ids, start[..], n)
  {
    start := new nat[n + 1](_ => 0);
    Tally(recs, ids, n, start);
    var k := 1;
    while k <= n
      invariant 1 <= k <= n + 1 && start[0] == 0
      invariant forall x | 0 <= x < k - 1 :: start[x + 1] == start[x] + |Numbered(recs, ids, |recs|, x)|
      invariant forall x | k - 1 <= x < n :: start[x + 1] == |Numbered(recs, ids, |recs|, x)|
    {
      start[k] := start[k] + start[k - 1];
      k := k + 1;
    }
    forall x | 0 <= x < n ensures Stretch(recs, ids, start[..], x) {}
  }

  /** How far each stretch has been filled. */
  ghost predicate Filled(recs: seq<Rec>, ids: seq<nat>, start: seq<nat>, next: seq<nat>, elems: seq<nat>, n: nat,
                         i: nat)
    requires forall r | r in recs :: r.element ==> r.name < |ids|
    requires i <= |recs|
  {
    && |next| == n && |start| == n + 1
    && forall k | 0 <= k < n ::
         next[k] == start[k] + |Numbered(recs, ids, i, k)| && next[k] <= |elems|
         && elems[start[k]..next[k]] == Numbered(recs, ids, i, k)
  }

  /** A second pass places each element in the stretch of its number. */
  method Place(recs: seq<Rec>, ids: seq<nat>, start: array<nat>, n: nat) returns (elems: array<nat>)
    requires forall r | r in recs :: r.element ==> r.name < |ids| && ids[r.name] < n
    requires Stretches(recs, ids, start[..], n)
    ensures Grouped(recs, ids, start[..], elems[..], n)
  {
    elems := new nat[start[n]](_ => 0);
    var next := new nat[n](k requires 0 <= k < n reads start => start[k]);
    ghost var s := start[..];
    NothingFilled(recs, ids, s, next[..], elems[..], n);
    var i := 0;
    while i < |recs|
      invariant i <= |recs| && elems.Length == s[n] && next.Length == n
      invariant Filled(recs, ids, s, next[..], elems[..], n, i)
      modifies elems, next
    {
      assert recs[i] in recs;
      PlaceOne(recs, ids, s, n, i, elems, next);
      i := i + 1;
    }
    AllFilled(recs, ids, s, next[..], elems[..], n);
  }

  method PlaceOne(recs: seq<Rec>, ids: seq<nat>, ghost start: seq<nat>, n: nat, i: nat, elems: array<nat>,
                  next: array<nat>)
    requires forall r | r in recs :: r.element ==> r.name < |ids|
    requires Stretches(recs, ids, start, n) && elems.Length == start[n] && elems != next
    requires i < |recs| && (recs[i].element ==> ids[recs[i].name] < n)
    requires Filled(recs, ids, start, next[..], elems[..], n, i)
    modifies elems, next
    ensures Filled(recs, ids, start, next[..], elems[..], n, i + 1)
  {
    assert recs[i] in recs;
    ghost var (was, before) := (elems[..], next[..]);
    if recs[i].element {
      var k := ids[recs[i].name];
      RoomFor(recs, ids, start, before, was, n, i);
      elems[next[k]] := i;
      next[k] := next[k] + 1;
      FillOne(recs, ids, start, before, next[..], was, elems[..], n, i, k);
    } else {
      FillNone(recs, ids, start, before, was, n, i);
    }
  }

  lemma NothingFilled(recs: seq<Rec>, ids: seq<nat>, start: seq<nat>, next: seq<nat>, elems: seq<nat>, n: nat)
    requires forall r | r in recs :: r.element ==> r.name < |ids|
    requires Stretches(recs, ids, start, n) && |elems| == start[n] && |next| == n
    requires forall k | 0 <= k < n :: next[k] == start[k]
    ensures Filled(recs, ids, start, next, elems, n, 0)
  {
    forall k | 0 <= k < n ensures start[k] <= |elems| { StartRises(recs, ids, start, n, k, n); }
  }

  /** A record that is no element fills nothing. */
  lemma FillNone(recs: seq<Rec>, ids: seq<nat>, start: seq<nat>, next: seq<nat>, elems: seq<nat>, n: nat, i: nat)
    requires forall r | r in recs :: r.element ==> r.name < |ids|
    requires i < |recs| && !recs[i].element && Filled(recs, ids, start, next, elems, n, i)
    ensures Filled(recs, ids, start, next, elems, n, i + 1)
  {
    forall k | 0 <= k < n ensures Numbered(recs, ids, i + 1, k) == Numbered(recs, ids, i, k) {}
  }

  /** The stretch of an element still to be placed is not full. */
  lemma RoomFor(recs: seq<Rec>, ids: seq<nat>, start: seq<nat>, next: seq<nat>, elems: seq<nat>, n: nat, i: nat)
    requires forall r | r in recs :: r.element ==> r.name < |ids|
    requires Stretches(recs, ids, start, n) && |elems| == start[n] && i < |recs|
    requires recs[i].element && ids[recs[i].name] < n && Filled(recs, ids, start, next, elems, n, i)
    ensures var k := ids[recs[i].name];
            next[k] < start[k + 1] <= |elems|
  {
    var k := ids[recs[i].name];
    assert Stretch(recs, ids, start, k);
    NumberedGrows(recs, ids, i + 1, |recs|, k);
    StartRises(recs, ids, start, n, k + 1, n);
    assert |Numbered(recs, ids, i + 1, k)| == |Numbered(recs, ids, i, k)| + 1;
  }

  lemma AllFilled(recs: seq<Rec>, ids: seq<nat>, start: seq<nat>, next: seq<nat>, elems: seq<nat>, n: nat)
    requires forall r | r in recs :: r.element ==> r.name < |ids|
    requires Stretches(recs, ids, start, n) && |elems| == start[n]
    requires Filled(recs, ids, start, next, elems, n, |recs|)
    ensures Grouped(recs, ids, start, elems, n)
  {
    forall k | 0 <= k < n ensures HasList(start, elems, k, Numbered(recs, ids, |recs|, k)) {
      StartRises(recs, ids, start, n, k + 1, n);
      assert Stretch(recs, ids, start, k) && next[k] == start[k + 1];
    }
  }

  lemma FillOne(recs: seq<Rec>, ids: seq<nat>, start: seq<nat>, before: seq<nat>, next: seq<nat>, was: seq<nat>,
                elems: seq<nat>, n: nat, i: nat, k: nat)
    requires forall r | r in recs :: r.element ==> r.name < |ids|
    requires Stretches(recs, ids, start, n) && i < |recs| && k < n && recs[i].element && ids[recs[i].name] == k
    requires Filled(recs, ids, start, before, was, n, i) && before[k] < |was| && before[k] < start[k + 1]
    requires elems == was[before[k] := i] && next == before[k := before[k] + 1]
    ensures Filled(recs, ids, start, next, elems, n, i + 1)
  {
    forall j | 0 <= j < n
      ensures next[j] == start[j] + |Numbered(recs, ids, i + 1, j)| && next[j] <= |elems|
              && elems[start[j]..next[j]] == Numbered(recs, ids, i + 1, j)
    {
      if j == k {
        assert elems[start[k]..next[k]] == was[start[k]..before[k]] + [i];
      } else {
        ElsewhereKept(recs, ids, start, before, was, n, i, k, j);
        assert elems[start[j]..next[j]] == was[start[j]..before[j]];
      }
    }
  }

  /** The stretch of another number does not reach the place filled. */
  lemma ElsewhereKept(recs: seq<Rec>, ids: seq<nat>, start: seq<nat>, before: seq<nat>, was: seq<nat>, n: nat,
                      i: nat, k: nat, j: nat)
    requires forall r | r in recs :: r.element ==> r.name < |ids|
    requires Stretches(recs, ids, start, n) && i < |recs| && k < n && j < n && j != k
    requires recs[i].element && ids[recs[i].name] == k
    requires Filled(recs, ids, start, before, was, n, i) && before[k] < start[k + 1]
    ensures start[j] <= before[j] <= before[k] || before[k] < start[j] <= before[j]
    ensures Numbered(recs, ids, i + 1, j) == Numbered(recs, ids, i, j)
  {
    NumberedGrows(recs, ids, i, |recs|, j);
    if j < k { StartRises(recs, ids, start, n, j, k); } else { StartRises(recs, ids, start, n, k + 1, j); }
  }

  // ---- look-up -----------------------------------------------------------

  /** The index of a frozen tree. */
  datatype Index = Index(numbers: map<Expanded, nat>, start: seq<nat>, elems: seq<nat>)

  /** Every expanded name in the table has its elements listed. */
  ghost predicate Indexes(ix: Index, recs: seq<Rec>, names: seq<TableName>)
    requires Proper(recs, names)
  {
    && (forall i | 0 <= i < |names| :: NameOf(names[i]) in ix.numbers)
    && |ix.start| == |ix.numbers| + 1
    && forall q :: Lists(ix, recs, names, q)
  }

  ghost predicate Lists(ix: Index, recs: seq<Rec>, names: seq<TableName>, q: Expanded)
    requires Proper(recs, names) && |ix.start| == |ix.numbers| + 1
  {
    q in ix.numbers ==>
      && ix.numbers[q] < |ix.numbers|
      && HasList(ix.start, ix.elems, ix.numbers[q], Walk(recs, names, 0, |recs|, q))
  }

  /** Names alike have one number, so listing by number is listing by name. */
  lemma {:induction false} ByNumber(recs: seq<Rec>, names: seq<TableName>, ids: seq<nat>, numbers: map<Expanded, nat>,
                                    hi: nat, key: Expanded)
    requires Proper(recs, names) && NumbersOk(names, ids, numbers, |names|) && key in numbers && hi <= |recs|
    ensures Numbered(recs, ids, hi, numbers[key]) == Walk(recs, names, 0, hi, key)
  {
    if hi > 0 {
      ByNumber(recs, names, ids, numbers, hi - 1, key);
      assert recs[hi - 1] in recs;
    }
  }

  method BuildIndex(recs: seq<Rec>, names: seq<TableName>) returns (ix: Index)
    requires Proper(recs, names)
    ensures Indexes(ix, recs, names)
  {
    var table, numbers := NumberNames(names);
    var ids := table[..];
    var n := |numbers|;
    forall r | r in recs && r.element ensures r.name < |ids| && ids[r.name] < n {
      assert NameOf(names[r.name]) in numbers;
    }
    var start := Count(recs, ids, n);
    var elems := Place(recs, ids, start, n);
    ix := Index(numbers, start[..], elems[..]);
    forall q | q in numbers ensures Lists(ix, recs, names, q) {
      ByNumber(recs, names, ids, numbers, |recs|, q);
      assert HasList(ix.start, ix.elems, numbers[q], Numbered(recs, ids, |recs|, numbers[q]));
    }
  }

  lemma {:induction false} WalkRange(recs: seq<Rec>, names: seq<TableName>, lo: nat, hi: nat, key: Expanded)
    requires lo <= hi <= |recs| && Proper(recs, names)
    ensures forall i | 0 <= i < |Walk(recs, names, lo, hi, key)| :: lo <= Walk(recs, names, lo, hi, key)[i] < hi
    ensures forall i, j | 0 <= i < j < |Walk(recs, names, lo, hi, key)| ::
              Walk(recs, names, lo, hi, key)[i] < Walk(recs, names, lo, hi, key)[j]
    decreases hi - lo
  {
    if lo < hi { WalkRange(recs, names, lo, hi - 1, key); }
  }

  lemma {:induction false} WalkSplit(recs: seq<Rec>, names: seq<TableName>, lo: nat, mid: nat, hi: nat, key: Expanded)
    requires lo <= mid <= hi <= |recs| && Proper(recs, names)
    ensures Walk(recs, names, lo, hi, key) == Walk(recs, names, lo, mid, key) + Walk(recs, names, mid, hi, key)
    decreases hi - mid
  {
    if mid < hi { WalkSplit(recs, names, lo, mid, hi - 1, key); }
  }

  lemma {:induction false} NotListed(recs: seq<Rec>, names: seq<TableName>, lo: nat, hi: nat, key: Expanded)
    requires lo <= hi <= |recs| && Proper(recs, names) && forall i | 0 <= i < |names| :: NameOf(names[i]) != key
    ensures Walk(recs, names, lo, hi, key) == []
    decreases hi - lo
  {
    if lo < hi {
      assert recs[hi - 1] in recs;
      NotListed(recs, names, lo, hi - 1, key);
    }
  }

  /** The first place in a rising list past `self`. */
  method Search(list: seq<nat>, self: nat) returns (i: nat)
    requires forall j, k | 0 <= j < k < |list| :: list[j] < list[k]
    ensures i <= |list|
    ensures forall j | 0 <= j < i :: list[j] <= self
    ensures forall j | i <= j < |list| :: list[j] > self
  {
    i := 0;
    var j := |list|;
    while i < j
      invariant i <= j <= |list|
      invariant forall k | 0 <= k < i :: list[k] <= self
      invariant forall k | j <= k < |list| :: list[k] > self
    {
      var h := (i + j) / 2;
      if !(list[h] > self) { i := h + 1; } else { j := h; }
    }
  }

  /** The descendants of a record with an expanded name: as a walk would find them. */
  method NamedDescendants(ix: Index, recs: seq<Rec>, names: seq<TableName>, self: nat, key: Expanded)
    returns (found: seq<nat>)
    requires Proper(recs, names) && Indexes(ix, recs, names) && self < |recs| && self < recs[self].end <= |recs|
    ensures found == Walk(recs, names, self + 1, recs[self].end, key)
  {
    var end := recs[self].end;
    if key !in ix.numbers {
      NotListed(recs, names, self + 1, end, key);
      return [];
    }
    var k := ix.numbers[key];
    ListAt(ix, recs, names, key);
    var list := ix.elems[ix.start[k]..ix.start[k + 1]];
    found := Within(recs, names, list, self, end, key);
  }

  lemma ListAt(ix: Index, recs: seq<Rec>, names: seq<TableName>, key: Expanded)
    requires Proper(recs, names) && Indexes(ix, recs, names) && key in ix.numbers
    ensures var k := ix.numbers[key];
      && k + 1 < |ix.start| && ix.start[k] <= ix.start[k + 1] <= |ix.elems|
      && ix.elems[ix.start[k]..ix.start[k + 1]] == Walk(recs, names, 0, |recs|, key)
  {
    assert Lists(ix, recs, names, key);
  }

  /** A walk of all records in three parts. */
  lemma Parts(recs: seq<Rec>, names: seq<TableName>, lo: nat, hi: nat, key: Expanded)
    returns (p: (seq<nat>, seq<nat>, seq<nat>))
    requires Proper(recs, names) && lo <= hi <= |recs|
    ensures Walk(recs, names, 0, |recs|, key) == p.0 + (p.1 + p.2) && p.1 == Walk(recs, names, lo, hi, key)
    ensures (forall x | x in p.0 :: x < lo) && (forall x | x in p.1 :: lo <= x < hi) && (forall x | x in p.2 :: hi <= x)
    ensures forall j, k | 0 <= j < k < |p.0 + (p.1 + p.2)| :: (p.0 + (p.1 + p.2))[j] < (p.0 + (p.1 + p.2))[k]
  {
    p := (Walk(recs, names, 0, lo, key), Walk(recs, names, lo, hi, key), Walk(recs, names, hi, |recs|, key));
    WalkSplit(recs, names, 0, lo, |recs|, key);
    WalkSplit(recs, names, lo, hi, |recs|, key);
    WalkRange(recs, names, 0, |recs|, key);
    WalkRange(recs, names, 0, lo, key);
    WalkRange(recs, names, lo, hi, key);
    WalkRange(recs, names, hi, |recs|, key);
  }

  lemma SearchFinds(list: seq<nat>, a: seq<nat>, b: seq<nat>, c: seq<nat>, self: nat, i: nat)
    requires list == a + (b + c) && i <= |list|
    requires (forall x | x in a :: x <= self) && (forall x | x in b :: self < x) && (forall x | x in c :: self < x)
    requires forall j | 0 <= j < i :: list[j] <= self
    requires forall j | i <= j < |list| :: list[j] > self
    ensures i == |a|
  {
    forall j | 0 <= j < |list| ensures list[j] <= self <==> j < |a| {
      if j < |a| {
        assert list[j] == a[j] && a[j] in a;
      } else if j < |a| + |b| {
        assert list[j] == b[j - |a|] && b[j - |a|] in b;
      } else {
        assert list[j] == c[j - |a| - |b|] && c[j - |a| - |b|] in c;
      }
    }
    assert i < |list| ==> list[i] > self;
    assert i > 0 ==> list[i - 1] <= self;
  }

  /** Goes along the list until past the end. */
  method Take(list: seq<nat>, first: nat, end: nat, ghost a: seq<nat>, ghost b: seq<nat>, ghost c: seq<nat>)
    returns (found: seq<nat>)
    requires list == a + (b + c) && first == |a|
    requires (forall x | x in b :: x < end) && (forall x | x in c :: end <= x)
    ensures found == b
  {
    forall j | |a| <= j < |list|
      ensures list[j] < end <==> j < |a| + |b|
      ensures j < |a| + |b| ==> list[j] == b[j - |a|]
    {
      if j < |a| + |b| {
        assert list[j] == b[j - |a|] && b[j - |a|] in b;
      } else {
        assert list[j] == c[j - |a| - |b|] && c[j - |a| - |b|] in c;
      }
    }
    found := [];
    var i := first;
    while i < |list| && list[i] < end
      invariant |a| <= i <= |a| + |b| && found == b[..i - |a|]
    {
      found := found + [list[i]];
      i := i + 1;
    }
    assert i == |a| + |b| && b[..|b|] == b;
  }

  /** Of all elements of a name, those past `self` and before `end`. */
  method Within(ghost recs: seq<Rec>, ghost names: seq<TableName>, list: seq<nat>, self: nat, end: nat,
                ghost key: Expanded)
    returns (found: seq<nat>)
    requires Proper(recs, names) && list == Walk(recs, names, 0, |recs|, key) && self < end <= |recs|
    ensures found == Walk(recs, names, self + 1, end, key)
  {
    ghost var parts := Parts(recs, names, self + 1, end, key);
    var i := Search(list, self);
    SearchFinds(list, parts.0, parts.1, parts.2, self, i);
    found := Take(list, i, end, parts.0, parts.1, parts.2);
  }
}
