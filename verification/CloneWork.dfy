/** The clone as the program makes it: one pass over the records numbers them, a second
    writes them. */
module CloneWork {
  import opened CloneLayout
  import opened CloneLaws

  /** Attributes to go in front of record `at`, just past `owner`'s own. */
  datatype Addition = Addition(at: nat, owner: nat, attrs: seq<nat>)

  const MANY_ATTRS: nat := 0xFFFF

  /** An element's attributes follow it. */
  ghost predicate Flat(job: Job) {
    && job.Proper()
    && forall o: nat {:trigger Now(o)} :: Now(o) && job.lo <= o < job.hi && job.recs[o].kind == Element ==>
         o + job.recs[o].nattr < job.hi
         && forall j | o < j <= o + job.recs[o].nattr :: job.recs[j].kind == Attribute && job.recs[j].parent == o
  }

  lemma {:induction false} TreeFlat(job: Job, t: Tree, b: nat, p: int, q: int, o: nat)
    requires Lies(job, t, b, p, q) && b <= o < b + Size(t) && job.recs[o].kind == Element
    ensures o + job.recs[o].nattr < b + Size(t)
    ensures forall j | o < j <= o + job.recs[o].nattr :: job.recs[j].kind == Attribute && job.recs[j].parent == o
    decreases t, 1
  {
    if t.Inner? {
      forall j | b < j <= b + |t.attrs| ensures job.recs[j].kind == Attribute && job.recs[j].parent == b {
        assert Now(j - b - 1);
      }
      if o != b {
        KidsFlat(job, t, t.kids, b + 1 + |t.attrs|, b, NONE, o);
      }
    }
  }

  lemma {:induction false} KidsFlat(job: Job, t: Tree, kids: seq<Tree>, c: nat, p: int, q: int, o: nat)
    requires AllLie(job, kids, c, p, q) && c <= o < c + SizeAll(kids) && job.recs[o].kind == Element
    requires forall k | k in kids :: k < t
    ensures o + job.recs[o].nattr < c + SizeAll(kids)
    ensures forall j | o < j <= o + job.recs[o].nattr :: job.recs[j].kind == Attribute && job.recs[j].parent == o
    decreases t, 0, |kids|
  {
    var d := c + Size(kids[0]);
    assert kids[0] in kids;
    if o < d {
      TreeFlat(job, kids[0], c, p, q, o);
    } else {
      forall x | x in kids[1..] ensures x < t { assert x in kids; }
      KidsFlat(job, t, kids[1..], d, p, c, o);
    }
  }

  lemma LayoutFlat(job: Job, t: Tree, p: int, q: int)
    requires job.hi == job.lo + Size(t) <= |job.recs| && p < job.lo && q < job.lo
    requires job.recs[job.lo..job.hi] == Layout(t, job.lo, p, q)
    ensures Flat(job)
  {
    LayoutLies(job, t, job.lo, p, q);
    forall o: nat | job.lo <= o < job.hi && job.recs[o].kind == Element
      ensures o + job.recs[o].nattr < job.hi
      ensures forall j | o < j <= o + job.recs[o].nattr :: job.recs[j].kind == Attribute && job.recs[j].parent == o
    {
      TreeFlat(job, t, job.lo, p, q, o);
    }
  }

  // ---- the additions -----------------------------------------------------

  function At(job: Job, o: nat): nat
    requires o < |job.recs|
  {
    o + 1 + job.recs[o].nattr
  }

  /** The additions of the elements before record `i`, in order. */
  ghost predicate Gathered(job: Job, adds: seq<Addition>, i: nat)
    requires i <= |job.recs|
  {
    && (forall x, y | 0 <= x < y < |adds| :: adds[x].at < adds[y].at)
    && (forall x | 0 <= x < |adds| ::
          var a := adds[x];
          job.lo <= a.owner < i && job.recs[a.owner].kind == Element && a.at == At(job, a.owner)
          && a.attrs == job.ed.add(a.owner) != [])
    && (forall o: nat {:trigger Now(o)} ::
          Now(o) && job.lo <= o < i && job.recs[o].kind == Element && job.ed.add(o) != [] ==>
          exists x :: 0 <= x < |adds| && adds[x].owner == o)
  }

  /** What is added before record `k` is what has been gathered for that place. */
  lemma AddedThere(job: Job, adds: seq<Addition>, i: nat, k: nat)
    requires Flat(job) && job.lo < k <= i <= job.hi && Gathered(job, adds, i)
    ensures if exists x :: 0 <= x < |adds| && adds[x].at == k
            then exists x :: 0 <= x < |adds| && adds[x].at == k && job.OwnerBefore(k) == adds[x].owner
                             && job.AddedBefore(k) == adds[x].attrs
            else job.AddedBefore(k) == []
  {
    if x :| 0 <= x < |adds| && adds[x].at == k {
      var o := adds[x].owner;
      assert Now(o);
      assert job.OwnerBefore(k) == o;
    } else {
      var o := job.OwnerBefore(k);
      assert o >= 0 ==> At(job, o) == k && Now(o);
    }
  }

  /** Elements lie past the attributes of those before them. */
  lemma NotInside(job: Job, o: nat, i: nat)
    requires Flat(job) && job.lo <= o < i < job.hi && job.recs[o].kind == Element && job.recs[i].kind == Element
    ensures At(job, o) <= i
  {
    assert Now(o);
  }

  // ---- numbering ---------------------------------------------------------

  /** The numbers given so far, by source index. */
  ghost predicate NumberedTo(job: Job, newIdx: seq<nat>, i: nat)
    requires job.Proper() && i <= job.hi - job.lo < |newIdx|
  {
    && (i > 0 ==> newIdx[0] == 0)
    && forall k: nat {:trigger Now(k)} :: Now(k) && 0 < k < i ==>
         newIdx[k] == newIdx[k - 1] + (if job.Dropped(job.lo + k - 1) then 0 else 1) + |job.AddedBefore(job.lo + k)|
  }

  /** Where the next record would go, nothing yet added there. */
  ghost function Upcoming(job: Job, newIdx: seq<nat>, i: nat): nat
    requires job.Proper() && i <= job.hi - job.lo < |newIdx|
  {
    if i == 0 then 0 else newIdx[i - 1] + (if job.Dropped(job.lo + i - 1) then 0 else 1)
  }

  /** One addition at most is waiting, for the end of its element's attributes. */
  ghost predicate Waiting(job: Job, adds: seq<Addition>, next: nat, i: nat) {
    next <= |adds| && (forall x | 0 <= x < next :: adds[x].at < i) && (forall x | next <= x < |adds| :: adds[x].at >= i)
  }

  /** Whether the addition that waits goes here. */
  predicate Due(adds: seq<Addition>, next: nat, i: nat) { next < |adds| && adds[next].at == i }

  lemma DueHere(job: Job, adds: seq<Addition>, next: nat, i: nat)
    requires Flat(job) && job.lo <= i <= job.hi && Gathered(job, adds, i) && Waiting(job, adds, next, i)
    ensures Waiting(job, adds, if Due(adds, next, i) then next + 1 else next, i + 1)
    ensures job.lo < i ==> |job.AddedBefore(i)| == (if Due(adds, next, i) then |adds[next].attrs| else 0)
    ensures i == job.lo ==> adds == [] && !Due(adds, next, i)
  {
    if job.lo < i { AddedThere(job, adds, i, i); }
    assert adds != [] ==> job.lo <= adds[0].owner < i;
    if next < |adds| && adds[next].at > i { assert forall x | next <= x < |adds| :: adds[x].at >= adds[next].at; }
  }

  /** An element's additions come after all gathered before it. */
  lemma GatherMore(job: Job, adds: seq<Addition>, i: nat)
    requires Flat(job) && job.lo <= i < job.hi && Gathered(job, adds, i)
    ensures job.recs[i].kind == Element && job.ed.add(i) != [] ==>
              Gathered(job, adds + [Addition(At(job, i), i, job.ed.add(i))], i + 1)
    ensures job.recs[i].kind != Element || job.ed.add(i) == [] ==> Gathered(job, adds, i + 1)
  {
    if job.recs[i].kind == Element && job.ed.add(i) != [] {
      var more := adds + [Addition(At(job, i), i, job.ed.add(i))];
      forall x | 0 <= x < |adds| ensures adds[x].at < At(job, i) { NotInside(job, adds[x].owner, i); }
      forall o: nat | job.lo <= o < i + 1 && job.recs[o].kind == Element && job.ed.add(o) != []
        ensures exists x :: 0 <= x < |more| && more[x].owner == o
      {
        if o < i {
          assert Now(o);
          var x :| 0 <= x < |adds| && adds[x].owner == o;
          assert more[x].owner == o;
        } else {
          assert more[|adds|].owner == o;
        }
      }
    } else {
      forall o: nat | job.lo <= o < i + 1 && job.recs[o].kind == Element && job.ed.add(o) != []
        ensures exists x :: 0 <= x < |adds| && adds[x].owner == o
      {
        assert Now(o);
      }
    }
  }

  /** The next number follows the one before. */
  lemma NumberMore(job: Job, was: seq<nat>, now: seq<nat>, i: nat, added: nat)
    requires job.Proper() && i <= job.hi - job.lo < |was| == |now| && NumberedTo(job, was, i)
    requires now[..i] == was[..i] && now[i] == Upcoming(job, was, i) + added
    requires added == if i == 0 then 0 else |job.AddedBefore(job.lo + i)|
    ensures i < job.hi - job.lo ==> NumberedTo(job, now, i + 1)
    ensures NumberedTo(job, now, i) && Upcoming(job, now, i) == Upcoming(job, was, i)
  {
    assert forall k | 0 <= k < i :: now[k] == now[..i][k] && was[k] == was[..i][k];
  }

  predicate TooMany(job: Job, o: nat)
    requires o < |job.recs|
  {
    job.recs[o].kind == Element && job.ed.add(o) != [] && job.recs[o].nattr + |job.ed.add(o)| >= MANY_ATTRS
  }

  /** No element before record `i` would have more attributes than its record counts. */
  ghost predicate FewAttrs(job: Job, i: nat)
    requires i <= |job.recs|
  {
    forall o: nat | job.lo <= o < i :: !TooMany(job, o)
  }

  /** Notes what is to be added to record `i`, if it is an element. */
  method Gather(job: Job, adds: seq<Addition>, ghost next: nat, i: nat) returns (ok: bool, more: seq<Addition>)
    requires Flat(job) && job.lo <= i < job.hi && Gathered(job, adds, i) && Waiting(job, adds, next, i + 1)
    ensures ok <==> !TooMany(job, i)
    ensures ok ==> Gathered(job, more, i + 1) && Waiting(job, more, next, i + 1)
  {
    var r := job.recs[i];
    ok, more := true, adds;
    GatherMore(job, adds, i);
    if r.kind == Element {
      var attrs := job.ed.add(i);
      if attrs != [] {
        if r.nattr + |attrs| >= MANY_ATTRS { return false, adds; }
        more := adds + [Addition(At(job, i), i, attrs)];
      }
    }
  }

  /** Which of the records before `i` are left out; the others are not yet marked. */
  ghost predicate MarkedTo(job: Job, dropped: seq<bool>, i: nat)
    requires job.Proper() && job.lo <= i <= job.hi && |dropped| == job.hi - job.lo
  {
    forall x | 0 <= x < |dropped| :: dropped[x] == (x < i - job.lo && job.Dropped(job.lo + x))
  }

  /** Gives record `i` its number, past what is added before it. */
  method GiveNumber(job: Job, adds: seq<Addition>, next: nat, i: nat, delta: int, newIdx: array<nat>)
    returns (more: int, rest: nat)
    requires Flat(job) && job.lo <= i <= job.hi && Gathered(job, adds, i) && Waiting(job, adds, next, i)
    requires newIdx.Length == job.hi - job.lo + 1 && NumberedTo(job, newIdx[..], i - job.lo)
    requires i - job.lo + delta == Upcoming(job, newIdx[..], i - job.lo)
    modifies newIdx
    ensures Waiting(job, adds, rest, i + 1)
    ensures i < job.hi ==> NumberedTo(job, newIdx[..], i - job.lo + 1)
    ensures NumberedTo(job, newIdx[..], i - job.lo)
    ensures newIdx[i - job.lo] == i - job.lo + more
    ensures i == job.hi ==> newIdx[i - job.lo] == Upcoming(job, newIdx[..], i - job.lo) + |job.AddedBefore(i)|
  {
    more, rest := delta, next;
    ghost var was := newIdx[..];
    DueHere(job, adds, next, i);
    ghost var added := if Due(adds, next, i) then |adds[next].attrs| else 0;
    if Due(adds, next, i) {
      more := delta + |adds[next].attrs|;
      rest := next + 1;
    }
    newIdx[i - job.lo] := i - job.lo + more;
    NumberMore(job, was, newIdx[..], i - job.lo, added);
  }

  /** Marks record `i` if it is left out. */
  method Mark(job: Job, i: nat, delta: int, dropped: array<bool>) returns (less: int)
    requires job.Proper() && job.lo <= i < job.hi && dropped.Length == job.hi - job.lo
    requires MarkedTo(job, dropped[..], i)
    modifies dropped
    ensures MarkedTo(job, dropped[..], i + 1)
    ensures less == if job.Dropped(i) then delta - 1 else delta
  {
    less := delta;
    if job.recs[i].kind == Leaf && i != job.lo && job.ed.drop(i) {
      dropped[i - job.lo] := true;
      less := delta - 1;
    }
  }

  /** Gives every record its number; refuses an element whose attributes would be too
      many. */
  method Number(job: Job) returns (ok: bool, newIdx: array<nat>, dropped: array<bool>, adds: seq<Addition>)
    requires Flat(job)
    ensures newIdx.Length == job.hi - job.lo + 1 && dropped.Length == job.hi - job.lo
    ensures ok <==> FewAttrs(job, job.hi)
    ensures ok ==> NumberedTo(job, newIdx[..], job.hi - job.lo)
                   && newIdx[job.hi - job.lo]
                      == Upcoming(job, newIdx[..], job.hi - job.lo) + |job.AddedBefore(job.hi)|
    ensures ok ==> forall x | 0 <= x < dropped.Length :: dropped[x] == job.Dropped(job.lo + x)
    ensures ok ==> Gathered(job, adds, job.hi)
  {
    var n := job.hi - job.lo;
    newIdx := new nat[n + 1](_ => 0);
    dropped := new bool[n](_ => false);
    adds := [];
    var delta: int := 0;
    var next: nat := 0;
    var i := job.lo;
    ok := true;
    while i < job.hi
      invariant job.lo <= i <= job.hi && ok
      invariant FewAttrs(job, i)
      invariant Gathered(job, adds, i) && Waiting(job, adds, next, i)
      invariant NumberedTo(job, newIdx[..], i - job.lo)
      invariant i - job.lo + delta == Upcoming(job, newIdx[..], i - job.lo)
      invariant MarkedTo(job, dropped[..], i)
    {
      delta, next := GiveNumber(job, adds, next, i, delta, newIdx);
      ok, adds := Gather(job, adds, next, i);
      if !ok { return false, newIdx, dropped, adds; }
      delta := Mark(job, i, delta, dropped);
      assert Upcoming(job, newIdx[..], i - job.lo + 1) == i - job.lo + 1 + delta;
      i := i + 1;
    }
    delta, next := GiveNumber(job, adds, next, job.hi, delta, newIdx);
  }

  // ---- links -------------------------------------------------------------

  /** Records link to records of what is cloned, siblings and parents lying before. */
  ghost predicate LinkOk(job: Job, x: nat)
    requires x < |job.recs|
  {
    var r := job.recs[x];
    && r.prev < x && (x != job.lo ==> (r.prev == NONE || job.lo <= r.prev) && job.lo <= r.parent < x)
    && job.lo < r.end <= job.hi && r.last < job.hi && (r.last == NONE || job.lo <= r.last)
  }

  ghost predicate LinksOk(job: Job) {
    job.Proper() && forall x: nat {:trigger Now(x)} :: Now(x) && job.lo <= x < job.hi ==> LinkOk(job, x)
  }

  lemma {:induction false} LastWithin(kids: seq<Tree>, c: nat, q: int)
    ensures LastOf(kids, c, q) == q || c <= LastOf(kids, c, q) < c + SizeAll(kids)
  {
    if kids != [] { LastWithin(kids[1..], c + Size(kids[0]), c); }
  }

  lemma {:induction false} TreeLinks(job: Job, t: Tree, b: nat, p: int, q: int, x: nat)
    requires Lies(job, t, b, p, q) && b <= x < b + Size(t)
    ensures LinkOk(job, x)
    decreases t, 1
  {
    if t.Inner? {
      var first := b + 1 + |t.attrs|;
      if x == b {
        LastWithin(t.kids, first, NONE);
      } else if x < first {
        assert Now(x - b - 1);
      } else {
        KidsLinks(job, t, t.kids, first, b, NONE, x);
      }
    }
  }

  lemma {:induction false} KidsLinks(job: Job, t: Tree, kids: seq<Tree>, c: nat, p: int, q: int, x: nat)
    requires AllLie(job, kids, c, p, q) && c <= x < c + SizeAll(kids) && forall k | k in kids :: k < t
    ensures LinkOk(job, x)
    decreases t, 0, |kids|
  {
    assert kids[0] in kids;
    if x < c + Size(kids[0]) {
      TreeLinks(job, kids[0], c, p, q, x);
    } else {
      forall k | k in kids[1..] ensures k < t { assert k in kids; }
      KidsLinks(job, t, kids[1..], c + Size(kids[0]), p, c, x);
    }
  }

  /** Steps back over dropped siblings. */
  method LivePrev(job: Job, dropped: array<bool>, x: int) returns (y: int)
    requires LinksOk(job) && x < job.hi && (x == NONE || job.lo <= x)
    requires dropped.Length == job.hi - job.lo
    requires forall z | 0 <= z < dropped.Length :: dropped[z] == job.Dropped(job.lo + z)
    ensures y == job.LivePrev(x) && (y == NONE || job.lo <= y <= x)
  {
    y := x;
    while y != NONE && dropped[y - job.lo]
      invariant y <= x && (y == NONE || job.lo <= y)
      invariant job.LivePrev(y) == job.LivePrev(x)
      decreases y
    {
      assert Now(y) && job.Dropped(y);
      y := job.recs[y].prev;
    }
    assert y != NONE ==> !job.Dropped(y);
  }

  // ---- writing -----------------------------------------------------------

  /** What the pass has written of the records before `i`. */
  ghost predicate WrittenTo(job: Job, index: seq<nat>, out: seq<Rec>, i: nat, k: nat)
    requires Numbered(job, index) && i <= job.hi && k <= job.hi + 1
  {
    && (forall x: nat {:trigger Now(x)} :: Now(x) && job.lo <= x < i && !job.Dropped(x) ==>
          index[x] < |out| && out[index[x]] == job.Fixed(index, x))
    && (forall p: nat {:trigger Now(p)} :: Now(p) && job.lo < p < k ==> SliceWritten(job, index, out, p))
  }

  ghost predicate SliceWritten(job: Job, index: seq<nat>, out: seq<Rec>, k: nat)
    requires Numbered(job, index) && k <= job.hi
  {
    var n := |job.AddedBefore(k)|;
    n <= index[k] <= |out| && (n > 0 ==>
      0 <= job.OwnerBefore(k) < |index|
      && out[index[k] - n..index[k]] == AttrRecs(job.AddedBefore(k), index[k] - n, index[job.OwnerBefore(k)]))
  }

  /** Writing from `from` on leaves what lies before it. */
  lemma StaysWritten(job: Job, index: seq<nat>, was: seq<Rec>, now: seq<Rec>, i: nat, k: nat, from: nat)
    requires Numbered(job, index) && i <= job.hi && k <= job.hi + 1 && WrittenTo(job, index, was, i, k)
    requires |now| == |was| && from <= |was| && now[..from] == was[..from]
    requires forall x | job.lo <= x < i && !job.Dropped(x) :: index[x] < from
    requires forall p | job.lo < p < k :: index[p] <= from
    ensures WrittenTo(job, index, now, i, k)
  {
    forall x: nat | job.lo <= x < i && !job.Dropped(x)
      ensures index[x] < |now| && now[index[x]] == job.Fixed(index, x)
    {
      assert Now(x);
      assert now[index[x]] == now[..from][index[x]] && was[index[x]] == was[..from][index[x]];
    }
    forall p: nat | job.lo < p < k ensures SliceWritten(job, index, now, p) {
      assert Now(p);
      var n := |job.AddedBefore(p)|;
      assert now[index[p] - n..index[p]] == now[..from][index[p] - n..index[p]];
      assert was[index[p] - n..index[p]] == was[..from][index[p] - n..index[p]];
    }
  }

  /** The numbers by source index, as the laws have them. */
  ghost function Index(job: Job, newIdx: seq<nat>): seq<nat>
    requires job.Proper() && |newIdx| == job.hi - job.lo + 1
  {
    seq(|job.recs| + 1, x requires 0 <= x <= |job.recs| => if job.lo <= x <= job.hi then newIdx[x - job.lo] else 0)
  }

  lemma IndexNumbered(job: Job, newIdx: seq<nat>)
    requires job.Proper() && |newIdx| == job.hi - job.lo + 1
    requires NumberedTo(job, newIdx, job.hi - job.lo)
    requires newIdx[job.hi - job.lo] == Upcoming(job, newIdx, job.hi - job.lo) + |job.AddedBefore(job.hi)|
    ensures Numbered(job, Index(job, newIdx))
  {
    var index := Index(job, newIdx);
    forall k: nat | job.lo < k <= job.hi
      ensures index[k] == index[k - 1] + (if job.Dropped(k - 1) then 0 else 1) + |job.AddedBefore(k)|
    {
      assert Now(k - job.lo);
    }
  }

  /** Attributes added before record `k` are written just below its place. */
  method AddAttrs(job: Job, a: Addition, newIdx: array<nat>, out: array<Rec>)
    requires job.Proper() && newIdx.Length == job.hi - job.lo + 1
    requires job.lo < a.at <= job.hi && job.lo <= a.owner < job.hi
    requires |a.attrs| <= newIdx[a.at - job.lo] <= out.Length
    modifies out
    ensures var (n, end) := (|a.attrs|, newIdx[a.at - job.lo]);
      && out[end - n..end] == AttrRecs(a.attrs, end - n, newIdx[a.owner - job.lo])
      && out[..end - n] == old(out[..end - n])
  {
    var owner := newIdx[a.owner - job.lo];
    var first := newIdx[a.at - job.lo] - |a.attrs|;
    var i := 0;
    assert a.attrs[..0] == [];
    while i < |a.attrs|
      invariant i <= |a.attrs|
      invariant out[first..first + i] == AttrRecs(a.attrs[..i], first, owner)
      invariant out[..first] == old(out[..first])
    {
      ghost var was := out[first..first + i];
      out[first + i] := Rec(Attribute, a.attrs[i], owner, NONE, first + i + 1, NONE, 0);
      assert a.attrs[..i + 1][..i] == a.attrs[..i];
      assert out[first..first + i] == was;
      assert out[first..first + i + 1] == was + [out[first + i]];
      i := i + 1;
    }
    assert a.attrs[..i] == a.attrs;
  }

  /** A record with its links renumbered. */
  method Renumber(job: Job, newIdx: array<nat>, dropped: array<bool>, i: nat, more: nat, ghost index: seq<nat>)
    returns (r: Rec)
    requires LinksOk(job) && job.lo <= i < job.hi && newIdx.Length == job.hi - job.lo + 1
    requires index == Index(job, newIdx[..])
    requires dropped.Length == job.hi - job.lo
    requires forall z | 0 <= z < dropped.Length :: dropped[z] == job.Dropped(job.lo + z)
    requires more == if job.recs[i].kind == Element then |job.ed.add(i)| else 0
    ensures r == job.Fixed(index, i)
  {
    var s := job.recs[i];
    assert Now(i) && LinkOk(job, i);
    var parent, prev := NONE, NONE;
    if i != job.lo {
      parent := newIdx[s.parent - job.lo];
      var y := LivePrev(job, dropped, s.prev);
      if y != NONE { prev := newIdx[y - job.lo]; }
    }
    if s.kind == Leaf || s.kind == Attribute {
      return Rec(s.kind, s.data, parent, prev, newIdx[i - job.lo] + 1, s.last, s.nattr);
    }
    var last := LivePrev(job, dropped, s.last);
    r := Rec(s.kind, s.data, parent, prev, newIdx[s.end - job.lo], if last == NONE then NONE else newIdx[last - job.lo],
             s.nattr + more);
  }

  /** The addition that comes next after what goes before record `i` is that record's
      own, if it has any. */
  lemma NextIsOwn(job: Job, adds: seq<Addition>, ai: nat, i: nat)
    requires Flat(job) && job.lo <= i < job.hi && Gathered(job, adds, job.hi) && Waiting(job, adds, ai, i + 1)
    ensures (if ai < |adds| && adds[ai].owner == i then |adds[ai].attrs| else 0)
         == if job.recs[i].kind == Element then |job.ed.add(i)| else 0
  {
    if job.recs[i].kind == Element && job.ed.add(i) != [] {
      assert Now(i);
      var x :| 0 <= x < |adds| && adds[x].owner == i;
      assert adds[x].at == At(job, i) >= i + 1 && x >= ai;
      var o := adds[ai].owner;
      assert Now(o);
      if o < i { NotInside(job, o, i); }
      if o > i { NotInside(job, i, o); }
    }
  }

  /** Everything before record `k`'s place: where records and additions before it lie. */
  lemma PlacesBelow(job: Job, index: seq<nat>, k: nat)
    requires Numbered(job, index) && job.lo < k <= job.hi
    ensures |job.AddedBefore(k)| <= index[k] <= index[job.hi]
    ensures forall x | job.lo <= x < k && !job.Dropped(x) :: index[x] < index[k] - |job.AddedBefore(k)|
    ensures forall p | job.lo < p < k :: index[p] <= index[k] - |job.AddedBefore(k)|
  {
    assert Now(k);
    if k < job.hi { IndexRises(job, index, k, job.hi); }
    forall x | job.lo <= x < k
      ensures index[x] <= index[k - 1] && (!job.Dropped(x) && x < k - 1 ==> index[x] < index[k - 1])
    {
      if x < k - 1 { IndexRises(job, index, x, k - 1); }
    }
  }

  /** What is added before record `i` is written, and nothing else disturbed. */
  method PlaceAdded(job: Job, newIdx: array<nat>, adds: seq<Addition>, ai: nat, i: nat, out: array<Rec>,
                    ghost index: seq<nat>) returns (next: nat)
    requires Flat(job) && Numbered(job, index)
    requires newIdx.Length == job.hi - job.lo + 1 && index == Index(job, newIdx[..])
    requires job.lo <= i <= job.hi && Gathered(job, adds, job.hi) && Waiting(job, adds, ai, i)
    requires out.Length == index[job.hi] && WrittenTo(job, index, out[..], i, i)
    modifies out
    ensures Waiting(job, adds, next, i + 1) && WrittenTo(job, index, out[..], i, i + 1)
  {
    next := ai;
    ghost var was := out[..];
    DueAt(job, adds, ai, i);
    if i == job.lo { return; }
    PlacesBelow(job, index, i);
    if ai < |adds| && adds[ai].at == i {
      AddAttrs(job, adds[ai], newIdx, out);
      next := ai + 1;
      ghost var from := index[i] - |adds[ai].attrs|;
      assert out[..][..from] == out[..from] && was[..from] == old(out[..from]);
      assert out[..][from..index[i]] == out[from..index[i]];
      StaysWritten(job, index, was, out[..], i, i, from);
    }
    assert SliceWritten(job, index, out[..], i);
  }

  lemma DueAt(job: Job, adds: seq<Addition>, ai: nat, i: nat)
    requires Flat(job) && job.lo <= i <= job.hi && Gathered(job, adds, job.hi) && Waiting(job, adds, ai, i)
    ensures Waiting(job, adds, if Due(adds, ai, i) then ai + 1 else ai, i + 1)
    ensures job.lo < i ==> (if Due(adds, ai, i)
                            then job.AddedBefore(i) == adds[ai].attrs && job.OwnerBefore(i) == adds[ai].owner
                            else job.AddedBefore(i) == [])
    ensures i == job.lo ==> !Due(adds, ai, i)
  {
    if job.lo < i { AddedThere(job, adds, job.hi, i); }
    if Due(adds, ai, i) { assert Now(adds[ai].owner); }
    assert forall x | ai < x < |adds| :: adds[x].at > adds[ai].at;
  }

  /** A kept record is written in its place. */
  method PlaceRecord(job: Job, newIdx: array<nat>, dropped: array<bool>, adds: seq<Addition>, ai: nat, i: nat,
                     out: array<Rec>, ghost index: seq<nat>)
    requires Flat(job) && LinksOk(job) && Numbered(job, index) && Gathered(job, adds, job.hi)
    requires newIdx.Length == job.hi - job.lo + 1 && index == Index(job, newIdx[..])
    requires dropped.Length == job.hi - job.lo
    requires forall z | 0 <= z < dropped.Length :: dropped[z] == job.Dropped(job.lo + z)
    requires job.lo <= i < job.hi && !job.Dropped(i) && Waiting(job, adds, ai, i + 1)
    requires out.Length == index[job.hi] && WrittenTo(job, index, out[..], i, i + 1)
    modifies out
    ensures WrittenTo(job, index, out[..], i + 1, i + 1)
  {
    NextIsOwn(job, adds, ai, i);
    var more := if ai < |adds| && adds[ai].owner == i then |adds[ai].attrs| else 0;
    var r := Renumber(job, newIdx, dropped, i, more, index);
    ghost var was := out[..];
    IndexRises(job, index, i, job.hi);
    RecordPlace(job, index, i);
    out[newIdx[i - job.lo]] := r;
    StaysWritten(job, index, was, out[..], i, i + 1, index[i]);
    assert out[..][index[i]] == job.Fixed(index, i);
  }

  /** Writes every kept record and every addition in its place. */
  method Place(job: Job, newIdx: array<nat>, dropped: array<bool>, adds: seq<Addition>, ghost index: seq<nat>)
    returns (out: array<Rec>)
    requires Flat(job) && LinksOk(job) && Numbered(job, index) && Gathered(job, adds, job.hi)
    requires newIdx.Length == job.hi - job.lo + 1 && index == Index(job, newIdx[..])
    requires dropped.Length == job.hi - job.lo
    requires forall z | 0 <= z < dropped.Length :: dropped[z] == job.Dropped(job.lo + z)
    ensures Written(job, index, out[..])
  {
    out := new Rec[newIdx[job.hi - job.lo]](_ => Rec(Leaf, 0, NONE, NONE, 0, NONE, 0));
    var ai: nat := 0;
    var i := job.lo;
    NoneBefore(job, adds);
    while i < job.hi
      invariant job.lo <= i <= job.hi && Waiting(job, adds, ai, i)
      invariant out.Length == index[job.hi] && WrittenTo(job, index, out[..], i, i)
    {
      ai := PlaceAdded(job, newIdx, adds, ai, i, out, index);
      if !dropped[i - job.lo] { PlaceRecord(job, newIdx, dropped, adds, ai, i, out, index); }
      assert WrittenTo(job, index, out[..], i + 1, i + 1);
      i := i + 1;
    }
    ai := PlaceAdded(job, newIdx, adds, ai, job.hi, out, index);
    AllWritten(job, index, out[..]);
  }

  lemma NoneBefore(job: Job, adds: seq<Addition>)
    requires Flat(job) && Gathered(job, adds, job.hi)
    ensures Waiting(job, adds, 0, job.lo)
  {
    forall x | 0 <= x < |adds| ensures adds[x].at >= job.lo { assert adds[x].owner >= job.lo; }
  }

  lemma AllWritten(job: Job, index: seq<nat>, out: seq<Rec>)
    requires Numbered(job, index) && |out| == index[job.hi] && WrittenTo(job, index, out, job.hi, job.hi + 1)
    ensures Written(job, index, out)
  {
    assert forall k: nat :: Now(k) && job.lo < k <= job.hi ==> SliceWritten(job, index, out, k);
  }

  lemma RecordPlace(job: Job, index: seq<nat>, i: nat)
    requires Numbered(job, index) && job.lo <= i < job.hi
    ensures forall x | job.lo <= x < i && !job.Dropped(x) :: index[x] < index[i]
    ensures forall p | job.lo < p < i + 1 :: index[p] <= index[i]
  {
    forall x | job.lo <= x < i ensures index[x] <= index[i] && (!job.Dropped(x) ==> index[x] < index[i]) {
      IndexRises(job, index, x, i);
    }
  }

  /** A kept record's copy, found through the index, is of the same kind and data. */
  ghost predicate Lands(job: Job, newIdx: seq<nat>, out: seq<Rec>, x: nat)
    requires job.lo <= x < job.hi <= |job.recs| && |newIdx| == job.hi - job.lo + 1
  {
    var j := newIdx[x - job.lo];
    j < |out| && out[j].kind == job.recs[x].kind && out[j].data == job.recs[x].data
  }

  ghost predicate Precedes(job: Job, newIdx: seq<nat>, x: nat, y: nat)
    requires job.lo <= x < y < job.hi && |newIdx| == job.hi - job.lo + 1
  {
    newIdx[x - job.lo] < newIdx[y - job.lo]
  }

  lemma CopyFound(job: Job, newIdx: seq<nat>, out: seq<Rec>)
    requires job.Proper() && |newIdx| == job.hi - job.lo + 1
    requires Numbered(job, Index(job, newIdx)) && Written(job, Index(job, newIdx), out)
    ensures forall x | job.lo <= x < job.hi && !job.Dropped(x) :: Lands(job, newIdx, out, x)
    ensures forall x, y | job.lo <= x < y < job.hi && !job.Dropped(x) :: Precedes(job, newIdx, x, y)
  {
    var index := Index(job, newIdx);
    forall x | job.lo <= x < job.hi && !job.Dropped(x) ensures Lands(job, newIdx, out, x) {
      assert Now(x);
      assert out[index[x]] == job.Fixed(index, x);
    }
    forall x, y | job.lo <= x < y < job.hi && !job.Dropped(x) ensures Precedes(job, newIdx, x, y) {
      IndexRises(job, index, x, y);
    }
  }

  /** Clones a subtree, refusing where an element's attributes would be too many: the
      layout of the edited subtree, and the index that leads records to their copies. */
  method Clone(job: Job, ghost t: Tree, ghost p: int, ghost q: int)
    returns (ok: bool, out: array<Rec>, newIdx: array<nat>)
    requires job.hi == job.lo + Size(t) <= |job.recs| && p < job.lo && q < job.lo
    requires job.recs[job.lo..job.hi] == Layout(t, job.lo, p, q)
    ensures ok <==> FewAttrs(job, job.hi)
    ensures ok ==> out[..] == Layout(Edit(t, job.lo, job.ed), 0, NONE, NONE)
    ensures newIdx.Length == job.hi - job.lo + 1
    ensures ok ==> forall x | job.lo <= x < job.hi && !job.Dropped(x) :: Lands(job, newIdx[..], out[..], x)
    ensures ok ==> forall x, y | job.lo <= x < y < job.hi && !job.Dropped(x) :: Precedes(job, newIdx[..], x, y)
  {
    LayoutFlat(job, t, p, q);
    LayoutLinks(job, t, p, q);
    var dropped, adds;
    ok, newIdx, dropped, adds := Number(job);
    if !ok {
      out := new Rec[0];
      return;
    }
    IndexNumbered(job, newIdx[..]);
    out := Place(job, newIdx, dropped, adds, Index(job, newIdx[..]));
    CloneExact(job, Index(job, newIdx[..]), out[..], t, p, q);
    CopyFound(job, newIdx[..], out[..]);
  }

  lemma LayoutLinks(job: Job, t: Tree, p: int, q: int)
    requires job.hi == job.lo + Size(t) <= |job.recs| && p < job.lo && q < job.lo
    requires job.recs[job.lo..job.hi] == Layout(t, job.lo, p, q)
    ensures LinksOk(job)
  {
    LayoutLies(job, t, job.lo, p, q);
    forall x: nat | job.lo <= x < job.hi ensures LinkOk(job, x) { TreeLinks(job, t, job.lo, p, q, x); }
  }
}
