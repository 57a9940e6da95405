/** Trees stored as records in document order, the edits a clone makes, and where each
    record goes. */
module CloneLayout {

  datatype Kind = Document | Element | Attribute | Leaf

  const NONE: int := -1

  /** A record links to others by index: its parent, the sibling before it, the first
      record past its subtree, its last child. */
  datatype Rec = Rec(kind: Kind, data: nat, parent: int, prev: int, end: nat, last: int, nattr: nat)

  /** `element` tells an element from a document node. */
  datatype Tree = Text(data: nat) | Inner(element: bool, data: nat, attrs: seq<nat>, kids: seq<Tree>)

  /** Leaves to drop and attributes to add, by source index. */
  datatype Edits = Edits(drop: nat -> bool, add: nat -> seq<nat>)

  // ---- layout ------------------------------------------------------------

  function Size(t: Tree): (n: nat)
    ensures n >= 1
    decreases t, 1
  {
    match t
    case Text(_) => 1
    case Inner(_, _, attrs, kids) => 1 + |attrs| + SizeAll(kids)
  }

  function SizeAll(kids: seq<Tree>): nat
    decreases kids, 0
  {
    if kids == [] then 0 else Size(kids[0]) + SizeAll(kids[1..])
  }

  /** The records of some attributes, the first of them at `at`. */
  function AttrRecs(attrs: seq<nat>, at: nat, owner: int): (rs: seq<Rec>)
    ensures |rs| == |attrs|
  {
    if attrs == [] then []
    else
      var n := |attrs| - 1;
      AttrRecs(attrs[..n], at, owner) + [Rec(Attribute, attrs[n], owner, NONE, at + n + 1, NONE, 0)]
  }

  /** The index of the last of some siblings, `prev` being before them. */
  function LastOf(kids: seq<Tree>, base: nat, prev: int): int {
    if kids == [] then prev else LastOf(kids[1..], base + Size(kids[0]), base)
  }

  /** The records of a tree whose first has index `base`. */
  function Layout(t: Tree, base: nat, parent: int, prev: int): (rs: seq<Rec>)
    ensures |rs| == Size(t)
    decreases t, 1
  {
    match t
    case Text(d) => [Rec(Leaf, d, parent, prev, base + 1, NONE, 0)]
    case Inner(element, d, attrs, kids) =>
      var first := base + 1 + |attrs|;
      [Rec(if element then Element else Document, d, parent, prev, base + Size(t), LastOf(kids, first, NONE), |attrs|)]
      + AttrRecs(attrs, base + 1, base) + LayoutAll(kids, first, base, NONE)
  }

  function LayoutAll(kids: seq<Tree>, base: nat, parent: int, prev: int): (rs: seq<Rec>)
    ensures |rs| == SizeAll(kids)
    decreases kids, 0
  {
    if kids == [] then []
    else Layout(kids[0], base, parent, prev) + LayoutAll(kids[1..], base + Size(kids[0]), parent, base)
  }

  // ---- edits -------------------------------------------------------------

  /** The tree with its edits made; `base` is where its source records begin. */
  function Edit(t: Tree, base: nat, ed: Edits): Tree
    decreases t, 1
  {
    match t
    case Text(_) => t
    case Inner(element, d, attrs, kids) =>
      Inner(element, d, attrs + (if element then ed.add(base) else []), EditAll(kids, base + 1 + |attrs|, ed))
  }

  function EditAll(kids: seq<Tree>, base: nat, ed: Edits): seq<Tree>
    decreases kids, 0
  {
    if kids == [] then []
    else
      (if kids[0].Text? && ed.drop(base) then [] else [Edit(kids[0], base, ed)])
      + EditAll(kids[1..], base + Size(kids[0]), ed)
  }

  // ---- where records go --------------------------------------------------

  /** Cloning the records from `lo` up to `hi`. */
  datatype Job = Job(recs: seq<Rec>, lo: nat, hi: nat, ed: Edits)
  {
    predicate Proper() { lo < hi <= |recs| }

    /** A leaf to leave out; the top itself never is. */
    predicate Dropped(x: nat)
      requires x < |recs|
    {
      recs[x].kind == Leaf && x != lo && ed.drop(x)
    }

    /** The element whose added attributes come just before record `p`. */
    function OwnerBefore(p: nat): int
      requires p <= |recs|
    {
      if p <= lo then NONE
      else
        var r := recs[p - 1];
        if r.kind == Element && r.nattr == 0 then p - 1
        else if r.kind == Attribute && lo <= r.parent < p && recs[r.parent].kind == Element
                && r.parent + recs[r.parent].nattr == p - 1 then r.parent
        else NONE
    }

    function AddedBefore(p: nat): seq<nat>
      requires p <= |recs|
    {
      var o := OwnerBefore(p); if o < 0 then [] else ed.add(o)
    }

    /** The nearest sibling at or before `x` that is kept. */
    function LivePrev(x: int): (y: int)
      requires x < |recs|
      ensures y <= x || y == NONE
      decreases x
    {
      if x < 0 || !Dropped(x) then x else if recs[x].prev < x then LivePrev(recs[x].prev) else NONE
    }

    /** A link to record `x` or the kept sibling before it, renumbered. */
    function MapLink(index: seq<nat>, x: int): int
      requires x < |recs| <= |index|
    {
      var y := LivePrev(x); if y < 0 then NONE else index[y]
    }

    /** The copy of a kept record: its links renumbered. */
    function Fixed(index: seq<nat>, x: nat): Rec
      requires x < |recs| <= |index|
    {
      var r := recs[x];
      var parent := if x == lo || r.parent < 0 || r.parent >= |index| then NONE else index[r.parent];
      var prev := if x == lo || r.prev >= |recs| then NONE else MapLink(index, r.prev);
      if r.kind == Leaf || r.kind == Attribute then
        Rec(r.kind, r.data, parent, prev, index[x] + 1, r.last, r.nattr)
      else
        Rec(r.kind, r.data, parent, prev, if r.end < |index| then index[r.end] else 0,
            if r.last >= |recs| then NONE else MapLink(index, r.last),
            r.nattr + (if r.kind == Element then |ed.add(x)| else 0))
    }
  }

  /** Marks a record whose place is to be looked at. */
  ghost predicate Now(k: nat) { true }

  /** `index` gives each record's place in the copy, or for a dropped one the place the
      next record gets. */
  ghost predicate Numbered(job: Job, index: seq<nat>) {
    && job.Proper() && |index| == |job.recs| + 1 && index[job.lo] == 0
    && forall k: nat {:trigger Now(k)} :: Now(k) && job.lo < k <= job.hi ==>
         index[k] == index[k - 1] + (if job.Dropped(k - 1) then 0 else 1) + |job.AddedBefore(k)|
  }

  /** Every kept record and every added attribute stands in its place. */
  ghost predicate Written(job: Job, index: seq<nat>, out: seq<Rec>)
    requires Numbered(job, index)
  {
    && |out| == index[job.hi]
    && (forall x: nat {:trigger Now(x)} :: Now(x) && job.lo <= x < job.hi && !job.Dropped(x) ==>
          index[x] < |out| && out[index[x]] == job.Fixed(index, x))
    && (forall k: nat {:trigger Now(k)} :: Now(k) && job.lo < k <= job.hi ==>
          var n := |job.AddedBefore(k)|;
          n <= index[k] <= |out| && (n > 0 ==>
            0 <= job.OwnerBefore(k) < |index|
            && out[index[k] - n..index[k]]
               == AttrRecs(job.AddedBefore(k), index[k] - n, index[job.OwnerBefore(k)])))
  }
}
