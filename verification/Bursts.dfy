/** The streamed parse: elements that could lead to a match are kept on a spine, others
    are dropped, and matches are handed over singly or in batches. */
module Bursts {
  import opened Basics
  import opened BurstMatch

  /** An element with its number of records and of attributes.  `full` says that when
      it is complete the text stored since the batch began has reached its limit. */
  datatype El = El(id: nat, name: QName, attrs: nat, size: nat, full: bool, kids: seq<Kid>)

  /** A child, or the place before a tag where leaves are trimmed; `big` says that much
      text is then waiting. */
  datatype Kid = Child(el: El) | Trim(big: bool)

  /** An open element, or the document node. */
  datatype Open = Open(id: nat, attrs: nat)

  /** An element handed over under copies of those above it. */
  datatype Delivery = Delivery(id: nat, above: seq<nat>)

  /** A tree small bursts are copied into: `path` and `gens` are the copies open. */
  datatype Batch = Batch(path: seq<nat>, gens: seq<nat>, els: seq<Delivery>, records: nat)

  const BURST_SMALL: nat := 512
  const BURST_BATCH_RECORDS: nat := 4096

  function Ids(chain: seq<Open>): (ids: seq<nat>)
    ensures |ids| == |chain| && forall i | 0 <= i < |chain| :: ids[i] == chain[i].id
  {
    if chain == [] then [] else Ids(chain[..|chain| - 1]) + [chain[|chain| - 1].id]
  }

  // ---- what is to be delivered -------------------------------------------

  /** The outermost elements whose path of names matches, in document order, each with
      the elements above it. */
  ghost function Outermost(steps: seq<Step>, el: El, names: seq<QName>, above: seq<nat>): seq<Delivery>
    decreases el, 1
  {
    if Matches(steps, names + [el.name]) then [Delivery(el.id, above)]
    else OutermostIn(steps, el.kids, names + [el.name], above + [el.id])
  }

  ghost function OutermostIn(steps: seq<Step>, kids: seq<Kid>, names: seq<QName>, above: seq<nat>): seq<Delivery>
    decreases kids, 0
  {
    if kids == [] then []
    else
      var n := |kids| - 1;
      OutermostIn(steps, kids[..n], names, above) + OutermostAt(steps, kids[n], names, above)
  }

  ghost function OutermostAt(steps: seq<Step>, kid: Kid, names: seq<QName>, above: seq<nat>): seq<Delivery>
    decreases kid, 2
  {
    match kid
    case Child(el) => Outermost(steps, el, names, above)
    case Trim(_) => []
  }

  /** Below a path where no step is left there is nothing to deliver. */
  lemma {:induction false} NothingBelow(steps: seq<Step>, el: El, names: seq<QName>, above: seq<nat>)
    requires State(steps, names + [el.name]) == {}
    ensures Outermost(steps, el, names, above) == []
    decreases el, 1
  {
    MatchExact(steps, names + [el.name]);
    NothingIn(steps, el, el.kids, names + [el.name], above + [el.id]);
  }

  lemma {:induction false} NothingIn(steps: seq<Step>, el: El, kids: seq<Kid>, names: seq<QName>, above: seq<nat>)
    requires State(steps, names) == {} && forall k | k in kids :: k.Child? ==> k.el < el
    ensures OutermostIn(steps, kids, names, above) == []
    decreases el, 0, |kids|
  {
    if kids != [] {
      var n := |kids| - 1;
      forall k | k in kids[..n] ensures k.Child? ==> k.el < el { assert k in kids; }
      NothingIn(steps, el, kids[..n], names, above);
      if kids[n].Child? {
        assert kids[n] in kids;
        DeadBelow(steps, names, [kids[n].el.name]);
        NothingBelow(steps, kids[n].el, names, above);
      }
    }
  }

  lemma {:induction false} PrefixIn(steps: seq<Step>, kids: seq<Kid>, i: nat, names: seq<QName>, above: seq<nat>)
    requires i <= |kids|
    ensures OutermostIn(steps, kids[..i], names, above) <= OutermostIn(steps, kids, names, above)
    decreases |kids| - i
  {
    if i == |kids| {
      assert kids[..i] == kids;
    } else {
      assert kids[..i + 1][..i] == kids[..i];
      PrefixIn(steps, kids, i + 1, names, above);
    }
  }

  // ---- the burster -------------------------------------------------------

  class Burster {
    const steps: seq<Step>
    const fails: nat -> bool    // the callback's error, by element
    var spine: nat
    var drop: nat
    var burst: bool
    var states: seq<set<nat>>
    var gens: seq<nat>
    var gen: nat
    var batch: Option<Batch>
    var delivered: seq<Delivery>
    ghost var owner: map<nat, nat>   // the element each generation number was given to

    constructor (steps: seq<Step>, fails: nat -> bool, ghost document: nat)
      ensures this.steps == steps && this.fails == fails
      ensures spine == 0 && drop == 0 && !burst && states == [{0}] && gens == [0] && gen == 0
      ensures batch == None && delivered == [] && owner == map[0 := document]
    {
      this.steps, this.fails := steps, fails;
      spine, drop, burst, states, gens, gen := 0, 0, false, [{0}], [0], 0;
      batch, delivered, owner := None, [], map[0 := document];
    }

    /** What has been handed over or waits in the batch. */
    ghost function All(): seq<Delivery>
      reads this`delivered, this`batch
    {
      delivered + (if batch.Some? then batch.value.els else [])
    }

    /** Generation numbers are given once; the spine's and the batch's name the elements
        they stand for. */
    ghost predicate OwnersOk(chain: seq<Open>)
      reads this`gens, this`gen, this`owner, this`batch
    {
      && (forall g | g in owner :: g <= gen)
      && |gens| >= 1 && gens[0] == 0 && |gens| <= |chain|
      && (forall i | 0 <= i < |gens| :: gens[i] in owner && owner[gens[i]] == chain[i].id)
      && (batch.Some? ==> BatchOk(batch.value))
    }

    ghost predicate BatchOk(b: Batch)
      reads this`owner
    {
      && |b.path| == |b.gens| && |b.gens| >= 1 && b.gens[0] == 0
      && (forall i | 0 <= i < |b.gens| :: b.gens[i] in owner && owner[b.gens[i]] == b.path[i])
    }

    /** Each level of the spine holds the steps matched on the way to it. */
    ghost predicate StatesOk(names: seq<QName>)
      reads this`spine, this`states, this`gens
    {
      && |states| == spine + 1 && |gens| == spine + 1 && spine <= |names|
      && forall i | 0 <= i <= spine :: states[i] == State(steps, names[..i])
    }

    ghost predicate NoneFailed()
      reads this`delivered
    {
      forall d | d in delivered :: !fails(d.id)
    }

    ghost predicate Inv(chain: seq<Open>, names: seq<QName>)
      reads this
    {
      && |chain| == |names| + 1
      && OwnersOk(chain) && StatesOk(names) && NoneFailed()
      && (if drop == 0 then spine == |names| && !burst else spine < drop <= |names|)
    }

    /** A failed callback stops the parse: what was handed over is the beginning of what
        there is to hand over, up to the one that failed. */
    ghost predicate StoppedIn(want: seq<Delivery>)
      reads this`delivered
    {
      delivered != [] && delivered <= want && fails(delivered[|delivered| - 1].id)
    }

    method Hand(d: Delivery) returns (ok: bool)
      modifies this`delivered
      ensures delivered == old(delivered) + [d] && ok == !fails(d.id)
    {
      delivered := delivered + [d];
      ok := !fails(d.id);
    }

    method Flush() returns (ok: bool)
      requires NoneFailed()
      modifies this`delivered, this`batch
      ensures ok ==> delivered == old(All()) && batch == None && NoneFailed()
      ensures !ok ==> StoppedIn(old(All()))
    {
      if batch.None? {
        assert delivered == All();
        return true;
      }
      var b := batch.value;
      batch := None;
      var i := 0;
      while i < |b.els|
        invariant i <= |b.els| && batch == None
        invariant delivered == old(delivered) + b.els[..i] && NoneFailed()
      {
        ok := Hand(b.els[i]);
        assert b.els[..i + 1] == b.els[..i] + [b.els[i]];
        if !ok {
          assert old(All()) == delivered + b.els[i + 1..];
          return false;
        }
        i := i + 1;
      }
      assert b.els[..i] == b.els;
      ok := true;
    }

    /** Copies a small burst into the batch, sharing the copies of what is above it with
        the burst before. */
    method Add(el: El, chain: seq<Open>)
      requires OwnersOk(chain) && |gens| == |chain|
      modifies this`batch
      ensures batch.Some? && OwnersOk(chain)
      ensures delivered == old(delivered) && All() == old(All()) + [Delivery(el.id, Ids(chain))]
    {
      var b := if batch.Some? then batch.value else Batch([chain[0].id], [0], [], 1);
      var k: nat := 1;
      while k < |b.path| && k < |gens| && b.gens[k] == gens[k]
        invariant 1 <= k <= |b.path| && k <= |gens|
        invariant forall i | 0 <= i < k :: b.gens[i] == gens[i]
      {
        k := k + 1;
      }
      var path := b.path[..k];
      var copies := b.gens[..k];
      var records: nat := b.records;
      while k < |gens|
        invariant |path| == |copies| == k <= |gens|
        invariant forall i | 0 <= i < k :: path[i] == chain[i].id && copies[i] == gens[i]
      {
        path, copies := path + [chain[k].id], copies + [gens[k]];
        records := records + 1 + chain[k].attrs;
        k := k + 1;
      }
      assert path == Ids(chain);
      batch := Some(Batch(path, copies, b.els + [Delivery(el.id, path)], records + el.size));
      assert All() == old(All()) + [Delivery(el.id, path)];
    }

    /** Delivers a burst: a large one at once, a small one with those before it. */
    method Take(el: El, chain: seq<Open>) returns (ok: bool)
      requires OwnersOk(chain) && |gens| == |chain| && NoneFailed()
      modifies this`batch, this`delivered
      ensures ok ==> OwnersOk(chain) && NoneFailed() && All() == old(All()) + [Delivery(el.id, Ids(chain))]
      ensures !ok ==> StoppedIn(old(All()) + [Delivery(el.id, Ids(chain))])
    {
      ghost var want := All() + [Delivery(el.id, Ids(chain))];
      if el.size > BURST_SMALL {
        ok := Flush();
        if ok { ok := Hand(Delivery(el.id, Ids(chain))); }
        return;
      }
      Add(el, chain);
      var limit := if BURST_BATCH_RECORDS < 4 * |gens| then 4 * |gens| else BURST_BATCH_RECORDS;
      if batch.value.records >= limit || el.full {
        ok := Flush();
      } else {
        ok := true;
      }
    }

    /** Classifies an element just opened at depth `d`. */
    method Start(el: El, d: nat)
      requires |states| > spine && |gens| == |states|
      modifies this`spine, this`drop, this`burst, this`states, this`gens, this`gen, this`owner
      ensures if old(drop) != 0 then unchanged(this)
        else
          var n := Advance(steps, old(states)[old(spine)], el.name);
          if |steps| in n then
            && drop == d && burst && spine == old(spine) && states == old(states) && gens == old(gens)
            && gen == old(gen) && owner == old(owner)
          else if n != {} then
            && drop == 0 && burst == old(burst) && spine == d && states == old(states) + [n]
            && gen == old(gen) + 1 && gens == old(gens) + [gen] && owner == old(owner)[gen := el.id]
          else
            && drop == d && burst == old(burst) && spine == old(spine) && states == old(states)
            && gens == old(gens) && gen == old(gen) && owner == old(owner)
    {
      if drop != 0 { return; }
      var n := Advance(steps, states[spine], el.name);
      if |steps| in n {
        drop, burst := d, true;
      } else if n != {} {
        spine := d;
        states := states + [n];
        gen := gen + 1;
        gens := gens + [gen];
        owner := owner[gen := el.id];
      } else {
        drop := d;
      }
    }

    /** Leaves directly inside a spine element are dropped; a batch is delivered early
        when much text waits. */
    method TrimLeaves(d: nat, big: bool) returns (ok: bool)
      requires NoneFailed()
      modifies this`batch, this`delivered
      ensures ok ==> NoneFailed() && All() == old(All()) && (batch == old(batch) || batch == None)
      ensures ok && drop != 0 ==> batch == old(batch) && delivered == old(delivered)
      ensures !ok ==> drop == 0 && StoppedIn(old(All()))
    {
      if drop != 0 || d == 0 || d != spine { return true; }
      ok := true;
      if batch.Some? && big { ok := Flush(); }
    }
  
    /** Fewer levels of the spine, of the same open elements. */
    lemma OwnersBelow(chain: seq<Open>, o: Open)
      requires OwnersOk(chain + [o]) && |gens| <= |chain|
      ensures OwnersOk(chain)
    {
      forall i | 0 <= i < |gens| ensures owner[gens[i]] == chain[i].id { assert (chain + [o])[i] == chain[i]; }
    }

    /** What closing an element hands over: itself, if it is the burst being built. */
    function Closing(el: El, d: nat, chain: seq<Open>): seq<Delivery>
      reads this`drop, this`burst
    {
      if drop == d && burst then [Delivery(el.id, Ids(chain))] else []
    }

    /** Closes an element at depth `d`; `chain` is what is open around it. */
    method End(el: El, d: nat, chain: seq<Open>) returns (ok: bool)
      requires d == |chain| > 0 && OwnersOk(chain + [Open(el.id, el.attrs)])
      requires NoneFailed() && |states| == |gens| == spine + 1
      requires if drop == 0 then spine == d && !burst else drop <= d && spine < drop && (drop == d ==> spine == d - 1)
      modifies this
      ensures ok ==> OwnersOk(chain) && NoneFailed() && All() == old(All()) + old(Closing(el, d, chain))
      ensures ok ==> gen == old(gen) && owner == old(owner)
      ensures ok && old(drop) == d ==>
                drop == 0 && !burst && spine == old(spine) && states == old(states) && gens == old(gens)
      ensures ok && old(drop) == 0 ==>
                drop == 0 && !burst && spine == d - 1 && states == old(states)[..d] && gens == old(gens)[..d]
      ensures ok && old(drop) != 0 && old(drop) != d ==> unchanged(this)
      ensures ok && d == 1 ==> batch == None
      ensures !ok ==> StoppedIn(old(All()) + old(Closing(el, d, chain)))
    {
      if drop != d && drop != 0 {
        OwnersBelow(chain, Open(el.id, el.attrs));
        assert All() + [] == All();
        return true;
      }
      if drop == d {
        OwnersBelow(chain, Open(el.id, el.attrs));
        ok := CloseDropped(el, chain);
        if !ok { return; }
      } else {
        spine := spine - 1;
        states := states[..|states| - 1];
        gens := gens[..|gens| - 1];
        OwnersBelow(chain, Open(el.id, el.attrs));
        assert All() + [] == All();
        ok := true;
      }
      if d == 1 { ok := Flush(); }
    }

    method CloseDropped(el: El, chain: seq<Open>) returns (ok: bool)
      requires OwnersOk(chain) && NoneFailed() && |gens| == |chain| == drop
      modifies this`drop, this`burst, this`batch, this`delivered
      ensures drop == 0 && !burst
      ensures ok ==> OwnersOk(chain) && NoneFailed() && All() == old(All()) + old(Closing(el, drop, chain))
      ensures !ok ==> StoppedIn(old(All()) + old(Closing(el, drop, chain)))
    {
      drop := 0;
      if burst {
        burst := false;
        ok := Take(el, chain);
      } else {
        assert All() + [] == All();
        ok := true;
      }
    }

    /** What an element adds when it is met: nothing inside one being dropped or built. */
    ghost function Wanted(el: El, chain: seq<Open>, names: seq<QName>): seq<Delivery>
      reads this`drop
    {
      if drop == 0 then Outermost(steps, el, names, Ids(chain)) else []
    }

    ghost function WantedIn(kids: seq<Kid>, chain: seq<Open>, names: seq<QName>): seq<Delivery>
      reads this`drop
    {
      if drop == 0 then OutermostIn(steps, kids, names, Ids(chain)) else []
    }

    twostate predicate SameSpine()
      reads this
    {
      && drop == old(drop) && burst == old(burst) && spine == old(spine)
      && states == old(states) && gens == old(gens)
    }

    lemma OwnersLonger(chain: seq<Open>, o: Open)
      requires OwnersOk(chain)
      ensures OwnersOk(chain + [o])
    {
      forall i | 0 <= i < |gens| ensures owner[gens[i]] == (chain + [o])[i].id { assert (chain + [o])[i] == chain[i]; }
    }

    lemma StatesLonger(names: seq<QName>, q: QName)
      requires StatesOk(names)
      ensures StatesOk(names + [q])
    {
      forall i | 0 <= i <= spine ensures states[i] == State(steps, (names + [q])[..i]) {
        assert (names + [q])[..i] == names[..i];
      }
    }

    /** What is to be delivered of an element, by the steps matched at it. */
    lemma ByState(el: El, chain: seq<Open>, names: seq<QName>)
      requires drop == 0 && |chain| == |names| + 1
      ensures var n := State(steps, names + [el.name]);
        if |steps| in n then Wanted(el, chain, names) == [Delivery(el.id, Ids(chain))]
        else if n == {} then Wanted(el, chain, names) == []
        else Wanted(el, chain, names) == WantedIn(el.kids, chain + [Open(el.id, el.attrs)], names + [el.name])
    {
      MatchExact(steps, names + [el.name]);
      if State(steps, names + [el.name]) == {} { NothingBelow(steps, el, names, Ids(chain)); }
      var inside := chain + [Open(el.id, el.attrs)];
      assert inside[..|chain|] == chain;
      assert Ids(inside) == Ids(chain) + [el.id];
    }

    /** Opens an element that is being dropped, or is within one, or is a burst. */
    lemma DroppedInv(chain: seq<Open>, o: Open, names: seq<QName>, q: QName)
      requires OwnersOk(chain) && StatesOk(names) && NoneFailed() && |chain| == |names| + 1
      requires spine < drop <= |names| + 1
      ensures Inv(chain + [o], names + [q])
    {
      OwnersLonger(chain, o);
      StatesLonger(names, q);
    }

    /** Opens an element on the spine, with a generation number of its own. */
    lemma SpineInv(el: El, chain: seq<Open>, names: seq<QName>, levels: seq<set<nat>>, given: seq<nat>,
                   before: map<nat, nat>)
      requires |chain| == |names| + 1 == |levels| == |given| && NoneFailed()
      requires spine == |chain| && drop == 0 && !burst && gen > 0 && given[0] == 0
      requires forall i | 0 <= i < |levels| :: levels[i] == State(steps, names[..i])
      requires forall i | 0 <= i < |given| :: given[i] in before && before[given[i]] == chain[i].id
      requires forall g | g in before :: g < gen
      requires batch.Some? ==>
        var b := batch.value;
        |b.path| == |b.gens| && |b.gens| >= 1 && b.gens[0] == 0
        && forall i | 0 <= i < |b.gens| :: b.gens[i] in before && before[b.gens[i]] == b.path[i]
      requires states == levels + [State(steps, names + [el.name])]
      requires gens == given + [gen] && owner == before[gen := el.id]
      ensures Inv(chain + [Open(el.id, el.attrs)], names + [el.name])
    {
      var inside := chain + [Open(el.id, el.attrs)];
      var path := names + [el.name];
      forall i | 0 <= i <= spine ensures states[i] == State(steps, path[..i]) {
        if i < spine { assert path[..i] == names[..i] && states[i] == levels[i]; } else { assert path[..i] == path; }
      }
      OwnersOn(given, before, gen, chain, Open(el.id, el.attrs));
    }

    /** Of the open elements, each generation still names its own. */
    static lemma OwnersOn(given: seq<nat>, before: map<nat, nat>, gen: nat, chain: seq<Open>, top: Open)
      requires |given| == |chain| && forall g | g in before :: g < gen
      requires forall i | 0 <= i < |given| :: given[i] in before && before[given[i]] == chain[i].id
      ensures var (gens, owner, inside) := (given + [gen], before[gen := top.id], chain + [top]);
              forall i | 0 <= i < |gens| :: gens[i] in owner && owner[gens[i]] == inside[i].id
    {
    }

    /** Opens an element: the state inside it. */
    method Enter(el: El, chain: seq<Open>, ghost names: seq<QName>)
      requires Inv(chain, names)
      modifies this`spine, this`drop, this`burst, this`states, this`gens, this`gen, this`owner
      ensures Inv(chain + [Open(el.id, el.attrs)], names + [el.name])
      ensures old(drop) != 0 ==> unchanged(this)
      ensures old(drop) == 0 && drop == 0 ==>
                spine == |chain| && states[..|chain|] == old(states) && gens[..|chain|] == old(gens)
                && old(Wanted(el, chain, names))
                   == WantedIn(el.kids, chain + [Open(el.id, el.attrs)], names + [el.name])
      ensures old(drop) == 0 && drop != 0 ==>
                drop == |chain| && spine == |chain| - 1 && states == old(states) && gens == old(gens)
                && old(Wanted(el, chain, names)) == if burst then [Delivery(el.id, Ids(chain))] else []
    {
      ghost var path := names + [el.name];
      assert path[..|names|] == names && names[..|names|] == names;
      if drop == 0 { ByState(el, chain, names); }
      ghost var (levels, given, before) := (states, gens, owner);
      Start(el, |chain|);
      if drop != 0 {
        DroppedInv(chain, Open(el.id, el.attrs), names, el.name);
      } else {
        SpineInv(el, chain, names, levels, given, before);
      }
    }

    /** One element of the document, from its start tag to its end tag. */
    method Element(el: El, chain: seq<Open>, ghost names: seq<QName>) returns (ok: bool)
      requires Inv(chain, names)
      modifies this
      ensures ok ==> Inv(chain, names) && SameSpine() && All() == old(All()) + old(Wanted(el, chain, names))
      ensures ok && |chain| == 1 && drop == 0 ==> batch == None
      ensures !ok ==> StoppedIn(old(All()) + old(Wanted(el, chain, names)))
      decreases el, 1
    {
      var d := |chain|;
      ghost var (start, want) := (All(), Wanted(el, chain, names));
      Enter(el, chain, names);
      ghost var a := WantedIn(el.kids, chain + [Open(el.id, el.attrs)], names + [el.name]);
      ghost var b := Closing(el, d, chain);
      assert want == a + b;
      InTurn(start, a, b);
      ok := Content(el, chain + [Open(el.id, el.attrs)], names + [el.name]);
      if ok {
        ok := End(el, d, chain);
      } else {
        StopMore(start + a, start + want);
      }
    }

    lemma StopMore(want: seq<Delivery>, more: seq<Delivery>)
      requires StoppedIn(want) && want <= more
      ensures StoppedIn(more)
    {
    }

    /** What the first `i` children add is the beginning of what all of them add. */
    lemma KidAdds(kids: seq<Kid>, i: nat, chain: seq<Open>, names: seq<QName>) returns (kid: seq<Delivery>)
      requires i < |kids|
      ensures kid == if drop == 0 then OutermostAt(steps, kids[i], names, Ids(chain)) else []
      ensures WantedIn(kids[..i + 1], chain, names) == WantedIn(kids[..i], chain, names) + kid
      ensures WantedIn(kids[..i], chain, names) + kid <= WantedIn(kids, chain, names)
    {
      kid := if drop == 0 then OutermostAt(steps, kids[i], names, Ids(chain)) else [];
      assert kids[..i + 1][..i] == kids[..i];
      PrefixIn(steps, kids, i + 1, names, Ids(chain));
    }

    lemma InTurn(a: seq<Delivery>, b: seq<Delivery>, c: seq<Delivery>)
      ensures a + (b + c) == a + b + c
    {
    }

    lemma PrefixAfter(a: seq<Delivery>, b: seq<Delivery>, c: seq<Delivery>)
      requires b <= c
      ensures a + b <= a + c
    {
      assert a + c == (a + b) + c[|b|..];
    }

    method Content(el: El, chain: seq<Open>, ghost names: seq<QName>) returns (ok: bool)
      requires Inv(chain, names)
      modifies this
      ensures ok ==> Inv(chain, names) && SameSpine() && All() == old(All()) + old(WantedIn(el.kids, chain, names))
      ensures !ok ==> StoppedIn(old(All()) + old(WantedIn(el.kids, chain, names)))
      decreases el, 0
    {
      var i := 0;
      ghost var start := All();
      ghost var want := WantedIn(el.kids, chain, names);
      ghost var done := WantedIn(el.kids[..0], chain, names);
      assert start + done == start;
      while i < |el.kids|
        invariant i <= |el.kids| && Inv(chain, names) && SameSpine()
        invariant done == WantedIn(el.kids[..i], chain, names) && want == WantedIn(el.kids, chain, names)
        invariant All() == start + done
      {
        ghost var kid := KidAdds(el.kids, i, chain, names);
        PrefixAfter(start, done + kid, want);
        ok := OneKid(el.kids[i], chain, names, kid);
        InTurn(start, done, kid);
        if !ok {
          StopMore(start + done + kid, start + want);
          return;
        }
        done := done + kid;
        i := i + 1;
      }
      assert el.kids[..i] == el.kids;
      ok := true;
    }

    method OneKid(k: Kid, chain: seq<Open>, ghost names: seq<QName>, ghost kid: seq<Delivery>) returns (ok: bool)
      requires Inv(chain, names) && kid == if drop == 0 then OutermostAt(steps, k, names, Ids(chain)) else []
      modifies this
      ensures ok ==> Inv(chain, names) && SameSpine() && All() == old(All()) + kid
      ensures !ok ==> StoppedIn(old(All()) + kid)
      decreases k, 2
    {
      match k {
        case Child(x) => ok := Element(x, chain, names);
        case Trim(big) =>
          assert All() + kid == All();
          ok := TrimLeaves(|chain| - 1, big);
      }
    }
  }

  /** A parse of a whole document delivers the outermost matches, each once and in
      order, or as many of them as the callback takes. */
  method ParseBursts(steps: seq<Step>, fails: nat -> bool, root: El, document: nat)
    returns (ok: bool, delivered: seq<Delivery>)
    ensures ok ==> delivered == Outermost(steps, root, [], [document]) && forall d | d in delivered :: !fails(d.id)
    ensures !ok ==> delivered != [] && delivered <= Outermost(steps, root, [], [document])
                    && fails(delivered[|delivered| - 1].id)
  {
    var b := new Burster(steps, fails, document);
    assert Ids([Open(document, 0)]) == [document] by { assert [Open(document, 0)][..0] == []; }
    ghost var want := Outermost(steps, root, [], [document]);
    assert b.All() == [] && [] + want == want;
    ok := b.Element(root, [Open(document, 0)], []);
    delivered := b.delivered;
    assert ok ==> b.All() == delivered;
  }
}
