/** Which elements a streamed parse is to deliver, said of places in the document. */
module BurstPlaces {
  import opened Basics
  import opened BurstMatch
  import opened Bursts

  /** The element reached by going down by these places among children. */
  function ElementAt(el: El, p: seq<nat>): Option<El>
    decreases |p|
  {
    if p == [] then Some(el)
    else if p[0] < |el.kids| && el.kids[p[0]].Child? then ElementAt(el.kids[p[0]].el, p[1..])
    else None
  }

  /** The names from `el` down to it. */
  function NamesTo(el: El, p: seq<nat>): seq<QName>
    decreases |p|
  {
    [el.name] + if p != [] && p[0] < |el.kids| && el.kids[p[0]].Child? then NamesTo(el.kids[p[0]].el, p[1..]) else []
  }

  /** The elements above it, from `el` down. */
  function AboveOf(el: El, p: seq<nat>): seq<nat>
    decreases |p|
  {
    if p != [] && p[0] < |el.kids| && el.kids[p[0]].Child? then [el.id] + AboveOf(el.kids[p[0]].el, p[1..]) else []
  }

  /** Its path matches, and that of no element above it does. */
  ghost predicate Chosen(steps: seq<Step>, el: El, names: seq<QName>, p: seq<nat>) {
    && ElementAt(el, p).Some? && Matches(steps, names + NamesTo(el, p))
    && forall k | 0 <= k < |p| :: !Matches(steps, names + NamesTo(el, p[..k]))
  }

  /** Earlier in document order. */
  predicate Earlier(p: seq<nat>, q: seq<nat>)
    decreases |p|
  {
    q != [] && (p == [] || p[0] < q[0] || (p[0] == q[0] && Earlier(p[1..], q[1..])))
  }

  /** One delivery for each chosen place, in document order, with the elements above it. */
  ghost predicate Delivers(steps: seq<Step>, el: El, names: seq<QName>, above: seq<nat>, at: seq<seq<nat>>,
                           ds: seq<Delivery>)
  {
    && |at| == |ds| && (forall i, j | 0 <= i < j < |at| :: Earlier(at[i], at[j]))
    && (forall p :: p in at <==> Chosen(steps, el, names, p))
    && forall i | 0 <= i < |ds| :: DeliversAt(el, above, at[i], ds[i])
  }

  predicate DeliversAt(el: El, above: seq<nat>, p: seq<nat>, d: Delivery) {
    ElementAt(el, p).Some? && d == Delivery(ElementAt(el, p).value.id, above + AboveOf(el, p))
  }

  // ---- below an element that does not match ------------------------------

  /** The same of places that begin among some of its children. */
  ghost predicate ChosenIn(steps: seq<Step>, kids: seq<Kid>, names: seq<QName>, p: seq<nat>) {
    p != [] && p[0] < |kids| && kids[p[0]].Child? && Chosen(steps, kids[p[0]].el, names, p[1..])
  }

  lemma ChosenBelow(steps: seq<Step>, el: El, names: seq<QName>, p: seq<nat>)
    requires !Matches(steps, names + [el.name])
    ensures Chosen(steps, el, names, p) <==> ChosenIn(steps, el.kids, names + [el.name], p)
  {
    if p == [] {
      assert NamesTo(el, p) == [el.name];
    } else if p[0] < |el.kids| && el.kids[p[0]].Child? {
      var kid := el.kids[p[0]].el;
      Through(el, names, p);
      forall k | 0 <= k < |p|
        ensures names + NamesTo(el, p[..k])
             == if k == 0 then names + [el.name] else (names + [el.name]) + NamesTo(kid, p[1..][..k - 1])
      {
        if k == 0 {
          assert NamesTo(el, p[..0]) == [el.name];
        } else {
          Through(el, names, p[..k]);
          assert p[..k][1..] == p[1..][..k - 1];
        }
      }
      if Chosen(steps, el, names, p) {
        forall k | 0 <= k < |p[1..]| ensures !Matches(steps, (names + [el.name]) + NamesTo(kid, p[1..][..k])) {
          assert !Matches(steps, names + NamesTo(el, p[..k + 1]));
        }
      }
    }
  }

  lemma Through(el: El, names: seq<QName>, p: seq<nat>)
    requires p != [] && p[0] < |el.kids| && el.kids[p[0]].Child?
    ensures names + NamesTo(el, p) == (names + [el.name]) + NamesTo(el.kids[p[0]].el, p[1..])
  {
  }

  /** As `Delivers`, of the first children of an element. */
  ghost predicate DeliversIn(steps: seq<Step>, el: El, n: nat, names: seq<QName>, above: seq<nat>, at: seq<seq<nat>>,
                             ds: seq<Delivery>)
    requires n <= |el.kids|
  {
    && |at| == |ds| && (forall i, j | 0 <= i < j < |at| :: Earlier(at[i], at[j]))
    && (forall p :: p in at <==> ChosenIn(steps, el.kids[..n], names, p))
    && forall i | 0 <= i < |ds| :: DeliversAt(el, above, at[i], ds[i])
  }

  /** Places below child `n`, seen from its parent. */
  function Under(n: nat, at: seq<seq<nat>>): (under: seq<seq<nat>>)
    ensures |under| == |at| && forall i | 0 <= i < |at| :: under[i] == [n] + at[i]
  {
    if at == [] then [] else Under(n, at[..|at| - 1]) + [[n] + at[|at| - 1]]
  }

  lemma UnderIn(n: nat, at: seq<seq<nat>>, p: seq<nat>)
    ensures p in Under(n, at) <==> p != [] && p[0] == n && p[1..] in at
  {
    var under := Under(n, at);
    if p in under {
      var i :| 0 <= i < |under| && under[i] == p;
      assert p[1..] == at[i];
    }
    if p != [] && p[0] == n && p[1..] in at {
      var i :| 0 <= i < |at| && at[i] == p[1..];
      assert under[i] == p;
    }
  }

  /** One child more. */
  lemma OneKidMore(steps: seq<Step>, el: El, n: nat, names: seq<QName>, above: seq<nat>, before: seq<seq<nat>>,
                   ds: seq<Delivery>, at: seq<seq<nat>>, more: seq<Delivery>)
    requires n < |el.kids| && el.kids[n].Child? && DeliversIn(steps, el, n, names, above, before, ds)
    requires Delivers(steps, el.kids[n].el, names, above + [el.id], at, more)
    ensures DeliversIn(steps, el, n + 1, names, above, before + Under(n, at), ds + more)
  {
    var whole := before + Under(n, at);
    forall p ensures p in whole <==> ChosenIn(steps, el.kids[..n + 1], names, p) {
      UnderIn(n, at, p);
      assert p in whole <==> p in before || p in Under(n, at);
    }
    forall i, j | 0 <= i < j < |whole| ensures Earlier(whole[i], whole[j]) {
      if j < |before| {
        assert Earlier(before[i], before[j]);
      } else if i >= |before| {
        assert Earlier(at[i - |before|], at[j - |before|]);
        assert whole[i][1..] == at[i - |before|] && whole[j][1..] == at[j - |before|];
      } else {
        assert before[i] in before && ChosenIn(steps, el.kids[..n], names, before[i]);
      }
    }
    forall i | 0 <= i < |whole| ensures DeliversAt(el, above, whole[i], (ds + more)[i]) {
      if i < |ds| {
        assert DeliversAt(el, above, before[i], ds[i]);
      } else {
        DeliversUnder(el, n, above, at[i - |ds|], more[i - |ds|]);
      }
    }
  }

  lemma DeliversUnder(el: El, n: nat, above: seq<nat>, p: seq<nat>, d: Delivery)
    requires n < |el.kids| && el.kids[n].Child? && DeliversAt(el.kids[n].el, above + [el.id], p, d)
    ensures DeliversAt(el, above, [n] + p, d)
  {
    assert ([n] + p)[1..] == p;
  }

  /** A place where leaves are trimmed adds nothing. */
  lemma OneTrimMore(steps: seq<Step>, el: El, n: nat, names: seq<QName>, above: seq<nat>, at: seq<seq<nat>>,
                    ds: seq<Delivery>)
    requires n < |el.kids| && el.kids[n].Trim? && DeliversIn(steps, el, n, names, above, at, ds)
    ensures DeliversIn(steps, el, n + 1, names, above, at, ds)
  {
    forall p ensures ChosenIn(steps, el.kids[..n + 1], names, p) <==> ChosenIn(steps, el.kids[..n], names, p) {}
  }

  // ---- the walk gives them -----------------------------------------------

  /** What is to be delivered is each element whose path matches and above which no path
      does, once, in document order. */
  lemma {:induction false} OutermostIs(steps: seq<Step>, el: El, names: seq<QName>, above: seq<nat>)
    returns (at: seq<seq<nat>>)
    ensures Delivers(steps, el, names, above, at, Outermost(steps, el, names, above))
    decreases el, 1
  {
    if Matches(steps, names + [el.name]) {
      at := [[]];
      OnlyItself(steps, el, names, above);
    } else {
      at := KidsAre(steps, el, |el.kids|, names + [el.name], above);
      assert el.kids[..|el.kids|] == el.kids;
      forall p ensures p in at <==> Chosen(steps, el, names, p) { ChosenBelow(steps, el, names, p); }
    }
  }

  lemma OnlyItself(steps: seq<Step>, el: El, names: seq<QName>, above: seq<nat>)
    requires Matches(steps, names + [el.name])
    ensures Delivers(steps, el, names, above, [[]], [Delivery(el.id, above)])
  {
    assert NamesTo(el, []) == [el.name] && above + AboveOf(el, []) == above;
    forall p ensures p in [[]] <==> Chosen(steps, el, names, p) {
      if p != [] { assert p[..0] == []; }
    }
  }

  lemma {:induction false} KidsAre(steps: seq<Step>, el: El, n: nat, names: seq<QName>, above: seq<nat>)
    returns (at: seq<seq<nat>>)
    requires n <= |el.kids|
    ensures DeliversIn(steps, el, n, names, above, at, OutermostIn(steps, el.kids[..n], names, above + [el.id]))
    decreases el, 0, n
  {
    at := [];
    if n > 0 {
      assert el.kids[..n][..n - 1] == el.kids[..n - 1];
      var before := KidsAre(steps, el, n - 1, names, above);
      var ds := OutermostIn(steps, el.kids[..n - 1], names, above + [el.id]);
      match el.kids[n - 1]
      case Child(x) =>
        var below := OutermostIs(steps, x, names, above + [el.id]);
        OneKidMore(steps, el, n - 1, names, above, before, ds, below, Outermost(steps, x, names, above + [el.id]));
        at := before + Under(n - 1, below);
      case Trim(_) =>
        OneTrimMore(steps, el, n - 1, names, above, before, ds);
        at := before;
        assert ds + [] == ds;
    }
  }

  // ---- which names a step takes ------------------------------------------

  /** A step takes its own name; and with a name exactly those that differ from it only in
      what the step leaves open. */
  lemma StepTakes(s: Step, q: QName, other: QName)
    ensures Takes(s, QName(s.uri, s.local))
    ensures Takes(s, q) ==>
              (Takes(s, other) <==> (other.uri == q.uri || s.anyUri) && (other.local == q.local || s.anyLocal))
  {
  }
}
