/** Each derivative of a carried pattern against the quotient of its language by
    the event, at any depth of open elements. */
module RelaxQuotient {
  import opened RelaxSyntax
  import opened RelaxLanguage
  import opened RelaxDerivative
  import opened RelaxSchema
  import opened RelaxText
  import opened RelaxAttribute
  import opened RelaxStack

  ghost function IsSchema(g: Grammar): Pattern -> bool { p => Schema(g, p) }
  ghost function IsSound(g: Grammar): Pattern -> bool { p => Sound(g, p) }
  ghost function IsExact(g: Grammar): Pattern -> bool { p => Exact(g, p) }

  lemma {:induction false} StackedMono(f: Pattern -> bool, f': Pattern -> bool, p: Pattern, k: nat)
    requires Stacked(f, p, k) && forall q {:trigger f(q)} :: f(q) ==> f'(q)
    ensures Stacked(f', p, k)
    decreases p
  {
    if k > 0 {
      match p
      case Choice(l, r) => StackedMono(f, f', l, k); StackedMono(f, f', r, k);
      case After(l, r) => StackedMono(f, f', r, k - 1);
      case _ =>
    }
  }

  /** Open tag: the exact quotient, for every reading of the element's content. */
  lemma {:induction false} OpenQuotient(
      g: Grammar, p: Pattern, cx: Context, el: Item, m: seq<Item>, rest: seq<Frame>)
    requires SchemaGrammar(g) && Stacked(IsSchema(g), p, |rest|) && el.Elem?
    ensures Accepts(g, p, [Frame(cx, [], [el] + m)] + rest) <==>
      exists k :: ReadAs(el.kids, k) &&
        Accepts(g, OpenDeriv(g, p, el.tag), [Frame(el.cx, el.attrs, k), Frame(cx, [], m)] + rest)
    decreases p
  {
    if rest == [] {
      OpenExact(g, cx, p, el, m);
      assert [Frame(cx, [], [el] + m)] + rest == [Frame(cx, [], [el] + m)];
      forall k | ReadAs(el.kids, k)
        ensures [Frame(el.cx, el.attrs, k), Frame(cx, [], m)] + rest
             == [Frame(el.cx, el.attrs, k), Frame(cx, [], m)]
      {
      }
    } else {
      match p
      case NotAllowed =>
      case Choice(l, r) =>
        OpenQuotient(g, l, cx, el, m, rest);
        OpenQuotient(g, r, cx, el, m, rest);
        forall k {
          AcceptsChoice(g, OpenDeriv(g, l, el.tag), OpenDeriv(g, r, el.tag),
            [Frame(el.cx, el.attrs, k), Frame(cx, [], m)] + rest);
        }
      case After(l, r) =>
        var d := OpenDeriv(g, l, el.tag);
        OpenExact(g, cx, l, el, m);
        OpenLevel(g, l, el.tag);
        assert ([Frame(cx, [], [el] + m)] + rest)[1..] == rest;
        forall k
          ensures Accepts(g, OpenDeriv(g, p, el.tag), [Frame(el.cx, el.attrs, k), Frame(cx, [], m)] + rest)
              <==> Accepts(g, d, [Frame(el.cx, el.attrs, k), Frame(cx, [], m)]) && Accepts(g, r, rest)
        {
          InsideAccepts(g, d, r, Frame(el.cx, el.attrs, k), Frame(cx, [], m), rest);
        }
    }
  }

  /** A wrapped continuation inside an enclosing level. */
  lemma {:induction false} InsideAccepts(
      g: Grammar, d: Pattern, r: Pattern, f0: Frame, f1: Frame, rest: seq<Frame>)
    requires rest != [] && Stacked(p => true, d, 1)
    ensures Accepts(g, ApplyAfter(Inside(r), d), [f0, f1] + rest)
        <==> Accepts(g, d, [f0, f1]) && Accepts(g, r, rest)
    decreases d
  {
    match d
    case NotAllowed =>
    case Choice(x, y) =>
      InsideAccepts(g, x, r, f0, f1, rest);
      InsideAccepts(g, y, r, f0, f1, rest);
      AcceptsChoice(g, ApplyAfter(Inside(r), x), ApplyAfter(Inside(r), y), [f0, f1] + rest);
    case After(x, y) =>
      assert [f0, f1] + rest == [f0] + ([f1] + rest);
      AcceptsAfter(g, x, MkAfter(y, r), f0, [f1] + rest);
      AcceptsAfter(g, y, r, f1, rest);
      assert [f0, f1][1..] == [f1];
  }

  /** Text: the exact quotient. */
  lemma {:induction false} TextQuotient(
      g: Grammar, p: Pattern, cx: Context, s: string, m: seq<Item>, rest: seq<Frame>)
    requires SchemaGrammar(g) && Stacked(IsSchema(g), p, |rest|)
    ensures Accepts(g, TextDeriv(g, p, s, cx), [Frame(cx, [], m)] + rest)
        <==> Accepts(g, p, [Frame(cx, [], [Str(s)] + m)] + rest)
    decreases p
  {
    if rest == [] {
      TextExact(g, cx, p, s, m);
    } else {
      var (fs, fs') := ([Frame(cx, [], m)] + rest, [Frame(cx, [], [Str(s)] + m)] + rest);
      match p
      case NotAllowed =>
      case Choice(l, r) =>
        TextQuotient(g, l, cx, s, m, rest);
        TextQuotient(g, r, cx, s, m, rest);
        AcceptsChoice(g, TextDeriv(g, l, s, cx), TextDeriv(g, r, s, cx), fs);
      case After(l, r) =>
        TextExact(g, cx, l, s, m);
        AcceptsAfter(g, TextDeriv(g, l, s, cx), r, fs[0], rest);
        assert fs'[1..] == rest;
    }
  }

  lemma {:induction false} TextKeepsLevel(g: Grammar, f: Pattern -> bool, p: Pattern, k: nat, s: string, cx: Context)
    requires Hereditary(g, f) && Stacked(f, p, k)
    ensures Stacked(f, TextDeriv(g, p, s, cx), k)
    decreases p
  {
    if k == 0 {
      KeepsText(g, f, p, s, cx);
    } else {
      match p
      case Choice(l, r) =>
        TextKeepsLevel(g, f, l, k, s, cx);
        TextKeepsLevel(g, f, r, k, s, cx);
        StackedChoice(f, TextDeriv(g, l, s, cx), TextDeriv(g, r, s, cx), k);
      case After(l, r) => KeepsText(g, f, l, s, cx);
      case _ =>
    }
  }

  lemma {:induction false} AttKeepsLevel(g: Grammar, f: Pattern -> bool, p: Pattern, k: nat, x: Attr, cx: Context)
    requires Hereditary(g, f) && Stacked(f, p, k)
    ensures Stacked(f, AttDeriv(g, p, x, cx), k)
    decreases p
  {
    if k == 0 {
      KeepsAtt(g, f, p, x, cx);
    } else {
      match p
      case Choice(l, r) =>
        AttKeepsLevel(g, f, l, k, x, cx);
        AttKeepsLevel(g, f, r, k, x, cx);
        StackedChoice(f, AttDeriv(g, l, x, cx), AttDeriv(g, r, x, cx), k);
      case After(l, r) => KeepsAtt(g, f, l, x, cx);
      case _ =>
    }
  }

  /** Attribute: nothing is taken that should not be. */
  lemma {:induction false} AttQuotientSound(
      g: Grammar, p: Pattern, cx: Context, x: Attr, a: seq<Attr>, m: seq<Item>, rest: seq<Frame>)
    requires SoundGrammar(g) && Stacked(IsSound(g), p, |rest|)
    requires Accepts(g, AttDeriv(g, p, x, cx), [Frame(cx, a, m)] + rest)
    ensures Accepts(g, p, [Frame(cx, [x] + a, m)] + rest)
    decreases p
  {
    var (fs, fs') := ([Frame(cx, a, m)] + rest, [Frame(cx, [x] + a, m)] + rest);
    if rest == [] {
      AttSound(g, cx, p, x, a, m);
    } else {
      match p
      case NotAllowed =>
      case Choice(l, r) =>
        AcceptsChoice(g, AttDeriv(g, l, x, cx), AttDeriv(g, r, x, cx), fs);
        if Accepts(g, AttDeriv(g, l, x, cx), fs) { AttQuotientSound(g, l, cx, x, a, m, rest); }
        else { AttQuotientSound(g, r, cx, x, a, m, rest); }
      case After(l, r) =>
        AcceptsAfter(g, AttDeriv(g, l, x, cx), r, fs[0], rest);
        AttSound(g, cx, l, x, a, m);
        assert fs'[1..] == rest;
    }
  }

  /** Attribute: nothing is missed. */
  lemma {:induction false} AttQuotientComplete(
      g: Grammar, p: Pattern, cx: Context, x: Attr, a: seq<Attr>, m: seq<Item>, rest: seq<Frame>)
    requires ExactGrammar(g) && Stacked(IsExact(g), p, |rest|)
    requires Accepts(g, p, [Frame(cx, [x] + a, m)] + rest)
    ensures Accepts(g, AttDeriv(g, p, x, cx), [Frame(cx, a, m)] + rest)
    decreases p
  {
    var (fs, fs') := ([Frame(cx, a, m)] + rest, [Frame(cx, [x] + a, m)] + rest);
    if rest == [] {
      AttComplete(g, cx, p, x, a, m);
    } else {
      match p
      case NotAllowed =>
      case Choice(l, r) =>
        AcceptsChoice(g, AttDeriv(g, l, x, cx), AttDeriv(g, r, x, cx), fs);
        if Accepts(g, l, fs') { AttQuotientComplete(g, l, cx, x, a, m, rest); }
        else { AttQuotientComplete(g, r, cx, x, a, m, rest); }
      case After(l, r) =>
        assert fs'[1..] == rest;
        AttComplete(g, cx, l, x, a, m);
        AcceptsAfter(g, AttDeriv(g, l, x, cx), r, fs[0], rest);
    }
  }

  /** Close of the start tag: exactly what needs no further attribute. */
  lemma {:induction false} CloseQuotient(
      g: Grammar, f: Pattern -> bool, p: Pattern, cx: Context, m: seq<Item>, rest: seq<Frame>)
    requires Hereditary(g, f) && Stacked(f, p, |rest|)
    ensures Accepts(g, CloseDeriv(g, p).0, [Frame(cx, [], m)] + rest)
        <==> Accepts(g, p, [Frame(cx, [], m)] + rest)
    ensures Stacked(f, CloseDeriv(g, p).0, |rest|)
    decreases p
  {
    var fs := [Frame(cx, [], m)] + rest;
    if rest == [] {
      CloseExact(g, cx, p, m);
      KeepsClose(g, f, p);
    } else {
      match p
      case NotAllowed =>
      case Choice(l, r) =>
        CloseQuotient(g, f, l, cx, m, rest);
        CloseQuotient(g, f, r, cx, m, rest);
        AcceptsChoice(g, CloseDeriv(g, l).0, CloseDeriv(g, r).0, fs);
        StackedChoice(f, CloseDeriv(g, l).0, CloseDeriv(g, r).0, |rest|);
      case After(l, r) =>
        CloseExact(g, cx, l, m);
        KeepsClose(g, f, l);
        AcceptsAfter(g, CloseDeriv(g, l).0, r, fs[0], rest);
        assert fs[1..] == rest;
    }
  }

  /** End tag: exactly what needs no further content, one level less. */
  lemma {:induction false} EndQuotient(g: Grammar, f: Pattern -> bool, p: Pattern, cx: Context, rest: seq<Frame>)
    requires rest != [] && SchemaGrammar(g) && Stacked(f, p, |rest|)
    requires forall q {:trigger f(q)} :: f(q) ==> Schema(g, q)
    requires f(NotAllowed) && forall l, r {:trigger f(Choice(l, r))} :: f(Choice(l, r)) <==> f(l) && f(r)
    ensures Accepts(g, EndDeriv(g, p), rest) <==> Accepts(g, p, [Frame(cx, [], [])] + rest)
    ensures Stacked(f, EndDeriv(g, p), |rest| - 1)
    decreases p
  {
    var fs := [Frame(cx, [], [])] + rest;
    match p
    case NotAllowed =>
    case Choice(l, r) =>
      EndQuotient(g, f, l, cx, rest);
      EndQuotient(g, f, r, cx, rest);
      AcceptsChoice(g, EndDeriv(g, l), EndDeriv(g, r), rest);
      if |rest| > 1 { StackedChoice(f, EndDeriv(g, l), EndDeriv(g, r), |rest| - 1); }
      else { ChoiceKeeps(f, EndDeriv(g, l), EndDeriv(g, r)); }
    case After(l, r) =>
      NullableExact(g, cx, l);
      assert fs[1..] == rest;
  }
}
