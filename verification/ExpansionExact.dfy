/** Expanding a subset, and loading both, succeed exactly where what is written can be read
    and afforded, and give what it stands for. */
module ExpansionExact {
  import opened Basics
  import opened SectionText
  import opened ExpansionRules
  import opened ExpansionText
  import opened ExpansionMeaning

  // ---- every token is the head of a reading ------------------------------

  /** `r` reads what is written from `i`, of which `rest` follows `end`. */
  ghost predicate Heads(r: Reading, s: string, i: nat, end: nat, rest: Reading, declLevel: bool) {
    && !r.End? && r.rest == rest && i <= end <= |s| && Written(rest) == s[end..]
    && Front(r) == s[i..end] && SoundFront(r, s[end..], declLevel)
  }

  lemma HeadsWell(r: Reading, s: string, i: nat, end: nat, rest: Reading, declLevel: bool)
    requires Heads(r, s, i, end, rest, declLevel) && Sound(rest, declLevel)
    ensures Sound(r, declLevel) && Written(r) == s[i..]
  {
    assert s[i..] == s[i..end] + s[end..];
  }

  lemma ConstructOf(s: string, i: nat, end: nat)
    requires i < |s| && end == ConstructEnd(s, i)
    ensures if end > i then Construct(s[i..end], s[end..]) else !Begins(s[i..])
  {
    ConstructShift(s, i);
    ConstructIs(s[i..]);
    assert s[i..][..end - i] == s[i..end] && s[i..][end - i..] == s[end..];
  }

  lemma CopiedReading(params: map<string, Param>, s: string, i: nat, declLevel: bool, end: nat, rest: Reading)
    returns (r: Reading)
    requires i < |s| && TokenAt(params, s, i, declLevel).Copied? && TokenAt(params, s, i, declLevel).end == end
    requires Written(rest) == s[end..]
    ensures Heads(r, s, i, end, rest, declLevel) && Resolves(params, r)
    ensures r.Letter? || r.Whole? || r.Percent? || r.Unknown?
  {
    ConstructOf(s, i, ConstructEnd(s, i));
    if ConstructEnd(s, i) > i {
      r := Whole(s[i..end], rest);
      PercentBehind(s[i..end]);
    } else if s[i] != '%' {
      r := LetterReading(s, i, declLevel, rest);
    } else {
      r := PercentReading(params, s, i, declLevel, end, rest);
    }
  }

  lemma LetterReading(s: string, i: nat, declLevel: bool, rest: Reading) returns (r: Reading)
    requires i < |s| && s[i] != '%' && !Begins(s[i..]) && Written(rest) == s[i + 1..]
    ensures Heads(r, s, i, i + 1, rest, declLevel) && r.Letter?
  {
    r := Letter(s[i], rest);
    assert s[i..] == [s[i]] + s[i + 1..];
  }

  lemma PercentToken(params: map<string, Param>, s: string, i: nat, declLevel: bool)
    requires i < |s| && s[i] == '%' && ConstructEnd(s, i) == i
    ensures var t := TokenAt(params, s, i, declLevel);
            match Index(s[i..], ";")
            case Nowhere => t == Copied("%", i + 1)
            case At(j) =>
              && 1 <= j
              && var name := s[i + 1..i + j];
                 t == if name !in params || !IsEntityName(name) then Copied(s[i..i + j + 1], i + j + 1)
                      else Reference(name, i + j + 1)
  {
    assert s[i..][0] == '%';
  }

  lemma PercentReading(params: map<string, Param>, s: string, i: nat, declLevel: bool, end: nat, rest: Reading)
    returns (r: Reading)
    requires i < |s| && s[i] == '%' && ConstructEnd(s, i) == i
    requires TokenAt(params, s, i, declLevel).Copied? && TokenAt(params, s, i, declLevel).end == end
    requires Written(rest) == s[end..]
    ensures Heads(r, s, i, end, rest, declLevel) && Resolves(params, r) && (r.Percent? || r.Unknown?)
  {
    IndexIs(s[i..], ";");
    PercentToken(params, s, i, declLevel);
    match Index(s[i..], ";")
    case Nowhere =>
      LastPercent(s, i);
      r := Percent(rest);
    case At(j) =>
      r := UnknownReading(params, s, i, declLevel, j, rest);
  }

  lemma UnknownReading(params: map<string, Param>, s: string, i: nat, declLevel: bool, j: nat, rest: Reading)
    returns (r: Reading)
    requires i < |s| && s[i] == '%' && FirstAt(s[i..], ";", j) && i + j < |s| && Written(rest) == s[i + j + 1..]
    requires 1 <= j && (s[i + 1..i + j] !in params || !IsEntityName(s[i + 1..i + j]))
    ensures Heads(r, s, i, i + j + 1, rest, declLevel) && Resolves(params, r) && r.Unknown?
  {
    BodyOf(s, i, j);
    NameIs(s[i + 1..i + j]);
    r := Unknown(s[i + 1..i + j], rest);
  }

  lemma LastPercent(s: string, i: nat)
    requires i < |s| && s[i] == '%' && Absent(s[i..], ";")
    ensures ';' !in s[i + 1..] && s[i..i + 1] == "%"
  {
    NoQuote(';', s[i..]);
    assert s[i..] == "%" + s[i + 1..];
  }

  lemma BodyOf(s: string, i: nat, j: nat)
    requires i < |s| && s[i] == '%' && FirstAt(s[i..], ";", j)
    ensures 1 <= j && i + j < |s| && ';' !in s[i + 1..i + j] && s[i..i + j + 1] == "%" + s[i + 1..i + j] + ";"
  {
    var t := s[i..];
    QuoteAt(';', t, j);
    assert t[0] == '%';
    var body := s[i + 1..i + j];
    forall k: nat | k < |body| ensures body[k] != ';' {
      QuoteAt(';', t, k + 1);
      assert !Occurs(t, ";", k + 1);
    }
  }

  /** The head that a token other than a copied one came from. */
  ghost predicate ComesFrom(t: Token, s: string, i: nat, declLevel: bool) {
    match t
    case Copied(_, _) => true
    case Within(inner, end) =>
      && declLevel && i < end <= |s| && s[i..end] == "<!" + inner + [s[end - 1]]
      && Construct(s[i..end], s[end..]) && Mentioning(s[i..end])
    case Reference(name, end) => i <= end <= |s| && s[i..end] == "%" + name + ";" && IsName(name)
  }

  /** The name of a reference is a name, and declared. */
  lemma ReferenceOf(params: map<string, Param>, s: string, i: nat, declLevel: bool, name: string, end: nat)
    requires i < |s| && TokenAt(params, s, i, declLevel) == Reference(name, end)
    ensures ComesFrom(Reference(name, end), s, i, declLevel)
  {
    IndexIs(s[i..], ";");
    PercentToken(params, s, i, declLevel);
    BodyOf(s, i, Index(s[i..], ";").place);
    NameIs(name);
  }

  lemma WithinOfToken(params: map<string, Param>, s: string, i: nat, declLevel: bool, inner: string, end: nat)
    requires i < |s| && TokenAt(params, s, i, declLevel) == Within(inner, end)
    ensures ComesFrom(Within(inner, end), s, i, declLevel)
  {
    WithinIs(params, s, i, declLevel, inner, end);
    ConstructOf(s, i, end);
    WithinText(s[i..end], inner, s[end - 1]);
  }

  lemma WithinIs(params: map<string, Param>, s: string, i: nat, declLevel: bool, inner: string, end: nat)
    requires i < |s| && TokenAt(params, s, i, declLevel) == Within(inner, end)
    ensures i < end == ConstructEnd(s, i) && declLevel
    ensures HasPrefix(s[i..end], "<!") && !HasPrefix(s[i..end], "<!--") && '%' in s[i..end][2..]
    ensures inner == s[i..end][2..end - i - 1]
  {
  }

  lemma WithinText(text: string, inner: string, last: char)
    requires HasPrefix(text, "<!") && !HasPrefix(text, "<!--") && '%' in text[2..]
    requires inner == text[2..|text| - 1] && last == text[|text| - 1]
    ensures Mentioning(text) && text == "<!" + inner + [last]
  {
    PercentBehind(text);
    EndsOf(text);
  }

  lemma EndsOf(text: string)
    requires "<!" <= text && |text| >= 3
    ensures text == "<!" + text[2..|text| - 1] + [text[|text| - 1]]
  {
    assert text[..2] == "<!";
  }

  lemma TokenComesFrom(params: map<string, Param>, s: string, i: nat, declLevel: bool, t: Token)
    requires i < |s| && t == TokenAt(params, s, i, declLevel)
    ensures ComesFrom(t, s, i, declLevel)
  {
    if t.Within? {
      WithinOfToken(params, s, i, declLevel, t.inner, t.end);
    } else if t.Reference? {
      ReferenceOf(params, s, i, declLevel, t.name, t.end);
    }
  }

  // ---- what is expanded was read -----------------------------------------

  /** A text without a `%` reads as itself. */
  lemma {:induction false} VerbatimReading(s: string, i: nat, declLevel: bool) returns (r: Reading)
    requires i <= |s| && '%' !in s
    ensures Written(r) == s[i..] && Sound(r, declLevel) && Verbatim(r)
    decreases |s| - i
  {
    r := End;
    if i < |s| {
      var t := TokenAt(map[], s, i, declLevel);
      PlainToken(s, i, declLevel);
      var rest := VerbatimReading(s, t.end, declLevel);
      r := CopiedReading(map[], s, i, declLevel, t.end, rest);
      HeadsWell(r, s, i, t.end, rest, declLevel);
      NoneOfThese(r, s, i, t.end);
    }
  }

  lemma NoneOfThese(r: Reading, s: string, i: nat, end: nat)
    requires r.Letter? || r.Whole? || r.Percent? || r.Unknown?
    requires i <= end <= |s| && '%' !in s && Front(r) == s[i..end]
    ensures r.Letter? || r.Whole?
  {
    assert forall c | c in Front(r) :: c in s;
    if r.Percent? || r.Unknown? { MentionsFirst(r); }
  }

  lemma PlainToken(s: string, i: nat, declLevel: bool)
    requires i < |s| && '%' !in s
    ensures TokenAt(map[], s, i, declLevel).Copied?
  {
    var end := ConstructEnd(s, i);
    if end > i && |s[i..end]| >= 2 {
      assert forall c | c in s[i..end][2..] :: c in s;
    }
  }

  lemma {:induction false} ReadingOf(w: World, a: Account, active: set<string>, s: string, depth: nat, declLevel: bool)
    returns (r: Reading)
    requires Expanded(w, a, active, s, depth, declLevel).1.Ok?
    ensures Written(r) == s && Sound(r, declLevel)
    ensures Reads(w, SceneOf(a), r) == Some(SceneOf(Expanded(w, a, active, s, depth, declLevel).0))
    decreases MAX_PARAMETER_DEPTH + 1 - depth, 2, |s| + 1
  {
    assert s[0..] == s;
    if '%' in s {
      r := ReadingFrom(w, a, active, s, 0, depth, declLevel);
    } else {
      r := VerbatimReading(s, 0, declLevel);
      VerbatimReads(w, SceneOf(a), r);
    }
  }

  lemma {:induction false} ReadingFrom(w: World, a: Account, active: set<string>, s: string, i: nat, depth: nat,
                                       declLevel: bool)
    returns (r: Reading)
    requires i <= |s| && depth <= MAX_PARAMETER_DEPTH && ExpandedFrom(w, a, active, s, i, depth, declLevel).1.Ok?
    ensures Written(r) == s[i..] && Sound(r, declLevel)
    ensures Reads(w, SceneOf(a), r) == Some(SceneOf(ExpandedFrom(w, a, active, s, i, depth, declLevel).0))
    decreases MAX_PARAMETER_DEPTH + 1 - depth, 2, |s| - i
  {
    r := End;
    if i < |s| {
      var t := TokenAt(a.params, s, i, declLevel);
      BothSucceed(w, a, active, s, i, depth, declLevel);
      var (b, piece) := Piece(w, a, active, t, depth, declLevel);
      var rest := ReadingFrom(w, b, active, s, t.end, depth, declLevel);
      if t.Copied? {
        r := CopiedReading(a.params, s, i, declLevel, t.end, rest);
        CopiedReads(w, SceneOf(a), r);
      } else {
        TokenComesFrom(a.params, s, i, declLevel, t);
        r := HeadReading(w, a, active, s, i, t, rest, depth, declLevel);
      }
      HeadsWell(r, s, i, t.end, rest, declLevel);
    }
  }

  lemma {:induction false} HeadReading(w: World, a: Account, active: set<string>, s: string, i: nat, t: Token,
                                       rest: Reading, depth: nat, declLevel: bool)
    returns (r: Reading)
    requires ComesFrom(t, s, i, declLevel) && !t.Copied? && depth <= MAX_PARAMETER_DEPTH
    requires (t.Reference? ==> t.name in a.params) && Piece(w, a, active, t, depth, declLevel).1.Ok?
    requires Written(rest) == s[t.end..]
    ensures Heads(r, s, i, t.end, rest, declLevel)
    ensures ReadsHead(w, SceneOf(a), r) == Some(SceneOf(Piece(w, a, active, t, depth, declLevel).0))
    decreases MAX_PARAMETER_DEPTH + 1 - depth, 1
  {
    if t.Within? {
      r := WithinReading(w, a, active, t, s[t.end - 1], rest, depth, declLevel);
      WithinHeads(r, s, i, t.end, rest, declLevel);
    } else {
      r := ReferenceReading(w, a, active, t.name, rest, depth, declLevel);
      ReferenceHeads(r, s, i, t.end, rest, declLevel, t.name);
    }
  }

  lemma {:induction false} WithinReading(w: World, a: Account, active: set<string>, t: Token, last: char,
                                         rest: Reading, depth: nat, declLevel: bool)
    returns (r: Reading)
    requires t.Within? && depth <= MAX_PARAMETER_DEPTH && Piece(w, a, active, t, depth, declLevel).1.Ok?
    ensures r.Declaration? && r.last == last && r.rest == rest
    ensures Written(r.inner) == t.inner && Sound(r.inner, declLevel)
    ensures ReadsHead(w, SceneOf(a), r) == Some(SceneOf(Piece(w, a, active, t, depth, declLevel).0))
    decreases MAX_PARAMETER_DEPTH + 1 - depth, 0
  {
    var inner := ReadingOf(w, a, active, t.inner, depth + 1, declLevel);
    r := Declaration(inner, last, rest);
  }

  lemma CopiedReads(w: World, at: Scene, r: Reading)
    requires Resolves(at.params, r) && (r.Letter? || r.Whole? || r.Percent? || r.Unknown?)
    ensures ReadsHead(w, at, r) == Some(at)
  {
  }

  lemma ReferenceHeads(r: Reading, s: string, i: nat, end: nat, rest: Reading, declLevel: bool, name: string)
    requires (r.Replaced? || r.Brought?) && r.rest == rest && r.name == name && Sound(r.text, declLevel)
    requires i <= end <= |s| && s[i..end] == "%" + name + ";" && Written(rest) == s[end..]
    ensures Heads(r, s, i, end, rest, declLevel)
  {
  }

  lemma WithinHeads(r: Reading, s: string, i: nat, end: nat, rest: Reading, declLevel: bool)
    requires r.Declaration? && r.rest == rest && i <= end <= |s| && s[i..end] == Front(r) && Written(rest) == s[end..]
    requires declLevel && Construct(s[i..end], s[end..]) && Mentioning(s[i..end]) && Sound(r.inner, declLevel)
    ensures Heads(r, s, i, end, rest, declLevel)
  {
  }

  lemma {:induction false} ReferenceReading(w: World, a: Account, active: set<string>, name: string, rest: Reading,
                                            depth: nat, declLevel: bool)
    returns (r: Reading)
    requires name in a.params && depth <= MAX_PARAMETER_DEPTH
    requires Substituted(w, a, active, name, depth, declLevel).1.Ok?
    ensures (r.Replaced? || r.Brought?) && r.rest == rest && r.name == name && Sound(r.text, declLevel)
    ensures IsName(name) ==>
              ReadsHead(w, SceneOf(a), r) == Some(SceneOf(Substituted(w, a, active, name, depth, declLevel).0))
    decreases MAX_PARAMETER_DEPTH + 1 - depth, 0
  {
    var (b, got) := Looked(w, a, a.params[name]);
    var (d, _) := Expanded(w, b, active + {name}, got.text, depth + 1, declLevel);
    var text := ReadingOf(w, b, active + {name}, got.text, depth + 1, declLevel);
    assert SceneOf(Substituted(w, a, active, name, depth, declLevel).0) == SceneOf(d);
    r := LookedReading(w, a, name, b, got.text, text, rest, SceneOf(d));
  }

  /** The reference to what was looked up. */
  lemma LookedReading(w: World, a: Account, name: string, b: Account, inner: string, text: Reading, rest: Reading,
                   end: Scene)
    returns (r: Reading)
    requires name in a.params && Looked(w, a, a.params[name]) == (b, Ok(inner)) && Written(text) == inner
    requires Reads(w, SceneOf(b), text) == Some(end)
    ensures (r.Replaced? || r.Brought?) && r.rest == rest && r.name == name && r.text == text
    ensures IsName(name) ==> ReadsHead(w, SceneOf(a), r) == Some(end)
  {
    match a.params[name]
    case Internal(_) =>
      r := Replaced(name, text, rest);
    case External(systemId, publicId, base) =>
      var data := LookedFound(w, a, systemId, publicId, base);
      r := BroughtReading(w, SceneOf(a), name, systemId, publicId, base, data, text, rest, end);
  }

  lemma BroughtReading(w: World, at: Scene, name: string, systemId: string, publicId: string, base: string,
                       data: string, text: Reading, rest: Reading, end: Scene)
    returns (r: Reading)
    requires name in at.params && at.params[name] == External(systemId, publicId, base)
    requires Found(w, at, systemId, publicId, base, data, Written(text))
    requires Reads(w, Then(w, at, systemId, publicId, base, Written(text)), text) == Some(end)
    ensures r.Brought? && r.rest == rest && r.name == name && r.text == text
    ensures IsName(name) ==> ReadsHead(w, at, r) == Some(end)
  {
    r := Brought(name, data, text, rest);
  }

  /** What was looked up elsewhere was found there. */
  lemma LookedFound(w: World, a: Account, systemId: string, publicId: string, base: string) returns (data: string)
    requires Looked(w, a, External(systemId, publicId, base)).1.Ok?
    ensures var (b, got) := Looked(w, a, External(systemId, publicId, base));
            Found(w, SceneOf(a), systemId, publicId, base, data, got.text)
            && SceneOf(b) == Then(w, SceneOf(a), systemId, publicId, base, got.text)
  {
    var resource := w.resolve(a.docs + 1, systemId, publicId, base);
    data := resource.data;
    var (b, got) := Looked(w, a, External(systemId, publicId, base));
    StripIs(data, got.text);
    var found := if resource.base == "" then systemId else resource.base;
    CollectedFirst(w, Fetch(w, a, systemId, publicId, base).0, got.text, found);
  }

  // ---- one subset --------------------------------------------------------

  /** A reading of `s` that is well-founded and within the limits. */
  ghost predicate ReadsAs(w: World, a: Account, active: set<string>, s: string, depth: nat, declLevel: bool, r: Reading)
  {
    && Written(r) == s && Sound(r, declLevel) && Reads(w, SceneOf(a), r).Some?
    && Distinct(active, r) && Affordable(w, a, CostOf(r), depth)
  }

  /** Expanding gives a text exactly if what is written stands for it and the limits allow it. */
  lemma ExpandedExact(w: World, a: Account, active: set<string>, s: string, depth: nat, declLevel: bool, text: string)
    requires Frugal(w, a) && Solvent(w, a)
    ensures Expanded(w, a, active, s, depth, declLevel).1 == Ok(text)
       <==> exists r :: ReadsAs(w, a, active, s, depth, declLevel, r) && Meaning(r) == text
  {
    if Expanded(w, a, active, s, depth, declLevel).1 == Ok(text) {
      var r := ReadingOf(w, a, active, s, depth, declLevel);
      ExpandedComes(w, a, active, r, s, depth, declLevel);
      assert ReadsAs(w, a, active, s, depth, declLevel, r) && Meaning(r) == text;
    }
    forall r | ReadsAs(w, a, active, s, depth, declLevel, r) && Meaning(r) == text
      ensures Expanded(w, a, active, s, depth, declLevel).1 == Ok(text)
    {
      ExpandedComes(w, a, active, r, s, depth, declLevel);
    }
  }

  // ---- both subsets ------------------------------------------------------

  /** What is merged: what the internal subset stands for, a newline, and what the external
      one does, its sections resolved.  What the internal one declares is in scope first;
      then what the external one declares, where nothing declared that already. */
  ghost predicate Merges(w: World, subset: string, systemId: string, publicId: string, base: string, inner: Reading,
                         data: string, outer: Reading, text: string)
  {
    var at := Scene(0, FirstWins(map[], w.declares(subset, base)));
    && Written(inner) == subset && Sound(inner, false) && Distinct({}, inner)
    && Reads(w, at, inner).Some?
    && var mid := Reads(w, at, inner).value;
    && Found(w, mid, systemId, publicId, base, data, Written(outer))
    && Sound(outer, true) && Distinct({}, outer)
    && Reads(w, Then(w, mid, systemId, publicId, base, Written(outer)), outer).Some?
    && Affordable(w, NOTHING_YET, Plus(CostOf(inner), Plus(Fetching(data), CostOf(outer))), 0)
    && Resolved(Meaning(outer), 0).Ok?
    && text == Meaning(inner) + "\n" + Resolved(Meaning(outer), 0).text
  }

  /** Loading gives a text exactly if it is what both subsets come to and the limits allow it. */
  lemma LoadedExact(w: World, subset: string, systemId: string, publicId: string, base: string, text: string)
    ensures Loaded(w, subset, systemId, publicId, base).1 == Ok(text)
       <==> exists inner, data, outer :: Merges(w, subset, systemId, publicId, base, inner, data, outer, text)
  {
    if Loaded(w, subset, systemId, publicId, base).1 == Ok(text) {
      var inner, data, outer := LoadedReading(w, subset, systemId, publicId, base, text);
    }
    forall inner, data, outer | Merges(w, subset, systemId, publicId, base, inner, data, outer, text)
      ensures Loaded(w, subset, systemId, publicId, base).1 == Ok(text)
    {
      MergesLoads(w, subset, systemId, publicId, base, inner, data, outer, text);
    }
  }

  /** What is in scope as the internal subset is read. */
  lemma Starts(w: World, subset: string, base: string, c: Cost)
    ensures var a := Collected(w, NOTHING_YET, subset, base);
            && SceneOf(a) == Scene(0, FirstWins(map[], w.declares(subset, base))) && Frugal(w, a) && Solvent(w, a)
            && (Affordable(w, NOTHING_YET, c, 0) <==> Affordable(w, a, c, 0))
  {
    CollectedFirst(w, NOTHING_YET, subset, base);
  }

  lemma MergesLoads(w: World, subset: string, systemId: string, publicId: string, base: string, inner: Reading,
                    data: string, outer: Reading, text: string)
    requires Merges(w, subset, systemId, publicId, base, inner, data, outer, text)
    ensures Loaded(w, subset, systemId, publicId, base).1 == Ok(text)
  {
    var a := Collected(w, NOTHING_YET, subset, base);
    var left := Plus(Fetching(data), CostOf(outer));
    Starts(w, subset, base, Plus(CostOf(inner), left));
    var b := InnerExpands(w, a, inner, left);
    OuterLoads(w, b, systemId, publicId, base, data, outer);
    LoadsBoth(w, subset, systemId, publicId, base, b, Meaning(inner), Meaning(outer));
  }

  lemma LoadsBoth(w: World, subset: string, systemId: string, publicId: string, base: string, b: Account,
                  inner: string, outer: string)
    requires Expanded(w, Collected(w, NOTHING_YET, subset, base), {}, subset, 0, false) == (b, Ok(inner))
    requires var (c, got) := Fetch(w, b, systemId, publicId, base);
             got.Got? && Expanded(w, Collected(w, c, got.text, got.base), {}, got.text, 0, true).1 == Ok(outer)
    ensures Loaded(w, subset, systemId, publicId, base).1
         == var r := Resolved(outer, 0); if r.Err? then r else Ok(inner + "\n" + r.text)
  {
  }

  lemma InnerExpands(w: World, a: Account, inner: Reading, left: Cost) returns (b: Account)
    requires Frugal(w, a) && Solvent(w, a) && Sound(inner, false) && Distinct({}, inner)
    requires Reads(w, SceneOf(a), inner).Some? && Affordable(w, a, Plus(CostOf(inner), left), 0)
    ensures Expanded(w, a, {}, Written(inner), 0, false) == (b, Ok(Meaning(inner)))
    ensures Frugal(w, b) && Solvent(w, b) && Affordable(w, b, left, 0)
    ensures Reads(w, SceneOf(a), inner) == Some(SceneOf(b))
  {
    var mid := Reads(w, SceneOf(a), inner).value;
    b := Paying(w, a, CostOf(inner), mid.params);
    Adds(w, a, CostOf(inner), left, 0, mid.params);
    ExpandedComes(w, a, {}, inner, Written(inner), 0, false);
    ReadsDocs(w, SceneOf(a), inner);
  }

  /** The external subset, behind the internal one. */
  lemma OuterLoads(w: World, b: Account, systemId: string, publicId: string, base: string, data: string,
                   outer: Reading)
    requires Frugal(w, b) && Solvent(w, b)
    requires Found(w, SceneOf(b), systemId, publicId, base, data, Written(outer)) && Sound(outer, true)
    requires Distinct({}, outer) && Reads(w, Then(w, SceneOf(b), systemId, publicId, base, Written(outer)), outer).Some?
    requires Affordable(w, b, Plus(Fetching(data), CostOf(outer)), 0)
    ensures var (c, got) := Fetch(w, b, systemId, publicId, base);
            got.Got? && Expanded(w, Collected(w, c, got.text, got.base), {}, got.text, 0, true).1 == Ok(Meaning(outer))
  {
    var at := Then(w, SceneOf(b), systemId, publicId, base, Written(outer));
    Adds(w, b, Fetching(data), CostOf(outer), 0, at.params);
    LookedUp(w, b, systemId, publicId, base, data, Written(outer));
    OuterExpands(w, Paying(w, b, Fetching(data), at.params), outer);
  }

  lemma OuterExpands(w: World, d: Account, outer: Reading)
    requires Frugal(w, d) && Solvent(w, d) && Sound(outer, true) && Distinct({}, outer)
    requires Reads(w, SceneOf(d), outer).Some? && Affordable(w, d, CostOf(outer), 0)
    ensures Expanded(w, d, {}, Written(outer), 0, true).1 == Ok(Meaning(outer))
  {
    ExpandedComes(w, d, {}, outer, Written(outer), 0, true);
  }

  lemma LoadedReading(w: World, subset: string, systemId: string, publicId: string, base: string, text: string)
    returns (inner: Reading, data: string, outer: Reading)
    requires Loaded(w, subset, systemId, publicId, base).1 == Ok(text)
    ensures Merges(w, subset, systemId, publicId, base, inner, data, outer, text)
  {
    var a := Collected(w, NOTHING_YET, subset, base);
    Starts(w, subset, base, NOTHING);
    inner := ReadingOf(w, a, {}, subset, 0, false);
    ExpandedComes(w, a, {}, inner, subset, 0, false);
    ReadsDocs(w, SceneOf(a), inner);
    var mid := Reads(w, SceneOf(a), inner).value;
    var b := Paying(w, a, CostOf(inner), mid.params);
    Adds(w, a, CostOf(inner), NOTHING, 0, mid.params);
    data, outer := OuterReading(w, b, systemId, publicId, base);
    Adds(w, a, CostOf(inner), Plus(Fetching(data), CostOf(outer)), 0, mid.params);
    Starts(w, subset, base, Plus(CostOf(inner), Plus(Fetching(data), CostOf(outer))));
  }

  lemma OuterReading(w: World, b: Account, systemId: string, publicId: string, base: string)
    returns (data: string, outer: Reading)
    requires Frugal(w, b) && Solvent(w, b)
    requires var (c, got) := Fetch(w, b, systemId, publicId, base);
             got.Got? && Expanded(w, Collected(w, c, got.text, got.base), {}, got.text, 0, true).1.Ok?
    ensures Found(w, SceneOf(b), systemId, publicId, base, data, Written(outer)) && Sound(outer, true)
    ensures Distinct({}, outer) && Reads(w, Then(w, SceneOf(b), systemId, publicId, base, Written(outer)), outer).Some?
    ensures Affordable(w, b, Plus(Fetching(data), CostOf(outer)), 0)
    ensures var (c, got) := Fetch(w, b, systemId, publicId, base);
            Expanded(w, Collected(w, c, got.text, got.base), {}, got.text, 0, true).1 == Ok(Meaning(outer))
  {
    var (d, got) := Looked(w, b, External(systemId, publicId, base));
    data := LookedFound(w, b, systemId, publicId, base);
    LookedPays(w, b, systemId, publicId, base, data, got.text, d);
    outer := FetchedReading(w, d, got.text);
    Adds(w, b, Fetching(data), CostOf(outer), 0, d.params);
  }

  lemma LookedPays(w: World, b: Account, systemId: string, publicId: string, base: string, data: string, text: string,
                   d: Account)
    requires Frugal(w, b) && Solvent(w, b) && Looked(w, b, External(systemId, publicId, base)) == (d, Ok(text))
    requires Found(w, SceneOf(b), systemId, publicId, base, data, text)
    ensures Affordable(w, b, Fetching(data), 0) && d == Paying(w, b, Fetching(data), d.params)
    ensures Frugal(w, d) && Solvent(w, d)
  {
    LookedUp(w, b, systemId, publicId, base, data, text);
    Adds(w, b, Fetching(data), NOTHING, 0, d.params);
  }

  lemma FetchedReading(w: World, d: Account, text: string) returns (outer: Reading)
    requires Frugal(w, d) && Solvent(w, d) && Expanded(w, d, {}, text, 0, true).1.Ok?
    ensures Written(outer) == text && Sound(outer, true) && Distinct({}, outer)
    ensures Reads(w, SceneOf(d), outer).Some? && Affordable(w, d, CostOf(outer), 0)
    ensures Expanded(w, d, {}, text, 0, true).1 == Ok(Meaning(outer))
  {
    outer := ReadingOf(w, d, {}, text, 0, true);
    ExpandedComes(w, d, {}, outer, text, 0, true);
  }
}
