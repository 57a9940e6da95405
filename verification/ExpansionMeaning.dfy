/** What a subset stands for once its references are replaced, said of how it is written,
    and when a load comes to that. */
module ExpansionMeaning {
  import opened Basics
  import opened SectionText
  import opened ExpansionRules
  import opened ExpansionText

  /** A subset as written, with what its references open into: a character, a construct
      copied whole, a declaration with references inside and its last character, a `%`
      with no `;` behind, a mention of nothing declared, a reference with its text, and one
      whose text is fetched. */
  datatype Reading =
    | End
    | Letter(c: char, rest: Reading)
    | Whole(construct: string, rest: Reading)
    | Declaration(inner: Reading, last: char, rest: Reading)
    | Percent(rest: Reading)
    | Unknown(body: string, rest: Reading)
    | Replaced(name: string, text: Reading, rest: Reading)
    | Brought(name: string, data: string, text: Reading, rest: Reading)

  function Written(r: Reading): string
    decreases r, 1
  {
    if r.End? then "" else Front(r) + Written(r.rest)
  }

  function Front(r: Reading): string
    requires !r.End?
    decreases r, 0
  {
    match r
    case Letter(c, _) => [c]
    case Whole(text, _) => text
    case Declaration(inner, last, _) => "<!" + Written(inner) + [last]
    case Percent(_) => "%"
    case Unknown(body, _) => "%" + body + ";"
    case Replaced(name, _, _) => "%" + name + ";"
    case Brought(name, _, _, _) => "%" + name + ";"
  }

  /** What it stands for: each reference is replaced by what its text stands for. */
  function Meaning(r: Reading): string
    decreases r, 1
  {
    if r.End? then "" else Sense(r) + Meaning(r.rest)
  }

  function Sense(r: Reading): string
    requires !r.End?
    decreases r, 0
  {
    match r
    case Letter(c, _) => [c]
    case Whole(text, _) => text
    case Declaration(inner, _, _) => "<!" + Meaning(inner) + ">"
    case Percent(_) => "%"
    case Unknown(body, _) => "%" + body + ";"
    case Replaced(_, text, _) => Meaning(text)
    case Brought(_, _, text, _) => Meaning(text)
  }

  /** A declaration that mentions something. */
  predicate Mentioning(text: string) { "<!" <= text && !("<!--" <= text) && '%' in text }

  /** Only at declaration level are declarations expanded inside. */
  ghost predicate Sound(r: Reading, declLevel: bool)
    decreases r, 1
  {
    r.End? || (SoundFront(r, Written(r.rest), declLevel) && Sound(r.rest, declLevel))
  }

  ghost predicate SoundFront(r: Reading, after: string, declLevel: bool)
    requires !r.End?
    decreases r, 0
  {
    match r
    case Letter(c, _) => c != '%' && !Begins([c] + after)
    case Whole(text, _) => Construct(text, after) && !(declLevel && Mentioning(text))
    case Declaration(inner, _, _) =>
      declLevel && Construct(Front(r), after) && Mentioning(Front(r)) && Sound(inner, declLevel)
    case Percent(_) => ';' !in after
    case Unknown(body, _) => ';' !in body
    case Replaced(_, text, _) => Sound(text, declLevel)
    case Brought(_, _, text, _) => Sound(text, declLevel)
  }

  // ---- what is declared --------------------------------------------------

  /** How much has been fetched, and which parameter entities are in scope. */
  datatype Scene = Scene(docs: nat, params: map<string, Param>)

  /** A name declared twice means its first declaration. */
  function FirstWins(params: map<string, Param>, more: map<string, Param>): map<string, Param> {
    map n | n in params.Keys + more.Keys :: if n in params then params[n] else more[n]
  }

  /** What is fetched, and its text. */
  ghost predicate Found(w: World, at: Scene, systemId: string, publicId: string, base: string, data: string,
                        text: string)
  {
    var got := w.resolve(at.docs + 1, systemId, publicId, base);
    got.Resource? && got.data == data && Stripped(data, text)
  }

  /** What a fetched text declares is in scope afterwards, found where it was found. */
  function Then(w: World, at: Scene, systemId: string, publicId: string, base: string, text: string): Scene
    requires w.resolve(at.docs + 1, systemId, publicId, base).Resource?
  {
    var found := w.resolve(at.docs + 1, systemId, publicId, base).base;
    Scene(at.docs + 1, FirstWins(at.params, w.declares(text, if found == "" then systemId else found)))
  }

  predicate Refers(at: Scene, name: string) { name in at.params && IsName(name) }

  /** The references of a reading open into what is declared, from left to right; and what
      is in scope behind it. */
  ghost function Reads(w: World, at: Scene, r: Reading): Option<Scene>
    decreases r, 1
  {
    if r.End? then Some(at)
    else
      match ReadsHead(w, at, r)
      case None => None
      case Some(mid) => Reads(w, mid, r.rest)
  }

  ghost function ReadsHead(w: World, at: Scene, r: Reading): Option<Scene>
    requires !r.End?
    decreases r, 0
  {
    match r
    case Letter(_, _) => Some(at)
    case Whole(_, _) => Some(at)
    case Declaration(inner, _, _) => Reads(w, at, inner)
    case Percent(_) => Some(at)
    case Unknown(body, _) => if Refers(at, body) then None else Some(at)
    case Replaced(name, text, _) =>
      if Refers(at, name) && at.params[name] == Internal(Written(text)) then Reads(w, at, text) else None
    case Brought(name, data, text, _) =>
      if !Refers(at, name) || at.params[name].Internal? then None
      else
        var External(systemId, publicId, base) := at.params[name];
        if !Found(w, at, systemId, publicId, base, data, Written(text)) then None
        else Reads(w, Then(w, at, systemId, publicId, base, Written(text)), text)
  }

  // ---- what it costs -----------------------------------------------------

  /** Fetches, bytes read, characters charged, how deep substitutions and declarations
      nest, and the largest resource. */
  datatype Cost = Cost(docs: nat, bytes: nat, charges: nat, deepest: nat, largest: nat)

  const NOTHING := Cost(0, 0, 0, 0, 0)

  function Max(x: nat, y: nat): nat { if x < y then y else x }

  function Plus(c: Cost, d: Cost): Cost {
    Cost(c.docs + d.docs, c.bytes + d.bytes, c.charges + d.charges, Max(c.deepest, d.deepest),
         Max(c.largest, d.largest))
  }

  /** What is nested one level down, its result charged too. */
  function Deeper(c: Cost, charge: nat): Cost { c.(deepest := c.deepest + 1, charges := c.charges + charge) }

  function Fetching(data: string): Cost { Cost(1, |data|, |data|, 0, |data|) }

  function CostOf(r: Reading): Cost
    decreases r, 1
  {
    if r.End? then NOTHING else Plus(HeadCost(r), CostOf(r.rest))
  }

  function HeadCost(r: Reading): Cost
    requires !r.End?
    decreases r, 0
  {
    match r
    case Letter(_, _) => NOTHING
    case Whole(_, _) => NOTHING
    case Declaration(inner, _, _) => Deeper(CostOf(inner), 0)
    case Percent(_) => NOTHING
    case Unknown(_, _) => NOTHING
    case Replaced(_, text, _) => Deeper(CostOf(text), |Meaning(text)|)
    case Brought(_, data, text, _) => Plus(Fetching(data), Deeper(CostOf(text), |Meaning(text)|))
  }

  predicate Affordable(w: World, a: Account, c: Cost, depth: nat) {
    && depth + c.deepest <= MAX_PARAMETER_DEPTH
    && (w.maxDocs >= 0 ==> a.docs + c.docs <= w.maxDocs)
    && (w.maxBytes >= 0 ==> a.bytes + c.bytes <= w.maxBytes)
    && (w.maxExpand >= 0 ==> a.expanded + c.charges <= w.maxExpand)
    && (w.maxBytes >= 0 || w.maxExpand >= 0 ==> c.largest <= MOST_READ)
  }

  /** No entity stands within itself, or within one of these. */
  predicate Distinct(active: set<string>, r: Reading)
    decreases r, 1
  {
    r.End? || (DistinctHead(active, r) && Distinct(active, r.rest))
  }

  predicate DistinctHead(active: set<string>, r: Reading)
    requires !r.End?
    decreases r, 0
  {
    match r
    case Letter(_, _) => true
    case Whole(_, _) => true
    case Declaration(inner, _, _) => Distinct(active, inner)
    case Percent(_) => true
    case Unknown(_, _) => true
    case Replaced(name, text, _) => name !in active && Distinct(active + {name}, text)
    case Brought(name, _, text, _) => name !in active && Distinct(active + {name}, text)
  }

  function Paying(w: World, a: Account, c: Cost, params: map<string, Param>): Account {
    Account(a.docs + c.docs, a.bytes + c.bytes, if w.maxExpand < 0 then a.expanded else a.expanded + c.charges, params)
  }

  function SceneOf(a: Account): Scene { Scene(a.docs, a.params) }

  /** Expanding gives the meaning for that cost, if it is affordable. */
  predicate Comes(w: World, a: Account, c: Cost, distinct: bool, depth: nat, text: string, params: map<string, Param>,
                  got: (Account, Result))
  {
    if Affordable(w, a, c, depth) && distinct then got == (Paying(w, a, c, params), Ok(text)) else got.1.Err?
  }

  // ---- sums --------------------------------------------------------------

  lemma Adds(w: World, a: Account, c: Cost, d: Cost, depth: nat, params: map<string, Param>)
    requires Frugal(w, a) && Solvent(w, a)
    ensures Affordable(w, a, Plus(c, d), depth)
       <==> Affordable(w, a, c, depth) && Affordable(w, Paying(w, a, c, params), d, depth)
    ensures Affordable(w, a, c, depth) ==> var b := Paying(w, a, c, params); Frugal(w, b) && Solvent(w, b)
  {
  }

  lemma PaidTwice(w: World, a: Account, c: Cost, d: Cost, params: map<string, Param>, more: map<string, Param>)
    ensures Paying(w, Paying(w, a, c, params), d, more) == Paying(w, a, Plus(c, d), more)
  {
  }

  /** One part, then what is left. */
  lemma Joined(w: World, a: Account, c: Cost, d: Cost, first: bool, second: bool, depth: nat, text: string,
               more: string, params: map<string, Param>, end: map<string, Param>, got: (Account, Result),
               left: (Account, Result))
    requires Frugal(w, a) && Solvent(w, a) && Comes(w, a, c, first, depth, text, params, got)
    requires got.1.Ok? ==> Comes(w, got.0, d, second, depth, more, end, left)
    ensures Comes(w, a, Plus(c, d), first && second, depth, text + more, end,
                  if got.1.Err? then got else (left.0, Before(got.1.text, left.1)))
  {
    Adds(w, a, c, d, depth, params);
    PaidTwice(w, a, c, d, params, end);
  }

  // ---- the parts of a reading --------------------------------------------

  lemma ConstructShift(s: string, i: nat)
    requires i <= |s|
    ensures ConstructEnd(s, i) == i + ConstructEnd(s[i..], 0)
  {
    assert s[i..][0..] == s[i..];
  }

  lemma HeadThen(s: string, i: nat, head: string, after: string)
    requires i <= |s| && s[i..] == head + after
    ensures i + |head| <= |s| && s[i..i + |head|] == head && s[i + |head|..] == after
  {
    assert s[i..][..|head|] == head && s[i..][|head|..] == after;
  }

  lemma LetterIs(params: map<string, Param>, s: string, i: nat, declLevel: bool, c: char, after: string)
    requires i < |s| && s[i..] == [c] + after && c != '%' && !Begins([c] + after)
    ensures TokenAt(params, s, i, declLevel) == Copied([c], i + 1)
  {
    ConstructShift(s, i);
    ConstructIs(s[i..]);
    assert s[i] == s[i..][0];
  }

  lemma ConstructAt(s: string, i: nat, text: string, after: string)
    requires i < |s| && s[i..] == text + after && Construct(text, after)
    ensures |text| > 0 && ConstructEnd(s, i) == i + |text| <= |s| && s[i..i + |text|] == text
  {
    ConstructShift(s, i);
    ConstructFound(text, after);
    ConstructIs(s[i..]);
    HeadThen(s, i, text, after);
  }

  /** A construct: copied whole, or expanded inside. */
  lemma ConstructToken(params: map<string, Param>, s: string, i: nat, declLevel: bool, text: string, after: string)
    requires i < |s| && s[i..] == text + after && Construct(text, after)
    ensures TokenAt(params, s, i, declLevel)
         == if declLevel && Mentioning(text) then Within(text[2..|text| - 1], i + |text|) else Copied(text, i + |text|)
  {
    ConstructAt(s, i, text, after);
    PercentBehind(text);
    TokenOfConstruct(params, s, i, declLevel, i + |text|, text);
  }

  lemma TokenOfConstruct(params: map<string, Param>, s: string, i: nat, declLevel: bool, end: nat, text: string)
    requires i < |s| && i < end == ConstructEnd(s, i) && text == s[i..end]
    ensures TokenAt(params, s, i, declLevel)
         == if declLevel && HasPrefix(text, "<!") && !HasPrefix(text, "<!--") && '%' in text[2..]
            then Within(text[2..|text| - 1], end) else Copied(text, end)
  {
  }

  lemma PercentBehind(text: string)
    ensures "<!" <= text ==> ('%' in text <==> '%' in text[2..])
    ensures HasPrefix(text, "<!") == ("<!" <= text) && HasPrefix(text, "<!--") == ("<!--" <= text)
  {
    if "<!" <= text { assert text == text[..2] + text[2..] && text[..2] == "<!"; }
  }

  lemma PercentNoConstruct(s: string, i: nat)
    requires i < |s| && s[i] == '%'
    ensures ConstructEnd(s, i) == i
  {
    ConstructShift(s, i);
    ConstructIs(s[i..]);
    assert s[i..][0] == '%';
  }

  lemma SemicolonFirst(body: string, after: string)
    requires ';' !in body
    ensures Index("%" + body + ";" + after, ";") == At(|body| + 1)
  {
    assert ';' !in "%" + body;
    FirstQuote(';', "%" + body, after);
  }

  lemma PercentIs(params: map<string, Param>, s: string, i: nat, declLevel: bool, after: string)
    requires i < |s| && s[i..] == "%" + after && ';' !in after
    ensures TokenAt(params, s, i, declLevel) == Copied("%", i + 1)
  {
    assert s[i] == s[i..][0];
    PercentNoConstruct(s, i);
    assert ';' !in s[i..];
    NoQuote(';', s[i..]);
    IndexAbsent(s[i..], ";");
  }

  lemma MentionIs(params: map<string, Param>, s: string, i: nat, declLevel: bool, body: string, after: string)
    requires i < |s| && s[i..] == "%" + body + ";" + after && ';' !in body
    ensures TokenAt(params, s, i, declLevel)
         == var end := i + |body| + 2;
            if body in params && IsName(body) then Reference(body, end) else Copied("%" + body + ";", end)
  {
    MentionAt(s, i, body, after);
    PercentNoConstruct(s, i);
    SemicolonFirst(body, after);
    NameIs(body);
  }

  lemma MentionAt(s: string, i: nat, body: string, after: string)
    requires i < |s| && s[i..] == "%" + body + ";" + after
    ensures s[i] == '%' && i + |body| + 2 <= |s|
    ensures s[i..i + |body| + 2] == "%" + body + ";" && s[i + 1..i + |body| + 1] == body
  {
    assert s[i] == s[i..][0];
    HeadThen(s, i, "%" + body + ";", after);
    assert s[i + 1..i + |body| + 1] == s[i..i + |body| + 2][1..|body| + 1];
  }

  function TokenOf(r: Reading, end: nat): Token
    requires !r.End?
  {
    match r
    case Declaration(inner, _, _) => Within(Written(inner), end)
    case Replaced(name, _, _) => Reference(name, end)
    case Brought(name, _, _, _) => Reference(name, end)
    case _ => Copied(Front(r), end)
  }

  lemma NameNoSemicolon(name: string)
    requires IsName(name)
    ensures ';' !in name
  {
  }

  /** A mention refers to something exactly where the reading says so. */
  predicate Resolves(params: map<string, Param>, r: Reading) {
    && (r.Unknown? ==> !(r.body in params && IsName(r.body)))
    && (r.Replaced? || r.Brought? ==> r.name in params && IsName(r.name))
  }

  lemma ReadsResolves(w: World, at: Scene, r: Reading)
    requires !r.End? && ReadsHead(w, at, r).Some?
    ensures Resolves(at.params, r)
  {
  }

  lemma CopiedIs(params: map<string, Param>, s: string, i: nat, declLevel: bool, r: Reading, head: string,
                 after: string)
    requires i < |s| && !r.End? && head == Front(r) && s[i..] == head + after && SoundFront(r, after, declLevel)
    requires Resolves(params, r) && !r.Declaration? && !r.Replaced? && !r.Brought?
    ensures TokenAt(params, s, i, declLevel) == Copied(head, i + |head|)
  {
    match r
    case Letter(c, _) => LetterIs(params, s, i, declLevel, c, after);
    case Whole(text, _) => ConstructToken(params, s, i, declLevel, text, after);
    case Percent(_) => PercentIs(params, s, i, declLevel, after);
    case Unknown(body, _) => MentionIs(params, s, i, declLevel, body, after);
  }

  /** The next token is that of the reading's head. */
  lemma TokenIs(params: map<string, Param>, s: string, i: nat, declLevel: bool, r: Reading, head: string, after: string)
    requires i < |s| && !r.End? && head == Front(r) && s[i..] == head + after && SoundFront(r, after, declLevel)
    requires Resolves(params, r)
    ensures TokenAt(params, s, i, declLevel) == TokenOf(r, i + |head|)
  {
    if r.Declaration? {
      DeclarationToken(params, s, i, Written(r.inner), r.last, head, after);
    } else if r.Replaced? || r.Brought? {
      ReferenceIs(params, s, i, declLevel, r.name, after);
    } else {
      CopiedIs(params, s, i, declLevel, r, head, after);
    }
  }

  lemma DeclarationToken(params: map<string, Param>, s: string, i: nat, inner: string, last: char, head: string,
                         after: string)
    requires i < |s| && head == "<!" + inner + [last] && s[i..] == head + after
    requires Construct(head, after) && Mentioning(head)
    ensures TokenAt(params, s, i, true) == Within(inner, i + |head|)
  {
    ConstructToken(params, s, i, true, head, after);
    assert head[2..|head| - 1] == inner;
  }

  lemma ReferenceIs(params: map<string, Param>, s: string, i: nat, declLevel: bool, name: string, after: string)
    requires i < |s| && s[i..] == "%" + name + ";" + after && Refers(Scene(0, params), name)
    ensures TokenAt(params, s, i, declLevel) == Reference(name, i + |name| + 2)
  {
    NameNoSemicolon(name);
    MentionIs(params, s, i, declLevel, name, after);
  }

  // ---- text without references -------------------------------------------

  predicate Verbatim(r: Reading)
    decreases r
  {
    r.End? || ((r.Letter? || r.Whole?) && Verbatim(r.rest))
  }

  lemma {:induction false} NoMentions(r: Reading, s: string, declLevel: bool)
    requires s == Written(r) && '%' !in s && Sound(r, declLevel)
    ensures Verbatim(r)
    decreases r
  {
    if !r.End? {
      NoPercent(r, Front(r), Written(r.rest), declLevel);
      NoMentions(r.rest, Written(r.rest), declLevel);
    }
  }

  lemma {:induction false} VerbatimMeans(r: Reading)
    requires Verbatim(r)
    ensures Meaning(r) == Written(r)
    decreases r
  {
    if !r.End? { VerbatimMeans(r.rest); }
  }

  lemma {:induction false} VerbatimCosts(r: Reading)
    requires Verbatim(r)
    ensures CostOf(r) == NOTHING
    decreases r
  {
    if !r.End? {
      VerbatimCosts(r.rest);
      FreeHead(r, CostOf(r.rest));
    }
  }

  lemma FreeHead(r: Reading, c: Cost)
    requires r.Letter? || r.Whole?
    ensures Plus(HeadCost(r), c) == c
  {
  }

  lemma {:induction false} VerbatimDistinct(r: Reading, active: set<string>)
    requires Verbatim(r)
    ensures Distinct(active, r)
    decreases r
  {
    if !r.End? { VerbatimDistinct(r.rest, active); }
  }

  lemma {:induction false} VerbatimReads(w: World, at: Scene, r: Reading)
    requires Verbatim(r)
    ensures Reads(w, at, r) == Some(at)
    decreases r
  {
    if !r.End? { VerbatimReads(w, at, r.rest); }
  }

  lemma NoPercent(r: Reading, head: string, after: string, declLevel: bool)
    requires !r.End? && head == Front(r) && '%' !in head + after && SoundFront(r, after, declLevel)
    ensures '%' !in head && '%' !in after && (r.Letter? || r.Whole?)
  {
    assert forall c | c in head || c in after :: c in head + after;
    if !r.Letter? && !r.Whole? && !r.Declaration? { MentionsFirst(r); }
  }

  lemma MentionsFirst(r: Reading)
    requires r.Percent? || r.Unknown? || r.Replaced? || r.Brought?
    ensures '%' in Front(r)
  {
    assert Front(r)[0] == '%';
  }

  // ---- fetching ----------------------------------------------------------

  lemma FetchComes(w: World, a: Account, systemId: string, publicId: string, base: string)
    requires Frugal(w, a) && Solvent(w, a)
    ensures var (b, got) := Fetch(w, a, systemId, publicId, base);
            match w.resolve(a.docs + 1, systemId, publicId, base)
            case Unresolved => got.Lost?
            case Resource(data, found) =>
              if Affordable(w, a, Fetching(data), 0)
              then b == Paying(w, a, Fetching(data), a.params)
                   && got == Got(StripTextDecl(data), if found == "" then systemId else found)
              else got.Lost?
  {
  }

  lemma CollectedFirst(w: World, a: Account, text: string, base: string)
    ensures Collected(w, a, text, base) == a.(params := FirstWins(a.params, w.declares(text, base)))
  {
  }

  // ---- expanding gives the meaning ---------------------------------------

  /** What the docs of a scene are behind a reading. */
  lemma {:induction false} ReadsDocs(w: World, at: Scene, r: Reading)
    requires Reads(w, at, r).Some?
    ensures Reads(w, at, r).value.docs == at.docs + CostOf(r).docs
    decreases r, 1
  {
    if !r.End? {
      HeadDocs(w, at, r);
      ReadsDocs(w, ReadsHead(w, at, r).value, r.rest);
    }
  }

  lemma {:induction false} HeadDocs(w: World, at: Scene, r: Reading)
    requires !r.End? && ReadsHead(w, at, r).Some?
    ensures ReadsHead(w, at, r).value.docs == at.docs + HeadCost(r).docs
    decreases r, 0
  {
    match r
    case Letter(_, _) =>
    case Whole(_, _) =>
    case Declaration(inner, _, _) => ReadsDocs(w, at, inner);
    case Percent(_) =>
    case Unknown(_, _) =>
    case Replaced(_, text, _) => ReadsDocs(w, at, text);
    case Brought(name, _, text, _) =>
      var External(systemId, publicId, base) := at.params[name];
      ReadsDocs(w, Then(w, at, systemId, publicId, base, Written(text)), text);
  }

  /** A text with nothing to replace in it, and any other. */
  lemma ExpandedOf(w: World, a: Account, active: set<string>, s: string, depth: nat, declLevel: bool, c: Cost,
                   distinct: bool, text: string, params: map<string, Param>)
    requires Frugal(w, a) && Solvent(w, a)
    requires if depth > MAX_PARAMETER_DEPTH then true
             else if '%' in s then
               Comes(w, a, c, distinct, depth, text, params, ExpandedFrom(w, a, active, s, 0, depth, declLevel))
             else text == s && c == NOTHING && distinct && params == a.params
    ensures Comes(w, a, c, distinct, depth, text, params, Expanded(w, a, active, s, depth, declLevel))
  {
  }

  /** A declaration expanded inside. */
  lemma WithinOf(w: World, a: Account, active: set<string>, inner: string, end: nat, depth: nat, declLevel: bool,
                 c: Cost, distinct: bool, text: string, params: map<string, Param>)
    requires depth <= MAX_PARAMETER_DEPTH
    requires Comes(w, a, c, distinct, depth + 1, text, params, Expanded(w, a, active, inner, depth + 1, declLevel))
    ensures Comes(w, a, Deeper(c, 0), distinct, depth, "<!" + text + ">", params,
                  Piece(w, a, active, Within(inner, end), depth, declLevel))
  {
  }

  /** A text substituted, of account `b` once it is looked up, charged in full. */
  lemma SubstitutedOf(w: World, a: Account, active: set<string>, name: string, depth: nat, declLevel: bool,
                      fetching: Cost, inner: string, c: Cost, distinct: bool, text: string,
                      params: map<string, Param>, b: Account, more: map<string, Param>)
    requires Frugal(w, a) && Solvent(w, a) && depth <= MAX_PARAMETER_DEPTH && name in a.params
    requires b == Paying(w, a, fetching, more) && fetching.deepest == 0
    requires if Affordable(w, a, fetching, 0) then Looked(w, a, a.params[name]) == (b, Ok(inner))
             else Looked(w, a, a.params[name]).1.Err?
    requires Affordable(w, a, fetching, 0) ==>
               Comes(w, b, c, distinct, depth + 1, text, params,
                     Expanded(w, b, active + {name}, inner, depth + 1, declLevel))
    ensures Comes(w, a, Plus(fetching, Deeper(c, |text|)), name !in active && distinct, depth, text, params,
                  Substituted(w, a, active, name, depth, declLevel))
  {
    ChargedLast(w, a, fetching, c, |text|, depth, more, params);
  }

  /** Nothing is fetched for an internal entity. */
  lemma ReplacedOf(w: World, a: Account, active: set<string>, name: string, depth: nat, declLevel: bool, inner: string,
                 c: Cost, distinct: bool, text: string, params: map<string, Param>)
    requires Frugal(w, a) && Solvent(w, a) && depth <= MAX_PARAMETER_DEPTH
    requires name in a.params && a.params[name] == Internal(inner)
    requires Comes(w, a, c, distinct, depth + 1, text, params,
                   Expanded(w, a, active + {name}, inner, depth + 1, declLevel))
    ensures Comes(w, a, Deeper(c, |text|), name !in active && distinct, depth, text, params,
                  Substituted(w, a, active, name, depth, declLevel))
  {
    SubstitutedOf(w, a, active, name, depth, declLevel, NOTHING, inner, c, distinct, text, params, a, a.params);
  }

  lemma ChargedLast(w: World, a: Account, fetching: Cost, c: Cost, n: nat, depth: nat, more: map<string, Param>,
                    params: map<string, Param>)
    requires Frugal(w, a) && Solvent(w, a) && fetching.deepest == 0 && depth <= MAX_PARAMETER_DEPTH
    ensures var b := Paying(w, a, fetching, more);
            var d := Paying(w, b, c, params);
            && Charged(w, d, n) == Paying(w, a, Plus(fetching, Deeper(c, n)), params)
            && (Affordable(w, a, Plus(fetching, Deeper(c, n)), depth)
                <==> Affordable(w, a, fetching, 0) && Affordable(w, b, c, depth + 1)
                     && !Overcharged(w, Charged(w, d, n)))
  {
  }

  lemma {:induction false} ExpandedComes(w: World, a: Account, active: set<string>, r: Reading, s: string, depth: nat,
                                         declLevel: bool)
    requires Frugal(w, a) && Solvent(w, a) && s == Written(r) && Sound(r, declLevel)
    requires Reads(w, SceneOf(a), r).Some?
    ensures Comes(w, a, CostOf(r), Distinct(active, r), depth, Meaning(r), Reads(w, SceneOf(a), r).value.params,
                  Expanded(w, a, active, s, depth, declLevel))
    decreases r, 2
  {
    if depth <= MAX_PARAMETER_DEPTH {
      if '%' in s {
        assert s[0..] == s;
        FromComes(w, a, active, r, s, 0, depth, declLevel);
      } else {
        NoMentions(r, s, declLevel);
        VerbatimMeans(r);
        VerbatimCosts(r);
        VerbatimDistinct(r, active);
        VerbatimReads(w, SceneOf(a), r);
      }
    }
    ExpandedOf(w, a, active, s, depth, declLevel, CostOf(r), Distinct(active, r), Meaning(r),
               Reads(w, SceneOf(a), r).value.params);
  }

  lemma {:induction false} FromComes(w: World, a: Account, active: set<string>, r: Reading, s: string, i: nat,
                                     depth: nat, declLevel: bool)
    requires Frugal(w, a) && Solvent(w, a) && i <= |s| && s[i..] == Written(r) && Sound(r, declLevel)
    requires Reads(w, SceneOf(a), r).Some? && depth <= MAX_PARAMETER_DEPTH
    ensures Comes(w, a, CostOf(r), Distinct(active, r), depth, Meaning(r), Reads(w, SceneOf(a), r).value.params,
                  ExpandedFrom(w, a, active, s, i, depth, declLevel))
    decreases r, 1
  {
    if r.End? {
      assert i == |s|;
    } else {
      var t := NextIs(w, a, s, i, declLevel, r, Front(r), Written(r.rest));
      HeadComes(w, a, active, r, t, depth, declLevel);
      HeadDocs(w, SceneOf(a), r);
      var (b, piece) := Piece(w, a, active, t, depth, declLevel);
      var mid := ReadsHead(w, SceneOf(a), r).value;
      if piece.Ok? {
        Adds(w, a, HeadCost(r), CostOf(r.rest), depth, mid.params);
        assert SceneOf(b) == mid;
        FromComes(w, b, active, r.rest, s, t.end, depth, declLevel);
      }
      FromOf(w, a, active, s, i, depth, declLevel, t, HeadCost(r), CostOf(r.rest), DistinctHead(active, r),
             Distinct(active, r.rest), Sense(r), Meaning(r.rest), mid.params, Reads(w, SceneOf(a), r).value.params);
    }
  }

  lemma FromOf(w: World, a: Account, active: set<string>, s: string, i: nat, depth: nat, declLevel: bool, t: Token,
               c: Cost, d: Cost, first: bool, second: bool, text: string, more: string, params: map<string, Param>,
               end: map<string, Param>)
    requires Frugal(w, a) && Solvent(w, a) && i < |s| && depth <= MAX_PARAMETER_DEPTH
    requires t == TokenAt(a.params, s, i, declLevel)
    requires Comes(w, a, c, first, depth, text, params, Piece(w, a, active, t, depth, declLevel))
    requires var (b, piece) := Piece(w, a, active, t, depth, declLevel);
             piece.Ok? ==>
               Comes(w, b, d, second, depth, more, end, ExpandedFrom(w, b, active, s, t.end, depth, declLevel))
    ensures Comes(w, a, Plus(c, d), first && second, depth, text + more, end,
                  ExpandedFrom(w, a, active, s, i, depth, declLevel))
  {
    var got := Piece(w, a, active, t, depth, declLevel);
    Joined(w, a, c, d, first, second, depth, text, more, params, end, got,
           ExpandedFrom(w, got.0, active, s, t.end, depth, declLevel));
  }

  lemma NextIs(w: World, a: Account, s: string, i: nat, declLevel: bool, r: Reading, head: string, after: string)
    returns (t: Token)
    requires i <= |s| && !r.End? && head == Front(r) && s[i..] == head + after
    requires after == Written(r.rest) && SoundFront(r, after, declLevel) && ReadsHead(w, SceneOf(a), r).Some?
    ensures i < |s| && t == TokenAt(a.params, s, i, declLevel) && t == TokenOf(r, t.end)
    ensures t.end <= |s| && s[t.end..] == after
  {
    HeadNotEmpty(r, declLevel);
    HeadThen(s, i, head, after);
    ReadsResolves(w, SceneOf(a), r);
    TokenIs(a.params, s, i, declLevel, r, head, after);
    t := TokenOf(r, i + |head|);
  }

  lemma HeadNotEmpty(r: Reading, declLevel: bool)
    requires !r.End? && SoundFront(r, Written(r.rest), declLevel)
    ensures |Front(r)| > 0
  {
    if r.Whole? {
      ConstructFound(r.construct, Written(r.rest));
      ConstructIs(r.construct + Written(r.rest));
    }
  }

  lemma {:induction false} HeadComes(w: World, a: Account, active: set<string>, r: Reading, t: Token, depth: nat,
                                     declLevel: bool)
    requires Frugal(w, a) && Solvent(w, a) && !r.End? && SoundFront(r, Written(r.rest), declLevel)
    requires ReadsHead(w, SceneOf(a), r).Some? && depth <= MAX_PARAMETER_DEPTH && t == TokenOf(r, t.end)
    ensures t.Reference? ==> t.name in a.params
    ensures Comes(w, a, HeadCost(r), DistinctHead(active, r), depth, Sense(r), ReadsHead(w, SceneOf(a), r).value.params,
                  Piece(w, a, active, t, depth, declLevel))
    decreases r, 0
  {
    match r
    case Letter(_, _) =>
    case Whole(_, _) =>
    case Declaration(inner, _, _) =>
      ExpandedComes(w, a, active, inner, Written(inner), depth + 1, declLevel);
      WithinOf(w, a, active, Written(inner), t.end, depth, declLevel, CostOf(inner), Distinct(active, inner),
               Meaning(inner), Reads(w, SceneOf(a), inner).value.params);
    case Percent(_) =>
    case Unknown(_, _) =>
    case Replaced(name, text, _) => ReplacedComes(w, a, active, name, text, depth, declLevel);
    case Brought(name, data, text, _) => BroughtComes(w, a, active, name, data, text, depth, declLevel);
  }

  lemma {:induction false} ReplacedComes(w: World, a: Account, active: set<string>, name: string, text: Reading,
                                       depth: nat, declLevel: bool)
    requires Frugal(w, a) && Solvent(w, a) && Sound(text, declLevel) && depth <= MAX_PARAMETER_DEPTH
    requires name in a.params && a.params[name] == Internal(Written(text)) && Reads(w, SceneOf(a), text).Some?
    ensures Comes(w, a, Deeper(CostOf(text), |Meaning(text)|), name !in active && Distinct(active + {name}, text),
                  depth, Meaning(text), Reads(w, SceneOf(a), text).value.params,
                  Substituted(w, a, active, name, depth, declLevel))
    decreases text, 3
  {
    ExpandedComes(w, a, active + {name}, text, Written(text), depth + 1, declLevel);
    ReplacedOf(w, a, active, name, depth, declLevel, Written(text), CostOf(text), Distinct(active + {name}, text),
             Meaning(text), Reads(w, SceneOf(a), text).value.params);
  }

  lemma {:induction false} BroughtComes(w: World, a: Account, active: set<string>, name: string, data: string,
                                        text: Reading, depth: nat, declLevel: bool)
    requires Frugal(w, a) && Solvent(w, a) && Sound(text, declLevel) && depth <= MAX_PARAMETER_DEPTH
    requires name in a.params && a.params[name].External?
    requires var External(systemId, publicId, base) := a.params[name];
             Found(w, SceneOf(a), systemId, publicId, base, data, Written(text))
             && Reads(w, Then(w, SceneOf(a), systemId, publicId, base, Written(text)), text).Some?
    ensures var External(systemId, publicId, base) := a.params[name];
            Comes(w, a, Plus(Fetching(data), Deeper(CostOf(text), |Meaning(text)|)),
                  name !in active && Distinct(active + {name}, text), depth, Meaning(text),
                  Reads(w, Then(w, SceneOf(a), systemId, publicId, base, Written(text)), text).value.params,
                  Substituted(w, a, active, name, depth, declLevel))
    decreases text, 3
  {
    var External(systemId, publicId, base) := a.params[name];
    var at := Then(w, SceneOf(a), systemId, publicId, base, Written(text));
    var b := Paying(w, a, Fetching(data), at.params);
    LookedUp(w, a, systemId, publicId, base, data, Written(text));
    if Affordable(w, a, Fetching(data), 0) {
      Adds(w, a, Fetching(data), NOTHING, 0, at.params);
      ExpandedComes(w, b, active + {name}, text, Written(text), depth + 1, declLevel);
    }
    SubstitutedOf(w, a, active, name, depth, declLevel, Fetching(data), Written(text), CostOf(text),
                  Distinct(active + {name}, text), Meaning(text), Reads(w, at, text).value.params, b, at.params);
  }

  lemma LookedUp(w: World, a: Account, systemId: string, publicId: string, base: string, data: string, text: string)
    requires Frugal(w, a) && Solvent(w, a) && Found(w, SceneOf(a), systemId, publicId, base, data, text)
    ensures var b := Paying(w, a, Fetching(data), Then(w, SceneOf(a), systemId, publicId, base, text).params);
            var got := Looked(w, a, External(systemId, publicId, base));
            SceneOf(b) == Then(w, SceneOf(a), systemId, publicId, base, text)
            && if Affordable(w, a, Fetching(data), 0) then got == (b, Ok(text)) else got.1.Err?
  {
    var found := w.resolve(a.docs + 1, systemId, publicId, base).base;
    FetchComes(w, a, systemId, publicId, base);
    StripIs(data, text);
    CollectedFirst(w, Paying(w, a, Fetching(data), a.params), text, if found == "" then systemId else found);
  }
}
