/** What substituting parameter entities in a subset comes to, and what it is charged. */
module ExpansionRules {
  import opened Basics
  import opened SectionText

  /** A parameter entity: its text, or where to fetch it. */
  datatype Param = Internal(text: string) | External(systemId: string, publicId: string, base: string)

  /** What a resolver gives: bytes and the base they were found at, or a failure. */
  datatype Resource = Resource(data: string, base: string) | Unresolved

  /** The limits of a load, negative ones being none; what the n-th fetch finds; and the
      parameter entities that a subset found at some base declares. */
  datatype World = World(maxDocs: int, maxBytes: int, maxExpand: int,
                         resolve: (nat, string, string, string) -> Resource,
                         declares: (string, string) -> map<string, Param>)

  datatype Account = Account(docs: nat, bytes: nat, expanded: nat, params: map<string, Param>)

  datatype Fetched = Got(text: string, base: string) | Lost(fault: Fault)

  const MAX_PARAMETER_DEPTH: nat := 40
  const MOST_READ: int := 0x100_0000_0000

  // ---- the parts of a subset ---------------------------------------------

  function Index(s: string, p: string): (i: Place)
    ensures i.At? ==> i.place + |p| <= |s|
    ensures i == At(0) ==> HasPrefix(s, p)
    decreases |s|
  {
    if HasPrefix(s, p) then At(0) else if s == [] then Nowhere else Later(Index(s[1..], p), 1)
  }

  /** Without the text declaration at its start. */
  function StripTextDecl(s: string): (t: string)
    ensures |t| <= |s|
  {
    var rest := TrimLeft(s);
    if !HasPrefix(rest, "<?xml") then s
    else
      var after := rest[5..];
      if after != [] && !IsSpace(after[0]) && !HasPrefix(after, "?>") then s
      else
        match Index(rest, "?>")
        case Nowhere => s
        case At(end) => rest[end + 2..]
  }

  /** The `>` that ends a declaration; literals and groups may hold others. */
  function DeclarationEnd(s: string, i: nat, depth: int): (end: Place)
    requires i <= |s|
    ensures end.At? ==> i <= end.place < |s|
    decreases |s| - i
  {
    if i == |s| then Nowhere
    else if s[i] == '"' || s[i] == '\'' then
      match Index(s[i + 1..], [s[i]])
      case Nowhere => Nowhere
      case At(j) => DeclarationEnd(s, i + 1 + j + 1, depth)
    else if s[i] == '(' then DeclarationEnd(s, i + 1, depth + 1)
    else if s[i] == ')' then DeclarationEnd(s, i + 1, depth - 1)
    else if s[i] == '>' && depth <= 0 then At(i)
    else DeclarationEnd(s, i + 1, depth)
  }

  /** The end of the declaration, comment or instruction that begins at `i`, or `i`.
      A conditional section begins none. */
  function ConstructEnd(s: string, i: nat): (end: nat)
    requires i <= |s|
    ensures i <= end <= |s|
  {
    var rest := s[i..];
    if Opens(rest) then i
    else if HasPrefix(rest, "<!--") then
      match Index(rest[4..], "-->")
      case Nowhere => |s|
      case At(end) => i + 4 + end + 3
    else if !HasPrefix(rest, "<!") && !HasPrefix(rest, "<?") then i
    else
      match DeclarationEnd(rest, 0, 0)
      case Nowhere => |s|
      case At(end) => i + end + 1
  }

  /** A byte of a name: letters, digits, `.-_:` and anything beyond ASCII. */
  predicate IsNameByte(c: char) {
    'a' <= c <= 'z' || 'A' <= c <= 'Z' || '0' <= c <= '9' || c in ".-_:" || c as int >= 0x80
  }

  predicate IsEntityName(s: string) { s != [] && forall c | c in s :: IsNameByte(c) }

  /** The next part of a subset: text to copy, a declaration to expand within, or a
      reference; and where it ends. */
  datatype Token =
    | Copied(text: string, end: nat)
    | Within(inner: string, end: nat)
    | Reference(name: string, end: nat)

  function TokenAt(params: map<string, Param>, s: string, i: nat, declLevel: bool): (t: Token)
    requires i < |s|
    ensures i < t.end <= |s|
    ensures t.Copied? ==> |t.text| == t.end - i
    ensures t.Within? ==> |t.inner| + 3 <= t.end - i
    ensures t.Reference? ==> t.name in params && s[i] == '%'
  {
    var end := ConstructEnd(s, i);
    if end > i then
      var construct := s[i..end];
      if declLevel && HasPrefix(construct, "<!") && !HasPrefix(construct, "<!--") && '%' in construct[2..] then
        Within(construct[2..|construct| - 1], end)
      else Copied(construct, end)
    else if s[i] != '%' then Copied([s[i]], i + 1)
    else
      match Index(s[i..], ";")
      case Nowhere => Copied([s[i]], i + 1)
      case At(j) =>
        assert s[i..][..1][0] == '%';
        var name := s[i + 1..i + j];
        if name !in params || !IsEntityName(name) then Copied(s[i..i + j + 1], i + j + 1)
        else Reference(name, i + j + 1)
  }

  // ---- charging ----------------------------------------------------------

  function Charged(w: World, a: Account, n: nat): Account {
    if w.maxExpand < 0 then a else a.(expanded := a.expanded + n)
  }

  predicate Overcharged(w: World, a: Account) { w.maxExpand >= 0 && a.expanded > w.maxExpand }

  /** Declarations made earlier win. */
  function Collected(w: World, a: Account, text: string, base: string): Account {
    a.(params := w.declares(text, base) + a.params)
  }

  predicate Bounded(w: World) { w.maxBytes >= 0 || w.maxExpand >= 0 }

  function Least(x: int, y: int): int { if x < y then x else y }

  /** How much may still be read where there is a limit. */
  function Room(w: World, a: Account): nat {
    var r := if w.maxBytes >= 0 then Least(w.maxBytes - a.bytes, MOST_READ) else MOST_READ;
    var t := if w.maxExpand >= 0 then Least(w.maxExpand - a.expanded, r) else r;
    if t < 0 then 0 else t
  }

  /** One resource is read and its whole length charged before anything looks at it. */
  function Fetch(w: World, a: Account, systemId: string, publicId: string, base: string): (Account, Fetched) {
    if w.maxDocs >= 0 && a.docs >= w.maxDocs then (a, Lost(TooManyDocuments))
    else
      var a1 := a.(docs := a.docs + 1);
      match w.resolve(a1.docs, systemId, publicId, base)
      case Unresolved => (a1, Lost(NotFound))
      case Resource(data, found) =>
        if Bounded(w) && |data| > Room(w, a1) then (a1, Lost(TooLarge))
        else
          var a2 := Charged(w, a1.(bytes := a1.bytes + |data|), |data|);
          if Overcharged(w, a2) then (a2, Lost(TooLarge))
          else (a2, Got(StripTextDecl(data), if found == "" then systemId else found))
  }

  // ---- expanding ---------------------------------------------------------

  function Expanded(w: World, a: Account, active: set<string>, s: string, depth: nat, declLevel: bool)
    : (Account, Result)
    decreases MAX_PARAMETER_DEPTH + 1 - depth, 2, |s| + 1
  {
    if depth > MAX_PARAMETER_DEPTH then (a, Err(TooDeep))
    else if '%' !in s then (a, Ok(s))
    else ExpandedFrom(w, a, active, s, 0, depth, declLevel)
  }

  function ExpandedFrom(w: World, a: Account, active: set<string>, s: string, i: nat, depth: nat, declLevel: bool)
    : (Account, Result)
    requires i <= |s| && depth <= MAX_PARAMETER_DEPTH
    decreases MAX_PARAMETER_DEPTH + 1 - depth, 2, |s| - i
  {
    if i == |s| then (a, Ok(""))
    else
      var t := TokenAt(a.params, s, i, declLevel);
      var (a1, piece) := Piece(w, a, active, t, depth, declLevel);
      if piece.Err? then (a1, piece)
      else
        var (a2, rest) := ExpandedFrom(w, a1, active, s, t.end, depth, declLevel);
        (a2, Before(piece.text, rest))
  }

  function Piece(w: World, a: Account, active: set<string>, t: Token, depth: nat, declLevel: bool): (Account, Result)
    requires (t.Reference? ==> t.name in a.params) && depth <= MAX_PARAMETER_DEPTH
    decreases MAX_PARAMETER_DEPTH + 1 - depth, 1
  {
    match t
    case Copied(text, _) => (a, Ok(text))
    case Within(inner, _) =>
      var (a1, r) := Expanded(w, a, active, inner, depth + 1, declLevel);
      (a1, if r.Err? then r else Ok("<!" + r.text + ">"))
    case Reference(name, _) => Substituted(w, a, active, name, depth, declLevel)
  }

  /** A reference: what its text expands to, itself charged in full. */
  function Substituted(w: World, a: Account, active: set<string>, name: string, depth: nat, declLevel: bool)
    : (Account, Result)
    requires name in a.params && depth <= MAX_PARAMETER_DEPTH
    decreases MAX_PARAMETER_DEPTH + 1 - depth, 0
  {
    if name in active then (a, Err(Recursive(name)))
    else
      var (a1, got) := Looked(w, a, a.params[name]);
      if got.Err? then (a1, got)
      else
        var (a2, r) := Expanded(w, a1, active + {name}, got.text, depth + 1, declLevel);
        if r.Err? then (a2, r)
        else
          var a3 := Charged(w, a2, |r.text|);
          (a3, if Overcharged(w, a3) then Err(TooLarge) else r)
  }

  /** The text of an entity, fetched if need be; what it declares comes into scope. */
  function Looked(w: World, a: Account, p: Param): (Account, Result) {
    match p
    case Internal(text) => (a, Ok(text))
    case External(systemId, publicId, base) =>
      var (a1, got) := Fetch(w, a, systemId, publicId, base);
      match got
      case Lost(fault) => (a1, Err(fault))
      case Got(text, found) => (Collected(w, a1, text, found), Ok(text))
  }

  /** One subset: its references, then its conditional sections if it may have any. */
  function ExpandedSubset(w: World, a: Account, s: string, base: string, declLevel: bool): (Account, Result) {
    var (a1, r) := Expanded(w, Collected(w, a, s, base), {}, s, 0, declLevel);
    (a1, if r.Err? || !declLevel then r else Resolved(r.text, 0))
  }

  const NOTHING_YET := Account(0, 0, 0, map[])

  /** Both subsets, the internal one first. */
  function Loaded(w: World, subset: string, systemId: string, publicId: string, base: string): (Account, Result) {
    var (a1, inner) := ExpandedSubset(w, NOTHING_YET, subset, base, false);
    if inner.Err? then (a1, inner)
    else
      var (a2, got) := Fetch(w, a1, systemId, publicId, base);
      match got
      case Lost(fault) => (a2, Err(fault))
      case Got(text, found) =>
        var (a3, outer) := ExpandedSubset(w, a2, text, found, true);
        (a3, if outer.Err? then outer else Ok(inner.text + "\n" + outer.text))
  }

  // ---- one budget --------------------------------------------------------

  /** At no time have more resources or bytes been read than allowed. */
  predicate Frugal(w: World, a: Account) {
    (w.maxDocs >= 0 ==> a.docs <= w.maxDocs) && (w.maxBytes >= 0 ==> a.bytes <= w.maxBytes)
  }

  /** A text is paid for by the `n` characters it comes from and what has been charged
      since `a`, and the charges are within the limit. */
  predicate Paid(w: World, a: Account, n: int, b: Account, r: Result) {
    r.Ok? && w.maxExpand >= 0 ==> a.expanded <= b.expanded <= w.maxExpand && |r.text| <= n + b.expanded - a.expanded
  }

  predicate Solvent(w: World, a: Account) { w.maxExpand >= 0 ==> a.expanded <= w.maxExpand }

  lemma FetchPaid(w: World, a: Account, systemId: string, publicId: string, base: string)
    requires Frugal(w, a) && Solvent(w, a)
    ensures var (b, got) := Fetch(w, a, systemId, publicId, base);
            Frugal(w, b) && Paid(w, a, 0, b, match got case Got(t, _) => Ok(t) case Lost(f) => Err(f))
  {
  }

  lemma {:induction false} ExpandedPaid(w: World, a: Account, active: set<string>, s: string, depth: nat,
                                        declLevel: bool)
    requires Frugal(w, a) && Solvent(w, a)
    ensures var (b, r) := Expanded(w, a, active, s, depth, declLevel); Frugal(w, b) && Paid(w, a, |s|, b, r)
    decreases MAX_PARAMETER_DEPTH + 1 - depth, 2, |s| + 1
  {
    if depth <= MAX_PARAMETER_DEPTH && '%' in s {
      ExpandedFromPaid(w, a, active, s, 0, depth, declLevel);
    }
  }

  lemma {:induction false} ExpandedFromPaid(w: World, a: Account, active: set<string>, s: string, i: nat, depth: nat,
                                            declLevel: bool)
    requires Frugal(w, a) && Solvent(w, a) && i <= |s| && depth <= MAX_PARAMETER_DEPTH
    ensures var (b, r) := ExpandedFrom(w, a, active, s, i, depth, declLevel);
            Frugal(w, b) && Paid(w, a, |s| - i, b, r)
    decreases MAX_PARAMETER_DEPTH + 1 - depth, 2, |s| - i
  {
    if i < |s| {
      var t := TokenAt(a.params, s, i, declLevel);
      PiecePaid(w, a, active, t, t.end - i, depth, declLevel);
      var (a1, piece) := Piece(w, a, active, t, depth, declLevel);
      if piece.Ok? {
        ExpandedFromPaid(w, a1, active, s, t.end, depth, declLevel);
      }
    }
  }

  lemma {:induction false} PiecePaid(w: World, a: Account, active: set<string>, t: Token, n: nat, depth: nat,
                                     declLevel: bool)
    requires Frugal(w, a) && Solvent(w, a) && depth <= MAX_PARAMETER_DEPTH
    requires t.Copied? ==> |t.text| <= n
    requires t.Within? ==> |t.inner| + 3 <= n
    requires t.Reference? ==> t.name in a.params
    ensures var (b, r) := Piece(w, a, active, t, depth, declLevel); Frugal(w, b) && Paid(w, a, n, b, r)
    decreases MAX_PARAMETER_DEPTH + 1 - depth, 1
  {
    match t
    case Copied(_, _) =>
    case Within(inner, _) => ExpandedPaid(w, a, active, inner, depth + 1, declLevel);
    case Reference(name, _) => SubstitutedPaid(w, a, active, name, depth, declLevel);
  }

  lemma {:induction false} SubstitutedPaid(w: World, a: Account, active: set<string>, name: string, depth: nat,
                                           declLevel: bool)
    requires Frugal(w, a) && Solvent(w, a) && name in a.params && depth <= MAX_PARAMETER_DEPTH
    ensures var (b, r) := Substituted(w, a, active, name, depth, declLevel); Frugal(w, b) && Paid(w, a, 0, b, r)
    decreases MAX_PARAMETER_DEPTH + 1 - depth, 0
  {
    if name !in active {
      var p := a.params[name];
      if p.External? {
        FetchPaid(w, a, p.systemId, p.publicId, p.base);
      }
      var (a1, got) := Looked(w, a, p);
      if got.Ok? {
        ExpandedPaid(w, a1, active + {name}, got.text, depth + 1, declLevel);
      }
    }
  }

  lemma SubsetPaid(w: World, a: Account, s: string, base: string, declLevel: bool)
    requires Frugal(w, a) && Solvent(w, a)
    ensures var (b, r) := ExpandedSubset(w, a, s, base, declLevel); Frugal(w, b) && Paid(w, a, |s|, b, r)
  {
    ExpandedPaid(w, Collected(w, a, s, base), {}, s, 0, declLevel);
    var (_, r) := Expanded(w, Collected(w, a, s, base), {}, s, 0, declLevel);
    if r.Ok? {
      SectionsShrink(r.text, 0);
    }
  }

  /** What a load merges is no longer than the internal subset, the entity limit and a
      newline, however entities nest and whichever subset holds them; and however it ends,
      it has fetched and read no more than it may. */
  lemma LoadBounded(w: World, subset: string, systemId: string, publicId: string, base: string)
    ensures var (a, r) := Loaded(w, subset, systemId, publicId, base);
            Frugal(w, a) && (w.maxExpand >= 0 && r.Ok? ==> |r.text| <= |subset| + w.maxExpand + 1)
  {
    SubsetPaid(w, NOTHING_YET, subset, base, false);
    var (a1, inner) := ExpandedSubset(w, NOTHING_YET, subset, base, false);
    if inner.Ok? {
      FetchPaid(w, a1, systemId, publicId, base);
      var (a2, got) := Fetch(w, a1, systemId, publicId, base);
      if got.Got? {
        SubsetPaid(w, a2, got.text, got.base, true);
      }
    }
  }

  // ---- no entity within itself -------------------------------------------

  /** Expanding `s` from `i` meets a reference to `name`. */
  predicate Refers(params: map<string, Param>, s: string, i: nat, declLevel: bool, name: string)
    requires i <= |s|
    decreases |s| - i
  {
    i < |s|
    && var t := TokenAt(params, s, i, declLevel);
    || t == Reference(name, t.end)
    || (t.Within? && '%' in t.inner && Refers(params, t.inner, 0, declLevel, name))
    || Refers(params, s, t.end, declLevel, name)
  }

  predicate Mentions(params: map<string, Param>, s: string, declLevel: bool, name: string) {
    '%' in s && Refers(params, s, 0, declLevel, name)
  }

  predicate Local(params: map<string, Param>) { forall n | n in params :: params[n].Internal? }

  /** Each entity mentions the next. */
  predicate Chain(params: map<string, Param>, path: seq<string>, declLevel: bool)
    requires Local(params)
  {
    |path| <= 1
    || (path[0] in params && Mentions(params, params[path[0]].text, declLevel, path[1])
        && Chain(params, path[1..], declLevel))
  }

  /** Entities that fetch nothing declare nothing. */
  lemma {:induction false} ExpandedKeeps(w: World, a: Account, active: set<string>, s: string, depth: nat,
                                         declLevel: bool)
    requires Local(a.params)
    ensures Expanded(w, a, active, s, depth, declLevel).0.params == a.params
    decreases MAX_PARAMETER_DEPTH + 1 - depth, 2, |s| + 1
  {
    if depth <= MAX_PARAMETER_DEPTH {
      ExpandedFromKeeps(w, a, active, s, 0, depth, declLevel);
    }
  }

  lemma {:induction false} ExpandedFromKeeps(w: World, a: Account, active: set<string>, s: string, i: nat, depth: nat,
                                             declLevel: bool)
    requires Local(a.params) && i <= |s| && depth <= MAX_PARAMETER_DEPTH
    ensures ExpandedFrom(w, a, active, s, i, depth, declLevel).0.params == a.params
    decreases MAX_PARAMETER_DEPTH + 1 - depth, 2, |s| - i
  {
    if i < |s| {
      var t := TokenAt(a.params, s, i, declLevel);
      PieceKeeps(w, a, active, t, depth, declLevel);
      ExpandedFromKeeps(w, Piece(w, a, active, t, depth, declLevel).0, active, s, t.end, depth, declLevel);
    }
  }

  lemma {:induction false} PieceKeeps(w: World, a: Account, active: set<string>, t: Token, depth: nat, declLevel: bool)
    requires Local(a.params) && (t.Reference? ==> t.name in a.params) && depth <= MAX_PARAMETER_DEPTH
    ensures Piece(w, a, active, t, depth, declLevel).0.params == a.params
    decreases MAX_PARAMETER_DEPTH + 1 - depth, 1
  {
    if t.Within? {
      ExpandedKeeps(w, a, active, t.inner, depth + 1, declLevel);
    } else if t.Reference? && t.name !in active {
      ExpandedKeeps(w, a, active + {t.name}, a.params[t.name].text, depth + 1, declLevel);
    }
  }

  lemma PartsSucceed(w: World, a: Account, active: set<string>, s: string, i: nat, depth: nat, declLevel: bool)
    requires Local(a.params) && i < |s| && depth <= MAX_PARAMETER_DEPTH
    requires ExpandedFrom(w, a, active, s, i, depth, declLevel).1.Ok?
    ensures var t := TokenAt(a.params, s, i, declLevel);
            var b := Piece(w, a, active, t, depth, declLevel).0;
            b.params == a.params && Piece(w, a, active, t, depth, declLevel).1.Ok?
            && ExpandedFrom(w, b, active, s, t.end, depth, declLevel).1.Ok?
  {
    PieceKeeps(w, a, active, TokenAt(a.params, s, i, declLevel), depth, declLevel);
  }

  lemma WithinSucceeds(w: World, a: Account, active: set<string>, t: Token, depth: nat, declLevel: bool)
    requires t.Within? && '%' in t.inner && depth <= MAX_PARAMETER_DEPTH
    requires Piece(w, a, active, t, depth, declLevel).1.Ok?
    ensures depth < MAX_PARAMETER_DEPTH && ExpandedFrom(w, a, active, t.inner, 0, depth + 1, declLevel).1.Ok?
  {
  }

  /** The reference was substituted successfully, at this depth or a greater one. */
  predicate Met(w: World, params: map<string, Param>, active: set<string>, depth: nat, declLevel: bool, name: string,
                b: Account, deep: nat)
  {
    && b.params == params && name in params && depth <= deep <= MAX_PARAMETER_DEPTH
    && Substituted(w, b, active, name, deep, declLevel).1.Ok?
  }

  /** Where expanding succeeds, so did each reference it met. */
  lemma {:induction false} MentionedIsSubstituted(w: World, a: Account, active: set<string>, s: string, i: nat,
                                                  depth: nat, declLevel: bool, name: string)
    returns (b: Account, deep: nat)
    requires Local(a.params) && i <= |s| && depth <= MAX_PARAMETER_DEPTH
    requires ExpandedFrom(w, a, active, s, i, depth, declLevel).1.Ok? && Refers(a.params, s, i, declLevel, name)
    ensures Met(w, a.params, active, depth, declLevel, name, b, deep)
    decreases |s| - i
  {
    var t := TokenAt(a.params, s, i, declLevel);
    PartsSucceed(w, a, active, s, i, depth, declLevel);
    var inside := t.Within? && '%' in t.inner && Refers(a.params, t.inner, 0, declLevel, name);
    if t == Reference(name, t.end) {
      b, deep := a, depth;
    } else if inside {
      b, deep := MentionedWithin(w, a, active, t, depth, declLevel, name);
    } else {
      b, deep := MentionedIsSubstituted(w, Piece(w, a, active, t, depth, declLevel).0, active, s, t.end, depth,
                                        declLevel, name);
    }
  }

  lemma {:induction false} MentionedWithin(w: World, a: Account, active: set<string>, t: Token, depth: nat,
                                           declLevel: bool, name: string)
    returns (b: Account, deep: nat)
    requires Local(a.params) && t.Within? && '%' in t.inner && depth <= MAX_PARAMETER_DEPTH
    requires Piece(w, a, active, t, depth, declLevel).1.Ok? && Refers(a.params, t.inner, 0, declLevel, name)
    ensures Met(w, a.params, active, depth, declLevel, name, b, deep)
    decreases |t.inner| + 1
  {
    WithinSucceeds(w, a, active, t, depth, declLevel);
    b, deep := MentionedIsSubstituted(w, a, active, t.inner, 0, depth + 1, declLevel, name);
  }

  /** Where a subset whose entities fetch nothing is expanded, no chain of references from
      it meets an entity twice, or one already being substituted, or is longer than the
      depth allowed; so a cycle of any length is refused. */
  lemma {:induction false} ChainsEnd(w: World, a: Account, active: set<string>, s: string, depth: nat, declLevel: bool,
                                     path: seq<string>)
    requires Local(a.params) && path != [] && Expanded(w, a, active, s, depth, declLevel).1.Ok?
    requires Mentions(a.params, s, declLevel, path[0]) && Chain(a.params, path, declLevel)
    ensures depth + |path| <= MAX_PARAMETER_DEPTH
    ensures forall j | 0 <= j < |path| :: path[j] !in active
    ensures forall j, k | 0 <= j < k < |path| :: path[j] != path[k]
    decreases |path|
  {
    var b, deep := MentionedIsSubstituted(w, a, active, s, 0, depth, declLevel, path[0]);
    var text := b.params[path[0]].text;
    assert Expanded(w, b, active + {path[0]}, text, deep + 1, declLevel).1.Ok?;
    if |path| > 1 {
      ChainsEnd(w, b, active + {path[0]}, text, deep + 1, declLevel, path[1..]);
      assert forall j | 0 < j < |path| :: path[j] == path[1..][j - 1];
    }
  }

  // ---- nor one fetched on the way ----------------------------------------

  /** Expanding `s` from `i` comes to substitute path[0], and expanding the text that this
      finds, fetched or not, path[1], and so on. */
  predicate Nests(w: World, a: Account, active: set<string>, s: string, i: nat, depth: nat, declLevel: bool,
                  path: seq<string>)
    requires i <= |s|
    decreases MAX_PARAMETER_DEPTH + 1 - depth, |s| - i
  {
    path == [] ||
    (i < |s| && depth <= MAX_PARAMETER_DEPTH
     && var t := TokenAt(a.params, s, i, declLevel);
        || (t.Reference? && t.name == path[0] && NestsIn(w, a, active, t.name, depth, declLevel, path[1..]))
        || (t.Within? && '%' in t.inner && depth < MAX_PARAMETER_DEPTH
            && Nests(w, a, active, t.inner, 0, depth + 1, declLevel, path))
        || Nests(w, Piece(w, a, active, t, depth, declLevel).0, active, s, t.end, depth, declLevel, path))
  }

  /** Of the text of `name`. */
  predicate NestsIn(w: World, a: Account, active: set<string>, name: string, depth: nat, declLevel: bool,
                    path: seq<string>)
    requires name in a.params && depth <= MAX_PARAMETER_DEPTH
    decreases MAX_PARAMETER_DEPTH + 1 - depth, 0
  {
    var (b, got) := Looked(w, a, a.params[name]);
    path == [] || (got.Ok? && '%' in got.text && depth < MAX_PARAMETER_DEPTH
                   && Nests(w, b, active + {name}, got.text, 0, depth + 1, declLevel, path))
  }

  /** What holds of every nesting: no entity within itself, and no deeper than allowed. */
  predicate Ends(active: set<string>, depth: nat, path: seq<string>) {
    && depth + |path| <= MAX_PARAMETER_DEPTH
    && (forall j | 0 <= j < |path| :: path[j] !in active)
    && (forall j, k | 0 <= j < k < |path| :: path[j] != path[k])
  }

  lemma EndsWithin(active: set<string>, depth: nat, path: seq<string>, name: string)
    requires name !in active && Ends(active + {name}, depth + 1, path)
    ensures Ends(active, depth, [name] + path)
  {
    var whole := [name] + path;
    forall j | 0 < j < |whole| ensures whole[j] == path[j - 1] && whole[j] !in active && whole[j] != name {}
  }

  /** Where expanding succeeds, every nesting of substitutions in it is of entities all
      different, none of them being substituted around it, and within the depth allowed,
      whatever is fetched and declared on the way. */
  lemma {:induction false} NestingEnds(w: World, a: Account, active: set<string>, s: string, i: nat, depth: nat,
                                       declLevel: bool, path: seq<string>)
    requires i <= |s| && depth <= MAX_PARAMETER_DEPTH && path != []
    requires ExpandedFrom(w, a, active, s, i, depth, declLevel).1.Ok?
    requires Nests(w, a, active, s, i, depth, declLevel, path)
    ensures Ends(active, depth, path)
    decreases MAX_PARAMETER_DEPTH + 1 - depth, |s| - i
  {
    var t := TokenAt(a.params, s, i, declLevel);
    BothSucceed(w, a, active, s, i, depth, declLevel);
    if Nests(w, Piece(w, a, active, t, depth, declLevel).0, active, s, t.end, depth, declLevel, path) {
      NestingEnds(w, Piece(w, a, active, t, depth, declLevel).0, active, s, t.end, depth, declLevel, path);
    } else if t.Within? {
      WithinEnds(w, a, active, t, depth, declLevel, path);
    } else {
      InnerEnds(w, a, active, t.name, depth, declLevel, path[1..]);
      assert [path[0]] + path[1..] == path;
    }
  }

  lemma BothSucceed(w: World, a: Account, active: set<string>, s: string, i: nat, depth: nat, declLevel: bool)
    requires i < |s| && depth <= MAX_PARAMETER_DEPTH
    requires ExpandedFrom(w, a, active, s, i, depth, declLevel).1.Ok?
    ensures var t := TokenAt(a.params, s, i, declLevel);
            var b := Piece(w, a, active, t, depth, declLevel).0;
            Piece(w, a, active, t, depth, declLevel).1.Ok?
            && ExpandedFrom(w, b, active, s, t.end, depth, declLevel).1.Ok?
  {
  }

  lemma {:induction false} WithinEnds(w: World, a: Account, active: set<string>, t: Token, depth: nat, declLevel: bool,
                                      path: seq<string>)
    requires t.Within? && '%' in t.inner && depth < MAX_PARAMETER_DEPTH && path != []
    requires Piece(w, a, active, t, depth, declLevel).1.Ok?
    requires Nests(w, a, active, t.inner, 0, depth + 1, declLevel, path)
    ensures Ends(active, depth, path)
    decreases MAX_PARAMETER_DEPTH + 1 - depth, 0
  {
    WithinSucceeds(w, a, active, t, depth, declLevel);
    NestingEnds(w, a, active, t.inner, 0, depth + 1, declLevel, path);
  }

  lemma {:induction false} InnerEnds(w: World, a: Account, active: set<string>, name: string, depth: nat,
                                     declLevel: bool, path: seq<string>)
    requires name in a.params && depth <= MAX_PARAMETER_DEPTH
    requires Substituted(w, a, active, name, depth, declLevel).1.Ok?
    requires NestsIn(w, a, active, name, depth, declLevel, path)
    ensures Ends(active, depth, [name] + path)
    decreases MAX_PARAMETER_DEPTH + 1 - depth, 0
  {
    var (b, got) := Looked(w, a, a.params[name]);
    if path != [] {
      NestingEnds(w, b, active + {name}, got.text, 0, depth + 1, declLevel, path);
    }
    EndsWithin(active, depth, path, name);
  }
}
