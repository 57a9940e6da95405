/** Conditional sections of an external subset: an INCLUDE section stands for its
    contents, an IGNORE section for nothing, and both nest. */
module SectionText {
  import opened Basics

  /** A place in a text, or none. */
  datatype Place = Nowhere | At(place: nat)

  datatype Fault = TooDeep | TooManyDocuments | TooLarge | NotFound | Recursive(name: string) | Malformed

  datatype Result = Ok(text: string) | Err(fault: Fault)

  const MAX_CONDITIONAL_DEPTH: nat := 40
  const OPEN := "<!["
  const CLOSE := "]]>"

  predicate Opens(s: string) { |s| >= 3 && s[0] == '<' && s[1] == '!' && s[2] == '[' }

  predicate Closes(s: string) { |s| >= 3 && s[0] == ']' && s[1] == ']' && s[2] == '>' }

  function Later(at: Place, n: nat): Place {
    if at.Nowhere? then Nowhere else At(at.place + n)
  }

  /** Where the next section opens. */
  function NextOpen(s: string): (at: Place)
    ensures at.At? ==> at.place + 3 <= |s|
  {
    if Opens(s) then At(0) else if s == [] then Nowhere else Later(NextOpen(s[1..]), 1)
  }

  /** Where the section whose contents begin `s` is closed, `depth` more being open. */
  function SectionEnd(s: string, depth: nat): (end: Place)
    ensures end.At? ==> end.place + 3 <= |s|
    decreases |s|
  {
    if |s| < 2 then Nowhere
    else if Opens(s) then Later(SectionEnd(s[3..], depth + 1), 3)
    else if Closes(s) then
      if depth == 0 then At(0) else Later(SectionEnd(s[3..], depth - 1), 3)
    else Later(SectionEnd(s[1..], depth), 1)
  }

  lemma EndStep(s: string, i: nat, depth: nat)
    requires i + 2 <= |s|
    ensures Opens(s[i..]) ==> SectionEnd(s[i..], depth) == Later(SectionEnd(s[i + 3..], depth + 1), 3)
    ensures (Closes(s[i..])
             ==> SectionEnd(s[i..], depth) == if depth == 0 then At(0) else Later(SectionEnd(s[i + 3..], depth - 1), 3))
    ensures (!Opens(s[i..]) && !Closes(s[i..])
             ==> SectionEnd(s[i..], depth) == Later(SectionEnd(s[i + 1..], depth), 1))
  {
    if |s[i..]| >= 3 {
      assert s[i..][3..] == s[i + 3..];
    }
    assert s[i..][1..] == s[i + 1..];
  }

  /** The same by a scan that counts the sections it has entered. */
  method MatchingSectionEnd(s: string) returns (end: Place)
    ensures end == SectionEnd(s, 0)
  {
    var depth: nat := 0;
    var i := 0;
    assert s[0..] == s;
    while i + 2 <= |s|
      invariant i <= |s|
      invariant SectionEnd(s, 0) == Later(SectionEnd(s[i..], depth), i)
      decreases |s| - i
    {
      EndStep(s, i, depth);
      var t := s[i..];
      if Opens(t) {
        depth, i := depth + 1, i + 3;
      } else if Closes(t) {
        if depth == 0 { return At(i); }
        depth, i := depth - 1, i + 3;
      } else {
        i := i + 1;
      }
    }
    end := Nowhere;
  }

  // ---- resolving ---------------------------------------------------------

  predicate HasPrefix(s: string, p: string) { |p| <= |s| && s[..|p|] == p }

  function Keyword(included: bool): string { if included then "INCLUDE" else "IGNORE" }

  /** Whether a section is included, and what follows the keyword. */
  datatype Word = NoWord | Word(included: bool, after: string)

  function ReadKeyword(s: string): (r: Word)
    ensures r.Word? ==> |r.after| <= |s|
  {
    if HasPrefix(s, Keyword(true)) then Word(true, s[|Keyword(true)|..])
    else if HasPrefix(s, Keyword(false)) then Word(false, s[|Keyword(false)|..])
    else NoWord
  }

  function Before(text: string, r: Result): Result { if r.Err? then r else Ok(text + r.text) }

  function Both(r: Result, s: Result): Result { if r.Err? then r else Before(r.text, s) }

  /** What begins just after a `<![`. */
  datatype Start = NotASection | Broken | Opened(included: bool, body: string, after: string)

  function ReadSection(rest: string): (x: Start)
    ensures x.Opened? ==> |x.body| + |x.after| + 3 <= |rest|
  {
    match ReadKeyword(TrimLeft(rest))
    case NoWord => NotASection
    case Word(included, kw) =>
      var t := TrimLeft(kw);
      if t == [] || t[0] != '[' then Broken
      else
        match SectionEnd(t[1..], 0)
        case Nowhere => Broken
        case At(end) => Opened(included, t[1..][..end], t[1..][end + 3..])
  }

  function Resolved(s: string, depth: nat): Result
    decreases |s|, 1
  {
    if depth > MAX_CONDITIONAL_DEPTH then Err(TooDeep) else Sections(s, depth)
  }

  function Sections(s: string, depth: nat): Result
    decreases |s|, 0
  {
    match NextOpen(s)
    case Nowhere => Ok(s)
    case At(i) =>
      match ReadSection(s[i + 3..])
      case NotASection => Before(s[..i] + OPEN, Sections(s[i + 3..], depth))
      case Broken => Err(Malformed)
      case Opened(included, body, after) =>
        Before(s[..i], Both(if included then Resolved(body, depth + 1) else Ok(""), Sections(after, depth)))
  }

  lemma BothTwice(a: string, r: Result, s: Result)
    ensures Before(a, Both(r, s)) == if r.Err? then r else Before(a + r.text, s)
  {
    if r.Ok? && s.Ok? {
      assert a + (r.text + s.text) == (a + r.text) + s.text;
    }
  }

  /** The same, section after section. */
  method Conditionals(text: string, depth: nat) returns (r: Result)
    ensures r == Resolved(text, depth)
    decreases |text|, 1
  {
    if depth > MAX_CONDITIONAL_DEPTH { return Err(TooDeep); }
    var subset, sb := text, "";
    var i := NextOpen(subset);
    while i.At?
      invariant |subset| <= |text| && i == NextOpen(subset)
      invariant Sections(text, depth) == Before(sb, Sections(subset, depth))
      decreases |subset|
    {
      var piece, after := NextPiece(subset, i.place, depth);
      BothTwice(sb, piece, Sections(after, depth));
      if piece.Err? { return piece; }
      sb := sb + piece.text;
      subset := after;
      i := NextOpen(subset);
    }
    r := Ok(sb + subset);
  }

  /** What the text up to and with one section comes to, and the text after it. */
  method NextPiece(subset: string, i: nat, depth: nat) returns (piece: Result, after: string)
    requires NextOpen(subset) == At(i)
    ensures |after| < |subset|
    ensures Sections(subset, depth) == Both(piece, Sections(after, depth))
    decreases |subset|, 0
  {
    after := subset[i + 3..];
    var section := OneSection(subset, i);
    match section {
      case NotASection =>
        piece := Ok(subset[..i] + OPEN);
      case Broken =>
        piece := Err(Malformed);
      case Opened(included, body, rest) =>
        var inner := Ok("");
        if included { inner := Conditionals(body, depth + 1); }
        after := rest;
        BothTwice(subset[..i], inner, Sections(rest, depth));
        piece := Before(subset[..i], inner);
    }
  }

  /** One section, from where it opens. */
  method OneSection(subset: string, i: nat) returns (x: Start)
    requires i + 3 <= |subset|
    ensures x == ReadSection(subset[i + 3..])
  {
    var rest := subset[i + 3..];
    match ReadKeyword(TrimLeft(rest)) {
      case NoWord => return NotASection;
      case Word(included, after) =>
        var kw := TrimLeft(after);
        if kw == [] || kw[0] != '[' { return Broken; }
        var body := kw[1..];
        var end := MatchingSectionEnd(body);
        if end.Nowhere? { return Broken; }
        return Opened(included, body[..end.place], body[end.place + 3..]);
    }
  }

  predicate Within(r: Result, n: int) { r.Ok? ==> |r.text| <= n }

  lemma JoinsWithin(text: string, r: Result, n: int, s: Result, m: int)
    requires Within(r, n) && Within(s, m)
    ensures Within(Before(text, s), |text| + m) && Within(Before(text, Both(r, s)), |text| + n + m)
  {
  }

  /** Resolving never lengthens a text. */
  lemma {:induction false} SectionsShrink(s: string, depth: nat)
    ensures Within(Sections(s, depth), |s|)
    decreases |s|
  {
    var i := NextOpen(s);
    if i.At? {
      match ReadSection(s[i.place + 3..])
      case NotASection =>
        SectionsShrink(s[i.place + 3..], depth);
        JoinsWithin(s[..i.place] + OPEN, Ok(""), 0, Sections(s[i.place + 3..], depth), |s| - i.place - 3);
      case Broken =>
      case Opened(included, body, after) =>
        SectionsShrink(body, depth + 1);
        SectionsShrink(after, depth);
        JoinsWithin(s[..i.place], if included then Resolved(body, depth + 1) else Ok(""), |body|,
                    Sections(after, depth), |after|);
    }
  }

  // ---- what sections mean ------------------------------------------------

  /** What is ignored: text, and anything between a `<![` and its `]]>`, keyword or not. */
  datatype Ignore = Bare(text: string) | Nested(before: string, inside: Ignore, rest: Ignore)

  /** A subset as its author sees it: text, then a section and all that follows it. */
  datatype Subset =
    | Last(text: string)
    | Included(before: string, gap: string, gap2: string, body: Subset, rest: Subset)
    | Ignored(before: string, gap: string, gap2: string, contents: Ignore, rest: Subset)

  function Head(x: Subset): string
    requires !x.Last?
  {
    x.gap + (if x.Included? then "INCLUDE" else "IGNORE") + x.gap2 + "["
  }

  function WriteIgnored(c: Ignore): string {
    match c
    case Bare(text) => text
    case Nested(before, inside, rest) => before + (OPEN + ("" + (WriteIgnored(inside) + (CLOSE + WriteIgnored(rest)))))
  }

  /** What a section holds. */
  function Inside(x: Subset): string
    requires !x.Last?
    decreases x, 0
  {
    if x.Included? then Write(x.body) else WriteIgnored(x.contents)
  }

  function Write(x: Subset): string
    decreases x, 1
  {
    if x.Last? then x.text else x.before + (OPEN + (Head(x) + (Inside(x) + (CLOSE + Write(x.rest)))))
  }

  /** Its declarations: what is outside every IGNORE section. */
  function Kept(x: Subset): string {
    match x
    case Last(text) => text
    case Included(before, _, _, body, rest) => before + (Kept(body) + Kept(rest))
    case Ignored(before, _, _, _, rest) => before + ("" + Kept(rest))
  }

  /** How deep INCLUDE sections nest; what is ignored is not entered. */
  function Depth(x: Subset): nat {
    match x
    case Last(_) => 0
    case Included(_, _, _, body, rest) => if Depth(body) + 1 > Depth(rest) then Depth(body) + 1 else Depth(rest)
    case Ignored(_, _, _, _, rest) => Depth(rest)
  }

  /** No delimiter begins anywhere in `t`. */
  predicate Clean(t: string) {
    t == [] || (!Opens(t) && !Closes(t) && Clean(t[1..]))
  }

  predicate AllSpace(t: string) { forall c | c in t :: IsSpace(c) }

  predicate CleanIgnored(c: Ignore) {
    match c
    case Bare(text) => Clean(text)
    case Nested(before, inside, rest) => Clean(before) && CleanIgnored(inside) && CleanIgnored(rest)
  }

  predicate WellMade(x: Subset) {
    match x
    case Last(text) => Clean(text)
    case Included(before, gap, gap2, body, rest) =>
      Clean(before) && WellMade(body) && WellMade(rest) && AllSpace(gap) && AllSpace(gap2)
    case Ignored(before, gap, gap2, contents, rest) =>
      Clean(before) && CleanIgnored(contents) && WellMade(rest) && AllSpace(gap) && AllSpace(gap2)
  }

  // ---- they resolve to what they mean ------------------------------------

  /** Scanning for the end passes over text that has no delimiters. */
  lemma {:induction false} PassesClean(t: string, tail: string, depth: nat)
    requires Clean(t) && (Opens(tail) || Closes(tail))
    ensures SectionEnd(t + tail, depth) == Later(SectionEnd(tail, depth), |t|)
  {
    if t == [] {
      assert t + tail == tail;
    } else {
      assert (t + tail)[1..] == t[1..] + tail;
      PassesClean(t[1..], tail, depth);
    }
  }

  /** The same for text without the characters that begin one, whatever follows. */
  lemma {:induction false} PassesDull(t: string, tail: string, depth: nat)
    requires (forall c | c in t :: c != '<' && c != ']') && |tail| >= 2
    ensures SectionEnd(t + tail, depth) == Later(SectionEnd(tail, depth), |t|)
  {
    if t == [] {
      assert t + tail == tail;
    } else {
      assert (t + tail)[0] == t[0] && t[0] in t;
      assert (t + tail)[1..] == t[1..] + tail;
      assert forall c | c in t[1..] :: c in t;
      PassesDull(t[1..], tail, depth);
    }
  }

  lemma HeadIsDull(x: Subset)
    requires !x.Last? && WellMade(x)
    ensures forall c | c in Head(x) :: c != '<' && c != ']'
  {
    forall c | c in Head(x)
      ensures c != '<' && c != ']'
    {
      assert c in x.gap || c in Keyword(x.Included?) || c in x.gap2 || c == '[';
    }
  }

  lemma PassesOpen(u: string, depth: nat)
    ensures SectionEnd(OPEN + u, depth) == Later(SectionEnd(u, depth + 1), 3)
  {
    assert (OPEN + u)[3..] == u && Opens(OPEN + u);
  }

  lemma PassesClose(u: string, depth: nat)
    ensures SectionEnd(CLOSE + u, depth + 1) == Later(SectionEnd(u, depth), 3)
    ensures SectionEnd(CLOSE + u, 0) == At(0)
  {
    assert (CLOSE + u)[3..] == u && Closes(CLOSE + u);
  }

  /** What is ignored is passed over whole, whatever its sections are called. */
  lemma {:induction false} PassesIgnored(c: Ignore, tail: string, depth: nat)
    requires CleanIgnored(c) && Closes(tail)
    ensures SectionEnd(WriteIgnored(c) + tail, depth) == Later(SectionEnd(tail, depth), |WriteIgnored(c)|)
    decreases c
  {
    match c
    case Bare(text) =>
      PassesClean(text, tail, depth);
    case Nested(before, inside, rest) =>
      var t := WriteIgnored(rest) + tail;
      PassesIgnored(rest, tail, depth);
      PassesClose(t, depth);
      PassesIgnored(inside, CLOSE + t, depth + 1);
      PassesSection(before, "", WriteIgnored(inside), WriteIgnored(rest), tail, depth);
  }

  /** A well-made subset is passed over whole: what it opens it closes. */
  lemma {:induction false} PassesOver(x: Subset, tail: string, depth: nat)
    requires WellMade(x) && Closes(tail)
    ensures SectionEnd(Write(x) + tail, depth) == Later(SectionEnd(tail, depth), |Write(x)|)
    decreases x, 1
  {
    if x.Last? {
      PassesClean(x.text, tail, depth);
    } else {
      PassesOver(x.rest, tail, depth);
      PassesClose(Write(x.rest) + tail, depth);
      PassesInside(x, CLOSE + (Write(x.rest) + tail), depth + 1);
      HeadIsDull(x);
      PassesSection(x.before, Head(x), Inside(x), Write(x.rest), tail, depth);
    }
  }

  lemma {:induction false} PassesInside(x: Subset, tail: string, depth: nat)
    requires WellMade(x) && !x.Last? && Closes(tail)
    ensures SectionEnd(Inside(x) + tail, depth) == Later(SectionEnd(tail, depth), |Inside(x)|)
    decreases x, 0
  {
    if x.Included? { PassesOver(x.body, tail, depth); } else { PassesIgnored(x.contents, tail, depth); }
  }

  lemma PassesSection(before: string, head: string, body: string, rest: string, tail: string, depth: nat)
    requires Clean(before) && forall c | c in head :: c != '<' && c != ']'
    requires SectionEnd(body + (CLOSE + (rest + tail)), depth + 1)
          == Later(SectionEnd(CLOSE + (rest + tail), depth + 1), |body|)
    requires SectionEnd(CLOSE + (rest + tail), depth + 1) == Later(SectionEnd(rest + tail, depth), 3)
    requires SectionEnd(rest + tail, depth) == Later(SectionEnd(tail, depth), |rest|)
    ensures SectionEnd(before + (OPEN + (head + (body + (CLOSE + rest)))) + tail, depth)
         == Later(SectionEnd(tail, depth), |before| + 3 + |head| + |body| + 3 + |rest|)
  {
    var t2 := body + (CLOSE + (rest + tail));
    Regrouped(before, head, body, rest, tail);
    PassesFront(before, head, t2, depth);
  }

  lemma Regrouped(before: string, head: string, body: string, rest: string, tail: string)
    ensures before + (OPEN + (head + (body + (CLOSE + rest)))) + tail
         == before + (OPEN + (head + (body + (CLOSE + (rest + tail)))))
  {
  }

  lemma PassesFront(before: string, head: string, t: string, depth: nat)
    requires Clean(before) && (forall c | c in head :: c != '<' && c != ']') && |t| >= 2
    ensures SectionEnd(before + (OPEN + (head + t)), depth)
         == Later(SectionEnd(t, depth + 1), |before| + 3 + |head|)
  {
    PassesClean(before, OPEN + (head + t), depth);
    PassesOpen(head + t, depth);
    PassesDull(head, t, depth + 1);
  }

  lemma {:induction false} FirstOpen(t: string, tail: string)
    requires Clean(t)
    ensures Opens(tail) ==> NextOpen(t + tail) == At(|t|)
    ensures tail == [] ==> NextOpen(t + tail) == Nowhere
  {
    if t == [] {
      assert t + tail == tail;
    } else {
      FirstOpen(t[1..], tail);
      assert (t + tail)[1..] == t[1..] + tail;
    }
  }

  lemma {:induction false} Trims(gap: string, t: string)
    requires AllSpace(gap) && t != [] && !IsSpace(t[0])
    ensures TrimLeft(gap + t) == t
  {
    if gap == [] {
      assert gap + t == t;
    } else {
      assert (gap + t)[0] == gap[0] && gap[0] in gap;
      Trims(gap[1..], t);
      assert (gap + t)[1..] == gap[1..] + t;
    }
  }

  lemma KeywordIsRead(included: bool, t: string)
    ensures ReadKeyword(Keyword(included) + t) == Word(included, t)
  {
    var s := Keyword(included) + t;
    assert s[..|Keyword(included)|] == Keyword(included) && s[|Keyword(included)|..] == t;
    if !included {
      assert s[1] == 'G';
      assert |s| >= 7 ==> s[..7][1] == 'G' && Keyword(true)[1] == 'N';
    }
  }

  lemma BodyEnds(x: Subset, rest: string)
    requires WellMade(x) && !x.Last?
    ensures var t := Inside(x) + (CLOSE + rest);
            SectionEnd(t, 0) == At(|Inside(x)|) && t[..|Inside(x)|] == Inside(x) && t[|Inside(x)| + 3..] == rest
  {
    assert Closes(CLOSE + rest);
    PassesInside(x, CLOSE + rest, 0);
    PassesClose(rest, 0);
  }

  /** The head of a section is read, whatever spaces surround its keyword, and its
      contents are told from what follows it. */
  lemma SectionIsRead(x: Subset)
    requires !x.Last? && WellMade(x)
    ensures ReadSection(Head(x) + (Inside(x) + (CLOSE + Write(x.rest))))
         == Opened(x.Included?, Inside(x), Write(x.rest))
  {
    var body := Inside(x) + (CLOSE + Write(x.rest));
    HeadIsRead(x, body);
    BodyEnds(x, Write(x.rest));
    SectionRead(Head(x) + body, x.Included?, x.gap2 + ("[" + body), body, |Inside(x)|);
  }

  lemma SectionRead(rest: string, included: bool, kw: string, body: string, end: nat)
    requires ReadKeyword(TrimLeft(rest)) == Word(included, kw)
    requires TrimLeft(kw) == "[" + body && ("[" + body)[1..] == body
    requires SectionEnd(body, 0) == At(end) && end + 3 <= |body|
    ensures ReadSection(rest) == Opened(included, body[..end], body[end + 3..])
  {
  }

  lemma HeadIsRead(x: Subset, t: string)
    requires !x.Last? && WellMade(x)
    ensures ReadKeyword(TrimLeft(Head(x) + t)) == Word(x.Included?, x.gap2 + ("[" + t))
    ensures TrimLeft(x.gap2 + ("[" + t)) == "[" + t && ("[" + t)[1..] == t
  {
    var kw := x.gap2 + ("[" + t);
    assert Head(x) + t == x.gap + (Keyword(x.Included?) + kw);
    Trims(x.gap, Keyword(x.Included?) + kw);
    KeywordIsRead(x.Included?, kw);
    Trims(x.gap2, "[" + t);
  }

  lemma SectionUnfolds(x: Subset, depth: nat)
    requires !x.Last? && WellMade(x)
    ensures Sections(Write(x), depth)
         == Before(x.before, Both(if x.Included? then Resolved(Inside(x), depth + 1) else Ok(""),
                                  Sections(Write(x.rest), depth)))
  {
    SectionIsRead(x);
    var t := Head(x) + (Inside(x) + (CLOSE + Write(x.rest)));
    SectionsAre(x.before, t, x.Included?, Inside(x), Write(x.rest), depth);
  }

  lemma SectionsAre(before: string, t: string, included: bool, inside: string, after: string, depth: nat)
    requires Clean(before) && ReadSection(t) == Opened(included, inside, after)
    ensures Sections(before + (OPEN + t), depth)
         == Before(before, Both(if included then Resolved(inside, depth + 1) else Ok(""), Sections(after, depth)))
  {
    OpensAt(before, t);
    Parted(before, OPEN, t);
  }

  lemma OpensAt(before: string, t: string)
    requires Clean(before)
    ensures NextOpen(before + (OPEN + t)) == At(|before|)
  {
    assert Opens(OPEN + t);
    FirstOpen(before, OPEN + t);
  }

  lemma Parted(before: string, open: string, t: string)
    requires |open| == 3
    ensures (before + (open + t))[..|before|] == before && (before + (open + t))[|before| + 3..] == t
  {
  }

  predicate Right(r: Result, fits: bool, kept: string) { r == if fits then Ok(kept) else Err(TooDeep) }

  lemma JoinsRight(before: string, r: Result, inFits: bool, inKept: string, s: Result, restFits: bool, restKept: string)
    requires Right(r, inFits, inKept) && Right(s, restFits, restKept)
    ensures Right(Before(before, Both(r, s)), inFits && restFits, before + (inKept + restKept))
  {
  }

  /** Resolving the text of any subset gives its declarations exactly, unless its INCLUDE
      sections nest beyond the limit; then it is refused. */
  lemma {:induction false} SectionsExact(x: Subset, depth: nat)
    requires WellMade(x)
    ensures Right(Resolved(Write(x), depth), depth + Depth(x) <= MAX_CONDITIONAL_DEPTH, Kept(x))
    decreases x
  {
    if depth <= MAX_CONDITIONAL_DEPTH {
      if x.Last? {
        FirstOpen(x.text, []);
        assert x.text + [] == x.text;
      } else {
        SectionsExact(x.rest, depth);
        if x.Included? { SectionsExact(x.body, depth + 1); }
        SectionRight(x, depth);
      }
    }
  }

  lemma SectionRight(x: Subset, depth: nat)
    requires !x.Last? && WellMade(x) && depth <= MAX_CONDITIONAL_DEPTH
    requires Right(Resolved(Write(x.rest), depth), depth + Depth(x.rest) <= MAX_CONDITIONAL_DEPTH, Kept(x.rest))
    requires x.Included? ==>
      Right(Resolved(Write(x.body), depth + 1), depth + 1 + Depth(x.body) <= MAX_CONDITIONAL_DEPTH, Kept(x.body))
    ensures Right(Resolved(Write(x), depth), depth + Depth(x) <= MAX_CONDITIONAL_DEPTH, Kept(x))
  {
    SectionUnfolds(x, depth);
    var rest := Sections(Write(x.rest), depth);
    var restFits := depth + Depth(x.rest) <= MAX_CONDITIONAL_DEPTH;
    if x.Included? {
      JoinsRight(x.before, Resolved(Write(x.body), depth + 1), depth + 1 + Depth(x.body) <= MAX_CONDITIONAL_DEPTH,
                 Kept(x.body), rest, restFits, Kept(x.rest));
    } else {
      JoinsRight(x.before, Ok(""), true, "", rest, restFits, Kept(x.rest));
    }
  }

  // ---- a delimiter inside a literal --------------------------------------

  /** A `]]>` in the middle of what is included, as a literal or a comment may have it,
      ends the section there, and the `]]>` that should end it is left in the text. */
  lemma ClosesEarly(x: Subset, p: string, q: string)
    requires x.Included? && WellMade(x) && Clean(p) && Clean(q)
    ensures Resolved(OPEN + (Head(x) + (p + CLOSE + q + CLOSE)), 0) == Ok(p + q + CLOSE)
  {
    var after := q + CLOSE;
    ReadEarly(x, p, after);
    SectionOf(Head(x) + (p + (CLOSE + after)), p, after);
    Grouped(p, CLOSE, q);
    PlainText(p, q);
  }

  lemma Grouped(p: string, c: string, q: string)
    ensures p + c + q + c == p + (c + (q + c)) && p + (q + c) == p + q + c
  {
  }

  lemma ReadEarly(x: Subset, p: string, after: string)
    requires x.Included? && WellMade(x) && Clean(p)
    ensures ReadSection(Head(x) + (p + (CLOSE + after))) == Opened(true, p, after)
  {
    var t := p + (CLOSE + after);
    HeadIsRead(x, t);
    PassesClean(p, CLOSE + after, 0);
    PassesClose(after, 0);
    assert t[..|p|] == p && t[|p| + 3..] == after;
  }

  lemma SectionOf(t: string, body: string, after: string)
    requires ReadSection(t) == Opened(true, body, after)
    ensures Resolved(OPEN + t, 0) == Both(Resolved(body, 1), Sections(after, 0))
  {
    SectionsAre("", t, true, body, after, 0);
    NothingBefore(OPEN + t, Both(Resolved(body, 1), Sections(after, 0)));
  }

  lemma NothingBefore(s: string, r: Result)
    ensures "" + s == s && Before("", r) == r
  {
    if r.Ok? { assert "" + r.text == r.text; }
  }

  lemma PlainText(p: string, q: string)
    requires Clean(p) && Clean(q)
    ensures Both(Resolved(p, 1), Sections(q + CLOSE, 0)) == Ok(p + (q + CLOSE))
  {
    FirstOpen(p, []);
    NoneOpens(q);
    assert p + [] == p;
  }

  lemma {:induction false} NoneOpens(q: string)
    requires Clean(q)
    ensures NextOpen(q + CLOSE) == Nowhere
  {
    if q == [] {
      assert q + CLOSE == CLOSE;
      assert NextOpen(CLOSE[3..]) == Nowhere && CLOSE[1..][1..] == CLOSE[2..] && CLOSE[2..][1..] == CLOSE[3..];
    } else {
      NoneOpens(q[1..]);
      assert (q + CLOSE)[1..] == q[1..] + CLOSE;
    }
  }

  /** The declaration of an entity whose value is `]]>`, included. */
  lemma LiteralSplit(x: Subset)
    requires x.Included? && WellMade(x)
    ensures var (p, q) := ("<!ENTITY x \"", "\">");
            Resolved(OPEN + (Head(x) + (p + CLOSE + q + CLOSE)), 0) == Ok(p + q + CLOSE)
  {
    var (p, q) := ("<!ENTITY x \"", "\">");
    NoBrackets(p);
    NoBrackets(q);
    ClosesEarly(x, p, q);
  }

  lemma {:induction false} NoBrackets(t: string)
    requires forall c | c in t :: c != '[' && c != ']'
    ensures Clean(t)
  {
    if t != [] {
      assert t[0] in t && forall c | c in t[1..] :: c in t;
      assert |t| >= 3 ==> t[2] in t;
      NoBrackets(t[1..]);
    }
  }

  // ---- what is not a section, and what is a broken one -------------------

  /** Neither keyword comes first, once spaces are skipped. */
  ghost predicate Wordless(s: string) {
    exists j | 0 <= j <= |s| ::
      && AllSpace(s[..j]) && (j == |s| || !IsSpace(s[j]))
      && !("INCLUDE" <= s[j..]) && !("IGNORE" <= s[j..])
  }

  /** No keyword follows any `<![` that begins in `t`, `s` being what comes after. */
  ghost predicate Foreign(t: string, s: string) {
    forall i | 0 <= i < |t| && Opens((t + s)[i..]) :: i + 3 <= |t| && Wordless((t + s)[i + 3..])
  }

  lemma {:induction false} TrimsAt(s: string, j: nat)
    requires j <= |s| && AllSpace(s[..j]) && (j == |s| || !IsSpace(s[j]))
    ensures TrimLeft(s) == s[j..]
  {
    if j > 0 {
      assert s[0] == s[..j][0] && s[..j][0] in s[..j];
      assert s[1..][..j - 1] == s[..j][1..] && s[1..][j - 1..] == s[j..];
      assert forall c | c in s[..j][1..] :: c in s[..j];
      TrimsAt(s[1..], j - 1);
    }
  }

  lemma NotPrefixed(s: string, p: string)
    requires !(p <= s)
    ensures !HasPrefix(s, p)
  {
  }

  lemma WordlessReads(s: string)
    requires Wordless(s)
    ensures ReadSection(s) == NotASection
  {
    var j :| 0 <= j <= |s| && AllSpace(s[..j]) && (j == |s| || !IsSpace(s[j]))
      && !("INCLUDE" <= s[j..]) && !("IGNORE" <= s[j..]);
    TrimsAt(s, j);
    NotPrefixed(s[j..], Keyword(true));
    NotPrefixed(s[j..], Keyword(false));
  }

  /** Sections when the first `<![` has `front` before and `rest` after it. */
  function FirstSection(front: string, rest: string, depth: nat): Result {
    match ReadSection(rest)
    case NotASection => Before(front + OPEN, Sections(rest, depth))
    case Broken => Err(Malformed)
    case Opened(included, body, after) =>
      Before(front, Both(if included then Resolved(body, depth + 1) else Ok(""), Sections(after, depth)))
  }

  lemma SectionsAt(u: string, front: string, rest: string, depth: nat)
    requires NextOpen(u) == At(|front|) && u[..|front|] == front && u[|front| + 3..] == rest
    ensures Sections(u, depth) == FirstSection(front, rest, depth)
  {
  }

  lemma Copies(a: string, b: string, r: Result)
    ensures Before(a + b, r) == Before(a, Before(b, r))
  {
    if r.Ok? { assert a + (b + r.text) == a + b + r.text; }
  }

  lemma MoreInFront(c: string, front: string, rest: string, depth: nat)
    ensures FirstSection(c + front, rest, depth) == Before(c, FirstSection(front, rest, depth))
  {
    match ReadSection(rest)
    case NotASection =>
      assert c + front + OPEN == c + (front + OPEN);
      Copies(c, front + OPEN, Sections(rest, depth));
    case Broken =>
    case Opened(included, body, after) =>
      Copies(c, front, Both(if included then Resolved(body, depth + 1) else Ok(""), Sections(after, depth)));
  }

  /** What comes before the next `<![` is copied, character by character. */
  lemma CharacterCopied(u: string, depth: nat)
    requires u != [] && !Opens(u)
    ensures Sections(u, depth) == Before([u[0]], Sections(u[1..], depth))
  {
    var i := NextOpen(u[1..]);
    if i.At? {
      var (front, rest) := (u[1..][..i.place], u[1..][i.place + 3..]);
      ShiftedBy(u, i.place);
      SectionsAt(u[1..], front, rest, depth);
      SectionsAt(u, [u[0]] + front, rest, depth);
      MoreInFront([u[0]], front, rest, depth);
    } else {
      assert u == [u[0]] + u[1..];
    }
  }

  lemma ShiftedBy(u: string, n: nat)
    requires n + 4 <= |u|
    ensures u[..n + 1] == [u[0]] + u[1..][..n] && u[n + 1 + 3..] == u[1..][n + 3..]
  {
  }

  lemma OpenCopied(u: string, depth: nat)
    requires Opens(u) && Wordless(u[3..])
    ensures Sections(u, depth) == Before(OPEN, Sections(u[3..], depth))
  {
    WordlessReads(u[3..]);
    assert u[..0] == "" && "" + OPEN == OPEN;
    SectionsAt(u, "", u[3..], depth);
  }

  /** Text none of whose `<![` is followed by a keyword is copied, whatever comes after;
      an entity that was never declared leaves such a text. */
  lemma {:induction false} CopiesForeign(t: string, s: string, depth: nat)
    requires Foreign(t, s)
    ensures Sections(t + s, depth) == Before(t, Sections(s, depth))
    decreases |t|
  {
    if t == [] {
      assert t + s == s;
    } else {
      var k := ForeignStep(t, s, depth);
      ForeignOn(t, s, k);
      CopiesForeign(t[k..], s, depth);
      Copies(t[..k], t[k..], Sections(s, depth));
      assert t == t[..k] + t[k..];
    }
  }

  lemma ForeignStep(t: string, s: string, depth: nat) returns (k: nat)
    requires Foreign(t, s) && t != []
    ensures 0 < k <= |t| && Sections(t + s, depth) == Before(t[..k], Sections(t[k..] + s, depth))
  {
    var u := t + s;
    if Opens(u) {
      k := 3;
      FirstForeign(t, s);
      OpenCopied(u, depth);
    } else {
      k := 1;
      CharacterCopied(u, depth);
    }
    TakenOff(t, s, k);
  }

  lemma TakenOff(t: string, s: string, k: nat)
    requires 0 < k <= |t|
    ensures (t + s)[..k] == t[..k] && (t + s)[k..] == t[k..] + s && t[..1] == [(t + s)[0]]
  {
  }

  lemma FirstForeign(t: string, s: string)
    requires Foreign(t, s) && t != [] && Opens(t + s)
    ensures 3 <= |t| && t[..3] == OPEN && Wordless((t + s)[3..])
  {
    var u := t + s;
    assert u[0..] == u;
    assert 3 <= |t| && Wordless(u[0 + 3..]);
    assert t[..3] == [u[0], u[1], u[2]];
  }

  lemma ForeignOn(t: string, s: string, k: nat)
    requires Foreign(t, s) && k <= |t|
    ensures Foreign(t[k..], s)
  {
    var (u, v) := (t + s, t[k..] + s);
    forall i | 0 <= i < |t[k..]| && Opens(v[i..]) ensures i + 3 <= |t[k..]| && Wordless(v[i + 3..]) {
      assert v[i..] == u[i + k..];
      assert v[i + 3..] == u[i + k + 3..];
    }
  }

  /** So a text without sections resolves to itself. */
  lemma ForeignKept(t: string)
    requires Foreign(t, "")
    ensures Resolved(t, 0) == Ok(t)
  {
    CopiesForeign(t, "", 0);
    assert t + "" == t && NextOpen("") == Nowhere;
  }

  /** A keyword that no bracket follows is refused. */
  lemma NoBracket(before: string, gap: string, included: bool, gap2: string, u: string)
    requires Clean(before) && AllSpace(gap) && AllSpace(gap2) && (u != "" ==> u[0] != '[' && !IsSpace(u[0]))
    ensures Resolved(before + (OPEN + (gap + ((if included then "INCLUDE" else "IGNORE") + (gap2 + u)))), 0)
         == Err(Malformed)
  {
    var t := gap + (Keyword(included) + (gap2 + u));
    Trims(gap, Keyword(included) + (gap2 + u));
    KeywordIsRead(included, gap2 + u);
    assert (gap2 + u)[..|gap2|] == gap2 && (gap2 + u)[|gap2|..] == u;
    TrimsAt(gap2 + u, |gap2|);
    RefusedAfter(before, t);
  }

  lemma RefusedAfter(before: string, t: string)
    requires Clean(before) && ReadSection(t) == Broken
    ensures Resolved(before + (OPEN + t), 0) == Err(Malformed)
  {
    OpensAt(before, t);
    Parted(before, OPEN, t);
  }

  lemma {:induction false} NeverEnds(s: string, depth: nat)
    requires forall i | 0 <= i < |s| :: !Closes(s[i..])
    ensures SectionEnd(s, depth) == Nowhere
    decreases |s|
  {
    if |s| >= 2 {
      assert s[0..] == s;
      var k := if Opens(s) then 3 else 1;
      forall i | 0 <= i < |s[k..]| ensures !Closes(s[k..][i..]) { assert s[k..][i..] == s[i + k..]; }
      NeverEnds(s[k..], if Opens(s) then depth + 1 else depth);
    }
  }

  /** So is a section that nothing closes. */
  lemma NotClosed(x: Subset, t: string)
    requires !x.Last? && WellMade(x) && forall i | 0 <= i < |t| :: !Closes(t[i..])
    ensures Resolved(x.before + (OPEN + (Head(x) + t)), 0) == Err(Malformed)
  {
    HeadIsRead(x, t);
    NeverEnds(t, 0);
    RefusedAfter(x.before, Head(x) + t);
  }
}
