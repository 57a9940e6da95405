/** What comments, instructions, declarations, names and text declarations are, said of
    their text alone, and that the scans over a subset find exactly these. */
module ExpansionText {
  import opened Basics
  import opened SectionText
  import opened ExpansionRules

  // ---- first occurrences -------------------------------------------------

  predicate Occurs(s: string, p: string, k: nat) { k <= |s| && p <= s[k..] }

  predicate FirstAt(s: string, p: string, i: nat) { Occurs(s, p, i) && forall k: nat | k < i :: !Occurs(s, p, k) }

  ghost predicate Absent(s: string, p: string) { forall k: nat :: !Occurs(s, p, k) }

  lemma OccursLater(s: string, p: string, k: nat)
    requires s != ""
    ensures Occurs(s[1..], p, k) <==> Occurs(s, p, k + 1)
  {
    if k < |s| { assert s[1..][k..] == s[k + 1..]; }
  }

  lemma FirstLater(s: string, p: string, i: nat)
    requires s != "" && FirstAt(s[1..], p, i) && !Occurs(s, p, 0)
    ensures FirstAt(s, p, i + 1)
  {
    OccursLater(s, p, i);
    forall k: nat | k < i + 1 ensures !Occurs(s, p, k) { if k > 0 { OccursLater(s, p, k - 1); } }
  }

  lemma AbsentLater(s: string, p: string)
    requires s != "" && Absent(s[1..], p) && !Occurs(s, p, 0)
    ensures Absent(s, p)
  {
    forall k: nat ensures !Occurs(s, p, k) { if k > 0 { OccursLater(s, p, k - 1); } }
  }

  lemma {:induction false} IndexIs(s: string, p: string)
    ensures match Index(s, p) case At(i) => FirstAt(s, p, i) case Nowhere => Absent(s, p)
    decreases |s|
  {
    assert s[0..] == s;
    if !(p <= s) && s != "" {
      IndexIs(s[1..], p);
      if Index(s[1..], p).At? { FirstLater(s, p, Index(s[1..], p).place); } else { AbsentLater(s, p); }
    }
  }

  lemma IndexFirst(s: string, p: string, i: nat)
    requires FirstAt(s, p, i)
    ensures Index(s, p) == At(i)
  {
    IndexIs(s, p);
  }

  lemma IndexAbsent(s: string, p: string)
    requires Absent(s, p)
    ensures Index(s, p) == Nowhere
  {
    IndexIs(s, p);
  }

  lemma FirstGrows(s: string, p: string, i: nat, u: string)
    requires FirstAt(s, p, i)
    ensures FirstAt(s + u, p, i)
  {
    assert (s + u)[i..] == s[i..] + u;
    forall k: nat | k < i ensures !Occurs(s + u, p, k) {
      assert !Occurs(s, p, k) && (s + u)[k..] == s[k..] + u && |p| <= |s[k..]|;
    }
  }

  // ---- declarations ------------------------------------------------------

  /** The pieces of a declaration: characters outside literals, and literals. */
  datatype Bits = Done | Plain(c: char, rest: Bits) | Literal(quote: char, body: string, rest: Bits)

  predicate IsQuote(c: char) { c == '"' || c == '\'' }

  function Spell(bits: Bits): string {
    match bits
    case Done => ""
    case Plain(c, rest) => [c] + Spell(rest)
    case Literal(quote, body, rest) => [quote] + body + [quote] + Spell(rest)
  }

  function Opening(c: char): int { if c == '(' then 1 else if c == ')' then -1 else 0 }

  /** How many groups are opened more than closed. */
  function Groups(bits: Bits): int {
    match bits
    case Done => 0
    case Plain(c, rest) => Opening(c) + Groups(rest)
    case Literal(_, _, rest) => Groups(rest)
  }

  /** No `>` among the pieces is outside literals and groups, `depth` being open before. */
  predicate Unended(bits: Bits, depth: int) {
    match bits
    case Done => true
    case Plain(c, rest) => !IsQuote(c) && (c == '>' ==> depth > 0) && Unended(rest, depth + Opening(c))
    case Literal(quote, body, rest) => IsQuote(quote) && quote !in body && Unended(rest, depth)
  }

  /** Text up to a first `>` outside literals and groups. */
  ghost predicate Closed(text: string) {
    exists bits :: Unended(bits, 0) && Groups(bits) <= 0 && text == Spell(bits) + ">"
  }

  /** A tail that ends a declaration nowhere: nothing, or a literal that is not closed. */
  predicate Hanging(tail: string) { tail == "" || (IsQuote(tail[0]) && tail[0] !in tail[1..]) }

  /** Text without such a `>`. */
  ghost predicate Unclosed(text: string) {
    exists bits, tail :: Unended(bits, 0) && Hanging(tail) && text == Spell(bits) + tail
  }

  lemma QuoteAt(quote: char, s: string, k: nat)
    ensures Occurs(s, [quote], k) <==> k < |s| && s[k] == quote
  {
    if k < |s| { assert s[k..][0] == s[k]; }
  }

  lemma FirstQuote(quote: char, body: string, u: string)
    requires quote !in body
    ensures Index(body + [quote] + u, [quote]) == At(|body|)
  {
    var s := body + [quote] + u;
    QuoteAt(quote, s, |body|);
    forall k: nat | k < |body| ensures !Occurs(s, [quote], k) { QuoteAt(quote, s, k); }
    IndexFirst(s, [quote], |body|);
  }

  lemma NoQuote(quote: char, body: string)
    ensures Absent(body, [quote]) <==> quote !in body
  {
    forall k: nat ensures Occurs(body, [quote], k) <==> k < |body| && body[k] == quote { QuoteAt(quote, body, k); }
  }

  lemma PassesPlain(s: string, i: nat, depth: int)
    requires i < |s| && !IsQuote(s[i]) && (s[i] == '>' ==> depth > 0)
    ensures DeclarationEnd(s, i, depth) == DeclarationEnd(s, i + 1, depth + Opening(s[i]))
  {
  }

  lemma PassesLiteral(s: string, i: nat, depth: int, j: nat)
    requires i < |s| && IsQuote(s[i]) && Index(s[i + 1..], [s[i]]) == At(j)
    ensures i + 1 + j + 1 <= |s| && DeclarationEnd(s, i, depth) == DeclarationEnd(s, i + 1 + j + 1, depth)
  {
  }

  lemma PlainThen(s: string, i: nat, c: char, t: string)
    requires i <= |s| && s[i..] == [c] + t
    ensures i < |s| && s[i] == c && s[i + 1..] == t
  {
    assert s[i..][0] == c && s[i..][1..] == t;
  }

  lemma LiteralThen(s: string, i: nat, quote: char, body: string, t: string)
    requires i <= |s| && s[i..] == [quote] + body + [quote] + t && quote !in body
    ensures i < |s| && s[i] == quote && Index(s[i + 1..], [quote]) == At(|body|)
    ensures i + 1 + |body| + 1 <= |s| && s[i + 1 + |body| + 1..] == t
  {
    assert s[i..] == [quote] + (body + [quote] + t);
    PlainThen(s, i, quote, body + [quote] + t);
    FirstQuote(quote, body, t);
    assert s[i + 1..][|body| + 1..] == t;
  }

  lemma Regroup(a: string, b: string, c: string)
    ensures a + b + c == a + (b + c)
  {
  }

  /** The pieces stand in `s` from `i` to `j`. */
  predicate Stand(s: string, i: nat, bits: Bits, j: nat)
    decreases bits
  {
    match bits
    case Done => i == j <= |s|
    case Plain(c, rest) => i < |s| && s[i] == c && Stand(s, i + 1, rest, j)
    case Literal(quote, body, rest) =>
      && i < |s| && s[i] == quote && Index(s[i + 1..], [quote]) == At(|body|)
      && Stand(s, i + 1 + |body| + 1, rest, j)
  }

  lemma {:induction false} SpeltStand(s: string, i: nat, bits: Bits, depth: int, t: string, u: string)
    requires i <= |s| && t == Spell(bits) && s[i..] == t + u && Unended(bits, depth)
    ensures Stand(s, i, bits, i + |t|)
    decreases bits
  {
    match bits
    case Done =>
    case Plain(c, rest) =>
      Regroup([c], Spell(rest), u);
      PlainThen(s, i, c, Spell(rest) + u);
      SpeltStand(s, i + 1, rest, depth + Opening(c), Spell(rest), u);
    case Literal(quote, body, rest) =>
      Regroup([quote] + body + [quote], Spell(rest), u);
      LiteralThen(s, i, quote, body, Spell(rest) + u);
      SpeltStand(s, i + 1 + |body| + 1, rest, depth, Spell(rest), u);
  }

  /** The scan passes all the pieces. */
  lemma {:induction false} PassesBits(s: string, i: nat, depth: int, bits: Bits, j: nat, over: int, end: Place)
    requires Stand(s, i, bits, j) && Unended(bits, depth) && i <= |s| && end == DeclarationEnd(s, i, depth)
    requires over == depth + Groups(bits)
    ensures j <= |s| && end == DeclarationEnd(s, j, over)
    decreases bits
  {
    match bits
    case Done =>
    case Plain(c, rest) =>
      PassesPlain(s, i, depth);
      PassesBits(s, i + 1, depth + Opening(c), rest, j, over, end);
    case Literal(quote, body, rest) =>
      PassesLiteral(s, i, depth, |body|);
      PassesBits(s, i + 1 + |body| + 1, depth, rest, j, over, end);
  }

  lemma ClosedEnds(text: string, after: string)
    requires Closed(text)
    ensures DeclarationEnd(text + after, 0, 0) == At(|text| - 1)
  {
    var bits :| Unended(bits, 0) && Groups(bits) <= 0 && text == Spell(bits) + ">";
    Regroup(Spell(bits), ">", after);
    EndsAfter(bits, Spell(bits), text + after, after);
  }

  lemma EndsAfter(bits: Bits, t: string, s: string, after: string)
    requires Unended(bits, 0) && Groups(bits) <= 0 && t == Spell(bits) && s == t + (">" + after)
    ensures DeclarationEnd(s, 0, 0) == At(|t|)
  {
    assert s[0..] == s && s[|t|] == '>';
    SpeltStand(s, 0, bits, 0, t, ">" + after);
    PassesBits(s, 0, 0, bits, |t|, Groups(bits), DeclarationEnd(s, 0, 0));
  }

  lemma HangingEnds(s: string, i: nat, depth: int)
    requires i <= |s| && Hanging(s[i..])
    ensures DeclarationEnd(s, i, depth) == Nowhere
  {
    if i < |s| {
      assert s[i..][0] == s[i] && s[i..][1..] == s[i + 1..];
      NoQuote(s[i], s[i + 1..]);
      IndexAbsent(s[i + 1..], [s[i]]);
    }
  }

  lemma UnclosedEnds(text: string)
    requires Unclosed(text)
    ensures DeclarationEnd(text, 0, 0) == Nowhere
  {
    var bits, tail :| Unended(bits, 0) && Hanging(tail) && text == Spell(bits) + tail;
    var i := |Spell(bits)|;
    assert text[0..] == text && text[i..] == tail;
    SpeltStand(text, 0, bits, 0, Spell(bits), tail);
    PassesBits(text, 0, 0, bits, i, Groups(bits), DeclarationEnd(text, 0, 0));
    HangingEnds(text, i, Groups(bits));
  }

  /** The pieces from `i` up to where a scan ended, and what is left where it did not. */
  ghost predicate Cut(s: string, i: nat, depth: int, at: Place, bits: Bits, tail: string) {
    && Unended(bits, depth) && i <= |s|
    && match at
       case At(end) => i <= end < |s| && s[i..end + 1] == Spell(bits) + ">" && depth + Groups(bits) <= 0
       case Nowhere => Hanging(tail) && s[i..] == Spell(bits) + tail
  }

  lemma {:induction false} BitsOf(s: string, i: nat, depth: int, at: Place) returns (bits: Bits, tail: string)
    requires i <= |s| && at == DeclarationEnd(s, i, depth)
    ensures Cut(s, i, depth, at, bits, tail)
    decreases |s| - i
  {
    bits, tail := Done, s[i..];
    if i < |s| {
      if IsQuote(s[i]) {
        var close := Index(s[i + 1..], [s[i]]);
        IndexIs(s[i + 1..], [s[i]]);
        if close.Nowhere? {
          assert tail[1..] == s[i + 1..];
          NoQuote(s[i], s[i + 1..]);
        } else {
          PassesLiteral(s, i, depth, close.place);
          bits, tail := BitsOf(s, i + 1 + close.place + 1, depth, at);
          bits := LiteralBefore(s, i, depth, at, close.place, bits, tail);
        }
      } else if s[i] != '>' || depth > 0 {
        PassesPlain(s, i, depth);
        bits, tail := BitsOf(s, i + 1, depth + Opening(s[i]), at);
        bits := PlainBefore(s, i, depth, at, bits, tail);
      }
    }
  }

  lemma PlainBefore(s: string, i: nat, depth: int, at: Place, rest: Bits, tail: string) returns (bits: Bits)
    requires i < |s| && !IsQuote(s[i]) && (s[i] == '>' ==> depth > 0)
    requires Cut(s, i + 1, depth + Opening(s[i]), at, rest, tail)
    ensures Cut(s, i, depth, at, bits, tail)
  {
    bits := Plain(s[i], rest);
    if at.At? {
      assert s[i..at.place + 1] == [s[i]] + s[i + 1..at.place + 1];
      Regroup([s[i]], Spell(rest), ">");
    } else {
      assert s[i..] == [s[i]] + s[i + 1..];
      Regroup([s[i]], Spell(rest), tail);
    }
  }

  lemma LiteralBefore(s: string, i: nat, depth: int, at: Place, j: nat, rest: Bits, tail: string)
    returns (bits: Bits)
    requires i < |s| && IsQuote(s[i]) && FirstAt(s[i + 1..], [s[i]], j)
    requires Cut(s, i + 1 + j + 1, depth, at, rest, tail)
    ensures Cut(s, i, depth, at, bits, tail)
  {
    var (body, k) := (s[i + 1..][..j], i + 1 + j + 1);
    bits := Literal(s[i], body, rest);
    LiteralFound(s, i, j, body);
    if at.At? {
      assert s[i..at.place + 1] == s[i..k] + s[k..at.place + 1];
      Regroup([s[i]] + body + [s[i]], Spell(rest), ">");
    } else {
      assert s[i..] == s[i..k] + s[k..];
      Regroup([s[i]] + body + [s[i]], Spell(rest), tail);
    }
  }

  lemma LiteralFound(s: string, i: nat, j: nat, body: string)
    requires i < |s| && IsQuote(s[i]) && FirstAt(s[i + 1..], [s[i]], j)
    requires i + 1 + j <= |s| && body == s[i + 1..][..j]
    ensures s[i] !in body && i + 1 + j < |s| && s[i..i + 1 + j + 1] == [s[i]] + body + [s[i]]
  {
    var t := s[i + 1..];
    QuoteAt(s[i], t, j);
    forall k: nat | k < j ensures body[k] != s[i] {
      QuoteAt(s[i], t, k);
      assert !Occurs(t, [s[i]], k);
    }
  }

  lemma DeclarationIs(s: string)
    ensures match DeclarationEnd(s, 0, 0) case At(end) => Closed(s[..end + 1]) case Nowhere => Unclosed(s)
  {
    var at := DeclarationEnd(s, 0, 0);
    var bits, tail := BitsOf(s, 0, 0, at);
    if at.At? {
      assert s[0..at.place + 1] == s[..at.place + 1];
    } else {
      assert s[0..] == s;
    }
  }

  // ---- constructs --------------------------------------------------------

  /** A comment, a declaration or an instruction begins `s`. */
  predicate Begins(s: string) { ("<!" <= s || "<?" <= s) && !("<![" <= s) }

  predicate IsComment(text: string) { |text| >= 7 && "<!--" <= text && FirstAt(text[4..], "-->", |text| - 7) }

  /** `text` is such a construct, with `after` behind it; one that is not closed takes all. */
  ghost predicate Construct(text: string, after: string) {
    && Begins(text + after)
    && if "<!--" <= text + after then IsComment(text) || (after == "" && Absent(text[4..], "-->"))
       else Closed(text) || (after == "" && Unclosed(text))
  }

  lemma ConstructFound(text: string, after: string)
    requires Construct(text, after)
    ensures ConstructEnd(text + after, 0) == |text|
  {
    var s := text + after;
    assert s[0..] == s;
    if "<!--" <= s {
      CommentFound(text, after);
    } else if Closed(text) {
      ClosedEnds(text, after);
    } else {
      assert s == text;
      UnclosedEnds(text);
    }
  }

  lemma CommentFound(text: string, after: string)
    requires "<!--" <= text + after && (IsComment(text) || (after == "" && Absent(text[4..], "-->")))
    ensures ConstructEnd(text + after, 0) == |text|
  {
    var s := text + after;
    assert s[0..] == s;
    if IsComment(text) {
      assert s[4..] == text[4..] + after;
      FirstGrows(text[4..], "-->", |text| - 7, after);
      IndexFirst(s[4..], "-->", |text| - 7);
    } else {
      assert s == text;
      IndexAbsent(s[4..], "-->");
    }
  }

  lemma ConstructIs(s: string)
    ensures var end := ConstructEnd(s, 0); if Begins(s) then end > 0 && Construct(s[..end], s[end..]) else end == 0
  {
    if Begins(s) {
      var end := ConstructEnd(s, 0);
      if "<!--" <= s { CommentIs(s); } else { OtherIs(s); }
      ConstructMade(s, s[..end], s[end..]);
    } else {
      assert s[0..] == s;
    }
  }

  lemma ConstructMade(s: string, text: string, after: string)
    requires Begins(s) && s == text + after
    requires if "<!--" <= s then IsComment(text) || (after == "" && Absent(s[4..], "-->"))
             else Closed(text) || (after == "" && Unclosed(text))
    ensures Construct(text, after)
  {
    if after == "" { assert s == text; }
  }

  lemma OtherIs(s: string)
    requires Begins(s) && !("<!--" <= s)
    ensures var end := ConstructEnd(s, 0); end > 0 && (Closed(s[..end]) || (s[end..] == "" && Unclosed(s[..end])))
  {
    assert s[0..] == s && s[..|s|] == s;
    DeclarationIs(s);
  }

  lemma CommentIs(s: string)
    requires "<!--" <= s
    ensures var end := ConstructEnd(s, 0); end > 0 && (IsComment(s[..end]) || (end == |s| && Absent(s[4..], "-->")))
  {
    assert s[0..] == s;
    IndexIs(s[4..], "-->");
    var at := Index(s[4..], "-->");
    if at.At? {
      var end := at.place + 7;
      assert s[..end][4..] == s[4..][..at.place + 3];
      FirstWithin(s[4..], "-->", at.place);
    }
  }

  lemma FirstWithin(s: string, p: string, i: nat)
    requires FirstAt(s, p, i)
    ensures i + |p| <= |s| && FirstAt(s[..i + |p|], p, i)
  {
    var t := s[..i + |p|];
    assert t[i..] == p;
    forall k: nat | k < i ensures !Occurs(t, p, k) {
      assert !Occurs(s, p, k) && t[k..] <= s[k..];
    }
  }

  // ---- names -------------------------------------------------------------

  /** The code points of letters, digits, `.`, `-`, `_`, `:` and everything beyond ASCII. */
  predicate InNames(n: int) {
    || 0x61 <= n <= 0x7A || 0x41 <= n <= 0x5A || 0x30 <= n <= 0x39
    || n == 0x2E || n == 0x2D || n == 0x5F || n == 0x3A || n >= 0x80
  }

  predicate IsName(s: string) { s != "" && forall c | c in s :: InNames(c as int) }

  lemma NameByteIs(c: char)
    ensures IsNameByte(c) <==> InNames(c as int)
  {
    assert ".-_:" == ['.', '-', '_', ':'];
  }

  lemma NameIs(s: string)
    ensures IsEntityName(s) <==> IsName(s)
  {
    forall c | c in s ensures IsNameByte(c) <==> InNames(c as int) { NameByteIs(c); }
  }

  // ---- text declarations -------------------------------------------------

  /** A text declaration, after white space, stands before `text`. */
  predicate Declared(data: string, lead: string, middle: string, text: string) {
    && AllSpace(lead) && (middle == "" || IsSpace(middle[0])) && FirstAt(middle + "?>", "?>", |middle|)
    && data == lead + ("<?xml" + (middle + "?>" + text))
  }

  /** `data` without its text declaration, if it has one. */
  ghost predicate Stripped(data: string, text: string) {
    || (exists lead, middle :: Declared(data, lead, middle, text))
    || (text == data && forall lead, middle, rest :: !Declared(data, lead, middle, rest))
  }

  lemma {:induction false} TrimLeads(lead: string, s: string)
    requires AllSpace(lead) && s != "" && !IsSpace(s[0])
    ensures TrimLeft(lead + s) == s
    decreases |lead|
  {
    if lead == "" {
      assert lead + s == s;
    } else {
      assert (lead + s)[0] == lead[0] && (lead + s)[1..] == lead[1..] + s;
      TrimLeads(lead[1..], s);
    }
  }

  lemma {:induction false} TrimSplits(s: string) returns (lead: string)
    ensures AllSpace(lead) && s == lead + TrimLeft(s)
    decreases |s|
  {
    lead := "";
    if s != "" && IsSpace(s[0]) {
      lead := TrimSplits(s[1..]);
      assert s == [s[0]] + s[1..] == [s[0]] + lead + TrimLeft(s);
      lead := [s[0]] + lead;
    }
  }

  lemma CloseAt(s: string, k: nat)
    ensures Occurs(s, "?>", k) <==> k + 1 < |s| && s[k] == '?' && s[k + 1] == '>'
  {
    if k + 1 < |s| { assert s[k..][..2] == [s[k], s[k + 1]]; }
  }

  lemma TargetBefore(s: string, i: nat)
    requires FirstAt(s, "?>", i)
    ensures FirstAt("<?xml" + s, "?>", i + 5)
  {
    var t := "<?xml" + s;
    assert t[i + 5..] == s[i..];
    forall k: nat | k < i + 5 ensures !Occurs(t, "?>", k) {
      if k < 5 { CloseAt(t, k); } else { assert !Occurs(s, "?>", k - 5) && t[k..] == s[k - 5..]; }
    }
  }

  lemma DeclaredIsStripped(data: string, lead: string, middle: string, text: string)
    requires Declared(data, lead, middle, text)
    ensures StripTextDecl(data) == text
  {
    var after := middle + "?>" + text;
    var rest := "<?xml" + after;
    TrimLeads(lead, rest);
    assert rest[5..] == after && rest[..5] == "<?xml";
    FirstGrows(middle + "?>", "?>", |middle|, text);
    TargetBefore(after, |middle|);
    IndexFirst(rest, "?>", |middle| + 5);
    assert rest[|middle| + 7..] == text;
    if middle == "" { assert after[..2] == "?>"; } else { assert after[0] == middle[0]; }
  }

  /** What is stripped is a text declaration. */
  lemma StrippedWasDeclared(data: string) returns (lead: string, middle: string)
    ensures StripTextDecl(data) == data || Declared(data, lead, middle, StripTextDecl(data))
  {
    lead := TrimSplits(data);
    middle := "";
    var rest := TrimLeft(data);
    if HasPrefix(rest, "<?xml") {
      var end := Index(rest, "?>");
      IndexIs(rest, "?>");
      if end.At? && (rest[5..] == "" || IsSpace(rest[5..][0]) || HasPrefix(rest[5..], "?>")) {
        NotInTarget(rest, end.place);
        middle := rest[5..end.place];
        MiddleFound(rest, end.place, middle);
        if middle != "" { SpaceAfter(rest, end.place); }
      }
    }
  }

  lemma NotInTarget(rest: string, end: nat)
    requires HasPrefix(rest, "<?xml") && FirstAt(rest, "?>", end)
    ensures 5 <= end <= |rest| && "<?xml" <= rest
  {
    CloseAt(rest, end);
    assert rest[..5] == "<?xml";
  }

  lemma SpaceAfter(rest: string, end: nat)
    requires "<?xml" <= rest && FirstAt(rest, "?>", end) && end > 5
    requires rest[5..] == "" || IsSpace(rest[5..][0]) || HasPrefix(rest[5..], "?>")
    ensures IsSpace(rest[5..end][0])
  {
    CloseAt(rest, end);
    assert rest[5..end][0] == rest[5..][0];
    assert !Occurs(rest, "?>", 5);
  }

  lemma MiddleFound(rest: string, end: nat, middle: string)
    requires "<?xml" <= rest && FirstAt(rest, "?>", end) && end >= 5 && middle == rest[5..end]
    ensures FirstAt(middle + "?>", "?>", |middle|) && rest == "<?xml" + (middle + "?>" + rest[end + 2..])
  {
    var t := middle + "?>";
    assert rest[end..][..2] == "?>" && t == rest[5..end + 2];
    assert t[|middle|..] == "?>";
    forall k: nat | k < |middle| ensures !Occurs(t, "?>", k) {
      assert !Occurs(rest, "?>", k + 5) && t[k..] <= rest[k + 5..];
    }
  }

  lemma StripIs(data: string, text: string)
    ensures Stripped(data, text) <==> text == StripTextDecl(data)
  {
    forall lead, middle, rest | Declared(data, lead, middle, rest) ensures rest == StripTextDecl(data) {
      DeclaredIsStripped(data, lead, middle, rest);
    }
    var lead, middle := StrippedWasDeclared(data);
  }
}
