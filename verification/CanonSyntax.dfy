/** Namespace rendering of Canonical XML 1.0 and Exclusive XML Canonicalization 1.0
    for node sets that decide by element: what is rendered, as a function. */
module CanonSyntax {

  /** A namespace declaration; the empty prefix is the default namespace, the empty
      URI an undeclaration. */
  datatype Binding = Binding(prefix: string, uri: string)

  /** An element with its own declarations and the prefixes of its attributes that
      are in the node set; `chosen` says whether it is in the set itself. */
  datatype Elem = Elem(prefix: string, decls: seq<Binding>, attrs: seq<string>, chosen: bool, kids: seq<Elem>)

  /** What is output: tags with the declarations rendered on them.  `source` is
      the source's scope there, for comparison. */
  datatype Tag = Tag(prefix: string, decls: seq<Binding>, attrs: seq<string>, kids: seq<Tag>, source: Scope)

  type Scope = map<string, string>

  function Lookup(m: Scope, p: string): string { if p in m then m[p] else "" }

  /** Later declarations override earlier ones. */
  function Declare(m: Scope, decls: seq<Binding>): Scope
    decreases |decls|
  {
    if decls == [] then m else Declare(m[decls[0].prefix := decls[0].uri], decls[1..])
  }

  function Prefixes(decls: seq<Binding>): set<string> { set b | b in decls :: b.prefix }

  // ---- order of prefixes -------------------------------------------------

  predicate Before(a: string, b: string) {
    b != [] && (a == [] || a[0] < b[0] || (a[0] == b[0] && Before(a[1..], b[1..])))
  }

  predicate Ascending(bs: seq<Binding>) { forall i, j | 0 <= i < j < |bs| :: Before(bs[i].prefix, bs[j].prefix) }

  lemma {:induction false} BeforeTotal(a: string, b: string)
    ensures a == b || Before(a, b) || Before(b, a)
    ensures !(Before(a, b) && Before(b, a)) && !Before(a, a)
  {
    if a != [] && b != [] {
      BeforeTotal(a[1..], b[1..]);
      if a[0] == b[0] && a[1..] == b[1..] { assert a == [a[0]] + a[1..] && b == [b[0]] + b[1..]; }
    }
    if a != [] { BeforeTotal(a[1..], a[1..]); }
  }

  lemma {:induction false} BeforeOn(a: string, b: string, c: string)
    requires Before(a, b) && Before(b, c)
    ensures Before(a, c)
  {
    if a != [] && a[0] == b[0] && b[0] == c[0] { BeforeOn(a[1..], b[1..], c[1..]); }
  }

  ghost function Least(ps: set<string>): (p: string)
    requires ps != {}
    ensures p in ps && forall q | q in ps && q != p :: Before(p, q)
  {
    var p :| p in ps;
    if ps == {p} then p
    else
      assert ps == {p} + (ps - {p});
      var q := Least(ps - {p});
      BeforeTotal(p, q);
      assert Before(p, q) ==> forall r | r in ps - {p} && r != q :: Before(p, r) by {
        forall r | Before(p, q) && r in ps - {p} && r != q ensures Before(p, r) { BeforeOn(p, q, r); }
      }
      if Before(p, q) then p else q
  }

  /** The bindings of some prefixes, in the order of the prefixes. */
  ghost function Listing(ps: set<string>, scope: Scope): seq<Binding> {
    if ps == {} then [] else var p := Least(ps); [Binding(p, Lookup(scope, p))] + Listing(ps - {p}, scope)
  }

  // ---- what is rendered --------------------------------------------------

  /** Whether a candidate renders: not xml, bound or the default, and not what the
      output already says. */
  predicate Renders(scope: Scope, rendered: Scope, p: string) {
    && p != "xml"
    && (p == "" || Lookup(scope, p) != "")
    && Lookup(rendered, p) != Lookup(scope, p)
  }

  /** With the shortcut, an element whose parent was output has only its own
      declarations considered. */
  datatype Mode = Inclusive(shortcut: bool) | Exclusive(prefixes: seq<string>)

  /** The candidate prefixes of an element. */
  function Candidates(mode: Mode, e: Elem, parentIn: bool, scope: Scope): set<string> {
    match mode
    case Exclusive(ps) =>
      {e.prefix} + (set a | a in e.attrs && a != "") + (set p | p in ps)
    case Inclusive(shortcut) => if shortcut && parentIn then Prefixes(e.decls) else scope.Keys + {""}
  }

  /** The declarations rendered on a chosen element. */
  ghost function Shown(mode: Mode, e: Elem, parentIn: bool, scope: Scope, rendered: Scope): seq<Binding> {
    Listing((set p | p in Candidates(mode, e, parentIn, scope) && Renders(scope, rendered, p)), scope)
  }

  /** `scope` and `rendered` are what the source and the output say around `e`. */
  ghost function Render(mode: Mode, e: Elem, parentIn: bool, scope: Scope, rendered: Scope): seq<Tag>
    decreases e, 1
  {
    var inner := Declare(scope, e.decls);
    if e.chosen then
      var bs := Shown(mode, e, parentIn, inner, rendered);
      [Tag(e.prefix, bs, e.attrs, RenderKids(mode, e.kids, true, inner, Declare(rendered, bs)), inner)]
    else RenderKids(mode, e.kids, false, inner, rendered)
  }

  ghost function RenderKids(mode: Mode, kids: seq<Elem>, parentIn: bool, scope: Scope, rendered: Scope): seq<Tag>
    decreases kids, 0
  {
    if kids == [] then []
    else
      var n := |kids| - 1;
      RenderKids(mode, kids[..n], parentIn, scope, rendered) + Render(mode, kids[n], parentIn, scope, rendered)
  }

  /** No element deeper than the limit, no declaration refused. */
  predicate Allowed(e: Elem, depth: nat, limit: nat, accepts: Binding -> bool)
    decreases e, 1
  {
    && depth <= limit && (forall b | b in e.decls :: accepts(b))
    && forall k | k in e.kids :: Allowed(k, depth + 1, limit, accepts)
  }
}
