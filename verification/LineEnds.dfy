/** Line ends folded on input (XML 1.0, section 2.11): CR LF and a lone CR become LF,
    but a CR before NEL is left for the tokeniser.  The result does not depend on how
    the input is cut into reads. */
module LineEnds {

  type Byte = x: int | 0 <= x < 256

  const CR: Byte := 13
  const LF: Byte := 10
  const C2: Byte := 0xC2     // with 0x85, NEL
  const X85: Byte := 0x85

  predicate Nel(s: seq<Byte>, i: nat) { i + 2 < |s| && s[i + 1] == C2 && s[i + 2] == X85 }

  /** The whole input folded at once. */
  function Fold(s: seq<Byte>): seq<Byte> {
    if s == [] then []
    else if s[0] != CR then [s[0]] + Fold(s[1..])
    else if |s| > 1 && s[1] == LF then [LF] + Fold(s[2..])
    else [if Nel(s, 0) then CR else LF] + Fold(s[1..])
  }

  /** What cannot be folded before more is read: a CR at the end, alone or with the
      first byte of a NEL. */
  predicate Undecided(s: seq<Byte>) { s == [] || s == [CR] || s == [CR, C2] }

  /** The first byte's fold does not depend on what is read later. */
  predicate Decided(s: seq<Byte>) { s != [] && (s[0] == CR ==> |s| > 1 && (s[1] == C2 ==> |s| > 2)) }

  // ---- folding is idempotent ---------------------------------------------

  lemma {:induction false} FoldTwice(s: seq<Byte>)
    ensures Fold(Fold(s)) == Fold(s)
  {
    if s != [] {
      var f := Fold(s);
      if s[0] != CR {
        FoldTwice(s[1..]);
        assert f[1..] == Fold(s[1..]);
      } else if |s| > 1 && s[1] == LF {
        FoldTwice(s[2..]);
        assert f[1..] == Fold(s[2..]);
      } else {
        FoldTwice(s[1..]);
        assert f[1..] == Fold(s[1..]);
        if Nel(s, 0) {
          var r := s[3..];
          assert s[1..][1..] == s[2..] && s[2..][1..] == r;
          assert Fold(s[1..]) == [C2] + Fold(s[2..]) && Fold(s[2..]) == [X85] + Fold(r);
          assert f == [CR, C2, X85] + Fold(r);
          assert Nel(f, 0);
        }
      }
    }
  }

  // ---- what folding gives, byte by byte ----------------------------------

  /** Only the LF of a CR LF is left out. */
  predicate Kept(s: seq<Byte>, i: nat)
    requires i < |s|
  {
    !(s[i] == LF && i > 0 && s[i - 1] == CR)
  }

  /** Only a CR is changed, unless a NEL follows. */
  function Becomes(s: seq<Byte>, i: nat): Byte
    requires i < |s|
  {
    if s[i] == CR && !(|s| - i >= 3 && s[i + 1..i + 3] == [C2, X85]) then LF else s[i]
  }

  /** What the kept ones of the first `n` bytes become, in order. */
  function Picked(s: seq<Byte>, n: nat): seq<Byte>
    requires n <= |s|
  {
    if n == 0 then [] else Picked(s, n - 1) + if Kept(s, n - 1) then [Becomes(s, n - 1)] else []
  }

  lemma {:induction false} FoldPicks(s: seq<Byte>)
    ensures Fold(s) == Picked(s, |s|)
  {
    assert s[0..] == s;
    FoldFrom(s, 0);
  }

  lemma {:induction false} FoldFrom(s: seq<Byte>, i: nat)
    requires i <= |s| && (i < |s| ==> Kept(s, i))
    ensures Picked(s, i) + Fold(s[i..]) == Picked(s, |s|)
    decreases |s| - i
  {
    if i < |s| {
      var t := s[i..];
      assert t[0] == s[i] && t[1..] == s[i + 1..];
      if s[i] == CR && |t| > 1 && s[i + 1] == LF {
        assert t[1] == LF && t[2..] == s[i + 2..];
        assert Picked(s, i + 2) == Picked(s, i) + [LF];
        FoldFrom(s, i + 2);
      } else {
        assert |t| > 2 ==> s[i + 1..i + 3] == [t[1], t[2]];
        assert Fold(t) == [Becomes(s, i)] + Fold(s[i + 1..]);
        FoldFrom(s, i + 1);
      }
    }
  }

  // ---- folding a part ----------------------------------------------------

  /** How far folding has come: `done` is written, `s[i..]` is still to fold. */
  ghost predicate Folded(s: seq<Byte>, done: seq<Byte>, i: nat, final: bool) {
    && i <= |s|
    && if final then Fold(s) == done + Fold(s[i..])
       else forall more: seq<Byte> :: Fold(s + more) == done + Fold(s[i..] + more)
  }

  lemma FoldOther(s: seq<Byte>, more: seq<Byte>)
    requires s != [] && s[0] != CR
    ensures Fold(s + more) == [s[0]] + Fold(s[1..] + more)
  {
    assert (s + more)[1..] == s[1..] + more;
  }

  lemma FoldPair(s: seq<Byte>, more: seq<Byte>)
    requires |s| > 1 && s[0] == CR && s[1] == LF
    ensures Fold(s + more) == [LF] + Fold(s[2..] + more)
  {
    assert (s + more)[2..] == s[2..] + more;
  }

  /** A CR whose next bytes settle it. */
  lemma FoldAlone(s: seq<Byte>, more: seq<Byte>)
    requires s != [] && s[0] == CR && !(|s| > 1 && s[1] == LF)
    requires more == [] || (|s| > 1 && (s[1] == C2 ==> |s| > 2))
    ensures Fold(s + more) == [if Nel(s, 0) then CR else LF] + Fold(s[1..] + more)
  {
    assert (s + more)[1..] == s[1..] + more;
    assert Nel(s + more, 0) <==> Nel(s, 0);
  }

  /** What the byte at `i` becomes, unless that is for bytes not yet read to say. */
  method Settle(buf: array<Byte>, i: nat, n: nat, final: bool) returns (stop: bool, value: Byte, next: nat)
    requires i < n <= buf.Length
    ensures stop ==> !final && Undecided(buf[i..n])
    ensures !stop ==> i < next <= n && (value, next - i) == FirstFolded(buf[i..n]) && (final || Decided(buf[i..n]))
  {
    stop, value, next := false, LF, i + 1;
    ghost var rest := buf[i..n];
    assert forall k | 0 <= k < n - i :: rest[k] == buf[i + k];
    if buf[i] != CR {
      value := buf[i];
    } else if i + 1 < n && buf[i + 1] == LF {
      next := i + 2;
    } else if i + 1 < n && buf[i + 1] == C2 && i + 2 >= n && !final {
      assert rest == [CR, C2];
      stop := true;
    } else if i + 1 >= n && !final {
      assert rest == [CR];
      stop := true;
    } else if i + 2 < n && buf[i + 1] == C2 && buf[i + 2] == X85 {
      value := CR;
    }
  }

  /** Folds the first `n` bytes in place: the first `w` are then the result, and those
      from `from` on are left undecided. */
  method FoldInPlace(buf: array<Byte>, n: nat, final: bool) returns (w: nat, from: nat)
    requires n <= buf.Length
    modifies buf
    ensures w <= from <= n && buf[from..n] == old(buf[..n])[from..]
    ensures Undecided(buf[from..n]) && (final ==> from == n)
    ensures Folded(old(buf[..n]), buf[..w], from, final)
  {
    ghost var s := buf[..n];
    assert s + [] == s;
    w := 0;
    var i: nat := 0;
    while i < n
      invariant w <= i <= n
      invariant forall k | i <= k < n :: buf[k] == s[k]
      invariant Folded(s, buf[..w], i, final)
    {
      Tail(buf[..], s, i, n);
      var stop, value, next := Settle(buf, i, n, final);
      if stop { return w, i; }
      NextFolded(s, buf[..w], i, final, value, next);
      ghost var was := buf[..w];
      buf[w] := value;
      assert buf[..w + 1] == was + [value];
      w, i := w + 1, next;
    }
    Tail(buf[..], s, n, n);
    from := n;
  }

  lemma Tail(buf: seq<Byte>, s: seq<Byte>, i: nat, n: nat)
    requires i <= n == |s| <= |buf| && forall k | i <= k < n :: buf[k] == s[k]
    ensures buf[i..n] == s[i..] && forall k | 0 <= k < n - i :: s[i..][k] == buf[i + k]
  {
  }

  /** What the first byte not yet folded becomes, and how many bytes that takes. */
  function FirstFolded(s: seq<Byte>): (Byte, nat)
    requires s != []
  {
    if s[0] != CR then (s[0], 1)
    else if |s| > 1 && s[1] == LF then (LF, 2)
    else (if Nel(s, 0) then CR else LF, 1)
  }

  lemma FirstFolds(s: seq<Byte>, final: bool)
    requires s != [] && (final || Decided(s))
    ensures 1 <= FirstFolded(s).1 <= |s|
    ensures forall more: seq<Byte> | !final || more == [] ::
              Fold(s + more) == [FirstFolded(s).0] + Fold(s[FirstFolded(s).1..] + more)
  {
    forall more: seq<Byte> | !final || more == []
      ensures Fold(s + more) == [FirstFolded(s).0] + Fold(s[FirstFolded(s).1..] + more)
    {
      if s[0] != CR {
        FoldOther(s, more);
      } else if |s| > 1 && s[1] == LF {
        FoldPair(s, more);
      } else {
        FoldAlone(s, more);
      }
    }
  }

  lemma NextFolded(s: seq<Byte>, done: seq<Byte>, i: nat, final: bool, value: Byte, next: nat)
    requires Folded(s, done, i, final) && i < next <= |s|
    requires (value, next - i) == FirstFolded(s[i..]) && (final || Decided(s[i..]))
    ensures Folded(s, done + [value], next, final)
  {
    FirstFolds(s[i..], final);
    assert s[i..][next - i..] == s[next..];
    StepFolded(s, done, i, final, value, next);
  }

  lemma StepFolded(s: seq<Byte>, done: seq<Byte>, i: nat, final: bool, value: Byte, next: nat)
    requires Folded(s, done, i, final) && i < next <= |s|
    requires forall more: seq<Byte> | !final || more == [] :: Fold(s[i..] + more) == [value] + Fold(s[next..] + more)
    ensures Folded(s, done + [value], next, final)
  {
    if final {
      assert s[i..] + [] == s[i..] && s[next..] + [] == s[next..];
      assert done + ([value] + Fold(s[next..])) == done + [value] + Fold(s[next..]);
    } else {
      forall more: seq<Byte> ensures Fold(s + more) == done + [value] + Fold(s[next..] + more) {
        assert done + ([value] + Fold(s[next..] + more)) == done + [value] + Fold(s[next..] + more);
      }
    }
  }

  // ---- the reader --------------------------------------------------------

  /** How much one read gives, and whether the end is reported with the last bytes or
      by a read of its own. */
  datatype Cut = Cut(n: nat, withEnd: bool)

  /** An input cut into reads in any way. */
  class Source {
    var rest: seq<Byte>
    var cuts: seq<Cut>

    constructor (input: seq<Byte>, cuts: seq<Cut>)
      ensures rest == input && this.cuts == cuts
    {
      rest, this.cuts := input, cuts;
    }

    method Read(room: nat) returns (data: seq<Byte>, end: bool)
      requires room > 0
      modifies this
      ensures data + rest == old(rest) && |data| <= room && (end ==> rest == [])
      ensures end || |rest| < |old(rest)| || |cuts| < |old(cuts)|
      ensures |rest| <= |old(rest)| && |cuts| <= |old(cuts)|
    {
      var n := if |rest| < room then |rest| else room;
      var withEnd := false;
      if cuts != [] {
        if cuts[0].n < n { n := cuts[0].n; }
        withEnd := cuts[0].withEnd;
        cuts := cuts[1..];
      }
      data := rest[..n];
      end := n == |rest| && (withEnd || n == 0);
      rest := rest[n..];
    }
  }

  /** Folding what was carried over and what was read brings the whole nearer. */
  lemma FoldedOn(whole: seq<Byte>, given: seq<Byte>, carry: seq<Byte>, left: seq<Byte>, data: seq<Byte>,
                 rest: seq<Byte>, done: seq<Byte>, from: nat, end: bool)
    requires whole == given + [] + Fold(carry + left) && left == data + rest && (end ==> rest == [])
    requires Folded(carry + data, done, from, end)
    ensures whole == given + done + Fold((carry + data)[from..] + rest)
  {
    var s := carry + data;
    assert carry + left == s + rest;
    if end { assert s + rest == s && s[from..] + rest == s[from..]; }
    assert Fold(s + rest) == done + Fold(s[from..] + rest);
    assert given + [] == given;
    assert given + (done + Fold(s[from..] + rest)) == given + done + Fold(s[from..] + rest);
  }

  /** What is ready, given in part. */
  lemma GiveSlice(whole: seq<Byte>, given: seq<Byte>, s: array<Byte>, from: nat, n: nat, to: nat, later: seq<Byte>)
    returns (more: seq<Byte>)
    requires from + n <= to <= s.Length && whole == given + s[from..to] + later
    ensures more == given + s[from..from + n] && whole == more + s[from + n..to] + later
  {
    more := given + s[from..from + n];
    assert s[from..to] == s[from..from + n] + s[from + n..to];
    assert given + (s[from..from + n] + s[from + n..to]) == more + s[from + n..to];
  }

  class LineEndReader {
    const src: Source
    const scratch: array<Byte>
    var outFrom: nat       // normalized, not yet returned: scratch[outFrom..outTo]
    var outTo: nat
    var carryFrom: nat     // what could not be folded yet: scratch[carryFrom..carryTo]
    var carryTo: nat
    var ended: bool
    ghost const input: seq<Byte>
    ghost var given: seq<Byte>

    constructor (src: Source, window: nat)
      requires window >= 3
      ensures Valid() && this.src == src && input == src.rest && given == []
      ensures fresh(scratch)
    {
      this.src := src;
      scratch := new Byte[window](_ => 0);
      outFrom, outTo, carryFrom, carryTo, ended := 0, 0, 0, 0, false;
      input, given := src.rest, [];
      new;
      assert [] + src.rest == src.rest && [] + [] + Fold(src.rest) == Fold(src.rest);
    }

    ghost predicate Valid()
      reads this, src, scratch
    {
      && scratch.Length >= 3
      && outFrom <= outTo <= scratch.Length && carryFrom <= carryTo <= scratch.Length
      && Undecided(scratch[carryFrom..carryTo])
      && (ended ==> src.rest == [] && carryFrom == carryTo)
      && Fold(input) == given + scratch[outFrom..outTo] + Fold(scratch[carryFrom..carryTo] + src.rest)
    }

    /** Moves the carry to the front of the buffer it lies in. */
    method MoveCarry() returns (n: nat)
      requires Valid()
      modifies scratch
      ensures n == carryTo - carryFrom && scratch[..n] == old(scratch[carryFrom..carryTo])
    {
      n := 0;
      ghost var carry := scratch[carryFrom..carryTo];
      while carryFrom + n < carryTo
        invariant carryFrom + n <= carryTo
        invariant scratch[..n] == carry[..n]
        invariant forall k | carryFrom + n <= k < carryTo :: scratch[k] == carry[k - carryFrom]
      {
        scratch[n] := scratch[carryFrom + n];
        n := n + 1;
      }
    }

    /** Brings the carry to the front and reads on behind it. */
    method Load() returns (n: nat, end: bool, ghost data: seq<Byte>)
      requires Valid() && !ended
      modifies scratch, src
      ensures n <= scratch.Length && scratch[..n] == old(scratch[carryFrom..carryTo]) + data
      ensures old(src.rest) == data + src.rest && (end ==> src.rest == [])
      ensures end || |src.rest| < |old(src.rest)| || |src.cuts| < |old(src.cuts)|
      ensures |src.rest| <= |old(src.rest)| && |src.cuts| <= |old(src.cuts)|
    {
      ghost var carry := scratch[carryFrom..carryTo];
      var m := MoveCarry();
      var bytes;
      bytes, end := src.Read(scratch.Length - m);
      var k := 0;
      while k < |bytes|
        invariant k <= |bytes| && scratch[..m] == carry && scratch[m..m + k] == bytes[..k]
        modifies scratch
      {
        scratch[m + k] := bytes[k];
        k := k + 1;
      }
      n, data := m + k, bytes;
      assert scratch[..n] == scratch[..m] + scratch[m..n] && bytes[..k] == bytes;
    }

    /** Reads on and folds what has come. */
    method Fill()
      requires Valid() && outFrom == outTo && !ended
      modifies this`outFrom, this`outTo, this`carryFrom, this`carryTo, this`ended, scratch, src
      ensures Valid()
      ensures ended || |src.rest| < |old(src.rest)| || |src.cuts| < |old(src.cuts)|
      ensures |src.rest| <= |old(src.rest)| && |src.cuts| <= |old(src.cuts)|
    {
      ghost var carry := scratch[carryFrom..carryTo];
      ghost var left := src.rest;
      assert scratch[outFrom..outTo] == [];
      assert Fold(input) == given + [] + Fold(carry + left);
      var n, end, data := Load();
      var w, from := FoldInPlace(scratch, n, end);
      FoldedOn(Fold(input), given, carry, left, data, src.rest, scratch[..w], from, end);
      outFrom, outTo, carryFrom, carryTo, ended := 0, w, from, n, end;
      assert (carry + data)[from..] == scratch[from..n];
      assert scratch[0..w] == scratch[..w];
    }

    /** At most `max` normalized bytes; the end once all have been given. */
    method Read(max: nat) returns (data: seq<Byte>, end: bool)
      requires Valid() && max > 0
      modifies this, scratch, src
      ensures Valid() && given == old(given) + data && |data| <= max
      ensures if end then data == [] && given == Fold(input) else data != []
    {
      while outFrom == outTo
        invariant Valid() && given == old(given)
        decreases !ended, |src.rest| + |src.cuts|
      {
        if ended {
          assert scratch[outFrom..outTo] == [] && scratch[carryFrom..carryTo] + src.rest == [];
          return [], true;
        }
        Fill();
      }
      data := Give(max);
      end := false;
    }

    /** Some of the bytes that are ready. */
    method Give(max: nat) returns (data: seq<Byte>)
      requires Valid() && max > 0 && outFrom < outTo
      modifies this`outFrom, this`given
      ensures Valid() && given == old(given) + data && 0 < |data| <= max
    {
      var n := if outTo - outFrom < max then outTo - outFrom else max;
      data := scratch[outFrom..outFrom + n];
      ghost var more :=
        GiveSlice(Fold(input), given, scratch, outFrom, n, outTo, Fold(scratch[carryFrom..carryTo] + src.rest));
      outFrom := outFrom + n;
      given := more;
    }
  }

  /** Whatever the reads of the source, the window, and the reads of the caller, the
      bytes read are the input folded at once. */
  method ReadAll(input: seq<Byte>, cuts: seq<Cut>, window: nat, max: nat) returns (all: seq<Byte>)
    requires window >= 3 && max > 0
    ensures all == Fold(input)
  {
    var src := new Source(input, cuts);
    var reader := new LineEndReader(src, window);
    all := [];
    var end := false;
    while !end
      invariant reader.Valid() && all == reader.given && reader.input == input
      invariant fresh(reader) && fresh(reader.scratch) && fresh(reader.src)
      invariant end ==> all == Fold(input)
      decreases !end, |Fold(input)| - |all|
    {
      assert |reader.given| <= |Fold(input)|;
      var data;
      data, end := reader.Read(max);
      all := all + data;
      assert |reader.given| <= |Fold(input)|;
    }
  }
}
