/** A rational as an exact decimal: there is one exactly where the denominator has no prime
    factor but 2 and 5, and the digits kept are as few as will do. */
module Decimal {

  function Pow(b: nat, n: nat): (p: nat)
    ensures b > 0 ==> p > 0
  {
    if n == 0 then 1 else b * Pow(b, n - 1)
  }

  predicate Divides(k: nat, x: nat)
    requires k > 0
  {
    x % k == 0
  }

  ghost predicate LowestTerms(num: nat, den: nat) { forall k: nat | k >= 2 :: !(Divides(k, num) && Divides(k, den)) }

  /** The value num/den is c / 10^s. */
  predicate IsDecimal(num: nat, den: nat, c: nat, s: nat) { c * den == num * Pow(10, s) }

  datatype Magnitude = Magnitude(coefficient: nat, scale: nat) | NotDecimal

  // ---- powers ------------------------------------------------------------

  lemma {:induction false} PowAdds(b: nat, m: nat, n: nat)
    ensures Pow(b, m + n) == Pow(b, m) * Pow(b, n)
  {
    if m > 0 {
      PowAdds(b, m - 1, n);
      Associates(b, Pow(b, m - 1), Pow(b, n));
    }
  }

  lemma Associates(x: nat, y: nat, z: nat)
    ensures x * (y * z) == x * y * z
  {
  }

  lemma {:induction false} PowMultiplies(x: nat, y: nat, n: nat)
    ensures Pow(x * y, n) == Pow(x, n) * Pow(y, n)
  {
    if n > 0 {
      PowMultiplies(x, y, n - 1);
      Regroups(x, y, Pow(x, n - 1), Pow(y, n - 1));
    }
  }

  lemma Regroups(w: nat, x: nat, y: nat, z: nat)
    ensures w * x * (y * z) == w * y * (x * z)
  {
    assert w * x * (y * z) == w * (x * (y * z));
    assert x * (y * z) == y * (x * z);
  }

  // ---- a prime and what it does not divide -------------------------------

  predicate Prime(p: nat) { p == 2 || p == 5 }

  lemma PrimeSplits(p: nat, x: nat, y: nat)
    requires Prime(p) && Divides(p, x * y)
    ensures Divides(p, x) || Divides(p, y)
  {
    var q, r, u, v := x / p, x % p, y / p, y % p;
    assert x * y == p * (q * y + r * u) + r * v by { Expands(p, q, r, u, v, x, y); }
    Leaves(p, q * y + r * u, r * v);
    if p == 5 {
      Fives(r, v);
    } else {
      assert r == 1 && v == 1 ==> r * v == 1;
    }
  }

  lemma Expands(p: nat, q: nat, r: nat, u: nat, v: nat, x: nat, y: nat)
    requires x == p * q + r && y == p * u + v
    ensures x * y == p * (q * y + r * u) + r * v
  {
    assert x * y == p * q * y + r * y;
    assert r * y == r * (p * u) + r * v;
    assert r * (p * u) == p * (r * u) && p * q * y == p * (q * y);
  }

  lemma Leaves(p: nat, k: nat, r: nat)
    requires Prime(p)
    ensures (p * k + r) % p == r % p
  {
  }

  lemma Fives(r: nat, v: nat)
    requires r < 5 && v < 5 && r * v % 5 == 0
    ensures r == 0 || v == 0
  {
    if r == 1 {} else if r == 2 {} else if r == 3 {} else if r == 4 {}
  }

  /** As many factors of `p` as are in a number, and what is left of it. */
  predicate Stripped(p: nat, x: nat, n: nat, rest: nat) {
    Prime(p) && rest > 0 && x == Pow(p, n) * rest && !Divides(p, rest)
  }

  /** Where a power of `p` times something is a power times what `p` does not divide, it is
      not the greater power. */
  lemma {:induction false} NoMoreFactors(p: nat, m: nat, x: nat, n: nat, rest: nat)
    requires Prime(p) && !Divides(p, rest) && Pow(p, m) * x == Pow(p, n) * rest
    ensures m <= n
    decreases m
  {
    if m > 0 && n > 0 {
      Associates(p, Pow(p, m - 1), x);
      Associates(p, Pow(p, n - 1), rest);
      NoMoreFactors(p, m - 1, x, n - 1, rest);
    } else if m > 0 {
      Associates(p, Pow(p, m - 1), x);
      Leaves(p, Pow(p, m - 1) * x, 0);
      assert false;
    }
  }

  lemma Grows(k: nat, x: int, y: int)
    ensures x < y ==> k * x + k <= k * y
  {
    if x < y {
      Distributes(k, x + 1, y - x - 1);
      Distributes(k, x, 1);
      Product(k, y - x - 1);
    }
  }

  lemma Distributes(k: int, x: int, y: int)
    ensures k * (x + y) == k * x + k * y
  {
  }

  lemma Product(x: nat, y: nat)
    ensures 0 <= x * y
  {
  }

  lemma SameFactor(p: nat, x: nat, y: nat)
    requires p > 0 && p * x == p * y
    ensures x == y
  {
    Grows(p, x, y);
    Grows(p, y, x);
  }

  lemma Multiple(k: nat, h: nat)
    requires k > 0
    ensures Divides(k, k * h) && k * h / k == h
  {
    Grows(k, k * h / k, h);
    Grows(k, h, k * h / k);
  }

  lemma DividesWithoutOne(p: nat, k: nat, y: nat)
    requires Prime(p) && k > 0 && !Divides(p, k) && Divides(k, p * y)
    ensures Divides(k, y)
  {
    var q := p * y / k;
    assert k * q == p * y;
    Leaves(p, y, 0);
    PrimeSplits(p, k, q);
    var h := q / p;
    assert k * (p * h) == p * (k * h);
    SameFactor(p, k * h, y);
    Multiple(k, h);
  }

  lemma TakeOne(p: nat, x: nat, n: nat)
    requires n > 0
    ensures x * Pow(p, n) == p * (x * Pow(p, n - 1))
  {
    Associates(x, p, Pow(p, n - 1));
    Associates(p, x, Pow(p, n - 1));
  }

  /** What `p` does not divide keeps dividing when factors of `p` are taken away. */
  lemma {:induction false} DividesWithout(p: nat, k: nat, x: nat, n: nat)
    requires Prime(p) && k > 0 && !Divides(p, k) && Divides(k, x * Pow(p, n))
    ensures Divides(k, x)
    decreases n
  {
    if n > 0 {
      TakeOne(p, x, n);
      DividesWithoutOne(p, k, x * Pow(p, n - 1));
      DividesWithout(p, k, x, n - 1);
    }
  }

  // ---- when a fraction is a decimal --------------------------------------

  /** The denominator apart from its factors 2 and 5. */
  predicate Parted(den: nat, a: nat, b: nat, rest: nat) {
    && rest > 0 && !Divides(2, rest) && !Divides(5, rest)
    && den == Pow(2, a) * (Pow(5, b) * rest)
  }

  function Most(x: nat, y: nat): nat { if x > y then x else y }

  lemma TenIsTwoFives(n: nat)
    ensures Pow(10, n) == Pow(2, n) * Pow(5, n)
  {
    PowMultiplies(2, 5, n);
  }

  /** A fraction in lowest terms that is a decimal leaves nothing but 1. */
  lemma DecimalLeavesOne(num: nat, den: nat, a: nat, b: nat, rest: nat, c: nat, s: nat)
    requires den > 0 && LowestTerms(num, den) && Parted(den, a, b, rest) && IsDecimal(num, den, c, s)
    ensures rest == 1
  {
    Pulls(Pow(2, a), Pow(5, b), rest, c);
    TenIsTwoFives(s);
    Associates(num, Pow(2, s), Pow(5, s));
    DividesWithout(5, rest, num * Pow(2, s), s);
    DividesWithout(2, rest, num, s);
    NoneCommon(num, den, rest);
  }

  lemma NoneCommon(num: nat, den: nat, k: nat)
    requires LowestTerms(num, den) && k > 0 && Divides(k, num) && Divides(k, den)
    ensures k == 1
  {
  }

  lemma Pulls(x: nat, y: nat, rest: nat, c: nat)
    requires rest > 0
    ensures Divides(rest, x * (y * rest)) && Divides(rest, c * (x * (y * rest)))
  {
    assert x * (y * rest) == rest * (x * y);
    Multiple(rest, x * y);
    assert c * (rest * (x * y)) == rest * (c * (x * y));
    Multiple(rest, c * (x * y));
  }

  lemma PowerDivides(p: nat, n: nat, x: nat)
    requires Prime(p) && n > 0
    ensures Divides(p, Pow(p, n) * x)
  {
    Associates(p, Pow(p, n - 1), x);
    Leaves(p, Pow(p, n - 1) * x, 0);
  }

  lemma ProductKeeps(p: nat, q: nat, x: nat, n: nat)
    requires Prime(p) && Prime(q) && p != q && !Divides(p, x)
    ensures !Divides(p, x * Pow(q, n))
    decreases n
  {
    if n > 0 {
      ProductKeeps(p, q, x, n - 1);
      Associates(q, x, Pow(q, n - 1));
      Associates(x, q, Pow(q, n - 1));
      if Divides(p, x * Pow(q, n)) {
        PrimeSplits(p, q, x * Pow(q, n - 1));
        assert false;
      }
    }
  }

  /** Each prime of the denominator takes a digit for every time it is there. */
  lemma NoFewerDigits(p: nat, q: nat, num: nat, den: nat, n: nat, other: nat, c: nat, s: nat)
    requires Prime(p) && Prime(q) && p != q
    requires LowestTerms(num, den) && den == Pow(p, n) * other && IsDecimal(num, den, c, s)
    ensures n <= s
  {
    if n > 0 {
      PowerDivides(p, n, other);
      assert p >= 2 && !Divides(p, num);
      TenIsTwoFives(s);
      ProductKeeps(p, q, num, s);
      Swaps(num, Pow(p, s), Pow(q, s));
      Swaps(c, Pow(p, n), other);
      NoMoreFactors(p, n, c * other, s, num * Pow(q, s));
    }
  }

  lemma Swaps(x: nat, y: nat, z: nat)
    ensures x * (y * z) == y * (x * z) && x * (z * y) == y * (x * z)
  {
  }

  /** The coefficient is the numerator with the factors of ten that are missing. */
  lemma EnoughDigits(num: nat, den: nat, a: nat, b: nat)
    requires den == Pow(2, a) * Pow(5, b)
    ensures var s := Most(a, b); IsDecimal(num, den, num * Pow(2, s - a) * Pow(5, s - b), s)
  {
    var s := Most(a, b);
    PowAdds(2, s - a, a);
    PowAdds(5, s - b, b);
    TenIsTwoFives(s);
    var x, y, u, v := Pow(2, s - a), Pow(5, s - b), Pow(2, a), Pow(5, b);
    assert num * x * y * (u * v) == num * ((x * u) * (y * v)) by {
      Regroups(x, y, u, v);
      assert num * x * y == num * (x * y);
      Associates(num, x * y, u * v);
    }
  }

  /** Exactly the fractions with no other prime in the denominator are decimals. */
  lemma DecimalIff(num: nat, den: nat, a: nat, b: nat, rest: nat)
    requires den > 0 && LowestTerms(num, den) && Parted(den, a, b, rest)
    ensures rest == 1 <==> exists c: nat, s: nat :: IsDecimal(num, den, c, s)
  {
    if rest == 1 {
      EnoughDigits(num, den, a, b);
    }
    forall c: nat, s: nat | IsDecimal(num, den, c, s)
      ensures rest == 1
    {
      DecimalLeavesOne(num, den, a, b, rest, c, s);
    }
  }

  lemma FewestDigits(num: nat, den: nat, a: nat, b: nat, c: nat, s: nat)
    requires LowestTerms(num, den) && den == Pow(2, a) * Pow(5, b) && IsDecimal(num, den, c, s)
    ensures Most(a, b) <= s
  {
    NoFewerDigits(2, 5, num, den, a, Pow(5, b), c, s);
    NoFewerDigits(5, 2, num, den, b, Pow(2, a), c, s);
  }

  // ---- the conversion ----------------------------------------------------

  function BitLen(x: nat): nat { if x == 0 then 0 else 1 + BitLen(x / 2) }

  function TrailingZeroBits(x: nat): nat
    requires x > 0
  {
    if x % 2 != 0 then 0 else 1 + TrailingZeroBits(x / 2)
  }

  /** Shifting out the trailing zeros divides by all factors of 2. */
  lemma {:induction false} ShiftedOut(x: nat)
    requires x > 0
    ensures Stripped(2, x, TrailingZeroBits(x), x / Pow(2, TrailingZeroBits(x)))
  {
    if x % 2 == 0 {
      ShiftedOut(x / 2);
      var n := TrailingZeroBits(x / 2);
      var rest := x / 2 / Pow(2, n);
      Associates(2, Pow(2, n), rest);
      Multiple(Pow(2, n + 1), rest);
    }
  }

  lemma {:induction false} BitLenMonotone(x: nat, y: nat)
    requires x <= y
    ensures BitLen(x) <= BitLen(y)
  {
    if x > 0 {
      BitLenMonotone(x / 2, y / 2);
    }
  }

  lemma SquareIsLonger(x: nat)
    requires x >= 5
    ensures BitLen(x * x) > BitLen(x)
  {
    assert x * x >= 2 * x;
    BitLenMonotone(2 * x, x * x);
    assert 2 * x / 2 == x;
  }

  /** Powers 5^(2^i), as long as they are no longer than `d`. */
  predicate Squares(pows: seq<nat>) {
    pows != [] && forall i | 0 <= i < |pows| :: pows[i] == Pow(5, Pow(2, i))
  }

  method FivePowers(d: nat) returns (pows: seq<nat>)
    ensures Squares(pows)
  {
    pows := [5];
    assert Pow(5, 1) == 5;
    while true
      invariant Squares(pows) && pows[|pows| - 1] >= 5
      decreases BitLen(d) + 1 - BitLen(pows[|pows| - 1])
    {
      var last := pows[|pows| - 1];
      var next := last * last;
      SquareIsLonger(last);
      if BitLen(next) > BitLen(d) { break; }
      PowAdds(5, Pow(2, |pows| - 1), Pow(2, |pows| - 1));
      assert next >= 5;
      pows := pows + [next];
    }
  }

  /** All factors of 5, the greatest powers first. */
  method StripFives(x: nat) returns (b: nat, d: nat)
    requires x > 0
    ensures Stripped(5, x, b, d)
  {
    var pows := FivePowers(x);
    b, d := 0, x;
    var i := |pows|;
    while i > 0
      invariant 0 <= i <= |pows| && d > 0 && x == Pow(5, b) * d
      invariant i == 0 ==> !Divides(5, d)
    {
      i := i - 1;
      var q, rem := d / pows[i], d % pows[i];
      while rem == 0
        invariant d > 0 && x == Pow(5, b) * d && q == d / pows[i] && rem == d % pows[i]
        decreases d
      {
        OneStep(x, b, d, Pow(2, i), q);
        d := q;
        b := b + Pow(2, i);
        q, rem := d / pows[i], d % pows[i];
      }
    }
  }

  lemma OneStep(x: nat, b: nat, d: nat, n: nat, q: nat)
    requires d > 0 && n > 0 && x == Pow(5, b) * d && d == Pow(5, n) * q
    ensures 0 < q < d && x == Pow(5, b + n) * q
  {
    PowAdds(5, b, n);
    Associates(Pow(5, b), Pow(5, n), q);
    assert Pow(5, n) >= 5;
    assert Pow(5, n) * q >= 5 * q;
  }

  /** The exact decimal of a fraction in lowest terms, or that it is none. */
  method DecimalMagnitudeOf(num: int, den: nat) returns (r: Magnitude)
    requires den > 0 && LowestTerms(Abs(num), den)
    ensures r.Magnitude? <==> exists c: nat, s: nat :: IsDecimal(Abs(num), den, c, s)
    ensures r.Magnitude? ==> IsDecimal(Abs(num), den, r.coefficient, r.scale)
    ensures r.Magnitude? ==> forall c: nat, s: nat :: IsDecimal(Abs(num), den, c, s) ==> r.scale <= s
  {
    var a := TrailingZeroBits(den);
    ShiftedOut(den);
    var odd := den / Pow(2, a);
    var b, d := StripFives(odd);
    StillOdd(odd, b, d);
    DecimalIff(Abs(num), den, a, b, d);
    if d != 1 { return NotDecimal; }
    var scale := if b > a then b else a;
    var coef := Abs(num);
    if scale - a > 0 { coef := coef * Pow(2, scale - a); }
    if scale - b > 0 { coef := coef * Pow(5, scale - b); }
    EnoughDigits(Abs(num), den, a, b);
    forall c: nat, s: nat | IsDecimal(Abs(num), den, c, s)
      ensures scale <= s
    {
      FewestDigits(Abs(num), den, a, b, c, s);
    }
    r := Magnitude(coef, scale);
  }

  function Abs(x: int): nat { if x < 0 then -x else x }

  lemma StillOdd(odd: nat, b: nat, d: nat)
    requires Stripped(5, odd, b, d) && !Divides(2, odd)
    ensures !Divides(2, d)
  {
    KeepsDividing(2, Pow(5, b), d);
  }

  lemma KeepsDividing(p: nat, m: nat, d: nat)
    requires Prime(p)
    ensures Divides(p, d) ==> Divides(p, m * d)
  {
    if Divides(p, d) {
      assert d == p * (d / p);
      assert m * (p * (d / p)) == p * (m * (d / p));
      Leaves(p, m * (d / p), 0);
    }
  }
}
