/** Numerals: what strings of digits and terminating decimals denote. */
module DurationText {

  predicate IsDigit(c: char) { '0' <= c <= '9' }

  predicate AllDigits(s: string) { forall i | 0 <= i < |s| :: IsDigit(s[i]) }

  function NumberOf(s: string): nat
    requires AllDigits(s)
  {
    if s == "" then 0 else 10 * NumberOf(s[..|s| - 1]) + (s[|s| - 1] as int - '0' as int)
  }

  function Digit(n: nat): (c: char)
    requires n < 10
    ensures IsDigit(c) && c as int - '0' as int == n
  {
    '0' + n as char
  }

  /** A number in decimal, without leading zeros. */
  function Numeral(n: nat): (s: string)
    ensures AllDigits(s) && s != "" && NumberOf(s) == n
  {
    if n < 10 then [Digit(n)] else Numeral(n / 10) + [Digit(n % 10)]
  }

  function Pow10(n: nat): (p: nat)
    ensures p > 0
  {
    if n == 0 then 1 else 10 * Pow10(n - 1)
  }

  /** The last `k` digits of a number. */
  function Padded(n: nat, k: nat): (s: string)
    ensures |s| == k && AllDigits(s)
    decreases k
  {
    if k == 0 then "" else Padded(n / 10, k - 1) + [Digit(n % 10)]
  }

  lemma {:induction false} Joined(s: string, t: string)
    requires AllDigits(s) && AllDigits(t)
    ensures AllDigits(s + t) && NumberOf(s + t) == NumberOf(s) * Pow10(|t|) + NumberOf(t)
    decreases |t|
  {
    if t == "" {
      assert s + t == s;
    } else {
      var u := t[..|t| - 1];
      Joined(s, u);
      assert (s + t)[..|s + t| - 1] == s + u && (s + t)[|s + t| - 1] == t[|t| - 1];
      Tens(NumberOf(s), Pow10(|u|));
    }
  }

  lemma Tens(x: nat, y: nat)
    ensures 10 * (x * y) == x * (10 * y)
  {
  }

  lemma {:induction false} PaddedIs(n: nat, k: nat)
    requires n < Pow10(k)
    ensures NumberOf(Padded(n, k)) == n
    decreases k
  {
    if k > 0 {
      PaddedIs(n / 10, k - 1);
      var s := Padded(n, k);
      assert s[..|s| - 1] == Padded(n / 10, k - 1);
    }
  }

  // ---- terminating decimals ----------------------------------------------

  /** A number of seconds: coefficient / 10^scale, with as few digits as will do. */
  datatype Decimal = Decimal(coefficient: nat, scale: nat)

  predicate Fewest(x: Decimal) { x.scale == 0 || x.coefficient % 10 != 0 }

  const ZERO := Decimal(0, 0)

  function Normal(c: nat, k: nat): (x: Decimal)
    ensures Fewest(x)
    decreases k
  {
    if k > 0 && c % 10 == 0 then Normal(c / 10, k - 1) else Decimal(c, k)
  }

  /** Zeros at the end change nothing; and no two of fewest digits are one value. */
  lemma {:induction false} ZerosAtEnd(c: nat, k: nat, n: nat)
    ensures Normal(c * Pow10(n), k + n) == Normal(c, k)
    decreases n
  {
    if n > 0 {
      Tens(c, Pow10(n - 1));
      OneZero(c * Pow10(n - 1), k + n - 1);
      ZerosAtEnd(c, k, n - 1);
    } else {
      assert c * Pow10(0) == c;
    }
  }

  lemma OneZero(c: nat, k: nat)
    ensures Normal(10 * c, k + 1) == Normal(c, k)
  {
  }

  /** Normal does not change the value: c / 10^k == x.coefficient / 10^x.scale. */
  lemma {:induction false} NormalKeeps(c: nat, k: nat)
    ensures Normal(c, k).scale <= k && c == Normal(c, k).coefficient * Pow10(k - Normal(c, k).scale)
    decreases k
  {
    if k > 0 && c % 10 == 0 {
      NormalKeeps(c / 10, k - 1);
      Tens(Normal(c, k).coefficient, Pow10(k - 1 - Normal(c, k).scale));
    } else {
      assert Pow10(0) == 1;
    }
  }

  function Point(s: string): (k: nat)
    ensures k <= |s| && (k < |s| ==> s[k] == '.') && forall i | 0 <= i < k :: s[i] != '.'
  {
    if s == "" || s[0] == '.' then 0 else 1 + Point(s[1..])
  }

  /** Digits, and perhaps a point and further digits. */
  predicate ValidDecimal(s: string) {
    var k := Point(s);
    k > 0 && AllDigits(s[..k]) && (k == |s| || (k + 1 < |s| && AllDigits(s[k + 1..])))
  }

  function ValueOf(s: string): (x: Decimal)
    requires ValidDecimal(s)
    ensures Fewest(x)
  {
    var k := Point(s);
    if k == |s| then Decimal(NumberOf(s[..k]), 0)
    else
      assert AllDigits(s[..k] + s[k + 1..]);
      Normal(NumberOf(s[..k] + s[k + 1..]), |s| - k - 1)
  }

  lemma PointIs(s: string, k: nat)
    requires k < |s| && s[k] == '.' && forall i | 0 <= i < k :: s[i] != '.'
    ensures Point(s) == k
  {
  }

  lemma {:induction false} NoPoint(s: string)
    requires AllDigits(s)
    ensures Point(s) == |s|
  {
    if s != "" {
      assert IsDigit(s[0]);
      NoPoint(s[1..]);
    }
  }

  /** A point and a zero add nothing to a whole number. */
  lemma PointZero(d: string)
    requires d != "" && AllDigits(d)
    ensures ValidDecimal(d + ".0") && ValueOf(d + ".0") == ValueOf(d) == Decimal(NumberOf(d), 0)
  {
    var s := d + ".0";
    forall i | 0 <= i < |d| ensures s[i] != '.' { assert IsDigit(d[i]); }
    PointIs(s, |d|);
    NoPoint(d);
    assert s[..|d|] == d && s[|d| + 1..] == "0" && d[..|d|] == d;
    assert (d + "0")[..|d|] == d && (d + "0")[|d|] == '0';
    assert NumberOf(d + "0") == 10 * NumberOf(d);
    OneZero(NumberOf(d), 0);
  }

  method ValidDecimalLexical(s: string) returns (ok: bool)
    ensures ok == ValidDecimal(s)
  {
    if s == "" { return false; }
    var digits, dots, afterDot := 0, 0, 0;
    ghost var k := Point(s);
    var i := 0;
    while i < |s|
      invariant 0 <= i <= |s| && dots == (if k < i then 1 else 0)
      invariant digits == i - dots && afterDot == (if k < i then i - k - 1 else 0)
      invariant AllDigits(s[..if k < i then k else i]) && (k < i ==> k > 0 && AllDigits(s[k + 1..i]))
    {
      if IsDigit(s[i]) {
        digits := digits + 1;
        if dots > 0 { afterDot := afterDot + 1; }
      } else if s[i] == '.' {
        dots := dots + 1;
        if dots > 1 || digits == 0 {
          assert k < i ==> k + 1 < |s| && s[k + 1..][i - k - 1] == '.';
          return false;
        }
      } else {
        assert k < i ==> k + 1 < |s| && s[k + 1..][i - k - 1] == s[i];
        assert k > i ==> s[..k][i] == s[i];
        return false;
      }
      assert k < i ==> s[k + 1..i + 1] == s[k + 1..i] + [s[i]];
      i := i + 1;
    }
    assert s[k..] == [] || s[k + 1..] == s[k + 1..|s|];
    ok := digits > 0 && (dots == 0 || afterDot > 0);
  }

  // ---- printing ----------------------------------------------------------

  function TrimZeros(s: string): (t: string)
    ensures |t| <= |s| && t == s[..|t|] && forall i | |t| <= i < |s| :: s[i] == '0'
    ensures t == "" || t[|t| - 1] != '0'
  {
    if s != "" && s[|s| - 1] == '0' then TrimZeros(s[..|s| - 1]) else s
  }

  function TrimPoint(s: string): string {
    if s != "" && s[|s| - 1] == '.' then s[..|s| - 1] else s
  }

  /** Quotient and remainder. */
  function Over(q: nat, p: nat): nat
    requires p > 0
    decreases q
  {
    if q < p then 0 else 1 + Over(q - p, p)
  }

  function Under(q: nat, p: nat): (r: nat)
    requires p > 0
    ensures r < p
    decreases q
  {
    if q < p then q else Under(q - p, p)
  }

  lemma {:induction false} OverUnder(q: nat, p: nat)
    requires p > 0
    ensures Over(q, p) * p + Under(q, p) == q
    decreases q
  {
    if q >= p {
      OverUnder(q - p, p);
    }
  }

  function Pointed(q: nat, n: nat): string { Numeral(Over(q, Pow10(n))) + "." + Padded(Under(q, Pow10(n)), n) }

  /** With exactly `n` digits after the point. */
  function FloatString(x: Decimal, n: nat): string
    requires x.scale <= n
  {
    Pointed(x.coefficient * Pow10(n - x.scale), n)
  }

  function SecondsScale(x: Decimal): nat { if x.scale == 0 then 1 else x.scale }

  function Print(x: Decimal): string { TrimPoint(TrimZeros(FloatString(x, SecondsScale(x)))) }

  lemma {:induction false} OnlyZeros(s: string)
    requires forall i | 0 <= i < |s| :: s[i] == '0'
    ensures AllDigits(s) && NumberOf(s) == 0
  {
    if s != "" {
      OnlyZeros(s[..|s| - 1]);
    }
  }

  lemma Spelt(whole: string, fraction: string)
    requires AllDigits(whole) && whole != "" && AllDigits(fraction)
    ensures ValidDecimal(whole) && ValueOf(whole) == Decimal(NumberOf(whole), 0)
    ensures AllDigits(whole + fraction)
    ensures (fraction != ""
             ==> ValidDecimal(whole + "." + fraction)
                 && ValueOf(whole + "." + fraction) == Normal(NumberOf(whole + fraction), |fraction|))
  {
    NoPoint(whole);
    assert whole[..|whole|] == whole;
    var t := whole + "." + fraction;
    PointIs(t, |whole|);
    assert t[..|whole|] == whole && t[|whole| + 1..] == fraction;
  }

  lemma ZerosDropped(whole: string, fraction: string)
    requires AllDigits(whole) && AllDigits(fraction)
    ensures var kept := TrimZeros(fraction);
            AllDigits(whole + fraction) && AllDigits(whole + kept)
            && Normal(NumberOf(whole + fraction), |fraction|) == Normal(NumberOf(whole + kept), |kept|)
  {
    var kept := TrimZeros(fraction);
    var zeros := fraction[|kept|..];
    OnlyZeros(zeros);
    Joined(whole + kept, zeros);
    assert whole + kept + zeros == whole + fraction;
    ZerosAtEnd(NumberOf(whole + kept), |kept|, |zeros|);
  }

  lemma TrimmedForm(whole: string, fraction: string)
    requires whole != "" && AllDigits(fraction)
    ensures var kept := TrimZeros(fraction);
            TrimPoint(TrimZeros(whole + "." + fraction)) == if kept == "" then whole else whole + "." + kept
  {
    var kept := TrimZeros(fraction);
    TrimsTo(whole + ".", fraction);
    var t := whole + "." + kept;
    if kept == "" {
      assert t == whole + "." && t[..|t| - 1] == whole;
    } else {
      assert t[|t| - 1] == kept[|kept| - 1] == fraction[|kept| - 1];
    }
  }

  lemma {:induction false} TrimsTo(head: string, s: string)
    requires head != "" && head[|head| - 1] != '0'
    ensures TrimZeros(head + s) == head + TrimZeros(s)
    decreases |s|
  {
    if s == "" {
      assert head + s == head;
    } else {
      assert (head + s)[|head + s| - 1] == s[|s| - 1];
      assert (head + s)[..|head + s| - 1] == head + s[..|s| - 1];
      if s[|s| - 1] == '0' {
        TrimsTo(head, s[..|s| - 1]);
      }
    }
  }

  lemma DigitsOf(u: nat, v: nat, n: nat)
    requires v < Pow10(n)
    ensures AllDigits(Numeral(u) + Padded(v, n)) && NumberOf(Numeral(u) + Padded(v, n)) == u * Pow10(n) + v
  {
    Joined(Numeral(u), Padded(v, n));
    PaddedIs(v, n);
  }

  lemma Trimmed(whole: string, fraction: string)
    requires AllDigits(whole) && whole != "" && AllDigits(fraction)
    ensures var t := TrimPoint(TrimZeros(whole + "." + fraction));
            ValidDecimal(t) && AllDigits(whole + fraction)
            && ValueOf(t) == Normal(NumberOf(whole + fraction), |fraction|)
  {
    var kept := TrimZeros(fraction);
    TrimmedForm(whole, fraction);
    ZerosDropped(whole, fraction);
    Spelt(whole, kept);
    if kept == "" {
      assert whole + kept == whole;
    }
  }

  lemma PointedReads(q: nat, n: nat)
    ensures var t := TrimPoint(TrimZeros(Pointed(q, n))); ValidDecimal(t) && ValueOf(t) == Normal(q, n)
  {
    OverUnder(q, Pow10(n));
    SplitReads(q, n, Over(q, Pow10(n)), Under(q, Pow10(n)));
  }

  lemma SplitReads(q: nat, n: nat, u: nat, v: nat)
    requires v < Pow10(n) && u * Pow10(n) + v == q
    ensures var t := TrimPoint(TrimZeros(Numeral(u) + "." + Padded(v, n)));
            ValidDecimal(t) && ValueOf(t) == Normal(q, n)
  {
    DigitsOf(u, v, n);
    Trimmed(Numeral(u), Padded(v, n));
  }

  /** A decimal is read back as it was printed. */
  lemma PrintReads(x: Decimal)
    requires Fewest(x)
    ensures ValidDecimal(Print(x)) && ValueOf(Print(x)) == x
  {
    var n := SecondsScale(x);
    PointedReads(x.coefficient * Pow10(n - x.scale), n);
    ZerosAtEnd(x.coefficient, x.scale, n - x.scale);
  }
}
