/** What a written duration comes to, from its digits alone and in real numbers, and that
    parsing gives exactly that. */
module DurationMeaning {
  import opened Basics
  import opened DurationText
  import opened Durations

  /** Digits, and the digits after a point if it has one. */
  datatype Number = Number(whole: string, fraction: string)

  predicate Digits(s: string) { forall i | 0 <= i < |s| :: '0' <= s[i] <= '9' }

  predicate Zeros(s: string) { forall i | 0 <= i < |s| :: s[i] == '0' }

  predicate Spelled(n: Number) { n.whole != "" && Digits(n.whole) && Digits(n.fraction) }

  function DigitReal(c: char): real { c as int as real - '0' as int as real }

  function WholeReal(s: string): real {
    if s == "" then 0.0 else 10.0 * WholeReal(s[..|s| - 1]) + DigitReal(s[|s| - 1])
  }

  function FractionReal(s: string): real {
    if s == "" then 0.0 else (DigitReal(s[0]) + FractionReal(s[1..])) / 10.0
  }

  /** A field that is left out counts for nothing. */
  function Amount(n: Option<Number>): real {
    if n.None? then 0.0 else WholeReal(n.value.whole) + FractionReal(n.value.fraction)
  }

  /** The six fields, each of which may be left out. */
  datatype Fields = Fields(years: Option<Number>, months: Option<Number>, days: Option<Number>,
                           hours: Option<Number>, minutes: Option<Number>, seconds: Option<Number>)

  predicate IsWhole(n: Option<Number>) { n.Some? ==> Spelled(n.value) && Zeros(n.value.fraction) }

  predicate Timed(x: Fields) { x.hours.Some? || x.minutes.Some? || x.seconds.Some? }

  /** At least one field; only seconds may have a fraction other than zero. */
  predicate Proper(x: Fields) {
    && IsWhole(x.years) && IsWhole(x.months) && IsWhole(x.days) && IsWhole(x.hours) && IsWhole(x.minutes)
    && (x.seconds.Some? ==> Spelled(x.seconds.value))
    && (x.years.Some? || x.months.Some? || x.days.Some? || Timed(x))
  }

  function Text(n: Option<Number>): string {
    if n.None? then ""
    else if n.value.fraction == "" then n.value.whole
    else n.value.whole + "." + n.value.fraction
  }

  function Marked(n: Option<Number>, unit: char): string { if n.None? then "" else Text(n) + [unit] }

  function Spelling(negative: bool, x: Fields): string {
    (if negative then "-" else "") + "P"
    + Marked(x.years, 'Y') + Marked(x.months, 'M') + Marked(x.days, 'D')
    + if Timed(x) then "T" + Marked(x.hours, 'H') + Marked(x.minutes, 'M') + Marked(x.seconds, 'S') else ""
  }

  predicate Blank(s: string) { forall i | 0 <= i < |s| :: s[i] in " \t\n\r" }

  function Months(x: Fields): real { 12.0 * Amount(x.years) + Amount(x.months) }

  function Seconds(x: Fields): real {
    86400.0 * Amount(x.days) + 3600.0 * Amount(x.hours) + 60.0 * Amount(x.minutes) + Amount(x.seconds)
  }

  /** Whether a field that the kind does not allow is other than zero. */
  predicate Forbidden(x: Fields, kind: Kind) {
    match kind
    case YearMonth => Amount(x.days) != 0.0 || Amount(x.hours) != 0.0 || Amount(x.minutes) != 0.0
                      || Amount(x.seconds) != 0.0
    case DayTime => Amount(x.years) != 0.0 || Amount(x.months) != 0.0
    case AnyDuration => false
  }

  function RealOf(d: Decimal): real { d.coefficient as real / Pow10(d.scale) as real }

  // ---- numbers -----------------------------------------------------------

  lemma {:induction false} WholeIs(s: string)
    requires Digits(s)
    ensures AllDigits(s) && WholeReal(s) == NumberOf(s) as real
  {
    assert AllDigits(s);
    if s != "" { WholeIs(s[..|s| - 1]); }
  }

  lemma {:induction false} FractionIs(s: string)
    requires Digits(s)
    ensures AllDigits(s) && FractionReal(s) == NumberOf(s) as real / Pow10(|s|) as real
    decreases |s|
  {
    assert AllDigits(s);
    if s != "" {
      FractionIs(s[1..]);
      FirstDigit(s);
      Tenth(s[0] as nat - '0' as nat, NumberOf(s[1..]), Pow10(|s| - 1));
    }
  }

  lemma FirstDigit(s: string)
    requires s != "" && AllDigits(s) && AllDigits(s[1..])
    ensures NumberOf(s) == (s[0] as nat - '0' as nat) * Pow10(|s| - 1) + NumberOf(s[1..])
  {
    assert s == [s[0]] + s[1..] && [s[0]][..0] == "";
    Joined([s[0]], s[1..]);
    assert NumberOf([s[0]]) == s[0] as nat - '0' as nat;
  }

  lemma Tenth(d: nat, n: nat, p: nat)
    requires p > 0
    ensures (d as real + n as real / p as real) / 10.0 == (d * p + n) as real / (10 * p) as real
  {
    var (c, x, q) := (d as real, n as real, p as real);
    assert (d * p + n) as real == c * q + x && (10 * p) as real == 10.0 * q;
    TenthReal(c, x, q);
  }

  lemma TenthReal(c: real, x: real, q: real)
    requires q > 0.0
    ensures (c + x / q) / 10.0 == (c * q + x) / (10.0 * q)
  {
    var y := x / q;
    assert c * q + x == (c + y) * q;
    assert (c + y) * q / (10.0 * q) == (c + y) / 10.0;
  }

  /** As many tens in the number as places given up change nothing. */
  lemma NormalReal(c: nat, k: nat)
    ensures RealOf(Normal(c, k)) == c as real / Pow10(k) as real
  {
    NormalKeeps(c, k);
    var x := Normal(c, k);
    PowSum(x.scale, k - x.scale);
    Cancel(x.coefficient, Pow10(k - x.scale), Pow10(x.scale));
  }

  lemma {:induction false} PowSum(m: nat, n: nat)
    ensures Pow10(m + n) == Pow10(m) * Pow10(n)
    decreases n
  {
    if n > 0 {
      PowSum(m, n - 1);
      Tens(Pow10(m), Pow10(n - 1));
    }
  }

  lemma Cancel(c: nat, p: nat, q: nat)
    requires p > 0 && q > 0
    ensures (c * p) as real / (q * p) as real == c as real / q as real
  {
    var (x, y, z) := (c as real, p as real, q as real);
    assert (c * p) as real == x * y && (q * p) as real == z * y;
    assert (x / z) * (z * y) == x * y;
  }

  lemma {:induction false} OnlyZerosReal(s: string)
    requires Digits(s)
    ensures 0.0 <= FractionReal(s) < 1.0 && (Zeros(s) <==> FractionReal(s) == 0.0)
  {
    if s != "" {
      OnlyZerosReal(s[1..]);
      assert s[0] == '0' && Zeros(s[1..]) ==> forall i | 0 <= i < |s| :: i == 0 || s[i] == s[1..][i - 1];
    }
  }

  /** The program's value of a number is its amount, a whole one if no digit after the
      point counts. */
  lemma NumberIs(n: Number)
    requires Spelled(n)
    ensures ValidDecimal(Text(Some(n))) && Text(Some(n)) != ""
    ensures RealOf(ValueOf(Text(Some(n)))) == Amount(Some(n)) >= 0.0
    ensures Zeros(n.fraction) ==> ValueOf(Text(Some(n))).scale == 0
  {
    var (w, f) := (n.whole, n.fraction);
    WholeIs(w);
    FractionIs(f);
    OnlyZerosReal(f);
    if f == "" { WholeValue(w); } else { PointedValue(w, f); }
  }

  lemma WholeValue(w: string)
    requires w != "" && AllDigits(w)
    ensures ValidDecimal(w) && ValueOf(w) == Decimal(NumberOf(w), 0)
  {
    NoPoint(w);
    assert w[..|w|] == w;
  }

  lemma PointedValue(w: string, f: string)
    requires w != "" && f != "" && AllDigits(w) && AllDigits(f)
    ensures ValidDecimal(w + "." + f)
    ensures RealOf(ValueOf(w + "." + f)) == NumberOf(w) as real + NumberOf(f) as real / Pow10(|f|) as real
    ensures Zeros(f) ==> ValueOf(w + "." + f).scale == 0
  {
    ValueIs(w, f);
    NormalReal(NumberOf(w + f), |f|);
    Added(NumberOf(w + f), NumberOf(w), NumberOf(f), Pow10(|f|));
    if Zeros(f) { DropsZeros(w, f); }
  }

  lemma ValueIs(w: string, f: string)
    requires w != "" && f != "" && AllDigits(w) && AllDigits(f)
    ensures AllDigits(w + f) && NumberOf(w + f) == NumberOf(w) * Pow10(|f|) + NumberOf(f)
    ensures ValidDecimal(w + "." + f) && ValueOf(w + "." + f) == Normal(NumberOf(w + f), |f|)
  {
    var t := w + "." + f;
    forall i | 0 <= i < |w| ensures t[i] != '.' { assert t[i] == w[i] && IsDigit(w[i]); }
    PointIs(t, |w|);
    assert t[..|w|] == w && t[|w| + 1..] == f;
    Joined(w, f);
  }

  lemma Added(c: nat, m: nat, n: nat, p: nat)
    requires p > 0 && c == m * p + n
    ensures c as real / p as real == m as real + n as real / p as real
  {
    var (x, y, q) := (m as real, n as real, p as real);
    assert c as real == x * q + y;
    assert (x * q + y) / q == x + y / q;
  }

  lemma DropsZeros(w: string, f: string)
    requires Digits(w) && Zeros(f)
    ensures AllDigits(w + f) && Normal(NumberOf(w + f), |f|).scale == 0
  {
    WholeIs(w);
    OnlyZeros(f);
    Joined(w, f);
    ZerosAtEnd(NumberOf(w), 0, |f|);
  }

  // ---- forms -------------------------------------------------------------

  function FormOf(negative: bool, x: Fields): Form {
    Form(negative, [Text(x.years), Text(x.months), Text(x.days)], Timed(x),
         [Text(x.hours), Text(x.minutes), Text(x.seconds)])
  }

  lemma FieldIs(n: Option<Number>, unit: char)
    requires n.Some? ==> Spelled(n.value)
    requires unit != 'S' ==> IsWhole(n)
    ensures ValidField(Text(n), unit) && (Text(n) == "" <==> n.None?)
    ensures RealOf(FieldValue(Text(n), unit)) == Amount(n) >= 0.0
    ensures unit != 'S' ==> FieldValue(Text(n), unit).scale == 0
  {
    if n.Some? { NumberIs(n.value); }
  }

  /** Three fields at once: what is written of them, and what they come to. */
  lemma ThreeFields(a: string, b: string, c: string, u: char, v: char, w: char)
    requires ValidField(a, u) && ValidField(b, v) && ValidField(c, w)
    ensures ValidFields([a, b, c], [u, v, w])
    ensures AnyField([a, b, c]) <==> a != "" || b != "" || c != ""
    ensures WriteAll([a, b, c], [u, v, w]) == WriteField(a, u) + WriteField(b, v) + WriteField(c, w)
    ensures FieldValues([a, b, c], [u, v, w]) == [FieldValue(a, u), FieldValue(b, v), FieldValue(c, w)]
  {
    var f := [a, b, c];
    assert a != "" ==> f[0] != "";
    assert b != "" ==> f[1] != "";
    assert c != "" ==> f[2] != "";
    ThreeWritten(a, b, c, u, v, w);
    ThreeValues(a, b, c, u, v, w);
  }

  lemma Tails<T>(a: T, b: T, c: T)
    ensures [a, b, c][1..] == [b, c] && [b, c][1..] == [c] && [c][1..] == []
  {
  }

  lemma ThreeWritten(a: string, b: string, c: string, u: char, v: char, w: char)
    ensures WriteAll([a, b, c], [u, v, w]) == WriteField(a, u) + WriteField(b, v) + WriteField(c, w)
  {
    Tails(a, b, c);
    Tails(u, v, w);
    var (x, y, z) := (WriteField(a, u), WriteField(b, v), WriteField(c, w));
    assert WriteAll([c], [w]) == z + "" == z;
    assert WriteAll([b, c], [v, w]) == y + z;
    assert x + (y + z) == x + y + z;
  }

  lemma ThreeValues(a: string, b: string, c: string, u: char, v: char, w: char)
    requires ValidField(a, u) && ValidField(b, v) && ValidField(c, w)
    requires ValidFields([a, b, c], [u, v, w])
    ensures FieldValues([a, b, c], [u, v, w]) == [FieldValue(a, u), FieldValue(b, v), FieldValue(c, w)]
  {
    Tails(a, b, c);
    Tails(u, v, w);
    OneMoreValue([a, b, c], [u, v, w]);
    OneMoreValue([b, c], [v, w]);
    OneMoreValue([c], [w]);
  }

  lemma OneMoreValue(fields: seq<string>, units: string)
    requires ValidFields(fields, units) && units != ""
    ensures ValidFields(fields[1..], units[1..])
    ensures FieldValues(fields, units) == [FieldValue(fields[0], units[0])] + FieldValues(fields[1..], units[1..])
  {
  }

  lemma DateIs(x: Fields)
    requires Proper(x)
    ensures var fs := [Text(x.years), Text(x.months), Text(x.days)];
      && ValidFields(fs, "YMD") && (AnyField(fs) <==> x.years.Some? || x.months.Some? || x.days.Some?)
      && WriteAll(fs, "YMD") == Marked(x.years, 'Y') + Marked(x.months, 'M') + Marked(x.days, 'D')
      && var v := FieldValues(fs, "YMD");
      && v[0].scale == v[1].scale == v[2].scale == 0
      && RealOf(v[0]) == Amount(x.years) && RealOf(v[1]) == Amount(x.months) && RealOf(v[2]) == Amount(x.days)
  {
    FieldIs(x.years, 'Y'); FieldIs(x.months, 'M'); FieldIs(x.days, 'D');
    ThreeFields(Text(x.years), Text(x.months), Text(x.days), 'Y', 'M', 'D');
  }

  lemma TimeIs(x: Fields)
    requires Proper(x)
    ensures var fs := [Text(x.hours), Text(x.minutes), Text(x.seconds)];
      && ValidFields(fs, "HMS") && (AnyField(fs) <==> Timed(x)) && (!Timed(x) ==> fs == ["", "", ""])
      && WriteAll(fs, "HMS") == Marked(x.hours, 'H') + Marked(x.minutes, 'M') + Marked(x.seconds, 'S')
      && var v := FieldValues(fs, "HMS");
      && v[0].scale == v[1].scale == 0
      && RealOf(v[0]) == Amount(x.hours) && RealOf(v[1]) == Amount(x.minutes) && RealOf(v[2]) == Amount(x.seconds)
  {
    FieldIs(x.hours, 'H'); FieldIs(x.minutes, 'M'); FieldIs(x.seconds, 'S');
    ThreeFields(Text(x.hours), Text(x.minutes), Text(x.seconds), 'H', 'M', 'S');
  }

  lemma FormIs(negative: bool, x: Fields)
    requires Proper(x)
    ensures WellFormed(FormOf(negative, x)) && Write(FormOf(negative, x)) == Spelling(negative, x)
  {
    DateIs(x);
    TimeIs(x);
    var date := Marked(x.years, 'Y') + Marked(x.months, 'M') + Marked(x.days, 'D');
    var time := Marked(x.hours, 'H') + Marked(x.minutes, 'M') + Marked(x.seconds, 'S');
    SpelledOut(negative, x, date, time);
  }

  lemma SpelledOut(negative: bool, x: Fields, date: string, time: string)
    requires date == Marked(x.years, 'Y') + Marked(x.months, 'M') + Marked(x.days, 'D')
    requires time == Marked(x.hours, 'H') + Marked(x.minutes, 'M') + Marked(x.seconds, 'S')
    ensures Signed(negative, date + (if Timed(x) then "T" + time else "")) == Spelling(negative, x)
  {
    Regroup(if negative then "-" else "", "P", Marked(x.years, 'Y'), Marked(x.months, 'M'), Marked(x.days, 'D'),
            if Timed(x) then "T" + time else "");
    InOrder("T", Marked(x.hours, 'H'), Marked(x.minutes, 'M'), Marked(x.seconds, 'S'));
  }

  lemma Regroup(s: string, p: string, a: string, b: string, c: string, rest: string)
    ensures s + (p + (a + b + c + rest)) == s + p + a + b + c + rest
  {
  }

  lemma InOrder(p: string, a: string, b: string, c: string)
    ensures p + (a + b + c) == p + a + b + c
  {
  }

  // ---- white space -------------------------------------------------------

  lemma {:induction false} LeftOff(a: string, s: string)
    requires Blank(a) && s != "" && !IsSpace(s[0])
    ensures TrimLeft(a + s) == s
    decreases |a|
  {
    if a != "" {
      assert a[0] in a && (a + s)[1..] == a[1..] + s;
      LeftOff(a[1..], s);
    } else {
      assert a + s == s;
    }
  }

  lemma {:induction false} RightOff(s: string, b: string)
    requires Blank(b) && s != "" && !IsSpace(s[|s| - 1])
    ensures TrimRight(s + b) == s
    decreases |b|
  {
    if b != "" {
      assert b[|b| - 1] in b && (s + b)[..|s + b| - 1] == s + b[..|b| - 1];
      RightOff(s, b[..|b| - 1]);
    } else {
      assert s + b == s;
    }
  }

  /** White space around a text that ends in neither is ignored. */
  lemma PaddedParse(a: string, s: string, b: string, kind: Kind)
    requires Blank(a) && Blank(b) && s != "" && !IsSpace(s[0]) && !IsSpace(s[|s| - 1])
    ensures Parse(a + s + b, kind) == Parse(s, kind)
  {
    assert a + s + b == a + (s + b) && (s + b)[0] == s[0];
    LeftOff(a, s + b);
    RightOff(s, b);
    Unspaced(s);
  }

  // ---- what is parsed ----------------------------------------------------

  lemma RealPlus(n: nat, x: Decimal)
    ensures RealOf(Plus(n, x)) == n as real + RealOf(x)
  {
    ScaledIs(n, x.scale);
    Added(Scaled(n, x.scale) + x.coefficient, n, x.coefficient, Pow10(x.scale));
  }

  lemma {:induction false} ScaledIs(n: nat, k: nat)
    ensures Scaled(n, k) == n * Pow10(k)
    decreases k
  {
    if k > 0 {
      ScaledIs(n, k - 1);
      Tens(n, Pow10(k - 1));
    } else {
      assert n * Pow10(0) == n;
    }
  }

  lemma RealZero(x: Decimal)
    ensures RealOf(x) >= 0.0 && (RealOf(x) == 0.0 <==> x.coefficient == 0)
    ensures x.scale == 0 ==> RealOf(x) == x.coefficient as real
  {
  }

  /** Of a well-formed duration, with white space around it, everything the program answers:
      what it comes to, and when it is refused. */
  lemma ParseMeans(a: string, negative: bool, x: Fields, b: string, kind: Kind)
    requires Proper(x) && Blank(a) && Blank(b)
    ensures var r := Parse(a + Spelling(negative, x) + b, kind);
      && (r.TooManyMonths? <==> Months(x) > MAX_INT as real)
      && (r.Malformed? <==> Months(x) <= MAX_INT as real && Forbidden(x, kind))
      && (r.Good? ==>
            r.d.negative == negative && r.d.months as real == Months(x) && RealOf(r.d.seconds) == Seconds(x))
  {
    var f := FormOf(negative, x);
    FormIs(negative, x);
    WrittenUnspaced(f);
    PaddedParse(a, Write(f), b, kind);
    ParsesWritten(f, kind);
    DateIs(x);
    TimeIs(x);
    Amounts(x);
    JudgedMeans(negative, x, FieldValues(f.date, "YMD"), FieldValues(f.time, "HMS"), kind);
  }

  lemma Amounts(x: Fields)
    requires Proper(x)
    ensures Amount(x.years) >= 0.0 && Amount(x.months) >= 0.0 && Amount(x.days) >= 0.0
    ensures Amount(x.hours) >= 0.0 && Amount(x.minutes) >= 0.0 && Amount(x.seconds) >= 0.0
  {
    FieldIs(x.years, 'Y'); FieldIs(x.months, 'M'); FieldIs(x.days, 'D');
    FieldIs(x.hours, 'H'); FieldIs(x.minutes, 'M'); FieldIs(x.seconds, 'S');
  }

  lemma WrittenUnspaced(f: Form)
    requires WellFormed(f)
    ensures Write(f) != "" && !IsSpace(Write(f)[0]) && !IsSpace(Write(f)[|Write(f)| - 1])
  {
    BodyEnds(f);
    SignedEnds(f.negative, WriteBody(f));
  }

  lemma SignedEnds(negative: bool, body: string)
    requires EndsIn(body, "YMDHS")
    ensures var s := Signed(negative, body); s != "" && !IsSpace(s[0]) && !IsSpace(s[|s| - 1])
  {
    var s := Signed(negative, body);
    assert s[0] == '-' || s[0] == 'P';
    assert s[|s| - 1] == body[|body| - 1];
  }

  lemma JudgedMeans(negative: bool, x: Fields, date: seq<Decimal>, time: seq<Decimal>, kind: Kind)
    requires |date| == 3 && |time| == 3
    requires date[0].scale == date[1].scale == date[2].scale == time[0].scale == time[1].scale == 0
    requires RealOf(date[0]) == Amount(x.years) && RealOf(date[1]) == Amount(x.months)
    requires RealOf(date[2]) == Amount(x.days) && RealOf(time[0]) == Amount(x.hours)
    requires RealOf(time[1]) == Amount(x.minutes) && RealOf(time[2]) == Amount(x.seconds)
    ensures var r := Judged(negative, date, time, kind);
      && (r.TooManyMonths? <==> Months(x) > MAX_INT as real)
      && (r.Malformed? <==> Months(x) <= MAX_INT as real && Forbidden(x, kind))
      && (r.Good? ==>
            r.d.negative == negative && r.d.months as real == Months(x) && RealOf(r.d.seconds) == Seconds(x))
  {
    RealZero(date[0]); RealZero(date[1]); RealZero(date[2]);
    RealZero(time[0]); RealZero(time[1]); RealZero(time[2]);
    RealPlus(86400 * date[2].coefficient + 3600 * time[0].coefficient + 60 * time[1].coefficient, time[2]);
    RealZero(SecondsOf(date[2], time));
    assert MonthsOf(date) as real == Months(x);
    assert RealOf(SecondsOf(date[2], time)) == Seconds(x);
  }

  // ---- and nothing else --------------------------------------------------

  lemma Regrouped(a: string, b: string, c: string)
    ensures a + (b + c) == a + b + c
  {
  }

  lemma {:induction false} WasLeft(s: string) returns (a: string)
    ensures s == a + TrimLeft(s) && Blank(a)
  {
    if s != "" && IsSpace(s[0]) {
      var more := WasLeft(s[1..]);
      a := [s[0]] + more;
      assert s == [s[0]] + s[1..];
      Regrouped([s[0]], more, TrimLeft(s[1..]));
    } else {
      a := "";
    }
  }

  lemma {:induction false} WasRight(s: string) returns (b: string)
    ensures s == TrimRight(s) + b && Blank(b)
    decreases |s|
  {
    if s != "" && IsSpace(s[|s| - 1]) {
      var more := WasRight(s[..|s| - 1]);
      b := more + [s[|s| - 1]];
      assert s == s[..|s| - 1] + [s[|s| - 1]];
      Regrouped(TrimRight(s[..|s| - 1]), more, [s[|s| - 1]]);
    } else {
      b := "";
    }
  }

  /** The number a field was written as. */
  lemma NumberIn(text: string, unit: char) returns (n: Option<Number>)
    requires ValidField(text, unit)
    ensures Text(n) == text && (n.None? <==> text == "") && (n.Some? ==> Spelled(n.value))
    ensures unit != 'S' ==> IsWhole(n)
  {
    if text == "" { return None; }
    var k := Point(text);
    var m := if k == |text| then Number(text, "") else Number(text[..k], text[k + 1..]);
    n := Some(m);
    assert text[..|text|] == text;
    assert k < |text| ==> text == text[..k] + "." + text[k + 1..];
    NumberIs(m);
    if unit != 'S' { WholeMeansZeros(m); }
  }

  lemma WholeMeansZeros(n: Number)
    requires Spelled(n) && ValidDecimal(Text(Some(n))) && ValueOf(Text(Some(n))).scale == 0
    ensures Zeros(n.fraction)
  {
    NumberIs(n);
    WholeIs(n.whole);
    OnlyZerosReal(n.fraction);
    RealZero(ValueOf(Text(Some(n))));
    NoFraction(ValueOf(Text(Some(n))).coefficient, NumberOf(n.whole), FractionReal(n.fraction));
  }

  lemma NoFraction(c: nat, w: nat, f: real)
    requires c as real == w as real + f && 0.0 <= f < 1.0
    ensures f == 0.0
  {
    assert f == (c - w) as real;
  }

  /** Whatever is parsed is such a duration, with white space around it. */
  lemma ParsedIsSpelled(s: string, kind: Kind) returns (a: string, negative: bool, x: Fields, b: string)
    requires Parse(s, kind).Good?
    ensures Proper(x) && Blank(a) && Blank(b) && s == a + Spelling(negative, x) + b
  {
    a := WasLeft(s);
    b := WasRight(TrimLeft(s));
    var t := TrimRight(TrimLeft(s));
    Regrouped(a, t, b);
    var f := ParsedWasWritten(s, kind);
    negative, x := FieldsIn(f);
  }

  lemma FieldsIn(f: Form) returns (negative: bool, x: Fields)
    requires WellFormed(f)
    ensures Proper(x) && Write(f) == Spelling(negative, x)
  {
    negative := f.negative;
    var years, months, days := NumbersIn(f.date, 'Y', 'M', 'D');
    var hours, minutes, seconds := NumbersIn(f.time, 'H', 'M', 'S');
    x := Fields(years, months, days, hours, minutes, seconds);
    SomeFields(f.date, Text(years), Text(months), Text(days));
    SomeFields(f.time, Text(hours), Text(minutes), Text(seconds));
    assert FormOf(negative, x) == f;
    FormIs(negative, x);
  }

  lemma NumbersIn(fields: seq<string>, u: char, v: char, w: char)
    returns (a: Option<Number>, b: Option<Number>, c: Option<Number>)
    requires ValidFields(fields, [u, v, w])
    ensures fields == [Text(a), Text(b), Text(c)]
    ensures (u != 'S' ==> IsWhole(a)) && (v != 'S' ==> IsWhole(b)) && (w != 'S' ==> IsWhole(c))
    ensures (Text(a) == "" <==> a.None?) && (Text(b) == "" <==> b.None?) && (Text(c) == "" <==> c.None?)
    ensures c.Some? ==> Spelled(c.value)
  {
    var units := [u, v, w];
    assert ValidField(fields[0], units[0]) && ValidField(fields[1], units[1]) && ValidField(fields[2], units[2]);
    a := NumberIn(fields[0], u);
    b := NumberIn(fields[1], v);
    c := NumberIn(fields[2], w);
  }

  lemma SomeFields(fields: seq<string>, a: string, b: string, c: string)
    requires fields == [a, b, c]
    ensures AnyField(fields) <==> a != "" || b != "" || c != ""
    ensures fields == ["", "", ""] <==> a == "" && b == "" && c == ""
  {
    assert a != "" ==> fields[0] != "";
    assert b != "" ==> fields[1] != "";
    assert c != "" ==> fields[2] != "";
  }

  // ---- what is printed ---------------------------------------------------

  /** No digit that could be left out: no zero in front, and none behind the point at the end. */
  predicate Tidy(n: Number) {
    && Spelled(n) && (n.whole[0] == '0' ==> n.whole == "0")
    && (n.fraction != "" ==> n.fraction[|n.fraction| - 1] != '0')
  }

  predicate TidyField(n: Option<Number>) { n.Some? ==> Tidy(n.value) && Amount(n) != 0.0 }

  /** Every field that counts is there, in its range, and no other; nothing at all is a zero
      of the kind. */
  predicate Canonic(x: Fields, kind: Kind) {
    var none := Fields(None, None, None, None, None, None);
    if Months(x) == 0.0 && Seconds(x) == 0.0 then
      x == if kind == YearMonth then none.(months := Some(Number("0", ""))) else none.(seconds := Some(Number("0", "")))
    else
      && TidyField(x.years) && TidyField(x.months) && TidyField(x.days)
      && TidyField(x.hours) && TidyField(x.minutes) && TidyField(x.seconds)
      && Amount(x.months) < 12.0 && Amount(x.hours) < 24.0 && Amount(x.minutes) < 60.0 && Amount(x.seconds) < 60.0
  }

  lemma {:induction false} NoZeroInFront(n: nat)
    ensures var s := Numeral(n); (s[0] == '0' ==> n == 0) && (n == 0 ==> s == "0")
  {
    if n >= 10 { NoZeroInFront(n / 10); }
  }

  function NumberFor(n: nat): Option<Number> { if n == 0 then None else Some(Number(Numeral(n), "")) }

  lemma NumberForIs(n: nat, unit: char)
    ensures IsWhole(NumberFor(n)) && TidyField(NumberFor(n)) && Amount(NumberFor(n)) == n as real
    ensures Marked(NumberFor(n), unit) == Unless0(n, unit)
  {
    NoZeroInFront(n);
    WholeIs(Numeral(n));
  }

  /** Seconds in fewest digits. */
  lemma NumberPrinted(z: Decimal) returns (n: Number)
    requires Fewest(z)
    ensures Tidy(n) && Text(Some(n)) == Print(z) && Amount(Some(n)) == RealOf(z)
  {
    var k := SecondsScale(z);
    var q := z.coefficient * Pow10(k - z.scale);
    n := NumberTrimmed(Over(q, Pow10(k)), Padded(Under(q, Pow10(k)), k));
    PrintedAmount(n, z);
  }

  lemma NumberTrimmed(u: nat, fraction: string) returns (n: Number)
    requires AllDigits(fraction)
    ensures Tidy(n) && Text(Some(n)) == TrimPoint(TrimZeros(Numeral(u) + "." + fraction))
  {
    n := Number(Numeral(u), TrimZeros(fraction));
    NoZeroInFront(u);
    TrimmedForm(Numeral(u), fraction);
  }

  lemma PrintedAmount(n: Number, z: Decimal)
    requires Spelled(n) && Text(Some(n)) == Print(z) && Fewest(z)
    ensures Amount(Some(n)) == RealOf(z)
  {
    NumberIs(n);
    PrintReads(z);
  }

  function RestFor(n: Number, z: Decimal): Option<Number> { if z.coefficient == 0 then None else Some(n) }

  function FieldsFor(b: Broken, n: Number): Fields {
    Fields(NumberFor(b.years), NumberFor(b.months), NumberFor(b.days), NumberFor(b.hours), NumberFor(b.minutes),
           RestFor(n, b.rest))
  }

  lemma RestAmount(n: Number, z: Decimal)
    requires Tidy(n) && Text(Some(n)) == Print(z) && Amount(Some(n)) == RealOf(z)
    ensures Amount(RestFor(n, z)) == RealOf(z) && TidyField(RestFor(n, z))
    ensures Marked(RestFor(n, z), 'S') == if z.coefficient != 0 then Print(z) + ['S'] else ""
  {
    RealZero(z);
  }

  lemma FieldsAmount(b: Broken, n: Number)
    requires Tidy(n) && Text(Some(n)) == Print(b.rest) && Amount(Some(n)) == RealOf(b.rest)
    ensures var x := FieldsFor(b, n);
      && Amount(x.years) == b.years as real && Amount(x.months) == b.months as real && Amount(x.days) == b.days as real
      && Amount(x.hours) == b.hours as real && Amount(x.minutes) == b.minutes as real
      && Amount(x.seconds) == RealOf(b.rest)
      && IsWhole(x.years) && IsWhole(x.months) && IsWhole(x.days) && IsWhole(x.hours) && IsWhole(x.minutes)
      && TidyField(x.years) && TidyField(x.months) && TidyField(x.days)
      && TidyField(x.hours) && TidyField(x.minutes) && TidyField(x.seconds)
  {
    NumberForIs(b.years, 'Y'); NumberForIs(b.months, 'M'); NumberForIs(b.days, 'D');
    NumberForIs(b.hours, 'H'); NumberForIs(b.minutes, 'M');
    RestAmount(n, b.rest);
  }

  lemma FieldsMarked(b: Broken, n: Number)
    requires Tidy(n) && Text(Some(n)) == Print(b.rest) && Amount(Some(n)) == RealOf(b.rest)
    ensures var x := FieldsFor(b, n);
      && Marked(x.years, 'Y') + Marked(x.months, 'M') + Marked(x.days, 'D') == DateText(b)
      && Marked(x.hours, 'H') + Marked(x.minutes, 'M') + Marked(x.seconds, 'S') == TimeText(b)
  {
    NumberForIs(b.years, 'Y'); NumberForIs(b.months, 'M'); NumberForIs(b.days, 'D');
    NumberForIs(b.hours, 'H'); NumberForIs(b.minutes, 'M');
    RestAmount(n, b.rest);
    Regrouped(Unless0(b.years, 'Y'), Unless0(b.months, 'M'), Unless0(b.days, 'D'));
    Regrouped(Unless0(b.hours, 'H'), Unless0(b.minutes, 'M'), Marked(RestFor(n, b.rest), 'S'));
  }

  /** What is left of a time after whole steps is less than one. */
  lemma RestBelow(x: Decimal, n: nat)
    requires n > 0
    ensures RealOf(Rest(x, n)) < n as real
  {
    ScaledIs(n, x.scale);
    ScaledPositive(n, x.scale);
    Below(Rest(x, n).coefficient, n, Pow10(x.scale));
  }

  lemma Below(c: nat, n: nat, p: nat)
    requires p > 0 && c < n * p
    ensures c as real / p as real < n as real
  {
    var (x, y, q) := (c as real, n as real, p as real);
    assert (n * p) as real == y * q;
    assert y * q / q == y;
  }

  lemma WholeBelow(times: nat, n: nat, x: Decimal, rest: Decimal, bound: nat)
    requires n > 0 && Plus(times * n, rest) == x && RealOf(x) < (bound * n) as real
    ensures times < bound
  {
    RealPlus(times * n, rest);
    RealZero(rest);
    if times >= bound { Multiplied(bound, times, n); }
  }

  lemma Multiplied(a: nat, b: nat, n: nat)
    requires a <= b
    ensures a * n <= b * n
  {
  }

  lemma InRange(d: Duration, b: Broken)
    requires Fewest(d.seconds) && b == TakenApart(d)
    ensures b.months < 12 && b.hours < 24 && b.minutes < 60 && RealOf(b.rest) < 60.0
  {
    HoursIn(d.seconds);
    MinutesIn(Rest(d.seconds, 86400));
  }

  lemma HoursIn(s: Decimal)
    requires Fewest(s)
    ensures Fewest(Rest(s, 86400)) && Times(Rest(s, 86400), 3600) < 24
  {
    TimesAndRest(s, 86400);
    RestBelow(s, 86400);
    StepsBelow(Rest(s, 86400), 3600, 24);
  }

  lemma MinutesIn(x: Decimal)
    requires Fewest(x)
    ensures Times(Rest(x, 3600), 60) < 60 && RealOf(Rest(Rest(x, 3600), 60)) < 60.0
  {
    TimesAndRest(x, 3600);
    RestBelow(x, 3600);
    StepsBelow(Rest(x, 3600), 60, 60);
    RestBelow(Rest(x, 3600), 60);
  }

  lemma StepsBelow(x: Decimal, n: nat, bound: nat)
    requires n > 0 && Fewest(x) && RealOf(x) < (bound * n) as real
    ensures Times(x, n) < bound
  {
    TimesAndRest(x, n);
    WholeBelow(Times(x, n), n, x, Rest(x, n), bound);
  }

  lemma ZeroPrinted(d: Duration, kind: Kind) returns (x: Fields)
    requires Zero(d)
    ensures Proper(x) && Canonic(x, kind) && Lexical(d, kind) == Spelling(false, x)
    ensures Months(x) == d.months as real && Seconds(x) == RealOf(d.seconds)
  {
    var none := Fields(None, None, None, None, None, None);
    var zero := Some(Number("0", ""));
    x := if kind == YearMonth then none.(months := zero) else none.(seconds := zero);
    WholeIs("0");
    assert "0"[..0] == "" && NumberOf("0") == 0;
    assert Amount(zero) == 0.0;
    RealZero(d.seconds);
    assert Spelling(false, x) == "P" + ZeroText(kind);
  }

  /** What is printed is the canonical form of the duration, and there is a sign if it is
      negative and not zero. */
  lemma PrintMeans(d: Duration, kind: Kind) returns (x: Fields)
    requires Fewest(d.seconds)
    ensures Proper(x) && Canonic(x, kind)
    ensures Lexical(d, kind) == Spelling(d.negative && (d.months != 0 || d.seconds.coefficient != 0), x)
    ensures Months(x) == d.months as real && Seconds(x) == RealOf(d.seconds)
  {
    if Zero(d) {
      x := ZeroPrinted(d, kind);
    } else {
      var b := TakenApart(d);
      AddsUp(d);
      var n := NumberPrinted(b.rest);
      x := FieldsFor(b, n);
      PrintedSums(d, b, n, x);
      PrintedInRange(d, b, n, x, kind);
      PrintedText(d, b, n, x, kind);
    }
  }

  /** The number is the seconds printed. */
  predicate Prints(n: Number, z: Decimal) {
    Tidy(n) && Text(Some(n)) == Print(z) && Amount(Some(n)) == RealOf(z)
  }

  lemma PrintedSums(d: Duration, b: Broken, n: Number, x: Fields)
    requires b == TakenApart(d) && MakesUp(b, d) && Prints(n, b.rest) && x == FieldsFor(b, n)
    ensures Months(x) == d.months as real && Seconds(x) == RealOf(d.seconds)
    ensures Zero(d) <==> Months(x) == 0.0 && Seconds(x) == 0.0
  {
    FieldsAmount(b, n);
    SecondsSum(d, b);
    BrokenSum(d, b, x);
  }

  lemma PrintedInRange(d: Duration, b: Broken, n: Number, x: Fields, kind: Kind)
    requires Fewest(d.seconds) && b == TakenApart(d) && Prints(n, b.rest) && x == FieldsFor(b, n)
    requires Months(x) != 0.0 || Seconds(x) != 0.0
    ensures Canonic(x, kind)
  {
    FieldsAmount(b, n);
    InRange(d, b);
  }

  lemma PrintedText(d: Duration, b: Broken, n: Number, x: Fields, kind: Kind)
    requires b == TakenApart(d) && MakesUp(b, d) && !Zero(d) && Prints(n, b.rest) && x == FieldsFor(b, n)
    ensures Proper(x) && Lexical(d, kind) == Spelling(d.negative, x)
  {
    NotNothing(d, b);
    FieldsAmount(b, n);
    FieldsMarked(b, n);
    Timing(b, x, n);
    SpelledOut(d.negative, x, DateText(b), TimeText(b));
  }

  lemma Timing(b: Broken, x: Fields, n: Number)
    requires Timely(b) && x == FieldsFor(b, n)
    ensures Timed(x) <==> b.timed
  {
  }

  lemma BrokenSum(d: Duration, b: Broken, x: Fields)
    requires b.years == d.months / 12 && b.months == d.months % 12
    requires RealOf(d.seconds) == (86400 * b.days + 3600 * b.hours + 60 * b.minutes) as real + RealOf(b.rest)
    requires Amount(x.years) == b.years as real && Amount(x.months) == b.months as real
    requires Amount(x.days) == b.days as real && Amount(x.hours) == b.hours as real
    requires Amount(x.minutes) == b.minutes as real && Amount(x.seconds) == RealOf(b.rest)
    ensures Months(x) == d.months as real && Seconds(x) == RealOf(d.seconds)
    ensures Zero(d) <==> Months(x) == 0.0 && Seconds(x) == 0.0
  {
    Twelfths(d.months);
    RealZero(d.seconds);
  }

  lemma SecondsSum(d: Duration, b: Broken)
    requires MakesUp(b, d)
    ensures RealOf(d.seconds) == (86400 * b.days + 3600 * b.hours + 60 * b.minutes) as real + RealOf(b.rest)
  {
    RealPlus(86400 * b.days + 3600 * b.hours + 60 * b.minutes, b.rest);
  }
}
