/** Durations as text: what is parsed is the written grammar exactly, and printing a
    duration and parsing it gives the duration back. */
module Durations {
  import opened Basics
  import opened DurationText

  datatype Duration = Duration(negative: bool, months: nat, seconds: Decimal)

  datatype Kind = AnyDuration | YearMonth | DayTime

  datatype Parsed = Good(d: Duration) | Malformed | TooManyMonths

  const MAX_INT: nat := 0x7FFF_FFFF_FFFF_FFFF

  // ---- seconds -----------------------------------------------------------

  /** n * 10^k. */
  function Scaled(n: nat, k: nat): nat {
    if k == 0 then n else 10 * Scaled(n, k - 1)
  }

  lemma {:induction false} ScaledSum(m: nat, n: nat, k: nat)
    ensures Scaled(m + n, k) == Scaled(m, k) + Scaled(n, k)
    decreases k
  {
    if k > 0 {
      ScaledSum(m, n, k - 1);
    }
  }

  lemma {:induction false} ScaledTimes(q: nat, n: nat, k: nat)
    ensures Scaled(q * n, k) == q * Scaled(n, k)
    decreases k
  {
    if k > 0 {
      ScaledTimes(q, n, k - 1);
      Tens(q, Scaled(n, k - 1));
    }
  }

  lemma {:induction false} ScaledPositive(n: nat, k: nat)
    requires n > 0
    ensures Scaled(n, k) > 0
    decreases k
  {
    if k > 0 {
      ScaledPositive(n, k - 1);
    }
  }

  function Plus(n: nat, x: Decimal): Decimal { Decimal(Scaled(n, x.scale) + x.coefficient, x.scale) }

  /** How many whole times `n` is in `x`. */
  function Times(x: Decimal, n: nat): nat
    requires n > 0
  {
    ScaledPositive(n, x.scale);
    Over(x.coefficient, Scaled(n, x.scale))
  }

  /** What is left of `x` then. */
  function Rest(x: Decimal, n: nat): Decimal
    requires n > 0
  {
    ScaledPositive(n, x.scale);
    Decimal(Under(x.coefficient, Scaled(n, x.scale)), x.scale)
  }

  lemma TimesAndRest(x: Decimal, n: nat)
    requires n > 0 && Fewest(x)
    ensures Plus(Times(x, n) * n, Rest(x, n)) == x && Fewest(Rest(x, n))
    ensures Times(x, n) == 0 ==> Rest(x, n) == x
  {
    ScaledPositive(n, x.scale);
    OverUnder(x.coefficient, Scaled(n, x.scale));
    ScaledTimes(Times(x, n), n, x.scale);
    PlusKeepsLast(Times(x, n) * n, Rest(x, n));
  }

  /** Whole seconds do not touch the last digit of a fraction. */
  lemma PlusKeepsLast(n: nat, x: Decimal)
    ensures Fewest(Plus(n, x)) <==> Fewest(x)
  {
    if x.scale > 0 {
      TensKeepLast(Scaled(n, x.scale - 1), x.coefficient);
    }
  }

  lemma TensKeepLast(k: nat, r: nat)
    ensures (10 * k + r) % 10 == r % 10
  {
  }

  lemma PlusTwice(m: nat, n: nat, x: Decimal)
    ensures Plus(m, Plus(n, x)) == Plus(m + n, x)
  {
    ScaledSum(m, n, x.scale);
  }

  // ---- parsing -----------------------------------------------------------

  predicate InRun(c: char) { IsDigit(c) || c == '.' }

  function RunOf(s: string): (i: nat)
    ensures i <= |s|
  {
    if s == "" || !InRun(s[0]) then 0 else 1 + RunOf(s[1..])
  }

  datatype Taken = Absent | Bad | Taken(text: string, rest: string)

  /** The number before `unit` at the start of `s`. */
  function Component(s: string, unit: char): (t: Taken)
    ensures t.Taken? ==> ValidDecimal(t.text) && s == t.text + [unit] + t.rest
  {
    var i := RunOf(s);
    if i == 0 || i == |s| || s[i] != unit then Absent
    else if !ValidDecimal(s[..i]) then Bad
    else Taken(s[..i], s[i + 1..])
  }

  datatype Scan = NoScan | Scan(values: seq<Decimal>, rest: string, any: bool)

  function Lead(x: Decimal, here: bool, s: Scan): Scan {
    if s.NoScan? then s else Scan([x] + s.values, s.rest, here || s.any)
  }

  /** Components in the order of their units, each at most once; only seconds may have a
      fraction. */
  function TakeAll(s: string, units: string): (r: Scan)
    ensures r.Scan? ==> |r.values| == |units|
    decreases |units|
  {
    if units == "" then Scan([], s, false)
    else
      match Component(s, units[0])
      case Bad => NoScan
      case Absent => Lead(ZERO, false, TakeAll(s, units[1..]))
      case Taken(text, rest) =>
        if units[0] != 'S' && ValueOf(text).scale != 0 then NoScan
        else Lead(ValueOf(text), true, TakeAll(rest, units[1..]))
  }

  function Find(s: string, c: char): (k: nat)
    ensures k <= |s| && (k < |s| ==> s[k] == c) && forall i | 0 <= i < k :: s[i] != c
  {
    if s == "" || s[0] == c then 0 else 1 + Find(s[1..], c)
  }

  function MonthsOf(date: seq<Decimal>): nat
    requires |date| == 3
  {
    12 * date[0].coefficient + date[1].coefficient
  }

  function SecondsOf(day: Decimal, time: seq<Decimal>): Decimal
    requires |time| == 3
  {
    Plus(86400 * day.coefficient + 3600 * time[0].coefficient + 60 * time[1].coefficient, time[2])
  }

  const NO_TIME := [ZERO, ZERO, ZERO]

  predicate Permitted(d: Duration, kind: Kind) {
    (kind == YearMonth ==> d.seconds.coefficient == 0) && (kind == DayTime ==> d.months == 0)
  }

  /** What components come to. */
  function Judged(negative: bool, date: seq<Decimal>, time: seq<Decimal>, kind: Kind): Parsed
    requires |date| == 3 && |time| == 3
  {
    var d := Duration(negative, MonthsOf(date), SecondsOf(date[2], time));
    if d.months > MAX_INT then TooManyMonths else if !Permitted(d, kind) then Malformed else Good(d)
  }

  /** The sign, and what is before and after the T. */
  datatype Parts = NoParts | Parts(negative: bool, date: string, timed: bool, time: string)

  function Split(s: string): Parts { SplitTrimmed(TrimRight(TrimLeft(s))) }

  function SplitTrimmed(t: string): Parts {
    var negative := t != "" && t[0] == '-';
    var u := if negative then t[1..] else t;
    if u == "" || u[0] != 'P' then NoParts else Cut(negative, u[1..])
  }

  function Cut(negative: bool, s: string): Parts {
    var k := Find(s, 'T');
    if k == |s| then Parts(negative, s, false, "") else Parts(negative, s[..k], true, s[k + 1..])
  }

  function Parse(s: string, kind: Kind): Parsed {
    match Split(s)
    case NoParts => Malformed
    case Parts(negative, date, timed, time) => ParseParts(negative, date, timed, time, kind)
  }

  function ParseParts(negative: bool, date: string, timed: bool, time: string, kind: Kind): Parsed {
    if (timed && time == "") || (date == "" && !timed) then Malformed
    else
      match TakeAll(date, "YMD")
      case NoScan => Malformed
      case Scan(days, left, any) =>
        if left != "" then Malformed
        else if MonthsOf(days) > MAX_INT then TooManyMonths
        else if !timed then if any then Judged(negative, days, NO_TIME, kind) else Malformed
        else
          match TakeAll(time, "HMS")
          case NoScan => Malformed
          case Scan(times, over, more) =>
            if over != "" || !(any || more) then Malformed else Judged(negative, days, times, kind)
  }

  // ---- the grammar -------------------------------------------------------

  function WriteField(text: string, unit: char): string { if text == "" then "" else text + [unit] }

  function WriteAll(fields: seq<string>, units: string): string
    requires |fields| == |units|
  {
    if units == "" then "" else WriteField(fields[0], units[0]) + WriteAll(fields[1..], units[1..])
  }

  /** A decimal, as the program takes it; before any unit but seconds its value is a whole
      number, which may be written with a point, as in "P1.0Y", though XML Schema has digits
      only there. */
  predicate ValidField(text: string, unit: char) {
    text == "" || (ValidDecimal(text) && (unit != 'S' ==> ValueOf(text).scale == 0))
  }

  predicate ValidFields(fields: seq<string>, units: string) {
    |fields| == |units| && forall i | 0 <= i < |units| :: ValidField(fields[i], units[i])
  }

  function FieldValue(text: string, unit: char): Decimal
    requires ValidField(text, unit)
  {
    if text == "" then ZERO else ValueOf(text)
  }

  function FieldValues(fields: seq<string>, units: string): (v: seq<Decimal>)
    requires ValidFields(fields, units)
    ensures |v| == |units|
  {
    if units == "" then [] else [FieldValue(fields[0], units[0])] + FieldValues(fields[1..], units[1..])
  }

  predicate AnyField(fields: seq<string>) { exists i | 0 <= i < |fields| :: fields[i] != "" }

  /** Units no two of which are the same, and none of which is part of a number. */
  predicate Units(units: string) {
    units == "" || (!InRun(units[0]) && units[0] !in units[1..] && Units(units[1..]))
  }

  lemma {:induction false} RunIs(text: string, tail: string)
    requires (forall i | 0 <= i < |text| :: InRun(text[i])) && (tail == "" || !InRun(tail[0]))
    ensures RunOf(text + tail) == |text|
    decreases |text|
  {
    if text == "" {
      assert text + tail == tail;
    } else {
      assert (text + tail)[1..] == text[1..] + tail;
      RunIs(text[1..], tail);
    }
  }

  lemma DecimalRuns(text: string)
    requires ValidDecimal(text)
    ensures forall i | 0 <= i < |text| :: InRun(text[i])
  {
    var k := Point(text);
    forall i | 0 <= i < |text|
      ensures InRun(text[i])
    {
      if i < k {
        assert text[..k][i] == text[i];
      } else if i > k {
        assert text[k + 1..][i - k - 1] == text[i];
      }
    }
  }

  lemma ComponentWritten(text: string, unit: char, tail: string)
    requires ValidDecimal(text) && !InRun(unit)
    ensures Component(text + [unit] + tail, unit) == Taken(text, tail)
    ensures forall other | other != unit :: Component(text + [unit] + tail, other) == Absent
  {
    var s := text + [unit] + tail;
    assert s == text + ([unit] + tail);
    DecimalRuns(text);
    RunIs(text, [unit] + tail);
    assert s[..|text|] == text && s[|text| + 1..] == tail && s[|text|] == unit;
  }

  /** A component whose unit is not among those written is absent. */
  lemma {:induction false} NotWritten(fields: seq<string>, units: string, other: char)
    requires ValidFields(fields, units) && Units(units) && other !in units
    ensures Component(WriteAll(fields, units), other) == Absent
    decreases |units|
  {
    if units != "" {
      var tail := WriteAll(fields[1..], units[1..]);
      if fields[0] == "" {
        assert "" + tail == tail;
        NotWritten(fields[1..], units[1..], other);
      } else {
        ComponentWritten(fields[0], units[0], tail);
      }
    }
  }

  /** What is written is taken. */
  lemma {:induction false} TakesWritten(fields: seq<string>, units: string)
    requires ValidFields(fields, units) && Units(units)
    ensures TakeAll(WriteAll(fields, units), units) == Scan(FieldValues(fields, units), "", AnyField(fields))
    decreases |units|
  {
    if units != "" {
      var tail := WriteAll(fields[1..], units[1..]);
      TakesWritten(fields[1..], units[1..]);
      SomeSplits(fields);
      if fields[0] == "" {
        assert "" + tail == tail;
        NotWritten(fields[1..], units[1..], units[0]);
      } else {
        ComponentWritten(fields[0], units[0], tail);
      }
    }
  }

  lemma SomeSplits(fields: seq<string>)
    requires fields != []
    ensures AnyField(fields) <==> fields[0] != "" || AnyField(fields[1..])
  {
    if AnyField(fields[1..]) {
      var i :| 0 <= i < |fields[1..]| && fields[1..][i] != "";
      assert fields[i + 1] != "";
    }
    if AnyField(fields) && fields[0] == "" {
      var i :| 0 <= i < |fields| && fields[i] != "";
      assert fields[1..][i - 1] != "";
    }
  }

  predicate WasTaken(s: string, units: string, fields: seq<string>) {
    && TakeAll(s, units).Scan? && ValidFields(fields, units)
    && s == WriteAll(fields, units) + TakeAll(s, units).rest
    && TakeAll(s, units).values == FieldValues(fields, units) && TakeAll(s, units).any == AnyField(fields)
  }

  lemma FirstAbsent(s: string, units: string, more: seq<string>)
    requires units != "" && Component(s, units[0]) == Absent && WasTaken(s, units[1..], more)
    ensures WasTaken(s, units, [""] + more)
  {
    var fields := [""] + more;
    assert fields[1..] == more;
    SomeSplits(fields);
    assert "" + WriteAll(more, units[1..]) == WriteAll(more, units[1..]);
  }

  lemma FirstTaken(s: string, units: string, text: string, rest: string, more: seq<string>)
    requires units != "" && Component(s, units[0]) == Taken(text, rest) && TakeAll(s, units).Scan?
    requires WasTaken(rest, units[1..], more)
    ensures WasTaken(s, units, [text] + more)
  {
    var fields := [text] + more;
    assert fields[1..] == more;
    SomeSplits(fields);
    Grouped(text + [units[0]], WriteAll(more, units[1..]), TakeAll(rest, units[1..]).rest);
    assert s == text + [units[0]] + rest;
  }

  lemma Grouped(a: string, b: string, c: string)
    ensures a + b + c == a + (b + c)
  {
  }

  /** What is taken was written. */
  lemma {:induction false} TakenWasWritten(s: string, units: string) returns (fields: seq<string>)
    requires TakeAll(s, units).Scan?
    ensures WasTaken(s, units, fields)
    decreases |units|
  {
    if units == "" {
      fields := [];
    } else {
      match Component(s, units[0])
      case Absent =>
        var more := TakenWasWritten(s, units[1..]);
        FirstAbsent(s, units, more);
        fields := [""] + more;
      case Taken(text, rest) =>
        var more := TakenWasWritten(rest, units[1..]);
        FirstTaken(s, units, text, rest, more);
        fields := [text] + more;
    }
  }

  /** A duration as written: a sign, and fields that may be empty. */
  datatype Form = Form(negative: bool, date: seq<string>, timed: bool, time: seq<string>)

  predicate WellFormed(f: Form) {
    && ValidFields(f.date, "YMD") && ValidFields(f.time, "HMS")
    && if f.timed then AnyField(f.time) else f.time == ["", "", ""] && AnyField(f.date)
  }

  function Write(f: Form): string
    requires WellFormed(f)
  {
    Signed(f.negative, WriteBody(f))
  }

  function WriteBody(f: Form): string
    requires WellFormed(f)
  {
    WriteAll(f.date, "YMD") + (if f.timed then "T" + WriteAll(f.time, "HMS") else "")
  }

  /** The duration a form denotes, if its kind and the month count admit it. */
  function Denoted(f: Form, kind: Kind): Parsed
    requires WellFormed(f)
  {
    Judged(f.negative, FieldValues(f.date, "YMD"), FieldValues(f.time, "HMS"), kind)
  }

  lemma {:induction false} NoneIn(fields: seq<string>, units: string, c: char)
    requires ValidFields(fields, units) && !InRun(c) && c !in units
    ensures c !in WriteAll(fields, units)
    decreases |units|
  {
    if units != "" {
      NoneIn(fields[1..], units[1..], c);
      if fields[0] != "" {
        DecimalRuns(fields[0]);
      }
    }
  }

  lemma FindIs(s: string, c: char, k: nat)
    requires k <= |s| && (k < |s| ==> s[k] == c) && forall i | 0 <= i < k :: s[i] != c
    ensures Find(s, c) == k
  {
  }

  lemma {:induction false} LastIsUnit(fields: seq<string>, units: string)
    requires ValidFields(fields, units) && AnyField(fields)
    ensures var w := WriteAll(fields, units); w != "" && w[|w| - 1] in units
    decreases |units|
  {
    SomeSplits(fields);
    var tail := WriteAll(fields[1..], units[1..]);
    if AnyField(fields[1..]) {
      LastIsUnit(fields[1..], units[1..]);
      var w := WriteAll(fields, units);
      assert w[|w| - 1] == tail[|tail| - 1];
    } else {
      NothingWritten(fields[1..], units[1..]);
      assert WriteAll(fields, units) == fields[0] + [units[0]];
    }
  }

  lemma {:induction false} NothingWritten(fields: seq<string>, units: string)
    requires |fields| == |units| && !AnyField(fields)
    ensures WriteAll(fields, units) == ""
    decreases |units|
  {
    if units != "" {
      SomeSplits(fields);
      NothingWritten(fields[1..], units[1..]);
    }
  }

  lemma ThreeUnits()
    ensures Units("YMD") && Units("HMS")
  {
    assert "YMD"[1..] == "MD" && "MD"[1..] == "D" && "HMS"[1..] == "MS" && "MS"[1..] == "S";
  }

  lemma ParsesScans(negative: bool, w: string, timed: bool, x: string, days: Scan, times: Scan, kind: Kind)
    requires days.Scan? && days == TakeAll(w, "YMD") && days.rest == ""
    requires timed ==> times.Scan? && times == TakeAll(x, "HMS") && times.rest == "" && times.any && x != ""
    requires !timed ==> times == Scan(NO_TIME, "", false) && days.any && w != ""
    ensures ParseParts(negative, w, timed, x, kind) == Judged(negative, days.values, times.values, kind)
  {
  }

  lemma ParsesParts(negative: bool, date: seq<string>, timed: bool, time: seq<string>, w: string, x: string, kind: Kind)
    requires ValidFields(date, "YMD") && ValidFields(time, "HMS")
    requires if timed then AnyField(time) else AnyField(date) && FieldValues(time, "HMS") == NO_TIME
    requires w == WriteAll(date, "YMD") && x == WriteAll(time, "HMS")
    ensures (ParseParts(negative, w, timed, x, kind)
             == Judged(negative, FieldValues(date, "YMD"), FieldValues(time, "HMS"), kind))
  {
    ThreeUnits();
    TakesWritten(date, "YMD");
    if timed {
      TakesWritten(time, "HMS");
      LastIsUnit(time, "HMS");
      ParsesScans(negative, w, true, x, TakeAll(w, "YMD"), TakeAll(x, "HMS"), kind);
    } else {
      LastIsUnit(date, "YMD");
      ParsesScans(negative, w, false, x, TakeAll(w, "YMD"), Scan(NO_TIME, "", false), kind);
    }
  }

  lemma Cuts(negative: bool, w: string, timed: bool, x: string)
    requires 'T' !in w && (!timed ==> x == "")
    ensures Cut(negative, w + (if timed then "T" + x else "")) == Parts(negative, w, timed, x)
  {
    var s := w + (if timed then "T" + x else "");
    FindIs(s, 'T', |w|);
    if timed {
      assert s[..|w|] == w && s[|w| + 1..] == x;
    } else {
      assert s == w;
    }
  }

  lemma NoTime(f: Form)
    requires WellFormed(f) && !f.timed
    ensures FieldValues(f.time, "HMS") == NO_TIME
  {
    assert f.time[1..] == ["", ""] && f.time[1..][1..] == [""] && "HMS"[1..] == "MS" && "MS"[1..] == "S";
    assert FieldValues([""], "S") == [ZERO];
    assert FieldValues(["", ""], "MS") == [ZERO, ZERO];
  }

  predicate EndsIn(s: string, cs: string) { s != "" && s[|s| - 1] in cs }

  lemma EndsInMore(t: string, s: string, cs: string)
    requires EndsIn(s, cs)
    ensures EndsIn(t + s, cs)
  {
  }

  lemma BodyEnds(f: Form)
    requires WellFormed(f)
    ensures EndsIn(WriteBody(f), "YMDHS")
  {
    var w, x := WriteAll(f.date, "YMD"), WriteAll(f.time, "HMS");
    if f.timed {
      LastIsUnit(f.time, "HMS");
      EndsInMore("T", x, "YMDHS");
      EndsInMore(w, "T" + x, "YMDHS");
    } else {
      LastIsUnit(f.date, "YMD");
      assert w + "" == w;
    }
  }

  function Signed(negative: bool, body: string): string { (if negative then "-" else "") + ("P" + body) }

  lemma Unspaced(s: string)
    requires s != "" && !IsSpace(s[0]) && !IsSpace(s[|s| - 1])
    ensures TrimRight(TrimLeft(s)) == s
  {
  }

  lemma SplitsSigned(negative: bool, body: string)
    ensures SplitTrimmed(Signed(negative, body)) == Cut(negative, body)
  {
    var s := Signed(negative, body);
    var u := if negative then s[1..] else s;
    assert u == "P" + body && u[1..] == body;
  }

  lemma SignedUnspaced(negative: bool, body: string)
    requires EndsIn(body, "YMDHS")
    ensures TrimRight(TrimLeft(Signed(negative, body))) == Signed(negative, body)
  {
    var s := Signed(negative, body);
    assert s[0] == '-' || s[0] == 'P';
    assert s[|s| - 1] == body[|body| - 1];
    Unspaced(s);
  }

  lemma SplitsText(negative: bool, w: string, timed: bool, x: string)
    requires 'T' !in w && (!timed ==> x == "") && EndsIn(w + (if timed then "T" + x else ""), "YMDHS")
    ensures Split(Signed(negative, w + (if timed then "T" + x else ""))) == Parts(negative, w, timed, x)
  {
    var body := w + (if timed then "T" + x else "");
    SignedUnspaced(negative, body);
    SplitsSigned(negative, body);
    Cuts(negative, w, timed, x);
  }

  lemma SplitsWritten(f: Form)
    requires WellFormed(f)
    ensures Split(Write(f)) == Parts(f.negative, WriteAll(f.date, "YMD"), f.timed, WriteAll(f.time, "HMS"))
  {
    BodyEnds(f);
    NoneIn(f.date, "YMD", 'T');
    if !f.timed {
      NothingWritten(f.time, "HMS");
    }
    SplitsText(f.negative, WriteAll(f.date, "YMD"), f.timed, WriteAll(f.time, "HMS"));
  }

  /** Everything well formed is parsed to what it denotes. */
  lemma ParsesWritten(f: Form, kind: Kind)
    requires WellFormed(f)
    ensures Parse(Write(f), kind) == Denoted(f, kind)
  {
    SplitsWritten(f);
    if !f.timed {
      NoTime(f);
    }
    ParsesParts(f.negative, f.date, f.timed, f.time, WriteAll(f.date, "YMD"), WriteAll(f.time, "HMS"), kind);
  }

  function Uncut(x: Parts): string
    requires x.Parts?
  {
    x.date + (if x.timed then "T" + x.time else "")
  }

  lemma CutWas(negative: bool, body: string)
    ensures var x := Cut(negative, body);
            x.Parts? && x.negative == negative && Uncut(x) == body && (!x.timed ==> x.time == "")
  {
    var k := Find(body, 'T');
    if k < |body| {
      assert body == body[..k] + ("T" + body[k + 1..]);
    } else {
      assert body + "" == body;
    }
  }

  lemma NegativeWas(t: string)
    requires t != "" && t[0] == '-' && t[1..] != "" && t[1..][0] == 'P'
    ensures t == Signed(true, t[1..][1..])
  {
    assert t[1..] == "P" + t[1..][1..];
  }

  lemma PositiveWas(t: string)
    requires t != "" && t[0] == 'P'
    ensures t == Signed(false, t[1..])
  {
    assert "" + ("P" + t[1..]) == t;
  }

  lemma SplitWas(t: string)
    requires SplitTrimmed(t).Parts?
    ensures var x := SplitTrimmed(t); t == Signed(x.negative, Uncut(x)) && (!x.timed ==> x.time == "")
  {
    if t[0] == '-' {
      NegativeWas(t);
      CutWas(true, t[1..][1..]);
    } else {
      PositiveWas(t);
      CutWas(false, t[1..]);
    }
  }

  /** And nothing else is parsed. */
  lemma ParsedWasWritten(s: string, kind: Kind) returns (f: Form)
    requires Parse(s, kind).Good?
    ensures WellFormed(f) && Write(f) == TrimRight(TrimLeft(s)) && Parse(s, kind) == Denoted(f, kind)
  {
    SplitWas(TrimRight(TrimLeft(s)));
    var x := Split(s);
    f := PartsWereWritten(x.negative, x.date, x.timed, x.time, kind);
  }

  lemma PartsWereWritten(negative: bool, date: string, timed: bool, time: string, kind: Kind) returns (f: Form)
    requires ParseParts(negative, date, timed, time, kind).Good? && (!timed ==> time == "")
    ensures WellFormed(f) && Write(f) == Signed(negative, date + (if timed then "T" + time else ""))
    ensures ParseParts(negative, date, timed, time, kind) == Denoted(f, kind)
  {
    var d := TakenWasWritten(date, "YMD");
    assert WriteAll(d, "YMD") + "" == WriteAll(d, "YMD");
    if timed {
      f := TimedWasWritten(negative, date, d, time, kind);
    } else {
      f := DateWasWritten(negative, date, d, kind);
      assert date + "" == date;
    }
  }

  lemma DateOnly(f: Form)
    requires ValidFields(f.date, "YMD") && AnyField(f.date) && !f.timed && f.time == ["", "", ""]
    ensures WellFormed(f)
  {
    forall i | 0 <= i < 3 ensures ValidField(f.time[i], "HMS"[i]) { assert f.time[i] == ""; }
  }

  lemma DateWasWritten(negative: bool, date: string, d: seq<string>, kind: Kind) returns (f: Form)
    requires ParseParts(negative, date, false, "", kind).Good?
    requires ValidFields(d, "YMD") && date == WriteAll(d, "YMD")
    requires TakeAll(date, "YMD") == Scan(FieldValues(d, "YMD"), "", AnyField(d))
    ensures WellFormed(f) && Write(f) == Signed(negative, date)
    ensures ParseParts(negative, date, false, "", kind) == Denoted(f, kind)
  {
    f := Form(negative, d, false, ["", "", ""]);
    DateOnly(f);
    NoTime(f);
    AnyWritten(d, "YMD");
    assert WriteBody(f) == date by { assert date + "" == date; }
    ParsesScans(negative, date, false, "", TakeAll(date, "YMD"), Scan(NO_TIME, "", false), kind);
  }

  lemma AnyWritten(fields: seq<string>, units: string)
    requires ValidFields(fields, units) && WriteAll(fields, units) != ""
    ensures AnyField(fields)
  {
    if !AnyField(fields) { NothingWritten(fields, units); }
  }

  lemma TimedWasWritten(negative: bool, date: string, d: seq<string>, time: string, kind: Kind) returns (f: Form)
    requires ParseParts(negative, date, true, time, kind).Good?
    requires ValidFields(d, "YMD") && date == WriteAll(d, "YMD")
    requires TakeAll(date, "YMD") == Scan(FieldValues(d, "YMD"), "", AnyField(d))
    ensures WellFormed(f) && Write(f) == Signed(negative, date + ("T" + time))
    ensures ParseParts(negative, date, true, time, kind) == Denoted(f, kind)
  {
    var t := TakenWasWritten(time, "HMS");
    assert WriteAll(t, "HMS") + "" == WriteAll(t, "HMS");
    if !AnyField(t) {
      NothingWritten(t, "HMS");
    }
    f := Form(negative, d, true, t);
  }

  // ---- whole numbers with a point ----------------------------------------

  lemma YearsWritten(text: string, kind: Kind)
    requires text != "" && ValidField(text, 'Y')
    ensures Parse("P" + (text + "Y"), kind) == Judged(false, [ValueOf(text), ZERO, ZERO], NO_TIME, kind)
  {
    var f := Form(false, [text, "", ""], false, ["", "", ""]);
    assert f.date[0] == text && WellFormed(f);
    YearsOnly(text);
    assert Write(f) == "P" + (text + "Y");
    TimeEmpty();
    ParsesWritten(f, kind);
  }

  lemma YearsOnly(text: string)
    requires text != "" && ValidField(text, 'Y')
    ensures WriteAll([text, "", ""], "YMD") == text + "Y"
    ensures FieldValues([text, "", ""], "YMD") == [ValueOf(text), ZERO, ZERO]
  {
    var fields := [text, "", ""];
    assert fields[1..] == ["", ""] && fields[1..][1..] == [""];
    assert "YMD"[1..] == "MD" && "MD"[1..] == "D" && "D"[1..] == "";
    assert WriteAll([""], "D") == "" && WriteAll(["", ""], "MD") == "";
    assert FieldValues([""], "D") == [ZERO] && FieldValues(["", ""], "MD") == [ZERO, ZERO];
  }

  lemma TimeEmpty()
    ensures FieldValues(["", "", ""], "HMS") == NO_TIME
  {
    var fields := ["", "", ""];
    assert fields[1..] == ["", ""] && fields[1..][1..] == [""];
    assert "HMS"[1..] == "MS" && "MS"[1..] == "S" && "S"[1..] == "";
    assert FieldValues([""], "S") == [ZERO] && FieldValues(["", ""], "MS") == [ZERO, ZERO];
  }

  /** A number of years may be written with a point, which XML Schema does not allow. */
  lemma WholeWithPoint(d: string, kind: Kind)
    requires d != "" && AllDigits(d)
    ensures Parse("P" + (d + ".0" + "Y"), kind) == Parse("P" + (d + "Y"), kind)
  {
    PointZero(d);
    NoPoint(d);
    assert d[..|d|] == d;
    YearsWritten(d, kind);
    YearsWritten(d + ".0", kind);
  }

  // ---- printing ----------------------------------------------------------

  predicate Zero(d: Duration) { d.months == 0 && d.seconds.coefficient == 0 }

  /** Without a sign where there is nothing to have one. */
  function Canonical(d: Duration): Duration { d.(negative := d.negative && !Zero(d)) }

  function Unless0(n: nat, unit: char): string { if n != 0 then Numeral(n) + [unit] else "" }

  /** A duration taken apart; timed if anything is left when its days are gone. */
  datatype Broken = Broken(years: nat, months: nat, days: nat, timed: bool, hours: nat, minutes: nat, rest: Decimal)

  function TakenApart(d: Duration): Broken {
    var x := Rest(d.seconds, 86400);
    var y := Rest(x, 3600);
    Broken(d.months / 12, d.months % 12, Times(d.seconds, 86400),
           x.coefficient != 0, Times(x, 3600), Times(y, 60), Rest(y, 60))
  }

  function TimeText(b: Broken): string {
    Unless0(b.hours, 'H') + (Unless0(b.minutes, 'M') + (if b.rest.coefficient != 0 then Print(b.rest) + ['S'] else ""))
  }

  function DateText(b: Broken): string {
    Unless0(b.years, 'Y') + (Unless0(b.months, 'M') + Unless0(b.days, 'D'))
  }

  function BodyText(b: Broken): string { DateText(b) + (if b.timed then "T" + TimeText(b) else "") }

  function ZeroText(kind: Kind): string { if kind == YearMonth then "0M" else "T0S" }

  /** A duration as printed; nothing at all is printed as a zero of its kind. */
  function Lexical(d: Duration, kind: Kind): string {
    Signed(Canonical(d).negative, if Zero(d) then ZeroText(kind) else BodyText(TakenApart(d)))
  }

  // ---- what is printed is well formed ------------------------------------

  function NumeralOr(n: nat): string { if n != 0 then Numeral(n) else "" }

  function DateFields(b: Broken): seq<string> { [NumeralOr(b.years), NumeralOr(b.months), NumeralOr(b.days)] }

  function TimeFields(b: Broken): seq<string> {
    [NumeralOr(b.hours), NumeralOr(b.minutes), if b.rest.coefficient != 0 then Print(b.rest) else ""]
  }

  function FormOf(negative: bool, b: Broken): Form { Form(negative, DateFields(b), b.timed, TimeFields(b)) }

  function ZeroForm(kind: Kind): Form {
    if kind == YearMonth then Form(false, ["", "0", ""], false, ["", "", ""])
    else Form(false, ["", "", ""], true, ["", "", "0"])
  }

  lemma NumeralFields(n: nat, unit: char)
    ensures ValidField(NumeralOr(n), unit) && FieldValue(NumeralOr(n), unit) == Decimal(n, 0)
    ensures WriteField(NumeralOr(n), unit) == Unless0(n, unit)
  {
    Spelt(Numeral(n), "");
  }

  lemma SecondsField(z: Decimal)
    requires Fewest(z)
    ensures var text := if z.coefficient != 0 then Print(z) else ""; ValidField(text, 'S') && FieldValue(text, 'S') == z
  {
    if z.coefficient != 0 { PrintReads(z); } else { assert z == ZERO; }
  }

  lemma ThreeFields(a: string, b: string, c: string, units: string)
    requires |units| == 3
    requires ValidField(a, units[0]) && ValidField(b, units[1]) && ValidField(c, units[2])
    ensures ValidFields([a, b, c], units)
    ensures (FieldValues([a, b, c], units)
             == [FieldValue(a, units[0]), FieldValue(b, units[1]), FieldValue(c, units[2])])
    ensures (WriteAll([a, b, c], units)
             == WriteField(a, units[0]) + (WriteField(b, units[1]) + WriteField(c, units[2])))
  {
    OneField(c, units[2..]);
    assert [a, b, c][1..] == [b, c] && [b, c][1..] == [c];
    assert units[1..][1..] == units[2..] && units[1..][0] == units[1];
  }

  lemma OneField(c: string, units: string)
    requires |units| == 1 && ValidField(c, units[0])
    ensures FieldValues([c], units) == [FieldValue(c, units[0])] && WriteAll([c], units) == WriteField(c, units[0])
  {
    assert [c][1..] == [] && units[1..] == "";
    assert WriteField(c, units[0]) + "" == WriteField(c, units[0]);
  }

  predicate Timely(b: Broken) {
    && Fewest(b.rest)
    && (b.timed <==> b.hours != 0 || b.minutes != 0 || b.rest.coefficient != 0)
  }

  predicate Parted(x: Decimal, n: nat, times: nat, rest: Decimal) {
    && Plus(times * n, rest) == x && Fewest(rest)
    && (x.coefficient == 0 <==> times == 0 && rest.coefficient == 0)
  }

  lemma IsParted(x: Decimal, n: nat)
    requires n > 0 && Fewest(x)
    ensures Parted(x, n, Times(x, n), Rest(x, n))
  {
    TimesAndRest(x, n);
    ScaledPositive(n, x.scale);
    OverUnder(x.coefficient, Scaled(n, x.scale));
    if Times(x, n) > 0 {
      Grows(Times(x, n), Scaled(n, x.scale));
    }
  }

  lemma Grows(q: nat, p: nat)
    requires q > 0 && p > 0
    ensures q * p > 0
  {
  }

  lemma ThreeParts(s: Decimal, days: nat, x: Decimal, hours: nat, y: Decimal, minutes: nat, z: Decimal)
    requires Parted(s, 86400, days, x) && Parted(x, 3600, hours, y) && Parted(y, 60, minutes, z)
    ensures Plus(86400 * days + 3600 * hours + 60 * minutes, z) == s
  {
    PlusTwice(hours * 3600, minutes * 60, z);
    PlusTwice(days * 86400, hours * 3600 + minutes * 60, z);
  }

  /** Days, hours, minutes and the rest make up the seconds. */
  predicate MakesUp(b: Broken, d: Duration) {
    && Timely(b) && b.years == d.months / 12 && b.months == d.months % 12
    && Plus(86400 * b.days + 3600 * b.hours + 60 * b.minutes, b.rest) == d.seconds
    && (b.days == 0 && !b.timed <==> d.seconds.coefficient == 0)
  }

  lemma AddsUp(d: Duration)
    requires Fewest(d.seconds)
    ensures MakesUp(TakenApart(d), d)
  {
    var s := d.seconds;
    var x := Rest(s, 86400);
    var y := Rest(x, 3600);
    IsParted(s, 86400);
    IsParted(x, 3600);
    IsParted(y, 60);
    FromParts(d, TakenApart(d), x, y);
  }

  lemma FromParts(d: Duration, b: Broken, x: Decimal, y: Decimal)
    requires b.years == d.months / 12 && b.months == d.months % 12 && (b.timed <==> x.coefficient != 0)
    requires Parted(d.seconds, 86400, b.days, x) && Parted(x, 3600, b.hours, y) && Parted(y, 60, b.minutes, b.rest)
    ensures MakesUp(b, d)
  {
    ThreeParts(d.seconds, b.days, x, b.hours, y, b.minutes, b.rest);
    MadeUp(d, b, y);
  }

  lemma MadeUp(d: Duration, b: Broken, y: Decimal)
    requires b.years == d.months / 12 && b.months == d.months % 12 && Fewest(b.rest)
    requires Plus(86400 * b.days + 3600 * b.hours + 60 * b.minutes, b.rest) == d.seconds
    requires d.seconds.coefficient == 0 <==> b.days == 0 && !b.timed
    requires !b.timed <==> b.hours == 0 && y.coefficient == 0
    requires y.coefficient == 0 <==> b.minutes == 0 && b.rest.coefficient == 0
    ensures MakesUp(b, d)
  {
  }

  lemma DateForm(b: Broken)
    ensures ValidFields(DateFields(b), "YMD") && WriteAll(DateFields(b), "YMD") == DateText(b)
    ensures FieldValues(DateFields(b), "YMD") == DateValues(b)
  {
    NumeralFields(b.years, 'Y');
    NumeralFields(b.months, 'M');
    NumeralFields(b.days, 'D');
    ThreeFields(NumeralOr(b.years), NumeralOr(b.months), NumeralOr(b.days), "YMD");
  }

  lemma TimeForm(b: Broken)
    requires Fewest(b.rest)
    ensures ValidFields(TimeFields(b), "HMS") && WriteAll(TimeFields(b), "HMS") == TimeText(b)
    ensures FieldValues(TimeFields(b), "HMS") == TimeValues(b)
  {
    NumeralFields(b.hours, 'H');
    NumeralFields(b.minutes, 'M');
    SecondsField(b.rest);
    ThreeFields(NumeralOr(b.hours), NumeralOr(b.minutes), TimeFields(b)[2], "HMS");
  }

  lemma ZeroReads()
    ensures ValidDecimal("0") && ValueOf("0") == ZERO
  {
    assert AllDigits("0") && NumberOf("0") == 0 by { assert "0"[..0] == ""; }
    Spelt("0", "");
  }

  lemma ZeroMonths()
    ensures var f := Form(false, ["", "0", ""], false, ["", "", ""]);
            WellFormed(f) && WriteBody(f) == "0M" && FieldValues(f.date, "YMD") == NO_TIME
            && FieldValues(f.time, "HMS") == NO_TIME
  {
    ZeroReads();
    ThreeFields("", "0", "", "YMD");
    ThreeFields("", "", "", "HMS");
    assert ["", "0", ""][1] == "0";
    assert "" + ("0" + ['M'] + "") == "0M";
  }

  lemma ZeroSeconds()
    ensures var f := Form(false, ["", "", ""], true, ["", "", "0"]);
            WellFormed(f) && WriteBody(f) == "T0S" && FieldValues(f.date, "YMD") == NO_TIME
            && FieldValues(f.time, "HMS") == NO_TIME
  {
    ZeroReads();
    ThreeFields("", "", "", "YMD");
    ThreeFields("", "", "0", "HMS");
    assert ["", "", "0"][2] == "0";
    assert "" + ("T" + ("" + ("" + ("0" + ['S'])))) == "T0S";
  }

  lemma ZeroWritten(kind: Kind)
    ensures var f := ZeroForm(kind);
            WellFormed(f) && WriteBody(f) == ZeroText(kind)
            && FieldValues(f.date, "YMD") == NO_TIME && FieldValues(f.time, "HMS") == NO_TIME
  {
    ZeroMonths();
    ZeroSeconds();
  }

  lemma SomeWritten(negative: bool, b: Broken)
    requires Timely(b) && (b.timed || b.years != 0 || b.months != 0 || b.days != 0)
    ensures WellFormed(FormOf(negative, b)) && WriteBody(FormOf(negative, b)) == BodyText(b)
  {
    DateForm(b);
    TimeForm(b);
    OneOfThree(DateFields(b));
    OneOfThree(TimeFields(b));
    PrintReads(b.rest);
    if !b.timed {
      assert TimeFields(b) == ["", "", ""];
    }
  }

  lemma OneOfThree(fields: seq<string>)
    requires |fields| == 3
    ensures AnyField(fields) <==> fields[0] != "" || fields[1] != "" || fields[2] != ""
  {
    SomeSplits(fields);
    SomeSplits(fields[1..]);
    SomeSplits(fields[1..][1..]);
  }

  lemma Twelfths(m: nat)
    ensures 12 * (m / 12) + m % 12 == m
    ensures m == 0 <==> m / 12 == 0 && m % 12 == 0
  {
  }

  /** Components that come to a duration's months and seconds are judged to be it. */
  lemma JudgedTo(d: Duration, date: seq<Decimal>, time: seq<Decimal>, kind: Kind)
    requires |date| == 3 && |time| == 3 && d.months <= MAX_INT
    requires MonthsOf(date) == d.months && SecondsOf(date[2], time) == d.seconds
    ensures Judged(d.negative, date, time, kind) == if Permitted(d, kind) then Good(d) else Malformed
  {
  }

  function DateValues(b: Broken): seq<Decimal> { [Decimal(b.years, 0), Decimal(b.months, 0), Decimal(b.days, 0)] }

  function TimeValues(b: Broken): seq<Decimal> { [Decimal(b.hours, 0), Decimal(b.minutes, 0), b.rest] }

  lemma JudgedBack(d: Duration, b: Broken, kind: Kind)
    requires MakesUp(b, d) && d.months <= MAX_INT
    ensures Judged(d.negative, DateValues(b), TimeValues(b), kind) == if Permitted(d, kind) then Good(d) else Malformed
  {
    Twelfths(d.months);
    JudgedTo(d, DateValues(b), TimeValues(b), kind);
  }

  lemma FormParses(negative: bool, b: Broken, kind: Kind)
    requires Timely(b) && (b.timed || b.years != 0 || b.months != 0 || b.days != 0)
    ensures Parse(Signed(negative, BodyText(b)), kind) == Judged(negative, DateValues(b), TimeValues(b), kind)
  {
    SomeWritten(negative, b);
    ParsesWritten(FormOf(negative, b), kind);
    DateForm(b);
    TimeForm(b);
  }

  lemma NotNothing(d: Duration, b: Broken)
    requires MakesUp(b, d)
    ensures Timely(b) && (Zero(d) <==> !b.timed && b.years == 0 && b.months == 0 && b.days == 0)
  {
    Twelfths(d.months);
  }

  lemma PrintedParses(d: Duration, b: Broken, kind: Kind)
    requires MakesUp(b, d) && !Zero(d) && d.months <= MAX_INT
    ensures Parse(Signed(d.negative, BodyText(b)), kind) == if Permitted(d, kind) then Good(d) else Malformed
  {
    NotNothing(d, b);
    FormParses(d.negative, b, kind);
    JudgedBack(d, b, kind);
  }

  lemma NoneScaled(n: nat, k: nat)
    requires n == 0 && k == 0
    ensures Scaled(n, k) == 0
  {
  }

  lemma ZeroAdds(date: seq<Decimal>, time: seq<Decimal>)
    requires date == NO_TIME && time == NO_TIME
    ensures MonthsOf(date) == 0 && SecondsOf(date[2], time) == ZERO
  {
    NoneScaled(86400 * date[2].coefficient + 3600 * time[0].coefficient + 60 * time[1].coefficient, time[2].scale);
  }

  lemma ZeroJudged(d: Duration, date: seq<Decimal>, time: seq<Decimal>, kind: Kind)
    requires Zero(d) && Fewest(d.seconds) && date == NO_TIME && time == NO_TIME
    ensures Judged(false, date, time, kind) == Good(Canonical(d))
  {
    ZeroAdds(date, time);
    JudgedTo(Canonical(d), date, time, kind);
  }

  lemma ZeroParses(d: Duration, kind: Kind)
    requires Zero(d) && Fewest(d.seconds)
    ensures Parse(Signed(false, ZeroText(kind)), kind) == Good(Canonical(d))
  {
    ZeroWritten(kind);
    ParsesWritten(ZeroForm(kind), kind);
    ZeroJudged(d, FieldValues(ZeroForm(kind).date, "YMD"), FieldValues(ZeroForm(kind).time, "HMS"), kind);
  }

  /** Every duration that can be of a kind, once printed, is parsed back: the same months
      and seconds, and the same sign unless it is zero.  One that cannot is refused. */
  lemma RoundTrip(d: Duration, kind: Kind)
    requires d.months <= MAX_INT && Fewest(d.seconds)
    ensures Parse(Lexical(d, kind), kind) == if Permitted(d, kind) then Good(Canonical(d)) else Malformed
  {
    if Zero(d) {
      ZeroParses(d, kind);
    } else {
      AddsUp(d);
      PrintedParses(d, TakenApart(d), kind);
    }
  }

  lemma JudgedFits(negative: bool, date: seq<Decimal>, time: seq<Decimal>, kind: Kind)
    requires |date| == 3 && |time| == 3 && Fewest(time[2]) && Judged(negative, date, time, kind).Good?
    ensures var d := Judged(negative, date, time, kind).d;
            d.months <= MAX_INT && Fewest(d.seconds) && Permitted(d, kind)
  {
    PlusKeepsLast(86400 * date[2].coefficient + 3600 * time[0].coefficient + 60 * time[1].coefficient, time[2]);
  }

  /** What is parsed can be printed and parsed again. */
  lemma ParsedIsPrintable(s: string, kind: Kind)
    requires Parse(s, kind).Good?
    ensures var d := Parse(s, kind).d;
            d.months <= MAX_INT && Fewest(d.seconds) && Permitted(d, kind)
            && Parse(Lexical(d, kind), kind) == Good(Canonical(d))
  {
    var f := ParsedWasWritten(s, kind);
    FieldsAreFewest(f.time, "HMS");
    JudgedFits(f.negative, FieldValues(f.date, "YMD"), FieldValues(f.time, "HMS"), kind);
    RoundTrip(Parse(s, kind).d, kind);
  }

  lemma {:induction false} FieldsAreFewest(fields: seq<string>, units: string)
    requires ValidFields(fields, units)
    ensures forall i | 0 <= i < |units| :: Fewest(FieldValues(fields, units)[i])
    decreases |units|
  {
    if units != "" {
      FieldsAreFewest(fields[1..], units[1..]);
    }
  }

  /** The printed form is one for each value: durations printed alike are the same but for
      the sign of a zero. */
  lemma PrintedOnce(d: Duration, e: Duration, kind: Kind)
    requires d.months <= MAX_INT && Fewest(d.seconds) && Permitted(d, kind)
    requires e.months <= MAX_INT && Fewest(e.seconds) && Permitted(e, kind)
    ensures Lexical(d, kind) == Lexical(e, kind) <==> Canonical(d) == Canonical(e)
  {
    RoundTrip(d, kind);
    RoundTrip(e, kind);
  }

  // ---- the code ----------------------------------------------------------

  method TakeComponent(s: string, unit: char) returns (t: Taken)
    ensures t == Component(s, unit)
  {
    var i := 0;
    while i < |s| && (IsDigit(s[i]) || s[i] == '.')
      invariant i <= |s| && RunOf(s) == i + RunOf(s[i..])
    {
      i := i + 1;
    }
    if i == 0 || i >= |s| || s[i] != unit { return Absent; }
    var ok := ValidDecimalLexical(s[..i]);
    if !ok { return Bad; }
    t := Taken(s[..i], s[i + 1..]);
  }

  method TakeUnits(s: string, units: string) returns (r: Scan)
    ensures r == TakeAll(s, units)
  {
    var rest, values, any := s, [], false;
    var i := 0;
    while i < |units|
      invariant 0 <= i <= |units| == |units|
      invariant TakeAll(s, units) == Ahead(values, any, TakeAll(rest, units[i..]))
    {
      var t := TakeComponent(rest, units[i]);
      assert units[i..][0] == units[i] && units[i..][1..] == units[i + 1..];
      match t {
        case Absent =>
          AheadLead(values, any, ZERO, false, TakeAll(rest, units[i + 1..]));
          values := values + [ZERO];
        case Bad =>
          return NoScan;
        case Taken(text, left) =>
          if units[i] != 'S' && ValueOf(text).scale != 0 { return NoScan; }
          AheadLead(values, any, ValueOf(text), true, TakeAll(left, units[i + 1..]));
          values, any, rest := values + [ValueOf(text)], true, left;
      }
      i := i + 1;
    }
    assert values + [] == values;
    r := Scan(values, rest, any);
  }

  function Ahead(values: seq<Decimal>, any: bool, s: Scan): Scan {
    if s.NoScan? then s else Scan(values + s.values, s.rest, any || s.any)
  }

  lemma AheadLead(values: seq<Decimal>, any: bool, x: Decimal, here: bool, s: Scan)
    ensures Ahead(values, any, Lead(x, here, s)) == Ahead(values + [x], any || here, s)
  {
    if s.Scan? {
      assert values + ([x] + s.values) == values + [x] + s.values;
    }
  }

  method SplitText(s: string) returns (x: Parts)
    ensures x == Split(s)
  {
    var t := TrimRight(TrimLeft(s));
    var negative := false;
    if t != "" && t[0] == '-' { negative, t := true, t[1..]; }
    if t == "" || t[0] != 'P' { return NoParts; }
    t := t[1..];
    var k := Find(t, 'T');
    if k == |t| { return Parts(negative, t, false, ""); }
    x := Parts(negative, t[..k], true, t[k + 1..]);
  }

  method ParseDuration(s: string, kind: Kind) returns (r: Parsed)
    ensures r == Parse(s, kind)
  {
    var x := SplitText(s);
    if x.NoParts? { return Malformed; }
    if x.timed && x.time == "" { return Malformed; }
    if x.date == "" && !x.timed { return Malformed; }
    var days := TakeUnits(x.date, "YMD");
    if days.NoScan? || days.rest != "" { return Malformed; }
    if MonthsOf(days.values) > MAX_INT { return TooManyMonths; }
    var times := Scan(NO_TIME, "", false);
    if x.timed {
      times := TakeUnits(x.time, "HMS");
      if times.NoScan? || times.rest != "" { return Malformed; }
    }
    if !(days.any || times.any) { return Malformed; }
    r := JudgeParts(x.negative, days.values, times.values, kind);
  }

  method JudgeParts(negative: bool, days: seq<Decimal>, times: seq<Decimal>, kind: Kind) returns (r: Parsed)
    requires |days| == 3 && |times| == 3 && MonthsOf(days) <= MAX_INT
    ensures r == Judged(negative, days, times, kind)
  {
    var months, seconds := MonthsOf(days), SecondsOf(days[2], times);
    if kind == YearMonth && seconds.coefficient != 0 { return Malformed; }
    if kind == DayTime && months != 0 { return Malformed; }
    r := Good(Duration(negative, months, seconds));
  }

  /** Appends a number and its unit unless it is 0. */
  method Append(s: string, n: nat, unit: char) returns (t: string)
    ensures t == s + Unless0(n, unit)
  {
    t := s;
    if n != 0 { t := t + (Numeral(n) + [unit]); }
  }

  method PrintDate(b: Broken) returns (s: string)
    ensures s == DateText(b)
  {
    s := Append("", b.years, 'Y');
    s := Append(s, b.months, 'M');
    s := Append(s, b.days, 'D');
    Grouped("" + Unless0(b.years, 'Y'), Unless0(b.months, 'M'), Unless0(b.days, 'D'));
    assert "" + Unless0(b.years, 'Y') == Unless0(b.years, 'Y');
  }

  method PrintTime(x: Decimal, ghost b: Broken) returns (s: string)
    requires Fewest(x) && b.hours == Times(x, 3600)
    requires b.minutes == Times(Rest(x, 3600), 60) && b.rest == Rest(Rest(x, 3600), 60)
    ensures s == TimeText(b)
  {
    var h := Times(x, 3600);
    s := Append("", h, 'H');
    var secs := Reduced(x, h, 3600);
    var m := Times(secs, 60);
    s := Append(s, m, 'M');
    secs := Reduced(secs, m, 60);
    var last := if secs.coefficient != 0 then Print(secs) + ['S'] else "";
    s := s + last;
    Grouped("" + Unless0(h, 'H'), Unless0(m, 'M'), last);
    assert "" + Unless0(h, 'H') == Unless0(h, 'H');
  }

  /** Takes away the whole times, if there are any. */
  method Reduced(x: Decimal, times: nat, n: nat) returns (y: Decimal)
    requires n > 0 && Fewest(x) && times == Times(x, n)
    ensures y == Rest(x, n) && Fewest(y)
  {
    TimesAndRest(x, n);
    y := x;
    if times != 0 { y := Rest(x, n); }
  }

  method PrintBody(d: Duration) returns (s: string)
    requires Fewest(d.seconds)
    ensures s == BodyText(TakenApart(d))
  {
    ghost var b := TakenApart(d);
    var days := Times(d.seconds, 86400);
    s := PrintDate(Broken(d.months / 12, d.months % 12, days, false, 0, 0, ZERO));
    var secs := Reduced(d.seconds, days, 86400);
    if secs.coefficient != 0 {
      var time := PrintTime(secs, b);
      s := s + ("T" + time);
    } else {
      assert s + "" == s;
    }
  }

  method PrintDuration(d: Duration, kind: Kind) returns (s: string)
    requires Fewest(d.seconds)
    ensures s == Lexical(d, kind)
  {
    var body := PrintBody(d);
    BodyIsEmpty(d);
    if body == "" {
      body := ZeroText(kind);
    }
    s := WithSign(d, body);
  }

  method WithSign(d: Duration, body: string) returns (s: string)
    ensures s == Signed(Canonical(d).negative, body)
  {
    s := if d.negative && (d.months != 0 || d.seconds.coefficient != 0) then "-" else "";
    s := s + ("P" + body);
  }

  lemma FieldIsEmpty(n: nat, unit: char)
    ensures Unless0(n, unit) == "" <==> n == 0
  {
  }

  lemma DateIsEmpty(b: Broken)
    ensures DateText(b) == "" <==> b.years == 0 && b.months == 0 && b.days == 0
  {
    FieldIsEmpty(b.years, 'Y');
    FieldIsEmpty(b.months, 'M');
    FieldIsEmpty(b.days, 'D');
    NoneOf(Unless0(b.years, 'Y'), Unless0(b.months, 'M'), Unless0(b.days, 'D'));
  }

  lemma NoneOf(a: string, b: string, c: string)
    ensures a + (b + c) == "" <==> a == "" && b == "" && c == ""
  {
    assert |a + (b + c)| == |a| + |b| + |c|;
  }

  lemma TextIsEmpty(b: Broken)
    ensures BodyText(b) == "" <==> DateText(b) == "" && !b.timed
  {
    assert |BodyText(b)| == |DateText(b)| + (if b.timed then 1 + |TimeText(b)| else 0);
  }

  lemma BodyEmpty(d: Duration, b: Broken)
    requires MakesUp(b, d)
    ensures BodyText(b) == "" <==> Zero(d)
  {
    NotNothing(d, b);
    DateIsEmpty(b);
    TextIsEmpty(b);
  }

  /** Nothing is printed but for a zero. */
  lemma BodyIsEmpty(d: Duration)
    requires Fewest(d.seconds)
    ensures BodyText(TakenApart(d)) == "" <==> Zero(d)
  {
    AddsUp(d);
    BodyEmpty(d, TakenApart(d));
  }
}
