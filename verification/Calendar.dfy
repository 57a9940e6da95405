/** Day numbers of calendar dates: each day's is one more than the day's before, as long as
    the two rules for leap years agree, and 64-bit arithmetic computes it exactly. */
module Calendar {

  /** Whether the calendar gives `y` a leap day; there is no year 0. */
  predicate IsLeap(y: int) {
    var a := if y < 0 then y + 1 else y;
    a % 4 == 0 && (a % 100 != 0 || a % 400 == 0)
  }

  function DaysInMonth(y: int, m: int): int {
    if m in {1, 3, 5, 7, 8, 10, 12} then 31
    else if m in {4, 6, 9, 11} then 30
    else if m == 2 then if IsLeap(y) then 29 else 28
    else 0
  }

  datatype Date = Date(year: int, month: int, day: int)

  predicate Valid(t: Date) {
    t.year != 0 && 1 <= t.month <= 12 && 1 <= t.day <= DaysInMonth(t.year, t.month)
  }

  /** The day after. */
  function Next(t: Date): Date {
    if t.day < DaysInMonth(t.year, t.month) then Date(t.year, t.month, t.day + 1)
    else if t.month < 12 then Date(t.year, t.month + 1, 1)
    else Date(if t.year == -1 then 1 else t.year + 1, 1, 1)
  }

  /** Quotient rounded toward zero. */
  function Quotient(x: int, n: int): int
    requires n > 0
  {
    if x >= 0 then x / n else -(-x / n)
  }

  /** Days from the first of March of year 0 to that of `p`. */
  function BeforeMarch(p: int): int {
    var era := Quotient(if p < 0 then p - 399 else p, 400);
    var yoe := p - era * 400;
    era * 146097 + yoe * 365 + yoe / 4 - yoe / 100
  }

  function DayOfYear(m: int, d: int): int { (153 * ((m + 9) % 12) + 2) / 5 + d - 1 }

  function MarchYear(t: Date): int { if t.month <= 2 then t.year - 1 else t.year }

  /** The day number of a date, from the first of January 1970. */
  function DaysFromCivil(t: Date): int { BeforeMarch(MarchYear(t)) + DayOfYear(t.month, t.day) - 719468 }

  // ---- one day after another ---------------------------------------------

  /** Leap years of a calendar that has a year 0. */
  predicate Gregorian(y: int) { y % 4 == 0 && (y % 100 != 0 || y % 400 == 0) }

  lemma MarchIs(p: int, era: int, yoe: int)
    requires p == 400 * era + yoe && 0 <= yoe < 400
    ensures BeforeMarch(p) == era * 146097 + yoe * 365 + yoe / 4 - yoe / 100
    ensures Quotient(if p < 0 then p - 399 else p, 400) == era
  {
    if p < 0 {
      Divides(-era, 399 - yoe);
    } else {
      Divides(era, yoe);
    }
  }

  lemma Divides(k: int, r: int)
    requires 0 <= r < 400
    ensures (400 * k + r) / 400 == k
  {
  }

  lemma Same4(k: int, y: int)
    ensures (4 * k + y) % 4 == y % 4
  {
  }

  lemma Same100(k: int, y: int)
    ensures (100 * k + y) % 100 == y % 100
  {
  }

  lemma Same400(k: int, y: int)
    ensures (400 * k + y) % 400 == y % 400
  {
  }

  lemma LeapIn(era: int, yoe: int)
    ensures Gregorian(400 * era + yoe) <==> Gregorian(yoe)
  {
    Same4(100 * era, yoe);
    Same100(4 * era, yoe);
    Same400(era, yoe);
  }

  lemma CenturyStep(yoe: int)
    requires 0 <= yoe < 399
    ensures ((yoe + 1) * 365 + (yoe + 1) / 4 - (yoe + 1) / 100 - (yoe * 365 + yoe / 4 - yoe / 100)
             == if Gregorian(yoe + 1) then 366 else 365)
  {
  }

  lemma MarchStep(p: int)
    ensures BeforeMarch(p + 1) - BeforeMarch(p) == if Gregorian(p + 1) then 366 else 365
  {
    var era, yoe := p / 400, p % 400;
    MarchIs(p, era, yoe);
    LeapIn(era, yoe + 1);
    if yoe == 399 {
      MarchIs(p + 1, era + 1, 0);
    } else {
      MarchIs(p + 1, era, yoe + 1);
      CenturyStep(yoe);
    }
  }

  /** Where the two rules part company: at the end of a February on which they differ, and
      across the year that is missing. */
  predicate Parts(t: Date) {
    || (t.month == 2 && t.day == DaysInMonth(t.year, 2) && IsLeap(t.year) != Gregorian(t.year))
    || (t.year == -1 && t.month == 12 && t.day == 31)
  }

  /** Days of a year from one March to the next are numbered in turn. */
  lemma WithinYear(m: int, d: int, y: int)
    requires 1 <= m <= 12 && m != 2 && 1 <= d <= DaysInMonth(y, m)
    ensures d < DaysInMonth(y, m) ==> DayOfYear(m, d + 1) == DayOfYear(m, d) + 1
    ensures d == DaysInMonth(y, m) && m < 12 ==> DayOfYear(m + 1, 1) == DayOfYear(m, d) + 1
    ensures d == DaysInMonth(y, m) && m == 12 ==> DayOfYear(1, 1) == DayOfYear(m, d) + 1
  {
  }

  lemma AfterFebruary(t: Date)
    requires Valid(t) && t.month == 2
    ensures DaysFromCivil(Next(t)) == DaysFromCivil(t) + 1 <==> !Parts(t)
  {
    MarchStep(t.year - 1);
    assert DayOfYear(2, t.day) == 337 + t.day - 1 && DayOfYear(2, t.day + 1) == 337 + t.day && DayOfYear(3, 1) == 0;
  }

  /** The day after has the next number, exactly where the rules do not part. */
  lemma NextIsNext(t: Date)
    requires Valid(t)
    ensures DaysFromCivil(Next(t)) == DaysFromCivil(t) + 1 <==> !Parts(t)
  {
    if t.month == 2 {
      AfterFebruary(t);
    } else {
      WithinYear(t.month, t.day, t.year);
      MarchStep(-1);
    }
  }

  /** They part in no year of the common era. */
  lemma NoneParts(t: Date)
    requires t.year >= 1
    ensures !Parts(t)
  {
  }

  predicate Before(s: Date, t: Date) {
    s.year < t.year || (s.year == t.year && (s.month < t.month || (s.month == t.month && s.day < t.day)))
  }

  function Months(t: Date): int { 12 * t.year + t.month }

  lemma MonthStep(y: int, m: int)
    requires y >= 1 && 1 <= m <= 12
    ensures DaysFromCivil(Next(Date(y, m, DaysInMonth(y, m)))) == DaysFromCivil(Date(y, m, DaysInMonth(y, m))) + 1
  {
    NextIsNext(Date(y, m, DaysInMonth(y, m)));
  }

  /** From year 1 on, later dates have greater numbers; so no two have the same. */
  lemma {:induction false} LaterIsGreater(s: Date, t: Date)
    requires Valid(s) && Valid(t) && s.year >= 1 && Before(s, t)
    ensures DaysFromCivil(s) < DaysFromCivil(t)
    decreases Months(t) - Months(s)
  {
    if s.year != t.year || s.month != t.month {
      var last := Date(s.year, s.month, DaysInMonth(s.year, s.month));
      MonthStep(s.year, s.month);
      assert DaysFromCivil(s) <= DaysFromCivil(last);
      if Next(last) != t {
        NextMonth(last, t);
        LaterIsGreater(Next(last), t);
      }
    }
  }

  lemma NextMonth(last: Date, t: Date)
    requires Valid(last) && Valid(t) && last.year >= 1 && last.day == DaysInMonth(last.year, last.month)
    requires Before(last, t) && Next(last) != t
    ensures Valid(Next(last)) && Next(last).year >= 1 && Before(Next(last), t) && Months(Next(last)) == Months(last) + 1
  {
  }

  /** The date `n` days after the first of January 1970. */
  function After(n: nat): (t: Date)
    ensures Valid(t) && t.year >= 1970
  {
    if n == 0 then Date(1970, 1, 1) else Next(After(n - 1))
  }

  /** Day numbers count days. */
  lemma {:induction false} NumbersCount(n: nat)
    ensures DaysFromCivil(After(n)) == n
  {
    if n == 0 {
      Epoch();
    } else {
      NumbersCount(n - 1);
      NextCounts(After(n - 1));
    }
  }

  lemma Epoch()
    ensures DaysFromCivil(Date(1970, 1, 1)) == 0
  {
    MarchIs(1969, 4, 369);
    NewYear(Date(1970, 1, 1));
  }

  /** A year's first of January lies in the March year before. */
  lemma NewYear(t: Date)
    requires t.month == 1 && t.day == 1
    ensures DaysFromCivil(t) == BeforeMarch(t.year - 1) + 306 - 719468
  {
  }

  lemma NextCounts(t: Date)
    requires Valid(t) && t.year >= 1
    ensures DaysFromCivil(Next(t)) == DaysFromCivil(t) + 1
  {
    NoneParts(t);
    NextIsNext(t);
  }

  // ---- 64-bit arithmetic -------------------------------------------------

  const TWO63: int := 0x8000_0000_0000_0000
  const TWO64: int := 0x1_0000_0000_0000_0000

  predicate Fits(x: int) { -TWO63 <= x < TWO63 }

  /** What is left of `x` in 64 bits. */
  function Wrap(x: int): int { (x + TWO63) % TWO64 - TWO63 }

  /** The computation as a machine does it, every result wrapped. */
  function WrappedDays(t: Date): int {
    WrappedFrom(if t.month <= 2 then Wrap(t.year - 1) else t.year, DayOfYear(t.month, t.day))
  }

  function WrappedFrom(y: int, doy: int): int {
    var era := Quotient(if y < 0 then Wrap(y - 399) else y, 400);
    var yoe := Wrap(y - Wrap(era * 400));
    var doe := Wrap(Wrap(Wrap(Wrap(yoe * 365) + Quotient(yoe, 4)) - Quotient(yoe, 100)) + doy);
    Wrap(Wrap(Wrap(era * 146097) + doe) - 719468)
  }

  lemma FitsWraps(x: int)
    requires Fits(x)
    ensures Wrap(x) == x
  {
  }

  lemma Remainder(x: int, k: int, n: int)
    requires 0 <= x < n
    ensures (x + k * n) % n == x
  {
    var q, r := (x + k * n) / n, (x + k * n) % n;
    assert (q - k) * n == x - r;
    if q != k {
      NoSmall(q - k, n);
    }
  }

  lemma NoSmall(j: int, n: int)
    requires j != 0 && n > 0
    ensures j * n >= n || j * n <= -n
  {
    if j >= 1 {
      assert (j - 1) * n >= 0;
    } else {
      assert (-j - 1) * n >= 0;
    }
  }

  /** Wrapping twice is wrapping once. */
  lemma WrapThenAdd(x: int, y: int)
    ensures Wrap(Wrap(x) + y) == Wrap(x + y)
  {
    var q := (x + TWO63) / TWO64;
    var z := (x + y + TWO63) % TWO64;
    var k := (x + y + TWO63) / TWO64;
    assert Wrap(x) + y + TWO63 == z + (k - q) * TWO64;
    Remainder(z, k - q, TWO64);
  }

  lemma SmallSteps(yoe: int, doy: int)
    requires 0 <= yoe < 400 && 0 <= doy <= 367
    ensures (Wrap(Wrap(Wrap(Wrap(yoe * 365) + Quotient(yoe, 4)) - Quotient(yoe, 100)) + doy)
             == yoe * 365 + yoe / 4 - yoe / 100 + doy)
  {
    FitsWraps(yoe * 365);
    FitsWraps(yoe * 365 + yoe / 4);
    FitsWraps(yoe * 365 + yoe / 4 - yoe / 100);
    FitsWraps(yoe * 365 + yoe / 4 - yoe / 100 + doy);
  }

  lemma WrapsFrom(y: int, doy: int)
    requires Fits(y) && Fits(y - 399) && 0 <= doy <= 367
    ensures WrappedFrom(y, doy) == Wrap(BeforeMarch(y) + doy - 719468)
  {
    var era, yoe := y / 400, y % 400;
    MarchIs(y, era, yoe);
    FitsWraps(y - 399);
    FitsWraps(era * 400);
    FitsWraps(yoe);
    SmallSteps(yoe, doy);
    var doe := yoe * 365 + yoe / 4 - yoe / 100 + doy;
    WrapThenAdd(era * 146097, doe);
    WrapThenAdd(era * 146097 + doe, -719468);
  }

  /** A date as written, whose day may not be one of its month. */
  predicate Written(t: Date) { 1 <= t.month <= 12 && 1 <= t.day <= 31 }

  /** The machine's number is the true one exactly where that fits in 64 bits, whatever
      does not fit on the way. */
  lemma ExactIfItFits(t: Date)
    requires Written(t) && Fits(t.year) && Fits(t.year - 400)
    ensures WrappedDays(t) == DaysFromCivil(t) <==> Fits(DaysFromCivil(t))
  {
    FitsWraps(t.year - 1);
    WrapsFrom(MarchYear(t), DayOfYear(t.month, t.day));
    var x := DaysFromCivil(t);
    if Fits(x) {
      FitsWraps(x);
    } else {
      assert Fits(Wrap(x));
    }
  }

  const MIN_YEAR := -25252734927764584
  const MAX_YEAR := 25252734927766554
  /** The last year all of whose days have numbers in 64 bits. */
  const LAST_YEAR := MAX_YEAR + 1969

  lemma NumberBounds(p: int, doy: int)
    requires 0 <= doy <= 367
    ensures MIN_YEAR <= p <= LAST_YEAR || (p == MIN_YEAR - 1 && doy >= 306) ==> Fits(BeforeMarch(p) + doy - 719468)
    ensures p > LAST_YEAR && doy >= 305 ==> BeforeMarch(p) + doy - 719468 >= TWO63
    ensures p <= MIN_YEAR - 2 ==> BeforeMarch(p) + doy - 719468 < -TWO63
  {
    MarchIs(p, p / 400, p % 400);
  }

  /** Every day of a year has its number in 64 bits exactly for the years from the first
      that is accepted to 1969 years after the last that is. */
  lemma YearsThatFit(y: int)
    ensures (forall m, d | Written(Date(y, m, d)) :: Fits(DaysFromCivil(Date(y, m, d)))) <==> MIN_YEAR <= y <= LAST_YEAR
  {
    if MIN_YEAR <= y <= LAST_YEAR {
      forall m, d | Written(Date(y, m, d))
        ensures Fits(DaysFromCivil(Date(y, m, d)))
      {
        assert m <= 2 <==> DayOfYear(m, d) >= 306;
        NumberBounds(MarchYear(Date(y, m, d)), DayOfYear(m, d));
      }
    } else {
      assert Written(Date(y, 1, 1)) && DayOfYear(1, 1) == 306 && Written(Date(y, 12, 31)) && DayOfYear(12, 31) == 305;
      NumberBounds(y - 1, 306);
      NumberBounds(y, 305);
    }
  }

  // ---- midnight at the end of a day --------------------------------------

  /** The fields of a date and time that hour 24 touches. */
  class DateTime {
    var year: int
    var month: int
    var day: int
    var hour: int

    constructor (year: int, month: int, day: int, hour: int)
      ensures this.year == year && this.month == month && this.day == day && this.hour == hour
    {
      this.year, this.month, this.day, this.hour := year, month, day, hour;
    }

    function OnDay(): Date
      reads this
    {
      Date(year, month, day)
    }

    /** Hour 24 of a day is hour 0 of the day after; a time alone has no day to carry to. */
    method NormalizeHour24(isTime: bool)
      requires Valid(OnDay()) && 0 <= hour <= 24
      modifies this
      ensures Valid(OnDay()) && 0 <= hour < 24
      ensures if old(hour) != 24 then hour == old(hour) && OnDay() == old(OnDay())
              else hour == 0 && OnDay() == if isTime then old(OnDay()) else Next(old(OnDay()))
      ensures !isTime && !Parts(old(OnDay()))
           ==> 24 * DaysFromCivil(OnDay()) + hour == 24 * old(DaysFromCivil(OnDay())) + old(hour)
    {
      if hour != 24 { return; }
      ghost var before := OnDay();
      hour := 0;
      if isTime { return; }
      if year == 0 && month == 0 && day == 0 { return; }
      day := day + 1;
      if day > DaysInMonth(year, month) {
        day, month := 1, month + 1;
        if month > 12 {
          month, year := 1, year + 1;
          if year == 0 { year := 1; }
        }
      }
      assert OnDay() == Next(before);
      NextIsNext(before);
    }
  }
}
