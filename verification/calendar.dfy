/** The proleptic Gregorian calendar of `java.time`, on epoch days.

    A date is represented both as a civil `Date(year, month, day)` and as its
    epoch day (days since 1970-01-01, `LocalDate.toEpochDay`); the two are
    related by `ToEpochDay` and `FromEpochDay`, which are proved inverse.  Day
    arithmetic (`plusDays`, `minusWeeks`, `isBefore`, ...) is integer
    arithmetic on epoch days. */
module Calendar {

  datatype Date = Date(year: int, month: int, day: int) {
    predicate Valid() {
      1 <= month <= 12 && 1 <= day <= DaysInMonth(year, month)
    }
  }

  /** `java.time.YearMonth` */
  datatype YearMonth = YearMonth(year: int, month: int) {
    predicate Valid() {
      1 <= month <= 12
    }
  }

  predicate IsLeapYear(y: int) {
    y % 4 == 0 && (y % 100 != 0 || y % 400 == 0)
  }

  function DaysInYear(y: int): int {
    if IsLeapYear(y) then 366 else 365
  }

  function DaysInMonth(y: int, m: int): (r: int)
    requires 1 <= m <= 12
    ensures 28 <= r <= 31
  {
    if m == 2 then (if IsLeapYear(y) then 29 else 28)
    else if m == 4 || m == 6 || m == 9 || m == 11 then 30
    else 31
  }

  /** Days of year y before the first of month m (m = 13 gives the whole year). */
  function DaysBeforeMonth(y: int, m: int): (r: int)
    requires 1 <= m <= 13
    ensures 0 <= r <= DaysInYear(y)
  {
    var leap := if IsLeapYear(y) then 1 else 0;
    if m == 1 then 0
    else if m == 2 then 31
    else if m == 3 then 59 + leap
    else if m == 4 then 90 + leap
    else if m == 5 then 120 + leap
    else if m == 6 then 151 + leap
    else if m == 7 then 181 + leap
    else if m == 8 then 212 + leap
    else if m == 9 then 243 + leap
    else if m == 10 then 273 + leap
    else if m == 11 then 304 + leap
    else if m == 12 then 334 + leap
    else 365 + leap
  }

  /** The month table adds up: each month starts where the previous ends. */
  lemma DaysBeforeMonthStep(y: int, m: int)
    requires 1 <= m <= 12
    ensures DaysBeforeMonth(y, m + 1) == DaysBeforeMonth(y, m) + DaysInMonth(y, m)
    ensures DaysBeforeMonth(y, 13) == DaysInYear(y)
  {
  }

  lemma {:induction false} DaysBeforeMonthMonotone(y: int, m1: int, m2: int)
    requires 1 <= m1 < m2 <= 13
    ensures DaysBeforeMonth(y, m1) + DaysInMonth(y, m1) <= DaysBeforeMonth(y, m2)
    decreases m2 - m1
  {
    DaysBeforeMonthStep(y, m1);
    if m1 + 1 < m2 {
      DaysBeforeMonthMonotone(y, m1 + 1, m2);
    }
  }

  /** Leap years among 1 .. y-1 (also meaningful below 1 as a difference). */
  function LeapsBefore(y: int): int {
    (y - 1) / 4 - (y - 1) / 100 + (y - 1) / 400
  }

  /** Epoch day of January 1st of year y. */
  function YearStart(y: int): int {
    365 * (y - 1970) + LeapsBefore(y) - LeapsBefore(1970)
  }

  lemma DivStep(y: int)
    ensures y / 4 - (y - 1) / 4 == (if y % 4 == 0 then 1 else 0)
    ensures y / 100 - (y - 1) / 100 == (if y % 100 == 0 then 1 else 0)
    ensures y / 400 - (y - 1) / 400 == (if y % 400 == 0 then 1 else 0)
  {
  }

  lemma MultipleOfMultiple(y: int, a: int, b: int)
    requires a > 0 && b > 0 && y % (a * b) == 0
    ensures y % a == 0
  {
    var k := y / (a * b);
    assert y == (a * b) * k;
    assert y == a * (b * k);
  }

  lemma YearStartStep(y: int)
    ensures YearStart(y + 1) == YearStart(y) + DaysInYear(y)
  {
    DivStep(y);
    if y % 100 == 0 {
      MultipleOfMultiple(y, 4, 25);
    }
    if y % 400 == 0 {
      MultipleOfMultiple(y, 100, 4);
    }
    var leaps := (if y % 4 == 0 then 1 else 0) - (if y % 100 == 0 then 1 else 0) + (if y % 400 == 0 then 1 else 0);
    assert LeapsBefore(y + 1) - LeapsBefore(y) == leaps;
    assert leaps == (if IsLeapYear(y) then 1 else 0);
  }

  lemma {:induction false} YearStartMonotone(a: int, b: int)
    requires a < b
    ensures YearStart(a + 1) <= YearStart(b)
    decreases b - a
  {
    YearStartStep(a);
    if a + 1 < b {
      YearStartMonotone(a + 1, b);
      YearStartStep(a + 1);
    }
  }

  /** The year containing epoch day e, searching upwards from year y. */
  function YearUp(e: int, y: int): (r: int)
    requires YearStart(y) <= e
    ensures YearStart(r) <= e < YearStart(r + 1)
    decreases e - YearStart(y)
  {
    YearStartStep(y);
    if e < YearStart(y + 1) then y else YearUp(e, y + 1)
  }

  /** The year containing epoch day e, searching downwards from year y. */
  function YearDown(e: int, y: int): (r: int)
    requires e < YearStart(y + 1)
    ensures YearStart(r) <= e < YearStart(r + 1)
    decreases YearStart(y + 1) - e
  {
    YearStartStep(y);
    if YearStart(y) <= e then y else YearDown(e, y - 1)
  }

  function YearOf(e: int): (y: int)
    ensures YearStart(y) <= e < YearStart(y + 1)
  {
    if e >= YearStart(1970) then YearUp(e, 1970) else YearDown(e, 1969)
  }

  /** Exactly one year contains a given epoch day. */
  lemma YearUnique(e: int, y1: int, y2: int)
    requires YearStart(y1) <= e < YearStart(y1 + 1)
    requires YearStart(y2) <= e < YearStart(y2 + 1)
    ensures y1 == y2
  {
    if y1 < y2 {
      YearStartMonotone(y1, y2);
    } else if y2 < y1 {
      YearStartMonotone(y2, y1);
    }
  }

  /** The month of year y that contains day-of-year doy (0-based), scanning from m. */
  function MonthScan(y: int, doy: int, m: int): (r: int)
    requires 1 <= m <= 12 && DaysBeforeMonth(y, m) <= doy < DaysInYear(y)
    ensures m <= r <= 12
    ensures DaysBeforeMonth(y, r) <= doy < DaysBeforeMonth(y, r) + DaysInMonth(y, r)
    decreases 12 - m
  {
    DaysBeforeMonthStep(y, m);
    if doy < DaysBeforeMonth(y, m + 1) then m else MonthScan(y, doy, m + 1)
  }

  /** `LocalDate.toEpochDay` */
  function ToEpochDay(d: Date): int
    requires d.Valid()
  {
    YearStart(d.year) + DaysBeforeMonth(d.year, d.month) + d.day - 1
  }

  /** `LocalDate.ofEpochDay` */
  function FromEpochDay(e: int): (d: Date)
    ensures d.Valid() && ToEpochDay(d) == e
  {
    var y := YearOf(e);
    YearStartStep(y);
    var doy := e - YearStart(y);
    var m := MonthScan(y, doy, 1);
    Date(y, m, doy - DaysBeforeMonth(y, m) + 1)
  }

  /** A valid date lies in its own year and month. */
  lemma DateBounds(d: Date)
    requires d.Valid()
    ensures YearStart(d.year) <= ToEpochDay(d) < YearStart(d.year + 1)
  {
    YearStartStep(d.year);
    DaysBeforeMonthMonotone(d.year, d.month, 13);
  }

  /** Civil dates and epoch days are in one-to-one correspondence. */
  lemma FromToEpochDay(d: Date)
    requires d.Valid()
    ensures FromEpochDay(ToEpochDay(d)) == d
  {
    var e := ToEpochDay(d);
    var r := FromEpochDay(e);
    DateBounds(d);
    DateBounds(r);
    YearUnique(e, d.year, r.year);
    if d.month < r.month {
      DaysBeforeMonthMonotone(d.year, d.month, r.month);
    } else if r.month < d.month {
      DaysBeforeMonthMonotone(d.year, r.month, d.month);
    }
  }

  lemma ToEpochDayInjective(a: Date, b: Date)
    requires a.Valid() && b.Valid()
    ensures ToEpochDay(a) == ToEpochDay(b) <==> a == b
  {
    FromToEpochDay(a);
    FromToEpochDay(b);
  }

  /** `getDayOfWeek().getValue()`: 1 is Monday, 7 is Sunday; 1970-01-01 was a Thursday. */
  function DayOfWeek(e: int): (w: int)
    ensures 1 <= w <= 7
    ensures (e - (w - 1)) % 7 == 4
  {
    (e + 3) % 7 + 1
  }

  /** The Monday on or before e (`WeekCalculationUtils.getMondayOfWeek`). */
  function MondayOf(e: int): (m: int)
    ensures DayOfWeek(m) == 1 && m <= e < m + 7
  {
    var w := DayOfWeek(e);
    e - (if w == 7 then 6 else w - 1)
  }

  /** Every epoch day has exactly one Monday in the seven days up to it. */
  lemma MondayOfUnique(e: int, m: int)
    ensures DayOfWeek(m) == 1 && m <= e < m + 7 <==> m == MondayOf(e)
  {
  }

  /** A Monday is its own week start, and all days of a week share it. */
  lemma MondayOfWeekDays(m: int, k: int)
    requires DayOfWeek(m) == 1 && 0 <= k < 7
    ensures MondayOf(m + k) == m
  {
    MondayOfUnique(m + k, m);
  }

  function YearMonthOf(e: int): (ym: YearMonth)
    ensures ym.Valid()
  {
    var d := FromEpochDay(e);
    YearMonth(d.year, d.month)
  }

  /** `YearMonth.atDay(1)` */
  function MonthStart(ym: YearMonth): int
    requires ym.Valid()
  {
    ToEpochDay(Date(ym.year, ym.month, 1))
  }

  /** `YearMonth.atEndOfMonth()` */
  function MonthEnd(ym: YearMonth): (r: int)
    requires ym.Valid()
    ensures MonthStart(ym) + 27 <= r <= MonthStart(ym) + 30
  {
    MonthStart(ym) + DaysInMonth(ym.year, ym.month) - 1
  }

  /** An epoch day falls in a month exactly when it lies between the month's
      first and last day. */
  lemma YearMonthOfRange(e: int, ym: YearMonth)
    requires ym.Valid()
    ensures YearMonthOf(e) == ym <==> MonthStart(ym) <= e <= MonthEnd(ym)
  {
    var d := FromEpochDay(e);
    if MonthStart(ym) <= e <= MonthEnd(ym) {
      var c := Date(ym.year, ym.month, e - MonthStart(ym) + 1);
      assert ToEpochDay(c) == e;
      FromToEpochDay(c);
    }
  }

  function PrevMonth(ym: YearMonth): (p: YearMonth)
    requires ym.Valid()
    ensures p.Valid()
  {
    if ym.month == 1 then YearMonth(ym.year - 1, 12) else YearMonth(ym.year, ym.month - 1)
  }

  /** Consecutive months tile the calendar. */
  lemma PrevMonthAdjacent(ym: YearMonth)
    requires ym.Valid()
    ensures MonthEnd(PrevMonth(ym)) + 1 == MonthStart(ym)
  {
    var p := PrevMonth(ym);
    if ym.month == 1 {
      YearStartStep(ym.year - 1);
    } else {
      DaysBeforeMonthStep(ym.year, p.month);
    }
  }

  /** `YearMonth.minusMonths(k)` */
  function MinusMonths(ym: YearMonth, k: nat): (r: YearMonth)
    requires ym.Valid()
    ensures r.Valid()
    ensures r.year * 12 + r.month == ym.year * 12 + ym.month - k
    decreases k
  {
    if k == 0 then ym else MinusMonths(PrevMonth(ym), k - 1)
  }
}
