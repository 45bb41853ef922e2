/** `StatisticsService`: the revenue, charges and profit of one store over a
    day, a week or a month, compared with the period before, with the fixed
    charges prorated to the period and the percentages banded into statuses.

    The daily revenue is an input: `revenue(e)` is the store's total revenue
    (TTC) on epoch day e when it has a daily KPI row for that day, and `None`
    otherwise.  The charge tables are the sequences of stored fixed and
    variable charges; the derived queries the service calls are filters over
    them. */
module Statistics {
  import opened Wrappers
  import opened Calendar
  import opened Keys
  import opened Weeks
  import opened Money
  import opened Entities
  import opened Ledger
  import opened Strings

  datatype Granularity = PerDay | PerWeek | PerMonth

  /** The exceptions the statistics service raises. */
  datatype StatError =
    | InvalidPeriod        // getStatistics: not day, week or month
    | DetailPeriodInvalid  // getChargesDetail: not week or month
    | WeekRequired         // getChargesDetail: week period without a week
    | Unparseable          // a date or month key the parser rejects

  // ---------------------------------------------------------------------------
  // The period name
  // ---------------------------------------------------------------------------

  function PeriodName(g: Granularity): string {
    match g
    case PerDay => "day"
    case PerWeek => "week"
    case PerMonth => "month"
  }

  /** A lower-case name equals, ignoring case, exactly the strings that
      lower-case to it. */
  lemma LowerMatches(s: string, name: string)
    requires forall i :: 0 <= i < |name| ==> LowerChar(name[i]) == name[i]
    ensures Lower(s) == name <==> EqualsIgnoreCase(s, name)
  {
    if EqualsIgnoreCase(s, name) {
      assert forall i :: 0 <= i < |s| ==> Lower(s)[i] == name[i];
    }
  }

  /** `switch (period.toLowerCase())` over "day", "week" and "month". */
  function ParsePeriod(s: string): (r: Option<Granularity>)
    ensures forall g :: r == Some(g) <==> EqualsIgnoreCase(s, PeriodName(g))
  {
    LowerMatches(s, "day");
    LowerMatches(s, "week");
    LowerMatches(s, "month");
    var l := Lower(s);
    if l == "day" then Some(PerDay)
    else if l == "week" then Some(PerWeek)
    else if l == "month" then Some(PerMonth)
    else None
  }

  lemma ParsePeriodExamples()
    ensures ParsePeriod("Week") == Some(PerWeek) && ParsePeriod("MONTH") == Some(PerMonth)
    ensures ParsePeriod("year") == None
  {
    assert EqualsIgnoreCase("Week", PeriodName(PerWeek));
    assert EqualsIgnoreCase("MONTH", PeriodName(PerMonth));
    assert !EqualsIgnoreCase("year", PeriodName(PerMonth));
    assert LowerChar("year"[0]) != LowerChar("week"[0]);
    assert !EqualsIgnoreCase("year", PeriodName(PerWeek));
  }

  // ---------------------------------------------------------------------------
  // Days the keys can name
  // ---------------------------------------------------------------------------

  lemma KeyDayOfDate(d: Date)
    requires d.Valid() && InKeyRange(d.year)
    ensures KeyDay(ToEpochDay(d))
  {
    FromToEpochDay(d);
    KeyDayYear(ToEpochDay(d));
  }

  /** `LocalDate.parse(s, "yyyy-MM-dd")` as an epoch day. */
  function ParseDay(s: string): (r: Option<int>)
    ensures r.Some? <==> ParseDateKey(s).Some?
    ensures r.Some? ==> KeyDay(r.value) && r.value == ToEpochDay(ParseDateKey(s).value)
  {
    var d :- ParseDateKey(s);
    KeyDayOfDate(d);
    Some(ToEpochDay(d))
  }

  /** The key of a day parses back to that day. */
  lemma ParseDayKey(e: int)
    requires KeyDay(e)
    ensures ParseDay(DayKey(e)) == Some(e)
  {
  }

  /** 0001-01-01 was a Monday, so the Monday of a key day is a key day. */
  lemma MondayKeyDay(e: int)
    requires KeyDay(e)
    ensures KeyDay(MondayOf(e))
  {
    var first := YearStart(1);
    assert first == -719162;
    assert DayOfWeek(first) == 1;
    var m := MondayOf(e);
    MondaysApart(m, first);
    var k := (m - first) / 7;
    assert m - first == 7 * k;
  }

  /** The key of the Monday of day e (`generateWeekKey(getMondayOfWeek(e))`). */
  function MondayKey(e: int): (s: string)
    requires KeyDay(e)
    ensures ParseDay(s) == Some(MondayOf(e))
  {
    MondayKeyDay(e);
    ParseDayKey(MondayOf(e));
    DayKey(MondayOf(e))
  }

  /** The month key of the Monday of day e. */
  function MondayMonthKey(e: int): (s: string)
    requires KeyDay(e)
    ensures ParseMonthKey(s) == Some(YearMonthOf(MondayOf(e)))
  {
    MondayKeyDay(e);
    MonthKeyOfDay(MondayOf(e))
  }

  // ---------------------------------------------------------------------------
  // Windows
  // ---------------------------------------------------------------------------

  /** The days of the period and of the period before it, inclusive. */
  datatype Window = Window(start: int, end: int, prevStart: int, prevEnd: int)

  function DayWindow(e: int): Window {
    Window(e, e, e - 1, e - 1)
  }

  function WeekWindow(e: int): (w: Window) {
    var monday := MondayOf(e);
    var previous := monday - 7;
    Window(monday, SundayOf(monday), previous, SundayOf(previous))
  }

  function MonthWindow(ym: YearMonth): Window
    requires ym.Valid()
  {
    var previous := MinusMonths(ym, 1);
    Window(MonthStart(ym), MonthEnd(ym), MonthStart(previous), MonthEnd(previous))
  }

  /** The window switch of `getStatistics`. */
  function ResolveWindow(period: string, date: string): (r: Result<(Granularity, Window), StatError>)
    ensures ParsePeriod(period).None? ==> r == Failure(InvalidPeriod)
    ensures r.Success? ==> Some(r.value.0) == ParsePeriod(period)
    ensures ParsePeriod(period).Some? ==>
      (r.Success? <==>
        if ParsePeriod(period).value == PerMonth then ParseMonthKey(date).Some? else ParseDay(date).Some?)
    ensures r.Failure? ==> r.error in {InvalidPeriod, Unparseable}
    ensures r.Success? ==> r.value.1.prevEnd + 1 == r.value.1.start <= r.value.1.end
  {
    var g :- ParsePeriod(period).OrFail(InvalidPeriod);
    match g
    case PerDay =>
      var e :- ParseDay(date).OrFail(Unparseable);
      Success((g, DayWindow(e)))
    case PerWeek =>
      var e :- ParseDay(date).OrFail(Unparseable);
      WeekWindowSpec(e);
      Success((g, WeekWindow(e)))
    case PerMonth =>
      var ym :- ParseMonthKey(date).OrFail(Unparseable);
      MonthWindowSpec(ym);
      Success((g, MonthWindow(ym)))
  }

  /** The week window is the Monday-to-Sunday week of the date, and the
      previous window the week before. */
  lemma WeekWindowSpec(e: int)
    ensures var w := WeekWindow(e);
      && DayOfWeek(w.start) == 1 && w.start <= e <= w.end == w.start + 6
      && w.prevStart == w.start - 7 && w.prevEnd == w.start - 1
  {
    var m := MondayOf(e);
    MondayOfWeekDays(m, 6);
    MondayPlusWeeks(m, -1);
    MondayOfWeekDays(m - 7, 0);
  }

  /** The month window holds exactly the days of the month, and the previous
      window exactly the days of the month before. */
  lemma MonthWindowSpec(ym: YearMonth)
    requires ym.Valid()
    ensures var w := MonthWindow(ym);
      && w.prevEnd + 1 == w.start <= w.end
      && forall x :: (w.start <= x <= w.end <==> YearMonthOf(x) == ym)
    ensures var w := MonthWindow(ym);
      forall x :: (w.prevStart <= x <= w.prevEnd <==> YearMonthOf(x) == PrevMonth(ym))
  {
    assert MinusMonths(ym, 1) == PrevMonth(ym);
    PrevMonthAdjacent(ym);
    forall x ensures MonthStart(ym) <= x <= MonthEnd(ym) <==> YearMonthOf(x) == ym {
      YearMonthOfRange(x, ym);
    }
    forall x ensures MonthStart(PrevMonth(ym)) <= x <= MonthEnd(PrevMonth(ym)) <==> YearMonthOf(x) == PrevMonth(ym) {
      YearMonthOfRange(x, PrevMonth(ym));
    }
  }

  // ---------------------------------------------------------------------------
  // Revenue
  // ---------------------------------------------------------------------------

  /** Σ of the daily revenue over the days a..b; a day without a figure adds
      nothing. */
  function RevenueSum(revenue: int -> Option<int>, a: int, b: int): int
    decreases b - a
  {
    if b < a then 0 else RevenueSum(revenue, a, b - 1) + revenue(b).GetOr(0)
  }

  /** Revenue over a window is the revenue of its two parts. */
  lemma {:induction false} RevenueSplit(revenue: int -> Option<int>, a: int, m: int, b: int)
    requires a - 1 <= m <= b
    ensures RevenueSum(revenue, a, b) == RevenueSum(revenue, a, m) + RevenueSum(revenue, m + 1, b)
    decreases b - m
  {
    if m < b {
      RevenueSplit(revenue, a, m, b - 1);
    }
  }

  /** Days without a figure contribute nothing. */
  lemma {:induction false} RevenueWithoutFigures(revenue: int -> Option<int>, a: int, b: int)
    requires forall x :: a <= x <= b ==> revenue(x).None?
    ensures RevenueSum(revenue, a, b) == 0
    decreases b - a
  {
    if a <= b {
      RevenueWithoutFigures(revenue, a, b - 1);
    }
  }

  /** Only the figures inside the window matter. */
  lemma {:induction false} RevenueLocal(r1: int -> Option<int>, r2: int -> Option<int>, a: int, b: int)
    requires forall x :: a <= x <= b ==> r1(x) == r2(x)
    ensures RevenueSum(r1, a, b) == RevenueSum(r2, a, b)
    decreases b - a
  {
    if a <= b {
      RevenueLocal(r1, r2, a, b - 1);
    }
  }

  /** `getRevenueForPeriod`, rounded to cents. */
  function Revenue(revenue: int -> Option<int>, a: int, b: int): (r: int)
    ensures r % CENT == 0 && 2 * Abs(RevenueSum(revenue, a, b) - r) <= CENT
  {
    SetScale2(RevenueSum(revenue, a, b))
  }

  /** `getRevenueForPeriod` as the service runs it: a walk over the days of
      the window adding each figure found. */
  method RevenueForPeriod(revenue: int -> Option<int>, a: int, b: int) returns (total: int)
    ensures total == Revenue(revenue, a, b)
  {
    var sum := 0;
    var current := a;
    while current <= b
      invariant a <= current && (current <= b + 1 || current == a)
      invariant sum == RevenueSum(revenue, a, current - 1)
      decreases b - current
    {
      var figure := revenue(current);
      if figure.Some? {
        sum := sum + figure.value;
      }
      current := current + 1;
    }
    if a <= b {
      assert current == b + 1;
    }
    total := SetScale2(sum);
  }

  // ---------------------------------------------------------------------------
  // Fixed charges of a period
  // ---------------------------------------------------------------------------

  /** A fixed charge with the amount the period carries of it. */
  datatype Effective = Effective(charge: FixedCharge, amount: int)

  /** `findByStoreIdAndMonthKey`; an absent key selects the charges without
      a month key, as a derived query does for a null argument. */
  predicate OfMonth(c: FixedCharge, storeId: int, monthKey: Option<string>) {
    c.storeId == storeId && c.monthKey == monthKey
  }

  /** `findByStoreIdAndMonthKeyAndWeekKey`, read as the derived query it is
      named after. */
  predicate OfWeek(c: FixedCharge, storeId: int, monthKey: string, weekKey: string) {
    OfMonth(c, storeId, Some(monthKey)) && c.weekKey == Some(weekKey)
  }

  /** Each charge's amount divided by `divisor`, rounded HALF_UP to cents. */
  function Prorated(cs: seq<FixedCharge>, divisor: int): (r: seq<Effective>)
    requires divisor > 0
    ensures |r| == |cs|
    ensures forall i :: 0 <= i < |cs| ==> r[i].charge == cs[i] && r[i].amount == DivCountScale2(cs[i].amount, divisor)
  {
    seq(|cs|, i requires 0 <= i < |cs| => Effective(cs[i], DivCountScale2(cs[i].amount, divisor)))
  }

  /** Each charge at its full amount. */
  function Full(cs: seq<FixedCharge>): (r: seq<Effective>)
    ensures |r| == |cs|
    ensures forall i :: 0 <= i < |cs| ==> r[i] == Effective(cs[i], cs[i].amount)
  {
    seq(|cs|, i requires 0 <= i < |cs| => Effective(cs[i], cs[i].amount))
  }

  function EffectiveAmounts(es: seq<Effective>): (s: seq<int>)
    ensures |s| == |es| && forall i :: 0 <= i < |es| ==> s[i] == es[i].amount
  {
    seq(|es|, i requires 0 <= i < |es| => es[i].amount)
  }

  function ChargeAmounts(cs: seq<FixedCharge>): (s: seq<int>)
    ensures |s| == |cs| && forall i :: 0 <= i < |cs| ==> s[i] == cs[i].amount
  {
    seq(|cs|, i requires 0 <= i < |cs| => cs[i].amount)
  }

  /** The MONTH-period charges of a month and the WEEK-period charges of a
      week: the two queries the day and week views start from. */
  function MonthCharges(charges: seq<FixedCharge>, storeId: int, monthKey: string): seq<FixedCharge> {
    Filter(charges, c => OfMonth(c, storeId, Some(monthKey)) && c.period == Month)
  }

  function WeekRows(charges: seq<FixedCharge>, storeId: int, monthKey: string, weekKey: string): seq<FixedCharge> {
    Filter(charges, c => OfWeek(c, storeId, monthKey, weekKey))
  }

  function WeekCharges(charges: seq<FixedCharge>, storeId: int, monthKey: string, weekKey: string): seq<FixedCharge> {
    Filter(WeekRows(charges, storeId, monthKey, weekKey), (c: FixedCharge) => c.period == Week)
  }

  /** The day view: MONTH charges of the day's month at a day's share of the
      month, and WEEK charges filed under the day's month and its Monday's
      key at a seventh. */
  function DayEffective(charges: seq<FixedCharge>, storeId: int, e: int): (r: seq<Effective>)
    requires KeyDay(e)
  {
    var ym := YearMonthOf(e);
    var monthKey := MonthKeyOfDay(e);
    var weekly := WeekCharges(charges, storeId, monthKey, MondayKey(e));
    Prorated(MonthCharges(charges, storeId, monthKey), DaysInMonth(ym.year, ym.month)) + Prorated(weekly, 7)
  }

  /** The number of weeks the month of Monday m owns
      (`getWeeksCountInMonth`). */
  function WeeksCount(m: int): (n: int)
    ensures 4 <= n <= 5
  {
    MonthMondaysCount(YearMonthOf(m));
    |MonthMondays(YearMonthOf(m))|
  }

  /** The week view: MONTH charges of the Monday's month at a week's share,
      and every charge filed under the Monday's key at its full amount,
      whatever its period. */
  function WeekEffective(charges: seq<FixedCharge>, storeId: int, e: int): (r: seq<Effective>)
    requires KeyDay(e)
  {
    var monthKey := MondayMonthKey(e);
    Prorated(MonthCharges(charges, storeId, monthKey), WeeksCount(MondayOf(e)))
      + Full(WeekRows(charges, storeId, monthKey, MondayKey(e)))
  }

  /** The month view: every charge filed under the month key at its full
      amount, whatever its period. */
  function MonthEffective(charges: seq<FixedCharge>, storeId: int, monthKey: Option<string>): (r: seq<Effective>) {
    Full(Filter(charges, c => OfMonth(c, storeId, monthKey)))
  }

  /** The key a week view is asked for by: the week key when one is given
      and non-empty, else the date. */
  function ChosenWeekKey(date: Option<string>, week: Option<string>): Option<string> {
    if week.Some? && |week.value| > 0 then week else date
  }

  /** The "day" branch of `getFixedChargesWithEffectiveAmounts`: the date
      must parse. */
  function DayView(charges: seq<FixedCharge>, storeId: int, date: Option<string>): (r: Result<seq<Effective>, StatError>)
    ensures r.Success? <==> date.Some? && ParseDay(date.value).Some?
    ensures r.Success? ==> r.value == DayEffective(charges, storeId, ParseDay(date.value).value)
  {
    var key :- date.OrFail(Unparseable);
    var e :- ParseDay(key).OrFail(Unparseable);
    Success(DayEffective(charges, storeId, e))
  }

  /** The "week" branch: the week key when given, else the date, must parse. */
  function WeekView(charges: seq<FixedCharge>, storeId: int, date: Option<string>, week: Option<string>)
    : (r: Result<seq<Effective>, StatError>)
    ensures r.Success? <==> ChosenWeekKey(date, week).Some? && ParseDay(ChosenWeekKey(date, week).value).Some?
    ensures r.Success? ==> r.value == WeekEffective(charges, storeId, ParseDay(ChosenWeekKey(date, week).value).value)
  {
    var key :- ChosenWeekKey(date, week).OrFail(Unparseable);
    var e :- ParseDay(key).OrFail(Unparseable);
    Success(WeekEffective(charges, storeId, e))
  }

  /** `getFixedChargesWithEffectiveAmounts(storeId, period, date, week)`. */
  function FixedWithAmounts(charges: seq<FixedCharge>, storeId: int, g: Granularity,
                            date: Option<string>, week: Option<string>)
    : (r: Result<seq<Effective>, StatError>)
    ensures g == PerMonth ==> r == Success(MonthEffective(charges, storeId, date))
    ensures g == PerDay ==> (r.Success? <==> date.Some? && ParseDay(date.value).Some?)
    ensures g == PerWeek ==> (r.Success? <==> ChosenWeekKey(date, week).Some? && ParseDay(ChosenWeekKey(date, week).value).Some?)
    ensures g == PerWeek && r.Success? ==>
      r.value == WeekEffective(charges, storeId, ParseDay(ChosenWeekKey(date, week).value).value)
  {
    match g
    case PerDay => DayView(charges, storeId, date)
    case PerWeek => WeekView(charges, storeId, date, week)
    case PerMonth => Success(MonthEffective(charges, storeId, date))
  }

  /** The week view asked for by a Monday's key is that Monday's week. */
  lemma WeekViewOfMonday(charges: seq<FixedCharge>, storeId: int, m: int, date: Option<string>)
    requires KeyDay(m)
    ensures FixedWithAmounts(charges, storeId, PerWeek, date, Some(DayKey(m))) == Success(WeekEffective(charges, storeId, m))
    ensures WeekView(charges, storeId, date, Some(DayKey(m))) == Success(WeekEffective(charges, storeId, m))
  {
    var k := DayKey(m);
    ParseDayKey(m);
    assert ChosenWeekKey(date, Some(k)) == Some(k);
  }

  /** The day view of a day carries each MONTH charge of its month at the
      nearest cent to the day's share, and a WEEK charge of its week at the
      nearest cent to a seventh. */
  lemma DayViewShares(charges: seq<FixedCharge>, storeId: int, e: int, x: Effective)
    requires KeyDay(e) && x in DayEffective(charges, storeId, e)
    ensures x.charge in charges && x.charge.storeId == storeId && x.charge.monthKey == Some(MonthKeyOfDay(e))
    ensures x.amount % CENT == 0
    ensures x.charge.period == Month ==>
      IsHalfUpQuotient(x.charge.amount, CENT * DaysInMonth(YearMonthOf(e).year, YearMonthOf(e).month), x.amount / CENT)
    ensures x.charge.period == Week ==>
      x.charge.weekKey == Some(MondayKey(e)) && IsHalfUpQuotient(x.charge.amount, CENT * 7, x.amount / CENT)
  {
    var ym := YearMonthOf(e);
    var monthKey := MonthKeyOfDay(e);
    var weekKey := MondayKey(e);
    var a := MonthCharges(charges, storeId, monthKey);
    var weekly := WeekCharges(charges, storeId, monthKey, weekKey);
    var pa := Prorated(a, DaysInMonth(ym.year, ym.month));
    var pw := Prorated(weekly, 7);
    assert DayEffective(charges, storeId, e) == pa + pw;
    if x in pa {
      var i :| 0 <= i < |pa| && pa[i] == x;
      assert a[i] in a;
    } else {
      var i :| 0 <= i < |pw| && pw[i] == x;
      assert weekly[i] in weekly;
    }
  }

  /** The week view counts a charge filed under the week's Monday at its full
      amount even when it is a MONTH charge. */
  lemma WeekViewIgnoresPeriod(charges: seq<FixedCharge>, storeId: int, e: int, c: FixedCharge)
    requires KeyDay(e) && c in charges
    requires OfWeek(c, storeId, MondayMonthKey(e), MondayKey(e))
    ensures Effective(c, c.amount) in WeekEffective(charges, storeId, e)
  {
    var rows := WeekRows(charges, storeId, MondayMonthKey(e), MondayKey(e));
    assert c in rows;
    FullHas(rows, c);
  }

  lemma FullHas(rows: seq<FixedCharge>, c: FixedCharge)
    requires c in rows
    ensures Effective(c, c.amount) in Full(rows)
  {
    var i :| 0 <= i < |rows| && rows[i] == c;
    assert Full(rows)[i] == Effective(c, c.amount);
  }

  /** The month view counts every charge of the month at its full amount,
      WEEK charges included. */
  lemma MonthViewIgnoresPeriod(charges: seq<FixedCharge>, storeId: int, monthKey: string, c: FixedCharge)
    requires c in charges && OfMonth(c, storeId, Some(monthKey))
    ensures Effective(c, c.amount) in MonthEffective(charges, storeId, Some(monthKey))
  {
    var rows := Filter(charges, c => OfMonth(c, storeId, Some(monthKey)));
    assert c in rows;
    FullHas(rows, c);
  }

  /** `getFixedChargesForPeriod`: the effective amounts added up and rounded
      to cents. */
  function FixedTotal(charges: seq<FixedCharge>, storeId: int, g: Granularity, date: Option<string>, week: Option<string>)
    : (r: Result<int, StatError>)
    ensures r.Success? <==> FixedWithAmounts(charges, storeId, g, date, week).Success?
    ensures r.Success? ==> r.value == RoundedTotal(FixedWithAmounts(charges, storeId, g, date, week).value)
  {
    var es :- FixedWithAmounts(charges, storeId, g, date, week);
    Success(RoundedTotal(es))
  }

  /** Σ of the effective amounts, rounded to cents. */
  function RoundedTotal(es: seq<Effective>): (r: int)
    ensures r % CENT == 0 && 2 * Abs(Sum(EffectiveAmounts(es)) - r) <= CENT
  {
    SetScale2(Sum(EffectiveAmounts(es)))
  }

  /** The day example: a MONTH charge of 310.00 in a 31-day month puts 10.00
      on each day. */
  lemma DayShareExample()
    ensures DivCountScale2(310 * ONE, 31) == 10 * ONE
  {
    DivHalfUpExact(310 * ONE, CENT * 31);
  }

  // ---------------------------------------------------------------------------
  // Variable charges
  // ---------------------------------------------------------------------------

  /** `findByStoreIdAndDateRange`, read as the store's charges dated inside
      the window, in stored order. */
  function VariableInRange(vs: seq<VariableCharge>, storeId: int, a: int, b: int): (r: seq<VariableCharge>)
    ensures forall v :: v in r <==> v in vs && v.storeId == storeId && a <= v.date <= b
  {
    Filter(vs, (v: VariableCharge) => v.storeId == storeId && a <= v.date <= b)
  }

  function VariableAmounts(vs: seq<VariableCharge>): (s: seq<int>)
    ensures |s| == |vs| && forall i :: 0 <= i < |vs| ==> s[i] == vs[i].amount
  {
    seq(|vs|, i requires 0 <= i < |vs| => vs[i].amount)
  }

  /** `getVariableChargesForPeriod`: the window's variable charges added up
      and rounded to cents. */
  function VariableTotal(vs: seq<VariableCharge>, storeId: int, a: int, b: int): (r: int)
    ensures r % CENT == 0 && 2 * Abs(Sum(VariableAmounts(VariableInRange(vs, storeId, a, b))) - r) <= CENT
  {
    SetScale2(Sum(VariableAmounts(VariableInRange(vs, storeId, a, b))))
  }

  // ---------------------------------------------------------------------------
  // KPIs and status bands
  // ---------------------------------------------------------------------------

  datatype Status = Good | Medium | Critical

  /** How bad a status is. */
  function Severity(s: Status): int {
    match s
    case Good => 0
    case Medium => 1
    case Critical => 2
  }

  /** `calculateChargesStatus`: charges above 75% of revenue are critical,
      above 66% medium. */
  function ChargesStatus(p: int): (s: Status)
    ensures s == Critical <==> p > 75 * ONE
    ensures s == Good <==> p <= 66 * ONE
  {
    if p > 75 * ONE then Critical else if p > 66 * ONE then Medium else Good
  }

  /** `calculateProfitStatus`: a margin of 33% or more is good, 15% or more
      medium. */
  function ProfitStatus(p: int): (s: Status)
    ensures s == Good <==> p >= 33 * ONE
    ensures s == Critical <==> p < 15 * ONE
  {
    if p >= 33 * ONE then Good else if p >= 15 * ONE then Medium else Critical
  }

  /** `calculateChargeStatus`: one charge above 20% of revenue is critical,
      above 10% medium. */
  function ItemStatus(p: int): (s: Status)
    ensures s == Critical <==> p > 20 * ONE
    ensures s == Good <==> p <= 10 * ONE
  {
    if p > 20 * ONE then Critical else if p > 10 * ONE then Medium else Good
  }

  /** A larger share of charges never gives a better status, and a larger
      margin never a worse one. */
  lemma StatusesMonotone(p: int, q: int)
    requires p <= q
    ensures Severity(ChargesStatus(p)) <= Severity(ChargesStatus(q))
    ensures Severity(ItemStatus(p)) <= Severity(ItemStatus(q))
    ensures Severity(ProfitStatus(q)) <= Severity(ProfitStatus(p))
  {
  }

  /** `calculateRevenueEvolution`: the change against the previous period in
      percent, 0 when there was no previous revenue. */
  function Evolution(current: int, previous: int): (r: int)
    ensures previous == 0 ==> r == 0
    ensures previous != 0 ==> r % CENT == 0 && IsHalfUpQuotient((current - previous) * ONE, previous, r / CENT)
  {
    Percentage(current - previous, previous)
  }

  /** The headline figures of `getStatistics`. */
  datatype Kpi = Kpi(
    revenue: int,
    charges: int,
    profit: int,
    revenueEvolution: int,
    chargesPercentage: int,
    profitPercentage: int,
    chargesStatus: Status,
    profitStatus: Status)

  function ComputeKpi(revenue: int, previousRevenue: int, fixedTotal: int, variableTotal: int): (k: Kpi)
    ensures k.revenue == revenue && k.charges == fixedTotal + variableTotal && k.profit == revenue - k.charges
    ensures k.revenueEvolution == Evolution(revenue, previousRevenue)
    ensures revenue == 0 ==> k.chargesPercentage == 0 && k.profitPercentage == 0
    ensures revenue != 0 ==> Abs(k.chargesPercentage + k.profitPercentage - 100 * ONE) <= CENT
    ensures k.chargesStatus == ChargesStatus(k.chargesPercentage) && k.profitStatus == ProfitStatus(k.profitPercentage)
  {
    var charges := fixedTotal + variableTotal;
    var profit := revenue - charges;
    var chargesPercentage := Percentage(charges, revenue);
    var profitPercentage := Percentage(profit, revenue);
    PercentagesComplement(charges, revenue);
    Kpi(revenue, charges, profit, Evolution(revenue, previousRevenue), chargesPercentage, profitPercentage,
        ChargesStatus(chargesPercentage), ProfitStatus(profitPercentage))
  }

  lemma AbsProduct(t: int, d: int)
    ensures Abs(t * d) == Abs(t) * Abs(d)
  {
    if t < 0 && d < 0 {
      assert t * d == (-t) * (-d);
    } else if t < 0 {
      assert -(t * d) == (-t) * d;
    } else if d < 0 {
      assert -(t * d) == t * (-d);
    }
  }

  lemma ScaleAtLeastTwice(a: int, b: int)
    requires a >= 2 && b >= 0
    ensures a * b >= 2 * b
  {
    assert a * b == 2 * b + (a - 2) * b;
  }

  /** The only multiples of d no larger than d are -d, 0 and d. */
  lemma SmallMultiple(t: int, d: int)
    requires d != 0 && Abs(t * d) <= Abs(d)
    ensures -1 <= t <= 1
  {
    AbsProduct(t, d);
    if Abs(t) >= 2 {
      ScaleAtLeastTwice(Abs(t), Abs(d));
    }
  }

  lemma ErrorSum(n1: int, n2: int, d: int, q1: int, q2: int, k: int)
    requires n1 + n2 == k * d
    ensures (k - q1 - q2) * d == (n1 - q1 * d) + (n2 - q2 * d)
  {
    assert (k - q1 - q2) * d == k * d - q1 * d - q2 * d;
  }

  /** Two HALF_UP quotients whose numerators add up to k times the divisor
      add up to k, give or take one. */
  lemma QuotientsComplement(n1: int, n2: int, d: int, q1: int, q2: int, k: int)
    requires d != 0 && n1 + n2 == k * d
    requires IsHalfUpQuotient(n1, d, q1) && IsHalfUpQuotient(n2, d, q2)
    ensures -1 <= q1 + q2 - k <= 1
  {
    ErrorSum(n1, n2, d, q1, q2, k);
    SmallMultiple(k - q1 - q2, d);
  }

  /** The share of charges and the margin add up to 100%, up to one cent of
      rounding. */
  lemma PercentagesComplement(charges: int, revenue: int)
    ensures revenue != 0 ==>
      Abs(Percentage(charges, revenue) + Percentage(revenue - charges, revenue) - 100 * ONE) <= CENT
  {
    if revenue == 0 {
      return;
    }
    var q1 := DivScale4(charges, revenue);
    var q2 := DivScale4(revenue - charges, revenue);
    assert charges * ONE + (revenue - charges) * ONE == ONE * revenue;
    QuotientsComplement(charges * ONE, (revenue - charges) * ONE, revenue, q1, q2, ONE);
  }

  /** Revenue 1000 against charges 700: profit 300, 70% charges (medium),
      30% margin (medium); charges of 800 are critical. */
  lemma KpiExample()
    ensures var k := ComputeKpi(1000 * ONE, 0, 700 * ONE, 0);
      && k.profit == 300 * ONE && k.chargesPercentage == 70 * ONE && k.profitPercentage == 30 * ONE
      && k.chargesStatus == Medium && k.profitStatus == Medium
    ensures ChargesStatus(Percentage(800 * ONE, 1000 * ONE)) == Critical
  {
    DivHalfUpExact(700 * ONE * ONE, 1000 * ONE);
    DivHalfUpExact(300 * ONE * ONE, 1000 * ONE);
    DivHalfUpExact(800 * ONE * ONE, 1000 * ONE);
  }
}
