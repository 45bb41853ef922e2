/** The chart series, the charges breakdown and the whole response of
    `StatisticsService`: `generateDayChartData`, `generateWeekChartData`,
    `generateMonthChartData`, `getChargesDetail` and `getStatistics`. */
module Charts {
  import opened Wrappers
  import opened Calendar
  import opened Keys
  import opened Weeks
  import opened Money
  import opened Entities
  import opened Ledger
  import opened Statistics
  import opened Strings

  /** A chart name: fixed text, or a month (shown by its short name in the
      server's locale). */
  datatype Label = Text(text: string) | MonthLabel(month: YearMonth)

  datatype ChartPoint = ChartPoint(name: Label, revenue: int, charges: int, profit: int)

  /** A point of any chart: profit is revenue minus charges. */
  function Point(name: Label, revenue: int, charges: int): (p: ChartPoint)
    ensures p.name == name && p.revenue == revenue && p.charges == charges
    ensures p.profit == p.revenue - p.charges
  {
    ChartPoint(name, revenue, charges, revenue - charges)
  }

  // ---------------------------------------------------------------------------
  // Day chart: the seven days of the week
  // ---------------------------------------------------------------------------

  const DayLabels: seq<string> := ["Mon", "Tue", "Wed", "Thu", "Fri", "Sat", "Sun"]

  /** The fixed component every point of the day chart shares: the MONTH
      charges of the Monday's month added up and prorated over that month's
      days, plus the WEEK charges of the week added up and prorated over
      seven days.  Each sum is prorated only when positive. */
  function DayChartFixed(charges: seq<FixedCharge>, storeId: int, e: int): int
    requires KeyDay(e)
  {
    var monthKey := MondayMonthKey(e);
    var ym := YearMonthOf(MondayOf(e));
    var monthly := Sum(ChargeAmounts(MonthCharges(charges, storeId, monthKey)));
    var weekly := Sum(ChargeAmounts(WeekCharges(charges, storeId, monthKey, MondayKey(e))));
    (if monthly > 0 then DivCountScale2(monthly, DaysInMonth(ym.year, ym.month)) else 0)
      + (if weekly > 0 then DivCountScale2(weekly, 7) else 0)
  }

  /** The point of the i-th day of the week starting on Monday m. */
  function DayPoint(revenue: int -> Option<int>, vs: seq<VariableCharge>, storeId: int, fixed: int, m: int, i: int)
    : (p: ChartPoint)
    requires 0 <= i < 7
    ensures p.name == Text(DayLabels[i])
    ensures p.revenue == Revenue(revenue, m + i, m + i)
    ensures p.charges == fixed + VariableTotal(vs, storeId, m + i, m + i)
    ensures p.profit == p.revenue - p.charges
  {
    Point(Text(DayLabels[i]), Revenue(revenue, m + i, m + i), fixed + VariableTotal(vs, storeId, m + i, m + i))
  }

  /** The seven points of the week starting on Monday m. */
  function DayPoints(revenue: int -> Option<int>, vs: seq<VariableCharge>, storeId: int, fixed: int, m: int)
    : (r: seq<ChartPoint>)
    ensures |r| == 7
    ensures forall i :: 0 <= i < 7 ==> r[i] == DayPoint(revenue, vs, storeId, fixed, m, i)
  {
    seq(7, i requires 0 <= i < 7 => DayPoint(revenue, vs, storeId, fixed, m, i))
  }

  /** `generateDayChartData` for the day e: the seven days of its week, all
      with the same fixed component. */
  function DayChart(revenue: int -> Option<int>, charges: seq<FixedCharge>, vs: seq<VariableCharge>, storeId: int, e: int)
    : (r: seq<ChartPoint>)
    requires KeyDay(e)
  {
    DayPoints(revenue, vs, storeId, DayChartFixed(charges, storeId, e), MondayOf(e))
  }

  /** The day itself is the point labelled with its weekday, whatever the
      fixed component. */
  lemma DayChartHoldsTheDay(revenue: int -> Option<int>, vs: seq<VariableCharge>, storeId: int, fixed: int, e: int)
    ensures var r := DayPoints(revenue, vs, storeId, fixed, MondayOf(e));
      && r[DayOfWeek(e) - 1].revenue == Revenue(revenue, e, e)
      && r[DayOfWeek(e) - 1].name == Text(DayLabels[DayOfWeek(e) - 1])
  {
    var m := MondayOf(e);
    var k := DayOfWeek(e) - 1;
    assert m + k == e;
  }

  lemma FilterSkipFront<T(!new)>(c: T, s: seq<T>, p: T -> bool)
    requires !p(c)
    ensures Filter([c] + s, p) == Filter(s, p)
  {
    assert ([c] + s)[1..] == s;
  }

  /** As written, the day chart takes its MONTH charges from the month of the
      week's Monday: when the day is in a later month than its Monday, a
      charge filed under the day's own month does not move the chart. */
  lemma DayChartUsesMondayMonth(charges: seq<FixedCharge>, storeId: int, e: int, c: FixedCharge)
    requires KeyDay(e) && YearMonthOf(MondayOf(e)) != YearMonthOf(e)
    requires c.monthKey == Some(MonthKeyOfDay(e))
    ensures DayChartFixed([c] + charges, storeId, e) == DayChartFixed(charges, storeId, e)
  {
    var monthKey := MondayMonthKey(e);
    assert monthKey != MonthKeyOfDay(e);
    FilterSkipFront(c, charges, c => OfMonth(c, storeId, Some(monthKey)) && c.period == Month);
    FilterSkipFront(c, charges, c => OfWeek(c, storeId, monthKey, MondayKey(e)));
  }

  // ---------------------------------------------------------------------------
  // Week chart: the weeks the month owns
  // ---------------------------------------------------------------------------

  /** "W1" .. "W9". */
  function WeekLabel(n: int): string
    requires 1 <= n <= 9
  {
    "W" + [DigitChar(n)]
  }

  /** One point of the week chart, for a week record whose key parses: the
      week view of the fixed charges is asked for by the record's key. */
  function WeekPoint(revenue: int -> Option<int>, charges: seq<FixedCharge>, vs: seq<VariableCharge>, storeId: int,
                     w: WeekInfo, n: int)
    : (p: ChartPoint)
    requires ParseDay(w.weekKey).Some? && 1 <= n <= 9
    ensures p.name == Text(WeekLabel(n)) && p.revenue == Revenue(revenue, w.startDate, w.endDate)
    ensures p.profit == p.revenue - p.charges
  {
    var fixed := WeekView(charges, storeId, None, Some(w.weekKey));
    Point(Text(WeekLabel(n)), Revenue(revenue, w.startDate, w.endDate),
      RoundedTotal(fixed.value) + VariableTotal(vs, storeId, w.startDate, w.endDate))
  }

  /** The key of every record of ws parses. */
  predicate KeysParse(ws: seq<WeekInfo>)
    decreases |ws|
  {
    |ws| > 0 ==> ParseDay(ws[0].weekKey).Some? && KeysParse(ws[1..])
  }

  /** ws are the week records of the Mondays ms, in order. */
  predicate RecordsOfMondays(ws: seq<WeekInfo>, ms: seq<int>)
    decreases |ws|
  {
    && |ws| == |ms|
    && (|ws| > 0 ==>
      && ParseDay(ws[0].weekKey) == Some(ms[0]) && ws[0].startDate == ms[0] && ws[0].endDate == ms[0] + 6
      && RecordsOfMondays(ws[1..], ms[1..]))
  }

  lemma {:induction false} RecordsOfMondaysAt(ws: seq<WeekInfo>, ms: seq<int>)
    requires |ws| == |ms|
    requires forall j :: 0 <= j < |ws| ==>
      ParseDay(ws[j].weekKey) == Some(ms[j]) && ws[j].startDate == ms[j] && ws[j].endDate == ms[j] + 6
    ensures RecordsOfMondays(ws, ms) && KeysParse(ws)
    decreases |ws|
  {
    if |ws| > 0 {
      forall j | 0 <= j < |ws| - 1
        ensures ParseDay(ws[1..][j].weekKey) == Some(ms[1..][j])
        ensures ws[1..][j].startDate == ms[1..][j] && ws[1..][j].endDate == ms[1..][j] + 6
      {
        assert ws[1..][j] == ws[j + 1] && ms[1..][j] == ms[j + 1];
      }
      RecordsOfMondaysAt(ws[1..], ms[1..]);
    }
  }

  /** The week records of the month a Monday's month key names are the
      month's Mondays, each with its own key. */
  lemma BelongingWeeksOfKey(e: int)
    requires KeyDay(e)
    ensures var ym := YearMonthOf(MondayOf(e));
      && WeeksBelongingToMonth(MondayMonthKey(e)).Some?
      && RecordsOfMondays(WeeksBelongingToMonth(MondayMonthKey(e)).value, MonthMondays(ym))
      && KeysParse(WeeksBelongingToMonth(MondayMonthKey(e)).value)
      && 4 <= |MonthMondays(ym)| <= 5
  {
    var ym := YearMonthOf(MondayOf(e));
    var monthKey := MondayMonthKey(e);
    WeeksBelongingSpec(monthKey);
    MonthMondaysCount(ym);
    var ws := WeeksBelongingToMonth(monthKey).value;
    var ms := MonthMondays(ym);
    forall j | 0 <= j < |ws|
      ensures ParseDay(ws[j].weekKey) == Some(ms[j]) && ws[j].startDate == ms[j] && ws[j].endDate == ms[j] + 6
    {
      var m := ms[j];
      MonthMondaysSpec(ym, m);
      InfoFields(m, monthKey);
      ParseDayKey(m);
      MondayOfWeekDays(m, 0);
    }
    RecordsOfMondaysAt(ws, ms);
  }

  /** The points of a list of week records, labelled Wn, W(n+1), ... */
  function WeekPoints(revenue: int -> Option<int>, charges: seq<FixedCharge>, vs: seq<VariableCharge>, storeId: int,
                      ws: seq<WeekInfo>, n: int)
    : (r: seq<ChartPoint>)
    requires 1 <= n && n + |ws| <= 10 && KeysParse(ws)
    ensures |r| == |ws|
    decreases |ws|
  {
    if |ws| == 0 then []
    else [WeekPoint(revenue, charges, vs, storeId, ws[0], n)] + WeekPoints(revenue, charges, vs, storeId, ws[1..], n + 1)
  }

  /** p is the point labelled W(n) for the week of the Monday m: that
      week's revenue, and as charges the rounded week view of the fixed
      charges of m's week plus the variable charges of its days. */
  predicate IsWeekPoint(revenue: int -> Option<int>, charges: seq<FixedCharge>, vs: seq<VariableCharge>, storeId: int,
                        p: ChartPoint, m: int, n: int)
  {
    && 1 <= n <= 9
    && KeyDay(m)
    && p.name == Text(WeekLabel(n))
    && p.revenue == Revenue(revenue, m, m + 6)
    && p.charges == RoundedTotal(WeekEffective(charges, storeId, m)) + VariableTotal(vs, storeId, m, m + 6)
    && p.profit == p.revenue - p.charges
  }

  /** The point of the week record of the Monday m is m's week point. */
  lemma WeekPointOfRecord(revenue: int -> Option<int>, charges: seq<FixedCharge>, vs: seq<VariableCharge>, storeId: int,
                          w: WeekInfo, n: int, m: int)
    requires ParseDay(w.weekKey) == Some(m) && w.startDate == m && w.endDate == m + 6 && 1 <= n <= 9
    ensures IsWeekPoint(revenue, charges, vs, storeId, WeekPoint(revenue, charges, vs, storeId, w, n), m, n)
  {
    assert ChosenWeekKey(None, Some(w.weekKey)) == Some(w.weekKey);
    assert WeekView(charges, storeId, None, Some(w.weekKey)) == Success(WeekEffective(charges, storeId, m));
  }

  function WeekPointTest(revenue: int -> Option<int>, charges: seq<FixedCharge>, vs: seq<VariableCharge>, storeId: int)
    : (ChartPoint, int, int) -> bool
  {
    (p, m, n) => IsWeekPoint(revenue, charges, vs, storeId, p, m, n)
  }

  /** ok holds of each point of r with the matching entry of ms and its
      position counted from n. */
  predicate Pairwise(ok: (ChartPoint, int, int) -> bool, r: seq<ChartPoint>, ms: seq<int>, n: int)
    decreases |r|
  {
    |r| == |ms| && (|r| > 0 ==> ok(r[0], ms[0], n) && Pairwise(ok, r[1..], ms[1..], n + 1))
  }

  lemma {:induction false} PairwiseAt(ok: (ChartPoint, int, int) -> bool, r: seq<ChartPoint>, ms: seq<int>, n: int, j: int)
    requires Pairwise(ok, r, ms, n) && 0 <= j < |r|
    ensures j < |ms| && ok(r[j], ms[j], n + j)
    decreases j
  {
    if j > 0 {
      PairwiseAt(ok, r[1..], ms[1..], n + 1, j - 1);
      assert r[1..][j - 1] == r[j] && ms[1..][j - 1] == ms[j];
    }
  }

  /** The first point of the records of the Mondays ms is the week point
      of the first Monday, and the others are the points of the other
      records. */
  lemma WeekPointsHead(revenue: int -> Option<int>, charges: seq<FixedCharge>, vs: seq<VariableCharge>, storeId: int,
                       ws: seq<WeekInfo>, ms: seq<int>, n: int)
    requires 1 <= n && n + |ws| <= 10 && |ws| > 0 && RecordsOfMondays(ws, ms) && KeysParse(ws)
    ensures WeekPointTest(revenue, charges, vs, storeId)(WeekPoints(revenue, charges, vs, storeId, ws, n)[0], ms[0], n)
    ensures WeekPoints(revenue, charges, vs, storeId, ws, n)[1..] == WeekPoints(revenue, charges, vs, storeId, ws[1..], n + 1)
    ensures RecordsOfMondays(ws[1..], ms[1..])
  {
    var r := WeekPoints(revenue, charges, vs, storeId, ws, n);
    assert r[0] == WeekPoint(revenue, charges, vs, storeId, ws[0], n);
    WeekPointOfRecord(revenue, charges, vs, storeId, ws[0], n, ms[0]);
  }

  /** The points of the records of the Mondays ms are their week points. */
  lemma {:induction false} WeekPointsOfMondays(revenue: int -> Option<int>, charges: seq<FixedCharge>,
                                               vs: seq<VariableCharge>, storeId: int,
                                               ws: seq<WeekInfo>, ms: seq<int>, n: int)
    requires 1 <= n && n + |ws| <= 10 && RecordsOfMondays(ws, ms) && KeysParse(ws)
    ensures Pairwise(WeekPointTest(revenue, charges, vs, storeId), WeekPoints(revenue, charges, vs, storeId, ws, n), ms, n)
    decreases |ws|
  {
    if |ws| > 0 {
      WeekPointsHead(revenue, charges, vs, storeId, ws, ms, n);
      WeekPointsOfMondays(revenue, charges, vs, storeId, ws[1..], ms[1..], n + 1);
    }
  }

  /** `generateWeekChartData` for the day e: one point per week the month of
      its Monday owns. */
  function WeekChart(revenue: int -> Option<int>, charges: seq<FixedCharge>, vs: seq<VariableCharge>, storeId: int, e: int)
    : (r: seq<ChartPoint>)
    requires KeyDay(e)
  {
    BelongingWeeksOfKey(e);
    WeekPoints(revenue, charges, vs, storeId, WeeksBelongingToMonth(MondayMonthKey(e)).value, 1)
  }

  /** The week chart has one point per Monday of the month of e's Monday, in
      order, the j-th being that Monday's week point labelled W(j + 1); there
      are four or five of them. */
  lemma WeekChartSpec(revenue: int -> Option<int>, charges: seq<FixedCharge>, vs: seq<VariableCharge>, storeId: int, e: int)
    requires KeyDay(e)
    ensures var ms := MonthMondays(YearMonthOf(MondayOf(e)));
      && 4 <= |ms| <= 5
      && Pairwise(WeekPointTest(revenue, charges, vs, storeId), WeekChart(revenue, charges, vs, storeId, e), ms, 1)
  {
    BelongingWeeksOfKey(e);
    WeekPointsOfMondays(revenue, charges, vs, storeId, WeeksBelongingToMonth(MondayMonthKey(e)).value,
                        MonthMondays(YearMonthOf(MondayOf(e))), 1);
  }

  /** The j-th point of the week chart is the week point of the j-th Monday
      of the month of e's Monday. */
  lemma WeekChartAt(revenue: int -> Option<int>, charges: seq<FixedCharge>, vs: seq<VariableCharge>, storeId: int, e: int,
                    j: int)
    requires KeyDay(e) && 0 <= j < |WeekChart(revenue, charges, vs, storeId, e)|
    ensures var ms := MonthMondays(YearMonthOf(MondayOf(e)));
      && |WeekChart(revenue, charges, vs, storeId, e)| == |ms|
      && IsWeekPoint(revenue, charges, vs, storeId, WeekChart(revenue, charges, vs, storeId, e)[j], ms[j], j + 1)
  {
    var ok := WeekPointTest(revenue, charges, vs, storeId);
    var r := WeekChart(revenue, charges, vs, storeId, e);
    var ms := MonthMondays(YearMonthOf(MondayOf(e)));
    WeekChartSpec(revenue, charges, vs, storeId, e);
    PairwiseAt(ok, r, ms, 1, j);
    assert ok(r[j], ms[j], 1 + j);
  }

  /** Every Monday of the chart lies in the month of e's Monday. */
  lemma WeekChartMondays(e: int)
    requires KeyDay(e)
    ensures forall m :: m in MonthMondays(YearMonthOf(MondayOf(e))) ==>
      DayOfWeek(m) == 1 && YearMonthOf(m) == YearMonthOf(MondayOf(e))
  {
    var ym := YearMonthOf(MondayOf(e));
    forall m | m in MonthMondays(ym)
      ensures DayOfWeek(m) == 1 && YearMonthOf(m) == ym
    {
      MonthMondaysSpec(ym, m);
    }
  }

  // ---------------------------------------------------------------------------
  // Month chart: the last four months
  // ---------------------------------------------------------------------------

  /** `YearMonth.format("yyyy-MM")`: "yyyy" is the year of era, so year 0
      (1 BC) is written 0001. */
  function FormatMonth(ym: YearMonth): (s: string)
    requires ym.Valid() && 0 <= ym.year <= 9999
  {
    if ym.year >= 1 then MonthKey(ym) else MonthKey(YearMonth(1 - ym.year, ym.month))
  }

  function MonthIndex(ym: YearMonth): int {
    ym.year * 12 + ym.month
  }

  function MonthPoint(revenue: int -> Option<int>, charges: seq<FixedCharge>, vs: seq<VariableCharge>, storeId: int,
                      month: YearMonth)
    : (p: ChartPoint)
    requires month.Valid() && 0 <= month.year <= 9999
    ensures p.name == MonthLabel(month)
    ensures p.revenue == Revenue(revenue, MonthStart(month), MonthEnd(month))
    ensures p.charges == RoundedTotal(MonthEffective(charges, storeId, Some(FormatMonth(month))))
      + VariableTotal(vs, storeId, MonthStart(month), MonthEnd(month))
  {
    // `getFixedChargesForPeriod(storeId, "month", key)`: the month view,
    // rounded (`FixedTotal` at `PerMonth`)
    var fixed := RoundedTotal(MonthEffective(charges, storeId, Some(FormatMonth(month))));
    Point(MonthLabel(month), Revenue(revenue, MonthStart(month), MonthEnd(month)),
      fixed + VariableTotal(vs, storeId, MonthStart(month), MonthEnd(month)))
  }

  /** `generateMonthChartData`: the month and the three before it, oldest
      first. */
  function MonthPoints(revenue: int -> Option<int>, charges: seq<FixedCharge>, vs: seq<VariableCharge>, storeId: int,
                       ym: YearMonth)
    : (r: seq<ChartPoint>)
    requires KeyMonth(ym)
    ensures |r| == 4
    ensures forall k :: 0 <= k < 4 ==>
      && r[k].name.MonthLabel? && r[k].name.month.Valid()
      && MonthIndex(r[k].name.month) == MonthIndex(ym) - 3 + k
      && r[k].revenue == Revenue(revenue, MonthStart(r[k].name.month), MonthEnd(r[k].name.month))
      && 0 <= r[k].name.month.year <= 9999
      && r[k].charges == RoundedTotal(MonthEffective(charges, storeId, Some(FormatMonth(r[k].name.month))))
        + VariableTotal(vs, storeId, MonthStart(r[k].name.month), MonthEnd(r[k].name.month))
      && r[k].profit == r[k].revenue - r[k].charges
  {
    seq(4, k requires 0 <= k < 4 => MonthPoint(revenue, charges, vs, storeId, ChartMonth(ym, k)))
  }

  /** The k-th month of the month chart: the month 3 - k months back. */
  function ChartMonth(ym: YearMonth, k: int): (m: YearMonth)
    requires KeyMonth(ym) && 0 <= k < 4
    ensures m.Valid() && 0 <= m.year <= 9999
    ensures MonthIndex(m) == MonthIndex(ym) - 3 + k
  {
    MinusMonths(ym, 3 - k)
  }

  /** The month chart ends with the month itself, and each point is the month
      after the one before it. */
  lemma MonthChartConsecutive(revenue: int -> Option<int>, charges: seq<FixedCharge>, vs: seq<VariableCharge>, storeId: int,
                              ym: YearMonth)
    requires KeyMonth(ym)
    ensures var r := MonthPoints(revenue, charges, vs, storeId, ym);
      && r[3].name == MonthLabel(ym)
      && forall k :: 0 <= k < 3 ==> r[k].name.month == PrevMonth(r[k + 1].name.month)
  {
    var r := MonthPoints(revenue, charges, vs, storeId, ym);
    MonthIndexNext(r[3].name.month, ym, 0);
    forall k | 0 <= k < 3 ensures r[k].name.month == PrevMonth(r[k + 1].name.month) {
      MonthIndexNext(r[k].name.month, r[k + 1].name.month, 1);
    }
  }

  /** A valid month is determined by its index, and the month before has the
      index one less. */
  lemma MonthIndexNext(a: YearMonth, b: YearMonth, d: int)
    requires a.Valid() && b.Valid() && (d == 0 || d == 1) && MonthIndex(a) + d == MonthIndex(b)
    ensures d == 0 ==> a == b
    ensures d == 1 ==> a == PrevMonth(b)
  {
  }

  /** `generateChartData` for a resolved period. */
  function ChartData(revenue: int -> Option<int>, charges: seq<FixedCharge>, vs: seq<VariableCharge>, storeId: int,
                     g: Granularity, date: string)
    : (r: Result<seq<ChartPoint>, StatError>)
    ensures r.Success? <==> if g == PerMonth then ParseMonthKey(date).Some? else ParseDay(date).Some?
    ensures r.Success? ==> |r.value| == (if g == PerDay then 7 else if g == PerMonth then 4 else |r.value|)
  {
    match g
    case PerDay =>
      var e :- ParseDay(date).OrFail(Unparseable);
      Success(DayChart(revenue, charges, vs, storeId, e))
    case PerWeek =>
      var e :- ParseDay(date).OrFail(Unparseable);
      Success(WeekChart(revenue, charges, vs, storeId, e))
    case PerMonth =>
      var ym :- ParseMonthKey(date).OrFail(Unparseable);
      Success(MonthPoints(revenue, charges, vs, storeId, ym))
  }

  // ---------------------------------------------------------------------------
  // Charge items
  // ---------------------------------------------------------------------------

  datatype ItemKind = FixedItem | VariableItem

  /** `ChargeItemDTO`, without its display name, date and supplier. */
  datatype ChargeItem = ChargeItem(
    id: int,
    amount: int,
    percentageOfCharges: int,
    percentageOfRevenue: int,
    kind: ItemKind,
    status: Status)

  /** `toChargeItemDTO`: the item's share of all charges and of revenue, and
      its status by the share of revenue. */
  function Item(id: int, amount: int, kind: ItemKind, totalCharges: int, revenue: int): (it: ChargeItem)
    ensures it.amount == amount && it.kind == kind
    ensures it.percentageOfCharges == Percentage(amount, totalCharges)
    ensures it.percentageOfRevenue == Percentage(amount, revenue)
    ensures it.status == ItemStatus(it.percentageOfRevenue)
  {
    var ofRevenue := Percentage(amount, revenue);
    ChargeItem(id, amount, Percentage(amount, totalCharges), ofRevenue, kind, ItemStatus(ofRevenue))
  }

  function FixedItems(es: seq<Effective>, totalCharges: int, revenue: int): (r: seq<ChargeItem>)
    ensures |r| == |es|
    ensures forall i :: 0 <= i < |es| ==> r[i] == Item(es[i].charge.id, es[i].amount, FixedItem, totalCharges, revenue)
  {
    seq(|es|, i requires 0 <= i < |es| => Item(es[i].charge.id, es[i].amount, FixedItem, totalCharges, revenue))
  }

  function VariableItems(vs: seq<VariableCharge>, totalCharges: int, revenue: int): (r: seq<ChargeItem>)
    ensures |r| == |vs|
    ensures forall i :: 0 <= i < |vs| ==> r[i] == Item(vs[i].id, vs[i].amount, VariableItem, totalCharges, revenue)
  {
    seq(|vs|, i requires 0 <= i < |vs| => Item(vs[i].id, vs[i].amount, VariableItem, totalCharges, revenue))
  }

  function ItemAmounts(items: seq<ChargeItem>): (s: seq<int>)
    ensures |s| == |items| && forall i :: 0 <= i < |items| ==> s[i] == items[i].amount
  {
    seq(|items|, i requires 0 <= i < |items| => items[i].amount)
  }

  // ---------------------------------------------------------------------------
  // getChargesDetail
  // ---------------------------------------------------------------------------

  /** `ChargesStatisticsDTO` */
  datatype DetailStats = DetailStats(
    totalCharges: int,
    totalFixed: int,
    totalVariable: int,
    itemCount: int,
    percentageOfAllCharges: int,
    caPercentage: int,
    revenue: int)

  /** `ChargesDetailResponse` */
  datatype Detail = Detail(granularity: Granularity, stats: DetailStats, fixed: seq<ChargeItem>, variable: seq<ChargeItem>)

  /** The days of the week of a week key, or of the month of a month key. */
  function DetailWindow(isWeek: bool, month: Option<string>, week: string): (r: Result<(int, int), StatError>)
    ensures r.Success? ==> r.value.0 <= r.value.1
    ensures isWeek ==> (r.Success? <==> ParseDay(week).Some?)
    ensures isWeek && r.Success? ==> r.value == (MondayOf(ParseDay(week).value), MondayOf(ParseDay(week).value) + 6)
    ensures !isWeek ==> (r.Success? <==> month.Some? && ParseMonthKey(month.value).Some?)
    ensures !isWeek && r.Success? ==>
      var ym := ParseMonthKey(month.value).value;
      r.value == (MonthStart(ym), MonthEnd(ym))
  {
    if isWeek then
      var e :- ParseDay(week).OrFail(Unparseable);
      WeekWindowSpec(e);
      Success((MondayOf(e), SundayOf(MondayOf(e))))
    else
      var key :- month.OrFail(Unparseable);
      var ym :- ParseMonthKey(key).OrFail(Unparseable);
      Success((MonthStart(ym), MonthEnd(ym)))
  }

  /** The totals and items of a detail view from its fixed and variable
      charges. */
  function DetailOf(g: Granularity, rev: int, es: seq<Effective>, vars: seq<VariableCharge>): (d: Detail)
    ensures d.granularity == g && d.stats.revenue == rev
    ensures d.stats.itemCount == |d.fixed| + |d.variable| && |d.fixed| == |es| && |d.variable| == |vars|
    ensures d.stats.totalCharges == d.stats.totalFixed + d.stats.totalVariable
    ensures d.stats.totalFixed == Sum(ItemAmounts(d.fixed)) && d.stats.totalVariable == Sum(ItemAmounts(d.variable))
    ensures d.stats.caPercentage == Percentage(d.stats.totalCharges, rev)
    ensures forall it :: it in d.fixed + d.variable ==>
      it.status == ItemStatus(it.percentageOfRevenue) && it.percentageOfRevenue == Percentage(it.amount, rev)
  {
    var totalFixed := Sum(EffectiveAmounts(es));
    var totalVariable := Sum(VariableAmounts(vars));
    var total := totalFixed + totalVariable;
    var fixed := FixedItems(es, total, rev);
    var variable := VariableItems(vars, total, rev);
    assert ItemAmounts(fixed) == EffectiveAmounts(es);
    assert ItemAmounts(variable) == VariableAmounts(vars);
    Detail(g, DetailStats(total, totalFixed, totalVariable, |es| + |vars|, Percentage(totalVariable, total),
                          Percentage(total, rev), rev), fixed, variable)
  }

  /** `getChargesDetail(period, month, week)`.  Unlike `getStatistics`, the
      totals are not rounded. */
  function ChargesDetail(revenue: int -> Option<int>, charges: seq<FixedCharge>, vs: seq<VariableCharge>, storeId: int,
                         period: string, month: Option<string>, week: Option<string>)
    : (r: Result<Detail, StatError>)
    ensures !EqualsIgnoreCase(period, "week") && !EqualsIgnoreCase(period, "month") ==> r == Failure(DetailPeriodInvalid)
    ensures EqualsIgnoreCase(period, "week") && (week.None? || |week.value| == 0) ==> r == Failure(WeekRequired)
    ensures r.Success? ==> r.value.granularity == (if EqualsIgnoreCase(period, "week") then PerWeek else PerMonth)
    ensures r.Success? ==>
      && r.value.stats.itemCount == |r.value.fixed| + |r.value.variable|
      && r.value.stats.totalCharges == r.value.stats.totalFixed + r.value.stats.totalVariable
  {
    var isWeek := EqualsIgnoreCase(period, "week");
    if !isWeek && !EqualsIgnoreCase(period, "month") then Failure(DetailPeriodInvalid)
    else if isWeek && (week.None? || |week.value| == 0) then Failure(WeekRequired)
    else
      var window :- DetailWindow(isWeek, month, if isWeek then week.value else "");
      var rev := Revenue(revenue, window.0, window.1);
      var g := if isWeek then PerWeek else PerMonth;
      var es :- FixedWithAmounts(charges, storeId, g, if isWeek then week else month, week);
      Success(DetailOf(g, rev, es, VariableInRange(vs, storeId, window.0, window.1)))
  }

  /** A week detail covers the Monday-to-Sunday week of its key, with the
      week view of the fixed charges and the variable charges of those
      days. */
  lemma WeekDetailWindow(revenue: int -> Option<int>, charges: seq<FixedCharge>, vs: seq<VariableCharge>, storeId: int,
                         month: Option<string>, key: string)
    requires ParseDay(key).Some?
    ensures var m := MondayOf(ParseDay(key).value);
      ChargesDetail(revenue, charges, vs, storeId, "week", month, Some(key))
        == Success(DetailOf(PerWeek, Revenue(revenue, m, m + 6), WeekEffective(charges, storeId, ParseDay(key).value),
                            VariableInRange(vs, storeId, m, m + 6)))
  {
    var e := ParseDay(key).value;
    assert EqualsIgnoreCase("week", "week");
    assert FixedWithAmounts(charges, storeId, PerWeek, Some(key), Some(key)) == Success(WeekEffective(charges, storeId, e));
  }

  // ---------------------------------------------------------------------------
  // getStatistics
  // ---------------------------------------------------------------------------

  /** `StatisticsResponse`: the figures, the chart and the charges
      breakdown. */
  datatype Report = Report(granularity: Granularity, kpi: Kpi, chart: seq<ChartPoint>,
                           fixed: seq<ChargeItem>, variable: seq<ChargeItem>)

  /** Everything after the window resolves: the date parses as the
      granularity needs, so every lookup succeeds. */
  function ReportFor(revenue: int -> Option<int>, charges: seq<FixedCharge>, vs: seq<VariableCharge>, storeId: int,
                     date: string, g: Granularity, w: Window)
    : (r: Report)
    requires if g == PerMonth then ParseMonthKey(date).Some? else ParseDay(date).Some?
    ensures r.granularity == g
    ensures r.kpi.revenue == Revenue(revenue, w.start, w.end)
    ensures r.kpi.revenueEvolution == Evolution(r.kpi.revenue, Revenue(revenue, w.prevStart, w.prevEnd))
    ensures FixedTotal(charges, storeId, g, Some(date), None).Success?
    ensures r.kpi.charges == FixedTotal(charges, storeId, g, Some(date), None).value
      + VariableTotal(vs, storeId, w.start, w.end)
    ensures ChartData(revenue, charges, vs, storeId, g, date) == Success(r.chart)
    ensures |r.variable| == |VariableInRange(vs, storeId, w.start, w.end)|
  {
    var rev := Revenue(revenue, w.start, w.end);
    var previous := Revenue(revenue, w.prevStart, w.prevEnd);
    var fixedTotal := FixedTotal(charges, storeId, g, Some(date), None).value;
    var kpi := ComputeKpi(rev, previous, fixedTotal, VariableTotal(vs, storeId, w.start, w.end));
    var chart := ChartData(revenue, charges, vs, storeId, g, date).value;
    var es := FixedWithAmounts(charges, storeId, g, Some(date), None).value;
    var vars := VariableInRange(vs, storeId, w.start, w.end);
    Report(g, kpi, chart, FixedItems(es, kpi.charges, rev), VariableItems(vars, kpi.charges, rev))
  }

  /** `getStatistics(period, date)`: it fails exactly when the window does. */
  function GetStatistics(revenue: int -> Option<int>, charges: seq<FixedCharge>, vs: seq<VariableCharge>, storeId: int,
                         period: string, date: string)
    : (r: Result<Report, StatError>)
    ensures r.Success? <==> ResolveWindow(period, date).Success?
    ensures r.Failure? ==> r == Failure(ResolveWindow(period, date).error)
    ensures r.Success? ==>
      var w := ResolveWindow(period, date).value.1;
      && Some(r.value.granularity) == ParsePeriod(period)
      && r.value.kpi.revenue == Revenue(revenue, w.start, w.end)
      && r.value.kpi.revenueEvolution == Evolution(r.value.kpi.revenue, Revenue(revenue, w.prevStart, w.prevEnd))
      && r.value.kpi.profit == r.value.kpi.revenue - r.value.kpi.charges
  {
    var resolved :- ResolveWindow(period, date);
    Success(ReportFor(revenue, charges, vs, storeId, date, resolved.0, resolved.1))
  }
}
