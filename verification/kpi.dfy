/** `KpiService`: the daily report of a store and the owner-entered card
    (TPE) part of its takings.

    The report's figures are `Double`s in the source; here they are exact
    `real`s, so sums, shares and comparisons are the mathematical values the
    floating-point code approximates.  The KPI tables are a `KpiDb`: the
    stores, the dates of the date dimension, and per (store, day) the daily
    figures, the card part and the hourly, product, category and server
    rows. */
module DailyReports {
  import opened Wrappers
  import Ledger

  // ---------------------------------------------------------------------------
  // A stable sort, largest key first
  // ---------------------------------------------------------------------------

  predicate Descending<T>(s: seq<T>, key: T -> real) {
    forall i, j :: 0 <= i < j < |s| ==> key(s[j]) <= key(s[i])
  }

  lemma InsertBehind<T>(x: T, s: seq<T>, rest: seq<T>, key: T -> real)
    requires Descending(s, key) && |s| > 0 && key(x) <= key(s[0])
    requires Descending(rest, key) && multiset(rest) == multiset(s[1..]) + multiset{x}
    ensures Descending([s[0]] + rest, key)
  {
    var t := [s[0]] + rest;
    forall i, j | 0 <= i < j < |t| ensures key(t[j]) <= key(t[i]) {
      if i == 0 {
        var y := rest[j - 1];
        assert y in multiset(rest);
        if y != x {
          assert y in multiset(s[1..]);
          var k :| 0 <= k < |s[1..]| && s[1..][k] == y;
          assert s[k + 1] == y;
        }
      }
    }
  }

  /** Insert x before the first element it is larger than, so that it lands
      behind the elements it ties with. */
  function InsertDesc<T>(x: T, s: seq<T>, key: T -> real): (r: seq<T>)
    requires Descending(s, key)
    ensures multiset(r) == multiset(s) + multiset{x} && |r| == |s| + 1
    ensures Descending(r, key)
    decreases |s|
  {
    if |s| == 0 then [x]
    else if key(s[0]) < key(x) then
      [x] + s
    else
      var rest := InsertDesc(x, s[1..], key);
      InsertBehind(x, s, rest, key);
      assert s == [s[0]] + s[1..];
      [s[0]] + rest
  }

  /** `sorted((a, b) -> key(b).compareTo(key(a)))`: the elements, largest key
      first, ties in their original order. */
  function SortDesc<T>(s: seq<T>, key: T -> real): (r: seq<T>)
    ensures multiset(r) == multiset(s) && |r| == |s|
    ensures Descending(r, key)
    decreases |s|
  {
    if |s| == 0 then []
    else
      var n := |s| - 1;
      assert s == s[..n] + [s[n]];
      InsertDesc(s[n], SortDesc(s[..n], key), key)
  }

  // ---------------------------------------------------------------------------
  // The KPI tables
  // ---------------------------------------------------------------------------

  /** `FactKpiDaily` */
  datatype DailyKpi = DailyKpi(totalTtc: real, totalHt: real, transactions: int, averageTransactionValue: real)

  /** `FactKpiHourly` */
  datatype HourRow = HourRow(hour: int, transactions: int, quantity: int, revenue: real)

  /** `FactKpiProductDaily` */
  datatype ProductRow = ProductRow(name: string, quantity: int, revenue: real)

  /** `FactKpiCategoryDaily` */
  datatype CategoryRow = CategoryRow(category: string, transactions: int, quantity: int, revenue: real)

  /** `FactKpiServerDaily`, listed by revenue descending. */
  datatype ServerRow = ServerRow(server: string, transactions: int, revenue: real)

  datatype DayRows = DayRows(hourly: seq<HourRow>, products: seq<ProductRow>, categories: seq<CategoryRow>,
                             servers: seq<ServerRow>)

  /** (store id, epoch day) */
  type DayKey = (int, int)

  datatype KpiDb = KpiDb(
    stores: set<int>,
    dates: set<int>,
    daily: map<DayKey, DailyKpi>,
    /** `DailyRevenuePaymentBreakdown.tpe`, one row per store and day */
    cardPart: map<DayKey, real>,
    rows: map<DayKey, DayRows>)

  function RowsOf(db: KpiDb, k: DayKey): DayRows {
    if k in db.rows then db.rows[k] else DayRows([], [], [], [])
  }

  datatype KpiError =
    | StoreNotFound
    | DateNotFound
    | DailyKpiNotFound
    | TpeNegative
    | TpeAboveRevenue
    | DuplicateHour

  // ---------------------------------------------------------------------------
  // Card and cash parts
  // ---------------------------------------------------------------------------

  /** The card part and the cash part (espèce) of a day's takings: both
      absent without a breakdown row, else the cash part is what the card
      part leaves of the total, never below zero. */
  function PaymentSplit(totalTtc: real, cardPart: Option<real>): (r: (Option<real>, Option<real>))
    ensures r.0 == cardPart && (r.1.Some? <==> cardPart.Some?)
    ensures cardPart.Some? ==>
      && r.1.value >= 0.0 && r.1.value >= totalTtc - cardPart.value
      && (r.1.value == 0.0 || r.1.value == totalTtc - cardPart.value)
  {
    match cardPart
    case None => (None, None)
    case Some(tpe) =>
      var rest := totalTtc - tpe;
      (Some(tpe), Some(if 0.0 > rest then 0.0 else rest))
  }

  /** When the card part is within the total, card and cash add up to it. */
  lemma PaymentSplitAddsUp(totalTtc: real, tpe: real)
    requires 0.0 <= tpe <= totalTtc
    ensures var r := PaymentSplit(totalTtc, Some(tpe));
      r.0.value + r.1.value == totalTtc
  {
  }

  /** A card part within the total leaves exactly the rest as cash. */
  lemma PaymentSplitWithin(totalTtc: real, tpe: real)
    requires 0.0 <= tpe <= totalTtc
    ensures PaymentSplit(totalTtc, Some(tpe)) == (Some(tpe), Some(totalTtc - tpe))
  {
  }

  /** `updateRevenueBreakdown(storeId, date, tpe)`: the checks in the
      source's order, then the row for the store and day holds tpe (created
      if absent); nothing else changes, and a failure changes nothing. */
  function UpdateRevenueBreakdown(db: KpiDb, storeId: int, date: int, tpe: Option<real>): (r: Result<KpiDb, KpiError>)
    ensures (tpe.None? || tpe.value < 0.0) ==> r == Failure(TpeNegative)
    ensures r.Success? <==>
      && tpe.Some? && tpe.value >= 0.0
      && storeId in db.stores && date in db.dates && (storeId, date) in db.daily
      && tpe.value <= db.daily[(storeId, date)].totalTtc
    ensures r.Success? ==>
      && r.value.cardPart == db.cardPart[(storeId, date) := tpe.value]
      && r.value.stores == db.stores && r.value.dates == db.dates
      && r.value.daily == db.daily && r.value.rows == db.rows
  {
    if tpe.None? || tpe.value < 0.0 then Failure(TpeNegative)
    else if storeId !in db.stores then Failure(StoreNotFound)
    else if date !in db.dates then Failure(DateNotFound)
    else if (storeId, date) !in db.daily then Failure(DailyKpiNotFound)
    else if tpe.value > db.daily[(storeId, date)].totalTtc then Failure(TpeAboveRevenue)
    else Success(db.(cardPart := db.cardPart[(storeId, date) := tpe.value]))
  }

  /** The error an update raises, in the source's order of checks. */
  lemma UpdateRevenueBreakdownErrors(db: KpiDb, storeId: int, date: int, tpe: real)
    requires tpe >= 0.0
    ensures var r := UpdateRevenueBreakdown(db, storeId, date, Some(tpe));
      && (storeId !in db.stores ==> r == Failure(StoreNotFound))
      && (storeId in db.stores && date !in db.dates ==> r == Failure(DateNotFound))
      && (storeId in db.stores && date in db.dates && (storeId, date) !in db.daily ==> r == Failure(DailyKpiNotFound))
      && ((storeId, date) in db.daily && tpe > db.daily[(storeId, date)].totalTtc && storeId in db.stores
          ==> date in db.dates ==> r == Failure(TpeAboveRevenue))
  {
  }

  // ---------------------------------------------------------------------------
  // Top products
  // ---------------------------------------------------------------------------

  /** `TopProductDTO`: the ranked figure is the quantity or the revenue. */
  datatype TopProduct = TopProduct(rank: int, name: string, quantity: Option<int>, revenue: Option<real>)

  const TopCount: nat := 10

  function Quantity(p: ProductRow): real {
    p.quantity as real
  }

  function RevenueOf(p: ProductRow): real {
    p.revenue
  }

  /** The first ten products by the key, ranked 1, 2, ... */
  function TopBy(products: seq<ProductRow>, key: ProductRow -> real, byQuantity: bool): (r: seq<TopProduct>)
    ensures |r| == if |products| < TopCount then |products| else TopCount
    ensures forall i :: 0 <= i < |r| ==>
      r[i].rank == i + 1 && r[i].name == SortDesc(products, key)[i].name
  {
    var sorted := SortDesc(products, key);
    var n := if |sorted| < TopCount then |sorted| else TopCount;
    seq(n, i requires 0 <= i < n =>
      var p := sorted[i];
      TopProduct(i + 1, p.name, if byQuantity then Some(p.quantity) else None, if byQuantity then None else Some(p.revenue)))
  }

  /** The ranking lists the products in order of the key, and no product
      left out of it has a larger key than one in it. */
  lemma TopByIsTop(products: seq<ProductRow>, key: ProductRow -> real, byQuantity: bool, i: int, j: int)
    requires 0 <= i < |TopBy(products, key, byQuantity)| <= j < |products|
    ensures key(SortDesc(products, key)[j]) <= key(SortDesc(products, key)[i])
    ensures 0 < i ==> key(SortDesc(products, key)[i]) <= key(SortDesc(products, key)[i - 1])
  {
  }

  /** Every ranked product is one of the day's products. */
  lemma TopByFromProducts(products: seq<ProductRow>, key: ProductRow -> real, byQuantity: bool, i: int)
    requires 0 <= i < |TopBy(products, key, byQuantity)|
    ensures exists p :: p in products && p.name == TopBy(products, key, byQuantity)[i].name
  {
    var sorted := SortDesc(products, key);
    assert sorted[i] in multiset(sorted);
  }

  // ---------------------------------------------------------------------------
  // Shares
  // ---------------------------------------------------------------------------

  /** A part as a percentage of the total, 0 when the total is not
      positive. */
  function Share(part: real, total: real): (r: real)
    ensures total <= 0.0 ==> r == 0.0
    ensures total > 0.0 ==> r * total == part * 100.0
  {
    if total > 0.0 then (part / total) * 100.0 else 0.0
  }

  /** `CategoryAnalysisDTO` */
  datatype CategoryShare = CategoryShare(category: string, revenue: real, quantity: int, transactions: int,
                                         percentageOfRevenue: real)

  function CategoryRevenue(c: CategoryShare): real {
    c.revenue
  }

  /** A category row with its share of the day's revenue. */
  function ShareOf(totalRevenue: real): CategoryRow -> CategoryShare {
    (c: CategoryRow) => CategoryShare(c.category, c.revenue, c.quantity, c.transactions, Share(c.revenue, totalRevenue))
  }

  /** The category analysis: the day's category rows, each with its share of
      the day's revenue, reordered largest revenue first. */
  function CategoryAnalysis(categories: seq<CategoryRow>, totalRevenue: real): (r: seq<CategoryShare>)
    ensures |r| == |categories| && Descending(r, CategoryRevenue)
    ensures multiset(r) == multiset(Map(categories, ShareOf(totalRevenue)))
    ensures forall c :: c in r ==> c.percentageOfRevenue == Share(c.revenue, totalRevenue)
  {
    var shares := Map(categories, ShareOf(totalRevenue));
    var r := SortDesc(shares, CategoryRevenue);
    forall c | c in r ensures c.percentageOfRevenue == Share(c.revenue, totalRevenue) {
      assert c in multiset(shares);
    }
    r
  }

  /** Every category row appears in the analysis with its figures, and every
      entry of the analysis comes from a row. */
  lemma CategoryAnalysisRows(categories: seq<CategoryRow>, totalRevenue: real)
    ensures forall c :: c in categories ==>
      CategoryShare(c.category, c.revenue, c.quantity, c.transactions, Share(c.revenue, totalRevenue))
        in CategoryAnalysis(categories, totalRevenue)
    ensures forall s :: s in CategoryAnalysis(categories, totalRevenue) ==>
      CategoryRow(s.category, s.transactions, s.quantity, s.revenue) in categories
  {
    var shares := Map(categories, ShareOf(totalRevenue));
    var r := CategoryAnalysis(categories, totalRevenue);
    forall c | c in categories
      ensures CategoryShare(c.category, c.revenue, c.quantity, c.transactions, Share(c.revenue, totalRevenue)) in r
    {
      var i :| 0 <= i < |categories| && categories[i] == c;
      assert shares[i] in multiset(r);
    }
    forall s | s in r ensures CategoryRow(s.category, s.transactions, s.quantity, s.revenue) in categories {
      assert s in multiset(shares);
      var i :| 0 <= i < |shares| && shares[i] == s;
      assert categories[i] == CategoryRow(s.category, s.transactions, s.quantity, s.revenue);
    }
  }

  /** `StaffPerformanceDTO` */
  datatype StaffPerformance = StaffPerformance(name: string, revenue: real, transactions: int, avgValue: real, share: real)

  /** A server's figures: average ticket (0 without transactions) and share
      of the day's revenue, in the listing's order. */
  function Staff(servers: seq<ServerRow>, totalRevenue: real): (r: seq<StaffPerformance>)
    ensures |r| == |servers|
    ensures forall i :: 0 <= i < |r| ==>
      && r[i].name == servers[i].server && r[i].revenue == servers[i].revenue
      && r[i].share == Share(servers[i].revenue, totalRevenue)
      && (servers[i].transactions <= 0 ==> r[i].avgValue == 0.0)
      && (servers[i].transactions > 0 ==> r[i].avgValue * servers[i].transactions as real == servers[i].revenue)
  {
    seq(|servers|, i requires 0 <= i < |servers| =>
      var s := servers[i];
      StaffPerformance(s.server, s.revenue, s.transactions,
        if s.transactions > 0 then s.revenue / s.transactions as real else 0.0, Share(s.revenue, totalRevenue)))
  }

  // ---------------------------------------------------------------------------
  // Peak periods
  // ---------------------------------------------------------------------------

  datatype PeriodRange = PeriodRange(name: string, timeRange: string, startHour: int, endHour: int)

  /** The seven periods of the day, each the hours [startHour, endHour). */
  const Ranges: seq<PeriodRange> := [
    PeriodRange("Early Morning", "05:00-07:00", 5, 7),
    PeriodRange("Morning Rush", "07:00-10:00", 7, 10),
    PeriodRange("Mid-Morning", "10:00-12:00", 10, 12),
    PeriodRange("Lunch Period", "12:00-14:00", 12, 14),
    PeriodRange("Afternoon (2-4 PM)", "14:00-16:00", 14, 16),
    PeriodRange("Evening", "16:00-17:00", 16, 17),
    PeriodRange("Late Evening", "17:00-22:00", 17, 22)
  ]

  predicate InRange(h: int, k: int)
    requires 0 <= k < |Ranges|
  {
    Ranges[k].startHour <= h < Ranges[k].endHour
  }

  /** The periods follow one another without gap or overlap from 05:00 to
      22:00: an hour lies in a period exactly when it is in 5 .. 21, and then
      in only one. */
  lemma RangesPartitionHours(h: int)
    ensures (exists k :: 0 <= k < |Ranges| && InRange(h, k)) <==> 5 <= h < 22
    ensures forall k1, k2 :: 0 <= k1 < |Ranges| && 0 <= k2 < |Ranges| && InRange(h, k1) && InRange(h, k2) ==> k1 == k2
  {
    if 5 <= h < 22 {
      var k := if h < 7 then 0 else if h < 10 then 1 else if h < 12 then 2 else if h < 14 then 3
        else if h < 16 then 4 else if h < 17 then 5 else 6;
      assert InRange(h, k);
    }
  }

  lemma RangesContiguous()
    ensures Ranges[0].startHour == 5 && Ranges[|Ranges| - 1].endHour == 22
    ensures forall k :: 0 < k < |Ranges| ==> Ranges[k].startHour == Ranges[k - 1].endHour
  {
  }

  /** All rows have distinct hours: `Collectors.toMap` by hour does not
      throw. */
  predicate DistinctHours(rows: seq<HourRow>) {
    forall i, j :: 0 <= i < |rows| && 0 <= j < |rows| && rows[i].hour == rows[j].hour ==> i == j
  }

  /** `hourlyMap.get(hour)` */
  function HourLookup(rows: seq<HourRow>, h: int): (r: Option<HourRow>)
    ensures r.Some? ==> r.value in rows && r.value.hour == h
    ensures r.None? ==> forall x :: x in rows ==> x.hour != h
  {
    if |rows| == 0 then None
    else if rows[0].hour == h then Some(rows[0])
    else HourLookup(rows[1..], h)
  }

  /** Totals of the hours [a, b): revenue, transactions and items sold. */
  datatype Totals = Totals(revenue: real, transactions: int, itemsSold: int)

  function Plus(x: Totals, y: Totals): Totals {
    Totals(x.revenue + y.revenue, x.transactions + y.transactions, x.itemsSold + y.itemsSold)
  }

  function HourTotals(rows: seq<HourRow>, h: int): Totals {
    match HourLookup(rows, h)
    case Some(x) => Totals(x.revenue, x.transactions, x.quantity)
    case None => Totals(0.0, 0, 0)
  }

  /** The loop over [a, b), hour by hour; hours without a row add nothing. */
  function RangeTotals(rows: seq<HourRow>, a: int, b: int): Totals
    decreases b - a
  {
    if b <= a then Totals(0.0, 0, 0)
    else Plus(RangeTotals(rows, a, b - 1), HourTotals(rows, b - 1))
  }

  /** Adjacent hour ranges add up. */
  lemma PlusAssoc(x: Totals, y: Totals, z: Totals)
    ensures Plus(Plus(x, y), z) == Plus(x, Plus(y, z))
  {
  }

  lemma {:induction false} RangeTotalsSplit(rows: seq<HourRow>, a: int, b: int, c: int)
    requires a <= b <= c
    ensures RangeTotals(rows, a, c) == Plus(RangeTotals(rows, a, b), RangeTotals(rows, b, c))
    decreases c - b
  {
    if b < c {
      RangeTotalsSplit(rows, a, b, c - 1);
      var left, mid, h := RangeTotals(rows, a, b), RangeTotals(rows, b, c - 1), HourTotals(rows, c - 1);
      PlusAssoc(left, mid, h);
    } else {
      var z := RangeTotals(rows, a, b);
      assert Plus(z, Totals(0.0, 0, 0)) == z;
    }
  }

  function PeriodTotals(rows: seq<HourRow>, k: int): Totals
    requires 0 <= k < |Ranges|
  {
    RangeTotals(rows, Ranges[k].startHour, Ranges[k].endHour)
  }

  /** Between them the seven periods count every hour from 05:00 to 22:00
      once. */
  lemma PeriodsCoverTheDay(rows: seq<HourRow>)
    ensures Plus(Plus(Plus(Plus(Plus(Plus(PeriodTotals(rows, 0), PeriodTotals(rows, 1)), PeriodTotals(rows, 2)),
      PeriodTotals(rows, 3)), PeriodTotals(rows, 4)), PeriodTotals(rows, 5)), PeriodTotals(rows, 6))
      == RangeTotals(rows, 5, 22)
  {
    RangeTotalsSplit(rows, 5, 7, 10);
    RangeTotalsSplit(rows, 5, 10, 12);
    RangeTotalsSplit(rows, 5, 12, 14);
    RangeTotalsSplit(rows, 5, 14, 16);
    RangeTotalsSplit(rows, 5, 16, 17);
    RangeTotalsSplit(rows, 5, 17, 22);
  }

  datatype PeriodStatus = Peak | Moderate | Low

  /** `determinePeriodStatus` */
  function StatusOf(share: real): (s: PeriodStatus)
    ensures s == Peak <==> share >= 20.0
    ensures s == Moderate <==> 10.0 <= share < 20.0
    ensures s == Low <==> share < 10.0
  {
    if share >= 20.0 then Peak else if share >= 10.0 then Moderate else Low
  }

  /** `PeakPeriodDTO` */
  datatype PeakPeriod = PeakPeriod(period: string, timeRange: string, revenue: real, transactions: int,
                                   itemsSold: int, share: real, status: PeriodStatus)

  function PeriodRevenue(p: PeakPeriod): real {
    p.revenue
  }

  function Candidate(rows: seq<HourRow>, totalRevenue: real, k: int): (p: PeakPeriod)
    requires 0 <= k < |Ranges|
    ensures p.period == Ranges[k].name && p.revenue == PeriodTotals(rows, k).revenue
    ensures p.share == Share(p.revenue, totalRevenue) && p.status == StatusOf(p.share)
  {
    var t := PeriodTotals(rows, k);
    var share := Share(t.revenue, totalRevenue);
    PeakPeriod(Ranges[k].name, Ranges[k].timeRange, t.revenue, t.transactions, t.itemsSold, share, StatusOf(share))
  }

  function Candidates(rows: seq<HourRow>, totalRevenue: real): (r: seq<PeakPeriod>)
    ensures |r| == |Ranges| && forall k :: 0 <= k < |Ranges| ==> r[k] == Candidate(rows, totalRevenue, k)
  {
    seq(|Ranges|, k requires 0 <= k < |Ranges| => Candidate(rows, totalRevenue, k))
  }

  function HasRevenue(p: PeakPeriod): bool {
    p.revenue > 0.0
  }

  /** `calculatePeakPeriods`: the periods that took money, largest revenue
      first; it fails when two hourly rows share an hour. */
  function PeakPeriods(rows: seq<HourRow>, totalRevenue: real): (r: Result<seq<PeakPeriod>, KpiError>)
    ensures r.Success? <==> DistinctHours(rows)
    ensures r.Success? ==>
      && multiset(r.value) == multiset(Ledger.Filter(Candidates(rows, totalRevenue), HasRevenue))
      && Descending(r.value, PeriodRevenue)
  {
    if !DistinctHours(rows) then Failure(DuplicateHour)
    else Success(SortDesc(Ledger.Filter(Candidates(rows, totalRevenue), HasRevenue), PeriodRevenue))
  }

  /** A period is reported exactly when its hours took money, with its share
      of the day and the status of that share. */
  lemma PeakPeriodsReported(rows: seq<HourRow>, totalRevenue: real, p: PeakPeriod)
    requires DistinctHours(rows)
    ensures p in PeakPeriods(rows, totalRevenue).value <==>
      exists k :: 0 <= k < |Ranges| && p == Candidate(rows, totalRevenue, k) && p.revenue > 0.0
  {
    var c := Candidates(rows, totalRevenue);
    var f := Ledger.Filter(c, HasRevenue);
    SortedMember(f, p, PeakPeriods(rows, totalRevenue).value);
    assert p in f <==> p in c && p.revenue > 0.0;
    CandidateMember(rows, totalRevenue, p);
  }

  lemma CandidateMember(rows: seq<HourRow>, totalRevenue: real, p: PeakPeriod)
    ensures p in Candidates(rows, totalRevenue) <==> exists k :: 0 <= k < |Ranges| && p == Candidate(rows, totalRevenue, k)
  {
    var c := Candidates(rows, totalRevenue);
    if p in c {
      var k :| 0 <= k < |c| && c[k] == p;
      assert p == Candidate(rows, totalRevenue, k);
    }
    if exists k :: 0 <= k < |Ranges| && p == Candidate(rows, totalRevenue, k) {
      var k :| 0 <= k < |Ranges| && p == Candidate(rows, totalRevenue, k);
      assert c[k] == p;
    }
  }

  /** Two sequences with the same multiset have the same members. */
  lemma SortedMember<T>(f: seq<T>, p: T, r: seq<T>)
    requires multiset(r) == multiset(f)
    ensures p in r <==> p in f
  {
    assert p in r <==> p in multiset(r);
    assert p in f <==> p in multiset(f);
  }

  // ---------------------------------------------------------------------------
  // Revenue comparison
  // ---------------------------------------------------------------------------

  /** The change from a previous revenue in percent, 0 when there is no
      positive previous revenue. */
  function Change(current: real, previous: Option<real>): (r: real)
    ensures previous.None? || previous.value <= 0.0 ==> r == 0.0
  {
    if previous.Some? && previous.value > 0.0 then ((current - previous.value) / previous.value) * 100.0 else 0.0
  }

  /** A change applied to the previous revenue gives back the current one, so
      its sign is that of the difference. */
  lemma ChangeInverse(current: real, previous: real)
    requires previous > 0.0
    ensures previous * (1.0 + Change(current, Some(previous)) / 100.0) == current
    ensures Change(current, Some(previous)) > 0.0 <==> current > previous
    ensures Change(current, Some(previous)) == 0.0 <==> current == previous
  {
    var q := (current - previous) / previous;
    assert q * previous == current - previous;
    if current > previous {
      assert q > 0.0;
    } else if current < previous {
      assert q < 0.0;
    }
  }

  /** The total of a store's day, when the date dimension and the daily row
      exist. */
  function DayRevenue(db: KpiDb, storeId: int, day: int): (r: Option<real>)
    ensures r.Some? <==> day in db.dates && (storeId, day) in db.daily
  {
    if day in db.dates && (storeId, day) in db.daily then Some(db.daily[(storeId, day)].totalTtc) else None
  }

  /** `calculateRevenueComparison`: the change against the day before and
      against the same day a week before; both 0 without the day's own
      figures. */
  function RevenueComparison(db: KpiDb, storeId: int, day: int): (r: (real, real))
    ensures DayRevenue(db, storeId, day).None? ==> r == (0.0, 0.0)
    ensures DayRevenue(db, storeId, day).Some? ==>
      var current := DayRevenue(db, storeId, day).value;
      r == (Change(current, DayRevenue(db, storeId, day - 1)), Change(current, DayRevenue(db, storeId, day - 7)))
  {
    if day !in db.dates then (0.0, 0.0)
    else if (storeId, day) !in db.daily then (0.0, 0.0)
    else
      var current := db.daily[(storeId, day)].totalTtc;
      (Change(current, DayRevenue(db, storeId, day - 1)), Change(current, DayRevenue(db, storeId, day - 7)))
  }

  // ---------------------------------------------------------------------------
  // getDailyReport
  // ---------------------------------------------------------------------------

  /** `RevenueDTO` */
  datatype Revenue = Revenue(totalTtc: real, totalHt: real, transactions: int, avgTransactionValue: real,
                             tpe: Option<real>, espece: Option<real>)

  /** `DailyReportDTO` without its formatted texts and insights other than
      the revenue comparison. */
  datatype DailyReport = DailyReport(
    revenue: Revenue,
    topProductsByQuantity: seq<TopProduct>,
    topProductsByRevenue: seq<TopProduct>,
    categoryAnalysis: seq<CategoryShare>,
    staffPerformance: seq<StaffPerformance>,
    peakPeriods: seq<PeakPeriod>,
    revenueComparison: (real, real))

  function CardPartOf(db: KpiDb, k: DayKey): Option<real> {
    if k in db.cardPart then Some(db.cardPart[k]) else None
  }

  /** The revenue part of the report: the day's figures with the card part
      and the cash part. */
  function RevenueCard(db: KpiDb, k: DayKey): (r: Revenue)
    requires k in db.daily
    ensures r.totalTtc == db.daily[k].totalTtc
    ensures (r.tpe, r.espece) == PaymentSplit(db.daily[k].totalTtc, CardPartOf(db, k))
  {
    var daily := db.daily[k];
    var split := PaymentSplit(daily.totalTtc, CardPartOf(db, k));
    Revenue(daily.totalTtc, daily.totalHt, daily.transactions, daily.averageTransactionValue, split.0, split.1)
  }

  /** `getDailyReport(storeId, date)` */
  function GetDailyReport(db: KpiDb, storeId: int, date: int): (r: Result<DailyReport, KpiError>)
    ensures storeId !in db.stores ==> r == Failure(StoreNotFound)
    ensures r.Success? <==>
      storeId in db.stores && date in db.dates && (storeId, date) in db.daily
      && DistinctHours(RowsOf(db, (storeId, date)).hourly)
    ensures r.Success? ==>
      var daily := db.daily[(storeId, date)];
      && r.value.revenue == RevenueCard(db, (storeId, date))
      && |r.value.topProductsByQuantity| <= TopCount && |r.value.topProductsByRevenue| <= TopCount
      && r.value.peakPeriods == PeakPeriods(RowsOf(db, (storeId, date)).hourly, daily.totalTtc).value
      && r.value.revenueComparison == RevenueComparison(db, storeId, date)
  {
    if storeId !in db.stores then Failure(StoreNotFound)
    else if date !in db.dates then Failure(DateNotFound)
    else if (storeId, date) !in db.daily then Failure(DailyKpiNotFound)
    else
      var daily := db.daily[(storeId, date)];
      var rows := RowsOf(db, (storeId, date));
      var revenue := RevenueCard(db, (storeId, date));
      var peaks :- PeakPeriods(rows.hourly, daily.totalTtc);
      Success(DailyReport(
        revenue,
        TopBy(rows.products, Quantity, true),
        TopBy(rows.products, RevenueOf, false),
        CategoryAnalysis(rows.categories, daily.totalTtc),
        Staff(rows.servers, daily.totalTtc),
        peaks,
        RevenueComparison(db, storeId, date)))
  }

  /** After a successful update the report shows the new card part, and the
      cash part is the rest of the day's total. */
  lemma UpdateThenReport(db: KpiDb, storeId: int, date: int, tpe: real, db': KpiDb)
    requires UpdateRevenueBreakdown(db, storeId, date, Some(tpe)) == Success(db')
    requires DistinctHours(RowsOf(db, (storeId, date)).hourly)
    ensures (storeId, date) in db'.daily && db'.daily == db.daily
    ensures GetDailyReport(db', storeId, date).Success?
    ensures RevenueCard(db', (storeId, date)).tpe == Some(tpe)
    ensures RevenueCard(db', (storeId, date)).espece == Some(db.daily[(storeId, date)].totalTtc - tpe)
  {
    var key := (storeId, date);
    assert RowsOf(db', key) == RowsOf(db, key);
    UpdatedCard(db, storeId, date, tpe, db');
  }

  lemma UpdatedCard(db: KpiDb, storeId: int, date: int, tpe: real, db': KpiDb)
    requires UpdateRevenueBreakdown(db, storeId, date, Some(tpe)) == Success(db')
    ensures (storeId, date) in db'.daily && db'.daily == db.daily
    ensures RevenueCard(db', (storeId, date)).tpe == Some(tpe)
    ensures RevenueCard(db', (storeId, date)).espece == Some(db.daily[(storeId, date)].totalTtc - tpe)
  {
    var key := (storeId, date);
    assert CardPartOf(db', key) == Some(tpe);
    PaymentSplitWithin(db.daily[key].totalTtc, tpe);
  }
}
