/** `SalesProcessor`: linking the hourly coffee sales of a day to the alerts
    of that day.

    Sales are sorted newest first (a sale without a timestamp last); for each
    alert a binary search finds where the sales before it begin, and up to
    three consecutive sales from there are copied into records linked to the
    alert.  Timestamps (`LocalDateTime`) are nanoseconds since
    1970-01-01T00:00, so that their integer order is the order of
    `compareTo`/`isBefore`.  The JDBC fetch and the repository save become
    the inputs and the output. */
module Sales {
  import opened Wrappers
  import Ledger

  const NanosPerDay: int := 86_400_000_000_000

  /** `LocalTime` as its nano-of-day. */
  type TimeOfDay = t: int | 0 <= t < NanosPerDay

  /** `LocalDateTime.of(date, time)` for an epoch day and a time of day. */
  function Instant(day: int, time: TimeOfDay): int {
    day * NanosPerDay + time
  }

  /** Two date-times compare by date first and then by time of day, as
      `LocalDateTime.compareTo` does. */
  lemma InstantOrder(d1: int, t1: TimeOfDay, d2: int, t2: TimeOfDay)
    ensures Instant(d1, t1) < Instant(d2, t2) <==> d1 < d2 || (d1 == d2 && t1 < t2)
    ensures Instant(d1, t1) == Instant(d2, t2) <==> d1 == d2 && t1 == t2
  {
    if d1 < d2 {
      DayScale(d1 + 1, d2);
    } else if d2 < d1 {
      DayScale(d2 + 1, d1);
    }
  }

  lemma DayScale(a: int, b: int)
    requires a <= b
    ensures a * NanosPerDay <= b * NanosPerDay
  {
  }

  /** `CoffeeSalesHourlyDTO`: the columns the processor reads. */
  datatype Sale = Sale(
    id: int,
    saleDate: Option<int>,
    saleTime: Option<TimeOfDay>,
    coffeeName: string,
    quantity: Option<int>,
    price: Option<int>,
    totalPrice: Option<int>,
    category: string)

  /** `getSoldAt`: the sale's date and time, or null when either is
      missing. */
  function SoldAt(x: Sale): (r: Option<int>)
    ensures r.Some? <==> x.saleDate.Some? && x.saleTime.Some?
    ensures r.Some? ==> r.value - x.saleTime.value == x.saleDate.value * NanosPerDay
  {
    if x.saleDate.None? || x.saleTime.None? then None
    else Some(Instant(x.saleDate.value, x.saleTime.value))
  }

  datatype Alert = Alert(id: int, alertDate: int)

  /** `Sales`: a sale copied under an alert. */
  datatype SaleRecord = SaleRecord(
    alert: Alert,
    productName: string,
    quantity: Option<int>,
    price: Option<int>,
    totalPrice: Option<int>,
    soldAt: Option<int>,
    category: string)

  function RecordOf(a: Alert, x: Sale): SaleRecord {
    SaleRecord(a, x.coffeeName, x.quantity, x.price, x.totalPrice, SoldAt(x), x.category)
  }

  // ---------------------------------------------------------------------------
  // Sorting: newest first, no timestamp last
  // ---------------------------------------------------------------------------

  /** The comparator of `createSalesFromCoffeeSalesHourly`: negative when a
      sorts before b.  Only the sign of `compareTo` matters to the sort, so
      the result is -1, 0 or 1. */
  function Compare(a: Option<int>, b: Option<int>): (c: int)
    ensures -1 <= c <= 1
  {
    if a.None? && b.None? then 0
    else if a.None? then 1
    else if b.None? then -1
    else if b.value < a.value then -1
    else if b.value == a.value then 0
    else 1
  }

  /** The comparator is a total order on timestamps: it is antisymmetric,
      transitive, and ties only equal values. */
  lemma CompareOrder(a: Option<int>, b: Option<int>, c: Option<int>)
    ensures Compare(a, b) == -Compare(b, a)
    ensures Compare(a, b) == 0 <==> a == b
    ensures Compare(a, b) <= 0 && Compare(b, c) <= 0 ==> Compare(a, c) <= 0
  {
  }

  /** a may come before b in the sorted list. */
  predicate NoLater(a: Sale, b: Sale) {
    Compare(SoldAt(a), SoldAt(b)) <= 0
  }

  predicate Sorted(s: seq<Sale>) {
    forall i, j {:trigger NoLater(s[i], s[j])} :: 0 <= i < j < |s| ==> NoLater(s[i], s[j])
  }

  /** In a sorted list the timestamps never increase, and every sale after
      one without a timestamp has none either. */
  lemma SortedMeaning(s: seq<Sale>, i: int, j: int)
    requires Sorted(s) && 0 <= i < j < |s|
    ensures SoldAt(s[i]).None? ==> SoldAt(s[j]).None?
    ensures SoldAt(s[j]).Some? ==> SoldAt(s[i]).Some? && SoldAt(s[j]).value <= SoldAt(s[i]).value
  {
    assert NoLater(s[i], s[j]);
  }

  lemma InsertFront(x: Sale, s: seq<Sale>)
    requires Sorted(s) && |s| > 0 && NoLater(x, s[0])
    ensures Sorted([x] + s)
  {
    var t := [x] + s;
    forall i, j | 0 <= i < j < |t| ensures NoLater(t[i], t[j]) {
      if i == 0 && j > 1 {
        assert NoLater(s[0], s[j - 1]);
        CompareOrder(SoldAt(x), SoldAt(s[0]), SoldAt(s[j - 1]));
      }
    }
  }

  lemma InsertBehind(x: Sale, s: seq<Sale>, rest: seq<Sale>)
    requires Sorted(s) && |s| > 0 && !NoLater(x, s[0])
    requires Sorted(rest) && multiset(rest) == multiset(s[1..]) + multiset{x}
    ensures Sorted([s[0]] + rest)
  {
    var t := [s[0]] + rest;
    forall i, j | 0 <= i < j < |t| ensures NoLater(t[i], t[j]) {
      if i == 0 {
        var y := rest[j - 1];
        assert y in multiset(rest);
        if y == x {
          CompareOrder(SoldAt(x), SoldAt(s[0]), SoldAt(x));
        } else {
          assert y in multiset(s[1..]);
          var k :| 0 <= k < |s[1..]| && s[1..][k] == y;
          assert s[k + 1] == y;
        }
      }
    }
  }

  /** Insert a sale in front of the first sale it may precede; a sale goes
      in front of the sales it ties with, which keeps the sort stable. */
  function Insert(x: Sale, s: seq<Sale>): (r: seq<Sale>)
    requires Sorted(s)
    ensures multiset(r) == multiset(s) + multiset{x}
    ensures Sorted(r)
    decreases |s|
  {
    if |s| == 0 then [x]
    else if NoLater(x, s[0]) then
      InsertFront(x, s);
      [x] + s
    else
      var rest := Insert(x, s[1..]);
      InsertBehind(x, s, rest);
      assert s == [s[0]] + s[1..];
      [s[0]] + rest
  }

  /** `sortedSales.sort(...)`: a stable sort, newest first. */
  function SortSales(s: seq<Sale>): (r: seq<Sale>)
    ensures multiset(r) == multiset(s)
    ensures Sorted(r)
  {
    if |s| == 0 then []
    else
      assert s == [s[0]] + s[1..];
      Insert(s[0], SortSales(s[1..]))
  }

  // ---------------------------------------------------------------------------
  // Binary search for the first sale before an alert
  // ---------------------------------------------------------------------------

  /** The sale has a timestamp strictly before t. */
  predicate Before(x: Sale, t: int) {
    SoldAt(x).Some? && SoldAt(x).value < t
  }

  function BeforeAlert(t: int): Sale -> bool {
    (x: Sale) => Before(x, t)
  }

  /** The sale belongs at or after the insertion point for t: it is before t
      or has no timestamp.  On a sorted list this holds on a suffix. */
  predicate PastPoint(x: Sale, t: int) {
    SoldAt(x).None? || SoldAt(x).value < t
  }

  lemma PastPointSuffix(s: seq<Sale>, t: int, i: int, j: int)
    requires Sorted(s) && 0 <= i < j < |s| && PastPoint(s[i], t)
    ensures PastPoint(s[j], t)
  {
    SortedMeaning(s, i, j);
  }

  /** `findFirstSaleBeforeDate` exactly as written: the loop keeps `left`
      when the middle sale is before t and moves past it otherwise, a sale
      without a timestamp included. */
  function SearchAsWritten(s: seq<Sale>, t: int, left: nat, right: nat): (r: nat)
    requires left <= right <= |s|
    ensures left <= r <= right
    decreases right - left
  {
    if left < right then
      var mid := left + (right - left) / 2;
      if Before(s[mid], t) then SearchAsWritten(s, t, left, mid) else SearchAsWritten(s, t, mid + 1, right)
    else left
  }

  /** The insertion point for t: the number of leading sales that are not
      past the point (they all have a timestamp at or after t). */
  function InsertionPoint(s: seq<Sale>, t: int): (r: nat)
    ensures r <= |s|
    ensures forall i :: 0 <= i < r ==> !PastPoint(s[i], t)
    ensures r < |s| ==> PastPoint(s[r], t)
  {
    if |s| == 0 then 0
    else if PastPoint(s[0], t) then 0
    else 1 + InsertionPoint(s[1..], t)
  }

  /** On a sorted list every sale from the insertion point on is past it. */
  lemma InsertionPointSplits(s: seq<Sale>, t: int)
    requires Sorted(s)
    ensures forall i :: InsertionPoint(s, t) <= i < |s| ==> PastPoint(s[i], t)
  {
    var p := InsertionPoint(s, t);
    forall i | p < i < |s| ensures PastPoint(s[i], t) {
      PastPointSuffix(s, t, p, i);
    }
  }

  /** The binary search with sales without a timestamp counted as past the
      insertion point, which keeps the probed predicate monotone on a sorted
      list. */
  method FindFirstSaleBeforeDate(s: seq<Sale>, t: int) returns (r: nat)
    requires Sorted(s)
    ensures r == InsertionPoint(s, t)
  {
    InsertionPointSplits(s, t);
    var left, right := 0, |s|;
    while left < right
      invariant 0 <= left <= right <= |s|
      invariant forall i :: 0 <= i < left ==> !PastPoint(s[i], t)
      invariant forall i :: right <= i < |s| ==> PastPoint(s[i], t)
      decreases right - left
    {
      var mid := left + (right - left) / 2;
      if PastPoint(s[mid], t) {
        forall i | mid <= i < |s| ensures PastPoint(s[i], t) {
          if mid < i {
            PastPointSuffix(s, t, mid, i);
          }
        }
        right := mid;
      } else {
        left := mid + 1;
      }
    }
    InsertionPointUnique(s, t, left);
    r := left;
  }

  /** The insertion point is the only index with nothing past it before and
      the sale at it past it. */
  lemma {:induction false} InsertionPointUnique(s: seq<Sale>, t: int, k: int)
    requires 0 <= k <= |s|
    requires forall i :: 0 <= i < k ==> !PastPoint(s[i], t)
    requires forall i :: k <= i < |s| ==> PastPoint(s[i], t)
    ensures k == InsertionPoint(s, t)
  {
    if 0 < k {
      InsertionPointUnique(s[1..], t, k - 1);
    }
  }

  /** Without sales lacking a timestamp, the search as written finds the
      insertion point: the first sale before t, or the size. */
  lemma {:induction false} SearchAsWrittenWithoutNulls(s: seq<Sale>, t: int, left: nat, right: nat)
    requires Sorted(s) && left <= right <= |s|
    requires forall i :: 0 <= i < |s| ==> SoldAt(s[i]).Some?
    requires forall i :: 0 <= i < left ==> !PastPoint(s[i], t)
    requires forall i :: right <= i < |s| ==> PastPoint(s[i], t)
    ensures SearchAsWritten(s, t, left, right) == InsertionPoint(s, t)
    decreases right - left
  {
    if left < right {
      var mid := left + (right - left) / 2;
      if Before(s[mid], t) {
        forall i | mid < i < |s| ensures PastPoint(s[i], t) {
          PastPointSuffix(s, t, mid, i);
        }
        SearchAsWrittenWithoutNulls(s, t, left, mid);
      } else {
        forall i | left <= i < mid ensures !PastPoint(s[i], t) {
          if PastPoint(s[i], t) {
            PastPointSuffix(s, t, i, mid);
          }
        }
        SearchAsWrittenWithoutNulls(s, t, mid + 1, right);
      }
    } else {
      InsertionPointUnique(s, t, left);
    }
  }

  /** A sale without a timestamp hides an earlier sale from the search as
      written: of a sale just before t followed by two without timestamps,
      the loop probes only the latter and answers "none". */
  lemma SearchAsWrittenMissesSale()
    ensures var x := Sale(1, Some(0), Some(0), "espresso", None, None, None, "coffee");
      var y := Sale(2, None, None, "latte", None, None, None, "coffee");
      var s := [x, y, y];
      && Sorted(s) && Before(x, 1)
      && SearchAsWritten(s, 1, 0, 3) == 3
      && InsertionPoint(s, 1) == 0
  {
    var x := Sale(1, Some(0), Some(0), "espresso", None, None, None, "coffee");
    var y := Sale(2, None, None, "latte", None, None, None, "coffee");
    var s := [x, y, y];
    assert SoldAt(x) == Some(0) && SoldAt(y) == None;
    assert SearchAsWritten(s, 1, 0, 3) == SearchAsWritten(s, 1, 2, 3) == SearchAsWritten(s, 1, 3, 3);
  }

  // ---------------------------------------------------------------------------
  // Collecting up to three sales per alert
  // ---------------------------------------------------------------------------

  const SalesBeforeAlertCount: nat := 3

  /** The collecting loop from index i with `count` sales taken: it takes
      consecutive sales while they are before t, up to three in all. */
  function CollectFrom(s: seq<Sale>, t: int, i: nat, count: nat): (r: seq<Sale>)
    requires i <= |s|
    ensures count + |r| <= SalesBeforeAlertCount || |r| == 0
    ensures i + |r| <= |s| && r == s[i..i + |r|]
    ensures forall x :: x in r ==> Before(x, t)
    ensures i + |r| < |s| && count + |r| < SalesBeforeAlertCount ==> !Before(s[i + |r|], t)
    decreases |s| - i
  {
    if i < |s| && count < SalesBeforeAlertCount then
      if Before(s[i], t) then [s[i]] + CollectFrom(s, t, i + 1, count + 1) else []
    else []
  }

  /** The first n elements, or all of them when there are fewer. */
  function Take<T>(s: seq<T>, n: nat): (r: seq<T>)
    ensures |r| <= n && |r| <= |s| && r == s[..|r|]
    ensures |r| == n || r == s
  {
    if |s| <= n then s else s[..n]
  }

  lemma {:induction false} FilterNone(s: seq<Sale>, p: Sale -> bool)
    requires forall x :: x in s ==> !p(x)
    ensures Ledger.Filter(s, p) == []
  {
    if |s| > 0 {
      FilterNone(s[1..], p);
    }
  }

  lemma {:induction false} FilterConcat(a: seq<Sale>, b: seq<Sale>, p: Sale -> bool)
    ensures Ledger.Filter(a + b, p) == Ledger.Filter(a, p) + Ledger.Filter(b, p)
  {
    if |a| > 0 {
      assert (a + b)[0] == a[0] && (a + b)[1..] == a[1..] + b;
      FilterConcat(a[1..], b, p);
    } else {
      assert a + b == b;
    }
  }

  lemma TakeCons<T>(x: T, s: seq<T>, n: nat)
    requires n > 0
    ensures Take([x] + s, n) == [x] + Take(s, n - 1)
  {
    if |s| > n - 1 {
      assert ([x] + s)[..n] == [x] + s[..n - 1];
    }
  }

  /** From any index at or after the insertion point, the loop takes the
      first sales before t that remain, as many as there is room for. */
  lemma {:induction false} CollectTakesFiltered(s: seq<Sale>, t: int, i: nat, count: nat)
    requires Sorted(s) && i <= |s| && PastFrom(s, t, i) && count <= SalesBeforeAlertCount
    ensures CollectFrom(s, t, i, count) == Take(Ledger.Filter(s[i..], BeforeAlert(t)), SalesBeforeAlertCount - count)
    decreases |s| - i
  {
    if i < |s| && count < SalesBeforeAlertCount && Before(s[i], t) {
      CollectTakesFiltered(s, t, i + 1, count + 1);
      CollectTakesNext(s, t, i, count);
    } else {
      CollectStops(s, t, i, count);
    }
  }

  /** A sale before t is taken, and the loop goes on with the next one. */
  lemma CollectTakesNext(s: seq<Sale>, t: int, i: nat, count: nat)
    requires i < |s| && count < SalesBeforeAlertCount && Before(s[i], t)
    requires CollectFrom(s, t, i + 1, count + 1)
      == Take(Ledger.Filter(s[i + 1..], BeforeAlert(t)), SalesBeforeAlertCount - (count + 1))
    ensures CollectFrom(s, t, i, count) == Take(Ledger.Filter(s[i..], BeforeAlert(t)), SalesBeforeAlertCount - count)
  {
    FilterFrom(s, t, i);
    TakeCons(s[i], Ledger.Filter(s[i + 1..], BeforeAlert(t)), SalesBeforeAlertCount - count);
    assert CollectFrom(s, t, i, count) == [s[i]] + CollectFrom(s, t, i + 1, count + 1);
  }

  /** The loop stops at the end of the list, when it has taken enough, or
      at a sale not before t, after which no sale is. */
  lemma CollectStops(s: seq<Sale>, t: int, i: nat, count: nat)
    requires Sorted(s) && i <= |s| && PastFrom(s, t, i) && count <= SalesBeforeAlertCount
    requires !(i < |s| && count < SalesBeforeAlertCount && Before(s[i], t))
    ensures CollectFrom(s, t, i, count) == Take(Ledger.Filter(s[i..], BeforeAlert(t)), SalesBeforeAlertCount - count)
  {
    if i == |s| {
      assert s[i..] == [];
    } else if count < SalesBeforeAlertCount {
      NoneBeforeAfter(s, t, i);
      FilterNone(s[i..], BeforeAlert(t));
    }
    assert CollectFrom(s, t, i, count) == [];
  }

  lemma FilterFrom(s: seq<Sale>, t: int, i: nat)
    requires i < |s| && Before(s[i], t)
    ensures Ledger.Filter(s[i..], BeforeAlert(t)) == [s[i]] + Ledger.Filter(s[i + 1..], BeforeAlert(t))
  {
    assert s[i..][0] == s[i] && s[i..][1..] == s[i + 1..];
  }

  /** Every sale from index i on is past the insertion point for t. */
  predicate PastFrom(s: seq<Sale>, t: int, i: int) {
    forall k :: 0 <= i <= k < |s| ==> PastPoint(s[k], t)
  }

  /** Past the insertion point, once a sale is not before t no later sale
      is. */
  lemma NoneBeforeAfter(s: seq<Sale>, t: int, i: nat)
    requires Sorted(s) && i < |s| && PastFrom(s, t, i) && !Before(s[i], t)
    ensures forall x :: x in s[i..] ==> !Before(x, t)
  {
    forall x | x in s[i..] ensures !Before(x, t) {
      var j :| 0 <= j < |s[i..]| && s[i..][j] == x;
      if j > 0 {
        SortedMeaning(s, i, i + j);
      }
    }
  }

  /** From the insertion point of a sorted list the loop collects the
      (up to) three most recent sales before t: the first three sales
      before t in newest-first order. */
  lemma MostRecentBefore(s: seq<Sale>, t: int)
    requires Sorted(s)
    ensures CollectFrom(s, t, InsertionPoint(s, t), 0) == Take(Ledger.Filter(s, BeforeAlert(t)), SalesBeforeAlertCount)
  {
    InsertionPointSplits(s, t);
    CollectTakesFiltered(s, t, InsertionPoint(s, t), 0);
    FilterFromPoint(s, t);
  }

  /** The sales before t all lie from the insertion point on. */
  lemma FilterFromPoint(s: seq<Sale>, t: int)
    ensures Ledger.Filter(s, BeforeAlert(t)) == Ledger.Filter(s[InsertionPoint(s, t)..], BeforeAlert(t))
  {
    var p := InsertionPoint(s, t);
    PrefixNotBefore(s, t);
    FilterConcat(s[..p], s[p..], BeforeAlert(t));
    assert s == s[..p] + s[p..];
  }

  /** No sale ahead of the insertion point is before t. */
  lemma PrefixNotBefore(s: seq<Sale>, t: int)
    ensures Ledger.Filter(s[..InsertionPoint(s, t)], BeforeAlert(t)) == []
  {
    var p := InsertionPoint(s, t);
    forall x | x in s[..p] ensures !BeforeAlert(t)(x) {
      var j :| 0 <= j < p && s[..p][j] == x;
      assert !PastPoint(s[j], t);
    }
    FilterNone(s[..p], BeforeAlert(t));
  }

  /** The search as written links nothing to an alert that the corrected
      search links a sale to. */
  lemma CollectAsWrittenMissesSale()
    ensures var x := Sale(1, Some(0), Some(0), "espresso", None, None, None, "coffee");
      var y := Sale(2, None, None, "latte", None, None, None, "coffee");
      var s := [x, y, y];
      && CollectFrom(s, 1, SearchAsWritten(s, 1, 0, 3), 0) == []
      && CollectFrom(s, 1, InsertionPoint(s, 1), 0) == [x]
  {
    var x := Sale(1, Some(0), Some(0), "espresso", None, None, None, "coffee");
    var y := Sale(2, None, None, "latte", None, None, None, "coffee");
    SearchAsWrittenMissesSale();
    assert SoldAt(x) == Some(0) && SoldAt(y) == None;
  }

  // ---------------------------------------------------------------------------
  // createSalesFromCoffeeSalesHourly and processSalesForStore
  // ---------------------------------------------------------------------------

  /** Where the collecting loop of an alert starts: `findFirstSaleBeforeDate`
      as written, or the corrected search. */
  function StartIndex(sorted: seq<Sale>, t: int, asWritten: bool): (r: nat)
    ensures r <= |sorted|
  {
    if asWritten then SearchAsWritten(sorted, t, 0, |sorted|) else InsertionPoint(sorted, t)
  }

  function RecordFor(a: Alert): Sale -> SaleRecord {
    (x: Sale) => RecordOf(a, x)
  }

  /** The records of one alert, in newest-first order, collected from the
      start index of the search as written or of the corrected one. */
  function AlertRecords(sorted: seq<Sale>, a: Alert, asWritten: bool): (r: seq<SaleRecord>)
    ensures |r| <= SalesBeforeAlertCount
    ensures forall k :: 0 <= k < |r| ==> r[k].alert == a
  {
    Map(CollectFrom(sorted, a.alertDate, StartIndex(sorted, a.alertDate, asWritten), 0), RecordFor(a))
  }

  /** The records an alert is meant to get: copies of its (up to) three most
      recent earlier sales, newest first. */
  function MostRecentRecords(sorted: seq<Sale>, a: Alert): seq<SaleRecord> {
    Map(Take(Ledger.Filter(sorted, BeforeAlert(a.alertDate)), SalesBeforeAlertCount), RecordFor(a))
  }

  /** With the corrected search the records of one alert are copies of its
      (up to) three most recent earlier sales. */
  lemma AlertRecordsSpec(sorted: seq<Sale>, a: Alert)
    requires Sorted(sorted)
    ensures AlertRecords(sorted, a, false) == MostRecentRecords(sorted, a)
  {
    MostRecentBefore(sorted, a.alertDate);
  }

  /** Every sale has a timestamp. */
  predicate AllTimed(s: seq<Sale>) {
    forall x :: x in s ==> SoldAt(x).Some?
  }

  /** When every sale has a timestamp the search as written finds the
      insertion point, so the code links each alert to its (up to) three
      most recent earlier sales. */
  lemma AlertRecordsAsWritten(sorted: seq<Sale>, a: Alert)
    requires Sorted(sorted) && AllTimed(sorted)
    ensures AlertRecords(sorted, a, true) == AlertRecords(sorted, a, false) == MostRecentRecords(sorted, a)
  {
    assert forall i :: 0 <= i < |sorted| ==> sorted[i] in sorted;
    SearchAsWrittenWithoutNulls(sorted, a.alertDate, 0, |sorted|);
    AlertRecordsSpec(sorted, a);
  }

  /** The records of the alerts in order, each alert's group in turn. */
  function LinkAlerts(sorted: seq<Sale>, alerts: seq<Alert>, asWritten: bool): (r: seq<SaleRecord>)
    ensures |r| <= SalesBeforeAlertCount * |alerts|
    ensures forall k :: 0 <= k < |r| ==> r[k].alert in alerts
    decreases |alerts|
  {
    if |alerts| == 0 then []
    else AlertRecords(sorted, alerts[0], asWritten) + LinkAlerts(sorted, alerts[1..], asWritten)
  }

  /** Linking a list of alerts is linking its parts one after the other. */
  lemma {:induction false} LinkAlertsSplit(sorted: seq<Sale>, a: seq<Alert>, b: seq<Alert>, asWritten: bool)
    ensures LinkAlerts(sorted, a + b, asWritten) == LinkAlerts(sorted, a, asWritten) + LinkAlerts(sorted, b, asWritten)
  {
    if |a| > 0 {
      assert (a + b)[0] == a[0] && (a + b)[1..] == a[1..] + b;
      LinkAlertsSplit(sorted, a[1..], b, asWritten);
    } else {
      assert a + b == b;
    }
  }

  /** The records the alerts are meant to get, alert by alert. */
  function MostRecentForAll(sorted: seq<Sale>, alerts: seq<Alert>): seq<SaleRecord>
    decreases |alerts|
  {
    if |alerts| == 0 then [] else MostRecentRecords(sorted, alerts[0]) + MostRecentForAll(sorted, alerts[1..])
  }

  /** With the corrected search every alert gets its most recent earlier
      sales. */
  lemma {:induction false} LinkAlertsCorrected(sorted: seq<Sale>, alerts: seq<Alert>)
    requires Sorted(sorted)
    ensures LinkAlerts(sorted, alerts, false) == MostRecentForAll(sorted, alerts)
    decreases |alerts|
  {
    if |alerts| > 0 {
      AlertRecordsSpec(sorted, alerts[0]);
      LinkAlertsCorrected(sorted, alerts[1..]);
    }
  }

  /** When every sale has a timestamp the code links as the corrected search
      does. */
  lemma {:induction false} LinkAlertsAsWritten(sorted: seq<Sale>, alerts: seq<Alert>)
    requires Sorted(sorted) && AllTimed(sorted)
    ensures LinkAlerts(sorted, alerts, true) == LinkAlerts(sorted, alerts, false)
    decreases |alerts|
  {
    if |alerts| > 0 {
      AlertRecordsAsWritten(sorted, alerts[0]);
      LinkAlertsAsWritten(sorted, alerts[1..]);
    }
  }

  function CreateSalesWith(sales: seq<Sale>, alerts: seq<Alert>, asWritten: bool): (r: seq<SaleRecord>)
    ensures |sales| == 0 || |alerts| == 0 ==> r == []
    ensures |r| <= SalesBeforeAlertCount * |alerts|
  {
    if |sales| == 0 || |alerts| == 0 then []
    else LinkAlerts(SortSales(sales), alerts, asWritten)
  }

  /** `createSalesFromCoffeeSalesHourly` as written, with
      `findFirstSaleBeforeDate` as written. */
  function CreateSales(sales: seq<Sale>, alerts: seq<Alert>): (r: seq<SaleRecord>)
    ensures |sales| == 0 || |alerts| == 0 ==> r == []
    ensures |r| <= SalesBeforeAlertCount * |alerts|
    ensures forall k :: 0 <= k < |r| ==> r[k].alert in alerts
  {
    CreateSalesWith(sales, alerts, true)
  }

  /** `createSalesFromCoffeeSalesHourly` with the corrected search. */
  function CreateSalesCorrected(sales: seq<Sale>, alerts: seq<Alert>): (r: seq<SaleRecord>)
    ensures |sales| == 0 || |alerts| == 0 ==> r == []
    ensures |r| <= SalesBeforeAlertCount * |alerts|
    ensures forall k :: 0 <= k < |r| ==> r[k].alert in alerts
  {
    CreateSalesWith(sales, alerts, false)
  }

  /** Every record copies a sale made before its alert, whichever search
      found the start index. */
  lemma {:induction false} LinkedSalesPrecedeAlert(sorted: seq<Sale>, alerts: seq<Alert>, asWritten: bool)
    ensures forall rec :: rec in LinkAlerts(sorted, alerts, asWritten) ==>
      exists x :: x in sorted && Before(x, rec.alert.alertDate) && rec == RecordOf(rec.alert, x)
    decreases |alerts|
  {
    if |alerts| > 0 {
      var a := alerts[0];
      var taken := CollectFrom(sorted, a.alertDate, StartIndex(sorted, a.alertDate, asWritten), 0);
      var group := AlertRecords(sorted, a, asWritten);
      forall rec | rec in group
        ensures exists x :: x in sorted && Before(x, rec.alert.alertDate) && rec == RecordOf(rec.alert, x)
      {
        var k :| 0 <= k < |group| && group[k] == rec;
        assert group[k] == RecordOf(a, taken[k]);
        assert taken[k] in taken;
        assert taken[k] in sorted;
      }
      LinkedSalesPrecedeAlert(sorted, alerts[1..], asWritten);
    }
  }

  /** The records of `createSalesFromCoffeeSalesHourly`, as written or
      corrected, are copies of sales made before their alert. */
  lemma CreateSalesSpec(sales: seq<Sale>, alerts: seq<Alert>, asWritten: bool)
    ensures forall rec :: rec in CreateSalesWith(sales, alerts, asWritten) ==>
      rec.alert in alerts
      && exists x :: x in sales && Before(x, rec.alert.alertDate) && rec == RecordOf(rec.alert, x)
  {
    if |sales| > 0 && |alerts| > 0 {
      var sorted := SortSales(sales);
      LinkedSalesPrecedeAlert(sorted, alerts, asWritten);
      forall x | x in sorted ensures x in sales {
        assert x in multiset(sorted);
      }
    }
  }

  /** With the corrected search each alert gets, in alert order, copies of
      its (up to) three most recent earlier sales. */
  lemma CreateSalesCorrectedSpec(sales: seq<Sale>, alerts: seq<Alert>)
    requires |sales| > 0
    ensures CreateSalesCorrected(sales, alerts) == MostRecentForAll(SortSales(sales), alerts)
  {
    LinkAlertsCorrected(SortSales(sales), alerts);
  }

  /** When every sale has a timestamp the code as written creates the same
      records as the corrected search. */
  lemma CreateSalesWithoutUntimed(sales: seq<Sale>, alerts: seq<Alert>)
    ensures AllTimed(sales) ==> CreateSales(sales, alerts) == CreateSalesCorrected(sales, alerts)
  {
    if AllTimed(sales) && |sales| > 0 && |alerts| > 0 {
      var sorted := SortSales(sales);
      forall x | x in sorted ensures SoldAt(x).Some? {
        assert x in multiset(sorted);
        assert x in sales;
      }
      LinkAlertsAsWritten(sorted, alerts);
    }
  }

  datatype SalesError = BlankStoreCode | MissingDate

  /** `String.trim().isEmpty()`: every character is at most U+0020. */
  predicate Blank(s: string) {
    forall i :: 0 <= i < |s| ==> s[i] <= ' '
  }

  /** `processSalesForStore` given the day's sales of the store and its
      alerts in chronological order: the number of records saved. */
  function ProcessSalesForStore(storeCode: Option<string>, date: Option<int>, sales: seq<Sale>, alerts: seq<Alert>)
    : (r: Result<nat, SalesError>)
    ensures (storeCode.None? || Blank(storeCode.value)) <==> r == Failure(BlankStoreCode)
    ensures storeCode.Some? && !Blank(storeCode.value) && date.None? ==> r == Failure(MissingDate)
    ensures r.Success? <==> storeCode.Some? && !Blank(storeCode.value) && date.Some?
    ensures r.Success? ==> r.value == |CreateSales(sales, alerts)| <= SalesBeforeAlertCount * |alerts|
    ensures r.Success? && AllTimed(sales) ==> r.value == |CreateSalesCorrected(sales, alerts)|
    ensures r.Success? && (|sales| == 0 || |alerts| == 0) ==> r.value == 0
  {
    if storeCode.None? || Blank(storeCode.value) then Failure(BlankStoreCode)
    else if date.None? then Failure(MissingDate)
    else if |sales| == 0 then Success(0)
    else if |alerts| == 0 then Success(0)
    else
      var records := CreateSales(sales, alerts);
      CreateSalesWithoutUntimed(sales, alerts);
      if |records| == 0 then Success(0) else Success(|records|)
  }

  /** An untimed sale hides an earlier one from the code as written: with
      sales [x, y, y], x before the only alert and y without a timestamp,
      the code saves no record although the corrected search links x. */
  lemma ProcessSalesMissesSale(x: Sale, y: Sale, a: Alert)
    requires Before(x, a.alertDate) && SoldAt(y).None?
    ensures ProcessSalesForStore(Some("S1"), Some(0), [x, y, y], [a]) == Success(0)
  {
    var s := [x, y, y];
    SortedExample(x, y);
    ExampleStarts(x, y, a.alertDate);
    LinkOne(s, a, true);
    assert CreateSales(s, [a]) == [];
    assert "S1"[0] == 'S';
  }

  /** On the same sales the corrected search links x to the alert. */
  lemma CorrectedLinksSale(x: Sale, y: Sale, a: Alert)
    requires Before(x, a.alertDate) && SoldAt(y).None?
    ensures CreateSalesCorrected([x, y, y], [a]) == [RecordOf(a, x)]
  {
    var s := [x, y, y];
    SortedExample(x, y);
    ExampleStarts(x, y, a.alertDate);
    LinkOne(s, a, false);
  }

  /** On [x, y, y] the search as written ends past every sale, the corrected
      search at x, from where the loop takes x alone. */
  lemma ExampleStarts(x: Sale, y: Sale, t: int)
    requires Before(x, t) && SoldAt(y).None?
    ensures SearchAsWritten([x, y, y], t, 0, 3) == 3 && CollectFrom([x, y, y], t, 3, 0) == []
    ensures InsertionPoint([x, y, y], t) == 0 && CollectFrom([x, y, y], t, 0, 0) == [x]
  {
    var s := [x, y, y];
    assert SearchAsWritten(s, t, 0, 3) == SearchAsWritten(s, t, 2, 3) == 3;
    assert s[1] == y && !Before(y, t);
    assert CollectFrom(s, t, 1, 1) == [];
    assert CollectFrom(s, t, 0, 0) == [x] + CollectFrom(s, t, 1, 1);
  }

  lemma LinkOne(sorted: seq<Sale>, a: Alert, asWritten: bool)
    ensures LinkAlerts(sorted, [a], asWritten) == AlertRecords(sorted, a, asWritten)
  {
    assert [a][1..] == [];
  }

  /** A timed sale followed by two untimed ones is already in order. */
  lemma SortedExample(x: Sale, y: Sale)
    requires SoldAt(x).Some? && SoldAt(y).None?
    ensures SortSales([x, y, y]) == [x, y, y]
  {
    SortedUntimedPair(y);
    assert [x, y, y][1..] == [y, y];
    assert NoLater(x, y);
  }

  lemma SortedUntimedPair(y: Sale)
    requires SoldAt(y).None?
    ensures SortSales([y, y]) == [y, y]
  {
    assert [y][1..] == [] && SortSales([y]) == [y];
    assert [y, y][1..] == [y];
    assert NoLater(y, y);
  }
}
