/** `WeekCalculationUtils`: Monday-to-Sunday weeks, the weeks of a month and
    the equal split of a monthly salary over the weeks a month owns.

    A week belongs to the month of its Monday; a week overlaps a month when
    any of its seven days lies in it.  Days are epoch days (see `Calendar`),
    keys are strings (see `Keys`). */
module Weeks {
  import opened Wrappers
  import opened Calendar
  import opened Keys
  import opened Money

  /** `WeekCalculationUtils.WeekInfo` */
  datatype WeekInfo = WeekInfo(
    weekKey: string,
    startDate: int,
    endDate: int,
    belongsToMonth: bool,
    monthKey: string)

  /** `getSundayOfWeek` */
  function SundayOf(e: int): (s: int)
    ensures DayOfWeek(s) == 7 && s - 6 <= e <= s
  {
    MondayOf(e) + 6
  }

  lemma SundayAfterMonday(m: int)
    requires DayOfWeek(m) == 1
    ensures DayOfWeek(m + 6) == 7
  {
  }

  /** Two Mondays are a whole number of weeks apart. */
  lemma MondaysApart(a: int, b: int)
    requires DayOfWeek(a) == 1 && DayOfWeek(b) == 1
    ensures (a - b) % 7 == 0
  {
    assert a % 7 == 4 && b % 7 == 4;
    var k := a / 7 - b / 7;
    assert a - b == 7 * k;
  }

  lemma MondayPlusWeeks(m: int, i: int)
    requires DayOfWeek(m) == 1
    ensures DayOfWeek(m + 7 * i) == 1
  {
    assert m % 7 == 4;
    assert m + 7 * i == 7 * (m / 7 + i) + 4;
  }

  /** The month key of the calendar month `ym`, as the month parser accepts it. */
  predicate KeyMonth(ym: YearMonth) {
    ym.Valid() && InKeyRange(ym.year)
  }

  /** The n days m, m + 7, ..., one week apart. */
  function Weekly(m: int, n: nat): (ms: seq<int>)
    ensures |ms| == n && forall i :: 0 <= i < n ==> ms[i] == m + 7 * i
    decreases n
  {
    if n == 0 then [] else [m] + Weekly(m + 7, n - 1)
  }

  /** The Mondays of all weeks with a day in month ym, ascending. */
  function OverlapMondays(ym: YearMonth): (ms: seq<int>)
    requires ym.Valid()
    ensures |ms| >= 1
  {
    var m0 := MondayOf(MonthStart(ym));
    Weekly(m0, (MonthEnd(ym) - m0) / 7 + 1)
  }

  /** A week overlaps a month exactly when its Monday is not after the last
      day and its Sunday is not before the first day. */
  lemma OverlapMondaysSpec(ym: YearMonth, x: int)
    requires ym.Valid()
    ensures x in OverlapMondays(ym) <==>
      DayOfWeek(x) == 1 && x <= MonthEnd(ym) && x + 6 >= MonthStart(ym)
  {
    var ms := OverlapMondays(ym);
    var m0 := MondayOf(MonthStart(ym));
    if x in ms {
      var i :| 0 <= i < |ms| && ms[i] == x;
      MondayPlusWeeks(m0, i);
    }
    if DayOfWeek(x) == 1 && x <= MonthEnd(ym) && x + 6 >= MonthStart(ym) {
      MondayOffset(x, m0);
      var i := (x - m0) / 7;
      assert ms[i] == x;
    }
  }

  lemma MondayOffset(x: int, m0: int)
    requires DayOfWeek(x) == 1 && DayOfWeek(m0) == 1
    ensures x == m0 + 7 * ((x - m0) / 7)
  {
    MondaysApart(x, m0);
  }

  /** The days a key can name include every Monday whose week overlaps a
      month with a four-digit year. */
  lemma OverlapMondaysAreKeyDays(ym: YearMonth, x: int)
    requires KeyMonth(ym) && x in OverlapMondays(ym)
    ensures KeyDay(x)
  {
    OverlapMondaysSpec(ym, x);
    MonthWithinYear(ym);
    YearStartMonotone(ym.year, 10000);
    FirstKeyMonday(ym, x);
  }

  lemma MonthWithinYear(ym: YearMonth)
    requires ym.Valid()
    ensures YearStart(ym.year) <= MonthStart(ym) && MonthEnd(ym) < YearStart(ym.year + 1)
  {
    DateBounds(Date(ym.year, ym.month, 1));
    DateBounds(Date(ym.year, ym.month, DaysInMonth(ym.year, ym.month)));
  }

  /** No Monday before 0001-01-01 has its week in a month of a four-digit
      year: that day was itself a Monday. */
  lemma FirstKeyMonday(ym: YearMonth, x: int)
    requires KeyMonth(ym) && DayOfWeek(x) == 1 && x + 6 >= MonthStart(ym)
    ensures x >= YearStart(1)
  {
    if ym.year == 1 && ym.month == 1 {
      JanuaryStart(ym);
      FirstMonthMonday(x);
    } else if ym.year == 1 {
      DaysBeforeMonthMonotone(1, 1, ym.month);
    } else {
      LaterMonthStart(ym);
    }
  }

  lemma FirstMonthMonday(x: int)
    requires DayOfWeek(x) == 1 && x + 6 >= YearStart(1)
    ensures x >= YearStart(1)
  {
    YearOneMonday();
    MondayNotBefore(x, YearStart(1));
  }

  /** A Monday less than a week before another Monday is that Monday. */
  lemma MondayNotBefore(x: int, m: int)
    requires DayOfWeek(x) == 1 && DayOfWeek(m) == 1 && x + 6 >= m
    ensures x >= m
  {
    MondayOffset(x, m);
    var q := (x - m) / 7;
    assert x - m == 7 * q;
  }

  /** 0001-01-01 was a Monday. */
  lemma YearOneMonday()
    ensures DayOfWeek(YearStart(1)) == 1
  {
    assert YearStart(1) == -719162;
  }

  lemma JanuaryStart(ym: YearMonth)
    requires ym.Valid() && ym.month == 1
    ensures MonthStart(ym) == YearStart(ym.year)
  {
  }

  lemma LaterMonthStart(ym: YearMonth)
    requires ym.Valid() && ym.year > 1
    ensures MonthStart(ym) >= YearStart(1) + 365
  {
    YearStartMonotone(1, ym.year);
    YearStartStep(1);
    MonthWithinYear(ym);
  }

  /** `new WeekInfo(...)` for the week of Monday m as the loop builds it. */
  function Info(m: int, monthKey: string): (w: WeekInfo)
    requires KeyDay(m)
  {
    var weekMonthKey := MonthKeyOfDay(m);
    WeekInfo(DayKey(m), m, SundayOf(m), weekMonthKey == monthKey, weekMonthKey)
  }

  function OverlapWeeks(ym: YearMonth, monthKey: string): (ws: seq<WeekInfo>)
    requires KeyMonth(ym)
    ensures |ws| == |OverlapMondays(ym)|
  {
    var ms := OverlapMondays(ym);
    seq(|ms|, i requires 0 <= i < |ms| => OverlapMondaysAreKeyDays(ym, ms[i]); Info(ms[i], monthKey))
  }

  /** `getWeeksForMonth`: `None` when the month key does not parse. */
  function WeeksForMonth(monthKey: string): (r: Option<seq<WeekInfo>>)
    ensures r.Some? <==> ParseMonthKey(monthKey).Some?
  {
    var ym :- ParseMonthKey(monthKey);
    Some(OverlapWeeks(ym, monthKey))
  }

  /** The i-th overlapping Monday is i weeks after the Monday on or before
      the first, and there is one for every such Monday up to the last day. */
  lemma OverlapIndex(ym: YearMonth, i: int)
    requires ym.Valid()
    ensures 0 <= i < |OverlapMondays(ym)| <==> 0 <= i && MondayOf(MonthStart(ym)) + 7 * i <= MonthEnd(ym)
    ensures 0 <= i < |OverlapMondays(ym)| ==> OverlapMondays(ym)[i] == MondayOf(MonthStart(ym)) + 7 * i
  {
  }

  lemma WeekStartShift(m0: int, i: int)
    requires DayOfWeek(m0) == 1
    ensures MondayOf(m0 + 7 * i) == m0 + 7 * i
  {
    MondayPlusWeeks(m0, i);
    MondayOfUnique(m0 + 7 * i, m0 + 7 * i);
  }

  /** One step of the loop: appending the week of the next overlapping
      Monday extends the prefix of the overlapping weeks by one. */
  lemma CollectStep(ym: YearMonth, monthKey: string, i: int, c: int, weeks: seq<WeekInfo>)
    requires KeyMonth(ym) && 0 <= i < |OverlapMondays(ym)| && c == OverlapMondays(ym)[i]
    requires weeks == OverlapWeeks(ym, monthKey)[..i]
    ensures KeyDay(c)
    ensures weeks + [Info(c, monthKey)] == OverlapWeeks(ym, monthKey)[..i + 1]
  {
    OverlapWeekAt(ym, monthKey, i);
    PrefixStep(OverlapWeeks(ym, monthKey), i);
  }

  lemma PrefixStep<T>(s: seq<T>, i: int)
    requires 0 <= i <= |s|
    ensures i < |s| ==> s[..i + 1] == s[..i] + [s[i]]
    ensures i == |s| ==> s[..i] == s
  {
  }

  /** `getWeeksForMonth` as written: parse the month key, then run the loop. */
  method WeeksForMonthLoop(monthKey: string) returns (r: Option<seq<WeekInfo>>)
    ensures r == WeeksForMonth(monthKey)
  {
    var parsed := ParseMonthKey(monthKey);
    if parsed.None? {
      return None;
    }
    var weeks := CollectWeeks(parsed.value, monthKey);
    return Some(weeks);
  }

  /** What one pass of the loop below needs: the i-th candidate Monday is
      kept exactly when it is the i-th overlapping week, and is dropped only
      before the first overlapping week or after the last. */
  lemma CollectBody(ym: YearMonth, i: int)
    requires KeyMonth(ym)
    requires -1 <= i <= |OverlapMondays(ym)|
    requires i == -1 ==> MondayOf(MonthStart(ym)) < MonthStart(ym)
    ensures var c := MondayOf(MonthStart(ym)) + 7 * i;
            c + 6 >= MonthStart(ym) && c <= MonthEnd(ym) ==>
              0 <= i < |OverlapMondays(ym)| && c == OverlapMondays(ym)[i]
    ensures var c := MondayOf(MonthStart(ym)) + 7 * i;
            !(c + 6 >= MonthStart(ym) && c <= MonthEnd(ym)) ==>
              i == -1 || (i == |OverlapMondays(ym)| && c > MonthEnd(ym))
  {
    var m0 := MondayOf(MonthStart(ym));
    var c := m0 + 7 * i;
    OverlapIndex(ym, i);
    if c + 6 >= MonthStart(ym) && c <= MonthEnd(ym) {
      assert 0 <= i < |OverlapMondays(ym)|;
    }
  }

  lemma SundayOfWeekAfter(m0: int, i: int)
    requires DayOfWeek(m0) == 1
    ensures SundayOf(m0 + 7 * i) == m0 + 7 * i + 6
  {
    WeekStartShift(m0, i);
    SundayAfterMonday(m0 + 7 * i);
  }

  /** The loop state of `getWeeksForMonth` after the candidate weeks before
      index i (index -1 being the extra week before the first Monday): the
      weeks collected so far are the first overlapping weeks. */
  predicate CollectInv(ym: YearMonth, monthKey: string, i: int, weeks: seq<WeekInfo>)
    requires KeyMonth(ym)
  {
    && -1 <= i <= |OverlapMondays(ym)|
    && (i == -1 ==> MondayOf(MonthStart(ym)) < MonthStart(ym))
    && weeks == OverlapWeeks(ym, monthKey)[..if i < 0 then 0 else i]
  }

  /** One pass of the loop keeps the state, or ends it with all the weeks. */
  lemma CollectLoopStep(ym: YearMonth, monthKey: string, i: int, c: int, weeks: seq<WeekInfo>)
    requires KeyMonth(ym) && CollectInv(ym, monthKey, i, weeks)
    requires c == MondayOf(MonthStart(ym)) + 7 * i
    ensures !(SundayOf(c) < MonthStart(ym)) && !(c > MonthEnd(ym)) ==> KeyDay(c)
    ensures var next := if !(SundayOf(c) < MonthStart(ym)) && !(c > MonthEnd(ym))
                        then weeks + [Info(c, monthKey)] else weeks;
            if c + 7 > MonthEnd(ym) + 7 then next == OverlapWeeks(ym, monthKey)
            else CollectInv(ym, monthKey, i + 1, next)
  {
    CollectBody(ym, i);
    SundayOfWeekAfter(MondayOf(MonthStart(ym)), i);
    if !(SundayOf(c) < MonthStart(ym)) && !(c > MonthEnd(ym)) {
      CollectKeeps(ym, monthKey, i, c, weeks);
    } else {
      CollectDrops(ym, monthKey, i, c, weeks);
    }
  }

  /** A pass over an overlapping week adds it and goes on. */
  lemma CollectKeeps(ym: YearMonth, monthKey: string, i: int, c: int, weeks: seq<WeekInfo>)
    requires KeyMonth(ym) && CollectInv(ym, monthKey, i, weeks)
    requires 0 <= i < |OverlapMondays(ym)| && c == OverlapMondays(ym)[i]
    ensures KeyDay(c) && CollectInv(ym, monthKey, i + 1, weeks + [Info(c, monthKey)])
  {
    CollectStep(ym, monthKey, i, c, weeks);
  }

  /** A pass over the week before the first, or past the last, adds
      nothing; past the last the loop stops with every week. */
  lemma CollectDrops(ym: YearMonth, monthKey: string, i: int, c: int, weeks: seq<WeekInfo>)
    requires KeyMonth(ym) && CollectInv(ym, monthKey, i, weeks)
    requires c == MondayOf(MonthStart(ym)) + 7 * i
    requires i == -1 || (i == |OverlapMondays(ym)| && c > MonthEnd(ym))
    ensures if c + 7 > MonthEnd(ym) + 7 then weeks == OverlapWeeks(ym, monthKey)
            else CollectInv(ym, monthKey, i + 1, weeks)
  {
    if i >= 0 {
      PrefixStep(OverlapWeeks(ym, monthKey), i);
    }
  }

  /** The loop of `getWeeksForMonth`: start one week before the Monday on or
      before the first, add each week that overlaps the month, and stop once
      the Monday is more than a week past the month's end. */
  method CollectWeeks(ym: YearMonth, monthKey: string) returns (weeks: seq<WeekInfo>)
    requires KeyMonth(ym)
    ensures weeks == OverlapWeeks(ym, monthKey)
  {
    var monthStart := MonthStart(ym);
    var monthEnd := MonthEnd(ym);
    var firstMonday := MondayOf(monthStart);
    assert monthStart < monthEnd;
    ghost var m0 := firstMonday;
    if firstMonday < monthStart {
      firstMonday := firstMonday - 7;
    }
    weeks := [];
    var current := firstMonday;
    ghost var i := if firstMonday < m0 then -1 else 0;
    while current <= monthEnd || current + 6 > monthStart
      invariant current == m0 + 7 * i && CollectInv(ym, monthKey, i, weeks)
      decreases |OverlapMondays(ym)| - i
    {
      CollectLoopStep(ym, monthKey, i, current, weeks);
      var sunday := SundayOf(current);
      if !(sunday < monthStart) && !(current > monthEnd) {
        weeks := weeks + [Info(current, monthKey)];
      }
      current := current + 7;
      i := i + 1;
      if current > monthEnd + 7 {
        break;
      }
    }
  }

  /** `getWeeksBelongingToMonth` applied to a list: the weeks flagged as
      belonging, in order. */
  function Belonging(ws: seq<WeekInfo>): (r: seq<WeekInfo>)
    ensures |r| <= |ws|
    ensures forall i :: 0 <= i < |r| ==> r[i].belongsToMonth
  {
    if |ws| == 0 then []
    else Belonging(ws[..|ws| - 1]) + (if ws[|ws| - 1].belongsToMonth then [ws[|ws| - 1]] else [])
  }

  lemma {:induction false} BelongingAppend(a: seq<WeekInfo>, b: seq<WeekInfo>)
    ensures Belonging(a + b) == Belonging(a) + Belonging(b)
    decreases |b|
  {
    if |b| == 0 {
      assert a + b == a;
    } else {
      assert (a + b)[..|a + b| - 1] == a + b[..|b| - 1];
      BelongingAppend(a, b[..|b| - 1]);
    }
  }

  lemma {:induction false} BelongingAll(ws: seq<WeekInfo>)
    requires forall i :: 0 <= i < |ws| ==> ws[i].belongsToMonth
    ensures Belonging(ws) == ws
    decreases |ws|
  {
    if |ws| > 0 {
      BelongingAll(ws[..|ws| - 1]);
    }
  }

  function WeeksBelongingToMonth(monthKey: string): (r: Option<seq<WeekInfo>>)
    ensures r.Some? <==> ParseMonthKey(monthKey).Some?
  {
    var ws :- WeeksForMonth(monthKey);
    Some(Belonging(ws))
  }

  /** The Mondays that fall inside month ym, ascending. */
  function MonthMondays(ym: YearMonth): (ms: seq<int>)
    requires ym.Valid()
  {
    var first := MondayOf(MonthStart(ym));
    var m1 := if first == MonthStart(ym) then first else first + 7;
    Weekly(m1, (MonthEnd(ym) - m1) / 7 + 1)
  }

  /** A month owns exactly the weeks whose Monday lies in it. */
  lemma MonthMondaysSpec(ym: YearMonth, x: int)
    requires ym.Valid()
    ensures x in MonthMondays(ym) <==> DayOfWeek(x) == 1 && YearMonthOf(x) == ym
  {
    YearMonthOfRange(x, ym);
    if x in MonthMondays(ym) {
      MonthMondayInMonth(ym, x);
    }
    if DayOfWeek(x) == 1 && MonthStart(ym) <= x <= MonthEnd(ym) {
      MondayInMonthListed(ym, x);
    }
  }

  /** The first Monday on or after the first day of month ym. */
  function FirstMonday(ym: YearMonth): (m1: int)
    requires ym.Valid()
    ensures DayOfWeek(m1) == 1 && MonthStart(ym) <= m1 < MonthStart(ym) + 7
  {
    var first := MondayOf(MonthStart(ym));
    MondayPlusWeeks(first, 1);
    if first == MonthStart(ym) then first else first + 7
  }

  lemma MonthMondaysFirst(ym: YearMonth)
    requires ym.Valid()
    ensures var ms := MonthMondays(ym);
      forall i :: 0 <= i < |ms| ==> ms[i] == FirstMonday(ym) + 7 * i
  {
  }

  lemma MonthMondayInMonth(ym: YearMonth, x: int)
    requires ym.Valid() && x in MonthMondays(ym)
    ensures DayOfWeek(x) == 1 && MonthStart(ym) <= x <= MonthEnd(ym)
  {
    var ms := MonthMondays(ym);
    var m1 := FirstMonday(ym);
    MonthMondaysFirst(ym);
    var i :| 0 <= i < |ms| && ms[i] == x;
    MondayPlusWeeks(m1, i);
  }

  lemma MondayInMonthListed(ym: YearMonth, x: int)
    requires ym.Valid() && DayOfWeek(x) == 1 && MonthStart(ym) <= x <= MonthEnd(ym)
    ensures x in MonthMondays(ym)
  {
    var ms := MonthMondays(ym);
    var m1 := FirstMonday(ym);
    MonthMondaysFirst(ym);
    MondayOffset(x, m1);
    var i := (x - m1) / 7;
    assert 0 <= i < |ms|;
    assert ms[i] == x;
  }

  /** Every month owns four or five weeks. */
  lemma MonthMondaysCount(ym: YearMonth)
    requires ym.Valid()
    ensures 4 <= |MonthMondays(ym)| <= 5
  {
  }

  /** A week is flagged as belonging exactly when its Monday is in the month
      the (canonical) month key names. */
  lemma InfoBelongs(m: int, monthKey: string)
    requires KeyDay(m) && ParseMonthKey(monthKey).Some?
    ensures Info(m, monthKey).belongsToMonth <==> YearMonthOf(m) == ParseMonthKey(monthKey).value
    ensures Info(m, monthKey).belongsToMonth <==> Info(m, monthKey).monthKey == monthKey
  {
    MonthKeyRoundTrip(monthKey);
    var a := MonthKeyOfDay(m);
    assert ParseMonthKey(a) == Some(YearMonthOf(m));
  }

  function SkipCount(ym: YearMonth): int
    requires ym.Valid()
  {
    if MondayOf(MonthStart(ym)) == MonthStart(ym) then 0 else 1
  }

  /** Of the overlapping weeks, all but possibly the first belong to the month. */
  lemma OverlapWeekBelongs(ym: YearMonth, monthKey: string, i: int)
    requires ParseMonthKey(monthKey) == Some(ym)
    requires 0 <= i < |OverlapMondays(ym)|
    ensures OverlapWeeks(ym, monthKey)[i].belongsToMonth <==> i >= SkipCount(ym)
  {
    var ms := OverlapMondays(ym);
    OverlapMondaysAreKeyDays(ym, ms[i]);
    InfoBelongs(ms[i], monthKey);
    YearMonthOfRange(ms[i], ym);
  }

  lemma BelongingSuffix(all: seq<WeekInfo>, skip: int)
    requires 0 <= skip <= 1 && skip <= |all|
    requires forall i :: 0 <= i < |all| ==> (all[i].belongsToMonth <==> i >= skip)
    ensures Belonging(all) == all[skip..]
  {
    if skip == 0 {
      assert all[skip..] == all;
      BelongingAll(all);
    } else {
      forall i | 0 <= i < |all| - 1
        ensures all[1..][i].belongsToMonth
      {
        assert all[1..][i] == all[i + 1];
      }
      BelongingAll(all[1..]);
      assert all == all[..1] + all[1..];
      BelongingAppend(all[..1], all[1..]);
      assert Belonging(all[..1]) == [];
    }
  }

  /** `getWeeksBelongingToMonth` drops exactly the leading week whose Monday
      is in the previous month, when there is one. */
  lemma BelongingDropsLeading(ym: YearMonth, monthKey: string)
    requires ParseMonthKey(monthKey) == Some(ym)
    ensures Belonging(OverlapWeeks(ym, monthKey)) == OverlapWeeks(ym, monthKey)[SkipCount(ym)..]
  {
    var all := OverlapWeeks(ym, monthKey);
    forall i | 0 <= i < |all|
      ensures all[i].belongsToMonth <==> i >= SkipCount(ym)
    {
      OverlapWeekBelongs(ym, monthKey, i);
    }
    BelongingSuffix(all, SkipCount(ym));
  }

  /** The Mondays inside a month are the overlapping Mondays less the
      leading one that falls in the previous month. */
  lemma MonthMondaysShift(ym: YearMonth)
    requires ym.Valid()
    ensures |MonthMondays(ym)| == |OverlapMondays(ym)| - SkipCount(ym)
    ensures forall i :: 0 <= i < |MonthMondays(ym)| ==>
      MonthMondays(ym)[i] == OverlapMondays(ym)[SkipCount(ym) + i]
  {
    var m0 := MondayOf(MonthStart(ym));
    var e := MonthEnd(ym);
    if SkipCount(ym) == 1 {
      assert (e - m0) / 7 == (e - (m0 + 7)) / 7 + 1;
    }
  }

  lemma OverlapWeekAt(ym: YearMonth, monthKey: string, j: int)
    requires KeyMonth(ym) && 0 <= j < |OverlapMondays(ym)|
    ensures KeyDay(OverlapMondays(ym)[j])
    ensures OverlapWeeks(ym, monthKey)[j] == Info(OverlapMondays(ym)[j], monthKey)
  {
    OverlapMondaysAreKeyDays(ym, OverlapMondays(ym)[j]);
  }

  lemma WeeksBelongingSuffix(monthKey: string)
    requires ParseMonthKey(monthKey).Some?
    ensures var ym := ParseMonthKey(monthKey).value;
      WeeksBelongingToMonth(monthKey) == Some(OverlapWeeks(ym, monthKey)[SkipCount(ym)..])
  {
    BelongingDropsLeading(ParseMonthKey(monthKey).value, monthKey);
  }

  lemma SuffixElements(ym: YearMonth, monthKey: string, ws: seq<WeekInfo>)
    requires KeyMonth(ym) && ws == OverlapWeeks(ym, monthKey)[SkipCount(ym)..]
    ensures |ws| == |MonthMondays(ym)|
    ensures forall i :: 0 <= i < |ws| ==>
      KeyDay(MonthMondays(ym)[i]) && ws[i] == Info(MonthMondays(ym)[i], monthKey)
  {
    var skip := SkipCount(ym);
    MonthMondaysShift(ym);
    forall i | 0 <= i < |ws|
      ensures KeyDay(MonthMondays(ym)[i]) && ws[i] == Info(MonthMondays(ym)[i], monthKey)
    {
      OverlapWeekAt(ym, monthKey, skip + i);
    }
  }

  /** The weeks a month owns, as `getWeeksBelongingToMonth` lists them: one
      per Monday of the month, in order. */
  lemma WeeksBelongingSpec(monthKey: string)
    requires ParseMonthKey(monthKey).Some?
    ensures var ym := ParseMonthKey(monthKey).value;
      && WeeksBelongingToMonth(monthKey).Some?
      && var ws := WeeksBelongingToMonth(monthKey).value;
      && |ws| == |MonthMondays(ym)|
      && forall i :: 0 <= i < |ws| ==>
           KeyDay(MonthMondays(ym)[i]) && ws[i] == Info(MonthMondays(ym)[i], monthKey)
  {
    WeeksBelongingSuffix(monthKey);
    var ym := ParseMonthKey(monthKey).value;
    SuffixElements(ym, monthKey, WeeksBelongingToMonth(monthKey).value);
  }

  /** What a week record built for Monday m carries. */
  lemma InfoFields(m: int, monthKey: string)
    requires KeyDay(m) && ParseMonthKey(monthKey).Some?
    ensures var w := Info(m, monthKey);
      && w.startDate == m && w.endDate == SundayOf(m) && w.weekKey == DayKey(m)
      && w.monthKey == MonthKeyOfDay(m)
      && (w.belongsToMonth <==> YearMonthOf(m) == ParseMonthKey(monthKey).value)
  {
    InfoBelongs(m, monthKey);
  }

  /** `weekOverlapsWithMonth`: false when either key does not parse.  The
      week key need not be a Monday: its own week is the one tested. */
  predicate WeekOverlapsWithMonth(weekKey: string, monthKey: string) {
    var d := ParseDateKey(weekKey);
    var ym := ParseMonthKey(monthKey);
    if d.None? || ym.None? then false
    else
      var monday := ToEpochDay(d.value);
      var sunday := SundayOf(monday);
      !(sunday < MonthStart(ym.value)) && !(monday > MonthEnd(ym.value))
  }

  /** For a Monday's key, the overlap test agrees with the list of weeks
      `getWeeksForMonth` returns. */
  lemma WeekOverlapsAgree(m: int, monthKey: string)
    requires KeyDay(m) && DayOfWeek(m) == 1 && ParseMonthKey(monthKey).Some?
    ensures WeekOverlapsWithMonth(DayKey(m), monthKey) <==>
      m in OverlapMondays(ParseMonthKey(monthKey).value)
  {
    OverlapMondaysSpec(ParseMonthKey(monthKey).value, m);
    MondayOfUnique(m, m);
  }

  /** The map of `distributeMonthlySalary` before the rounding adjustment:
      every listed week key mapped to the same amount. */
  function ConstantMap(keys: seq<string>, v: int): (m: map<string, int>)
    ensures m.Keys == set k | k in keys
    ensures forall k :: k in m ==> m[k] == v
  {
    if |keys| == 0 then map[] else ConstantMap(keys[..|keys| - 1], v)[keys[|keys| - 1] := v]
  }

  function WeekKeys(ws: seq<WeekInfo>): (ks: seq<string>)
    ensures |ks| == |ws| && forall i :: 0 <= i < |ws| ==> ks[i] == ws[i].weekKey
  {
    seq(|ws|, i requires 0 <= i < |ws| => ws[i].weekKey)
  }

  /** `WeekCalculationUtils.distributeMonthlySalary`: the salary divided by the
      number of weeks the month owns, rounded HALF_UP at four decimals; when
      the rounded shares miss the salary by more than 0.01 the difference goes
      to the first week.  `None` is the parse error of the month key; an empty
      map would mean a month with no weeks. */
  function DistributeMonthlySalary(salary: int, monthKey: string): (r: Option<map<string, int>>)
    ensures r.Some? <==> ParseMonthKey(monthKey).Some?
    ensures r.Some? ==> r.value.Keys == set k | k in WeekKeys(WeeksBelongingToMonth(monthKey).value)
  {
    var weeks :- WeeksBelongingToMonth(monthKey);
    Some(SplitOverWeeks(salary, WeekKeys(weeks)))
  }

  /** The split itself, over the week keys in list order. */
  function SplitOverWeeks(salary: int, keys: seq<string>): (m: map<string, int>)
    ensures m.Keys == set k | k in keys
  {
    if |keys| == 0 then map[]
    else
      var perWeek := DivCountScale4(salary, |keys|);
      var shares := ConstantMap(keys, perWeek);
      var total := perWeek * |shares|;
      var difference := salary - total;
      if Abs(difference) > CENT then
        shares[keys[0] := shares[keys[0]] + difference]
      else
        shares
  }

  /** Over four or five distinct weeks the split is even: every week gets the
      HALF_UP share, which misses the salary by at most half a unit per week. */
  lemma SplitOverWeeksEven(salary: int, keys: seq<string>)
    requires 4 <= |keys| <= 5
    requires forall i, j :: 0 <= i < j < |keys| ==> keys[i] != keys[j]
    ensures var m := SplitOverWeeks(salary, keys);
      && |m| == |keys|
      && forall k :: k in m ==> m[k] == DivHalfUp(salary, |keys|)
  {
    DistinctKeysCardinality(keys);
    SplitDifferenceSmall(salary, |keys|);
  }

  /** The week keys a month owns are all different. */
  lemma BelongingKeysDistinct(monthKey: string)
    requires ParseMonthKey(monthKey).Some?
    ensures var ws := WeeksBelongingToMonth(monthKey).value;
      forall i, j :: 0 <= i < j < |ws| ==> ws[i].weekKey != ws[j].weekKey
  {
    var ym := ParseMonthKey(monthKey).value;
    var ws := WeeksBelongingToMonth(monthKey).value;
    var ms := MonthMondays(ym);
    WeeksBelongingSpec(monthKey);
    forall i, j | 0 <= i < j < |ws|
      ensures ws[i].weekKey != ws[j].weekKey
    {
      InfoFields(ms[i], monthKey);
      InfoFields(ms[j], monthKey);
      DayKeyFacts(ms[i], ms[j]);
    }
  }

  lemma DistinctKeysCardinality(keys: seq<string>)
    requires forall i, j :: 0 <= i < j < |keys| ==> keys[i] != keys[j]
    ensures |set k | k in keys| == |keys|
  {
    if |keys| > 0 {
      var init := keys[..|keys| - 1];
      DistinctKeysCardinality(init);
      assert (set k | k in keys) == (set k | k in init) + {keys[|keys| - 1]};
    }
  }

  /** With at most five weeks the HALF_UP shares miss the salary by at most
      half a unit per week. */
  lemma SplitDifferenceSmall(salary: int, n: int)
    requires 1 <= n <= 5
    ensures 2 * Abs(salary - n * DivHalfUp(salary, n)) <= n
    ensures Abs(salary - DivHalfUp(salary, n) * n) <= CENT
  {
    var q := DivHalfUp(salary, n);
    assert q * n == n * q;
  }

  /** With four or five weeks the rounded shares never miss the salary by
      more than 0.0002, so the first-week adjustment never fires: every week
      the month owns gets the same HALF_UP share. */
  lemma DistributeNeverAdjusts(salary: int, monthKey: string)
    requires ParseMonthKey(monthKey).Some?
    ensures var r := DistributeMonthlySalary(salary, monthKey).value;
      var n := |MonthMondays(ParseMonthKey(monthKey).value)|;
      && |r| == n
      && (forall k :: k in r ==> r[k] == DivHalfUp(salary, n))
      && 2 * Abs(salary - n * DivHalfUp(salary, n)) <= n
  {
    var keys := WeekKeys(WeeksBelongingToMonth(monthKey).value);
    BelongingKeys(monthKey);
    SplitOverWeeksEven(salary, keys);
    SplitDifferenceSmall(salary, |keys|);
  }

  /** The keys of the weeks a month owns: four or five, all different. */
  lemma BelongingKeys(monthKey: string)
    requires ParseMonthKey(monthKey).Some?
    ensures var keys := WeekKeys(WeeksBelongingToMonth(monthKey).value);
      && |keys| == |MonthMondays(ParseMonthKey(monthKey).value)|
      && 4 <= |keys| <= 5
      && forall i, j :: 0 <= i < j < |keys| ==> keys[i] != keys[j]
  {
    WeeksBelongingSpec(monthKey);
    MonthMondaysCount(ParseMonthKey(monthKey).value);
    BelongingKeysDistinct(monthKey);
  }

  /** A salary in whole cents is split exactly: the shares add up to it. */
  lemma DistributeExactForCents(salary: int, monthKey: string)
    requires ParseMonthKey(monthKey).Some? && salary % CENT == 0
    ensures var n := |MonthMondays(ParseMonthKey(monthKey).value)|;
      n * DivHalfUp(salary, n) == salary
  {
    MonthMondaysCount(ParseMonthKey(monthKey).value);
    ExactSplit(salary, |MonthMondays(ParseMonthKey(monthKey).value)|);
  }

  lemma ExactSplit(salary: int, n: int)
    requires 4 <= n <= 5 && salary % CENT == 0
    ensures n * DivHalfUp(salary, n) == salary
  {
    if n == 4 {
      MultipleOfMultiple(salary, 4, 25);
      DivHalfUpExact(salary, 4);
      assert salary == 4 * (salary / 4) + salary % 4;
    } else {
      MultipleOfMultiple(salary, 5, 20);
      DivHalfUpExact(salary, 5);
      assert salary == 5 * (salary / 5) + salary % 5;
    }
  }
}
