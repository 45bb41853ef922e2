/** The personnel week-salary ledger of `ChargeService`.

    An employee line item owns a list of week rows `(weekKey, monthKey,
    amount)`.  The three salary operations are delete-then-insert
    transformations of that list, followed by a refresh of the employee's
    summary fields; each is a function from the old employee to the new one or
    to the exception the service raises.  Because the enclosing service calls
    are transactional, an exception leaves nothing changed, which is what a
    `Failure` means here.

    The database keeps at most one row per `(employee, weekKey)`, and every row
    the services create records the month of its week key; `WellFormed` is that
    invariant and each operation is proved to preserve it. */
module Personnel {
  import opened Wrappers
  import opened Money
  import opened Calendar
  import opened Keys
  import opened Weeks
  import opened Entities

  // ---------------------------------------------------------------------------
  // Selecting rows
  // ---------------------------------------------------------------------------

  /** The two ways the services pick rows: by month key, or by a set of week keys. */
  datatype Selector = InMonth(monthKey: string) | InWeeks(weekKeys: set<string>)

  predicate Selected(sel: Selector, r: WeekSalary) {
    match sel
    case InMonth(m) => r.monthKey == m
    case InWeeks(ks) => r.weekKey in ks
  }

  /** The rows whose selection status equals `keep`, in order: `filter` keeps
      the selected rows, `removeIf` the unselected ones. */
  function Keep(rows: seq<WeekSalary>, sel: Selector, keep: bool): (r: seq<WeekSalary>)
    ensures |r| <= |rows|
    ensures forall x :: x in r <==> x in rows && Selected(sel, x) == keep
  {
    if |rows| == 0 then []
    else
      var init := rows[..|rows| - 1];
      var last := rows[|rows| - 1];
      assert rows == init + [last];
      if Selected(sel, last) == keep then Keep(init, sel, keep) + [last] else Keep(init, sel, keep)
  }

  lemma {:induction false} KeepAppend(a: seq<WeekSalary>, b: seq<WeekSalary>, sel: Selector, keep: bool)
    ensures Keep(a + b, sel, keep) == Keep(a, sel, keep) + Keep(b, sel, keep)
    decreases |b|
  {
    if |b| == 0 {
      assert a + b == a;
    } else {
      assert (a + b)[..|a + b| - 1] == a + b[..|b| - 1];
      KeepAppend(a, b[..|b| - 1], sel, keep);
    }
  }

  /** Filtering a list whose rows all agree on the selector keeps all or nothing. */
  lemma {:induction false} KeepUniform(rows: seq<WeekSalary>, sel: Selector, keep: bool)
    ensures (forall x :: x in rows ==> Selected(sel, x) == keep) ==> Keep(rows, sel, keep) == rows
    ensures (forall x :: x in rows ==> Selected(sel, x) != keep) ==> Keep(rows, sel, keep) == []
    decreases |rows|
  {
    if |rows| > 0 {
      var init := rows[..|rows| - 1];
      assert rows == init + [rows[|rows| - 1]];
      KeepUniform(init, sel, keep);
    }
  }

  // ---------------------------------------------------------------------------
  // Sums
  // ---------------------------------------------------------------------------

  function Amounts(rows: seq<WeekSalary>): (s: seq<int>)
    ensures |s| == |rows| && forall i :: 0 <= i < |rows| ==> s[i] == rows[i].amount
  {
    seq(|rows|, i requires 0 <= i < |rows| => rows[i].amount)
  }

  /** Σ of the rows' amounts. */
  function Total(rows: seq<WeekSalary>): int {
    Sum(Amounts(rows))
  }

  /** Σ of the rows recorded against a month. */
  function MonthTotal(rows: seq<WeekSalary>, monthKey: string): int {
    Total(Keep(rows, InMonth(monthKey), true))
  }

  lemma TotalAppend(a: seq<WeekSalary>, b: seq<WeekSalary>)
    ensures Total(a + b) == Total(a) + Total(b)
  {
    assert Amounts(a + b) == Amounts(a) + Amounts(b);
    SumAppend(Amounts(a), Amounts(b));
  }

  lemma {:induction false} SumConstant(s: seq<int>, q: int)
    requires forall i :: 0 <= i < |s| ==> s[i] == q
    ensures Sum(s) == |s| * q
    decreases |s|
  {
    if |s| > 0 {
      SumConstant(s[..|s| - 1], q);
    }
  }

  // ---------------------------------------------------------------------------
  // The ledger invariant
  // ---------------------------------------------------------------------------

  /** At most one row per week key (`uk_personnel_week_salary`). */
  predicate UniqueWeeks(rows: seq<WeekSalary>) {
    forall i, j :: 0 <= i < j < |rows| ==> rows[i].weekKey != rows[j].weekKey
  }

  function WeekKeySet(rows: seq<WeekSalary>): set<string> {
    set r | r in rows :: r.weekKey
  }

  /** A row as the services create it: a Monday key and the month of that key. */
  predicate RowOk(r: WeekSalary) {
    IsValidWeekKey(r.weekKey) && MonthKeyForWeek(r.weekKey) == Some(r.monthKey)
  }

  predicate WellFormed(rows: seq<WeekSalary>) {
    UniqueWeeks(rows) && forall r :: r in rows ==> RowOk(r)
  }

  lemma UniqueConcat(a: seq<WeekSalary>, b: seq<WeekSalary>)
    requires UniqueWeeks(a) && UniqueWeeks(b) && WeekKeySet(a) !! WeekKeySet(b)
    ensures UniqueWeeks(a + b)
  {
    forall i, j | 0 <= i < j < |a + b|
      ensures (a + b)[i].weekKey != (a + b)[j].weekKey
    {
      if i < |a| <= j {
        assert a[i] in a && b[j - |a|] in b;
        assert a[i].weekKey in WeekKeySet(a) && b[j - |a|].weekKey in WeekKeySet(b);
      }
    }
  }

  lemma {:induction false} UniqueKeep(rows: seq<WeekSalary>, sel: Selector, keep: bool)
    requires UniqueWeeks(rows)
    ensures UniqueWeeks(Keep(rows, sel, keep))
    decreases |rows|
  {
    if |rows| > 0 {
      var init := rows[..|rows| - 1];
      var last := rows[|rows| - 1];
      UniqueKeep(init, sel, keep);
      if Selected(sel, last) == keep {
        var kept := Keep(init, sel, keep);
        forall x | x in kept
          ensures x.weekKey != last.weekKey
        {
          var k :| 0 <= k < |init| && init[k] == x;
          assert rows[k] == x;
        }
        UniqueConcat(kept, [last]);
      }
    }
  }

  // ---------------------------------------------------------------------------
  // New rows
  // ---------------------------------------------------------------------------

  /** The row created for a week key: its month is the month of the key's date
      (`getMonthKeyForWeek`). */
  function NewRow(weekKey: string, amount: int): (r: WeekSalary)
    requires ParseDateKey(weekKey).Some?
    ensures r.weekKey == weekKey && r.amount == amount
    ensures MonthKeyForWeek(weekKey) == Some(r.monthKey)
  {
    WeekSalary(weekKey, MonthKeyForWeek(weekKey).value, amount)
  }

  predicate AllParse(es: Entries) {
    forall i :: 0 <= i < |es| ==> ParseDateKey(es[i].0).Some?
  }

  predicate DistinctKeys(es: Entries) {
    forall i, j :: 0 <= i < j < |es| ==> es[i].0 != es[j].0
  }

  function EntryKeys(es: Entries): set<string> {
    set i | 0 <= i < |es| :: es[i].0
  }

  /** One new row per entry, in entry order. */
  function NewRows(es: Entries): (rs: seq<WeekSalary>)
    requires AllParse(es)
    ensures |rs| == |es|
    ensures forall i :: 0 <= i < |es| ==> rs[i] == NewRow(es[i].0, es[i].1)
  {
    seq(|es|, i requires 0 <= i < |es| && AllParse(es) => NewRow(es[i].0, es[i].1))
  }

  lemma NewRowsKeys(es: Entries)
    requires AllParse(es)
    ensures WeekKeySet(NewRows(es)) == EntryKeys(es)
    ensures DistinctKeys(es) ==> UniqueWeeks(NewRows(es))
  {
    var rs := NewRows(es);
    forall k | k in EntryKeys(es)
      ensures k in WeekKeySet(rs)
    {
      var i :| 0 <= i < |es| && es[i].0 == k;
      assert rs[i] in rs;
    }
  }

  // ---------------------------------------------------------------------------
  // distributeMonthlySalary
  // ---------------------------------------------------------------------------

  /** The split as a list of entries, in week order. */
  function SplitEntries(weeks: seq<WeekInfo>, split: map<string, int>): (es: Entries)
    requires forall i :: 0 <= i < |weeks| ==> weeks[i].weekKey in split
    ensures |es| == |weeks|
    ensures forall i :: 0 <= i < |es| ==> es[i] == (weeks[i].weekKey, split[weeks[i].weekKey])
  {
    seq(|weeks|, i requires 0 <= i < |weeks| && weeks[i].weekKey in split =>
      (weeks[i].weekKey, split[weeks[i].weekKey]))
  }

  /** The weeks a month owns carry Monday keys whose month is that month. */
  lemma OwnedWeekKeys(monthKey: string)
    requires ParseMonthKey(monthKey).Some?
    ensures var ws := WeeksBelongingToMonth(monthKey).value;
      forall i :: 0 <= i < |ws| ==>
        && ParseDateKey(ws[i].weekKey).Some?
        && IsValidWeekKey(ws[i].weekKey)
        && MonthKeyForWeek(ws[i].weekKey) == Some(monthKey)
  {
    var ym := ParseMonthKey(monthKey).value;
    var ws := WeeksBelongingToMonth(monthKey).value;
    var ms := MonthMondays(ym);
    WeeksBelongingSpec(monthKey);
    MonthKeyRoundTrip(monthKey);
    forall i | 0 <= i < |ws|
      ensures ParseDateKey(ws[i].weekKey).Some? && IsValidWeekKey(ws[i].weekKey)
      ensures MonthKeyForWeek(ws[i].weekKey) == Some(monthKey)
    {
      var m := ms[i];
      InfoFields(m, monthKey);
      MonthMondaysSpec(ym, m);
      DayKeyFacts(m, m);
      MonthKeyRoundTrip(MonthKeyOfDay(m));
    }
  }

  /** The split of a month that parses has one entry per owned week, whose
      key parses. */
  lemma OwnedSplit(salary: int, monthKey: string)
    requires ParseMonthKey(monthKey).Some?
    ensures var ws := WeeksBelongingToMonth(monthKey).value;
      var split := DistributeMonthlySalary(salary, monthKey).value;
      && |split| == |ws| >= 4
      && forall i :: 0 <= i < |ws| ==> ws[i].weekKey in split && ParseDateKey(ws[i].weekKey).Some?
  {
    OwnedSplitSize(salary, monthKey);
    OwnedSplitKeys(salary, monthKey);
    OwnedWeekKeys(monthKey);
  }

  lemma OwnedSplitSize(salary: int, monthKey: string)
    requires ParseMonthKey(monthKey).Some?
    ensures |DistributeMonthlySalary(salary, monthKey).value| == |WeeksBelongingToMonth(monthKey).value| >= 4
  {
    var ks := WeekKeys(WeeksBelongingToMonth(monthKey).value);
    BelongingKeys(monthKey);
    DistinctKeysCardinality(ks);
  }

  lemma OwnedSplitKeys(salary: int, monthKey: string)
    requires ParseMonthKey(monthKey).Some?
    ensures var ws := WeeksBelongingToMonth(monthKey).value;
      forall i :: 0 <= i < |ws| ==> ws[i].weekKey in DistributeMonthlySalary(salary, monthKey).value
  {
    var ws := WeeksBelongingToMonth(monthKey).value;
    var ks := WeekKeys(ws);
    forall i | 0 <= i < |ws|
      ensures ws[i].weekKey in DistributeMonthlySalary(salary, monthKey).value
    {
      assert ks[i] in ks;
    }
  }

  /** The split of a month as entries in week order. */
  function OwnedEntries(salary: int, monthKey: string): (es: Entries)
    requires ParseMonthKey(monthKey).Some?
    ensures AllParse(es)
    ensures |es| == |DistributeMonthlySalary(salary, monthKey).value|
  {
    OwnedSplit(salary, monthKey);
    SplitEntries(WeeksBelongingToMonth(monthKey).value, DistributeMonthlySalary(salary, monthKey).value)
  }

  /** The rows written for a month: one per owned week. */
  function OwnedRows(salary: int, monthKey: string): seq<WeekSalary>
    requires ParseMonthKey(monthKey).Some?
  {
    NewRows(OwnedEntries(salary, monthKey))
  }

  /** The rows written for a month are, in order, one per Monday of the
      month, keyed by that Monday, recorded against the month, each carrying
      the HALF_UP share of the salary; they are valid rows with distinct keys. */
  lemma OwnedRowsSpec(salary: int, monthKey: string)
    requires ParseMonthKey(monthKey).Some?
    ensures var rs := OwnedRows(salary, monthKey);
      var ms := MonthMondays(ParseMonthKey(monthKey).value);
      && |rs| == |ms|
      && (forall i :: 0 <= i < |rs| ==>
            && KeyDay(ms[i]) && rs[i].weekKey == DayKey(ms[i])
            && rs[i].monthKey == monthKey
            && rs[i].amount == DivHalfUp(salary, |ms|))
      && WellFormed(rs)
  {
    OwnedRowsKeys(salary, monthKey);
    OwnedRowsAmounts(salary, monthKey);
    OwnedRowsValid(salary, monthKey);
    OwnedRowsUnique(salary, monthKey);
  }

  lemma OwnedRowsKeys(salary: int, monthKey: string)
    requires ParseMonthKey(monthKey).Some?
    ensures var rs := OwnedRows(salary, monthKey);
      var ms := MonthMondays(ParseMonthKey(monthKey).value);
      && |rs| == |ms|
      && forall i :: 0 <= i < |rs| ==> KeyDay(ms[i]) && rs[i].weekKey == DayKey(ms[i])
  {
    var ms := MonthMondays(ParseMonthKey(monthKey).value);
    var rs := OwnedRows(salary, monthKey);
    WeeksBelongingSpec(monthKey);
    OwnedSplit(salary, monthKey);
    forall i | 0 <= i < |rs|
      ensures rs[i].weekKey == DayKey(ms[i])
    {
      InfoFields(ms[i], monthKey);
    }
  }

  lemma OwnedRowsAmounts(salary: int, monthKey: string)
    requires ParseMonthKey(monthKey).Some?
    ensures var rs := OwnedRows(salary, monthKey);
      var n := |MonthMondays(ParseMonthKey(monthKey).value)|;
      |rs| == n && forall i :: 0 <= i < |rs| ==> rs[i].amount == DivHalfUp(salary, n)
  {
    var ws := WeeksBelongingToMonth(monthKey).value;
    var split := DistributeMonthlySalary(salary, monthKey).value;
    var n := |MonthMondays(ParseMonthKey(monthKey).value)|;
    var es := OwnedEntries(salary, monthKey);
    var rs := OwnedRows(salary, monthKey);
    OwnedSplit(salary, monthKey);
    DistributeNeverAdjusts(salary, monthKey);
    assert es == SplitEntries(ws, split);
    forall i | 0 <= i < |rs|
      ensures rs[i].amount == DivHalfUp(salary, n)
    {
      assert rs[i] == NewRow(es[i].0, es[i].1);
      assert es[i] == (ws[i].weekKey, split[ws[i].weekKey]);
    }
  }

  lemma OwnedRowsValid(salary: int, monthKey: string)
    requires ParseMonthKey(monthKey).Some?
    ensures var rs := OwnedRows(salary, monthKey);
      forall i :: 0 <= i < |rs| ==> rs[i].monthKey == monthKey && RowOk(rs[i])
  {
    var ws := WeeksBelongingToMonth(monthKey).value;
    var es := OwnedEntries(salary, monthKey);
    var rs := OwnedRows(salary, monthKey);
    OwnedWeekKeys(monthKey);
    OwnedSplit(salary, monthKey);
    assert es == SplitEntries(ws, DistributeMonthlySalary(salary, monthKey).value);
    forall i | 0 <= i < |rs|
      ensures rs[i].monthKey == monthKey && RowOk(rs[i])
    {
      assert rs[i] == NewRow(es[i].0, es[i].1);
      assert es[i].0 == ws[i].weekKey;
    }
  }

  lemma OwnedRowsUnique(salary: int, monthKey: string)
    requires ParseMonthKey(monthKey).Some?
    ensures UniqueWeeks(OwnedRows(salary, monthKey))
  {
    BelongingKeysDistinct(monthKey);
    OwnedSplit(salary, monthKey);
  }

  /** `ChargeService.distributeMonthlySalary`: drop the employee's rows of the
      month, write one row per week the month owns with the split of
      `WeekCalculationUtils.distributeMonthlySalary`, and record the monthly
      salary.  The average week salary is kept at two decimals.  The "no
      weeks" error cannot occur for a month key that parses. */
  function DistributeSalary(e: PersonnelEmployee, monthlySalary: Option<int>, monthKey: Option<string>)
    : (r: Result<PersonnelEmployee, ChargeError>)
    ensures Blank(monthKey) ==> r == Failure(MonthKeyRequired)
    ensures !Blank(monthKey) && !(monthlySalary.Some? && monthlySalary.value > 0) ==>
      r == Failure(SalaryNotPositive)
    ensures r.Success? <==>
      !Blank(monthKey) && monthlySalary.Some? && monthlySalary.value > 0 &&
      ParseMonthKey(monthKey.value).Some?
    ensures r.Success? ==>
      && r.value.monthSalary == Some(monthlySalary.value)
      && r.value.salary == Some(monthlySalary.value)
      && r.value.salaryByPeriod == Some(MonthlySalary)
    ensures r.Success? ==> r.value.id == e.id && r.value.employee == e.employee
  {
    if Blank(monthKey) then Failure(MonthKeyRequired) else
    :- Need(monthlySalary.Some? && monthlySalary.value > 0, SalaryNotPositive);
    :- Need(ParseMonthKey(monthKey.value).Some?, MalformedMonthKey);
    OwnedSplitSize(monthlySalary.value, monthKey.value);
    if |DistributeMonthlySalary(monthlySalary.value, monthKey.value).value| == 0 then
      Failure(NoWeeksForMonth)
    else
      Success(Distributed(e, monthlySalary.value, monthKey.value))
  }

  /** The employee after a distribution that passed its checks. */
  function Distributed(e: PersonnelEmployee, salary: int, monthKey: string): (r: PersonnelEmployee)
    requires ParseMonthKey(monthKey).Some?
    ensures r.rows == Keep(e.rows, InMonth(monthKey), false) + OwnedRows(salary, monthKey)
    ensures r.monthSalary == Some(salary) && r.salary == Some(salary) && r.salaryByPeriod == Some(MonthlySalary)
    ensures r.id == e.id && r.employee == e.employee
  {
    var split := DistributeMonthlySalary(salary, monthKey).value;
    e.(
      rows := Keep(e.rows, InMonth(monthKey), false) + OwnedRows(salary, monthKey),
      weekSalaries := OwnedEntries(salary, monthKey),
      monthSalary := Some(salary),
      salary := Some(salary),
      salaryByPeriod := Some(MonthlySalary),
      weekSalary := if |split| == 0 then None else Some(DivCountScale2(salary, |split|)))
  }

  lemma MonthKeyNotBlank(monthKey: string)
    requires ParseMonthKey(monthKey).Some?
    ensures !Blank(Some(monthKey))
  {
    assert monthKey[4] == '-';
  }

  /** The ledger a successful distribution writes. */
  lemma DistributeSalaryUnfold(e: PersonnelEmployee, salary: int, monthKey: string)
    requires salary > 0 && ParseMonthKey(monthKey).Some?
    ensures var r := DistributeSalary(e, Some(salary), Some(monthKey));
      r.Success? && r.value.rows == Keep(e.rows, InMonth(monthKey), false) + OwnedRows(salary, monthKey)
  {
    MonthKeyNotBlank(monthKey);
    OwnedSplitSize(salary, monthKey);
  }

  /** Filtering twice by the same selector changes nothing more. */
  lemma KeepTwice(rows: seq<WeekSalary>, sel: Selector, keep: bool)
    ensures Keep(Keep(rows, sel, keep), sel, keep) == Keep(rows, sel, keep)
    ensures Keep(Keep(rows, sel, keep), sel, !keep) == []
  {
    KeepUniform(Keep(rows, sel, keep), sel, keep);
    KeepUniform(Keep(rows, sel, keep), sel, !keep);
  }

  /** The owned weeks' rows are well formed and all filed under the month. */
  lemma OwnedRowsOfMonth(salary: int, monthKey: string)
    requires ParseMonthKey(monthKey).Some?
    ensures WellFormed(OwnedRows(salary, monthKey))
    ensures forall x :: x in OwnedRows(salary, monthKey) ==> x.monthKey == monthKey
  {
    var owned := OwnedRows(salary, monthKey);
    OwnedRowsSpec(salary, monthKey);
    forall x | x in owned
      ensures x.monthKey == monthKey
    {
      var i :| 0 <= i < |owned| && owned[i] == x;
    }
  }

  lemma OwnedRowsInMonth(salary: int, monthKey: string)
    requires ParseMonthKey(monthKey).Some?
    ensures Keep(OwnedRows(salary, monthKey), InMonth(monthKey), true) == OwnedRows(salary, monthKey)
    ensures Keep(OwnedRows(salary, monthKey), InMonth(monthKey), false) == []
  {
    var owned := OwnedRows(salary, monthKey);
    OwnedRowsOfMonth(salary, monthKey);
    KeepUniform(owned, InMonth(monthKey), true);
    KeepUniform(owned, InMonth(monthKey), false);
  }

  /** Distributing a monthly salary leaves the rows of every other month as
      they were and replaces the month's rows by the owned weeks' rows. */
  lemma DistributeSalaryRows(e: PersonnelEmployee, salary: int, monthKey: string)
    requires salary > 0 && ParseMonthKey(monthKey).Some?
    ensures var r := DistributeSalary(e, Some(salary), Some(monthKey));
      && r.Success?
      && Keep(r.value.rows, InMonth(monthKey), false) == Keep(e.rows, InMonth(monthKey), false)
      && Keep(r.value.rows, InMonth(monthKey), true) == OwnedRows(salary, monthKey)
  {
    var kept := Keep(e.rows, InMonth(monthKey), false);
    var owned := OwnedRows(salary, monthKey);
    DistributeSalaryUnfold(e, salary, monthKey);
    OwnedRowsInMonth(salary, monthKey);
    KeepTwice(e.rows, InMonth(monthKey), false);
    KeepAppend(kept, owned, InMonth(monthKey), false);
    KeepAppend(kept, owned, InMonth(monthKey), true);
    assert kept + [] == kept;
    assert [] + owned == owned;
  }

  /** After distributing, the month's rows add up to n HALF_UP shares, which
      is within half a unit per week of the salary and exactly the salary
      when it is a whole number of cents. */
  lemma DistributeSalaryMonthTotal(e: PersonnelEmployee, salary: int, monthKey: string)
    requires salary > 0 && ParseMonthKey(monthKey).Some?
    ensures var r := DistributeSalary(e, Some(salary), Some(monthKey));
      var n := |MonthMondays(ParseMonthKey(monthKey).value)|;
      && r.Success?
      && MonthTotal(r.value.rows, monthKey) == n * DivHalfUp(salary, n)
      && 2 * Abs(salary - MonthTotal(r.value.rows, monthKey)) <= n
      && (salary % CENT == 0 ==> MonthTotal(r.value.rows, monthKey) == salary)
  {
    var n := |MonthMondays(ParseMonthKey(monthKey).value)|;
    DistributeSalaryRows(e, salary, monthKey);
    OwnedRowsTotal(salary, monthKey);
    MonthMondaysCount(ParseMonthKey(monthKey).value);
    SplitDifferenceSmall(salary, n);
    if salary % CENT == 0 {
      ExactSplit(salary, n);
    }
  }

  lemma OwnedRowsTotal(salary: int, monthKey: string)
    requires ParseMonthKey(monthKey).Some?
    ensures var n := |MonthMondays(ParseMonthKey(monthKey).value)|;
      Total(OwnedRows(salary, monthKey)) == n * DivHalfUp(salary, n)
  {
    var n := |MonthMondays(ParseMonthKey(monthKey).value)|;
    OwnedRowsAmounts(salary, monthKey);
    ConstantTotal(OwnedRows(salary, monthKey), DivHalfUp(salary, n));
  }

  lemma ConstantTotal(rows: seq<WeekSalary>, q: int)
    requires forall i :: 0 <= i < |rows| ==> rows[i].amount == q
    ensures Total(rows) == |rows| * q
  {
    SumConstant(Amounts(rows), q);
  }

  /** Distributing a monthly salary keeps the ledger well formed. */
  lemma DistributeSalaryPreserves(e: PersonnelEmployee, salary: int, monthKey: string)
    requires salary > 0 && ParseMonthKey(monthKey).Some?
    requires WellFormed(e.rows)
    ensures var r := DistributeSalary(e, Some(salary), Some(monthKey));
      r.Success? && WellFormed(r.value.rows)
  {
    var kept := Keep(e.rows, InMonth(monthKey), false);
    var owned := OwnedRows(salary, monthKey);
    DistributeSalaryRows(e, salary, monthKey);
    OwnedRowsOfMonth(salary, monthKey);
    UniqueKeep(e.rows, InMonth(monthKey), false);
    UniqueConcat(kept, owned);
  }

  // ---------------------------------------------------------------------------
  // Replacing individual weeks
  // ---------------------------------------------------------------------------

  /** Drop every row of the listed weeks, then append one new row per entry. */
  function ReplaceWeeks(rows: seq<WeekSalary>, es: Entries): seq<WeekSalary>
    requires AllParse(es)
  {
    Keep(rows, InWeeks(EntryKeys(es)), false) + NewRows(es)
  }

  lemma NewRowsSelected(es: Entries)
    requires AllParse(es)
    ensures Keep(NewRows(es), InWeeks(EntryKeys(es)), true) == NewRows(es)
    ensures Keep(NewRows(es), InWeeks(EntryKeys(es)), false) == []
  {
    NewRowsKeys(es);
    forall x | x in NewRows(es)
      ensures x.weekKey in EntryKeys(es)
    {
      assert x.weekKey in WeekKeySet(NewRows(es));
    }
    KeepUniform(NewRows(es), InWeeks(EntryKeys(es)), true);
    KeepUniform(NewRows(es), InWeeks(EntryKeys(es)), false);
  }

  /** Replacing weeks leaves the rows of all other weeks as they were, and
      the replaced weeks' rows are exactly the new ones. */
  lemma ReplaceWeeksSpec(rows: seq<WeekSalary>, es: Entries)
    requires AllParse(es)
    ensures var r := ReplaceWeeks(rows, es);
      var ks := EntryKeys(es);
      && Keep(r, InWeeks(ks), false) == Keep(rows, InWeeks(ks), false)
      && Keep(r, InWeeks(ks), true) == NewRows(es)
  {
    var ks := EntryKeys(es);
    var kept := Keep(rows, InWeeks(ks), false);
    NewRowsSelected(es);
    KeepTwice(rows, InWeeks(ks), false);
    KeepAppend(kept, NewRows(es), InWeeks(ks), false);
    KeepAppend(kept, NewRows(es), InWeeks(ks), true);
    assert kept + [] == kept;
    assert [] + NewRows(es) == NewRows(es);
  }

  /** In a list with distinct week keys, selecting one row's week finds that row alone. */
  lemma {:induction false} KeepSingle(rows: seq<WeekSalary>, i: int)
    requires UniqueWeeks(rows) && 0 <= i < |rows|
    ensures Keep(rows, InWeeks({rows[i].weekKey}), true) == [rows[i]]
    decreases |rows|
  {
    var init := rows[..|rows| - 1];
    var sel := InWeeks({rows[i].weekKey});
    if i == |rows| - 1 {
      forall x | x in init
        ensures !Selected(sel, x)
      {
        var j :| 0 <= j < |init| && init[j] == x;
        assert rows[j] == x;
      }
      KeepUniform(init, sel, true);
    } else {
      assert init[i] == rows[i];
      KeepSingle(init, i);
    }
  }

  /** After a replacement, each replaced week has exactly one row: the new one. */
  lemma ReplaceWeeksEntry(rows: seq<WeekSalary>, es: Entries, i: int)
    requires AllParse(es) && DistinctKeys(es) && 0 <= i < |es|
    ensures Keep(ReplaceWeeks(rows, es), InWeeks({es[i].0}), true) == [NewRow(es[i].0, es[i].1)]
  {
    var ks := EntryKeys(es);
    var sel := InWeeks({es[i].0});
    var kept := Keep(rows, InWeeks(ks), false);
    assert es[i].0 in ks;
    KeepUniform(kept, sel, true);
    NewRowsKeys(es);
    KeepSingle(NewRows(es), i);
    KeepAppend(kept, NewRows(es), sel, true);
    assert [] + [NewRow(es[i].0, es[i].1)] == [NewRow(es[i].0, es[i].1)];
  }

  /** Replacing weeks by valid Monday keys keeps the ledger well formed. */
  lemma ReplaceWeeksPreserves(rows: seq<WeekSalary>, es: Entries)
    requires AllParse(es) && DistinctKeys(es) && WellFormed(rows)
    requires forall i :: 0 <= i < |es| ==> IsValidWeekKey(es[i].0)
    ensures WellFormed(ReplaceWeeks(rows, es))
  {
    var ks := EntryKeys(es);
    var kept := Keep(rows, InWeeks(ks), false);
    var added := NewRows(es);
    UniqueKeep(rows, InWeeks(ks), false);
    NewRowsKeys(es);
    assert WeekKeySet(kept) !! WeekKeySet(added);
    UniqueConcat(kept, added);
    forall x | x in kept + added
      ensures RowOk(x)
    {
      if x in added {
        var i :| 0 <= i < |added| && added[i] == x;
      }
    }
  }

  // ---------------------------------------------------------------------------
  // setWeeklySalary
  // ---------------------------------------------------------------------------

  /** `ChargeService.setWeeklySalary`: replace the row of one week and
      recompute the month total over the rows recorded against the given
      month.  A week that overlaps the month but whose Monday lies in the
      previous month is stored under that previous month, so it is not part
      of the total. */
  function SetWeeklySalary(e: PersonnelEmployee, weeklySalary: Option<int>, weekKey: Option<string>,
                           monthKey: Option<string>): (r: Result<PersonnelEmployee, ChargeError>)
    ensures Blank(weekKey) ==> r == Failure(WeekKeyRequired)
    ensures !Blank(weekKey) && Blank(monthKey) ==> r == Failure(MonthKeyRequired)
    ensures r.Success? <==>
      && !Blank(weekKey) && !Blank(monthKey)
      && weeklySalary.Some? && weeklySalary.value > 0
      && IsValidWeekKey(weekKey.value)
      && WeekOverlapsWithMonth(weekKey.value, monthKey.value)
    ensures r.Success? ==>
      && r.value.monthSalary == Some(MonthTotal(r.value.rows, monthKey.value))
      && r.value.weekSalary == weeklySalary
      && r.value.salary == weeklySalary
      && r.value.salaryByPeriod == Some(WeeklySalary)
    ensures r.Success? ==> r.value.id == e.id && r.value.employee == e.employee
  {
    if Blank(weekKey) then Failure(WeekKeyRequired) else
    :- Need(!Blank(monthKey), MonthKeyRequired);
    :- Need(weeklySalary.Some? && weeklySalary.value > 0, SalaryNotPositive);
    :- Need(IsValidWeekKey(weekKey.value), InvalidWeekKey);
    :- Need(WeekOverlapsWithMonth(weekKey.value, monthKey.value), WeekNotInMonth);
    var rows := ReplaceWeeks(e.rows, [(weekKey.value, weeklySalary.value)]);
    Success(e.(
      rows := rows,
      weekSalaries := EntriesOf(rows),
      weekSalary := weeklySalary,
      monthSalary := Some(MonthTotal(rows, monthKey.value)),
      salary := weeklySalary,
      salaryByPeriod := Some(WeeklySalary)))
  }

  /** Keys that pass the week checks are not blank. */
  lemma CheckedKeysNotBlank(weekKey: string, monthKey: string)
    requires WeekOverlapsWithMonth(weekKey, monthKey)
    ensures !Blank(Some(weekKey)) && !Blank(Some(monthKey))
  {
    assert weekKey[4] == '-';
    assert monthKey[4] == '-';
  }

  lemma SetWeeklyUnfold(e: PersonnelEmployee, amount: int, weekKey: string, monthKey: string)
    requires amount > 0 && IsValidWeekKey(weekKey) && WeekOverlapsWithMonth(weekKey, monthKey)
    ensures var r := SetWeeklySalary(e, Some(amount), Some(weekKey), Some(monthKey));
      r.Success? && r.value.rows == ReplaceWeeks(e.rows, [(weekKey, amount)])
  {
    CheckedKeysNotBlank(weekKey, monthKey);
  }

  /** Setting one week's salary leaves every other week's row as it was and
      leaves exactly one row for that week, carrying the new amount. */
  lemma SetWeeklyRows(e: PersonnelEmployee, amount: int, weekKey: string, monthKey: string)
    requires amount > 0 && IsValidWeekKey(weekKey) && WeekOverlapsWithMonth(weekKey, monthKey)
    ensures var r := SetWeeklySalary(e, Some(amount), Some(weekKey), Some(monthKey));
      && r.Success?
      && Keep(r.value.rows, InWeeks({weekKey}), false) == Keep(e.rows, InWeeks({weekKey}), false)
      && Keep(r.value.rows, InWeeks({weekKey}), true) == [NewRow(weekKey, amount)]
  {
    var es := [(weekKey, amount)];
    SetWeeklyUnfold(e, amount, weekKey, monthKey);
    assert EntryKeys(es) == {weekKey};
    ReplaceWeeksSpec(e.rows, es);
    ReplaceWeeksEntry(e.rows, es, 0);
  }

  /** The recomputed month total is the total of the month's other rows plus
      the new amount, which counts only when the week's Monday is in that
      month. */
  lemma SetWeeklyMonthTotal(e: PersonnelEmployee, amount: int, weekKey: string, monthKey: string)
    requires amount > 0 && IsValidWeekKey(weekKey) && WeekOverlapsWithMonth(weekKey, monthKey)
    ensures var r := SetWeeklySalary(e, Some(amount), Some(weekKey), Some(monthKey));
      && r.Success?
      && r.value.monthSalary.Some?
      && r.value.monthSalary.value ==
           MonthTotal(Keep(e.rows, InWeeks({weekKey}), false), monthKey) +
           (if MonthKeyForWeek(weekKey) == Some(monthKey) then amount else 0)
  {
    var es := [(weekKey, amount)];
    var kept := Keep(e.rows, InWeeks({weekKey}), false);
    var row := NewRow(weekKey, amount);
    SetWeeklyUnfold(e, amount, weekKey, monthKey);
    assert EntryKeys(es) == {weekKey};
    assert NewRows(es) == [row];
    MonthTotalAppendRow(kept, row, monthKey);
  }

  lemma MonthTotalAppendRow(rows: seq<WeekSalary>, row: WeekSalary, monthKey: string)
    ensures MonthTotal(rows + [row], monthKey) ==
      MonthTotal(rows, monthKey) + (if row.monthKey == monthKey then row.amount else 0)
  {
    var sel := InMonth(monthKey);
    KeepAppend(rows, [row], sel, true);
    KeepOne(row, sel, true);
    TotalAppend(Keep(rows, sel, true), Keep([row], sel, true));
    TotalOne(row);
  }

  lemma KeepOne(row: WeekSalary, sel: Selector, keep: bool)
    ensures Keep([row], sel, keep) == if Selected(sel, row) == keep then [row] else []
  {
    assert [row][..0] == [];
  }

  lemma TotalOne(row: WeekSalary)
    ensures Total([row]) == row.amount && Total([]) == 0
  {
    assert Amounts([row]) == [row.amount];
    assert [row.amount][..0] == [];
    assert Sum([row.amount]) == row.amount;
    assert Amounts([]) == [];
  }

  /** A week that overlaps the month but belongs to another month is stored
      and not counted: `2024-04-29` is such a week for `2024-05`. */
  lemma BoundaryWeekNotCounted()
    ensures WeekOverlapsWithMonth("2024-04-29", "2024-05")
    ensures IsValidWeekKey("2024-04-29")
    ensures MonthKeyForWeek("2024-04-29") == Some("2024-04")
  {
    ExampleKeys();
    ExampleDays();
    assert "2024-04-29"[..7] == "2024-04";
  }

  lemma ExampleKeys()
    ensures ParseDateKey("2024-04-29") == Some(Date(2024, 4, 29))
    ensures ParseMonthKey("2024-05") == Some(YearMonth(2024, 5))
  {
    var s := "2024-04-29";
    assert s[..7] == "2024-04" && s[..7][..4] == "2024" && s[..7][5..7] == "04" && s[8..10] == "29";
    assert "2024"[..3] == "202" && "202"[..2] == "20" && "20"[..1] == "2" && "2"[..0] == "";
    assert ParseDigits("2024") == 2024;
    assert "04"[..1] == "0" && "29"[..1] == "2" && "0"[..0] == "";
    assert ParseDigits("04") == 4 && ParseDigits("29") == 29;
    assert ParseMonthKey("2024-04") == Some(YearMonth(2024, 4));
    assert HasDateShape(s) && RawDay(s) == 29;
    assert "2024-05"[..4] == "2024" && "2024-05"[5..7] == "05" && "05"[..1] == "0";
  }

  lemma ExampleDays()
    ensures ToEpochDay(Date(2024, 4, 29)) == 19842 && DayOfWeek(19842) == 1
    ensures MonthStart(YearMonth(2024, 5)) == 19844
  {
    assert YearStart(2024) == 19723;
  }

  /** Setting one week's salary keeps the ledger well formed. */
  lemma SetWeeklyPreserves(e: PersonnelEmployee, amount: int, weekKey: string, monthKey: string)
    requires amount > 0 && IsValidWeekKey(weekKey) && WeekOverlapsWithMonth(weekKey, monthKey)
    requires WellFormed(e.rows)
    ensures var r := SetWeeklySalary(e, Some(amount), Some(weekKey), Some(monthKey));
      r.Success? && WellFormed(r.value.rows)
  {
    SetWeeklyUnfold(e, amount, weekKey, monthKey);
    ReplaceWeeksPreserves(e.rows, [(weekKey, amount)]);
  }

  // ---------------------------------------------------------------------------
  // updateWeekSalaries
  // ---------------------------------------------------------------------------

  /** The per-entry checks: a Monday key that, when a month is given,
      overlaps it. */
  predicate ValidUpdateKey(weekKey: string, monthKey: Option<string>) {
    IsValidWeekKey(weekKey) && (monthKey.Some? ==> WeekOverlapsWithMonth(weekKey, monthKey.value))
  }

  /** The checks in entry order; the first failing entry decides the error. */
  function CheckUpdates(updates: Entries, monthKey: Option<string>): (r: OutcomeResult<ChargeError>)
    ensures r.Pass'? <==> forall i :: 0 <= i < |updates| ==> ValidUpdateKey(updates[i].0, monthKey)
    ensures r.Fail'? ==> r.error == InvalidWeekKey || r.error == WeekNotInMonth
  {
    if |updates| == 0 then Pass'
    else if !IsValidWeekKey(updates[0].0) then Fail'(InvalidWeekKey)
    else if monthKey.Some? && !WeekOverlapsWithMonth(updates[0].0, monthKey.value) then Fail'(WeekNotInMonth)
    else CheckUpdates(updates[1..], monthKey)
  }

  /** `ChargeService.updateWeekSalaries`: replace exactly the targeted weeks
      and set the month salary to the total of the month's rows, or of all
      rows when no month is given.  The update map has one entry per key. */
  function UpdateWeekSalaries(e: PersonnelEmployee, updates: Entries, monthKey: Option<string>,
                              period: Option<ChargePeriod>): (r: Result<PersonnelEmployee, ChargeError>)
    requires DistinctKeys(updates)
    ensures r.Success? <==> forall i :: 0 <= i < |updates| ==> ValidUpdateKey(updates[i].0, monthKey)
    ensures r.Success? ==>
      && r.value.monthSalary ==
           Some(if monthKey.Some? then MonthTotal(r.value.rows, monthKey.value) else Total(r.value.rows))
      && r.value.salary == r.value.monthSalary
    ensures r.Success? ==> r.value.id == e.id && r.value.employee == e.employee
  {
    var checked := CheckUpdates(updates, monthKey);
    if checked.Fail'? then Failure(checked.error) else
    var rows := ReplaceWeeks(e.rows, updates);
    var total := if monthKey.Some? then MonthTotal(rows, monthKey.value) else Total(rows);
    var entries := EntriesOf(rows);
    Success(e.(
      rows := rows,
      weekSalaries := entries,
      monthSalary := Some(total),
      salary := Some(total),
      salaryByPeriod := match period
        case None => e.salaryByPeriod
        case Some(Month) => Some(MonthlySalary)
        case Some(Week) => Some(WeeklySalary),
      weekSalary := if |entries| > 0 then Some(DivCountScale2(total, |entries|)) else e.weekSalary))
  }

  /** A successful update replaces exactly the targeted weeks: the other rows
      are untouched and each targeted week has one row with its new amount. */
  lemma UpdateWeekSalariesRows(e: PersonnelEmployee, updates: Entries, monthKey: Option<string>,
                               period: Option<ChargePeriod>, i: int)
    requires DistinctKeys(updates) && 0 <= i < |updates|
    requires forall j :: 0 <= j < |updates| ==> ValidUpdateKey(updates[j].0, monthKey)
    ensures var r := UpdateWeekSalaries(e, updates, monthKey, period);
      && r.Success?
      && Keep(r.value.rows, InWeeks(EntryKeys(updates)), false) == Keep(e.rows, InWeeks(EntryKeys(updates)), false)
      && Keep(r.value.rows, InWeeks({updates[i].0}), true) == [NewRow(updates[i].0, updates[i].1)]
  {
    UpdateUnfold(e, updates, monthKey, period);
    ReplaceWeeksSpec(e.rows, updates);
    ReplaceWeeksEntry(e.rows, updates, i);
  }

  lemma UpdateUnfold(e: PersonnelEmployee, updates: Entries, monthKey: Option<string>, period: Option<ChargePeriod>)
    requires DistinctKeys(updates)
    requires forall j :: 0 <= j < |updates| ==> ValidUpdateKey(updates[j].0, monthKey)
    ensures AllParse(updates)
    ensures var r := UpdateWeekSalaries(e, updates, monthKey, period);
      r.Success? && r.value.rows == ReplaceWeeks(e.rows, updates)
  {
  }

  /** A successful update keeps the ledger well formed. */
  lemma UpdateWeekSalariesPreserves(e: PersonnelEmployee, updates: Entries, monthKey: Option<string>,
                                    period: Option<ChargePeriod>)
    requires DistinctKeys(updates) && WellFormed(e.rows)
    requires forall j :: 0 <= j < |updates| ==> ValidUpdateKey(updates[j].0, monthKey)
    ensures var r := UpdateWeekSalaries(e, updates, monthKey, period);
      r.Success? && WellFormed(r.value.rows)
  {
    UpdateUnfold(e, updates, monthKey, period);
    ReplaceWeeksPreserves(e.rows, updates);
  }

  // ---------------------------------------------------------------------------
  // The transient week map
  // ---------------------------------------------------------------------------

  /** `map.get(k)`: the value of the entry with key k. */
  function Lookup(es: Entries, k: string): Option<int> {
    if |es| == 0 then None
    else if es[0].0 == k then Some(es[0].1)
    else Lookup(es[1..], k)
  }

  /** `map.put(k, v)`: overwrite the entry of k in place or append one. */
  function Put(es: Entries, k: string, v: int): (r: Entries)
    ensures Lookup(r, k) == Some(v)
    ensures forall j :: j != k ==> Lookup(r, j) == Lookup(es, j)
  {
    if |es| == 0 then [(k, v)]
    else if es[0].0 == k then [(k, v)] + es[1..]
    else [es[0]] + Put(es[1..], k, v)
  }

  /** `rows.stream().collect(toMap(weekKey, amount, (a, b) -> b))`. */
  function EntriesOf(rows: seq<WeekSalary>): Entries {
    if |rows| == 0 then []
    else Put(EntriesOf(rows[..|rows| - 1]), rows[|rows| - 1].weekKey, rows[|rows| - 1].amount)
  }

  /** The amount of the last row of a week. */
  function LastAmount(rows: seq<WeekSalary>, k: string): Option<int> {
    if |rows| == 0 then None
    else if rows[|rows| - 1].weekKey == k then Some(rows[|rows| - 1].amount)
    else LastAmount(rows[..|rows| - 1], k)
  }

  /** The map built from the rows gives each week the amount of its last row. */
  lemma {:induction false} EntriesOfLookup(rows: seq<WeekSalary>, k: string)
    ensures Lookup(EntriesOf(rows), k) == LastAmount(rows, k)
    decreases |rows|
  {
    if |rows| > 0 {
      EntriesOfLookup(rows[..|rows| - 1], k);
    }
  }

  function EntriesTotal(es: Entries): int {
    Sum(seq(|es|, i requires 0 <= i < |es| => es[i].1))
  }

  // ---------------------------------------------------------------------------
  // Charge amounts derived from employees
  // ---------------------------------------------------------------------------

  /** `findFirst` of the rows of a week. */
  function FirstRow(rows: seq<WeekSalary>, k: string): (r: Option<WeekSalary>)
    ensures r.None? <==> forall x :: x in rows ==> x.weekKey != k
    ensures r.Some? ==> r.value in rows && r.value.weekKey == k
  {
    if |rows| == 0 then None
    else if rows[0].weekKey == k then Some(rows[0])
    else FirstRow(rows[1..], k)
  }

  /** One employee's contribution in `calculateTotalAmountFromEmployees`. */
  function EmployeeAmount(emp: PersonnelEmployee, period: ChargePeriod, weekKey: Option<string>): int {
    match period
    case Month =>
      if emp.monthSalary.Some? then emp.monthSalary.value
      else if |emp.rows| > 0 then Total(emp.rows)
      else if |emp.weekSalaries| > 0 then EntriesTotal(emp.weekSalaries)
      else emp.salary.GetOr(0)
    case Week =>
      if weekKey.None? then 0
      else if |emp.rows| > 0 then
        match FirstRow(emp.rows, weekKey.value)
        case Some(row) => row.amount
        case None => 0
      else if Lookup(emp.weekSalaries, weekKey.value).Some? then Lookup(emp.weekSalaries, weekKey.value).value
      else if emp.weekSalary.Some? then emp.weekSalary.value
      else emp.salary.GetOr(0)
  }

  function EmployeesSum(emps: seq<PersonnelEmployee>, period: ChargePeriod, weekKey: Option<string>): int {
    if |emps| == 0 then 0
    else EmployeesSum(emps[..|emps| - 1], period, weekKey) + EmployeeAmount(emps[|emps| - 1], period, weekKey)
  }

  /** `calculateTotalAmountFromEmployees`: the contributions added up and
      rounded HALF_UP to cents. */
  function TotalAmountFromEmployees(emps: seq<PersonnelEmployee>, period: ChargePeriod, weekKey: Option<string>)
    : (r: int)
    ensures r % CENT == 0 && 2 * Abs(EmployeesSum(emps, period, weekKey) - r) <= CENT
  {
    SetScale2(EmployeesSum(emps, period, weekKey))
  }

  /** With rows present, a week's contribution is the amount of that week's
      row, and 0 when the week has no row, whatever the legacy fields hold. */
  lemma WeekAmountFromRows(emp: PersonnelEmployee, weekKey: string)
    requires |emp.rows| > 0 && UniqueWeeks(emp.rows)
    ensures (forall x :: x in emp.rows ==> x.weekKey != weekKey) ==> EmployeeAmount(emp, Week, Some(weekKey)) == 0
    ensures forall i :: 0 <= i < |emp.rows| && emp.rows[i].weekKey == weekKey ==>
      EmployeeAmount(emp, Week, Some(weekKey)) == emp.rows[i].amount
  {
    forall i | 0 <= i < |emp.rows| && emp.rows[i].weekKey == weekKey
      ensures EmployeeAmount(emp, Week, Some(weekKey)) == emp.rows[i].amount
    {
      var r := FirstRow(emp.rows, weekKey).value;
      var j :| 0 <= j < |emp.rows| && emp.rows[j] == r;
      assert i == j;
    }
  }

  /** After `setWeeklySalary`, the employee contributes the new amount to a
      weekly charge of that week. */
  lemma WeekAmountAfterSetWeekly(e: PersonnelEmployee, amount: int, weekKey: string, monthKey: string)
    requires amount > 0 && IsValidWeekKey(weekKey) && WeekOverlapsWithMonth(weekKey, monthKey)
    ensures var r := SetWeeklySalary(e, Some(amount), Some(weekKey), Some(monthKey));
      r.Success? && EmployeeAmount(r.value, Week, Some(weekKey)) == amount
  {
    var kept := Keep(e.rows, InWeeks({weekKey}), false);
    var row := NewRow(weekKey, amount);
    SetWeeklyUnfold(e, amount, weekKey, monthKey);
    assert EntryKeys([(weekKey, amount)]) == {weekKey};
    assert NewRows([(weekKey, amount)]) == [row];
    FirstRowSkip(kept, [row], weekKey);
  }

  lemma {:induction false} FirstRowSkip(a: seq<WeekSalary>, b: seq<WeekSalary>, k: string)
    requires forall x :: x in a ==> x.weekKey != k
    ensures FirstRow(a + b, k) == FirstRow(b, k)
    decreases |a|
  {
    if |a| > 0 {
      assert (a + b)[1..] == a[1..] + b;
      assert (a + b)[0] == a[0] && a[0] in a;
      assert forall x :: x in a[1..] ==> x in a;
      FirstRowSkip(a[1..], b, k);
    } else {
      assert a + b == b;
    }
  }

  /** `calculateAccumulatedAmountForMonth`: the employees' rows of the month
      added up and rounded HALF_UP to cents. */
  function AccumulatedAmountForMonth(emps: seq<PersonnelEmployee>, monthKey: string): (r: int)
    ensures r % CENT == 0 && 2 * Abs(AccumulatedSum(emps, monthKey) - r) <= CENT
  {
    SetScale2(AccumulatedSum(emps, monthKey))
  }

  function AccumulatedSum(emps: seq<PersonnelEmployee>, monthKey: string): int {
    if |emps| == 0 then 0
    else AccumulatedSum(emps[..|emps| - 1], monthKey) + MonthTotal(emps[|emps| - 1].rows, monthKey)
  }

  /** When every employee's month salary is the total of its rows of the
      month (as `setWeeklySalary` leaves it), the accumulated amount shown for
      a weekly charge equals the monthly amount derived from the employees. */
  lemma {:induction false} AccumulatedAgrees(emps: seq<PersonnelEmployee>, monthKey: string, weekKey: Option<string>)
    requires forall i :: 0 <= i < |emps| ==> emps[i].monthSalary == Some(MonthTotal(emps[i].rows, monthKey))
    ensures AccumulatedAmountForMonth(emps, monthKey) == TotalAmountFromEmployees(emps, Month, weekKey)
    ensures AccumulatedSum(emps, monthKey) == EmployeesSum(emps, Month, weekKey)
    decreases |emps|
  {
    if |emps| > 0 {
      AccumulatedAgrees(emps[..|emps| - 1], monthKey, weekKey);
    }
  }
}
