/** The fixed-charge flows of `ChargeService`: validation of a creation
    request, the personnel line items built from a request, and the create
    and update operations, each followed by the trend recomputed against the
    repository.

    Every flow is a function from the repository (and the employee master
    records it consults) to the new repository or to the exception raised;
    the flows are transactional, so a failure changes nothing. */
module Charges {
  import opened Wrappers
  import opened Money
  import opened Keys
  import opened Weeks
  import opened Entities
  import opened Personnel
  import opened Ledger
  import opened Strings

  // ---------------------------------------------------------------------------
  // Requests
  // ---------------------------------------------------------------------------

  /** A `Map<String, BigDecimal>` of week salaries: one entry per week key. */
  type WeekMap = es: Entries | DistinctKeys(es) witness []

  /** `PersonnelEmployeeRequest`, reduced to the fields the flows read;
      `startDate` is an epoch day. */
  datatype EmployeeRequest = EmployeeRequest(
    id: Option<int>,
    name: Option<string>,
    kind: Option<EmployeeType>,
    startDate: Option<int>,
    salary: Option<int>,
    weekSalaries: Option<WeekMap>)

  /** `FixedChargeCreateRequest`; `period` is required by bean validation. */
  datatype CreateRequest = CreateRequest(
    category: ChargeCategory,
    amount: Option<int>,
    period: ChargePeriod,
    monthKey: Option<string>,
    weekKey: Option<string>,
    notes: Option<string>,
    employees: Option<seq<EmployeeRequest>>)

  /** `FixedChargeUpdateRequest`: every field optional. */
  datatype UpdateRequest = UpdateRequest(
    amount: Option<int>,
    period: Option<ChargePeriod>,
    monthKey: Option<string>,
    weekKey: Option<string>,
    notes: Option<string>,
    employees: Option<seq<EmployeeRequest>>)

  /** A stored `Employee` row, reduced to the columns the lookups read. */
  datatype StoredEmployee = StoredEmployee(
    id: int, storeId: int, name: string, kind: Option<EmployeeType>, startDate: Option<int>)

  /** The `employees` table the flows consult. */
  datatype Staff = Staff(employees: seq<StoredEmployee>)

  /** The salary structure a charge period implies. */
  function SalaryKind(period: ChargePeriod): SalaryByPeriod {
    match period
    case Month => MonthlySalary
    case Week => WeeklySalary
  }

  const NoTrend: Trend := Trend(None, None, None, false)

  // ---------------------------------------------------------------------------
  // Validation
  // ---------------------------------------------------------------------------

  /** `validateFixedChargeRequest`.  The presence test on the week key uses
      `isEmpty`, not `trim`, so an all-blank key is refused as malformed
      rather than as missing.  Personnel charges are free in amount and
      period. */
  function ValidateFixedChargeRequest(req: CreateRequest): (r: OutcomeResult<ChargeError>)
    ensures r.Pass'? <==>
      && (req.period == Week ==>
            && req.weekKey.Some? && IsValidWeekKey(req.weekKey.value)
            && (req.monthKey.Some? ==> WeekOverlapsWithMonth(req.weekKey.value, req.monthKey.value)))
      && (req.category != Personnel ==> req.amount.Some? && req.amount.value > 0 && req.period == Month)
    ensures req.period == Week && (req.weekKey.None? || req.weekKey.value == "") ==> r == Fail'(WeekKeyRequired)
    ensures req.period == Week && req.weekKey.Some? && req.weekKey.value != "" && !IsValidWeekKey(req.weekKey.value) ==>
      r == Fail'(InvalidWeekKey)
    ensures req.category != Personnel && req.period == Week && req.weekKey.Some? && IsValidWeekKey(req.weekKey.value)
      && (req.monthKey.Some? ==> WeekOverlapsWithMonth(req.weekKey.value, req.monthKey.value))
      && req.amount.Some? && req.amount.value > 0
      ==> r == Fail'(PeriodMustBeMonth)
  {
    if req.period == Week && (req.weekKey.None? || req.weekKey.value == "") then Fail'(WeekKeyRequired)
    else if req.period == Week && req.weekKey.Some? && !IsValidWeekKey(req.weekKey.value) then Fail'(InvalidWeekKey)
    else if req.period == Week && req.weekKey.Some? && req.monthKey.Some?
      && !WeekOverlapsWithMonth(req.weekKey.value, req.monthKey.value) then Fail'(WeekNotInMonth)
    else if req.category != Personnel && (req.amount.None? || req.amount.value <= 0) then Fail'(AmountNotPositive)
    else if req.category != Personnel && req.period != Month then Fail'(PeriodMustBeMonth)
    else Pass'
  }

  // ---------------------------------------------------------------------------
  // Personnel line items
  // ---------------------------------------------------------------------------

  /** `employeeRepository.findById`: the row with that primary key. */
  function FindEmployee(staff: Staff, id: int): (r: Option<StoredEmployee>)
    ensures r.Some? <==> exists e :: e in staff.employees && e.id == id
    ensures r.Some? ==> r.value in staff.employees && r.value.id == id
  {
    FindEmployeeFrom(staff.employees, id)
  }

  function FindEmployeeFrom(es: seq<StoredEmployee>, id: int): (r: Option<StoredEmployee>)
    ensures r.Some? <==> exists e :: e in es && e.id == id
    ensures r.Some? ==> r.value in es && r.value.id == id
  {
    if |es| == 0 then None
    else if es[0].id == id then Some(es[0])
    else
      assert es == [es[0]] + es[1..];
      FindEmployeeFrom(es[1..], id)
  }

  /** The row condition of `findByStoreIdAndNameAndTypeAndStartDate`: same
      store and name, and the same type and start date unless the parameter
      is null (a null column never equals a given parameter). */
  predicate NameMatch(e: StoredEmployee, storeId: int, name: string, kind: Option<EmployeeType>, startDate: Option<int>) {
    && e.storeId == storeId && e.name == name
    && (kind.None? || e.kind == kind)
    && (startDate.None? || e.startDate == startDate)
  }

  /** The rows that query selects. */
  function NameMatches(staff: Staff, storeId: int, name: string, kind: Option<EmployeeType>, startDate: Option<int>)
    : seq<StoredEmployee>
  {
    Filter(staff.employees, e => NameMatch(e, storeId, name, kind, startDate))
  }

  /** The `Employee` a request line designates: by id, which must exist and
      belong to the caller's store, or by the trimmed name with the type and
      start date: the one stored employee the query selects, or a new one
      when it selects none.  The query returns an `Optional`, so a second
      matching row is an error. */
  function ResolveEmployee(req: EmployeeRequest, storeId: int, staff: Staff): (r: Result<EmployeeRef, ChargeError>)
    ensures req.id.Some? ==>
      (r.Success? <==> FindEmployee(staff, req.id.value).Some? && FindEmployee(staff, req.id.value).value.storeId == storeId)
    ensures req.id.Some? && r.Success? ==> r.value == Existing(req.id.value)
    ensures req.id.Some? && FindEmployee(staff, req.id.value).None? ==> r == Failure(EmployeeNotFound)
    ensures req.id.None? ==> (r == Failure(EmployeeNameRequired) <==> Blank(req.name))
    ensures req.id.None? && r.Success? && r.value.Created? ==>
      r.value == Created(Trim(req.name.value), req.kind, req.startDate)
  {
    match req.id
    case Some(k) =>
      var stored := FindEmployee(staff, k);
      if stored.None? then Failure(EmployeeNotFound)
      else if stored.value.storeId != storeId then Failure(EmployeeOfOtherStore)
      else Success(Existing(k))
    case None =>
      if Blank(req.name) then Failure(EmployeeNameRequired)
      else
        LookupByName(staff, storeId, Trim(req.name.value), req.kind, req.startDate)
  }

  /** `findByStoreIdAndNameAndTypeAndStartDate` followed by the reuse or the
      creation of the employee. */
  function LookupByName(staff: Staff, storeId: int, name: string, kind: Option<EmployeeType>, startDate: Option<int>)
    : (r: Result<EmployeeRef, ChargeError>)
    ensures r.Success? && r.value.Created? ==> r.value == Created(name, kind, startDate)
    ensures r.Failure? ==> r.error == EmployeeNotUnique
  {
    var found := NameMatches(staff, storeId, name, kind, startDate);
    if |found| == 0 then Success(Created(name, kind, startDate))
    else if |found| == 1 then Success(Existing(found[0].id))
    else Failure(EmployeeNotUnique)
  }

  /** The name lookup creates a new employee iff no stored row matches. */
  lemma LookupCreates(staff: Staff, storeId: int, name: string, kind: Option<EmployeeType>, startDate: Option<int>)
    ensures var es := staff.employees;
      LookupByName(staff, storeId, name, kind, startDate) == Success(Created(name, kind, startDate)) <==>
        forall i :: 0 <= i < |es| ==> !NameMatch(es[i], storeId, name, kind, startDate)
  {
    FilterNone(staff.employees, e => NameMatch(e, storeId, name, kind, startDate));
  }

  /** The name lookup reuses a stored employee iff exactly one row matches,
      and then it is that row's employee. */
  lemma LookupReuses(staff: Staff, storeId: int, name: string, kind: Option<EmployeeType>, startDate: Option<int>)
    ensures var es := staff.employees;
      var r := LookupByName(staff, storeId, name, kind, startDate);
      && (r.Success? && r.value.Existing? <==>
            exists i :: 0 <= i < |es| && NameMatch(es[i], storeId, name, kind, startDate) &&
              forall j :: 0 <= j < |es| && j != i ==> !NameMatch(es[j], storeId, name, kind, startDate))
      && (r.Success? && r.value.Existing? ==>
            exists e :: e in es && e.id == r.value.employeeId && NameMatch(e, storeId, name, kind, startDate))
  {
    FilterOne(staff.employees, e => NameMatch(e, storeId, name, kind, startDate));
  }

  /** The name lookup fails iff two stored rows match. */
  lemma LookupAmbiguous(staff: Staff, storeId: int, name: string, kind: Option<EmployeeType>, startDate: Option<int>)
    ensures var es := staff.employees;
      LookupByName(staff, storeId, name, kind, startDate) == Failure(EmployeeNotUnique) <==>
        exists i, j :: 0 <= i < j < |es| && NameMatch(es[i], storeId, name, kind, startDate)
          && NameMatch(es[j], storeId, name, kind, startDate)
  {
    FilterTwo(staff.employees, e => NameMatch(e, storeId, name, kind, startDate));
  }

  /** A request line without an id resolves through the lookup under its
      trimmed name. */
  lemma ResolveByName(req: EmployeeRequest, storeId: int, staff: Staff)
    requires req.id.None? && !Blank(req.name)
    ensures ResolveEmployee(req, storeId, staff) == LookupByName(staff, storeId, Trim(req.name.value), req.kind, req.startDate)
    ensures Trim(req.name.value) != "" && Trim(Trim(req.name.value)) == Trim(req.name.value)
  {
    BlankIffTrimEmpty(req.name.value);
    TrimIdempotent(req.name.value);
  }

  /** A filter keeps exactly one element iff exactly one position passes;
      the element kept is then that one. */
  lemma FilterOne<T(!new)>(s: seq<T>, p: T -> bool)
    ensures |Filter(s, p)| == 1 <==>
      exists i :: 0 <= i < |s| && p(s[i]) && forall j :: 0 <= j < |s| && j != i ==> !p(s[j])
    ensures |Filter(s, p)| == 1 ==> Filter(s, p)[0] in s && p(Filter(s, p)[0])
  {
    FilterNone(s, p);
    FilterTwo(s, p);
    assert Filter(s, p) != [] ==> Filter(s, p)[0] in Filter(s, p);
    if exists i :: 0 <= i < |s| && p(s[i]) && forall j :: 0 <= j < |s| && j != i ==> !p(s[j]) {
      var i :| 0 <= i < |s| && p(s[i]) && forall j :: 0 <= j < |s| && j != i ==> !p(s[j]);
      forall a, b | 0 <= a < b < |s|
        ensures !(p(s[a]) && p(s[b]))
      {
        assert a != i || b != i;
      }
    }
  }

  /** A filter keeps nothing iff no element passes. */
  lemma FilterNone<T(!new)>(s: seq<T>, p: T -> bool)
    ensures |Filter(s, p)| == 0 <==> forall i :: 0 <= i < |s| ==> !p(s[i])
  {
    if |Filter(s, p)| > 0 {
      assert Filter(s, p)[0] in Filter(s, p);
    }
  }

  /** A filter keeps two elements or more iff two positions pass. */
  lemma {:induction false} FilterTwo<T(!new)>(s: seq<T>, p: T -> bool)
    ensures |Filter(s, p)| >= 2 <==> exists i, j :: 0 <= i < j < |s| && p(s[i]) && p(s[j])
  {
    if |s| > 0 {
      FilterTwo(s[1..], p);
      FilterNone(s[1..], p);
      if |Filter(s, p)| >= 2 {
        if p(s[0]) {
          var j :| 0 <= j < |s[1..]| && p(s[1..][j]);
          assert p(s[0]) && p(s[j + 1]);
        } else {
          var i, j :| 0 <= i < j < |s[1..]| && p(s[1..][i]) && p(s[1..][j]);
          assert p(s[i + 1]) && p(s[j + 1]);
        }
      }
      if exists i, j :: 0 <= i < j < |s| && p(s[i]) && p(s[j]) {
        var i, j :| 0 <= i < j < |s| && p(s[i]) && p(s[j]);
        if i == 0 {
          assert p(s[1..][j - 1]);
        } else {
          assert p(s[1..][i - 1]) && p(s[1..][j - 1]);
        }
      }
    }
  }

  /** A line item as the builder leaves it: linked, unsaved, no salary yet. */
  function Unsaved(ref: EmployeeRef): PersonnelEmployee {
    PersonnelEmployee(None, ref, [], [], None, None, None, None)
  }

  lemma UnsavedMonthRows(ref: EmployeeRef, salary: int, monthKey: string)
    requires salary > 0
    ensures var r := DistributeSalary(Unsaved(ref), Some(salary), Some(monthKey));
      r.Success? ==> r.value.rows == OwnedRows(salary, monthKey)
  {
    if ParseMonthKey(monthKey).Some? {
      DistributeOverNoRows(Unsaved(ref), salary, monthKey);
    }
  }

  lemma DistributeOverNoRows(e: PersonnelEmployee, salary: int, monthKey: string)
    requires salary > 0 && ParseMonthKey(monthKey).Some? && e.rows == []
    ensures var r := DistributeSalary(e, Some(salary), Some(monthKey));
      r.Success? && r.value.rows == OwnedRows(salary, monthKey)
  {
    DistributeSalaryUnfold(e, salary, monthKey);
    assert Keep(e.rows, InMonth(monthKey), false) == [];
    assert [] + OwnedRows(salary, monthKey) == OwnedRows(salary, monthKey);
  }

  lemma SetWeekOnNoRows(e: PersonnelEmployee, salary: int, weekKey: string, monthKey: string)
    requires salary > 0 && IsValidWeekKey(weekKey) && WeekOverlapsWithMonth(weekKey, monthKey) && e.rows == []
    ensures var r := SetWeeklySalary(e, Some(salary), Some(weekKey), Some(monthKey));
      r.Success? && r.value.rows == [NewRow(weekKey, salary)]
  {
    SetWeeklyUnfold(e, salary, weekKey, monthKey);
    assert NewRows([(weekKey, salary)]) == [NewRow(weekKey, salary)];
    assert Keep(e.rows, InWeeks(EntryKeys([(weekKey, salary)])), false) == [];
    assert [] + [NewRow(weekKey, salary)] == [NewRow(weekKey, salary)];
  }

  lemma UnsavedWeekRows(ref: EmployeeRef, salary: int, weekKey: string, monthKey: string)
    requires salary > 0
    ensures var r := SetWeeklySalary(Unsaved(ref), Some(salary), Some(weekKey), Some(monthKey));
      r.Success? ==>
        && r.value.rows == [NewRow(weekKey, salary)]
        && EmployeeAmount(r.value, Week, Some(weekKey)) == salary
  {
    if IsValidWeekKey(weekKey) && WeekOverlapsWithMonth(weekKey, monthKey) {
      SetWeekOnNoRows(Unsaved(ref), salary, weekKey, monthKey);
      WeekAmountAfterSetWeekly(Unsaved(ref), salary, weekKey, monthKey);
    }
  }

  /** The salary part of a new line item in `processEmployees` (and of a
      line added by an update): a positive salary is required, then the
      month keys the period needs, then the salary is distributed over the
      month or set on the week. */
  function NewLine(ref: EmployeeRef, req: EmployeeRequest, period: ChargePeriod,
                   monthKey: Option<string>, weekKey: Option<string>): (r: Result<PersonnelEmployee, ChargeError>)
    ensures !(req.salary.Some? && req.salary.value > 0) ==> r == Failure(SalaryNotPositive)
    ensures r.Success? <==>
      && req.salary.Some? && req.salary.value > 0
      && (period == Month ==> !Blank(monthKey) && ParseMonthKey(monthKey.value).Some?)
      && (period == Week ==>
            && !Blank(weekKey) && !Blank(monthKey)
            && IsValidWeekKey(weekKey.value) && WeekOverlapsWithMonth(weekKey.value, monthKey.value))
    ensures r.Success? ==>
      && r.value.id.None? && r.value.employee == ref
      && r.value.salaryByPeriod == Some(SalaryKind(period))
    ensures r.Success? && period == Month ==>
      r.value.rows == OwnedRows(req.salary.value, monthKey.value) && r.value.monthSalary == req.salary
    ensures r.Success? && period == Week ==>
      && r.value.rows == [NewRow(weekKey.value, req.salary.value)]
      && EmployeeAmount(r.value, Week, weekKey) == req.salary.value
  {
    if !(req.salary.Some? && req.salary.value > 0) then Failure(SalaryNotPositive) else
    match period
    case Month =>
      :- Need(!Blank(monthKey), MonthKeyRequired);
      UnsavedMonthRows(ref, req.salary.value, monthKey.value);
      DistributeSalary(Unsaved(ref), req.salary, monthKey)
    case Week =>
      :- Need(!Blank(weekKey), WeekKeyRequired);
      :- Need(!Blank(monthKey), MonthKeyRequired);
      UnsavedWeekRows(ref, req.salary.value, weekKey.value, monthKey.value);
      SetWeeklySalary(Unsaved(ref), req.salary, weekKey, monthKey)
  }

  /** One request line of `processEmployees`: resolve the employee, then
      build the line item. */
  function LineFor(req: EmployeeRequest, period: ChargePeriod, monthKey: Option<string>, weekKey: Option<string>,
                   storeId: int, staff: Staff): (r: Result<PersonnelEmployee, ChargeError>)
    ensures r.Success? ==> ResolveEmployee(req, storeId, staff) == Success(r.value.employee)
    ensures ResolveEmployee(req, storeId, staff).Failure? ==> r == Failure(ResolveEmployee(req, storeId, staff).error)
  {
    var ref :- ResolveEmployee(req, storeId, staff);
    NewLine(ref, req, period, monthKey, weekKey)
  }

  /** `processEmployees`: one new line item per request line, in order; the
      first line that fails decides the error. */
  function ProcessEmployees(reqs: seq<EmployeeRequest>, period: ChargePeriod, monthKey: Option<string>,
                            weekKey: Option<string>, storeId: int, staff: Staff)
    : (r: Result<seq<PersonnelEmployee>, ChargeError>)
    ensures r.Success? <==> forall i :: 0 <= i < |reqs| ==> LineFor(reqs[i], period, monthKey, weekKey, storeId, staff).Success?
    ensures r.Success? ==> |r.value| == |reqs|
    ensures r.Success? ==> forall i :: 0 <= i < |reqs| ==>
      LineFor(reqs[i], period, monthKey, weekKey, storeId, staff) == Success(r.value[i])
    ensures r.Failure? ==>
      exists i :: 0 <= i < |reqs| && LineFor(reqs[i], period, monthKey, weekKey, storeId, staff) == Failure(r.error) &&
        (forall j :: 0 <= j < i ==> LineFor(reqs[j], period, monthKey, weekKey, storeId, staff).Success?)
  {
    Collect(Lines(reqs, period, monthKey, weekKey, storeId, staff))
  }

  /** The outcome of every request line, in order. */
  function Lines(reqs: seq<EmployeeRequest>, period: ChargePeriod, monthKey: Option<string>,
                 weekKey: Option<string>, storeId: int, staff: Staff)
    : (rs: seq<Result<PersonnelEmployee, ChargeError>>)
    ensures |rs| == |reqs|
    ensures forall i :: 0 <= i < |reqs| ==> rs[i] == LineFor(reqs[i], period, monthKey, weekKey, storeId, staff)
  {
    Map(reqs, LineOf(period, monthKey, weekKey, storeId, staff))
  }

  function LineOf(period: ChargePeriod, monthKey: Option<string>, weekKey: Option<string>, storeId: int, staff: Staff)
    : EmployeeRequest -> Result<PersonnelEmployee, ChargeError>
  {
    req => LineFor(req, period, monthKey, weekKey, storeId, staff)
  }

  /** Processing two runs of request lines one after the other is
      processing their concatenation: the first run's error wins, then the
      second's, and otherwise the line items are the two results joined. */
  lemma ProcessEmployeesSplit(a: seq<EmployeeRequest>, b: seq<EmployeeRequest>, period: ChargePeriod,
                              monthKey: Option<string>, weekKey: Option<string>, storeId: int, staff: Staff)
    ensures var ra := ProcessEmployees(a, period, monthKey, weekKey, storeId, staff);
      var rb := ProcessEmployees(b, period, monthKey, weekKey, storeId, staff);
      ProcessEmployees(a + b, period, monthKey, weekKey, storeId, staff) ==
        if ra.Failure? then Failure(ra.error)
        else if rb.Failure? then Failure(rb.error)
        else Success(ra.value + rb.value)
  {
    var f := LineOf(period, monthKey, weekKey, storeId, staff);
    MapAppend(a, b, f);
    CollectAppend(Map(a, f), Map(b, f));
  }

  // ---------------------------------------------------------------------------
  // createFixedCharge
  // ---------------------------------------------------------------------------

  /** The personnel branch of `createFixedCharge`: at least one employee,
      the line items built from the request, and the amount derived from
      them when the request gives none or zero. */
  function PersonnelCharge(base: FixedCharge, req: CreateRequest, storeId: int, staff: Staff)
    : (r: Result<FixedCharge, ChargeError>)
    ensures req.employees.None? || |req.employees.value| == 0 ==> r == Failure(EmployeesRequired)
    ensures r.Success? <==> (req.employees.Some? && |req.employees.value| > 0 &&
      ProcessEmployees(req.employees.value, req.period, req.monthKey, req.weekKey, storeId, staff).Success?)
    ensures r.Success? ==>
      && r.value == base.(employees := r.value.employees, amount := r.value.amount)
      && r.value.employees == ProcessEmployees(req.employees.value, req.period, req.monthKey, req.weekKey, storeId, staff).value
      && r.value.amount ==
           (if req.amount.None? || req.amount.value == 0
            then TotalAmountFromEmployees(r.value.employees, req.period, req.weekKey)
            else req.amount.value)
  {
    if req.employees.None? || |req.employees.value| == 0 then Failure(EmployeesRequired)
    else
      var emps :- ProcessEmployees(req.employees.value, req.period, req.monthKey, req.weekKey, storeId, staff);
      Success(base.(
        employees := emps,
        amount := if req.amount.None? || req.amount.value == 0
                  then TotalAmountFromEmployees(emps, req.period, req.weekKey)
                  else req.amount.value))
  }

  /** `createFixedCharge`: the new charge, with the id the database assigns,
      is appended after validation; its trend is computed against the
      charges stored before it. */
  function CreateFixedCharge(charges: seq<FixedCharge>, req: CreateRequest, storeId: int, newId: int, staff: Staff)
    : (r: Result<seq<FixedCharge>, ChargeError>)
    ensures ValidateFixedChargeRequest(req).Fail'? ==> r == Failure(ValidateFixedChargeRequest(req).error)
    ensures r.Success? <==>
      && ValidateFixedChargeRequest(req).Pass'?
      && (req.category == Personnel ==>
            && req.employees.Some? && |req.employees.value| > 0
            && ProcessEmployees(req.employees.value, req.period, req.monthKey, req.weekKey, storeId, staff).Success?)
    ensures r.Success? ==> |r.value| == |charges| + 1 && r.value[..|charges|] == charges
    ensures r.Success? ==> var c := r.value[|charges|];
      && c.id == newId && c.storeId == storeId && c.category == req.category && c.period == req.period
      && c.monthKey == req.monthKey && c.weekKey == req.weekKey && c.notes == req.notes
      && (c.period == Week ==>
            c.weekKey.Some? && IsValidWeekKey(c.weekKey.value) &&
            (c.monthKey.Some? ==> WeekOverlapsWithMonth(c.weekKey.value, c.monthKey.value)))
      && (c.category != Personnel ==> c.period == Month && c.amount == req.amount.value && c.amount > 0 && c.employees == [])
      && (c.category == Personnel ==>
            && Success(c.employees) == ProcessEmployees(req.employees.value, req.period, req.monthKey, req.weekKey, storeId, staff)
            && c.amount == (if req.amount.None? || req.amount.value == 0
                            then TotalAmountFromEmployees(c.employees, c.period, c.weekKey)
                            else req.amount.value))
      && c.trend == CalculateTrend(charges, c, storeId)
  {
    var valid := ValidateFixedChargeRequest(req);
    if valid.Fail'? then Failure(valid.error) else
    var base := FixedCharge(newId, storeId, req.category, 0, req.period, req.monthKey, req.weekKey, NoTrend, req.notes, []);
    var c :-
      if req.category == Personnel then PersonnelCharge(base, req, storeId, staff)
      else if req.amount.None? || req.amount.value <= 0 then Failure(AmountNotPositive)
      else Success(base.(amount := req.amount.value));
    var saved := c.(trend := CalculateTrend(charges, c, storeId));
    assert (charges + [saved])[..|charges|] == charges;
    Success(charges + [saved])
  }

  /** One employee at 500.00 on a weekly charge without an amount gives a
      charge of 500.00. */
  lemma CreateWeeklyExample()
    ensures var req := CreateRequest(Personnel, None, Week, Some("2024-05"), Some("2024-04-29"), None,
                                     Some([EmployeeRequest(Some(7), None, None, None, Some(500 * ONE), None)]));
      var r := CreateFixedCharge([], req, 1, 1, Staff([StoredEmployee(7, 1, "Sara", None, None)]));
      r.Success? && r.value[0].amount == 500 * ONE
  {
    var er := EmployeeRequest(Some(7), None, None, None, Some(500 * ONE), None);
    var req := CreateRequest(Personnel, None, Week, Some("2024-05"), Some("2024-04-29"), None, Some([er]));
    var staff := Staff([StoredEmployee(7, 1, "Sara", None, None)]);
    var line := ExampleEmployees(er, staff);
    ExampleRequestValid(req);
    var r := CreateFixedCharge([], req, 1, 1, staff);
    assert r.Success?;
    assert r.value[0].employees == [line];
  }

  lemma ExampleRequestValid(req: CreateRequest)
    requires req == CreateRequest(Personnel, None, Week, Some("2024-05"), Some("2024-04-29"), None,
                                  Some([EmployeeRequest(Some(7), None, None, None, Some(500 * ONE), None)]))
    ensures ValidateFixedChargeRequest(req).Pass'?
  {
    BoundaryWeekNotCounted();
  }

  lemma ExampleEmployees(er: EmployeeRequest, staff: Staff) returns (line: PersonnelEmployee)
    requires er == EmployeeRequest(Some(7), None, None, None, Some(500 * ONE), None) && staff == Staff([StoredEmployee(7, 1, "Sara", None, None)])
    ensures ProcessEmployees([er], Week, Some("2024-05"), Some("2024-04-29"), 1, staff) == Success([line])
    ensures TotalAmountFromEmployees([line], Week, Some("2024-04-29")) == 500 * ONE
  {
    line := ExampleLine(er, staff);
    SingleLine(er, Week, Some("2024-05"), Some("2024-04-29"), 1, staff, line);
    SingleLineTotal(line, Some("2024-04-29"));
  }

  lemma SingleLine(er: EmployeeRequest, period: ChargePeriod, monthKey: Option<string>, weekKey: Option<string>,
                   storeId: int, staff: Staff, line: PersonnelEmployee)
    requires LineFor(er, period, monthKey, weekKey, storeId, staff) == Success(line)
    ensures ProcessEmployees([er], period, monthKey, weekKey, storeId, staff) == Success([line])
  {
    var r := ProcessEmployees([er], period, monthKey, weekKey, storeId, staff);
    assert [er][0] == er;
    assert r.Success?;
    assert |r.value| == 1 && r.value[0] == line;
    assert r.value == [line];
  }

  lemma SingleLineTotal(line: PersonnelEmployee, weekKey: Option<string>)
    requires EmployeeAmount(line, Week, weekKey) == 500 * ONE
    ensures TotalAmountFromEmployees([line], Week, weekKey) == 500 * ONE
  {
    assert [line][..0] == [];
    assert EmployeesSum([line], Week, weekKey) == 5000000;
    SetScale2Cents(5000000);
  }

  lemma ExampleLine(er: EmployeeRequest, staff: Staff) returns (line: PersonnelEmployee)
    requires er == EmployeeRequest(Some(7), None, None, None, Some(500 * ONE), None) && staff == Staff([StoredEmployee(7, 1, "Sara", None, None)])
    ensures LineFor(er, Week, Some("2024-05"), Some("2024-04-29"), 1, staff) == Success(line)
    ensures EmployeeAmount(line, Week, Some("2024-04-29")) == 500 * ONE
  {
    assert ResolveEmployee(er, 1, staff) == Success(Existing(7));
    ExampleNewLine(er);
    line := NewLine(Existing(7), er, Week, Some("2024-05"), Some("2024-04-29")).value;
  }

  lemma ExampleNewLine(er: EmployeeRequest)
    requires er == EmployeeRequest(Some(7), None, None, None, Some(500 * ONE), None)
    ensures var r := NewLine(Existing(7), er, Week, Some("2024-05"), Some("2024-04-29"));
      r.Success? && EmployeeAmount(r.value, Week, Some("2024-04-29")) == 500 * ONE
  {
    BoundaryWeekNotCounted();
    CheckedKeysNotBlank("2024-04-29", "2024-05");
  }

  // ---------------------------------------------------------------------------
  // updateFixedCharge
  // ---------------------------------------------------------------------------

  /** The field overwrites at the start of `updateFixedCharge`: each field
      the request carries replaces the stored one. */
  function OverwriteFields(c: FixedCharge, req: UpdateRequest): (r: FixedCharge)
    ensures r.id == c.id && r.storeId == c.storeId && r.category == c.category
    ensures r.employees == c.employees && r.trend == c.trend
    ensures req.period.Some? ==> r.period == req.period.value
    ensures req.period.None? ==> r.period == c.period
  {
    c.(amount := req.amount.GetOr(c.amount),
       period := req.period.GetOr(c.period),
       monthKey := if req.monthKey.Some? then req.monthKey else c.monthKey,
       weekKey := if req.weekKey.Some? then req.weekKey else c.weekKey,
       notes := if req.notes.Some? then req.notes else c.notes)
  }

  /** Overwriting twice with the same request is overwriting once. */
  lemma OverwriteIdempotent(c: FixedCharge, req: UpdateRequest)
    ensures OverwriteFields(OverwriteFields(c, req), req) == OverwriteFields(c, req)
  {
  }

  /** `periodChanged` as written: `oldPeriod` is read after the period has
      been overwritten with the requested one. */
  predicate PeriodChangedAsWritten(c: FixedCharge, req: UpdateRequest) {
    var oldPeriod := OverwriteFields(c, req).period;
    req.period.Some? && req.period.value != oldPeriod
  }

  /** The test as written can never fire, so the full-replacement branch is
      dead. */
  lemma PeriodChangeNeverDetected(c: FixedCharge, req: UpdateRequest)
    ensures !PeriodChangedAsWritten(c, req)
  {
  }

  /** `periodChanged` as intended: the stored period, read before the
      overwrite, differs from the requested one. */
  predicate PeriodChanged(c: FixedCharge, req: UpdateRequest) {
    req.period.Some? && req.period.value != c.period
  }

  /** The intended test fires exactly when the update moves the charge to
      another period, which the written test misses. */
  lemma PeriodChangeDetected(c: FixedCharge, req: UpdateRequest)
    ensures PeriodChanged(c, req) <==> OverwriteFields(c, req).period != c.period
    ensures PeriodChanged(c, req) ==> !PeriodChangedAsWritten(c, req)
  {
  }

  /** `existingEmployeesByEmployeeIdMap.get(..)`: the last of the first n
      line items linked to the given stored employee (the map keeps the last
      `put`).  Employees created by the request are never in the map. */
  function MatchIndex(emps: seq<PersonnelEmployee>, n: nat, ref: EmployeeRef): (r: Option<nat>)
    requires n <= |emps|
    ensures r.Some? ==> r.value < n && emps[r.value].employee == ref && ref.Existing?
    ensures r.Some? ==> forall j :: r.value < j < n ==> emps[j].employee != ref
    ensures r.None? ==> !ref.Existing? || forall i :: 0 <= i < n ==> emps[i].employee != ref
    decreases n
  {
    if n == 0 || !ref.Existing? then None
    else if emps[n - 1].employee == ref then Some(n - 1)
    else MatchIndex(emps, n - 1, ref)
  }

  /** Matching depends only on the employee links of the first n items. */
  lemma {:induction false} MatchIndexLinks(a: seq<PersonnelEmployee>, b: seq<PersonnelEmployee>, n: nat, ref: EmployeeRef)
    requires n <= |a| && n <= |b|
    requires forall i :: 0 <= i < n ==> a[i].employee == b[i].employee
    ensures MatchIndex(a, n, ref) == MatchIndex(b, n, ref)
    decreases n
  {
    if n > 0 && ref.Existing? && a[n - 1].employee != ref {
      MatchIndexLinks(a, b, n - 1, ref);
    }
  }

  /** The update of a matched line item: week salaries first when given,
      then a positive salary redistributed over the month (MONTH) or set on
      the charge's week (WEEK with a week key). */
  function UpdateLine(pe: PersonnelEmployee, req: EmployeeRequest, period: ChargePeriod,
                      monthKey: Option<string>, weekKey: Option<string>): (r: Result<PersonnelEmployee, ChargeError>)
    ensures r.Success? ==> r.value.id == pe.id && r.value.employee == pe.employee
    ensures req.weekSalaries.None? && req.salary.None? ==> r == Success(pe)
  {
    var pe1 :-
      if req.weekSalaries.Some? && |req.weekSalaries.value| > 0
      then UpdateWeekSalaries(pe, req.weekSalaries.value, monthKey, Some(period))
      else Success(pe);
    if req.salary.Some? && req.salary.value > 0 then
      match period
      case Month => DistributeSalary(pe1, req.salary, monthKey)
      case Week => if weekKey.Some? then SetWeeklySalary(pe1, req.salary, weekKey, monthKey) else Success(pe1)
    else Success(pe1)
  }

  /** The working state of the merge loop: the charge's line items (the
      stored ones first) and the ids of the stored items a request line has
      claimed. */
  datatype MergeState = MergeState(emps: seq<PersonnelEmployee>, kept: set<int>)

  /** The three per-line operations of the merge loop: resolving the
      employee, updating a matched line item, and building a new one. */
  datatype LineOps = LineOps(
    resolve: EmployeeRequest -> Result<EmployeeRef, ChargeError>,
    update: (PersonnelEmployee, EmployeeRequest) -> Result<PersonnelEmployee, ChargeError>,
    create: (EmployeeRef, EmployeeRequest) -> Result<PersonnelEmployee, ChargeError>)

  /** The operations `updateFixedCharge` uses for a charge of the given
      period and keys. */
  function Ops(period: ChargePeriod, monthKey: Option<string>, weekKey: Option<string>, storeId: int, staff: Staff)
    : (ops: LineOps)
    ensures forall req :: ops.resolve(req) == ResolveEmployee(req, storeId, staff)
  {
    LineOps(
      req => ResolveEmployee(req, storeId, staff),
      (pe, req) => UpdateLine(pe, req, period, monthKey, weekKey),
      (ref, req) => NewLine(ref, req, period, monthKey, weekKey))
  }

  /** What the loop relies on: an update keeps the item's identity and link,
      and a new item is unsaved, linked, and on the period's structure. */
  ghost predicate OpsFit(ops: LineOps, period: ChargePeriod) {
    && (forall pe, req :: ops.update(pe, req).Success? ==>
          ops.update(pe, req).value.id == pe.id && ops.update(pe, req).value.employee == pe.employee)
    && (forall ref, req :: ops.create(ref, req).Success? ==>
          && ops.create(ref, req).value.id.None? && ops.create(ref, req).value.employee == ref
          && ops.create(ref, req).value.salaryByPeriod == Some(SalaryKind(period)))
  }

  lemma OpsFitHold(period: ChargePeriod, monthKey: Option<string>, weekKey: Option<string>, storeId: int, staff: Staff)
    ensures OpsFit(Ops(period, monthKey, weekKey, storeId, staff), period)
  {
  }

  /** One request line of the period-unchanged branch: a line item already
      linked to the employee is updated in place and kept; otherwise a new
      one is appended. */
  function MergeOne(s: MergeState, n: nat, ref: EmployeeRef, req: EmployeeRequest, ops: LineOps)
    : (r: Result<MergeState, ChargeError>)
    requires n <= |s.emps|
    ensures r.Success? ==> |r.value.emps| >= |s.emps|
  {
    match MatchIndex(s.emps, n, ref)
    case Some(i) =>
      var pe := s.emps[i];
      var updated :- ops.update(pe, req);
      Success(MergeState(s.emps[i := updated], if pe.id.Some? then s.kept + {pe.id.value} else s.kept))
    case None =>
      var added :- ops.create(ref, req);
      Success(MergeState(s.emps + [added], s.kept))
  }

  /** One step of the merge, for a request line resolved to `ref`: stored
      items keep identity and link, only the matched one changes, new items
      are appended, and the matched item's id is claimed. */
  ghost predicate Step(orig: seq<PersonnelEmployee>, s: MergeState, t: MergeState, ref: EmployeeRef, period: ChargePeriod) {
    && |orig| <= |s.emps| <= |t.emps| && s.kept <= t.kept
    && (forall i :: 0 <= i < |s.emps| ==> t.emps[i].id == s.emps[i].id && t.emps[i].employee == s.emps[i].employee)
    && (forall i :: |orig| <= i < |s.emps| ==> t.emps[i] == s.emps[i])
    && (forall i :: |s.emps| <= i < |t.emps| ==>
          t.emps[i].id.None? && t.emps[i].employee == ref && t.emps[i].salaryByPeriod == Some(SalaryKind(period)))
    && (forall p :: p in t.kept - s.kept ==> exists i :: 0 <= i < |orig| && s.emps[i].id == Some(p) && s.emps[i].employee == ref)
    && (match MatchIndex(s.emps, |orig|, ref)
        case Some(i) => s.emps[i].id.Some? ==> s.emps[i].id.value in t.kept
        case None => |t.emps| == |s.emps| + 1)
  }

  lemma MergeOneStep(orig: seq<PersonnelEmployee>, s: MergeState, ref: EmployeeRef, req: EmployeeRequest,
                     ops: LineOps, period: ChargePeriod)
    requires |orig| <= |s.emps| && OpsFit(ops, period)
    requires MergeOne(s, |orig|, ref, req, ops).Success?
    ensures Step(orig, s, MergeOne(s, |orig|, ref, req, ops).value, ref, period)
  {
    match MatchIndex(s.emps, |orig|, ref)
    case Some(i) =>
      assert ops.update(s.emps[i], req).Success?;
    case None =>
      assert ops.create(ref, req).Success?;
  }

  /** The stored line items keep their ids and employee links. */
  ghost predicate LinksKept(orig: seq<PersonnelEmployee>, s: MergeState) {
    && |orig| <= |s.emps|
    && forall i :: 0 <= i < |orig| ==> s.emps[i].id == orig[i].id && s.emps[i].employee == orig[i].employee
  }

  /** The line items added after the stored ones are new, with the salary
      structure of the charge's period. */
  ghost predicate AddedFresh(orig: seq<PersonnelEmployee>, s: MergeState, period: ChargePeriod) {
    forall i :: |orig| <= i < |s.emps| ==> s.emps[i].id.None? && s.emps[i].salaryByPeriod == Some(SalaryKind(period))
  }

  /** A stored id belongs to a line item whose employee a request line names. */
  ghost predicate Claimed(orig: seq<PersonnelEmployee>, p: int, reqs: seq<EmployeeRequest>, ops: LineOps) {
    exists i, j :: 0 <= i < |orig| && 0 <= j < |reqs| && orig[i].id == Some(p) && ops.resolve(reqs[j]) == Success(orig[i].employee)
  }

  /** Every kept id is claimed by a request line. */
  ghost predicate KeptClaimed(orig: seq<PersonnelEmployee>, s: MergeState, reqs: seq<EmployeeRequest>, ops: LineOps) {
    forall p :: p in s.kept ==> Claimed(orig, p, reqs, ops)
  }

  /** A resolved request line has a line item that the final removal keeps,
      and its stored line item, if any, is claimed. */
  ghost predicate Covered(orig: seq<PersonnelEmployee>, s: MergeState, ref: Result<EmployeeRef, ChargeError>) {
    ref.Success? ==>
      && (exists i :: 0 <= i < |s.emps| && s.emps[i].employee == ref.value && (s.emps[i].id.None? || s.emps[i].id.value in s.kept))
      && (match MatchIndex(orig, |orig|, ref.value)
          case Some(m) => orig[m].id.Some? ==> orig[m].id.value in s.kept
          case None => true)
  }

  /** The request lines before k are covered. */
  ghost predicate CoveredBefore(orig: seq<PersonnelEmployee>, s: MergeState, reqs: seq<EmployeeRequest>, k: nat, ops: LineOps)
    requires k <= |reqs|
  {
    forall j :: 0 <= j < k ==> Covered(orig, s, ops.resolve(reqs[j]))
  }

  /** What the merge loop keeps true after the first k request lines. */
  ghost predicate MergeInv(orig: seq<PersonnelEmployee>, s: MergeState, reqs: seq<EmployeeRequest>, k: nat,
                           ops: LineOps, period: ChargePeriod) {
    && k <= |reqs|
    && LinksKept(orig, s)
    && AddedFresh(orig, s, period)
    && KeptClaimed(orig, s, reqs, ops)
    && CoveredBefore(orig, s, reqs, k, ops)
  }

  lemma StepLinks(orig: seq<PersonnelEmployee>, s: MergeState, t: MergeState, ref: EmployeeRef, period: ChargePeriod)
    requires LinksKept(orig, s) && AddedFresh(orig, s, period) && Step(orig, s, t, ref, period)
    ensures LinksKept(orig, t) && AddedFresh(orig, t, period)
  {
  }

  lemma StepKept(orig: seq<PersonnelEmployee>, s: MergeState, t: MergeState, ref: EmployeeRef, period: ChargePeriod,
                 reqs: seq<EmployeeRequest>, k: nat, ops: LineOps)
    requires k < |reqs| && ops.resolve(reqs[k]) == Success(ref)
    requires LinksKept(orig, s) && KeptClaimed(orig, s, reqs, ops) && Step(orig, s, t, ref, period)
    ensures KeptClaimed(orig, t, reqs, ops)
  {
    forall p | p in t.kept ensures Claimed(orig, p, reqs, ops) {
      if p !in s.kept {
        var i :| 0 <= i < |orig| && s.emps[i].id == Some(p) && s.emps[i].employee == ref;
        assert orig[i].id == Some(p) && ops.resolve(reqs[k]) == Success(orig[i].employee);
      }
    }
  }

  lemma StepCoversOld(orig: seq<PersonnelEmployee>, s: MergeState, t: MergeState, ref: EmployeeRef,
                      period: ChargePeriod, r: Result<EmployeeRef, ChargeError>)
    requires Step(orig, s, t, ref, period) && Covered(orig, s, r)
    ensures Covered(orig, t, r)
  {
    if r.Success? {
      var i :| 0 <= i < |s.emps| && s.emps[i].employee == r.value && (s.emps[i].id.None? || s.emps[i].id.value in s.kept);
      assert t.emps[i].employee == r.value && (t.emps[i].id.None? || t.emps[i].id.value in t.kept);
    }
  }

  lemma StepCoversNew(orig: seq<PersonnelEmployee>, s: MergeState, t: MergeState, ref: EmployeeRef, period: ChargePeriod)
    requires LinksKept(orig, s) && Step(orig, s, t, ref, period)
    ensures Covered(orig, t, Success(ref))
  {
    MatchIndexLinks(s.emps, orig, |orig|, ref);
    match MatchIndex(s.emps, |orig|, ref)
    case Some(m) =>
      assert t.emps[m].employee == ref && (t.emps[m].id.None? || t.emps[m].id.value in t.kept);
    case None =>
      assert t.emps[|s.emps|].employee == ref;
  }

  lemma MergeStepInv(orig: seq<PersonnelEmployee>, s: MergeState, reqs: seq<EmployeeRequest>, k: nat,
                     ops: LineOps, period: ChargePeriod, ref: EmployeeRef, t: MergeState)
    requires MergeInv(orig, s, reqs, k, ops, period) && k < |reqs|
    requires ops.resolve(reqs[k]) == Success(ref)
    requires Step(orig, s, t, ref, period)
    ensures MergeInv(orig, t, reqs, k + 1, ops, period)
  {
    StepLinks(orig, s, t, ref, period);
    StepKept(orig, s, t, ref, period, reqs, k, ops);
    forall j | 0 <= j < k + 1 ensures Covered(orig, t, ops.resolve(reqs[j])) {
      if j < k {
        StepCoversOld(orig, s, t, ref, period, ops.resolve(reqs[j]));
      } else {
        StepCoversNew(orig, s, t, ref, period);
      }
    }
  }

  /** The loop over the request lines, from line k on. */
  function MergeFrom(orig: seq<PersonnelEmployee>, s: MergeState, reqs: seq<EmployeeRequest>, k: nat, ops: LineOps)
    : (r: Result<MergeState, ChargeError>)
    requires |orig| <= |s.emps| && k <= |reqs|
    ensures r.Success? ==> |orig| <= |r.value.emps|
    decreases |reqs| - k
  {
    if k == |reqs| then Success(s)
    else
      var ref :- ops.resolve(reqs[k]);
      var t :- MergeOne(s, |orig|, ref, reqs[k], ops);
      MergeFrom(orig, t, reqs, k + 1, ops)
  }

  /** A successful loop resolved line k, took one step, and went on. */
  lemma MergeFromUnfold(orig: seq<PersonnelEmployee>, s: MergeState, reqs: seq<EmployeeRequest>, k: nat,
                        ops: LineOps, period: ChargePeriod)
    returns (ref: EmployeeRef, t: MergeState)
    requires |orig| <= |s.emps| && k < |reqs| && OpsFit(ops, period)
    requires MergeFrom(orig, s, reqs, k, ops).Success?
    ensures ops.resolve(reqs[k]) == Success(ref)
    ensures Step(orig, s, t, ref, period)
    ensures MergeFrom(orig, t, reqs, k + 1, ops) == MergeFrom(orig, s, reqs, k, ops)
  {
    ref := ops.resolve(reqs[k]).value;
    t := MergeOne(s, |orig|, ref, reqs[k], ops).value;
    MergeOneStep(orig, s, ref, reqs[k], ops, period);
  }

  /** The loop keeps its invariant. */
  lemma {:induction false} MergeFromInv(orig: seq<PersonnelEmployee>, s: MergeState, reqs: seq<EmployeeRequest>, k: nat,
                                        ops: LineOps, period: ChargePeriod)
    requires MergeInv(orig, s, reqs, k, ops, period) && OpsFit(ops, period)
    requires MergeFrom(orig, s, reqs, k, ops).Success?
    ensures MergeInv(orig, MergeFrom(orig, s, reqs, k, ops).value, reqs, |reqs|, ops, period)
    decreases |reqs| - k
  {
    if k < |reqs| {
      var ref, t := MergeFromUnfold(orig, s, reqs, k, ops, period);
      MergeStepInv(orig, s, reqs, k, ops, period, ref, t);
      MergeFromInv(orig, t, reqs, k + 1, ops, period);
    }
  }

  /** A loop that succeeds resolved every request line from k on. */
  lemma {:induction false} MergeFromResolves(orig: seq<PersonnelEmployee>, s: MergeState, reqs: seq<EmployeeRequest>,
                                             k: nat, ops: LineOps, period: ChargePeriod, j: int)
    requires |orig| <= |s.emps| && k <= j < |reqs| && OpsFit(ops, period)
    requires MergeFrom(orig, s, reqs, k, ops).Success?
    ensures ops.resolve(reqs[j]).Success?
    decreases |reqs| - k
  {
    var ref, t := MergeFromUnfold(orig, s, reqs, k, ops, period);
    if k < j {
      MergeFromResolves(orig, t, reqs, k + 1, ops, period, j);
    }
  }

  /** `removeIf(emp -> emp.getId() != null && !kept.contains(emp.getId()))`. */
  function RemoveStale(emps: seq<PersonnelEmployee>, kept: set<int>): (r: seq<PersonnelEmployee>)
    ensures forall e :: e in r <==> e in emps && (e.id.None? || e.id.value in kept)
  {
    if |emps| == 0 then []
    else if emps[0].id.None? || emps[0].id.value in kept then [emps[0]] + RemoveStale(emps[1..], kept)
    else RemoveStale(emps[1..], kept)
  }

  /** The period-unchanged branch of `updateFixedCharge`.  A stored line
      item survives only if a request line names its employee; every
      request line ends up with a line item for its employee; and the line
      item a request line names, when stored, survives. */
  function MergeEmployees(orig: seq<PersonnelEmployee>, reqs: seq<EmployeeRequest>, period: ChargePeriod,
                          monthKey: Option<string>, weekKey: Option<string>, storeId: int, staff: Staff)
    : (r: Result<seq<PersonnelEmployee>, ChargeError>)
    ensures r.Success? ==> forall e :: e in r.value && e.id.Some? ==>
      exists i, j :: 0 <= i < |orig| && 0 <= j < |reqs| &&
        orig[i].id == e.id && ResolveEmployee(reqs[j], storeId, staff) == Success(orig[i].employee)
    ensures r.Success? ==> forall j :: 0 <= j < |reqs| ==> ResolveEmployee(reqs[j], storeId, staff).Success?
    ensures r.Success? ==> forall j :: 0 <= j < |reqs| ==>
      exists e :: e in r.value && e.employee == ResolveEmployee(reqs[j], storeId, staff).value
    ensures r.Success? ==> forall j, m :: (0 <= j < |reqs| && 0 <= m < |orig| && orig[m].id.Some? &&
      ResolveEmployee(reqs[j], storeId, staff).Success? &&
      MatchIndex(orig, |orig|, ResolveEmployee(reqs[j], storeId, staff).value) == Some(m)) ==>
        exists e :: e in r.value && e.id == orig[m].id
  {
    var ops := Ops(period, monthKey, weekKey, storeId, staff);
    var start := MergeState(orig, {});
    var s :- MergeFrom(orig, start, reqs, 0, ops);
    OpsFitHold(period, monthKey, weekKey, storeId, staff);
    MergeFromInv(orig, start, reqs, 0, ops, period);
    var out := RemoveStale(s.emps, s.kept);
    MergeOutcome(orig, s, reqs, ops, period, out);
    forall j | 0 <= j < |reqs| ensures ResolveEmployee(reqs[j], storeId, staff).Success? {
      MergeFromResolves(orig, start, reqs, 0, ops, period, j);
    }
    Success(out)
  }

  /** What the final removal leaves, given the loop invariant. */
  lemma MergeOutcome(orig: seq<PersonnelEmployee>, s: MergeState, reqs: seq<EmployeeRequest>, ops: LineOps,
                     period: ChargePeriod, out: seq<PersonnelEmployee>)
    requires MergeInv(orig, s, reqs, |reqs|, ops, period) && out == RemoveStale(s.emps, s.kept)
    ensures forall e :: e in out && e.id.Some? ==> Claimed(orig, e.id.value, reqs, ops)
    ensures forall j :: 0 <= j < |reqs| && ops.resolve(reqs[j]).Success? ==>
      exists e :: e in out && e.employee == ops.resolve(reqs[j]).value
    ensures forall j, m :: (0 <= j < |reqs| && 0 <= m < |orig| && orig[m].id.Some? && ops.resolve(reqs[j]).Success? &&
      MatchIndex(orig, |orig|, ops.resolve(reqs[j]).value) == Some(m)) ==>
        exists e :: e in out && e.id == orig[m].id
  {
    forall j | 0 <= j < |reqs| && ops.resolve(reqs[j]).Success?
      ensures exists e :: e in out && e.employee == ops.resolve(reqs[j]).value
    {
      assert Covered(orig, s, ops.resolve(reqs[j]));
      var i :| 0 <= i < |s.emps| && s.emps[i].employee == ops.resolve(reqs[j]).value
        && (s.emps[i].id.None? || s.emps[i].id.value in s.kept);
      assert s.emps[i] in out;
    }
    forall j, m | 0 <= j < |reqs| && 0 <= m < |orig| && orig[m].id.Some? && ops.resolve(reqs[j]).Success? &&
      MatchIndex(orig, |orig|, ops.resolve(reqs[j]).value) == Some(m)
      ensures exists e :: e in out && e.id == orig[m].id
    {
      assert Covered(orig, s, ops.resolve(reqs[j]));
      assert s.emps[m] in out;
    }
  }

  /** The personnel part of `updateFixedCharge` on the overwritten charge:
      either every line item is rebuilt from the request, or the request is
      merged into the stored line items; then the amount is recomputed from
      the line items unless the request gives one. */
  function UpdateEmployees(c: FixedCharge, req: UpdateRequest, storeId: int, staff: Staff, replaceAll: bool)
    : (r: Result<FixedCharge, ChargeError>)
    requires req.employees.Some?
    ensures r.Success? ==> r.value == c.(employees := r.value.employees, amount := r.value.amount)
    ensures r.Success? && req.amount.None? ==> r.value.amount == TotalAmountFromEmployees(r.value.employees, c.period, c.weekKey)
    ensures r.Success? && req.amount.Some? ==> r.value.amount == c.amount
    ensures r.Success? && replaceAll ==>
      Success(r.value.employees) == ProcessEmployees(req.employees.value, c.period, c.monthKey, c.weekKey, storeId, staff)
    ensures r.Success? && !replaceAll ==>
      Success(r.value.employees) == MergeEmployees(c.employees, req.employees.value, c.period, c.monthKey, c.weekKey, storeId, staff)
  {
    var emps :-
      if replaceAll then ProcessEmployees(req.employees.value, c.period, c.monthKey, c.weekKey, storeId, staff)
      else MergeEmployees(c.employees, req.employees.value, c.period, c.monthKey, c.weekKey, storeId, staff);
    Success(c.(
      employees := emps,
      amount := if req.amount.None? then TotalAmountFromEmployees(emps, c.period, c.weekKey) else c.amount))
  }

  /** The stored charge `c` as `updateFixedCharge` leaves it, before the
      trend: fields overwritten, then the line items rebuilt or merged when
      the request carries employees for a personnel charge. */
  function Revised(c: FixedCharge, req: UpdateRequest, storeId: int, staff: Staff, asWritten: bool)
    : (r: Result<FixedCharge, ChargeError>)
    ensures r.Success? ==>
      && r.value.id == c.id && r.value.storeId == c.storeId && r.value.category == c.category
      && r.value.period == req.period.GetOr(c.period)
      && r.value.monthKey == OverwriteFields(c, req).monthKey && r.value.weekKey == OverwriteFields(c, req).weekKey
      && (req.amount.Some? ==> r.value.amount == req.amount.value)
    ensures !(c.category == Personnel && req.employees.Some?) ==> r == Success(OverwriteFields(c, req))
    ensures c.category == Personnel && req.employees.Some? ==>
      r == UpdateEmployees(OverwriteFields(c, req), req, storeId, staff,
                           if asWritten then PeriodChangedAsWritten(c, req) else PeriodChanged(c, req))
  {
    var c1 := OverwriteFields(c, req);
    var replaceAll := if asWritten then PeriodChangedAsWritten(c, req) else PeriodChanged(c, req);
    if c1.category == Personnel && req.employees.Some? then UpdateEmployees(c1, req, storeId, staff, replaceAll)
    else Success(c1)
  }

  /** `updateFixedCharge` with the period-change test either as written or
      as intended.  The trend query runs after the changes are flushed, so it
      sees the revised charge in the repository. */
  function UpdateWith(charges: seq<FixedCharge>, id: int, storeId: int, req: UpdateRequest, staff: Staff, asWritten: bool)
    : (r: Result<seq<FixedCharge>, ChargeError>)
    ensures FindOwned(charges, ChargeId, ChargeStore, id, storeId).Failure? ==> r == Failure(ChargeNotFound)
    ensures r.Success? ==> |r.value| == |charges|
    ensures r.Success? ==> forall i :: 0 <= i < |charges| && charges[i].id != id ==> r.value[i] == charges[i]
    ensures r.Success? ==> var c := FindOwned(charges, ChargeId, ChargeStore, id, storeId).value;
      && Revised(c, req, storeId, staff, asWritten).Success?
      && var c2 := Revised(c, req, storeId, staff, asWritten).value;
         forall i :: 0 <= i < |charges| && charges[i].id == id ==>
           r.value[i] == c2.(trend := CalculateTrend(ReplaceById(charges, ChargeId, c2), c2, storeId))
  {
    var c :- FindOwned(charges, ChargeId, ChargeStore, id, storeId);
    var c2 :- Revised(c, req, storeId, staff, asWritten);
    var c3 := c2.(trend := CalculateTrend(ReplaceById(charges, ChargeId, c2), c2, storeId));
    Success(ReplaceById(charges, ChargeId, c3))
  }

  /** `updateFixedCharge`, with the period change detected as intended. */
  function UpdateFixedCharge(charges: seq<FixedCharge>, id: int, storeId: int, req: UpdateRequest, staff: Staff)
    : (r: Result<seq<FixedCharge>, ChargeError>)
    requires UniqueIds(charges, ChargeId)
    ensures !(exists c :: c in charges && c.id == id && c.storeId == storeId) ==> r == Failure(ChargeNotFound)
    ensures r.Success? ==> exists c :: c in charges && c.id == id && c.storeId == storeId
    ensures r.Success? ==> |r.value| == |charges|
    ensures r.Success? ==> forall i :: 0 <= i < |charges| && charges[i].id != id ==> r.value[i] == charges[i]
  {
    FindOwnedIff(charges, ChargeId, ChargeStore, id, storeId);
    UpdateWith(charges, id, storeId, req, staff, false)
  }

  /** `updateFixedCharge` exactly as written: the period-change test
      compares the already overwritten period with itself. */
  function UpdateFixedChargeAsWritten(charges: seq<FixedCharge>, id: int, storeId: int, req: UpdateRequest, staff: Staff)
    : (r: Result<seq<FixedCharge>, ChargeError>)
    requires UniqueIds(charges, ChargeId)
    ensures !(exists c :: c in charges && c.id == id && c.storeId == storeId) ==> r == Failure(ChargeNotFound)
    ensures r.Success? ==> exists c :: c in charges && c.id == id && c.storeId == storeId
    ensures r.Success? ==> |r.value| == |charges|
    ensures r.Success? ==> forall i :: 0 <= i < |charges| && charges[i].id != id ==> r.value[i] == charges[i]
  {
    FindOwnedIff(charges, ChargeId, ChargeStore, id, storeId);
    UpdateWith(charges, id, storeId, req, staff, true)
  }

  /** With unique ids, the record the update starts from is the stored one. */
  lemma OwnedIsStored(charges: seq<FixedCharge>, id: int, storeId: int, k: int)
    requires UniqueIds(charges, ChargeId) && 0 <= k < |charges| && charges[k].id == id && charges[k].storeId == storeId
    ensures FindOwned(charges, ChargeId, ChargeStore, id, storeId) == Success(charges[k])
  {
    FindOwnedIff(charges, ChargeId, ChargeStore, id, storeId);
    var c := FindOwned(charges, ChargeId, ChargeStore, id, storeId).value;
    var i :| 0 <= i < |charges| && charges[i] == c;
  }

  /** The updated charge, with the period-change test as intended:
      identity, store and category kept, the requested fields applied, and a
      trend whose predecessor is another stored charge, never the charge
      itself. */
  lemma UpdatedCharge(charges: seq<FixedCharge>, id: int, storeId: int, req: UpdateRequest, staff: Staff, k: int)
    requires UniqueIds(charges, ChargeId) && 0 <= k < |charges| && charges[k].id == id && charges[k].storeId == storeId
    requires UpdateFixedCharge(charges, id, storeId, req, staff).Success?
    ensures var c := UpdateFixedCharge(charges, id, storeId, req, staff).value[k];
      && c.id == id && c.storeId == storeId && c.category == charges[k].category
      && c.period == req.period.GetOr(charges[k].period)
      && (req.amount.Some? ==> c.amount == req.amount.value)
      && (req.monthKey.Some? ==> c.monthKey == req.monthKey)
      && (req.weekKey.Some? ==> c.weekKey == req.weekKey)
      && (c.trend.previousAmount.Some? ==>
            exists d :: d in charges && d.id != id &&
              IsPrevious(d, storeId, c.category, c.period, c.monthKey, c.weekKey.GetOr("")))
  {
    UpdatedChargeWith(charges, id, storeId, req, staff, k, false);
  }

  /** The same for the code as written: the fields, identity and trend of
      the updated charge do not depend on the period-change test. */
  lemma UpdatedChargeAsWritten(charges: seq<FixedCharge>, id: int, storeId: int, req: UpdateRequest, staff: Staff, k: int)
    requires UniqueIds(charges, ChargeId) && 0 <= k < |charges| && charges[k].id == id && charges[k].storeId == storeId
    requires UpdateFixedChargeAsWritten(charges, id, storeId, req, staff).Success?
    ensures var c := UpdateFixedChargeAsWritten(charges, id, storeId, req, staff).value[k];
      && c.id == id && c.storeId == storeId && c.category == charges[k].category
      && c.period == req.period.GetOr(charges[k].period)
      && (req.amount.Some? ==> c.amount == req.amount.value)
      && (req.monthKey.Some? ==> c.monthKey == req.monthKey)
      && (req.weekKey.Some? ==> c.weekKey == req.weekKey)
      && (c.trend.previousAmount.Some? ==>
            exists d :: d in charges && d.id != id &&
              IsPrevious(d, storeId, c.category, c.period, c.monthKey, c.weekKey.GetOr("")))
  {
    UpdatedChargeWith(charges, id, storeId, req, staff, k, true);
  }

  lemma UpdatedChargeWith(charges: seq<FixedCharge>, id: int, storeId: int, req: UpdateRequest, staff: Staff, k: int,
                          asWritten: bool)
    requires UniqueIds(charges, ChargeId) && 0 <= k < |charges| && charges[k].id == id && charges[k].storeId == storeId
    requires UpdateWith(charges, id, storeId, req, staff, asWritten).Success?
    ensures var c := UpdateWith(charges, id, storeId, req, staff, asWritten).value[k];
      && c.id == id && c.storeId == storeId && c.category == charges[k].category
      && c.period == req.period.GetOr(charges[k].period)
      && (req.amount.Some? ==> c.amount == req.amount.value)
      && (req.monthKey.Some? ==> c.monthKey == req.monthKey)
      && (req.weekKey.Some? ==> c.weekKey == req.weekKey)
      && (c.trend.previousAmount.Some? ==>
            exists d :: d in charges && d.id != id &&
              IsPrevious(d, storeId, c.category, c.period, c.monthKey, c.weekKey.GetOr("")))
  {
    OwnedIsStored(charges, id, storeId, k);
    var c2 := Revised(charges[k], req, storeId, staff, asWritten).value;
    var flushed := ReplaceById(charges, ChargeId, c2);
    var p := PreviousCharge(flushed, c2, storeId);
    if p.Some? {
      NeverOwnPredecessor(c2, storeId);
      var i :| 0 <= i < |flushed| && flushed[i] == p.value;
      assert charges[i] == p.value && charges[i].id != id;
    }
  }

  /** With the intended test, moving a personnel charge to another period
      rebuilds every line item from the request: none of the stored items
      survives, and each new one carries the salary structure of the new
      period. */
  lemma UpdatePeriodChangeReplaces(charges: seq<FixedCharge>, id: int, storeId: int, req: UpdateRequest, staff: Staff, k: int)
    requires UniqueIds(charges, ChargeId) && 0 <= k < |charges| && charges[k].id == id && charges[k].storeId == storeId
    requires charges[k].category == Personnel && req.employees.Some? && PeriodChanged(charges[k], req)
    requires UpdateFixedCharge(charges, id, storeId, req, staff).Success?
    ensures var c := UpdateFixedCharge(charges, id, storeId, req, staff).value[k];
      && |c.employees| == |req.employees.value|
      && forall e :: e in c.employees ==> e.id.None? && e.salaryByPeriod == Some(SalaryKind(req.period.value))
  {
    OwnedIsStored(charges, id, storeId, k);
    var c1 := OverwriteFields(charges[k], req);
    var emps := ProcessEmployees(req.employees.value, c1.period, c1.monthKey, c1.weekKey, storeId, staff).value;
    forall e | e in emps ensures e.id.None? && e.salaryByPeriod == Some(SalaryKind(req.period.value)) {
      var i :| 0 <= i < |emps| && emps[i] == e;
    }
  }

  /** As written, the same request merges instead: a stored line item whose
      employee the request names survives the period change with its stored
      id, keeping the salary structure of the old period unless a new
      salary is given. */
  lemma UpdateAsWrittenKeepsStoredLines(charges: seq<FixedCharge>, id: int, storeId: int, req: UpdateRequest,
                                        staff: Staff, k: int, j: int, m: int)
    requires UniqueIds(charges, ChargeId) && 0 <= k < |charges| && charges[k].id == id && charges[k].storeId == storeId
    requires charges[k].category == Personnel && req.employees.Some? && PeriodChanged(charges[k], req)
    requires 0 <= j < |req.employees.value| && 0 <= m < |charges[k].employees| && charges[k].employees[m].id.Some?
    requires ResolveEmployee(req.employees.value[j], storeId, staff) == Success(charges[k].employees[m].employee)
    requires MatchIndex(charges[k].employees, |charges[k].employees|, charges[k].employees[m].employee) == Some(m)
    requires UpdateFixedChargeAsWritten(charges, id, storeId, req, staff).Success?
    ensures var c := UpdateFixedChargeAsWritten(charges, id, storeId, req, staff).value[k];
      exists e :: e in c.employees && e.id == charges[k].employees[m].id
  {
    OwnedIsStored(charges, id, storeId, k);
    PeriodChangeNeverDetected(charges[k], req);
    var c1 := OverwriteFields(charges[k], req);
    var merged := MergeEmployees(c1.employees, req.employees.value, c1.period, c1.monthKey, c1.weekKey, storeId, staff);
    assert merged.Success?;
  }

  // ---------------------------------------------------------------------------
  // Response amount
  // ---------------------------------------------------------------------------

  /** The amount `toFixedChargeResponse` reports: for a weekly personnel
      charge with a month, the month's accumulated salaries; otherwise the
      stored amount. */
  function ResponseAmount(c: FixedCharge): (r: int)
    ensures c.category == Personnel && c.period == Week && c.monthKey.Some? ==>
      r % CENT == 0 && 2 * Abs(AccumulatedSum(c.employees, c.monthKey.value) - r) <= CENT
    ensures !(c.category == Personnel && c.period == Week && c.monthKey.Some?) ==> r == c.amount
  {
    if c.category == Personnel && c.period == Week && c.monthKey.Some?
    then AccumulatedAmountForMonth(c.employees, c.monthKey.value)
    else c.amount
  }

  /** For a weekly personnel charge whose line items carry their month's
      totals, the reported amount is what a monthly charge over the same
      line items would derive. */
  lemma ResponseAmountIsMonthTotal(c: FixedCharge)
    requires c.category == Personnel && c.period == Week && c.monthKey.Some?
    requires forall i :: 0 <= i < |c.employees| ==>
      c.employees[i].monthSalary == Some(MonthTotal(c.employees[i].rows, c.monthKey.value))
    ensures ResponseAmount(c) == TotalAmountFromEmployees(c.employees, Month, c.weekKey)
  {
    AccumulatedAgrees(c.employees, c.monthKey.value, c.weekKey);
  }
}
