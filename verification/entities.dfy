/** The records of the charge ledger, as plain values.

    Persistence identity, timestamps and Hibernate collection state are not
    part of the model: an entity is the value of its fields, a one-to-many
    collection is a sequence in insertion order, and a Java `Map` is the list
    of its entries in iteration order. */
module Entities {
  import opened Wrappers
  import opened Strings

  datatype ChargePeriod = Week | Month

  /** `ChargeCategory`: only PERSONNEL is treated specially by the services. */
  datatype ChargeCategory = Personnel | OtherCategory(name: string)

  datatype SalaryByPeriod = WeeklySalary | MonthlySalary

  datatype TrendDirection = Up | Down | Stable

  /** `PersonnelWeekSalary`: one week of one employee's pay.  `daysInMonth` is
      always 7 and is not represented. */
  datatype WeekSalary = WeekSalary(weekKey: string, monthKey: string, amount: int)

  /** The entries of a `Map<String, BigDecimal>` in iteration order. */
  type Entries = seq<(string, int)>

  /** `EmployeeType`, by the name of its enum constant. */
  type EmployeeType = string

  /** The `Employee` master record a line item links to: one already stored
      (with its id), or one the request creates from its trimmed name, type
      and start date (an epoch day), whose id the database assigns on save. */
  datatype EmployeeRef =
    | Existing(employeeId: int)
    | Created(name: string, kind: Option<EmployeeType>, startDate: Option<int>)

  /** `PersonnelEmployee`, reduced to the fields the salary logic reads and
      writes.  `id` is the persisted id (absent until saved); `rows` is
      `weekSalariesList`; `weekSalaries` is the transient week-to-amount map. */
  datatype PersonnelEmployee = PersonnelEmployee(
    id: Option<int>,
    employee: EmployeeRef,
    rows: seq<WeekSalary>,
    weekSalaries: Entries,
    salary: Option<int>,
    weekSalary: Option<int>,
    monthSalary: Option<int>,
    salaryByPeriod: Option<SalaryByPeriod>)

  /** The trend fields of a fixed charge; all absent when there is no
      predecessor. */
  datatype Trend = Trend(
    direction: Option<TrendDirection>,
    percentage: Option<int>,
    previousAmount: Option<int>,
    abnormalIncrease: bool)

  /** `FixedCharge` */
  datatype FixedCharge = FixedCharge(
    id: int,
    storeId: int,
    category: ChargeCategory,
    amount: int,
    period: ChargePeriod,
    monthKey: Option<string>,
    weekKey: Option<string>,
    trend: Trend,
    notes: Option<string>,
    employees: seq<PersonnelEmployee>)

  /** `VariableCharge`; `date` is an epoch day. */
  datatype VariableCharge = VariableCharge(
    id: int,
    storeId: int,
    name: string,
    amount: int,
    date: int,
    category: string,
    supplier: Option<string>,
    notes: Option<string>,
    purchaseOrderUrl: Option<string>)

  /** The exceptions the charge services raise, one per distinct message. */
  datatype ChargeError =
    | MonthKeyRequired
    | WeekKeyRequired
    | SalaryNotPositive
    | MalformedMonthKey
    | NoWeeksForMonth
    | InvalidWeekKey
    | WeekNotInMonth
    | AmountNotPositive
    | PeriodMustBeMonth
    | EmployeesRequired
    | ChargeNotFound
    | EmployeeNotFound
    | EmployeeOfOtherStore
    | EmployeeNameRequired
    // the name lookup, a single-result query, matched several employees
    | EmployeeNotUnique

  /** `s == null || s.trim().isEmpty()`: `trim` strips every character up to
      U+0020. */
  predicate Blank(s: Option<string>) {
    s.None? || forall i :: 0 <= i < |s.value| ==> s.value[i] <= ' '
  }

  /** A present string is blank iff trimming leaves nothing. */
  lemma BlankIffTrimEmpty(s: string)
    ensures Blank(Some(s)) <==> Trim(s) == ""
  {
    TrimEmpty(s);
  }
}
