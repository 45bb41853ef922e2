# Storeyes coffee back office: charges, statistics, sales linking and token refresh

A Dafny model of the business core of the Storeyes coffee back office. It covers:

- **Week calendar.** `WeekCalculationUtils` turns a month key `yyyy-MM` into its Monday-to-Sunday weeks. A week belongs to the month its Monday falls in, and a monthly salary is split over those weeks with HALF_UP rounding at scale 4.
- **Personnel salary ledger.** `ChargeService` keeps, for each employee of a personnel charge, one salary row per week, each recorded against the month of its Monday. The model covers distributing a monthly salary, setting one week, updating several weeks, and the amount a charge derives from its employees.
- **Fixed and variable charges.** Creation, update, reads, deletion with the store-ownership check, and the month-on-month trend. The trend reads its predecessor through the `FixedChargeRepository` queries: string comparison of `yyyy-MM` / `yyyy-MM-dd` keys, newest first.
- **Statistics.** `StatisticsService` covers the day, week and month windows, revenue over a window, fixed charges prorated to a day or a week, the KPI percentages and their status bands, the three chart series, and the charges detail.
- **Sales linking.** `SalesProcessor` sorts the day's sales newest first and, for each alert, binary-searches where the sales before it begin. It then copies up to three consecutive sales from there, each strictly before the alert, into records linked to the alert. As written the search can skip past a sale made before the alert when sales without a timestamp follow it (see Findings). When every sale has a timestamp, the records are the three most recent sales before the alert.
- **Daily report.** `KpiService` covers the payment split (card vs. cash), the top products, the category and staff shares, the seven peak periods, and the comparison with the day before and the same day a week before.
- **Token refresh.** `AuthService` classifies a refused refresh from the identity provider into one of the four OAuth error codes, and the controller maps those codes to an HTTP status.

Representation:

- Money is an integer count of 10^-4 units, the scale-4 `BigDecimal`s of the source. `setScale(2, HALF_UP)` and `divide(.., HALF_UP)` are written out: ties are rounded away from zero, for either sign.
- The daily report uses `Double` in the source and `real` here. The daily revenue figures that `StatisticsService` adds up are also `Double`s in the source; here they are exact amounts (see Left out).
- Dates are epoch-day integers, 1970-01-01 being a Thursday. Keys are strings.
- Repository reads are functions over the stored sequences.
- The identity provider's reply is an input.

Modules (one file each):

| module | file |
|---|---|
| Wrappers | `wrappers.dfy` |
| Calendar | `calendar.dfy` |
| Keys | `keys.dfy` |
| Money | `money.dfy` |
| Strings | `strings.dfy` |
| Entities | `entities.dfy` |
| Weeks | `weeks.dfy` |
| Personnel | `personnel.dfy` |
| Charges | `charges.dfy` |
| Ledger | `ledger.dfy` |
| Statistics | `statistics.dfy` |
| Charts | `charts.dfy` |
| Sales | `sales.dfy` |
| DailyReports | `kpi.dfy` |
| TokenRefresh | `tokens.dfy` |

Where the code departs from the design description, or from what it evidently intends, the model keeps two variants side by side. One is the code as written; the other is the corrected behaviour, with the intended property proved about it:

- **Period switch.** On an update that changes a charge's period, the description promises that all salary rows are regenerated. In the code that branch is unreachable (see Findings). `Charges.UpdateFixedChargeAsWritten` models the code, and `Charges.UpdateFixedCharge` models the description. Both are `Charges.UpdateWith`, with the period-change test as written or as intended.
- **Sales search.** `findFirstSaleBeforeDate` can miss a sale (see Findings). `Sales.CreateSales` and `Sales.ProcessSalesForStore` use the search as written, and `Sales.CreateSalesCorrected` uses the corrected search. Both are `Sales.CreateSalesWith`, with the start index of the search as written or corrected. They agree whenever every sale has a timestamp (`Sales.CreateSalesWithoutUntimed`).
- **Week belonging.** A week whose Monday lies in the previous month overlaps the month, so `weekOverlapsWithMonth` accepts it. Its salary row is still recorded against the Monday's month, so it does not enter the month total (`Personnel.BoundaryWeekNotCounted`).
- **Salary split correction.** `distributeMonthlySalary` has a correction step for rounding differences above 0.01. It never fires for four or five weeks (`Weeks.SplitDifferenceSmall`), so the shares are all equal and may differ from the salary by up to half a unit of 10^-4 per week.

## Model

| member | source | states |
|---|---|---|
| Calendar.FromEpochDay | src/main/java/io/storeyes/storeyes_coffee/charges/utils/WeekCalculationUtils.java:29-41 | every epoch day has exactly one valid proleptic Gregorian date, the one whose epoch-day number it is (inverse of ToEpochDay) |
| Calendar.FromToEpochDay | src/main/java/io/storeyes/storeyes_coffee/charges/utils/WeekCalculationUtils.java:29-41 | converting a valid date to its epoch day and back gives the same date |
| Calendar.ToEpochDayInjective | src/main/java/io/storeyes/storeyes_coffee/charges/utils/WeekCalculationUtils.java:29-41 | two valid dates have the same epoch day iff they are equal |
| Calendar.DayOfWeek | src/main/java/io/storeyes/storeyes_coffee/charges/utils/WeekCalculationUtils.java:29-33 | the ISO day number 1 (Monday) .. 7 (Sunday), anchored on 1970-01-01 being a Thursday |
| Calendar.MondayOf | src/main/java/io/storeyes/storeyes_coffee/charges/utils/WeekCalculationUtils.java:29-33 | `getMondayOfWeek`: a Monday m with m <= d < m + 7 |
| Calendar.MondayOfUnique | src/main/java/io/storeyes/storeyes_coffee/charges/utils/WeekCalculationUtils.java:29-33 | the Monday of a day is the only Monday in the seven days ending at that day |
| Calendar.MondayOfWeekDays | src/main/java/io/storeyes/storeyes_coffee/charges/utils/WeekCalculationUtils.java:29-33 | every day of the Monday..Sunday week starting at m has m as its Monday |
| Calendar.YearMonthOfRange | src/main/java/io/storeyes/storeyes_coffee/charges/utils/WeekCalculationUtils.java:60-62 | a day lies in a year-month iff it lies between the month's first and last day |
| Calendar.MonthEnd | src/main/java/io/storeyes/storeyes_coffee/charges/utils/WeekCalculationUtils.java:125-130 | the last day of a month lies 27 to 30 days after its first |
| Calendar.PrevMonthAdjacent | src/main/java/io/storeyes/storeyes_coffee/statistics/services/StatisticsService.java:77-84 | the day after the previous month's last day is the month's first day |
| Calendar.MinusMonths | src/main/java/io/storeyes/storeyes_coffee/statistics/services/StatisticsService.java:433-461 | `YearMonth.minusMonths(k)`: k months earlier in year*12+month arithmetic, still a valid month |
| Keys.Pad | src/main/java/io/storeyes/storeyes_coffee/charges/utils/WeekCalculationUtils.java:46-48 | zero padding to a fixed width yields that many digits |
| Keys.ParsePad | src/main/java/io/storeyes/storeyes_coffee/charges/utils/WeekCalculationUtils.java:53-55 | reading back a zero-padded number gives the number |
| Keys.PadParse | src/main/java/io/storeyes/storeyes_coffee/charges/utils/WeekCalculationUtils.java:53-55 | every digit string is the zero padding of the number it denotes |
| Keys.PadOrder | src/main/java/io/storeyes/storeyes_coffee/charges/repositories/FixedChargeRepository.java:43-49 | string order on equal-width zero-padded numbers is numeric order |
| Keys.LexLessTotal | src/main/java/io/storeyes/storeyes_coffee/charges/repositories/FixedChargeRepository.java:47-49 | the string comparison the query uses is a strict total order (with LexLessIrreflexive and LexLessTransitive) |
| Keys.ParseMonthKeyRoundTrip | src/main/java/io/storeyes/storeyes_coffee/charges/utils/WeekCalculationUtils.java:60-62 | parsing the `yyyy-MM` key of a month gives that month |
| Keys.MonthKeyRoundTrip | src/main/java/io/storeyes/storeyes_coffee/charges/utils/WeekCalculationUtils.java:60-62 | a month key that parses is the canonical key of the month it denotes |
| Keys.ParseDateKeyRoundTrip | src/main/java/io/storeyes/storeyes_coffee/charges/utils/WeekCalculationUtils.java:46-55 | `parseWeekKey(generateWeekKey(d)) == d` for every date with a four-digit year |
| Keys.DateKeyRoundTrip | src/main/java/io/storeyes/storeyes_coffee/charges/utils/WeekCalculationUtils.java:53-55 | a date key that parses is reproduced by formatting the parsed date iff the day was not clamped by the lenient resolver |
| Keys.DayKey | src/main/java/io/storeyes/storeyes_coffee/charges/utils/WeekCalculationUtils.java:46-48 | the key of an epoch day parses back to that day |
| Keys.DayKeyFacts | src/main/java/io/storeyes/storeyes_coffee/charges/utils/WeekCalculationUtils.java:67-70 | day keys are injective and the first seven characters of a day's key are its month key |
| Keys.MonthKeyForWeek | src/main/java/io/storeyes/storeyes_coffee/charges/utils/WeekCalculationUtils.java:67-70 | `getMonthKeyForWeek`: defined exactly for parseable keys, and then the `yyyy-MM` key of that date |
| Keys.MonthKeyChronological | src/main/java/io/storeyes/storeyes_coffee/charges/repositories/FixedChargeRepository.java:43-49 | for four-digit years, `yyyy-MM` keys compare as strings exactly as the months compare in time |
| Keys.DateKeyChronological | src/main/java/io/storeyes/storeyes_coffee/charges/repositories/FixedChargeRepository.java:43-49 | for four-digit years, `yyyy-MM-dd` keys compare as strings exactly as the dates compare in time |
| Keys.DayKeyOrder | src/main/java/io/storeyes/storeyes_coffee/charges/repositories/FixedChargeRepository.java:43-49 | day keys compare as strings exactly as the epoch days compare |
| Weeks.SundayOf | src/main/java/io/storeyes/storeyes_coffee/charges/utils/WeekCalculationUtils.java:38-41 | `getSundayOfWeek`: a Sunday s with s - 6 <= d <= s |
| Weeks.SundayAfterMonday | src/main/java/io/storeyes/storeyes_coffee/charges/utils/WeekCalculationUtils.java:38-41 | six days after a Monday is a Sunday |
| Weeks.OverlapMondaysSpec | src/main/java/io/storeyes/storeyes_coffee/charges/utils/WeekCalculationUtils.java:125-164 | the listed Mondays are exactly the Mondays m with m <= month end and m + 6 >= month start |
| Weeks.OverlapIndex | src/main/java/io/storeyes/storeyes_coffee/charges/utils/WeekCalculationUtils.java:125-164 | the i-th listed week starts 7i days after the Monday of the month's first day, and the list stops at the month's end |
| Weeks.CollectWeeks | src/main/java/io/storeyes/storeyes_coffee/charges/utils/WeekCalculationUtils.java:125-164 | the Java loop (start at the Monday of the first day, step a week, stop past the month end) builds exactly the overlapping weeks in ascending order |
| Weeks.WeeksForMonthLoop | src/main/java/io/storeyes/storeyes_coffee/charges/utils/WeekCalculationUtils.java:125-164 | `getWeeksForMonth`: fails exactly on an unparseable month key, otherwise returns the collected weeks |
| Weeks.InfoFields | src/main/java/io/storeyes/storeyes_coffee/charges/utils/WeekCalculationUtils.java:82-116 | a WeekInfo runs from its Monday to its Sunday, is keyed by the Monday's date key, records the Monday's month, and belongs to the month iff the Monday is in it |
| Weeks.InfoBelongs | src/main/java/io/storeyes/storeyes_coffee/charges/utils/WeekCalculationUtils.java:150-152 | `belongsToMonth` holds iff the Monday's month is the month asked for, iff the week's month key equals the month key |
| Weeks.WeeksBelongingSpec | src/main/java/io/storeyes/storeyes_coffee/charges/utils/WeekCalculationUtils.java:172-183 | `getWeeksBelongingToMonth` lists, in order, one week per Monday of the month |
| Weeks.MonthMondaysSpec | src/main/java/io/storeyes/storeyes_coffee/charges/utils/WeekCalculationUtils.java:172-183 | the Mondays of a month are exactly the Mondays whose year-month is that month |
| Weeks.MonthMondaysCount | src/main/java/io/storeyes/storeyes_coffee/charges/utils/WeekCalculationUtils.java:172-183 | every month has four or five Mondays |
| Weeks.BelongingDropsLeading | src/main/java/io/storeyes/storeyes_coffee/charges/utils/WeekCalculationUtils.java:150-183 | filtering the overlapping weeks by `belongsToMonth` drops at most the leading week whose Monday is in the previous month |
| Weeks.WeekOverlapsAgree | src/main/java/io/storeyes/storeyes_coffee/charges/utils/WeekCalculationUtils.java:244-257 | `weekOverlapsWithMonth` on a Monday's key holds iff that Monday is one of the month's overlapping weeks |
| Weeks.DistributeMonthlySalary | src/main/java/io/storeyes/storeyes_coffee/charges/utils/WeekCalculationUtils.java:193-227 | the split is defined exactly for month keys that parse and has one key per week belonging to the month |
| Weeks.SplitOverWeeksEven | src/main/java/io/storeyes/storeyes_coffee/charges/utils/WeekCalculationUtils.java:197-224 | over four or five distinct weeks every week receives salary/n HALF_UP at scale 4 (the correction never fires) |
| Weeks.DistributeNeverAdjusts | src/main/java/io/storeyes/storeyes_coffee/charges/utils/WeekCalculationUtils.java:197-224 | every week of the month gets salary/n HALF_UP and the shares add up to within n/2 units of the salary |
| Weeks.SplitDifferenceSmall | src/main/java/io/storeyes/storeyes_coffee/charges/utils/WeekCalculationUtils.java:215-224 | for n <= 5 the residue salary - n * share is at most half a unit per week, hence never above 0.01 |
| Weeks.DistributeExactForCents | src/main/java/io/storeyes/storeyes_coffee/charges/utils/WeekCalculationUtils.java:197-224 | a salary in whole cents is split exactly: n shares add up to the salary |
| Weeks.BelongingKeysDistinct | src/main/java/io/storeyes/storeyes_coffee/charges/utils/WeekCalculationUtils.java:172-183 | the weeks of a month carry distinct week keys |
| Money.DivHalfUp | src/main/java/io/storeyes/storeyes_coffee/charges/services/ChargeService.java:1202-1251 | BigDecimal HALF_UP division: the nearest quotient, ties away from zero, for either sign of divisor |
| Money.HalfUpQuotientUnique | src/main/java/io/storeyes/storeyes_coffee/charges/services/ChargeService.java:1202-1251 | the HALF_UP quotient is the only integer with that rounding property |
| Money.NegateHalfUp | src/main/java/io/storeyes/storeyes_coffee/charges/services/ChargeService.java:1202-1251 | negating numerator and divisor leaves the HALF_UP quotient unchanged (symmetry of ties away from zero) |
| Money.SetScale2 | src/main/java/io/storeyes/storeyes_coffee/charges/services/ChargeService.java:1148-1194 | `setScale(2, HALF_UP)`: a whole number of cents within half a cent of the input |
| Money.SetScale2Cents | src/main/java/io/storeyes/storeyes_coffee/charges/services/ChargeService.java:1148-1194 | rounding a value already in whole cents changes nothing |
| Money.DivCountScale2 | src/main/java/io/storeyes/storeyes_coffee/statistics/services/StatisticsService.java:256-258 | `divide(n, 2, HALF_UP)`: a whole number of cents that is the HALF_UP quotient in cents |
| Money.Percentage | src/main/java/io/storeyes/storeyes_coffee/statistics/services/StatisticsService.java:549-556 | `calculatePercentage`: 0 on a zero base, otherwise a whole number of cents equal to 100 times the HALF_UP ratio at scale 4 |
| Money.DivHalfUpExact | src/main/java/io/storeyes/storeyes_coffee/charges/utils/WeekCalculationUtils.java:197-213 | an exact division is not rounded |
| Personnel.Keep | src/main/java/io/storeyes/storeyes_coffee/charges/services/ChargeService.java:733-761 | the delete step keeps, in order, exactly the rows whose selection status is the one asked for |
| Personnel.KeepAppend | src/main/java/io/storeyes/storeyes_coffee/charges/services/ChargeService.java:733-761 | deleting from a concatenation deletes from each part |
| Personnel.NewRow | src/main/java/io/storeyes/storeyes_coffee/charges/services/ChargeService.java:780-796 | a created row carries the week key, the amount, and the month of the week key (`getMonthKeyForWeek`) |
| Personnel.DistributeSalary | src/main/java/io/storeyes/storeyes_coffee/charges/services/ChargeService.java:703-797 | `distributeMonthlySalary`: blank month key and non-positive salary are the errors, in that order; success iff the month parses; records the monthly salary and MONTHLY kind |
| Personnel.Distributed | src/main/java/io/storeyes/storeyes_coffee/charges/services/ChargeService.java:703-797 | the ledger after distributing: rows of other months kept, followed by the new rows of the month |
| Personnel.OwnedRowsSpec | src/main/java/io/storeyes/storeyes_coffee/charges/services/ChargeService.java:766-797 | the rows written are, in order, one per Monday of the month, keyed by that Monday, recorded against the month, each the HALF_UP share; they form a well-formed ledger |
| Personnel.DistributeSalaryRows | src/main/java/io/storeyes/storeyes_coffee/charges/services/ChargeService.java:703-797 | distributing leaves the rows of every other month unchanged and makes the month's rows exactly the new rows |
| Personnel.DistributeSalaryMonthTotal | src/main/java/io/storeyes/storeyes_coffee/charges/services/ChargeService.java:703-797 | after distributing, the month's rows add up to n shares, within n/2 units of the salary and exactly the salary when it is in whole cents |
| Personnel.DistributeSalaryPreserves | src/main/java/io/storeyes/storeyes_coffee/charges/services/ChargeService.java:703-797 | distributing keeps at most one row per week key and every row's month equal to its week's month |
| Personnel.ReplaceWeeksSpec | src/main/java/io/storeyes/storeyes_coffee/charges/services/ChargeService.java:882-949 | replacing listed weeks keeps every unlisted row and makes the listed weeks' rows exactly the new rows |
| Personnel.ReplaceWeeksEntry | src/main/java/io/storeyes/storeyes_coffee/charges/services/ChargeService.java:882-949 | after replacing, each listed week has exactly one row, carrying the new amount |
| Personnel.ReplaceWeeksPreserves | src/main/java/io/storeyes/storeyes_coffee/charges/services/ChargeService.java:882-949 | replacing valid week keys keeps the ledger well formed |
| Personnel.SetWeeklySalary | src/main/java/io/storeyes/storeyes_coffee/charges/services/ChargeService.java:1019-1127 | `setWeeklySalary`: blank week key, blank month key, non-positive amount, non-Monday key and non-overlapping week are the errors; on success month salary = total of the rows of the month, weekly salary and salary = the amount |
| Personnel.SetWeeklyRows | src/main/java/io/storeyes/storeyes_coffee/charges/services/ChargeService.java:1061-1105 | setting a week replaces the single row of that week and leaves every other row unchanged |
| Personnel.SetWeeklyMonthTotal | src/main/java/io/storeyes/storeyes_coffee/charges/services/ChargeService.java:1088-1125 | the recorded month salary is the month's other rows plus the new amount only when the week's Monday is in that month |
| Personnel.BoundaryWeekNotCounted | src/main/java/io/storeyes/storeyes_coffee/charges/services/ChargeService.java:1116-1119 | a week starting 2024-04-29 overlaps May 2024 but is recorded against April, so it is stored yet not counted in May |
| Personnel.SetWeeklyPreserves | src/main/java/io/storeyes/storeyes_coffee/charges/services/ChargeService.java:1019-1105 | setting a week keeps the ledger well formed |
| Personnel.CheckUpdates | src/main/java/io/storeyes/storeyes_coffee/charges/services/ChargeService.java:921-933 | the week-key checks pass iff every key is a valid Monday that overlaps the month (when one is given); errors are the invalid key or the non-overlap |
| Personnel.UpdateWeekSalaries | src/main/java/io/storeyes/storeyes_coffee/charges/services/ChargeService.java:859-977 | `updateWeekSalaries`: success iff every key passes; month salary becomes the total of the rows of the month, or of all rows when no month is given |
| Personnel.UpdateWeekSalariesRows | src/main/java/io/storeyes/storeyes_coffee/charges/services/ChargeService.java:859-977 | updating replaces exactly the targeted week keys, one row each with its new amount, and leaves the other rows unchanged |
| Personnel.UpdateWeekSalariesPreserves | src/main/java/io/storeyes/storeyes_coffee/charges/services/ChargeService.java:859-977 | updating keeps the ledger well formed |
| Personnel.Put | src/main/java/io/storeyes/storeyes_coffee/charges/services/ChargeService.java:952-957 | `map.put`: the key now maps to the value and every other key is unchanged |
| Personnel.EntriesOfLookup | src/main/java/io/storeyes/storeyes_coffee/charges/services/ChargeService.java:1108-1113 | the week map built from the rows gives each week the amount of its last row |
| Personnel.FirstRow | src/main/java/io/storeyes/storeyes_coffee/charges/services/ChargeService.java:1175-1177 | `findFirst` of a week: none iff no row has the key, otherwise a row with the key |
| Personnel.TotalAmountFromEmployees | src/main/java/io/storeyes/storeyes_coffee/charges/services/ChargeService.java:1148-1195 | the employees' contributions added up and rounded HALF_UP to whole cents |
| Personnel.WeekAmountFromRows | src/main/java/io/storeyes/storeyes_coffee/charges/services/ChargeService.java:1171-1180 | for a WEEK charge an employee with rows contributes the row of the week, or 0 when no row matches |
| Personnel.WeekAmountAfterSetWeekly | src/main/java/io/storeyes/storeyes_coffee/charges/services/ChargeService.java:1171-1180 | after setting a week's salary, the employee contributes exactly that amount to the week's charge |
| Personnel.AccumulatedAmountForMonth | src/main/java/io/storeyes/storeyes_coffee/charges/services/ChargeService.java:1281-1298 | the employees' rows recorded against the month added up and rounded HALF_UP to whole cents |
| Personnel.AccumulatedAgrees | src/main/java/io/storeyes/storeyes_coffee/charges/services/ChargeService.java:1281-1298 | when each month salary is the total of its month's rows, the accumulated amount equals the MONTH amount derived from the employees |
| Charges.ValidateFixedChargeRequest | src/main/java/io/storeyes/storeyes_coffee/charges/services/ChargeService.java:1467-1492 | passes iff a WEEK charge has a valid Monday key overlapping the month (when given) and a non-personnel charge has a positive amount and MONTH period; the first failing check gives the error |
| Charges.FindEmployee | src/main/java/io/storeyes/storeyes_coffee/charges/services/ChargeService.java:611-614 | `findById`: a stored employee with that id, present iff one is stored |
| Charges.ResolveEmployee | src/main/java/io/storeyes/storeyes_coffee/charges/services/ChargeService.java:608-655 | a given employee id must exist ("not found") and belong to the store ("other store"); without an id, the request needs a name that is not blank after trimming. A new employee carries the trimmed name, the type and the start date |
| Charges.LookupByName | src/main/java/io/storeyes/storeyes_coffee/charges/repositories/EmployeeRepository.java:21-28 | the lookup by store, name, type and start date creates an employee under exactly that name, type and start date, and fails only as "not unique" |
| Charges.LookupCreates | src/main/java/io/storeyes/storeyes_coffee/charges/services/ChargeService.java:627-653 | a new employee is created iff no stored employee of the store has that name and, where given, that type and start date |
| Charges.LookupReuses | src/main/java/io/storeyes/storeyes_coffee/charges/repositories/EmployeeRepository.java:21-28 | a stored employee is reused iff exactly one row matches the query, and the reused id is that row's |
| Charges.LookupAmbiguous | src/main/java/io/storeyes/storeyes_coffee/charges/repositories/EmployeeRepository.java:21-28 | the single-result query fails iff two stored rows match |
| Charges.ResolveByName | src/main/java/io/storeyes/storeyes_coffee/charges/services/ChargeService.java:620-634 | a request without an id resolves through the lookup under its trimmed name, which is non-empty and trims to itself |
| Charges.NewLine | src/main/java/io/storeyes/storeyes_coffee/charges/services/ChargeService.java:657-690 | a new line needs a positive salary and then distributes it over the month (MONTH) or sets the week (WEEK), with their errors |
| Charges.ProcessEmployees | src/main/java/io/storeyes/storeyes_coffee/charges/services/ChargeService.java:598-693 | succeeds iff every request yields a line, one line per request in order; a failure is the first failing request's error |
| Charges.ProcessEmployeesSplit | src/main/java/io/storeyes/storeyes_coffee/charges/services/ChargeService.java:608-693 | processing two lists of requests one after the other is processing their concatenation: the first list's error wins, then the second's, otherwise the lines are joined |
| Charges.PersonnelCharge | src/main/java/io/storeyes/storeyes_coffee/charges/services/ChargeService.java:137-152 | a personnel charge needs at least one employee; its amount is the request's unless null or zero, then the total derived from the employees |
| Charges.CreateFixedCharge | src/main/java/io/storeyes/storeyes_coffee/charges/services/ChargeService.java:116-168 | validation errors first; on success the new charge is appended with the request's fields, a positive MONTH amount for utilities, derived employees for personnel, and its trend |
| Charges.CreateWeeklyExample | src/main/java/io/storeyes/storeyes_coffee/charges/services/ChargeService.java:116-168 | one employee at 500 on a WEEK personnel charge without an amount yields a charge of 500.00 |
| Charges.OverwriteFields | src/main/java/io/storeyes/storeyes_coffee/charges/services/ChargeService.java:186-201 | each non-null field of the update request overwrites the stored one; identity, category, employees and trend stay |
| Charges.OverwriteIdempotent | src/main/java/io/storeyes/storeyes_coffee/charges/services/ChargeService.java:186-201 | applying the same field overwrite twice changes nothing more |
| Charges.PeriodChangeNeverDetected | src/main/java/io/storeyes/storeyes_coffee/charges/services/ChargeService.java:190-211 | as written, the period-change test compares the request with the already overwritten period and is never true |
| Charges.PeriodChangeDetected | src/main/java/io/storeyes/storeyes_coffee/charges/services/ChargeService.java:204-236 | the intended test is true iff the update changes the stored period |
| Charges.MatchIndex | src/main/java/io/storeyes/storeyes_coffee/charges/services/ChargeService.java:240-245 | the map by employee id yields the last stored line of that employee, or none |
| Charges.MergeEmployees | src/main/java/io/storeyes/storeyes_coffee/charges/services/ChargeService.java:237-360 | in the unchanged-period merge every request resolves and has a line for its employee, and every stored line kept was matched by a request |
| Charges.UpdateEmployees | src/main/java/io/storeyes/storeyes_coffee/charges/services/ChargeService.java:203-371 | the employees are replaced or merged as chosen; the amount is recomputed from the employees only when the request has none |
| Charges.Revised | src/main/java/io/storeyes/storeyes_coffee/charges/services/ChargeService.java:186-371 | the revised charge keeps id, store and category, takes the request's period, keys and amount, and revises employees only for personnel charges with employees |
| Charges.UpdateFixedCharge | src/main/java/io/storeyes/storeyes_coffee/charges/services/ChargeService.java:175-380 | the update with the period-change test as intended: a missing or foreign charge is "not found"; on success the charge was stored, the list keeps its length, and only the charge with that id changes |
| Charges.UpdateFixedChargeAsWritten | src/main/java/io/storeyes/storeyes_coffee/charges/services/ChargeService.java:175-380 | the update as written: a missing or foreign charge is "not found"; on success the charge was stored, the list keeps its length, and only the charge with that id changes |
| Charges.UpdatedCharge | src/main/java/io/storeyes/storeyes_coffee/charges/services/ChargeService.java:175-380 | with the intended test, the updated charge keeps id, store and category, carries the requested period, amount and keys, and a predecessor recorded in its trend is another charge of the store |
| Charges.UpdatedChargeAsWritten | src/main/java/io/storeyes/storeyes_coffee/charges/services/ChargeService.java:175-380 | the same for the update as written: identity kept, requested fields applied, and a predecessor in the trend is another charge of the store |
| Charges.UpdatePeriodChangeReplaces | src/main/java/io/storeyes/storeyes_coffee/charges/services/ChargeService.java:213-236 | with the period change detected, the lines are all new lines of the new period, one per request |
| Charges.UpdateAsWrittenKeepsStoredLines | src/main/java/io/storeyes/storeyes_coffee/charges/services/ChargeService.java:237-360 | as written, even when the period changes, a stored line matched by a request keeps its identity |
| Charges.ResponseAmount | src/main/java/io/storeyes/storeyes_coffee/charges/services/ChargeService.java:1256-1276 | a weekly personnel charge with a month reports the month's accumulated rows rounded to cents; every other charge its stored amount |
| Charges.ResponseAmountIsMonthTotal | src/main/java/io/storeyes/storeyes_coffee/charges/services/ChargeService.java:1256-1298 | when each month salary is its month's row total, the reported amount of a weekly charge equals the monthly derived amount |
| Ledger.FindOwned | src/main/java/io/storeyes/storeyes_coffee/charges/services/ChargeService.java:98-107 | a charge of another store fails with the same "not found" error as a missing id |
| Ledger.FindOwnedIff | src/main/java/io/storeyes/storeyes_coffee/charges/services/ChargeService.java:98-107 | the lookup succeeds iff a charge with that id belongs to the store |
| Ledger.GetFixedCharge | src/main/java/io/storeyes/storeyes_coffee/charges/services/ChargeService.java:98-107 | succeeds iff the id exists and is owned by the store, returning that charge |
| Ledger.DeleteFixedCharge | src/main/java/io/storeyes/storeyes_coffee/charges/services/ChargeService.java:387-399 | succeeds iff the id is owned by the store, removes exactly that charge and keeps the others |
| Ledger.GetVariableCharge | src/main/java/io/storeyes/storeyes_coffee/charges/services/ChargeService.java:491-500 | succeeds iff the variable charge exists and is owned by the store |
| Ledger.UpdateVariableCharge | src/main/java/io/storeyes/storeyes_coffee/charges/services/ChargeService.java:535-570 | ownership checked as for reads; each non-null field overwrites, nothing else changes |
| Ledger.VariableUpdateIdempotent | src/main/java/io/storeyes/storeyes_coffee/charges/services/ChargeService.java:546-566 | applying the same update twice equals applying it once, and an empty update changes nothing |
| Ledger.DeleteVariableCharge | src/main/java/io/storeyes/storeyes_coffee/charges/services/ChargeService.java:577-589 | succeeds iff owned by the store, removes exactly that charge |
| Ledger.SortDescending | src/main/java/io/storeyes/storeyes_coffee/charges/repositories/FixedChargeRepository.java:46-63 | the ORDER BY ... DESC result is a permutation of its input, descending with nulls last |
| Ledger.KeyLessFacts | src/main/java/io/storeyes/storeyes_coffee/charges/repositories/FixedChargeRepository.java:49 | the ORDER BY key order is a strict total order |
| Ledger.FindPreviousCharges | src/main/java/io/storeyes/storeyes_coffee/charges/repositories/FixedChargeRepository.java:46-50 | exactly the charges of the same store, category and period with an earlier month key (MONTH) or week key (WEEK), ordered by month then week descending |
| Ledger.FindHistoricalCharges | src/main/java/io/storeyes/storeyes_coffee/charges/repositories/FixedChargeRepository.java:61-63 | exactly the charges of the same store, category and period with month key at most the given one, newest first |
| Ledger.PreviousCharge | src/main/java/io/storeyes/storeyes_coffee/charges/services/ChargeService.java:1202-1212 | no predecessor iff no candidate; otherwise a candidate no other candidate sorts after |
| Ledger.NeverOwnPredecessor | src/main/java/io/storeyes/storeyes_coffee/charges/repositories/FixedChargeRepository.java:47-48 | a charge is never its own predecessor |
| Ledger.WeekWithoutKeyHasNoPredecessor | src/main/java/io/storeyes/storeyes_coffee/charges/services/ChargeService.java:1208 | a WEEK charge without a week key is queried with "" and has no predecessor |
| Ledger.MonthPredecessorIsEarlier | src/main/java/io/storeyes/storeyes_coffee/charges/repositories/FixedChargeRepository.java:43-49 | a MONTH charge's predecessor is of a strictly earlier month |
| Ledger.WeekPredecessorIsEarlier | src/main/java/io/storeyes/storeyes_coffee/charges/repositories/FixedChargeRepository.java:43-49 | a WEEK charge's predecessor is of a strictly earlier week |
| Ledger.TrendFrom | src/main/java/io/storeyes/storeyes_coffee/charges/services/ChargeService.java:1214-1251 | no predecessor gives empty trend fields and no abnormal flag; otherwise UP/DOWN/STABLE by the sign of the difference, percentage = round2(100 * round4(diff/prev)) or 0 when prev <= 0, abnormal iff percentage > 20 |
| Ledger.AbnormalIff | src/main/java/io/storeyes/storeyes_coffee/charges/services/ChargeService.java:1235-1245 | the abnormal flag holds iff prev > 0 and the increase is at least 20.005 % of prev, and then the direction is UP |
| Ledger.TrendExamples | src/main/java/io/storeyes/storeyes_coffee/charges/services/ChargeService.java:1202-1251 | 100 to 130 gives UP 30.00 abnormal; 100 to 105 gives 5.00 not abnormal |
| Ledger.CalculateTrend | src/main/java/io/storeyes/storeyes_coffee/charges/services/ChargeService.java:1202-1251 | the trend is computed from the amount of the most recent previous charge, or empty without one |
| Statistics.ParsePeriod | src/main/java/io/storeyes/storeyes_coffee/statistics/services/StatisticsService.java:60-87 | the period name is recognised case-insensitively as day, week or month, and nothing else |
| Statistics.ParsePeriodExamples | src/main/java/io/storeyes/storeyes_coffee/statistics/services/StatisticsService.java:60-87 | "Week" and "MONTH" are accepted, "year" is not |
| Statistics.ResolveWindow | src/main/java/io/storeyes/storeyes_coffee/statistics/services/StatisticsService.java:60-87 | an unknown period is an error; a known one succeeds iff its date parses; the previous window ends the day before the window starts |
| Statistics.WeekWindowSpec | src/main/java/io/storeyes/storeyes_coffee/statistics/services/StatisticsService.java:68-76 | the week window runs Monday to Sunday around the date and the previous one is the week before |
| Statistics.MonthWindowSpec | src/main/java/io/storeyes/storeyes_coffee/statistics/services/StatisticsService.java:77-84 | the month window holds exactly the days of the month and the previous window exactly those of the previous month |
| Statistics.Revenue | src/main/java/io/storeyes/storeyes_coffee/statistics/services/StatisticsService.java:207-224 | the daily figures over the window added up, rounded HALF_UP to cents |
| Statistics.RevenueForPeriod | src/main/java/io/storeyes/storeyes_coffee/statistics/services/StatisticsService.java:207-224 | the day-by-day loop computes the rounded window total |
| Statistics.RevenueSplit | src/main/java/io/storeyes/storeyes_coffee/statistics/services/StatisticsService.java:207-224 | the window total is additive over adjacent sub-windows |
| Statistics.RevenueWithoutFigures | src/main/java/io/storeyes/storeyes_coffee/statistics/services/StatisticsService.java:211-220 | days without a figure contribute 0 |
| Statistics.FixedWithAmounts | src/main/java/io/storeyes/storeyes_coffee/statistics/services/StatisticsService.java:243-298 | the month view is the month's charges at full amount; the day view succeeds iff the date parses; the week view succeeds iff the week parameter (or else the date) parses and is then the view of that day's week |
| Statistics.DayViewShares | src/main/java/io/storeyes/storeyes_coffee/statistics/services/StatisticsService.java:244-269 | a day-view item is a charge of the day's month: MONTH charges prorated HALF_UP by the days of the month, WEEK charges of the day's Monday prorated by 7 |
| Statistics.DayShareExample | src/main/java/io/storeyes/storeyes_coffee/statistics/services/StatisticsService.java:256-258 | 310.00 over a 31-day month is 10.00 a day |
| Statistics.WeekViewIgnoresPeriod | src/main/java/io/storeyes/storeyes_coffee/statistics/services/StatisticsService.java:286-289 | in the week view every charge with the Monday's week key counts at its full amount, whatever its period |
| Statistics.MonthViewIgnoresPeriod | src/main/java/io/storeyes/storeyes_coffee/statistics/services/StatisticsService.java:291-297 | in the month view every charge of the month counts at full amount, WEEK charges included |
| Statistics.WeeksCount | src/main/java/io/storeyes/storeyes_coffee/statistics/services/StatisticsService.java:276 | the weeks-per-month divisor is four or five |
| Statistics.RoundedTotal | src/main/java/io/storeyes/storeyes_coffee/statistics/services/StatisticsService.java:229-235 | the effective amounts added up, rounded HALF_UP to cents |
| Statistics.VariableInRange | src/main/java/io/storeyes/storeyes_coffee/statistics/services/StatisticsService.java:303-309 | exactly the store's variable charges dated within the window |
| Statistics.VariableTotal | src/main/java/io/storeyes/storeyes_coffee/statistics/services/StatisticsService.java:303-309 | their amounts added up, rounded HALF_UP to cents |
| Statistics.Evolution | src/main/java/io/storeyes/storeyes_coffee/statistics/services/StatisticsService.java:561-569 | 0 when the previous revenue is 0, otherwise round2(100 * round4(diff/previous)) |
| Statistics.ComputeKpi | src/main/java/io/storeyes/storeyes_coffee/statistics/services/StatisticsService.java:94-115 | charges = fixed + variable, profit = revenue - charges, both percentages of revenue, and the statuses of those percentages |
| Statistics.PercentagesComplement | src/main/java/io/storeyes/storeyes_coffee/statistics/services/StatisticsService.java:549-556 | the charges and profit percentages of a nonzero revenue add up to 100 within one cent |
| Statistics.KpiExample | src/main/java/io/storeyes/storeyes_coffee/statistics/services/StatisticsService.java:94-115 | revenue 1000 and charges 700 give profit 300, 70.00 % charges and both statuses medium; 800 of 1000 is critical |
| Statistics.ChargesStatus | src/main/java/io/storeyes/storeyes_coffee/statistics/services/StatisticsService.java:574-582 | critical above 75, good at or below 66, medium between |
| Statistics.ProfitStatus | src/main/java/io/storeyes/storeyes_coffee/statistics/services/StatisticsService.java:587-595 | good at 33 or more, critical below 15, medium between |
| Statistics.ItemStatus | src/main/java/io/storeyes/storeyes_coffee/statistics/services/StatisticsService.java:600-609 | critical above 20, good at or below 10, medium between |
| Statistics.StatusesMonotone | src/main/java/io/storeyes/storeyes_coffee/statistics/services/StatisticsService.java:574-609 | a higher percentage never gives a better charges or item status, nor a worse profit status |
| Charts.Point | src/main/java/io/storeyes/storeyes_coffee/statistics/services/StatisticsService.java:330-461 | every chart point has profit = revenue - charges |
| Charts.DayPoints | src/main/java/io/storeyes/storeyes_coffee/statistics/services/StatisticsService.java:330-391 | the day chart has seven points, the i-th for the i-th day from the Monday |
| Charts.DayChartHoldsTheDay | src/main/java/io/storeyes/storeyes_coffee/statistics/services/StatisticsService.java:330-391 | the day's own revenue appears at its weekday's point |
| Charts.DayChartUsesMondayMonth | src/main/java/io/storeyes/storeyes_coffee/statistics/services/StatisticsService.java:333-351 | when the week starts in the previous month, a charge of the day's own month does not enter the day chart |
| Charts.WeekChartSpec | src/main/java/io/storeyes/storeyes_coffee/statistics/services/StatisticsService.java:393-431 | the chart has four or five points, one per Monday of the month of the date's Monday, in order; point j is labelled W(j+1) and carries the revenue and the charges (the week view plus variable charges) of the week starting at the j-th Monday, with profit revenue minus charges |
| Charts.WeekChartAt | src/main/java/io/storeyes/storeyes_coffee/statistics/services/StatisticsService.java:393-431 | the same statement for a single index: the chart has as many points as the month has Mondays, and the point at index j is the week point of the j-th Monday, labelled W(j+1) |
| Charts.WeekChartMondays | src/main/java/io/storeyes/storeyes_coffee/statistics/services/StatisticsService.java:393-431 | the week chart's weeks are Mondays of the month of the date's Monday |
| Charts.MonthPoints | src/main/java/io/storeyes/storeyes_coffee/statistics/services/StatisticsService.java:433-461 | the month chart has four consecutive months, oldest first. Each point has its month's revenue and, as charges, the month's fixed charges rounded to cents plus its variable charges; profit is revenue minus charges |
| Charts.MonthChartConsecutive | src/main/java/io/storeyes/storeyes_coffee/statistics/services/StatisticsService.java:433-461 | the four months are consecutive and end with the requested month |
| Charts.ChartData | src/main/java/io/storeyes/storeyes_coffee/statistics/services/StatisticsService.java:314-326 | chart data exists iff the date parses; day charts have 7 points, month charts 4 |
| Charts.DetailWindow | src/main/java/io/storeyes/storeyes_coffee/statistics/services/StatisticsService.java:141-157 | a week detail covers Monday to Sunday of the week parameter; a month detail the days of the month; an unparseable key fails |
| Charts.DetailOf | src/main/java/io/storeyes/storeyes_coffee/statistics/services/StatisticsService.java:160-201 | itemCount = #fixed + #variable, totalCharges = totalFixed + totalVariable, and each item's percentages and status |
| Charts.ChargesDetail | src/main/java/io/storeyes/storeyes_coffee/statistics/services/StatisticsService.java:134-202 | only week and month are accepted, a week detail needs a week parameter, and the totals add up |
| Charts.WeekDetailWindow | src/main/java/io/storeyes/storeyes_coffee/statistics/services/StatisticsService.java:134-202 | a week detail is built from the Monday-to-Sunday window of the week parameter |
| Charts.ReportFor | src/main/java/io/storeyes/storeyes_coffee/statistics/services/StatisticsService.java:89-129 | the report's revenue, evolution, charges and chart agree with the window and period |
| Charts.GetStatistics | src/main/java/io/storeyes/storeyes_coffee/statistics/services/StatisticsService.java:51-129 | succeeds iff the window resolves; then revenue is the window's, evolution against the previous window, profit = revenue - charges |
| Sales.SoldAt | src/main/java/io/storeyes/storeyes_coffee/sales/cron/SalesProcessor.java:113-121 | a sale's timestamp exists iff both its date and time do |
| Sales.CompareOrder | src/main/java/io/storeyes/storeyes_coffee/sales/cron/SalesProcessor.java:113-121 | the comparator is antisymmetric, zero only on equal timestamps, and transitive |
| Sales.SortSales | src/main/java/io/storeyes/storeyes_coffee/sales/cron/SalesProcessor.java:113-121 | the sorted list is a permutation of the sales, newest first, sales without timestamp last |
| Sales.SortedMeaning | src/main/java/io/storeyes/storeyes_coffee/sales/cron/SalesProcessor.java:113-121 | in the sorted list a sale without timestamp is followed only by such sales, and timestamps never increase |
| Sales.SearchAsWritten | src/main/java/io/storeyes/storeyes_coffee/sales/cron/SalesProcessor.java:172-191 | the search as written returns an index within its bounds |
| Sales.SearchAsWrittenWithoutNulls | src/main/java/io/storeyes/storeyes_coffee/sales/cron/SalesProcessor.java:172-191 | without sales lacking a timestamp the search as written returns the least index before the alert, or the size |
| Sales.SearchAsWrittenMissesSale | src/main/java/io/storeyes/storeyes_coffee/sales/cron/SalesProcessor.java:180-187 | with a sale lacking a timestamp behind a qualifying one, the search as written skips past the qualifying sale |
| Sales.InsertionPoint | src/main/java/io/storeyes/storeyes_coffee/sales/cron/SalesProcessor.java:164-191 | the number of leading sales at or after the alert: all before it are at or after the alert, the one at it is before or untimed |
| Sales.FindFirstSaleBeforeDate | src/main/java/io/storeyes/storeyes_coffee/sales/cron/SalesProcessor.java:172-191 | the binary search with untimed sales counted as past the point returns the insertion point on any sorted list |
| Sales.CollectFrom | src/main/java/io/storeyes/storeyes_coffee/sales/cron/SalesProcessor.java:129-143 | at most three sales, a contiguous run from the start index, each strictly before the alert, stopping at the first that is not |
| Sales.MostRecentBefore | src/main/java/io/storeyes/storeyes_coffee/sales/cron/SalesProcessor.java:125-143 | the collected sales are the first three (or fewer) of the sales before the alert in newest-first order |
| Sales.CollectAsWrittenMissesSale | src/main/java/io/storeyes/storeyes_coffee/sales/cron/SalesProcessor.java:125-143 | collecting from the as-written search point misses a sale that the correct point collects |
| Sales.AlertRecords | src/main/java/io/storeyes/storeyes_coffee/sales/cron/SalesProcessor.java:125-158 | at most three records per alert, each linked to that alert, with the search as written or corrected |
| Sales.AlertRecordsSpec | src/main/java/io/storeyes/storeyes_coffee/sales/cron/SalesProcessor.java:125-158 | with the corrected search, an alert's records are copies of its up-to-three most recent earlier sales, newest first |
| Sales.AlertRecordsAsWritten | src/main/java/io/storeyes/storeyes_coffee/sales/cron/SalesProcessor.java:125-191 | when every sale has a timestamp, the search as written gives the same records, so the code links the up-to-three most recent earlier sales |
| Sales.LinkAlerts | src/main/java/io/storeyes/storeyes_coffee/sales/cron/SalesProcessor.java:125-158 | at most three records per alert, each linked to one of the alerts |
| Sales.LinkAlertsSplit | src/main/java/io/storeyes/storeyes_coffee/sales/cron/SalesProcessor.java:125-158 | records are grouped in alert order |
| Sales.LinkAlertsCorrected | src/main/java/io/storeyes/storeyes_coffee/sales/cron/SalesProcessor.java:125-158 | with the corrected search, every alert in turn gets copies of its most recent earlier sales |
| Sales.LinkAlertsAsWritten | src/main/java/io/storeyes/storeyes_coffee/sales/cron/SalesProcessor.java:125-191 | when every sale has a timestamp, the code links as the corrected search does |
| Sales.CreateSales | src/main/java/io/storeyes/storeyes_coffee/sales/cron/SalesProcessor.java:102-158 | `createSalesFromCoffeeSalesHourly` as written: no records when either input is empty, at most three per alert, each linked to one of the alerts |
| Sales.CreateSalesCorrected | src/main/java/io/storeyes/storeyes_coffee/sales/cron/SalesProcessor.java:102-158 | the same with the corrected search: no records when either input is empty, at most three per alert, each linked to one of the alerts |
| Sales.CreateSalesSpec | src/main/java/io/storeyes/storeyes_coffee/sales/cron/SalesProcessor.java:102-158 | with either search, every record is linked to one of the alerts and copies a sale made strictly before it |
| Sales.CreateSalesCorrectedSpec | src/main/java/io/storeyes/storeyes_coffee/sales/cron/SalesProcessor.java:102-158 | with the corrected search, the records are, alert by alert, copies of each alert's up-to-three most recent earlier sales |
| Sales.CreateSalesWithoutUntimed | src/main/java/io/storeyes/storeyes_coffee/sales/cron/SalesProcessor.java:102-191 | when every sale has a timestamp, the code creates exactly the records of the corrected search |
| Sales.ProcessSalesForStore | src/main/java/io/storeyes/storeyes_coffee/sales/cron/SalesProcessor.java:202-239 | a blank store code or missing date is rejected, in that order; otherwise the count of records the code as written builds, 0 without sales or alerts, and the corrected count when every sale has a timestamp |
| Sales.ProcessSalesMissesSale | src/main/java/io/storeyes/storeyes_coffee/sales/cron/SalesProcessor.java:125-191 | with sales [x, y, y], x before the only alert and y without a timestamp, the code saves no record |
| Sales.CorrectedLinksSale | src/main/java/io/storeyes/storeyes_coffee/sales/cron/SalesProcessor.java:125-191 | on the same sales the corrected search links x to the alert |
| DailyReports.SortDesc | src/main/java/io/storeyes/storeyes_coffee/kpi/services/KpiService.java:95-133 | a permutation of the input, descending by the key |
| DailyReports.TopBy | src/main/java/io/storeyes/storeyes_coffee/kpi/services/KpiService.java:95-120 | at most ten entries, ranked 1..k consecutively, the first k of the descending order |
| DailyReports.TopByIsTop | src/main/java/io/storeyes/storeyes_coffee/kpi/services/KpiService.java:95-120 | no product past the listed ones sorts above a listed one, and listed entries are in descending order |
| DailyReports.TopByFromProducts | src/main/java/io/storeyes/storeyes_coffee/kpi/services/KpiService.java:95-120 | every listed name is a product of the day |
| DailyReports.PaymentSplit | src/main/java/io/storeyes/storeyes_coffee/kpi/services/KpiService.java:66-73 | with a breakdown, espece = max(0, TTC - tpe); without one both are null |
| DailyReports.PaymentSplitAddsUp | src/main/java/io/storeyes/storeyes_coffee/kpi/services/KpiService.java:66-73 | when 0 <= tpe <= TTC, tpe and espece add up to TTC |
| DailyReports.UpdateRevenueBreakdown | src/main/java/io/storeyes/storeyes_coffee/kpi/services/KpiService.java:173-196 | a null or negative tpe is rejected first; success iff store, date and daily figures exist and tpe <= TTC; only the tpe of that day changes |
| DailyReports.UpdateRevenueBreakdownErrors | src/main/java/io/storeyes/storeyes_coffee/kpi/services/KpiService.java:173-186 | the missing store, date, daily figures and tpe above TTC errors, in that order |
| DailyReports.UpdateThenReport | src/main/java/io/storeyes/storeyes_coffee/kpi/services/KpiService.java:173-196 | after a successful update the report shows the stored tpe and espece = TTC - tpe |
| DailyReports.Share | src/main/java/io/storeyes/storeyes_coffee/kpi/services/KpiService.java:136-144 | 0 when the total is not positive, otherwise part/total * 100 |
| DailyReports.CategoryAnalysis | src/main/java/io/storeyes/storeyes_coffee/kpi/services/KpiService.java:122-133 | a permutation of the category rows, each with its share of revenue, sorted by revenue descending |
| DailyReports.CategoryAnalysisRows | src/main/java/io/storeyes/storeyes_coffee/kpi/services/KpiService.java:122-133 | every category row appears in the analysis with its figures and share, and every entry comes from a row |
| DailyReports.Staff | src/main/java/io/storeyes/storeyes_coffee/kpi/services/KpiService.java:135-144 | one entry per server with its revenue and share; average value = revenue / transactions, or 0 with no transactions |
| DailyReports.RangesPartitionHours | src/main/java/io/storeyes/storeyes_coffee/kpi/services/KpiService.java:210-239 | the seven half-open hour ranges are disjoint and cover exactly hours 5..21 |
| DailyReports.RangesContiguous | src/main/java/io/storeyes/storeyes_coffee/kpi/services/KpiService.java:210-218 | each range starts where the previous one ends, from 5 to 22 |
| DailyReports.PeriodsCoverTheDay | src/main/java/io/storeyes/storeyes_coffee/kpi/services/KpiService.java:226-239 | the seven period totals add up to the total of hours 5..21 |
| DailyReports.StatusOf | src/main/java/io/storeyes/storeyes_coffee/kpi/services/KpiService.java:266-274 | peak at share >= 20, moderate at >= 10, low below |
| DailyReports.PeakPeriods | src/main/java/io/storeyes/storeyes_coffee/kpi/services/KpiService.java:208-261 | fails only on duplicate hours (toMap); otherwise a permutation of the periods with revenue > 0, sorted by revenue descending |
| DailyReports.PeakPeriodsReported | src/main/java/io/storeyes/storeyes_coffee/kpi/services/KpiService.java:241-258 | a period is reported iff it is one of the seven candidates and its revenue is positive |
| DailyReports.Change | src/main/java/io/storeyes/storeyes_coffee/kpi/services/KpiService.java:392-398 | 0 when the previous revenue is missing or not positive |
| DailyReports.ChangeInverse | src/main/java/io/storeyes/storeyes_coffee/kpi/services/KpiService.java:392-398 | applying the percentage change to the previous revenue gives the current one, and its sign is the sign of the difference |
| DailyReports.RevenueComparison | src/main/java/io/storeyes/storeyes_coffee/kpi/services/KpiService.java:350-404 | 0/0 when the day has no figures; otherwise the changes against the day before and the same day a week before |
| DailyReports.GetDailyReport | src/main/java/io/storeyes/storeyes_coffee/kpi/services/KpiService.java:40-165 | a missing store is the first error; succeeds iff store, date and daily figures exist and the hourly rows have distinct hours; then the report carries the revenue card, at most ten top products each way, the peak periods and the comparison |
| TokenRefresh.ReadString | src/main/java/io/storeyes/storeyes_coffee/alerts/auth/services/AuthService.java:176-177 | `(String) getOrDefault`: the default when missing, null when JSON null, the string, or a cast failure otherwise |
| TokenRefresh.Fallback | src/main/java/io/storeyes/storeyes_coffee/alerts/auth/services/AuthService.java:181-203 | on a non-JSON body the lower-cased body's patterns choose invalid_request, invalid_grant or invalid_client; with no pattern the raw body becomes the description |
| TokenRefresh.ParseErrorBody | src/main/java/io/storeyes/storeyes_coffee/alerts/auth/services/AuthService.java:168-204 | an empty body keeps the defaults; a JSON error object gives its fields; anything else falls back to the patterns |
| TokenRefresh.MapStatus | src/main/java/io/storeyes/storeyes_coffee/alerts/auth/services/AuthService.java:206-231 | "token is not active" gives invalid_grant; 401 gives invalid_grant unless invalid_request/invalid_client; 400 keeps the three client codes, else invalid_request; any other status server_error; the result is always one of the four codes |
| TokenRefresh.GetExpiresIn | src/main/java/io/storeyes/storeyes_coffee/alerts/auth/services/AuthService.java:312-323 | the integer value, a fractional number truncated toward zero, or 300 when absent or not a number |
| TokenRefresh.Answer | src/main/java/io/storeyes/storeyes_coffee/alerts/auth/services/AuthService.java:148-160 | succeeds iff no field fails its string cast; the new refresh token, or the old one when absent or empty; token type "Bearer" by default; expiresIn as above |
| TokenRefresh.RefreshToken | src/main/java/io/storeyes/storeyes_coffee/alerts/auth/services/AuthService.java:109-237 | an empty token is invalid_request and a missing client id server_error, before any call; success only on an answered call with a body; every classified refusal carries one of the four codes |
| TokenRefresh.RejectedBeforeCall | src/main/java/io/storeyes/storeyes_coffee/alerts/auth/services/AuthService.java:111-117 | when the inputs are rejected the outcome does not depend on the token endpoint |
| TokenRefresh.ControllerStatus | src/main/java/io/storeyes/storeyes_coffee/alerts/auth/controllers/AuthController.java:129-156 | the controller answers 401 exactly for invalid_grant, 400 exactly for invalid_request, and 500 otherwise |
| TokenRefresh.NotActiveIsUnauthorized | src/main/java/io/storeyes/storeyes_coffee/alerts/auth/services/AuthService.java:206-215 | a "token is not active" description is answered 401 whatever the status |
| TokenRefresh.UnauthorizedStaysUnauthorized | src/main/java/io/storeyes/storeyes_coffee/alerts/auth/services/AuthService.java:216-222 | a 401 refusal is answered 401 unless the parsed error is invalid_request or invalid_client |
| TokenRefresh.BadRequestAnswers | src/main/java/io/storeyes/storeyes_coffee/alerts/auth/services/AuthService.java:223-231 | a 400 refusal is answered 400 unless the parsed error is invalid_grant or invalid_client; any other 4xx is answered 500 |
| TokenRefresh.RefreshExamples | src/main/java/io/storeyes/storeyes_coffee/alerts/auth/services/AuthService.java:168-231 | a 400 "Token is not active" JSON refusal is invalid_grant; an empty 401 body becomes invalid_grant "Invalid or expired refresh token" |
| Strings.Contains | src/main/java/io/storeyes/storeyes_coffee/alerts/auth/services/AuthService.java:186-197 | `String.contains`: true iff the pattern occurs at some position |
| Strings.Lower | src/main/java/io/storeyes/storeyes_coffee/alerts/auth/services/AuthService.java:186 | `toLowerCase` maps each character (ASCII letters only) |
| Strings.Trim | src/main/java/io/storeyes/storeyes_coffee/charges/services/ChargeService.java:622-627 | `String.trim`: a slice of the input that drops every leading and trailing character up to U+0020 and no other |
| Strings.TrimEmpty | src/main/java/io/storeyes/storeyes_coffee/charges/services/ChargeService.java:622-624 | a string trims to empty iff all its characters are at most U+0020 |
| Strings.TrimIdempotent | src/main/java/io/storeyes/storeyes_coffee/charges/services/ChargeService.java:622-627 | trimming twice is trimming once |
| Entities.BlankIffTrimEmpty | src/main/java/io/storeyes/storeyes_coffee/charges/services/ChargeService.java:622-624 | the blank-name test agrees with `trim().isEmpty()` |

## Left out

- HTTP controllers, request validation annotations, security context lookup of the store and the user, and the Keycloak login and logout calls. These are outside the core; the store id is a parameter.
- Hibernate persistence: entity merging, flushing, cascading, lazy collections and the transient `weekSalaries` JSON mirror. Stored state is an immutable sequence, and the transient map is modelled only where amounts are read from it (`Personnel.EntriesOfLookup`).
- Clocks: "today" and the scheduler time of the sales job are parameters.
- The asynchronous executor and the logging of the sales job.
- SQL row mapping in the sales job, including the parsing of the sold-at time. A sale's date and time are already decoded.
- JSON parsing of the identity provider's error body is an input (`ErrorJson`). The HTTP exchange itself is an input (`Exchange`).
- Years outside 0001..9999. The date and month formatters accept longer signed years; the keys here are exactly four digits.
- Locale-dependent month labels of the month chart. A label is the year-month itself.
- `calculateInsights`: the peak hour, best-selling product, highest-value product and busiest period. Only the revenue comparison is modelled; the other insights are read-only maxima over the same rows.
- The listing endpoints (all fixed charges, by month, by week; all variable charges; available employees) and `createVariableCharge`. They are repository reads or plain inserts with no logic beyond the ownership filter modelled in `Ledger`.
- Creation of new `Employee` entities when a personnel line names an unknown employee. The line refers to a new employee by name (`EmployeeRef`); the insert itself is not modelled.
- Repository derived queries such as `findByStoreIdAndMonthKey` are modelled as equality filters over the stored charges.
- `getWeeksCountInMonth` is not part of this model. Its result is taken to be the number of weeks belonging to the month (`Statistics.WeeksCount`).
- TokenRefresh.GetExpiresIn: does not model the range of Java `long` or the saturating conversion of very large doubles, because the provider sends small whole numbers.
- Statistics.Revenue: adds the daily figures exactly. The source stores them as `Double` and converts each with `BigDecimal.valueOf` (`StatisticsService.java:219`); the model takes each figure to be a whole number of 10^-4 units, so binary floating-point digits below that are not modelled.
- Strings.Lower: lower-cases the ASCII letters A-Z only. Java's `toLowerCase()` follows the default locale and all of Unicode. The patterns it is matched against are ASCII, so the classification differs only for provider messages with non-ASCII letters.
- Personnel.DistributeSalary: keeps the scale-4 weekly shares in the rows it writes. The amount columns are `numeric(10,2)` (`PersonnelWeekSalary.java:45`, `FixedCharge.java:47`, `PersonnelEmployee.java:63-79`), so rows read back in a later transaction hold cent-rounded values. The model states what the service computes within one call, not what a reload returns.
- Weeks.DistributeMonthlySalary: lists the shares in week order. The source builds a `HashMap` (`WeekCalculationUtils.java:210`), whose iteration order is unspecified. Every share is equal and rows are keyed by week, so only the order in which rows are written differs.
- Charges.ResolveEmployee: looks each line up among the employees stored before the request. The source saves a new employee at once, so a later line of the same request with the same trimmed name, type and start date would reuse it, where the model creates it again. The employee's position is not carried, and the store lookup before creating an employee is taken to succeed, the store being the caller's.
- DailyReports.Share: uses exact real division instead of IEEE double arithmetic, because the model states the shares' algebra, not their floating-point rounding.

## Findings

| source | as written | input that shows it | evidently intended | confidence | as-written member | corrected member |
|---|---|---|---|---|---|---|
| src/main/java/io/storeyes/storeyes_coffee/charges/services/ChargeService.java:186-236 | the period is overwritten from the request (190-192) before `oldPeriod` is read (206), so `periodChanged` (211) is always false and the full-replacement branch (213-236) never runs | any update of a personnel charge whose request carries a period different from the stored one, e.g. stored MONTH, request WEEK with employees | compare the request's period with the period stored before the overwrite and, when it differs, replace every salary line with lines of the new period | not executed | Charges.UpdateAsWrittenKeepsStoredLines | Charges.UpdatePeriodChangeReplaces |
| src/main/java/io/storeyes/storeyes_coffee/sales/cron/SalesProcessor.java:172-191 | the binary search treats a sale without a sold-at time as "not before the alert" and moves right past it, but the sort puts such sales last, so the predicate is not monotone; the search can land past every qualifying sale | sales [x sold at instant 0, y without time, y without time] and an alert at instant 1: the search returns 3 and no sale is linked, although x precedes the alert | count a sale without time as lying past the insertion point, so that the search returns the first sale strictly before the alert | not executed | Sales.ProcessSalesMissesSale | Sales.CreateSalesCorrectedSpec |
