# Bookkeeping core of a small-business finance page

This project models, in Dafny, the bookkeeping logic of a browser-based tool
for a small shop. The tool keeps three lists:

- the **employees**, each with a salary log;
- the **partners**, each with a percentage share of the profit;
- the **financial history**, one saved calculation result per calendar month.

From a month's revenue and bills plus the current roster, it computes the
total expenses, the net profit and each partner's part of that profit. It
saves the result under its month, replacing any earlier result for that month.
It then derives a monthly, a yearly and a comparison report from the history.

The model has five modules, one file each:

- `Common` (`common.dfy`): `Option`, and `RemoveAt`, which is `Array.prototype.splice(index, 1)` for a non-negative index.
- `Roster` (`roster.dfy`): employees, partners and the salary log. It has the functions the operations' contracts are stated in (share sums, `Hire`, `Revised`), lemmas about the share cap, and the class `RosterStore`. `RosterStore` holds the `employees` and `partners` sequences, and its methods update them in place as the script does.
- `Calculator` (`calculator.dfy`): `calculateFinancials` as a pure function, plus lemmas about how the profit is shared out.
- `History` (`history.dfy`): months, history records, the month-keyed upsert, the script's two sorts, the id search, and the class `HistoryStore` over `financialHistory` (submit, delete one record, clear).
- `Reports` (`reports.dfy`): the numbers behind the three reports.

Modelling choices:

- Money and shares are exact `real`s, not IEEE doubles.
- Ids, dates and timestamps are opaque naturals.
- A month is a pair `(year, 1..12)`. `MonthIndex` orders months the way `new Date("YYYY-MM")` does, and `MonthIndexOrder` proves this is the lexicographic order of the pair.
- Years are four-digit (`Year`, 1000 to 9999), as a `YYYY-MM` key spells them. For such a key and a four-digit year, `month.startsWith(String(year))` means the month's year equals `year`.
- Values that the script reads from the page, the clock or `Date.now()` are parameters: the parsed amounts, the selected month, fresh ids and timestamps, and the year for the yearly report.
- Confirmation dialogs are left out, so the delete operations always run.

The model follows the code as written on these points:

- The salary-log reasons are the script's French strings, `"Embauche initiale"` and `"Modification de salaire"`.
- The monthly report uses the last record in storage order, not the latest month (`Reports.MonthlyReportIsLastSaved` shows the difference).
- The partner edit keeps `personalGains`: the edit form has no field for it.

The model departs from the code on these points:

- Zero revenue: the script divides by zero and prints `NaN%`, `Infinity%` or `-Infinity%` as that month's margin. The model gives no margin (`None`), so the report can show "N/A".
- Snapshots: the script's history snapshot of the employees is a shallow copy. The model's snapshot is a value (see "Left out").
- Row index on an edit: the script does not check it. With an index that names no row, `saveEmployeeChanges` throws before it changes anything, and `savePartnerChanges` writes past the end of `partners`. The edit forms only ever send the index of an existing row. The model rejects such an index with `NotFound` and changes nothing.
- Row index on a history delete: with an index past the end of the view, `removeHistoryRecord` throws a TypeError when it reads the missing record's id, before any change. The model returns `removed == false` and leaves the history unchanged, which is the same stored state.

## Model

| member | source | states |
|---|---|---|
| `Common.RemoveAt` | script.js:173 | splice of one element: the length drops by one; elements before the index stay put; elements after it shift down by one; an index past the end changes nothing |
| `Common.RemoveAtMultiset` | script.js:420 | splicing out position k removes exactly one copy of the element at k |
| `Roster.Hire` | script.js:141-155 | a new employee has a salary log of exactly one entry, dated at hiring, with reason "Embauche initiale" and the hiring salary, so its salary agrees with the log |
| `Roster.RosterStore.AddEmployee` | script.js:130-169 | appends the new employee iff name and position are non-empty, salary > 0 and a start date is given; otherwise the roster is unchanged; the roster invariant is preserved |
| `Roster.Revised` | script.js:833-847 | name and position are always overwritten; id and start date are kept; the log grows by exactly one entry (new salary, given date, reason defaulting to "Modification de salaire") iff the salary changes, and otherwise stays the same; earlier entries are untouched; salary equals the last log entry afterwards if it did before |
| `Roster.RosterStore.SaveEmployeeChanges` | script.js:826-856 | rejects an empty name or position, or a non-positive salary; otherwise replaces only the employee at `index` by its revision; every other employee and the partners are unchanged |
| `Roster.RosterStore.RemoveEmployee` | script.js:171-178 | the employees become the splice of `index`; the partners are unchanged |
| `Roster.TotalShare` | script.js:260 | defines the partners' share sum, the reduce over `p.share` here and again at line 323; no contract of its own, its properties are the lemmas below |
| `Roster.SharesExcept` | script.js:866-868 | the edit check's sum over every partner but the one at the index: for an index naming a partner, adding that partner's share gives the total; for any other index it is the total |
| `Roster.TotalShareConcat` | script.js:260 | the share sum of a concatenation is the sum of the share sums |
| `Roster.SharesExceptSplit` | script.js:866-868 | the sum that skips index i equals the total of the roster with partner i removed |
| `Roster.SharesExceptUpdate` | script.js:866-875 | the sum that skips index i ignores whatever is stored at i |
| `Roster.AddPartnerKeepsShares` | script.js:259-275 | a partner accepted by the add check keeps every share positive and the total at most 100; the total grows by the new share |
| `Roster.EditPartnerKeepsShares` | script.js:864-880 | a replacement accepted by the edit check (other partners' shares plus the new share at most 100) keeps the invariant; the new total is the others' sum plus the new share |
| `Roster.RemovePartnerKeepsShares` | script.js:291-298 | removing a partner keeps the invariant and lowers the total by that partner's share |
| `Roster.ShareLimitExample` | script.js:259-265 | with one partner at 60, a second at 50 exceeds the 100 cap |
| `Roster.RosterStore.constructor` | script.js:3-4 | an empty roster, which satisfies the invariant |
| `Roster.RosterStore.AddPartner` | script.js:249-289 | ValidationError for an empty name or a non-positive share; ShareLimitExceeded when the current total plus the share exceeds 100; otherwise the partner is appended; a rejected call changes nothing; the invariant is preserved |
| `Roster.RosterStore.SavePartnerChanges` | script.js:858-889 | validates name and share; the cap check uses the sum of all other partners; on success only `partners[index]` changes (name, share and personal expenses), keeping its id and personal gains; the length and all other partners are unchanged; the invariant is preserved |
| `Roster.RosterStore.RemovePartner` | script.js:291-298 | the partners become the splice of `index`; the employees are unchanged; the invariant is preserved |
| `Calculator.TotalSalaries` | script.js:435 | the reduce over the employees' salaries; with positive salaries it is non-negative, and positive for a non-empty roster |
| `Calculator.BillsTotal` | script.js:436 | defines the four bills (water, electricity, wifi, other) that the total expenses add to the salaries; no contract of its own |
| `Calculator.ShareOf` | script.js:440-448 | a partner's gross part times 100 is the net profit times its share; its net part is the gross part minus personal expenses plus personal gains |
| `Calculator.PartnerProfits` | script.js:440-448 | one entry per partner, in roster order, each that partner's part |
| `Calculator.CalculateFinancials` | script.js:428-465 | total salaries are the sum of the employees' salaries; total expenses are the four bills plus the salaries; net profit plus total expenses equals revenue; one partner entry per partner with gross and net parts as above; the bills are copied; the roster snapshots are the roster |
| `Calculator.GrossAddsUp` | script.js:440-448 | the gross parts add up to the net profit times the total share over 100 |
| `Calculator.NetAddsUp` | script.js:442 | the partners' net parts add up to their gross parts minus all personal expenses plus all personal gains |
| `Calculator.SharesNonNegative` | script.js:260 | positive shares add up to a non-negative total |
| `Calculator.ProfitDistributionBounded` | script.js:435-448 | under the share invariant, the partners' combined gross part lies between 0 and the net profit (or between the loss and 0 in a loss month) |
| `Calculator.HireRaisesExpenses` | script.js:435-437 | adding an employee raises total expenses by its salary and lowers net profit by the same amount |
| `Calculator.CalculationExample` | script.js:435-448 | revenue 10000, bills 200/300/100/50 and a salary of 2000 give expenses 2650 and profit 7350; a 50% partner with 100 of expenses gets gross 3675 and net 3575 |
| `History.MonthIndex` | script.js:730 | the number the month comparator's `new Date(a.month)` orders by: non-negative, and it determines the year (index div 12) and the month (index mod 12, plus one) |
| `History.MonthIndexOrder` | script.js:730 | chronological month order is the lexicographic order of (year, month), and distinct months have distinct indices |
| `History.WithoutMonth` | script.js:491 | the filter keeps exactly the records of other months and leaves none of month m; its length is the old length minus the number of month-m records |
| `History.WithoutMonthConcat` | script.js:491 | the filter works piecewise on a concatenation, so relative order is kept |
| `History.WithoutAbsentMonth` | script.js:491 | a history without month m passes the filter unchanged |
| `History.WithoutMonthKeepsOnePerMonth` | script.js:491 | filtering keeps "at most one record per month" |
| `History.Upsert` | script.js:483-492 | afterwards exactly one record has the new month: the new record, which is the last element; everything before it is the filtered old history; one record per month is preserved |
| `History.UpsertKeepsOtherMonths` | script.js:491-492 | records of other months are all kept, in order; each other month's count is unchanged; the length is the old length minus the replaced records plus one |
| `History.UpsertTwice` | script.js:491-492 | saving a month twice equals saving only the second result; exactly one record for that month remains |
| `History.UpsertKeepsIdsDistinct` | script.js:483-492 | with a fresh id, the ids stay distinct |
| `History.SortKey` | script.js:730 | defines both comparators' keys: the month index ascending for the report sort at line 730, the negated creation date (so dates descending) for the list sort at line 416; no contract of its own |
| `History.Insert` | script.js:416 | inserting adds exactly the new record (as a multiset) |
| `History.InsertSorted` | script.js:416 | inserting into a sorted sequence gives a sorted sequence |
| `History.SortBy` | script.js:730 | the result is a permutation of the input, sorted by the order's key |
| `History.SortByStable` | script.js:730 | records with equal keys keep their relative order, as `Array.prototype.sort` guarantees |
| `History.InsertKeepsOnePerMonth` | script.js:730 | inserting a record of a new month keeps one record per month |
| `History.SortKeepsOnePerMonth` | script.js:730 | sorting keeps one record per month |
| `History.View` | script.js:416 | the list view is a permutation of the history with dates descending |
| `History.FirstIndexOfId` | script.js:418 | returns -1 iff no record has the id; otherwise the first position holding it |
| `History.FindIndexById` | script.js:418 | the loop returns the first position holding the id, or -1 |
| `History.StorageIndex` | script.js:416-418 | the shown record's id is found at its first storage position |
| `History.StorageIndexFindsShown` | script.js:416-418 | with distinct ids, the record found is the very record shown |
| `History.DeleteFromView` | script.js:414-425 | an index past the end deletes nothing; otherwise the history shrinks by exactly one |
| `History.DeleteRemovesShownRecord` | script.js:416-420 | with distinct ids, the deleted record is exactly the one shown at the index, and no remaining record carries its id |
| `History.DeleteKeepsInvariants` | script.js:414-425 | deleting keeps one record per month and distinct ids |
| `History.HistoryStore.constructor` | script.js:7 | an empty history, which satisfies the invariant |
| `History.HistoryStore.Submit` | script.js:468-492 | with no month selected nothing changes; otherwise the result is the calculation over the current roster and the history becomes its upsert under the selected month; one record per month is kept, and so are distinct ids when the id is fresh |
| `History.HistoryStore.RemoveRecord` | script.js:414-425 | removes the record that the date-descending view shows at `index`, found by id and spliced out; an index past the end changes nothing and returns `false` (the script throws there before changing anything); with the invariant, exactly the shown record is deleted |
| `History.HistoryStore.Clear` | script.js:405-412 | the history becomes empty |
| `Reports.MonthlyReportOf` | script.js:654-682 | no data iff the history is empty; otherwise the report is about the last record in storage order; the margin exists iff revenue is non-zero, and then margin times revenue is 100 times net profit |
| `Reports.MonthlyReportAfterSubmit` | script.js:654-661 | right after a month is saved, the monthly report shows that month and its revenue |
| `Reports.MonthlyReportIsLastSaved` | script.js:660 | re-saving January after February makes the report show January, although February is later |
| `Reports.YearRecords` | script.js:686-688 | keeps exactly the records whose month is in the year |
| `Reports.TotalRevenue` | script.js:695 | defines the yearly revenue reduce over the year's records; its value is stated by `YearRecordsSums` |
| `Reports.TotalExpenses` | script.js:696 | defines the yearly expenses reduce over the year's records; its value is stated by `YearRecordsSums` |
| `Reports.YearlyReportOf` | script.js:684-722 | no data iff no record is in the year; otherwise profit equals revenue minus expenses and at least one month is counted |
| `Reports.YearRecordsSums` | script.js:695-696 | the sums over the filtered records equal the conditional sums over the whole history; the count equals the number of matches |
| `Reports.YearlyReportSums` | script.js:686-697 | the yearly revenue, expenses, profit and month count are the sums and count over exactly that year's records |
| `Reports.YearSumsAppend` | script.js:695-697 | a record of another year leaves the yearly sums unchanged; a record of the year adds its own revenue, expenses and one month |
| `Reports.YearlyEmptyExample` | script.js:690-693 | a year with no records gives the explicit empty state |
| `Reports.ComparisonReportOf` | script.js:724-736 | not enough data iff fewer than 2 records; otherwise latest and previous are records of the history, no record is later than latest, previous is no later than latest, and each delta is latest minus previous |
| `Reports.SortedTopTwo` | script.js:730-732 | in a month-sorted history with one record per month, the last month is strictly later than the one before, which is no earlier than the rest |
| `Reports.ComparisonPicksTwoLatest` | script.js:730-732 | with one record per month, latest and previous are the two latest months: latest is strictly later, and every other record is no later than previous |
| `Reports.ComparisonExample` | script.js:730-736 | months 2024-01 and 2024-02 with revenue 1000/1200 and expenses 800/800 give +200 / 0 / +200, in either storage order |

## Left out

- Rendering: all DOM and HTML work is left out. That covers the list, results and history views, the report markup and its positive/negative styling, the notifications, the modals and the navigation. It is presentation only.
- Storage: the `localStorage` load and save is I/O. Each store starts empty, and saving is an external step after every change. Since loading may produce any data, each method preserves its store's invariant instead of requiring it.
- Host calls: theme and accent colour, printing and PDF export, and currency and date formatting call the browser or `Intl`. They are left out.
- Input: text parsing (`trim`, `parseFloat(...) || 0`, `parseInt`) and reading form fields are left out. The operations receive parsed values, with a missing amount already 0. JavaScript's `NaN` from a failed parse is not modelled.
- Confirmation: the yes/no prompt before a delete or a clear is a host dialog. The operations run unconditionally.
- Numbers: IEEE double rounding is not modelled; money and percentages are exact reals.
- Snapshot aliasing: the result's `employees: [...employees]` is a shallow copy. In the running page, a later `saveEmployeeChanges` mutates the employee objects in the records saved since the last load. The same call's `saveData()` writes the whole history to storage, so the edit survives a reload: those records then show the edited name, position, salary and salary log, while their `totalEmployeeSalaries` keeps the old sum. Employees are values here, so the model's snapshots are deep copies and later edits never reach the history.
- Negative and non-numeric indices: `splice` with a negative index counts from the end, and edits and deletes with a missing row are unguarded. Indices here are naturals; a missing row on an edit gives `NotFound`, and on a history delete `removed == false`.
- Calculator determinism: calculating twice on the same inputs gives the same result. This holds of every Dafny function, so it has no lemma of its own.
