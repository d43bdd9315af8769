/** The three reports of the reports page, computed from the history. */
module Reports {
  import opened Common
  import opened History

  // ----- monthly report -----

  datatype MonthlyReport =
    | NoMonthlyData
    | Monthly(month: Month, revenue: real, expenses: real, margin: Option<real>)

  /** `generateMonthlyReport`: the last record in storage order, which after a
      submission is the month just saved and not necessarily the latest month.
      The margin (percent of revenue kept as profit) does not exist for a month
      without revenue. */
  function MonthlyReportOf(h: seq<HistoryRecord>): (r: MonthlyReport)
    ensures r.NoMonthlyData? <==> h == []
    ensures r.Monthly? ==>
      && r.month == h[|h| - 1].month
      && r.revenue == h[|h| - 1].data.monthlyRevenue
      && r.expenses == h[|h| - 1].data.totalExpenses
      && (r.margin.Some? <==> r.revenue != 0.0)
      && (r.margin.Some? ==> r.margin.value * r.revenue == h[|h| - 1].data.netProfit * 100.0)
  {
    if h == [] then NoMonthlyData
    else
      var data := h[|h| - 1].data;
      Monthly(h[|h| - 1].month, data.monthlyRevenue, data.totalExpenses,
              if data.monthlyRevenue == 0.0 then None
              else Some(data.netProfit / data.monthlyRevenue * 100.0))
  }

  /** Right after a month is saved, the monthly report is about that month and its result. */
  lemma MonthlyReportAfterSubmit(h: seq<HistoryRecord>, rec: HistoryRecord)
    ensures MonthlyReportOf(Upsert(h, rec)).Monthly?
    ensures MonthlyReportOf(Upsert(h, rec)).month == rec.month
    ensures MonthlyReportOf(Upsert(h, rec)).revenue == rec.data.monthlyRevenue
  {
  }

  /** The monthly report follows storage order, not the calendar: re-saving an
      older month makes the report show that month although a later one exists. */
  lemma MonthlyReportIsLastSaved(jan: HistoryRecord, feb: HistoryRecord)
    requires jan.month == Month(2024, 1) && feb.month == Month(2024, 2)
    ensures MonthlyReportOf(Upsert([feb], jan)).month == Month(2024, 1)
    ensures MonthIndex(feb.month) > MonthIndex(jan.month)
  {
  }

  // ----- yearly report -----

  datatype YearlyReport =
    | NoYearlyData(year: Year)
    | Yearly(year: Year, totalRevenue: real, totalExpenses: real, totalProfit: real, monthsAnalysed: nat)

  /** The records whose month lies in `year`, in storage order. For a
      `YYYY-MM` key and a four-digit year, the script's prefix test is
      equality of the year. */
  function YearRecords(h: seq<HistoryRecord>, year: Year): (r: seq<HistoryRecord>)
    ensures forall x :: x in r <==> x in h && x.month.year == year
    ensures |r| <= |h|
  {
    if h == [] then []
    else if h[0].month.year == year then [h[0]] + YearRecords(h[1..], year)
    else YearRecords(h[1..], year)
  }

  /** The revenue of the records added up. */
  function TotalRevenue(rs: seq<HistoryRecord>): real {
    if rs == [] then 0.0 else rs[0].data.monthlyRevenue + TotalRevenue(rs[1..])
  }

  /** The total expenses of the records added up. */
  function TotalExpenses(rs: seq<HistoryRecord>): real {
    if rs == [] then 0.0 else rs[0].data.totalExpenses + TotalExpenses(rs[1..])
  }

  /** `generateYearlyReport` for the given year (the script uses the clock's year). */
  function YearlyReportOf(h: seq<HistoryRecord>, year: Year): (r: YearlyReport)
    ensures r.year == year
    ensures r.NoYearlyData? <==> forall i :: 0 <= i < |h| ==> h[i].month.year != year
    ensures r.Yearly? ==> r.totalProfit == r.totalRevenue - r.totalExpenses && r.monthsAnalysed > 0
  {
    var yearly := YearRecords(h, year);
    if yearly == [] then
      assert forall i :: 0 <= i < |h| ==> h[i] in h;
      NoYearlyData(year)
    else
      assert yearly[0] in yearly;
      var totalRevenue := TotalRevenue(yearly);
      var totalExpenses := TotalExpenses(yearly);
      Yearly(year, totalRevenue, totalExpenses, totalRevenue - totalExpenses, |yearly|)
  }

  /** Reference sums over the whole history, counting only the year's records. */
  function RevenueInYear(h: seq<HistoryRecord>, year: Year): real {
    if h == [] then 0.0
    else (if h[0].month.year == year then h[0].data.monthlyRevenue else 0.0) + RevenueInYear(h[1..], year)
  }

  function ExpensesInYear(h: seq<HistoryRecord>, year: Year): real {
    if h == [] then 0.0
    else (if h[0].month.year == year then h[0].data.totalExpenses else 0.0) + ExpensesInYear(h[1..], year)
  }

  function CountInYear(h: seq<HistoryRecord>, year: Year): nat {
    if h == [] then 0 else (if h[0].month.year == year then 1 else 0) + CountInYear(h[1..], year)
  }

  lemma {:induction false} YearRecordsSums(h: seq<HistoryRecord>, year: Year)
    ensures TotalRevenue(YearRecords(h, year)) == RevenueInYear(h, year)
    ensures TotalExpenses(YearRecords(h, year)) == ExpensesInYear(h, year)
    ensures |YearRecords(h, year)| == CountInYear(h, year)
  {
    if h != [] {
      YearRecordsSums(h[1..], year);
    }
  }

  /** The yearly totals are the sums over exactly the records of that year. */
  lemma YearlyReportSums(h: seq<HistoryRecord>, year: Year)
    requires YearlyReportOf(h, year).Yearly?
    ensures YearlyReportOf(h, year).totalRevenue == RevenueInYear(h, year)
    ensures YearlyReportOf(h, year).totalExpenses == ExpensesInYear(h, year)
    ensures YearlyReportOf(h, year).totalProfit == RevenueInYear(h, year) - ExpensesInYear(h, year)
    ensures YearlyReportOf(h, year).monthsAnalysed == CountInYear(h, year)
  {
    YearRecordsSums(h, year);
  }

  /** Records of other years do not affect a year's totals; a record of the
      year adds its own figures. */
  lemma {:induction false} YearSumsAppend(h: seq<HistoryRecord>, rec: HistoryRecord, year: Year)
    ensures RevenueInYear(h + [rec], year)
         == RevenueInYear(h, year) + (if rec.month.year == year then rec.data.monthlyRevenue else 0.0)
    ensures ExpensesInYear(h + [rec], year)
         == ExpensesInYear(h, year) + (if rec.month.year == year then rec.data.totalExpenses else 0.0)
    ensures CountInYear(h + [rec], year) == CountInYear(h, year) + (if rec.month.year == year then 1 else 0)
  {
    if h == [] {
      assert h + [rec] == [rec];
    } else {
      assert (h + [rec])[1..] == h[1..] + [rec];
      YearSumsAppend(h[1..], rec, year);
    }
  }

  /** A year with no record gives the empty state, whatever else the history holds. */
  lemma YearlyEmptyExample(h: seq<HistoryRecord>)
    requires forall i :: 0 <= i < |h| ==> h[i].month.year == 2023
    ensures YearlyReportOf(h, 2024) == NoYearlyData(2024)
  {
  }

  // ----- comparison report -----

  datatype ComparisonReport =
    | NotEnoughData
    | Comparison(previous: HistoryRecord, latest: HistoryRecord,
                 revenueChange: real, expenseChange: real, profitChange: real)

  /** `generateComparisonReport`: sort by month, compare the last two. */
  function ComparisonReportOf(h: seq<HistoryRecord>): (r: ComparisonReport)
    ensures r.NotEnoughData? <==> |h| < 2
    ensures r.Comparison? ==>
      && r.latest in h && r.previous in h
      && MonthIndex(r.previous.month) <= MonthIndex(r.latest.month)
      && (forall x :: x in h ==> MonthIndex(x.month) <= MonthIndex(r.latest.month))
      && r.revenueChange == r.latest.data.monthlyRevenue - r.previous.data.monthlyRevenue
      && r.expenseChange == r.latest.data.totalExpenses - r.previous.data.totalExpenses
      && r.profitChange == r.latest.data.netProfit - r.previous.data.netProfit
  {
    if |h| < 2 then NotEnoughData
    else
      var sorted := SortBy(ByMonth, h);
      var latest := sorted[|sorted| - 1];
      var previous := sorted[|sorted| - 2];
      assert latest in multiset(h) && previous in multiset(h);
      assert forall x :: x in h ==> MonthIndex(x.month) <= MonthIndex(latest.month) by {
        forall x | x in h ensures MonthIndex(x.month) <= MonthIndex(latest.month) {
          assert x in multiset(sorted);
        }
      }
      Comparison(previous, latest,
                 latest.data.monthlyRevenue - previous.data.monthlyRevenue,
                 latest.data.totalExpenses - previous.data.totalExpenses,
                 latest.data.netProfit - previous.data.netProfit)
  }

  /** In a month-sorted history with one record per month, the last record
      is strictly later than the one before it, which is no earlier than the rest. */
  lemma SortedTopTwo(s: seq<HistoryRecord>)
    requires Sorted(ByMonth, s) && AtMostOnePerMonth(s) && |s| >= 2
    ensures MonthIndex(s[|s| - 2].month) < MonthIndex(s[|s| - 1].month)
    ensures forall j :: 0 <= j < |s| - 1 ==> MonthIndex(s[j].month) <= MonthIndex(s[|s| - 2].month)
  {
  }

  /** With one record per month, the comparison is between the two latest
      months: the latest is strictly after the previous one, and every other
      record is no later than the previous one. */
  lemma ComparisonPicksTwoLatest(h: seq<HistoryRecord>)
    requires AtMostOnePerMonth(h) && |h| >= 2
    ensures var r := ComparisonReportOf(h);
      && MonthIndex(r.previous.month) < MonthIndex(r.latest.month)
      && forall x :: x in h && x.month != r.latest.month ==> MonthIndex(x.month) <= MonthIndex(r.previous.month)
  {
    var sorted := SortBy(ByMonth, h);
    var n := |sorted|;
    SortKeepsOnePerMonth(ByMonth, h);
    SortedTopTwo(sorted);
    var r := ComparisonReportOf(h);
    assert r.latest == sorted[n - 1] && r.previous == sorted[n - 2];
    forall x | x in h && x.month != r.latest.month
      ensures MonthIndex(x.month) <= MonthIndex(r.previous.month)
    {
      assert x in multiset(sorted);
      var j :| 0 <= j < n && sorted[j] == x;
    }
  }

  /** The worked example: January and February 2024 with revenue 1000 and
      1200 and expenses 800 both months, in either storage order. */
  lemma ComparisonExample(jan: HistoryRecord, feb: HistoryRecord)
    requires jan.month == Month(2024, 1) && feb.month == Month(2024, 2)
    requires jan.data.monthlyRevenue == 1000.0 && jan.data.totalExpenses == 800.0 && jan.data.netProfit == 200.0
    requires feb.data.monthlyRevenue == 1200.0 && feb.data.totalExpenses == 800.0 && feb.data.netProfit == 400.0
    ensures ComparisonReportOf([jan, feb]) == Comparison(jan, feb, 200.0, 0.0, 200.0)
    ensures ComparisonReportOf([feb, jan]) == Comparison(jan, feb, 200.0, 0.0, 200.0)
  {
  }
}
