/** The monthly calculation: from the bills, the revenue and the current
    roster to a result record with the expenses, the net profit and each
    partner's part of it. */
module Calculator {
  import opened Roster

  /** The already-parsed fields of the monthly form (missing amounts are 0). */
  datatype MonthlyInput = MonthlyInput(
    monthlyRevenue: real,
    waterBill: real,
    electricityBill: real,
    wifiBill: real,
    otherExpenses: real,
    otherExpensesDescription: string)

  datatype Expenses = Expenses(
    waterBill: real,
    electricityBill: real,
    wifiBill: real,
    otherExpenses: real,
    otherExpensesDescription: string)

  /** A partner together with the part of the net profit it receives. */
  datatype PartnerProfit = PartnerProfit(partner: Partner, grossProfit: real, netProfit: real)

  datatype FinancialResult = FinancialResult(
    monthlyRevenue: real,
    expenses: Expenses,
    totalEmployeeSalaries: real,
    totalExpenses: real,
    netProfit: real,
    partnerProfits: seq<PartnerProfit>,
    employees: seq<Employee>,
    partners: seq<Partner>)

  /** The sum of the employees' current salaries; positive salaries give a
      positive sum for a non-empty roster. */
  function TotalSalaries(es: seq<Employee>): (r: real)
    ensures (forall i :: 0 <= i < |es| ==> es[i].salary > 0.0) ==> r >= 0.0 && (es != [] ==> r > 0.0)
  {
    if es == [] then 0.0 else es[0].salary + TotalSalaries(es[1..])
  }

  /** The four bills of the month added up. */
  function BillsTotal(input: MonthlyInput): real {
    input.waterBill + input.electricityBill + input.wifiBill + input.otherExpenses
  }

  /** One partner's part: its share of the net profit, then its personal
      expenses taken off and its personal gains added. */
  function ShareOf(netProfit: real, p: Partner): (r: PartnerProfit)
    ensures r.partner == p
    ensures r.grossProfit * 100.0 == netProfit * p.share
    ensures r.netProfit + p.personalExpenses == r.grossProfit + p.personalGains
  {
    var gross := netProfit * p.share / 100.0;
    PartnerProfit(p, gross, gross - p.personalExpenses + p.personalGains)
  }

  /** The partners' parts of the net profit: one entry per partner, in roster order. */
  function PartnerProfits(netProfit: real, ps: seq<Partner>): (r: seq<PartnerProfit>)
    ensures |r| == |ps|
    ensures forall i :: 0 <= i < |ps| ==> r[i] == ShareOf(netProfit, ps[i])
  {
    if ps == [] then [] else [ShareOf(netProfit, ps[0])] + PartnerProfits(netProfit, ps[1..])
  }

  /** `calculateFinancials`, with the roster passed in instead of read from globals. */
  function CalculateFinancials(input: MonthlyInput, es: seq<Employee>, ps: seq<Partner>): (r: FinancialResult)
    ensures r.monthlyRevenue == input.monthlyRevenue
    ensures r.totalEmployeeSalaries == TotalSalaries(es)
    ensures r.totalExpenses == BillsTotal(input) + TotalSalaries(es)
    ensures r.netProfit + r.totalExpenses == input.monthlyRevenue
    ensures |r.partnerProfits| == |ps|
    ensures forall i :: 0 <= i < |ps| ==>
      && r.partnerProfits[i].partner == ps[i]
      && r.partnerProfits[i].grossProfit * 100.0 == r.netProfit * ps[i].share
      && r.partnerProfits[i].netProfit
         == r.partnerProfits[i].grossProfit - ps[i].personalExpenses + ps[i].personalGains
    ensures r.expenses == Expenses(input.waterBill, input.electricityBill, input.wifiBill,
                                   input.otherExpenses, input.otherExpensesDescription)
    ensures r.employees == es && r.partners == ps
  {
    var totalEmployeeSalaries := TotalSalaries(es);
    var totalExpenses := BillsTotal(input) + totalEmployeeSalaries;
    var netProfit := input.monthlyRevenue - totalExpenses;
    FinancialResult(
      input.monthlyRevenue,
      Expenses(input.waterBill, input.electricityBill, input.wifiBill, input.otherExpenses,
               input.otherExpensesDescription),
      totalEmployeeSalaries,
      totalExpenses,
      netProfit,
      PartnerProfits(netProfit, ps),
      es,
      ps)
  }

  function TotalGross(pps: seq<PartnerProfit>): real {
    if pps == [] then 0.0 else pps[0].grossProfit + TotalGross(pps[1..])
  }

  function TotalPartnerNet(pps: seq<PartnerProfit>): real {
    if pps == [] then 0.0 else pps[0].netProfit + TotalPartnerNet(pps[1..])
  }

  function TotalPersonalExpenses(ps: seq<Partner>): real {
    if ps == [] then 0.0 else ps[0].personalExpenses + TotalPersonalExpenses(ps[1..])
  }

  function TotalPersonalGains(ps: seq<Partner>): real {
    if ps == [] then 0.0 else ps[0].personalGains + TotalPersonalGains(ps[1..])
  }

  /** The gross parts add up to the total share's percentage of the net profit. */
  lemma {:induction false} GrossAddsUp(netProfit: real, ps: seq<Partner>)
    ensures TotalGross(PartnerProfits(netProfit, ps)) * 100.0 == netProfit * TotalShare(ps)
  {
    if ps != [] {
      GrossAddsUp(netProfit, ps[1..]);
      var rest := PartnerProfits(netProfit, ps[1..]);
      assert PartnerProfits(netProfit, ps)[1..] == rest;
      calc {
        TotalGross(PartnerProfits(netProfit, ps)) * 100.0;
        (ShareOf(netProfit, ps[0]).grossProfit + TotalGross(rest)) * 100.0;
        ShareOf(netProfit, ps[0]).grossProfit * 100.0 + TotalGross(rest) * 100.0;
        netProfit * ps[0].share + netProfit * TotalShare(ps[1..]);
        netProfit * (ps[0].share + TotalShare(ps[1..]));
      }
    }
  }

  /** Each partner's net part is its gross part adjusted by its own expenses and gains. */
  lemma {:induction false} NetAddsUp(netProfit: real, ps: seq<Partner>)
    ensures TotalPartnerNet(PartnerProfits(netProfit, ps))
         == TotalGross(PartnerProfits(netProfit, ps)) - TotalPersonalExpenses(ps) + TotalPersonalGains(ps)
  {
    if ps != [] {
      NetAddsUp(netProfit, ps[1..]);
      assert PartnerProfits(netProfit, ps)[1..] == PartnerProfits(netProfit, ps[1..]);
    }
  }

  /** With the share invariant, the partners never receive more than the net
      profit (and, in a loss month, never carry more than the loss). */
  lemma ProfitDistributionBounded(input: MonthlyInput, es: seq<Employee>, ps: seq<Partner>)
    requires SharesValid(ps)
    ensures var r := CalculateFinancials(input, es, ps);
      var distributed := TotalGross(r.partnerProfits);
      (r.netProfit >= 0.0 ==> 0.0 <= distributed <= r.netProfit)
      && (r.netProfit < 0.0 ==> r.netProfit <= distributed <= 0.0)
  {
    var r := CalculateFinancials(input, es, ps);
    GrossAddsUp(r.netProfit, ps);
    SharesNonNegative(ps);
    var t := TotalShare(ps);
    var d := TotalGross(r.partnerProfits);
    assert d * 100.0 == r.netProfit * t;
    if r.netProfit >= 0.0 {
      assert r.netProfit * t <= r.netProfit * 100.0;
      assert r.netProfit * t >= 0.0;
    } else {
      assert r.netProfit * t >= r.netProfit * 100.0;
      assert r.netProfit * t <= 0.0;
    }
  }

  /** Positive shares add up to a non-negative total. */
  lemma {:induction false} SharesNonNegative(ps: seq<Partner>)
    requires forall i :: 0 <= i < |ps| ==> ps[i].share > 0.0
    ensures TotalShare(ps) >= 0.0
  {
    if ps != [] {
      SharesNonNegative(ps[1..]);
    }
  }

  lemma {:induction false} TotalSalariesConcat(a: seq<Employee>, b: seq<Employee>)
    ensures TotalSalaries(a + b) == TotalSalaries(a) + TotalSalaries(b)
  {
    if a == [] {
      assert a + b == b;
    } else {
      assert (a + b)[1..] == a[1..] + b;
      TotalSalariesConcat(a[1..], b);
    }
  }

  /** Hiring an employee raises the month's expenses by exactly the new salary
      and lowers the net profit by the same amount. */
  lemma HireRaisesExpenses(input: MonthlyInput, es: seq<Employee>, ps: seq<Partner>, e: Employee)
    ensures CalculateFinancials(input, es + [e], ps).totalExpenses
         == CalculateFinancials(input, es, ps).totalExpenses + e.salary
    ensures CalculateFinancials(input, es + [e], ps).netProfit
         == CalculateFinancials(input, es, ps).netProfit - e.salary
  {
    TotalSalariesConcat(es, [e]);
    assert TotalSalaries([e]) == e.salary;
  }

  /** A worked example: revenue 10000, bills 200/300/100/50,
      one salary of 2000 and one partner with half the shares and 100 of
      personal expenses. */
  lemma CalculationExample(e: Employee, p: Partner)
    requires e.salary == 2000.0
    requires p.share == 50.0 && p.personalExpenses == 100.0 && p.personalGains == 0.0
    ensures var r := CalculateFinancials(MonthlyInput(10000.0, 200.0, 300.0, 100.0, 50.0, ""), [e], [p]);
      && r.totalExpenses == 2650.0
      && r.netProfit == 7350.0
      && r.partnerProfits[0].grossProfit == 3675.0
      && r.partnerProfits[0].netProfit == 3575.0
  {
    assert TotalSalaries([e]) == 2000.0;
  }
}
