/**
 * The projection engine of the bamboo and biochar forecast: from scalar
 * business assumptions to one financial row per projected year.
 *
 * The engine is a loop over `year = 1 .. projectionYears` that carries the
 * outstanding loan balance and the running cash total from one year to the
 * next (`GenerateProjections`). The same computation is written once more as
 * plain functions (`Step`, `Run`, `Projection`), which the loop is proved
 * against and which the lemmas in `ProjectionProperties` talk about.
 */
module Projections {
  import opened Annuity

  /**
   * The inputs of one run, one per parameter of the engine. Money is in
   * dollars, land in acres, produce in tons; every rate is a fraction
   * (0.08 for 8%). The year counts are whole numbers.
   */
  datatype Assumptions = Assumptions(
    acres: real,
    landCostPerAcre: real,
    plantingCostPerAcre: real,
    initialEquipmentCost: real,
    bambooYieldPerAcre: real,
    bambooPricePerTon: real,
    maintenancePerAcre: real,
    maturityYears: int,
    biocharYieldRatio: real,
    biocharCostPerTon: real,
    biocharPricePerTon: real,
    initialInvestment: real,
    loanAmount: real,
    loanInterestRate: real,
    loanTermYears: int,
    taxRate: real,
    projectionYears: int)

  /** One row of the projection table, with the table's columns. */
  datatype YearRecord = YearRecord(
    year: int,
    bambooRevenue: real,
    biocharRevenue: real,
    totalRevenue: real,
    totalCosts: real,
    depreciation: real,
    interest: real,
    loanPayment: real,
    ebit: real,
    taxes: real,
    netIncome: real,
    freeCashFlow: real,
    cumulativeCash: real)

  /** What the loop carries from one year to the next. */
  datatype Running = Running(balance: real, cumulativeCash: real)

  /** One year of debt service and the balance left after it. */
  datatype LoanYear = LoanYear(interest: real, principal: real, payment: real, balance: real)

  datatype YearResult = YearResult(row: YearRecord, next: Running)

  /** The rows of the first years and the state after them. */
  datatype Progress = Progress(rows: seq<YearRecord>, state: Running)

  /**
   * The engine divides by the maturity period in every projected year, so it
   * can run only when that period is not zero or no year is projected.
   */
  predicate Runnable(a: Assumptions)
  {
    a.projectionYears <= 0 || a.maturityYears != 0
  }

  /** The number of rows: `range(1, projectionYears + 1)` is empty when `projectionYears < 1`. */
  function YearsProjected(a: Assumptions): nat
  {
    if a.projectionYears > 0 then a.projectionYears else 0
  }

  /** Land, planting and equipment bought before the first year. */
  function TotalInitialCost(a: Assumptions): (c: real)
    ensures c - a.initialEquipmentCost == a.acres * (a.landCostPerAcre + a.plantingCostPerAcre)
    ensures a.acres >= 0.0 && a.landCostPerAcre >= 0.0 && a.plantingCostPerAcre >= 0.0 ==>
              c >= a.initialEquipmentCost
  {
    a.acres * a.landCostPerAcre + a.acres * a.plantingCostPerAcre + a.initialEquipmentCost
  }

  /** Equity plus loan proceeds, less the initial outlay: the cash before year 1. */
  function StartingCash(a: Assumptions): (cash: real)
    ensures cash + TotalInitialCost(a) == a.initialInvestment + a.loanAmount
  {
    a.initialInvestment + a.loanAmount - TotalInitialCost(a)
  }

  /** The fixed annual loan payment, computed once before the loop. */
  function FixedPayment(a: Assumptions): (pmt: real)
    ensures !(a.loanAmount > 0.0 && a.loanTermYears > 0 && a.loanInterestRate > 0.0) ==> pmt == 0.0
    ensures a.loanAmount > 0.0 && a.loanTermYears > 0 && a.loanInterestRate > 0.0 ==>
              pmt > a.loanAmount * a.loanInterestRate
  {
    AnnuityPayment(a.loanAmount, a.loanInterestRate, a.loanTermYears)
  }

  /**
   * The share of full output reached in `year`: `min(year / maturityYears, 1)`.
   * The ramp is linear, so the first year already yields `1 / maturityYears`
   * of the mature crop, and from the maturity year on the share is exactly one.
   */
  function YieldFactor(year: int, maturityYears: int): (f: real)
    requires maturityYears != 0
    ensures maturityYears > 0 && year >= 0 ==> 0.0 <= f <= 1.0
    ensures maturityYears > 0 ==> (f == 1.0 <==> year >= maturityYears)
    ensures maturityYears > 0 && year > 0 ==> f > 0.0
  {
    var ramp := year as real / maturityYears as real;
    if 1.0 < ramp then 1.0 else ramp
  }

  /** Bamboo harvested in `year`: the mature yield of all acres, scaled by the ramp. */
  function BambooTons(a: Assumptions, year: int): (tons: real)
    requires a.maturityYears != 0
    ensures year == 0 ==> tons == 0.0
    ensures a.maturityYears > 0 && year >= a.maturityYears ==> tons == a.bambooYieldPerAcre * a.acres
  {
    a.bambooYieldPerAcre * a.acres * YieldFactor(year, a.maturityYears)
  }

  /** Biochar made in `year`: a fixed fraction of the bamboo tonnage. */
  function BiocharTons(a: Assumptions, year: int): (tons: real)
    requires a.maturityYears != 0
    ensures year == 0 ==> tons == 0.0
    ensures a.maturityYears > 0 && year >= a.maturityYears ==>
              tons == a.bambooYieldPerAcre * a.acres * a.biocharYieldRatio
  {
    BambooTons(a, year) * a.biocharYieldRatio
  }

  /** Straight-line depreciation of the equipment over five years (nothing if it cost nothing). */
  function DepreciationPerYear(a: Assumptions): (d: real)
    ensures d >= 0.0
    ensures 5.0 * d == (if a.initialEquipmentCost > 0.0 then a.initialEquipmentCost else 0.0)
  {
    if a.initialEquipmentCost > 0.0 then a.initialEquipmentCost / 5.0 else 0.0
  }

  /**
   * Depreciation charged in `year`: one fifth of a positive equipment cost in
   * each of years 1 to 5, nothing afterwards and never a negative charge.
   */
  function Depreciation(a: Assumptions, year: int): (d: real)
    ensures d >= 0.0
    ensures year <= 5 ==> 5.0 * d == (if a.initialEquipmentCost > 0.0 then a.initialEquipmentCost else 0.0)
    ensures year > 5 ==> d == 0.0
  {
    if year <= 5 then DepreciationPerYear(a) else 0.0
  }

  /**
   * One year of debt service. Past the term, or once nothing is owed, nothing
   * is charged or repaid and the balance stays. Otherwise the interest is
   * `balance * rate`, the fixed payment's remainder repays principal, but never
   * more than is owed, and the payment made is interest plus principal.
   */
  function ServiceLoan(year: int, termYears: int, rate: real, pmt: real, balance: real): (l: LoanYear)
    ensures year > termYears || balance <= 0.0 ==> l == LoanYear(0.0, 0.0, 0.0, balance)
    ensures !(year > termYears || balance <= 0.0) ==>
              l.interest == balance * rate && l.principal <= balance && l.balance >= 0.0
    ensures !(year > termYears || balance <= 0.0) && pmt - balance * rate <= balance ==>
              l.payment == pmt
    ensures l.payment == l.interest + l.principal
    ensures l.balance == balance - l.principal
    ensures pmt >= balance * rate ==> l.principal >= 0.0
  {
    if year > termYears || balance <= 0.0 then
      LoanYear(0.0, 0.0, 0.0, balance)
    else
      var interest := balance * rate;
      var principal := if pmt - interest > balance then balance else pmt - interest;
      LoanYear(interest, principal, interest + principal, balance - principal)
  }

  /**
   * Tax on the year's earnings after interest, `max(0, ebit * rate)`: never
   * negative, never below `ebit * rate`, and one of the two. With a
   * non-negative rate a year without profit pays no tax.
   */
  function Taxes(ebit: real, rate: real): (t: real)
    ensures t >= 0.0 && t >= ebit * rate
    ensures t == 0.0 || t == ebit * rate
    ensures rate >= 0.0 && ebit <= 0.0 ==> t == 0.0
  {
    if 0.0 < ebit * rate then ebit * rate else 0.0
  }

  /**
   * One pass of the loop body: the row for `year`, given the balance and the
   * running cash before that year, and both after it. The principal repaid
   * this year is the fall in the balance.
   */
  function Step(a: Assumptions, year: int, s: Running): (y: YearResult)
    requires a.maturityYears != 0
    ensures y.row.year == year
    ensures y.row.bambooRevenue == BambooTons(a, year) * a.bambooPricePerTon
    ensures y.row.biocharRevenue == BiocharTons(a, year) * a.biocharPricePerTon
    ensures y.row.totalRevenue == y.row.bambooRevenue + y.row.biocharRevenue
    ensures y.row.totalCosts == a.maintenancePerAcre * a.acres + BiocharTons(a, year) * a.biocharCostPerTon
    ensures y.row.depreciation == Depreciation(a, year)
    ensures y.row.ebit == y.row.totalRevenue - y.row.totalCosts - y.row.depreciation - y.row.interest
    ensures y.row.taxes == Taxes(y.row.ebit, a.taxRate)
    ensures y.row.netIncome == y.row.ebit - y.row.taxes
    ensures y.row.loanPayment == y.row.interest + (s.balance - y.next.balance)
    ensures y.row.freeCashFlow
            == y.row.netIncome + y.row.depreciation - (s.balance - y.next.balance)
    ensures y.row.cumulativeCash == y.next.cumulativeCash == s.cumulativeCash + y.row.freeCashFlow
  {
    var bambooTons := BambooTons(a, year);
    var bambooRevenue := bambooTons * a.bambooPricePerTon;
    var biocharTons := BiocharTons(a, year);
    var biocharRevenue := biocharTons * a.biocharPricePerTon;
    var totalRevenue := bambooRevenue + biocharRevenue;
    var totalCosts := a.maintenancePerAcre * a.acres + biocharTons * a.biocharCostPerTon;
    var depreciation := Depreciation(a, year);
    var ebitda := totalRevenue - totalCosts;
    var loan := ServiceLoan(year, a.loanTermYears, a.loanInterestRate, FixedPayment(a), s.balance);
    var ebit := ebitda - depreciation - loan.interest;
    var taxes := Taxes(ebit, a.taxRate);
    var netIncome := ebit - taxes;
    var freeCashFlow := netIncome + depreciation - loan.principal;
    var cumulativeCash := s.cumulativeCash + freeCashFlow;
    YearResult(
      YearRecord(year, bambooRevenue, biocharRevenue, totalRevenue, totalCosts, depreciation,
                 loan.interest, loan.payment, ebit, taxes, netIncome, freeCashFlow, cumulativeCash),
      Running(loan.balance, cumulativeCash))
  }

  /**
   * The first `k` years of the loop: `k` rows for years 1 to `k` in order, and
   * the balance and running cash after year `k`.
   */
  function Run(a: Assumptions, k: nat): (p: Progress)
    requires k == 0 || a.maturityYears != 0
    ensures |p.rows| == k
    ensures forall i :: 0 <= i < k ==> p.rows[i].year == i + 1
  {
    if k == 0 then
      Progress([], Running(a.loanAmount, StartingCash(a)))
    else
      var before := Run(a, k - 1);
      var y := Step(a, k, before.state);
      Progress(before.rows + [y.row], y.next)
  }

  /** The table the engine returns. */
  function Projection(a: Assumptions): seq<YearRecord>
    requires Runnable(a)
  {
    Run(a, YearsProjected(a)).rows
  }

  /**
   * The debt-service part of the loop body: charges interest on the balance,
   * repays the rest of the fixed payment as principal, clamped to what is
   * owed, and lowers the balance by it; nothing happens past the term or once
   * nothing is owed. The outcome is the one `ServiceLoan` specifies.
   */
  method RepayLoan(year: int, termYears: int, rate: real, pmt: real, balance: real)
    returns (interest: real, principal: real, loanPayment: real, newBalance: real)
    ensures LoanYear(interest, principal, loanPayment, newBalance)
            == ServiceLoan(year, termYears, rate, pmt, balance)
  {
    newBalance := balance;
    if year > termYears || balance <= 0.0 {
      interest, principal, loanPayment := 0.0, 0.0, 0.0;
    } else {
      interest := balance * rate;
      principal := pmt - interest;
      if principal > balance {
        principal := balance;
      }
      newBalance := newBalance - principal;
      loanPayment := interest + principal;
    }
  }

  /**
   * The body of the engine's loop for one year: computes the year's row from
   * the balance and running cash before it, repaying principal from the
   * balance and adding the free cash flow to the running cash. Its results are
   * exactly the row and state `Step` specifies.
   */
  method ProjectYear(a: Assumptions, year: int, pmt: real, balance: real, cumulativeCash: real)
    returns (row: YearRecord, newBalance: real, newCumulativeCash: real)
    requires a.maturityYears != 0 && pmt == FixedPayment(a)
    ensures YearResult(row, Running(newBalance, newCumulativeCash))
            == Step(a, year, Running(balance, cumulativeCash))
  {
    hide ServiceLoan;
    hide Taxes;
    hide BambooTons;
    hide BiocharTons;
    hide Depreciation;
    hide FixedPayment;
    var bambooTons := BambooTons(a, year);
    var bambooRevenue := bambooTons * a.bambooPricePerTon;
    var biocharTons := BiocharTons(a, year);
    var biocharRevenue := biocharTons * a.biocharPricePerTon;
    var totalRevenue := bambooRevenue + biocharRevenue;
    var totalCosts := a.maintenancePerAcre * a.acres + biocharTons * a.biocharCostPerTon;
    var depreciation := Depreciation(a, year);
    var ebitda := totalRevenue - totalCosts;

    var interest, principal, loanPayment;
    interest, principal, loanPayment, newBalance :=
      RepayLoan(year, a.loanTermYears, a.loanInterestRate, pmt, balance);

    var ebit := ebitda - depreciation - interest;
    var taxes := Taxes(ebit, a.taxRate);
    var netIncome := ebit - taxes;
    var freeCashFlow := netIncome + depreciation - principal;
    newCumulativeCash := cumulativeCash + freeCashFlow;
    row := YearRecord(year, bambooRevenue, biocharRevenue, totalRevenue, totalCosts,
                      depreciation, interest, loanPayment, ebit, taxes, netIncome,
                      freeCashFlow, newCumulativeCash);
    ghost var y := Step(a, year, Running(balance, cumulativeCash));
    assert y.row.ebit == ebit;
    assert y.row.taxes == taxes;
    assert y.row.freeCashFlow == freeCashFlow;
  }

  /**
   * The engine: computes the fixed loan payment once, then walks the years,
   * carrying the loan balance and the running cash from one year to the next
   * and appending one row per year. It returns exactly `projectionYears` rows
   * (none when that is below one), for years 1, 2, ... in order, and they are
   * the rows `Run` gives.
   */
  method GenerateProjections(a: Assumptions) returns (rows: seq<YearRecord>)
    requires Runnable(a)
    ensures rows == Projection(a)
    ensures |rows| == YearsProjected(a)
    ensures forall i :: 0 <= i < |rows| ==> rows[i].year == i + 1
  {
    var pmt := FixedPayment(a);
    var balance := a.loanAmount;
    var cumulativeCash := StartingCash(a);
    rows := [];
    var year := 1;
    while year <= a.projectionYears
      invariant 1 <= year <= YearsProjected(a) + 1
      invariant Run(a, year - 1) == Progress(rows, Running(balance, cumulativeCash))
      decreases a.projectionYears - year
    {
      var row;
      row, balance, cumulativeCash := ProjectYear(a, year, pmt, balance, cumulativeCash);
      rows := rows + [row];
      year := year + 1;
    }
  }
}
