/**
 * What the projection table promises across years: the running cash is the
 * starting cash plus the free cash flows so far, the loan balance never rises
 * and never goes below zero, the annuity retires the loan exactly at the end
 * of its term, the equipment is depreciated exactly once, and output follows
 * the maturity ramp.
 */
module ProjectionProperties {
  import opened Annuity
  import opened Projections

  /** Sum of the "Free Cash Flow" column. */
  function SumFreeCashFlow(rows: seq<YearRecord>): real
  {
    if rows == [] then 0.0
    else SumFreeCashFlow(rows[..|rows| - 1]) + rows[|rows| - 1].freeCashFlow
  }

  /** Principal repaid over the rows: each year's loan payment less its interest. */
  function SumPrincipal(rows: seq<YearRecord>): real
  {
    if rows == [] then 0.0
    else SumPrincipal(rows[..|rows| - 1]) + (rows[|rows| - 1].loanPayment - rows[|rows| - 1].interest)
  }

  /** Sum of the "Depreciation" column. */
  function SumDepreciation(rows: seq<YearRecord>): real
  {
    if rows == [] then 0.0
    else SumDepreciation(rows[..|rows| - 1]) + rows[|rows| - 1].depreciation
  }

  /** One more year appends the year's row and moves on to the state after it. */
  lemma RunUnfold(a: Assumptions, k: nat)
    requires a.maturityYears != 0 && k > 0
    ensures var before := Run(a, k - 1);
            var y := Step(a, k, before.state);
            Run(a, k) == Progress(before.rows + [y.row], y.next)
  {
    hide Step;
  }

  /** Before the first year there are no rows, the full loan is owed and the cash is the starting cash. */
  lemma RunStart(a: Assumptions)
    ensures Run(a, 0) == Progress([], Running(a.loanAmount, StartingCash(a)))
  {
  }

  /** The debt-service columns of a year and the balance after it are those of `ServiceLoan`. */
  lemma StepServicesLoan(a: Assumptions, year: int, s: Running)
    requires a.maturityYears != 0
    ensures var l := ServiceLoan(year, a.loanTermYears, a.loanInterestRate, FixedPayment(a), s.balance);
            var y := Step(a, year, s);
            y.row.interest == l.interest && y.row.loanPayment == l.payment && y.next.balance == l.balance
  {
  }

  /** Running more years only appends rows: the rows of earlier years never change. */
  lemma {:induction false} RunExtends(a: Assumptions, j: nat, k: nat)
    requires a.maturityYears != 0 && j <= k
    ensures Run(a, j).rows == Run(a, k).rows[..j]
  {
    hide Step;
    hide Run;
    if j < k {
      RunExtends(a, j, k - 1);
      RunUnfold(a, k);
      assert Run(a, k).rows[..k - 1] == Run(a, k - 1).rows;
    }
  }

  /**
   * After year `k` the running cash is the starting cash (equity plus loan
   * less the initial outlay) plus every free cash flow so far, and each row's
   * "Cumulative Cash" is that sum up to and including its own year.
   */
  lemma {:induction false} CumulativeCashIsRunningSum(a: Assumptions, k: nat)
    requires a.maturityYears != 0
    ensures Run(a, k).state.cumulativeCash == StartingCash(a) + SumFreeCashFlow(Run(a, k).rows)
    ensures forall i :: 0 <= i < k ==>
              Run(a, k).rows[i].cumulativeCash
              == StartingCash(a) + SumFreeCashFlow(Run(a, k).rows[..i + 1])
  {
    hide Step;
    hide Run;
    if k > 0 {
      CumulativeCashIsRunningSum(a, k - 1);
      RunUnfold(a, k);
      var rows := Run(a, k).rows;
      var earlier := Run(a, k - 1).rows;
      assert rows[..k - 1] == earlier;
      forall i | 0 <= i < k
        ensures rows[i].cumulativeCash == StartingCash(a) + SumFreeCashFlow(rows[..i + 1])
      {
        if i < k - 1 {
          assert rows[i] == earlier[i];
          assert rows[..i + 1] == earlier[..i + 1];
        } else {
          assert rows[..i + 1] == rows;
        }
      }
    } else {
      RunStart(a);
    }
  }

  /**
   * While a positive balance is being serviced, the fixed payment covers the
   * year's interest on it, so the principal part is never negative.
   */
  lemma PaymentCoversInterest(a: Assumptions, year: int, balance: real)
    requires 1 <= year <= a.loanTermYears
    requires 0.0 < balance <= a.loanAmount
    ensures FixedPayment(a) >= balance * a.loanInterestRate
  {
    var rate := a.loanInterestRate;
    if rate > 0.0 {
      InterestGrowsWithBalance(balance, a.loanAmount, rate);
    } else {
      InterestNotPositive(balance, rate);
    }
  }

  lemma InterestGrowsWithBalance(balance: real, loan: real, rate: real)
    requires balance <= loan && rate > 0.0
    ensures balance * rate <= loan * rate
  {
  }

  lemma InterestNotPositive(balance: real, rate: real)
    requires balance > 0.0 && rate <= 0.0
    ensures balance * rate <= 0.0
  {
  }

  /**
   * The loan balance never rises from one year to the next and never exceeds
   * the amount borrowed, whatever the inputs.
   */
  lemma {:induction false} BalanceNeverIncreases(a: Assumptions, k: nat)
    requires a.maturityYears != 0
    ensures Run(a, k + 1).state.balance <= Run(a, k).state.balance <= a.loanAmount
  {
    hide Step;
    hide Run;
    if k > 0 {
      BalanceNeverIncreases(a, k - 1);
    } else {
      RunStart(a);
    }
    RunUnfold(a, k + 1);
    var balance := Run(a, k).state.balance;
    StepServicesLoan(a, k + 1, Run(a, k).state);
    if k + 1 <= a.loanTermYears && balance > 0.0 {
      PaymentCoversInterest(a, k + 1, balance);
    }
  }

  /** A non-negative loan is never over-repaid: the balance stays at or above zero. */
  lemma {:induction false} BalanceNonNegative(a: Assumptions, k: nat)
    requires a.maturityYears != 0 && a.loanAmount >= 0.0
    ensures Run(a, k).state.balance >= 0.0
  {
    hide Step;
    hide Run;
    if k > 0 {
      BalanceNonNegative(a, k - 1);
      RunUnfold(a, k);
      StepServicesLoan(a, k, Run(a, k - 1).state);
    } else {
      RunStart(a);
    }
  }

  /** The principal repaid over the first `k` years is exactly how far the balance has fallen. */
  lemma {:induction false} PrincipalRepaidTelescopes(a: Assumptions, k: nat)
    requires a.maturityYears != 0
    ensures SumPrincipal(Run(a, k).rows) == a.loanAmount - Run(a, k).state.balance
  {
    hide Step;
    hide Run;
    if k > 0 {
      PrincipalRepaidTelescopes(a, k - 1);
      RunUnfold(a, k);
      assert Run(a, k).rows[..k - 1] == Run(a, k - 1).rows;
    } else {
      RunStart(a);
    }
  }

  /**
   * With a positive loan, rate and term, the projection pays the annuity
   * payment in full every year of the term (the clamp never bites), the
   * balance follows the annuity schedule, it is exactly zero from the end of
   * the term on, and nothing is paid after the term.
   */
  lemma {:induction false} LoanFollowsAnnuity(a: Assumptions, k: nat)
    requires a.maturityYears != 0
    requires a.loanAmount > 0.0 && a.loanInterestRate > 0.0 && a.loanTermYears > 0
    ensures k <= a.loanTermYears ==>
              Run(a, k).state.balance
              == Remaining(a.loanAmount, a.loanInterestRate, FixedPayment(a), k)
    ensures k >= a.loanTermYears ==> Run(a, k).state.balance == 0.0
    ensures 1 <= k <= a.loanTermYears ==> Run(a, k).rows[k - 1].loanPayment == FixedPayment(a)
    ensures k > a.loanTermYears ==> Run(a, k).rows[k - 1].loanPayment == 0.0
  {
    hide Step;
    hide Run;
    var loan, rate, term, pmt := a.loanAmount, a.loanInterestRate, a.loanTermYears, FixedPayment(a);
    if k > 0 {
      LoanFollowsAnnuity(a, k - 1);
      RunUnfold(a, k);
      StepServicesLoan(a, k, Run(a, k - 1).state);
      if k <= term {
        AnnuityYearServiced(a, k);
        AnnuityRepaysLoan(loan, rate, term, k);
      }
    } else {
      RunStart(a);
      assert Remaining(loan, rate, pmt, 0) == loan;
    }
  }

  /**
   * In year `k` of the term, with the balance the annuity schedule leaves after
   * `k - 1` years, the full fixed payment is made and the balance falls to the
   * schedule's next value.
   */
  lemma AnnuityYearServiced(a: Assumptions, k: nat)
    requires a.loanAmount > 0.0 && a.loanInterestRate > 0.0 && a.loanTermYears > 0
    requires 1 <= k <= a.loanTermYears
    ensures var loan, rate, pmt := a.loanAmount, a.loanInterestRate, FixedPayment(a);
            var l := ServiceLoan(k, a.loanTermYears, rate, pmt, Remaining(loan, rate, pmt, k - 1));
            l.payment == pmt && l.balance == Remaining(loan, rate, pmt, k)
  {
    hide ServiceLoan;
    var loan, rate, term, pmt := a.loanAmount, a.loanInterestRate, a.loanTermYears, FixedPayment(a);
    AnnuityRepaysLoan(loan, rate, term, k - 1);
    AnnuityRepaysLoan(loan, rate, term, k);
    RemainingUnfold(loan, rate, pmt, k);
  }

  /**
   * Once the term has run, the principal repaid over the projection adds up
   * to exactly the amount borrowed.
   */
  lemma LoanFullyRepaid(a: Assumptions, k: nat)
    requires a.maturityYears != 0
    requires a.loanAmount > 0.0 && a.loanInterestRate > 0.0 && a.loanTermYears > 0
    requires k >= a.loanTermYears
    ensures SumPrincipal(Run(a, k).rows) == a.loanAmount
  {
    PrincipalRepaidTelescopes(a, k);
    LoanFollowsAnnuity(a, k);
  }

  /**
   * At a zero interest rate the fixed payment is zero, so a loan is never
   * repaid: no interest and no payment in any year, and the balance stays at
   * the amount borrowed.
   */
  lemma {:induction false} ZeroRateLoanNeverRepaid(a: Assumptions, k: nat)
    requires a.maturityYears != 0 && a.loanInterestRate == 0.0
    ensures Run(a, k).state.balance == a.loanAmount
    ensures forall i :: 0 <= i < k ==>
              Run(a, k).rows[i].interest == 0.0 && Run(a, k).rows[i].loanPayment == 0.0
  {
    hide Step;
    hide Run;
    if k > 0 {
      ZeroRateLoanNeverRepaid(a, k - 1);
      RunUnfold(a, k);
      StepServicesLoan(a, k, Run(a, k - 1).state);
      assert Run(a, k).rows[..k - 1] == Run(a, k - 1).rows;
    } else {
      RunStart(a);
    }
  }

  /**
   * Depreciation accumulates one fifth of the equipment cost a year for five
   * years and nothing after.
   */
  lemma {:induction false} DepreciationTotal(a: Assumptions, k: nat)
    requires a.maturityYears != 0
    ensures SumDepreciation(Run(a, k).rows) == (if k < 5 then k else 5) as real * DepreciationPerYear(a)
  {
    hide Step;
    hide Run;
    hide Depreciation;
    hide DepreciationPerYear;
    if k > 0 {
      DepreciationTotal(a, k - 1);
      RunExtends(a, k - 1, k);
      YearDepreciation(a, k);
      YearsWrittenOff(k, DepreciationPerYear(a));
    }
  }

  /** The row of year `k` carries that year's depreciation charge. */
  lemma YearDepreciation(a: Assumptions, k: nat)
    requires a.maturityYears != 0 && k > 0
    ensures Run(a, k).rows[k - 1].depreciation == (if k <= 5 then DepreciationPerYear(a) else 0.0)
  {
    hide Step;
    hide Run;
    RunUnfold(a, k);
  }

  /**
   * From year 5 on the projection has written off exactly the equipment cost,
   * once (nothing when the equipment cost nothing).
   */
  lemma EquipmentWrittenOffOnce(a: Assumptions, k: nat)
    requires a.maturityYears != 0 && k >= 5
    ensures SumDepreciation(Run(a, k).rows)
            == (if a.initialEquipmentCost > 0.0 then a.initialEquipmentCost else 0.0)
  {
    DepreciationTotal(a, k);
  }

  /** Counting one more year adds one more yearly charge while fewer than five have been made. */
  lemma YearsWrittenOff(k: nat, perYear: real)
    requires k > 0
    ensures (if k < 5 then k else 5) as real * perYear
            == (if k - 1 < 5 then k - 1 else 5) as real * perYear + (if k <= 5 then perYear else 0.0)
  {
  }

  /**
   * Bamboo output never exceeds the mature yield of all acres, reaches it
   * from the maturity year on and stays below it before; biochar is the same
   * fixed fraction of it every year.
   */
  lemma ProductionBounds(a: Assumptions, year: int)
    requires a.maturityYears > 0 && year >= 0
    requires a.bambooYieldPerAcre * a.acres >= 0.0
    ensures 0.0 <= BambooTons(a, year) <= a.bambooYieldPerAcre * a.acres
    ensures year >= a.maturityYears ==> BambooTons(a, year) == a.bambooYieldPerAcre * a.acres
    ensures year < a.maturityYears && a.bambooYieldPerAcre * a.acres > 0.0 ==>
              BambooTons(a, year) < a.bambooYieldPerAcre * a.acres
    ensures a.biocharYieldRatio >= 0.0 ==>
              0.0 <= BiocharTons(a, year) <= a.bambooYieldPerAcre * a.acres * a.biocharYieldRatio
  {
    var full := a.bambooYieldPerAcre * a.acres;
    var f := YieldFactor(year, a.maturityYears);
    ScaledBelow(full, f);
    assert BambooTons(a, year) == full * f;
    if a.biocharYieldRatio >= 0.0 {
      ScaledRatio(BambooTons(a, year), full, a.biocharYieldRatio);
    }
  }

  lemma ScaledBelow(full: real, f: real)
    requires full >= 0.0 && 0.0 <= f <= 1.0
    ensures 0.0 <= full * f <= full
    ensures f < 1.0 && full > 0.0 ==> full * f < full
  {
  }

  lemma ScaledRatio(tons: real, full: real, ratio: real)
    requires 0.0 <= tons <= full && ratio >= 0.0
    ensures 0.0 <= tons * ratio <= full * ratio
  {
  }

  /** Output never falls from one year to the next. */
  lemma ProductionNonDecreasing(a: Assumptions, earlier: int, later: int)
    requires a.maturityYears > 0 && earlier <= later
    requires a.bambooYieldPerAcre * a.acres >= 0.0
    ensures BambooTons(a, earlier) <= BambooTons(a, later)
  {
    YieldFactorMonotone(earlier, later, a.maturityYears);
    hide YieldFactor;
    var full := a.bambooYieldPerAcre * a.acres;
    var before := YieldFactor(earlier, a.maturityYears);
    var after := YieldFactor(later, a.maturityYears);
    ScaledMonotone(full, before, after, BambooTons(a, earlier), BambooTons(a, later));
  }

  lemma YieldFactorMonotone(earlier: int, later: int, maturityYears: int)
    requires maturityYears > 0 && earlier <= later
    ensures YieldFactor(earlier, maturityYears) <= YieldFactor(later, maturityYears)
  {
    RampMonotone(earlier as real, later as real, maturityYears as real);
  }

  lemma RampMonotone(x: real, y: real, m: real)
    requires x <= y && m > 0.0
    ensures x / m <= y / m
  {
    assert (y / m - x / m) * m == y - x;
  }

  lemma ScaledMonotone(full: real, f: real, g: real, x: real, y: real)
    requires full >= 0.0 && f <= g
    requires x == full * f && y == full * g
    ensures x <= y
  {
    assert full * g - full * f == full * (g - f);
  }
}
