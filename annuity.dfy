/**
 * The fixed annual loan payment of the projection engine, and the balance a
 * loan has left after a number of such payments.
 */
module Annuity {

  /** `x` raised to the `n`-th power: the `(1 + rate) ** term` of the payment formula. */
  function Pow(x: real, n: nat): real
  {
    if n == 0 then 1.0 else x * Pow(x, n - 1)
  }

  lemma {:induction false} PowAtLeastOne(x: real, n: nat)
    requires x >= 1.0
    ensures Pow(x, n) >= 1.0
  {
    if n > 0 {
      PowAtLeastOne(x, n - 1);
      assert x * Pow(x, n - 1) >= Pow(x, n - 1);
    }
  }

  /** Powers of a base above one grow strictly with the exponent. */
  lemma {:induction false} PowIncreasing(x: real, j: nat, k: nat)
    requires x > 1.0 && j < k
    ensures 1.0 <= Pow(x, j) < Pow(x, k)
  {
    PowAtLeastOne(x, k - 1);
    assert Pow(x, k) == x * Pow(x, k - 1);
    assert x * Pow(x, k - 1) > Pow(x, k - 1);
    if j < k - 1 {
      PowIncreasing(x, j, k - 1);
    } else {
      PowAtLeastOne(x, j);
    }
  }

  /**
   * The level annual payment that retires `principal` over `term` years at
   * `rate`; zero unless all three are positive (so the formula never divides
   * by zero). Each such payment more than covers the first year's interest.
   */
  function AnnuityPayment(principal: real, rate: real, term: int): (pmt: real)
    ensures !(principal > 0.0 && term > 0 && rate > 0.0) ==> pmt == 0.0
    ensures principal > 0.0 && term > 0 && rate > 0.0 ==> principal * rate < pmt
  {
    if principal > 0.0 && term > 0 && rate > 0.0 then
      var growth := Pow(1.0 + rate, term as nat);
      PowIncreasing(1.0 + rate, 0, term as nat);
      PaymentExceedsInterest(principal, rate, growth);
      principal * (rate * growth) / (growth - 1.0)
    else
      0.0
  }

  lemma PaymentExceedsInterest(principal: real, rate: real, growth: real)
    requires principal > 0.0 && rate > 0.0 && growth > 1.0
    ensures principal * rate < principal * (rate * growth) / (growth - 1.0)
  {
    var d := growth - 1.0;
    var interest := principal * rate;
    assert interest > 0.0;
    var pmt := principal * (rate * growth) / d;
    assert pmt * d == interest * growth;
    assert (pmt - interest) * d == interest;
  }

  /**
   * The balance left after `k` years of paying `payment` on a loan that starts
   * at `balance`: each year the interest `balance * rate` is charged and the
   * rest of the payment, `payment - balance * rate`, repays principal.
   */
  function Remaining(balance: real, rate: real, payment: real, k: nat): real
  {
    if k == 0 then balance
    else
      var before := Remaining(balance, rate, payment, k - 1);
      before - (payment - before * rate)
  }

  /**
   * The textbook closed form of the balance after `k` years of annuity
   * payments: `principal * (g - (1 + rate)^k) / (g - 1)` with `g = (1 + rate)^term`.
   */
  function AnnuityBalance(principal: real, rate: real, term: nat, k: nat): real
    requires rate > 0.0 && term > 0
  {
    var growth := Pow(1.0 + rate, term);
    PowIncreasing(1.0 + rate, 0, term);
    principal * (growth - Pow(1.0 + rate, k)) / (growth - 1.0)
  }

  /** Paying the annuity payment follows the closed form year by year. */
  lemma {:induction false} RemainingUnderAnnuity(principal: real, rate: real, term: nat, k: nat)
    requires principal > 0.0 && rate > 0.0 && term > 0
    ensures Remaining(principal, rate, AnnuityPayment(principal, rate, term), k)
            == AnnuityBalance(principal, rate, term, k)
  {
    if k == 0 {
      AnnuityBalanceStart(principal, rate, term);
    } else {
      hide Remaining;
      hide AnnuityPayment;
      hide AnnuityBalance;
      RemainingUnderAnnuity(principal, rate, term, k - 1);
      RemainingUnderAnnuityStep(principal, rate, term, k);
    }
  }

  lemma AnnuityBalanceStart(principal: real, rate: real, term: nat)
    requires rate > 0.0 && term > 0
    ensures AnnuityBalance(principal, rate, term, 0) == principal
  {
    var growth := Pow(1.0 + rate, term);
    PowIncreasing(1.0 + rate, 0, term);
    var d := growth - 1.0;
    assert principal * d / d * d == principal * d;
    assert (principal * d / d - principal) * d == 0.0;
  }

  lemma RemainingUnderAnnuityStep(principal: real, rate: real, term: nat, k: nat)
    requires principal > 0.0 && rate > 0.0 && term > 0 && k > 0
    requires Remaining(principal, rate, AnnuityPayment(principal, rate, term), k - 1)
             == AnnuityBalance(principal, rate, term, k - 1)
    ensures Remaining(principal, rate, AnnuityPayment(principal, rate, term), k)
            == AnnuityBalance(principal, rate, term, k)
  {
    hide Remaining;
    hide AnnuityPayment;
    hide AnnuityBalance;
    var pmt := AnnuityPayment(principal, rate, term);
    var prev := Remaining(principal, rate, pmt, k - 1);
    RemainingUnfold(principal, rate, pmt, k);
    AnnuityBalanceStep(principal, rate, term, k);
  }

  /** The closed form obeys the same one-year recurrence as the balance. */
  lemma AnnuityBalanceStep(principal: real, rate: real, term: nat, k: nat)
    requires principal > 0.0 && rate > 0.0 && term > 0 && k > 0
    ensures var before := AnnuityBalance(principal, rate, term, k - 1);
            AnnuityBalance(principal, rate, term, k)
            == before - (AnnuityPayment(principal, rate, term) - before * rate)
  {
    var growth := Pow(1.0 + rate, term);
    PowIncreasing(1.0 + rate, 0, term);
    var pmt := AnnuityPayment(principal, rate, term);
    assert pmt == principal * (rate * growth) / (growth - 1.0);
    AnnuityYearAlgebra(principal, rate, growth, Pow(1.0 + rate, k - 1));
  }

  /** One year of the closed form, as algebra over plain reals. */
  lemma AnnuityYearAlgebra(principal: real, rate: real, growth: real, powBefore: real)
    requires growth > 1.0
    ensures var d := growth - 1.0;
            var before := principal * (growth - powBefore) / d;
            principal * (growth - (1.0 + rate) * powBefore) / d
            == before - (principal * (rate * growth) / d - before * rate)
  {
    var d := growth - 1.0;
    var before := principal * (growth - powBefore) / d;
    var pmt := principal * (rate * growth) / d;
    var after := principal * (growth - (1.0 + rate) * powBefore) / d;
    assert before * d == principal * (growth - powBefore);
    assert pmt * d == principal * rate * growth;
    assert after * d == principal * (growth - (1.0 + rate) * powBefore);
    assert (before - (pmt - before * rate)) * d == before * d * (1.0 + rate) - pmt * d;
    assert (after - (before - (pmt - before * rate))) * d == 0.0;
  }

  /**
   * Paying the annuity payment every year keeps a positive balance before the
   * term ends and leaves exactly nothing owed at the end of the term.
   */
  lemma AnnuityRepaysLoan(principal: real, rate: real, term: nat, k: nat)
    requires principal > 0.0 && rate > 0.0 && term > 0 && k <= term
    ensures var left := Remaining(principal, rate, AnnuityPayment(principal, rate, term), k);
            (k < term ==> left > 0.0) && (k == term ==> left == 0.0)
  {
    hide Remaining;
    hide AnnuityPayment;
    hide AnnuityBalance;
    RemainingUnderAnnuity(principal, rate, term, k);
    if k < term {
      AnnuityBalancePositive(principal, rate, term, k);
    } else {
      AnnuityBalanceEnd(principal, rate, term);
    }
  }

  lemma AnnuityBalanceEnd(principal: real, rate: real, term: nat)
    requires rate > 0.0 && term > 0
    ensures AnnuityBalance(principal, rate, term, term) == 0.0
  {
    var growth := Pow(1.0 + rate, term);
    PowIncreasing(1.0 + rate, 0, term);
    assert principal * (growth - growth) == 0.0;
  }

  lemma AnnuityBalancePositive(principal: real, rate: real, term: nat, k: nat)
    requires principal > 0.0 && rate > 0.0 && k < term
    ensures AnnuityBalance(principal, rate, term, k) > 0.0
  {
    var growth := Pow(1.0 + rate, term);
    PowIncreasing(1.0 + rate, k, term);
    PowIncreasing(1.0 + rate, 0, term);
    PositiveQuotient(principal, growth - Pow(1.0 + rate, k), growth - 1.0);
  }

  lemma PositiveQuotient(x: real, y: real, d: real)
    requires x > 0.0 && y > 0.0 && d > 0.0
    ensures x * y / d > 0.0
  {
    assert x * y > 0.0;
  }

  /**
   * `1 + P + ... + P^(k-1)` with `P = 1 + rate`: what one extra unit of yearly
   * payment takes off the balance after `k` years.
   */
  function PaymentWeight(rate: real, k: nat): real
  {
    if k == 0 then 0.0 else PaymentWeight(rate, k - 1) * (1.0 + rate) + 1.0
  }

  lemma {:induction false} RemainingLinearInPayment(balance: real, rate: real, p: real, q: real, k: nat)
    ensures Remaining(balance, rate, p, k) - Remaining(balance, rate, q, k)
            == (q - p) * PaymentWeight(rate, k)
  {
    if k > 0 {
      RemainingLinearInPayment(balance, rate, p, q, k - 1);
      RemainingLinearStep(balance, rate, p, q, k);
    }
  }

  lemma RemainingLinearStep(balance: real, rate: real, p: real, q: real, k: nat)
    requires k > 0
    requires Remaining(balance, rate, p, k - 1) - Remaining(balance, rate, q, k - 1)
             == (q - p) * PaymentWeight(rate, k - 1)
    ensures Remaining(balance, rate, p, k) - Remaining(balance, rate, q, k)
            == (q - p) * PaymentWeight(rate, k)
  {
    hide Remaining;
    hide PaymentWeight;
    RemainingUnfold(balance, rate, p, k);
    RemainingUnfold(balance, rate, q, k);
    PaymentWeightUnfold(rate, k);
    LinearYearAlgebra(Remaining(balance, rate, p, k - 1), Remaining(balance, rate, q, k - 1),
                      Remaining(balance, rate, p, k), Remaining(balance, rate, q, k), p, q, rate,
                      PaymentWeight(rate, k - 1), PaymentWeight(rate, k));
  }

  lemma RemainingUnfold(balance: real, rate: real, payment: real, k: nat)
    requires k > 0
    ensures var before := Remaining(balance, rate, payment, k - 1);
            Remaining(balance, rate, payment, k) == before - (payment - before * rate)
  {
  }

  lemma PaymentWeightUnfold(rate: real, k: nat)
    requires k > 0
    ensures PaymentWeight(rate, k) == PaymentWeight(rate, k - 1) * (1.0 + rate) + 1.0
  {
  }

  /** One year of the linearity argument, as algebra over plain reals. */
  lemma LinearYearAlgebra(bp: real, bq: real, rp: real, rq: real, p: real, q: real, rate: real,
                          w: real, wNext: real)
    requires bp - bq == (q - p) * w
    requires rp == bp - (p - bp * rate) && rq == bq - (q - bq * rate)
    requires wNext == w * (1.0 + rate) + 1.0
    ensures rp - rq == (q - p) * wNext
  {
    calc {
      rp - rq;
      (bp - bq) * (1.0 + rate) + (q - p);
      (q - p) * w * (1.0 + rate) + (q - p);
    }
  }

  lemma {:induction false} PaymentWeightAtLeastOne(rate: real, k: nat)
    requires rate >= 0.0 && k > 0
    ensures PaymentWeight(rate, k) >= 1.0
  {
    if k > 1 {
      PaymentWeightAtLeastOne(rate, k - 1);
      assert PaymentWeight(rate, k - 1) * (1.0 + rate) >= 0.0;
    }
  }

  /**
   * The annuity payment is the one and only level yearly payment that leaves
   * nothing owed at the end of the term.
   */
  lemma AnnuityPaymentUnique(principal: real, rate: real, term: nat, payment: real)
    requires principal > 0.0 && rate > 0.0 && term > 0
    ensures Remaining(principal, rate, payment, term) == 0.0
            <==> payment == AnnuityPayment(principal, rate, term)
  {
    hide Remaining;
    hide AnnuityPayment;
    hide PaymentWeight;
    var pmt := AnnuityPayment(principal, rate, term);
    AnnuityRepaysLoan(principal, rate, term, term);
    RemainingLinearInPayment(principal, rate, payment, pmt, term);
    PaymentWeightAtLeastOne(rate, term);
    if Remaining(principal, rate, payment, term) == 0.0 {
      NonZeroFactor(pmt - payment, PaymentWeight(rate, term));
    }
  }

  lemma NonZeroFactor(x: real, w: real)
    requires w >= 1.0 && x * w == 0.0
    ensures x == 0.0
  {
  }
}
