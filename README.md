# Bamboo and biochar forecast: the projection engine in Dafny

This project models `generate_projections`, the engine of the bamboo farm
forecast. From scalar business assumptions it produces one financial row per
projected year. The row has the table's columns: bamboo and biochar revenue,
total revenue, total costs, depreciation, interest, loan payment, EBIT,
taxes, net income, free cash flow and cumulative cash.

The engine works in two stages:

- It first computes the initial outlay, the starting cash, the yearly
  depreciation and the fixed annual loan payment (an annuity).
- It then walks the years `1 .. projection_years`. It carries two running
  values from one year to the next: the outstanding loan balance and the
  cumulative cash.

The project has three modules.

- `Annuity` (`annuity.dfy`) covers the loan payment.
  - `Pow` is `(1 + r) ** n`.
  - `AnnuityPayment` is the payment formula, with its zero fallback.
  - `Remaining` is the balance after `k` years of paying a fixed amount.
  - Lemmas prove that the annuity payment retires the loan exactly at the
    end of its term, following the textbook closed form. They also prove
    that it is the only level payment that does so.
- `Projections` (`projections.dfy`) covers the engine.
  - It holds the assumptions and row records and the per-year pieces:
    yield ramp, production, depreciation, debt service and tax.
  - `Step` and `Run` are a functional statement of one loop pass and of the
    first `k` passes.
  - `GenerateProjections` is the imperative engine. It is a `while` loop
    that threads `balance` and `cumulativeCash` and appends one row per
    year. Its loop invariant ties its state to `Run`.
  - `ProjectYear` and `RepayLoan` are the loop body and its debt-service
    part. Each is proved to compute exactly what `Step` and `ServiceLoan`
    specify.
- `ProjectionProperties` (`projection_properties.dfy`) proves what the
  table promises across years:
  - Cumulative cash is the starting cash plus the running sum of free cash
    flows.
  - The loan balance never rises, never exceeds the amount borrowed and
    never falls below zero.
  - The principal repaid equals the fall in the balance.
  - With a positive loan, rate and term, the full annuity payment is made
    every year of the term and the balance reaches exactly zero at its end.
  - At a zero rate the loan is never repaid.
  - The equipment is written off exactly once, over five years.
  - Production follows the maturity ramp and never decreases.

Money, tonnage and rates are modelled as `real`. Year counts are `int`.

Behaviour of `models.py` worth noting:

- The yield ramp is linear, `min(year / maturity_years, 1)`. So year 1
  already yields `1 / maturity_years` of the mature crop; it does not start
  at zero.
- A loan at a zero interest rate has a payment of 0. Its
  balance therefore never falls, and nothing is repaid at any point of the
  projection. It does not reach zero by the end of the term
  (`ProjectionProperties.ZeroRateLoanNeverRepaid`).
- Tax is `max(0, ebit * tax_rate)` on EBIT after interest and depreciation.
- There is no year-0 row, no NPV and no IRR.

The only precondition is `Runnable`: the maturity period must not be zero
when at least one year is projected. Python raises `ZeroDivisionError` there.
A negative maturity period does not fail in Python, and the model allows it
too.

## Model

| member | source | states |
|---|---|---|
| Annuity.PowAtLeastOne | models.py:24 | `Pow` is the `(1 + rate) ** term` of the payment formula. For a base of at least 1, every power of it is at least 1. |
| Annuity.PowIncreasing | models.py:24 | For a base above 1, the power grows strictly with the exponent. So `(1 + rate) ** term - 1`, the formula's divisor, is positive whenever rate and term are. |
| Annuity.AnnuityPayment | models.py:23-26 | The payment is 0 unless loan amount, term and rate are all positive. When they are, it is strictly more than the first year's interest `loan * rate`. |
| Annuity.RemainingUnderAnnuity | models.py:24 | Paying the formula's payment every year leaves, after `k` years, exactly the closed-form balance `P * (g - (1 + r)^k) / (g - 1)` with `g = (1 + r)^term`. |
| Annuity.AnnuityRepaysLoan | models.py:24 | Under the annuity payment the balance stays positive before the term ends and is exactly zero at the end of the term. |
| Annuity.AnnuityPaymentUnique | models.py:24 | A level yearly payment leaves nothing owed after the term if and only if it equals the formula's payment. |
| Projections.TotalInitialCost | models.py:14-16 | The initial outlay is the equipment cost plus land and planting cost per acre times the acres. With non-negative acres and per-acre costs it is at least the equipment cost. |
| Projections.StartingCash | models.py:17 | The starting cash and the initial outlay together make up exactly the equity plus the loan proceeds. |
| Projections.FixedPayment | models.py:23-26 | The payment is 0 unless loan amount, term and rate are all positive. When they are, it is strictly more than the first year's interest. |
| Projections.YieldFactor | models.py:49 | With a positive maturity period the ramp lies in [0, 1]. It equals 1 exactly from the maturity year on, and it is already positive in year 1. |
| Projections.BambooTons | models.py:50 | No bamboo is harvested in year 0. With a positive maturity period, from the maturity year on the harvest is exactly the mature yield per acre times the acres. |
| Projections.BiocharTons | models.py:54 | No biochar is made in year 0. From the maturity year on it is exactly the mature bamboo yield times the biochar ratio. |
| Projections.DepreciationPerYear | models.py:20 | The yearly charge is never negative, and five of them add up to a positive equipment cost exactly (to 0 when the equipment cost nothing). |
| Projections.Depreciation | models.py:65 | The yearly charge is never negative. In years up to 5 it is one fifth of a positive equipment cost (the `dep_per_year` of line 20), and nothing if the equipment cost nothing. After year 5 it is zero. |
| Projections.ServiceLoan | models.py:74-84 | Past the term, or with nothing owed, interest, principal and payment are 0 and the balance is unchanged. Otherwise interest is `balance * rate`, principal never exceeds the balance and the new balance is never negative. The full fixed payment is made unless the clamp applies. Payment = interest + principal, and the new balance is the old one less principal. |
| Projections.Taxes | models.py:90 | Tax is never negative and never below `ebit * rate`, and it is one of the two. With a non-negative rate, a year without profit pays no tax. |
| Projections.Step | models.py:48-99 | One loop pass keeps the accounting identities: total revenue = bamboo + biochar revenue; EBIT = revenue − costs − depreciation − interest; net income = EBIT − taxes; free cash flow = net income + depreciation − principal repaid; cumulative cash after = before + free cash flow. |
| Projections.Run | models.py:29-113 | After `k` passes there are exactly `k` rows, for years 1 to `k` in order. |
| Projections.RepayLoan | models.py:74-84 | The imperative debt-service block, which updates the balance in place, produces exactly the interest, principal, payment and new balance that `ServiceLoan` specifies. |
| Projections.ProjectYear | models.py:48-113 | The imperative loop body produces exactly the row, new balance and new cumulative cash of `Step`. |
| Projections.GenerateProjections | models.py:4-134 | The engine returns exactly `Projection(a)`: `projection_years` rows (none when that is below 1), for years 1, 2, ... in order. The loop invariant keeps its running state equal to `Run`. |
| ProjectionProperties.RunExtends | models.py:102-113 | Projecting more years only appends rows; the rows of earlier years never change. |
| ProjectionProperties.CumulativeCashIsRunningSum | models.py:45-99 | After year `k`, the running cash and the last row's "Cumulative Cash" are the starting cash plus the sum of the free cash flows so far. Every row's cumulative cash is the starting cash plus the free cash flows up to its own year. |
| ProjectionProperties.PaymentCoversInterest | models.py:79-80 | During the term, for any balance between 0 and the amount borrowed, the fixed payment covers the year's interest, so the principal part is not negative. |
| ProjectionProperties.BalanceNeverIncreases | models.py:79-83 | The loan balance never rises from one year to the next and never exceeds the amount borrowed. |
| ProjectionProperties.BalanceNonNegative | models.py:81-83 | Because of the clamp, a non-negative loan is never over-repaid: the balance stays at or above zero. |
| ProjectionProperties.PrincipalRepaidTelescopes | models.py:83-84 | The principal repaid over the first `k` years (payment less interest) is exactly the fall in the balance. |
| ProjectionProperties.AnnuityYearServiced | models.py:79-84 | In year `k` of the term, starting from the annuity schedule's balance, the full payment is made and the balance moves to the schedule's next value. |
| ProjectionProperties.LoanFollowsAnnuity | models.py:74-84 | With a positive loan, rate and term, the balance follows the annuity schedule and the full fixed payment is made in every year of the term. The balance is exactly zero from the end of the term on, and nothing is paid after it. |
| ProjectionProperties.LoanFullyRepaid | models.py:74-84 | Once the term has run, the principal repaid adds up to exactly the amount borrowed. |
| ProjectionProperties.ZeroRateLoanNeverRepaid | models.py:23-26 | At a zero rate no interest and no payment is ever charged, and the balance stays at the amount borrowed. |
| ProjectionProperties.DepreciationTotal | models.py:65 | The depreciation column sums to `min(k, 5)` yearly charges after `k` years. |
| ProjectionProperties.EquipmentWrittenOffOnce | models.py:20 | From year 5 on, total depreciation equals the equipment cost exactly (0 when the equipment cost nothing). |
| ProjectionProperties.ProductionBounds | models.py:49-54 | Bamboo tonnage lies between 0 and the mature yield of all acres. It equals that yield from the maturity year on and is strictly below it before. Biochar tonnage is bounded by the same fraction of the mature yield. |
| ProjectionProperties.ProductionNonDecreasing | models.py:49-50 | Bamboo tonnage never falls from an earlier year to a later one. |

## Left out

- The Streamlit front end (`app.py`): form inputs, percent-to-fraction conversion, table formatting, CSV download and charts. It is presentation and I/O.
- `price_growth_rate`: the front end collects it but never passes it to the engine.
- The pandas `DataFrame` and `df.round(2)`: the result is a sequence of row records over `real`, and the two-decimal rounding for display is not modelled.
- The twelve per-column lists are modelled as one sequence of row records. They are appended in lockstep, so this changes no value.
- Floating point: all arithmetic is exact over `real`. Rounding, overflow, infinities and NaN are not modelled.
- A zero maturity period with at least one projected year raises `ZeroDivisionError` in Python. The model states it as the precondition `Runnable`, not as an error result.
- NPV, IRR, a year-0 row, staged land expansion and price or cost inflation: the engine has none of them.
