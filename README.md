# EEI calculators — a Dafny model

This project models the arithmetic of the two illustration calculators on the
EEI website (`assets/js/main.js`):

- **EV franchisee calculator** (`eeiCalculateFranchiseReturns`). From a vehicle
  cost, a loan-interest rate, a top-up rate paid on that interest, a tax-benefit
  rate, a salvage rate and a term in whole years, it computes these amounts by
  simple yearly accrual, not compounding:
  - the yearly interest, top-up and tax benefit;
  - the total benefits over the term;
  - the salvage value, the total cash in and the net profit;
  - the return on investment in percent.
- **Investor comparison** (`eeiCalculateInvestorReturns`). It compounds one
  principal once a year at a high rate and at a safe rate over the same term,
  and reports both balances and their difference.

Both calculators read their form fields with `parseFloat(...) || 0` or
`parseInt(..., 10) || 0` and divide every rate by 100. They then either give
the "please enter a valid ... and period" outcome (when the amount or the term
is not positive) or the derived figures.

Values are exact `real`s, an idealisation of JavaScript doubles. A field
arrives already parsed, as `Option<real>` or `Option<int>`, where `None` stands
for an empty or non-numeric field (NaN). `Math.pow(b, n)` with a whole exponent
is the recursive `Power.Pow`.

Modules, one file each:
- `Wrappers` (`wrappers.dfy`): `Option`.
- `FormFields` (`form_fields.dfy`): the `|| 0` coercion and the percent scaling.
- `Power` (`power.dfy`): `Pow` and its monotonicity and Bernoulli lemmas.
- `FranchiseCalculator` (`franchise.dfy`): the franchisee form, the outcome record, the calculation, and its identities and bounds.
- `InvestorCalculator` (`investor.dfy`): the investor form and outcome. It has a year-by-year reference definition `Balance`, the closed form `FutureValue` proved equal to it, and the ordering lemmas.

- The code never checks the sign of a rate (assets/js/main.js:29-32, 88-89). The calculations accept any rate, and each lemma that needs a sign says so in its `requires`.
- An absent or unparseable term becomes 0 (assets/js/main.js:33, 90) and is refused by the same guard as a zero term, as `CalculateFranchiseReturns` and `CalculateInvestorReturns` state.

## Model

| member | source | states |
|---|---|---|
| FormFields.NumberOr0 | assets/js/main.js:28 | an absent or unparseable amount becomes 0; a parsed amount is kept as it is |
| FormFields.PercentOr0 | assets/js/main.js:29-32 | an absent rate becomes 0; a parsed rate in percent becomes the fraction whose hundredfold is the entry |
| FormFields.IntOr0 | assets/js/main.js:33 | an absent or unparseable term becomes 0; a parsed term is kept |
| FranchiseCalculator.ReadInputs | assets/js/main.js:28-33 | the cost is NumberOr0 of its field, each of the four rates is PercentOr0 of its field, and the term is IntOr0 of its field |
| FranchiseCalculator.FranchiseReturns | assets/js/main.js:35-50 | invalid exactly when cost ≤ 0 or years ≤ 0; otherwise the ledger balances: total benefits are the yearly sum times the term, cash in is benefits plus salvage, net profit plus cost is cash in, and ROI·cost = 100·net profit |
| FranchiseCalculator.CalculateFranchiseReturns | assets/js/main.js:28-50 | invalid exactly when the coerced cost ≤ 0 or coerced years ≤ 0, so an absent cost, an absent term or a zero term is always invalid |
| FranchiseCalculator.FranchiseClosedForm | assets/js/main.js:41-50 | every amount (yearly interest, top-up and tax benefit, total benefits, salvage, cash in, net profit, ROI) as a closed form in the inputs; ROI = 100·((loan·(1+top-up) + tax)·years + salvage − 1), which does not depend on the cost |
| FranchiseCalculator.FranchiseBounds | assets/js/main.js:41-50 | with all four rates ≥ 0, every benefit, the salvage value and the cash in are ≥ 0, net profit ≥ −cost and ROI ≥ −100 |
| FranchiseCalculator.FranchiseBreakEven | assets/js/main.js:48-50 | ROI ≥ 0 exactly when cash in ≥ cost, and exactly when net profit ≥ 0 |
| FranchiseCalculator.FranchiseOneMoreYear | assets/js/main.js:41-49 | simple accrual: one more year leaves the yearly amounts and the salvage value unchanged and adds one year's benefits to the total benefits and to the net profit |
| FranchiseCalculator.FranchiseWorkedExample | assets/js/main.js:28-50 | cost 10,00,000 with 10 %, 5 %, 2 %, 20 % over 5 years gives 1,00,000 / 5,000 / 20,000 a year, 6,25,000 benefits, 2,00,000 salvage, 8,25,000 cash in, −1,75,000 net profit and ROI −17.5 |
| Power.Pow | assets/js/main.js:97-98 | a power of a non-negative base is non-negative, and a power of a positive base is positive |
| Power.PowOfOne | assets/js/main.js:97-98 | every power of 1 is 1 |
| Power.PowMonotoneInBase | assets/js/main.js:97-98 | 0 ≤ x ≤ y implies xⁿ ≤ yⁿ |
| Power.PowStrictlyMonotoneInBase | assets/js/main.js:97-98 | 0 ≤ x < y and n ≥ 1 imply xⁿ < yⁿ |
| Power.PowMonotoneInExponent | assets/js/main.js:97-98 | for a base ≥ 1, m ≤ n implies bᵐ ≤ bⁿ |
| Power.Bernoulli | assets/js/main.js:97-98 | (1+r)ⁿ ≥ 1 + n·r for r ≥ −1 |
| InvestorCalculator.ClosedFormIsBalance | assets/js/main.js:97-98 | principal·(1+rate)^years equals the balance with interest credited at the end of each year |
| InvestorCalculator.FutureValue | assets/js/main.js:97-98 | the closed form `principal * Math.pow(1 + rate, years)` is the year-by-year compounded balance |
| InvestorCalculator.ReadInputs | assets/js/main.js:87-90 | the principal is NumberOr0 of its field, both rates are PercentOr0 of their fields, and the term is IntOr0 of its field |
| InvestorCalculator.InvestorReturns | assets/js/main.js:92-99 | invalid exactly when principal ≤ 0 or years ≤ 0; otherwise both futures are the compounded balances at their rates and difference + safe future = high future |
| InvestorCalculator.CalculateInvestorReturns | assets/js/main.js:87-99 | invalid exactly when the coerced principal ≤ 0 or coerced years ≤ 0, so an absent principal, an absent term or a zero term is always invalid |
| InvestorCalculator.FutureValueAtZeroRate | assets/js/main.js:97-98 | at rate 0 the future value is the principal, for every term |
| InvestorCalculator.FutureValueAtZeroYears | assets/js/main.js:97-98 | over 0 years the future value is the principal, at every rate |
| InvestorCalculator.FutureValueOneMoreYear | assets/js/main.js:97-98 | one more year multiplies the future value by 1 + rate |
| InvestorCalculator.FutureValueMonotoneInRate | assets/js/main.js:97-98 | for a principal ≥ 0 and −1 ≤ low ≤ high, the balance at low is at most the balance at high |
| InvestorCalculator.FutureValueStrictlyMonotoneInRate | assets/js/main.js:97-98 | for a principal > 0, at least one year and −1 ≤ low < high, the balance at low is strictly below the balance at high |
| InvestorCalculator.FutureValueMonotoneInYears | assets/js/main.js:97-98 | for a principal ≥ 0 and a rate ≥ 0, a longer term never gives a smaller balance |
| InvestorCalculator.FutureValueAtLeastSimpleInterest | assets/js/main.js:97-98 | compounded growth is at least simple accrual: FV ≥ principal·(1 + years·rate) for rate ≥ −1 |
| InvestorCalculator.InvestorOrdering | assets/js/main.js:97-99 | with a principal > 0, years > 0 and −1 ≤ safe ≤ high, high future ≥ safe future and difference ≥ 0; difference > 0 when high > safe |
| InvestorCalculator.InvestorWorkedExample | assets/js/main.js:87-99 | 1,00,000 at 18 % against 6 % for 3 years gives 1,64,303.2 against 1,19,101.6, a difference of 45,201.6 |

## Left out

- The effective annualised return, `Math.pow(totalCashIn / cost, 1 / years)` (assets/js/main.js:51), is not modelled. It is a fractional power (an n-th root), which has no exact counterpart over Dafny's reals.
- IEEE-754 doubles (rounding, NaN, Infinity, −0) are not modelled: values are exact reals. The only NaN behaviour kept is "unparseable becomes 0", through `None`.
- The string parsing done by `parseFloat` and `parseInt` (numeric prefixes, truncation of "2.7" to 2, "Infinity") is not modelled. Fields come in already parsed, as `Option<real>` or `Option<int>`.
- Currency formatting with `Intl.NumberFormat` (assets/js/main.js:7-11) and `toFixed(1)` are not modelled. They are locale-dependent library calls. This includes echoing the rates back as percentages (assets/js/main.js:103, 105).
- Writing into the page is not modelled: the two `textContent` messages and the `innerHTML` templates (assets/js/main.js:36, 53-71, 93, 101-113). `InvalidInput` stands for the message.
- DOM lookups are not modelled, nor the silent return when the cost or principal field or the result element is absent (assets/js/main.js:15-26, 76-85). A missing rate or term element, which makes the page throw a TypeError, is also outside the model.
- The `DOMContentLoaded` and submit-listener wiring (assets/js/main.js:117-135) and the `console.log` (assets/js/main.js:4) are event and console plumbing, and are not modelled.
