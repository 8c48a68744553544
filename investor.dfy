/**
 * The investor comparison: one principal compounded once a year at a high
 * rate and at a safe rate over the same whole number of years, and the gap
 * between the two balances.
 */
module InvestorCalculator {
  import opened Wrappers
  import opened FormFields
  import opened Power

  /** The investor form as parsed: principal in rupees, two rates in percent, the term in years. */
  datatype InvestorForm = InvestorForm(
    principal: Option<real>,
    highRate: Option<real>,
    safeRate: Option<real>,
    years: Option<int>)

  /** The form's values after coercion; rates are fractions (18 % is 0.18). */
  datatype InvestorInputs = InvestorInputs(principal: real, highRate: real, safeRate: real, years: int)

  /** Either the "enter a valid principal amount and period" outcome or the two balances and their gap. */
  datatype InvestorOutcome =
    | InvalidInput
    | Comparison(highFuture: real, safeFuture: real, difference: real)

  /** The coercion of the four fields: missing or unparseable is 0, rates are divided by 100. */
  function ReadInputs(form: InvestorForm): (i: InvestorInputs)
    ensures i.principal == NumberOr0(form.principal)
    ensures i.highRate == PercentOr0(form.highRate) && i.safeRate == PercentOr0(form.safeRate)
    ensures i.years == IntOr0(form.years)
  {
    InvestorInputs(
      NumberOr0(form.principal),
      PercentOr0(form.highRate),
      PercentOr0(form.safeRate),
      IntOr0(form.years))
  }

  /** The balance when interest at `rate` is credited at the end of each of `years` years. */
  function Balance(principal: real, rate: real, years: nat): real
  {
    if years == 0 then principal else Balance(principal, rate, years - 1) * (1.0 + rate)
  }

  /** The closed form `principal * (1 + rate)^years` is the year-by-year balance. */
  lemma {:induction false} ClosedFormIsBalance(principal: real, rate: real, years: nat)
    ensures principal * Pow(1.0 + rate, years) == Balance(principal, rate, years)
  {
    if years > 0 {
      ClosedFormIsBalance(principal, rate, years - 1);
      var growth, p := 1.0 + rate, Pow(1.0 + rate, years - 1);
      calc {
        principal * Pow(1.0 + rate, years);
      ==
        principal * (growth * p);
      == { MulRegroup(principal, growth, p); }
        (principal * p) * growth;
      ==
        Balance(principal, rate, years - 1) * growth;
      }
    }
  }

  /** `a·(b·c)` regrouped as `(a·c)·b`. */
  lemma MulRegroup(a: real, b: real, c: real)
    ensures a * (b * c) == (a * c) * b
  {
  }

  /** `principal * Math.pow(1 + rate, years)`. */
  function FutureValue(principal: real, rate: real, years: nat): (v: real)
    ensures v == Balance(principal, rate, years)
  {
    ClosedFormIsBalance(principal, rate, years);
    principal * Pow(1.0 + rate, years)
  }

  /** The calculation proper, on coerced inputs. */
  function InvestorReturns(i: InvestorInputs): (r: InvestorOutcome)
    ensures r.InvalidInput? <==> i.principal <= 0.0 || i.years <= 0
    ensures i.principal > 0.0 && i.years > 0 ==>
      && r.Comparison?
      && r.highFuture == Balance(i.principal, i.highRate, i.years)
      && r.safeFuture == Balance(i.principal, i.safeRate, i.years)
      && r.difference + r.safeFuture == r.highFuture
  {
    if i.principal <= 0.0 || i.years <= 0 then
      InvalidInput
    else
      var highFuture := FutureValue(i.principal, i.highRate, i.years);
      var safeFuture := FutureValue(i.principal, i.safeRate, i.years);
      var difference := highFuture - safeFuture;
      Comparison(highFuture, safeFuture, difference)
  }

  /** The whole calculator, from the parsed form to the outcome. */
  function CalculateInvestorReturns(form: InvestorForm): (r: InvestorOutcome)
    ensures r.InvalidInput? <==> NumberOr0(form.principal) <= 0.0 || IntOr0(form.years) <= 0
    ensures form.principal.None? || form.years.None? || form.years == Some(0) ==> r.InvalidInput?
  {
    InvestorReturns(ReadInputs(form))
  }

  /** At rate 0 nothing accrues: the future value is the principal. */
  lemma FutureValueAtZeroRate(principal: real, years: nat)
    ensures FutureValue(principal, 0.0, years) == principal
  {
    PowOfOne(years);
  }

  /** Over zero years the future value is the principal, at any rate. */
  lemma FutureValueAtZeroYears(principal: real, rate: real)
    ensures FutureValue(principal, rate, 0) == principal
  {
  }

  /** Compounding: one more year multiplies the future value by `1 + rate`. */
  lemma FutureValueOneMoreYear(principal: real, rate: real, years: nat)
    ensures FutureValue(principal, rate, years + 1) == FutureValue(principal, rate, years) * (1.0 + rate)
  {
  }

  /** A higher rate never gives a smaller balance (for rates of at least -100 %). */
  lemma FutureValueMonotoneInRate(principal: real, low: real, high: real, years: nat)
    requires principal >= 0.0
    requires -1.0 <= low <= high
    ensures FutureValue(principal, low, years) <= FutureValue(principal, high, years)
  {
    var lowGrowth, highGrowth := Pow(1.0 + low, years), Pow(1.0 + high, years);
    PowMonotoneInBase(1.0 + low, 1.0 + high, years);
    calc {
      FutureValue(principal, low, years);
    ==
      principal * lowGrowth;
    <= { MulMonotone(principal, lowGrowth, highGrowth); }
      principal * highGrowth;
    ==
      FutureValue(principal, high, years);
    }
  }

  /** Over at least one year, a positive principal grows strictly more at a strictly higher rate. */
  lemma FutureValueStrictlyMonotoneInRate(principal: real, low: real, high: real, years: nat)
    requires principal > 0.0 && years >= 1
    requires -1.0 <= low < high
    ensures FutureValue(principal, low, years) < FutureValue(principal, high, years)
  {
    var lowGrowth, highGrowth := Pow(1.0 + low, years), Pow(1.0 + high, years);
    PowStrictlyMonotoneInBase(1.0 + low, 1.0 + high, years);
    calc {
      FutureValue(principal, low, years);
    ==
      principal * lowGrowth;
    < { MulStrictlyMonotone(principal, lowGrowth, highGrowth); }
      principal * highGrowth;
    ==
      FutureValue(principal, high, years);
    }
  }

  /** With a non-negative rate a longer term never gives a smaller balance. */
  lemma FutureValueMonotoneInYears(principal: real, rate: real, shorter: nat, longer: nat)
    requires principal >= 0.0 && rate >= 0.0
    requires shorter <= longer
    ensures FutureValue(principal, rate, shorter) <= FutureValue(principal, rate, longer)
  {
    var before, after := Pow(1.0 + rate, shorter), Pow(1.0 + rate, longer);
    PowMonotoneInExponent(1.0 + rate, shorter, longer);
    calc {
      FutureValue(principal, rate, shorter);
    ==
      principal * before;
    <= { MulMonotone(principal, before, after); }
      principal * after;
    ==
      FutureValue(principal, rate, longer);
    }
  }

  /** Compound growth is at least simple accrual of the same rate over the same term. */
  lemma FutureValueAtLeastSimpleInterest(principal: real, rate: real, years: nat)
    requires principal >= 0.0 && rate >= -1.0
    ensures FutureValue(principal, rate, years) >= principal * (1.0 + (years as real) * rate)
  {
    Bernoulli(rate, years);
    MulMonotone(principal, 1.0 + (years as real) * rate, Pow(1.0 + rate, years));
  }

  /**
   * The higher rate's balance is at least the safe rate's, so the difference
   * shown is not negative; when the high rate is strictly higher, it is positive.
   */
  lemma InvestorOrdering(i: InvestorInputs)
    requires i.principal > 0.0 && i.years > 0
    requires -1.0 <= i.safeRate <= i.highRate
    ensures InvestorReturns(i).highFuture >= InvestorReturns(i).safeFuture
    ensures InvestorReturns(i).difference >= 0.0
    ensures i.safeRate < i.highRate ==> InvestorReturns(i).difference > 0.0
  {
    FutureValueMonotoneInRate(i.principal, i.safeRate, i.highRate, i.years);
    if i.safeRate < i.highRate {
      FutureValueStrictlyMonotoneInRate(i.principal, i.safeRate, i.highRate, i.years);
    }
  }

  /** A worked example: 1,00,000 at 18 % against 6 % for 3 years. */
  lemma InvestorWorkedExample()
    ensures CalculateInvestorReturns(InvestorForm(Some(100000.0), Some(18.0), Some(6.0), Some(3)))
         == Comparison(164303.2, 119101.6, 45201.6)
  {
    assert Pow(1.18, 3) == 1.18 * (1.18 * (1.18 * 1.0)) == 1.643032;
    assert Pow(1.06, 3) == 1.06 * (1.06 * (1.06 * 1.0)) == 1.191016;
  }
}
