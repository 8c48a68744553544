/**
 * The EV franchisee calculator: what a vehicle bought through EEI returns
 * over a term, by simple (not compounded) yearly accrual of loan interest,
 * a top-up on that interest and a tax benefit, plus a salvage value at the end.
 */
module FranchiseCalculator {
  import opened Wrappers
  import opened FormFields

  /** The franchisee form as parsed: the vehicle cost in rupees, four rates in percent, the term in years. */
  datatype FranchiseForm = FranchiseForm(
    vehicleCost: Option<real>,
    loanRate: Option<real>,
    topupRate: Option<real>,
    taxRate: Option<real>,
    salvageRate: Option<real>,
    years: Option<int>)

  /** The form's values after coercion; rates are fractions (10 % is 0.1). */
  datatype FranchiseInputs = FranchiseInputs(
    cost: real,
    loanRate: real,
    topupRate: real,
    taxRate: real,
    salvageRate: real,
    years: int)

  /** Either the "enter a valid vehicle cost and period" outcome or the derived amounts. */
  datatype FranchiseOutcome =
    | InvalidInput
    | Returns(
        annualInterest: real,
        annualTopup: real,
        annualTaxBenefit: real,
        totalBenefits: real,
        salvageValue: real,
        totalCashIn: real,
        netProfit: real,
        roiPercent: real)

  /** The coercion of the six fields: missing or unparseable is 0, rates are divided by 100. */
  function ReadInputs(form: FranchiseForm): (i: FranchiseInputs)
    ensures i.cost == NumberOr0(form.vehicleCost)
    ensures i.loanRate == PercentOr0(form.loanRate) && i.topupRate == PercentOr0(form.topupRate)
    ensures i.taxRate == PercentOr0(form.taxRate) && i.salvageRate == PercentOr0(form.salvageRate)
    ensures i.years == IntOr0(form.years)
  {
    FranchiseInputs(
      NumberOr0(form.vehicleCost),
      PercentOr0(form.loanRate),
      PercentOr0(form.topupRate),
      PercentOr0(form.taxRate),
      PercentOr0(form.salvageRate),
      IntOr0(form.years))
  }

  /** What one year of the term brings in, per rupee of vehicle cost. */
  function YearlyBenefitRate(i: FranchiseInputs): real
  {
    i.loanRate * (1.0 + i.topupRate) + i.taxRate
  }

  /** The calculation proper, on coerced inputs. */
  function FranchiseReturns(i: FranchiseInputs): (r: FranchiseOutcome)
    ensures r.InvalidInput? <==> i.cost <= 0.0 || i.years <= 0
    ensures r.Returns? ==>
      && r.totalBenefits == (r.annualInterest + r.annualTopup + r.annualTaxBenefit) * (i.years as real)
      && r.totalCashIn == r.totalBenefits + r.salvageValue
      && r.netProfit + i.cost == r.totalCashIn
      && r.roiPercent * i.cost == 100.0 * r.netProfit
  {
    if i.cost <= 0.0 || i.years <= 0 then
      InvalidInput
    else
      var annualInterest := i.cost * i.loanRate;
      var annualTopup := i.cost * i.loanRate * i.topupRate;
      var annualTaxBenefit := i.cost * i.taxRate;
      var totalBenefits := (annualInterest + annualTopup + annualTaxBenefit) * (i.years as real);
      var salvageValue := i.cost * i.salvageRate;
      var totalCashIn := totalBenefits + salvageValue;
      var netProfit := totalCashIn - i.cost;
      var roiPercent := (netProfit / i.cost) * 100.0;
      Returns(annualInterest, annualTopup, annualTaxBenefit, totalBenefits,
              salvageValue, totalCashIn, netProfit, roiPercent)
  }

  /** The whole calculator, from the parsed form to the outcome. */
  function CalculateFranchiseReturns(form: FranchiseForm): (r: FranchiseOutcome)
    ensures r.InvalidInput? <==> NumberOr0(form.vehicleCost) <= 0.0 || IntOr0(form.years) <= 0
    ensures form.vehicleCost.None? || form.years.None? || form.years == Some(0) ==> r.InvalidInput?
  {
    FranchiseReturns(ReadInputs(form))
  }

  /**
   * Each amount as a closed form in the inputs. The return on investment does
   * not depend on the cost: it is the yearly benefit rate times the term, plus
   * the salvage rate, less the whole cost.
   */
  lemma FranchiseClosedForm(i: FranchiseInputs)
    requires i.cost > 0.0 && i.years > 0
    ensures FranchiseReturns(i).annualInterest == i.cost * i.loanRate
    ensures FranchiseReturns(i).annualTopup == i.cost * i.loanRate * i.topupRate
    ensures FranchiseReturns(i).annualTaxBenefit == i.cost * i.taxRate
    ensures FranchiseReturns(i).totalBenefits == i.cost * YearlyBenefitRate(i) * (i.years as real)
    ensures FranchiseReturns(i).salvageValue == i.cost * i.salvageRate
    ensures FranchiseReturns(i).totalCashIn
         == i.cost * (YearlyBenefitRate(i) * (i.years as real) + i.salvageRate)
    ensures FranchiseReturns(i).netProfit
         == i.cost * (YearlyBenefitRate(i) * (i.years as real) + i.salvageRate - 1.0)
    ensures FranchiseReturns(i).roiPercent
         == 100.0 * (YearlyBenefitRate(i) * (i.years as real) + i.salvageRate - 1.0)
  {
    var r := FranchiseReturns(i);
    var y := i.years as real;
    var margin := YearlyBenefitRate(i) * y + i.salvageRate - 1.0;
    assert r.netProfit == i.cost * margin;
    calc {
      r.roiPercent;
    ==
      (i.cost * margin / i.cost) * 100.0;
    ==
      100.0 * margin;
    }
  }

  /** With non-negative rates every inflow is non-negative, so at most the whole cost is lost. */
  lemma FranchiseBounds(i: FranchiseInputs)
    requires i.cost > 0.0 && i.years > 0
    requires i.loanRate >= 0.0 && i.topupRate >= 0.0 && i.taxRate >= 0.0 && i.salvageRate >= 0.0
    ensures FranchiseReturns(i).annualInterest >= 0.0
    ensures FranchiseReturns(i).annualTopup >= 0.0
    ensures FranchiseReturns(i).annualTaxBenefit >= 0.0
    ensures FranchiseReturns(i).totalBenefits >= 0.0
    ensures FranchiseReturns(i).salvageValue >= 0.0
    ensures FranchiseReturns(i).totalCashIn >= 0.0
    ensures FranchiseReturns(i).netProfit >= -i.cost
    ensures FranchiseReturns(i).roiPercent >= -100.0
  {
    FranchiseClosedForm(i);
    assert YearlyBenefitRate(i) >= 0.0;
  }

  /** The investment breaks even exactly when the return on investment is not negative. */
  lemma FranchiseBreakEven(i: FranchiseInputs)
    requires i.cost > 0.0 && i.years > 0
    ensures FranchiseReturns(i).roiPercent >= 0.0 <==> FranchiseReturns(i).totalCashIn >= i.cost
    ensures FranchiseReturns(i).roiPercent >= 0.0 <==> FranchiseReturns(i).netProfit >= 0.0
  {
    FranchiseClosedForm(i);
  }

  /** Simple accrual: one more year adds exactly one year's benefits and nothing else. */
  lemma FranchiseOneMoreYear(i: FranchiseInputs)
    requires i.cost > 0.0 && i.years > 0
    ensures var r, s := FranchiseReturns(i), FranchiseReturns(i.(years := i.years + 1));
      && s.annualInterest == r.annualInterest
      && s.annualTopup == r.annualTopup
      && s.annualTaxBenefit == r.annualTaxBenefit
      && s.salvageValue == r.salvageValue
      && s.totalBenefits == r.totalBenefits + (r.annualInterest + r.annualTopup + r.annualTaxBenefit)
      && s.netProfit == r.netProfit + (r.annualInterest + r.annualTopup + r.annualTaxBenefit)
  {
  }

  /** A worked example: 10,00,000 with 10 %, 5 %, 2 % and 20 % over 5 years. */
  lemma FranchiseWorkedExample()
    ensures CalculateFranchiseReturns(
              FranchiseForm(Some(1000000.0), Some(10.0), Some(5.0), Some(2.0), Some(20.0), Some(5)))
         == Returns(100000.0, 5000.0, 20000.0, 625000.0, 200000.0, 825000.0, -175000.0, -17.5)
  {
  }
}
