/** Compound interest (js/formulas/compound-interest-formula.js): the closed
    form of compounding `compoundFrequency` times a year with the monthly
    contribution spread over the periods, a year-by-year breakdown of the
    same closed form, and the rule of 72. */
module CompoundInterest {
  import opened FinMath

  /** The rate of one compounding period. */
  function PeriodRate(annualRate: real, compoundFrequency: nat): real
    requires compoundFrequency > 0
  {
    annualRate / compoundFrequency as real
  }

  /** The monthly contribution expressed per compounding period. */
  function PeriodContribution(monthlyContribution: real, compoundFrequency: nat): real
    requires compoundFrequency > 0
  {
    monthlyContribution * (12.0 / compoundFrequency as real)
  }

  /** The balance after `year` years, by the closed form. The closed form
      divides by the period rate, so a zero rate is outside its domain. */
  function YearBalance(principal: real, monthlyContribution: real, annualRate: real, compoundFrequency: nat,
                       year: nat): real
    requires compoundFrequency > 0 && annualRate != 0.0
  {
    FutureValue(principal, PeriodRate(annualRate, compoundFrequency),
                PeriodContribution(monthlyContribution, compoundFrequency), year * compoundFrequency)
  }

  /** The principal plus twelve contributions a year for `year` years. */
  function PaidIn(principal: real, monthlyContribution: real, year: real): real
  {
    principal + monthlyContribution * 12.0 * year
  }

  /** One row of the yearly breakdown, amounts in cents. */
  datatype YearRow = YearRow(year: nat, balance: real, contributions: real, interest: real)

  /** The row for year `year`. */
  function YearRowAt(principal: real, monthlyContribution: real, annualRate: real, compoundFrequency: nat,
                     year: nat): YearRow
    requires compoundFrequency > 0 && annualRate != 0.0
  {
    var balance := YearBalance(principal, monthlyContribution, annualRate, compoundFrequency, year);
    var paidIn := PaidIn(principal, monthlyContribution, year as real);
    YearRow(year, Cents(balance), Cents(paidIn), Cents(balance - paidIn))
  }

  /** The report of `calculateCompoundInterest`. */
  datatype CompoundReport = CompoundReport(
    principal: real,
    monthlyContribution: real,
    totalContributions: real,
    totalInterest: real,
    finalBalance: real,
    years: nat,
    yearlyData: seq<YearRow>)

  /** `calculateCompoundInterest`: the totals by the closed form, then one row
      per year 0..years. */
  method CalculateCompoundInterest(principal: real, monthlyContribution: real, annualRate: real, years: nat,
                                   compoundFrequency: nat)
    returns (r: CompoundReport)
    requires compoundFrequency > 0 && annualRate != 0.0
    ensures var balance := YearBalance(principal, monthlyContribution, annualRate, compoundFrequency, years);
      var paidIn := PaidIn(principal, monthlyContribution, years as real);
      && r.principal == Cents(principal)
      && r.monthlyContribution == Cents(monthlyContribution)
      && r.finalBalance == Cents(balance)
      && r.totalContributions == Cents(paidIn)
      && r.totalInterest == Cents(balance - paidIn)
      && r.years == years
    ensures |r.yearlyData| == years + 1
    ensures forall k :: 0 <= k <= years ==>
      r.yearlyData[k] == YearRowAt(principal, monthlyContribution, annualRate, compoundFrequency, k)
  {
    var totalBalance := YearBalance(principal, monthlyContribution, annualRate, compoundFrequency, years);
    var totalContributions := PaidIn(principal, monthlyContribution, years as real);
    var totalInterest := totalBalance - totalContributions;
    var yearlyData := [];
    for year := 0 to years + 1
      invariant |yearlyData| == year
      invariant forall k :: 0 <= k < year ==>
        yearlyData[k] == YearRowAt(principal, monthlyContribution, annualRate, compoundFrequency, k)
    {
      var yearBalance := YearBalance(principal, monthlyContribution, annualRate, compoundFrequency, year);
      var yearTotalContributions := PaidIn(principal, monthlyContribution, year as real);
      yearlyData := yearlyData + [YearRow(year, Cents(yearBalance), Cents(yearTotalContributions),
                                          Cents(yearBalance - yearTotalContributions))];
    }
    r := CompoundReport(Cents(principal), Cents(monthlyContribution), Cents(totalContributions),
                        Cents(totalInterest), Cents(totalBalance), years, yearlyData);
  }

  /** The closed form is what compounding period by period gives: the
      balance after `year` years is `year * compoundFrequency` steps of
      `b := b * (1 + rate) + contribution`. */
  lemma ClosedFormIsCompounding(principal: real, monthlyContribution: real, annualRate: real,
                                compoundFrequency: nat, year: nat)
    requires compoundFrequency > 0 && annualRate != 0.0
    ensures YearBalance(principal, monthlyContribution, annualRate, compoundFrequency, year)
            == Grow(principal, PeriodRate(annualRate, compoundFrequency),
                    PeriodContribution(monthlyContribution, compoundFrequency), year * compoundFrequency)
  {
    GrowClosedForm(principal, PeriodRate(annualRate, compoundFrequency),
                   PeriodContribution(monthlyContribution, compoundFrequency), year * compoundFrequency);
  }

  /** Year 0 shows the principal, all of it paid in, with no interest. */
  lemma FirstYearRow(principal: real, monthlyContribution: real, annualRate: real, compoundFrequency: nat)
    requires compoundFrequency > 0 && annualRate != 0.0
    ensures YearRowAt(principal, monthlyContribution, annualRate, compoundFrequency, 0)
            == YearRow(0, Cents(principal), Cents(principal), 0.0)
  {
    var i := PeriodRate(annualRate, compoundFrequency);
    assert Pow(1.0 + i, 0) == 1.0;
    assert Cents(0.0) == 0.0;
  }

  /** Spread over the periods, the contributions of `year` years add up to
      twelve monthly contributions a year. */
  lemma PeriodContributionsTotal(monthlyContribution: real, compoundFrequency: nat, year: nat)
    requires compoundFrequency > 0
    ensures (year * compoundFrequency) as real * PeriodContribution(monthlyContribution, compoundFrequency)
            == monthlyContribution * 12.0 * year as real
  {
    var f := compoundFrequency as real;
    var y := year as real;
    assert (year * compoundFrequency) as real == y * f;
    assert 12.0 / f * f == 12.0;
    calc {
      y * f * (monthlyContribution * (12.0 / f));
      monthlyContribution * y * (12.0 / f * f);
      monthlyContribution * 12.0 * y;
    }
  }

  /** With a non-negative principal and contribution and a positive rate the
      balance is never below what was paid in, so no year shows negative
      interest. */
  lemma InterestNonNegative(principal: real, monthlyContribution: real, annualRate: real, compoundFrequency: nat,
                            year: nat)
    requires compoundFrequency > 0 && annualRate > 0.0
    requires principal >= 0.0 && monthlyContribution >= 0.0
    ensures YearBalance(principal, monthlyContribution, annualRate, compoundFrequency, year)
            >= PaidIn(principal, monthlyContribution, year as real)
    ensures YearRowAt(principal, monthlyContribution, annualRate, compoundFrequency, year).interest >= 0.0
  {
    var i := PeriodRate(annualRate, compoundFrequency);
    var c := PeriodContribution(monthlyContribution, compoundFrequency);
    var n := year * compoundFrequency;
    ClosedFormIsCompounding(principal, monthlyContribution, annualRate, compoundFrequency, year);
    GrowAtLeastContributions(principal, i, c, n);
    PeriodContributionsTotal(monthlyContribution, compoundFrequency, year);
    var balance := YearBalance(principal, monthlyContribution, annualRate, compoundFrequency, year);
    var paidIn := PaidIn(principal, monthlyContribution, year as real);
    CentsNonNegative(balance - paidIn);
  }

  /** With a non-negative principal and contribution and a positive rate the
      balance never falls from one year to a later one. */
  lemma BalanceNonDecreasing(principal: real, monthlyContribution: real, annualRate: real, compoundFrequency: nat,
                             y1: nat, y2: nat)
    requires compoundFrequency > 0 && annualRate > 0.0
    requires principal >= 0.0 && monthlyContribution >= 0.0 && y1 <= y2
    ensures YearBalance(principal, monthlyContribution, annualRate, compoundFrequency, y1)
            <= YearBalance(principal, monthlyContribution, annualRate, compoundFrequency, y2)
    ensures YearRowAt(principal, monthlyContribution, annualRate, compoundFrequency, y1).balance
            <= YearRowAt(principal, monthlyContribution, annualRate, compoundFrequency, y2).balance
  {
    var i := PeriodRate(annualRate, compoundFrequency);
    var c := PeriodContribution(monthlyContribution, compoundFrequency);
    ClosedFormIsCompounding(principal, monthlyContribution, annualRate, compoundFrequency, y1);
    ClosedFormIsCompounding(principal, monthlyContribution, annualRate, compoundFrequency, y2);
    MulMonotoneNat(y1, y2, compoundFrequency);
    GrowNonDecreasing(principal, i, c, y1 * compoundFrequency, y2 * compoundFrequency);
    CentsMonotone(YearBalance(principal, monthlyContribution, annualRate, compoundFrequency, y1),
                  YearBalance(principal, monthlyContribution, annualRate, compoundFrequency, y2));
  }

  lemma DivideAntitone(a: real, p: real, q: real)
    requires a > 0.0 && 0.0 < p <= q
    ensures 0.0 < a / q <= a / p
  {
    var x := a / p;
    var y := a / q;
    assert x * p == a && y * q == a;
    if y > x {
      MulStrict(q, x, y);
      MulMonotone(x, p, q);
    }
  }

  lemma MulMonotoneNat(a: nat, b: nat, k: nat)
    requires a <= b
    ensures a * k <= b * k
  {
  }

  /** `ruleOf72`: the years to double at `annualRate`, to one decimal, or 0
      for a rate that is not positive. */
  function RuleOf72(annualRate: real): (years: real)
    ensures annualRate <= 0.0 ==> years == 0.0
    ensures annualRate > 0.0 ==>
      72.0 / (annualRate * 100.0) - 0.05 < years <= 72.0 / (annualRate * 100.0) + 0.05
  {
    if annualRate > 0.0 then Round(72.0 / (annualRate * 100.0) * 10.0) as real / 10.0 else 0.0
  }

  /** A higher positive rate never takes longer to double. */
  lemma RuleOf72Antitone(r1: real, r2: real)
    requires 0.0 < r1 <= r2
    ensures 0.0 <= RuleOf72(r2) <= RuleOf72(r1)
  {
    var x1 := 72.0 / (r1 * 100.0);
    var x2 := 72.0 / (r2 * 100.0);
    DivideAntitone(72.0, r1 * 100.0, r2 * 100.0);
    assert x2 * 10.0 <= x1 * 10.0;
    assert Round(x2 * 10.0) <= Round(x1 * 10.0);
    assert x2 > 0.0;
  }
}
