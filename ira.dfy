/** Traditional against Roth IRA (js/formulas/ira-formula.js): both accounts
    are filled by the same monthly loop, so they end equal and only the tax
    on withdrawal tells them apart; and the yearly growth table. */
module Ira {
  import opened FinMath

  /** The contribution limit, and the catch-up amount added from age 50 on. */
  const ContributionLimit: real := 7000.0
  const CatchUpContribution: real := 1000.0
  const CatchUpAge: real := 50.0

  /** The limit that applies at `currentAge`. */
  function Limit(currentAge: real): (l: real)
    ensures l == if currentAge >= CatchUpAge then 8000.0 else 7000.0
  {
    if currentAge >= CatchUpAge then ContributionLimit + CatchUpContribution else ContributionLimit
  }

  /** What either account holds after `years` years of monthly deposits of a
      twelfth of the contribution, compounding monthly from nothing. */
  function AccountBalance(effectiveContribution: real, annualReturn: real, years: nat): real
  {
    MonthlyDeposits(effectiveContribution, annualReturn / 12.0, years * 12)
  }

  /** An account after `months` monthly deposits of a twelfth of the yearly
      contribution. */
  function MonthlyDeposits(effectiveContribution: real, monthlyReturn: real, months: nat): real
  {
    Grow(0.0, monthlyReturn, effectiveContribution / 12.0, months)
  }

  datatype Recommendation = Roth | Traditional

  datatype TraditionalSummary = TraditionalSummary(balance: real, taxDeduction: real, taxOnWithdrawal: real,
                                                   afterTaxValue: real)

  datatype RothSummary = RothSummary(balance: real, afterTaxValue: real, taxFreeGrowth: real)

  /** The report of `compareIRA`; `advantage` is `None` where the division by
      a zero larger after-tax value yields NaN or Infinity. */
  datatype IraComparison = IraComparison(
    currentTaxRate: real,
    retirementTaxRate: real,
    annualContribution: real,
    contributionLimit: real,
    years: nat,
    traditional: TraditionalSummary,
    roth: RothSummary,
    recommendation: Recommendation,
    difference: real,
    advantage: Option<real>)

  /** The comparison `compareIRA` draws from the two final balances. */
  function ComparisonOf(currentTaxRate: real, retirementTaxRate: real, effectiveContribution: real, limit: real,
                        years: nat, traditionalBalance: real, rothBalance: real): IraComparison
  {
    var traditionalTaxOnWithdrawal := traditionalBalance * retirementTaxRate;
    var traditionalAfterTax := traditionalBalance - traditionalTaxOnWithdrawal;
    var rothAfterTax := rothBalance;
    var difference := rothAfterTax - traditionalAfterTax;
    var larger := Max(traditionalAfterTax, rothAfterTax);
    IraComparison(Percent(currentTaxRate), Percent(retirementTaxRate), Cents(effectiveContribution), limit, years,
                  TraditionalSummary(Cents(traditionalBalance), Cents(effectiveContribution * currentTaxRate),
                                     Cents(traditionalTaxOnWithdrawal), Cents(traditionalAfterTax)),
                  RothSummary(Cents(rothBalance), Cents(rothAfterTax),
                              Cents(rothBalance - effectiveContribution * years as real)),
                  if difference > 0.0 then Roth else Traditional,
                  Cents(Abs(difference)),
                  if larger == 0.0 then None else Some(Percent(Abs(difference) / larger)))
  }

  /** `compareIRA`: two identical monthly loops, one per account. */
  method CompareIra(currentTaxRate: real, retirementTaxRate: real, annualContribution: real, years: nat,
                    annualReturn: real, currentAge: real)
    returns (r: IraComparison)
    ensures var effective := Min(annualContribution, Limit(currentAge));
      var b := AccountBalance(effective, annualReturn, years);
      r == ComparisonOf(currentTaxRate, retirementTaxRate, effective, Limit(currentAge), years, b, b)
  {
    var monthlyReturn := annualReturn / 12.0;
    var months := years * 12;
    var limit := Limit(currentAge);
    var effectiveContribution := Min(annualContribution, limit);
    var traditionalBalance := 0.0;
    for i := 0 to months
      invariant traditionalBalance == MonthlyDeposits(effectiveContribution, monthlyReturn, i)
    {
      traditionalBalance := traditionalBalance * (1.0 + monthlyReturn) + effectiveContribution / 12.0;
    }
    var rothBalance := 0.0;
    for i := 0 to months
      invariant rothBalance == MonthlyDeposits(effectiveContribution, monthlyReturn, i)
    {
      rothBalance := rothBalance * (1.0 + monthlyReturn) + effectiveContribution / 12.0;
    }
    r := ComparisonOf(currentTaxRate, retirementTaxRate, effectiveContribution, limit, years,
                      traditionalBalance, rothBalance);
  }

  /** With equal balances the two accounts show the same balance; the Roth
      account is recommended exactly when the traditional one loses tax on
      withdrawal, by that tax; and the advantage is that tax over the larger
      after-tax value. */
  lemma EqualBalancesCompare(currentTaxRate: real, retirementTaxRate: real, effectiveContribution: real,
                             limit: real, years: nat, b: real)
    ensures var r := ComparisonOf(currentTaxRate, retirementTaxRate, effectiveContribution, limit, years, b, b);
      && r.roth.balance == r.traditional.balance == r.roth.afterTaxValue
      && (r.recommendation == Roth <==> b * retirementTaxRate > 0.0)
      && r.difference == Cents(Abs(b * retirementTaxRate))
      && r.traditional.afterTaxValue == Cents(b - b * retirementTaxRate)
      && r.advantage == (if Max(b - b * retirementTaxRate, b) == 0.0 then None
                         else Some(Percent(Abs(b * retirementTaxRate) / Max(b - b * retirementTaxRate, b))))
  {
    var d := b - (b - b * retirementTaxRate);
    assert d == b * retirementTaxRate;
  }

  /** The contribution used never exceeds the limit for the age, and is the
      requested one when that is within the limit. */
  lemma EffectiveWithinLimit(annualContribution: real, currentAge: real)
    ensures Min(annualContribution, Limit(currentAge)) <= Limit(currentAge)
    ensures annualContribution <= Limit(currentAge) ==> Min(annualContribution, Limit(currentAge)) == annualContribution
    ensures Limit(currentAge) >= ContributionLimit
  {
  }

  /** With a tax rate between 0 and 1 on a positive balance, the Roth edge
      is the withdrawal tax, and the advantage in percent is the retirement
      tax rate in percent. */
  lemma AdvantageIsRetirementRate(b: real, retirementTaxRate: real)
    requires b > 0.0 && 0.0 <= retirementTaxRate <= 1.0
    ensures Max(b - b * retirementTaxRate, b) == b
    ensures Abs(b * retirementTaxRate) / Max(b - b * retirementTaxRate, b) == retirementTaxRate
  {
    MulMonotone(b, 0.0, retirementTaxRate);
    assert b * retirementTaxRate / b == retirementTaxRate;
  }

  /** On a non-negative contribution and return the balance is never
      negative, so the Roth account wins exactly when some balance is taxed at
      a positive retirement rate. */
  lemma RothWinsWhenTaxed(effectiveContribution: real, annualReturn: real, years: nat, retirementTaxRate: real)
    requires effectiveContribution >= 0.0 && annualReturn >= 0.0
    ensures var b := AccountBalance(effectiveContribution, annualReturn, years);
      b * retirementTaxRate > 0.0 <==> b > 0.0 && retirementTaxRate > 0.0
  {
    var b := AccountBalance(effectiveContribution, annualReturn, years);
    GrowNonDecreasing(0.0, annualReturn / 12.0, effectiveContribution / 12.0, 0, years * 12);
    if b > 0.0 && retirementTaxRate <= 0.0 {
      MulMonotone(b, retirementTaxRate, 0.0);
    }
    if b > 0.0 && retirementTaxRate > 0.0 {
      MulStrict(b, 0.0, retirementTaxRate);
    }
  }

  /** One row of `calculateGrowth`, amounts in cents. */
  datatype GrowthRow = GrowthRow(year: nat, balance: real, contributions: real, growth: real)

  /** The row for year `k`. */
  function GrowthRowAt(initialBalance: real, annualContribution: real, annualReturn: real, k: nat): GrowthRow
  {
    var balance := Grow(initialBalance, annualReturn, annualContribution, k);
    var total := Deposited(initialBalance, annualContribution, k);
    GrowthRow(k, Cents(balance), Cents(total), Cents(balance - total))
  }

  /** `calculateGrowth`: one row per year 0..years, taken before that year's
      growth and contribution. */
  method CalculateGrowth(initialBalance: real, annualContribution: real, annualReturn: real, years: nat)
    returns (data: seq<GrowthRow>)
    ensures |data| == years + 1
    ensures forall k :: 0 <= k <= years ==> data[k] == GrowthRowAt(initialBalance, annualContribution, annualReturn, k)
  {
    data := [];
    var balance := initialBalance;
    var totalContributions := initialBalance;
    for year := 0 to years + 1
      invariant |data| == year
      invariant balance == Grow(initialBalance, annualReturn, annualContribution, year)
      invariant totalContributions == Deposited(initialBalance, annualContribution, year)
      invariant forall k :: 0 <= k < year ==> data[k] == GrowthRowAt(initialBalance, annualContribution, annualReturn, k)
    {
      data := data + [GrowthRow(year, Cents(balance), Cents(totalContributions), Cents(balance - totalContributions))];
      balance := balance * (1.0 + annualReturn) + annualContribution;
      totalContributions := totalContributions + annualContribution;
    }
  }

  /** The first row shows the initial balance, all of it contributed, with no
      growth. */
  lemma FirstGrowthRow(initialBalance: real, annualContribution: real, annualReturn: real)
    ensures GrowthRowAt(initialBalance, annualContribution, annualReturn, 0)
            == GrowthRow(0, Cents(initialBalance), Cents(initialBalance), 0.0)
  {
    assert Cents(0.0) == 0.0;
  }

  /** Without a return every row shows zero growth. */
  lemma GrowthAtZeroReturn(initialBalance: real, annualContribution: real, k: nat)
    ensures GrowthRowAt(initialBalance, annualContribution, 0.0, k).growth == 0.0
  {
    GrowAtZeroRate(initialBalance, annualContribution, k);
    DepositedClosedForm(initialBalance, annualContribution, k);
    assert Cents(0.0) == 0.0;
  }

  /** With a non-negative start, contribution and return no row shows
      negative growth. */
  lemma GrowthNonNegative(initialBalance: real, annualContribution: real, annualReturn: real, k: nat)
    requires initialBalance >= 0.0 && annualContribution >= 0.0 && annualReturn >= 0.0
    ensures GrowthRowAt(initialBalance, annualContribution, annualReturn, k).growth >= 0.0
  {
    GrowAtLeastContributions(initialBalance, annualReturn, annualContribution, k);
    DepositedClosedForm(initialBalance, annualContribution, k);
    var balance := Grow(initialBalance, annualReturn, annualContribution, k);
    var total := Deposited(initialBalance, annualContribution, k);
    CentsNonNegative(balance - total);
  }
}
