/** Taxable against tax-deferred growth (js/formulas/tax-deferred-formula.js):
    three monthly loops over the same deposits — a taxable account that pays
    tax on each month's return, a traditional account taxed on its gains at
    withdrawal, and a Roth account — and the comparison of their values. */
module TaxDeferred {
  import opened FinMath

  /** The monthly rate a taxable account keeps once the tax on the return is
      paid. */
  function NetRate(monthlyRate: real, taxRate: real): real
  {
    monthlyRate - monthlyRate * taxRate
  }

  /** The taxable account after `months` months. */
  function TaxableBalance(initialInvestment: real, monthlyContribution: real, monthlyRate: real, taxRate: real,
                          months: nat): real
  {
    Grow(initialInvestment, NetRate(monthlyRate, taxRate), monthlyContribution, months)
  }

  /** The traditional (and Roth) account after `months` months. */
  function DeferredBalance(initialInvestment: real, monthlyContribution: real, monthlyRate: real, months: nat): real
  {
    Grow(initialInvestment, monthlyRate, monthlyContribution, months)
  }

  /** A taxable month — the return less the tax on it, then the deposit — is
      a step of the recurrence at the net rate. */
  lemma TaxableStep(b: real, monthlyRate: real, taxRate: real, c: real)
    ensures var returnAmount := b * monthlyRate;
      b + (returnAmount - returnAmount * taxRate + c) == b * (1.0 + NetRate(monthlyRate, taxRate)) + c
  {
    assert b * (monthlyRate - monthlyRate * taxRate) == b * monthlyRate - b * monthlyRate * taxRate;
  }

  datatype TaxableSummary = TaxableSummary(balance: real, contributions: real, growth: real)

  datatype TraditionalSummary = TraditionalSummary(balance: real, contributions: real, growth: real,
                                                   taxOnWithdrawal: real, afterTaxValue: real)

  datatype RothSummary = RothSummary(balance: real, contributions: real, growth: real, afterTaxValue: real)

  /** The report of `calculateGrowth`. */
  datatype GrowthReport = GrowthReport(
    years: nat,
    initialInvestment: real,
    totalContributions: real,
    taxable: TaxableSummary,
    traditional: TraditionalSummary,
    roth: RothSummary,
    advantage: real)

  /** The traditional account's tax on withdrawal: its gains at the tax rate. */
  function DeferredTax(deferredBalance: real, contributions: real, taxRate: real): real
  {
    (deferredBalance - contributions) * taxRate
  }

  /** The report `calculateGrowth` draws from the loops' final values. */
  function ReportOf(years: nat, initialInvestment: real, taxRate: real, taxableBalance: real,
                    taxableContributions: real, deferredBalance: real, deferredContributions: real,
                    rothBalance: real): GrowthReport
  {
    var deferredTax := DeferredTax(deferredBalance, deferredContributions, taxRate);
    var deferredAfterTax := deferredBalance - deferredTax;
    GrowthReport(years, Cents(initialInvestment), Cents(deferredContributions),
                 TaxableSummary(Cents(taxableBalance), Cents(taxableContributions),
                                Cents(taxableBalance - taxableContributions)),
                 TraditionalSummary(Cents(deferredBalance), Cents(deferredContributions),
                                    Cents(deferredBalance - deferredContributions), Cents(deferredTax),
                                    Cents(deferredAfterTax)),
                 RothSummary(Cents(rothBalance), Cents(deferredContributions),
                             Cents(rothBalance - deferredContributions), Cents(rothBalance)),
                 Cents(deferredAfterTax - taxableBalance))
  }

  /** `calculateGrowth`. The account type argument is accepted and never
      read: the result does not depend on it. */
  method CalculateGrowth(initialInvestment: real, monthlyContribution: real, annualReturn: real, years: nat,
                         taxRate: real, contributionType: string)
    returns (r: GrowthReport)
    ensures var months := years * 12;
      var monthlyRate := annualReturn / 12.0;
      var deposits := Deposited(initialInvestment, monthlyContribution, months);
      var deferred := DeferredBalance(initialInvestment, monthlyContribution, monthlyRate, months);
      r == ReportOf(years, initialInvestment, taxRate,
                    TaxableBalance(initialInvestment, monthlyContribution, monthlyRate, taxRate, months),
                    deposits, deferred, deposits, deferred)
  {
    var monthlyRate := annualReturn / 12.0;
    var months := years * 12;
    var taxableBalance := initialInvestment;
    var taxableContributions := initialInvestment;
    var taxableCostBasis := initialInvestment;
    for i := 0 to months
      invariant taxableBalance == TaxableBalance(initialInvestment, monthlyContribution, monthlyRate, taxRate, i)
      invariant taxableContributions == taxableCostBasis == Deposited(initialInvestment, monthlyContribution, i)
    {
      var returnAmount := taxableBalance * monthlyRate;
      var taxOnReturn := returnAmount * taxRate;
      TaxableStep(taxableBalance, monthlyRate, taxRate, monthlyContribution);
      GrowNext(initialInvestment, NetRate(monthlyRate, taxRate), monthlyContribution, i);
      taxableBalance := taxableBalance + (returnAmount - taxOnReturn + monthlyContribution);
      taxableContributions := taxableContributions + monthlyContribution;
      taxableCostBasis := taxableCostBasis + monthlyContribution;
    }
    var deferredBalance := initialInvestment;
    var deferredContributions := initialInvestment;
    for i := 0 to months
      invariant deferredBalance == DeferredBalance(initialInvestment, monthlyContribution, monthlyRate, i)
      invariant deferredContributions == Deposited(initialInvestment, monthlyContribution, i)
    {
      GrowNext(initialInvestment, monthlyRate, monthlyContribution, i);
      deferredBalance := deferredBalance * (1.0 + monthlyRate) + monthlyContribution;
      deferredContributions := deferredContributions + monthlyContribution;
    }
    var rothBalance := initialInvestment;
    for i := 0 to months
      invariant rothBalance == DeferredBalance(initialInvestment, monthlyContribution, monthlyRate, i)
    {
      GrowNext(initialInvestment, monthlyRate, monthlyContribution, i);
      rothBalance := rothBalance * (1.0 + monthlyRate) + monthlyContribution;
    }
    r := ReportOf(years, initialInvestment, taxRate, taxableBalance, taxableContributions, deferredBalance,
                  deferredContributions, rothBalance);
  }

  /** The deposits total the initial investment plus one contribution a month. */
  lemma TotalContributions(initialInvestment: real, monthlyContribution: real, years: nat)
    ensures Deposited(initialInvestment, monthlyContribution, years * 12)
            == initialInvestment + monthlyContribution * (years * 12) as real
  {
    DepositedClosedForm(initialInvestment, monthlyContribution, years * 12);
  }

  /** When the Roth and traditional loops end equal, as they do, the Roth
      account shows the traditional balance, contributions and growth, and
      its after-tax value is that balance untaxed; the traditional after-tax
      value loses the tax on the gains only. */
  lemma RothMatchesTraditional(years: nat, initialInvestment: real, taxRate: real, taxable: real,
                               taxableContributions: real, deferred: real, contributions: real)
    ensures var r := ReportOf(years, initialInvestment, taxRate, taxable, taxableContributions, deferred,
                              contributions, deferred);
      && r.roth.balance == r.traditional.balance == r.roth.afterTaxValue
      && r.roth.contributions == r.traditional.contributions == r.totalContributions
      && r.roth.growth == r.traditional.growth
      && r.traditional.afterTaxValue == Cents(deferred - (deferred - contributions) * taxRate)
      && r.advantage == Cents(deferred - (deferred - contributions) * taxRate - taxable)
  {
  }

  /** Without tax the taxable account grows exactly like the deferred one. */
  lemma ZeroTaxCoincides(initialInvestment: real, monthlyContribution: real, monthlyRate: real, months: nat)
    ensures TaxableBalance(initialInvestment, monthlyContribution, monthlyRate, 0.0, months)
            == DeferredBalance(initialInvestment, monthlyContribution, monthlyRate, months)
  {
    assert NetRate(monthlyRate, 0.0) == monthlyRate;
  }

  /** For non-negative deposits and return and a tax rate from 0 to 1, the
      taxable account never gets ahead of the deferred one, month by month. */
  lemma TaxableNeverAhead(initialInvestment: real, monthlyContribution: real, monthlyRate: real, taxRate: real,
                          months: nat)
    requires initialInvestment >= 0.0 && monthlyContribution >= 0.0 && monthlyRate >= 0.0
    requires 0.0 <= taxRate <= 1.0
    ensures TaxableBalance(initialInvestment, monthlyContribution, monthlyRate, taxRate, months)
            <= DeferredBalance(initialInvestment, monthlyContribution, monthlyRate, months)
  {
    MulMonotone(monthlyRate, taxRate, 1.0);
    MulMonotone(monthlyRate, 0.0, taxRate);
    GrowMonotoneInRate(initialInvestment, NetRate(monthlyRate, taxRate), monthlyRate, monthlyContribution, months);
  }

  /** Without tax nothing separates the accounts: the advantage is zero. */
  lemma NoTaxNoAdvantage(initialInvestment: real, monthlyContribution: real, annualReturn: real, years: nat)
    ensures var months := years * 12;
      var monthlyRate := annualReturn / 12.0;
      var deposits := Deposited(initialInvestment, monthlyContribution, months);
      var deferred := DeferredBalance(initialInvestment, monthlyContribution, monthlyRate, months);
      ReportOf(years, initialInvestment, 0.0,
               TaxableBalance(initialInvestment, monthlyContribution, monthlyRate, 0.0, months),
               deposits, deferred, deposits, deferred).advantage == 0.0
  {
    ZeroTaxCoincides(initialInvestment, monthlyContribution, annualReturn / 12.0, years * 12);
    assert Cents(0.0) == 0.0;
  }
}
