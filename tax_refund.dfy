/** The federal tax refund estimate (js/formulas/tax-refund-formula.js): the
    tax on the taxable income, less credits, against what was withheld. */
module TaxRefund {
  import opened FinMath
  import opened TaxBrackets
  import IncomeTax

  /** Only a married status selects the joint brackets; every other status,
      head of household included, is taxed on the single brackets. */
  function RefundBrackets(status: FilingStatus): seq<Bracket>
  {
    if status == Married then MarriedBrackets else SingleBrackets
  }

  /** The report of `calculateTaxRefund`, money rounded to cents and rates in
      percent. */
  datatype TaxRefundReport = TaxRefundReport(
    grossIncome: real,
    deduction: real,
    taxableIncome: real,
    taxBeforeCredits: real,
    credits: real,
    taxAfterCredits: real,
    withholding: real,
    refund: real,
    isRefund: bool,
    effectiveRate: real,
    marginalRate: real,
    bracketBreakdown: seq<BracketDetail>)

  /** The unrounded tax before credits. */
  function TaxBeforeCredits(income: real, status: FilingStatus, deductions: real): real
  {
    Tax(TaxableIncome(income, Max(deductions, StandardDeduction(status))), RefundBrackets(status))
  }

  /** The tax left once the credits are applied, never below zero. */
  function TaxAfterCredits(tax: real, credits: real): (t: real)
    ensures t >= 0.0 && t >= tax - credits
    ensures t == 0.0 || t == tax - credits
  {
    Max(0.0, tax - credits)
  }

  /** The report once the taxable income, the tax, the marginal rate and the
      breakdown are known. */
  function Report(income: real, withholding: real, credits: real, deduction: real, taxable: real,
                  tax: real, marginal: real, breakdown: seq<BracketDetail>): TaxRefundReport
    requires taxable > 0.0 ==> income > 0.0
  {
    var taxAfterCredits := TaxAfterCredits(tax, credits);
    var refund := withholding - taxAfterCredits;
    TaxRefundReport(
      Cents(income),
      Cents(deduction),
      Cents(taxable),
      Cents(tax),
      Cents(credits),
      Cents(taxAfterCredits),
      Cents(withholding),
      Cents(refund),
      refund > 0.0,
      if taxable > 0.0 then PercentOf(taxAfterCredits, income) else 0.0,
      marginal,
      breakdown)
  }

  /** The report the formula produces. */
  function TaxRefundOf(income: real, status: FilingStatus, withholding: real, deductions: real,
                       credits: real): TaxRefundReport
  {
    var deduction := Max(deductions, StandardDeduction(status));
    var taxable := TaxableIncome(income, deduction);
    Report(income, withholding, credits, deduction, taxable, TaxBeforeCredits(income, status, deductions),
           MarginalRateOf(taxable, RefundBrackets(status)),
           DetailsOf(Slicing(taxable, RefundBrackets(status), 0.0)))
  }

  /** `calculateTaxRefund`: the deduction and the taxable income, the
      bracket loop and the marginal-rate scan, then the credits and the
      withholding. */
  method CalculateTaxRefund(income: real, status: FilingStatus, withholding: real, deductions: real,
                            credits: real) returns (r: TaxRefundReport)
    ensures r == TaxRefundOf(income, status, withholding, deductions, credits)
  {
    var standardDeduction := StandardDeduction(status);
    var deduction := Max(deductions, standardDeduction);
    var taxableIncome := Max(0.0, income - deduction);
    var brackets := RefundBrackets(status);
    var tax, bracketBreakdown := ApplyBrackets(taxableIncome, brackets);
    var marginal := GetMarginalRate(taxableIncome, brackets);
    r := Report(income, withholding, credits, deduction, taxableIncome, tax, marginal, bracketBreakdown);
  }

  /** The report is a refund exactly when more was withheld than the tax
      after credits; that tax is never negative and, with non-negative
      credits, never above the tax before credits; refund and tax after
      credits differ from the withholding and from each other by at most a
      cent of rounding. */
  lemma RefundAccounting(income: real, status: FilingStatus, withholding: real, deductions: real, credits: real)
    ensures var tax := TaxBeforeCredits(income, status, deductions);
      var r := TaxRefundOf(income, status, withholding, deductions, credits);
      (r.isRefund <==> withholding > TaxAfterCredits(tax, credits)) &&
      r.taxAfterCredits >= 0.0 &&
      (credits >= 0.0 ==> r.taxAfterCredits <= r.taxBeforeCredits) &&
      Abs(r.refund + r.taxAfterCredits - withholding) <= 0.01
  {
    var tax := TaxBeforeCredits(income, status, deductions);
    var after := TaxAfterCredits(tax, credits);
    CentsNonNegative(after);
    if credits >= 0.0 {
      TaxNonNegative(income, status, deductions);
      CentsMonotone(after, tax);
    }
  }

  /** Both tables the refund formula uses are well formed with rates from
      10% to 37%. */
  lemma RefundBracketsWellFormed(status: FilingStatus)
    ensures WellFormed(RefundBrackets(status), 0.0) && RatesWithin(RefundBrackets(status), 0.10, 0.37)
  {
    TablesWellFormed();
  }

  /** The tax before credits is never negative and at most 37% of the
      taxable income. */
  lemma TaxNonNegative(income: real, status: FilingStatus, deductions: real)
    ensures var taxable := TaxableIncome(income, Max(deductions, StandardDeduction(status)));
      0.0 <= TaxBeforeCredits(income, status, deductions) <= 0.37 * taxable
  {
    var taxable := TaxableIncome(income, Max(deductions, StandardDeduction(status)));
    RefundBracketsWellFormed(status);
    TaxBetweenRates(taxable, RefundBrackets(status), 0.0, 0.10, 0.37);
  }

  /** With non-negative credits, the tax after credits on a positive taxable
      income is at most 37% of the gross income. */
  lemma TaxAfterCreditsBound(income: real, status: FilingStatus, deductions: real, credits: real)
    requires credits >= 0.0
    requires TaxableIncome(income, Max(deductions, StandardDeduction(status))) > 0.0
    ensures income > 0.0
    ensures 0.0 <= TaxAfterCredits(TaxBeforeCredits(income, status, deductions), credits) <= 0.37 * income
  {
    var taxable := TaxableIncome(income, Max(deductions, StandardDeduction(status)));
    TaxNonNegative(income, status, deductions);
    assert taxable <= income;
    MulMonotone(0.37, taxable, income);
  }

  /** With nothing taxable the effective rate is zero; otherwise it is a
      percentage from 0 to 37 for non-negative credits. */
  lemma EffectiveRateWithin(income: real, status: FilingStatus, withholding: real, deductions: real, credits: real)
    requires credits >= 0.0
    ensures var r := TaxRefundOf(income, status, withholding, deductions, credits);
      0.0 <= r.effectiveRate <= 37.0 &&
      (TaxableIncome(income, Max(deductions, StandardDeduction(status))) == 0.0 ==> r.effectiveRate == 0.0)
  {
    var taxable := TaxableIncome(income, Max(deductions, StandardDeduction(status)));
    if taxable > 0.0 {
      var after := TaxAfterCredits(TaxBeforeCredits(income, status, deductions), credits);
      TaxAfterCreditsBound(income, status, deductions, credits);
      assert TaxRefundOf(income, status, withholding, deductions, credits).effectiveRate == PercentOf(after, income);
      PercentWithin(after, income, 0.37);
      assert Percent(0.37) == 37.0;
    }
  }

  /** Head-of-household filers get their own standard deduction but the
      single brackets. */
  lemma HeadOfHouseholdUsesSingleBrackets(income: real, deductions: real)
    ensures TaxBeforeCredits(income, HeadOfHousehold, deductions)
      == Tax(TaxableIncome(income, Max(deductions, 21900.0)), SingleBrackets)
  {
  }

  /** Single and married filers, and unknown statuses, owe before credits
      exactly the income tax the income-tax formula computes for them. */
  lemma AgreesWithIncomeTax(income: real, status: FilingStatus, deductions: real)
    requires status != HeadOfHousehold
    ensures TaxBeforeCredits(income, status, deductions) == IncomeTax.IncomeTaxOn(income, status, deductions)
  {
  }
}
