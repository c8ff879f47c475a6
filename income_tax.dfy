/** Federal income tax (js/formulas/income-tax-formula.js): the deduction,
    the taxable income, the tax bracket by bracket, the effective and the
    marginal rate, and the take-home pay. */
module IncomeTax {
  import opened FinMath
  import opened TaxBrackets

  /** The brackets for a filing status; an unknown status uses the single
      brackets. */
  function Brackets(status: FilingStatus): seq<Bracket>
  {
    match status
    case Married => MarriedBrackets
    case HeadOfHousehold => HeadOfHouseholdBrackets
    case _ => SingleBrackets
  }

  /** The report of `calculateIncomeTax`, money rounded to cents and rates in
      percent. */
  datatype IncomeTaxReport = IncomeTaxReport(
    grossIncome: real,
    standardDeduction: real,
    itemizedDeductions: real,
    totalDeductions: real,
    taxableIncome: real,
    totalTax: real,
    effectiveTaxRate: real,
    marginalTaxRate: real,
    takeHomePay: real,
    bracketDetails: seq<BracketDetail>)

  /** The deduction taken: the itemized deductions or the standard
      deduction, whichever is larger. */
  function Deduction(status: FilingStatus, deductions: real): (d: real)
    ensures d >= deductions && d >= StandardDeduction(status) && d > 0.0
    ensures d == deductions || d == StandardDeduction(status)
  {
    Max(deductions, StandardDeduction(status))
  }

  /** The unrounded tax on `income`. */
  function IncomeTaxOn(income: real, status: FilingStatus, deductions: real): real
  {
    Tax(TaxableIncome(income, Deduction(status, deductions)), Brackets(status))
  }

  /** The report once the taxable income, the tax, the marginal rate and
      the breakdown are known. */
  function Report(income: real, standard: real, deductions: real, deduction: real, taxable: real,
                  tax: real, marginal: real, details: seq<BracketDetail>): IncomeTaxReport
  {
    IncomeTaxReport(
      Cents(income),
      Cents(standard),
      if deductions > standard then Cents(deductions) else 0.0,
      Cents(deduction),
      Cents(taxable),
      Cents(tax),
      if income > 0.0 then PercentOf(tax, income) else 0.0,
      marginal,
      Cents(income - tax),
      details)
  }

  /** The report the formula produces. */
  function IncomeTaxOf(income: real, status: FilingStatus, deductions: real): IncomeTaxReport
  {
    var taxable := TaxableIncome(income, Deduction(status, deductions));
    Report(income, StandardDeduction(status), deductions, Deduction(status, deductions), taxable,
           IncomeTaxOn(income, status, deductions), MarginalRateOf(taxable, Brackets(status)),
           DetailsOf(Slicing(taxable, Brackets(status), 0.0)))
  }

  /** `calculateIncomeTax`: the deduction and the taxable income, then the
      bracket loop and the marginal-rate scan. */
  method CalculateIncomeTax(income: real, status: FilingStatus, deductions: real) returns (r: IncomeTaxReport)
    ensures r == IncomeTaxOf(income, status, deductions)
  {
    var standardDeduction := StandardDeduction(status);
    var deduction := Max(deductions, standardDeduction);
    var taxableIncome := Max(0.0, income - deduction);
    var brackets := Brackets(status);
    var totalTax, bracketDetails := ApplyBrackets(taxableIncome, brackets);
    var marginal := GetMarginalRate(taxableIncome, brackets);
    r := Report(income, standardDeduction, deductions, deduction, taxableIncome, totalTax, marginal, bracketDetails);
  }

  /** Every status's table is well formed with rates from 10% to 37%. */
  lemma BracketsWellFormed(status: FilingStatus)
    ensures WellFormed(Brackets(status), 0.0) && RatesWithin(Brackets(status), 0.10, 0.37)
  {
    TablesWellFormed();
  }

  /** The tax is between 10% and 37% of the taxable income, and the bracket
      breakdown covers the taxable income exactly. */
  lemma TaxWithinRates(income: real, status: FilingStatus, deductions: real)
    ensures var taxable := TaxableIncome(income, Deduction(status, deductions));
      0.10 * taxable <= IncomeTaxOn(income, status, deductions) <= 0.37 * taxable &&
      IncomeOf(Slicing(taxable, Brackets(status), 0.0)) == taxable
  {
    var taxable := TaxableIncome(income, Deduction(status, deductions));
    BracketsWellFormed(status);
    TaxBetweenRates(taxable, Brackets(status), 0.0, 0.10, 0.37);
    SlicesCoverIncome(taxable, Brackets(status), 0.0);
  }

  /** A higher income never owes less tax, nor reports less tax. */
  lemma TaxNonDecreasing(income1: real, income2: real, status: FilingStatus, deductions: real)
    requires income1 <= income2
    ensures IncomeTaxOn(income1, status, deductions) <= IncomeTaxOn(income2, status, deductions)
    ensures IncomeTaxOf(income1, status, deductions).totalTax <= IncomeTaxOf(income2, status, deductions).totalTax
  {
    var d := Deduction(status, deductions);
    BracketsWellFormed(status);
    TaxMonotone(TaxableIncome(income1, d), TaxableIncome(income2, d), Brackets(status), 0.0);
    CentsMonotone(IncomeTaxOn(income1, status, deductions), IncomeTaxOn(income2, status, deductions));
  }

  /** Tax never takes all of a positive income: the take-home pay keeps at
      least 63% of it, and the effective rate is a percentage from 0 to 37. */
  lemma TakeHomeAndEffectiveRate(income: real, status: FilingStatus, deductions: real)
    requires income > 0.0
    ensures var tax := IncomeTaxOn(income, status, deductions);
      income - tax >= 0.63 * income &&
      0.0 <= IncomeTaxOf(income, status, deductions).effectiveTaxRate <= 37.0
  {
    var tax := IncomeTaxOn(income, status, deductions);
    var taxable := TaxableIncome(income, Deduction(status, deductions));
    TaxWithinRates(income, status, deductions);
    assert taxable <= income;
    MulMonotone(0.37, taxable, income);
    PercentWithin(tax, income, 0.37);
    assert Percent(0.37) == 37.0;
  }

  /** On a positive taxable income the marginal rate is the rate of the
      last line of the bracket breakdown. */
  lemma MarginalRateIsTopBracket(income: real, status: FilingStatus, deductions: real)
    requires TaxableIncome(income, Deduction(status, deductions)) > 0.0
    ensures var r := IncomeTaxOf(income, status, deductions);
      |r.bracketDetails| > 0 && r.marginalTaxRate == r.bracketDetails[|r.bracketDetails| - 1].ratePercent
  {
    var taxable := TaxableIncome(income, Deduction(status, deductions));
    BracketsWellFormed(status);
    MarginalIsTopSlice(taxable, taxable, Brackets(status), 0.0);
  }

  /** An unknown filing status is taxed exactly like a single filer. */
  lemma UnknownStatusIsSingle(income: real, deductions: real)
    ensures IncomeTaxOf(income, Unknown, deductions) == IncomeTaxOf(income, Single, deductions)
  {
  }
}
