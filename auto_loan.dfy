/** Car loans (js/formulas/auto-loan-formula.js): what a purchase costs when
    financed, and the most expensive car a monthly budget buys. */
module AutoLoan {
  import opened FinMath
  import opened LevelPayment

  /** The figures `calculateLoan` reports, each rounded to cents. */
  datatype LoanReport = LoanReport(
    carPrice: real,
    salesTax: real,
    fees: real,
    downPayment: real,
    tradeInValue: real,
    loanAmount: real,
    monthlyPayment: real,
    totalPayments: real,
    totalInterest: real,
    totalCost: real)

  /** The same figures before rounding. */
  datatype LoanFigures = LoanFigures(
    salesTax: real,
    loanAmount: real,
    monthlyPayment: real,
    totalPayments: real,
    totalInterest: real,
    totalCost: real)

  /** What is borrowed: the price plus its sales tax and the fees, less the
      down payment and the trade-in. */
  function LoanAmount(carPrice: real, downPayment: real, tradeInValue: real, salesTaxRate: real, fees: real): real
  {
    carPrice + carPrice * salesTaxRate + fees - downPayment - tradeInValue
  }

  /** The unrounded figures of `calculateLoan`; `None` where the payment
      divides by zero. The total cost is everything paid out of pocket: the
      payments, the down payment and the trade-in; interest is what the
      payments add to the loan, nothing at a zero rate and never negative at
      a non-negative rate on a non-negative loan. */
  function LoanFiguresOf(carPrice: real, downPayment: real, tradeInValue: real, salesTaxRate: real,
                         annualRate: real, months: nat, fees: real): (r: Option<LoanFigures>)
    ensures r.Some? <==> PaymentDefined(annualRate, months)
    ensures r.Some? ==>
      r.value.salesTax == carPrice * salesTaxRate &&
      r.value.loanAmount == LoanAmount(carPrice, downPayment, tradeInValue, salesTaxRate, fees) &&
      r.value.monthlyPayment == Payment(r.value.loanAmount, annualRate, months).value &&
      r.value.totalPayments == r.value.monthlyPayment * months as real &&
      r.value.totalPayments == r.value.loanAmount + r.value.totalInterest &&
      r.value.totalCost == r.value.totalPayments + downPayment + tradeInValue
    ensures r.Some? && annualRate == 0.0 ==>
      r.value.totalInterest == 0.0 && r.value.totalPayments == r.value.loanAmount
    ensures r.Some? && annualRate >= 0.0 && r.value.loanAmount >= 0.0 ==> r.value.totalInterest >= 0.0
  {
    var salesTax := carPrice * salesTaxRate;
    var loanAmount := carPrice + salesTax + fees - downPayment - tradeInValue;
    match Payment(loanAmount, annualRate, months)
    case None => None
    case Some(monthlyPayment) =>
      var totalPayments := monthlyPayment * months as real;
      var totalInterest := totalPayments - loanAmount;
      var totalCost := carPrice + salesTax + fees + totalInterest;
      if annualRate >= 0.0 && loanAmount >= 0.0 then
        PaymentCoversLoan(loanAmount, annualRate, months);
        Some(LoanFigures(salesTax, loanAmount, monthlyPayment, totalPayments, totalInterest, totalCost))
      else
        Some(LoanFigures(salesTax, loanAmount, monthlyPayment, totalPayments, totalInterest, totalCost))
  }

  /** `calculateLoan`: the figures rounded to cents. At a zero rate the
      reported interest is zero. */
  function CalculateLoan(carPrice: real, downPayment: real, tradeInValue: real, salesTaxRate: real,
                         annualRate: real, months: nat, fees: real): (r: Option<LoanReport>)
    ensures r.Some? <==> PaymentDefined(annualRate, months)
    ensures r.Some? ==>
      var f := LoanFiguresOf(carPrice, downPayment, tradeInValue, salesTaxRate, annualRate, months, fees).value;
      && r.value.carPrice == Cents(carPrice) && r.value.fees == Cents(fees)
      && r.value.downPayment == Cents(downPayment) && r.value.tradeInValue == Cents(tradeInValue)
      && r.value.salesTax == Cents(f.salesTax) && r.value.loanAmount == Cents(f.loanAmount)
      && r.value.monthlyPayment == Cents(f.monthlyPayment) && r.value.totalPayments == Cents(f.totalPayments)
      && r.value.totalInterest == Cents(f.totalInterest) && r.value.totalCost == Cents(f.totalCost)
    ensures r.Some? && annualRate == 0.0 ==> r.value.totalInterest == 0.0
    ensures (r.Some? && annualRate >= 0.0 && LoanAmount(carPrice, downPayment, tradeInValue, salesTaxRate, fees) >= 0.0)
      ==> r.value.totalInterest >= 0.0
  {
    match LoanFiguresOf(carPrice, downPayment, tradeInValue, salesTaxRate, annualRate, months, fees)
    case None => None
    case Some(f) =>
      CentsNonNegative(f.totalInterest);
      Some(LoanReport(Cents(carPrice), Cents(f.salesTax), Cents(fees), Cents(downPayment), Cents(tradeInValue),
                      Cents(f.loanAmount), Cents(f.monthlyPayment), Cents(f.totalPayments),
                      Cents(f.totalInterest), Cents(f.totalCost)))
  }

  /** `calculateAffordablePrice`: the largest loan the budget carries plus
      the down payment and the trade-in is what the car and its sales tax
      may cost together; `None` where a division has no finite result. */
  function CalculateAffordablePrice(monthlyBudget: real, downPayment: real, tradeInValue: real,
                                    salesTaxRate: real, annualRate: real, months: nat): (r: Option<real>)
    ensures r.Some? <==> LoanDefined(annualRate, months) && 1.0 + salesTaxRate != 0.0
    ensures r.Some? && annualRate == 0.0 ==>
      r.value == Cents((monthlyBudget * months as real + downPayment + tradeInValue) / (1.0 + salesTaxRate))
  {
    match LoanFor(monthlyBudget, annualRate, months)
    case None => None
    case Some(maxLoanAmount) =>
      var availableFunds := maxLoanAmount + downPayment + tradeInValue;
      if 1.0 + salesTaxRate == 0.0 then None
      else Some(Cents(availableFunds / (1.0 + salesTaxRate)))
  }

  /** Without fees, the unrounded payment of a car loan buys back exactly that
      car (to the cent) with the same down payment, trade-in, tax and rate. */
  lemma AffordableRoundTrip(carPrice: real, downPayment: real, tradeInValue: real, salesTaxRate: real,
                            annualRate: real, months: nat)
    requires PaymentDefined(annualRate, months) && LoanDefined(annualRate, months) && 1.0 + salesTaxRate != 0.0
    ensures var f := LoanFiguresOf(carPrice, downPayment, tradeInValue, salesTaxRate, annualRate, months, 0.0).value;
      CalculateAffordablePrice(f.monthlyPayment, downPayment, tradeInValue, salesTaxRate, annualRate, months)
        == Some(Cents(carPrice))
  {
    var loan := LoanAmount(carPrice, downPayment, tradeInValue, salesTaxRate, 0.0);
    var pmt := LoanFiguresOf(carPrice, downPayment, tradeInValue, salesTaxRate, annualRate, months, 0.0).value.monthlyPayment;
    assert pmt == Payment(loan, annualRate, months).value;
    PaymentRoundTrip(loan, annualRate, months);
    var funds := loan + downPayment + tradeInValue;
    assert funds == carPrice * (1.0 + salesTaxRate);
    DivideBack(carPrice, 1.0 + salesTaxRate, funds);
    assert CalculateAffordablePrice(pmt, downPayment, tradeInValue, salesTaxRate, annualRate, months)
      == Some(Cents(funds / (1.0 + salesTaxRate)));
  }

  lemma DivideBack(x: real, k: real, y: real)
    requires k != 0.0 && y == x * k
    ensures y / k == x
  {
  }
}
