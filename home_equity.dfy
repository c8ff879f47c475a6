/** Home equity (js/formulas/home-equity-formula.js): equity, loan-to-value
    ratios and the equity available under a maximum loan-to-value, and the
    monthly payment of a home-equity line of credit, interest-only or
    amortized over 20 years. */
module HomeEquity {
  import opened FinMath

  /** The months over which an amortizing line is repaid. */
  const RepaymentMonths: nat := 240

  /** `x / homeValue * 100`. */
  function PercentOfValue(x: real, homeValue: real): real
    requires homeValue != 0.0
  {
    (x / homeValue) * 100.0
  }

  /** The equity left once every loan up to `maxLTV` of the value is
      counted, never negative. */
  function AvailableEquity(homeValue: real, mortgageBalance: real, maxLTV: real): (available: real)
    ensures available >= 0.0
    ensures available == 0.0 <==> mortgageBalance >= homeValue * maxLTV
    ensures available > 0.0 ==> mortgageBalance + available == homeValue * maxLTV
  {
    Max(0.0, homeValue * maxLTV - mortgageBalance)
  }

  /** The report of `calculateEquity`; the three ratios are `None` where the
      division by a zero home value yields NaN or Infinity. */
  datatype EquityReport = EquityReport(
    homeValue: real,
    mortgageBalance: real,
    totalEquity: real,
    equityPercentage: Option<real>,
    availableEquity: real,
    currentLTV: Option<real>,
    maxCombinedLTV: real,
    combinedLTVAfter: Option<real>)

  /** `calculateEquity`. */
  function CalculateEquity(homeValue: real, mortgageBalance: real, maxLTV: real): (r: EquityReport)
    ensures r.totalEquity == Cents(homeValue - mortgageBalance)
    ensures r.availableEquity == Cents(AvailableEquity(homeValue, mortgageBalance, maxLTV))
    ensures r.availableEquity >= 0.0
    ensures r.equityPercentage.Some? <==> homeValue != 0.0
    ensures r.currentLTV.Some? <==> homeValue != 0.0
    ensures r.combinedLTVAfter.Some? <==> homeValue != 0.0
  {
    var equity := homeValue - mortgageBalance;
    var availableEquity := AvailableEquity(homeValue, mortgageBalance, maxLTV);
    CentsNonNegative(availableEquity);
    if homeValue == 0.0 then
      EquityReport(Cents(homeValue), Cents(mortgageBalance), Cents(equity), None, Cents(availableEquity), None,
                   maxLTV * 100.0, None)
    else
      EquityReport(Cents(homeValue), Cents(mortgageBalance), Cents(equity),
                   Some(Cents(PercentOfValue(equity, homeValue))), Cents(availableEquity),
                   Some(Cents(PercentOfValue(mortgageBalance, homeValue))), maxLTV * 100.0,
                   Some(Cents(PercentOfValue(mortgageBalance + availableEquity, homeValue))))
  }

  /** The equity percentage and the loan-to-value ratio make up the whole
      value; once each is rounded to cents they add up to 100 within a
      cent. */
  lemma EquityAndLtvMakeWhole(homeValue: real, mortgageBalance: real, maxLTV: real)
    requires homeValue != 0.0
    ensures PercentOfValue(homeValue - mortgageBalance, homeValue) + PercentOfValue(mortgageBalance, homeValue)
            == 100.0
    ensures var r := CalculateEquity(homeValue, mortgageBalance, maxLTV);
      100.0 - 0.01 < r.equityPercentage.value + r.currentLTV.value <= 100.0 + 0.01
  {
    var e := (homeValue - mortgageBalance) / homeValue;
    var l := mortgageBalance / homeValue;
    assert e * homeValue == homeValue - mortgageBalance && l * homeValue == mortgageBalance;
    assert (e + l - 1.0) * homeValue == 0.0;
  }

  /** Borrowing all the available equity brings the combined loan-to-value
      to the maximum exactly when the mortgage is within it; otherwise
      nothing is available and it stays at the current ratio. */
  lemma CombinedLtvAfterBorrowing(homeValue: real, mortgageBalance: real, maxLTV: real)
    requires homeValue != 0.0
    ensures var available := AvailableEquity(homeValue, mortgageBalance, maxLTV);
      && (mortgageBalance <= homeValue * maxLTV ==>
            PercentOfValue(mortgageBalance + available, homeValue) == maxLTV * 100.0)
      && (mortgageBalance > homeValue * maxLTV ==>
            PercentOfValue(mortgageBalance + available, homeValue) == PercentOfValue(mortgageBalance, homeValue))
  {
    var available := AvailableEquity(homeValue, mortgageBalance, maxLTV);
    if mortgageBalance <= homeValue * maxLTV {
      assert mortgageBalance + available == homeValue * maxLTV;
      assert homeValue * maxLTV / homeValue == maxLTV;
    }
  }

  /** The report of `calculateHELOCPayment`; `monthlyPayment` and
      `principalPayment` are `None` where the annuity formula divides by
      zero (`(1 + r)^240 = 1`, a zero rate among them). */
  datatype HelocPayment = HelocPayment(monthlyPayment: Option<real>, interestOnly: bool,
                                       principalPayment: Option<real>)

  /** A month's interest on the line. */
  function MonthlyInterest(balance: real, annualRate: real): real
  {
    balance * (annualRate / 12.0)
  }

  /** The level payment that repays the line over 240 months, when the
      formula has a value. */
  function AmortizingPayment(balance: real, annualRate: real): (p: Option<real>)
    ensures p.Some? <==> Pow(1.0 + annualRate / 12.0, RepaymentMonths) != 1.0
  {
    var monthlyRate := annualRate / 12.0;
    if Pow(1.0 + monthlyRate, RepaymentMonths) == 1.0 then None
    else Some(AnnuityPayment(balance, monthlyRate, RepaymentMonths))
  }

  /** `calculateHELOCPayment`. */
  function CalculateHelocPayment(balance: real, annualRate: real, interestOnly: bool): (r: HelocPayment)
    ensures r.interestOnly == interestOnly
    ensures interestOnly ==>
      r.monthlyPayment == Some(Cents(MonthlyInterest(balance, annualRate))) && r.principalPayment == Some(0.0)
    ensures !interestOnly ==> (r.monthlyPayment.Some? <==> AmortizingPayment(balance, annualRate).Some?)
    ensures !interestOnly && r.monthlyPayment.Some? ==>
      var p := AmortizingPayment(balance, annualRate).value;
      r.monthlyPayment == Some(Cents(p))
      && r.principalPayment == Some(Cents(p - MonthlyInterest(balance, annualRate)))
  {
    var interestPayment := MonthlyInterest(balance, annualRate);
    if interestOnly then HelocPayment(Some(Cents(interestPayment)), true, Some(0.0))
    else
      var payment := AmortizingPayment(balance, annualRate);
      if payment.None? then HelocPayment(None, false, None)
      else HelocPayment(Some(Cents(payment.value)), false, Some(Cents(payment.value - interestPayment)))
  }

  /** Paying the amortizing payment for 240 months repays the line exactly. */
  lemma AmortizingPaymentRepays(balance: real, annualRate: real)
    requires AmortizingPayment(balance, annualRate).Some?
    ensures annualRate != 0.0
    ensures Grow(balance, annualRate / 12.0, -AmortizingPayment(balance, annualRate).value, RepaymentMonths) == 0.0
  {
    if annualRate == 0.0 {
      PowOfOne(RepaymentMonths);
    }
    AnnuityClears(balance, annualRate / 12.0, RepaymentMonths);
  }

  /** At a positive rate on a positive balance the amortizing payment
      exceeds the interest, so each payment repays some principal. */
  lemma AmortizingRepaysPrincipal(balance: real, annualRate: real)
    requires balance > 0.0 && annualRate > 0.0
    ensures AmortizingPayment(balance, annualRate).Some?
    ensures AmortizingPayment(balance, annualRate).value > MonthlyInterest(balance, annualRate)
    ensures CalculateHelocPayment(balance, annualRate, false).principalPayment.value >= 0.0
  {
    AnnuityExceedsInterest(balance, annualRate / 12.0, RepaymentMonths);
    var p := AmortizingPayment(balance, annualRate).value;
    CentsNonNegative(p - MonthlyInterest(balance, annualRate));
  }
}
