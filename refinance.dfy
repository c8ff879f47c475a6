/** Refinancing a loan (js/formulas/refinance-formula.js): the new payment,
    the monthly savings, how many months of savings recover the closing
    costs, the lifetime interest of both loans, and the month count of the
    current loan found by simulation. */
module Refinance {
  import opened FinMath
  import opened LevelPayment

  /** The number of months the remaining-term simulation may run. */
  const MonthCap: nat := 600

  /** One month of the current loan: the payment less the interest comes off
      the balance (no clamp at zero). */
  function PayDown(balance: real, monthlyRate: real, payment: real): (b: real)
    ensures b == balance * (1.0 + monthlyRate) + -payment
  {
    balance - (payment - balance * monthlyRate)
  }

  /** The simulation from month `months` on: it stops once nothing is owed or
      the cap is reached. */
  function RemainingFrom(balance: real, monthlyRate: real, payment: real, months: nat): (n: nat)
    requires months <= MonthCap
    ensures months <= n <= MonthCap
    decreases MonthCap - months, balance
  {
    if balance > 0.0 && months < MonthCap
    then RemainingFrom(PayDown(balance, monthlyRate, payment), monthlyRate, payment, months + 1)
    else months
  }

  /** The month count `estimateRemainingMonths` returns. */
  function RemainingMonths(balance: real, rate: real, monthlyPayment: real): nat
  {
    RemainingFrom(balance, rate / 12.0, monthlyPayment, 0)
  }

  /** `estimateRemainingMonths`. */
  method EstimateRemainingMonths(balance: real, rate: real, monthlyPayment: real) returns (months: nat)
    ensures months == RemainingMonths(balance, rate, monthlyPayment)
  {
    var monthlyRate := rate / 12.0;
    months := 0;
    var currentBalance := balance;
    while currentBalance > 0.0 && months < MonthCap
      invariant months <= MonthCap
      invariant RemainingFrom(currentBalance, monthlyRate, monthlyPayment, months)
        == RemainingFrom(balance, monthlyRate, monthlyPayment, 0)
      decreases MonthCap - months
    {
      var interest := currentBalance * monthlyRate;
      var principal := monthlyPayment - interest;
      currentBalance := currentBalance - principal;
      months := months + 1;
    }
  }

  /** The balance the simulation would show after `k` months at annual rate
      `rate`, before any stop. */
  function Simulated(balance: real, rate: real, monthlyPayment: real, k: nat): real
  {
    Grow(balance, rate / 12.0, -monthlyPayment, k)
  }

  /** The month count is the first month after which the simulated balance,
      `k` rounds of `b := b * (1 + r) - payment`, is no longer positive, or
      the cap of 600 if the balance stays positive that long. A loan with
      nothing owed takes no months. */
  lemma RemainingMonthsCharacterized(balance: real, rate: real, monthlyPayment: real)
    ensures var n := RemainingMonths(balance, rate, monthlyPayment);
      n <= MonthCap &&
      (balance <= 0.0 ==> n == 0) &&
      (forall k: nat :: k < n ==> Simulated(balance, rate, monthlyPayment, k) > 0.0) &&
      (n < MonthCap ==> Simulated(balance, rate, monthlyPayment, n) <= 0.0)
  {
    RemainingFromGrow(balance, rate, monthlyPayment, 0);
  }

  lemma {:induction false} RemainingFromGrow(balance: real, rate: real, payment: real, months: nat)
    requires months <= MonthCap
    requires forall k: nat :: k < months ==> Simulated(balance, rate, payment, k) > 0.0
    ensures var n := RemainingFrom(Simulated(balance, rate, payment, months), rate / 12.0, payment, months);
      (forall k: nat :: k < n ==> Simulated(balance, rate, payment, k) > 0.0) &&
      (n < MonthCap ==> Simulated(balance, rate, payment, n) <= 0.0)
    decreases MonthCap - months
  {
    var b := Simulated(balance, rate, payment, months);
    if b > 0.0 && months < MonthCap {
      assert Simulated(balance, rate, payment, months + 1) == PayDown(b, rate / 12.0, payment);
      RemainingFromGrow(balance, rate, payment, months + 1);
    }
  }

  /** How long the savings take to recover the closing costs. */
  datatype BreakEven = BreakEven(months: int, years: int, remainingMonths: int)

  /** The report of `calculateRefinance`. The break-even figures are `None`
      where the savings are zero and the division yields no number. */
  datatype RefinanceReport = RefinanceReport(
    newMonthlyPayment: real,
    monthlySavings: real,
    breakEven: Option<BreakEven>,
    totalInterestSavings: real,
    closingCosts: real,
    shouldRefinance: bool)

  /** `Math.ceil(m)`, `Math.floor(m / 12)` and `Math.ceil(m % 12)` of a
      break-even month count `m`. For a non-negative count the years and the
      leftover months add back up to the months, and the leftover is at most
      a year. */
  function BreakEvenOf(m: real): (r: BreakEven)
    ensures r.months == Ceil(m) && r.years == (m / 12.0).Floor
    ensures m >= 0.0 ==> r.years * 12 + r.remainingMonths == r.months && 0 <= r.remainingMonths <= 12
  {
    var years := (m / 12.0).Floor;
    var rest := JsFmod(m, 12.0);
    YearSplit(m, years, rest);
    BreakEven(Ceil(m), years, Ceil(rest))
  }

  lemma YearSplit(m: real, years: int, rest: real)
    requires years == (m / 12.0).Floor && rest == JsFmod(m, 12.0)
    ensures m >= 0.0 ==> years * 12 + Ceil(rest) == Ceil(m) && 0 <= Ceil(rest) <= 12
  {
    if m >= 0.0 {
      assert rest + (12 * years) as real == m;
      CeilShift(rest, 12 * years);
    }
  }

  /** Adding a whole number moves the ceiling by that number. */
  lemma CeilShift(x: real, k: int)
    ensures Ceil(x + k as real) == Ceil(x) + k
  {
    var a := Ceil(x + k as real);
    var b := Ceil(x);
    assert x <= (a - k) as real < x + 1.0;
    assert x <= b as real < x + 1.0;
  }

  /** The break-even month count, or `None` where the savings are zero. */
  function BreakEvenMonths(closingCosts: real, monthlySavings: real): Option<real>
  {
    if monthlySavings == 0.0 then None else Some(closingCosts / monthlySavings)
  }

  /** `calculateRefinance` for a loan whose new payment is a number (the new
      term must be positive at a zero new rate). Refinancing is recommended
      exactly when the new payment is lower and sixty months of the savings
      more than cover the closing costs; the interest saved is the difference
      between the two loans' remaining payments. */
  function CalculateRefinance(currentBalance: real, currentRate: real, currentPayment: real,
                              newRate: real, newTerm: nat, closingCosts: real): (r: Option<RefinanceReport>)
    ensures r.Some? <==> PaymentDefined(newRate, newTerm * 12)
    ensures r.Some? ==>
      var newMonths := newTerm * 12;
      var newPayment := Payment(currentBalance, newRate, newMonths).value;
      var savings := currentPayment - newPayment;
      r.value.newMonthlyPayment == Cents(newPayment) &&
      r.value.monthlySavings == Cents(savings) &&
      r.value.closingCosts == Cents(closingCosts) &&
      (r.value.shouldRefinance <==> savings > 0.0 && closingCosts < 60.0 * savings) &&
      (r.value.breakEven.None? <==> savings == 0.0) &&
      (savings != 0.0 ==> r.value.breakEven == Some(BreakEvenOf(closingCosts / savings))) &&
      r.value.totalInterestSavings
        == Cents(PaymentsDifference(currentPayment, RemainingMonths(currentBalance, currentRate, currentPayment),
                                    newPayment, newMonths))
  {
    var newMonths := newTerm * 12;
    var newMonthlyPayment := Payment(currentBalance, newRate, newMonths);
    if newMonthlyPayment.None? then None
    else
      var currentMonths := RemainingMonths(currentBalance, currentRate, currentPayment);
      var report := Report(currentBalance, currentPayment, newMonthlyPayment.value, newMonths, closingCosts,
                           currentMonths);
      Some(report)
  }

  /** What the current loan's remaining payments cost beyond the new loan's:
      the two loans' interest differ by this, since both repay the same
      balance. */
  function PaymentsDifference(currentPayment: real, currentMonths: nat, newPayment: real, newMonths: nat): real
  {
    currentPayment * currentMonths as real - newPayment * newMonths as real
  }

  /** The report once the new payment and the current loan's month count are known. */
  function Report(currentBalance: real, currentPayment: real, newMonthlyPayment: real, newMonths: nat,
                  closingCosts: real, currentMonthsRemaining: nat): (r: RefinanceReport)
    ensures var savings := currentPayment - newMonthlyPayment;
      r.newMonthlyPayment == Cents(newMonthlyPayment) &&
      r.monthlySavings == Cents(savings) &&
      r.closingCosts == Cents(closingCosts) &&
      (r.shouldRefinance <==> savings > 0.0 && closingCosts < 60.0 * savings) &&
      (r.breakEven.None? <==> savings == 0.0) &&
      (savings != 0.0 ==> r.breakEven == Some(BreakEvenOf(closingCosts / savings))) &&
      r.totalInterestSavings
        == Cents(PaymentsDifference(currentPayment, currentMonthsRemaining, newMonthlyPayment, newMonths))
  {
    var monthlySavings := currentPayment - newMonthlyPayment;
    var breakEvenMonths := BreakEvenMonths(closingCosts, monthlySavings);
    var currentTotalInterest := currentPayment * currentMonthsRemaining as real - currentBalance;
    var newTotalInterest := newMonthlyPayment * newMonths as real - currentBalance;
    var interestSavings := currentTotalInterest - newTotalInterest;
    assert interestSavings == PaymentsDifference(currentPayment, currentMonthsRemaining, newMonthlyPayment, newMonths);
    var shouldRefinance := monthlySavings > 0.0 && breakEvenMonths.value < 60.0;
    RecoveryWithinSixty(closingCosts, monthlySavings);
    RefinanceReport(
      Cents(newMonthlyPayment),
      Cents(monthlySavings),
      match breakEvenMonths case None => None case Some(m) => Some(BreakEvenOf(m)),
      Cents(interestSavings),
      Cents(closingCosts),
      shouldRefinance)
  }

  /** With positive savings, breaking even within sixty months means sixty
      months of savings exceed the closing costs. */
  lemma RecoveryWithinSixty(closingCosts: real, monthlySavings: real)
    ensures monthlySavings > 0.0 ==>
      (closingCosts / monthlySavings < 60.0 <==> closingCosts < 60.0 * monthlySavings)
  {
    if monthlySavings > 0.0 {
      var m := closingCosts / monthlySavings;
      assert m * monthlySavings == closingCosts;
      if m < 60.0 {
        MulStrict(monthlySavings, m, 60.0);
      } else {
        MulMonotone(monthlySavings, 60.0, m);
      }
    }
  }

  /** With positive savings and non-negative closing costs the break-even
      figures are whole months split into years and at most twelve leftover
      months; refinancing is then recommended exactly when the break-even
      month count is below sixty. */
  lemma BreakEvenSplit(currentBalance: real, currentRate: real, currentPayment: real,
                       newRate: real, newTerm: nat, closingCosts: real)
    requires PaymentDefined(newRate, newTerm * 12) && closingCosts >= 0.0
    requires currentPayment - Payment(currentBalance, newRate, newTerm * 12).value > 0.0
    ensures var r := CalculateRefinance(currentBalance, currentRate, currentPayment, newRate, newTerm, closingCosts).value;
      r.breakEven.Some? &&
      r.breakEven.value.years * 12 + r.breakEven.value.remainingMonths == r.breakEven.value.months &&
      0 <= r.breakEven.value.remainingMonths <= 12 &&
      (r.shouldRefinance ==> r.breakEven.value.months <= 60)
  {
    var savings := currentPayment - Payment(currentBalance, newRate, newTerm * 12).value;
    var m := closingCosts / savings;
    assert m >= 0.0;
    RecoveryWithinSixty(closingCosts, savings);
  }
}
