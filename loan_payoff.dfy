/** Paying off a single loan with an optional extra monthly payment
    (js/formulas/loan-payoff-formula.js): the capped month loop, the
    standard-versus-extra comparison and the bisection search for the extra
    payment that meets a target payoff month. */
module LoanPayoff {
  import opened FinMath

  /** One schedule line (the display rounding to cents is not modelled). */
  datatype Row = Row(month: nat, payment: real, principal: real, interest: real, balance: real)

  datatype Payoff = Payoff(
    months: nat,
    years: nat,
    remainingMonths: nat,
    totalInterest: real,
    totalPaid: real,
    schedule: seq<Row>)

  /** The loop state. `paid` is the unrounded amount paid so far; the source
      does not keep it, the model does to state the accounting. */
  datatype LoanState = LoanState(balance: real, months: nat, totalInterest: real, paid: real, schedule: seq<Row>)

  /** One month: interest accrues, and the principal repaid is the payment
      less the interest, but never more than the balance. */
  function Step(st: LoanState, monthlyRate: real, payment: real): LoanState
  {
    Accrue(st, Interest(st.balance, monthlyRate), payment)
  }

  /** The month once its interest is known. */
  function Accrue(st: LoanState, interest: real, payment: real): (r: LoanState)
    ensures r.months == st.months + 1 && |r.schedule| == |st.schedule| + 1
    ensures st.balance > 0.0 ==> r.balance >= 0.0
    ensures r.balance + r.paid - r.totalInterest == st.balance + st.paid - st.totalInterest
  {
    var principal := Min(payment - interest, st.balance);
    var balance := st.balance - principal;
    var row := Row(st.months + 1, principal + interest, principal, interest, Max(0.0, balance));
    LoanState(balance, st.months + 1, st.totalInterest + interest, st.paid + principal + interest, st.schedule + [row])
  }

  /** The loop runs while a balance remains and fewer than 600 months have passed. */
  function Run(st: LoanState, monthlyRate: real, payment: real): (r: LoanState)
    requires st.months <= 600
    ensures st.months <= r.months <= 600
    ensures r.months < 600 ==> r.balance <= 0.0
    ensures |r.schedule| - |st.schedule| == r.months - st.months
    decreases 600 - st.months
  {
    if st.balance > 0.0 && st.months < 600 then Run(Step(st, monthlyRate, payment), monthlyRate, payment)
    else st
  }

  function Start(balance: real): LoanState
  {
    LoanState(balance, 0, 0.0, 0.0, [])
  }

  /** The number of months `calculatePayoff` reports. */
  function PayoffMonths(balance: real, annualRate: real, payment: real): nat
  {
    Run(Start(balance), annualRate / 12.0, payment).months
  }

  function Summary(balance: real, st: LoanState): Payoff
  {
    Payoff(st.months, st.months / 12, st.months % 12, Cents(st.totalInterest),
           Cents(balance + st.totalInterest), st.schedule)
  }

  /** `calculatePayoff`. */
  method CalculatePayoff(balance: real, annualRate: real, monthlyPayment: real, extraPayment: real)
    returns (result: Payoff)
    ensures result == Summary(balance, Run(Start(balance), annualRate / 12.0, monthlyPayment + extraPayment))
    ensures result.months == PayoffMonths(balance, annualRate, monthlyPayment + extraPayment)
  {
    var monthlyRate := annualRate / 12.0;
    var totalMonthlyPayment := monthlyPayment + extraPayment;
    var currentBalance := balance;
    var months: nat := 0;
    var totalInterest := 0.0;
    ghost var paid := 0.0;
    var schedule: seq<Row> := [];
    ghost var final := Run(Start(balance), monthlyRate, totalMonthlyPayment);
    while currentBalance > 0.0 && months < 600
      invariant months <= 600
      invariant Run(LoanState(currentBalance, months, totalInterest, paid, schedule), monthlyRate, totalMonthlyPayment) == final
      decreases 600 - months
    {
      ghost var balance0, months0, totalInterest0, paid0, schedule0 := currentBalance, months, totalInterest, paid, schedule;
      var interest := currentBalance * monthlyRate;
      var principal := Min(totalMonthlyPayment - interest, currentBalance);
      currentBalance := currentBalance - principal;
      totalInterest := totalInterest + interest;
      paid := paid + principal + interest;
      months := months + 1;
      schedule := schedule + [Row(months, principal + interest, principal, interest, Max(0.0, currentBalance))];
      RunUnroll(balance0, months0, totalInterest0, paid0, schedule0, monthlyRate, totalMonthlyPayment, interest, principal);
    }
    RunDone(LoanState(currentBalance, months, totalInterest, paid, schedule), monthlyRate, totalMonthlyPayment);
    result := Payoff(months, months / 12, months % 12, Cents(totalInterest),
                     Cents(balance + totalInterest), schedule);
  }

  /** One turn of the loop: a month with a balance left, before the cap. */
  lemma RunUnroll(balance: real, months: nat, totalInterest: real, paid: real, schedule: seq<Row>,
                  monthlyRate: real, payment: real, interest: real, principal: real)
    requires balance > 0.0 && months < 600 && interest == balance * monthlyRate
    requires principal == Min(payment - interest, balance)
    ensures Run(LoanState(balance, months, totalInterest, paid, schedule), monthlyRate, payment)
      == Run(LoanState(balance - principal, months + 1, totalInterest + interest, paid + principal + interest,
                       schedule + [Row(months + 1, principal + interest, principal, interest, Max(0.0, balance - principal))]),
             monthlyRate, payment)
  {
    var st := LoanState(balance, months, totalInterest, paid, schedule);
    assert Interest(st.balance, monthlyRate) == interest;
    assert Step(st, monthlyRate, payment) == Accrue(st, interest, payment);
  }

  /** The loop has stopped: the run is the state itself. */
  lemma RunDone(st: LoanState, monthlyRate: real, payment: real)
    requires st.months <= 600 && !(st.balance > 0.0 && st.months < 600)
    ensures Run(st, monthlyRate, payment) == st
  {
  }

  /** Schedule rows are numbered 1, 2, ... in order. */
  ghost predicate Numbered(schedule: seq<Row>)
  {
    forall k :: 0 <= k < |schedule| ==> schedule[k].month == k + 1
  }

  lemma {:induction false} RunFacts(st: LoanState, monthlyRate: real, payment: real)
    requires st.months <= 600 && |st.schedule| == st.months && Numbered(st.schedule)
    ensures var r := Run(st, monthlyRate, payment);
      Numbered(r.schedule) &&
      (st.balance >= 0.0 ==> r.balance >= 0.0) &&
      r.balance + r.paid - r.totalInterest == st.balance + st.paid - st.totalInterest
    decreases 600 - st.months
  {
    if st.balance > 0.0 && st.months < 600 {
      RunFacts(Step(st, monthlyRate, payment), monthlyRate, payment);
    }
  }

  /** What a payoff run promises: at most 600 months, nothing at all for a
      non-positive balance, a balance that lands exactly on zero when the loan
      is repaid before the cap, one row per month numbered from 1, and a
      `totalPaid` (before rounding) that is what was actually paid. */
  lemma PayoffProperties(balance: real, monthlyRate: real, payment: real)
    ensures var r := Run(Start(balance), monthlyRate, payment);
      r.months <= 600 &&
      |r.schedule| == r.months && Numbered(r.schedule) &&
      (balance <= 0.0 ==> r.months == 0 && r.schedule == []) &&
      (balance > 0.0 ==> r.balance >= 0.0) &&
      (balance > 0.0 && r.months < 600 ==> r.balance == 0.0 && r.paid == balance + r.totalInterest)
  {
    RunFacts(Start(balance), monthlyRate, payment);
  }

  /** A larger payment from a no-larger balance never takes longer: the
      balance after each month is monotone in the balance before it and
      antitone in the payment, provided the rate is not below -100%. */
  lemma {:induction false} RunMonotone(s1: LoanState, s2: LoanState, monthlyRate: real, p1: real, p2: real)
    requires s1.months == s2.months <= 600
    requires s2.balance <= s1.balance && p1 <= p2 && monthlyRate >= -1.0
    ensures Run(s2, monthlyRate, p2).months <= Run(s1, monthlyRate, p1).months
    decreases 600 - s1.months
  {
    if s1.balance > 0.0 && s1.months < 600 && s2.balance > 0.0 {
      var n1 := Step(s1, monthlyRate, p1);
      var n2 := Step(s2, monthlyRate, p2);
      StepMonotone(s1, s2, monthlyRate, p1, p2);
      RunMonotone(n1, n2, monthlyRate, p1, p2);
    }
  }

  lemma StepMonotone(s1: LoanState, s2: LoanState, monthlyRate: real, p1: real, p2: real)
    requires 0.0 < s2.balance <= s1.balance && p1 <= p2 && monthlyRate >= -1.0
    ensures Step(s2, monthlyRate, p2).balance <= Step(s1, monthlyRate, p1).balance
  {
    StepBalance(s1, monthlyRate, p1);
    StepBalance(s2, monthlyRate, p2);
    ScaledMaxMonotone(1.0 + monthlyRate, s1.balance, s2.balance, p1, p2);
  }

  lemma StepBalance(st: LoanState, monthlyRate: real, payment: real)
    requires st.balance > 0.0
    ensures Step(st, monthlyRate, payment).balance == Max((1.0 + monthlyRate) * st.balance - payment, 0.0)
  {
    var interest := st.balance * monthlyRate;
    assert st.balance + interest == (1.0 + monthlyRate) * st.balance;
  }

  /** Paying more each month never lengthens the payoff. */
  lemma PayoffMonthsMonotone(balance: real, annualRate: real, p1: real, p2: real)
    requires p1 <= p2 && annualRate >= -12.0
    ensures PayoffMonths(balance, annualRate, p2) <= PayoffMonths(balance, annualRate, p1)
  {
    RunMonotone(Start(balance), Start(balance), annualRate / 12.0, p1, p2);
  }

  datatype Comparison = Comparison(
    standard: Payoff,
    withExtra: Payoff,
    monthsSaved: int,
    interestSaved: real,
    yearsSaved: int,
    monthsRemaining: int)

  /** `compareScenarios`: the plan without and with the extra payment and
      the interest it saves, to the cent. The months saved are split with
      `Math.floor(m / 12)` (the largest whole number of years not above
      them) and `m % 12`, which
      agree with each other only for a non-negative difference; a
      non-negative extra payment (at a rate not below -1200%) guarantees one. */
  method CompareScenarios(balance: real, annualRate: real, monthlyPayment: real, extraPayment: real)
    returns (c: Comparison)
    ensures c.standard == Summary(balance, Run(Start(balance), annualRate / 12.0, monthlyPayment))
    ensures c.withExtra == Summary(balance, Run(Start(balance), annualRate / 12.0, monthlyPayment + extraPayment))
    ensures c.monthsSaved == c.standard.months - c.withExtra.months
    ensures c.interestSaved == Cents(c.standard.totalInterest - c.withExtra.totalInterest)
    ensures c.yearsSaved * 12 <= c.monthsSaved < c.yearsSaved * 12 + 12
    ensures c.monthsRemaining == JsRem(c.monthsSaved, 12)
    ensures extraPayment >= 0.0 && annualRate >= -12.0 ==>
      c.monthsSaved >= 0 && c.yearsSaved * 12 + c.monthsRemaining == c.monthsSaved && 0 <= c.monthsRemaining < 12
  {
    var standard := CalculatePayoff(balance, annualRate, monthlyPayment, 0.0);
    var withExtra := CalculatePayoff(balance, annualRate, monthlyPayment, extraPayment);
    assert monthlyPayment + 0.0 == monthlyPayment;
    var saved := standard.months - withExtra.months;
    if extraPayment >= 0.0 && annualRate >= -12.0 {
      PayoffMonthsMonotone(balance, annualRate, monthlyPayment, monthlyPayment + extraPayment);
    }
    c := Comparison(standard, withExtra, saved, Cents(standard.totalInterest - withExtra.totalInterest),
                    saved / 12, JsRem(saved, 12));
  }

  /** The number of halvings `calculateRequiredExtraPayment` performs. */
  const BisectionRounds: nat := 100

  /** The bisection of `calculateRequiredExtraPayment`, `steps` rounds from
      the given bracket: it returns the last tested payment that met the
      target, or the starting `required` if none did. (`balance`, which
      never changes, is named in the `decreases` clause so that a call with a
      constant round count is not unfolded round by round.) */
  function Bisect(balance: real, annualRate: real, targetMonths: real,
                  low: real, high: real, required: real, steps: nat): real
    decreases steps, balance
  {
    if steps == 0 then required
    else
      var test := (low + high) / 2.0;
      if PayoffMonths(balance, annualRate, test) as real <= targetMonths
      then Bisect(balance, annualRate, targetMonths, low, test, test, steps - 1)
      else Bisect(balance, annualRate, targetMonths, test, high, required, steps - 1)
  }

  /** One round of the bisection, once the midpoint and its payoff months are known. */
  lemma BisectUnfold(balance: real, annualRate: real, targetMonths: real,
                      low: real, high: real, required: real, steps: nat, test: real, months: nat)
    requires steps > 0
    requires test == (low + high) / 2.0
    requires months == PayoffMonths(balance, annualRate, test + 0.0)
    ensures Bisect(balance, annualRate, targetMonths, low, high, required, steps)
         == if months as real <= targetMonths
            then Bisect(balance, annualRate, targetMonths, low, test, test, steps - 1)
            else Bisect(balance, annualRate, targetMonths, test, high, required, steps - 1)
  {
    assert test + 0.0 == test;
  }

  /** No rounds left: the answer is the payment found so far. */
  lemma BisectDone(balance: real, annualRate: real, targetMonths: real, low: real, high: real, required: real, steps: nat)
    requires steps == 0
    ensures Bisect(balance, annualRate, targetMonths, low, high, required, steps) == required
  {
  }

  /** The bracket stays ordered and inside its start, and the answer is either
      the starting payment or a payment that meets the target. */
  lemma {:induction false} BisectFacts(balance: real, annualRate: real, targetMonths: real,
                                       low: real, high: real, required: real, steps: nat)
    requires low <= high
    decreases steps
    ensures var r := Bisect(balance, annualRate, targetMonths, low, high, required, steps);
      r == required || (low <= r <= high && PayoffMonths(balance, annualRate, r) as real <= targetMonths)
  {
    if steps > 0 {
      var test := (low + high) / 2.0;
      if PayoffMonths(balance, annualRate, test) as real <= targetMonths {
        BisectFacts(balance, annualRate, targetMonths, low, test, test, steps - 1);
      } else {
        BisectFacts(balance, annualRate, targetMonths, test, high, required, steps - 1);
      }
    }
  }

  /** `calculateRequiredExtraPayment`: 100 bisection steps over payments in
      `[0, 2 * balance]`, reported as the rounded excess over the current
      payment. */
  method CalculateRequiredExtraPayment(balance: real, annualRate: real, monthlyPayment: real, targetMonths: real)
    returns (extra: real)
    ensures extra == Cents(Bisect(balance, annualRate, targetMonths, 0.0, balance * 2.0, monthlyPayment, BisectionRounds) - monthlyPayment)
  {
    var low := 0.0;
    var high := balance * 2.0;
    var requiredPayment := monthlyPayment;
    for i := 0 to BisectionRounds
      invariant Bisect(balance, annualRate, targetMonths, low, high, requiredPayment, BisectionRounds - i)
             == Bisect(balance, annualRate, targetMonths, 0.0, balance * 2.0, monthlyPayment, BisectionRounds)
      invariant balance >= 0.0 ==> 0.0 <= low <= high <= balance * 2.0
    {
      var testPayment := (low + high) / 2.0;
      var result := CalculatePayoff(balance, annualRate, testPayment, 0.0);
      BisectUnfold(balance, annualRate, targetMonths, low, high, requiredPayment, BisectionRounds - i,
                   testPayment, result.months);
      if result.months as real <= targetMonths {
        high := testPayment;
        requiredPayment := testPayment;
      } else {
        low := testPayment;
      }
    }
    BisectDone(balance, annualRate, targetMonths, low, high, requiredPayment, BisectionRounds - BisectionRounds);
    extra := Cents(requiredPayment - monthlyPayment);
  }

  /** For a non-negative balance the required payment is the current one or a
      payment between 0 and twice the balance that meets the target, so the
      reported extra is within a cent of a payment that works. */
  lemma RequiredPaymentMeetsTarget(balance: real, annualRate: real, monthlyPayment: real, targetMonths: real)
    requires balance >= 0.0
    ensures var r := Bisect(balance, annualRate, targetMonths, 0.0, balance * 2.0, monthlyPayment, BisectionRounds);
      r == monthlyPayment ||
      (0.0 <= r <= balance * 2.0 && PayoffMonths(balance, annualRate, r) as real <= targetMonths)
  {
    BisectFacts(balance, annualRate, targetMonths, 0.0, balance * 2.0, monthlyPayment, BisectionRounds);
  }
}
