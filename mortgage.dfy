/** Mortgage arithmetic (js/formulas/mortgage-formula.js): the monthly
    principal-and-interest payment with escrow, the lifetime interest, the
    month-by-month amortization table and the largest loan a monthly budget
    carries. */
module Mortgage {
  import opened FinMath
  import opened LevelPayment

  /** The payment breakdown, every field rounded to cents. */
  datatype MonthlyPayment = MonthlyPayment(principalInterest: real, tax: real, insurance: real, pmi: real, total: real)

  /** The unrounded principal-and-interest payment over `years * 12` months. */
  function PrincipalInterest(principal: real, annualRate: real, years: nat): Option<real>
  {
    Payment(principal, annualRate, years * 12)
  }

  /** `calculateMonthlyPayment`: P&I plus one twelfth of each annual escrow
      item, each rounded to cents. The total is rounded once, from the unrounded parts, so it is
      within half a cent of their sum and within two and a half cents of the
      sum of the rounded parts. */
  function CalculateMonthlyPayment(principal: real, annualRate: real, years: nat,
                                   propertyTax: real, insurance: real, pmi: real): (r: Option<MonthlyPayment>)
    ensures r.Some? <==> PaymentDefined(annualRate, years * 12)
    ensures r.Some? ==>
      var exact := PrincipalInterest(principal, annualRate, years).value;
      r.value.principalInterest == Cents(exact) &&
      r.value.tax == Cents(propertyTax / 12.0) &&
      r.value.insurance == Cents(insurance / 12.0) &&
      r.value.pmi == Cents(pmi / 12.0) &&
      Abs(r.value.principalInterest - exact) <= 0.005 &&
      Abs(r.value.total - (exact + propertyTax / 12.0 + insurance / 12.0 + pmi / 12.0)) <= 0.005 &&
      Abs(r.value.total - (r.value.principalInterest + r.value.tax + r.value.insurance + r.value.pmi)) < 0.025
  {
    match PrincipalInterest(principal, annualRate, years)
    case None => None
    case Some(pi) =>
      var monthlyTax := propertyTax / 12.0;
      var monthlyInsurance := insurance / 12.0;
      var monthlyPmi := pmi / 12.0;
      Some(MonthlyPayment(Cents(pi), Cents(monthlyTax), Cents(monthlyInsurance), Cents(monthlyPmi),
                          Cents(pi + monthlyTax + monthlyInsurance + monthlyPmi)))
  }

  /** `calculateTotalInterest`: everything paid over the term less the loan,
      rounded to cents. */
  function CalculateTotalInterest(principal: real, monthlyPayment: real, years: nat): (t: real)
    ensures Abs(t + principal - monthlyPayment * years as real * 12.0) <= 0.005
  {
    Cents(monthlyPayment * years as real * 12.0 - principal)
  }

  /** At a non-negative rate the exact P&I payments add up to at least the
      loan, so the lifetime interest is never negative; at a zero rate it is
      exactly zero. */
  lemma TotalInterestNonNegative(principal: real, annualRate: real, years: nat)
    requires principal >= 0.0 && annualRate >= 0.0 && PaymentDefined(annualRate, years * 12)
    ensures CalculateTotalInterest(principal, PrincipalInterest(principal, annualRate, years).value, years) >= 0.0
    ensures annualRate == 0.0 ==>
      CalculateTotalInterest(principal, PrincipalInterest(principal, annualRate, years).value, years) == 0.0
  {
    var n := years * 12;
    var pi := Payment(principal, annualRate, n).value;
    TotalInterestValue(principal, pi, years, n);
    PaymentCoversLoan(principal, annualRate, n);
    CentsNonNegative(pi * n as real - principal);
    if annualRate == 0.0 {
      assert pi * n as real - principal == 0.0;
    }
  }

  lemma TotalInterestValue(principal: real, payment: real, years: nat, n: nat)
    requires n == years * 12
    ensures CalculateTotalInterest(principal, payment, years) == Cents(payment * n as real - principal)
  {
    var a := payment * years as real * 12.0 - principal;
    var b := payment * n as real - principal;
    assert n as real == years as real * 12.0;
    assert a == b;
    assert Cents(a) == Cents(b);
  }

  /** One line of the amortization table, every amount rounded to cents. */
  datatype AmortizationRow = AmortizationRow(month: nat, payment: real, principal: real, interest: real,
                                             totalInterest: real, balance: real)

  function MakeRow(month: nat, payment: real, principalPayment: real, interest: real,
                   totalInterest: real, balance: real): (row: AmortizationRow)
    ensures row.month == month
    ensures balance >= 0.0 ==> row.balance >= 0.0
  {
    CentsNonNegative(balance);
    AmortizationRow(month, Cents(payment), Cents(principalPayment), Cents(interest), Cents(totalInterest), Cents(balance))
  }

  /** The table loop's state after `month` months. */
  datatype AmState = AmState(balance: real, totalInterest: real, month: nat, schedule: seq<AmortizationRow>)

  /** One month: the payment covers the interest first, the rest comes off
      the balance, and a balance pushed below zero is set to zero. */
  function AmortizeMonth(st: AmState, monthlyRate: real, payment: real): (r: AmState)
    ensures r.month == st.month + 1 && |r.schedule| == |st.schedule| + 1 && r.schedule[..|st.schedule|] == st.schedule
    ensures r.balance >= 0.0
    ensures r.totalInterest == st.totalInterest + st.balance * monthlyRate
    ensures r.schedule[|st.schedule|] == MakeRow(r.month, payment, payment - st.balance * monthlyRate,
                                                 st.balance * monthlyRate, r.totalInterest, r.balance)
  {
    var interest := Interest(st.balance, monthlyRate);
    var principalPayment := payment - interest;
    var owed := st.balance - principalPayment;
    var balance := if owed < 0.0 then 0.0 else owed;
    var total := st.totalInterest + interest;
    AmState(balance, total, st.month + 1,
            st.schedule + [MakeRow(st.month + 1, payment, principalPayment, interest, total, balance)])
  }

  /** The loop over months `month + 1 .. numPayments`. */
  function Amortize(st: AmState, numPayments: nat, monthlyRate: real, payment: real): (r: AmState)
    requires st.month <= numPayments
    ensures r.month == numPayments
    ensures |r.schedule| == |st.schedule| + numPayments - st.month
    decreases numPayments - st.month
  {
    if st.month < numPayments
    then Amortize(AmortizeMonth(st, monthlyRate, payment), numPayments, monthlyRate, payment)
    else st
  }

  /** The rounded P&I the table uses (any value when the table is empty). */
  function SchedulePayment(principal: real, annualRate: real, years: nat): real
  {
    match CalculateMonthlyPayment(principal, annualRate, years, 0.0, 0.0, 0.0)
    case Some(p) => p.principalInterest
    case None => 0.0
  }

  /** The table `generateAmortizationSchedule` returns. */
  function Schedule(principal: real, annualRate: real, years: nat): seq<AmortizationRow>
  {
    Amortize(AmState(principal, 0.0, 0, []), years * 12, annualRate / 12.0,
             SchedulePayment(principal, annualRate, years)).schedule
  }

  /** `generateAmortizationSchedule`. */
  method GenerateAmortizationSchedule(principal: real, annualRate: real, years: nat)
    returns (schedule: seq<AmortizationRow>)
    requires years > 0 ==> PaymentDefined(annualRate, years * 12)
    ensures schedule == Schedule(principal, annualRate, years)
  {
    var monthlyRate := annualRate / 12.0;
    var numPayments := years * 12;
    var monthlyPayment := SchedulePayment(principal, annualRate, years);
    schedule := [];
    var balance := principal;
    var totalInterest := 0.0;
    ghost var final := Amortize(AmState(principal, 0.0, 0, []), numPayments, monthlyRate, monthlyPayment);
    ghost var done: nat := 0;
    for month := 1 to numPayments + 1
      invariant done == month - 1
      invariant Amortize(AmState(balance, totalInterest, done, schedule), numPayments, monthlyRate, monthlyPayment) == final
    {
      ghost var balance0, totalInterest0, schedule0 := balance, totalInterest, schedule;
      var interestPayment := balance * monthlyRate;
      var principalPayment := monthlyPayment - interestPayment;
      balance := balance - principalPayment;
      totalInterest := totalInterest + interestPayment;
      if balance < 0.0 {
        balance := 0.0;
      }
      schedule := schedule + [MakeRow(month, monthlyPayment, principalPayment, interestPayment, totalInterest, balance)];
      done := done + 1;
      AmortizeUnroll(balance0, totalInterest0, schedule0, numPayments, monthlyRate, monthlyPayment,
                     interestPayment, balance, totalInterest, done, schedule);
    }
    AmortizeDone(AmState(balance, totalInterest, numPayments, schedule), numPayments, monthlyRate, monthlyPayment);
  }

  /** One turn of the table loop. */
  lemma AmortizeUnroll(balance: real, totalInterest: real, schedule: seq<AmortizationRow>,
                       numPayments: nat, monthlyRate: real, payment: real, interest: real,
                       nextBalance: real, nextTotal: real, nextMonth: nat, nextSchedule: seq<AmortizationRow>)
    requires 0 < nextMonth <= numPayments && interest == balance * monthlyRate
    requires nextBalance == Max(balance - (payment - interest), 0.0) && nextTotal == totalInterest + interest
    requires nextSchedule == schedule + [MakeRow(nextMonth, payment, payment - interest, interest, nextTotal, nextBalance)]
    ensures Amortize(AmState(balance, totalInterest, nextMonth - 1, schedule), numPayments, monthlyRate, payment)
      == Amortize(AmState(nextBalance, nextTotal, nextMonth, nextSchedule), numPayments, monthlyRate, payment)
  {
    assert Interest(balance, monthlyRate) == interest;
    assert AmortizeMonth(AmState(balance, totalInterest, nextMonth - 1, schedule), monthlyRate, payment)
      == AmState(nextBalance, nextTotal, nextMonth, nextSchedule);
  }

  /** The table loop has run all its months. */
  lemma AmortizeDone(st: AmState, numPayments: nat, monthlyRate: real, payment: real)
    requires st.month == numPayments
    ensures Amortize(st, numPayments, monthlyRate, payment) == st
  {
  }

  /** Rows are numbered 1, 2, ... and never show a negative balance. */
  ghost predicate Numbered(schedule: seq<AmortizationRow>)
  {
    forall k :: 0 <= k < |schedule| ==> schedule[k].month == k + 1 && schedule[k].balance >= 0.0
  }

  /** The running-interest column never falls and stays at or below `bound`. */
  ghost predicate InterestRises(schedule: seq<AmortizationRow>, bound: real)
  {
    (forall j, k :: 0 <= j <= k < |schedule| ==> schedule[j].totalInterest <= schedule[k].totalInterest) &&
    (forall k :: 0 <= k < |schedule| ==> schedule[k].totalInterest <= bound)
  }

  lemma {:induction false} AmortizeShape(st: AmState, numPayments: nat, monthlyRate: real, payment: real)
    requires st.month <= numPayments && |st.schedule| == st.month && Numbered(st.schedule)
    ensures var r := Amortize(st, numPayments, monthlyRate, payment);
      |r.schedule| == numPayments && Numbered(r.schedule) && r.schedule[..st.month] == st.schedule
    decreases numPayments - st.month
  {
    if st.month < numPayments {
      var next := AmortizeMonth(st, monthlyRate, payment);
      assert Numbered(next.schedule) by {
        forall k | 0 <= k < |next.schedule|
          ensures next.schedule[k].month == k + 1 && next.schedule[k].balance >= 0.0
        {
          if k < |st.schedule| {
            assert next.schedule[k] == st.schedule[k];
          }
        }
      }
      AmortizeShape(next, numPayments, monthlyRate, payment);
      var r := Amortize(next, numPayments, monthlyRate, payment);
      assert r.schedule[..st.month] == r.schedule[..next.month][..st.month];
    }
  }

  /** With a non-negative balance and rate every month's interest is
      non-negative, so the running total only rises. */
  lemma {:induction false} AmortizeInterestRises(st: AmState, numPayments: nat, monthlyRate: real, payment: real)
    requires st.month <= numPayments && st.balance >= 0.0 && monthlyRate >= 0.0
    requires InterestRises(st.schedule, Cents(st.totalInterest))
    ensures InterestRises(Amortize(st, numPayments, monthlyRate, payment).schedule,
                          Cents(Amortize(st, numPayments, monthlyRate, payment).totalInterest))
    decreases numPayments - st.month
  {
    if st.month < numPayments {
      var next := AmortizeMonth(st, monthlyRate, payment);
      var n := |st.schedule|;
      assert st.balance * monthlyRate >= 0.0;
      CentsMonotone(st.totalInterest, next.totalInterest);
      assert next.schedule[n].totalInterest == Cents(next.totalInterest);
      forall j, k | 0 <= j <= k < |next.schedule|
        ensures next.schedule[j].totalInterest <= next.schedule[k].totalInterest
      {
        if k < n {
          assert next.schedule[j] == st.schedule[j] && next.schedule[k] == st.schedule[k];
        } else if j < n {
          assert next.schedule[j] == st.schedule[j];
        }
      }
      forall k | 0 <= k < |next.schedule|
        ensures next.schedule[k].totalInterest <= Cents(next.totalInterest)
      {
        if k < n {
          assert next.schedule[k] == st.schedule[k];
        }
      }
      AmortizeInterestRises(next, numPayments, monthlyRate, payment);
    }
  }

  /** The table has one row per month of the term, numbered from 1, with a
      balance column that is never negative. */
  lemma ScheduleShape(principal: real, annualRate: real, years: nat)
    ensures var s := Schedule(principal, annualRate, years);
      |s| == years * 12 && Numbered(s)
  {
    AmortizeShape(AmState(principal, 0.0, 0, []), years * 12, annualRate / 12.0,
                  SchedulePayment(principal, annualRate, years));
  }

  /** For a non-negative loan at a non-negative rate the running-interest
      column never decreases. */
  lemma ScheduleInterestRises(principal: real, annualRate: real, years: nat)
    requires principal >= 0.0 && annualRate >= 0.0
    ensures var s := Schedule(principal, annualRate, years);
      forall j, k :: 0 <= j <= k < |s| ==> s[j].totalInterest <= s[k].totalInterest
  {
    assert Cents(0.0) == 0.0;
    AmortizeInterestRises(AmState(principal, 0.0, 0, []), years * 12, annualRate / 12.0,
                          SchedulePayment(principal, annualRate, years));
  }

  /** Every row shows the P&I of `calculateMonthlyPayment` as its payment. */
  lemma SchedulePaymentColumn(principal: real, annualRate: real, years: nat)
    requires years > 0 ==> PaymentDefined(annualRate, years * 12)
    ensures var s := Schedule(principal, annualRate, years);
      forall k :: 0 <= k < |s| ==>
        s[k].payment == CalculateMonthlyPayment(principal, annualRate, years, 0.0, 0.0, 0.0).value.principalInterest
  {
    var pmt := SchedulePayment(principal, annualRate, years);
    if years > 0 {
      CentsIdempotent(PrincipalInterest(principal, annualRate, years).value);
      assert Cents(pmt) == CalculateMonthlyPayment(principal, annualRate, years, 0.0, 0.0, 0.0).value.principalInterest;
      AmortizePaymentColumn(AmState(principal, 0.0, 0, []), years * 12, annualRate / 12.0, pmt);
      assert Schedule(principal, annualRate, years) == Amortize(AmState(principal, 0.0, 0, []), years * 12, annualRate / 12.0, pmt).schedule;
    } else {
      assert |Schedule(principal, annualRate, years)| == 0;
    }
  }

  /** Every row shows `amount` as its payment. */
  ghost predicate PaysEvery(schedule: seq<AmortizationRow>, amount: real)
  {
    forall k :: 0 <= k < |schedule| ==> schedule[k].payment == amount
  }

  lemma {:induction false} AmortizePaymentColumn(st: AmState, numPayments: nat, monthlyRate: real, payment: real)
    requires st.month <= numPayments && PaysEvery(st.schedule, Cents(payment))
    ensures PaysEvery(Amortize(st, numPayments, monthlyRate, payment).schedule, Cents(payment))
    decreases numPayments - st.month
  {
    if st.month < numPayments {
      var next := AmortizeMonth(st, monthlyRate, payment);
      assert next.schedule == st.schedule + [next.schedule[|st.schedule|]];
      assert next.schedule[|st.schedule|].payment == Cents(payment);
      AmortizePaymentColumn(next, numPayments, monthlyRate, payment);
    }
  }

  /** `calculateMaxHomePrice`: the largest loan the budget carries over the
      term plus the down payment, in cents; `None` where the inverse formula
      divides by zero. */
  function CalculateMaxHomePrice(monthlyBudget: real, annualRate: real, years: nat, downPayment: real): (r: Option<real>)
    ensures r.Some? <==> LoanDefined(annualRate, years * 12)
    ensures r.Some? ==> Abs(r.value - (LoanFor(monthlyBudget, annualRate, years * 12).value + downPayment)) <= 0.005
  {
    match LoanFor(monthlyBudget, annualRate, years * 12)
    case None => None
    case Some(p) => Some(Cents(p + downPayment))
  }

  /** The maximum home price for a loan's own P&I is the loan plus the down
      payment. */
  lemma MaxHomePriceRoundTrip(principal: real, annualRate: real, years: nat, downPayment: real)
    requires PaymentDefined(annualRate, years * 12) && LoanDefined(annualRate, years * 12)
    ensures CalculateMaxHomePrice(PrincipalInterest(principal, annualRate, years).value, annualRate, years, downPayment)
      == Some(Cents(principal + downPayment))
  {
    PaymentRoundTrip(principal, annualRate, years * 12);
  }

  /** The P&I of the largest loan a budget carries is the budget. */
  lemma BudgetRoundTrip(monthlyBudget: real, annualRate: real, years: nat)
    requires PaymentDefined(annualRate, years * 12) && LoanDefined(annualRate, years * 12)
    ensures PrincipalInterest(LoanFor(monthlyBudget, annualRate, years * 12).value, annualRate, years) == Some(monthlyBudget)
  {
    LoanRoundTrip(monthlyBudget, annualRate, years * 12);
  }
}
