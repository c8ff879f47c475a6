/** Paying down a credit card (js/formulas/credit-card-payoff-formula.js):
    the capped month loop with its clamp at zero, the minimum-payment
    scenario, the payment that clears the card by a target month, and the
    comparison of two payments. */
module CreditCardPayoff {
  import opened FinMath

  /** One schedule line (the display rounding to cents is not modelled). */
  datatype CardRow = CardRow(month: nat, payment: real, principal: real, interest: real, balance: real)

  datatype CardPayoff = CardPayoff(
    balance: real,
    apr: real,
    monthlyPayment: real,
    months: nat,
    years: nat,
    remainingMonths: nat,
    totalInterest: real,
    totalPaid: real,
    schedule: seq<CardRow>)

  /** The loop state. `applied` is what the payments actually took off the
      card (the last payment only takes what is owed); the source does not
      keep it, the model does to state the accounting. */
  datatype CardState = CardState(remaining: real, months: nat, totalInterest: real, applied: real, schedule: seq<CardRow>)

  /** The number of months the loop may run. */
  const MonthCap: nat := 600

  /** One month once its interest is known: the balance grows by the
      interest, the payment comes off, and a negative result is clamped to
      zero. The `principal` column is `min(payment - interest, remaining)`. */
  function Month(st: CardState, interest: real, payment: real): (r: CardState)
    ensures r.months == st.months + 1 && |r.schedule| == |st.schedule| + 1
    ensures r.remaining >= 0.0
    ensures r.remaining == Max(st.remaining + interest - payment, 0.0)
    ensures r.remaining + r.applied - r.totalInterest == st.remaining + st.applied - st.totalInterest
    ensures r.totalInterest == st.totalInterest + interest
    ensures var row := r.schedule[|st.schedule|];
      row.month == r.months && row.balance == r.remaining &&
      row.principal + row.interest == r.applied - st.applied == Min(payment, st.remaining + interest)
  {
    var principal := Min(payment - interest, st.remaining);
    var owed := st.remaining + interest - payment;
    var remaining := if owed < 0.0 then 0.0 else owed;
    CardState(remaining, st.months + 1, st.totalInterest + interest,
              st.applied + (st.remaining + interest - remaining),
              st.schedule + [CardRow(st.months + 1, payment, principal, interest, remaining)])
  }

  /** The loop runs while something is owed and fewer than 600 months have passed. */
  function Run(st: CardState, monthlyRate: real, payment: real): (r: CardState)
    requires st.months <= MonthCap
    ensures st.months <= r.months <= MonthCap
    ensures r.months < MonthCap ==> r.remaining <= 0.0
    ensures |r.schedule| - |st.schedule| == r.months - st.months
    decreases MonthCap - st.months
  {
    if st.remaining > 0.0 && st.months < MonthCap
    then Run(Month(st, Interest(st.remaining, monthlyRate), payment), monthlyRate, payment)
    else st
  }

  function Start(balance: real): CardState
  {
    CardState(balance, 0, 0.0, 0.0, [])
  }

  /** The number of months `calculatePayoff` reports. */
  function PayoffMonths(balance: real, apr: real, payment: real): nat
  {
    Run(Start(balance), apr / 12.0, payment).months
  }

  /** The reported figures: the inputs rounded for display (the rate as a
      percentage with two decimals), the months split into years, and only
      the first 24 schedule rows. */
  function Summary(balance: real, apr: real, payment: real, st: CardState): CardPayoff
  {
    Report(balance, apr, payment, st.months, st.totalInterest, st.schedule)
  }

  /** The object `calculatePayoff` returns once the loop has stopped. */
  function Report(balance: real, apr: real, payment: real, months: nat, totalInterest: real,
                  schedule: seq<CardRow>): CardPayoff
  {
    var totalPaid := balance + totalInterest;
    CardPayoff(Cents(balance), Round(apr * 10000.0) as real / 100.0, Cents(payment),
               months, months / 12, months % 12,
               Cents(totalInterest), Cents(totalPaid), Take(schedule, 24))
  }

  /** `calculatePayoff`. */
  method CalculatePayoff(balance: real, apr: real, monthlyPayment: real) returns (result: CardPayoff)
    ensures result == Summary(balance, apr, monthlyPayment, Run(Start(balance), apr / 12.0, monthlyPayment))
    ensures result.months == PayoffMonths(balance, apr, monthlyPayment)
  {
    var monthlyRate := apr / 12.0;
    var remaining := balance;
    var months: nat := 0;
    var totalInterest := 0.0;
    ghost var applied := 0.0;
    var schedule: seq<CardRow> := [];
    ghost var final := Run(Start(balance), monthlyRate, monthlyPayment);
    while remaining > 0.0 && months < MonthCap
      invariant months <= MonthCap
      invariant Run(CardState(remaining, months, totalInterest, applied, schedule), monthlyRate, monthlyPayment) == final
      decreases MonthCap - months
    {
      ghost var remaining0, month0, totalInterest0, applied0, schedule0 := remaining, months, totalInterest, applied, schedule;
      months := months + 1;
      var interest := remaining * monthlyRate;
      var principal := Min(monthlyPayment - interest, remaining);
      ghost var owed := remaining + interest;
      remaining := remaining + interest - monthlyPayment;
      totalInterest := totalInterest + interest;
      if remaining < 0.0 {
        remaining := 0.0;
      }
      applied := applied + (owed - remaining);
      schedule := schedule + [CardRow(months, monthlyPayment, principal, interest, remaining)];
      RunUnroll(remaining0, month0, totalInterest0, applied0, schedule0, monthlyRate, monthlyPayment, interest, remaining);
    }
    RunDone(CardState(remaining, months, totalInterest, applied, schedule), monthlyRate, monthlyPayment);
    result := Report(balance, apr, monthlyPayment, months, totalInterest, schedule);
  }

  /** One turn of the loop: a month with a balance left, before the cap. */
  lemma RunUnroll(remaining: real, months: nat, totalInterest: real, applied: real, schedule: seq<CardRow>,
                  monthlyRate: real, payment: real, interest: real, next: real)
    requires remaining > 0.0 && months < MonthCap && interest == remaining * monthlyRate
    requires next == Max(remaining + interest - payment, 0.0)
    ensures Run(CardState(remaining, months, totalInterest, applied, schedule), monthlyRate, payment)
      == Run(CardState(next, months + 1, totalInterest + interest, applied + (remaining + interest - next),
                       schedule + [CardRow(months + 1, payment, Min(payment - interest, remaining), interest, next)]),
             monthlyRate, payment)
  {
    assert Interest(remaining, monthlyRate) == interest;
  }

  /** The loop has stopped: the run is the state itself. */
  lemma RunDone(st: CardState, monthlyRate: real, payment: real)
    requires st.months <= MonthCap && !(st.remaining > 0.0 && st.months < MonthCap)
    ensures Run(st, monthlyRate, payment) == st
  {
  }

  /** Schedule rows are numbered 1, 2, ... in order and never show a negative balance. */
  ghost predicate WellFormed(schedule: seq<CardRow>)
  {
    forall k :: 0 <= k < |schedule| ==> schedule[k].month == k + 1 && schedule[k].balance >= 0.0
  }

  lemma {:induction false} RunFacts(st: CardState, monthlyRate: real, payment: real)
    requires st.months <= MonthCap && |st.schedule| == st.months && WellFormed(st.schedule)
    ensures var r := Run(st, monthlyRate, payment);
      WellFormed(r.schedule) && st.schedule <= r.schedule &&
      (r.months > st.months ==> r.remaining >= 0.0) &&
      r.remaining + r.applied - r.totalInterest == st.remaining + st.applied - st.totalInterest
    decreases MonthCap - st.months
  {
    if st.remaining > 0.0 && st.months < MonthCap {
      var next := Month(st, Interest(st.remaining, monthlyRate), payment);
      WellFormedAppend(st.schedule, next.schedule);
      RunFacts(next, monthlyRate, payment);
    }
  }

  lemma WellFormedAppend(s: seq<CardRow>, t: seq<CardRow>)
    requires WellFormed(s) && |t| == |s| + 1 && t[..|s|] == s
    requires t[|s|].month == |s| + 1 && t[|s|].balance >= 0.0
    ensures WellFormed(t) && s <= t
  {
    assert forall k :: 0 <= k < |s| ==> t[k] == s[k];
  }

  /** The balance after a month with something owed: `max((1 + r) * b - p, 0)`. */
  lemma MonthBalance(st: CardState, monthlyRate: real, payment: real)
    ensures Month(st, Interest(st.remaining, monthlyRate), payment).remaining
         == Max((1.0 + monthlyRate) * st.remaining - payment, 0.0)
  {
    assert st.remaining + Interest(st.remaining, monthlyRate) == (1.0 + monthlyRate) * st.remaining;
  }

  /** What a payoff run promises: at most 600 months; nothing at all for a
      balance that is not positive; a balance that is never negative once a
      month has run; one row per month, numbered from 1; and, when the card is
      cleared before the cap, payments that added up to exactly the balance
      plus the interest, which is the `totalPaid` the source reports. */
  lemma PayoffProperties(balance: real, monthlyRate: real, payment: real)
    ensures var r := Run(Start(balance), monthlyRate, payment);
      r.months <= MonthCap &&
      |r.schedule| == r.months && WellFormed(r.schedule) &&
      (balance <= 0.0 ==> r.months == 0 && r.schedule == []) &&
      (balance > 0.0 ==> r.remaining >= 0.0) &&
      (balance > 0.0 && r.months < MonthCap ==> r.remaining == 0.0 && r.applied == balance + r.totalInterest)
  {
    RunFacts(Start(balance), monthlyRate, payment);
  }

  /** The report splits the months into whole years and a remainder, and
      returns the first 24 rows of the schedule (all of them if fewer). */
  lemma SummaryProperties(balance: real, apr: real, payment: real)
    ensures var r := Run(Start(balance), apr / 12.0, payment);
      var s := Summary(balance, apr, payment, r);
      s.years * 12 + s.remainingMonths == s.months == r.months && s.remainingMonths < 12 &&
      |s.schedule| == (if r.months <= 24 then r.months else 24) && s.schedule == r.schedule[..|s.schedule|]
  {
    PayoffProperties(balance, apr / 12.0, payment);
  }

  /** `calculateMinimumPayment`: the payment is the larger of $25 and the
      given share of the balance (the source's default share is 2%). */
  function MinimumPayment(balance: real, minPaymentPercent: real): (p: real)
    ensures p >= 25.0 && p >= balance * minPaymentPercent
    ensures p == 25.0 || p == balance * minPaymentPercent
  {
    Max(25.0, balance * minPaymentPercent)
  }

  /** The default share of the balance in `calculateMinimumPayment`. */
  const DefaultMinimumPercent: real := 0.02

  method CalculateMinimumPayment(balance: real, apr: real, minPaymentPercent: real) returns (result: CardPayoff)
    ensures result == Summary(balance, apr, MinimumPayment(balance, minPaymentPercent),
                              Run(Start(balance), apr / 12.0, MinimumPayment(balance, minPaymentPercent)))
    ensures result.monthlyPayment >= 25.0
  {
    var minimumPayment := Max(25.0, balance * minPaymentPercent);
    CentsMonotone(25.0, minimumPayment);
    result := CalculatePayoff(balance, apr, minimumPayment);
  }

  /** `calculateRequiredPayment` for a whole number of target months. At a
      zero rate it spreads the balance evenly; otherwise it is the annuity
      payment rounded up to the next cent. `None` stands for the source's
      division by zero (no months at a zero rate, or `(1 + r)^n = 1`). */
  function RequiredPayment(balance: real, apr: real, targetMonths: nat): (p: Option<real>)
    ensures apr == 0.0 ==> (p.Some? <==> targetMonths > 0)
    ensures apr == 0.0 && p.Some? ==> p.value * targetMonths as real == balance
    ensures apr != 0.0 ==> (p.Some? <==> Pow(1.0 + apr / 12.0, targetMonths) != 1.0)
    ensures apr != 0.0 && p.Some? ==>
      var exact := AnnuityPayment(balance, apr / 12.0, targetMonths);
      exact <= p.value < exact + 0.01
  {
    var monthlyRate := apr / 12.0;
    if apr == 0.0 then
      if targetMonths == 0 then None else Some(balance / targetMonths as real)
    else if Pow(1.0 + monthlyRate, targetMonths) == 1.0 then None
    else Some(CeilCents(AnnuityPayment(balance, monthlyRate, targetMonths)))
  }

  /** While the true balance is at most `x`, and `x` rolled forward `k` months
      at the same payment is no longer positive, the loop stops within `k`
      more months. */
  lemma {:induction false} RunWithin(st: CardState, monthlyRate: real, payment: real, x: real, k: nat)
    requires st.months + k <= MonthCap && st.remaining <= x && 1.0 + monthlyRate >= 0.0
    requires Grow(x, monthlyRate, -payment, k) <= 0.0
    ensures Run(st, monthlyRate, payment).months <= st.months + k
    decreases k
  {
    if st.remaining > 0.0 && st.months < MonthCap {
      assert k > 0;
      var next := Month(st, Interest(st.remaining, monthlyRate), payment);
      var x' := x * (1.0 + monthlyRate) + -payment;
      MonthBalance(st, monthlyRate, payment);
      RollForward(st.remaining, x, monthlyRate, payment);
      if x' < 0.0 {
        assert next.remaining == 0.0;
      } else {
        assert next.remaining <= x';
        GrowShift(x, monthlyRate, -payment, k);
        RunWithin(next, monthlyRate, payment, x', k - 1);
      }
    }
  }

  lemma RollForward(b: real, x: real, monthlyRate: real, payment: real)
    requires b <= x && 1.0 + monthlyRate >= 0.0
    ensures (1.0 + monthlyRate) * b - payment <= x * (1.0 + monthlyRate) + -payment
  {
    MulMonotone(1.0 + monthlyRate, b, x);
  }

  /** The required payment does what it is for: at a positive rate, paying it
      every month clears a positive balance within the target months. */
  lemma RequiredPaymentSuffices(balance: real, apr: real, targetMonths: nat)
    requires apr > 0.0 && balance > 0.0 && 0 < targetMonths <= MonthCap
    ensures RequiredPayment(balance, apr, targetMonths).Some?
    ensures PayoffMonths(balance, apr, RequiredPayment(balance, apr, targetMonths).value) <= targetMonths
  {
    var r := apr / 12.0;
    AnnuityDefined(r, targetMonths);
    var exact := AnnuityPayment(balance, r, targetMonths);
    var p := RequiredPayment(balance, apr, targetMonths).value;
    AnnuityClears(balance, r, targetMonths);
    GrowMonotoneInContribution(balance, r, -p, -exact, targetMonths);
    RunWithin(Start(balance), r, p, balance, targetMonths);
  }

  /** A larger payment from a no-larger balance never takes longer, provided
      the rate is not below -100% a month. */
  lemma {:induction false} RunMonotone(s1: CardState, s2: CardState, monthlyRate: real, p1: real, p2: real)
    requires s1.months == s2.months <= MonthCap
    requires s2.remaining <= s1.remaining && p1 <= p2 && monthlyRate >= -1.0
    ensures Run(s2, monthlyRate, p2).months <= Run(s1, monthlyRate, p1).months
    decreases MonthCap - s1.months
  {
    if s1.remaining > 0.0 && s1.months < MonthCap && s2.remaining > 0.0 {
      var n1 := Month(s1, Interest(s1.remaining, monthlyRate), p1);
      var n2 := Month(s2, Interest(s2.remaining, monthlyRate), p2);
      MonthBalance(s1, monthlyRate, p1);
      MonthBalance(s2, monthlyRate, p2);
      ScaledMaxMonotone(1.0 + monthlyRate, s1.remaining, s2.remaining, p1, p2);
      RunMonotone(n1, n2, monthlyRate, p1, p2);
    }
  }

  /** Paying more each month never lengthens the payoff. */
  lemma PayoffMonthsMonotone(balance: real, apr: real, p1: real, p2: real)
    requires p1 <= p2 && apr >= -12.0
    ensures PayoffMonths(balance, apr, p2) <= PayoffMonths(balance, apr, p1)
  {
    RunMonotone(Start(balance), Start(balance), apr / 12.0, p1, p2);
  }

  datatype Comparison = Comparison(
    current: CardPayoff,
    increased: CardPayoff,
    monthsSaved: int,
    interestSaved: real,
    additionalMonthly: real)

  /** `compareScenarios`: the payoff at the current and at the increased
      payment; the months and interest saved are current minus increased. */
  method CompareScenarios(balance: real, apr: real, currentPayment: real, increasedPayment: real)
    returns (c: Comparison)
    ensures c.current == Summary(balance, apr, currentPayment, Run(Start(balance), apr / 12.0, currentPayment))
    ensures c.increased == Summary(balance, apr, increasedPayment, Run(Start(balance), apr / 12.0, increasedPayment))
    ensures c.monthsSaved == c.current.months - c.increased.months
    ensures c.interestSaved == Cents(c.current.totalInterest - c.increased.totalInterest)
    ensures c.additionalMonthly == Cents(increasedPayment - currentPayment)
    ensures increasedPayment >= currentPayment && apr >= -12.0 ==> c.monthsSaved >= 0
  {
    var current := CalculatePayoff(balance, apr, currentPayment);
    var increased := CalculatePayoff(balance, apr, increasedPayment);
    if increasedPayment >= currentPayment && apr >= -12.0 {
      PayoffMonthsMonotone(balance, apr, currentPayment, increasedPayment);
    }
    c := Comparison(current, increased, current.months - increased.months,
                    Cents(current.totalInterest - increased.totalInterest),
                    Cents(increasedPayment - currentPayment));
  }
}
