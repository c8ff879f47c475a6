/** The avalanche / snowball multi-debt payoff simulator
    (js/formulas/debt-payoff-formula.js). Each month every debt that still
    owes accrues a month of interest and receives its minimum payment; the
    whole extra payment goes to the first owing debt in sort order and is
    reset the next month; a payment never exceeds what is owed; freed
    minimums are not rolled over. */
module DebtPayoff {
  import opened FinMath
  import Sorting

  datatype Debt = Debt(name: string, balance: real, rate: real, minimumPayment: real)

  datatype Strategy = Avalanche | Snowball

  /** One line of a month's breakdown (the display rounding to cents is not modelled). */
  datatype PaymentRow = PaymentRow(name: string, payment: real, interest: real, remaining: real)

  datatype MonthData = MonthData(month: nat, payments: seq<PaymentRow>, totalPaid: real)

  datatype Payoff = Payoff(name: string, month: nat)

  datatype Plan = Plan(
    strategy: Strategy,
    months: nat,
    years: nat,
    remainingMonths: nat,
    totalInterest: real,
    totalPayments: real,
    payoffOrder: seq<Payoff>,
    schedule: seq<MonthData>)

  // ---------------------------------------------------------------------
  // One debt in one month

  /** What visiting an owing debt produces: its new remaining balance, the
      extra payment still unspent this month, the interest accrued and the
      amount paid. */
  datatype Visit = Visit(remaining: real, extraLeft: real, interest: real, payment: real)

  function VisitDebt(d: Debt, remaining: real, extra: real): (v: Visit)
    ensures v.remaining >= 0.0
    ensures v.remaining == remaining + v.interest - v.payment
    ensures v.extraLeft == extra <==> !(extra > 0.0 && remaining + v.interest > 0.0)
    ensures v.extraLeft == 0.0 || v.extraLeft == extra
    ensures v.payment <= d.minimumPayment + (extra - v.extraLeft)
  {
    var interest := remaining * (d.rate / 12.0);
    var owed := remaining + interest;
    var takesExtra := extra > 0.0 && owed > 0.0;
    var due := if takesExtra then d.minimumPayment + extra else d.minimumPayment;
    var payment := Min(due, owed);
    Visit(owed - payment, if takesExtra then 0.0 else extra, interest, payment)
  }

  lemma VisitDebtUnfold(d: Debt, remaining: real, extra: real,
                        interest: real, owed: real, payment: real, extraLeft: real)
    requires interest == remaining * (d.rate / 12.0) && owed == remaining + interest
    requires extra > 0.0 && owed > 0.0 ==> payment == Min(d.minimumPayment + extra, owed) && extraLeft == 0.0
    requires !(extra > 0.0 && owed > 0.0) ==> payment == Min(d.minimumPayment, owed) && extraLeft == extra
    ensures VisitDebt(d, remaining, extra) == Visit(owed - payment, extraLeft, interest, payment)
  {
  }

  // ---------------------------------------------------------------------
  // One month: the inner loop over the debts in sort order

  datatype MonthState = MonthState(
    rem: seq<real>,
    extra: real,
    totalInterest: real,
    paid: real,
    payments: seq<PaymentRow>,
    payoffs: seq<Payoff>)

  predicate Listed(payoffs: seq<Payoff>, name: string)
  {
    exists p :: p in payoffs && p.name == name
  }

  /** The body of the inner loop for debt `j`: a debt that no longer owes is
      skipped; otherwise it is charged interest and paid, its row is added,
      and it joins the payoff order the first time a debt of that name is
      cleared. */
  function VisitStep(debts: seq<Debt>, month: nat, st: MonthState, j: nat): (r: MonthState)
    requires j < |debts| == |st.rem|
    ensures |r.rem| == |st.rem|
    ensures forall k :: 0 <= k < |st.rem| && k != j ==> r.rem[k] == st.rem[k]
    ensures st.rem[j] <= 0.0 ==> r == st
    ensures st.rem[j] > 0.0 ==> r.rem[j] >= 0.0
    ensures r.rem[j] - st.rem[j] == (r.totalInterest - st.totalInterest) - (r.paid - st.paid)
    ensures r.extra == st.extra || r.extra == 0.0
    ensures r.paid - st.paid <= (if st.rem[j] > 0.0 then debts[j].minimumPayment else 0.0) + st.extra - r.extra
  {
    if st.rem[j] <= 0.0 then st
    else
      var d := debts[j];
      var v := VisitDebt(d, st.rem[j], st.extra);
      var row := PaymentRow(d.name, v.payment, v.interest, Max(0.0, v.remaining));
      var payoffs :=
        if v.remaining <= 0.0 && !Listed(st.payoffs, d.name) then st.payoffs + [Payoff(d.name, month)]
        else st.payoffs;
      MonthState(st.rem[j := v.remaining], v.extraLeft, st.totalInterest + v.interest,
                 st.paid + v.payment, st.payments + [row], payoffs)
  }

  /** The body of the inner loop for a debt that still owes, once its
      interest, payment and the extra left over are known. */
  lemma VisitPaid(debts: seq<Debt>, month: nat, st: MonthState, j: nat, d: Debt, balance: real,
                  interest: real, owed: real, payment: real, extraLeft: real, payoffs: seq<Payoff>)
    requires j < |debts| == |st.rem| && d == debts[j] && balance == st.rem[j] && balance > 0.0
    requires interest == balance * (d.rate / 12.0) && owed == balance + interest
    requires st.extra > 0.0 && owed > 0.0 ==> payment == Min(d.minimumPayment + st.extra, owed) && extraLeft == 0.0
    requires !(st.extra > 0.0 && owed > 0.0) ==> payment == Min(d.minimumPayment, owed) && extraLeft == st.extra
    requires payoffs == if owed - payment <= 0.0 && !Listed(st.payoffs, d.name) then st.payoffs + [Payoff(d.name, month)]
                        else st.payoffs
    ensures VisitStep(debts, month, st, j)
         == MonthState(st.rem[j := owed - payment], extraLeft, st.totalInterest + interest, st.paid + payment,
                       st.payments + [PaymentRow(d.name, payment, interest, Max(0.0, owed - payment))], payoffs)
  {
    VisitDebtUnfold(d, balance, st.extra, interest, owed, payment, extraLeft);
  }

  /** The inner loop from debt `j` to the end of the list. */
  function VisitFrom(debts: seq<Debt>, month: nat, st: MonthState, j: nat): (r: MonthState)
    requires j <= |debts| == |st.rem|
    ensures |r.rem| == |st.rem|
    decreases |debts| - j
  {
    if j == |debts| then st else VisitFrom(debts, month, VisitStep(debts, month, st, j), j + 1)
  }

  /** Debts that no longer owe are passed over: the month runs as if it
      started at the first debt that still owes. */
  lemma {:induction false} SkipSettled(debts: seq<Debt>, month: nat, st: MonthState, j: nat, i: nat)
    requires j <= i <= |debts| == |st.rem|
    requires forall k :: j <= k < i ==> st.rem[k] <= 0.0
    ensures VisitFrom(debts, month, st, j) == VisitFrom(debts, month, st, i)
    decreases i - j
  {
    if j < i {
      assert VisitStep(debts, month, st, j) == st;
      SkipSettled(debts, month, st, j + 1, i);
    }
  }

  /** Once the extra is spent, it stays spent for the rest of the month. */
  lemma {:induction false} NoExtraLeft(debts: seq<Debt>, month: nat, st: MonthState, j: nat)
    requires j <= |debts| == |st.rem| && st.extra == 0.0
    ensures VisitFrom(debts, month, st, j).extra == 0.0
    decreases |debts| - j
  {
    if j < |debts| {
      NoExtraLeft(debts, month, VisitStep(debts, month, st, j), j + 1);
    }
  }

  /** The whole extra goes to the first debt that still owes, when that
      debt owes `owed > 0` once its interest is added: it is paid its
      minimum plus the extra (capped at what it owes), and every later debt
      in the month is visited with no extra, so it gets at most its
      minimum. */
  lemma ExtraGoesToFirstOwing(debts: seq<Debt>, month: nat, st: MonthState, j: nat, i: nat, owed: real)
    requires j <= i < |debts| == |st.rem|
    requires forall k :: j <= k < i ==> st.rem[k] <= 0.0
    requires st.rem[i] > 0.0 && st.extra > 0.0
    requires owed == st.rem[i] + st.rem[i] * (debts[i].rate / 12.0) && owed > 0.0
    ensures var first := VisitStep(debts, month, st, i);
      && VisitFrom(debts, month, st, j) == VisitFrom(debts, month, first, i + 1)
      && first.paid - st.paid == Min(debts[i].minimumPayment + st.extra, owed)
      && first.extra == 0.0
      && VisitFrom(debts, month, st, j).extra == 0.0
  {
    SkipSettled(debts, month, st, j, i);
    var first := VisitStep(debts, month, st, i);
    FirstOwingVisit(debts, month, st, i, owed);
    assert VisitFrom(debts, month, st, i) == VisitFrom(debts, month, first, i + 1);
    NoExtraLeft(debts, month, first, i + 1);
  }

  lemma FirstOwingVisit(debts: seq<Debt>, month: nat, st: MonthState, i: nat, owed: real)
    requires i < |debts| == |st.rem| && st.rem[i] > 0.0 && st.extra > 0.0
    requires owed == st.rem[i] + st.rem[i] * (debts[i].rate / 12.0) && owed > 0.0
    ensures var first := VisitStep(debts, month, st, i);
      first.paid - st.paid == Min(debts[i].minimumPayment + st.extra, owed) && first.extra == 0.0
  {
    var d, balance := debts[i], st.rem[i];
    var interest := balance * (d.rate / 12.0);
    var payment := Min(d.minimumPayment + st.extra, owed);
    VisitDebtUnfold(d, balance, st.extra, interest, owed, payment, 0.0);
  }

  // ---------------------------------------------------------------------
  // The whole run: the outer loop over months

  datatype PlanState = PlanState(
    rem: seq<real>,
    month: nat,
    totalInterest: real,
    schedule: seq<MonthData>,
    payoffs: seq<Payoff>)

  predicate AnyOwed(rem: seq<real>)
  {
    exists k :: 0 <= k < |rem| && rem[k] > 0.0
  }

  function Balances(debts: seq<Debt>): (b: seq<real>)
    ensures |b| == |debts|
    ensures forall k :: 0 <= k < |debts| ==> b[k] == debts[k].balance
  {
    seq(|debts|, k requires 0 <= k < |debts| => debts[k].balance)
  }

  /** The working copies start with `remaining = balance`. */
  function Start(debts: seq<Debt>): PlanState
  {
    PlanState(Balances(debts), 0, 0.0, [], [])
  }

  function NextMonth(debts: seq<Debt>, extra: real, st: PlanState): (r: PlanState)
    requires |st.rem| == |debts|
    ensures |r.rem| == |debts| && r.month == st.month + 1
  {
    var m := VisitFrom(debts, st.month + 1, MonthState(st.rem, extra, st.totalInterest, 0.0, [], st.payoffs), 0);
    PlanState(m.rem, st.month + 1, m.totalInterest,
              st.schedule + [MonthData(st.month + 1, m.payments, m.paid)], m.payoffs)
  }

  /** Months are simulated while some debt owes and fewer than 600 have passed. */
  function Simulate(debts: seq<Debt>, extra: real, st: PlanState): (r: PlanState)
    requires |st.rem| == |debts| && st.month <= 600
    ensures |r.rem| == |debts|
    decreases 600 - st.month
  {
    if AnyOwed(st.rem) && st.month < 600 then Simulate(debts, extra, NextMonth(debts, extra, st))
    else st
  }

  /** `schedule.slice(0, 12)`. */
  function FirstYear(schedule: seq<MonthData>): (r: seq<MonthData>)
    ensures |r| <= 12 && |r| <= |schedule| && r == schedule[..|r|]
    ensures |schedule| >= 12 ==> |r| == 12
    ensures |schedule| < 12 ==> r == schedule
  {
    if |schedule| <= 12 then schedule else schedule[..12]
  }

  function Summary(debts: seq<Debt>, strategy: Strategy, st: PlanState): Plan
  {
    Plan(strategy, st.month, st.month / 12, st.month % 12, Cents(st.totalInterest),
         Cents(Sum(Balances(debts)) + st.totalInterest), st.payoffs, FirstYear(st.schedule))
  }

  /** The plan the simulator produces for debts already in payment order. */
  function PlanFor(debts: seq<Debt>, extra: real, strategy: Strategy): Plan
  {
    Summary(debts, strategy, Simulate(debts, extra, Start(debts)))
  }

  /** `calculatePayoffPlan`: the month loop over copies of the debts. */
  method CalculatePayoffPlan(sortedDebts: seq<Debt>, extraPayment: real, strategy: Strategy)
    returns (plan: Plan)
    ensures plan == PlanFor(sortedDebts, extraPayment, strategy)
    ensures plan.months <= 600 && plan.years * 12 + plan.remainingMonths == plan.months
    ensures |plan.schedule| <= 12
  {
    var n := |sortedDebts|;
    var remaining := new real[n](k requires 0 <= k < n => sortedDebts[k].balance);
    assert remaining[..] == Balances(sortedDebts);
    var month: nat := 0;
    var totalInterest := 0.0;
    var schedule: seq<MonthData> := [];
    var payoffOrder: seq<Payoff> := [];
    while AnyOwed(remaining[..]) && month < 600
      invariant month <= 600
      invariant Simulate(sortedDebts, extraPayment, PlanState(remaining[..], month, totalInterest, schedule, payoffOrder))
             == Simulate(sortedDebts, extraPayment, Start(sortedDebts))
      decreases 600 - month
    {
      ghost var before := PlanState(remaining[..], month, totalInterest, schedule, payoffOrder);
      month := month + 1;
      var payments, totalPaid;
      totalInterest, payments, totalPaid, payoffOrder :=
        PayMonth(sortedDebts, remaining, month, extraPayment, totalInterest, payoffOrder);
      schedule := schedule + [MonthData(month, payments, totalPaid)];
      assert PlanState(remaining[..], month, totalInterest, schedule, payoffOrder)
          == NextMonth(sortedDebts, extraPayment, before);
    }
    var totalPayments := Sum(Balances(sortedDebts)) + totalInterest;
    plan := Plan(strategy, month, month / 12, month % 12, Cents(totalInterest), Cents(totalPayments),
                 payoffOrder, FirstYear(schedule));
  }

  /** One month of `calculatePayoffPlan`: the loop over the debts in sort
      order, updating the working balances in place. */
  method PayMonth(debts: seq<Debt>, remaining: array<real>, month: nat, extraPayment: real,
                  interestSoFar: real, payoffsSoFar: seq<Payoff>)
    returns (totalInterest: real, payments: seq<PaymentRow>, totalPaid: real, payoffOrder: seq<Payoff>)
    requires remaining.Length == |debts|
    modifies remaining
    ensures var m := VisitFrom(debts, month, MonthState(old(remaining[..]), extraPayment, interestSoFar, 0.0, [], payoffsSoFar), 0);
      remaining[..] == m.rem && totalInterest == m.totalInterest && totalPaid == m.paid &&
      payments == m.payments && payoffOrder == m.payoffs
  {
    var monthlyExtra := extraPayment;
    totalInterest := interestSoFar;
    payments := [];
    totalPaid := 0.0;
    payoffOrder := payoffsSoFar;
    for j := 0 to |debts|
      invariant VisitFrom(debts, month, MonthState(remaining[..], monthlyExtra, totalInterest, totalPaid, payments, payoffOrder), j)
             == VisitFrom(debts, month, MonthState(old(remaining[..]), extraPayment, interestSoFar, 0.0, [], payoffsSoFar), 0)
    {
      ghost var cur := MonthState(remaining[..], monthlyExtra, totalInterest, totalPaid, payments, payoffOrder);
      if remaining[j] <= 0.0 {
        assert VisitStep(debts, month, cur, j) == cur;
        continue;
      }
      var debt := debts[j];
      var balance := remaining[j];
      var interest := balance * (debt.rate / 12.0);
      totalInterest := totalInterest + interest;
      var owed := balance + interest;
      var payment := debt.minimumPayment;
      if monthlyExtra > 0.0 && owed > 0.0 {
        payment := payment + monthlyExtra;
        monthlyExtra := 0.0;
      }
      payment := Min(payment, owed);
      remaining[j] := owed - payment;
      assert remaining[..] == cur.rem[j := owed - payment];
      payments := payments + [PaymentRow(debt.name, payment, interest, Max(0.0, remaining[j]))];
      totalPaid := totalPaid + payment;
      if remaining[j] <= 0.0 && !Listed(payoffOrder, debt.name) {
        payoffOrder := payoffOrder + [Payoff(debt.name, month)];
      }
      VisitPaid(debts, month, cur, j, debt, balance, interest, owed, payment, monthlyExtra, payoffOrder);
      assert MonthState(remaining[..], monthlyExtra, totalInterest, totalPaid, payments, payoffOrder)
          == VisitStep(debts, month, cur, j);
    }
  }

  // ---------------------------------------------------------------------
  // Strategies

  /** Avalanche order: `(a, b) => b.rate - a.rate`, highest rate first. */
  function RateDescending(d: Debt): real { -d.rate }

  /** Snowball order: `(a, b) => a.balance - b.balance`, smallest balance first. */
  function BalanceAscending(d: Debt): real { d.balance }

  method CalculateAvalanche(debts: seq<Debt>, extraPayment: real) returns (plan: Plan)
    ensures plan == PlanFor(Sorting.SortBy(debts, RateDescending), extraPayment, Avalanche)
    ensures plan.strategy == Avalanche && plan.months <= 600
  {
    var sortedDebts := Sorting.SortBy(debts, RateDescending);
    plan := CalculatePayoffPlan(sortedDebts, extraPayment, Avalanche);
  }

  method CalculateSnowball(debts: seq<Debt>, extraPayment: real) returns (plan: Plan)
    ensures plan == PlanFor(Sorting.SortBy(debts, BalanceAscending), extraPayment, Snowball)
    ensures plan.strategy == Snowball && plan.months <= 600
  {
    var sortedDebts := Sorting.SortBy(debts, BalanceAscending);
    plan := CalculatePayoffPlan(sortedDebts, extraPayment, Snowball);
  }

  /** The avalanche order lists every debt once, highest rate first. */
  lemma AvalancheOrder(debts: seq<Debt>)
    ensures multiset(Sorting.SortBy(debts, RateDescending)) == multiset(debts)
    ensures forall i, j :: 0 <= i < j < |debts| ==>
      Sorting.SortBy(debts, RateDescending)[i].rate >= Sorting.SortBy(debts, RateDescending)[j].rate
  {
    Sorting.SortBySorted(debts, RateDescending);
  }

  /** The snowball order lists every debt once, smallest balance first. */
  lemma SnowballOrder(debts: seq<Debt>)
    ensures multiset(Sorting.SortBy(debts, BalanceAscending)) == multiset(debts)
    ensures forall i, j :: 0 <= i < j < |debts| ==>
      Sorting.SortBy(debts, BalanceAscending)[i].balance <= Sorting.SortBy(debts, BalanceAscending)[j].balance
  {
    Sorting.SortBySorted(debts, BalanceAscending);
  }

  datatype Comparison = Comparison(
    avalanche: Plan,
    snowball: Plan,
    winner: Strategy,
    interestDifference: real,
    timeDifference: nat,
    recommendation: Strategy)

  /** The comparison of two plans: the cheaper one in (rounded) interest,
      the difference in interest to the cent and in months, and a
      recommendation that wants avalanche to save at least 5%. */
  function Compared(avalanche: Plan, snowball: Plan): (c: Comparison)
    ensures c.avalanche == avalanche && c.snowball == snowball
    ensures c.winner == Avalanche <==> avalanche.totalInterest < snowball.totalInterest
    ensures c.recommendation == Avalanche <==> avalanche.totalInterest < snowball.totalInterest * 0.95
    ensures snowball.totalInterest >= 0.0 && c.recommendation == Avalanche ==> c.winner == Avalanche
    ensures c.interestDifference == Cents(Abs(avalanche.totalInterest - snowball.totalInterest))
    ensures c.interestDifference >= 0.0
    ensures c.timeDifference == IntAbs(avalanche.months - snowball.months)
  {
    var gap := Abs(avalanche.totalInterest - snowball.totalInterest);
    CentsNonNegative(gap);
    Comparison(avalanche, snowball,
               if avalanche.totalInterest < snowball.totalInterest then Avalanche else Snowball,
               Cents(gap),
               IntAbs(avalanche.months - snowball.months),
               if avalanche.totalInterest < snowball.totalInterest * 0.95 then Avalanche else Snowball)
  }

  /** `compareMethods`: the comparison of the avalanche and the snowball
      plan of the specification. */
  method CompareMethods(debts: seq<Debt>, extraPayment: real) returns (c: Comparison)
    ensures c == Compared(PlanFor(Sorting.SortBy(debts, RateDescending), extraPayment, Avalanche),
                          PlanFor(Sorting.SortBy(debts, BalanceAscending), extraPayment, Snowball))
  {
    var avalanche := CalculateAvalanche(debts, extraPayment);
    var snowball := CalculateSnowball(debts, extraPayment);
    c := Compared(avalanche, snowball);
  }

  // ---------------------------------------------------------------------
  // Properties of the simulation

  /** The run stops within 600 months, and before 600 only once nothing is owed. */
  lemma {:induction false} SimulateStops(debts: seq<Debt>, extra: real, st: PlanState)
    requires |st.rem| == |debts| && st.month <= 600
    ensures Simulate(debts, extra, st).month <= 600
    ensures Simulate(debts, extra, st).month >= st.month
    ensures Simulate(debts, extra, st).month < 600 ==> !AnyOwed(Simulate(debts, extra, st).rem)
    decreases 600 - st.month
  {
    if AnyOwed(st.rem) && st.month < 600 {
      SimulateStops(debts, extra, NextMonth(debts, extra, st));
    }
  }

  /** Every working balance is either untouched (it never owed) or non-negative. */
  ghost predicate Settled(debts: seq<Debt>, rem: seq<real>)
  {
    |rem| == |debts| && forall k :: 0 <= k < |rem| ==> rem[k] >= 0.0 || rem[k] == debts[k].balance
  }

  lemma {:induction false} VisitFromSettled(debts: seq<Debt>, month: nat, st: MonthState, j: nat)
    requires j <= |debts| == |st.rem| && Settled(debts, st.rem)
    ensures Settled(debts, VisitFrom(debts, month, st, j).rem)
    decreases |debts| - j
  {
    if j < |debts| {
      var next := VisitStep(debts, month, st, j);
      assert Settled(debts, next.rem);
      VisitFromSettled(debts, month, next, j + 1);
    }
  }

  /** A payment is capped at what is owed, so no working balance goes below
      zero; one that starts at or below zero is never touched. */
  lemma {:induction false} SimulateSettled(debts: seq<Debt>, extra: real, st: PlanState)
    requires |st.rem| == |debts| && st.month <= 600 && Settled(debts, st.rem)
    ensures Settled(debts, Simulate(debts, extra, st).rem)
    decreases 600 - st.month
  {
    if AnyOwed(st.rem) && st.month < 600 {
      VisitFromSettled(debts, st.month + 1, MonthState(st.rem, extra, st.totalInterest, 0.0, [], st.payoffs), 0);
      SimulateSettled(debts, extra, NextMonth(debts, extra, st));
    }
  }

  /** The minimum payments due this month: those of debts still owing from `j` on. */
  function DueMinimums(debts: seq<Debt>, rem: seq<real>, j: nat): real
    requires j <= |debts| == |rem|
    decreases |debts| - j
  {
    if j == |debts| then 0.0
    else if rem[j] > 0.0 then debts[j].minimumPayment + DueMinimums(debts, rem, j + 1)
    else DueMinimums(debts, rem, j + 1)
  }

  lemma {:induction false} DueMinimumsFrame(debts: seq<Debt>, a: seq<real>, b: seq<real>, j: nat)
    requires j <= |debts| == |a| == |b|
    requires forall k :: j <= k < |a| ==> a[k] == b[k]
    ensures DueMinimums(debts, a, j) == DueMinimums(debts, b, j)
    decreases |debts| - j
  {
    if j < |debts| {
      DueMinimumsFrame(debts, a, b, j + 1);
    }
  }

  /** Within a month, the debts visited from `j` on are paid at most their
      minimums plus the part of the extra payment that gets used up. */
  lemma {:induction false} VisitFromPaysAtMost(debts: seq<Debt>, month: nat, st: MonthState, j: nat)
    requires j <= |debts| == |st.rem|
    ensures var r := VisitFrom(debts, month, st, j);
      (r.extra == st.extra || r.extra == 0.0) &&
      r.paid - st.paid <= DueMinimums(debts, st.rem, j) + st.extra - r.extra
    decreases |debts| - j
  {
    if j < |debts| {
      var next := VisitStep(debts, month, st, j);
      VisitFromPaysAtMost(debts, month, next, j + 1);
      DueMinimumsFrame(debts, st.rem, next.rem, j + 1);
    }
  }

  /** The extra payment is spent at most once a month and freed minimums are
      not rolled over: a month pays at most the minimums of the debts still
      owing plus the (non-negative part of the) extra payment. */
  lemma MonthPaysAtMost(debts: seq<Debt>, extra: real, st: PlanState)
    requires |st.rem| == |debts|
    ensures var r := NextMonth(debts, extra, st);
      |r.schedule| == |st.schedule| + 1 &&
      r.schedule[|st.schedule|].totalPaid <= DueMinimums(debts, st.rem, 0) + Max(extra, 0.0)
  {
    VisitFromPaysAtMost(debts, st.month + 1, MonthState(st.rem, extra, st.totalInterest, 0.0, [], st.payoffs), 0);
  }

  /** Sum of what was paid, month by month. */
  function TotalPaid(schedule: seq<MonthData>): real
  {
    if schedule == [] then 0.0 else TotalPaid(schedule[..|schedule| - 1]) + schedule[|schedule| - 1].totalPaid
  }

  /** Within a month, the working balances grow by the interest accrued and
      shrink by the amount paid. */
  lemma {:induction false} VisitFromBalances(debts: seq<Debt>, month: nat, st: MonthState, j: nat)
    requires j <= |debts| == |st.rem|
    ensures var r := VisitFrom(debts, month, st, j);
      Sum(r.rem) + r.paid - r.totalInterest == Sum(st.rem) + st.paid - st.totalInterest
    decreases |debts| - j
  {
    if j < |debts| {
      var next := VisitStep(debts, month, st, j);
      SumUpdate(st.rem, j, next.rem[j]);
      assert next.rem == st.rem[j := next.rem[j]];
      VisitFromBalances(debts, month, next, j + 1);
    }
  }

  /** Accounting: what is still owed plus everything paid equals the original
      balances plus all interest charged. */
  ghost predicate Balanced(debts: seq<Debt>, st: PlanState)
  {
    Sum(st.rem) + TotalPaid(st.schedule) == Sum(Balances(debts)) + st.totalInterest
  }

  lemma {:induction false} SimulateBalanced(debts: seq<Debt>, extra: real, st: PlanState)
    requires |st.rem| == |debts| && st.month <= 600 && Balanced(debts, st)
    ensures Balanced(debts, Simulate(debts, extra, st))
    decreases 600 - st.month
  {
    if AnyOwed(st.rem) && st.month < 600 {
      var m0 := MonthState(st.rem, extra, st.totalInterest, 0.0, [], st.payoffs);
      VisitFromBalances(debts, st.month + 1, m0, 0);
      var next := NextMonth(debts, extra, st);
      assert next.schedule[..|next.schedule| - 1] == st.schedule;
      SimulateBalanced(debts, extra, next);
    }
  }

  /** When every balance was non-negative and the run ends before the cap,
      every debt is paid off and `totalPayments` (before rounding) is exactly
      the total paid over the run. */
  lemma PaidInFull(debts: seq<Debt>, extra: real)
    requires forall k :: 0 <= k < |debts| ==> debts[k].balance >= 0.0
    ensures var r := Simulate(debts, extra, Start(debts));
      r.month < 600 ==>
        (forall k :: 0 <= k < |r.rem| ==> r.rem[k] == 0.0) &&
        Sum(Balances(debts)) + r.totalInterest == TotalPaid(r.schedule)
  {
    var r := Simulate(debts, extra, Start(debts));
    SimulateStops(debts, extra, Start(debts));
    SimulateSettled(debts, extra, Start(debts));
    SimulateBalanced(debts, extra, Start(debts));
    if r.month < 600 {
      assert forall k :: 0 <= k < |r.rem| ==> r.rem[k] == 0.0;
      SumOfZeros(r.rem);
    }
  }

  lemma {:induction false} SumOfZeros(s: seq<real>)
    requires forall k :: 0 <= k < |s| ==> s[k] == 0.0
    ensures Sum(s) == 0.0
  {
    if s != [] {
      SumOfZeros(s[..|s| - 1]);
    }
  }

  /** The payoff order names each debt at most once, in non-decreasing month
      order, every month between 1 and the current one. */
  ghost predicate OrderedPayoffs(payoffs: seq<Payoff>, month: nat)
  {
    (forall i, j :: 0 <= i < j < |payoffs| ==> payoffs[i].name != payoffs[j].name) &&
    (forall i, j :: 0 <= i < j < |payoffs| ==> payoffs[i].month <= payoffs[j].month) &&
    (forall i :: 0 <= i < |payoffs| ==> 1 <= payoffs[i].month <= month)
  }

  lemma {:induction false} VisitFromOrdered(debts: seq<Debt>, month: nat, st: MonthState, j: nat)
    requires j <= |debts| == |st.rem| && month >= 1 && OrderedPayoffs(st.payoffs, month)
    ensures OrderedPayoffs(VisitFrom(debts, month, st, j).payoffs, month)
    decreases |debts| - j
  {
    if j < |debts| {
      var next := VisitStep(debts, month, st, j);
      if st.rem[j] > 0.0 {
        var d := debts[j];
        if !Listed(st.payoffs, d.name) {
          forall i | 0 <= i < |st.payoffs|
            ensures st.payoffs[i].name != d.name
          {
            assert st.payoffs[i] in st.payoffs;
          }
        }
      }
      VisitFromOrdered(debts, month, next, j + 1);
    }
  }

  lemma {:induction false} SimulateOrdered(debts: seq<Debt>, extra: real, st: PlanState)
    requires |st.rem| == |debts| && st.month <= 600 && OrderedPayoffs(st.payoffs, st.month)
    ensures OrderedPayoffs(Simulate(debts, extra, st).payoffs, Simulate(debts, extra, st).month)
    decreases 600 - st.month
  {
    if AnyOwed(st.rem) && st.month < 600 {
      VisitFromOrdered(debts, st.month + 1, MonthState(st.rem, extra, st.totalInterest, 0.0, [], st.payoffs), 0);
      SimulateOrdered(debts, extra, NextMonth(debts, extra, st));
    }
  }

  /** One schedule entry per simulated month, numbered from 1. */
  ghost predicate Numbered(st: PlanState)
  {
    |st.schedule| == st.month && forall k :: 0 <= k < |st.schedule| ==> st.schedule[k].month == k + 1
  }

  lemma {:induction false} SimulateNumbered(debts: seq<Debt>, extra: real, st: PlanState)
    requires |st.rem| == |debts| && st.month <= 600 && Numbered(st)
    ensures Numbered(Simulate(debts, extra, st))
    decreases 600 - st.month
  {
    if AnyOwed(st.rem) && st.month < 600 {
      SimulateNumbered(debts, extra, NextMonth(debts, extra, st));
    }
  }

  /** What the returned plan promises, from the simulation's invariants. */
  lemma PlanProperties(debts: seq<Debt>, extra: real, strategy: Strategy)
    ensures var p := PlanFor(debts, extra, strategy);
      p.months <= 600 &&
      OrderedPayoffs(p.payoffOrder, p.months) &&
      |p.schedule| == (if p.months < 12 then p.months else 12) &&
      (forall k :: 0 <= k < |p.schedule| ==> p.schedule[k].month == k + 1)
  {
    SimulateStops(debts, extra, Start(debts));
    SimulateOrdered(debts, extra, Start(debts));
    SimulateNumbered(debts, extra, Start(debts));
  }

  /** With no debts at all there is nothing to simulate. */
  lemma NoDebts(extra: real, strategy: Strategy)
    ensures PlanFor([], extra, strategy).months == 0
    ensures PlanFor([], extra, strategy).totalPayments == 0.0
  {
    assert !AnyOwed(Start([]).rem);
  }
}
