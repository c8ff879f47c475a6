/** Emergency savings (js/formulas/emergency-fund-formula.js): how many months
    of expenses to keep, how long contributions take to reach a goal, and how
    many months a fund covers. */
module EmergencyFund {
  import opened FinMath

  /** The months added for job stability: three for an unstable job (2 or
      less), one for a middling one (exactly 3), none otherwise. */
  function StabilityMonths(jobStability: real): int
  {
    if jobStability <= 2.0 then 3 else if jobStability == 3.0 then 1 else 0
  }

  /** One month for having dependents and one more for more than two. */
  function DependentMonths(dependents: real): int
  {
    (if dependents > 0.0 then 1 else 0) + (if dependents > 2.0 then 1 else 0)
  }

  /** The recommended months: a base of three plus the adjustments, one less
      with a second income, kept between 3 and 12. */
  function MonthsFor(jobStability: real, dependents: real, dualIncome: bool): int
  {
    var raw := 3 + StabilityMonths(jobStability) + DependentMonths(dependents) - (if dualIncome then 1 else 0);
    if raw < 3 then 3 else if raw > 12 then 12 else raw
  }

  /** The recommendation never goes beyond 8 months, which it reaches exactly
      for an unstable job, more than two dependents and a single income; it
      stays at the base of 3 exactly when the adjustments add up to nothing
      or less. */
  lemma MonthsRange(jobStability: real, dependents: real, dualIncome: bool)
    ensures 3 <= MonthsFor(jobStability, dependents, dualIncome) <= 8
    ensures MonthsFor(jobStability, dependents, dualIncome) == 8
      <==> jobStability <= 2.0 && dependents > 2.0 && !dualIncome
    ensures MonthsFor(jobStability, dependents, dualIncome) == 3
      <==> StabilityMonths(jobStability) + DependentMonths(dependents) <= (if dualIncome then 1 else 0)
  {
  }

  datatype Factors = Factors(jobStability: real, dependents: real, dualIncome: bool)

  datatype Milestones = Milestones(oneMonth: real, threeMonths: real, sixMonths: real, twelveMonths: real)

  /** What `calculateEmergencyFund` returns. */
  datatype FundReport = FundReport(
    monthlyExpenses: real,
    monthsNeeded: int,
    recommendedAmount: real,
    minimumAmount: real,
    idealAmount: real,
    factors: Factors,
    milestones: Milestones)

  /** The month count of `calculateEmergencyFund`, adjusted step by step
      and then kept between 3 and 12. */
  method MonthsNeeded(jobStability: real, dependents: real, dualIncome: bool) returns (monthsNeeded: int)
    ensures monthsNeeded == MonthsFor(jobStability, dependents, dualIncome)
    ensures 3 <= monthsNeeded <= 8
  {
    monthsNeeded := 3;
    if jobStability <= 2.0 {
      monthsNeeded := monthsNeeded + 3;
    } else if jobStability == 3.0 {
      monthsNeeded := monthsNeeded + 1;
    }
    if dependents > 0.0 {
      monthsNeeded := monthsNeeded + 1;
    }
    if dependents > 2.0 {
      monthsNeeded := monthsNeeded + 1;
    }
    if dualIncome {
      monthsNeeded := monthsNeeded - 1;
    }
    monthsNeeded := if 12 < monthsNeeded then 12 else monthsNeeded;
    monthsNeeded := if 3 > monthsNeeded then 3 else monthsNeeded;
    MonthsRange(jobStability, dependents, dualIncome);
  }

  /** `months` months of expenses, rounded to cents. */
  function Amount(monthlyExpenses: real, months: real): real
  {
    Cents(monthlyExpenses * months)
  }

  /** `calculateEmergencyFund`: the recommended amount is the recommended
      months of expenses, the minimum and the ideal are three and six
      months, as are the matching milestones. */
  method CalculateEmergencyFund(monthlyExpenses: real, jobStability: real, dependents: real, dualIncome: bool)
    returns (r: FundReport)
    ensures r.monthsNeeded == MonthsFor(jobStability, dependents, dualIncome)
    ensures 3 <= r.monthsNeeded <= 8
    ensures r.recommendedAmount == Amount(monthlyExpenses, r.monthsNeeded as real)
    ensures r.minimumAmount == Amount(monthlyExpenses, 3.0) == r.milestones.threeMonths
    ensures r.idealAmount == Amount(monthlyExpenses, 6.0) == r.milestones.sixMonths
    ensures r.milestones.oneMonth == r.monthlyExpenses == Cents(monthlyExpenses)
    ensures r.milestones.twelveMonths == Amount(monthlyExpenses, 12.0)
    ensures r.factors == Factors(jobStability, dependents, dualIncome)
  {
    var monthsNeeded := MonthsNeeded(jobStability, dependents, dualIncome);
    var recommendedAmount := Amount(monthlyExpenses, monthsNeeded as real);
    var minimumAmount := Amount(monthlyExpenses, 3.0);
    var idealAmount := Amount(monthlyExpenses, 6.0);
    r := FundReport(Cents(monthlyExpenses), monthsNeeded, recommendedAmount, minimumAmount, idealAmount,
                    Factors(jobStability, dependents, dualIncome),
                    Milestones(Cents(monthlyExpenses), Amount(monthlyExpenses, 3.0), Amount(monthlyExpenses, 6.0),
                               Amount(monthlyExpenses, 12.0)));
  }

  /** For non-negative expenses the minimum is never above the
      recommendation, nor the recommendation above eight months of
      expenses. */
  lemma RecommendationBetween(monthlyExpenses: real, months: real)
    requires monthlyExpenses >= 0.0 && 3.0 <= months <= 8.0
    ensures Amount(monthlyExpenses, 3.0) <= Amount(monthlyExpenses, months) <= Amount(monthlyExpenses, 8.0)
  {
    ScaledCents(monthlyExpenses, 3.0, months, 8.0);
  }

  /** What `calculateTimeToGoal` returns; the month figures are `None` where
      no contribution is made and the source shows an unending count. */
  datatype GoalReport = GoalReport(
    currentSavings: real,
    goalAmount: real,
    remaining: real,
    monthlyContribution: real,
    monthsToGoal: Option<int>,
    yearsToGoal: Option<int>,
    remainingMonths: Option<int>)

  /** What is still missing of the goal, never negative. */
  function Shortfall(currentSavings: real, goalAmount: real): (s: real)
    ensures s >= 0.0 && s >= goalAmount - currentSavings
    ensures s == 0.0 || s == goalAmount - currentSavings
  {
    Max(0.0, goalAmount - currentSavings)
  }

  /** `calculateTimeToGoal`. With a positive contribution the month count is
      the fewest whole months whose contributions cover what is missing, and
      it splits into whole years and at most eleven months; without one
      there is no count. */
  function CalculateTimeToGoal(currentSavings: real, goalAmount: real, monthlyContribution: real): (r: GoalReport)
    ensures r.monthsToGoal.Some? <==> monthlyContribution > 0.0
    ensures r.yearsToGoal.Some? == r.remainingMonths.Some? == r.monthsToGoal.Some?
    ensures r.remaining == Cents(Shortfall(currentSavings, goalAmount))
    ensures r.monthsToGoal.Some? ==>
      var m := r.monthsToGoal.value;
      var s := Shortfall(currentSavings, goalAmount);
      m >= 0 && m as real * monthlyContribution >= s && (m == 0 || (m - 1) as real * monthlyContribution < s) &&
      r.yearsToGoal.value * 12 + r.remainingMonths.value == m && 0 <= r.remainingMonths.value < 12
  {
    var remaining := Shortfall(currentSavings, goalAmount);
    var months := if monthlyContribution > 0.0 then Some(Ceil(remaining / monthlyContribution)) else None;
    if monthlyContribution > 0.0 then
      MonthsCover(remaining, monthlyContribution);
      GoalReport(Cents(currentSavings), Cents(goalAmount), Cents(remaining), Cents(monthlyContribution),
                 months, Some(months.value / 12), Some(JsRem(months.value, 12)))
    else
      GoalReport(Cents(currentSavings), Cents(goalAmount), Cents(remaining), Cents(monthlyContribution),
                 None, None, None)
  }

  /** `ceil(s / c)` months of `c` cover `s`, and one month fewer would not. */
  lemma MonthsCover(s: real, c: real)
    requires s >= 0.0 && c > 0.0
    ensures var m := Ceil(s / c);
      m >= 0 && m as real * c >= s && (m == 0 || (m - 1) as real * c < s)
  {
    var q := s / c;
    var m := Ceil(q);
    assert c * q == s;
    if q < 0.0 {
      MulStrict(c, q, 0.0);
    }
    MultipleBounds(c, q, s, m as real, (m - 1) as real);
  }

  /** With `s == c * q` for a positive `c`: a multiple of `c` by at least `q`
      reaches `s`, one by less than `q` stays below it. */
  lemma MultipleBounds(c: real, q: real, s: real, above: real, below: real)
    requires c > 0.0 && c * q == s && q <= above && below < q
    ensures above * c >= s && below * c < s
  {
    MulMonotone(c, q, above);
    MulStrict(c, below, q);
  }

  /** The monthly expenses `calculateCoverage` reads; a field that is absent
      counts as zero. */
  datatype Expenses = Expenses(
    housing: Option<real>,
    utilities: Option<real>,
    groceries: Option<real>,
    insurance: Option<real>,
    transportation: Option<real>,
    minimumDebtPayments: Option<real>,
    entertainment: Option<real>,
    dining: Option<real>,
    shopping: Option<real>,
    subscriptions: Option<real>)

  function OrZero(x: Option<real>): real
  {
    if x.None? then 0.0 else x.value
  }

  function Essential(e: Expenses): real
  {
    OrZero(e.housing) + OrZero(e.utilities) + OrZero(e.groceries) + OrZero(e.insurance)
    + OrZero(e.transportation) + OrZero(e.minimumDebtPayments)
  }

  function Discretionary(e: Expenses): real
  {
    OrZero(e.entertainment) + OrZero(e.dining) + OrZero(e.shopping) + OrZero(e.subscriptions)
  }

  /** The coverage figures; each is `None` where its divisor is zero and the
      source's division has no finite result. */
  datatype Coverage = Coverage(essentialMonths: Option<int>, totalMonths: Option<int>,
                               essentialPercentage: Option<real>)

  datatype CoverageReport = CoverageReport(
    emergencyFund: real,
    essentialExpenses: real,
    discretionaryExpenses: real,
    totalExpenses: real,
    coverage: Coverage)

  /** `Math.floor(fund / expenses)`, the whole months a fund lasts. */
  function MonthsCovered(fund: real, expenses: real): (m: Option<int>)
    ensures m.Some? <==> expenses != 0.0
    ensures m.Some? && expenses > 0.0 ==>
      m.value as real * expenses <= fund < (m.value + 1) as real * expenses &&
      (fund >= 0.0 ==> m.value >= 0)
  {
    if expenses == 0.0 then None
    else
      var q := fund / expenses;
      if expenses > 0.0 then
        FloorBounds(fund, expenses);
        Some(q.Floor)
      else
        Some(q.Floor)
  }

  lemma FloorBounds(fund: real, expenses: real)
    requires expenses > 0.0
    ensures var m := (fund / expenses).Floor;
      m as real * expenses <= fund < (m + 1) as real * expenses && (fund >= 0.0 ==> m >= 0)
  {
    var q := fund / expenses;
    var m := q.Floor;
    assert expenses * q == fund;
    if fund >= 0.0 && q < 0.0 {
      MulStrict(expenses, q, 0.0);
    }
    MulMonotone(expenses, m as real, q);
    assert m as real * expenses == expenses * m as real;
    StrictMultiple(expenses, q, fund, (m + 1) as real);
  }

  lemma StrictMultiple(c: real, q: real, s: real, a: real)
    requires c > 0.0 && c * q == s && q < a
    ensures s < a * c
  {
    MulStrict(c, q, a);
  }

  /** `calculateCoverage`. The total is the essential plus the discretionary
      expenses, so with no negative discretionary field it is at least the
      essential part and the fund lasts no more whole months against it. */
  function CalculateCoverage(emergencyFund: real, expenses: Expenses): (r: CoverageReport)
    ensures r.totalExpenses == Cents(Essential(expenses) + Discretionary(expenses))
    ensures var e := Essential(expenses);
      r.coverage.essentialMonths == MonthsCovered(emergencyFund, e) &&
      r.coverage.totalMonths == MonthsCovered(emergencyFund, e + Discretionary(expenses)) &&
      (r.coverage.essentialPercentage.Some? <==> e != 0.0)
  {
    var essentialExpenses := Essential(expenses);
    var discretionaryExpenses := Discretionary(expenses);
    var totalExpenses := essentialExpenses + discretionaryExpenses;
    CoverageReport(
      Cents(emergencyFund), Cents(essentialExpenses), Cents(discretionaryExpenses), Cents(totalExpenses),
      Coverage(MonthsCovered(emergencyFund, essentialExpenses), MonthsCovered(emergencyFund, totalExpenses),
               if essentialExpenses == 0.0 then None else Some(PercentOf(emergencyFund, essentialExpenses * 6.0))))
  }

  /** With positive essential expenses, no negative discretionary field and a
      non-negative fund, the fund covers no more whole months of all
      expenses than of the essential ones, and a fund of six months of
      essential expenses shows as 100 percent. */
  lemma CoverageOrder(emergencyFund: real, expenses: Expenses)
    requires Essential(expenses) > 0.0 && Discretionary(expenses) >= 0.0 && emergencyFund >= 0.0
    ensures var c := CalculateCoverage(emergencyFund, expenses).coverage;
      c.totalMonths.value <= c.essentialMonths.value
    ensures emergencyFund == 6.0 * Essential(expenses) ==>
      CalculateCoverage(emergencyFund, expenses).coverage.essentialPercentage == Some(100.0)
  {
    var e := Essential(expenses);
    FewerMonthsOfMore(emergencyFund, e, e + Discretionary(expenses));
    if emergencyFund == 6.0 * e {
      SixMonthsIsFull(emergencyFund, e);
    }
  }

  lemma SixMonthsIsFull(fund: real, e: real)
    requires e != 0.0 && fund == 6.0 * e
    ensures PercentOf(fund, e * 6.0) == 100.0
  {
    assert fund / (e * 6.0) == 1.0;
    assert Percent(1.0) == 100.0;
  }

  /** A non-negative fund lasts no more whole months against larger expenses. */
  lemma FewerMonthsOfMore(fund: real, e: real, t: real)
    requires 0.0 < e <= t && fund >= 0.0
    ensures MonthsCovered(fund, t).value <= MonthsCovered(fund, e).value
  {
    var me := MonthsCovered(fund, e).value;
    var mt := MonthsCovered(fund, t).value;
    if mt > me {
      ScaleBoth((me + 1) as real, mt as real, e, t);
      assert false;
    }
  }

  lemma ScaleBoth(a: real, b: real, e: real, t: real)
    requires 0.0 < e <= t && a <= b && b >= 0.0
    ensures a * e <= b * t
  {
    MulMonotone(e, a, b);
    MulMonotone(b, e, t);
  }
}
