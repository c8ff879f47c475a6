/** The 401(k) projection (js/formulas/401k-formula.js): a year loop that
    sets the employee contribution and the capped employer match from the
    year's salary, then compounds the balance monthly adding a twelfth of each
    contribution; and the check of the employee contribution limit. */
module Plan401k {
  import opened FinMath

  /** The elective-deferral limits: the catch-up limit from age 50 on. */
  const CatchUpAge: real := 50.0
  const CatchUpLimit: real := 30500.0
  const BaseLimit: real := 23000.0

  /** The year's employee contribution: a percentage of the salary. */
  function EmployeeContribution(salary: real, contributionPercent: real): real
  {
    salary * (contributionPercent / 100.0)
  }

  /** The employer match: the match percentage of the employee contribution,
      but of no more salary than the match limit percentage covers. */
  function EmployerMatch(employee: real, salary: real, matchPercent: real, matchLimit: real): real
  {
    Min(employee * (matchPercent / 100.0), salary * (matchLimit / 100.0) * (matchPercent / 100.0))
  }

  /** Up to the limit percentage the employer matches the whole employee
      contribution; beyond it, the match stays at the limit's share of the
      salary. */
  lemma MatchUpToLimit(salary: real, contributionPercent: real, matchPercent: real, matchLimit: real)
    requires salary >= 0.0 && matchPercent >= 0.0
    ensures var e := EmployeeContribution(salary, contributionPercent);
      var m := EmployerMatch(e, salary, matchPercent, matchLimit);
      m <= e * (matchPercent / 100.0) && m <= salary * (matchLimit / 100.0) * (matchPercent / 100.0)
    ensures var e := EmployeeContribution(salary, contributionPercent);
      contributionPercent <= matchLimit ==> EmployerMatch(e, salary, matchPercent, matchLimit) == e * (matchPercent / 100.0)
    ensures var e := EmployeeContribution(salary, contributionPercent);
      contributionPercent >= matchLimit ==>
        EmployerMatch(e, salary, matchPercent, matchLimit) == salary * (matchLimit / 100.0) * (matchPercent / 100.0)
  {
    var e := EmployeeContribution(salary, contributionPercent);
    var cap := salary * (matchLimit / 100.0);
    if contributionPercent <= matchLimit {
      MulMonotone(salary, contributionPercent / 100.0, matchLimit / 100.0);
      MulMonotone(matchPercent / 100.0, e, cap);
    }
    if contributionPercent >= matchLimit {
      MulMonotone(salary, matchLimit / 100.0, contributionPercent / 100.0);
      MulMonotone(matchPercent / 100.0, cap, e);
    }
  }

  /** The percentages and rates that stay fixed over the projection. */
  datatype PlanTerms = PlanTerms(contributionPercent: real, matchPercent: real, matchLimit: real,
                                 monthlyReturn: real, salaryIncrease: real)

  /** One entry of `yearlyData`, amounts rounded to cents. */
  datatype YearRow = YearRow(year: nat, salary: real, balance: real,
                             employeeContribution: real, employerContribution: real)

  /** The salary after one yearly raise. */
  function Raise(salary: real, increase: real): real
  {
    salary * (1.0 + increase)
  }

  /** The year loop's numbers after `year` years. */
  datatype PlanState = PlanState(balance: real, salary: real, employeeTotal: real, employerTotal: real, year: nat)

  /** One year: both contributions from the current salary, twelve monthly
      steps that compound the balance and add a twelfth of each, and the
      raise. */
  function PlanYear(st: PlanState, t: PlanTerms): (r: PlanState)
    ensures r.year == st.year + 1
    ensures r.salary == Raise(st.salary, t.salaryIncrease)
  {
    var employee := EmployeeContribution(st.salary, t.contributionPercent);
    var employer := EmployerMatch(employee, st.salary, t.matchPercent, t.matchLimit);
    PlanState(Grow(st.balance, t.monthlyReturn, employee / 12.0 + employer / 12.0, 12),
              Raise(st.salary, t.salaryIncrease), st.employeeTotal + employee, st.employerTotal + employer,
              st.year + 1)
  }

  /** The years `year + 1 .. years` of the loop. */
  function Plan(st: PlanState, years: nat, t: PlanTerms): (r: PlanState)
    requires st.year <= years
    ensures r.year == years
    decreases years - st.year
  {
    if st.year < years then Plan(PlanYear(st, t), years, t) else st
  }

  /** The row a year pushes: its number, the salary it started with, the
      balance it ended with and its two contributions, in cents. */
  function YearRowOf(st: PlanState, t: PlanTerms): (row: YearRow)
    ensures row.year == st.year + 1 && row.salary == Cents(st.salary)
  {
    var employee := EmployeeContribution(st.salary, t.contributionPercent);
    var employer := EmployerMatch(employee, st.salary, t.matchPercent, t.matchLimit);
    YearRow(st.year + 1, Cents(st.salary), Cents(PlanYear(st, t).balance), Cents(employee), Cents(employer))
  }

  /** The rows the years `year + 1 .. years` push. */
  function Rows(st: PlanState, years: nat, t: PlanTerms): (rows: seq<YearRow>)
    requires st.year <= years
    ensures |rows| == years - st.year
    decreases years - st.year
  {
    if st.year < years then [YearRowOf(st, t)] + Rows(PlanYear(st, t), years, t) else []
  }

  /** The state before the first year. */
  function Start(currentBalance: real, annualSalary: real): PlanState
  {
    PlanState(currentBalance, annualSalary, 0.0, 0.0, 0)
  }

  /** The whole projection from the current balance and salary. */
  function Projection(currentBalance: real, annualSalary: real, years: nat, t: PlanTerms): PlanState
  {
    Plan(Start(currentBalance, annualSalary), years, t)
  }

  /** The report of `calculate401k`. */
  datatype Report401k = Report401k(
    currentBalance: real,
    startingSalary: real,
    contributionPercent: real,
    employerMatchPercent: real,
    employerMatchLimit: real,
    years: nat,
    finalBalance: real,
    totalEmployeeContributions: real,
    totalEmployerContributions: real,
    totalContributions: real,
    investmentGrowth: real,
    freeMoney: real,
    yearlyData: seq<YearRow>)

  /** `calculate401k`: the nested year and month loops. */
  method Calculate401k(currentBalance: real, annualSalary: real, contributionPercent: real,
                       employerMatchPercent: real, employerMatchLimit: real, annualReturn: real,
                       years: nat, annualSalaryIncrease: real)
    returns (r: Report401k)
    ensures var p := Projection(currentBalance, annualSalary, years,
                                PlanTerms(contributionPercent, employerMatchPercent, employerMatchLimit,
                                          annualReturn / 12.0, annualSalaryIncrease));
      && r.finalBalance == Cents(p.balance)
      && r.totalEmployeeContributions == Cents(p.employeeTotal)
      && r.totalEmployerContributions == Cents(p.employerTotal)
      && r.totalContributions == Cents(p.employeeTotal + p.employerTotal)
      && r.investmentGrowth == Cents(p.balance - (p.employeeTotal + p.employerTotal) - currentBalance)
      && r.yearlyData == Rows(Start(currentBalance, annualSalary), years,
                              PlanTerms(contributionPercent, employerMatchPercent, employerMatchLimit,
                                        annualReturn / 12.0, annualSalaryIncrease))
    ensures r.freeMoney == r.totalEmployerContributions
    ensures r.currentBalance == Cents(currentBalance) && r.startingSalary == Cents(annualSalary)
    ensures r.contributionPercent == contributionPercent && r.employerMatchPercent == employerMatchPercent
    ensures r.employerMatchLimit == employerMatchLimit && r.years == years
  {
    var monthlyReturn := annualReturn / 12.0;
    ghost var t := PlanTerms(contributionPercent, employerMatchPercent, employerMatchLimit,
                             monthlyReturn, annualSalaryIncrease);
    var balance := currentBalance;
    var totalEmployeeContributions := 0.0;
    var totalEmployerContributions := 0.0;
    var currentSalary := annualSalary;
    var yearlyData: seq<YearRow> := [];
    ghost var final := Projection(currentBalance, annualSalary, years, t);
    ghost var finalRows := Rows(Start(currentBalance, annualSalary), years, t);
    for year := 1 to years + 1
      invariant Plan(PlanState(balance, currentSalary, totalEmployeeContributions, totalEmployerContributions,
                               year - 1), years, t) == final
      invariant yearlyData + Rows(PlanState(balance, currentSalary, totalEmployeeContributions,
                                            totalEmployerContributions, year - 1), years, t) == finalRows
    {
      ghost var st := PlanState(balance, currentSalary, totalEmployeeContributions, totalEmployerContributions,
                                year - 1);
      ghost var old_rows := yearlyData;
      var yearEmployeeContribution := EmployeeContribution(currentSalary, contributionPercent);
      var yearEmployerContribution := EmployerMatch(yearEmployeeContribution, currentSalary,
                                                    employerMatchPercent, employerMatchLimit);
      totalEmployeeContributions := totalEmployeeContributions + yearEmployeeContribution;
      totalEmployerContributions := totalEmployerContributions + yearEmployerContribution;
      var monthlyEmployeeContribution := yearEmployeeContribution / 12.0;
      var monthlyEmployerContribution := yearEmployerContribution / 12.0;
      for month := 0 to 12
        invariant balance == Grow(st.balance, monthlyReturn, monthlyEmployeeContribution + monthlyEmployerContribution, month)
      {
        balance := balance * (1.0 + monthlyReturn) + monthlyEmployeeContribution + monthlyEmployerContribution;
      }
      yearlyData := yearlyData + [YearRow(year, Cents(currentSalary), Cents(balance),
                                          Cents(yearEmployeeContribution), Cents(yearEmployerContribution))];
      currentSalary := Raise(currentSalary, annualSalaryIncrease);
      assert PlanYear(st, t) == PlanState(balance, currentSalary, totalEmployeeContributions,
                                          totalEmployerContributions, year);
      assert yearlyData == old_rows + [YearRowOf(st, t)];
      assert Rows(st, years, t) == [YearRowOf(st, t)] + Rows(PlanYear(st, t), years, t);
      assert old_rows + Rows(st, years, t) == yearlyData + Rows(PlanYear(st, t), years, t);
    }
    var totalContributions := totalEmployeeContributions + totalEmployerContributions;
    var investmentGrowth := balance - totalContributions - currentBalance;
    r := Report401k(Cents(currentBalance), Cents(annualSalary), contributionPercent, employerMatchPercent,
                    employerMatchLimit, years, Cents(balance), Cents(totalEmployeeContributions),
                    Cents(totalEmployerContributions), Cents(totalContributions), Cents(investmentGrowth),
                    Cents(totalEmployerContributions), yearlyData);
  }

  /** The salary after `k` yearly raises. */
  function SalaryAfter(annualSalary: real, increase: real, k: nat): real
  {
    if k == 0 then annualSalary else Raise(SalaryAfter(annualSalary, increase, k - 1), increase)
  }

  /** `k` raises multiply the starting salary by `(1 + increase)^k`. */
  lemma {:induction false} SalaryClosedForm(annualSalary: real, increase: real, k: nat)
    ensures SalaryAfter(annualSalary, increase, k) == annualSalary * Pow(1.0 + increase, k)
  {
    if k > 0 {
      SalaryClosedForm(annualSalary, increase, k - 1);
      var p := Pow(1.0 + increase, k - 1);
      assert annualSalary * p * (1.0 + increase) == annualSalary * ((1.0 + increase) * p);
    }
  }

  /** The salary shown in the row of year `k + 1`, rounded to cents. */
  function RaisedSalary(annualSalary: real, increase: real, k: nat): real
  {
    Cents(SalaryAfter(annualSalary, increase, k))
  }

  /** Rows numbered from `offset + 1` on, each showing the salary raised
      once for every year before it. */
  ghost predicate RowsFollow(rows: seq<YearRow>, offset: nat, annualSalary: real, increase: real)
  {
    forall k :: 0 <= k < |rows| ==>
      rows[k].year == offset + k + 1 && rows[k].salary == RaisedSalary(annualSalary, increase, offset + k)
  }

  lemma {:induction false} PlanRows(st: PlanState, years: nat, t: PlanTerms, annualSalary: real)
    requires st.year <= years && st.salary == SalaryAfter(annualSalary, t.salaryIncrease, st.year)
    ensures RowsFollow(Rows(st, years, t), st.year, annualSalary, t.salaryIncrease)
    ensures Plan(st, years, t).salary == SalaryAfter(annualSalary, t.salaryIncrease, years)
    decreases years - st.year
  {
    if st.year < years {
      var next := PlanYear(st, t);
      PlanRows(next, years, t, annualSalary);
      var rows := Rows(st, years, t);
      var rest := Rows(next, years, t);
      assert rows == [YearRowOf(st, t)] + rest;
      forall k | 0 <= k < |rows|
        ensures rows[k].year == st.year + k + 1
        ensures rows[k].salary == RaisedSalary(annualSalary, t.salaryIncrease, st.year + k)
      {
        if k > 0 {
          assert rows[k] == rest[k - 1];
        }
      }
    }
  }

  /** `yearlyData` has one row per year 1..years, and the salary shown in
      year `k + 1` is the starting salary raised `k` times. */
  lemma ProjectionRows(currentBalance: real, annualSalary: real, years: nat, t: PlanTerms)
    ensures var rows := Rows(Start(currentBalance, annualSalary), years, t);
      |rows| == years
      && (forall k :: 0 <= k < years ==>
            rows[k].year == k + 1 && rows[k].salary == RaisedSalary(annualSalary, t.salaryIncrease, k))
    ensures Projection(currentBalance, annualSalary, years, t).salary
            == SalaryAfter(annualSalary, t.salaryIncrease, years)
  {
    PlanRows(Start(currentBalance, annualSalary), years, t, annualSalary);
  }

  /** Balance less both contribution totals: what compounding has added. */
  function Earned(st: PlanState): real
  {
    st.balance - st.employeeTotal - st.employerTotal
  }

  lemma {:induction false} PlanAtZeroReturn(st: PlanState, years: nat, t: PlanTerms)
    requires st.year <= years && t.monthlyReturn == 0.0
    ensures Earned(Plan(st, years, t)) == Earned(st)
    decreases years - st.year
  {
    if st.year < years {
      var e := EmployeeContribution(st.salary, t.contributionPercent);
      var m := EmployerMatch(e, st.salary, t.matchPercent, t.matchLimit);
      GrowAtZeroRate(st.balance, e / 12.0 + m / 12.0, 12);
      PlanAtZeroReturn(PlanYear(st, t), years, t);
    }
  }

  /** With no return the final balance is the starting balance plus every
      contribution. */
  lemma ProjectionAtZeroReturn(currentBalance: real, annualSalary: real, years: nat, t: PlanTerms)
    requires t.monthlyReturn == 0.0
    ensures var p := Projection(currentBalance, annualSalary, years, t);
      p.balance == currentBalance + (p.employeeTotal + p.employerTotal)
  {
    PlanAtZeroReturn(Start(currentBalance, annualSalary), years, t);
  }

  /** The terms under which nothing is ever withdrawn or lost. */
  predicate NonNegativeTerms(t: PlanTerms)
  {
    t.contributionPercent >= 0.0 && t.matchPercent >= 0.0 && t.matchLimit >= 0.0
    && t.monthlyReturn >= 0.0 && t.salaryIncrease >= -1.0
  }

  lemma {:induction false} PlanGrowthNonNegative(st: PlanState, years: nat, t: PlanTerms)
    requires st.year <= years && NonNegativeTerms(t) && st.balance >= 0.0 && st.salary >= 0.0
    ensures Earned(Plan(st, years, t)) >= Earned(st)
    decreases years - st.year
  {
    if st.year < years {
      var e := EmployeeContribution(st.salary, t.contributionPercent);
      MulMonotone(st.salary, 0.0, t.contributionPercent / 100.0);
      var cap := st.salary * (t.matchLimit / 100.0);
      MulMonotone(st.salary, 0.0, t.matchLimit / 100.0);
      MulMonotone(t.matchPercent / 100.0, 0.0, e);
      MulMonotone(t.matchPercent / 100.0, 0.0, cap);
      var m := EmployerMatch(e, st.salary, t.matchPercent, t.matchLimit);
      assert m >= 0.0;
      GrowAtLeastContributions(st.balance, t.monthlyReturn, e / 12.0 + m / 12.0, 12);
      MulMonotone(st.salary, 0.0, 1.0 + t.salaryIncrease);
      PlanGrowthNonNegative(PlanYear(st, t), years, t);
    }
  }

  /** With a non-negative start, salary, percentages and return, the
      investment growth is never negative. */
  lemma ProjectionGrowthNonNegative(currentBalance: real, annualSalary: real, years: nat, t: PlanTerms)
    requires currentBalance >= 0.0 && annualSalary >= 0.0 && NonNegativeTerms(t)
    ensures var p := Projection(currentBalance, annualSalary, years, t);
      p.balance - (p.employeeTotal + p.employerTotal) - currentBalance >= 0.0
  {
    PlanGrowthNonNegative(Start(currentBalance, annualSalary), years, t);
  }

  /** At a non-zero return each year's twelve steps are the closed-form
      future value of the opening balance and a twelfth of each contribution. */
  lemma YearClosedForm(st: PlanState, t: PlanTerms)
    requires t.monthlyReturn != 0.0
    ensures var e := EmployeeContribution(st.salary, t.contributionPercent);
      var m := EmployerMatch(e, st.salary, t.matchPercent, t.matchLimit);
      PlanYear(st, t).balance == FutureValue(st.balance, t.monthlyReturn, e / 12.0 + m / 12.0, 12)
  {
    var e := EmployeeContribution(st.salary, t.contributionPercent);
    var m := EmployerMatch(e, st.salary, t.matchPercent, t.matchLimit);
    GrowClosedForm(st.balance, t.monthlyReturn, e / 12.0 + m / 12.0, 12);
  }

  lemma {:induction false} PlanTotalsLevel(st: PlanState, years: nat, t: PlanTerms)
    requires st.year <= years && t.salaryIncrease == 0.0
    ensures var e := EmployeeContribution(st.salary, t.contributionPercent);
      var m := EmployerMatch(e, st.salary, t.matchPercent, t.matchLimit);
      var r := Plan(st, years, t);
      r.employeeTotal == st.employeeTotal + (years - st.year) as real * e
      && r.employerTotal == st.employerTotal + (years - st.year) as real * m
    decreases years - st.year
  {
    if st.year < years {
      var next := PlanYear(st, t);
      var e := EmployeeContribution(st.salary, t.contributionPercent);
      var m := EmployerMatch(e, st.salary, t.matchPercent, t.matchLimit);
      assert next.salary == st.salary;
      assert next.employeeTotal == st.employeeTotal + e && next.employerTotal == st.employerTotal + m;
      PlanTotalsLevel(next, years, t);
      var r := Plan(next, years, t);
      assert Plan(st, years, t) == r;
      var e2 := EmployeeContribution(next.salary, t.contributionPercent);
      var m2 := EmployerMatch(e2, next.salary, t.matchPercent, t.matchLimit);
      LevelStep(r.employeeTotal, st.employeeTotal, e, e2, years - next.year);
      LevelStep(r.employerTotal, st.employerTotal, m, m2, years - next.year);
    }
  }

  lemma LevelStep(after: real, before: real, x: real, x2: real, n: nat)
    requires x2 == x && after == before + x + n as real * x2
    ensures after == before + (n + 1) as real * x
  {
  }

  /** Without raises each year contributes the same, so the totals are
      `years` times the first year's contributions. */
  lemma ProjectionTotalsLevel(currentBalance: real, annualSalary: real, years: nat, t: PlanTerms)
    requires t.salaryIncrease == 0.0
    ensures var e := EmployeeContribution(annualSalary, t.contributionPercent);
      var p := Projection(currentBalance, annualSalary, years, t);
      p.employeeTotal == years as real * e
      && p.employerTotal == years as real * EmployerMatch(e, annualSalary, t.matchPercent, t.matchLimit)
  {
    PlanTotalsLevel(Start(currentBalance, annualSalary), years, t);
  }

  /** The report of `checkContributionLimits`; `maxPercent` is `None` where
      the division by a zero salary yields Infinity. */
  datatype LimitReport = LimitReport(currentContribution: real, employeeLimit: real, remainingSpace: real,
                                     canIncrease: bool, maxPercent: Option<real>, catchUpEligible: bool)

  /** The contribution percentage that reaches the limit exactly. */
  function MaxPercent(limit: real, annualSalary: real): (p: Option<real>)
    ensures p.Some? <==> annualSalary != 0.0
    ensures p.Some? ==> EmployeeContribution(annualSalary, p.value) == limit
  {
    if annualSalary == 0.0 then None
    else
      var p := (limit / annualSalary) * 100.0;
      assert annualSalary * (p / 100.0) == annualSalary * (limit / annualSalary);
      Some(p)
  }

  /** `checkContributionLimits`. */
  function CheckContributionLimits(annualSalary: real, contributionPercent: real, age: real): (r: LimitReport)
    ensures r.catchUpEligible <==> age >= CatchUpAge
    ensures r.employeeLimit == if age >= CatchUpAge then CatchUpLimit else BaseLimit
    ensures r.canIncrease <==> EmployeeContribution(annualSalary, contributionPercent) < r.employeeLimit
    ensures r.remainingSpace == Cents(r.employeeLimit - EmployeeContribution(annualSalary, contributionPercent))
    ensures r.currentContribution == Cents(EmployeeContribution(annualSalary, contributionPercent))
    ensures r.maxPercent.Some? <==> annualSalary != 0.0
  {
    var employeeLimit := if age >= CatchUpAge then CatchUpLimit else BaseLimit;
    var currentContribution := EmployeeContribution(annualSalary, contributionPercent);
    var maxPercent := MaxPercent(employeeLimit, annualSalary);
    LimitReport(Cents(currentContribution), employeeLimit, Cents(employeeLimit - currentContribution),
                currentContribution < employeeLimit,
                if maxPercent.Some? then Some(Cents(maxPercent.value)) else None,
                age >= CatchUpAge)
  }

  /** Below the percentage that reaches a limit, and only there, the
      contribution stays under the limit. */
  lemma BelowMaxPercent(annualSalary: real, contributionPercent: real, limit: real)
    requires annualSalary > 0.0
    ensures EmployeeContribution(annualSalary, contributionPercent) < limit
            <==> contributionPercent < MaxPercent(limit, annualSalary).value
  {
    var m := MaxPercent(limit, annualSalary).value;
    assert EmployeeContribution(annualSalary, m) == limit;
    if contributionPercent < m {
      MulStrict(annualSalary, contributionPercent / 100.0, m / 100.0);
    } else {
      MulMonotone(annualSalary, m / 100.0, contributionPercent / 100.0);
    }
  }

  /** On a positive salary there is room to contribute more exactly when the
      percentage is below the one that reaches the limit. */
  lemma CanIncreaseBelowMaxPercent(annualSalary: real, contributionPercent: real, age: real)
    requires annualSalary > 0.0
    ensures var r := CheckContributionLimits(annualSalary, contributionPercent, age);
      r.canIncrease <==> contributionPercent < MaxPercent(r.employeeLimit, annualSalary).value
  {
    var r := CheckContributionLimits(annualSalary, contributionPercent, age);
    BelowMaxPercent(annualSalary, contributionPercent, r.employeeLimit);
  }
}
