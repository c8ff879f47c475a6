/** Retirement savings (js/formulas/retirement-savings-formula.js): the
    savings projected at retirement by the monthly closed form, the savings
    the 4% rule requires, the gap and the monthly contribution that closes
    it, a year-by-year projection, and how long savings last once
    withdrawals begin. */
module RetirementSavings {
  import opened FinMath

  /** The 4% withdrawal rule. */
  const WithdrawalRate: real := 0.04

  /** `(1 + monthlyReturn)^months`, for a month count of either sign (the
      ages are not checked, so the count can be negative). */
  function Factor(monthlyReturn: real, months: int): real
    requires 1.0 + monthlyReturn != 0.0 || months >= 0
  {
    PowInt(1.0 + monthlyReturn, months)
  }

  /** What a monthly contribution grows to over `months` months, by the
      closed form of an annuity. */
  function ContributionValue(monthlyContribution: real, monthlyReturn: real, months: int): real
    requires monthlyReturn != 0.0
    requires 1.0 + monthlyReturn != 0.0 || months >= 0
  {
    monthlyContribution * (Factor(monthlyReturn, months) - 1.0) / monthlyReturn
  }

  /** The savings projected at retirement: the current savings compounded,
      plus the contributions' value. The closed form divides by the monthly
      return, so a zero return is outside its domain. */
  function Projected(currentSavings: real, monthlyContribution: real, monthlyReturn: real, months: int): real
    requires monthlyReturn != 0.0
    requires 1.0 + monthlyReturn != 0.0 || months >= 0
  {
    currentSavings * Factor(monthlyReturn, months) + ContributionValue(monthlyContribution, monthlyReturn, months)
  }

  /** The savings whose 4% covers the desired income. */
  function RequiredSavings(desiredIncome: real): (required: real)
    ensures required * WithdrawalRate == desiredIncome
  {
    desiredIncome / WithdrawalRate
  }

  /** What is still missing at retirement, never negative. */
  function SavingsGap(required: real, projected: real): (gap: real)
    ensures gap >= 0.0
    ensures gap == 0.0 <==> projected >= required
    ensures gap > 0.0 ==> projected + gap == required
  {
    Max(0.0, required - projected)
  }

  /** The monthly contribution that grows to the gap, 0 when there is no
      gap, `None` where the division by `(1 + r)^months - 1 = 0` yields
      Infinity. */
  function RequiredMonthly(gap: real, monthlyReturn: real, months: int): Option<real>
    requires monthlyReturn != 0.0
    requires 1.0 + monthlyReturn != 0.0 || months >= 0
  {
    if gap > 0.0 then
      var q := Factor(monthlyReturn, months);
      if q - 1.0 == 0.0 then None else Some(gap * monthlyReturn / (q - 1.0))
    else Some(0.0)
  }

  /** The required monthly contribution, fed back through the contribution
      formula, reproduces the gap; it is 0 exactly when there is no gap, and
      is missing only when the growth factor is 1. */
  lemma RequiredMonthlyRoundTrip(gap: real, monthlyReturn: real, months: int)
    requires monthlyReturn != 0.0
    requires 1.0 + monthlyReturn != 0.0 || months >= 0
    requires gap >= 0.0
    ensures RequiredMonthly(gap, monthlyReturn, months).None?
            <==> gap > 0.0 && Factor(monthlyReturn, months) == 1.0
    ensures RequiredMonthly(gap, monthlyReturn, months) == Some(0.0) <==> gap == 0.0
    ensures RequiredMonthly(gap, monthlyReturn, months).Some? ==>
      ContributionValue(RequiredMonthly(gap, monthlyReturn, months).value, monthlyReturn, months) == gap
  {
    var q := Factor(monthlyReturn, months);
    if gap > 0.0 && q - 1.0 != 0.0 {
      var m := gap * monthlyReturn / (q - 1.0);
      assert m * (q - 1.0) == gap * monthlyReturn;
      DivideCancel(m * (q - 1.0), monthlyReturn, gap);
      assert m != 0.0;
    } else if gap == 0.0 {
      assert Factor(monthlyReturn, months) * 0.0 == 0.0;
      DivideCancel(0.0 * (q - 1.0), monthlyReturn, 0.0);
    }
  }

  /** The savings after `k` years of the yearly projection: a yearly
      return and twelve monthly contributions each year. */
  function YearlyBalance(currentSavings: real, monthlyContribution: real, annualReturn: real, k: nat): real
  {
    Grow(currentSavings, annualReturn, monthlyContribution * 12.0, k)
  }

  /** Twelve monthly contributions for each of `k` years. */
  function ContributedBy(monthlyContribution: real, k: real): real
  {
    k * 12.0 * monthlyContribution
  }

  /** One row of the yearly projection, amounts in cents. */
  datatype AgeRow = AgeRow(age: int, balance: real, contributions: real)

  /** The row `k` years after `currentAge`. */
  function AgeRowAt(currentAge: int, currentSavings: real, monthlyContribution: real, annualReturn: real,
                    k: nat): AgeRow
  {
    AgeRow(currentAge + k, Cents(YearlyBalance(currentSavings, monthlyContribution, annualReturn, k)),
           Cents(ContributedBy(monthlyContribution, k as real)))
  }

  /** The report of `calculateRetirementSavings`; `requiredMonthlyContribution`
      is `None` where it is Infinity. */
  datatype SavingsReport = SavingsReport(
    currentAge: int,
    retirementAge: int,
    yearsToRetirement: int,
    currentSavings: real,
    monthlyContribution: real,
    projectedSavings: real,
    requiredSavings: real,
    savingsGap: real,
    requiredMonthlyContribution: Option<real>,
    onTrack: bool,
    yearlyData: seq<AgeRow>,
    safeWithdrawal: real)

  /** The yearly loop of `calculateRetirementSavings`: one row per age from
      the current age to the retirement age, each showing the balance
      grown a year at a time and the contributions made so far. */
  method YearlyProjection(currentAge: int, retirementAge: int, currentSavings: real, monthlyContribution: real,
                          annualReturn: real)
    returns (yearlyData: seq<AgeRow>)
    ensures |yearlyData| == if currentAge <= retirementAge then retirementAge - currentAge + 1 else 0
    ensures forall k: nat :: k < |yearlyData| ==>
      yearlyData[k] == AgeRowAt(currentAge, currentSavings, monthlyContribution, annualReturn, k)
  {
    yearlyData := [];
    var runningBalance := currentSavings;
    var year := currentAge;
    while year <= retirementAge
      invariant currentAge <= year && (year <= retirementAge + 1 || year == currentAge)
      invariant |yearlyData| == year - currentAge
      invariant runningBalance == YearlyBalance(currentSavings, monthlyContribution, annualReturn, year - currentAge)
      invariant forall k: nat :: k < |yearlyData| ==>
        yearlyData[k] == AgeRowAt(currentAge, currentSavings, monthlyContribution, annualReturn, k)
      decreases retirementAge - year
    {
      var k: nat := year - currentAge;
      var row := AgeRow(year, Cents(runningBalance), Cents(ContributedBy(monthlyContribution, k as real)));
      assert row == AgeRowAt(currentAge, currentSavings, monthlyContribution, annualReturn, k);
      yearlyData := yearlyData + [row];
      GrowNext(currentSavings, annualReturn, monthlyContribution * 12.0, k);
      runningBalance := runningBalance * (1.0 + annualReturn) + monthlyContribution * 12.0;
      year := year + 1;
    }
  }

  /** `calculateRetirementSavings`. */
  method CalculateRetirementSavings(currentAge: int, retirementAge: int, currentSavings: real,
                                    monthlyContribution: real, annualReturn: real, desiredIncome: real)
    returns (r: SavingsReport)
    requires annualReturn != 0.0
    requires 1.0 + annualReturn / 12.0 != 0.0 || currentAge <= retirementAge
    ensures var months := (retirementAge - currentAge) * 12;
      var monthlyReturn := annualReturn / 12.0;
      var projected := Projected(currentSavings, monthlyContribution, monthlyReturn, months);
      var required := RequiredSavings(desiredIncome);
      var gap := SavingsGap(required, projected);
      var monthly := RequiredMonthly(gap, monthlyReturn, months);
      && r.currentAge == currentAge && r.retirementAge == retirementAge
      && r.yearsToRetirement == retirementAge - currentAge
      && r.currentSavings == Cents(currentSavings)
      && r.monthlyContribution == Cents(monthlyContribution)
      && r.projectedSavings == Cents(projected)
      && r.requiredSavings == Cents(required)
      && r.savingsGap == Cents(gap)
      && r.requiredMonthlyContribution == (if monthly.None? then None else Some(Cents(monthly.value)))
      && (r.onTrack <==> projected >= required)
      && r.safeWithdrawal == Cents(projected * WithdrawalRate)
    ensures |r.yearlyData| == if currentAge <= retirementAge then retirementAge - currentAge + 1 else 0
    ensures forall k: nat :: k < |r.yearlyData| ==>
      r.yearlyData[k] == AgeRowAt(currentAge, currentSavings, monthlyContribution, annualReturn, k)
  {
    var yearsToRetirement := retirementAge - currentAge;
    var monthsToRetirement := yearsToRetirement * 12;
    var monthlyReturn := annualReturn / 12.0;
    var projectedSavings := Projected(currentSavings, monthlyContribution, monthlyReturn, monthsToRetirement);
    var requiredSavings := RequiredSavings(desiredIncome);
    var savingsGap := SavingsGap(requiredSavings, projectedSavings);
    var requiredMonthlyContribution := RequiredMonthly(savingsGap, monthlyReturn, monthsToRetirement);
    var yearlyData := YearlyProjection(currentAge, retirementAge, currentSavings, monthlyContribution, annualReturn);
    r := SavingsReport(currentAge, retirementAge, yearsToRetirement, Cents(currentSavings),
                       Cents(monthlyContribution), Cents(projectedSavings), Cents(requiredSavings),
                       Cents(savingsGap),
                       if requiredMonthlyContribution.None? then None
                       else Some(Cents(requiredMonthlyContribution.value)),
                       projectedSavings >= requiredSavings, yearlyData, Cents(projectedSavings * WithdrawalRate));
  }

  /** The first row is the current age with the current savings and nothing
      contributed yet. */
  lemma FirstAgeRow(currentAge: int, currentSavings: real, monthlyContribution: real, annualReturn: real)
    ensures AgeRowAt(currentAge, currentSavings, monthlyContribution, annualReturn, 0)
            == AgeRow(currentAge, Cents(currentSavings), 0.0)
  {
    assert ContributedBy(monthlyContribution, 0.0) == 0.0;
    assert Cents(0.0) == 0.0;
  }

  /** On track means no gap, and then no extra contribution is required;
      otherwise the gap is positive. */
  lemma OnTrackMeansNoGap(currentSavings: real, monthlyContribution: real, monthlyReturn: real, months: int,
                          desiredIncome: real)
    requires monthlyReturn != 0.0
    requires 1.0 + monthlyReturn != 0.0 || months >= 0
    ensures var projected := Projected(currentSavings, monthlyContribution, monthlyReturn, months);
      var gap := SavingsGap(RequiredSavings(desiredIncome), projected);
      && (projected >= RequiredSavings(desiredIncome) <==> gap == 0.0)
      && (gap == 0.0 <==> RequiredMonthly(gap, monthlyReturn, months) == Some(0.0))
  {
    var projected := Projected(currentSavings, monthlyContribution, monthlyReturn, months);
    RequiredMonthlyRoundTrip(SavingsGap(RequiredSavings(desiredIncome), projected), monthlyReturn, months);
  }

  /** When on track, the safe withdrawal of 4% of the projection covers the
      desired income. */
  lemma OnTrackCoversIncome(projected: real, desiredIncome: real)
    requires projected >= RequiredSavings(desiredIncome)
    ensures projected * WithdrawalRate >= desiredIncome
  {
    MulMonotone(WithdrawalRate, RequiredSavings(desiredIncome), projected);
  }

  /** With monthly contributions but no starting savings, the projection is
      the contributions' value, and the gap's required contribution added to
      the plan's own closes the gap exactly. */
  lemma TopUpReachesRequired(monthlyContribution: real, monthlyReturn: real, months: int, desiredIncome: real)
    requires monthlyReturn != 0.0
    requires 1.0 + monthlyReturn != 0.0 || months >= 0
    ensures var projected := Projected(0.0, monthlyContribution, monthlyReturn, months);
      var required := RequiredSavings(desiredIncome);
      var extra := RequiredMonthly(SavingsGap(required, projected), monthlyReturn, months);
      extra.Some? && projected < required ==>
        Projected(0.0, monthlyContribution + extra.value, monthlyReturn, months) == required
  {
    var projected := Projected(0.0, monthlyContribution, monthlyReturn, months);
    var required := RequiredSavings(desiredIncome);
    var gap := SavingsGap(required, projected);
    var extra := RequiredMonthly(gap, monthlyReturn, months);
    if extra.Some? && projected < required {
      RequiredMonthlyRoundTrip(gap, monthlyReturn, months);
      ContributionSum(monthlyContribution, extra.value, monthlyReturn, months);
      assert 0.0 * Factor(monthlyReturn, months) == 0.0;
    }
  }

  /** The contribution formula adds up over the contributions. */
  lemma ContributionSum(a: real, b: real, monthlyReturn: real, months: int)
    requires monthlyReturn != 0.0
    requires 1.0 + monthlyReturn != 0.0 || months >= 0
    ensures ContributionValue(a + b, monthlyReturn, months)
            == ContributionValue(a, monthlyReturn, months) + ContributionValue(b, monthlyReturn, months)
  {
    var q := Factor(monthlyReturn, months) - 1.0;
    var x := a * q / monthlyReturn;
    var y := b * q / monthlyReturn;
    assert x * monthlyReturn == a * q && y * monthlyReturn == b * q;
    assert (x + y) * monthlyReturn == (a + b) * q;
    DivideCancel((a + b) * q, monthlyReturn, x + y);
  }

  /** The balance `k` years into retirement, after each year's return and
      withdrawal. */
  function Drawn(startingBalance: real, annualReturn: real, annualWithdrawal: real, k: nat): real
  {
    Grow(startingBalance, annualReturn, -annualWithdrawal, k)
  }

  /** `years` is the first year at which the balance is no longer positive,
      or 100 if it is still positive after 99 years. */
  ghost predicate LastsFor(startingBalance: real, annualReturn: real, annualWithdrawal: real, years: nat)
  {
    && years <= 100
    && (years == 100 || Drawn(startingBalance, annualReturn, annualWithdrawal, years) <= 0.0)
    && forall k: nat :: k < years ==> Drawn(startingBalance, annualReturn, annualWithdrawal, k) > 0.0
  }

  /** `calculateSavingsLongevity`; `None` stands for Infinity, returned when
      the withdrawal is below the return on the starting balance. */
  method CalculateSavingsLongevity(startingBalance: real, annualWithdrawal: real, annualReturn: real)
    returns (years: Option<nat>)
    ensures years.None? <==> annualWithdrawal < startingBalance * annualReturn
    ensures years.Some? ==> LastsFor(startingBalance, annualReturn, annualWithdrawal, years.value)
  {
    if annualWithdrawal >= startingBalance * annualReturn {
      var balance := startingBalance;
      var n: nat := 0;
      while balance > 0.0 && n < 100
        invariant n <= 100
        invariant balance == Drawn(startingBalance, annualReturn, annualWithdrawal, n)
        invariant forall k: nat :: k < n ==> Drawn(startingBalance, annualReturn, annualWithdrawal, k) > 0.0
        decreases 100 - n
      {
        balance := balance * (1.0 + annualReturn) - annualWithdrawal;
        n := n + 1;
      }
      return Some(n);
    }
    return None;
  }

  /** At most one year count fits the description: the result is determined
      by the inputs. */
  lemma LastsForUnique(startingBalance: real, annualReturn: real, annualWithdrawal: real, y1: nat, y2: nat)
    requires LastsFor(startingBalance, annualReturn, annualWithdrawal, y1)
    requires LastsFor(startingBalance, annualReturn, annualWithdrawal, y2)
    ensures y1 == y2
  {
    assert y1 < y2 ==> Drawn(startingBalance, annualReturn, annualWithdrawal, y1) > 0.0;
    assert y2 < y1 ==> Drawn(startingBalance, annualReturn, annualWithdrawal, y2) > 0.0;
  }

  /** Without a return a positive balance lasts the whole years it covers
      and the part year in which it runs out, capped at 100 years. */
  lemma LastsForAtZeroReturn(startingBalance: real, annualWithdrawal: real, years: nat)
    requires startingBalance > 0.0 && annualWithdrawal > 0.0
    requires LastsFor(startingBalance, 0.0, annualWithdrawal, years)
    ensures years == if Ceil(startingBalance / annualWithdrawal) < 100
                     then Ceil(startingBalance / annualWithdrawal) else 100
  {
    var x := startingBalance / annualWithdrawal;
    assert x * annualWithdrawal == startingBalance;
    if years < 100 {
      GrowAtZeroRate(startingBalance, -annualWithdrawal, years);
      assert years > 0 by {
        assert Drawn(startingBalance, 0.0, annualWithdrawal, 0) > 0.0;
      }
      var m: nat := years - 1;
      GrowAtZeroRate(startingBalance, -annualWithdrawal, m);
      assert Drawn(startingBalance, 0.0, annualWithdrawal, m) > 0.0;
      var later, earlier := years as real, m as real;
      assert startingBalance + earlier * -annualWithdrawal > 0.0;
      assert startingBalance + later * -annualWithdrawal <= 0.0;
      AtMostMultiple(x, annualWithdrawal, later, startingBalance);
      BelowMultiple(x, annualWithdrawal, earlier, startingBalance);
    } else {
      GrowAtZeroRate(startingBalance, -annualWithdrawal, 99);
      assert Drawn(startingBalance, 0.0, annualWithdrawal, 99) > 0.0;
      BelowMultiple(x, annualWithdrawal, 99.0, startingBalance);
    }
  }

  lemma AtMostMultiple(x: real, w: real, n: real, b: real)
    requires w > 0.0 && x * w == b && b + n * -w <= 0.0
    ensures x <= n
  {
    if x > n {
      MulStrict(w, n, x);
    }
  }

  lemma BelowMultiple(x: real, w: real, n: real, b: real)
    requires w > 0.0 && x * w == b && b + n * -w > 0.0
    ensures x > n
  {
    if x <= n {
      MulMonotone(w, x, n);
    }
  }
}
