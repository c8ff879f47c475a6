/** Retirement income (js/formulas/retirement-income-formula.js): income
    from a withdrawal rate on savings plus the other monthly sources, the
    savings a target income requires, and a year-by-year drawdown with
    inflation-adjusted withdrawals. */
module RetirementIncome {
  import opened FinMath

  /** A month's withdrawal from `savings` at a yearly `withdrawalRate`. */
  function MonthlyWithdrawal(savings: real, withdrawalRate: real): real
  {
    savings * withdrawalRate / 12.0
  }

  /** The monthly income from all four sources. */
  function TotalMonthly(savings: real, socialSecurity: real, pension: real, otherIncome: real,
                        withdrawalRate: real): real
  {
    MonthlyWithdrawal(savings, withdrawalRate) + socialSecurity + pension + otherIncome
  }

  /** One set of income lines, in cents. */
  datatype IncomeLines = IncomeLines(savingsWithdrawal: real, socialSecurity: real, pension: real, other: real,
                                     total: real)

  /** Each source's share of the monthly total, in percent. */
  datatype IncomeSources = IncomeSources(savings: real, socialSecurity: real, pension: real, other: real)

  /** The report of `calculateRetirementIncome`; `incomeSources` is `None`
      where the division by a zero total yields NaN or Infinity. */
  datatype IncomeReport = IncomeReport(
    retirementSavings: real,
    withdrawalRate: real,
    monthlyIncome: IncomeLines,
    annualIncome: IncomeLines,
    incomeSources: Option<IncomeSources>)

  /** The shares of the four sources in `total`. */
  function SourcesOf(withdrawal: real, socialSecurity: real, pension: real, otherIncome: real,
                     total: real): Option<IncomeSources>
  {
    if total == 0.0 then None
    else Some(IncomeSources(Percent(withdrawal / total), Percent(socialSecurity / total),
                            Percent(pension / total), Percent(otherIncome / total)))
  }

  /** `calculateRetirementIncome`. */
  function CalculateRetirementIncome(retirementSavings: real, socialSecurity: real, pension: real,
                                     otherIncome: real, withdrawalRate: real): (r: IncomeReport)
    ensures var total := TotalMonthly(retirementSavings, socialSecurity, pension, otherIncome, withdrawalRate);
      && r.monthlyIncome.total == Cents(total)
      && r.annualIncome.total == Cents(total * 12.0)
      && r.monthlyIncome.savingsWithdrawal == Cents(MonthlyWithdrawal(retirementSavings, withdrawalRate))
      && r.annualIncome.savingsWithdrawal == Cents(retirementSavings * withdrawalRate)
      && (r.incomeSources.None? <==> total == 0.0)
  {
    var annualSavingsWithdrawal := retirementSavings * withdrawalRate;
    var monthlySavingsWithdrawal := MonthlyWithdrawal(retirementSavings, withdrawalRate);
    var totalMonthlyIncome := TotalMonthly(retirementSavings, socialSecurity, pension, otherIncome, withdrawalRate);
    var totalAnnualIncome := totalMonthlyIncome * 12.0;
    IncomeReport(Cents(retirementSavings), Percent(withdrawalRate),
                 IncomeLines(Cents(monthlySavingsWithdrawal), Cents(socialSecurity), Cents(pension),
                             Cents(otherIncome), Cents(totalMonthlyIncome)),
                 IncomeLines(Cents(annualSavingsWithdrawal), Cents(socialSecurity * 12.0), Cents(pension * 12.0),
                             Cents(otherIncome * 12.0), Cents(totalAnnualIncome)),
                 SourcesOf(monthlySavingsWithdrawal, socialSecurity, pension, otherIncome, totalMonthlyIncome))
  }

  /** The monthly withdrawal is a twelfth of the yearly one, and the yearly
      total is twelve monthly totals, each the sum of the four yearly lines. */
  lemma AnnualIsTwelveMonths(savings: real, socialSecurity: real, pension: real, otherIncome: real,
                             withdrawalRate: real)
    ensures MonthlyWithdrawal(savings, withdrawalRate) * 12.0 == savings * withdrawalRate
    ensures TotalMonthly(savings, socialSecurity, pension, otherIncome, withdrawalRate) * 12.0
            == savings * withdrawalRate + socialSecurity * 12.0 + pension * 12.0 + otherIncome * 12.0
  {
    var w := savings * withdrawalRate;
    assert w / 12.0 * 12.0 == w;
  }

  /** With a non-zero total the four shares, before rounding, make up the
      whole, so the rounded percentages add up to 100 within two cents of a
      percent. */
  lemma SourcesSumToHundred(withdrawal: real, socialSecurity: real, pension: real, otherIncome: real)
    requires withdrawal + socialSecurity + pension + otherIncome != 0.0
    ensures var total := withdrawal + socialSecurity + pension + otherIncome;
      var s := SourcesOf(withdrawal, socialSecurity, pension, otherIncome, total).value;
      100.0 - 0.02 < s.savings + s.socialSecurity + s.pension + s.other <= 100.0 + 0.02
  {
    var total := withdrawal + socialSecurity + pension + otherIncome;
    assert total == withdrawal + socialSecurity + pension + otherIncome;
    var a, b, c, d := withdrawal / total, socialSecurity / total, pension / total, otherIncome / total;
    SharesMakeWhole(a, b, c, d, withdrawal, socialSecurity, pension, otherIncome, total);
  }

  lemma SharesMakeWhole(a: real, b: real, c: real, d: real, w: real, x: real, y: real, z: real, total: real)
    requires total != 0.0 && total == w + x + y + z
    requires a == w / total && b == x / total && c == y / total && d == z / total
    ensures a + b + c + d == 1.0
  {
    assert a * total == w && b * total == x && c * total == y && d * total == z;
    assert (a + b + c + d - 1.0) * total == 0.0;
  }

  /** With non-negative sources and a positive total every share lies
      between 0 and 100 percent. */
  lemma SourcesWithinWhole(withdrawal: real, socialSecurity: real, pension: real, otherIncome: real)
    requires withdrawal >= 0.0 && socialSecurity >= 0.0 && pension >= 0.0 && otherIncome >= 0.0
    requires withdrawal + socialSecurity + pension + otherIncome > 0.0
    ensures var total := withdrawal + socialSecurity + pension + otherIncome;
      var s := SourcesOf(withdrawal, socialSecurity, pension, otherIncome, total).value;
      && 0.0 <= s.savings <= 100.0 && 0.0 <= s.socialSecurity <= 100.0
      && 0.0 <= s.pension <= 100.0 && 0.0 <= s.other <= 100.0
  {
    var total := withdrawal + socialSecurity + pension + otherIncome;
    PercentWithin(withdrawal, total, 1.0);
    PercentWithin(socialSecurity, total, 1.0);
    PercentWithin(pension, total, 1.0);
    PercentWithin(otherIncome, total, 1.0);
    assert Percent(1.0) == 100.0;
  }

  /** The monthly income still missing once Social Security and the pension
      are counted, never negative. */
  function IncomeGap(targetMonthlyIncome: real, socialSecurity: real, pension: real): (gap: real)
    ensures gap >= 0.0
    ensures gap == 0.0 <==> socialSecurity + pension >= targetMonthlyIncome
    ensures gap > 0.0 ==> socialSecurity + pension + gap == targetMonthlyIncome
  {
    Max(0.0, targetMonthlyIncome - socialSecurity - pension)
  }

  /** The savings whose withdrawal covers the gap. The division by the rate
      is unguarded, so a zero rate is outside its domain. */
  function SavingsFor(incomeGap: real, withdrawalRate: real): real
    requires withdrawalRate != 0.0
  {
    incomeGap * 12.0 / withdrawalRate
  }

  /** The report of `calculateRequiredSavings`. */
  datatype RequiredReport = RequiredReport(targetMonthlyIncome: real, guaranteedIncome: real, incomeGap: real,
                                           requiredSavings: real, withdrawalRate: real)

  /** `calculateRequiredSavings`. */
  function CalculateRequiredSavings(targetMonthlyIncome: real, socialSecurity: real, pension: real,
                                    withdrawalRate: real): (r: RequiredReport)
    requires withdrawalRate != 0.0
    ensures r.incomeGap >= 0.0
    ensures r.incomeGap == Cents(IncomeGap(targetMonthlyIncome, socialSecurity, pension))
    ensures r.requiredSavings == Cents(SavingsFor(IncomeGap(targetMonthlyIncome, socialSecurity, pension),
                                                  withdrawalRate))
    ensures r.guaranteedIncome == Cents(socialSecurity + pension)
  {
    var incomeGap := IncomeGap(targetMonthlyIncome, socialSecurity, pension);
    CentsNonNegative(incomeGap);
    RequiredReport(Cents(targetMonthlyIncome), Cents(socialSecurity + pension), Cents(incomeGap),
                   Cents(SavingsFor(incomeGap, withdrawalRate)), Percent(withdrawalRate))
  }

  /** Withdrawing at the rate from the required savings yields exactly the
      monthly gap. */
  lemma SavingsForRoundTrip(incomeGap: real, withdrawalRate: real)
    requires withdrawalRate != 0.0
    ensures MonthlyWithdrawal(SavingsFor(incomeGap, withdrawalRate), withdrawalRate) == incomeGap
  {
    var s := SavingsFor(incomeGap, withdrawalRate);
    assert s * withdrawalRate == incomeGap * 12.0;
  }

  /** Retiring with the required savings and no other income, the total
      monthly income reaches the target whenever the guaranteed sources fall
      short of it, and exceeds nothing otherwise. */
  lemma RequiredSavingsMeetTarget(targetMonthlyIncome: real, socialSecurity: real, pension: real,
                                  withdrawalRate: real)
    requires withdrawalRate != 0.0
    ensures var s := SavingsFor(IncomeGap(targetMonthlyIncome, socialSecurity, pension), withdrawalRate);
      TotalMonthly(s, socialSecurity, pension, 0.0, withdrawalRate)
      == Max(targetMonthlyIncome, socialSecurity + pension)
  {
    SavingsForRoundTrip(IncomeGap(targetMonthlyIncome, socialSecurity, pension), withdrawalRate);
  }

  /** The drawdown between years: the balance and the monthly income the
      next year starts with. */
  datatype Drawdown = Drawdown(balance: real, income: real)

  /** A year's withdrawal: twelve months of income. */
  function Withdrawal(monthlyIncome: real): real
  {
    monthlyIncome * 12.0
  }

  /** A year's return on `balance`. */
  function YearReturn(balance: real, annualReturn: real): real
  {
    balance * annualReturn
  }

  /** The balance at the end of a year. */
  function YearEnd(balance: real, investmentReturn: real, annualWithdrawal: real): real
  {
    balance + investmentReturn - annualWithdrawal
  }

  /** Monthly income raised by a year's inflation. */
  function Inflate(monthlyIncome: real, inflation: real): real
  {
    monthlyIncome * (1.0 + inflation)
  }

  /** One year: add the return, take twelve months of income, then raise the
      income by inflation. */
  function NextYear(d: Drawdown, annualReturn: real, inflation: real): Drawdown
  {
    Drawdown(YearEnd(d.balance, YearReturn(d.balance, annualReturn), Withdrawal(d.income)),
             Inflate(d.income, inflation))
  }

  /** The drawdown after `k` years. */
  function DrawdownAt(startingSavings: real, monthlyIncome: real, annualReturn: real, inflation: real,
                      k: nat): Drawdown
  {
    if k == 0 then Drawdown(startingSavings, monthlyIncome)
    else NextYear(DrawdownAt(startingSavings, monthlyIncome, annualReturn, inflation, k - 1), annualReturn, inflation)
  }

  /** One row of `projectRetirementYears`, amounts in cents. */
  datatype ProjectionRow = ProjectionRow(year: nat, startingBalance: real, withdrawals: real,
                                         investmentReturn: real, endingBalance: real, monthlyIncome: real)

  /** The row the loop pushes once `balance` holds the year's end. */
  function RowOf(year: nat, balance: real, annualWithdrawal: real, investmentReturn: real,
                 monthlyIncome: real): ProjectionRow
  {
    ProjectionRow(year, Cents(balance + annualWithdrawal - investmentReturn), Cents(annualWithdrawal),
                  Cents(investmentReturn), Cents(Max(0.0, balance)), Cents(monthlyIncome))
  }

  /** The row for a year that starts from `d`. */
  function RowFrom(year: nat, d: Drawdown, annualReturn: real): ProjectionRow
  {
    var annualWithdrawal := Withdrawal(d.income);
    var investmentReturn := YearReturn(d.balance, annualReturn);
    RowOf(year, YearEnd(d.balance, investmentReturn, annualWithdrawal), annualWithdrawal, investmentReturn, d.income)
  }

  /** `years` rows are produced: every year before starts with a positive
      balance, and the run stops at 50 years or at the first year whose
      balance is not positive. */
  ghost predicate RunsFor(startingSavings: real, monthlyIncome: real, annualReturn: real, inflation: real,
                          years: nat)
  {
    && years <= 50
    && (years == 50 || DrawdownAt(startingSavings, monthlyIncome, annualReturn, inflation, years).balance <= 0.0)
    && forall k: nat :: k < years ==>
         DrawdownAt(startingSavings, monthlyIncome, annualReturn, inflation, k).balance > 0.0
  }

  /** `projectRetirementYears`. */
  method ProjectRetirementYears(startingSavings: real, monthlyIncome: real, annualReturn: real, inflation: real)
    returns (projections: seq<ProjectionRow>)
    ensures RunsFor(startingSavings, monthlyIncome, annualReturn, inflation, |projections|)
    ensures forall k: nat :: k < |projections| ==>
      projections[k] == RowFrom(k, DrawdownAt(startingSavings, monthlyIncome, annualReturn, inflation, k),
                                annualReturn)
  {
    projections := [];
    var balance := startingSavings;
    var currentIncome := monthlyIncome;
    var year: nat := 0;
    while balance > 0.0 && year < 50
      invariant year <= 50 && |projections| == year
      invariant Drawdown(balance, currentIncome)
                == DrawdownAt(startingSavings, monthlyIncome, annualReturn, inflation, year)
      invariant forall k: nat :: k < year ==>
        DrawdownAt(startingSavings, monthlyIncome, annualReturn, inflation, k).balance > 0.0
      invariant forall k: nat :: k < year ==>
        projections[k] == RowFrom(k, DrawdownAt(startingSavings, monthlyIncome, annualReturn, inflation, k),
                                  annualReturn)
      decreases 50 - year
    {
      var annualWithdrawal := Withdrawal(currentIncome);
      var investmentReturn := YearReturn(balance, annualReturn);
      balance := YearEnd(balance, investmentReturn, annualWithdrawal);
      projections := projections + [RowOf(year, balance, annualWithdrawal, investmentReturn, currentIncome)];
      currentIncome := Inflate(currentIncome, inflation);
      year := year + 1;
    }
  }

  /** A row starts from the balance the year begins with and never ends
      below zero. */
  lemma RowStartsAtBalance(year: nat, d: Drawdown, annualReturn: real)
    ensures RowFrom(year, d, annualReturn).startingBalance == Cents(d.balance)
    ensures RowFrom(year, d, annualReturn).endingBalance >= 0.0
  {
    var w := Withdrawal(d.income);
    var ret := YearReturn(d.balance, annualReturn);
    var balance := YearEnd(d.balance, ret, w);
    assert balance + w - ret == d.balance;
    CentsNonNegative(Max(0.0, balance));
  }

  /** Consecutive rows chain: a year that leaves a positive balance ends
      where the next one starts. */
  lemma RowsChain(startingSavings: real, monthlyIncome: real, annualReturn: real, inflation: real, k: nat)
    requires DrawdownAt(startingSavings, monthlyIncome, annualReturn, inflation, k + 1).balance > 0.0
    ensures var d := DrawdownAt(startingSavings, monthlyIncome, annualReturn, inflation, k);
      var e := DrawdownAt(startingSavings, monthlyIncome, annualReturn, inflation, k + 1);
      RowFrom(k, d, annualReturn).endingBalance == RowFrom(k + 1, e, annualReturn).startingBalance
  {
    var e := DrawdownAt(startingSavings, monthlyIncome, annualReturn, inflation, k + 1);
    RowStartsAtBalance(k + 1, e, annualReturn);
  }

  /** The monthly income of year `k` is the first year's raised by inflation
      `k` times. */
  lemma {:induction false} IncomeGrowsWithInflation(startingSavings: real, monthlyIncome: real, annualReturn: real,
                                                    inflation: real, k: nat)
    ensures DrawdownAt(startingSavings, monthlyIncome, annualReturn, inflation, k).income
            == monthlyIncome * Pow(1.0 + inflation, k)
  {
    if k > 0 {
      IncomeGrowsWithInflation(startingSavings, monthlyIncome, annualReturn, inflation, k - 1);
      var before := DrawdownAt(startingSavings, monthlyIncome, annualReturn, inflation, k - 1).income;
      var p := Pow(1.0 + inflation, k - 1);
      assert DrawdownAt(startingSavings, monthlyIncome, annualReturn, inflation, k).income
             == Inflate(before, inflation);
      assert Pow(1.0 + inflation, k) == (1.0 + inflation) * p;
      assert monthlyIncome * p * (1.0 + inflation) == monthlyIncome * ((1.0 + inflation) * p);
    }
  }

  /** At most one row count fits the description. */
  lemma RunsForUnique(startingSavings: real, monthlyIncome: real, annualReturn: real, inflation: real,
                      y1: nat, y2: nat)
    requires RunsFor(startingSavings, monthlyIncome, annualReturn, inflation, y1)
    requires RunsFor(startingSavings, monthlyIncome, annualReturn, inflation, y2)
    ensures y1 == y2
  {
    assert y1 < y2 ==> DrawdownAt(startingSavings, monthlyIncome, annualReturn, inflation, y1).balance > 0.0;
    assert y2 < y1 ==> DrawdownAt(startingSavings, monthlyIncome, annualReturn, inflation, y2).balance > 0.0;
  }
}
