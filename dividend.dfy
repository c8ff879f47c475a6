/** Dividends (js/formulas/dividend-formula.js): yield and income of a
    holding, a year-by-year projection of a growing dividend, a dividend
    reinvestment scenario, and yield on cost. */
module Dividend {
  import opened FinMath

  /** The dividend per share `year` years out, growing at `growth` a year. */
  function DividendAt(annualDividend: real, growth: real, year: nat): real
  {
    annualDividend * Pow(1.0 + growth, year)
  }

  /** One year's growth of the dividend per share. */
  function NextDividend(dividend: real, growth: real): real
  {
    dividend * (1.0 + growth)
  }

  /** A year's income from `shares` shares paying `dividend` each. */
  function YearIncome(dividend: real, shares: real): real
  {
    dividend * shares
  }

  /** The dividend income received over the first `year` years, without
      reinvesting it. */
  function Cumulative(annualDividend: real, growth: real, shares: real, year: nat): real
  {
    if year == 0 then 0.0
    else Cumulative(annualDividend, growth, shares, year - 1) + YearIncome(DividendAt(annualDividend, growth, year), shares)
  }

  /** The shares a year's dividend buys at `sharePrice`. */
  function NewShares(dividend: real, held: real, sharePrice: real): real
    requires sharePrice != 0.0
  {
    YearIncome(dividend, held) / sharePrice
  }

  /** The value of `shares` shares at `sharePrice`. */
  function ValueOf(shares: real, sharePrice: real): real
  {
    shares * sharePrice
  }

  /** The shares held after `year` years when every year's dividend buys
      more shares at `sharePrice`. */
  function ReinvestedShares(annualDividend: real, growth: real, sharePrice: real, shares: real, year: nat): real
    requires sharePrice != 0.0
  {
    if year == 0 then shares
    else
      var held := ReinvestedShares(annualDividend, growth, sharePrice, shares, year - 1);
      held + NewShares(DividendAt(annualDividend, growth, year), held, sharePrice)
  }

  /** `calculateYieldOnCost`: the dividend as a percentage of the cost per
      share, to two decimals. */
  function CalculateYieldOnCost(costBasis: real, currentDividend: real): (yieldOnCost: real)
    requires costBasis != 0.0
    ensures currentDividend / costBasis * 100.0 - 0.005 < yieldOnCost <= currentDividend / costBasis * 100.0 + 0.005
  {
    Percent(currentDividend / costBasis)
  }

  datatype ProjectionRow = ProjectionRow(year: nat, dividendPerShare: real, annualIncome: real,
                                         yieldOnCost: real, cumulativeDividends: real)

  /** A projection row from the year's dividend per share and the running
      total of income. */
  function RowOf(year: nat, dividend: real, shares: real, sharePrice: real, cumulative: real): ProjectionRow
    requires sharePrice != 0.0
  {
    ProjectionRow(year, Cents(dividend), Cents(YearIncome(dividend, shares)), Percent(dividend / sharePrice), Cents(cumulative))
  }

  /** The projection row of year `year` (counted from 1): it shows that
      year's dividend and its yield on cost at today's price. */
  function RowAt(annualDividend: real, growth: real, shares: real, sharePrice: real, year: nat): (row: ProjectionRow)
    requires sharePrice != 0.0
    ensures row.year == year
    ensures row.dividendPerShare == Cents(DividendAt(annualDividend, growth, year))
    ensures row.yieldOnCost == CalculateYieldOnCost(sharePrice, DividendAt(annualDividend, growth, year))
  {
    RowOf(year, DividendAt(annualDividend, growth, year), shares, sharePrice,
          Cumulative(annualDividend, growth, shares, year))
  }

  datatype ReinvestmentScenario = ReinvestmentScenario(finalShares: real, finalValue: real,
                                                       additionalShares: real, additionalValue: real)

  datatype DividendReport = DividendReport(
    sharePrice: real,
    sharesOwned: real,
    portfolioValue: real,
    annualDividend: real,
    currentYield: real,
    annualIncome: real,
    monthlyIncome: real,
    dividendGrowth: real,
    projections: seq<ProjectionRow>,
    reinvestmentScenario: ReinvestmentScenario)

  /** The reinvestment scenario reported for a final holding, against the
      holding at the start. */
  function ScenarioOf(finalShares: real, finalValue: real, sharesOwned: real, portfolioValue: real): ReinvestmentScenario
  {
    ReinvestmentScenario(Cents(finalShares), Cents(finalValue),
                         Cents(finalShares - sharesOwned), Cents(finalValue - portfolioValue))
  }

  /** `calculateDividends`: `years` projection rows, year `y` paying
      `annualDividend * (1 + dividendGrowth)^y` a share, and the holding
      reached by reinvesting every year's dividend. */
  method CalculateDividends(sharePrice: real, sharesOwned: real, annualDividend: real, dividendGrowth: real,
                            years: nat) returns (r: DividendReport)
    requires sharePrice != 0.0
    ensures r.sharePrice == Cents(sharePrice) && r.sharesOwned == Cents(sharesOwned)
    ensures r.portfolioValue == Cents(sharePrice * sharesOwned)
    ensures r.annualDividend == Cents(annualDividend)
    ensures r.currentYield == Cents(annualDividend / sharePrice * 100.0)
    ensures r.annualIncome == Cents(annualDividend * sharesOwned)
    ensures r.monthlyIncome == Cents(annualDividend * sharesOwned / 12.0)
    ensures r.dividendGrowth == Percent(dividendGrowth)
    ensures |r.projections| == years
    ensures forall k :: 0 <= k < years ==>
      r.projections[k] == RowAt(annualDividend, dividendGrowth, sharesOwned, sharePrice, k + 1)
    ensures var finalShares := ReinvestedShares(annualDividend, dividendGrowth, sharePrice, sharesOwned, years);
      r.reinvestmentScenario
      == ScenarioOf(finalShares, ValueOf(finalShares, sharePrice), sharesOwned, sharePrice * sharesOwned)
  {
    var currentYield := annualDividend / sharePrice * 100.0;
    var annualIncome := annualDividend * sharesOwned;
    var portfolioValue := sharePrice * sharesOwned;

    var projections: seq<ProjectionRow> := [];
    var projectedDividend := annualDividend;
    var cumulativeDividends := 0.0;
    var year: nat := 1;
    while year <= years
      invariant 1 <= year <= years + 1
      invariant |projections| == year - 1
      invariant projectedDividend == DividendAt(annualDividend, dividendGrowth, year - 1)
      invariant cumulativeDividends == Cumulative(annualDividend, dividendGrowth, sharesOwned, year - 1)
      invariant forall k :: 0 <= k < year - 1 ==>
        projections[k] == RowAt(annualDividend, dividendGrowth, sharesOwned, sharePrice, k + 1)
    {
      projectedDividend := NextDividend(projectedDividend, dividendGrowth);
      assert projectedDividend == DividendAt(annualDividend, dividendGrowth, year);
      var yearIncome := YearIncome(projectedDividend, sharesOwned);
      cumulativeDividends := cumulativeDividends + yearIncome;
      projections := projections + [RowOf(year, projectedDividend, sharesOwned, sharePrice, cumulativeDividends)];
      year := year + 1;
    }

    var reinvestedShares := sharesOwned;
    var reinvestedValue := portfolioValue;
    year := 1;
    while year <= years
      invariant 1 <= year <= years + 1
      invariant reinvestedShares == ReinvestedShares(annualDividend, dividendGrowth, sharePrice, sharesOwned, year - 1)
      invariant reinvestedValue == ValueOf(reinvestedShares, sharePrice)
    {
      var yearDividend := DividendAt(annualDividend, dividendGrowth, year);
      var newShares := NewShares(yearDividend, reinvestedShares, sharePrice);
      reinvestedShares := reinvestedShares + newShares;
      reinvestedValue := ValueOf(reinvestedShares, sharePrice);
      year := year + 1;
    }

    var scenario := ScenarioOf(reinvestedShares, reinvestedValue, sharesOwned, portfolioValue);
    r := DividendReport(Cents(sharePrice), Cents(sharesOwned), Cents(portfolioValue), Cents(annualDividend),
                        Cents(currentYield), Cents(annualIncome), Cents(annualIncome / 12.0), Percent(dividendGrowth),
                        projections, scenario);
  }

  /** The current yield is the yield on cost of a share bought today. */
  lemma CurrentYieldIsYieldOnCost(sharePrice: real, annualDividend: real)
    requires sharePrice != 0.0
    ensures Cents(annualDividend / sharePrice * 100.0) == CalculateYieldOnCost(sharePrice, annualDividend)
  {
    assert annualDividend / sharePrice * 100.0 * 100.0 == annualDividend / sharePrice * 10000.0;
  }

  /** With a non-negative dividend, growth above -100% and non-negative
      shares, the running total of dividends never decreases, and neither
      does the figure the projection reports for it. */
  lemma {:induction false} CumulativeNonDecreasing(annualDividend: real, growth: real, shares: real, y1: nat, y2: nat)
    requires annualDividend >= 0.0 && 1.0 + growth >= 0.0 && shares >= 0.0
    requires y1 <= y2
    ensures Cumulative(annualDividend, growth, shares, y1) <= Cumulative(annualDividend, growth, shares, y2)
    ensures forall p :: p != 0.0 ==>
      RowAt(annualDividend, growth, shares, p, y1).cumulativeDividends
      <= RowAt(annualDividend, growth, shares, p, y2).cumulativeDividends
    decreases y2 - y1
  {
    if y1 < y2 {
      CumulativeNonDecreasing(annualDividend, growth, shares, y1, y2 - 1);
      PowNonNegative(1.0 + growth, y2);
      assert DividendAt(annualDividend, growth, y2) >= 0.0;
      MulMonotone(shares, 0.0, DividendAt(annualDividend, growth, y2));
    }
    CentsMonotone(Cumulative(annualDividend, growth, shares, y1), Cumulative(annualDividend, growth, shares, y2));
  }

  /** A non-negative dividend on a non-negative holding buys a
      non-negative number of shares. */
  lemma NewSharesNonNegative(dividend: real, held: real, sharePrice: real)
    requires dividend >= 0.0 && held >= 0.0 && sharePrice > 0.0
    ensures NewShares(dividend, held, sharePrice) >= 0.0
  {
    MulMonotone(held, 0.0, dividend);
  }

  /** The dividend per share stays non-negative while growth stays above
      -100%. */
  lemma DividendNonNegative(annualDividend: real, growth: real, year: nat)
    requires annualDividend >= 0.0 && 1.0 + growth >= 0.0
    ensures DividendAt(annualDividend, growth, year) >= 0.0
  {
    PowNonNegative(1.0 + growth, year);
    MulMonotone(annualDividend, 0.0, Pow(1.0 + growth, year));
  }

  /** Reinvesting never leaves fewer shares than were owned at the start. */
  lemma {:induction false} ReinvestedAtLeastOwned(annualDividend: real, growth: real, sharePrice: real,
                                                  shares: real, year: nat)
    requires annualDividend >= 0.0 && 1.0 + growth >= 0.0 && sharePrice > 0.0 && shares >= 0.0
    ensures shares <= ReinvestedShares(annualDividend, growth, sharePrice, shares, year)
  {
    if year > 0 {
      ReinvestedAtLeastOwned(annualDividend, growth, sharePrice, shares, year - 1);
      DividendNonNegative(annualDividend, growth, year);
      NewSharesNonNegative(DividendAt(annualDividend, growth, year),
                           ReinvestedShares(annualDividend, growth, sharePrice, shares, year - 1), sharePrice);
    }
  }

  /** Reinvesting a non-negative dividend at a positive price never
      reduces the share count from one year to a later one. */
  lemma {:induction false} ReinvestedSharesNonDecreasing(annualDividend: real, growth: real, sharePrice: real,
                                                         shares: real, y1: nat, y2: nat)
    requires annualDividend >= 0.0 && 1.0 + growth >= 0.0 && sharePrice > 0.0 && shares >= 0.0
    requires y1 <= y2
    ensures ReinvestedShares(annualDividend, growth, sharePrice, shares, y1)
            <= ReinvestedShares(annualDividend, growth, sharePrice, shares, y2)
    decreases y2
  {
    if y1 < y2 {
      ReinvestedSharesNonDecreasing(annualDividend, growth, sharePrice, shares, y1, y2 - 1);
      ReinvestedAtLeastOwned(annualDividend, growth, sharePrice, shares, y2 - 1);
      DividendNonNegative(annualDividend, growth, y2);
      NewSharesNonNegative(DividendAt(annualDividend, growth, y2),
                           ReinvestedShares(annualDividend, growth, sharePrice, shares, y2 - 1), sharePrice);
    }
  }

  /** Buying with a year's dividend adds exactly that income to the value
      of the holding. */
  lemma ReinvestAddsIncome(dividend: real, held: real, sharePrice: real)
    requires sharePrice != 0.0
    ensures ValueOf(held + NewShares(dividend, held, sharePrice), sharePrice)
            == ValueOf(held, sharePrice) + YearIncome(dividend, held)
  {
    var bought := NewShares(dividend, held, sharePrice);
    assert bought * sharePrice == YearIncome(dividend, held);
    assert (held + bought) * sharePrice == held * sharePrice + bought * sharePrice;
  }

  /** Reinvesting beats taking the dividends as cash: the reinvested
      holding is worth at least the original holding plus every dividend
      paid on the original shares. */
  lemma {:induction false} ReinvestingBeatsCash(annualDividend: real, growth: real, sharePrice: real,
                                                shares: real, year: nat)
    requires annualDividend >= 0.0 && 1.0 + growth >= 0.0 && sharePrice > 0.0 && shares >= 0.0
    ensures ValueOf(ReinvestedShares(annualDividend, growth, sharePrice, shares, year), sharePrice)
            >= ValueOf(shares, sharePrice) + Cumulative(annualDividend, growth, shares, year)
  {
    if year > 0 {
      ReinvestingBeatsCash(annualDividend, growth, sharePrice, shares, year - 1);
      var held := ReinvestedShares(annualDividend, growth, sharePrice, shares, year - 1);
      var d := DividendAt(annualDividend, growth, year);
      ReinvestedAtLeastOwned(annualDividend, growth, sharePrice, shares, year - 1);
      DividendNonNegative(annualDividend, growth, year);
      MulMonotone(d, shares, held);
      assert YearIncome(d, shares) <= YearIncome(d, held);
      ReinvestAddsIncome(d, held, sharePrice);
    }
  }

  /** With no years to project, the scenario is the holding as it stands. */
  lemma NoYearsNoReinvestment(annualDividend: real, growth: real, sharePrice: real, shares: real)
    requires sharePrice != 0.0
    ensures var finalShares := ReinvestedShares(annualDividend, growth, sharePrice, shares, 0);
      var s := ScenarioOf(finalShares, ValueOf(finalShares, sharePrice), shares, sharePrice * shares);
      s.finalShares == Cents(shares) && s.finalValue == Cents(sharePrice * shares)
      && s.additionalShares == 0.0 && s.additionalValue == 0.0
  {
    assert ValueOf(shares, sharePrice) == sharePrice * shares;
    assert ValueOf(shares, sharePrice) - sharePrice * shares == 0.0 && shares - shares == 0.0;
    assert Round(0.0 * 100.0) == 0;
  }
}
