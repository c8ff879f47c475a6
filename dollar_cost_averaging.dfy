/** Dollar-cost averaging (js/formulas/dollar-cost-averaging-formula.js):
    investing a fixed amount every month against investing a lump sum at
    once, at a steady expected return, and the average cost of a series of
    purchases. */
module DollarCostAveraging {
  import opened FinMath

  /** The expected monthly return for an expected annual return. */
  function MonthlyReturn(expectedReturn: real): real
  {
    expectedReturn / 12.0
  }

  /** One month of averaging: the month's investment is added and the whole
      balance earns the month's return. */
  function DcaStep(balance: real, monthlyInvestment: real, monthlyReturn: real): real
  {
    (balance + monthlyInvestment) * (1.0 + monthlyReturn)
  }

  /** The averaged balance after `month` months. */
  function DcaBalance(monthlyInvestment: real, monthlyReturn: real, month: nat): real
  {
    if month == 0 then 0.0
    else DcaStep(DcaBalance(monthlyInvestment, monthlyReturn, month - 1), monthlyInvestment, monthlyReturn)
  }

  /** The lump sum after `months` months of the same return. */
  function LumpSum(totalAmount: real, monthlyReturn: real, months: nat): real
  {
    totalAmount * Pow(1.0 + monthlyReturn, months)
  }

  /** The simplified share count of a month's row: what was invested, at a
      notional price of 100 drifting by the monthly return, to two
      decimals; `None` where that price is 0 and the division yields NaN
      or Infinity. */
  function SharesShown(invested: real, monthlyReturn: real, month: nat): (shares: Option<real>)
    ensures shares.None? <==> 1.0 + monthlyReturn * month as real == 0.0
  {
    var notionalPrice := 100.0 * (1.0 + monthlyReturn * month as real);
    if notionalPrice == 0.0 then None else Some(Cents(invested / notionalPrice))
  }

  datatype MonthRow = MonthRow(month: nat, invested: real, balance: real, shares: Option<real>)

  /** A month's row from the amount invested so far and the balance. */
  function RowOf(month: nat, invested: real, balance: real, monthlyReturn: real): MonthRow
  {
    MonthRow(month, Cents(invested), Cents(balance), SharesShown(invested, monthlyReturn, month))
  }

  /** The row of month `month` (counted from 1). */
  function RowAt(monthlyInvestment: real, monthlyReturn: real, month: nat): MonthRow
  {
    RowOf(month, Deposited(0.0, monthlyInvestment, month), DcaBalance(monthlyInvestment, monthlyReturn, month),
          monthlyReturn)
  }

  /** The gain as a percentage of what was invested, to two decimals;
      `None` where nothing was invested (NaN or Infinity). */
  function ReturnPercent(finalBalance: real, invested: real): (p: Option<real>)
    ensures p.None? <==> invested == 0.0
  {
    if invested == 0.0 then None else Some(Percent((finalBalance - invested) / invested))
  }

  datatype Outcome = Outcome(totalInvested: real, finalBalance: real, totalReturn: real, returnPercent: Option<real>)

  /** A strategy's outcome from what it invested and what it ended with. */
  function OutcomeOf(invested: real, finalBalance: real): Outcome
  {
    Outcome(Cents(invested), Cents(finalBalance), Cents(finalBalance - invested), ReturnPercent(finalBalance, invested))
  }

  datatype Winner = LumpSumWins | DcaWins

  datatype Comparison = Comparison(difference: real, winner: Winner, dcaAdvantage: Option<real>)

  /** The comparison of the two strategies' final balances: the lump sum
      wins only when it ends strictly ahead, and the difference is
      reported from its side. */
  function CompareOutcomes(lumpSumBalance: real, dcaBalance: real): (c: Comparison)
    ensures c.winner == LumpSumWins <==> lumpSumBalance > dcaBalance
    ensures c.winner == LumpSumWins ==> c.difference >= 0.0
    ensures c.winner == DcaWins ==> c.difference <= 0.0
    ensures c.dcaAdvantage.None? <==> lumpSumBalance == 0.0
  {
    CentsNonNegative(lumpSumBalance - dcaBalance);
    CentsNonPositive(lumpSumBalance - dcaBalance);
    Comparison(Cents(lumpSumBalance - dcaBalance),
               if lumpSumBalance > dcaBalance then LumpSumWins else DcaWins,
               if lumpSumBalance == 0.0 then None else Some(Percent((dcaBalance - lumpSumBalance) / lumpSumBalance)))
  }

  datatype DcaReport = DcaReport(
    totalAmount: real,
    monthlyInvestment: real,
    months: nat,
    expectedReturn: real,
    dca: Outcome,
    lumpSum: Outcome,
    comparison: Comparison,
    monthlyData: seq<MonthRow>)

  /** `simulateDCA`: `months` monthly rows numbered from 1, the averaged
      outcome, the lump-sum outcome and their comparison. */
  method SimulateDca(totalAmount: real, monthlyInvestment: real, months: nat, expectedReturn: real)
    returns (r: DcaReport)
    ensures r.totalAmount == Cents(totalAmount) && r.monthlyInvestment == Cents(monthlyInvestment)
    ensures r.months == months && r.expectedReturn == Percent(expectedReturn)
    ensures |r.monthlyData| == months
    ensures forall k :: 0 <= k < months ==>
      r.monthlyData[k] == RowAt(monthlyInvestment, MonthlyReturn(expectedReturn), k + 1)
    ensures r.dca == OutcomeOf(Deposited(0.0, monthlyInvestment, months),
                               DcaBalance(monthlyInvestment, MonthlyReturn(expectedReturn), months))
    ensures r.lumpSum == OutcomeOf(totalAmount, LumpSum(totalAmount, MonthlyReturn(expectedReturn), months))
    ensures r.comparison == CompareOutcomes(LumpSum(totalAmount, MonthlyReturn(expectedReturn), months),
                                            DcaBalance(monthlyInvestment, MonthlyReturn(expectedReturn), months))
  {
    var monthlyReturn := MonthlyReturn(expectedReturn);
    var dcaBalance := 0.0;
    var totalInvested := 0.0;
    var monthlyData: seq<MonthRow> := [];
    var month: nat := 1;
    while month <= months
      invariant 1 <= month <= months + 1
      invariant |monthlyData| == month - 1
      invariant totalInvested == Deposited(0.0, monthlyInvestment, month - 1)
      invariant dcaBalance == DcaBalance(monthlyInvestment, monthlyReturn, month - 1)
      invariant forall k :: 0 <= k < month - 1 ==> monthlyData[k] == RowAt(monthlyInvestment, monthlyReturn, k + 1)
    {
      totalInvested := totalInvested + monthlyInvestment;
      dcaBalance := DcaStep(dcaBalance, monthlyInvestment, monthlyReturn);
      monthlyData := monthlyData + [RowOf(month, totalInvested, dcaBalance, monthlyReturn)];
      month := month + 1;
    }
    var lumpSumBalance := LumpSum(totalAmount, monthlyReturn, months);
    r := DcaReport(Cents(totalAmount), Cents(monthlyInvestment), months, Percent(expectedReturn),
                   OutcomeOf(totalInvested, dcaBalance), OutcomeOf(totalAmount, lumpSumBalance),
                   CompareOutcomes(lumpSumBalance, dcaBalance), monthlyData);
  }

  /** After the loop the amount invested is the monthly investment times
      the months. */
  lemma TotalInvested(monthlyInvestment: real, months: nat)
    ensures Deposited(0.0, monthlyInvestment, months) == monthlyInvestment * months as real
  {
    DepositedClosedForm(0.0, monthlyInvestment, months);
  }

  /** Averaging is an annuity due: each month's investment earns that
      month's return, so the balance compounds like a deposit of
      `monthly * (1 + r)` at the end of each month. */
  lemma {:induction false} DcaIsAnnuityDue(monthlyInvestment: real, monthlyReturn: real, month: nat)
    ensures DcaBalance(monthlyInvestment, monthlyReturn, month)
            == Grow(0.0, monthlyReturn, monthlyInvestment * (1.0 + monthlyReturn), month)
  {
    if month > 0 {
      DcaIsAnnuityDue(monthlyInvestment, monthlyReturn, month - 1);
    }
  }

  /** With no return, the averaged balance is exactly what was invested and
      the lump sum stays the amount put in. */
  lemma {:induction false} ZeroReturn(totalAmount: real, monthlyInvestment: real, months: nat)
    ensures DcaBalance(monthlyInvestment, 0.0, months) == Deposited(0.0, monthlyInvestment, months)
    ensures LumpSum(totalAmount, 0.0, months) == totalAmount
  {
    if months > 0 {
      ZeroReturn(totalAmount, monthlyInvestment, months - 1);
    }
    PowOfOne(months);
  }

  /** `x^n >= 1` for `x >= 1`. */
  lemma {:induction false} PowAtLeastOne(x: real, n: nat)
    requires x >= 1.0
    ensures Pow(x, n) >= 1.0
  {
    if n > 0 {
      PowAtLeastOne(x, n - 1);
      MulMonotone(Pow(x, n - 1), 1.0, x);
    }
  }

  /** One month of the bound below. */
  lemma AveragingBoundStep(b: real, m: real, i: real, p: real, k: real)
    requires m >= 0.0 && i >= 0.0 && p >= 1.0 && k >= 1.0
    requires b <= m * (k - 1.0) * p
    ensures (b + m) * (1.0 + i) <= m * k * ((1.0 + i) * p)
  {
    MulMonotone(m, 1.0, p);
    assert b + m <= m * (k - 1.0) * p + m * p == m * k * p;
    MulMonotone(1.0 + i, b + m, m * k * p);
  }

  /** With a non-negative return each month's investment has been
      compounding for at most the whole period. */
  lemma {:induction false} AveragingBound(monthlyInvestment: real, monthlyReturn: real, month: nat)
    requires monthlyInvestment >= 0.0 && monthlyReturn >= 0.0
    ensures DcaBalance(monthlyInvestment, monthlyReturn, month)
            <= monthlyInvestment * month as real * Pow(1.0 + monthlyReturn, month)
  {
    if month > 0 {
      var k, p := month as real, Pow(1.0 + monthlyReturn, month - 1);
      var b := DcaBalance(monthlyInvestment, monthlyReturn, month - 1);
      AveragingBound(monthlyInvestment, monthlyReturn, month - 1);
      assert (month - 1) as real == k - 1.0;
      assert b <= monthlyInvestment * (k - 1.0) * p;
      PowAtLeastOne(1.0 + monthlyReturn, month - 1);
      AveragingBoundStep(b, monthlyInvestment, monthlyReturn, p, k);
      assert Pow(1.0 + monthlyReturn, month) == (1.0 + monthlyReturn) * p;
      assert DcaBalance(monthlyInvestment, monthlyReturn, month) == DcaStep(b, monthlyInvestment, monthlyReturn);
    }
  }

  /** On a market that does not fall, investing the same total at once
      never ends behind averaging it in over the months, so averaging is
      reported the winner only on a tie. */
  lemma LumpSumNeverBehind(monthlyInvestment: real, monthlyReturn: real, months: nat)
    requires monthlyInvestment >= 0.0 && monthlyReturn >= 0.0
    ensures var totalAmount := monthlyInvestment * months as real;
      DcaBalance(monthlyInvestment, monthlyReturn, months) <= LumpSum(totalAmount, monthlyReturn, months)
    ensures var totalAmount := monthlyInvestment * months as real;
      var c := CompareOutcomes(LumpSum(totalAmount, monthlyReturn, months),
                               DcaBalance(monthlyInvestment, monthlyReturn, months));
      c.winner == DcaWins ==> c.difference == 0.0
  {
    AveragingBound(monthlyInvestment, monthlyReturn, months);
    assert Round(0.0) == 0;
  }

  /** A purchase of `amount` dollars at `price` a share. */
  datatype Purchase = Purchase(amount: real, price: real)

  predicate PricesNonZero(purchases: seq<Purchase>)
  {
    forall i :: 0 <= i < |purchases| ==> purchases[i].price != 0.0
  }

  /** The shares a purchase buys. */
  function SharesBought(p: Purchase): real
    requires p.price != 0.0
  {
    p.amount / p.price
  }

  /** The shares bought by all the purchases. */
  function TotalShares(purchases: seq<Purchase>): real
    requires PricesNonZero(purchases)
  {
    if purchases == [] then 0.0
    else TotalShares(purchases[..|purchases| - 1]) + SharesBought(purchases[|purchases| - 1])
  }

  /** The dollars spent on all the purchases. */
  function TotalCost(purchases: seq<Purchase>): real
  {
    if purchases == [] then 0.0 else TotalCost(purchases[..|purchases| - 1]) + purchases[|purchases| - 1].amount
  }

  datatype AverageCost = AverageCost(totalInvested: real, totalShares: real, averageCostPerShare: real)

  /** The dollars per share, or 0 when no shares were bought. */
  function CostPerShare(totalCost: real, totalShares: real): real
  {
    if totalShares > 0.0 then totalCost / totalShares else 0.0
  }

  /** `calculateAverageCost`: the totals over the purchases and the cost
      per share they add up to. */
  method CalculateAverageCost(purchases: seq<Purchase>) returns (r: AverageCost)
    requires PricesNonZero(purchases)
    ensures r.totalInvested == Cents(TotalCost(purchases))
    ensures r.totalShares == Round4(TotalShares(purchases))
    ensures r.averageCostPerShare == Cents(CostPerShare(TotalCost(purchases), TotalShares(purchases)))
  {
    var totalShares := 0.0;
    var totalCost := 0.0;
    for i := 0 to |purchases|
      invariant totalShares == TotalShares(purchases[..i])
      invariant totalCost == TotalCost(purchases[..i])
    {
      assert purchases[..i + 1][..i] == purchases[..i];
      var shares := SharesBought(purchases[i]);
      totalShares := totalShares + shares;
      totalCost := totalCost + purchases[i].amount;
    }
    assert purchases[..|purchases|] == purchases;
    var averageCost := CostPerShare(totalCost, totalShares);
    r := AverageCost(Cents(totalCost), Round4(totalShares), Cents(averageCost));
  }

  predicate PricesWithin(purchases: seq<Purchase>, low: real, high: real)
  {
    forall i :: 0 <= i < |purchases| ==> low <= purchases[i].price <= high
  }

  /** One purchase of the bound below. */
  lemma PurchaseWithin(p: Purchase, low: real, high: real)
    requires 0.0 < low <= p.price <= high && p.amount >= 0.0
    ensures low * SharesBought(p) <= p.amount <= high * SharesBought(p)
  {
    var s := SharesBought(p);
    assert s >= 0.0;
    assert p.amount == p.price * s;
    MulMonotone(s, low, p.price);
    MulMonotone(s, p.price, high);
  }

  /** Every dollar bought shares at a price between `low` and `high`, so
      the cost lies between those prices times the shares. */
  lemma {:induction false} CostBetweenPrices(purchases: seq<Purchase>, low: real, high: real)
    requires 0.0 < low && PricesWithin(purchases, low, high)
    requires forall i :: 0 <= i < |purchases| ==> purchases[i].amount >= 0.0
    ensures low * TotalShares(purchases) <= TotalCost(purchases) <= high * TotalShares(purchases)
  {
    if purchases != [] {
      var init := purchases[..|purchases| - 1];
      CostBetweenPrices(init, low, high);
      PurchaseWithin(purchases[|purchases| - 1], low, high);
    }
  }

  /** The average cost per share lies between the lowest and the highest
      price paid, whenever any shares were bought. */
  lemma AverageBetweenPrices(purchases: seq<Purchase>, low: real, high: real)
    requires 0.0 < low && PricesWithin(purchases, low, high)
    requires forall i :: 0 <= i < |purchases| ==> purchases[i].amount >= 0.0
    requires TotalShares(purchases) > 0.0
    ensures low <= CostPerShare(TotalCost(purchases), TotalShares(purchases)) <= high
  {
    CostBetweenPrices(purchases, low, high);
    QuotientBetween(TotalCost(purchases), TotalShares(purchases), low, high);
  }

  /** Buying always at the same price averages to that price. */
  lemma SamePriceAverage(purchases: seq<Purchase>, price: real)
    requires 0.0 < price && PricesWithin(purchases, price, price)
    requires forall i :: 0 <= i < |purchases| ==> purchases[i].amount >= 0.0
    requires TotalShares(purchases) > 0.0
    ensures CostPerShare(TotalCost(purchases), TotalShares(purchases)) == price
  {
    AverageBetweenPrices(purchases, price, price);
  }
}
