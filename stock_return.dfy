/** Stock returns (js/formulas/stock-return-formula.js): the gain on a
    holding of shares with its dividends, taken as cash or approximately
    reinvested, and the cost basis of several purchases. */
module StockReturn {
  import opened FinMath

  /** The dividends as received and the share count they leave, either
      taken as cash or reinvested. */
  datatype DividendOutcome = DividendOutcome(dividendValue: real, effectiveShares: real)

  /** The price at which reinvested dividends are taken to buy shares: the
      midpoint of the purchase and current prices. */
  function AveragePrice(purchasePrice: real, currentPrice: real): real
  {
    (purchasePrice + currentPrice) / 2.0
  }

  /** Reinvestment applies only when it was asked for and some dividends
      were paid. */
  predicate Reinvests(totalDividends: real, dividendReinvested: bool)
  {
    dividendReinvested && totalDividends > 0.0
  }

  /** What the dividends add: as cash, the dividends themselves; reinvested,
      the extra shares they buy at the average price, valued today. */
  function Dividends(purchasePrice: real, shares: real, currentPrice: real, totalDividends: real,
                     dividendReinvested: bool): (d: DividendOutcome)
    requires Reinvests(totalDividends, dividendReinvested) ==> purchasePrice + currentPrice != 0.0
    ensures !Reinvests(totalDividends, dividendReinvested) ==>
      d.dividendValue == totalDividends && d.effectiveShares == shares
    ensures Reinvests(totalDividends, dividendReinvested) ==>
      var additionalShares := totalDividends / AveragePrice(purchasePrice, currentPrice);
      d.effectiveShares == shares + additionalShares && d.dividendValue == additionalShares * currentPrice
  {
    if Reinvests(totalDividends, dividendReinvested) then
      var additionalShares := totalDividends / AveragePrice(purchasePrice, currentPrice);
      DividendOutcome(additionalShares * currentPrice, shares + additionalShares)
    else
      DividendOutcome(totalDividends, shares)
  }

  datatype StockReturnReport = StockReturnReport(
    purchasePrice: real,
    shares: real,
    currentPrice: real,
    initialInvestment: real,
    currentValue: real,
    capitalGain: real,
    dividends: real,
    totalReturn: real,
    totalReturnPercent: Option<real>,
    dividendReinvested: bool)

  /** The price gain on the shares bought. */
  function CapitalGain(purchasePrice: real, shares: real, currentPrice: real): real
  {
    (currentPrice - purchasePrice) * shares
  }

  /** `calculateStockReturn`; the return percentage is `None` where the
      initial investment is 0 and the division yields NaN or Infinity. */
  function CalculateStockReturn(purchasePrice: real, shares: real, currentPrice: real, totalDividends: real,
                                dividendReinvested: bool): (r: StockReturnReport)
    requires Reinvests(totalDividends, dividendReinvested) ==> purchasePrice + currentPrice != 0.0
    ensures var d := Dividends(purchasePrice, shares, currentPrice, totalDividends, dividendReinvested);
      && r.initialInvestment == Cents(purchasePrice * shares)
      && r.currentValue == Cents(currentPrice * shares)
      && r.shares == Cents(d.effectiveShares)
      && r.capitalGain == Cents(CapitalGain(purchasePrice, shares, currentPrice))
      && r.dividends == Cents(d.dividendValue)
      && r.totalReturn == Cents(CapitalGain(purchasePrice, shares, currentPrice) + d.dividendValue)
    ensures r.totalReturnPercent.None? <==> purchasePrice * shares == 0.0
    ensures r.dividendReinvested == dividendReinvested
  {
    var initialInvestment := purchasePrice * shares;
    var currentValue := currentPrice * shares;
    var d := Dividends(purchasePrice, shares, currentPrice, totalDividends, dividendReinvested);
    var capitalGain := CapitalGain(purchasePrice, shares, currentPrice);
    var totalReturn := capitalGain + d.dividendValue;
    StockReturnReport(Cents(purchasePrice), Cents(d.effectiveShares), Cents(currentPrice), Cents(initialInvestment),
                      Cents(currentValue), Cents(capitalGain), Cents(d.dividendValue), Cents(totalReturn),
                      if initialInvestment == 0.0 then None else Some(Cents(totalReturn / initialInvestment * 100.0)),
                      dividendReinvested)
  }

  /** The capital gain is the current value less the initial investment,
      so the total return is the change in value plus the dividends. */
  lemma TotalReturnIsValueChange(purchasePrice: real, shares: real, currentPrice: real, totalDividends: real,
                                 dividendReinvested: bool)
    requires Reinvests(totalDividends, dividendReinvested) ==> purchasePrice + currentPrice != 0.0
    ensures CapitalGain(purchasePrice, shares, currentPrice) == currentPrice * shares - purchasePrice * shares
    ensures CalculateStockReturn(purchasePrice, shares, currentPrice, totalDividends, dividendReinvested).totalReturn
            == Cents(currentPrice * shares - purchasePrice * shares
                     + Dividends(purchasePrice, shares, currentPrice, totalDividends, dividendReinvested).dividendValue)
  {
    assert (currentPrice - purchasePrice) * shares == currentPrice * shares - purchasePrice * shares;
  }

  /** Reinvested dividends, valued at today's price, are worth more than
      the cash paid exactly when the price has risen since purchase (for
      positive prices). */
  lemma ReinvestingPaysWhenPriceRises(purchasePrice: real, shares: real, currentPrice: real, totalDividends: real)
    requires purchasePrice > 0.0 && currentPrice > 0.0 && totalDividends > 0.0
    ensures var d := Dividends(purchasePrice, shares, currentPrice, totalDividends, true);
      (d.dividendValue > totalDividends <==> currentPrice > purchasePrice)
      && (d.dividendValue == totalDividends <==> currentPrice == purchasePrice)
  {
    var avg := AveragePrice(purchasePrice, currentPrice);
    var extra := totalDividends / avg;
    assert extra * avg == totalDividends;
    assert extra > 0.0;
    assert extra * currentPrice - totalDividends == extra * (currentPrice - avg);
    assert currentPrice - avg == (currentPrice - purchasePrice) / 2.0;
    MulSign(extra, currentPrice - avg);
  }

  /** The sign of a product with a positive factor is the sign of the
      other factor. */
  lemma MulSign(y: real, x: real)
    requires y > 0.0
    ensures y * x > 0.0 <==> x > 0.0
    ensures y * x == 0.0 <==> x == 0.0
  {
    if x > 0.0 {
      MulStrict(y, 0.0, x);
    } else if x < 0.0 {
      MulStrict(y, x, 0.0);
    }
  }

  /** A purchase of `shares` shares at `price` each. */
  datatype Lot = Lot(price: real, shares: real)

  /** The shares over all the lots. */
  function LotShares(lots: seq<Lot>): real
  {
    if lots == [] then 0.0 else LotShares(lots[..|lots| - 1]) + lots[|lots| - 1].shares
  }

  /** What a lot cost. */
  function LotCost(lot: Lot): real
  {
    lot.price * lot.shares
  }

  /** What all the lots cost. */
  function LotsCost(lots: seq<Lot>): real
  {
    if lots == [] then 0.0 else LotsCost(lots[..|lots| - 1]) + LotCost(lots[|lots| - 1])
  }

  /** The cost per share, or 0 when no shares are held. */
  function AverageCost(totalCost: real, totalShares: real): real
  {
    if totalShares > 0.0 then totalCost / totalShares else 0.0
  }

  datatype CostBasis = CostBasis(totalShares: real, totalCost: real, averageCostPerShare: real)

  /** `calculateCostBasis`: the shares and cost summed over the lots and
      the cost per share they give. */
  method CalculateCostBasis(lots: seq<Lot>) returns (r: CostBasis)
    ensures r.totalShares == Round4(LotShares(lots))
    ensures r.totalCost == Cents(LotsCost(lots))
    ensures r.averageCostPerShare == Cents(AverageCost(LotsCost(lots), LotShares(lots)))
  {
    var totalShares := 0.0;
    var totalCost := 0.0;
    for i := 0 to |lots|
      invariant totalShares == LotShares(lots[..i])
      invariant totalCost == LotsCost(lots[..i])
    {
      assert lots[..i + 1][..i] == lots[..i];
      totalShares := totalShares + lots[i].shares;
      totalCost := totalCost + LotCost(lots[i]);
    }
    assert lots[..|lots|] == lots;
    var averageCost := AverageCost(totalCost, totalShares);
    r := CostBasis(Round4(totalShares), Cents(totalCost), Cents(averageCost));
  }

  /** A single lot's average cost is its price, when it holds shares, and 0
      otherwise. */
  lemma SingleLotAverage(lot: Lot)
    ensures lot.shares > 0.0 ==> AverageCost(LotsCost([lot]), LotShares([lot])) == lot.price
    ensures lot.shares <= 0.0 ==> AverageCost(LotsCost([lot]), LotShares([lot])) == 0.0
  {
    assert [lot][..0] == [];
  }

  predicate LotPricesWithin(lots: seq<Lot>, low: real, high: real)
  {
    forall i :: 0 <= i < |lots| ==> low <= lots[i].price <= high && lots[i].shares >= 0.0
  }

  /** Every share cost between `low` and `high`, so the cost lies between
      those prices times the shares. */
  lemma {:induction false} LotsCostBetween(lots: seq<Lot>, low: real, high: real)
    requires LotPricesWithin(lots, low, high)
    ensures low * LotShares(lots) <= LotsCost(lots) <= high * LotShares(lots)
  {
    if lots != [] {
      var last := lots[|lots| - 1];
      var init := lots[..|lots| - 1];
      LotsCostBetween(init, low, high);
      AddLotBetween(low, high, LotShares(init), LotsCost(init), last);
    }
  }

  /** Adding one lot priced between `low` and `high` keeps the cost between
      those prices times the shares. */
  lemma AddLotBetween(low: real, high: real, shares: real, cost: real, lot: Lot)
    requires low * shares <= cost <= high * shares
    requires low <= lot.price <= high && lot.shares >= 0.0
    ensures low * (shares + lot.shares) <= cost + LotCost(lot) <= high * (shares + lot.shares)
  {
    MulMonotone(lot.shares, low, lot.price);
    MulMonotone(lot.shares, lot.price, high);
    assert low * (shares + lot.shares) == low * shares + lot.shares * low;
    assert high * (shares + lot.shares) == high * shares + lot.shares * high;
  }

  /** The average cost lies between the lowest and the highest price paid,
      whenever any shares are held. */
  lemma AverageCostBetweenPrices(lots: seq<Lot>, low: real, high: real)
    requires LotPricesWithin(lots, low, high)
    requires LotShares(lots) > 0.0
    ensures low <= AverageCost(LotsCost(lots), LotShares(lots)) <= high
  {
    LotsCostBetween(lots, low, high);
    QuotientBetween(LotsCost(lots), LotShares(lots), low, high);
  }
}
