/** Tax on selling an asset (js/formulas/capital-gains-tax-formula.js): a
    short-term gain at a flat ordinary rate, a long-term gain at the 0%, 15%
    or 20% rate that the seller's total income reaches, plus the 3.8% net
    investment income tax above a threshold. */
module CapitalGains {
  import opened FinMath
  import opened TaxBrackets

  /** The 2024 long-term brackets: 0% up to `l0`, 15% up to `l1`, 20% above. */
  function LongTermTable(l0: real, l1: real): seq<Bracket>
  {
    [Bracket(Some(l0), 0.0), Bracket(Some(l1), 0.15), Bracket(None, 0.20)]
  }

  /** The long-term brackets for a filing status; an unknown status uses
      the single brackets. */
  function LongTermBrackets(status: FilingStatus): (t: seq<Bracket>)
    ensures |t| == 3
  {
    match status
    case Married => LongTermTable(94050.0, 583750.0)
    case HeadOfHousehold => LongTermTable(63000.0, 551350.0)
    case _ => LongTermTable(47025.0, 518900.0)
  }

  /** The income above which the net investment income tax applies; an
      unknown status uses the single threshold. */
  function NiitThreshold(status: FilingStatus): real
  {
    if status == Married then 250000.0 else 200000.0
  }

  /** The rate of the first bracket whose limit is at least `totalIncome`,
      or `rate` if there is none. */
  function FirstCoveringRate(totalIncome: real, brackets: seq<Bracket>, rate: real): real
  {
    if |brackets| == 0 then rate
    else if brackets[0].limit.None? || totalIncome <= brackets[0].limit.value then brackets[0].rate
    else FirstCoveringRate(totalIncome, brackets[1..], rate)
  }

  /** The long-term rate: the first covering bracket's rate, forced to 20%
      above the second-to-last limit. */
  function LongTermRate(totalIncome: real, status: FilingStatus): real
  {
    var brackets := LongTermBrackets(status);
    var second := brackets[|brackets| - 2].limit;
    if second.Some? && totalIncome > second.value then 0.20
    else FirstCoveringRate(totalIncome, brackets, 0.0)
  }

  /** The net investment income tax: 3.8% of the gain or of the income above
      the threshold, whichever is smaller; nothing at or below it. */
  function Niit(gain: real, totalIncome: real, status: FilingStatus): real
  {
    if totalIncome > NiitThreshold(status) then Min(gain, totalIncome - NiitThreshold(status)) * 0.038 else 0.0
  }

  /** The report of `calculateCapitalGains`. A sale without a gain reports no
      effective rate at all. */
  datatype CapitalGainsReport = CapitalGainsReport(
    purchasePrice: real,
    salePrice: real,
    gain: real,
    isLongTerm: bool,
    holdingPeriodMonths: real,
    tax: real,
    taxRate: real,
    niit: real,
    totalTax: real,
    netProceeds: real,
    effectiveRate: Option<real>)

  /** The report of a sale without a gain: nothing is owed. */
  function NoGainReport(purchasePrice: real, salePrice: real, holdingPeriodMonths: real): CapitalGainsReport
  {
    var gain := salePrice - purchasePrice;
    CapitalGainsReport(Cents(purchasePrice), Cents(salePrice), Cents(gain), holdingPeriodMonths >= 12.0,
                       holdingPeriodMonths, 0.0, 0.0, 0.0, 0.0, Cents(salePrice), None)
  }

  /** The report of a sale with a positive gain, once its rate and its net
      investment income tax are known. */
  function GainReport(purchasePrice: real, salePrice: real, holdingPeriodMonths: real,
                      taxRate: real, niit: real): CapitalGainsReport
    requires salePrice - purchasePrice > 0.0
  {
    var gain := salePrice - purchasePrice;
    var tax := SaleTax(gain, taxRate);
    var totalTax := tax + niit;
    CapitalGainsReport(Cents(purchasePrice), Cents(salePrice), Cents(gain), holdingPeriodMonths >= 12.0,
                       holdingPeriodMonths, Cents(tax), Percent(taxRate), Cents(niit), Cents(totalTax),
                       Cents(salePrice - totalTax), Some(PercentOf(totalTax, gain)))
  }

  /** The tax on a gain at a rate. */
  function SaleTax(gain: real, taxRate: real): real
  {
    gain * taxRate
  }

  /** The rate a positive gain is taxed at: 22% if held under a year. */
  function GainRate(gain: real, holdingPeriodMonths: real, status: FilingStatus, ordinaryIncome: real): real
  {
    if holdingPeriodMonths >= 12.0 then LongTermRate(ordinaryIncome + gain, status) else 0.22
  }

  /** The net investment income tax on a gain: only long-term gains owe it. */
  function GainNiit(gain: real, holdingPeriodMonths: real, status: FilingStatus, ordinaryIncome: real): real
  {
    if holdingPeriodMonths >= 12.0 then Niit(gain, ordinaryIncome + gain, status) else 0.0
  }

  /** The report the formula produces. */
  function CapitalGainsOf(purchasePrice: real, salePrice: real, holdingPeriodMonths: real,
                          status: FilingStatus, ordinaryIncome: real): CapitalGainsReport
  {
    var gain := salePrice - purchasePrice;
    if gain <= 0.0 then NoGainReport(purchasePrice, salePrice, holdingPeriodMonths)
    else
      GainReport(purchasePrice, salePrice, holdingPeriodMonths, GainRate(gain, holdingPeriodMonths, status, ordinaryIncome),
                 GainNiit(gain, holdingPeriodMonths, status, ordinaryIncome))
  }

  /** `calculateCapitalGains`, with the bracket scan that looks for the
      long-term rate. */
  method CalculateCapitalGains(purchasePrice: real, salePrice: real, holdingPeriodMonths: real,
                               status: FilingStatus, ordinaryIncome: real) returns (r: CapitalGainsReport)
    ensures r == CapitalGainsOf(purchasePrice, salePrice, holdingPeriodMonths, status, ordinaryIncome)
  {
    var gain := salePrice - purchasePrice;
    var isLongTerm := holdingPeriodMonths >= 12.0;
    var taxRate := 0.0;
    var niit := 0.0;
    if gain <= 0.0 {
      return NoGainReport(purchasePrice, salePrice, holdingPeriodMonths);
    }
    if isLongTerm {
      var brackets := LongTermBrackets(status);
      var totalIncome := ordinaryIncome + gain;
      var i := 0;
      while i < |brackets|
        invariant i <= |brackets| && taxRate == 0.0
        invariant FirstCoveringRate(totalIncome, brackets[i..], 0.0) == FirstCoveringRate(totalIncome, brackets, 0.0)
      {
        var bracket := brackets[i];
        if bracket.limit.None? || totalIncome <= bracket.limit.value {
          taxRate := bracket.rate;
          break;
        }
        assert brackets[i..][1..] == brackets[i + 1..];
        i := i + 1;
      }
      var second := brackets[|brackets| - 2].limit;
      if second.Some? && totalIncome > second.value {
        taxRate := 0.20;
      }
      var threshold := NiitThreshold(status);
      if totalIncome > threshold {
        var niitAmount := Min(gain, totalIncome - threshold);
        niit := niitAmount * 0.038;
      }
    } else {
      taxRate := 0.22;
    }
    assert taxRate == GainRate(gain, holdingPeriodMonths, status, ordinaryIncome);
    assert niit == GainNiit(gain, holdingPeriodMonths, status, ordinaryIncome);
    r := GainReport(purchasePrice, salePrice, holdingPeriodMonths, taxRate, niit);
  }

  /** A sale at or below its purchase price owes nothing and keeps the whole
      sale price. */
  lemma NoGainNoTax(purchasePrice: real, salePrice: real, holdingPeriodMonths: real,
                    status: FilingStatus, ordinaryIncome: real)
    requires salePrice <= purchasePrice
    ensures var r := CapitalGainsOf(purchasePrice, salePrice, holdingPeriodMonths, status, ordinaryIncome);
      r.tax == 0.0 && r.niit == 0.0 && r.totalTax == 0.0 && r.netProceeds == Cents(salePrice)
  {
  }

  /** The long-term rate is 0% up to the first limit, 15% up to the second
      and 20% above it, so it is always one of those three. */
  lemma LongTermRateBands(totalIncome: real, status: FilingStatus)
    ensures var t := LongTermBrackets(status);
      var rate := LongTermRate(totalIncome, status);
      (rate == 0.0 <==> totalIncome <= t[0].limit.value) &&
      (rate == 0.15 <==> t[0].limit.value < totalIncome <= t[1].limit.value) &&
      (rate == 0.20 <==> t[1].limit.value < totalIncome)
  {
    match status
    case Married => TableBands(totalIncome, 94050.0, 583750.0);
    case HeadOfHousehold => TableBands(totalIncome, 63000.0, 551350.0);
    case _ => TableBands(totalIncome, 47025.0, 518900.0);
  }

  /** The scan of a three-bracket long-term table. */
  lemma TableBands(totalIncome: real, l0: real, l1: real)
    requires l0 < l1
    ensures FirstCoveringRate(totalIncome, LongTermTable(l0, l1), 0.0)
      == if totalIncome <= l0 then 0.0 else if totalIncome <= l1 then 0.15 else 0.20
  {
    var t := LongTermTable(l0, l1);
    assert t[0] == Bracket(Some(l0), 0.0);
    if totalIncome > l0 {
      assert t[1..][0] == Bracket(Some(l1), 0.15);
      if totalIncome > l1 {
        assert t[1..][1..] == [Bracket(None, 0.20)];
        assert FirstCoveringRate(totalIncome, t[1..][1..], 0.0) == 0.20;
        assert FirstCoveringRate(totalIncome, t[1..], 0.0) == 0.20;
      }
    }
  }

  /** A larger total income never lowers the long-term rate. */
  lemma LongTermRateMonotone(a: real, b: real, status: FilingStatus)
    requires a <= b
    ensures LongTermRate(a, status) <= LongTermRate(b, status)
  {
    LongTermRateBands(a, status);
    LongTermRateBands(b, status);
  }

  /** The net investment income tax is never negative and never more than
      3.8% of the gain; it is owed exactly when the total income passes the
      threshold. */
  lemma NiitBounds(gain: real, ordinaryIncome: real, status: FilingStatus)
    requires gain > 0.0
    ensures var niit := Niit(gain, ordinaryIncome + gain, status);
      0.0 <= niit <= 0.038 * gain &&
      (niit > 0.0 <==> ordinaryIncome + gain > NiitThreshold(status))
  {
  }

  /** A positive gain: short-term gains pay 22% and no investment income
      tax; every gain pays its rate plus that tax, at most 23.8% in all. */
  lemma GainTaxBounds(gain: real, holdingPeriodMonths: real, status: FilingStatus, ordinaryIncome: real)
    requires gain > 0.0
    ensures var rate := GainRate(gain, holdingPeriodMonths, status, ordinaryIncome);
      var niit := GainNiit(gain, holdingPeriodMonths, status, ordinaryIncome);
      (holdingPeriodMonths < 12.0 ==> rate == 0.22 && niit == 0.0) &&
      0.0 <= SaleTax(gain, rate) + niit <= 0.238 * gain
  {
    var rate := GainRate(gain, holdingPeriodMonths, status, ordinaryIncome);
    if holdingPeriodMonths >= 12.0 {
      LongTermRateBands(ordinaryIncome + gain, status);
      NiitBounds(gain, ordinaryIncome, status);
      MulMonotone(gain, rate, 0.20);
      MulMonotone(gain, 0.0, rate);
    }
  }

  /** The effective rate of a positive gain is a percentage from 0 to 23.8. */
  lemma EffectiveRateWithin(purchasePrice: real, salePrice: real, holdingPeriodMonths: real,
                            status: FilingStatus, ordinaryIncome: real)
    requires salePrice - purchasePrice > 0.0
    ensures var r := CapitalGainsOf(purchasePrice, salePrice, holdingPeriodMonths, status, ordinaryIncome);
      r.effectiveRate.Some? && 0.0 <= r.effectiveRate.value <= 23.8
  {
    var gain := salePrice - purchasePrice;
    var rate := GainRate(gain, holdingPeriodMonths, status, ordinaryIncome);
    var niit := GainNiit(gain, holdingPeriodMonths, status, ordinaryIncome);
    var totalTax := SaleTax(gain, rate) + niit;
    GainTaxBounds(gain, holdingPeriodMonths, status, ordinaryIncome);
    var r := CapitalGainsOf(purchasePrice, salePrice, holdingPeriodMonths, status, ordinaryIncome);
    assert r == GainReport(purchasePrice, salePrice, holdingPeriodMonths, rate, niit);
    assert r.effectiveRate == Some(PercentOf(totalTax, gain));
    PercentWithin(totalTax, gain, 0.238);
    assert Percent(0.238) == 23.8;
  }
}
