/** Progressive rate brackets, shared by the income-tax and tax-refund
    formulas: taxable income is cut into slices, one per bracket from the
    lowest up, each slice taxed at its bracket's rate. */
module TaxBrackets {
  import opened FinMath

  /** A bracket: its upper limit (`None` for the top bracket, whose limit is
      `Infinity`) and its rate. */
  datatype Bracket = Bracket(limit: Option<real>, rate: real)

  /** The part of the taxable income that falls in one bracket, and its rate. */
  datatype Slice = Slice(rate: real, amount: real)

  /** One line of the bracket breakdown: the rate in percent, and the income
      in the bracket and its tax, both rounded to cents. */
  datatype BracketDetail = BracketDetail(ratePercent: real, income: real, tax: real)

  /** The 2024 rates, from the lowest bracket to the top one. */
  const Rates: seq<real> := [0.10, 0.12, 0.22, 0.24, 0.32, 0.35, 0.37]

  /** A table with the 2024 rates and the given six finite limits; the top
      bracket has no limit. */
  function Table(limits: seq<real>): (t: seq<Bracket>)
    requires |limits| == 6
    ensures |t| == 7
  {
    seq(7, k requires 0 <= k < 7 => Bracket(if k < 6 then Some(limits[k]) else None, Rates[k]))
  }

  /** The 2024 brackets for single filers. */
  const SingleBrackets: seq<Bracket> := Table([11600.0, 47150.0, 100525.0, 191950.0, 243725.0, 609350.0])

  /** The 2024 brackets for married couples filing jointly. */
  const MarriedBrackets: seq<Bracket> := Table([23200.0, 94300.0, 201050.0, 383900.0, 487450.0, 731200.0])

  /** The 2024 brackets for heads of household. */
  const HeadOfHouseholdBrackets: seq<Bracket> := Table([16550.0, 63100.0, 100500.0, 191950.0, 243700.0, 609350.0])

  /** A filing status; `Unknown` stands for any other string. */
  datatype FilingStatus = Single | Married | HeadOfHousehold | Unknown

  /** The 2024 standard deduction; an unknown status gets the single one. */
  function StandardDeduction(status: FilingStatus): real
  {
    match status
    case Married => 29200.0
    case HeadOfHousehold => 21900.0
    case _ => 14600.0
  }

  /** `max(0, income - max(deductions, standard))`. */
  function TaxableIncome(income: real, deduction: real): (t: real)
    ensures t >= 0.0 && t >= income - deduction
    ensures t == 0.0 || t == income - deduction
  {
    Max(0.0, income - deduction)
  }

  /** `Math.min(remaining, limit - previousLimit)`, the width of the top
      bracket being unbounded. */
  function SliceAmount(remaining: real, b: Bracket, previousLimit: real): (a: real)
    ensures a <= remaining
    ensures b.limit.Some? ==> a <= b.limit.value - previousLimit
    ensures a == remaining || (b.limit.Some? && a == b.limit.value - previousLimit)
  {
    match b.limit
    case None => remaining
    case Some(l) => Min(remaining, l - previousLimit)
  }

  /** The limit the next bracket starts from. After the top bracket nothing
      is left to slice, so the value there is never used. */
  function NextLimit(b: Bracket, previousLimit: real): real
  {
    match b.limit
    case None => previousLimit
    case Some(l) => l
  }

  /** The slices the bracket loop cuts from `remaining`, starting at the
      bracket whose lower edge is `previousLimit`; it stops once nothing is
      left or the brackets run out. */
  function Slicing(remaining: real, brackets: seq<Bracket>, previousLimit: real): seq<Slice>
    decreases |brackets|
  {
    if |brackets| == 0 || remaining <= 0.0 then []
    else
      var amount := SliceAmount(remaining, brackets[0], previousLimit);
      [Slice(brackets[0].rate, amount)]
        + Slicing(remaining - amount, brackets[1..], NextLimit(brackets[0], previousLimit))
  }

  /** The tax on one slice. */
  function SliceTax(s: Slice): real
  {
    s.amount * s.rate
  }

  /** The breakdown line of one slice. */
  function Detail(s: Slice): BracketDetail
  {
    BracketDetail(s.rate * 100.0, Cents(s.amount), Cents(SliceTax(s)))
  }

  /** The total tax on a list of slices. */
  function TaxOf(slices: seq<Slice>): real
  {
    if |slices| == 0 then 0.0 else SliceTax(slices[0]) + TaxOf(slices[1..])
  }

  /** The income covered by a list of slices. */
  function IncomeOf(slices: seq<Slice>): real
  {
    if |slices| == 0 then 0.0 else slices[0].amount + IncomeOf(slices[1..])
  }

  /** The breakdown lines of a list of slices. */
  function DetailsOf(slices: seq<Slice>): (d: seq<BracketDetail>)
    ensures |d| == |slices|
    ensures forall k :: 0 <= k < |d| ==> d[k] == Detail(slices[k])
  {
    if |slices| == 0 then [] else [Detail(slices[0])] + DetailsOf(slices[1..])
  }

  /** The tax on `taxableIncome` under `brackets`. */
  function Tax(taxableIncome: real, brackets: seq<Bracket>): real
  {
    TaxOf(Slicing(taxableIncome, brackets, 0.0))
  }

  /** The bracket loop of `calculateIncomeTax` and `calculateTaxRefund`: the
      tax summed slice by slice and the breakdown pushed line by line. */
  method ApplyBrackets(taxableIncome: real, brackets: seq<Bracket>)
    returns (totalTax: real, details: seq<BracketDetail>)
    ensures totalTax == Tax(taxableIncome, brackets)
    ensures details == DetailsOf(Slicing(taxableIncome, brackets, 0.0))
  {
    totalTax := 0.0;
    var remainingIncome := taxableIncome;
    var previousLimit := 0.0;
    details := [];
    var i := 0;
    while i < |brackets|
      invariant i <= |brackets|
      invariant totalTax + TaxOf(Slicing(remainingIncome, brackets[i..], previousLimit))
        == Tax(taxableIncome, brackets)
      invariant details + DetailsOf(Slicing(remainingIncome, brackets[i..], previousLimit))
        == DetailsOf(Slicing(taxableIncome, brackets, 0.0))
    {
      if remainingIncome <= 0.0 {
        break;
      }
      ghost var remaining0, previous0, total0, details0 := remainingIncome, previousLimit, totalTax, details;
      var bracket := brackets[i];
      var taxableInBracket := SliceAmount(remainingIncome, bracket, previousLimit);
      var slice := Slice(bracket.rate, taxableInBracket);
      var taxInBracket := SliceTax(slice);
      totalTax := totalTax + taxInBracket;
      remainingIncome := remainingIncome - taxableInBracket;
      details := details + [Detail(slice)];
      previousLimit := NextLimit(bracket, previousLimit);
      StepInvariant(brackets, i, remaining0, previous0, total0, details0, slice, remainingIncome, previousLimit);
      i := i + 1;
    }
  }

  /** The loop's invariant carries over one bracket, stated with the values
      the loop variables take next. */
  lemma StepInvariant(brackets: seq<Bracket>, i: nat, remaining: real, previousLimit: real, total: real,
                      details: seq<BracketDetail>, slice: Slice, nextRemaining: real, nextLimit: real)
    requires i < |brackets| && remaining > 0.0
    requires slice == Slice(brackets[i].rate, SliceAmount(remaining, brackets[i], previousLimit))
    requires nextRemaining == remaining - slice.amount && nextLimit == NextLimit(brackets[i], previousLimit)
    ensures total + TaxOf(Slicing(remaining, brackets[i..], previousLimit))
            == (total + SliceTax(slice)) + TaxOf(Slicing(nextRemaining, brackets[i + 1..], nextLimit))
    ensures details + DetailsOf(Slicing(remaining, brackets[i..], previousLimit))
            == (details + [Detail(slice)]) + DetailsOf(Slicing(nextRemaining, brackets[i + 1..], nextLimit))
  {
    assert brackets[i..][0] == brackets[i];
    assert brackets[i..][1..] == brackets[i + 1..];
    SliceUnroll(remaining, brackets[i..], previousLimit, total, details, slice);
  }

  /** One step of the loop: the first slice moves from the rest of the run
      into the totals. */
  lemma SliceUnroll(remaining: real, brackets: seq<Bracket>, previousLimit: real,
                    total: real, details: seq<BracketDetail>, slice: Slice)
    requires |brackets| > 0 && remaining > 0.0
    requires slice == Slice(brackets[0].rate, SliceAmount(remaining, brackets[0], previousLimit))
    ensures var rest := Slicing(remaining - slice.amount, brackets[1..], NextLimit(brackets[0], previousLimit));
      total + TaxOf(Slicing(remaining, brackets, previousLimit)) == (total + SliceTax(slice)) + TaxOf(rest) &&
      details + DetailsOf(Slicing(remaining, brackets, previousLimit)) == (details + [Detail(slice)]) + DetailsOf(rest)
  {
    var rest := Slicing(remaining - slice.amount, brackets[1..], NextLimit(brackets[0], previousLimit));
    assert Slicing(remaining, brackets, previousLimit) == [slice] + rest;
    TaxOfCons(slice, rest);
    DetailsOfCons(slice, rest);
    assert details + ([Detail(slice)] + DetailsOf(rest)) == (details + [Detail(slice)]) + DetailsOf(rest);
  }

  /** Tax of a list: its first slice's tax plus the rest's. */
  lemma TaxOfCons(slice: Slice, rest: seq<Slice>)
    ensures TaxOf([slice] + rest) == SliceTax(slice) + TaxOf(rest)
  {
    assert ([slice] + rest)[1..] == rest;
  }

  /** Breakdown of a list: its first slice's line, then the rest's. */
  lemma DetailsOfCons(slice: Slice, rest: seq<Slice>)
    ensures DetailsOf([slice] + rest) == [Detail(slice)] + DetailsOf(rest)
  {
    assert ([slice] + rest)[1..] == rest;
  }

  /** The table is well formed from `previousLimit` on: finite limits rise
      strictly and the last bracket, and only it, is unbounded. */
  predicate WellFormed(brackets: seq<Bracket>, previousLimit: real)
    decreases |brackets|
  {
    |brackets| > 0 &&
    match brackets[0].limit
    case None => |brackets| == 1
    case Some(l) => l > previousLimit && WellFormed(brackets[1..], l)
  }

  /** Every rate of the table lies between `lo` and `hi`. */
  predicate RatesWithin(brackets: seq<Bracket>, lo: real, hi: real)
  {
    forall k :: 0 <= k < |brackets| ==> lo <= brackets[k].rate <= hi
  }

  /** The three tables are well formed, with rates from 10% to 37%. */
  lemma TablesWellFormed()
    ensures WellFormed(SingleBrackets, 0.0) && RatesWithin(SingleBrackets, 0.10, 0.37)
    ensures WellFormed(MarriedBrackets, 0.0) && RatesWithin(MarriedBrackets, 0.10, 0.37)
    ensures WellFormed(HeadOfHouseholdBrackets, 0.0) && RatesWithin(HeadOfHouseholdBrackets, 0.10, 0.37)
  {
    TableWellFormed([11600.0, 47150.0, 100525.0, 191950.0, 243725.0, 609350.0]);
    TableWellFormed([23200.0, 94300.0, 201050.0, 383900.0, 487450.0, 731200.0]);
    TableWellFormed([16550.0, 63100.0, 100500.0, 191950.0, 243700.0, 609350.0]);
  }

  /** A table with positive, strictly rising limits is well formed. */
  lemma TableWellFormed(limits: seq<real>)
    requires |limits| == 6 && 0.0 < limits[0]
    requires forall k :: 0 < k < 6 ==> limits[k - 1] < limits[k]
    ensures WellFormed(Table(limits), 0.0) && RatesWithin(Table(limits), 0.10, 0.37)
  {
    var t := Table(limits);
    assert WellFormed(t[6..], limits[5]);
    assert t[5..][1..] == t[6..];
    assert WellFormed(t[5..], limits[4]);
    assert t[4..][1..] == t[5..];
    assert WellFormed(t[4..], limits[3]);
    assert t[3..][1..] == t[4..];
    assert WellFormed(t[3..], limits[2]);
    assert t[2..][1..] == t[3..];
    assert WellFormed(t[2..], limits[1]);
    assert t[1..][1..] == t[2..];
    assert WellFormed(t[1..], limits[0]);
  }

  /** The slices cover exactly the taxable income: each is positive and
      taxed at its bracket's rate, there is at most one per bracket, and they
      add up to the whole (nothing when there is nothing to tax). That no
      slice exceeds its bracket's width is `SliceAmount`'s contract. */
  lemma {:induction false} SlicesCoverIncome(remaining: real, brackets: seq<Bracket>, previousLimit: real)
    requires WellFormed(brackets, previousLimit)
    ensures var s := Slicing(remaining, brackets, previousLimit);
      IncomeOf(s) == Max(remaining, 0.0) && |s| <= |brackets| &&
      (forall k :: 0 <= k < |s| ==> s[k].amount > 0.0 && s[k].rate == brackets[k].rate)
    decreases |brackets|
  {
    if remaining > 0.0 {
      var amount := SliceAmount(remaining, brackets[0], previousLimit);
      var next := NextLimit(brackets[0], previousLimit);
      var s := Slicing(remaining, brackets, previousLimit);
      var rest := Slicing(remaining - amount, brackets[1..], next);
      assert s == [Slice(brackets[0].rate, amount)] + rest;
      assert s[1..] == rest;
      if brackets[0].limit.None? {
        assert rest == [];
      } else {
        SlicesCoverIncome(remaining - amount, brackets[1..], next);
        forall k | 1 <= k < |s|
          ensures s[k].amount > 0.0 && s[k].rate == brackets[k].rate
        {
          assert s[k] == rest[k - 1];
        }
      }
    }
  }

  /** The tax of a run is the tax of its first slice plus the tax of the rest. */
  lemma TaxUnroll(remaining: real, brackets: seq<Bracket>, previousLimit: real)
    requires |brackets| > 0 && remaining > 0.0
    ensures var amount := SliceAmount(remaining, brackets[0], previousLimit);
      TaxOf(Slicing(remaining, brackets, previousLimit))
        == SliceTax(Slice(brackets[0].rate, amount))
           + TaxOf(Slicing(remaining - amount, brackets[1..], NextLimit(brackets[0], previousLimit)))
  {
    var amount := SliceAmount(remaining, brackets[0], previousLimit);
    var rest := Slicing(remaining - amount, brackets[1..], NextLimit(brackets[0], previousLimit));
    assert Slicing(remaining, brackets, previousLimit) == [Slice(brackets[0].rate, amount)] + rest;
    TaxOfCons(Slice(brackets[0].rate, amount), rest);
  }

  /** Tax is never negative, and lies between the lowest and the highest
      rate times the taxable income. */
  lemma {:induction false} TaxBetweenRates(remaining: real, brackets: seq<Bracket>, previousLimit: real,
                                           lo: real, hi: real)
    requires WellFormed(brackets, previousLimit) && RatesWithin(brackets, lo, hi) && 0.0 <= lo
    requires remaining >= 0.0
    ensures lo * remaining <= TaxOf(Slicing(remaining, brackets, previousLimit)) <= hi * remaining
    decreases |brackets|
  {
    if remaining > 0.0 {
      var amount := SliceAmount(remaining, brackets[0], previousLimit);
      var next := NextLimit(brackets[0], previousLimit);
      var rest := Slicing(remaining - amount, brackets[1..], next);
      var slice := Slice(brackets[0].rate, amount);
      TaxUnroll(remaining, brackets, previousLimit);
      var restIncome := remaining - amount;
      if brackets[0].limit.Some? {
        TaxBetweenRates(restIncome, brackets[1..], next, lo, hi);
      } else {
        assert rest == [] && restIncome == 0.0;
        assert lo * restIncome == 0.0 && hi * restIncome == 0.0;
      }
      assert lo <= slice.rate <= hi by {
        assert slice.rate == brackets[0].rate;
      }
      SplitBetween(slice, remaining, restIncome, TaxOf(rest), lo, hi);
    } else {
      assert lo * remaining == 0.0 && hi * remaining == 0.0;
    }
  }

  /** The bounds of one slice and of the rest add up to the bounds of the whole. */
  lemma SplitBetween(slice: Slice, remaining: real, restIncome: real, restTax: real, lo: real, hi: real)
    requires 0.0 < slice.amount && restIncome == remaining - slice.amount && lo <= slice.rate <= hi
    requires lo * restIncome <= restTax <= hi * restIncome
    ensures lo * remaining <= SliceTax(slice) + restTax <= hi * remaining
  {
    MulMonotone(slice.amount, lo, slice.rate);
    MulMonotone(slice.amount, slice.rate, hi);
    assert lo * restIncome + slice.amount * lo == lo * remaining;
    assert hi * restIncome + slice.amount * hi == hi * remaining;
  }

  /** More taxable income never means less tax. */
  lemma {:induction false} TaxMonotone(a: real, b: real, brackets: seq<Bracket>, previousLimit: real)
    requires WellFormed(brackets, previousLimit) && RatesWithin(brackets, 0.0, 1.0) && a <= b
    ensures TaxOf(Slicing(a, brackets, previousLimit)) <= TaxOf(Slicing(b, brackets, previousLimit))
    decreases |brackets|
  {
    if b <= 0.0 {
      assert Slicing(a, brackets, previousLimit) == [] && Slicing(b, brackets, previousLimit) == [];
    } else if a <= 0.0 {
      assert Slicing(a, brackets, previousLimit) == [];
      TaxBetweenRates(b, brackets, previousLimit, 0.0, 1.0);
    } else {
      var next := NextLimit(brackets[0], previousLimit);
      var x := SliceAmount(a, brackets[0], previousLimit);
      var y := SliceAmount(b, brackets[0], previousLimit);
      var rate := brackets[0].rate;
      TaxUnroll(a, brackets, previousLimit);
      TaxUnroll(b, brackets, previousLimit);
      assert x <= y && a - x <= b - y;
      if brackets[0].limit.Some? {
        TaxMonotone(a - x, b - y, brackets[1..], next);
      } else {
        assert Slicing(a - x, brackets[1..], next) == [] && Slicing(b - y, brackets[1..], next) == [];
      }
      assert TaxOf(Slicing(a - x, brackets[1..], next)) <= TaxOf(Slicing(b - y, brackets[1..], next));
      assert 0.0 <= rate;
      SliceTaxMonotone(rate, x, y);
    }
  }

  /** A wider slice at a non-negative rate carries no less tax. */
  lemma SliceTaxMonotone(rate: real, x: real, y: real)
    requires 0.0 <= rate && x <= y
    ensures SliceTax(Slice(rate, x)) <= SliceTax(Slice(rate, y))
  {
    MulMonotone(rate, x, y);
  }

  /** The marginal rate in percent: the rate of the first bracket whose limit
      is at least the taxable income, or 37 if there is none. */
  function MarginalRateOf(taxableIncome: real, brackets: seq<Bracket>): real
  {
    if |brackets| == 0 then 37.0
    else if brackets[0].limit.None? || taxableIncome <= brackets[0].limit.value then brackets[0].rate * 100.0
    else MarginalRateOf(taxableIncome, brackets[1..])
  }

  /** `getMarginalRate`, a scan for the first bracket that holds the income. */
  method GetMarginalRate(taxableIncome: real, brackets: seq<Bracket>) returns (rate: real)
    ensures rate == MarginalRateOf(taxableIncome, brackets)
  {
    var i := 0;
    while i < |brackets|
      invariant i <= |brackets|
      invariant MarginalRateOf(taxableIncome, brackets[i..]) == MarginalRateOf(taxableIncome, brackets)
    {
      var bracket := brackets[i];
      if bracket.limit.None? || taxableIncome <= bracket.limit.value {
        return bracket.rate * 100.0;
      }
      assert brackets[i..][1..] == brackets[i + 1..];
      i := i + 1;
    }
    return 37.0;
  }

  /** On a positive taxable income the marginal rate is the rate of the last
      slice the bracket loop cuts: the bracket the top dollar falls in. */
  lemma {:induction false} MarginalIsTopSlice(taxableIncome: real, remaining: real,
                                              brackets: seq<Bracket>, previousLimit: real)
    requires WellFormed(brackets, previousLimit) && remaining > 0.0
    requires taxableIncome == previousLimit + remaining
    ensures var s := Slicing(remaining, brackets, previousLimit);
      |s| > 0 && s[|s| - 1].rate * 100.0 == MarginalRateOf(taxableIncome, brackets)
    decreases |brackets|
  {
    var amount := SliceAmount(remaining, brackets[0], previousLimit);
    var next := NextLimit(brackets[0], previousLimit);
    var s := Slicing(remaining, brackets, previousLimit);
    var rest := Slicing(remaining - amount, brackets[1..], next);
    assert s == [Slice(brackets[0].rate, amount)] + rest;
    if brackets[0].limit.None? || taxableIncome <= brackets[0].limit.value {
      assert amount == remaining;
      assert rest == [];
    } else {
      MarginalIsTopSlice(taxableIncome, remaining - amount, brackets[1..], next);
      assert s[|s| - 1] == rest[|rest| - 1];
    }
  }

  /** On a well-formed table the fallback of 37 is never reached: the
      marginal rate is the rate of one of the brackets. */
  lemma {:induction false} MarginalInTable(taxableIncome: real, brackets: seq<Bracket>, previousLimit: real)
    requires WellFormed(brackets, previousLimit)
    ensures exists k :: 0 <= k < |brackets| && MarginalRateOf(taxableIncome, brackets) == brackets[k].rate * 100.0
    decreases |brackets|
  {
    if !(brackets[0].limit.None? || taxableIncome <= brackets[0].limit.value) {
      MarginalInTable(taxableIncome, brackets[1..], brackets[0].limit.value);
      var k :| 0 <= k < |brackets[1..]| && MarginalRateOf(taxableIncome, brackets[1..]) == brackets[1..][k].rate * 100.0;
      assert brackets[k + 1] == brackets[1..][k];
    } else {
      assert MarginalRateOf(taxableIncome, brackets) == brackets[0].rate * 100.0;
    }
  }
}
