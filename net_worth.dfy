/** Net worth (js/formulas/net-worth-formula.js): assets and liabilities by
    fixed category, their totals, allocation and composition shares sorted
    largest first, key ratios, a yearly projection and a comparison with
    age benchmarks. */
module NetWorth {
  import opened FinMath
  import Sorting

  /** The asset categories, in the order the breakdown lists them. */
  const AssetNames: seq<string> :=
    ["cash", "investments", "retirement", "realEstate", "vehicles", "personalProperty", "otherAssets"]

  /** The liability categories, in the order the breakdown lists them. */
  const LiabilityNames: seq<string> :=
    ["mortgage", "carLoans", "studentLoans", "creditCards", "personalLoans", "otherDebts"]

  /** A category and its amount. */
  datatype Entry = Entry(category: string, amount: real)

  /** `values[name] || 0`: a missing category counts as 0. */
  function Lookup(values: map<string, real>, name: string): (amount: real)
    ensures name !in values ==> amount == 0.0
    ensures name in values ==> amount == values[name]
  {
    if name in values then values[name] else 0.0
  }

  /** The breakdown: one entry per category name, in order. */
  function Breakdown(values: map<string, real>, names: seq<string>): (entries: seq<Entry>)
    ensures |entries| == |names|
    ensures forall i :: 0 <= i < |names| ==> entries[i] == Entry(names[i], Lookup(values, names[i]))
  {
    seq(|names|, i requires 0 <= i < |names| => Entry(names[i], Lookup(values, names[i])))
  }

  /** The amounts of `entries`, in order. `Budget.EnvelopeAmounts` is the
      same projection over the budget's envelope records. */
  function Amounts(entries: seq<Entry>): (amounts: seq<real>)
    ensures |amounts| == |entries|
    ensures forall i :: 0 <= i < |entries| ==> amounts[i] == entries[i].amount
  {
    seq(|entries|, i requires 0 <= i < |entries| => entries[i].amount)
  }

  /** The total of a breakdown, added up in order from 0. */
  function Total(entries: seq<Entry>): real
  {
    Sum(Amounts(entries))
  }

  /** An entry of the allocation or composition list: the amount in cents
      and its percentage of the total, 0 when the total is not positive. */
  datatype Share = Share(category: string, amount: real, percentage: real)

  function ShareOf(e: Entry, total: real): Share
  {
    Share(e.category, Cents(e.amount), if total > 0.0 then Percent(e.amount / total) else 0.0)
  }

  function Shares(entries: seq<Entry>, total: real): (shares: seq<Share>)
    ensures |shares| == |entries|
    ensures forall i :: 0 <= i < |entries| ==> shares[i] == ShareOf(entries[i], total)
  {
    seq(|entries|, i requires 0 <= i < |entries| => ShareOf(entries[i], total))
  }

  /** The order of `(a, b) => b.amount - a.amount`: largest amount first. */
  function AmountDescending(s: Share): real { -s.amount }

  /** The shares of `entries`, largest amount first. */
  function SortedShares(entries: seq<Entry>, total: real): seq<Share>
  {
    Sorting.SortBy(Shares(entries, total), AmountDescending)
  }

  datatype Status = Positive | Negative

  /** The report of `calculateNetWorth`. */
  datatype NetWorthReport = NetWorthReport(
    assetBreakdown: seq<Entry>,
    totalAssets: real,
    allocation: seq<Share>,
    liabilityBreakdown: seq<Entry>,
    totalLiabilities: real,
    composition: seq<Share>,
    netWorth: real,
    debtToAsset: real,
    liquidityRatio: real,
    netWorthStatus: Status)

  /** `calculateNetWorth`. */
  function CalculateNetWorth(assets: map<string, real>, liabilities: map<string, real>): (r: NetWorthReport)
    ensures |r.allocation| == |AssetNames| == 7 && |r.composition| == |LiabilityNames| == 6
    ensures var totalAssets := Total(Breakdown(assets, AssetNames));
      var totalLiabilities := Total(Breakdown(liabilities, LiabilityNames));
      && r.netWorth == Cents(totalAssets - totalLiabilities)
      && (r.netWorthStatus == Positive <==> totalAssets - totalLiabilities > 0.0)
      && (totalAssets <= 0.0 ==> r.debtToAsset == 0.0)
      && (totalLiabilities <= 0.0 ==> r.liquidityRatio == 0.0)
  {
    var assetCategories := Breakdown(assets, AssetNames);
    var liabilityCategories := Breakdown(liabilities, LiabilityNames);
    var totalAssets := Total(assetCategories);
    var totalLiabilities := Total(liabilityCategories);
    var netWorth := totalAssets - totalLiabilities;
    var debtToAsset := if totalAssets > 0.0 then (totalLiabilities / totalAssets) * 100.0 else 0.0;
    var liquidAssets := Lookup(assets, "cash") + Lookup(assets, "investments");
    var liquidityRatio := if totalLiabilities > 0.0 then (liquidAssets / totalLiabilities) * 100.0 else 0.0;
    assert Cents(0.0) == 0.0;
    NetWorthReport(assetCategories, Cents(totalAssets), SortedShares(assetCategories, totalAssets),
                   liabilityCategories, Cents(totalLiabilities), SortedShares(liabilityCategories, totalLiabilities),
                   Cents(netWorth), Cents(debtToAsset), Cents(liquidityRatio),
                   if netWorth > 0.0 then Positive else Negative)
  }

  /** The asset total is the seven categories added up, each missing one
      counting as 0. */
  lemma AssetTotal(assets: map<string, real>)
    ensures Total(Breakdown(assets, AssetNames))
            == Lookup(assets, "cash") + Lookup(assets, "investments") + Lookup(assets, "retirement")
               + Lookup(assets, "realEstate") + Lookup(assets, "vehicles") + Lookup(assets, "personalProperty")
               + Lookup(assets, "otherAssets")
  {
    SumOfSeven(Amounts(Breakdown(assets, AssetNames)));
  }

  lemma SumOfSeven(a: seq<real>)
    requires |a| == 7
    ensures Sum(a) == a[0] + a[1] + a[2] + a[3] + a[4] + a[5] + a[6]
  {
    SumOfSix(a[..6]);
    assert a == a[..6] + [a[6]];
    SumAppend(a[..6], a[6]);
  }

  lemma SumOfSix(a: seq<real>)
    requires |a| == 6
    ensures Sum(a) == a[0] + a[1] + a[2] + a[3] + a[4] + a[5]
  {
    var p := a[..2];
    assert Sum(p) == a[0] + a[1] by {
      assert p == [a[0]] + [a[1]];
      assert [a[0]] == [] + [a[0]];
      SumAppend([], a[0]);
      SumAppend([a[0]], a[1]);
    }
    assert a[..3] == p + [a[2]];
    SumAppend(p, a[2]);
    assert a[..4] == a[..3] + [a[3]];
    SumAppend(a[..3], a[3]);
    assert a[..5] == a[..4] + [a[4]];
    SumAppend(a[..4], a[4]);
    assert a == a[..5] + [a[5]];
    SumAppend(a[..5], a[5]);
  }

  /** The liability total is the six categories added up, each missing one
      counting as 0. */
  lemma LiabilityTotal(liabilities: map<string, real>)
    ensures Total(Breakdown(liabilities, LiabilityNames))
            == Lookup(liabilities, "mortgage") + Lookup(liabilities, "carLoans")
               + Lookup(liabilities, "studentLoans") + Lookup(liabilities, "creditCards")
               + Lookup(liabilities, "personalLoans") + Lookup(liabilities, "otherDebts")
  {
    SumOfSix(Amounts(Breakdown(liabilities, LiabilityNames)));
  }

  /** Each list holds every category's share once, largest amount first. */
  lemma SharesOrdered(entries: seq<Entry>, total: real)
    ensures multiset(SortedShares(entries, total)) == multiset(Shares(entries, total))
    ensures forall i, j :: 0 <= i < j < |entries| ==>
      SortedShares(entries, total)[i].amount >= SortedShares(entries, total)[j].amount
  {
    Sorting.SortBySorted(Shares(entries, total), AmountDescending);
  }

  /** When the total is not positive every percentage is 0. */
  lemma NoTotalNoPercentages(entries: seq<Entry>, total: real)
    requires total <= 0.0
    ensures forall s :: s in SortedShares(entries, total) ==> s.percentage == 0.0
  {
    var shares := Shares(entries, total);
    forall s | s in SortedShares(entries, total)
      ensures s.percentage == 0.0
    {
      assert s in multiset(shares);
      var i :| 0 <= i < |shares| && shares[i] == s;
    }
  }

  /** With non-negative amounts and a positive total every percentage lies
      between 0 and 100. */
  lemma PercentagesWithinWhole(entries: seq<Entry>)
    requires forall i :: 0 <= i < |entries| ==> entries[i].amount >= 0.0
    requires Total(entries) > 0.0
    ensures forall s :: s in SortedShares(entries, Total(entries)) ==> 0.0 <= s.percentage <= 100.0
  {
    var total := Total(entries);
    var shares := Shares(entries, total);
    forall s | s in SortedShares(entries, total)
      ensures 0.0 <= s.percentage <= 100.0
    {
      assert s in multiset(shares);
      var i :| 0 <= i < |shares| && shares[i] == s;
      ShareWithinWhole(entries, i);
    }
  }

  lemma ShareWithinWhole(entries: seq<Entry>, i: nat)
    requires forall k :: 0 <= k < |entries| ==> entries[k].amount >= 0.0
    requires Total(entries) > 0.0 && i < |entries|
    ensures 0.0 <= ShareOf(entries[i], Total(entries)).percentage <= 100.0
  {
    PartBelowSum(Amounts(entries), i);
    PercentWithin(entries[i].amount, Total(entries), 1.0);
    assert Percent(1.0) == 100.0;
  }

  /** The net worth after `k` years of the projection. */
  function NetWorthAfter(currentNetWorth: real, annualSavings: real, annualReturn: real, k: nat): real
  {
    Grow(currentNetWorth, annualReturn, annualSavings, k)
  }

  /** What `k` years of savings add. */
  function SavedBy(annualSavings: real, k: real): real
  {
    annualSavings * k
  }

  /** One row of `projectNetWorth`, amounts in cents. */
  datatype ProjectionRow = ProjectionRow(year: nat, netWorth: real, totalSavings: real, investmentGrowth: real)

  /** The row for year `k`. */
  function ProjectionRowAt(currentNetWorth: real, annualSavings: real, annualReturn: real, k: nat): ProjectionRow
  {
    var netWorth := NetWorthAfter(currentNetWorth, annualSavings, annualReturn, k);
    var saved := SavedBy(annualSavings, k as real);
    ProjectionRow(k, Cents(netWorth), Cents(saved), Cents(netWorth - (currentNetWorth + saved)))
  }

  /** `projectNetWorth`: one row per year 0..years. */
  method ProjectNetWorth(currentNetWorth: real, annualSavings: real, annualReturn: real, years: nat)
    returns (projections: seq<ProjectionRow>)
    ensures |projections| == years + 1
    ensures forall k :: 0 <= k <= years ==>
      projections[k] == ProjectionRowAt(currentNetWorth, annualSavings, annualReturn, k)
  {
    projections := [];
    var netWorth := currentNetWorth;
    for year := 0 to years + 1
      invariant |projections| == year
      invariant netWorth == NetWorthAfter(currentNetWorth, annualSavings, annualReturn, year)
      invariant forall k :: 0 <= k < year ==>
        projections[k] == ProjectionRowAt(currentNetWorth, annualSavings, annualReturn, k)
    {
      var saved := SavedBy(annualSavings, year as real);
      projections := projections + [ProjectionRow(year, Cents(netWorth), Cents(saved),
                                                  Cents(netWorth - (currentNetWorth + saved)))];
      netWorth := netWorth * (1.0 + annualReturn) + annualSavings;
    }
  }

  /** Year 0 is the current net worth, with no savings and no growth. */
  lemma FirstProjectionRow(currentNetWorth: real, annualSavings: real, annualReturn: real)
    ensures ProjectionRowAt(currentNetWorth, annualSavings, annualReturn, 0)
            == ProjectionRow(0, Cents(currentNetWorth), 0.0, 0.0)
  {
    assert SavedBy(annualSavings, 0.0) == 0.0;
    assert Cents(0.0) == 0.0;
  }

  /** Without a return, savings are the only change: no year shows growth. */
  lemma NoReturnNoGrowth(currentNetWorth: real, annualSavings: real, k: nat)
    ensures ProjectionRowAt(currentNetWorth, annualSavings, 0.0, k).investmentGrowth == 0.0
  {
    GrowAtZeroRate(currentNetWorth, annualSavings, k);
    assert Cents(0.0) == 0.0;
  }

  /** With a non-negative start, savings and return, no year shows negative
      growth. */
  lemma GrowthNonNegative(currentNetWorth: real, annualSavings: real, annualReturn: real, k: nat)
    requires currentNetWorth >= 0.0 && annualSavings >= 0.0 && annualReturn >= 0.0
    ensures ProjectionRowAt(currentNetWorth, annualSavings, annualReturn, k).investmentGrowth >= 0.0
  {
    GrowAtLeastContributions(currentNetWorth, annualReturn, annualSavings, k);
    var netWorth := NetWorthAfter(currentNetWorth, annualSavings, annualReturn, k);
    var saved := SavedBy(annualSavings, k as real);
    CentsNonNegative(netWorth - (currentNetWorth + saved));
  }

  /** `Math.floor(age / 10) * 10`: the decade the age falls in. */
  function AgeBracket(age: real): (bracket: int)
    ensures bracket as real <= age < bracket as real + 10.0
    ensures bracket % 10 == 0
  {
    (age / 10.0).Floor * 10
  }

  /** The target net worth listed for a bracket, if the bracket is listed. */
  function TargetByAge(bracket: int, age: real, income: real): Option<real>
  {
    if bracket == 30 then Some(age * income / 10.0)
    else if bracket == 40 then Some(age * income / 5.0)
    else if bracket == 50 then Some(age * income / 3.5)
    else if bracket == 60 then Some(age * income / 2.5)
    else None
  }

  /** The median net worth listed for a bracket, if the bracket is listed. */
  function MedianByAge(bracket: int): Option<real>
  {
    if bracket == 30 then Some(35000.0)
    else if bracket == 40 then Some(90000.0)
    else if bracket == 50 then Some(170000.0)
    else if bracket == 60 then Some(250000.0)
    else None
  }

  /** `listed || fallback`: a missing or zero value falls back. */
  function OrElse(listed: Option<real>, fallback: real): (v: real)
    ensures v == fallback || (listed.Some? && v == listed.value != 0.0)
  {
    if listed.Some? && listed.value != 0.0 then listed.value else fallback
  }

  /** `(x - base) / base` in percent, `None` where a zero base yields NaN or
      Infinity. */
  function Versus(x: real, base: real): Option<real>
  {
    if base == 0.0 then None else Some(Percent((x - base) / base))
  }

  /** The report of `compareToBenchmarks`. */
  datatype Benchmark = Benchmark(yourNetWorth: real, targetForAge: real, medianForAge: real,
                                 vsTarget: Option<real>, vsMedian: Option<real>, onTrack: bool)

  /** `compareToBenchmarks`. */
  function CompareToBenchmarks(netWorth: real, age: real, income: real): (b: Benchmark)
    ensures var target := OrElse(TargetByAge(AgeBracket(age), age, income), netWorth);
      && b.targetForAge == Cents(target)
      && (b.onTrack <==> netWorth >= target * 0.8)
  {
    var ageBracket := AgeBracket(age);
    var target := OrElse(TargetByAge(ageBracket, age, income), netWorth);
    var median := OrElse(MedianByAge(ageBracket), netWorth);
    Benchmark(Cents(netWorth), Cents(target), Cents(median), Versus(netWorth, target), Versus(netWorth, median),
              netWorth >= target * 0.8)
  }

  /** Outside ages 30 to 69 no benchmark is listed: target and median are
      the net worth itself, which is on track exactly when not negative. */
  lemma UnlistedAgeDefaults(netWorth: real, age: real, income: real)
    requires age < 30.0 || age >= 70.0
    ensures var b := CompareToBenchmarks(netWorth, age, income);
      && b.targetForAge == b.medianForAge == b.yourNetWorth
      && (b.onTrack <==> netWorth >= 0.0)
      && b.vsTarget == b.vsMedian == (if netWorth == 0.0 then None else Some(0.0))
  {
    var bracket := AgeBracket(age);
    assert bracket < 30 || bracket >= 70;
    assert netWorth - netWorth == 0.0;
    assert Percent(0.0) == 0.0;
  }

  /** In the fifties, with a positive age and income, the target is the
      age times the income over 3.5, and the median is 170000. */
  lemma FiftiesBenchmark(netWorth: real, age: real, income: real)
    requires 50.0 <= age < 60.0 && income > 0.0
    ensures var b := CompareToBenchmarks(netWorth, age, income);
      && b.targetForAge == Cents(age * income / 3.5)
      && b.medianForAge == Cents(170000.0)
      && (b.onTrack <==> netWorth >= age * income / 3.5 * 0.8)
  {
    assert AgeBracket(age) == 50;
    assert age * income > 0.0;
  }
}
