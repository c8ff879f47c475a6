/** Social Security retirement benefits (js/formulas/social-security-formula.js):
    the primary insurance amount from average indexed monthly earnings, the
    adjustment for claiming before or after full retirement age, the average
    of the best 35 years of earnings, and the cumulative totals of claiming
    early against waiting for full retirement age. Ages are whole years. */
module SocialSecurity {
  import opened FinMath
  import Sorting

  const FirstBendPoint: real := 1174.0
  const SecondBendPoint: real := 7078.0

  /** The reduction per month claimed early and the credit per month claimed
      late, as fractions of the primary insurance amount. */
  const EarlyReduction: real := 0.005556
  const DelayedCredit: real := 0.006667

  /** The years of earnings the average counts. */
  const CountedYears: nat := 35

  /** The primary insurance amount: 90% of earnings up to the first bend
      point, 32% up to the second and 15% above it. On non-negative
      earnings that is between 15% and 90% of them. */
  function Pia(aime: real): (p: real)
    ensures aime >= 0.0 ==> 0.15 * aime <= p <= 0.90 * aime
  {
    if aime <= FirstBendPoint then aime * 0.90
    else if aime <= SecondBendPoint then FirstBendPoint * 0.90 + (aime - FirstBendPoint) * 0.32
    else FirstBendPoint * 0.90 + (SecondBendPoint - FirstBendPoint) * 0.32 + (aime - SecondBendPoint) * 0.15
  }

  /** Between any two earnings figures the amount grows by at least 15% and at
      most 90% of the difference: it is increasing and continuous, also at
      both bend points, where the pieces meet. */
  lemma PiaSlopes(x: real, y: real)
    requires x <= y
    ensures 0.15 * (y - x) <= Pia(y) - Pia(x) <= 0.90 * (y - x)
    ensures Pia(FirstBendPoint) == 1056.6 && Pia(SecondBendPoint) == 2945.88
  {
    if x <= FirstBendPoint && SecondBendPoint < y {
      assert Pia(y) - Pia(x) == (FirstBendPoint - x) * 0.90 + (SecondBendPoint - FirstBendPoint) * 0.32
                                  + (y - SecondBendPoint) * 0.15;
    }
  }

  /** The factor the claiming age applies: 5/9 of 1% less per month before
      full retirement age, 2/3 of 1% more per month after it, without a cap
      at age 70. */
  function AdjustmentFactor(claimingAge: int, fra: int): (f: real)
    ensures claimingAge == fra ==> f == 1.0
    ensures claimingAge < fra ==> f == 1.0 - (fra - claimingAge) as real * 12.0 * EarlyReduction
    ensures claimingAge > fra ==> f == 1.0 + (claimingAge - fra) as real * 12.0 * DelayedCredit
  {
    var ageDiff := claimingAge - fra;
    if ageDiff < 0 then 1.0 - (IntAbs(ageDiff) * 12) as real * EarlyReduction
    else if ageDiff > 0 then 1.0 + (ageDiff * 12) as real * DelayedCredit
    else 1.0
  }

  /** Claiming a year later never lowers the factor: it strictly increases
      with the claiming age, so it is below 1 exactly before full retirement
      age and above 1 exactly after it. */
  lemma FactorIncreasing(age1: int, age2: int, fra: int)
    requires age1 < age2
    ensures AdjustmentFactor(age1, fra) < AdjustmentFactor(age2, fra)
  {
  }

  /** The monthly benefit when claiming at `claimingAge`: the primary
      insurance amount at full retirement age, less before it and more after
      it. */
  function MonthlyBenefit(aime: real, claimingAge: int, fra: int): (b: real)
    ensures claimingAge == fra ==> b == Pia(aime)
    ensures Pia(aime) >= 0.0 && claimingAge < fra ==> b <= Pia(aime)
    ensures Pia(aime) >= 0.0 && claimingAge > fra ==> b >= Pia(aime)
  {
    ScaleByFactor(Pia(aime), AdjustmentFactor(claimingAge, fra));
    Pia(aime) * AdjustmentFactor(claimingAge, fra)
  }

  lemma ScaleByFactor(p: real, f: real)
    ensures p >= 0.0 && f <= 1.0 ==> p * f <= p
    ensures p >= 0.0 && f >= 1.0 ==> p * f >= p
  {
    if p >= 0.0 {
      if f <= 1.0 { MulMonotone(p, f, 1.0); } else { MulMonotone(p, 1.0, f); }
    }
  }

  /** The benefit the comparison shows for claiming at 70. */
  function Age70Benefit(aime: real): real
  {
    Pia(aime) * (1.0 + DelayedCredit * 12.0 * 3.0)
  }

  /** The age-70 comparison ignores the full retirement age: it is what
      claiming at 70 pays when, and only when, full retirement age is 67. */
  lemma Age70IsClaimAtSeventy(aime: real, fra: int)
    requires Pia(aime) != 0.0
    ensures Age70Benefit(aime) == MonthlyBenefit(aime, 70, fra) <==> fra == 67
  {
    var p := Pia(aime);
    var f := AdjustmentFactor(70, fra);
    assert f == 1.240012 <==> fra == 67;
    assert Age70Benefit(aime) - MonthlyBenefit(aime, 70, fra) == p * (1.240012 - f);
    if p * (1.240012 - f) == 0.0 {
      ZeroFactor(p, 1.240012 - f);
    }
  }

  lemma ZeroFactor(p: real, q: real)
    requires p != 0.0 && p * q == 0.0
    ensures q == 0.0
  {
    assert q == (p * q) / p;
  }

  /** Since the factor has no cap, claiming after 70 with a full retirement
      age of 67 pays more than the age-70 comparison, for a positive amount. */
  lemma ClaimAfterSeventyExceedsComparison(aime: real, claimingAge: int)
    requires claimingAge > 70 && Pia(aime) > 0.0
    ensures MonthlyBenefit(aime, claimingAge, 67) > Age70Benefit(aime)
  {
    var p, f70, f := Pia(aime), AdjustmentFactor(70, 67), AdjustmentFactor(claimingAge, 67);
    var late, atSeventy := MonthlyBenefit(aime, claimingAge, 67), Age70Benefit(aime);
    FactorIncreasing(70, claimingAge, 67);
    ScaledOrder(p, f70, f, atSeventy, late);
  }

  lemma ScaledOrder(p: real, f1: real, f2: real, b1: real, b2: real)
    requires p > 0.0 && f1 < f2 && b1 == p * f1 && b2 == p * f2
    ensures b1 < b2
  {
    MulStrict(p, f1, f2);
  }

  /** The age-62 comparison as the source computes it: the benefit already
      adjusted for the chosen claiming age, reduced once more by
      `(1 - 0.005556 * 12)` per year between 62 and full retirement age.
      For a claim at 62 it is the claimed benefit itself; otherwise, with a
      full retirement age of 62 or later, it is never more than the claimed
      benefit, whatever the claiming age. */
  function Age62AsWritten(monthlyBenefit: real, claimingAge: int, fra: int): (a: real)
    ensures claimingAge == 62 ==> a == monthlyBenefit
    ensures monthlyBenefit >= 0.0 && fra >= 62 ==> 0.0 <= a <= monthlyBenefit
  {
    var x := 1.0 - EarlyReduction * 12.0;
    var factor := if claimingAge == 62 then 1.0 else PowInt(x, fra - 62);
    if fra >= 62 && monthlyBenefit >= 0.0 then
      PowAtMostOne(x, fra - 62);
      assert PowInt(x, fra - 62) == Pow(x, fra - 62);
      assert 0.0 <= factor <= 1.0;
      ScaleByFactor(monthlyBenefit, factor);
      MulMonotone(monthlyBenefit, 0.0, factor);
      monthlyBenefit * factor
    else
      monthlyBenefit * factor
  }

  /** The age-62 comparison as intended: what claiming at 62 pays. */
  function Age62Benefit(aime: real, fra: int): (b: real)
    ensures b == Pia(aime) * AdjustmentFactor(62, fra)
  {
    MonthlyBenefit(aime, 62, fra)
  }

  /** The intended comparison agrees with the source's for someone who claims
      at 62, does not depend on the claiming age, and for a full retirement
      age of 62 or later and non-negative earnings never exceeds the benefit
      at full retirement age. */
  lemma Age62Comparison(aime: real, claimingAge: int, fra: int)
    ensures Age62AsWritten(MonthlyBenefit(aime, 62, fra), 62, fra) == Age62Benefit(aime, fra)
    ensures aime >= 0.0 && fra >= 62 ==> Age62Benefit(aime, fra) <= Pia(aime)
  {
    var m := MonthlyBenefit(aime, 62, fra);
    assert Age62AsWritten(m, 62, fra) == m * 1.0 == m;
    if aime >= 0.0 && fra >= 62 {
      var p, f := Pia(aime), AdjustmentFactor(62, fra);
      assert f <= 1.0 by {
        if fra > 62 {
          FactorIncreasing(62, fra, fra);
          assert AdjustmentFactor(fra, fra) == 1.0;
        }
      }
      MulMonotone(p, f, 1.0);
      assert p * f <= p;
      assert Age62Benefit(aime, fra) == p * f;
    }
  }

  /** The source's age-62 figure changes with the claiming age: with average
      earnings of 1000 and full retirement age 67, someone claiming at 67 is
      shown 900 * 0.933328^5 (about 637.5) instead of the 599.976 that
      claiming at 62 pays. */
  lemma Age62AsWrittenDiffers()
    ensures Age62AsWritten(MonthlyBenefit(1000.0, 67, 67), 67, 67) != Age62Benefit(1000.0, 67)
    ensures Age62Benefit(1000.0, 67) == 599.976
  {
    var x := 1.0 - EarlyReduction * 12.0;
    assert PowInt(x, 5) == Pow(x, 5) == x * Pow(x, 4);
    assert Pow(x, 4) == x * (x * Pow(x, 2));
    assert Pow(x, 2) == x * (x * Pow(x, 0));
    assert Age62AsWritten(MonthlyBenefit(1000.0, 67, 67), 67, 67) == 900.0 * PowInt(x, 5);
  }

  /** One entry of a cumulative series. */
  datatype AgeTotal = AgeTotal(age: int, total: real)

  /** What `calculateBreakEven` returns. */
  datatype BreakEvenAnalysis = BreakEvenAnalysis(
    breakEvenAge: Option<int>,
    cumulativeEarly: seq<AgeTotal>,
    cumulativeFra: seq<AgeTotal>)

  /** The divisor that recovers the full-retirement benefit from the claimed
      one; for whole ages it is never zero. */
  function FraDivisor(claimingAge: int, fra: int): (d: real)
    ensures d != 0.0
  {
    var years := fra - claimingAge;
    assert years <= 14 || years >= 15;
    1.0 - (years * 12) as real * EarlyReduction
  }

  function FraBenefit(benefit: real, claimingAge: int, fra: int): real
  {
    benefit / FraDivisor(claimingAge, fra)
  }

  /** The total collected by the end of `age` when claiming at
      `claimingAge`: twelve months of the benefit each year from the claiming
      age on. */
  function EarlyTotal(benefit: real, claimingAge: int, age: int): real
    decreases age - claimingAge
  {
    if age < claimingAge then 0.0 else EarlyTotal(benefit, claimingAge, age - 1) + benefit * 12.0
  }

  /** The total collected by the end of `age` when waiting: twelve months of
      the full-retirement benefit each year from the claiming age on that is
      at or after full retirement age. */
  function FraTotal(benefit: real, claimingAge: int, fra: int, age: int): real
    decreases age - claimingAge
  {
    if age < claimingAge then 0.0
    else FraTotal(benefit, claimingAge, fra, age - 1)
         + (if age >= fra then FraBenefit(benefit, claimingAge, fra) * 12.0 else 0.0)
  }

  /** The years from `claimingAge` to `age` that are at or after full
      retirement age. */
  function FraYears(claimingAge: int, fra: int, age: int): int
  {
    if age < fra || age < claimingAge then 0 else age - (if fra > claimingAge then fra else claimingAge) + 1
  }

  /** Both totals in closed form: the years counted times a year's benefit. */
  lemma {:induction false} EarlyClosedForm(benefit: real, claimingAge: int, age: int)
    requires age >= claimingAge - 1
    ensures EarlyTotal(benefit, claimingAge, age) == (age - claimingAge + 1) as real * (benefit * 12.0)
    decreases age - claimingAge
  {
    if age >= claimingAge {
      EarlyClosedForm(benefit, claimingAge, age - 1);
    }
  }

  lemma {:induction false} FraClosedForm(benefit: real, claimingAge: int, fra: int, age: int)
    requires age >= claimingAge - 1
    ensures FraTotal(benefit, claimingAge, fra, age)
      == FraYears(claimingAge, fra, age) as real * (FraBenefit(benefit, claimingAge, fra) * 12.0)
    decreases age - claimingAge
  {
    if age >= claimingAge {
      FraClosedForm(benefit, claimingAge, fra, age - 1);
      var y := FraYears(claimingAge, fra, age - 1);
      var year := FraBenefit(benefit, claimingAge, fra) * 12.0;
      if age >= fra {
        assert FraYears(claimingAge, fra, age) == y + 1;
        assert (y + 1) as real * year == y as real * year + year;
      } else {
        assert FraYears(claimingAge, fra, age) == y;
      }
    }
  }

  /** By the end of `age`, at or after full retirement age, waiting has
      collected at least as much as claiming early. */
  predicate BreaksEven(benefit: real, claimingAge: int, fra: int, age: int)
  {
    FraTotal(benefit, claimingAge, fra, age) >= EarlyTotal(benefit, claimingAge, age) && age >= fra
  }

  /** The number of ages from `claimingAge` to 100. */
  function AgeCount(claimingAge: int): nat
  {
    if claimingAge <= 100 then 101 - claimingAge else 0
  }

  /** What the analysis holds: one entry per age from the claiming age to
      100 in both series, each the total collected by the end of that age,
      and as break-even age the first such age at which waiting has caught
      up, or none. */
  ghost predicate BreakEvenSpec(benefit: real, claimingAge: int, fra: int, r: BreakEvenAnalysis)
  {
    |r.cumulativeEarly| == AgeCount(claimingAge) && |r.cumulativeFra| == AgeCount(claimingAge) &&
    (forall k :: 0 <= k < |r.cumulativeEarly| ==>
       r.cumulativeEarly[k] == AgeTotal(claimingAge + k, EarlyTotal(benefit, claimingAge, claimingAge + k))) &&
    (forall k :: 0 <= k < |r.cumulativeFra| ==>
       r.cumulativeFra[k] == AgeTotal(claimingAge + k, FraTotal(benefit, claimingAge, fra, claimingAge + k))) &&
    (r.breakEvenAge.Some? ==>
       claimingAge <= r.breakEvenAge.value <= 100 &&
       BreaksEven(benefit, claimingAge, fra, r.breakEvenAge.value) &&
       forall a :: claimingAge <= a < r.breakEvenAge.value ==> !BreaksEven(benefit, claimingAge, fra, a)) &&
    (r.breakEvenAge.None? ==>
       forall a :: claimingAge <= a <= 100 ==> !BreaksEven(benefit, claimingAge, fra, a))
  }

  /** `calculateBreakEven`. */
  method CalculateBreakEven(benefit: real, claimingAge: int, fra: int) returns (r: BreakEvenAnalysis)
    ensures BreakEvenSpec(benefit, claimingAge, fra, r)
  {
    var fraBenefit := benefit / FraDivisor(claimingAge, fra);
    var cumulativeEarly: seq<AgeTotal> := [];
    var cumulativeFra: seq<AgeTotal> := [];
    var earlyTotal := 0.0;
    var fraTotal := 0.0;
    var breakEvenAge: Option<int> := None;
    var age := claimingAge;
    while age <= 100
      invariant claimingAge <= age && (age <= 101 || age == claimingAge)
      invariant earlyTotal == EarlyTotal(benefit, claimingAge, age - 1)
      invariant fraTotal == FraTotal(benefit, claimingAge, fra, age - 1)
      invariant |cumulativeEarly| == age - claimingAge && |cumulativeFra| == age - claimingAge
      invariant forall k :: 0 <= k < |cumulativeEarly| ==>
        cumulativeEarly[k] == AgeTotal(claimingAge + k, EarlyTotal(benefit, claimingAge, claimingAge + k))
      invariant forall k :: 0 <= k < |cumulativeFra| ==>
        cumulativeFra[k] == AgeTotal(claimingAge + k, FraTotal(benefit, claimingAge, fra, claimingAge + k))
      invariant breakEvenAge.Some? ==>
        claimingAge <= breakEvenAge.value < age &&
        BreaksEven(benefit, claimingAge, fra, breakEvenAge.value) &&
        forall a :: claimingAge <= a < breakEvenAge.value ==> !BreaksEven(benefit, claimingAge, fra, a)
      invariant breakEvenAge.None? ==>
        forall a :: claimingAge <= a < age ==> !BreaksEven(benefit, claimingAge, fra, a)
      decreases 101 - age
    {
      if age >= claimingAge {
        earlyTotal := earlyTotal + benefit * 12.0;
      }
      if age >= fra {
        fraTotal := fraTotal + fraBenefit * 12.0;
      }
      cumulativeEarly := cumulativeEarly + [AgeTotal(age, earlyTotal)];
      cumulativeFra := cumulativeFra + [AgeTotal(age, fraTotal)];
      if breakEvenAge.None? && fraTotal >= earlyTotal && age >= fra {
        breakEvenAge := Some(age);
      }
      age := age + 1;
    }
    r := BreakEvenAnalysis(breakEvenAge, cumulativeEarly, cumulativeFra);
  }

  /** Claiming at full retirement age breaks even at once: both totals are
      the same from the first year. */
  lemma BreakEvenAtFra(benefit: real, fra: int)
    ensures BreaksEven(benefit, fra, fra, fra)
  {
  }

  /** Claiming after full retirement age with a positive benefit never breaks
      even: the benefit the comparison divides back out is smaller, so the
      waiting total stays behind. */
  lemma LateClaimNeverBreaksEven(benefit: real, claimingAge: int, fra: int, age: int)
    requires claimingAge > fra && benefit > 0.0 && age >= claimingAge
    ensures !BreaksEven(benefit, claimingAge, fra, age)
  {
    var d := FraDivisor(claimingAge, fra);
    var fb := FraBenefit(benefit, claimingAge, fra);
    assert d > 1.0;
    assert fb * d == benefit;
    assert fb < benefit by {
      if fb >= benefit {
        MulMonotone(fb, 1.0, d);
      }
    }
    var n := (age - claimingAge + 1) as real;
    EarlyClosedForm(benefit, claimingAge, age);
    FraClosedForm(benefit, claimingAge, fra, age);
    MulStrict(n, fb * 12.0, benefit * 12.0);
  }

  /** Claiming early (by at most fourteen years) with a positive benefit:
      once waiting has caught up it stays ahead, because every year at or
      after full retirement age it collects more. */
  lemma EarlyClaimStaysEven(benefit: real, claimingAge: int, fra: int, age: int)
    requires claimingAge < fra <= claimingAge + 14 && benefit > 0.0
    requires BreaksEven(benefit, claimingAge, fra, age)
    ensures BreaksEven(benefit, claimingAge, fra, age + 1)
  {
    var d := FraDivisor(claimingAge, fra);
    var fb := FraBenefit(benefit, claimingAge, fra);
    assert 0.0 < d < 1.0;
    assert fb * d == benefit;
    assert fb > benefit by {
      if fb <= benefit {
        MulMonotone(fb, d, 1.0);
      }
    }
    assert FraTotal(benefit, claimingAge, fra, age + 1) == FraTotal(benefit, claimingAge, fra, age) + fb * 12.0;
  }

  /** The comparison figures of `calculateBenefit`. */
  datatype Comparison = Comparison(age62: real, fra: real, age70: real)

  /** What `calculateBenefit` returns. */
  datatype BenefitReport = BenefitReport(
    aime: real,
    pia: real,
    claimingAge: int,
    fra: int,
    adjustmentFactor: real,
    monthlyBenefit: real,
    annualBenefit: real,
    comparison: Comparison,
    breakEvenAnalysis: BreakEvenAnalysis)

  /** `calculateBenefit`, with the age-62 comparison as intended. The money is
      rounded to cents and the factor to four decimals; the full-retirement
      comparison is the primary insurance amount itself, and the analysis
      compares the claimed monthly benefit with waiting. */
  method CalculateBenefit(aime: real, claimingAge: int, fra: int) returns (r: BenefitReport)
    ensures r.aime == Cents(aime) && r.pia == Cents(Pia(aime))
    ensures r.claimingAge == claimingAge && r.fra == fra
    ensures r.adjustmentFactor == Round4(AdjustmentFactor(claimingAge, fra))
    ensures r.monthlyBenefit == Cents(MonthlyBenefit(aime, claimingAge, fra))
    ensures r.annualBenefit == Cents(MonthlyBenefit(aime, claimingAge, fra) * 12.0)
    ensures r.comparison == Comparison(Cents(Age62Benefit(aime, fra)), r.pia, Cents(Age70Benefit(aime)))
    ensures claimingAge == 62 ==>
              r.comparison.age62 == Cents(Age62AsWritten(MonthlyBenefit(aime, claimingAge, fra), claimingAge, fra))
    ensures BreakEvenSpec(MonthlyBenefit(aime, claimingAge, fra), claimingAge, fra, r.breakEvenAnalysis)
  {
    var pia := Pia(aime);
    var adjustmentFactor := AdjustmentFactor(claimingAge, fra);
    var monthlyBenefit := MonthlyBenefit(aime, claimingAge, fra);
    var annualBenefit := monthlyBenefit * 12.0;
    var age62Benefit := Age62Benefit(aime, fra);
    var fraBenefit := pia;
    var age70Benefit := Age70Benefit(aime);
    var analysis := CalculateBreakEven(monthlyBenefit, claimingAge, fra);
    Age62Comparison(aime, claimingAge, fra);
    r := BenefitReport(Cents(aime), Cents(pia), claimingAge, fra, Round4(adjustmentFactor),
                       Cents(monthlyBenefit), Cents(annualBenefit),
                       Comparison(Cents(age62Benefit), Cents(fraBenefit), Cents(age70Benefit)),
                       analysis);
  }

  /** The earnings above zero, in input order. */
  function Positives(s: seq<real>): (r: seq<real>)
    ensures forall k :: 0 <= k < |r| ==> r[k] > 0.0
  {
    if s == [] then [] else (if s[0] > 0.0 then [s[0]] else []) + Positives(s[1..])
  }

  /** Filtering keeps each positive value as often as it occurs and drops
      the rest. */
  lemma {:induction false} PositivesCount(s: seq<real>, x: real)
    ensures multiset(Positives(s))[x] == if x > 0.0 then multiset(s)[x] else 0
  {
    if s != [] {
      PositivesCount(s[1..], x);
      assert s == [s[0]] + s[1..];
    }
  }

  /** The key that sorts in descending order. */
  function Negated(x: real): real { -x }

  /** The positive earnings, highest first. */
  function Ranked(earnings: seq<real>): seq<real>
  {
    Sorting.SortBy(Positives(earnings), Negated)
  }

  /** `calculateAIME`: the best 35 positive years, summed and spread over 420
      months, rounded to cents. */
  function CalculateAime(earnings: seq<real>): (aime: real)
    ensures aime >= 0.0
    ensures (forall k :: 0 <= k < |earnings| ==> earnings[k] <= 0.0) ==> aime == 0.0
  {
    TopYearsNonNegative(earnings);
    NoEarningsNoTopYears(earnings);
    assert Cents(0.0) == 0.0;
    Cents(Sum(Take(Ranked(earnings), CountedYears)) / (CountedYears * 12) as real)
  }

  /** The ranking holds exactly the positive earnings, from highest to lowest. */
  lemma RankedDescending(earnings: seq<real>)
    ensures Sorting.Descending(Ranked(earnings))
    ensures multiset(Ranked(earnings)) == multiset(Positives(earnings))
  {
    Sorting.SortBySorted(Positives(earnings), Negated);
    var r := Ranked(earnings);
    forall i, j | 0 <= i < j < |r|
      ensures r[i] >= r[j]
    {
      assert Negated(r[i]) <= Negated(r[j]);
    }
  }

  /** The average counts at most 35 years, and no year it leaves out earned
      more than a year it counts. */
  lemma AimeUsesBestYears(earnings: seq<real>)
    ensures |Take(Ranked(earnings), CountedYears)| <= CountedYears
    ensures var r := Ranked(earnings); var top := Take(r, CountedYears);
      forall i, j :: 0 <= i < |top| <= j < |r| ==> top[i] >= r[j]
  {
    RankedDescending(earnings);
  }

  /** The best years sum to a non-negative amount. */
  lemma TopYearsNonNegative(earnings: seq<real>)
    ensures Sum(Take(Ranked(earnings), CountedYears)) >= 0.0
  {
    var r := Ranked(earnings);
    var p := Positives(earnings);
    RankedDescending(earnings);
    var top := Take(r, CountedYears);
    forall k | 0 <= k < |top|
      ensures top[k] >= 0.0
    {
      assert top[k] == r[k];
      assert r[k] in multiset(p);
    }
    SumNonNegative(top);
  }

  /** Without a year of positive earnings nothing is ranked. */
  lemma {:induction false} NoPositives(s: seq<real>)
    requires forall k :: 0 <= k < |s| ==> s[k] <= 0.0
    ensures Positives(s) == []
  {
    if s != [] {
      assert forall k :: 0 <= k < |s[1..]| ==> s[1..][k] == s[k + 1];
      NoPositives(s[1..]);
    }
  }

  lemma NoEarningsNoTopYears(earnings: seq<real>)
    ensures (forall k :: 0 <= k < |earnings| ==> earnings[k] <= 0.0) ==>
              Sum(Take(Ranked(earnings), CountedYears)) == 0.0
  {
    if forall k :: 0 <= k < |earnings| ==> earnings[k] <= 0.0 {
      NoPositives(earnings);
      assert Take(Ranked(earnings), CountedYears) == [];
    }
  }

  /** The order the earnings come in does not matter. */
  lemma AimeOrderIndependent(a: seq<real>, b: seq<real>)
    requires multiset(a) == multiset(b)
    ensures CalculateAime(a) == CalculateAime(b)
  {
    forall x
      ensures multiset(Positives(a))[x] == multiset(Positives(b))[x]
    {
      PositivesCount(a, x);
      PositivesCount(b, x);
    }
    assert multiset(Positives(a)) == multiset(Positives(b));
    RankedDescending(a);
    RankedDescending(b);
    Sorting.DescendingUnique(Ranked(a), Ranked(b));
  }
}
