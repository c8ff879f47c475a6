/** Self-employment tax (js/formulas/self-employment-tax-formula.js): Social
    Security on 92.35% of net earnings up to what is left of the wage base,
    Medicare on all of it, and the additional Medicare tax above $200,000. */
module SelfEmploymentTax {
  import opened FinMath

  const SocialSecurityRate: real := 0.124
  const MedicareRate: real := 0.029
  const AdditionalMedicareRate: real := 0.009
  const SocialSecurityWageBase: real := 168600.0
  const AdditionalMedicareThreshold: real := 200000.0

  /** The unrounded figures. */
  datatype SeFigures = SeFigures(
    taxableEarnings: real,
    socialSecurityTax: real,
    medicareTax: real,
    additionalMedicareTax: real,
    totalTax: real,
    deductiblePortion: real,
    quarterlyPayment: real)

  /** The report of `calculateSETax`, money rounded to cents and the
      effective rate in percent. */
  datatype SeReport = SeReport(
    netEarnings: real,
    taxableEarnings: real,
    socialSecurityTax: real,
    medicareTax: real,
    additionalMedicareTax: real,
    totalTax: real,
    deductiblePortion: real,
    quarterlyPayment: real,
    effectiveRate: real)

  /** The earnings Social Security taxes: the taxable earnings, but no more
      than what other wages left of the wage base (never less than nothing).
      The result is one of those two amounts and at most each of them. */
  function SocialSecurityEarnings(taxableEarnings: real, otherWages: real): (e: real)
    ensures e == taxableEarnings || e == Max(0.0, SocialSecurityWageBase - otherWages)
    ensures e <= taxableEarnings && e <= Max(0.0, SocialSecurityWageBase - otherWages)
    ensures otherWages >= 0.0 ==> e <= SocialSecurityWageBase
    ensures otherWages >= SocialSecurityWageBase ==> e <= 0.0
    ensures taxableEarnings >= 0.0 ==> e >= 0.0
  {
    Min(taxableEarnings, Max(0.0, SocialSecurityWageBase - otherWages))
  }

  /** The additional Medicare tax: 0.9% of the taxable earnings above the
      threshold, nothing at or below it. */
  function AdditionalMedicare(taxableEarnings: real): (t: real)
    ensures t >= 0.0
    ensures t > 0.0 <==> taxableEarnings > AdditionalMedicareThreshold
    ensures taxableEarnings > AdditionalMedicareThreshold ==>
              t == (taxableEarnings - AdditionalMedicareThreshold) * AdditionalMedicareRate
  {
    if taxableEarnings > AdditionalMedicareThreshold
    then (taxableEarnings - AdditionalMedicareThreshold) * AdditionalMedicareRate
    else 0.0
  }

  /** The figures of `calculateSETax` before rounding. Half the tax is
      deductible and a quarter of it is due each quarter. Social Security
      never takes more than 12.4% of the wage base, and nothing once other
      wages have used the base up. */
  function SeFiguresOf(netEarnings: real, otherWages: real): (f: SeFigures)
    ensures f.taxableEarnings == netEarnings * 0.9235
    ensures f.totalTax == f.socialSecurityTax + f.medicareTax + f.additionalMedicareTax
    ensures f.deductiblePortion * 2.0 == f.totalTax && f.quarterlyPayment * 4.0 == f.totalTax
    ensures otherWages >= 0.0 ==> f.socialSecurityTax <= SocialSecurityRate * SocialSecurityWageBase
    ensures otherWages >= SocialSecurityWageBase && netEarnings >= 0.0 ==> f.socialSecurityTax == 0.0
    ensures f.medicareTax == MedicareRate * f.taxableEarnings
    ensures f.socialSecurityTax == SocialSecurityEarnings(f.taxableEarnings, otherWages) * SocialSecurityRate
    ensures f.additionalMedicareTax == AdditionalMedicare(f.taxableEarnings)
  {
    var taxableEarnings := netEarnings * 0.9235;
    var ssEarnings := SocialSecurityEarnings(taxableEarnings, otherWages);
    var socialSecurityTax := ssEarnings * SocialSecurityRate;
    var medicareTax := taxableEarnings * MedicareRate;
    var additionalMedicareTax := AdditionalMedicare(taxableEarnings);
    var totalTax := socialSecurityTax + medicareTax + additionalMedicareTax;
    var f := SeFigures(taxableEarnings, socialSecurityTax, medicareTax, additionalMedicareTax, totalTax,
                       totalTax * 0.5, totalTax / 4.0);
    if otherWages >= 0.0 then
      MulMonotone(SocialSecurityRate, ssEarnings, SocialSecurityWageBase);
      f
    else
      f
  }

  /** `calculateSETax`: every amount rounded to cents. The rounded parts add
      up to the rounded total, and half and a quarter of the rounded total
      are the deductible part and the quarterly payment, each up to the
      rounding. */
  function CalculateSeTax(netEarnings: real, otherWages: real): (r: SeReport)
    ensures r.netEarnings == Cents(netEarnings) && r.taxableEarnings == Cents(netEarnings * 0.9235)
    ensures r.medicareTax == Cents(MedicareRate * (netEarnings * 0.9235))
    ensures r.socialSecurityTax == Cents(SocialSecurityEarnings(netEarnings * 0.9235, otherWages) * SocialSecurityRate)
    ensures r.additionalMedicareTax == Cents(AdditionalMedicare(netEarnings * 0.9235))
    ensures var f := SeFiguresOf(netEarnings, otherWages);
      && r.totalTax == Cents(f.totalTax)
      && r.deductiblePortion == Cents(f.totalTax * 0.5)
      && r.quarterlyPayment == Cents(f.totalTax / 4.0)
      && r.effectiveRate == (if netEarnings > 0.0 then PercentOf(f.totalTax, netEarnings) else 0.0)
    ensures -0.015 < r.totalTax - (r.socialSecurityTax + r.medicareTax + r.additionalMedicareTax) < 0.015
    ensures -0.015 < r.deductiblePortion * 2.0 - r.totalTax < 0.015
    ensures -0.025 < r.quarterlyPayment * 4.0 - r.totalTax < 0.025
  {
    var f := SeFiguresOf(netEarnings, otherWages);
    RoundedSum(f.socialSecurityTax, f.medicareTax, f.additionalMedicareTax, f.totalTax);
    RoundedShares(f.totalTax, f.deductiblePortion, f.quarterlyPayment);
    SeReport(Cents(netEarnings), Cents(f.taxableEarnings), Cents(f.socialSecurityTax), Cents(f.medicareTax),
             Cents(f.additionalMedicareTax), Cents(f.totalTax), Cents(f.deductiblePortion),
             Cents(f.quarterlyPayment),
             if netEarnings > 0.0 then PercentOf(f.totalTax, netEarnings) else 0.0)
  }

  /** Three amounts rounded to cents add up to their rounded sum within a
      cent and a half. */
  lemma RoundedSum(a: real, b: real, c: real, t: real)
    requires t == a + b + c
    ensures -0.015 < Cents(t) - (Cents(a) + Cents(b) + Cents(c)) < 0.015
  {
  }

  /** Rounded to cents, half and a quarter of an amount stay within rounding
      of half and a quarter of the rounded amount. */
  lemma RoundedShares(t: real, half: real, quarter: real)
    requires half * 2.0 == t && quarter * 4.0 == t
    ensures -0.015 < Cents(half) * 2.0 - Cents(t) < 0.015
    ensures -0.025 < Cents(quarter) * 4.0 - Cents(t) < 0.025
  {
  }

  /** On non-negative earnings the tax is at least the 2.9% Medicare part
      and at most the 16.2% of all three rates together, of the taxable
      earnings. */
  lemma TotalWithinRates(netEarnings: real, otherWages: real)
    requires netEarnings >= 0.0
    ensures var f := SeFiguresOf(netEarnings, otherWages);
      MedicareRate * f.taxableEarnings <= f.totalTax <= 0.162 * f.taxableEarnings
  {
    var f := SeFiguresOf(netEarnings, otherWages);
    var t := f.taxableEarnings;
    var ss := SocialSecurityEarnings(t, otherWages);
    assert f.socialSecurityTax == ss * SocialSecurityRate;
    MulMonotone(SocialSecurityRate, ss, t);
    MulMonotone(SocialSecurityRate, 0.0, ss);
    if t > AdditionalMedicareThreshold {
      MulMonotone(AdditionalMedicareRate, t - AdditionalMedicareThreshold, t);
    }
  }

  /** Larger net earnings never owe less self-employment tax. */
  lemma TotalMonotone(net1: real, net2: real, otherWages: real)
    requires net1 <= net2
    ensures SeFiguresOf(net1, otherWages).totalTax <= SeFiguresOf(net2, otherWages).totalTax
  {
    var t1 := net1 * 0.9235;
    var t2 := net2 * 0.9235;
    MulMonotone(0.9235, net1, net2);
    var s1 := SocialSecurityEarnings(t1, otherWages);
    var s2 := SocialSecurityEarnings(t2, otherWages);
    MulMonotone(SocialSecurityRate, s1, s2);
    MulMonotone(MedicareRate, t1, t2);
    if t2 > AdditionalMedicareThreshold {
      MulMonotone(AdditionalMedicareRate, Max(t1, AdditionalMedicareThreshold) - AdditionalMedicareThreshold,
                  t2 - AdditionalMedicareThreshold);
    }
  }

  /** On positive earnings the effective rate is a percentage from 0 to
      16.2% of 92.35%, at most 14.96; without earnings it is zero. */
  lemma EffectiveRateWithin(netEarnings: real, otherWages: real)
    ensures netEarnings > 0.0 ==> 0.0 <= CalculateSeTax(netEarnings, otherWages).effectiveRate <= 14.96
    ensures netEarnings <= 0.0 ==> CalculateSeTax(netEarnings, otherWages).effectiveRate == 0.0
  {
    if netEarnings > 0.0 {
      var f := SeFiguresOf(netEarnings, otherWages);
      TotalWithinRates(netEarnings, otherWages);
      MulMonotone(MedicareRate, 0.0, f.taxableEarnings);
      assert 0.162 * f.taxableEarnings == 0.149607 * netEarnings;
      PercentWithin(f.totalTax, netEarnings, 0.149607);
      assert Percent(0.149607) == 14.96;
    }
  }
}
