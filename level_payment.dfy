/** The level monthly payment of a fully amortizing loan and its inverse,
    the loan a monthly payment carries. The mortgage, auto-loan, refinance
    and home-equity formulas all use the same pair: a zero annual rate
    divides the principal evenly over the months, any other rate uses the
    annuity formula at one twelfth of the annual rate. */
module LevelPayment {
  import opened FinMath

  /** The payment is a finite number: at a zero rate there must be at least
      one month, otherwise `(1 + r)^n - 1` must not vanish. */
  predicate PaymentDefined(annualRate: real, n: nat)
  {
    if annualRate == 0.0 then n > 0 else Pow(1.0 + annualRate / 12.0, n) != 1.0
  }

  /** The unrounded level payment over `n` months, or `None` where the
      division has no finite result. */
  function Payment(principal: real, annualRate: real, n: nat): (r: Option<real>)
    ensures r.Some? <==> PaymentDefined(annualRate, n)
    ensures r.Some? && annualRate == 0.0 ==> r.value * n as real == principal
  {
    if annualRate == 0.0 then
      if n == 0 then None else Some(principal / n as real)
    else if Pow(1.0 + annualRate / 12.0, n) == 1.0 then None
    else Some(AnnuityPayment(principal, annualRate / 12.0, n))
  }

  /** The inverse formula has a finite result: at a non-zero rate
      `r * (1 + r)^n` must not vanish. */
  predicate LoanDefined(annualRate: real, n: nat)
  {
    annualRate == 0.0 || Pow(1.0 + annualRate / 12.0, n) != 0.0
  }

  /** The largest loan that `payment` a month retires over `n` months. */
  function LoanFor(payment: real, annualRate: real, n: nat): (r: Option<real>)
    ensures r.Some? <==> LoanDefined(annualRate, n)
    ensures annualRate == 0.0 ==> r.value == payment * n as real
  {
    if annualRate == 0.0 then Some(payment * n as real)
    else if Pow(1.0 + annualRate / 12.0, n) == 0.0 then None
    else Some(PresentValue(payment, annualRate / 12.0, n))
  }

  /** Paying the level payment every month for `n` months leaves exactly
      nothing owed, at a zero rate as at any other. */
  lemma PaymentClears(principal: real, annualRate: real, n: nat)
    requires PaymentDefined(annualRate, n)
    ensures Grow(principal, annualRate / 12.0, -Payment(principal, annualRate, n).value, n) == 0.0
  {
    var pmt := Payment(principal, annualRate, n).value;
    if annualRate == 0.0 {
      assert annualRate / 12.0 == 0.0;
      GrowAtZeroRate(principal, -pmt, n);
      assert n as real * -pmt == -(pmt * n as real);
    } else {
      AnnuityClears(principal, annualRate / 12.0, n);
    }
  }

  /** At a non-negative rate the payments add up to at least the loan, and to
      exactly the loan at a zero rate. */
  lemma PaymentCoversLoan(principal: real, annualRate: real, n: nat)
    requires principal >= 0.0 && annualRate >= 0.0 && PaymentDefined(annualRate, n)
    ensures Payment(principal, annualRate, n).value * n as real >= principal
    ensures annualRate == 0.0 ==> Payment(principal, annualRate, n).value * n as real == principal
  {
    if annualRate != 0.0 {
      var r := annualRate / 12.0;
      var q := Pow(1.0 + r, n);
      var pmt := AnnuityPayment(principal, r, n);
      AnnuityDefined(r, n);
      AnnuityPaymentUnfold(principal, r, n, q);
      PowGrowthBound(r, n);
      PaymentsCoverLoan(principal, r, q, pmt, n as real);
    }
  }

  /** The algebra behind `PaymentCoversLoan`: from `pmt * (q - 1) = P * r * q`
      and `q - 1 <= n * r * q` follows `pmt * n >= P`. */
  lemma PaymentsCoverLoan(principal: real, r: real, q: real, pmt: real, n: real)
    requires principal >= 0.0 && r > 0.0 && q > 1.0
    requires pmt * (q - 1.0) == principal * (r * q)
    requires q - 1.0 <= n * r * q
    ensures pmt * n >= principal
  {
    MulMonotone(principal, q - 1.0, n * r * q);
    assert (pmt * n) * (q - 1.0) == n * (principal * (r * q));
    assert principal * (q - 1.0) <= (pmt * n) * (q - 1.0);
    if pmt * n < principal {
      MulStrict(q - 1.0, pmt * n, principal);
      assert false;
    }
  }

  /** The loan a payment carries, fed back into the payment formula, gives
      the payment again. */
  lemma LoanRoundTrip(payment: real, annualRate: real, n: nat)
    requires PaymentDefined(annualRate, n) && LoanDefined(annualRate, n)
    ensures Payment(LoanFor(payment, annualRate, n).value, annualRate, n) == Some(payment)
  {
    var p := LoanFor(payment, annualRate, n).value;
    if annualRate == 0.0 {
      assert p / n as real == payment;
    } else {
      AnnuityInverse(payment, annualRate / 12.0, n, p);
    }
  }

  lemma AnnuityInverse(payment: real, r: real, n: nat, p: real)
    requires r != 0.0 && Pow(1.0 + r, n) != 0.0 && Pow(1.0 + r, n) != 1.0
    requires p == PresentValue(payment, r, n)
    ensures AnnuityPayment(p, r, n) == payment
  {
    var q := Pow(1.0 + r, n);
    AnnuityPaymentUnfold(p, r, n, q);
    PresentValueUnfold(payment, r, n, q);
    var pmt := AnnuityPayment(p, r, n);
    assert pmt * (q - 1.0) == payment * (q - 1.0);
    CancelFactor(pmt, payment, q - 1.0);
  }

  lemma CancelFactor(a: real, b: real, k: real)
    requires k != 0.0 && a * k == b * k
    ensures a == b
  {
    assert (a - b) * k == 0.0;
  }

  /** The payment of a loan, fed into the inverse formula, gives the loan
      again. */
  lemma PaymentRoundTrip(principal: real, annualRate: real, n: nat)
    requires PaymentDefined(annualRate, n) && LoanDefined(annualRate, n)
    ensures LoanFor(Payment(principal, annualRate, n).value, annualRate, n) == Some(principal)
  {
    if annualRate != 0.0 {
      AnnuityRoundTrip(principal, annualRate / 12.0, n);
    } else {
      assert Payment(principal, annualRate, n).value * n as real == principal;
    }
  }
}
