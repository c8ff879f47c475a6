/** Shared arithmetic of the formula files: JavaScript rounding, integer powers,
    the annuity payment and its inverse, and the "grow by a rate, then add a
    contribution" recurrence that every savings loop runs. */
module FinMath {

  datatype Option<T> = None | Some(value: T)

  function Min(a: real, b: real): real { if a <= b then a else b }

  function Max(a: real, b: real): real { if a >= b then a else b }

  function Abs(a: real): real { if a >= 0.0 then a else -a }

  lemma MaxMonotone(a: real, b: real, c: real)
    requires a <= b
    ensures Max(a, c) <= Max(b, c)
  {
  }

  function IntAbs(a: int): nat { if a >= 0 then a else -a }

  /** `Math.round`: the nearest integer, halves rounded toward +infinity. */
  function Round(x: real): (n: int)
    ensures x - 0.5 < n as real <= x + 0.5
  {
    (x + 0.5).Floor
  }

  /** `Math.round(x * 100) / 100`. */
  function Cents(x: real): (c: real)
    ensures x - 0.005 < c <= x + 0.005
  {
    Round(x * 100.0) as real / 100.0
  }

  /** Rounding a non-negative amount to cents never makes it negative. */
  lemma CentsNonNegative(x: real)
    ensures x >= 0.0 ==> Cents(x) >= 0.0
  {
    if x >= 0.0 {
      assert Round(x * 100.0) >= 0;
    }
  }

  /** Rounding to cents preserves the order of amounts. */
  lemma CentsNonPositive(x: real)
    ensures x <= 0.0 ==> Cents(x) <= 0.0
  {
    if x <= 0.0 {
      assert Round(x * 100.0) <= 0;
    }
  }

  lemma CentsMonotone(x: real, y: real)
    requires x <= y
    ensures Cents(x) <= Cents(y)
  {
    assert (x * 100.0 + 0.5).Floor <= (y * 100.0 + 0.5).Floor;
  }

  /** Rounding to cents preserves the order of non-negative multiples. */
  lemma ScaledCents(x: real, j: real, k: real, l: real)
    requires x >= 0.0 && j <= k <= l
    ensures Cents(x * j) <= Cents(x * k) <= Cents(x * l)
  {
    MulMonotone(x, j, k);
    CentsMonotone(x * j, x * k);
    MulMonotone(x, k, l);
    CentsMonotone(x * k, x * l);
  }

  /** An amount already in whole cents is left alone by rounding to cents. */
  lemma CentsIdempotent(x: real)
    ensures Cents(Cents(x)) == Cents(x)
  {
    var n := Round(x * 100.0);
    assert Cents(x) * 100.0 == n as real;
    assert Round(n as real) == n;
  }

  /** `Math.round(x * 10000) / 10000`: four decimals, as share counts are
      shown. */
  function Round4(x: real): (r: real)
    ensures x - 0.00005 < r <= x + 0.00005
  {
    Round(x * 10000.0) as real / 10000.0
  }

  /** `Math.round(ratio * 10000) / 100`: a ratio as a percentage with two
      decimals. */
  function Percent(ratio: real): (p: real)
    ensures ratio * 100.0 - 0.005 < p <= ratio * 100.0 + 0.005
  {
    Round(ratio * 10000.0) as real / 100.0
  }

  /** A larger ratio never shows as a smaller percentage. */
  lemma PercentMonotone(x: real, y: real)
    requires x <= y
    ensures Percent(x) <= Percent(y)
  {
    assert (x * 10000.0 + 0.5).Floor <= (y * 10000.0 + 0.5).Floor;
  }

  /** A non-negative part of at most `bound` times a positive whole is at
      most `bound` of it. */
  lemma RatioWithin(part: real, whole: real, bound: real)
    requires whole > 0.0 && 0.0 <= part <= bound * whole
    ensures 0.0 <= part / whole <= bound
  {
    var ratio := part / whole;
    assert ratio * whole == part;
    if ratio > bound {
      MulStrict(whole, bound, ratio);
    }
    if ratio < 0.0 {
      MulStrict(whole, ratio, 0.0);
    }
  }

  /** `Math.round((part / whole) * 10000) / 100`: what share of `whole` the
      `part` is, in percent with two decimals. */
  function PercentOf(part: real, whole: real): real
    requires whole != 0.0
  {
    Percent(part / whole)
  }

  /** A non-negative part of at most `bound` times a positive whole shows
      as a percentage from 0 to `bound` in percent. */
  lemma PercentWithin(part: real, whole: real, bound: real)
    requires whole > 0.0 && 0.0 <= part <= bound * whole
    ensures 0.0 <= PercentOf(part, whole) <= Percent(bound)
  {
    RatioWithin(part, whole, bound);
    PercentMonotone(0.0, part / whole);
    PercentMonotone(part / whole, bound);
    assert Percent(0.0) == 0.0;
  }

  /** `Math.ceil`. */
  function Ceil(x: real): (n: int)
    ensures x <= n as real < x + 1.0
  {
    -((-x).Floor)
  }

  /** `Math.ceil(x * 100) / 100`: never below `x`, less than a cent above it. */
  function CeilCents(x: real): (c: real)
    ensures x <= c < x + 0.01
  {
    Ceil(x * 100.0) as real / 100.0
  }

  /** The JavaScript `%` on integers: the remainder takes the sign of the dividend. */
  function JsRem(a: int, b: int): (r: int)
    requires b > 0
    ensures IntAbs(r) < b
    ensures a >= 0 ==> r >= 0
    ensures a <= 0 ==> r <= 0
  {
    if a >= 0 then a % b else -((-a) % b)
  }

  /** The JavaScript `%` on reals: `x - y * trunc(x / y)`. */
  function JsFmod(x: real, y: real): (r: real)
    requires y > 0.0
    ensures x >= 0.0 ==> 0.0 <= r < y
    ensures x < 0.0 ==> -y < r <= 0.0
  {
    if x >= 0.0 then FloorMod(x, y) else -FloorMod(-x, y)
  }

  function FloorMod(x: real, y: real): (r: real)
    requires y > 0.0
    ensures 0.0 <= r < y
  {
    var q := (x / y).Floor as real;
    FloorModBound(x, y, x / y, q);
    x - y * q
  }

  lemma MulMonotone(y: real, a: real, b: real)
    requires y >= 0.0 && a <= b
    ensures y * a <= y * b
  {
    assert y * b - y * a == y * (b - a);
  }

  /** `low * s <= c <= high * s` with `s > 0` puts `c / s` between `low` and
      `high`. */
  lemma QuotientBetween(c: real, s: real, low: real, high: real)
    requires s > 0.0 && low * s <= c <= high * s
    ensures low <= c / s <= high
  {
    var q := c / s;
    assert (q - low) * s == c - low * s;
    assert (high - q) * s == high * s - c;
  }

  lemma MulStrict(y: real, a: real, b: real)
    requires y > 0.0 && a < b
    ensures y * a < y * b
  {
    assert y * b - y * a == y * (b - a);
  }

  lemma Distribute(y: real, t: real, q: real)
    ensures y * t - y * q == y * (t - q)
  {
  }

  lemma FloorModBound(x: real, y: real, t: real, q: real)
    requires y > 0.0 && y * t == x && q <= t < q + 1.0
    ensures 0.0 <= x - y * q < y
  {
    var d := t - q;
    assert 0.0 <= d < 1.0;
    MulMonotone(y, 0.0, d);
    MulStrict(y, d, 1.0);
    assert y * 0.0 == 0.0;
    assert y * 1.0 == y;
    Distribute(y, t, q);
    assert x - y * q == y * d;
  }

  /** A month's interest on a balance. */
  function Interest(balance: real, monthlyRate: real): real
  {
    balance * monthlyRate
  }

  /** `Math.pow(x, n)` for a whole exponent. */
  function Pow(x: real, n: nat): real
  {
    if n == 0 then 1.0 else x * Pow(x, n - 1)
  }

  lemma {:induction false} PowPositive(x: real, n: nat)
    requires x > 0.0
    ensures Pow(x, n) > 0.0
  {
    if n > 0 {
      PowPositive(x, n - 1);
    }
  }

  lemma {:induction false} PowNonNegative(x: real, n: nat)
    requires x >= 0.0
    ensures Pow(x, n) >= 0.0
  {
    if n > 0 {
      PowNonNegative(x, n - 1);
      MulMonotone(x, 0.0, Pow(x, n - 1));
    }
  }

  /** A power of a number from 0 to 1 stays from 0 to 1. */
  lemma {:induction false} PowAtMostOne(x: real, n: nat)
    requires 0.0 <= x <= 1.0
    ensures 0.0 <= Pow(x, n) <= 1.0
  {
    if n > 0 {
      PowAtMostOne(x, n - 1);
      MulMonotone(x, 0.0, Pow(x, n - 1));
      MulMonotone(x, Pow(x, n - 1), 1.0);
      assert Pow(x, n) == x * Pow(x, n - 1) <= x * 1.0;
    }
  }

  lemma {:induction false} PowAboveOne(x: real, n: nat)
    requires x > 1.0 && n > 0
    ensures Pow(x, n) > 1.0
  {
    if n > 1 {
      PowAboveOne(x, n - 1);
      assert x * Pow(x, n - 1) > 1.0 * Pow(x, n - 1);
    }
  }

  lemma {:induction false} PowOfOne(n: nat)
    ensures Pow(1.0, n) == 1.0
  {
    if n > 0 {
      PowOfOne(n - 1);
    }
  }

  lemma {:induction false} PowAdd(x: real, m: nat, n: nat)
    ensures Pow(x, m + n) == Pow(x, m) * Pow(x, n)
  {
    if n > 0 {
      PowAdd(x, m, n - 1);
      assert Pow(x, m + n) == x * Pow(x, m + n - 1);
    }
  }

  /** `Math.pow(x, e)` for a whole exponent of either sign. */
  function PowInt(x: real, e: int): real
    requires x != 0.0 || e >= 0
  {
    if e >= 0 then Pow(x, e) else PowNonZero(x, -e); 1.0 / Pow(x, -e)
  }

  lemma {:induction false} PowNonZero(x: real, n: nat)
    requires x != 0.0
    ensures Pow(x, n) != 0.0
  {
    if n > 0 {
      PowNonZero(x, n - 1);
    }
  }

  /** The level payment that retires `principal` in `n` periods at rate `r`:
      `P * (r * (1 + r)^n) / ((1 + r)^n - 1)`. */
  function AnnuityPayment(principal: real, r: real, n: nat): real
    requires Pow(1.0 + r, n) != 1.0
  {
    principal * (r * Pow(1.0 + r, n)) / (Pow(1.0 + r, n) - 1.0)
  }

  /** The principal that `n` level payments at rate `r` retire:
      `payment * ((1 + r)^n - 1) / (r * (1 + r)^n)`. */
  function PresentValue(payment: real, r: real, n: nat): real
    requires r != 0.0 && Pow(1.0 + r, n) != 0.0
  {
    payment * (Pow(1.0 + r, n) - 1.0) / (r * Pow(1.0 + r, n))
  }

  lemma PresentValueUnfold(payment: real, r: real, n: nat, q: real)
    requires r != 0.0 && q == Pow(1.0 + r, n) && q != 0.0
    ensures PresentValue(payment, r, n) * (r * q) == payment * (q - 1.0)
  {
  }

  /** The present value of the annuity payment is the principal again. */
  lemma AnnuityRoundTrip(principal: real, r: real, n: nat)
    requires r != 0.0 && Pow(1.0 + r, n) != 0.0 && Pow(1.0 + r, n) != 1.0
    ensures PresentValue(AnnuityPayment(principal, r, n), r, n) == principal
  {
    var q := Pow(1.0 + r, n);
    var pmt := AnnuityPayment(principal, r, n);
    AnnuityPaymentUnfold(principal, r, n, q);
    assert r * q != 0.0;
    DivideCancel(pmt * (q - 1.0), r * q, principal);
  }

  lemma DivideCancel(a: real, b: real, c: real)
    requires b != 0.0 && a == c * b
    ensures a / b == c
  {
  }

  /** A positive rate over at least one period makes `(1 + r)^n - 1` positive,
      so the annuity payment is defined. */
  lemma AnnuityDefined(r: real, n: nat)
    requires r > 0.0 && n > 0
    ensures Pow(1.0 + r, n) > 1.0
  {
    PowAboveOne(1.0 + r, n);
  }

  /** At a positive rate the level payment exceeds one period's interest on the
      principal, so every payment retires some principal. */
  lemma AnnuityExceedsInterest(principal: real, r: real, n: nat)
    requires principal > 0.0 && r > 0.0 && n > 0
    ensures Pow(1.0 + r, n) > 1.0
    ensures AnnuityPayment(principal, r, n) > principal * r
  {
    PowAboveOne(1.0 + r, n);
    var q := Pow(1.0 + r, n);
    var k := principal * r;
    assert k > 0.0;
    assert AnnuityPayment(principal, r, n) == k * q / (q - 1.0);
    assert k * q / (q - 1.0) == k + k / (q - 1.0);
    assert k / (q - 1.0) > 0.0;
  }

  /** `n` steps of `b := b * (1 + i) + c`, the body of every savings loop. */
  function Grow(b: real, i: real, c: real, n: nat): real
  {
    if n == 0 then b else Grow(b, i, c, n - 1) * (1.0 + i) + c
  }

  /** One more period of the recurrence. */
  lemma GrowNext(b: real, i: real, c: real, n: nat)
    ensures Grow(b, i, c, n + 1) == Grow(b, i, c, n) * (1.0 + i) + c
  {
  }

  /** The closed form `P(1+i)^n + c((1+i)^n - 1)/i` of the compounding loop. */
  function FutureValue(principal: real, i: real, c: real, n: nat): real
    requires i != 0.0
  {
    principal * Pow(1.0 + i, n) + c * (Pow(1.0 + i, n) - 1.0) / i
  }

  /** The closed form and `n` iterations of the loop agree. */
  lemma GrowClosedForm(principal: real, i: real, c: real, n: nat)
    requires i != 0.0
    ensures Grow(principal, i, c, n) == FutureValue(principal, i, c, n)
  {
    var g := Grow(principal, i, c, n);
    var q := Pow(1.0 + i, n);
    var fv := FutureValue(principal, i, c, n);
    FutureValueUnfold(principal, i, c, n, q);
    GrowScaledAt(principal, i, c, n, q, g);
    DivideOut(i, g, principal, q, c, fv);
  }

  lemma FutureValueUnfold(principal: real, i: real, c: real, n: nat, q: real)
    requires i != 0.0 && q == Pow(1.0 + i, n)
    ensures FutureValue(principal, i, c, n) == principal * q + c * (q - 1.0) / i
  {
  }

  lemma GrowScaledAt(principal: real, i: real, c: real, n: nat, q: real, g: real)
    requires q == Pow(1.0 + i, n) && g == Grow(principal, i, c, n)
    ensures i * g == i * (principal * q) + c * (q - 1.0)
  {
    GrowScaled(principal, i, c, n);
  }

  lemma DivideOut(i: real, g: real, p: real, q: real, c: real, fv: real)
    requires i != 0.0 && i * g == i * (p * q) + c * (q - 1.0)
    requires fv == p * q + c * (q - 1.0) / i
    ensures g == fv
  {
    assert i * (g - p * q) == c * (q - 1.0);
  }

  /** The closed form multiplied through by the rate, which avoids division. */
  lemma {:induction false} GrowScaled(principal: real, i: real, c: real, n: nat)
    ensures i * Grow(principal, i, c, n) == i * (principal * Pow(1.0 + i, n)) + c * (Pow(1.0 + i, n) - 1.0)
  {
    if n > 0 {
      GrowScaled(principal, i, c, n - 1);
      var q := Pow(1.0 + i, n - 1);
      var g := Grow(principal, i, c, n - 1);
      assert Grow(principal, i, c, n) == g * (1.0 + i) + c;
      assert Pow(1.0 + i, n) == (1.0 + i) * q;
      GrowStep(i, g, c, principal, q);
    }
  }

  lemma GrowStep(i: real, g: real, c: real, p: real, q: real)
    requires i * g == i * (p * q) + c * (q - 1.0)
    ensures i * (g * (1.0 + i) + c) == i * (p * ((1.0 + i) * q)) + c * ((1.0 + i) * q - 1.0)
  {
    calc {
      i * (g * (1.0 + i) + c);
      (1.0 + i) * (i * g) + i * c;
      (1.0 + i) * (i * (p * q) + c * (q - 1.0)) + i * c;
      i * (p * ((1.0 + i) * q)) + c * ((1.0 + i) * q - 1.0);
    }
  }

  /** With no growth the loop only accumulates the contributions. */
  lemma {:induction false} GrowAtZeroRate(b: real, c: real, n: nat)
    ensures Grow(b, 0.0, c, n) == b + n as real * c
  {
    if n > 0 {
      GrowAtZeroRate(b, c, n - 1);
    }
  }

  /** With a non-negative start, contribution and rate the balance never falls. */
  lemma {:induction false} GrowNonDecreasing(b: real, i: real, c: real, m: nat, n: nat)
    requires b >= 0.0 && i >= 0.0 && c >= 0.0 && m <= n
    ensures 0.0 <= b <= Grow(b, i, c, m) <= Grow(b, i, c, n)
  {
    if m < n {
      GrowNonDecreasing(b, i, c, m, n - 1);
      var g := Grow(b, i, c, n - 1);
      assert g * (1.0 + i) >= g;
    } else if n > 0 {
      GrowNonDecreasing(b, i, c, n - 1, n - 1);
      var g := Grow(b, i, c, n - 1);
      assert g * (1.0 + i) >= g;
    }
  }

  /** A running total: `start` plus `n` deposits of `c`, added one at a time. */
  function Deposited(start: real, c: real, n: nat): real
  {
    if n == 0 then start else Deposited(start, c, n - 1) + c
  }

  /** `n` deposits add `n * c`. */
  lemma {:induction false} DepositedClosedForm(start: real, c: real, n: nat)
    ensures Deposited(start, c, n) == start + n as real * c
  {
    if n > 0 {
      DepositedClosedForm(start, c, n - 1);
    }
  }

  /** With a non-negative start, contribution and rate, compounding adds at
      least the contributions themselves: the balance is at least the start
      plus `n` contributions. */
  lemma {:induction false} GrowAtLeastContributions(b: real, i: real, c: real, n: nat)
    requires b >= 0.0 && i >= 0.0 && c >= 0.0
    ensures Grow(b, i, c, n) >= b + n as real * c
  {
    if n > 0 {
      GrowAtLeastContributions(b, i, c, n - 1);
      GrowNonDecreasing(b, i, c, n - 1, n - 1);
      var g := Grow(b, i, c, n - 1);
      MulMonotone(g, 0.0, i);
      assert g * (1.0 + i) == g + g * i;
    }
  }

  /** A lower rate never yields a larger balance, for non-negative flows. */
  lemma {:induction false} GrowMonotoneInRate(b: real, i: real, j: real, c: real, n: nat)
    requires b >= 0.0 && c >= 0.0 && 0.0 <= i <= j
    ensures 0.0 <= Grow(b, i, c, n) <= Grow(b, j, c, n)
  {
    if n > 0 {
      GrowMonotoneInRate(b, i, j, c, n - 1);
      GrowStepMonotone(Grow(b, i, c, n - 1), Grow(b, j, c, n - 1), i, j, c);
    }
  }

  lemma GrowStepMonotone(x: real, y: real, i: real, j: real, c: real)
    requires 0.0 <= x <= y && 0.0 <= i <= j && c >= 0.0
    ensures 0.0 <= x * (1.0 + i) + c <= y * (1.0 + j) + c
  {
    MulMonotone(1.0 + i, x, y);
    MulMonotone(y, 1.0 + i, 1.0 + j);
    MulMonotone(x, 0.0, 1.0 + i);
  }

  function Sum(s: seq<real>): real
  {
    if s == [] then 0.0 else Sum(s[..|s| - 1]) + s[|s| - 1]
  }

  lemma SumAppend(s: seq<real>, x: real)
    ensures Sum(s + [x]) == Sum(s) + x
  {
    assert (s + [x])[..|s|] == s;
  }

  /** Replacing one term changes the sum by the difference. */
  lemma {:induction false} SumUpdate(s: seq<real>, k: nat, v: real)
    requires k < |s|
    ensures Sum(s[k := v]) == Sum(s) - s[k] + v
  {
    var last := |s| - 1;
    if k == last {
      assert s[k := v][..last] == s[..last];
    } else {
      assert s[k := v][..last] == s[..last][k := v];
      SumUpdate(s[..last], k, v);
    }
  }

  /** A sum of non-negative terms is non-negative. */
  lemma {:induction false} SumNonNegative(a: seq<real>)
    requires forall k :: 0 <= k < |a| ==> a[k] >= 0.0
    ensures Sum(a) >= 0.0
  {
    if a != [] {
      SumNonNegative(a[..|a| - 1]);
    }
  }

  /** A non-negative term is at most the sum of non-negative terms. */
  lemma {:induction false} PartBelowSum(a: seq<real>, i: nat)
    requires i < |a| && forall k :: 0 <= k < |a| ==> a[k] >= 0.0
    ensures 0.0 <= a[i] <= Sum(a)
  {
    var last := |a| - 1;
    SumNonNegative(a[..last]);
    if i < last {
      PartBelowSum(a[..last], i);
    }
  }

  /** A month's closing balance `max(c * b - p, 0)` is monotone in the opening
      balance `b` and antitone in the payment `p` when `c >= 0`. */
  lemma ScaledMaxMonotone(c: real, b1: real, b2: real, p1: real, p2: real)
    requires c >= 0.0 && b2 <= b1 && p1 <= p2
    ensures Max(c * b2 - p2, 0.0) <= Max(c * b1 - p1, 0.0)
  {
    MulMonotone(c, b2, b1);
  }

  /** Running the recurrence from the balance after one step is running it
      one step more from the start. */
  lemma {:induction false} GrowShift(x: real, i: real, c: real, k: nat)
    requires k > 0
    ensures Grow(x * (1.0 + i) + c, i, c, k - 1) == Grow(x, i, c, k)
  {
    if k > 1 {
      GrowShift(x, i, c, k - 1);
    }
  }

  /** A larger contribution per step never yields a smaller balance while
      `1 + i` is not negative. */
  lemma {:induction false} GrowMonotoneInContribution(b: real, i: real, c1: real, c2: real, n: nat)
    requires c1 <= c2 && 1.0 + i >= 0.0
    ensures Grow(b, i, c1, n) <= Grow(b, i, c2, n)
  {
    if n > 0 {
      GrowMonotoneInContribution(b, i, c1, c2, n - 1);
      MulMonotone(1.0 + i, Grow(b, i, c1, n - 1), Grow(b, i, c2, n - 1));
    }
  }

  /** Paying the annuity payment for `n` periods leaves exactly nothing owed. */
  lemma AnnuityClears(principal: real, r: real, n: nat)
    requires r != 0.0 && Pow(1.0 + r, n) != 1.0
    ensures Grow(principal, r, -AnnuityPayment(principal, r, n), n) == 0.0
  {
    var pmt := AnnuityPayment(principal, r, n);
    var q := Pow(1.0 + r, n);
    var g := Grow(principal, r, -pmt, n);
    AnnuityPaymentUnfold(principal, r, n, q);
    GrowScaledAt(principal, r, -pmt, n, q, g);
    AnnuityBalance(principal, r, q, pmt, g);
  }

  lemma AnnuityPaymentUnfold(principal: real, r: real, n: nat, q: real)
    requires q == Pow(1.0 + r, n) && q != 1.0
    ensures AnnuityPayment(principal, r, n) * (q - 1.0) == principal * (r * q)
  {
  }

  lemma AnnuityBalance(principal: real, r: real, q: real, pmt: real, g: real)
    requires r != 0.0 && pmt * (q - 1.0) == principal * (r * q)
    requires r * g == r * (principal * q) + -pmt * (q - 1.0)
    ensures g == 0.0
  {
    assert r * (principal * q) == principal * (r * q);
    assert r * g == 0.0;
  }

  /** `(1 + r)^n - 1` is at most `n * r * (1 + r)^n` for a non-negative
      rate: each of the `n` periods adds at most `r * (1 + r)^n`. */
  lemma {:induction false} PowGrowthBound(r: real, n: nat)
    requires r >= 0.0
    ensures Pow(1.0 + r, n) - 1.0 <= n as real * r * Pow(1.0 + r, n)
  {
    if n > 0 {
      PowGrowthBound(r, n - 1);
      var p := Pow(1.0 + r, n - 1);
      PowPositive(1.0 + r, n - 1);
      assert Pow(1.0 + r, n) == (1.0 + r) * p;
      GrowthStep(r, p, (n - 1) as real);
    }
  }

  lemma GrowthStep(r: real, p: real, k: real)
    requires r >= 0.0 && p > 0.0 && k >= 0.0 && p - 1.0 <= k * r * p
    ensures (1.0 + r) * p - 1.0 <= (k + 1.0) * r * ((1.0 + r) * p)
  {
    MulMonotone(k * r, p, (1.0 + r) * p);
    MulMonotone(r, p, (1.0 + r) * p);
    assert (k + 1.0) * r * ((1.0 + r) * p) == k * r * ((1.0 + r) * p) + r * ((1.0 + r) * p);
  }

  /** The first `n` elements, or all of them when there are fewer
      (`Array.prototype.slice(0, n)`). */
  function Take<T>(s: seq<T>, n: nat): (r: seq<T>)
    ensures |r| == if |s| <= n then |s| else n
    ensures r == s[..|r|]
  {
    if |s| <= n then s else s[..n]
  }
}
