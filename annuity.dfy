/**
 * The fixed-payment calculator `annuity_payment`.
 *
 * The monthly rate is `r = annual / 100 / 12`.  A term of zero or fewer
 * months is an error; a zero rate divides the principal evenly; otherwise
 * the payment is the annuity formula `P * r / (1 - (1 + r) ** (-n))`,
 * rounded to the cent.  Because `n` is an integer, `(1 + r) ** (-n)` is the
 * exact rational `1 / (1 + r)^n`, so the formula is evaluated exactly here.
 */
module Annuity {
  import opened Wrappers
  import opened Money

  /** Why a payment cannot be computed. */
  datatype Error =
    | InvalidTerm     // months <= 0: the ValueError the calculator raises
    | DivisionByZero  // (1 + r) ** (-n) divides by zero, or its complement to 1 is zero

  /** The periodic (monthly) rate of an annual percentage rate. */
  function MonthlyRate(annualRatePercent: real): (r: real)
    ensures r * 1200.0 == annualRatePercent
    ensures r >= 0.0 <==> annualRatePercent >= 0.0
  {
    annualRatePercent / 100.0 / 12.0
  }

  /** `b` to the power `n`. */
  function Pow(b: real, n: nat): real
  {
    if n == 0 then 1.0 else b * Pow(b, n - 1)
  }

  /** The payment can be computed exactly: a positive term, and for a nonzero
      rate a growth factor `(1 + r)^n` that is neither 0 nor 1. */
  predicate Computable(r: real, months: int)
  {
    months >= 1 && (r == 0.0 || (Pow(1.0 + r, months) != 0.0 && Pow(1.0 + r, months) != 1.0))
  }

  /** The unrounded payment, in currency units, for principal `p` (units). */
  function ExactPayment(p: real, r: real, months: int): real
    requires Computable(r, months)
  {
    if r == 0.0 then p / months as real
    else p * r / (1.0 - 1.0 / Pow(1.0 + r, months))
  }

  /** `annuity_payment(principal, annual_rate_percent, months)`, the principal
      and the result in cents. */
  function AnnuityPayment(principal: int, annualRatePercent: real, months: int): (res: Result<int, Error>)
    ensures res == Failure(InvalidTerm) <==> months <= 0
    ensures res.Success? <==> Computable(MonthlyRate(annualRatePercent), months)
    ensures months >= 1 && annualRatePercent == 0.0 ==> res == Success(Round2(Units(principal) / months as real))
    ensures res.Success? ==>
      -0.5 <= res.value as real - ExactPayment(Units(principal), MonthlyRate(annualRatePercent), months) * 100.0 <= 0.5
  {
    var r := MonthlyRate(annualRatePercent);
    if months <= 0 then Failure(InvalidTerm)
    else if r == 0.0 then
      Round2Nearest(Units(principal) / months as real);
      Success(Round2(Units(principal) / months as real))
    else
      var q := Pow(1.0 + r, months);
      if q == 0.0 then Failure(DivisionByZero)
      else if 1.0 - 1.0 / q == 0.0 then Failure(DivisionByZero)
      else
        Round2Nearest(ExactPayment(Units(principal), r, months));
        Success(Round2(ExactPayment(Units(principal), r, months)))
  }

  /** With a positive rate the growth factor exceeds 1. */
  lemma {:induction false} PowAboveOne(b: real, n: nat)
    requires b > 1.0 && n >= 1
    ensures Pow(b, n) > 1.0
  {
    if n > 1 {
      PowAboveOne(b, n - 1);
      assert b * Pow(b, n - 1) > 1.0 * Pow(b, n - 1);
    }
  }

  /** Every input the conversation accepts (a positive term and a rate that
      is not negative) yields a payment, in exact arithmetic: `(1 + r)^n > 1`
      for every positive `r`. */
  lemma NonNegativeRateComputable(principal: int, annualRatePercent: real, months: int)
    requires months >= 1 && annualRatePercent >= 0.0
    ensures AnnuityPayment(principal, annualRatePercent, months).Success?
  {
    var r := MonthlyRate(annualRatePercent);
    if r != 0.0 {
      PowAboveOne(1.0 + r, months);
    }
  }

  /** For a principal and a rate that are not negative, the payment covers
      at least one month's interest on the principal, `round(principal * r, 2)`. */
  lemma AnnuityCoversInterest(principal: int, annualRatePercent: real, months: int, payment: int)
    requires principal >= 0 && annualRatePercent >= 0.0
    requires AnnuityPayment(principal, annualRatePercent, months) == Success(payment)
    ensures payment >= Round2(Units(principal) * MonthlyRate(annualRatePercent))
  {
    AnnuityValue(principal, annualRatePercent, months, payment);
    PaymentAboveInterest(Units(principal), MonthlyRate(annualRatePercent), months,
                         ExactPayment(Units(principal), MonthlyRate(annualRatePercent), months),
                         Units(principal) * MonthlyRate(annualRatePercent));
  }

  /** A computed payment is the exact payment rounded to the cent. */
  lemma AnnuityValue(principal: int, annualRatePercent: real, months: int, payment: int)
    requires AnnuityPayment(principal, annualRatePercent, months) == Success(payment)
    ensures Computable(MonthlyRate(annualRatePercent), months)
    ensures payment == Round2(ExactPayment(Units(principal), MonthlyRate(annualRatePercent), months))
  {
  }

  /** The same on named numbers: `e` is the exact payment, `i` the interest. */
  lemma PaymentAboveInterest(p: real, r: real, months: int, e: real, i: real)
    requires p >= 0.0 && r >= 0.0 && Computable(r, months)
    requires e == ExactPayment(p, r, months) && i == p * r
    ensures Round2(e) >= Round2(i)
  {
    ExactPaymentCoversInterest(p, r, months);
    Round2Monotone(i, e);
  }

  /** The exact payment is at least one month's interest on the principal. */
  lemma ExactPaymentCoversInterest(p: real, r: real, months: int)
    requires p >= 0.0 && r >= 0.0 && Computable(r, months)
    ensures ExactPayment(p, r, months) >= p * r
  {
    if r == 0.0 {
      EvenShare(p, months as real);
      assert p * r == 0.0;
    } else {
      PowAboveOne(1.0 + r, months);
      FormulaAboveInterest(p * r, r, months);
    }
  }

  /** An even share of a non-negative amount is not negative, on plain numbers. */
  lemma EvenShare(p: real, n: real)
    requires p >= 0.0 && n >= 1.0
    ensures p / n >= 0.0
  {
  }

  /** The annuity formula's quotient is at least its numerator `a`. */
  lemma FormulaAboveInterest(a: real, r: real, months: int)
    requires a >= 0.0 && r > 0.0 && months >= 1 && Pow(1.0 + r, months) > 1.0
    ensures a / (1.0 - 1.0 / Pow(1.0 + r, months)) >= a
  {
    DivideByFraction(a, Pow(1.0 + r, months));
  }

  /** Dividing a non-negative amount by `1 - 1/q`, for `q > 1`, does not make
      it smaller, on plain numbers. */
  lemma DivideByFraction(a: real, q: real)
    requires a >= 0.0 && q > 1.0
    ensures a / (1.0 - 1.0 / q) >= a
  {
    var d := 1.0 - 1.0 / q;
    assert 0.0 < 1.0 / q < 1.0;
    assert 0.0 < d <= 1.0;
    assert a / d * d == a;
  }

  /** The outstanding balance, in exact arithmetic, after `k` months of
      charging rate `r` and paying `pmt`. */
  function ExactBalance(p: real, r: real, pmt: real, k: nat): real
  {
    if k == 0 then p else ExactBalance(p, r, pmt, k - 1) * (1.0 + r) - pmt
  }

  /** One month of the closed form, on plain numbers: if `b` satisfies it
      after `k - 1` months with `q = (1 + r)^(k - 1)`, then `e = b (1 + r) - pmt`
      satisfies it after `k` months with `Q = (1 + r) q`. */
  lemma ClosedFormStep(p: real, r: real, pmt: real, b: real, q: real, e: real, Q: real)
    requires b * r == p * r * q - pmt * (q - 1.0)
    requires e == b * (1.0 + r) - pmt && Q == (1.0 + r) * q
    ensures e * r == p * r * Q - pmt * (Q - 1.0)
  {
    var a := 1.0 + r;
    assert e * r == (b * r) * a - pmt * r;
    assert (b * r) * a == (p * r * q) * a - (pmt * (q - 1.0)) * a;
    assert (p * r * q) * a == p * r * Q;
    assert (pmt * (q - 1.0)) * a + pmt * r == pmt * (Q - 1.0);
  }

  /** Closed form of the balance: `B_k * r == p r q^k - pmt (q^k - 1)`. */
  lemma {:induction false} ExactBalanceClosedForm(p: real, r: real, pmt: real, k: nat)
    ensures ExactBalance(p, r, pmt, k) * r == p * r * Pow(1.0 + r, k) - pmt * (Pow(1.0 + r, k) - 1.0)
  {
    var e, Q := ExactBalance(p, r, pmt, k), Pow(1.0 + r, k);
    if k == 0 {
      assert e == p && Q == 1.0;
    } else {
      ExactBalanceClosedForm(p, r, pmt, k - 1);
      ClosedFormStep(p, r, pmt, ExactBalance(p, r, pmt, k - 1), Pow(1.0 + r, k - 1), e, Q);
    }
  }

  /** With a zero rate the balance falls by `pmt` each month. */
  lemma {:induction false} ExactBalanceZeroRate(p: real, pmt: real, k: nat)
    ensures ExactBalance(p, 0.0, pmt, k) == p - k as real * pmt
  {
    if k > 0 {
      ExactBalanceZeroRate(p, pmt, k - 1);
    }
  }

  /** The point of the formula: whenever the payment can be computed, paying
      the unrounded payment every month retires the loan exactly at the end of
      the term. */
  lemma AnnuityAmortizes(principal: int, annualRatePercent: real, months: int)
    requires Computable(MonthlyRate(annualRatePercent), months)
    ensures ExactBalance(Units(principal), MonthlyRate(annualRatePercent),
                         ExactPayment(Units(principal), MonthlyRate(annualRatePercent), months), months) == 0.0
  {
    var p := Units(principal);
    var r := MonthlyRate(annualRatePercent);
    var pmt := ExactPayment(p, r, months);
    if r == 0.0 {
      ExactBalanceZeroRate(p, pmt, months);
      EvenSplit(p, months as real);
    } else {
      ExactBalanceClosedForm(p, r, pmt, months);
      FormulaRetires(p, r, Pow(1.0 + r, months), ExactBalance(p, r, pmt, months));
    }
  }

  /** Paying `p / n` for `n` months pays `p`, on plain numbers. */
  lemma EvenSplit(p: real, n: real)
    requires n != 0.0
    ensures p - n * (p / n) == 0.0
  {
  }

  /** The annuity formula closes the closed form at zero, on plain numbers. */
  lemma FormulaRetires(p: real, r: real, q: real, b: real)
    requires r != 0.0 && q != 0.0 && q != 1.0
    requires b * r == p * r * q - (p * r / (1.0 - 1.0 / q)) * (q - 1.0)
    ensures b == 0.0
  {
    var pmt := p * r / (1.0 - 1.0 / q);
    assert 1.0 - 1.0 / q == (q - 1.0) / q;
    assert pmt == p * r * q / (q - 1.0);
    assert pmt * (q - 1.0) == p * r * q;
    assert b * r == 0.0;
  }

  /** The zero-rate scenario: 12000.00 over 12 months is 1000.00 a month. */
  lemma ZeroRateScenario()
    ensures AnnuityPayment(1200000, 0.0, 12) == Success(100000)
  {
    assert Units(1200000) / 12.0 == 1000.0;
    Round2Units(100000);
  }

  /** The 12% scenario: 100000.00 over 12 months is 8884.88 a month. */
  lemma TwelvePercentScenario()
    ensures AnnuityPayment(10000000, 12.0, 12) == Success(888488)
  {
    var r := MonthlyRate(12.0);
    assert r == 0.01;
    var q := Pow(1.01, 12);
    assert q == 1.126825030131969720661201;
    var x := Units(10000000) * r / (1.0 - 1.0 / q);
    assert 8884.875 < x < 8884.885;
  }
}
