/**
 * `build_schedule`: the amortization table.
 *
 * Starting from the principal, each month charges interest on the running
 * balance, takes the rest of the fixed payment off the balance, and records a
 * row.  The final month instead takes the whole remaining balance, and its
 * payment is that balance plus the interest, so the loan closes at zero.
 *
 * `RowsFrom` is the reference definition of the rows; `BuildSchedule` is the
 * loop of the source, proved to produce exactly those rows.  The lemmas hold
 * for any fixed payment, not only the annuity payment.
 */
module Amortization {
  import opened Wrappers
  import opened Money
  import opened Annuity

  /** One row of the table, all amounts in cents. */
  datatype Row = Row(month: int, payment: int, interest: int, principalPart: int, remaining: int)

  /** The summary block: principal, rate, term, fixed payment, totals. */
  datatype Summary = Summary(
    principal: int,
    ratePercent: real,
    months: int,
    monthlyPayment: int,
    totalInterest: int,
    totalPaid: int)

  /** What `build_schedule` returns. */
  datatype Plan = Plan(rows: seq<Row>, summary: Summary)

  // ---------------------------------------------------------------------
  // One month
  // ---------------------------------------------------------------------

  /** `round(balance * r, 2)`. */
  function Interest(balance: int, r: real): int
  {
    Round2(Units(balance) * r)
  }

  /** `round(payment - interest, 2)`, or on the final month `round(balance, 2)`. */
  function PrincipalPart(balance: int, r: real, m: int, months: int, payment: int): int
  {
    if m == months then Round2(Units(balance))
    else Round2(Units(payment) - Units(Interest(balance, r)))
  }

  /** The payment recorded in the row: the fixed one, or on the final month
      `round(principal_part + interest, 2)`. */
  function RowPayment(balance: int, r: real, m: int, months: int, payment: int): int
  {
    if m == months then Round2(Units(PrincipalPart(balance, r, m, months, payment)) + Units(Interest(balance, r)))
    else payment
  }

  /** `round(balance - principal_part, 2)`. */
  function NextBalance(balance: int, r: real, m: int, months: int, payment: int): int
  {
    Round2(Units(balance) - Units(PrincipalPart(balance, r, m, months, payment)))
  }

  /** The row for month `m`; the remaining balance is shown as `max(balance, 0)`. */
  function MakeRow(balance: int, r: real, m: int, months: int, payment: int): Row
  {
    Row(m, RowPayment(balance, r, m, months, payment), Interest(balance, r),
        PrincipalPart(balance, r, m, months, payment), Max(NextBalance(balance, r, m, months, payment), 0))
  }

  /** Because every amount is whole cents, each rounding in a month is exact. */
  lemma MonthArithmetic(balance: int, r: real, m: int, months: int, payment: int)
    ensures PrincipalPart(balance, r, m, months, payment)
            == if m == months then balance else payment - Interest(balance, r)
    ensures RowPayment(balance, r, m, months, payment)
            == if m == months then balance + Interest(balance, r) else payment
    ensures NextBalance(balance, r, m, months, payment)
            == balance - PrincipalPart(balance, r, m, months, payment)
  {
    var i := Interest(balance, r);
    Round2Units(balance);
    Round2Sum(payment, i);
    Round2Sum(balance, i);
    Round2Sum(balance, PrincipalPart(balance, r, m, months, payment));
  }

  // ---------------------------------------------------------------------
  // The reference schedule
  // ---------------------------------------------------------------------

  /** The rows for months `m..months`, starting from `balance`. */
  function RowsFrom(balance: int, r: real, m: int, months: int, payment: int): seq<Row>
    decreases months + 1 - m
  {
    if m > months then []
    else [MakeRow(balance, r, m, months, payment)]
         + RowsFrom(NextBalance(balance, r, m, months, payment), r, m + 1, months, payment)
  }

  /** The full table for a loan of `principal` cents at monthly rate `r`. */
  function Schedule(principal: int, r: real, months: int, payment: int): seq<Row>
  {
    RowsFrom(principal, r, 1, months, payment)
  }

  /** Which amount of a row a total adds up. */
  datatype Column = PaymentColumn | InterestColumn | PrincipalColumn

  function Amount(row: Row, c: Column): int
  {
    match c
    case PaymentColumn => row.payment
    case InterestColumn => row.interest
    case PrincipalColumn => row.principalPart
  }

  /** The sum of one column over the rows. */
  function Total(rows: seq<Row>, c: Column): int
  {
    if rows == [] then 0 else Total(rows[..|rows| - 1], c) + Amount(rows[|rows| - 1], c)
  }

  lemma {:induction false} TotalConcat(a: seq<Row>, b: seq<Row>, c: Column)
    ensures Total(a + b, c) == Total(a, c) + Total(b, c)
  {
    if b == [] {
      assert a + b == a;
    } else {
      assert (a + b)[..|a + b| - 1] == a + b[..|b| - 1];
      assert (a + b)[|a + b| - 1] == b[|b| - 1];
      TotalConcat(a, b[..|b| - 1], c);
    }
  }

  /** The balance before row `i`: the principal less the principal parts so far. */
  function BalanceBefore(start: int, rows: seq<Row>, i: nat): int
    requires i <= |rows|
  {
    start - Total(rows[..i], PrincipalColumn)
  }

  /** Row `i` of `RowsFrom`, described by the balance before it. */
  lemma {:induction false} RowsFromAt(balance: int, r: real, m: int, months: int, payment: int, i: nat)
    requires m <= months && i <= months - m
    ensures |RowsFrom(balance, r, m, months, payment)| == months - m + 1
    ensures var rows := RowsFrom(balance, r, m, months, payment);
            var before := BalanceBefore(balance, rows, i);
            && rows[i].month == m + i
            && rows[i].interest == Interest(before, r)
            && (m + i < months ==> rows[i].principalPart == payment - rows[i].interest && rows[i].payment == payment)
            && (m + i == months ==> rows[i].principalPart == before && rows[i].payment == before + rows[i].interest)
            && rows[i].remaining == Max(before - rows[i].principalPart, 0)
    decreases i
  {
    var rows := RowsFrom(balance, r, m, months, payment);
    var next := NextBalance(balance, r, m, months, payment);
    var first := MakeRow(balance, r, m, months, payment);
    MonthArithmetic(balance, r, m, months, payment);
    if m == months {
      assert RowsFrom(next, r, m + 1, months, payment) == [];
      assert rows == [first];
      assert rows[..0] == [];
    } else {
      var rest := RowsFrom(next, r, m + 1, months, payment);
      assert rows == [first] + rest;
      LengthFrom(next, r, m + 1, months, payment);
      if i == 0 {
        assert rows[..0] == [];
      } else {
        RowsFromAt(next, r, m + 1, months, payment, i - 1);
        assert rows[..i] == [first] + rest[..i - 1];
        TotalConcat([first], rest[..i - 1], PrincipalColumn);
        assert Total([first], PrincipalColumn) == first.principalPart by {
          assert [first][..0] == [];
        }
        assert rows[i] == rest[i - 1];
      }
    }
  }

  /** `RowsFrom` has one row per month from `m` on. */
  lemma {:induction false} LengthFrom(balance: int, r: real, m: int, months: int, payment: int)
    requires m <= months + 1
    ensures |RowsFrom(balance, r, m, months, payment)| == months - m + 1
    decreases months + 1 - m
  {
    if m <= months {
      LengthFrom(NextBalance(balance, r, m, months, payment), r, m + 1, months, payment);
    }
  }

  // ---------------------------------------------------------------------
  // The specification of a table, and what follows from it
  // ---------------------------------------------------------------------

  /**
   * What a correct table for a loan of `principal` cents at monthly rate `r`
   * with fixed payment `payment` is, stated row by row against the balance
   * before each row: one row per month numbered 1..months; interest charged
   * on the balance before the row; every month but the last pays the fixed
   * payment, split into interest and principal; the last month pays off the
   * balance before it plus interest; every row shows the balance after it
   * (the balance before it less its principal part), floored at zero.
   */
  ghost predicate Amortizes(principal: int, r: real, months: int, payment: int, rows: seq<Row>)
  {
    && |rows| == months
    && (forall i :: 0 <= i < |rows| ==> rows[i].month == i + 1)
    && (forall i {:trigger BalanceBefore(principal, rows, i)} :: 0 <= i < |rows| ==>
          && rows[i].interest == Interest(BalanceBefore(principal, rows, i), r)
          && rows[i].remaining == Max(BalanceBefore(principal, rows, i) - rows[i].principalPart, 0))
    && (forall i :: 0 <= i < |rows| - 1 ==>
          rows[i].payment == payment && rows[i].principalPart == payment - rows[i].interest)
    && (months >= 1 ==>
          rows[months - 1].principalPart == BalanceBefore(principal, rows, months - 1)
          && rows[months - 1].payment == rows[months - 1].principalPart + rows[months - 1].interest)
  }

  /** The principal total of a prefix grows by one row at a time. */
  lemma PrefixStep(rows: seq<Row>, i: nat)
    requires i < |rows|
    ensures Total(rows[..i + 1], PrincipalColumn) == Total(rows[..i], PrincipalColumn) + rows[i].principalPart
  {
    assert rows[..i + 1][..i] == rows[..i];
  }

  /** The reference schedule meets the specification, for every fixed payment. */
  lemma ScheduleAmortizes(principal: int, r: real, months: int, payment: int)
    requires months >= 1
    ensures Amortizes(principal, r, months, payment, Schedule(principal, r, months, payment))
  {
    var rows := Schedule(principal, r, months, payment);
    LengthFrom(principal, r, 1, months, payment);
    forall i | 0 <= i < |rows|
      ensures rows[i].month == i + 1
      ensures rows[i].interest == Interest(BalanceBefore(principal, rows, i), r)
      ensures i < |rows| - 1 ==> rows[i].payment == payment && rows[i].principalPart == payment - rows[i].interest
      ensures i == |rows| - 1 ==> rows[i].principalPart == BalanceBefore(principal, rows, i)
                                  && rows[i].payment == rows[i].principalPart + rows[i].interest
      ensures rows[i].remaining == Max(BalanceBefore(principal, rows, i) - rows[i].principalPart, 0)
    {
      RowsFromAt(principal, r, 1, months, payment, i);
    }
  }

  /** Two tables that meet the specification and agree before row `k` agree
      on row `k`. */
  lemma RowDetermined(principal: int, r: real, months: int, payment: int, a: seq<Row>, b: seq<Row>, k: nat)
    requires Amortizes(principal, r, months, payment, a)
    requires Amortizes(principal, r, months, payment, b)
    requires k < months && a[..k] == b[..k]
    ensures a[k] == b[k]
  {
    var before := BalanceBefore(principal, a, k);
    assert before == BalanceBefore(principal, b, k);
    assert a[k].interest == b[k].interest;
    assert a[k].principalPart == b[k].principalPart && a[k].payment == b[k].payment;
    assert a[k].remaining == b[k].remaining;
  }

  /** Two tables that meet the specification agree on their first `k` rows. */
  lemma {:induction false} PrefixesAgree(principal: int, r: real, months: int, payment: int, a: seq<Row>, b: seq<Row>, k: nat)
    requires Amortizes(principal, r, months, payment, a)
    requires Amortizes(principal, r, months, payment, b)
    requires k <= months
    ensures a[..k] == b[..k]
  {
    if k > 0 {
      PrefixesAgree(principal, r, months, payment, a, b, k - 1);
      RowDetermined(principal, r, months, payment, a, b, k - 1);
      assert a[..k] == a[..k - 1] + [a[k - 1]];
      assert b[..k] == b[..k - 1] + [b[k - 1]];
    }
  }

  /** The specification leaves no freedom: at most one table meets it. */
  lemma AmortizesUnique(principal: int, r: real, months: int, payment: int, a: seq<Row>, b: seq<Row>)
    requires Amortizes(principal, r, months, payment, a)
    requires Amortizes(principal, r, months, payment, b)
    ensures a == b
  {
    PrefixesAgree(principal, r, months, payment, a, b, months);
    assert a == a[..months] && b == b[..months];
  }

  /** Telescoping: the principal parts add up to the principal, so the balance
      after the last row is exactly zero and the last row shows zero. */
  lemma PrincipalPartsTelescope(principal: int, r: real, months: int, payment: int, rows: seq<Row>)
    requires months >= 1 && Amortizes(principal, r, months, payment, rows)
    ensures Total(rows, PrincipalColumn) == principal
    ensures BalanceBefore(principal, rows, months) == 0
    ensures rows[months - 1].remaining == 0
  {
    PrefixStep(rows, months - 1);
    assert rows[..months] == rows;
  }

  /** A column total splits when every row does. */
  lemma {:induction false} TotalSplits(rows: seq<Row>)
    requires forall i :: 0 <= i < |rows| ==> rows[i].payment == rows[i].interest + rows[i].principalPart
    ensures Total(rows, PaymentColumn) == Total(rows, InterestColumn) + Total(rows, PrincipalColumn)
  {
    if rows != [] {
      TotalSplits(rows[..|rows| - 1]);
    }
  }

  /** Every row's payment is its interest plus its principal part, and over the
      whole table the payments add up to the interest plus the principal. */
  lemma PaymentsAddUp(principal: int, r: real, months: int, payment: int, rows: seq<Row>)
    requires months >= 1 && Amortizes(principal, r, months, payment, rows)
    ensures forall i :: 0 <= i < |rows| ==> rows[i].payment == rows[i].interest + rows[i].principalPart
    ensures Total(rows, PaymentColumn) == Total(rows, InterestColumn) + principal
  {
    TotalSplits(rows);
    PrincipalPartsTelescope(principal, r, months, payment, rows);
  }

  /** No row reports a negative remaining balance. */
  lemma RemainingNeverNegative(principal: int, r: real, months: int, payment: int, rows: seq<Row>)
    requires Amortizes(principal, r, months, payment, rows)
    ensures forall i :: 0 <= i < |rows| ==> rows[i].remaining >= 0
  {
    forall i | 0 <= i < |rows|
      ensures rows[i].remaining >= 0
    {
      assert rows[i].remaining == Max(BalanceBefore(principal, rows, i) - rows[i].principalPart, 0);
    }
  }

  /** Multiplying by a rate that is not negative keeps order, on plain numbers. */
  lemma ScaleMonotone(x: real, y: real, r: real)
    requires x <= y && r >= 0.0
    ensures x * r <= y * r
  {
    assert y * r - x * r == (y - x) * r;
  }

  /** A smaller balance is never charged more interest. */
  lemma InterestMonotone(a: int, b: int, r: real)
    requires a <= b && r >= 0.0
    ensures Interest(a, r) <= Interest(b, r)
  {
    assert Interest(a, r) == Round2(Units(a) * r) && Interest(b, r) == Round2(Units(b) * r);
    RoundedScaleMonotone(Units(a), Units(b), r, Units(a) * r, Units(b) * r);
  }

  /** The same on named numbers: `x r` rounds to no more than `y r`. */
  lemma RoundedScaleMonotone(x: real, y: real, r: real, xr: real, yr: real)
    requires x <= y && r >= 0.0 && xr == x * r && yr == y * r
    ensures Round2(xr) <= Round2(yr)
  {
    ScaleMonotone(x, y, r);
    Round2Monotone(xr, yr);
  }

  /** With a rate that is not negative and a payment that covers the interest
      on the principal, the balance before any row is at most the principal:
      no month before the last adds to the debt. */
  lemma {:induction false} BalanceBounded(principal: int, r: real, months: int, payment: int, rows: seq<Row>, j: nat)
    requires r >= 0.0 && payment >= Interest(principal, r)
    requires Amortizes(principal, r, months, payment, rows)
    requires j < months
    ensures BalanceBefore(principal, rows, j) <= principal
    decreases j
  {
    if j == 0 {
      assert rows[..0] == [];
    } else {
      BalanceBounded(principal, r, months, payment, rows, j - 1);
      PrefixStep(rows, j - 1);
      var b := BalanceBefore(principal, rows, j - 1);
      assert rows[j - 1].interest == Interest(b, r);
      InterestMonotone(b, principal, r);
    }
  }

  /** One step of `RemainingNonIncreasing`: row `i + 1` shows no more than row `i`. */
  lemma RemainingStep(principal: int, r: real, months: int, payment: int, rows: seq<Row>, i: nat)
    requires r >= 0.0 && payment >= Interest(principal, r)
    requires Amortizes(principal, r, months, payment, rows)
    requires i + 1 < months
    ensures rows[i].remaining >= rows[i + 1].remaining
  {
    PrefixStep(rows, i);
    var before := BalanceBefore(principal, rows, i);
    var b := BalanceBefore(principal, rows, i + 1);
    assert rows[i].remaining == Max(before - rows[i].principalPart, 0);
    assert rows[i + 1].remaining == Max(b - rows[i + 1].principalPart, 0);
    if i + 1 < months - 1 {
      BalanceBounded(principal, r, months, payment, rows, i + 1);
      assert rows[i + 1].interest == Interest(b, r);
      InterestMonotone(b, principal, r);
    }
  }

  /** The remaining balance shown never goes up from one row to the next. */
  predicate RemainingNeverRises(rows: seq<Row>)
  {
    forall i :: 0 <= i < |rows| - 1 ==> rows[i].remaining >= rows[i + 1].remaining
  }

  /** The remaining balance shown never goes up from one row to the next, for
      a rate that is not negative and any payment that covers the interest on
      the principal. */
  lemma RemainingNonIncreasing(principal: int, r: real, months: int, payment: int, rows: seq<Row>)
    requires r >= 0.0 && payment >= Interest(principal, r)
    requires Amortizes(principal, r, months, payment, rows)
    ensures RemainingNeverRises(rows)
  {
    forall i | 0 <= i < |rows| - 1
      ensures rows[i].remaining >= rows[i + 1].remaining
    {
      RemainingStep(principal, r, months, payment, rows, i);
    }
  }

  /** The reference schedule for a payment that covers the interest on the
      principal shows a remaining balance that never goes up. */
  lemma ScheduleRemainingNonIncreasing(principal: int, r: real, months: int, payment: int)
    requires months >= 1 && r >= 0.0 && payment >= Interest(principal, r)
    ensures RemainingNeverRises(Schedule(principal, r, months, payment))
  {
    ScheduleAmortizes(principal, r, months, payment);
    RemainingNonIncreasing(principal, r, months, payment, Schedule(principal, r, months, payment));
  }

  /** At a zero rate no row charges interest, and each row but the last
      repays exactly the fixed payment. */
  lemma ZeroRateRows(principal: int, months: int, payment: int, rows: seq<Row>)
    requires Amortizes(principal, 0.0, months, payment, rows)
    ensures forall i :: 0 <= i < |rows| ==> rows[i].interest == 0
    ensures forall i :: 0 <= i < |rows| - 1 ==> rows[i].principalPart == payment
  {
    forall i | 0 <= i < |rows|
      ensures rows[i].interest == 0
    {
      assert Units(BalanceBefore(principal, rows, i)) * 0.0 == 0.0;
      Round2Zero();
    }
  }

  /** `RowsFrom` peels off the row of month `m`. */
  lemma RowsFromUnfold(balance: int, r: real, m: int, months: int, payment: int)
    requires m <= months
    ensures RowsFrom(balance, r, m, months, payment)
            == [MakeRow(balance, r, m, months, payment)]
               + RowsFrom(NextBalance(balance, r, m, months, payment), r, m + 1, months, payment)
  {
  }

  /** The row the loop of `BuildSchedule` computes for month `m`, step by
      step as the source does, is the reference row, and the new balance is
      the old one less the principal part. */
  lemma LoopRow(before: int, r: real, m: int, months: int, payment: int,
                interest: int, principalPart: int, paymentM: int, after: int)
    requires interest == Round2(Units(before) * r)
    requires principalPart == if m == months then Round2(Units(before)) else Round2(Units(payment) - Units(interest))
    requires paymentM == if m == months then Round2(Units(principalPart) + Units(interest)) else payment
    requires after == Round2(Units(before) - Units(principalPart))
    ensures Row(m, paymentM, interest, principalPart, Max(after, 0)) == MakeRow(before, r, m, months, payment)
    ensures after == NextBalance(before, r, m, months, payment)
    ensures after == before - principalPart
  {
    MonthArithmetic(before, r, m, months, payment);
  }

  /** One pass of the loop in `BuildSchedule`: appending the row of month `m`
      keeps the rows built so far a prefix of the reference schedule and keeps
      the totals in step. */
  lemma MonthStep(principal: int, r: real, months: int, payment: int, rows: seq<Row>, m: int, before: int)
    requires m <= months
    requires rows + RowsFrom(before, r, m, months, payment) == Schedule(principal, r, months, payment)
    ensures var row := MakeRow(before, r, m, months, payment);
            && (rows + [row]) + RowsFrom(NextBalance(before, r, m, months, payment), r, m + 1, months, payment)
               == Schedule(principal, r, months, payment)
            && Total(rows + [row], InterestColumn) == Total(rows, InterestColumn) + row.interest
            && Total(rows + [row], PrincipalColumn) == Total(rows, PrincipalColumn) + row.principalPart
  {
    var row := MakeRow(before, r, m, months, payment);
    var tail := RowsFrom(NextBalance(before, r, m, months, payment), r, m + 1, months, payment);
    RowsFromUnfold(before, r, m, months, payment);
    assert (rows + [row]) + tail == rows + ([row] + tail);
    assert (rows + [row])[..|rows|] == rows;
  }

  /** What the end of `BuildSchedule` needs about a finished table: it meets
      the specification, its rounded totals are exact, and its payments add up
      to the total paid. */
  lemma PlanFacts(principal: int, r: real, months: int, payment: int, rows: seq<Row>)
    requires months >= 1 && rows == Schedule(principal, r, months, payment)
    ensures Amortizes(principal, r, months, payment, rows)
    ensures Round2(Units(principal)) == principal
    ensures Round2(Units(Total(rows, InterestColumn))) == Total(rows, InterestColumn)
    ensures Round2(Units(Total(rows, InterestColumn)) + Units(principal)) == Total(rows, InterestColumn) + principal
    ensures Total(rows, PaymentColumn) == Total(rows, InterestColumn) + principal
  {
    Round2Units(principal);
    Round2Units(Total(rows, InterestColumn));
    Round2Sum(Total(rows, InterestColumn), principal);
    ScheduleAmortizes(principal, r, months, payment);
    PaymentsAddUp(principal, r, months, payment, rows);
  }

  /** `build_schedule(principal, annual_rate_percent, months)`. */
  method BuildSchedule(principal: int, annualRatePercent: real, months: int) returns (res: Result<Plan, Error>)
    ensures AnnuityPayment(principal, annualRatePercent, months).Failure? ==>
              res == Failure(AnnuityPayment(principal, annualRatePercent, months).error)
    ensures AnnuityPayment(principal, annualRatePercent, months).Success? ==>
              && res.Success?
              && var payment := AnnuityPayment(principal, annualRatePercent, months).value;
                 var rows := res.value.rows;
                 var summary := res.value.summary;
                 && rows == Schedule(principal, MonthlyRate(annualRatePercent), months, payment)
                 && Amortizes(principal, MonthlyRate(annualRatePercent), months, payment, rows)
                 && summary.principal == principal
                 && summary.ratePercent == annualRatePercent
                 && summary.months == months
                 && summary.monthlyPayment == payment
                 && summary.totalInterest == Total(rows, InterestColumn)
                 && summary.totalPaid == summary.totalInterest + principal
                 && summary.totalPaid == Total(rows, PaymentColumn)
  {
    var r := MonthlyRate(annualRatePercent);
    var annuity := AnnuityPayment(principal, annualRatePercent, months);
    if annuity.Failure? {
      return Failure(annuity.error);
    }
    var payment := annuity.value;

    var balance := principal;
    var rows: seq<Row> := [];
    var totalInterest := 0;
    var totalPrincipal := 0;

    for m := 1 to months + 1
      invariant rows + RowsFrom(balance, r, m, months, payment) == Schedule(principal, r, months, payment)
      invariant totalInterest == Total(rows, InterestColumn)
      invariant totalPrincipal == Total(rows, PrincipalColumn)
      invariant balance == principal - totalPrincipal
    {
      ghost var before := balance;
      var interest := Round2(Units(balance) * r);
      var principalPart := Round2(Units(payment) - Units(interest));
      var paymentM;
      if m == months {
        principalPart := Round2(Units(balance));
        paymentM := Round2(Units(principalPart) + Units(interest));
      } else {
        paymentM := payment;
      }
      balance := Round2(Units(balance) - Units(principalPart));

      totalInterest := totalInterest + interest;
      totalPrincipal := totalPrincipal + principalPart;

      var row := Row(m, paymentM, interest, principalPart, Max(balance, 0));
      LoopRow(before, r, m, months, payment, interest, principalPart, paymentM, balance);
      MonthStep(principal, r, months, payment, rows, m, before);
      rows := rows + [row];
    }

    var summary := Summary(
      Round2(Units(principal)),
      annualRatePercent,
      months,
      payment,
      Round2(Units(totalInterest)),
      Round2(Units(totalInterest) + Units(principal)));
    PlanFacts(principal, r, months, payment, rows);
    return Success(Plan(rows, summary));
  }
}
