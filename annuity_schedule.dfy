/**
 * The schedule `build_schedule` lays out with the annuity payment.
 *
 * The `Amortization` lemmas hold for any fixed payment; this module connects
 * them to the payment that `annuity_payment` computes for a loan the
 * conversation accepts.
 */
module AnnuitySchedule {
  import opened Wrappers
  import opened Money
  import opened Annuity
  import opened Amortization

  /** The payment computed for a loan the conversation accepts covers the
      first month's interest, and the term is at least one month. */
  lemma FirstInterestCovered(principal: int, annualRatePercent: real, months: int, payment: int)
    requires principal >= 0 && annualRatePercent >= 0.0
    requires AnnuityPayment(principal, annualRatePercent, months) == Success(payment)
    ensures months >= 1 && MonthlyRate(annualRatePercent) >= 0.0
    ensures payment >= Interest(principal, MonthlyRate(annualRatePercent))
  {
    AnnuityCoversInterest(principal, annualRatePercent, months, payment);
  }

  /** Every loan the conversation accepts (a principal and a rate that are not
      negative) gets a schedule whose remaining balance never goes up. */
  lemma AnnuityRemainingNonIncreasing(principal: int, annualRatePercent: real, months: int, payment: int)
    requires principal >= 0 && annualRatePercent >= 0.0
    requires AnnuityPayment(principal, annualRatePercent, months) == Success(payment)
    ensures RemainingNeverRises(Schedule(principal, MonthlyRate(annualRatePercent), months, payment))
  {
    FirstInterestCovered(principal, annualRatePercent, months, payment);
    ScheduleRemainingNonIncreasing(principal, MonthlyRate(annualRatePercent), months, payment);
  }
}
