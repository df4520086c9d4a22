/**
 The vault's epoch schedule: the check made when a vault is created, and the
 deposit and withdrawal window that guards the user instructions.
 */
module Epochs {
  import opened MachineInts
  import opened Outcomes

  datatype EpochTimes = EpochTimes(
    startEpoch: i64,
    endDeposits: i64,
    startAuction: i64,
    endAuction: i64,
    startSettlement: i64,
    endEpoch: i64,
    epochCadence: u64)

  predicate Sequential(t: EpochTimes) {
    t.startEpoch < t.endDeposits < t.startAuction < t.endAuction < t.startSettlement < t.endEpoch
  }

  /** `validate_epoch_times`. The subtraction is reached only for sequential times. */
  function ValidateEpochTimes(now: i64, t: EpochTimes): Outcome {
    if t.startEpoch <= now then Failure(VaultFuture)
    else if !Sequential(t) then Failure(SeqTimes)
    else
      var length := t.endEpoch - t.startEpoch;
      if !(-I64 <= length < I64) then Failure(Panicked)  // checked_sub on i64
      else if t.epochCadence >= Wrap64(length) then Success  // `as u64`
      else Failure(SeqTimes)
  }

  /** `deposit_withdraw_phase`. */
  function DepositWithdrawPhase(now: i64, t: EpochTimes): Outcome {
    if now <= t.startEpoch then Failure(StartEpochTime)
    else if now > t.endDeposits then Failure(EndDepositsTime)
    else Success
  }

  /**
   The accepted schedules, over unbounded integers, and what the others are refused for; the
   subtraction never trips once the clock is past 1970.
   */
  lemma AcceptedSchedules(now: i64, t: EpochTimes)
    ensures var r := ValidateEpochTimes(now, t);
            var ordered := && t.startEpoch < t.endDeposits < t.startAuction
                           && t.startAuction < t.endAuction < t.startSettlement < t.endEpoch;
            var length := t.endEpoch - t.startEpoch;
            && (r.Success? <==> now < t.startEpoch && ordered && length <= Min(t.epochCadence, I64 - 1))
            && (r == Failure(VaultFuture) <==> t.startEpoch <= now)
            && (r == Failure(Panicked) <==> now < t.startEpoch && ordered && I64 <= length)
            && (r == Failure(SeqTimes) <==>
                  now < t.startEpoch && (!ordered || (length < I64 && t.epochCadence < length)))
            && (0 <= now ==> r != Failure(Panicked))
  {
  }

  /** The window, and the errors before and after it. */
  lemma PhaseIs(now: i64, t: EpochTimes)
    ensures DepositWithdrawPhase(now, t).Success? <==> t.startEpoch < now <= t.endDeposits
    ensures DepositWithdrawPhase(now, t) == Failure(StartEpochTime) <==> now <= t.startEpoch
    ensures DepositWithdrawPhase(now, t) == Failure(EndDepositsTime) <==> now > t.startEpoch && now > t.endDeposits
  {
  }
}
