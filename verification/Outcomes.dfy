/**
 How an instruction of the vault program ends, and an optional value.
 */
module Outcomes {

  datatype Option<+T> = None | Some(value: T)

  /** The vault's own error codes that its instructions raise, and the failures around them. */
  datatype VaultError =
    | VaultFuture
    | SeqTimes
    | StartEpochTime
    | EndDepositsTime
    | InsufficientUsdcBalance
    | InsufficientRedeemableBalance
    | AccountConstraint  // an account is missing, already there, or at another address
    | TokenProgram       // a transfer, mint or burn is refused
    | JetProgram         // a Jet call is refused
    | Panicked

  datatype Outcome = Success | Failure(error: VaultError)
}
