/**
 What every run of the vault keeps, whatever the amounts: USDC, the backing of
 Jet's notes, and the redeemable supply.
 */
module VaultConservation {
  import opened MachineInts
  import opened Balances
  import opened VaultState

  /** All USDC in the model: with the users, in the vault, in the Jet reserve. */
  ghost function Circulation(s: State): int {
    Total(s.usdc) + s.vaultUsdc + s.pool
  }

  /** What the Jet reserve holds beyond the notes the vault has against it. */
  function PoolBacking(s: State): int {
    s.pool - (s.collateral + s.depositNotes - s.loan)
  }

  function NetWorth(s: State): int {
    s.vaultUsdc + s.collateral + s.depositNotes - s.loan
  }

  ghost function Unheld(s: State): int {
    s.supply - Total(s.tokens)
  }

  lemma StepConserves(s: State, step: Step)
    ensures Circulation(Apply(s, step)) == Circulation(s)
    ensures PoolBacking(Apply(s, step)) == PoolBacking(s)
    ensures Unheld(Apply(s, step)) == Unheld(s)
  {
    if Accepted(s, step) {
      match step
      case Tick(time) =>
      case Initialize(name, times, jet) =>
      case OpenAccount(user) => TotalUpdate(s.tokens, user, 0);
      case Deposit(user, amount, jet) => DepositConserves(s, user, amount, Charge(s, amount), jet);
      case Withdraw(user, amount, jet) => WithdrawalConserves(s, user, amount, Payout(s, amount), jet);
    }
  }

  lemma DepositConserves(s: State, user: User, amount: u64, paid: u64, jet: Jet)
    requires user in s.usdc && user in s.tokens && DepositMoves(s, user, amount, paid, jet)
    ensures var s' := Deposited(s, user, amount, paid, jet);
            && Circulation(s') == Circulation(s) && PoolBacking(s') == PoolBacking(s) && Unheld(s') == Unheld(s)
            && Total(s'.usdc) == Total(s.usdc) - paid
  {
    TotalUpdate(s.usdc, user, s.usdc[user] - paid);
    TotalUpdate(s.tokens, user, s.tokens[user] + amount);
  }

  lemma WithdrawalConserves(s: State, user: User, amount: u64, send: u64, jet: Jet)
    requires user in s.usdc && user in s.tokens && WithdrawMoves(s, user, amount, send, jet)
    ensures var s' := Withdrawn(s, user, amount, send, jet);
            && Circulation(s') == Circulation(s) && PoolBacking(s') == PoolBacking(s) && Unheld(s') == Unheld(s)
            && Total(s'.usdc) == Total(s.usdc) + send
  {
    TotalUpdate(s.usdc, user, s.usdc[user] + send);
    TotalUpdate(s.tokens, user, s.tokens[user] - amount);
    TotalRemove(s.tokens, user);
  }

  /**
   Over any run, USDC only moves between users, vault and pool; the pool grows by
   exactly the notes it owes net of what it lent; and tokens are issued to users only.
   */
  lemma {:induction false} RunConserves(s: State, steps: seq<Step>)
    ensures Circulation(Run(s, steps)) == Circulation(s)
    ensures PoolBacking(Run(s, steps)) == PoolBacking(s)
    ensures Unheld(Run(s, steps)) == Unheld(s)
  {
    if steps != [] {
      RunConserves(s, steps[..|steps| - 1]);
      StepConserves(Run(s, steps[..|steps| - 1]), steps[|steps| - 1]);
    }
  }

  /** From genesis on: the supply is the sum of the users' balances, and the pool's gain is the vault's net claim. */
  lemma GenesisConservation(s: State, steps: seq<Step>)
    requires Genesis(s)
    ensures var s' := Run(s, steps);
            && s'.supply == Total(s'.tokens)
            && s'.pool - s.pool == s'.collateral + s'.depositNotes - s'.loan
            && Total(s'.usdc) + s'.vaultUsdc + s'.pool == Total(s.usdc) + s.pool
            && NetWorth(s') == Total(s.usdc) - Total(s'.usdc)
  {
    RunConserves(s, steps);
  }

  /** A deposit raises the net worth by what the user pays; a withdrawal lowers it by what the user is sent. */
  lemma NetWorthFollowsTransfers(s: State, step: Step)
    requires Accepted(s, step)
    ensures step.Deposit? ==>
              NetWorth(Apply(s, step)) - NetWorth(s) == Charge(s, step.amount) ==
              Total(s.usdc) - Total(Apply(s, step).usdc)
    ensures step.Withdraw? ==>
              NetWorth(s) - NetWorth(Apply(s, step)) == Payout(s, step.amount) ==
              Total(Apply(s, step).usdc) - Total(s.usdc)
    ensures !step.Deposit? && !step.Withdraw? ==> NetWorth(Apply(s, step)) == NetWorth(s)
  {
    match step
    case Deposit(user, amount, jet) => DepositConserves(s, user, amount, Charge(s, amount), jet);
    case Withdraw(user, amount, jet) => WithdrawalConserves(s, user, amount, Payout(s, amount), jet);
    case _ =>
  }

  /** Deposit notes freed by a withdrawal stay in the deposit account: no instruction takes them out. */
  lemma {:induction false} DepositNotesNeverLeave(s: State, steps: seq<Step>)
    ensures s.depositNotes <= Run(s, steps).depositNotes
  {
    if steps != [] {
      DepositNotesNeverLeave(s, steps[..|steps| - 1]);
    }
  }
}
