/**
 The vault program as it runs: each instruction moves one balance after another,
 and the runtime restores every account when an instruction fails part of the way.
 Each method is proved against the net effect stated in `VaultState`.
 */
module VaultProgram {
  import opened MachineInts
  import opened Outcomes
  import opened Names
  import opened Epochs
  import opened Balances
  import opened VaultState

  class Ledger {
    var now: i64
    var vault: Option<VaultInfo>
    var usdc: Accounts
    var tokens: Accounts
    var supply: u64
    var vaultUsdc: u64
    var depositNotes: u64
    var collateral: u64
    var loan: u64
    var pool: u64

    function Snapshot(): State
      reads this
    {
      State(now, vault, usdc, tokens, supply, vaultUsdc, depositNotes, collateral, loan, pool)
    }

    constructor (now: i64, usdc: Accounts, pool: u64)
      ensures Genesis(Snapshot())
      ensures this.now == now && this.usdc == usdc && this.pool == pool
    {
      this.now, this.usdc, this.pool := now, usdc, pool;
      vault, tokens := None, map[];
      supply, vaultUsdc, depositNotes, collateral, loan := 0, 0, 0, 0, 0;
    }

    method Restore(s: State)
      modifies this
      ensures Snapshot() == s
    {
      now, vault, usdc, tokens, supply := s.now, s.vault, s.usdc, s.tokens, s.supply;
      vaultUsdc, depositNotes, collateral, loan, pool := s.vaultUsdc, s.depositNotes, s.collateral, s.loan, s.pool;
    }

    // ----- the token program: every debit and credit is checked -----

    /** USDC from a user to the vault. */
    method PayIn(user: User, amount: u64) returns (ok: bool)
      requires user in usdc
      modifies this
      ensures ok <==> amount <= old(usdc[user]) && old(vaultUsdc) + amount < U64
      ensures ok ==> Snapshot() == old(Snapshot()).(
                usdc := old(usdc)[user := old(usdc[user]) - amount], vaultUsdc := old(vaultUsdc) + amount)
      ensures !ok ==> Snapshot() == old(Snapshot())
    {
      ok := amount <= usdc[user] && vaultUsdc + amount < U64;
      if ok {
        usdc := usdc[user := usdc[user] - amount];
        vaultUsdc := vaultUsdc + amount;
      }
    }

    /** USDC from the vault to a user. */
    method PayOut(user: User, amount: u64) returns (ok: bool)
      requires user in usdc
      modifies this
      ensures ok <==> amount <= old(vaultUsdc) && old(usdc[user]) + amount < U64
      ensures ok ==> Snapshot() == old(Snapshot()).(
                usdc := old(usdc)[user := old(usdc[user]) + amount], vaultUsdc := old(vaultUsdc) - amount)
      ensures !ok ==> Snapshot() == old(Snapshot())
    {
      ok := amount <= vaultUsdc && usdc[user] + amount < U64;
      if ok {
        vaultUsdc := vaultUsdc - amount;
        usdc := usdc[user := usdc[user] + amount];
      }
    }

    method MintTo(user: User, amount: u64) returns (ok: bool)
      requires user in tokens
      modifies this
      ensures ok <==> old(tokens[user]) + amount < U64 && old(supply) + amount < U64
      ensures ok ==> Snapshot() == old(Snapshot()).(
                tokens := old(tokens)[user := old(tokens[user]) + amount], supply := old(supply) + amount)
      ensures !ok ==> Snapshot() == old(Snapshot())
    {
      ok := tokens[user] + amount < U64 && supply + amount < U64;
      if ok {
        tokens := tokens[user := tokens[user] + amount];
        supply := supply + amount;
      }
    }

    method Burn(user: User, amount: u64) returns (ok: bool)
      requires user in tokens
      modifies this
      ensures ok <==> amount <= old(tokens[user]) && amount <= old(supply)
      ensures ok ==> Snapshot() == old(Snapshot()).(
                tokens := old(tokens)[user := old(tokens[user]) - amount], supply := old(supply) - amount)
      ensures !ok ==> Snapshot() == old(Snapshot())
    {
      ok := amount <= tokens[user] && amount <= supply;
      if ok {
        tokens := tokens[user := tokens[user] - amount];
        supply := supply - amount;
      }
    }

    method CloseIfEmpty(user: User)
      requires user in tokens
      modifies this
      ensures Snapshot() == old(Snapshot()).(
                tokens := if old(tokens[user]) == 0 then old(tokens) - {user} else old(tokens))
    {
      if tokens[user] == 0 {
        tokens := tokens - {user};
      }
    }

    // ----- Jet: notes one to one with USDC -----

    method JetDeposit(amount: u64) returns (ok: bool)
      modifies this
      ensures ok <==> amount <= old(vaultUsdc) && old(pool) + amount < U64 && old(depositNotes) + amount < U64
      ensures ok ==> Snapshot() == old(Snapshot()).(
                vaultUsdc := old(vaultUsdc) - amount, pool := old(pool) + amount,
                depositNotes := old(depositNotes) + amount)
      ensures !ok ==> Snapshot() == old(Snapshot())
    {
      ok := amount <= vaultUsdc && pool + amount < U64 && depositNotes + amount < U64;
      if ok {
        vaultUsdc, pool := vaultUsdc - amount, pool + amount;
        depositNotes := depositNotes + amount;
      }
    }

    method JetDepositCollateral(amount: u64) returns (ok: bool)
      modifies this
      ensures ok <==> amount <= old(depositNotes) && old(collateral) + amount < U64
      ensures ok ==> Snapshot() == old(Snapshot()).(
                depositNotes := old(depositNotes) - amount, collateral := old(collateral) + amount)
      ensures !ok ==> Snapshot() == old(Snapshot())
    {
      ok := amount <= depositNotes && collateral + amount < U64;
      if ok {
        depositNotes, collateral := depositNotes - amount, collateral + amount;
      }
    }

    method JetBorrow(amount: u64) returns (ok: bool)
      modifies this
      ensures ok <==> amount <= old(pool) && old(vaultUsdc) + amount < U64 && old(loan) + amount < U64
      ensures ok ==> Snapshot() == old(Snapshot()).(
                pool := old(pool) - amount, vaultUsdc := old(vaultUsdc) + amount, loan := old(loan) + amount)
      ensures !ok ==> Snapshot() == old(Snapshot())
    {
      ok := amount <= pool && vaultUsdc + amount < U64 && loan + amount < U64;
      if ok {
        pool, vaultUsdc := pool - amount, vaultUsdc + amount;
        loan := loan + amount;
      }
    }

    method JetRepay(amount: u64) returns (ok: bool)
      modifies this
      ensures ok <==> amount <= old(vaultUsdc) && amount <= old(loan) && old(pool) + amount < U64
      ensures ok ==> Snapshot() == old(Snapshot()).(
                vaultUsdc := old(vaultUsdc) - amount, pool := old(pool) + amount, loan := old(loan) - amount)
      ensures !ok ==> Snapshot() == old(Snapshot())
    {
      ok := amount <= vaultUsdc && amount <= loan && pool + amount < U64;
      if ok {
        vaultUsdc, pool := vaultUsdc - amount, pool + amount;
        loan := loan - amount;
      }
    }

    method JetWithdrawCollateral(amount: u64) returns (ok: bool)
      modifies this
      ensures ok <==> amount <= old(collateral) && old(depositNotes) + amount < U64
      ensures ok ==> Snapshot() == old(Snapshot()).(
                collateral := old(collateral) - amount, depositNotes := old(depositNotes) + amount)
      ensures !ok ==> Snapshot() == old(Snapshot())
    {
      ok := amount <= collateral && depositNotes + amount < U64;
      if ok {
        collateral, depositNotes := collateral - amount, depositNotes + amount;
      }
    }

    // ----- the instructions -----

    method InitializeVault(name: Bytes, times: EpochTimes, jet: Jet) returns (r: Outcome)
      modifies this
      ensures r.Success? <==> InitializeAccepted(old(Snapshot()), name, times, jet)
      ensures Snapshot() == Apply(old(Snapshot()), Initialize(name, times, jet))
      ensures old(vault).None? && ValidateEpochTimes(old(now), times).Failure? ==>
                r == ValidateEpochTimes(old(now), times)
      ensures old(vault).None? && ValidateEpochTimes(old(now), times).Success? && 20 < |name| ==> r == Failure(Panicked)
    {
      if vault.Some? { return Failure(AccountConstraint); }
      var valid := ValidateEpochTimes(now, times);
      if valid.Failure? { return valid; }
      if |name| > NAME_LENGTH { return Failure(Panicked); }
      if !jet.init { return Failure(JetProgram); }
      var nameData := PadName(name);
      vault := Some(VaultInfo(name, nameData[..], times));
      r := Success;
    }

    method InitializeUserRedeemableTokenAccount(user: User) returns (r: Outcome)
      modifies this
      ensures r.Success? <==> OpenAccepted(old(Snapshot()), user)
      ensures Snapshot() == Apply(old(Snapshot()), OpenAccount(user))
    {
      if !AddressesMatch(Snapshot()) || user in tokens { return Failure(AccountConstraint); }
      r := DepositWithdrawPhase(now, vault.value.times);
      if r.Success? {
        tokens := tokens[user := 0];
      }
    }

    /** The moves of `deposit_vault`, which may stop after any of them. */
    method MoveDeposit(user: User, amount: u64, paid: u64, jet: Jet) returns (r: Outcome)
      requires user in usdc && user in tokens
      modifies this
      ensures r.Success? <==> DepositMoves(old(Snapshot()), user, amount, paid, jet)
      ensures r.Success? ==> Snapshot() == Deposited(old(Snapshot()), user, amount, paid, jet)
      ensures r.Failure? ==> r.error.TokenProgram? || r.error.JetProgram?
    {
      var ok := PayIn(user, paid);
      if !ok { return Failure(TokenProgram); }
      ok := MintTo(user, amount);
      if !ok { return Failure(TokenProgram); }
      if !jet.refresh { return Failure(JetProgram); }
      ok := JetDeposit(Wrap64(amount * 90) / 100);
      if !ok || !jet.deposit { return Failure(JetProgram); }
      ok := JetDepositCollateral(Wrap64(amount * 90) / 100);
      if !ok || !jet.depositCollateral { return Failure(JetProgram); }
      ok := JetBorrow(amount / 2);
      if !ok || !jet.borrow { return Failure(JetProgram); }
      r := Success;
    }

    /** The conversion by supply over vault balance; the u128 product cannot overflow. */
    method Convert(amount: u64) returns (redeemable: nat)
      requires 0 < supply ==> 0 < vaultUsdc
      ensures supply == 0 ==> redeemable == amount
      ensures 0 < supply ==>
                && amount * supply < U128
                && redeemable * vaultUsdc <= amount * supply < redeemable * vaultUsdc + vaultUsdc
      ensures Wrap64(redeemable) == Charge(Snapshot(), amount)
    {
      redeemable := amount;
      if supply > 0 {
        MulFits128(amount, supply);
        redeemable := amount * supply / vaultUsdc;
        QuotientBrackets(amount * supply, vaultUsdc, redeemable);
      }
    }

    /** The body of `deposit_vault`. */
    method DepositBody(user: User, amount: u64, jet: Jet) returns (r: Outcome)
      modifies this
      ensures r.Success? <==> DepositAccepted(old(Snapshot()), user, amount, jet)
      ensures r.Success? ==> Snapshot() == Apply(old(Snapshot()), Deposit(user, amount, jet))
      ensures AccountsReady(old(Snapshot()), user) && Phase(old(Snapshot())).Failure? ==> r == Phase(old(Snapshot()))
      ensures AccountsReady(old(Snapshot()), user) && Phase(old(Snapshot())).Success? ==>
                (r == Failure(InsufficientUsdcBalance) <==> old(usdc)[user] < amount)
      ensures AccountsReady(old(Snapshot()), user) && Phase(old(Snapshot())).Success? ==>
                (r == Failure(Panicked) <==> amount <= old(usdc)[user] && 0 < old(supply) && old(vaultUsdc) == 0)
    {
      if !AccountsReady(Snapshot(), user) { return Failure(AccountConstraint); }
      r := DepositWithdrawPhase(now, vault.value.times);
      if r.Failure? { return; }
      if usdc[user] < amount { return Failure(InsufficientUsdcBalance); }
      if supply > 0 && vaultUsdc == 0 { return Failure(Panicked); }
      var redeemable := Convert(amount);
      r := MoveDeposit(user, amount, Wrap64(redeemable), jet);
    }

    method DepositVault(user: User, amount: u64, jet: Jet) returns (r: Outcome)
      modifies this
      ensures r.Success? <==> DepositAccepted(old(Snapshot()), user, amount, jet)
      ensures Snapshot() == Apply(old(Snapshot()), Deposit(user, amount, jet))
      ensures AccountsReady(old(Snapshot()), user) && Phase(old(Snapshot())).Failure? ==> r == Phase(old(Snapshot()))
      ensures AccountsReady(old(Snapshot()), user) && Phase(old(Snapshot())).Success? ==>
                (r == Failure(InsufficientUsdcBalance) <==> old(usdc)[user] < amount)
      ensures AccountsReady(old(Snapshot()), user) && Phase(old(Snapshot())).Success? ==>
                (r == Failure(Panicked) <==> amount <= old(usdc)[user] && 0 < old(supply) && old(vaultUsdc) == 0)
    {
      var before := Snapshot();
      r := DepositBody(user, amount, jet);
      if r.Failure? { Restore(before); }
    }

    /** What the redeemed tokens are worth, in the program's order of wrapping operations. */
    method Price(amount: u64) returns (send: u64)
      requires 0 < supply
      ensures send == Payout(Snapshot(), amount)
    {
      var equity := Wrap64(Wrap64(vaultUsdc + collateral) - loan);
      WrapSteps(vaultUsdc + collateral, 0 - loan);
      assert equity == EquityWord(Snapshot());
      var rate := equity / supply;
      send := Wrap64(amount * rate);
    }

    /** The moves of `withdraw_vault`, which may stop after any of them. */
    method MoveWithdrawal(user: User, amount: u64, send: u64, jet: Jet) returns (r: Outcome)
      requires user in usdc && user in tokens
      modifies this
      ensures r.Success? <==> WithdrawMoves(old(Snapshot()), user, amount, send, jet)
      ensures r.Success? ==> Snapshot() == Withdrawn(old(Snapshot()), user, amount, send, jet)
      ensures r.Failure? ==> r.error.TokenProgram? || r.error.JetProgram?
    {
      var repay := Min(Min(loan, send), vaultUsdc);
      if !jet.refresh { return Failure(JetProgram); }
      var ok := JetRepay(repay);
      if !ok || !jet.repay { return Failure(JetProgram); }
      ok := JetWithdrawCollateral(repay);
      if !ok || !jet.withdrawCollateral { return Failure(JetProgram); }
      ok := Burn(user, amount);
      if !ok { return Failure(TokenProgram); }
      ok := PayOut(user, send);
      if !ok { return Failure(TokenProgram); }
      CloseIfEmpty(user);
      r := Success;
      assert tokens == Withdrawn(old(Snapshot()), user, amount, send, jet).tokens;
    }

    /** The body of `withdraw_vault`. */
    method WithdrawBody(user: User, amount: u64, jet: Jet) returns (r: Outcome)
      modifies this
      ensures r.Success? <==> WithdrawAccepted(old(Snapshot()), user, amount, jet)
      ensures r.Success? ==> Snapshot() == Apply(old(Snapshot()), Withdraw(user, amount, jet))
      ensures AccountsReady(old(Snapshot()), user) && Phase(old(Snapshot())).Failure? ==> r == Phase(old(Snapshot()))
      ensures AccountsReady(old(Snapshot()), user) && Phase(old(Snapshot())).Success? ==>
                (r == Failure(InsufficientRedeemableBalance) <==> old(tokens)[user] < amount)
      ensures AccountsReady(old(Snapshot()), user) && Phase(old(Snapshot())).Success? ==>
                (r == Failure(Panicked) <==> amount <= old(tokens)[user] && old(supply) == 0)
    {
      if !AccountsReady(Snapshot(), user) { return Failure(AccountConstraint); }
      r := DepositWithdrawPhase(now, vault.value.times);
      if r.Failure? { return; }
      if tokens[user] < amount { return Failure(InsufficientRedeemableBalance); }
      if supply == 0 { return Failure(Panicked); }
      var send := Price(amount);
      r := MoveWithdrawal(user, amount, send, jet);
    }

    method WithdrawVault(user: User, amount: u64, jet: Jet) returns (r: Outcome)
      modifies this
      ensures r.Success? <==> WithdrawAccepted(old(Snapshot()), user, amount, jet)
      ensures Snapshot() == Apply(old(Snapshot()), Withdraw(user, amount, jet))
      ensures AccountsReady(old(Snapshot()), user) && Phase(old(Snapshot())).Failure? ==> r == Phase(old(Snapshot()))
      ensures AccountsReady(old(Snapshot()), user) && Phase(old(Snapshot())).Success? ==>
                (r == Failure(InsufficientRedeemableBalance) <==> old(tokens)[user] < amount)
      ensures AccountsReady(old(Snapshot()), user) && Phase(old(Snapshot())).Success? ==>
                (r == Failure(Panicked) <==> amount <= old(tokens)[user] && old(supply) == 0)
    {
      var before := Snapshot();
      r := WithdrawBody(user, amount, jet);
      if r.Failure? { Restore(before); }
    }
  }
}
