/**
 How far the vault borrows against its collateral, in every reachable state, and
 when exactly its user instructions go through there.
 */
module VaultLeverage {
  import opened MachineInts
  import opened Balances
  import opened VaultState
  import opened VaultConservation

  /** The collateral product of a deposit stays within 64 bits. */
  predicate ProductFits(amount: u64) {
    amount * 90 < U64
  }

  predicate StepFits(s: State, step: Step) {
    step.Deposit? && Accepted(s, step) ==> ProductFits(step.amount)
  }

  predicate RunFits(s: State, steps: seq<Step>) {
    forall i :: 0 <= i < |steps| ==> StepFits(At(s, steps, i), steps[i])
  }

  lemma RunFitsPrefix(s: State, steps: seq<Step>)
    requires RunFits(s, steps) && steps != []
    ensures RunFits(s, steps[..|steps| - 1])
    ensures StepFits(Run(s, steps[..|steps| - 1]), steps[|steps| - 1])
  {
    RunLast(s, steps);
    var before := steps[..|steps| - 1];
    forall i | 0 <= i < |before|
      ensures StepFits(At(s, before, i), before[i])
    {
      assert StepFits(At(s, steps, i), steps[i]);
    }
    assert StepFits(At(s, steps, |steps| - 1), steps[|steps| - 1]);
  }

  /**
   A deposit borrows no more than it posts as collateral, and within the 5:9 margin
   up to rounding, exactly when its product by 90 does not wrap.
   */
  lemma DepositLeverageIff(amount: u64)
    ensures ToBorrow(amount) <= ToCollateral(amount) <==> ProductFits(amount)
    ensures 9 * ToBorrow(amount) <= 5 * ToCollateral(amount) + 4 <==> ProductFits(amount)
  {
  }

  /** A deposit of two units meets the rounding allowance of four exactly, so no smaller one would do. */
  lemma AllowanceIsTight(s: State, user: User, jet: Jet)
    requires s.loan == s.collateral == 0 && DepositAccepted(s, user, 2, jet)
    ensures var s' := Apply(s, Deposit(user, 2, jet)); 9 * s'.loan == 5 * s'.collateral + 4
  {
    AllowanceMet(s, user, Charge(s, 2), jet);
  }

  lemma AllowanceMet(s: State, user: User, paid: u64, jet: Jet)
    requires s.loan == s.collateral == 0 && user in s.usdc && user in s.tokens && DepositMoves(s, user, 2, paid, jet)
    ensures var s' := Deposited(s, user, 2, paid, jet); 9 * s'.loan == 5 * s'.collateral + 4
  {
    assert ToCollateral(2) == 1 && ToBorrow(2) == 1;
  }

  /** What the reachable states have in common as long as no deposit wraps. */
  ghost predicate Solvent(s: State) {
    && s.supply == Total(s.tokens)
    && s.loan <= s.collateral
    && 0 <= PoolBacking(s)
    && Circulation(s) < U64
  }

  lemma StepKeepsSolvent(s: State, step: Step)
    requires Solvent(s) && StepFits(s, step)
    ensures Solvent(Apply(s, step))
  {
    StepConserves(s, step);
    if step.Deposit? { DepositLeverageIff(step.amount); }
  }

  lemma {:induction false} RunKeepsSolvent(s: State, steps: seq<Step>)
    requires Solvent(s) && RunFits(s, steps)
    ensures Solvent(Run(s, steps))
  {
    if steps != [] {
      RunFitsPrefix(s, steps);
      RunKeepsSolvent(s, steps[..|steps| - 1]);
      StepKeepsSolvent(Run(s, steps[..|steps| - 1]), steps[|steps| - 1]);
    }
  }

  /** Where all USDC in existence times 90 fits 64 bits, no run at all can wrap the product. */
  lemma {:induction false} SmallCirculationNeverWraps(s: State, steps: seq<Step>)
    requires Circulation(s) * 90 < U64
    ensures RunFits(s, steps)
  {
    forall i | 0 <= i < |steps|
      ensures StepFits(At(s, steps, i), steps[i])
    {
      RunConserves(s, steps[..i]);
      if steps[i].Deposit? {
        TotalCovers(At(s, steps, i).usdc, steps[i].user);
      }
    }
  }

  function DepositCount(s: State, steps: seq<Step>): nat {
    if steps == [] then 0
    else
      var before := steps[..|steps| - 1];
      var last := steps[|steps| - 1];
      DepositCount(s, before) + if last.Deposit? && Accepted(Run(s, before), last) then 1 else 0
  }

  /** What a deposit borrows and posts stays within the rounding allowance of 9:5 on both sides. */
  lemma DepositLeverageBothWays(amount: u64)
    requires ProductFits(amount)
    ensures 9 * ToBorrow(amount) - 4 <= 5 * ToCollateral(amount) <= 9 * ToBorrow(amount) + 4
  {
  }

  /**
   The leverage of every run from genesis, from both sides: nine times the loan plus four times
   the freed deposit notes is five times the collateral, give or take four for each accepted deposit.
   */
  lemma {:induction false} LeverageBound(s: State, steps: seq<Step>)
    requires Genesis(s) && RunFits(s, steps)
    ensures var s', n := Run(s, steps), DepositCount(s, steps);
            && 9 * s'.loan + 4 * s'.depositNotes <= 5 * s'.collateral + 4 * n
            && 5 * s'.collateral <= 9 * s'.loan + 4 * s'.depositNotes + 4 * n
  {
    if steps != [] {
      RunFitsPrefix(s, steps);
      LeverageBound(s, steps[..|steps| - 1]);
      var last := steps[|steps| - 1];
      if last.Deposit? && ProductFits(last.amount) { DepositLeverageBothWays(last.amount); }
    }
  }

  /** The loan and freed notes against the collateral, by which the leverage bound goes. */
  function Stretch(s: State): int {
    9 * s.loan + 4 * s.depositNotes - 5 * s.collateral
  }

  /** No deposit lowers the stretch by more than the allowance, and one that wraps raises it beyond all others. */
  lemma DepositStretches(amount: u64)
    ensures -4 <= 9 * ToBorrow(amount) - 5 * ToCollateral(amount)
    ensures !ProductFits(amount) ==> 900_000_000_000_000_000 < 9 * ToBorrow(amount) - 5 * ToCollateral(amount)
  {
  }

  lemma StepStretches(s: State, step: Step)
    ensures var change := Stretch(Apply(s, step)) - Stretch(s);
            if step.Deposit? && Accepted(s, step)
            then -4 <= change && (!StepFits(s, step) ==> 900_000_000_000_000_000 < change)
            else change == 0
  {
    if step.Deposit? { DepositStretches(step.amount); }
  }

  lemma RunFitsExtends(s: State, steps: seq<Step>)
    requires steps != [] && RunFits(s, steps[..|steps| - 1])
    requires StepFits(Run(s, steps[..|steps| - 1]), steps[|steps| - 1])
    ensures RunFits(s, steps)
  {
    RunLast(s, steps);
    var before := steps[..|steps| - 1];
    forall i | 0 <= i < |steps|
      ensures StepFits(At(s, steps, i), steps[i])
    {
      if i < |before| {
        assert StepFits(At(s, before, i), before[i]);
      }
    }
  }

  /** A single wrapped deposit shows for the rest of the run. */
  lemma {:induction false} WrappedRunIsStretched(s: State, steps: seq<Step>)
    requires Genesis(s)
    ensures -4 * DepositCount(s, steps) <= Stretch(Run(s, steps))
    ensures !RunFits(s, steps) ==> 900_000_000_000_000_000 - 4 * DepositCount(s, steps) < Stretch(Run(s, steps))
  {
    if steps != [] {
      var before := steps[..|steps| - 1];
      WrappedRunIsStretched(s, before);
      StepStretches(Run(s, before), steps[|steps| - 1]);
      if RunFits(s, before) && StepFits(Run(s, before), steps[|steps| - 1]) {
        RunFitsExtends(s, steps);
      }
    }
  }

  /** Over fewer than 10^17 accepted deposits the leverage bound holds exactly for the runs in which none wraps. */
  lemma LeverageBoundIff(s: State, steps: seq<Step>)
    requires Genesis(s) && DepositCount(s, steps) < 100_000_000_000_000_000
    ensures var s' := Run(s, steps);
            9 * s'.loan + 4 * s'.depositNotes <= 5 * s'.collateral + 4 * DepositCount(s, steps) <==> RunFits(s, steps)
  {
    WrappedRunIsStretched(s, steps);
    if RunFits(s, steps) {
      LeverageBound(s, steps);
    }
  }

  /**
   Every run from genesis in a world whose USDC times 90 fits 64 bits: the loan is covered by
   collateral and within the leverage bound, every token is some user's, and the users together
   are never ahead, but behind by at least the deposit notes that no instruction takes out.
   */
  lemma SmallWorldIsSafe(s: State, steps: seq<Step>)
    requires Genesis(s) && Circulation(s) * 90 < U64
    ensures var s' := Run(s, steps);
            && Solvent(s')
            && 9 * s'.loan + 4 * s'.depositNotes <= 5 * s'.collateral + 4 * DepositCount(s, steps)
            && Total(s'.usdc) + s'.vaultUsdc + s'.depositNotes <= Total(s.usdc)
  {
    SmallCirculationNeverWraps(s, steps);
    RunKeepsSolvent(s, steps);
    LeverageBound(s, steps);
    GenesisConservation(s, steps);
  }

  // ----- equity and the price of a token -----

  function Equity(s: State): int {
    s.vaultUsdc + s.collateral - s.loan
  }

  /** `amount` tokens at the floored rate: within pro rata, and short of it by less than one unit a token. */
  lemma FlooredShare(equity: nat, supply: nat, amount: nat, rate: int)
    requires 0 < supply && amount <= supply && rate == equity / supply
    ensures 0 <= amount * rate <= equity
    ensures amount * rate * supply <= equity * amount
    ensures 0 < amount ==> equity * amount < (amount * rate + amount) * supply
  {
    DivGalois(0, equity, supply);
    DivGalois(rate, equity, supply);
    DivGalois(rate + 1, equity, supply);
    assert (rate + 1) * supply == rate * supply + supply;
    ShareAtRate(equity, supply, amount, rate);
  }

  lemma ShareAtRate(equity: nat, supply: nat, amount: nat, rate: nat)
    requires amount <= supply && rate * supply <= equity < rate * supply + supply
    ensures 0 <= amount * rate <= equity
    ensures amount * rate * supply <= equity * amount
    ensures 0 < amount ==> equity * amount < (amount * rate + amount) * supply
  {
    var worth := rate * supply;
    MulMono(amount, rate, supply, rate);
    MulOrder(worth, equity, amount);
    assert amount * rate * supply == worth * amount;
    if 0 < amount {
      StrictProduct(amount, equity, worth + supply);
      assert (amount * rate + amount) * supply == amount * (worth + supply);
    }
  }

  lemma EquityIsExact(s: State)
    requires Solvent(s)
    ensures 0 <= Equity(s) == EquityWord(s) <= Circulation(s)
  {
    assert Equity(s) <= Circulation(s) - PoolBacking(s);
  }

  /**
   The equity is never negative and its 64-bit computation is exact, so the payout is exact,
   within the equity and within pro rata, and short of pro rata by less than a unit per token.
   */
  lemma PayoutIsExact(s: State, amount: u64)
    requires Solvent(s) && 0 < s.supply && amount <= s.supply
    ensures 0 <= Equity(s) == EquityWord(s)
    ensures Payout(s, amount) == amount * ((s.vaultUsdc + s.collateral - s.loan) / s.supply)
    ensures Payout(s, amount) * s.supply <= Equity(s) * amount
    ensures Payout(s, amount) <= Equity(s)
    ensures 0 < amount ==> Equity(s) * amount < (Payout(s, amount) + amount) * s.supply
  {
    EquityIsExact(s);
    var rate := Equity(s) / s.supply;
    FlooredShare(Equity(s), s.supply, amount, rate);
    WrapSteps(amount * rate, 0);
  }

  /** The deposit and withdrawal window of the epoch. */
  predicate InWindow(s: State) {
    s.vault.Some? && s.vault.value.times.startEpoch < s.now <= s.vault.value.times.endDeposits
  }

  /**
   Exactly when a withdrawal goes through in a solvent state that Jet's own checks allow:
   the vault must hold the payout and, on top, the repayment that the payout triggers.
   */
  lemma WithdrawSucceedsIff(s: State, user: User, amount: u64, jet: Jet)
    requires Solvent(s) && AccountsReady(s, user) && InWindow(s)
    requires 0 < s.supply && amount <= s.tokens[user]
    requires jet.refresh && jet.repay && jet.withdrawCollateral
    ensures var send := amount * (Equity(s) / s.supply);
            WithdrawAccepted(s, user, amount, jet) <==> send + Min(s.loan, send) <= s.vaultUsdc
    ensures WithdrawAccepted(s, user, amount, jet) ==>
              Repayment(s, Payout(s, amount)) == Min(s.loan, Payout(s, amount)) <= s.collateral
  {
    TotalCovers(s.tokens, user);
    TotalCovers(s.usdc, user);
    PayoutIsExact(s, amount);
    WithdrawMovesIff(s, user, amount, Payout(s, amount), jet);
  }

  lemma WithdrawMovesIff(s: State, user: User, amount: u64, send: u64, jet: Jet)
    requires Solvent(s) && user in s.usdc && user in s.tokens && amount <= s.tokens[user]
    requires jet.refresh && jet.repay && jet.withdrawCollateral
    ensures WithdrawMoves(s, user, amount, send, jet) <==> send + Min(s.loan, send) <= s.vaultUsdc
    ensures WithdrawMoves(s, user, amount, send, jet) ==> Repayment(s, send) == Min(s.loan, send) <= s.collateral
  {
    TotalCovers(s.tokens, user);
    TotalCovers(s.usdc, user);
    assert s.depositNotes <= s.pool;
  }

  /** The same for a deposit: what remains to check once the invariants are used. */
  lemma DepositSucceedsIff(s: State, user: User, amount: u64, jet: Jet)
    requires Solvent(s) && AccountsReady(s, user) && InWindow(s) && ProductFits(amount)
    requires amount <= s.usdc[user] && (0 < s.supply ==> 0 < s.vaultUsdc)
    requires jet.refresh && jet.deposit && jet.depositCollateral && jet.borrow
    ensures var paid, x, h := Charge(s, amount), amount * 90 / 100, amount / 2;
            DepositAccepted(s, user, amount, jet) <==>
              && paid <= s.usdc[user]
              && x <= s.vaultUsdc + paid
              && h <= s.pool + x
              && s.supply + amount < U64
              && s.collateral + x < U64
  {
    TotalCovers(s.tokens, user);
    TotalCovers(s.usdc, user);
    DepositMovesIff(s, user, amount, Charge(s, amount), jet);
  }

  lemma DepositMovesIff(s: State, user: User, amount: u64, paid: u64, jet: Jet)
    requires Solvent(s) && user in s.usdc && user in s.tokens && ProductFits(amount)
    requires jet.refresh && jet.deposit && jet.depositCollateral && jet.borrow
    ensures var x, h := amount * 90 / 100, amount / 2;
            DepositMoves(s, user, amount, paid, jet) <==>
              && paid <= s.usdc[user] && x <= s.vaultUsdc + paid && h <= s.pool + x
              && s.supply + amount < U64 && s.collateral + x < U64
  {
    TotalCovers(s.tokens, user);
    TotalCovers(s.usdc, user);
    ProductIsExact(amount);
    CreditsFit(s, s.usdc[user], paid, ToCollateral(amount), ToBorrow(amount));
  }

  lemma ProductIsExact(amount: u64)
    requires ProductFits(amount)
    ensures ToCollateral(amount) == amount * 90 / 100 && ToBorrow(amount) == amount / 2 <= ToCollateral(amount)
  {
  }

  /** Of the credits of a deposit only the one in collateral can overflow. */
  lemma CreditsFit(s: State, balance: u64, paid: u64, x: u64, h: u64)
    requires Solvent(s) && balance <= Total(s.usdc) && h <= x
    ensures paid <= balance && x <= s.vaultUsdc + paid && h <= s.pool + x && s.collateral + x < U64 ==>
              && s.vaultUsdc + paid < U64 && s.pool + x < U64 && s.depositNotes + x < U64
              && s.loan + h < U64 && s.vaultUsdc + paid - x + h < U64
  {
  }

  // ----- the first deposit -----

  /** No tokens and no holdings: the state in which the first deposit is made. */
  ghost predicate Unfunded(s: State) {
    Solvent(s) && s.supply == s.vaultUsdc == s.depositNotes == s.collateral == s.loan == 0
  }

  /** The first depositor pays the amount itself and gets tokens worth exactly one unit each. */
  lemma FirstDepositPricesAtOne(s: State, user: User, amount: u64, jet: Jet)
    requires Unfunded(s) && 0 < amount && DepositAccepted(s, user, amount, jet)
    ensures var s' := Apply(s, Deposit(user, amount, jet));
            && Charge(s, amount) == amount == s'.supply == Equity(s')
            && s'.vaultUsdc == amount - ToCollateral(amount) + ToBorrow(amount)
            && EquityWord(s') / s'.supply == 1
            && Payout(s', amount) == amount
  {
    var s' := Apply(s, Deposit(user, amount, jet));
    assert Charge(s, amount) == amount;
    FirstDepositMoves(s, user, amount, jet);
    PricedAtOne(s', amount);
  }

  lemma FirstDepositMoves(s: State, user: User, amount: u64, jet: Jet)
    requires Unfunded(s) && user in s.usdc && user in s.tokens && DepositMoves(s, user, amount, amount, jet)
    ensures var s' := Deposited(s, user, amount, amount, jet);
            && amount == s'.supply == Equity(s')
            && s'.vaultUsdc == amount - ToCollateral(amount) + ToBorrow(amount)
            && s'.collateral == ToCollateral(amount) <= amount && s'.loan == ToBorrow(amount) <= amount
  {
  }

  lemma PricedAtOne(s: State, amount: u64)
    requires 0 < amount == s.supply == Equity(s)
    ensures EquityWord(s) / s.supply == 1 && Payout(s, amount) == amount
  {
    assert EquityWord(s) == amount;
    DivGalois(1, amount, amount);
    DivGalois(2, amount, amount);
    var rate := EquityWord(s) / s.supply;
    assert rate == 1;
    assert amount * rate == amount;
  }

  /** Redeeming the whole first deposit at once fails unless nothing of it went to Jet. */
  lemma FullExitAfterFirstDepositIff(s: State, user: User, amount: u64, deposit: Jet, exit: Jet)
    requires Unfunded(s) && 0 < amount && DepositAccepted(s, user, amount, deposit)
    requires exit.refresh && exit.repay && exit.withdrawCollateral
    ensures WithdrawAccepted(Apply(s, Deposit(user, amount, deposit)), user, amount, exit) <==> amount == 1
  {
    var s' := Apply(s, Deposit(user, amount, deposit));
    TotalCovers(s.tokens, user);
    FirstDepositPricesAtOne(s, user, amount, deposit);
    DepositLeverageIff(amount);
    if ProductFits(amount) {
      StepKeepsSolvent(s, Deposit(user, amount, deposit));
      WithdrawSucceedsIff(s', user, amount, exit);
    } else {
      FirstDepositMoves(s, user, amount, deposit);
      WrappedExitIsRefused(s', user, amount, exit);
    }
  }

  /** After a wrapped first deposit the repayment of a full exit is more than there is collateral. */
  lemma WrappedExitIsRefused(s: State, user: User, amount: u64, exit: Jet)
    requires user in s.usdc && user in s.tokens
    requires s.collateral < s.loan <= amount && s.loan <= s.vaultUsdc
    ensures !WithdrawMoves(s, user, amount, amount, exit)
  {
  }

  lemma StrictProduct(amount: nat, x: nat, y: nat)
    requires 0 < amount && x < y
    ensures amount * x < amount * y
  {
    MulOrder(x + 1, y, amount);
    assert (x + 1) * amount == x * amount + amount;
  }
}
