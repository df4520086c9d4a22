/**
 The price of a token: what a deposit pays for it against the documented price, and what
 the floored rate of a withdrawal makes of it.
 */
module VaultPrice {
  import opened MachineInts
  import opened Balances
  import opened VaultState
  import opened VaultLeverage
  import opened VaultFairness

  // ----- deposits against the documented price -----

  /** The converted amount, before the cast to 64 bits. */
  function Conversion(s: State, amount: u64): int
    requires 0 < s.supply && 0 < s.vaultUsdc
  {
    amount * s.supply / s.vaultUsdc
  }

  /**
   The documented price of a token is vault balance over supply, and one when there is no
   supply.  As long as the conversion fits 64 bits, a depositor pays that price only for the
   first deposit, in a vault whose balance equals its supply, or for nothing at all; it is
   too little when the vault holds more than one unit per token, and too much when it holds
   less.  A conversion that is cut to 64 bits meets the price exactly when the documented
   cost is a whole number and the cut takes off all that is above it.
   */
  lemma DocumentedPriceIff(s: State, amount: u64)
    requires 0 < s.supply ==> 0 < s.vaultUsdc
    ensures s.supply == 0 ==> Charge(s, amount) == amount
    ensures 0 < s.supply && Conversion(s, amount) < U64 ==>
              && Charge(s, amount) * s.vaultUsdc <= amount * s.supply
              && amount * s.supply < Charge(s, amount) * s.vaultUsdc + s.vaultUsdc
              && (Charge(s, amount) * s.supply == amount * s.vaultUsdc <==> s.supply == s.vaultUsdc || amount == 0)
              && (0 < amount && s.supply < s.vaultUsdc ==> Charge(s, amount) * s.supply < amount * s.vaultUsdc)
              && (0 < amount && s.vaultUsdc < s.supply ==> amount * s.vaultUsdc < Charge(s, amount) * s.supply)
    ensures 0 < s.supply && U64 <= Conversion(s, amount) ==>
              && s.vaultUsdc < s.supply
              && (Charge(s, amount) * s.supply == amount * s.vaultUsdc <==>
                    && amount * s.vaultUsdc % s.supply == 0
                    && (Conversion(s, amount) - amount * s.vaultUsdc / s.supply) % U64 == 0)
  {
    if 0 < s.supply {
      var paid := Conversion(s, amount);
      ConversionIsCut(s, amount, paid);
      if paid < U64 {
        QuotientBrackets(amount * s.supply, s.vaultUsdc, paid);
        ConversionAgainstPrice(amount, s.supply, s.vaultUsdc, paid);
      } else {
        CutConversion(amount, s.supply, s.vaultUsdc, paid, Charge(s, amount));
      }
    }
  }

  lemma ConversionIsCut(s: State, amount: u64, paid: int)
    requires 0 < s.supply && 0 < s.vaultUsdc && paid == Conversion(s, amount)
    ensures 0 <= paid && Charge(s, amount) == Wrap64(paid)
  {
    MulMono(0, 0, amount, s.supply);
    DivGalois(0, amount * s.supply, s.vaultUsdc);
  }

  lemma CutConversion(amount: u64, supply: u64, held: nat, paid: int, charge: u64)
    requires 0 < supply && 0 < held && paid == amount * supply / held && U64 <= paid && charge == Wrap64(paid)
    ensures held < supply
    ensures charge * supply == amount * held <==>
              amount * held % supply == 0 && (paid - amount * held / supply) % U64 == 0
  {
    DivGalois(paid, amount * supply, held);
    HeldBelowSupply(amount, supply, held, paid);
    var cost := amount * held / supply;
    DivGalois(0, amount * held, supply);
    DivGalois(amount + 1, amount * held, supply);
    MulMono(amount, held, amount, supply);
    assert 0 <= cost <= amount by {
      assert (amount + 1) * supply == amount * supply + supply;
      MulMono(0, 0, amount, held);
    }
    assert amount * held == cost * supply + amount * held % supply;
    SameWord(paid, cost, charge);
    WholeCost(amount * held, supply, cost, charge);
  }

  lemma HeldBelowSupply(amount: nat, supply: nat, held: nat, paid: int)
    requires 0 < held && paid * held <= amount * supply && amount < paid
    ensures held < supply
  {
    MulOrder(amount + 1, paid, held);
    assert (amount + 1) * held == amount * held + held;
    MulOrder(supply, held, amount);
    assert supply * amount == amount * supply && held * amount == amount * held;
  }

  lemma SameWord(paid: int, cost: int, charge: u64)
    requires charge == Wrap64(paid) && 0 <= cost < U64
    ensures charge == cost <==> (paid - cost) % U64 == 0
  {
  }

  lemma WholeCost(worth: int, supply: nat, cost: int, charge: int)
    requires 0 < supply && cost == worth / supply && worth == cost * supply + worth % supply
    ensures charge * supply == worth <==> worth % supply == 0 && charge == cost
  {
    if charge * supply == worth {
      QuotientIs(worth, supply, charge);
    }
  }

  lemma ConversionAgainstPrice(amount: nat, supply: nat, held: nat, paid: int)
    requires 0 < supply && 0 < held && paid == amount * supply / held
    ensures supply == held || amount == 0 ==> paid * supply == amount * held
    ensures 0 < amount && supply < held ==> paid * supply < amount * held
    ensures 0 < amount && held < supply ==> amount * held < paid * supply
  {
    var product := amount * supply;
    DivGalois(0, product, held);
    if amount == 0 || supply == held {
      DivGalois(amount, product, held);
      DivGalois(amount + 1, product, held);
      assert (amount + 1) * held == amount * held + held;
    } else if supply < held {
      StrictProduct(amount, supply, held);
      DivGalois(amount, product, held);
      MulOrder(paid, amount, supply);
    } else {
      StrictProduct(amount, held, supply);
      DivGalois(amount, product, held);
      MulOrder(amount, paid, supply);
    }
  }

  // ----- withdrawals at the floored rate -----

  /**
   The documented price of a withdrawal is vault balance over supply.  It is paid exactly when
   the vault holds a whole number of units per token and the collateral beyond the loan is less
   than one unit per token.  Otherwise the payout is too little if flooring takes away more
   than that collateral adds, and too much if it takes away less.
   */
  lemma WithdrawalPriceIff(s: State, amount: u64)
    requires Solvent(s) && 0 < amount <= s.supply
    ensures Payout(s, amount) * s.supply == s.vaultUsdc * amount <==>
              s.vaultUsdc % s.supply == 0 && s.collateral - s.loan < s.supply
    ensures Payout(s, amount) * s.supply < s.vaultUsdc * amount <==>
              s.collateral - s.loan < Equity(s) % s.supply
    ensures Payout(s, amount) * s.supply > s.vaultUsdc * amount <==>
              Equity(s) % s.supply < s.collateral - s.loan
  {
    var rate, rest := Equity(s) / s.supply, Equity(s) % s.supply;
    PayoutIsExact(s, amount);
    RateAndRest(Equity(s), s.supply, rate, rest);
    PriceComparison(amount, rate, s.supply, s.vaultUsdc);
    RemainderOfSum(s.vaultUsdc, s.collateral - s.loan, s.supply);
  }

  lemma RateAndRest(x: int, d: nat, rate: int, rest: int)
    requires 0 < d && rate == x / d && rest == x % d
    ensures rate * d == x - rest
  {
  }

  lemma PriceComparison(amount: nat, rate: int, supply: nat, held: int)
    requires 0 < amount
    ensures amount * rate * supply < held * amount <==> rate * supply < held
    ensures amount * rate * supply == held * amount <==> rate * supply == held
  {
    Regroup(amount, rate, supply);
    CompareScaled(rate * supply, held, amount);
  }

  /** The share of the equity is paid in full exactly when it comes to whole units per token. */
  lemma EquityPriceIff(s: State, amount: u64)
    requires Solvent(s) && 0 < amount <= s.supply
    ensures Payout(s, amount) * s.supply == Equity(s) * amount <==> Equity(s) % s.supply == 0
  {
    var rate, rest := Equity(s) / s.supply, Equity(s) % s.supply;
    PayoutIsExact(s, amount);
    RateAndRest(Equity(s), s.supply, rate, rest);
    PriceComparison(amount, rate, s.supply, Equity(s));
  }

  lemma Regroup(x: int, y: int, z: int)
    ensures x * y * z == (y * z) * x
  {
  }

  lemma CompareScaled(x: int, y: int, k: nat)
    requires 0 < k
    ensures x * k < y * k <==> x < y
    ensures x * k == y * k <==> x == y
  {
    MulOrder(x + 1, y, k);
    MulOrder(y + 1, x, k);
    assert (x + 1) * k == x * k + k && (y + 1) * k == y * k + k;
  }

  lemma RemainderOfSum(x: nat, y: nat, d: nat)
    requires 0 < d
    ensures (x + y) % d == y <==> x % d == 0 && y < d
  {
    var q, k := (x + y) / d, x / d;
    assert x + y == q * d + (x + y) % d && x == k * d + x % d;
    if (x + y) % d == y {
      QuotientIs(x, d, q);
    }
    if x % d == 0 && y < d {
      QuotientIs(x + y, d, k);
    }
  }

  // ----- there and back -----

  /**
   Exactly when tokens bought can be redeemed at once for more than they cost: the floored price
   after the deposit exceeds the floored price paid.  That takes a sale below the equity.
   */
  lemma RoundTripGainsIff(s: State, user: User, amount: u64, jet: Jet)
    requires Solvent(s) && ProductFits(amount) && 0 < amount && DepositAccepted(s, user, amount, jet)
    ensures var s' := Apply(s, Deposit(user, amount, jet)); var paid := Charge(s, amount);
            && (Payout(s', amount) > paid <==> (paid / amount + 1) * (s.supply + amount) <= Equity(s) + paid)
            && (Payout(s', amount) > paid ==> paid * s.supply < Equity(s) * amount)
  {
    var s' := Apply(s, Deposit(user, amount, jet));
    var paid := Charge(s, amount);
    StepKeepsSolvent(s, Deposit(user, amount, jet));
    DepositMovesEquity(s, user, amount, paid, jet);
    PayoutIsExact(s', amount);
    var rate := Equity(s') / s'.supply;
    DivGalois(paid / amount + 1, Equity(s'), s'.supply);
    CostBelowRate(paid, amount, rate);
    GainTakesEquity(Equity(s), s.supply, paid, amount, Payout(s', amount));
  }

  lemma CostBelowRate(paid: nat, amount: nat, rate: int)
    requires 0 < amount
    ensures amount * rate > paid <==> paid / amount + 1 <= rate
  {
    DivGalois(rate, paid, amount);
    assert amount * rate == rate * amount;
  }

  lemma GainTakesEquity(equity: int, supply: nat, paid: nat, amount: nat, payout: nat)
    requires payout * (supply + amount) <= (equity + paid) * amount
    ensures payout > paid && 0 < amount ==> paid * supply < equity * amount
  {
    MulOrder(paid + 1, payout, supply + amount);
    assert (paid + 1) * (supply + amount) == paid * supply + paid * amount + supply + amount;
    assert (equity + paid) * amount == equity * amount + paid * amount;
  }

  // ----- the collapse of the price -----

  /** Tokens are redeemed for nothing exactly while the equity is below the supply. */
  lemma PayoutIsZeroIff(s: State, amount: u64)
    requires Solvent(s) && 0 < amount <= s.supply
    ensures Payout(s, amount) == 0 <==> Equity(s) < s.supply
  {
    PayoutIsExact(s, amount);
    DivGalois(1, Equity(s), s.supply);
    var rate := Equity(s) / s.supply;
    DivGalois(0, Equity(s), s.supply);
    MulMono(amount, 1, amount, Max(rate, 1));
  }

  /**
   After any first deposit, any withdrawal of a part of it takes what it repays to Jet out of
   the equity on top of its payout; from then on every token is redeemed for nothing.
   */
  lemma PartialExitCollapsesThePrice(s: State, user: User, amount: u64, deposit: Jet, part: u64, exit: Jet)
    requires Unfunded(s) && ProductFits(amount) && DepositAccepted(s, user, amount, deposit)
    requires 0 < part < amount
    ensures var s1 := Apply(s, Deposit(user, amount, deposit));
            var s2 := Apply(s1, Withdraw(user, part, exit));
            WithdrawAccepted(s1, user, part, exit) ==>
              && Solvent(s2) && s2.supply == amount - part
              && Equity(s2) == s2.supply - Min(amount / 2, part) < s2.supply
              && forall k: u64 :: 0 < k <= s2.supply ==> Payout(s2, k) == 0
  {
    var s1 := Apply(s, Deposit(user, amount, deposit));
    StepKeepsSolvent(s, Deposit(user, amount, deposit));
    FirstDepositPricesAtOne(s, user, amount, deposit);
    FirstDepositBorrows(s, user, amount, deposit);
    if WithdrawAccepted(s1, user, part, exit) {
      PartialExitAtOne(s1, user, part, exit);
    }
  }

  /** A withdrawal at a price of one, with a loan outstanding. */
  lemma PartialExitAtOne(s: State, user: User, part: u64, exit: Jet)
    requires Solvent(s) && Equity(s) == s.supply && 0 < s.loan && 0 < part < s.supply
    ensures var s' := Apply(s, Withdraw(user, part, exit));
            WithdrawAccepted(s, user, part, exit) ==>
              && Solvent(s') && s'.supply == s.supply - part
              && Equity(s') == s'.supply - Min(s.loan, part) < s'.supply
              && forall k: u64 :: 0 < k <= s'.supply ==> Payout(s', k) == 0
  {
    if WithdrawAccepted(s, user, part, exit) {
      var s' := Apply(s, Withdraw(user, part, exit));
      StepKeepsSolvent(s, Withdraw(user, part, exit));
      PricedAtOne(s, s.supply);
      PayoutAtOne(s, part);
      WithdrawalLowersEquity(s, user, part, exit);
      WithdrawMovesIff(s, user, part, part, exit);
      forall k: u64 | 0 < k <= s'.supply
        ensures Payout(s', k) == 0
      {
        PayoutIsZeroIff(s', k);
      }
    }
  }

  lemma FirstDepositBorrows(s: State, user: User, amount: u64, jet: Jet)
    requires Unfunded(s) && DepositAccepted(s, user, amount, jet)
    ensures Apply(s, Deposit(user, amount, jet)).loan == amount / 2
  {
  }

  lemma PayoutAtOne(s: State, amount: u64)
    requires 0 < s.supply && EquityWord(s) / s.supply == 1
    ensures Payout(s, amount) == amount
  {
    assert amount * 1 == amount;
  }

  /**
   While the price has collapsed nobody is paid and the equity stays: over any run without
   deposits that ends with more tokens than equity, tokens are only burned.
   */
  lemma {:induction false} NothingPaidWhileCollapsed(s: State, steps: seq<Step>)
    requires Solvent(s) && NoDeposits(steps) && Equity(s) < Run(s, steps).supply
    ensures var s' := Run(s, steps);
            Solvent(s') && s'.supply <= s.supply && Equity(s') == Equity(s) && PaidOut(s, s') == 0
  {
    if steps != [] {
      var before := steps[..|steps| - 1];
      var last := steps[|steps| - 1];
      var mid := Run(s, before);
      SupplyFalls(mid, last);
      NothingPaidWhileCollapsed(s, before);
      CollapsedStep(mid, last);
    }
  }

  /** So the first step after which tokens are worth something is the one that has burned all the excess. */
  lemma PriceReturnsIff(s: State, steps: seq<Step>, next: Step, amount: u64)
    requires Solvent(s) && NoDeposits(steps) && !next.Deposit? && Equity(s) < Run(s, steps).supply
    requires 0 < amount <= Apply(Run(s, steps), next).supply
    ensures var s' := Apply(Run(s, steps), next);
            && Equity(s') == Equity(s)
            && (Payout(s', amount) > 0 <==> s.supply - Equity(s) <= Burned(s, s'))
  {
    NothingPaidWhileCollapsed(s, steps);
    CollapsedStep(Run(s, steps), next);
    PayoutIsZeroIff(Apply(Run(s, steps), next), amount);
  }

  lemma SupplyFalls(s: State, step: Step)
    requires !step.Deposit?
    ensures Apply(s, step).supply <= s.supply
  {
  }

  lemma CollapsedStep(s: State, step: Step)
    requires Solvent(s) && !step.Deposit? && Equity(s) < s.supply
    ensures var s' := Apply(s, step);
            Solvent(s') && Equity(s') == Equity(s) && PaidOut(s, s') == 0
  {
    StepKeepsSolvent(s, step);
    if step.Withdraw? && Accepted(s, step) {
      TotalCovers(s.tokens, step.user);
      WithdrawalLowersEquity(s, step.user, step.amount, step.jet);
      if 0 < step.amount {
        PayoutIsZeroIff(s, step.amount);
      } else {
        PayoutIsExact(s, 0);
      }
    } else {
      OtherStepsPayNothing(s, step);
    }
  }

  /** The other way back: a deposit restores the price exactly when what it pays covers what is missing. */
  lemma DepositRestoresThePriceIff(s: State, user: User, amount: u64, jet: Jet)
    requires Solvent(s) && ProductFits(amount) && 0 < amount && DepositAccepted(s, user, amount, jet)
    ensures var s' := Apply(s, Deposit(user, amount, jet));
            && Equity(s') == Equity(s) + Charge(s, amount) && s'.supply == s.supply + amount
            && (Payout(s', amount) > 0 <==> s.supply + amount <= Equity(s) + Charge(s, amount))
  {
    var s' := Apply(s, Deposit(user, amount, jet));
    StepKeepsSolvent(s, Deposit(user, amount, jet));
    DepositMovesEquity(s, user, amount, Charge(s, amount), jet);
    PayoutIsZeroIff(s', amount);
  }

  lemma DepositMovesEquity(s: State, user: User, amount: u64, paid: u64, jet: Jet)
    requires user in s.usdc && user in s.tokens && DepositMoves(s, user, amount, paid, jet)
    ensures var s' := Deposited(s, user, amount, paid, jet);
            Equity(s') == Equity(s) + paid && s'.supply == s.supply + amount
  {
  }
}
