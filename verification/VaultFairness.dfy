/**
 What all redeemers together can take out of a vault while nobody deposits.
 */
module VaultFairness {
  import opened MachineInts
  import opened Balances
  import opened VaultState
  import opened VaultConservation
  import opened VaultLeverage

  predicate NoDeposits(steps: seq<Step>) {
    forall i :: 0 <= i < |steps| ==> !steps[i].Deposit?
  }

  ghost function PaidOut(s: State, s': State): int {
    Total(s'.usdc) - Total(s.usdc)
  }

  function Burned(s: State, s': State): int {
    s.supply - s'.supply
  }

  /** A withdrawal takes its payout out of the equity, and the collateral it frees as well. */
  lemma WithdrawalLowersEquity(s: State, user: User, amount: u64, jet: Jet)
    requires Solvent(s) && WithdrawAccepted(s, user, amount, jet)
    ensures var s' := Apply(s, Withdraw(user, amount, jet)); var send := Payout(s, amount);
            && Equity(s') == Equity(s) - send - Repayment(s, send)
            && s'.supply == s.supply - amount
            && PaidOut(s, s') == send
            && send * s.supply <= Equity(s) * amount
  {
    PayoutIsExact(s, amount);
    WithdrawalConserves(s, user, amount, Payout(s, amount), jet);
  }

  /** What is left to share, scaled by the starting supply. */
  lemma ScaledRemainder(e0: int, s0: int, paid: int, burned: int)
    ensures (e0 - paid) * s0 == e0 * (s0 - burned) + (e0 * burned - paid * s0)
  {
  }

  lemma Rearrange(x: int, y: int, z: int)
    ensures x * y * z == (x * z) * y
  {
  }

  lemma Cancel(x: int, y: int, d: int)
    requires 0 < d && x * d <= y * d
    ensures x <= y
  {
    MulOrder(y + 1, x, d);
    assert (y + 1) * d == y * d + d;
  }

  /** One share, scaled: `send * left <= x * amount` where `x * s0 == e0 * left + slack`. */
  lemma ScaledShare(e0: nat, s0: nat, x: int, slack: nat, left: nat, amount: nat, send: nat)
    requires amount <= left && 0 < left
    requires send * left <= x * amount && x * s0 == e0 * left + slack
    ensures send * s0 <= e0 * amount + slack
  {
    MulOrder(send * left, x * amount, s0);
    Rearrange(send, left, s0);
    Rearrange(x, amount, s0);
    assert (e0 * left + slack) * amount == e0 * left * amount + slack * amount;
    Rearrange(e0, left, amount);
    MulMono(slack, amount, slack, left);
    assert (e0 * amount + slack) * left == e0 * amount * left + slack * left;
    Cancel(send * s0, e0 * amount + slack, left);
  }

  /** One more pro rata share of what is left keeps the total within pro rata of the start. */
  lemma ShareOfRemainder(e0: nat, s0: nat, paid: nat, burned: nat, e: nat, amount: nat, send: nat)
    requires burned + amount <= s0 && burned < s0
    requires e <= e0 - paid
    requires paid * s0 <= e0 * burned
    requires send * (s0 - burned) <= e * amount
    ensures (paid + send) * s0 <= e0 * (burned + amount)
  {
    var slack := e0 * burned - paid * s0;
    ScaledRemainder(e0, s0, paid, burned);
    MulOrder(e, e0 - paid, amount);
    ScaledShare(e0, s0, e0 - paid, slack, s0 - burned, amount, send);
    assert (paid + send) * s0 == paid * s0 + send * s0;
    assert e0 * (burned + amount) == e0 * burned + e0 * amount;
  }

  /** What holds between the start `s` and a later state `s'` of a run without deposits. */
  ghost predicate ProRata(s: State, s': State) {
    && Solvent(s')
    && 0 <= PaidOut(s, s') && 0 <= Burned(s, s')
    && Equity(s') <= Equity(s) - PaidOut(s, s')
    && PaidOut(s, s') * s.supply <= Equity(s) * Burned(s, s')
  }

  lemma WithdrawalKeepsProRata(s: State, mid: State, user: User, amount: u64, jet: Jet)
    requires Solvent(s) && ProRata(s, mid) && WithdrawAccepted(mid, user, amount, jet)
    ensures ProRata(s, Apply(mid, Withdraw(user, amount, jet)))
  {
    var s' := Apply(mid, Withdraw(user, amount, jet));
    var send := Payout(mid, amount);
    StepKeepsSolvent(mid, Withdraw(user, amount, jet));
    TotalCovers(mid.tokens, user);
    WithdrawalLowersEquity(mid, user, amount, jet);
    ShareOfRemainder(Equity(s), s.supply, PaidOut(s, mid), Burned(s, mid), Equity(mid), amount, send);
    assert PaidOut(s, s') == PaidOut(s, mid) + send && Burned(s, s') == Burned(s, mid) + amount;
  }

  /** The remaining steps neither pay nor burn. */
  lemma OtherStepsPayNothing(s: State, step: Step)
    requires !Accepted(s, step) || !(step.Deposit? || step.Withdraw?)
    ensures var s' := Apply(s, step);
            s'.usdc == s.usdc && s'.supply == s.supply && Equity(s') == Equity(s)
  {
  }

  lemma StepKeepsProRata(s: State, mid: State, step: Step)
    requires Solvent(s) && ProRata(s, mid) && !step.Deposit?
    ensures ProRata(s, Apply(mid, step))
  {
    if step.Withdraw? && Accepted(mid, step) {
      WithdrawalKeepsProRata(s, mid, step.user, step.amount, step.jet);
    } else {
      OtherStepsPayNothing(mid, step);
      StepKeepsSolvent(mid, step);
    }
  }

  /**
   Over any run without deposits, by any users in any order: all that is paid out times the
   supply at the start is at most the equity at the start times all that is burned.
   */
  lemma {:induction false} RedeemersShareProRata(s: State, steps: seq<Step>)
    requires Solvent(s) && NoDeposits(steps)
    ensures ProRata(s, Run(s, steps))
  {
    if steps != [] {
      RedeemersShareProRata(s, steps[..|steps| - 1]);
      StepKeepsProRata(s, Run(s, steps[..|steps| - 1]), steps[|steps| - 1]);
    }
  }

  // ----- a single redeemer against the start -----

  /**
   What a later redeemer can gain over the price at the start, scaled by both supplies, is
   paid for by what the redeemers before gave up: at most their shortfall for each token.
   So nobody beats the start while everybody before got exactly pro rata.
   */
  lemma GainIsOthersShortfall(s: State, mid: State, amount: u64)
    requires Solvent(s) && ProRata(s, mid) && 0 < mid.supply && amount <= mid.supply
    ensures var shortfall := Equity(s) * Burned(s, mid) - PaidOut(s, mid) * s.supply;
            && (Payout(mid, amount) * s.supply - Equity(s) * amount) * mid.supply <= shortfall * amount
            && (shortfall == 0 ==> Payout(mid, amount) * s.supply <= Equity(s) * amount)
  {
    var e0, s0, paid, burned := Equity(s), s.supply, PaidOut(s, mid), Burned(s, mid);
    PayoutIsExact(mid, amount);
    ScaledGain(e0, s0, paid, burned, Equity(mid), amount, Payout(mid, amount));
  }

  lemma ScaledGain(e0: int, s0: nat, paid: int, burned: int, e: int, amount: nat, send: nat)
    requires burned < s0 && e <= e0 - paid && send * (s0 - burned) <= e * amount
    ensures (send * s0 - e0 * amount) * (s0 - burned) <= (e0 * burned - paid * s0) * amount
    ensures e0 * burned - paid * s0 == 0 ==> send * s0 <= e0 * amount
  {
    var left, slack := s0 - burned, e0 * burned - paid * s0;
    ScaledRemainder(e0, s0, paid, burned);
    MulOrder(e, e0 - paid, amount);
    MulOrder(send * left, (e0 - paid) * amount, s0);
    Rearrange(send, left, s0);
    Rearrange(e0 - paid, amount, s0);
    assert (e0 * left + slack) * amount == e0 * left * amount + slack * amount;
    Rearrange(e0, left, amount);
    assert (send * s0 - e0 * amount) * left == send * s0 * left - e0 * amount * left;
    if slack == 0 {
      Cancel(send * s0, e0 * amount, left);
    }
  }

  /** Exactly when a later redeemer beats the price at the start: the floored rate has risen since. */
  lemma BeatsTheStartIff(s: State, mid: State, amount: u64)
    requires Solvent(s) && 0 < s.supply && Solvent(mid) && 0 < amount <= mid.supply
    ensures Payout(mid, amount) * s.supply > Equity(s) * amount <==>
              Equity(s) / s.supply < Equity(mid) / mid.supply
  {
    PayoutIsExact(mid, amount);
    RateBeats(Equity(s), s.supply, Equity(mid) / mid.supply, amount);
  }

  lemma RateBeats(equity: int, supply: nat, rate: int, amount: nat)
    requires 0 < supply && 0 < amount
    ensures amount * rate * supply > equity * amount <==> equity / supply < rate
  {
    QuotientBelow(equity, supply, rate);
    Rearrange(amount, rate, supply);
    var x, y := rate * supply, equity;
    assert amount * rate * supply == x * amount;
    MulOrder(x, y, amount);
    MulOrder(y + 1, x, amount);
    assert (y + 1) * amount == y * amount + amount;
  }

  lemma QuotientBelow(x: int, d: nat, q: int)
    requires 0 < d
    ensures x / d < q <==> x < q * d
  {
    DivGalois(q, x, d);
  }
}
