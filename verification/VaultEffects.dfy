/**
 What the instructions of the vault do to each account, in plain amounts, and what they are
 refused for.
 */
module VaultEffects {
  import opened MachineInts
  import opened Names
  import opened Epochs
  import opened Balances
  import opened VaultState
  import opened VaultLeverage
  import opened VaultLifecycle

  /**
   The charge for tokens is amount times supply over vault balance, rounded down, and then cut
   by a multiple of 2^64, which is none if the charge fits.
   */
  lemma ChargeIsFloored(s: State, amount: u64) returns (cut: nat)
    requires 0 < s.supply && 0 < s.vaultUsdc
    ensures var paid := Charge(s, amount) + cut * 0x1_0000_0000_0000_0000;
            paid * s.vaultUsdc <= amount * s.supply < paid * s.vaultUsdc + s.vaultUsdc
    ensures amount * s.supply < 0x1_0000_0000_0000_0000 * s.vaultUsdc ==> cut == 0
  {
    var product := amount * s.supply;
    var paid := product / s.vaultUsdc;
    MulMono(0, 0, amount, s.supply);
    DivGalois(0, product, s.vaultUsdc);
    QuotientBrackets(product, s.vaultUsdc, paid);
    DivGalois(U64, product, s.vaultUsdc);
    cut := paid / U64;
    CutAway(paid, cut);
  }

  lemma CutAway(paid: nat, cut: nat)
    requires cut == paid / U64
    ensures Wrap64(paid) + cut * U64 == paid
    ensures paid < U64 ==> cut == 0
  {
  }

  /** An accepted deposit, account by account: 90% of the amount goes to collateral and half of it is borrowed back. */
  lemma DepositEffect(s: State, user: User, amount: u64, jet: Jet)
    requires ProductFits(amount) && DepositAccepted(s, user, amount, jet)
    ensures var s', paid := Apply(s, Deposit(user, amount, jet)), Charge(s, amount);
            && s'.usdc == s.usdc[user := s.usdc[user] - paid]
            && s'.tokens == s.tokens[user := s.tokens[user] + amount] && s'.supply == s.supply + amount
            && s'.vaultUsdc == s.vaultUsdc + paid - amount * 90 / 100 + amount / 2
            && s'.pool == s.pool + amount * 90 / 100 - amount / 2
            && s'.collateral == s.collateral + amount * 90 / 100
            && s'.loan == s.loan + amount / 2 && s'.depositNotes == s.depositNotes
            && s'.now == s.now && s'.vault == s.vault
  {
    EffectOfMoves(s, user, amount, Charge(s, amount), jet);
  }

  lemma EffectOfMoves(s: State, user: User, amount: u64, paid: u64, jet: Jet)
    requires ProductFits(amount) && user in s.usdc && user in s.tokens && DepositMoves(s, user, amount, paid, jet)
    ensures var s' := Deposited(s, user, amount, paid, jet);
            && s'.usdc == s.usdc[user := s.usdc[user] - paid]
            && s'.tokens == s.tokens[user := s.tokens[user] + amount] && s'.supply == s.supply + amount
            && s'.vaultUsdc == s.vaultUsdc + paid - amount * 90 / 100 + amount / 2
            && s'.pool == s.pool + amount * 90 / 100 - amount / 2
            && s'.collateral == s.collateral + amount * 90 / 100
            && s'.loan == s.loan + amount / 2 && s'.depositNotes == s.depositNotes
            && s'.now == s.now && s'.vault == s.vault
  {
    assert ToCollateral(amount) == amount * 90 / 100 && ToBorrow(amount) == amount / 2;
  }

  /**
   An accepted withdrawal, account by account: the user is sent the payout, and as much of the
   loan as that, at most all of it, is repaid and freed from collateral into deposit notes.
   */
  lemma WithdrawalEffect(s: State, user: User, amount: u64, jet: Jet, sent: u64, repaid: u64)
    requires WithdrawAccepted(s, user, amount, jet)
    requires sent == Payout(s, amount) && repaid == if s.loan < sent then s.loan else sent
    ensures var s' := Apply(s, Withdraw(user, amount, jet));
            && s'.usdc == s.usdc[user := s.usdc[user] + sent]
            && s'.tokens == (if s.tokens[user] == amount then s.tokens - {user}
                             else s.tokens[user := s.tokens[user] - amount])
            && s'.supply == s.supply - amount
            && s'.vaultUsdc == s.vaultUsdc - repaid - sent && s'.pool == s.pool + repaid
            && s'.loan == s.loan - repaid
            && s'.collateral == s.collateral - repaid && s'.depositNotes == s.depositNotes + repaid
            && s'.now == s.now && s'.vault == s.vault
  {
    assert WithdrawMoves(s, user, amount, sent, jet);
    assert repaid == Repayment(s, sent);
  }

  /** A refused Jet call refuses its whole instruction; so does any state of the calls an instruction does not make. */
  lemma JetDecides(s: State, user: User, amount: u64, jet: Jet, name: Bytes, times: EpochTimes)
    ensures !(jet.refresh && jet.deposit && jet.depositCollateral && jet.borrow) ==>
              Apply(s, Deposit(user, amount, jet)) == s && !Accepted(s, Deposit(user, amount, jet))
    ensures !(jet.refresh && jet.repay && jet.withdrawCollateral) ==>
              Apply(s, Withdraw(user, amount, jet)) == s && !Accepted(s, Withdraw(user, amount, jet))
    ensures !jet.init ==>
              Apply(s, Initialize(name, times, jet)) == s && !Accepted(s, Initialize(name, times, jet))
  {
  }

  /** A vault is created once, before its epoch, under a name of at most 20 bytes, and records just that. */
  lemma InitializeIff(s: State, name: Bytes, times: EpochTimes, jet: Jet)
    ensures Accepted(s, Initialize(name, times, jet)) <==>
              s.vault.None? && ValidateEpochTimes(s.now, times).Success? && |name| <= 20 && jet.init
    ensures Accepted(s, Initialize(name, times, jet)) ==>
              var s' := Apply(s, Initialize(name, times, jet));
              && s'.vault.Some? && s'.(vault := s.vault) == s
              && s'.vault.value.seed == name && s'.vault.value.times == times
              && |s'.vault.value.storedName| == 20 && name <= s'.vault.value.storedName
              && forall i :: |name| <= i < 20 ==> s'.vault.value.storedName[i] == 0x20
  {
  }

  /** Creating a vault under an untrimmed name is accepted, and no run from there ever moves anything. */
  lemma UntrimmedNameIsDead(s: State, name: Bytes, times: EpochTimes, jet: Jet, steps: seq<Step>)
    requires !Trimmed(name) && Accepted(s, Initialize(name, times, jet))
    ensures var s' := Apply(s, Initialize(name, times, jet)); Holdings(Run(s', steps)) == Holdings(s')
  {
    var s' := Apply(s, Initialize(name, times, jet));
    UntrimmedVaultIsDead(s', steps);
  }

  /** A token account is opened, empty, for a user without one, in the window of a vault with a trimmed name. */
  lemma OpensIff(s: State, user: User)
    requires RecordSound(s)
    ensures Accepted(s, OpenAccount(user)) <==>
              && s.vault.Some? && Trimmed(s.vault.value.seed)
              && s.vault.value.times.startEpoch < s.now <= s.vault.value.times.endDeposits
              && user !in s.tokens
    ensures Accepted(s, OpenAccount(user)) ==> Apply(s, OpenAccount(user)) == s.(tokens := s.tokens[user := 0])
  {
    if s.vault.Some? {
      AddressableIff(s);
    }
  }
}
