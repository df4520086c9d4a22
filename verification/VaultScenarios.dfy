/**
 Short runs from genesis that reach what the general theorems leave possible, for any vault
 that can be used and any time in its window.
 */
module VaultScenarios {
  import opened MachineInts
  import opened Outcomes
  import opened Names
  import opened Epochs
  import opened Balances
  import opened VaultState
  import opened VaultConservation
  import opened VaultLeverage

  /** The vault to be created at time 0, the time of its deposits and withdrawals, and a willing Jet. */
  datatype Scene = Scene(name: Bytes, times: EpochTimes, time: i64, jet: Jet)

  predicate Playable(c: Scene) {
    && Trimmed(c.name) && |c.name| <= NAME_LENGTH
    && ValidateEpochTimes(0, c.times).Success?
    && c.times.startEpoch < c.time <= c.times.endDeposits
    && c.jet == Jet(true, true, true, true, true, true, true)
  }

  function Start(usdc: Accounts, pool: u64): State {
    State(0, None, usdc, map[], 0, 0, 0, 0, 0, pool)
  }

  /** The created vault in its window. */
  function Book(c: Scene, usdc: Accounts, tokens: Accounts, supply: u64, vaultUsdc: u64,
                depositNotes: u64, collateral: u64, loan: u64, pool: u64): State
    requires Playable(c)
  {
    State(c.time, Some(VaultInfo(c.name, Pad(c.name), c.times)), usdc, tokens,
          supply, vaultUsdc, depositNotes, collateral, loan, pool)
  }

  function Opening(c: Scene): seq<Step> {
    [Initialize(c.name, c.times, c.jet), Tick(c.time)]
  }

  lemma {:induction false} RunAppends(s: State, steps: seq<Step>, more: seq<Step>)
    ensures Run(s, steps + more) == Run(Run(s, steps), more)
  {
    if more == [] {
      assert steps + more == steps;
    } else {
      var most := more[..|more| - 1];
      RunAppends(s, steps, most);
      assert (steps + more)[..|steps + more| - 1] == steps + most;
    }
  }

  lemma RunOfTwo(s: State, first: Step, second: Step)
    ensures Run(s, [first, second]) == Apply(Apply(s, first), second)
  {
    assert [first, second][..1] == [first] && [first][..0] == [];
    assert Run(s, [first][..0]) == s;
  }

  /** Two steps more on a run whose end is known. */
  lemma RunsOn(s: State, steps: seq<Step>, mid: State, first: Step, second: Step)
    requires Run(s, steps) == mid
    ensures Run(s, steps + [first, second]) == Apply(Apply(mid, first), second)
  {
    RunAppends(s, steps, [first, second]);
    RunOfTwo(mid, first, second);
  }

  lemma Opens(c: Scene, usdc: Accounts, pool: u64)
    requires Playable(c)
    ensures Genesis(Start(usdc, pool))
    ensures Run(Start(usdc, pool), Opening(c)) == Book(c, usdc, map[], 0, 0, 0, 0, 0, pool)
  {
    RunOfTwo(Start(usdc, pool), Opening(c)[0], Opening(c)[1]);
  }

  /** The guards of the user instructions are met in every book. */
  lemma Ready(c: Scene, s: State)
    requires Playable(c) && s.now == c.time && s.vault == Some(VaultInfo(c.name, Pad(c.name), c.times))
    ensures AddressesMatch(s) && Phase(s).Success?
  {
    StripPadRoundTrip(c.name);
  }

  lemma OpensAccount(c: Scene, s: State, user: User)
    requires Playable(c) && s.now == c.time && s.vault == Some(VaultInfo(c.name, Pad(c.name), c.times))
    requires user !in s.tokens
    ensures Apply(s, OpenAccount(user)) == s.(tokens := s.tokens[user := 0])
  {
    Ready(c, s);
  }

  /** A withdrawal at a known payout goes through as a whole. */
  lemma Redeems(c: Scene, s: State, user: User, amount: u64, send: u64)
    requires Playable(c) && s.now == c.time && s.vault == Some(VaultInfo(c.name, Pad(c.name), c.times))
    requires user in s.usdc && user in s.tokens && 0 < s.supply && Payout(s, amount) == send
    requires WithdrawMoves(s, user, amount, send, c.jet)
    ensures WithdrawAccepted(s, user, amount, c.jet)
    ensures Apply(s, Withdraw(user, amount, c.jet)) == Withdrawn(s, user, amount, send, c.jet)
  {
    Ready(c, s);
  }

  /** A deposit at a known charge goes through as a whole. */
  lemma Pays(c: Scene, s: State, user: User, amount: u64, paid: u64)
    requires Playable(c) && s.now == c.time && s.vault == Some(VaultInfo(c.name, Pad(c.name), c.times))
    requires user in s.usdc && user in s.tokens && amount <= s.usdc[user]
    requires (0 < s.supply ==> 0 < s.vaultUsdc) && Charge(s, amount) == paid
    requires DepositMoves(s, user, amount, paid, c.jet)
    ensures DepositAccepted(s, user, amount, c.jet)
    ensures Apply(s, Deposit(user, amount, c.jet)) == Deposited(s, user, amount, paid, c.jet)
  {
    Ready(c, s);
  }

  // ----- a deposit whose collateral product wraps -----

  const HUGE: u64 := 0x400_0000_0000_0000  // 2^58

  function FirstDepositRun(c: Scene, amount: u64): seq<Step> {
    Opening(c) + [OpenAccount(0), Deposit(0, amount, c.jet)]
  }

  lemma FirstDepositReaches(c: Scene, held: u64, amount: u64, pool: u64)
    requires Playable(c)
    ensures Run(Start(map[0 := held], pool), FirstDepositRun(c, amount)) ==
            Apply(Book(c, map[0 := held], map[0 := 0], 0, 0, 0, 0, 0, pool), Deposit(0, amount, c.jet))
  {
    var s := Book(c, map[0 := held], map[], 0, 0, 0, 0, 0, pool);
    Opens(c, map[0 := held], pool);
    OpensAccount(c, s, 0);
    RunsOn(Start(map[0 := held], pool), Opening(c), s, OpenAccount(0), Deposit(0, amount, c.jet));
  }

  /** A first deposit of 2^58 units is accepted and borrows nearly twice what it posts. */
  lemma WrappedDepositIsUncovered(c: Scene)
    requires Playable(c)
    ensures var start := Start(map[0 := HUGE], HUGE);
            var s := Run(start, FirstDepositRun(c, HUGE));
            && Genesis(start) && Circulation(start) < U64
            && s.supply == HUGE && s.loan == HUGE / 2
            && s.collateral < s.loan && 9 * s.loan > 5 * s.collateral + 4
  {
    var s := Book(c, map[0 := HUGE], map[0 := 0], 0, 0, 0, 0, 0, HUGE);
    Opens(c, map[0 := HUGE], HUGE);
    FirstDepositReaches(c, HUGE, HUGE, HUGE);
    TotalOfOne(0, HUGE);
    Ready(c, s);
    HugeMoves(s, c.jet);
  }

  lemma HugeMoves(s: State, jet: Jet)
    requires 0 in s.usdc && s.usdc[0] == HUGE && 0 in s.tokens && s.tokens[0] == 0 && s.pool == HUGE
    requires s.supply == s.vaultUsdc == s.depositNotes == s.collateral == s.loan == 0
    requires jet.refresh && jet.deposit && jet.depositCollateral && jet.borrow
    ensures DepositMoves(s, 0, HUGE, HUGE, jet)
    ensures ToCollateral(HUGE) < ToBorrow(HUGE) == HUGE / 2 && 9 * ToBorrow(HUGE) > 5 * ToCollateral(HUGE) + 4
  {
  }

  lemma TotalOfOne(user: User, amount: u64)
    ensures Total(map[user := amount]) == amount
  {
    var empty: Accounts := map[];
    TotalUpdate(empty, user, amount);
    assert empty[user := amount] == map[user := amount];
  }

  // ----- a deposit above the documented price -----

  /** After a first deposit of 10 the vault holds 6 for 10 tokens; 3 more, documented at 1.8, are sold for 5. */
  lemma SecondDepositOverpays(c: Scene)
    requires Playable(c)
    ensures var s := Run(Start(map[0 := 20], 5), FirstDepositRun(c, 10));
            && s.supply == 10 && s.vaultUsdc == 6
            && DepositAccepted(s, 0, 3, c.jet) && Charge(s, 3) == 5
            && Charge(s, 3) * s.supply > 3 * s.vaultUsdc
  {
    FirstDepositReaches(c, 20, 10, 5);
    DepositsTen(c);
    SellsThree(c);
  }

  lemma DepositsTen(c: Scene)
    requires Playable(c)
    ensures Apply(Book(c, map[0 := 20], map[0 := 0], 0, 0, 0, 0, 0, 5), Deposit(0, 10, c.jet)) ==
            Book(c, map[0 := 10], map[0 := 10], 10, 6, 0, 9, 5, 9)
  {
    var s := Book(c, map[0 := 20], map[0 := 0], 0, 0, 0, 0, 0, 5);
    assert ToCollateral(10) == 9 && ToBorrow(10) == 5;
    Pays(c, s, 0, 10, 10);
  }

  lemma SellsThree(c: Scene)
    requires Playable(c)
    ensures var s := Book(c, map[0 := 10], map[0 := 10], 10, 6, 0, 9, 5, 9);
            DepositAccepted(s, 0, 3, c.jet) && Charge(s, 3) == 5
  {
    var s := Book(c, map[0 := 10], map[0 := 10], 10, 6, 0, 9, 5, 9);
    assert Charge(s, 3) == 5 && ToCollateral(3) == 2 && ToBorrow(3) == 1;
    Pays(c, s, 0, 3, 5);
  }

  // ----- a withdrawal off the documented price -----

  /** The vault after a first deposit of 10 out of 20, and after 1 of the 10 tokens has been redeemed. */
  function TenDeposited(c: Scene): State
    requires Playable(c)
  {
    Book(c, map[0 := 10], map[0 := 10], 10, 6, 0, 9, 5, 9)
  }

  function OneRedeemed(c: Scene): State
    requires Playable(c)
  {
    Book(c, map[0 := 11], map[0 := 9], 9, 4, 1, 8, 4, 10)
  }

  /**
   After the same deposit, redeeming 1 of the 10 tokens is accepted and pays 1, documented at
   0.6; that leaves equity 8 for 9 tokens, and every one of them, documented at 4/9, pays nothing.
   */
  lemma PartialExitRun(c: Scene)
    requires Playable(c)
    ensures Run(Start(map[0 := 20], 5), FirstDepositRun(c, 10)) == TenDeposited(c)
    ensures WithdrawAccepted(TenDeposited(c), 0, 1, c.jet) && Payout(TenDeposited(c), 1) == 1
    ensures Apply(TenDeposited(c), Withdraw(0, 1, c.jet)) == OneRedeemed(c)
    ensures Equity(OneRedeemed(c)) == 8 < OneRedeemed(c).supply
    ensures forall k: u64 :: 0 < k <= 9 ==> Payout(OneRedeemed(c), k) == 0
  {
    FirstDepositReaches(c, 20, 10, 5);
    DepositsTen(c);
    RedeemsOneOfTen(c);
    forall k: u64 | 0 < k <= 9
      ensures Payout(OneRedeemed(c), k) == 0
    {
      WorthNothing(OneRedeemed(c), k);
    }
  }

  lemma RedeemsOneOfTen(c: Scene)
    requires Playable(c)
    ensures WithdrawAccepted(TenDeposited(c), 0, 1, c.jet) && Payout(TenDeposited(c), 1) == 1
    ensures Apply(TenDeposited(c), Withdraw(0, 1, c.jet)) == OneRedeemed(c)
  {
    var s := TenDeposited(c);
    assert EquityWord(s) / s.supply == 1 && Payout(s, 1) == 1;
    Redeems(c, s, 0, 1, 1);
    assert s.tokens[0 := 9] == map[0 := 9] && s.usdc[0 := 11] == map[0 := 11];
  }

  lemma WorthNothing(s: State, k: u64)
    requires 0 < s.supply && EquityWord(s) < s.supply
    ensures Payout(s, k) == 0
  {
    QuotientIs(EquityWord(s), s.supply, 0);
    assert k * 0 == 0;
  }

  // ----- a redeemer who beats the starting price -----

  function TwoUsers(first: u64, second: u64): Accounts {
    map[0 := first, 1 := second]
  }

  /** Four deposits and two withdrawals that leave one token with each user and 3 units of equity. */
  function BuildUp(c: Scene): seq<Step> {
    Opening(c) + [OpenAccount(0), OpenAccount(1)] + [Deposit(0, 1, c.jet), Deposit(0, 1, c.jet)] +
    [Deposit(0, 1, c.jet), Deposit(1, 2, c.jet)] + [Withdraw(1, 1, c.jet), Withdraw(0, 2, c.jet)]
  }

  lemma OpensBoth(c: Scene)
    requires Playable(c)
    ensures var s := Book(c, TwoUsers(6, 6), map[], 0, 0, 0, 0, 0, 5);
            Apply(Apply(s, OpenAccount(0)), OpenAccount(1)) == Book(c, TwoUsers(6, 6), TwoUsers(0, 0), 0, 0, 0, 0, 0, 5)
  {
    var s := Book(c, TwoUsers(6, 6), map[], 0, 0, 0, 0, 0, 5);
    OpensAccount(c, s, 0);
    OpensAccount(c, Apply(s, OpenAccount(0)), 1);
  }

  /** While balance and supply are equal and nothing is lent, a deposit of one unit just adds one to both. */
  lemma DepositsOne(c: Scene, held: u64, n: u64)
    requires Playable(c) && 0 < held && n < 10
    ensures Apply(Book(c, TwoUsers(held, 6), TwoUsers(n, 0), n, n, 0, 0, 0, 5), Deposit(0, 1, c.jet)) ==
            Book(c, TwoUsers(held - 1, 6), TwoUsers(n + 1, 0), n + 1, n + 1, 0, 0, 0, 5)
  {
    var s := Book(c, TwoUsers(held, 6), TwoUsers(n, 0), n, n, 0, 0, 0, 5);
    if 0 < n {
      assert 1 * n / n == 1;
    }
    assert Charge(s, 1) == 1 && ToCollateral(1) == 0 && ToBorrow(1) == 0;
    Pays(c, s, 0, 1, 1);
    assert TwoUsers(held, 6)[0 := held - 1] == TwoUsers(held - 1, 6);
    assert TwoUsers(n, 0)[0 := n + 1] == TwoUsers(n + 1, 0);
  }

  /** A deposit of 2 units posts one as collateral and borrows it back. */
  lemma SmallDepositMoves(s: State, user: User, amount: u64, paid: u64, jet: Jet)
    requires amount == 2 && user in s.usdc && user in s.tokens && 0 < paid <= s.usdc[user]
    requires jet.refresh && jet.deposit && jet.depositCollateral && jet.borrow
    requires s.tokens[user] < 10 && s.supply < 10 && s.vaultUsdc < 10 && s.depositNotes < 10 && paid < 10
    requires s.collateral < 10 && s.loan < 10 && s.pool < 10
    ensures ToCollateral(amount) == 1 == ToBorrow(amount) && DepositMoves(s, user, amount, paid, jet)
  {
  }

  lemma DepositsTwo(c: Scene)
    requires Playable(c)
    ensures Apply(Book(c, TwoUsers(3, 6), TwoUsers(3, 0), 3, 3, 0, 0, 0, 5), Deposit(1, 2, c.jet)) ==
            Book(c, TwoUsers(3, 4), TwoUsers(3, 2), 5, 5, 0, 1, 1, 5)
  {
    var s := Book(c, TwoUsers(3, 6), TwoUsers(3, 0), 3, 3, 0, 0, 0, 5);
    assert Charge(s, 2) == 2;
    SmallDepositMoves(s, 1, 2, 2, c.jet);
    Pays(c, s, 1, 2, 2);
    assert TwoUsers(3, 6)[1 := 4] == TwoUsers(3, 4);
    assert TwoUsers(3, 0)[1 := 2] == TwoUsers(3, 2);
  }

  lemma RedeemsOneAtPar(c: Scene)
    requires Playable(c)
    ensures Apply(Book(c, TwoUsers(3, 4), TwoUsers(3, 2), 5, 5, 0, 1, 1, 5), Withdraw(1, 1, c.jet)) ==
            Book(c, TwoUsers(3, 5), TwoUsers(3, 1), 4, 3, 1, 0, 0, 6)
  {
    var s := Book(c, TwoUsers(3, 4), TwoUsers(3, 2), 5, 5, 0, 1, 1, 5);
    assert EquityWord(s) / s.supply == 1 && Payout(s, 1) == 1;
    Redeems(c, s, 1, 1, 1);
    assert TwoUsers(3, 4)[1 := 5] == TwoUsers(3, 5);
    assert TwoUsers(3, 2)[1 := 1] == TwoUsers(3, 1);
  }

  lemma RedeemsTwoForNothing(c: Scene)
    requires Playable(c)
    ensures Apply(Book(c, TwoUsers(3, 5), TwoUsers(3, 1), 4, 3, 1, 0, 0, 6), Withdraw(0, 2, c.jet)) ==
            Book(c, TwoUsers(3, 5), TwoUsers(1, 1), 2, 3, 1, 0, 0, 6)
  {
    var s := Book(c, TwoUsers(3, 5), TwoUsers(3, 1), 4, 3, 1, 0, 0, 6);
    assert EquityWord(s) / s.supply == 0 && Payout(s, 2) == 0;
    Redeems(c, s, 0, 2, 0);
    assert TwoUsers(3, 5)[0 := 3] == TwoUsers(3, 5);
    assert TwoUsers(3, 1)[0 := 1] == TwoUsers(1, 1);
  }

  lemma ThreeDeposited(c: Scene)
    requires Playable(c)
    ensures Run(Start(TwoUsers(6, 6), 5),
                Opening(c) + [OpenAccount(0), OpenAccount(1)] + [Deposit(0, 1, c.jet), Deposit(0, 1, c.jet)]) ==
            Book(c, TwoUsers(4, 6), TwoUsers(2, 0), 2, 2, 0, 0, 0, 5)
  {
    var s, steps := Start(TwoUsers(6, 6), 5), Opening(c);
    Opens(c, TwoUsers(6, 6), 5);
    OpensBoth(c);
    RunsOn(s, steps, Book(c, TwoUsers(6, 6), map[], 0, 0, 0, 0, 0, 5), OpenAccount(0), OpenAccount(1));
    DepositsOne(c, 6, 0);
    DepositsOne(c, 5, 1);
    RunsOn(s, steps + [OpenAccount(0), OpenAccount(1)], Book(c, TwoUsers(6, 6), TwoUsers(0, 0), 0, 0, 0, 0, 0, 5),
           Deposit(0, 1, c.jet), Deposit(0, 1, c.jet));
  }

  lemma BuildUpReaches(c: Scene)
    requires Playable(c)
    ensures Run(Start(TwoUsers(6, 6), 5), BuildUp(c)) == Book(c, TwoUsers(3, 5), TwoUsers(1, 1), 2, 3, 1, 0, 0, 6)
  {
    var s := Start(TwoUsers(6, 6), 5);
    var steps := Opening(c) + [OpenAccount(0), OpenAccount(1)] + [Deposit(0, 1, c.jet), Deposit(0, 1, c.jet)];
    ThreeDeposited(c);
    DepositsOne(c, 4, 2);
    DepositsTwo(c);
    RunsOn(s, steps, Book(c, TwoUsers(4, 6), TwoUsers(2, 0), 2, 2, 0, 0, 0, 5),
           Deposit(0, 1, c.jet), Deposit(1, 2, c.jet));
    RedeemsOneAtPar(c);
    RedeemsTwoForNothing(c);
    RunsOn(s, steps + [Deposit(0, 1, c.jet), Deposit(1, 2, c.jet)],
           Book(c, TwoUsers(3, 4), TwoUsers(3, 2), 5, 5, 0, 1, 1, 5),
           Withdraw(1, 1, c.jet), Withdraw(0, 2, c.jet));
  }

  /**
   Only the total is bounded by the price at the start: this run from genesis comes to equity
   3 for 2 tokens; the first token redeemed from there pays 1 and the second pays 2, more than
   the 3/2 it was worth.
   */
  lemma LaterRedeemerBeatsTheStart(c: Scene)
    requires Playable(c)
    ensures var start := Start(TwoUsers(6, 6), 5);
            var s := Run(start, BuildUp(c));
            var s1 := Apply(s, Withdraw(0, 1, c.jet));
            var s2 := Apply(s1, Withdraw(1, 1, c.jet));
            && Genesis(start)
            && s1 == Book(c, TwoUsers(4, 5), map[1 := 1], 1, 2, 1, 0, 0, 6)
            && s2 == Book(c, TwoUsers(4, 7), map[], 0, 0, 1, 0, 0, 6)
            && (s2.usdc[1] - s1.usdc[1]) * s.supply > Equity(s) * 1
  {
    BuildUpReaches(c);
    var s := Book(c, TwoUsers(3, 5), TwoUsers(1, 1), 2, 3, 1, 0, 0, 6);
    RedeemsFirst(c);
    RedeemsSecond(c);
  }

  lemma RedeemsFirst(c: Scene)
    requires Playable(c)
    ensures Apply(Book(c, TwoUsers(3, 5), TwoUsers(1, 1), 2, 3, 1, 0, 0, 6), Withdraw(0, 1, c.jet)) ==
            Book(c, TwoUsers(4, 5), map[1 := 1], 1, 2, 1, 0, 0, 6)
  {
    var s := Book(c, TwoUsers(3, 5), TwoUsers(1, 1), 2, 3, 1, 0, 0, 6);
    assert EquityWord(s) / s.supply == 1 && Payout(s, 1) == 1;
    Redeems(c, s, 0, 1, 1);
    assert TwoUsers(3, 5)[0 := 4] == TwoUsers(4, 5);
    assert TwoUsers(1, 1) - {0} == map[1 := 1];
  }

  lemma RedeemsSecond(c: Scene)
    requires Playable(c)
    ensures Apply(Book(c, TwoUsers(4, 5), map[1 := 1], 1, 2, 1, 0, 0, 6), Withdraw(1, 1, c.jet)) ==
            Book(c, TwoUsers(4, 7), map[], 0, 0, 1, 0, 0, 6)
  {
    var s := Book(c, TwoUsers(4, 5), map[1 := 1], 1, 2, 1, 0, 0, 6);
    assert EquityWord(s) / s.supply == 2 && Payout(s, 1) == 2;
    Redeems(c, s, 1, 1, 2);
    assert TwoUsers(4, 5)[1 := 7] == TwoUsers(4, 7);
    assert s.tokens - {1} == map[];
  }

  // ----- a depositor who gains by coming back -----

  /** One token is left, with user 1; user 0 reopens an account, buys 2 tokens, and redeems them. */
  function OneLeft(c: Scene): State
    requires Playable(c)
  {
    Book(c, TwoUsers(4, 5), map[1 := 1], 1, 2, 1, 0, 0, 6)
  }

  function Reopened(c: Scene): State
    requires Playable(c)
  {
    Book(c, TwoUsers(4, 5), TwoUsers(0, 1), 1, 2, 1, 0, 0, 6)
  }

  function BoughtBack(c: Scene): State
    requires Playable(c)
  {
    Book(c, TwoUsers(3, 5), TwoUsers(2, 1), 3, 3, 1, 1, 1, 6)
  }

  function LeftAgain(c: Scene): State
    requires Playable(c)
  {
    Book(c, TwoUsers(5, 5), map[1 := 1], 1, 0, 2, 0, 0, 7)
  }

  /**
   After the first of those redemptions, user 0 comes back, buys 2 tokens for 1 and redeems
   them for 2; the last token of user 1 was worth 2 before and is worth nothing after.
   */
  lemma RoundTripRun(c: Scene)
    requires Playable(c)
    ensures Apply(Run(Start(TwoUsers(6, 6), 5), BuildUp(c)), Withdraw(0, 1, c.jet)) == OneLeft(c)
    ensures Apply(OneLeft(c), OpenAccount(0)) == Reopened(c)
    ensures Apply(Reopened(c), Deposit(0, 2, c.jet)) == BoughtBack(c) && Charge(Reopened(c), 2) == 1
    ensures Apply(BoughtBack(c), Withdraw(0, 2, c.jet)) == LeftAgain(c) && Payout(BoughtBack(c), 2) == 2
    ensures LeftAgain(c).usdc[0] == OneLeft(c).usdc[0] + 1 && LeftAgain(c).tokens == OneLeft(c).tokens
    ensures Payout(OneLeft(c), 1) == 2 && Payout(LeftAgain(c), 1) == 0
  {
    LeavesOne(c);
    Reopens(c);
    BuysBack(c);
    RedeemsBought(c);
    WorthNothing(LeftAgain(c), 1);
  }

  lemma LeavesOne(c: Scene)
    requires Playable(c)
    ensures Apply(Run(Start(TwoUsers(6, 6), 5), BuildUp(c)), Withdraw(0, 1, c.jet)) == OneLeft(c)
    ensures Payout(OneLeft(c), 1) == 2
  {
    BuildUpReaches(c);
    RedeemsFirst(c);
    QuotientIs(2, 1, 2);
  }

  lemma Reopens(c: Scene)
    requires Playable(c)
    ensures Apply(OneLeft(c), OpenAccount(0)) == Reopened(c)
  {
    OpensAccount(c, OneLeft(c), 0);
    assert OneLeft(c).tokens[0 := 0] == TwoUsers(0, 1);
  }

  lemma BuysBack(c: Scene)
    requires Playable(c)
    ensures Apply(Reopened(c), Deposit(0, 2, c.jet)) == BoughtBack(c) && Charge(Reopened(c), 2) == 1
  {
    var s := Reopened(c);
    assert Charge(s, 2) == 1;
    SmallDepositMoves(s, 0, 2, 1, c.jet);
    Pays(c, s, 0, 2, 1);
    assert TwoUsers(4, 5)[0 := 3] == TwoUsers(3, 5);
    assert TwoUsers(0, 1)[0 := 2] == TwoUsers(2, 1);
  }

  lemma RedeemsBought(c: Scene)
    requires Playable(c)
    ensures Apply(BoughtBack(c), Withdraw(0, 2, c.jet)) == LeftAgain(c) && Payout(BoughtBack(c), 2) == 2
  {
    var s := BoughtBack(c);
    assert EquityWord(s) / s.supply == 1 && Payout(s, 2) == 2;
    Redeems(c, s, 0, 2, 2);
    assert TwoUsers(3, 5)[0 := 5] == TwoUsers(5, 5);
    assert TwoUsers(2, 1) - {0} == map[1 := 1];
  }
}
