/**
 The accounts that the vault program touches, and what each of its instructions
 does to them as a whole: when it goes through, and the net change it makes.
 An instruction that does not go through changes nothing.

 The ledger Jet keeps for the vault is modelled one to one with USDC.  Whether
 one of Jet's own checks passes is not computed but given with the instruction.
 */
module VaultState {
  import opened MachineInts
  import opened Outcomes
  import opened Names
  import opened Epochs
  import opened Balances

  /** The vault's record. `seed` stands for the address, which is derived from the name given at creation. */
  datatype VaultInfo = VaultInfo(seed: Bytes, storedName: Bytes, times: EpochTimes)

  datatype State = State(
    now: i64,
    vault: Option<VaultInfo>,
    usdc: Accounts,      // the users' USDC accounts
    tokens: Accounts,    // the users' redeemable token accounts
    supply: u64,         // redeemable tokens in existence
    vaultUsdc: u64,      // USDC held by the vault
    depositNotes: u64,   // the vault's Jet deposit account
    collateral: u64,     // the vault's Jet collateral account
    loan: u64,           // the vault's Jet loan account
    pool: u64)           // USDC held by the Jet reserve

  /** Which of Jet's calls succeed, as far as Jet's own rules go. */
  datatype Jet = Jet(
    init: bool,
    refresh: bool,
    deposit: bool,
    depositCollateral: bool,
    borrow: bool,
    repay: bool,
    withdrawCollateral: bool)

  datatype Step =
    | Tick(time: i64)
    | Initialize(name: Bytes, times: EpochTimes, jet: Jet)
    | OpenAccount(user: User)
    | Deposit(user: User, amount: u64, jet: Jet)
    | Withdraw(user: User, amount: u64, jet: Jet)

  // ----- what guards the user instructions -----

  /** The addresses that are recomputed from the stored name are those of the vault. */
  predicate AddressesMatch(s: State) {
    s.vault.Some? && Strip(s.vault.value.storedName) == s.vault.value.seed
  }

  predicate AccountsReady(s: State, user: User) {
    AddressesMatch(s) && user in s.usdc && user in s.tokens
  }

  function Phase(s: State): Outcome
    requires s.vault.Some?
  {
    DepositWithdrawPhase(s.now, s.vault.value.times)
  }

  // ----- deposit -----

  /** The USDC the depositor pays: the amount converted by supply over vault balance, cut to 64 bits. */
  function Charge(s: State, amount: u64): u64
    requires 0 < s.supply ==> 0 < s.vaultUsdc
  {
    if s.supply == 0 then amount else Wrap64(amount * s.supply / s.vaultUsdc)
  }

  /** The part of the amount that goes to Jet as collateral; the product wraps. */
  function ToCollateral(amount: u64): u64 {
    Wrap64(amount * 90) / 100
  }

  function ToBorrow(amount: u64): u64 {
    amount / 2
  }

  /** Every move of a deposit goes through, given what the depositor pays. */
  predicate DepositMoves(s: State, user: User, amount: u64, paid: u64, jet: Jet)
    requires user in s.usdc && user in s.tokens
  {
    var x, h := ToCollateral(amount), ToBorrow(amount);
    && paid <= s.usdc[user]
    && x <= s.vaultUsdc + paid < U64
    && s.tokens[user] + amount < U64 && s.supply + amount < U64
    && h <= s.pool + x < U64
    && s.depositNotes + x < U64 && s.collateral + x < U64
    && s.loan + h < U64 && s.vaultUsdc + paid - x + h < U64
    && jet.refresh && jet.deposit && jet.depositCollateral && jet.borrow
  }

  function Deposited(s: State, user: User, amount: u64, paid: u64, jet: Jet): State
    requires user in s.usdc && user in s.tokens && DepositMoves(s, user, amount, paid, jet)
  {
    var x, h := ToCollateral(amount), ToBorrow(amount);
    s.(usdc := s.usdc[user := s.usdc[user] - paid],
       tokens := s.tokens[user := s.tokens[user] + amount],
       supply := s.supply + amount,
       vaultUsdc := s.vaultUsdc + paid - x + h,
       collateral := s.collateral + x,
       loan := s.loan + h,
       pool := s.pool + x - h)
  }

  predicate DepositAccepted(s: State, user: User, amount: u64, jet: Jet) {
    && AccountsReady(s, user)
    && Phase(s).Success?
    && amount <= s.usdc[user]
    && (0 < s.supply ==> 0 < s.vaultUsdc)
    && DepositMoves(s, user, amount, Charge(s, amount), jet)
  }

  // ----- withdrawal -----

  /** The vault's equity as the program computes it. */
  function EquityWord(s: State): u64 {
    Wrap64(s.vaultUsdc + s.collateral - s.loan)
  }

  function Payout(s: State, amount: u64): u64
    requires 0 < s.supply
  {
    Wrap64(amount * (EquityWord(s) / s.supply))
  }

  /** What is paid back to Jet when `send` goes to the user. */
  function Repayment(s: State, send: u64): u64 {
    Min(Min(s.loan, send), s.vaultUsdc)
  }

  /** Every move of a withdrawal goes through, given what the user is sent. */
  predicate WithdrawMoves(s: State, user: User, amount: u64, send: u64, jet: Jet)
    requires user in s.usdc && user in s.tokens
  {
    var p := Repayment(s, send);
    && amount <= s.tokens[user] && amount <= s.supply
    && p <= s.collateral
    && p + send <= s.vaultUsdc
    && s.pool + p < U64 && s.depositNotes + p < U64 && s.usdc[user] + send < U64
    && jet.refresh && jet.repay && jet.withdrawCollateral
  }

  /** The emptied account is closed, so a later deposit needs a new one. */
  function Withdrawn(s: State, user: User, amount: u64, send: u64, jet: Jet): State
    requires user in s.usdc && user in s.tokens && WithdrawMoves(s, user, amount, send, jet)
  {
    var p := Repayment(s, send);
    s.(usdc := s.usdc[user := s.usdc[user] + send],
       tokens := if s.tokens[user] == amount then s.tokens - {user}
                 else s.tokens[user := s.tokens[user] - amount],
       supply := s.supply - amount,
       vaultUsdc := s.vaultUsdc - p - send,
       depositNotes := s.depositNotes + p,
       collateral := s.collateral - p,
       loan := s.loan - p,
       pool := s.pool + p)
  }

  predicate WithdrawAccepted(s: State, user: User, amount: u64, jet: Jet) {
    && AccountsReady(s, user)
    && Phase(s).Success?
    && amount <= s.tokens[user] && 0 < s.supply
    && WithdrawMoves(s, user, amount, Payout(s, amount), jet)
  }

  // ----- the other steps -----

  predicate InitializeAccepted(s: State, name: Bytes, times: EpochTimes, jet: Jet) {
    s.vault.None? && ValidateEpochTimes(s.now, times).Success? && |name| <= NAME_LENGTH && jet.init
  }

  predicate OpenAccepted(s: State, user: User) {
    AddressesMatch(s) && user !in s.tokens && Phase(s).Success?
  }

  predicate Accepted(s: State, step: Step) {
    match step
    case Tick(time) => s.now <= time
    case Initialize(name, times, jet) => InitializeAccepted(s, name, times, jet)
    case OpenAccount(user) => OpenAccepted(s, user)
    case Deposit(user, amount, jet) => DepositAccepted(s, user, amount, jet)
    case Withdraw(user, amount, jet) => WithdrawAccepted(s, user, amount, jet)
  }

  /** One transaction, or one advance of the clock. */
  function Apply(s: State, step: Step): State {
    if !Accepted(s, step) then s else
      match step
      case Tick(time) => s.(now := time)
      case Initialize(name, times, jet) => s.(vault := Some(VaultInfo(name, Pad(name), times)))
      case OpenAccount(user) => s.(tokens := s.tokens[user := 0])
      case Deposit(user, amount, jet) => Deposited(s, user, amount, Charge(s, amount), jet)
      case Withdraw(user, amount, jet) => Withdrawn(s, user, amount, Payout(s, amount), jet)
  }

  function Run(s: State, steps: seq<Step>): State {
    if steps == [] then s else Apply(Run(s, steps[..|steps| - 1]), steps[|steps| - 1])
  }

  /** The state before step `i` of the run. */
  function At(s: State, steps: seq<Step>, i: nat): State
    requires i <= |steps|
  {
    Run(s, steps[..i])
  }

  lemma RunLast(s: State, steps: seq<Step>)
    requires steps != []
    ensures steps[..|steps|] == steps
    ensures forall i :: 0 <= i < |steps| ==> steps[..|steps| - 1][..i] == steps[..i]
  {
  }

  /** Before there is a vault: users and Jet may hold USDC, the vault's accounts hold nothing. */
  predicate Genesis(s: State) {
    s.vault.None? && s.tokens == map[] &&
    s.supply == s.vaultUsdc == s.depositNotes == s.collateral == s.loan == 0
  }
}
