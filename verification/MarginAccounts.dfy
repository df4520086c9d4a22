/**
 Margin and profit of a position and of a whole account, and the check that decides
 whether the account is sufficiently funded: as the program computes them and over
 unbounded integers.
 */
module MarginAccounts {
  import opened MachineInts
  import opened Outcomes
  import opened MarginPerLot
  import opened Sums

  /** A product whose strike is not set has no margin. */
  datatype Product = Product(strike: Option<u64>, kind: Kind)

  datatype Position = Position(position: i64, costOfTrades: u64, openingBids: u64, openingAsks: u64)

  /** One market as an account sees it: the entries with one index of the parallel arrays. */
  datatype Line = Line(held: Position, mark: u64, product: Product)

  datatype MarginAccount = MarginAccount(balance: u64, positions: seq<Position>)

  datatype Markets = Markets(marks: seq<u64>, products: seq<Product>, parameters: MarginParameters)

  /** The program's arrays have 46 entries each; any common length will do here. */
  predicate SameMarkets(a: MarginAccount, m: Markets) {
    |a.positions| == |m.marks| == |m.products|
  }

  function Lines(a: MarginAccount, m: Markets): (r: seq<Line>)
    requires SameMarkets(a, m)
    ensures |r| == |a.positions|
  {
    seq(|a.positions|, i requires 0 <= i < |a.positions| => Line(a.positions[i], m.marks[i], m.products[i]))
  }

  // ----- over unbounded integers -----

  /** So many lots, in thousandths, at a margin per lot. */
  function Demand(size: nat, lot: nat): nat {
    size * lot
  }

  /** What the open orders of a line require, in thousandths. */
  function OrdersDemand(l: Line, spot: nat, p: MarginParameters): nat {
    match l.product.strike
    case None => 0
    case Some(strike) =>
      Demand(l.held.openingBids, LotMargin(InitialRates(p), spot, strike, l.mark, l.product.kind, Bid)) +
      Demand(l.held.openingAsks, LotMargin(InitialRates(p), spot, strike, l.mark, l.product.kind, Ask))
  }

  function SideHeld(position: int): Side {
    if 0 <= position then Bid else Ask
  }

  /** What the position of a line requires, in thousandths. */
  function PositionDemand(l: Line, spot: nat, p: MarginParameters): nat {
    match l.product.strike
    case None => 0
    case Some(strike) =>
      Demand(Abs(l.held.position),
             LotMargin(MaintenanceRates(p), spot, strike, l.mark, l.product.kind, SideHeld(l.held.position)))
  }

  function InitialMargin(l: Line, spot: nat, p: MarginParameters): nat {
    OrdersDemand(l, spot, p) / LOTS
  }

  function MaintenanceMargin(l: Line, spot: nat, p: MarginParameters): nat {
    PositionDemand(l, spot, p) / LOTS
  }

  /** The cost of trades is a debit for a long position and a credit for a short one. */
  function SignedCost(held: Position): int {
    if held.position == 0 then 0 else if 0 < held.position then held.costOfTrades else 0 - held.costOfTrades
  }

  function UnrealizedPnl(l: Line): int {
    Quotient(l.held.position * l.mark, LOTS) - SignedCost(l.held)
  }

  function InitialMargins(ls: seq<Line>, spot: nat, p: MarginParameters): (r: seq<int>)
    ensures |r| == |ls|
  {
    seq(|ls|, i requires 0 <= i < |ls| => InitialMargin(ls[i], spot, p))
  }

  function MaintenanceMargins(ls: seq<Line>, spot: nat, p: MarginParameters): (r: seq<int>)
    ensures |r| == |ls|
  {
    seq(|ls|, i requires 0 <= i < |ls| => MaintenanceMargin(ls[i], spot, p))
  }

  function Pnls(ls: seq<Line>): (r: seq<int>)
    ensures |r| == |ls|
  {
    seq(|ls|, i requires 0 <= i < |ls| => UnrealizedPnl(ls[i]))
  }

  /** What is left of balance and profit after both margins. */
  function Buffer(a: MarginAccount, m: Markets, spot: nat): int
    requires SameMarkets(a, m)
  {
    var ls := Lines(a, m);
    a.balance + Sum(Pnls(ls)) - Sum(InitialMargins(ls, spot, m.parameters)) -
    Sum(MaintenanceMargins(ls, spot, m.parameters))
  }

  // ----- as the program computes it -----

  /** `orders * margin per lot`, computed only when there are orders. */
  function CheckedDemand(size: u64, lot: Machine<u64>): Machine<nat> {
    if size == 0 then Ok(0) else
      var margin :- lot.Unwrap();
      Mul128(size, margin)
  }

  function CheckedInitialMargin(l: Line, spot: u64, p: MarginParameters): Machine<u64> {
    match l.product.strike
    case None => Ok(0)
    case Some(strike) =>
      var long :- CheckedDemand(l.held.openingBids, InitialMarginPerLot(spot, strike, l.mark, l.product.kind, Bid, p));
      var short :- CheckedDemand(l.held.openingAsks, InitialMarginPerLot(spot, strike, l.mark, l.product.kind, Ask, p));
      var demand :- Add128(long, short);
      var margin :- Div128(demand, LOTS);
      ToU64(margin)
  }

  /** `abs() as u128`: the least i64 has no absolute value, stays negative, and is extended by its sign. */
  function AbsWord(position: i64): nat {
    if position == -I64 then U128 - I64 else Abs(position)
  }

  function CheckedMaintenanceMargin(l: Line, spot: u64, p: MarginParameters): Machine<u64> {
    match l.product.strike
    case None => Ok(0)
    case Some(strike) =>
      if l.held.position == 0 then Ok(0) else
        var lot :- MaintenanceMarginPerLot(spot, strike, l.mark, l.product.kind, 0 <= l.held.position, p).Unwrap();
        var demand :- Mul128(AbsWord(l.held.position), lot);
        var margin :- Div128(demand, LOTS);
        ToU64(margin)
  }

  /** The i128 product and sum cannot overflow; the conversion of the result can. */
  function CheckedUnrealizedPnl(l: Line): Machine<i64> {
    if l.held.position == 0 then Ok(0)
    else if 0 < l.held.position then ToI64(Quotient(l.held.position * l.mark, LOTS) - l.held.costOfTrades)
    else ToI64(Quotient(l.held.position * l.mark, LOTS) + l.held.costOfTrades)
  }

  // `.map(..).sum()` over all markets: the first panic ends it, and the additions are unchecked.

  function SumU64(terms: seq<Machine<u64>>): Machine<u64> {
    if terms == [] then Ok(0) else
      var first :- terms[0];
      var rest :- SumU64(terms[1..]);
      Ok(Wrap64(first + rest))
  }

  function SumI64(terms: seq<Machine<i64>>): Machine<i64> {
    if terms == [] then Ok(0) else
      var first :- terms[0];
      var rest :- SumI64(terms[1..]);
      Ok(WrapI64(first + rest))
  }

  function CheckedInitialTotal(ls: seq<Line>, spot: u64, p: MarginParameters): Machine<u64> {
    SumU64(seq(|ls|, i requires 0 <= i < |ls| => CheckedInitialMargin(ls[i], spot, p)))
  }

  function CheckedMaintenanceTotal(ls: seq<Line>, spot: u64, p: MarginParameters): Machine<u64> {
    SumU64(seq(|ls|, i requires 0 <= i < |ls| => CheckedMaintenanceMargin(ls[i], spot, p)))
  }

  function CheckedPnlTotal(ls: seq<Line>): Machine<i64> {
    SumI64(seq(|ls|, i requires 0 <= i < |ls| => CheckedUnrealizedPnl(ls[i])))
  }

  /** `get_margin_requirement`, from the two totals. */
  function CheckedMarginRequirement(initial: u64, maintenance: u64): Machine<u64> {
    ToU64(initial + maintenance)
  }

  /** The comparison that ends `check_margin_requirement`. */
  function CheckedBuffer(balance: u64, pnl: i64, requirement: u64): Machine<i64> {
    var signedRequirement :- ToI64(requirement);
    var signedBalance :- ToI64(balance);
    var funds :- ToI64(signedBalance + pnl);
    ToI64(funds - signedRequirement)
  }

  function Decide(balance: u64, pnl: Machine<i64>, initial: Machine<u64>, maintenance: Machine<u64>): Machine<bool> {
    var profit :- pnl;
    var forOrders :- initial;
    var forPositions :- maintenance;
    var requirement :- CheckedMarginRequirement(forOrders, forPositions);
    var buffer :- CheckedBuffer(balance, profit, requirement);
    Ok(buffer > 0)
  }

  /** `check_margin_requirement`. */
  function CheckMarginRequirement(a: MarginAccount, m: Markets, spot: u64): Machine<bool>
    requires SameMarkets(a, m)
  {
    var ls := Lines(a, m);
    Decide(a.balance, CheckedPnlTotal(ls), CheckedInitialTotal(ls, spot, m.parameters),
           CheckedMaintenanceTotal(ls, spot, m.parameters))
  }
}
