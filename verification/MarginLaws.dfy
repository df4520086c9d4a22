/**
 Laws of whole accounts over unbounded integers: what rounding costs in aggregate, how
 the margins move with prices and orders, and that profit is zero-sum.
 */
module MarginLaws {
  import opened MachineInts
  import opened Outcomes
  import opened MarginPerLot
  import opened MarginBounds
  import opened MarginOrdering
  import opened Sums
  import opened MarginAccounts
  import opened MarginCheck

  // ----- rounding in aggregate -----

  function OrdersDemands(ls: seq<Line>, spot: nat, p: MarginParameters): (r: seq<int>)
    ensures |r| == |ls|
  {
    seq(|ls|, i requires 0 <= i < |ls| => OrdersDemand(ls[i], spot, p))
  }

  function PositionDemands(ls: seq<Line>, spot: nat, p: MarginParameters): (r: seq<int>)
    ensures |r| == |ls|
  {
    seq(|ls|, i requires 0 <= i < |ls| => PositionDemand(ls[i], spot, p))
  }

  /** Rounding market by market asks for no more than rounding once, and for less than one unit a market less. */
  lemma AggregationLoss(ls: seq<Line>, spot: nat, p: MarginParameters)
    requires ls != []
    ensures var once := Sum(OrdersDemands(ls, spot, p)) / LOTS;
            Sum(InitialMargins(ls, spot, p)) <= once <= Sum(InitialMargins(ls, spot, p)) + |ls| - 1
    ensures var once := Sum(PositionDemands(ls, spot, p)) / LOTS;
            Sum(MaintenanceMargins(ls, spot, p)) <= once <= Sum(MaintenanceMargins(ls, spot, p)) + |ls| - 1
  {
    SumOfFloors(OrdersDemands(ls, spot, p), InitialMargins(ls, spot, p));
    SumOfFloors(PositionDemands(ls, spot, p), MaintenanceMargins(ls, spot, p));
  }

  // ----- bounds and monotonicity -----

  function OpeningSizes(ls: seq<Line>): (r: seq<int>)
    ensures |r| == |ls|
  {
    seq(|ls|, i requires 0 <= i < |ls| => ls[i].held.openingBids + ls[i].held.openingAsks)
  }

  lemma {:induction false} SumScaled(xs: seq<int>, ys: seq<int>, k: nat)
    requires |xs| == |ys| && forall i :: 0 <= i < |xs| ==> xs[i] <= ys[i] * k
    ensures Sum(xs) <= Sum(ys) * k
  {
    if xs != [] {
      SumScaled(xs[1..], ys[1..], k);
      assert (ys[0] + Sum(ys[1..])) * k == ys[0] * k + Sum(ys[1..]) * k;
    }
  }

  /** The initial margin of an account is at most its opening orders taken at spot. */
  lemma InitialBelowOpeningAtSpot(ls: seq<Line>, spot: nat, p: MarginParameters)
    requires WithinWhole(InitialRates(p))
    ensures Sum(InitialMargins(ls, spot, p)) <= Sum(OpeningSizes(ls)) * spot / LOTS
  {
    forall i | 0 <= i < |ls|
      ensures OrdersDemands(ls, spot, p)[i] <= OpeningSizes(ls)[i] * spot
    {
      OrdersBelowSpot(ls[i], spot, p);
    }
    SumScaled(OrdersDemands(ls, spot, p), OpeningSizes(ls), spot);
    SumOfFloors(OrdersDemands(ls, spot, p), InitialMargins(ls, spot, p));
  }

  /** The same market with at least the orders on either side. */
  predicate MoreOrders(l: Line, l': Line) {
    l'.mark == l.mark && l'.product == l.product &&
    l.held.openingBids <= l'.held.openingBids && l.held.openingAsks <= l'.held.openingAsks
  }

  lemma MoreOrdersMoreMargin(ls: seq<Line>, ls': seq<Line>, spot: nat, p: MarginParameters)
    requires |ls| == |ls'| && forall i :: 0 <= i < |ls| ==> MoreOrders(ls[i], ls'[i])
    ensures Sum(InitialMargins(ls, spot, p)) <= Sum(InitialMargins(ls', spot, p))
  {
    forall i | 0 <= i < |ls|
      ensures InitialMargins(ls, spot, p)[i] <= InitialMargins(ls', spot, p)[i]
    {
      MoreOrdersLine(ls[i], ls'[i], spot, p);
    }
    SumMono(InitialMargins(ls, spot, p), InitialMargins(ls', spot, p));
  }

  lemma MoreOrdersLine(l: Line, l': Line, spot: nat, p: MarginParameters)
    requires MoreOrders(l, l')
    ensures InitialMargin(l, spot, p) <= InitialMargin(l', spot, p)
  {
    if l.product.strike.Some? {
      var strike, kind := l.product.strike.value, l.product.kind;
      var bid := LotMargin(InitialRates(p), spot, strike, l.mark, kind, Bid);
      var ask := LotMargin(InitialRates(p), spot, strike, l.mark, kind, Ask);
      MulMono(l.held.openingBids, bid, l'.held.openingBids, bid);
      MulMono(l.held.openingAsks, ask, l'.held.openingAsks, ask);
    }
  }

  predicate ShortPut(l: Line) {
    l.product.kind.Put? && l.held.position < 0
  }

  /** With marks fixed, the maintenance margin of an account without short puts grows with spot. */
  lemma MaintenanceGrowsWithSpot(ls: seq<Line>, spot: nat, spot': nat, p: MarginParameters)
    requires spot <= spot' && forall i :: 0 <= i < |ls| ==> !ShortPut(ls[i])
    ensures Sum(MaintenanceMargins(ls, spot, p)) <= Sum(MaintenanceMargins(ls, spot', p))
  {
    forall i | 0 <= i < |ls|
      ensures MaintenanceMargins(ls, spot, p)[i] <= MaintenanceMargins(ls, spot', p)[i]
    {
      var l := ls[i];
      if l.product.strike.Some? {
        var r, strike, kind := MaintenanceRates(p), l.product.strike.value, l.product.kind;
        var side := SideHeld(l.held.position);
        LotMarginGrowsWithSpot(r, spot, spot', strike, l.mark, kind, side);
        MulMono(Abs(l.held.position), LotMargin(r, spot, strike, l.mark, kind, side),
                Abs(l.held.position), LotMargin(r, spot', strike, l.mark, kind, side));
      }
    }
    SumMono(MaintenanceMargins(ls, spot, p), MaintenanceMargins(ls, spot', p));
  }

  /** `held` is a position that orders of `ordered` opened, in whole or in part, from a flat account. */
  predicate OpenedBy(ordered: Line, held: Line) {
    held.mark == ordered.mark && held.product == ordered.product &&
    0 <= held.held.position + ordered.held.openingAsks && held.held.position <= ordered.held.openingBids
  }

  lemma OrdersCoverLine(ordered: Line, held: Line, spot: nat, p: MarginParameters)
    requires OpenedBy(ordered, held) && RatesOrdered(InitialRates(p), MaintenanceRates(p))
    ensures MaintenanceMargin(held, spot, p) <= InitialMargin(ordered, spot, p)
  {
    if held.product.strike.Some? {
      var strike, kind, side := held.product.strike.value, held.product.kind, SideHeld(held.held.position);
      OrderedRatesCoverAt(InitialRates(p), MaintenanceRates(p), spot, strike, held.mark, kind, side);
      var size := if side.Bid? then ordered.held.openingBids else ordered.held.openingAsks;
      var other := if side.Bid? then ordered.held.openingAsks else ordered.held.openingBids;
      MulMono(Abs(held.held.position), LotMargin(MaintenanceRates(p), spot, strike, held.mark, kind, side),
              size, LotMargin(InitialRates(p), spot, strike, held.mark, kind, side));
      MulMono(0, 0, other, LotMargin(InitialRates(p), spot, strike, held.mark, kind, if side.Bid? then Ask else Bid));
    }
  }

  /** With ordered rates, an account that could place its orders can maintain whatever positions they open. */
  lemma OrdersCoverPositions(ordered: seq<Line>, held: seq<Line>, spot: nat, p: MarginParameters)
    requires RatesOrdered(InitialRates(p), MaintenanceRates(p))
    requires |ordered| == |held| && forall i :: 0 <= i < |held| ==> OpenedBy(ordered[i], held[i])
    ensures Sum(MaintenanceMargins(held, spot, p)) <= Sum(InitialMargins(ordered, spot, p))
  {
    forall i | 0 <= i < |held|
      ensures MaintenanceMargins(held, spot, p)[i] <= InitialMargins(ordered, spot, p)[i]
    {
      OrdersCoverLine(ordered[i], held[i], spot, p);
    }
    SumMono(MaintenanceMargins(held, spot, p), InitialMargins(ordered, spot, p));
  }

  predicate AllOpenedBy(ordered: seq<Line>, held: seq<Line>) {
    |ordered| == |held| && forall i :: 0 <= i < |held| ==> OpenedBy(ordered[i], held[i])
  }

  /** Whatever positions the orders of an account open, at any spot, its margin for the orders covers them. */
  ghost predicate OrdersCover(p: MarginParameters) {
    forall ordered: seq<Line>, held: seq<Line>, spot: u64 :: AllOpenedBy(ordered, held) ==>
      Sum(MaintenanceMargins(held, spot, p)) <= Sum(InitialMargins(ordered, spot, p))
  }

  /** One lot ordered, and the position of one lot that it opens. */
  lemma UncoveredOrder(p: MarginParameters) returns (ordered: Line, held: Line, spot: u64)
    requires WithinWhole(InitialRates(p)) && WithinWhole(MaintenanceRates(p))
    requires !RatesOrdered(InitialRates(p), MaintenanceRates(p))
    ensures 0 < spot && OpenedBy(ordered, held)
    ensures InitialMargin(ordered, spot, p) < MaintenanceMargin(held, spot, p)
  {
    var price, strike, mark, kind, side := UncoveredPrices(InitialRates(p), MaintenanceRates(p));
    var product := Product(Some(strike), kind);
    spot := price;
    if side.Bid? {
      ordered := Line(Position(0, 0, LOTS, 0), mark, product);
      held := Line(Position(LOTS, 0, 0, 0), mark, product);
    } else {
      ordered := Line(Position(0, 0, 0, LOTS), mark, product);
      held := Line(Position(0 - LOTS, 0, 0, 0), mark, product);
    }
    OneLot(LotMargin(InitialRates(p), spot, strike, mark, kind, side));
    OneLot(LotMargin(MaintenanceRates(p), spot, strike, mark, kind, side));
    NoLots(LotMargin(InitialRates(p), spot, strike, mark, kind, if side.Bid? then Ask else Bid));
  }

  lemma OneLot(lot: nat)
    ensures Demand(LOTS, lot) / LOTS == lot
  {
  }

  lemma NoLots(lot: nat)
    ensures Demand(0, lot) == 0
  {
  }

  /** With percentages up to 100%, orders cover what they open exactly when the rates are ordered. */
  lemma OrdersCoverIff(p: MarginParameters)
    requires WithinWhole(InitialRates(p)) && WithinWhole(MaintenanceRates(p))
    ensures OrdersCover(p) <==> RatesOrdered(InitialRates(p), MaintenanceRates(p))
  {
    if RatesOrdered(InitialRates(p), MaintenanceRates(p)) {
      forall ordered: seq<Line>, held: seq<Line>, spot: u64 | AllOpenedBy(ordered, held)
        ensures Sum(MaintenanceMargins(held, spot, p)) <= Sum(InitialMargins(ordered, spot, p))
      {
        OrdersCoverPositions(ordered, held, spot, p);
      }
    } else {
      var ordered, held, spot := UncoveredOrder(p);
      SumOfOne(InitialMargin(ordered, spot, p));
      SumOfOne(MaintenanceMargin(held, spot, p));
      assert InitialMargins([ordered], spot, p) == [InitialMargin(ordered, spot, p)];
      assert MaintenanceMargins([held], spot, p) == [MaintenanceMargin(held, spot, p)];
      assert AllOpenedBy([ordered], [held]);
    }
  }

  lemma SumOfOne(x: int)
    ensures Sum([x]) == x
  {
    assert [x][1..] == [];
  }

  // ----- profit -----

  /** The other side of the same trades. */
  predicate Opposite(l: Line, l': Line) {
    l'.mark == l.mark && l'.held.costOfTrades == l.held.costOfTrades && l.held.position + l'.held.position == 0
  }

  /** Two accounts on opposite sides of the same trades: one's profit is exactly the other's loss. */
  lemma PnlIsZeroSum(ls: seq<Line>, ls': seq<Line>)
    requires |ls| == |ls'| && forall i :: 0 <= i < |ls| ==> Opposite(ls[i], ls'[i])
    ensures Sum(Pnls(ls')) == -Sum(Pnls(ls))
  {
    forall i | 0 <= i < |ls|
      ensures Pnls(ls')[i] == -Pnls(ls)[i]
    {
      OppositePnl(ls[i], ls'[i]);
    }
    SumNegates(Pnls(ls), Pnls(ls'));
  }

  /** The program's own totals cancel as well, as 64-bit words, whenever both are computed. */
  lemma CheckedPnlIsZeroSum(ls: seq<Line>, ls': seq<Line>)
    requires |ls| == |ls'| && forall i :: 0 <= i < |ls| ==> Opposite(ls[i], ls'[i])
    requires CheckedPnlTotal(ls).Ok? && CheckedPnlTotal(ls').Ok?
    ensures WrapI64(CheckedPnlTotal(ls).value + CheckedPnlTotal(ls').value) == 0
  {
    PnlTotalIs(ls);
    PnlTotalIs(ls');
    PnlIsZeroSum(ls, ls');
    var total := Sum(Pnls(ls));
    WrapI64Steps(total, WrapI64(-total));
    WrapI64Steps(-total, total);
  }

  lemma OppositePnl(l: Line, l': Line)
    requires Opposite(l, l')
    ensures UnrealizedPnl(l') == -UnrealizedPnl(l)
  {
    var product := l.held.position * l.mark;
    assert l'.held.position * l'.mark == -product;
    assert Quotient(-product, LOTS) == -Quotient(product, LOTS);
  }

  function NetPosition(ls: seq<Line>): int {
    if ls == [] then 0 else ls[0].held.position + NetPosition(ls[1..])
  }

  /** What was paid for long positions, less what was received for short ones. */
  function NetCost(ls: seq<Line>): int {
    if ls == [] then 0
    else if ls[0].held.position > 0 then NetCost(ls[1..]) + ls[0].held.costOfTrades
    else if ls[0].held.position < 0 then NetCost(ls[1..]) - ls[0].held.costOfTrades
    else NetCost(ls[1..])
  }

  /** A line's position at mark less its signed cost, in thousandths. */
  function ExactPnl(l: Line): int {
    l.held.position * l.mark - LOTS * SignedCost(l.held)
  }

  function ExactPnls(ls: seq<Line>): (r: seq<int>)
    ensures |r| == |ls|
  {
    seq(|ls|, i requires 0 <= i < |ls| => ExactPnl(ls[i]))
  }

  /** Truncation takes less than one unit off a line's profit. */
  lemma LinePnl(l: Line)
    ensures ExactPnl(l) - LOTS < LOTS * UnrealizedPnl(l) < ExactPnl(l) + LOTS
  {
  }

  lemma {:induction false} NetExactPnl(ls: seq<Line>, mark: u64)
    requires forall i :: 0 <= i < |ls| ==> ls[i].mark == mark
    ensures Sum(ExactPnls(ls)) == NetPosition(ls) * mark - LOTS * NetCost(ls)
  {
    if ls != [] {
      NetExactPnl(ls[1..], mark);
      assert ExactPnls(ls)[1..] == ExactPnls(ls[1..]);
      var first, rest := ls[0].held.position, NetPosition(ls[1..]);
      assert (first + rest) * mark == first * mark + rest * mark;
    }
  }

  /** One market seen from many accounts: profits are the net position at mark less the net cost, but for rounding. */
  lemma MarketPnl(ls: seq<Line>, mark: u64)
    requires forall i :: 0 <= i < |ls| ==> ls[i].mark == mark
    ensures Abs(LOTS * Sum(Pnls(ls)) - (NetPosition(ls) * mark - LOTS * NetCost(ls))) <= (LOTS - 1) * |ls|
  {
    forall i | 0 <= i < |ls|
      ensures ExactPnls(ls)[i] - LOTS < LOTS * Pnls(ls)[i] < ExactPnls(ls)[i] + LOTS
    {
      LinePnl(ls[i]);
    }
    SumOfRounded(Pnls(ls), ExactPnls(ls));
    NetExactPnl(ls, mark);
  }

  /** In a market where positions and costs net out, the profits of `n` accounts miss zero by less than `n` units. */
  lemma ClosedMarketPnl(ls: seq<Line>, mark: u64)
    requires ls != [] && forall i :: 0 <= i < |ls| ==> ls[i].mark == mark
    requires NetPosition(ls) == 0 && NetCost(ls) == 0
    ensures Abs(Sum(Pnls(ls))) <= |ls| - 1
  {
    MarketPnl(ls, mark);
  }
}
