/**
 What the margin functions charge, read off the program's own parameters, prices and
 positions: per lot, per position, and for an account market by market.
 */
module MarginMeaning {
  import opened MachineInts
  import opened MarginPerLot
  import opened MarginOrdering
  import opened Sums
  import opened MarginAccounts
  import opened MarginCheck

  // ----- one lot -----

  /** A future costs its percentage of spot, on either side. */
  lemma FuturePerLot(spot: u64, strike: u64, mark: u64, side: Side, long: bool, p: MarginParameters)
    ensures InitialMarginPerLot(spot, strike, mark, Future, side, p) ==
            ToU64(spot * p.futureMarginInitial / 100_000_000)
    ensures MaintenanceMarginPerLot(spot, strike, mark, Future, long, p) ==
            ToU64(spot * p.futureMarginMaintenance / 100_000_000)
  {
    LotMarginRefines(InitialRates(p), spot, strike, mark, Future, side);
    LotMarginRefines(MaintenanceRates(p), spot, strike, mark, Future, if long then Bid else Ask);
  }

  /** A long option costs the lesser of its percentage of spot and its percentage of mark. */
  lemma LongOptionPerLot(spot: u64, strike: u64, mark: u64, kind: Kind, p: MarginParameters)
    requires kind.Call? || kind.Put?
    ensures InitialMarginPerLot(spot, strike, mark, kind, Bid, p) ==
            ToU64(Min(spot * p.optionSpotPercentageLongInitial / 100_000_000,
                      mark * p.optionMarkPercentageLongInitial / 100_000_000))
    ensures MaintenanceMarginPerLot(spot, strike, mark, kind, true, p) ==
            ToU64(Min(spot * p.optionSpotPercentageLongMaintenance / 100_000_000,
                      mark * p.optionMarkPercentageLongMaintenance / 100_000_000))
  {
    LotMarginRefines(InitialRates(p), spot, strike, mark, kind, Bid);
    LotMarginRefines(MaintenanceRates(p), spot, strike, mark, kind, Bid);
  }

  /**
   The share of spot that a short option costs: the dynamic percentage less what the option is
   out of the money, but no less than the spot percentage.
   */
  function ShortShare(dynamicShare: nat, spotShare: nat, outOfTheMoney: int, spot: nat): nat
    requires 0 < spot
  {
    Max(dynamicShare - Max(outOfTheMoney, 0) * 100_000_000 / spot, spotShare)
  }

  lemma ShortShareIs(r: Rates, otm: nat, spot: nat)
    requires 0 < spot
    ensures ShortMargin(r, spot, otm) == spot * ShortShare(r.dynamicShort, r.spotShort, otm, spot) / 100_000_000
  {
    assert ShortPercentage(r, OtmPercentage(otm, spot)) == ShortShare(r.dynamicShort, r.spotShort, otm, spot);
  }

  /** A short call is out of the money by what strike is above spot. */
  lemma ShortCallPerLot(spot: u64, strike: u64, mark: u64, p: MarginParameters)
    requires 0 < spot
    ensures InitialMarginPerLot(spot, strike, mark, Call, Ask, p) ==
            ToU64(spot * ShortShare(p.optionDynamicPercentageShortInitial, p.optionSpotPercentageShortInitial,
                                    strike - spot, spot) / 100_000_000)
    ensures MaintenanceMarginPerLot(spot, strike, mark, Call, false, p) ==
            ToU64(spot * ShortShare(p.optionDynamicPercentageShortMaintenance, p.optionSpotPercentageShortMaintenance,
                                    strike - spot, spot) / 100_000_000)
  {
    LotMarginRefines(InitialRates(p), spot, strike, mark, Call, Ask);
    LotMarginRefines(MaintenanceRates(p), spot, strike, mark, Call, Ask);
    ShortShareIs(InitialRates(p), Max(strike - spot, 0), spot);
    ShortShareIs(MaintenanceRates(p), Max(strike - spot, 0), spot);
  }

  /** A short put is out of the money by what spot is above strike, and capped by a percentage of strike. */
  lemma ShortPutPerLot(spot: u64, strike: u64, mark: u64, p: MarginParameters)
    requires 0 < spot
    ensures InitialMarginPerLot(spot, strike, mark, Put, Ask, p) ==
            ToU64(Min(spot * ShortShare(p.optionDynamicPercentageShortInitial, p.optionSpotPercentageShortInitial,
                                        spot - strike, spot) / 100_000_000,
                      strike * p.optionShortPutCapPercentage / 100_000_000))
    ensures MaintenanceMarginPerLot(spot, strike, mark, Put, false, p) ==
            ToU64(Min(spot * ShortShare(p.optionDynamicPercentageShortMaintenance,
                                        p.optionSpotPercentageShortMaintenance, spot - strike, spot) / 100_000_000,
                      strike * p.optionShortPutCapPercentage / 100_000_000))
  {
    LotMarginRefines(InitialRates(p), spot, strike, mark, Put, Ask);
    LotMarginRefines(MaintenanceRates(p), spot, strike, mark, Put, Ask);
    ShortShareIs(InitialRates(p), Max(spot - strike, 0), spot);
    ShortShareIs(MaintenanceRates(p), Max(spot - strike, 0), spot);
  }

  /** What has no margin: an unset kind is an error, an option on an unset side or short at spot zero a panic. */
  lemma RefusedPerLot(spot: u64, strike: u64, mark: u64, kind: Kind, side: Side, long: bool, p: MarginParameters)
    ensures kind.UninitializedKind? ==>
              && InitialMarginPerLot(spot, strike, mark, kind, side, p) == Err(UnsupportedKind)
              && MaintenanceMarginPerLot(spot, strike, mark, kind, long, p) == Err(UnsupportedKind)
    ensures (kind.Call? || kind.Put?) && (side.UninitializedSide? || (side.Ask? && spot == 0)) ==>
              InitialMarginPerLot(spot, strike, mark, kind, side, p).Panic?
    ensures (kind.Call? || kind.Put?) && !long && spot == 0 ==>
              MaintenanceMarginPerLot(spot, strike, mark, kind, long, p).Panic?
  {
    LotMarginRefines(InitialRates(p), spot, strike, mark, kind, side);
    LotMarginRefines(MaintenanceRates(p), spot, strike, mark, kind, if long then Bid else Ask);
  }

  /** The shipped percentages at a spot of 100%: futures, and long calls on either side of the mark. */
  lemma ShippedLots(strike: u64, putCap: u64)
    ensures var p := ShippedParameters(putCap);
            && InitialMarginPerLot(100_000_000, strike, 0, Future, Ask, p) == Ok(15_000_000)
            && MaintenanceMarginPerLot(100_000_000, strike, 0, Future, true, p) == Ok(7_500_000)
            && InitialMarginPerLot(100_000_000, strike, 5_000_000, Call, Bid, p) == Ok(5_000_000)
            && InitialMarginPerLot(100_000_000, strike, 50_000_000, Call, Bid, p) == Ok(15_000_000)
            && MaintenanceMarginPerLot(100_000_000, strike, 50_000_000, Put, true, p) == Ok(7_500_000)
  {
    var p := ShippedParameters(putCap);
    FuturePerLot(100_000_000, strike, 0, Ask, true, p);
    LongOptionPerLot(100_000_000, strike, 5_000_000, Call, p);
    LongOptionPerLot(100_000_000, strike, 50_000_000, Call, p);
    LongOptionPerLot(100_000_000, strike, 50_000_000, Put, p);
  }

  // ----- one position -----

  /** So many thousandths of lots, each at the margin of a lot, if there is one. */
  function AtMargin(size: nat, lot: Machine<u64>): nat {
    if size == 0 || !lot.Ok? then 0 else size * lot.value
  }

  /**
   The margin for orders is the bids at the margin of a bid and the asks at the margin of an
   ask, together, in thousandths; a side without orders is not even priced.
   */
  lemma InitialMarginIs(l: Line, spot: u64, p: MarginParameters, bids: u64, asks: u64)
    requires bids == l.held.openingBids && asks == l.held.openingAsks
    ensures l.product.strike.None? ==> CheckedInitialMargin(l, spot, p) == Ok(0)
    ensures l.product.strike.Some? ==>
              var bid := InitialMarginPerLot(spot, l.product.strike.value, l.mark, l.product.kind, Bid, p);
              var ask := InitialMarginPerLot(spot, l.product.strike.value, l.mark, l.product.kind, Ask, p);
              CheckedInitialMargin(l, spot, p) ==
                if (0 < bids && !bid.Ok?) || (0 < asks && !ask.Ok?) then Panic
                else ToU64((AtMargin(bids, bid) + AtMargin(asks, ask)) / 1_000)
  {
    if l.product.strike.Some? {
      var strike, kind := l.product.strike.value, l.product.kind;
      OrderedSide(bids, InitialMarginPerLot(spot, strike, l.mark, kind, Bid, p));
      OrderedSide(asks, InitialMarginPerLot(spot, strike, l.mark, kind, Ask, p));
    }
  }

  lemma OrderedSide(size: u64, lot: Machine<u64>)
    ensures CheckedDemand(size, lot) == if 0 < size && !lot.Ok? then Panic else Ok(AtMargin(size, lot))
    ensures AtMargin(size, lot) <= 0xFFFF_FFFF_FFFF_FFFF * 0xFFFF_FFFF_FFFF_FFFF
  {
    if lot.Ok? {
      MulFits128(size, lot.value);
      MulMono(size, lot.value, 0xFFFF_FFFF_FFFF_FFFF, 0xFFFF_FFFF_FFFF_FFFF);
    }
  }

  /** Bids and asks in one market are charged in full side by side; only the rounding is shared. */
  lemma SidesAddUp(l: Line, spot: nat, p: MarginParameters)
    ensures var bids := l.(held := l.held.(openingAsks := 0));
            var asks := l.(held := l.held.(openingBids := 0));
            0 <= InitialMargin(l, spot, p) - InitialMargin(bids, spot, p) - InitialMargin(asks, spot, p) <= 1
  {
    var bids := l.(held := l.held.(openingAsks := 0));
    var asks := l.(held := l.held.(openingBids := 0));
    assert OrdersDemand(l, spot, p) == OrdersDemand(bids, spot, p) + OrdersDemand(asks, spot, p);
  }

  /**
   The margin for a position is its size at the margin of its side, in thousandths.  The least
   i64 has no size in the program, so that it only survives where a lot costs nothing.
   */
  lemma MaintenanceMarginIs(l: Line, spot: u64, p: MarginParameters)
    ensures l.product.strike.None? || l.held.position == 0 ==> CheckedMaintenanceMargin(l, spot, p) == Ok(0)
    ensures l.product.strike.Some? && l.held.position != 0 ==>
              var held := l.held.position;
              var lot := MaintenanceMarginPerLot(spot, l.product.strike.value, l.mark, l.product.kind, held > 0, p);
              CheckedMaintenanceMargin(l, spot, p) ==
                if !lot.Ok? || (held == -0x8000_0000_0000_0000 && 0 < lot.value) then Panic
                else ToU64(AtMargin(if held > 0 then held else 0 - held, lot) / 1_000)
  {
    if l.product.strike.Some? && l.held.position != 0 {
      var lot := MaintenanceMarginPerLot(spot, l.product.strike.value, l.mark, l.product.kind, l.held.position > 0, p);
      if lot.Ok? {
        WordDemand(l.held.position, lot.value);
      }
    }
  }

  /**
   Profit is the position at mark less the cost of a long position, or plus the proceeds of a
   short one, in thousandths truncated toward zero; a flat position has none.
   */
  lemma UnrealizedPnlIs(l: Line)
    ensures CheckedUnrealizedPnl(l) ==
            if -0x8000_0000_0000_0000 <= UnrealizedPnl(l) < 0x8000_0000_0000_0000 then Ok(UnrealizedPnl(l)) else Panic
    ensures l.held.position == 0 ==> UnrealizedPnl(l) == 0
    ensures 0 < l.held.position ==>
              var value := UnrealizedPnl(l) + l.held.costOfTrades;
              1_000 * value <= l.held.position * l.mark < 1_000 * value + 1_000
    ensures l.held.position < 0 ==>
              var value := UnrealizedPnl(l) - l.held.costOfTrades;
              1_000 * value - 1_000 < l.held.position * l.mark <= 1_000 * value
  {
    PnlRefines(l);
    SignOfProduct(l.held.position, l.mark);
  }

  lemma SignOfProduct(x: int, y: nat)
    ensures x == 0 ==> x * y == 0
    ensures 0 <= x ==> 0 <= x * y
    ensures x <= 0 ==> x * y <= 0
  {
  }

  // ----- one account -----

  const EMPTY_POSITION := Position(0, 0, 0, 0)

  lemma EmptyRequiresNothing(l: Line, spot: nat, p: MarginParameters)
    requires l.held == EMPTY_POSITION
    ensures LineComputes(l, spot, p)
    ensures InitialMargin(l, spot, p) == 0 && MaintenanceMargin(l, spot, p) == 0 && UnrealizedPnl(l) == 0
  {
    assert 0 * l.mark == 0;
  }

  /** An account without positions or orders has its balance to spare. */
  lemma EmptyAccount(a: MarginAccount, m: Markets, spot: nat)
    requires SameMarkets(a, m)
    requires forall i :: 0 <= i < |a.positions| ==> a.positions[i] == EMPTY_POSITION
    ensures Buffer(a, m, spot) == a.balance
  {
    var ls, p := Lines(a, m), m.parameters;
    forall i | 0 <= i < |ls|
      ensures InitialMargins(ls, spot, p)[i] == 0 && MaintenanceMargins(ls, spot, p)[i] == 0 && Pnls(ls)[i] == 0
    {
      EmptyRequiresNothing(ls[i], spot, p);
    }
    SumOfZeros(InitialMargins(ls, spot, p));
    SumOfZeros(MaintenanceMargins(ls, spot, p));
    SumOfZeros(Pnls(ls));
  }

  /** What market `j` alone contributes: the position there, at the mark there, in the product there. */
  function Contribution(held: Position, mark: u64, product: Product, spot: nat, p: MarginParameters): int {
    var l := Line(held, mark, product);
    UnrealizedPnl(l) - InitialMargin(l, spot, p) - MaintenanceMargin(l, spot, p)
  }

  /**
   Markets are separate: whatever changes in market `j`, be it the position, the mark or the
   product, changes the buffer by what market `j` contributes and nothing else.
   */
  lemma MarketsAreSeparate(a: MarginAccount, m: Markets, spot: nat, j: nat, held: Position, mark: u64, product: Product)
    requires SameMarkets(a, m) && j < |a.positions|
    ensures var a' := a.(positions := a.positions[j := held]);
            var m' := m.(marks := m.marks[j := mark], products := m.products[j := product]);
            && SameMarkets(a', m')
            && Buffer(a', m', spot) - Buffer(a, m, spot) ==
               Contribution(held, mark, product, spot, m.parameters) -
               Contribution(a.positions[j], m.marks[j], m.products[j], spot, m.parameters)
  {
    var a' := a.(positions := a.positions[j := held]);
    var m' := m.(marks := m.marks[j := mark], products := m.products[j := product]);
    var ls, ls', p, l := Lines(a, m), Lines(a', m'), m.parameters, Line(held, mark, product);
    assert ls' == ls[j := l];
    assert InitialMargins(ls', spot, p) == InitialMargins(ls, spot, p)[j := InitialMargin(l, spot, p)];
    assert MaintenanceMargins(ls', spot, p) == MaintenanceMargins(ls, spot, p)[j := MaintenanceMargin(l, spot, p)];
    assert Pnls(ls') == Pnls(ls)[j := UnrealizedPnl(l)];
    SumUpdate(InitialMargins(ls, spot, p), j, InitialMargin(l, spot, p));
    SumUpdate(MaintenanceMargins(ls, spot, p), j, MaintenanceMargin(l, spot, p));
    SumUpdate(Pnls(ls), j, UnrealizedPnl(l));
  }

  /** An account with a position or orders in market `j` only is decided by the mark and product of market `j`. */
  lemma OnlyMarket(a: MarginAccount, m: Markets, spot: nat, j: nat)
    requires SameMarkets(a, m) && j < |a.positions|
    requires forall i :: 0 <= i < |a.positions| && i != j ==> a.positions[i] == EMPTY_POSITION
    ensures var l, p := Line(a.positions[j], m.marks[j], m.products[j]), m.parameters;
            Buffer(a, m, spot) ==
              a.balance + UnrealizedPnl(l) - InitialMargin(l, spot, p) - MaintenanceMargin(l, spot, p)
  {
    var empty := a.(positions := a.positions[j := EMPTY_POSITION]);
    EmptyAccount(empty, m, spot);
    MarketsAreSeparate(empty, m, spot, j, a.positions[j], m.marks[j], m.products[j]);
    EmptyRequiresNothing(Line(EMPTY_POSITION, m.marks[j], m.products[j]), spot, m.parameters);
    assert empty.(positions := empty.positions[j := a.positions[j]]) == a;
    assert m.(marks := m.marks[j := m.marks[j]], products := m.products[j := m.products[j]]) == m;
  }
}
