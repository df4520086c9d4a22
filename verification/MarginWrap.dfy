/**
 An account of the program's own size whose margin totals wrap, so that the check passes
 an account that is short.
 */
module MarginWrap {
  import opened MachineInts
  import opened MarginPerLot
  import opened Sums
  import opened MarginAccounts
  import opened MarginCheck
  import opened MarginMeaning
  import opened MarketLayout

  // The futures are the last products of their series.
  const FRONT_FUTURE: nat := NUM_PRODUCTS_PER_SERIES - 1
  const BACK_FUTURE: nat := ACTIVE_MARKETS - 1

  const HUGE_BID := Position(0, 0, I64, 0)

  /** One unit of balance, and a bid of 2^63 thousandths on the future of each series. */
  function TwoFutures(): MarginAccount {
    MarginAccount(1, seq(ACTIVE_MARKETS, i =>
      if i == FRONT_FUTURE || i == BACK_FUTURE then HUGE_BID else EMPTY_POSITION))
  }

  /** All 46 markets are there, and both futures have their kind and strike set. */
  predicate FuturesListed(m: Markets) {
    && |m.marks| == |m.products| == ACTIVE_MARKETS
    && m.products[FRONT_FUTURE].strike.Some? && m.products[FRONT_FUTURE].kind.Future?
    && m.products[BACK_FUTURE].strike.Some? && m.products[BACK_FUTURE].kind.Future?
  }

  /**
   With futures margined at 100% each bid requires 2^63 at a spot of 1000, and the total of
   2^64 wraps to nothing: the check passes an account that is short by 2^64 - 1.
   */
  lemma WrappedSumPasses(m: Markets)
    requires FuturesListed(m) && m.parameters.futureMarginInitial == NATIVE
    ensures SameMarkets(TwoFutures(), m)
    ensures CheckMarginRequirement(TwoFutures(), m, 1000) == Ok(true)
    ensures Buffer(TwoFutures(), m, 1000) == 1 - U64 < 0
  {
    var p, ls := m.parameters, Lines(TwoFutures(), m);
    var zeros := seq(ACTIVE_MARKETS, i => 0);
    var bids := zeros[FRONT_FUTURE := I64][BACK_FUTURE := I64];
    forall i | 0 <= i < ACTIVE_MARKETS
      ensures LineComputes(ls[i], 1000, p) && InitialMargin(ls[i], 1000, p) == bids[i]
      ensures MaintenanceMargin(ls[i], 1000, p) == 0 && UnrealizedPnl(ls[i]) == 0
    {
      if i == FRONT_FUTURE || i == BACK_FUTURE {
        HugeBidRequires(ls[i], p);
      } else {
        EmptyRequiresNothing(ls[i], 1000, p);
      }
    }
    assert InitialMargins(ls, 1000, p) == bids;
    assert MaintenanceMargins(ls, 1000, p) == Pnls(ls) == zeros;
    SumOfZeros(zeros);
    SumUpdate(zeros, FRONT_FUTURE, I64);
    SumUpdate(zeros[FRONT_FUTURE := I64], BACK_FUTURE, I64);
    CheckIs(TwoFutures(), m, 1000);
  }

  lemma HugeBidRequires(l: Line, p: MarginParameters)
    requires l.held == HUGE_BID && l.product.strike.Some? && l.product.kind.Future?
    requires p.futureMarginInitial == NATIVE
    ensures LineComputes(l, 1000, p)
    ensures InitialMargin(l, 1000, p) == I64 && MaintenanceMargin(l, 1000, p) == 0 && UnrealizedPnl(l) == 0
  {
    assert Portion(1000, NATIVE) == 1000;
    assert 0 * l.mark == 0;
  }
}
