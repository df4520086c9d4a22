/**
 When an order's initial margin is enough for the maintenance margin of the position it
 opens: the exact condition on the two sets of rates, and the shipped percentages.
 */
module MarginOrdering {
  import opened MachineInts
  import opened MarginPerLot
  import opened MarginBounds

  /** For every kind, side and prices of any size, one lot costs at least as much under `a` as under `b`. */
  ghost predicate Covers(a: Rates, b: Rates) {
    forall spot: nat, strike: nat, mark: nat, kind: Kind, side: Side ::
      CoversAt(a, b, spot, strike, mark, kind, side)
  }

  /** The same for the prices that fit the program's u64. */
  ghost predicate CoversWords(a: Rates, b: Rates) {
    forall spot: u64, strike: u64, mark: u64, kind: Kind, side: Side ::
      CoversAt(a, b, spot, strike, mark, kind, side)
  }

  predicate CoversAt(a: Rates, b: Rates, spot: nat, strike: nat, mark: nat, kind: Kind, side: Side) {
    LotMargin(b, spot, strike, mark, kind, side) <= LotMargin(a, spot, strike, mark, kind, side)
  }

  /**
   The comparison of rates that decides it.  Long options are exempt when one of `b`'s long
   percentages is zero, and the dynamic percentage counts only where it exceeds the spot one.
   */
  predicate RatesOrdered(a: Rates, b: Rates) {
    && b.future <= a.future
    && (b.spotLong == 0 || b.markLong == 0 || (b.spotLong <= a.spotLong && b.markLong <= a.markLong))
    && b.spotShort <= a.spotShort
    && Max(b.dynamicShort, b.spotShort) <= Max(a.dynamicShort, a.spotShort)
  }

  lemma OrderedRatesCoverAt(a: Rates, b: Rates, spot: nat, strike: nat, mark: nat, kind: Kind, side: Side)
    requires RatesOrdered(a, b) && a.putCap == b.putCap
    ensures CoversAt(a, b, spot, strike, mark, kind, side)
  {
    PortionMono(spot, spot, b.future, a.future);
    if b.spotLong <= a.spotLong && b.markLong <= a.markLong {
      PortionMono(spot, spot, b.spotLong, a.spotLong);
      PortionMono(mark, mark, b.markLong, a.markLong);
    } else {
      assert Portion(spot, 0) == 0 && Portion(mark, 0) == 0;
    }
    var k := OtmPercentage(OtmAmount(spot, strike, kind), spot);
    PortionMono(spot, spot, ShortPercentage(b, k), ShortPercentage(a, k));
  }

  lemma WholePortion(p: nat)
    ensures Portion(NATIVE, p) == p
  {
  }

  /** Prices at which a missing order of one pair of percentages shows; u64 prices if they are at most 100%. */
  lemma UncoveredPrices(a: Rates, b: Rates) returns (spot: nat, strike: nat, mark: nat, kind: Kind, side: Side)
    requires !RatesOrdered(a, b)
    ensures 0 < spot && Supported(kind, side)
    ensures !CoversAt(a, b, spot, strike, mark, kind, side)
    ensures WithinWhole(a) && WithinWhole(b) ==> spot < U64 && strike < U64 && mark < U64
  {
    spot, strike, mark, kind, side := NATIVE, 0, 0, Future, Bid;
    if a.future < b.future {
      return;
    }
    if 0 < b.spotLong && 0 < b.markLong && a.spotLong < b.spotLong {
      mark, kind := NATIVE * b.spotLong, Call;  // a mark so high that the spot percentage decides
      UncoveredLong(a.spotLong, b.spotLong, b.markLong);
    } else if 0 < b.spotLong && 0 < b.markLong && a.markLong < b.markLong {
      spot, mark, kind := NATIVE * b.markLong, NATIVE, Call;  // and the other way round
      UncoveredLong(a.markLong, b.markLong, b.spotLong);
    } else if a.spotShort < b.spotShort {
      strike, kind, side := NATIVE + a.dynamicShort, Call, Ask;  // so far out that nothing dynamic is left
      WholePortion(ShortPercentage(a, a.dynamicShort));
      WholePortion(ShortPercentage(b, a.dynamicShort));
    } else {
      kind, side := Call, Ask;  // at the money
      WholePortion(ShortPercentage(a, 0));
      WholePortion(ShortPercentage(b, 0));
    }
  }

  lemma UncoveredLong(pa: nat, pb: nat, other: nat)
    requires pa < pb && 0 < other
    ensures Portion(NATIVE, pa) < Portion(NATIVE, pb) <= Portion(NATIVE * pb, other)
  {
    WholePortion(pa);
    WholePortion(pb);
    PortionMono(NATIVE * pb, NATIVE * pb, 1, other);
  }

  /**
   Margins under `a` cover those under `b` at all prices exactly when the rates are ordered,
   whatever the percentages; and if these are at most 100%, the prices that fit u64 decide it.
   The cap on short puts is one parameter that both margins use.
   */
  lemma CoversIff(a: Rates, b: Rates)
    requires a.putCap == b.putCap
    ensures Covers(a, b) <==> RatesOrdered(a, b)
    ensures WithinWhole(a) && WithinWhole(b) ==> (CoversWords(a, b) <==> RatesOrdered(a, b))
  {
    if RatesOrdered(a, b) {
      forall spot: nat, strike: nat, mark: nat, kind: Kind, side: Side
        ensures CoversAt(a, b, spot, strike, mark, kind, side)
      {
        OrderedRatesCoverAt(a, b, spot, strike, mark, kind, side);
      }
    } else {
      var spot, strike, mark, kind, side := UncoveredPrices(a, b);
    }
  }

  /** Field by field, as one would write the requirement down, is enough. */
  lemma FieldwiseIsOrdered(p: MarginParameters)
    requires p.futureMarginMaintenance <= p.futureMarginInitial
    requires p.optionMarkPercentageLongMaintenance <= p.optionMarkPercentageLongInitial
    requires p.optionSpotPercentageLongMaintenance <= p.optionSpotPercentageLongInitial
    requires p.optionSpotPercentageShortMaintenance <= p.optionSpotPercentageShortInitial
    requires p.optionDynamicPercentageShortMaintenance <= p.optionDynamicPercentageShortInitial
    ensures RatesOrdered(InitialRates(p), MaintenanceRates(p))
  {
  }

  /** The percentages that the constants file ships, with whatever cap on short puts. */
  function ShippedParameters(putCap: u64): MarginParameters {
    MarginParameters(15_000_000, 7_500_000,
                     100_000_000, 15_000_000, 10_000_000, 25_000_000,
                     100_000_000, 7_500_000, 12_500_000, 5_000_000,
                     putCap)
  }

  /** They are not ordered: a call sold at spot 1 and strike 2 opens at 10% and is then held at 12.5%. */
  lemma ShippedParametersAreNotOrdered(putCap: u64, mark: u64)
    ensures var p := ShippedParameters(putCap);
            && !RatesOrdered(InitialRates(p), MaintenanceRates(p))
            && InitialMarginPerLot(NATIVE, 2 * NATIVE, mark, Call, Ask, p) == Ok(10_000_000)
            && MaintenanceMarginPerLot(NATIVE, 2 * NATIVE, mark, Call, false, p) == Ok(12_500_000)
  {
    var p := ShippedParameters(putCap);
    LotMarginRefines(InitialRates(p), NATIVE, 2 * NATIVE, mark, Call, Ask);
    LotMarginRefines(MaintenanceRates(p), NATIVE, 2 * NATIVE, mark, Call, Ask);
  }
}
