/**
 Margin per lot against exact arithmetic and against prices, and how it moves with them.
 */
module MarginBounds {
  import opened MachineInts
  import opened MarginPerLot

  lemma PortionMono(a: nat, a': nat, p: nat, p': nat)
    requires a <= a' && p <= p'
    ensures Portion(a, p) <= Portion(a', p')
  {
    MulMono(a, p, a', p');
  }

  lemma PortionBelow(a: nat, p: nat)
    requires p <= NATIVE
    ensures Portion(a, p) <= a
  {
    MulMono(a, p, a, NATIVE);
  }

  // ----- rounding -----

  /** The short margin with a single division at the end, before any cap. */
  function ExactShortMargin(r: Rates, spot: nat, otm: nat): nat
    requires 0 < spot
  {
    assert 0 <= r.spotShort * spot;
    Max(r.dynamicShort * spot - otm * NATIVE, r.spotShort * spot) / NATIVE
  }

  function RoundingAllowance(spot: nat): nat
    requires 0 < spot
  {
    (spot - 1 + NATIVE - 1) / NATIVE
  }

  /**
   Dividing first by spot and then by 100% never asks for less than the single division,
   and for more by at most the allowance: the spot less one in units of 10^8, rounded up.
   */
  lemma ShortMarginRounding(r: Rates, spot: nat, otm: nat)
    requires 0 < spot
    ensures ExactShortMargin(r, spot, otm) <= ShortMargin(r, spot, otm)
    ensures ShortMargin(r, spot, otm) <= ExactShortMargin(r, spot, otm) + RoundingAllowance(spot)
  {
    var k := OtmPercentage(otm, spot);
    var rest := otm * NATIVE - k * spot;
    RemainderBelow(otm * NATIVE, spot);
    var d, s := r.dynamicShort, r.spotShort;
    var pct := ShortPercentage(r, k);
    assert d * spot - otm * NATIVE == (d - k) * spot - rest;
    MulOrder(d - k, pct, spot);
    MulOrder(s, pct, spot);
    assert spot * pct == pct * spot;
    var x := Max(d * spot - otm * NATIVE, s * spot);
    assert x <= spot * pct <= x + (spot - 1);
    SplitSlack(x, spot * pct, spot - 1);
  }

  /**
   The allowance is met at every spot of `units` times 10^8 plus one: there an option that is
   `units` out of the money rounds to no percentage at all, and pays for that in full.
   */
  lemma RoundingAllowanceIsMet(r: Rates, units: nat)
    requires r.dynamicShort == NATIVE && r.spotShort == 0
    ensures var spot := units * NATIVE + 1;
            && RoundingAllowance(spot) == units
            && ShortMargin(r, spot, units) == ExactShortMargin(r, spot, units) + RoundingAllowance(spot)
  {
    var spot := units * NATIVE + 1;
    QuotientIs(units * NATIVE, spot, 0);
    assert OtmPercentage(units, spot) == 0;
  }

  lemma RemainderBelow(x: nat, d: nat)
    requires 0 < d
    ensures 0 <= x / d && 0 <= x - (x / d) * d < d
  {
    DivGalois(x / d, x, d);
    DivGalois(x / d + 1, x, d);
    DivGalois(0, x, d);
    assert (x / d + 1) * d == (x / d) * d + d;
  }

  lemma SplitSlack(x: nat, y: nat, slack: nat)
    requires x <= y <= x + slack
    ensures x / NATIVE <= y / NATIVE <= x / NATIVE + (slack + NATIVE - 1) / NATIVE
  {
  }

  /** The exact short margin with the cap for puts. */
  function ExactLotMargin(r: Rates, spot: nat, strike: nat, kind: Kind): nat
    requires 0 < spot
  {
    var m := ExactShortMargin(r, spot, OtmAmount(spot, strike, kind));
    if kind.Put? then Min(m, Portion(strike, r.putCap)) else m
  }

  /** The rounding bound for short calls and, after the cap, for short puts; for both sets of rates. */
  lemma LotMarginRounding(r: Rates, spot: nat, strike: nat, mark: nat, kind: Kind)
    requires 0 < spot && (kind.Call? || kind.Put?)
    ensures var exact, computed := ExactLotMargin(r, spot, strike, kind), LotMargin(r, spot, strike, mark, kind, Ask);
            exact <= computed <= exact + RoundingAllowance(spot)
  {
    ShortMarginRounding(r, spot, OtmAmount(spot, strike, kind));
  }

  // ----- bounds by price -----

  /** With percentages up to 100% margins stay within spot; long options' within mark, short puts' within strike. */
  lemma LotMarginBelowPrices(r: Rates, spot: nat, strike: nat, mark: nat, kind: Kind, side: Side)
    requires WithinWhole(r)
    ensures var m := LotMargin(r, spot, strike, mark, kind, side);
            && m <= spot
            && (DividesBySpot(kind, Ask) && side.Bid? ==> m <= mark)
            && (kind.Put? && side.Ask? ==> m <= strike)
  {
    PortionBelow(spot, r.future);
    PortionBelow(spot, r.spotLong);
    PortionBelow(mark, r.markLong);
    PortionBelow(strike, r.putCap);
    PortionBelow(spot, ShortPercentage(r, OtmPercentage(OtmAmount(spot, strike, kind), spot)));
  }

  // ----- monotonicity -----

  /** A larger out-of-the-money amount at a lower spot is a larger percentage of it. */
  lemma OtmPercentageMono(otm: nat, spot: nat, otm': nat, spot': nat)
    requires otm' <= otm && 0 < spot <= spot'
    ensures OtmPercentage(otm', spot') <= OtmPercentage(otm, spot)
  {
    DivMono(otm' * NATIVE, otm * NATIVE, spot');
    DivAntitone(otm * NATIVE, spot, spot');
  }

  lemma ShortMarginMono(r: Rates, spot: nat, otm: nat, spot': nat, otm': nat)
    requires spot <= spot' && otm' <= otm
    ensures ShortMargin(r, spot, otm) <= ShortMargin(r, spot', otm')
  {
    var k, k' := OtmPercentage(otm, spot), OtmPercentage(otm', spot');
    if spot == 0 {
      assert Portion(0, ShortPercentage(r, k)) == 0;
    } else {
      OtmPercentageMono(otm, spot, otm', spot');
      PortionMono(spot, spot', ShortPercentage(r, k), ShortPercentage(r, k'));
    }
  }

  /** At fixed strike and mark the margin of everything but a short put grows with spot. */
  lemma LotMarginGrowsWithSpot(r: Rates, spot: nat, spot': nat, strike: nat, mark: nat, kind: Kind, side: Side)
    requires spot <= spot' && !(kind.Put? && side.Ask?)
    ensures LotMargin(r, spot, strike, mark, kind, side) <= LotMargin(r, spot', strike, mark, kind, side)
  {
    PortionMono(spot, spot', r.future, r.future);
    PortionMono(spot, spot', r.spotLong, r.spotLong);
    ShortMarginMono(r, spot, OtmAmount(spot, strike, Call), spot', OtmAmount(spot', strike, Call));
  }

  /** A higher strike makes a short call cheaper and a short put, cap included, dearer. */
  lemma LotMarginAgainstStrike(r: Rates, spot: nat, strike: nat, strike': nat, mark: nat)
    requires strike <= strike'
    ensures LotMargin(r, spot, strike', mark, Call, Ask) <= LotMargin(r, spot, strike, mark, Call, Ask)
    ensures LotMargin(r, spot, strike, mark, Put, Ask) <= LotMargin(r, spot, strike', mark, Put, Ask)
  {
    ShortMarginMono(r, spot, OtmAmount(spot, strike', Call), spot, OtmAmount(spot, strike, Call));
    ShortMarginMono(r, spot, OtmAmount(spot, strike, Put), spot, OtmAmount(spot, strike', Put));
    PortionMono(strike, strike', r.putCap, r.putCap);
  }
}
