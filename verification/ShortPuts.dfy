/**
 How the margin of a short put moves with spot: the exact condition on the percentages
 under which it never falls.
 */
module ShortPuts {
  import opened MachineInts
  import opened MarginPerLot
  import opened MarginBounds

  predicate GrowsBetween(r: Rates, strike: nat, mark: nat, spot: nat, spot': nat) {
    LotMargin(r, spot, strike, mark, Put, Ask) <= LotMargin(r, spot', strike, mark, Put, Ask)
  }

  /** At every strike and mark, a higher spot costs at least as much. */
  ghost predicate NeverFalls(r: Rates) {
    forall strike: u64, mark: u64, spot: u64, spot': u64 ::
      spot <= spot' ==> GrowsBetween(r, strike, mark, spot, spot')
  }

  /**
   Either the dynamic percentage never exceeds the spot one, or it is at least the whole, or the
   cap is so low that it has taken over wherever the put is out of the money.
   */
  predicate FlatOutOfTheMoney(r: Rates) {
    || r.dynamicShort <= r.spotShort
    || NATIVE <= r.dynamicShort
    || r.putCap * (NATIVE - r.dynamicShort + r.spotShort) <= r.spotShort * NATIVE
  }

  /** The percentage times spot, before the last division, is at least both of its parts. */
  lemma ShortDemandAtLeast(r: Rates, spot: nat, otm: nat)
    requires 0 < spot
    ensures var pct := ShortPercentage(r, OtmPercentage(otm, spot));
            r.dynamicShort * spot - otm * NATIVE <= spot * pct && r.spotShort * spot <= spot * pct
  {
    var k := OtmPercentage(otm, spot);
    var pct := ShortPercentage(r, k);
    RemainderBelow(otm * NATIVE, spot);
    MulOrder(r.dynamicShort - k, pct, spot);
    MulOrder(r.spotShort, pct, spot);
    assert (r.dynamicShort - k) * spot == r.dynamicShort * spot - k * spot;
    assert pct * spot == spot * pct;
  }

  /** One of the two parts reaches the cap. `rest` is what is missing to the whole, if anything is. */
  lemma CapReached(d: nat, s: nat, cap: nat, strike: nat, spot: nat)
    requires cap <= NATIVE && 0 < strike <= spot
    requires NATIVE <= d || cap * (NATIVE - d + s) <= s * NATIVE
    ensures strike * cap <= s * spot || strike * cap <= d * spot - (spot - strike) * NATIVE
  {
    MulMono(strike, cap, strike, NATIVE);
    if NATIVE <= d {
      MulOrder(NATIVE, d, spot);
    } else if s * spot < strike * cap {
      var rest := NATIVE - d;
      assert d * spot - (spot - strike) * NATIVE == strike * NATIVE - rest * spot;
      assert cap * (rest + s) == cap * rest + cap * s;
      MulOrder(cap * rest, s * (NATIVE - cap), strike);
      MulOrder(s * spot, strike * cap, rest);
      Cancels(s, rest * spot, strike * (NATIVE - cap), cap * rest, strike);
    }
  }

  lemma Cancels(s: nat, x: int, y: int, z: int, strike: nat)
    requires s * x <= z * strike && z * strike <= s * y
    requires s == 0 ==> x <= y
    ensures x <= y
  {
    if 0 < s {
      MulOrder(y + 1, x, s);
    }
  }

  /** Out of the money the cap decides, whatever the dynamic percentage has fallen to. */
  lemma CapDecides(r: Rates, spot: nat, strike: nat, mark: nat)
    requires r.putCap <= NATIVE && r.spotShort < r.dynamicShort && FlatOutOfTheMoney(r) && 0 < strike <= spot
    ensures LotMargin(r, spot, strike, mark, Put, Ask) == Portion(strike, r.putCap)
  {
    var otm := spot - strike;
    var pct := ShortPercentage(r, OtmPercentage(otm, spot));
    ShortDemandAtLeast(r, spot, otm);
    CapReached(r.dynamicShort, r.spotShort, r.putCap, strike, spot);
    DivMono(strike * r.putCap, spot * pct, NATIVE);
  }

  lemma FlatNeverFalls(r: Rates, strike: nat, mark: nat, spot: nat, spot': nat)
    requires r.putCap <= NATIVE && FlatOutOfTheMoney(r) && spot <= spot'
    ensures GrowsBetween(r, strike, mark, spot, spot')
  {
    if r.dynamicShort <= r.spotShort {
      PortionMono(spot, spot', r.spotShort, r.spotShort);
    } else if spot' < strike {
      ShortMarginMono(r, spot, 0, spot', 0);
    } else if 0 < strike {
      CapDecides(r, spot', strike, mark);
    }
  }

  /** Otherwise the margin falls between strike and the spot at which the spot percentage takes over. */
  lemma SteepFalls(r: Rates) returns (strike: u64, spot': u64)
    requires r.putCap <= NATIVE && !FlatOutOfTheMoney(r)
    ensures strike < spot' && !GrowsBetween(r, strike, 0, strike, spot')
  {
    var d, s, c := r.dynamicShort, r.spotShort, r.putCap;
    var width := NATIVE - d + s;
    strike, spot' := NATIVE * width, NATIVE * NATIVE;
    PortionOfLots(width, d);
    PortionOfLots(width, c);
    PortionOfLots(NATIVE, s);
    WideEnough(d, s);
    assert c * width == width * c;
    assert OtmPercentage(0, strike) == 0;
    assert OtmPercentage(spot' - strike, spot') == d - s;
  }

  lemma PortionOfLots(lots: nat, pct: nat)
    ensures Portion(NATIVE * lots, pct) == lots * pct
  {
    assert NATIVE * lots * pct == lots * pct * NATIVE;
  }

  lemma WideEnough(d: nat, s: nat)
    requires s < d < NATIVE
    ensures NATIVE * s < (NATIVE - d + s) * d
  {
    var v := NATIVE - d;
    assert (v + s) * d == d * v + s * d;
    assert (v + d) * s == s * v + d * s;
    MulOrder(s + 1, d, v);
    assert (s + 1) * v == s * v + v;
  }

  /** The margin of a short put never falls as spot rises exactly when the percentages are flat in this sense. */
  lemma NeverFallsIff(r: Rates)
    requires r.putCap <= NATIVE
    ensures NeverFalls(r) <==> FlatOutOfTheMoney(r)
  {
    if FlatOutOfTheMoney(r) {
      forall strike: u64, mark: u64, spot: u64, spot': u64 | spot <= spot'
        ensures GrowsBetween(r, strike, mark, spot, spot')
      {
        FlatNeverFalls(r, strike, mark, spot, spot');
      }
    } else {
      var strike, spot' := SteepFalls(r);
    }
  }
}
