/**
 Margin per lot: the checked u128 computation of the program, the same quantity over
 unbounded integers, and exactly when the first yields the second.

 The program writes the initial and the maintenance margin as two functions of one
 shape over different parameter fields; here the fields are collected in `Rates`.
 */
module MarginPerLot {
  import opened MachineInts

  const NATIVE: nat := 100_000_000  // 100%, in fixed-point percentages

  datatype Kind = UninitializedKind | Call | Put | Future
  datatype Side = UninitializedSide | Bid | Ask

  datatype MarginParameters = MarginParameters(
    futureMarginInitial: u64,
    futureMarginMaintenance: u64,
    optionMarkPercentageLongInitial: u64,
    optionSpotPercentageLongInitial: u64,
    optionSpotPercentageShortInitial: u64,
    optionDynamicPercentageShortInitial: u64,
    optionMarkPercentageLongMaintenance: u64,
    optionSpotPercentageLongMaintenance: u64,
    optionSpotPercentageShortMaintenance: u64,
    optionDynamicPercentageShortMaintenance: u64,
    optionShortPutCapPercentage: u64)

  /** The percentages that one of the two margins uses. */
  datatype Rates = Rates(future: u64, markLong: u64, spotLong: u64, spotShort: u64, dynamicShort: u64, putCap: u64)

  function InitialRates(p: MarginParameters): Rates {
    Rates(p.futureMarginInitial, p.optionMarkPercentageLongInitial, p.optionSpotPercentageLongInitial,
          p.optionSpotPercentageShortInitial, p.optionDynamicPercentageShortInitial, p.optionShortPutCapPercentage)
  }

  function MaintenanceRates(p: MarginParameters): Rates {
    Rates(p.futureMarginMaintenance, p.optionMarkPercentageLongMaintenance, p.optionSpotPercentageLongMaintenance,
          p.optionSpotPercentageShortMaintenance, p.optionDynamicPercentageShortMaintenance,
          p.optionShortPutCapPercentage)
  }

  predicate WithinWhole(r: Rates) {
    r.future <= NATIVE && r.markLong <= NATIVE && r.spotLong <= NATIVE &&
    r.spotShort <= NATIVE && r.dynamicShort <= NATIVE && r.putCap <= NATIVE
  }

  // ----- over unbounded integers -----

  function Portion(amount: nat, percentage: nat): nat {
    amount * percentage / NATIVE
  }

  /** How far out of the money the option is. */
  function OtmAmount(spot: nat, strike: nat, kind: Kind): nat {
    match kind
    case Call => Max(strike - spot, 0)
    case Put => Max(spot - strike, 0)
    case _ => 0
  }

  /** The same as a percentage of spot. At spot zero, where the program divides by zero, it is taken to be zero. */
  function OtmPercentage(otm: nat, spot: nat): nat {
    if spot == 0 then 0 else otm * NATIVE / spot
  }

  /** The dynamic percentage less the out-of-the-money one, saturating, but no less than the spot percentage. */
  function ShortPercentage(r: Rates, otmPercentage: nat): nat {
    Max(Max(r.dynamicShort - otmPercentage, 0), r.spotShort)
  }

  function ShortMargin(r: Rates, spot: nat, otm: nat): nat {
    Portion(spot, ShortPercentage(r, OtmPercentage(otm, spot)))
  }

  function LotMargin(r: Rates, spot: nat, strike: nat, mark: nat, kind: Kind, side: Side): nat {
    match kind
    case UninitializedKind => 0
    case Future => Portion(spot, r.future)
    case Call => OptionMargin(r, spot, strike, mark, kind, side)
    case Put =>
      var m := OptionMargin(r, spot, strike, mark, kind, side);
      if side == Ask then Min(m, Portion(strike, r.putCap)) else m
  }

  function OptionMargin(r: Rates, spot: nat, strike: nat, mark: nat, kind: Kind, side: Side): nat {
    match side
    case UninitializedSide => 0
    case Bid => Min(Portion(spot, r.spotLong), Portion(mark, r.markLong))
    case Ask => ShortMargin(r, spot, OtmAmount(spot, strike, kind))
  }

  // ----- as the program computes it -----

  function CheckedPortion(amount: u64, percentage: u64): Machine<nat> {
    var product :- Mul128(amount, percentage);
    Div128(product, NATIVE)
  }

  /** `get_otm_amount`; the i128 subtraction cannot overflow. */
  function CheckedOtmAmount(spot: u64, strike: u64, kind: Kind): Machine<u64> {
    match kind
    case Call => ToU64(Max(strike - spot, 0))
    case Put => ToU64(Max(spot - strike, 0))
    case _ => Err(UnsupportedKind)
  }

  function CheckedShortMargin(r: Rates, spot: u64, strike: u64, kind: Kind): Machine<nat> {
    var otm :- CheckedOtmAmount(spot, strike, kind);
    var scaled :- Mul128(otm, NATIVE);
    var otmPercentage :- Div128(scaled, spot);
    var dynamicPercentage := if otmPercentage <= r.dynamicShort then r.dynamicShort - otmPercentage else 0;
    var product :- Mul128(Max(dynamicPercentage, r.spotShort), spot);
    Div128(product, NATIVE)
  }

  function CheckedLongMargin(r: Rates, spot: u64, mark: u64): Machine<nat> {
    var ofSpot :- CheckedPortion(spot, r.spotLong);
    var ofMark :- CheckedPortion(mark, r.markLong);
    Ok(Min(ofSpot, ofMark))
  }

  function CheckedLotMargin(r: Rates, spot: u64, strike: u64, mark: u64, kind: Kind, side: Side): Machine<u64> {
    var margin: nat :-
      match kind
      case UninitializedKind => Err(UnsupportedKind)
      case Future => CheckedPortion(spot, r.future)
      case _ =>
        match side
        case UninitializedSide => Panic
        case Bid => CheckedLongMargin(r, spot, mark)
        case Ask => CheckedShortMargin(r, spot, strike, kind);
    if kind == Put && side == Ask then
      var cap :- CheckedPortion(strike, r.putCap);
      ToU64(Min(margin, cap))
    else
      ToU64(margin)
  }

  /** `get_initial_margin_per_lot`. */
  function InitialMarginPerLot(spot: u64, strike: u64, mark: u64, kind: Kind, side: Side,
                               p: MarginParameters): Machine<u64>
  {
    CheckedLotMargin(InitialRates(p), spot, strike, mark, kind, side)
  }

  /** `get_maintenance_margin_per_lot`. */
  function MaintenanceMarginPerLot(spot: u64, strike: u64, mark: u64, kind: Kind, long: bool,
                                   p: MarginParameters): Machine<u64>
  {
    CheckedLotMargin(MaintenanceRates(p), spot, strike, mark, kind, if long then Bid else Ask)
  }

  // ----- the first is the second -----

  lemma PortionIsExact(amount: u64, percentage: u64)
    ensures CheckedPortion(amount, percentage) == Ok(Portion(amount, percentage))
  {
    MulFits128(amount, percentage);
  }

  lemma ShortMarginIsExact(r: Rates, spot: u64, strike: u64, kind: Kind)
    requires kind.Call? || kind.Put?
    ensures CheckedShortMargin(r, spot, strike, kind) ==
            if spot == 0 then Panic else Ok(ShortMargin(r, spot, OtmAmount(spot, strike, kind)))
  {
    var otm := OtmAmount(spot, strike, kind);
    MulFits128(otm, NATIVE);
    if 0 < spot {
      var otmPercentage := OtmPercentage(otm, spot);
      DivGalois(0, otm * NATIVE, spot);
      var percentage := ShortPercentage(r, otmPercentage);
      MulFits128(percentage, spot);
      assert percentage * spot == spot * percentage;
    }
  }

  /** The kinds and sides the program computes a margin for. */
  predicate Supported(kind: Kind, side: Side) {
    kind.Future? || ((kind.Call? || kind.Put?) && !side.UninitializedSide?)
  }

  predicate DividesBySpot(kind: Kind, side: Side) {
    (kind.Call? || kind.Put?) && side.Ask?
  }

  /**
   For every input, what the checked computation ends in: a value exactly when kind and
   side are supported, a short option has a spot price, and the margin over unbounded
   integers fits 64 bits; and then that margin.
   */
  lemma LotMarginRefines(r: Rates, spot: u64, strike: u64, mark: u64, kind: Kind, side: Side)
    ensures var exact := LotMargin(r, spot, strike, mark, kind, side);
            CheckedLotMargin(r, spot, strike, mark, kind, side) ==
              if kind.UninitializedKind? then Err(UnsupportedKind)
              else if !Supported(kind, side) || (DividesBySpot(kind, side) && spot == 0) || U64 <= exact then Panic
              else Ok(exact)
  {
    PortionIsExact(spot, r.future);
    PortionIsExact(spot, r.spotLong);
    PortionIsExact(mark, r.markLong);
    PortionIsExact(strike, r.putCap);
    if kind.Call? || kind.Put? {
      ShortMarginIsExact(r, spot, strike, kind);
    }
  }
}
