/**
 The checked computation of the margin requirement refines the one over unbounded
 integers: exactly when for a line, and under a bound on an account's exposure for
 the whole check.
 */
module MarginCheck {
  import opened MachineInts
  import opened MarginPerLot
  import opened MarginBounds
  import opened Sums
  import opened MarginAccounts

  // ----- one line -----

  predicate LotComputes(r: Rates, spot: nat, strike: nat, mark: nat, kind: Kind, side: Side) {
    && Supported(kind, side)
    && (DividesBySpot(kind, side) ==> 0 < spot)
    && LotMargin(r, spot, strike, mark, kind, side) < U64
  }

  predicate InitialComputes(l: Line, spot: nat, p: MarginParameters) {
    l.product.strike.Some? ==>
      var r, strike, kind := InitialRates(p), l.product.strike.value, l.product.kind;
      && (0 < l.held.openingBids ==> LotComputes(r, spot, strike, l.mark, kind, Bid))
      && (0 < l.held.openingAsks ==> LotComputes(r, spot, strike, l.mark, kind, Ask))
      && InitialMargin(l, spot, p) < U64
  }

  predicate MaintenanceComputes(l: Line, spot: nat, p: MarginParameters) {
    l.product.strike.Some? && l.held.position != 0 ==>
      var side, strike := SideHeld(l.held.position), l.product.strike.value;
      && LotComputes(MaintenanceRates(p), spot, strike, l.mark, l.product.kind, side)
      && MaintenanceMargin(l, spot, p) < U64
      && (l.held.position == -I64 ==> LotMargin(MaintenanceRates(p), spot, strike, l.mark, l.product.kind, side) == 0)
  }

  lemma DemandIsExact(r: Rates, size: u64, spot: u64, strike: u64, mark: u64, kind: Kind, side: Side)
    ensures CheckedDemand(size, CheckedLotMargin(r, spot, strike, mark, kind, side)) ==
            if 0 < size && !LotComputes(r, spot, strike, mark, kind, side) then Panic
            else Ok(size * LotMargin(r, spot, strike, mark, kind, side))
  {
    LotMarginRefines(r, spot, strike, mark, kind, side);
    if LotComputes(r, spot, strike, mark, kind, side) {
      MulFits128(size, LotMargin(r, spot, strike, mark, kind, side));
    }
  }

  /** For every line, the initial margin comes out exactly when it can be computed at all, and then exact. */
  lemma InitialMarginRefines(l: Line, spot: u64, p: MarginParameters)
    ensures CheckedInitialMargin(l, spot, p) ==
            if InitialComputes(l, spot, p) then Ok(InitialMargin(l, spot, p)) else Panic
  {
    if l.product.strike.Some? {
      DemandIsExact(InitialRates(p), l.held.openingBids, spot, l.product.strike.value, l.mark, l.product.kind, Bid);
      DemandIsExact(InitialRates(p), l.held.openingAsks, spot, l.product.strike.value, l.mark, l.product.kind, Ask);
    }
  }

  /** The same for the maintenance margin; the least i64 position only survives a margin of zero. */
  lemma MaintenanceMarginRefines(l: Line, spot: u64, p: MarginParameters)
    ensures CheckedMaintenanceMargin(l, spot, p) ==
            if MaintenanceComputes(l, spot, p) then Ok(MaintenanceMargin(l, spot, p)) else Panic
  {
    if l.product.strike.Some? && l.held.position != 0 {
      var side, strike := SideHeld(l.held.position), l.product.strike.value;
      var lot := LotMargin(MaintenanceRates(p), spot, strike, l.mark, l.product.kind, side);
      LotMarginRefines(MaintenanceRates(p), spot, strike, l.mark, l.product.kind, side);
      if lot < U64 {
        WordDemand(l.held.position, lot);
      }
    }
  }

  lemma WordDemand(position: i64, lot: nat)
    requires lot < U64
    ensures position != -I64 ==> AbsWord(position) * lot == Abs(position) * lot < U128
    ensures position == -I64 && 0 < lot ==> LOTS * U64 <= AbsWord(position) * lot
    ensures lot == 0 ==> AbsWord(position) * lot == Abs(position) * lot == 0
  {
    if position != -I64 {
      MulFits128(Abs(position), lot);
    } else if 0 < lot {
      MulMono(U128 - I64, 1, U128 - I64, lot);
    }
  }

  lemma PnlRefines(l: Line)
    ensures CheckedUnrealizedPnl(l) == ToI64(UnrealizedPnl(l))
  {
    if l.held.position == 0 {
      assert l.held.position * l.mark == 0;
    }
  }

  // ----- all lines -----

  predicate LineComputes(l: Line, spot: nat, p: MarginParameters) {
    InitialComputes(l, spot, p) && MaintenanceComputes(l, spot, p) && PnlComputes(l)
  }

  predicate AllCompute(ls: seq<Line>, spot: nat, p: MarginParameters) {
    forall i :: 0 <= i < |ls| ==> LineComputes(ls[i], spot, p)
  }

  lemma {:induction false} SumU64Is(terms: seq<Machine<u64>>, exact: seq<int>, computes: seq<bool>)
    requires |terms| == |exact| == |computes|
    requires forall i :: 0 <= i < |terms| ==> terms[i] == if computes[i] then Ok(Wrap64(exact[i])) else Panic
    ensures SumU64(terms) == if forall i :: 0 <= i < |computes| ==> computes[i] then Ok(Wrap64(Sum(exact))) else Panic
  {
    if terms != [] {
      SumU64Is(terms[1..], exact[1..], computes[1..]);
      assert forall i :: 0 < i < |computes| ==> computes[i] == computes[1..][i - 1];
      WrapSteps(exact[0], Wrap64(Sum(exact[1..])));
      WrapSteps(Sum(exact[1..]), exact[0]);
    }
  }

  lemma {:induction false} SumI64Is(terms: seq<Machine<i64>>, exact: seq<int>, computes: seq<bool>)
    requires |terms| == |exact| == |computes|
    requires forall i :: 0 <= i < |terms| ==> terms[i] == if computes[i] then Ok(WrapI64(exact[i])) else Panic
    ensures SumI64(terms) == if forall i :: 0 <= i < |computes| ==> computes[i] then Ok(WrapI64(Sum(exact))) else Panic
  {
    if terms != [] {
      SumI64Is(terms[1..], exact[1..], computes[1..]);
      assert forall i :: 0 < i < |computes| ==> computes[i] == computes[1..][i - 1];
      WrapI64Steps(exact[0], WrapI64(Sum(exact[1..])));
      WrapI64Steps(Sum(exact[1..]), exact[0]);
    }
  }

  lemma InitialTotalIs(ls: seq<Line>, spot: u64, p: MarginParameters)
    ensures CheckedInitialTotal(ls, spot, p) ==
            if forall i :: 0 <= i < |ls| ==> InitialComputes(ls[i], spot, p)
            then Ok(Wrap64(Sum(InitialMargins(ls, spot, p)))) else Panic
  {
    var terms := seq(|ls|, i requires 0 <= i < |ls| => CheckedInitialMargin(ls[i], spot, p));
    var computes := seq(|ls|, i requires 0 <= i < |ls| => InitialComputes(ls[i], spot, p));
    forall i | 0 <= i < |ls|
      ensures terms[i] == if computes[i] then Ok(Wrap64(InitialMargins(ls, spot, p)[i])) else Panic
    {
      InitialTerm(ls[i], spot, p);
    }
    SumU64Is(terms, InitialMargins(ls, spot, p), computes);
    assert forall i :: 0 <= i < |ls| ==> computes[i] == InitialComputes(ls[i], spot, p);
  }

  lemma InitialTerm(l: Line, spot: u64, p: MarginParameters)
    ensures CheckedInitialMargin(l, spot, p) ==
            if InitialComputes(l, spot, p) then Ok(Wrap64(InitialMargin(l, spot, p))) else Panic
  {
    InitialMarginRefines(l, spot, p);
  }

  lemma MaintenanceTotalIs(ls: seq<Line>, spot: u64, p: MarginParameters)
    ensures CheckedMaintenanceTotal(ls, spot, p) ==
            if forall i :: 0 <= i < |ls| ==> MaintenanceComputes(ls[i], spot, p)
            then Ok(Wrap64(Sum(MaintenanceMargins(ls, spot, p)))) else Panic
  {
    var terms := seq(|ls|, i requires 0 <= i < |ls| => CheckedMaintenanceMargin(ls[i], spot, p));
    var computes := seq(|ls|, i requires 0 <= i < |ls| => MaintenanceComputes(ls[i], spot, p));
    forall i | 0 <= i < |ls|
      ensures terms[i] == if computes[i] then Ok(Wrap64(MaintenanceMargins(ls, spot, p)[i])) else Panic
    {
      MaintenanceTerm(ls[i], spot, p);
    }
    SumU64Is(terms, MaintenanceMargins(ls, spot, p), computes);
    assert forall i :: 0 <= i < |ls| ==> computes[i] == MaintenanceComputes(ls[i], spot, p);
  }

  lemma MaintenanceTerm(l: Line, spot: u64, p: MarginParameters)
    ensures CheckedMaintenanceMargin(l, spot, p) ==
            if MaintenanceComputes(l, spot, p) then Ok(Wrap64(MaintenanceMargin(l, spot, p))) else Panic
  {
    MaintenanceMarginRefines(l, spot, p);
  }

  predicate PnlComputes(l: Line) {
    -I64 <= UnrealizedPnl(l) < I64
  }

  lemma PnlTotalIs(ls: seq<Line>)
    ensures CheckedPnlTotal(ls) ==
            if forall i :: 0 <= i < |ls| ==> PnlComputes(ls[i]) then Ok(WrapI64(Sum(Pnls(ls)))) else Panic
  {
    var terms := seq(|ls|, i requires 0 <= i < |ls| => CheckedUnrealizedPnl(ls[i]));
    var computes := seq(|ls|, i requires 0 <= i < |ls| => PnlComputes(ls[i]));
    forall i | 0 <= i < |ls|
      ensures terms[i] == if computes[i] then Ok(WrapI64(Pnls(ls)[i])) else Panic
    {
      PnlTerm(ls[i]);
    }
    SumI64Is(terms, Pnls(ls), computes);
    assert forall i :: 0 <= i < |ls| ==> computes[i] == PnlComputes(ls[i]);
  }

  lemma PnlTerm(l: Line)
    ensures CheckedUnrealizedPnl(l) == if PnlComputes(l) then Ok(WrapI64(UnrealizedPnl(l))) else Panic
  {
    PnlRefines(l);
    WrapI64Steps(UnrealizedPnl(l), 0);
  }

  /** No sum over the markets leaves its range. */
  predicate SumsFit(ls: seq<Line>, spot: nat, p: MarginParameters) {
    0 <= Sum(InitialMargins(ls, spot, p)) < U64 && 0 <= Sum(MaintenanceMargins(ls, spot, p)) < U64 &&
    -I64 <= Sum(Pnls(ls)) < I64
  }

  /** The account's funds and requirement stay within i64, and so does their difference. */
  predicate FundsFit(balance: u64, pnl: int, requirement: int) {
    requirement < I64 && balance < I64 && balance + pnl < I64 && -I64 <= balance + pnl - requirement
  }

  lemma DecideIs(balance: u64, pnl: i64, initial: u64, maintenance: u64)
    ensures Decide(balance, Ok(pnl), Ok(initial), Ok(maintenance)) ==
            if FundsFit(balance, pnl, initial + maintenance)
            then Ok(balance + pnl - initial - maintenance > 0) else Panic
  {
  }

  /** What the check compares with zero: the balance with the totals as they have wrapped. */
  function CheckWord(a: MarginAccount, m: Markets, spot: nat): int
    requires SameMarkets(a, m)
  {
    var ls, p := Lines(a, m), m.parameters;
    a.balance + WrapI64(Sum(Pnls(ls))) - Wrap64(Sum(InitialMargins(ls, spot, p))) -
    Wrap64(Sum(MaintenanceMargins(ls, spot, p)))
  }

  /** The check comes to an answer: every line is computed, and the wrapped totals can be settled. */
  predicate CheckAnswers(a: MarginAccount, m: Markets, spot: nat)
    requires SameMarkets(a, m)
  {
    var ls, p := Lines(a, m), m.parameters;
    && AllCompute(ls, spot, p)
    && FundsFit(a.balance, WrapI64(Sum(Pnls(ls))),
                Wrap64(Sum(InitialMargins(ls, spot, p))) + Wrap64(Sum(MaintenanceMargins(ls, spot, p))))
  }

  /** For every account, what the check ends in, sums wrapped as they are. */
  lemma CheckIs(a: MarginAccount, m: Markets, spot: u64)
    requires SameMarkets(a, m)
    ensures CheckMarginRequirement(a, m, spot) ==
            if CheckAnswers(a, m, spot) then Ok(CheckWord(a, m, spot) > 0) else Panic
  {
    var ls, p := Lines(a, m), m.parameters;
    InitialTotalIs(ls, spot, p);
    MaintenanceTotalIs(ls, spot, p);
    PnlTotalIs(ls);
    AllComputeIff(ls, spot, p);
    DecideIs(a.balance, WrapI64(Sum(Pnls(ls))), Wrap64(Sum(InitialMargins(ls, spot, p))),
             Wrap64(Sum(MaintenanceMargins(ls, spot, p))));
  }

  /** The buffer and its 64-bit word are on the same side of zero. */
  predicate SignSurvives(buffer: int) {
    0 < buffer <==> 0 < buffer % U64 < I64
  }

  /** What the check compares with zero is the exact buffer as a word, whichever of the sums wrapped. */
  lemma WrappedBuffer(balance: u64, pnl: int, initial: int, maintenance: int)
    ensures var word := balance + WrapI64(pnl) - Wrap64(initial) - Wrap64(maintenance);
            var buffer := balance + pnl - initial - maintenance;
            -I64 <= word < I64 ==> word == WrapI64(buffer) && (word > 0 <==> 0 < buffer % U64 < I64)
  {
    var k := WrapsI64(pnl);
    var i := Wraps64(initial);
    var n := Wraps64(maintenance);
    WordIs(balance + pnl - initial - maintenance, i + n - k);
    ResidueSign(balance + pnl - initial - maintenance);
  }

  lemma Wraps64(x: int) returns (k: int)
    ensures Wrap64(x) == x - k * U64
  {
    k := x / U64;
  }

  lemma WrapsI64(x: int) returns (k: int)
    ensures WrapI64(x) == x - k * U64
  {
    k := (x + I64) / U64;
  }

  lemma WordIs(x: int, k: int)
    ensures -I64 <= x + k * U64 < I64 ==> WrapI64(x) == x + k * U64
  {
    var n := WrapsI64(x);
  }

  lemma ResidueSign(x: int)
    ensures WrapI64(x) > 0 <==> 0 < x % U64 < I64
  {
    var n := WrapsI64(x);
    var k := Wraps64(x);
  }

  lemma AnsweredWord(a: MarginAccount, m: Markets, spot: u64)
    requires SameMarkets(a, m)
    ensures var word, buffer := CheckWord(a, m, spot), Buffer(a, m, spot);
            CheckAnswers(a, m, spot) ==> word == WrapI64(buffer) && (word > 0 <==> 0 < buffer % U64 < I64)
  {
    var ls, p := Lines(a, m), m.parameters;
    WrappedBuffer(a.balance, Sum(Pnls(ls)), Sum(InitialMargins(ls, spot, p)), Sum(MaintenanceMargins(ls, spot, p)));
  }

  lemma RightExactlyIf(check: Machine<bool>, answers: bool, word: int, buffer: int)
    requires check == if answers then Ok(word > 0) else Panic
    requires answers ==> word == WrapI64(buffer) && (word > 0 <==> 0 < buffer % U64 < I64)
    ensures check.Ok? <==> answers
    ensures check.Ok? ==> check.value == (WrapI64(buffer) > 0)
    ensures check == Ok(buffer > 0) <==> answers && SignSurvives(buffer)
    ensures answers && -I64 <= buffer < I64 ==> check == Ok(buffer > 0)
  {
  }

  /**
   Exactly when the account passes iff it is funded: the check comes to an answer, and the
   sign of the buffer survives in 64 bits.  Every answer is the sign of the buffer's 64-bit
   word; so every answer about a buffer within i64 is right, even where single sums wrap.
   */
  lemma CheckRefines(a: MarginAccount, m: Markets, spot: u64)
    requires SameMarkets(a, m)
    ensures var check, buffer := CheckMarginRequirement(a, m, spot), Buffer(a, m, spot);
            && (check.Ok? <==> CheckAnswers(a, m, spot))
            && (check.Ok? ==> check.value == (WrapI64(buffer) > 0))
            && (check == Ok(buffer > 0) <==> CheckAnswers(a, m, spot) && SignSurvives(buffer))
            && (CheckAnswers(a, m, spot) && -I64 <= buffer < I64 ==> check == Ok(buffer > 0))
  {
    CheckIs(a, m, spot);
    AnsweredWord(a, m, spot);
    RightExactlyIf(CheckMarginRequirement(a, m, spot), CheckAnswers(a, m, spot),
                   CheckWord(a, m, spot), Buffer(a, m, spot));
  }

  /** Where no sum wraps, the check answers exactly when everything fits as it is, and then correctly. */
  lemma CheckWithoutWrap(a: MarginAccount, m: Markets, spot: u64)
    requires SameMarkets(a, m) && SumsFit(Lines(a, m), spot, m.parameters)
    ensures var ls, p := Lines(a, m), m.parameters;
            var requirement := Sum(InitialMargins(ls, spot, p)) + Sum(MaintenanceMargins(ls, spot, p));
            CheckMarginRequirement(a, m, spot) ==
              if AllCompute(ls, spot, p) && FundsFit(a.balance, Sum(Pnls(ls)), requirement)
              then Ok(Buffer(a, m, spot) > 0) else Panic
  {
    var ls, p := Lines(a, m), m.parameters;
    var pnl, initial, maintenance :=
      Sum(Pnls(ls)), Sum(InitialMargins(ls, spot, p)), Sum(MaintenanceMargins(ls, spot, p));
    CheckIs(a, m, spot);
    WordsFit(pnl, initial, maintenance);
  }

  lemma WordsFit(pnl: int, initial: int, maintenance: int)
    ensures -I64 <= pnl < I64 ==> WrapI64(pnl) == pnl
    ensures 0 <= initial < U64 ==> Wrap64(initial) == initial
    ensures 0 <= maintenance < U64 ==> Wrap64(maintenance) == maintenance
  {
  }

  lemma AllComputeIff(ls: seq<Line>, spot: nat, p: MarginParameters)
    ensures AllCompute(ls, spot, p) <==>
              && (forall i :: 0 <= i < |ls| ==> InitialComputes(ls[i], spot, p))
              && (forall i :: 0 <= i < |ls| ==> MaintenanceComputes(ls[i], spot, p))
              && (forall i :: 0 <= i < |ls| ==> PnlComputes(ls[i]))
  {
  }

  // ----- a bound on the inputs -----

  /** Everything a line holds or has on order at the higher of its two prices, and its cost, in thousandths. */
  function Exposure(l: Line, spot: nat): nat {
    (l.held.openingBids + l.held.openingAsks + Abs(l.held.position)) * Max(spot, l.mark) + LOTS * l.held.costOfTrades
  }

  function Exposures(ls: seq<Line>, spot: nat): (r: seq<int>)
    ensures |r| == |ls|
  {
    seq(|ls|, i requires 0 <= i < |ls| => Exposure(ls[i], spot))
  }

  /** The margin computations apply to the line: its kind is set if its strike is, and its position can be negated. */
  predicate WellFormed(l: Line) {
    (l.product.strike.Some? ==> !l.product.kind.UninitializedKind?) && l.held.position != -I64
  }

  lemma LotsBelowSpot(r: Rates, size: nat, spot: nat, strike: nat, mark: nat, kind: Kind, side: Side)
    requires WithinWhole(r)
    ensures Demand(size, LotMargin(r, spot, strike, mark, kind, side)) <= Demand(size, spot)
  {
    LotMarginBelowPrices(r, spot, strike, mark, kind, side);
    MulMono(size, LotMargin(r, spot, strike, mark, kind, side), size, spot);
  }

  lemma DemandAdds(x: nat, y: nat, lot: nat)
    ensures Demand(x + y, lot) == Demand(x, lot) + Demand(y, lot)
  {
  }

  /** With initial percentages up to 100%, what a line's orders require is at most their size at spot. */
  lemma OrdersBelowSpot(l: Line, spot: nat, p: MarginParameters)
    requires WithinWhole(InitialRates(p))
    ensures OrdersDemand(l, spot, p) <= Demand(l.held.openingBids + l.held.openingAsks, spot)
  {
    var r, bids, asks := InitialRates(p), l.held.openingBids, l.held.openingAsks;
    DemandAdds(bids, asks, spot);
    if l.product.strike.Some? {
      LotsBelowSpot(r, bids, spot, l.product.strike.value, l.mark, l.product.kind, Bid);
      LotsBelowSpot(r, asks, spot, l.product.strike.value, l.mark, l.product.kind, Ask);
    }
  }

  /** With maintenance percentages up to 100%, what a position requires is at most its size at spot. */
  lemma PositionBelowSpot(l: Line, spot: nat, p: MarginParameters)
    requires WithinWhole(MaintenanceRates(p))
    ensures PositionDemand(l, spot, p) <= Demand(Abs(l.held.position), spot)
  {
    var r, size, side := MaintenanceRates(p), Abs(l.held.position), SideHeld(l.held.position);
    if l.product.strike.Some? {
      LotsBelowSpot(r, size, spot, l.product.strike.value, l.mark, l.product.kind, side);
    }
  }

  /** Truncation brings a quotient closer to zero, and keeps its sign. */
  lemma QuotientTruncates(x: int)
    ensures LOTS * Abs(Quotient(x, LOTS)) <= Abs(x)
  {
  }

  lemma AbsProduct(x: int, y: nat)
    ensures Abs(x * y) == Abs(x) * y
  {
    MulMono(0, 0, Abs(x), y);
    assert (-x) * y == -(x * y);
  }

  lemma PnlBelowMark(l: Line)
    ensures LOTS * Abs(UnrealizedPnl(l)) <= Abs(l.held.position) * l.mark + LOTS * l.held.costOfTrades
  {
    var value := l.held.position * l.mark;
    AbsProduct(l.held.position, l.mark);
    QuotientTruncates(value);
    TriangleOfLots(Quotient(value, LOTS), SignedCost(l.held), l.held.costOfTrades);
  }

  lemma TriangleOfLots(x: int, y: int, bound: nat)
    requires Abs(y) <= bound
    ensures LOTS * Abs(x - y) <= LOTS * Abs(x) + LOTS * bound
  {
  }

  lemma ExposureCovers(l: Line, spot: nat, p: MarginParameters)
    requires WithinWhole(InitialRates(p)) && WithinWhole(MaintenanceRates(p))
    ensures LOTS * (InitialMargin(l, spot, p) + MaintenanceMargin(l, spot, p)) <= Exposure(l, spot)
    ensures LOTS * Abs(UnrealizedPnl(l)) <= Exposure(l, spot)
  {
    OrdersBelowSpot(l, spot, p);
    PositionBelowSpot(l, spot, p);
    PnlBelowMark(l);
    ExposureSplits(l.held.openingBids + l.held.openingAsks, Abs(l.held.position), spot, l.mark);
  }

  lemma ExposureSplits(orders: nat, size: nat, spot: nat, mark: nat)
    ensures orders * spot + size * spot <= (orders + size) * Max(spot, mark)
    ensures size * mark <= (orders + size) * Max(spot, mark)
  {
    var price := Max(spot, mark);
    MulMono(orders + size, spot, orders + size, price);
    MulMono(size, mark, orders + size, price);
    assert (orders + size) * spot == orders * spot + size * spot;
  }

  /**
   For every account whose total exposure, doubled, and balance together stay within the i64
   range, at a nonzero spot and with percentages up to 100%: no checked operation and no
   conversion fails, nothing wraps, and the account passes exactly when balance plus profit
   exceeds the sum of its initial and maintenance margins.
   */
  lemma BoundedExposureChecks(a: MarginAccount, m: Markets, spot: u64)
    requires SameMarkets(a, m) && 0 < spot
    requires WithinWhole(InitialRates(m.parameters)) && WithinWhole(MaintenanceRates(m.parameters))
    requires forall i :: 0 <= i < |Lines(a, m)| ==> WellFormed(Lines(a, m)[i])
    requires 2 * Sum(Exposures(Lines(a, m), spot)) + LOTS * a.balance < LOTS * I64
    ensures CheckMarginRequirement(a, m, spot) == Ok(Buffer(a, m, spot) > 0)
  {
    var ls, p := Lines(a, m), m.parameters;
    forall i | 0 <= i < |ls|
      ensures LOTS * (InitialMargin(ls[i], spot, p) + MaintenanceMargin(ls[i], spot, p)) <= Exposure(ls[i], spot)
      ensures LOTS * Abs(UnrealizedPnl(ls[i])) <= Exposure(ls[i], spot)
    {
      ExposureCovers(ls[i], spot, p);
    }
    SumsWithinWeights(InitialMargins(ls, spot, p), MaintenanceMargins(ls, spot, p), Pnls(ls), Exposures(ls, spot));
    forall i | 0 <= i < |ls|
      ensures LineComputes(ls[i], spot, p)
    {
      assert Exposures(ls, spot)[i] <= Sum(Exposures(ls, spot));
      WellFormedLineComputes(ls[i], spot, p);
    }
    CheckWithoutWrap(a, m, spot);
  }

  lemma WellFormedLineComputes(l: Line, spot: u64, p: MarginParameters)
    requires 0 < spot && WellFormed(l)
    requires WithinWhole(InitialRates(p)) && WithinWhole(MaintenanceRates(p))
    requires LOTS * (InitialMargin(l, spot, p) + MaintenanceMargin(l, spot, p)) < LOTS * I64
    requires LOTS * Abs(UnrealizedPnl(l)) < LOTS * I64
    ensures LineComputes(l, spot, p)
  {
    if l.product.strike.Some? {
      var strike := l.product.strike.value;
      LotMarginBelowPrices(InitialRates(p), spot, strike, l.mark, l.product.kind, Bid);
      LotMarginBelowPrices(InitialRates(p), spot, strike, l.mark, l.product.kind, Ask);
      LotMarginBelowPrices(MaintenanceRates(p), spot, strike, l.mark, l.product.kind, SideHeld(l.held.position));
    }
  }
}
