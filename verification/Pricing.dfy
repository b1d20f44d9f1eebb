/** `calculate_pricing`: the recommended, fast-sale and minimum price of an item, with the
    profit the recommended price leaves after fees.  Amounts are in cents. */
module Pricing {
  import opened Money
  import opened Wrappers

  datatype Observation = Observation(price: real, isSold: bool)

  datatype PricingInputs = PricingInputs(
    costBasis: real,
    shippingCost: real,
    promotionCost: real,
    offerDiscount: real,
    minimumProfit: Option<real>,
    targetMargin: Option<real>,
    condition: string,
    isStale: bool,
    comparables: seq<Observation>)

  datatype PricingRules = PricingRules(
    targetMargin: real,
    minimumProfit: real,
    soldWeight: real,
    activeWeight: real,
    fastSaleFactor: real,
    conditionAdjustments: map<string, real>,
    staleAdjustment: real,
    sizeAdjustment: real)

  datatype FeeVersion = FeeVersion(feePercent: real, paymentPercent: real, fixedFee: real)

  datatype Warning = NoComparables | RaisedToMinimum

  datatype PricingResult = PricingResult(
    recommended: real,
    fastSale: real,
    minimum: real,
    netProceeds: real,
    profit: real,
    warnings: seq<Warning>)

  datatype PricingError = NoNetProceeds

  /** The field bounds the configuration and input models enforce before any pricing runs. */
  predicate Valid(inputs: PricingInputs, rules: PricingRules, fees: FeeVersion) {
    && inputs.costBasis >= 0.0 && inputs.shippingCost >= 0.0 && inputs.promotionCost >= 0.0
    && 0.0 <= inputs.offerDiscount < 1.0
    && (inputs.minimumProfit.Some? ==> inputs.minimumProfit.value >= 0.0)
    && (inputs.targetMargin.Some? ==> 0.0 <= inputs.targetMargin.value < 1.0)
    && (forall i :: 0 <= i < |inputs.comparables| ==> inputs.comparables[i].price > 0.0)
    && 0.0 <= rules.targetMargin < 1.0 && rules.minimumProfit >= 0.0
    && rules.soldWeight >= 0.0 && rules.activeWeight >= 0.0 && rules.soldWeight + rules.activeWeight > 0.0
    && 0.0 < rules.fastSaleFactor <= 1.0
    && fees.feePercent >= 0.0 && fees.paymentPercent >= 0.0 && fees.fixedFee >= 0.0
    && fees.feePercent + fees.paymentPercent < 1.0
  }

  function PriceSum(observations: seq<Observation>, sold: bool): real {
    if observations == [] then 0.0
    else PriceSum(observations[1..], sold) + if observations[0].isSold == sold then observations[0].price else 0.0
  }

  function PriceCount(observations: seq<Observation>, sold: bool): nat {
    if observations == [] then 0
    else PriceCount(observations[1..], sold) + if observations[0].isSold == sold then 1 else 0
  }

  /** The mean price of the sold, or of the active, comparables. */
  function MeanPrice(observations: seq<Observation>, sold: bool): Option<real> {
    var n := PriceCount(observations, sold);
    if n == 0 then None else Some(PriceSum(observations, sold) / n as real)
  }

  function Blend(sold: real, active: real, soldWeight: real, activeWeight: real): real
    requires soldWeight + activeWeight != 0.0
  {
    (sold * soldWeight + active * activeWeight) / (soldWeight + activeWeight)
  }

  function MarketPrice(inputs: PricingInputs, rules: PricingRules): Option<real>
    requires rules.soldWeight + rules.activeWeight != 0.0
  {
    var sold := MeanPrice(inputs.comparables, true);
    var active := MeanPrice(inputs.comparables, false);
    if sold.Some? && active.Some? then
      Some(Blend(sold.value, active.value, rules.soldWeight, rules.activeWeight))
    else if sold.Some? then sold
    else active
  }

  /** Without comparables: cost plus the target margin, where a margin of zero counts as not given. */
  function CostPlusPrice(inputs: PricingInputs, rules: PricingRules): real {
    var margin := if inputs.targetMargin.Some? && inputs.targetMargin.value != 0.0
                  then inputs.targetMargin.value else rules.targetMargin;
    if 1.0 - margin > 0.0 then inputs.costBasis / (1.0 - margin) else inputs.costBasis
  }

  function Adjusted(base: real, condition: real, size: real, stale: real): real {
    base * condition * size * stale
  }

  /** The recommended price before rounding and before the floor is applied. */
  function RawPrice(inputs: PricingInputs, rules: PricingRules): real
    requires rules.soldWeight + rules.activeWeight != 0.0
  {
    var market := MarketPrice(inputs, rules);
    var base := if market.Some? then market.value else CostPlusPrice(inputs, rules);
    var condition := if inputs.condition in rules.conditionAdjustments
                     then rules.conditionAdjustments[inputs.condition] else 1.0;
    Adjusted(base, condition, rules.sizeAdjustment, if inputs.isStale then rules.staleAdjustment else 1.0)
  }

  function MinimumProfit(inputs: PricingInputs, rules: PricingRules): real {
    if inputs.minimumProfit.Some? then inputs.minimumProfit.value else rules.minimumProfit
  }

  /** The share of the list price that is left after the expected offer discount and the fees. */
  function NetRate(inputs: PricingInputs, fees: FeeVersion): real {
    AfterFee(1.0 - inputs.offerDiscount, fees.feePercent + fees.paymentPercent)
  }

  function FixedCosts(inputs: PricingInputs, rules: PricingRules, fees: FeeVersion): real {
    fees.fixedFee + inputs.shippingCost + inputs.promotionCost + inputs.costBasis + MinimumProfit(inputs, rules)
  }

  function NetProceeds(price: real, inputs: PricingInputs, fees: FeeVersion): real {
    AfterFee(price * (1.0 - inputs.offerDiscount), fees.feePercent + fees.paymentPercent)
      - fees.fixedFee - inputs.shippingCost - inputs.promotionCost
  }

  /** The unrounded profit a list price leaves. */
  function Profit(price: real, inputs: PricingInputs, fees: FeeVersion): real {
    NetProceeds(price, inputs, fees) - inputs.costBasis
  }

  function FastSalePrice(recommended: real, minimum: real, rules: PricingRules): real {
    ToCents(Max(Discounted(recommended, rules.fastSaleFactor), minimum))
  }

  function Discounted(price: real, factor: real): (discounted: real)
    ensures price >= 0.0 && factor <= 1.0 ==> discounted <= price
  {
    assert price >= 0.0 && factor <= 1.0 ==> price * factor <= price by {
      if price >= 0.0 && factor <= 1.0 {
        ScaledDown(price, factor);
      }
    }
    price * factor
  }

  function CalculatePricing(inputs: PricingInputs, rules: PricingRules, fees: FeeVersion)
    : Result<PricingResult, PricingError>
    requires rules.soldWeight + rules.activeWeight != 0.0
  {
    var unfloored := ToCents(RawPrice(inputs, rules));
    if NetRate(inputs, fees) <= 0.0 then Err(NoNetProceeds) else
      var minimum := ToCents(FixedCosts(inputs, rules, fees) / NetRate(inputs, fees));
      var recommended := if unfloored < minimum then minimum else unfloored;
      var warnings := (if MarketPrice(inputs, rules).None? then [NoComparables] else [])
                      + (if unfloored < minimum then [RaisedToMinimum] else []);
      Ok(PricingResult(
           recommended,
           FastSalePrice(recommended, minimum, rules),
           minimum,
           ToCents(NetProceeds(recommended, inputs, fees)),
           ToCents(Profit(recommended, inputs, fees)),
           warnings))
  }

  // ---------------------------------------------------------------- arithmetic

  lemma RateInUnit(keep: real, fee: real)
    requires 0.0 < keep <= 1.0 && 0.0 <= fee < 1.0
    ensures 0.0 < AfterFee(keep, fee) <= 1.0
  {
    ProductPositive(keep, 1.0 - fee);
    ProductNonnegative(keep, fee);
  }

  lemma NetRateInUnit(inputs: PricingInputs, rules: PricingRules, fees: FeeVersion)
    requires Valid(inputs, rules, fees)
    ensures 0.0 < NetRate(inputs, fees) <= 1.0
  {
    RateInUnit(1.0 - inputs.offerDiscount, fees.feePercent + fees.paymentPercent);
  }

  /** The exact price at which the minimum profit is reached. */
  function ExactFloor(inputs: PricingInputs, rules: PricingRules, fees: FeeVersion): (floor: real)
    requires Valid(inputs, rules, fees)
    ensures NetRate(inputs, fees) > 0.0 && floor == FixedCosts(inputs, rules, fees) / NetRate(inputs, fees) && floor >= 0.0
  {
    NetRateInUnit(inputs, rules, fees);
    FixedCosts(inputs, rules, fees) / NetRate(inputs, fees)
  }

  /** Profit is linear in the price: it is the minimum profit at the exact floor price,
      and changes by the net rate per cent of price. */
  lemma ProfitIsLinear(price: real, inputs: PricingInputs, rules: PricingRules, fees: FeeVersion)
    requires Valid(inputs, rules, fees)
    ensures Profit(price, inputs, fees)
         == MinimumProfit(inputs, rules) + (price - ExactFloor(inputs, rules, fees)) * NetRate(inputs, fees)
  {
    NetRateInUnit(inputs, rules, fees);
    Distribute(price, 1.0 - inputs.offerDiscount, fees.feePercent + fees.paymentPercent);
    DivideBack(price, FixedCosts(inputs, rules, fees), NetRate(inputs, fees));
  }

  // ---------------------------------------------------------------- the market reference

  function Multiple(price: real, n: nat): real {
    price * n as real
  }

  lemma OneMore(price: real, n: nat)
    ensures Multiple(price, n + 1) == Multiple(price, n) + price
  {
    assert (n + 1) as real == n as real + 1.0;
  }

  lemma {:induction false} SumWithin(observations: seq<Observation>, sold: bool, low: real, high: real)
    requires forall i :: 0 <= i < |observations| ==> low <= observations[i].price <= high
    ensures var n := PriceCount(observations, sold);
            Multiple(low, n) <= PriceSum(observations, sold) <= Multiple(high, n)
  {
    if observations == [] {
      assert Multiple(low, 0) == 0.0 && Multiple(high, 0) == 0.0;
    } else {
      SumWithin(observations[1..], sold, low, high);
      OneMore(low, PriceCount(observations[1..], sold));
      OneMore(high, PriceCount(observations[1..], sold));
    }
  }

  lemma QuotientWithin(sum: real, n: real, low: real, high: real)
    requires n > 0.0 && low * n <= sum <= high * n
    ensures low <= sum / n <= high
  {
    var q := sum / n;
    assert q * n == sum;
    if q < low {
      ProductPositive(low - q, n);
    }
    if q > high {
      ProductPositive(q - high, n);
    }
  }

  lemma MeanWithin(observations: seq<Observation>, sold: bool, low: real, high: real)
    requires forall i :: 0 <= i < |observations| ==> low <= observations[i].price <= high
    requires MeanPrice(observations, sold).Some?
    ensures low <= MeanPrice(observations, sold).value <= high
  {
    SumWithin(observations, sold, low, high);
    QuotientWithin(PriceSum(observations, sold), PriceCount(observations, sold) as real, low, high);
  }

  lemma BlendWithin(x: real, y: real, wx: real, wy: real, low: real, high: real)
    requires wx >= 0.0 && wy >= 0.0 && wx + wy > 0.0 && low <= x <= high && low <= y <= high
    ensures low <= Blend(x, y, wx, wy) <= high
  {
    ProductNonnegative(x - low, wx);
    ProductNonnegative(y - low, wy);
    ProductNonnegative(high - x, wx);
    ProductNonnegative(high - y, wy);
    QuotientWithin(x * wx + y * wy, wx + wy, low, high);
  }

  /** The market reference lies within the range of the comparable prices, exists exactly when there
      are comparables, and ignores the kind whose weight is zero. */
  lemma MarketWithinComparables(inputs: PricingInputs, rules: PricingRules, fees: FeeVersion, low: real, high: real)
    requires Valid(inputs, rules, fees)
    requires forall i :: 0 <= i < |inputs.comparables| ==> low <= inputs.comparables[i].price <= high
    ensures MarketPrice(inputs, rules).Some? <==> inputs.comparables != []
    ensures MarketPrice(inputs, rules).Some? ==> low <= MarketPrice(inputs, rules).value <= high
    ensures MeanPrice(inputs.comparables, true).Some? && rules.activeWeight == 0.0 ==>
              MarketPrice(inputs, rules) == MeanPrice(inputs.comparables, true)
    ensures MeanPrice(inputs.comparables, false).Some? && rules.soldWeight == 0.0 ==>
              MarketPrice(inputs, rules) == MeanPrice(inputs.comparables, false)
  {
    var sold, active := MeanPrice(inputs.comparables, true), MeanPrice(inputs.comparables, false);
    CountsAll(inputs.comparables);
    if sold.Some? {
      MeanWithin(inputs.comparables, true, low, high);
    }
    if active.Some? {
      MeanWithin(inputs.comparables, false, low, high);
    }
    if sold.Some? && active.Some? {
      BlendWithin(sold.value, active.value, rules.soldWeight, rules.activeWeight, low, high);
      BlendOfOne(sold.value, active.value, rules.soldWeight, rules.activeWeight);
    }
  }

  lemma BlendOfOne(x: real, y: real, wx: real, wy: real)
    requires wx + wy > 0.0
    ensures wy == 0.0 ==> Blend(x, y, wx, wy) == x
    ensures wx == 0.0 ==> Blend(x, y, wx, wy) == y
  {
  }

  lemma {:induction false} CountsAll(observations: seq<Observation>)
    ensures PriceCount(observations, true) + PriceCount(observations, false) == |observations|
  {
    if observations != [] {
      CountsAll(observations[1..]);
    }
  }

  // ---------------------------------------------------------------- results

  /** A price less than half a cent under the exact floor misses the minimum profit by less than half a cent. */
  lemma ProfitNearFloor(price: real, inputs: PricingInputs, rules: PricingRules, fees: FeeVersion)
    requires Valid(inputs, rules, fees) && price > ExactFloor(inputs, rules, fees) - 0.5
    ensures Profit(price, inputs, fees) > MinimumProfit(inputs, rules) - 0.5
  {
    NetRateInUnit(inputs, rules, fees);
    ProfitIsLinear(price, inputs, rules, fees);
    ScaledAbove(price - ExactFloor(inputs, rules, fees), NetRate(inputs, fees), 0.5);
  }

  lemma ProfitUnderFloor(price: real, inputs: PricingInputs, rules: PricingRules, fees: FeeVersion)
    requires Valid(inputs, rules, fees) && price < ExactFloor(inputs, rules, fees)
    ensures Profit(price, inputs, fees) < MinimumProfit(inputs, rules)
  {
    NetRateInUnit(inputs, rules, fees);
    ProfitIsLinear(price, inputs, rules, fees);
    ProductPositive(ExactFloor(inputs, rules, fees) - price, NetRate(inputs, fees));
  }

  /** Under the configured bounds pricing never fails, its floor is the exact floor rounded
      half up, and it recommends whole cents at or above that floor. */
  lemma PricingSucceeds(inputs: PricingInputs, rules: PricingRules, fees: FeeVersion) returns (r: PricingResult)
    requires Valid(inputs, rules, fees)
    ensures CalculatePricing(inputs, rules, fees) == Ok(r)
    ensures r.minimum == ToCents(ExactFloor(inputs, rules, fees))
    ensures r.recommended == Max(ToCents(RawPrice(inputs, rules)), r.minimum)
    ensures r.fastSale == FastSalePrice(r.recommended, r.minimum, rules)
    ensures RaisedToMinimum in r.warnings <==> ToCents(RawPrice(inputs, rules)) < r.minimum
  {
    NetRateInUnit(inputs, rules, fees);
    r := CalculatePricing(inputs, rules, fees).value;
  }

  lemma RecommendedClearsFloor(inputs: PricingInputs, rules: PricingRules, fees: FeeVersion) returns (r: PricingResult)
    requires Valid(inputs, rules, fees)
    ensures CalculatePricing(inputs, rules, fees) == Ok(r)
    ensures 0.0 <= r.minimum <= r.recommended && WholeCents(r.minimum) && WholeCents(r.recommended)
    ensures Profit(r.recommended, inputs, fees) > MinimumProfit(inputs, rules) - 0.5
  {
    r := PricingSucceeds(inputs, rules, fees);
    var exact := ExactFloor(inputs, rules, fees);
    ToCentsError(exact);
    ToCentsMonotone(0.0, exact);
    ToCentsError(RawPrice(inputs, rules));
    ProfitNearFloor(r.recommended, inputs, rules, fees);
  }

  /** The reported profit is never below a whole-cent minimum profit, although both the floor
      price and the profit itself are rounded half up. */
  lemma ReportedProfitReachesMinimum(inputs: PricingInputs, rules: PricingRules, fees: FeeVersion)
    requires Valid(inputs, rules, fees)
    ensures CalculatePricing(inputs, rules, fees).Ok?
    ensures WholeCents(MinimumProfit(inputs, rules)) ==>
              CalculatePricing(inputs, rules, fees).value.profit >= MinimumProfit(inputs, rules)
  {
    var r := RecommendedClearsFloor(inputs, rules, fees);
    if WholeCents(MinimumProfit(inputs, rules)) {
      ToCentsReaches(Profit(r.recommended, inputs, fees), MinimumProfit(inputs, rules));
    }
  }

  /** The floor is tight: every price a cent or more under it misses the minimum profit. */
  lemma PricesUnderMinimumMiss(inputs: PricingInputs, rules: PricingRules, fees: FeeVersion, price: real)
    requires Valid(inputs, rules, fees)
    ensures CalculatePricing(inputs, rules, fees).Ok?
    ensures price <= CalculatePricing(inputs, rules, fees).value.minimum - 1.0 ==>
              Profit(price, inputs, fees) < MinimumProfit(inputs, rules)
  {
    var r := PricingSucceeds(inputs, rules, fees);
    ToCentsError(ExactFloor(inputs, rules, fees));
    if price <= r.minimum - 1.0 {
      ProfitUnderFloor(price, inputs, rules, fees);
    }
  }

  lemma PricesAreOrdered(inputs: PricingInputs, rules: PricingRules, fees: FeeVersion) returns (r: PricingResult)
    requires Valid(inputs, rules, fees)
    ensures CalculatePricing(inputs, rules, fees) == Ok(r)
    ensures 0.0 <= r.minimum <= r.fastSale <= r.recommended
  {
    r := RecommendedClearsFloor(inputs, rules, fees);
    var succeeded := PricingSucceeds(inputs, rules, fees);
    FastSaleBetween(r.recommended, r.minimum, rules);
  }

  lemma FastSaleBetween(recommended: real, minimum: real, rules: PricingRules)
    requires WholeCents(minimum) && WholeCents(recommended) && 0.0 <= minimum <= recommended
    requires 0.0 < rules.fastSaleFactor <= 1.0
    ensures minimum <= FastSalePrice(recommended, minimum, rules) <= recommended
  {
    FlooredBetween(Discounted(recommended, rules.fastSaleFactor), minimum, recommended);
  }

  lemma FlooredBetween(discounted: real, minimum: real, recommended: real)
    requires WholeCents(minimum) && WholeCents(recommended)
    requires discounted <= recommended && minimum <= recommended
    ensures minimum <= ToCents(Max(discounted, minimum)) <= recommended
  {
    ToCentsBetween(Max(discounted, minimum), minimum, recommended);
  }

  /** The two separately rounded amounts differ by exactly the cost basis when that is whole cents. */
  lemma ProceedsMinusProfitIsCost(inputs: PricingInputs, rules: PricingRules, fees: FeeVersion)
    requires Valid(inputs, rules, fees)
    ensures CalculatePricing(inputs, rules, fees).Ok?
    ensures WholeCents(inputs.costBasis) ==>
              var r := CalculatePricing(inputs, rules, fees).value;
              r.netProceeds - r.profit == inputs.costBasis
  {
    var r := RecommendedClearsFloor(inputs, rules, fees);
    if WholeCents(inputs.costBasis) {
      ToCentsTranslates(Profit(r.recommended, inputs, fees), inputs.costBasis);
      assert NetProceeds(r.recommended, inputs, fees) == Profit(r.recommended, inputs, fees) + inputs.costBasis;
    }
  }

  /** Every valid pricing run with this minimum profit reports at least that profit. */
  ghost predicate MinimumIsGuaranteed(minimumProfit: real) {
    forall inputs: PricingInputs, rules: PricingRules, fees: FeeVersion |
      Valid(inputs, rules, fees) && MinimumProfit(inputs, rules) == minimumProfit ::
      CalculatePricing(inputs, rules, fees).Ok?
      && CalculatePricing(inputs, rules, fees).value.profit >= minimumProfit
  }

  /** Whole cents are exactly the minimum profits that pricing guarantees. */
  lemma MinimumGuaranteedIffWholeCents(minimumProfit: real)
    requires minimumProfit >= 0.0
    ensures MinimumIsGuaranteed(minimumProfit) <==> WholeCents(minimumProfit)
  {
    if WholeCents(minimumProfit) {
      forall inputs: PricingInputs, rules: PricingRules, fees: FeeVersion |
        Valid(inputs, rules, fees) && MinimumProfit(inputs, rules) == minimumProfit
        ensures CalculatePricing(inputs, rules, fees).Ok?
        ensures CalculatePricing(inputs, rules, fees).value.profit >= minimumProfit
      {
        ReportedProfitReachesMinimum(inputs, rules, fees);
      }
    } else {
      var fixedFee := SubCentShortfall(minimumProfit);
      var inputs, rules, fees := FreeItem(minimumProfit, fixedFee);
      assert !(CalculatePricing(inputs, rules, fees).value.profit >= minimumProfit);
    }
  }

  /** An item that cost nothing, sold under a fixed fee alone: its floor price is the rounded
      sum of the minimum profit and the fee. */
  lemma FreeItem(minimumProfit: real, fixedFee: real)
    returns (inputs: PricingInputs, rules: PricingRules, fees: FeeVersion)
    requires minimumProfit >= 0.0 && fixedFee >= 0.0 && ToCents(minimumProfit + fixedFee) > 0.0
    ensures Valid(inputs, rules, fees) && MinimumProfit(inputs, rules) == minimumProfit
    ensures CalculatePricing(inputs, rules, fees).Ok?
    ensures CalculatePricing(inputs, rules, fees).value.profit
         == ToCents(ToCents(minimumProfit + fixedFee) - fixedFee)
  {
    inputs := PricingInputs(0.0, 0.0, 0.0, 0.0, Some(minimumProfit), None, "good", false, []);
    rules := PricingRules(0.0, 0.0, 0.7, 0.3, 0.85, map[], 1.0, 1.0);
    fees := FeeVersion(0.0, 0.0, fixedFee);
    var r := PricingSucceeds(inputs, rules, fees);
    assert RawPrice(inputs, rules) == 0.0;
    assert NetRate(inputs, fees) == 1.0;
    assert ExactFloor(inputs, rules, fees) == minimumProfit + fixedFee;
    assert Profit(r.recommended, inputs, fees) == r.recommended - fixedFee;
  }

  // ---------------------------------------------------------------- the guarantee at one net rate

  /** What a net rate leaves of a price is what a fee of the rest of it leaves. */
  lemma RateLeaves(x: real, rate: real)
    ensures AfterFee(x, 1.0 - rate) == x * rate
  {
  }

  /** The profit differs from the minimum profit by what is left of the distance to the exact floor. */
  lemma ProfitFromFloor(price: real, inputs: PricingInputs, rules: PricingRules, fees: FeeVersion, rate: real)
    requires Valid(inputs, rules, fees) && NetRate(inputs, fees) == rate
    ensures Profit(price, inputs, fees) ==
            MinimumProfit(inputs, rules) + AfterFee(price, 1.0 - rate)
            - AfterFee(ExactFloor(inputs, rules, fees), 1.0 - rate)
  {
    var exact := ExactFloor(inputs, rules, fees);
    ProfitIsLinear(price, inputs, rules, fees);
    RateLeaves(price - exact, rate);
    AfterFeeSum(price - exact, exact, 1.0 - rate);
  }

  /** The reported profit reaches a minimum that lacks at most (1 - rate) / 2 of a cent to whole cents. */
  lemma ReportedProfitReaches(inputs: PricingInputs, rules: PricingRules, fees: FeeVersion)
    requires Valid(inputs, rules, fees)
    ensures CalculatePricing(inputs, rules, fees).Ok?
    ensures Shortfall(MinimumProfit(inputs, rules)) <= (1.0 - NetRate(inputs, fees)) / 2.0 ==>
              CalculatePricing(inputs, rules, fees).value.profit >= MinimumProfit(inputs, rules)
  {
    var r := RecommendedClearsFloor(inputs, rules, fees);
    var succeeded := PricingSucceeds(inputs, rules, fees);
    var minimum, rate := MinimumProfit(inputs, rules), NetRate(inputs, fees);
    var exact := ExactFloor(inputs, rules, fees);
    if Shortfall(minimum) <= (1.0 - rate) / 2.0 {
      NetRateInUnit(inputs, rules, fees);
      ProfitFromFloor(r.recommended, inputs, rules, fees, rate);
      NetOverFloor(r.recommended, exact, 1.0 - rate, AfterFee(exact, 1.0 - rate));
      ToCentsReaches(Profit(r.recommended, inputs, fees), minimum + Shortfall(minimum));
    }
  }

  /** An item that cost nothing, sold at this net rate with this fixed fee. */
  lemma FreeItemAt(minimumProfit: real, rate: real, fixedFee: real)
    returns (inputs: PricingInputs, rules: PricingRules, fees: FeeVersion)
    requires minimumProfit >= 0.0 && fixedFee >= 0.0 && 0.0 < rate <= 1.0
    ensures Valid(inputs, rules, fees) && MinimumProfit(inputs, rules) == minimumProfit && NetRate(inputs, fees) == rate
    ensures RawPrice(inputs, rules) == 0.0 && FixedCosts(inputs, rules, fees) == fixedFee + minimumProfit
  {
    inputs := PricingInputs(0.0, 0.0, 0.0, 0.0, Some(minimumProfit), None, "good", false, []);
    rules := PricingRules(0.0, 0.0, 0.7, 0.3, 0.85, map[], 1.0, 1.0);
    fees := FeeVersion(1.0 - rate, 0.0, fixedFee);
    RateLeaves(1.0, rate);
  }

  lemma FloorOf(inputs: PricingInputs, rules: PricingRules, fees: FeeVersion, rate: real, exact: real)
    requires Valid(inputs, rules, fees) && NetRate(inputs, fees) == rate && 0.0 < rate <= 1.0
    requires FixedCosts(inputs, rules, fees) == AfterFee(exact, 1.0 - rate)
    ensures ExactFloor(inputs, rules, fees) == exact
  {
    var floor := ExactFloor(inputs, rules, fees);
    assert floor * rate == FixedCosts(inputs, rules, fees);
    RateLeaves(floor, rate);
    OnlyPriceBefore(floor, exact, 1.0 - rate);
  }

  /** Otherwise a free item with some fixed fee reports less than the minimum profit. */
  lemma PricingMisses(minimumProfit: real, rate: real) returns (inputs: PricingInputs, rules: PricingRules, fees: FeeVersion)
    requires minimumProfit >= 0.0 && 0.0 < rate <= 1.0 && Shortfall(minimumProfit) > (1.0 - rate) / 2.0
    ensures Valid(inputs, rules, fees) && MinimumProfit(inputs, rules) == minimumProfit && NetRate(inputs, fees) == rate
    ensures CalculatePricing(inputs, rules, fees).Ok? && CalculatePricing(inputs, rules, fees).value.profit < minimumProfit
  {
    var fee := 1.0 - rate;
    var gap := LosingGap(Shortfall(minimumProfit), fee);
    var k := WholePriceWorth(minimumProfit, fee);
    var price := k as real;
    AfterFeeSum(price, gap, fee);
    AfterFeeOfNothing(fee);
    if gap > 0.0 {
      AfterFeeGrows(0.0, gap, fee);
    }
    inputs, rules, fees := FreeItemAt(minimumProfit, rate, AfterFee(price + gap, fee) - minimumProfit);
    FloorOf(inputs, rules, fees, rate, price + gap);
    RoundsTo(k, gap);
    var r := PricingSucceeds(inputs, rules, fees);
    WholeCentsOfInt(0);
    ToCentsOfWhole(0.0);
    assert r.recommended == price;
    ProfitFromFloor(price, inputs, rules, fees, rate);
    ToCentsMisses(Profit(price, inputs, fees), minimumProfit + Shortfall(minimumProfit));
  }

  /** Every valid pricing run with this minimum profit at this net rate reports at least that profit. */
  ghost predicate MinimumIsGuaranteedAt(minimumProfit: real, rate: real) {
    forall inputs: PricingInputs, rules: PricingRules, fees: FeeVersion |
      Valid(inputs, rules, fees) && MinimumProfit(inputs, rules) == minimumProfit && NetRate(inputs, fees) == rate ::
      CalculatePricing(inputs, rules, fees).Ok?
      && CalculatePricing(inputs, rules, fees).value.profit >= minimumProfit
  }

  /** At one net rate the guaranteed minimum profits are exactly those that lack at most (1 - rate) / 2 of a
      cent to whole cents. */
  lemma MinimumGuaranteedExactly(minimumProfit: real, rate: real)
    requires minimumProfit >= 0.0 && 0.0 < rate <= 1.0
    ensures MinimumIsGuaranteedAt(minimumProfit, rate) <==> Shortfall(minimumProfit) <= (1.0 - rate) / 2.0
  {
    if Shortfall(minimumProfit) <= (1.0 - rate) / 2.0 {
      forall inputs: PricingInputs, rules: PricingRules, fees: FeeVersion |
        Valid(inputs, rules, fees) && MinimumProfit(inputs, rules) == minimumProfit && NetRate(inputs, fees) == rate
        ensures CalculatePricing(inputs, rules, fees).Ok?
        ensures CalculatePricing(inputs, rules, fees).value.profit >= minimumProfit
      {
        ReportedProfitReaches(inputs, rules, fees);
      }
    } else {
      var inputs, rules, fees := PricingMisses(minimumProfit, rate);
      assert !(CalculatePricing(inputs, rules, fees).value.profit >= minimumProfit);
    }
  }

  // ---------------------------------------------------------------- what the inputs do

  /** The base price before the adjustments. */
  predicate IsBase(inputs: PricingInputs, rules: PricingRules, base: real)
    requires rules.soldWeight + rules.activeWeight != 0.0
  {
    base == if MarketPrice(inputs, rules).Some? then MarketPrice(inputs, rules).value else CostPlusPrice(inputs, rules)
  }

  /** The raw price is the base, scaled by the listed adjustment of the condition, by the size adjustment, and
      by the stale adjustment of a stale item alone; an unlisted condition scales nothing. */
  lemma AdjustmentsScale(inputs: PricingInputs, rules: PricingRules, fees: FeeVersion, base: real)
    requires Valid(inputs, rules, fees) && IsBase(inputs, rules, base)
    ensures inputs.condition !in rules.conditionAdjustments && !inputs.isStale ==>
              RawPrice(inputs, rules) == Kept(base, rules.sizeAdjustment)
    ensures inputs.condition in rules.conditionAdjustments ==>
              RawPrice(inputs, rules) ==
              Kept(RawPrice(inputs, rules.(conditionAdjustments := map[])), rules.conditionAdjustments[inputs.condition])
    ensures RawPrice(inputs.(isStale := true), rules) == Kept(RawPrice(inputs.(isStale := false), rules), rules.staleAdjustment)
  {
    var adjusted := if inputs.condition in rules.conditionAdjustments
                    then rules.conditionAdjustments[inputs.condition] else 1.0;
    var plain := rules.(conditionAdjustments := map[]);
    SameMarket(inputs, rules);
    var stale := if inputs.isStale then rules.staleAdjustment else 1.0;
    assert RawPrice(inputs, rules) == Adjusted(base, adjusted, rules.sizeAdjustment, stale);
    assert RawPrice(inputs, plain) == Adjusted(base, 1.0, rules.sizeAdjustment, stale);
    FactorsCommute(base, adjusted, rules.sizeAdjustment, stale);
    FactorsCommute(base, adjusted, rules.sizeAdjustment, rules.staleAdjustment);
  }

  lemma SameMarket(inputs: PricingInputs, rules: PricingRules)
    requires rules.soldWeight + rules.activeWeight != 0.0
    ensures var plain := rules.(conditionAdjustments := map[]);
            MarketPrice(inputs, plain) == MarketPrice(inputs, rules) && CostPlusPrice(inputs, plain) == CostPlusPrice(inputs, rules)
    ensures forall stale: bool :: MarketPrice(inputs.(isStale := stale), rules) == MarketPrice(inputs, rules)
                                  && CostPlusPrice(inputs.(isStale := stale), rules) == CostPlusPrice(inputs, rules)
  {}

  lemma FactorsCommute(base: real, adjusted: real, size: real, stale: real)
    ensures Adjusted(base, adjusted, size, stale) == Kept(Adjusted(base, 1.0, size, stale), adjusted)
    ensures Adjusted(base, adjusted, size, stale) == Kept(Adjusted(base, adjusted, size, 1.0), stale)
    ensures Adjusted(base, 1.0, size, 1.0) == Kept(base, size)
  {}

  /** Without comparables the base price earns the target margin on its cost: the item's own where it is given
      and not zero, the configured one otherwise. */
  lemma CostPlusEarnsMargin(inputs: PricingInputs, rules: PricingRules, fees: FeeVersion, margin: real)
    requires Valid(inputs, rules, fees)
    requires if inputs.targetMargin.Some? && inputs.targetMargin.value != 0.0 then margin == inputs.targetMargin.value
             else margin == rules.targetMargin
    ensures AfterFee(CostPlusPrice(inputs, rules), margin) == inputs.costBasis
  {
    AfterFeeInverse(inputs.costBasis, 1.0 - margin);
  }

  /** The market reference divides the distance between the two means against the weights. */
  lemma WeightsShare(inputs: PricingInputs, rules: PricingRules, fees: FeeVersion)
    requires Valid(inputs, rules, fees)
    requires MeanPrice(inputs.comparables, true).Some? && MeanPrice(inputs.comparables, false).Some?
    ensures var sold, active := MeanPrice(inputs.comparables, true).value, MeanPrice(inputs.comparables, false).value;
            MarketPrice(inputs, rules).Some? &&
            Kept(MarketPrice(inputs, rules).value - active, rules.activeWeight)
            == Kept(sold - MarketPrice(inputs, rules).value, rules.soldWeight)
  {
    BlendShares(MeanPrice(inputs.comparables, true).value, MeanPrice(inputs.comparables, false).value,
                rules.soldWeight, rules.activeWeight);
  }

  lemma BlendShares(sold: real, active: real, soldWeight: real, activeWeight: real)
    requires soldWeight + activeWeight > 0.0
    ensures Kept(Blend(sold, active, soldWeight, activeWeight) - active, activeWeight)
         == Kept(sold - Blend(sold, active, soldWeight, activeWeight), soldWeight)
  {
    var blend := Blend(sold, active, soldWeight, activeWeight);
    assert blend * (soldWeight + activeWeight) == sold * soldWeight + active * activeWeight;
  }

  /** A mean times its count is the sum of the prices of its kind, each counted once. */
  lemma MeansAreOfKind(xs: seq<Observation>, o: Observation, sold: bool)
    ensures MeanPrice(xs, sold).Some? <==> PriceCount(xs, sold) > 0
    ensures MeanPrice(xs, sold).Some? ==> Kept(MeanPrice(xs, sold).value, PriceCount(xs, sold) as real) == PriceSum(xs, sold)
    ensures PriceSum([], sold) == 0.0 && PriceCount([], sold) == 0
    ensures PriceSum([o] + xs, sold) == PriceSum(xs, sold) + if o.isSold == sold then o.price else 0.0
    ensures PriceCount([o] + xs, sold) == PriceCount(xs, sold) + if o.isSold == sold then 1 else 0
  {
    assert ([o] + xs)[1..] == xs;
    if MeanPrice(xs, sold).Some? {
      QuotientTimes(PriceSum(xs, sold), PriceCount(xs, sold) as real);
    }
  }

  lemma QuotientTimes(x: real, n: real)
    requires n > 0.0
    ensures Kept(x / n, n) == x
  {}

  /** The proceeds of a price: what the discount and then the fees leave of it, less the three costs. */
  lemma NetProceedsAre(price: real, inputs: PricingInputs, fees: FeeVersion)
    ensures NetProceeds(price, inputs, fees) ==
            Kept(Kept(price, 1.0 - inputs.offerDiscount), 1.0 - (fees.feePercent + fees.paymentPercent))
            - (fees.fixedFee + inputs.shippingCost + inputs.promotionCost)
  {
    KeptOfFee(Kept(price, 1.0 - inputs.offerDiscount), fees.feePercent + fees.paymentPercent);
  }

  lemma KeptOfFee(x: real, fee: real)
    ensures AfterFee(x, fee) == Kept(x, 1.0 - fee)
  {}

  /** What a result reports: the proceeds and the profit of the recommended price to the cent, and a warning
      exactly without comparables. */
  lemma ReportsRecommended(inputs: PricingInputs, rules: PricingRules, fees: FeeVersion) returns (r: PricingResult)
    requires Valid(inputs, rules, fees)
    ensures CalculatePricing(inputs, rules, fees) == Ok(r)
    ensures r.netProceeds == ToCents(NetProceeds(r.recommended, inputs, fees))
    ensures r.profit == ToCents(NetProceeds(r.recommended, inputs, fees) - inputs.costBasis)
    ensures NoComparables in r.warnings <==> inputs.comparables == []
    ensures r.recommended >= ToCents(RawPrice(inputs, rules))
    ensures r.recommended > ToCents(RawPrice(inputs, rules)) ==> r.recommended == r.minimum
  {
    r := PricingSucceeds(inputs, rules, fees);
    CountsAll(inputs.comparables);
  }

  /** The minimum profit is the item's own where it is given, zero included, and the configured one otherwise. */
  lemma MinimumProfitIs(inputs: PricingInputs, rules: PricingRules, own: real)
    ensures MinimumProfit(inputs.(minimumProfit := Some(own)), rules) == own
    ensures MinimumProfit(inputs.(minimumProfit := None), rules) == rules.minimumProfit
  {}

  /** The fast-sale price is the recommended one scaled down, to within half a cent, unless that is under the
      minimum price, which it then is. */
  lemma FastSaleIs(inputs: PricingInputs, rules: PricingRules, fees: FeeVersion) returns (r: PricingResult)
    requires Valid(inputs, rules, fees)
    ensures CalculatePricing(inputs, rules, fees) == Ok(r)
    ensures var scaled := Kept(r.recommended, rules.fastSaleFactor);
            if scaled <= r.minimum then r.fastSale == r.minimum else scaled - 0.5 <= r.fastSale <= scaled + 0.5
  {
    r := RecommendedClearsFloor(inputs, rules, fees);
    var succeeded := PricingSucceeds(inputs, rules, fees);
    DiscountedIs(r.recommended, rules.fastSaleFactor);
    ToCentsError(Kept(r.recommended, rules.fastSaleFactor));
    ToCentsOfWhole(r.minimum);
  }

  lemma DiscountedIs(price: real, factor: real)
    ensures Discounted(price, factor) == Kept(price, factor)
  {}
}
