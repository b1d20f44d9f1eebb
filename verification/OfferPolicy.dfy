/** `evaluate_offer`: accept, counter, decline or defer a buyer's offer.  Amounts are in cents. */
module OfferPolicy {
  import opened Money
  import opened Wrappers

  datatype OfferInputs = OfferInputs(
    offerAmount: real,
    listPrice: real,
    costBasis: real,
    feePercent: real,
    fixedFee: real,
    shippingCost: real,
    reserved: bool,
    highValue: bool)

  datatype OfferRules = OfferRules(
    minimumNetProfit: real,
    minimumMarginPercent: real,
    maximumDiscountPercent: real,
    automaticAccept: bool,
    automaticCounter: bool,
    automaticDecline: bool,
    counterIncrement: real)

  datatype Decision =
    | Escalate
    | Accept
    | Counter(amount: real)
    | Decline
    | Defer

  datatype OfferError = DivisionByZero

  /** The field bounds of the offer rules, and a sale whose costs are not negative. */
  predicate Costs(inputs: OfferInputs, rules: OfferRules) {
    && inputs.costBasis >= 0.0 && inputs.fixedFee >= 0.0 && inputs.shippingCost >= 0.0
    && rules.minimumNetProfit >= 0.0 && rules.counterIncrement >= 0.0
  }

  /** The same under a fee that takes a share of the price. */
  predicate Valid(inputs: OfferInputs, rules: OfferRules) {
    Costs(inputs, rules) && 0.0 <= inputs.feePercent < 1.0
  }

  /** `net_proceeds`, rounded to cents. */
  function NetProceeds(price: real, inputs: OfferInputs): real {
    ToCents(AfterFee(price, inputs.feePercent) - inputs.fixedFee - inputs.shippingCost)
  }

  function ProfitAt(price: real, inputs: OfferInputs): real {
    NetProceeds(price, inputs) - inputs.costBasis
  }

  /** The amount that fees and costs take from a sale that leaves the minimum profit. */
  function RequiredNet(inputs: OfferInputs, rules: OfferRules): real {
    inputs.costBasis + rules.minimumNetProfit + inputs.fixedFee + inputs.shippingCost
  }

  function MinimumPrice(inputs: OfferInputs, rules: OfferRules): real
    requires inputs.feePercent != 1.0
  {
    ToCents(BeforeFee(RequiredNet(inputs, rules), inputs.feePercent))
  }

  function MarginPercent(inputs: OfferInputs): real {
    if inputs.offerAmount > 0.0 then ProfitAt(inputs.offerAmount, inputs) / inputs.offerAmount * 100.0 else 0.0
  }

  function DiscountPercent(inputs: OfferInputs): real {
    if inputs.listPrice > 0.0 then (inputs.listPrice - inputs.offerAmount) / inputs.listPrice * 100.0 else 0.0
  }

  function EvaluateOffer(inputs: OfferInputs, rules: OfferRules): Result<Decision, OfferError> {
    if inputs.reserved || inputs.highValue then Ok(Escalate)
    else if inputs.feePercent == 1.0 then Err(DivisionByZero)
    else if rules.automaticAccept
         && ProfitAt(inputs.offerAmount, inputs) >= rules.minimumNetProfit
         && MarginPercent(inputs) >= rules.minimumMarginPercent
         && DiscountPercent(inputs) <= rules.maximumDiscountPercent
    then Ok(Accept)
    else if inputs.offerAmount < MinimumPrice(inputs, rules) && rules.automaticCounter
    then Ok(Counter(ToCents(Max(MinimumPrice(inputs, rules), inputs.offerAmount + rules.counterIncrement))))
    else if DiscountPercent(inputs) > rules.maximumDiscountPercent && rules.automaticDecline
    then Ok(Decline)
    else Ok(Defer)
  }

  // ---------------------------------------------------------------- results

  /** A fee never grows a price by more than the price grew. */
  lemma AfterFeeMonotone(low: real, high: real, fee: real)
    requires 0.0 <= fee < 1.0
    ensures low <= high ==> AfterFee(low, fee) <= AfterFee(high, fee)
    ensures high - 0.5 < low ==> AfterFee(high, fee) - 0.5 < AfterFee(low, fee)
  {
    assert AfterFee(low, fee) - AfterFee(high, fee) == AfterFee(low - high, fee);
    if low <= high {
      AfterFeeSign(high - low, fee);
    }
    if high - 0.5 < low {
      AfterFeeShrinks(low - high, fee);
    }
  }

  lemma AfterFeeSign(x: real, fee: real)
    requires 0.0 <= fee < 1.0 && x >= 0.0
    ensures AfterFee(x, fee) >= 0.0 && AfterFee(-x, fee) == -AfterFee(x, fee)
  {
    ProductNonnegative(x, 1.0 - fee);
  }

  lemma AfterFeeShrinks(gap: real, fee: real)
    requires 0.0 <= fee < 1.0 && gap > -0.5
    ensures AfterFee(gap, fee) > -0.5
  {
    ScaledAbove(gap, 1.0 - fee, 0.5);
  }

  /** A price at or above the rounded floor nets at least the required amount less half a cent. */
  lemma NetAtFloor(price: real, inputs: OfferInputs, rules: OfferRules)
    requires Valid(inputs, rules) && price >= MinimumPrice(inputs, rules)
    ensures AfterFee(price, inputs.feePercent) > RequiredNet(inputs, rules) - 0.5
  {
    var exact := BeforeFee(RequiredNet(inputs, rules), inputs.feePercent);
    ToCentsError(exact);
    AfterFeeMonotone(price, exact, inputs.feePercent);
  }

  /** Every counter is whole cents, beats the offer, and nets at least the minimum profit after
      both roundings when cost plus minimum profit is whole cents. */
  lemma CounterClearsMinimum(inputs: OfferInputs, rules: OfferRules)
    requires Valid(inputs, rules)
    requires EvaluateOffer(inputs, rules).Ok? && EvaluateOffer(inputs, rules).value.Counter?
    ensures var counter := EvaluateOffer(inputs, rules).value.amount;
            && WholeCents(counter) && counter > inputs.offerAmount && counter >= MinimumPrice(inputs, rules)
            && (WholeCents(inputs.costBasis + rules.minimumNetProfit) ==>
                  ProfitAt(counter, inputs) >= rules.minimumNetProfit)
  {
    var minimum := MinimumPrice(inputs, rules);
    var raised := Max(minimum, inputs.offerAmount + rules.counterIncrement);
    CounterAtLeastFloor(BeforeFee(RequiredNet(inputs, rules), inputs.feePercent), raised);
    NetAtFloor(ToCents(raised), inputs, rules);
    if WholeCents(inputs.costBasis + rules.minimumNetProfit) {
      ToCentsReaches(AfterFee(ToCents(raised), inputs.feePercent) - inputs.fixedFee - inputs.shippingCost,
                     inputs.costBasis + rules.minimumNetProfit);
    }
  }

  lemma CounterAtLeastFloor(exact: real, raised: real)
    requires raised >= ToCents(exact)
    ensures WholeCents(ToCents(raised)) && ToCents(raised) >= ToCents(exact)
  {
    ToCentsError(exact);
    ToCentsError(raised);
    ToCentsMonotone(ToCents(exact), raised);
    ToCentsOfWhole(ToCents(exact));
  }

  /** A buyer who takes the counter is not countered again. */
  lemma CounterIsFinal(inputs: OfferInputs, rules: OfferRules)
    requires Valid(inputs, rules)
    requires EvaluateOffer(inputs, rules).Ok? && EvaluateOffer(inputs, rules).value.Counter?
    ensures var answer := EvaluateOffer(inputs.(offerAmount := EvaluateOffer(inputs, rules).value.amount), rules);
            answer.Ok? && !answer.value.Counter?
  {
    CounterClearsMinimum(inputs, rules);
    var again := inputs.(offerAmount := EvaluateOffer(inputs, rules).value.amount);
    assert MinimumPrice(again, rules) == MinimumPrice(inputs, rules);
  }

  /** Every counter under this cost and minimum profit yields at least that profit. */
  ghost predicate CountersGuaranteed(costBasis: real, minimumProfit: real) {
    forall inputs: OfferInputs, rules: OfferRules |
      Valid(inputs, rules) && inputs.costBasis == costBasis && rules.minimumNetProfit == minimumProfit
      && EvaluateOffer(inputs, rules).Ok? && EvaluateOffer(inputs, rules).value.Counter? ::
      ProfitAt(EvaluateOffer(inputs, rules).value.amount, inputs) >= minimumProfit
  }

  /** The counters are guaranteed exactly when cost plus minimum profit is whole cents. */
  lemma CountersGuaranteedIffWholeCents(costBasis: real, minimumProfit: real)
    requires costBasis >= 0.0 && minimumProfit >= 0.0
    ensures CountersGuaranteed(costBasis, minimumProfit) <==> WholeCents(costBasis + minimumProfit)
  {
    if WholeCents(costBasis + minimumProfit) {
      forall inputs: OfferInputs, rules: OfferRules |
        Valid(inputs, rules) && inputs.costBasis == costBasis && rules.minimumNetProfit == minimumProfit
        && EvaluateOffer(inputs, rules).Ok? && EvaluateOffer(inputs, rules).value.Counter?
        ensures ProfitAt(EvaluateOffer(inputs, rules).value.amount, inputs) >= minimumProfit
      {
        CounterClearsMinimum(inputs, rules);
      }
    } else {
      var fixedFee := SubCentShortfall(costBasis + minimumProfit);
      var inputs, rules := CounteredOffer(costBasis, minimumProfit, fixedFee);
      assert !(ProfitAt(EvaluateOffer(inputs, rules).value.amount, inputs) >= minimumProfit);
    }
  }

  /** An offer of nothing, under a fixed fee alone, is countered at the rounded sum of cost, minimum profit and fee. */
  lemma CounteredOffer(costBasis: real, minimumProfit: real, fixedFee: real)
    returns (inputs: OfferInputs, rules: OfferRules)
    requires costBasis >= 0.0 && minimumProfit >= 0.0 && fixedFee >= 0.0
    requires ToCents(costBasis + minimumProfit + fixedFee) > 0.0
    ensures Valid(inputs, rules) && inputs.costBasis == costBasis && rules.minimumNetProfit == minimumProfit
    ensures EvaluateOffer(inputs, rules).Ok? && EvaluateOffer(inputs, rules).value.Counter?
    ensures ProfitAt(EvaluateOffer(inputs, rules).value.amount, inputs)
         == ToCents(ToCents(costBasis + minimumProfit + fixedFee) - fixedFee) - costBasis
  {
    inputs := OfferInputs(0.0, 0.0, costBasis, 0.0, fixedFee, 0.0, false, false);
    rules := OfferRules(minimumProfit, 0.0, 0.0, false, true, true, 0.0);
    var exact := costBasis + minimumProfit + fixedFee;
    assert BeforeFee(RequiredNet(inputs, rules), 0.0) == exact;
    ToCentsError(exact);
    ToCentsOfWhole(ToCents(exact));
    assert EvaluateOffer(inputs, rules) == Ok(Counter(ToCents(exact)));
    assert AfterFee(ToCents(exact), 0.0) == ToCents(exact);
  }

  // ---------------------------------------------------------------- the guarantee under any fee

  /** A counter yields the minimum profit when cost plus minimum profit lacks at most fee / 2 of a cent to whole cents. */
  lemma CounterYields(inputs: OfferInputs, rules: OfferRules)
    requires Valid(inputs, rules) && Shortfall(inputs.costBasis + rules.minimumNetProfit) <= inputs.feePercent / 2.0
    requires EvaluateOffer(inputs, rules).Ok? && EvaluateOffer(inputs, rules).value.Counter?
    ensures ProfitAt(EvaluateOffer(inputs, rules).value.amount, inputs) >= rules.minimumNetProfit
  {
    var total := inputs.costBasis + rules.minimumNetProfit;
    var exact := BeforeFee(RequiredNet(inputs, rules), inputs.feePercent);
    var raised := Max(MinimumPrice(inputs, rules), inputs.offerAmount + rules.counterIncrement);
    CounterAtLeastFloor(exact, raised);
    NetOverFloor(ToCents(raised), exact, inputs.feePercent, RequiredNet(inputs, rules));
    ToCentsReaches(AfterFee(ToCents(raised), inputs.feePercent) - inputs.fixedFee - inputs.shippingCost,
                   total + Shortfall(total));
  }

  /** Every counter under this cost, minimum profit and fee yields at least that profit. */
  ghost predicate CountersGuaranteedAt(costBasis: real, minimumProfit: real, fee: real) {
    forall inputs: OfferInputs, rules: OfferRules |
      Costs(inputs, rules) && inputs.costBasis == costBasis && rules.minimumNetProfit == minimumProfit
      && inputs.feePercent == fee
      && EvaluateOffer(inputs, rules).Ok? && EvaluateOffer(inputs, rules).value.Counter? ::
      ProfitAt(EvaluateOffer(inputs, rules).value.amount, inputs) >= minimumProfit
  }

  /** Otherwise some fixed fee makes an offer of nothing be countered at a price that misses the minimum profit. */
  lemma CounterMisses(costBasis: real, minimumProfit: real, fee: real) returns (inputs: OfferInputs, rules: OfferRules)
    requires costBasis >= 0.0 && minimumProfit >= 0.0 && fee < 1.0
    requires Shortfall(costBasis + minimumProfit) > fee / 2.0
    ensures Costs(inputs, rules) && inputs.costBasis == costBasis && rules.minimumNetProfit == minimumProfit
    ensures inputs.feePercent == fee && EvaluateOffer(inputs, rules).Ok? && EvaluateOffer(inputs, rules).value.Counter?
    ensures ProfitAt(EvaluateOffer(inputs, rules).value.amount, inputs) < minimumProfit
  {
    var total := costBasis + minimumProfit;
    var gap := LosingGap(Shortfall(total), fee);
    var k := WholePriceWorth(total, fee);
    var price := k as real;
    var exact := price + gap;
    AfterFeeSum(price, gap, fee);
    AfterFeeOfNothing(fee);
    if gap > 0.0 {
      AfterFeeGrows(0.0, gap, fee);
    }
    var fixedFee := AfterFee(exact, fee) - total;
    inputs := OfferInputs(0.0, 0.0, costBasis, fee, fixedFee, 0.0, false, false);
    rules := OfferRules(minimumProfit, 0.0, 0.0, false, true, true, 0.0);
    OnlyPriceBefore(BeforeFee(RequiredNet(inputs, rules), fee), exact, fee);
    RoundsTo(k, gap);
    WholeCentsOfInt(k);
    ToCentsOfWhole(price);
    assert EvaluateOffer(inputs, rules) == Ok(Counter(price));
    ToCentsMisses(AfterFee(price, fee) - fixedFee, total + Shortfall(total));
  }

  /** A fee over the whole price turns the minimum price negative, and a large increment counters with a loss. */
  lemma CounterLoses(costBasis: real, minimumProfit: real, fee: real) returns (inputs: OfferInputs, rules: OfferRules)
    requires costBasis >= 0.0 && minimumProfit >= 0.0 && fee > 1.0
    ensures Costs(inputs, rules) && inputs.costBasis == costBasis && rules.minimumNetProfit == minimumProfit
    ensures inputs.feePercent == fee && EvaluateOffer(inputs, rules).Ok? && EvaluateOffer(inputs, rules).value.Counter?
    ensures ProfitAt(EvaluateOffer(inputs, rules).value.amount, inputs) < minimumProfit
  {
    var k := LosingPrice(fee);
    inputs := OfferInputs(0.0, 0.0, costBasis, fee, 0.0, 0.0, false, false);
    rules := OfferRules(minimumProfit, 0.0, 0.0, false, true, true, 0.0);
    var minimum := MinimumPrice(inputs, rules);
    NegativeFloor(RequiredNet(inputs, rules), fee);
    inputs := inputs.(offerAmount := minimum - 1.0);
    rules := rules.(counterIncrement := k as real + 1.0 - minimum);
    WholeCentsOfInt(k);
    ToCentsOfWhole(k as real);
    assert EvaluateOffer(inputs, rules) == Ok(Counter(k as real));
    ToCentsMonotone(AfterFee(k as real, fee), -1.0);
    WholeCentsOfInt(-1);
    ToCentsOfWhole(-1.0);
  }

  lemma LosingPrice(fee: real) returns (k: int)
    requires fee > 1.0
    ensures k >= 1 && AfterFee(k as real, fee) <= -1.0
  {
    var exact := BeforeFee(-1.0, fee);
    k := if exact.Floor >= 0 then exact.Floor + 1 else 1;
    OverFeeFalls(exact, k as real, fee);
  }

  /** A fee over the whole price takes more the higher the price. */
  lemma OverFeeFalls(low: real, high: real, fee: real)
    requires fee > 1.0 && low < high
    ensures AfterFee(high, fee) < AfterFee(low, fee)
  {
    ProductPositive(high - low, fee - 1.0);
    AfterFeeSum(high - low, low, fee);
  }

  lemma NegativeFloor(required: real, fee: real)
    requires fee > 1.0 && required >= 0.0
    ensures ToCents(BeforeFee(required, fee)) <= 0.0
  {
    var exact := BeforeFee(required, fee);
    if exact > 0.0 {
      ProductPositive(exact, fee - 1.0);
    }
    WholeCentsOfInt(0);
    ToCentsMonotone(exact, 0.0);
    ToCentsOfWhole(0.0);
  }

  /** Under a fee the counters all yield the minimum profit exactly when cost plus minimum profit lacks at
      most fee / 2 of a cent to whole cents. A negative fee loses the guarantee, a fee over one
      does too, and a fee of one has no counters. */
  lemma CountersGuaranteedExactly(costBasis: real, minimumProfit: real, fee: real)
    requires costBasis >= 0.0 && minimumProfit >= 0.0
    ensures CountersGuaranteedAt(costBasis, minimumProfit, fee)
       <==> fee == 1.0 || (fee < 1.0 && Shortfall(costBasis + minimumProfit) <= fee / 2.0)
  {
    if fee < 1.0 && Shortfall(costBasis + minimumProfit) <= fee / 2.0 {
      forall inputs: OfferInputs, rules: OfferRules |
        Costs(inputs, rules) && inputs.costBasis == costBasis && rules.minimumNetProfit == minimumProfit
        && inputs.feePercent == fee
        && EvaluateOffer(inputs, rules).Ok? && EvaluateOffer(inputs, rules).value.Counter?
        ensures ProfitAt(EvaluateOffer(inputs, rules).value.amount, inputs) >= minimumProfit
      {
        CounterYields(inputs, rules);
      }
    } else if fee < 1.0 {
      var inputs, rules := CounterMisses(costBasis, minimumProfit, fee);
      assert !(ProfitAt(EvaluateOffer(inputs, rules).value.amount, inputs) >= minimumProfit);
    } else if fee > 1.0 {
      var inputs, rules := CounterLoses(costBasis, minimumProfit, fee);
      assert !(ProfitAt(EvaluateOffer(inputs, rules).value.amount, inputs) >= minimumProfit);
    }
  }

  // ---------------------------------------------------------------- when each answer is given

  /** What the seller keeps of the offer after the fees, to the cent, less the cost. */
  function OfferProfit(inputs: OfferInputs): real {
    ToCents(Kept(inputs.offerAmount, 1.0 - inputs.feePercent) - inputs.fixedFee - inputs.shippingCost) - inputs.costBasis
  }

  /** The profit is at least the minimum percentage of the offer; without a positive offer the margin counts as zero. */
  predicate MarginMet(inputs: OfferInputs, rules: OfferRules) {
    if inputs.offerAmount > 0.0 then OfferProfit(inputs) * 100.0 >= Kept(rules.minimumMarginPercent, inputs.offerAmount)
    else rules.minimumMarginPercent <= 0.0
  }

  /** The offer is at least 100 less the maximum discount percent of the list price; without a positive
      list price the discount counts as zero. */
  predicate DiscountMet(inputs: OfferInputs, rules: OfferRules) {
    if inputs.listPrice > 0.0
    then inputs.offerAmount * 100.0 >= Kept(inputs.listPrice, 100.0 - rules.maximumDiscountPercent)
    else rules.maximumDiscountPercent >= 0.0
  }

  predicate MeetsAll(inputs: OfferInputs, rules: OfferRules) {
    OfferProfit(inputs) >= rules.minimumNetProfit && MarginMet(inputs, rules) && DiscountMet(inputs, rules)
  }

  lemma KeptShare(x: real, fee: real)
    ensures AfterFee(x, fee) == Kept(x, 1.0 - fee)
  {
  }

  lemma PercentAtLeast(part: real, whole: real, percent: real)
    requires whole > 0.0
    ensures part / whole * 100.0 >= percent <==> part * 100.0 >= Kept(percent, whole)
    ensures part / whole * 100.0 <= percent <==> part * 100.0 <= Kept(percent, whole)
  {
    var q := part / whole;
    assert Kept(q, whole) == part;
    KeptHundred(q, whole);
    KeptOrder(q * 100.0, percent, whole);
    KeptOrder(percent, q * 100.0, whole);
  }

  lemma KeptHundred(x: real, w: real)
    ensures Kept(x * 100.0, w) == Kept(x, w) * 100.0
  {
  }

  lemma KeptOrder(x: real, y: real, w: real)
    requires w > 0.0
    ensures x < y <==> Kept(x, w) < Kept(y, w)
  {
    KeptDifference(x, y, w);
    if x < y {
      KeptSign(y - x, w);
    } else {
      KeptSign(x - y, w);
    }
  }

  lemma KeptSign(x: real, w: real)
    requires w > 0.0 && x >= 0.0
    ensures Kept(x, w) >= 0.0 && (x > 0.0 ==> Kept(x, w) > 0.0)
  {
    ProductNonnegative(x, w);
    if x > 0.0 {
      ProductPositive(x, w);
    }
  }

  lemma KeptDifference(x: real, y: real, w: real)
    ensures Kept(y - x, w) == Kept(y, w) - Kept(x, w) && Kept(x - y, w) == Kept(x, w) - Kept(y, w)
  {
  }

  lemma RemainingShare(offer: real, listed: real, percent: real)
    ensures (listed - offer) * 100.0 <= Kept(percent, listed) <==> offer * 100.0 >= Kept(listed, 100.0 - percent)
  {
    KeptRest(listed, percent);
  }

  lemma KeptRest(x: real, percent: real)
    ensures Kept(x, 100.0 - percent) == x * 100.0 - Kept(percent, x)
  {
  }

  lemma ChecksAre(inputs: OfferInputs, rules: OfferRules)
    ensures ProfitAt(inputs.offerAmount, inputs) == OfferProfit(inputs)
    ensures MarginPercent(inputs) >= rules.minimumMarginPercent <==> MarginMet(inputs, rules)
    ensures DiscountPercent(inputs) <= rules.maximumDiscountPercent <==> DiscountMet(inputs, rules)
  {
    KeptShare(inputs.offerAmount, inputs.feePercent);
    var profit := OfferProfit(inputs);
    assert ProfitAt(inputs.offerAmount, inputs) == profit;
    if inputs.offerAmount > 0.0 {
      PercentAtLeast(profit, inputs.offerAmount, rules.minimumMarginPercent);
    }
    if inputs.listPrice > 0.0 {
      PercentAtLeast(inputs.listPrice - inputs.offerAmount, inputs.listPrice, rules.maximumDiscountPercent);
      RemainingShare(inputs.offerAmount, inputs.listPrice, rules.maximumDiscountPercent);
    }
  }

  /** The minimum price is the whole-cent rounding of the price of which the fee leaves cost, minimum profit,
      fixed fee and shipping. */
  lemma MinimumPriceIs(inputs: OfferInputs, rules: OfferRules, exact: real)
    requires inputs.feePercent < 1.0
    requires Kept(exact, 1.0 - inputs.feePercent) ==
             inputs.costBasis + rules.minimumNetProfit + inputs.fixedFee + inputs.shippingCost
    ensures MinimumPrice(inputs, rules) == ToCents(exact)
  {
    KeptShare(exact, inputs.feePercent);
    OnlyPriceBefore(BeforeFee(RequiredNet(inputs, rules), inputs.feePercent), exact, inputs.feePercent);
  }

  /** Each answer is given in exactly these cases: escalated when reserved or of high value; accepted when
      automatic acceptance is on and profit, margin and discount are met; countered when it is not and the
      offer is under the minimum price; declined when it is not, the offer is not countered and the discount
      is too large; and deferred otherwise. A fee of one divides by zero unless the offer is escalated. */
  lemma AnswersExactly(inputs: OfferInputs, rules: OfferRules)
    ensures EvaluateOffer(inputs, rules).Err? <==> inputs.feePercent == 1.0 && !inputs.reserved && !inputs.highValue
    ensures EvaluateOffer(inputs, rules).Ok? ==>
              var answer := EvaluateOffer(inputs, rules).value;
              && (answer.Escalate? <==> inputs.reserved || inputs.highValue)
              && (answer.Accept? <==>
                    !inputs.reserved && !inputs.highValue && rules.automaticAccept && MeetsAll(inputs, rules))
              && (answer.Counter? <==>
                    && !inputs.reserved && !inputs.highValue && !(rules.automaticAccept && MeetsAll(inputs, rules))
                    && rules.automaticCounter && inputs.offerAmount < MinimumPrice(inputs, rules))
              && (answer.Decline? <==>
                    && !inputs.reserved && !inputs.highValue && !(rules.automaticAccept && MeetsAll(inputs, rules))
                    && !(rules.automaticCounter && inputs.offerAmount < MinimumPrice(inputs, rules))
                    && rules.automaticDecline && !DiscountMet(inputs, rules))
              && (answer.Defer? <==>
                    && !inputs.reserved && !inputs.highValue && !(rules.automaticAccept && MeetsAll(inputs, rules))
                    && !(rules.automaticCounter && inputs.offerAmount < MinimumPrice(inputs, rules))
                    && !(rules.automaticDecline && !DiscountMet(inputs, rules)))
  {
    ChecksAre(inputs, rules);
  }

  /** A counter asks for no more than it must: the minimum price, or the offer raised by the increment to
      within half a cent when that is more. */
  lemma CounterIsTight(inputs: OfferInputs, rules: OfferRules)
    requires EvaluateOffer(inputs, rules).Ok? && EvaluateOffer(inputs, rules).value.Counter?
    ensures var counter := EvaluateOffer(inputs, rules).value.amount;
            var raised := inputs.offerAmount + rules.counterIncrement;
            if raised <= MinimumPrice(inputs, rules) then counter == MinimumPrice(inputs, rules)
            else raised - 0.5 <= counter <= raised + 0.5
  {
    var exact := BeforeFee(RequiredNet(inputs, rules), inputs.feePercent);
    ToCentsError(exact);
    ToCentsOfWhole(MinimumPrice(inputs, rules));
    ToCentsError(inputs.offerAmount + rules.counterIncrement);
  }
}
