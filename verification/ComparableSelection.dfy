/** `select_comparables_for_pricing`: which comparables may feed pricing, with every exclusion recorded. */
module ComparableSelection {
  import opened Statistics
  import opened Wrappers

  datatype Comparable = Comparable(
    id: string,
    accepted: bool,
    invalidated: bool,
    soldPrice: Option<real>,
    listedPrice: Option<real>,
    isSold: bool,
    currency: string,
    reliability: Option<real>,
    similarity: Option<real>,
    saleDay: Option<int>)

  datatype Policy = Policy(
    reviewedOnly: bool,
    allowedCurrencies: set<string>,
    reliabilityThreshold: real,
    similarityThreshold: real,
    maxAgeDays: int,
    outlierZ: real)

  datatype Reason =
    | NotReviewed | Invalidated | NoPrice | CurrencyRestricted
    | ReliabilityBelowThreshold | SimilarityBelowThreshold | TooOld | PriceOutlier

  datatype Exclusion = Exclusion(comparable: Comparable, reason: Reason)

  datatype Selection = Selection(included: seq<Comparable>, excluded: seq<Exclusion>)

  /** Raised when an included comparable has no positive price or a reliability outside [0, 1]. */
  datatype SelectionError = InvalidObservation

  function Upper(s: string): string {
    seq(|s|, i requires 0 <= i < |s| => if 'a' <= s[i] <= 'z' then (s[i] as int - 32) as char else s[i])
  }

  /** `sold_price or listed_price`: a sold price of zero counts as missing. */
  function PriceOf(c: Comparable): Option<real> {
    if c.soldPrice.Some? && c.soldPrice.value != 0.0 then c.soldPrice else c.listedPrice
  }

  function ExclusionReason(c: Comparable, policy: Policy, today: int): Option<Reason> {
    if policy.reviewedOnly && !c.accepted then Some(NotReviewed)
    else if c.invalidated then Some(Invalidated)
    else if PriceOf(c).None? then Some(NoPrice)
    else if Upper(c.currency) !in (set a | a in policy.allowedCurrencies :: Upper(a)) then Some(CurrencyRestricted)
    else if c.reliability.Some? && c.reliability.value < policy.reliabilityThreshold then Some(ReliabilityBelowThreshold)
    else if c.similarity.Some? && c.similarity.value < policy.similarityThreshold then Some(SimilarityBelowThreshold)
    else if c.saleDay.Some? && today - c.saleDay.value > policy.maxAgeDays then Some(TooOld)
    else None
  }

  /** `reliability_score or 0.5`: a score of zero counts as missing. */
  function ReliabilityOf(c: Comparable): real {
    if c.reliability.Some? && c.reliability.value != 0.0 then c.reliability.value else 0.5
  }

  predicate ValidObservation(c: Comparable) {
    PriceOf(c).Some? && PriceOf(c).value > 0.0 && 0.0 <= ReliabilityOf(c) <= 1.0
  }

  // ---------------------------------------------------------------- specification

  predicate Passes(c: Comparable, policy: Policy, today: int) {
    ExclusionReason(c, policy, today).None?
  }

  /** The comparables that pass every rule but the outlier screen, in input order. */
  function Prescreened(cs: seq<Comparable>, policy: Policy, today: int): seq<Comparable> {
    if cs == [] then []
    else
      var rest, c := Prescreened(cs[..|cs| - 1], policy, today), cs[|cs| - 1];
      if Passes(c, policy, today) then rest + [c] else rest
  }

  function Rejected(cs: seq<Comparable>, policy: Policy, today: int): seq<Exclusion> {
    if cs == [] then []
    else
      var rest, c := Rejected(cs[..|cs| - 1], policy, today), cs[|cs| - 1];
      if Passes(c, policy, today) then rest
      else rest + [Exclusion(c, ExclusionReason(c, policy, today).value)]
  }

  function Price(c: Comparable): real {
    if PriceOf(c).Some? then PriceOf(c).value else 0.0
  }

  function Prices(cs: seq<Comparable>): seq<real> {
    if cs == [] then [] else Prices(cs[..|cs| - 1]) + [Price(cs[|cs| - 1])]
  }

  /** More than `z` standard deviations from the mean, decided on squares so that no root is taken. */
  predicate IsOutlier(price: real, prices: seq<real>, z: real) {
    Variance(prices) > 0.0 && Square(price - Mean(prices)) > Limit(prices, z)
  }

  function Inliers(cs: seq<Comparable>, prices: seq<real>, z: real): seq<Comparable> {
    if cs == [] then []
    else
      var rest, c := Inliers(cs[..|cs| - 1], prices, z), cs[|cs| - 1];
      if IsOutlier(Price(c), prices, z) then rest else rest + [c]
  }

  function Outliers(cs: seq<Comparable>, prices: seq<real>, z: real): seq<Exclusion> {
    if cs == [] then []
    else
      var rest, c := Outliers(cs[..|cs| - 1], prices, z), cs[|cs| - 1];
      if IsOutlier(Price(c), prices, z) then rest + [Exclusion(c, PriceOutlier)] else rest
  }

  /** The screen over prescreened comparables: an error as soon as an included one is not a valid observation. */
  function Screen(prescreened: seq<Comparable>, z: real): Result<Selection, SelectionError> {
    var prices := Prices(prescreened);
    if exists c :: c in Inliers(prescreened, prices, z) && !ValidObservation(c) then Err(InvalidObservation)
    else Ok(Selection(Inliers(prescreened, prices, z), Outliers(prescreened, prices, z)))
  }

  function Select(cs: seq<Comparable>, policy: Policy, today: int): Result<Selection, SelectionError> {
    var screened := Screen(Prescreened(cs, policy, today), policy.outlierZ);
    if screened.Err? then screened
    else Ok(screened.value.(excluded := Rejected(cs, policy, today) + screened.value.excluded))
  }

  // ---------------------------------------------------------------- the two loops

  method SelectForPricing(cs: seq<Comparable>, policy: Policy, today: int)
    returns (r: Result<Selection, SelectionError>)
    ensures r == Select(cs, policy, today)
  {
    var prescreened, rejected, prices := [], [], [];
    for i := 0 to |cs|
      invariant prescreened == Prescreened(cs[..i], policy, today)
      invariant rejected == Rejected(cs[..i], policy, today)
      invariant prices == Prices(prescreened)
    {
      assert cs[..i + 1][..i] == cs[..i];
      var reason := ExclusionReason(cs[i], policy, today);
      if reason.Some? {
        rejected := rejected + [Exclusion(cs[i], reason.value)];
      } else {
        assert (prescreened + [cs[i]])[..|prescreened|] == prescreened;
        prescreened := prescreened + [cs[i]];
        prices := prices + [Price(cs[i])];
      }
    }
    assert cs[..|cs|] == cs;
    r := ScreenOutliers(prescreened, prices, policy.outlierZ);
    if r.Ok? {
      r := Ok(r.value.(excluded := rejected + r.value.excluded));
    }
  }

  method ScreenOutliers(prescreened: seq<Comparable>, prices: seq<real>, z: real)
    returns (r: Result<Selection, SelectionError>)
    requires prices == Prices(prescreened)
    ensures r == Screen(prescreened, z)
  {
    var mean, variance, limit := Mean(prices), Variance(prices), Limit(prices, z);
    var included, outliers := [], [];
    for i := 0 to |prescreened|
      invariant included == Inliers(prescreened[..i], prices, z)
      invariant outliers == Outliers(prescreened[..i], prices, z)
      invariant forall c :: c in included ==> ValidObservation(c)
    {
      assert prescreened[..i + 1][..i] == prescreened[..i];
      var c := prescreened[i];
      if variance > 0.0 && Square(Price(c) - mean) > limit {
        outliers := outliers + [Exclusion(c, PriceOutlier)];
      } else if !ValidObservation(c) {
        InlierMember(prescreened, prices, z, i);
        return Err(InvalidObservation);
      } else {
        included := included + [c];
      }
    }
    assert prescreened[..|prescreened|] == prescreened;
    return Ok(Selection(included, outliers));
  }

  lemma {:induction false} InlierMember(cs: seq<Comparable>, prices: seq<real>, z: real, i: nat)
    requires i < |cs| && !IsOutlier(Price(cs[i]), prices, z)
    ensures cs[i] in Inliers(cs, prices, z)
    decreases |cs|
  {
    if i < |cs| - 1 {
      InlierMember(cs[..|cs| - 1], prices, z, i);
    }
  }

  // ---------------------------------------------------------------- the screen conserves its input

  function Dropped(excluded: seq<Exclusion>): seq<Comparable> {
    seq(|excluded|, i requires 0 <= i < |excluded| => excluded[i].comparable)
  }

  lemma DroppedConcat(xs: seq<Exclusion>, ys: seq<Exclusion>)
    ensures Dropped(xs + ys) == Dropped(xs) + Dropped(ys)
  {
  }

  lemma AddLast<T>(xs: seq<T>, x: T, all: seq<T>)
    requires all == xs + [x]
    ensures multiset(all) == multiset(xs) + multiset{x}
  {
  }

  /** One more entry of a list goes to one side or to the other. */
  lemma AddKept(kept: seq<Comparable>, dropped: seq<Exclusion>, rest: seq<Comparable>, c: Comparable)
    requires multiset(kept) + multiset(Dropped(dropped)) == multiset(rest)
    ensures multiset(kept + [c]) + multiset(Dropped(dropped)) == multiset(rest + [c])
  {
    AddLast(kept, c, kept + [c]);
    AddLast(rest, c, rest + [c]);
  }

  lemma AddDropped(kept: seq<Comparable>, dropped: seq<Exclusion>, rest: seq<Comparable>, entry: Exclusion)
    requires multiset(kept) + multiset(Dropped(dropped)) == multiset(rest)
    ensures multiset(kept) + multiset(Dropped(dropped + [entry])) == multiset(rest + [entry.comparable])
  {
    DroppedConcat(dropped, [entry]);
    AddLast(Dropped(dropped), entry.comparable, Dropped(dropped + [entry]));
    AddLast(rest, entry.comparable, rest + [entry.comparable]);
  }

  lemma {:induction false} PrescreenPartitions(cs: seq<Comparable>, policy: Policy, today: int)
    ensures multiset(Prescreened(cs, policy, today)) + multiset(Dropped(Rejected(cs, policy, today))) == multiset(cs)
  {
    if cs != [] {
      var rest, c := cs[..|cs| - 1], cs[|cs| - 1];
      var kept, dropped := Prescreened(rest, policy, today), Rejected(rest, policy, today);
      PrescreenPartitions(rest, policy, today);
      assert cs == rest + [c];
      if Passes(c, policy, today) {
        AddKept(kept, dropped, rest, c);
      } else {
        AddDropped(kept, dropped, rest, Exclusion(c, ExclusionReason(c, policy, today).value));
      }
    }
  }

  lemma {:induction false} OutlierPartition(cs: seq<Comparable>, prices: seq<real>, z: real)
    ensures multiset(Inliers(cs, prices, z)) + multiset(Dropped(Outliers(cs, prices, z))) == multiset(cs)
  {
    if cs != [] {
      var rest, c := cs[..|cs| - 1], cs[|cs| - 1];
      var kept, dropped := Inliers(rest, prices, z), Outliers(rest, prices, z);
      OutlierPartition(rest, prices, z);
      assert cs == rest + [c];
      if IsOutlier(Price(c), prices, z) {
        AddDropped(kept, dropped, rest, Exclusion(c, PriceOutlier));
      } else {
        AddKept(kept, dropped, rest, c);
      }
    }
  }

  /** Included and excluded entries together list every input exactly as often as it was given. */
  lemma SelectionPartitions(cs: seq<Comparable>, policy: Policy, today: int, s: Selection)
    requires Select(cs, policy, today) == Ok(s)
    ensures multiset(s.included) + multiset(Dropped(s.excluded)) == multiset(cs)
  {
    var prescreened := Prescreened(cs, policy, today);
    PrescreenPartitions(cs, policy, today);
    OutlierPartition(prescreened, Prices(prescreened), policy.outlierZ);
    DroppedConcat(Rejected(cs, policy, today), Outliers(prescreened, Prices(prescreened), policy.outlierZ));
  }

  /** An entry is included exactly when no rule excludes it and the outlier screen does not. */
  lemma {:induction false} InlierIff(cs: seq<Comparable>, prices: seq<real>, z: real, c: Comparable)
    ensures c in Inliers(cs, prices, z) <==> c in cs && !IsOutlier(Price(c), prices, z)
  {
    if cs != [] {
      InlierIff(cs[..|cs| - 1], prices, z, c);
      assert c in cs <==> c in cs[..|cs| - 1] || c == cs[|cs| - 1];
    }
  }

  lemma {:induction false} PrescreenedIff(cs: seq<Comparable>, policy: Policy, today: int, c: Comparable)
    ensures c in Prescreened(cs, policy, today) <==> c in cs && Passes(c, policy, today)
  {
    if cs != [] {
      PrescreenedIff(cs[..|cs| - 1], policy, today, c);
      assert c in cs <==> c in cs[..|cs| - 1] || c == cs[|cs| - 1];
    }
  }

  /** The prices the screen computes its statistics from. */
  function ScreenedPrices(cs: seq<Comparable>, policy: Policy, today: int): seq<real> {
    Prices(Prescreened(cs, policy, today))
  }

  /** What is included: the inputs that no rule excludes and whose price is not an outlier. */
  lemma IncludedExactly(cs: seq<Comparable>, policy: Policy, today: int, s: Selection, c: Comparable)
    requires Select(cs, policy, today) == Ok(s)
    ensures c in s.included <==>
            c in cs && Passes(c, policy, today)
            && !IsOutlier(Price(c), ScreenedPrices(cs, policy, today), policy.outlierZ)
    ensures c in s.included ==> ValidObservation(c)
  {
    var prescreened := Prescreened(cs, policy, today);
    PrescreenedIff(cs, policy, today, c);
    InlierIff(prescreened, Prices(prescreened), policy.outlierZ, c);
  }

  // ---------------------------------------------------------------- the screen is bounded

  lemma SquareOfProduct(x: real, y: real)
    ensures Square(Times(x, y)) == Times(Square(x), Square(y))
  {
    TimesAssociates(Times(x, y), x, y);
    TimesAssociates(x, x, Times(y, y));
    assert Times(Times(x, y), Times(x, y)) == Times(Times(x, x), Times(y, y));
  }

  lemma SquareSign(x: real)
    ensures Square(-x) == Square(x)
  {
  }

  /** The test the loop makes is the z-score test `|price - mean| / stdev > z`. */
  lemma ZScoreOnSquares(distance: real, stdev: real, z: real)
    requires stdev > 0.0 && z > 0.0
    ensures Quotient(if distance < 0.0 then -distance else distance, stdev) > z
       <==> Square(distance) > Times(Square(z), Square(stdev))
  {
    var d := if distance < 0.0 then -distance else distance;
    var q := Quotient(d, stdev);
    SquareOfProduct(q, stdev);
    SquareSign(distance);
    TimesIncreases(0.0, stdev, stdev);
    assert Times(0.0, stdev) == 0.0;
    if q > z {
      TimesIncreases(z, q, q);
      TimesIncreases(z, q, z);
      TimesCommutes(z, q);
      TimesIncreases(Square(z), Square(q), Square(stdev));
    } else {
      TimesMonotone(q, z, q);
      TimesMonotone(q, z, z);
      TimesCommutes(z, q);
      TimesMonotone(Square(q), Square(z), Square(stdev));
    }
  }

  lemma {:induction false} OutliersCounted(cs: seq<Comparable>, prices: seq<real>, z: real)
    ensures |Inliers(cs, prices, z)| + |Outliers(cs, prices, z)| == |cs| == |Prices(cs)|
    ensures Variance(prices) > 0.0 ==>
            |Outliers(cs, prices, z)| == CountBeyond(Prices(cs), Mean(prices), Limit(prices, z))
    ensures Variance(prices) == 0.0 ==> Outliers(cs, prices, z) == []
  {
    if cs != [] {
      var rest := cs[..|cs| - 1];
      OutliersCounted(rest, prices, z);
      assert Prices(cs)[..|cs| - 1] == Prices(rest);
    }
  }

  /** How many outliers a selection dropped, and how many comparables it screened. */
  lemma ScreenCounts(cs: seq<Comparable>, policy: Policy, today: int, s: Selection) returns (dropped: nat)
    requires Select(cs, policy, today) == Ok(s)
    ensures var prices := ScreenedPrices(cs, policy, today);
            && |s.included| + dropped == |prices|
            && dropped == |s.excluded| - |Rejected(cs, policy, today)|
            && (dropped > 0 ==>
                  Variance(prices) > 0.0
                  && dropped == CountBeyond(prices, Mean(prices), Limit(prices, policy.outlierZ)))
  {
    var prescreened := Prescreened(cs, policy, today);
    OutliersCounted(prescreened, Prices(prescreened), policy.outlierZ);
    dropped := |Outliers(prescreened, Prices(prescreened), policy.outlierZ)|;
  }

  /** Chebyshev: if k > 0 of n screened comparables are dropped as outliers then k z^2 < n. */
  lemma FewAreDropped(cs: seq<Comparable>, policy: Policy, today: int, s: Selection)
    requires Select(cs, policy, today) == Ok(s)
    ensures var dropped := |s.excluded| - |Rejected(cs, policy, today)|;
            dropped > 0 ==>
              Times(dropped as real, Square(policy.outlierZ)) < |ScreenedPrices(cs, policy, today)| as real
  {
    var dropped := ScreenCounts(cs, policy, today, s);
    if dropped > 0 {
      Chebyshev(ScreenedPrices(cs, policy, today), policy.outlierZ);
    }
  }

  /** At a threshold of at least one deviation the screen never empties a nonempty set. */
  lemma SomeAreKept(cs: seq<Comparable>, policy: Policy, today: int, s: Selection)
    requires Select(cs, policy, today) == Ok(s)
    requires policy.outlierZ >= 1.0 && ScreenedPrices(cs, policy, today) != []
    ensures s.included != []
  {
    var dropped := ScreenCounts(cs, policy, today, s);
    FewAreDropped(cs, policy, today, s);
    assert Square(policy.outlierZ) >= 1.0;
    TimesMonotone(1.0, Square(policy.outlierZ), dropped as real);
    TimesCommutes(dropped as real, Square(policy.outlierZ));
    assert Times(1.0, dropped as real) == dropped as real;
  }

  lemma {:induction false} BeyondIsSomewhere(xs: seq<real>, m: real, t: real) returns (i: nat)
    requires CountBeyond(xs, m, t) > 0
    ensures i < |xs| && Square(xs[i] - m) > t
  {
    i := |xs| - 1;
    if Square(xs[i] - m) <= t {
      i := BeyondIsSomewhere(xs[..|xs| - 1], m, t);
    }
  }

  /** Samuelson: nothing is dropped from n <= z^2 + 1 comparables. */
  lemma SmallSetsKeepAll(cs: seq<Comparable>, policy: Policy, today: int, s: Selection)
    requires Select(cs, policy, today) == Ok(s)
    requires |ScreenedPrices(cs, policy, today)| as real <= Square(policy.outlierZ) + 1.0
    ensures |s.excluded| == |Rejected(cs, policy, today)|
  {
    var prices := ScreenedPrices(cs, policy, today);
    var dropped := ScreenCounts(cs, policy, today, s);
    if dropped > 0 {
      var i := BeyondIsSomewhere(prices, Mean(prices), Limit(prices, policy.outlierZ));
      Samuelson(prices, i);
      TimesMonotone(|prices| as real - 1.0, Square(policy.outlierZ), Variance(prices));
    }
  }

  // ---------------------------------------------------------------- the rules

  predicate HasPrice(c: Comparable) {
    (c.soldPrice.Some? && c.soldPrice.value != 0.0) || c.listedPrice.Some?
  }

  predicate CurrencyAllowed(c: Comparable, policy: Policy) {
    exists a | a in policy.allowedCurrencies :: Upper(a) == Upper(c.currency)
  }

  predicate IsOld(c: Comparable, policy: Policy, today: int) {
    c.saleDay.Some? && today - c.saleDay.value > policy.maxAgeDays
  }

  /** Currencies are compared without regard to the case of their letters. */
  lemma UpperIs(s: string, i: nat)
    requires i < |s|
    ensures |Upper(s)| == |s|
    ensures if 'a' <= s[i] <= 'z' then 'A' <= Upper(s)[i] <= 'Z' && Upper(s)[i] - 'A' == s[i] - 'a' else Upper(s)[i] == s[i]
  {}

  /** An unknown reliability, or one of zero, counts as a half. */
  lemma ReliabilityIs(c: Comparable)
    ensures c.reliability.None? || c.reliability == Some(0.0) ==> ReliabilityOf(c) == 0.5
    ensures c.reliability.Some? && c.reliability != Some(0.0) ==> Some(ReliabilityOf(c)) == c.reliability
  {}

  /** A comparable passes exactly when it is reviewed where that is asked, not invalidated, priced, in an
      allowed currency, reliable and similar enough where that is known, and not too old. */
  lemma PassesExactly(c: Comparable, policy: Policy, today: int)
    ensures Passes(c, policy, today) <==>
            && (policy.reviewedOnly ==> c.accepted) && !c.invalidated && HasPrice(c) && CurrencyAllowed(c, policy)
            && (c.reliability.Some? ==> c.reliability.value >= policy.reliabilityThreshold)
            && (c.similarity.Some? ==> c.similarity.value >= policy.similarityThreshold)
            && !IsOld(c, policy, today)
  {}

  /** What each reason for an exclusion says of the comparable. */
  predicate ReasonHolds(e: Exclusion, cs: seq<Comparable>, policy: Policy, today: int) {
    var c := e.comparable;
    match e.reason
    case NotReviewed => policy.reviewedOnly && !c.accepted
    case Invalidated => c.invalidated
    case NoPrice => !HasPrice(c)
    case CurrencyRestricted => !CurrencyAllowed(c, policy)
    case ReliabilityBelowThreshold => c.reliability.Some? && c.reliability.value < policy.reliabilityThreshold
    case SimilarityBelowThreshold => c.similarity.Some? && c.similarity.value < policy.similarityThreshold
    case TooOld => c.saleDay.Some? && today - c.saleDay.value > policy.maxAgeDays
    case PriceOutlier =>
      Passes(c, policy, today) && IsOutlier(Price(c), ScreenedPrices(cs, policy, today), policy.outlierZ)
  }

  lemma {:induction false} RejectedHold(cs: seq<Comparable>, all: seq<Comparable>, policy: Policy, today: int)
    ensures forall e | e in Rejected(cs, policy, today) :: ReasonHolds(e, all, policy, today)
  {
    if cs != [] {
      RejectedHold(cs[..|cs| - 1], all, policy, today);
    }
  }

  lemma {:induction false} OutliersHold(screened: seq<Comparable>, cs: seq<Comparable>, policy: Policy, today: int)
    requires forall c | c in screened :: Passes(c, policy, today)
    ensures forall e | e in Outliers(screened, ScreenedPrices(cs, policy, today), policy.outlierZ) ::
              ReasonHolds(e, cs, policy, today)
  {
    if screened != [] {
      OutliersHold(screened[..|screened| - 1], cs, policy, today);
    }
  }

  /** Every exclusion a selection records gives a reason that holds. */
  lemma ReasonsHold(cs: seq<Comparable>, policy: Policy, today: int, s: Selection)
    requires Select(cs, policy, today) == Ok(s)
    ensures forall e | e in s.excluded :: ReasonHolds(e, cs, policy, today)
  {
    var prescreened := Prescreened(cs, policy, today);
    RejectedHold(cs, cs, policy, today);
    forall c | c in prescreened ensures Passes(c, policy, today) {
      PrescreenedIff(cs, policy, today, c);
    }
    OutliersHold(prescreened, cs, policy, today);
  }

  /** The price of a comparable is its sold price, unless that is missing or zero; then the listed one. */
  lemma PricesAre(c: Comparable)
    ensures c.soldPrice.Some? && c.soldPrice.value != 0.0 ==> Price(c) == c.soldPrice.value
    ensures (c.soldPrice == None || c.soldPrice == Some(0.0)) && c.listedPrice.Some? ==> Price(c) == c.listedPrice.value
  {}

  /** A selection fails exactly when it would include a comparable without a positive price or with a known
      reliability outside 0 to 1. */
  lemma SelectionFailsExactly(cs: seq<Comparable>, policy: Policy, today: int)
    ensures Select(cs, policy, today).Err? <==>
            exists c :: && c in cs && Passes(c, policy, today)
                        && !IsOutlier(Price(c), ScreenedPrices(cs, policy, today), policy.outlierZ)
                        && (Price(c) <= 0.0 || (c.reliability.Some? && (c.reliability.value < 0.0 || c.reliability.value > 1.0)))
  {
    var prescreened := Prescreened(cs, policy, today);
    var prices := ScreenedPrices(cs, policy, today);
    forall c ensures c in Inliers(prescreened, prices, policy.outlierZ) <==>
                     c in cs && Passes(c, policy, today) && !IsOutlier(Price(c), prices, policy.outlierZ) {
      PrescreenedIff(cs, policy, today, c);
      InlierIff(prescreened, prices, policy.outlierZ, c);
    }
    forall c | Passes(c, policy, today)
      ensures ValidObservation(c) <==>
              !(Price(c) <= 0.0 || (c.reliability.Some? && (c.reliability.value < 0.0 || c.reliability.value > 1.0))) {
    }
  }

  /** A price is dropped exactly when it lies more than z standard deviations from the mean of the screened prices. */
  lemma OutlierByZScore(price: real, prices: seq<real>, stdev: real, z: real)
    requires stdev >= 0.0 && Square(stdev) == Variance(prices) && z > 0.0
    ensures IsOutlier(price, prices, z) <==>
            stdev > 0.0 &&
            var distance := price - Mean(prices);
            Quotient(if distance < 0.0 then -distance else distance, stdev) > z
  {
    if stdev > 0.0 {
      TimesIncreases(0.0, stdev, stdev);
      assert Times(0.0, stdev) == 0.0;
      ZScoreOnSquares(price - Mean(prices), stdev, z);
    } else {
      assert Square(0.0) == 0.0;
    }
  }
}
