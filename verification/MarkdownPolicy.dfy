/** `evaluate_markdown`: the next price of a listing that has gone stale, and what a whole
    sequence of markdowns can do to a price.  Amounts are in cents. */
module MarkdownPolicy {
  import opened Money

  /** One entry of `stale_thresholds`: the markdown percent from an age in days on. */
  datatype Bracket = Bracket(days: int, percent: real)

  datatype MarkdownInputs = MarkdownInputs(
    currentPrice: real,
    minimumPrice: real,
    daysListed: int,
    hoursSinceLastChange: real,
    totalReductionPercent: real)

  /** `brackets` is `sorted(stale_thresholds)`: the distinct thresholds in ascending order. */
  datatype MarkdownRules = MarkdownRules(
    maximumDailyPercent: real,
    maximumTotalPercent: real,
    cooldownHours: real,
    increment: real,
    brackets: seq<Bracket>)

  datatype Outcome = Hold | Markdown(price: real)

  predicate Valid(rules: MarkdownRules) {
    && 0.0 < rules.maximumDailyPercent <= 100.0 && 0.0 < rules.maximumTotalPercent <= 100.0
    && rules.increment > 0.0
    && (forall i, j :: 0 <= i < j < |rules.brackets| ==> rules.brackets[i].days < rules.brackets[j].days)
  }

  /** The percent of the oldest bracket the listing has reached, or 0 when it has reached none. */
  function BracketPercent(brackets: seq<Bracket>, days: int): real {
    if brackets == [] then 0.0
    else if brackets[|brackets| - 1].days <= days then brackets[|brackets| - 1].percent
    else BracketPercent(brackets[..|brackets| - 1], days)
  }

  /** In ascending order the last bracket reached is the one with the greatest threshold. */
  lemma {:induction false} BracketIsGreatestReached(rules: MarkdownRules, days: int, i: int)
    requires Valid(rules) && 0 <= i < |rules.brackets|
    requires rules.brackets[i].days <= days
    requires i + 1 < |rules.brackets| ==> days < rules.brackets[i + 1].days
    ensures BracketPercent(rules.brackets, days) == rules.brackets[i].percent
    decreases |rules.brackets|
  {
    var last := |rules.brackets| - 1;
    if i < last {
      assert rules.brackets[last].days > days;
      BracketIsGreatestReached(rules.(brackets := rules.brackets[..last]), days, i);
    }
  }

  /** The percent after the daily and the total cap. */
  function CappedPercent(inputs: MarkdownInputs, rules: MarkdownRules): (percent: real)
    requires Valid(rules)
    ensures percent <= rules.maximumDailyPercent
  {
    var bracket := BracketPercent(rules.brackets, inputs.daysListed);
    var daily := if rules.maximumDailyPercent < bracket then rules.maximumDailyPercent else bracket;
    if inputs.totalReductionPercent + daily > rules.maximumTotalPercent
    then Max(0.0, rules.maximumTotalPercent - inputs.totalReductionPercent)
    else daily
  }

  function PercentOf(price: real, percent: real): real {
    price * percent / 100.0
  }

  lemma PercentOfMonotone(price: real, low: real, high: real)
    requires price >= 0.0 && low <= high
    ensures PercentOf(price, low) <= PercentOf(price, high)
  {
    ProductNonnegative(price, high - low);
    assert price * (high - low) == price * high - price * low;
  }

  function Reduced(price: real, percent: real): (reduced: real)
    ensures reduced == price - PercentOf(price, percent)
  {
    assert price * (1.0 - percent / 100.0) == price - PercentOf(price, percent);
    price * (1.0 - percent / 100.0)
  }

  /** The `k`-th price on the marketplace's rounding grid. */
  function GridPoint(k: int, increment: real): real {
    k as real * increment
  }

  /** Round half up to the marketplace increment. */
  function ToIncrement(x: real, increment: real): (rounded: real)
    requires increment > 0.0
    ensures x - increment / 2.0 <= rounded <= x + increment / 2.0
    ensures rounded == GridPoint(RoundHalfUp(x / increment), increment)
  {
    GridError(x / increment, RoundHalfUp(x / increment), increment);
    assert x / increment * increment == x;
    RoundHalfUp(x / increment) as real * increment
  }

  lemma GridError(q: real, k: int, increment: real)
    requires increment > 0.0 && q - 0.5 <= k as real <= q + 0.5
    ensures q * increment - increment / 2.0 <= GridPoint(k, increment) <= q * increment + increment / 2.0
  {
    ProductNonnegative(k as real - q + 0.5, increment);
    ProductNonnegative(q + 0.5 - k as real, increment);
  }

  /** Whole-cent increments give whole-cent grids. */
  lemma GridOfWholeCents(k: int, increment: real)
    requires WholeCents(increment)
    ensures WholeCents(GridPoint(k, increment))
  {
    assert GridPoint(k, increment) == (k * increment.Floor) as real;
    WholeCentsOfInt(k * increment.Floor);
  }

  /** Different grid points are at least an increment apart. */
  lemma GridGap(j: int, k: int, increment: real)
    requires increment > 0.0
    ensures GridPoint(k + 1, increment) == GridPoint(k, increment) + increment
    ensures GridPoint(j, increment) < GridPoint(k, increment) ==> GridPoint(j, increment) <= GridPoint(k, increment) - increment
  {
    if j < k {
      ProductNonnegative((k - 1 - j) as real, increment);
    } else {
      ProductNonnegative((j - k) as real, increment);
    }
  }

  /** The rounded and floored price the policy compares with the current one. */
  function Proposed(inputs: MarkdownInputs, rules: MarkdownRules): real
    requires Valid(rules)
  {
    var rounded := ToIncrement(Reduced(inputs.currentPrice, CappedPercent(inputs, rules)), rules.increment);
    if rounded < inputs.minimumPrice then inputs.minimumPrice else rounded
  }

  function EvaluateMarkdown(inputs: MarkdownInputs, rules: MarkdownRules): Outcome
    requires Valid(rules)
  {
    if inputs.hoursSinceLastChange < rules.cooldownHours then Hold
    else if BracketPercent(rules.brackets, inputs.daysListed) == 0.0 then Hold
    else if Proposed(inputs, rules) >= inputs.currentPrice then Hold
    else Markdown(ToCents(Proposed(inputs, rules)))
  }

  /** The policy as it runs: the loop over the thresholds keeps the last one reached, and the
      percent and the proposed price are then clamped in turn. */
  method Evaluate(inputs: MarkdownInputs, rules: MarkdownRules) returns (outcome: Outcome)
    requires Valid(rules)
    ensures outcome == EvaluateMarkdown(inputs, rules)
  {
    if inputs.hoursSinceLastChange < rules.cooldownHours {
      return Hold;
    }
    var percent := 0.0;
    for i := 0 to |rules.brackets|
      invariant percent == BracketPercent(rules.brackets[..i], inputs.daysListed)
    {
      assert rules.brackets[..i + 1][..i] == rules.brackets[..i];
      if inputs.daysListed >= rules.brackets[i].days {
        percent := rules.brackets[i].percent;
      }
    }
    assert rules.brackets[..|rules.brackets|] == rules.brackets;
    if percent == 0.0 {
      return Hold;
    }
    percent := if rules.maximumDailyPercent < percent then rules.maximumDailyPercent else percent;
    if inputs.totalReductionPercent + percent > rules.maximumTotalPercent {
      percent := Max(0.0, rules.maximumTotalPercent - inputs.totalReductionPercent);
    }
    var proposed := Reduced(inputs.currentPrice, percent);
    proposed := ToIncrement(proposed, rules.increment);
    if proposed < inputs.minimumPrice {
      proposed := inputs.minimumPrice;
    }
    if proposed >= inputs.currentPrice {
      return Hold;
    }
    return Markdown(ToCents(proposed));
  }

  // ---------------------------------------------------------------- one markdown

  predicate OnGrid(price: real, increment: real)
    requires increment > 0.0
  {
    price == GridPoint(RoundHalfUp(price / increment), increment)
  }

  lemma GridPointOnGrid(k: int, increment: real)
    requires increment > 0.0
    ensures OnGrid(GridPoint(k, increment), increment)
  {
    assert GridPoint(k, increment) / increment == k as real;
    WholeCentsOfInt(k);
    ToCentsOfWhole(k as real);
  }

  /** A markdown from `price` to `next` that some age, time since the last change and total reduction lead to. */
  ghost predicate MarksDown(price: real, next: real, minimum: real, rules: MarkdownRules)
    requires Valid(rules)
  {
    exists days: int, hours: real, total: real ::
      EvaluateMarkdown(MarkdownInputs(price, minimum, days, hours, total), rules) == Markdown(next)
  }

  /** A markdown lowers the price, keeps it at or above the minimum, takes at most the daily cap
      plus half an increment, and lands on the grid or on the minimum. */
  lemma MarkdownIsBounded(price: real, next: real, minimum: real, rules: MarkdownRules)
    requires Valid(rules) && WholeCents(rules.increment) && WholeCents(minimum) && price >= 0.0
    requires MarksDown(price, next, minimum, rules)
    ensures minimum <= next < price
    ensures price - next <= PercentOf(price, rules.maximumDailyPercent) + rules.increment / 2.0
    ensures OnGrid(next, rules.increment) || next == minimum
  {
    var days: int, hours: real, total: real :|
      EvaluateMarkdown(MarkdownInputs(price, minimum, days, hours, total), rules) == Markdown(next);
    var inputs := MarkdownInputs(price, minimum, days, hours, total);
    var percent := CappedPercent(inputs, rules);
    var rounded := ToIncrement(Reduced(price, percent), rules.increment);
    PercentOfMonotone(price, percent, rules.maximumDailyPercent);
    var k := RoundHalfUp(Reduced(price, percent) / rules.increment);
    GridOfWholeCents(k, rules.increment);
    GridPointOnGrid(k, rules.increment);
    ToCentsOfWhole(Proposed(inputs, rules));
  }

  // ---------------------------------------------------------------- runs of markdowns

  /** A price history in which every change is a markdown under fixed rules and a fixed minimum;
      age, cooldown and total reduction may be anything at each change. */
  ghost predicate MarkdownRun(prices: seq<real>, minimum: real, rules: MarkdownRules)
    requires Valid(rules)
  {
    |prices| > 0 && prices[0] >= 0.0
    && forall i :: 0 <= i < |prices| - 1 ==> MarksDown(prices[i], prices[i + 1], minimum, rules)
  }

  /** Prices fall strictly and never go under the minimum. */
  lemma {:induction false} RunFalls(prices: seq<real>, minimum: real, rules: MarkdownRules, i: nat, j: nat)
    requires Valid(rules) && WholeCents(rules.increment) && WholeCents(minimum) && minimum >= 0.0
    requires MarkdownRun(prices, minimum, rules) && i < j < |prices|
    ensures 0.0 <= minimum <= prices[j] < prices[i]
    decreases j
  {
    if i + 1 < j {
      RunFalls(prices, minimum, rules, i, j - 1);
    } else if i > 0 {
      RunFalls(prices, minimum, rules, i - 1, i);
    }
    assert MarksDown(prices[j - 1], prices[j], minimum, rules);
    MarkdownIsBounded(prices[j - 1], prices[j], minimum, rules);
  }

  /** From the first markdown on, all but the last are at least an increment each. */
  lemma {:induction false} RunDescends(prices: seq<real>, minimum: real, rules: MarkdownRules, n: nat)
    requires Valid(rules) && WholeCents(rules.increment) && WholeCents(minimum) && minimum >= 0.0
    requires MarkdownRun(prices, minimum, rules) && 1 <= n < |prices| - 1
    ensures OnGrid(prices[n], rules.increment)
    ensures GridPoint(n - 1, rules.increment) <= prices[1] - prices[n]
  {
    RunFalls(prices, minimum, rules, n - 1, n);
    RunFalls(prices, minimum, rules, n, n + 1);
    if n > 1 {
      RunFalls(prices, minimum, rules, 0, n - 1);
    }
    assert MarksDown(prices[n - 1], prices[n], minimum, rules);
    MarkdownIsBounded(prices[n - 1], prices[n], minimum, rules);
    if n > 1 {
      RunDescends(prices, minimum, rules, n - 1);
      GridGap(RoundHalfUp(prices[n] / rules.increment), RoundHalfUp(prices[n - 1] / rules.increment), rules.increment);
      GridGap(0, n - 2, rules.increment);
    }
  }

  function Ceiling(x: real): int {
    -((-x).Floor)
  }

  /** A run of markdowns is at most one longer than the number of increments between its start and the minimum. */
  lemma RunIsShort(prices: seq<real>, minimum: real, rules: MarkdownRules)
    requires Valid(rules) && WholeCents(rules.increment) && WholeCents(minimum) && minimum >= 0.0
    requires MarkdownRun(prices, minimum, rules) && |prices| > 1
    ensures |prices| - 1 <= Ceiling((prices[0] - minimum) / rules.increment) + 1
  {
    var markdowns := |prices| - 1;
    var gap := prices[0] - minimum;
    RunFalls(prices, minimum, rules, 0, markdowns);
    if markdowns >= 2 {
      RunDescends(prices, minimum, rules, markdowns - 1);
      RunFalls(prices, minimum, rules, 0, 1);
      RunFalls(prices, minimum, rules, markdowns - 1, markdowns);
    }
    StepsFit(markdowns - 2, gap, rules.increment);
  }

  lemma StepsFit(steps: int, gap: real, increment: real)
    requires increment > 0.0 && gap > 0.0
    requires steps >= 0 ==> GridPoint(steps, increment) < gap
    ensures steps < Ceiling(gap / increment)
  {
    assert gap / increment * increment == gap;
    if steps as real >= gap / increment {
      ProductNonnegative(steps as real - gap / increment, increment);
    }
    assert gap / increment > 0.0;
  }

  // ---------------------------------------------------------------- when and by how much

  function Min(x: real, y: real): real {
    if y < x then y else x
  }

  /** The percent taken is the least of the age bracket's, the daily cap and what the total cap leaves. */
  lemma PercentIsLeast(inputs: MarkdownInputs, rules: MarkdownRules)
    requires Valid(rules) && BracketPercent(rules.brackets, inputs.daysListed) >= 0.0
    ensures CappedPercent(inputs, rules) ==
            Min(Min(BracketPercent(rules.brackets, inputs.daysListed), rules.maximumDailyPercent),
                Max(0.0, rules.maximumTotalPercent - inputs.totalReductionPercent))
  {}

  /** Before every threshold no percent applies. */
  lemma {:induction false} NoBracketReached(brackets: seq<Bracket>, days: int)
    requires forall i :: 0 <= i < |brackets| ==> brackets[i].days > days
    ensures BracketPercent(brackets, days) == 0.0
  {
    if brackets != [] {
      NoBracketReached(brackets[..|brackets| - 1], days);
    }
  }

  /** A markdown needs the cooldown over and a bracket reached; it is then made exactly when the price it
      comes to, rounded to the increment and raised to the minimum, is under the current one. */
  lemma MarkedDownExactly(inputs: MarkdownInputs, rules: MarkdownRules)
    requires Valid(rules)
    ensures EvaluateMarkdown(inputs, rules).Markdown? <==>
            && inputs.hoursSinceLastChange >= rules.cooldownHours
            && BracketPercent(rules.brackets, inputs.daysListed) != 0.0
            && inputs.minimumPrice < inputs.currentPrice
            && ToIncrement(inputs.currentPrice - PercentOf(inputs.currentPrice, CappedPercent(inputs, rules)), rules.increment)
               < inputs.currentPrice
  {}

  /** The new price is the minimum, or lies within half an increment of the price less its percent. */
  lemma NewPriceIs(inputs: MarkdownInputs, rules: MarkdownRules)
    requires Valid(rules) && WholeCents(rules.increment) && WholeCents(inputs.minimumPrice)
    requires EvaluateMarkdown(inputs, rules).Markdown?
    ensures var price := EvaluateMarkdown(inputs, rules).price;
            var exact := inputs.currentPrice - PercentOf(inputs.currentPrice, CappedPercent(inputs, rules));
            if price == inputs.minimumPrice then exact <= price + rules.increment / 2.0
            else exact - rules.increment / 2.0 <= price <= exact + rules.increment / 2.0
  {
    var exact := Reduced(inputs.currentPrice, CappedPercent(inputs, rules));
    var k := RoundHalfUp(exact / rules.increment);
    GridOfWholeCents(k, rules.increment);
    ToCentsOfWhole(Proposed(inputs, rules));
  }

  /** Taking the reductions so far and a markdown together, the total cap is kept unless it was passed before. */
  lemma TotalCapIsKept(inputs: MarkdownInputs, rules: MarkdownRules)
    requires Valid(rules) && BracketPercent(rules.brackets, inputs.daysListed) >= 0.0
    ensures inputs.totalReductionPercent + CappedPercent(inputs, rules) <=
            Max(rules.maximumTotalPercent, inputs.totalReductionPercent)
    ensures 0.0 <= CappedPercent(inputs, rules) <= rules.maximumDailyPercent
  {}

  lemma PercentOfIs(price: real, percent: real)
    ensures PercentOf(price, percent) * 100.0 == Kept(price, percent)
  {}
}
