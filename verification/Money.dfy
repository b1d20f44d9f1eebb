/** Decimal money: ROUND_HALF_UP to whole cents over exact reals.

    Every amount in this project is a real number OF CENTS, so that `Decimal("0.01")`
    is 1.0 and `_money` rounds to an integer.  A tie goes away from zero, so rounding
    is not invariant under translation through zero; the lemmas say where it is. */
module Money {

  /** `quantize(..., rounding=ROUND_HALF_UP)` at the unit: the nearest integer, ties away from zero. */
  function RoundHalfUp(x: real): int {
    if x >= 0.0 then (x + 0.5).Floor else -((0.5 - x).Floor)
  }

  /** `_money`: the nearest whole cent. */
  function ToCents(x: real): real {
    RoundHalfUp(x) as real
  }

  /** An amount of whole cents. */
  predicate WholeCents(x: real) {
    x.Floor as real == x
  }

  lemma FloorIs(x: real, k: int)
    requires k as real <= x < k as real + 1.0
    ensures x.Floor == k
  {
  }

  lemma WholeCentsOfInt(k: int)
    ensures (k as real).Floor == k && WholeCents(k as real)
  {
    FloorIs(k as real, k);
  }

  lemma RoundMonotone(x: real, y: real)
    requires x <= y
    ensures RoundHalfUp(x) <= RoundHalfUp(y)
  {
  }

  lemma RoundReaches(x: real, k: int)
    requires k >= 0 && x > k as real - 0.5
    ensures RoundHalfUp(x) >= k
  {
  }

  lemma RoundTranslates(x: real, k: int)
    requires k >= 0 && x > -0.5
    ensures RoundHalfUp(x + k as real) == RoundHalfUp(x) + k
  {
  }

  /** Rounding moves an amount by at most half a cent, and rounds a nonnegative
      amount down by strictly less, because a tie goes up. */
  lemma ToCentsError(x: real)
    ensures WholeCents(ToCents(x))
    ensures x - 0.5 <= ToCents(x) <= x + 0.5
    ensures x >= 0.0 ==> x - 0.5 < ToCents(x)
  {
    WholeCentsOfInt(RoundHalfUp(x));
  }

  lemma ToCentsOfWhole(x: real)
    requires WholeCents(x)
    ensures ToCents(x) == x
  {
    var k := x.Floor;
    FloorIs(k as real + 0.5, k);
    FloorIs(0.5 - k as real, -k);
  }

  lemma ToCentsMonotone(x: real, y: real)
    requires x <= y
    ensures ToCents(x) <= ToCents(y)
  {
    RoundMonotone(x, y);
  }

  /** Whole-cent bounds on an amount are bounds on its rounding. */
  lemma ToCentsBetween(x: real, low: real, high: real)
    requires WholeCents(low) && WholeCents(high) && low <= x <= high
    ensures low <= ToCents(x) <= high
  {
    ToCentsMonotone(low, x);
    ToCentsMonotone(x, high);
    ToCentsOfWhole(low);
    ToCentsOfWhole(high);
  }

  /** Rounding cannot leave an amount below a whole-cent bound that it misses by less than half a cent. */
  lemma ToCentsReaches(x: real, bound: real)
    requires WholeCents(bound) && bound >= 0.0 && x > bound - 0.5
    ensures ToCents(x) >= bound
  {
    RoundReaches(x, bound.Floor);
  }

  /** Rounding commutes with adding whole cents on the amounts that do not round to a negative cent. */
  lemma ToCentsTranslates(x: real, c: real)
    requires WholeCents(c) && c >= 0.0 && x > -0.5
    ensures ToCents(x + c) == ToCents(x) + c
  {
    RoundTranslates(x, c.Floor);
  }

  /** An amount that is not a whole number of cents is not recovered by rounding it up to a
      price that also carries some cost `extra` and then taking that cost off again. */
  lemma SubCentShortfall(x: real) returns (extra: real)
    requires x >= 0.0 && !WholeCents(x)
    ensures 0.0 < extra < 1.0
    ensures ToCents(x + extra) > 0.0
    ensures ToCents(ToCents(x + extra) - extra) < x
  {
    var k := x.Floor;
    var half := (x - k as real) / 2.0;
    extra := 1.0 - half;
    FloorIs(x + extra + 0.5, k + 1);
    FloorIs(k as real + half + 0.5, k);
  }

  /** What an amount lacks to the next whole cent. */
  function Shortfall(x: real): (s: real)
    ensures 0.0 <= s < 1.0 && WholeCents(x + s) && (s == 0.0 <==> WholeCents(x))
  {
    var k := -((-x).Floor);
    WholeCentsOfInt(k);
    FloorIs(x, if x == k as real then k else k - 1);
    k as real - x
  }

  /** An amount under a whole cent by more than half a cent rounds to less than it. */
  lemma ToCentsMisses(x: real, bound: real)
    requires WholeCents(bound) && bound >= 0.0 && x < bound - 0.5
    ensures ToCents(x) <= bound - 1.0
  {
    var k := bound.Floor;
    if x >= 0.0 {
      assert (x + 0.5).Floor < k;
    } else {
      assert (0.5 - x).Floor >= 1 - k;
    }
  }

  // ---------------------------------------------------------------- fees and rates

  function Max(x: real, y: real): real {
    if y > x then y else x
  }

  /** A share of an amount. */
  function Kept(amount: real, share: real): real {
    amount * share
  }

  /** What is left of an amount after a percentage fee. */
  function AfterFee(amount: real, fee: real): real {
    amount - amount * fee
  }

  lemma ProductPositive(x: real, y: real)
    requires x > 0.0 && y > 0.0
    ensures x * y > 0.0
  {
  }

  lemma ProductNonnegative(x: real, y: real)
    requires x >= 0.0 && y >= 0.0
    ensures x * y >= 0.0
  {
  }

  lemma ScaledDown(x: real, factor: real)
    requires x >= 0.0 && factor <= 1.0
    ensures x * factor <= x
  {
    ProductNonnegative(x, 1.0 - factor);
  }

  lemma ScaledAbove(gap: real, rate: real, bound: real)
    requires 0.0 < rate <= 1.0 && gap > -bound && bound > 0.0
    ensures gap * rate > -bound
  {
    ProductPositive(gap + bound, rate);
    ScaledDown(bound, rate);
  }

  lemma Distribute(p: real, k: real, f: real)
    ensures p * AfterFee(k, f) == AfterFee(p * k, f)
  {
  }

  lemma DivideBack(p: real, x: real, r: real)
    requires r > 0.0
    ensures (p - x / r) * r == p * r - x
  {
    assert x / r * r == x;
  }

  /** The price whose net of the percentage fee is `net`. */
  function BeforeFee(net: real, fee: real): (price: real)
    requires fee != 1.0
    ensures 0.0 <= fee < 1.0 && net >= 0.0 ==> price >= 0.0
    ensures AfterFee(price, fee) == net
  {
    AfterFeeInverse(net, 1.0 - fee);
    net / (1.0 - fee)
  }

  lemma AfterFeeInverse(net: real, keep: real)
    requires keep != 0.0
    ensures AfterFee(net / keep, 1.0 - keep) == net
    ensures keep > 0.0 && net >= 0.0 ==> net / keep >= 0.0
  {
    assert net / keep * keep == net;
    assert AfterFee(net / keep, 1.0 - keep) == net / keep * keep;
  }

  lemma AfterFeeSum(x: real, y: real, fee: real)
    ensures AfterFee(x + y, fee) == AfterFee(x, fee) + AfterFee(y, fee)
  {
  }

  lemma AfterFeeOfHalf(fee: real)
    ensures AfterFee(0.5, fee) == 0.5 - fee / 2.0
  {
  }

  lemma AfterFeeGrows(x: real, y: real, fee: real)
    requires fee < 1.0 && x < y
    ensures AfterFee(x, fee) < AfterFee(y, fee)
  {
    ProductPositive(y - x, 1.0 - fee);
    AfterFeeSum(y - x, x, fee);
  }

  /** A price at or above the rounded floor nets more than the required amount less half a cent after the fee. */
  lemma NetOverFloor(price: real, exact: real, fee: real, required: real)
    requires fee < 1.0 && exact >= 0.0 && AfterFee(exact, fee) == required && price >= ToCents(exact)
    ensures AfterFee(price, fee) > required - 0.5 + fee / 2.0
  {
    ToCentsError(exact);
    AfterFeeGrows(exact - 0.5, price, fee);
    AfterFeeSum(exact - 0.5, 0.5, fee);
    AfterFeeOfHalf(fee);
  }

  /** A price above `m` that rounds to it, as far above as makes the fee take more than the rounding can restore. */
  lemma LosingGap(shortfall: real, fee: real) returns (gap: real)
    requires fee < 1.0 && shortfall >= 0.0 && shortfall > fee / 2.0
    ensures 0.0 <= gap < 0.5 && AfterFee(gap, fee) > 0.5 - shortfall
  {
    var least := if shortfall >= 0.5 then 0.0 else BeforeFee(0.5 - shortfall, fee);
    if shortfall < 0.5 {
      AfterFeeOfHalf(fee);
      if least > 0.5 {
        AfterFeeGrows(0.5, least, fee);
      }
      if least < 0.0 {
        AfterFeeGrows(least, 0.0, fee);
        AfterFeeOfNothing(fee);
      }
    } else {
      AfterFeeOfNothing(fee);
    }
    gap := (least + 0.5) / 2.0;
    AfterFeeGrows(least, gap, fee);
  }

  lemma AfterFeeOfNothing(fee: real)
    ensures AfterFee(0.0, fee) == 0.0
  {
  }

  /** A whole price that is worth at least an amount after the fee. */
  lemma WholePriceWorth(amount: real, fee: real) returns (k: int)
    requires fee < 1.0 && amount >= 0.0
    ensures k >= 1 && AfterFee(k as real, fee) >= amount
  {
    var exact := BeforeFee(amount, fee);
    if exact < 0.0 {
      AfterFeeGrows(exact, 0.0, fee);
      AfterFeeOfNothing(fee);
    }
    k := exact.Floor + 1;
    AfterFeeGrows(exact, k as real, fee);
  }

  lemma OnlyPriceBefore(x: real, y: real, fee: real)
    requires fee < 1.0 && AfterFee(x, fee) == AfterFee(y, fee)
    ensures x == y
  {
    if x < y {
      AfterFeeGrows(x, y, fee);
    } else if y < x {
      AfterFeeGrows(y, x, fee);
    }
  }

  lemma RoundsTo(k: int, gap: real)
    requires k >= 0 && 0.0 <= gap < 0.5
    ensures ToCents(k as real + gap) == k as real
  {
    FloorIs(k as real + gap + 0.5, k);
  }
}
