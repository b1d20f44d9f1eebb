/** Mean and population variance of a list of prices, and the two bounds they put on how
    many prices, and which, can lie far from the mean. */
module Statistics {

  /** A product, named so that proofs reason about it through the lemmas below. */
  function Times(x: real, y: real): (p: real)
    ensures x >= 0.0 && y >= 0.0 ==> p >= 0.0
  {
    x * y
  }

  function Square(x: real): (s: real)
    ensures s >= 0.0
  {
    Times(x, x)
  }

  function Quotient(x: real, n: real): (q: real)
    requires n > 0.0
    ensures Times(q, n) == x
    ensures x >= 0.0 ==> q >= 0.0
  {
    x / n
  }

  function Sum(xs: seq<real>): real {
    if xs == [] then 0.0 else Sum(xs[..|xs| - 1]) + xs[|xs| - 1]
  }

  /** The sum of the squared distances from `m`. */
  function SquaredDistance(xs: seq<real>, m: real): (s: real)
    ensures s >= 0.0
  {
    if xs == [] then 0.0 else SquaredDistance(xs[..|xs| - 1], m) + Square(xs[|xs| - 1] - m)
  }

  /** `statistics.fmean`, and 0 for no prices. */
  function Mean(xs: seq<real>): real {
    if xs == [] then 0.0 else Quotient(Sum(xs), |xs| as real)
  }

  /** The square of `statistics.pstdev`, and 0 for fewer than two prices. */
  function Variance(xs: seq<real>): (v: real)
    ensures v >= 0.0
  {
    if |xs| <= 1 then 0.0 else Quotient(SquaredDistance(xs, Mean(xs)), |xs| as real)
  }

  /** The number of values whose squared distance from `m` exceeds `t`. */
  function CountBeyond(xs: seq<real>, m: real, t: real): (k: nat)
    ensures k <= |xs|
  {
    if xs == [] then 0 else CountBeyond(xs[..|xs| - 1], m, t) + if Square(xs[|xs| - 1] - m) > t then 1 else 0
  }

  /** The squared distance from the mean beyond which a value is more than `z` deviations away. */
  function Limit(xs: seq<real>, z: real): (t: real)
    ensures t >= 0.0
  {
    Times(Square(z), Variance(xs))
  }

  // ---------------------------------------------------------------- products

  lemma TimesOneMore(n: real, t: real)
    ensures Times(n + 1.0, t) == Times(n, t) + t
  {
  }

  lemma TimesAssociates(k: real, zz: real, v: real)
    ensures Times(k, Times(zz, v)) == Times(Times(k, zz), v)
  {
  }

  lemma TimesCommutes(x: real, y: real)
    ensures Times(x, y) == Times(y, x)
  {
  }

  lemma TimesMonotone(x: real, y: real, v: real)
    requires v >= 0.0 && x <= y
    ensures Times(x, v) <= Times(y, v)
  {
    assert Times(y - x, v) == Times(y, v) - Times(x, v);
  }

  lemma TimesIncreases(x: real, y: real, v: real)
    requires v > 0.0 && x < y
    ensures Times(x, v) < Times(y, v)
  {
    assert (y - x) * v > 0.0;
    assert Times(y - x, v) == Times(y, v) - Times(x, v);
  }

  // ---------------------------------------------------------------- Chebyshev

  /** Each value beyond `t` contributes more than `t` to the squared distance. */
  lemma {:induction false} BeyondBounded(xs: seq<real>, m: real, t: real)
    requires t >= 0.0
    ensures Times(CountBeyond(xs, m, t) as real, t) <= SquaredDistance(xs, m)
    ensures CountBeyond(xs, m, t) > 0 ==> Times(CountBeyond(xs, m, t) as real, t) < SquaredDistance(xs, m)
  {
    if xs == [] {
      assert Times(0.0, t) == 0.0;
    } else {
      BeyondBounded(xs[..|xs| - 1], m, t);
      TimesOneMore(CountBeyond(xs[..|xs| - 1], m, t) as real, t);
    }
  }

  /** Of n values with positive variance, k > 0 lie beyond z deviations only if k z^2 < n. */
  lemma Chebyshev(xs: seq<real>, z: real)
    requires Variance(xs) > 0.0
    requires CountBeyond(xs, Mean(xs), Limit(xs, z)) > 0
    ensures Times(CountBeyond(xs, Mean(xs), Limit(xs, z)) as real, Square(z)) < |xs| as real
  {
    var k, n := CountBeyond(xs, Mean(xs), Limit(xs, z)) as real, |xs| as real;
    BeyondBounded(xs, Mean(xs), Limit(xs, z));
    TimesAssociates(k, Square(z), Variance(xs));
    TimesCommutes(Variance(xs), n);
    if Times(k, Square(z)) >= n {
      TimesMonotone(n, Times(k, Square(z)), Variance(xs));
    }
  }

  // ---------------------------------------------------------------- Samuelson

  /** What moving the centre by `c` away from `m` adds to the squared distance of `n` values with this sum. */
  function Shift(sum: real, n: real, m: real, c: real): real {
    n * Square(c) - 2.0 * c * (sum - n * m)
  }

  lemma {:induction false} ShiftedDistance(xs: seq<real>, m: real, c: real)
    ensures SquaredDistance(xs, m + c) == SquaredDistance(xs, m) + Shift(Sum(xs), |xs| as real, m, c)
  {
    if xs == [] {
      assert Shift(0.0, 0.0, m, c) == 0.0;
    } else {
      var rest := xs[..|xs| - 1];
      ShiftedDistance(rest, m, c);
      assert |xs| as real == |rest| as real + 1.0;
      ShiftOne(xs[|xs| - 1], m, c, |rest| as real, Sum(rest));
    }
  }

  lemma ShiftOne(x: real, m: real, c: real, n: real, sum: real)
    ensures Square(x - (m + c)) + Shift(sum, n, m, c) == Square(x - m) + Shift(sum + x, n + 1.0, m, c)
  {
  }

  lemma ShiftFromMean(sum: real, n: real, m: real, c: real)
    requires Times(m, n) == sum
    ensures Shift(sum, n, m, c) == Times(n, Square(c))
  {
    assert sum - n * m == 0.0;
  }

  lemma {:induction false} DistanceCoversOne(xs: seq<real>, m: real, i: nat)
    requires i < |xs|
    ensures SquaredDistance(xs, m) >= Square(xs[i] - m)
  {
    if i < |xs| - 1 {
      DistanceCoversOne(xs[..|xs| - 1], m, i);
    }
  }

  /** No value lies more than sqrt(n - 1) deviations from the mean. */
  lemma Samuelson(xs: seq<real>, i: nat)
    requires |xs| > 1 && i < |xs|
    ensures Square(xs[i] - Mean(xs)) <= Times(|xs| as real - 1.0, Variance(xs))
  {
    var m, n := Mean(xs), |xs| as real;
    var d := xs[i] - m;
    var e := Quotient(d, n - 1.0);
    DistanceCoversOne(xs, m + -e, i);
    assert xs[i] - (m + -e) == d + e;
    ShiftedDistance(xs, m, -e);
    ShiftFromMean(Sum(xs), n, m, -e);
    SolveForDeviation(d, e, n, Variance(xs));
  }

  lemma SolveForDeviation(d: real, e: real, n: real, v: real)
    requires n >= 2.0 && Times(e, n - 1.0) == d
    requires Times(v, n) + Times(n, Square(-e)) >= Square(d + e)
    ensures Square(d) <= Times(n - 1.0, v)
  {
    var w := Times(Square(e), n - 1.0);
    assert Square(d + e) - Times(n, Square(-e)) == Times(w, n);
    if v < w {
      TimesIncreases(v, w, n);
    }
    TimesMonotone(w, v, n - 1.0);
    TimesCommutes(v, n - 1.0);
    assert Square(d) == Times(w, n - 1.0);
  }

  // ---------------------------------------------------------------- moments

  function SumOfSquares(xs: seq<real>): real {
    if xs == [] then 0.0 else SumOfSquares(xs[..|xs| - 1]) + Square(xs[|xs| - 1])
  }

  lemma {:induction false} DistanceFromZero(xs: seq<real>)
    ensures SquaredDistance(xs, 0.0) == SumOfSquares(xs)
  {
    if xs != [] {
      DistanceFromZero(xs[..|xs| - 1]);
    }
  }

  /** The mean times the count is the sum; the variance times the count is the sum of the squares less the
      count times the square of the mean. */
  lemma VarianceByMoments(xs: seq<real>)
    requires |xs| > 1
    ensures Times(Mean(xs), |xs| as real) == Sum(xs)
    ensures Times(Variance(xs), |xs| as real) == SumOfSquares(xs) - Times(|xs| as real, Square(Mean(xs)))
  {
    DistanceFromZero(xs);
    ShiftedDistance(xs, 0.0, Mean(xs));
    ShiftOfMean(Sum(xs), |xs| as real, Mean(xs));
    assert 0.0 + Mean(xs) == Mean(xs);
  }

  lemma ShiftOfMean(sum: real, n: real, m: real)
    requires Times(m, n) == sum
    ensures Shift(sum, n, 0.0, m) == -Times(n, Square(m))
  {
    assert Shift(sum, n, 0.0, m) == n * Square(m) - 2.0 * m * sum;
    assert m * sum == n * (m * m);
  }

  /** The sum counts every value once. */
  lemma SumAppends(xs: seq<real>, x: real)
    ensures Sum(xs + [x]) == Sum(xs) + x && SumOfSquares(xs + [x]) == SumOfSquares(xs) + x * x
  {
    assert (xs + [x])[..|xs|] == xs;
  }
}
