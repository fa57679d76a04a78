/** Moments of the marginals and of the joint table (`getExpectedValue`,
    `getVariation`, `getExpectedValueYTimesX`, and the numerator of
    `getCorrelationCoefficient`). Arithmetic is over the reals. */
module Moments {
  import opened Sums
  import opened Tables
  import opened Marginals

  /** `v ** n` for a natural exponent. */
  function Pow(v: real, n: nat): real
  {
    if n == 0 then 1.0 else v * Pow(v, n - 1)
  }


  lemma {:induction false} PowSmall(x: real)
    ensures Pow(x, 1) == x && Pow(x, 2) == x * x
  {
  }

  /** The terms p_i * v_i^power of a distribution, in table order. */
  function Weighted(d: Distribution, power: nat): seq<real>
    requires d.Parallel()
  {
    seq(|d.probs|, i requires 0 <= i < |d.probs| => d.probs[i] * Pow(d.values[i], power))
  }

  /** `getExpectedValue`, with the exponent 1 unless given: the sum of
      p_i * v_i^power over the marginal of `v`. */
  function ExpectedValue(m: Matrix, v: Var, power: nat := 1): real
    requires Defined(m, v)
  {
    Sum(Weighted(Marginal(m, v), power))
  }

  /** The terms x_r^power * p_rc, one per probability cell, row by row. */
  function RowValueTerms(p: Matrix, xs: seq<real>, power: nat): Matrix
    requires |xs| == |p|
  {
    seq(|p|, r requires 0 <= r < |p| =>
      seq(|p[r]|, c requires 0 <= c < |p[r]| => Pow(xs[r], power) * p[r][c]))
  }

  /** The terms y_c^power * p_rc, one per probability cell, row by row. */
  function ColumnValueTerms(p: Matrix, ys: seq<real>, power: nat): Matrix
    requires forall r :: 0 <= r < |p| ==> |p[r]| <= |ys|
  {
    seq(|p|, r requires 0 <= r < |p| =>
      seq(|p[r]|, c requires 0 <= c < |p[r]| => Pow(ys[c], power) * p[r][c]))
  }

  /** Row r of the value terms sums to x_r^power times the row's probability. */
  lemma {:induction false} RowValueTermsSum(p: Matrix, xs: seq<real>, power: nat, r: nat)
    requires |xs| == |p| && r < |p|
    ensures Sum(RowValueTerms(p, xs, power)[r]) == Pow(xs[r], power) * Sum(p[r])
  {
    SumScale(p[r], RowValueTerms(p, xs, power)[r], Pow(xs[r], power));
  }

  /** A distribution whose probabilities are the row sums of a table has the
      sum of its weighted terms equal to the sum of the table's cells, each
      weighted by its row's value. */
  lemma {:induction false} RowTermsTotal(p: Matrix, d: Distribution, power: nat)
    requires d.Parallel() && |d.values| == |p|
    requires d.probs == RowSums(p)
    ensures Sum(Weighted(d, power)) == Sum(Flatten(RowValueTerms(p, d.values, power)))
  {
    var t := RowValueTerms(p, d.values, power);
    forall r | 0 <= r < |t|
      ensures RowSums(t)[r] == Weighted(d, power)[r]
    {
      RowValueTermsSum(p, d.values, power, r);
    }
    assert RowSums(t) == Weighted(d, power);
    SumFlatten(t);
  }

  /** E[X^power] computed from the marginal is E[X^power] computed over the
      joint table: x_r^power * p_rc summed over every probability cell. */
  lemma {:induction false} ExpectedValueXOverCells(m: Matrix, power: nat)
    requires HasRowHeaders(m)
    ensures ExpectedValue(m, X, power) ==
      Sum(Flatten(RowValueTerms(ProbabilityMatrix(m), MarginalX(m).values, power)))
  {
    RowTermsTotal(ProbabilityMatrix(m), MarginalX(m), power);
  }

  /** Column c of the value terms is column c of the cells scaled by y_c^power. */
  lemma {:induction false} ColumnValueTermsSum(p: Matrix, ys: seq<real>, power: nat, c: nat)
    requires forall r :: 0 <= r < |p| ==> |p[r]| == |ys|
    requires c < |ys|
    ensures Sum(Column(ColumnValueTerms(p, ys, power), c)) == Pow(ys[c], power) * Sum(Column(p, c))
  {
    var t := ColumnValueTerms(p, ys, power);
    SumScale(Column(p, c), Column(t, c), Pow(ys[c], power));
  }

  /** On a joint table every probability row has one cell per Y value. */
  lemma {:induction false} JointTableWidth(m: Matrix)
    requires IsJointTable(m)
    ensures forall r :: 0 <= r < |ProbabilityMatrix(m)| ==> |ProbabilityMatrix(m)[r]| == |MarginalY(m).values|
  {
    ProbabilityMatrixCells(m);
    MarginalYEntries(m);
    forall r | 0 <= r < |ProbabilityMatrix(m)|
      ensures |ProbabilityMatrix(m)[r]| == |MarginalY(m).values|
    {
      assert |m[r + 1]| == |m[1]|;
    }
  }

  /** A distribution whose probabilities are the column sums of a table has
      the sum of its weighted terms equal to the sum of the table's cells, each
      weighted by its column's value. */
  lemma {:induction false} ColumnTermsTotal(p: Matrix, d: Distribution, power: nat)
    requires d.Parallel()
    requires forall r :: 0 <= r < |p| ==> |p[r]| == |d.values|
    requires d.probs == ColumnSums(p, |d.values|)
    ensures Sum(Weighted(d, power)) == Sum(Flatten(ColumnValueTerms(p, d.values, power)))
  {
    var w := |d.values|;
    var t := ColumnValueTerms(p, d.values, power);
    forall c | 0 <= c < w
      ensures ColumnSums(t, w)[c] == Weighted(d, power)[c]
    {
      ColumnValueTermsSum(p, d.values, power, c);
    }
    assert ColumnSums(t, w) == Weighted(d, power);
    ColumnSumsTotal(t, w);
  }

  /** E[Y^power] computed from the marginal is E[Y^power] computed over the
      joint table: y_c^power * p_rc summed over every probability cell. */
  lemma {:induction false} ExpectedValueYOverCells(m: Matrix, power: nat)
    requires IsJointTable(m)
    ensures ExpectedValue(m, Y, power) ==
      Sum(Flatten(ColumnValueTerms(ProbabilityMatrix(m), MarginalY(m).values, power)))
  {
    JointTableWidth(m);
    ColumnTermsTotal(ProbabilityMatrix(m), MarginalY(m), power);
  }

  /** The shortcut `second - mean ** 2`. */
  function Shortcut(second: real, mean: real): real
  {
    second - mean * mean
  }

  /** `getVariation`: E[V^2] - E[V]^2. */
  function Variation(m: Matrix, v: Var): real
    requires Defined(m, v)
  {
    Shortcut(ExpectedValue(m, v, 2), ExpectedValue(m, v))
  }

  /** The squared deviations from `mean`, each weighted by its probability. */
  function Spread(d: Distribution, mean: real): seq<real>
    requires d.Parallel()
  {
    seq(|d.probs|, i requires 0 <= i < |d.probs| => d.probs[i] * (d.values[i] - mean) * (d.values[i] - mean))
  }

  /** p * (x - mean)^2 = p * x^2 - 2 * mean * (p * x) + mean^2 * p. */
  lemma {:induction false} ExpandSquare(p: real, x: real, mean: real, square: real, first: real, spread: real)
    requires square == p * (x * x) && first == p * x
    requires spread == p * (x - mean) * (x - mean)
    ensures spread == Combination(1.0, square, -2.0 * mean, first, mean * mean, p)
  {
  }

  /** The expansion of the squared deviation, term by term. */
  lemma {:induction false} SpreadExpansion(d: Distribution, mean: real)
    requires d.Parallel()
    ensures IsCombination(Spread(d, mean), Weighted(d, 2), Weighted(d, 1), d.probs, 1.0, -2.0 * mean, mean * mean)
  {
    forall i | 0 <= i < |d.probs|
      ensures Spread(d, mean)[i] == Combination(1.0, Weighted(d, 2)[i], -2.0 * mean, Weighted(d, 1)[i], mean * mean, d.probs[i])
    {
      PowSmall(d.values[i]);
      ExpandSquare(d.probs[i], d.values[i], mean, Weighted(d, 2)[i], Weighted(d, 1)[i], Spread(d, mean)[i]);
    }
  }

  /** The weighted squared deviations sum to the same combination of the
      moments' sums. */
  lemma {:induction false} SpreadSum(d: Distribution, mean: real)
    requires d.Parallel()
    ensures Sum(Spread(d, mean)) ==
      Combination(1.0, Sum(Weighted(d, 2)), -2.0 * mean, Sum(Weighted(d, 1)), mean * mean, Sum(d.probs))
  {
    SpreadExpansion(d, mean);
    SumLinear(Weighted(d, 2), Weighted(d, 1), d.probs, Spread(d, mean), 1.0, -2.0 * mean, mean * mean);
  }

  lemma {:induction false} CollectShortcut(spread: real, squares: real, firsts: real, total: real,
                                           mean: real, second: real)
    requires spread == Combination(1.0, squares, -2.0 * mean, firsts, mean * mean, total)
    requires squares == second && firsts == mean && total == 1.0
    ensures Shortcut(second, mean) == spread
  {
  }

  /** For a distribution whose probabilities add up to 1, the second moment
      minus the squared mean is the expected squared deviation from the mean. */
  lemma {:induction false} ShortcutIsSpread(d: Distribution, mean: real, second: real)
    requires d.Parallel() && Sum(d.probs) == 1.0
    requires mean == Sum(Weighted(d, 1)) && second == Sum(Weighted(d, 2))
    ensures Shortcut(second, mean) == Sum(Spread(d, mean))
  {
    SpreadSum(d, mean);
    CollectShortcut(Sum(Spread(d, mean)), Sum(Weighted(d, 2)), Sum(Weighted(d, 1)), Sum(d.probs), mean, second);
  }

  /** When the marginal's probabilities add up to 1, the source's shortcut
      E[V^2] - E[V]^2 is the textbook variance: the expected squared deviation
      from the mean. */
  lemma {:induction false} VariationIsExpectedSquaredDeviation(m: Matrix, v: Var)
    requires Defined(m, v)
    requires Sum(Marginal(m, v).probs) == 1.0
    ensures Variation(m, v) == Sum(Spread(Marginal(m, v), ExpectedValue(m, v)))
  {
    ShortcutIsSpread(Marginal(m, v), ExpectedValue(m, v), ExpectedValue(m, v, 2));
  }

  lemma {:induction false} WeightedSquareNonNegative(p: real, deviation: real)
    requires p >= 0.0
    ensures p * deviation * deviation >= 0.0
  {
    assert deviation * deviation >= 0.0;
    assert p * deviation * deviation == p * (deviation * deviation);
  }

  /** With non-negative probabilities every weighted squared deviation is
      non-negative. */
  lemma {:induction false} SpreadNonNegative(d: Distribution, mean: real)
    requires d.Parallel()
    requires forall i :: 0 <= i < |d.probs| ==> d.probs[i] >= 0.0
    ensures Sum(Spread(d, mean)) >= 0.0
  {
    forall i | 0 <= i < |d.probs|
      ensures Spread(d, mean)[i] >= 0.0
    {
      WeightedSquareNonNegative(d.probs[i], d.values[i] - mean);
    }
    SumNonNegative(Spread(d, mean));
  }

  /** A table with non-negative probability cells whose marginal adds up to 1
      has a non-negative variance in that variable. */
  lemma {:induction false} VariationNonNegative(m: Matrix, v: Var)
    requires Defined(m, v)
    requires forall i, j :: 0 <= i < |ProbabilityMatrix(m)| && 0 <= j < |ProbabilityMatrix(m)[i]| ==>
      ProbabilityMatrix(m)[i][j] >= 0.0
    requires Sum(Marginal(m, v).probs) == 1.0
    ensures Variation(m, v) >= 0.0
  {
    MarginalNonNegative(m, v);
    SpreadNonNegative(Marginal(m, v), ExpectedValue(m, v));
    VariationIsExpectedSquaredDeviation(m, v);
  }

  /** The terms x_r * y_c * p_rc, one per probability cell, row by row. */
  function ProductTerms(p: Matrix, xs: seq<real>, ys: seq<real>): Matrix
    requires |xs| == |p|
    requires forall r :: 0 <= r < |p| ==> |p[r]| <= |ys|
  {
    seq(|p|, r requires 0 <= r < |p| =>
      seq(|p[r]|, c requires 0 <= c < |p[r]| => xs[r] * ys[c] * p[r][c]))
  }

  /** `getExpectedValueYTimesX`: x * y * p summed over every
      probability cell, with x and y read from the headers. */
  function ExpectedValueYTimesX(m: Matrix): real
    requires IsJointTable(m)
  {
    ProbabilityMatrixCells(m);
    Sum(Flatten(ProductTerms(ProbabilityMatrix(m), MarginalX(m).values, MarginalY(m).values)))
  }

  /** E(XY) - E[X] * E[Y] from its three ingredients. */
  function Covariance(exy: real, ex: real, ey: real): real
  {
    exy - ex * ey
  }

  /** The numerator of `getCorrelationCoefficient`: E(XY) - E[X] * E[Y]. */
  function CovarianceNumerator(m: Matrix): real
    requires IsJointTable(m)
  {
    Covariance(ExpectedValueYTimesX(m), ExpectedValue(m, X), ExpectedValue(m, Y))
  }

  /** Every probability cell is the product of its two marginal probabilities. */
  predicate Independent(m: Matrix)
    requires IsJointTable(m)
  {
    IsOuterProduct(ProbabilityMatrix(m), MarginalX(m).probs, MarginalY(m).probs)
  }

  lemma {:induction false} CellFactors(x: real, y: real, px: real, py: real, cell: real, wx: real, wy: real, term: real)
    requires cell == px * py && wx == px * x && wy == py * y && term == x * y * cell
    ensures term == wx * wy
  {
  }

  /** When every cell factors as px[r] * py[c], every term x_r * y_c * p_rc
      factors as (px[r] * x_r) * (py[c] * y_c). */
  lemma {:induction false} FactoredTerms(p: Matrix, dx: Distribution, dy: Distribution, t: Matrix)
    requires dx.Parallel() && dy.Parallel() && IsOuterProduct(p, dx.probs, dy.probs)
    requires |dx.values| == |p| && t == ProductTerms(p, dx.values, dy.values)
    ensures IsOuterProduct(t, Weighted(dx, 1), Weighted(dy, 1))
  {
    forall r, c | 0 <= r < |t| && 0 <= c < |t[r]|
      ensures t[r][c] == Weighted(dx, 1)[r] * Weighted(dy, 1)[c]
    {
      PowSmall(dx.values[r]);
      PowSmall(dy.values[c]);
      CellFactors(dx.values[r], dy.values[c], dx.probs[r], dy.probs[c], p[r][c],
                  Weighted(dx, 1)[r], Weighted(dy, 1)[c], t[r][c]);
    }
  }

  /** For factored cells the sum of the cross terms is the product of the two
      first moments. */
  lemma {:induction false} FactoredCrossMoment(p: Matrix, dx: Distribution, dy: Distribution, ex: real, ey: real)
    requires dx.Parallel() && dy.Parallel() && IsOuterProduct(p, dx.probs, dy.probs) && |dx.values| == |p|
    requires ex == Sum(Weighted(dx, 1)) && ey == Sum(Weighted(dy, 1))
    ensures Sum(Flatten(ProductTerms(p, dx.values, dy.values))) == ex * ey
  {
    var t := ProductTerms(p, dx.values, dy.values);
    FactoredTerms(p, dx, dy, t);
    OuterProductSum(t, Weighted(dx, 1), Weighted(dy, 1), ex, ey);
  }

  /** Under independence E(XY) is the product of the two expected values. */
  lemma {:induction false} IndependentProductFactors(m: Matrix, ex: real, ey: real)
    requires IsJointTable(m)
    requires Independent(m)
    requires ex == ExpectedValue(m, X) && ey == ExpectedValue(m, Y)
    ensures ExpectedValueYTimesX(m) == ex * ey
  {
    MarginalXEntries(m);
    FactoredCrossMoment(ProbabilityMatrix(m), MarginalX(m), MarginalY(m), ex, ey);
  }

  /** If X and Y are independent, E(XY) = E[X] * E[Y], so the covariance
      numerator, and with it the correlation coefficient, is 0. */
  lemma {:induction false} IndependentMeansUncorrelated(m: Matrix)
    requires IsJointTable(m)
    requires Independent(m)
    ensures ExpectedValueYTimesX(m) == ExpectedValue(m, X) * ExpectedValue(m, Y)
    ensures CovarianceNumerator(m) == 0.0
  {
    var ex, ey := ExpectedValue(m, X), ExpectedValue(m, Y);
    IndependentProductFactors(m, ex, ey);
    CovarianceVanishes(ExpectedValueYTimesX(m), ex, ey);
  }

  lemma {:induction false} CovarianceVanishes(exy: real, ex: real, ey: real)
    requires exy == ex * ey
    ensures Covariance(exy, ex, ey) == 0.0
  {
  }

  /** Exchanging two (value, probability) pairs leaves every moment as it is. */
  lemma {:induction false} SwapPairsMoment(d: Distribution, a: nat, b: nat, power: nat)
    requires d.Parallel() && a < |d.values| && b < |d.values|
    ensures Sum(Weighted(SwapPairs(d, a, b), power)) == Sum(Weighted(d, power))
  {
    var w := Weighted(d, power);
    var e := SwapPairs(d, a, b);
    forall k | 0 <= k < |w|
      ensures Weighted(e, power)[k] == Swap(w, a, b)[k]
    {
      assert e.values[k] == d.values[Swapped(k, a, b)] && e.probs[k] == d.probs[Swapped(k, a, b)];
    }
    assert Weighted(e, power) == Swap(w, a, b);
    SwapMultiset(w, a, b);
    SumPermutation(Swap(w, a, b), w);
  }

  /** Two tables with the same marginal in `v` have the same moments in `v`. */
  lemma {:induction false} SameMarginalSameMoment(m: Matrix, n: Matrix, v: Var, power: nat)
    requires Defined(m, v) && Defined(n, v) && Marginal(n, v) == Marginal(m, v)
    ensures ExpectedValue(n, v, power) == ExpectedValue(m, v, power)
  {
  }

  /** Two tables whose marginals in `v` differ by an exchange of two pairs have
      the same moments in `v`. */
  lemma {:induction false} SwappedMarginalSameMoment(m: Matrix, n: Matrix, v: Var, a: nat, b: nat, power: nat)
    requires Defined(m, v) && Defined(n, v)
    requires a < |Marginal(m, v).values| && b < |Marginal(m, v).values|
    requires Marginal(n, v) == SwapPairs(Marginal(m, v), a, b)
    ensures ExpectedValue(n, v, power) == ExpectedValue(m, v, power)
  {
    SwapPairsMoment(Marginal(m, v), a, b, power);
  }

  /** Exchanging two data rows of a joint table, X header cells included,
      changes no expected value of X: the pairs of the X marginal are only
      reordered. */
  lemma {:induction false} ExpectedValueXRowOrder(m: Matrix, i: nat, j: nat, power: nat)
    requires IsJointTable(m) && 1 <= i < |m| && 1 <= j < |m|
    ensures IsJointTable(SwapRows(m, i, j))
    ensures ExpectedValue(SwapRows(m, i, j), X, power) == ExpectedValue(m, X, power)
  {
    SwapKeepsJointTable(m, i, j);
    MarginalXSwapRows(m, i, j);
    SwappedMarginalSameMoment(m, SwapRows(m, i, j), X, i - 1, j - 1, power);
  }

  /** Exchanging two data rows of a joint table changes no expected value of
      Y: the Y marginal stays as it is. */
  lemma {:induction false} ExpectedValueYRowOrder(m: Matrix, i: nat, j: nat, power: nat)
    requires IsJointTable(m) && 1 <= i < |m| && 1 <= j < |m|
    ensures IsJointTable(SwapRows(m, i, j))
    ensures ExpectedValue(SwapRows(m, i, j), Y, power) == ExpectedValue(m, Y, power)
  {
    MarginalYSwapRows(m, i, j);
    SameMarginalSameMoment(m, SwapRows(m, i, j), Y, power);
  }

  /** Exchanging two columns of a joint table changes no expected value of X:
      the X marginal stays as it is. */
  lemma {:induction false} ExpectedValueXColumnOrder(m: Matrix, i: nat, j: nat, power: nat)
    requires IsJointTable(m) && 1 <= i < |m[1]| && 1 <= j < |m[1]|
    ensures IsJointTable(SwapColumns(m, i, j))
    ensures ExpectedValue(SwapColumns(m, i, j), X, power) == ExpectedValue(m, X, power)
  {
    MarginalXSwapColumns(m, i, j);
    SameMarginalSameMoment(m, SwapColumns(m, i, j), X, power);
  }

  /** Exchanging two columns of a joint table, Y header cells included,
      changes no expected value of Y: the pairs of the Y marginal are only
      reordered. */
  lemma {:induction false} ExpectedValueYColumnOrder(m: Matrix, i: nat, j: nat, power: nat)
    requires IsJointTable(m) && 1 <= i < |m[1]| && 1 <= j < |m[1]|
    ensures IsJointTable(SwapColumns(m, i, j))
    ensures ExpectedValue(SwapColumns(m, i, j), Y, power) == ExpectedValue(m, Y, power)
  {
    SwapKeepsJointTable(m, i, j);
    MarginalYSwapColumns(m, i, j);
    SwappedMarginalSameMoment(m, SwapColumns(m, i, j), Y, i - 1, j - 1, power);
  }

  /** Exchanging two data rows or two columns of a joint table, header cells
      included, changes neither variance. */
  lemma {:induction false} VariationOrder(m: Matrix, i: nat, j: nat, v: Var)
    requires IsJointTable(m) && 1 <= i && 1 <= j
    ensures i < |m| && j < |m| ==>
      IsJointTable(SwapRows(m, i, j)) && Variation(SwapRows(m, i, j), v) == Variation(m, v)
    ensures i < |m[1]| && j < |m[1]| ==>
      IsJointTable(SwapColumns(m, i, j)) && Variation(SwapColumns(m, i, j), v) == Variation(m, v)
  {
    if i < |m| && j < |m| {
      if v == X {
        ExpectedValueXRowOrder(m, i, j, 1);
        ExpectedValueXRowOrder(m, i, j, 2);
      } else {
        ExpectedValueYRowOrder(m, i, j, 1);
        ExpectedValueYRowOrder(m, i, j, 2);
      }
    }
    if i < |m[1]| && j < |m[1]| {
      if v == X {
        ExpectedValueXColumnOrder(m, i, j, 1);
        ExpectedValueXColumnOrder(m, i, j, 2);
      } else {
        ExpectedValueYColumnOrder(m, i, j, 1);
        ExpectedValueYColumnOrder(m, i, j, 2);
      }
    }
  }
}
