/** The table the application starts with, and the statistics it shows for it.

    Row 0 holds the Y values -4, 0, 2, 3 (cell [0][0] is the text label
    "X / Y", stored here as 0); column 0 holds the X values -1 and 5. */
module InitialTable {
  import opened Sums
  import opened Tables
  import opened Marginals
  import opened Cdfs
  import opened Moments

  const INITIAL_MATRIX: Matrix := [
    [0.0, -4.0, 0.0, 2.0, 3.0],
    [-1.0, 0.22, 0.2, 0.15, 0.08],
    [5.0, 0.15, 0.05, 0.05, 0.1]
  ]

  lemma {:induction false} SumOfOne(a: real)
    ensures Sum([a]) == a
  {
    assert [a][..0] == [];
  }

  lemma {:induction false} SumOfTwo(a: real, b: real)
    ensures Sum([a, b]) == a + b
  {
    SumOfOne(a);
    assert [a, b][..1] == [a];
  }

  lemma {:induction false} SumOfThree(a: real, b: real, c: real)
    ensures Sum([a, b, c]) == a + b + c
  {
    SumOfTwo(a, b);
    assert [a, b, c][..2] == [a, b];
  }

  lemma {:induction false} SumOfFour(a: real, b: real, c: real, d: real)
    ensures Sum([a, b, c, d]) == a + b + c + d
  {
    SumOfThree(a, b, c);
    assert [a, b, c, d][..3] == [a, b, c];
  }

  /** The initial table is a joint table whose probabilities add up to 1. */
  lemma {:induction false} InitialIsJointTable()
    ensures IsJointTable(INITIAL_MATRIX)
    ensures ProbabilityMatrix(INITIAL_MATRIX) == [[0.22, 0.2, 0.15, 0.08], [0.15, 0.05, 0.05, 0.1]]
  {
    ProbabilityMatrixCells(INITIAL_MATRIX);
  }

  /** X takes -1 with probability 0.65 and 5 with probability 0.35. */
  lemma {:induction false} InitialMarginalX()
    ensures MarginalX(INITIAL_MATRIX) == Distribution([-1.0, 5.0], [0.65, 0.35])
  {
    InitialIsJointTable();
    MarginalXEntries(INITIAL_MATRIX);
    SumOfFour(0.22, 0.2, 0.15, 0.08);
    SumOfFour(0.15, 0.05, 0.05, 0.1);
  }

  /** Y takes -4, 0, 2 and 3 with probabilities 0.37, 0.25, 0.2 and 0.18. */
  lemma {:induction false} InitialMarginalY()
    ensures MarginalY(INITIAL_MATRIX) == Distribution([-4.0, 0.0, 2.0, 3.0], [0.37, 0.25, 0.2, 0.18])
  {
    InitialIsJointTable();
    MarginalYEntries(INITIAL_MATRIX);
    var p := ProbabilityMatrix(INITIAL_MATRIX);
    assert Column(p, 0) == [0.22, 0.15];
    assert Column(p, 1) == [0.2, 0.05];
    assert Column(p, 2) == [0.15, 0.05];
    assert Column(p, 3) == [0.08, 0.1];
    SumOfTwo(0.22, 0.15);
    SumOfTwo(0.2, 0.05);
    SumOfTwo(0.15, 0.05);
    SumOfTwo(0.08, 0.1);
  }

  /** The probability cells add up to 1, and so do both marginals. */
  lemma {:induction false} InitialTotalMass()
    ensures Sum(Flatten(ProbabilityMatrix(INITIAL_MATRIX))) == 1.0
    ensures Sum(MarginalX(INITIAL_MATRIX).probs) == 1.0
    ensures Sum(MarginalY(INITIAL_MATRIX).probs) == 1.0
  {
    InitialIsJointTable();
    InitialMarginalX();
    SumOfTwo(0.65, 0.35);
    MarginalMassAgrees(INITIAL_MATRIX);
  }

  /** E[X] = 1.1 and E[X^2] = 9.4. */
  lemma {:induction false} InitialExpectedX()
    ensures ExpectedValue(INITIAL_MATRIX, X) == 1.1
    ensures ExpectedValue(INITIAL_MATRIX, X, 2) == 9.4
  {
    InitialMarginalX();
    var d := Distribution([-1.0, 5.0], [0.65, 0.35]);
    PowSmall(-1.0);
    PowSmall(5.0);
    assert Weighted(d, 1) == [-0.65, 1.75];
    assert Weighted(d, 2) == [0.65, 8.75];
    SumOfTwo(-0.65, 1.75);
    SumOfTwo(0.65, 8.75);
  }

  /** Var X = 9.4 - 1.1^2 = 8.19. */
  lemma {:induction false} InitialVariationX()
    ensures Variation(INITIAL_MATRIX, X) == 8.19
  {
    InitialExpectedX();
  }

  /** E[Y] = -0.54 and E[Y^2] = 8.34. */
  lemma {:induction false} InitialExpectedY()
    ensures ExpectedValue(INITIAL_MATRIX, Y) == -0.54
    ensures ExpectedValue(INITIAL_MATRIX, Y, 2) == 8.34
  {
    InitialMarginalY();
    var d := Distribution([-4.0, 0.0, 2.0, 3.0], [0.37, 0.25, 0.2, 0.18]);
    PowSmall(-4.0);
    PowSmall(0.0);
    PowSmall(2.0);
    PowSmall(3.0);
    assert Weighted(d, 1) == [-1.48, 0.0, 0.4, 0.54];
    assert Weighted(d, 2) == [5.92, 0.0, 0.8, 1.62];
    SumOfFour(-1.48, 0.0, 0.4, 0.54);
    SumOfFour(5.92, 0.0, 0.8, 1.62);
  }

  /** Var Y = 8.34 - 0.54^2 = 8.0484. */
  lemma {:induction false} InitialVariationY()
    ensures Variation(INITIAL_MATRIX, Y) == 8.0484
  {
    InitialExpectedY();
  }

  /** The terms x * y * p of the initial table, row by row. */
  lemma {:induction false} InitialProductTerms()
    ensures ProductTerms([[0.22, 0.2, 0.15, 0.08], [0.15, 0.05, 0.05, 0.1]], [-1.0, 5.0], [-4.0, 0.0, 2.0, 3.0])
      == [[0.88, 0.0, -0.3, -0.24], [-3.0, 0.0, 0.5, 1.5]]
  {
    var t := ProductTerms([[0.22, 0.2, 0.15, 0.08], [0.15, 0.05, 0.05, 0.1]], [-1.0, 5.0], [-4.0, 0.0, 2.0, 3.0]);
    assert t[0] == [0.88, 0.0, -0.3, -0.24];
    assert t[1] == [-3.0, 0.0, 0.5, 1.5];
  }

  /** E(XY) = -0.66, so the covariance numerator is -0.66 - 1.1 * (-0.54) = -0.066. */
  lemma {:induction false} InitialCrossMoment()
    ensures ExpectedValueYTimesX(INITIAL_MATRIX) == -0.66
    ensures CovarianceNumerator(INITIAL_MATRIX) == -0.066
  {
    InitialIsJointTable();
    InitialMarginalX();
    InitialMarginalY();
    InitialExpectedX();
    InitialExpectedY();
    InitialProductTerms();
    var t := [[0.88, 0.0, -0.3, -0.24], [-3.0, 0.0, 0.5, 1.5]];
    SumOfFour(0.88, 0.0, -0.3, -0.24);
    SumOfFour(-3.0, 0.0, 0.5, 1.5);
    assert RowSums(t) == [0.34, -1.0];
    SumOfTwo(0.34, -1.0);
    SumFlatten(t);
  }

  /** The step function of X: (-oo, -1>, (-1, 5>, (5, oo) with 0, 0.65, 1. */
  lemma {:induction false} InitialCdfX()
    ensures Distrybuanta(INITIAL_MATRIX, X) ==
      Cdf([Interval(NegInf, At(-1.0)), Interval(At(-1.0), At(5.0)), Interval(At(5.0), PosInf)],
          [0.0, 0.65, 1.0])
  {
    InitialMarginalX();
    var probs := [0.65, 0.35];
    assert probs[..1] == [0.65];
    assert probs[..2] == probs;
    SumOfOne(0.65);
    SumOfTwo(0.65, 0.35);
  }

  /** The cumulative probabilities of Y: 0, 0.37, 0.62, 0.82, 1. */
  lemma {:induction false} InitialCumulativeY()
    ensures Distrybuanta(INITIAL_MATRIX, Y).cumulative == [0.0, 0.37, 0.62, 0.82, 1.0]
  {
    InitialMarginalY();
    var probs := [0.37, 0.25, 0.2, 0.18];
    assert probs[..1] == [0.37];
    assert probs[..2] == [0.37, 0.25];
    assert probs[..3] == [0.37, 0.25, 0.2];
    assert probs[..4] == probs;
    SumOfOne(0.37);
    SumOfTwo(0.37, 0.25);
    SumOfThree(0.37, 0.25, 0.2);
    SumOfFour(0.37, 0.25, 0.2, 0.18);
  }

  /** The labels of Y. Because the second Y value is 0, the source's label
      after -4 reads (-4, oo) instead of (-4, 0>; the corrected labels chain. */
  lemma {:induction false} InitialLabelsY()
    ensures Distrybuanta(INITIAL_MATRIX, Y).labels ==
      [Interval(NegInf, At(-4.0)), Interval(At(-4.0), PosInf), Interval(At(0.0), At(2.0)),
       Interval(At(2.0), At(3.0)), Interval(At(3.0), PosInf)]
    ensures IntendedDistrybuanta(INITIAL_MATRIX, Y).labels ==
      [Interval(NegInf, At(-4.0)), Interval(At(-4.0), At(0.0)), Interval(At(0.0), At(2.0)),
       Interval(At(2.0), At(3.0)), Interval(At(3.0), PosInf)]
  {
    InitialMarginalY();
  }

  /** The initial table with its two X rows exchanged. */
  const SWAPPED_MATRIX: Matrix := [
    [0.0, -4.0, 0.0, 2.0, 3.0],
    [5.0, 0.15, 0.05, 0.05, 0.1],
    [-1.0, 0.22, 0.2, 0.15, 0.08]
  ]

  /** Exchanging the two X rows keeps every expected value of X; E[X] stays 1.1. */
  lemma {:induction false} InitialSwappedMoments()
    ensures SwapRows(INITIAL_MATRIX, 1, 2) == SWAPPED_MATRIX
    ensures IsJointTable(SWAPPED_MATRIX)
    ensures MarginalX(SWAPPED_MATRIX) == Distribution([5.0, -1.0], [0.35, 0.65])
    ensures ExpectedValue(SWAPPED_MATRIX, X) == 1.1
  {
    InitialIsJointTable();
    InitialMarginalX();
    InitialExpectedX();
    MarginalXSwapRows(INITIAL_MATRIX, 1, 2);
    ExpectedValueXRowOrder(INITIAL_MATRIX, 1, 2, 1);
  }

  /** ... but changes the step function of X: it now lists 5 before -1, and
      the cumulative row becomes 0, 0.35, 1 instead of 0, 0.65, 1. */
  lemma {:induction false} InitialReorderChangesCdf()
    ensures Distrybuanta(SWAPPED_MATRIX, X) ==
      Cdf([Interval(NegInf, At(5.0)), Interval(At(5.0), At(-1.0)), Interval(At(-1.0), PosInf)],
          [0.0, 0.35, 1.0])
    ensures Distrybuanta(SWAPPED_MATRIX, X) != Distrybuanta(INITIAL_MATRIX, X)
  {
    InitialSwappedMoments();
    InitialCdfX();
    var probs := [0.35, 0.65];
    assert probs[..1] == [0.35];
    assert probs[..2] == probs;
    SumOfOne(0.35);
    SumOfTwo(0.35, 0.65);
  }
}
