/** Marginal distributions of X and Y (`getDistibution`).

    A marginal is a pair of parallel sequences: the header values of the chosen
    axis, in table order (no sorting), and the probability of each value,
    summed over the other axis. The source prefixes the two sequences with the
    display tags "xj"/"yj" and "pj"; the model keeps only the numbers. */
module Marginals {
  import opened Sums
  import opened Tables

  datatype Var = X | Y

  datatype Distribution = Distribution(values: seq<real>, probs: seq<real>)
  {
    /** Value i is taken with probability i. */
    predicate Parallel()
    {
      |values| == |probs|
    }
  }

  /** Column c of a table, top to bottom. */
  function Column(p: Matrix, c: nat): seq<real>
    requires forall r :: 0 <= r < |p| ==> c < |p[r]|
  {
    seq(|p|, r requires 0 <= r < |p| => p[r][c])
  }

  /** The sums of the first `width` columns, left to right. */
  function ColumnSums(p: Matrix, width: nat): seq<real>
    requires forall r :: 0 <= r < |p| ==> width <= |p[r]|
  {
    seq(width, c requires 0 <= c < width => Sum(Column(p, c)))
  }

  /** The X branch of `getDistibution`: the values of column 0 below the
      header, each with the sum of its row of the probability submatrix. */
  function MarginalX(m: Matrix): (d: Distribution)
    requires HasRowHeaders(m)
    ensures d.Parallel()
  {
    var p := ProbabilityMatrix(m);
    Distribution(seq(|p|, i requires 0 <= i < |p| => m[i + 1][0]), RowSums(p))
  }

  /** The Y branch of `getDistibution`: the values of row 0 after the label,
      one per cell of the first row of the probability submatrix, each with the
      sum of its column. */
  function MarginalY(m: Matrix): (d: Distribution)
    requires HasColumnHeaders(m)
    ensures d.Parallel()
  {
    ProbabilityMatrixCells(m);
    var p := ProbabilityMatrix(m);
    var width := |p[0]|;
    Distribution(seq(width, j requires 0 <= j < width => m[0][j + 1]), ColumnSums(p, width))
  }

  predicate Defined(m: Matrix, v: Var)
  {
    match v
    case X => HasRowHeaders(m)
    case Y => HasColumnHeaders(m)
  }

  /** `getDistibution`: the marginal of X or of Y. */
  function Marginal(m: Matrix, v: Var): (d: Distribution)
    requires Defined(m, v)
    ensures d.Parallel()
  {
    match v
    case X => MarginalX(m)
    case Y => MarginalY(m)
  }

  /** One X value per data row, in row order; its probability is the sum of
      the row's probability cells. */
  lemma {:induction false} MarginalXEntries(m: Matrix)
    requires HasRowHeaders(m)
    ensures |MarginalX(m).values| == if |m| == 0 then 0 else |m| - 1
    ensures forall i :: 0 <= i < |MarginalX(m).values| ==>
      MarginalX(m).values[i] == m[i + 1][0] && MarginalX(m).probs[i] == Sum(m[i + 1][1..])
  {
    ProbabilityMatrixCells(m);
  }

  /** One Y value per cell of the first data row after its header, in column
      order; its probability is the sum of that column's probability cells. */
  lemma {:induction false} MarginalYEntries(m: Matrix)
    requires HasColumnHeaders(m)
    ensures |MarginalY(m).values| == if |m[1]| == 0 then 0 else |m[1]| - 1
    ensures forall j :: 0 <= j < |MarginalY(m).values| ==>
      MarginalY(m).values[j] == m[0][j + 1] && MarginalY(m).probs[j] == Sum(Column(ProbabilityMatrix(m), j))
  {
    ProbabilityMatrixCells(m);
  }

  /** Column j of the probability submatrix holds the cells [i+1][j+1] of the
      table, one per data row. */
  lemma {:induction false} ColumnEntries(m: Matrix, j: nat)
    requires HasColumnHeaders(m) && j < |MarginalY(m).values|
    ensures |Column(ProbabilityMatrix(m), j)| == |m| - 1
    ensures forall i :: 0 <= i < |m| - 1 ==> Column(ProbabilityMatrix(m), j)[i] == m[i + 1][j + 1]
  {
    ProbabilityMatrixCells(m);
    MarginalYEntries(m);
  }

  /** The column sums of a table whose rows all have the same width add up to
      the sum of all its cells. */
  lemma {:induction false} ColumnSumsTotal(p: Matrix, width: nat)
    requires forall r :: 0 <= r < |p| ==> |p[r]| == width
    ensures Sum(ColumnSums(p, width)) == Sum(Flatten(p))
  {
    if p == [] {
      SumZeros(ColumnSums(p, width));
    } else {
      var n := |p| - 1;
      var front := p[..n];
      ColumnSumsTotal(front, width);
      forall c | 0 <= c < width
        ensures ColumnSums(p, width)[c] == ColumnSums(front, width)[c] + p[n][c]
      {
        assert Column(p, c)[..n] == Column(front, c);
      }
      SumPointwise(ColumnSums(front, width), p[n], ColumnSums(p, width));
      SumAppend(Flatten(front), p[n]);
    }
  }

  /** On a joint table both marginals carry the same total probability: the
      mass of all the probability cells. */
  lemma {:induction false} MarginalMassAgrees(m: Matrix)
    requires IsJointTable(m)
    ensures Sum(MarginalX(m).probs) == Sum(Flatten(ProbabilityMatrix(m)))
    ensures Sum(MarginalY(m).probs) == Sum(Flatten(ProbabilityMatrix(m)))
  {
    var p := ProbabilityMatrix(m);
    ProbabilityMatrixCells(m);
    forall r | 0 <= r < |p|
      ensures |p[r]| == |p[0]|
    {
      assert |m[r + 1]| == |m[1]|;
    }
    SumFlatten(p);
    ColumnSumsTotal(p, |p[0]|);
  }

  /** Probability cells that are never negative give marginal probabilities
      that are never negative. */
  lemma {:induction false} MarginalNonNegative(m: Matrix, v: Var)
    requires Defined(m, v)
    requires forall i, j :: 0 <= i < |ProbabilityMatrix(m)| && 0 <= j < |ProbabilityMatrix(m)[i]| ==>
      ProbabilityMatrix(m)[i][j] >= 0.0
    ensures forall k :: 0 <= k < |Marginal(m, v).probs| ==> Marginal(m, v).probs[k] >= 0.0
  {
    var p := ProbabilityMatrix(m);
    var d := Marginal(m, v);
    forall k | 0 <= k < |d.probs|
      ensures d.probs[k] >= 0.0
    {
      if v == X {
        SumNonNegative(p[k]);
      } else {
        ProbabilityMatrixCells(m);
        SumNonNegative(Column(p, k));
      }
    }
  }

  /** The distribution with the pairs at `a` and `b` exchanged: each value
      keeps its probability. */
  function SwapPairs(d: Distribution, a: nat, b: nat): (e: Distribution)
    requires d.Parallel() && a < |d.values| && b < |d.values|
  {
    Distribution(Swap(d.values, a, b), Swap(d.probs, a, b))
  }

  /** Exchanging two data rows, header cells included, exchanges the two
      corresponding pairs of the X marginal. */
  lemma {:induction false} MarginalXSwapRows(m: Matrix, i: nat, j: nat)
    requires HasRowHeaders(m) && 1 <= i < |m| && 1 <= j < |m|
    ensures |MarginalX(m).values| == |m| - 1
    ensures HasRowHeaders(SwapRows(m, i, j))
    ensures MarginalX(SwapRows(m, i, j)) == SwapPairs(MarginalX(m), i - 1, j - 1)
  {
    var m' := SwapRows(m, i, j);
    ProbabilityMatrixCells(m);
    ProbabilityMatrixCells(m');
    var p, p' := ProbabilityMatrix(m), ProbabilityMatrix(m');
    assert p' == Swap(p, i - 1, j - 1);
    assert RowSums(p') == Swap(RowSums(p), i - 1, j - 1);
    MarginalXEntries(m);
    MarginalXEntries(m');
  }

  /** The position that index `c` comes from when `a` and `b` are exchanged. */
  function Swapped(c: nat, a: nat, b: nat): nat
  {
    if c == a then b else if c == b then a else c
  }

  /** Element `c` of `Swap(s, a, b)` is element `Swapped(c, a, b)` of `s`. */
  lemma {:induction false} SwapAt<T>(s: seq<T>, a: nat, b: nat)
    requires a < |s| && b < |s|
    ensures forall c :: 0 <= c < |s| ==> Swap(s, a, b)[c] == s[Swapped(c, a, b)]
  {
  }

  /** Exchanging two table columns exchanges the two corresponding columns of
      the probability submatrix. */
  lemma {:induction false} SwapColumnsCells(m: Matrix, i: nat, j: nat)
    requires HasColumnHeaders(m) && 1 <= i < |m[1]| && 1 <= j < |m[1]|
    ensures HasColumnHeaders(SwapColumns(m, i, j))
    ensures |ProbabilityMatrix(SwapColumns(m, i, j))| == |ProbabilityMatrix(m)|
    ensures forall r :: 0 <= r < |ProbabilityMatrix(m)| ==>
      |ProbabilityMatrix(SwapColumns(m, i, j))[r]| == |ProbabilityMatrix(m)[r]| >= |m[1]| - 1
    ensures forall r, c :: 0 <= r < |ProbabilityMatrix(m)| && 0 <= c < |ProbabilityMatrix(m)[r]| ==>
      ProbabilityMatrix(SwapColumns(m, i, j))[r][c] == ProbabilityMatrix(m)[r][Swapped(c, i - 1, j - 1)]
  {
    ProbabilityMatrixCells(m);
    ProbabilityMatrixCells(SwapColumns(m, i, j));
  }

  /** Column sums of a table whose columns `a` and `b` are exchanged are the
      column sums with those two entries exchanged. */
  lemma {:induction false} ColumnSumsSwap(p: Matrix, q: Matrix, w: nat, a: nat, b: nat)
    requires a < w && b < w && |q| == |p|
    requires forall r :: 0 <= r < |p| ==> |p[r]| >= w && |q[r]| == |p[r]|
    requires forall r, c :: 0 <= r < |p| && 0 <= c < |p[r]| ==> q[r][c] == p[r][Swapped(c, a, b)]
    ensures ColumnSums(q, w) == Swap(ColumnSums(p, w), a, b)
  {
    forall c | 0 <= c < w
      ensures Column(q, c) == Column(p, Swapped(c, a, b))
    {
    }
  }

  /** Exchanging columns `i` and `j` of a table exchanges its column sums
      `i - 1` and `j - 1`. */
  lemma {:induction false} ColumnSumsSwapColumns(m: Matrix, i: nat, j: nat)
    requires HasColumnHeaders(m) && 1 <= i < |m[1]| && 1 <= j < |m[1]|
    ensures HasColumnHeaders(SwapColumns(m, i, j))
    ensures ColumnSums(ProbabilityMatrix(SwapColumns(m, i, j)), |m[1]| - 1) ==
      Swap(ColumnSums(ProbabilityMatrix(m), |m[1]| - 1), i - 1, j - 1)
  {
    SwapColumnsCells(m, i, j);
    ColumnSumsSwap(ProbabilityMatrix(m), ProbabilityMatrix(SwapColumns(m, i, j)), |m[1]| - 1, i - 1, j - 1);
  }

  /** When the first data row is not empty, the Y marginal pairs header cells
      1 to |m[1]| - 1 with the column sums of the probability submatrix. */
  lemma {:induction false} MarginalYShape(m: Matrix)
    requires HasColumnHeaders(m) && |m[1]| > 0
    ensures MarginalY(m) == Distribution(m[0][1..|m[1]|], ColumnSums(ProbabilityMatrix(m), |m[1]| - 1))
  {
    ProbabilityMatrixCells(m);
  }

  /** Exchanging two elements and then dropping the first one is dropping the
      first one and then exchanging. */
  lemma {:induction false} SwapSlice(s: seq<real>, a: nat, b: nat, w: nat)
    requires a < w && b < w && w < |s|
    ensures Swap(s, a + 1, b + 1)[1..w + 1] == Swap(s[1..w + 1], a, b)
  {
  }

  /** A table whose header row and column sums are those of `m` with the
      entries at `a` and `b` exchanged has the Y marginal of `m` with those
      two pairs exchanged. */
  lemma {:induction false} MarginalYSwappedBy(m: Matrix, n: Matrix, a: nat, b: nat)
    requires HasColumnHeaders(m) && HasColumnHeaders(n) && |n[1]| == |m[1]|
    requires a + 1 < |m[1]| && b + 1 < |m[1]|
    requires n[0] == Swap(m[0], a + 1, b + 1)
    requires ColumnSums(ProbabilityMatrix(n), |m[1]| - 1) == Swap(ColumnSums(ProbabilityMatrix(m), |m[1]| - 1), a, b)
    ensures |MarginalY(m).values| == |m[1]| - 1
    ensures MarginalY(n) == SwapPairs(MarginalY(m), a, b)
  {
    MarginalYShape(m);
    MarginalYShape(n);
    SwapSlice(m[0], a, b, |m[1]| - 1);
  }

  /** Exchanging two columns, header cells included, exchanges the two
      corresponding pairs of the Y marginal. */
  lemma {:induction false} MarginalYSwapColumns(m: Matrix, i: nat, j: nat)
    requires HasColumnHeaders(m) && 1 <= i < |m[1]| && 1 <= j < |m[1]|
    ensures |MarginalY(m).values| == |m[1]| - 1
    ensures HasColumnHeaders(SwapColumns(m, i, j))
    ensures MarginalY(SwapColumns(m, i, j)) == SwapPairs(MarginalY(m), i - 1, j - 1)
  {
    ColumnSumsSwapColumns(m, i, j);
    assert SwapColumns(m, i, j)[0] == Swap(m[0], i, j);
    MarginalYSwappedBy(m, SwapColumns(m, i, j), i - 1, j - 1);
  }

  /** Exchanging two table rows exchanges the two corresponding rows of the
      probability submatrix. */
  lemma {:induction false} SwapRowsCells(m: Matrix, i: nat, j: nat)
    requires 1 <= i < |m| && 1 <= j < |m|
    ensures |ProbabilityMatrix(m)| == |m| - 1
    ensures ProbabilityMatrix(SwapRows(m, i, j)) == Swap(ProbabilityMatrix(m), i - 1, j - 1)
  {
    ProbabilityMatrixCells(m);
    ProbabilityMatrixCells(SwapRows(m, i, j));
  }

  /** A column of a table with two rows exchanged holds the same cells in
      another order, so it has the same sum. */
  lemma {:induction false} SwappedColumnSum(p: Matrix, a: nat, b: nat, c: nat)
    requires a < |p| && b < |p|
    requires forall r :: 0 <= r < |p| ==> c < |p[r]|
    ensures Sum(Column(Swap(p, a, b), c)) == Sum(Column(p, c))
  {
    assert Column(Swap(p, a, b), c) == Swap(Column(p, c), a, b);
    SwapMultiset(Column(p, c), a, b);
    SumPermutation(Column(Swap(p, a, b), c), Column(p, c));
  }

  /** Exchanging two rows of a table leaves its column sums as they are. */
  lemma {:induction false} ColumnSumsRowSwap(p: Matrix, w: nat, a: nat, b: nat)
    requires a < |p| && b < |p|
    requires forall r :: 0 <= r < |p| ==> w <= |p[r]|
    ensures ColumnSums(Swap(p, a, b), w) == ColumnSums(p, w)
  {
    forall c | 0 <= c < w
      ensures ColumnSums(Swap(p, a, b), w)[c] == ColumnSums(p, w)[c]
    {
      SwappedColumnSum(p, a, b, c);
    }
  }

  /** Exchanging two cells in every row of a table leaves its row sums as
      they are. */
  lemma {:induction false} RowSumsCellSwap(p: Matrix, q: Matrix, a: nat, b: nat)
    requires |q| == |p|
    requires forall r :: 0 <= r < |p| ==> a < |p[r]| && b < |p[r]| && q[r] == Swap(p[r], a, b)
    ensures RowSums(q) == RowSums(p)
  {
    forall r | 0 <= r < |p|
      ensures Sum(q[r]) == Sum(p[r])
    {
      SwapMultiset(p[r], a, b);
      SumPermutation(q[r], p[r]);
    }
  }

  /** Exchanging two data rows or two columns of a joint table gives a joint
      table with the same header row length. */
  lemma {:induction false} SwapKeepsJointTable(m: Matrix, i: nat, j: nat)
    requires IsJointTable(m) && 1 <= i && 1 <= j
    ensures i < |m| && j < |m| ==> IsJointTable(SwapRows(m, i, j)) && |SwapRows(m, i, j)[1]| == |m[1]|
    ensures i < |m[1]| && j < |m[1]| ==> IsJointTable(SwapColumns(m, i, j)) && |SwapColumns(m, i, j)[1]| == |m[1]|
  {
  }

  /** The Y marginal depends only on the header row, the width of the first
      data row and the column sums. */
  lemma {:induction false} MarginalYDeterminedBy(m: Matrix, n: Matrix)
    requires HasColumnHeaders(m) && HasColumnHeaders(n)
    requires n[0] == m[0] && |n[1]| == |m[1]|
    requires ColumnSums(ProbabilityMatrix(n), |MarginalY(m).values|) == MarginalY(m).probs
    ensures MarginalY(n) == MarginalY(m)
  {
    ProbabilityMatrixCells(m);
    ProbabilityMatrixCells(n);
  }

  /** A table whose data rows are those of `m` with two of them exchanged has
      the Y marginal of `m`. */
  lemma {:induction false} MarginalYRowsExchanged(m: Matrix, n: Matrix, a: nat, b: nat)
    requires HasColumnHeaders(m) && HasColumnHeaders(n)
    requires n[0] == m[0] && |n[1]| == |m[1]|
    requires a < |ProbabilityMatrix(m)| && b < |ProbabilityMatrix(m)|
    requires ProbabilityMatrix(n) == Swap(ProbabilityMatrix(m), a, b)
    ensures MarginalY(n) == MarginalY(m)
  {
    ProbabilityMatrixCells(m);
    MarginalYEntries(m);
    ColumnSumsRowSwap(ProbabilityMatrix(m), |MarginalY(m).values|, a, b);
    MarginalYDeterminedBy(m, n);
  }

  /** Exchanging two data rows of a joint table leaves the Y marginal as it
      is: each column sum only adds the same cells in another order. */
  lemma {:induction false} MarginalYSwapRows(m: Matrix, i: nat, j: nat)
    requires IsJointTable(m) && 1 <= i < |m| && 1 <= j < |m|
    ensures IsJointTable(SwapRows(m, i, j))
    ensures MarginalY(SwapRows(m, i, j)) == MarginalY(m)
  {
    SwapKeepsJointTable(m, i, j);
    SwapRowsCells(m, i, j);
    assert SwapRows(m, i, j)[0] == m[0];
    MarginalYRowsExchanged(m, SwapRows(m, i, j), i - 1, j - 1);
  }

  /** The X marginal depends only on the header column and the row sums. */
  lemma {:induction false} MarginalXDeterminedBy(m: Matrix, n: Matrix)
    requires HasRowHeaders(m) && HasRowHeaders(n) && |n| == |m|
    requires forall r :: 1 <= r < |m| ==> n[r][0] == m[r][0]
    requires RowSums(ProbabilityMatrix(n)) == RowSums(ProbabilityMatrix(m))
    ensures MarginalX(n) == MarginalX(m)
  {
    ProbabilityMatrixCells(m);
    ProbabilityMatrixCells(n);
  }

  /** Exchanging two columns of a joint table exchanges two cells in every row
      of the probability submatrix and keeps every X header cell. */
  lemma {:induction false} SwapColumnsRows(m: Matrix, i: nat, j: nat)
    requires IsJointTable(m) && 1 <= i < |m[1]| && 1 <= j < |m[1]|
    ensures |SwapColumns(m, i, j)| == |m|
    ensures forall r :: 1 <= r < |m| ==> SwapColumns(m, i, j)[r][0] == m[r][0]
    ensures |ProbabilityMatrix(SwapColumns(m, i, j))| == |ProbabilityMatrix(m)|
    ensures forall r :: 0 <= r < |ProbabilityMatrix(m)| ==>
      i - 1 < |ProbabilityMatrix(m)[r]| && j - 1 < |ProbabilityMatrix(m)[r]| &&
      ProbabilityMatrix(SwapColumns(m, i, j))[r] == Swap(ProbabilityMatrix(m)[r], i - 1, j - 1)
  {
    var m' := SwapColumns(m, i, j);
    ProbabilityMatrixCells(m);
    ProbabilityMatrixCells(m');
    var p, p' := ProbabilityMatrix(m), ProbabilityMatrix(m');
    forall r | 0 <= r < |p|
      ensures i - 1 < |p[r]| && j - 1 < |p[r]| && p'[r] == Swap(p[r], i - 1, j - 1)
    {
      assert |m[r + 1]| == |m[1]|;
    }
  }

  /** Exchanging two columns of a joint table leaves the X marginal as it is:
      each row sum only adds the same cells in another order. */
  lemma {:induction false} MarginalXSwapColumns(m: Matrix, i: nat, j: nat)
    requires IsJointTable(m) && 1 <= i < |m[1]| && 1 <= j < |m[1]|
    ensures IsJointTable(SwapColumns(m, i, j))
    ensures MarginalX(SwapColumns(m, i, j)) == MarginalX(m)
  {
    var m' := SwapColumns(m, i, j);
    SwapKeepsJointTable(m, i, j);
    SwapColumnsRows(m, i, j);
    RowSumsCellSwap(ProbabilityMatrix(m), ProbabilityMatrix(m'), i - 1, j - 1);
    MarginalXDeterminedBy(m, m');
  }
}
