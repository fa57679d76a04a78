/** The joint table and its probability submatrix.

    A joint table is a matrix whose row 0 holds the values of Y (from column 1
    on), whose column 0 holds the values of X (from row 1 on), and whose other
    cells hold the joint probabilities P(X = x_i, Y = y_j). Cell [0][0] is a
    text label the engine never reads; the model stores an arbitrary real there. */
module Tables {

  type Matrix = seq<seq<real>>

  /** Removing the first element of an array, as seen by the caller: an
      empty array stays empty. */
  function Shift<T>(s: seq<T>): seq<T>
  {
    if s == [] then [] else s[1..]
  }

  /** The probability submatrix: the table without its header row and header
      column. */
  function ProbabilityMatrix(m: Matrix): Matrix
  {
    var rows := Shift(m);
    seq(|rows|, i requires 0 <= i < |rows| => Shift(rows[i]))
  }

  /** Cell [i][j] of the probability submatrix is cell [i+1][j+1] of the
      table; there is one row fewer, each row has one cell fewer, and a data
      row that is empty stays empty. */
  lemma {:induction false} ProbabilityMatrixCells(m: Matrix)
    ensures |ProbabilityMatrix(m)| == if |m| == 0 then 0 else |m| - 1
    ensures forall i :: 0 <= i < |ProbabilityMatrix(m)| ==>
      ProbabilityMatrix(m)[i] == Shift(m[i + 1]) &&
      |ProbabilityMatrix(m)[i]| == (if |m[i + 1]| == 0 then 0 else |m[i + 1]| - 1)
    ensures forall i, j :: 0 <= i < |ProbabilityMatrix(m)| && 0 <= j < |ProbabilityMatrix(m)[i]| ==>
      ProbabilityMatrix(m)[i][j] == m[i + 1][j + 1]
  {
    var p := ProbabilityMatrix(m);
    forall i | 0 <= i < |p|
      ensures p[i] == Shift(m[i + 1])
    {
      assert Shift(m)[i] == m[i + 1];
    }
  }

  /** `getProbabilityMatrix`: `produce` hands the recipe a draft copy of the
      table; the recipe shifts the header row off the draft and then, row by
      row, shifts the header cell off each remaining row. The caller's table is
      a value and cannot be changed. */
  method StripHeaders(m: Matrix) returns (p: Matrix)
    ensures p == ProbabilityMatrix(m)
  {
    var draft := Shift(m);
    for i := 0 to |draft|
      invariant |draft| == |Shift(m)|
      invariant forall k :: 0 <= k < i ==> draft[k] == Shift(m[k + 1])
      invariant forall k :: i <= k < |draft| ==> draft[k] == m[k + 1]
    {
      draft := draft[i := Shift(draft[i])];
    }
    p := draft;
  }

  /** Every data row has its X header cell: `matrix[i + 1][0]` exists. */
  predicate HasRowHeaders(m: Matrix)
  {
    forall i :: 1 <= i < |m| ==> |m[i]| > 0
  }

  /** There is a first data row (otherwise the width of the first probability
      row cannot be read and the engine throws), the header row carries a Y
      value for each of its cells, and no row is shorter than it, so every
      cell of every column the engine reads exists. */
  predicate HasColumnHeaders(m: Matrix)
  {
    |m| >= 2 && forall i :: 0 <= i < |m| ==> |m[i]| >= |m[1]|
  }

  /** Both marginals exist and every data row has the same length, so each
      probability cell has an X value and a Y value. */
  predicate IsJointTable(m: Matrix)
  {
    HasRowHeaders(m) && HasColumnHeaders(m) && forall i :: 1 <= i < |m| ==> |m[i]| == |m[1]|
  }

  /** `s` with the elements at `a` and `b` exchanged. */
  function Swap<T>(s: seq<T>, a: nat, b: nat): seq<T>
    requires a < |s| && b < |s|
  {
    s[a := s[b]][b := s[a]]
  }

  /** Exchanging two elements keeps the same elements. */
  lemma {:induction false} SwapMultiset<T>(s: seq<T>, a: nat, b: nat)
    requires a < |s| && b < |s|
    ensures multiset(Swap(s, a, b)) == multiset(s)
  {
    var t := s[a := s[b]];
    assert multiset(t) == multiset(s) - multiset{s[a]} + multiset{s[b]};
    assert multiset(Swap(s, a, b)) == multiset(t) - multiset{t[b]} + multiset{s[a]};
  }

  /** The table with data rows `i` and `j` exchanged, header cells included. */
  function SwapRows(m: Matrix, i: nat, j: nat): Matrix
    requires 1 <= i < |m| && 1 <= j < |m|
  {
    Swap(m, i, j)
  }

  /** The table with columns `i` and `j` exchanged in every row, header cells
      included. */
  function SwapColumns(m: Matrix, i: nat, j: nat): Matrix
    requires 1 <= i && 1 <= j
    requires forall r :: 0 <= r < |m| ==> i < |m[r]| && j < |m[r]|
  {
    seq(|m|, r requires 0 <= r < |m| => Swap(m[r], i, j))
  }
}
