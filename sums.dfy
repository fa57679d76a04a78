/** Sums of sequences of reals, in the order the engine adds them.

    The engine's `sum` folds an array from the left, starting at 0; `Sum` below
    peels the LAST element so that its unfolding follows that order. Over reals
    the order does not change the value, but it keeps the running sums of the
    cumulative distribution (`Sum(s[..k+1])`) one unfolding away. */
module Sums {

  /** The engine's `sum`: the terms added from left to right, starting at 0. */
  function Sum(s: seq<real>): real
    decreases |s|
  {
    if s == [] then 0.0 else Sum(s[..|s| - 1]) + s[|s| - 1]
  }

  /** The rows laid end to end, in row-major order. */
  function Flatten(rows: seq<seq<real>>): (r: seq<real>)
    decreases |rows|
  {
    if rows == [] then [] else Flatten(rows[..|rows| - 1]) + rows[|rows| - 1]
  }

  /** One sum per row, in row order. */
  function RowSums(rows: seq<seq<real>>): (r: seq<real>)
    ensures |r| == |rows|
    ensures forall i :: 0 <= i < |rows| ==> r[i] == Sum(rows[i])
  {
    seq(|rows|, i requires 0 <= i < |rows| => Sum(rows[i]))
  }

  /** Adding the sum of a prefix to the sum of what follows gives the sum of the whole. */
  lemma {:induction false} SumAppend(a: seq<real>, b: seq<real>)
    ensures Sum(a + b) == Sum(a) + Sum(b)
  {
    if b == [] {
      assert a + b == a;
    } else {
      var b' := b[..|b| - 1];
      assert (a + b)[..|a + b| - 1] == a + b';
      SumAppend(a, b');
    }
  }

  /** Summing the flattened table is summing its row sums. */
  lemma {:induction false} SumFlatten(rows: seq<seq<real>>)
    ensures Sum(Flatten(rows)) == Sum(RowSums(rows))
  {
    if rows != [] {
      var front := rows[..|rows| - 1];
      SumFlatten(front);
      SumAppend(Flatten(front), rows[|rows| - 1]);
      assert RowSums(rows)[..|rows| - 1] == RowSums(front);
    }
  }

  /** A sum of non-negative terms is non-negative. */
  lemma {:induction false} SumNonNegative(s: seq<real>)
    requires forall i :: 0 <= i < |s| ==> s[i] >= 0.0
    ensures Sum(s) >= 0.0
  {
    if s != [] {
      SumNonNegative(s[..|s| - 1]);
    }
  }

  /** With non-negative terms, a longer prefix never has a smaller sum. */
  lemma {:induction false} SumPrefixMonotone(s: seq<real>, i: nat, j: nat)
    requires i <= j <= |s|
    requires forall k :: 0 <= k < |s| ==> s[k] >= 0.0
    ensures Sum(s[..i]) <= Sum(s[..j])
  {
    assert s[..j] == s[..i] + s[i..j];
    SumAppend(s[..i], s[i..j]);
    SumNonNegative(s[i..j]);
  }

  /** The linear combination `alpha * x + beta * y + gamma * z`. */
  function Combination(alpha: real, x: real, beta: real, y: real, gamma: real, z: real): real
  {
    alpha * x + beta * y + gamma * z
  }

  /** `s` is, element by element, `alpha * a + beta * b + gamma * c`. */
  predicate IsCombination(s: seq<real>, a: seq<real>, b: seq<real>, c: seq<real>,
                          alpha: real, beta: real, gamma: real)
  {
    |a| == |b| == |c| == |s| &&
    forall i :: 0 <= i < |s| ==> s[i] == Combination(alpha, a[i], beta, b[i], gamma, c[i])
  }

  /** Sum is linear: a weighted combination of three equally long sequences
      sums to the same combination of their sums. */
  lemma {:induction false} SumLinear(a: seq<real>, b: seq<real>, c: seq<real>, s: seq<real>,
                                     alpha: real, beta: real, gamma: real)
    requires IsCombination(s, a, b, c, alpha, beta, gamma)
    ensures Sum(s) == Combination(alpha, Sum(a), beta, Sum(b), gamma, Sum(c))
  {
    if s != [] {
      var n := |s| - 1;
      SumLinear(a[..n], b[..n], c[..n], s[..n], alpha, beta, gamma);
      assert Sum(s) == Sum(s[..n]) + s[n];
      assert Sum(a) == Sum(a[..n]) + a[n];
      assert Sum(b) == Sum(b[..n]) + b[n];
      assert Sum(c) == Sum(c[..n]) + c[n];
    }
  }

  /** A constant factor comes out of a sum. */
  lemma {:induction false} SumScale(a: seq<real>, s: seq<real>, k: real)
    requires |a| == |s|
    requires forall i :: 0 <= i < |s| ==> s[i] == k * a[i]
    ensures Sum(s) == k * Sum(a)
  {
    SumLinear(a, a, a, s, k, 0.0, 0.0);
  }

  /** The sum of two equally long sequences, element by element, sums to the sum of the sums. */
  lemma {:induction false} SumPointwise(a: seq<real>, b: seq<real>, s: seq<real>)
    requires |a| == |b| == |s|
    requires forall i :: 0 <= i < |s| ==> s[i] == a[i] + b[i]
    ensures Sum(s) == Sum(a) + Sum(b)
  {
    if s != [] {
      var n := |s| - 1;
      SumPointwise(a[..n], b[..n], s[..n]);
    }
  }

  /** A sequence of zeros sums to zero. */
  lemma {:induction false} SumZeros(s: seq<real>)
    requires forall i :: 0 <= i < |s| ==> s[i] == 0.0
    ensures Sum(s) == 0.0
  {
    if s != [] {
      SumZeros(s[..|s| - 1]);
    }
  }

  /** A row whose entries are `k` times those of `ws` sums to `k` times their sum. */
  lemma {:induction false} ScaledRowSum(row: seq<real>, ws: seq<real>, k: real, total: real)
    requires |row| == |ws| && total == Sum(ws)
    requires forall c :: 0 <= c < |row| ==> row[c] == k * ws[c]
    ensures Sum(row) == k * total
  {
    SumScale(ws, row, k);
  }

  /** `t` is the outer product of `wx` and `wy`: `t[r][c] == wx[r] * wy[c]`. */
  predicate IsOuterProduct(t: seq<seq<real>>, wx: seq<real>, wy: seq<real>)
  {
    |t| == |wx| &&
    (forall r :: 0 <= r < |t| ==> |t[r]| == |wy|) &&
    forall r, c :: 0 <= r < |t| && 0 <= c < |t[r]| ==> t[r][c] == wx[r] * wy[c]
  }

  /** Each row of an outer product sums to its row factor times the sum of
      the column factors. */
  lemma {:induction false} OuterProductRowSums(t: seq<seq<real>>, wx: seq<real>, wy: seq<real>, ey: real)
    requires IsOuterProduct(t, wx, wy) && ey == Sum(wy)
    ensures |RowSums(t)| == |wx|
    ensures forall r :: 0 <= r < |t| ==> RowSums(t)[r] == ey * wx[r]
  {
    forall r | 0 <= r < |t|
      ensures RowSums(t)[r] == ey * wx[r]
    {
      ScaledRowSum(t[r], wy, wx[r], ey);
    }
  }

  /** The row sums of an outer product add up to the product of the sums of
      its factors. */
  lemma {:induction false} OuterProductRowTotal(t: seq<seq<real>>, wx: seq<real>, wy: seq<real>, ex: real, ey: real)
    requires IsOuterProduct(t, wx, wy) && ex == Sum(wx) && ey == Sum(wy)
    ensures Sum(RowSums(t)) == ex * ey
  {
    OuterProductRowSums(t, wx, wy, ey);
    SumScale(wx, RowSums(t), ey);
  }

  /** An outer product sums to the product of the sums of its factors. */
  lemma {:induction false} OuterProductSum(t: seq<seq<real>>, wx: seq<real>, wy: seq<real>, ex: real, ey: real)
    requires IsOuterProduct(t, wx, wy) && ex == Sum(wx) && ey == Sum(wy)
    ensures Sum(Flatten(t)) == ex * ey
  {
    OuterProductRowTotal(t, wx, wy, ex, ey);
    SumFlatten(t);
  }

  /** Taking out the term at `k` takes `b[k]` off the sum. */
  lemma {:induction false} SumRemove(b: seq<real>, k: nat)
    requires k < |b|
    ensures Sum(b) == Sum(b[..k] + b[k + 1..]) + b[k]
  {
    assert b == b[..k] + [b[k]] + b[k + 1..];
    SumAppend(b[..k] + [b[k]], b[k + 1..]);
    SumAppend(b[..k], [b[k]]);
    SumAppend(b[..k], b[k + 1..]);
    assert [b[k]][..0] == [];
  }

  /** The sum does not depend on the order of the terms. */
  lemma {:induction false} SumPermutation(a: seq<real>, b: seq<real>)
    requires multiset(a) == multiset(b)
    ensures Sum(a) == Sum(b)
    decreases |a|
  {
    if a == [] {
      assert |b| == |multiset(b)| == 0;
    } else {
      var n := |a| - 1;
      var x := a[n];
      assert a == a[..n] + [x];
      assert multiset(a) == multiset(a[..n]) + multiset{x};
      assert x in multiset(b);
      var k :| 0 <= k < |b| && b[k] == x;
      var rest := b[..k] + b[k + 1..];
      assert b == b[..k] + [x] + b[k + 1..];
      assert multiset(b) == multiset(b[..k]) + multiset{x} + multiset(b[k + 1..]);
      assert multiset(rest) == multiset(b[..k]) + multiset(b[k + 1..]);
      assert multiset(a[..n]) == multiset(a) - multiset{x};
      assert multiset(rest) == multiset(b) - multiset{x};
      SumPermutation(a[..n], rest);
      SumRemove(b, k);
    }
  }
}
