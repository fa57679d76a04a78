/** The cumulative distribution function (`acc`, `getDistrybuanta`).

    The source describes the step function as a table: a row of interval
    labels and a row of cumulative probabilities. Labels are kept here as
    structured intervals rather than formatted text. */
module Cdfs {
  import opened Sums
  import opened Tables
  import opened Marginals

  /** The running sums of `s`: element k is the sum of elements 0..k. */
  function RunningSum(s: seq<real>): seq<real>
  {
    seq(|s|, k requires 0 <= k < |s| => Sum(s[..k + 1]))
  }

  /** `acc`: one pass over the input with a mutable running total, emitting the
      total after each element. */
  method Acc(s: seq<real>) returns (r: seq<real>)
    ensures |r| == |s|
    ensures forall k :: 0 <= k < |s| ==> r[k] == Sum(s[..k + 1])
    ensures r == RunningSum(s)
  {
    var total := 0.0;
    r := [];
    for i := 0 to |s|
      invariant |r| == i
      invariant total == Sum(s[..i])
      invariant forall k :: 0 <= k < i ==> r[k] == Sum(s[..k + 1])
    {
      assert s[..i + 1][..i] == s[..i];
      total := total + s[i];
      r := r + [total];
    }
  }

  /** With non-negative probabilities the running sums never decrease. */
  lemma {:induction false} RunningSumMonotone(s: seq<real>)
    requires forall k :: 0 <= k < |s| ==> s[k] >= 0.0
    ensures forall i, j :: 0 <= i <= j < |s| ==> RunningSum(s)[i] <= RunningSum(s)[j]
  {
    forall i, j | 0 <= i <= j < |s|
      ensures RunningSum(s)[i] <= RunningSum(s)[j]
    {
      SumPrefixMonotone(s, i + 1, j + 1);
    }
  }

  /** The last running sum is the sum of the whole sequence. */
  lemma {:induction false} RunningSumLast(s: seq<real>)
    requires |s| > 0
    ensures RunningSum(s)[|s| - 1] == Sum(s)
  {
    assert s[..|s|] == s;
  }

  /** An end point of an interval label. `Missing` is what the source prints
      for the first label's upper end when there are no values at all (the
      JavaScript `undefined`). */
  datatype Bound = NegInf | PosInf | At(v: real) | Missing

  /** The label `(lower, upper>`: open below, closed above when `upper` is a
      value, open above when it is `PosInf`. */
  datatype Interval = Interval(lower: Bound, upper: Bound)

  datatype Cdf = Cdf(labels: seq<Interval>, cumulative: seq<real>)

  /** Label k of the source's label row (k = 0 is `(-oo, v0>`, label k >= 1
      follows value k - 1). The upper end of label k >= 1 is value k if there
      is one and it is truthy, otherwise +infinity; a value of 0 is falsy, so
      it also yields +infinity. */
  function Label(vs: seq<real>, k: nat): Interval
    requires k <= |vs|
  {
    if k == 0 then Interval(NegInf, if |vs| > 0 then At(vs[0]) else Missing)
    else Interval(At(vs[k - 1]), if k < |vs| && vs[k] != 0.0 then At(vs[k]) else PosInf)
  }

  /** The interval labels: `(-oo, v0>`, then one label per value. */
  function Labels(vs: seq<real>): (ls: seq<Interval>)
    ensures |ls| == |vs| + 1
    ensures ls[0] == Interval(NegInf, if |vs| > 0 then At(vs[0]) else Missing)
    ensures forall k :: 1 <= k <= |vs| ==> ls[k].lower == At(vs[k - 1])
    ensures forall k :: 1 <= k <= |vs| ==> (ls[k].upper == PosInf <==> k == |vs| || vs[k] == 0.0)
    ensures forall k :: 1 <= k < |vs| && ls[k].upper != PosInf ==> ls[k].upper == At(vs[k])
  {
    seq(|vs| + 1, k requires 0 <= k <= |vs| => Label(vs, k))
  }

  /** The labels the source evidently means: the interval after value k ends
      at value k + 1 whenever there is one, whatever its value. */
  function IntendedLabel(vs: seq<real>, k: nat): Interval
    requires k <= |vs|
  {
    if k == 0 then Interval(NegInf, if |vs| > 0 then At(vs[0]) else Missing)
    else Interval(At(vs[k - 1]), if k < |vs| then At(vs[k]) else PosInf)
  }

  /** The label row the source evidently means. */
  function IntendedLabels(vs: seq<real>): (ls: seq<Interval>)
    ensures |ls| == |vs| + 1
  {
    seq(|vs| + 1, k requires 0 <= k <= |vs| => IntendedLabel(vs, k))
  }

  /** The cumulative row of a probability sequence: 0 followed by the running
      sums. */
  function Cumulative(probs: seq<real>): (c: seq<real>)
    ensures |c| == |probs| + 1 && c[0] == 0.0
    ensures forall k :: 0 <= k <= |probs| ==> c[k] == Sum(probs[..k])
  {
    assert probs[..0] == [];
    [0.0] + RunningSum(probs)
  }

  /** `getDistrybuanta`: the source's label row for the
      marginal's values, and the cumulative row of its probabilities. */
  function Distrybuanta(m: Matrix, v: Var): (c: Cdf)
    requires Defined(m, v)
    ensures c.labels == Labels(Marginal(m, v).values)
    ensures |c.cumulative| == |Marginal(m, v).probs| + 1 && c.cumulative[0] == 0.0
    ensures forall k :: 0 <= k <= |Marginal(m, v).probs| ==> c.cumulative[k] == Sum(Marginal(m, v).probs[..k])
  {
    var d := Marginal(m, v);
    Cdf(Labels(d.values), Cumulative(d.probs))
  }

  /** `getDistrybuanta` with the corrected labels; the cumulative row is the
      source's. */
  function IntendedDistrybuanta(m: Matrix, v: Var): (c: Cdf)
    requires Defined(m, v)
    ensures c.labels == IntendedLabels(Marginal(m, v).values)
    ensures c.cumulative == Distrybuanta(m, v).cumulative
  {
    var d := Marginal(m, v);
    Cdf(IntendedLabels(d.values), Cumulative(d.probs))
  }

  /** With non-negative probabilities a later cumulative probability is
      never smaller than an earlier one. */
  lemma {:induction false} CumulativeStep(probs: seq<real>, i: nat, j: nat)
    requires forall k :: 0 <= k < |probs| ==> probs[k] >= 0.0
    requires i <= j <= |probs|
    ensures Cumulative(probs)[i] <= Cumulative(probs)[j]
  {
    SumPrefixMonotone(probs, i, j);
  }

  /** A cumulative row for a total mass `total`: it starts at 0, never
      decreases and ends at `total`. */
  predicate IsCumulative(c: seq<real>, total: real)
  {
    |c| > 0 && c[0] == 0.0 &&
    (forall i, j :: 0 <= i <= j < |c| ==> c[i] <= c[j]) &&
    c[|c| - 1] == total
  }

  /** With non-negative probabilities the cumulative row starts at 0, never
      decreases and ends at the total probability. */
  lemma {:induction false} CumulativeMonotone(probs: seq<real>)
    requires forall k :: 0 <= k < |probs| ==> probs[k] >= 0.0
    ensures IsCumulative(Cumulative(probs), Sum(probs))
  {
    forall i: nat, j: nat | i <= j <= |probs|
      ensures Cumulative(probs)[i] <= Cumulative(probs)[j]
    {
      CumulativeStep(probs, i, j);
    }
    assert probs[..|probs|] == probs;
  }

  /** For a table with non-negative probability cells the cumulative
      probabilities start at 0, never decrease and end at the total mass of
      the marginal. */
  lemma {:induction false} CdfMonotone(m: Matrix, v: Var)
    requires Defined(m, v)
    requires forall i, j :: 0 <= i < |ProbabilityMatrix(m)| && 0 <= j < |ProbabilityMatrix(m)[i]| ==>
      ProbabilityMatrix(m)[i][j] >= 0.0
    ensures IsCumulative(Distrybuanta(m, v).cumulative, Sum(Marginal(m, v).probs))
  {
    MarginalNonNegative(m, v);
    CumulativeMonotone(Marginal(m, v).probs);
  }

  /** The intended labels chain: each interval starts where the previous one
      ends, and the last one is unbounded above. */
  lemma {:induction false} IntendedLabelsChain(vs: seq<real>)
    requires |vs| > 0
    ensures IntendedLabels(vs)[0].lower == NegInf
    ensures forall k :: 0 <= k < |vs| ==> IntendedLabels(vs)[k].upper == IntendedLabels(vs)[k + 1].lower
    ensures IntendedLabels(vs)[|vs|].upper == PosInf
  {
  }

  /** The source's labels agree with the intended ones exactly when no value
      after the first is 0. */
  lemma {:induction false} LabelsAgreeUnlessZero(vs: seq<real>)
    ensures Labels(vs) == IntendedLabels(vs) <==> forall k :: 1 <= k < |vs| ==> vs[k] != 0.0
  {
    if forall k :: 1 <= k < |vs| ==> vs[k] != 0.0 {
      assert forall k :: 0 <= k <= |vs| ==> Labels(vs)[k] == IntendedLabels(vs)[k];
    } else {
      var k :| 1 <= k < |vs| && vs[k] == 0.0;
      assert Labels(vs)[k].upper != IntendedLabels(vs)[k].upper;
    }
  }

  /** The Y values of the initial table, -4, 0, 2, 3, break the chain: the
      label after -4 is (-4, +infinity) although the next label starts at 0. */
  lemma {:induction false} ZeroValueBreaksChain()
    ensures Labels([-4.0, 0.0, 2.0, 3.0])[1] == Interval(At(-4.0), PosInf)
    ensures Labels([-4.0, 0.0, 2.0, 3.0])[2].lower == At(0.0)
    ensures IntendedLabels([-4.0, 0.0, 2.0, 3.0])[1] == Interval(At(-4.0), At(0.0))
  {
  }
}
