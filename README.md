# Statistics engine of math-test-solver

math-test-solver is a small web page for probability exercises. The user edits
the joint distribution of two discrete random variables X and Y as a table:
- Row 0 holds the values of Y.
- Column 0 holds the values of X.
- Every other cell holds P(X = x, Y = y).

From the table the page shows:
- the marginal distribution of each variable;
- its cumulative distribution function (CDF), written as a row of intervals and a row of cumulative probabilities;
- its expected values and its variance;
- E(XY) and the correlation coefficient.

This project models that statistics engine over the real numbers. It proves:
- what each operation computes;
- that the operations agree with their textbook counterparts (mass balance, CDF monotonicity, the variance shortcut, independence implies zero covariance, marginal and joint expectations agree);
- that reordering rows or columns together with their header values changes no expected value or variance, while the CDF does change;
- the numbers the page shows for its initial table.

Modules, one per file:

- `Sums` (`sums.dfy`): the engine's left-fold `sum`, `flat` and row sums, plus the algebra of sums the proofs use.
- `Tables` (`tables.dfy`): the table type, `shift`, the probability submatrix (as a function and as the in-place recipe), and the shape predicates that say when the engine reads only cells that exist.
- `Marginals` (`marginals.dfy`): `getDistibution` for X and for Y.
- `Cdfs` (`cdf.dfy`): `acc` (a loop over a running total) and `getDistrybuanta`.
- `Moments` (`moments.dfy`): `getExpectedValue`, `getVariation`, `getExpectedValueYTimesX` and the numerator of `getCorrelationCoefficient`.
- `InitialTable` (`initial_table.dfy`): the table the page starts with, and the statistics it shows for it.

Shape conditions:
- The engine reads `matrix[i + 1][0]`, `matrix[0][i + 1]` and `row[index]` without checking that they exist. On a ragged table those reads give `undefined`, which turns into `NaN` in the output.
- A table with no data row makes the Y branch throw.
- The model states these conditions as preconditions: `HasRowHeaders`, `HasColumnHeaders` and `IsJointTable`.
- Inside them, every cell the engine reads exists.

## Model

| member | source | states |
|---|---|---|
| Sums.SumAppend | src/App.tsx:22 | the sum of a concatenation is the sum of the sums |
| Sums.SumFlatten | src/App.tsx:108-116 | summing the flattened table equals summing its row sums |
| Sums.SumNonNegative | src/App.tsx:22 | a sum of non-negative terms is non-negative |
| Sums.SumPrefixMonotone | src/App.tsx:22 | with non-negative terms a longer prefix has a sum at least as large |
| Sums.SumLinear | src/App.tsx:22 | the sum of a three-way linear combination is that combination of the sums |
| Sums.SumScale | src/App.tsx:22 | a constant factor comes out of a sum |
| Sums.SumPointwise | src/App.tsx:22 | the sum of an element-wise sum is the sum of the two sums |
| Sums.SumPermutation | src/App.tsx:22 | two sequences with the same terms, in any order, have the same sum |
| Sums.OuterProductSum | src/App.tsx:108-116 | a table whose cells are wx[r] * wy[c] sums to Sum(wx) * Sum(wy) |
| Tables.ProbabilityMatrixCells | src/App.tsx:14-20 | the submatrix has one row fewer and each row one cell fewer (empty stays empty); cell [i][j] is table cell [i+1][j+1] |
| Tables.StripHeaders | src/App.tsx:14-20 | shifting the header row off a copy and then the header cell off every remaining row yields exactly the probability submatrix |
| Marginals.MarginalXEntries | src/App.tsx:28-37 | one X value per data row, in row order: value i is table cell [i+1][0], and its probability is the sum of row i+1's probability cells |
| Marginals.MarginalYEntries | src/App.tsx:39-55 | one Y value per cell of the first data row after its header, in column order: value j is table cell [0][j+1], and its probability is the sum of column j of the submatrix |
| Marginals.ColumnEntries | src/App.tsx:49-53 | column j of the submatrix is table column j+1 below the header row |
| Marginals.ColumnSumsTotal | src/App.tsx:49-53 | the column sums of a rectangular table add up to the sum of all its cells |
| Marginals.MarginalMassAgrees | src/App.tsx:25-56 | on a joint table both marginals carry the total mass of the probability cells |
| Marginals.MarginalXSwapRows | src/App.tsx:28-37 | exchanging two data rows, X header cells included, exchanges the two corresponding (value, probability) pairs of the X marginal |
| Marginals.MarginalYSwapColumns | src/App.tsx:39-55 | exchanging two columns, Y header cells included, exchanges the two corresponding (value, probability) pairs of the Y marginal |
| Marginals.MarginalYSwapRows | src/App.tsx:39-55 | exchanging two data rows of a joint table leaves the Y marginal unchanged |
| Marginals.MarginalXSwapColumns | src/App.tsx:28-37 | exchanging two columns of a joint table leaves the X marginal unchanged |
| Marginals.MarginalNonNegative | src/App.tsx:25-56 | non-negative cells give non-negative marginal probabilities, for X and for Y |
| Cdfs.Acc | src/App.tsx:58-64 | the loop emits as many totals as inputs, and total k is the sum of elements 0..k |
| Cdfs.RunningSumMonotone | src/App.tsx:58-64 | with non-negative input the running totals never decrease |
| Cdfs.RunningSumLast | src/App.tsx:58-64 | the last running total is the sum of the whole input |
| Cdfs.Labels | src/App.tsx:72-79 | the source's label row: n+1 labels; label 0 is (-oo, v0>; label k+1 starts at vk; it is unbounded above exactly when k+1 = n or v(k+1) is 0, and otherwise ends at v(k+1) |
| Cdfs.Cumulative | src/App.tsx:80 | the cumulative row has one entry more than there are probabilities, starts at 0, and entry k is the sum of the first k probabilities |
| Cdfs.Distrybuanta | src/App.tsx:66-82 | the label row is the source's label row (`Labels`) for the marginal's values, zero quirk included; the cumulative row starts at 0 and entry k is the sum of the marginal's first k probabilities |
| Cdfs.IntendedDistrybuanta | src/App.tsx:66-82 | the same step function with the corrected labels; its cumulative row is the source's |
| Cdfs.CumulativeStep | src/App.tsx:80 | with non-negative probabilities a later cumulative entry is at least an earlier one |
| Cdfs.CumulativeMonotone | src/App.tsx:80 | with non-negative probabilities the cumulative row starts at 0, never decreases, and ends at the total probability |
| Cdfs.CdfMonotone | src/App.tsx:66-82 | for a table with non-negative cells the CDF of X or Y starts at 0, never decreases, and ends at the marginal's total mass |
| Cdfs.IntendedLabelsChain | src/App.tsx:72-79 | the corrected labels start at -oo, each one starts where the previous one ends, and the last is unbounded above |
| Cdfs.LabelsAgreeUnlessZero | src/App.tsx:76-78 | the source's labels equal the corrected ones if and only if no value after the first is 0 |
| Cdfs.ZeroValueBreaksChain | src/App.tsx:76-78 | for the Y values -4, 0, 2, 3 the source labels (-4, oo) while the next label starts at 0; the corrected label is (-4, 0> |
| Moments.RowTermsTotal | src/App.tsx:84-94 | for a distribution whose probabilities are row sums, the sum of p_i * x_i^k equals the sum over all cells of x_r^k * p_rc |
| Moments.ExpectedValueXOverCells | src/App.tsx:84-94 | E[X^k] from the marginal equals x_r^k * p_rc summed over every probability cell |
| Moments.ColumnTermsTotal | src/App.tsx:84-94 | for a distribution whose probabilities are column sums, the sum of p_j * y_j^k equals the sum over all cells of y_c^k * p_rc |
| Moments.ExpectedValueYOverCells | src/App.tsx:84-94 | E[Y^k] from the marginal equals y_c^k * p_rc summed over every probability cell |
| Moments.SwapPairsMoment | src/App.tsx:84-94 | exchanging two (value, probability) pairs of a distribution leaves every moment unchanged |
| Moments.ExpectedValueXRowOrder | src/App.tsx:84-94 | exchanging two data rows of a joint table, with their X values, leaves every E[X^k] unchanged |
| Moments.ExpectedValueYRowOrder | src/App.tsx:84-94 | exchanging two data rows of a joint table leaves every E[Y^k] unchanged |
| Moments.ExpectedValueXColumnOrder | src/App.tsx:84-94 | exchanging two columns of a joint table leaves every E[X^k] unchanged |
| Moments.ExpectedValueYColumnOrder | src/App.tsx:84-94 | exchanging two columns of a joint table, with their Y values, leaves every E[Y^k] unchanged |
| Moments.VariationOrder | src/App.tsx:96-101 | exchanging two data rows or two columns of a joint table leaves the variance of X and of Y unchanged |
| Moments.SpreadSum | src/App.tsx:96-101 | the weighted squared deviations from any mean sum to E[V^2] - 2 * mean * E[V] + mean^2 * total mass |
| Moments.ShortcutIsSpread | src/App.tsx:96-101 | for a distribution of mass 1, second moment minus squared mean equals the expected squared deviation |
| Moments.VariationIsExpectedSquaredDeviation | src/App.tsx:96-101 | when the marginal has mass 1, E[V^2] - E[V]^2 is the expected squared deviation from E[V] |
| Moments.SpreadNonNegative | src/App.tsx:96-101 | with non-negative probabilities the expected squared deviation is non-negative |
| Moments.VariationNonNegative | src/App.tsx:96-101 | a table with non-negative cells and a marginal of mass 1 has a non-negative variance |
| Moments.FactoredCrossMoment | src/App.tsx:103-117 | when every cell is px[r] * py[c], the sum of x * y * p over the cells is the product of the two first moments |
| Moments.IndependentProductFactors | src/App.tsx:103-117 | under independence E(XY) = E[X] * E[Y] |
| Moments.IndependentMeansUncorrelated | src/App.tsx:119-124 | under independence E(XY) = E[X] * E[Y], so the numerator of the correlation coefficient is 0 |
| InitialTable.InitialIsJointTable | src/App.tsx:6-10 | the initial table is a joint table, and its probability cells are 0.22 0.2 0.15 0.08 / 0.15 0.05 0.05 0.1 |
| InitialTable.InitialMarginalX | src/App.tsx:28-37 | X takes -1 and 5 with probabilities 0.65 and 0.35 |
| InitialTable.InitialMarginalY | src/App.tsx:39-55 | Y takes -4, 0, 2 and 3 with probabilities 0.37, 0.25, 0.2 and 0.18 |
| InitialTable.InitialTotalMass | src/App.tsx:6-10 | the cells and both marginals have mass 1 |
| InitialTable.InitialExpectedX | src/App.tsx:84-94 | E[X] = 1.1 and E[X^2] = 9.4 |
| InitialTable.InitialVariationX | src/App.tsx:96-101 | Var X = 8.19 |
| InitialTable.InitialExpectedY | src/App.tsx:84-94 | E[Y] = -0.54 and E[Y^2] = 8.34 |
| InitialTable.InitialVariationY | src/App.tsx:96-101 | Var Y = 8.0484 |
| InitialTable.InitialProductTerms | src/App.tsx:108-114 | the terms x * y * p of the initial cells, row by row |
| InitialTable.InitialCrossMoment | src/App.tsx:119-124 | E(XY) = -0.66, and the numerator of the correlation coefficient is -0.066 |
| InitialTable.InitialCdfX | src/App.tsx:66-82 | the CDF of X is (-oo, -1>, (-1, 5>, (5, oo) with 0, 0.65, 1 |
| InitialTable.InitialCumulativeY | src/App.tsx:80 | the cumulative row of Y is 0, 0.37, 0.62, 0.82, 1 |
| InitialTable.InitialLabelsY | src/App.tsx:72-79 | the source labels Y as (-oo, -4>, (-4, oo), (0, 2>, (2, 3>, (3, oo); the corrected labels have (-4, 0> second |
| InitialTable.InitialSwappedMoments | src/App.tsx:84-94 | the initial table with its two X rows exchanged is a joint table, its X marginal is (5, 0.35), (-1, 0.65), and E[X] is still 1.1 |
| InitialTable.InitialReorderChangesCdf | src/App.tsx:66-82 | after that exchange the CDF of X is (-oo, 5>, (5, -1>, (-1, oo) with 0, 0.35, 1, which differs from the CDF of the initial table |

## Left out

- The user interface is not part of this model: the page layout, the editable matrix component (`components/Matrix.tsx`) and the immer draft machinery. `produce` is modelled only by its effect: a copy of the table, changed by the recipe.
- Floating point: all arithmetic is over the reals, so rounding in the displayed numbers is not modelled.
- Cell [0][0] is a text label in the source. The model stores an arbitrary real there and never reads it.
- The display tags "xj", "yj" and "pj" in the marginal and CDF rows are dropped; the model keeps only the numbers.
- Labels are kept as structured intervals. Their text formatting, such as `(a, b>`, is not modelled.
- Cdfs.Acc: the source coerces each cell with `Number(val)`. The model's cells are already numbers, so the coercion is the identity.
- The `array(size)` helper only supplies an index range. It is absorbed into the sequence comprehensions.
- The Y branch computes the column sums once and discards them before computing them again for the result. That first computation has no effect and is not modelled.
- Tables with missing cells are left out. On them the source reads `undefined` and returns `NaN`, or throws when there is no data row. The preconditions `HasRowHeaders`, `HasColumnHeaders` and `IsJointTable` exclude these tables.
- Moments.ExpectedValue: the exponent is a natural number. The page calls it only with 1 and 2.
- Moments.IndependentMeansUncorrelated: the denominator of `getCorrelationCoefficient`, the product of the square roots of the two variances, is not modelled. Only its numerator E(XY) - E[X] * E[Y] is modelled, so the coefficient itself is not stated.
- Moments.VariationOrder: reordering is stated for one exchange of two data rows or of two columns. Any reordering is a sequence of such exchanges, but the model has no single lemma for an arbitrary permutation.
- There is no code in the repository for an independence test or a linear transformation of the variables, so neither is modelled. `Independent` is defined here only as the hypothesis of `IndependentMeansUncorrelated`.

## Findings

| source | as written | input that shows it | evidently intended | confidence | as-written member | corrected member |
|---|---|---|---|---|---|---|
| src/App.tsx:76-78 | The label after value k ends at value k+1 only if that value is truthy. A value of 0 is falsy, so its label becomes unbounded above. | The page's own initial table: Y values -4, 0, 2, 3. The second label reads (-4, oo), yet the next label starts at 0. | The label after value k ends at value k+1 whenever there is one: (-4, 0> | high; not executed | Cdfs.ZeroValueBreaksChain | Cdfs.IntendedLabelsChain |
