# Gaussian elimination without pivoting: generator, serial and staged eliminators

This project models the core of a small benchmark of in-place Gaussian elimination on a
dense n-by-n matrix. The benchmark compares a single-threaded reference eliminator (`serial`)
with a data-parallel variant (`gauss_gpu`). That variant splits every pivot step into three
kernels run one after the other. Inputs come from a generator (`random_init`) built so that
elimination never meets a zero pivot.

The model uses exact `real` arithmetic. The buffer is an `array2<real>`, and every routine is
a method with loops that updates it in place. Each method is proved against a function on
matrix values (`seq<seq<real>>`), and the ghost predicate `Matches(m, A)` ties the buffer to
such a value.

- `matrices.dfy` (module `Matrices`): matrix values, unit upper and lower triangular shapes,
  the matrix product written as tail sums (`DotFrom`), and their algebra.
- `generator.dfy` (module `Generator`): `random_init`. The random engine is an input sequence
  of draws, consumed row by row above the diagonal. `RandomInit` returns how many draws it
  took, because the engine's state carries over from one call to the next.
- `serial.dfy` (module `SerialElimination`): `serial`, as a sequence of pivot steps.
- `staged.dfy` (module `StagedElimination`): `gauss_gpu`. Each kernel becomes a sequential
  loop over its lanes, and the kernels run in submission order.
- `guarantee.dfy` (module `NoPivoting`): why the generator's matrices need no pivoting.
  Eliminating L * U, where L is unit lower and U unit upper triangular, meets the pivot 1 at
  every step and ends with U. So `serial` applied to `random_init`'s output gives back exactly
  the triangular matrix of the generator's first phase.

Two points of the code matter for the model:
- The engine is a function-local `static`, so two calls to `random_init` give different
  matrices. Only the same stream of draws gives the same matrix.
- Stage 1 of `gauss_gpu` does not capture the pivot before its lanes run. See Findings.

## Model

| member | source | states |
|---|---|---|
| `Generator.UnitUpperFrom` | gauss_gpu.cpp:17-23 | The first phase's matrix is unit upper triangular, and cell (i, j) above the diagonal holds the draw taken for it in row-major order. |
| `Generator.NumDrawsIsTriangular` | gauss_gpu.cpp:21-22 | One call consumes n * (n - 1) / 2 draws, one per cell above the diagonal. |
| `Generator.FillUnitUpper` | gauss_gpu.cpp:17-23 | The first loop nest leaves exactly the unit upper triangular matrix of the draws in the buffer, and reports how many draws it took. |
| `Generator.AddRowToRowsBelow` | gauss_gpu.cpp:25-29 | Step k leaves rows 0..k unchanged and replaces every row i > k, in every column, by row i plus the current row k. |
| `Generator.RandomInit` | gauss_gpu.cpp:12-31 | The buffer ends holding the triangular matrix with the second phase applied for k = 0..n-1 in increasing order, and NumDraws(n) draws are consumed. |
| `Generator.SpreadSettledRow` | gauss_gpu.cpp:24-30 | Once steps 0..r-1 are done, row r never changes again. |
| `Generator.GeneratedRowZero` | gauss_gpu.cpp:24-30 | Row 0 of the generated matrix equals row 0 of the triangular matrix. |
| `Generator.RowsAddedMul` | gauss_gpu.cpp:25-29 | Adding row k into the rows below commutes with multiplying by U on the right. |
| `Generator.SpreadFactors` | gauss_gpu.cpp:24-30 | After k steps of the second phase the matrix is L * U. L is the same steps applied to the identity, and it stays unit lower triangular. |
| `Generator.GeneratedFactors` | gauss_gpu.cpp:17-30 | The generated matrix is (unit lower) * (the first phase's unit upper matrix). |
| `SerialElimination.PivotStep` | gauss_gpu.cpp:36-45 | Pivot step k gives row k the value old m[k][j] / old m[k][k] for every j > k, so each column divides by the original pivot, and then puts 1 on the pivot. It subtracts m[i][k] * row k from the trailing part of every row below, zeroes column k below the diagonal, and leaves rows < k and columns < k unchanged. |
| `SerialElimination.Serial` | gauss_gpu.cpp:32-47 | When every pivot it divides by is non-zero, the buffer ends holding the pivot steps 0..n-1 applied in order, with ones on the diagonal and zeros below it. The pivots divided by are those of steps 0..n-2; the last one is only overwritten with 1. |
| `SerialElimination.ZeroLastPivot` | gauss_gpu.cpp:35-39 | The last pivot is never divided by: on [[0]] `serial` returns [[1]], and on [[1, 1], [1, 1]], whose second pivot is 0, it returns [[1, 1], [0, 1]]. |
| `SerialElimination.SerialFromUnitUpper` | gauss_gpu.cpp:35-46 | Each pivot step finishes its column and keeps the finished ones, so the remaining steps end in a unit upper triangular matrix. |
| `SerialElimination.EliminateIsUnitUpper` | gauss_gpu.cpp:35-46 | After elimination every diagonal entry is 1 and every entry below the diagonal is 0. |
| `SerialElimination.SerialFromFrame` | gauss_gpu.cpp:35-46 | Pivot steps k, k+1, ... never change a cell in a row above k or a column left of k. |
| `SerialElimination.UnitPivotsAreNonZero` | gauss_gpu.cpp:37 | If every pivot met equals 1, then every pivot is non-zero. |
| `SerialElimination.NonZeroPivotsAreClean` | gauss_gpu.cpp:36-37 | If every pivot is non-zero, then every pivot `serial` divides by is non-zero. |
| `StagedElimination.NormalizeRow` | gauss_gpu.cpp:52-58 | Stage 1, lane idx on column k + idx, with every index inside [0, n): row k from column k on is divided by the pivot captured before the stage, and nothing else is written. |
| `StagedElimination.UpdateTrailing` | gauss_gpu.cpp:61-68 | Stage 2, lane (idx0, idx1) on cell (k+1+idx0, k+1+idx1), every index inside [0, n): each trailing cell loses m[i][k] * m[k][j], and row k and column k are left as they were. |
| `StagedElimination.ZeroColumn` | gauss_gpu.cpp:71-77 | Stage 3, lane idx on cell (k+1+idx, k), every index inside [0, n): column k below the diagonal becomes 0 and nothing else changes. |
| `StagedElimination.StagesMatchSerialStep` | gauss_gpu.cpp:50-78 | With the pivot captured before stage 1, stages 1, 2 and 3 of step k compute exactly pivot step k of `serial`. |
| `StagedElimination.GaussGpu` | gauss_gpu.cpp:48-80 | When every pivot is non-zero, the last one included because stage 1 divides it by itself, the staged eliminator leaves exactly what `serial` leaves for the same input: ones on the diagonal and zeros below it. |
| `StagedElimination.GaussGpuInLaneOrder` | gauss_gpu.cpp:48-80 | With stage 1 exactly as written, lanes in index order, the staged eliminator still leaves what `serial` leaves whenever every pivot met is exactly 1. |
| `StagedElimination.NormalizeRowInLaneOrder` | gauss_gpu.cpp:54-57 | Stage 1 as written, lanes in index order: lane j = k stores m[k][k] / m[k][k], and every later lane divides by that stored value instead of the pivot. |
| `StagedElimination.LaneOrderDiffersFromSerial` | gauss_gpu.cpp:56 | On [[2, 4], [1, 3]], stage 1 as written leaves 4 in cell (0, 1) where `serial` leaves 2, so step 0 differs from `serial`'s. |
| `StagedElimination.LaneOrderHarmlessOnUnitPivot` | gauss_gpu.cpp:56 | When the pivot is exactly 1, stage 1 as written equals stage 1 with the captured pivot. |
| `NoPivoting.FactoredStep` | gauss_gpu.cpp:35-46 | On a partly eliminated L * U, the next pivot is exactly 1, and the step keeps the shape: finished rows of U above, zeros on the left, the trailing L * U sum starting one index later. |
| `NoPivoting.FactoredRun` | gauss_gpu.cpp:35-46 | From such a state every remaining pivot is 1 and elimination ends in U. |
| `NoPivoting.EliminationUndoesProduct` | gauss_gpu.cpp:35-46 | Elimination without pivoting of L * U, with L unit lower and U unit upper, meets only pivots equal to 1 and returns U. |
| `NoPivoting.GeneratedNeedsNoPivoting` | gauss_gpu.cpp:12-47 | On a generated matrix every pivot `serial` reads at line 37 is exactly 1, and elimination returns the first phase's triangular matrix. |
| `NoPivoting.InitThenEliminate` | gauss_gpu.cpp:84-90 | Generating a matrix and then running an eliminator on it is always defined. `serial`, `gauss_gpu`, and `gauss_gpu` with stage 1 as written all leave the generator's triangular matrix. |

## Findings

| source | as written | input that shows it | evidently intended | confidence | as-written member | corrected member |
|---|---|---|---|---|---|---|
| gauss_gpu.cpp:54-57 | Every lane of stage 1 divides by `m[k][k]`, and the lane j = k overwrites `m[k][k]` with 1 in the same parallel pass. That is a data race, and a lane that reads after the overwrite divides by 1. | With the lanes in index order on [[2, 4], [1, 3]], row 0 becomes [1, 4] instead of [1, 2], and the step's result differs from `serial`'s. | Every lane divides by the pivot as it stood before stage 1, which is what `serial` does at line 37. | not executed; the result depends on how the lanes are scheduled. On the generator's matrices every pivot is exactly 1 in exact arithmetic, and `GaussGpuInLaneOrder` shows the whole run then matches `serial`, so there the race shows up only through rounding. | `StagedElimination.LaneOrderDiffersFromSerial` | `StagedElimination.StagesMatchSerialStep` |

## Left out

- SerialElimination.Serial: requires every pivot it divides by to be non-zero (`CleanFrom`). Those are the pivots of steps 0..n-2; the last pivot is never divided by, so it may be zero. A division by a zero pivot at line 37 gives inf or NaN in `float`, and that path is not modelled. `NoPivoting.GeneratedNeedsNoPivoting` proves the requirement holds for every generated matrix.
- StagedElimination.GaussGpu: requires every pivot, the last one included, to be non-zero (`NonZeroPivotsFrom`). At k = n - 1 lane j = n - 1 at line 56 divides the last pivot by itself, so a zero there gives 0/0 in `float`, which is not modelled. On such an input, e.g. [[1, 1], [1, 1]], `gauss_gpu` and `serial` differ, and the model does not cover it.
- StagedElimination.GaussGpuInLaneOrder: covers only inputs whose pivots are all exactly 1. For other inputs the lane-order race changes the result, as `LaneOrderDiffersFromSerial` shows for one step.
- The SYCL queue, handlers, accessors, `parallel_for` dispatch and `wait_and_throw` (lines 52-79) are a concurrent device runtime. Only their sequential meaning is modelled: each kernel is a loop over its lanes in index order, and the kernels run in submission order. That other lane orders of stages 2 and 3 give the same result is argued in comments, not proved. A dispatch failure aborts the run and is not modelled.
- Floating-point rounding is left out, and so is the epsilon comparison between the two eliminators. The model uses exact reals, so its results are exact equalities.
- `std::default_random_engine` and `uniform_real_distribution` (lines 14-15, 22) are a foreign library. They are replaced by an input sequence of draws. Their range [-1, 1) is not needed by any property, so it is not required.
- `runaverage` timing (lines 82-95), the CSV output of `runrun` (lines 97-111) and `main` (lines 113-121) are harness and I/O. Only the generate-then-eliminate call sequence of one trial is kept, in `InitThenEliminate`.
- The kernels' widths (n - k lanes for stage 1, (n - k - 1) per dimension for stages 2 and 3, so zero width at k = n - 1) appear only as loop bounds. The verifier's array-bounds checks on those loops show that every index stays in [0, n). No separate lemma states the widths.
