# Threshold-gate weight bounds over lp_solve, in Dafny

This project models the weight-bound solver of the threshold-logic tools in
`src/threshold/lpSolver.cpp`: `constructLP`, which turns an integer weight
vector `w` and a threshold into a 0/1 integer program, and `solveLp`, which
hands that program to the lp_solve library and reads back the optimal
assignment.

`constructLP` always emits, for every variable `i`, the row `x_i >= 0` and then
the row `-x_i >= -1`. The `-1` sentinels then choose one of three modes, and
`upper` is tested first:

- `upper == -1` (upper bound): it adds `-w . x >= 1 - thre` and maximises `w . x`. The result is `w . ans`.
- `lower == -1` (lower bound): it adds `w . x >= thre` and minimises `w . x`. The result is `w . ans`.
- otherwise (feasibility): it adds `-w . x >= 1 - upper` and `w . x >= lower`. The result is `solveLp`'s return value.

`solveLp` packs every dense row into 1-based column numbers and non-zero
coefficients. It builds the objective from the last row: negated when `max` is
set, as it is when `min` is set, and zero otherwise. It returns 0 on any
failure, and on success it returns the size of the vector it appended the
column values to.

The lp_solve library is an external engine. It is the value `LpEngine.Engine`,
whose fields are the answers of `make_lp`, the buffer allocation,
`add_constraintex`, `set_obj_fnex` and `solve`/`get_variables`. What the core
relies on is stated as a contract:

- `Honest`: an OPTIMAL answer is a non-negative integer point that meets every row. It is optimal in the model's direction among such points. Non-negativity is lp_solve's default column bound `[0, +inf)`, which the code never changes.
- `Complete`: every step succeeds, and every feasible model confined to 0/1 points is solved. It is the premise of `Threshold.CompleteSucceeds`, of `Threshold.SucceedsIffAchievable` in every mode, and of the feasibility "if and only if" in `Threshold.ConstructLp`.

Main results:

- The variable rows together with integrality force `x ∈ {0,1}^n` (`Threshold.FormulationMeaning`).
- The upper-bound result is the largest subset sum below `thre`. The lower-bound result is the smallest subset sum at or above `thre` (`Threshold.ConstructLp`, via `Threshold.HonestAnswer`).
- Neither result depends on which optimum the engine picks (`ThresholdFacts.MaxBelowUnique`, `ThresholdFacts.MinAtLeastUnique`).
- The source's `assert(ans.back() >= 0)` never fails for an honest engine, because lp_solve's default bounds keep every column non-negative (`LpSolve.SolveLp` and `Threshold.ConstructLp` ensure `!aborted`).

Files: `vectors.dfy` (dense rows, weighted sums, 0/1 points), `lp_engine.dfy`
(the engine and its contract), `lp_solve.dfy` (`solveLp`), `threshold.dfy`
(`constructLP`), `threshold_facts.dfy` (consequences and worked examples).

Where the intended behaviour and the code differ, the model follows the code:

- One would expect a sentinel on infeasibility and a distinct error on solver failure. The code returns 0 for every failure of `solveLp`. In the bound modes with at least one weight, it then reads `ans[k]` from an empty vector. The model therefore requires the engine to succeed in those modes when `|w| > 0` (`Threshold.SolverSucceeds`). With no weights the summing loop does not run, and the result is 0 whatever the engine did. For an honest engine, `ThresholdFacts.SuccessNeedsBound` shows that the requirement excludes at least the thresholds with no admissible subset sum. It also excludes achievable thresholds on which an honest engine fails for other reasons. With a complete engine it excludes exactly the thresholds with no admissible subset sum (`Threshold.SucceedsIffAchievable`).
- One would expect a negative assignment value to be reported as an error. The code aborts at an `assert` instead, which `LpSolve.SolveLp` reports through its `aborted` output.
- With an empty weight vector, a feasibility query that succeeds still returns `ans.size() == 0`, which reads as "infeasible". `Threshold.ConstructLp` states this (`r != 0` only when `|w| > 0`).

## Model

| member | source | states |
|---|---|---|
| `Threshold.ConstructLp` | src/threshold/lpSolver.cpp:13-118 | The `assert` in `solveLp` never fails (`!aborted`). When the engine succeeds in upper-bound mode, the result is `w . ans` and is the largest subset sum `<= thre - 1`. When the engine succeeds in lower-bound mode, the result is `w . ans` and is the smallest subset sum `>= thre`. In either bound mode, no weights give 0. Feasibility mode: the result is `|w|` when the engine succeeds and 0 otherwise, and it is non-zero only if some subset sum lies in `[lower, upper - 1]`. With a complete engine, it is non-zero exactly when `|w| > 0` and such a sum exists. The `upper == -1` test wins over `lower == -1`. |
| `Threshold.DomainConstraints` | src/threshold/lpSolver.cpp:18-39 | The nested loops emit, for each variable in order, the unit row `e_i` with right-hand side 0 and then `-e_i` with right-hand side -1. |
| `Threshold.DomainRowsAt` | src/threshold/lpSolver.cpp:18-39 | There are `2n` rows and `2n` right-hand sides. Row `2k` is `e_k` with right-hand side 0, and row `2k+1` is `-e_k` with right-hand side -1. |
| `Threshold.Formulation` | src/threshold/lpSolver.cpp:18-101 | `A` and `B` have the same length: `2n+1` rows in the bound modes and `2n+2` in feasibility mode. Every row has length `n`. Upper-bound mode appends `-w` with right-hand side `1 - thre`. Lower-bound mode appends `w` with `thre`. Feasibility mode appends `-w` with `1 - upper`, then `w` with `lower`. |
| `Threshold.FormulationMeaning` | src/threshold/lpSolver.cpp:18-101 | A point of length `n` meets every row exactly when it is a 0/1 point whose weighted sum is admissible. Admissible means `<= thre - 1` in upper-bound mode, `>= thre` in lower-bound mode, and within `[lower, upper - 1]` in feasibility mode. |
| `Threshold.DomainMeaning` | src/threshold/lpSolver.cpp:18-39 | The first `2n` rows hold at a point of length `n` exactly when it is a 0/1 point. Together with integrality, `x_i >= 0` and `-x_i >= -1` force `x_i` to be 0 or 1. |
| `Threshold.ModeRowsMeaning` | src/threshold/lpSolver.cpp:44-101 | The rows after the first `2n` hold exactly when `w . x` is admissible. Admissible means `<= thre - 1`, `>= thre`, or within `[lower, upper - 1]`, depending on the mode. |
| `Threshold.ModelPoints` | src/threshold/lpSolver.cpp:44-102 | In the model handed to the engine, the feasible points are the admissible 0/1 points. The objective value is `w . x` in the bound modes and 0 in feasibility mode. The model maximises exactly in upper-bound mode. |
| `Threshold.ObjectiveOfMode` | src/threshold/lpSolver.cpp:48-50 | The objective covers columns `1..n`. Its coefficients are exactly `w` in both bound modes, because the negated row is negated back when maximising, and all zeros in feasibility mode. |
| `Threshold.HonestAnswer` | src/threshold/lpSolver.cpp:54-60 | Any assignment an honest engine returns for the formulation is a 0/1 point of length `n` with an admissible sum. That sum is the largest subset sum below `thre` in upper-bound mode and the smallest at or above `thre` in lower-bound mode. |
| `Threshold.CompleteSucceeds` | src/threshold/lpSolver.cpp:83-102 | A complete engine accepts the formulation and reports OPTIMAL whenever some 0/1 point is admissible. |
| `Threshold.SucceedsIffAchievable` | src/threshold/lpSolver.cpp:83-102 | With an honest and complete engine, the solve succeeds if and only if some 0/1 point is admissible. |
| `Threshold.UpperBoundLp` | src/threshold/lpSolver.cpp:45-61 | Appends `-w` with right-hand side `1 - thre` and solves with max. On success, the result is `w . ans`, the largest subset sum below `thre`. With no weights, it is 0. It never aborts. |
| `Threshold.LowerBoundLp` | src/threshold/lpSolver.cpp:64-80 | Appends `w` with right-hand side `thre` and solves with min. On success, the result is `w . ans`, the smallest subset sum at or above `thre`. With no weights, it is 0. It never aborts. |
| `Threshold.FeasibilityLp` | src/threshold/lpSolver.cpp:83-103 | Appends the two rows and returns `solveLp`'s result unchanged: `n` on success, 0 otherwise. A non-zero result implies an admissible sum. With a complete engine, the result is non-zero exactly when `n > 0` and an admissible sum exists. It never aborts. |
| `Threshold.ScaledRow` | src/threshold/lpSolver.cpp:48-51 | The pushed row is `c * w`, entry by entry. |
| `Threshold.WeightedSum` | src/threshold/lpSolver.cpp:55-59 | The accumulated `ret` equals `w . ans`. |
| `LpSolve.SolveLp` | src/threshold/lpSolver.cpp:119-231 | If any step fails (`make_lp`, the buffers, a row, the objective) or `solve` is not OPTIMAL, it returns 0 with `ans` unchanged and does not abort. On success the engine's values have length `Ncol`. The run aborts exactly when one of those values is negative, which an honest engine never returns, so it never aborts. Otherwise `ans` gets the values appended and the result is the new size of `ans`. |
| `LpSolve.PackRow` | src/threshold/lpSolver.cpp:144-151 | The buffer loop writes `j` entries, with `j` equal to the number of non-zero entries of the row. `colno[0..j)` and `row[0..j)` hold the packed row. |
| `LpSolve.PackLength` | src/threshold/lpSolver.cpp:146-150 | The packed row has exactly one entry per non-zero dense entry. |
| `LpSolve.PackEntries` | src/threshold/lpSolver.cpp:148-150 | Each packed column number is in `1..n` and carries that column's non-zero coefficient. |
| `LpSolve.PackIncreasing` | src/threshold/lpSolver.cpp:146-149 | The packed column numbers increase strictly. |
| `LpSolve.PackCovers` | src/threshold/lpSolver.cpp:146-150 | Every non-zero dense entry is packed. |
| `LpSolve.PackValue` | src/threshold/lpSolver.cpp:144-154 | The sparse row given to `add_constraintex` has the dense row's value at every point. |
| `LpSolve.ColumnsValue` | src/threshold/lpSolver.cpp:163-174 | An objective listing columns `1..n` with their coefficients has the dense value at every point. |
| `LpSolve.AddRows` | src/threshold/lpSolver.cpp:143-157 | It succeeds exactly when the engine accepts every packed row. In that case the rows handed over are the packed rows of `A` with their `B`, in order. |
| `LpSolve.ObjectiveRow` | src/threshold/lpSolver.cpp:163-171 | The objective buffers hold columns `1..Ncol`. The coefficients are the last row negated (max), as it is (min only), or zeros. |
| `LpEngine.DefaultBoundOptimum` | src/threshold/lpSolver.cpp:126-133 | Minimising the one column of a model built by `make_lp` and `set_int`, with no rows, is optimal at 0. Under lp_solve's default bound `x >= 0`, this answer satisfies `Honest`. |
| `LpSolve.CollectValues` | src/threshold/lpSolver.cpp:203-210 | It aborts exactly when some value is negative. Otherwise the values are appended to `ans` in order. |
| `LpSolve.BuildModelWellFormed` | src/threshold/lpSolver.cpp:125-171 | Every row and the objective given to the engine name only columns `1..Ncol`. |
| `LpSolve.ModelMeaning` | src/threshold/lpSolver.cpp:143-181 | The engine's model holds at `x` exactly when `A[k] . x >= B[k]` for every `k`. Its objective is the last row scaled by -1 (max), 1 (min) or 0. It maximises exactly when `max` is set. |
| `ThresholdFacts.SuccessNeedsBound` | src/threshold/lpSolver.cpp:54-58 | An honest engine succeeds only if an admissible subset sum exists. |
| `ThresholdFacts.MaxBelowUnique` | src/threshold/lpSolver.cpp:54-60 | Any two upper-bound results for the same `w` and `thre` are equal, whichever optimum the engine picks. |
| `ThresholdFacts.MinAtLeastUnique` | src/threshold/lpSolver.cpp:73-79 | Any two lower-bound results for the same `w` and `thre` are equal. |
| `ThresholdFacts.MaxBelowMonotone` | src/threshold/lpSolver.cpp:45-60 | If `t1 <= t2`, the upper bound for `t1` is at most the upper bound for `t2`. |
| `ThresholdFacts.MinAtLeastMonotone` | src/threshold/lpSolver.cpp:64-79 | If `t1 <= t2`, the lower bound for `t1` is at most the lower bound for `t2`. |
| `ThresholdFacts.UpperExample` | src/threshold/lpSolver.cpp:45-60 | Weights `[1,2,3]` with threshold 4 give the upper bound 3. |
| `ThresholdFacts.LowerExample` | src/threshold/lpSolver.cpp:64-79 | Weights `[1,2,3]` with threshold 4 give the lower bound 4. |
| `ThresholdFacts.UpperGapExample` | src/threshold/lpSolver.cpp:45-60 | Weights `[3,5]` with threshold 7 give the upper bound 5. No subset sums to 6. |
| `ThresholdFacts.LowerGapExample` | src/threshold/lpSolver.cpp:64-79 | Weights `[3,5]` with threshold 4 give the lower bound 5. |
| `ThresholdFacts.FeasibilityExample` | src/threshold/lpSolver.cpp:83-102 | Weights `[5]` with `upper = lower = 5` select feasibility mode, and no 0/1 point is admissible. |
| `ThresholdFacts.EmptyUpperExample` | src/threshold/lpSolver.cpp:45-60 | No weights with threshold 1 give the upper bound 0. |

## Left out

- src/aig/gia/giaMan.c is not part of this model. It holds the manager's allocation, memory accounting in floating point, and statistics printing.
- lp_solve's internals (simplex, branch-and-bound) are not modelled. The engine is a parameter constrained by `Honest` and, for one result, `Complete`.
- lp_solve gives every column the default bounds `[0, +inf)`. These bounds are part of the engine contract (`NonNegative` inside `IsOptimum`, `Bounded` and `Feasible`). In every query `constructLP` builds, the rows `x_i >= 0` state the same bound again. The upper bound `+inf` needs no modelling.
- `set_int` on every column is modelled by having the engine return integers. The conversion of lp_solve's `REAL` values to `int` in `ans.push_back` is not modelled.
- `set_minim` and `set_maxim` are folded into the model's `maximize` flag. `set_add_rowmode` and `set_verbose` have no effect on the result and are not modelled. The freeing of the buffers and `delete_lp` are resource release with no effect on results, and are not modelled.
- `malloc` of the two row buffers is modelled only as an allocation that can fail (`Engine.allocate`).
- `LpSolve.SolveLp`: `ans` is a C++ vector passed by reference. It is modelled as a value passed in and returned. The `int` flags `max` and `min`, which are only ever 0 or 1, are modelled as `bool`.
- `LpSolve.SolveLp`: the C `assert` terminates the program. The model returns with `aborted` set instead, and says nothing about `ans` or the result in that case.
- `Threshold.ConstructLp`: integers are unbounded, so the model does not capture 32-bit overflow in `ret += weight * ans[k]`, `-1*thre+1` or `-1*upper+1`.
- `Threshold.ConstructLp`: in the bound modes with `|w| > 0`, an engine failure makes the source read `ans[k]` past the end of an empty vector. The model requires success in that case instead of modelling the undefined read.
- The unused macros `M` and `wRestrict`, the unreachable `return 0` and the commented-out debug output are not modelled.
