# Simplex and Gauss–Jordan solvers, modelled in Dafny

This project models the two numeric cores of a small linear-programming
application.

* `Simplex` (Services/simplex.py) is a two-phase tableau simplex solver.
  * It reads constraints written as text, such as `1x_1 + 2x_2 <= 4`.
  * It builds a tableau with slack and artificial columns.
  * Phase 1 minimises the sum of the artificial variables.
  * It then drops the artificial columns.
  * It writes the user's objective into the cost row and prices out the basic columns.
  * It pivots again until the cost row is optimal (minimising or maximising).
  * Finally it reads the values of the original variables off the tableau.
* `GaussAlgorithm` (Services/graph.py) reduces a linear system `A x = rhs`.
  * `forward_step` and `backward_step` do Gauss–Jordan elimination in place.
  * `check_matrix` looks for basic columns.
  * `podstanovka` expresses each basic variable through the others.
  * `create_new_f` rewrites an objective in terms of those expressions.

## How the project is laid out

**Shared modules**

| module | contents |
|---|---|
| `Outcomes` | `Option`, `Result` and the error kinds. Python exceptions become `Err`: `ValueError("unbounded")` from `find_key_row`, a failed `int`/`Fraction` parse, a failed tuple unpacking, an out-of-range list index. `OutOfFuel` stands for a pivot loop that has not stopped within the allowed number of pivots. |
| `PyText` | The parts of Python's string semantics that the solver relies on: `str.split(sep)`, `str.split()`, the substring test `in`, `lower()`, `int()`, `Fraction()` on `[sign]digits[/digits]`, and list indexing with negative indices. |
| `Rows` | The module helpers `add_row`, `multiply_const_row`, `max_index` and `min_index`. Also the pivot (`normalize_to_pivot` followed by `make_key_column_zero`) as a function on the tableau, and the facts about rows and solutions that the proofs share. |

**Simplex solver**

| module | contents |
|---|---|
| `Construct` | `construct_matrix_from_constraints` as functions, and as the methods that run its loops. |
| `Pivoting` | The entering-column choice, `find_key_row`, one pivot step and the pivot loop (`Iterate`). Also what the loop keeps: solutions, feasibility, a canonical basis, and the direction in which the objective moves. |
| `Phases` | `phase1`, `delete_r_vars`, `update_objective_fun`, the price-out loop, the read-off of the solution, and the whole run from `__init__` (`Run`, `Solve`). |
| `SimplexSolver` | The `Simplex` class. It holds the Python object's tableau state: `count_vars`, `objective`, `objective_fun`, `coeff_matrix` (as `matrix`), `r_rows`, `num_s_vars`, `num_r_vars` and `basic_vars`. `constraints` is read only while the tableau is built, and the class takes the built tableau instead. The display fields `char`, `hod_simplex`, `coloumn_pivot` and `check_eq` are left out. `solution` and `optimize_val` are returned as the answer instead of being stored. Its methods rewrite `matrix` and `basicVars` in place. Each method is proved to leave exactly the state that the functions above compute. |

**Gauss–Jordan solver**

| module | contents |
|---|---|
| `Elimination` | The row operations of `GaussAlgorithm` on values. `doit` is proved to keep the solution set, to reach the identity on the leading square, and to return a solution. `check_matrix` is a function, with lemmas stating exactly which (row, column) pairs it collects. |
| `Substitution` | `create_symbols`, `podstanovka` and `create_new_f` over affine expressions. Take a solution of the system. While the expressions built so far still evaluate to that point, the next expression for a basic variable evaluates to its pivot times that variable. When every collected pivot is 1 (`UnitPivots`), the expressions therefore keep evaluating to the point: they equal the variables they replace, and the derived constraints say "this variable is non-negative". `doit` makes the pivots of the leading columns 1, but `check_matrix` also collects any later column with a single non-zero entry, whatever its value. After such a column is substituted, the expressions no longer evaluate to the point, and a later expression can be neither its variable nor pivot × variable (`Scenarios.ThreeNotMeaning`, `Scenarios.LaterNotMeaning`). |
| `Gauss` | The `GaussAlgorithm` class. The matrix and the right-hand side are arrays that the methods rewrite in place. A ghost `system` mirrors the arrays. |
| `Scenarios` | Three systems worked through step by step. The first is the demonstration at the end of Services/graph.py, from `doit` to `create_new_f`. The second is an already-reduced system whose collected pivot 3 shows why `UnitPivots` is needed. The third has two non-unit columns collected in the same row, and shows what the second substitution leaves. |

**A worked Simplex run**

| module | contents |
|---|---|
| `SimplexExample` | `Simplex(2, ["1x_1 <= 4", "1x_2 <= 3"], ("max", "1x_1 + 1x_2"))` followed stage by stage, from the built tableau through both phases to the answer x_1 = 4, x_2 = 3 with value 7. |

**Representation choices**

* `Fraction` is `real`.
* Where the code and its documentation differ, the model follows the code:
  * `num_r_vars` counts the `<=` rows and the plain `=` rows, but not the `>=` rows. Yet it is the `>=` and plain `=` rows that each write a 1 at `r_index` and move it on. The t-th such row, counting from 0, writes into artificial column t. So `r_index` runs past the artificial columns when the `>=` rows outnumber the `<=` rows.
    * With exactly one `>=` row more than `<=` rows, the last such row writes its 1 into the right-hand-side column, and the right-hand side then overwrites it. The row is still recorded in `r_rows`, but it has no artificial column of its own, and nothing fails (`Construct.ArtificialInRhsColumn`). An example is `1x_1 >= 1`, `1x_1 >= 2`, `1x_1 <= 5`.
    * With two or more `>=` rows beyond the `<=` rows, `r_index` passes the last column and the assignment raises `IndexError`. Two `>=` constraints and nothing else fail this way (`Construct.TwoLowerBoundsOverflow`).
  * Phase 1 numbers the remaining rows' slack variables from `count_vars` upwards.
  * `update_objective_fun` only overwrites the cost entries that the objective names.
* Python's `is '-'` is read as `==`. CPython shares one-character strings, so the two agree.
* For the first token, `constraint[j-1]` is the last token of the constraint, as Python's negative indexing makes it.

## Model

| member | source | states |
|---|---|---|
| PyText.SplitSpells | Services/simplex.py:87 | The pieces of `split(sep)` contain no separator and, joined with it, give back the text. |
| PyText.SplitJoin | Services/simplex.py:92 | Splitting separator-free pieces joined by the separator gives back exactly those pieces. |
| PyText.SplitPrefix | Services/simplex.py:87 | Text before the first separator is the first piece; the rest splits on its own. |
| PyText.Words | Services/simplex.py:245 | `split()` yields non-empty words without white space. If the text starts with a non-space character, the first word starts with it. |
| PyText.WordsSpellText | Services/simplex.py:245 | The words of `split()`, concatenated, are the text with its white space removed. |
| PyText.ContainsIff | Services/simplex.py:68-77 | `sub in s` holds exactly when `sub` occurs at some position of `s`. |
| PyText.RelationHoldsEquals | Services/simplex.py:68-78 | Every constraint with `<=` or `>=` also contains `=`. This is why the order of the tests decides the counts. |
| PyText.ParseNat | Services/simplex.py:94 | Parsing digits succeeds exactly on non-empty all-digit text. |
| PyText.ParseShowNat | Services/simplex.py:94 | `int(str(n)) == n` for every natural number. |
| PyText.ParseShowInt | Services/simplex.py:94 | `int(str(i)) == i` for every integer, negative ones included. |
| PyText.ParseFractionSigned | Services/simplex.py:94-96 | `Fraction("-" + digits)` is the negated number and `Fraction(digits)` the number. |
| PyText.ParseFractionOfRatio | Services/simplex.py:114 | A signed `p/q` with q non-zero parses to sign times p/q. |
| PyText.ParseFractionOfWhole | Services/simplex.py:114 | A signed whole number parses to its value. |
| PyText.ParseFractionRatio | Services/simplex.py:82 | `Fraction("p/q")` is p/q for every natural p and positive q. |
| PyText.ParseFractionSignedSlashOne | Services/simplex.py:250-252 | `Fraction([-]n + "/1")` is ±n. |
| PyText.SlashOneIsWhole | Services/simplex.py:250-252 | A literal ending in `/1` that parses is a whole number. |
| PyText.FractionOverOne | Services/simplex.py:250-252 | A fraction whose last `/` piece is `1` parses to a whole number. |
| PyText.PyIndex | Services/simplex.py:94 | A Python index into a list of length n is valid exactly when -n <= k < n; a negative index counts from the end. |
| Rows.AddRow | Services/simplex.py:372-386 | `add_row` has the length of row1 and holds the entry-wise sums. |
| Rows.MultiplyConstRow | Services/simplex.py:405-419 | `multiply_const_row` has the row's length and holds c times each entry. |
| Rows.PriceOutClears | Services/simplex.py:264-266 | Adding `-row0[c]` times a row with 1 in column c clears column c of the cost row. |
| Rows.MaxPrefixIsFirstMax | Services/simplex.py:398-401 | After scanning the first n entries, `max_i` holds the first index of their maximum. |
| Rows.MaxIndexIsFirstMax | Services/simplex.py:388-403 | `max_index` is the first index of a maximum among all entries except the last, the right-hand side. |
| Rows.MinPrefixIsFirstMin | Services/simplex.py:431-434 | After scanning the first n entries, `min_i` holds the first index of their minimum. |
| Rows.MinIndexIsFirstMin | Services/simplex.py:421-436 | `min_index` is the first index of a minimum over all entries, the right-hand side included. |
| Rows.PivotEffect | Services/simplex.py:189-211 | After the pivot, the key row is the old key row over the pivot, column c is the unit column of the key row, and every other row has lost its column-c entry times the new key row. |
| Rows.PivotKeepsCanonical | Services/simplex.py:157-162 | A pivot keeps every constraint row's basic column a unit column, once column c replaces the key row's basic column. |
| Rows.DivRowHolds | Services/simplex.py:196-197 | Dividing an equation row by a non-zero pivot keeps the points that satisfy it. |
| Rows.SubScaledHolds | Services/simplex.py:207-211 | Subtracting a multiple of a row that holds at x keeps whether another row holds at x. |
| Rows.PivotKeepsSolutions | Services/simplex.py:161-162 | A pivot on a constraint row keeps the set of points that satisfy all constraint rows. |
| Rows.TruncatedKeeps | Services/simplex.py:233-238 | Deleting at index width-1 until the row has `width` entries keeps the first width-1 entries and moves the right-hand side to the end. |
| Construct.CountsByRelation | Services/simplex.py:65-78 | `num_s_vars` counts the constraints with `>=` or `<=`. `num_r_vars` counts those with `=` but not `>=`. |
| Construct.Store | Services/simplex.py:94-96 | A coefficient store succeeds exactly when the Python index is valid, and then changes only that entry. |
| Construct.ApplyAdvances | Services/simplex.py:91-112 | One token changes only row i and never moves `s_index`, `r_index` or `r_rows` backwards. |
| Construct.FillFromAdvances | Services/simplex.py:89-112 | The same holds for the whole token loop of a constraint. |
| Construct.ApplyCoefficient | Services/simplex.py:91-96 | A coefficient token for column k succeeds exactly when k-1 is a valid Python index into the row. It then sets that one entry and changes nothing else, counters included. Otherwise it fails with an index error. |
| Construct.ApplyLessEq | Services/simplex.py:98-100 | A `<=` token succeeds exactly when `s_index` lies inside the row. It then writes 1 at `s_index`, moves `s_index` on by one, and keeps `r_index`, `r_rows` and the other rows. |
| Construct.ApplyGreaterEq | Services/simplex.py:102-107 | A `>=` token succeeds exactly when both counters lie inside the row. It then writes -1 at `s_index` and 1 at `r_index`, moves both counters on and appends the row to `r_rows`. |
| Construct.ApplyEqual | Services/simplex.py:109-112 | A plain `=` token succeeds exactly when `r_index` lies inside the row. It then writes 1 at `r_index`, moves `r_index` on, appends the row to `r_rows` and keeps `s_index`. |
| Construct.FillFromCounters | Services/simplex.py:89-112 | Over a whole constraint, `s_index` grows by the number of `<=` and `>=` tokens and `r_index` by the number of `>=` and `=` tokens. `r_rows` gains the row once for each `>=` or `=` token. |
| Construct.FillFromKeeps | Services/simplex.py:89-112 | Over a whole constraint, an entry of the row keeps its value unless some coefficient token names its column, or it lies among the slack or artificial columns the relation tokens take. |
| Construct.RowEndsWithRhs | Services/simplex.py:114 | A filled constraint row ends with `Fraction(constraint[-1])`. |
| Construct.UnnamedColumnKept | Services/simplex.py:89-96 | An original-variable column that no later token names keeps its value. |
| Construct.LastCoefficientWins | Services/simplex.py:89-96 | When several tokens name the same column, the last one's coefficient is stored. |
| Construct.ClassifyTerm | Services/simplex.py:91-96 | A term `<c>x_<k>` reads as coefficient ±c for column k, negated when the previous token is `-`. |
| Construct.BuildShape | Services/simplex.py:80-116 | The built tableau has one cost row plus one row per constraint. Its width is count_vars + num_s_vars + num_r_vars + 1. The cost row is all zeros. `r_rows` names constraint rows, and the counters count as `CountsByRelation` says. |
| Construct.TwoLowerBoundsCount | Services/simplex.py:65-78 | Two `>=` constraints give two slack columns and no artificial column. |
| Construct.TwoLowerBoundsOverflow | Services/simplex.py:102-107 | For two `>=` constraints, filling the tableau fails with an index error. |
| Construct.LowerBoundRow | Services/simplex.py:102-107 | A `1x_1 >= b` row (b is 1 or 2) succeeds exactly when both `s_index` and `r_index` lie inside the row. It then moves `r_index` on by one. Otherwise it fails with an index error. |
| Construct.ArtificialInRhsColumn | Services/simplex.py:102-114 | A `1x_k >= v` row whose `r_index` is the last column succeeds. Its artificial 1 is overwritten by the right-hand side v, so the row ends in v. The row is still appended to `r_rows`, and `r_index` moves past the row. |
| Construct.CountColumns | Services/simplex.py:65-78 | The counting loop computes the counts `CountsByRelation` describes. |
| Construct.ReadToken | Services/simplex.py:91-112 | Reading token j classifies it with the token before it, wrapping to the last token at j = 0. |
| Construct.ApplyToken | Services/simplex.py:91-112 | One token's effect on the row and counters, error included. |
| Construct.FillTokens | Services/simplex.py:89-112 | The token loop computes the row and counters as the tokens dictate, or the first error. |
| Construct.FillConstraintRow | Services/simplex.py:87-114 | Filling one constraint row, its right-hand side included. |
| Construct.FillRows | Services/simplex.py:86-114 | The loop over all constraints. |
| Construct.ConstructMatrix | Services/simplex.py:41-116 | `construct_matrix_from_constraints` returns the tableau, `r_rows` and both counters that `Build` specifies, or its error. |
| Pivoting.StopsExactlyWhenOptimal | Services/simplex.py:148-149 | The loop condition is false exactly when the cost row is optimal. For minimising, no positive entry left of the right-hand side. For maximising, no negative entry. |
| Pivoting.KeyRowScanMeans | Services/simplex.py:177-187 | `find_key_row` raises exactly when no constraint row has a positive entry in the column. Otherwise it returns the first row of least ratio rhs/entry among those rows. |
| Pivoting.ChooseMeans | Services/simplex.py:148-155 | The loop stops, fails the ratio test, or pivots on the key row of the entering column. |
| Pivoting.IterateStops | Services/simplex.py:152 | A loop whose condition is false returns the tableau unchanged. |
| Pivoting.IterateFails | Services/simplex.py:148-187 | While the loop condition holds: with no key row, the loop raises the unbounded error, whatever pivot budget is left. With a key row but no pivot left in the budget, it reports `OutOfFuel`. |
| Pivoting.IterateContinues | Services/simplex.py:155-165 | With a key row k, the loop pivots on (k, entering column) and continues. |
| Pivoting.IterateFuelMonotone | Services/simplex.py:152-165 | A run that finished within the allowed pivots gives the same result with more pivots allowed. |
| Pivoting.IterateEndsOptimal | Services/simplex.py:164-165 | A finished loop leaves an optimal cost row. |
| Pivoting.IterateUnboundedWitness | Services/simplex.py:185-186 | The unbounded error is raised only at a tableau the loop reaches whose entering column has no positive constraint entry. |
| Pivoting.PivotKeepsFeasible | Services/simplex.py:155-162 | Pivoting on the key row keeps every right-hand side non-negative. |
| Pivoting.PivotMovesObjective | Services/simplex.py:155-162 | Pivoting on the key row of a positive cost entry never raises the objective value. For a negative cost entry, it never lowers it. |
| Pivoting.StepKeepsSolutions | Services/simplex.py:157-162 | One loop step keeps the solution set of the constraint rows. |
| Pivoting.IterateKeepsSolutions | Services/simplex.py:152-165 | The whole loop keeps the solution set of the constraint rows. |
| Pivoting.IterateKeepsFeasible | Services/simplex.py:152-165 | The whole loop keeps the right-hand sides non-negative. |
| Pivoting.IterateKeepsCanonical | Services/simplex.py:152-165 | The whole loop keeps the basis canonical. |
| Pivoting.IterateMovesObjective | Services/simplex.py:152-165 | When minimising, the loop never raises the objective entry; when maximising, it never lowers it. |
| Phases.AddRowsSums | Services/simplex.py:137-138 | Adding the `r_rows` to the cost row adds, column by column, the sum of those rows' entries. |
| Phases.MarkArtificialMeans | Services/simplex.py:137-140 | The t-th recorded row gets basic column r_index + t. Other rows keep their basic column. |
| Phases.MarkSlackMeans | Services/simplex.py:141-145 | Rows still at 0 are numbered from `count_vars` upwards in row order. Other rows keep their basic column. |
| Phases.Phase1CostRow | Services/simplex.py:133-138 | The phase-1 cost row is -1 in the artificial columns plus the sum of the artificial rows. The constraint rows are untouched. |
| Phases.Phase1Basis | Services/simplex.py:136-145 | Artificial rows get r_index, r_index + 1, and so on. The other rows get slack numbers from `count_vars`, counting the rows still at zero. |
| Phases.DeleteRVarsKeeps | Services/simplex.py:233-238 | `delete_r_vars` keeps the original and slack columns and the right-hand side of every row, and drops the artificial columns. |
| Phases.ObjectiveFromWrites | Services/simplex.py:245-252 | A cost entry that no objective term names keeps its value. Otherwise it holds the last naming term's coefficient. |
| Phases.ObjectiveTerm | Services/simplex.py:248-252 | A term `<c>x_<k>` writes -c into column k-1, or +c when the preceding word is `-`. |
| Phases.ObjectiveCoefficientsWhole | Services/simplex.py:250-252 | Every coefficient that `update_objective_fun` writes is a whole number. |
| Phases.PriceOutFromClears | Services/simplex.py:264-266 | When each basic column is a unit column of its row, the price-out loop succeeds. It then leaves a zero cost in every basic column. |
| Phases.PriceOutMakesCanonical | Services/simplex.py:264-266 | After price-out, the tableau is canonical for its basis, cost row included. |
| Phases.AssignedMeans | Services/simplex.py:287-289 | The first loop of the read-off names exactly the basic original variables. Each takes its last basic row's right-hand side. |
| Phases.ZeroFilledMeans | Services/simplex.py:291-293 | The second loop adds every non-basic original variable with the value 0. |
| Phases.ExtractMeans | Services/simplex.py:286-295 | The solution names exactly the original variables. Non-basic ones are 0, and basic ones take their row's right-hand side. |
| Phases.Phase2Stages | Services/simplex.py:261-283 | Phase 2 writes the objective, prices out and runs the loop, and passes on the first error. |
| Phases.SolveStages | Services/simplex.py:21-39 | `__init__` builds the tableau, runs phase 1, drops the artificial columns and runs phase 2, passing on the first error. |
| Phases.Phase2EndsOptimal | Services/simplex.py:268-283 | A finished phase 2 leaves the loop condition false. |
| Phases.RunEndsOptimal | Services/simplex.py:33-39 | The answer's `val` is the final cost row's right-hand side, and that cost row is optimal for the direction. |
| Phases.SolveNamesEveryVariable | Services/simplex.py:286-295 | The solution names exactly x_1 … x_count_vars, and the non-basic ones are 0. |
| Phases.Phase1StartFeasible | Services/simplex.py:133-145 | Setting up phase 1 keeps the right-hand sides. |
| Phases.DeleteRVarsFeasible | Services/simplex.py:233-238 | Dropping the artificial columns keeps the right-hand sides. |
| Phases.Phase2Feasible | Services/simplex.py:261-283 | Phase 2 keeps non-negative right-hand sides non-negative. |
| Phases.AfterPhase1Feasible | Services/simplex.py:24-31 | Phase 1 and the column deletion keep non-negative right-hand sides non-negative. |
| Phases.RunKeepsFeasible | Services/simplex.py:21-39 | From a tableau with non-negative right-hand sides, every value in the solution is non-negative. |
| Phases.ExtractNonNegative | Services/simplex.py:286-295 | On a feasible tableau, every value read off is non-negative. |
| SimplexSolver.SumRows | Services/simplex.py:372-386 | The loop of `add_row` computes `Rows.AddRow`. |
| SimplexSolver.ScaleRow | Services/simplex.py:405-419 | The loop of `multiply_const_row` computes `Rows.MultiplyConstRow`. |
| SimplexSolver.FindMaxIndex | Services/simplex.py:388-403 | The loop of `max_index` finds the first maximum left of the right-hand side. |
| SimplexSolver.FindMinIndex | Services/simplex.py:421-436 | The loop of `min_index` finds the first minimum of the whole row. |
| SimplexSolver.ReadObjectiveToken | Services/simplex.py:247-252 | Reading one objective word, with its sign taken from the preceding word. |
| SimplexSolver.OverwriteCosts | Services/simplex.py:245-252 | The loop of `update_objective_fun` computes the cost row `UpdateObjective` specifies, or its error. |
| SimplexSolver.Simplex.constructor | Services/simplex.py:17-23 | The object holds the built tableau, `r_rows`, both counters and an all-zero basic-variable list. |
| SimplexSolver.Simplex.FindKeyRow | Services/simplex.py:170-187 | `find_key_row` returns the key row, or the unbounded error when there is none. |
| SimplexSolver.Simplex.NormalizeToPivot | Services/simplex.py:189-197 | Divides the key row by the pivot and changes nothing else. |
| SimplexSolver.Simplex.SubtractKeyRow | Services/simplex.py:209-211 | Subtracts factor times the key row from row i. |
| SimplexSolver.Simplex.MakeKeyColumnZero | Services/simplex.py:199-211 | Clears the key column outside the key row. |
| SimplexSolver.Simplex.EnterBasis | Services/simplex.py:157-162 | One pivot with its basic-variable update is exactly `Pivoting.Step`. |
| SimplexSolver.Simplex.KeyColumn | Services/simplex.py:148 | The entering column for the direction. |
| SimplexSolver.Simplex.PivotOnce | Services/simplex.py:155-165 | One loop iteration leaves the state from which the loop has the same outcome with one pivot fewer, or raises the loop's error. |
| SimplexSolver.Simplex.PivotLoop | Services/simplex.py:148-165 | The pivot loop ends in the tableau `Iterate` specifies, or with its error. |
| SimplexSolver.Simplex.SetArtificialCosts | Services/simplex.py:133-135 | Puts -1 into the artificial cost entries. |
| SimplexSolver.Simplex.AddArtificialRows | Services/simplex.py:136-140 | Adds the artificial rows to the cost row and marks them basic. |
| SimplexSolver.Simplex.AssignSlackVars | Services/simplex.py:141-145 | Numbers the remaining rows' basic variables from `count_vars`. |
| SimplexSolver.Simplex.Phase1 | Services/simplex.py:118-168 | `phase1` ends in the tableau that the pivot loop reaches from `Phase1Start`, or with the loop's error. |
| SimplexSolver.Simplex.RunPhase1 | Services/simplex.py:24-31 | Phase 1 followed by `delete_r_vars` gives the state `AfterPhase1` specifies, or its error. |
| SimplexSolver.Simplex.DeleteRVars | Services/simplex.py:213-238 | Truncates every row to count_vars + num_s_vars + 1 entries as `Phases.DeleteRVars` specifies. |
| SimplexSolver.Simplex.UpdateObjectiveFun | Services/simplex.py:240-252 | Writes the objective into the cost row, or reports its parse or index error. |
| SimplexSolver.Simplex.PriceOutBasis | Services/simplex.py:264-266 | Prices out the basic columns, or reports an index error. |
| SimplexSolver.Simplex.ReadSolution | Services/simplex.py:286-295 | The solution dictionary is `Extract` of the final tableau. |
| SimplexSolver.Simplex.Optimize | Services/simplex.py:255-343 | `objective_minimize` and `objective_maximize` end in the state phase 2 specifies and return its solution, or its error. |
| SimplexSolver.Simplex.Finish | Services/simplex.py:33-39 | Phase 2 and the `val` entry give the answer `Answered` specifies. When phase 2 succeeds, the object is left holding its final tableau and basis, and `val` is the last entry of that tableau's cost row. |
| SimplexSolver.SolveBuilt | Services/simplex.py:23-39 | Running the object on a built tableau gives the answer of the specification, error included. |
| SimplexSolver.Solve | Services/simplex.py:6-39 | `Simplex(...)` yields exactly `Phases.Solve`'s answer or error. |
| Elimination.FirstNonZero | Services/graph.py:42-47 | The swap search finds the first row from i on with a non-zero entry in column i, or reports that none exists. |
| Elimination.Swap | Services/graph.py:44-45 | Exchanging two rows swaps them and leaves the rest unchanged. |
| Elimination.PivotRow | Services/graph.py:41-47 | The row used as pivot row has a non-zero entry in column i, and is row i itself when that entry is already non-zero. |
| Elimination.EliminatedEffect | Services/graph.py:50-58 | After a forward step's division and clearing, the pivot is 1, the entries below it are 0 and the rows above are unchanged. |
| Elimination.EliminatedUpToEnds | Services/graph.py:50-58 | The clearing loop starts after the division and ends with the whole forward step. |
| Elimination.EliminatedUpToStep | Services/graph.py:55-58 | One clearing iteration subtracts A[j, i] times row i exactly when that entry is non-zero. |
| Elimination.BackwardUpToEnds | Services/graph.py:74-76 | The backward loop starts from the system and ends with the whole backward step. |
| Elimination.BackwardUpToStep | Services/graph.py:74-76 | One backward iteration subtracts A[j, i] times row i from row j. |
| Elimination.ExchangedKeepsSolutions | Services/graph.py:44-45 | Swapping rows keeps the solution set. |
| Elimination.EliminatedKeepsSolutions | Services/graph.py:50-58 | Division and clearing keep the solution set. |
| Elimination.ForwardStepKeepsSolutions | Services/graph.py:22-60 | `forward_step` keeps the solution set. |
| Elimination.BackwardStepKeepsSolutions | Services/graph.py:62-76 | `backward_step` keeps the solution set. |
| Elimination.ForwardKeepsSolutions | Services/graph.py:91-92 | The forward pass keeps the solution set. |
| Elimination.BackwardKeepsSolutions | Services/graph.py:93-94 | The backward pass keeps the solution set. |
| Elimination.DoitKeepsSolutions | Services/graph.py:79-95 | `doit` keeps the solution set of A x = rhs. |
| Elimination.ForwardStepExtends | Services/graph.py:22-60 | A forward step extends the unit upper-triangular part by one row and keeps the rows above. |
| Elimination.ForwardUpperUnit | Services/graph.py:91-92 | The forward pass leaves the leading square unit upper-triangular. |
| Elimination.BackwardStepExtends | Services/graph.py:62-76 | A backward step clears one more column above the diagonal. |
| Elimination.BackwardIdentity | Services/graph.py:93-94 | The backward pass leaves the identity on the leading square. |
| Elimination.DoitIdentity | Services/graph.py:79-95 | After `doit`, the leading m × m block of A is the identity. |
| Elimination.DoitSolves | Services/graph.py:79-95 | The returned rhs, padded with zeros for the free columns, solves the original system. |
| Elimination.DoitUnique | Services/graph.py:79-95 | For a square system, x solves it exactly when x is the returned rhs. |
| Elimination.NoNonZeros | Services/graph.py:114-119 | The column count `i` is 0 exactly when the column is zero. |
| Elimination.SingleNonZero | Services/graph.py:114-123 | `i == 1` with `rowflag == r` holds exactly when row r holds the column's only non-zero entry. |
| Elimination.IndexsUpToExact | Services/graph.py:113-123 | (r, c) is collected exactly when column c's only non-zero entry is in row r. |
| Elimination.IndexsUpToColumns | Services/graph.py:113-123 | Every collected pair names a row of the matrix and a scanned column. |
| Elimination.IndexsExact | Services/graph.py:110-123 | `indexs` holds exactly the (row, column) pairs of columns with a single non-zero entry. |
| Elimination.DoitBasisFound | Services/graph.py:79-123 | After `doit`, every leading column is collected with its own row. |
| Substitution.EvalAddTimes | Services/graph.py:148-149 | Adding k times an expression adds k times its value. |
| Substitution.EvalAddConstant | Services/graph.py:153 | Adding a constant adds it to the value. |
| Substitution.SymbolsRepresent | Services/graph.py:175-185 | Symbol x_(k+1) evaluates to the k-th coordinate at every point. |
| Substitution.AccumulatedEval | Services/graph.py:146-149 | After the loop over the row, x and y hold the basic variable plus or minus the weighted sum of the other columns. |
| Substitution.SolvedEval | Services/graph.py:143-155 | At a point satisfying the row, where the current expressions still evaluate to that point, the expression stored for the basic variable equals pivot times that variable. |
| Substitution.BoundEval | Services/graph.py:144-152 | At a point satisfying the row, where the current expressions still evaluate to that point, the constraint's left side equals rhs minus pivot times the variable. |
| Substitution.SolvedStep | Services/graph.py:143-155 | With a unit pivot, replacing the variable by its expression keeps every expression equal to its variable. |
| Substitution.BoundStep | Services/graph.py:152 | With a unit pivot, the appended constraint holds exactly when the basic variable is non-negative. |
| Substitution.SubstituteUpToMeaning | Services/graph.py:142-155 | Suppose every collected pivot is 1 (`UnitPivots`), v solves the system, and the starting expressions evaluate to v. Then after k pairs of `indexs`, the expressions still evaluate to v, and the k constraints say exactly "each basic variable is non-negative". |
| Substitution.SubstituteMeaning | Services/graph.py:139-155 | The same for the whole substitution loop from x_1 … x_n, again only when every collected pivot is 1 and v solves the system. |
| Substitution.CreateNewF | Services/graph.py:162-173 | `create_new_f` raises an index error exactly when f0 has more coefficients than there are variables. |
| Substitution.NewFEval | Services/graph.py:171-172 | After n terms, the objective evaluates to the first n terms of f0 · x. |
| Substitution.CreateNewFMeaning | Services/graph.py:162-173 | The rewritten objective evaluates to f0 · x at every point that the expressions represent. |
| Substitution.PodstanovkaKeepsObjective | Services/graph.py:130-173 | When every collected pivot is 1 (`UnitPivots`), at every solution of the system the objective rewritten through the substituted expressions keeps its value. |
| Gauss.GaussAlgorithm.constructor | Services/graph.py:7-20 | The arrays are fresh copies of the matrix and the right-hand side, and f0 is kept. |
| Gauss.GaussAlgorithm.SwapRows | Services/graph.py:44-45 | Swaps rows i and j of A and rhs in place, giving `Exchanged`. |
| Gauss.GaussAlgorithm.DivideRow | Services/graph.py:50-51 | Divides row i and rhs[i] by the pivot in place, giving `Divided`. |
| Gauss.GaussAlgorithm.SubtractRow | Services/graph.py:57-58 | Subtracts f times row i from row j in place, giving `Subtracted`. |
| Gauss.GaussAlgorithm.ClearBelow | Services/graph.py:55-58 | One iteration of the clearing loop. |
| Gauss.GaussAlgorithm.Eliminate | Services/graph.py:50-58 | Division and clearing in place, giving `Eliminated`. |
| Gauss.GaussAlgorithm.ForwardStep | Services/graph.py:22-60 | `forward_step` leaves the system `Elimination.ForwardStep` computes. |
| Gauss.GaussAlgorithm.BackwardStep | Services/graph.py:62-76 | `backward_step` leaves the system `Elimination.BackwardStep` computes. |
| Gauss.GaussAlgorithm.ForwardAll | Services/graph.py:91-92 | The forward loop of `doit`. |
| Gauss.GaussAlgorithm.BackwardAll | Services/graph.py:93-94 | The backward loop of `doit`. |
| Gauss.GaussAlgorithm.Doit | Services/graph.py:79-95 | `doit` reduces in place, returns the rhs array itself, and that rhs, padded with zeros, solves the original system. |
| Gauss.GaussAlgorithm.ScanColumn | Services/graph.py:114-121 | The inner loop of `check_matrix` counts a column's non-zero entries, its last non-zero row and its entries equal to one. |
| Gauss.GaussAlgorithm.CheckMatrix | Services/graph.py:98-128 | Sets `indexs` to the single-entry columns and returns the `Suitable` verdict. |
| Gauss.GaussAlgorithm.CreateSymbols | Services/graph.py:175-185 | `symbolsList` becomes x_1 … x_n. |
| Gauss.GaussAlgorithm.SubstituteOne | Services/graph.py:143-155 | One pair of `indexs` replaces the variable by its expression and appends its constraint. |
| Gauss.GaussAlgorithm.SubstituteAll | Services/graph.py:142-155 | The substitution loop leaves the expressions and constraints `Substitute` specifies. |
| Gauss.GaussAlgorithm.CreateNewF | Services/graph.py:162-173 | Stores the rewritten objective, or reports an index error when f0 is too long. |
| Gauss.GaussAlgorithm.Podstanovka | Services/graph.py:130-159 | `podstanovka` leaves the substituted expressions, the constraints and the rewritten objective, with `expressions` a copy of the list. When `create_new_f` raises, the index error is reported and the previous objective is kept. |
| Scenarios.DemoFirstStep | Services/graph.py:205-206 | On the demonstration system x_1 + 2x_2 + 5x_3 - x_4 = 4, x_1 - x_2 - x_3 + 2x_4 = 1, the first forward step keeps row 0 and subtracts it from row 1. |
| Scenarios.DemoSecondStep | Services/graph.py:205-206 | The second forward step divides row 1 by its pivot -3. |
| Scenarios.DemoDoit | Services/graph.py:205-206 | `doit` finds both pivots and leaves [[1, 0, 1, 1], [0, 1, 2, -1]] with right-hand side [2, 1]. |
| Scenarios.DemoCheckMatrix | Services/graph.py:207 | `check_matrix` on the reduced system collects (0, 0) and (1, 1) and returns True. |
| Scenarios.DemoSymbols | Services/graph.py:175-185 | `create_symbols` for four columns gives x_1 … x_4. |
| Scenarios.DemoFirstSolved | Services/graph.py:143-155 | Row 0 of the reduced system gives x_1 = 2 - x_3 - x_4. |
| Scenarios.DemoFirstBound | Services/graph.py:144-152 | Row 0 gives the constraint x_3 + x_4 <= 2. |
| Scenarios.DemoSecondSolved | Services/graph.py:143-155 | Row 1 gives x_2 = 1 - 2x_3 + x_4. |
| Scenarios.DemoSecondBound | Services/graph.py:144-152 | Row 1 gives the constraint 2x_3 - x_4 <= 1. |
| Scenarios.DemoSubstitute | Services/graph.py:208 | `podstanovka` on the reduced system leaves x_1 = 2 - x_3 - x_4 and x_2 = 1 - 2x_3 + x_4, with the constraints x_3 + x_4 <= 2 and 2x_3 - x_4 <= 1. |
| Scenarios.DemoCreateNewF | Services/graph.py:162-173 | The objective -2x_1 - x_2 - 3x_3 - x_4 becomes x_3 - 5. |
| Scenarios.DemoRun | Services/graph.py:204-208 | The whole demonstration: `doit`, `check_matrix` returning True, `podstanovka` with its two constraints, and the objective x_3 - 5. |
| Scenarios.ThreeDoit | Services/graph.py:79-95 | `doit` leaves the reduced system x_1 + 3x_3 = 1, x_2 = 1 unchanged. |
| Scenarios.ThreeCheckMatrix | Services/graph.py:110-128 | `check_matrix` collects (0, 0), (1, 1) and (0, 2) and returns True. The pivot at (0, 2) is 3, so `UnitPivots` fails. |
| Scenarios.ThreeSubstitute | Services/graph.py:142-155 | `podstanovka` on that system leaves 3x_3 as the expression for x_3. |
| Scenarios.ThreeSolution | Services/graph.py:79-95 | (-2, 1, 1, 0) solves x_1 + 3x_3 = 1, x_2 = 1. |
| Scenarios.ThreeNotMeaning | Services/graph.py:142-155 | At that solution, the expression stored for x_3 evaluates to 3, not to x_3 = 1. Without unit pivots, `podstanovka` does not express the variables. |
| Scenarios.LaterDoit | Services/graph.py:79-95 | `doit` leaves the reduced system x_1 + 2x_3 + 3x_4 = 2, x_2 = 1 unchanged. |
| Scenarios.LaterCheckMatrix | Services/graph.py:110-128 | `check_matrix` collects (0, 0), (1, 1), (0, 2) and (0, 3) and returns True. The pivots at (0, 2) and (0, 3) are 2 and 3, so `UnitPivots` fails. |
| Scenarios.LaterFirstSolved | Services/graph.py:143-155 | Row 0 solved for x_1 gives x_1 = 2 - 2x_3 - 3x_4. |
| Scenarios.LaterThirdSolved | Services/graph.py:143-155 | Row 0 solved for x_3, while the expressions still stand for the variables, gives 2x_3: the pivot times the variable. |
| Scenarios.LaterFourthSolved | Services/graph.py:143-155 | Row 0 solved for x_4, after x_3 became 2x_3, gives 3x_4 - 2x_3. |
| Scenarios.LaterSubstituteHead | Services/graph.py:139-155 | The first two pairs of `podstanovka` replace x_1 by 2 - 2x_3 - 3x_4 and leave x_3 and x_4 as they were. |
| Scenarios.LaterSubstituteTail | Services/graph.py:139-155 | After all four pairs, x_3 is left as 2x_3 and x_4 as 3x_4 - 2x_3. |
| Scenarios.LaterSubstitute | Services/graph.py:139-155 | `podstanovka` with the pairs `check_matrix` collected leaves 2x_3 for x_3 and 3x_4 - 2x_3 for x_4. |
| Scenarios.LaterSolution | Services/graph.py:79-95 | (0, 1, 1, 0) solves x_1 + 2x_3 + 3x_4 = 2, x_2 = 1. |
| Scenarios.LaterNotMeaning | Services/graph.py:139-155 | At that solution, the expression stored for x_4 evaluates to -2. Both x_4 and the pivot 3 times x_4 are 0 there, so the expression is neither. |
| SimplexExample.FirstChoice | Services/simplex.py:148-187 | In the first phase-2 tableau of the example, maximising picks column 0 (the first most negative cost) and key row 1. |
| SimplexExample.FirstPivot | Services/simplex.py:189-211 | Pivoting on (1, 0) gives cost row [0, -1, 1, 0, 4]. |
| SimplexExample.SecondChoice | Services/simplex.py:148-187 | The loop then picks column 1 and key row 2. |
| SimplexExample.SecondPivot | Services/simplex.py:189-211 | Pivoting on (2, 1) gives cost row [0, 0, 1, 1, 7]. |
| SimplexExample.FinalChoice | Services/simplex.py:148-152 | No negative cost is left, so the loop stops. |
| SimplexExample.MaximizeLoop | Services/simplex.py:148-165 | With fuel for two pivots, the maximising loop ends in the optimal tableau with basis [0, 0, 1]. |
| SimplexExample.ObjectiveRead | Services/simplex.py:245-252 | The words of "1x_1 + 1x_2" read as the coefficients -1 for x_1 and -1 for x_2, with the `+` ignored. |
| SimplexExample.ObjectiveWritten | Services/simplex.py:240-252 | `update_objective_fun` writes the cost row [-1, -1, 0, 0, 0]. |
| SimplexExample.NothingToPriceOut | Services/simplex.py:264-266 | With the slack columns basic, price-out leaves the cost row as it is. |
| SimplexExample.ExamplePhase2 | Services/simplex.py:255-283 | Phase 2 of the example ends in the optimal tableau with right-hand sides 7, 4 and 3. |
| SimplexExample.ExampleAnswer | Services/simplex.py:37-38 | Reading it off gives x_1 = 4, x_2 = 3 and the value 7. |
| SimplexExample.ExamplePhase1 | Services/simplex.py:24-31 | With no artificial row recorded, phase 1 makes the slack columns 2 and 3 basic and stops at once, as no cost is positive. Deleting the two unused artificial columns leaves the tableau phase 2 starts from. |
| SimplexExample.FirstConstraint | Services/simplex.py:65-96 | "1x_1 <= 4" reads as the tokens coefficient 1 for x_1, `<=` and a number, with right-hand side 4. It counts as one slack and one artificial. |
| SimplexExample.SecondConstraint | Services/simplex.py:65-96 | "1x_2 <= 3" reads the same way for x_2, with right-hand side 3. |
| SimplexExample.UpperBoundRow | Services/simplex.py:87-114 | A `1x_k <= v` row sets 1 at column k-1 and at `s_index`, ends with v, and moves only `s_index` on. |
| SimplexExample.ExampleBuild | Services/simplex.py:41-116 | `construct_matrix_from_constraints` builds the 3 × 7 tableau with rows [1, 0, 1, 0, 0, 0, 4] and [0, 1, 0, 1, 0, 0, 3] and an empty `r_rows`. |
| SimplexExample.MaxMaximizes | Services/simplex.py:32-36 | The objective "max" does not hold "min", so the run maximises. |
| SimplexExample.ExampleSolve | Services/simplex.py:6-39 | `Simplex(2, ["1x_1 <= 4", "1x_2 <= 3"], ("max", "1x_1 + 1x_2"))` answers x_1 = 4, x_2 = 3 with value 7. |

## Left out

- Output to the text widget is not modelled: `print_matrix`, the `hod_simplex.insert` messages, `coloumn_pivot` and `check_eq`. They only feed the display.
- `warn` and the `__main__` demonstration of Services/graph.py are left out. That demonstration imports cvxopt and tkinter, which are not part of this model.
- `GaussAlgorithm.recursion` is left out. It only builds a sympy conjunction of the symbols for display.
- Every pivot loop (`Pivoting.Iterate`, `SimplexSolver.Simplex.PivotLoop`, `Phase1`, `Optimize`, `Phases.Solve`) takes a `fuel` bound on the number of pivots. `OutOfFuel` stands for a Python loop that would still be running. As in Python, each pass runs the ratio test before it pivots, so a failed ratio test is reported as the unbounded error whatever fuel is left. Cycling on a degenerate tableau, where Python loops forever, is therefore not distinguished from a slow run.
- `Fraction` is modelled as an exact `real`. Only the literal forms the solver produces are parsed: `[sign]digits[/digits]`. Decimal points, exponents and surrounding white space are left out.
- `PyText.Lower` folds only ASCII letters. The solver only tests it for `min`.
- PyText.IsSpace knows only six characters: space, tab, line feed, vertical tab, form feed and carriage return. Python's `str.split()` treats more characters as white space: the separators U+001C to U+001F, and the Unicode white space such as the no-break space. So `PyText.Words` and the parsers built on it differ from Python on text holding those characters.
- PyText.ParseInt strips no white space. Python's `int()` ignores white space around the number, so `int("\t1")` is 1. So a constraint term such as `1x_\t1` reads as column 1 in Python, while the model reports `InvalidLiteral`. (Splitting on `' '` leaves the tab in the word.)
- `Rows.AddRow` requires the second row to be at least as long as the first. Python raises `IndexError` otherwise. The solver only adds rows of one tableau, which have equal length.
- `SimplexSolver.Simplex.constructor` takes the result of `construct_matrix_from_constraints` as a value, so that the class and the parser can be proved separately. `SimplexSolver.Solve` joins them.
- Phases.Phase1Basis states the artificial numbering only for rows numbered above 0. When count_vars + num_s_vars is 0, the first artificial row gets basic column 0, and the slack numbering then treats it as unassigned. The lemma leaves that row's final number to `MarkSlackMeans`.
- Elimination.ForwardStep and `Gauss.GaussAlgorithm.ForwardStep` require row i and column i to exist and a non-zero entry in column i at or below row i (`HasPivot`). The model leaves out both ways `forward_step` goes when that fails.
  - With no non-zero entry there, sympy divides by zero and goes on with `zoo`/`nan` entries instead of raising. This model does not represent those values.
  - When i is not a column index, because the matrix has more rows than columns, `A[i, i]` at Services/graph.py:41 raises `IndexError`. The model does not return that error.
- Gauss.GaussAlgorithm.Doit and the lemmas about `doit` (`Elimination.DoitKeepsSolutions`, `DoitIdentity`, `DoitSolves`, `DoitUnique`, `DoitBasisFound`) require `HasPivot` at every forward step (`Reducible`). Among other things, this excludes a matrix with more rows than columns, on which `doit` raises `IndexError` at Services/graph.py:41 when row `cols` is reached. `Elimination.Reducible` states this bound.
- Sympy's symbolic expressions are affine coefficient vectors over x_1 … x_n plus a constant. The temporary symbol `f` of `create_new_f` cancels and is not represented. Sympy's automatic evaluation of a relational whose sides are numbers is left out.
- Substitution.SubstituteMeaning requires a unit pivot at each collected (row, column) pair (`UnitPivots`). `podstanovka` does not divide by the pivot. Without unit pivots, the expressions need not evaluate to the point at all.
  - `Substitution.SolvedEval` says the new expression equals pivot × variable only while the expressions built so far still evaluate to the point. That holds up to and including the first non-unit column substituted.
  - Once a non-unit column has been substituted, a later expression can be neither its variable nor pivot × variable. For the system x_1 + 2x_3 + 3x_4 = 2, x_2 = 1, `check_matrix` collects (0, 2) and (0, 3) with pivots 2 and 3 (`Scenarios.LaterCheckMatrix`). At the solution (0, 1, 1, 0), the expression left for x_4 is 3x_4 - 2x_3 and evaluates to -2, while x_4 and 3x_4 are both 0 (`Scenarios.LaterNotMeaning`).
  - `doit` makes the pivots of the leading columns 1 (`Elimination.DoitBasisFound`).
  - `check_matrix` also collects any later column with a single non-zero entry, whatever that entry is. So after `doit` a collected pivot can differ from 1.
  - For the system x_1 + 3x_3 = 1, x_2 = 1, `check_matrix` collects (0, 2) with pivot 3 (`Scenarios.ThreeCheckMatrix`). At the solution (-2, 1, 1, 0), the expression stored for x_3 evaluates to 3, not to x_3 = 1 (`Scenarios.ThreeNotMeaning`).
- Substitution.SubstituteUpToMeaning requires `UnitPivots` on the whole `indexs` list, for the same reason. It also requires a solution of the system and starting expressions that represent it. So it says nothing about a run in which `check_matrix` collected a pivot other than 1.
- Substitution.PodstanovkaKeepsObjective requires `UnitPivots` and a solution of the system. With a pivot other than 1, the rewritten objective need not keep its value, and the lemma does not cover that case.
- `Gauss.GaussAlgorithm.CreateNewF` keeps the rewritten objective in `newF` instead of writing it back over `f0`. In Python, a second call would iterate over a sympy expression and raise `TypeError`. The model recomputes instead.
- Sympy `Matrix.copy()` and the aliasing of `A, rhs = self.A, self.rhs` are modelled as the object owning its two arrays.
- The commented-out basis check in `Simplex.__init__` has no effect and is not modelled.

