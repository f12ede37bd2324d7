/** The pivoting loop shared by phase 1, `objective_minimize` and
    `objective_maximize`: choose the entering column from the cost row,
    choose the key row by the ratio test of `find_key_row`, pivot, and stop
    when the cost row no longer improves. */
module Pivoting {
  import opened Outcomes
  import opened Rows

  /** A tableau together with its list of basic columns (`basic_vars`). */
  datatype Tableau = Tableau(matrix: Matrix, basic: seq<nat>)

  /** Phase 1 and `objective_minimize` look for a positive cost entry with
      `max_index`; `objective_maximize` looks for a negative one with
      `min_index`. */
  datatype Direction = Minimize | Maximize

  /** A tableau the loop can work on: rectangular, one basic entry per row. */
  predicate WellFormed(t: Tableau)
  {
    Rectangular(t.matrix) && |t.basic| == |t.matrix|
  }

  /** The entering column. */
  function EnteringColumn(row0: Row, d: Direction): (c: nat)
    requires |row0| >= 1
    ensures c < |row0|
  {
    if d == Minimize then MaxIndex(row0) else MinIndex(row0)
  }

  /** The loop condition: the cost entry at the entering column is positive
      (minimizing) or negative (maximizing). */
  predicate Improving(row0: Row, c: nat, d: Direction)
    requires c < |row0|
  {
    if d == Minimize then row0[c] > 0.0 else row0[c] < 0.0
  }

  /** The cost row is optimal for the direction: no positive entry left of
      the right-hand side when minimizing, no negative entry at all (the
      right-hand side included) when maximizing. */
  predicate Optimal(row0: Row, d: Direction)
  {
    if d == Minimize then forall j :: 0 <= j < |row0| - 1 ==> row0[j] <= 0.0
    else forall j :: 0 <= j < |row0| ==> row0[j] >= 0.0
  }

  /** The loop stops exactly when the cost row is optimal (for a row with at
      least one column besides the right-hand side). */
  lemma StopsExactlyWhenOptimal(row0: Row, d: Direction)
    requires |row0| >= 2
    ensures !Improving(row0, EnteringColumn(row0, d), d) <==> Optimal(row0, d)
  {
    if d == Minimize {
      MaxIndexIsFirstMax(row0);
    } else {
      MinIndexIsFirstMin(row0);
    }
  }

  // ---------------------------------------------------------------------
  // `find_key_row`

  /** The ratio of row i's right-hand side to its entry in column c. */
  function Ratio(M: Matrix, i: nat, c: nat): real
    requires Rectangular(M) && i < |M| && c < |M[0]| && M[i][c] != 0.0
  {
    M[i][|M[0]| - 1] / M[i][c]
  }

  /** Row k is the key row among rows 1 .. n-1 for column c: its entry is
      positive, its ratio is the least among the rows with a positive entry,
      and every earlier such row has a strictly larger ratio. */
  predicate IsKeyRow(M: Matrix, c: nat, n: nat, k: nat)
    requires Rectangular(M) && c < |M[0]| && n <= |M|
  {
    && 1 <= k < n && M[k][c] > 0.0
    && (forall i :: 1 <= i < n && M[i][c] > 0.0 ==> Ratio(M, k, c) <= Ratio(M, i, c))
    && (forall i :: 1 <= i < k && M[i][c] > 0.0 ==> Ratio(M, k, c) < Ratio(M, i, c))
  }

  /** The row `find_key_row` holds after scanning rows 1 .. n-1: none while
      no row had a positive entry, and a new row only on a strictly smaller
      ratio. */
  function KeyRowScan(M: Matrix, c: nat, n: nat): (r: Option<nat>)
    requires Rectangular(M) && c < |M[0]| && n <= |M|
    ensures r.Some? ==> 1 <= r.value < n && M[r.value][c] > 0.0
  {
    if n <= 1 then None
    else
      var p := KeyRowScan(M, c, n - 1);
      var i := n - 1;
      if M[i][c] > 0.0 && (p.None? || Ratio(M, i, c) < Ratio(M, p.value, c)) then Some(i)
      else p
  }

  /** The scan finds nothing exactly when no row has a positive entry, and
      otherwise finds the key row. */
  lemma {:induction false} KeyRowScanMeans(M: Matrix, c: nat, n: nat)
    requires Rectangular(M) && c < |M[0]| && n <= |M|
    ensures var r := KeyRowScan(M, c, n);
      && (r.None? <==> forall i :: 1 <= i < n ==> M[i][c] <= 0.0)
      && (r.Some? ==> IsKeyRow(M, c, n, r.value))
  {
    if n > 1 {
      KeyRowScanMeans(M, c, n - 1);
    }
  }

  /** `find_key_row(c)`: the key row over all constraint rows; `None` is the
      "unbounded" error. */
  function KeyRow(M: Matrix, c: nat): Option<nat>
    requires Rectangular(M) && c < |M[0]|
  {
    KeyRowScan(M, c, |M|)
  }

  /** The key row is determined by its defining property. */
  lemma KeyRowUnique(M: Matrix, c: nat, n: nat, k1: nat, k2: nat)
    requires Rectangular(M) && c < |M[0]| && n <= |M|
    requires IsKeyRow(M, c, n, k1) && IsKeyRow(M, c, n, k2)
    ensures k1 == k2
  {
  }

  // ---------------------------------------------------------------------
  // One pivot and the loop

  /** One step of the loop: column c enters the basis at row k. */
  function Step(t: Tableau, k: nat, c: nat): (r: Tableau)
    requires WellFormed(t) && 1 <= k < |t.matrix| && c < |t.matrix[0]| && t.matrix[k][c] != 0.0
    ensures WellFormed(r) && |r.matrix| == |t.matrix| && |r.matrix[0]| == |t.matrix[0]|
  {
    Tableau(Pivot(t.matrix, k, c), t.basic[k := c])
  }

  /** What the loop does at a tableau: stop (the condition is false), fail
      the ratio test, or pivot on (k, c). */
  datatype Move = Stop | NoKeyRow | Enter(k: nat, c: nat)

  /** One evaluation of the loop condition and, when it holds, of
      `find_key_row`. */
  function Choose(t: Tableau, d: Direction): (m: Move)
    requires WellFormed(t)
    ensures m.Enter? ==> 1 <= m.k < |t.matrix| && m.c < |t.matrix[0]| && t.matrix[m.k][m.c] > 0.0
  {
    var c := EnteringColumn(t.matrix[0], d);
    if !Improving(t.matrix[0], c, d) then Stop
    else
      match KeyRow(t.matrix, c)
      case None => NoKeyRow
      case Some(k) => Enter(k, c)
  }

  /** The loop `while condition: find_key_row; pivot`, given at most `fuel`
      pivots: the ratio test fails with `Unbounded` whatever the fuel, and
      a pivot needed beyond the budget is `OutOfFuel`. */
  function Iterate(t: Tableau, d: Direction, fuel: nat): (r: Result<Tableau>)
    requires WellFormed(t)
    ensures r.Ok? ==> WellFormed(r.value) && |r.value.matrix| == |t.matrix| && |r.value.matrix[0]| == |t.matrix[0]|
    decreases fuel, 1
  {
    match Choose(t, d)
    case Stop => Ok(t)
    case NoKeyRow => Err(Unbounded)
    case Enter(k, c) => if fuel == 0 then Err(OutOfFuel) else Pivoted(t, k, c, d, fuel)
  }

  /** The rest of the run once the loop pivots t on (k, c), spending one
      unit of fuel. */
  function Pivoted(t: Tableau, k: nat, c: nat, d: Direction, fuel: nat): (r: Result<Tableau>)
    requires WellFormed(t) && 1 <= k < |t.matrix| && c < |t.matrix[0]| && t.matrix[k][c] != 0.0 && fuel > 0
    ensures r.Ok? ==> WellFormed(r.value) && |r.value.matrix| == |t.matrix| && |r.value.matrix[0]| == |t.matrix[0]|
    decreases fuel, 0
  {
    Iterate(Step(t, k, c), d, fuel - 1)
  }

  /** Where the loop condition fails, the run ends at t. */
  lemma IterateStops(t: Tableau, d: Direction, fuel: nat)
    requires WellFormed(t) && !Improving(t.matrix[0], EnteringColumn(t.matrix[0], d), d)
    ensures Iterate(t, d, fuel) == Ok(t)
  {
  }

  /** Where the loop condition holds, the run fails the ratio test when the
      entering column has no key row, and otherwise runs out of fuel when
      none is left for the pivot. */
  lemma IterateFails(t: Tableau, d: Direction, fuel: nat)
    requires WellFormed(t) && Improving(t.matrix[0], EnteringColumn(t.matrix[0], d), d)
    ensures KeyRow(t.matrix, EnteringColumn(t.matrix[0], d)).None? ==> Iterate(t, d, fuel) == Err(Unbounded)
    ensures KeyRow(t.matrix, EnteringColumn(t.matrix[0], d)).Some? && fuel == 0 ==> Iterate(t, d, fuel) == Err(OutOfFuel)
  {
  }

  /** Where the loop condition holds and column c has a key row k, the run
      goes on from the tableau pivoted on (k, c), one unit of fuel less. */
  lemma IterateContinues(t: Tableau, d: Direction, fuel: nat, k: nat)
    requires WellFormed(t) && fuel > 0
    requires Improving(t.matrix[0], EnteringColumn(t.matrix[0], d), d)
    requires KeyRow(t.matrix, EnteringColumn(t.matrix[0], d)) == Some(k)
    ensures 1 <= k < |t.matrix|
    ensures Iterate(t, d, fuel) == Iterate(Step(t, k, EnteringColumn(t.matrix[0], d)), d, fuel - 1)
  {
  }

  /** The loop stops where the condition fails, and fails the ratio test
      exactly where the entering column has no positive entry below the
      cost row. */
  lemma ChooseMeans(t: Tableau, d: Direction)
    requires WellFormed(t)
    ensures var c := EnteringColumn(t.matrix[0], d);
      && (Choose(t, d) == Stop <==> !Improving(t.matrix[0], c, d))
      && (Choose(t, d) == NoKeyRow <==>
            Improving(t.matrix[0], c, d) && forall i :: 1 <= i < |t.matrix| ==> t.matrix[i][c] <= 0.0)
      && (Choose(t, d).Enter? ==> Choose(t, d).c == c && IsKeyRow(t.matrix, c, |t.matrix|, Choose(t, d).k))
  {
    KeyRowScanMeans(t.matrix, EnteringColumn(t.matrix[0], d), |t.matrix|);
  }

  /** More fuel changes nothing once a run has finished without running
      out: the fuel bound only cuts off loops that do not end. */
  lemma {:induction false} IterateFuelMonotone(t: Tableau, d: Direction, fuel: nat, more: nat)
    requires WellFormed(t) && Iterate(t, d, fuel) != Err(OutOfFuel)
    requires fuel <= more
    ensures Iterate(t, d, more) == Iterate(t, d, fuel)
    decreases fuel
  {
    match Choose(t, d)
    case Stop =>
    case NoKeyRow =>
    case Enter(k, c) =>
      IterateFuelMonotone(Step(t, k, c), d, fuel - 1, more - 1);
  }

  /** A finished run leaves a tableau of the same shape whose cost row is
      optimal for the direction. */
  lemma {:induction false} IterateEndsOptimal(t: Tableau, d: Direction, fuel: nat)
    requires WellFormed(t) && Iterate(t, d, fuel).Ok?
    ensures var r := Iterate(t, d, fuel).value;
      && !Improving(r.matrix[0], EnteringColumn(r.matrix[0], d), d)
      && (|r.matrix[0]| >= 2 ==> Optimal(r.matrix[0], d))
    decreases fuel
  {
    match Choose(t, d)
    case Stop =>
      ChooseMeans(t, d);
      if |t.matrix[0]| >= 2 {
        StopsExactlyWhenOptimal(t.matrix[0], d);
      }
    case Enter(k, c) =>
      IterateEndsOptimal(Step(t, k, c), d, fuel - 1);
  }

  /** Tableau s is met by the loop started at t within `fuel` pivots. */
  predicate Reaches(t: Tableau, d: Direction, fuel: nat, s: Tableau)
    requires WellFormed(t)
    decreases fuel
  {
    s == t
    || (fuel > 0 && Choose(t, d).Enter?
        && Reaches(Step(t, Choose(t, d).k, Choose(t, d).c), d, fuel - 1, s))
  }

  /** `Unbounded` is reported only at a tableau the loop reaches whose
      entering column has no positive entry in any constraint row. */
  lemma {:induction false} IterateUnboundedWitness(t: Tableau, d: Direction, fuel: nat)
    requires WellFormed(t) && Iterate(t, d, fuel) == Err(Unbounded)
    ensures exists s :: WellFormed(s) && Reaches(t, d, fuel, s) && Choose(s, d) == NoKeyRow
    decreases fuel
  {
    match Choose(t, d)
    case NoKeyRow =>
      assert Reaches(t, d, fuel, t);
    case Enter(k, c) =>
      var n := Step(t, k, c);
      IterateUnboundedWitness(n, d, fuel - 1);
      var s :| WellFormed(s) && Reaches(n, d, fuel - 1, s) && Choose(s, d) == NoKeyRow;
      assert Reaches(t, d, fuel, s);
  }

  // ---------------------------------------------------------------------
  // What a pivot on the key row keeps

  /** Every constraint row has a non-negative right-hand side. */
  predicate Feasible(M: Matrix)
    requires Rectangular(M)
  {
    forall i :: 1 <= i < |M| ==> M[i][|M[0]| - 1] >= 0.0
  }

  /** The last column after a pivot on (k, c): row k holds its ratio,
      every other row loses its entry at c times that ratio. */
  lemma PivotLastColumn(M: Matrix, k: nat, c: nat)
    requires Rectangular(M) && k < |M| && c < |M[0]| && M[k][c] != 0.0
    ensures var R := Pivot(M, k, c); var last := |M[0]| - 1;
      && R[k][last] == Ratio(M, k, c)
      && forall i :: 0 <= i < |M| && i != k ==> R[i][last] == M[i][last] - M[i][c] * Ratio(M, k, c)
  {
    var N := Normalized(M, k, M[k][c]);
    assert N[k][|M[0]| - 1] == Ratio(M, k, c);
  }

  /** The ratio test keeps a feasible tableau feasible. */
  lemma PivotKeepsFeasible(M: Matrix, c: nat, k: nat)
    requires Rectangular(M) && c < |M[0]| && IsKeyRow(M, c, |M|, k) && Feasible(M)
    ensures Rectangular(Pivot(M, k, c)) && Feasible(Pivot(M, k, c))
  {
    PivotLastColumn(M, k, c);
    var R := Pivot(M, k, c);
    var last := |M[0]| - 1;
    var theta := Ratio(M, k, c);
    RatioNonNegative(M[k][last], M[k][c]);
    forall i | 1 <= i < |M| ensures R[i][last] >= 0.0 {
      if i != k {
        if M[i][c] > 0.0 {
          assert theta <= Ratio(M, i, c);
        }
        StaysNonNegative(M[i][last], M[i][c], theta);
      }
    }
  }

  lemma RatioNonNegative(b: real, p: real)
    requires b >= 0.0 && p > 0.0
    ensures b / p >= 0.0
  {
  }

  /** A non-negative entry stays non-negative when it loses q times a
      non-negative ratio that is at most its own ratio wherever q is
      positive. */
  lemma StaysNonNegative(b: real, q: real, theta: real)
    requires b >= 0.0 && theta >= 0.0 && (q > 0.0 ==> theta <= b / q)
    ensures b - q * theta >= 0.0
  {
    if q > 0.0 {
      RatioBound(b, q, theta);
    } else {
      assert q * theta <= 0.0;
    }
  }

  lemma RatioBound(b: real, q: real, theta: real)
    requires q > 0.0 && theta <= b / q
    ensures q * theta <= b
  {
    assert q * theta <= q * (b / q);
  }

  /** On a feasible tableau a pivot on the key row moves the last entry of
      the cost row down when the entering entry is positive and up when it
      is negative. */
  lemma PivotMovesObjective(M: Matrix, c: nat, k: nat)
    requires Rectangular(M) && c < |M[0]| && IsKeyRow(M, c, |M|, k) && Feasible(M)
    ensures var R := Pivot(M, k, c); var last := |M[0]| - 1;
      && |R| == |M| && |R[0]| == |M[0]|
      && (M[0][c] > 0.0 ==> R[0][last] <= M[0][last])
      && (M[0][c] < 0.0 ==> R[0][last] >= M[0][last])
  {
    PivotEffect(M, k, c);
    var R := Pivot(M, k, c);
    var last := |M[0]| - 1;
    var theta := R[k][last];
    assert theta * M[k][c] == M[k][last];
    assert theta >= 0.0;
    if k != 0 {
      assert R[0][last] == M[0][last] - M[0][c] * theta;
    }
  }

  /** The step the loop takes keeps a feasible tableau feasible. */
  lemma StepKeepsFeasible(t: Tableau, d: Direction)
    requires WellFormed(t) && Choose(t, d).Enter? && Feasible(t.matrix)
    ensures Feasible(Step(t, Choose(t, d).k, Choose(t, d).c).matrix)
  {
    ChooseMeans(t, d);
    PivotKeepsFeasible(t.matrix, Choose(t, d).c, Choose(t, d).k);
  }

  /** The step the loop takes on a feasible tableau lowers the last entry of
      the cost row when minimizing and raises it when maximizing. */
  lemma StepMovesObjective(t: Tableau, d: Direction)
    requires WellFormed(t) && Choose(t, d).Enter? && Feasible(t.matrix)
    ensures var last := |t.matrix[0]| - 1;
      var r := Step(t, Choose(t, d).k, Choose(t, d).c);
      && (d == Minimize ==> r.matrix[0][last] <= t.matrix[0][last])
      && (d == Maximize ==> r.matrix[0][last] >= t.matrix[0][last])
  {
    ChooseMeans(t, d);
    PivotMovesObjective(t.matrix, Choose(t, d).c, Choose(t, d).k);
  }

  /** The step the loop takes keeps the solutions of the constraint rows. */
  lemma StepKeepsSolutions(t: Tableau, d: Direction, x: Row)
    requires WellFormed(t) && Choose(t, d).Enter? && |t.matrix[0]| == |x| + 1
    ensures var r := Step(t, Choose(t, d).k, Choose(t, d).c);
      RowsHold(r.matrix, 1, x) <==> RowsHold(t.matrix, 1, x)
  {
    PivotKeepsSolutions(t.matrix, Choose(t, d).k, Choose(t, d).c, x);
  }

  /** The step the loop takes keeps a canonical basis canonical. */
  lemma StepKeepsCanonical(t: Tableau, d: Direction)
    requires WellFormed(t) && Choose(t, d).Enter? && Canonical(t.matrix, t.basic)
    ensures var r := Step(t, Choose(t, d).k, Choose(t, d).c);
      Canonical(r.matrix, r.basic)
  {
    PivotKeepsCanonical(t.matrix, t.basic, Choose(t, d).k, Choose(t, d).c);
  }

  /** A run that finishes after the loop pivots spent one unit of fuel on
      that pivot and finished from the tableau it left. */
  lemma IterateEnters(t: Tableau, d: Direction, fuel: nat)
    requires WellFormed(t) && Choose(t, d).Enter? && Iterate(t, d, fuel).Ok?
    ensures fuel > 0
    ensures Iterate(t, d, fuel) == Iterate(Step(t, Choose(t, d).k, Choose(t, d).c), d, fuel - 1)
  {
  }

  /** A finished run keeps the solutions of the constraint rows: the same
      points satisfy them before and after. */
  lemma {:induction false} IterateKeepsSolutions(t: Tableau, d: Direction, fuel: nat, x: Row)
    requires WellFormed(t) && Iterate(t, d, fuel).Ok? && |t.matrix[0]| == |x| + 1
    ensures RowsHold(Iterate(t, d, fuel).value.matrix, 1, x) <==> RowsHold(t.matrix, 1, x)
    decreases fuel
  {
    match Choose(t, d)
    case Stop =>
    case Enter(k, c) =>
      IterateEnters(t, d, fuel);
      var next := Step(t, k, c);
      IterateKeepsSolutions(next, d, fuel - 1, x);
      StepKeepsSolutions(t, d, x);
  }

  /** A finished run started from a feasible tableau ends at a feasible
      one. */
  lemma {:induction false} IterateKeepsFeasible(t: Tableau, d: Direction, fuel: nat)
    requires WellFormed(t) && Iterate(t, d, fuel).Ok? && Feasible(t.matrix)
    ensures Feasible(Iterate(t, d, fuel).value.matrix)
    decreases fuel
  {
    match Choose(t, d)
    case Stop =>
    case Enter(k, c) =>
      IterateEnters(t, d, fuel);
      var next := Step(t, k, c);
      StepKeepsFeasible(t, d);
      IterateKeepsFeasible(next, d, fuel - 1);
  }

  /** Started from a canonical basis, a finished run ends at a canonical
      basis. */
  lemma {:induction false} IterateKeepsCanonical(t: Tableau, d: Direction, fuel: nat)
    requires WellFormed(t) && Iterate(t, d, fuel).Ok? && Canonical(t.matrix, t.basic)
    ensures var r := Iterate(t, d, fuel).value;
      Canonical(r.matrix, r.basic)
    decreases fuel
  {
    match Choose(t, d)
    case Stop =>
    case Enter(k, c) =>
      IterateEnters(t, d, fuel);
      var next := Step(t, k, c);
      StepKeepsCanonical(t, d);
      IterateKeepsCanonical(next, d, fuel - 1);
  }

  /** Started from a feasible tableau, a finished minimizing run does not
      raise the last entry of the cost row and a finished maximizing run
      does not lower it. */
  lemma {:induction false} IterateMovesObjective(t: Tableau, d: Direction, fuel: nat)
    requires WellFormed(t) && Iterate(t, d, fuel).Ok? && Feasible(t.matrix)
    ensures var r := Iterate(t, d, fuel).value; var last := |t.matrix[0]| - 1;
      && (d == Minimize ==> r.matrix[0][last] <= t.matrix[0][last])
      && (d == Maximize ==> r.matrix[0][last] >= t.matrix[0][last])
    decreases fuel
  {
    match Choose(t, d)
    case Stop =>
    case Enter(k, c) =>
      IterateEnters(t, d, fuel);
      var next := Step(t, k, c);
      StepKeepsFeasible(t, d);
      IterateMovesObjective(next, d, fuel - 1);
      StepMovesObjective(t, d);
  }
}
