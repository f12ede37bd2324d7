/** Rows of exact rationals and the row arithmetic both engines are made of:
    the module helpers of the simplex solver (`add_row`, `multiply_const_row`,
    `max_index`, `min_index`), the two halves of a pivot, the truncation that
    drops artificial columns, and the fact that row operations keep the
    solutions of the rows they act on. */
module Rows {

  type Row = seq<real>
  type Matrix = seq<Row>

  /** At least one row, every row of the same non-zero length. */
  predicate Rectangular(M: Matrix)
  {
    |M| >= 1 && |M[0]| >= 1 && forall i :: 0 <= i < |M| ==> |M[i]| == |M[0]|
  }

  // ---------------------------------------------------------------------
  // Module helpers of the simplex solver

  /** `add_row(row1, row2)`: a new list of the element-wise sums. */
  function AddRow(a: Row, b: Row): (r: Row)
    requires |a| <= |b|
    ensures |r| == |a|
    ensures forall j :: 0 <= j < |a| ==> r[j] == a[j] + b[j]
  {
    seq(|a|, j requires 0 <= j < |a| => a[j] + b[j])
  }

  /** `multiply_const_row(const, row)`. */
  function MultiplyConstRow(c: real, row: Row): (r: Row)
    ensures |r| == |row|
    ensures forall j :: 0 <= j < |row| ==> r[j] == c * row[j]
  {
    seq(|row|, j requires 0 <= j < |row| => c * row[j])
  }

  /** Adding `-row0[col]` times a row whose entry at `col` is 1 clears that
      entry of row 0: the price-out step of the second phase. */
  lemma PriceOutClears(row0: Row, basicRow: Row, col: nat)
    requires |row0| <= |basicRow| && col < |row0|
    requires basicRow[col] == 1.0
    ensures AddRow(row0, MultiplyConstRow(-row0[col], basicRow))[col] == 0.0
  {
  }

  /** The index `max_index` reaches after scanning positions 0 .. n-1. */
  function MaxPrefix(row: Row, n: nat): (r: nat)
    requires n < |row|
    ensures n == 0 ==> r == 0
    ensures n > 0 ==> r < n
  {
    if n == 0 then 0
    else
      var m := MaxPrefix(row, n - 1);
      if row[n - 1] > row[m] then n - 1 else m
  }

  /** The scan keeps the first position holding the largest value seen. */
  lemma {:induction false} MaxPrefixIsFirstMax(row: Row, n: nat)
    requires n < |row|
    ensures var r := MaxPrefix(row, n);
      && (forall i :: 0 <= i < n ==> row[i] <= row[r])
      && (forall i :: 0 <= i < r ==> row[i] < row[r])
  {
    if n > 0 {
      MaxPrefixIsFirstMax(row, n - 1);
    }
  }

  /** `max_index(row)`: 0 for a row of length 0 or 1, otherwise a position
      left of the last one (the right-hand side). */
  function MaxIndex(row: Row): (r: nat)
    ensures |row| <= 1 ==> r == 0
    ensures |row| >= 2 ==> r <= |row| - 2
  {
    if |row| == 0 then 0 else MaxPrefix(row, |row| - 1)
  }

  /** `max_index` picks the lowest index holding the largest value among all
      positions but the last. */
  lemma MaxIndexIsFirstMax(row: Row)
    ensures var r := MaxIndex(row);
      && (forall i :: 0 <= i < |row| - 1 ==> row[i] <= row[r])
      && (forall i :: 0 <= i < r ==> row[i] < row[r])
  {
    if |row| > 0 {
      MaxPrefixIsFirstMax(row, |row| - 1);
    }
  }

  /** The index `min_index` reaches after scanning positions 0 .. n-1. */
  function MinPrefix(row: Row, n: nat): (r: nat)
    requires n <= |row|
    ensures n <= 1 ==> r == 0
    ensures n > 0 ==> r < n
  {
    if n == 0 then 0
    else
      var m := MinPrefix(row, n - 1);
      if row[m] > row[n - 1] then n - 1 else m
  }

  /** The scan keeps the first position holding the smallest value seen. */
  lemma {:induction false} MinPrefixIsFirstMin(row: Row, n: nat)
    requires 0 < n <= |row|
    ensures var r := MinPrefix(row, n);
      && (forall i :: 0 <= i < n ==> row[r] <= row[i])
      && (forall i :: 0 <= i < r ==> row[r] < row[i])
  {
    if n > 1 {
      MinPrefixIsFirstMin(row, n - 1);
    }
  }

  /** `min_index(row)`: 0 for an empty row, otherwise a position of the row,
      the right-hand side included. */
  function MinIndex(row: Row): (r: nat)
    ensures |row| == 0 ==> r == 0
    ensures |row| > 0 ==> r < |row|
  {
    MinPrefix(row, |row|)
  }

  /** `min_index` picks the lowest index holding the smallest value among ALL
      positions. */
  lemma MinIndexIsFirstMin(row: Row)
    requires |row| > 0
    ensures var r := MinIndex(row);
      && (forall i :: 0 <= i < |row| ==> row[r] <= row[i])
      && (forall i :: 0 <= i < r ==> row[r] < row[i])
  {
    MinPrefixIsFirstMin(row, |row|);
  }

  // ---------------------------------------------------------------------
  // The pivot: `normalize_to_pivot` followed by `make_key_column_zero`

  /** The row divided element-wise by `p`. */
  function DivRow(row: Row, p: real): (r: Row)
    requires p != 0.0
    ensures |r| == |row|
    ensures forall j :: 0 <= j < |r| ==> r[j] == row[j] / p
  {
    seq(|row|, j requires 0 <= j < |row| => row[j] / p)
  }

  /** `a[j] - key[j] * factor` for every j. */
  function SubScaled(a: Row, key: Row, factor: real): (r: Row)
    requires |a| <= |key|
    ensures |r| == |a|
    ensures forall j :: 0 <= j < |a| ==> r[j] == a[j] - key[j] * factor
  {
    seq(|a|, j requires 0 <= j < |a| => a[j] - key[j] * factor)
  }

  /** What `normalize_to_pivot(k, p)` leaves: row k divided by p. */
  function Normalized(M: Matrix, k: nat, p: real): (R: Matrix)
    requires k < |M| && p != 0.0
    ensures |R| == |M|
  {
    M[k := DivRow(M[k], p)]
  }

  /** What `make_key_column_zero(c, k)` leaves: every row but k loses its
      entry at c times row k. */
  function ColumnCleared(M: Matrix, c: nat, k: nat): (R: Matrix)
    requires Rectangular(M) && k < |M| && c < |M[0]|
    ensures |R| == |M|
  {
    seq(|M|, i requires 0 <= i < |M| => if i == k then M[i] else SubScaled(M[i], M[k], M[i][c]))
  }

  /** The pivot on entry (k, c). */
  function Pivot(M: Matrix, k: nat, c: nat): (R: Matrix)
    requires Rectangular(M) && k < |M| && c < |M[0]| && M[k][c] != 0.0
    ensures |R| == |M| && Rectangular(R) && |R[0]| == |M[0]|
  {
    ColumnCleared(Normalized(M, k, M[k][c]), c, k)
  }

  /** A pivot on a non-zero entry divides the key row by the pivot, takes
      from every other row its old entry at c times the new key row, turns
      column c into the unit vector of row k and keeps every length. */
  lemma PivotEffect(M: Matrix, k: nat, c: nat)
    requires Rectangular(M) && k < |M| && c < |M[0]| && M[k][c] != 0.0
    ensures var R := Pivot(M, k, c);
      && |R| == |M| && Rectangular(R) && |R[0]| == |M[0]|
      && (forall j :: 0 <= j < |M[0]| ==> R[k][j] * M[k][c] == M[k][j])
      && (forall i, j :: 0 <= i < |M| && i != k && 0 <= j < |M[0]| ==> R[i][j] == M[i][j] - M[i][c] * R[k][j])
      && (forall i :: 0 <= i < |M| ==> R[i][c] == if i == k then 1.0 else 0.0)
  {
    var p := M[k][c];
    var N := Normalized(M, k, p);
    assert N[k][c] == 1.0 by {
      assert N[k][c] * p == p;
    }
  }

  /** Column `col` is the unit vector of row `r`. */
  predicate UnitColumn(M: Matrix, col: nat, r: nat)
    requires Rectangular(M)
  {
    col < |M[0]| && forall i :: 0 <= i < |M| ==> M[i][col] == if i == r then 1.0 else 0.0
  }

  /** Every constraint row i has its basic column `basic[i]` as a unit vector
      (the basis is canonical). */
  predicate Canonical(M: Matrix, basic: seq<nat>)
    requires Rectangular(M)
  {
    |basic| == |M| && forall i {:trigger basic[i]} :: 1 <= i < |M| ==> UnitColumn(M, basic[i], i)
  }

  /** A pivot on (k, c) keeps a canonical basis canonical once column c
      replaces row k's basic column. */
  lemma {:induction false} PivotKeepsCanonical(M: Matrix, basic: seq<nat>, k: nat, c: nat)
    requires Rectangular(M) && 1 <= k < |M| && c < |M[0]| && M[k][c] != 0.0
    requires Canonical(M, basic)
    ensures Rectangular(Pivot(M, k, c)) && Canonical(Pivot(M, k, c), basic[k := c])
  {
    PivotEffect(M, k, c);
    var R := Pivot(M, k, c);
    var p := M[k][c];
    var nb := basic[k := c];
    forall i | 1 <= i < |M|
      ensures UnitColumn(R, nb[i], i)
    {
      if i != k {
        var b := basic[i];
        assert UnitColumn(M, b, i);
        assert M[k][b] == 0.0;
        assert R[k][b] == 0.0 by {
          assert R[k][b] * p == 0.0;
        }
        forall r | 0 <= r < |M|
          ensures R[r][b] == if r == i then 1.0 else 0.0
        {
          if r != k {
            assert R[r][b] == M[r][b] - M[r][c] * R[k][b];
          }
        }
      }
    }
  }

  // ---------------------------------------------------------------------
  // `delete_r_vars` on one row

  /** The row cut down to `width` entries by deleting position width-1 until
      the length is right: its first width-1 entries, then its old last one. */
  function Truncated(row: Row, width: nat): (r: Row)
    requires 1 <= width <= |row|
    ensures |r| == width
  {
    row[..width - 1] + [row[|row| - 1]]
  }

  /** A truncated row keeps its leading entries and its right-hand side, and a
      row that already has the width is left as it is. */
  lemma TruncatedKeeps(row: Row, width: nat)
    requires 1 <= width <= |row|
    ensures forall j :: 0 <= j < width - 1 ==> Truncated(row, width)[j] == row[j]
    ensures Truncated(row, width)[width - 1] == row[|row| - 1]
    ensures |row| == width ==> Truncated(row, width) == row
  {
  }

  // ---------------------------------------------------------------------
  // Row operations and the solutions of the rows

  /** The dot product of two rows of the same length. */
  function Dot(a: Row, y: Row): real
    requires |a| == |y|
  {
    if a == [] then 0.0 else a[0] * y[0] + Dot(a[1..], y[1..])
  }

  /** An augmented row (coefficients, then the right-hand side) holds at x:
      sum_j row[j] * x[j] == row[last]. */
  predicate HoldsAt(row: Row, x: Row)
    requires |row| == |x| + 1
  {
    Dot(row, x + [-1.0]) == 0.0
  }

  lemma {:induction false} DotSubScaled(a: Row, b: Row, f: real, y: Row)
    requires |a| == |b| == |y|
    ensures Dot(SubScaled(a, b, f), y) == Dot(a, y) - f * Dot(b, y)
  {
    if a != [] {
      SubScaledTail(a, b, f);
      DotSubScaled(a[1..], b[1..], f, y[1..]);
      var da, db := Dot(a[1..], y[1..]), Dot(b[1..], y[1..]);
      var s0 := SubScaled(a, b, f)[0];
      assert s0 == a[0] - b[0] * f;
      assert Dot(SubScaled(a, b, f), y) == s0 * y[0] + (da - f * db);
      assert s0 * y[0] == a[0] * y[0] - f * (b[0] * y[0]);
      assert f * (b[0] * y[0] + db) == f * (b[0] * y[0]) + f * db;
    }
  }

  lemma SubScaledTail(a: Row, b: Row, f: real)
    requires |a| == |b| && a != []
    ensures SubScaled(a, b, f)[1..] == SubScaled(a[1..], b[1..], f)
  {
    var l, r := SubScaled(a, b, f)[1..], SubScaled(a[1..], b[1..], f);
    forall j | 0 <= j < |l| ensures l[j] == r[j] {
      assert l[j] == a[j + 1] - b[j + 1] * f;
    }
  }

  /** A dot product whose every term is zero is zero. */
  lemma {:induction false} DotZero(a: Row, y: Row)
    requires |a| == |y| && forall j :: 0 <= j < |a| ==> a[j] * y[j] == 0.0
    ensures Dot(a, y) == 0.0
  {
    if a != [] {
      assert forall j :: 0 <= j < |a| - 1 ==> a[1..][j] * y[1..][j] == a[j + 1] * y[j + 1];
      DotZero(a[1..], y[1..]);
    }
  }

  /** A dot product with one non-zero term is that term. */
  lemma {:induction false} DotSingle(a: Row, y: Row, k: nat)
    requires |a| == |y| && k < |a|
    requires forall j :: 0 <= j < |a| && j != k ==> a[j] * y[j] == 0.0
    ensures Dot(a, y) == a[k] * y[k]
  {
    assert forall j :: 0 <= j < |a| - 1 && j + 1 != k ==> a[1..][j] * y[1..][j] == a[j + 1] * y[j + 1];
    if k == 0 {
      DotZero(a[1..], y[1..]);
    } else {
      DotSingle(a[1..], y[1..], k - 1);
    }
  }

  /** The dot product of prefixes grows one term at a time. */
  lemma {:induction false} DotPrefix(a: Row, y: Row, n: nat)
    requires |a| == |y| && n < |a|
    ensures Dot(a[..n + 1], y[..n + 1]) == Dot(a[..n], y[..n]) + a[n] * y[n]
  {
    if n > 0 {
      assert a[..n + 1][1..] == a[1..][..n] && y[..n + 1][1..] == y[1..][..n];
      assert a[..n][1..] == a[1..][..n - 1] && y[..n][1..] == y[1..][..n - 1];
      DotPrefix(a[1..], y[1..], n - 1);
    }
  }

  /** The sum of the first n terms a[j] * y[j], added from the left. */
  function DotUpTo(a: Row, y: Row, n: nat): real
    requires n <= |a| == |y|
    decreases n, 0
  {
    if n == 0 then 0.0 else DotThrough(a, y, n - 1)
  }

  /** The terms up to and including column j. */
  function DotThrough(a: Row, y: Row, j: nat): real
    requires j < |a| == |y|
    decreases j, 1
  {
    DotUpTo(a, y, j) + a[j] * y[j]
  }

  /** The first n terms are the dot product of the prefixes. */
  lemma {:induction false} DotUpToPrefix(a: Row, y: Row, n: nat)
    requires n <= |a| == |y|
    ensures DotUpTo(a, y, n) == Dot(a[..n], y[..n])
  {
    if n > 0 {
      DotUpToPrefix(a, y, n - 1);
      DotPrefix(a, y, n - 1);
    }
  }

  /** All the terms are the dot product. */
  lemma DotUpToAll(a: Row, y: Row)
    requires |a| == |y|
    ensures DotUpTo(a, y, |a|) == Dot(a, y)
  {
    DotUpToPrefix(a, y, |a|);
    assert a[..|a|] == a && y[..|y|] == y;
  }

  /** Subtracting a multiple of a row subtracts that multiple of its terms. */
  lemma {:induction false} DotUpToSubScaled(a: Row, b: Row, f: real, y: Row, n: nat)
    requires n <= |a| == |b| == |y|
    ensures DotUpTo(SubScaled(a, b, f), y, n) == DotUpTo(a, y, n) - f * DotUpTo(b, y, n)
  {
    if n > 0 {
      DotUpToSubScaled(a, b, f, y, n - 1);
      var j := n - 1;
      assert SubScaled(a, b, f)[j] == a[j] - b[j] * f;
      assert (a[j] - b[j] * f) * y[j] == a[j] * y[j] - f * (b[j] * y[j]);
    }
  }

  /** Terms before n that are all zero sum to zero, and with one non-zero
      term k the sum is that term. */
  lemma {:induction false} DotUpToSingle(a: Row, y: Row, k: nat, n: nat)
    requires n <= |a| == |y|
    requires forall j :: 0 <= j < n && j != k ==> a[j] * y[j] == 0.0
    ensures DotUpTo(a, y, n) == if k < n then a[k] * y[k] else 0.0
  {
    if n > 0 {
      DotUpToSingle(a, y, k, n - 1);
    }
  }

  lemma {:induction false} DotDivRow(a: Row, p: real, y: Row)
    requires |a| == |y| && p != 0.0
    ensures Dot(DivRow(a, p), y) == Dot(a, y) / p
  {
    if a != [] {
      assert DivRow(a, p)[1..] == DivRow(a[1..], p);
      DotDivRow(a[1..], p, y[1..]);
      DivTimes(a[0], y[0], p);
    }
  }

  lemma DivTimes(a: real, y: real, p: real)
    requires p != 0.0
    ensures (a / p) * y == (a * y) / p
  {
    var u := a / p;
    assert u * p == a;
    assert (u * y) * p == (u * p) * y;
    assert (a * y) / p * p == a * y;
  }

  /** Dividing a row by a non-zero number keeps exactly the points where it
      holds. */
  lemma DivRowHolds(row: Row, p: real, x: Row)
    requires |row| == |x| + 1 && p != 0.0
    ensures HoldsAt(DivRow(row, p), x) <==> HoldsAt(row, x)
  {
    DotDivRow(row, p, x + [-1.0]);
  }

  /** Subtracting a multiple of a row that holds at x keeps whether a row
      holds at x. */
  lemma SubScaledHolds(row: Row, key: Row, f: real, x: Row)
    requires |row| == |key| == |x| + 1
    requires HoldsAt(key, x)
    ensures HoldsAt(SubScaled(row, key, f), x) <==> HoldsAt(row, x)
  {
    DotSubScaled(row, key, f, x + [-1.0]);
  }

  /** Rows lo .. |M|-1 all hold at x. */
  predicate RowsHold(M: Matrix, lo: nat, x: Row)
    requires Rectangular(M) && |M[0]| == |x| + 1
  {
    forall i :: lo <= i < |M| ==> HoldsAt(M[i], x)
  }

  /** A pivot on a constraint row (k >= 1) keeps the solution set of the
      constraint rows 1 .. m: the same points satisfy them before and after. */
  lemma PivotKeepsSolutions(M: Matrix, k: nat, c: nat, x: Row)
    requires Rectangular(M) && 1 <= k < |M| && c < |M[0]| && M[k][c] != 0.0
    requires |M[0]| == |x| + 1
    ensures Rectangular(Pivot(M, k, c))
    ensures RowsHold(Pivot(M, k, c), 1, x) <==> RowsHold(M, 1, x)
  {
    PivotEffect(M, k, c);
    var p := M[k][c];
    var N := Normalized(M, k, p);
    var R := Pivot(M, k, c);
    DivRowHolds(M[k], p, x);
    assert R[k] == N[k];
    if RowsHold(M, 1, x) {
      forall i | 1 <= i < |M| ensures HoldsAt(R[i], x) {
        if i != k {
          SubScaledHolds(M[i], N[k], M[i][c], x);
        }
      }
    }
    if RowsHold(R, 1, x) {
      forall i | 1 <= i < |M| ensures HoldsAt(M[i], x) {
        if i != k {
          SubScaledHolds(M[i], N[k], M[i][c], x);
        }
      }
    }
  }
}
