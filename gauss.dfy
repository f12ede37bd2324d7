/** `GaussAlgorithm` as the Python code runs it: the matrix and the
    right-hand side are buffers that `forward_step`, `backward_step` and
    `doit` rewrite in place, row by row.  A ghost `system` mirrors the
    buffers, and every method is proved to leave exactly the system the
    functions of `Elimination` and `Substitution` compute. */
module Gauss {
  import opened Outcomes
  import opened Rows
  import opened Elimination
  import opened Substitution

  class GaussAlgorithm {
    /** The coefficient matrix, m rows by n columns. */
    var A: array2<real>
    /** The right-hand side column, one entry per row. */
    var rhs: array<real>
    /** The objective coefficients given to the constructor. */
    var f0: Row
    /** The objective `create_new_f` rewrites over the expressions. */
    var newF: Affine
    /** (row, column) of every column with a single non-zero entry. */
    var indexs: seq<(nat, nat)>
    /** One expression per variable; `podstanovka` replaces the basic ones. */
    var symbolsList: seq<Affine>
    /** The copy `podstanovka` keeps of `symbolsList`. */
    var expressions: seq<Affine>
    /** The constraints `podstanovka` derives, one per entry of `indexs`. */
    var constraint: seq<Constraint>
    /** The system the two buffers hold. */
    ghost var system: System

    /** The buffers hold `system`. */
    ghost predicate Valid()
      reads this`A, this`rhs, this`system, A, rhs
    {
      && Shaped(system)
      && |system.A| == A.Length0 && system.cols == A.Length1
      && system.rhs == rhs[..]
      && forall r, c :: 0 <= r < A.Length0 && 0 <= c < A.Length1 ==> A[r, c] == system.A[r][c]
    }

    /** `__init__`: copies of the matrix and of the right-hand side, and the
        objective coefficients. */
    constructor (a: array2<real>, b: array<real>, f: Row)
      requires b.Length == a.Length0
      ensures Valid() && fresh(A) && fresh(rhs)
      ensures |system.A| == a.Length0 && system.cols == a.Length1 && system.rhs == b[..]
      ensures forall r, c :: 0 <= r < a.Length0 && 0 <= c < a.Length1 ==> system.A[r][c] == a[r, c]
      ensures f0 == f
    {
      var m := new real[a.Length0, a.Length1];
      var column := new real[b.Length];
      var r := 0;
      while r < a.Length0
        invariant 0 <= r <= a.Length0
        invariant forall q, c :: 0 <= q < r && 0 <= c < a.Length1 ==> m[q, c] == a[q, c]
        invariant forall q :: 0 <= q < r ==> column[q] == b[q]
      {
        var c := 0;
        while c < a.Length1
          invariant 0 <= c <= a.Length1
          invariant forall q, k :: 0 <= q < r && 0 <= k < a.Length1 ==> m[q, k] == a[q, k]
          invariant forall k :: 0 <= k < c ==> m[r, k] == a[r, k]
          invariant forall q :: 0 <= q < r ==> column[q] == b[q]
        {
          m[r, c] := a[r, c];
          c := c + 1;
        }
        column[r] := b[r];
        r := r + 1;
      }
      A, rhs := m, column;
      f0, newF := f, Affine([], 0.0);
      indexs, symbolsList, expressions, constraint := [], [], [], [];
      system := System(
        seq(a.Length0, r requires 0 <= r < a.Length0 reads a =>
          seq(a.Length1, c requires 0 <= c < a.Length1 reads a => a[r, c])),
        b[..], a.Length1);
    }

    // -------------------------------------------------------------------
    // Row operations on the buffers

    /** `A[i, :], A[j, :] = A[j, :], A[i, :]` and the same on rhs. */
    method SwapRows(i: nat, j: nat)
      requires Valid() && i < A.Length0 && j < A.Length0
      modifies A, rhs, this`system
      ensures Valid() && system == Exchanged(old(system), i, j)
    {
      ghost var start := system;
      ghost var target := Exchanged(start, i, j);
      var t := rhs[i];
      rhs[i] := rhs[j];
      rhs[j] := t;
      assert rhs[..] == target.rhs;
      var c := 0;
      while c < A.Length1
        invariant 0 <= c <= A.Length1
        invariant rhs[..] == target.rhs
        invariant forall r, k :: 0 <= r < A.Length0 && 0 <= k < c ==> A[r, k] == target.A[r][k]
        invariant forall r, k :: 0 <= r < A.Length0 && c <= k < A.Length1 ==> A[r, k] == start.A[r][k]
      {
        var t := A[i, c];
        A[i, c] := A[j, c];
        A[j, c] := t;
        c := c + 1;
      }
      system := target;
    }

    /** `rhs[i, :] /= A[i, i]` then `A[i, :] /= A[i, i]`: both by the pivot as
        it was before the row changes. */
    method DivideRow(i: nat)
      requires Valid() && i < A.Length0 && i < A.Length1 && A[i, i] != 0.0
      modifies A, rhs, this`system
      ensures Valid() && system == Divided(old(system), i)
    {
      ghost var start := system;
      ghost var target := Divided(start, i);
      var p := A[i, i];
      rhs[i] := rhs[i] / p;
      assert rhs[..] == target.rhs;
      var c := 0;
      while c < A.Length1
        invariant 0 <= c <= A.Length1
        invariant rhs[..] == target.rhs
        invariant forall r, k :: 0 <= r < A.Length0 && 0 <= k < c ==> A[r, k] == target.A[r][k]
        invariant forall r, k :: 0 <= r < A.Length0 && c <= k < A.Length1 ==> A[r, k] == start.A[r][k]
      {
        A[i, c] := A[i, c] / p;
        c := c + 1;
      }
      system := target;
    }

    /** `rhs[j, :] -= f * rhs[i, :]` then `A[j, :] -= f * A[i, :]`. */
    method SubtractRow(j: nat, i: nat, f: real)
      requires Valid() && i < A.Length0 && j < A.Length0
      modifies A, rhs, this`system
      ensures Valid() && system == Subtracted(old(system), j, i, f)
    {
      ghost var start := system;
      ghost var target := Subtracted(start, j, i, f);
      assert rhs[i] == start.rhs[i] && rhs[j] == start.rhs[j];
      rhs[j] := rhs[j] - f * rhs[i];
      assert rhs[..] == target.rhs;
      var c := 0;
      while c < A.Length1
        invariant 0 <= c <= A.Length1
        invariant rhs[..] == target.rhs
        invariant forall r, k :: 0 <= r < A.Length0 && 0 <= k < c ==> A[r, k] == target.A[r][k]
        invariant forall r, k :: 0 <= r < A.Length0 && c <= k < A.Length1 ==> A[r, k] == start.A[r][k]
      {
        A[j, c] := A[j, c] - f * A[i, c];
        c := c + 1;
      }
      system := target;
    }

    // -------------------------------------------------------------------
    // `forward_step`, `backward_step`, `doit`

    /** The second half of `forward_step(i)`: divide row i by the pivot and
        clear column i in every later row whose entry there is non-zero. */
    method Eliminate(i: nat)
      requires Valid() && i < A.Length0 && i < A.Length1 && A[i, i] != 0.0
      modifies A, rhs, this`system
      ensures Valid() && system == Eliminated(old(system), i)
    {
      ghost var start := system;
      EliminatedUpToEnds(start, i);
      DivideRow(i);
      var j := i + 1;
      while j < A.Length0
        invariant i + 1 <= j <= A.Length0
        invariant Valid() && system == EliminatedUpTo(start, i, j)
      {
        ClearBelow(start, i, j);
        j := j + 1;
      }
    }

    /** One pass of the clearing loop of `forward_step(i)`: row j loses
        A[j][i] times the divided pivot row when that entry is non-zero. */
    method ClearBelow(ghost start: System, i: nat, j: nat)
      requires Shaped(start) && i < |start.A| && i < start.cols && start.A[i][i] != 0.0 && i < j < |start.A|
      requires Valid() && system == EliminatedUpTo(start, i, j)
      modifies A, rhs, this`system
      ensures Valid() && system == EliminatedUpTo(start, i, j + 1)
    {
      EliminatedUpToStep(start, i, j);
      var factor := A[j, i];
      if factor != 0.0 {
        SubtractRow(j, i, factor);
      }
    }

    /** `forward_step(i)`: when A[i][i] is zero, the first row below it with a
        non-zero entry in column i is swapped up; then row i is divided by
        its pivot and column i cleared below it. */
    method ForwardStep(i: nat)
      requires Valid() && HasPivot(system, i)
      modifies A, rhs, this`system
      ensures Valid() && system == Elimination.ForwardStep(old(system), i)
    {
      ghost var start := system;
      ghost var j0 := PivotRow(start, i);
      if A[i, i] == 0.0 {
        var j := i;
        while A[j, i] == 0.0
          invariant i <= j <= j0 && system == start
          invariant FirstNonZero(start.A, i, j) == FirstNonZero(start.A, i, i)
          decreases j0 - j
        {
          j := j + 1;
        }
        SwapRows(i, j);
      } else {
        assert Exchanged(start, i, i) == start;
      }
      Eliminate(i);
    }

    /** `backward_step(i)`: rows i-1 down to 0 each lose their entry in
        column i times row i. */
    method BackwardStep(i: nat)
      requires Valid() && i < A.Length0 && i < A.Length1
      modifies A, rhs, this`system
      ensures Valid() && system == Elimination.BackwardStep(old(system), i)
    {
      ghost var start := system;
      BackwardUpToEnds(start, i);
      var j := i;
      while j > 0
        invariant 0 <= j <= i
        invariant Valid() && system == BackwardUpTo(start, i, j)
      {
        BackwardUpToStep(start, i, j);
        SubtractRow(j - 1, i, A[j - 1, i]);
        j := j - 1;
      }
    }

    /** The first loop of `doit`: `forward_step` on every row. */
    method ForwardAll()
      requires Valid() && Reducible(system, 0)
      modifies A, rhs, this`system
      ensures Valid() && system == Forward(old(system), 0)
    {
      ghost var start := system;
      var row := 0;
      while row < A.Length0
        invariant 0 <= row <= A.Length0
        invariant Valid() && Reducible(system, row) && Forward(system, row) == Forward(start, 0)
      {
        ForwardStep(row);
        row := row + 1;
      }
    }

    /** The second loop of `doit`: `backward_step` from the last row up. */
    method BackwardAll()
      requires Valid() && |system.A| <= system.cols
      modifies A, rhs, this`system
      ensures Valid() && system == Backward(old(system), |old(system).A|)
    {
      ghost var start := system;
      var row := A.Length0;
      while row > 0
        invariant 0 <= row <= A.Length0 <= A.Length1
        invariant Valid() && Backward(system, row) == Backward(start, |start.A|)
      {
        row := row - 1;
        BackwardStep(row);
      }
    }

    /** `doit`: forward steps on every row, then backward steps from the last
        row up; returns the right-hand side buffer, which then holds the
        basic solution of the system it started from. */
    method Doit() returns (solution: array<real>)
      requires Valid() && Reducible(system, 0)
      modifies A, rhs, this`system
      ensures Valid() && system == Elimination.Doit(old(system))
      ensures solution == rhs && solution[..] == system.rhs
      ensures |system.A| <= system.cols && Solves(old(system), BasicPoint(system))
    {
      ghost var start := system;
      ForwardAll();
      BackwardAll();
      solution := rhs;
      DoitSolves(start);
    }

    // -------------------------------------------------------------------
    // `check_matrix`

    /** The inner loop of `check_matrix` over the rows of column col: how
        many entries are non-zero, the last row holding one, and how many
        entries equal one. */
    method ScanColumn(col: nat) returns (i: nat, rowflag: nat, ones: nat)
      requires Valid() && col < A.Length1
      ensures i == NonZeros(system.A, col, |system.A|)
      ensures rowflag == LastNonZero(system.A, col, |system.A|)
      ensures ones == Ones(system.A, col, |system.A|)
    {
      i, rowflag, ones := 0, 0, 0;
      var row := 0;
      while row < A.Length0
        invariant 0 <= row <= A.Length0
        invariant i == NonZeros(system.A, col, row) && rowflag == LastNonZero(system.A, col, row)
        invariant ones == Ones(system.A, col, row)
      {
        if A[row, col] > 0.0 || A[row, col] < 0.0 {
          i := i + 1;
          rowflag := row;
        }
        if A[row, col] == 1.0 {
          ones := ones + 1;
        }
        row := row + 1;
      }
    }

    /** `check_matrix`: records (rowflag, col) for every column with exactly
        one non-zero entry, counts the entries equal to one, and accepts when
        either number equals the column count less two. */
    method CheckMatrix() returns (ok: bool)
      requires Valid()
      modifies this`indexs
      ensures indexs == Indexs(system) && ok == Suitable(system)
    {
      indexs := [];
      // `countOne` is a list in the source; only its length is read.
      var countOne: nat := 0;
      var col := 0;
      while col < A.Length1
        invariant 0 <= col <= A.Length1
        invariant indexs == IndexsUpTo(system, col) && countOne == OnesUpTo(system, col)
      {
        var i, rowflag, ones := ScanColumn(col);
        countOne := countOne + ones;
        if i == 1 {
          indexs := indexs + [(rowflag, col)];
        }
        col := col + 1;
      }
      ok := A.Length1 - 2 == |indexs| || countOne == A.Length1 - 2;
    }

    // -------------------------------------------------------------------
    // `create_symbols`, `podstanovka`, `create_new_f`

    /** `create_symbols`: the symbols x_1 .. x_n, one per column. */
    method CreateSymbols()
      modifies this`symbolsList
      ensures symbolsList == Symbols(A.Length1)
    {
      symbolsList := [];
      var col := 0;
      while col < A.Length1
        invariant 0 <= col <= A.Length1
        invariant symbolsList == Symbols(A.Length1)[..col]
      {
        symbolsList := symbolsList + [Symbol(col, A.Length1)];
        col := col + 1;
      }
    }

    /** One pass of the loop of `podstanovka`, for the entry (r, c): x and y
        start at the expression of column c and gather every other non-zero
        coefficient of row r times its expression, x negated and y not; both
        then lose the expression of column c; y <= rhs[r] becomes a
        constraint and x + rhs[r] the new expression of column c. */
    method SubstituteOne(r: nat, c: nat)
      requires Valid() && r < A.Length0 && c < A.Length1
      requires Square(symbolsList) && |symbolsList| == A.Length1
      modifies this`symbolsList, this`constraint
      ensures symbolsList == old(symbolsList)[c := Solved(system.A[r], system.rhs[r], c, old(symbolsList))]
      ensures constraint == old(constraint) + [AtMost(Bound(system.A[r], c, old(symbolsList)), system.rhs[r])]
    {
      var S := symbolsList;
      var x := S[c];
      var y := S[c];
      var col := 0;
      while col < A.Length1
        invariant 0 <= col <= A.Length1
        invariant x == Accumulated(system.A[r], c, S, true, col)
        invariant y == Accumulated(system.A[r], c, S, false, col)
      {
        var koeff := A[r, col];
        if col != c && koeff != 0.0 {
          x := AddTimes(x, -1.0 * koeff, S[col]);
          y := AddTimes(y, 1.0 * koeff, S[col]);
        }
        col := col + 1;
      }
      x := AddTimes(x, -1.0, S[c]);
      y := AddTimes(y, -1.0, S[c]);
      constraint := constraint + [AtMost(y, rhs[r])];
      x := AddConstant(x, rhs[r]);
      symbolsList := S[c := x];
    }

    /** `create_new_f`: the sum of f0[k] * symbolsList[k]; an objective with
        more coefficients than there are expressions stops with an
        IndexError and leaves the objective as it was. */
    method CreateNewF() returns (error: Option<Error>)
      requires Square(symbolsList)
      modifies this`newF
      ensures error.None? <==> |f0| <= |symbolsList|
      ensures error.Some? ==> error.value == IndexOutOfRange && newF == old(newF)
      ensures error.None? ==> Substitution.CreateNewF(f0, symbolsList) == Ok(newF)
    {
      var e := Affine(seq(|symbolsList|, _ => 0.0), 0.0);
      var index := 0;
      while index < |f0|
        invariant 0 <= index <= |f0| && index <= |symbolsList|
        invariant e == NewF(f0, symbolsList, index)
      {
        if index >= |symbolsList| {
          return Some(IndexOutOfRange);
        }
        e := AddTimes(e, f0[index], symbolsList[index]);
        index := index + 1;
      }
      newF := e;
      return None;
    }

    /** The loop of `podstanovka` over `indexs`, from the fresh symbols. */
    method SubstituteAll()
      requires Valid() && InRange(system, indexs) && symbolsList == Symbols(A.Length1) && constraint == []
      modifies this`symbolsList, this`constraint
      ensures symbolsList == Substitute(system, indexs).symbols
      ensures constraint == Substitute(system, indexs).constraints
    {
      var k := 0;
      while k < |indexs|
        invariant 0 <= k <= |indexs|
        invariant Stage(symbolsList, constraint) == SubstituteUpTo(system, Symbols(system.cols), indexs, k)
      {
        var (r, c) := indexs[k];
        assert indexs[k] in indexs;
        SubstituteOne(r, c);
        k := k + 1;
      }
    }

    /** `podstanovka`: fresh symbols, one substitution per entry of `indexs`,
        then `create_new_f`; `expressions` is the final copy of the
        expressions, made only when `create_new_f` succeeds. */
    method Podstanovka() returns (error: Option<Error>)
      requires Valid() && InRange(system, indexs)
      modifies this`symbolsList, this`constraint, this`expressions, this`newF
      ensures symbolsList == Substitute(system, indexs).symbols
      ensures constraint == Substitute(system, indexs).constraints
      ensures error.None? <==> |f0| <= A.Length1
      ensures error.None? ==> Substitution.CreateNewF(f0, symbolsList) == Ok(newF) && expressions == symbolsList
      ensures error.Some? ==> error.value == IndexOutOfRange && expressions == [] && newF == old(newF)
    {
      expressions := [];
      constraint := [];
      CreateSymbols();
      SubstituteAll();
      error := CreateNewF();
      if error.None? {
        expressions := symbolsList;
      }
    }
  }
}
