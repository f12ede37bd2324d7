/** The row reduction of `GaussAlgorithm` (`forward_step`, `backward_step`,
    `doit`) on values: the system A·x = rhs as a sequence of rows and a
    right-hand side.  The class in `Gauss` is proved to leave exactly the
    systems these functions compute. */
module Elimination {
  import opened Outcomes
  import opened Rows

  /** The matrix `A`, its right-hand side column `rhs`, and the number of
      columns (which an empty `A` does not carry). */
  datatype System = System(A: Matrix, rhs: Row, cols: nat)

  /** One right-hand side per row and `cols` entries in every row. */
  predicate Shaped(s: System)
  {
    |s.rhs| == |s.A| && forall r :: 0 <= r < |s.A| ==> |s.A[r]| == s.cols
  }

  /** x satisfies every equation A[r]·x = rhs[r]. */
  predicate Solves(s: System, x: Row)
    requires Shaped(s) && |x| == s.cols
  {
    forall r :: 0 <= r < |s.A| ==> Dot(s.A[r], x) == s.rhs[r]
  }

  // ---------------------------------------------------------------------
  // `forward_step`

  /** The search loop of `forward_step`: the first row at or after `from`
      with a non-zero entry in column `col`. */
  function FirstNonZero(A: Matrix, col: nat, from: nat): (r: Option<nat>)
    requires forall q :: 0 <= q < |A| ==> col < |A[q]|
    ensures r.Some? ==> from <= r.value < |A| && A[r.value][col] != 0.0
    ensures r.Some? ==> forall q :: from <= q < r.value ==> A[q][col] == 0.0
    ensures r.None? ==> forall q :: from <= q < |A| ==> A[q][col] == 0.0
    decreases |A| - from
  {
    if from >= |A| then None
    else if A[from][col] != 0.0 then Some(from)
    else FirstNonZero(A, col, from + 1)
  }

  /** Entries i and j exchanged. */
  function Swap<T>(s: seq<T>, i: nat, j: nat): (r: seq<T>)
    requires i < |s| && j < |s|
    ensures |r| == |s| && r[i] == s[j] && r[j] == s[i]
    ensures forall q :: 0 <= q < |s| && q != i && q != j ==> r[q] == s[q]
  {
    s[i := s[j]][j := s[i]]
  }

  /** Row i exists, column i exists, and column i has a non-zero entry in
      row i or below, so `forward_step(i)` divides by a non-zero pivot. */
  predicate HasPivot(s: System, i: nat)
    requires Shaped(s)
  {
    i < |s.A| && i < s.cols && FirstNonZero(s.A, i, i).Some?
  }

  /** The pivot row `forward_step(i)` swaps into place: i itself when
      A[i][i] is non-zero. */
  function PivotRow(s: System, i: nat): (j: nat)
    requires Shaped(s) && HasPivot(s, i)
    ensures i <= j < |s.A| && s.A[j][i] != 0.0
    ensures s.A[i][i] != 0.0 ==> j == i
  {
    FirstNonZero(s.A, i, i).value
  }

  /** Rows i and j exchanged, in A and in rhs. */
  function Exchanged(s: System, i: nat, j: nat): (r: System)
    requires Shaped(s) && i < |s.A| && j < |s.A|
    ensures Shaped(r) && |r.A| == |s.A| && r.cols == s.cols
  {
    System(Swap(s.A, i, j), Swap(s.rhs, i, j), s.cols)
  }

  /** The rest of `forward_step(i)` once the pivot is in place: rhs[i] and
      row i divided by the pivot, then every later row with a non-zero
      entry in column i loses that entry times row i (and likewise its
      right-hand side). */
  function Eliminated(s: System, i: nat): (r: System)
    requires Shaped(s) && i < |s.A| && i < s.cols && s.A[i][i] != 0.0
    ensures Shaped(r) && |r.A| == |s.A| && r.cols == s.cols
  {
    var p := s.A[i][i];
    var key := DivRow(s.A[i], p);
    var b := s.rhs[i] / p;
    System(
      seq(|s.A|, q requires 0 <= q < |s.A| =>
        if q == i then key else if q > i && s.A[q][i] != 0.0 then SubScaled(s.A[q], key, s.A[q][i]) else s.A[q]),
      seq(|s.A|, q requires 0 <= q < |s.A| =>
        if q == i then b else if q > i && s.A[q][i] != 0.0 then s.rhs[q] - s.A[q][i] * b else s.rhs[q]),
      s.cols)
  }

  /** `forward_step(i)`: rows i and `PivotRow` exchanged, then row i made
      the pivot row of column i. */
  function ForwardStep(s: System, i: nat): (r: System)
    requires Shaped(s) && HasPivot(s, i)
    ensures Shaped(r) && |r.A| == |s.A| && r.cols == s.cols
  {
    var t := Exchanged(s, i, PivotRow(s, i));
    assert t.A[i][i] == s.A[PivotRow(s, i)][i];
    Eliminated(t, i)
  }

  // ---------------------------------------------------------------------
  // `backward_step` and `doit`

  /** `backward_step(i)`: every earlier row loses its entry in column i
      times row i. */
  function BackwardStep(s: System, i: nat): (r: System)
    requires Shaped(s) && i < |s.A| && i < s.cols
    ensures Shaped(r) && |r.A| == |s.A| && r.cols == s.cols
  {
    System(
      seq(|s.A|, q requires 0 <= q < |s.A| =>
        if q < i then SubScaled(s.A[q], s.A[i], s.A[q][i]) else s.A[q]),
      seq(|s.A|, q requires 0 <= q < |s.A| =>
        if q < i then s.rhs[q] - s.A[q][i] * s.rhs[i] else s.rhs[q]),
      s.cols)
  }

  /** `forward_step` finds a non-zero pivot on each of rows from .. |A|-1
      in turn; this needs at least as many columns as rows. */
  predicate Reducible(s: System, from: nat)
    requires Shaped(s)
    ensures Reducible(s, from) && from < |s.A| ==> |s.A| <= s.cols
    decreases |s.A| - from
  {
    from >= |s.A| || (HasPivot(s, from) && Reducible(ForwardStep(s, from), from + 1))
  }

  /** The forward loop of `doit` from row `from` on. */
  function Forward(s: System, from: nat): (r: System)
    requires Shaped(s) && Reducible(s, from)
    ensures Shaped(r) && |r.A| == |s.A| && r.cols == s.cols
    decreases |s.A| - from
  {
    if from >= |s.A| then s else Forward(ForwardStep(s, from), from + 1)
  }

  /** The backward loop of `doit` over rows n-1 down to 0. */
  function Backward(s: System, n: nat): (r: System)
    requires Shaped(s) && n <= |s.A| && n <= s.cols
    ensures Shaped(r) && |r.A| == |s.A| && r.cols == s.cols
    decreases n
  {
    if n == 0 then s else Backward(BackwardStep(s, n - 1), n - 1)
  }

  /** `doit`: forward steps on rows 0 .. m-1, then backward steps on rows
      m-1 down to 0. */
  function Doit(s: System): (r: System)
    requires Shaped(s) && Reducible(s, 0)
    ensures Shaped(r) && |r.A| == |s.A| && r.cols == s.cols
  {
    Backward(Forward(s, 0), |s.A|)
  }

  // ---------------------------------------------------------------------
  // One row operation at a time, as the buffers are rewritten

  /** Row i and rhs[i] divided by the pivot A[i][i]. */
  function Divided(s: System, i: nat): (r: System)
    requires Shaped(s) && i < |s.A| && i < s.cols && s.A[i][i] != 0.0
    ensures Shaped(r) && |r.A| == |s.A| && r.cols == s.cols
  {
    System(s.A[i := DivRow(s.A[i], s.A[i][i])], s.rhs[i := s.rhs[i] / s.A[i][i]], s.cols)
  }

  /** Row j less f times row i, and rhs[j] less f times rhs[i]. */
  function Subtracted(s: System, j: nat, i: nat, f: real): (r: System)
    requires Shaped(s) && i < |s.A| && j < |s.A|
    ensures Shaped(r) && |r.A| == |s.A| && r.cols == s.cols
  {
    System(s.A[j := SubScaled(s.A[j], s.A[i], f)], s.rhs[j := s.rhs[j] - f * s.rhs[i]], s.cols)
  }

  /** `Eliminated(s, i)` with only the rows before j cleared. */
  function EliminatedUpTo(s: System, i: nat, j: nat): (r: System)
    requires Shaped(s) && i < |s.A| && i < s.cols && s.A[i][i] != 0.0 && i < j <= |s.A|
    ensures Shaped(r) && |r.A| == |s.A| && r.cols == s.cols
  {
    var p := s.A[i][i];
    var key := DivRow(s.A[i], p);
    var b := s.rhs[i] / p;
    System(
      seq(|s.A|, q requires 0 <= q < |s.A| =>
        if q == i then key else if i < q < j && s.A[q][i] != 0.0 then SubScaled(s.A[q], key, s.A[q][i]) else s.A[q]),
      seq(|s.A|, q requires 0 <= q < |s.A| =>
        if q == i then b else if i < q < j && s.A[q][i] != 0.0 then s.rhs[q] - s.A[q][i] * b else s.rhs[q]),
      s.cols)
  }

  /** Dividing the pivot row starts the elimination, and with every row
      cleared it is done. */
  lemma EliminatedUpToEnds(s: System, i: nat)
    requires Shaped(s) && i < |s.A| && i < s.cols && s.A[i][i] != 0.0
    ensures EliminatedUpTo(s, i, i + 1) == Divided(s, i)
    ensures EliminatedUpTo(s, i, |s.A|) == Eliminated(s, i)
  {
    var d := Divided(s, i);
    var t := EliminatedUpTo(s, i, i + 1);
    assert t.A == d.A;
    assert t.rhs == d.rhs;
    var e := Eliminated(s, i);
    var u := EliminatedUpTo(s, i, |s.A|);
    assert u.A == e.A;
    assert u.rhs == e.rhs;
  }

  /** Clearing row j is one subtraction of the divided pivot row, made only
      when A[j][i] is non-zero. */
  lemma EliminatedUpToStep(s: System, i: nat, j: nat)
    requires Shaped(s) && i < |s.A| && i < s.cols && s.A[i][i] != 0.0 && i < j < |s.A|
    ensures EliminatedUpTo(s, i, j).A[j][i] == s.A[j][i]
    ensures EliminatedUpTo(s, i, j + 1) ==
      if s.A[j][i] != 0.0 then Subtracted(EliminatedUpTo(s, i, j), j, i, s.A[j][i]) else EliminatedUpTo(s, i, j)
  {
    var t := EliminatedUpTo(s, i, j);
    var u := EliminatedUpTo(s, i, j + 1);
    if s.A[j][i] != 0.0 {
      var w := Subtracted(t, j, i, s.A[j][i]);
      assert u.A == w.A;
      assert t.rhs[j] == s.rhs[j] && t.rhs[i] == s.rhs[i] / s.A[i][i];
      assert u.rhs[j] == w.rhs[j];
      assert u.rhs == w.rhs;
    } else {
      assert u.A == t.A;
      assert u.rhs == t.rhs;
    }
  }

  /** `BackwardStep(s, i)` with only the rows from j up to i - 1 done. */
  function BackwardUpTo(s: System, i: nat, j: nat): (r: System)
    requires Shaped(s) && i < |s.A| && i < s.cols && j <= i
    ensures Shaped(r) && |r.A| == |s.A| && r.cols == s.cols
  {
    System(
      seq(|s.A|, q requires 0 <= q < |s.A| =>
        if j <= q < i then SubScaled(s.A[q], s.A[i], s.A[q][i]) else s.A[q]),
      seq(|s.A|, q requires 0 <= q < |s.A| =>
        if j <= q < i then s.rhs[q] - s.A[q][i] * s.rhs[i] else s.rhs[q]),
      s.cols)
  }

  /** Nothing is done before the first row, and the whole step after the
      last. */
  lemma BackwardUpToEnds(s: System, i: nat)
    requires Shaped(s) && i < |s.A| && i < s.cols
    ensures BackwardUpTo(s, i, i) == s
    ensures BackwardUpTo(s, i, 0) == BackwardStep(s, i)
  {
    var t := BackwardUpTo(s, i, i);
    assert t.A == s.A;
    assert t.rhs == s.rhs;
    var e := BackwardStep(s, i);
    var u := BackwardUpTo(s, i, 0);
    assert u.A == e.A;
    assert u.rhs == e.rhs;
  }

  /** Row j - 1 is one subtraction of row i, which stays as it was. */
  lemma BackwardUpToStep(s: System, i: nat, j: nat)
    requires Shaped(s) && i < |s.A| && i < s.cols && 0 < j <= i
    ensures BackwardUpTo(s, i, j).A[j - 1][i] == s.A[j - 1][i]
    ensures BackwardUpTo(s, i, j - 1) == Subtracted(BackwardUpTo(s, i, j), j - 1, i, s.A[j - 1][i])
  {
    var t := BackwardUpTo(s, i, j);
    var u := BackwardUpTo(s, i, j - 1);
    var w := Subtracted(t, j - 1, i, s.A[j - 1][i]);
    assert u.A == w.A;
    assert t.rhs[j - 1] == s.rhs[j - 1] && t.rhs[i] == s.rhs[i];
    assert u.rhs[j - 1] == w.rhs[j - 1];
    assert u.rhs == w.rhs;
  }

  // ---------------------------------------------------------------------
  // The solution set is kept

  /** Exchanging two equations keeps the solutions. */
  lemma {:induction false} ExchangedKeepsSolutions(s: System, i: nat, j: nat, x: Row)
    requires Shaped(s) && i < |s.A| && j < |s.A| && |x| == s.cols
    ensures Solves(Exchanged(s, i, j), x) <==> Solves(s, x)
  {
    var t := Exchanged(s, i, j);
    if Solves(t, x) {
      forall r | 0 <= r < |s.A| ensures Dot(s.A[r], x) == s.rhs[r] {
        var q := if r == i then j else if r == j then i else r;
        assert t.A[q] == s.A[r] && t.rhs[q] == s.rhs[r];
      }
    }
  }

  /** Division by a non-zero number is injective. */
  lemma DivCancel(d: real, b: real, p: real)
    requires p != 0.0
    ensures d / p == b / p <==> d == b
  {
    var u, w := d / p, b / p;
    assert u * p == d;
    assert w * p == b;
  }

  /** Dividing an equation by a non-zero number keeps its solutions. */
  lemma {:induction false} DivideKeepsEquation(a: Row, b: real, p: real, x: Row)
    requires |a| == |x| && p != 0.0
    ensures Dot(DivRow(a, p), x) == b / p <==> Dot(a, x) == b
  {
    DotDivRow(a, p, x);
    DivCancel(Dot(a, x), b, p);
  }

  /** Subtracting f times an equation that holds at x keeps whether
      another equation holds at x. */
  lemma {:induction false} SubScaledEquation(a: Row, rhs: real, key: Row, b: real, f: real, x: Row)
    requires |a| == |key| == |x| && Dot(key, x) == b
    ensures Dot(SubScaled(a, key, f), x) == rhs - f * b <==> Dot(a, x) == rhs
  {
    DotSubScaled(a, key, f, x);
  }

  /** Where the divided pivot row holds at x, each other row of the
      eliminated system holds at x exactly when the row it came from does. */
  lemma {:induction false} EliminatedRow(s: System, i: nat, q: nat, x: Row)
    requires Shaped(s) && i < |s.A| && i < s.cols && s.A[i][i] != 0.0 && |x| == s.cols
    requires q < |s.A| && q != i
    requires Dot(DivRow(s.A[i], s.A[i][i]), x) == s.rhs[i] / s.A[i][i]
    ensures Dot(Eliminated(s, i).A[q], x) == Eliminated(s, i).rhs[q] <==> Dot(s.A[q], x) == s.rhs[q]
  {
    EliminatedEntry(s, i, q);
    if q > i && s.A[q][i] != 0.0 {
      ClearedRow(s, i, q, x);
    }
  }

  /** A row that elimination changes: it holds at x exactly when the row it
      came from does, given the divided pivot row holds there. */
  lemma ClearedRow(s: System, i: nat, q: nat, x: Row)
    requires Shaped(s) && i < |s.A| && i < s.cols && s.A[i][i] != 0.0 && |x| == s.cols
    requires i < q < |s.A| && s.A[q][i] != 0.0
    requires Dot(DivRow(s.A[i], s.A[i][i]), x) == s.rhs[i] / s.A[i][i]
    ensures Dot(SubScaled(s.A[q], DivRow(s.A[i], s.A[i][i]), s.A[q][i]), x)
              == s.rhs[q] - s.A[q][i] * (s.rhs[i] / s.A[i][i])
            <==> Dot(s.A[q], x) == s.rhs[q]
  {
    var key := DivRow(s.A[i], s.A[i][i]);
    var b := s.rhs[i] / s.A[i][i];
    SubScaledEquation(s.A[q], s.rhs[q], key, b, s.A[q][i], x);
  }

  /** Row q of the eliminated system, and its right-hand side. */
  lemma EliminatedEntry(s: System, i: nat, q: nat)
    requires Shaped(s) && i < |s.A| && i < s.cols && s.A[i][i] != 0.0 && q < |s.A| && q != i
    ensures q > i && s.A[q][i] != 0.0 ==>
      && Eliminated(s, i).A[q] == SubScaled(s.A[q], DivRow(s.A[i], s.A[i][i]), s.A[q][i])
      && Eliminated(s, i).rhs[q] == s.rhs[q] - s.A[q][i] * (s.rhs[i] / s.A[i][i])
    ensures !(q > i && s.A[q][i] != 0.0) ==>
      Eliminated(s, i).A[q] == s.A[q] && Eliminated(s, i).rhs[q] == s.rhs[q]
  {
  }

  /** Dividing the pivot row and clearing column i below it keeps the
      solution set. */
  lemma {:induction false} EliminatedKeepsSolutions(s: System, i: nat, x: Row)
    requires Shaped(s) && i < |s.A| && i < s.cols && s.A[i][i] != 0.0 && |x| == s.cols
    ensures Solves(Eliminated(s, i), x) <==> Solves(s, x)
  {
    var r := Eliminated(s, i);
    DivideKeepsEquation(s.A[i], s.rhs[i], s.A[i][i], x);
    assert r.A[i] == DivRow(s.A[i], s.A[i][i]) && r.rhs[i] == s.rhs[i] / s.A[i][i];
    if Solves(s, x) || Solves(r, x) {
      assert Dot(r.A[i], x) == r.rhs[i];
      forall q | 0 <= q < |s.A| && q != i
        ensures Dot(r.A[q], x) == r.rhs[q] <==> Dot(s.A[q], x) == s.rhs[q]
      {
        EliminatedRow(s, i, q, x);
      }
    }
  }

  /** `forward_step(i)` keeps the solution set: the same points solve the
      system before and after. */
  lemma {:induction false} ForwardStepKeepsSolutions(s: System, i: nat, x: Row)
    requires Shaped(s) && HasPivot(s, i) && |x| == s.cols
    ensures Solves(ForwardStep(s, i), x) <==> Solves(s, x)
  {
    var t := Exchanged(s, i, PivotRow(s, i));
    ExchangedKeepsSolutions(s, i, PivotRow(s, i), x);
    EliminatedKeepsSolutions(t, i, x);
  }

  /** `backward_step(i)` keeps the solution set. */
  lemma {:induction false} BackwardStepKeepsSolutions(s: System, i: nat, x: Row)
    requires Shaped(s) && i < |s.A| && i < s.cols && |x| == s.cols
    ensures Solves(BackwardStep(s, i), x) <==> Solves(s, x)
  {
    var r := BackwardStep(s, i);
    forall q | 0 <= q < i
      ensures Dot(r.A[q], x) == Dot(s.A[q], x) - s.A[q][i] * Dot(s.A[i], x)
    {
      DotSubScaled(s.A[q], s.A[i], s.A[q][i], x);
    }
    assert r.A[i] == s.A[i] && r.rhs[i] == s.rhs[i];
    if Solves(s, x) {
      forall q | 0 <= q < |s.A| ensures Dot(r.A[q], x) == r.rhs[q] {
      }
    }
    if Solves(r, x) {
      forall q | 0 <= q < |s.A| ensures Dot(s.A[q], x) == s.rhs[q] {
        assert Dot(r.A[q], x) == r.rhs[q];
      }
    }
  }

  lemma {:induction false} ForwardKeepsSolutions(s: System, from: nat, x: Row)
    requires Shaped(s) && Reducible(s, from) && |x| == s.cols
    ensures Solves(Forward(s, from), x) <==> Solves(s, x)
    decreases |s.A| - from
  {
    if from < |s.A| {
      ForwardStepKeepsSolutions(s, from, x);
      ForwardKeepsSolutions(ForwardStep(s, from), from + 1, x);
    }
  }

  lemma {:induction false} BackwardKeepsSolutions(s: System, n: nat, x: Row)
    requires Shaped(s) && n <= |s.A| && n <= s.cols && |x| == s.cols
    ensures Solves(Backward(s, n), x) <==> Solves(s, x)
    decreases n
  {
    if n > 0 {
      var t := BackwardStep(s, n - 1);
      var u := Backward(t, n - 1);
      assert Backward(s, n) == u;
      BackwardKeepsSolutions(t, n - 1, x);
      BackwardStepKeepsSolutions(s, n - 1, x);
      assert Solves(u, x) == Solves(s, x);
    }
  }

  /** `doit` keeps the solution set of A·x = rhs. */
  lemma {:induction false} DoitKeepsSolutions(s: System, x: Row)
    requires Shaped(s) && Reducible(s, 0) && |x| == s.cols
    ensures Solves(Doit(s), x) <==> Solves(s, x)
  {
    ForwardKeepsSolutions(s, 0, x);
    var f := Forward(s, 0);
    BackwardKeepsSolutions(f, |f.A|, x);
  }

  // ---------------------------------------------------------------------
  // The first m columns become the identity

  /** Columns 0 .. n-1 have 1 on the diagonal and 0 below it. */
  predicate UpperUnit(s: System, n: nat)
    requires Shaped(s) && n <= |s.A| && n <= s.cols
  {
    forall q, c :: 0 <= c < n && c <= q < |s.A| ==> s.A[q][c] == if q == c then 1.0 else 0.0
  }

  /** Once the pivot is in place, `forward_step(i)` makes A[i][i] one and
      clears column i below it, leaving the rows above i as they were. */
  lemma {:induction false} EliminatedEffect(s: System, i: nat)
    requires Shaped(s) && i < |s.A| && i < s.cols && s.A[i][i] != 0.0
    ensures var r := Eliminated(s, i);
      && r.A[i][i] == 1.0
      && (forall q :: i < q < |s.A| ==> r.A[q][i] == 0.0)
      && (forall q :: 0 <= q < i ==> r.A[q] == s.A[q] && r.rhs[q] == s.rhs[q])
  {
    var p := s.A[i][i];
    var key := DivRow(s.A[i], p);
    assert key[i] * p == p;
  }

  /** A forward step on row i extends the unit upper triangle from i
      columns to i+1, and leaves the rows above i as they were. */
  lemma {:induction false} ForwardStepExtends(s: System, i: nat)
    requires Shaped(s) && HasPivot(s, i) && UpperUnit(s, i)
    ensures UpperUnit(ForwardStep(s, i), i + 1)
    ensures forall q :: 0 <= q < i ==> ForwardStep(s, i).A[q] == s.A[q] && ForwardStep(s, i).rhs[q] == s.rhs[q]
  {
    var j := PivotRow(s, i);
    var t := Exchanged(s, i, j);
    EliminatedEffect(t, i);
    var r := ForwardStep(s, i);
    var key := DivRow(t.A[i], t.A[i][i]);
    forall c, q | 0 <= c < i && i <= q < |s.A| ensures t.A[q][c] == 0.0 {
      var q' := if q == i then j else if q == j then i else q;
      assert t.A[q] == s.A[q'] && c < q';
    }
    forall c, q | 0 <= c < i && i <= q < |s.A| ensures r.A[q][c] == 0.0 {
      assert t.A[i][c] == 0.0;
      assert key[c] == t.A[i][c] / t.A[i][i];
    }
  }

  lemma {:induction false} ForwardUpperUnit(s: System, from: nat)
    requires Shaped(s) && Reducible(s, from) && from <= |s.A| && from <= s.cols && UpperUnit(s, from)
    ensures |s.A| <= s.cols && UpperUnit(Forward(s, from), |s.A|)
    decreases |s.A| - from
  {
    if from < |s.A| {
      ForwardStepExtends(s, from);
      ForwardUpperUnit(ForwardStep(s, from), from + 1);
    }
  }

  /** Columns n .. m-1 are columns of the identity. */
  predicate IdentityFrom(s: System, n: nat)
    requires Shaped(s) && |s.A| <= s.cols
  {
    forall q, c :: 0 <= q < |s.A| && n <= c < |s.A| ==> s.A[q][c] == if q == c then 1.0 else 0.0
  }

  /** A backward step on row n-1 of a unit upper triangle turns column
      n-1 into an identity column and keeps the columns after it. */
  lemma {:induction false} BackwardStepExtends(s: System, n: nat)
    requires Shaped(s) && 0 < n <= |s.A| <= s.cols
    requires UpperUnit(s, |s.A|) && IdentityFrom(s, n)
    ensures UpperUnit(BackwardStep(s, n - 1), |s.A|) && IdentityFrom(BackwardStep(s, n - 1), n - 1)
  {
    var i := n - 1;
    var r := BackwardStep(s, i);
    forall q, c | 0 <= q < i && 0 <= c < |s.A|
      ensures r.A[q][c] == s.A[q][c] - s.A[i][c] * s.A[q][i]
    {
    }
    assert forall q :: i <= q < |s.A| ==> r.A[q] == s.A[q];
  }

  lemma {:induction false} BackwardIdentity(s: System, n: nat)
    requires Shaped(s) && n <= |s.A| <= s.cols
    requires UpperUnit(s, |s.A|) && IdentityFrom(s, n)
    ensures IdentityFrom(Backward(s, n), 0)
    decreases n
  {
    if n > 0 {
      BackwardStepExtends(s, n);
      BackwardIdentity(BackwardStep(s, n - 1), n - 1);
    }
  }

  /** When every pivot is non-zero, `doit` turns the first m columns of A
      into the identity. */
  lemma {:induction false} DoitIdentity(s: System)
    requires Shaped(s) && Reducible(s, 0)
    ensures |s.A| <= s.cols
    ensures forall q, c :: 0 <= q < |s.A| && 0 <= c < |s.A| ==> Doit(s).A[q][c] == if q == c then 1.0 else 0.0
  {
    ForwardUpperUnit(s, 0);
    BackwardIdentity(Forward(s, 0), |s.A|);
  }

  // ---------------------------------------------------------------------
  // What `doit` returns

  /** The point `doit` leaves in rhs, with the columns after the first m
      (the free variables) set to zero. */
  function BasicPoint(s: System): (x: Row)
    requires Shaped(s) && |s.A| <= s.cols
    ensures |x| == s.cols
    ensures forall c :: 0 <= c < |s.A| ==> x[c] == s.rhs[c]
    ensures forall c :: |s.A| <= c < s.cols ==> x[c] == 0.0
  {
    s.rhs + seq(s.cols - |s.A|, _ => 0.0)
  }

  /** A row that is a unit row on its first m entries meets x, zero after
      its first m entries, in x[q]. */
  lemma UnitRowDot(a: Row, x: Row, q: nat, m: nat)
    requires |a| == |x| && q < m <= |a|
    requires forall c :: 0 <= c < m ==> a[c] == if c == q then 1.0 else 0.0
    requires forall c :: m <= c < |x| ==> x[c] == 0.0
    ensures Dot(a, x) == x[q]
  {
    DotSingle(a, x, q);
  }

  /** The rhs `doit` returns is a solution of the original system: with the
      free variables at zero, the first m variables take the values in rhs. */
  lemma {:induction false} DoitSolves(s: System)
    requires Shaped(s) && Reducible(s, 0)
    ensures |s.A| <= s.cols && Solves(s, BasicPoint(Doit(s)))
  {
    var r := Doit(s);
    DoitIdentity(s);
    var x := BasicPoint(r);
    forall q | 0 <= q < |r.A| ensures Dot(r.A[q], x) == r.rhs[q] {
      UnitRowDot(r.A[q], x, q, |r.A|);
    }
    DoitKeepsSolutions(s, x);
  }

  /** With as many columns as rows, the rhs `doit` returns is the only
      solution. */
  lemma {:induction false} DoitUnique(s: System, x: Row)
    requires Shaped(s) && Reducible(s, 0) && s.cols == |s.A| && |x| == s.cols
    ensures Solves(s, x) <==> x == Doit(s).rhs
  {
    var r := Doit(s);
    DoitSolves(s);
    assert BasicPoint(r) == r.rhs;
    if Solves(s, x) {
      DoitIdentity(s);
      DoitKeepsSolutions(s, x);
      forall q | 0 <= q < |x| ensures x[q] == r.rhs[q] {
        UnitRowDot(r.A[q], x, q, |r.A|);
      }
    }
  }

  // ---------------------------------------------------------------------
  // `check_matrix`

  /** The number of rows before n with a non-zero entry in column col (the
      counter `i` of `check_matrix`). */
  function NonZeros(A: Matrix, col: nat, n: nat): (k: nat)
    requires n <= |A| && forall q :: 0 <= q < |A| ==> col < |A[q]|
    ensures k <= n
  {
    if n == 0 then 0 else NonZeros(A, col, n - 1) + (if A[n - 1][col] != 0.0 then 1 else 0)
  }

  /** `rowflag`: the last row before n with a non-zero entry in column col,
      and 0 when there is none. */
  function LastNonZero(A: Matrix, col: nat, n: nat): (r: nat)
    requires n <= |A| && forall q :: 0 <= q < |A| ==> col < |A[q]|
    ensures n == 0 ==> r == 0
    ensures n > 0 ==> r < n
  {
    if n == 0 then 0 else if A[n - 1][col] != 0.0 then n - 1 else LastNonZero(A, col, n - 1)
  }

  /** The number of entries equal to one in column col, rows before n. */
  function Ones(A: Matrix, col: nat, n: nat): (k: nat)
    requires n <= |A| && forall q :: 0 <= q < |A| ==> col < |A[q]|
    ensures k <= n
  {
    if n == 0 then 0 else Ones(A, col, n - 1) + (if A[n - 1][col] == 1.0 then 1 else 0)
  }

  /** The length of `countOne` after the columns before n. */
  function OnesUpTo(s: System, n: nat): nat
    requires Shaped(s) && n <= s.cols
  {
    if n == 0 then 0 else OnesUpTo(s, n - 1) + Ones(s.A, n - 1, |s.A|)
  }

  /** `indexs` after the columns before n: (row, column) for every column
      with exactly one non-zero entry, in column order. */
  function IndexsUpTo(s: System, n: nat): (r: seq<(nat, nat)>)
    requires Shaped(s) && n <= s.cols
    ensures |r| <= n
  {
    if n == 0 then []
    else
      var found := if NonZeros(s.A, n - 1, |s.A|) == 1 then [(LastNonZero(s.A, n - 1, |s.A|), n - 1)] else [];
      IndexsUpTo(s, n - 1) + found
  }

  function Indexs(s: System): seq<(nat, nat)>
    requires Shaped(s)
  {
    IndexsUpTo(s, s.cols)
  }

  /** The verdict of `check_matrix`: as many single-entry columns, or as
      many entries equal to one, as there are columns less two. */
  predicate Suitable(s: System)
    requires Shaped(s)
  {
    s.cols - 2 == |Indexs(s)| || OnesUpTo(s, s.cols) == s.cols - 2
  }

  /** No non-zero entry before n exactly when the count is zero. */
  lemma {:induction false} NoNonZeros(A: Matrix, col: nat, n: nat)
    requires n <= |A| && forall q :: 0 <= q < |A| ==> col < |A[q]|
    ensures NonZeros(A, col, n) == 0 <==> forall q :: 0 <= q < n ==> A[q][col] == 0.0
  {
    if n > 0 {
      NoNonZeros(A, col, n - 1);
    }
  }

  /** The counter is one and `rowflag` is r exactly when A[r][col] is the only
      non-zero entry before n. */
  lemma {:induction false} SingleNonZero(A: Matrix, col: nat, n: nat, r: nat)
    requires n <= |A| && forall q :: 0 <= q < |A| ==> col < |A[q]|
    requires r < n
    ensures NonZeros(A, col, n) == 1 && LastNonZero(A, col, n) == r
      <==> A[r][col] != 0.0 && forall q :: 0 <= q < n && q != r ==> A[q][col] == 0.0
  {
    if r == n - 1 {
      NoNonZeros(A, col, n - 1);
    } else {
      SingleNonZero(A, col, n - 1, r);
    }
  }

  /** The entries of `indexs` before column n: (r, c) is one of them exactly
      when A[r][c] is the only non-zero entry of column c. */
  lemma {:induction false} IndexsUpToExact(s: System, n: nat, r: nat, c: nat)
    requires Shaped(s) && n <= s.cols && r < |s.A| && c < n
    ensures (r, c) in IndexsUpTo(s, n)
      <==> s.A[r][c] != 0.0 && forall q :: 0 <= q < |s.A| && q != r ==> s.A[q][c] == 0.0
  {
    var prev := IndexsUpTo(s, n - 1);
    assert forall e :: e in prev ==> e.1 < n - 1 by {
      IndexsUpToColumns(s, n - 1);
    }
    if c == n - 1 {
      assert (r, c) !in prev;
      SingleNonZero(s.A, c, |s.A|, r);
    } else {
      IndexsUpToExact(s, n - 1, r, c);
    }
  }

  /** Every entry of `indexs` before column n names an earlier column. */
  lemma {:induction false} IndexsUpToColumns(s: System, n: nat)
    requires Shaped(s) && n <= s.cols
    ensures forall e :: e in IndexsUpTo(s, n) ==> e.0 < |s.A| && e.1 < n
  {
    if n > 0 {
      IndexsUpToColumns(s, n - 1);
      if NonZeros(s.A, n - 1, |s.A|) == 1 {
        assert |s.A| > 0;
      }
    }
  }

  /** `check_matrix` records (r, c) exactly when A[r][c] is the only non-zero
      entry of column c. */
  lemma IndexsExact(s: System, r: nat, c: nat)
    requires Shaped(s) && r < |s.A| && c < s.cols
    ensures (r, c) in Indexs(s)
      <==> s.A[r][c] != 0.0 && forall q :: 0 <= q < |s.A| && q != r ==> s.A[q][c] == 0.0
  {
    IndexsUpToExact(s, s.cols, r, c);
  }

  /** After `doit`, `check_matrix` finds (q, q) for every row q: the first m
      columns are the basis. */
  lemma DoitBasisFound(s: System, q: nat)
    requires Shaped(s) && Reducible(s, 0) && q < |s.A|
    ensures q < Doit(s).cols && (q, q) in Indexs(Doit(s))
  {
    DoitIdentity(s);
    IndexsExact(Doit(s), q, q);
  }
}
