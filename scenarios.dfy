/** Worked examples: the systems the two solvers are shown on, run through
    the model step by step. */
module Scenarios {
  import opened Outcomes
  import opened Rows
  import opened Elimination
  import opened Substitution

  // ---------------------------------------------------------------------
  // The demonstration system of the Gauss–Jordan solver

  /** x_1 + 2x_2 + 5x_3 - x_4 = 4 and x_1 - x_2 - x_3 + 2x_4 = 1. */
  function DemoSystem(): System
  {
    System([[1.0, 2.0, 5.0, -1.0], [1.0, -1.0, -1.0, 2.0]], [4.0, 1.0], 4)
  }

  /** The system after `doit`. */
  function DemoReduced(): System
  {
    System([[1.0, 0.0, 1.0, 1.0], [0.0, 1.0, 2.0, -1.0]], [2.0, 1.0], 4)
  }

  /** Row 0 is already in place: it stays, and row 1 loses it. */
  lemma DemoFirstStep()
    ensures Shaped(DemoSystem()) && HasPivot(DemoSystem(), 0)
    ensures ForwardStep(DemoSystem(), 0) == System([[1.0, 2.0, 5.0, -1.0], [0.0, -3.0, -6.0, 3.0]], [4.0, -3.0], 4)
  {
    var s := DemoSystem();
    assert FirstNonZero(s.A, 0, 0) == Some(0);
    var e := Eliminated(Exchanged(s, 0, 0), 0);
    assert Exchanged(s, 0, 0) == s;
    assert e.A[0] == [1.0, 2.0, 5.0, -1.0];
    assert e.A[1] == [0.0, -3.0, -6.0, 3.0];
  }

  /** Row 1's pivot is -3: row 1 is divided by it. */
  lemma DemoSecondStep()
    ensures var s := System([[1.0, 2.0, 5.0, -1.0], [0.0, -3.0, -6.0, 3.0]], [4.0, -3.0], 4);
      Shaped(s) && HasPivot(s, 1) &&
      ForwardStep(s, 1) == System([[1.0, 2.0, 5.0, -1.0], [0.0, 1.0, 2.0, -1.0]], [4.0, 1.0], 4)
  {
    var s := System([[1.0, 2.0, 5.0, -1.0], [0.0, -3.0, -6.0, 3.0]], [4.0, -3.0], 4);
    assert FirstNonZero(s.A, 1, 1) == Some(1);
    var e := Eliminated(Exchanged(s, 1, 1), 1);
    assert Exchanged(s, 1, 1) == s;
    assert e.A[1] == [0.0, 1.0, 2.0, -1.0];
  }

  /** `doit` on the demonstration system: both pivots are found, and the
      backward step clears column 1 of row 0. */
  lemma DemoDoit()
    ensures Shaped(DemoSystem()) && Reducible(DemoSystem(), 0)
    ensures Doit(DemoSystem()) == DemoReduced()
  {
    var s := DemoSystem();
    DemoFirstStep();
    var s1 := ForwardStep(s, 0);
    DemoSecondStep();
    var s2 := ForwardStep(s1, 1);
    assert Reducible(s2, 2);
    assert Forward(s, 0) == s2;
    var b1 := BackwardStep(s2, 1);
    assert b1.A[0] == [1.0, 0.0, 1.0, 1.0];
    assert b1 == DemoReduced();
    var b0 := BackwardStep(b1, 0);
    assert b0 == b1;
  }

  /** `check_matrix` on the reduced system: columns 0 and 1 hold a single
      non-zero entry, in rows 0 and 1, and that is the two columns the
      four-column system needs. */
  lemma DemoCheckMatrix()
    ensures Shaped(DemoReduced())
    ensures Indexs(DemoReduced()) == [(0, 0), (1, 1)]
    ensures Suitable(DemoReduced())
  {
    var d := DemoReduced();
    assert NonZeros(d.A, 0, 2) == 1 && LastNonZero(d.A, 0, 2) == 0;
    assert NonZeros(d.A, 1, 2) == 1 && LastNonZero(d.A, 1, 2) == 1;
    assert NonZeros(d.A, 2, 2) == 2;
    assert NonZeros(d.A, 3, 2) == 2;
    assert IndexsUpTo(d, 2) == [(0, 0), (1, 1)];
  }

  /** `create_symbols` for four columns: x_1 .. x_4. */
  lemma DemoSymbols()
    ensures |Symbols(4)| == 4
    ensures Symbols(4)[0] == Affine([1.0, 0.0, 0.0, 0.0], 0.0) && Symbols(4)[1] == Affine([0.0, 1.0, 0.0, 0.0], 0.0)
    ensures Symbols(4)[2] == Affine([0.0, 0.0, 1.0, 0.0], 0.0) && Symbols(4)[3] == Affine([0.0, 0.0, 0.0, 1.0], 0.0)
  {
    assert Symbol(0, 4).coeffs == [1.0, 0.0, 0.0, 0.0];
    assert Symbol(1, 4).coeffs == [0.0, 1.0, 0.0, 0.0];
    assert Symbol(2, 4).coeffs == [0.0, 0.0, 1.0, 0.0];
    assert Symbol(3, 4).coeffs == [0.0, 0.0, 0.0, 1.0];
  }

  /** e + k * g over four variables, entry by entry. */
  lemma AddTimesFour(e: Affine, k: real, g: Affine, r: Affine)
    requires |e.coeffs| == |g.coeffs| == |r.coeffs| == 4
    requires r.coeffs[0] == e.coeffs[0] + k * g.coeffs[0] && r.coeffs[1] == e.coeffs[1] + k * g.coeffs[1]
    requires r.coeffs[2] == e.coeffs[2] + k * g.coeffs[2] && r.coeffs[3] == e.coeffs[3] + k * g.coeffs[3]
    requires r.constant == e.constant + k * g.constant
    ensures AddTimes(e, k, g) == r
  {
    var s := AddTimes(e, k, g);
    forall j | 0 <= j < 4 ensures s.coeffs[j] == r.coeffs[j] {
      assert g.coeffs[j] * -k == -(k * g.coeffs[j]);
    }
    assert s.coeffs == r.coeffs;
  }

  /** A sequence of four, entry by entry. */
  lemma Four<T>(U: seq<T>, a: T, b: T, c: T, e: T)
    requires |U| == 4 && U[0] == a && U[1] == b && U[2] == c && U[3] == e
    ensures U == [a, b, c, e]
  {
  }

  /** One entry of `indexs` in `podstanovka`: the expression x of its
      column replaced, and its constraint y <= rhs appended. */
  lemma SubstituteStep(d: System, S: seq<Affine>, indexs: seq<(nat, nat)>, k: nat, x: Affine, y: Affine)
    requires Shaped(d) && InRange(d, indexs) && Square(S) && |S| == d.cols && 0 < k <= |indexs|
    requires indexs[k - 1].0 < |d.A| && indexs[k - 1].1 < d.cols
    requires var prev := SubstituteUpTo(d, S, indexs, k - 1).symbols;
      Solved(d.A[indexs[k - 1].0], d.rhs[indexs[k - 1].0], indexs[k - 1].1, prev) == x &&
      Bound(d.A[indexs[k - 1].0], indexs[k - 1].1, prev) == y
    ensures var prev := SubstituteUpTo(d, S, indexs, k - 1);
      SubstituteUpTo(d, S, indexs, k) ==
        Stage(prev.symbols[indexs[k - 1].1 := x], prev.constraints + [AtMost(y, d.rhs[indexs[k - 1].0])])
  {
  }

  /** The loop of `podstanovka` on row 0 of the reduced system, for x_1:
      columns 0 and 1 add nothing, columns 2 and 3 add x_3 and x_4 (taken
      away for x). */
  lemma DemoFirstRowLoop(row: Row, S: seq<Affine>, negated: bool)
    requires row == [1.0, 0.0, 1.0, 1.0] && Square(S) && |S| == 4
    ensures Accumulated(row, 0, S, negated, 4) ==
      AddTimes(AddTimes(S[0], Signed(negated, 1.0), S[2]), Signed(negated, 1.0), S[3])
  {
    assert Accumulated(row, 0, S, negated, 1) == S[0];
    assert Accumulated(row, 0, S, negated, 2) == S[0];
  }

  /** The loop on row 1, for x_2: column 0 adds nothing, as its
      coefficient is zero; columns 2 and 3 add 2x_3 and -x_4. */
  lemma DemoSecondRowLoop(row: Row, S: seq<Affine>, negated: bool)
    requires row == [0.0, 1.0, 2.0, -1.0] && Square(S) && |S| == 4
    ensures Accumulated(row, 1, S, negated, 4) ==
      AddTimes(AddTimes(S[1], Signed(negated, 2.0), S[2]), Signed(negated, -1.0), S[3])
  {
    assert Accumulated(row, 1, S, negated, 1) == S[1];
    assert Accumulated(row, 1, S, negated, 2) == S[1];
  }

  /** Row 0 solved for x_1: x_1 = 2 - x_3 - x_4 ... */
  lemma DemoFirstSolved(row: Row, S: seq<Affine>)
    requires row == [1.0, 0.0, 1.0, 1.0] && Square(S) && |S| == 4
    requires S[0] == Affine([1.0, 0.0, 0.0, 0.0], 0.0) && S[2] == Affine([0.0, 0.0, 1.0, 0.0], 0.0) && S[3] == Affine([0.0, 0.0, 0.0, 1.0], 0.0)
    ensures Solved(row, 2.0, 0, S) == Affine([0.0, 0.0, -1.0, -1.0], 2.0)
  {
    DemoFirstRowLoop(row, S, true);
    var a, b := Affine([1.0, 0.0, -1.0, 0.0], 0.0), Affine([1.0, 0.0, -1.0, -1.0], 0.0);
    AddTimesFour(S[0], -1.0, S[2], a);
    AddTimesFour(a, -1.0, S[3], b);
    AddTimesFour(b, -1.0, S[0], Affine([0.0, 0.0, -1.0, -1.0], 0.0));
  }

  /** ... under the constraint x_3 + x_4 <= 2. */
  lemma DemoFirstBound(row: Row, S: seq<Affine>)
    requires row == [1.0, 0.0, 1.0, 1.0] && Square(S) && |S| == 4
    requires S[0] == Affine([1.0, 0.0, 0.0, 0.0], 0.0) && S[2] == Affine([0.0, 0.0, 1.0, 0.0], 0.0) && S[3] == Affine([0.0, 0.0, 0.0, 1.0], 0.0)
    ensures Bound(row, 0, S) == Affine([0.0, 0.0, 1.0, 1.0], 0.0)
  {
    DemoFirstRowLoop(row, S, false);
    var a, b := Affine([1.0, 0.0, 1.0, 0.0], 0.0), Affine([1.0, 0.0, 1.0, 1.0], 0.0);
    AddTimesFour(S[0], 1.0, S[2], a);
    AddTimesFour(a, 1.0, S[3], b);
    AddTimesFour(b, -1.0, S[0], Affine([0.0, 0.0, 1.0, 1.0], 0.0));
  }

  /** Row 1 solved for x_2: x_2 = 1 - 2x_3 + x_4 ... */
  lemma DemoSecondSolved(row: Row, S: seq<Affine>)
    requires row == [0.0, 1.0, 2.0, -1.0] && Square(S) && |S| == 4
    requires S[1] == Affine([0.0, 1.0, 0.0, 0.0], 0.0) && S[2] == Affine([0.0, 0.0, 1.0, 0.0], 0.0) && S[3] == Affine([0.0, 0.0, 0.0, 1.0], 0.0)
    ensures Solved(row, 1.0, 1, S) == Affine([0.0, 0.0, -2.0, 1.0], 1.0)
  {
    DemoSecondRowLoop(row, S, true);
    var a, b := Affine([0.0, 1.0, -2.0, 0.0], 0.0), Affine([0.0, 1.0, -2.0, 1.0], 0.0);
    AddTimesFour(S[1], -2.0, S[2], a);
    AddTimesFour(a, 1.0, S[3], b);
    AddTimesFour(b, -1.0, S[1], Affine([0.0, 0.0, -2.0, 1.0], 0.0));
  }

  /** ... under the constraint 2x_3 - x_4 <= 1. */
  lemma DemoSecondBound(row: Row, S: seq<Affine>)
    requires row == [0.0, 1.0, 2.0, -1.0] && Square(S) && |S| == 4
    requires S[1] == Affine([0.0, 1.0, 0.0, 0.0], 0.0) && S[2] == Affine([0.0, 0.0, 1.0, 0.0], 0.0) && S[3] == Affine([0.0, 0.0, 0.0, 1.0], 0.0)
    ensures Bound(row, 1, S) == Affine([0.0, 0.0, 2.0, -1.0], 0.0)
  {
    DemoSecondRowLoop(row, S, false);
    var a, b := Affine([0.0, 1.0, 2.0, 0.0], 0.0), Affine([0.0, 1.0, 2.0, -1.0], 0.0);
    AddTimesFour(S[1], 2.0, S[2], a);
    AddTimesFour(a, -1.0, S[3], b);
    AddTimesFour(b, -1.0, S[1], Affine([0.0, 0.0, 2.0, -1.0], 0.0));
  }

  /** The first pass of `podstanovka` on the reduced system: x_1 is
      replaced by 2 - x_3 - x_4 and x_3 + x_4 <= 2 recorded. */
  lemma DemoSubstituteFirst(d: System, S: seq<Affine>, indexs: seq<(nat, nat)>)
    requires d == DemoReduced() && |indexs| == 2 && indexs[0] == (0, 0) && indexs[1] == (1, 1)
    requires Square(S) && |S| == 4 && S[0] == Affine([1.0, 0.0, 0.0, 0.0], 0.0)
    requires S[2] == Affine([0.0, 0.0, 1.0, 0.0], 0.0) && S[3] == Affine([0.0, 0.0, 0.0, 1.0], 0.0)
    ensures Shaped(d) && InRange(d, indexs)
    ensures var st := SubstituteUpTo(d, S, indexs, 1);
      |st.symbols| == 4 && st.symbols[0] == Affine([0.0, 0.0, -1.0, -1.0], 2.0) && st.symbols[1] == S[1] &&
      st.symbols[2] == S[2] && st.symbols[3] == S[3] && st.constraints == [AtMost(Affine([0.0, 0.0, 1.0, 1.0], 0.0), 2.0)]
  {
    assert SubstituteUpTo(d, S, indexs, 0) == Stage(S, []);
    DemoFirstSolved(d.A[0], S);
    DemoFirstBound(d.A[0], S);
    SubstituteStep(d, S, indexs, 1, Affine([0.0, 0.0, -1.0, -1.0], 2.0), Affine([0.0, 0.0, 1.0, 1.0], 0.0));
  }

  /** `podstanovka` on the reduced system: x_1 = 2 - x_3 - x_4 and
      x_2 = 1 - 2x_3 + x_4, under x_3 + x_4 <= 2 and 2x_3 - x_4 <= 1;
      x_3 and x_4 stay themselves. */
  lemma DemoSubstitute(d: System, indexs: seq<(nat, nat)>)
    requires d == DemoReduced() && indexs == [(0, 0), (1, 1)]
    ensures Shaped(d) && InRange(d, indexs)
    ensures Substitute(d, indexs) ==
      Stage([Affine([0.0, 0.0, -1.0, -1.0], 2.0), Affine([0.0, 0.0, -2.0, 1.0], 1.0), Affine([0.0, 0.0, 1.0, 0.0], 0.0), Affine([0.0, 0.0, 0.0, 1.0], 0.0)], [AtMost(Affine([0.0, 0.0, 1.0, 1.0], 0.0), 2.0), AtMost(Affine([0.0, 0.0, 2.0, -1.0], 0.0), 1.0)])
  {
    DemoSymbols();
    var S := Symbols(4);
    DemoSubstituteFirst(d, S, indexs);
    var T := SubstituteUpTo(d, S, indexs, 1).symbols;
    DemoSecondSolved(d.A[1], T);
    DemoSecondBound(d.A[1], T);
    SubstituteStep(d, S, indexs, 2, Affine([0.0, 0.0, -2.0, 1.0], 1.0), Affine([0.0, 0.0, 2.0, -1.0], 0.0));
    var st := SubstituteUpTo(d, S, indexs, 2);
    Four(st.symbols, Affine([0.0, 0.0, -1.0, -1.0], 2.0), Affine([0.0, 0.0, -2.0, 1.0], 1.0), Affine([0.0, 0.0, 1.0, 0.0], 0.0), Affine([0.0, 0.0, 0.0, 1.0], 0.0));
    assert st.constraints == [AtMost(Affine([0.0, 0.0, 1.0, 1.0], 0.0), 2.0), AtMost(Affine([0.0, 0.0, 2.0, -1.0], 0.0), 1.0)];
  }

  /** `create_new_f`: the objective -2x_1 - x_2 - 3x_3 - x_4 becomes
      x_3 - 5 over the expressions `podstanovka` left. */
  lemma DemoCreateNewF(f: Row, S: seq<Affine>)
    requires f == [-2.0, -1.0, -3.0, -1.0] && Square(S) && |S| == 4
    requires S[0] == Affine([0.0, 0.0, -1.0, -1.0], 2.0) && S[1] == Affine([0.0, 0.0, -2.0, 1.0], 1.0) && S[2] == Affine([0.0, 0.0, 1.0, 0.0], 0.0) && S[3] == Affine([0.0, 0.0, 0.0, 1.0], 0.0)
    ensures CreateNewF(f, S) == Ok(Affine([0.0, 0.0, 1.0, 0.0], -5.0))
  {
    var zero := Affine(seq(4, _ => 0.0), 0.0);
    assert NewF(f, S, 0) == zero;
    var a, b, c := Affine([0.0, 0.0, 2.0, 2.0], -4.0), Affine([0.0, 0.0, 4.0, 1.0], -5.0), Affine([0.0, 0.0, 1.0, 1.0], -5.0);
    AddTimesFour(zero, -2.0, S[0], a);
    assert NewF(f, S, 1) == a;
    AddTimesFour(a, -1.0, S[1], b);
    assert NewF(f, S, 2) == b;
    AddTimesFour(b, -3.0, S[2], c);
    assert NewF(f, S, 3) == c;
    AddTimesFour(c, -1.0, S[3], Affine([0.0, 0.0, 1.0, 0.0], -5.0));
  }

  /** The demonstration as the module's `__main__` block runs it: `doit`,
      a passing `check_matrix`, `podstanovka` on the pairs it found and
      `create_new_f` for the objective -2x_1 - x_2 - 3x_3 - x_4. */
  lemma DemoRun()
    ensures Shaped(DemoSystem()) && Reducible(DemoSystem(), 0)
    ensures var d := Doit(DemoSystem());
      d == DemoReduced() && Suitable(d) && InRange(d, Indexs(d)) &&
      var st := Substitute(d, Indexs(d));
      st.constraints == [AtMost(Affine([0.0, 0.0, 1.0, 1.0], 0.0), 2.0), AtMost(Affine([0.0, 0.0, 2.0, -1.0], 0.0), 1.0)] &&
      CreateNewF([-2.0, -1.0, -3.0, -1.0], st.symbols) == Ok(Affine([0.0, 0.0, 1.0, 0.0], -5.0))
  {
    DemoDoit();
    DemoCheckMatrix();
    var d := DemoReduced();
    DemoSubstitute(d, Indexs(d));
    var st := Substitute(d, Indexs(d));
    DemoCreateNewF([-2.0, -1.0, -3.0, -1.0], st.symbols);
  }

  // ---------------------------------------------------------------------
  // A single-entry column whose entry is not one

  /** x_1 + 3x_3 = 1 and x_2 = 1: already reduced, but column 2 holds a
      single non-zero entry, 3. */
  function ThreeSystem(): System
  {
    System([[1.0, 0.0, 3.0, 0.0], [0.0, 1.0, 0.0, 0.0]], [1.0, 1.0], 4)
  }

  /** `doit` leaves the system as it is. */
  lemma ThreeDoit()
    ensures Shaped(ThreeSystem()) && Reducible(ThreeSystem(), 0)
    ensures Doit(ThreeSystem()) == ThreeSystem()
  {
    var s := ThreeSystem();
    assert FirstNonZero(s.A, 0, 0) == Some(0);
    var t0 := Eliminated(Exchanged(s, 0, 0), 0);
    assert Exchanged(s, 0, 0) == s;
    assert t0.A[0] == s.A[0];
    assert t0 == s;
    assert FirstNonZero(s.A, 1, 1) == Some(1);
    var t1 := Eliminated(Exchanged(s, 1, 1), 1);
    assert Exchanged(s, 1, 1) == s;
    assert t1.A[1] == s.A[1];
    assert t1 == s;
    assert Forward(s, 0) == s;
    var b1 := BackwardStep(s, 1);
    assert b1.A[0] == s.A[0];
    assert b1 == s;
    assert BackwardStep(s, 0) == s;
  }

  /** `check_matrix` collects column 2 with its entry 3 as a basic column,
      and passes: two entries equal one, as many as the columns less two. */
  lemma ThreeCheckMatrix()
    ensures Shaped(ThreeSystem())
    ensures Indexs(ThreeSystem()) == [(0, 0), (1, 1), (0, 2)]
    ensures Suitable(ThreeSystem()) && ThreeSystem().A[0][2] == 3.0
    ensures InRange(ThreeSystem(), Indexs(ThreeSystem())) && !UnitPivots(ThreeSystem(), Indexs(ThreeSystem()))
  {
    var d := ThreeSystem();
    assert NonZeros(d.A, 0, 2) == 1 && LastNonZero(d.A, 0, 2) == 0;
    assert NonZeros(d.A, 1, 2) == 1 && LastNonZero(d.A, 1, 2) == 1;
    assert NonZeros(d.A, 2, 2) == 1 && LastNonZero(d.A, 2, 2) == 0;
    assert NonZeros(d.A, 3, 2) == 0;
    assert IndexsUpTo(d, 3) == [(0, 0), (1, 1), (0, 2)];
    assert Ones(d.A, 0, 2) == 1 && Ones(d.A, 1, 2) == 1 && Ones(d.A, 2, 2) == 0 && Ones(d.A, 3, 2) == 0;
    assert OnesUpTo(d, 4) == 2;
    assert (0, 2) in Indexs(d);
  }

  /** Row 0 of `ThreeSystem` solved for x_1: the loop adds 3x_3 (taken
      away), so x_1 = 1 - 3x_3 ... */
  lemma ThreeFirstSolved(row: Row, S: seq<Affine>)
    requires row == [1.0, 0.0, 3.0, 0.0] && Square(S) && |S| == 4
    requires S[0] == Affine([1.0, 0.0, 0.0, 0.0], 0.0) && S[2] == Affine([0.0, 0.0, 1.0, 0.0], 0.0)
    ensures Solved(row, 1.0, 0, S) == Affine([0.0, 0.0, -3.0, 0.0], 1.0)
  {
    assert Accumulated(row, 0, S, true, 1) == S[0];
    assert Accumulated(row, 0, S, true, 2) == S[0];
    var a := Affine([1.0, 0.0, -3.0, 0.0], 0.0);
    AddTimesFour(S[0], -3.0, S[2], a);
    assert Accumulated(row, 0, S, true, 3) == a;
    assert Accumulated(row, 0, S, true, 4) == a;
    AddTimesFour(a, -1.0, S[0], Affine([0.0, 0.0, -3.0, 0.0], 0.0));
  }

  /** ... row 1 solved for x_2: the loop adds nothing, so x_2 = 1 ... */
  lemma ThreeSecondSolved(row: Row, S: seq<Affine>)
    requires row == [0.0, 1.0, 0.0, 0.0] && Square(S) && |S| == 4
    requires S[1] == Affine([0.0, 1.0, 0.0, 0.0], 0.0)
    ensures Solved(row, 1.0, 1, S) == Affine([0.0, 0.0, 0.0, 0.0], 1.0)
  {
    assert Accumulated(row, 1, S, true, 1) == S[1];
    assert Accumulated(row, 1, S, true, 2) == S[1];
    assert Accumulated(row, 1, S, true, 3) == S[1];
    assert Accumulated(row, 1, S, true, 4) == S[1];
    AddTimesFour(S[1], -1.0, S[1], Affine([0.0, 0.0, 0.0, 0.0], 0.0));
  }

  /** ... and row 0 again, for x_3: the loop adds x_1's expression 1 - 3x_3
      (taken away), so x_3 = 3x_3. */
  lemma ThreeThirdSolved(row: Row, S: seq<Affine>)
    requires row == [1.0, 0.0, 3.0, 0.0] && Square(S) && |S| == 4
    requires S[0] == Affine([0.0, 0.0, -3.0, 0.0], 1.0) && S[2] == Affine([0.0, 0.0, 1.0, 0.0], 0.0)
    ensures Solved(row, 1.0, 2, S) == Affine([0.0, 0.0, 3.0, 0.0], 0.0)
  {
    var b := Affine([0.0, 0.0, 4.0, 0.0], -1.0);
    AddTimesFour(S[2], -1.0, S[0], b);
    assert Accumulated(row, 2, S, true, 1) == b;
    assert Accumulated(row, 2, S, true, 2) == b;
    assert Accumulated(row, 2, S, true, 3) == b;
    assert Accumulated(row, 2, S, true, 4) == b;
    AddTimesFour(b, -1.0, S[2], Affine([0.0, 0.0, 3.0, 0.0], -1.0));
  }

  /** `podstanovka` on `ThreeSystem` with the pairs `check_matrix`
      collected: the expression left for x_3 is 3x_3. */
  lemma ThreeSubstitute(d: System)
    requires d == ThreeSystem()
    ensures Shaped(d) && InRange(d, Indexs(d))
    ensures Substitute(d, Indexs(d)).symbols[2] == Affine([0.0, 0.0, 3.0, 0.0], 0.0)
  {
    ThreeCheckMatrix();
    DemoSymbols();
    var S := Symbols(4);
    var indexs := Indexs(d);
    assert SubstituteUpTo(d, S, indexs, 0).symbols == S;
    ThreeFirstSolved(d.A[0], S);
    SubstituteStep(d, S, indexs, 1, Affine([0.0, 0.0, -3.0, 0.0], 1.0), Bound(d.A[0], 0, S));
    var T := SubstituteUpTo(d, S, indexs, 1).symbols;
    ThreeSecondSolved(d.A[1], T);
    SubstituteStep(d, S, indexs, 2, Affine([0.0, 0.0, 0.0, 0.0], 1.0), Bound(d.A[1], 1, T));
    var U := SubstituteUpTo(d, S, indexs, 2).symbols;
    ThreeThirdSolved(d.A[0], U);
    SubstituteStep(d, S, indexs, 3, Affine([0.0, 0.0, 3.0, 0.0], 0.0), Bound(d.A[0], 2, U));
  }

  /** An affine expression over four variables, term by term. */
  lemma EvalFour(e: Affine, v: Row)
    requires |e.coeffs| == |v| == 4
    ensures Eval(e, v) == e.coeffs[0] * v[0] + e.coeffs[1] * v[1] + e.coeffs[2] * v[2] + e.coeffs[3] * v[3] + e.constant
  {
    assert DotUpTo(e.coeffs, v, 4) == e.coeffs[0] * v[0] + e.coeffs[1] * v[1] + e.coeffs[2] * v[2] + e.coeffs[3] * v[3] by {
      assert DotUpTo(e.coeffs, v, 1) == e.coeffs[0] * v[0];
    }
  }

  /** A dot product of four terms. */
  lemma DotFour(a: Row, y: Row)
    requires |a| == |y| == 4
    ensures Dot(a, y) == a[0] * y[0] + a[1] * y[1] + a[2] * y[2] + a[3] * y[3]
  {
    assert a[3..][1..] == [] && y[3..][1..] == [];
    assert Dot(a[3..], y[3..]) == a[3] * y[3];
    assert a[2..][1..] == a[3..] && y[2..][1..] == y[3..];
    assert Dot(a[2..], y[2..]) == a[2] * y[2] + a[3] * y[3];
    assert a[1..][1..] == a[2..] && y[1..][1..] == y[2..];
    assert Dot(a[1..], y[1..]) == a[1] * y[1] + a[2] * y[2] + a[3] * y[3];
  }

  /** (-2, 1, 1, 0) solves `ThreeSystem`. */
  lemma ThreeSolution(d: System, v: Row)
    requires d == ThreeSystem() && v == [-2.0, 1.0, 1.0, 0.0]
    ensures Shaped(d) && Solves(d, v)
  {
    DotFour(d.A[0], v);
    DotFour(d.A[1], v);
  }

  /** At the solution (-2, 1, 1, 0) of `ThreeSystem`, the expression
      `podstanovka` leaves for x_3 evaluates to 3, not to x_3 = 1: it
      stands for the pivot times the variable. */
  lemma ThreeNotMeaning(d: System, v: Row)
    requires d == ThreeSystem() && v == [-2.0, 1.0, 1.0, 0.0]
    ensures Shaped(d) && InRange(d, Indexs(d)) && Solves(d, v)
    ensures Eval(Substitute(d, Indexs(d)).symbols[2], v) == 3.0 != v[2]
  {
    ThreeSubstitute(d);
    ThreeSolution(d, v);
    EvalFour(Affine([0.0, 0.0, 3.0, 0.0], 0.0), v);
  }

  // ---------------------------------------------------------------------
  // A second non-unit column, substituted after the first

  /** x_1 + 2x_3 + 3x_4 = 2 and x_2 = 1: already reduced, and columns 2
      and 3 each hold a single non-zero entry, 2 and 3, both in row 0. */
  function LaterSystem(): System
  {
    System([[1.0, 0.0, 2.0, 3.0], [0.0, 1.0, 0.0, 0.0]], [2.0, 1.0], 4)
  }

  /** `doit` leaves the system as it is. */
  lemma LaterDoit()
    ensures Shaped(LaterSystem()) && Reducible(LaterSystem(), 0)
    ensures Doit(LaterSystem()) == LaterSystem()
  {
    var s := LaterSystem();
    assert FirstNonZero(s.A, 0, 0) == Some(0);
    var t0 := Eliminated(Exchanged(s, 0, 0), 0);
    assert Exchanged(s, 0, 0) == s;
    assert t0.A[0] == s.A[0];
    assert t0 == s;
    assert FirstNonZero(s.A, 1, 1) == Some(1);
    var t1 := Eliminated(Exchanged(s, 1, 1), 1);
    assert Exchanged(s, 1, 1) == s;
    assert t1.A[1] == s.A[1];
    assert t1 == s;
    assert Forward(s, 0) == s;
    var b1 := BackwardStep(s, 1);
    assert b1.A[0] == s.A[0];
    assert b1 == s;
    assert BackwardStep(s, 0) == s;
  }

  /** `check_matrix` collects columns 2 and 3 with row 0, after the two
      unit columns, and passes. */
  lemma LaterCheckMatrix()
    ensures Shaped(LaterSystem())
    ensures Indexs(LaterSystem()) == [(0, 0), (1, 1), (0, 2), (0, 3)]
    ensures Suitable(LaterSystem()) && LaterSystem().A[0][2] == 2.0 && LaterSystem().A[0][3] == 3.0
    ensures InRange(LaterSystem(), Indexs(LaterSystem())) && !UnitPivots(LaterSystem(), Indexs(LaterSystem()))
  {
    var d := LaterSystem();
    assert NonZeros(d.A, 0, 2) == 1 && LastNonZero(d.A, 0, 2) == 0;
    assert NonZeros(d.A, 1, 2) == 1 && LastNonZero(d.A, 1, 2) == 1;
    assert NonZeros(d.A, 2, 2) == 1 && LastNonZero(d.A, 2, 2) == 0;
    assert NonZeros(d.A, 3, 2) == 1 && LastNonZero(d.A, 3, 2) == 0;
    assert IndexsUpTo(d, 4) == [(0, 0), (1, 1), (0, 2), (0, 3)];
    assert Ones(d.A, 0, 2) == 1 && Ones(d.A, 1, 2) == 1 && Ones(d.A, 2, 2) == 0 && Ones(d.A, 3, 2) == 0;
    assert OnesUpTo(d, 4) == 2;
    assert (0, 2) in Indexs(d);
  }

  /** Row 0 of `LaterSystem` solved for x_1: x_1 = 2 - 2x_3 - 3x_4 ... */
  lemma LaterFirstSolved(row: Row, S: seq<Affine>)
    requires row == [1.0, 0.0, 2.0, 3.0] && Square(S) && |S| == 4
    requires S[0] == Affine([1.0, 0.0, 0.0, 0.0], 0.0) && S[2] == Affine([0.0, 0.0, 1.0, 0.0], 0.0) && S[3] == Affine([0.0, 0.0, 0.0, 1.0], 0.0)
    ensures Solved(row, 2.0, 0, S) == Affine([0.0, 0.0, -2.0, -3.0], 2.0)
  {
    assert Accumulated(row, 0, S, true, 1) == S[0];
    assert Accumulated(row, 0, S, true, 2) == S[0];
    var a := Affine([1.0, 0.0, -2.0, 0.0], 0.0);
    AddTimesFour(S[0], -2.0, S[2], a);
    assert Accumulated(row, 0, S, true, 3) == a;
    var b := Affine([1.0, 0.0, -2.0, -3.0], 0.0);
    AddTimesFour(a, -3.0, S[3], b);
    assert Accumulated(row, 0, S, true, 4) == b;
    AddTimesFour(b, -1.0, S[0], Affine([0.0, 0.0, -2.0, -3.0], 0.0));
  }

  /** ... row 0 again, for x_3, after x_2 = 1: the expression is 2x_3,
      the pivot times the variable, as every expression so far still
      stands for its variable ... */
  lemma LaterThirdSolved(row: Row, S: seq<Affine>)
    requires row == [1.0, 0.0, 2.0, 3.0] && Square(S) && |S| == 4
    requires S[0] == Affine([0.0, 0.0, -2.0, -3.0], 2.0) && S[2] == Affine([0.0, 0.0, 1.0, 0.0], 0.0) && S[3] == Affine([0.0, 0.0, 0.0, 1.0], 0.0)
    ensures Solved(row, 2.0, 2, S) == Affine([0.0, 0.0, 2.0, 0.0], 0.0)
  {
    var a := Affine([0.0, 0.0, 3.0, 3.0], -2.0);
    AddTimesFour(S[2], -1.0, S[0], a);
    assert Accumulated(row, 2, S, true, 1) == a;
    assert Accumulated(row, 2, S, true, 2) == a;
    assert Accumulated(row, 2, S, true, 3) == a;
    var b := Affine([0.0, 0.0, 3.0, 0.0], -2.0);
    AddTimesFour(a, -3.0, S[3], b);
    assert Accumulated(row, 2, S, true, 4) == b;
    AddTimesFour(b, -1.0, S[2], Affine([0.0, 0.0, 2.0, 0.0], -2.0));
  }

  /** ... and row 0 a third time, for x_4: x_3's expression is now 2x_3,
      so x_4 = 3x_4 - 2x_3. */
  lemma LaterFourthSolved(row: Row, S: seq<Affine>)
    requires row == [1.0, 0.0, 2.0, 3.0] && Square(S) && |S| == 4
    requires S[0] == Affine([0.0, 0.0, -2.0, -3.0], 2.0) && S[2] == Affine([0.0, 0.0, 2.0, 0.0], 0.0) && S[3] == Affine([0.0, 0.0, 0.0, 1.0], 0.0)
    ensures Solved(row, 2.0, 3, S) == Affine([0.0, 0.0, -2.0, 3.0], 0.0)
  {
    var a := Affine([0.0, 0.0, 2.0, 4.0], -2.0);
    AddTimesFour(S[3], -1.0, S[0], a);
    assert Accumulated(row, 3, S, true, 1) == a;
    assert Accumulated(row, 3, S, true, 2) == a;
    var b := Affine([0.0, 0.0, -2.0, 4.0], -2.0);
    AddTimesFour(a, -2.0, S[2], b);
    assert Accumulated(row, 3, S, true, 3) == b;
    assert Accumulated(row, 3, S, true, 4) == b;
    AddTimesFour(b, -1.0, S[3], Affine([0.0, 0.0, -2.0, 3.0], -2.0));
  }

  /** The first two pairs of `podstanovka` on `LaterSystem`: x_1 is
      replaced by 2 - 2x_3 - 3x_4, then x_2 by 1. */
  lemma LaterSubstituteHead(d: System, S: seq<Affine>, indexs: seq<(nat, nat)>)
    requires d == LaterSystem() && indexs == [(0, 0), (1, 1), (0, 2), (0, 3)]
    requires Square(S) && |S| == 4 && S[0] == Affine([1.0, 0.0, 0.0, 0.0], 0.0) && S[1] == Affine([0.0, 1.0, 0.0, 0.0], 0.0)
    requires S[2] == Affine([0.0, 0.0, 1.0, 0.0], 0.0) && S[3] == Affine([0.0, 0.0, 0.0, 1.0], 0.0)
    ensures Shaped(d) && InRange(d, indexs)
    ensures var U := SubstituteUpTo(d, S, indexs, 2).symbols;
      |U| == 4 && U[0] == Affine([0.0, 0.0, -2.0, -3.0], 2.0) && U[2] == S[2] && U[3] == S[3]
  {
    assert SubstituteUpTo(d, S, indexs, 0).symbols == S;
    LaterFirstSolved(d.A[0], S);
    SubstituteStep(d, S, indexs, 1, Affine([0.0, 0.0, -2.0, -3.0], 2.0), Bound(d.A[0], 0, S));
    var T := SubstituteUpTo(d, S, indexs, 1).symbols;
    ThreeSecondSolved(d.A[1], T);
    SubstituteStep(d, S, indexs, 2, Affine([0.0, 0.0, 0.0, 0.0], 1.0), Bound(d.A[1], 1, T));
  }

  /** The last two pairs: x_3 is left as 2x_3 and x_4 as 3x_4 - 2x_3. */
  lemma LaterSubstituteTail(d: System, S: seq<Affine>, indexs: seq<(nat, nat)>)
    requires d == LaterSystem() && indexs == [(0, 0), (1, 1), (0, 2), (0, 3)]
    requires Square(S) && |S| == 4 && S[0] == Affine([1.0, 0.0, 0.0, 0.0], 0.0) && S[1] == Affine([0.0, 1.0, 0.0, 0.0], 0.0)
    requires S[2] == Affine([0.0, 0.0, 1.0, 0.0], 0.0) && S[3] == Affine([0.0, 0.0, 0.0, 1.0], 0.0)
    ensures Shaped(d) && InRange(d, indexs)
    ensures var W := SubstituteUpTo(d, S, indexs, 4).symbols;
      |W| == 4 && W[2] == Affine([0.0, 0.0, 2.0, 0.0], 0.0) && W[3] == Affine([0.0, 0.0, -2.0, 3.0], 0.0)
  {
    LaterSubstituteHead(d, S, indexs);
    var U := SubstituteUpTo(d, S, indexs, 2).symbols;
    LaterThirdSolved(d.A[0], U);
    SubstituteStep(d, S, indexs, 3, Affine([0.0, 0.0, 2.0, 0.0], 0.0), Bound(d.A[0], 2, U));
    var W := SubstituteUpTo(d, S, indexs, 3).symbols;
    LaterFourthSolved(d.A[0], W);
    SubstituteStep(d, S, indexs, 4, Affine([0.0, 0.0, -2.0, 3.0], 0.0), Bound(d.A[0], 3, W));
  }

  /** `podstanovka` on `LaterSystem` with the pairs `check_matrix`
      collected: x_3 is left as 2x_3 and x_4 as 3x_4 - 2x_3. */
  lemma LaterSubstitute(d: System)
    requires d == LaterSystem()
    ensures Shaped(d) && InRange(d, Indexs(d))
    ensures Substitute(d, Indexs(d)).symbols[2] == Affine([0.0, 0.0, 2.0, 0.0], 0.0)
    ensures Substitute(d, Indexs(d)).symbols[3] == Affine([0.0, 0.0, -2.0, 3.0], 0.0)
  {
    LaterCheckMatrix();
    DemoSymbols();
    LaterSubstituteTail(d, Symbols(4), Indexs(d));
  }

  /** (0, 1, 1, 0) solves `LaterSystem`. */
  lemma LaterSolution(d: System, v: Row)
    requires d == LaterSystem() && v == [0.0, 1.0, 1.0, 0.0]
    ensures Shaped(d) && Solves(d, v)
  {
    DotFour(d.A[0], v);
    DotFour(d.A[1], v);
  }

  /** At the solution (0, 1, 1, 0) of `LaterSystem`, the expression
      `podstanovka` leaves for x_4 evaluates to -2: neither x_4 nor the
      pivot 3 times x_4, both of which are 0. */
  lemma LaterNotMeaning(d: System, v: Row)
    requires d == LaterSystem() && v == [0.0, 1.0, 1.0, 0.0]
    ensures Shaped(d) && InRange(d, Indexs(d)) && Solves(d, v)
    ensures Eval(Substitute(d, Indexs(d)).symbols[3], v) == -2.0
    ensures v[3] == 0.0 && d.A[0][3] * v[3] == 0.0
  {
    LaterSubstitute(d);
    LaterSolution(d, v);
    LaterFourthAt(Substitute(d, Indexs(d)).symbols[3], v);
  }

  /** 3x_4 - 2x_3 at (0, 1, 1, 0). */
  lemma LaterFourthAt(e: Affine, v: Row)
    requires e == Affine([0.0, 0.0, -2.0, 3.0], 0.0) && v == [0.0, 1.0, 1.0, 0.0]
    ensures Eval(e, v) == -2.0
  {
    EvalFour(e, v);
  }
}
