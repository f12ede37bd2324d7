/** `create_symbols`, `podstanovka` and `create_new_f` of `GaussAlgorithm`
    on values.  A symbolic expression over x_1 .. x_n is affine here: a
    coefficient per variable and a constant.  `podstanovka` expresses every
    basic variable through the others, and `create_new_f` rewrites the
    objective in those terms; both are proved to agree with the variables
    they replace at every solution of the system. */
module Substitution {
  import opened Outcomes
  import opened Rows
  import opened Elimination

  /** coeffs[0] * x_1 + ... + coeffs[n-1] * x_n + constant. */
  datatype Affine = Affine(coeffs: Row, constant: real)

  /** The relation lhs <= bound that `podstanovka` appends to `constraint`. */
  datatype Constraint = AtMost(lhs: Affine, bound: real)

  /** The value of e at the point v. */
  function Eval(e: Affine, v: Row): real
    requires |e.coeffs| == |v|
  {
    DotUpTo(e.coeffs, v, |v|) + e.constant
  }

  predicate Holds(t: Constraint, v: Row)
    requires |t.lhs.coeffs| == |v|
  {
    Eval(t.lhs, v) <= t.bound
  }

  /** e + k * g. */
  function AddTimes(e: Affine, k: real, g: Affine): (r: Affine)
    requires |e.coeffs| == |g.coeffs|
    ensures |r.coeffs| == |e.coeffs|
  {
    Affine(SubScaled(e.coeffs, g.coeffs, -k), e.constant + k * g.constant)
  }

  lemma EvalAddTimes(e: Affine, k: real, g: Affine, v: Row)
    requires |e.coeffs| == |g.coeffs| == |v|
    ensures Eval(AddTimes(e, k, g), v) == Eval(e, v) + k * Eval(g, v)
  {
    DotUpToSubScaled(e.coeffs, g.coeffs, -k, v, |v|);
  }

  /** e + b. */
  function AddConstant(e: Affine, b: real): (r: Affine)
    ensures |r.coeffs| == |e.coeffs|
  {
    Affine(e.coeffs, e.constant + b)
  }

  lemma EvalAddConstant(e: Affine, b: real, v: Row)
    requires |e.coeffs| == |v|
    ensures Eval(AddConstant(e, b), v) == Eval(e, v) + b
  {
  }

  /** Every expression of S is over |S| variables. */
  predicate Square(S: seq<Affine>)
  {
    forall k :: 0 <= k < |S| ==> |S[k].coeffs| == |S|
  }

  /** S stands for the point v: each expression evaluates to its own
      variable. */
  predicate Represents(S: seq<Affine>, v: Row)
    requires Square(S) && |S| == |v|
  {
    forall k :: 0 <= k < |S| ==> Eval(S[k], v) == v[k]
  }

  // ---------------------------------------------------------------------
  // `create_symbols`

  /** The symbol x_{k+1} among n variables. */
  function Symbol(k: nat, n: nat): (e: Affine)
    requires k < n
    ensures |e.coeffs| == n
  {
    Affine(seq(n, j requires 0 <= j < n => if j == k then 1.0 else 0.0), 0.0)
  }

  /** `create_symbols`: x_1 .. x_n. */
  function Symbols(n: nat): (S: seq<Affine>)
    ensures |S| == n && Square(S)
  {
    seq(n, k requires 0 <= k < n => Symbol(k, n))
  }

  /** The symbols stand for every point. */
  lemma SymbolsRepresent(v: Row)
    ensures Represents(Symbols(|v|), v)
  {
    var S := Symbols(|v|);
    forall k | 0 <= k < |v| ensures Eval(S[k], v) == v[k] {
      DotUpToSingle(S[k].coeffs, v, k, |v|);
    }
  }

  // ---------------------------------------------------------------------
  // `podstanovka`

  /** The inner loop of `podstanovka` over the columns before n of `row`:
      starting from S[c], every other column with a non-zero coefficient
      adds coefficient * S[col], or its negation when `negated` (x is
      accumulated negated, y not). */
  function Accumulated(row: Row, c: nat, S: seq<Affine>, negated: bool, n: nat): (e: Affine)
    requires Square(S) && |row| == |S| && c < |S| && n <= |S|
    ensures |e.coeffs| == |S|
  {
    if n == 0 then S[c]
    else
      var e := Accumulated(row, c, S, negated, n - 1);
      if n - 1 != c && row[n - 1] != 0.0 then AddTimes(e, Signed(negated, row[n - 1]), S[n - 1]) else e
  }

  /** -1 * a when negated, 1 * a otherwise. */
  function Signed(negated: bool, a: real): real
  {
    if negated then -1.0 * a else 1.0 * a
  }

  /** The sum of row[col] * v[col] over the columns before n other than c
      whose coefficient is non-zero: what the loop adds, up to the sign. */
  function Others(row: Row, c: nat, v: Row, n: nat): real
    requires |row| == |v| && n <= |row|
  {
    if n == 0 then 0.0
    else Others(row, c, v, n - 1) + if n - 1 != c && row[n - 1] != 0.0 then row[n - 1] * v[n - 1] else 0.0
  }

  /** Where S stands for v, the loop has added `Others`, or taken it away
      when negated. */
  lemma {:induction false} AccumulatedEval(row: Row, c: nat, S: seq<Affine>, negated: bool, n: nat, v: Row)
    requires Square(S) && |row| == |S| == |v| && c < |S| && n <= |S| && Represents(S, v)
    ensures Eval(Accumulated(row, c, S, negated, n), v) == v[c] + Signed(negated, Others(row, c, v, n))
  {
    if n > 0 {
      AccumulatedEval(row, c, S, negated, n - 1, v);
      assert Eval(S[n - 1], v) == v[n - 1];
      AccumulatedStep(row, c, S, negated, n, v);
    }
  }

  /** One column of `AccumulatedEval`. */
  lemma AccumulatedStep(row: Row, c: nat, S: seq<Affine>, negated: bool, n: nat, v: Row)
    requires Square(S) && |row| == |S| == |v| && c < |S| && 0 < n <= |S|
    requires Eval(Accumulated(row, c, S, negated, n - 1), v) == v[c] + Signed(negated, Others(row, c, v, n - 1))
    requires Eval(S[n - 1], v) == v[n - 1]
    ensures Eval(Accumulated(row, c, S, negated, n), v) == v[c] + Signed(negated, Others(row, c, v, n))
  {
    if n - 1 != c && row[n - 1] != 0.0 {
      var e := Accumulated(row, c, S, negated, n - 1);
      var o := Others(row, c, v, n - 1);
      if negated {
        AddTimesGlue(e, S[n - 1], row[n - 1], true, v, v[c], o, v[n - 1]);
      } else {
        AddTimesGlue(e, S[n - 1], row[n - 1], false, v, v[c], o, v[n - 1]);
      }
    }
  }

  lemma AddTimesGlue(e: Affine, g: Affine, a: real, negated: bool, v: Row, vc: real, o: real, y: real)
    requires |e.coeffs| == |g.coeffs| == |v|
    requires Eval(e, v) == vc + Signed(negated, o) && Eval(g, v) == y
    ensures Eval(AddTimes(e, Signed(negated, a), g), v) == vc + Signed(negated, o + a * y)
  {
    EvalAddTimes(e, Signed(negated, a), g, v);
    SignedStep(negated, o, a, y);
  }

  lemma SignedStep(negated: bool, o: real, a: real, y: real)
    ensures Signed(negated, o) + Signed(negated, a) * y == Signed(negated, o + a * y)
  {
  }

  /** `Others` over the whole row is the dot product less the term of
      column c. */
  lemma {:induction false} OthersDot(row: Row, c: nat, v: Row, n: nat)
    requires |row| == |v| && n <= |row|
    ensures Others(row, c, v, n) == DotUpTo(row, v, n) - if c < n then row[c] * v[c] else 0.0
  {
    if n > 0 {
      OthersDot(row, c, v, n - 1);
    }
  }

  /** The new expression for basic column c from row r: x after the loop,
      less S[c], plus rhs[r]. */
  function Solved(row: Row, b: real, c: nat, S: seq<Affine>): (e: Affine)
    requires Square(S) && |row| == |S| && c < |S|
    ensures |e.coeffs| == |S|
  {
    AddConstant(AddTimes(Accumulated(row, c, S, true, |S|), -1.0, S[c]), b)
  }

  /** The left-hand side of the constraint from row r: y after the loop,
      less S[c]. */
  function Bound(row: Row, c: nat, S: seq<Affine>): (e: Affine)
    requires Square(S) && |row| == |S| && c < |S|
    ensures |e.coeffs| == |S|
  {
    AddTimes(Accumulated(row, c, S, false, |S|), -1.0, S[c])
  }

  /** Others over the whole row, with column c inside it. */
  lemma OthersAll(row: Row, c: nat, v: Row)
    requires |row| == |v| && c < |row|
    ensures Others(row, c, v, |row|) == DotUpTo(row, v, |row|) - row[c] * v[c]
  {
    OthersDot(row, c, v, |row|);
  }

  /** Where S stands for v, S[k] evaluates to v[k]. */
  lemma RepresentsAt(S: seq<Affine>, v: Row, k: nat)
    requires Square(S) && |S| == |v| && Represents(S, v) && k < |S|
    ensures Eval(S[k], v) == v[k]
  {
  }

  /** At a point where S stands for v and row·v = b, the new expression
      for column c has the value row[c] * v[c]. */
  lemma SolvedEval(row: Row, b: real, c: nat, S: seq<Affine>, v: Row)
    requires Square(S) && |row| == |S| == |v| && c < |S| && Represents(S, v)
    requires DotUpTo(row, v, |v|) == b
    ensures Eval(Solved(row, b, c, S), v) == row[c] * v[c]
  {
    var acc := Accumulated(row, c, S, true, |S|);
    var less := AddTimes(acc, -1.0, S[c]);
    EvalAddTimes(acc, -1.0, S[c], v);
    AccumulatedEval(row, c, S, true, |S|, v);
    OthersAll(row, c, v);
    RepresentsAt(S, v, c);
    EvalAddConstant(less, b, v);
    SolvedGlue(Eval(AddConstant(less, b), v), Eval(less, v), Eval(acc, v), Eval(S[c], v), v[c],
               Others(row, c, v, |S|), DotUpTo(row, v, |S|), b, row[c] * v[c]);
  }

  /** The arithmetic of `SolvedEval`. */
  lemma SolvedGlue(es: real, el: real, ea: real, ec: real, vc: real, o: real, d: real, b: real, p: real)
    requires es == el + b
    requires el == ea + -1.0 * ec
    requires ea == vc + Signed(true, o)
    requires ec == vc
    requires o == d - p
    requires d == b
    ensures es == p
  {
  }

  /** At a point where S stands for v and row·v = b, the left-hand side of
      the constraint from row r is b - row[c] * v[c]. */
  lemma BoundEval(row: Row, b: real, c: nat, S: seq<Affine>, v: Row)
    requires Square(S) && |row| == |S| == |v| && c < |S| && Represents(S, v)
    requires DotUpTo(row, v, |v|) == b
    ensures Eval(Bound(row, c, S), v) == b - row[c] * v[c]
  {
    var acc := Accumulated(row, c, S, false, |S|);
    var less := AddTimes(acc, -1.0, S[c]);
    EvalAddTimes(acc, -1.0, S[c], v);
    AccumulatedEval(row, c, S, false, |S|, v);
    OthersAll(row, c, v);
    RepresentsAt(S, v, c);
    BoundGlue(Eval(less, v), Eval(acc, v), Eval(S[c], v), v[c],
              Others(row, c, v, |S|), DotUpTo(row, v, |S|), b, row[c] * v[c]);
  }

  /** The arithmetic of `BoundEval`. */
  lemma BoundGlue(el: real, ea: real, ec: real, vc: real, o: real, d: real, b: real, p: real)
    requires el == ea + -1.0 * ec
    requires ea == vc + Signed(false, o)
    requires ec == vc
    requires o == d - p
    requires d == b
    ensures el == b - p
  {
  }

  /** Every entry of `indexs` names a row and a column of the system. */
  predicate InRange(s: System, indexs: seq<(nat, nat)>)
  {
    forall e :: e in indexs ==> e.0 < |s.A| && e.1 < s.cols
  }

  /** Every entry of `indexs` names a pivot equal to one, as the columns
      `doit` reduces have. */
  predicate UnitPivots(s: System, indexs: seq<(nat, nat)>)
    requires Shaped(s) && InRange(s, indexs)
  {
    forall e :: e in indexs ==> s.A[e.0][e.1] == 1.0
  }

  /** The expressions and the constraints `podstanovka` holds. */
  datatype Stage = Stage(symbols: seq<Affine>, constraints: seq<Constraint>)

  /** `podstanovka` after the first k entries of `indexs`, from the
      expressions S. */
  function SubstituteUpTo(s: System, S: seq<Affine>, indexs: seq<(nat, nat)>, k: nat): (st: Stage)
    requires Shaped(s) && InRange(s, indexs) && Square(S) && |S| == s.cols && k <= |indexs|
    ensures Square(st.symbols) && |st.symbols| == s.cols && |st.constraints| == k
    ensures forall t :: 0 <= t < k ==> |st.constraints[t].lhs.coeffs| == s.cols
  {
    if k == 0 then Stage(S, [])
    else
      var st := SubstituteUpTo(s, S, indexs, k - 1);
      var (r, c) := indexs[k - 1];
      assert indexs[k - 1] in indexs;
      Stage(st.symbols[c := Solved(s.A[r], s.rhs[r], c, st.symbols)],
            st.constraints + [AtMost(Bound(s.A[r], c, st.symbols), s.rhs[r])])
  }

  /** `podstanovka` over all of `indexs`, from `create_symbols`. */
  function Substitute(s: System, indexs: seq<(nat, nat)>): (st: Stage)
    requires Shaped(s) && InRange(s, indexs)
    ensures Square(st.symbols) && |st.symbols| == s.cols && |st.constraints| == |indexs|
  {
    SubstituteUpTo(s, Symbols(s.cols), indexs, |indexs|)
  }

  /** At every solution v of the system, where the pivots are one: the
      substituted expressions still stand for v, and constraint t holds
      exactly when the variable of its column is non-negative. */
  lemma {:induction false} SubstituteUpToMeaning(s: System, S: seq<Affine>, indexs: seq<(nat, nat)>, k: nat, v: Row)
    requires Shaped(s) && InRange(s, indexs) && UnitPivots(s, indexs) && k <= |indexs|
    requires |v| == s.cols && Solves(s, v)
    requires Square(S) && |S| == s.cols && Represents(S, v)
    ensures Represents(SubstituteUpTo(s, S, indexs, k).symbols, v)
    ensures forall t :: 0 <= t < k ==>
      (Holds(SubstituteUpTo(s, S, indexs, k).constraints[t], v) <==> v[indexs[t].1] >= 0.0)
  {
    if k > 0 {
      SubstituteUpToMeaning(s, S, indexs, k - 1, v);
      SubstituteStepMeaning(s, S, indexs, k, v);
    }
  }

  /** Entry k-1 of `indexs` keeps what the entries before it established:
      the expressions stand for v, and each constraint holds exactly when
      its column's variable is non-negative. */
  lemma SubstituteStepMeaning(s: System, S: seq<Affine>, indexs: seq<(nat, nat)>, k: nat, v: Row)
    requires Shaped(s) && InRange(s, indexs) && UnitPivots(s, indexs) && 0 < k <= |indexs|
    requires |v| == s.cols && Solves(s, v)
    requires Square(S) && |S| == s.cols
    requires Represents(SubstituteUpTo(s, S, indexs, k - 1).symbols, v)
    requires forall t :: 0 <= t < k - 1 ==>
      (Holds(SubstituteUpTo(s, S, indexs, k - 1).constraints[t], v) <==> v[indexs[t].1] >= 0.0)
    ensures Represents(SubstituteUpTo(s, S, indexs, k).symbols, v)
    ensures forall t :: 0 <= t < k ==>
      (Holds(SubstituteUpTo(s, S, indexs, k).constraints[t], v) <==> v[indexs[t].1] >= 0.0)
  {
    var st := SubstituteUpTo(s, S, indexs, k - 1);
    var (r, c) := indexs[k - 1];
    assert indexs[k - 1] in indexs;
    var row := s.A[r];
    assert DotUpTo(row, v, |v|) == s.rhs[r] by {
      DotUpToAll(row, v);
    }
    assert row[c] * v[c] == v[c];
    SolvedStep(row, s.rhs[r], c, st.symbols, v);
    BoundStep(row, s.rhs[r], c, st.symbols, v);
    var next := SubstituteUpTo(s, S, indexs, k);
    assert next.constraints[..k - 1] == st.constraints;
    forall t | 0 <= t < k
      ensures Holds(next.constraints[t], v) <==> v[indexs[t].1] >= 0.0
    {
      if t < k - 1 {
        assert next.constraints[t] == st.constraints[t];
      }
    }
  }

  /** One entry of `indexs`: at a solution v, with the pivot equal to one,
      the new expression for column c still stands for v[c]. */
  lemma SolvedStep(row: Row, b: real, c: nat, S: seq<Affine>, v: Row)
    requires Square(S) && |row| == |S| == |v| && c < |S| && Represents(S, v)
    requires DotUpTo(row, v, |v|) == b && row[c] * v[c] == v[c]
    ensures Represents(S[c := Solved(row, b, c, S)], v)
  {
    var e := Solved(row, b, c, S);
    SolvedEval(row, b, c, S, v);
    RepresentsUpdate(S, v, c, e);
  }

  /** One entry of `indexs`: at a solution v, with the pivot equal to one,
      the new constraint holds exactly when v[c] is non-negative. */
  lemma BoundStep(row: Row, b: real, c: nat, S: seq<Affine>, v: Row)
    requires Square(S) && |row| == |S| == |v| && c < |S| && Represents(S, v)
    requires DotUpTo(row, v, |v|) == b && row[c] * v[c] == v[c]
    ensures Holds(AtMost(Bound(row, c, S), b), v) <==> v[c] >= 0.0
  {
    var y := Bound(row, c, S);
    BoundEval(row, b, c, S, v);
    AtMostAt(y, b, v, row[c] * v[c], v[c]);
  }

  /** Replacing expression c by one with the value v[c] keeps S standing
      for v. */
  lemma RepresentsUpdate(S: seq<Affine>, v: Row, c: nat, e: Affine)
    requires Square(S) && |S| == |v| && c < |S| && Represents(S, v)
    requires |e.coeffs| == |S| && Eval(e, v) == v[c]
    ensures Square(S[c := e]) && Represents(S[c := e], v)
  {
    var S' := S[c := e];
    forall k | 0 <= k < |S'|
      ensures Eval(S'[k], v) == v[k]
    {
      if k != c {
        assert S'[k] == S[k];
      }
    }
  }

  /** A left-hand side worth b - x at v is at most b exactly when x is
      non-negative. */
  lemma AtMostAt(y: Affine, b: real, v: Row, p: real, x: real)
    requires |y.coeffs| == |v| && Eval(y, v) == b - p && p == x
    ensures Holds(AtMost(y, b), v) <==> x >= 0.0
  {
  }

  /** `podstanovka` keeps its promise at every solution. */
  lemma SubstituteMeaning(s: System, indexs: seq<(nat, nat)>, v: Row)
    requires Shaped(s) && InRange(s, indexs) && UnitPivots(s, indexs)
    requires |v| == s.cols && Solves(s, v)
    ensures Represents(Substitute(s, indexs).symbols, v)
    ensures forall t :: 0 <= t < |indexs| ==>
      (Holds(Substitute(s, indexs).constraints[t], v) <==> v[indexs[t].1] >= 0.0)
  {
    SymbolsRepresent(v);
    SubstituteUpToMeaning(s, Symbols(s.cols), indexs, |indexs|, v);
  }

  // ---------------------------------------------------------------------
  // `create_new_f`

  /** The objective after the coefficients before n: f[0] * S[0] + ... +
      f[n-1] * S[n-1].  (The placeholder symbol the source adds first and
      subtracts last cancels out.) */
  function NewF(f: Row, S: seq<Affine>, n: nat): (e: Affine)
    requires Square(S) && n <= |f| && n <= |S|
    ensures |e.coeffs| == |S|
  {
    if n == 0 then Affine(seq(|S|, _ => 0.0), 0.0)
    else AddTimes(NewF(f, S, n - 1), f[n - 1], S[n - 1])
  }

  /** `create_new_f`: fails when the objective has more coefficients than
      there are expressions. */
  function CreateNewF(f: Row, S: seq<Affine>): (r: Result<Affine>)
    requires Square(S)
    ensures r.Err? <==> |f| > |S|
    ensures r.Err? ==> r.error == IndexOutOfRange
  {
    if |f| > |S| then Err(IndexOutOfRange) else Ok(NewF(f, S, |f|))
  }

  lemma {:induction false} NewFEval(f: Row, S: seq<Affine>, n: nat, v: Row)
    requires Square(S) && n <= |f| <= |S| == |v| && Represents(S, v)
    ensures Eval(NewF(f, S, n), v) == DotUpTo(f, v[..|f|], n)
  {
    if n == 0 {
      DotUpToSingle(seq(|S|, _ => 0.0), v, |v|, |v|);
    } else {
      NewFEval(f, S, n - 1, v);
      EvalAddTimes(NewF(f, S, n - 1), f[n - 1], S[n - 1], v);
      assert v[..|f|][n - 1] == v[n - 1];
    }
  }

  /** Where S stands for v, the new objective has the value of the old one,
      f · v, on the variables it names. */
  lemma CreateNewFMeaning(f: Row, S: seq<Affine>, v: Row)
    requires Square(S) && |S| == |v| && Represents(S, v) && |f| <= |S|
    ensures CreateNewF(f, S).Ok?
    ensures Eval(CreateNewF(f, S).value, v) == Dot(f, v[..|f|])
  {
    NewFEval(f, S, |f|, v);
    DotUpToAll(f, v[..|f|]);
  }

  /** Together: after `check_matrix` on a reduced system, the objective
      `podstanovka` leaves agrees with f · v at every solution v. */
  lemma PodstanovkaKeepsObjective(s: System, indexs: seq<(nat, nat)>, f: Row, v: Row)
    requires Shaped(s) && InRange(s, indexs) && UnitPivots(s, indexs)
    requires |v| == s.cols && Solves(s, v) && |f| <= s.cols
    ensures CreateNewF(f, Substitute(s, indexs).symbols).Ok?
    ensures Eval(CreateNewF(f, Substitute(s, indexs).symbols).value, v) == Dot(f, v[..|f|])
  {
    SubstituteMeaning(s, indexs, v);
    CreateNewFMeaning(f, Substitute(s, indexs).symbols, v);
  }
}
