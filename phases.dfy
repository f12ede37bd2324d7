/** The stages of the simplex solver around the pivoting loop, as functions
    of the tableau: the phase-1 set-up, `delete_r_vars`,
    `update_objective_fun`, the price-out of the basic columns, the reading
    of the solution, and the whole run that `Simplex.__init__` performs. */
module Phases {
  import opened Outcomes
  import opened PyText
  import opened Rows
  import opened Construct
  import opened Pivoting

  // ---------------------------------------------------------------------
  // Phase 1 set-up

  /** Row 0 with every position from `from` up to, not including, the
      right-hand side set to -1: the cost of each artificial column. */
  function ArtificialCosts(row0: Row, from: nat): (r: Row)
    ensures |r| == |row0|
  {
    seq(|row0|, j requires 0 <= j < |row0| => if from <= j < |row0| - 1 then -1.0 else row0[j])
  }

  /** Every listed row is a constraint row of M. */
  predicate ListsRows(M: Matrix, rows: seq<nat>)
  {
    forall t :: 0 <= t < |rows| ==> 1 <= rows[t] < |M|
  }

  /** Row 0 after `row0 = add_row(row0, M[i])` for each listed row i. */
  function AddRows(row0: Row, M: Matrix, rows: seq<nat>): (r: Row)
    requires Rectangular(M) && |row0| == |M[0]| && ListsRows(M, rows)
    ensures |r| == |row0|
    decreases |rows|
  {
    if rows == [] then row0 else AddRows(AddRow(row0, M[rows[0]]), M, rows[1..])
  }

  /** The sum of column j over the listed rows. */
  function ColumnSum(M: Matrix, rows: seq<nat>, j: nat): real
    requires Rectangular(M) && j < |M[0]| && ListsRows(M, rows)
    decreases |rows|
  {
    if rows == [] then 0.0 else M[rows[0]][j] + ColumnSum(M, rows[1..], j)
  }

  /** Adding the listed rows adds, column by column, their sum. */
  lemma {:induction false} AddRowsSums(row0: Row, M: Matrix, rows: seq<nat>)
    requires Rectangular(M) && |row0| == |M[0]| && ListsRows(M, rows)
    ensures forall j :: 0 <= j < |row0| ==> AddRows(row0, M, rows)[j] == row0[j] + ColumnSum(M, rows, j)
    decreases |rows|
  {
    if rows != [] {
      var next := AddRow(row0, M[rows[0]]);
      AddRowsSums(next, M, rows[1..]);
    }
  }

  /** Adding constraint rows does not look at row 0. */
  lemma {:induction false} AddRowsIgnoresCostRow(row0: Row, M: Matrix, y: Row, rows: seq<nat>)
    requires Rectangular(M) && |row0| == |M[0]| && |y| == |M[0]| && ListsRows(M, rows)
    ensures Rectangular(M[0 := y]) && ListsRows(M[0 := y], rows)
    ensures AddRows(row0, M[0 := y], rows) == AddRows(row0, M, rows)
    decreases |rows|
  {
    if rows != [] {
      AddRowsIgnoresCostRow(AddRow(row0, M[rows[0]]), M, y, rows[1..]);
    }
  }

  /** `basic_vars[i] = r_index; r_index += 1` for each listed row i. */
  function MarkArtificial(basic: seq<nat>, rows: seq<nat>, next: nat): (b: seq<nat>)
    requires forall t :: 0 <= t < |rows| ==> rows[t] < |basic|
    ensures |b| == |basic|
    decreases |rows|
  {
    if rows == [] then basic else MarkArtificial(basic[rows[0] := next], rows[1..], next + 1)
  }

  /** An unlisted row keeps its entry; a row listed exactly once at
      position t gets column `next + t`. */
  lemma {:induction false} MarkArtificialMeans(basic: seq<nat>, rows: seq<nat>, next: nat)
    requires forall t :: 0 <= t < |rows| ==> rows[t] < |basic|
    ensures var b := MarkArtificial(basic, rows, next);
      && (forall i :: 0 <= i < |basic| && i !in rows ==> b[i] == basic[i])
      && (forall t :: 0 <= t < |rows| && (forall u :: 0 <= u < |rows| && u != t ==> rows[u] != rows[t])
            ==> b[rows[t]] == next + t)
    decreases |rows|
  {
    if rows != [] {
      var rest := rows[1..];
      MarkArtificialMeans(basic[rows[0] := next], rest, next + 1);
      var b := MarkArtificial(basic, rows, next);
      forall t | 0 <= t < |rows| && (forall u :: 0 <= u < |rows| && u != t ==> rows[u] != rows[t])
        ensures b[rows[t]] == next + t
      {
        if t == 0 {
          assert rows[0] !in rest by {
            forall u | 0 <= u < |rest| ensures rest[u] != rows[0] {
              assert rest[u] == rows[u + 1];
            }
          }
        } else {
          assert rest[t - 1] == rows[t];
          forall u | 0 <= u < |rest| && u != t - 1 ensures rest[u] != rest[t - 1] {
            assert rest[u] == rows[u + 1];
          }
        }
      }
    }
  }

  /** The number of zero entries of basic at positions lo .. hi-1. */
  function ZerosBetween(basic: seq<nat>, lo: nat, hi: nat): nat
    requires lo <= hi <= |basic|
    decreases hi - lo
  {
    if lo == hi then 0 else (if basic[lo] == 0 then 1 else 0) + ZerosBetween(basic, lo + 1, hi)
  }

  /** The slack loop from position i on: each entry still 0 gets the next
      slack column. */
  function MarkSlack(basic: seq<nat>, i: nat, next: nat): (b: seq<nat>)
    requires 1 <= i <= |basic|
    ensures |b| == |basic|
    decreases |basic| - i
  {
    if i == |basic| then basic
    else if basic[i] == 0 then MarkSlack(basic[i := next], i + 1, next + 1)
    else MarkSlack(basic, i + 1, next)
  }

  /** Positions before i are untouched; from i on, a non-zero entry stays
      and a zero entry becomes `next` plus the number of zeros before it. */
  lemma {:induction false} MarkSlackMeans(basic: seq<nat>, i: nat, next: nat)
    requires 1 <= i <= |basic|
    ensures var b := MarkSlack(basic, i, next);
      && (forall j :: 0 <= j < i ==> b[j] == basic[j])
      && (forall j :: i <= j < |basic| ==>
            b[j] == if basic[j] == 0 then next + ZerosBetween(basic, i, j) else basic[j])
    decreases |basic| - i
  {
    if i < |basic| {
      var basic' := if basic[i] == 0 then basic[i := next] else basic;
      var next' := if basic[i] == 0 then next + 1 else next;
      MarkSlackMeans(basic', i + 1, next');
      var b := MarkSlack(basic, i, next);
      forall j | i + 1 <= j < |basic|
        ensures b[j] == if basic[j] == 0 then next + ZerosBetween(basic, i, j) else basic[j]
      {
        ZerosBetweenSame(basic, basic', i + 1, j);
      }
    }
  }

  lemma {:induction false} ZerosBetweenSame(a: seq<nat>, b: seq<nat>, lo: nat, hi: nat)
    requires lo <= hi <= |a| == |b| && forall j :: lo <= j < hi ==> a[j] == b[j]
    ensures ZerosBetween(a, lo, hi) == ZerosBetween(b, lo, hi)
    decreases hi - lo
  {
    if lo < hi {
      ZerosBetweenSame(a, b, lo + 1, hi);
    }
  }

  /** What phase 1 starts from: the artificial costs, the artificial rows
      added into row 0, the artificial columns made basic in their rows and
      the slack columns in the rest. */
  function Phase1Start(M: Matrix, rRows: seq<nat>, countVars: nat, numS: nat): (t: Tableau)
    requires Rectangular(M) && ListsRows(M, rRows)
    ensures WellFormed(t) && |t.matrix| == |M| && |t.matrix[0]| == |M[0]|
  {
    var rIndex := countVars + numS;
    var row0 := AddRows(ArtificialCosts(M[0], rIndex), M, rRows);
    var basic := MarkSlack(MarkArtificial(seq(|M|, _ => 0), rRows, rIndex), 1, countVars);
    Tableau(M[0 := row0], basic)
  }

  /** Phase 1's cost row is -1 on each artificial column plus the sum of the
      artificial rows; the constraint rows are the given ones. */
  lemma Phase1CostRow(M: Matrix, rRows: seq<nat>, countVars: nat, numS: nat)
    requires Rectangular(M) && ListsRows(M, rRows)
    ensures var t := Phase1Start(M, rRows, countVars, numS); var w := |M[0]|;
      && t.matrix[1..] == M[1..]
      && forall j :: 0 <= j < w ==>
           t.matrix[0][j] == (if countVars + numS <= j < w - 1 then -1.0 else M[0][j]) + ColumnSum(M, rRows, j)
  {
    AddRowsSums(ArtificialCosts(M[0], countVars + numS), M, rRows);
  }

  /** In the phase-1 start, row 0 keeps its basis entry 0, an artificial row
      listed once gets its artificial column, and every other constraint row
      whose entry was left at 0 gets the next slack column in order. */
  lemma Phase1Basis(M: Matrix, rRows: seq<nat>, countVars: nat, numS: nat)
    requires Rectangular(M) && ListsRows(M, rRows)
    ensures var b := Phase1Start(M, rRows, countVars, numS).basic;
      var a := MarkArtificial(seq(|M|, _ => 0), rRows, countVars + numS);
      && b[0] == 0
      && (forall t :: 0 <= t < |rRows| && countVars + numS + t > 0
            && (forall u :: 0 <= u < |rRows| && u != t ==> rRows[u] != rRows[t])
            ==> b[rRows[t]] == countVars + numS + t)
      && (forall i :: 1 <= i < |M| && i !in rRows ==> b[i] == countVars + ZerosBetween(a, 1, i))
  {
    var zero: seq<nat> := seq(|M|, _ => 0);
    var a := MarkArtificial(zero, rRows, countVars + numS);
    var b := MarkSlack(a, 1, countVars);
    assert b == Phase1Start(M, rRows, countVars, numS).basic;
    MarkArtificialMeans(zero, rRows, countVars + numS);
    MarkSlackMeans(a, 1, countVars);
    assert 0 !in rRows;
    assert b[0] == 0 by {
      assert a[0] == zero[0];
    }
    forall i | 1 <= i < |M| && i !in rRows
      ensures b[i] == countVars + ZerosBetween(a, 1, i)
    {
      assert a[i] == zero[i] == 0;
    }
  }

  // ---------------------------------------------------------------------
  // `delete_r_vars`

  /** Every row cut down to `width` entries, keeping its right-hand side. */
  function DeleteRVars(M: Matrix, width: nat): (R: Matrix)
    requires 1 <= width && forall i :: 0 <= i < |M| ==> width <= |M[i]|
    ensures |R| == |M|
  {
    seq(|M|, i requires 0 <= i < |M| => Truncated(M[i], width))
  }

  /** The cut tableau is rectangular of the new width; each row keeps its
      first width-1 entries and its right-hand side; a tableau that already
      has the width is unchanged. */
  lemma DeleteRVarsKeeps(M: Matrix, width: nat)
    requires Rectangular(M) && 1 <= width <= |M[0]|
    ensures var R := DeleteRVars(M, width);
      && Rectangular(R) && |R[0]| == width
      && (forall i, j :: 0 <= i < |M| && 0 <= j < width - 1 ==> R[i][j] == M[i][j])
      && (forall i :: 0 <= i < |M| ==> R[i][width - 1] == M[i][|M[0]| - 1])
      && (|M[0]| == width ==> R == M)
  {
    var R := DeleteRVars(M, width);
    forall i | 0 <= i < |M|
      ensures |R[i]| == width && R[i][width - 1] == M[i][|M[0]| - 1]
      ensures forall j :: 0 <= j < width - 1 ==> R[i][j] == M[i][j]
      ensures |M[0]| == width ==> R[i] == M[i]
    {
      TruncatedKeeps(M[i], width);
    }
  }

  // ---------------------------------------------------------------------
  // `update_objective_fun`

  /** Reading word t of the objective; `negate` says whether the word before
      it is "-".  The coefficient text gets "/1" appended and is negated
      unless the previous word is "-". */
  function ObjectiveToken(t: string, negate: bool): Token
  {
    if '_' in t then
      var parts := Split(t, '_');
      if |parts| != 2 then Malformed(BadToken)
      else
        match ParseFraction((if negate then "" else "-") + DropLast(parts[0]) + "/1")
        case None => Malformed(InvalidLiteral)
        case Some(v) =>
          match ParseInt(parts[1])
          case None => Malformed(InvalidLiteral)
          case Some(k) => Coefficient(v, k)
    else Other
  }

  /** The words of the objective, `objective_fun.split()`, each read with
      the word before it. */
  function ObjectiveTokens(text: string): (r: seq<Token>)
    ensures |r| == |Words(text)|
  {
    var w := Words(text);
    seq(|w|, j requires 0 <= j < |w| => ObjectiveToken(w[j], Previous(w, j) == "-"))
  }

  /** Tokens j .. of the objective written into row 0, stopping at the first
      error. */
  function ObjectiveFrom(row0: Row, tokens: seq<Token>, j: nat): (r: Result<Row>)
    requires j <= |tokens|
    ensures r.Ok? ==> |r.value| == |row0|
    decreases |tokens| - j
  {
    if j == |tokens| then Ok(row0)
    else
      match tokens[j]
      case Malformed(e) => Err(e)
      case Coefficient(v, k) =>
        (match PyIndex(k - 1, |row0|)
         case None => Err(IndexOutOfRange)
         case Some(q) => ObjectiveFrom(row0[q := v], tokens, j + 1))
      case _ => ObjectiveFrom(row0, tokens, j + 1)
  }

  /** A coefficient word naming a column overwrites that entry and the
      rest of the words go on from there. */
  lemma ObjectiveFromCoefficient(row0: Row, tokens: seq<Token>, j: nat, v: real, k: int, q: nat)
    requires j < |tokens| && tokens[j] == Coefficient(v, k) && PyIndex(k - 1, |row0|) == Some(q)
    ensures ObjectiveFrom(row0, tokens, j) == ObjectiveFrom(row0[q := v], tokens, j + 1)
  {
  }

  /** A word that is neither a coefficient nor malformed leaves the row as
      it is. */
  lemma ObjectiveFromSkip(row0: Row, tokens: seq<Token>, j: nat, tok: Token)
    requires j < |tokens| && tokens[j] == tok && !tok.Coefficient? && !tok.Malformed?
    ensures ObjectiveFrom(row0, tokens, j) == ObjectiveFrom(row0, tokens, j + 1)
  {
  }

  /** `update_objective_fun`. */
  function UpdateObjective(row0: Row, text: string): (r: Result<Row>)
    ensures r.Ok? ==> |r.value| == |row0|
  {
    ObjectiveFrom(row0, ObjectiveTokens(text), 0)
  }

  /** The term "<c>x_<k>" enters the cost row as -c, or as c after a "-"
      word: the cost row of a maximization holds the negated objective. */
  lemma ObjectiveTerm(c: nat, k: nat, negate: bool)
    ensures ObjectiveToken(ShowNat(c) + "x_" + ShowNat(k), negate)
         == Coefficient(if negate then c as real else -(c as real), k)
  {
    SplitTerm(c, k);
    assert DropLast(ShowNat(c) + "x") == ShowNat(c);
    ParseFractionSignedSlashOne(c, !negate);
    ParseIntNat(k);
  }

  /** Every coefficient the objective parser accepts is a whole number:
      "1/2x_1" becomes the text "1/2/1", which `Fraction` rejects. */
  lemma ObjectiveCoefficientsWhole(t: string, negate: bool)
    requires ObjectiveToken(t, negate).Coefficient?
    ensures var v := ObjectiveToken(t, negate).value; v == v.Floor as real
  {
    var parts := Split(t, '_');
    SlashOneIsWhole((if negate then "" else "-") + DropLast(parts[0]));
  }

  /** Token j naming column q of the row. */
  predicate NamesColumn(tok: Token, width: nat, q: nat)
  {
    tok.Coefficient? && PyIndex(tok.column - 1, width) == Some(q)
  }

  /** A column no token from j on names keeps its value, and the last token
      naming a column decides its value. */
  lemma {:induction false} ObjectiveFromWrites(row0: Row, tokens: seq<Token>, j: nat, q: nat)
    requires j <= |tokens| && q < |row0| && ObjectiveFrom(row0, tokens, j).Ok?
    ensures var r := ObjectiveFrom(row0, tokens, j).value;
      && ((forall t :: j <= t < |tokens| ==> !NamesColumn(tokens[t], |row0|, q)) ==> r[q] == row0[q])
      && (forall t :: j <= t < |tokens| && NamesColumn(tokens[t], |row0|, q)
            && (forall u :: t < u < |tokens| ==> !NamesColumn(tokens[u], |row0|, q))
            ==> r[q] == tokens[t].value)
    decreases |tokens| - j
  {
    if j < |tokens| {
      match tokens[j]
      case Coefficient(v, k) =>
        var p := PyIndex(k - 1, |row0|).value;
        ObjectiveFromWrites(row0[p := v], tokens, j + 1, q);
      case Malformed(_) =>
      case _ =>
        ObjectiveFromWrites(row0, tokens, j + 1, q);
    }
  }

  // ---------------------------------------------------------------------
  // Price-out of the basic columns

  /** The loop `for row, column in enumerate(basic_vars[1:])` from
      constraint row i on: a non-zero cost at the row's basic column is
      cleared by adding the row times minus that cost. */
  function PriceOutFrom(row0: Row, M: Matrix, basic: seq<nat>, i: nat): (r: Result<Row>)
    requires Rectangular(M) && |row0| == |M[0]| && |basic| == |M| && 1 <= i <= |M|
    ensures r.Ok? ==> |r.value| == |row0|
    decreases |M| - i
  {
    if i == |M| then Ok(row0)
    else
      var col := basic[i];
      if col >= |row0| then Err(IndexOutOfRange)
      else if row0[col] != 0.0 then PriceOutFrom(AddRow(row0, MultiplyConstRow(-row0[col], M[i])), M, basic, i + 1)
      else PriceOutFrom(row0, M, basic, i + 1)
  }

  /** The price-out over all constraint rows. */
  function PriceOut(row0: Row, M: Matrix, basic: seq<nat>): (r: Result<Row>)
    requires Rectangular(M) && |row0| == |M[0]| && |basic| == |M|
    ensures r.Ok? ==> |r.value| == |row0|
  {
    PriceOutFrom(row0, M, basic, 1)
  }

  /** Each constraint row's basic column is the unit vector of that row
      among the constraint rows (row 0 aside). */
  predicate BasisColumns(M: Matrix, basic: seq<nat>)
    requires Rectangular(M)
  {
    && |basic| == |M|
    && forall i {:trigger basic[i]} :: 1 <= i < |M| ==>
         basic[i] < |M[0]| && forall r :: 1 <= r < |M| ==> M[r][basic[i]] == if r == i then 1.0 else 0.0
  }

  /** With unit basic columns, the price-out succeeds and leaves zero cost
      at every basic column. */
  lemma {:induction false} PriceOutFromClears(row0: Row, M: Matrix, basic: seq<nat>, i: nat)
    requires Rectangular(M) && |row0| == |M[0]| && 1 <= i <= |M|
    requires BasisColumns(M, basic)
    requires forall j :: 1 <= j < i ==> row0[basic[j]] == 0.0
    ensures PriceOutFrom(row0, M, basic, i).Ok?
    ensures forall j :: 1 <= j < |M| ==> PriceOutFrom(row0, M, basic, i).value[basic[j]] == 0.0
    decreases |M| - i
  {
    if i < |M| {
      var col := basic[i];
      if row0[col] != 0.0 {
        var next := AddRow(row0, MultiplyConstRow(-row0[col], M[i]));
        forall j | 1 <= j < i + 1 ensures next[basic[j]] == 0.0 {
          if j < i {
            assert M[i][basic[j]] == 0.0;
          } else {
            PriceOutClears(row0, M[i], col);
          }
        }
        PriceOutFromClears(next, M, basic, i + 1);
      } else {
        PriceOutFromClears(row0, M, basic, i + 1);
      }
    }
  }

  /** After the price-out the basis is canonical for the whole tableau. */
  lemma PriceOutMakesCanonical(M: Matrix, basic: seq<nat>)
    requires Rectangular(M) && BasisColumns(M, basic)
    ensures PriceOut(M[0], M, basic).Ok?
    ensures Canonical(M[0 := PriceOut(M[0], M, basic).value], basic)
  {
    PriceOutFromClears(M[0], M, basic, 1);
  }

  // ---------------------------------------------------------------------
  // Reading the solution

  /** The first loop over rows 1 .. n-1: a basic column below `countVars`
      gets its row's right-hand side (a later row overwrites an earlier). */
  function Assigned(M: Matrix, basic: seq<nat>, countVars: nat, n: nat): map<nat, real>
    requires Rectangular(M) && |basic| == |M| && 1 <= n <= |M|
    decreases n
  {
    if n == 1 then map[]
    else
      var s := Assigned(M, basic, countVars, n - 1);
      if basic[n - 1] < countVars then s[basic[n - 1] := M[n - 1][|M[0]| - 1]] else s
  }

  /** The second loop from variable i on: a variable that is not basic in
      any constraint row gets 0. */
  function ZeroFilled(sol: map<nat, real>, basic: seq<nat>, countVars: nat, i: nat): map<nat, real>
    requires |basic| >= 1
    decreases countVars - i
  {
    if i >= countVars then sol
    else ZeroFilled(if i in basic[1..] then sol else sol[i := 0.0], basic, countVars, i + 1)
  }

  /** The solution dictionary, variable v standing for the key "x_<v+1>". */
  function Extract(M: Matrix, basic: seq<nat>, countVars: nat): map<nat, real>
    requires Rectangular(M) && |basic| == |M|
  {
    ZeroFilled(Assigned(M, basic, countVars, |M|), basic, countVars, 0)
  }

  /** Row i is the last of rows 1 .. n-1 with basic column v. */
  predicate LastBasicRow(basic: seq<nat>, n: nat, i: nat, v: nat)
    requires n <= |basic|
  {
    1 <= i < n && basic[i] == v && forall j :: i < j < n ==> basic[j] != v
  }

  lemma {:induction false} AssignedMeans(M: Matrix, basic: seq<nat>, countVars: nat, n: nat)
    requires Rectangular(M) && |basic| == |M| && 1 <= n <= |M|
    ensures var s := Assigned(M, basic, countVars, n);
      && (forall v: nat :: v in s <==> v < countVars && v in basic[1..n])
      && (forall i: nat, v: nat :: LastBasicRow(basic, n, i, v) && v < countVars ==> s[v] == M[i][|M[0]| - 1])
    decreases n
  {
    if n > 1 {
      var p := Assigned(M, basic, countVars, n - 1);
      var s := Assigned(M, basic, countVars, n);
      AssignedMeans(M, basic, countVars, n - 1);
      assert basic[1..n] == basic[1..n - 1] + [basic[n - 1]];
      forall v: nat ensures v in s <==> v < countVars && v in basic[1..n] {
        assert v in basic[1..n] <==> v in basic[1..n - 1] || v == basic[n - 1];
      }
      forall i: nat, v: nat | LastBasicRow(basic, n, i, v) && v < countVars
        ensures v in s && s[v] == M[i][|M[0]| - 1]
      {
        assert basic[1..n][i - 1] == v;
        if i < n - 1 {
          assert LastBasicRow(basic, n - 1, i, v);
          assert basic[n - 1] != v;
        }
      }
    }
  }

  lemma {:induction false} ZeroFilledMeans(sol: map<nat, real>, basic: seq<nat>, countVars: nat, i: nat)
    requires |basic| >= 1
    ensures var s := ZeroFilled(sol, basic, countVars, i);
      && (forall v: nat :: v in s <==> v in sol || (i <= v < countVars && v !in basic[1..]))
      && (forall v: nat :: v in sol && (v in basic[1..] || v < i || v >= countVars) ==> s[v] == sol[v])
      && (forall v: nat :: i <= v < countVars && v !in basic[1..] ==> s[v] == 0.0)
    decreases countVars - i
  {
    if i < countVars {
      ZeroFilledMeans(if i in basic[1..] then sol else sol[i := 0.0], basic, countVars, i + 1);
    }
  }

  /** The solution names exactly the variables 0 .. countVars-1; a variable
      basic in some constraint row has the right-hand side of the last such
      row, and every other variable is 0. */
  lemma ExtractMeans(M: Matrix, basic: seq<nat>, countVars: nat)
    requires Rectangular(M) && |basic| == |M|
    ensures var s := Extract(M, basic, countVars);
      && (forall v: nat :: v in s <==> v < countVars)
      && (forall v: nat :: v < countVars && v !in basic[1..] ==> s[v] == 0.0)
      && (forall i: nat, v: nat :: LastBasicRow(basic, |M|, i, v) && v < countVars ==> s[v] == M[i][|M[0]| - 1])
  {
    var a := Assigned(M, basic, countVars, |M|);
    AssignedMeans(M, basic, countVars, |M|);
    ZeroFilledMeans(a, basic, countVars, 0);
    assert basic[1..|M|] == basic[1..];
    var s := Extract(M, basic, countVars);
    forall v: nat ensures v in s <==> v < countVars {
      if v < countVars && v in basic[1..] {
        assert v in a;
      }
    }
    forall i: nat, v: nat | LastBasicRow(basic, |M|, i, v) && v < countVars
      ensures s[v] == M[i][|M[0]| - 1]
    {
      assert basic[1..][i - 1] == v;
    }
  }

  // ---------------------------------------------------------------------
  // The whole run

  /** `'min' in objective.lower()` chooses minimization. */
  predicate IsMinimize(objective: string)
  {
    Contains(Lower(objective), "min")
  }

  /** The direction `__init__` chooses. */
  function DirectionOf(objective: string): Direction
  {
    if IsMinimize(objective) then Minimize else Maximize
  }

  /** What the solver hands back: the solution dictionary and its "val". */
  datatype Answer = Answer(values: map<nat, real>, value: real)

  /** Phase 2 up to its final tableau (`objective_minimize` and
      `objective_maximize` before they read the solution): the objective
      written into row 0, the basic columns priced out, then the loop for
      the direction. */
  function Phase2(t: Tableau, d: Direction, objectiveFun: string, fuel: nat): (r: Result<Tableau>)
    requires WellFormed(t)
    ensures r.Ok? ==> WellFormed(r.value) && |r.value.matrix| == |t.matrix| && |r.value.matrix[0]| == |t.matrix[0]|
  {
    var M := t.matrix;
    match UpdateObjective(M[0], objectiveFun)
    case Err(e) => Err(e)
    case Ok(row0) =>
      var written := M[0 := row0];
      match PriceOut(row0, written, t.basic)
      case Err(e) => Err(e)
      case Ok(priced) => Iterate(Tableau(written[0 := priced], t.basic), d, fuel)
  }

  /** Phase 2 stage by stage: the first stage that fails gives the error,
      and otherwise the loop starts from the priced-out tableau. */
  lemma Phase2Stages(t: Tableau, d: Direction, objectiveFun: string, fuel: nat)
    requires WellFormed(t)
    ensures var u := UpdateObjective(t.matrix[0], objectiveFun);
      && (u.Err? ==> Phase2(t, d, objectiveFun, fuel) == Err(u.error))
      && (u.Ok? ==>
            var written := t.matrix[0 := u.value];
            var p := PriceOut(u.value, written, t.basic);
            && (p.Err? ==> Phase2(t, d, objectiveFun, fuel) == Err(p.error))
            && (p.Ok? ==> Phase2(t, d, objectiveFun, fuel) == Iterate(Tableau(written[0 := p.value], t.basic), d, fuel)))
  {
  }

  /** The phase-1 tableau with the artificial columns deleted. */
  function AfterPhase1(b: Built, countVars: nat, fuel: nat): (r: Result<Tableau>)
    requires Rectangular(b.matrix) && ListsRows(b.matrix, b.rRows)
    requires countVars + b.numS + 1 <= |b.matrix[0]|
    ensures r.Ok? ==> (WellFormed(r.value) && |r.value.matrix| == |b.matrix|
                       && |r.value.matrix[0]| == countVars + b.numS + 1)
  {
    var t := Phase1Start(b.matrix, b.rRows, countVars, b.numS);
    match Iterate(t, Minimize, fuel)
    case Err(e) => Err(e)
    case Ok(p) =>
      DeleteRVarsKeeps(p.matrix, countVars + b.numS + 1);
      Ok(Tableau(DeleteRVars(p.matrix, countVars + b.numS + 1), p.basic))
  }

  /** `Simplex(count_vars, constraints, (objective, objective_fun))` up to
      its final tableau: build the tableau, run phase 1, delete the
      artificial columns, run phase 2, with at most `fuel` pivots in each
      loop. */
  function Run(countVars: nat, constraints: seq<string>, objective: string, objectiveFun: string, fuel: nat): (r: Result<Tableau>)
    ensures r.Ok? ==> (WellFormed(r.value) && |r.value.matrix| == |constraints| + 1
                       && |r.value.matrix[0]| >= countVars + 1)
  {
    match Build(countVars, constraints)
    case Err(e) => Err(e)
    case Ok(b) =>
      BuildShape(countVars, constraints);
      match AfterPhase1(b, countVars, fuel)
      case Err(e) => Err(e)
      case Ok(p) => Phase2(p, DirectionOf(objective), objectiveFun, fuel)
  }

  /** The solution dictionary and the value read off a final tableau, or
      the error that stopped the run. */
  function Answered(run: Result<Tableau>, countVars: nat): Result<Answer>
    requires run.Ok? ==> WellFormed(run.value)
  {
    match run
    case Err(e) => Err(e)
    case Ok(r) => Ok(Answer(Extract(r.matrix, r.basic, countVars), r.matrix[0][|r.matrix[0]| - 1]))
  }

  /** The answer `Simplex(...)` computes. */
  function Solve(countVars: nat, constraints: seq<string>, objective: string, objectiveFun: string, fuel: nat): Result<Answer>
  {
    Answered(Run(countVars, constraints, objective, objectiveFun, fuel), countVars)
  }

  /** The run stage by stage: the first stage that fails gives the error,
      and the answer is read off the tableau phase 2 leaves. */
  lemma SolveStages(countVars: nat, constraints: seq<string>, objective: string, objectiveFun: string, fuel: nat)
    ensures Build(countVars, constraints).Err? ==>
      Solve(countVars, constraints, objective, objectiveFun, fuel) == Err(Build(countVars, constraints).error)
    ensures Build(countVars, constraints).Ok? ==>
      var b := Build(countVars, constraints).value;
      && Rectangular(b.matrix) && ListsRows(b.matrix, b.rRows) && countVars + b.numS + 1 <= |b.matrix[0]|
      && (AfterPhase1(b, countVars, fuel).Err? ==>
            Solve(countVars, constraints, objective, objectiveFun, fuel) == Err(AfterPhase1(b, countVars, fuel).error))
      && (AfterPhase1(b, countVars, fuel).Ok? ==>
            Solve(countVars, constraints, objective, objectiveFun, fuel)
              == Answered(Phase2(AfterPhase1(b, countVars, fuel).value, DirectionOf(objective), objectiveFun, fuel), countVars))
  {
    var built := Build(countVars, constraints);
    if built.Ok? {
      BuildShape(countVars, constraints);
      var p := AfterPhase1(built.value, countVars, fuel);
      if p.Ok? {
        assert Run(countVars, constraints, objective, objectiveFun, fuel)
            == Phase2(p.value, DirectionOf(objective), objectiveFun, fuel);
      } else {
        assert Run(countVars, constraints, objective, objectiveFun, fuel) == Err(p.error);
      }
    }
  }

  /** A finished phase 2 stops at a cost row with no improving column for
      its direction. */
  lemma Phase2EndsOptimal(t: Tableau, d: Direction, objectiveFun: string, fuel: nat)
    requires WellFormed(t) && Phase2(t, d, objectiveFun, fuel).Ok?
    ensures var r := Phase2(t, d, objectiveFun, fuel).value;
      !Improving(r.matrix[0], EnteringColumn(r.matrix[0], d), d)
  {
    Phase2Stages(t, d, objectiveFun, fuel);
    var row0 := UpdateObjective(t.matrix[0], objectiveFun).value;
    var written := t.matrix[0 := row0];
    var priced := PriceOut(row0, written, t.basic).value;
    IterateEndsOptimal(Tableau(written[0 := priced], t.basic), d, fuel);
  }

  /** A finished run stops at a cost row with no improving column for the
      chosen direction, and reports that row's right-hand side. */
  lemma RunEndsOptimal(countVars: nat, constraints: seq<string>, objective: string, objectiveFun: string, fuel: nat)
    requires Run(countVars, constraints, objective, objectiveFun, fuel).Ok?
    ensures var r := Run(countVars, constraints, objective, objectiveFun, fuel).value;
      var d := DirectionOf(objective);
      && !Improving(r.matrix[0], EnteringColumn(r.matrix[0], d), d)
      && Solve(countVars, constraints, objective, objectiveFun, fuel).value.value == r.matrix[0][|r.matrix[0]| - 1]
  {
    var b := Build(countVars, constraints).value;
    BuildShape(countVars, constraints);
    var p := AfterPhase1(b, countVars, fuel).value;
    Phase2EndsOptimal(p, DirectionOf(objective), objectiveFun, fuel);
  }

  /** The answer names exactly the variables 0 .. countVars-1, the ones not
      basic in any constraint row being 0. */
  lemma SolveNamesEveryVariable(countVars: nat, constraints: seq<string>, objective: string, objectiveFun: string, fuel: nat)
    requires Solve(countVars, constraints, objective, objectiveFun, fuel).Ok?
    ensures var a := Solve(countVars, constraints, objective, objectiveFun, fuel).value;
      var r := Run(countVars, constraints, objective, objectiveFun, fuel).value;
      && (forall v: nat :: v in a.values <==> v < countVars)
      && (forall v: nat :: v < countVars && v !in r.basic[1..] ==> a.values[v] == 0.0)
  {
    var r := Run(countVars, constraints, objective, objectiveFun, fuel).value;
    ExtractMeans(r.matrix, r.basic, countVars);
  }

  /** Phase 1 and the deletion of the artificial columns keep every
      right-hand side non-negative. */
  lemma AfterPhase1Feasible(b: Built, countVars: nat, fuel: nat)
    requires Rectangular(b.matrix) && ListsRows(b.matrix, b.rRows)
    requires countVars + b.numS + 1 <= |b.matrix[0]|
    requires Feasible(b.matrix) && AfterPhase1(b, countVars, fuel).Ok?
    ensures Feasible(AfterPhase1(b, countVars, fuel).value.matrix)
  {
    var t := Phase1Start(b.matrix, b.rRows, countVars, b.numS);
    Phase1StartFeasible(b.matrix, b.rRows, countVars, b.numS);
    IterateKeepsFeasible(t, Minimize, fuel);
    var q := Iterate(t, Minimize, fuel).value;
    var width := countVars + b.numS + 1;
    DeleteRVarsFeasible(q.matrix, width);
    assert AfterPhase1(b, countVars, fuel).value.matrix == DeleteRVars(q.matrix, width);
  }

  /** Phase 1 changes only row 0, so it starts from a feasible tableau. */
  lemma Phase1StartFeasible(M: Matrix, rRows: seq<nat>, countVars: nat, numS: nat)
    requires Rectangular(M) && ListsRows(M, rRows) && Feasible(M)
    ensures Feasible(Phase1Start(M, rRows, countVars, numS).matrix)
  {
    var t := Phase1Start(M, rRows, countVars, numS);
    forall i | 1 <= i < |t.matrix| ensures t.matrix[i][|t.matrix[0]| - 1] >= 0.0 {
      assert t.matrix[i] == M[i];
    }
  }

  /** Deleting the artificial columns keeps the last column. */
  lemma DeleteRVarsFeasible(M: Matrix, width: nat)
    requires Rectangular(M) && 1 <= width <= |M[0]| && Feasible(M)
    ensures Rectangular(DeleteRVars(M, width)) && Feasible(DeleteRVars(M, width))
  {
    DeleteRVarsKeeps(M, width);
  }

  /** Phase 2 changes only row 0 before its loop, so it keeps every
      right-hand side non-negative. */
  lemma Phase2Feasible(t: Tableau, d: Direction, objectiveFun: string, fuel: nat)
    requires WellFormed(t) && Feasible(t.matrix) && Phase2(t, d, objectiveFun, fuel).Ok?
    ensures Feasible(Phase2(t, d, objectiveFun, fuel).value.matrix)
  {
    var M := t.matrix;
    var row0 := UpdateObjective(M[0], objectiveFun).value;
    var written := M[0 := row0];
    var priced := PriceOut(row0, written, t.basic).value;
    var start := Tableau(written[0 := priced], t.basic);
    assert Feasible(start.matrix) by {
      forall i | 1 <= i < |M| ensures start.matrix[i][|M[0]| - 1] >= 0.0 {
        assert start.matrix[i] == M[i];
      }
    }
    IterateKeepsFeasible(start, d, fuel);
  }

  /** When every constraint's right-hand side is non-negative, the final
      tableau's right-hand sides are too, and so is every value of the
      solution read off it. */
  lemma RunKeepsFeasible(countVars: nat, constraints: seq<string>, objective: string, objectiveFun: string, fuel: nat)
    requires Build(countVars, constraints).Ok? && Rectangular(Build(countVars, constraints).value.matrix)
    requires Feasible(Build(countVars, constraints).value.matrix)
    requires Run(countVars, constraints, objective, objectiveFun, fuel).Ok?
    ensures Feasible(Run(countVars, constraints, objective, objectiveFun, fuel).value.matrix)
    ensures var a := Solve(countVars, constraints, objective, objectiveFun, fuel).value;
      forall v: nat :: v in a.values ==> a.values[v] >= 0.0
  {
    var b := Build(countVars, constraints).value;
    BuildShape(countVars, constraints);
    AfterPhase1Feasible(b, countVars, fuel);
    var p := AfterPhase1(b, countVars, fuel).value;
    Phase2Feasible(p, DirectionOf(objective), objectiveFun, fuel);
    var r := Run(countVars, constraints, objective, objectiveFun, fuel).value;
    ExtractNonNegative(r.matrix, r.basic, countVars);
  }

  lemma {:induction false} AssignedNonNegative(M: Matrix, basic: seq<nat>, countVars: nat, n: nat)
    requires Rectangular(M) && |basic| == |M| && 1 <= n <= |M| && Feasible(M)
    ensures forall v :: v in Assigned(M, basic, countVars, n) ==> Assigned(M, basic, countVars, n)[v] >= 0.0
    decreases n
  {
    if n > 1 {
      var p := Assigned(M, basic, countVars, n - 1);
      var s := Assigned(M, basic, countVars, n);
      AssignedNonNegative(M, basic, countVars, n - 1);
      forall v: nat | v in s ensures s[v] >= 0.0 {
        if basic[n - 1] < countVars && v == basic[n - 1] {
          assert s[v] == M[n - 1][|M[0]| - 1];
        } else {
          assert v in p && s[v] == p[v];
        }
      }
    }
  }

  /** A feasible tableau gives a solution with no negative value. */
  lemma ExtractNonNegative(M: Matrix, basic: seq<nat>, countVars: nat)
    requires Rectangular(M) && |basic| == |M| && Feasible(M)
    ensures forall v :: v in Extract(M, basic, countVars) ==> Extract(M, basic, countVars)[v] >= 0.0
  {
    var a := Assigned(M, basic, countVars, |M|);
    AssignedNonNegative(M, basic, countVars, |M|);
    ZeroFilledMeans(a, basic, countVars, 0);
    var s := Extract(M, basic, countVars);
    forall v: nat | v in s ensures s[v] >= 0.0 {
      if !(v < countVars && v !in basic[1..]) {
        assert v in a && s[v] == a[v];
      }
    }
  }
}
