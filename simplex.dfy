/** The solver as the Python code runs it: the row helpers as loops, and the
    `Simplex` object whose methods rewrite its tableau and its list of basic
    variables in place.  Each method is proved to leave exactly the state the
    functions of `Rows`, `Pivoting` and `Phases` describe. */
module SimplexSolver {
  import opened Outcomes
  import opened PyText
  import opened Rows
  import opened Construct
  import opened Pivoting
  import opened Phases

  // ---------------------------------------------------------------------
  // Module helpers

  /** `add_row(row1, row2)`. */
  method SumRows(row1: Row, row2: Row) returns (rowSum: Row)
    requires |row1| <= |row2|
    ensures rowSum == AddRow(row1, row2)
  {
    rowSum := seq(|row1|, _ => 0.0);
    for i := 0 to |row1|
      invariant |rowSum| == |row1|
      invariant forall j :: 0 <= j < i ==> rowSum[j] == row1[j] + row2[j]
    {
      rowSum := rowSum[i := row1[i] + row2[i]];
    }
  }

  /** `multiply_const_row(const, row)`: appends each scaled entry. */
  method ScaleRow(c: real, row: Row) returns (mulRow: Row)
    ensures mulRow == MultiplyConstRow(c, row)
  {
    mulRow := [];
    for i := 0 to |row|
      invariant |mulRow| == i
      invariant forall j :: 0 <= j < i ==> mulRow[j] == c * row[j]
    {
      mulRow := mulRow + [c * row[i]];
    }
  }

  /** `max_index(row)`: scans every position but the last. */
  method FindMaxIndex(row: Row) returns (maxI: nat)
    ensures maxI == MaxIndex(row)
  {
    maxI := 0;
    if |row| == 0 {
      return;
    }
    for i := 0 to |row| - 1
      invariant maxI == MaxPrefix(row, i)
    {
      if row[i] > row[maxI] {
        maxI := i;
      }
    }
  }

  /** `min_index(row)`: scans every position. */
  method FindMinIndex(row: Row) returns (minI: nat)
    ensures minI == MinIndex(row)
  {
    minI := 0;
    for i := 0 to |row|
      invariant minI == MinPrefix(row, i)
    {
      if row[minI] > row[i] {
        minI := i;
      }
    }
  }

  /** Reading word j of the objective text, as `update_objective_fun` does. */
  method ReadObjectiveToken(words: seq<string>, j: nat) returns (tok: Token)
    requires j < |words|
    ensures tok == ObjectiveToken(words[j], Previous(words, j) == "-")
  {
    var word := words[j];
    if '_' !in word {
      return Other;
    }
    var parts := Split(word, '_');
    if |parts| != 2 {
      return Malformed(BadToken);
    }
    var previous := if j == 0 then words[|words| - 1] else words[j - 1];
    var text := if previous == "-" then DropLast(parts[0]) + "/1" else "-" + DropLast(parts[0]) + "/1";
    assert text == (if previous == "-" then "" else "-") + DropLast(parts[0]) + "/1";
    var coefficient := ParseFraction(text);
    if coefficient.None? {
      return Malformed(InvalidLiteral);
    }
    var index := ParseInt(parts[1]);
    if index.None? {
      return Malformed(InvalidLiteral);
    }
    tok := Coefficient(coefficient.value, index.value);
  }

  // ---------------------------------------------------------------------
  // The solver object

  /** The loop of `update_objective_fun` on the cost row: each word of
      the objective text, in order, overwrites the entry it names. */
  method OverwriteCosts(row0: Row, words: seq<string>, ghost text: string) returns (r: Result<Row>)
    requires words == Words(text)
    ensures r == UpdateObjective(row0, text)
  {
    var row := row0;
    ghost var tokens := ObjectiveTokens(text);
    for j := 0 to |words|
      invariant |row| == |row0|
      invariant ObjectiveFrom(row, tokens, j) == ObjectiveFrom(row0, tokens, 0)
    {
      var tok := ReadObjectiveToken(words, j);
      assert tok == tokens[j];
      match tok
      case Malformed(e) =>
        return Err(e);
      case Coefficient(v, k) =>
        var q := PyIndex(k - 1, |row|);
        if q.None? {
          return Err(IndexOutOfRange);
        }
        ObjectiveFromCoefficient(row, tokens, j, v, k, q.value);
        row := row[q.value := v];
      case _ =>
        ObjectiveFromSkip(row, tokens, j, tok);
    }
    return Ok(row);
  }

  class Simplex {
    var countVars: nat
    var objective: string
    var objectiveFun: string
    var matrix: Matrix
    var rRows: seq<nat>
    var numS: nat
    var numR: nat
    var basicVars: seq<nat>

    /** A rectangular tableau with one basic column per row, wide enough for
        the original and slack columns and the right-hand side. */
    predicate Valid()
      reads this
    {
      && Rectangular(matrix)
      && |basicVars| == |matrix|
      && countVars + numS + 1 <= |matrix[0]|
    }

    /** The tableau and basis as one value. */
    function State(): (t: Tableau)
      reads this
      requires Valid()
      ensures WellFormed(t)
    {
      Tableau(matrix, basicVars)
    }

    /** The fields `__init__` sets before running the phases: the built
        tableau and a basic-variable list of zeros. */
    constructor (countVars: nat, objective: string, objectiveFun: string, b: Built)
      requires Rectangular(b.matrix) && countVars + b.numS + 1 <= |b.matrix[0]|
      ensures Valid()
      ensures this.countVars == countVars && this.objective == objective && this.objectiveFun == objectiveFun
      ensures matrix == b.matrix && rRows == b.rRows && numS == b.numS && numR == b.numR
      ensures basicVars == seq(|b.matrix|, _ => 0)
    {
      this.countVars := countVars;
      this.objective := objective;
      this.objectiveFun := objectiveFun;
      matrix := b.matrix;
      rRows := b.rRows;
      numS := b.numS;
      numR := b.numR;
      basicVars := seq(|b.matrix|, _ => 0);
    }

    /** `find_key_row(c)`: the first row of least ratio among the rows with
        a positive entry in column c, or the "unbounded" error. */
    method FindKeyRow(c: nat) returns (r: Result<nat>)
      requires Valid() && c < |matrix[0]|
      ensures KeyRow(matrix, c).None? ==> r == Err(Unbounded)
      ensures KeyRow(matrix, c).Some? ==> r == Ok(KeyRow(matrix, c).value)
    {
      var minVal: Option<real> := None;
      var minI := 0;
      for i := 1 to |matrix|
        invariant KeyRowScan(matrix, c, i).None? <==> minVal.None?
        invariant KeyRowScan(matrix, c, i).Some? ==>
          minI == KeyRowScan(matrix, c, i).value && minVal == Some(Ratio(matrix, minI, c))
      {
        if matrix[i][c] > 0.0 {
          var val := matrix[i][|matrix[i]| - 1] / matrix[i][c];
          if minVal.None? || val < minVal.value {
            minVal := Some(val);
            minI := i;
          }
        }
      }
      if minVal.None? {
        return Err(Unbounded);
      }
      return Ok(minI);
    }

    /** `normalize_to_pivot(k, pivot)`: row k divided entry by entry. */
    method NormalizeToPivot(k: nat, pivot: real)
      requires Valid() && k < |matrix| && pivot != 0.0
      modifies this`matrix
      ensures Valid()
      ensures matrix == Normalized(old(matrix), k, pivot)
    {
      ghost var M := matrix;
      var w := |matrix[0]|;
      for i := 0 to w
        invariant |matrix| == |M| && |matrix[k]| == w
        invariant matrix == M[k := matrix[k]]
        invariant forall j :: 0 <= j < i ==> matrix[k][j] == M[k][j] / pivot
        invariant forall j :: i <= j < w ==> matrix[k][j] == M[k][j]
      {
        matrix := matrix[k := matrix[k][i := matrix[k][i] / pivot]];
      }
      assert matrix[k] == DivRow(M[k], pivot);
    }

    /** The inner loop of `make_key_column_zero`: row i loses `factor`
        times row k, entry by entry. */
    method SubtractKeyRow(i: nat, k: nat, factor: real)
      requires Valid() && i < |matrix| && k < |matrix| && i != k
      modifies this`matrix
      ensures Valid()
      ensures matrix == old(matrix)[i := SubScaled(old(matrix)[i], old(matrix)[k], factor)]
    {
      ghost var M := matrix;
      var numColumns := |matrix[0]|;
      for j := 0 to numColumns
        invariant |matrix| == |M| && matrix == M[i := matrix[i]] && |matrix[i]| == numColumns
        invariant forall q :: 0 <= q < j ==> matrix[i][q] == M[i][q] - M[k][q] * factor
        invariant forall q :: j <= q < numColumns ==> matrix[i][q] == M[i][q]
      {
        matrix := matrix[i := matrix[i][j := matrix[i][j] - matrix[k][j] * factor]];
      }
      assert matrix[i] == SubScaled(M[i], M[k], factor) by {
        forall q | 0 <= q < numColumns ensures matrix[i][q] == SubScaled(M[i], M[k], factor)[q] {
        }
      }
    }

    /** `make_key_column_zero(c, k)`: every row but k loses its entry at c
        times row k. */
    method MakeKeyColumnZero(c: nat, k: nat)
      requires Valid() && k < |matrix| && c < |matrix[0]|
      modifies this`matrix
      ensures Valid()
      ensures matrix == ColumnCleared(old(matrix), c, k)
    {
      ghost var M := matrix;
      for i := 0 to |matrix|
        invariant Valid() && |matrix| == |M| && |matrix[0]| == |M[0]|
        invariant forall r :: 0 <= r < i ==> matrix[r] == ColumnCleared(M, c, k)[r]
        invariant forall r :: i <= r < |M| ==> matrix[r] == M[r]
      {
        if i != k {
          var factor := matrix[i][c];
          SubtractKeyRow(i, k, factor);
        }
      }
      assert matrix == ColumnCleared(M, c, k);
    }

    /** The body of the pivoting loop: column c becomes row k's basic
        variable, then the tableau is pivoted on (k, c). */
    method EnterBasis(k: nat, c: nat)
      requires Valid() && 1 <= k < |matrix| && c < |matrix[0]| && matrix[k][c] != 0.0
      modifies this`matrix, this`basicVars
      ensures Valid() && State() == Step(old(State()), k, c)
    {
      basicVars := basicVars[k := c];
      var pivot := matrix[k][c];
      NormalizeToPivot(k, pivot);
      MakeKeyColumnZero(c, k);
    }

    /** The entering column for the direction: `max_index` when
        minimizing, `min_index` when maximizing. */
    method KeyColumn(d: Direction) returns (c: nat)
      requires Valid()
      ensures c == EnteringColumn(matrix[0], d)
    {
      if d == Minimize {
        c := FindMaxIndex(matrix[0]);
      } else {
        c := FindMinIndex(matrix[0]);
      }
    }

    /** One pass of the `while` loops of `phase1`, `objective_minimize` and
        `objective_maximize` that goes on: find the key row and pivot. */
    method PivotOnce(d: Direction, keyColumn: nat, fuelLeft: nat) returns (err: Option<Error>)
      requires Valid()
      requires keyColumn == EnteringColumn(matrix[0], d) && Improving(matrix[0], keyColumn, d)
      modifies this`matrix, this`basicVars
      ensures Valid() && |matrix| == old(|matrix|) && |matrix[0]| == old(|matrix[0]|)
      ensures err.None? ==> fuelLeft > 0 && Iterate(old(State()), d, fuelLeft) == Iterate(State(), d, fuelLeft - 1)
      ensures err.Some? ==> Iterate(old(State()), d, fuelLeft) == Err(err.value)
    {
      ghost var before := State();
      IterateFails(before, d, fuelLeft);
      var keyRow := FindKeyRow(keyColumn);
      if keyRow.Err? {
        return Some(keyRow.error);
      }
      if fuelLeft == 0 {
        return Some(OutOfFuel);
      }
      EnterBasis(keyRow.value, keyColumn);
      IterateContinues(before, d, fuelLeft, keyRow.value);
      return None;
    }

    /** The `while condition` loop of `phase1`, `objective_minimize` and
        `objective_maximize`, allowed at most `fuel` pivots; it ends where
        `Iterate` ends. */
    method PivotLoop(d: Direction, fuel: nat) returns (err: Option<Error>)
      requires Valid()
      modifies this`matrix, this`basicVars
      ensures Valid() && |matrix| == old(|matrix|) && |matrix[0]| == old(|matrix[0]|)
      ensures err.None? ==> Iterate(old(State()), d, fuel) == Ok(State())
      ensures err.Some? ==> Iterate(old(State()), d, fuel) == Err(err.value)
    {
      ghost var start := State();
      var fuelLeft := fuel;
      var keyColumn := KeyColumn(d);
      while Improving(matrix[0], keyColumn, d)
        invariant Valid() && |matrix| == |start.matrix| && |matrix[0]| == |start.matrix[0]|
        invariant keyColumn == EnteringColumn(matrix[0], d)
        invariant Iterate(start, d, fuel) == Iterate(State(), d, fuelLeft)
        decreases fuelLeft
      {
        err := PivotOnce(d, keyColumn, fuelLeft);
        if err.Some? {
          return;
        }
        fuelLeft := fuelLeft - 1;
        keyColumn := KeyColumn(d);
      }
      IterateStops(State(), d, fuelLeft);
      return None;
    }

    /** The first loop of `phase1`: cost -1 on every artificial column. */
    method SetArtificialCosts()
      requires Valid()
      modifies this`matrix
      ensures Valid()
      ensures matrix == old(matrix)[0 := ArtificialCosts(old(matrix)[0], countVars + numS)]
    {
      ghost var M := matrix;
      var rIndex := countVars + numS;
      var w := |matrix[0]|;
      for i := rIndex to w - 1
        invariant |matrix| == |M| && matrix == M[0 := matrix[0]] && |matrix[0]| == w
        invariant forall j :: 0 <= j < w ==> matrix[0][j] == if rIndex <= j < i then -1.0 else M[0][j]
      {
        matrix := matrix[0 := matrix[0][i := -1.0]];
      }
      assert matrix[0] == ArtificialCosts(M[0], rIndex);
    }

    /** The second loop of `phase1`: each artificial row added into row 0
        and made basic in the next artificial column. */
    method AddArtificialRows()
      requires Valid() && ListsRows(matrix, rRows)
      modifies this`matrix, this`basicVars
      ensures Valid()
      ensures matrix == old(matrix)[0 := AddRows(old(matrix)[0], old(matrix), rRows)]
      ensures basicVars == MarkArtificial(old(basicVars), rRows, countVars + numS)
    {
      ghost var M := matrix;
      var rIndex: nat := countVars + numS;
      ghost var rowTarget := AddRows(matrix[0], M, rRows);
      ghost var basicTarget := MarkArtificial(basicVars, rRows, rIndex);
      for t := 0 to |rRows|
        invariant |matrix| == |M| && matrix == M[0 := matrix[0]] && |matrix[0]| == |M[0]| && |basicVars| == |M|
        invariant AddRows(matrix[0], M, rRows[t..]) == rowTarget
        invariant MarkArtificial(basicVars, rRows[t..], rIndex) == basicTarget
      {
        var i := rRows[t];
        assert rRows[t..][0] == i && rRows[t..][1..] == rRows[t + 1..];
        var sum := SumRows(matrix[0], matrix[i]);
        matrix := matrix[0 := sum];
        basicVars := basicVars[i := rIndex];
        rIndex := rIndex + 1;
      }
    }

    /** The third loop of `phase1`: every row whose basic variable is still
        0 gets the next slack column. */
    method AssignSlackVars()
      requires Valid()
      modifies this`basicVars
      ensures Valid()
      ensures basicVars == MarkSlack(old(basicVars), 1, countVars)
    {
      var sIndex := countVars;
      for i := 1 to |basicVars|
        invariant |basicVars| == |matrix|
        invariant MarkSlack(basicVars, i, sIndex) == MarkSlack(old(basicVars), 1, countVars)
      {
        if basicVars[i] == 0 {
          basicVars := basicVars[i := sIndex];
          sIndex := sIndex + 1;
        }
      }
    }

    /** `phase1`: the artificial costs, the artificial rows added into row 0,
        the basic variables assigned, then the loop minimizing the sum of
        the artificial variables. */
    method Phase1(fuel: nat) returns (err: Option<Error>)
      requires Valid() && ListsRows(matrix, rRows) && basicVars == seq(|matrix|, _ => 0)
      modifies this`matrix, this`basicVars
      ensures Valid() && |matrix| == old(|matrix|) && |matrix[0]| == old(|matrix[0]|)
      ensures var t := Phase1Start(old(matrix), rRows, countVars, numS);
        && (err.None? ==> Iterate(t, Minimize, fuel) == Ok(State()))
        && (err.Some? ==> Iterate(t, Minimize, fuel) == Err(err.value))
    {
      ghost var M := matrix;
      SetArtificialCosts();
      AddRowsIgnoresCostRow(matrix[0], M, matrix[0], rRows);
      AddArtificialRows();
      AssignSlackVars();
      assert State() == Phase1Start(M, rRows, countVars, numS);
      err := PivotLoop(Minimize, fuel);
    }

    /** The part of `__init__` from `phase1` to `delete_r_vars`: phase 1 on
        the built tableau, then the artificial columns deleted. */
    method RunPhase1(fuel: nat) returns (err: Option<Error>)
      requires Valid() && ListsRows(matrix, rRows) && basicVars == seq(|matrix|, _ => 0)
      modifies this`matrix, this`basicVars
      ensures Valid()
      ensures var a := AfterPhase1(Built(old(matrix), rRows, numS, numR), countVars, fuel);
        && (a.Err? ==> err == Some(a.error))
        && (a.Ok? ==> err.None? && State() == a.value)
    {
      err := Phase1(fuel);
      if err.Some? {
        return;
      }
      DeleteRVars();
    }

    /** The part of `__init__` after `delete_r_vars`: `objective_minimize`
        when the objective names "min", `objective_maximize` otherwise, then
        "val" read off row 0. */
    method Finish(fuel: nat) returns (r: Result<Answer>)
      requires Valid()
      modifies this`matrix, this`basicVars
      ensures r == Answered(Phase2(old(State()), DirectionOf(objective), objectiveFun, fuel), countVars)
      ensures Valid()
      ensures var p := Phase2(old(State()), DirectionOf(objective), objectiveFun, fuel);
        p.Ok? ==> State() == p.value
      ensures r.Ok? ==> r.value.value == matrix[0][|matrix[0]| - 1]
    {
      var d := if Contains(Lower(objective), "min") then Minimize else Maximize;
      var solution := Optimize(d, fuel);
      if solution.Err? {
        return Err(solution.error);
      }
      var last := |matrix[0]| - 1;
      return Ok(Answer(solution.value, matrix[0][last]));
    }

    /** `delete_r_vars`: in every row the entry at column countVars+numS is
        deleted until the row has countVars+numS+1 entries, which drops the
        artificial columns and keeps the right-hand side. */
    method DeleteRVars()
      requires Valid()
      modifies this`matrix
      ensures Valid() && |matrix[0]| == countVars + numS + 1
      ensures matrix == Phases.DeleteRVars(old(matrix), countVars + numS + 1)
    {
      ghost var M := matrix;
      var nonRLength := countVars + numS + 1;
      for i := 0 to |matrix|
        invariant |matrix| == |M|
        invariant forall r :: 0 <= r < i ==> matrix[r] == Truncated(M[r], nonRLength)
        invariant forall r :: i <= r < |M| ==> matrix[r] == M[r]
      {
        var length := |matrix[i]|;
        while length != nonRLength
          invariant |matrix| == |M| && nonRLength <= length == |matrix[i]| <= |M[i]|
          invariant matrix[i] == M[i][..nonRLength - 1] + M[i][nonRLength - 1 + |M[i]| - length..]
          invariant forall r :: 0 <= r < i ==> matrix[r] == Truncated(M[r], nonRLength)
          invariant forall r :: i < r < |M| ==> matrix[r] == M[r]
          decreases length - nonRLength
        {
          matrix := matrix[i := matrix[i][..nonRLength - 1] + matrix[i][nonRLength..]];
          length := length - 1;
        }
        assert matrix[i] == Truncated(M[i], nonRLength);
      }
      assert matrix == Phases.DeleteRVars(M, nonRLength);
    }

    /** `update_objective_fun`: each word "<c>x_<k>" of the objective text
        overwrites entry k-1 of row 0, stopping at the first word that does
        not parse or names no column. */
    method UpdateObjectiveFun() returns (err: Option<Error>)
      requires Valid()
      modifies this`matrix
      ensures Valid() && |matrix| == old(|matrix|) && |matrix[0]| == old(|matrix[0]|)
      ensures UpdateObjective(old(matrix)[0], objectiveFun).Ok? ==>
        err == None && matrix == old(matrix)[0 := UpdateObjective(old(matrix)[0], objectiveFun).value]
      ensures UpdateObjective(old(matrix)[0], objectiveFun).Err? ==>
        err == Some(UpdateObjective(old(matrix)[0], objectiveFun).error)
    {
      var words := Words(objectiveFun);
      var row := OverwriteCosts(matrix[0], words, objectiveFun);
      if row.Err? {
        return Some(row.error);
      }
      matrix := matrix[0 := row.value];
      return None;
    }

    /** The loop over `enumerate(basic_vars[1:])` in `objective_minimize`
        and `objective_maximize`: a non-zero cost at a row's basic column is
        cleared by adding the row times minus that cost. */
    method PriceOutBasis() returns (err: Option<Error>)
      requires Valid()
      modifies this`matrix
      ensures Valid() && |matrix| == old(|matrix|) && |matrix[0]| == old(|matrix[0]|)
      ensures PriceOut(old(matrix)[0], old(matrix), basicVars).Ok? ==>
        err == None && matrix == old(matrix)[0 := PriceOut(old(matrix)[0], old(matrix), basicVars).value]
      ensures PriceOut(old(matrix)[0], old(matrix), basicVars).Err? ==>
        err == Some(PriceOut(old(matrix)[0], old(matrix), basicVars).error)
    {
      ghost var M := matrix;
      for i := 1 to |matrix|
        invariant |matrix| == |M| && matrix == M[0 := matrix[0]] && |matrix[0]| == |M[0]|
        invariant PriceOutFrom(matrix[0], M, basicVars, i) == PriceOut(M[0], M, basicVars)
      {
        var column := basicVars[i];
        if column >= |matrix[0]| {
          return Some(IndexOutOfRange);
        }
        if matrix[0][column] != 0.0 {
          var scaled := ScaleRow(-matrix[0][column], matrix[i]);
          var sum := SumRows(matrix[0], scaled);
          matrix := matrix[0 := sum];
        }
      }
      return None;
    }

    /** The two loops that end `objective_minimize` and `objective_maximize`:
        the solution dictionary, variable v standing for the key "x_<v+1>". */
    method ReadSolution() returns (solution: map<nat, real>)
      requires Valid()
      ensures solution == Extract(matrix, basicVars, countVars)
    {
      solution := map[];
      for i := 1 to |matrix|
        invariant solution == Assigned(matrix, basicVars, countVars, i)
      {
        var v := basicVars[i];
        if v < countVars {
          solution := solution[v := matrix[i][|matrix[i]| - 1]];
        }
      }
      for i := 0 to countVars
        invariant ZeroFilled(solution, basicVars, countVars, i) == Extract(matrix, basicVars, countVars)
      {
        if i !in basicVars[1..] {
          solution := solution[i := 0.0];
        }
      }
    }

    /** `objective_minimize` (d = Minimize) and `objective_maximize`
        (d = Maximize): phase 2 on the current tableau, then the solution
        read off the final one. */
    method Optimize(d: Direction, fuel: nat) returns (r: Result<map<nat, real>>)
      requires Valid()
      modifies this`matrix, this`basicVars
      ensures Valid()
      ensures Phase2(old(State()), d, objectiveFun, fuel).Ok? ==>
        State() == Phase2(old(State()), d, objectiveFun, fuel).value
        && r == Ok(Extract(matrix, basicVars, countVars))
      ensures Phase2(old(State()), d, objectiveFun, fuel).Err? ==>
        r == Err(Phase2(old(State()), d, objectiveFun, fuel).error)
    {
      Phase2Stages(State(), d, objectiveFun, fuel);
      var err := UpdateObjectiveFun();
      if err.Some? {
        return Err(err.value);
      }
      err := PriceOutBasis();
      if err.Some? {
        return Err(err.value);
      }
      err := PivotLoop(d, fuel);
      if err.Some? {
        return Err(err.value);
      }
      var solution := ReadSolution();
      return Ok(solution);
    }
  }

  /** What `__init__` does once the tableau is built: phase 1, the
      deletion of the artificial columns, then the phase-2 loop the
      objective names; the answer is the solution dictionary and the "val"
      entry, the last entry of row 0. */
  method SolveBuilt(countVars: nat, objective: string, objectiveFun: string, b: Built, fuel: nat)
    returns (r: Result<Answer>)
    requires Rectangular(b.matrix) && ListsRows(b.matrix, b.rRows) && countVars + b.numS + 1 <= |b.matrix[0]|
    ensures AfterPhase1(b, countVars, fuel).Err? ==> r == Err(AfterPhase1(b, countVars, fuel).error)
    ensures AfterPhase1(b, countVars, fuel).Ok? ==>
      r == Answered(Phase2(AfterPhase1(b, countVars, fuel).value, DirectionOf(objective), objectiveFun, fuel), countVars)
  {
    var simplex := new Simplex(countVars, objective, objectiveFun, b);
    var err := simplex.RunPhase1(fuel);
    if err.Some? {
      return Err(err.value);
    }
    r := simplex.Finish(fuel);
  }

  /** `Simplex(count_vars, constraints, (objective, objective_fun), ...)`:
      the constructor builds the tableau and runs both phases, each loop
      allowed at most `fuel` pivots. */
  method Solve(countVars: nat, constraints: seq<string>, objective: string, objectiveFun: string, fuel: nat)
    returns (r: Result<Answer>)
    ensures r == Phases.Solve(countVars, constraints, objective, objectiveFun, fuel)
  {
    SolveStages(countVars, constraints, objective, objectiveFun, fuel);
    var built := ConstructMatrix(countVars, constraints);
    if built.Err? {
      return Err(built.error);
    }
    r := SolveBuilt(countVars, objective, objectiveFun, built.value, fuel);
  }
}
