/** `Simplex.construct_matrix_from_constraints`: from constraint strings such
    as "1x_1 + 2x_2 >= 4" to the initial tableau.  Row 0 is the cost row and
    stays zero; row i holds constraint i-1; the columns are the decision
    variables, then the slack columns, then the artificial columns, then the
    right-hand side. */
module Construct {
  import opened Outcomes
  import opened PyText
  import opened Rows

  /** What the parser carries from token to token: the tableau so far, the
      next slack column `s_index`, the next artificial column `r_index` and
      the rows recorded in `r_rows`. */
  datatype Fill = Fill(matrix: Matrix, sIndex: nat, rIndex: nat, rRows: seq<nat>)

  /** The four results of `construct_matrix_from_constraints`. */
  datatype Built = Built(matrix: Matrix, rRows: seq<nat>, numS: nat, numR: nat)

  // ---------------------------------------------------------------------
  // Counting slack and artificial columns (the first loop)

  /** One constraint's effect on (num_s_vars, num_r_vars): the substring
      tests are tried in the order ">=", "<=", "=". */
  function CountStep(e: string, counts: (nat, nat)): (nat, nat)
  {
    if Contains(e, ">=") then (counts.0 + 1, counts.1)
    else if Contains(e, "<=") then (counts.0 + 1, counts.1 + 1)
    else if Contains(e, "=") then (counts.0, counts.1 + 1)
    else counts
  }

  /** The two counters after the first n constraints. */
  function Counts(cs: seq<string>, n: nat): (nat, nat)
    requires n <= |cs|
  {
    if n == 0 then (0, 0) else CountStep(cs[n - 1], Counts(cs, n - 1))
  }

  /** How many of the first n constraints contain `a` or `b`. */
  function CountEither(cs: seq<string>, a: string, b: string, n: nat): nat
    requires n <= |cs|
  {
    if n == 0 then 0
    else CountEither(cs, a, b, n - 1) + (if Contains(cs[n - 1], a) || Contains(cs[n - 1], b) then 1 else 0)
  }

  /** How many of the first n constraints contain `a` but not `b`. */
  function CountButNot(cs: seq<string>, a: string, b: string, n: nat): nat
    requires n <= |cs|
  {
    if n == 0 then 0
    else CountButNot(cs, a, b, n - 1) + (if Contains(cs[n - 1], a) && !Contains(cs[n - 1], b) then 1 else 0)
  }

  /** `num_s_vars` counts the constraints holding ">=" or "<="; `num_r_vars`
      counts those holding "=" but not ">=", that is the "<=" rows and the
      plain "=" rows, and NOT the ">=" rows. */
  lemma {:induction false} CountsByRelation(cs: seq<string>, n: nat)
    requires n <= |cs|
    ensures Counts(cs, n) == (CountEither(cs, ">=", "<=", n), CountButNot(cs, "=", ">=", n))
  {
    if n > 0 {
      CountsByRelation(cs, n - 1);
      var e := cs[n - 1];
      if !Contains(e, ">=") && Contains(e, "<=") {
        RelationHoldsEquals(e, "<=");
      }
    }
  }

  // ---------------------------------------------------------------------
  // Filling the rows (the second loop)

  /** `coeff[:-1]`: the coefficient text without its trailing variable letter. */
  function DropLast(s: string): (r: string)
    ensures |s| > 0 ==> |r| == |s| - 1 && s == r + [s[|s| - 1]]
  {
    if s == [] then [] else s[..|s| - 1]
  }

  /** `constraint[j-1]`, which for j == 0 is the LAST token. */
  function Previous(toks: seq<string>, j: nat): string
    requires j < |toks|
  {
    if j == 0 then toks[|toks| - 1] else toks[j - 1]
  }

  /** `row[k] = v` on row i, with Python's reading of the index k. */
  function Store(M: Matrix, i: nat, k: int, v: real): (r: Result<Matrix>)
    requires i < |M|
    ensures r.Ok? <==> PyIndex(k, |M[i]|).Some?
    ensures r.Ok? ==> r.value == M[i := M[i][PyIndex(k, |M[i]|).value := v]]
  {
    match PyIndex(k, |M[i]|)
    case None => Err(IndexOutOfRange)
    case Some(q) => Ok(M[i := M[i][q := v]])
  }

  /** What one token of a constraint says. */
  datatype Token =
    | Coefficient(value: real, column: int)  // `<c>x_<k>`: c goes to Python index k-1
    | Malformed(error: Error)                // a `_` token that does not parse
    | LessEq | GreaterEq | Equal              // the relation tokens
    | Other                                  // "+", "-", the right-hand side

  /** The index text k of a token `<c>x_<k>`, read by `int(index)`. */
  function ColumnText(t: string): Option<int>
  {
    var parts := Split(t, '_');
    if |parts| != 2 then None else ParseInt(parts[1])
  }

  /** Reading token t; `negate` says whether the token before it is "-".
      `coeff, index = t.split('_')` fails unless there are two pieces, and
      Python evaluates `Fraction(...)` before `int(index)`. */
  function Classify(t: string, negate: bool): Token
  {
    if '_' in t then
      var parts := Split(t, '_');
      if |parts| != 2 then Malformed(BadToken)
      else
        match ParseFraction((if negate then "-" else "") + DropLast(parts[0]))
        case None => Malformed(InvalidLiteral)
        case Some(v) =>
          match ParseInt(parts[1])
          case None => Malformed(InvalidLiteral)
          case Some(k) => Coefficient(v, k)
    else if t == "<=" then LessEq
    else if t == ">=" then GreaterEq
    else if t == "=" then Equal
    else Other
  }

  /** The tokens of constraint text c, `c.split(' ')`, each read with the
      token before it. */
  function Tokens(c: string): (r: seq<Token>)
    ensures |r| == |Split(c, ' ')|
  {
    var toks := Split(c, ' ');
    seq(|toks|, j requires 0 <= j < |toks| => Classify(toks[j], Previous(toks, j) == "-"))
  }

  /** The right-hand side of constraint text c: `Fraction(constraint[-1])`. */
  function RhsOf(c: string): Option<real>
  {
    LastValue(Split(c, ' '))
  }

  /** The value of the last of the tokens. */
  function LastValue(toks: seq<string>): Option<real>
    requires |toks| >= 1
  {
    ParseFraction(toks[|toks| - 1])
  }

  /** Same number of rows, every row of the same length. */
  predicate SameShape(A: Matrix, B: Matrix)
  {
    |A| == |B| && forall k :: 0 <= k < |A| ==> |A[k]| == |B[k]|
  }

  /** The state after a step: shape kept, only row i touched, both column
      counters moved forward, and only row i recorded. */
  predicate Advanced(f: Fill, g: Fill, i: nat)
  {
    && SameShape(g.matrix, f.matrix)
    && (forall k :: 0 <= k < |f.matrix| && k != i ==> g.matrix[k] == f.matrix[k])
    && f.sIndex <= g.sIndex && f.rIndex <= g.rIndex
    && |f.rRows| <= |g.rRows| && g.rRows[..|f.rRows|] == f.rRows
    && (forall t :: |f.rRows| <= t < |g.rRows| ==> g.rRows[t] == i)
  }

  lemma AdvancedTrans(f: Fill, g: Fill, h: Fill, i: nat)
    requires Advanced(f, g, i) && Advanced(g, h, i)
    ensures Advanced(f, h, i)
  {
    assert h.rRows[..|f.rRows|] == h.rRows[..|g.rRows|][..|f.rRows|];
  }

  /** What a token does to row i: a coefficient is stored, "<=" puts 1 in
      the next slack column, ">=" puts -1 there and 1 in the next artificial
      column and records the row, "=" puts 1 in the next artificial column
      and records the row. */
  function Apply(f: Fill, i: nat, tok: Token): (r: Result<Fill>)
    requires i < |f.matrix|
    ensures r.Ok? ==> |r.value.matrix| == |f.matrix|
  {
    match tok
    case Malformed(e) => Err(e)
    case Coefficient(v, k) =>
      (match Store(f.matrix, i, k - 1, v)
       case Err(e) => Err(e)
       case Ok(M) => Ok(f.(matrix := M)))
    case LessEq =>
      (match Store(f.matrix, i, f.sIndex, 1.0)
       case Err(e) => Err(e)
       case Ok(M) => Ok(f.(matrix := M, sIndex := f.sIndex + 1)))
    case GreaterEq =>
      (match Store(f.matrix, i, f.sIndex, -1.0)
       case Err(e) => Err(e)
       case Ok(M1) =>
         match Store(M1, i, f.rIndex, 1.0)
         case Err(e) => Err(e)
         case Ok(M2) => Ok(Fill(M2, f.sIndex + 1, f.rIndex + 1, f.rRows + [i])))
    case Equal =>
      (match Store(f.matrix, i, f.rIndex, 1.0)
       case Err(e) => Err(e)
       case Ok(M) => Ok(Fill(M, f.sIndex, f.rIndex + 1, f.rRows + [i])))
    case Other => Ok(f)
  }

  lemma ApplyAdvances(f: Fill, i: nat, tok: Token)
    requires i < |f.matrix| && Apply(f, i, tok).Ok?
    ensures Advanced(f, Apply(f, i, tok).value, i)
  {
  }

  /** A coefficient token `<v>x_<k>` writes v into row i at Python index
      k-1 (so k = 0 is the right-hand side) and changes nothing else; an
      index outside the row is an IndexError. */
  lemma ApplyCoefficient(f: Fill, i: nat, v: real, k: int)
    requires i < |f.matrix|
    ensures var r := Apply(f, i, Coefficient(v, k)); var w := |f.matrix[i]|;
      && (r.Ok? <==> -(w as int) <= k - 1 < w)
      && (r.Err? ==> r.error == IndexOutOfRange)
      && (r.Ok? ==> r.value == f.(matrix := f.matrix[i := f.matrix[i][PyIndex(k - 1, w).value := v]]))
  {
  }

  /** "<=" puts 1 in the next slack column of row i and moves the slack
      counter by one; the artificial counter and the recorded rows stay. A
      slack column past the row is an IndexError. */
  lemma ApplyLessEq(f: Fill, i: nat)
    requires i < |f.matrix|
    ensures var r := Apply(f, i, LessEq); var row := f.matrix[i];
      && (r.Ok? <==> f.sIndex < |row|)
      && (r.Err? ==> r.error == IndexOutOfRange)
      && (r.Ok? ==> r.value == Fill(f.matrix[i := row[f.sIndex := 1.0]], f.sIndex + 1, f.rIndex, f.rRows))
  {
  }

  /** ">=" puts -1 in the next slack column and then 1 in the next
      artificial column of row i (the 1 wins when both counters point at
      the same column), moves both counters by one and records row i. */
  lemma ApplyGreaterEq(f: Fill, i: nat)
    requires i < |f.matrix|
    ensures var r := Apply(f, i, GreaterEq); var row := f.matrix[i];
      && (r.Ok? <==> f.sIndex < |row| && f.rIndex < |row|)
      && (r.Err? ==> r.error == IndexOutOfRange)
      && (r.Ok? ==> r.value == Fill(f.matrix[i := row[f.sIndex := -1.0][f.rIndex := 1.0]], f.sIndex + 1, f.rIndex + 1, f.rRows + [i]))
  {
  }

  /** "=" puts 1 in the next artificial column of row i, moves the
      artificial counter by one and records row i; the slack counter
      stays. */
  lemma ApplyEqual(f: Fill, i: nat)
    requires i < |f.matrix|
    ensures var r := Apply(f, i, Equal); var row := f.matrix[i];
      && (r.Ok? <==> f.rIndex < |row|)
      && (r.Err? ==> r.error == IndexOutOfRange)
      && (r.Ok? ==> r.value == Fill(f.matrix[i := row[f.rIndex := 1.0]], f.sIndex, f.rIndex + 1, f.rRows + [i]))
  {
  }

  /** The number of tokens from j on that take a slack column ("<=" and
      ">="). */
  function SlackUses(tokens: seq<Token>, j: nat): nat
    requires j <= |tokens|
    decreases |tokens| - j
  {
    if j == |tokens| then 0 else (if tokens[j].LessEq? || tokens[j].GreaterEq? then 1 else 0) + SlackUses(tokens, j + 1)
  }

  /** The number of tokens from j on that take an artificial column (">="
      and "="). */
  function ArtificialUses(tokens: seq<Token>, j: nat): nat
    requires j <= |tokens|
    decreases |tokens| - j
  {
    if j == |tokens| then 0 else (if tokens[j].GreaterEq? || tokens[j].Equal? then 1 else 0) + ArtificialUses(tokens, j + 1)
  }

  /** Over a whole constraint, the slack counter moves by the number of
      "<=" and ">=" tokens, the artificial counter by the number of ">="
      and "=" tokens, and row i is recorded once per ">=" or "=" token. */
  lemma {:induction false} FillFromCounters(f: Fill, i: nat, tokens: seq<Token>, j: nat)
    requires i < |f.matrix| && j <= |tokens| && FillFrom(f, i, tokens, j).Ok?
    ensures var g := FillFrom(f, i, tokens, j).value;
      && g.sIndex == f.sIndex + SlackUses(tokens, j)
      && g.rIndex == f.rIndex + ArtificialUses(tokens, j)
      && g.rRows == f.rRows + seq(ArtificialUses(tokens, j), _ => i)
    decreases |tokens| - j
  {
    if j < |tokens| {
      var g := Apply(f, i, tokens[j]).value;
      FillFromCounters(g, i, tokens, j + 1);
      var n := ArtificialUses(tokens, j + 1);
      if tokens[j].GreaterEq? || tokens[j].Equal? {
        assert g.rRows == f.rRows + [i];
        assert f.rRows + [i] + seq(n, _ => i) == f.rRows + seq(n + 1, _ => i);
      } else {
        assert g.rRows == f.rRows;
      }
    } else {
      assert f.rRows + seq(0, _ => i) == f.rRows;
    }
  }

  /** Some coefficient token from j on writes into column `col` of a row
      of width w. */
  predicate Named(tokens: seq<Token>, j: nat, w: nat, col: nat)
  {
    exists t :: j <= t < |tokens| && tokens[t].Coefficient? && PyIndex(tokens[t].column - 1, w) == Some(col)
  }

  /** Over a whole constraint, an entry of row i keeps its value unless a
      coefficient token names its column or it lies among the slack
      columns or the artificial columns the relation tokens take. */
  lemma {:induction false} FillFromKeeps(f: Fill, i: nat, tokens: seq<Token>, j: nat, col: nat)
    requires i < |f.matrix| && j <= |tokens| && FillFrom(f, i, tokens, j).Ok?
    requires col < |f.matrix[i]| && !Named(tokens, j, |f.matrix[i]|, col)
    requires !(f.sIndex <= col < f.sIndex + SlackUses(tokens, j))
    requires !(f.rIndex <= col < f.rIndex + ArtificialUses(tokens, j))
    ensures var row := FillFrom(f, i, tokens, j).value.matrix[i];
      |row| == |f.matrix[i]| && row[col] == f.matrix[i][col]
    decreases |tokens| - j
  {
    if j < |tokens| {
      var w := |f.matrix[i]|;
      var g := Apply(f, i, tokens[j]).value;
      match tokens[j] {
        case Coefficient(v, k) =>
          ApplyCoefficient(f, i, v, k);
          assert tokens[j].Coefficient? && tokens[j].column == k;
        case LessEq => ApplyLessEq(f, i);
        case GreaterEq => ApplyGreaterEq(f, i);
        case Equal => ApplyEqual(f, i);
        case Malformed(_) =>
        case Other =>
      }
      assert |g.matrix[i]| == w && g.matrix[i][col] == f.matrix[i][col];
      forall t | j + 1 <= t < |tokens| && tokens[t].Coefficient?
        ensures PyIndex(tokens[t].column - 1, w) != Some(col)
      {
        assert j <= t;
      }
      FillFromKeeps(g, i, tokens, j + 1, col);
    }
  }

  /** Tokens j .. |tokens|-1 applied to row i, stopping at the first error. */
  function FillFrom(f: Fill, i: nat, tokens: seq<Token>, j: nat): (r: Result<Fill>)
    requires i < |f.matrix| && j <= |tokens|
    ensures r.Ok? ==> |r.value.matrix| == |f.matrix|
    decreases |tokens| - j
  {
    if j == |tokens| then Ok(f)
    else
      match Apply(f, i, tokens[j])
      case Err(e) => Err(e)
      case Ok(g) => FillFrom(g, i, tokens, j + 1)
  }

  lemma {:induction false} FillFromAdvances(f: Fill, i: nat, tokens: seq<Token>, j: nat)
    requires i < |f.matrix| && j <= |tokens| && FillFrom(f, i, tokens, j).Ok?
    ensures Advanced(f, FillFrom(f, i, tokens, j).value, i)
    decreases |tokens| - j
  {
    if j < |tokens| {
      var g := Apply(f, i, tokens[j]).value;
      ApplyAdvances(f, i, tokens[j]);
      FillFromAdvances(g, i, tokens, j + 1);
      AdvancedTrans(f, g, FillFrom(g, i, tokens, j + 1).value, i);
    }
  }

  /** Row i from constraint text c: its tokens, then the value of the last
      token written into the last entry. */
  function FillRow(f: Fill, i: nat, c: string): (r: Result<Fill>)
    requires i < |f.matrix|
    ensures r.Ok? ==> |r.value.matrix| == |f.matrix|
  {
    match FillFrom(f, i, Tokens(c), 0)
    case Err(e) => Err(e)
    case Ok(g) =>
      match RhsOf(c)
      case None => Err(InvalidLiteral)
      case Some(v) =>
        match Store(g.matrix, i, -1, v)
        case Err(e) => Err(e)
        case Ok(M) => Ok(g.(matrix := M))
  }

  lemma FillRowAdvances(f: Fill, i: nat, c: string)
    requires i < |f.matrix| && FillRow(f, i, c).Ok?
    ensures Advanced(f, FillRow(f, i, c).value, i)
  {
    var g := FillFrom(f, i, Tokens(c), 0).value;
    FillFromAdvances(f, i, Tokens(c), 0);
    var h := FillRow(f, i, c).value;
    assert Advanced(g, h, i);
    AdvancedTrans(f, g, h, i);
  }

  /** Every recorded row is a constraint row. */
  predicate RecordsRows(f: Fill)
  {
    forall t :: 0 <= t < |f.rRows| ==> 1 <= f.rRows[t] < |f.matrix|
  }

  /** Rows i .. |cs| filled from constraints i-1 .. |cs|-1. */
  function RowsFrom(f: Fill, cs: seq<string>, i: nat): (r: Result<Fill>)
    requires 1 <= i <= |cs| + 1 && |f.matrix| == |cs| + 1
    ensures r.Ok? ==> SameShape(r.value.matrix, f.matrix) && r.value.matrix[0] == f.matrix[0]
    ensures r.Ok? && RecordsRows(f) ==> RecordsRows(r.value)
    decreases |cs| + 1 - i
  {
    if i == |cs| + 1 then Ok(f)
    else
      match FillRow(f, i, cs[i - 1])
      case Err(e) => Err(e)
      case Ok(g) =>
        FillRowAdvances(f, i, cs[i - 1]);
        assert RecordsRows(f) ==> RecordsRows(g) by {
          if RecordsRows(f) {
            forall t | 0 <= t < |g.rRows| ensures 1 <= g.rRows[t] < |g.matrix| {
              if t < |f.rRows| {
                assert g.rRows[t] == g.rRows[..|f.rRows|][t];
              }
            }
          }
        }
        RowsFrom(g, cs, i + 1)
  }

  /** The all-zero tableau. */
  function Zeros(rows: nat, width: nat): (M: Matrix)
    ensures |M| == rows && forall i :: 0 <= i < rows ==> |M[i]| == width
    ensures forall i, j :: 0 <= i < rows && 0 <= j < width ==> M[i][j] == 0.0
  {
    seq(rows, _ => seq(width, _ => 0.0))
  }

  /** The state the row filling starts from. */
  function Start(countVars: nat, cs: seq<string>): Fill
  {
    var counts := Counts(cs, |cs|);
    Fill(Zeros(|cs| + 1, countVars + counts.0 + counts.1 + 1), countVars, countVars + counts.0, [])
  }

  /** `construct_matrix_from_constraints`. */
  function Build(countVars: nat, cs: seq<string>): Result<Built>
  {
    var counts := Counts(cs, |cs|);
    match RowsFrom(Start(countVars, cs), cs, 1)
    case Err(e) => Err(e)
    case Ok(f) => Ok(Built(f.matrix, f.rRows, counts.0, counts.1))
  }

  /** The tableau has one row per constraint plus the cost row, all of
      width count_vars + num_s_vars + num_r_vars + 1; the cost row is zero;
      the recorded rows are constraint rows; and the counters count as
      `CountsByRelation` says. */
  lemma BuildShape(countVars: nat, cs: seq<string>)
    requires Build(countVars, cs).Ok?
    ensures var b := Build(countVars, cs).value;
      && |b.matrix| == |cs| + 1
      && (forall i :: 0 <= i < |b.matrix| ==> |b.matrix[i]| == countVars + b.numS + b.numR + 1)
      && Rectangular(b.matrix)
      && (forall j :: 0 <= j < |b.matrix[0]| ==> b.matrix[0][j] == 0.0)
      && (forall t :: 0 <= t < |b.rRows| ==> 1 <= b.rRows[t] <= |cs|)
      && b.numS == CountEither(cs, ">=", "<=", |cs|)
      && b.numR == CountButNot(cs, "=", ">=", |cs|)
  {
    CountsByRelation(cs, |cs|);
    var f := RowsFrom(Start(countVars, cs), cs, 1).value;
    assert f.matrix[0] == Start(countVars, cs).matrix[0];
  }

  // ---------------------------------------------------------------------
  // What lands in the row

  /** Token tok is a coefficient whose index names column q of a row of the
      given width. */
  predicate Names(tok: Token, width: nat, q: nat)
  {
    tok.Coefficient? && PyIndex(tok.column - 1, width) == Some(q)
  }

  /** A column left of both counters that no token from j on names keeps its
      value through tokens j .. |tokens|-1. */
  lemma {:induction false} UnnamedColumnKept(f: Fill, i: nat, tokens: seq<Token>, j: nat, q: nat)
    requires i < |f.matrix| && j <= |tokens| && q < |f.matrix[i]|
    requires q < f.sIndex && q < f.rIndex
    requires forall t :: j <= t < |tokens| ==> !Names(tokens[t], |f.matrix[i]|, q)
    requires FillFrom(f, i, tokens, j).Ok?
    ensures var g := FillFrom(f, i, tokens, j).value;
      |g.matrix[i]| == |f.matrix[i]| && g.matrix[i][q] == f.matrix[i][q]
    decreases |tokens| - j
  {
    if j < |tokens| {
      var g := Apply(f, i, tokens[j]).value;
      ApplyAdvances(f, i, tokens[j]);
      assert g.matrix[i][q] == f.matrix[i][q];
      UnnamedColumnKept(g, i, tokens, j + 1, q);
    }
  }

  /** A coefficient token j naming column q puts its value there, and the
      last token naming a column is the one whose value stays. */
  lemma LastCoefficientWins(f: Fill, i: nat, tokens: seq<Token>, j: nat, q: nat)
    requires i < |f.matrix| && j < |tokens| && q < |f.matrix[i]|
    requires q < f.sIndex && q < f.rIndex
    requires Names(tokens[j], |f.matrix[i]|, q)
    requires forall t :: j < t < |tokens| ==> !Names(tokens[t], |f.matrix[i]|, q)
    requires FillFrom(f, i, tokens, j).Ok?
    ensures var g := FillFrom(f, i, tokens, j).value;
      |g.matrix[i]| == |f.matrix[i]| && g.matrix[i][q] == tokens[j].value
  {
    var g := Apply(f, i, tokens[j]).value;
    ApplyAdvances(f, i, tokens[j]);
    UnnamedColumnKept(g, i, tokens, j + 1, q);
  }

  /** The last entry of a filled row is the value of the constraint's last
      token. */
  lemma RowEndsWithRhs(f: Fill, i: nat, c: string)
    requires i < |f.matrix| && FillRow(f, i, c).Ok?
    ensures var row := FillRow(f, i, c).value.matrix[i];
      |row| >= 1 && RhsOf(c).Some? && row[|row| - 1] == RhsOf(c).value
  {
    var g := FillFrom(f, i, Tokens(c), 0).value;
    var v := RhsOf(c).value;
    var n := |g.matrix[i]|;
    assert PyIndex(-1, n) == Some(n - 1);
    assert FillRow(f, i, c).value.matrix[i] == g.matrix[i][n - 1 := v];
  }

  /** The coefficient token "<c>x_<k>" reads as c in column k, and as -c
      after a "-" token: the printed form of a term is read back. */
  lemma ClassifyTerm(c: nat, k: nat, negate: bool)
    ensures Classify(ShowNat(c) + "x_" + ShowNat(k), negate)
         == Coefficient(if negate then -(c as real) else c as real, k)
  {
    var t := ShowNat(c) + "x_" + ShowNat(k);
    SplitTerm(c, k);
    assert DropLast(ShowNat(c) + "x") == ShowNat(c);
    ParseFractionSigned(c, negate);
    ParseIntNat(k);
  }

  /** A term splits at its one underscore. */
  lemma SplitTerm(c: nat, k: nat)
    ensures var t := ShowNat(c) + "x_" + ShowNat(k);
      '_' in t && Split(t, '_') == [ShowNat(c) + "x", ShowNat(k)]
  {
    var t := ShowNat(c) + "x_" + ShowNat(k);
    var head := ShowNat(c) + "x";
    NoUnderscoreInDigits(ShowNat(c));
    assert '_' !in head by {
      assert forall m :: 0 <= m < |head| ==> head[m] == (ShowNat(c) + ['x'])[m];
    }
    NoUnderscoreInDigits(ShowNat(k));
    assert t == head + ['_'] + ShowNat(k);
    SplitPrefix(head, ShowNat(k), '_');
    SplitNoSep(ShowNat(k), '_');
    assert t[|head|] == '_';
  }

  lemma NoUnderscoreInDigits(s: string)
    requires AllDigits(s)
    ensures '_' !in s
  {
    forall k | 0 <= k < |s|
      ensures s[k] != '_'
    {
      assert IsDigit(s[k]);
    }
  }

  // ---------------------------------------------------------------------
  // The counters' quirk

  /** Two ">=" constraints and nothing else leave no room for the second
      artificial column, and the parser fails with an IndexError. */
  lemma TwoLowerBoundsOverflow()
    ensures Build(1, ["1x_1 >= 1", "1x_1 >= 2"]) == Err(IndexOutOfRange)
  {
    var cs := ["1x_1 >= 1", "1x_1 >= 2"];
    TwoLowerBoundsCount();
    var start := Start(1, cs);
    assert start.rIndex == 3 && |start.matrix[1]| == 4;
    assert cs[0] == "1x_1 >= " + "1" && cs[1] == "1x_1 >= " + "2";
    LowerBoundRow(start, 1, "1");
    var g := FillRow(start, 1, cs[0]).value;
    FillRowAdvances(start, 1, cs[0]);
    assert g.rIndex == 4 && |g.matrix[2]| == 4;
    LowerBoundRow(g, 2, "2");
    assert RowsFrom(g, cs, 2) == Err(IndexOutOfRange);
  }

  lemma TwoLowerBoundsCount()
    ensures Counts(["1x_1 >= 1", "1x_1 >= 2"], 2) == (2, 0)
  {
    var cs := ["1x_1 >= 1", "1x_1 >= 2"];
    assert Contains(cs[0], ">=") by {
      assert cs[0][5..7] == ">=";
      PositionIsContained(cs[0], ">=", 5);
    }
    assert Contains(cs[1], ">=") by {
      assert cs[1][5..7] == ">=";
      PositionIsContained(cs[1], ">=", 5);
    }
  }

  /** Row i from "1x_1 >= <rhs>": it fits exactly when both the slack and
      the artificial column fall inside the row, and then moves the
      artificial counter by one. */
  lemma LowerBoundRow(f: Fill, i: nat, rhs: string)
    requires i < |f.matrix| && |f.matrix[i]| >= 1
    requires rhs == "1" || rhs == "2"
    ensures var c := "1x_1 >= " + rhs;
      && (FillRow(f, i, c).Ok? <==> f.sIndex < |f.matrix[i]| && f.rIndex < |f.matrix[i]|)
      && (FillRow(f, i, c).Err? ==> FillRow(f, i, c) == Err(IndexOutOfRange))
      && (FillRow(f, i, c).Ok? ==> FillRow(f, i, c).value.rIndex == f.rIndex + 1)
  {
    LowerBoundTokens(rhs);
    LowerBoundFill(f, i);
  }

  /** A "1x_k >= <rhs>" row whose `r_index` has reached the right-hand-side
      column: the row still fits, but its artificial 1 lands in the last
      entry, which the right-hand side then overwrites. The row is recorded
      in `r_rows` all the same, with no artificial column of its own, and
      `r_index` moves past the row. */
  lemma ArtificialInRhsColumn(f: Fill, i: nat, c: string, k: nat, v: real)
    requires i < |f.matrix| && 1 <= k <= f.sIndex && f.sIndex < |f.matrix[i]| - 1 == f.rIndex
    requires Tokens(c) == [Coefficient(1.0, k), GreaterEq, Other] && RhsOf(c) == Some(v)
    ensures FillRow(f, i, c).Ok?
    ensures var g := FillRow(f, i, c).value; var w := |f.matrix[i]|;
      && |g.matrix[i]| == w && g.matrix[i][w - 1] == v && g.matrix[i][f.sIndex] == -1.0
      && g.rRows == f.rRows + [i] && g.rIndex == w
  {
    var w := |f.matrix[i]|;
    var row := f.matrix[i][k - 1 := 1.0][f.sIndex := -1.0][w - 1 := 1.0];
    var f2 := Fill(f.matrix[i := row], f.sIndex + 1, w, f.rRows + [i]);
    LowerBoundTokensFill(f, i, Tokens(c), k);
    assert PyIndex(-1, w) == Some(w - 1);
    assert FillRow(f, i, c) == Ok(f2.(matrix := f2.matrix[i := row[w - 1 := v]]));
  }

  /** The tokens of "1x_k >= <rhs>" applied to row i, one by one. */
  lemma LowerBoundTokensFill(f: Fill, i: nat, tokens: seq<Token>, k: nat)
    requires i < |f.matrix| && 1 <= k <= |f.matrix[i]| && f.sIndex < |f.matrix[i]| && f.rIndex < |f.matrix[i]|
    requires tokens == [Coefficient(1.0, k), GreaterEq, Other]
    ensures FillFrom(f, i, tokens, 0) ==
      Ok(Fill(f.matrix[i := f.matrix[i][k - 1 := 1.0][f.sIndex := -1.0][f.rIndex := 1.0]], f.sIndex + 1, f.rIndex + 1, f.rRows + [i]))
  {
    var f1 := f.(matrix := f.matrix[i := f.matrix[i][k - 1 := 1.0]]);
    ApplyCoefficient(f, i, 1.0, k);
    ApplyGreaterEq(f1, i);
    var f2 := Apply(f1, i, GreaterEq).value;
    assert f2.matrix == f.matrix[i := f.matrix[i][k - 1 := 1.0][f.sIndex := -1.0][f.rIndex := 1.0]];
    assert FillFrom(f2, i, tokens, 2) == Ok(f2);
  }

  lemma LowerBoundFill(f: Fill, i: nat)
    requires i < |f.matrix| && |f.matrix[i]| >= 1
    ensures var r := FillFrom(f, i, [Coefficient(1.0, 1), GreaterEq, Other], 0);
      && (r.Ok? <==> f.sIndex < |f.matrix[i]| && f.rIndex < |f.matrix[i]|)
      && (r.Err? ==> r == Err(IndexOutOfRange))
      && (r.Ok? ==> |r.value.matrix[i]| == |f.matrix[i]| && r.value.rIndex == f.rIndex + 1)
  {
    var tokens := [Coefficient(1.0, 1), GreaterEq, Other];
    var f1 := f.(matrix := f.matrix[i := f.matrix[i][0 := 1.0]]);
    assert Apply(f, i, tokens[0]) == Ok(f1);
    if f.sIndex < |f.matrix[i]| && f.rIndex < |f.matrix[i]| {
      var M1 := f1.matrix[i := f1.matrix[i][f.sIndex := -1.0]];
      var M2 := M1[i := M1[i][f.rIndex := 1.0]];
      var f2 := Fill(M2, f.sIndex + 1, f.rIndex + 1, f.rRows + [i]);
      assert Apply(f1, i, tokens[1]) == Ok(f2);
      assert FillFrom(f2, i, tokens, 2) == Ok(f2);
      assert FillFrom(f, i, tokens, 0) == Ok(f2);
    } else {
      assert Apply(f1, i, tokens[1]) == Err(IndexOutOfRange);
      assert FillFrom(f, i, tokens, 0) == Err(IndexOutOfRange);
    }
  }

  lemma LowerBoundTokens(rhs: string)
    requires rhs == "1" || rhs == "2"
    ensures Tokens("1x_1 >= " + rhs) == [Coefficient(1.0, 1), GreaterEq, Other]
    ensures RhsOf("1x_1 >= " + rhs).Some?
  {
    var c := "1x_1 >= " + rhs;
    LowerBoundSplit(rhs);
    assert |Tokens(c)| == 3;
    LowerBoundFirstToken(rhs);
    LowerBoundOtherTokens(rhs);
    LowerBoundRhs(rhs);
  }

  lemma LowerBoundRhs(rhs: string)
    requires rhs == "1" || rhs == "2"
    requires Split("1x_1 >= " + rhs, ' ') == ["1x_1", ">=", rhs]
    ensures RhsOf("1x_1 >= " + rhs).Some?
  {
    if rhs == "1" {
      ParseFractionSigned(1, false);
      assert "" + ShowNat(1) == "1";
    } else {
      ParseFractionSigned(2, false);
      assert "" + ShowNat(2) == "2";
    }
  }

  lemma LowerBoundFirstToken(rhs: string)
    requires rhs == "1" || rhs == "2"
    requires Split("1x_1 >= " + rhs, ' ') == ["1x_1", ">=", rhs]
    ensures Tokens("1x_1 >= " + rhs)[0] == Coefficient(1.0, 1)
  {
    var one := ShowNat(1);
    assert one == "1";
    assert one + "x_" + one == "1x_1";
    TokenAt("1x_1 >= " + rhs, 0);
    assert Previous(["1x_1", ">=", rhs], 0) == rhs != "-";
    ClassifyTerm(1, 1, false);
  }

  /** Token j of constraint text c is its j-th word read with the word
      before it. */
  lemma TokenAt(c: string, j: nat)
    requires j < |Split(c, ' ')|
    ensures Tokens(c)[j] == Classify(Split(c, ' ')[j], Previous(Split(c, ' '), j) == "-")
  {
  }

  lemma LowerBoundOtherTokens(rhs: string)
    requires rhs == "1" || rhs == "2"
    requires Split("1x_1 >= " + rhs, ' ') == ["1x_1", ">=", rhs]
    ensures Tokens("1x_1 >= " + rhs)[1] == GreaterEq
    ensures Tokens("1x_1 >= " + rhs)[2] == Other
  {
    assert Tokens("1x_1 >= " + rhs)[1] == Classify(">=", false);
    assert Tokens("1x_1 >= " + rhs)[2] == Classify(rhs, false);
  }

  lemma LowerBoundSplit(rhs: string)
    requires rhs == "1" || rhs == "2"
    ensures Split("1x_1 >= " + rhs, ' ') == ["1x_1", ">=", rhs]
  {
    var toks := ["1x_1", ">=", rhs];
    assert toks[1..] == [">=", rhs];
    assert [">=", rhs][1..] == [rhs];
    assert Join([rhs], ' ') == rhs;
    assert Join([">=", rhs], ' ') == ">=" + [' '] + rhs;
    assert Join(toks, ' ') == "1x_1" + [' '] + (">=" + [' '] + rhs);
    assert "1x_1" + [' '] + (">=" + [' '] + rhs) == "1x_1 >= " + rhs;
    SplitJoin(toks, ' ');
  }

  // ---------------------------------------------------------------------
  // The parser as written: two loops over the constraint strings

  /** The first loop: the number of slack and of artificial columns. */
  method CountColumns(constraints: seq<string>) returns (numS: nat, numR: nat)
    ensures (numS, numR) == Counts(constraints, |constraints|)
  {
    numS, numR := 0, 0;
    for e := 0 to |constraints|
      invariant (numS, numR) == Counts(constraints, e)
    {
      var expression := constraints[e];
      if Contains(expression, ">=") {
        numS := numS + 1;
      } else if Contains(expression, "<=") {
        numS := numS + 1;
        numR := numR + 1;
      } else if Contains(expression, "=") {
        numR := numR + 1;
      }
    }
  }

  /** Reading token j of a split constraint. */
  method ReadToken(constraint: seq<string>, j: nat) returns (tok: Token)
    requires j < |constraint|
    ensures tok == Classify(constraint[j], Previous(constraint, j) == "-")
  {
    var token := constraint[j];
    if '_' in token {
      var parts := Split(token, '_');
      if |parts| != 2 {
        return Malformed(BadToken);
      }
      var previous := if j == 0 then constraint[|constraint| - 1] else constraint[j - 1];
      var text := if previous == "-" then "-" + DropLast(parts[0]) else DropLast(parts[0]);
      assert text == (if previous == "-" then "-" else "") + DropLast(parts[0]);
      var coefficient := ParseFraction(text);
      if coefficient.None? {
        return Malformed(InvalidLiteral);
      }
      var index := ParseInt(parts[1]);
      if index.None? {
        return Malformed(InvalidLiteral);
      }
      tok := Coefficient(coefficient.value, index.value);
    } else if token == "<=" {
      tok := LessEq;
    } else if token == ">=" {
      tok := GreaterEq;
    } else if token == "=" {
      tok := Equal;
    } else {
      tok := Other;
    }
  }

  /** One token's writes into row i. */
  method ApplyToken(f: Fill, i: nat, tok: Token) returns (res: Result<Fill>)
    requires i < |f.matrix|
    ensures res == Apply(f, i, tok)
  {
    var matrix, sIndex, rIndex, rRows := f.matrix, f.sIndex, f.rIndex, f.rRows;
    match tok {
      case Malformed(e) =>
        return Err(e);
      case Coefficient(v, k) =>
        var q := PyIndex(k - 1, |matrix[i]|);
        if q.None? {
          return Err(IndexOutOfRange);
        }
        matrix := matrix[i := matrix[i][q.value := v]];
      case LessEq =>
        if sIndex >= |matrix[i]| {
          return Err(IndexOutOfRange);
        }
        matrix := matrix[i := matrix[i][sIndex := 1.0]];
        sIndex := sIndex + 1;
      case GreaterEq =>
        if sIndex >= |matrix[i]| {
          return Err(IndexOutOfRange);
        }
        matrix := matrix[i := matrix[i][sIndex := -1.0]];
        if rIndex >= |matrix[i]| {
          return Err(IndexOutOfRange);
        }
        matrix := matrix[i := matrix[i][rIndex := 1.0]];
        sIndex, rIndex := sIndex + 1, rIndex + 1;
        rRows := rRows + [i];
      case Equal =>
        if rIndex >= |matrix[i]| {
          return Err(IndexOutOfRange);
        }
        matrix := matrix[i := matrix[i][rIndex := 1.0]];
        rIndex := rIndex + 1;
        rRows := rRows + [i];
      case Other =>
    }
    res := Ok(Fill(matrix, sIndex, rIndex, rRows));
  }

  /** The token loop of one pass of the second loop: each token of the
      split constraint text, in order, written into row i. */
  method FillTokens(f: Fill, i: nat, constraint: seq<string>, ghost c: string) returns (res: Result<Fill>)
    requires i < |f.matrix| && constraint == Split(c, ' ')
    ensures res == FillFrom(f, i, Tokens(c), 0)
  {
    var g := f;
    ghost var tokens := Tokens(c);
    for j := 0 to |constraint|
      invariant |g.matrix| == |f.matrix|
      invariant FillFrom(f, i, tokens, 0) == FillFrom(g, i, tokens, j)
    {
      var tok := ReadToken(constraint, j);
      assert tok == tokens[j];
      var r := ApplyToken(g, i, tok);
      if r.Err? {
        return Err(r.error);
      }
      g := r.value;
    }
    return Ok(g);
  }

  /** One pass of the second loop: row i from constraint text c. */
  method FillConstraintRow(f: Fill, i: nat, c: string) returns (res: Result<Fill>)
    requires i < |f.matrix|
    ensures res == FillRow(f, i, c)
  {
    var constraint := Split(c, ' ');
    var filled := FillTokens(f, i, constraint, c);
    if filled.Err? {
      return Err(filled.error);
    }
    var g := filled.value;
    var rhs := LastValue(constraint);
    if rhs.None? {
      return Err(InvalidLiteral);
    }
    var last := PyIndex(-1, |g.matrix[i]|);
    var stored := Store(g.matrix, i, -1, rhs.value);
    if last.None? {
      return Err(IndexOutOfRange);
    }
    res := Ok(g.(matrix := g.matrix[i := g.matrix[i][last.value := rhs.value]]));
    assert stored == Ok(res.value.matrix);
  }

  /** `construct_matrix_from_constraints`: count the columns, lay out the
      zero tableau, then fill one row per constraint. */
  method ConstructMatrix(countVars: nat, constraints: seq<string>) returns (res: Result<Built>)
    ensures res == Build(countVars, constraints)
  {
    var numS, numR := CountColumns(constraints);
    var total := countVars + numS + numR;
    var start := Fill(Zeros(|constraints| + 1, total + 1), countVars, countVars + numS, []);
    assert start == Start(countVars, constraints);
    var filled := FillRows(start, constraints);
    if filled.Err? {
      return Err(filled.error);
    }
    var f := filled.value;
    res := Ok(Built(f.matrix, f.rRows, numS, numR));
  }

  /** The second loop of `construct_matrix_from_constraints`: rows 1 ..
      |constraints| from the constraints in order. */
  method FillRows(start: Fill, constraints: seq<string>) returns (res: Result<Fill>)
    requires |start.matrix| == |constraints| + 1
    ensures res == RowsFrom(start, constraints, 1)
  {
    var f := start;
    for i := 1 to |constraints| + 1
      invariant |f.matrix| == |constraints| + 1
      invariant RowsFrom(start, constraints, 1) == RowsFrom(f, constraints, i)
    {
      var r := FillConstraintRow(f, i, constraints[i - 1]);
      if r.Err? {
        return Err(r.error);
      }
      f := r.value;
    }
    return Ok(f);
  }
}
