/** A worked run of the simplex solver: maximize x_1 + x_2 subject to
    x_1 <= 4 and x_2 <= 3, given as the strings the solver reads.  Each
    stage (parsing, phase 1, the objective, the two pivots of phase 2 and
    the read-out) is a lemma of its own, computed on a parameter the
    lemma's precondition pins to a concrete value. */
module SimplexExample {
  import opened Outcomes
  import opened PyText
  import opened Rows
  import opened Construct
  import opened Pivoting
  import opened Phases

  /** A sequence of three, entry by entry. */
  lemma Three<T>(U: seq<T>, a: T, b: T, c: T)
    requires |U| == 3 && U[0] == a && U[1] == b && U[2] == c
    ensures U == [a, b, c]
  {
  }

  // ---------------------------------------------------------------------
  // Phase 2: the objective, the price-out and two pivots

  /** The loop condition at the first phase-2 tableau: `min_index` finds
      the -1 of x_1 first, and the ratio test picks row 1 (4 / 1; row 2 has
      0 in that column). */
  lemma FirstChoice(t: Tableau)
    requires t == Tableau([[-1.0, -1.0, 0.0, 0.0, 0.0], [1.0, 0.0, 1.0, 0.0, 4.0], [0.0, 1.0, 0.0, 1.0, 3.0]], [0, 2, 3])
    ensures WellFormed(t) && Choose(t, Maximize) == Enter(1, 0)
  {
    var row := t.matrix[0];
    assert MinPrefix(row, 1) == 0;
    assert MinPrefix(row, 2) == 0;
    assert MinPrefix(row, 3) == 0;
    assert MinPrefix(row, 4) == 0;
    assert MinIndex(row) == 0;
    var M := t.matrix;
    assert KeyRowScan(M, 0, 1) == None;
    assert KeyRowScan(M, 0, 2) == Some(1);
    assert KeyRowScan(M, 0, 3) == Some(1);
  }

  /** The first pivot, on row 1 and column 0: row 0 gains row 1. */
  lemma FirstPivot(M: Matrix)
    requires M == [[-1.0, -1.0, 0.0, 0.0, 0.0], [1.0, 0.0, 1.0, 0.0, 4.0], [0.0, 1.0, 0.0, 1.0, 3.0]]
    ensures Rectangular(M) && M[1][0] != 0.0
    ensures Pivot(M, 1, 0) == [[0.0, -1.0, 1.0, 0.0, 4.0], [1.0, 0.0, 1.0, 0.0, 4.0], [0.0, 1.0, 0.0, 1.0, 3.0]]
  {
    var R := Pivot(M, 1, 0);
    var N := Normalized(M, 1, 1.0);
    assert N[1] == M[1];
    assert R[0] == [0.0, -1.0, 1.0, 0.0, 4.0];
    assert R[1] == M[1];
    assert R[2] == M[2];
    Three(R, [0.0, -1.0, 1.0, 0.0, 4.0], M[1], M[2]);
  }

  /** The loop condition after the first pivot: the -1 of x_2 enters, and
      the ratio test picks row 2 (3 / 1; row 1 has 0 in that column). */
  lemma SecondChoice(t: Tableau)
    requires t == Tableau([[0.0, -1.0, 1.0, 0.0, 4.0], [1.0, 0.0, 1.0, 0.0, 4.0], [0.0, 1.0, 0.0, 1.0, 3.0]], [0, 0, 3])
    ensures WellFormed(t) && Choose(t, Maximize) == Enter(2, 1)
  {
    var row := t.matrix[0];
    assert MinPrefix(row, 1) == 0;
    assert MinPrefix(row, 2) == 1;
    assert MinPrefix(row, 3) == 1;
    assert MinPrefix(row, 4) == 1;
    assert MinIndex(row) == 1;
    var M := t.matrix;
    assert KeyRowScan(M, 1, 2) == None;
    assert KeyRowScan(M, 1, 3) == Some(2);
  }

  /** The second pivot, on row 2 and column 1: row 0 gains row 2. */
  lemma SecondPivot(M: Matrix)
    requires M == [[0.0, -1.0, 1.0, 0.0, 4.0], [1.0, 0.0, 1.0, 0.0, 4.0], [0.0, 1.0, 0.0, 1.0, 3.0]]
    ensures Rectangular(M) && M[2][1] != 0.0
    ensures Pivot(M, 2, 1) == [[0.0, 0.0, 1.0, 1.0, 7.0], [1.0, 0.0, 1.0, 0.0, 4.0], [0.0, 1.0, 0.0, 1.0, 3.0]]
  {
    var R := Pivot(M, 2, 1);
    var N := Normalized(M, 2, 1.0);
    assert N[2] == M[2];
    assert R[0] == [0.0, 0.0, 1.0, 1.0, 7.0];
    assert R[1] == M[1];
    assert R[2] == M[2];
    Three(R, [0.0, 0.0, 1.0, 1.0, 7.0], M[1], M[2]);
  }

  /** The loop condition after the second pivot fails: no cost entry is
      negative. */
  lemma FinalChoice(t: Tableau)
    requires t == Tableau([[0.0, 0.0, 1.0, 1.0, 7.0], [1.0, 0.0, 1.0, 0.0, 4.0], [0.0, 1.0, 0.0, 1.0, 3.0]], [0, 0, 1])
    ensures WellFormed(t) && Choose(t, Maximize) == Stop
  {
    var row := t.matrix[0];
    assert MinPrefix(row, 1) == 0;
    assert MinPrefix(row, 2) == 0;
    assert MinPrefix(row, 3) == 0;
    assert MinPrefix(row, 4) == 0;
    assert MinIndex(row) == 0;
  }

  /** The phase-2 loop: two pivots, x_1 entering at row 1 and x_2 at row 2,
      leave the cost row at (0, 0, 1, 1 | 7); it needs two units of fuel. */
  lemma MaximizeLoop(t: Tableau, fuel: nat)
    requires t == Tableau([[-1.0, -1.0, 0.0, 0.0, 0.0], [1.0, 0.0, 1.0, 0.0, 4.0], [0.0, 1.0, 0.0, 1.0, 3.0]], [0, 2, 3])
    requires fuel >= 2
    ensures WellFormed(t)
    ensures Iterate(t, Maximize, fuel) ==
      Ok(Tableau([[0.0, 0.0, 1.0, 1.0, 7.0], [1.0, 0.0, 1.0, 0.0, 4.0], [0.0, 1.0, 0.0, 1.0, 3.0]], [0, 0, 1]))
  {
    FirstChoice(t);
    FirstPivot(t.matrix);
    var t1 := Step(t, 1, 0);
    assert t1.basic == [0, 0, 3];
    SecondChoice(t1);
    SecondPivot(t1.matrix);
    var t2 := Step(t1, 2, 1);
    assert t2.basic == [0, 0, 1];
    FinalChoice(t2);
    assert Iterate(t1, Maximize, fuel - 1) == Iterate(t2, Maximize, fuel - 2);
  }

  // ---------------------------------------------------------------------
  // The objective "1x_1 + 1x_2"

  /** A word followed by white space or by nothing is the first word. */
  lemma {:induction false} WordsWord(a: string, rest: string)
    requires a != [] && forall k :: 0 <= k < |a| ==> !IsSpace(a[k])
    requires rest == [] || IsSpace(rest[0])
    ensures Words(a + rest) == [a] + Words(rest)
    decreases |a|
  {
    var s := a + rest;
    if |a| == 1 {
      assert s[1..] == rest && a == [s[0]];
      assert |s| > 1 ==> s[1] == rest[0];
    } else {
      assert s[1..] == a[1..] + rest && s[1] == a[1];
      WordsWord(a[1..], rest);
      assert ([a[1..]] + Words(rest))[1..] == Words(rest);
      assert [s[0]] + a[1..] == a;
    }
  }

  /** A leading space separates nothing. */
  lemma WordsSpace(rest: string)
    ensures Words([' '] + rest) == Words(rest)
  {
    assert ([' '] + rest)[1..] == rest;
  }

  /** No white space in the text. */
  predicate Solid(a: string)
  {
    forall k :: 0 <= k < |a| ==> !IsSpace(a[k])
  }

  /** A space and a word, then more: the word comes first. */
  lemma WordsAfterSpace(b: string, rest: string)
    requires b != [] && Solid(b) && (rest == [] || IsSpace(rest[0]))
    ensures Words([' '] + b + rest) == [b] + Words(rest)
  {
    assert [' '] + b + rest == [' '] + (b + rest);
    WordsSpace(b + rest);
    WordsWord(b, rest);
  }

  /** Three words joined by single spaces split back into the three. */
  lemma WordsThree(a: string, b: string, c: string)
    requires a != [] && b != [] && c != [] && Solid(a) && Solid(b) && Solid(c)
    ensures Words(a + ([' '] + b + ([' '] + c))) == [a, b, c]
  {
    var tail2 := [' '] + c;
    WordsAfterSpace(c, []);
    assert tail2 + [] == tail2;
    var tail1 := [' '] + b + tail2;
    WordsAfterSpace(b, tail2);
    WordsWord(a, tail1);
  }

  /** `objective_fun.split()` on the objective. */
  lemma ObjectiveWords(o: string)
    requires o == "1x_1 + 1x_2"
    ensures Words(o) == ["1x_1", "+", "1x_2"]
  {
    var x1, plus, x2 := "1x_1", "+", "1x_2";
    assert Solid(x1) && Solid(plus) && Solid(x2);
    assert o == x1 + ([' '] + plus + ([' '] + x2));
    WordsThree(x1, plus, x2);
  }

  /** The words of the objective read as the negated coefficients of x_1
      and x_2, the "+" between them read as nothing. */
  lemma ObjectiveRead(o: string)
    requires o == "1x_1 + 1x_2"
    ensures ObjectiveTokens(o) == [Coefficient(-1.0, 1), Other, Coefficient(-1.0, 2)]
  {
    ObjectiveWords(o);
    ReadThree(o, "1x_1", "+", "1x_2");
    TermText(1);
    TermText(2);
    ObjectiveTerm(1, 1, false);
    ObjectiveTerm(1, 2, false);
    assert ObjectiveToken("+", false) == Other;
  }

  /** Each of three words is read with the word before it, the first with
      the last. */
  lemma ReadThree(o: string, a: string, b: string, c: string)
    requires Words(o) == [a, b, c]
    ensures ObjectiveTokens(o) == [ObjectiveToken(a, c == "-"), ObjectiveToken(b, a == "-"), ObjectiveToken(c, b == "-")]
  {
  }

  /** The spelling of the term 1x_k for k = 1 .. 4. */
  lemma TermText(k: nat)
    requires 1 <= k <= 4
    ensures ShowNat(k) == [('0' as int + k) as char]
    ensures ShowNat(1) + "x_" + ShowNat(k) == ['1', 'x', '_', ('0' as int + k) as char]
  {
  }

  /** `update_objective_fun` writes -1 for x_1 and x_2 into the zero cost
      row: the cost row of a maximization holds the negated objective. */
  lemma ObjectiveWritten(row0: Row, o: string)
    requires row0 == [0.0, 0.0, 0.0, 0.0, 0.0] && o == "1x_1 + 1x_2"
    ensures UpdateObjective(row0, o) == Ok([-1.0, -1.0, 0.0, 0.0, 0.0])
  {
    ObjectiveRead(o);
    ObjectiveStored(row0, ObjectiveTokens(o));
  }

  /** The two coefficients stored into the zero cost row, in order. */
  lemma ObjectiveStored(row0: Row, tokens: seq<Token>)
    requires row0 == [0.0, 0.0, 0.0, 0.0, 0.0]
    requires tokens == [Coefficient(-1.0, 1), Other, Coefficient(-1.0, 2)]
    ensures ObjectiveFrom(row0, tokens, 0) == Ok([-1.0, -1.0, 0.0, 0.0, 0.0])
  {
    var r1 := row0[0 := -1.0];
    var r2 := r1[1 := -1.0];
    assert ObjectiveFrom(r2, tokens, 3) == Ok(r2);
    assert ObjectiveFrom(r1, tokens, 2) == Ok(r2);
    assert ObjectiveFrom(r1, tokens, 1) == Ok(r2);
    assert ObjectiveFrom(row0, tokens, 0) == Ok(r2);
    assert r2 == [-1.0, -1.0, 0.0, 0.0, 0.0];
  }

  /** The slack columns 2 and 3 are basic and cost nothing, so the
      price-out leaves the cost row as it is. */
  lemma NothingToPriceOut(row0: Row, M: Matrix)
    requires row0 == [-1.0, -1.0, 0.0, 0.0, 0.0]
    requires M == [row0, [1.0, 0.0, 1.0, 0.0, 4.0], [0.0, 1.0, 0.0, 1.0, 3.0]]
    ensures Rectangular(M) && PriceOut(row0, M, [0, 2, 3]) == Ok(row0)
  {
    assert PriceOutFrom(row0, M, [0, 2, 3], 2) == Ok(row0);
  }

  /** Phase 2 of a maximization from the tableau phase 1 leaves: the
      objective, the price-out and the two pivots. */
  lemma ExamplePhase2(t: Tableau, o: string, fuel: nat)
    requires t == Tableau([[0.0, 0.0, 0.0, 0.0, 0.0], [1.0, 0.0, 1.0, 0.0, 4.0], [0.0, 1.0, 0.0, 1.0, 3.0]], [0, 2, 3])
    requires o == "1x_1 + 1x_2" && fuel >= 2
    ensures WellFormed(t)
    ensures Phase2(t, Maximize, o, fuel) ==
      Ok(Tableau([[0.0, 0.0, 1.0, 1.0, 7.0], [1.0, 0.0, 1.0, 0.0, 4.0], [0.0, 1.0, 0.0, 1.0, 3.0]], [0, 0, 1]))
  {
    ObjectiveWritten(t.matrix[0], o);
    var row0 := [-1.0, -1.0, 0.0, 0.0, 0.0];
    var written := t.matrix[0 := row0];
    Three(written, row0, t.matrix[1], t.matrix[2]);
    NothingToPriceOut(row0, written);
    assert written[0 := row0] == written;
    MaximizeLoop(Tableau(written, t.basic), fuel);
  }

  // ---------------------------------------------------------------------
  // Reading the answer

  /** x_1 is basic in row 1 and x_2 in row 2, so they take 4 and 3; the
      value is the right-hand side of the cost row. */
  lemma ExampleAnswer(t: Tableau)
    requires t == Tableau([[0.0, 0.0, 1.0, 1.0, 7.0], [1.0, 0.0, 1.0, 0.0, 4.0], [0.0, 1.0, 0.0, 1.0, 3.0]], [0, 0, 1])
    ensures WellFormed(t)
    ensures Answered(Ok(t), 2) == Ok(Answer(map[0 := 4.0, 1 := 3.0], 7.0))
  {
    var M, basic := t.matrix, t.basic;
    assert Assigned(M, basic, 2, 2) == map[0 := 4.0];
    assert Assigned(M, basic, 2, 3) == map[0 := 4.0, 1 := 3.0];
    var sol := map[0 := 4.0, 1 := 3.0];
    assert 0 in basic[1..] && 1 in basic[1..];
    assert ZeroFilled(sol, basic, 2, 1) == sol;
    assert Extract(M, basic, 2) == sol;
  }

  // ---------------------------------------------------------------------
  // Phase 1 and the deletion of the artificial columns

  /** With no artificial row recorded, phase 1 starts with -1 on the two
      artificial columns, nothing added, the slack columns 2 and 3 basic in
      rows 1 and 2, and stops at once: `max_index` finds no positive cost. */
  lemma ExamplePhase1(b: Built, fuel: nat)
    requires b == Built([[0.0, 0.0, 0.0, 0.0, 0.0, 0.0, 0.0], [1.0, 0.0, 1.0, 0.0, 0.0, 0.0, 4.0], [0.0, 1.0, 0.0, 1.0, 0.0, 0.0, 3.0]], [], 2, 2)
    ensures Rectangular(b.matrix) && ListsRows(b.matrix, b.rRows) && 2 + b.numS + 1 <= |b.matrix[0]|
    ensures AfterPhase1(b, 2, fuel) ==
      Ok(Tableau([[0.0, 0.0, 0.0, 0.0, 0.0], [1.0, 0.0, 1.0, 0.0, 4.0], [0.0, 1.0, 0.0, 1.0, 3.0]], [0, 2, 3]))
  {
    var M := b.matrix;
    var row0 := ArtificialCosts(M[0], 4);
    assert row0 == [0.0, 0.0, 0.0, 0.0, -1.0, -1.0, 0.0];
    var zero: seq<nat> := seq(3, _ => 0);
    assert MarkArtificial(zero, [], 4) == zero;
    assert MarkSlack(zero, 1, 2) == [0, 2, 3] by {
      var z1 := zero[1 := 2];
      var z2 := z1[2 := 3];
      assert MarkSlack(z2, 3, 4) == z2;
      assert MarkSlack(z1, 2, 3) == z2;
      assert z2 == [0, 2, 3];
    }
    var t := Phase1Start(M, [], 2, 2);
    assert t == Tableau(M[0 := row0], [0, 2, 3]);
    assert MaxPrefix(row0, 1) == 0;
    assert MaxPrefix(row0, 2) == 0;
    assert MaxPrefix(row0, 3) == 0;
    assert MaxPrefix(row0, 4) == 0;
    assert MaxPrefix(row0, 5) == 0;
    assert MaxIndex(row0) == 0;
    assert Choose(t, Minimize) == Stop;
    var R := DeleteRVars(t.matrix, 5);
    assert R[0] == [0.0, 0.0, 0.0, 0.0, 0.0];
    assert R[1] == [1.0, 0.0, 1.0, 0.0, 4.0];
    assert R[2] == [0.0, 1.0, 0.0, 1.0, 3.0];
    Three(R, [0.0, 0.0, 0.0, 0.0, 0.0], [1.0, 0.0, 1.0, 0.0, 4.0], [0.0, 1.0, 0.0, 1.0, 3.0]);
  }

  // ---------------------------------------------------------------------
  // Parsing "1x_1 <= 4" and "1x_2 <= 3"

  /** Three pieces joined by a separator none of them holds split back
      into the three. */
  lemma SplitThree(a: string, b: string, c: string, sep: char)
    requires sep !in a && sep !in b && sep !in c
    ensures Split(a + [sep] + (b + [sep] + c), sep) == [a, b, c]
  {
    SplitPrefix(a, b + [sep] + c, sep);
    SplitPrefix(b, c, sep);
    SplitNoSep(c, sep);
  }

  /** A constraint of three tokens: each token is read with the token
      before it (the first with the last), and the last is the right-hand
      side. */
  lemma ReadConstraint(c: string, a: string, b: string, d: string)
    requires Split(c, ' ') == [a, b, d]
    ensures Tokens(c) == [Classify(a, d == "-"), Classify(b, a == "-"), Classify(d, b == "-")]
    ensures RhsOf(c) == ParseFraction(d)
  {
  }

  /** A text that does not hold the first character of `sub` does not hold
      `sub`. */
  lemma {:induction false} Absent(s: string, sub: string)
    requires |sub| > 0 && sub[0] !in s
    ensures !Contains(s, sub)
  {
    if s != [] {
      assert sub[0] !in s[1..] by {
        forall m | 0 <= m < |s[1..]| ensures s[1..][m] != sub[0] {
          assert s[1..][m] == s[m + 1];
        }
      }
      Absent(s[1..], sub);
      if |sub| <= |s| {
        assert s[..|sub|][0] == s[0];
      }
    }
  }

  /** A constraint "t <= r": its tokens, and it holds "<=" but not ">=",
      so it counts one slack and one artificial column. */
  lemma UpperBoundText(c: string, t: string, r: string)
    requires c == t + [' '] + ("<=" + [' '] + r)
    requires ' ' !in t && ' ' !in r && '>' !in t && '>' !in r
    ensures Split(c, ' ') == [t, "<=", r]
    ensures forall n: (nat, nat) :: CountStep(c, n) == (n.0 + 1, n.1 + 1)
  {
    SplitThree(t, "<=", r, ' ');
    var at := |t| + 1;
    assert c[at..at + 2] == "<=" by {
      assert c[at] == '<' && c[at + 1] == '=';
    }
    PositionIsContained(c, "<=", at);
    assert '>' !in "<=" + [' '] + r;
    Absent(c, ">=");
  }

  /** The tokens of "1x_k <= v": a coefficient 1 for column k, a "<=",
      and the right-hand side v. */
  lemma UpperBoundTokens(c: string, t: string, r: string, k: nat, v: nat)
    requires t == ShowNat(1) + "x_" + ShowNat(k) && r == ShowNat(v)
    requires Split(c, ' ') == [t, "<=", r]
    ensures Tokens(c) == [Coefficient(1.0, k), LessEq, Other] && RhsOf(c) == Some(v as real)
  {
    ReadConstraint(c, t, "<=", r);
    assert IsDigit(r[0]);
    ClassifyTerm(1, k, false);
    NoUnderscoreInDigits(r);
    ParseFractionSigned(v, false);
    assert "" + r == r;
  }

  /** "1x_1 <= 4": a coefficient 1 for x_1, a "<=", the right-hand side 4;
      it counts one slack and one artificial column. */
  lemma FirstConstraint(c: string)
    requires c == "1x_1 <= 4"
    ensures Tokens(c) == [Coefficient(1.0, 1), LessEq, Other] && RhsOf(c) == Some(4.0)
    ensures forall n: (nat, nat) :: CountStep(c, n) == (n.0 + 1, n.1 + 1)
  {
    TermText(1);
    TermText(4);
    var t, r := ShowNat(1) + "x_" + ShowNat(1), ShowNat(4);
    assert t == "1x_1" && r == "4";
    assert c == t + [' '] + ("<=" + [' '] + r);
    UpperBoundText(c, t, r);
    UpperBoundTokens(c, t, r, 1, 4);
  }

  /** "1x_2 <= 3": a coefficient 1 for x_2, a "<=", the right-hand side 3;
      it counts one slack and one artificial column. */
  lemma SecondConstraint(c: string)
    requires c == "1x_2 <= 3"
    ensures Tokens(c) == [Coefficient(1.0, 2), LessEq, Other] && RhsOf(c) == Some(3.0)
    ensures forall n: (nat, nat) :: CountStep(c, n) == (n.0 + 1, n.1 + 1)
  {
    TermText(2);
    TermText(3);
    var t, r := ShowNat(1) + "x_" + ShowNat(2), ShowNat(3);
    assert t == "1x_2" && r == "3";
    assert c == t + [' '] + ("<=" + [' '] + r);
    UpperBoundText(c, t, r);
    UpperBoundTokens(c, t, r, 2, 3);
  }

  /** Row i from a constraint "1x_k <= v": 1 at column k-1, 1 at the next
      slack column, v at the right-hand side; the slack counter moves on,
      the artificial counter and the recorded rows stay. */
  lemma UpperBoundRow(f: Fill, i: nat, c: string, k: nat, v: real)
    requires i < |f.matrix| && 1 <= k <= |f.matrix[i]| && f.sIndex < |f.matrix[i]|
    requires Tokens(c) == [Coefficient(1.0, k), LessEq, Other] && RhsOf(c) == Some(v)
    ensures var w := |f.matrix[i]|;
      FillRow(f, i, c) == Ok(Fill(f.matrix[i := f.matrix[i][k - 1 := 1.0][f.sIndex := 1.0][w - 1 := v]], f.sIndex + 1, f.rIndex, f.rRows))
  {
    var w := |f.matrix[i]|;
    var tokens := Tokens(c);
    var row2 := f.matrix[i][k - 1 := 1.0][f.sIndex := 1.0];
    var f2 := Fill(f.matrix[i := row2], f.sIndex + 1, f.rIndex, f.rRows);
    UpperBoundFill(f, i, tokens, k);
    assert FillFrom(f, i, tokens, 0) == Ok(f2);
    assert f2.matrix[i := f2.matrix[i][w - 1 := v]] == f.matrix[i := row2[w - 1 := v]];
  }

  /** The tokens of "1x_k <= v" applied to row i, one by one. */
  lemma UpperBoundFill(f: Fill, i: nat, tokens: seq<Token>, k: nat)
    requires i < |f.matrix| && 1 <= k <= |f.matrix[i]| && f.sIndex < |f.matrix[i]|
    requires tokens == [Coefficient(1.0, k), LessEq, Other]
    ensures FillFrom(f, i, tokens, 0) ==
      Ok(Fill(f.matrix[i := f.matrix[i][k - 1 := 1.0][f.sIndex := 1.0]], f.sIndex + 1, f.rIndex, f.rRows))
  {
    var row1 := f.matrix[i][k - 1 := 1.0];
    var f1 := f.(matrix := f.matrix[i := row1]);
    ApplyCoefficient(f, i, 1.0, k);
    ApplyLessEq(f1, i);
    var f2 := Apply(f1, i, LessEq).value;
    assert f2.matrix == f.matrix[i := row1[f.sIndex := 1.0]];
    assert FillFrom(f2, i, tokens, 2) == Ok(f2);
  }

  /** `construct_matrix_from_constraints` on the two constraints: two
      slack and two artificial columns (each "<=" counts one of each),
      width 2 + 2 + 2 + 1; no row recorded, as no constraint holds ">=" or
      a plain "=". */
  lemma ExampleBuild(cs: seq<string>, M: Matrix)
    requires |cs| == 2 && cs[0] == "1x_1 <= 4" && cs[1] == "1x_2 <= 3"
    requires M == [[0.0, 0.0, 0.0, 0.0, 0.0, 0.0, 0.0], [1.0, 0.0, 1.0, 0.0, 0.0, 0.0, 4.0], [0.0, 1.0, 0.0, 1.0, 0.0, 0.0, 3.0]]
    ensures Build(2, cs) == Ok(Built(M, [], 2, 2))
  {
    FirstConstraint(cs[0]);
    SecondConstraint(cs[1]);
    assert Counts(cs, 1) == (1, 1);
    assert Counts(cs, 2) == (2, 2);
    var start := Start(2, cs);
    assert start == Fill(Zeros(3, 7), 2, 4, []);
    ExampleRows(start, cs, M);
  }

  /** The two rows filled in turn from the all-zero tableau. */
  lemma ExampleRows(start: Fill, cs: seq<string>, M: Matrix)
    requires start == Fill(Zeros(3, 7), 2, 4, [])
    requires |cs| == 2 && Tokens(cs[0]) == [Coefficient(1.0, 1), LessEq, Other] && RhsOf(cs[0]) == Some(4.0)
    requires Tokens(cs[1]) == [Coefficient(1.0, 2), LessEq, Other] && RhsOf(cs[1]) == Some(3.0)
    requires M == [[0.0, 0.0, 0.0, 0.0, 0.0, 0.0, 0.0], [1.0, 0.0, 1.0, 0.0, 0.0, 0.0, 4.0], [0.0, 1.0, 0.0, 1.0, 0.0, 0.0, 3.0]]
    ensures RowsFrom(start, cs, 1) == Ok(Fill(M, 4, 4, []))
  {
    UpperBoundRow(start, 1, cs[0], 1, 4.0);
    var g1 := FillRow(start, 1, cs[0]).value;
    UpperBoundRow(g1, 2, cs[1], 2, 3.0);
    var g2 := FillRow(g1, 2, cs[1]).value;
    assert RowsFrom(g2, cs, 3) == Ok(g2);
    assert RowsFrom(g1, cs, 2) == Ok(g2);
    var z0, z1, z2 := start.matrix[0], start.matrix[1], start.matrix[2];
    assert g2.matrix[0] == z0;
    assert g2.matrix[1] == z1[0 := 1.0][2 := 1.0][6 := 4.0];
    assert g2.matrix[2] == z2[1 := 1.0][3 := 1.0][6 := 3.0];
    ZeroRow(z0);
    FirstRowFilled(z1);
    SecondRowFilled(z2);
    Three(g2.matrix, M[0], M[1], M[2]);
  }

  /** A row of the all-zero tableau. */
  lemma ZeroRow(z: seq<real>)
    requires |z| == 7 && forall j :: 0 <= j < 7 ==> z[j] == 0.0
    ensures z == [0.0, 0.0, 0.0, 0.0, 0.0, 0.0, 0.0]
  {
  }

  /** The zero row of "1x_1 <= 4": x_1 and the first slack set to 1, the
      right-hand side 4. */
  lemma FirstRowFilled(z: seq<real>)
    requires |z| == 7 && forall j :: 0 <= j < 7 ==> z[j] == 0.0
    ensures z[0 := 1.0][2 := 1.0][6 := 4.0] == [1.0, 0.0, 1.0, 0.0, 0.0, 0.0, 4.0]
  {
  }

  /** The zero row of "1x_2 <= 3": x_2 and the second slack set to 1, the
      right-hand side 3. */
  lemma SecondRowFilled(z: seq<real>)
    requires |z| == 7 && forall j :: 0 <= j < 7 ==> z[j] == 0.0
    ensures z[1 := 1.0][3 := 1.0][6 := 3.0] == [0.0, 1.0, 0.0, 1.0, 0.0, 0.0, 3.0]
  {
  }

  // ---------------------------------------------------------------------
  // The whole run

  /** A text shorter than `sub` does not hold it. */
  lemma {:induction false} TooShort(s: string, sub: string)
    requires |s| < |sub|
    ensures !Contains(s, sub)
  {
    if s != [] {
      TooShort(s[1..], sub);
    }
  }

  /** "max" chooses maximization: it does not hold "min". */
  lemma MaxMaximizes(objective: string)
    requires objective == "max"
    ensures DirectionOf(objective) == Maximize
  {
    var l := Lower(objective);
    assert l == "max";
    assert l[..3] != "min" by {
      assert l[..3][1] == 'a';
    }
    TooShort(l[1..], "min");
  }

  /** `Simplex(2, ["1x_1 <= 4", "1x_2 <= 3"], ("max", "1x_1 + 1x_2"))`
      finds x_1 = 4, x_2 = 3 and the value 7, given fuel for two pivots in
      each loop. */
  lemma ExampleSolve(cs: seq<string>, objective: string, objectiveFun: string, fuel: nat)
    requires |cs| == 2 && cs[0] == "1x_1 <= 4" && cs[1] == "1x_2 <= 3"
    requires objective == "max" && objectiveFun == "1x_1 + 1x_2" && fuel >= 2
    ensures Solve(2, cs, objective, objectiveFun, fuel) == Ok(Answer(map[0 := 4.0, 1 := 3.0], 7.0))
  {
    var M := [[0.0, 0.0, 0.0, 0.0, 0.0, 0.0, 0.0], [1.0, 0.0, 1.0, 0.0, 0.0, 0.0, 4.0], [0.0, 1.0, 0.0, 1.0, 0.0, 0.0, 3.0]];
    ExampleBuild(cs, M);
    var b := Built(M, [], 2, 2);
    ExamplePhase1(b, fuel);
    var p := AfterPhase1(b, 2, fuel).value;
    MaxMaximizes(objective);
    ExamplePhase2(p, objectiveFun, fuel);
    var t := Phase2(p, Maximize, objectiveFun, fuel).value;
    assert Run(2, cs, objective, objectiveFun, fuel) == Ok(t);
    ExampleAnswer(t);
  }
}
