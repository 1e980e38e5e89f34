/** The matrix value of the Neo language: a rectangular grid of numbers with
    shape accessors, cell-wise arithmetic, scalar broadcast, the triple-loop
    product, integer power, transpose, structural equality, truthiness and the
    determinant by cofactor expansion along the first row.

    Cells are exact reals. The older and the newer matrix class share every
    operator line for line; they differ only in that the newer one has a power
    operator and checks the shape before taking a determinant, so both
    determinants are modelled here (`Determinant`, `LegacyDeterminant`). */
module Matrix {
  import opened Wrappers

  /** Every row has the same length. */
  predicate Rectangular(g: seq<seq<real>>) {
    forall i, j | 0 <= i < |g| && 0 <= j < |g| :: |g[i]| == |g[j]|
  }

  type Grid = g: seq<seq<real>> | Rectangular(g)

  /** `r` rows of `c` cells each. */
  predicate HasShape(g: seq<seq<real>>, r: nat, c: nat) {
    |g| == r && forall i | 0 <= i < r :: |g[i]| == c
  }

  /** Number of cells per row; 0 for a grid without rows. */
  function Cols(g: Grid): (c: nat)
    ensures HasShape(g, |g|, c)
  {
    if |g| == 0 then 0 else |g[0]|
  }

  predicate IsSquare(g: Grid) {
    |g| == Cols(g)
  }

  /** Errors the matrix operators raise. `EmptyRows` is the Python
      `IndexError` of reading the first row of a matrix that has none. */
  datatype MatrixError =
    | WrongShapesForProduct    // "Wrong shapes of matrixes. Cannot multiply"
    | DifferentShapes          // "Matrixes must have the same shape"
    | NegativeExponent         // "Matrix power can only be calculated for non-negative numbers"
    | NotSquareForPower        // "Only square matrices can be raised to a power"
    | NotSquareForDeterminant  // "Matrix must be square to calculate determinant"
    | EmptyRows

  // ---------------------------------------------------------------------
  // Shape accessors

  /** `rowlen`: the number of rows. */
  function RowLen(g: Grid): (n: nat)
    ensures HasShape(g, n, Cols(g))
  {
    |g|
  }

  /** `collen`: the length of the first row, an error without rows. */
  function ColLen(g: Grid): (r: Result<nat, MatrixError>)
    ensures r.Failure? <==> |g| == 0
    ensures r.Failure? ==> r.error == EmptyRows
    ensures r.Success? ==> HasShape(g, |g|, r.value)
  {
    if |g| == 0 then Failure(EmptyRows) else Success(|g[0]|)
  }

  /** The shape test shared by equality, addition and subtraction:
      `rowlen` differs, or else `collen` differs. Reading `collen` fails when
      both grids have no rows (the row counts are then equal). */
  function ShapesDiffer(a: Grid, b: Grid): (r: Result<bool, MatrixError>)
    ensures r.Failure? <==> |a| == 0 && |b| == 0
    ensures r.Failure? ==> r.error == EmptyRows
    ensures r.Success? ==> (r.value <==> !(|a| == |b| && Cols(a) == Cols(b)))
  {
    if RowLen(a) != RowLen(b) then Success(true)
    else
      var ca :- ColLen(a);
      Success(ca != ColLen(b).value)
  }

  // ---------------------------------------------------------------------
  // Cell-wise operations

  /** The grid of `f` applied to every cell. */
  function CellMap(g: Grid, f: real -> real): (r: Grid)
    ensures HasShape(r, |g|, Cols(g))
    ensures forall i, j | 0 <= i < |g| && 0 <= j < Cols(g) :: r[i][j] == f(g[i][j])
  {
    seq(|g|, i requires 0 <= i < |g| => seq(Cols(g), j requires 0 <= j < Cols(g) => f(g[i][j])))
  }

  /** The grid of `f` applied to corresponding cells of two equally shaped grids. */
  function CellZip(a: Grid, b: Grid, f: (real, real) -> real): (r: Grid)
    requires |a| == |b| && Cols(a) == Cols(b)
    ensures HasShape(r, |a|, Cols(a))
    ensures forall i, j | 0 <= i < |a| && 0 <= j < Cols(a) :: r[i][j] == f(a[i][j], b[i][j])
  {
    seq(|a|, i requires 0 <= i < |a| => seq(Cols(a), j requires 0 <= j < Cols(a) => f(a[i][j], b[i][j])))
  }

  function Plus(x: real, y: real): real { x + y }
  function Minus(x: real, y: real): real { x - y }
  /** Operand order of `__rsub__`: the other operand minus the cell. */
  function MinusFlipped(x: real, y: real): real { y - x }
  function Negated(x: real): real { -x }

  /** Cell operations of the matrix-with-scalar operators `m * s`, `m + s`,
      `m - s` and `s - m` (`s * m` and `s + m` delegate to the first two). */
  function TimesScalar(s: real): real -> real { x => x * s }
  function PlusScalar(s: real): real -> real { x => x + s }
  function MinusScalar(s: real): real -> real { x => x - s }
  function ScalarMinus(s: real): real -> real { x => s - x }

  /** Builds the grid of `f` of every cell row by row, appending as it goes;
      used for negation and for every matrix-with-scalar operator. */
  method MapCells(g: Grid, f: real -> real) returns (r: Grid)
    ensures r == CellMap(g, f)
  {
    var result: seq<seq<real>> := [];
    var i := 0;
    while i < |g|
      invariant 0 <= i <= |g|
      invariant result == CellMap(g, f)[..i]
    {
      var row: seq<real> := [];
      var j := 0;
      while j < |g[i]|
        invariant 0 <= j <= |g[i]|
        invariant row == CellMap(g, f)[i][..j]
      {
        assert CellMap(g, f)[i][j] == f(g[i][j]);
        row := row + [f(g[i][j])];
        j := j + 1;
      }
      assert row == CellMap(g, f)[i];
      result := result + [row];
      i := i + 1;
    }
    r := result;
  }

  /** Builds the grid of `f` of corresponding cells of two equally shaped
      grids; used for matrix-with-matrix addition and subtraction. */
  method ZipCells(a: Grid, b: Grid, f: (real, real) -> real) returns (r: Grid)
    requires |a| == |b| && Cols(a) == Cols(b)
    ensures r == CellZip(a, b, f)
  {
    var result: seq<seq<real>> := [];
    var i := 0;
    while i < |a|
      invariant 0 <= i <= |a|
      invariant result == CellZip(a, b, f)[..i]
    {
      var row: seq<real> := [];
      var j := 0;
      while j < |a[i]|
        invariant 0 <= j <= |a[i]|
        invariant row == CellZip(a, b, f)[i][..j]
      {
        assert CellZip(a, b, f)[i][j] == f(a[i][j], b[i][j]);
        row := row + [f(a[i][j], b[i][j])];
        j := j + 1;
      }
      assert row == CellZip(a, b, f)[i];
      result := result + [row];
      i := i + 1;
    }
    r := result;
  }

  /** `__add__`, `__sub__` and `__rsub__` with a matrix operand: the shape
      test, then the cell-wise result. `f` is the cell operation. */
  method Combine(a: Grid, b: Grid, f: (real, real) -> real) returns (r: Result<Grid, MatrixError>)
    ensures |a| == 0 && |b| == 0 ==> r == Failure(EmptyRows)
    ensures !(|a| == 0 && |b| == 0) ==> (r.Success? <==> |a| == |b| && Cols(a) == Cols(b))
    ensures r.Failure? && !(|a| == 0 && |b| == 0) ==> r.error == DifferentShapes
    ensures r.Success? ==> |a| == |b| && Cols(a) == Cols(b) && r.value == CellZip(a, b, f)
  {
    var differ :- ShapesDiffer(a, b);
    if differ {
      return Failure(DifferentShapes);
    }
    var g := ZipCells(a, b, f);
    return Success(g);
  }

  // ---------------------------------------------------------------------
  // Product and power

  /** Sum over t < k of a[i][t] * b[t][j], accumulated left to right. */
  function Dot(a: Grid, b: Grid, i: nat, j: nat, k: nat): real
    requires i < |a| && j < Cols(b) && k <= |b| && Cols(a) == |b|
  {
    if k == 0 then 0.0 else Dot(a, b, i, j, k - 1) + a[i][k - 1] * b[k - 1][j]
  }

  /** The standard matrix product of an r-by-n and an n-by-c grid. */
  function Product(a: Grid, b: Grid): (r: Grid)
    requires Cols(a) == |b|
    ensures HasShape(r, |a|, Cols(b))
    ensures forall i, j | 0 <= i < |a| && 0 <= j < Cols(b) :: r[i][j] == Dot(a, b, i, j, |b|)
  {
    seq(|a|, i requires 0 <= i < |a| => seq(Cols(b), j requires 0 <= j < Cols(b) => Dot(a, b, i, j, |b|)))
  }

  /** `__mul__` with a matrix operand: both grids must have a first row, the
      column count of the left must equal the row count of the right, and the
      result is accumulated cell by cell in a triple loop. */
  method Multiply(a: Grid, b: Grid) returns (r: Result<Grid, MatrixError>)
    ensures (|a| == 0 || |b| == 0) ==> r == Failure(EmptyRows)
    ensures |a| > 0 && |b| > 0 ==> (r.Success? <==> Cols(a) == |b|)
    ensures |a| > 0 && |b| > 0 && r.Failure? ==> r.error == WrongShapesForProduct
    ensures r.Success? ==> Cols(a) == |b| && r.value == Product(a, b)
  {
    if |a| == 0 || |b| == 0 {
      return Failure(EmptyRows);
    }
    var xRows, xCols, yRows, yCols := |a|, |a[0]|, |b|, |b[0]|;
    if xCols != yRows {
      return Failure(WrongShapesForProduct);
    }
    var result: seq<seq<real>> := [];
    var i := 0;
    while i < xRows
      invariant 0 <= i <= xRows
      invariant result == Product(a, b)[..i]
    {
      var row: seq<real> := [];
      var j := 0;
      while j < yCols
        invariant 0 <= j <= yCols
        invariant row == Product(a, b)[i][..j]
      {
        var acc := 0.0;
        var k := 0;
        while k < yRows
          invariant 0 <= k <= yRows
          invariant acc == Dot(a, b, i, j, k)
        {
          acc := acc + a[i][k] * b[k][j];
          k := k + 1;
        }
        assert Product(a, b)[i][j] == acc;
        row := row + [acc];
        j := j + 1;
      }
      assert row == Product(a, b)[i];
      result := result + [row];
      i := i + 1;
    }
    return Success(result);
  }

  /** The n-by-n identity, written with 1.0 and 0.0 as the power operator does. */
  function Identity(n: nat): (r: Grid)
    ensures HasShape(r, n, n)
    ensures forall i, j | 0 <= i < n && 0 <= j < n :: r[i][j] == if i == j then 1.0 else 0.0
  {
    seq(n, i requires 0 <= i < n => seq(n, j requires 0 <= j < n => if i == j then 1.0 else 0.0))
  }

  /** The power loop's value: the first copy, then k - 1 further products on
      the right. */
  function RepeatedProduct(m: Grid, k: nat): (r: Grid)
    requires IsSquare(m) && k >= 1
    ensures HasShape(r, |m|, |m|)
  {
    if k == 1 then m else Product(RepeatedProduct(m, k - 1), m)
  }

  /** m to the k-th power by the textbook definition: identity, then one
      product on the right per step. */
  function Pow(m: Grid, k: nat): (r: Grid)
    requires IsSquare(m)
    ensures HasShape(r, |m|, |m|)
  {
    if k == 0 then Identity(|m|) else Product(Pow(m, k - 1), m)
  }

  /** The number of times the power loop multiplies: `int(e) - 1`, or none. */
  function PowerSteps(e: real): nat
    requires e >= 0.0
  {
    if e.Floor >= 1 then e.Floor - 1 else 0
  }

  /** `__pow__`: a negative exponent or a non-square matrix is an error (in
      that order, and reading the first row of a matrix without rows fails
      first); exponent 0 gives the identity; otherwise the result starts as a
      copy and is multiplied on the right `int(e) - 1` times, so a fractional
      exponent is truncated and any exponent below 1 gives the matrix itself. */
  method Power(m: Grid, e: real) returns (r: Result<Grid, MatrixError>)
    ensures e < 0.0 ==> r == Failure(NegativeExponent)
    ensures e >= 0.0 && |m| == 0 ==> r == Failure(EmptyRows)
    ensures e >= 0.0 && |m| > 0 && !IsSquare(m) ==> r == Failure(NotSquareForPower)
    ensures e == 0.0 && |m| > 0 && IsSquare(m) ==> r == Success(Identity(|m|))
    ensures e > 0.0 && |m| > 0 && IsSquare(m) ==> r == Success(RepeatedProduct(m, PowerSteps(e) + 1))
  {
    if e < 0.0 {
      return Failure(NegativeExponent);
    }
    if |m| == 0 {
      return Failure(EmptyRows);
    }
    var n := |m|;
    if n != |m[0]| {
      return Failure(NotSquareForPower);
    }
    if e == 0.0 {
      return Success(Identity(n));
    }
    var result := m;
    var steps := PowerSteps(e);
    var t := 0;
    while t < steps
      invariant 0 <= t <= steps
      invariant result == RepeatedProduct(m, t + 1)
    {
      var next := Multiply(result, m);
      result := next.value;
      t := t + 1;
    }
    return Success(result);
  }

  // ---------------------------------------------------------------------
  // Transpose, equality, truthiness

  /** `transposed`: the comprehension reads the first row for the column
      count, so a grid without rows fails; otherwise result[i][j] = g[j][i]. */
  function Transposed(g: Grid): (r: Result<Grid, MatrixError>)
    ensures r.Failure? <==> |g| == 0
    ensures r.Success? ==> HasShape(r.value, Cols(g), |g|)
    ensures r.Success? ==> forall i, j | 0 <= i < Cols(g) && 0 <= j < |g| :: r.value[i][j] == g[j][i]
  {
    if |g| == 0 then Failure(EmptyRows)
    else
      var t: Grid := seq(|g[0]|, i requires 0 <= i < |g[0]| => seq(|g|, j requires 0 <= j < |g| => g[j][i]));
      Success(t)
  }

  /** `__eq__` with a matrix operand: a shape difference gives false, else
      the cells are compared pairwise and the first difference gives false. */
  method Equal(a: Grid, b: Grid) returns (r: Result<bool, MatrixError>)
    ensures r.Failure? <==> |a| == 0 && |b| == 0
    ensures r.Failure? ==> r.error == EmptyRows
    ensures r.Success? ==> (r.value <==> a == b)
  {
    var differ :- ShapesDiffer(a, b);
    if differ {
      return Success(false);
    }
    var i := 0;
    while i < |a|
      invariant 0 <= i <= |a|
      invariant a[..i] == b[..i]
    {
      var j := 0;
      while j < |a[i]|
        invariant 0 <= j <= |a[i]|
        invariant a[i][..j] == b[i][..j]
      {
        if a[i][j] != b[i][j] {
          return Success(false);
        }
        j := j + 1;
      }
      assert a[i] == a[i][..j] && b[i] == b[i][..j];
      assert a[..i + 1] == a[..i] + [a[i]] && b[..i + 1] == b[..i] + [b[i]];
      i := i + 1;
    }
    assert a == a[..i] && b == b[..i];
    return Success(true);
  }

  /** `__bool__`: a matrix is truthy iff some cell is nonzero. */
  predicate Truthy(g: Grid) {
    exists i, j | 0 <= i < |g| && 0 <= j < |g[i]| :: g[i][j] != 0.0
  }

  // ---------------------------------------------------------------------
  // Determinant

  /** Python's `row[:j] + row[j+1:]`: the row without cell j, or the row
      itself when j is past its end. */
  function DropCell(row: seq<real>, j: nat): (r: seq<real>)
    ensures j < |row| ==> |r| == |row| - 1
    ensures j >= |row| ==> r == row
  {
    if j < |row| then row[..j] + row[j + 1..] else row
  }

  /** `getMatrixMinor`: the grid without row i and column j. */
  function Minor(m: seq<seq<real>>, i: nat, j: nat): (r: seq<seq<real>>)
    requires i < |m|
    ensures |r| == |m| - 1
    ensures forall k | 0 <= k < |r| :: r[k] == DropCell(if k < i then m[k] else m[k + 1], j)
  {
    var rest := m[..i] + m[i + 1..];
    seq(|rest|, k requires 0 <= k < |rest| => DropCell(rest[k], j))
  }

  /** (-1) ** c */
  function Sign(c: nat): real {
    if c % 2 == 0 then 1.0 else -1.0
  }

  /** `getMatrixDeternminant` on any list of rows. `None` stands for the
      `IndexError` Python raises when a row is too short. Two rows use the
      2-by-2 formula; any other count expands along the first row, so a grid
      without rows gives 0 and a single row gives 0 too (its minor has no
      rows). */
  function CofactorDet(m: seq<seq<real>>): Option<real>
    decreases |m|, 1
  {
    if |m| == 2 then
      if |m[0]| >= 2 && |m[1]| >= 2 then Some(m[0][0] * m[1][1] - m[0][1] * m[1][0]) else None
    else
      Expansion(m, |m|)
  }

  /** The loop `for c in range(k)` of the expansion along the first row. */
  function Expansion(m: seq<seq<real>>, k: nat): Option<real>
    requires k <= |m|
    decreases |m|, 0, k
  {
    if k == 0 then Some(0.0)
    else
      var acc :- Expansion(m, k - 1);
      if k - 1 < |m[0]| then
        var d :- CofactorDet(Minor(m, 0, k - 1));
        Some(acc + Sign(k - 1) * m[0][k - 1] * d)
      else None
  }

  /** `determinant` of the newer class: `rowlen` must equal `collen` (and
      `collen` fails without rows); the cells are always numbers here, so the
      scalar check passes; then the cofactor expansion. */
  function Determinant(g: Grid): (r: Result<real, MatrixError>)
    ensures |g| == 0 ==> r == Failure(EmptyRows)
    ensures |g| > 0 && !IsSquare(g) ==> r == Failure(NotSquareForDeterminant)
    ensures |g| > 0 && IsSquare(g) ==> r.Success? && Some(r.value) == CofactorDet(g)
  {
    var cols :- ColLen(g);
    if RowLen(g) != cols then Failure(NotSquareForDeterminant)
    else
      DefinedIffWideEnough(g, |g|, cols);
      Success(CofactorDet(g).value)
  }

  /** `determinant` of the older class: no shape check, so a non-square grid
      either gets a number or fails with `IndexError`. */
  function LegacyDeterminant(g: Grid): (r: Result<real, MatrixError>)
    ensures r.Success? <==> |g| == 0 || Cols(g) >= |g|
    ensures r.Failure? ==> r.error == EmptyRows
    ensures r.Success? ==> Some(r.value) == CofactorDet(g)
  {
    DefinedIffWideEnough(g, |g|, Cols(g));
    match CofactorDet(g)
    case Some(d) => Success(d)
    case None => Failure(EmptyRows)
  }

  // ---------------------------------------------------------------------
  // Lemmas about the determinant

  lemma MinorShape(m: seq<seq<real>>, r: nat, c: nat, j: nat)
    requires HasShape(m, r, c) && r > 0 && j < c
    ensures HasShape(Minor(m, 0, j), r - 1, c - 1)
  {
    var rest := m[..0] + m[1..];
    assert forall k | 0 <= k < |rest| :: rest[k] == m[k + 1];
  }

  /** On an r-by-c grid the cofactor expansion succeeds iff the grid has at
      least as many columns as rows (or no rows): every cell m[0][c] it reads
      then exists, and every minor is again wide enough. */
  lemma {:induction false} DefinedIffWideEnough(m: seq<seq<real>>, r: nat, c: nat)
    requires HasShape(m, r, c)
    ensures CofactorDet(m).Some? <==> r == 0 || c >= r
    decreases r, 1
  {
    if r == 2 {
    } else {
      ExpansionDefined(m, r, c, r);
    }
  }

  lemma {:induction false} ExpansionDefined(m: seq<seq<real>>, r: nat, c: nat, k: nat)
    requires HasShape(m, r, c) && k <= r
    ensures Expansion(m, k).Some? <==> k == 0 || c >= r
    decreases r, 0, k
  {
    if k > 0 {
      ExpansionDefined(m, r, c, k - 1);
      if k - 1 < c {
        MinorShape(m, r, c, k - 1);
        DefinedIffWideEnough(Minor(m, 0, k - 1), r - 1, c - 1);
      }
    }
  }

  /** A 1-by-1 matrix reaches the expansion branch; its minor has no rows,
      whose determinant is 0, so its determinant is 0 whatever its cell. */
  lemma SingleCellDeterminantIsZero(a: real)
    ensures Determinant([[a]]) == Success(0.0)
  {
    assert Minor([[a]], 0, 0) == [];
    assert CofactorDet([]) == Some(0.0);
    assert Expansion([[a]], 1) == Some(0.0);
    assert CofactorDet([[a]]) == Some(0.0);
  }

  /** The 2-by-2 base case: a*d - b*c. */
  lemma TwoByTwoDeterminant(a: real, b: real, c: real, d: real)
    ensures Determinant([[a, b], [c, d]]) == Success(a * d - b * c)
  {
    var m: seq<seq<real>> := [[a, b], [c, d]];
    assert |m| == 2 && |m[0]| == 2 && |m[1]| == 2;
    assert CofactorDet(m).value == m[0][0] * m[1][1] - m[0][1] * m[1][0];
    assert m[0][0] * m[1][1] == a * d && m[0][1] * m[1][0] == b * c;
  }

  lemma DeterminantExamples()
    ensures Determinant([[1.0, 2.0], [3.0, 4.0]]) == Success(-2.0)
    ensures Determinant([[6.0, 1.0, 1.0], [4.0, -2.0, 5.0], [2.0, 8.0, 7.0]]) == Success(-306.0)
  {
    var m: seq<seq<real>> := [[6.0, 1.0, 1.0], [4.0, -2.0, 5.0], [2.0, 8.0, 7.0]];
    assert DropCell(m[1], 0) == [-2.0, 5.0] && DropCell(m[2], 0) == [8.0, 7.0];
    assert DropCell(m[1], 1) == [4.0, 5.0] && DropCell(m[2], 1) == [2.0, 7.0];
    assert DropCell(m[1], 2) == [4.0, -2.0] && DropCell(m[2], 2) == [2.0, 8.0];
    assert Minor(m, 0, 0) == [[-2.0, 5.0], [8.0, 7.0]];
    assert Minor(m, 0, 1) == [[4.0, 5.0], [2.0, 7.0]];
    assert Minor(m, 0, 2) == [[4.0, -2.0], [2.0, 8.0]];
    assert CofactorDet(Minor(m, 0, 0)) == Some(-54.0);
    assert CofactorDet(Minor(m, 0, 1)) == Some(18.0);
    assert CofactorDet(Minor(m, 0, 2)) == Some(36.0);
    assert Expansion(m, 1) == Some(-324.0);
    assert Expansion(m, 2) == Some(-342.0);
    assert Expansion(m, 3) == Some(-306.0);
  }

  /** On square grids the two versions agree. */
  lemma DeterminantsAgreeOnSquare(g: Grid)
    requires |g| > 0 && IsSquare(g)
    ensures Determinant(g) == LegacyDeterminant(g)
  {
  }

  /** On a 2-by-c grid with c >= 2 the older version returns the 2-by-2
      formula of the leading block, where the newer one reports the shape. */
  lemma LegacyDeterminantIgnoresShape(g: Grid)
    requires |g| == 2 && Cols(g) > 2
    ensures LegacyDeterminant(g) == Success(g[0][0] * g[1][1] - g[0][1] * g[1][0])
    ensures Determinant(g) == Failure(NotSquareForDeterminant)
  {
  }

  // ---------------------------------------------------------------------
  // Lemmas about the cell-wise operators

  /** Matrix addition is commutative, so `a + b` and `b + a` agree. */
  lemma AdditionCommutes(a: Grid, b: Grid)
    requires |a| == |b| && Cols(a) == Cols(b)
    ensures CellZip(a, b, Plus) == CellZip(b, a, Plus)
  {
    var l, r := CellZip(a, b, Plus), CellZip(b, a, Plus);
    forall i | 0 <= i < |a| ensures l[i] == r[i] {
      assert forall j | 0 <= j < Cols(a) :: l[i][j] == r[i][j];
    }
  }

  /** Subtracting what was added gives the original matrix back. */
  lemma SubtractionUndoesAddition(a: Grid, b: Grid)
    requires |a| == |b| && Cols(a) == Cols(b)
    ensures CellZip(CellZip(a, b, Plus), b, Minus) == a
  {
    var s := CellZip(a, b, Plus);
    var d := CellZip(s, b, Minus);
    forall i | 0 <= i < |a| ensures d[i] == a[i] {
      assert forall j | 0 <= j < Cols(a) :: d[i][j] == a[i][j];
    }
  }

  /** `__rsub__` with a matrix operand computes `other - self` cell-wise, the
      same grid as `other.__sub__(self)`. */
  lemma ReflectedSubtraction(a: Grid, b: Grid)
    requires |a| == |b| && Cols(a) == Cols(b)
    ensures CellZip(a, b, MinusFlipped) == CellZip(b, a, Minus)
  {
    var l, r := CellZip(a, b, MinusFlipped), CellZip(b, a, Minus);
    forall i | 0 <= i < |a| ensures l[i] == r[i] {
      assert forall j | 0 <= j < Cols(a) :: l[i][j] == r[i][j];
    }
  }

  /** `s - m` is the negation of `m - s`. */
  lemma ScalarMinusIsNegatedMinusScalar(m: Grid, s: real)
    ensures CellMap(m, ScalarMinus(s)) == CellMap(CellMap(m, MinusScalar(s)), Negated)
  {
    var l, r := CellMap(m, ScalarMinus(s)), CellMap(CellMap(m, MinusScalar(s)), Negated);
    forall i | 0 <= i < |m| ensures l[i] == r[i] {
      assert forall j | 0 <= j < Cols(m) :: l[i][j] == r[i][j];
    }
  }

  /** Negating twice gives the original matrix. */
  lemma NegationIsInvolution(m: Grid)
    ensures CellMap(CellMap(m, Negated), Negated) == m
  {
    var r := CellMap(CellMap(m, Negated), Negated);
    forall i | 0 <= i < |m| ensures r[i] == m[i] {
      assert forall j | 0 <= j < Cols(m) :: r[i][j] == m[i][j];
    }
  }

  /** Negation keeps truthiness: it keeps exactly the nonzero cells nonzero. */
  lemma NegationKeepsTruthiness(m: Grid)
    ensures Truthy(CellMap(m, Negated)) <==> Truthy(m)
  {
    var n := CellMap(m, Negated);
    if Truthy(m) {
      var i, j :| 0 <= i < |m| && 0 <= j < |m[i]| && m[i][j] != 0.0;
      assert n[i][j] != 0.0;
    }
    if Truthy(n) {
      var i, j :| 0 <= i < |n| && 0 <= j < |n[i]| && n[i][j] != 0.0;
      assert m[i][j] != 0.0;
    }
  }

  // ---------------------------------------------------------------------
  // Lemmas about the product and the power

  lemma {:induction false} DotWithIdentityOnLeft(m: Grid, i: nat, j: nat, k: nat)
    requires i < |m| && j < Cols(m) && k <= |m|
    ensures Dot(Identity(|m|), m, i, j, k) == if i < k then m[i][j] else 0.0
  {
    if k > 0 {
      DotWithIdentityOnLeft(m, i, j, k - 1);
    }
  }

  lemma {:induction false} DotWithIdentityOnRight(m: Grid, i: nat, j: nat, k: nat)
    requires i < |m| && j < Cols(m) && k <= Cols(m)
    ensures Dot(m, Identity(Cols(m)), i, j, k) == if j < k then m[i][j] else 0.0
  {
    if k > 0 {
      DotWithIdentityOnRight(m, i, j, k - 1);
    }
  }

  /** The identity is neutral for the product on both sides. */
  lemma IdentityIsNeutral(m: Grid)
    ensures Product(Identity(|m|), m) == m
    ensures Product(m, Identity(Cols(m))) == m
  {
    var l := Product(Identity(|m|), m);
    forall i | 0 <= i < |m| ensures l[i] == m[i] {
      forall j | 0 <= j < Cols(m) ensures l[i][j] == m[i][j] {
        DotWithIdentityOnLeft(m, i, j, |m|);
      }
    }
    var r := Product(m, Identity(Cols(m)));
    forall i | 0 <= i < |m| ensures r[i] == m[i] {
      forall j | 0 <= j < Cols(m) ensures r[i][j] == m[i][j] {
        DotWithIdentityOnRight(m, i, j, Cols(m));
      }
    }
  }

  /** The power loop computes the textbook power: for k >= 1 the first copy
      followed by k - 1 products is m^k, the product of k copies. */
  lemma {:induction false} RepeatedProductIsPower(m: Grid, k: nat)
    requires IsSquare(m) && k >= 1
    ensures RepeatedProduct(m, k) == Pow(m, k)
  {
    if k == 1 {
      IdentityIsNeutral(m);
    } else {
      RepeatedProductIsPower(m, k - 1);
    }
  }

  /** The product of two 2-by-2 grids, cell by cell. */
  lemma ProductOfTwoByTwo(a: Grid, b: Grid)
    requires HasShape(a, 2, 2) && HasShape(b, 2, 2)
    ensures HasShape(Product(a, b), 2, 2)
    ensures forall i, j | 0 <= i < 2 && 0 <= j < 2 :: Product(a, b)[i][j] == a[i][0] * b[0][j] + a[i][1] * b[1][j]
  {
    forall i, j | 0 <= i < 2 && 0 <= j < 2 ensures Product(a, b)[i][j] == a[i][0] * b[0][j] + a[i][1] * b[1][j] {
      assert Dot(a, b, i, j, 1) == a[i][0] * b[0][j];
    }
  }

  lemma TwoByTwoLiteral(g: Grid, w: real, x: real, y: real, z: real)
    requires HasShape(g, 2, 2) && g[0][0] == w && g[0][1] == x && g[1][0] == y && g[1][1] == z
    ensures g == [[w, x], [y, z]]
  {
    assert g[0] == [w, x] && g[1] == [y, z];
  }

  /** The Fibonacci matrix to the fifth power. */
  lemma FibonacciPower()
    ensures RepeatedProduct([[1.0, 1.0], [1.0, 0.0]], 5) == [[8.0, 5.0], [5.0, 3.0]]
  {
    var f: Grid := [[1.0, 1.0], [1.0, 0.0]];
    ProductOfTwoByTwo(f, f);
    TwoByTwoLiteral(RepeatedProduct(f, 2), 2.0, 1.0, 1.0, 1.0);
    ProductOfTwoByTwo([[2.0, 1.0], [1.0, 1.0]], f);
    TwoByTwoLiteral(RepeatedProduct(f, 3), 3.0, 2.0, 2.0, 1.0);
    ProductOfTwoByTwo([[3.0, 2.0], [2.0, 1.0]], f);
    TwoByTwoLiteral(RepeatedProduct(f, 4), 5.0, 3.0, 3.0, 2.0);
    ProductOfTwoByTwo([[5.0, 3.0], [3.0, 2.0]], f);
    TwoByTwoLiteral(RepeatedProduct(f, 5), 8.0, 5.0, 5.0, 3.0);
  }

  // ---------------------------------------------------------------------
  // Lemmas about transposition and the determinant of the identity

  /** Transposing twice gives the grid back exactly when it has a cell:
      a grid whose rows are empty transposes to a grid without rows, which
      cannot be transposed again. */
  lemma TransposeTwice(g: Grid)
    requires |g| > 0
    ensures Transposed(Transposed(g).value) == if Cols(g) > 0 then Success(g) else Failure(EmptyRows)
  {
    var t := Transposed(g).value;
    if Cols(g) > 0 {
      var tt := Transposed(t).value;
      assert |tt| == |g|;
      forall i | 0 <= i < |g| ensures tt[i] == g[i] {
        assert forall j | 0 <= j < Cols(g) :: tt[i][j] == g[i][j];
      }
      assert tt == g;
    } else {
      assert |t| == 0;
    }
  }

  lemma MinorOfIdentity(n: nat)
    requires n >= 1
    ensures Minor(Identity(n), 0, 0) == Identity(n - 1)
  {
    var m, id := Minor(Identity(n), 0, 0), Identity(n - 1);
    forall k | 0 <= k < n - 1 ensures m[k] == id[k] {
      assert forall t | 0 <= t < n - 1 :: m[k][t] == Identity(n)[k + 1][t + 1];
    }
  }

  lemma {:induction false} IdentityExpansion(n: nat, k: nat)
    requires n >= 3 && 1 <= k <= n
    ensures Expansion(Identity(n), k) == CofactorDet(Identity(n - 1))
  {
    var id := Identity(n);
    MinorShape(id, n, n, k - 1);
    DefinedIffWideEnough(Minor(id, 0, k - 1), n - 1, n - 1);
    if k == 1 {
      MinorOfIdentity(n);
      assert Expansion(id, 0) == Some(0.0);
    } else {
      IdentityExpansion(n, k - 1);
      assert id[0][k - 1] == 0.0;
    }
  }

  /** The identity has determinant 1 from size 2 on; sizes 0 and 1 give 0
      (the single-cell quirk). */
  lemma {:induction false} IdentityDeterminant(n: nat)
    ensures CofactorDet(Identity(n)) == Some(if n >= 2 then 1.0 else 0.0)
  {
    if n == 1 {
      MinorOfIdentity(1);
      assert Expansion(Identity(1), 0) == Some(0.0);
    } else if n >= 3 {
      IdentityExpansion(n, n);
      IdentityDeterminant(n - 1);
    }
  }
}
