/** The built-in functions of the newest interpreter: the name table and the
    two matrix constructors `zeros` and `ones`, which are pure shape rules. */
module Builtins {
  import opened Wrappers
  import opened Matrix

  datatype Builtin = Print | Zeros | Ones

  /** The built-in table, looked up before any user function. */
  const BuiltinFunctions: map<string, Builtin> :=
    map["print" := Print, "zeros" := Zeros, "ones" := Ones]

  /** The one error the constructors raise ("Positive scalars expected"). */
  datatype BuiltinError = PositiveScalarsExpected

  /** A `rows` by `cols` grid holding `v` in every cell. */
  function Filled(rows: nat, cols: nat, v: real): (r: Grid)
    ensures HasShape(r, rows, cols)
    ensures forall i, j :: 0 <= i < rows && 0 <= j < cols ==> r[i][j] == v
  {
    seq(rows, _ => seq(cols, _ => v))
  }

  /** Truncation of a non-negative size to a whole count (`int(x)`). */
  function Count(x: real): nat
    requires x >= 0.0
  {
    x.Floor
  }

  /** A second size is used only when it is present and nonzero: a zero
      second argument is falsy and counts as absent. */
  predicate UsesSecond(second: Option<real>) {
    second.Some? && second.value != 0.0
  }

  /** The column count the constructors use once the guard has passed. */
  function ColumnCount(first: real, second: Option<real>): nat
    requires first > 0.0
    requires !(UsesSecond(second) && second.value <= 0.0)
  {
    if UsesSecond(second) then Count(second.value) else Count(first)
  }

  /** The shared rule of `zeros` and `ones`: reject a non-positive first size
      or a present, truthy, non-positive second size; otherwise build
      `int(first)` rows of the column count, every cell `v`. */
  function Constant(first: real, second: Option<real>, v: real): (r: Result<Grid, BuiltinError>)
    ensures r.Failure? <==> first <= 0.0 || (second.Some? && second.value < 0.0)
    ensures r.Success? ==> HasShape(r.value, Count(first), ColumnCount(first, second))
    ensures r.Success? ==> forall i, j :: 0 <= i < |r.value| && 0 <= j < |r.value[i]| ==> r.value[i][j] == v
  {
    if first <= 0.0 || (UsesSecond(second) && second.value <= 0.0) then
      Failure(PositiveScalarsExpected)
    else
      Success(Filled(Count(first), ColumnCount(first, second), v))
  }

  /** `zeros(first[, second])`. */
  function ZerosOf(first: real, second: Option<real>): (r: Result<Grid, BuiltinError>)
    ensures r.Success? ==> !Truthy(r.value)
  {
    Constant(first, second, 0.0)
  }

  /** `ones(first[, second])`. */
  function OnesOf(first: real, second: Option<real>): (r: Result<Grid, BuiltinError>)
    ensures r.Success? ==> forall i, j :: 0 <= i < |r.value| && 0 <= j < |r.value[i]| ==> r.value[i][j] == 1.0
  {
    Constant(first, second, 1.0)
  }

  /** A matrix of ones is truthy exactly when it has at least one cell. */
  lemma OnesTruthyIffNonEmpty(first: real, second: Option<real>)
    requires OnesOf(first, second).Success?
    ensures Truthy(OnesOf(first, second).value) <==> |OnesOf(first, second).value| > 0 && Cols(OnesOf(first, second).value) > 0
  {
    var g := OnesOf(first, second).value;
    if |g| > 0 && Cols(g) > 0 {
      assert g[0][0] == 1.0;
    }
  }

  /** With one argument `n >= 1` both constructors are square, n by n. */
  lemma SingleSizeIsSquare(n: nat)
    requires n >= 1
    ensures ZerosOf(n as real, None).Success? && HasShape(ZerosOf(n as real, None).value, n, n)
    ensures OnesOf(n as real, None).Success? && HasShape(OnesOf(n as real, None).value, n, n)
  {
  }

  /** `zeros(r, c)` with whole positive sizes is r rows of c cells. */
  lemma TwoSizesGiveRowsByColumns(r: nat, c: nat)
    requires r >= 1 && c >= 1
    ensures ZerosOf(r as real, Some(c as real)).Success?
    ensures HasShape(ZerosOf(r as real, Some(c as real)).value, r, c)
  {
  }

  /** A second size of 0 behaves exactly as if it were left out. */
  lemma ZeroSecondIsAbsent(first: real, v: real)
    ensures Constant(first, Some(0.0), v) == Constant(first, None, v)
  {
  }

  /** `zeros(2, 3).transposed` is three rows of two zeros. */
  lemma TransposedZeros()
    ensures ZerosOf(2.0, Some(3.0)).Success?
    ensures Transposed(ZerosOf(2.0, Some(3.0)).value) == Success(Filled(3, 2, 0.0))
  {
    var z := ZerosOf(2.0, Some(3.0)).value;
    assert HasShape(z, 2, 3);
    var t := Transposed(z).value;
    assert HasShape(t, 3, 2);
    forall i | 0 <= i < 3
      ensures t[i] == Filled(3, 2, 0.0)[i]
    {
      assert t[i][0] == z[0][i] == 0.0;
      assert t[i][1] == z[1][i] == 0.0;
    }
    assert t == Filled(3, 2, 0.0);
  }
}
