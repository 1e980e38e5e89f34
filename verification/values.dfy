/** Run-time values of the newest and the middle evaluator and the meaning
    of their unary and binary operators.

    Python decides what an operator does from the kinds of its operands
    (and a matrix operand hands the work to the matrix class). That decision
    is modelled here as a pure `Plan`: either a value that is ready (an
    operand, or a number, boolean or string result), a fault, or one of the
    matrix operations that builds a fresh matrix. The evaluators carry out a
    plan by calling the matrix methods; `ApplyPlan` states what that yields.

    Matrices are objects: a `Mat` value names its place in the evaluator's
    heap of grids, so two variables may share one matrix. */
module NeoValues {
  import opened Wrappers
  import opened Matrix
  import opened NeoAst

  datatype Value =
    | NoneV
    | Num(n: real)
    | Bool(b: bool)
    | Str(s: string)
    | Mat(ref: nat)
    | Fn(definition: FunctionDef)

  /** The run-time errors the evaluators raise on purpose (each a
      `NeoRuntimeError`, or in the earliest evaluator a `RuntimeError`). */
  datatype ErrorKind =
    | ReservedName            // "Function name ... is reserved for build-in function"
    | NoSuchFunction          // "Function ... doesn't exist"
    | ArgumentCount           // "Incorrect number of arguments"
    | AlreadyDeclared         // "Variable ... already declared in this scope"
    | ImmutableVariable       // "... is immutable and cannot be assigned to / modified"
    | Undeclared              // "Variable ... must be declared before assignment" / "doesn't exist"
    | IndicesNotWhole         // "Indices must be whole numbers"
    | NeedsMatrix             // "Only matrix can use access operation" / "Matrix is needed ..."
    | MatrixMissing           // "Matrix ... doesn't exist"
    | PropertyNeedsMatrix     // "Only matrix can have properties"
    | UnknownProperty         // "Unknown property ..."
    | StringOperand           // "Strings cannot take part in ... operation"
    | MatrixDivide            // "Matrixes cannot take part in (integer) divide operation"
    | DivideByZero            // "Cannot divide by zero"
    | NotComparable           // "Types ... cannot be compared with ..."
    | UnknownOperator         // "Unknown binary operator"
    | OnlyScalars             // "Matrix can contain only scalars"
    | SizesNotPositive        // "Positive scalars expected"
    | MatrixOperand           // "You cannot add/multiply/substract 'Matrix' and ..."
    | MatrixFailure(error: MatrixError)

  /** Python exceptions no handler expects: they end the run. */
  datatype HostError =
    | TypeMismatch        // TypeError
    | MissingAttribute    // AttributeError
    | IndexOutOfRange     // IndexError
    | MissingKey          // KeyError
    | ZeroDivision        // ZeroDivisionError

  /** Why an evaluation stopped. `Unmodelled` marks behaviour that lies
      outside this model (booleans used as integers, nested matrices, ...);
      `OutOfFuel` marks a run longer than the bound it was given. */
  datatype Fault =
    | Raised(kind: ErrorKind)
    | Host(error: HostError)
    | Unmodelled
    | OutOfFuel

  /** How a run ends: every top-level object executed, or a
      `NeoRuntimeError` at object `at` (reported, and the run stops), or
      another failure that Python does not catch. */
  datatype RunOutcome = Finished | Stopped(at: nat, kind: ErrorKind) | Crashed(at: nat, fault: Fault)

  /** A matrix operator error as Python surfaces it: reading the first row
      of a matrix without rows is an `IndexError`, the others are raised on
      purpose. */
  function FromMatrixError(e: MatrixError): (f: Fault)
    ensures f.Host? <==> e == EmptyRows
  {
    if e == EmptyRows then Host(IndexOutOfRange) else Raised(MatrixFailure(e))
  }

  /** A matrix value names an object that exists. */
  predicate InHeap(v: Value, size: nat) {
    v.Mat? ==> v.ref < size
  }

  /** Python's `bool(v)`: zero, false, the empty string and `None` are
      false; a matrix is true iff some cell is nonzero; a function is true. */
  predicate IsTruthy(v: Value, heap: seq<Grid>)
    requires InHeap(v, |heap|)
  {
    match v
    case NoneV => false
    case Num(n) => n != 0.0
    case Bool(b) => b
    case Str(s) => |s| > 0
    case Mat(ref) => Truthy(heap[ref])
    case Fn(_) => true
  }

  /** Booleans are integers to Python (`True + 1 == 2`); arithmetic and
      ordering that mix them with numbers are outside this model. */
  predicate BoolArithmetic(l: Value, r: Value) {
    (l.Bool? && (r.Num? || r.Bool?)) || (r.Bool? && l.Num?)
  }

  // ---------------------------------------------------------------------
  // Plans

  /** What an operator does once its operands are known. */
  datatype Plan =
    | Give(v: Value)
    | Reject(fault: Fault)
      /** A fresh matrix: `f` of every cell of the matrix `m`. */
    | MapCellsOf(m: nat, f: real -> real)
      /** `__add__`/`__sub__`/`__rsub__` of two matrices: the shape test,
          then `f` of corresponding cells. */
    | ZipCellsOf(a: nat, b: nat, g: (real, real) -> real)
    | MultiplyGrids(a: nat, b: nat)
    | PowerOf(m: nat, e: real)
      /** `__eq__` of two matrices, inverted for `!=`. */
    | CompareGrids(a: nat, b: nat, negate: bool)

  /** The plan names only existing matrices. */
  predicate PlanInHeap(p: Plan, size: nat) {
    match p
    case Give(v) => InHeap(v, size)
    case Reject(_) => true
    case MapCellsOf(m, _) => m < size
    case ZipCellsOf(a, b, _) => a < size && b < size
    case MultiplyGrids(a, b) => a < size && b < size
    case PowerOf(m, _) => m < size
    case CompareGrids(a, b, _) => a < size && b < size
  }

  /** An operator's result: an existing value, or a matrix to be created. */
  datatype Produced = Existing(v: Value) | Fresh(g: Grid)

  /** What carrying out a plan yields, as the matrix methods promise it. */
  function ApplyPlan(p: Plan, heap: seq<Grid>): Result<Produced, Fault>
    requires PlanInHeap(p, |heap|)
  {
    match p
    case Give(v) => Success(Existing(v))
    case Reject(f) => Failure(f)
    case MapCellsOf(m, f) => Success(Fresh(CellMap(heap[m], f)))
    case ZipCellsOf(a, b, g) =>
      var x, y := heap[a], heap[b];
      if |x| == 0 && |y| == 0 then Failure(FromMatrixError(EmptyRows))
      else if |x| == |y| && Cols(x) == Cols(y) then Success(Fresh(CellZip(x, y, g)))
      else Failure(FromMatrixError(DifferentShapes))
    case MultiplyGrids(a, b) =>
      var x, y := heap[a], heap[b];
      if |x| == 0 || |y| == 0 then Failure(FromMatrixError(EmptyRows))
      else if Cols(x) == |y| then Success(Fresh(Product(x, y)))
      else Failure(FromMatrixError(WrongShapesForProduct))
    case PowerOf(m, e) =>
      var x := heap[m];
      if e < 0.0 then Failure(FromMatrixError(NegativeExponent))
      else if |x| == 0 then Failure(FromMatrixError(EmptyRows))
      else if !IsSquare(x) then Failure(FromMatrixError(NotSquareForPower))
      else if e == 0.0 then Success(Fresh(Identity(|x|)))
      else Success(Fresh(RepeatedProduct(x, PowerSteps(e) + 1)))
    case CompareGrids(a, b, negate) =>
      var x, y := heap[a], heap[b];
      if |x| == 0 && |y| == 0 then Failure(FromMatrixError(EmptyRows))
      else Success(Existing(Bool((x == y) != negate)))
  }

  /** Carries out a plan with the matrix class's own loops. */
  method Carry(p: Plan, heap: seq<Grid>) returns (r: Result<Produced, Fault>)
    requires PlanInHeap(p, |heap|)
    ensures r == ApplyPlan(p, heap)
  {
    match p
    case Give(v) => r := Success(Existing(v));
    case Reject(f) => r := Failure(f);
    case MapCellsOf(m, f) =>
      var g := MapCells(heap[m], f);
      r := Success(Fresh(g));
    case ZipCellsOf(a, b, f) =>
      var res := Combine(heap[a], heap[b], f);
      if res.Failure? {
        return Failure(FromMatrixError(res.error));
      }
      r := Success(Fresh(res.value));
    case MultiplyGrids(a, b) =>
      var res := Matrix.Multiply(heap[a], heap[b]);
      if res.Failure? {
        return Failure(FromMatrixError(res.error));
      }
      r := Success(Fresh(res.value));
    case PowerOf(m, e) =>
      var res := Matrix.Power(heap[m], e);
      if res.Failure? {
        return Failure(FromMatrixError(res.error));
      }
      r := Success(Fresh(res.value));
    case CompareGrids(a, b, negate) =>
      var res := Matrix.Equal(heap[a], heap[b]);
      if res.Failure? {
        return Failure(FromMatrixError(res.error));
      }
      r := Success(Existing(Bool(res.value != negate)));
  }

  // ---------------------------------------------------------------------
  // Arithmetic on numbers

  /** b raised to a whole power. */
  function RealPower(b: real, e: nat): (r: real)
    ensures b != 0.0 ==> r != 0.0
    ensures e > 0 && b == 0.0 ==> r == 0.0
  {
    if e == 0 then 1.0 else RealPower(b, e - 1) * b
  }

  predicate IsWhole(x: real) {
    x.Floor as real == x
  }

  /** Python's lexicographic order of strings by code point. */
  predicate StrBefore(a: string, b: string) {
    if |a| == 0 then |b| > 0
    else if |b| == 0 then false
    else if a[0] != b[0] then a[0] < b[0]
    else StrBefore(a[1..], b[1..])
  }

  // ---------------------------------------------------------------------
  // The operators

  /** The evaluator whose operator chain is meant: the newest one knows
      power and integer division, the middle one reports both as unknown. */
  datatype Dialect = Newest | Middle

  /** `left + right`. A matrix on either side hands the work to the matrix
      class (`__add__`, or `__radd__`, which calls `__add__`): a matrix or a
      number is accepted, any other operand is refused. */
  function AddPlan(l: Value, r: Value): Plan {
    if l.Mat? then
      if r.Mat? then ZipCellsOf(l.ref, r.ref, Matrix.Plus)
      else if r.Num? then MapCellsOf(l.ref, PlusScalar(r.n))
      else Reject(Raised(MatrixOperand))
    else if r.Mat? then
      if l.Num? then MapCellsOf(r.ref, PlusScalar(l.n)) else Reject(Raised(MatrixOperand))
    else if l.Num? && r.Num? then Give(Num(l.n + r.n))
    else if l.Str? && r.Str? then Give(Str(l.s + r.s))
    else if BoolArithmetic(l, r) then Reject(Unmodelled)
    else Reject(Host(TypeMismatch))
  }

  /** `left - right` once strings are ruled out; a number minus a matrix is
      `__rsub__`, every cell subtracted from the number. */
  function SubtractPlan(l: Value, r: Value): Plan {
    if l.Mat? then
      if r.Mat? then ZipCellsOf(l.ref, r.ref, Matrix.Minus)
      else if r.Num? then MapCellsOf(l.ref, MinusScalar(r.n))
      else Reject(Raised(MatrixOperand))
    else if r.Mat? then
      if l.Num? then MapCellsOf(r.ref, ScalarMinus(l.n)) else Reject(Raised(MatrixOperand))
    else if l.Num? && r.Num? then Give(Num(l.n - r.n))
    else if BoolArithmetic(l, r) then Reject(Unmodelled)
    else Reject(Host(TypeMismatch))
  }

  /** `left * right` once strings are ruled out; a number times a matrix is
      `__rmul__`, which calls `__mul__`. */
  function MultiplyPlan(l: Value, r: Value): Plan {
    if l.Mat? then
      if r.Mat? then MultiplyGrids(l.ref, r.ref)
      else if r.Num? then MapCellsOf(l.ref, TimesScalar(r.n))
      else Reject(Raised(MatrixOperand))
    else if r.Mat? then
      if l.Num? then MapCellsOf(r.ref, TimesScalar(l.n)) else Reject(Raised(MatrixOperand))
    else if l.Num? && r.Num? then Give(Num(l.n * r.n))
    else if BoolArithmetic(l, r) then Reject(Unmodelled)
    else Reject(Host(TypeMismatch))
  }

  /** `left / right` and `left // right` once matrices and strings are
      ruled out; a zero divisor is reported, not a crash. */
  function DividePlan(l: Value, r: Value, floor: bool): Plan {
    if l.Num? && r.Num? then
      if r.n == 0.0 then Reject(Raised(DivideByZero))
      else if floor then Give(Num((l.n / r.n).Floor as real))
      else Give(Num(l.n / r.n))
    else if BoolArithmetic(l, r) then Reject(Unmodelled)
    else Reject(Host(TypeMismatch))
  }

  /** `left ** right` once strings are ruled out. A matrix takes only a
      number as exponent; a number has no power with a matrix exponent; a
      number to a fractional power is outside this model, and zero to a
      negative power is Python's uncaught `ZeroDivisionError`. */
  function PowerPlan(l: Value, r: Value): Plan {
    if l.Mat? then
      if r.Num? then PowerOf(l.ref, r.n)
      else if r.Bool? then Reject(Unmodelled)
      else Reject(FromMatrixError(NegativeExponent))
    else if r.Mat? then Reject(Host(TypeMismatch))
    else if l.Num? && r.Num? then
      if !IsWhole(r.n) then Reject(Unmodelled)
      else if r.n >= 0.0 then Give(Num(RealPower(l.n, r.n.Floor)))
      else if l.n == 0.0 then Reject(Host(ZeroDivision))
      else Give(Num(1.0 / RealPower(l.n, -r.n.Floor)))
    else if BoolArithmetic(l, r) then Reject(Unmodelled)
    else Reject(Host(TypeMismatch))
  }

  /** `left == right` (inverted for `!=`). A matrix equals only a matrix of
      the same shape and cells; values of different kinds are unequal;
      functions are equal when they are the same definition node. */
  function EqualPlan(l: Value, r: Value, negate: bool): Plan {
    if l.Mat? && r.Mat? then CompareGrids(l.ref, r.ref, negate)
    else if l.Mat? || r.Mat? then Give(Bool(negate))
    else if BoolArithmetic(l, r) && !(l.Bool? && r.Bool?) then Reject(Unmodelled)
    else Give(Bool((l == r) != negate))
  }

  /** `<`, `<=`, `>`, `>=`: numbers with numbers, strings with strings;
      any other pair is a reported type error. */
  function ComparePlan(op: BinaryOp, l: Value, r: Value): Plan
    requires op.Greater? || op.GreaterOrEqual? || op.Less? || op.LessOrEqual?
  {
    if l.Num? && r.Num? then
      Give(Bool(match op
        case Greater => l.n > r.n
        case GreaterOrEqual => l.n >= r.n
        case Less => l.n < r.n
        case LessOrEqual => l.n <= r.n))
    else if l.Str? && r.Str? then
      Give(Bool(match op
        case Greater => StrBefore(r.s, l.s)
        case GreaterOrEqual => !StrBefore(l.s, r.s)
        case Less => StrBefore(l.s, r.s)
        case LessOrEqual => !StrBefore(r.s, l.s)))
    else if BoolArithmetic(l, r) || (l.Bool? && r.Bool?) then Reject(Unmodelled)
    else Reject(Raised(NotComparable))
  }

  /** `visit_binary_operator` once both operands are evaluated: the chain
      of operator tests in source order. */
  function BinaryPlan(d: Dialect, op: BinaryOp, l: Value, r: Value, heap: seq<Grid>): (p: Plan)
    requires InHeap(l, |heap|) && InHeap(r, |heap|)
    ensures PlanInHeap(p, |heap|)
  {
    match op
    case Plus => AddPlan(l, r)
    case Minus =>
      if l.Str? || r.Str? then Reject(Raised(StringOperand)) else SubtractPlan(l, r)
    case Multiply =>
      if l.Str? || r.Str? then Reject(Raised(StringOperand)) else MultiplyPlan(l, r)
    case Divide =>
      if l.Mat? || r.Mat? then Reject(Raised(MatrixDivide))
      else if l.Str? || r.Str? then Reject(Raised(StringOperand))
      else DividePlan(l, r, false)
    case DivideInteger =>
      if d == Middle then Reject(Raised(UnknownOperator))
      else if l.Mat? || r.Mat? then Reject(Raised(MatrixDivide))
      else if l.Str? || r.Str? then Reject(Raised(StringOperand))
      else DividePlan(l, r, true)
    case Power =>
      if d == Middle then Reject(Raised(UnknownOperator))
      else if l.Str? || r.Str? then Reject(Raised(StringOperand))
      else PowerPlan(l, r)
    case Equal => EqualPlan(l, r, false)
    case NotEqual => EqualPlan(l, r, true)
    case And => Give(if IsTruthy(l, heap) then r else l)
    case Or => Give(if IsTruthy(l, heap) then l else r)
    case _ => ComparePlan(op, l, r)
  }

  /** `visit_unary_operator`: negation (cell-wise for a matrix) and `not`. */
  function UnaryPlan(op: UnaryOp, v: Value, heap: seq<Grid>): (p: Plan)
    requires InHeap(v, |heap|)
    ensures PlanInHeap(p, |heap|)
  {
    match op
    case Negate =>
      if v.Num? then Give(Num(-v.n))
      else if v.Mat? then MapCellsOf(v.ref, Negated)
      else if v.Bool? then Reject(Unmodelled)
      else Reject(Host(TypeMismatch))
    case Not => Give(Bool(!IsTruthy(v, heap)))
  }

  /** The result of a binary operator. */
  function Binary(d: Dialect, op: BinaryOp, l: Value, r: Value, heap: seq<Grid>): Result<Produced, Fault>
    requires InHeap(l, |heap|) && InHeap(r, |heap|)
  {
    ApplyPlan(BinaryPlan(d, op, l, r, heap), heap)
  }

  // ---------------------------------------------------------------------
  // Operands

  /** `visit_literal`: the literal's own value. */
  function LiteralValue(l: Literal): (v: Value)
    ensures l.NumberLit? <==> v.Num?
    ensures l.BoolLit? <==> v.Bool?
    ensures l.StringLit? <==> v.Str?
  {
    match l
    case NumberLit(n) => Num(n)
    case BoolLit(b) => Bool(b)
    case StringLit(s) => Str(s)
  }

  /** The grid a matrix literal node becomes on its first visit: a row per
      row of the literal and a cell per cell; a cell written as a literal
      is a number literal, and the grid holds its number. */
  predicate BuiltFrom(g: Grid, rows: seq<seq<Expression>>) {
    && |g| == |rows|
    && (forall a | 0 <= a < |rows| :: |g[a]| == |rows[a]|)
    && forall a, b | 0 <= a < |rows| && 0 <= b < |rows[a]| && rows[a][b].Lit? ::
         rows[a][b].literal.NumberLit? && g[a][b] == rows[a][b].literal.n
  }

  /** Whether a grid has a cell; visiting a literal node again fails on
      its first cell, which by then is a number. */
  predicate HasCells(g: Grid) {
    |g| > 0 && Cols(g) > 0
  }

  /** `visit_access` once the target is evaluated: the indices must be
      whole numbers, then the target a matrix; the result is the cell. A
      negative index (counted from the end by Python) is outside this
      model; an index past the end is Python's `IndexError`. */
  function AccessCell(m: Value, first: real, second: real, heap: seq<Grid>): (r: Result<Value, Fault>)
    requires InHeap(m, |heap|)
  {
    if !(IsWhole(first) && IsWhole(second)) then Failure(Raised(IndicesNotWhole))
    else if !m.Mat? then Failure(Raised(NeedsMatrix))
    else if first < 0.0 || second < 0.0 then Failure(Unmodelled)
    else
      var g, i, j := heap[m.ref], first.Floor, second.Floor;
      if i >= |g| || j >= Cols(g) then Failure(Host(IndexOutOfRange))
      else Success(Num(g[i][j]))
  }

  /** `visit_property` once the subject is evaluated: only a matrix has
      properties, and only `det`, `rowlen`, `collen`, `transposed` and
      `copy`; `transposed` and `copy` are new matrices. */
  function PropertyValue(d: Dialect, m: Value, name: string, heap: seq<Grid>): (r: Result<Produced, Fault>)
    requires InHeap(m, |heap|)
  {
    if !m.Mat? then Failure(Raised(PropertyNeedsMatrix))
    else
      var g := heap[m.ref];
      if name == "det" then
        match (if d == Newest then Determinant(g) else LegacyDeterminant(g))
        case Success(d) => Success(Existing(Num(d)))
        case Failure(e) => Failure(FromMatrixError(e))
      else if name == "rowlen" then Success(Existing(Num(RowLen(g) as real)))
      else if name == "collen" then
        match ColLen(g)
        case Success(c) => Success(Existing(Num(c as real)))
        case Failure(e) => Failure(FromMatrixError(e))
      else if name == "transposed" then
        match Transposed(g)
        case Success(t) => Success(Fresh(t))
        case Failure(e) => Failure(FromMatrixError(e))
      else if name == "copy" then Success(Fresh(g))
      else Failure(Raised(UnknownProperty))
  }

  /** The indices of an indexed assignment: each must be a number (Python
      asks it `is_integer()`), the first one tested before the second. */
  function IndexPair(i: Value, j: Value): (r: Result<(real, real), Fault>)
    ensures r.Success? <==> i.Num? && j.Num?
    ensures r.Success? ==> r.value == (i.n, j.n)
    ensures i.Num? && !IsWhole(i.n) && !j.Num? ==> r == Failure(Raised(IndicesNotWhole))
  {
    if !i.Num? then Failure(if i.Bool? then Unmodelled else Host(MissingAttribute))
    else if IsWhole(i.n) && !j.Num? then Failure(if j.Bool? then Unmodelled else Host(MissingAttribute))
    else if !j.Num? then Failure(Raised(IndicesNotWhole))
    else Success((i.n, j.n))
  }

  // ---------------------------------------------------------------------
  // Properties of the operand steps

  /** Access gives the cell at whole, in-range indices; the index test
      comes first, so a fractional index is reported even on a value that
      is not a matrix, and a whole index on a non-matrix is refused. */
  lemma AccessGivesCell(m: Value, i: nat, j: nat, heap: seq<Grid>)
    requires InHeap(m, |heap|)
    ensures m.Mat? && i < |heap[m.ref]| && j < Cols(heap[m.ref]) ==>
      AccessCell(m, i as real, j as real, heap) == Success(Num(heap[m.ref][i][j]))
    ensures m.Mat? && (i >= |heap[m.ref]| || j >= Cols(heap[m.ref])) ==>
      AccessCell(m, i as real, j as real, heap) == Failure(Host(IndexOutOfRange))
    ensures !m.Mat? ==> AccessCell(m, i as real, j as real, heap) == Failure(Raised(NeedsMatrix))
  {
    assert IsWhole(i as real) && IsWhole(j as real);
    assert (i as real).Floor == i && (j as real).Floor == j;
  }

  lemma FractionalIndexRefused(m: Value, first: real, second: real, heap: seq<Grid>)
    requires InHeap(m, |heap|) && !(IsWhole(first) && IsWhole(second))
    ensures AccessCell(m, first, second, heap) == Failure(Raised(IndicesNotWhole))
  {
  }

  /** The shape properties: `rowlen` and `collen` count rows and columns,
      `transposed` is a new matrix with the shape swapped, `copy` a new
      matrix equal to the old one; values that are not matrices have no
      properties. */
  lemma PropertiesOfMatrix(dl: Dialect, m: nat, heap: seq<Grid>)
    requires m < |heap| && |heap[m]| > 0
    ensures PropertyValue(dl, Mat(m), "rowlen", heap) == Success(Existing(Num(|heap[m]| as real)))
    ensures PropertyValue(dl, Mat(m), "collen", heap) == Success(Existing(Num(Cols(heap[m]) as real)))
    ensures PropertyValue(dl, Mat(m), "copy", heap) == Success(Fresh(heap[m]))
    ensures var t := PropertyValue(dl, Mat(m), "transposed", heap);
      t.Success? && t.value.Fresh? && HasShape(t.value.g, Cols(heap[m]), |heap[m]|) &&
      forall i, j | 0 <= i < Cols(heap[m]) && 0 <= j < |heap[m]| :: t.value.g[i][j] == heap[m][j][i]
  {
  }

  lemma PropertyNeedsAMatrix(dl: Dialect, v: Value, name: string, heap: seq<Grid>)
    requires InHeap(v, |heap|) && !v.Mat?
    ensures PropertyValue(dl, v, name, heap) == Failure(Raised(PropertyNeedsMatrix))
  {
  }

  /** `det` of a 2-by-2 matrix is a*d - b*c in both evaluators; an unknown
      name is refused. */
  lemma DeterminantProperty(dl: Dialect, m: nat, heap: seq<Grid>, a: real, b: real, c: real, d: real)
    requires m < |heap| && heap[m] == [[a, b], [c, d]]
    ensures PropertyValue(dl, Mat(m), "det", heap) == Success(Existing(Num(a * d - b * c)))
    ensures PropertyValue(dl, Mat(m), "size", heap) == Failure(Raised(UnknownProperty))
  {
    TwoByTwoDeterminant(a, b, c, d);
    DeterminantsAgreeOnSquare([[a, b], [c, d]]);
  }

  /** On a square matrix the two evaluators' `det` agree; on a matrix of
      two rows and more columns the middle one gives the leading 2-by-2
      determinant where the newest one reports the shape. */
  lemma DeterminantDialects(m: nat, heap: seq<Grid>)
    requires m < |heap| && |heap[m]| > 0
    ensures IsSquare(heap[m]) ==> PropertyValue(Newest, Mat(m), "det", heap) == PropertyValue(Middle, Mat(m), "det", heap)
    ensures |heap[m]| == 2 && Cols(heap[m]) > 2 ==>
      var g := heap[m];
      PropertyValue(Middle, Mat(m), "det", heap) == Success(Existing(Num(g[0][0] * g[1][1] - g[0][1] * g[1][0])))
      && PropertyValue(Newest, Mat(m), "det", heap) == Failure(Raised(MatrixFailure(NotSquareForDeterminant)))
  {
    if IsSquare(heap[m]) {
      DeterminantsAgreeOnSquare(heap[m]);
    }
    if |heap[m]| == 2 && Cols(heap[m]) > 2 {
      LegacyDeterminantIgnoresShape(heap[m]);
    }
  }

  // ---------------------------------------------------------------------
  // Properties of the operators

  /** Strings take no part in `-`, `*` or `^`, and take part in `/` and `//`
      only to be refused (after the matrix test). */
  lemma StringsRefused(op: BinaryOp, l: Value, r: Value, heap: seq<Grid>)
    requires InHeap(l, |heap|) && InHeap(r, |heap|)
    requires l.Str? || r.Str?
    requires op.Minus? || op.Multiply? || op.Power? || ((op.Divide? || op.DivideInteger?) && !l.Mat? && !r.Mat?)
    ensures Binary(Newest, op, l, r, heap) == Failure(Raised(StringOperand))
  {
  }

  /** Matrices take no part in division. */
  lemma MatricesNotDivided(d: Dialect, l: Value, r: Value, heap: seq<Grid>)
    requires InHeap(l, |heap|) && InHeap(r, |heap|)
    requires l.Mat? || r.Mat?
    ensures Binary(d, Divide, l, r, heap) == Failure(Raised(MatrixDivide))
  {
  }

  /** Division of numbers: a zero divisor is a reported error, otherwise
      the quotient times the divisor gives back the dividend. */
  lemma DivisionOfNumbers(d: Dialect, x: real, y: real, heap: seq<Grid>)
    ensures y == 0.0 ==> Binary(d, Divide, Num(x), Num(y), heap) == Failure(Raised(DivideByZero))
    ensures y != 0.0 ==> exists q :: Binary(d, Divide, Num(x), Num(y), heap) == Success(Existing(Num(q))) && q * y == x
  {
    if y != 0.0 {
      var q := x / y;
      assert Binary(d, Divide, Num(x), Num(y), heap) == Success(Existing(Num(q)));
    }
  }

  /** `and` and `or` give back one of their operands, unchanged (a matrix
      operand is the same object): `and` the right one iff the left one is
      truthy, `or` the left one iff it is truthy. */
  lemma AndOrGiveAnOperand(d: Dialect, l: Value, r: Value, heap: seq<Grid>)
    requires InHeap(l, |heap|) && InHeap(r, |heap|)
    ensures Binary(d, And, l, r, heap) == Success(Existing(if IsTruthy(l, heap) then r else l))
    ensures Binary(d, Or, l, r, heap) == Success(Existing(if IsTruthy(l, heap) then l else r))
  {
  }

  /** `"" or 4` is 4. */
  lemma EmptyStringOrFour(heap: seq<Grid>)
    ensures Binary(Newest, Or, Str(""), Num(4.0), heap) == Success(Existing(Num(4.0)))
  {
  }

  /** A scalar is broadcast over a matrix from either side of `+` and `*`:
      both orders build the same fresh matrix, of the matrix's shape. */
  lemma BroadcastEitherSide(d: Dialect, m: nat, s: real, heap: seq<Grid>)
    requires m < |heap|
    ensures Binary(d, Plus, Mat(m), Num(s), heap) == Binary(d, Plus, Num(s), Mat(m), heap)
    ensures Binary(d, Multiply, Mat(m), Num(s), heap) == Binary(d, Multiply, Num(s), Mat(m), heap)
    ensures Binary(d, Plus, Mat(m), Num(s), heap) == Success(Fresh(CellMap(heap[m], PlusScalar(s))))
    ensures Binary(d, Multiply, Mat(m), Num(s), heap) == Success(Fresh(CellMap(heap[m], TimesScalar(s))))
  {
  }

  /** `s - m` subtracts every cell from `s`: it is the negation of `m - s`. */
  lemma ScalarMinusMatrix(d: Dialect, m: nat, s: real, heap: seq<Grid>)
    requires m < |heap|
    ensures Binary(d, Minus, Num(s), Mat(m), heap) == Success(Fresh(CellMap(heap[m], ScalarMinus(s))))
    ensures CellMap(heap[m], ScalarMinus(s)) == CellMap(CellMap(heap[m], MinusScalar(s)), Negated)
  {
    ScalarMinusIsNegatedMinusScalar(heap[m], s);
  }

  /** `!=` is the negation of `==` whenever `==` gives an answer. */
  lemma NotEqualNegatesEqual(d: Dialect, l: Value, r: Value, heap: seq<Grid>)
    requires InHeap(l, |heap|) && InHeap(r, |heap|)
    requires Binary(d, Equal, l, r, heap).Success?
    ensures Binary(d, NotEqual, l, r, heap).Success?
    ensures Binary(d, NotEqual, l, r, heap).value.v == Bool(!Binary(d, Equal, l, r, heap).value.v.b)
  {
  }

  /** A matrix never equals a value of another kind, and two matrices are
      equal exactly when their grids are (unless neither has a row, where
      reading the column count fails). */
  lemma MatrixEquality(d: Dialect, a: nat, v: Value, heap: seq<Grid>)
    requires a < |heap| && InHeap(v, |heap|)
    ensures !v.Mat? ==> Binary(d, Equal, Mat(a), v, heap) == Success(Existing(Bool(false)))
    ensures v.Mat? && (|heap[a]| > 0 || |heap[v.ref]| > 0) ==>
      Binary(d, Equal, Mat(a), v, heap) == Success(Existing(Bool(heap[a] == heap[v.ref])))
  {
  }

  /** Ordering compares numbers with numbers and strings with strings; a
      matrix, a function or `None` cannot be ordered. */
  lemma OrderingNeedsComparableKinds(d: Dialect, op: BinaryOp, l: Value, r: Value, heap: seq<Grid>)
    requires InHeap(l, |heap|) && InHeap(r, |heap|)
    requires op.Greater? || op.GreaterOrEqual? || op.Less? || op.LessOrEqual?
    ensures Binary(d, op, l, r, heap).Success? <==> (l.Num? && r.Num?) || (l.Str? && r.Str?)
    ensures (l.Mat? || r.Mat? || l.Fn? || r.Fn? || l.NoneV? || r.NoneV?) ==>
      Binary(d, op, l, r, heap) == Failure(Raised(NotComparable))
  {
  }

  /** Matrix power by a whole exponent k >= 1 is the k-fold product. */
  lemma MatrixPowerIsRepeatedProduct(m: nat, k: nat, heap: seq<Grid>)
    requires m < |heap| && |heap[m]| > 0 && IsSquare(heap[m]) && k >= 1
    ensures Binary(Newest, Power, Mat(m), Num(k as real), heap) == Success(Fresh(Pow(heap[m], k)))
  {
    assert PowerSteps(k as real) + 1 == k;
    RepeatedProductIsPower(heap[m], k);
  }

  /** Without the power branch, the middle evaluator reports `^` as an
      unknown operator. */
  lemma MiddleHasNoPower(l: Value, r: Value, heap: seq<Grid>)
    requires InHeap(l, |heap|) && InHeap(r, |heap|)
    ensures Binary(Middle, Power, l, r, heap) == Failure(Raised(UnknownOperator))
  {
  }

  /** The order on strings is strict and total. */
  lemma {:induction false} StrBeforeIsStrictTotal(a: string, b: string)
    ensures !(StrBefore(a, b) && StrBefore(b, a))
    ensures a != b ==> StrBefore(a, b) || StrBefore(b, a)
    ensures !StrBefore(a, a)
  {
    if |a| > 0 {
      StrBeforeIsStrictTotal(a[1..], a[1..]);
    }
    if |a| > 0 && |b| > 0 {
      StrBeforeIsStrictTotal(a[1..], b[1..]);
      if a[0] == b[0] && a != b {
        assert a == [a[0]] + a[1..] && b == [b[0]] + b[1..];
      }
    }
  }
}
