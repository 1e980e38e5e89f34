/** The middle evaluator of the Neo language: a visitor with a stack of
    plain scopes (a name maps to its value; there is no mutability flag and
    no closure) and one global table of functions.

    State, as the visitor and the tree nodes hold it:
    - `variables`: the stack of scopes, outermost first; it is never empty;
    - `functions`: every declared function, by name;
    - `passed`: a block's `passed_variables` attribute, by block id;
    - `heap`: every matrix object, by reference;
    - `literals`: the matrix object a matrix literal node became when it was
      first evaluated (the node's rows are replaced by the values).

    The built-in functions of this evaluator come from its own table, which
    is not part of this model: the constructor is given their names, and
    calling one is `Unmodelled`. Each visit method takes a `fuel` bound, as
    in the newest evaluator. */
module NeoMiddle {
  import opened Wrappers
  import opened Matrix
  import opened NeoAst
  import opened NeoValues
  import NeoScopes
  import opened NeoStacks

  type Scope = map<string, Value>

  predicate ScopeIn(s: Scope, size: nat) {
    forall x | x in s :: InHeap(s[x], size)
  }

  /** Every matrix a scope names exists. */
  predicate ScopesIn(vs: seq<Scope>, size: nat) {
    forall k | 0 <= k < |vs| :: ScopeIn(vs[k], size)
  }

  lemma ScopesInGrow(vs: seq<Scope>, size: nat, size': nat)
    requires ScopesIn(vs, size) && size <= size'
    ensures ScopesIn(vs, size')
  {
    forall k | 0 <= k < |vs|
      ensures ScopeIn(vs[k], size')
    {
      assert ScopeIn(vs[k], size);
    }
  }

  // ---------------------------------------------------------------------
  // Lookup and assignment

  /** `name[first][second] = value` once the value and the indices are
      known: whole-number indices, then the innermost binding of `name`,
      which must be a matrix; then the cell write. A negative index (Python
      counts it from the end) is outside this model, an index past the end
      is Python's `IndexError`, and only numbers are stored. */
  function CellWrite(vs: seq<Scope>, heap: seq<Grid>, name: string, first: real, second: real, v: Value): (r: Result<seq<Grid>, Fault>)
    requires ScopesIn(vs, |heap|)
    ensures r.Success? ==> |r.value| == |heap|
  {
    if !(IsWhole(first) && IsWhole(second)) then Failure(Raised(IndicesNotWhole))
    else match Innermost(vs, name)
    case None => Failure(Raised(MatrixMissing))
    case Some(k) =>
      assert ScopeIn(vs[k], |heap|);
      var m := vs[k][name];
      if !m.Mat? then Failure(Raised(NeedsMatrix))
      else if first < 0.0 || second < 0.0 then Failure(Unmodelled)
      else
        var g, i, j := heap[m.ref], first.Floor, second.Floor;
        if i >= |g| || j >= Cols(g) then Failure(Host(IndexOutOfRange))
        else if !v.Num? then Failure(Unmodelled)
        else Success(heap[m.ref := NeoScopes.WithCell(g, i, j, v.n)])
  }

  /** A successful indexed assignment changes one cell of one matrix, the
      one the innermost binding names, and keeps every matrix's shape. */
  lemma CellWriteChangesOneCell(vs: seq<Scope>, heap: seq<Grid>, name: string, first: real, second: real, v: Value)
    requires ScopesIn(vs, |heap|)
    requires CellWrite(vs, heap, name, first, second, v).Success?
    ensures var hs := CellWrite(vs, heap, name, first, second, v).value;
      var m := vs[Innermost(vs, name).value][name].ref;
      var i, j := first.Floor, second.Floor;
      v.Num? && IsWhole(first) && IsWhole(second) && 0 <= i < |heap[m]| && 0 <= j < Cols(heap[m]) &&
      hs[m][i][j] == v.n &&
      (forall a | 0 <= a < |heap| :: |hs[a]| == |heap[a]| && Cols(hs[a]) == Cols(heap[a])) &&
      (forall a | 0 <= a < |heap| && a != m :: hs[a] == heap[a]) &&
      (forall a, b | 0 <= a < |heap[m]| && 0 <= b < Cols(heap[m]) && (a != i || b != j) :: hs[m][a][b] == heap[m][a][b])
  {
    var k := Innermost(vs, name).value;
    assert ScopeIn(vs[k], |heap|);
  }

  /** The name is looked up innermost-first, and the first scope holding it
      decides: a number there is refused even when an outer scope holds a
      matrix under the same name. */
  lemma CellWriteUsesInnermost(vs: seq<Scope>, heap: seq<Grid>, name: string, x: real, i: nat, j: nat, v: Value)
    requires ScopesIn(vs, |heap|) && |vs| > 0
    requires name in vs[|vs| - 1] && vs[|vs| - 1][name] == Num(x)
    ensures CellWrite(vs, heap, name, i as real, j as real, v) == Failure(Raised(NeedsMatrix))
  {
    assert IsWhole(i as real) && IsWhole(j as real);
  }

  // ---------------------------------------------------------------------
  // Blocks

  /** The scopes `visit_block` runs its instructions in: a new scope when
      the block is a function body, then the passed variables merged into
      the top scope (a later value for a name replaces an earlier one). */
  function Entered(vs: seq<Scope>, isFunctionBody: bool, passedHere: Scope): (r: seq<Scope>)
    requires |vs| > 0
    ensures |r| == |vs| + (if isFunctionBody then 1 else 0)
    ensures r[..|vs| - 1] == vs[..|vs| - 1]
  {
    var pushed := if isFunctionBody then vs + [map[]] else vs;
    pushed[|pushed| - 1 := pushed[|pushed| - 1] + passedHere]
  }

  /** A function body's scope holds exactly its passed variables; any
      other block adds them to the scope it shares with its surroundings. */
  lemma EnteredScope(vs: seq<Scope>, isFunctionBody: bool, passedHere: Scope)
    requires |vs| > 0
    ensures isFunctionBody ==> Entered(vs, true, passedHere) == vs + [passedHere]
    ensures !isFunctionBody ==> Entered(vs, false, passedHere)[|vs| - 1] == vs[|vs| - 1] + passedHere
  {
    if isFunctionBody {
      assert map[] + passedHere == passedHere;
      assert (vs + [map[]])[|vs| := map[] + passedHere] == vs + [passedHere];
    }
  }

  /** `Visitor()`. */
  class Visitor {
    const builtins: set<string>
    var variables: seq<Scope>
    var functions: map<string, FunctionDef>
    var passed: map<nat, Scope>
    var heap: seq<Grid>
    var literals: map<nat, nat>

    ghost predicate Valid()
      reads this
    {
      |variables| > 0 && ScopesIn(variables, |heap|)
      && (forall b | b in passed :: ScopeIn(passed[b], |heap|))
      && (forall n | n in literals :: literals[n] < |heap|)
    }

    /** Matrices are never freed, and a block's passed variables are only
        added to. */
    twostate predicate Grown()
      reads this
    {
      |old(heap)| <= |heap| && PassedGrown() && LiteralsGrown()
    }

    twostate predicate PassedGrown()
      reads this
    {
      forall b | b in old(passed) :: b in passed && old(passed[b]).Keys <= passed[b].Keys
    }

    /** A node made a matrix stays that matrix, and a node made one since
        refers to an object allocated since. */
    twostate predicate LiteralsGrown()
      reads this
    {
      && (forall id | id in old(literals) :: id in literals && literals[id] == old(literals[id]))
      && forall id | id in literals && id !in old(literals) :: |old(heap)| <= literals[id]
    }

    /** Every parameter of `f` has a value among the passed variables of
        its body. */
    predicate ParametersPassed(f: FunctionDef)
      reads this
    {
      forall p | p in f.parameters :: f.body.id in passed && p in passed[f.body.id]
    }

    /** The stack has its old depth and every scope but the top one is as
        it was. */
    twostate predicate Kept()
      reads this
    {
      0 < |variables| == |old(variables)| && variables[..|variables| - 1] == old(variables)[..|old(variables)| - 1]
    }

    /** What every evaluation promises on success. */
    twostate predicate Evaluated(new r: Result<Value, Fault>)
      reads this
    {
      Valid() && Grown() && (r.Success? ==> InHeap(r.value, |heap|) && Kept())
    }

    constructor (builtinNames: set<string>)
      ensures Valid() && builtins == builtinNames && variables == [map[]]
      ensures functions == map[] && passed == map[] && heap == [] && literals == map[]
    {
      builtins := builtinNames;
      variables, functions, passed := [map[]], map[], map[];
      heap, literals := [], map[];
    }

    // -------------------------------------------------------------------
    // Matrix objects

    twostate predicate OnlyHeap()
      reads this
    {
      variables == old(variables) && functions == old(functions)
      && passed == old(passed) && literals == old(literals)
    }

    /** A new matrix object holding `g`. */
    method Alloc(g: Grid) returns (v: Value)
      requires Valid()
      modifies this
      ensures Valid() && OnlyHeap() && heap == old(heap) + [g] && v == Mat(|old(heap)|)
    {
      ScopesInGrow(variables, |heap|, |heap| + 1);
      forall b | b in passed
        ensures ScopeIn(passed[b], |heap| + 1)
      {
        assert ScopeIn(passed[b], |heap|);
      }
      heap := heap + [g];
      v := Mat(|heap| - 1);
    }

    /** Turns a produced result into a value, creating the new matrix. */
    method Deliver(p: Result<Produced, Fault>) returns (r: Result<Value, Fault>)
      requires Valid()
      requires p.Success? && p.value.Existing? ==> InHeap(p.value.v, |heap|)
      modifies this
      ensures Valid() && OnlyHeap()
      ensures match p
        case Failure(f) => r == Failure(f) && heap == old(heap)
        case Success(Existing(v)) => r == Success(v) && heap == old(heap)
        case Success(Fresh(g)) => r == Success(Mat(|old(heap)|)) && heap == old(heap) + [g]
    {
      match p
      case Failure(f) => r := Failure(f);
      case Success(Existing(v)) => r := Success(v);
      case Success(Fresh(g)) =>
        var m := Alloc(g);
        r := Success(m);
    }

    /** Carries out an operator plan and keeps the result. */
    method Perform(p: Plan) returns (r: Result<Value, Fault>)
      requires Valid() && PlanInHeap(p, |heap|)
      modifies this
      ensures Valid() && OnlyHeap()
      ensures match ApplyPlan(p, old(heap))
        case Failure(f) => r == Failure(f) && heap == old(heap)
        case Success(Existing(v)) => r == Success(v) && heap == old(heap)
        case Success(Fresh(g)) => r == Success(Mat(|old(heap)|)) && heap == old(heap) + [g]
    {
      var produced := Carry(p, heap);
      r := Deliver(produced);
    }

    // -------------------------------------------------------------------
    // The scope stack

    /** The loop `for scope in self.variables[::-1]`. */
    method Search(name: string) returns (k: Option<nat>)
      ensures k == Innermost(variables, name)
    {
      var i := |variables|;
      assert variables[..i] == variables;
      while i > 0
        invariant 0 <= i <= |variables|
        invariant Innermost(variables, name) == Innermost(variables[..i], name)
      {
        assert variables[..i][..i - 1] == variables[..i - 1];
        if name in variables[i - 1] {
          return Some(i - 1);
        }
        i := i - 1;
      }
      return None;
    }

    /** `visit_identifier`. */
    method VisitIdentifier(name: string) returns (r: Result<Value, Fault>)
      requires Valid()
      ensures r == Lookup(variables, name)
      ensures r.Success? ==> InHeap(r.value, |heap|)
    {
      var k := Search(name);
      if k.None? {
        return Failure(Raised(Undeclared));
      }
      assert ScopeIn(variables[k.value], |heap|);
      return Success(variables[k.value][name]);
    }

    /** The write of a plain `visit_assignment`: `self.variables[-1][name] = value`. */
    method AssignTop(name: string, v: Value)
      requires Valid() && InHeap(v, |heap|)
      modifies this
      ensures Valid() && variables == Assign(old(variables), name, v)
      ensures functions == old(functions) && passed == old(passed)
      ensures heap == old(heap) && literals == old(literals)
    {
      var top := |variables| - 1;
      assert ScopeIn(variables[top], |heap|);
      variables := variables[top := variables[top][name := v]];
      forall k | 0 <= k < |variables|
        ensures ScopeIn(variables[k], |heap|)
      {
        if k != top {
          assert variables[k] == old(variables)[k];
          assert ScopeIn(old(variables)[k], |heap|);
        }
      }
    }

    /** The write of an indexed `visit_assignment`:
        `matrix.rows[i][j] = value`. */
    method WriteCell(name: string, first: real, second: real, v: Value) returns (r: Result<Value, Fault>)
      requires Valid()
      modifies this
      ensures Valid() && variables == old(variables) && functions == old(functions)
      ensures passed == old(passed) && literals == old(literals)
      ensures match CellWrite(old(variables), old(heap), name, first, second, v)
        case Success(hs) => heap == hs && r == Success(NoneV)
        case Failure(f) => heap == old(heap) && r == Failure(f)
    {
      if !(IsWhole(first) && IsWhole(second)) {
        return Failure(Raised(IndicesNotWhole));
      }
      var k := Search(name);
      if k.None? {
        return Failure(Raised(MatrixMissing));
      }
      assert ScopeIn(variables[k.value], |heap|);
      var m := variables[k.value][name];
      if !m.Mat? {
        return Failure(Raised(NeedsMatrix));
      }
      if first < 0.0 || second < 0.0 {
        return Failure(Unmodelled);
      }
      var i, j := first.Floor, second.Floor;
      if i >= |heap[m.ref]| || j >= Cols(heap[m.ref]) {
        return Failure(Host(IndexOutOfRange));
      }
      if !v.Num? {
        return Failure(Unmodelled);
      }
      heap := heap[m.ref := NeoScopes.WithCell(heap[m.ref], i, j, v.n)];
      return Success(NoneV);
    }

    // -------------------------------------------------------------------
    // Expressions

    /** `accept` on an expression; a literal is its value and changes
        nothing. */
    method Eval(e: Expression, fuel: nat) returns (r: Result<Value, Fault>)
      requires Valid()
      modifies this
      ensures Evaluated(r)
      ensures fuel == 0 ==> r == Failure(OutOfFuel)
      ensures fuel > 0 && e.Lit? ==> r == Success(LiteralValue(e.literal)) && heap == old(heap) && variables == old(variables)
      decreases fuel, 0
    {
      if fuel == 0 {
        return Failure(OutOfFuel);
      }
      match e
      case Lit(l) => r := Success(LiteralValue(l));
      case Ident(name) => r := VisitIdentifier(name);
      case MatrixNode(id, rows) => r := VisitMatrix(id, rows, fuel - 1);
      case Access(target, first, second) => r := VisitAccess(target, first, second, fuel - 1);
      case PropertyOf(subject, property) => r := VisitProperty(subject, property, fuel - 1);
      case Unary(op, operand) => r := VisitUnary(op, operand, fuel - 1);
      case Binary(left, op, right) => r := VisitBinary(left, op, right, fuel - 1);
      case Call(callee, arguments) => r := VisitFunctionCall(callee, arguments, fuel - 1);
    }

    /** `visit_matrix`: the first time, every cell in order, each of which
        must be a number; then the node becomes the matrix. Later, the
        node's rows already hold numbers, and visiting a number fails unless
        there is no cell at all. */
    method VisitMatrix(id: nat, rows: seq<seq<Expression>>, fuel: nat) returns (r: Result<Value, Fault>)
      requires Valid()
      modifies this
      ensures Evaluated(r)
      ensures old(id in literals) ==> (r.Success? <==> !HasCells(old(heap[literals[id]])))
      ensures old(id in literals) && r.Success? ==> r.value == Mat(old(literals[id])) && heap == old(heap)
      ensures r.Success? && old(id !in literals) ==>
        && r.value.Mat? && id in literals && literals[id] == r.value.ref
        && |old(heap)| <= r.value.ref < |heap| && BuiltFrom(heap[r.value.ref], rows)
      ensures old(id !in literals) && fuel > 0 && |rows| > 0 && |rows[0]| > 0 && rows[0][0].Lit? && !rows[0][0].literal.NumberLit? ==>
        r == Failure(Raised(OnlyScalars))
      decreases fuel, 2
    {
      if id in literals {
        var g := heap[literals[id]];
        if HasCells(g) {
          return Failure(Host(MissingAttribute));
        }
        return Success(Mat(literals[id]));
      }
      var values: seq<seq<real>> := [];
      var i := 0;
      while i < |rows|
        invariant Valid() && Grown() && Kept()
        invariant |values| == i <= |rows|
        invariant forall a | 0 <= a < i :: |values[a]| == |rows[a]|
        invariant forall a, b | 0 <= a < i && 0 <= b < |rows[a]| && rows[a][b].Lit? ::
          rows[a][b].literal.NumberLit? && values[a][b] == rows[a][b].literal.n
      {
        var row: seq<real> := [];
        var j := 0;
        while j < |rows[i]|
          invariant Valid() && Grown() && Kept()
          invariant |row| == j <= |rows[i]|
          invariant forall b | 0 <= b < j && rows[i][b].Lit? :: rows[i][b].literal.NumberLit? && row[b] == rows[i][b].literal.n
        {
          var v :- Eval(rows[i][j], fuel);
          if !v.Num? {
            return Failure(Raised(OnlyScalars));
          }
          row := row + [v.n];
          j := j + 1;
        }
        values := values + [row];
        i := i + 1;
      }
      if !Rectangular(values) {
        return Failure(Unmodelled);
      }
      if id in literals {
        // A visit of this node while its cells were evaluated has already
        // made it a matrix: the node stays that one object, and its rows
        // are replaced by this visit's values.
        heap := heap[literals[id] := values];
        return Success(Mat(literals[id]));
      }
      var m := Alloc(values);
      literals := literals[id := m.ref];
      return Success(m);
    }

    /** `visit_access`: the target first, then the tests of `AccessCell`. */
    method VisitAccess(target: Expression, first: real, second: real, fuel: nat) returns (r: Result<Value, Fault>)
      requires Valid()
      modifies this
      ensures Evaluated(r)
      decreases fuel, 2
    {
      var m :- Eval(target, fuel);
      r := AccessCell(m, first, second, heap);
    }

    /** `visit_property`: the subject first, then `PropertyValue` with the
        older matrix class's determinant. */
    method VisitProperty(subject: Expression, property: string, fuel: nat) returns (r: Result<Value, Fault>)
      requires Valid()
      modifies this
      ensures Evaluated(r)
      decreases fuel, 2
    {
      var m :- Eval(subject, fuel);
      r := Deliver(PropertyValue(Middle, m, property, heap));
    }

    /** `visit_unary_operator`. */
    method VisitUnary(op: UnaryOp, operand: Expression, fuel: nat) returns (r: Result<Value, Fault>)
      requires Valid()
      modifies this
      ensures Evaluated(r)
      decreases fuel, 2
    {
      var v :- Eval(operand, fuel);
      r := Perform(UnaryPlan(op, v, heap));
    }

    /** `visit_binary_operator`: both operands, left first, then the
        operator chain of this evaluator. */
    method VisitBinary(left: Expression, op: BinaryOp, right: Expression, fuel: nat) returns (r: Result<Value, Fault>)
      requires Valid()
      modifies this
      ensures Evaluated(r)
      decreases fuel, 2
    {
      var l :- Eval(left, fuel);
      r := BinaryWith(l, op, right, fuel);
    }

    /** The right operand and the operator, once the left operand is
        known. */
    method BinaryWith(l: Value, op: BinaryOp, right: Expression, fuel: nat) returns (r: Result<Value, Fault>)
      requires Valid() && InHeap(l, |heap|)
      modifies this
      ensures Evaluated(r)
      decreases fuel, 1
    {
      var x :- Eval(right, fuel);
      r := Perform(BinaryPlan(Middle, op, l, x, heap));
    }

    /** The arguments of a built-in call, left to right. */
    method EvalAll(args: seq<Expression>, fuel: nat) returns (r: Result<seq<Value>, Fault>)
      requires Valid()
      modifies this
      ensures Valid() && Grown()
      ensures r.Success? ==> |r.value| == |args| && Kept()
      decreases fuel, 1
    {
      var values: seq<Value> := [];
      for i := 0 to |args|
        invariant Valid() && Grown() && Kept()
        invariant |values| == i
      {
        var v :- Eval(args[i], fuel);
        values := values + [v];
      }
      return Success(values);
    }

    /** `visit_function_call`: a built-in first (its arguments are
        evaluated before it runs); otherwise the function of that name in
        the global table, the arity test, each argument evaluated and
        stored in the body's passed variables; then the body. */
    method VisitFunctionCall(name: string, args: seq<Expression>, fuel: nat) returns (r: Result<Value, Fault>)
      requires Valid()
      modifies this
      ensures Evaluated(r)
      ensures name in builtins ==> r.Failure?
      ensures name !in builtins && name !in old(functions) ==> r == Failure(Raised(NoSuchFunction))
      ensures name !in builtins && name in old(functions) && |old(functions)[name].parameters| != |args| ==>
        r == Failure(Raised(ArgumentCount))
      decreases fuel, 2
    {
      if name in builtins {
        var values :- EvalAll(args, fuel);
        return Failure(Unmodelled);
      }
      if name !in functions {
        return Failure(Raised(NoSuchFunction));
      }
      var f := functions[name];
      if |f.parameters| != |args| {
        return Failure(Raised(ArgumentCount));
      }
      var bound :- PassArguments(f, args, fuel);
      r := VisitBlock(f.body, fuel);
    }

    /** The loop of `visit_function_call` that evaluates each argument and
        stores it under its parameter's name in the body's passed
        variables. */
    method PassArguments(f: FunctionDef, args: seq<Expression>, fuel: nat) returns (r: Result<Value, Fault>)
      requires Valid() && |f.parameters| == |args|
      modifies this
      ensures Evaluated(r)
      ensures r.Success? ==> r.value == NoneV && ParametersPassed(f)
      decreases fuel, 1
    {
      for i := 0 to |args|
        invariant Valid() && Grown() && Kept()
        invariant i > 0 ==> f.body.id in passed && forall k | 0 <= k < i :: f.parameters[k] in passed[f.body.id]
      {
        var v :- Eval(args[i], fuel);
        StorePassed(f.body.id, f.parameters[i], v);
      }
      return Success(NoneV);
    }

    /** `function.block.passed_variables[param.value] = value`. */
    method StorePassed(id: nat, name: string, v: Value)
      requires Valid() && InHeap(v, |heap|)
      modifies this
      ensures Valid() && Grown()
      ensures id in passed && name in passed[id] && passed[id][name] == v
      ensures passed == old(passed)[id := (if id in old(passed) then old(passed)[id] else map[])[name := v]]
      ensures variables == old(variables) && functions == old(functions)
      ensures heap == old(heap) && literals == old(literals)
    {
      var seed := if id in passed then passed[id] else map[];
      assert ScopeIn(seed, |heap|);
      passed := passed[id := seed[name := v]];
    }

    // -------------------------------------------------------------------
    // Instructions

    /** `accept` on an instruction. This evaluator has no
        `visit_declaration`, so a declaration is Python's `AttributeError`. */
    method Exec(ins: Instruction, fuel: nat) returns (r: Result<Value, Fault>)
      requires Valid()
      modifies this
      ensures Evaluated(r)
      ensures ins.Declaration? ==> r.Failure?
      ensures r.Success? && ReturnsLiteral(ins) ==> r.value == LiteralValue(ins.result.value.literal)
      decreases fuel, 0
    {
      if fuel == 0 {
        return Failure(OutOfFuel);
      }
      match ins
      case Declaration(_, _, _) => r := Failure(Host(MissingAttribute));
      case Assignment(target, index, value) => r := VisitAssignment(target, index, value, fuel - 1);
      case Nested(block) => r := VisitBlock(block, fuel - 1);
      case IfStatement(condition, main, otherwise) => r := VisitIf(condition, main, otherwise, fuel - 1);
      case WhileLoop(condition, body) => r := VisitWhile(condition, body, fuel - 1);
      case Return(result) => r := VisitReturn(result, fuel - 1);
      case CallStatement(callee, arguments) => r := VisitFunctionCall(callee, arguments, fuel - 1);
      case FunctionDeclaration(definition) => r := VisitFunction(definition);
    }

    /** `visit_function`: a built-in name is refused; otherwise the
        function goes into the global table, replacing one of the same
        name. */
    method VisitFunction(f: FunctionDef) returns (r: Result<Value, Fault>)
      requires Valid()
      modifies this
      ensures Valid() && variables == old(variables) && heap == old(heap)
      ensures passed == old(passed) && literals == old(literals)
      ensures f.name in builtins ==> r == Failure(Raised(ReservedName)) && functions == old(functions)
      ensures f.name !in builtins ==> r == Success(NoneV) && functions == old(functions)[f.name := f]
    {
      if f.name in builtins {
        return Failure(Raised(ReservedName));
      }
      functions := functions[f.name := f];
      return Success(NoneV);
    }

    /** `visit_assignment`: the value first; a plain assignment writes the
        innermost scope; an indexed one evaluates the two indices and
        writes the cell. With a literal value (and literal number indices)
        the write is `Assign`'s or `CellWrite`'s. */
    method VisitAssignment(target: string, index: Option<Index>, value: Expression, fuel: nat) returns (r: Result<Value, Fault>)
      requires Valid()
      modifies this
      ensures Evaluated(r)
      ensures r.Success? ==> r.value == NoneV
      ensures r.Success? && index.None? ==> target in variables[|variables| - 1]
      ensures fuel > 0 && value.Lit? && index.None? ==>
        r == Success(NoneV) && variables == Assign(old(variables), target, LiteralValue(value.literal)) && heap == old(heap)
      ensures fuel > 0 && value.Lit? && index.Some? && LiteralIndices(index.value) ==>
        variables == old(variables) &&
        match CellWrite(old(variables), old(heap), target, index.value.first.literal.n, index.value.second.literal.n, LiteralValue(value.literal))
        case Success(hs) => r == Success(NoneV) && heap == hs
        case Failure(f) => r == Failure(f)
      decreases fuel, 2
    {
      var v :- Eval(value, fuel);
      if index.None? {
        AssignTop(target, v);
        return Success(NoneV);
      }
      var i :- Eval(index.value.first, fuel);
      var j :- Eval(index.value.second, fuel);
      var pair :- IndexPair(i, j);
      r := WriteCell(target, pair.0, pair.1, v);
    }

    /** `visit_if_statement`: the then-block on a truthy condition, the
        else-block (if any) otherwise, else `None`. */
    method VisitIf(condition: Expression, main: Block, otherwise: Option<Block>, fuel: nat) returns (r: Result<Value, Fault>)
      requires Valid()
      modifies this
      ensures Evaluated(r)
      decreases fuel, 2
    {
      var c :- Eval(condition, fuel);
      if IsTruthy(c, heap) {
        r := VisitBlock(main, fuel);
      } else if otherwise.Some? {
        r := VisitBlock(otherwise.value, fuel);
      } else {
        r := Success(NoneV);
      }
    }

    /** `visit_while_loop`: the condition is evaluated again after each run
        of the body whose value is `None`; the first other value ends the
        loop with that value. At most `fuel` runs of the body are
        modelled. */
    method VisitWhile(condition: Expression, body: Block, fuel: nat) returns (r: Result<Value, Fault>)
      requires Valid()
      modifies this
      ensures Evaluated(r)
      decreases fuel, 2
    {
      var c :- Eval(condition, fuel);
      var budget := fuel;
      while IsTruthy(c, heap)
        invariant Valid() && Grown() && Kept() && InHeap(c, |heap|)
        decreases budget
      {
        if budget == 0 {
          return Failure(OutOfFuel);
        }
        budget := budget - 1;
        var v :- VisitBlock(body, fuel);
        if v != NoneV {
          return Success(v);
        }
        c :- Eval(condition, fuel);
      }
      return Success(NoneV);
    }

    /** `visit_return`: the expression's value, or `None`. */
    method VisitReturn(result: Option<Expression>, fuel: nat) returns (r: Result<Value, Fault>)
      requires Valid()
      modifies this
      ensures Evaluated(r)
      ensures result.None? ==> r == Success(NoneV) && heap == old(heap) && variables == old(variables)
      ensures r.Success? && result.Some? && result.value.Lit? ==> r.value == LiteralValue(result.value.literal)
      decreases fuel, 2
    {
      if result.None? {
        return Success(NoneV);
      }
      r := Eval(result.value, fuel);
    }

    /** The entry of `visit_block`: a new scope for a function body, then
        the passed variables merged into the top scope. */
    method EnterBlock(b: Block)
      requires Valid()
      modifies this
      ensures Valid()
      ensures variables == Entered(old(variables), b.isFunctionBody, if b.id in passed then passed[b.id] else map[])
      ensures heap == old(heap) && functions == old(functions) && passed == old(passed) && literals == old(literals)
    {
      ghost var before := variables;
      var seed := if b.id in passed then passed[b.id] else map[];
      assert ScopeIn(seed, |heap|);
      if b.isFunctionBody {
        variables := variables + [map[]];
      }
      var top := |variables| - 1;
      assert top < |before| ==> ScopeIn(variables[top], |heap|);
      variables := variables[top := variables[top] + seed];
      forall k | 0 <= k < |variables|
        ensures ScopeIn(variables[k], |heap|)
      {
        if k < |before| && k != top {
          assert variables[k] == before[k];
          assert ScopeIn(before[k], |heap|);
        }
      }
    }

    /** The loop of `visit_block`: each instruction in order until one
        gives a value other than `None`, which is the block's value; `ran`
        instructions were executed. */
    method RunInstructions(instructions: seq<Instruction>, fuel: nat) returns (r: Result<Value, Fault>, ghost ran: nat)
      requires Valid()
      modifies this
      ensures Evaluated(r)
      ensures r.Success? ==> ran <= |instructions|
      ensures r.Success? && r.value == NoneV ==> ran == |instructions|
      ensures r.Success? && ran < |instructions| ==> r.value != NoneV
      ensures r.Success? && ran > 0 && ReturnsLiteral(instructions[ran - 1]) ==> r.value == LiteralValue(instructions[ran - 1].result.value.literal)
      decreases fuel, 1
    {
      var i := 0;
      while i < |instructions|
        invariant Valid() && Grown() && Kept()
        invariant i <= |instructions|
        invariant i > 0 ==> !ReturnsLiteral(instructions[i - 1])
      {
        var v := Exec(instructions[i], fuel);
        if v.Failure? {
          return Failure(v.error), i;
        }
        if v.value != NoneV {
          return v, i + 1;
        }
        i := i + 1;
      }
      return Success(NoneV), i;
    }

    /** `visit_block`: entry, the instructions, and the pop of the scope a
        function body pushed. A function body leaves the stack exactly as
        it found it; any other block may only have written the top scope. */
    method VisitBlock(b: Block, fuel: nat) returns (r: Result<Value, Fault>)
      requires Valid()
      modifies this
      ensures Evaluated(r)
      ensures r.Success? && b.isFunctionBody ==> variables == old(variables)
      decreases fuel, 0
    {
      if fuel == 0 {
        return Failure(OutOfFuel);
      }
      ghost var outer := variables;
      EnterBlock(b);
      ghost var entered := variables;
      var run, ran := RunInstructions(b.instructions, fuel - 1);
      if run.Failure? {
        return run;
      }
      if b.isFunctionBody {
        assert variables[..|outer|] == entered[..|outer|] == outer;
        variables := variables[..|variables| - 1];
      }
      return run;
    }
  }

  /** `Interpreter.run`: the top-level objects in order on a new visitor
      whose built-ins are named by `builtins`; the first failure ends the
      run. */
  method Run(builtins: set<string>, program: Program, fuel: nat) returns (o: RunOutcome)
    ensures o.Stopped? ==> o.at < |program|
    ensures o.Crashed? ==> o.at < |program| && !o.fault.Raised?
  {
    var visitor := new Visitor(builtins);
    for i := 0 to |program|
      invariant visitor.Valid()
    {
      var r := visitor.Exec(program[i], fuel);
      if r.Failure? {
        if r.error.Raised? {
          return Stopped(i, r.error.kind);
        }
        return Crashed(i, r.error);
      }
    }
    return Finished;
  }
}
