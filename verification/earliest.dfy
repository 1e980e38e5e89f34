/** The earliest evaluator of the Neo language: a visitor with a stack of
    scopes that every block pushes, one global table of functions, and no
    error handling in its run (every exception ends the run).

    This evaluator does not evaluate matrices: a matrix literal is the value
    of itself, its rows still holding expression nodes; an access takes a
    node out of it, unevaluated; a property is the matrix's getter, not
    called. The classes of those nodes are not part of this model, so any
    operator applied to them is `Unmodelled`, except what the matrix class
    decides alone (a matrix is unequal to every value that is not a
    matrix).

    State:
    - `variables`: the stack of scopes, outermost first; it is never empty;
    - `functions`: every declared function, by name;
    - `passed`: a block's `passed_variables` attribute, by block id. */
module NeoEarliest {
  import opened Wrappers
  import opened NeoAst
  import opened NeoValues
  import opened NeoStacks

  /** A value of this evaluator. */
  datatype Item =
    | Nothing
    | Number(n: real)
    | Boolean(b: bool)
    | Text(s: string)
      /** A matrix literal node, evaluated to itself. */
    | Literal(rows: seq<seq<Expression>>)
      /** A node taken out of a matrix literal. */
    | Node(e: Expression)
      /** `matrix.properties[name]`: the bound getter, not called. */
    | Getter(of: seq<seq<Expression>>, name: string)

  type Scope = map<string, Item>

  /** `visit_literal`. */
  function LiteralItem(l: Literal): (x: Item)
    ensures l.NumberLit? <==> x.Number?
    ensures l.BoolLit? <==> x.Boolean?
    ensures l.StringLit? <==> x.Text?
  {
    match l
    case NumberLit(n) => Number(n)
    case BoolLit(b) => Boolean(b)
    case StringLit(s) => Text(s)
  }

  /** A matrix literal without a single cell. */
  predicate NoCells(rows: seq<seq<Expression>>) {
    forall k | 0 <= k < |rows| :: |rows[k]| == 0
  }

  /** Python's `bool(x)`. A matrix is true iff some cell is nonzero; with
      expression nodes as cells only a matrix without cells can be decided
      here (it is false). A getter is true. */
  function Truthy(x: Item): (r: Result<bool, Fault>)
    ensures r.Failure? ==> r.error == Unmodelled
    ensures x.Literal? && NoCells(x.rows) ==> r == Success(false)
  {
    match x
    case Nothing => Success(false)
    case Number(n) => Success(n != 0.0)
    case Boolean(b) => Success(b)
    case Text(s) => Success(|s| > 0)
    case Literal(rows) => if NoCells(rows) then Success(false) else Failure(Unmodelled)
    case Node(_) => Failure(Unmodelled)
    case Getter(_, _) => Success(true)
  }

  predicate Primitive(x: Item) {
    x.Nothing? || x.Number? || x.Boolean? || x.Text?
  }

  /** Booleans are integers to Python; arithmetic that mixes them with
      numbers is outside this model. */
  predicate BoolMix(l: Item, r: Item) {
    (l.Boolean? && (r.Number? || r.Boolean?)) || (r.Boolean? && l.Number?)
  }

  /** The orderings `> >= < <=` on numbers (any other operator reads as
      `<=`). */
  function Ordered(op: BinaryOp, a: real, b: real): bool {
    if op.Greater? then a > b
    else if op.GreaterOrEqual? then a >= b
    else if op.Less? then a < b
    else a <= b
  }

  /** The same orderings on strings, by code points. */
  function OrderedText(op: BinaryOp, a: string, b: string): bool {
    if op.Greater? then StrBefore(b, a)
    else if op.GreaterOrEqual? then !StrBefore(a, b)
    else if op.Less? then StrBefore(a, b)
    else !StrBefore(b, a)
  }

  /** `visit_unary_operator`: `-x` and `not x`. */
  function UnaryItem(op: UnaryOp, x: Item): (r: Result<Item, Fault>)
    ensures op == Negate && x.Number? ==> r == Success(Number(-x.n))
    ensures op == Not && Truthy(x).Success? ==> r == Success(Boolean(!Truthy(x).value))
  {
    match op
    case Negate =>
      if x.Number? then Success(Number(-x.n))
      else if x.Literal? && NoCells(x.rows) then Success(x)
      else if x.Literal? || x.Node? || x.Boolean? then Failure(Unmodelled)
      else Failure(Host(TypeMismatch))
    case Not =>
      var t :- Truthy(x);
      Success(Boolean(!t))
  }

  /** The operator chain on `None`, numbers, booleans and strings, with
      Python's own behaviour for each pair. */
  function PrimitiveBinary(op: BinaryOp, l: Item, r: Item): (res: Result<Item, Fault>)
  {
    match op
    case Plus =>
      if l.Number? && r.Number? then Success(Number(l.n + r.n))
      else if l.Text? && r.Text? then Success(Text(l.s + r.s))
      else Failure(Host(TypeMismatch))
    case Minus =>
      if l.Number? && r.Number? then Success(Number(l.n - r.n)) else Failure(Host(TypeMismatch))
    case Multiply =>
      if l.Number? && r.Number? then Success(Number(l.n * r.n))
      else if (l.Text? && r.Boolean?) || (l.Boolean? && r.Text?) then Failure(Unmodelled)
      else Failure(Host(TypeMismatch))
    case Divide =>
      if l.Number? && r.Number? then
        if r.n == 0.0 then Failure(Host(ZeroDivision)) else Success(Number(l.n / r.n))
      else Failure(Host(TypeMismatch))
    case Equal =>
      if (l.Boolean? && r.Number?) || (l.Number? && r.Boolean?) then Failure(Unmodelled)
      else Success(Boolean(l == r))
    case NotEqual =>
      if (l.Boolean? && r.Number?) || (l.Number? && r.Boolean?) then Failure(Unmodelled)
      else Success(Boolean(l != r))
    case Greater | GreaterOrEqual | Less | LessOrEqual =>
      if l.Number? && r.Number? then Success(Boolean(Ordered(op, l.n, r.n)))
      else if l.Text? && r.Text? then Success(Boolean(OrderedText(op, l.s, r.s)))
      else Failure(Host(TypeMismatch))
    case And | Or | Power | DivideInteger => Failure(Raised(UnknownOperator))
  }

  /** `visit_binary_operator`: the operator chain knows `+ - * /`, the
      orderings, `==` and `!=`; any other operator is refused, whatever the
      operands. Nothing is checked beforehand, so a wrong operand kind is
      Python's `TypeError` and a zero divisor its `ZeroDivisionError`. */
  function BinaryItem(op: BinaryOp, l: Item, r: Item): (res: Result<Item, Fault>)
    ensures (op.And? || op.Or? || op.Power? || op.DivideInteger?) ==> res == Failure(Raised(UnknownOperator))
  {
    if op.And? || op.Or? || op.Power? || op.DivideInteger? then Failure(Raised(UnknownOperator))
    else if l.Node? || r.Node? || l.Getter? || r.Getter? then Failure(Unmodelled)
    else if l.Literal? || r.Literal? then
      if (op.Equal? || op.NotEqual?) && !(l.Literal? && r.Literal?) then Success(Boolean(op.NotEqual?))
      else Failure(Unmodelled)
    else if BoolMix(l, r) && !(op.Equal? || op.NotEqual?) then Failure(Unmodelled)
    else PrimitiveBinary(op, l, r)
  }

  /** Without the checks of the later evaluators, strings meet `-`, `*` and
      `/` as Python's `TypeError`, a zero divisor is Python's uncaught
      `ZeroDivisionError`, and numbers of different values are unequal. */
  lemma EarliestOperatorErrors(s: string, x: real, y: real)
    ensures BinaryItem(Minus, Text(s), Number(x)) == Failure(Host(TypeMismatch))
    ensures BinaryItem(Multiply, Text(s), Number(x)) == Failure(Host(TypeMismatch))
    ensures BinaryItem(Divide, Number(x), Number(0.0)) == Failure(Host(ZeroDivision))
    ensures y != 0.0 ==> BinaryItem(Divide, Number(x), Number(y)) == Success(Number(x / y))
    ensures BinaryItem(Equal, Number(x), Number(y)) == Success(Boolean(x == y))
    ensures BinaryItem(NotEqual, Text(s), Number(x)) == Success(Boolean(true))
  {
  }

  /** A matrix equals no value that is not a matrix, on either side. */
  lemma LiteralUnequalToOthers(rows: seq<seq<Expression>>, x: Item)
    requires Primitive(x)
    ensures BinaryItem(Equal, Literal(rows), x) == Success(Boolean(false))
    ensures BinaryItem(Equal, x, Literal(rows)) == Success(Boolean(false))
    ensures BinaryItem(NotEqual, x, Literal(rows)) == Success(Boolean(true))
  {
  }

  // ---------------------------------------------------------------------
  // Access and properties

  /** `visit_access` once the target is evaluated, as written: the target
      must be a matrix, and then `rows[first]` indexes a Python list with
      the literal's value, which the lexer always makes a float; a list
      refuses a float index with `TypeError`. */
  function AccessAsWritten(target: Item, first: real, second: real): (r: Result<Item, Fault>)
  {
    if !target.Literal? then Failure(Raised(NeedsMatrix))
    else Failure(Host(TypeMismatch))
  }

  /** As written, no access succeeds: even a whole, in-range index into a
      matrix is refused, so `m[0][0]` on `m = [<1>]` fails. */
  lemma AccessAlwaysFails(target: Item, first: real, second: real)
    ensures AccessAsWritten(target, first, second).Failure?
    ensures target == Literal([[Lit(NumberLit(1.0))]]) ==> AccessAsWritten(target, 0.0, 0.0) == Failure(Host(TypeMismatch))
  {
  }

  /** `visit_access` with the index converted to the integer it denotes,
      as the later evaluators do (`int(first)`): the target must be a
      matrix; the result is the node `rows[first][second]`. A fractional
      index is still Python's `TypeError`, a negative one (counted from the
      end) is outside this model, and one past the end is its
      `IndexError`. */
  function AccessNode(target: Item, first: real, second: real): (r: Result<Item, Fault>)
    ensures !target.Literal? ==> r == Failure(Raised(NeedsMatrix))
  {
    if !target.Literal? then Failure(Raised(NeedsMatrix))
    else if !(IsWhole(first) && IsWhole(second)) then Failure(Host(TypeMismatch))
    else if first < 0.0 || second < 0.0 then Failure(Unmodelled)
    else
      var rows, i, j := target.rows, first.Floor, second.Floor;
      if i >= |rows| || j >= |rows[i]| then Failure(Host(IndexOutOfRange))
      else Success(Node(rows[i][j]))
  }

  /** The access gives the cell's node, unevaluated, at every whole index
      inside the literal, and `IndexError` outside it. */
  lemma AccessGivesNode(rows: seq<seq<Expression>>, i: nat, j: nat)
    ensures i < |rows| && j < |rows[i]| ==> AccessNode(Literal(rows), i as real, j as real) == Success(Node(rows[i][j]))
    ensures (i >= |rows| || (i < |rows| && j >= |rows[i]|)) ==>
      AccessNode(Literal(rows), i as real, j as real) == Failure(Host(IndexOutOfRange))
  {
    assert (i as real).Floor == i && (j as real).Floor == j;
  }

  /** The names in a matrix's `properties` dict. */
  predicate IsProperty(name: string) {
    name == "det" || name == "rowlen" || name == "collen" || name == "transposed" || name == "copy"
  }

  /** `visit_property` once the subject is evaluated: only a matrix has
      properties; the result is the getter itself, and an unknown name is
      Python's `KeyError`. */
  function PropertyItem(subject: Item, name: string): (r: Result<Item, Fault>)
    ensures !subject.Literal? ==> r == Failure(Raised(PropertyNeedsMatrix))
    ensures subject.Literal? && !IsProperty(name) ==> r == Failure(Host(MissingKey))
    ensures r.Success? ==> r.value == Getter(subject.rows, name) && IsProperty(name)
  {
    if !subject.Literal? then Failure(Raised(PropertyNeedsMatrix))
    else if !IsProperty(name) then Failure(Host(MissingKey))
    else Success(Getter(subject.rows, name))
  }

  // ---------------------------------------------------------------------
  // Assignment

  /** `visit_assignment`: every scope that binds the name gets the new
      value, and the innermost scope gets the binding in any case. */
  function AssignEverywhere(vs: seq<Scope>, name: string, v: Item): (r: seq<Scope>)
    requires |vs| > 0
    ensures |r| == |vs|
  {
    seq(|vs|, k requires 0 <= k < |vs| => if name in vs[k] || k == |vs| - 1 then vs[k][name := v] else vs[k])
  }

  /** After an assignment no scope holds an older value of the name, the
      outer scopes bind the names they bound, and other names keep their
      values everywhere. */
  lemma AssignEverywhereIsComplete(vs: seq<Scope>, name: string, v: Item)
    requires |vs| > 0
    ensures var r := AssignEverywhere(vs, name, v);
      (forall k | 0 <= k < |vs| && name in r[k] :: r[k][name] == v) &&
      (forall k | 0 <= k < |vs| - 1 :: r[k].Keys == vs[k].Keys) &&
      r[|vs| - 1].Keys == vs[|vs| - 1].Keys + {name} &&
      (forall k, y | 0 <= k < |vs| && y in vs[k] && y != name :: y in r[k] && r[k][y] == vs[k][y])
  {
  }

  /** After `name = v` the name reads `v` (from the innermost scope, and
      from every scope that held it). */
  lemma LookupAfterAssignEverywhere(vs: seq<Scope>, name: string, v: Item)
    requires |vs| > 0
    ensures Lookup(AssignEverywhere(vs, name, v), name) == Success(v)
  {
  }

  /** Where the middle evaluator writes only the innermost scope, this one
      also rewrites an outer binding: with `x` bound in the outer scope,
      an assignment in an inner scope is seen by the outer scope too. */
  lemma OuterBindingRewritten(x: Item, v: Item)
    ensures AssignEverywhere([map["x" := x], map[]], "x", v) == [map["x" := v], map["x" := v]]
    ensures Assign([map["x" := x], map[]], "x", v) == [map["x" := x], map["x" := v]]
  {
    var r := AssignEverywhere([map["x" := x], map[]], "x", v);
    assert r[0] == map["x" := v];
    assert r[1] == map["x" := v];
  }

  /** The run of a program: every top-level object executed, or the first
      exception, which ends the run: this evaluator catches nothing. */
  class Visitor {
    /** Whether `visit_access` runs as written or repaired. */
    const mode: Mode
    var variables: seq<Scope>
    var functions: map<string, FunctionDef>
    var passed: map<nat, Scope>

    ghost predicate Valid()
      reads this
    {
      |variables| > 0
    }

    /** The stack has its old depth and every scope binds the names it
        bound (values may differ). */
    twostate predicate SameNames()
      reads this
    {
      |variables| == |old(variables)| && forall k | 0 <= k < |variables| :: variables[k].Keys == old(variables)[k].Keys
    }

    /** The stack has its old depth and every scope but the top one binds
        the names it bound. */
    twostate predicate Kept()
      reads this
    {
      0 < |variables| == |old(variables)| && forall k | 0 <= k < |variables| - 1 :: variables[k].Keys == old(variables)[k].Keys
    }

    /** A block's passed variables are only added to. */
    twostate predicate PassedGrown()
      reads this
    {
      forall b | b in old(passed) :: b in passed && old(passed[b]).Keys <= passed[b].Keys
    }

    /** Every parameter of `f` has a value among the passed variables of
        its body. */
    predicate ParametersPassed(f: FunctionDef)
      reads this
    {
      forall p | p in f.parameters :: f.body.id in passed && p in passed[f.body.id]
    }

    constructor (mode: Mode)
      ensures Valid() && variables == [map[]] && functions == map[] && passed == map[] && this.mode == mode
    {
      this.mode := mode;
      variables, functions, passed := [map[]], map[], map[];
    }

    // -------------------------------------------------------------------
    // The scope stack

    /** The loop `for scope in self.variables[::-1]` of `visit_identifier`. */
    method VisitIdentifier(name: string) returns (r: Result<Item, Fault>)
      ensures r == Lookup(variables, name)
    {
      var i := |variables|;
      assert variables[..i] == variables;
      while i > 0
        invariant 0 <= i <= |variables|
        invariant Innermost(variables, name) == Innermost(variables[..i], name)
      {
        assert variables[..i][..i - 1] == variables[..i - 1];
        if name in variables[i - 1] {
          return Success(variables[i - 1][name]);
        }
        i := i - 1;
      }
      return Failure(Raised(Undeclared));
    }

    /** The loops of `visit_assignment`: every scope holding the name,
        innermost first, then the innermost scope. */
    method AssignAll(name: string, v: Item)
      requires Valid()
      modifies this
      ensures Valid() && variables == AssignEverywhere(old(variables), name, v)
      ensures functions == old(functions) && passed == old(passed)
    {
      ghost var before := variables;
      var i := |variables|;
      while i > 0
        invariant 0 <= i <= |variables| == |before|
        invariant forall k | 0 <= k < i :: variables[k] == before[k]
        invariant forall k | i <= k < |before| :: variables[k] == if name in before[k] then before[k][name := v] else before[k]
        invariant functions == old(functions) && passed == old(passed)
      {
        if name in variables[i - 1] {
          variables := variables[i - 1 := variables[i - 1][name := v]];
        }
        i := i - 1;
      }
      var top := |variables| - 1;
      variables := variables[top := variables[top][name := v]];
      ghost var after := AssignEverywhere(before, name, v);
      assert forall k | 0 <= k < |before| :: variables[k] == after[k];
    }

    // -------------------------------------------------------------------
    // Expressions

    /** `accept` on an expression; a literal is its value. */
    method Eval(e: Expression, fuel: nat) returns (r: Result<Item, Fault>)
      requires Valid()
      modifies this
      ensures Valid() && PassedGrown() && (r.Success? ==> SameNames())
      ensures r.Success? && e.Lit? ==> r.value == LiteralItem(e.literal)
      decreases fuel, 0
    {
      if fuel == 0 {
        return Failure(OutOfFuel);
      }
      match e
      case Lit(l) => r := Success(LiteralItem(l));
      case Ident(name) => r := VisitIdentifier(name);
      case MatrixNode(_, rows) => r := Success(Literal(rows));
      case Access(target, first, second) =>
        var m :- Eval(target, fuel - 1);
        r := if mode == AsWritten then AccessAsWritten(m, first, second) else AccessNode(m, first, second);
      case PropertyOf(subject, property) =>
        var m :- Eval(subject, fuel - 1);
        r := PropertyItem(m, property);
      case Unary(op, operand) =>
        var x :- Eval(operand, fuel - 1);
        r := UnaryItem(op, x);
      case Binary(left, op, right) =>
        var l :- Eval(left, fuel - 1);
        var x :- Eval(right, fuel - 1);
        r := BinaryItem(op, l, x);
      case Call(callee, arguments) => r := VisitFunctionCall(callee, arguments, fuel - 1);
    }

    /** `visit_function_call`: the function of that name in the global
        table (an unknown name is Python's `KeyError`), the arity test,
        each argument evaluated and stored in the body's passed variables;
        then the body. */
    method VisitFunctionCall(name: string, args: seq<Expression>, fuel: nat) returns (r: Result<Item, Fault>)
      requires Valid()
      modifies this
      ensures Valid() && PassedGrown() && (r.Success? ==> SameNames())
      ensures name !in old(functions) ==> r == Failure(Host(MissingKey))
      ensures name in old(functions) && |old(functions)[name].parameters| != |args| ==> r == Failure(Raised(ArgumentCount))
      ensures r.Success? ==> name in old(functions) && ParametersPassed(old(functions)[name])
      decreases fuel, 1
    {
      if name !in functions {
        return Failure(Host(MissingKey));
      }
      var f := functions[name];
      if |f.parameters| != |args| {
        return Failure(Raised(ArgumentCount));
      }
      for i := 0 to |args|
        invariant Valid() && PassedGrown() && SameNames()
        invariant i > 0 ==> f.body.id in passed && forall k | 0 <= k < i :: f.parameters[k] in passed[f.body.id]
      {
        var v :- Eval(args[i], fuel);
        var seed := if f.body.id in passed then passed[f.body.id] else map[];
        passed := passed[f.body.id := seed[f.parameters[i] := v]];
      }
      r := VisitBlock(f.body, fuel);
    }

    // -------------------------------------------------------------------
    // Instructions

    /** `accept` on an instruction. This evaluator has no
        `visit_declaration`, and its assignment node has no indices. */
    method Exec(ins: Instruction, fuel: nat) returns (r: Result<Item, Fault>)
      requires Valid()
      modifies this
      ensures Valid() && PassedGrown() && (r.Success? ==> Kept())
      ensures ins.Declaration? ==> r.Failure?
      ensures r.Success? && ReturnsLiteral(ins) ==> r.value == LiteralItem(ins.result.value.literal)
      decreases fuel, 0
    {
      if fuel == 0 {
        return Failure(OutOfFuel);
      }
      match ins
      case Declaration(_, _, _) => r := Failure(Host(MissingAttribute));
      case Assignment(target, index, value) =>
        if index.Some? {
          return Failure(Unmodelled);
        }
        var v :- Eval(value, fuel - 1);
        AssignAll(target, v);
        r := Success(Nothing);
      case Nested(block) => r := VisitBlock(block, fuel - 1);
      case IfStatement(condition, main, otherwise) => r := VisitIf(condition, main, otherwise, fuel - 1);
      case WhileLoop(condition, body) => r := VisitWhile(condition, body, fuel - 1);
      case Return(result) =>
        if result.None? {
          return Failure(Host(MissingAttribute));
        }
        r := Eval(result.value, fuel - 1);
      case CallStatement(callee, arguments) => r := VisitFunctionCall(callee, arguments, fuel - 1);
      case FunctionDeclaration(definition) =>
        functions := functions[definition.name := definition];
        r := Success(Nothing);
    }

    /** `visit_if_statement`: the then-block on a truthy condition, the
        else-block (if any) otherwise; the block's value is dropped. */
    method VisitIf(condition: Expression, main: Block, otherwise: Option<Block>, fuel: nat) returns (r: Result<Item, Fault>)
      requires Valid()
      modifies this
      ensures Valid() && PassedGrown() && (r.Success? ==> SameNames() && r.value == Nothing)
      decreases fuel, 1
    {
      var c :- Eval(condition, fuel);
      var t :- Truthy(c);
      if t {
        var _ :- VisitBlock(main, fuel);
      } else if otherwise.Some? {
        var _ :- VisitBlock(otherwise.value, fuel);
      }
      return Success(Nothing);
    }

    /** `visit_while_loop`: the condition is evaluated again after each run
        of the body; the body's values are dropped. At most `fuel` runs of
        the body are modelled. */
    method VisitWhile(condition: Expression, body: Block, fuel: nat) returns (r: Result<Item, Fault>)
      requires Valid()
      modifies this
      ensures Valid() && PassedGrown() && (r.Success? ==> SameNames() && r.value == Nothing)
      decreases fuel, 1
    {
      var c :- Eval(condition, fuel);
      var t :- Truthy(c);
      var budget := fuel;
      while t
        invariant Valid() && PassedGrown() && SameNames()
        decreases budget
      {
        if budget == 0 {
          return Failure(OutOfFuel);
        }
        budget := budget - 1;
        var _ :- VisitBlock(body, fuel);
        c :- Eval(condition, fuel);
        t :- Truthy(c);
      }
      return Success(Nothing);
    }

    /** The loop of `visit_block`: instructions in order until the first
        `return` instruction, whose value is the block's; without one the
        value is `None`. `ran` instructions were executed. */
    method RunToReturn(instructions: seq<Instruction>, fuel: nat) returns (r: Result<Item, Fault>, ghost ran: nat)
      requires Valid()
      modifies this
      ensures Valid() && PassedGrown() && (r.Success? ==> Kept())
      ensures r.Success? ==> ran <= |instructions|
      ensures r.Success? ==> forall k | 0 <= k < ran - 1 :: !instructions[k].Return?
      ensures r.Success? ==> ran == |instructions| || (ran > 0 && instructions[ran - 1].Return?)
      ensures r.Success? && r.value != Nothing ==> ran > 0 && instructions[ran - 1].Return?
      ensures r.Success? && ran > 0 && ReturnsLiteral(instructions[ran - 1]) ==> r.value == LiteralItem(instructions[ran - 1].result.value.literal)
      decreases fuel, 1
    {
      ran := 0;
      var i := 0;
      while i < |instructions|
        invariant Valid() && PassedGrown() && Kept()
        invariant i <= |instructions|
        invariant forall k | 0 <= k < i :: !instructions[k].Return?
      {
        var v :- Exec(instructions[i], fuel);
        if instructions[i].Return? {
          return Success(v), i + 1;
        }
        i := i + 1;
      }
      return Success(Nothing), i;
    }

    /** `visit_block`: a new scope holding the passed variables, the
        instructions, and the pop of that scope; on success every scope
        binds the names it bound. */
    method VisitBlock(b: Block, fuel: nat) returns (r: Result<Item, Fault>)
      requires Valid()
      modifies this
      ensures Valid() && PassedGrown() && (r.Success? ==> SameNames())
      decreases fuel, 0
    {
      if fuel == 0 {
        return Failure(OutOfFuel);
      }
      ghost var outer := variables;
      var seed := if b.id in passed then passed[b.id] else map[];
      variables := variables + [seed];
      ghost var entered := variables;
      var run, ran := RunToReturn(b.instructions, fuel - 1);
      if run.Failure? {
        return run;
      }
      assert forall k | 0 <= k < |outer| :: variables[k].Keys == entered[k].Keys == outer[k].Keys;
      variables := variables[..|variables| - 1];
      return run;
    }
  }

  /** `Interpreter.run`: the top-level objects in order on a new visitor;
      the first failure ends the run, as an exception nothing catches. */
  method Run(program: Program, fuel: nat) returns (o: RunOutcome)
    ensures !o.Stopped?
    ensures o.Crashed? ==> o.at < |program|
  {
    var visitor := new Visitor(AsWritten);
    for i := 0 to |program|
      invariant visitor.Valid()
    {
      var r := visitor.Exec(program[i], fuel);
      if r.Failure? {
        return Crashed(i, r.error);
      }
    }
    return Finished;
  }
}
