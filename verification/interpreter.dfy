/** The newest evaluator of the Neo language: a visitor that walks the
    syntax tree and keeps a stack of scopes.

    State, as the visitor and the tree nodes hold it:
    - `frames`: every scope dict ever created, by frame id (a frame outlives
      its block when a function closes over it);
    - `scopes`: the stack of frame ids, outermost first;
    - `closures`: a function body block's `closure` attribute, by block id;
    - `passed`: a block's `passed_variables` attribute, by block id;
    - `heap`: every matrix object, by reference;
    - `literals`: the matrix object a matrix literal node became when it was
      first evaluated (the node's rows are replaced by the values).

    Each visit method takes a `fuel` bound on the depth of evaluation and on
    the iterations of a `while` loop; running out of it is `OutOfFuel`. */
module NeoInterpreter {
  import opened Wrappers
  import opened Matrix
  import opened NeoAst
  import opened NeoValues
  import opened NeoScopes
  import opened Builtins

  // ---------------------------------------------------------------------
  // What happens once the operands are known

  /** The first size given to `zeros`/`ones`: it is compared with 0. */
  function FirstSize(v: Value): Result<real, Fault> {
    match v
    case Num(n) => Success(n)
    case Bool(_) => Failure(Unmodelled)
    case _ => Failure(Host(TypeMismatch))
  }

  /** The second size: a falsy value counts as absent, a truthy one that is
      not a number cannot be compared with 0. */
  function SecondSize(v: Value, heap: seq<Grid>): Result<Option<real>, Fault>
    requires InHeap(v, |heap|)
  {
    if v.Num? then Success(Some(v.n))
    else if v.Bool? then Failure(Unmodelled)
    else if !IsTruthy(v, heap) then Success(None)
    else Failure(Host(TypeMismatch))
  }

  /** A call of a built-in function once its arguments are evaluated.
      `print` gives `None` (its output is not modelled); `zeros` and `ones`
      take one or two sizes. */
  function CallBuiltin(b: Builtin, args: seq<Value>, heap: seq<Grid>): (r: Result<Produced, Fault>)
    requires forall k | 0 <= k < |args| :: InHeap(args[k], |heap|)
  {
    if b == Print then Success(Existing(NoneV))
    else if |args| < 1 || |args| > 2 then Failure(Host(TypeMismatch))
    else
      var first :- FirstSize(args[0]);
      var second :- if |args| == 2 then SecondSize(args[1], heap) else Success(None);
      match Constant(first, second, if b == Zeros then 0.0 else 1.0)
      case Success(g) => Success(Fresh(g))
      case Failure(_) => Failure(Raised(SizesNotPositive))
  }

  // ---------------------------------------------------------------------
  // Properties of the built-ins

  /** `zeros(n)` is a new n-by-n matrix of zeros and `ones(r, c)` a new
      r-by-c matrix of ones; a falsy second argument counts as absent. */
  lemma BuiltinConstructors(n: nat, c: nat, heap: seq<Grid>)
    requires n >= 1 && c >= 1
    ensures CallBuiltin(Zeros, [Num(n as real)], heap) == Success(Fresh(Filled(n, n, 0.0)))
    ensures CallBuiltin(Ones, [Num(n as real), Num(c as real)], heap) == Success(Fresh(Filled(n, c, 1.0)))
    ensures CallBuiltin(Zeros, [Num(n as real), Str("")], heap) == CallBuiltin(Zeros, [Num(n as real)], heap)
    ensures CallBuiltin(Ones, [Num(n as real), NoneV], heap) == CallBuiltin(Ones, [Num(n as real)], heap)
  {
    assert (n as real).Floor == n && (c as real).Floor == c;
  }

  /** Sizes below 1 are reported; arguments that are not numbers, or too
      few or too many, are Python's `TypeError`; `print` gives `None`. */
  lemma BuiltinErrors(x: real, args: seq<Value>, heap: seq<Grid>)
    requires forall k | 0 <= k < |args| :: InHeap(args[k], |heap|)
    ensures x <= 0.0 ==> CallBuiltin(Zeros, [Num(x)], heap) == Failure(Raised(SizesNotPositive))
    ensures x < 0.0 ==> CallBuiltin(Ones, [Num(1.0), Num(x)], heap) == Failure(Raised(SizesNotPositive))
    ensures CallBuiltin(Ones, [Str("3")], heap) == Failure(Host(TypeMismatch))
    ensures (|args| == 0 || |args| > 2) ==> CallBuiltin(Zeros, args, heap) == Failure(Host(TypeMismatch))
    ensures CallBuiltin(Print, args, heap) == Success(Existing(NoneV))
  {
  }

  // ---------------------------------------------------------------------
  // Leaving a block

  /** The exit of a block: a function value gets the block's own frame
      (the top one) as its body's closure; then the block's new frame is
      popped, and the closure frame under it when `popClosure`. Popping an
      empty stack is Python's `IndexError`. The evaluator pops the closure
      frame exactly when it pushed one on entry. */
  function BlockExit(scopes: seq<nat>, closures: map<nat, nat>, result: Value, popClosure: bool): (r: Result<(seq<nat>, map<nat, nat>), Fault>)
    ensures r.Success? ==> |r.value.0| == |scopes| - (if popClosure then 2 else 1)
  {
    if |scopes| == 0 then Failure(Host(IndexOutOfRange))
    else
      var cl := if result.Fn? then closures[result.definition.body.id := scopes[|scopes| - 1]] else closures;
      var rest := scopes[..|scopes| - 1];
      if !popClosure then Success((rest, cl))
      else if |rest| == 0 then Failure(Host(IndexOutOfRange))
      else Success((rest[..|rest| - 1], cl))
  }

  /** Leaving a block pops exactly the frames it pushed on entry (its
      closure frame, if any, and its new frame), whatever the instructions
      did to the closures meanwhile. */
  lemma BlockExitRestoresStack(outer: seq<nat>, closureFrame: Option<nat>, top: nat, closures: map<nat, nat>, result: Value)
    ensures var pushed := (if closureFrame.Some? then [closureFrame.value] else []) + [top];
      BlockExit(outer + pushed, closures, result, closureFrame.Some?) ==
        Success((outer, if result.Fn? then closures[result.definition.body.id := top] else closures))
  {
    var pushed := (if closureFrame.Some? then [closureFrame.value] else []) + [top];
    var s := outer + pushed;
    assert s[..|s| - 1] == outer + (if closureFrame.Some? then [closureFrame.value] else []);
    if closureFrame.Some? {
      assert s[..|s| - 1][..|s| - 2] == outer;
    }
  }

  /** Whether the exit as `visit_block` writes it pops a closure frame: it
      reads the block's `closure` attribute again, after a returned function
      may have replaced it, and pops when that dict is non-empty. */
  predicate ClosureAtExit(scopes: seq<nat>, frames: seq<Frame>, closures: map<nat, nat>, id: nat, result: Value)
    requires ChainIn(scopes, frames) && forall b | b in closures :: closures[b] < |frames|
  {
    && |scopes| > 0
    && var cl := if result.Fn? then closures[result.definition.body.id := scopes[|scopes| - 1]] else closures;
       id in cl && |frames[cl[id]]| > 0
  }

  /** The exit as `visit_block` writes it. */
  function BlockExitAsWritten(scopes: seq<nat>, frames: seq<Frame>, closures: map<nat, nat>, id: nat, result: Value): Result<(seq<nat>, map<nat, nat>), Fault>
    requires ChainIn(scopes, frames) && forall b | b in closures :: closures[b] < |frames|
  {
    BlockExit(scopes, closures, result, ClosureAtExit(scopes, frames, closures, id, result))
  }

  /** A function body entered without a closure that returns its own
      function, from a non-empty frame, pops one frame more than it pushed
      when the exit is read as written: the caller's frame is gone. */
  lemma SelfReturnPopsCallerFrame(outer: seq<nat>, frames: seq<Frame>, closures: map<nat, nat>, top: nat, f: FunctionDef)
    requires ChainIn(outer + [top], frames) && forall b | b in closures :: closures[b] < |frames|
    requires !(f.body.id in closures && |frames[closures[f.body.id]]| > 0)
    requires top < |frames| && |frames[top]| > 0 && |outer| > 0
    ensures BlockExitAsWritten(outer + [top], frames, closures, f.body.id, Fn(f)) ==
      Success((outer[..|outer| - 1], closures[f.body.id := top]))
    ensures BlockExit(outer + [top], closures, Fn(f), false) == Success((outer, closures[f.body.id := top]))
  {
    BlockExitRestoresStack(outer, None, top, closures, Fn(f));
    var s := outer + [top];
    assert s[..|s| - 1] == outer;
  }

  /** `func f(x) { return f; } f(1);` at top level: the call's block has
      frame 1 holding `x` on top of the global frame 0, no closure, and
      returns `f`; as written the exit leaves no frame at all, so the next
      declaration fails on `self.scopes[-1]`. */
  lemma SelfReturningFunctionEmptiesStack(f: FunctionDef)
    ensures var frames := [map[], map["x" := Binding(Num(1.0), false)]];
      BlockExitAsWritten([0, 1], frames, map[], f.body.id, Fn(f)) == Success(([], map[f.body.id := 1]))
      && BlockExit([0, 1], map[], Fn(f), false) == Success(([0], map[f.body.id := 1]))
  {
    var frames: seq<Frame> := [map[], map["x" := Binding(Num(1.0), false)]];
    assert |frames[1]| == 1;
    assert [0] + [1] == [0, 1];
    SelfReturnPopsCallerFrame([0], frames, map[], 1, f);
  }

  class Visitor {
    /** Whether the exit of `visit_block` runs as written or repaired. */
    const mode: Mode
    var frames: seq<Frame>
    var scopes: seq<nat>
    var closures: map<nat, nat>
    var passed: map<nat, Frame>
    var heap: seq<Grid>
    var literals: map<nat, nat>
    /** How many block exits have popped a different number of frames than
        their entry pushed; only the exit as written does so. */
    ghost var misExits: nat

    ghost predicate Valid()
      reads this
    {
      ChainIn(scopes, frames) && FramesIn(frames, |heap|)
      && (forall b | b in closures :: closures[b] < |frames|)
      && (forall b | b in passed :: FrameIn(passed[b], |heap|) && Immutable(passed[b]))
      && (forall n | n in literals :: literals[n] < |heap|)
    }

    /** Matrices are never freed; a block's passed variables are only
        added to; unbalanced exits are only counted up, and never happen
        when the exit is repaired. */
    twostate predicate Grown()
      reads this
    {
      && |old(heap)| <= |heap| && PassedGrown() && LiteralsGrown()
      && old(misExits) <= misExits && (mode == Repaired ==> misExits == old(misExits))
    }

    twostate predicate PassedGrown()
      reads this
    {
      forall b | b in old(passed) :: b in passed && old(passed[b]).Keys <= passed[b].Keys
    }

    /** A node made a matrix stays that matrix, and a node made one since
        refers to an object allocated since. */
    twostate predicate LiteralsGrown()
      reads this
    {
      && (forall id | id in old(literals) :: id in literals && literals[id] == old(literals[id]))
      && forall id | id in literals && id !in old(literals) :: |old(heap)| <= literals[id]
    }

    /** Every parameter of `f` has a binding, not mutable, among the
        passed variables of its body. */
    predicate ParametersPassed(f: FunctionDef)
      reads this
    {
      forall p | p in f.parameters :: f.body.id in passed && p in passed[f.body.id] && !passed[f.body.id][p].mutable
    }

    /** The scope stack is as it was, unless a block exit meanwhile popped
        a different number of frames than its entry pushed. */
    twostate predicate Balanced()
      reads this
    {
      misExits == old(misExits) ==> scopes == old(scopes)
    }

    /** What every evaluation promises on success. */
    twostate predicate Evaluated(new r: Result<Value, Fault>)
      reads this
    {
      Valid() && Grown() && (r.Success? ==> InHeap(r.value, |heap|) && Balanced())
    }

    /** `Visitor()`: one empty global scope. */
    constructor (mode: Mode)
      ensures Valid() && frames == [map[]] && scopes == [0] && this.mode == mode
      ensures closures == map[] && passed == map[] && heap == [] && literals == map[]
    {
      this.mode := mode;
      misExits := 0;
      frames, scopes := [map[]], [0];
      closures, passed := map[], map[];
      heap, literals := [], map[];
    }

    // -------------------------------------------------------------------
    // Matrix objects

    twostate predicate OnlyHeap()
      reads this
    {
      frames == old(frames) && scopes == old(scopes) && closures == old(closures)
      && passed == old(passed) && literals == old(literals) && misExits == old(misExits)
    }

    /** A new matrix object holding `g`. */
    method Alloc(g: Grid) returns (v: Value)
      requires Valid()
      modifies this
      ensures Valid() && OnlyHeap() && heap == old(heap) + [g] && v == Mat(|old(heap)|)
    {
      FramesInGrow(frames, |heap|, |heap| + 1);
      forall b | b in passed
        ensures FrameIn(passed[b], |heap| + 1)
      {
        FrameInGrow(passed[b], |heap|, |heap| + 1);
      }
      heap := heap + [g];
      v := Mat(|heap| - 1);
    }

    /** Turns a produced result into a value, creating the new matrix. */
    twostate predicate Delivers(new p: Result<Produced, Fault>, new r: Result<Value, Fault>)
      reads this
    {
      OnlyHeap() &&
      match p
      case Failure(f) => r == Failure(f) && heap == old(heap)
      case Success(Existing(v)) => r == Success(v) && heap == old(heap)
      case Success(Fresh(g)) => r == Success(Mat(|old(heap)|)) && heap == old(heap) + [g]
    }

    method Deliver(p: Result<Produced, Fault>) returns (r: Result<Value, Fault>)
      requires Valid()
      requires p.Success? && p.value.Existing? ==> InHeap(p.value.v, |heap|)
      modifies this
      ensures Valid() && Delivers(p, r)
    {
      match p
      case Failure(f) => r := Failure(f);
      case Success(Existing(v)) => r := Success(v);
      case Success(Fresh(g)) =>
        var m := Alloc(g);
        r := Success(m);
    }

    /** Carries out an operator plan and keeps the result. */
    method Perform(p: Plan) returns (r: Result<Value, Fault>)
      requires Valid() && PlanInHeap(p, |heap|)
      modifies this
      ensures Valid() && Delivers(ApplyPlan(p, old(heap)), r)
    {
      var produced := Carry(p, heap);
      r := Deliver(produced);
    }

    // -------------------------------------------------------------------
    // The scope chain

    /** The loop `for scope in self.scopes[::-1]`: the innermost frame
        holding `name`. */
    method Search(name: string) returns (k: Option<nat>)
      requires Valid()
      ensures k == Innermost(scopes, frames, name)
    {
      var i := |scopes|;
      assert scopes[..i] == scopes;
      while i > 0
        invariant 0 <= i <= |scopes|
        invariant ChainIn(scopes[..i], frames)
        invariant Innermost(scopes, frames, name) == Innermost(scopes[..i], frames, name)
      {
        assert scopes[..i][..i - 1] == scopes[..i - 1];
        if name in frames[scopes[i - 1]] {
          return Some(i - 1);
        }
        i := i - 1;
      }
      return None;
    }

    /** The same loop in `visit_function_call`, which passes over
        bindings that are not functions. */
    method SearchFunction(name: string) returns (k: Option<nat>)
      requires Valid()
      ensures k == InnermostFunction(scopes, frames, name)
    {
      var i := |scopes|;
      assert scopes[..i] == scopes;
      while i > 0
        invariant 0 <= i <= |scopes|
        invariant ChainIn(scopes[..i], frames)
        invariant InnermostFunction(scopes, frames, name) == InnermostFunction(scopes[..i], frames, name)
      {
        assert scopes[..i][..i - 1] == scopes[..i - 1];
        var frame := frames[scopes[i - 1]];
        if name in frame && frame[name].value.Fn? {
          return Some(i - 1);
        }
        i := i - 1;
      }
      return None;
    }

    /** `visit_identifier`. */
    method VisitIdentifier(name: string) returns (r: Result<Value, Fault>)
      requires Valid()
      ensures r == Lookup(scopes, frames, name)
      ensures r.Success? ==> InHeap(r.value, |heap|)
    {
      var k := Search(name);
      if k.None? {
        return Failure(Raised(Undeclared));
      }
      return Success(frames[scopes[k.value]][name].value);
    }

    /** The write of `visit_declaration` and `visit_function_declaration`:
        `self.scopes[-1][name] = (value, mutable)`. */
    method Bind(name: string, v: Value, mutable: bool) returns (r: Result<Value, Fault>)
      requires Valid() && InHeap(v, |heap|)
      modifies this
      ensures Valid()
      ensures scopes == old(scopes) && heap == old(heap) && closures == old(closures)
      ensures passed == old(passed) && literals == old(literals) && misExits == old(misExits)
      ensures match Declare(old(scopes), old(frames), name, v, mutable)
        case Success(fs) => frames == fs && r == Success(NoneV)
        case Failure(f) => frames == old(frames) && r == Failure(f)
    {
      if |scopes| == 0 {
        return Failure(Host(IndexOutOfRange));
      }
      var top := scopes[|scopes| - 1];
      FramesInWrite(frames, |heap|, top, name, Binding(v, mutable));
      frames := frames[top := frames[top][name := Binding(v, mutable)]];
      return Success(NoneV);
    }

    /** The write of a plain `visit_assignment`. */
    method Reassign(name: string, v: Value) returns (r: Result<Value, Fault>)
      requires Valid() && InHeap(v, |heap|)
      modifies this
      ensures Valid()
      ensures scopes == old(scopes) && heap == old(heap) && closures == old(closures)
      ensures passed == old(passed) && literals == old(literals) && misExits == old(misExits)
      ensures match AssignPlain(old(scopes), old(frames), name, v)
        case Success(fs) => frames == fs && r == Success(NoneV)
        case Failure(f) => frames == old(frames) && r == Failure(f)
    {
      var k := Search(name);
      if k.None? {
        return Failure(Raised(Undeclared));
      }
      var id := scopes[k.value];
      var b := frames[id][name];
      if !b.mutable {
        return Failure(Raised(ImmutableVariable));
      }
      FramesInWrite(frames, |heap|, id, name, Binding(v, b.mutable));
      frames := frames[id := frames[id][name := Binding(v, b.mutable)]];
      return Success(NoneV);
    }

    /** The write of an indexed `visit_assignment`:
        `matrix.rows[i][j] = value`. */
    method WriteCell(name: string, first: real, second: real, v: Value) returns (r: Result<Value, Fault>)
      requires Valid() && InHeap(v, |heap|)
      modifies this
      ensures Valid()
      ensures scopes == old(scopes) && frames == old(frames) && closures == old(closures)
      ensures passed == old(passed) && literals == old(literals) && misExits == old(misExits)
      ensures match SetCell(old(scopes), old(frames), old(heap), name, first, second, v)
        case Success(hs) => heap == hs && r == Success(NoneV)
        case Failure(f) => heap == old(heap) && r == Failure(f)
    {
      if !(IsWhole(first) && IsWhole(second)) {
        return Failure(Raised(IndicesNotWhole));
      }
      var k := Search(name);
      if k.None? {
        return Failure(Raised(MatrixMissing));
      }
      var b := frames[scopes[k.value]][name];
      if !b.value.Mat? {
        return Failure(Raised(NeedsMatrix));
      }
      if !b.mutable {
        return Failure(Raised(ImmutableVariable));
      }
      if first < 0.0 || second < 0.0 {
        return Failure(Unmodelled);
      }
      var m, i, j := b.value.ref, first.Floor, second.Floor;
      if i >= |heap[m]| || j >= Cols(heap[m]) {
        return Failure(Host(IndexOutOfRange));
      }
      if !v.Num? {
        return Failure(Unmodelled);
      }
      heap := heap[m := WithCell(heap[m], i, j, v.n)];
      return Success(NoneV);
    }

    // -------------------------------------------------------------------
    // Expressions

    /** `accept` on an expression; a literal is its value and changes
        nothing. */
    method Eval(e: Expression, fuel: nat) returns (r: Result<Value, Fault>)
      requires Valid()
      modifies this
      ensures Evaluated(r)
      ensures fuel == 0 ==> r == Failure(OutOfFuel)
      ensures fuel > 0 && e.Lit? ==> r == Success(LiteralValue(e.literal)) && heap == old(heap) && frames == old(frames) && scopes == old(scopes)
      decreases fuel, 0
    {
      if fuel == 0 {
        return Failure(OutOfFuel);
      }
      match e
      case Lit(l) => r := Success(LiteralValue(l));
      case Ident(name) => r := VisitIdentifier(name);
      case MatrixNode(id, rows) => r := VisitMatrix(id, rows, fuel - 1);
      case Access(target, first, second) => r := VisitAccess(target, first, second, fuel - 1);
      case PropertyOf(subject, property) => r := VisitProperty(subject, property, fuel - 1);
      case Unary(op, operand) => r := VisitUnary(op, operand, fuel - 1);
      case Binary(left, op, right) => r := VisitBinary(left, op, right, fuel - 1);
      case Call(callee, arguments) => r := VisitFunctionCall(callee, arguments, fuel - 1);
    }

    /** `visit_matrix`: the first time, every cell in order, then the node
        becomes the matrix; later, the node's rows already hold numbers, and
        visiting a number fails unless there is no cell at all. */
    method VisitMatrix(id: nat, rows: seq<seq<Expression>>, fuel: nat) returns (r: Result<Value, Fault>)
      requires Valid()
      modifies this
      ensures Evaluated(r)
      ensures old(id in literals) ==> (r.Success? <==> !HasCells(old(heap[literals[id]])))
      ensures old(id in literals) && r.Success? ==> r.value == Mat(old(literals[id])) && heap == old(heap)
      ensures r.Success? && old(id !in literals) ==>
        && r.value.Mat? && id in literals && literals[id] == r.value.ref
        && |old(heap)| <= r.value.ref < |heap| && BuiltFrom(heap[r.value.ref], rows)
      decreases fuel, 2
    {
      if id in literals {
        var g := heap[literals[id]];
        if HasCells(g) {
          return Failure(Host(MissingAttribute));
        }
        return Success(Mat(literals[id]));
      }
      var values: seq<seq<real>> := [];
      var i := 0;
      while i < |rows|
        invariant Valid() && Grown() && Balanced()
        invariant |values| == i <= |rows|
        invariant forall a | 0 <= a < i :: |values[a]| == |rows[a]|
        invariant forall a, b | 0 <= a < i && 0 <= b < |rows[a]| && rows[a][b].Lit? ::
          rows[a][b].literal.NumberLit? && values[a][b] == rows[a][b].literal.n
      {
        var row: seq<real> := [];
        var j := 0;
        while j < |rows[i]|
          invariant Valid() && Grown() && Balanced()
          invariant |row| == j <= |rows[i]|
          invariant forall b | 0 <= b < j && rows[i][b].Lit? :: rows[i][b].literal.NumberLit? && row[b] == rows[i][b].literal.n
        {
          var v :- Eval(rows[i][j], fuel);
          if !v.Num? {
            return Failure(Unmodelled);
          }
          row := row + [v.n];
          j := j + 1;
        }
        values := values + [row];
        i := i + 1;
      }
      if !Rectangular(values) {
        return Failure(Unmodelled);
      }
      if id in literals {
        // A visit of this node while its cells were evaluated has already
        // made it a matrix: the node stays that one object, and its rows
        // are replaced by this visit's values.
        heap := heap[literals[id] := values];
        return Success(Mat(literals[id]));
      }
      var m := Alloc(values);
      literals := literals[id := m.ref];
      return Success(m);
    }

    /** `visit_access`: the target first, then the tests of `AccessCell`. */
    method VisitAccess(target: Expression, first: real, second: real, fuel: nat) returns (r: Result<Value, Fault>)
      requires Valid()
      modifies this
      ensures Evaluated(r)
      decreases fuel, 2
    {
      var m :- Eval(target, fuel);
      r := AccessCell(m, first, second, heap);
    }

    /** `visit_property`: the subject first, then `PropertyValue`. */
    method VisitProperty(subject: Expression, property: string, fuel: nat) returns (r: Result<Value, Fault>)
      requires Valid()
      modifies this
      ensures Evaluated(r)
      decreases fuel, 2
    {
      var m :- Eval(subject, fuel);
      r := Deliver(PropertyValue(Newest, m, property, heap));
    }

    /** `visit_unary_operator`. */
    method VisitUnary(op: UnaryOp, operand: Expression, fuel: nat) returns (r: Result<Value, Fault>)
      requires Valid()
      modifies this
      ensures Evaluated(r)
      decreases fuel, 2
    {
      var v :- Eval(operand, fuel);
      r := Perform(UnaryPlan(op, v, heap));
    }

    /** `visit_binary_operator`: both operands, left first, then the
        operator. `and` and `or` therefore evaluate both sides. */
    method VisitBinary(left: Expression, op: BinaryOp, right: Expression, fuel: nat) returns (r: Result<Value, Fault>)
      requires Valid()
      modifies this
      ensures Evaluated(r)
      decreases fuel, 2
    {
      var l :- Eval(left, fuel);
      r := BinaryWith(l, op, right, fuel);
    }

    /** The right operand and the operator, once the left operand is
        known. */
    method BinaryWith(l: Value, op: BinaryOp, right: Expression, fuel: nat) returns (r: Result<Value, Fault>)
      requires Valid() && InHeap(l, |heap|)
      modifies this
      ensures Evaluated(r)
      decreases fuel, 1
    {
      var x :- Eval(right, fuel);
      r := Perform(BinaryPlan(Newest, op, l, x, heap));
    }

    /** The arguments of a call, left to right. */
    method EvalAll(args: seq<Expression>, fuel: nat) returns (r: Result<seq<Value>, Fault>)
      requires Valid()
      modifies this
      ensures Valid() && Grown()
      ensures r.Success? ==> |r.value| == |args| && Balanced()
      ensures r.Success? ==> forall k | 0 <= k < |r.value| :: InHeap(r.value[k], |heap|)
      decreases fuel, 1
    {
      var values: seq<Value> := [];
      for i := 0 to |args|
        invariant Valid() && Grown() && Balanced()
        invariant |values| == i
        invariant forall k | 0 <= k < i :: InHeap(values[k], |heap|)
      {
        var v :- Eval(args[i], fuel);
        values := values + [v];
      }
      return Success(values);
    }

    /** `visit_function_call`: a built-in first (its arguments evaluated
        before it runs); otherwise the innermost function bound to the
        name, the arity test, each argument evaluated and stored, as an
        immutable binding, in the body's passed variables; then the body. */
    method VisitFunctionCall(name: string, args: seq<Expression>, fuel: nat) returns (r: Result<Value, Fault>)
      requires Valid()
      modifies this
      ensures Evaluated(r)
      decreases fuel, 2
    {
      if name in BuiltinFunctions {
        var values :- EvalAll(args, fuel);
        r := Deliver(CallBuiltin(BuiltinFunctions[name], values, heap));
        return;
      }
      var k := SearchFunction(name);
      if k.None? {
        return Failure(Raised(NoSuchFunction));
      }
      var f := frames[scopes[k.value]][name].value.definition;
      if |f.parameters| != |args| {
        return Failure(Raised(ArgumentCount));
      }
      var bound :- PassArguments(f, args, fuel);
      r := VisitBlock(f.body, fuel);
    }

    /** The loop of `visit_function_call` that evaluates each argument and
        stores it, immutably, under its parameter's name in the body's
        passed variables. */
    method PassArguments(f: FunctionDef, args: seq<Expression>, fuel: nat) returns (r: Result<Value, Fault>)
      requires Valid() && |f.parameters| == |args|
      modifies this
      ensures Evaluated(r)
      ensures r.Success? ==> r.value == NoneV && ParametersPassed(f)
      decreases fuel, 1
    {
      for i := 0 to |args|
        invariant Valid() && Grown() && Balanced()
        invariant i > 0 ==> f.body.id in passed && forall k | 0 <= k < i :: f.parameters[k] in passed[f.body.id]
      {
        var v :- Eval(args[i], fuel);
        StorePassed(f.body.id, f.parameters[i], v);
      }
      return Success(NoneV);
    }

    /** `function.block.passed_variables[param.value] = (value, False)`. */
    method StorePassed(id: nat, name: string, v: Value)
      requires Valid() && InHeap(v, |heap|)
      modifies this
      ensures Valid() && Grown() && Balanced()
      ensures id in passed && name in passed[id] && passed[id][name] == Binding(v, false)
      ensures passed == old(passed)[id := (if id in old(passed) then old(passed)[id] else map[])[name := Binding(v, false)]]
      ensures frames == old(frames) && scopes == old(scopes) && closures == old(closures)
      ensures heap == old(heap) && literals == old(literals) && misExits == old(misExits)
    {
      var seed := if id in passed then passed[id] else map[];
      passed := passed[id := seed[name := Binding(v, false)]];
    }

    // -------------------------------------------------------------------
    // Instructions

    /** `accept` on an instruction; an instruction without a value gives
        `None`. */
    method Exec(ins: Instruction, fuel: nat) returns (r: Result<Value, Fault>)
      requires Valid()
      modifies this
      ensures Evaluated(r)
      ensures r.Success? && ReturnsLiteral(ins) ==> r.value == LiteralValue(ins.result.value.literal)
      decreases fuel, 0
    {
      if fuel == 0 {
        return Failure(OutOfFuel);
      }
      match ins
      case Declaration(name, initialiser, mutable) => r := VisitDeclaration(name, initialiser, mutable, fuel - 1);
      case Assignment(target, index, value) => r := VisitAssignment(target, index, value, fuel - 1);
      case Nested(block) => r := VisitBlock(block, fuel - 1);
      case IfStatement(condition, main, otherwise) => r := VisitIf(condition, main, otherwise, fuel - 1);
      case WhileLoop(condition, body) => r := VisitWhile(condition, body, fuel - 1);
      case Return(result) => r := VisitReturn(result, fuel - 1);
      case CallStatement(callee, arguments) => r := VisitFunctionCall(callee, arguments, fuel - 1);
      case FunctionDeclaration(definition) => r := VisitFunctionDeclaration(definition);
    }

    /** `visit_function_declaration`: a built-in name is refused; otherwise
        the function is bound, immutably, in the innermost scope. */
    method VisitFunctionDeclaration(f: FunctionDef) returns (r: Result<Value, Fault>)
      requires Valid()
      modifies this
      ensures Evaluated(r)
      ensures f.name in BuiltinFunctions ==> r == Failure(Raised(ReservedName)) && frames == old(frames)
      ensures f.name !in BuiltinFunctions ==> match Declare(old(scopes), old(frames), f.name, Fn(f), false)
        case Success(fs) => frames == fs && r == Success(NoneV)
        case Failure(e) => frames == old(frames) && r == Failure(e)
    {
      if f.name in BuiltinFunctions {
        return Failure(Raised(ReservedName));
      }
      r := Bind(f.name, Fn(f), false);
    }

    /** `visit_declaration`: a name already in the innermost scope is
        refused before the initialiser runs; then the binding is made in
        whatever scope is innermost once it has run. */
    method VisitDeclaration(name: string, initialiser: Expression, mutable: bool, fuel: nat) returns (r: Result<Value, Fault>)
      requires Valid()
      modifies this
      ensures Evaluated(r)
      ensures |old(scopes)| > 0 && name in old(frames)[old(scopes)[|old(scopes)| - 1]] ==> r == Failure(Raised(AlreadyDeclared))
      decreases fuel, 2
    {
      if |scopes| == 0 {
        return Failure(Host(IndexOutOfRange));
      }
      if name in frames[scopes[|scopes| - 1]] {
        return Failure(Raised(AlreadyDeclared));
      }
      var v :- Eval(initialiser, fuel);
      r := Bind(name, v, mutable);
    }

    /** `visit_assignment`: the value first; for an indexed assignment the
        two indices next; then the write. With a literal value (and literal
        number indices) the write is `AssignPlain`'s or `SetCell`'s. */
    method VisitAssignment(target: string, index: Option<Index>, value: Expression, fuel: nat) returns (r: Result<Value, Fault>)
      requires Valid()
      modifies this
      ensures Evaluated(r)
      ensures fuel > 0 && value.Lit? && index.None? ==>
        match AssignPlain(old(scopes), old(frames), target, LiteralValue(value.literal))
        case Success(fs) => r == Success(NoneV) && frames == fs && heap == old(heap)
        case Failure(f) => r == Failure(f)
      ensures fuel > 0 && value.Lit? && index.Some? && LiteralIndices(index.value) ==>
        match SetCell(old(scopes), old(frames), old(heap), target, index.value.first.literal.n, index.value.second.literal.n, LiteralValue(value.literal))
        case Success(hs) => r == Success(NoneV) && heap == hs && frames == old(frames)
        case Failure(f) => r == Failure(f)
      decreases fuel, 2
    {
      var v :- Eval(value, fuel);
      if index.None? {
        r := Reassign(target, v);
        return;
      }
      var i :- Eval(index.value.first, fuel);
      var j :- Eval(index.value.second, fuel);
      var pair :- IndexPair(i, j);
      r := WriteCell(target, pair.0, pair.1, v);
    }

    /** `visit_if_statement`: the then-block on a truthy condition, the
        else-block (if any) otherwise, else `None`. */
    method VisitIf(condition: Expression, main: Block, otherwise: Option<Block>, fuel: nat) returns (r: Result<Value, Fault>)
      requires Valid()
      modifies this
      ensures Evaluated(r)
      decreases fuel, 2
    {
      var c :- Eval(condition, fuel);
      if IsTruthy(c, heap) {
        r := VisitBlock(main, fuel);
      } else if otherwise.Some? {
        r := VisitBlock(otherwise.value, fuel);
      } else {
        r := Success(NoneV);
      }
    }

    /** `visit_while_loop`: the condition is evaluated again after each run
        of the body; the first run whose value is not `None` ends the loop
        with that value. At most `fuel` runs of the body are modelled. */
    method VisitWhile(condition: Expression, body: Block, fuel: nat) returns (r: Result<Value, Fault>)
      requires Valid()
      modifies this
      ensures Evaluated(r)
      decreases fuel, 2
    {
      var c :- Eval(condition, fuel);
      var budget := fuel;
      while IsTruthy(c, heap)
        invariant Valid() && Grown() && Balanced() && InHeap(c, |heap|)
        decreases budget
      {
        if budget == 0 {
          return Failure(OutOfFuel);
        }
        budget := budget - 1;
        var v :- VisitBlock(body, fuel);
        if v != NoneV {
          return Success(v);
        }
        c :- Eval(condition, fuel);
      }
      return Success(NoneV);
    }

    /** `visit_return`: the expression's value, or `None`. */
    method VisitReturn(result: Option<Expression>, fuel: nat) returns (r: Result<Value, Fault>)
      requires Valid()
      modifies this
      ensures Evaluated(r)
      ensures result.None? ==> r == Success(NoneV) && heap == old(heap) && scopes == old(scopes)
      ensures r.Success? && result.Some? && result.value.Lit? ==> r.value == LiteralValue(result.value.literal)
      decreases fuel, 2
    {
      if result.None? {
        return Success(NoneV);
      }
      r := Eval(result.value, fuel);
    }

    /** Whether the block's `closure` attribute is a non-empty dict. */
    predicate HasClosure(id: nat)
      reads this
      requires Valid()
    {
      id in closures && |frames[closures[id]]| > 0
    }

    /** The frames a block pushes on entry: its closure if that is a
        non-empty dict, then a new frame. */
    function Pushed(id: nat, withClosure: bool): seq<nat>
      reads this
      requires Valid()
      requires withClosure ==> id in closures
    {
      (if withClosure then [closures[id]] else []) + [|frames|]
    }

    /** The entry of `visit_block`: push the closure frame if the block has
        a non-empty one, then a new frame holding a copy of the passed
        variables. */
    method EnterBlock(id: nat) returns (withClosure: bool)
      requires Valid()
      modifies this
      ensures Valid()
      ensures withClosure == old(HasClosure(id))
      ensures scopes == old(scopes) + old(Pushed(id, withClosure))
      ensures frames == old(frames) + [if id in passed then passed[id] else map[]]
      ensures Immutable(frames[|frames| - 1])
      ensures heap == old(heap) && closures == old(closures) && passed == old(passed)
      ensures literals == old(literals) && misExits == old(misExits)
    {
      withClosure := HasClosure(id);
      var seed := if id in passed then passed[id] else map[];
      FramesInPush(frames, |heap|, seed);
      scopes := scopes + Pushed(id, withClosure);
      frames := frames + [seed];
    }

    /** The loop of `visit_block`: each instruction in order, stopping after
        a `return` instruction; `ran` instructions were executed, and the
        value is that of the last of them, or `None` when there is none. */
    method RunInstructions(instructions: seq<Instruction>, fuel: nat) returns (r: Result<Value, Fault>, ghost ran: nat)
      requires Valid()
      modifies this
      ensures Evaluated(r)
      ensures r.Success? ==> ran <= |instructions|
      ensures r.Success? ==> forall k | 0 <= k < ran - 1 :: !instructions[k].Return?
      ensures r.Success? ==> ran == |instructions| || (ran > 0 && instructions[ran - 1].Return?)
      ensures r.Success? && ran == 0 ==> r.value == NoneV
      ensures r.Success? && ran > 0 && ReturnsLiteral(instructions[ran - 1]) ==> r.value == LiteralValue(instructions[ran - 1].result.value.literal)
      decreases fuel, 1
    {
      var result := NoneV;
      var i := 0;
      ran := 0;
      while i < |instructions|
        invariant Valid() && Grown() && Balanced() && InHeap(result, |heap|)
        invariant i <= |instructions| && ran == i
        invariant forall k | 0 <= k < i :: !instructions[k].Return?
        invariant i == 0 ==> result == NoneV
      {
        var v := Exec(instructions[i], fuel);
        if v.Failure? {
          return Failure(v.error), ran;
        }
        result := v.value;
        if instructions[i].Return? {
          return Success(result), i + 1;
        }
        i := i + 1;
        ran := i;
      }
      return Success(result), ran;
    }

    /** The exit of `visit_block`: a returned function gets the block's own
        frame as its body's closure, the block's frame is popped, and then
        the closure frame under it: as written when the block's `closure`
        is read again non-empty (`ClosureAtExit`), repaired exactly when
        one was pushed on entry. An exit that pops differently from its
        entry is counted. */
    method ExitBlock(id: nat, result: Value, withClosure: bool) returns (r: Result<Value, Fault>)
      requires Valid() && InHeap(result, |heap|)
      modifies this
      ensures Valid() && frames == old(frames) && heap == old(heap)
      ensures passed == old(passed) && literals == old(literals)
      ensures var popClosure := if mode == AsWritten then ClosureAtExit(old(scopes), frames, old(closures), id, result) else withClosure;
        && misExits == old(misExits) + (if popClosure == withClosure then 0 else 1)
        && match BlockExit(old(scopes), old(closures), result, popClosure)
           case Success(after) => r == Success(result) && scopes == after.0 && closures == after.1
           case Failure(f) => r == Failure(f)
    {
      var pop := if mode == AsWritten then ClosureAtExit(scopes, frames, closures, id, result) else withClosure;
      if pop != withClosure {
        misExits := misExits + 1;
      }
      r := PopFrames(result, pop);
    }

    /** The pops of `visit_block`'s exit, once it is decided whether the
        closure frame goes too. */
    method PopFrames(result: Value, popClosure: bool) returns (r: Result<Value, Fault>)
      requires Valid() && InHeap(result, |heap|)
      modifies this
      ensures Valid() && frames == old(frames) && heap == old(heap)
      ensures passed == old(passed) && literals == old(literals) && misExits == old(misExits)
      ensures match BlockExit(old(scopes), old(closures), result, popClosure)
        case Success(after) => r == Success(result) && scopes == after.0 && closures == after.1
        case Failure(f) => r == Failure(f)
    {
      if |scopes| == 0 {
        return Failure(Host(IndexOutOfRange));
      }
      if result.Fn? {
        closures := closures[result.definition.body.id := scopes[|scopes| - 1]];
      }
      scopes := scopes[..|scopes| - 1];
      if popClosure {
        if |scopes| == 0 {
          return Failure(Host(IndexOutOfRange));
        }
        scopes := scopes[..|scopes| - 1];
      }
      return Success(result);
    }

    /** `visit_block`: entry, the instructions, exit; on success the scope
        stack is as it was unless some exit popped differently from its
        entry, which only the exit as written does. */
    method VisitBlock(b: Block, fuel: nat) returns (r: Result<Value, Fault>)
      requires Valid()
      modifies this
      ensures Evaluated(r)
      decreases fuel, 0
    {
      if fuel == 0 {
        return Failure(OutOfFuel);
      }
      ghost var outer := scopes;
      var withClosure := EnterBlock(b.id);
      ghost var closureFrame := if withClosure then Some(closures[b.id]) else None;
      ghost var top := |frames| - 1;
      var run, ran := RunInstructions(b.instructions, fuel - 1);
      if run.Failure? {
        return Failure(run.error);
      }
      var result := run.value;
      BlockExitRestoresStack(outer, closureFrame, top, closures, result);
      r := ExitBlock(b.id, result, withClosure);
    }
  }

  /** `Interpreter.run`: the top-level objects in order on a new visitor;
      the first failure ends the run. */
  method Run(program: Program, fuel: nat) returns (o: RunOutcome)
    ensures o.Stopped? ==> o.at < |program|
    ensures o.Crashed? ==> o.at < |program| && !o.fault.Raised?
  {
    var visitor := new Visitor(AsWritten);
    for i := 0 to |program|
      invariant visitor.Valid()
    {
      var r := visitor.Exec(program[i], fuel);
      if r.Failure? {
        if r.error.Raised? {
          return Stopped(i, r.error.kind);
        }
        return Crashed(i, r.error);
      }
    }
    return Finished;
  }
}
