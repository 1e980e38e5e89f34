/** The scope chain of the newest evaluator, as pure functions.

    A frame is a Python dict from names to (value, mutable) pairs. Frames
    are objects: a function's closure is the very dict of the block that
    returned it, so frames live in an arena (`frames`, indexed by frame id)
    and the scope stack is a sequence of frame ids, outermost first.

    Lookup, plain assignment, declaration and the write of one matrix cell
    are defined here on that state; the evaluator's methods are proved to
    do exactly these, and the lemmas below state what they guarantee. */
module NeoScopes {
  import opened Wrappers
  import opened Matrix
  import opened NeoValues

  datatype Binding = Binding(value: Value, mutable: bool)

  type Frame = map<string, Binding>

  // ---------------------------------------------------------------------
  // Well-formedness of the state

  /** Every frame on the stack exists. */
  predicate ChainIn(scopes: seq<nat>, frames: seq<Frame>) {
    forall k | 0 <= k < |scopes| :: scopes[k] < |frames|
  }

  /** Every value bound in a frame names an existing matrix. */
  predicate FramesIn(frames: seq<Frame>, size: nat) {
    forall id, x | 0 <= id < |frames| && x in frames[id] :: InHeap(frames[id][x].value, size)
  }

  predicate FrameIn(f: Frame, size: nat) {
    forall x | x in f :: InHeap(f[x].value, size)
  }

  /** Every binding of the frame is immutable (as parameters are). */
  predicate Immutable(f: Frame) {
    forall x | x in f :: !f[x].mutable
  }

  lemma FramesInGrow(frames: seq<Frame>, size: nat, size': nat)
    requires FramesIn(frames, size) && size <= size'
    ensures FramesIn(frames, size')
  {
  }

  lemma FrameInGrow(f: Frame, size: nat, size': nat)
    requires FrameIn(f, size) && size <= size'
    ensures FrameIn(f, size')
  {
  }

  /** A frame written with a value that is in the heap stays in the heap. */
  lemma FramesInWrite(frames: seq<Frame>, size: nat, id: nat, x: string, b: Binding)
    requires FramesIn(frames, size) && id < |frames| && InHeap(b.value, size)
    ensures FramesIn(frames[id := frames[id][x := b]], size)
  {
    var fs: seq<Frame> := frames[id := frames[id][x := b]];
    forall i: nat, y: string | i < |fs| && y in fs[i]
      ensures InHeap(fs[i][y].value, size)
    {
      if i != id || y != x {
        assert fs[i][y] == frames[i][y];
      }
    }
  }

  /** Appending a frame that is in the heap. */
  lemma FramesInPush(frames: seq<Frame>, size: nat, f: Frame)
    requires FramesIn(frames, size) && FrameIn(f, size)
    ensures FramesIn(frames + [f], size)
  {
    var fs: seq<Frame> := frames + [f];
    forall i: nat, y: string | i < |fs| && y in fs[i]
      ensures InHeap(fs[i][y].value, size)
    {
      if i < |frames| {
        assert fs[i] == frames[i];
      }
    }
  }

  // ---------------------------------------------------------------------
  // Lookup

  /** The position on the stack of the innermost frame binding `name`. */
  function Innermost(scopes: seq<nat>, frames: seq<Frame>, name: string): (r: Option<nat>)
    requires ChainIn(scopes, frames)
    ensures r.Some? ==> r.value < |scopes| && name in frames[scopes[r.value]]
    ensures r.Some? ==> forall k | r.value < k < |scopes| :: name !in frames[scopes[k]]
    ensures r.None? <==> forall k | 0 <= k < |scopes| :: name !in frames[scopes[k]]
  {
    if |scopes| == 0 then None
    else if name in frames[scopes[|scopes| - 1]] then Some(|scopes| - 1)
    else Innermost(scopes[..|scopes| - 1], frames, name)
  }

  /** `visit_identifier`: the value of the innermost binding. */
  function Lookup(scopes: seq<nat>, frames: seq<Frame>, name: string): (r: Result<Value, Fault>)
    requires ChainIn(scopes, frames)
  {
    match Innermost(scopes, frames, name)
    case None => Failure(Raised(Undeclared))
    case Some(k) => Success(frames[scopes[k]][name].value)
  }

  /** The position of the innermost frame binding `name` to a function;
      bindings of other values are passed over. */
  function InnermostFunction(scopes: seq<nat>, frames: seq<Frame>, name: string): (r: Option<nat>)
    requires ChainIn(scopes, frames)
    ensures r.Some? ==> r.value < |scopes| && name in frames[scopes[r.value]]
    ensures r.Some? ==> frames[scopes[r.value]][name].value.Fn?
    ensures r.None? <==> forall k | 0 <= k < |scopes| :: !(name in frames[scopes[k]] && frames[scopes[k]][name].value.Fn?)
  {
    if |scopes| == 0 then None
    else
      var top := frames[scopes[|scopes| - 1]];
      if name in top && top[name].value.Fn? then Some(|scopes| - 1)
      else InnermostFunction(scopes[..|scopes| - 1], frames, name)
  }

  /** The frames a name is found in never decide anything but the keys:
      rewriting bound values keeps every lookup position. */
  predicate SameKeys(frames: seq<Frame>, frames': seq<Frame>) {
    |frames| == |frames'| && forall id | 0 <= id < |frames| :: frames[id].Keys == frames'[id].Keys
  }

  lemma {:induction false} InnermostKeepsPosition(scopes: seq<nat>, frames: seq<Frame>, frames': seq<Frame>, name: string)
    requires ChainIn(scopes, frames) && SameKeys(frames, frames')
    ensures ChainIn(scopes, frames')
    ensures Innermost(scopes, frames', name) == Innermost(scopes, frames, name)
  {
    if |scopes| > 0 {
      var top := scopes[|scopes| - 1];
      assert name in frames[top] <==> name in frames'[top] by {
        assert frames[top].Keys == frames'[top].Keys;
      }
      InnermostKeepsPosition(scopes[..|scopes| - 1], frames, frames', name);
    }
  }

  // ---------------------------------------------------------------------
  // Plain assignment

  /** `name = value` without indices: the innermost binding of `name` must
      exist and be mutable; it gets the new value and keeps its flag. */
  function AssignPlain(scopes: seq<nat>, frames: seq<Frame>, name: string, v: Value): (r: Result<seq<Frame>, Fault>)
    requires ChainIn(scopes, frames)
    ensures r.Failure? ==> r.error == Raised(Undeclared) || r.error == Raised(ImmutableVariable)
  {
    match Innermost(scopes, frames, name)
    case None => Failure(Raised(Undeclared))
    case Some(k) =>
      var id := scopes[k];
      var b := frames[id][name];
      if !b.mutable then Failure(Raised(ImmutableVariable))
      else Success(frames[id := frames[id][name := Binding(v, b.mutable)]])
  }

  /** Assignment fails exactly when no frame binds the name or its
      innermost binding is immutable. */
  lemma AssignPlainFailsWhen(scopes: seq<nat>, frames: seq<Frame>, name: string, v: Value)
    requires ChainIn(scopes, frames)
    ensures AssignPlain(scopes, frames, name, v) == Failure(Raised(Undeclared)) <==>
      forall k | 0 <= k < |scopes| :: name !in frames[scopes[k]]
    ensures AssignPlain(scopes, frames, name, v) == Failure(Raised(ImmutableVariable)) <==>
      exists k | 0 <= k < |scopes| :: name in frames[scopes[k]] && !frames[scopes[k]][name].mutable &&
        forall k' | k < k' < |scopes| :: name !in frames[scopes[k']]
  {
    var p := Innermost(scopes, frames, name);
    if p.Some? {
      var k := p.value;
      forall k0 | 0 <= k0 < |scopes| && name in frames[scopes[k0]] && forall k' | k0 < k' < |scopes| :: name !in frames[scopes[k']]
        ensures k0 == k
      {
      }
    }
  }

  /** A successful assignment changes one binding, the innermost one of
      `name`, to the new value with its flag kept; every other binding of
      every frame, and the key set of every frame, stay as they were. */
  lemma AssignPlainChangesOneBinding(scopes: seq<nat>, frames: seq<Frame>, name: string, v: Value)
    requires ChainIn(scopes, frames)
    requires AssignPlain(scopes, frames, name, v).Success?
    ensures var fs := AssignPlain(scopes, frames, name, v).value;
      var id := scopes[Innermost(scopes, frames, name).value];
      SameKeys(frames, fs) && fs[id][name] == Binding(v, true) &&
      forall i, x | 0 <= i < |frames| && x in frames[i] && (i != id || x != name) :: fs[i][x] == frames[i][x]
  {
  }

  /** Immutable bindings never change under assignment. */
  lemma AssignPlainKeepsImmutable(scopes: seq<nat>, frames: seq<Frame>, name: string, v: Value, id: nat, x: string)
    requires ChainIn(scopes, frames)
    requires id < |frames| && x in frames[id] && !frames[id][x].mutable
    requires AssignPlain(scopes, frames, name, v).Success?
    ensures AssignPlain(scopes, frames, name, v).value[id][x] == frames[id][x]
  {
  }

  /** After an assignment, looking the name up gives the assigned value. */
  lemma LookupAfterAssign(scopes: seq<nat>, frames: seq<Frame>, name: string, v: Value)
    requires ChainIn(scopes, frames)
    requires AssignPlain(scopes, frames, name, v).Success?
    ensures ChainIn(scopes, AssignPlain(scopes, frames, name, v).value)
    ensures Lookup(scopes, AssignPlain(scopes, frames, name, v).value, name) == Success(v)
  {
    var fs := AssignPlain(scopes, frames, name, v).value;
    AssignPlainChangesOneBinding(scopes, frames, name, v);
    InnermostKeepsPosition(scopes, frames, fs, name);
  }

  // ---------------------------------------------------------------------
  // Declaration

  /** `var name = value` / `mut name = value` once the value is known: bind
      it in the frame on top of the stack. An empty stack is Python's
      `IndexError` of `scopes[-1]`. */
  function Declare(scopes: seq<nat>, frames: seq<Frame>, name: string, v: Value, mutable: bool): (r: Result<seq<Frame>, Fault>)
    requires ChainIn(scopes, frames)
    ensures r.Failure? <==> |scopes| == 0
  {
    if |scopes| == 0 then Failure(Host(IndexOutOfRange))
    else
      var top := scopes[|scopes| - 1];
      Success(frames[top := frames[top][name := Binding(v, mutable)]])
  }

  /** A declaration touches the top frame only, and there only `name`. */
  lemma DeclareTouchesTopOnly(scopes: seq<nat>, frames: seq<Frame>, name: string, v: Value, mutable: bool)
    requires ChainIn(scopes, frames) && |scopes| > 0
    ensures var fs := Declare(scopes, frames, name, v, mutable).value;
      var top := scopes[|scopes| - 1];
      |fs| == |frames| && fs[top] == frames[top][name := Binding(v, mutable)] &&
      forall i | 0 <= i < |frames| && i != top :: fs[i] == frames[i]
  {
  }

  /** A declared name shadows every outer binding of it. */
  lemma LookupAfterDeclare(scopes: seq<nat>, frames: seq<Frame>, name: string, v: Value, mutable: bool)
    requires ChainIn(scopes, frames) && |scopes| > 0
    ensures ChainIn(scopes, Declare(scopes, frames, name, v, mutable).value)
    ensures Lookup(scopes, Declare(scopes, frames, name, v, mutable).value, name) == Success(v)
  {
  }

  /** `var` makes a binding that assignment refuses to change, for as long
      as it is the innermost one. */
  lemma DeclaredConstantRefusesAssignment(scopes: seq<nat>, frames: seq<Frame>, name: string, v: Value, w: Value)
    requires ChainIn(scopes, frames) && |scopes| > 0
    ensures ChainIn(scopes, Declare(scopes, frames, name, v, false).value)
    ensures AssignPlain(scopes, Declare(scopes, frames, name, v, false).value, name, w) == Failure(Raised(ImmutableVariable))
  {
  }

  // ---------------------------------------------------------------------
  // Indexed assignment

  /** The grid with cell (i, j) replaced by x. */
  function WithCell(g: Grid, i: nat, j: nat, x: real): (r: Grid)
    requires i < |g| && j < Cols(g)
    ensures HasShape(r, |g|, Cols(g)) && r[i][j] == x
    ensures forall a, b | 0 <= a < |g| && 0 <= b < Cols(g) && (a != i || b != j) :: r[a][b] == g[a][b]
  {
    var r := g[i := g[i][j := x]];
    assert HasShape(r, |g|, Cols(g));
    r
  }

  /** `name[first][second] = value`: whole-number indices, then the
      innermost binding of `name`, which must be a mutable matrix; then the
      cell write. A negative index (Python counts it from the end) is
      outside this model, an index past the end is Python's `IndexError`,
      and only numbers are stored (a matrix cannot hold other values here). */
  function SetCell(scopes: seq<nat>, frames: seq<Frame>, heap: seq<Grid>, name: string, first: real, second: real, v: Value): (r: Result<seq<Grid>, Fault>)
    requires ChainIn(scopes, frames) && FramesIn(frames, |heap|)
    ensures r.Success? ==> |r.value| == |heap|
  {
    if !(IsWhole(first) && IsWhole(second)) then Failure(Raised(IndicesNotWhole))
    else match Innermost(scopes, frames, name)
    case None => Failure(Raised(MatrixMissing))
    case Some(k) =>
      var b := frames[scopes[k]][name];
      if !b.value.Mat? then Failure(Raised(NeedsMatrix))
      else if !b.mutable then Failure(Raised(ImmutableVariable))
      else if first < 0.0 || second < 0.0 then Failure(Unmodelled)
      else
        var g, i, j := heap[b.value.ref], first.Floor, second.Floor;
        if i >= |g| || j >= Cols(g) then Failure(Host(IndexOutOfRange))
        else if !v.Num? then Failure(Unmodelled)
        else Success(heap[b.value.ref := WithCell(g, i, j, v.n)])
  }

  /** A successful indexed assignment changes one cell of one matrix, the
      one the innermost binding names, and keeps every matrix's shape. */
  lemma SetCellChangesOneCell(scopes: seq<nat>, frames: seq<Frame>, heap: seq<Grid>, name: string, first: real, second: real, v: Value)
    requires ChainIn(scopes, frames) && FramesIn(frames, |heap|)
    requires SetCell(scopes, frames, heap, name, first, second, v).Success?
    ensures var hs := SetCell(scopes, frames, heap, name, first, second, v).value;
      var m := frames[scopes[Innermost(scopes, frames, name).value]][name].value.ref;
      var i, j := first.Floor, second.Floor;
      v.Num? && IsWhole(first) && IsWhole(second) && 0 <= i < |heap[m]| && 0 <= j < Cols(heap[m]) &&
      hs[m][i][j] == v.n &&
      (forall a | 0 <= a < |heap| :: |hs[a]| == |heap[a]| && Cols(hs[a]) == Cols(heap[a])) &&
      (forall a | 0 <= a < |heap| && a != m :: hs[a] == heap[a]) &&
      (forall a, b | 0 <= a < |heap[m]| && 0 <= b < Cols(heap[m]) && (a != i || b != j) :: hs[m][a][b] == heap[m][a][b])
  {
  }

  /** A matrix bound by `var` is never written through that binding. */
  lemma SetCellRefusesImmutable(scopes: seq<nat>, frames: seq<Frame>, heap: seq<Grid>, name: string, first: real, second: real, v: Value)
    requires ChainIn(scopes, frames) && FramesIn(frames, |heap|)
    requires IsWhole(first) && IsWhole(second)
    requires Innermost(scopes, frames, name).Some?
    requires var b := frames[scopes[Innermost(scopes, frames, name).value]][name]; b.value.Mat? && !b.mutable
    ensures SetCell(scopes, frames, heap, name, first, second, v) == Failure(Raised(ImmutableVariable))
  {
  }
}
