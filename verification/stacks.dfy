/** A stack of scopes, each a map from names to values, outermost first,
    as the middle and the earliest evaluator keep it (`self.variables`). */
module NeoStacks {
  import opened Wrappers
  import opened NeoValues

  /** The position on the stack of the innermost scope binding `name`. */
  function Innermost<V>(vs: seq<map<string, V>>, name: string): (k: Option<nat>)
    ensures k.Some? ==> k.value < |vs| && name in vs[k.value]
    ensures k.Some? ==> forall j | k.value < j < |vs| :: name !in vs[j]
    ensures k.None? <==> forall j | 0 <= j < |vs| :: name !in vs[j]
  {
    if |vs| == 0 then None
    else if name in vs[|vs| - 1] then Some(|vs| - 1)
    else Innermost(vs[..|vs| - 1], name)
  }

  /** `visit_identifier`: the value in the innermost scope binding the
      name; an unbound name is reported. */
  function Lookup<V>(vs: seq<map<string, V>>, name: string): (r: Result<V, Fault>)
    ensures r.Failure? <==> forall j | 0 <= j < |vs| :: name !in vs[j]
    ensures r.Failure? ==> r.error == Raised(Undeclared)
    ensures r.Success? ==> exists j | 0 <= j < |vs| :: name in vs[j] && r.value == vs[j][name] && forall k | j < k < |vs| :: name !in vs[k]
  {
    match Innermost(vs, name)
    case None => Failure(Raised(Undeclared))
    case Some(k) => Success(vs[k][name])
  }

  /** `self.variables[-1][name] = value`: the innermost scope gets the
      binding, whether or not it had one, and no other scope is looked
      at. */
  function Assign<V>(vs: seq<map<string, V>>, name: string, v: V): (r: seq<map<string, V>>)
    requires |vs| > 0
    ensures |r| == |vs|
  {
    vs[|vs| - 1 := vs[|vs| - 1][name := v]]
  }

  /** Assignment writes the innermost scope only: the outer scopes are as
      they were, even one that binds the same name, and the innermost one
      differs from before in that one name. */
  lemma AssignTouchesTopOnly<V>(vs: seq<map<string, V>>, name: string, v: V)
    requires |vs| > 0
    ensures Assign(vs, name, v)[..|vs| - 1] == vs[..|vs| - 1]
    ensures var top, top' := vs[|vs| - 1], Assign(vs, name, v)[|vs| - 1];
      name in top' && top'[name] == v && top'.Keys == top.Keys + {name} &&
      forall y | y in top && y != name :: top'[y] == top[y]
  {
  }

  /** After `name = v` the name reads `v`, and every other name reads what
      it read before. */
  lemma LookupAfterAssign<V>(vs: seq<map<string, V>>, name: string, v: V, other: string)
    requires |vs| > 0 && other != name
    ensures Lookup(Assign(vs, name, v), name) == Success(v)
    ensures Lookup(Assign(vs, name, v), other) == Lookup(vs, other)
  {
    InnermostAfterAssign(vs, name, v, other);
  }

  lemma InnermostAfterAssign<V>(vs: seq<map<string, V>>, name: string, v: V, other: string)
    requires |vs| > 0 && other != name
    ensures Innermost(Assign(vs, name, v), other) == Innermost(vs, other)
  {
    var vs' := Assign(vs, name, v);
    var top := |vs| - 1;
    if other !in vs[top] {
      assert vs'[..top] == vs[..top];
    }
  }
}
