/**
 * The lexical scopes of sqf/namespace.py: a `Scope` maps variable names to
 * values, and a `Namespace` keeps a stack of scopes whose bottom is the
 * base (global) scope.
 */
module Namespaces {
  import opened Wrappers
  import opened SqfTypes

  /**
   * `scope[name]` on the values of a scope (lines 15-19).  A missing name
   * reads as the class `Nothing` itself, not as an instance of it: `None`
   * stands for that class, so a missing name and a name bound to a `Nothing`
   * value read differently.
   */
  function Lookup(values: map<string, Value>, name: string): (r: Option<Value>)
    ensures r.None? <==> name !in values
    ensures r.Some? ==> r.value == values[name]
  {
    if name in values then Some(values[name]) else None
  }

  /** After `s[k] = v`, `s[k]` is `v`, and every other name reads as before. */
  lemma {:induction false} LookupAfterSet(values: map<string, Value>, k: string, v: Value, other: string)
    ensures Lookup(values[k := v], k) == Some(v)
    ensures other != k ==> Lookup(values[k := v], other) == Lookup(values, other)
  {
  }

  /** A name that starts with `_` is local (line 38; the opposite of `Variable.is_global`, sqf/types.py lines 187-188). */
  predicate IsLocal(name: string)
  {
    |name| > 0 && name[0] == '_'
  }

  /**
   * The index of the scope `get_scope` (lines 37-45) returns, searching the
   * non-base scopes from index `i` down to 1.
   */
  function InnermostFrom(maps: seq<map<string, Value>>, name: string, i: nat): (r: nat)
    requires i < |maps|
    ensures r <= i
    ensures r > 0 ==> name in maps[r] && forall j :: r < j <= i ==> name !in maps[j]
    ensures r == 0 ==> forall j :: 1 <= j <= i ==> name !in maps[j]
    decreases i
  {
    if i == 0 then 0
    else if name in maps[i] then i
    else InnermostFrom(maps, name, i - 1)
  }

  /** The index of the scope a name resolves to in a stack of scopes. */
  function Resolve(maps: seq<map<string, Value>>, name: string): (r: nat)
    requires |maps| >= 1
    ensures r < |maps|
  {
    if IsLocal(name) then InnermostFrom(maps, name, |maps| - 1) else 0
  }

  /** A global name always resolves to the base scope. */
  lemma {:induction false} ResolveGlobal(maps: seq<map<string, Value>>, name: string)
    requires |maps| >= 1 && !IsLocal(name)
    ensures Resolve(maps, name) == 0
  {
  }

  /** A local name resolves to the innermost non-base scope holding it, or else to the base scope. */
  lemma {:induction false} ResolveLocal(maps: seq<map<string, Value>>, name: string)
    requires |maps| >= 1 && IsLocal(name)
    ensures var r := Resolve(maps, name);
      && (r > 0 <==> exists j :: 1 <= j < |maps| && name in maps[j])
      && (r > 0 ==> name in maps[r] && forall j :: r < j < |maps| ==> name !in maps[j])
  {
  }

  /** `Scope` (lines 4-22). */
  class Scope {
    var values: map<string, Value>
    var level: nat

    /** `Scope(level, values)`; no values means an empty scope. */
    constructor (level: nat, values: Option<map<string, Value>>)
      ensures this.level == level
      ensures this.values == if values.Some? then values.value else map[]
    {
      this.level := level;
      this.values := if values.Some? then values.value else map[];
    }

    /** `name in scope` (lines 12-13). */
    predicate Has(name: string)
      reads this
    {
      name in values
    }

    /** `scope[name]` (lines 15-19). */
    function Get(name: string): (r: Option<Value>)
      reads this
      ensures r == Lookup(values, name)
    {
      if name in values then Some(values[name]) else None
    }

    /** `scope[item] = value` (lines 21-22). */
    method Set(item: string, value: Value)
      modifies this
      ensures values == old(values)[item := value] && level == old(level)
      ensures Get(item) == Some(value)
    {
      values := values[item := value];
    }
  }

  /** `Namespace` (lines 25-51): `_stack`, the scopes from the base one up. */
  class Namespace {
    var stack: seq<Scope>

    /** Every scope's level is its place in the stack. */
    predicate Valid()
      reads this, stack
    {
      forall i :: 0 <= i < |stack| ==> stack[i].level == i
    }

    /** The values of the scopes, bottom first. */
    function Maps(): (r: seq<map<string, Value>>)
      reads this, stack
      ensures |r| == |stack|
    {
      seq(|stack|, i reads this, stack requires 0 <= i < |stack| => stack[i].values)
    }

    constructor (allVars: Option<map<string, Value>>)
      ensures Valid() && |stack| == 1 && fresh(stack[0])
      ensures stack[0].values == if allVars.Some? then allVars.value else map[]
    {
      var base := new Scope(0, allVars);
      stack := [base];
    }

    /** `current_scope` (lines 29-31): the top of the stack. */
    function CurrentScope(): (r: Scope)
      requires |stack| > 0
      reads this
      ensures r == stack[|stack| - 1]
    {
      stack[|stack| - 1]
    }

    /** `base_scope` (lines 33-35): the bottom of the stack. */
    function BaseScope(): (r: Scope)
      requires |stack| > 0
      reads this
      ensures r == stack[0]
    {
      stack[0]
    }

    /** `get_scope(name)` (lines 37-45). */
    method GetScope(name: string) returns (scope: Scope)
      requires |stack| > 0
      ensures scope == stack[Resolve(Maps(), name)]
    {
      if |name| > 0 && name[0] == '_' {
        var i := |stack| - 1;
        while i >= 1
          invariant 0 <= i < |stack|
          invariant InnermostFrom(Maps(), name, |stack| - 1) == InnermostFrom(Maps(), name, i)
          decreases i
        {
          if name in stack[i].values {
            return stack[i];
          }
          i := i - 1;
        }
        return stack[0];
      } else {
        return stack[0];
      }
    }

    /** `add_scope(values)` (lines 47-48): push a scope one level above the top. */
    method AddScope(values: Option<map<string, Value>>)
      requires Valid()
      modifies this
      ensures Valid() && |stack| == |old(stack)| + 1 && stack[..|old(stack)|] == old(stack)
      ensures fresh(stack[|stack| - 1]) && stack[|stack| - 1].level == |old(stack)|
      ensures stack[|stack| - 1].values == if values.Some? then values.value else map[]
    {
      var s := new Scope(|stack|, values);
      stack := stack + [s];
    }

    /** `del_scope()` (lines 50-51): pop the top scope only. */
    method DelScope()
      requires Valid() && |stack| > 0
      modifies this
      ensures Valid() && stack == old(stack)[..|old(stack)| - 1]
    {
      stack := stack[..|stack| - 1];
    }
  }
}
