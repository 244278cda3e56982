/**
 * The array builtins of sqf/interpreter_expressions.py (`find`,
 * `pushBack`, `pushBackUnique`, `-` on arrays, `select [start, count]`) and
 * the `Action` wrapper that refuses to run a builtin on undefined values.
 */
module ArrayBuiltins {
  import opened Wrappers
  import opened SqfTypes

  /** `_find` (lines 379-384): the first index holding a value equal to `rhs`, or -1. */
  function Find(lhs: seq<Value>, rhs: Value): (r: int)
    ensures -1 <= r < |lhs|
    ensures r == -1 <==> forall i :: 0 <= i < |lhs| ==> !Equal(lhs[i], rhs)
    ensures r >= 0 ==> Equal(lhs[r], rhs) && forall i :: 0 <= i < r ==> !Equal(lhs[i], rhs)
    decreases |lhs|
  {
    if lhs == [] then -1
    else if Equal(lhs[0], rhs) then 0
    else
      var k := Find(lhs[1..], rhs);
      assert forall i :: 1 <= i < |lhs| ==> lhs[i] == lhs[1..][i - 1];
      if k == -1 then -1 else k + 1
  }

  /** `rhs_v in lhs_v.value`: Python's `in` on a list uses `==`. */
  predicate Contains(lhs: seq<Value>, rhs: Value)
  {
    exists i :: 0 <= i < |lhs| && Equal(lhs[i], rhs)
  }

  /** `_pushBack` (lines 387-389): appends and returns the new last index. */
  method PushBack(lhs: Array, rhs: Value) returns (r: int)
    requires !lhs.undefined
    modifies lhs
    ensures lhs.Valid() && lhs.tokens == old(lhs.tokens) + [rhs] && !lhs.undefined
    ensures r == |old(lhs.tokens)| && lhs.tokens[r] == rhs
  {
    lhs.Append(rhs);
    r := |lhs.tokens| - 1;
  }

  /**
   * `_pushBackUnique` (lines 392-397): -1 and no change when an equal value
   * is already there, otherwise append and return the new last index.
   */
  method PushBackUnique(lhs: Array, rhs: Value) returns (r: int)
    requires !lhs.undefined
    modifies lhs
    ensures Contains(old(lhs.tokens), rhs) ==> r == -1 && lhs.tokens == old(lhs.tokens) && lhs.baseTokens == old(lhs.baseTokens)
    ensures !Contains(old(lhs.tokens), rhs) ==>
      lhs.Valid() && lhs.tokens == old(lhs.tokens) + [rhs] && r == |old(lhs.tokens)|
    ensures !lhs.undefined
  {
    if Find(lhs.tokens, rhs) != -1 {
      return -1;
    }
    lhs.Append(rhs);
    r := |lhs.tokens| - 1;
  }

  /** `set([rhs_i.value for rhs_i in rhs.value])`. */
  function ValueSet(rhs: seq<Value>): (r: set<Raw>)
    ensures forall x :: x in r <==> exists i :: 0 <= i < |rhs| && PyValue(rhs[i]) == x
  {
    set i | 0 <= i < |rhs| :: PyValue(rhs[i])
  }

  /** `_subtract_arrays` (lines 374-376): the items of `lhs`, in order, whose value is not a value of `rhs`. */
  function SubtractArrays(lhs: seq<Value>, rhs: seq<Value>): (r: seq<Value>)
    ensures |r| <= |lhs|
    decreases |lhs|
  {
    if lhs == [] then []
    else (if PyValue(lhs[0]) !in ValueSet(rhs) then [lhs[0]] else []) + SubtractArrays(lhs[1..], rhs)
  }

  /** An item is kept exactly when its value is not among the values of `rhs`. */
  lemma {:induction false} SubtractMembers(lhs: seq<Value>, rhs: seq<Value>)
    ensures forall x :: x in SubtractArrays(lhs, rhs) <==> x in lhs && PyValue(x) !in ValueSet(rhs)
    decreases |lhs|
  {
    if lhs != [] {
      SubtractMembers(lhs[1..], rhs);
      assert lhs == [lhs[0]] + lhs[1..];
    }
  }

  /** Each item whose value is not among those of `rhs` keeps all its copies; every other item loses all of them. */
  lemma {:induction false} SubtractCounts(lhs: seq<Value>, rhs: seq<Value>)
    ensures forall x :: multiset(SubtractArrays(lhs, rhs))[x] == if PyValue(x) in ValueSet(rhs) then 0 else multiset(lhs)[x]
    decreases |lhs|
  {
    if lhs != [] {
      SubtractCounts(lhs[1..], rhs);
      assert lhs == [lhs[0]] + lhs[1..];
      var head := if PyValue(lhs[0]) !in ValueSet(rhs) then [lhs[0]] else [];
      assert multiset(SubtractArrays(lhs, rhs)) == multiset(head) + multiset(SubtractArrays(lhs[1..], rhs));
    }
  }

  /** `xs` is `ys` with some items left out, the rest in the same order. */
  ghost predicate Subsequence<T>(xs: seq<T>, ys: seq<T>)
    decreases |ys|
  {
    if xs == [] then true
    else if ys == [] then false
    else if xs[0] == ys[0] then Subsequence(xs[1..], ys[1..])
    else Subsequence(xs, ys[1..])
  }

  /** Subtraction keeps the order of `lhs`. */
  lemma {:induction false} SubtractKeepsOrder(lhs: seq<Value>, rhs: seq<Value>)
    ensures Subsequence(SubtractArrays(lhs, rhs), lhs)
    decreases |lhs|
  {
    if lhs != [] {
      SubtractKeepsOrder(lhs[1..], rhs);
      var tail := SubtractArrays(lhs[1..], rhs);
      if PyValue(lhs[0]) !in ValueSet(rhs) {
        assert SubtractArrays(lhs, rhs) == [lhs[0]] + tail;
        assert ([lhs[0]] + tail)[1..] == tail;
      } else {
        assert SubtractArrays(lhs, rhs) == tail;
        SubsequenceSkip(tail, lhs);
      }
    }
  }

  /** A subsequence of the tail is a subsequence of the whole. */
  lemma {:induction false} SubsequenceSkip<T>(xs: seq<T>, ys: seq<T>)
    requires ys != [] && Subsequence(xs, ys[1..])
    ensures Subsequence(xs, ys)
    decreases |ys|, 0
  {
    if xs != [] && xs[0] == ys[0] {
      SubsequenceDropHead(xs, ys[1..]);
    }
  }

  /** Dropping the first item of a subsequence leaves a subsequence. */
  lemma {:induction false} SubsequenceDropHead<T>(xs: seq<T>, ys: seq<T>)
    requires xs != [] && Subsequence(xs, ys)
    ensures Subsequence(xs[1..], ys)
    decreases |ys|, 1
  {
    if xs[0] == ys[0] {
      if xs[1..] != [] {
        SubsequenceSkip(xs[1..], ys);
      }
    } else {
      SubsequenceDropHead(xs, ys[1..]);
      if xs[1..] != [] {
        SubsequenceSkip(xs[1..], ys);
      }
    }
  }

  /** The documented example `[1,2,3,2,4] - [2,3] == [1,4]` (tests/test_interpreter.py lines 65-69). */
  lemma {:induction false} SubtractExample(lhs: seq<Value>, rhs: seq<Value>)
    requires lhs == [Number(Some(1)), Number(Some(2)), Number(Some(3)), Number(Some(2)), Number(Some(4))]
    requires rhs == [Number(Some(2)), Number(Some(3))]
    ensures SubtractArrays(lhs, rhs) == [Number(Some(1)), Number(Some(4))]
  {
    ExampleValues(rhs);
    SubtractExampleTail(lhs[1..], rhs);
    SubtractStep(lhs, rhs);
  }

  lemma {:induction false} ExampleValues(rhs: seq<Value>)
    requires rhs == [Number(Some(2)), Number(Some(3))]
    ensures RInt(1) !in ValueSet(rhs) && RInt(4) !in ValueSet(rhs) && RInt(2) in ValueSet(rhs) && RInt(3) in ValueSet(rhs)
  {
    assert PyValue(rhs[0]) == RInt(2) && PyValue(rhs[1]) == RInt(3);
  }

  lemma {:induction false} SubtractExampleTail(tail: seq<Value>, rhs: seq<Value>)
    requires tail == [Number(Some(2)), Number(Some(3)), Number(Some(2)), Number(Some(4))]
    requires rhs == [Number(Some(2)), Number(Some(3))]
    ensures SubtractArrays(tail, rhs) == [Number(Some(4))]
  {
    ExampleValues(rhs);
    var l4, l3, l2 := tail[3..], tail[2..], tail[1..];
    assert l4[1..] == [] && l3[1..] == l4 && l2[1..] == l3 && tail[1..] == l2;
    SubtractStep(l4, rhs);
    assert SubtractArrays(l4, rhs) == [Number(Some(4))];
    SubtractStep(l3, rhs);
    SubtractStep(l2, rhs);
    SubtractStep(tail, rhs);
  }

  lemma {:induction false} SubtractStep(lhs: seq<Value>, rhs: seq<Value>)
    requires lhs != []
    ensures SubtractArrays(lhs, rhs) ==
      (if PyValue(lhs[0]) !in ValueSet(rhs) then [lhs[0]] else []) + SubtractArrays(lhs[1..], rhs)
  {
  }

  /** `list[a:b]` with Python's clamping of each bound (negative bounds count from the end). */
  function SlicePy<T>(xs: seq<T>, a: int, b: int): (r: seq<T>)
  {
    var lo := Clamp(if a < 0 then |xs| + a else a, |xs|);
    var hi := Clamp(if b < 0 then |xs| + b else b, |xs|);
    if lo <= hi then xs[lo..hi] else []
  }

  function Clamp(k: int, n: nat): (r: nat)
    ensures r <= n
  {
    if k < 0 then 0 else if k > n then n else k
  }

  /**
   * What `_select_array` returns and the error it reports to the
   * interpreter, if any, or the Python exception it raises.
   */
  datatype Selection<T> = Selection(items: seq<T>, error: Option<string>) | Raises(exception: string)

  /**
   * `_select_array` (lines 361-371): `lhs[start:start+count]`, with `start`
   * and `count` the `.value`s of the first two items of `rhs`.  An undefined
   * operand gives `[]`; fewer than two items raise `IndexError`; a `start`
   * that is not a number raises `TypeError` at `start > len(...)`; a start
   * past the end reports an error and gives `[]`; and a `count` that is not
   * a number raises `TypeError` at `start + count`.
   */
  function SelectArray<T>(lhs: Option<seq<T>>, rhs: Option<seq<Value>>): (r: Selection<T>)
    ensures r.Raises? <==>
      && lhs.Some? && rhs.Some?
      && (|rhs.value| < 2 || !PyValue(rhs.value[0]).RInt?
          || (PyValue(rhs.value[0]).i <= |lhs.value| && !PyValue(rhs.value[1]).RInt?))
    ensures r.Raises? ==> r.exception == if |rhs.value| < 2 then "IndexError" else "TypeError"
  {
    if lhs.None? || rhs.None? then Selection([], None)
    else if |rhs.value| < 2 then Raises("IndexError")
    else match PyValue(rhs.value[0])
      case RInt(start) =>
        if start > |lhs.value| then Selection([], Some("Selecting element past size"))
        else (match PyValue(rhs.value[1])
          case RInt(count) => Selection(SlicePy(lhs.value, start, start + count), None)
          case _ => Raises("TypeError"))
      case _ => Raises("TypeError")
  }

  /** `select [start, count]` takes up to `count` items from `start`, stopping at the end, and reports nothing. */
  lemma {:induction false} SelectArrayMeaning<T>(lhs: seq<T>, rhs: seq<Value>, start: int, count: int)
    requires |rhs| >= 2 && PyValue(rhs[0]) == RInt(start) && PyValue(rhs[1]) == RInt(count)
    requires 0 <= start <= |lhs| && count >= 0
    ensures SelectArray(Some(lhs), Some(rhs)) ==
      Selection(lhs[start..if start + count <= |lhs| then start + count else |lhs|], None)
  {
  }

  /** A start past the end is an error, and nothing is selected, whatever the count. */
  lemma {:induction false} SelectArrayPastEnd<T>(lhs: seq<T>, rhs: seq<Value>, start: int)
    requires |rhs| >= 2 && PyValue(rhs[0]) == RInt(start) && start > |lhs|
    ensures SelectArray(Some(lhs), Some(rhs)) == Selection([], Some("Selecting element past size"))
  {
  }

  /** `[1, 2, 3] select [1]` raises `IndexError`, and `[1, 2, 3] select [nil, 1]` raises `TypeError`. */
  lemma {:induction false} SelectArrayRaisesExamples(lhs: seq<Value>)
    requires lhs == [Number(Some(1)), Number(Some(2)), Number(Some(3))]
    ensures SelectArray(Some(lhs), Some([Number(Some(1))])) == Raises("IndexError")
    ensures SelectArray(Some(lhs), Some([Nothing, Number(Some(1))])) == Raises("TypeError")
  {
  }

  /** An argument of a builtin: a single value, or an array with its items (None when undefined). */
  datatype Arg = Single(v: Value) | ArrayArg(items: Option<seq<Value>>)

  /** The argument is defined, and so is each item of an array argument. */
  predicate Executable(a: Arg)
  {
    match a
    case Single(v) => !Undefined(v)
    case ArrayArg(items) => items.Some? && forall i :: 0 <= i < |items.value| ==> !Undefined(items.value[i])
  }

  /**
   * `Action.__call__` (lines 466-479): the action runs only when every
   * argument, and every item of every array argument, is defined;
   * otherwise the result is None.
   */
  method CallAction<R>(action: seq<Arg> -> R, args: seq<Arg>) returns (result: Option<R>)
    ensures result.Some? <==> forall i :: 0 <= i < |args| ==> Executable(args[i])
    ensures result.Some? ==> result.value == action(args)
  {
    var canExecute := true;
    var i := 0;
    while i < |args|
      invariant 0 <= i <= |args|
      invariant forall j :: 0 <= j < i ==> Executable(args[j])
    {
      var arg := args[i];
      var undefinedItem := false;
      if arg.ArrayArg? && arg.items.Some? {
        var k := 0;
        while k < |arg.items.value|
          invariant 0 <= k <= |arg.items.value|
          invariant forall j :: 0 <= j < k ==> !Undefined(arg.items.value[j])
        {
          if Undefined(arg.items.value[k]) {
            undefinedItem := true;
            break;
          }
          k := k + 1;
        }
      }
      var defined := match arg case Single(v) => !Undefined(v) case ArrayArg(items) => items.Some?;
      if !defined || undefinedItem {
        assert !Executable(arg);
        canExecute := false;
        break;
      }
      i := i + 1;
    }
    if canExecute {
      return Some(action(args));
    }
    return None;
  }
}
