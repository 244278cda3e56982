/**
 * The expression splitter of core/parse_exp.py: the operators are tried in
 * list order, and the expression is split around the first occurrence of
 * the first operator it contains; both sides are split again.
 */
module CoreParseExp {
  import opened Wrappers
  import opened ExpTree

  /** The index of the first item equal to `op`. */
  function IndexOf<T(==)>(exp: seq<T>, op: T): (r: Option<nat>)
    ensures r.None? <==> op !in exp
    ensures r.Some? ==> r.value < |exp| && exp[r.value] == op && op !in exp[..r.value]
    decreases |exp|
  {
    if exp == [] then None
    else if exp[0] == op then Some(0)
    else
      var k := IndexOf(exp[1..], op);
      assert exp == [exp[0]] + exp[1..];
      if k.None? then None
      else
        assert exp[..k.value + 1] == [exp[0]] + exp[1..][..k.value];
        Some(k.value + 1)
  }

  /**
   * `partition(exp, op)` (lines 1-6): the items before the first `op`, `op`
   * itself and the items after it; without `op`, `exp` and two empty lists.
   */
  function Partition<T(==)>(exp: seq<T>, op: T): (r: seq<Part<T>>)
    ensures |r| == 3
  {
    match IndexOf(exp, op)
    case None => [Items(exp), Items([]), Items([])]
    case Some(i) => [Items(exp[..i]), Item(exp[i]), Items(exp[i + 1..])]
  }

  /**
   * The parts concatenate back to `exp`; when `op` occurs, the split is at its
   * first occurrence and both sides are shorter than `exp`.
   */
  lemma {:induction false} PartitionMeaning<T>(exp: seq<T>, op: T)
    ensures PartsText(Partition(exp, op)) == exp
    ensures op in exp ==> var r := Partition(exp, op);
      && r[0].Items? && r[1] == Item(op) && r[2].Items?
      && op !in r[0].items && |r[0].items| < |exp| && |r[2].items| < |exp|
  {
    var r := Partition(exp, op);
    PartsTextThree(r);
    if op in exp {
      var i := IndexOf(exp, op).value;
      assert exp == exp[..i] + [exp[i]] + exp[i + 1..];
    }
  }

  /** The first of `operators` that occurs in `exp` (lines 11-12). */
  function FirstOp<T(==)>(exp: seq<T>, operators: seq<T>): (r: Option<T>)
    ensures r.Some? ==> r.value in operators && r.value in exp
    ensures r.None? <==> forall i :: 0 <= i < |operators| ==> operators[i] !in exp
    decreases |operators|
  {
    if operators == [] then None
    else if operators[0] in exp then Some(operators[0])
    else
      assert forall i :: 1 <= i < |operators| ==> operators[i] == operators[1..][i - 1];
      FirstOp(exp, operators[1..])
  }

  /** The result of `parse_exp(exp, operators)` (lines 9-26): the items of the returned list. */
  function Parse<T(==)>(exp: seq<T>, operators: seq<T>): seq<Tree<T>>
    decreases |exp|, 4
  {
    match FirstOp(exp, operators)
    case None => LeafAll(exp)
    case Some(op) =>
      PartitionMeaning(exp, op);
      Collect(Partition(exp, op), operators, |exp|)
  }

  /** The loop over the parts (lines 14-24). */
  function Collect<T(==)>(parts: seq<Part<T>>, operators: seq<T>, bound: nat): seq<Tree<T>>
    requires forall i :: 0 <= i < |parts| && parts[i].Items? ==> |parts[i].items| < bound
    decreases bound, |parts|
  {
    if parts == [] then []
    else Collect(parts[..|parts| - 1], operators, bound) + Piece(parts[|parts| - 1], operators, bound)
  }

  /**
   * What one part adds (lines 16-24): a list is split again, dropped when
   * empty and unwrapped when it has one item; an operator is kept.
   */
  function Piece<T(==)>(part: Part<T>, operators: seq<T>, bound: nat): seq<Tree<T>>
    requires part.Items? ==> |part.items| < bound
    decreases bound, 0
  {
    match part
    case Items(xs) =>
      var sub := Parse(xs, operators);
      if sub == [] then [] else if |sub| == 1 then [sub[0]] else [Node(sub)]
    case Item(x) => [Leaf(x)]
  }

  lemma {:induction false} CollectStep<T>(parts: seq<Part<T>>, p: nat, operators: seq<T>, bound: nat)
    requires p < |parts|
    requires forall i :: 0 <= i < |parts| && parts[i].Items? ==> |parts[i].items| < bound
    ensures Collect(parts[..p + 1], operators, bound) == Collect(parts[..p], operators, bound) + Piece(parts[p], operators, bound)
  {
    assert parts[..p + 1][..p] == parts[..p];
  }

  lemma {:induction false} CollectThree<T>(parts: seq<Part<T>>, operators: seq<T>, bound: nat)
    requires |parts| == 3
    requires forall i :: 0 <= i < |parts| && parts[i].Items? ==> |parts[i].items| < bound
    ensures Collect(parts, operators, bound) ==
      Piece(parts[0], operators, bound) + Piece(parts[1], operators, bound) + Piece(parts[2], operators, bound)
  {
    CollectStep(parts, 0, operators, bound);
    CollectStep(parts, 1, operators, bound);
    CollectStep(parts, 2, operators, bound);
    assert parts[..0] == [] && parts[..3] == parts;
  }

  /** `parse_exp(exp, operators)` (lines 9-26), with its loop over the operators and its loop over the parts. */
  method ParseExp<T(==)>(exp: seq<T>, operators: seq<T>) returns (result: seq<Tree<T>>)
    ensures result == Parse(exp, operators)
    decreases |exp|, 2
  {
    for j := 0 to |operators|
      invariant forall i :: 0 <= i < j ==> operators[i] !in exp
    {
      var op := operators[j];
      if op in exp {
        FirstOpAt(exp, operators, j);
        PartitionMeaning(exp, op);
        var parts := Partition(exp, op);
        result := [];
        for p := 0 to |parts|
          invariant result == Collect(parts[..p], operators, |exp|)
        {
          CollectStep(parts, p, operators, |exp|);
          var piece := ParsePart(parts[p], operators, |exp|);
          result := result + piece;
        }
        assert parts[..|parts|] == parts;
        return;
      }
    }
    result := LeafAll(exp);
  }

  /** One pass of the loop over the parts (lines 16-24). */
  method ParsePart<T(==)>(part: Part<T>, operators: seq<T>, bound: nat) returns (piece: seq<Tree<T>>)
    requires part.Items? ==> |part.items| < bound
    ensures piece == Piece(part, operators, bound)
    decreases bound, 1
  {
    match part
    case Items(xs) =>
      var sub := ParseExp(xs, operators);
      if sub != [] {
        if |sub| == 1 {
          piece := [sub[0]];
        } else {
          piece := [Node(sub)];
        }
      } else {
        piece := [];
      }
    case Item(x) =>
      piece := [Leaf(x)];
  }

  /** The operator chosen is the first, in list order, that occurs in `exp`. */
  lemma {:induction false} FirstOpAt<T>(exp: seq<T>, operators: seq<T>, n: nat)
    requires n < |operators| && operators[n] in exp
    requires forall i :: 0 <= i < n ==> operators[i] !in exp
    ensures FirstOp(exp, operators) == Some(operators[n])
    decreases n
  {
    if n > 0 {
      assert operators[0] !in exp;
      FirstOpAt(exp, operators[1..], n - 1);
    }
  }

  /** Splitting only regroups the items: reading the leaves gives `exp` back. */
  lemma {:induction false} ParseLeaves<T>(exp: seq<T>, operators: seq<T>)
    ensures LeavesOf(Parse(exp, operators)) == exp
    decreases |exp|, 4
  {
    match FirstOp(exp, operators)
    case None =>
      LeavesOfLeafAll(exp);
    case Some(op) =>
      PartitionMeaning(exp, op);
      CollectLeaves(Partition(exp, op), operators, |exp|);
  }

  lemma {:induction false} CollectLeaves<T>(parts: seq<Part<T>>, operators: seq<T>, bound: nat)
    requires forall i :: 0 <= i < |parts| && parts[i].Items? ==> |parts[i].items| < bound
    ensures LeavesOf(Collect(parts, operators, bound)) == PartsText(parts)
    decreases bound, |parts|
  {
    if parts != [] {
      var init := parts[..|parts| - 1];
      var last := parts[|parts| - 1];
      CollectLeaves(init, operators, bound);
      LeavesOfAppend(Collect(init, operators, bound), Piece(last, operators, bound));
      match last
      case Items(xs) =>
        ParseLeaves(xs, operators);
        var sub := Parse(xs, operators);
        if |sub| == 1 {
          LeavesOfSingle(sub[0]);
          assert sub == [sub[0]];
        } else if sub != [] {
          LeavesOfSingle(Node(sub));
        }
      case Item(x) =>
        LeavesOfSingle(Leaf(x));
    }
  }

  /** An expression without any of the operators is returned unchanged (line 26). */
  lemma {:induction false} ParseNoOperator<T>(exp: seq<T>, operators: seq<T>)
    requires forall i :: 0 <= i < |operators| ==> operators[i] !in exp
    ensures Parse(exp, operators) == LeafAll(exp)
  {
  }

  /**
   * With the first operator present, the top-level result holds that
   * operator where it first occurs: everything before it is the result for
   * the items before it.
   */
  lemma {:induction false} ParseSplitsAtFirst<T>(exp: seq<T>, operators: seq<T>, n: nat)
    requires n < |operators| && operators[n] in exp
    requires forall i :: 0 <= i < n ==> operators[i] !in exp
    ensures var i := IndexOf(exp, operators[n]).value;
      Parse(exp, operators) ==
        Piece(Items(exp[..i]), operators, |exp|) + [Leaf(operators[n])] + Piece(Items(exp[i + 1..]), operators, |exp|)
  {
    FirstOpAt(exp, operators, n);
    var op := operators[n];
    PartitionMeaning(exp, op);
    var parts := Partition(exp, op);
    CollectThree(parts, operators, |exp|);
  }
}
