/**
 * The operator-priority splitter of sqf/parse_exp.py.  An expression is a
 * list of items, each seen through its text (`str(item)`); the splitter
 * looks for the operators of the lowest priority that occur, splits the
 * list around one occurrence and splits both sides again.
 */
module SqfParseExp {
  import opened Wrappers
  import opened SqfTypes
  import opened ExpTree

  /** `_normalize` (lines 2-3): the lower-cased text of an item. */
  function Normalize(item: string): string
  {
    Lower(item)
  }

  /** Some item of `exp` normalizes to one of `ops`. */
  predicate Occurs(exp: seq<string>, ops: set<string>)
  {
    exists i :: 0 <= i < |exp| && Normalize(exp[i]) in ops
  }

  /** `set(_normalize(op) for op in exp if _normalize(op) in ops)` (line 26). */
  function CommonOps(exp: seq<string>, ops: set<string>): (r: set<string>)
    ensures r <= ops
    ensures forall i :: 0 <= i < |exp| ==> (Normalize(exp[i]) in r <==> Normalize(exp[i]) in ops)
  {
    set i | 0 <= i < |exp| && Normalize(exp[i]) in ops :: Normalize(exp[i])
  }

  /** When there are common operators, some item is one of them. */
  lemma {:induction false} CommonOpsOccur(exp: seq<string>, ops: set<string>)
    requires CommonOps(exp, ops) != {}
    ensures Occurs(exp, CommonOps(exp, ops))
  {
    var o := Pick(CommonOps(exp, ops));
    var i :| 0 <= i < |exp| && Normalize(exp[i]) in ops && Normalize(exp[i]) == o;
  }

  /** The common operators are exactly the operators some item normalizes to. */
  lemma {:induction false} CommonOpsMeaning(exp: seq<string>, ops: set<string>, o: string)
    ensures o in CommonOps(exp, ops) <==> o in ops && exists i :: 0 <= i < |exp| && Normalize(exp[i]) == o
  {
    if o in CommonOps(exp, ops) {
      var i :| 0 <= i < |exp| && Normalize(exp[i]) in ops && Normalize(exp[i]) == o;
    }
  }

  /** Some operator is common exactly when some item is an operator. */
  lemma {:induction false} CommonOpsNonEmpty(exp: seq<string>, ops: set<string>)
    ensures CommonOps(exp, ops) != {} <==> Occurs(exp, ops)
  {
    var r := CommonOps(exp, ops);
    if Occurs(exp, ops) {
      var i :| 0 <= i < |exp| && Normalize(exp[i]) in ops;
      assert Normalize(exp[i]) in r;
    }
  }

  /** The first index whose item normalizes to one of `ops`. */
  function FirstIndex(exp: seq<string>, ops: set<string>): (r: nat)
    requires Occurs(exp, ops)
    ensures r < |exp| && Normalize(exp[r]) in ops
    ensures forall j :: 0 <= j < r ==> Normalize(exp[j]) !in ops
    decreases |exp|
  {
    if Normalize(exp[0]) in ops then 0
    else
      assert Occurs(exp[1..], ops) by {
        var i :| 0 <= i < |exp| && Normalize(exp[i]) in ops;
        assert exp[1..][i - 1] == exp[i];
      }
      var k := FirstIndex(exp[1..], ops);
      assert forall j :: 1 <= j < k + 1 ==> exp[j] == exp[1..][j - 1];
      k + 1
  }

  /** The last index whose item normalizes to one of `ops`. */
  function LastIndex(exp: seq<string>, ops: set<string>): (r: nat)
    requires Occurs(exp, ops)
    ensures r < |exp| && Normalize(exp[r]) in ops
    ensures forall j :: r < j < |exp| ==> Normalize(exp[j]) !in ops
    decreases |exp|
  {
    var n := |exp| - 1;
    if Normalize(exp[n]) in ops then n
    else
      assert Occurs(exp[..n], ops) by {
        var i :| 0 <= i < |exp| && Normalize(exp[i]) in ops;
        assert exp[..n][i] == exp[i];
      }
      var k := LastIndex(exp[..n], ops);
      assert forall j :: k < j < n ==> exp[j] == exp[..n][j];
      k
  }

  /**
   * The index `partition` (lines 6-15) splits at: with a single operator its
   * last occurrence, with several the first occurrence of any of them.
   */
  function PartitionIndex(exp: seq<string>, ops: set<string>): (r: nat)
    requires Occurs(exp, ops)
    ensures r < |exp|
  {
    if |ops| == 1 then LastIndex(exp, ops) else FirstIndex(exp, ops)
  }

  /** `partition(exp, ops)` (lines 6-15). */
  function Partition(exp: seq<string>, ops: set<string>): (r: seq<Part<string>>)
    requires Occurs(exp, ops)
    ensures |r| == 3 && r[0].Items? && r[1].Item? && r[2].Items?
  {
    var i := PartitionIndex(exp, ops);
    [Items(exp[..i]), Item(exp[i]), Items(exp[i + 1..])]
  }

  /** The three parts concatenate back to `exp`, and the middle one is an operator. */
  lemma {:induction false} PartitionMeaning(exp: seq<string>, ops: set<string>)
    requires Occurs(exp, ops)
    ensures var r := Partition(exp, ops);
      && r[0].items + [r[1].item] + r[2].items == exp
      && Normalize(r[1].item) in ops
      && |r[0].items| < |exp| && |r[2].items| < |exp|
  {
    var i := PartitionIndex(exp, ops);
    assert exp == exp[..i] + [exp[i]] + exp[i + 1..];
  }

  /** With one operator the split is at its last occurrence; with several, at the first occurrence of any. */
  lemma {:induction false} PartitionPlace(exp: seq<string>, ops: set<string>)
    requires Occurs(exp, ops)
    ensures var r := Partition(exp, ops); var i := |r[0].items|;
      && (|ops| == 1 ==> forall j :: i < j < |exp| ==> Normalize(exp[j]) !in ops)
      && (|ops| != 1 ==> forall j :: 0 <= j < i ==> Normalize(exp[j]) !in ops)
  {
  }

  /** `min(s)` of a non-empty set of priorities. */
  function Min(s: set<int>): (r: int)
    requires s != {}
    ensures r in s && forall x :: x in s ==> r <= x
  {
    MinExists(s);
    var m :| m in s && forall x :: x in s ==> m <= x;
    m
  }

  lemma {:induction false} MinExists(s: set<int>)
    requires s != {}
    ensures exists m :: m in s && forall x :: x in s ==> m <= x
    decreases |s|
  {
    var y := Pick(s);
    var rest := s - {y};
    if rest != {} {
      MinExists(rest);
      var m :| m in rest && forall x :: x in rest ==> m <= x;
      var lo := if y < m then y else m;
      forall x | x in s ensures lo <= x {
        if x != y {
          assert x in rest;
        }
      }
      assert lo in s;
    } else {
      forall x | x in s ensures y <= x {
        assert x !in rest;
      }
    }
  }

  /** Some element of a non-empty set. */
  lemma {:induction false} Pick<T>(s: set<T>) returns (y: T)
    requires s != {}
    ensures y in s
  {
    if forall x :: x !in s {
      assert false;
    }
    y :| y in s;
  }

  /** `sorted(priorities.keys())`. */
  function SortedKeys(s: set<int>): (r: seq<int>)
    ensures forall x :: x in r <==> x in s
    ensures forall i :: 0 <= i < |r| ==> r[i] in s
    ensures forall i, j :: 0 <= i < j < |r| ==> r[i] < r[j]
    decreases |s|
  {
    if s == {} then []
    else
      var m := Min(s);
      CardRemove(s, m);
      var rest := SortedKeys(s - {m});
      ConsSorted(m, s, rest);
      [m] + rest
  }

  /** `r` lists the elements of `s` in strictly increasing order. */
  ghost predicate SortedOf(r: seq<int>, s: set<int>)
  {
    && (forall x :: x in r <==> x in s)
    && (forall i :: 0 <= i < |r| ==> r[i] in s)
    && (forall i, j :: 0 <= i < j < |r| ==> r[i] < r[j])
  }

  lemma {:induction false} CardRemove(s: set<int>, m: int)
    requires m in s
    ensures |s - {m}| < |s|
  {
    assert s == (s - {m}) + {m};
  }

  /** Putting the least element in front of the sorted rest. */
  lemma {:induction false} ConsSorted(m: int, s: set<int>, rest: seq<int>)
    requires m in s && (forall x :: x in s ==> m <= x) && SortedOf(rest, s - {m})
    ensures SortedOf([m] + rest, s)
  {
    var r := [m] + rest;
    assert forall i :: 1 <= i < |r| ==> r[i] == rest[i - 1];
  }

  /** A priority whose operators can split `exp` (line 27). */
  predicate Applies(exp: seq<string>, ops: set<string>)
  {
    CommonOps(exp, ops) != {} && |exp| > 1
  }

  /** The first of `keys` whose operators split `exp`. */
  function FirstApplicable(exp: seq<string>, priorities: map<int, set<string>>, keys: seq<int>): (r: Option<int>)
    requires forall i :: 0 <= i < |keys| ==> keys[i] in priorities
    ensures r.Some? ==> r.value in priorities && Applies(exp, priorities[r.value])
    decreases |keys|
  {
    if keys == [] then None
    else if Applies(exp, priorities[keys[0]]) then Some(keys[0])
    else FirstApplicable(exp, priorities, keys[1..])
  }

  /** `if add_condition(sub_result)`: only non-empty results are kept (a leaf is never empty). */
  function Keep(t: Tree<string>): seq<Tree<string>>
  {
    if t.Node? && t.children == [] then [] else [t]
  }

  /** `len(result) == 1` unwraps a single result (lines 38-39). */
  function Unwrap(result: seq<Tree<string>>): Tree<string>
  {
    if |result| == 1 then result[0] else Node(result)
  }

  /** The result of `parse_exp(exp, priorities)` (lines 18-43). */
  function Parse(exp: seq<string>, priorities: map<int, set<string>>): Tree<string>
    decreases |exp|, 6
  {
    match FirstApplicable(exp, priorities, SortedKeys(priorities.Keys))
    case None => Unwrap(LeafAll(exp))
    case Some(k) => Split(exp, priorities, k)
  }

  /** The split by the priority `k` (lines 26-36) and the unwrapping of its result. */
  function Split(exp: seq<string>, priorities: map<int, set<string>>, k: int): Tree<string>
    requires k in priorities && Applies(exp, priorities[k])
    decreases |exp|, 5
  {
    Unwrap(SplitParts(exp, priorities, k))
  }

  /** The results of the parts around the chosen operator (lines 28-35). */
  function SplitParts(exp: seq<string>, priorities: map<int, set<string>>, k: int): seq<Tree<string>>
    requires k in priorities && Applies(exp, priorities[k])
    decreases |exp|, 4
  {
    var common := CommonOps(exp, priorities[k]);
    CommonOpsOccur(exp, priorities[k]);
    PartitionMeaning(exp, common);
    Collect(Partition(exp, common), priorities, |exp|)
  }

  /** The loop over the parts (lines 29-35): split the item lists again, keep the operator. */
  function Collect(parts: seq<Part<string>>, priorities: map<int, set<string>>, bound: nat): seq<Tree<string>>
    requires forall i :: 0 <= i < |parts| && parts[i].Items? ==> |parts[i].items| < bound
    decreases bound, |parts|
  {
    if parts == [] then []
    else Collect(parts[..|parts| - 1], priorities, bound) + Piece(parts[|parts| - 1], priorities, bound)
  }

  /** What one part adds to the result (lines 30-35). */
  function Piece(part: Part<string>, priorities: map<int, set<string>>, bound: nat): seq<Tree<string>>
    requires part.Items? ==> |part.items| < bound
    decreases bound, 0
  {
    match part
    case Items(xs) => Keep(Parse(xs, priorities))
    case Item(x) => [Leaf(x)]
  }

  lemma {:induction false} CollectStep(parts: seq<Part<string>>, p: nat, priorities: map<int, set<string>>, bound: nat)
    requires p < |parts|
    requires forall i :: 0 <= i < |parts| && parts[i].Items? ==> |parts[i].items| < bound
    ensures Collect(parts[..p + 1], priorities, bound) == Collect(parts[..p], priorities, bound) + Piece(parts[p], priorities, bound)
  {
    assert parts[..p + 1][..p] == parts[..p];
  }

  lemma {:induction false} FirstApplicableStep(exp: seq<string>, priorities: map<int, set<string>>, keys: seq<int>, j: nat)
    requires forall i :: 0 <= i < |keys| ==> keys[i] in priorities
    requires j < |keys|
    ensures FirstApplicable(exp, priorities, keys[j..]) ==
      if Applies(exp, priorities[keys[j]]) then Some(keys[j]) else FirstApplicable(exp, priorities, keys[j + 1..])
  {
    assert keys[j..][0] == keys[j] && keys[j..][1..] == keys[j + 1..];
  }

  lemma {:induction false} SplitUnfold(exp: seq<string>, priorities: map<int, set<string>>, k: int, common: set<string>)
    requires k in priorities && Applies(exp, priorities[k]) && common == CommonOps(exp, priorities[k])
    ensures Occurs(exp, common)
    ensures forall i :: 0 <= i < 3 && Partition(exp, common)[i].Items? ==> |Partition(exp, common)[i].items| < |exp|
    ensures SplitParts(exp, priorities, k) == Collect(Partition(exp, common), priorities, |exp|)
  {
    CommonOpsOccur(exp, priorities[k]);
    PartitionMeaning(exp, common);
  }

  lemma {:induction false} ParseUnfold(exp: seq<string>, priorities: map<int, set<string>>, keys: seq<int>)
    requires keys == SortedKeys(priorities.Keys)
    ensures FirstApplicable(exp, priorities, keys).None? ==> Parse(exp, priorities) == Unwrap(LeafAll(exp))
    ensures FirstApplicable(exp, priorities, keys).Some? ==>
      Parse(exp, priorities) == Split(exp, priorities, FirstApplicable(exp, priorities, keys).value)
  {
  }

  /** `parse_exp` (lines 18-43), with its loop over the priorities and its loop over the parts. */
  method ParseExp(exp: seq<string>, priorities: map<int, set<string>>) returns (r: Tree<string>)
    ensures r == Parse(exp, priorities)
    decreases |exp|, 4
  {
    var result := LeafAll(exp);
    var keys := SortedKeys(priorities.Keys);
    ParseUnfold(exp, priorities, keys);
    var j := 0;
    while j < |keys|
      invariant 0 <= j <= |keys|
      invariant forall i :: 0 <= i < j ==> !Applies(exp, priorities[keys[i]])
      invariant result == LeafAll(exp)
    {
      var ops := priorities[keys[j]];
      var common := CommonOps(exp, ops);
      if common != {} && |exp| > 1 {
        FirstApplicableAt(exp, priorities, keys, j);
        result := SplitBy(exp, priorities, keys[j], common);
        break;
      }
      j := j + 1;
    }
    if j == |keys| {
      FirstApplicableNone(exp, priorities, keys);
    }
    if |result| == 1 {
      return result[0];
    }
    return Node(result);
  }

  /** The body of the split (lines 28-36): partition `exp` and parse the parts one by one. */
  method SplitBy(exp: seq<string>, priorities: map<int, set<string>>, k: int, common: set<string>) returns (result: seq<Tree<string>>)
    requires k in priorities && Applies(exp, priorities[k]) && common == CommonOps(exp, priorities[k])
    ensures result == SplitParts(exp, priorities, k)
    decreases |exp|, 3
  {
    SplitUnfold(exp, priorities, k, common);
    var parts := Partition(exp, common);
    result := [];
    for p := 0 to |parts|
      invariant result == Collect(parts[..p], priorities, |exp|)
    {
      CollectStep(parts, p, priorities, |exp|);
      var piece := ParsePart(parts[p], priorities, |exp|);
      result := result + piece;
    }
    assert parts[..|parts|] == parts;
  }

  /** One pass of the loop over the parts (lines 30-35): a list is split again and kept when non-empty, an operator is kept. */
  method ParsePart(part: Part<string>, priorities: map<int, set<string>>, bound: nat) returns (piece: seq<Tree<string>>)
    requires part.Items? ==> |part.items| < bound
    ensures piece == Piece(part, priorities, bound)
    decreases bound, 2
  {
    match part
    case Items(xs) =>
      var sub := ParseExp(xs, priorities);
      if !(sub.Node? && sub.children == []) {
        piece := [sub];
      } else {
        piece := [];
      }
    case Item(x) =>
      piece := [Leaf(x)];
  }

  /** Splitting only regroups the items: reading the leaves gives `exp` back. */
  lemma {:induction false} ParseLeaves(exp: seq<string>, priorities: map<int, set<string>>)
    ensures Leaves(Parse(exp, priorities)) == exp
    decreases |exp|, 5
  {
    var keys := SortedKeys(priorities.Keys);
    ParseUnfold(exp, priorities, keys);
    match FirstApplicable(exp, priorities, keys)
    case None =>
      LeavesOfLeafAll(exp);
      if |exp| == 1 {
        LeavesOfSingle(Leaf(exp[0]));
      }
    case Some(k) =>
      SplitLeaves(exp, priorities, k);
  }

  lemma {:induction false} SplitLeaves(exp: seq<string>, priorities: map<int, set<string>>, k: int)
    requires k in priorities && Applies(exp, priorities[k])
    ensures Leaves(Split(exp, priorities, k)) == exp
    decreases |exp|, 4
  {
    var common := CommonOps(exp, priorities[k]);
    var parts := Partition(exp, common);
    CommonOpsOccur(exp, priorities[k]);
    PartitionMeaning(exp, common);
    var result := Collect(parts, priorities, |exp|);
    CollectLeaves(parts, priorities, |exp|);
    PartsTextThree(parts);
    if |result| == 1 {
      LeavesOfSingle(result[0]);
    }
  }

  lemma {:induction false} CollectLeaves(parts: seq<Part<string>>, priorities: map<int, set<string>>, bound: nat)
    requires forall i :: 0 <= i < |parts| && parts[i].Items? ==> |parts[i].items| < bound
    ensures LeavesOf(Collect(parts, priorities, bound)) == PartsText(parts)
    decreases bound, |parts|
  {
    if parts != [] {
      var init := parts[..|parts| - 1];
      var last := parts[|parts| - 1];
      CollectLeaves(init, priorities, bound);
      LeavesOfAppend(Collect(init, priorities, bound), Piece(last, priorities, bound));
      if last.Items? {
        ParseLeaves(last.items, priorities);
        var t := Parse(last.items, priorities);
        if !(t.Node? && t.children == []) {
          LeavesOfSingle(t);
        }
      } else {
        LeavesOfSingle(Leaf(last.item));
      }
    }
  }

  /** Only the lowest priority whose operators split `exp` is used. */
  lemma {:induction false} ParseFirstPriority(exp: seq<string>, priorities: map<int, set<string>>, k: int)
    requires k in priorities && Applies(exp, priorities[k])
    requires forall k' :: k' in priorities && k' < k ==> !Applies(exp, priorities[k'])
    ensures FirstApplicable(exp, priorities, SortedKeys(priorities.Keys)) == Some(k)
    ensures Parse(exp, priorities) == Split(exp, priorities, k)
  {
    var keys := SortedKeys(priorities.Keys);
    assert k in keys;
    var n :| 0 <= n < |keys| && keys[n] == k;
    forall i | 0 <= i < n ensures !Applies(exp, priorities[keys[i]]) {
      assert keys[i] < k;
    }
    FirstApplicableAt(exp, priorities, keys, n);
  }

  lemma {:induction false} FirstApplicableAt(exp: seq<string>, priorities: map<int, set<string>>, keys: seq<int>, n: nat)
    requires forall i :: 0 <= i < |keys| ==> keys[i] in priorities
    requires n < |keys| && Applies(exp, priorities[keys[n]])
    requires forall i :: 0 <= i < n ==> !Applies(exp, priorities[keys[i]])
    ensures FirstApplicable(exp, priorities, keys) == Some(keys[n])
    decreases n
  {
    if n > 0 {
      assert !Applies(exp, priorities[keys[0]]);
      FirstApplicableAt(exp, priorities, keys[1..], n - 1);
    }
  }

  /** No priority is chosen exactly when none of them splits `exp`. */
  lemma {:induction false} FirstApplicableNone(exp: seq<string>, priorities: map<int, set<string>>, keys: seq<int>)
    requires forall i :: 0 <= i < |keys| ==> keys[i] in priorities
    ensures FirstApplicable(exp, priorities, keys).None? <==> forall i :: 0 <= i < |keys| ==> !Applies(exp, priorities[keys[i]])
    decreases |keys|
  {
    if keys != [] {
      FirstApplicableNone(exp, priorities, keys[1..]);
      assert forall i :: 1 <= i < |keys| ==> keys[i] == keys[1..][i - 1];
    }
  }

  /** Without a priority that splits `exp`, a single item is returned alone and a longer list unchanged. */
  lemma {:induction false} ParseNoSplit(exp: seq<string>, priorities: map<int, set<string>>)
    requires forall k :: k in priorities ==> !Applies(exp, priorities[k])
    ensures Parse(exp, priorities) == if |exp| == 1 then Leaf(exp[0]) else Node(LeafAll(exp))
  {
    var keys := SortedKeys(priorities.Keys);
    FirstApplicableNone(exp, priorities, keys);
  }

  /** Operators are matched whatever their case: expressions that agree up to case meet the same operators. */
  lemma {:induction false} CommonOpsIgnoresCase(exp: seq<string>, exp': seq<string>, ops: set<string>)
    requires |exp| == |exp'| && forall i :: 0 <= i < |exp| ==> Lower(exp[i]) == Lower(exp'[i])
    ensures CommonOps(exp, ops) == CommonOps(exp', ops)
  {
    var a, b := CommonOps(exp, ops), CommonOps(exp', ops);
    forall o | o in a ensures o in b {
      var i :| 0 <= i < |exp| && Normalize(exp[i]) == o;
      assert Normalize(exp'[i]) == o;
    }
    forall o | o in b ensures o in a {
      var i :| 0 <= i < |exp'| && Normalize(exp'[i]) == o;
      assert Normalize(exp[i]) == o;
    }
  }
}
