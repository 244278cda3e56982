/**
 * The nested lists the expression splitters of sqf/parse_exp.py and
 * core/parse_exp.py produce: a leaf is one item of the expression, a node
 * a (sub-)list of results.  Both split an expression into the same three
 * parts (`Part`) first.
 */
module ExpTree {

  datatype Tree<T> = Leaf(item: T) | Node(children: seq<Tree<T>>)

  /** The items of a tree, left to right. */
  function Leaves<T>(t: Tree<T>): seq<T>
    decreases t, 1
  {
    match t
    case Leaf(x) => [x]
    case Node(cs) => LeavesOf(cs)
  }

  /** The items of a list of trees, left to right. */
  function LeavesOf<T>(ts: seq<Tree<T>>): seq<T>
    decreases ts, 0
  {
    if ts == [] then [] else Leaves(ts[0]) + LeavesOf(ts[1..])
  }

  /** One leaf per item. */
  function LeafAll<T>(xs: seq<T>): (r: seq<Tree<T>>)
    ensures |r| == |xs|
    ensures forall i :: 0 <= i < |xs| ==> r[i] == Leaf(xs[i])
  {
    seq(|xs|, i requires 0 <= i < |xs| => Leaf(xs[i]))
  }

  lemma {:induction false} LeavesOfAppend<T>(a: seq<Tree<T>>, b: seq<Tree<T>>)
    ensures LeavesOf(a + b) == LeavesOf(a) + LeavesOf(b)
    decreases |a|
  {
    if a != [] {
      var ab := a + b;
      assert ab != [] && ab[0] == a[0] && ab[1..] == a[1..] + b;
      LeavesOfAppend(a[1..], b);
      assert LeavesOf(ab) == Leaves(a[0]) + (LeavesOf(a[1..]) + LeavesOf(b));
    } else {
      assert a + b == b;
    }
  }

  lemma {:induction false} LeavesOfLeafAll<T>(xs: seq<T>)
    ensures LeavesOf(LeafAll(xs)) == xs
    decreases |xs|
  {
    if xs != [] {
      assert LeafAll(xs)[1..] == LeafAll(xs[1..]);
      LeavesOfLeafAll(xs[1..]);
    }
  }

  lemma {:induction false} LeavesOfSingle<T>(t: Tree<T>)
    ensures LeavesOf([t]) == Leaves(t)
  {
    assert [t][1..] == [];
  }

  /** What `partition` yields: the items before, the operator, the items after. */
  datatype Part<T> = Items(items: seq<T>) | Item(item: T)

  /** The items the parts stand for, left to right. */
  function PartsText<T>(parts: seq<Part<T>>): seq<T>
  {
    if parts == [] then []
    else PartsText(parts[..|parts| - 1]) + (match parts[|parts| - 1] case Items(xs) => xs case Item(x) => [x])
  }

  /** Three parts stand for the items of each, in order. */
  lemma {:induction false} PartsTextThree<T>(r: seq<Part<T>>)
    requires |r| == 3
    ensures PartsText(r) == PartsText([r[0]]) + PartsText([r[1]]) + PartsText([r[2]])
  {
    var r1, r2 := r[..1], r[..2];
    assert r1 == [r[0]] && r2[..1] == r1 && r2 == r[..|r| - 1] && r1[..0] == [];
    assert [r[1]][..0] == [] && [r[2]][..0] == [];
  }
}
