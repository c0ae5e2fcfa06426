/** The mutable skew heap of shared/priority_queue.c.

    `Tree` is the shape of the heap as a value, with the node objects in it; the methods that
    overwrite `left` and `right` are proved against functions on it.  Values are
    ordered by `rank`, the exact time they are stored under.
 */
module PriorityQueues {
  import opened Basics

  /** `leq` compares values by the exact time `rank` they are stored under. */
  ghost predicate Compares<T(!new)>(leq: (T, T) -> bool, rank: T -> real) {
    forall x, y :: leq(x, y) <==> rank(x) <= rank(y)
  }

  class Node<T> {
    var value: T
    var left: Node?<T>
    var right: Node?<T>

    constructor (value: T)
      ensures this.value == value && left == null && right == null
    {
      this.value, left, right := value, null, null;
    }
  }

  // ----- Shapes -----

  datatype Tree<T> = Leaf | Branch(node: Node<T>, entry: T, left: Tree<T>, right: Tree<T>)

  ghost function Nodes<T>(t: Tree<T>): set<Node<T>> {
    if t.Leaf? then {} else {t.node} + Nodes(t.left) + Nodes(t.right)
  }

  ghost function Entries<T>(t: Tree<T>): multiset<T> {
    if t.Leaf? then multiset{} else multiset{t.entry} + Entries(t.left) + Entries(t.right)
  }

  ghost function Copies<T>(t: Tree<T>, e: T): nat {
    if t.Leaf? then 0 else Copies(t.left, e) + Copies(t.right, e) + if t.entry == e then 1 else 0
  }

  ghost function NodeCount<T>(t: Tree<T>): nat {
    if t.Leaf? then 0 else 1 + NodeCount(t.left) + NodeCount(t.right)
  }

  /** No entry comes before one above it. */
  ghost predicate Ordered<T>(rank: T -> real, t: Tree<T>) {
    t.Branch? ==>
      && Ordered(rank, t.left) && Ordered(rank, t.right)
      && (t.left.Branch? ==> rank(t.entry) <= rank(t.left.entry))
      && (t.right.Branch? ==> rank(t.entry) <= rank(t.right.entry))
  }

  /** The nodes reachable from `n` form exactly the tree `t`, without sharing or cycles. */
  ghost predicate Represents<T>(n: Node?<T>, t: Tree<T>)
    reads Nodes(t)
    decreases t
  {
    match t
    case Leaf => n == null
    case Branch(node, entry, l, r) =>
      && n == node && node.value == entry
      && node !in Nodes(l) && node !in Nodes(r) && Nodes(l) !! Nodes(r)
      && Represents(node.left, l) && Represents(node.right, r)
  }

  /** `into`: the second heap goes into the right child, then the children are exchanged. */
  ghost function Into<T>(rank: T -> real, t1: Tree<T>, t2: Tree<T>): Tree<T>
    requires t1.Branch?
    decreases NodeCount(t1) + NodeCount(t2), 0
  {
    Branch(t1.node, t1.entry, Merge(rank, t2, t1.right), t1.left)
  }

  ghost function Merge<T>(rank: T -> real, t1: Tree<T>, t2: Tree<T>): Tree<T>
    decreases NodeCount(t1) + NodeCount(t2), 1
  {
    if t1.Leaf? then t2
    else if t2.Leaf? then t1
    else if rank(t1.entry) <= rank(t2.entry) then Into(rank, t1, t2)
    else Into(rank, t2, t1)
  }

  /** How often merging calls `into`. */
  ghost function MergeCost<T>(rank: T -> real, t1: Tree<T>, t2: Tree<T>): nat
    decreases NodeCount(t1) + NodeCount(t2)
  {
    if t1.Leaf? || t2.Leaf? then 0
    else if rank(t1.entry) <= rank(t2.entry) then 1 + MergeCost(rank, t2, t1.right)
    else 1 + MergeCost(rank, t1, t2.right)
  }

  /** Merging keeps exactly the nodes of both heaps. */
  lemma {:induction false} MergeNodes<T>(rank: T -> real, t1: Tree<T>, t2: Tree<T>)
    ensures Nodes(Merge(rank, t1, t2)) == Nodes(t1) + Nodes(t2)
    decreases NodeCount(t1) + NodeCount(t2)
  {
    if t1.Branch? && t2.Branch? {
      if rank(t1.entry) <= rank(t2.entry) {
        MergeNodes(rank, t2, t1.right);
        assert Merge(rank, t1, t2) == Branch(t1.node, t1.entry, Merge(rank, t2, t1.right), t1.left);
      } else {
        MergeNodes(rank, t1, t2.right);
        assert Merge(rank, t1, t2) == Branch(t2.node, t2.entry, Merge(rank, t1, t2.right), t2.left);
      }
    }
  }

  /** Merging keeps every entry as often as it occurred. */
  lemma {:induction false} MergeCopies<T>(rank: T -> real, t1: Tree<T>, t2: Tree<T>, e: T)
    ensures Copies(Merge(rank, t1, t2), e) == Copies(t1, e) + Copies(t2, e)
    decreases NodeCount(t1) + NodeCount(t2)
  {
    if t1.Branch? && t2.Branch? {
      if rank(t1.entry) <= rank(t2.entry) {
        MergeCopies(rank, t2, t1.right, e);
      } else {
        MergeCopies(rank, t1, t2.right, e);
      }
    }
  }

  lemma {:induction false} MergeCount<T>(rank: T -> real, t1: Tree<T>, t2: Tree<T>)
    ensures NodeCount(Merge(rank, t1, t2)) == NodeCount(t1) + NodeCount(t2)
    decreases NodeCount(t1) + NodeCount(t2)
  {
    if t1.Branch? && t2.Branch? {
      if rank(t1.entry) <= rank(t2.entry) {
        MergeCount(rank, t2, t1.right);
        assert Merge(rank, t1, t2) == Branch(t1.node, t1.entry, Merge(rank, t2, t1.right), t1.left);
      } else {
        MergeCount(rank, t1, t2.right);
        assert Merge(rank, t1, t2) == Branch(t2.node, t2.entry, Merge(rank, t1, t2.right), t2.left);
      }
    }
  }

  lemma MergeRoot<T>(rank: T -> real, t1: Tree<T>, t2: Tree<T>)
    ensures var t := Merge(rank, t1, t2);
            t.Branch? ==> (t1.Branch? && t.entry == t1.entry) || (t2.Branch? && t.entry == t2.entry)
  {
  }

  /** Merging ordered heaps gives an ordered heap. */
  lemma {:induction false} MergeKeepsOrder<T>(rank: T -> real, t1: Tree<T>, t2: Tree<T>)
    requires Ordered(rank, t1) && Ordered(rank, t2)
    ensures Ordered(rank, Merge(rank, t1, t2))
    decreases NodeCount(t1) + NodeCount(t2)
  {
    if t1.Branch? && t2.Branch? {
      if rank(t1.entry) <= rank(t2.entry) {
        MergeKeepsOrder(rank, t2, t1.right);
        MergeRoot(rank, t2, t1.right);
      } else {
        MergeKeepsOrder(rank, t1, t2.right);
        MergeRoot(rank, t1, t2.right);
      }
    }
  }

  /** The root of an ordered heap is a minimum. */
  lemma {:induction false} RootIsMinimum<T>(rank: T -> real, t: Tree<T>, e: T)
    requires Ordered(rank, t) && Copies(t, e) > 0
    ensures rank(t.entry) <= rank(e)
    decreases t
  {
    if Copies(t.left, e) > 0 {
      RootIsMinimum(rank, t.left, e);
    } else if Copies(t.right, e) > 0 {
      RootIsMinimum(rank, t.right, e);
    }
  }

  ghost function Top<T>(t: Tree<T>): Option<T> {
    if t.Leaf? then None else Some(t.entry)
  }

  lemma {:induction false} CopiesAreEntries<T>(t: Tree<T>, e: T)
    ensures Entries(t)[e] == Copies(t, e)
    ensures e in Entries(t) <==> Copies(t, e) > 0
  {
    if t.Branch? {
      CopiesAreEntries(t.left, e);
      CopiesAreEntries(t.right, e);
    }
  }

  /** Inserting adds one occurrence of the value, popping takes away one of a value that no other
      precedes, and both keep the heap ordered. */
  lemma InsertAddsOne<T>(rank: T -> real, t: Tree<T>, n: Node<T>, v: T, e: T)
    requires Ordered(rank, t)
    ensures Ordered(rank, Apply(rank, InsertOp(n, v), t))
    ensures Copies(Apply(rank, InsertOp(n, v), t), e) == Copies(t, e) + if v == e then 1 else 0
  {
    var single := Branch(n, v, Leaf, Leaf);
    MergeKeepsOrder(rank, t, single);
    MergeCopies(rank, t, single, e);
  }

  /** A value goes to the top only if it is before what is there; of equal ones the first stays. */
  lemma InsertKeepsTop<T>(rank: T -> real, t: Tree<T>, n: Node<T>, v: T)
    requires t.Branch?
    ensures Top(Apply(rank, InsertOp(n, v), t)) == Some(if rank(v) < rank(t.entry) then v else t.entry)
  {
    var single := Branch(n, v, Leaf, Leaf);
    assert Merge(rank, t, single) == if rank(v) < rank(t.entry) then Into(rank, single, t) else Into(rank, t, single);
  }

  /** What is below the top comes next; of equal ones the left. */
  lemma PopPrefersLeft<T>(rank: T -> real, t: Tree<T>)
    requires t.Branch? && t.left.Branch? && t.right.Branch?
    ensures Top(Apply(rank, PopOp, t)) ==
      Some(if rank(t.right.entry) < rank(t.left.entry) then t.right.entry else t.left.entry)
  {
    var l, r := t.left, t.right;
    assert Merge(rank, l, r) == if rank(r.entry) < rank(l.entry) then Into(rank, r, l) else Into(rank, l, r);
  }

  lemma PopTakesAMinimum<T>(rank: T -> real, t: Tree<T>, e: T)
    requires t.Branch? && Ordered(rank, t)
    ensures Ordered(rank, Apply(rank, PopOp, t))
    ensures Copies(t, e) == Copies(Apply(rank, PopOp, t), e) + if t.entry == e then 1 else 0
    ensures Copies(t, e) > 0 ==> rank(t.entry) <= rank(e)
  {
    MergeKeepsOrder(rank, t.left, t.right);
    MergeCopies(rank, t.left, t.right, e);
    if Copies(t, e) > 0 { RootIsMinimum(rank, t, e); }
  }

  // ----- Amortised cost -----

  ghost predicate Heavy<T>(t: Tree<T>)
    requires t.Branch?
  {
    NodeCount(t.right) > NodeCount(t.left)
  }

  /** The number of nodes whose right subtree is the larger one. */
  ghost function Potential<T>(t: Tree<T>): nat {
    if t.Leaf? then 0 else Potential(t.left) + Potential(t.right) + if Heavy(t) then 1 else 0
  }

  /** The other nodes on the rightmost path. */
  ghost function LightPath<T>(t: Tree<T>): nat {
    if t.Leaf? then 0 else LightPath(t.right) + if Heavy(t) then 0 else 1
  }

  lemma {:induction false} LightPathIsShort<T>(t: Tree<T>)
    ensures LightPath(t) <= Log2(NodeCount(t) + 1)
    decreases t
  {
    if t.Branch? {
      LightPathIsShort(t.right);
      var n := NodeCount(t) + 1;
      if Heavy(t) {
        Log2Grows(NodeCount(t.right) + 1, n);
      } else {
        Log2Grows(NodeCount(t.right) + 1, n / 2);
      }
    }
  }

  lemma LightPathWithin<T>(t: Tree<T>, n: nat)
    requires NodeCount(t) <= n
    ensures LightPath(t) <= Log2(n + 1)
  {
    LightPathIsShort(t);
    Log2Grows(NodeCount(t) + 1, n + 1);
  }

  lemma {:induction false} MergeAmortised<T>(rank: T -> real, t1: Tree<T>, t2: Tree<T>)
    ensures MergeCost(rank, t1, t2) + Potential(Merge(rank, t1, t2))
         <= Potential(t1) + Potential(t2) + 2 * (LightPath(t1) + LightPath(t2))
    decreases NodeCount(t1) + NodeCount(t2)
  {
    if t1.Branch? && t2.Branch? {
      if rank(t1.entry) <= rank(t2.entry) {
        MergeAmortised(rank, t2, t1.right);
        MergeCount(rank, t2, t1.right);
      } else {
        MergeAmortised(rank, t1, t2.right);
        MergeCount(rank, t1, t2.right);
      }
    }
  }

  datatype Op<T> = InsertOp(node: Node<T>, entry: T) | PopOp

  ghost function Apply<T>(rank: T -> real, op: Op<T>, t: Tree<T>): Tree<T> {
    match op
    case InsertOp(n, e) => Merge(rank, t, Branch(n, e, Leaf, Leaf))
    case PopOp => if t.Leaf? then Leaf else Merge(rank, t.left, t.right)
  }

  ghost function OpCost<T>(rank: T -> real, op: Op<T>, t: Tree<T>): nat {
    match op
    case InsertOp(n, e) => MergeCost(rank, t, Branch(n, e, Leaf, Leaf))
    case PopOp => if t.Leaf? then 0 else MergeCost(rank, t.left, t.right)
  }

  ghost function TotalCost<T>(rank: T -> real, ops: seq<Op<T>>, t: Tree<T>): nat {
    if ops == [] then 0 else OpCost(rank, ops[0], t) + TotalCost(rank, ops[1..], Apply(rank, ops[0], t))
  }

  lemma MergeWithin<T>(rank: T -> real, t1: Tree<T>, t2: Tree<T>, n: nat)
    requires NodeCount(t1) <= n && NodeCount(t2) <= n && n > 0
    ensures MergeCost(rank, t1, t2) + Potential(Merge(rank, t1, t2)) <= Potential(t1) + Potential(t2) + 4 * Log2(n + 1)
  {
    MergeAmortised(rank, t1, t2);
    LightPathWithin(t1, n);
    LightPathWithin(t2, n);
  }

  lemma OpAmortised<T>(rank: T -> real, op: Op<T>, t: Tree<T>, n: nat)
    requires NodeCount(t) < n
    ensures OpCost(rank, op, t) + Potential(Apply(rank, op, t)) <= Potential(t) + 4 * Log2(n + 1)
    ensures NodeCount(Apply(rank, op, t)) <= NodeCount(t) + 1
  {
    match op
    case InsertOp(x, e) =>
      var single := Branch(x, e, Leaf, Leaf);
      MergeWithin(rank, t, single, n);
      MergeCount(rank, t, single);
    case PopOp =>
      if t.Branch? {
        MergeWithin(rank, t.left, t.right, n);
        MergeCount(rank, t.left, t.right);
      }
  }

  lemma {:induction false} RunAmortised<T>(rank: T -> real, ops: seq<Op<T>>, t: Tree<T>, n: nat)
    requires NodeCount(t) + |ops| <= n
    ensures TotalCost(rank, ops, t) <= Potential(t) + |ops| * (4 * Log2(n + 1))
    decreases |ops|
  {
    if ops != [] {
      OpAmortised(rank, ops[0], t, n);
      RunAmortised(rank, ops[1..], Apply(rank, ops[0], t), n);
      OneMore(|ops|, 4 * Log2(n + 1));
    }
  }

  lemma OneMore(k: nat, c: nat)
    requires k > 0
    ensures k * c == c + (k - 1) * c
  {
  }

  /** Any m inserts and pops from the empty heap call `into` at most 4 m log2(m+1) times. */
  lemma AmortisedBound<T>(rank: T -> real, ops: seq<Op<T>>)
    ensures TotalCost(rank, ops, Leaf) <= |ops| * (4 * Log2(|ops| + 1))
  {
    RunAmortised(rank, ops, Leaf, |ops|);
  }

  // ----- The mutable heap -----

  /** What makes `Represents` keep across calls that change other nodes. */
  lemma {:induction false} NodesAreAllocated<T>(t: Tree<T>)
    ensures forall o :: o in Nodes(t) ==> allocated(o)
  {
    if t.Branch? {
      NodesAreAllocated(t.left);
      NodesAreAllocated(t.right);
    }
  }

  method InPlaceInto<T(!new)>(leq: (T, T) -> bool, ghost rank: T -> real, node1: Node<T>, node2: Node?<T>,
                       ghost t1: Tree<T>, ghost t2: Tree<T>) returns (r: Node<T>, ghost calls: nat)
    requires Compares(leq, rank)
    requires t1.Branch? && Represents(node1, t1) && Represents(node2, t2) && Nodes(t1) !! Nodes(t2)
    modifies Nodes(t1) + Nodes(t2)
    ensures Represents(r, Into(rank, t1, t2)) && r == node1
    ensures calls == 1 + MergeCost(rank, t2, t1.right)
    decreases NodeCount(t1) + NodeCount(t2), 0
  {
    var tmp := node1.left;
    var l;
    assert Represents(tmp, t1.left);
    NodesAreAllocated(t1.left);
    l, calls := InPlaceMerge(leq, rank, node2, node1.right, t2, t1.right);
    MergeNodes(rank, t2, t1.right);
    assert Represents(tmp, t1.left);
    ghost var merged := Merge(rank, t2, t1.right);
    assert Represents(l, merged) && node1 !in Nodes(merged) && node1 !in Nodes(t1.left);
    node1.left := l;
    node1.right := tmp;
    assert Represents(tmp, t1.left);
    assert Represents(l, merged);
    r := node1;
    calls := calls + 1;
  }

  method InPlaceMerge<T(!new)>(leq: (T, T) -> bool, ghost rank: T -> real, node1: Node?<T>, node2: Node?<T>,
                        ghost t1: Tree<T>, ghost t2: Tree<T>) returns (r: Node?<T>, ghost calls: nat)
    requires Compares(leq, rank)
    requires Represents(node1, t1) && Represents(node2, t2) && Nodes(t1) !! Nodes(t2)
    modifies Nodes(t1) + Nodes(t2)
    ensures Represents(r, Merge(rank, t1, t2))
    ensures calls == MergeCost(rank, t1, t2)
    decreases NodeCount(t1) + NodeCount(t2), 1
  {
    if node1 == null {
      return node2, 0;
    } else if node2 == null {
      return node1, 0;
    } else if leq(node1.value, node2.value) {
      r, calls := InPlaceInto(leq, rank, node1, node2, t1, t2);
    } else {
      r, calls := InPlaceInto(leq, rank, node2, node1, t2, t1);
    }
  }

  lemma PopKeepsOrder<T>(rank: T -> real, t: Tree<T>)
    requires Ordered(rank, t)
    ensures Ordered(rank, Apply(rank, PopOp, t))
  {
    if t.Branch? { MergeKeepsOrder(rank, t.left, t.right); }
  }

  method PopRoot<T(!new)>(leq: (T, T) -> bool, ghost rank: T -> real, head: Node?<T>, ghost t: Tree<T>)
    returns (r: Node?<T>, ghost calls: nat)
    requires Compares(leq, rank) && Represents(head, t)
    modifies Nodes(t)
    ensures Represents(r, Apply(rank, PopOp, t))
    ensures calls == OpCost(rank, PopOp, t)
    ensures Nodes(Apply(rank, PopOp, t)) == (if t.Leaf? then {} else Nodes(t) - {t.node})
  {
    if head == null {
      r, calls := null, 0;
    } else {
      MergeNodes(rank, t.left, t.right);
      r, calls := InPlaceMerge(leq, rank, head.left, head.right, t.left, t.right);
    }
  }

  class PriorityQueue<T(!new)> {
    const leq: (T, T) -> bool
    ghost const rank: T -> real
    var node: Node?<T>
    ghost var tree: Tree<T>

    ghost predicate Valid()
      reads this, Nodes(tree)
    {
      Compares(leq, rank) && Represents(node, tree) && Ordered(rank, tree)
    }

    constructor (leq: (T, T) -> bool, ghost rank: T -> real)
      requires Compares(leq, rank)
      ensures Valid() && tree == Leaf && this.rank == rank
    {
      this.leq, this.rank, node, tree := leq, rank, null, Leaf;
    }

    method Insert(value: T) returns (ghost n: Node<T>, ghost calls: nat)
      requires Valid()
      modifies this, Nodes(tree)
      ensures Valid()
      ensures fresh(n) && tree == Apply(rank, InsertOp(n, value), old(tree))
      ensures calls == OpCost(rank, InsertOp(n, value), old(tree))
      ensures Nodes(tree) == old(Nodes(tree)) + {n}
    {
      NodesAreAllocated(tree);
      var single := new Node<T>(value);
      ghost var t := Branch(single, value, Leaf, Leaf);
      MergeNodes(rank, tree, t);
      MergeKeepsOrder(rank, tree, t);
      node, calls := InPlaceMerge(leq, rank, node, single, tree, t);
      tree := Merge(rank, tree, t);
      n := single;
    }

    function Peek(): (top: Option<T>)
      requires Valid()
      reads this, Nodes(tree)
      ensures top == Top(tree)
    {
      if node == null then None else Some(node.value)
    }

    /** The node that the code deletes is the old root, to which nothing leads any more. */
    method Pop() returns (top: Option<T>, ghost calls: nat)
      requires Valid()
      modifies this, Nodes(tree)
      ensures Valid() && tree == Apply(rank, PopOp, old(tree))
      ensures Nodes(tree) == old(if tree.Leaf? then {} else Nodes(tree) - {tree.node})
      ensures top == Top(old(tree))
      ensures calls == OpCost(rank, PopOp, old(tree))
    {
      top := if node == null then None else Some(node.value);
      PopKeepsOrder(rank, tree);
      node, calls := PopRoot(leq, rank, node, tree);
      tree := Apply(rank, PopOp, tree);
    }
  }
}
