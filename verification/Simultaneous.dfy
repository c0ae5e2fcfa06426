/** What happens to values of one rank that have been put into the heap of shared/priority_queue.c one after the other:
    the first comes out first, and then the others, the last of them first.
 */
module Simultaneous {
  import opened Basics
  import opened PriorityQueues
  import opened Schedule

  /** A heap in which every node has at most a left child. */
  ghost predicate Chain<T>(t: Tree<T>, s: seq<T>) {
    if s == [] then t.Leaf? else t.Branch? && t.entry == s[0] && t.right.Leaf? && Chain(t.left, s[1..])
  }

  /** A value above two chains. */
  ghost predicate Forked<T>(t: Tree<T>, x: T, a: seq<T>, b: seq<T>) {
    t.Branch? && t.entry == x && Chain(t.left, a) && Chain(t.right, b)
  }

  /** The values of two chains in turn. */
  function InTurn<T>(a: seq<T>, b: seq<T>): (s: seq<T>)
    ensures |s| == |a| + |b|
    decreases |a| + |b|
  {
    if a == [] then b else [a[0]] + InTurn(b, a[1..])
  }

  ghost predicate OneRank<T>(rank: T -> real, v: real, s: seq<T>) { forall k :: 0 <= k < |s| ==> rank(s[k]) == v }

  lemma OneRankOfFirst<T>(rank: T -> real, v: real, x: T, s: seq<T>)
    ensures OneRank(rank, v, [x] + s) <==> rank(x) == v && OneRank(rank, v, s)
  {
    var t := [x] + s;
    assert t[0] == x;
    if OneRank(rank, v, t) {
      forall k | 0 <= k < |s| ensures rank(s[k]) == v { assert s[k] == t[k + 1]; }
    }
  }

  lemma {:induction false} OneRankInTurn<T>(rank: T -> real, v: real, a: seq<T>, b: seq<T>)
    ensures OneRank(rank, v, InTurn(a, b)) <==> OneRank(rank, v, a) && OneRank(rank, v, b)
    decreases |a| + |b|
  {
    if a != [] {
      OneRankInTurn(rank, v, b, a[1..]);
      OneRankOfFirst(rank, v, a[0], a[1..]);
      OneRankOfFirst(rank, v, a[0], InTurn(b, a[1..]));
      assert a == [a[0]] + a[1..];
    }
  }

  lemma NothingInTurn<T>(a: seq<T>)
    ensures InTurn(a, []) == a
  {
  }

  /** A new value goes above the right chain, and the chains change places. */
  lemma InsertForks<T>(rank: T -> real, v: real, t: Tree<T>, x: T, a: seq<T>, b: seq<T>, n: Node<T>, e: T)
    requires Forked(t, x, a, b) && rank(x) == v && rank(e) == v && OneRank(rank, v, b)
    ensures Forked(Apply(rank, InsertOp(n, e), t), x, [e] + b, a)
  {
    var single := Branch(n, e, Leaf, Leaf);
    assert Merge(rank, t, single) == Branch(t.node, x, Merge(rank, single, t.right), t.left);
    if t.right.Branch? { assert rank(t.right.entry) == rank(b[0]) == v && Merge(rank, t.right, Leaf) == t.right; }
    assert t.right.Branch? ==> Merge(rank, single, t.right) == Branch(n, e, t.right, Leaf);
    assert ([e] + b)[1..] == b;
  }

  lemma PopForks<T>(rank: T -> real, v: real, t: Tree<T>, x: T, a: seq<T>, b: seq<T>) returns (a': seq<T>, b': seq<T>)
    requires Forked(t, x, a, b) && OneRank(rank, v, a) && OneRank(rank, v, b) && InTurn(a, b) != []
    ensures Forked(Apply(rank, PopOp, t), InTurn(a, b)[0], a', b') && InTurn(a', b') == InTurn(a, b)[1..]
  {
    if a == [] || b == [] {
      var c := if a == [] then b else a;
      a', b' := c[1..], [];
      NothingInTurn(c);
      NothingInTurn(c[1..]);
    } else {
      a', b' := b, a[1..];
      assert rank(t.left.entry) == rank(a[0]) == rank(b[0]) == rank(t.right.entry);
      assert Merge(rank, t.left, t.right) == Branch(t.left.node, a[0], Merge(rank, t.right, Leaf), t.left.left);
    }
  }

  lemma LastIsFirst<T>(es: seq<T>, k: nat)
    requires |es| == k + 1 && k > 0
    ensures Reversed(es[1..]) == [es[k]] + Reversed(es[..k][1..])
  {
    assert es[1..] == es[..k][1..] + [es[k]];
    ReversedJoins(es[..k][1..], [es[k]]);
    assert Reversed([es[k]]) == [es[k]];
  }

  /** After values of one rank have been put in, the first is on the top and the others are below, the last first. */
  lemma {:induction false} InsertedForks<T>(rank: T -> real, v: real, ns: seq<Node<T>>, es: seq<T>)
    returns (a: seq<T>, b: seq<T>)
    requires |ns| == |es| > 0 && OneRank(rank, v, es)
    ensures Forked(Inserted(rank, Leaf, ns, es), es[0], a, b) && InTurn(a, b) == Reversed(es[1..])
    ensures OneRank(rank, v, a) && OneRank(rank, v, b)
    decreases |es|
  {
    var k := |es| - 1;
    if k == 0 {
      a, b := [], [];
      assert Inserted(rank, Leaf, ns[..0], es[..0]) == Leaf;
    } else {
      var l, r := InsertedForks(rank, v, ns[..k], es[..k]);
      InsertForks(rank, v, Inserted(rank, Leaf, ns[..k], es[..k]), es[0], l, r, ns[k], es[k]);
      LastIsFirst(es, k);
      a, b := [es[k]] + r, l;
      assert a[1..] == r;
    }
  }

  // ----- Taking them out -----

  lemma {:induction false} DrainForked<T>(rank: T -> real, at: T -> int, v: real, t: Tree<T>, x: T, a: seq<T>,
                                          b: seq<T>, now: nat)
    requires Forked(t, x, a, b) && OneRank(rank, v, a) && OneRank(rank, v, b) && at(x) <= now
    requires forall e :: e in InTurn(a, b) ==> at(e) <= now
    ensures Taken(rank, at, t, now) == [x] + InTurn(a, b)
    decreases |a| + |b|
  {
    var s, rest := InTurn(a, b), Apply(rank, PopOp, t);
    PopShrinks(rank, t);
    if s == [] {
      assert a == [] && b == [] && rest.Leaf?;
    } else {
      var a', b' := PopForks(rank, v, t, x, a, b);
      OneRankInTurn(rank, v, a, b);
      OneRankInTurn(rank, v, a', b');
      assert s == [s[0]] + InTurn(a', b');
      DrainForked(rank, at, v, rest, s[0], a', b', now);
    }
  }

  lemma {:induction false} NothingBefore<T>(rank: T -> real, at: T -> int, t: Tree<T>, k: nat)
    requires t.Branch? && k <= at(t.entry)
    ensures HeapAt(rank, at, t, k) == t
  {
    if k > 0 { NothingBefore(rank, at, t, k - 1); }
  }

  lemma {:induction false} InReversed<T>(s: seq<T>, e: T)
    ensures e in Reversed(s) <==> e in s
  {
    if s != [] { InReversed(s[1..], e); }
  }

  /** Values of one rank, and so of one sample, that were put into an empty heap are taken at that sample: first the
      first, and then the others in reverse. */
  lemma FirstThenReversed<T(!new)>(rank: T -> real, at: T -> int, ns: seq<Node<T>>, es: seq<T>)
    requires Monotone(rank, at) && |ns| == |es| > 0 && OneRank(rank, rank(es[0]), es)
    ensures TakenAt(rank, at, Inserted(rank, Leaf, ns, es), Due(at, es[0])) == [es[0]] + Reversed(es[1..])
  {
    var t, now := Inserted(rank, Leaf, ns, es), Due(at, es[0]);
    var a, b := InsertedForks(rank, rank(es[0]), ns, es);
    if at(es[0]) >= 0 { NothingBefore(rank, at, t, now); }
    forall e | e in InTurn(a, b) ensures at(e) <= now {
      InReversed(es[1..], e);
    }
    DrainForked(rank, at, rank(es[0]), t, es[0], a, b, now);
  }
}
