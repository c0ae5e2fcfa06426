/** What `run_actions` of shared/signal.c does to the heap over a whole run, for any order `rank`
    of the stored values and any sample index `at` that never decreases along it.
 */
module Schedule {
  import opened Basics
  import opened PriorityQueues

  /** The values taken at sample `now`, in order: the top is popped while it is due. */
  ghost function Taken<T>(rank: T -> real, at: T -> int, t: Tree<T>, now: nat): seq<T>
    decreases NodeCount(t)
  {
    if t.Leaf? || at(t.entry) > now then []
    else
      PopShrinks(rank, t);
      [t.entry] + Taken(rank, at, Apply(rank, PopOp, t), now)
  }

  /** The heap that remains. */
  ghost function Left<T>(rank: T -> real, at: T -> int, t: Tree<T>, now: nat): Tree<T>
    decreases NodeCount(t)
  {
    if t.Leaf? || at(t.entry) > now then t
    else
      PopShrinks(rank, t);
      Left(rank, at, Apply(rank, PopOp, t), now)
  }

  lemma PopShrinks<T>(rank: T -> real, t: Tree<T>)
    requires t.Branch?
    ensures NodeCount(Apply(rank, PopOp, t)) < NodeCount(t)
  {
    MergeCount(rank, t.left, t.right);
  }

  /** Values with a smaller rank never get a later sample. */
  ghost predicate Monotone<T(!new)>(rank: T -> real, at: T -> int) {
    forall x, y {:trigger at(x), at(y)} :: rank(x) <= rank(y) ==> at(x) <= at(y)
  }

  /** One drain takes every copy of a due value and leaves every copy of the others. */
  lemma {:induction false} DrainTakesTheDue<T(!new)>(rank: T -> real, at: T -> int, t: Tree<T>, now: nat, e: T)
    requires Monotone(rank, at) && Ordered(rank, t)
    ensures multiset(Taken(rank, at, t, now))[e] == if at(e) <= now then Copies(t, e) else 0
    ensures Copies(Left(rank, at, t, now), e) == if at(e) <= now then 0 else Copies(t, e)
    decreases NodeCount(t)
  {
    if t.Leaf? {
    } else if at(t.entry) > now {
      PopTakesAMinimum(rank, t, e);
    } else {
      var rest := Apply(rank, PopOp, t);
      PopShrinks(rank, t);
      PopTakesAMinimum(rank, t, e);
      DrainTakesTheDue(rank, at, rest, now, e);
      var tail := Taken(rank, at, rest, now);
      assert multiset([t.entry] + tail)[e] == multiset([t.entry])[e] + multiset(tail)[e];
    }
  }

  lemma {:induction false} DrainKeepsOrder<T>(rank: T -> real, at: T -> int, t: Tree<T>, now: nat)
    requires Ordered(rank, t)
    ensures Ordered(rank, Left(rank, at, t, now))
    decreases NodeCount(t)
  {
    if t.Branch? && at(t.entry) <= now {
      PopShrinks(rank, t);
      PopKeepsOrder(rank, t);
      DrainKeepsOrder(rank, at, Apply(rank, PopOp, t), now);
    }
  }

  /** No value of `s` is ranked outside the two heaps' roots. */
  ghost predicate Between<T>(rank: T -> real, t: Tree<T>, s: seq<T>, t': Tree<T>) {
    && (|s| > 0 ==> t.Branch?)
    && (t.Branch? ==> forall i :: 0 <= i < |s| ==> rank(t.entry) <= rank(s[i]))
    && (t'.Branch? ==> forall i :: 0 <= i < |s| ==> rank(s[i]) <= rank(t'.entry))
    && (t'.Branch? ==> t.Branch? && rank(t.entry) <= rank(t'.entry))
  }

  lemma {:induction false} DrainIsSorted<T>(rank: T -> real, at: T -> int, t: Tree<T>, now: nat)
    requires Ordered(rank, t)
    ensures Sorted(rank, Taken(rank, at, t, now)) && Between(rank, t, Taken(rank, at, t, now), Left(rank, at, t, now))
    decreases NodeCount(t)
  {
    if t.Branch? && at(t.entry) <= now {
      PopShrinks(rank, t);
      PopKeepsOrder(rank, t);
      MergeRoot(rank, t.left, t.right);
      DrainIsSorted(rank, at, Apply(rank, PopOp, t), now);
    }
  }

  lemma SortedFurther<T>(rank: T -> real, t: Tree<T>, log: seq<T>, h: Tree<T>, taken: seq<T>, h': Tree<T>, z: seq<T>)
    requires Sorted(rank, log) && Between(rank, t, log, h)
    requires Sorted(rank, taken) && Between(rank, h, taken, h')
    requires z == log + taken
    ensures Sorted(rank, z) && Between(rank, t, z, h')
  {
    forall i | 0 <= i < |z| && t.Branch? ensures rank(t.entry) <= rank(z[i]) {
      if i < |log| { assert z[i] == log[i]; } else { assert z[i] == taken[i - |log|]; }
    }
    forall i | 0 <= i < |z| && h'.Branch? ensures rank(z[i]) <= rank(h'.entry) {
      if i < |log| { assert z[i] == log[i]; } else { assert z[i] == taken[i - |log|]; }
    }
    forall i, j | 0 <= i < j < |z| ensures rank(z[i]) <= rank(z[j]) {
      if j < |log| {
        assert z[i] == log[i] && z[j] == log[j];
      } else if i < |log| {
        assert z[i] == log[i] && z[j] == taken[j - |log|];
      } else {
        assert z[i] == taken[i - |log|] && z[j] == taken[j - |log|];
      }
    }
  }

  // ----- Putting values in -----

  /** The heap after `es` have been inserted one after the other, in the nodes `ns`. */
  ghost function Inserted<T>(rank: T -> real, t: Tree<T>, ns: seq<Node<T>>, es: seq<T>): Tree<T>
    requires |ns| == |es|
  {
    if es == [] then t
    else
      var k := |es| - 1;
      Apply(rank, InsertOp(ns[k], es[k]), Inserted(rank, t, ns[..k], es[..k]))
  }

  lemma InsertedOneMore<T>(rank: T -> real, t: Tree<T>, ns: seq<Node<T>>, n: Node<T>, es: seq<T>, i: nat)
    requires |ns| == i < |es|
    ensures Inserted(rank, t, ns + [n], es[..i + 1]) ==
      Apply(rank, InsertOp(n, es[i]), Inserted(rank, t, ns, es[..i]))
  {
    assert (ns + [n])[..i] == ns && es[..i + 1][..i] == es[..i];
  }

  lemma {:induction false} InsertedCopies<T>(rank: T -> real, t: Tree<T>, ns: seq<Node<T>>, es: seq<T>, e: T)
    requires |ns| == |es| && Ordered(rank, t)
    ensures Ordered(rank, Inserted(rank, t, ns, es))
    ensures Copies(Inserted(rank, t, ns, es), e) == Copies(t, e) + multiset(es)[e]
    decreases |es|
  {
    if es != [] {
      var k := |es| - 1;
      InsertedCopies(rank, t, ns[..k], es[..k], e);
      InsertAddsOne(rank, Inserted(rank, t, ns[..k], es[..k]), ns[k], es[k], e);
      assert es == es[..k] + [es[k]];
    }
  }

  // ----- The whole run -----

  /** The heap before sample `n`, drained once at each earlier sample. */
  ghost function HeapAt<T>(rank: T -> real, at: T -> int, t: Tree<T>, n: nat): Tree<T> {
    if n == 0 then t else Left(rank, at, HeapAt(rank, at, t, n - 1), n - 1)
  }

  ghost function TakenAt<T>(rank: T -> real, at: T -> int, t: Tree<T>, k: nat): seq<T> {
    Taken(rank, at, HeapAt(rank, at, t, k), k)
  }

  /** Everything taken before sample `n`, in order of execution. */
  ghost function Log<T>(rank: T -> real, at: T -> int, t: Tree<T>, n: nat): seq<T> {
    if n == 0 then [] else Log(rank, at, t, n - 1) + TakenAt(rank, at, t, n - 1)
  }

  /** The sample a value is due at: its index, or 0 if that is negative. */
  function Due<T>(at: T -> int, e: T): nat { if at(e) < 0 then 0 else at(e) }

  lemma {:induction false} HeapAtIsOrdered<T>(rank: T -> real, at: T -> int, t: Tree<T>, n: nat)
    requires Ordered(rank, t)
    ensures Ordered(rank, HeapAt(rank, at, t, n))
  {
    if n > 0 {
      HeapAtIsOrdered(rank, at, t, n - 1);
      DrainKeepsOrder(rank, at, HeapAt(rank, at, t, n - 1), n - 1);
    }
  }

  lemma {:induction false} HeapAtHoldsTheRest<T(!new)>(rank: T -> real, at: T -> int, t: Tree<T>, n: nat, e: T)
    requires Monotone(rank, at) && Ordered(rank, t)
    ensures Copies(HeapAt(rank, at, t, n), e) == if Due(at, e) >= n then Copies(t, e) else 0
  {
    if n > 0 {
      HeapAtHoldsTheRest(rank, at, t, n - 1, e);
      HeapAtIsOrdered(rank, at, t, n - 1);
      DrainTakesTheDue(rank, at, HeapAt(rank, at, t, n - 1), n - 1, e);
    }
  }

  /** Whole-run scheduling: a value is taken at the sample it is due, as often as it was scheduled,
      and at no other; what is due later is still in the heap. */
  lemma EachAtItsSample<T(!new)>(rank: T -> real, at: T -> int, t: Tree<T>, k: nat, e: T)
    requires Monotone(rank, at) && Ordered(rank, t)
    ensures multiset(TakenAt(rank, at, t, k))[e] == if Due(at, e) == k then Entries(t)[e] else 0
    ensures Entries(HeapAt(rank, at, t, k))[e] == if Due(at, e) >= k then Entries(t)[e] else 0
  {
    var h := HeapAt(rank, at, t, k);
    HeapAtHoldsTheRest(rank, at, t, k, e);
    HeapAtIsOrdered(rank, at, t, k);
    DrainTakesTheDue(rank, at, h, k, e);
    CopiesAreEntries(t, e);
    CopiesAreEntries(h, e);
  }

  /** Values are taken in nondecreasing order of rank over the whole run. */
  lemma {:induction false} RunIsSorted<T>(rank: T -> real, at: T -> int, t: Tree<T>, n: nat)
    requires Ordered(rank, t)
    ensures Sorted(rank, Log(rank, at, t, n)) && Between(rank, t, Log(rank, at, t, n), HeapAt(rank, at, t, n))
  {
    if n > 0 {
      RunIsSorted(rank, at, t, n - 1);
      HeapAtIsOrdered(rank, at, t, n - 1);
      var h := HeapAt(rank, at, t, n - 1);
      DrainIsSorted(rank, at, h, n - 1);
      SortedFurther(rank, t, Log(rank, at, t, n - 1), h, TakenAt(rank, at, t, n - 1), HeapAt(rank, at, t, n),
          Log(rank, at, t, n));
    }
  }
}
