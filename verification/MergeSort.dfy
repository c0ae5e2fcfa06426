/** What dmerge_sort of shared/list.c computes: always a sorted permutation of its argument. */
module MergeSort {
  import opened Basics

  /** Takes the second list's head on a tie. */
  function Merged<T>(rank: T -> real, s: seq<T>, t: seq<T>): seq<T>
    decreases |s| + |t|
  {
    if s == [] then t
    else if t == [] then s
    else if rank(s[0]) < rank(t[0]) then [s[0]] + Merged(rank, s[1..], t)
    else [t[0]] + Merged(rank, s, t[1..])
  }

  /** Moving the head that comes first behind what is merged already changes nothing. */
  lemma MergedGoesOn<T>(rank: T -> real, made: seq<T>, s: seq<T>, t: seq<T>)
    requires s != [] && t != []
    ensures rank(s[0]) < rank(t[0]) ==>
      made + Merged(rank, s, t) == (made + [s[0]]) + Merged(rank, s[1..], t)
    ensures !(rank(s[0]) < rank(t[0])) ==>
      made + Merged(rank, s, t) == (made + [t[0]]) + Merged(rank, s, t[1..])
  {
  }

  /** Halves that are in order already are appended. */
  function Glued<T>(rank: T -> real, s: seq<T>, t: seq<T>): seq<T>
    requires s != [] && t != []
  {
    if rank(s[|s| - 1]) < rank(t[0]) then s + t else Merged(rank, s, t)
  }

  lemma {:induction false} MergedLength<T>(rank: T -> real, s: seq<T>, t: seq<T>)
    ensures |Merged(rank, s, t)| == |s| + |t|
    decreases |s| + |t|
  {
    if s != [] && t != [] {
      if rank(s[0]) < rank(t[0]) { MergedLength(rank, s[1..], t); } else { MergedLength(rank, s, t[1..]); }
    }
  }

  function Sort<T>(rank: T -> real, s: seq<T>): (r: seq<T>)
    ensures |r| == |s|
    decreases |s|
  {
    if |s| <= 1 then s
    else
      var mid := |s| / 2;
      var left, right := Sort(rank, s[..mid]), Sort(rank, s[mid..]);
      MergedLength(rank, left, right);
      Glued(rank, left, right)
  }

  // ----- How many lists are left over -----

  /** How many heads are moved before one of the lists ends; each time the list that is cut is left over. */
  function Rounds<T>(rank: T -> real, s: seq<T>, t: seq<T>): nat
    decreases |s| + |t|
  {
    if s == [] || t == [] then 0
    else if rank(s[0]) < rank(t[0]) then 1 + Rounds(rank, s[1..], t)
    else 1 + Rounds(rank, s, t[1..])
  }

  /** Besides, what was merged before the rest is appended to it. */
  function MergeLeaks<T>(rank: T -> real, s: seq<T>, t: seq<T>): nat {
    Rounds(rank, s, t) + if s == [] && t == [] then 0 else 1
  }

  /** Appending leaves nothing over. */
  function GlueLeaks<T>(rank: T -> real, s: seq<T>, t: seq<T>): nat
    requires s != [] && t != []
  {
    if rank(s[|s| - 1]) < rank(t[0]) then 0 else MergeLeaks(rank, s, t)
  }

  function SortLeaks<T>(rank: T -> real, s: seq<T>): nat
    decreases |s|
  {
    if |s| <= 1 then 0
    else
      var left, right := s[..|s| / 2], s[|s| / 2..];
      SortLeaks(rank, left) + SortLeaks(rank, right) + GlueLeaks(rank, Sort(rank, left), Sort(rank, right))
  }

  lemma MultisetOfAppend<T>(s: seq<T>, t: seq<T>)
    ensures multiset(s + t) == multiset(s) + multiset(t)
  {
  }

  lemma MultisetOfHead<T>(s: seq<T>)
    requires s != []
    ensures multiset(s) == multiset([s[0]]) + multiset(s[1..])
  {
    MultisetOfAppend([s[0]], s[1..]);
    assert s == [s[0]] + s[1..];
  }

  lemma {:induction false} MergedIsPermutation<T>(rank: T -> real, s: seq<T>, t: seq<T>)
    ensures multiset(Merged(rank, s, t)) == multiset(s) + multiset(t)
    decreases |s| + |t|
  {
    if s == [] || t == [] {
    } else if rank(s[0]) < rank(t[0]) {
      MergedIsPermutation(rank, s[1..], t);
      MultisetOfAppend([s[0]], Merged(rank, s[1..], t));
      MultisetOfHead(s);
    } else {
      MergedIsPermutation(rank, s, t[1..]);
      MultisetOfAppend([t[0]], Merged(rank, s, t[1..]));
      MultisetOfHead(t);
    }
  }

  lemma GluedIsPermutation<T>(rank: T -> real, s: seq<T>, t: seq<T>)
    requires s != [] && t != []
    ensures multiset(Glued(rank, s, t)) == multiset(s) + multiset(t)
  {
    MergedIsPermutation(rank, s, t);
    MultisetOfAppend(s, t);
  }

  lemma SortOfHalves<T>(rank: T -> real, s: seq<T>)
    requires |s| > 1
    ensures Sort(rank, s) == Glued(rank, Sort(rank, s[..|s| / 2]), Sort(rank, s[|s| / 2..]))
  {
  }

  lemma HalvesJoin<T>(s: seq<T>, k: nat)
    requires k <= |s|
    ensures s[..k] + s[k..] == s
  {
  }

  lemma LeaksOfHalves<T>(rank: T -> real, s: seq<T>, left: seq<T>, right: seq<T>)
    requires |s| > 1 && left == s[..|s| / 2] && right == s[|s| / 2..]
    ensures SortLeaks(rank, s) ==
      SortLeaks(rank, left) + SortLeaks(rank, right) + GlueLeaks(rank, Sort(rank, left), Sort(rank, right))
  {
  }

  lemma {:induction false} SortIsPermutation<T>(rank: T -> real, s: seq<T>)
    ensures multiset(Sort(rank, s)) == multiset(s)
    decreases |s|
  {
    if |s| > 1 {
      var left, right := s[..|s| / 2], s[|s| / 2..];
      SortOfHalves(rank, s);
      calc {
        multiset(Sort(rank, s));
        multiset(Glued(rank, Sort(rank, left), Sort(rank, right)));
        { GluedIsPermutation(rank, Sort(rank, left), Sort(rank, right)); }
        multiset(Sort(rank, left)) + multiset(Sort(rank, right));
        { SortIsPermutation(rank, left); SortIsPermutation(rank, right); }
        multiset(left) + multiset(right);
        { MultisetOfAppend(left, right); }
        multiset(left + right);
        { assert left + right == s; }
        multiset(s);
      }
    }
  }

  lemma SortedAfter<T>(rank: T -> real, x: T, s: seq<T>)
    requires Sorted(rank, s) && forall i :: 0 <= i < |s| ==> rank(x) <= rank(s[i])
    ensures Sorted(rank, [x] + s)
  {
  }

  /** A bound below both lists is below their merge. */
  lemma {:induction false} MergedIsAbove<T>(rank: T -> real, s: seq<T>, t: seq<T>, b: real)
    requires forall i :: 0 <= i < |s| ==> b <= rank(s[i])
    requires forall i :: 0 <= i < |t| ==> b <= rank(t[i])
    ensures forall i :: 0 <= i < |Merged(rank, s, t)| ==> b <= rank(Merged(rank, s, t)[i])
    decreases |s| + |t|
  {
    if s != [] && t != [] {
      if rank(s[0]) < rank(t[0]) { MergedIsAbove(rank, s[1..], t, b); } else { MergedIsAbove(rank, s, t[1..], b); }
    }
  }

  lemma {:induction false} MergedIsSorted<T>(rank: T -> real, s: seq<T>, t: seq<T>)
    requires Sorted(rank, s) && Sorted(rank, t)
    ensures Sorted(rank, Merged(rank, s, t))
    decreases |s| + |t|
  {
    if s == [] || t == [] {
    } else if rank(s[0]) < rank(t[0]) {
      MergedIsSorted(rank, s[1..], t);
      MergedIsAbove(rank, s[1..], t, rank(s[0]));
      SortedAfter(rank, s[0], Merged(rank, s[1..], t));
    } else {
      MergedIsSorted(rank, s, t[1..]);
      MergedIsAbove(rank, s, t[1..], rank(t[0]));
      SortedAfter(rank, t[0], Merged(rank, s, t[1..]));
    }
  }

  lemma AppendedIsSorted<T>(rank: T -> real, s: seq<T>, t: seq<T>)
    requires Sorted(rank, s) && Sorted(rank, t) && s != [] && t != [] && rank(s[|s| - 1]) <= rank(t[0])
    ensures Sorted(rank, s + t)
  {
    forall i, j | 0 <= i < j < |s + t| ensures rank((s + t)[i]) <= rank((s + t)[j]) {
      if i < |s| <= j {
        assert rank(s[i]) <= rank(s[|s| - 1]);
        assert rank(t[0]) <= rank(t[j - |s|]);
      }
    }
  }

  lemma {:induction false} SortIsSorted<T>(rank: T -> real, s: seq<T>)
    ensures Sorted(rank, Sort(rank, s))
    decreases |s|
  {
    if |s| > 1 {
      var mid := |s| / 2;
      var left, right := Sort(rank, s[..mid]), Sort(rank, s[mid..]);
      SortIsSorted(rank, s[..mid]);
      SortIsSorted(rank, s[mid..]);
      if rank(left[|left| - 1]) < rank(right[0]) {
        AppendedIsSorted(rank, left, right);
      } else {
        MergedIsSorted(rank, left, right);
      }
    }
  }

  // ----- Elements of equal rank -----

  function IfOfRank<T>(rank: T -> real, x: T, r: real): seq<T> { if rank(x) == r then [x] else [] }

  /** The elements of rank `r`, in the order in which they are. */
  ghost function OfRank<T>(rank: T -> real, s: seq<T>, r: real): seq<T> {
    if s == [] then [] else IfOfRank(rank, s[0], r) + OfRank(rank, s[1..], r)
  }

  lemma {:induction false} OfRankJoins<T>(rank: T -> real, s: seq<T>, t: seq<T>, r: real)
    ensures OfRank(rank, s + t, r) == OfRank(rank, s, r) + OfRank(rank, t, r)
    decreases |s|
  {
    if s == [] {
      assert s + t == t;
    } else {
      calc {
        OfRank(rank, s + t, r);
        { assert (s + t)[1..] == s[1..] + t; }
        IfOfRank(rank, s[0], r) + OfRank(rank, s[1..] + t, r);
        { OfRankJoins(rank, s[1..], t, r); }
        IfOfRank(rank, s[0], r) + (OfRank(rank, s[1..], r) + OfRank(rank, t, r));
        OfRank(rank, s, r) + OfRank(rank, t, r);
      }
    }
  }

  lemma {:induction false} NoneOfRank<T>(rank: T -> real, s: seq<T>, r: real)
    requires forall i :: 0 <= i < |s| ==> rank(s[i]) != r
    ensures OfRank(rank, s, r) == []
    decreases |s|
  {
    if s != [] { NoneOfRank(rank, s[1..], r); }
  }

  /** Of equal elements the merge takes those of the second list first. */
  lemma {:induction false} MergedOfRank<T>(rank: T -> real, s: seq<T>, t: seq<T>, r: real)
    requires Sorted(rank, s) && Sorted(rank, t)
    ensures OfRank(rank, Merged(rank, s, t), r) == OfRank(rank, t, r) + OfRank(rank, s, r)
    decreases |s| + |t|
  {
    if s == [] || t == [] {
    } else if rank(s[0]) < rank(t[0]) {
      MergedOfRank(rank, s[1..], t, r);
      OfRankJoins(rank, [s[0]], Merged(rank, s[1..], t), r);
      if rank(s[0]) == r { NoneOfRank(rank, t, r); }
    } else {
      MergedOfRank(rank, s, t[1..], r);
      OfRankJoins(rank, [t[0]], Merged(rank, s, t[1..]), r);
    }
  }

  lemma GluedOfRank<T>(rank: T -> real, s: seq<T>, t: seq<T>, r: real)
    requires Sorted(rank, s) && Sorted(rank, t) && s != [] && t != []
    ensures OfRank(rank, Glued(rank, s, t), r) == OfRank(rank, t, r) + OfRank(rank, s, r)
  {
    if rank(s[|s| - 1]) < rank(t[0]) {
      OfRankJoins(rank, s, t, r);
      if r <= rank(s[|s| - 1]) { NoneOfRank(rank, t, r); } else { NoneOfRank(rank, s, r); }
    } else {
      MergedOfRank(rank, s, t, r);
    }
  }

  /** Sorting turns the order of equal elements around, which, with being sorted, says all about its result. */
  lemma {:induction false} SortReversesEqual<T>(rank: T -> real, s: seq<T>, r: real)
    ensures OfRank(rank, Sort(rank, s), r) == Reversed(OfRank(rank, s, r))
    decreases |s|
  {
    if |s| > 1 {
      var left, right := s[..|s| / 2], s[|s| / 2..];
      SortIsSorted(rank, left);
      SortIsSorted(rank, right);
      calc {
        OfRank(rank, Sort(rank, s), r);
        { SortOfHalves(rank, s); GluedOfRank(rank, Sort(rank, left), Sort(rank, right), r); }
        OfRank(rank, Sort(rank, right), r) + OfRank(rank, Sort(rank, left), r);
        { SortReversesEqual(rank, left, r); SortReversesEqual(rank, right, r); }
        Reversed(OfRank(rank, right, r)) + Reversed(OfRank(rank, left, r));
        { ReversedJoins(OfRank(rank, left, r), OfRank(rank, right, r)); }
        Reversed(OfRank(rank, left, r) + OfRank(rank, right, r));
        { OfRankJoins(rank, left, right, r); HalvesJoin(s, |s| / 2); }
        Reversed(OfRank(rank, s, r));
      }
    } else if s != [] {
      assert OfRank(rank, s[1..], r) == [];
    }
  }

  // ----- How much sorts leave over -----

  lemma {:induction false} RoundsBound<T>(rank: T -> real, s: seq<T>, t: seq<T>)
    requires s != [] && t != []
    ensures Rounds(rank, s, t) < |s| + |t|
    decreases |s| + |t|
  {
    if rank(s[0]) < rank(t[0]) {
      if |s| > 1 { RoundsBound(rank, s[1..], t); }
    } else {
      if |t| > 1 { RoundsBound(rank, s, t[1..]); }
    }
  }

  /** The logarithm to base 2, rounded up. */
  function Levels(n: nat): nat { if n <= 1 then 0 else Log2(n - 1) + 1 }

  lemma LevelsOfHalves(n: nat)
    requires n > 1
    ensures Levels(n / 2) <= Levels(n) - 1 && Levels(n - n / 2) == Levels(n) - 1
  {
    if n > 2 {
      assert n - n / 2 - 1 == (n - 1) / 2;
      if n > 3 { Log2Grows(n / 2 - 1, (n - 1) / 2); }
    }
  }

  lemma FewerTimes(x: nat, a: nat, b: nat)
    requires a <= b
    ensures x * a <= x * b
  {
  }

  lemma SumOfParts(a: nat, b: nat, l: nat, left: nat, right: nat, glue: nat)
    requires left <= a * l && right <= b * l && glue <= a + b
    ensures left + right + glue <= (a + b) * (l + 1)
  {
    assert (a + b) * (l + 1) == a * l + b * l + (a + b);
  }

  lemma BoundOfHalves(n: nat, left: nat, right: nat, glue: nat)
    requires n > 1 && left <= n / 2 * Levels(n / 2) && right <= (n - n / 2) * Levels(n - n / 2) && glue <= n
    ensures left + right + glue <= n * Levels(n)
  {
    var a, b, l := n / 2, n - n / 2, Levels(n) - 1;
    LevelsOfHalves(n);
    FewerTimes(a, Levels(a), l);
    SumOfParts(a, b, l, left, right, glue);
  }

  lemma GlueLeaksBound<T>(rank: T -> real, s: seq<T>, t: seq<T>)
    requires s != [] && t != []
    ensures GlueLeaks(rank, s, t) <= |s| + |t|
  {
    RoundsBound(rank, s, t);
  }

  /** A sort leaves at most `n * log2 n` lists over, for it halves its argument. */
  lemma {:induction false} SortLeaksBound<T>(rank: T -> real, s: seq<T>)
    ensures SortLeaks(rank, s) <= |s| * Levels(|s|)
    decreases |s|
  {
    if |s| > 1 {
      var left, right := s[..|s| / 2], s[|s| / 2..];
      LeaksOfHalves(rank, s, left, right);
      SortLeaksBound(rank, left);
      SortLeaksBound(rank, right);
      var glue := GlueLeaks(rank, Sort(rank, left), Sort(rank, right));
      GlueLeaksBound(rank, Sort(rank, left), Sort(rank, right));
      BoundOfHalves(|s|, SortLeaks(rank, left), SortLeaks(rank, right), glue);
    }
  }

  // ----- Which sorts leave nothing over -----

  predicate Ascending<T>(rank: T -> real, s: seq<T>) {
    forall i, j :: 0 <= i < j < |s| ==> rank(s[i]) < rank(s[j])
  }

  lemma SortOfSorted<T>(rank: T -> real, s: seq<T>, left: seq<T>, right: seq<T>)
    requires |s| > 1 && left == s[..|s| / 2] && right == s[|s| / 2..] && rank(left[|left| - 1]) < rank(right[0])
    requires Sort(rank, left) == left && Sort(rank, right) == right
    ensures Sort(rank, s) == s
  {
    calc {
      Sort(rank, s);
      { SortOfHalves(rank, s); }
      Glued(rank, Sort(rank, left), Sort(rank, right));
      Glued(rank, left, right);
      left + right;
      { HalvesJoin(s, |s| / 2); }
      s;
    }
  }

  lemma {:induction false} AscendingLeavesNothing<T>(rank: T -> real, s: seq<T>)
    requires Ascending(rank, s)
    ensures Sort(rank, s) == s && SortLeaks(rank, s) == 0
    decreases |s|
  {
    if |s| > 1 {
      var left, right := s[..|s| / 2], s[|s| / 2..];
      assert rank(left[|left| - 1]) < rank(right[0]);
      AscendingLeavesNothing(rank, left);
      AscendingLeavesNothing(rank, right);
      SortOfSorted(rank, s, left, right);
      LeaksOfHalves(rank, s, left, right);
    }
  }

  lemma GluedIsAscending<T>(rank: T -> real, s: seq<T>, t: seq<T>)
    requires Ascending(rank, s) && Ascending(rank, t) && s != [] && t != [] && rank(s[|s| - 1]) < rank(t[0])
    ensures Ascending(rank, s + t)
  {
    forall i, j | 0 <= i < j < |s + t| ensures rank((s + t)[i]) < rank((s + t)[j]) {
      if i < |s| <= j {
        assert rank(s[i]) <= rank(s[|s| - 1]);
        assert rank(t[0]) <= rank(t[j - |s|]);
      }
    }
  }

  lemma NothingFromGlue<T>(rank: T -> real, s: seq<T>, t: seq<T>)
    requires s != [] && t != [] && GlueLeaks(rank, s, t) == 0
    ensures rank(s[|s| - 1]) < rank(t[0])
  {
  }

  lemma HalvesAscend<T>(rank: T -> real, s: seq<T>, left: seq<T>, right: seq<T>)
    requires |s| > 1 && left == s[..|s| / 2] && right == s[|s| / 2..]
    requires Ascending(rank, left) && Ascending(rank, right)
    requires GlueLeaks(rank, Sort(rank, left), Sort(rank, right)) == 0
    ensures Ascending(rank, s)
  {
    AscendingLeavesNothing(rank, left);
    AscendingLeavesNothing(rank, right);
    NothingFromGlue(rank, left, right);
    GluedIsAscending(rank, left, right);
    HalvesJoin(s, |s| / 2);
  }

  lemma {:induction false} NothingLeftMeansAscending<T>(rank: T -> real, s: seq<T>)
    requires SortLeaks(rank, s) == 0
    ensures Ascending(rank, s)
    decreases |s|
  {
    if |s| > 1 {
      var left, right := s[..|s| / 2], s[|s| / 2..];
      LeaksOfHalves(rank, s, left, right);
      NothingLeftMeansAscending(rank, left);
      NothingLeftMeansAscending(rank, right);
      HalvesAscend(rank, s, left, right);
    }
  }

  /** A sort leaves no list over exactly when its argument is in strictly ascending order already. */
  lemma LeavesNothingIff<T>(rank: T -> real, s: seq<T>)
    ensures SortLeaks(rank, s) == 0 <==> Ascending(rank, s)
  {
    if SortLeaks(rank, s) == 0 { NothingLeftMeansAscending(rank, s); }
    if Ascending(rank, s) { AscendingLeavesNothing(rank, s); }
  }

  /** Two elements out of order leave two lists over, and so do two equal ones. */
  lemma PairLeavesTwo<T>(rank: T -> real, x: T, y: T)
    requires rank(x) >= rank(y)
    ensures SortLeaks(rank, [x, y]) == 2
  {
    var s := [x, y];
    assert s[..1] == [x] && s[1..] == [y];
    assert Sort(rank, [x]) == [x] && Sort(rank, [y]) == [y];
    assert [y][1..] == [];
    assert Rounds(rank, [x], [y]) == 1;
  }
}
