/** What several of the other modules share. */
module Basics {

  datatype Option<+T> = None | Some(value: T)

  predicate Int32(x: int) { -0x8000_0000 <= x < 0x8000_0000 }

  ghost function Elements(s: seq<nat>): set<nat> { set x | x in s }

  ghost predicate Distinct<T>(s: seq<T>) {
    forall i, j :: 0 <= i < j < |s| ==> s[i] != s[j]
  }

  /** In nondecreasing order of rank. */
  ghost predicate Sorted<T>(rank: T -> real, s: seq<T>) {
    forall i, j :: 0 <= i < j < |s| ==> rank(s[i]) <= rank(s[j])
  }

  function Pow2(n: nat): (r: nat)
    ensures r >= 1
  {
    if n == 0 then 1 else 2 * Pow2(n - 1)
  }

  function Log2(n: nat): nat
    requires n > 0
  {
    if n == 1 then 0 else 1 + Log2(n / 2)
  }

  /** The logarithm to base 2, rounded down. */
  lemma {:induction false} Log2IsRoundedDown(n: nat)
    requires n > 0
    ensures Pow2(Log2(n)) <= n < Pow2(Log2(n) + 1)
  {
    if n > 1 { Log2IsRoundedDown(n / 2); }
  }

  lemma {:induction false} Log2Grows(m: nat, n: nat)
    requires 0 < m <= n
    ensures Log2(m) <= Log2(n)
    decreases n
  {
    if m > 1 { Log2Grows(m / 2, n / 2); }
  }

  function Reversed<T>(s: seq<T>): seq<T> { if s == [] then [] else Reversed(s[1..]) + [s[0]] }

  lemma {:induction false} ReversedFromTheEnd<T>(s: seq<T>, i: nat)
    requires i < |s|
    ensures |Reversed(s)| == |s| && Reversed(s)[i] == s[|s| - 1 - i]
  {
    if |s| > 1 { ReversedFromTheEnd(s[1..], if i == |s| - 1 then 0 else i); }
  }

  lemma {:induction false} ReversedJoins<T>(s: seq<T>, t: seq<T>)
    ensures Reversed(s + t) == Reversed(t) + Reversed(s)
    decreases |s|
  {
    if s == [] {
      assert s + t == t;
    } else {
      assert (s + t)[1..] == s[1..] + t;
      ReversedJoins(s[1..], t);
    }
  }

  /** All of the sequences, one after the other. */
  function Joined<T>(xss: seq<seq<T>>): seq<T> {
    if xss == [] then [] else Joined(xss[..|xss| - 1]) + xss[|xss| - 1]
  }

  lemma JoinedOne<T>(xss: seq<seq<T>>, xs: seq<T>)
    ensures Joined(xss + [xs]) == Joined(xss) + xs
  {
    assert (xss + [xs])[..|xss|] == xss;
  }

  lemma Regroup<T>(a: seq<T>, b: seq<T>, c: seq<T>, d: seq<T>, e: seq<T>, f: seq<T>, g: seq<T>)
    requires a + b == c + d && d + e == f + g
    ensures a + (b + e) == (c + f) + g
  {
    calc {
      a + (b + e);
      (a + b) + e;
      c + (d + e);
      (c + f) + g;
    }
  }
}
