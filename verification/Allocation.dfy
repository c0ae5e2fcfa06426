/** Exactly which signals shared/signal.c gives sound buses to: for the split it ships, where the second
    operand of every binary node at one depth starts at the same bus, and for the dividing one.
 */
module Allocation {
  import opened Basics
  import opened Signals
  import opened Compiler
  import opened Stepper
  import opened Correctness

  // ----- Spines and forks -----

  /** The buses of the loops and delays met through unary nodes and first operands only. */
  function Spine(p: Part, s: Signal): seq<int>
    decreases s
  {
    match s
    case Loop(b) => [p.o] + Spine(RunPart(p).1, b)
    case Delay(_, a) => [p.o] + Spine(RunPart(p).1, a)
    case Lift(_, a) => Spine(p, a)
    case Lift2(_, a, _) => Spine(SplitPart(Shipped, p).0, a)
    case Output(_, _, a) => Spine(p, a)
    case _ => []
  }

  /** How many steps of its partition a spine reaches over. */
  function Reach(s: Signal): nat {
    match s
    case Loop(b) => 1 + Reach(b)
    case Delay(_, a) => 1 + Reach(a)
    case Lift(_, a) => Reach(a)
    case Lift2(_, a, _) => LeftReach(Reach(a))
    case Output(_, _, a) => Reach(a)
    case _ => 0
  }

  /** Steps of a left half, counted in steps of its parent. */
  function LeftReach(n: nat): nat { if n == 0 then 0 else 2 * n - 1 }

  /** The second operand of a binary node that has `depth` binary nodes above it. */
  datatype Fork = Fork(depth: nat, operand: Signal) {
    function Buses(): seq<int> { Spine(RightPart(depth), operand) }

    /** Its greatest bus exists. */
    predicate Fits() { Pow2(depth) * (2 * Reach(operand) - 1) < MAX_BUSES }
  }

  /** Where the shipped split starts every second operand below `l` binary nodes. */
  function RightPart(l: nat): (p: Part)
    ensures p.Valid()
  {
    Part(Pow2(l), 2 * Pow2(l))
  }

  /** All second operands in a signal below `l` binary nodes. */
  function Forks(s: Signal, l: nat): seq<Fork> {
    match s
    case Loop(b) => Forks(b, l)
    case Delay(_, a) => Forks(a, l)
    case Lift(_, a) => Forks(a, l)
    case Lift2(_, a, b) => Forks(a, l + 1) + ([Fork(l, b)] + Forks(b, l + 1))
    case Output(_, _, a) => Forks(a, l)
    case _ => []
  }

  /** No two second operands at one depth have buses on their spines. */
  predicate OnePerDepth(fs: seq<Fork>) {
    forall i, j :: 0 <= i < j < |fs| && Reach(fs[i].operand) > 0 && Reach(fs[j].operand) > 0 ==>
      fs[i].depth != fs[j].depth
  }

  predicate Apart(buses: seq<int>, fs: seq<Fork>) {
    forall i, x :: 0 <= i < |fs| && x in buses ==> x !in fs[i].Buses()
  }

  /** No bus of a signal is shared under the shipped split. */
  predicate Unshared(s: Signal) {
    OnePerDepth(Forks(s, 0)) && Apart(Spine(INIT_PART, s), Forks(s, 0))
  }

  predicate AllFit(fs: seq<Fork>) { forall i :: 0 <= i < |fs| ==> fs[i].Fits() }

  // ----- Spines -----

  lemma {:induction false} SpineStarts(p: Part, s: Signal)
    ensures Spine(p, s) == [] <==> Reach(s) == 0
    ensures Reach(s) > 0 ==> Spine(p, s)[0] == p.o
    decreases s
  {
    match s
    case Lift(_, a) => SpineStarts(p, a);
    case Lift2(_, a, _) => SpineStarts(SplitPart(Shipped, p).0, a);
    case Output(_, _, a) => SpineStarts(p, a);
    case _ =>
  }

  ghost predicate Ascends(xs: seq<int>, p: Part) {
    && (forall i, j :: 0 <= i < j < |xs| ==> xs[i] < xs[j])
    && (forall i :: 0 <= i < |xs| ==> p.Has(xs[i]))
  }

  lemma AscendsFromStart(xs: seq<int>, p: Part)
    requires p.Valid() && Ascends(xs, RunPart(p).1)
    ensures Ascends([p.o] + xs, p)
  {
    RunStaysInPart(p);
    forall i | 0 <= i < |xs| ensures p.o < xs[i] && p.Has(xs[i]) {
      var k: nat :| xs[i] == RunPart(p).1.Nth(k);
      Scale(p.d, 0, k);
    }
  }

  lemma AscendsInLeft(xs: seq<int>, p: Part)
    requires Ascends(xs, SplitPart(Shipped, p).0)
    ensures Ascends(xs, p)
  {
    forall i | 0 <= i < |xs| ensures p.Has(xs[i]) {
      var k: nat :| xs[i] == SplitPart(Shipped, p).0.Nth(k);
      assert xs[i] == p.Nth(2 * k);
    }
  }

  /** A spine ascends in its partition. */
  lemma {:induction false} SpineAscends(p: Part, s: Signal)
    requires p.Valid()
    ensures Ascends(Spine(p, s), p)
    decreases s
  {
    match s
    case Loop(b) => SpineAscends(RunPart(p).1, b); AscendsFromStart(Spine(RunPart(p).1, b), p);
    case Delay(_, a) => SpineAscends(RunPart(p).1, a); AscendsFromStart(Spine(RunPart(p).1, a), p);
    case Lift(_, a) => SpineAscends(p, a);
    case Lift2(_, a, _) =>
      SpineAscends(SplitPart(Shipped, p).0, a);
      AscendsInLeft(Spine(SplitPart(Shipped, p).0, a), p);
    case Output(_, _, a) => SpineAscends(p, a);
    case _ =>
  }

  lemma LeftNth(p: Part, k: int)
    ensures SplitPart(Shipped, p).0.Nth(k) == p.Nth(2 * k)
  {
  }

  predicate EndsWith(xs: seq<int>, x: int) { xs != [] && xs[|xs| - 1] == x }

  /** It ends at its reach. */
  lemma {:induction false} SpineEnds(p: Part, s: Signal)
    requires Reach(s) > 0
    ensures EndsWith(Spine(p, s), p.Nth(Reach(s) - 1))
    decreases s, 0
  {
    match s
    case Loop(b) => SpineEndsAfter(p, b);
    case Delay(_, a) => SpineEndsAfter(p, a);
    case Lift(_, a) => SpineEnds(p, a);
    case Lift2(_, a, _) =>
      SpineEnds(SplitPart(Shipped, p).0, a);
      LeftNth(p, Reach(a) - 1);
    case Output(_, _, a) => SpineEnds(p, a);
    case _ =>
  }

  lemma {:induction false} SpineEndsAfter(p: Part, a: Signal)
    ensures EndsWith([p.o] + Spine(RunPart(p).1, a), p.Nth(Reach(a)))
    decreases a, 1
  {
    SpineStarts(RunPart(p).1, a);
    if Reach(a) > 0 {
      SpineEnds(RunPart(p).1, a);
      assert RunPart(p).1.Nth(Reach(a) - 1) == p.Nth(Reach(a));
    }
  }

  /** From different depths the right halves have no bus in common. */
  lemma {:induction false} RightPartsApart(l: nat, l': nat, k: nat, k': nat)
    requires l < l'
    ensures RightPart(l).Nth(k) != RightPart(l').Nth(k')
    decreases l
  {
    if l > 0 {
      RightPartsApart(l - 1, l' - 1, k, k');
      HalvesNth(l, k);
      HalvesNth(l', k');
    } else {
      HalvesNth(l', k');
    }
  }

  lemma HalvesNth(l: nat, k: nat)
    requires l > 0
    ensures RightPart(l).Nth(k) == 2 * RightPart(l - 1).Nth(k)
  {
  }

  lemma ForksApart(f: Fork, f': Fork, x: int)
    requires x in f.Buses() && x in f'.Buses()
    ensures f.depth == f'.depth
  {
    SpineAscends(RightPart(f.depth), f.operand);
    SpineAscends(RightPart(f'.depth), f'.operand);
    var k: nat :| x == RightPart(f.depth).Nth(k);
    var k': nat :| x == RightPart(f'.depth).Nth(k');
    if f.depth < f'.depth {
      RightPartsApart(f.depth, f'.depth, k, k');
    } else if f'.depth < f.depth {
      RightPartsApart(f'.depth, f.depth, k', k);
    }
  }

  // ----- The shipped allocation, bus by bus -----

  function Count(x: int, xs: seq<int>): nat {
    if xs == [] then 0 else (if xs[0] == x then 1 else 0) + Count(x, xs[1..])
  }

  lemma {:induction false} CountOfBoth(x: int, xs: seq<int>, ys: seq<int>)
    ensures Count(x, xs + ys) == Count(x, xs) + Count(x, ys)
    decreases |xs|
  {
    if xs == [] {
      assert xs + ys == ys;
    } else {
      assert (xs + ys)[1..] == xs[1..] + ys;
      CountOfBoth(x, xs[1..], ys);
    }
  }

  lemma {:induction false} CountIsPositive(x: int, xs: seq<int>)
    ensures x in xs <==> Count(x, xs) > 0
    decreases |xs|
  {
    if xs != [] {
      CountIsPositive(x, xs[1..]);
      assert x in xs <==> x == xs[0] || x in xs[1..];
    }
  }

  lemma {:induction false} CountTwice(x: int, xs: seq<int>, i: nat, j: nat)
    requires i < j < |xs| && xs[i] == x == xs[j]
    ensures Count(x, xs) > 1
    decreases i
  {
    if i > 0 { CountTwice(x, xs[1..], i - 1, j - 1); } else { CountIsPositive(x, xs[1..]); }
  }

  lemma {:induction false} DistinctCountsOnce(x: int, xs: seq<int>)
    requires Distinct(xs)
    ensures Count(x, xs) <= 1
    decreases |xs|
  {
    if xs != [] {
      DistinctCountsOnce(x, xs[1..]);
      CountIsPositive(x, xs[1..]);
      assert xs[0] !in xs[1..];
    }
  }

  /** A sequence has no bus twice exactly when it counts none more than once. */
  lemma DistinctIffOnce(xs: seq<int>)
    ensures Distinct(xs) <==> forall x :: Count(x, xs) <= 1
  {
    if Distinct(xs) {
      forall x ensures Count(x, xs) <= 1 { DistinctCountsOnce(x, xs); }
    }
    if i, j :| 0 <= i < j < |xs| && xs[i] == xs[j] { CountTwice(xs[i], xs, i, j); }
  }

  function CountInForks(x: int, fs: seq<Fork>): nat {
    if fs == [] then 0 else Count(x, fs[0].Buses()) + CountInForks(x, fs[1..])
  }

  lemma {:induction false} CountOfForks(x: int, fs: seq<Fork>, gs: seq<Fork>)
    ensures CountInForks(x, fs + gs) == CountInForks(x, fs) + CountInForks(x, gs)
    decreases |fs|
  {
    if fs == [] {
      assert fs + gs == gs;
    } else {
      assert (fs + gs)[1..] == fs[1..] + gs;
      CountOfForks(x, fs[1..], gs);
    }
  }

  /** The shipped allocation is the spine of the signal together with those of all its forks. */
  lemma {:induction false} ShippedCount(p: Part, s: Signal, l: nat, x: int)
    requires p.d == Pow2(l)
    ensures Count(x, Buses(Shipped, p, s)) == Count(x, Spine(p, s)) + CountInForks(x, Forks(s, l))
    decreases s
  {
    match s
    case Loop(b) =>
      ShippedCount(RunPart(p).1, b, l, x);
      CountOfBoth(x, [p.o], Buses(Shipped, RunPart(p).1, b));
      CountOfBoth(x, [p.o], Spine(RunPart(p).1, b));
    case Delay(_, a) =>
      ShippedCount(RunPart(p).1, a, l, x);
      CountOfBoth(x, [p.o], Buses(Shipped, RunPart(p).1, a));
      CountOfBoth(x, [p.o], Spine(RunPart(p).1, a));
    case Lift(_, a) => ShippedCount(p, a, l, x);
    case Lift2(_, a, b) =>
      var (q, r) := SplitPart(Shipped, p);
      ShippedCount(q, a, l + 1, x);
      ShippedCount(r, b, l + 1, x);
      CountOfBoth(x, Buses(Shipped, q, a), Buses(Shipped, r, b));
      CountOfForks(x, Forks(a, l + 1), [Fork(l, b)] + Forks(b, l + 1));
      CountOfForks(x, [Fork(l, b)], Forks(b, l + 1));
      assert CountInForks(x, [Fork(l, b)]) == Count(x, Spine(r, b));
    case Output(_, _, a) => ShippedCount(p, a, l, x);
    case _ =>
  }

  lemma {:induction false} CountInOne(x: int, fs: seq<Fork>, i: nat)
    requires i < |fs|
    ensures CountInForks(x, fs) >= Count(x, fs[i].Buses())
    decreases i
  {
    if i > 0 { CountInOne(x, fs[1..], i - 1); }
  }

  lemma {:induction false} CountInTwo(x: int, fs: seq<Fork>, i: nat, j: nat)
    requires i < j < |fs|
    ensures CountInForks(x, fs) >= Count(x, fs[i].Buses()) + Count(x, fs[j].Buses())
    decreases i
  {
    if i > 0 { CountInTwo(x, fs[1..], i - 1, j - 1); } else { CountInOne(x, fs[1..], j - 1); }
  }

  lemma SpineCountsOnce(p: Part, s: Signal, x: int)
    requires p.Valid()
    ensures Count(x, Spine(p, s)) <= 1
  {
    SpineAscends(p, s);
    assert Distinct(Spine(p, s));
    DistinctIffOnce(Spine(p, s));
  }

  lemma {:induction false} ForkIsFound(x: int, fs: seq<Fork>) returns (i: nat)
    requires CountInForks(x, fs) > 0
    ensures i < |fs| && x in fs[i].Buses()
    decreases |fs|
  {
    CountIsPositive(x, fs[0].Buses());
    if x in fs[0].Buses() {
      i := 0;
    } else {
      var k := ForkIsFound(x, fs[1..]);
      i := k + 1;
    }
  }

  lemma HasReach(f: Fork, x: int)
    requires x in f.Buses()
    ensures Reach(f.operand) > 0
  {
    SpineStarts(RightPart(f.depth), f.operand);
  }

  lemma {:induction false} ForksCountOnce(x: int, fs: seq<Fork>)
    requires OnePerDepth(fs)
    ensures CountInForks(x, fs) <= 1
    decreases |fs|
  {
    if fs != [] {
      var f, rest := fs[0], fs[1..];
      forall i, j | 0 <= i < j < |rest| && Reach(rest[i].operand) > 0 && Reach(rest[j].operand) > 0
        ensures rest[i].depth != rest[j].depth
      {
        assert rest[i] == fs[i + 1] && rest[j] == fs[j + 1];
      }
      ForksCountOnce(x, rest);
      SpineCountsOnce(RightPart(f.depth), f.operand, x);
      CountIsPositive(x, f.Buses());
      if x in f.Buses() && CountInForks(x, rest) > 0 {
        var k := ForkIsFound(x, rest);
        ForksApart(f, rest[k], x);
        HasReach(f, x);
        HasReach(rest[k], x);
        assert false;
      }
    }
  }

  lemma SharedAtOneDepth(fs: seq<Fork>, i: nat, j: nat)
    requires i < j < |fs| && fs[i].depth == fs[j].depth && Reach(fs[i].operand) > 0 && Reach(fs[j].operand) > 0
    ensures CountInForks(Pow2(fs[i].depth), fs) > 1
  {
    var x := Pow2(fs[i].depth);
    SpineStarts(RightPart(fs[i].depth), fs[i].operand);
    SpineStarts(RightPart(fs[j].depth), fs[j].operand);
    CountIsPositive(x, fs[i].Buses());
    CountIsPositive(x, fs[j].Buses());
    CountInTwo(x, fs, i, j);
  }

  ghost predicate CountsOnce(s: Signal) {
    forall x :: Count(x, Spine(INIT_PART, s)) + CountInForks(x, Forks(s, 0)) <= 1
  }

  lemma UnsharedCountsOnce(s: Signal)
    requires Unshared(s)
    ensures CountsOnce(s)
  {
    var fs, root := Forks(s, 0), Spine(INIT_PART, s);
    forall x ensures Count(x, root) + CountInForks(x, fs) <= 1 {
      SpineCountsOnce(INIT_PART, s, x);
      ForksCountOnce(x, fs);
      CountIsPositive(x, root);
      if CountInForks(x, fs) > 0 { var i := ForkIsFound(x, fs); }
    }
  }

  lemma OnceIsOnePerDepth(s: Signal)
    requires CountsOnce(s)
    ensures OnePerDepth(Forks(s, 0))
  {
    var fs := Forks(s, 0);
    forall i, j | 0 <= i < j < |fs| && Reach(fs[i].operand) > 0 && Reach(fs[j].operand) > 0
      ensures fs[i].depth != fs[j].depth
    {
      var x := Pow2(fs[i].depth);
      assert Count(x, Spine(INIT_PART, s)) + CountInForks(x, fs) <= 1;
      if fs[i].depth == fs[j].depth { SharedAtOneDepth(fs, i, j); }
    }
  }

  lemma OnceIsApart(s: Signal)
    requires CountsOnce(s)
    ensures Apart(Spine(INIT_PART, s), Forks(s, 0))
  {
    var fs, root := Forks(s, 0), Spine(INIT_PART, s);
    forall i, x | 0 <= i < |fs| && x in root ensures x !in fs[i].Buses() {
      CountIsPositive(x, root);
      CountIsPositive(x, fs[i].Buses());
      CountInOne(x, fs, i);
      assert Count(x, root) + CountInForks(x, fs) <= 1;
    }
  }

  /** With the shipped split no bus is handed out twice exactly when at each depth at most one second
      operand has buses on its spine, and none of those is on the spine of the whole signal. */
  lemma ShippedIsDistinctIff(s: Signal)
    ensures Distinct(Buses(Shipped, INIT_PART, s)) <==> Unshared(s)
  {
    DistinctIffOnce(Buses(Shipped, INIT_PART, s));
    if Unshared(s) {
      UnsharedCountsOnce(s);
      forall x ensures Count(x, Buses(Shipped, INIT_PART, s)) <= 1 { ShippedCount(INIT_PART, s, 0, x); }
    }
    if Distinct(Buses(Shipped, INIT_PART, s)) {
      forall x ensures Count(x, Spine(INIT_PART, s)) + CountInForks(x, Forks(s, 0)) <= 1 {
        ShippedCount(INIT_PART, s, 0, x);
        assert Count(x, Buses(Shipped, INIT_PART, s)) <= 1;
      }
      OnceIsOnePerDepth(s);
      OnceIsApart(s);
    }
  }

  // ----- Which buses exist -----

  lemma SpineInRangeIff(p: Part, s: Signal)
    requires p.Valid()
    ensures InRange(Spine(p, s)) <==> Reach(s) == 0 || p.Nth(Reach(s) - 1) < MAX_BUSES
  {
    var xs := Spine(p, s);
    SpineStarts(p, s);
    SpineAscends(p, s);
    if Reach(s) > 0 {
      SpineEnds(p, s);
      forall i | 0 <= i < |xs| ensures 0 <= xs[i] <= p.Nth(Reach(s) - 1) {
        var k: nat :| xs[i] == p.Nth(k);
        Scale(p.d, 0, k);
      }
    }
  }

  /** The `r`-th bus of a second operand. */
  lemma RightPartNth(l: nat, r: int)
    ensures RightPart(l).Nth(r - 1) == Pow2(l) * (2 * r - 1)
  {
    var x := Pow2(l);
    calc {
      x + (r - 1) * (2 * x);
      x + 2 * (r * x - x);
      x * (2 * r - 1);
    }
  }

  lemma ForkFitsIff(f: Fork)
    ensures InRange(f.Buses()) <==> f.Fits()
  {
    SpineInRangeIff(RightPart(f.depth), f.operand);
    RightPartNth(f.depth, Reach(f.operand));
  }

  lemma InRangeIffAll(xs: seq<int>)
    ensures InRange(xs) <==> forall x :: x in xs ==> 0 <= x < MAX_BUSES
  {
    if forall x :: x in xs ==> 0 <= x < MAX_BUSES {
      forall i | 0 <= i < |xs| ensures 0 <= xs[i] < MAX_BUSES { assert xs[i] in xs; }
    }
  }

  lemma ShippedBusIff(s: Signal, x: int)
    ensures x in Buses(Shipped, INIT_PART, s)
       <==> x in Spine(INIT_PART, s) || exists i :: 0 <= i < |Forks(s, 0)| && x in Forks(s, 0)[i].Buses()
  {
    var bs, root, fs := Buses(Shipped, INIT_PART, s), Spine(INIT_PART, s), Forks(s, 0);
    ShippedCount(INIT_PART, s, 0, x);
    CountIsPositive(x, bs);
    CountIsPositive(x, root);
    if CountInForks(x, fs) > 0 { var i := ForkIsFound(x, fs); }
    if i :| 0 <= i < |fs| && x in fs[i].Buses() {
      CountIsPositive(x, fs[i].Buses());
      CountInOne(x, fs, i);
    }
  }

  lemma ForksAreInRange(s: Signal, i: nat)
    requires InRange(Buses(Shipped, INIT_PART, s)) && i < |Forks(s, 0)|
    ensures Forks(s, 0)[i].Fits()
  {
    var xs := Forks(s, 0)[i].Buses();
    forall j | 0 <= j < |xs| ensures 0 <= xs[j] < MAX_BUSES {
      assert xs[j] in xs;
      ShippedBusIff(s, xs[j]);
    }
    ForkFitsIff(Forks(s, 0)[i]);
  }

  lemma ShippedBusFits(s: Signal, x: int)
    requires Reach(s) <= MAX_BUSES && AllFit(Forks(s, 0)) && x in Buses(Shipped, INIT_PART, s)
    ensures 0 <= x < MAX_BUSES
  {
    ShippedBusIff(s, x);
    if x in Spine(INIT_PART, s) {
      SpineInRangeIff(INIT_PART, s);
    } else {
      var i :| 0 <= i < |Forks(s, 0)| && x in Forks(s, 0)[i].Buses();
      ForkFitsIff(Forks(s, 0)[i]);
    }
  }

  lemma ShippedInRangeIff(s: Signal)
    ensures InRange(Buses(Shipped, INIT_PART, s)) <==> Reach(s) <= MAX_BUSES && AllFit(Forks(s, 0))
  {
    var bs, root := Buses(Shipped, INIT_PART, s), Spine(INIT_PART, s);
    if InRange(bs) {
      forall i | 0 <= i < |Forks(s, 0)| ensures Forks(s, 0)[i].Fits() { ForksAreInRange(s, i); }
      forall j | 0 <= j < |root| ensures 0 <= root[j] < MAX_BUSES {
        assert root[j] in root;
        ShippedBusIff(s, root[j]);
      }
      SpineInRangeIff(INIT_PART, s);
    }
    if Reach(s) <= MAX_BUSES && AllFit(Forks(s, 0)) {
      forall j | 0 <= j < |bs| ensures 0 <= bs[j] < MAX_BUSES { ShippedBusFits(s, bs[j]); }
    }
  }

  /** Exactly which signals the library as it is gives buses that exist and are not shared. */
  lemma ShippedAllocatesIff(s: Signal)
    ensures Allocated(Shipped, INIT_PART, s) <==> Unshared(s) && Reach(s) <= MAX_BUSES && AllFit(Forks(s, 0))
  {
    ShippedIsDistinctIff(s);
    ShippedInRangeIff(s);
  }

  // ----- The dividing split -----

  /** How many steps of its partition a signal reaches over under the dividing split. */
  function Span(s: Signal): nat {
    match s
    case Loop(b) => 1 + Span(b)
    case Delay(_, a) => 1 + Span(a)
    case Lift(_, a) => Span(a)
    case Lift2(_, a, b) => Max(LeftReach(Span(a)), 2 * Span(b))
    case Output(_, _, a) => Span(a)
    case _ => 0
  }

  /** The greatest of `xs` is the `n`-th element of `p`; nothing, if `n` is 0. */
  ghost predicate Tops(xs: seq<int>, p: Part, n: nat) {
    && (forall x :: x in xs ==> x <= p.Nth(n - 1))
    && (if n == 0 then xs == [] else p.Nth(n - 1) in xs)
  }

  lemma TopsFromStart(xs: seq<int>, p: Part, n: nat)
    requires p.Valid() && Tops(xs, RunPart(p).1, n)
    ensures Tops([p.o] + xs, p, 1 + n)
  {
    var q := RunPart(p).1;
    assert q.Nth(n - 1) == p.Nth(n);
    Scale(p.d, 0, n);
    assert p.o <= p.Nth(n);
  }

  lemma HalfTops(xs: seq<int>, q: Part, m: nat, p: Part, k: int, n: nat)
    requires p.Valid() && Tops(xs, q, m) && q.Nth(m - 1) == p.Nth(k - 1) && k <= n
    ensures forall x :: x in xs ==> x <= p.Nth(n - 1)
  {
    Scale(p.d, k - 1, n - 1);
  }

  lemma TopsOfHalves(xs: seq<int>, ys: seq<int>, p: Part, m: nat, n: nat)
    requires p.Valid() && Tops(xs, SplitPart(Inside, p).0, m) && Tops(ys, SplitPart(Inside, p).1, n)
    ensures Tops(xs + ys, p, Max(LeftReach(m), 2 * n))
  {
    var (l, r) := SplitPart(Inside, p);
    var k := Max(LeftReach(m), 2 * n);
    HalfNths(p, m, n);
    HalfTops(xs, l, m, p, 2 * m - 1, if m == 0 then 0 else k);
    HalfTops(ys, r, n, p, 2 * n, k);
  }

  lemma HalfNths(p: Part, m: int, n: int)
    ensures SplitPart(Inside, p).0.Nth(m - 1) == p.Nth(2 * m - 1 - 1)
    ensures SplitPart(Inside, p).1.Nth(n - 1) == p.Nth(2 * n - 1)
  {
  }

  lemma {:induction false} InsideTops(p: Part, s: Signal)
    requires p.Valid()
    ensures Tops(Buses(Inside, p, s), p, Span(s))
    decreases s
  {
    match s
    case Loop(b) => InsideTops(RunPart(p).1, b); TopsFromStart(Buses(Inside, RunPart(p).1, b), p, Span(b));
    case Delay(_, a) => InsideTops(RunPart(p).1, a); TopsFromStart(Buses(Inside, RunPart(p).1, a), p, Span(a));
    case Lift(_, a) => InsideTops(p, a);
    case Lift2(_, a, b) =>
      var (l, r) := SplitPart(Inside, p);
      InsideTops(l, a);
      InsideTops(r, b);
      TopsOfHalves(Buses(Inside, l, a), Buses(Inside, r, b), p, Span(a), Span(b));
    case Output(_, _, a) => InsideTops(p, a);
    case _ =>
  }

  lemma InsideInRangeIff(p: Part, s: Signal)
    requires p.Valid()
    ensures InRange(Buses(Inside, p, s)) <==> Span(s) == 0 || p.Nth(Span(s) - 1) < MAX_BUSES
  {
    var bs := Buses(Inside, p, s);
    InsideTops(p, s);
    BusesStayInPart(p, s);
    forall i | 0 <= i < |bs| ensures 0 <= bs[i] {
      var k: nat :| bs[i] == p.Nth(k);
      Scale(p.d, 0, k);
    }
    InRangeIffAll(bs);
  }

  /** Exactly which signals the dividing split gives sound buses. */
  lemma InsideAllocatesIff(s: Signal)
    ensures Allocated(Inside, INIT_PART, s) <==> Span(s) <= MAX_BUSES
  {
    AllocatedBusesAreDistinct(INIT_PART, s);
    InsideInRangeIff(INIT_PART, s);
  }

  // ----- What follows for compiled programs -----

  lemma {:induction false} RunnableTouches(s: Signal)
    requires Runnable(s)
    ensures forall x :: x in Touched(s) ==> x < MAX_BUSES
  {
    match s
    case Lift(_, a) => RunnableTouches(a);
    case Lift2(_, a, b) => RunnableTouches(a); RunnableTouches(b);
    case Output(_, _, a) => RunnableTouches(a);
    case _ =>
  }

  /** A compiled signal stays inside the bus memory exactly when all its buses exist. */
  lemma CompiledRunsIff(sp: Split, s: Signal, ins: set<int>, outs: set<int>)
    requires Supported(s, 0, ins, outs)
    ensures Runnable(Simplify(sp, INIT_PART, s)) <==> InRange(Buses(sp, INIT_PART, s))
  {
    var bs := Buses(sp, INIT_PART, s);
    if InRange(bs) {
      InstNone(s, 0);
      CompiledRuns(sp, INIT_PART, s, [], 0, ins, outs);
    }
    if Runnable(Simplify(sp, INIT_PART, s)) {
      CompiledTouchesItsBuses(sp, INIT_PART, s);
      RunnableTouches(Simplify(sp, INIT_PART, s));
      BusBound(sp, s);
      forall i | 0 <= i < |bs| ensures 0 <= bs[i] < MAX_BUSES { assert bs[i] in Touched(Simplify(sp, INIT_PART, s)); }
    }
  }

  /** What a caller can check before compiling with split `sp`. */
  predicate Fits(sp: Split, s: Signal) {
    match sp
    case Shipped => Unshared(s) && Reach(s) <= MAX_BUSES && AllFit(Forks(s, 0))
    case Inside => Span(s) <= MAX_BUSES
  }

  lemma AllocatesIff(sp: Split, s: Signal)
    ensures Allocated(sp, INIT_PART, s) <==> Fits(sp, s)
  {
    match sp
    case Shipped => ShippedAllocatesIff(s);
    case Inside => InsideAllocatesIff(s);
  }

  /** Compiler correctness for the signals that fit: the compiled signal runs and returns, at every sample
      of every run, what the signal denotes. */
  lemma FittingSignalsAreCorrect(sp: Split, s: Signal, inp: Channels, ins: set<int>, outs: set<int>, ms: seq<Mem>,
                                 t: nat)
    requires Fits(sp, s) && Supported(s, 0, ins, outs) && ins !! outs
    requires Run(Simplify(sp, INIT_PART, s), ms) && t < |ms|
    requires forall u :: 0 <= u < |ms| ==> Inputs(ins, inp, ms[u])
    ensures Runnable(Simplify(sp, INIT_PART, s))
    ensures StepResult(Simplify(sp, INIT_PART, s), ms[t]).0 == Den(s, [], inp, t)
  {
    AllocatesIff(sp, s);
    CompilerCorrect(sp, s, inp, ins, outs, ms, t);
  }

  /** The ordinary feedback filter fits the shipped split, although that does not divide its partition. */
  lemma FeedbackFilterFits(g: (Sample, Sample) -> Sample, n: int, c: int)
    ensures Fits(Shipped, Loop(Lift2(g, Input(c), Delay(n, Var(0)))))
  {
    var d := Delay(n, Var(0));
    var a := Lift2(g, Input(c), d);
    assert Reach(Var(0)) == 0 && Reach(Input(c)) == 0 && Forks(Var(0), 1) == [] && Forks(Input(c), 1) == [];
    assert Reach(d) == 1 && Forks(d, 1) == [] && Reach(a) == 0;
    assert Forks(Loop(a), 0) == Forks(a, 0) == [] + ([Fork(0, d)] + []) == [Fork(0, d)];
    assert Spine(RightPart(0), d) == [1];
    assert Spine(INIT_PART, Loop(a)) == [0] + Spine(Part(1, 1), a) == [0];
  }

  // ----- A shared bus that does no harm -----

  /** The shipped split gives bus 1 to the inner loop and to the delay, but the loop never reads it and the delay
      is the last to write it. */
  function SharedInVain(g: (Sample, Sample) -> Sample, x: Sample, n: int): Signal {
    Loop(Lift2(g, Loop(Constant(x)), Delay(1, Input(n))))
  }

  function SharedInVainProg(g: (Sample, Sample) -> Sample, x: Sample, n: int): Signal {
    Output(1, -1, Lift2(g, Output(1, -2, Constant(x)), Former(Input(-2), Output(1, -2, Input(n)))))
  }

  lemma TapsAreClosed(g: (Sample, Sample) -> Sample, x: Sample, n: int)
    ensures var taps := Lift2(g, Loop(Constant(x)), Delay(1, Input(n))); Subst(taps, 0, -1) == taps
  {
    var l, d := Loop(Constant(x)), Delay(1, Input(n));
    assert Subst(Constant(x), 1, -1) == Constant(x);
    assert Subst(Input(n), 0, -1) == Input(n);
    assert Subst(l, 0, -1) == l;
    assert Subst(d, 0, -1) == d;
  }

  lemma SharedInVainCompiles(g: (Sample, Sample) -> Sample, x: Sample, n: int)
    ensures Simplify(Shipped, INIT_PART, SharedInVain(g, x, n)) == SharedInVainProg(g, x, n)
  {
    var l, d := Loop(Constant(x)), Delay(1, Input(n));
    TapsAreClosed(g, x, n);
    assert Subst(Constant(x), 0, -2) == Constant(x);
    assert Simplify(Shipped, Part(1, 2), l) == Output(1, -2, Constant(x));
    assert Simplify(Shipped, Part(1, 2), d) == Former(Input(-2), Output(1, -2, Input(n)));
    assert Simplify(Shipped, Part(1, 1), Lift2(g, l, d)) ==
      Lift2(g, Output(1, -2, Constant(x)), Former(Input(-2), Output(1, -2, Input(n))));
  }

  lemma SharedInVainDoesNotFit(g: (Sample, Sample) -> Sample, x: Sample, n: int)
    ensures !Fits(Shipped, SharedInVain(g, x, n))
  {
    var l, d := Loop(Constant(x)), Delay(1, Input(n));
    assert SplitPart(Shipped, Part(1, 1)) == (Part(1, 2), Part(1, 2));
    assert Buses(Shipped, Part(1, 2), l) == [1] == Buses(Shipped, Part(1, 2), d);
    assert [1] + [1] == [1, 1] == Buses(Shipped, Part(1, 1), Lift2(g, l, d));
    assert Buses(Shipped, INIT_PART, SharedInVain(g, x, n)) == [0, 1, 1];
    ShippedIsDistinctIff(SharedInVain(g, x, n));
    assert [0, 1, 1][1] == [0, 1, 1][2];
  }

  lemma NextCellIsAnother(m: Mem, x: Sample)
    requires m.Ok()
    ensures m.Write(1, -2, x).Cell(1, m.count) == m.Cell(1, m.count)
  {
    assert (m.count % MAX_DELAY + 1) % MAX_DELAY != m.count % MAX_DELAY;
  }

  lemma InnerLoopStep(x: Sample, m: Mem)
    requires m.Ok()
    ensures var prog := Output(1, -2, Constant(x)); Runnable(prog) && StepResult(prog, m) == (x, m.Write(1, -2, x))
  {
    assert Runnable(Constant(x)) && StepResult(Constant(x), m) == (x, m);
  }

  lemma DelayedInputStep(n: int, m: Mem)
    requires m.Ok() && 0 <= n < MAX_INPUTS
    ensures var prog := Former(Input(-2), Output(1, -2, Input(n)));
      Runnable(prog) && StepResult(prog, m) == (m.Cell(1, m.count), m.Write(1, -2, m.inputs[n]))
  {
    var write := Output(1, -2, Input(n));
    assert Runnable(Input(n)) && Runnable(Input(-2)) && StepResult(Input(n), m) == (m.inputs[n], m);
    assert Runnable(write) && StepResult(write, m) == (m.inputs[n], m.Write(1, -2, m.inputs[n]));
  }

  lemma SharedInVainStep(g: (Sample, Sample) -> Sample, x: Sample, n: int, m: Mem)
    requires m.Ok() && 0 <= n < MAX_INPUTS
    ensures var prog := SharedInVainProg(g, x, n);
      && Runnable(prog)
      && StepResult(prog, m).0 == g(x, m.Cell(1, m.count))
      && StepResult(prog, m).1.Cell(1, m.count + 1) == m.inputs[n]
  {
    var l, d := Output(1, -2, Constant(x)), Former(Input(-2), Output(1, -2, Input(n)));
    InnerLoopStep(x, m);
    var m1 := m.Write(1, -2, x);
    NextCellIsAnother(m, x);
    DelayedInputStep(n, m1);
    var y, m2 := m1.Cell(1, m.count), m1.Write(1, -2, m1.inputs[n]);
    assert Runnable(Lift2(g, l, d)) && StepResult(Lift2(g, l, d), m) == (g(x, y), m2);
    WriteBusCell(m1, 1, 1, m1.inputs[n]);
    WriteBusCell(m2, 1, 0, g(x, y));
  }

  /** So the shipped compiler may get a signal right to which it gives a shared bus: at every sample of every
      run this one returns what it denotes. */
  lemma {:induction false} SharedInVainIsCorrect(g: (Sample, Sample) -> Sample, x: Sample, n: int, inp: Channels,
                                                 ms: seq<Mem>, t: nat)
    requires 0 <= n < MAX_INPUTS && Run(Simplify(Shipped, INIT_PART, SharedInVain(g, x, n)), ms) && t < |ms|
    requires forall u :: 0 <= u < |ms| ==> Inputs({n}, inp, ms[u])
    ensures StepResult(Simplify(Shipped, INIT_PART, SharedInVain(g, x, n)), ms[t]).0 ==
              Den(SharedInVain(g, x, n), [], inp, t)
    ensures !Fits(Shipped, SharedInVain(g, x, n))
  {
    SharedInVainCompiles(g, x, n);
    SharedInVainDoesNotFit(g, x, n);
    SharedInVainStep(g, x, n, ms[t]);
    if t > 0 {
      SharedInVainStep(g, x, n, ms[t - 1]);
      assert ms[t].Cell(1, t) == StepResult(SharedInVainProg(g, x, n), ms[t - 1]).1.Cell(1, t);
    }
    SharedInVainMeans(g, x, n, inp, t);
  }

  lemma SharedInVainMeans(g: (Sample, Sample) -> Sample, x: Sample, n: int, inp: Channels, t: nat)
    ensures Den(SharedInVain(g, x, n), [], inp, t) == g(x, if t == 0 then 0.0 else inp(n, t - 1))
  {
    var l, d := Loop(Constant(x)), Delay(1, Input(n));
    var env := [Feedback(Lift2(g, l, d), [], inp)] + [];
    LoopLaw(Lift2(g, l, d), [], inp, t);
    LoopLaw(Constant(x), env, inp, t);
    assert Den(l, env, inp, t) == x;
    assert Den(d, env, inp, t) == if t == 0 then 0.0 else inp(n, t - 1);
    assert [Feedback(Lift2(g, l, d), [], inp)] + [] == env;
  }
}
