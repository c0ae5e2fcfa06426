/** When the split that shared/signal.c ships gives the program that was meant. */
module SplitAgreement {
  import opened Signals
  import opened Compiler
  import opened Stepper
  import opened Correctness
  import opened Allocation

  /** No binary node compiled away from bus 0 has a loop or a delay in its second operand; `start` says
      that `s` is compiled from a partition that begins at bus 0.  Only the first operands of binary nodes
      that no loop or delay encloses are. */
  predicate Spread(s: Signal, start: bool) {
    match s
    case Loop(b) => Spread(b, false)
    case Delay(_, a) => Spread(a, false)
    case Lift(_, a) => Spread(a, start)
    case Lift2(_, a, b) => Spread(a, start) && if start then Spread(b, false) else BusDepth(b) == 0
    case Output(_, _, a) => Spread(a, start)
    case _ => true
  }

  lemma {:induction false} BusesCount(sp: Split, sp': Split, p: Part, p': Part, s: Signal)
    ensures |Buses(sp, p, s)| == |Buses(sp', p', s)|
    ensures Buses(sp, p, s) == [] <==> BusDepth(s) == 0
    decreases s
  {
    match s
    case Loop(b) => BusesCount(sp, sp', RunPart(p).1, RunPart(p').1, b);
    case Delay(_, a) => BusesCount(sp, sp', RunPart(p).1, RunPart(p').1, a);
    case Lift(_, a) => BusesCount(sp, sp', p, p', a);
    case Lift2(_, a, b) =>
      BusesCount(sp, sp', SplitPart(sp, p).0, SplitPart(sp', p').0, a);
      BusesCount(sp, sp', SplitPart(sp, p).1, SplitPart(sp', p').1, b);
    case Output(_, _, a) => BusesCount(sp, sp', p, p', a);
    case _ =>
  }

  lemma SameHalves(x: seq<int>, y: seq<int>, x': seq<int>, y': seq<int>)
    requires |x| == |x'|
    ensures x + y == x' + y' <==> x == x' && y == y'
  {
    assert (x + y)[..|x|] == x && (x' + y')[..|x'|] == x';
    assert (x + y)[|x|..] == y && (x' + y')[|x'|..] == y';
  }

  /** From a partition that begins further on, the dividing split hands out a later bus first. */
  lemma {:induction false} FirstBusIsLater(p: Part, q: Part, s: Signal)
    requires p.Valid() && q.Valid() && p.o < q.o && p.d == q.d && BusDepth(s) > 0
    ensures Buses(Shipped, p, s) != [] && Buses(Inside, q, s) != []
    ensures Buses(Shipped, p, s)[0] < Buses(Inside, q, s)[0]
    decreases s
  {
    match s
    case Lift(_, a) => FirstBusIsLater(p, q, a);
    case Output(_, _, a) => FirstBusIsLater(p, q, a);
    case Lift2(_, a, b) =>
      var (p1, p2) := SplitPart(Shipped, p);
      var (q1, q2) := SplitPart(Inside, q);
      BusesCount(Shipped, Inside, p1, q1, a);
      if BusDepth(a) > 0 { FirstBusIsLater(p1, q1, a); } else { FirstBusIsLater(p2, q2, b); }
    case _ =>
  }

  /** The shipped split hands out the same buses as the dividing one exactly when the signal is spread. */
  lemma {:induction false} ShippedAgreesIff(p: Part, s: Signal)
    requires p.Valid()
    ensures Buses(Shipped, p, s) == Buses(Inside, p, s) <==> Spread(s, p.o == 0)
    decreases s, 0
  {
    match s
    case Loop(b) => ShippedAgreesAfterBus(p, s, b);
    case Delay(_, a) => ShippedAgreesAfterBus(p, s, a);
    case Lift(_, a) => ShippedAgreesIff(p, a);
    case Output(_, _, a) => ShippedAgreesIff(p, a);
    case Lift2(_, a, b) =>
      var (p1, p2) := SplitPart(Shipped, p);
      var (q1, q2) := SplitPart(Inside, p);
      ShippedAgreesIff(p1, a);
      BusesCount(Shipped, Inside, p1, q1, a);
      BusesCount(Shipped, Inside, p2, q2, b);
      SameHalves(Buses(Shipped, p1, a), Buses(Shipped, p2, b), Buses(Inside, q1, a), Buses(Inside, q2, b));
      if p.o == 0 { ShippedAgreesIff(p2, b); } else if BusDepth(b) > 0 { FirstBusIsLater(p2, q2, b); }
    case _ =>
  }

  lemma {:induction false} ShippedAgreesAfterBus(p: Part, s: Signal, inner: Signal)
    requires p.Valid() && (s == Loop(inner) || (s.Delay? && s.a == inner))
    ensures Buses(Shipped, p, s) == Buses(Inside, p, s) <==> Spread(s, p.o == 0)
    decreases inner, 1
  {
    ShippedAgreesIff(RunPart(p).1, inner);
    SameHalves([p.o], Buses(Shipped, RunPart(p).1, inner), [p.o], Buses(Inside, RunPart(p).1, inner));
  }

  /** Programs are the same exactly when they were given the same buses. */
  lemma {:induction false} SameProgramIffSameBuses(sp: Split, sp': Split, p: Part, p': Part, s: Signal)
    ensures Simplify(sp, p, s) == Simplify(sp', p', s) <==> Buses(sp, p, s) == Buses(sp', p', s)
    decreases Size(s)
  {
    match s
    case Loop(b) =>
      var c, c' := NegBus(p.o), NegBus(p'.o);
      SubstKeepsBuses(sp, RunPart(p).1, b, 0, c);
      SubstKeepsBuses(sp', RunPart(p').1, b, 0, c);
      SameHalves([p.o], Buses(sp, RunPart(p).1, b), [p'.o], Buses(sp', RunPart(p').1, b));
      SameProgramIffSameBuses(sp, sp', RunPart(p).1, RunPart(p').1, Subst(b, 0, c));
    case Delay(_, a) =>
      SameHalves([p.o], Buses(sp, RunPart(p).1, a), [p'.o], Buses(sp', RunPart(p').1, a));
      SameProgramIffSameBuses(sp, sp', RunPart(p).1, RunPart(p').1, a);
    case Lift(_, a) => SameProgramIffSameBuses(sp, sp', p, p', a);
    case Output(_, _, a) => SameProgramIffSameBuses(sp, sp', p, p', a);
    case Lift2(_, a, b) =>
      var (l, r) := SplitPart(sp, p);
      var (l', r') := SplitPart(sp', p');
      BusesCount(sp, sp', l, l', a);
      SameHalves(Buses(sp, l, a), Buses(sp, r, b), Buses(sp', l', a), Buses(sp', r', b));
      SameProgramIffSameBuses(sp, sp', l, l', a);
      SameProgramIffSameBuses(sp, sp', r, r', b);
    case _ =>
  }

  /** What the library compiles is what it is meant to compile exactly for spread signals. */
  lemma ShippedProgramIsIntendedIff(s: Signal)
    ensures Simplify(Shipped, INIT_PART, s) == Simplify(Inside, INIT_PART, s) <==> Spread(s, true)
  {
    SameProgramIffSameBuses(Shipped, Inside, INIT_PART, INIT_PART, s);
    ShippedAgreesIff(INIT_PART, s);
  }

  /** The library as it is gives a spread signal sound buses, and its program runs, exactly when the signal
      does not reach over more buses than there are. */
  lemma SpreadSignalsAllocate(s: Signal, ins: set<int>, outs: set<int>)
    requires Spread(s, true) && Supported(s, 0, ins, outs)
    ensures Allocated(Shipped, INIT_PART, s) <==> Span(s) <= MAX_BUSES
    ensures Runnable(Simplify(Shipped, INIT_PART, s)) <==> Span(s) <= MAX_BUSES
  {
    ShippedAgreesIff(INIT_PART, s);
    InsideAllocatesIff(s);
    AllocatedBusesAreDistinct(INIT_PART, s);
    CompiledRunsIff(Shipped, s, ins, outs);
  }

  /** Buses that agree with those of the dividing split are not shared. */
  lemma SpreadIsUnshared(s: Signal)
    requires Spread(s, true)
    ensures Unshared(s)
  {
    ShippedAgreesIff(INIT_PART, s);
    AllocatedBusesAreDistinct(INIT_PART, s);
    ShippedIsDistinctIff(s);
  }
}
