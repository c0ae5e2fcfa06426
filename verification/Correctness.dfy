/** The compiled program computes what the signal denotes, at every sample. */
module Correctness {
  import opened Basics
  import opened Signals
  import opened Compiler
  import opened Stepper

  // ----- The delay line -----

  /** Bus `bus` holds, for each sample it will next be read at, the value `y` had `n` samples before. */
  ghost predicate Carries(m: Mem, bus: int, n: nat, y: Stream, t: nat)
    requires m.Ok() && 0 <= bus < MAX_BUSES
  {
    forall u: nat :: t <= u < t + n ==> m.Cell(bus, u) == Delayed(y, n, u)
  }

  ghost function Delayed(y: Stream, n: nat, u: nat): Sample {
    if u < n then 0.0 else y(u - n)
  }

  lemma RingSlots(t: nat, n: nat)
    requires n <= MAX_DELAY
    ensures (t % MAX_DELAY + n) % MAX_DELAY == (t + n) % MAX_DELAY
    ensures forall u: nat :: t < u < t + n ==> u % MAX_DELAY != (t + n) % MAX_DELAY
  {
  }

  /** Writing at distance `n` reaches the cell of sample `t + n`, and no cell that is
      still to be read before it, nor any other bus. */
  lemma WriteBusCell(m: Mem, n: nat, bus: int, x: Sample)
    requires m.Ok() && 0 <= bus < MAX_BUSES && n <= MAX_DELAY
    ensures var m' := m.Write(n, NegBus(bus), x);
            && m'.inputs == m.inputs
            && m'.Cell(bus, m.count + n) == x
            && (forall u: nat :: m.count < u < m.count + n ==> m'.Cell(bus, u) == m.Cell(bus, u))
            && (forall b, u: nat :: 0 <= b < MAX_BUSES && b != bus ==> m'.Cell(b, u) == m.Cell(b, u))
  {
    RingSlots(m.count, n);
  }

  /** A sample written at `t` is the one read at `t + n`, when the cell of `t` is read before the write. */
  lemma DelayLine(m: Mem, bus: int, n: nat, y: Stream)
    requires m.Ok() && 0 <= bus < MAX_BUSES && 1 <= n <= MAX_DELAY
    requires Carries(m, bus, n, y, m.count)
    ensures m.Read(NegBus(bus)) == Delayed(y, n, m.count)
    ensures Carries(m.Write(n, NegBus(bus), y(m.count)), bus, n, y, m.count + 1)
  {
    WriteBusCell(m, n, bus, y(m.count));
  }

  // ----- Which signals the theorem is about -----

  /** Loop variables are bound, delays fit the bus memory, inputs read channels in `ins` and
      outputs write channels in `outs`. */
  predicate Supported(s: Signal, bound: nat, ins: set<int>, outs: set<int>) {
    match s
    case Time => true
    case Constant(_) => true
    case Lift(_, a) => Supported(a, bound, ins, outs)
    case Lift2(_, a, b) => Supported(a, bound, ins, outs) && Supported(b, bound, ins, outs)
    case Loop(b) => Supported(b, bound + 1, ins, outs)
    case Delay(n, a) => 1 <= n <= MAX_DELAY && Supported(a, bound, ins, outs)
    case Input(c) => 0 <= c < MAX_INPUTS && c in ins
    case Output(_, c, a) => 0 <= c < MAX_INPUTS && c in outs && Supported(a, bound, ins, outs)
    case Var(i) => i < bound
  }

  predicate InRange(buses: seq<int>) {
    forall i :: 0 <= i < |buses| ==> 0 <= buses[i] < MAX_BUSES
  }

  /** The allocation of a signal is sound: buses exist and none is shared. */
  ghost predicate Allocated(sp: Split, p: Part, s: Signal) {
    Distinct(Buses(sp, p, s)) && InRange(Buses(sp, p, s))
  }

  /** Variables replaced by the channels their loops were compiled to. */
  function Inst(s: Signal, k: nat, chans: seq<int>): Signal {
    match s
    case Var(i) =>
      if i < k then s else if i - k < |chans| then Input(chans[i - k]) else Var(i - |chans|)
    case Lift(f, a) => Lift(f, Inst(a, k, chans))
    case Lift2(g, a, b) => Lift2(g, Inst(a, k, chans), Inst(b, k, chans))
    case Loop(b) => Loop(Inst(b, k + 1, chans))
    case Delay(n, a) => Delay(n, Inst(a, k, chans))
    case Output(n, o, a) => Output(n, o, Inst(a, k, chans))
    case Time => s
    case Constant(_) => s
    case Input(_) => s
  }

  lemma {:induction false} InstStep(s: Signal, k: nat, chans: seq<int>, c: int)
    ensures Subst(Inst(s, k + 1, chans), k, c) == Inst(s, k, [c] + chans)
  {
    match s
    case Lift(_, a) => InstStep(a, k, chans, c);
    case Lift2(_, a, b) => InstStep(a, k, chans, c); InstStep(b, k, chans, c);
    case Loop(b) => InstStep(b, k + 1, chans, c);
    case Delay(_, a) => InstStep(a, k, chans, c);
    case Output(_, _, a) => InstStep(a, k, chans, c);
    case _ =>
  }

  lemma {:induction false} InstNone(s: Signal, k: nat)
    ensures Inst(s, k, []) == s
  {
    match s
    case Lift(_, a) => InstNone(a, k);
    case Lift2(_, a, b) => InstNone(a, k); InstNone(b, k);
    case Loop(b) => InstNone(b, k + 1);
    case Delay(_, a) => InstNone(a, k);
    case Output(_, _, a) => InstNone(a, k);
    case _ =>
  }

  // ----- The invariant between samples -----

  /** A delay line: what bus `bus` carries, and how many samples late. */
  datatype Line = Line(bus: int, n: nat, y: Stream)

  ghost function Values(s: Signal, env: seq<Stream>, inp: Channels): Stream {
    (t: nat) => Den(s, env, inp, t)
  }

  /** The delay lines of a compiled signal, one for each bus it was given. */
  ghost function Lines(sp: Split, p: Part, s: Signal, env: seq<Stream>, inp: Channels): (ls: seq<Line>)
    ensures |ls| == |Buses(sp, p, s)|
    ensures forall i :: 0 <= i < |ls| ==> ls[i].bus == Buses(sp, p, s)[i]
    decreases s
  {
    match s
    case Lift(_, a) => Lines(sp, p, a, env, inp)
    case Lift2(_, a, b) =>
      Lines(sp, SplitPart(sp, p).0, a, env, inp) + Lines(sp, SplitPart(sp, p).1, b, env, inp)
    case Loop(b) =>
      [Line(p.o, 1, Values(s, env, inp))] + Lines(sp, RunPart(p).1, b, [Feedback(b, env, inp)] + env, inp)
    case Delay(n, a) =>
      [Line(p.o, if n < 0 then 0 else n, Values(a, env, inp))] + Lines(sp, RunPart(p).1, a, env, inp)
    case Output(_, _, a) => Lines(sp, p, a, env, inp)
    case _ => []
  }

  ghost predicate LinesCarry(ls: seq<Line>, m: Mem, t: nat)
    requires m.Ok()
  {
    forall i :: 0 <= i < |ls| && 0 <= ls[i].bus < MAX_BUSES ==> Carries(m, ls[i].bus, ls[i].n, ls[i].y, t)
  }

  /** `m'` differs from `m` only on `buses` and on the channels `outs`. */
  ghost predicate Confined(buses: seq<int>, outs: set<int>, m: Mem, m': Mem)
    requires m.Ok() && m'.Ok()
  {
    && m'.count == m.count
    && (forall b, u: nat :: 0 <= b < MAX_BUSES && b !in buses ==> m'.Cell(b, u) == m.Cell(b, u))
    && (forall c :: 0 <= c < MAX_INPUTS && c !in outs ==> m'.inputs[c] == m.inputs[c])
  }

  lemma LinesFrame(ls: seq<Line>, buses: seq<int>, outs: set<int>, m: Mem, m': Mem, t: nat)
    requires m.Ok() && m'.Ok() && LinesCarry(ls, m, t) && Confined(buses, outs, m, m')
    requires forall i :: 0 <= i < |ls| ==> ls[i].bus !in buses
    ensures LinesCarry(ls, m', t)
  {
    forall i | 0 <= i < |ls| && 0 <= ls[i].bus < MAX_BUSES
      ensures Carries(m', ls[i].bus, ls[i].n, ls[i].y, t)
    {
      assert Carries(m, ls[i].bus, ls[i].n, ls[i].y, t);
    }
  }

  lemma LinesJoin(ls1: seq<Line>, ls2: seq<Line>, m: Mem, t: nat)
    requires m.Ok()
    ensures LinesCarry(ls1 + ls2, m, t) <==> LinesCarry(ls1, m, t) && LinesCarry(ls2, m, t)
  {
    var ls := ls1 + ls2;
    if LinesCarry(ls, m, t) {
      forall i | 0 <= i < |ls1| && 0 <= ls1[i].bus < MAX_BUSES ensures Carries(m, ls1[i].bus, ls1[i].n, ls1[i].y, t) {
        assert ls[i] == ls1[i];
      }
      forall i | 0 <= i < |ls2| && 0 <= ls2[i].bus < MAX_BUSES ensures Carries(m, ls2[i].bus, ls2[i].n, ls2[i].y, t) {
        assert ls[|ls1| + i] == ls2[i];
      }
    }
  }

  // ----- One step -----

  /** The channels standing for enclosing loops hold this sample's looped-back values, and their
      buses are not handed out again inside. */
  ghost predicate Bound(chans: seq<int>, env: seq<Stream>, buses: seq<int>, m: Mem)
    requires m.Ok()
  {
    && |chans| == |env|
    && forall i :: 0 <= i < |chans| ==>
         && chans[i] < 0 && HasChannel(chans[i]) && NegBus(chans[i]) !in buses
         && m.Read(chans[i]) == env[i](m.count)
  }

  /** The inputs on the channels the signal may read. */
  ghost predicate Inputs(ins: set<int>, inp: Channels, m: Mem)
    requires m.Ok()
  {
    forall c :: c in ins && 0 <= c < MAX_INPUTS ==> m.inputs[c] == inp(c, m.count)
  }

  ghost predicate Ready(sp: Split, p: Part, s: Signal, chans: seq<int>, env: seq<Stream>, inp: Channels,
                        ins: set<int>, outs: set<int>, m: Mem)
  {
    && m.Ok()
    && Allocated(sp, p, s)
    && Supported(s, |env|, ins, outs) && ins !! outs
    && Bound(chans, env, Buses(sp, p, s), m)
    && Inputs(ins, inp, m)
    && LinesCarry(Lines(sp, p, s, env, inp), m, m.count)
  }

  /** `prog` does at `m` what the compiled form of `s` should: it returns the value `x`, touches only its
      buses and outputs, and readies its delay lines `ls` for the next sample. */
  ghost predicate Done(prog: Signal, x: Sample, buses: seq<int>, ls: seq<Line>, outs: set<int>, m: Mem)
    requires m.Ok()
  {
    && Runnable(prog)
    && StepResult(prog, m).0 == x
    && Confined(buses, outs, m, StepResult(prog, m).1)
    && LinesCarry(ls, StepResult(prog, m).1, m.count + 1)
  }

  /** One step of a compiled signal: from the invariant at sample `t` it returns the denotation
      at `t` and restores the invariant for `t + 1`. */
  lemma {:induction false} StepCorrect(sp: Split, p: Part, s: Signal, chans: seq<int>, env: seq<Stream>, inp: Channels,
                                       ins: set<int>, outs: set<int>, m: Mem)
    requires Ready(sp, p, s, chans, env, inp, ins, outs, m)
    ensures Done(Simplify(sp, p, Inst(s, 0, chans)), Den(s, env, inp, m.count), Buses(sp, p, s),
                 Lines(sp, p, s, env, inp), outs, m)
    decreases s
  {
    match s
    case Time =>
    case Constant(_) =>
    case Input(_) =>
    case Var(i) => assert m.Read(chans[i]) == env[i](m.count);
    case Lift(_, a) => StepCorrect(sp, p, a, chans, env, inp, ins, outs, m);
    case Output(_, c, a) =>
      StepCorrect(sp, p, a, chans, env, inp, ins, outs, m);
      OutputDone(s.n, c, Simplify(sp, p, Inst(a, 0, chans)), Den(a, env, inp, m.count), Buses(sp, p, s),
                 Lines(sp, p, s, env, inp), outs, m);
    case Lift2(_, a, b) => StepLift2(sp, p, s, chans, env, inp, ins, outs, m);
    case Loop(b) => StepLoop(sp, p, s, chans, env, inp, ins, outs, m);
    case Delay(n, a) => StepDelay(sp, p, s, chans, env, inp, ins, outs, m);
  }

  lemma OutputDone(n: int, c: int, prog: Signal, x: Sample, buses: seq<int>, ls: seq<Line>, outs: set<int>, m: Mem)
    requires m.Ok() && 0 <= c < MAX_INPUTS && c in outs && Done(prog, x, buses, ls, outs, m)
    ensures Done(Output(n, c, prog), x, buses, ls, outs, m)
  {
    var m1 := StepResult(prog, m).1;
    var m2 := StepResult(Output(n, c, prog), m).1;
    assert Confined([], outs, m1, m2);
    LinesFrame(ls, [], outs, m1, m2, m.count + 1);
  }

  lemma Lift2Left(sp: Split, p: Part, s: Signal, chans: seq<int>, env: seq<Stream>, inp: Channels,
                  ins: set<int>, outs: set<int>, m: Mem)
    requires s.Lift2? && Ready(sp, p, s, chans, env, inp, ins, outs, m)
    ensures Ready(sp, SplitPart(sp, p).0, s.a, chans, env, inp, ins, outs, m)
  {
    var (p1, p2) := SplitPart(sp, p);
    BothHalves(Buses(sp, p1, s.a), Buses(sp, p2, s.b));
    LinesJoin(Lines(sp, p1, s.a, env, inp), Lines(sp, p2, s.b, env, inp), m, m.count);
  }

  /** Running the left operand does not disturb the right one. */
  lemma Lift2Right(sp: Split, p: Part, s: Signal, chans: seq<int>, env: seq<Stream>, inp: Channels,
                   ins: set<int>, outs: set<int>, m: Mem, m1: Mem)
    requires s.Lift2? && Ready(sp, p, s, chans, env, inp, ins, outs, m) && m1.Ok()
    requires Confined(Buses(sp, SplitPart(sp, p).0, s.a), outs, m, m1)
    ensures Ready(sp, SplitPart(sp, p).1, s.b, chans, env, inp, ins, outs, m1)
  {
    var (p1, p2) := SplitPart(sp, p);
    var bs1, bs2, ls2 := Buses(sp, p1, s.a), Buses(sp, p2, s.b), Lines(sp, p2, s.b, env, inp);
    BothHalves(bs1, bs2);
    LinesJoin(Lines(sp, p1, s.a, env, inp), ls2, m, m.count);
    LinesFrame(ls2, bs1, outs, m, m1, m.count);
    BoundFrame(chans, env, bs1, bs1 + bs2, bs2, outs, m, m1);
  }

  lemma Lift2Done(g: (Sample, Sample) -> Sample, prog1: Signal, x: Sample, bs1: seq<int>, ls1: seq<Line>,
                  prog2: Signal, y: Sample, bs2: seq<int>, ls2: seq<Line>, outs: set<int>, m: Mem)
    requires m.Ok() && Done(prog1, x, bs1, ls1, outs, m) && Done(prog2, y, bs2, ls2, outs, StepResult(prog1, m).1)
    requires forall i :: 0 <= i < |ls1| ==> ls1[i].bus !in bs2
    ensures Done(Lift2(g, prog1, prog2), g(x, y), bs1 + bs2, ls1 + ls2, outs, m)
  {
    var m1 := StepResult(prog1, m).1;
    var m2 := StepResult(prog2, m1).1;
    LinesFrame(ls1, bs2, outs, m1, m2, m.count + 1);
    LinesJoin(ls1, ls2, m2, m.count + 1);
  }

  lemma {:induction false} StepLift2(sp: Split, p: Part, s: Signal, chans: seq<int>, env: seq<Stream>, inp: Channels,
                                     ins: set<int>, outs: set<int>, m: Mem)
    requires s.Lift2? && Ready(sp, p, s, chans, env, inp, ins, outs, m)
    ensures Done(Simplify(sp, p, Inst(s, 0, chans)), Den(s, env, inp, m.count), Buses(sp, p, s),
                 Lines(sp, p, s, env, inp), outs, m)
    decreases s, 0
  {
    var (p1, p2) := SplitPart(sp, p);
    var prog1, prog2 := Simplify(sp, p1, Inst(s.a, 0, chans)), Simplify(sp, p2, Inst(s.b, 0, chans));
    Lift2Left(sp, p, s, chans, env, inp, ins, outs, m);
    StepCorrect(sp, p1, s.a, chans, env, inp, ins, outs, m);
    var m1 := StepResult(prog1, m).1;
    Lift2Right(sp, p, s, chans, env, inp, ins, outs, m, m1);
    StepCorrect(sp, p2, s.b, chans, env, inp, ins, outs, m1);
    var bs1, bs2 := Buses(sp, p1, s.a), Buses(sp, p2, s.b);
    BothHalves(bs1, bs2);
    Lift2Done(s.g, prog1, Den(s.a, env, inp, m.count), bs1, Lines(sp, p1, s.a, env, inp),
              prog2, Den(s.b, env, inp, m.count), bs2, Lines(sp, p2, s.b, env, inp), outs, m);
  }

  lemma BothHalves(x: seq<int>, y: seq<int>)
    requires Distinct(x + y) && InRange(x + y)
    ensures Distinct(x) && Distinct(y) && InRange(x) && InRange(y)
    ensures forall i :: 0 <= i < |x| ==> x[i] !in y
    ensures forall i :: 0 <= i < |y| ==> y[i] !in x
  {
    var z := x + y;
    assert forall i :: 0 <= i < |x| ==> z[i] == x[i];
    assert forall i :: 0 <= i < |y| ==> z[|x| + i] == y[i];
  }

  lemma BoundFrame(chans: seq<int>, env: seq<Stream>, changed: seq<int>, buses: seq<int>, inner: seq<int>,
                   outs: set<int>, m: Mem, m': Mem)
    requires m.Ok() && m'.Ok()
    requires Bound(chans, env, buses, m) && Confined(changed, outs, m, m')
    requires (forall b :: b in changed ==> b in buses) && (forall b :: b in inner ==> b in buses)
    ensures Bound(chans, env, inner, m')
  {
    forall i | 0 <= i < |chans|
      ensures m'.Read(chans[i]) == m.Read(chans[i])
    {
      assert m'.Cell(NegBus(chans[i]), m.count) == m.Cell(NegBus(chans[i]), m.count);
    }
  }

  /** After its operand has run, a loop or delay node writes the value where it will be read. */
  lemma WriteBack(bus: int, n: nat, y: Stream, buses: seq<int>, ls: seq<Line>, outs: set<int>, m: Mem, m1: Mem)
    requires m.Ok() && m1.Ok() && 1 <= n <= MAX_DELAY && 0 <= bus < MAX_BUSES && bus !in buses
    requires forall i :: 0 <= i < |ls| ==> ls[i].bus in buses
    requires Carries(m, bus, n, y, m.count) && Confined(buses, outs, m, m1) && LinesCarry(ls, m1, m.count + 1)
    ensures var m2 := m1.Write(n, NegBus(bus), y(m.count));
            Confined([bus] + buses, outs, m, m2) && LinesCarry([Line(bus, n, y)] + ls, m2, m.count + 1)
  {
    var m2 := m1.Write(n, NegBus(bus), y(m.count));
    assert forall u: nat :: m1.Cell(bus, u) == m.Cell(bus, u);
    assert Carries(m1, bus, n, y, m.count);
    DelayLine(m1, bus, n, y);
    WriteBusCell(m1, n, bus, y(m.count));
    assert Confined([bus], outs, m1, m2);
    LinesFrame(ls, [bus], outs, m1, m2, m.count + 1);
    LinesJoin([Line(bus, n, y)], ls, m2, m.count + 1);
  }

  lemma FirstLine(bus: int, n: nat, y: Stream, buses: seq<int>, ls: seq<Line>, m: Mem)
    requires m.Ok() && Distinct([bus] + buses) && InRange([bus] + buses)
    requires LinesCarry([Line(bus, n, y)] + ls, m, m.count)
    ensures 0 <= bus < MAX_BUSES && bus !in buses && Distinct(buses) && InRange(buses)
    ensures Carries(m, bus, n, y, m.count) && LinesCarry(ls, m, m.count)
  {
    BothHalves([bus], buses);
    assert ([bus] + buses)[0] == bus;
    LinesJoin([Line(bus, n, y)], ls, m, m.count);
    assert [Line(bus, n, y)][0] == Line(bus, n, y);
  }

  /** Inside a loop, its channel holds the value the loop had one sample earlier. */
  lemma LoopReady(sp: Split, p: Part, s: Signal, chans: seq<int>, env: seq<Stream>, inp: Channels,
                  ins: set<int>, outs: set<int>, m: Mem)
    requires s.Loop? && Ready(sp, p, s, chans, env, inp, ins, outs, m)
    ensures Ready(sp, RunPart(p).1, s.body, [NegBus(p.o)] + chans, [Feedback(s.body, env, inp)] + env, inp,
                  ins, outs, m)
  {
    var b, p1, bus, y := s.body, RunPart(p).1, p.o, Values(s, env, inp);
    var env1 := [Feedback(b, env, inp)] + env;
    FirstLine(bus, 1, y, Buses(sp, p1, b), Lines(sp, p1, b, env1, inp), m);
    assert m.Read(NegBus(bus)) == m.Cell(bus, m.count) == Feedback(b, env, inp)(m.count);
    assert Bound([NegBus(bus)] + chans, env1, Buses(sp, p1, b), m);
  }

  lemma {:induction false} StepLoop(sp: Split, p: Part, s: Signal, chans: seq<int>, env: seq<Stream>, inp: Channels,
                                    ins: set<int>, outs: set<int>, m: Mem)
    requires s.Loop? && Ready(sp, p, s, chans, env, inp, ins, outs, m)
    ensures Done(Simplify(sp, p, Inst(s, 0, chans)), Den(s, env, inp, m.count), Buses(sp, p, s),
                 Lines(sp, p, s, env, inp), outs, m)
    decreases s, 0
  {
    hide LinesCarry, Bound, Supported;
    var b, p1, bus, y := s.body, RunPart(p).1, p.o, Values(s, env, inp);
    var channel, env1 := NegBus(bus), [Feedback(b, env, inp)] + env;
    var bs1, ls1 := Buses(sp, p1, b), Lines(sp, p1, b, env1, inp);
    LoopReady(sp, p, s, chans, env, inp, ins, outs, m);
    StepCorrect(sp, p1, b, [channel] + chans, env1, inp, ins, outs, m);
    LoopLaw(b, env, inp, m.count);
    InstStep(b, 0, chans, channel);
    var inner := Simplify(sp, p1, Inst(b, 0, [channel] + chans));
    FirstLine(bus, 1, y, bs1, ls1, m);
    WriteBack(bus, 1, y, bs1, ls1, outs, m, StepResult(inner, m).1);
    assert Done(Output(1, channel, inner), y(m.count), [bus] + bs1, [Line(bus, 1, y)] + ls1, outs, m);
  }

  lemma {:induction false} StepDelay(sp: Split, p: Part, s: Signal, chans: seq<int>, env: seq<Stream>, inp: Channels,
                                     ins: set<int>, outs: set<int>, m: Mem)
    requires s.Delay? && Ready(sp, p, s, chans, env, inp, ins, outs, m)
    ensures Done(Simplify(sp, p, Inst(s, 0, chans)), Den(s, env, inp, m.count), Buses(sp, p, s),
                 Lines(sp, p, s, env, inp), outs, m)
    decreases s, 0
  {
    var a, p1, bus, n, y := s.a, RunPart(p).1, p.o, s.n, Values(s.a, env, inp);
    var bs1, ls1 := Buses(sp, p1, a), Lines(sp, p1, a, env, inp);
    FirstLine(bus, n, y, bs1, ls1, m);
    assert Bound(chans, env, bs1, m);
    StepCorrect(sp, p1, a, chans, env, inp, ins, outs, m);
    var inner := Simplify(sp, p1, Inst(a, 0, chans));
    WriteBack(bus, n, y, bs1, ls1, outs, m, StepResult(inner, m).1);
    DelayLine(m, bus, n, y);
    DelayDone((x, _) => x, bus, n, y, inner, [bus] + bs1, [Line(bus, n, y)] + ls1, outs, m);
  }

  lemma DelayDone(g: (Sample, Sample) -> Sample, bus: int, n: nat, y: Stream, inner: Signal,
                  buses: seq<int>, ls: seq<Line>, outs: set<int>, m: Mem)
    requires m.Ok() && 0 <= bus < MAX_BUSES && Runnable(inner) && forall x, z :: g(x, z) == x
    requires m.Read(NegBus(bus)) == Delayed(y, n, m.count)
    requires var (x, m1) := StepResult(inner, m); var m2 := m1.Write(n, NegBus(bus), x);
             Confined(buses, outs, m, m2) && LinesCarry(ls, m2, m.count + 1)
    ensures Done(Lift2(g, Input(NegBus(bus)), Output(n, NegBus(bus), inner)), Delayed(y, n, m.count),
                 buses, ls, outs, m)
  {
    var (x, m1) := StepResult(inner, m);
    var read, write := Input(NegBus(bus)), Output(n, NegBus(bus), inner);
    assert StepResult(write, m) == (x, m1.Write(n, NegBus(bus), x));
    assert StepResult(Lift2(g, read, write), m) == (g(m.Read(NegBus(bus)), x), m1.Write(n, NegBus(bus), x));
  }

  // ----- The whole run -----

  /** The memories before samples 0, 1, ...: between two steps anything may happen to the channels
      but only the program touches the buses, which start silent. */
  ghost predicate Run(prog: Signal, ms: seq<Mem>)
  {
    && Runnable(prog)
    && (forall t :: 0 <= t < |ms| ==> ms[t].Ok() && ms[t].count == t)
    && (|ms| > 0 ==> ms[0].buses == Zeroed().buses)
    && (forall t, u :: 0 <= t && u == t + 1 < |ms| ==> ms[u].buses == StepResult(prog, ms[t]).1.buses)
  }

  lemma {:induction false} RunInvariant(sp: Split, s: Signal, inp: Channels, ins: set<int>, outs: set<int>,
                                        ms: seq<Mem>, t: nat)
    requires Allocated(sp, INIT_PART, s) && Supported(s, 0, ins, outs) && ins !! outs
    requires Run(Simplify(sp, INIT_PART, s), ms) && t < |ms|
    requires forall u :: 0 <= u < |ms| ==> Inputs(ins, inp, ms[u])
    ensures Ready(sp, INIT_PART, s, [], [], inp, ins, outs, ms[t])
    decreases t
  {
    var ls := Lines(sp, INIT_PART, s, [], inp);
    if t == 0 {
      assert LinesCarry(ls, ms[0], 0);
    } else {
      RunInvariant(sp, s, inp, ins, outs, ms, t - 1);
      InstNone(s, 0);
      StepCorrect(sp, INIT_PART, s, [], [], inp, ins, outs, ms[t - 1]);
      SameBusesCarry(ls, StepResult(Simplify(sp, INIT_PART, s), ms[t - 1]).1, ms[t], t);
    }
  }

  lemma SameBusesCarry(ls: seq<Line>, m: Mem, m': Mem, t: nat)
    requires m.Ok() && m'.Ok() && m.buses == m'.buses && LinesCarry(ls, m, t)
    ensures LinesCarry(ls, m', t)
  {
    forall i | 0 <= i < |ls| && 0 <= ls[i].bus < MAX_BUSES
      ensures Carries(m', ls[i].bus, ls[i].n, ls[i].y, t)
    {
      assert Carries(m, ls[i].bus, ls[i].n, ls[i].y, t);
    }
  }

  /** Compiler correctness: at every sample of every run, the compiled program returns what the
      signal denotes, provided no bus is allocated twice and all of them exist. */
  lemma CompilerCorrect(sp: Split, s: Signal, inp: Channels, ins: set<int>, outs: set<int>, ms: seq<Mem>, t: nat)
    requires Allocated(sp, INIT_PART, s) && Supported(s, 0, ins, outs) && ins !! outs
    requires Run(Simplify(sp, INIT_PART, s), ms) && t < |ms|
    requires forall u :: 0 <= u < |ms| ==> Inputs(ins, inp, ms[u])
    ensures StepResult(Simplify(sp, INIT_PART, s), ms[t]).0 == Den(s, [], inp, t)
  {
    RunInvariant(sp, s, inp, ins, outs, ms, t);
    InstNone(s, 0);
    StepCorrect(sp, INIT_PART, s, [], [], inp, ins, outs, ms[t]);
  }

  lemma LowerBuses(sp: Split, p: Part, s: Signal)
    requires InRange(Buses(sp, p, s))
    ensures s.Loop? ==> 0 <= p.o < MAX_BUSES && InRange(Buses(sp, RunPart(p).1, s.body))
    ensures s.Delay? ==> 0 <= p.o < MAX_BUSES && InRange(Buses(sp, RunPart(p).1, s.a))
    ensures s.Lift2? ==> InRange(Buses(sp, SplitPart(sp, p).0, s.a)) && InRange(Buses(sp, SplitPart(sp, p).1, s.b))
  {
    var bs := Buses(sp, p, s);
    match s
    case Loop(b) => assert bs[0] == p.o && bs[1..] == Buses(sp, RunPart(p).1, b);
    case Delay(_, a) => assert bs[0] == p.o && bs[1..] == Buses(sp, RunPart(p).1, a);
    case Lift2(_, a, b) =>
      var as1 := Buses(sp, SplitPart(sp, p).0, a);
      assert bs[..|as1|] == as1 && bs[|as1|..] == Buses(sp, SplitPart(sp, p).1, b);
    case _ =>
  }

  lemma {:induction false} CompiledRuns(sp: Split, p: Part, s: Signal, chans: seq<int>, bound: nat,
                                        ins: set<int>, outs: set<int>)
    requires p.Valid() && InRange(Buses(sp, p, s)) && Supported(s, bound, ins, outs) && |chans| == bound
    requires forall i :: 0 <= i < bound ==> HasChannel(chans[i])
    ensures Runnable(Simplify(sp, p, Inst(s, 0, chans)))
    decreases s
  {
    LowerBuses(sp, p, s);
    match s
    case Lift(_, a) => CompiledRuns(sp, p, a, chans, bound, ins, outs);
    case Lift2(_, a, b) =>
      CompiledRuns(sp, SplitPart(sp, p).0, a, chans, bound, ins, outs);
      CompiledRuns(sp, SplitPart(sp, p).1, b, chans, bound, ins, outs);
    case Loop(b) =>
      InstStep(b, 0, chans, NegBus(p.o));
      CompiledRuns(sp, RunPart(p).1, b, [NegBus(p.o)] + chans, bound + 1, ins, outs);
    case Delay(_, a) =>
      CompiledRuns(sp, RunPart(p).1, a, chans, bound, ins, outs);
    case Output(_, _, a) => CompiledRuns(sp, p, a, chans, bound, ins, outs);
    case _ =>
  }

  /** With the inside split the side conditions are a count of nodes: K loops and delays and L binary
      nodes per path, with K * 2^L at most 64. */
  lemma FittingSignalsAllocate(s: Signal, ins: set<int>, outs: set<int>)
    requires Supported(s, 0, ins, outs)
    requires BusDepth(s) * Pow2(SplitDepth(s)) <= MAX_BUSES
    ensures Allocated(Inside, INIT_PART, s) && Runnable(Simplify(Inside, INIT_PART, s))
  {
    AllocatedBusesAreDistinct(INIT_PART, s);
    BusBound(Inside, s);
    InstNone(s, 0);
    CompiledRuns(Inside, INIT_PART, s, [], 0, ins, outs);
  }

  // ----- What the shipped split does to a signal that fits -----

  /** A loop around two delays: the shipped split hands bus 1 to both. */
  function TwoTaps(): Signal {
    Loop(Former(Delay(1, Constant(1.0)), Delay(1, Constant(2.0))))
  }

  function SharedTap(x: Sample): Signal {
    Former(Input(-2), Output(1, -2, Constant(x)))
  }

  lemma ShippedSharesABus()
    ensures Buses(Shipped, INIT_PART, TwoTaps()) == [0, 1, 1]
    ensures Simplify(Shipped, INIT_PART, TwoTaps()) == Output(1, -1, Former(SharedTap(1.0), SharedTap(2.0)))
  {
    var tap1, tap2 := Delay(1, Constant(1.0)), Delay(1, Constant(2.0));
    assert Buses(Shipped, Part(1, 2), tap1) == [1] == Buses(Shipped, Part(1, 2), tap2);
    assert Buses(Shipped, Part(1, 1), Former(tap1, tap2)) == [1, 1];
    assert Subst(Former(tap1, tap2), 0, -1) == Former(tap1, tap2);
    assert Simplify(Shipped, Part(1, 2), tap1) == SharedTap(1.0);
    assert Simplify(Shipped, Part(1, 2), tap2) == SharedTap(2.0);
    assert Simplify(Shipped, Part(1, 1), Former(tap1, tap2)) == Former(SharedTap(1.0), SharedTap(2.0));
  }

  lemma SharedTapStep(m: Mem, x: Sample)
    requires m.Ok()
    ensures Runnable(SharedTap(x))
    ensures StepResult(SharedTap(x), m) == (m.Cell(1, m.count), m.Write(1, -2, x))
    ensures m.Write(1, -2, x).Cell(1, m.count + 1) == x
  {
    assert StepResult(Output(1, -2, Constant(x)), m) == (x, m.Write(1, -2, x));
    WriteBusCell(m, 1, 1, x);
  }

  lemma SharedTapsStep(m: Mem)
    requires m.Ok()
    ensures var prog := Output(1, -1, Former(SharedTap(1.0), SharedTap(2.0)));
            && Runnable(prog)
            && StepResult(prog, m).0 == m.Cell(1, m.count)
            && StepResult(prog, m).1.Cell(1, m.count + 1) == 2.0
  {
    SharedTapStep(m, 1.0);
    var m1 := m.Write(1, -2, 1.0);
    SharedTapStep(m1, 2.0);
    var m2 := m1.Write(1, -2, 2.0);
    var taps := Former(SharedTap(1.0), SharedTap(2.0));
    assert Runnable(taps) && StepResult(taps, m) == (m.Cell(1, m.count), m2);
    WriteBusCell(m2, 1, 0, m.Cell(1, m.count));
  }

  /** A loop around two delayed constants is within every limit. */
  lemma TwoTapsFit(g: (Sample, Sample) -> Sample, x: Sample, y: Sample)
    ensures var s := Loop(Lift2(g, Delay(1, Constant(x)), Delay(1, Constant(y))));
            Supported(s, 0, {}, {}) && BusDepth(s) == 2 && SplitDepth(s) == 1
  {
    var a, b := Delay(1, Constant(x)), Delay(1, Constant(y));
    assert BusDepth(a) == 1 && BusDepth(b) == 1 && SplitDepth(a) == 0 && SplitDepth(b) == 0;
    assert Supported(a, 1, {}, {}) && Supported(b, 1, {}, {});
    var taps := Lift2(g, a, b);
    assert BusDepth(taps) == 1 && SplitDepth(taps) == 1;
  }

  /** Its value at sample 1 is the first delay's. */
  lemma TwoTapsMeans(taps: Signal, env: seq<Stream>, inp: Channels)
    requires Loop(taps) == TwoTaps()
    ensures Den(Loop(taps), env, inp, 1) == 1.0
  {
    LoopLaw(taps, env, inp, 1);
  }

  /** The shipped compiler gets it wrong: at sample 1 the first delay returns the second one's value. */
  lemma ShippedMiscompiles(s: Signal) returns (ms: seq<Mem>)
    requires s == TwoTaps()
    ensures |ms| == 2 && Run(Simplify(Shipped, INIT_PART, s), ms)
    ensures StepResult(Simplify(Shipped, INIT_PART, s), ms[1]).0 == 2.0
  {
    ShippedSharesABus();
    var prog := Simplify(Shipped, INIT_PART, s);
    ms := SharedTapsRun(prog);
  }

  lemma SharedTapsRun(prog: Signal) returns (ms: seq<Mem>)
    requires prog == Output(1, -1, Former(SharedTap(1.0), SharedTap(2.0)))
    ensures |ms| == 2 && Run(prog, ms) && StepResult(prog, ms[1]).0 == 2.0
  {
    var m0 := Zeroed();
    SharedTapsStep(m0);
    var m1 := StepResult(prog, m0).1.(count := 1);
    assert m1.Cell(1, 1) == StepResult(prog, m0).1.Cell(1, 1);
    SharedTapsStep(m1);
    ms := [m0, m1];
  }
}
