/** `before_processing` of shared/audio.c merges the signals of a stream into one program; each output
    channel of that program carries its own signal, for exactly the streams whose buses fit.
 */
module Streams {
  import opened Basics
  import opened Signals
  import opened Compiler
  import opened Stepper
  import opened Correctness
  import opened Allocation

  const MAX_SIGNALS: nat := 8
  const OUTPUT_OFFSET: nat := 0
  const INPUT_OFFSET: nat := 8

  /** One signal that evaluates all of them and leaves each value on its output channel. */
  function Merged(signals: seq<Signal>): Signal {
    if signals == [] then Constant(0.0)
    else
      var c := |signals| - 1;
      Former(Merged(signals[..c]), Output(0, OUTPUT_OFFSET + c, signals[c]))
  }

  method MergeOutputs(signals: seq<Signal>) returns (merged: Signal)
    ensures merged == Merged(signals)
  {
    merged := Constant(0.0);
    for c := 0 to |signals|
      invariant merged == Merged(signals[..c])
    {
      merged := Former(merged, Output(0, OUTPUT_OFFSET + c, signals[c]));
      assert signals[..c + 1][..c] == signals[..c];
    }
    assert signals[..|signals|] == signals;
  }

  // ----- Every output channel carries its own signal -----

  const INS: set<int> := set c | INPUT_OFFSET <= c < MAX_INPUTS
  const OUTS: set<int> := set c | OUTPUT_OFFSET <= c < OUTPUT_OFFSET + MAX_SIGNALS

  /** The signals of a stream read only at or above the input offset and write nothing themselves. */
  predicate Playable(signals: seq<Signal>) {
    |signals| <= MAX_SIGNALS && forall i :: 0 <= i < |signals| ==> Supported(signals[i], 0, INS, {})
  }

  /** A stream has at most eight signals, which may read the channels from the eighth on. */
  lemma StreamsAreLimited(n: nat, c: int)
    ensures Playable(seq(n, _ => Input(c))) <==> n == 0 || (n <= 8 && 8 <= c < 128)
  {
    var signals := seq(n, _ => Input(c));
    if n > 0 { assert signals[0] == Input(c); }
  }

  lemma {:induction false} SupportedWithMore(s: Signal, bound: nat, ins: set<int>, outs: set<int>)
    requires Supported(s, bound, ins, {})
    ensures Supported(s, bound, ins, outs)
  {
    match s
    case Lift(_, a) => SupportedWithMore(a, bound, ins, outs);
    case Lift2(_, a, b) => SupportedWithMore(a, bound, ins, outs); SupportedWithMore(b, bound, ins, outs);
    case Loop(b) => SupportedWithMore(b, bound + 1, ins, outs);
    case Delay(_, a) => SupportedWithMore(a, bound, ins, outs);
    case _ =>
  }

  lemma {:induction false} MergedIsSupported(signals: seq<Signal>)
    requires Playable(signals)
    ensures Supported(Merged(signals), 0, INS, OUTS)
  {
    if signals != [] {
      var c := |signals| - 1;
      MergedIsSupported(signals[..c]);
      SupportedWithMore(signals[c], 0, INS, OUTS);
    }
  }

  /** The values of all signals at sample `t`. */
  ghost function Played(signals: seq<Signal>, inp: Channels, t: nat): (xs: seq<Sample>)
    ensures |xs| == |signals|
    ensures forall c :: 0 <= c < |signals| ==> xs[c] == Den(signals[c], [], inp, t)
  {
    seq(|signals|, c requires 0 <= c < |signals| => Den(signals[c], [], inp, t))
  }

  /** Running `prog` leaves every signal's value on its output channel. */
  ghost predicate PlaysAll(prog: Signal, signals: seq<Signal>, inp: Channels, m: Mem)
    requires m.Ok() && |signals| <= MAX_SIGNALS
  {
    Runnable(prog) && StepResult(prog, m).1.inputs[..|signals|] == Played(signals, inp, m.count)
  }

  lemma StepClosed(sp: Split, p: Part, s: Signal, inp: Channels, outs: set<int>, m: Mem)
    requires Ready(sp, p, s, [], [], inp, INS, outs, m)
    ensures Done(Simplify(sp, p, s), Den(s, [], inp, m.count), Buses(sp, p, s), Lines(sp, p, s, [], inp), outs, m)
  {
    StepCorrect(sp, p, s, [], [], inp, INS, outs, m);
    InstNone(s, 0);
  }

  lemma {:induction false} MergedStep(sp: Split, p: Part, signals: seq<Signal>, inp: Channels, m: Mem)
    requires Playable(signals)
    requires Ready(sp, p, Merged(signals), [], [], inp, INS, OUTS, m)
    ensures PlaysAll(Simplify(sp, p, Merged(signals)), signals, inp, m)
    decreases |signals|
  {
    if signals != [] {
      var c := |signals| - 1;
      var merged, init, last := Merged(signals), signals[..c], signals[c];
      var (p1, p2) := SplitPart(sp, p);
      var prog1, prog2 := Simplify(sp, p1, merged.a), Simplify(sp, p2, last);
      Lift2Left(sp, p, merged, [], [], inp, INS, OUTS, m);
      MergedStep(sp, p1, init, inp, m);
      StepClosed(sp, p1, merged.a, inp, OUTS, m);
      var m1 := StepResult(prog1, m).1;
      LastSignal(sp, p, signals, inp, m, m1);
      LastOutput(signals, inp, merged.g, prog1, prog2, m);
    }
  }

  lemma ReadyForLess(sp: Split, p: Part, s: Signal, inp: Channels, outs: set<int>, m: Mem)
    requires Ready(sp, p, s, [], [], inp, INS, outs, m) && Supported(s, 0, INS, {})
    ensures Ready(sp, p, s, [], [], inp, INS, {}, m)
  {
  }

  /** The last signal runs undisturbed by the others and leaves all channels alone. */
  lemma LastSignal(sp: Split, p: Part, signals: seq<Signal>, inp: Channels, m: Mem, m1: Mem)
    requires signals != [] && Playable(signals) && Ready(sp, p, Merged(signals), [], [], inp, INS, OUTS, m)
    requires m1.Ok() && Confined(Buses(sp, SplitPart(sp, p).0, Merged(signals).a), OUTS, m, m1)
    ensures var last := signals[|signals| - 1]; var prog := Simplify(sp, SplitPart(sp, p).1, last);
            && Runnable(prog) && StepResult(prog, m1).0 == Den(last, [], inp, m.count)
            && forall i :: 0 <= i < MAX_INPUTS ==> StepResult(prog, m1).1.inputs[i] == m1.inputs[i]
  {
    var last := signals[|signals| - 1];
    Lift2Right(sp, p, Merged(signals), [], [], inp, INS, OUTS, m, m1);
    ReadyForLess(sp, SplitPart(sp, p).1, last, inp, OUTS, m1);
    StepClosed(sp, SplitPart(sp, p).1, last, inp, {}, m1);
  }

  /** Adding one more output after programs that keep to their channels. */
  lemma LastOutput(signals: seq<Signal>, inp: Channels, g: (Sample, Sample) -> Sample, prog1: Signal, prog2: Signal,
                   m: Mem)
    requires m.Ok() && 0 < |signals| <= MAX_SIGNALS
    requires PlaysAll(prog1, signals[..|signals| - 1], inp, m)
    requires Runnable(prog2)
    requires StepResult(prog2, StepResult(prog1, m).1).0 == Den(signals[|signals| - 1], [], inp, m.count)
    requires var m1 := StepResult(prog1, m).1;
             forall i :: 0 <= i < MAX_INPUTS ==> StepResult(prog2, m1).1.inputs[i] == m1.inputs[i]
    ensures PlaysAll(Lift2(g, prog1, Output(0, |signals| - 1, prog2)), signals, inp, m)
  {
    var c := |signals| - 1;
    var m1 := StepResult(prog1, m).1;
    var (x, m2) := StepResult(prog2, m1);
    assert m2.inputs == m1.inputs;
    assert StepResult(Output(0, c, prog2), m1) == (x, m2.Write(0, c, x));
    var m3 := m2.Write(0, c, x);
    assert m3.inputs[..c + 1] == m1.inputs[..c] + [x];
    assert Played(signals, inp, m.count) == Played(signals[..c], inp, m.count) + [x];
  }

  // ----- Which streams fit -----

  /** Merging puts signal `j` of `n` below `n - 1 - j` binary nodes, in the right half: with either split it is
      compiled from `RightPart(n - 1 - j)`. */
  lemma {:induction false} MergedBusIff(sp: Split, signals: seq<Signal>, k: nat, x: int)
    ensures x in Buses(sp, Part(0, Pow2(k)), Merged(signals))
       <==> exists j :: 0 <= j < |signals| && x in Buses(sp, RightPart(k + |signals| - 1 - j), signals[j])
    decreases |signals|
  {
    if signals != [] {
      var c := |signals| - 1;
      var init := signals[..c];
      MergedBusIff(sp, init, k + 1, x);
      forall j | 0 <= j < c
        ensures Buses(sp, RightPart(k + 1 + |init| - 1 - j), init[j]) ==
                  Buses(sp, RightPart(k + |signals| - 1 - j), signals[j])
      {
      }
    }
  }

  /** The second operands in the merged form of a stream: signal `j` of `n` at depth `n - 1 - j`. */
  function StreamForks(signals: seq<Signal>, l: nat): seq<Fork> {
    if signals == [] then []
    else
      var c := |signals| - 1;
      StreamForks(signals[..c], l + 1) + ([Fork(l, signals[c])] + Forks(signals[c], l + 1))
  }

  /** Forks with the same buses. */
  ghost predicate Alike(fs: seq<Fork>, gs: seq<Fork>) {
    && |fs| == |gs|
    && forall i :: 0 <= i < |fs| ==>
         && fs[i].depth == gs[i].depth && Reach(fs[i].operand) == Reach(gs[i].operand)
         && fs[i].Buses() == gs[i].Buses()
  }

  lemma {:induction false} MergedForks(signals: seq<Signal>, l: nat)
    ensures Alike(Forks(Merged(signals), l), StreamForks(signals, l))
    ensures Reach(Merged(signals)) == 0
    decreases |signals|
  {
    if signals != [] {
      var c := |signals| - 1;
      MergedForks(signals[..c], l + 1);
    }
  }

  /** What a caller can check of a stream's signals. */
  predicate StreamFits(sp: Split, signals: seq<Signal>) {
    match sp
    case Shipped => OnePerDepth(StreamForks(signals, 0)) && AllFit(StreamForks(signals, 0))
    case Inside => forall j :: 0 <= j < |signals| ==> Pow2(|signals| - 1 - j) * (2 * Span(signals[j]) - 1) < MAX_BUSES
  }

  lemma SignalInRangeIff(l: nat, s: Signal)
    ensures InRange(Buses(Inside, RightPart(l), s)) <==> Pow2(l) * (2 * Span(s) - 1) < MAX_BUSES
  {
    InsideInRangeIff(RightPart(l), s);
    RightPartNth(l, Span(s));
  }

  lemma MergedInRangeIff(signals: seq<Signal>)
    ensures InRange(Buses(Inside, INIT_PART, Merged(signals))) <==> StreamFits(Inside, signals)
  {
    var bs := Buses(Inside, INIT_PART, Merged(signals));
    InRangeIffAll(bs);
    forall j | 0 <= j < |signals|
      ensures InRange(Buses(Inside, RightPart(|signals| - 1 - j), signals[j])) <==>
                Pow2(|signals| - 1 - j) * (2 * Span(signals[j]) - 1) < MAX_BUSES
    {
      SignalInRangeIff(|signals| - 1 - j, signals[j]);
    }
    if InRange(bs) {
      forall j | 0 <= j < |signals| ensures InRange(Buses(Inside, RightPart(|signals| - 1 - j), signals[j])) {
        var xs := Buses(Inside, RightPart(|signals| - 1 - j), signals[j]);
        forall i | 0 <= i < |xs| ensures 0 <= xs[i] < MAX_BUSES {
          assert xs[i] in Buses(Inside, RightPart(0 + |signals| - 1 - j), signals[j]);
          MergedBusIff(Inside, signals, 0, xs[i]);
        }
      }
    }
    if StreamFits(Inside, signals) {
      forall x | x in bs ensures 0 <= x < MAX_BUSES {
        MergedBusIff(Inside, signals, 0, x);
        var j :| 0 <= j < |signals| && x in Buses(Inside, RightPart(0 + |signals| - 1 - j), signals[j]);
        InRangeIffAll(Buses(Inside, RightPart(|signals| - 1 - j), signals[j]));
      }
    }
  }

  /** Exactly which streams are given buses that exist and are not shared. */
  lemma StreamFitsIff(sp: Split, signals: seq<Signal>)
    ensures Allocated(sp, INIT_PART, Merged(signals)) <==> StreamFits(sp, signals)
  {
    match sp
    case Shipped =>
      MergedForks(signals, 0);
      SpineStarts(INIT_PART, Merged(signals));
      ShippedAllocatesIff(Merged(signals));
    case Inside =>
      AllocatedBusesAreDistinct(INIT_PART, Merged(signals));
      MergedInRangeIff(signals);
  }

  lemma MergedRuns(sp: Split, signals: seq<Signal>)
    requires Playable(signals) && StreamFits(sp, signals)
    ensures Runnable(Simplify(sp, INIT_PART, Merged(signals)))
  {
    StreamFitsIff(sp, signals);
    MergedIsSupported(signals);
    CompiledRunsIff(sp, Merged(signals), INS, OUTS);
  }

  function Least(p: Part): int { if p.o < p.d then p.o else p.d }

  /** A signal with a loop or a delay is given a bus, and none before its partition. */
  lemma {:induction false} SomeBus(sp: Split, p: Part, s: Signal) returns (x: int)
    requires p.Valid() && BusDepth(s) > 0
    ensures x in Buses(sp, p, s) && x >= Least(p)
    decreases s
  {
    match s
    case Loop(_) => x := p.o;
    case Delay(_, _) => x := p.o;
    case Lift(_, a) => x := SomeBus(sp, p, a);
    case Lift2(_, a, b) =>
      if BusDepth(a) > 0 { x := SomeBus(sp, SplitPart(sp, p).0, a); } else { x := SomeBus(sp, SplitPart(sp, p).1, b); }
    case Output(_, _, a) => x := SomeBus(sp, p, a);
  }

  /** A stream overflows the bus memory if a signal with a loop or a delay comes six or more places before
      the last: of seven signals the first and of eight the first two have no bus. */
  lemma EarlySignalsOverflow(sp: Split, signals: seq<Signal>, j: nat)
    requires Playable(signals) && j + 6 < |signals| && BusDepth(signals[j]) > 0
    ensures !StreamFits(sp, signals) && !Runnable(Simplify(sp, INIT_PART, Merged(signals)))
  {
    var l := |signals| - 1 - j;
    var x := SomeBus(sp, RightPart(l), signals[j]);
    assert Pow2(3) == 8 && Pow2(6) == 64 && Pow2(7) == 128 && (l == 6 || l == 7);
    assert x in Buses(sp, RightPart(0 + |signals| - 1 - j), signals[j]);
    MergedBusIff(sp, signals, 0, x);
    InRangeIffAll(Buses(sp, INIT_PART, Merged(signals)));
    StreamFitsIff(sp, signals);
    MergedIsSupported(signals);
    CompiledRunsIff(sp, Merged(signals), INS, OUTS);
  }

  /** Multi-channel streams: after every step of every run of the merged program, each output channel
      holds the denotation of its signal at that sample. */
  lemma EachOutputIsItsSignal(sp: Split, signals: seq<Signal>, inp: Channels, ms: seq<Mem>, t: nat, c: nat)
    requires Playable(signals) && StreamFits(sp, signals)
    requires Run(Simplify(sp, INIT_PART, Merged(signals)), ms) && t < |ms| && c < |signals|
    requires forall u :: 0 <= u < |ms| ==> Inputs(INS, inp, ms[u])
    ensures StepResult(Simplify(sp, INIT_PART, Merged(signals)), ms[t]).1.inputs[OUTPUT_OFFSET + c] ==
              Den(signals[c], [], inp, t)
  {
    MergedIsSupported(signals);
    StreamFitsIff(sp, signals);
    RunInvariant(sp, Merged(signals), inp, INS, OUTS, ms, t);
    MergedStep(sp, INIT_PART, signals, inp, ms[t]);
    assert Played(signals, inp, t)[c] == Den(signals[c], [], inp, t);
  }
}
