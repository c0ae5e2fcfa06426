/** What a run of shared/signal.c with scheduled actions computes: every output sample is the
    signal's denotation, where the controlled channels are step functions of the actions.
 */
module Controls {
  import opened Basics
  import opened Signals
  import opened Compiler
  import opened Stepper
  import opened Correctness
  import opened Allocation
  import opened PriorityQueues
  import opened Schedule
  import opened Scheduler

  // ----- A run with actions is a run of the compiled program -----

  /** Every action that sets something sets a proper channel, not a bus. */
  ghost predicate SetsChannels(t: Tree<Entry>) {
    forall e :: Copies(t, e) > 0 && e.action.Set? ==> 0 <= e.action.channel < MAX_INPUTS
  }

  lemma {:induction false} ActionsLeaveBuses(es: seq<Entry>, m: Memory)
    requires forall i :: 0 <= i < |es| && es[i].action.Set? ==> 0 <= es[i].action.channel
    ensures RunAll(es, m).buses == m.buses
    decreases |es|
  {
    if es != [] { ActionsLeaveBuses(es[1..], RunAction(es[0].action, m)); }
  }

  lemma TakenAreScheduled(rank: Entry -> real, at: Entry -> int, t: Tree<Entry>, k: nat)
    requires Monotone(rank, at) && Ordered(rank, t)
    ensures forall i :: 0 <= i < |TakenAt(rank, at, t, k)| ==>
              Copies(t, TakenAt(rank, at, t, k)[i]) > 0 && Due(at, TakenAt(rank, at, t, k)[i]) == k
  {
    var es := TakenAt(rank, at, t, k);
    forall i | 0 <= i < |es| ensures Copies(t, es[i]) > 0 && Due(at, es[i]) == k {
      assert es[i] in multiset(es);
      EachAtItsSample(rank, at, t, k, es[i]);
      CopiesAreEntries(t, es[i]);
    }
  }

  /** What the signal hears on channel `c` at sample `k`. */
  ghost function Heard(rank: Entry -> real, at: Entry -> int, prog: Program, t: Tree<Entry>): Channels
  {
    (c: int, k: nat) => if 0 <= c < MAX_INPUTS then MemAt(rank, at, prog, t, k).inputs[c] else 0.0
  }

  /** Every output of `fa_signal_run` is the denotation of the signal on what it hears. */
  lemma OutputsAreTheDenotation(rank: Entry -> real, at: Entry -> int, sp: Split, a: Signal, t: Tree<Entry>,
                                ins: set<int>, outs: set<int>, k: nat)
    requires Monotone(rank, at) && Ordered(rank, t) && SetsChannels(t)
    requires Allocated(sp, INIT_PART, a) && Supported(a, 0, ins, outs) && ins !! outs
    requires Runnable(Simplify(sp, INIT_PART, a))
    ensures OutAt(rank, at, Simplify(sp, INIT_PART, a), t, k)
         == Den(a, [], Heard(rank, at, Simplify(sp, INIT_PART, a), t), k)
  {
    var prog := Simplify(sp, INIT_PART, a);
    var ms: seq<Mem> := seq(k + 1, i requires 0 <= i => MemAt(rank, at, prog, t, i));
    forall i: nat ensures MemAt(rank, at, prog, t, i).buses == MemBefore(rank, at, prog, t, i).buses {
      TakenAreScheduled(rank, at, t, i);
      ActionsLeaveBuses(TakenAt(rank, at, t, i), MemBefore(rank, at, prog, t, i));
    }
    assert Run(prog, ms);
    var inp := Heard(rank, at, prog, t);
    forall u | 0 <= u < |ms| ensures Inputs(ins, inp, ms[u]) {
    }
    CompilerCorrect(sp, a, inp, ins, outs, ms, k);
  }

  // ----- Controls are step functions -----

  ghost predicate Sets(e: Entry, c: int) { e.action.Set? && e.action.channel == c }

  /** The value of the last action of `es` that sets `c`, or `x` if there is none. */
  ghost function LastSet(es: seq<Entry>, c: int, x: Sample): Sample {
    if es == [] then x
    else if Sets(es[|es| - 1], c) then es[|es| - 1].action.value
    else LastSet(es[..|es| - 1], c, x)
  }

  lemma {:induction false} LastSetJoin(xs: seq<Entry>, ys: seq<Entry>, c: int, x: Sample)
    ensures LastSet(xs + ys, c, x) == LastSet(ys, c, LastSet(xs, c, x))
    decreases |ys|
  {
    if ys == [] {
      assert xs + ys == xs;
    } else {
      assert (xs + ys)[..|xs + ys| - 1] == xs + ys[..|ys| - 1];
      LastSetJoin(xs, ys[..|ys| - 1], c, x);
    }
  }

  lemma {:induction false} ActionsSetLast(es: seq<Entry>, m: Memory, c: int)
    requires 0 <= c < MAX_INPUTS
    ensures RunAll(es, m).inputs[c] == LastSet(es, c, m.inputs[c])
    decreases |es|
  {
    if es != [] {
      var m1 := RunAction(es[0].action, m);
      ActionsSetLast(es[1..], m1, c);
      LastSetJoin(es[..1], es[1..], c, m.inputs[c]);
      assert es == es[..1] + es[1..];
      assert LastSet(es[..1], c, m.inputs[c]) == m1.inputs[c] by { assert es[..1][..0] == []; }
    }
  }

  /** The signal writes no channel `c`. */
  predicate Spares(s: Signal, c: int) {
    match s
    case Loop(b) => Spares(b, c)
    case Delay(_, a) => Spares(a, c)
    case Output(_, o, a) => o != c && Spares(a, c)
    case Lift(_, a) => Spares(a, c)
    case Lift2(_, a, b) => Spares(a, c) && Spares(b, c)
    case _ => true
  }

  lemma {:induction false} StepSpares(s: Signal, m: Memory, c: int)
    requires Runnable(s) && Spares(s, c) && 0 <= c < MAX_INPUTS
    ensures StepResult(s, m).1.inputs[c] == m.inputs[c]
  {
    match s
    case Output(_, _, a) => StepSpares(a, m, c);
    case Lift(_, a) => StepSpares(a, m, c);
    case Lift2(_, a, b) => StepSpares(a, m, c); StepSpares(b, StepResult(a, m).1, c);
    case _ =>
  }

  lemma {:induction false} SubstSpares(s: Signal, k: nat, ch: int, c: int)
    requires Spares(s, c)
    ensures Spares(Subst(s, k, ch), c)
  {
    match s
    case Loop(b) => SubstSpares(b, k + 1, ch, c);
    case Delay(_, a) => SubstSpares(a, k, ch, c);
    case Output(_, _, a) => SubstSpares(a, k, ch, c);
    case Lift(_, a) => SubstSpares(a, k, ch, c);
    case Lift2(_, a, b) => SubstSpares(a, k, ch, c); SubstSpares(b, k, ch, c);
    case _ =>
  }

  /** Compiling introduces no output to a channel: the ones it adds are all buses. */
  lemma {:induction false} CompiledSpares(sp: Split, p: Part, s: Signal, c: int)
    requires p.Valid() && 0 <= c && Spares(s, c)
    ensures Spares(Simplify(sp, p, s), c)
    decreases Size(s)
  {
    match s
    case Loop(b) => SubstSpares(b, 0, NegBus(p.o), c); CompiledSpares(sp, RunPart(p).1, Subst(b, 0, NegBus(p.o)), c);
    case Delay(_, a) => CompiledSpares(sp, RunPart(p).1, a, c);
    case Output(_, _, a) => CompiledSpares(sp, p, a, c);
    case Lift(_, a) => CompiledSpares(sp, p, a, c);
    case Lift2(_, a, b) => CompiledSpares(sp, SplitPart(sp, p).0, a, c); CompiledSpares(sp, SplitPart(sp, p).1, b, c);
    case _ =>
  }

  lemma {:induction false} HeardIsLastSet(rank: Entry -> real, at: Entry -> int, prog: Program, t: Tree<Entry>,
                                          c: int, k: nat)
    requires Spares(prog, c) && 0 <= c < MAX_INPUTS
    ensures MemAt(rank, at, prog, t, k).inputs[c] == LastSet(Log(rank, at, t, k + 1), c, 0.0)
  {
    var es, m := TakenAt(rank, at, t, k), MemBefore(rank, at, prog, t, k);
    ActionsSetLast(es, m, c);
    LastSetJoin(Log(rank, at, t, k), es, c, 0.0);
    if k > 0 {
      HeardIsLastSet(rank, at, prog, t, c, k - 1);
      StepSpares(prog, MemAt(rank, at, prog, t, k - 1), c);
    }
  }

  /** Of actions that are all for one time and set one channel, the second one given has the last word. */
  lemma SecondHasTheLastWord(controls: seq<Entry>, t: Tree<Entry>, prog: Program, c: int)
    requires AllAtOnce(controls) && ActsInReverse(controls, t) && |controls| > 1
    requires 0 <= c < MAX_INPUTS && Sets(controls[1], c)
    ensures MemAt(Rank, Index, prog, t, Due(Index, controls[0])).inputs[c] == controls[1].action.value
  {
    var k, rest := Due(Index, controls[0]), controls[1..];
    var es := [controls[0]] + Reversed(rest);
    ReversedFromTheEnd(rest, |rest| - 1);
    assert es[|es| - 1] == controls[1];
    ActionsSetLast(es, MemBefore(Rank, Index, prog, t, k), c);
  }

  /** The log up to sample `n` holds exactly the scheduled values due before `n`. */
  lemma {:induction false} LogHoldsTheDue(rank: Entry -> real, at: Entry -> int, t: Tree<Entry>, n: nat, e: Entry)
    requires Monotone(rank, at) && Ordered(rank, t)
    ensures e in Log(rank, at, t, n) <==> Copies(t, e) > 0 && Due(at, e) < n
  {
    if n > 0 {
      LogHoldsTheDue(rank, at, t, n - 1, e);
      EachAtItsSample(rank, at, t, n - 1, e);
      CopiesAreEntries(t, e);
      var es := TakenAt(rank, at, t, n - 1);
      assert e in es <==> e in multiset(es);
    }
  }

  /** An action that may determine channel `c` at sample `k`. */
  ghost predicate Reaches(at: Entry -> int, t: Tree<Entry>, c: int, k: nat, e: Entry) {
    Copies(t, e) > 0 && Sets(e, c) && Due(at, e) <= k
  }

  /** The last of the values set on a channel is that of a latest action. */
  lemma {:induction false} LatestIn(rank: Entry -> real, log: seq<Entry>, c: int, x: Sample)
    returns (latest: Option<Entry>)
    requires Sorted(rank, log)
    ensures latest.None? ==> LastSet(log, c, x) == x && forall e :: e in log ==> !Sets(e, c)
    ensures latest.Some? ==> latest.value in log && Sets(latest.value, c)
    ensures latest.Some? ==> LastSet(log, c, x) == latest.value.action.value
    ensures latest.Some? ==> forall e :: e in log && Sets(e, c) ==> rank(e) <= rank(latest.value)
    decreases |log|
  {
    if log == [] {
      latest := None;
    } else if Sets(log[|log| - 1], c) {
      latest := Some(log[|log| - 1]);
    } else {
      var init := log[..|log| - 1];
      latest := LatestIn(rank, init, c, x);
      assert log == init + [log[|log| - 1]];
    }
  }

  lemma ReachesIsInLog(rank: Entry -> real, at: Entry -> int, t: Tree<Entry>, c: int, k: nat, e: Entry)
    requires Monotone(rank, at) && Ordered(rank, t)
    ensures Reaches(at, t, c, k, e) <==> Sets(e, c) && e in Log(rank, at, t, k + 1)
  {
    LogHoldsTheDue(rank, at, t, k + 1, e);
  }

  /** Controls are step functions: a channel the program does not write holds the value of a latest
      set action due by then, or 0 if none is due. */
  lemma ControlsAreStepFunctions(rank: Entry -> real, at: Entry -> int, prog: Program, t: Tree<Entry>, c: int, k: nat)
    returns (latest: Option<Entry>)
    requires Monotone(rank, at) && Ordered(rank, t)
    requires Spares(prog, c) && 0 <= c < MAX_INPUTS
    ensures latest.None? ==> Heard(rank, at, prog, t)(c, k) == 0.0 && forall e :: !Reaches(at, t, c, k, e)
    ensures latest.Some? ==> Reaches(at, t, c, k, latest.value)
    ensures latest.Some? ==> Heard(rank, at, prog, t)(c, k) == latest.value.action.value
    ensures latest.Some? ==> forall e :: Reaches(at, t, c, k, e) ==> rank(e) <= rank(latest.value)
  {
    HeardIsLastSet(rank, at, prog, t, c, k);
    RunIsSorted(rank, at, t, k + 1);
    latest := LatestIn(rank, Log(rank, at, t, k + 1), c, 0.0);
    forall e ensures Reaches(at, t, c, k, e) <==> Sets(e, c) && e in Log(rank, at, t, k + 1) {
      ReachesIsInLog(rank, at, t, c, k, e);
    }
  }

  /** In a run of a signal that writes no channel `c`, what the signal hears on `c` is such a step function. */
  lemma SignalControlsAreStepFunctions(a: Signal, t: Tree<Entry>, c: int, k: nat) returns (latest: Option<Entry>)
    requires Ordered(Rank, t) && Spares(a, c) && 0 <= c < MAX_INPUTS && Runnable(Simplify(Shipped, INIT_PART, a))
    ensures var heard := Heard(Rank, Index, Simplify(Shipped, INIT_PART, a), t);
      && (latest.None? ==> heard(c, k) == 0.0 && forall e :: !Reaches(Index, t, c, k, e))
      && (latest.Some? ==> Reaches(Index, t, c, k, latest.value) && heard(c, k) == latest.value.action.value)
      && (latest.Some? ==> forall e :: Reaches(Index, t, c, k, e) ==> Rank(e) <= Rank(latest.value))
  {
    TimesAreOrdered();
    CompiledSpares(Shipped, INIT_PART, a, c);
    latest := ControlsAreStepFunctions(Rank, Index, Simplify(Shipped, INIT_PART, a), t, c, k);
  }

  // ----- From the controls to the outputs -----

  /** `fa_signal_run` of a signal that fits: every output is what the signal means on the channels as it hears
      them, on which `SignalControlsAreStepFunctions` says what the controls put.  Controls for second `s` act where
      the signal `Time` is `s`. */
  method RunSignal(n: nat, controls: seq<Entry>, a: Signal, ghost ins: set<int>, ghost outs: set<int>,
                   output: array<Sample>) returns (ghost start: Tree<Entry>)
    requires n <= output.Length && Fits(Shipped, a) && Supported(a, 0, ins, outs) && ins !! outs
    requires forall i :: 0 <= i < |controls| && controls[i].action.Set? ==>
               0 <= controls[i].action.channel < MAX_INPUTS
    modifies output
    ensures Ordered(Rank, start) && forall e :: Copies(start, e) == multiset(controls)[e]
    ensures Runnable(Simplify(Shipped, INIT_PART, a))
    ensures forall k :: 0 <= k < n ==>
              output[k] == Den(a, [], Heard(Rank, Index, Simplify(Shipped, INIT_PART, a), start), k)
    ensures ActsOnTime(controls, start) && ActsInReverse(controls, start)
    ensures forall s: nat :: var heard := Heard(Rank, Index, Simplify(Shipped, INIT_PART, a), start);
              Den(Time, [], heard, SampleOfSecond(s)) == s as real
  {
    AllocatesIff(Shipped, a);
    CompiledRunsIff(Shipped, a, ins, outs);
    ghost var rest;
    start, rest := SignalRun(n, controls, a, output);
    TimesAreOrdered();
    forall e | Copies(start, e) > 0 && e.action.Set? ensures 0 <= e.action.channel < MAX_INPUTS {
      assert e in multiset(controls);
    }
    forall k | 0 <= k < n
      ensures output[k] == Den(a, [], Heard(Rank, Index, Simplify(Shipped, INIT_PART, a), start), k)
    {
      OutputsAreTheDenotation(Rank, Index, Shipped, a, start, ins, outs, k);
    }
  }
}
