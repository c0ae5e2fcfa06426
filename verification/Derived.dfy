/** Signals that shared/signal.c derives from the others, and two filters: what they mean in numbers, and that their
    compiled programs compute it.
 */
module Derived {
  import opened Signals
  import opened Compiler
  import opened Stepper
  import opened Correctness
  import opened Allocation

  function Add(a: Signal, b: Signal): Signal { Lift2((x: Sample, y: Sample) => x + y, a, b) }

  function Subtract(a: Signal, b: Signal): Signal { Lift2((x: Sample, y: Sample) => x - y, a, b) }

  function Multiply(a: Signal, b: Signal): Signal { Lift2((x: Sample, y: Sample) => x * y, a, b) }

  function Latter(a: Signal, b: Signal): Signal { Lift2((_, y) => y, a, b) }

  function Impulse(): Signal { Lift((x: Sample) => if x == 0.0 then 1.0 else 0.0, Time) }

  function Counter(): Signal { Add(Loop(Add(Var(0), Constant(1.0))), Constant(-1.0)) }

  function Impulses(n: int): Signal
    requires n != 0
  {
    Lift((x: Sample) => if x.Floor % n == 0 then 1.0 else 0.0, Counter())
  }

  const TAU := 2.0 * 3.141592653589793

  function Line(x: real): Signal { Multiply(Time, Constant(x * TAU)) }

  /** A channel and itself `n` samples earlier. */
  function Echo(c: int, n: int): Signal { Add(Input(c), Delay(n, Input(c))) }

  /** A channel and the filter's own output `n + 1` samples earlier, which is scaled. */
  function Comb(c: int, n: int, gain: real): Signal {
    Loop(Lift2((x: Sample, y: Sample) => x + gain * y, Input(c), Delay(n, Var(0))))
  }

  // ----- What they mean -----

  lemma ArithmeticMeans(a: Signal, b: Signal, env: seq<Stream>, inp: Channels, t: nat)
    ensures Den(Add(a, b), env, inp, t) == Den(a, env, inp, t) + Den(b, env, inp, t)
    ensures Den(Subtract(a, b), env, inp, t) == Den(a, env, inp, t) - Den(b, env, inp, t)
    ensures Den(Multiply(a, b), env, inp, t) == Den(a, env, inp, t) * Den(b, env, inp, t)
    ensures Den(Former(a, b), env, inp, t) == Den(a, env, inp, t)
    ensures Den(Latter(a, b), env, inp, t) == Den(b, env, inp, t)
  {
  }

  /** One at the first sample, and nothing ever after. */
  lemma ImpulseMeans(inp: Channels, t: nat)
    ensures Den(Impulse(), [], inp, t) == if t == 0 then 1.0 else 0.0
  {
  }

  lemma {:induction false} CountedLoop(inp: Channels, t: nat)
    ensures Den(Loop(Add(Var(0), Constant(1.0))), [], inp, t) == (t + 1) as real
    decreases t
  {
    var b := Add(Var(0), Constant(1.0));
    LoopLaw(b, [], inp, t);
    if t > 0 { CountedLoop(inp, t - 1); }
    assert ([Feedback(b, [], inp)] + [])[0](t) == t as real;
  }

  /** The number of samples so far. */
  lemma CounterMeans(inp: Channels, t: nat)
    ensures Den(Counter(), [], inp, t) == t as real
  {
    CountedLoop(inp, t);
  }

  /** One at every `n`-th sample. */
  lemma ImpulsesMean(n: int, inp: Channels, t: nat)
    requires n != 0
    ensures Den(Impulses(n), [], inp, t) == if t % n == 0 then 1.0 else 0.0
  {
    CounterMeans(inp, t);
  }

  /** It goes up by `x` full turns each second, which has 44100 samples. */
  lemma LineMeans(x: real, inp: Channels, t: nat)
    ensures Den(Line(x), [], inp, t + 44100) - Den(Line(x), [], inp, t) == x * TAU && Den(Line(x), [], inp, 0) == 0.0
  {
    assert (t + 44100) as real / 44100.0 == t as real / 44100.0 + 1.0;
  }

  lemma EchoMeans(c: int, n: int, inp: Channels, t: nat)
    requires n >= 0
    ensures Den(Echo(c, n), [], inp, t) == inp(c, t) + if t < n then 0.0 else inp(c, t - n)
  {
    ArithmeticMeans(Input(c), Delay(n, Input(c)), [], inp, t);
    assert Den(Delay(n, Input(c)), [], inp, t) == if t < n then 0.0 else Den(Input(c), [], inp, t - n);
  }

  /** The recurrence of a comb filter. */
  lemma CombMeans(c: int, n: int, gain: real, inp: Channels, t: nat)
    requires n >= 0
    ensures Den(Comb(c, n, gain), [], inp, t) ==
      inp(c, t) + gain * if t <= n then 0.0 else Den(Comb(c, n, gain), [], inp, t - n - 1)
  {
    var b := Lift2((x: Sample, y: Sample) => x + gain * y, Input(c), Delay(n, Var(0)));
    LoopLaw(b, [], inp, t);
    var env := [Feedback(b, [], inp)] + [];
    assert Den(Delay(n, Var(0)), env, inp, t) == if t < n then 0.0 else env[0](t - n);
  }

  // ----- That they are computed -----

  /** The compiled program of `s` puts out its meaning, whatever is on the channels. */
  ghost predicate Computes(s: Signal, ms: seq<Mem>, t: nat, x: Sample)
    requires t < |ms| && ms[t].Ok()
  {
    var prog := Simplify(Shipped, INIT_PART, s);
    Runnable(prog) && StepResult(prog, ms[t]).0 == x
  }

  lemma CounterForks(l: Signal, one: Signal)
    requires l == Loop(Add(Var(0), Constant(1.0))) && one == Constant(-1.0)
    ensures Forks(Add(l, one), 0) == [Fork(1, Constant(1.0)), Fork(0, one)]
  {
    assert Forks(Add(Var(0), Constant(1.0)), 1) == [] + ([Fork(1, Constant(1.0))] + []);
    assert Forks(Add(l, one), 0) == Forks(l, 1) + ([Fork(0, one)] + []);
  }

  lemma CounterIsUnshared(s: Signal)
    requires Forks(s, 0) == [Fork(1, Constant(1.0)), Fork(0, Constant(-1.0))] && Reach(s) == 1
    requires Spine(INIT_PART, s) == [0]
    ensures Fits(Shipped, s)
  {
    assert Reach(Constant(1.0)) == Reach(Constant(-1.0)) == 0;
    assert Fork(1, Constant(1.0)).Buses() == [] && Fork(0, Constant(-1.0)).Buses() == [];
  }

  lemma CounterFits()
    ensures Fits(Shipped, Counter()) && Supported(Counter(), 0, {}, {})
  {
    var l := Loop(Add(Var(0), Constant(1.0)));
    assert Reach(Add(Var(0), Constant(1.0))) == 0 && Reach(l) == 1;
    CounterForks(l, Constant(-1.0));
    assert Spine(INIT_PART, Counter()) == Spine(Part(0, 2), l) == [0];
    CounterIsUnshared(Counter());
  }

  /** In every run, the compiled counter puts out the number of each sample. */
  lemma CounterCounts(ms: seq<Mem>, t: nat)
    requires Run(Simplify(Shipped, INIT_PART, Counter()), ms) && t < |ms|
    ensures Computes(Counter(), ms, t, t as real)
  {
    var inp := (_: int, _: nat) => 0.0;
    CounterFits();
    FittingSignalsAreCorrect(Shipped, Counter(), inp, {}, {}, ms, t);
    CounterMeans(inp, t);
  }

  lemma EchoFits(c: int, n: int)
    requires 0 <= c < 128 && 1 <= n <= 5 * 44100
    ensures Fits(Shipped, Echo(c, n)) && Supported(Echo(c, n), 0, {c}, {})
  {
    var d := Delay(n, Input(c));
    assert Reach(Input(c)) == 0 && Reach(d) == 1 && Forks(Input(c), 1) == [] && Forks(d, 1) == [];
    assert Forks(Echo(c, n), 0) == [] + ([Fork(0, d)] + []) == [Fork(0, d)];
    assert Spine(INIT_PART, Echo(c, n)) == [];
    assert RightPart(0) == Part(1, 2) && Spine(Part(1, 2), d) == [1] + Spine(Part(3, 2), Input(c)) == [1];
  }

  /** In every run, the compiled echo puts out what was on the channel up to five seconds earlier. */
  lemma EchoEchoes(c: int, n: int, inp: Channels, ms: seq<Mem>, t: nat)
    requires 0 <= c < 128 && 1 <= n <= 5 * 44100
    requires Run(Simplify(Shipped, INIT_PART, Echo(c, n)), ms) && t < |ms|
    requires forall u :: 0 <= u < |ms| ==> Inputs({c}, inp, ms[u])
    ensures Computes(Echo(c, n), ms, t, inp(c, t) + if t < n then 0.0 else inp(c, t - n))
  {
    EchoFits(c, n);
    FittingSignalsAreCorrect(Shipped, Echo(c, n), inp, {c}, {}, ms, t);
    EchoMeans(c, n, inp, t);
  }

  // ----- The limits in numbers -----

  /** There are 128 channels and 64 buses, which are the negative ones. */
  lemma ChannelsAreLimited(c: int)
    ensures Runnable(Input(c)) <==> -64 <= c < 128
  {
  }

  /** Delays are up to five seconds. */
  lemma DelaysAreLimited(n: int)
    ensures Supported(Delay(n, Time), 0, {}, {}) <==> 1 <= n <= 5 * 44100
  {
  }

  /** `n` delays, one after the other. */
  function Chain(n: nat): Signal { if n == 0 then Time else Delay(1, Chain(n - 1)) }

  lemma {:induction false} ChainReaches(n: nat, l: nat)
    ensures Reach(Chain(n)) == n && Forks(Chain(n), l) == []
  {
    if n > 0 { ChainReaches(n - 1, l); }
  }

  /** There is a bus for each of 64 delays, and no more. */
  lemma ChainsAreLimited(n: nat)
    ensures Fits(Shipped, Chain(n)) <==> n <= 64
  {
    ChainReaches(n, 0);
  }

  // ----- Outputs -----

  /** In every run, a signal that goes to a channel is on it as soon as the sample is computed, whatever its delay. */
  lemma OutputIsLeft(n: int, c: int, a: Signal, inp: Channels, ins: set<int>, ms: seq<Mem>, t: nat)
    requires 0 <= c < 128 && c !in ins && Supported(a, 0, ins, {c}) && Fits(Shipped, Output(n, c, a))
    requires Run(Simplify(Shipped, INIT_PART, Output(n, c, a)), ms) && t < |ms|
    requires forall u :: 0 <= u < |ms| ==> Inputs(ins, inp, ms[u])
    ensures var prog := Simplify(Shipped, INIT_PART, Output(n, c, a));
      Runnable(prog) && StepResult(prog, ms[t]).1.inputs[c] == Den(a, [], inp, t)
  {
    var s := Output(n, c, a);
    FittingSignalsAreCorrect(Shipped, s, inp, ins, {c}, ms, t);
    OutputIsWritten(n, c, Simplify(Shipped, INIT_PART, a), ms[t]);
  }

  lemma OutputIsWritten(n: int, c: int, prog: Signal, m: Mem)
    requires m.Ok() && Runnable(Output(n, c, prog)) && c >= 0
    ensures StepResult(Output(n, c, prog), m).1.inputs[c] == StepResult(Output(n, c, prog), m).0
  {
    var (x, m1) := StepResult(prog, m);
    assert StepResult(Output(n, c, prog), m) == (x, m1.Write(if n < 0 then 0 else n, c, x));
  }
}
