/** The state of a running signal and `step` of shared/signal.c: one sample of a primitive program
    over an array of channel values and a circular memory of buses.
 */
module Stepper {
  import opened Signals
  import opened Compiler

  const MAX_INPUTS: nat := 128
  const MAX_BUSES: nat := 64
  const MAX_DELAY: nat := 220500

  function IndexBus(n: int, bus: int): int { bus * MAX_DELAY + n }

  /** What `step` reads and changes, as a value. */
  datatype Mem = Mem(inputs: seq<Sample>, buses: seq<Sample>, count: nat) {
    predicate Ok() {
      |inputs| == MAX_INPUTS && |buses| == MAX_BUSES * MAX_DELAY
    }

    /** The memory cell bus `bus` uses for sample `t`. */
    function Cell(bus: int, t: nat): Sample
      requires Ok() && 0 <= bus < MAX_BUSES
    {
      buses[IndexBus(t % MAX_DELAY, bus)]
    }

    function Read(c: int): Sample
      requires Ok() && HasChannel(c)
    {
      if c >= 0 then inputs[c] else Cell(NegBus(c), count)
    }

    function Write(n: nat, c: int, x: Sample): (m: Mem)
      requires Ok() && HasChannel(c)
      ensures m.Ok() && m.count == count
    {
      if c >= 0 then
        this.(inputs := inputs[c := x])
      else
        this.(buses := buses[IndexBus((count % MAX_DELAY + n) % MAX_DELAY, NegBus(c)) := x])
    }
  }

  type Memory = m: Mem | m.Ok() ghost witness Zeroed()

  predicate HasChannel(c: int) {
    if c >= 0 then c < MAX_INPUTS else NegBus(c) < MAX_BUSES
  }

  /** The programs `step` accepts: no loop, delay or variable, and every channel exists. */
  predicate Runnable(s: Signal) {
    match s
    case Time => true
    case Constant(_) => true
    case Lift(_, a) => Runnable(a)
    case Lift2(_, a, b) => Runnable(a) && Runnable(b)
    case Input(c) => HasChannel(c)
    case Output(n, c, a) => HasChannel(c) && (c < 0 ==> 0 <= n) && Runnable(a)
    case Loop(_) => false
    case Delay(_, _) => false
    case Var(_) => false
  }

  type Program = s: Signal | Runnable(s) witness Time

  /** The value and the memory after one step. */
  function StepResult(s: Signal, m: Mem): (r: (Sample, Mem))
    requires m.Ok() && Runnable(s)
    ensures r.1.Ok() && r.1.count == m.count
  {
    match s
    case Time => (m.count as real / RATE, m)
    case Constant(v) => (v, m)
    case Lift(f, a) =>
      var (x, m1) := StepResult(a, m);
      (f(x), m1)
    case Lift2(g, a, b) =>
      var (x, m1) := StepResult(a, m);
      var (y, m2) := StepResult(b, m1);
      (g(x, y), m2)
    case Input(c) => (m.Read(c), m)
    case Output(n, c, a) =>
      var (x, m1) := StepResult(a, m);
      (x, m1.Write(if n < 0 then 0 else n, c, x))
  }

  // ----- The mutable state -----

  class State {
    var inputs: array<Sample>
    var buses: array<Sample>
    var count: nat

    ghost predicate Valid()
      reads this
    {
      inputs.Length == MAX_INPUTS && buses.Length == MAX_BUSES * MAX_DELAY && inputs != buses
    }

    ghost function Now(): (m: Mem)
      requires Valid()
      reads this, inputs, buses
      ensures m.Ok()
    {
      Mem(inputs[..], buses[..], count)
    }

    /** All channels and buses silent, at sample 0. */
    constructor ()
      ensures Valid() && fresh(inputs) && fresh(buses)
      ensures Now() == Zeroed()
    {
      inputs := new Sample[MAX_INPUTS](_ => 0.0);
      buses := new Sample[MAX_BUSES * MAX_DELAY](_ => 0.0);
      count := 0;
    }

    method ReadSamp(c: int) returns (x: Sample)
      requires Valid() && HasChannel(c)
      ensures x == Now().Read(c)
    {
      if c >= 0 {
        x := inputs[c];
      } else {
        x := buses[IndexBus(count % MAX_DELAY, NegBus(c))];
      }
    }

    method WriteSamp(n: nat, c: int, x: Sample)
      requires Valid() && HasChannel(c)
      modifies inputs, buses
      ensures Now() == old(Now()).Write(n, c, x)
    {
      if c >= 0 {
        inputs[c] := x;
      } else {
        buses[IndexBus((count % MAX_DELAY + n) % MAX_DELAY, NegBus(c))] := x;
      }
    }

    /** Step over a sample. */
    method Step(signal: Signal) returns (x: Sample)
      requires Valid() && Runnable(signal)
      modifies inputs, buses
      ensures (x, Now()) == StepResult(signal, old(Now()))
    {
      match signal
      case Time => x := count as real / RATE;
      case Constant(v) => x := v;
      case Lift(f, a) =>
        var xa := Step(a);
        x := f(xa);
      case Lift2(g, a, b) =>
        var xa := Step(a);
        var xb := Step(b);
        x := g(xa, xb);
      case Input(c) => x := ReadSamp(c);
      case Output(n, c, a) =>
        x := Step(a);
        WriteSamp(if n < 0 then 0 else n, c, x);
    }

    method IncState()
      requires Valid()
      modifies `count
      ensures Valid() && Now() == old(Now()).(count := old(count) + 1)
    {
      count := count + 1;
    }
  }

  ghost function Zeroed(): (m: Mem)
    ensures m.Ok()
  {
    Mem(seq(MAX_INPUTS, _ => 0.0), seq(MAX_BUSES * MAX_DELAY, _ => 0.0), 0)
  }
}
