/** The signal language of shared/signal.c and what its header promises about it.

    A signal denotes a function of time.  The fixpoint function a caller hands to `loop` is
    represented by its body, in which `Var` stands for the looped-back signal; `Var(0)` belongs
    to the innermost enclosing `Loop`.  Samples are exact reals and lifted functions are arbitrary.
 */
module Signals {

  type Sample = real

  const RATE: real := 44100.0

  datatype Signal =
    | Time
    | Constant(value: Sample)
    | Lift(f: Sample -> Sample, a: Signal)
    | Lift2(g: (Sample, Sample) -> Sample, a: Signal, b: Signal)
    | Loop(body: Signal)
    | Delay(n: int, a: Signal)
    | Input(c: int)
    | Output(n: int, c: int, a: Signal)
    | Var(i: nat)

  /** A signal that evaluates both arguments and returns the result of the first. */
  function Former(a: Signal, b: Signal): Signal {
    Lift2((x, _) => x, a, b)
  }

  // ----- Denotation -----

  type Stream = nat -> Sample

  /** What the external channels carry: channel and sample index to value. */
  type Channels = (int, nat) -> Sample

  /** The stream that is `h` one sample late. */
  ghost function Late(h: seq<Sample>): Stream {
    (t: nat) => if 0 < t <= |h| then h[t - 1] else 0.0
  }

  /** The value of a signal at sample `t`, where `env[i]` is what `Var(i)` stands for. */
  ghost function Den(s: Signal, env: seq<Stream>, inp: Channels, t: nat): Sample
    decreases s, 1, 0
  {
    match s
    case Time => t as real / RATE
    case Constant(v) => v
    case Lift(f, a) => f(Den(a, env, inp, t))
    case Lift2(g, a, b) => g(Den(a, env, inp, t), Den(b, env, inp, t))
    case Loop(b) => Den(b, [Late(History(b, env, inp, t))] + env, inp, t)
    case Delay(n, a) => if n < 0 || t < n then 0.0 else Den(a, env, inp, t - n)
    case Input(c) => inp(c, t)
    case Output(_, _, a) => Den(a, env, inp, t)
    case Var(i) => if i < |env| then env[i](t) else 0.0
  }

  /** The values of `Loop(b)` at samples 0 .. t-1. */
  ghost function History(b: Signal, env: seq<Stream>, inp: Channels, t: nat): (h: seq<Sample>)
    ensures |h| == t
    decreases b, 2, t
  {
    if t == 0 then [] else
    var h := History(b, env, inp, t - 1);
    h + [Den(b, [Late(h)] + env, inp, t - 1)]
  }

  /** What the loop function receives: the loop's own value one sample earlier, 0 at the start. */
  ghost function Feedback(b: Signal, env: seq<Stream>, inp: Channels): Stream {
    (t: nat) => if t == 0 then 0.0 else Den(Loop(b), env, inp, t - 1)
  }

  // ----- Causality -----

  ghost predicate AgreeUpTo(env: seq<Stream>, env': seq<Stream>, t: nat) {
    |env| == |env'| && forall i, u: nat :: 0 <= i < |env| && u <= t ==> env[i](u) == env'[i](u)
  }

  ghost predicate SameChannelsUpTo(inp: Channels, inp': Channels, t: nat) {
    forall c, u: nat :: u <= t ==> inp(c, u) == inp'(c, u)
  }

  /** A signal's value at `t` depends on nothing later than `t`. */
  lemma {:induction false} Causal(s: Signal, env: seq<Stream>, env': seq<Stream>, inp: Channels, inp': Channels, t: nat)
    requires AgreeUpTo(env, env', t) && SameChannelsUpTo(inp, inp', t)
    ensures Den(s, env, inp, t) == Den(s, env', inp', t)
    decreases s, 1, 0
  {
    match s
    case Time =>
    case Constant(_) =>
    case Input(_) =>
    case Var(_) =>
    case Lift(_, a) => Causal(a, env, env', inp, inp', t);
    case Lift2(_, a, b) =>
      Causal(a, env, env', inp, inp', t);
      Causal(b, env, env', inp, inp', t);
    case Output(_, _, a) => Causal(a, env, env', inp, inp', t);
    case Delay(n, a) =>
      if 0 <= n <= t { Causal(a, env, env', inp, inp', t - n); }
    case Loop(b) =>
      HistoryCausal(b, env, env', inp, inp', t);
      var h := Late(History(b, env, inp, t));
      Causal(b, [h] + env, [h] + env', inp, inp', t);
  }

  lemma {:induction false} HistoryCausal(b: Signal, env: seq<Stream>, env': seq<Stream>, inp: Channels,
                                         inp': Channels, t: nat)
    requires AgreeUpTo(env, env', t) && SameChannelsUpTo(inp, inp', t)
    ensures History(b, env, inp, t) == History(b, env', inp', t)
    decreases b, 2, t
  {
    if t > 0 {
      HistoryCausal(b, env, env', inp, inp', t - 1);
      var h := Late(History(b, env, inp, t - 1));
      Causal(b, [h] + env, [h] + env', inp, inp', t - 1);
    }
  }

  lemma {:induction false} HistoryIsPast(b: Signal, env: seq<Stream>, inp: Channels, t: nat, u: nat)
    requires u < t
    ensures History(b, env, inp, t)[u] == Den(Loop(b), env, inp, u)
    decreases t
  {
    if u < t - 1 { HistoryIsPast(b, env, inp, t - 1, u); }
  }

  /** The law of `loop`: its function is applied to the loop's own value one sample earlier. */
  lemma LoopLaw(b: Signal, env: seq<Stream>, inp: Channels, t: nat)
    ensures Den(Loop(b), env, inp, t) == Den(b, [Feedback(b, env, inp)] + env, inp, t)
  {
    var h := History(b, env, inp, t);
    forall u: nat | u <= t
      ensures Late(h)(u) == Feedback(b, env, inp)(u)
    {
      if u > 0 { HistoryIsPast(b, env, inp, t, u - 1); }
    }
    Causal(b, [Late(h)] + env, [Feedback(b, env, inp)] + env, inp, inp, t);
  }
}
