/** Streams of shared/audio.c at work: `during_processing` is called back for one block of frames after the
    other, and between the blocks new actions arrive.
 */
module Audio {
  import opened Basics
  import opened Signals
  import opened Compiler
  import opened Stepper
  import opened Correctness
  import opened PriorityQueues
  import opened Schedule
  import opened Scheduler
  import opened Controls
  import opened Streams
  import opened Blocks

  /** One input value for each signal. */
  type Frame = f: seq<Sample> | |f| <= MAX_SIGNALS

  /** What a stream carries from one sample to the next. */
  datatype Dsp = Dsp(heap: Tree<Entry>, mem: Memory)

  /** What happens to a stream: an action arrives and is put into the heap, in a new node, or a frame is
      processed. */
  datatype Event = Arrive(node: Node<Entry>, entry: Entry) | Play(frame: Frame)

  function SetInputs(m: Memory, f: Frame): (m': Memory)
    ensures m'.count == m.count && m'.buses == m.buses
  {
    m.(inputs := m.inputs[..INPUT_OFFSET] + f + m.inputs[INPUT_OFFSET + |f|..])
  }

  /** The memory when the program is run on frame `f`. */
  ghost function FrameMem(rank: Entry -> real, at: Entry -> int, s: Dsp, f: Frame): Memory {
    SetInputs(RunAll(Taken(rank, at, s.heap, s.mem.count), s.mem), f)
  }

  ghost function AfterFrame(rank: Entry -> real, at: Entry -> int, prog: Program, s: Dsp, f: Frame): Dsp {
    var m := StepResult(prog, FrameMem(rank, at, s, f)).1;
    Dsp(Left(rank, at, s.heap, s.mem.count), m.(count := m.count + 1))
  }

  ghost function FrameOut(rank: Entry -> real, at: Entry -> int, prog: Program, s: Dsp, f: Frame): (o: Frame)
    ensures |o| == |f|
  {
    StepResult(prog, FrameMem(rank, at, s, f)).1.inputs[OUTPUT_OFFSET..OUTPUT_OFFSET + |f|]
  }

  // ----- A stream as a machine: what an event does to its state, and what comes of it -----

  ghost function Next(rank: Entry -> real, at: Entry -> int, prog: Program): (Dsp, Event) -> Dsp {
    (s: Dsp, e: Event) =>
      match e
      case Arrive(n, x) => s.(heap := Apply(rank, InsertOp(n, x), s.heap))
      case Play(f) => AfterFrame(rank, at, prog, s, f)
  }

  /** The frames it puts out. */
  ghost function Out(rank: Entry -> real, at: Entry -> int, prog: Program): (Dsp, Event) -> seq<Frame> {
    (s: Dsp, e: Event) => if e.Play? then [FrameOut(rank, at, prog, s, e.frame)] else []
  }

  /** The memories its program is run on. */
  ghost function Ran(rank: Entry -> real, at: Entry -> int): (Dsp, Event) -> seq<Mem> {
    (s: Dsp, e: Event) => if e.Play? then [FrameMem(rank, at, s, e.frame)] else []
  }

  /** The actions performed for each frame. */
  ghost function Performed(rank: Entry -> real, at: Entry -> int): (Dsp, Event) -> seq<seq<Entry>> {
    (s: Dsp, e: Event) => if e.Play? then [Taken(rank, at, s.heap, s.mem.count)] else []
  }

  function Arrivals(ns: seq<Node<Entry>>, es: seq<Entry>): seq<Event>
    requires |ns| == |es|
  {
    seq(|es|, i requires 0 <= i < |es| => Arrive(ns[i], es[i]))
  }

  function Plays(fs: seq<Frame>): seq<Event> { seq(|fs|, i requires 0 <= i < |fs| => Play(fs[i])) }

  /** The frames among the events. */
  function Frames(es: seq<Event>): seq<Frame> {
    if es == [] then []
    else
      var last := es[|es| - 1];
      Frames(es[..|es| - 1]) + if last.Play? then [last.frame] else []
  }

  lemma {:induction false} ArrivalsAreInserted(rank: Entry -> real, at: Entry -> int, prog: Program, s: Dsp,
                                               ns: seq<Node<Entry>>, es: seq<Entry>)
    requires |ns| == |es|
    ensures After(Next(rank, at, prog), s, Arrivals(ns, es)) == s.(heap := Inserted(rank, s.heap, ns, es))
    ensures Outputs(Next(rank, at, prog), Out(rank, at, prog), s, Arrivals(ns, es)) == []
    decreases |es|
  {
    if es != [] {
      var k := |es| - 1;
      ArrivalsAreInserted(rank, at, prog, s, ns[..k], es[..k]);
      assert Arrivals(ns, es)[..k] == Arrivals(ns[..k], es[..k]);
    }
  }

  lemma {:induction false} FramesOfBoth(es: seq<Event>, fs: seq<Event>)
    ensures Frames(es + fs) == Frames(es) + Frames(fs)
    decreases |fs|
  {
    if fs == [] {
      assert es + fs == es;
    } else {
      assert (es + fs)[..|es + fs| - 1] == es + fs[..|fs| - 1];
      FramesOfBoth(es, fs[..|fs| - 1]);
    }
  }

  lemma {:induction false} FramesOfPlays(fs: seq<Frame>)
    ensures Frames(Plays(fs)) == fs
    decreases |fs|
  {
    if fs != [] {
      var k := |fs| - 1;
      assert Plays(fs)[..k] == Plays(fs[..k]);
      FramesOfPlays(fs[..k]);
    }
  }

  // ----- What a stream plays -----

  /** Actions that set something set proper channels. */
  ghost predicate ArriveOnChannels(es: seq<Event>) {
    forall i :: 0 <= i < |es| && es[i].Arrive? && es[i].entry.action.Set? ==>
      0 <= es[i].entry.action.channel < MAX_INPUTS
  }

  predicate SetChannels(xs: seq<Entry>) {
    forall i :: 0 <= i < |xs| && xs[i].action.Set? ==> 0 <= xs[i].action.channel < MAX_INPUTS
  }

  lemma {:induction false} TakenWereThere(rank: Entry -> real, at: Entry -> int, t: Tree<Entry>, now: nat)
    requires SetsChannels(t)
    ensures SetsChannels(Left(rank, at, t, now))
    ensures forall i :: 0 <= i < |Taken(rank, at, t, now)| && Taken(rank, at, t, now)[i].action.Set? ==>
              0 <= Taken(rank, at, t, now)[i].action.channel
    decreases NodeCount(t)
  {
    if t.Branch? && at(t.entry) <= now {
      PopShrinks(rank, t);
      forall e | Copies(Apply(rank, PopOp, t), e) > 0 ensures Copies(t, e) > 0 {
        MergeCopies(rank, t.left, t.right, e);
      }
      assert Copies(t, t.entry) > 0;
      TakenWereThere(rank, at, Apply(rank, PopOp, t), now);
    }
  }

  lemma ArrivalOnChannel(rank: Entry -> real, t: Tree<Entry>, n: Node<Entry>, x: Entry)
    requires SetsChannels(t) && (x.action.Set? ==> 0 <= x.action.channel < MAX_INPUTS)
    ensures SetsChannels(Apply(rank, InsertOp(n, x), t))
  {
    forall e | Copies(Apply(rank, InsertOp(n, x), t), e) > 0 && e.action.Set?
      ensures 0 <= e.action.channel < MAX_INPUTS
    {
      MergeCopies(rank, t, Branch(n, x, Leaf, Leaf), e);
    }
  }

  /** The buses a run leaves behind. */
  ghost function BusesAfter(prog: Program, ms: seq<Mem>): seq<Sample>
    requires forall i :: 0 <= i < |ms| ==> ms[i].Ok()
  {
    if ms == [] then Zeroed().buses else StepResult(prog, ms[|ms| - 1]).1.buses
  }

  /** The memories `ms` and outputs `os` of a stream that has processed the frames `fs` and is at `s`. */
  ghost predicate Streamed(prog: Program, s: Dsp, fs: seq<Frame>, ms: seq<Mem>, os: seq<Frame>) {
    && s.mem.count == |fs| == |ms| == |os| && SetsChannels(s.heap)
    && Run(prog, ms) && s.mem.buses == BusesAfter(prog, ms)
    && forall k :: 0 <= k < |fs| ==> Shown(prog, fs[k], ms[k], os[k])
  }

  /** Frame `f` is on the input channels, and the output channels are put out. */
  ghost predicate Shown(prog: Program, f: Frame, m: Mem, o: Frame)
    requires m.Ok()
  {
    && m.inputs[INPUT_OFFSET..INPUT_OFFSET + |f|] == f
    && o == StepResult(prog, m).1.inputs[OUTPUT_OFFSET..OUTPUT_OFFSET + |f|]
  }

  lemma FrameIsStreamed(rank: Entry -> real, at: Entry -> int, prog: Program, s: Dsp, f: Frame,
                        fs: seq<Frame>, ms: seq<Mem>, os: seq<Frame>)
    requires Streamed(prog, s, fs, ms, os)
    ensures Streamed(prog, AfterFrame(rank, at, prog, s, f), fs + [f], ms + [FrameMem(rank, at, s, f)],
                     os + [FrameOut(rank, at, prog, s, f)])
  {
    var m := FrameMem(rank, at, s, f);
    TakenWereThere(rank, at, s.heap, s.mem.count);
    ActionsLeaveBuses(Taken(rank, at, s.heap, s.mem.count), s.mem);
    assert m.buses == s.mem.buses;
    var ms' := ms + [m];
    forall t, u | 0 <= t && u == t + 1 < |ms'| ensures ms'[u].buses == StepResult(prog, ms'[t]).1.buses {
      if u < |ms| { assert ms[u].buses == StepResult(prog, ms[t]).1.buses; }
    }
    assert Run(prog, ms');
    assert Shown(prog, f, m, FrameOut(rank, at, prog, s, f));
  }

  lemma EventIsStreamed(rank: Entry -> real, at: Entry -> int, prog: Program, s: Dsp, e: Event,
                        fs: seq<Frame>, ms: seq<Mem>, os: seq<Frame>)
    requires Streamed(prog, s, fs, ms, os) && ArriveOnChannels([e])
    ensures Streamed(prog, Next(rank, at, prog)(s, e), fs + (if e.Play? then [e.frame] else []),
                     ms + Ran(rank, at)(s, e), os + Out(rank, at, prog)(s, e))
  {
    match e
    case Arrive(n, x) =>
      ArrivalOnChannel(rank, s.heap, n, [e][0].entry);
      assert fs + [] == fs && ms + [] == ms && os + [] == os;
    case Play(f) => FrameIsStreamed(rank, at, prog, s, f, fs, ms, os);
  }

  lemma {:induction false} EventsAreStreamed(rank: Entry -> real, at: Entry -> int, prog: Program, t: Tree<Entry>,
                                             es: seq<Event>)
    requires SetsChannels(t) && ArriveOnChannels(es)
    ensures var s := Dsp(t, Zeroed()); var next := Next(rank, at, prog);
            Streamed(prog, After(next, s, es), Frames(es), Outputs(next, Ran(rank, at), s, es),
                     Outputs(next, Out(rank, at, prog), s, es))
    decreases |es|
  {
    if es != [] {
      var k, s, next := |es| - 1, Dsp(t, Zeroed()), Next(rank, at, prog);
      EventsAreStreamed(rank, at, prog, t, es[..k]);
      EventIsStreamed(rank, at, prog, After(next, s, es[..k]), es[k], Frames(es[..k]),
                      Outputs(next, Ran(rank, at), s, es[..k]), Outputs(next, Out(rank, at, prog), s, es[..k]));
    }
  }

  /** The channels as the signals of a stream hear them. */
  ghost function Carried(rank: Entry -> real, at: Entry -> int, prog: Program, t: Tree<Entry>, es: seq<Event>): Channels
  {
    var ms := Outputs(Next(rank, at, prog), Ran(rank, at), Dsp(t, Zeroed()), es);
    (c: int, k: nat) => if k < |ms| && 0 <= c < |ms[k].inputs| then ms[k].inputs[c] else 0.0
  }

  lemma ShownIsHeard(signals: seq<Signal>, inp: Channels, prog: Program, ms: seq<Mem>, f: Frame, o: Frame, k: nat,
                     c: nat)
    requires k < |ms| && ms[k].Ok() && Shown(prog, f, ms[k], o) && c < |signals| == |f|
    requires StepResult(prog, ms[k]).1.inputs[OUTPUT_OFFSET + c] == Den(signals[c], [], inp, k)
    requires inp(INPUT_OFFSET + c, k) == ms[k].inputs[INPUT_OFFSET + c]
    ensures |o| == |signals| && o[c] == Den(signals[c], [], inp, k) && inp(INPUT_OFFSET + c, k) == f[c]
  {
    assert ms[k].inputs[INPUT_OFFSET..INPUT_OFFSET + |signals|][c] == ms[k].inputs[INPUT_OFFSET + c];
  }

  /** What a stream plays, whenever actions arrive: output `c` of frame `k` is the denotation of signal `c` at
      sample `k`, where input `i` is heard as the signals' channel `INPUT_OFFSET + i`. */
  lemma StreamsPlayTheirSignals(rank: Entry -> real, at: Entry -> int, sp: Split, signals: seq<Signal>, t: Tree<Entry>,
                                es: seq<Event>, k: nat, c: nat)
    requires Playable(signals) && StreamFits(sp, signals)
    requires SetsChannels(t) && ArriveOnChannels(es)
    requires k < |Frames(es)| && c < |signals| == |Frames(es)[k]|
    ensures Runnable(Simplify(sp, INIT_PART, Merged(signals)))
    ensures var prog := Simplify(sp, INIT_PART, Merged(signals));
            var played := Outputs(Next(rank, at, prog), Out(rank, at, prog), Dsp(t, Zeroed()), es);
            && |played| == |Frames(es)| && |played[k]| == |signals|
            && played[k][c] == Den(signals[c], [], Carried(rank, at, prog, t, es), k)
            && Carried(rank, at, prog, t, es)(INPUT_OFFSET + c, k) == Frames(es)[k][c]
  {
    MergedRuns(sp, signals);
    var prog := Simplify(sp, INIT_PART, Merged(signals));
    var inp := Carried(rank, at, prog, t, es);
    var ms := Outputs(Next(rank, at, prog), Ran(rank, at), Dsp(t, Zeroed()), es);
    var played := Outputs(Next(rank, at, prog), Out(rank, at, prog), Dsp(t, Zeroed()), es);
    EventsAreStreamed(rank, at, prog, t, es);
    forall u | 0 <= u < |ms| ensures Inputs(INS, inp, ms[u]) { }
    EachOutputIsItsSignal(sp, signals, inp, ms, k, c);
    ShownIsHeard(signals, inp, prog, ms, Frames(es)[k], played[k], k, c);
  }

  // ----- When a stream performs its actions -----

  /** The sample at which an action is performed that arrives when sample `now` is next. */
  function Turn(at: Entry -> int, e: Entry, now: nat): nat { if Due(at, e) < now then now else Due(at, e) }

  /** How often `e` arrives to be performed at sample `k`. */
  ghost function ForSample(at: Entry -> int, es: seq<Event>, e: Entry, k: nat): nat {
    if es == [] then 0
    else
      var init, last := es[..|es| - 1], es[|es| - 1];
      ForSample(at, init, e, k) + if last.Arrive? && last.entry == e && Turn(at, e, |Frames(init)|) == k then 1 else 0
  }

  /** How often `e` arrives to be performed at sample `n` or later. */
  ghost function ForLater(at: Entry -> int, es: seq<Event>, e: Entry, n: nat): nat {
    if es == [] then 0
    else
      var init, last := es[..|es| - 1], es[|es| - 1];
      ForLater(at, init, e, n) + if last.Arrive? && last.entry == e && Turn(at, e, |Frames(init)|) >= n then 1 else 0
  }

  lemma {:induction false} LaterIsNowOrLater(at: Entry -> int, es: seq<Event>, e: Entry, n: nat)
    ensures ForLater(at, es, e, n) == ForSample(at, es, e, n) + ForLater(at, es, e, n + 1)
    ensures Due(at, e) > n ==> ForSample(at, es, e, n) == 0
    ensures Due(at, e) <= n && |Frames(es)| <= n ==> ForLater(at, es, e, n + 1) == 0
    decreases |es|
  {
    if es != [] { LaterIsNowOrLater(at, es[..|es| - 1], e, n); }
  }

  /** `log` says what has been performed for each frame. */
  ghost predicate Logs(at: Entry -> int, es: seq<Event>, e: Entry, log: seq<seq<Entry>>) {
    |log| == |Frames(es)| && forall k :: 0 <= k < |log| ==> multiset(log[k])[e] == ForSample(at, es, e, k)
  }

  /** The heap `t` holds what is to be performed from now on, and `log` what has been performed. */
  ghost predicate OnTime(rank: Entry -> real, at: Entry -> int, es: seq<Event>, e: Entry, t: Tree<Entry>,
                         log: seq<seq<Entry>>) {
    Ordered(rank, t) && Copies(t, e) == ForLater(at, es, e, |Frames(es)|) && Logs(at, es, e, log)
  }

  lemma ArrivalIsLater(at: Entry -> int, es: seq<Event>, e: Entry, log: seq<seq<Entry>>, n: Node<Entry>, x: Entry)
    requires Logs(at, es, e, log)
    ensures Logs(at, es + [Arrive(n, x)], e, log)
    ensures ForLater(at, es + [Arrive(n, x)], e, |Frames(es)|) ==
              ForLater(at, es, e, |Frames(es)|) + if x == e then 1 else 0
  {
    var es' := es + [Arrive(n, x)];
    assert es'[..|es'| - 1] == es;
    forall k | 0 <= k < |log| ensures multiset(log[k])[e] == ForSample(at, es', e, k) {
      assert ForSample(at, es', e, k) == ForSample(at, es, e, k);
    }
  }

  lemma ArrivalIsOnTime(rank: Entry -> real, at: Entry -> int, es: seq<Event>, e: Entry, t: Tree<Entry>,
                        log: seq<seq<Entry>>, n: Node<Entry>, x: Entry)
    requires OnTime(rank, at, es, e, t, log)
    ensures OnTime(rank, at, es + [Arrive(n, x)], e, Apply(rank, InsertOp(n, x), t), log)
  {
    ArrivalIsLater(at, es, e, log, n, x);
    InsertAddsOne(rank, t, n, x, e);
  }

  lemma DrainIsOnTime(rank: Entry -> real, at: Entry -> int, es: seq<Event>, e: Entry, t: Tree<Entry>, n: nat)
    requires Monotone(rank, at) && Ordered(rank, t) && n == |Frames(es)| && Copies(t, e) == ForLater(at, es, e, n)
    ensures Copies(Left(rank, at, t, n), e) == ForLater(at, es, e, n + 1)
    ensures multiset(Taken(rank, at, t, n))[e] == ForSample(at, es, e, n)
  {
    DrainTakesTheDue(rank, at, t, n, e);
    LaterIsNowOrLater(at, es, e, n);
  }

  lemma FrameIsLogged(at: Entry -> int, es: seq<Event>, e: Entry, log: seq<seq<Entry>>, f: Frame, taken: seq<Entry>)
    requires Logs(at, es, e, log) && multiset(taken)[e] == ForSample(at, es, e, |log|)
    ensures Logs(at, es + [Play(f)], e, log + [taken])
    ensures ForLater(at, es + [Play(f)], e, |log| + 1) == ForLater(at, es, e, |log| + 1)
  {
    var es', log' := es + [Play(f)], log + [taken];
    assert es'[..|es'| - 1] == es;
    forall k | 0 <= k < |log'| ensures multiset(log'[k])[e] == ForSample(at, es', e, k) {
      assert ForSample(at, es', e, k) == ForSample(at, es, e, k);
      if k < |log| { assert log'[k] == log[k]; }
    }
  }

  lemma FrameIsOnTime(rank: Entry -> real, at: Entry -> int, es: seq<Event>, e: Entry, t: Tree<Entry>,
                      log: seq<seq<Entry>>, f: Frame)
    requires Monotone(rank, at) && OnTime(rank, at, es, e, t, log)
    ensures OnTime(rank, at, es + [Play(f)], e, Left(rank, at, t, |log|), log + [Taken(rank, at, t, |log|)])
  {
    DrainIsOnTime(rank, at, es, e, t, |log|);
    DrainKeepsOrder(rank, at, t, |log|);
    FrameIsLogged(at, es, e, log, f, Taken(rank, at, t, |log|));
  }

  /** Every action that arrives is performed once: at its sample, or at the first one after its arrival if its
      sample is over, and what is to be performed later is in the heap. */
  lemma {:induction false} ArrivalsRunOnTime(rank: Entry -> real, at: Entry -> int, prog: Program, es: seq<Event>,
                                             e: Entry)
    requires Monotone(rank, at)
    ensures var s := Dsp(Leaf, Zeroed()); var next := Next(rank, at, prog);
            After(next, s, es).mem.count == |Frames(es)| &&
            OnTime(rank, at, es, e, After(next, s, es).heap, Outputs(next, Performed(rank, at), s, es))
    decreases |es|
  {
    if es != [] {
      var k := |es| - 1;
      var s, next := Dsp(Leaf, Zeroed()), Next(rank, at, prog);
      var before, log := After(next, s, es[..k]), Outputs(next, Performed(rank, at), s, es[..k]);
      ArrivalsRunOnTime(rank, at, prog, es[..k], e);
      assert es == es[..k] + [es[k]];
      match es[k]
      case Arrive(n, x) => ArrivalIsOnTime(rank, at, es[..k], e, before.heap, log, n, x);
      case Play(f) => FrameIsOnTime(rank, at, es[..k], e, before.heap, log, f);
    }
  }

  // ----- What the signals of a stream hear besides their inputs -----

  /** Channel `c` has held the last value set on it before each frame. */
  ghost predicate Hears(c: int, s: Dsp, ms: seq<Mem>, log: seq<seq<Entry>>)
    requires 0 <= c < MAX_INPUTS
  {
    && s.mem.inputs[c] == LastSet(Joined(log), c, 0.0) && |ms| == |log|
    && forall k :: 0 <= k < |ms| ==> ms[k].Ok() && ms[k].inputs[c] == LastSet(Joined(log[..k + 1]), c, 0.0)
  }

  lemma LogGrows(log: seq<seq<Entry>>, taken: seq<Entry>, c: int)
    ensures LastSet(Joined(log + [taken]), c, 0.0) == LastSet(taken, c, LastSet(Joined(log), c, 0.0))
  {
    LastSetJoin(Joined(log), taken, c, 0.0);
    JoinedOne(log, taken);
  }

  lemma FrameLeaves(rank: Entry -> real, at: Entry -> int, prog: Program, s: Dsp, f: Frame, c: int)
    requires 0 <= c < MAX_INPUTS && Spares(prog, c) && (c < INPUT_OFFSET || INPUT_OFFSET + |f| <= c)
    ensures var x := LastSet(Taken(rank, at, s.heap, s.mem.count), c, s.mem.inputs[c]);
            FrameMem(rank, at, s, f).inputs[c] == x && AfterFrame(rank, at, prog, s, f).mem.inputs[c] == x
  {
    ActionsSetLast(Taken(rank, at, s.heap, s.mem.count), s.mem, c);
    StepSpares(prog, FrameMem(rank, at, s, f), c);
  }

  lemma HearsMore(c: int, s: Dsp, ms: seq<Mem>, log: seq<seq<Entry>>, s': Dsp, m: Mem, taken: seq<Entry>)
    requires 0 <= c < MAX_INPUTS && Hears(c, s, ms, log) && m.Ok()
    requires m.inputs[c] == s'.mem.inputs[c] == LastSet(taken, c, s.mem.inputs[c])
    ensures Hears(c, s', ms + [m], log + [taken])
  {
    var ms', log' := ms + [m], log + [taken];
    LogGrows(log, taken, c);
    assert log'[..|log| + 1] == log';
    forall k | 0 <= k < |ms'| ensures ms'[k].Ok() && ms'[k].inputs[c] == LastSet(Joined(log'[..k + 1]), c, 0.0) {
      if k < |ms| { assert log'[..k + 1] == log[..k + 1]; }
    }
  }

  lemma FrameHears(rank: Entry -> real, at: Entry -> int, prog: Program, s: Dsp, f: Frame, c: int, ms: seq<Mem>,
                   log: seq<seq<Entry>>)
    requires 0 <= c < MAX_INPUTS && Spares(prog, c) && (c < INPUT_OFFSET || INPUT_OFFSET + |f| <= c)
    requires Hears(c, s, ms, log)
    ensures Hears(c, AfterFrame(rank, at, prog, s, f), ms + [FrameMem(rank, at, s, f)],
                  log + [Taken(rank, at, s.heap, s.mem.count)])
  {
    FrameLeaves(rank, at, prog, s, f, c);
    HearsMore(c, s, ms, log, AfterFrame(rank, at, prog, s, f), FrameMem(rank, at, s, f),
              Taken(rank, at, s.heap, s.mem.count));
  }

  /** No input is on channel `c`. */
  ghost predicate NoInputOn(c: int, es: seq<Event>) {
    forall i :: 0 <= i < |es| && es[i].Play? ==> c < INPUT_OFFSET || INPUT_OFFSET + |es[i].frame| <= c
  }

  lemma {:induction false} EventsHear(rank: Entry -> real, at: Entry -> int, prog: Program, t: Tree<Entry>,
                                      es: seq<Event>, c: int)
    requires 0 <= c < MAX_INPUTS && Spares(prog, c) && NoInputOn(c, es)
    ensures var s := Dsp(t, Zeroed()); var next := Next(rank, at, prog);
            Hears(c, After(next, s, es), Outputs(next, Ran(rank, at), s, es), Outputs(next, Performed(rank, at), s, es))
    decreases |es|
  {
    if es != [] {
      var k, s, next := |es| - 1, Dsp(t, Zeroed()), Next(rank, at, prog);
      var before := After(next, s, es[..k]);
      var ms, log := Outputs(next, Ran(rank, at), s, es[..k]), Outputs(next, Performed(rank, at), s, es[..k]);
      EventsHear(rank, at, prog, t, es[..k], c);
      match es[k]
      case Arrive(_, _) => assert ms + [] == ms && log + [] == log;
      case Play(f) => FrameHears(rank, at, prog, before, f, c, ms, log);
    }
  }

  ghost predicate AllSorted(rank: Entry -> real, log: seq<seq<Entry>>) {
    forall k :: 0 <= k < |log| ==> Sorted(rank, log[k])
  }

  lemma {:induction false} PerformedInOrder(rank: Entry -> real, at: Entry -> int, prog: Program, es: seq<Event>)
    ensures var s := Dsp(Leaf, Zeroed()); var next := Next(rank, at, prog);
            && Ordered(rank, After(next, s, es).heap)
            && AllSorted(rank, Outputs(next, Performed(rank, at), s, es))
            && |Outputs(next, Performed(rank, at), s, es)| == |Frames(es)|
    decreases |es|
  {
    if es != [] {
      var k := |es| - 1;
      var before := After(Next(rank, at, prog), Dsp(Leaf, Zeroed()), es[..k]);
      PerformedInOrder(rank, at, prog, es[..k]);
      match es[k]
      case Arrive(n, x) => MergeKeepsOrder(rank, before.heap, Branch(n, x, Leaf, Leaf));
      case Play(_) =>
        DrainIsSorted(rank, at, before.heap, before.mem.count);
        DrainKeepsOrder(rank, at, before.heap, before.mem.count);
    }
  }

  /** The action that was performed last among those that set a channel, and when. */
  datatype Latest = Never | At(sample: nat, entry: Entry)

  /** `latest` is a latest of the actions that come for samples up to `k` and set channel `c`: at the last such
      sample, and of the latest time there. */
  ghost predicate IsLatest(rank: Entry -> real, comes: (Entry, nat) -> bool, c: int, k: nat, latest: Latest) {
    match latest
    case Never => forall e, j: nat :: j <= k && comes(e, j) ==> !Sets(e, c)
    case At(sample, entry) =>
      && sample <= k && comes(entry, sample) && Sets(entry, c)
      && forall e, j: nat :: j <= k && comes(e, j) && Sets(e, c) ==>
           j < sample || (j == sample && rank(e) <= rank(entry))
  }

  /** The actions that arrive, each at the sample at which it is performed. */
  ghost function Comes(at: Entry -> int, es: seq<Event>): (Entry, nat) -> bool {
    (e: Entry, j: nat) => ForSample(at, es, e, j) > 0
  }

  ghost function InLog(log: seq<seq<Entry>>): (Entry, nat) -> bool {
    (e: Entry, j: nat) => j < |log| && e in log[j]
  }

  lemma SameLatest(rank: Entry -> real, comes: (Entry, nat) -> bool, comes': (Entry, nat) -> bool, c: int, k: nat,
                   latest: Latest)
    requires IsLatest(rank, comes, c, k, latest)
    requires forall e, j: nat :: j <= k ==> (comes(e, j) <==> comes'(e, j))
    ensures IsLatest(rank, comes', c, k, latest)
  {
    assert latest.At? ==> comes'(latest.entry, latest.sample);
  }

  ghost function Value(latest: Latest): Sample { if latest.At? then ActionValue(latest.entry.action) else 0.0 }

  function ActionValue(a: Action): Sample { if a.Set? then a.value else 0.0 }

  lemma LatestHere(rank: Entry -> real, log: seq<seq<Entry>>, c: int, k: nat, e: Entry)
    requires k < |log| && e in log[k] && Sets(e, c)
    requires forall e' :: e' in log[k] && Sets(e', c) ==> rank(e') <= rank(e)
    ensures IsLatest(rank, InLog(log), c, k, At(k, e))
  {
  }

  lemma LatestEarlier(rank: Entry -> real, log: seq<seq<Entry>>, c: int, k: nat, latest: Latest)
    requires k < |log| && forall e :: e in log[k] ==> !Sets(e, c)
    requires if k == 0 then latest == Never else IsLatest(rank, InLog(log), c, k - 1, latest)
    ensures IsLatest(rank, InLog(log), c, k, latest)
  {
    forall e, j: nat | j <= k && InLog(log)(e, j) && Sets(e, c) ensures j < k { }
  }

  lemma {:induction false} LatestInLog(rank: Entry -> real, log: seq<seq<Entry>>, c: int, k: nat)
    returns (latest: Latest)
    requires AllSorted(rank, log) && k < |log|
    ensures IsLatest(rank, InLog(log), c, k, latest)
    ensures LastSet(Joined(log[..k + 1]), c, 0.0) == Value(latest)
  {
    hide IsLatest, Sorted;
    var last := LatestIn(rank, log[k], c, LastSet(Joined(log[..k]), c, 0.0));
    LogGrows(log[..k], log[k], c);
    assert log[..k + 1] == log[..k] + [log[k]];
    if last.Some? {
      LatestHere(rank, log, c, k, last.value);
      latest := At(k, last.value);
    } else {
      latest := Never;
      if k > 0 { latest := LatestInLog(rank, log, c, k - 1); }
      LatestEarlier(rank, log, c, k, latest);
    }
  }

  /** The actions performed at a sample are those that come for it. */
  lemma LogIsWhatComes(rank: Entry -> real, at: Entry -> int, prog: Program, es: seq<Event>)
    requires Monotone(rank, at)
    ensures var log := Outputs(Next(rank, at, prog), Performed(rank, at), Dsp(Leaf, Zeroed()), es);
            forall e, j: nat :: j < |Frames(es)| ==> (InLog(log)(e, j) <==> Comes(at, es)(e, j))
  {
    var log := Outputs(Next(rank, at, prog), Performed(rank, at), Dsp(Leaf, Zeroed()), es);
    forall e, j: nat | j < |Frames(es)| ensures InLog(log)(e, j) <==> Comes(at, es)(e, j) {
      ArrivalsRunOnTime(rank, at, prog, es, e);
      assert e in log[j] <==> e in multiset(log[j]);
    }
  }

  /** Controls of streams are step functions, whenever the actions arrive: on a channel that carries neither an
      input nor an output, a stream hears the value of a latest action that has come for it, or 0. */
  lemma StreamControlsAreStepFunctions(rank: Entry -> real, at: Entry -> int, prog: Program, es: seq<Event>, c: int,
                                       k: nat) returns (latest: Latest)
    requires Monotone(rank, at) && 0 <= c < MAX_INPUTS && Spares(prog, c) && NoInputOn(c, es) && k < |Frames(es)|
    ensures IsLatest(rank, Comes(at, es), c, k, latest)
    ensures Carried(rank, at, prog, Leaf, es)(c, k) == Value(latest)
  {
    hide IsLatest, Outputs, Frames, LastSet, ForSample;
    var s, next := Dsp(Leaf, Zeroed()), Next(rank, at, prog);
    var log := Outputs(next, Performed(rank, at), s, es);
    EventsHear(rank, at, prog, Leaf, es, c);
    PerformedInOrder(rank, at, prog, es);
    LogIsWhatComes(rank, at, prog, es);
    latest := LatestInLog(rank, log, c, k);
    SameLatest(rank, InLog(log), Comes(at, es), c, k, latest);
  }

  // ----- The callback -----

  ghost function Current(controls: PriorityQueue<Entry>, state: State): Dsp
    requires state.Valid()
    reads controls`tree, state, state.inputs, state.buses
  {
    Dsp(controls.tree, state.Now())
  }

  ghost function Column(a: array2<Sample>, i: nat): (f: Frame)
    requires a.Length0 <= MAX_SIGNALS && i < a.Length1
    reads a
    ensures |f| == a.Length0
  {
    seq(a.Length0, c requires 0 <= c < a.Length0 reads a => a[c, i])
  }

  ghost function Columns(a: array2<Sample>, n: nat): (fs: seq<Frame>)
    requires a.Length0 <= MAX_SIGNALS && n <= a.Length1
    reads a
    ensures |fs| == n
  {
    seq(n, i requires 0 <= i < n reads a => Column(a, i))
  }

  method ReadFrame(state: State, input: array2<Sample>, i: nat)
    requires state.Valid() && input.Length0 <= MAX_SIGNALS && i < input.Length1
    modifies state.inputs
    ensures state.Now() == SetInputs(old(state.Now()), Column(input, i))
  {
    for c := 0 to input.Length0
      invariant state.inputs[..INPUT_OFFSET] == old(state.inputs[..INPUT_OFFSET])
      invariant forall j :: 0 <= j < c ==> state.inputs[INPUT_OFFSET + j] == input[j, i]
      invariant forall j :: INPUT_OFFSET + c <= j < MAX_INPUTS ==> state.inputs[j] == old(state.inputs[j])
    {
      state.inputs[c + INPUT_OFFSET] := input[c, i];
    }
  }

  method WriteFrame(state: State, output: array2<Sample>, i: nat)
    requires state.Valid() && output.Length0 <= MAX_SIGNALS && i < output.Length1
    modifies output
    ensures Columns(output, i + 1) ==
              old(Columns(output, i)) + [state.inputs[OUTPUT_OFFSET..OUTPUT_OFFSET + output.Length0]]
    ensures forall j :: i < j < output.Length1 ==> Column(output, j) == old(Column(output, j))
  {
    for c := 0 to output.Length0
      invariant forall d :: 0 <= d < c ==> output[d, i] == state.inputs[OUTPUT_OFFSET + d]
      invariant forall d, j :: 0 <= d < output.Length0 && 0 <= j < output.Length1 && j != i ==>
                  output[d, j] == old(output[d, j])
    {
      output[c, i] := state.inputs[c + OUTPUT_OFFSET];
    }
    assert Column(output, i) == state.inputs[OUTPUT_OFFSET..OUTPUT_OFFSET + output.Length0];
    assert forall j :: 0 <= j < output.Length1 && j != i ==> Column(output, j) == old(Column(output, j));
  }

  /** One turn of the sample loop. */
  method ProcessFrame(controls: PriorityQueue<Entry>, at: Entry -> int, state: State, prog: Program,
                      input: array2<Sample>, output: array2<Sample>, i: nat)
    requires Usable(controls, Nodes(controls.tree)) && state.Valid()
    requires input.Length0 == output.Length0 <= MAX_SIGNALS && i < input.Length1 == output.Length1 && input != output
    modifies controls, Nodes(controls.tree), state`count, state.inputs, state.buses, output
    ensures Usable(controls, old(Nodes(controls.tree)))
    ensures var s := old(Current(controls, state));
            && Current(controls, state) == AfterFrame(controls.rank, at, prog, s, Column(input, i))
            && Columns(output, i + 1) == old(Columns(output, i)) +
                 [FrameOut(controls.rank, at, prog, s, Column(input, i))]
    ensures forall j :: i < j < output.Length1 ==> Column(output, j) == old(Column(output, j))
  {
    hide Taken, Left, RunAll, StepResult;
    RunActions(controls, at, state);
    NodesAreAllocated(controls.tree);
    ReadFrame(state, input, i);
    var _ := state.Step(prog);
    WriteFrame(state, output, i);
    state.IncState();
  }

  /** From `s`, the frames `fs` lead to `s'` and give the outputs `os`. */
  ghost predicate Processed(rank: Entry -> real, at: Entry -> int, prog: Program, s: Dsp, es: seq<Event>, s': Dsp,
                            os: seq<Frame>) {
    s' == After(Next(rank, at, prog), s, es) && os == Outputs(Next(rank, at, prog), Out(rank, at, prog), s, es)
  }

  lemma OneMoreFrame(rank: Entry -> real, at: Entry -> int, prog: Program, s: Dsp, fs: seq<Frame>, i: nat, s': Dsp,
                     os: seq<Frame>)
    requires i < |fs| && Processed(rank, at, prog, s, Plays(fs[..i]), s', os)
    ensures Processed(rank, at, prog, s, Plays(fs[..i + 1]), AfterFrame(rank, at, prog, s', fs[i]),
                      os + [FrameOut(rank, at, prog, s', fs[i])])
  {
    OneMoreItem(Next(rank, at, prog), Out(rank, at, prog), s, Plays(fs[..i]), Play(fs[i]));
    assert Plays(fs[..i + 1]) == Plays(fs[..i]) + [Play(fs[i])];
  }

  /** The sample loop over a block. */
  method ProcessFrames(controls: PriorityQueue<Entry>, at: Entry -> int, state: State, prog: Program,
                       input: array2<Sample>, output: array2<Sample>)
    requires Usable(controls, Nodes(controls.tree)) && state.Valid()
    requires input.Length0 == output.Length0 <= MAX_SIGNALS && input.Length1 == output.Length1 && input != output
    modifies controls, Nodes(controls.tree), state`count, state.inputs, state.buses, output
    ensures Usable(controls, old(Nodes(controls.tree)))
    ensures Processed(controls.rank, at, prog, old(Current(controls, state)),
                      Plays(Columns(input, input.Length1)),
                      Current(controls, state), Columns(output, output.Length1))
  {
    ghost var rank, s, fs := controls.rank, Current(controls, state), Columns(input, input.Length1);
    for i := 0 to input.Length1
      invariant Usable(controls, old(Nodes(controls.tree)))
      invariant Processed(rank, at, prog, s, Plays(fs[..i]), Current(controls, state), Columns(output, i))
    {
      OneMoreFrame(rank, at, prog, s, fs, i, Current(controls, state), Columns(output, i));
      assert Column(input, i) == fs[i];
      ProcessFrame(controls, at, state, prog, input, output, i);
    }
    assert fs[..input.Length1] == fs;
  }

  lemma BlocksJoin(rank: Entry -> real, at: Entry -> int, prog: Program, s: Dsp, es: seq<Event>, s1: Dsp,
                   os: seq<Frame>, fs: seq<Event>, s2: Dsp, os': seq<Frame>)
    requires Processed(rank, at, prog, s, es, s1, os) && Processed(rank, at, prog, s1, fs, s2, os')
    ensures Processed(rank, at, prog, s, es + fs, s2, os + os')
  {
    TwoBlocks(Next(rank, at, prog), Out(rank, at, prog), s, es, fs);
  }

  lemma ArrivalsAreProcessed(rank: Entry -> real, at: Entry -> int, prog: Program, s: Dsp, ns: seq<Node<Entry>>,
                             arrived: seq<Entry>, start: Dsp)
    requires |ns| == |arrived| && start == s.(heap := Inserted(rank, s.heap, ns, arrived))
    ensures Processed(rank, at, prog, s, Arrivals(ns, arrived), start, [])
  {
    ArrivalsAreInserted(rank, at, prog, s, ns, arrived);
  }

  lemma ArrivalsThenFrames(rank: Entry -> real, at: Entry -> int, prog: Program, s: Dsp, es: seq<Event>, start: Dsp,
                           fs: seq<Event>, s': Dsp, os: seq<Frame>)
    requires Processed(rank, at, prog, s, es, start, []) && Processed(rank, at, prog, start, fs, s', os)
    ensures Processed(rank, at, prog, s, es + fs, s', os)
  {
    BlocksJoin(rank, at, prog, s, es, start, [], fs, s', os);
    assert [] + os == os;
  }

  lemma StillSettable(t: Tree<Entry>, t': Tree<Entry>, arrived: seq<Entry>)
    requires AllSettable(t) && forall i :: 0 <= i < |arrived| ==> Settable(arrived[i].action)
    requires forall e :: Copies(t', e) == Copies(t, e) + multiset(arrived)[e]
    ensures AllSettable(t')
  {
    forall e | Copies(t', e) > 0 ensures Settable(e.action) {
      if Copies(t, e) == 0 { assert e in multiset(arrived); }
    }
  }

  /** The events in which the actions `xs` arrive, in order. */
  ghost predicate Puts(es: seq<Event>, xs: seq<Entry>) {
    |es| == |xs| && forall i :: 0 <= i < |es| ==> es[i].Arrive? && es[i].entry == xs[i]
  }

  /** Puts the actions that have arrived into the heap and processes a block. */
  method DuringProcessing(arrived: seq<Entry>, controls: PriorityQueue<Entry>, at: Entry -> int, state: State,
                          prog: Program, input: array2<Sample>, output: array2<Sample>)
    returns (ghost arrivals: seq<Event>, ghost added: set<Node<Entry>>)
    requires Usable(controls, Nodes(controls.tree)) && state.Valid()
    requires forall i :: 0 <= i < |arrived| ==> Settable(arrived[i].action)
    requires input.Length0 == output.Length0 <= MAX_SIGNALS && input.Length1 == output.Length1 && input != output
    modifies controls, Nodes(controls.tree), state`count, state.inputs, state.buses, output
    ensures fresh(added) && Usable(controls, old(Nodes(controls.tree)) + added)
    ensures Puts(arrivals, arrived)
    ensures Processed(controls.rank, at, prog, old(Current(controls, state)),
                      arrivals + Plays(Columns(input, input.Length1)),
                      Current(controls, state), Columns(output, output.Length1))
  {
    ghost var rank, s, own := controls.rank, Current(controls, state), Nodes(controls.tree);
    ghost var ns := InsertAll(arrived, controls);
    added := Nodes(controls.tree) - own;
    StillSettable(s.heap, controls.tree, arrived);
    arrivals := Arrivals(ns, arrived);
    ghost var start := Current(controls, state);
    ProcessFrames(controls, at, state, prog, input, output);
    ArrivalsAreProcessed(rank, at, prog, s, ns, arrived, start);
    ArrivalsThenFrames(rank, at, prog, s, arrivals, start, Plays(Columns(input, input.Length1)),
                       Current(controls, state), Columns(output, output.Length1));
  }

  // ----- One callback after the other -----

  /** One callback: the actions that have arrived since the last one, and a block of frames. */
  datatype Callback = Callback(arrivals: seq<Event>, frames: seq<Frame>) {
    function Events(): seq<Event> { arrivals + Plays(frames) }
  }

  /** The first callbacks with the actions `arrived` and the frames `blocks`. */
  ghost predicate Callbacks(bs: seq<Callback>, arrived: seq<seq<Entry>>, blocks: seq<seq<Frame>>) {
    && |bs| <= |arrived| && |bs| <= |blocks|
    && forall b :: 0 <= b < |bs| ==> Puts(bs[b].arrivals, arrived[b]) && bs[b].frames == blocks[b]
  }

  /** What happens in callbacks one after the other. */
  function Session(bs: seq<Callback>): seq<Event> {
    if bs == [] then [] else Session(bs[..|bs| - 1]) + bs[|bs| - 1].Events()
  }

  lemma {:induction false} NoFramesArrive(es: seq<Event>)
    requires forall i :: 0 <= i < |es| ==> es[i].Arrive?
    ensures Frames(es) == []
    decreases |es|
  {
    if es != [] { NoFramesArrive(es[..|es| - 1]); }
  }

  lemma FramesOfCallback(cb: Callback)
    requires forall i :: 0 <= i < |cb.arrivals| ==> cb.arrivals[i].Arrive?
    ensures Frames(cb.Events()) == cb.frames
  {
    FramesOfBoth(cb.arrivals, Plays(cb.frames));
    NoFramesArrive(cb.arrivals);
    FramesOfPlays(cb.frames);
    assert [] + cb.frames == cb.frames;
  }

  /** All frames have `n` values. */
  ghost predicate Wide(blocks: seq<seq<Frame>>, n: nat) {
    forall b :: 0 <= b < |blocks| ==> forall i :: 0 <= i < |blocks[b]| ==> |blocks[b][i]| == n
  }

  lemma {:induction false} JoinedWidth(blocks: seq<seq<Frame>>, n: nat)
    requires Wide(blocks, n)
    ensures forall k :: 0 <= k < |Joined(blocks)| ==> |Joined(blocks)[k]| == n
    decreases |blocks|
  {
    if blocks != [] { JoinedWidth(blocks[..|blocks| - 1], n); }
  }

  lemma {:induction false} FramesOfSession(bs: seq<Callback>, arrived: seq<seq<Entry>>, blocks: seq<seq<Frame>>)
    requires Callbacks(bs, arrived, blocks) && |bs| == |arrived| == |blocks|
    ensures Frames(Session(bs)) == Joined(blocks)
    decreases |bs|
  {
    if bs != [] {
      var k := |bs| - 1;
      FramesOfSession(bs[..k], arrived[..k], blocks[..k]);
      FramesOfBoth(Session(bs[..k]), bs[k].Events());
      FramesOfCallback(bs[k]);
    }
  }

  // ----- What arrives with the blocks -----

  /** How often `e` arrives with the blocks to be performed at sample `k`: it comes before the frames of its block. */
  ghost function WithBlocks(at: Entry -> int, arrived: seq<seq<Entry>>, blocks: seq<seq<Frame>>, e: Entry, k: nat): nat
    requires |arrived| == |blocks|
  {
    if arrived == [] then 0
    else
      var b := |arrived| - 1;
      WithBlocks(at, arrived[..b], blocks[..b], e, k) +
      if Turn(at, e, |Joined(blocks[..b])|) == k then multiset(arrived[b])[e] else 0
  }

  lemma OneMoreEvent(at: Entry -> int, es: seq<Event>, last: Event, e: Entry, k: nat)
    ensures Frames(es + [last]) == Frames(es) + if last.Play? then [last.frame] else []
    ensures ForSample(at, es + [last], e, k) ==
      ForSample(at, es, e, k) + if last.Arrive? && last.entry == e && Turn(at, e, |Frames(es)|) == k then 1 else 0
  {
    assert (es + [last])[..|es|] == es;
  }

  lemma OneMoreCopy(xs: seq<Entry>, e: Entry)
    requires xs != []
    ensures multiset(xs)[e] == multiset(xs[..|xs| - 1])[e] + if xs[|xs| - 1] == e then 1 else 0
  {
    assert xs == xs[..|xs| - 1] + [xs[|xs| - 1]];
  }

  lemma {:induction false} ForSampleOfArrivals(at: Entry -> int, es: seq<Event>, fs: seq<Event>, xs: seq<Entry>,
                                               e: Entry, k: nat)
    requires Puts(fs, xs)
    ensures Frames(es + fs) == Frames(es)
    ensures ForSample(at, es + fs, e, k) ==
      ForSample(at, es, e, k) + if Turn(at, e, |Frames(es)|) == k then multiset(xs)[e] else 0
    decreases |fs|
  {
    hide ForSample, Frames, Turn;
    if fs == [] {
      assert es + fs == es && xs == [];
    } else {
      var j := |fs| - 1;
      ForSampleOfArrivals(at, es, fs[..j], xs[..j], e, k);
      OneMoreEvent(at, es + fs[..j], fs[j], e, k);
      OneMoreCopy(xs, e);
      assert es + fs == (es + fs[..j]) + [fs[j]];
    }
  }

  lemma {:induction false} ForSampleOfPlays(at: Entry -> int, es: seq<Event>, fs: seq<Frame>, e: Entry, k: nat)
    ensures ForSample(at, es + Plays(fs), e, k) == ForSample(at, es, e, k)
    decreases |fs|
  {
    hide ForSample, Frames, Turn;
    if fs == [] {
      assert es + Plays(fs) == es;
    } else {
      var j := |fs| - 1;
      ForSampleOfPlays(at, es, fs[..j], e, k);
      OneMoreEvent(at, es + Plays(fs[..j]), Play(fs[j]), e, k);
      assert es + Plays(fs) == (es + Plays(fs[..j])) + [Play(fs[j])];
    }
  }

  lemma OneMoreBlock(at: Entry -> int, es: seq<Event>, cb: Callback, xs: seq<Entry>, e: Entry, k: nat)
    requires Puts(cb.arrivals, xs)
    ensures ForSample(at, es + cb.Events(), e, k) ==
      ForSample(at, es, e, k) + if Turn(at, e, |Frames(es)|) == k then multiset(xs)[e] else 0
  {
    hide ForSample, Frames, Turn, Puts;
    ForSampleOfArrivals(at, es, cb.arrivals, xs, e, k);
    ForSampleOfPlays(at, es + cb.arrivals, cb.frames, e, k);
    assert es + cb.Events() == (es + cb.arrivals) + Plays(cb.frames);
  }

  lemma FirstCallbacks(bs: seq<Callback>, arrived: seq<seq<Entry>>, blocks: seq<seq<Frame>>, b: nat)
    requires Callbacks(bs, arrived, blocks) && |bs| == |arrived| == |blocks| && b < |bs|
    ensures Callbacks(bs[..b], arrived[..b], blocks[..b]) && Puts(bs[b].arrivals, arrived[b])
    ensures bs[b].frames == blocks[b] && (arrived[b] == [] ==> bs[b].arrivals == [])
  {
  }

  /** What arrives with a block is in time for its first frame. */
  lemma {:induction false} SessionTurns(at: Entry -> int, bs: seq<Callback>, arrived: seq<seq<Entry>>,
                                        blocks: seq<seq<Frame>>, e: Entry, k: nat)
    requires Callbacks(bs, arrived, blocks) && |bs| == |arrived| == |blocks|
    ensures ForSample(at, Session(bs), e, k) == WithBlocks(at, arrived, blocks, e, k)
    decreases |bs|
  {
    hide ForSample, Frames, Turn, Puts, Callbacks, Joined;
    if bs != [] {
      var b := |bs| - 1;
      FirstCallbacks(bs, arrived, blocks, b);
      SessionTurns(at, bs[..b], arrived[..b], blocks[..b], e, k);
      FramesOfSession(bs[..b], arrived[..b], blocks[..b]);
      OneMoreBlock(at, Session(bs[..b]), bs[b], arrived[b], e, k);
    } else {
      assert ForSample(at, [], e, k) == 0 by { NothingComes(at, e, k); }
    }
  }

  lemma NothingComes(at: Entry -> int, e: Entry, k: nat)
    ensures ForSample(at, [], e, k) == 0
  {
  }

  lemma PlaysOfBoth(fs: seq<Frame>, gs: seq<Frame>)
    ensures Plays(fs + gs) == Plays(fs) + Plays(gs)
  {
  }

  /** Any division into blocks: when nothing arrives, callbacks on blocks of frames are one callback on all of
      the frames. */
  lemma {:induction false} AnyDivisionIntoBlocks(bs: seq<Callback>, arrived: seq<seq<Entry>>, blocks: seq<seq<Frame>>)
    requires Callbacks(bs, arrived, blocks) && |bs| == |arrived| == |blocks|
    requires forall b :: 0 <= b < |arrived| ==> arrived[b] == []
    ensures Session(bs) == Callback([], Joined(blocks)).Events()
    decreases |bs|
  {
    hide Puts, Callbacks, Session, Joined, Plays;
    if bs == [] {
      NothingPlayed();
    } else {
      var k := |bs| - 1;
      FirstCallbacks(bs, arrived, blocks, k);
      AnyDivisionIntoBlocks(bs[..k], arrived[..k], blocks[..k]);
      PlaysOfBoth(Joined(blocks[..k]), blocks[k]);
      LastCallback(bs, blocks);
    }
  }

  lemma NothingPlayed()
    ensures Session([]) == Callback([], Joined([])).Events()
  {
  }

  lemma LastCallback(bs: seq<Callback>, blocks: seq<seq<Frame>>)
    requires |bs| == |blocks| > 0
    ensures Session(bs) == Session(bs[..|bs| - 1]) + bs[|bs| - 1].Events()
    ensures Joined(blocks) == Joined(blocks[..|bs| - 1]) + blocks[|bs| - 1]
  {
  }

  lemma {:induction false} SessionOnChannels(bs: seq<Callback>, arrived: seq<seq<Entry>>, blocks: seq<seq<Frame>>)
    requires Callbacks(bs, arrived, blocks) && |bs| == |arrived| == |blocks|
    requires forall b :: 0 <= b < |arrived| ==> SetChannels(arrived[b])
    ensures ArriveOnChannels(Session(bs))
    decreases |bs|
  {
    if bs != [] {
      var k := |bs| - 1;
      SessionOnChannels(bs[..k], arrived[..k], blocks[..k]);
      assert SetChannels(arrived[k]);
    }
  }

  ghost predicate Matching(signals: nat, inputs: seq<array2<Sample>>, outputs: seq<array2<Sample>>) {
    && signals <= MAX_SIGNALS && |inputs| == |outputs|
    && (forall b :: 0 <= b < |inputs| ==> inputs[b].Length0 == signals)
    && (forall b :: 0 <= b < |inputs| ==> outputs[b].Length0 == signals && inputs[b].Length1 == outputs[b].Length1)
    && (forall a, b :: 0 <= a < |inputs| && 0 <= b < |outputs| ==> inputs[a] != outputs[b])
    && (forall a, b :: 0 <= a < b < |outputs| ==> outputs[a] != outputs[b])
  }

  /** From `s`, the first callbacks `bs` lead to `s'` and give the outputs `os`. */
  ghost predicate CalledBack(rank: Entry -> real, at: Entry -> int, prog: Program, s: Dsp, arrived: seq<seq<Entry>>,
                             blocks: seq<seq<Frame>>, bs: seq<Callback>, s': Dsp, os: seq<Frame>) {
    Callbacks(bs, arrived, blocks) && Processed(rank, at, prog, s, Session(bs), s', os)
  }

  lemma CallbacksGrow(bs: seq<Callback>, cb: Callback, arrived: seq<seq<Entry>>, blocks: seq<seq<Frame>>)
    requires Callbacks(bs, arrived, blocks) && |bs| < |arrived| && |bs| < |blocks|
    requires Puts(cb.arrivals, arrived[|bs|]) && cb.frames == blocks[|bs|]
    ensures Callbacks(bs + [cb], arrived, blocks)
  {
  }

  lemma SessionGrows(bs: seq<Callback>, cb: Callback)
    ensures Session(bs + [cb]) == Session(bs) + cb.Events()
  {
    assert (bs + [cb])[..|bs|] == bs;
  }

  lemma OneMoreCallback(rank: Entry -> real, at: Entry -> int, prog: Program, s: Dsp, arrived: seq<seq<Entry>>,
                        blocks: seq<seq<Frame>>, bs: seq<Callback>, s1: Dsp, os: seq<Frame>, cb: Callback, s2: Dsp,
                        os': seq<Frame>)
    requires CalledBack(rank, at, prog, s, arrived, blocks, bs, s1, os) && |bs| < |arrived| && |bs| < |blocks|
    requires Puts(cb.arrivals, arrived[|bs|]) && cb.frames == blocks[|bs|]
    requires Processed(rank, at, prog, s1, cb.Events(), s2, os')
    ensures CalledBack(rank, at, prog, s, arrived, blocks, bs + [cb], s2, os + os')
  {
    CallbacksGrow(bs, cb, arrived, blocks);
    SessionGrows(bs, cb);
    BlocksJoin(rank, at, prog, s, Session(bs), s1, os, cb.Events(), s2, os');
  }

  ghost function BlocksOf(arrays: seq<array2<Sample>>): (blocks: seq<seq<Frame>>)
    requires forall b :: 0 <= b < |arrays| ==> arrays[b].Length0 <= MAX_SIGNALS
    reads arrays
    ensures |blocks| == |arrays|
    ensures forall b :: 0 <= b < |arrays| ==> blocks[b] == Columns(arrays[b], arrays[b].Length1)
  {
    seq(|arrays|, b requires 0 <= b < |arrays| reads arrays => Columns(arrays[b], arrays[b].Length1))
  }

  lemma BlocksAreWide(arrays: seq<array2<Sample>>, n: nat)
    requires n <= MAX_SIGNALS && forall b :: 0 <= b < |arrays| ==> arrays[b].Length0 == n
    ensures Wide(BlocksOf(arrays), n)
  {
  }

  lemma OneMoreOutput(arrays: seq<array2<Sample>>, b: nat)
    requires b < |arrays| && forall a :: 0 <= a < |arrays| ==> arrays[a].Length0 <= MAX_SIGNALS
    ensures Joined(BlocksOf(arrays[..b + 1])) == Joined(BlocksOf(arrays[..b])) + Columns(arrays[b], arrays[b].Length1)
  {
    var before, last := BlocksOf(arrays[..b]), Columns(arrays[b], arrays[b].Length1);
    JoinedOne(before, last);
    assert BlocksOf(arrays[..b + 1]) == before + [last];
  }

  /** One callback more: from `s` on, the actions `arrived` and the frames `blocks` up to block `b`, where the
      output arrays hold the outputs. */
  method CallBack(signals: nat, arrived: seq<seq<Entry>>, controls: PriorityQueue<Entry>, at: Entry -> int,
                  state: State, prog: Program, inputs: seq<array2<Sample>>, outputs: seq<array2<Sample>>, b: nat,
                  ghost s: Dsp, ghost blocks: seq<seq<Frame>>, ghost bs: seq<Callback>)
    returns (ghost cb: Callback, ghost added: set<Node<Entry>>)
    requires Usable(controls, Nodes(controls.tree)) && state.Valid()
    requires Matching(signals, inputs, outputs) && blocks == BlocksOf(inputs) && |bs| == b < |arrived| == |inputs|
    requires forall i :: 0 <= i < |arrived[b]| ==> Settable(arrived[b][i].action)
    requires CalledBack(controls.rank, at, prog, s, arrived, blocks, bs, Current(controls, state),
                        Joined(BlocksOf(outputs[..b])))
    modifies controls, Nodes(controls.tree), state`count, state.inputs, state.buses, outputs[b]
    ensures fresh(added) && Usable(controls, old(Nodes(controls.tree)) + added)
    ensures blocks == BlocksOf(inputs)
    ensures CalledBack(controls.rank, at, prog, s, arrived, blocks, bs + [cb], Current(controls, state),
                       Joined(BlocksOf(outputs[..b + 1])))
  {
    ghost var rank, s1, before := controls.rank, Current(controls, state), BlocksOf(outputs[..b]);
    ghost var arrivals;
    arrivals, added := DuringProcessing(arrived[b], controls, at, state, prog, inputs[b], outputs[b]);
    cb := Callback(arrivals, blocks[b]);
    assert BlocksOf(outputs[..b]) == before;
    OneMoreOutput(outputs, b);
    OneMoreCallback(rank, at, prog, s, arrived, blocks, bs, s1, Joined(before), cb, Current(controls, state),
                    Columns(outputs[b], outputs[b].Length1));
  }

  lemma NothingCalled(rank: Entry -> real, at: Entry -> int, prog: Program, s: Dsp, arrived: seq<seq<Entry>>,
                      blocks: seq<seq<Frame>>, arrays: seq<array2<Sample>>)
    ensures CalledBack(rank, at, prog, s, arrived, blocks, [], s, Joined(BlocksOf(arrays[..0])))
  {
  }

  /** The host calls back once for each block; `bs` is what happens, and `played` what the output arrays hold
      in the end. */
  method RunCallbacks(signals: nat, arrived: seq<seq<Entry>>, controls: PriorityQueue<Entry>, at: Entry -> int,
                      state: State, prog: Program, inputs: seq<array2<Sample>>, outputs: seq<array2<Sample>>)
    returns (ghost bs: seq<Callback>, ghost played: seq<Frame>)
    requires Usable(controls, Nodes(controls.tree)) && state.Valid()
    requires Matching(signals, inputs, outputs) && |arrived| == |inputs|
    requires forall b, i :: 0 <= b < |arrived| && 0 <= i < |arrived[b]| ==> Settable(arrived[b][i].action)
    modifies controls, Nodes(controls.tree), state`count, state.inputs, state.buses, outputs
    ensures Usable(controls, Nodes(controls.tree))
    ensures |bs| == |inputs| && Callbacks(bs, arrived, old(BlocksOf(inputs)))
    ensures Processed(controls.rank, at, prog, old(Current(controls, state)), Session(bs),
                      Current(controls, state), played)
    ensures played == Joined(BlocksOf(outputs))
  {
    hide Processed, Puts, Session, Joined;
    ghost var s, blocks, own := Current(controls, state), BlocksOf(inputs), Nodes(controls.tree);
    bs := [];
    NothingCalled(controls.rank, at, prog, s, arrived, blocks, outputs);
    for b := 0 to |inputs|
      invariant Usable(controls, own) && forall o :: o in own ==> o in old(Nodes(controls.tree)) || fresh(o)
      invariant |bs| == b && blocks == BlocksOf(inputs)
      invariant CalledBack(controls.rank, at, prog, s, arrived, blocks, bs, Current(controls, state),
                           Joined(BlocksOf(outputs[..b])))
    {
      ghost var cb, added :=
        CallBack(signals, arrived, controls, at, state, prog, inputs, outputs, b, s, blocks, bs);
      own, bs := own + added, bs + [cb];
    }
    assert outputs[..|inputs|] == outputs;
    played := Joined(BlocksOf(outputs));
  }

  /** Block-size independence: when nothing arrives, the callbacks leave the outputs, the heap and the state of
      one callback on all the frames. */
  method RunDivided(signals: nat, controls: PriorityQueue<Entry>, at: Entry -> int, state: State, prog: Program,
                    inputs: seq<array2<Sample>>, outputs: seq<array2<Sample>>)
    returns (ghost played: seq<Frame>)
    requires Usable(controls, Nodes(controls.tree)) && state.Valid() && Matching(signals, inputs, outputs)
    modifies controls, Nodes(controls.tree), state`count, state.inputs, state.buses, outputs
    ensures Usable(controls, Nodes(controls.tree))
    ensures Processed(controls.rank, at, prog, old(Current(controls, state)),
                      Callback([], Joined(old(BlocksOf(inputs)))).Events(), Current(controls, state), played)
    ensures played == Joined(BlocksOf(outputs))
  {
    ghost var blocks := BlocksOf(inputs);
    var nothing := seq(|inputs|, _ => []);
    ghost var bs;
    bs, played := RunCallbacks(signals, nothing, controls, at, state, prog, inputs, outputs);
    AnyDivisionIntoBlocks(bs, nothing, blocks);
  }

  // ----- A stream from beginning to end -----

  /** The state and the program a stream begins with. */
  method BeforeProcessing(signals: seq<Signal>) returns (state: State, prog: Program)
    requires Playable(signals) && StreamFits(Shipped, signals)
    ensures fresh(state) && state.Valid() && fresh(state.inputs) && fresh(state.buses) && state.Now() == Zeroed()
    ensures prog == Simplify(Shipped, INIT_PART, Merged(signals))
  {
    state := new State();
    var merged := MergeOutputs(signals);
    MergedRuns(Shipped, signals);
    prog := Simplify(Shipped, INIT_PART, merged);
  }

  /** The frames `played` hold the values of the signals, which hear the frames of `es` on their input channels. */
  ghost predicate PlaysSignals(signals: seq<Signal>, prog: Program, es: seq<Event>, played: seq<Frame>) {
    && |played| == |Frames(es)|
    && var inp := Carried(Rank, Index, prog, Leaf, es);
       forall k, c: nat :: 0 <= k < |played| && c < |signals| ==>
         && |played[k]| == |Frames(es)[k]| == |signals|
         && played[k][c] == Den(signals[c], [], inp, k)
         && inp(INPUT_OFFSET + c, k) == Frames(es)[k][c]
  }

  lemma EventsAreHeard(signals: seq<Signal>, prog: Program, es: seq<Event>)
    requires Playable(signals) && StreamFits(Shipped, signals) && prog == Simplify(Shipped, INIT_PART, Merged(signals))
    requires ArriveOnChannels(es) && forall k :: 0 <= k < |Frames(es)| ==> |Frames(es)[k]| == |signals|
    ensures PlaysSignals(signals, prog, es,
                         Outputs(Next(Rank, Index, prog), Out(Rank, Index, prog), Dsp(Leaf, Zeroed()), es))
  {
    var played := Outputs(Next(Rank, Index, prog), Out(Rank, Index, prog), Dsp(Leaf, Zeroed()), es);
    EventsAreStreamed(Rank, Index, prog, Leaf, es);
    forall k, c: nat | 0 <= k < |played| && c < |signals|
      ensures |played[k]| == |Frames(es)[k]| == |signals|
      ensures played[k][c] == Den(signals[c], [], Carried(Rank, Index, prog, Leaf, es), k)
      ensures Carried(Rank, Index, prog, Leaf, es)(INPUT_OFFSET + c, k) == Frames(es)[k][c]
    {
      StreamsPlayTheirSignals(Rank, Index, Shipped, signals, Leaf, es, k, c);
    }
  }

  /** A signal that writes no channel at all writes no channel `c`. */
  lemma {:induction false} SilentSpares(s: Signal, bound: nat, ins: set<int>, c: int)
    requires Supported(s, bound, ins, {})
    ensures Spares(s, c)
  {
    match s
    case Loop(b) => SilentSpares(b, bound + 1, ins, c);
    case Delay(_, a) => SilentSpares(a, bound, ins, c);
    case Lift(_, a) => SilentSpares(a, bound, ins, c);
    case Lift2(_, a, b) =>
      SilentSpares(a, bound, ins, c);
      SilentSpares(b, bound, ins, c);
    case _ =>
  }

  lemma {:induction false} MergedSpares(signals: seq<Signal>, c: int)
    requires Playable(signals) && OUTPUT_OFFSET + |signals| <= c
    ensures Spares(Merged(signals), c)
  {
    if signals != [] {
      var last := |signals| - 1;
      MergedSpares(signals[..last], c);
      SilentSpares(signals[last], 0, INS, c);
    }
  }

  ghost predicate HearsLatest(prog: Program, es: seq<Event>, c: int, k: nat) {
    exists latest ::
      IsLatest(Rank, Comes(Index, es), c, k, latest) && Carried(Rank, Index, prog, Leaf, es)(c, k) == Value(latest)
  }

  /** On every channel above its inputs, a stream hears the value of a latest action that has come for it, or 0. */
  ghost predicate HearsControls(signals: seq<Signal>, prog: Program, es: seq<Event>) {
    forall c, k: nat :: INPUT_OFFSET + |signals| <= c < MAX_INPUTS && k < |Frames(es)| ==>
      HearsLatest(prog, es, c, k)
  }

  lemma {:induction false} FramesAreInputs(es: seq<Event>, n: nat, c: int)
    requires INPUT_OFFSET + n <= c && forall k :: 0 <= k < |Frames(es)| ==> |Frames(es)[k]| == n
    ensures NoInputOn(c, es)
    decreases |es|
  {
    if es != [] {
      var init, last := es[..|es| - 1], es[|es| - 1];
      assert forall k :: 0 <= k < |Frames(init)| ==> Frames(init)[k] == Frames(es)[k];
      FramesAreInputs(init, n, c);
      if last.Play? { assert Frames(es)[|Frames(init)|] == last.frame; }
    }
  }

  lemma ControlsAreHeard(signals: seq<Signal>, prog: Program, es: seq<Event>)
    requires Playable(signals) && prog == Simplify(Shipped, INIT_PART, Merged(signals))
    requires forall k :: 0 <= k < |Frames(es)| ==> |Frames(es)[k]| == |signals|
    ensures HearsControls(signals, prog, es)
  {
    TimesAreOrdered();
    forall c, k: nat | INPUT_OFFSET + |signals| <= c < MAX_INPUTS && k < |Frames(es)|
      ensures HearsLatest(prog, es, c, k)
    {
      MergedSpares(signals, c);
      CompiledSpares(Shipped, INIT_PART, Merged(signals), c);
      FramesAreInputs(es, |signals|, c);
      var latest := StreamControlsAreStepFunctions(Rank, Index, prog, es, c, k);
    }
  }

  /** What a stream plays, and what its signals hear. */
  ghost predicate StreamPlays(signals: seq<Signal>, es: seq<Event>, played: seq<Frame>) {
    var prog := Simplify(Shipped, INIT_PART, Merged(signals));
    Runnable(prog) && PlaysSignals(signals, prog, es, played) && HearsControls(signals, prog, es)
  }

  lemma SessionIsHeard(signals: seq<Signal>, prog: Program, bs: seq<Callback>, arrived: seq<seq<Entry>>,
                       blocks: seq<seq<Frame>>, played: seq<Frame>)
    requires Playable(signals) && StreamFits(Shipped, signals) && prog == Simplify(Shipped, INIT_PART, Merged(signals))
    requires Callbacks(bs, arrived, blocks) && |bs| == |arrived| == |blocks|
    requires forall b :: 0 <= b < |arrived| ==> SetChannels(arrived[b])
    requires Wide(blocks, |signals|)
    requires played == Outputs(Next(Rank, Index, prog), Out(Rank, Index, prog), Dsp(Leaf, Zeroed()), Session(bs))
    ensures StreamPlays(signals, Session(bs), played) && Frames(Session(bs)) == Joined(blocks)
    ensures forall e, k :: ForSample(Index, Session(bs), e, k) == WithBlocks(Index, arrived, blocks, e, k)
  {
    forall e, k ensures ForSample(Index, Session(bs), e, k) == WithBlocks(Index, arrived, blocks, e, k) {
      SessionTurns(Index, bs, arrived, blocks, e, k);
    }
    FramesOfSession(bs, arrived, blocks);
    SessionOnChannels(bs, arrived, blocks);
    JoinedWidth(blocks, |signals|);
    EventsAreHeard(signals, prog, Session(bs));
    ControlsAreHeard(signals, prog, Session(bs));
  }

  /** What a stream plays from its beginning: `bs` is all that happens to it, in order, and `played` what the
      output arrays hold in the end.  Its actions are performed as they come with the blocks. */
  method PlayStream(signals: seq<Signal>, arrived: seq<seq<Entry>>, inputs: seq<array2<Sample>>,
                    outputs: seq<array2<Sample>>)
    returns (ghost bs: seq<Callback>, ghost played: seq<Frame>)
    requires Playable(signals) && StreamFits(Shipped, signals)
    requires Matching(|signals|, inputs, outputs) && |arrived| == |inputs|
    requires forall b :: 0 <= b < |arrived| ==> SetChannels(arrived[b])
    modifies outputs
    ensures |bs| == |inputs| && Callbacks(bs, arrived, old(BlocksOf(inputs)))
    ensures Frames(Session(bs)) == Joined(old(BlocksOf(inputs)))
    ensures forall e, k ::
              ForSample(Index, Session(bs), e, k) == WithBlocks(Index, arrived, old(BlocksOf(inputs)), e, k)
    ensures StreamPlays(signals, Session(bs), played)
    ensures played == Joined(BlocksOf(outputs))
  {
    ghost var blocks := BlocksOf(inputs);
    BlocksAreWide(inputs, |signals|);
    TimesAreOrdered();
    var controls := new PriorityQueue<Entry>(Before, Rank);
    var state, prog := BeforeProcessing(signals);
    assert BlocksOf(inputs) == blocks;
    bs, played := RunCallbacks(|signals|, arrived, controls, Index, state, prog, inputs, outputs);
    SessionIsHeard(signals, prog, bs, arrived, blocks, played);
  }
}
