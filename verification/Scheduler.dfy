/** `run_actions` and `fa_signal_run` of shared/signal.c: timed actions are drained from the heap
    sample by sample, and each sample is computed by the compiled program.
 */
module Scheduler {
  import opened Basics
  import opened Signals
  import opened Compiler
  import opened Stepper
  import opened Times
  import opened Ratios
  import opened PriorityQueues
  import opened Schedule
  import opened Simultaneous

  datatype Action =
    | Set(channel: int, value: Sample)
    | Accum(accumChannel: int, f: Sample -> Sample)
    | Send(name: string)

  /** An action with its time; such pairs are compared by time alone. */
  datatype Entry = Entry(time: Times.Time, action: Action)

  predicate Before(x: Entry, y: Entry) { AtMost(x.time, y.time) }

  ghost function Rank(e: Entry): real { e.time.Value() }

  function Index(e: Entry): int { SampleIndex(e.time) }

  /** The two facts about times that scheduling rests on. */
  lemma TimesAreOrdered()
    ensures Compares(Before, Rank) && Monotone(Rank, Index)
  {
    forall x, y ensures Before(x, y) <==> Rank(x) <= Rank(y) {
      ComparisonIsExact(x.time, y.time);
    }
    forall x, y | Rank(x) <= Rank(y) ensures Index(x) <= Index(y) {
      ComparisonIsExact(x.time, y.time);
      SampleIndexIsMonotone(x.time, y.time);
    }
  }

  // ----- When the actions are due -----

  lemma DueOnTime(e: Entry)
    ensures OnTime(Rank(e), Due(Index, e))
  {
    SampleIndexIsNear(e.time);
    NearIsOnTime(Rank(e), Index(e));
  }

  ghost predicate OnSecond(e: Entry, s: nat) { Rank(e) == s as real }

  /** The sample at which second `s` begins. */
  function SampleOfSecond(s: nat): nat { 44100 * s }

  /** Whatever is taken from the heap is taken on time, and the controls for a whole second when it begins, each as
      often as it was given. */
  ghost predicate ActsOnTime(controls: seq<Entry>, t: Tree<Entry>) {
    && (forall e, k: nat :: e in TakenAt(Rank, Index, t, k) ==> e in controls && OnTime(Rank(e), k))
    && (forall e, s: nat :: e in controls && OnSecond(e, s) ==>
          multiset(TakenAt(Rank, Index, t, SampleOfSecond(s)))[e] == multiset(controls)[e])
  }

  lemma ControlsActOnTime(controls: seq<Entry>, t: Tree<Entry>)
    requires Ordered(Rank, t) && forall e :: Copies(t, e) == multiset(controls)[e]
    ensures ActsOnTime(controls, t)
  {
    TimesAreOrdered();
    forall e, k: nat | e in TakenAt(Rank, Index, t, k) ensures e in controls && OnTime(Rank(e), k) {
      EachAtItsSample(Rank, Index, t, k, e);
      CopiesAreEntries(t, e);
      assert e in multiset(TakenAt(Rank, Index, t, k));
      assert e in multiset(controls);
      DueOnTime(e);
    }
    forall e, s: nat | e in controls && OnSecond(e, s)
      ensures multiset(TakenAt(Rank, Index, t, SampleOfSecond(s)))[e] == multiset(controls)[e]
    {
      SecondsAreSamples(e.time, s);
      EachAtItsSample(Rank, Index, t, SampleOfSecond(s), e);
      CopiesAreEntries(t, e);
    }
  }

  ghost predicate AllAtOnce(controls: seq<Entry>) {
    controls != [] && OneRank(Rank, Rank(controls[0]), controls)
  }

  /** Controls that are all for one time act in the order: the first, and then the others, the last of them first. */
  ghost predicate ActsInReverse(controls: seq<Entry>, t: Tree<Entry>) {
    AllAtOnce(controls) ==>
      TakenAt(Rank, Index, t, Due(Index, controls[0])) == [controls[0]] + Reversed(controls[1..])
  }

  lemma ControlsActInReverse(controls: seq<Entry>, ns: seq<Node<Entry>>)
    requires |ns| == |controls|
    ensures ActsInReverse(controls, Inserted(Rank, Leaf, ns, controls))
  {
    TimesAreOrdered();
    if AllAtOnce(controls) { FirstThenReversed(Rank, Index, ns, controls); }
  }

  // ----- What the actions do -----

  predicate Settable(a: Action) { a.Set? ==> HasChannel(a.channel) }

  /** `Set` writes a channel; `Accum` is ignored and `Send` goes to the custom processors.  There is
      no channel outside the range of `HasChannel`. */
  function RunAction(a: Action, m: Memory): (m': Memory)
    ensures m'.count == m.count
  {
    if a.Set? && HasChannel(a.channel) then m.Write(0, a.channel, a.value) else m
  }

  ghost function RunAll(es: seq<Entry>, m: Memory): (m': Memory)
    ensures m'.count == m.count
  {
    if es == [] then m else RunAll(es[1..], RunAction(es[0].action, m))
  }

  /** The memory before any action of sample `k` has run. */
  ghost function MemBefore(rank: Entry -> real, at: Entry -> int, prog: Program, t: Tree<Entry>, k: nat): (m: Memory)
    ensures m.count == k
    decreases k, 0
  {
    if k == 0 then Zeroed() else StepResult(prog, MemAt(rank, at, prog, t, k - 1)).1.(count := k)
  }

  /** The memory when the program computes sample `k`. */
  ghost function MemAt(rank: Entry -> real, at: Entry -> int, prog: Program, t: Tree<Entry>, k: nat): (m: Memory)
    ensures m.count == k
    decreases k, 1
  {
    RunAll(TakenAt(rank, at, t, k), MemBefore(rank, at, prog, t, k))
  }

  ghost function OutAt(rank: Entry -> real, at: Entry -> int, prog: Program, t: Tree<Entry>, k: nat): Sample
  {
    StepResult(prog, MemAt(rank, at, prog, t, k)).0
  }

  // ----- The loops -----

  ghost predicate AllSettable(t: Tree<Entry>) {
    forall e :: Copies(t, e) > 0 ==> Settable(e.action)
  }

  lemma PopKeepsSettable(rank: Entry -> real, t: Tree<Entry>)
    requires t.Branch? && Ordered(rank, t) && AllSettable(t)
    ensures Settable(t.entry.action) && AllSettable(Apply(rank, PopOp, t))
  {
    assert Copies(t, t.entry) > 0;
    forall e | Copies(Apply(rank, PopOp, t), e) > 0 ensures Settable(e.action) {
      PopTakesAMinimum(rank, t, e);
    }
  }

  /** One turn of the loop. */
  lemma DrainOne(rank: Entry -> real, at: Entry -> int, t: Tree<Entry>, now: nat, m: Memory)
    requires t.Branch? && at(t.entry) <= now
    ensures var rest := Apply(rank, PopOp, t);
            && NodeCount(rest) < NodeCount(t)
            && Left(rank, at, t, now) == Left(rank, at, rest, now)
            && RunAll(Taken(rank, at, t, now), m) == RunAll(Taken(rank, at, rest, now), RunAction(t.entry.action, m))
  {
    PopShrinks(rank, t);
    var tail := Taken(rank, at, Apply(rank, PopOp, t), now);
    assert Taken(rank, at, t, now) == [t.entry] + tail && ([t.entry] + tail)[1..] == tail;
  }

  /** A valid queue of actions that can be performed, all in the nodes `ns`. */
  ghost predicate Usable(queue: PriorityQueue<Entry>, ns: set<Node<Entry>>)
    reads queue, Nodes(queue.tree)
  {
    queue.Valid() && AllSettable(queue.tree) && Nodes(queue.tree) <= ns
  }

  method Perform(action: Action, state: State)
    requires state.Valid() && Settable(action)
    modifies state.inputs, state.buses
    ensures state.Now() == RunAction(action, old(state.Now()))
  {
    if action.Set? {
      state.WriteSamp(0, action.channel, action.value);
    }
  }

  /** Pops and runs the actions that are due; `at` converts an action's time to a sample. */
  method RunActions(controls: PriorityQueue<Entry>, at: Entry -> int, state: State)
    requires Usable(controls, Nodes(controls.tree)) && state.Valid()
    modifies controls, Nodes(controls.tree), state.inputs, state.buses
    ensures Usable(controls, old(Nodes(controls.tree)))
    ensures controls.tree == Left(controls.rank, at, old(controls.tree), state.count)
    ensures state.Now() == RunAll(Taken(controls.rank, at, old(controls.tree), state.count), old(state.Now()))
  {
    ghost var rank, now := controls.rank, state.count;
    ghost var left := Left(rank, at, controls.tree, now);
    ghost var result := RunAll(Taken(rank, at, controls.tree, now), state.Now());
    while true
      invariant Usable(controls, old(Nodes(controls.tree)))
      invariant Left(rank, at, controls.tree, now) == left
      invariant RunAll(Taken(rank, at, controls.tree, now), state.Now()) == result
      decreases NodeCount(controls.tree)
    {
      var x := controls.Peek();
      if x.None? { break; }
      if at(x.value) <= state.count {
        DrainOne(rank, at, controls.tree, now, state.Now());
        PopKeepsSettable(rank, controls.tree);
        NodesAreAllocated(controls.tree);
        Perform(x.value.action, state);
        assert controls.Valid();
        var _, _ := controls.Pop();
      } else {
        break;
      }
    }
  }

  method InsertAll(controls: seq<Entry>, queue: PriorityQueue<Entry>) returns (ghost ns: seq<Node<Entry>>)
    requires queue.Valid()
    modifies queue, Nodes(queue.tree)
    ensures queue.Valid() && fresh(Nodes(queue.tree) - old(Nodes(queue.tree)))
    ensures |ns| == |controls| && queue.tree == Inserted(queue.rank, old(queue.tree), ns, controls)
    ensures forall e :: Copies(queue.tree, e) == Copies(old(queue.tree), e) + multiset(controls)[e]
  {
    ns := [];
    for i := 0 to |controls|
      invariant queue.Valid() && fresh(Nodes(queue.tree) - old(Nodes(queue.tree)))
      invariant |ns| == i && queue.tree == Inserted(queue.rank, old(queue.tree), ns, controls[..i])
    {
      ghost var n, _ := queue.Insert(controls[i]);
      InsertedOneMore(queue.rank, old(queue.tree), ns, n, controls, i);
      ns := ns + [n];
    }
    assert controls[..|controls|] == controls;
    forall e ensures Copies(queue.tree, e) == Copies(old(queue.tree), e) + multiset(controls)[e] {
      InsertedCopies(queue.rank, old(queue.tree), ns, controls, e);
    }
  }

  /** One turn of the sample loop. */
  method RunSample(queue: PriorityQueue<Entry>, at: Entry -> int, state: State, prog: Program) returns (x: Sample)
    requires Usable(queue, Nodes(queue.tree)) && state.Valid()
    modifies queue, Nodes(queue.tree), state`count, state.inputs, state.buses
    ensures Usable(queue, old(Nodes(queue.tree)))
    ensures queue.tree == Left(queue.rank, at, old(queue.tree), old(state.count))
    ensures var m := RunAll(Taken(queue.rank, at, old(queue.tree), old(state.count)), old(state.Now()));
            x == StepResult(prog, m).0 && state.Now() == StepResult(prog, m).1.(count := old(state.count) + 1)
  {
    RunActions(queue, at, state);
    NodesAreAllocated(queue.tree);
    x := state.Step(prog);
    state.IncState();
  }

  method RunSamples(n: nat, queue: PriorityQueue<Entry>, at: Entry -> int, state: State, prog: Program,
                    output: array<Sample>)
    requires Usable(queue, Nodes(queue.tree))
    requires state.Valid() && state.Now() == Zeroed()
    requires n <= output.Length && output != state.inputs && output != state.buses
    modifies queue, Nodes(queue.tree), state`count, state.inputs, state.buses, output
    ensures forall k :: 0 <= k < n ==> output[k] == OutAt(queue.rank, at, prog, old(queue.tree), k)
    ensures Usable(queue, old(Nodes(queue.tree))) && queue.tree == HeapAt(queue.rank, at, old(queue.tree), n)
    ensures state.Now() == MemBefore(queue.rank, at, prog, old(queue.tree), n)
  {
    hide Taken, Left, RunAll, StepResult, Ordered;
    ghost var rank, start := queue.rank, queue.tree;
    for i := 0 to n
      invariant Usable(queue, old(Nodes(queue.tree)))
      invariant queue.tree == HeapAt(rank, at, start, i)
      invariant state.Now() == MemBefore(rank, at, prog, start, i)
      invariant forall k :: 0 <= k < i ==> output[k] == OutAt(rank, at, prog, start, k)
    {
      var x := RunSample(queue, at, state, prog);
      NodesAreAllocated(queue.tree);
      output[i] := x;
    }
  }

  /** The whole of `fa_signal_run`: `start` is the heap the controls were put into, `rest` the heap that the
      run leaves. */
  method SignalRun(n: nat, controls: seq<Entry>, a: Signal, output: array<Sample>)
    returns (ghost start: Tree<Entry>, ghost rest: Tree<Entry>)
    requires n <= output.Length && Runnable(Simplify(Shipped, INIT_PART, a))
    requires forall i :: 0 <= i < |controls| ==> Settable(controls[i].action)
    modifies output
    ensures Ordered(Rank, start) && forall e :: Copies(start, e) == multiset(controls)[e]
    ensures forall k :: 0 <= k < n ==> output[k] == OutAt(Rank, Index, Simplify(Shipped, INIT_PART, a), start, k)
    ensures rest == HeapAt(Rank, Index, start, n)
    ensures ActsOnTime(controls, start) && ActsInReverse(controls, start)
  {
    hide ActsOnTime, ActsInReverse, HeapAt, OutAt, MemBefore;
    TimesAreOrdered();
    var queue := new PriorityQueue<Entry>(Before, Rank);
    ghost var ns := InsertAll(controls, queue);
    start := queue.tree;
    ControlsActInReverse(controls, ns);
    ControlsActOnTime(controls, start);
    NodesAreAllocated(start);
    var state := new State();
    var prog := Simplify(Shipped, INIT_PART, a);
    RunSamples(n, queue, Index, state, prog, output);
    rest := queue.tree;
  }
}
