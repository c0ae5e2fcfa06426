# Faudio: a verified model of its core

Faudio is a C library for describing audio signals and running them in real time.  This project models
its core in Dafny and proves what that core is for.

* **Signals** (`Signals`, `Compiler`, `Stepper`, `Correctness`, `Allocation`, `SplitAgreement`, `Derived`).  A
  signal is a term over time, constants, lifted functions, delays, feedback loops and channels.  `simplify` compiles
  it to a program that only reads and writes numbered buses, and `step` runs that program one sample at a time over
  a ring memory.  The main results are compiler correctness, that every step of every run returns what the
  header of the library says the signal means, nested feedback loops included; and exactly which signals are
  given buses that exist and are not shared, which is all that compiler correctness needs.  `Derived` says in
  numbers what signals such as counters, echoes and comb filters mean, and what the limits are.
* **Scheduling** (`Ratios`, `Times`, `PriorityQueue`, `Schedule`, `Simultaneous`, `Scheduler`, `Controls`).  Timed
  actions wait in an in-place skew heap ordered by exact rational times, and a per-sample loop drains it.  The main
  results are that every action is performed once and in order, and on time, by 44100 samples a second; in which
  order actions for one time are performed; that controlled channels are step functions of the actions; and that
  the heap meets its amortised bound.
* **Streams** (`Streams`, `Blocks`, `Audio`).  The signals of a stream are merged into one program, and the host
  calls back for one block of frames after the other, while actions keep arriving.  The main results are that
  every output channel carries its own signal at every sample, for exactly the streams whose buses fit; that
  actions which arrive while a stream plays are each performed once, and when; and that the division into
  blocks makes no difference.
* **Lock-free structures** (`AtomicQueue`, `AtomicStack`).  Every access to shared memory is one step of a
  state machine, and the allocator may hand out freed addresses again.  The main results are linearizability
  and safe reclamation for every interleaving of one writer and one reader, that every call ends, and what a read
  returns and with which of its steps.
* **Shared lists** (`RefCounts`, `Lists`, `MergeSort`).  Lists share immutable nodes with one reference count
  each.  The main results are that the counts are right after every operation, that an operation touches no
  other list, that destroying a list frees exactly what no other list leads to, and that sorting sorts.
* **JSON** (`Json`, `Numerals`, `Glyphs`, `Grammar`, `Language`, `RoundTrip`, `Parser`).  A grammar says in which ways
  a value can be written, with any escapes, numerals and spaces.  The main results are that a text is read as a value
  if and only if it begins with a way to write that value within the parser's limits, and that printed lists are
  read back as they were.  The parser's cursor, its unescaping in place and its growing arrays and objects are
  proved against the same specification.

Code that works step by step in C is imperative here: `Stepper.State`, `PriorityQueues.PriorityQueue`,
`Ratios.Ratio`, `Lists.ListHeap`, `Parser.Cursor`, `Parser.JsonArray` and `Parser.JsonObject` are classes, and
the loops of the runner, the stream callback, the list operations and the parser are loops.  Each is proved
against a function of the old state, and the lemmas are about that function.  Samples are reals, functions that
are lifted are arbitrary, and allocation may return any address that is not in use.  `Basics` has what the
other modules share.

## What the code does differently from what it says

* `split_part` starts its right half at `p->d` (shared/signal.c:528).  That divides the parent in two exactly
  when its offset is 0 (`Compiler.ShippedSplitsIff`); a right half that starts at `p->o + p->d` always does
  (`Compiler.InsideSplits`).  Both forms are in the model as a parameter, and compiler correctness needs only
  that the buses exist and none is allocated twice.  For the second form that is so exactly when the signal
  does not reach over more than 64 buses (`Allocation.InsideAllocatesIff`).  With the shipped form every second
  operand of a binary node below L others starts at bus 2^L, whatever lies above it, and no bus is shared
  exactly when, at each depth, at most one second operand has a loop or delay that unary nodes and first
  operands lead to, and no bus of such an operand is met on that way from the root
  (`Allocation.ShippedIsDistinctIff`).  The ordinary feedback filter is such a signal
  (`Allocation.FeedbackFilterFits`), and compiler correctness holds for it.  `Correctness.ShippedMiscompiles`
  gives one that is not: a loop around two delays, well within every limit, for which the compiled program
  returns 2 at a sample where the signal means 1.  To fit is exactly to be allocated soundly; for the right
  outputs it is enough but not always needed: `Allocation.SharedInVainIsCorrect` gives signals that share a bus
  and are computed rightly all the same, since a loop there never reads the value that is overwritten.
* Merging doubles the distance between the buses of a signal with every signal that comes after it.  Of seven
  signals the first, and of eight (the most a stream may have) the first two, cannot have any loop or delay:
  the first of their buses would be the 65th or a later one, and the program writes behind its bus memory
  (`Streams.EarlySignalsOverflow`).  `Streams.StreamFitsIff` says which streams fit.
* Actions for one time are not performed in the order in which they were scheduled.  When they are put into an empty
  heap one after the other, the first is performed first, then the last, and so on back to the second
  (`Simultaneous.FirstThenReversed`); of those that set one channel the second one given has the last word
  (`Controls.SecondHasTheLastWord`).
* The notes of shared/atomic/stack.c call it a FIFO and say that all allocation and freeing is done in the
  writer thread; it is a LIFO, and its reader frees.  A push that has to be tried again loses the node it had
  allocated (`AtomicStack.ANodeIsLost` gives such a run), so `fa_atomic_stack_destroy` leaves over as many nodes
  as pushes were tried again.
* The notes of shared/atomic/queue.c do hold: only its writer allocates and frees.
* `fa_list_drop` of a negative number gives the empty list, not the whole (shared/list.c:417-419).
  `merge` and `fa_list_reverse` never destroy some of the lists they make on the way.  A sort leaves nothing
  over if and only if its argument ascends strictly (`MergeSort.LeavesNothingIff`); two elements of which the
  first is not smaller leave two lists (`MergeSort.PairLeavesTwo`), and `MergeSort.SortLeaks` counts them.
  Sorting turns the order of equal elements around (`MergeSort.SortReversesEqual`).
* `get_processed_string` reports a string whose closing quote is the last character of the text as malformed
  (shared/string/parson.c:432-436, `Json.StringAtEnd`).  That cannot show through `json_parse_string`, where the
  text has to be a list or an object and no string comes last (`Json.QuotedAtEnd`).
* A zero with an exponent and no fraction, such as "0e5", is a number of JSON and is refused
  (shared/string/parson.c:146, `Numerals.NumeralIsRead`).  Beyond JSON, the parser takes vertical tabs and form feeds
  for spaces, and numbers such as "1.", "-.5", "-inf" and "-nan(1)"; `Grammar` has all of these.
* A string ends at an escaped null character (`Glyphs.WholeIffNoNull`).
* The name of a member is read without a look at the character it begins with (shared/string/parson.c:589).  So a
  comma before a closing brace makes a name of the brace and what follows it: `{"a":1,}b":2}` is read as an object
  with the members a and b (`Language.BraceOpensName`).
* A minus behind which `strtod` finds no number is read as zero without being skipped, for `is_decimal` accepts
  nothing as a numeral.  So the cursor does not always advance: it rests exactly there, be it at the end of the
  text or in "-." or "-ix" (`Json.RestsIff`, `Json.MinusIsZero`).  As an element of an array such a text is
  malformed (`Json.NoRestInArray`).

## Model

| member | source | states |
|---|---|---|
| Signals.Causal | include/fa/signal.h:54-128 | a signal's value at a sample depends on its channels and free variables up to that sample only |
| Signals.HistoryIsPast | include/fa/signal.h:115-122 | what a loop's function hears at each earlier sample is the loop's own value there |
| Signals.LoopLaw | include/fa/signal.h:115-122 | a loop is its function applied to its own value one sample earlier, and to 0 at the start |
| Compiler.SubstKeepsBuses | shared/signal.c:557-570 | which buses are allocated does not depend on the channel a loop's function is applied to |
| Compiler.CompiledTouchesItsBuses | shared/signal.c:553-658 | a compiled program touches exactly the buses it was allocated and those its source names itself |
| Compiler.InsideSplits | shared/signal.c:524-530 | with the right half starting at o + d the two halves are disjoint and together are the parent |
| Compiler.ShippedSplitsIff | shared/signal.c:524-530 | the shipped halves divide the parent in two if and only if the parent starts at bus 0 |
| Compiler.RunStaysInPart | shared/signal.c:518-523 | the bus taken and what remains are disjoint parts of the partition |
| Compiler.BusesStayInPart | shared/signal.c:553-658 | everything allocated for a signal comes from its partition |
| Compiler.AllocatedBusesAreDistinct | shared/signal.c:509-658 | with the dividing split no bus is handed out twice while a signal is compiled |
| Compiler.BusBoundIn | shared/signal.c:509-658 | every bus allocated from a partition is below its K * 2^L-th element |
| Compiler.BusBound | shared/signal.c:509-658 | compiling uses only buses below K * 2^L, with K loops and delays and L binary nodes on a path, whichever split is used |
| Stepper.State.constructor | shared/signal.c:700-716 | a new state is silent and at sample 0 |
| Stepper.State.ReadSamp | shared/signal.c:748-752 | channels are read from the inputs, negative ones from the current slot of their bus |
| Stepper.State.WriteSamp | shared/signal.c:754-763 | channels are written at once, buses n samples ahead in their ring, and nothing else changes |
| Stepper.State.Step | shared/signal.c:885-939 | the value and the whole new memory of a step are those of the program's evaluation |
| Stepper.State.IncState | shared/signal.c:766-769 | only the sample counter moves |
| Correctness.WriteBusCell | shared/signal.c:775-806 | a write changes one slot of one bus, and every index is inside the array |
| Correctness.DelayLine | shared/signal.c:795-806 | what is written n samples ahead is what is read n samples later, for delays from 1 to the size of the ring |
| Correctness.StepCorrect | shared/signal.c:553-658 | one step of a compiled signal returns its meaning, keeps its delay lines filled and touches nothing else |
| Correctness.StepLoop | shared/signal.c:557-570 | the same for a loop, whose bus carries its own last value into its function |
| Correctness.StepDelay | shared/signal.c:572-585 | the same for a delay, which reads its bus before it writes it |
| Correctness.StepLift2 | shared/signal.c:630-644 | the same for a binary node, whose halves leave each other's buses alone |
| Correctness.RunInvariant | shared/signal.c:944-975 | before every sample of every run, each delay line holds its signal's past values |
| Correctness.CompilerCorrect | shared/signal.c:553-939 | at every sample of every run from silence, stepping the compiled signal returns what the signal denotes |
| Correctness.CompiledRuns | shared/signal.c:885-939 | a compiled signal never reaches a case that step does not handle, nor a channel that does not exist |
| Correctness.FittingSignalsAllocate | shared/signal.c:509-536 | with the dividing split, K * 2^L <= 64 is enough for the buses to be distinct and to exist |
| Correctness.ShippedSharesABus | shared/signal.c:524-530 | the shipped split gives one bus to two delays of one loop |
| Correctness.TwoTapsFit | shared/signal.c:524-530 | such a loop is supported and needs two buses on a path with one binary node |
| Correctness.TwoTapsMeans | include/fa/signal.h:115-130 | what that loop means at sample 1 |
| Correctness.ShippedMiscompiles | shared/signal.c:524-530 | what the shipped compiler makes it return there instead |
| Allocation.SpineAscends | shared/signal.c:518-530 | the buses met through unary nodes and first operands ascend inside their partition |
| Allocation.RightPartsApart | shared/signal.c:524-530 | second operands at different depths have no bus in common under the shipped split |
| Allocation.ShippedCount | shared/signal.c:553-658 | the shipped compiler hands out each bus as often as it is on the spine of the signal and on those of its second operands |
| Allocation.ShippedIsDistinctIff | shared/signal.c:509-658 | the shipped compiler hands out no bus twice if and only if at most one second operand at each depth has buses on its spine and the spine of the signal has none of these |
| Allocation.ShippedInRangeIff | shared/signal.c:509-658 | all shipped buses exist if and only if the reach of every spine is within the 64 buses |
| Allocation.ShippedAllocatesIff | shared/signal.c:509-658 | both together: exactly when the shipped allocation is sound |
| Allocation.InsideAllocatesIff | shared/signal.c:509-658 | the dividing split is sound if and only if the signal reaches over at most 64 buses |
| Allocation.CompiledRunsIff | shared/signal.c:775-939 | a compiled signal stays inside the bus memory if and only if all of its buses exist |
| Allocation.FittingSignalsAreCorrect | shared/signal.c:553-939 | every signal that fits, with either split, runs and returns its meaning at every sample of every run |
| Allocation.FeedbackFilterFits | shared/signal.c:553-585 | a loop around a binary node with a delay as its second operand fits the shipped split |
| Allocation.SharedInVainIsCorrect | shared/signal.c:524-585 | signals that do not fit the shipped split, since two buses are one, and still return their meaning at every sample of every run |
| SplitAgreement.ShippedAgreesIff | shared/signal.c:524-658 | the shipped split hands out the same buses as the dividing one if and only if the signal is spread |
| SplitAgreement.SameProgramIffSameBuses | shared/signal.c:553-658 | two ways of compiling a signal give one program if and only if they hand out the same buses |
| SplitAgreement.ShippedProgramIsIntendedIff | shared/signal.c:509-658 | the shipped compiler compiles a signal as intended if and only if no binary node away from bus 0 has a loop or delay in its second operand |
| SplitAgreement.SpreadSignalsAllocate | shared/signal.c:509-658 | for such signals the shipped buses are sound, and the program runs, if and only if the signal does not reach over more buses than there are |
| SplitAgreement.SpreadIsUnshared | shared/signal.c:509-536 | such signals are among those whose shipped buses are not shared |
| Derived.ArithmeticMeans | shared/signal.c:1010-1132 | sums, differences, products and the two choices of two signals |
| Derived.ImpulseMeans | shared/signal.c:1031-1038 | one at the first sample and nothing ever after |
| Derived.CounterMeans | shared/signal.c:1045-1052 | the loop that counts means the number of the sample |
| Derived.ImpulsesMean | shared/signal.c:1054-1063 | one at every n-th sample |
| Derived.LineMeans | shared/signal.c:1066-1070 | it goes up by x turns in 44100 samples |
| Derived.CombMeans | shared/signal.c:553-585 | a comb filter meets its recurrence |
| Derived.CounterCounts | shared/signal.c:1045-1052 | the compiled counter counts in every run |
| Derived.EchoEchoes | shared/signal.c:572-585 | a compiled echo puts out in every run what was on its channel up to five seconds earlier |
| Derived.OutputIsLeft | shared/signal.c:754-763 | in every run a signal that goes to a channel is on it at once, whatever its delay |
| Derived.ChannelsAreLimited | shared/signal.c:695-698 | there are 128 channels and 64 buses |
| Derived.DelaysAreLimited | shared/signal.c:695-698 | delays are up to five seconds of 44100 samples |
| Derived.ChainsAreLimited | shared/signal.c:695-698 | delays one after the other fit if and only if there are at most 64 |
| Ratios.GcdDivides | shared/ratio.c:148-160 | gcd divides both numbers |
| Ratios.GcdIsGreatest | shared/ratio.c:148-160 | every common divisor divides it |
| Ratios.ComputeGcd | shared/ratio.c:148-160 | the loop ends with the greatest common divisor of the absolute values |
| Ratios.NormalizedIsNormal | shared/ratio.c:162-175 | normalizing gives a coprime pair with positive denominator that stands for the same rational |
| Ratios.NormalFormIsUnique | shared/ratio.c:162-175 | there is only one such pair for a rational |
| Ratios.Ratio.constructor | shared/ratio.c:45-54 | a new ratio is in normal form |
| Ratios.Ratio.NormalizeMutable | shared/ratio.c:162-175 | the two fields become the normal form of what they were |
| Ratios.SumIsExact | shared/ratio.c:88-106 | sums and differences are those of the rationals, in normal form |
| Ratios.ProductIsExact | shared/ratio.c:108-126 | products and quotients are those of the rationals, in normal form |
| Ratios.ComparisonIsExact | shared/ratio.c:213-250 | the three comparisons are those of the rationals |
| Ratios.SmallOperandsFit | shared/ratio.c:88-116 | with components up to 32767 nothing overflows 32 bits |
| Times.CreatedTimeIsTheSum | shared/time.c:43-48 | a time created from fields is their exact sum, in normal form |
| Times.TimeRecombines | shared/time.c:63-109 | under truncating division the fields of any time add up to it exactly and have its sign |
| Times.MillisecondsAreExact | shared/time.c:111-127 | milliseconds are 1000 times the time, truncated |
| Times.MillisecondsFit | shared/time.c:119-127 | every intermediate sum fits 32 bits when the result does |
| Times.SampleIndexIsMonotone | shared/signal.c:869 | a later time never gets an earlier sample |
| Times.SampleIndexIsNear | shared/signal.c:869 | the sample of a time is 44100 times its seconds, less than a millisecond and a sample short of it towards zero; exactly that, truncated, if the milliseconds are whole |
| Times.SecondsAreSamples | shared/signal.c:869 | whole second s has sample 44100 * s |
| Times.AtMostIsTotalPreorder | shared/pair/left.c:91-110 | the order of the heap is total and transitive |
| PriorityQueues.MergeNodes | shared/priority_queue.c:91-112 | merging keeps exactly the nodes of both heaps |
| PriorityQueues.MergeCopies | shared/priority_queue.c:91-112 | and exactly their values, as often as they were there |
| PriorityQueues.MergeKeepsOrder | shared/priority_queue.c:91-112 | merging keeps heap order |
| PriorityQueues.RootIsMinimum | shared/priority_queue.c:125-129 | the top is a minimum |
| PriorityQueues.InsertAddsOne | shared/priority_queue.c:120-123 | inserting adds one copy of the value and keeps order |
| PriorityQueues.PopTakesAMinimum | shared/priority_queue.c:131-143 | popping takes out one copy of a minimum and keeps order |
| PriorityQueues.InsertKeepsTop | shared/priority_queue.c:99-123 | a value goes to the top only if it is before what is there |
| PriorityQueues.PopPrefersLeft | shared/priority_queue.c:99-143 | what is below the top comes next, of equal ones the left |
| PriorityQueues.MergeAmortised | shared/priority_queue.c:91-112 | the calls of a merge plus the growth of the potential are bounded by the two light paths |
| PriorityQueues.RunAmortised | shared/priority_queue.c:120-143 | the bound for a run from any heap, with what its potential pays for |
| PriorityQueues.AmortisedBound | shared/priority_queue.c:120-143 | m inserts and pops from empty make at most 4 * m * log2(m + 1) calls of into |
| Basics.Log2IsRoundedDown | shared/priority_queue.c:120-143 | the logarithm in that bound |
| PriorityQueues.InPlaceInto | shared/priority_queue.c:91-97 | overwriting the children in place gives the tree that into specifies, over the same nodes |
| PriorityQueues.InPlaceMerge | shared/priority_queue.c:99-112 | the same for merge, which ends, shares nothing and makes the counted number of calls |
| PriorityQueues.PriorityQueue.constructor | shared/priority_queue.c:72-75 | a new queue is empty |
| PriorityQueues.PriorityQueue.Insert | shared/priority_queue.c:120-123 | the queue is the merge of what it was with one new node |
| PriorityQueues.PriorityQueue.Peek | shared/priority_queue.c:125-129 | the top, or nothing |
| PriorityQueues.PriorityQueue.Pop | shared/priority_queue.c:131-143 | returns the top and merges its children; nothing leads to the deleted node any more |
| Schedule.DrainTakesTheDue | shared/signal.c:857-878 | one drain takes every copy of every due action and leaves all others |
| Schedule.DrainIsSorted | shared/signal.c:857-878 | in order of time |
| Schedule.HeapAtHoldsTheRest | shared/signal.c:944-975 | before each sample the heap holds exactly what is due from then on |
| Schedule.EachAtItsSample | shared/signal.c:944-975 | over a whole run each action is taken at max(0, its sample index), as often as it was scheduled and at no other sample, and the later ones are still in the heap |
| Schedule.RunIsSorted | shared/signal.c:944-975 | over a whole run actions are taken in nondecreasing order of time |
| Simultaneous.FirstThenReversed | shared/priority_queue.c:91-143 | values of one rank that were put in one after the other are taken in the order: the first, the last, and so on back to the second |
| Scheduler.TimesAreOrdered | shared/signal.c:869-871 | rational times and their sample indices meet what scheduling needs |
| Scheduler.ControlsActOnTime | shared/signal.c:857-878 | whatever is taken is taken at a sample that is on time, and a control for second s at sample 44100 * s, as often as it was given |
| Scheduler.Perform | shared/signal.c:837-855 | an action that sets writes its channel at once; the others change nothing here |
| Scheduler.RunActions | shared/signal.c:857-878 | the loop leaves the heap and the state as the drain says |
| Scheduler.RunSamples | shared/signal.c:944-975 | every output is that of the program on the memory its sample's actions leave, and the heap and the state are those after the last sample |
| Scheduler.SignalRun | shared/signal.c:944-975 | the same for the whole run, from an empty state and a heap of exactly the given controls, each of which acts on time, and those that are all for one time the first one first and then the last one back to the second, with the heap that is left |
| Controls.OutputsAreTheDenotation | shared/signal.c:944-975 | every output of a run is the signal's meaning on the channels as the actions set them |
| Controls.HeardIsLastSet | shared/signal.c:837-878 | a channel holds the value of the last action performed on it |
| Controls.SecondHasTheLastWord | shared/signal.c:857-878 | of actions for one time that set one channel, the second one given has the last word |
| Controls.LogHoldsTheDue | shared/signal.c:857-878 | the actions performed before a sample are those due before it |
| Controls.ControlsAreStepFunctions | shared/signal.c:837-878 | a channel nothing else writes holds, at every sample, the value of a latest action whose sample has come, or 0 |
| Controls.CompiledSpares | shared/signal.c:553-658 | compiling adds no output to a channel |
| Controls.SignalControlsAreStepFunctions | shared/signal.c:837-975 | so a signal that does not write a channel hears that step function on it, in every run of the library's compiled form with times as priorities |
| Controls.RunSignal | shared/signal.c:944-975 | from the given controls to the outputs: for every signal that fits, each output is its meaning on the channels as those controls set them, and a control for second s acts where the signal for time is s |
| Streams.MergeOutputs | shared/audio.c:577-586 | the loop builds the merged signal |
| Streams.StreamsAreLimited | shared/audio.c:417-418 | a stream has at most eight signals, which read the channels from the eighth to the 127th |
| Streams.MergedIsSupported | shared/audio.c:577-598 | the merged signal is one the compiler theorem covers |
| Streams.MergedBusIff | shared/audio.c:577-586 | merging compiles signal j of n from every 2^(n-j)-th bus, beginning at bus 2^(n-1-j), with either split |
| Streams.StreamFitsIff | shared/audio.c:577-598 | a stream has sound buses if and only if the reach of each signal, at its place in the stream, is within the 64 buses, and with the shipped split no two second operands at one depth have buses on their spines |
| Streams.EarlySignalsOverflow | shared/audio.c:577-598 | a stream does not fit, and its program leaves the bus memory, if a signal with a loop or delay comes six or more places before the last |
| Streams.EachOutputIsItsSignal | shared/audio.c:577-636 | in every stream that fits, after every step of every run each output channel holds the meaning of its signal |
| Audio.EventsAreStreamed | shared/audio.c:606-639 | whatever arrives between frames, the memories a stream runs its program on form a run of it, with the inputs on their channels and the outputs put out |
| Audio.StreamsPlayTheirSignals | shared/audio.c:606-639 | output c of frame k is the meaning of signal c at sample k on the inputs, whenever actions arrive |
| Audio.ArrivalsRunOnTime | shared/audio.c:606-639 | every action that arrives is performed once, at its sample or at the first one after its arrival, and the heap holds those still to come |
| Audio.StreamControlsAreStepFunctions | shared/audio.c:606-639 | in a stream, whenever actions arrive, a channel without input or output holds at every sample the value of a latest action that has come for it, or 0 |
| Audio.ControlsAreHeard | shared/audio.c:577-639 | so that is what the signals of a stream hear on every channel behind its inputs |
| Audio.ProcessFrame | shared/audio.c:614-636 | one turn of the sample loop: actions, inputs, step, outputs, count |
| Audio.ProcessFrames | shared/audio.c:614-636 | the loop over a block leaves the outputs of its frames in the output array, and the state after them |
| Audio.DuringProcessing | shared/audio.c:606-639 | the same after the arrived actions have been put into the heap one after the other, and the next callback can follow |
| Audio.FramesOfSession | shared/audio.c:606-639 | the frames of callbacks one after the other are the joined blocks |
| Audio.SessionTurns | shared/audio.c:606-612 | what arrives with a block is in time for its first frame: each action is performed at its sample, or at that frame if it is late |
| Audio.AnyDivisionIntoBlocks | shared/audio.c:606-639 | when nothing arrives, what happens in callbacks on the blocks is what happens in one callback on the joined blocks |
| Audio.CallBack | shared/audio.c:644-652 | one callback more: the output arrays so far hold what the events so far put out |
| Audio.RunCallbacks | shared/audio.c:644-652 | after callbacks one after the other the output arrays, joined, hold the outputs of all that happened in them, in order, and the heap and the state are those after it |
| Audio.RunDivided | shared/audio.c:644-652 | when nothing arrives, the output arrays, joined, hold what one callback on all frames puts out, and the heap and the state are those it leaves |
| Audio.BeforeProcessing | shared/audio.c:577-598 | a stream that fits begins with a silent state and the compiled form of its merged signals |
| Audio.PlayStream | shared/audio.c:577-639 | from its beginning, whatever arrives before each block, a stream that fits leaves in its output arrays the meaning of each signal at each sample, on the inputs and on controls that are step functions of the actions, which come with their blocks |
| AtomicQueue.FirstMovesOn | shared/atomic/queue.c:84-87 | forwarding first takes one node off the front of the chain and leaves the contents |
| AtomicQueue.LastMovesOn | shared/atomic/queue.c:139-142 | forwarding last links the new node and adds the value of the node before it |
| AtomicQueue.DivMovesOn | shared/atomic/queue.c:152-155 | forwarding div takes the oldest value out of the contents |
| AtomicQueue.StepKeepsInv | shared/atomic/queue.c:131-157 | every step of either thread keeps the invariant |
| AtomicQueue.SafeReclamation | shared/atomic/queue.c:84-157 | in every reachable state nothing was used after it was freed or freed twice, every exchange has succeeded, first, div and last lie in order on one chain, and that chain and at most one private node are all that is allocated |
| AtomicQueue.ValuesComeOutInOrder | shared/atomic/queue.c:131-157 | what was returned is a prefix of what was taken, that of what was put in, and that of what was passed to write |
| AtomicQueue.StepIsFifo | shared/atomic/queue.c:131-157 | every step does to the contents what its linearization point says; null is returned only when the queue is empty as last is read |
| AtomicQueue.Linearizable | shared/atomic/queue.c:13-157 | every interleaving of one writer and one reader is linearizable to a FIFO |
| AtomicQueue.EachReadHasOnePoint | shared/atomic/queue.c:144-157 | reads return what their linearization points decided, null included, in order; every read that has begun has ended once, but for one in progress |
| AtomicQueue.ReadOfValues | shared/atomic/queue.c:144-157 | in every reachable state, a read of a queue that is not empty returns what is first in it, with its ninth step, whatever the writer does meanwhile |
| AtomicQueue.ReadOfNothing | shared/atomic/queue.c:144-157 | and of an empty queue null, with its second step, if nothing is put in meanwhile |
| AtomicQueue.WritesEnd | shared/atomic/queue.c:131-142 | in every reachable state, a write ends within eleven steps and eight for each node before div and each value taken out meanwhile |
| AtomicQueue.WritesFree | shared/atomic/queue.c:84-142 | when a write has ended, a node has been freed for each value taken out before it began |
| AtomicQueue.Destroy | shared/atomic/queue.c:89-126 | destroying the queue frees every node, and none twice |
| AtomicStack.ReaderPops | shared/atomic/stack.c:127-142 | a pop that succeeds takes the top node off and installs the second one |
| AtomicStack.StepFollows | shared/atomic/stack.c:115-142 | every step keeps the invariant and does to the contents what its linearization point says |
| AtomicStack.Linearizable | shared/atomic/stack.c:13-142 | every interleaving of one writer and one reader is linearizable to a LIFO, although addresses come back |
| AtomicStack.EachReadHasOnePoint | shared/atomic/stack.c:127-142 | reads return what their linearization points decided, null included, in order; every read that has begun has ended once, but for one in progress |
| AtomicStack.ReadOfTop | shared/atomic/stack.c:127-142 | in every reachable state, a read returns null if it finds the stack empty, and otherwise, if nothing is pushed before its exchange, the value it found on the top, with its sixth step |
| AtomicStack.ReadsEnd | shared/atomic/stack.c:127-142 | a read ends within six steps and three for each value pushed meanwhile |
| AtomicStack.WritesEnd | shared/atomic/stack.c:115-125 | a write ends within three steps and three for each value popped meanwhile |
| AtomicStack.NoAba | shared/atomic/stack.c:127-142 | in every reachable state, a pop that succeeds makes the current second node the top |
| AtomicStack.SafeReclamation | shared/atomic/stack.c:115-142 | nothing is used after it is freed or freed twice, what lies under a node is live or null, and every allocated node is on the stack, held by a thread, or lost in a push that was tried again |
| AtomicStack.CallsDoWhatTheySay | shared/atomic/stack.c:115-142 | writes put on their arguments, reads return what they took off, and no thread tries again more often than the other succeeds |
| AtomicStack.LostInRetries | shared/atomic/stack.c:115-125 | in every reachable state as many nodes are lost as pushes have been tried again |
| AtomicStack.ANodeIsLost | shared/atomic/stack.c:115-142 | a run that loses a node |
| AtomicStack.Destroy | shared/atomic/stack.c:96-110 | everything on the stack is freed once, and what stays is one node for each push that was tried again, so nothing if and only if none was |
| RefCounts.TakeIsConsistent | shared/list.c:59-66 | taking a reference keeps the counts right |
| RefCounts.NewNodeIsConsistent | shared/list.c:48-55 | a new node takes over one reference and is one |
| RefCounts.NewListIsConsistent | shared/list.c:87-93 | a new list takes over one reference |
| RefCounts.DropIsConsistent | shared/list.c:71-81 | giving up a reference keeps them right, where the last one passes on the node's own |
| RefCounts.FreeIsConsistent | shared/list.c:80-82 | a node nobody refers to can be freed |
| RefCounts.AttachIsConsistent | shared/list.c:146-150 | appending in place changes the list being built and nothing else |
| RefCounts.CountIsListsPlusNodes | shared/list.c:15-27 | between calls the count of a node is the number of lists that begin with it plus the number of nodes before it |
| RefCounts.AllocatedIffReached | shared/list.c:15-27 | between calls a node is allocated if and only if some list leads to it |
| RefCounts.RemainingIsReached | shared/list.c:71-83 | what is left after releasing is what the remaining lists led to before |
| Lists.ListHeap.constructor | shared/list.c:36-39 | the heap before any list is made |
| Lists.ListHeap.TakeNode | shared/list.c:59-66 | one reference more to the node, and every list as before |
| Lists.ListHeap.NewNode | shared/list.c:48-55 | the elements from the new node on are the value and those from the next node on |
| Lists.ListHeap.ReleaseNode | shared/list.c:71-83 | the recursion gives up one reference, frees what became unreachable and leaves every list as it was |
| Lists.ListHeap.NewList | shared/list.c:87-93 | one list more, with the elements from its node on |
| Lists.ListHeap.Empty | shared/list.c:160-163 | one list more, without elements, and all others as before |
| Lists.ListHeap.Single | shared/list.c:165-168 | one list more, with one element, and all others as before |
| Lists.ListHeap.Copy | shared/list.c:170-173 | one list more, with the same elements, and all others as before |
| Lists.ListHeap.Cons | shared/list.c:175-178 | one list more, with the value in front, and all others as before |
| Lists.ListHeap.DCons | shared/list.c:180-185 | the same, with the argument used up |
| Lists.ListHeap.Destroy | shared/list.c:187-191 | one list less, and all others as before |
| Lists.ListHeap.DestroyAtRest | shared/list.c:187-191 | the nodes left are exactly those the other lists led to |
| Lists.ListHeap.Tail | shared/list.c:225-232 | one list more, without the first element, and all others as before |
| Lists.ListHeap.Length | shared/list.c:203-211 | the number of elements |
| Lists.ListHeap.Last | shared/list.c:249-257 | the last element |
| Lists.ListHeap.Append | shared/list.c:276-286 | one list more, the two joined, and all others as before: the intermediate lists are gone |
| Lists.ListHeap.RevAppend | shared/list.c:288-300 | the same for the first one reversed |
| Lists.ListHeap.Reverse | shared/list.c:307-310 | the list reversed, and one empty list left over |
| Lists.ListHeap.Take | shared/list.c:406-413 | the first elements, and all other lists as before |
| Lists.ListHeap.Drop | shared/list.c:415-426 | the elements after the first, or none for a negative number, and all other lists as before |
| Lists.TakenAndDropped | shared/list.c:406-426 | what is taken and what is dropped by the same number are the list, and both are empty for a negative number |
| Basics.ReversedFromTheEnd | shared/list.c:288-310 | the reversed list has the same elements, counted from the end |
| Lists.ListHeap.AppendNode | shared/list.c:146-150 | the list being built gets one element more, and no other list changes |
| Lists.ListHeap.EndNode | shared/list.c:331-340 | what was built becomes a list |
| Lists.ListHeap.Merge | shared/list.c:312-340 | the two lists merged, which like every other list keep their elements, and one list left over for each head that was moved and one for what was built |
| Lists.ListHeap.DMergeSort | shared/list.c:351-375 | the argument is used up, the result is what the recursion specifies, and so is the number of lists left over |
| Lists.ListHeap.Sort | shared/list.c:377-380 | a sorted permutation of the argument, which like every other list keeps its elements, and the number of lists left over |
| MergeSort.MergedIsSorted | shared/list.c:312-340 | merging sorted lists gives a sorted list |
| MergeSort.SortIsSorted | shared/list.c:351-375 | sorting gives a sorted list, by the shortcut for halves in order as well |
| MergeSort.SortIsPermutation | shared/list.c:351-375 | with the same elements |
| MergeSort.SortReversesEqual | shared/list.c:312-375 | sorting turns the order of equal elements around |
| MergeSort.SortLeaksBound | shared/list.c:351-375 | a sort of n elements leaves at most n * log2 n lists over, for it halves them |
| MergeSort.LeavesNothingIff | shared/list.c:351-375 | a sort leaves no list over if and only if its argument ascends strictly |
| MergeSort.PairLeavesTwo | shared/list.c:351-375 | two elements out of order, or equal, leave two lists over |
| Json.ParseValue | shared/string/parson.c:527-568 | the cursor never goes back, stays inside the text, and rests at a minus only |
| Json.WhatIsReadIsWithinLimits | shared/string/parson.c:179-288 | whatever the text, what is read is a list or an object, nothing in it lies inside more than 19 others, no object has two members of one name or more than 960, and no list has more than 122880 elements |
| Json.RestsIff | shared/string/parson.c:716-730 | the cursor stays where it is if and only if it is at a minus behind which no number begins, whose value is 0 |
| Json.NoRestInArray | shared/string/parson.c:653-686 | an array with such an element is malformed |
| Json.MinusIsZero | shared/string/parson.c:716-730 | the texts "-", "-." and "-ix" are such |
| Json.StringAtEnd | shared/string/parson.c:427-436 | a string that ends where the text does is malformed, even with its closing quote |
| Json.QuotedAtEnd | shared/string/parson.c:774-781 | such a string, the same one with text behind it, and both as whole texts |
| Numerals.NumeralIsRead | shared/string/parson.c:716-730 | every numeral, with sign, fraction and exponent, is read as the number it stands for and up to its end, unless it is a zero with an exponent and no fraction, which is refused |
| Numerals.AcceptedIff | shared/string/parson.c:144-162 | those are the numerals that the test for decimals refuses |
| Numerals.SpecialIsRead | shared/string/parson.c:716-730 | behind a minus, infinities and NaNs are read, in letters of any case, unless there is an x in the word behind a NaN |
| Glyphs.LetterIsRead | shared/string/parson.c:444-475 | a backslash and a letter stand for the character with the code of the standard |
| Glyphs.HexIsRead | shared/string/parson.c:479-500 | four hexadecimal digits, in either case, are read as the number they were made from |
| Glyphs.EscapedCharacterIsDecoded | shared/string/parson.c:479-500 | the bytes written for an escaped character are its UTF-8 form |
| Glyphs.GlyphsAreUnescaped | shared/string/parson.c:444-518 | unescaping undoes every way to write a string, and refuses control characters that are not escaped |
| Glyphs.QuoteIsFound | shared/string/parson.c:401-422 | the closing quote is found behind every way to write a string |
| Glyphs.WholeIffNoNull | shared/string/parson.c:515-524 | a string is read whole if and only if no null character is written in it |
| Grammar.ElementsAreRead | shared/string/parson.c:636-687 | the elements of a list are read in order, with any spaces, if there are not too many and each is within the limits, and otherwise none is |
| Grammar.MembersAreRead | shared/string/parson.c:570-634 | the same for the members of an object, whose names have to be distinct |
| Grammar.ValueIsRead | shared/string/parson.c:527-568 | every way to write a value is read as that value and up to its end, if and only if the limits allow it |
| Grammar.TextIsRead | shared/string/parson.c:774-781 | so every text that begins with a list or an object is read as that list or object, or not at all if it is beyond the limits |
| Grammar.DepthIsLimited | shared/string/parson.c:527-531 | twenty brackets one inside the other are read, and twenty-one are not |
| Grammar.LengthIsLimited | shared/string/parson.c:271-288 | a list whose elements can be read is read if and only if there are at most 122880 |
| Grammar.MembersAreLimited | shared/string/parson.c:179-209 | an object whose members can be read is read if and only if there are at most 960 and no two have one name |
| Language.GlyphsLie | shared/string/parson.c:427-525 | what is unescaped was written as glyphs |
| Language.NumeralWasWritten | shared/string/parson.c:716-730 | a number that is read is a numeral of the grammar |
| Language.ItemsWereWritten | shared/string/parson.c:636-687 | what is read as a list are elements with commas between them and spaces around them, and nothing else |
| Language.MembersWereWritten | shared/string/parson.c:570-634 | the same for objects |
| Language.ReadIffWritten | shared/string/parson.c:527-781 | a text is read as a value if and only if it begins with a way to write that value within the limits |
| Language.Unambiguous | shared/string/parson.c:527-781 | no text is a way to write two values |
| Language.BraceOpensName | shared/string/parson.c:588-622 | a comma before a closing brace makes a name of the brace and what follows it |
| RoundTrip.ShownIsWritten | shared/string.c:464-481 | what the library prints is one of the ways to write the value, and within the limits if and only if the value is |
| RoundTrip.WrittenIsRead | shared/string.c:340-420 | every text is made into the value it stands for, with an empty list for each null |
| RoundTrip.JsonRoundTrip | shared/string.c:401-420 | a printed list is read back as the same list if nothing lies inside more than 19 lists, no list has more than 122880 elements and no string has control characters, and not at all otherwise |
| Parser.JsonArray.Add | shared/string/parson.c:271-288 | an element is added while there are fewer than 122880, by doubling the capacity |
| Parser.JsonArray.Resize | shared/string/parson.c:290-298 | the elements stay |
| Parser.JsonObject.HasName | shared/string/parson.c:225-242 | the loop finds a name if and only if the object has a member of that name |
| Parser.JsonObject.Add | shared/string/parson.c:179-209 | a member is added if and only if its name is new and there are fewer than 960, by doubling the capacity |
| Parser.UnescapeInPlace | shared/string/parson.c:444-518 | unescaping in place, where writing never overtakes reading, gives what the specification says |
| Parser.Cursor.SkipString | shared/string/parson.c:401-422 | the cursor goes behind the closing quote |
| Parser.Cursor.GetProcessedString | shared/string/parson.c:427-525 | the string and the cursor are as specified |
| Parser.Cursor.IsDecimalHere | shared/string/parson.c:144-161 | the loop finds hexadecimals and zeros before other digits |
| Parser.Cursor.ParseNumberHere | shared/string/parson.c:716-730 | the number and the cursor are as specified, fractions, exponents, infinities and NaNs included |
| Parser.Cursor.ParseValueHere | shared/string/parson.c:527-568 | the value and the cursor are as specified, and the recursion ends |
| Parser.Cursor.ParseItemsHere | shared/string/parson.c:653-686 | the loop over the items, with its growing array, reads what is specified |
| Parser.Cursor.ParseMembersHere | shared/string/parson.c:588-633 | the loop over the members, with its growing object, reads what is specified |
| Parser.ParseString | shared/string/parson.c:774-781 | a text is parsed as specified |

## Left out

- Devices, sessions, clocks, threads, logging, plotting, files, MIDI and its dispatch loop.
- Floating point: samples are reals, conversions in time code are exact, and rounding plays no part.
- `random`, custom processors and `insert`; a Send action goes to custom processors only, and an Accum action has no effect in the code either.
- Delays of 0, negative delays, and overflow of the sample counter: delays are from 1 to the size of the ring.
- A loop's function is a term with a bound variable rather than a C function; the term the code builds by calling it is built by substitution.
- Times.MillisecondsFit: assumes the total fits 32 bits, as the code does.
- Ratios.SmallOperandsFit: says nothing of larger components, whose products can wrap around in the code.
- Scheduler.SignalRun: assumes that actions set channels that exist, which the code does not check.
- Audio.RunCallbacks: the loop over callbacks is the host's, which is not part of this repository; blocks and arrivals are given.
- Scheduler.Perform: leaves out what a Send action does to custom processors.
- Audio.DuringProcessing: takes the actions that have arrived as a sequence; that they come out of the queue in order is a result about `AtomicQueue`.
- `fa_priority_queue_destroy`, which frees the root only, and `fa_ratio_absolute`, which negates.
- Weak memory and running out of memory: atomic accesses are sequentially consistent and allocation succeeds.
- Where C leaves the order of evaluation of two accesses open, the queue and the stack take the one that is written first.
- AtomicStack.Linearizable: holds for one writer and one reader, as the notes of the code require.
- AtomicQueue.Linearizable: holds for one writer and one reader, as the notes of the code require.
- The other operations on lists, such as map, filter and index, and sets, maps, graphs and buffers.
- Lists.ListHeap.DAppend: requires two different lists, since the code destroys both.
- Lists.ListHeap.Merge: says how many intermediate lists are left over, but not what is in them.
- Boxed values: list elements are values of any type with a rank that `fa_less_than` compares.
- Parser.Cursor.ParseNumberHere: numbers are exact; how `strtod` rounds them to doubles, or makes one that is too large infinite, is left out.
- Json.WhatIsReadIsWithinLimits: is about what the parser returns; the map that the library makes of an object, which rests on a comparison of strings, and the conversion of numbers to its own number types are left out.
- Transcoding: text is a sequence of bytes in UTF-8, and the conversion to and from 16-bit units is left out.
- The regular expressions of shared/string/trex.c.
