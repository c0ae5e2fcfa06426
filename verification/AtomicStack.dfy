/** The stack of shared/atomic/stack.c under every interleaving of one writer and one reader.

    Each access to shared memory is one step, and an allocation may return any address that is not in
    use: an address the reader freed may come back while the writer still holds it from before.
 */
module AtomicStack {

  import opened Basics

  type Addr = nat

  type Value = int

  const NULL: Addr := 0

  datatype Cell = Cell(value: Value, next: Addr)

  /** Where the writer is in `fa_atomic_stack_write`. */
  datatype Writer =
    | WIdle
    | WGetTop
    | NewNode(node: Addr)
    | WExchange(node: Addr, node2: Addr)

  /** Where the reader is in `fa_atomic_stack_read`. */
  datatype Reader =
    | RIdle
    | RGetTop
    | Follow(node: Addr)
    | RExchange(node: Addr, next: Addr)
    | GetValue(node: Addr)
    | Delete(node: Addr, value: Value)
    | Return(value: Value)

  /** What the threads share.  `fault` records an access to or a freeing of a node that is not
      allocated. */
  datatype Memory = Memory(heap: map<Addr, Cell>, top: Addr, fault: bool, allocs: nat, frees: nat)

  /** `arg` is the argument of the write in progress. */
  datatype State = State(m: Memory, w: Writer, arg: Value, r: Reader)

  const INIT := State(Memory(map[], NULL, false, 0, 0), WIdle, 0, RIdle)

  /** What happens next: a call begins, or one of the threads takes a step.  `Writes` says which
      address an allocation would get. */
  datatype Label = BeginWrite(v: Value) | Writes(addr: Addr) | BeginRead | Reads

  function Next(s: State, l: Label): State {
    match l
    case BeginWrite(v) => if s.w.WIdle? then s.(w := WGetTop, arg := v) else s
    case Writes(a) => WriterStep(s, a)
    case BeginRead => if s.r.RIdle? then s.(r := RGetTop) else s
    case Reads => ReaderStep(s)
  }

  function Load(m: Memory, a: Addr): Cell { if a in m.heap then m.heap[a] else Cell(0, NULL) }

  function Obtain(m: Memory, a: Addr, c: Cell): Memory { m.(heap := m.heap[a := c], allocs := m.allocs + 1) }

  function Release(m: Memory, a: Addr): Memory {
    m.(heap := m.heap - {a}, frees := m.frees + 1, fault := m.fault || a !in m.heap)
  }

  function Check(m: Memory, ok: bool): Memory { m.(fault := m.fault || !ok) }

  function WriterStep(s: State, addr: Addr): State {
    match s.w
    case WIdle => s
    case WGetTop => s.(w := NewNode(s.m.top))
    case NewNode(node) =>
      if addr == NULL || addr in s.m.heap then s
      else s.(m := Obtain(s.m, addr, Cell(s.arg, node)), w := WExchange(node, addr))
    case WExchange(node, node2) =>
      // a node that could not be exchanged in is lost
      if s.m.top == node then s.(m := s.m.(top := node2), w := WIdle) else s.(w := WGetTop)
  }

  function ReaderStep(s: State): State {
    match s.r
    case RIdle => s
    case RGetTop => s.(r := if s.m.top == NULL then RIdle else Follow(s.m.top))
    case Follow(node) => s.(m := Check(s.m, node in s.m.heap), r := RExchange(node, Load(s.m, node).next))
    case RExchange(node, next) =>
      if s.m.top == node then s.(m := s.m.(top := next), r := GetValue(node)) else s.(r := RGetTop)
    case GetValue(node) => s.(m := Check(s.m, node in s.m.heap), r := Delete(node, Load(s.m, node).value))
    case Delete(node, v) => s.(m := Release(s.m, node), r := Return(v))
    case Return(_) => s.(r := RIdle)
  }

  // ----- The abstract stack -----

  /** Linearization points. */
  datatype Event = Push(v: Value) | Pop(v: Value) | Empty | Silent

  predicate Pushes(s: State, l: Label) { l.Writes? && s.w.WExchange? && s.m.top == s.w.node }

  predicate Pops(s: State, l: Label) { l.Reads? && s.r.RExchange? && s.m.top == s.r.node }

  /** A successful exchange puts a value on or takes one off, and a read that finds no top finds the
      stack empty. */
  function Point(s: State, l: Label): Event {
    if Pushes(s, l) then Push(s.arg)
    else if Pops(s, l) then Pop(Load(s.m, s.r.node).value)
    else if l.Reads? && s.r.RGetTop? && s.m.top == NULL then Empty
    else Silent
  }

  /** One operation of a last-in first-out stack. */
  predicate Lifo(q: seq<Value>, e: Event, q': seq<Value>) {
    match e
    case Push(v) => q' == [v] + q
    case Pop(v) => q == [v] + q'
    case Empty => q == [] && q' == []
    case Silent => q' == q
  }

  /** What has happened so far: the nodes from the top down, the nodes lost in failed pushes, the
      values passed to `write`, put on, taken off and returned, and the exchanges each thread had to
      try again.  No step depends on it. */
  datatype History = History(chain: seq<Addr>, lost: set<Addr>,
                             begun: seq<Value>, pushed: seq<Value>, popped: seq<Value>, returned: seq<Value>,
                             writeRetries: nat, readRetries: nat)

  const START := History([], {}, [], [], [], [], 0, 0)

  function Record(s: State, h: History, l: Label): History {
    match l
    case BeginWrite(v) => if s.w.WIdle? then h.(begun := h.begun + [v]) else h
    case BeginRead => h
    case Writes(_) =>
      if !s.w.WExchange? then h
      else if Pushes(s, l) then h.(chain := [s.w.node2] + h.chain, pushed := h.pushed + [s.arg])
      else h.(lost := h.lost + {s.w.node2}, writeRetries := h.writeRetries + 1)
    case Reads =>
      if Pops(s, l) then
        h.(chain := if h.chain == [] then [] else h.chain[1..], popped := h.popped + [Load(s.m, s.r.node).value])
      else if s.r.RExchange? then h.(readRetries := h.readRetries + 1)
      else if s.r.Return? then h.(returned := h.returned + [s.r.value])
      else h
  }

  // ----- Invariant -----

  /** `chain` is the list of distinct allocated nodes that starts at `a`. */
  ghost predicate Linked(m: Memory, a: Addr, chain: seq<Addr>)
    decreases |chain|
  {
    if chain == [] then a == NULL
    else a == chain[0] && a in m.heap && a !in chain[1..] && Linked(m, Load(m, a).next, chain[1..])
  }

  ghost function Contents(m: Memory, chain: seq<Addr>): seq<Value> {
    if chain == [] then [] else [Load(m, chain[0]).value] + Contents(m, chain[1..])
  }

  /** The node the writer has allocated and not yet put on. */
  ghost function Private(w: Writer): set<Addr> { if w.WExchange? then {w.node2} else {} }

  /** The node the reader has taken off and not yet freed. */
  ghost function Held(r: Reader): set<Addr> { if r.GetValue? || r.Delete? then {r.node} else {} }

  /** The value the reader has taken off and not yet returned. */
  ghost function HeldValue(r: Reader, m: Memory): seq<Value> {
    if r.GetValue? then [Load(m, r.node).value] else if r.Delete? || r.Return? then [r.value] else []
  }

  ghost function Pending(s: State): seq<Value> { if s.w.WIdle? then [] else [s.arg] }

  /** The chain and the nodes in `other` are all that is allocated. */
  ghost predicate Shape(m: Memory, chain: seq<Addr>, other: set<Addr>) {
    && !m.fault && NULL !in m.heap
    && Linked(m, m.top, chain)
    && m.heap.Keys == Elements(chain) + other
    && Elements(chain) !! other
  }

  /** Nodes off the chain are the writer's, the reader's, or lost, and no node is two of these. */
  ghost predicate Accounted(m: Memory, chain: seq<Addr>, own: set<Addr>, held: set<Addr>, lost: set<Addr>) {
    && own !! held && own !! lost && held !! lost
    && Shape(m, chain, own + held + lost)
    && m.allocs == m.frees + |chain| + |own| + |held| + |lost|
  }

  /** The writer's new node has its argument and the top it saw. */
  ghost predicate WriterOk(w: Writer, arg: Value, m: Memory) {
    w.WExchange? ==> Load(m, w.node2) == Cell(arg, w.node)
  }

  /** What the reader took for the top is still on the chain, and still has the successor it saw. */
  ghost predicate ReaderOk(r: Reader, m: Memory, chain: seq<Addr>) {
    match r
    case Follow(node) => node in Elements(chain)
    case RExchange(node, next) => node in Elements(chain) && Load(m, node).next == next
    case _ => true
  }

  ghost predicate InOrder(h: History, pending: seq<Value>, held: seq<Value>) {
    h.begun == h.pushed + pending && h.popped == h.returned + held
  }

  function Stale(holds: bool, node: Addr, top: Addr): nat { if holds && node != top then 1 else 0 }

  /** A thread tries again only when the other has succeeded since it got the top. */
  ghost predicate Progress(s: State, h: History) {
    && h.writeRetries + Stale(s.w.NewNode? || s.w.WExchange?, WriterSaw(s.w), s.m.top) <= |h.popped|
    && h.readRetries + Stale(s.r.Follow? || s.r.RExchange?, ReaderSaw(s.r), s.m.top) <= |h.pushed|
  }

  function WriterSaw(w: Writer): Addr { if w.NewNode? || w.WExchange? then w.node else NULL }

  function ReaderSaw(r: Reader): Addr { if r.Follow? || r.RExchange? then r.node else NULL }


  ghost predicate Inv(s: State, h: History) {
    && Accounted(s.m, h.chain, Private(s.w), Held(s.r), h.lost)
    && WriterOk(s.w, s.arg, s.m) && ReaderOk(s.r, s.m, h.chain)
    && InOrder(h, Pending(s), HeldValue(s.r, s.m))
    && Progress(s, h) && |h.lost| == h.writeRetries
  }

  // ----- Chains -----

  lemma {:induction false} LinkedFrame(m: Memory, m': Memory, a: Addr, chain: seq<Addr>)
    requires Linked(m, a, chain)
    requires forall x :: x in Elements(chain) ==> x in m'.heap && Load(m', x) == Load(m, x)
    ensures Linked(m', a, chain) && Contents(m', chain) == Contents(m, chain)
    decreases |chain|
  {
    if chain != [] {
      assert a in Elements(chain);
      forall x | x in Elements(chain[1..]) ensures x in Elements(chain) {}
      LinkedFrame(m, m', Load(m, a).next, chain[1..]);
    }
  }

  lemma ElementsOfPush(a: Addr, chain: seq<Addr>)
    ensures Elements([a] + chain) == {a} + Elements(chain)
    ensures ([a] + chain)[1..] == chain
  {
  }

  lemma ElementsOfPop(m: Memory, a: Addr, chain: seq<Addr>)
    requires Linked(m, a, chain) && chain != []
    ensures Elements(chain) == {a} + Elements(chain[1..]) && a !in Elements(chain[1..])
  {
    assert chain == [a] + chain[1..];
  }

  // ----- What each change to shared memory does to the chain -----

  lemma NodeIsObtained(m: Memory, a: Addr, c: Cell, chain: seq<Addr>, other: set<Addr>)
    requires Shape(m, chain, other) && a != NULL && a !in m.heap
    ensures Shape(Obtain(m, a, c), chain, {a} + other) && a !in other && a !in Elements(chain)
    ensures Contents(Obtain(m, a, c), chain) == Contents(m, chain)
  {
    var m' := Obtain(m, a, c);
    LinkedFrame(m, m', m.top, chain);
    assert m'.heap.Keys == m.heap.Keys + {a};
  }

  lemma NodeIsReleased(m: Memory, a: Addr, chain: seq<Addr>, other: set<Addr>)
    requires Shape(m, chain, other) && a in other
    ensures Shape(Release(m, a), chain, other - {a})
    ensures Contents(Release(m, a), chain) == Contents(m, chain)
  {
    var m' := Release(m, a);
    LinkedFrame(m, m', m.top, chain);
    assert m'.heap.Keys == m.heap.Keys - {a};
  }

  lemma NodeIsPutOn(m: Memory, a: Addr, chain: seq<Addr>, other: set<Addr>)
    requires Shape(m, chain, other) && a in other && Load(m, a).next == m.top
    ensures Shape(m.(top := a), [a] + chain, other - {a})
    ensures Contents(m.(top := a), [a] + chain) == [Load(m, a).value] + Contents(m, chain)
  {
    var m' := m.(top := a);
    ElementsOfPush(a, chain);
    LinkedFrame(m, m', m.top, chain);
  }

  lemma NodeIsTakenOff(m: Memory, chain: seq<Addr>, other: set<Addr>)
    requires Shape(m, chain, other) && m.top in Elements(chain)
    ensures chain != [] && m.top == chain[0] && m.top !in other
    ensures var m' := m.(top := Load(m, m.top).next);
      && Shape(m', chain[1..], {m.top} + other)
      && Contents(m, chain) == [Load(m, m.top).value] + Contents(m', chain[1..])
  {
    var m' := m.(top := Load(m, m.top).next);
    ElementsOfPop(m, m.top, chain);
    LinkedFrame(m, m', m'.top, chain[1..]);
  }

  // ----- Every step keeps the invariant -----

  lemma WriteBegins(s: State, h: History, v: Value)
    requires Inv(s, h) && s.w.WIdle?
    ensures Inv(s.(w := WGetTop, arg := v), h.(begun := h.begun + [v]))
  {
    var s' := s.(w := WGetTop, arg := v);
    assert Private(s'.w) == Private(s.w) && Pending(s') == [v] && Pending(s) == [];
  }

  lemma ReadBegins(s: State, h: History)
    requires Inv(s, h) && s.r.RIdle?
    ensures Inv(s.(r := RGetTop), h)
  {
    var s' := s.(r := RGetTop);
    assert Held(s'.r) == Held(s.r) && HeldValue(s'.r, s.m) == HeldValue(s.r, s.m);
  }

  lemma WriterGetsTop(s: State, h: History)
    requires Inv(s, h) && s.w.WGetTop?
    ensures Inv(s.(w := NewNode(s.m.top)), h)
  {
    var s' := s.(w := NewNode(s.m.top));
    assert Private(s'.w) == Private(s.w) && Pending(s') == Pending(s);
  }

  lemma AllocationAccounts(m: Memory, a: Addr, c: Cell, chain: seq<Addr>, held: set<Addr>, lost: set<Addr>)
    requires Accounted(m, chain, {}, held, lost) && a != NULL && a !in m.heap
    ensures Accounted(Obtain(m, a, c), chain, {a}, held, lost)
    ensures Contents(Obtain(m, a, c), chain) == Contents(m, chain)
    ensures a !in held && a !in Elements(chain)
  {
    NodeIsObtained(m, a, c, chain, {} + held + lost);
    assert {a} + held + lost == {a} + ({} + held + lost) && |{a}| == 1;
  }

  lemma WriterAllocates(s: State, h: History, node: Addr, a: Addr)
    requires Inv(s, h) && s.w == NewNode(node) && a != NULL && a !in s.m.heap
    ensures Inv(s.(m := Obtain(s.m, a, Cell(s.arg, node)), w := WExchange(node, a)), h)
    ensures Contents(Obtain(s.m, a, Cell(s.arg, node)), h.chain) == Contents(s.m, h.chain)
  {
    var s' := s.(m := Obtain(s.m, a, Cell(s.arg, node)), w := WExchange(node, a));
    assert Private(s'.w) == {a} && Private(s.w) == {} && Pending(s') == Pending(s);
    AllocationAccounts(s.m, a, Cell(s.arg, node), h.chain, Held(s.r), h.lost);
    assert s.r.GetValue? ==> s.r.node in Held(s.r);
    assert HeldValue(s'.r, s'.m) == HeldValue(s.r, s.m);
  }

  lemma PushAccounts(m: Memory, a: Addr, chain: seq<Addr>, held: set<Addr>, lost: set<Addr>)
    requires Accounted(m, chain, {a}, held, lost) && Load(m, a).next == m.top
    ensures Accounted(m.(top := a), [a] + chain, {}, held, lost)
    ensures Contents(m.(top := a), [a] + chain) == [Load(m, a).value] + Contents(m, chain)
  {
    NodeIsPutOn(m, a, chain, {a} + held + lost);
    assert {} + held + lost == {a} + held + lost - {a} && |{a}| == 1;
  }

  lemma PushKeepsOrder(h: History, v: Value, a: Addr, held: seq<Value>)
    requires InOrder(h, [v], held)
    ensures InOrder(h.(chain := [a] + h.chain, pushed := h.pushed + [v]), [], held)
  {
  }

  lemma ReaderSeesPush(r: Reader, m: Memory, a: Addr, chain: seq<Addr>)
    requires ReaderOk(r, m, chain)
    ensures ReaderOk(r, m.(top := a), [a] + chain) && HeldValue(r, m.(top := a)) == HeldValue(r, m)
  {
    ElementsOfPush(a, chain);
  }

  lemma PushProgress(s: State, h: History, a: Addr, v: Value)
    requires Progress(s, h)
    ensures Progress(s.(m := s.m.(top := a), w := WIdle), h.(chain := [a] + h.chain, pushed := h.pushed + [v]))
  {
  }

  lemma WriterPushes(s: State, h: History, a: Addr)
    requires Inv(s, h) && s.w == WExchange(s.m.top, a)
    ensures var s' := s.(m := s.m.(top := a), w := WIdle);
      var h' := h.(chain := [a] + h.chain, pushed := h.pushed + [s.arg]);
      Inv(s', h') && Contents(s'.m, h'.chain) == [s.arg] + Contents(s.m, h.chain)
  {
    assert Private(WIdle) == {} && Private(s.w) == {a};
    PushAccounts(s.m, a, h.chain, Held(s.r), h.lost);
    ReaderSeesPush(s.r, s.m, a, h.chain);
    PushKeepsOrder(h, s.arg, a, HeldValue(s.r, s.m));
    PushProgress(s, h, a, s.arg);
  }

  lemma LossAccounts(m: Memory, a: Addr, chain: seq<Addr>, held: set<Addr>, lost: set<Addr>)
    requires Accounted(m, chain, {a}, held, lost)
    ensures Accounted(m, chain, {}, held, lost + {a}) && |lost + {a}| == |lost| + 1
  {
    assert {a} + held + lost == {} + held + (lost + {a}) && |{a}| == 1;
  }

  lemma WriterLoses(s: State, h: History, node: Addr, a: Addr)
    requires Inv(s, h) && s.w == WExchange(node, a) && s.m.top != node
    ensures Inv(s.(w := WGetTop), h.(lost := h.lost + {a}, writeRetries := h.writeRetries + 1))
  {
    var s' := s.(w := WGetTop);
    assert Private(s'.w) == {} && Private(s.w) == {a} && Pending(s') == Pending(s);
    LossAccounts(s.m, a, h.chain, Held(s.r), h.lost);
  }

  lemma PopAccounts(m: Memory, chain: seq<Addr>, own: set<Addr>, lost: set<Addr>)
    requires Accounted(m, chain, own, {}, lost) && m.top in Elements(chain)
    ensures chain != [] && m.top == chain[0] && m.top !in own
    ensures Load(m, m.top).next == if |chain| > 1 then chain[1] else NULL
    ensures var m' := m.(top := Load(m, m.top).next);
      && Accounted(m', chain[1..], own, {m.top}, lost)
      && Contents(m, chain) == [Load(m, m.top).value] + Contents(m', chain[1..])
  {
    NodeIsTakenOff(m, chain, own + {} + lost);
    assert own + {m.top} + lost == {m.top} + (own + {} + lost) && |{m.top}| == 1;
  }

  lemma PopKeepsOrder(h: History, v: Value, c: seq<Addr>, pending: seq<Value>)
    requires InOrder(h, pending, [])
    ensures InOrder(h.(chain := c, popped := h.popped + [v]), pending, [v])
  {
    assert h.popped == h.returned + [];
  }

  lemma ReaderKnows(s: State, h: History)
    requires ReaderOk(s.r, s.m, h.chain) && s.r.RExchange? && s.m.top == s.r.node
    ensures s.m.top in Elements(h.chain) && s.r.next == Load(s.m, s.m.top).next
    ensures Held(s.r) == {} && HeldValue(s.r, s.m) == []
  {
  }

  lemma PopIsRight(s: State, h: History, node: Addr, m': Memory, c: seq<Addr>, v: Value)
    requires InOrder(h, Pending(s), []) && Progress(s, h) && s.r.RExchange? && WriterOk(s.w, s.arg, m')
    requires Accounted(m', c, Private(s.w), {node}, h.lost) && Load(m', node).value == v
    requires |h.lost| == h.writeRetries
    ensures Inv(s.(m := m', r := GetValue(node)), h.(chain := c, popped := h.popped + [v]))
  {
    var s' := s.(m := m', r := GetValue(node));
    assert Pending(s') == Pending(s) && HeldValue(s'.r, m') == [v] && Held(s'.r) == {node};
    PopKeepsOrder(h, v, c, Pending(s));
  }

  /** The pop that succeeds takes the top node off. */
  lemma TopIsPopped(s: State, h: History)
    requires Inv(s, h) && Held(s.r) == {} && HeldValue(s.r, s.m) == [] && s.r.RExchange? && s.m.top in Elements(h.chain)
    ensures h.chain != []
    ensures var m' := s.m.(top := Load(s.m, s.m.top).next);
      var v := Load(s.m, s.m.top).value;
      var h' := h.(chain := h.chain[1..], popped := h.popped + [v]);
      Inv(s.(m := m', r := GetValue(s.m.top)), h') && Contents(s.m, h.chain) == [v] + Contents(m', h'.chain)
  {
    var m', v := s.m.(top := Load(s.m, s.m.top).next), Load(s.m, s.m.top).value;
    PopAccounts(s.m, h.chain, Private(s.w), h.lost);
    PopIsRight(s, h, s.m.top, m', h.chain[1..], v);
  }

  /** A pop that succeeds makes the second node the top: the exchange cannot be deceived by an address
      that was freed and used again. */
  lemma ReaderPops(s: State, h: History)
    requires Inv(s, h) && s.r.RExchange? && s.m.top == s.r.node
    ensures h.chain != [] && s.m.top == h.chain[0]
    ensures s.r.next == if |h.chain| > 1 then h.chain[1] else NULL
    ensures var s' := s.(m := s.m.(top := s.r.next), r := GetValue(s.m.top));
      var v := Load(s.m, s.m.top).value;
      var h' := h.(chain := h.chain[1..], popped := h.popped + [v]);
      Inv(s', h') && Contents(s.m, h.chain) == [v] + Contents(s'.m, h'.chain)
  {
    ReaderKnows(s, h);
    PopAccounts(s.m, h.chain, Private(s.w), h.lost);
    TopIsPopped(s, h);
  }

  lemma FreeAccounts(m: Memory, a: Addr, chain: seq<Addr>, own: set<Addr>, lost: set<Addr>)
    requires Accounted(m, chain, own, {a}, lost)
    ensures a in m.heap && a !in own && a !in Elements(chain)
    ensures Accounted(Release(m, a), chain, own, {}, lost)
    ensures Contents(Release(m, a), chain) == Contents(m, chain)
  {
    NodeIsReleased(m, a, chain, own + {a} + lost);
    assert own + {} + lost == own + {a} + lost - {a} && |{a}| == 1;
  }

  lemma ReaderFrees(s: State, h: History, node: Addr, v: Value)
    requires Inv(s, h) && s.r == Delete(node, v)
    ensures node in s.m.heap
    ensures Inv(s.(m := Release(s.m, node), r := Return(v)), h)
    ensures Contents(Release(s.m, node), h.chain) == Contents(s.m, h.chain)
  {
    var s' := s.(m := Release(s.m, node), r := Return(v));
    assert Held(s.r) == {node} && Held(s'.r) == {};
    FreeAccounts(s.m, node, h.chain, Private(s.w), h.lost);
    assert HeldValue(s'.r, s'.m) == HeldValue(s.r, s.m) && Pending(s') == Pending(s);
    assert s.w.WExchange? ==> s.w.node2 in Private(s.w);
    assert WriterOk(s'.w, s'.arg, s'.m);
  }

  /** The steps of the reader that change nothing that is shared and end no call. */
  predicate Looks(r: Reader, top: Addr) {
    match r
    case RExchange(node, _) => node != top
    case Delete(_, _) => false
    case Return(_) => false
    case _ => true
  }

  lemma ReaderLearns(s: State, chain: seq<Addr>)
    requires ReaderOk(s.r, s.m, chain) && Looks(s.r, s.m.top) && Linked(s.m, s.m.top, chain) && !s.m.fault
    requires Elements(chain) + Held(s.r) <= s.m.heap.Keys
    ensures var s' := ReaderStep(s);
      && s' == s.(r := s'.r) && ReaderOk(s'.r, s.m, chain)
      && Held(s'.r) == Held(s.r) && HeldValue(s'.r, s.m) == HeldValue(s.r, s.m)
  {
    if s.r.GetValue? { assert s.r.node in Held(s.r); }
  }

  lemma LookIsRecorded(s: State, h: History)
    requires Progress(s, h) && Looks(s.r, s.m.top) && ReaderStep(s).m == s.m
    ensures var h' := Record(s, h, Reads);
      Progress(ReaderStep(s), h') && h' == h.(readRetries := h'.readRetries)
  {
  }

  lemma ReaderLooks(s: State, h: History)
    requires Inv(s, h) && Looks(s.r, s.m.top)
    ensures Inv(ReaderStep(s), Record(s, h, Reads)) && ReaderStep(s).m == s.m
  {
    ReaderLearns(s, h.chain);
    LookIsRecorded(s, h);
    assert Pending(ReaderStep(s)) == Pending(s);
  }

  lemma ReaderReturns(s: State, h: History, v: Value)
    requires Inv(s, h) && s.r == Return(v)
    ensures Inv(s.(r := RIdle), h.(returned := h.returned + [v]))
  {
    var s' := s.(r := RIdle);
    assert Held(s'.r) == Held(s.r) && HeldValue(s'.r, s.m) == [] && HeldValue(s.r, s.m) == [v];
    assert Pending(s') == Pending(s);
    assert h.popped == h.returned + [v] + [];
  }

  /** One step keeps the invariant and does to the stack's contents what its linearization point says. */
  ghost predicate Follows(s: State, h: History, l: Label) {
    var s', h' := Next(s, l), Record(s, h, l);
    Inv(s', h') && Lifo(Contents(s.m, h.chain), Point(s, l), Contents(s'.m, h'.chain))
  }

  lemma PrepareFollows(s: State, h: History, a: Addr)
    requires Inv(s, h) && !s.w.WExchange?
    ensures Follows(s, h, Writes(a))
  {
    match s.w
    case WGetTop => WriterGetsTop(s, h);
    case NewNode(node) => if a != NULL && a !in s.m.heap { WriterAllocates(s, h, node, a); }
    case _ =>
  }

  lemma PushInstalls(s: State, h: History, a: Addr)
    requires Pushes(s, Writes(a))
    ensures Next(s, Writes(a)) == s.(m := s.m.(top := s.w.node2), w := WIdle)
    ensures Point(s, Writes(a)) == Push(s.arg) && s.w == WExchange(s.m.top, s.w.node2)
    ensures Record(s, h, Writes(a)) == h.(chain := [s.w.node2] + h.chain, pushed := h.pushed + [s.arg])
  {
  }

  lemma PushFollows(s: State, h: History, a: Addr)
    requires Inv(s, h) && Pushes(s, Writes(a))
    ensures Follows(s, h, Writes(a))
  {
    PushInstalls(s, h, a);
    WriterPushes(s, h, s.w.node2);
  }

  lemma LossIsRecorded(s: State, h: History, a: Addr)
    requires s.w.WExchange? && s.m.top != s.w.node
    ensures Next(s, Writes(a)) == s.(w := WGetTop) && Point(s, Writes(a)) == Silent
    ensures Record(s, h, Writes(a)) == h.(lost := h.lost + {s.w.node2}, writeRetries := h.writeRetries + 1)
  {
  }

  lemma LossFollows(s: State, h: History, a: Addr)
    requires Inv(s, h) && s.w.WExchange? && s.m.top != s.w.node
    ensures Follows(s, h, Writes(a))
  {
    LossIsRecorded(s, h, a);
    WriterLoses(s, h, s.w.node, s.w.node2);
  }

  lemma WriterFollows(s: State, h: History, a: Addr)
    requires Inv(s, h)
    ensures Follows(s, h, Writes(a))
  {
    if !s.w.WExchange? { PrepareFollows(s, h, a); }
    else if s.m.top == s.w.node { PushFollows(s, h, a); }
    else { LossFollows(s, h, a); }
  }

  lemma NullWhenEmpty(s: State, h: History)
    requires Linked(s.m, s.m.top, h.chain) && NULL !in s.m.heap && s.m.top == NULL
    ensures Contents(s.m, h.chain) == []
  {
  }

  lemma LookPoint(s: State)
    requires Looks(s.r, s.m.top)
    ensures Point(s, Reads) == if s.r.RGetTop? && s.m.top == NULL then Empty else Silent
  {
  }

  lemma LookFollows(s: State, h: History)
    requires Inv(s, h) && Looks(s.r, s.m.top)
    ensures Follows(s, h, Reads)
  {
    ReaderLooks(s, h);
    LookPoint(s);
    LookIsRecorded(s, h);
    if s.m.top == NULL { NullWhenEmpty(s, h); }
  }

  lemma PopInstalls(s: State, h: History)
    requires Pops(s, Reads) && h.chain != []
    ensures Next(s, Reads) == s.(m := s.m.(top := s.r.next), r := GetValue(s.r.node))
    ensures Point(s, Reads) == Pop(Load(s.m, s.r.node).value)
    ensures Record(s, h, Reads) == h.(chain := h.chain[1..], popped := h.popped + [Load(s.m, s.r.node).value])
  {
  }

  lemma PopFollows(s: State, h: History)
    requires Inv(s, h) && Pops(s, Reads)
    ensures Follows(s, h, Reads)
  {
    ReaderPops(s, h);
    PopInstalls(s, h);
  }

  lemma ReaderFollows(s: State, h: History)
    requires Inv(s, h)
    ensures Follows(s, h, Reads)
  {
    if Looks(s.r, s.m.top) {
      LookFollows(s, h);
    } else if s.r.Delete? {
      ReaderFrees(s, h, s.r.node, s.r.value);
    } else if s.r.Return? {
      ReaderReturns(s, h, s.r.value);
    } else {
      PopFollows(s, h);
    }
  }

  lemma WriteBeginFollows(s: State, h: History, v: Value)
    requires Inv(s, h)
    ensures Follows(s, h, BeginWrite(v))
  {
    if s.w.WIdle? { WriteBegins(s, h, v); }
  }

  lemma ReadBeginFollows(s: State, h: History)
    requires Inv(s, h)
    ensures Follows(s, h, BeginRead)
  {
    if s.r.RIdle? { ReadBegins(s, h); }
  }

  lemma StepFollows(s: State, h: History, l: Label)
    requires Inv(s, h)
    ensures Follows(s, h, l)
  {
    match l
    case BeginWrite(v) => WriteBeginFollows(s, h, v);
    case Writes(a) => WriterFollows(s, h, a);
    case BeginRead => ReadBeginFollows(s, h);
    case Reads => ReaderFollows(s, h);
  }

  // ----- Whole runs -----

  /** The state after a run of the two threads. */
  function Run(s: State, ls: seq<Label>): State
    decreases |ls|
  {
    if ls == [] then s else Run(Next(s, ls[0]), ls[1..])
  }

  function Recorded(s: State, h: History, ls: seq<Label>): History
    decreases |ls|
  {
    if ls == [] then h else Recorded(Next(s, ls[0]), Record(s, h, ls[0]), ls[1..])
  }

  /** The linearization points of a run, in order. */
  function Points(s: State, ls: seq<Label>): seq<Event>
    decreases |ls|
  {
    if ls == [] then [] else [Point(s, ls[0])] + Points(Next(s, ls[0]), ls[1..])
  }

  /** Whether a last-in first-out stack can do these operations one after another. */
  predicate Legal(q: seq<Value>, es: seq<Event>)
    decreases |es|
  {
    es == [] ||
    match es[0]
    case Push(v) => Legal([v] + q, es[1..])
    case Pop(v) => |q| > 0 && q[0] == v && Legal(q[1..], es[1..])
    case Empty => q == [] && Legal(q, es[1..])
    case Silent => Legal(q, es[1..])
  }

  lemma LifoIsLegal(q: seq<Value>, e: Event, q': seq<Value>, es: seq<Event>)
    requires Lifo(q, e, q') && Legal(q', es)
    ensures Legal(q, [e] + es)
  {
    assert ([e] + es)[1..] == es;
    if e.Pop? { assert q[1..] == q'; }
  }

  lemma {:induction false} RunFollows(s: State, h: History, ls: seq<Label>)
    requires Inv(s, h)
    ensures Inv(Run(s, ls), Recorded(s, h, ls))
    ensures Legal(Contents(s.m, h.chain), Points(s, ls))
    decreases |ls|
  {
    if ls != [] {
      var s', h' := Next(s, ls[0]), Record(s, h, ls[0]);
      StepFollows(s, h, ls[0]);
      RunFollows(s', h', ls[1..]);
      LifoIsLegal(Contents(s.m, h.chain), Point(s, ls[0]), Contents(s'.m, h'.chain), Points(s', ls[1..]));
    }
  }

  lemma StartsRight()
    ensures Inv(INIT, START)
  {
  }

  /** Every interleaving of one writer and one reader is linearizable to a last-in first-out stack. */
  lemma Linearizable(ls: seq<Label>)
    ensures Legal([], Points(INIT, ls))
  {
    StartsRight();
    assert Contents(INIT.m, []) == [];
    RunFollows(INIT, START, ls);
  }

  lemma {:induction false} NextIsLive(m: Memory, a: Addr, chain: seq<Addr>, x: Addr)
    requires Linked(m, a, chain) && x in Elements(chain)
    ensures Load(m, x).next == NULL || Load(m, x).next in Elements(chain)
    decreases |chain|
  {
    var next := Load(m, a).next;
    if x == a {
      assert chain[1..] != [] ==> next == chain[1..][0] == chain[1];
    } else {
      assert x in chain[1..];
      NextIsLive(m, next, chain[1..], x);
    }
  }

  /** In every reachable state no node is used after it is freed or freed twice, the node under every
      node of the stack is allocated or null, and a node is allocated only if it is on the stack, held
      by one of the threads, or was lost in a push that had to be tried again. */
  lemma SafeReclamation(ls: seq<Label>, x: Addr)
    ensures var s, h := Run(INIT, ls), Recorded(INIT, START, ls);
      && !s.m.fault
      && Linked(s.m, s.m.top, h.chain)
      && (x in Elements(h.chain) ==> x in s.m.heap && (Load(s.m, x).next == NULL || Load(s.m, x).next in s.m.heap))
      && s.m.heap.Keys == Elements(h.chain) + (Private(s.w) + Held(s.r) + h.lost)
      && s.m.allocs - s.m.frees == |h.chain| + |Private(s.w)| + |Held(s.r)| + |h.lost|
  {
    StartsRight();
    RunFollows(INIT, START, ls);
    var s, h := Run(INIT, ls), Recorded(INIT, START, ls);
    if x in Elements(h.chain) { NextIsLive(s.m, s.m.top, h.chain, x); }
  }

  /** Writes put on what they were given, reads return what they took off, and neither thread tries
      again more often than the other has succeeded. */
  lemma CallsDoWhatTheySay(ls: seq<Label>)
    ensures var s, h := Run(INIT, ls), Recorded(INIT, START, ls);
      && h.pushed <= h.begun && (s.w.WIdle? ==> h.pushed == h.begun)
      && h.returned <= h.popped && (s.r.RIdle? ==> h.returned == h.popped)
      && h.writeRetries <= |h.popped| && h.readRetries <= |h.pushed|
  {
    StartsRight();
    RunFollows(INIT, START, ls);
  }

  /** In every reachable state, an exchange that pops makes the second node the top. */
  lemma NoAba(ls: seq<Label>)
    requires Pops(Run(INIT, ls), Reads)
    ensures var s, h := Run(INIT, ls), Recorded(INIT, START, ls);
      && h.chain != [] && s.m.top == h.chain[0]
      && Next(s, Reads).m.top == if |h.chain| > 1 then h.chain[1] else NULL
  {
    StartsRight();
    RunFollows(INIT, START, ls);
    ReaderPops(Run(INIT, ls), Recorded(INIT, START, ls));
    PopInstalls(Run(INIT, ls), Recorded(INIT, START, ls));
  }

  // ----- One point in each read -----

  datatype Result = Null | Got(v: Value)

  /** What a step decides about the read in progress. */
  function Decided(s: State, l: Label): seq<Result> {
    match Point(s, l)
    case Pop(v) => [Got(v)]
    case Empty => [Null]
    case _ => []
  }

  /** What the read returns, if the step ends it. */
  function Ended(s: State, l: Label): seq<Result> {
    if !l.Reads? then []
    else
      match s.r
      case RGetTop => if s.m.top == NULL then [Null] else []
      case Return(v) => [Got(v)]
      case _ => []
  }

  /** What has been decided about a read that has not ended. */
  ghost function Open(r: Reader, m: Memory): seq<Result> {
    var held := HeldValue(r, m);
    if held == [] then [] else [Got(held[0])]
  }

  function AllDecided(s: State, ls: seq<Label>): seq<Result>
    decreases |ls|
  {
    if ls == [] then [] else Decided(s, ls[0]) + AllDecided(Next(s, ls[0]), ls[1..])
  }

  function AllEnded(s: State, ls: seq<Label>): seq<Result>
    decreases |ls|
  {
    if ls == [] then [] else Ended(s, ls[0]) + AllEnded(Next(s, ls[0]), ls[1..])
  }

  /** Between two steps of the reader, the value it has taken off stays what it is. */
  lemma HeldStays(s: State, h: History, l: Label)
    requires Inv(s, h) && !l.Reads?
    ensures HeldValue(Next(s, l).r, Next(s, l).m) == HeldValue(s.r, s.m)
  {
    StepFollows(s, h, l);
    var h' := Record(s, h, l);
    assert h'.popped == h.popped && h'.returned == h.returned;
    assert HeldValue(s.r, s.m) == h.popped[|h.returned|..];
    assert HeldValue(Next(s, l).r, Next(s, l).m) == h'.popped[|h'.returned|..];
  }

  lemma ReaderDecides(s: State)
    ensures Open(s.r, s.m) + Decided(s, Reads) == Ended(s, Reads) + Open(ReaderStep(s).r, ReaderStep(s).m)
  {
  }

  lemma OthersDecideNothing(s: State, l: Label)
    requires !l.Reads?
    ensures Decided(s, l) == [] && Ended(s, l) == []
  {
  }

  lemma StepDecides(s: State, h: History, l: Label)
    requires Inv(s, h)
    ensures Open(s.r, s.m) + Decided(s, l) == Ended(s, l) + Open(Next(s, l).r, Next(s, l).m)
  {
    if l.Reads? {
      ReaderDecides(s);
    } else {
      OthersDecideNothing(s, l);
      HeldStays(s, h, l);
      assert Open(s.r, s.m) + [] == [] + Open(s.r, s.m);
    }
  }

  lemma {:induction false} ReadsAreDecided(s: State, h: History, ls: seq<Label>)
    requires Inv(s, h)
    ensures Open(s.r, s.m) + AllDecided(s, ls) == AllEnded(s, ls) + Open(Run(s, ls).r, Run(s, ls).m)
    decreases |ls|
  {
    if ls != [] {
      var s', rest := Next(s, ls[0]), ls[1..];
      StepDecides(s, h, ls[0]);
      StepFollows(s, h, ls[0]);
      ReadsAreDecided(s', Record(s, h, ls[0]), rest);
      Regroup(Open(s.r, s.m), Decided(s, ls[0]), Ended(s, ls[0]), Open(s'.r, s'.m), AllDecided(s', rest),
              AllEnded(s', rest),
              Open(Run(s', rest).r, Run(s', rest).m));
    }
  }

  /** How many reads begin. */
  function Begun(s: State, ls: seq<Label>): nat
    decreases |ls|
  {
    if ls == [] then 0
    else (if ls[0].BeginRead? && s.r.RIdle? then 1 else 0) + Begun(Next(s, ls[0]), ls[1..])
  }

  function InProgress(r: Reader): nat { if r.RIdle? then 0 else 1 }

  lemma {:induction false} ReadsAreCounted(s: State, ls: seq<Label>)
    ensures InProgress(s.r) + Begun(s, ls) == |AllEnded(s, ls)| + InProgress(Run(s, ls).r)
    decreases |ls|
  {
    if ls != [] {
      assert InProgress(s.r) + (if ls[0].BeginRead? && s.r.RIdle? then 1 else 0) ==
        |Ended(s, ls[0])| + InProgress(Next(s, ls[0]).r);
      ReadsAreCounted(Next(s, ls[0]), ls[1..]);
    }
  }

  /** After any run, the reads that have ended returned what their linearization points decided, null or a
      value, in order; there is at most one point more, that of a read about to return.  Every read that has
      begun has ended once, but for one in progress. */
  lemma EachReadHasOnePoint(ls: seq<Label>)
    ensures var s := Run(INIT, ls);
      && AllDecided(INIT, ls) == AllEnded(INIT, ls) + Open(s.r, s.m)
      && (s.r.RIdle? ==> AllDecided(INIT, ls) == AllEnded(INIT, ls))
      && Begun(INIT, ls) == |AllEnded(INIT, ls)| + InProgress(s.r)
  {
    StartsRight();
    ReadsAreDecided(INIT, START, ls);
    ReadsAreCounted(INIT, ls);
    assert [] + AllDecided(INIT, ls) == AllDecided(INIT, ls);
  }

  // ----- What a read returns -----

  /** How many steps the reader takes. */
  function Turns(ls: seq<Label>): nat {
    if ls == [] then 0 else (if ls[0].Reads? then 1 else 0) + Turns(ls[1..])
  }

  /** The steps a read has to take yet if it finds a value and nothing is pushed. */
  function StepsToReturn(r: Reader): nat {
    match r
    case RIdle => 0
    case RGetTop => 6
    case Follow(_) => 5
    case RExchange(_, _) => 4
    case GetValue(_) => 3
    case Delete(_, _) => 2
    case Return(_) => 1
  }

  predicate Looked(r: Reader) { r.Follow? || r.RExchange? }

  /** Nothing is pushed while the reader is between getting the top and its exchange. */
  predicate Undisturbed(s: State, ls: seq<Label>)
    decreases |ls|
  {
    ls == [] || (!(Looked(s.r) && Pushes(s, ls[0])) && Undisturbed(Next(s, ls[0]), ls[1..]))
  }

  /** What the read in progress is going to return: the value on the top it has got, or the one it has taken off. */
  ghost predicate Getting(s: State, h: History, v: Value) {
    if Looked(s.r) then ReaderSaw(s.r) == s.m.top && Contents(s.m, h.chain) != [] && Contents(s.m, h.chain)[0] == v
    else HeldValue(s.r, s.m) == [v]
  }

  lemma WriterLeavesTop(s: State, h: History, l: Label, v: Value)
    requires Inv(s, h) && Getting(s, h, v) && !l.Reads? && !(Looked(s.r) && Pushes(s, l))
    ensures Next(s, l).r == s.r && Ended(s, l) == [] && Getting(Next(s, l), Record(s, h, l), v)
  {
    hide Inv;
    if Looked(s.r) {
      StepFollows(s, h, l);
      assert Point(s, l).Silent? && Next(s, l).m.top == s.m.top;
    } else {
      HeldStays(s, h, l);
      assert Next(s, l).r == s.r;
    }
  }

  lemma ReaderPopsFirst(s: State, h: History, v: Value)
    requires Inv(s, h) && Getting(s, h, v) && s.r.RExchange?
    ensures ReaderStep(s).r.GetValue? && HeldValue(ReaderStep(s).r, ReaderStep(s).m) == [v]
  {
    ReaderPops(s, h);
    PopInstalls(s, h);
    StepFollows(s, h, Reads);
  }

  lemma FollowerLooks(s: State, h: History, v: Value)
    requires Getting(s, h, v) && s.r.Follow? && s.r.node in s.m.heap
    ensures ReaderStep(s).m == s.m && ReaderStep(s).r.RExchange? && Getting(ReaderStep(s), Record(s, h, Reads), v)
  {
  }

  lemma HolderKeeps(s: State, h: History, v: Value)
    requires Getting(s, h, v) && (s.r.GetValue? || s.r.Delete?)
    ensures Getting(ReaderStep(s), Record(s, h, Reads), v)
    ensures StepsToReturn(ReaderStep(s).r) == StepsToReturn(s.r) - 1
  {
  }

  lemma FollowedIsLive(s: State, h: History)
    requires Inv(s, h) && s.r.Follow?
    ensures s.r.node in s.m.heap
  {
  }

  lemma ReaderGoesOn(s: State, h: History, v: Value)
    requires Inv(s, h) && Getting(s, h, v) && !s.r.Return?
    ensures StepsToReturn(ReaderStep(s).r) == StepsToReturn(s.r) - 1 && Ended(s, Reads) == []
    ensures Getting(ReaderStep(s), Record(s, h, Reads), v)
  {
    match s.r
    case Follow(_) => FollowedIsLive(s, h); FollowerLooks(s, h, v);
    case RExchange(_, _) => ReaderPopsFirst(s, h, v);
    case _ => HolderKeeps(s, h, v);
  }

  lemma GettingGoesOn(s: State, h: History, l: Label, v: Value)
    requires Inv(s, h) && Getting(s, h, v) && !(l.Reads? && s.r.Return?) && !(Looked(s.r) && Pushes(s, l))
    ensures Inv(Next(s, l), Record(s, h, l)) && Getting(Next(s, l), Record(s, h, l), v) && Ended(s, l) == []
    ensures StepsToReturn(Next(s, l).r) == StepsToReturn(s.r) - if l.Reads? then 1 else 0
  {
    hide Inv;
    StepFollows(s, h, l);
    if l.Reads? { ReaderGoesOn(s, h, v); } else { WriterLeavesTop(s, h, l, v); }
  }

  lemma {:induction false} NoTurnsNoEnd(s: State, ls: seq<Label>)
    requires Turns(ls) == 0
    ensures AllEnded(s, ls) == []
    decreases |ls|
  {
    if ls != [] { NoTurnsNoEnd(Next(s, ls[0]), ls[1..]); }
  }

  lemma {:induction false} ReadReturns(s: State, h: History, ls: seq<Label>, v: Value)
    requires Inv(s, h) && Getting(s, h, v) && Undisturbed(s, ls) && Turns(ls) <= StepsToReturn(s.r)
    ensures AllEnded(s, ls) == if Turns(ls) < StepsToReturn(s.r) then [] else [Got(v)]
    decreases |ls|
  {
    if ls == [] {
    } else if ls[0].Reads? && s.r.Return? {
      NoTurnsNoEnd(Next(s, ls[0]), ls[1..]);
    } else {
      GettingGoesOn(s, h, ls[0], v);
      ReadReturns(Next(s, ls[0]), Record(s, h, ls[0]), ls[1..], v);
    }
  }

  lemma TopIsGot(s: State, h: History)
    requires Inv(s, h) && s.r.RGetTop?
    ensures if h.chain == [] then Ended(s, Reads) == [Null] && ReaderStep(s).r.RIdle?
            else ReaderStep(s) == s.(r := Follow(s.m.top)) && Ended(s, Reads) == []
    ensures Record(s, h, Reads) == h && |Contents(s.m, h.chain)| == |h.chain|
  {
    ContentsLength(s.m, h.chain);
  }

  lemma {:induction false} ContentsLength(m: Memory, chain: seq<Addr>)
    ensures |Contents(m, chain)| == |chain|
  {
    if chain != [] { ContentsLength(m, chain[1..]); }
  }

  lemma TopIsKept(s: State, h: History)
    requires Inv(s, h) && s.r.RGetTop?
    ensures Inv(ReaderStep(s), h)
  {
    hide Inv;
    StepFollows(s, h, Reads);
  }

  lemma TopReturns(s: State, h: History, ls: seq<Label>)
    requires Inv(s, h) && s.r.RGetTop? && Turns(ls) <= 5 && Undisturbed(ReaderStep(s), ls)
    ensures var q := Contents(s.m, h.chain);
      q != [] ==> AllEnded(ReaderStep(s), ls) == if Turns(ls) < 5 then [] else [Got(q[0])]
  {
    var q := Contents(s.m, h.chain);
    TopIsGot(s, h);
    TopIsKept(s, h);
    if q != [] {
      assert Getting(ReaderStep(s), h, q[0]);
      ReadReturns(ReaderStep(s), h, ls, q[0]);
    }
  }

  /** In every reachable state in which a read is about to get the top: if the stack is empty, the read returns
      null at once; otherwise, if nothing is pushed before its exchange, it returns the value that is on the top
      now with its sixth step and not before. */
  lemma ReadOfTop(before: seq<Label>, ls: seq<Label>)
    requires Run(INIT, before).r.RGetTop? && Turns(ls) <= 5
    ensures var s, h := Run(INIT, before), Recorded(INIT, START, before);
      var q := Contents(s.m, h.chain);
      && (q == [] ==> Ended(s, Reads) == [Null] && ReaderStep(s).r.RIdle?)
      && (q != [] && Undisturbed(ReaderStep(s), ls) ==>
            AllEnded(s, [Reads] + ls) == if Turns(ls) < 5 then [] else [Got(q[0])])
  {
    StartsRight();
    RunFollows(INIT, START, before);
    var s, h := Run(INIT, before), Recorded(INIT, START, before);
    TopIsGot(s, h);
    assert AllEnded(s, [Reads] + ls) == Ended(s, Reads) + AllEnded(ReaderStep(s), ls) by {
      assert ([Reads] + ls)[1..] == ls;
    }
    if Undisturbed(ReaderStep(s), ls) { TopReturns(s, h, ls); }
  }

  // ----- Calls end -----

  /** How often one of the threads succeeds. */
  function Pushed(s: State, ls: seq<Label>): nat
    decreases |ls|
  {
    if ls == [] then 0 else (if Pushes(s, ls[0]) then 1 else 0) + Pushed(Next(s, ls[0]), ls[1..])
  }

  function Popped(s: State, ls: seq<Label>): nat
    decreases |ls|
  {
    if ls == [] then 0 else (if Pops(s, ls[0]) then 1 else 0) + Popped(Next(s, ls[0]), ls[1..])
  }

  /** The most steps the read in progress has to take yet if nothing is pushed: three more if it has to try again. */
  function ReadSteps(s: State): nat {
    StepsToReturn(s.r) + 3 * Stale(Looked(s.r), ReaderSaw(s.r), s.m.top)
  }

  lemma ReadStepsFall(s: State, l: Label)
    requires !s.r.RIdle?
    ensures Ended(s, l) == [] ==> !Next(s, l).r.RIdle?
    ensures Ended(s, l) == [] ==>
      ReadSteps(Next(s, l)) + (if l.Reads? then 1 else 0) <= ReadSteps(s) + if Pushes(s, l) then 3 else 0
  {
  }

  lemma {:induction false} ReaderGetsThere(s: State, ls: seq<Label>)
    requires !s.r.RIdle? && Turns(ls) >= ReadSteps(s) + 3 * Pushed(s, ls)
    ensures AllEnded(s, ls) != []
    decreases |ls|
  {
    ReadStepsFall(s, ls[0]);
    if Ended(s, ls[0]) == [] { ReaderGetsThere(Next(s, ls[0]), ls[1..]); }
  }

  /** A read ends within six steps of the reader, and three for each value that is pushed meanwhile. */
  lemma ReadsEnd(s: State, ls: seq<Label>)
    requires s.r.RIdle? && Turns(ls) >= 6 + 3 * Pushed(Next(s, BeginRead), ls)
    ensures AllEnded(Next(s, BeginRead), ls) != []
  {
    ReaderGetsThere(Next(s, BeginRead), ls);
  }

  function WriteSteps(s: State): nat {
    match s.w
    case WIdle => 0
    case WGetTop => 3
    case NewNode(node) => 2 + 3 * Stale(true, node, s.m.top)
    case WExchange(node, _) => 1 + 3 * Stale(true, node, s.m.top)
  }

  /** A step of the writer; to allocate an address that is in use, or null, is none. */
  predicate Advances(s: State, l: Label) {
    l.Writes? && !(s.w.NewNode? && (l.addr == NULL || l.addr in s.m.heap))
  }

  function Advanced(s: State, ls: seq<Label>): nat
    decreases |ls|
  {
    if ls == [] then 0 else (if Advances(s, ls[0]) then 1 else 0) + Advanced(Next(s, ls[0]), ls[1..])
  }

  /** A write that is in progress ends. */
  predicate WriteEnds(s: State, ls: seq<Label>)
    decreases |ls|
  {
    ls != [] && ((!s.w.WIdle? && Next(s, ls[0]).w.WIdle?) || WriteEnds(Next(s, ls[0]), ls[1..]))
  }

  lemma WriteStepsFall(s: State, l: Label)
    requires !s.w.WIdle?
    ensures WriteSteps(Next(s, l)) + (if Advances(s, l) then 1 else 0) <= WriteSteps(s) + if Pops(s, l) then 3 else 0
  {
  }

  lemma {:induction false} WriterGetsThere(s: State, ls: seq<Label>)
    requires !s.w.WIdle? && Advanced(s, ls) >= WriteSteps(s) + 3 * Popped(s, ls)
    ensures WriteEnds(s, ls)
    decreases |ls|
  {
    WriteStepsFall(s, ls[0]);
    if !Next(s, ls[0]).w.WIdle? { WriterGetsThere(Next(s, ls[0]), ls[1..]); }
  }

  /** A write ends within three steps of the writer, and three for each value that is popped meanwhile. */
  lemma WritesEnd(s: State, v: Value, ls: seq<Label>)
    requires s.w.WIdle? && Advanced(Next(s, BeginWrite(v)), ls) >= 3 + 3 * Popped(Next(s, BeginWrite(v)), ls)
    ensures WriteEnds(Next(s, BeginWrite(v)), ls)
  {
    WriterGetsThere(Next(s, BeginWrite(v)), ls);
  }

  // ----- Destruction -----

  lemma TopIsDeleted(m: Memory, chain: seq<Addr>, other: set<Addr>)
    requires Shape(m, chain, other) && m.top != NULL
    ensures chain != [] && m.top in m.heap
    ensures Shape(Release(m.(top := Load(m, m.top).next), m.top), chain[1..], other)
  {
    NodeIsTakenOff(m, chain, other);
    NodeIsReleased(m.(top := Load(m, m.top).next), m.top, chain[1..], {m.top} + other);
    assert {m.top} + other - {m.top} == other;
  }

  /** `fa_atomic_stack_destroy`, once both threads are done: every node still on the stack is freed, and
      none twice; the nodes lost in failed pushes stay, one for each time a push had to be tried again. */
  method Destroy(s: State, ghost h: History) returns (m: Memory)
    requires Inv(s, h) && s.w.WIdle? && s.r.RIdle?
    ensures m.heap.Keys == h.lost && |m.heap.Keys| == h.writeRetries && !m.fault
    ensures m.heap == map[] <==> h.writeRetries == 0
    ensures m.allocs == s.m.allocs && m.frees == s.m.frees + |h.chain|
  {
    m := s.m;
    ghost var chain := h.chain;
    assert {} + {} + h.lost == h.lost;
    while m.top != NULL
      invariant Shape(m, chain, h.lost)
      invariant m.allocs == s.m.allocs && m.frees + |chain| == s.m.frees + |h.chain|
      decreases |chain|
    {
      TopIsDeleted(m, chain, h.lost);
      var node := m.top;
      m := Check(m, node in m.heap).(top := Load(m, node).next);
      m := Release(m, node);
      chain := chain[1..];
    }
    assert chain == [] && Elements(chain) == {};
    assert m.heap == map[] <==> m.heap.Keys == {};
  }

  /** In every reachable state, as many nodes are lost as pushes have been tried again. */
  lemma LostInRetries(ls: seq<Label>)
    ensures |Recorded(INIT, START, ls).lost| == Recorded(INIT, START, ls).writeRetries
  {
    StartsRight();
    RunFollows(INIT, START, ls);
  }

  lemma {:induction false} RunsJoin(s: State, h: History, ls: seq<Label>, ls': seq<Label>)
    ensures Run(s, ls + ls') == Run(Run(s, ls), ls')
    ensures Recorded(s, h, ls + ls') == Recorded(Run(s, ls), Recorded(s, h, ls), ls')
    decreases |ls|
  {
    if ls == [] {
      assert [] + ls' == ls';
    } else {
      assert (ls + ls')[1..] == ls[1..] + ls';
      RunsJoin(Next(s, ls[0]), Record(s, h, ls[0]), ls[1..], ls');
    }
  }

  lemma TwoSteps(s: State, h: History, l: Label, l': Label)
    ensures Run(s, [l, l']) == Next(Next(s, l), l')
    ensures Recorded(s, h, [l, l']) == Record(Next(s, l), Record(s, h, l), l')
  {
    assert [l, l'][1..] == [l'] && [l'][1..] == [];
    assert Run(Next(s, l), [l']) == Next(Next(s, l), l');
    assert Recorded(Next(s, l), Record(s, h, l), [l']) == Record(Next(s, l), Record(s, h, l), l');
  }

  lemma FourSteps(s: State, h: History, l1: Label, l2: Label, l3: Label, l4: Label)
    ensures var s', h' := Next(Next(s, l1), l2), Record(Next(s, l1), Record(s, h, l1), l2);
      && Run(s, [l1, l2, l3, l4]) == Next(Next(s', l3), l4)
      && Recorded(s, h, [l1, l2, l3, l4]) == Record(Next(s', l3), Record(s', h', l3), l4)
  {
    TwoSteps(s, h, l1, l2);
    TwoSteps(Run(s, [l1, l2]), Recorded(s, h, [l1, l2]), l3, l4);
    RunsJoin(s, h, [l1, l2], [l3, l4]);
    assert [l1, l2] + [l3, l4] == [l1, l2, l3, l4];
  }

  /** The value 1 is put on. */
  const FIRST := [BeginWrite(1), Writes(0), Writes(1), Writes(0)]

  /** The value 2 is about to be put on when a read begins. */
  const SECOND := [BeginWrite(2), Writes(0), Writes(2), BeginRead]

  /** The read takes off the value 1, and the write cannot put its own on. */
  const THIRD := [Reads, Reads, Reads, Writes(0)]

  lemma FirstIsPut()
    ensures Run(INIT, FIRST) == State(Memory(map[1 := Cell(1, NULL)], 1, false, 1, 0), WIdle, 1, RIdle)
    ensures Recorded(INIT, START, FIRST) == START.(chain := [1], begun := [1], pushed := [1])
  {
    FourSteps(INIT, START, BeginWrite(1), Writes(0), Writes(1), Writes(0));
  }

  lemma SecondWaits(s: State, h: History)
    requires s == State(Memory(map[1 := Cell(1, NULL)], 1, false, 1, 0), WIdle, 1, RIdle)
    ensures Run(s, SECOND) ==
      State(Memory(map[1 := Cell(1, NULL)][2 := Cell(2, 1)], 1, false, 2, 0), WExchange(1, 2), 2, RGetTop)
    ensures Recorded(s, h, SECOND) == h.(begun := h.begun + [2])
  {
    FourSteps(s, h, BeginWrite(2), Writes(0), Writes(2), BeginRead);
  }

  lemma SecondIsLost(s: State, h: History)
    requires s.m.heap == map[1 := Cell(1, NULL)][2 := Cell(2, 1)] && s.m.top == 1
    requires s.w == WExchange(1, 2) && s.r == RGetTop && h.chain == [1]
    ensures Run(s, THIRD).w == WGetTop && Run(s, THIRD).m.heap == s.m.heap
    ensures Recorded(s, h, THIRD).chain == [] && Recorded(s, h, THIRD).lost == h.lost + {2}
    ensures Recorded(s, h, THIRD).writeRetries == h.writeRetries + 1
  {
    FourSteps(s, h, Reads, Reads, Reads, Writes(0));
  }

  /** A reachable state in which a node is lost: it is allocated, and no thread knows it any more. */
  lemma ANodeIsLost() returns (ls: seq<Label>)
    ensures var s, h := Run(INIT, ls), Recorded(INIT, START, ls);
      && s.w == WGetTop && 2 in s.m.heap && h.chain == [] && h.lost == {2} && h.writeRetries == 1
  {
    ls := FIRST + (SECOND + THIRD);
    FirstIsPut();
    var s, h := Run(INIT, FIRST), Recorded(INIT, START, FIRST);
    SecondWaits(s, h);
    SecondIsLost(Run(s, SECOND), Recorded(s, h, SECOND));
    RunsJoin(s, h, SECOND, THIRD);
    RunsJoin(INIT, START, FIRST, SECOND + THIRD);
  }
}
