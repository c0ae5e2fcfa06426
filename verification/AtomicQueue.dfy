/** The queue of shared/atomic/queue.c under every interleaving of one writer and one reader.

    Each access to shared memory is one step.  An allocation may return any address that is not in
    use, so freed addresses come back, and a new node holds whatever was in its memory.
 */
module AtomicQueue {

  import opened Basics

  type Addr = nat

  /** What a node carries; 0 is the null pointer, which is never written. */
  type Value = int

  datatype Cell = Cell(value: Value, next: Addr)

  /** Where a thread is in `forward_node`: it gets the place, gets it again, follows `next`, exchanges. */
  datatype Forward =
    | Expect
    | Dereference(seen: Addr)
    | Follow(seen: Addr, at: Addr)
    | Exchange(seen: Addr, next: Addr)

  /** Where the writer is in `fa_atomic_queue_write`. */
  datatype Writer =
    | WIdle
    // delete_range(first, div): compare, then forward `first` and free the node it leaves
    | CompareFirst
    | CompareDiv(begin: Addr)
    | GetNode
    | ForwardFirst(node: Addr, f: Forward)
    | Free(node: Addr)
    // fill the last node, link a new one and forward `last`
    | GetLast
    | SetValue(at: Addr)
    | GetLastAgain
    | Allocate(at: Addr)
    | SetNext(at: Addr, link: Addr)
    | ForwardLast(link: Addr, f: Forward)

  /** Where the reader is in `fa_atomic_queue_read`. */
  datatype Reader =
    | RIdle
    | ReadDiv
    | ReadLast(d: Addr)
    | GetDiv
    | GetValue(d: Addr)
    | ForwardDiv(value: Value, f: Forward)
    | Return(value: Value)

  /** What the threads share.  `fault` records an access to or a freeing of a node that is not
      allocated, or an exchange in `forward_node` that fails. */
  datatype Memory = Memory(heap: map<Addr, Cell>, first: Addr, div: Addr, last: Addr,
                           fault: bool, allocs: nat, frees: nat)

  /** `arg` is the argument of the write in progress. */
  datatype State = State(m: Memory, w: Writer, arg: Value, r: Reader)

  /** A new queue: one node, whose contents do not matter. */
  function Init(a: Addr, c: Cell): State {
    State(Memory(map[a := c], a, a, a, false, 1, 0), WIdle, 0, RIdle)
  }

  /** What happens next: a call begins, or one of the threads takes a step.  `Writes` says which
      address and contents an allocation would get. */
  datatype Label = BeginWrite(v: Value) | Writes(addr: Addr, cell: Cell) | BeginRead | Reads

  function Next(s: State, l: Label): State {
    match l
    case BeginWrite(v) => if s.w.WIdle? && v != 0 then s.(w := CompareFirst, arg := v) else s
    case Writes(a, c) => WriterStep(s, a, c)
    case BeginRead => if s.r.RIdle? then s.(r := ReadDiv) else s
    case Reads => ReaderStep(s)
  }

  function Load(m: Memory, a: Addr): Cell { if a in m.heap then m.heap[a] else Cell(0, 0) }

  function Store(m: Memory, a: Addr, c: Cell): Memory {
    m.(heap := m.heap[a := c], fault := m.fault || a !in m.heap)
  }

  function Obtain(m: Memory, a: Addr, c: Cell): Memory { m.(heap := m.heap[a := c], allocs := m.allocs + 1) }

  function Release(m: Memory, a: Addr): Memory {
    m.(heap := m.heap - {a}, frees := m.frees + 1, fault := m.fault || a !in m.heap)
  }

  function Check(m: Memory, ok: bool): Memory { m.(fault := m.fault || !ok) }

  /** A step of `forward_node` before the exchange. */
  function ForwardStep(f: Forward, place: Addr, m: Memory): Forward {
    match f
    case Expect => Dereference(place)
    case Dereference(seen) => Follow(seen, place)
    case Follow(seen, at) => Exchange(seen, Load(m, at).next)
    case Exchange(_, _) => f
  }

  /** Whether a step of `forward_node` goes as it should. */
  predicate Sound(f: Forward, place: Addr, m: Memory) {
    match f
    case Follow(_, at) => at in m.heap
    case Exchange(seen, _) => place == seen
    case _ => true
  }

  function Exchanged(f: Forward, place: Addr): Addr {
    if f.Exchange? && place == f.seen then f.next else place
  }

  function WriterStep(s: State, addr: Addr, cell: Cell): State {
    var m := s.m;
    match s.w
    case WIdle => s
    case CompareFirst => s.(w := CompareDiv(m.first))
    case CompareDiv(begin) => s.(w := if begin == m.div then GetLast else GetNode)
    case GetNode => s.(w := ForwardFirst(m.first, Expect))
    case ForwardFirst(node, f) =>
      s.(m := Check(m, Sound(f, m.first, m)).(first := Exchanged(f, m.first)),
         w := if f.Exchange? then Free(node) else ForwardFirst(node, ForwardStep(f, m.first, m)))
    case Free(node) => s.(m := Release(m, node), w := CompareFirst)
    case GetLast => s.(w := SetValue(m.last))
    case SetValue(at) => s.(m := Store(m, at, Load(m, at).(value := s.arg)), w := GetLastAgain)
    case GetLastAgain => s.(w := Allocate(m.last))
    case Allocate(at) => if addr in m.heap then s else s.(m := Obtain(m, addr, cell), w := SetNext(at, addr))
    case SetNext(at, link) => s.(m := Store(m, at, Load(m, at).(next := link)), w := ForwardLast(link, Expect))
    case ForwardLast(link, f) =>
      s.(m := Check(m, Sound(f, m.last, m)).(last := Exchanged(f, m.last)),
         w := if f.Exchange? then WIdle else ForwardLast(link, ForwardStep(f, m.last, m)))
  }

  function ReaderStep(s: State): State {
    var m := s.m;
    match s.r
    case RIdle => s
    case ReadDiv => s.(r := ReadLast(m.div))
    case ReadLast(d) => s.(r := if d == m.last then RIdle else GetDiv)
    case GetDiv => s.(r := GetValue(m.div))
    case GetValue(d) => s.(m := Check(m, d in m.heap), r := ForwardDiv(Load(m, d).value, Expect))
    case ForwardDiv(v, f) =>
      s.(m := Check(m, Sound(f, m.div, m)).(div := Exchanged(f, m.div)),
         r := if f.Exchange? then Return(v) else ForwardDiv(v, ForwardStep(f, m.div, m)))
    case Return(_) => s.(r := RIdle)
  }

  // ----- The abstract queue -----

  /** Linearization points. */
  datatype Event = Enqueue(v: Value) | Dequeue(v: Value) | Empty | Silent

  predicate Enqueues(s: State, l: Label) { l.Writes? && s.w.ForwardLast? && s.w.f.Exchange? }

  predicate Dequeues(s: State, l: Label) { l.Reads? && s.r.ForwardDiv? && s.r.f.Exchange? }

  /** The exchange on `last` puts a value in, the exchange on `div` takes one out, and a read that is
      about to return null finds the queue empty when it gets `last`. */
  function Point(s: State, l: Label): Event {
    if Enqueues(s, l) then Enqueue(s.arg)
    else if Dequeues(s, l) then Dequeue(s.r.value)
    else if l.Reads? && s.r.ReadLast? && s.r.d == s.m.last then Empty
    else Silent
  }

  /** One operation of a first-in first-out queue. */
  predicate Fifo(q: seq<Value>, e: Event, q': seq<Value>) {
    match e
    case Enqueue(v) => q' == q + [v]
    case Dequeue(v) => q == [v] + q'
    case Empty => q == [] && q' == []
    case Silent => q' == q
  }

  /** What has happened so far: the nodes from `first` to `last` in order, how far along them `div` is,
      and the values passed to `write`, put in, taken out and returned.  No step depends on it. */
  datatype History = History(chain: seq<Addr>, d: nat,
                             begun: seq<Value>, written: seq<Value>, taken: seq<Value>, returned: seq<Value>)

  function Start(a: Addr): History {
    History([a], 0, [], [], [], [])
  }

  function Record(s: State, h: History, l: Label): History {
    match l
    case BeginWrite(v) => if s.w.WIdle? && v != 0 then h.(begun := h.begun + [v]) else h
    case BeginRead => h
    case Writes(_, _) =>
      if Enqueues(s, l) then h.(chain := h.chain + [s.w.link], written := h.written + [s.arg])
      else if s.w.ForwardFirst? && s.w.f.Exchange? && h.chain != [] && h.d > 0 then
        h.(chain := h.chain[1..], d := h.d - 1)
      else h
    case Reads =>
      if Dequeues(s, l) then h.(d := h.d + 1, taken := h.taken + [s.r.value])
      else if s.r.Return? then h.(returned := h.returned + [s.r.value])
      else h
  }

  /** The values from `div` up to `last`. */
  ghost function Contents(m: Memory, chain: seq<Addr>, d: nat): seq<Value> {
    if d < |chain| then Between(m, chain[d..]) else []
  }

  ghost function Between(m: Memory, nodes: seq<Addr>): seq<Value> {
    if |nodes| <= 1 then [] else [Load(m, nodes[0]).value] + Between(m, nodes[1..])
  }

  // ----- Invariant -----

  /** The node the writer owns alone: allocated and not yet linked, or unlinked and not yet freed. */
  ghost function Private(w: Writer): set<Addr> {
    match w
    case Free(node) => {node}
    case SetNext(_, link) => {link}
    case ForwardLast(link, _) => {link}
    case _ => {}
  }

  ghost predicate Linked(m: Memory, c: seq<Addr>) {
    && (forall i :: 0 <= i < |c| ==> c[i] in m.heap)
    && (forall i, j :: 0 <= i && j == i + 1 < |c| ==> Load(m, c[i]).next == c[j])
  }

  /** `first`, `div` and `last` lie in that order on one chain of distinct nodes. */
  ghost predicate OnChain(m: Memory, chain: seq<Addr>, d: nat) {
    && d < |chain| && Distinct(chain)
    && m.first == chain[0] && m.div == chain[d] && m.last == chain[|chain| - 1]
  }

  /** The chain and the writer's private node are all that is allocated. */
  ghost predicate Accounted(m: Memory, own: set<Addr>, chain: seq<Addr>) {
    && m.heap.Keys == Elements(chain) + own
    && Elements(chain) !! own
    && m.allocs == m.frees + |chain| + |own|
  }

  ghost predicate Shape(m: Memory, own: set<Addr>, chain: seq<Addr>, d: nat) {
    !m.fault && OnChain(m, chain, d) && Linked(m, chain) && Accounted(m, own, chain)
  }

  /** A thread in `forward_node` on a place that only it moves. */
  ghost predicate Forwarding(f: Forward, place: Addr, next: Addr) {
    match f
    case Expect => true
    case Dereference(seen) => seen == place
    case Follow(seen, at) => seen == at == place
    case Exchange(seen, n) => seen == place && n == next
  }

  /** What the writer's local variables say about the shared state. */
  ghost predicate WriterKnows(w: Writer, arg: Value, first: Addr, front: Cell, last: Addr, back: Cell, ahead: bool) {
    match w
    case WIdle => true
    case CompareFirst => true
    case CompareDiv(begin) => begin == first
    case GetNode => ahead
    case ForwardFirst(node, f) => ahead && node == first && Forwarding(f, first, front.next)
    case Free(node) => true
    case GetLast => true
    case SetValue(at) => at == last
    case GetLastAgain => back.value == arg
    case Allocate(at) => at == last && back.value == arg
    case SetNext(at, link) => at == last && back.value == arg
    case ForwardLast(link, f) => back == Cell(arg, link) && Forwarding(f, last, link)
  }

  ghost predicate WriterOk(w: Writer, arg: Value, m: Memory, ahead: bool) {
    WriterKnows(w, arg, m.first, Load(m, m.first), m.last, Load(m, m.last), ahead)
  }

  /** What the reader's local variables say about the shared state. */
  ghost predicate ReaderKnows(r: Reader, div: Addr, front: Cell, more: bool) {
    match r
    case RIdle => true
    case ReadDiv => true
    case ReadLast(d) => d == div
    case GetDiv => more
    case GetValue(d) => more && d == div
    case ForwardDiv(v, f) => more && v == front.value && Forwarding(f, div, front.next)
    case Return(v) => true
  }

  ghost predicate ReaderOk(r: Reader, m: Memory) {
    ReaderKnows(r, m.div, Load(m, m.div), m.div != m.last)
  }

  /** The argument of a write that has not put it in yet. */
  function Pending(s: State): seq<Value> { if s.w.WIdle? then [] else [s.arg] }

  /** The value of a read that has not returned it yet. */
  function Held(r: Reader): seq<Value> { if r.Return? then [r.value] else [] }

  /** Values come out in the order they went in, a write puts in its argument, and a read returns what
      it took. */
  ghost predicate InOrder(h: History, pending: seq<Value>, contents: seq<Value>, held: seq<Value>) {
    && h.begun == h.written + pending
    && h.written == h.taken + contents
    && h.taken == h.returned + held
  }

  ghost predicate Inv(s: State, h: History) {
    && Shape(s.m, Private(s.w), h.chain, h.d)
    && WriterOk(s.w, s.arg, s.m, h.d > 0)
    && ReaderOk(s.r, s.m)
    && InOrder(h, Pending(s), Contents(s.m, h.chain, h.d), Held(s.r))
  }

  // ----- Sequences of nodes -----

  lemma {:induction false} BetweenFrame(m: Memory, m': Memory, nodes: seq<Addr>)
    requires forall i :: 0 <= i < |nodes| - 1 ==> Load(m, nodes[i]).value == Load(m', nodes[i]).value
    ensures Between(m, nodes) == Between(m', nodes)
  {
    if |nodes| > 1 { BetweenFrame(m, m', nodes[1..]); }
  }

  lemma {:induction false} BetweenAppend(m: Memory, nodes: seq<Addr>, a: Addr)
    requires |nodes| > 0
    ensures Between(m, nodes + [a]) == Between(m, nodes) + [Load(m, nodes[|nodes| - 1]).value]
  {
    if |nodes| == 1 {
      assert (nodes + [a])[1..] == [a];
    } else {
      BetweenAppend(m, nodes[1..], a);
      assert (nodes + [a])[1..] == nodes[1..] + [a];
    }
  }

  lemma {:induction false} BetweenLength(m: Memory, nodes: seq<Addr>)
    requires |nodes| > 0
    ensures |Between(m, nodes)| == |nodes| - 1
  {
    if |nodes| > 1 { BetweenLength(m, nodes[1..]); }
  }

  lemma ElementsOfTail(c: seq<Addr>)
    requires |c| > 0 && Distinct(c)
    ensures Elements(c) == {c[0]} + Elements(c[1..])
    ensures c[0] !in Elements(c[1..])
    ensures Distinct(c[1..])
  {
    assert c == [c[0]] + c[1..];
  }

  lemma ElementsOfAppend(c: seq<Addr>, a: Addr)
    ensures Elements(c + [a]) == Elements(c) + {a}
    ensures Distinct(c) && a !in Elements(c) ==> Distinct(c + [a])
  {
  }

  lemma EmptyAtEnd(m: Memory, chain: seq<Addr>, d: nat)
    requires OnChain(m, chain, d)
    ensures m.div == m.last <==> d == |chain| - 1
    ensures m.div == m.last <==> Contents(m, chain, d) == []
  {
    BetweenLength(m, chain[d..]);
  }

  // ----- What each change to shared memory does to the chain -----

  lemma ChainFrame(m: Memory, m': Memory, chain: seq<Addr>, d: nat)
    requires Linked(m, chain) && forall a :: a in Elements(chain) ==> a in m'.heap && Load(m', a) == Load(m, a)
    ensures Linked(m', chain) && Contents(m', chain, d) == Contents(m, chain, d)
  {
    forall i | 0 <= i < |chain| ensures chain[i] in m'.heap && Load(m', chain[i]) == Load(m, chain[i]) {
      assert chain[i] in Elements(chain);
    }
    if d < |chain| { BetweenFrame(m, m', chain[d..]); }
  }

  lemma LinksOfTail(m: Memory, chain: seq<Addr>)
    requires |chain| > 1 && Linked(m, chain)
    ensures Linked(m, chain[1..]) && Load(m, chain[0]).next == chain[1]
  {
  }

  lemma LinksOfAppend(m: Memory, chain: seq<Addr>, a: Addr)
    requires |chain| > 0 && Linked(m, chain) && a in m.heap && Load(m, chain[|chain| - 1]).next == a
    ensures Linked(m, chain + [a])
  {
  }

  lemma ContentsOfTail(m: Memory, m': Memory, chain: seq<Addr>, d: nat)
    requires 0 < d < |chain| && m'.heap == m.heap
    ensures Contents(m', chain[1..], d - 1) == Contents(m, chain, d)
  {
    assert chain[1..][d - 1..] == chain[d..];
    BetweenFrame(m, m', chain[d..]);
  }

  lemma LinksFrame(m: Memory, m': Memory, chain: seq<Addr>)
    requires Linked(m, chain) && m'.heap == m.heap
    ensures Linked(m', chain)
  {
  }

  lemma OnChainTail(m: Memory, m': Memory, chain: seq<Addr>, d: nat)
    requires OnChain(m, chain, d) && d > 0
    requires m'.first == chain[1] && m'.div == m.div && m'.last == m.last
    ensures OnChain(m', chain[1..], d - 1)
  {
  }

  lemma AccountsOfTail(m: Memory, m': Memory, chain: seq<Addr>)
    requires |chain| > 0 && Distinct(chain) && Accounted(m, {}, chain)
    requires m'.heap == m.heap && m'.allocs == m.allocs && m'.frees == m.frees
    ensures Accounted(m', {chain[0]}, chain[1..])
  {
    ElementsOfTail(chain);
    assert |{chain[0]}| == 1;
  }

  lemma ContentsOfAppend(m: Memory, chain: seq<Addr>, d: nat, a: Addr)
    requires d < |chain|
    ensures Contents(m, chain + [a], d) == Contents(m, chain, d) + [Load(m, chain[|chain| - 1]).value]
  {
    assert (chain + [a])[d..] == chain[d..] + [a];
    BetweenAppend(m, chain[d..], a);
  }

  lemma FirstMovesOn(m: Memory, chain: seq<Addr>, d: nat)
    requires Shape(m, {}, chain, d) && d > 0
    ensures var m' := m.(first := Load(m, m.first).next);
      && Shape(m', {m.first}, chain[1..], d - 1)
      && Contents(m', chain[1..], d - 1) == Contents(m, chain, d)
  {
    var m' := m.(first := Load(m, m.first).next);
    LinksOfTail(m, chain);
    LinksFrame(m, m', chain[1..]);
    OnChainTail(m, m', chain, d);
    ContentsOfTail(m, m', chain, d);
    AccountsOfTail(m, m', chain);
  }

  lemma NodeIsReleased(m: Memory, a: Addr, chain: seq<Addr>, d: nat)
    requires Shape(m, {a}, chain, d)
    ensures var m' := Release(m, a);
      && Shape(m', {}, chain, d)
      && Contents(m', chain, d) == Contents(m, chain, d)
      && Load(m', m.div) == Load(m, m.div)
  {
    var m' := Release(m, a);
    assert |{a}| == 1;
    ChainFrame(m, m', chain, d);
    assert m'.heap.Keys == m.heap.Keys - {a};
  }

  lemma ObtainAccounts(m: Memory, a: Addr, c: Cell, chain: seq<Addr>)
    requires Accounted(m, {}, chain) && a !in m.heap
    ensures Accounted(Obtain(m, a, c), {a}, chain)
  {
    assert |{a}| == 1 && Obtain(m, a, c).heap.Keys == m.heap.Keys + {a};
  }

  lemma NodeIsObtained(m: Memory, a: Addr, c: Cell, chain: seq<Addr>, d: nat)
    requires Shape(m, {}, chain, d) && a !in m.heap
    ensures var m' := Obtain(m, a, c);
      && Shape(m', {a}, chain, d)
      && Contents(m', chain, d) == Contents(m, chain, d)
      && Load(m', m.div) == Load(m, m.div) && Load(m', m.last) == Load(m, m.last)
  {
    ObtainAccounts(m, a, c, chain);
    ChainFrame(m, Obtain(m, a, c), chain, d);
  }

  lemma LastIsFilled(m: Memory, c: Cell, own: set<Addr>, chain: seq<Addr>, d: nat)
    requires Shape(m, own, chain, d)
    ensures var m' := Store(m, m.last, c);
      && Shape(m', own, chain, d)
      && Contents(m', chain, d) == Contents(m, chain, d)
      && (m.div != m.last ==> Load(m', m.div) == Load(m, m.div))
  {
    var m' := Store(m, m.last, c);
    BetweenFrame(m, m', chain[d..]);
    assert m'.heap.Keys == m.heap.Keys;
  }

  lemma AppendAccounts(m: Memory, a: Addr, chain: seq<Addr>)
    requires Accounted(m, {a}, chain)
    ensures Accounted(m.(last := a), {}, chain + [a])
  {
    ElementsOfAppend(chain, a);
    assert |{a}| == 1;
  }

  lemma LastMovesOn(m: Memory, a: Addr, chain: seq<Addr>, d: nat)
    requires Shape(m, {a}, chain, d) && Load(m, m.last).next == a
    ensures var m' := m.(last := a);
      && Shape(m', {}, chain + [a], d)
      && Contents(m', chain + [a], d) == Contents(m, chain, d) + [Load(m, m.last).value]
      && m'.div != m'.last
  {
    var m' := m.(last := a);
    AppendAccounts(m, a, chain);
    ElementsOfAppend(chain, a);
    LinksOfAppend(m, chain, a);
    ContentsOfAppend(m, chain, d, a);
    assert m.div in Elements(chain);
    ChainFrame(m, m', chain + [a], d);
  }

  lemma DivMovesOn(m: Memory, own: set<Addr>, chain: seq<Addr>, d: nat)
    requires Shape(m, own, chain, d) && m.div != m.last
    ensures var m' := m.(div := Load(m, m.div).next);
      && Shape(m', own, chain, d + 1)
      && Contents(m, chain, d) == [Load(m, m.div).value] + Contents(m', chain, d + 1)
  {
    var m' := m.(div := Load(m, m.div).next);
    EmptyAtEnd(m, chain, d);
    assert chain[d..][1..] == chain[d + 1..];
    BetweenFrame(m, m', chain[d + 1..]);
    assert Load(m, chain[d]).next == chain[d + 1];
  }

  // ----- What each change does to the record -----

  lemma WriteIsBegun(h: History, v: Value, contents: seq<Value>, held: seq<Value>)
    requires InOrder(h, [], contents, held)
    ensures InOrder(h.(begun := h.begun + [v]), [v], contents, held)
  {
  }

  lemma ValueIsPutIn(h: History, a: Addr, v: Value, contents: seq<Value>, held: seq<Value>)
    requires InOrder(h, [v], contents, held)
    ensures InOrder(h.(chain := h.chain + [a], written := h.written + [v]), [], contents + [v], held)
  {
    assert h.written + [v] == h.taken + (contents + [v]);
  }

  lemma ValueIsTakenOut(h: History, v: Value, pending: seq<Value>, rest: seq<Value>)
    requires InOrder(h, pending, [v] + rest, [])
    ensures InOrder(h.(d := h.d + 1, taken := h.taken + [v]), pending, rest, [v])
  {
    assert h.taken + ([v] + rest) == (h.taken + [v]) + rest;
    assert h.returned + [] == h.returned;
  }

  lemma ValueIsReturned(h: History, v: Value, pending: seq<Value>, contents: seq<Value>)
    requires InOrder(h, pending, contents, [v])
    ensures InOrder(h.(returned := h.returned + [v]), pending, contents, [])
  {
    assert h.returned + [v] + [] == h.returned + [v];
  }

  // ----- Every step keeps the invariant -----

  lemma ForwardingGoesOn(f: Forward, place: Addr, m: Memory)
    requires place in m.heap && Forwarding(f, place, Load(m, place).next)
    ensures Forwarding(ForwardStep(f, place, m), place, Load(m, place).next) && Sound(f, place, m)
  {
  }

  /** The steps of the writer that only read shared memory. */
  predicate OnlyReads(w: Writer) {
    match w
    case Free(_) => false
    case SetValue(_) => false
    case Allocate(_) => false
    case SetNext(_, _) => false
    case ForwardFirst(_, f) => !f.Exchange?
    case ForwardLast(_, f) => !f.Exchange?
    case _ => true
  }

  lemma WriterLearns(s: State, a: Addr, c: Cell, ahead: bool)
    requires OnlyReads(s.w) && WriterOk(s.w, s.arg, s.m, ahead) && s.m.first in s.m.heap && s.m.last in s.m.heap
    requires ahead <==> s.m.first != s.m.div
    ensures var s' := WriterStep(s, a, c);
      && s' == s.(w := s'.w) && WriterOk(s'.w, s.arg, s.m, ahead)
      && Private(s'.w) == Private(s.w) && s'.w.WIdle? == s.w.WIdle?
  {
    match s.w
    case ForwardFirst(_, f) => ForwardingGoesOn(f, s.m.first, s.m);
    case ForwardLast(_, f) => ForwardingGoesOn(f, s.m.last, s.m);
    case _ =>
  }

  lemma WriterReads(s: State, h: History, a: Addr, c: Cell)
    requires Inv(s, h) && OnlyReads(s.w)
    ensures Inv(WriterStep(s, a, c), h)
  {
    WriterLearns(s, a, c, h.d > 0);
  }

  /** The exchange on `first` succeeds. */
  lemma FirstExchanges(s: State, ahead: bool, a: Addr, c: Cell)
    requires WriterOk(s.w, s.arg, s.m, ahead) && s.w.ForwardFirst? && s.w.f.Exchange? && !s.m.fault
    ensures ahead && s.w.f.seen == s.m.first && Private(s.w) == {}
    ensures WriterStep(s, a, c) == s.(m := s.m.(first := Load(s.m, s.m.first).next), w := Free(s.m.first))
  {
  }

  lemma UnlinkedKeeps(s: State, h: History, m': Memory, a: Addr, c: seq<Addr>, d: nat)
    requires !s.w.WIdle? && Shape(m', {a}, c, d) && ReaderOk(s.r, m')
    requires InOrder(h, Pending(s), Contents(m', c, d), Held(s.r))
    ensures Inv(s.(m := m', w := Free(a)), h.(chain := c, d := d))
  {
    var s' := s.(m := m', w := Free(a));
    assert Private(s'.w) == {a} && Pending(s') == Pending(s);
  }

  lemma WriterUnlinks(s: State, h: History)
    requires Inv(s, h) && Private(s.w) == {} && !s.w.WIdle? && h.d > 0
    ensures var m' := s.m.(first := Load(s.m, s.m.first).next);
      Inv(s.(m := m', w := Free(s.m.first)), h.(chain := h.chain[1..], d := h.d - 1))
  {
    FirstMovesOn(s.m, h.chain, h.d);
    UnlinkedKeeps(s, h, s.m.(first := Load(s.m, s.m.first).next), s.m.first, h.chain[1..], h.d - 1);
  }

  /** A step of the writer that moves nothing along the chain. */
  lemma WriterGoesOn(s: State, h: History, m': Memory, w': Writer)
    requires Inv(s, h) && !s.w.WIdle? && !w'.WIdle?
    requires Shape(m', Private(w'), h.chain, h.d) && Contents(m', h.chain, h.d) == Contents(s.m, h.chain, h.d)
    requires WriterOk(w', s.arg, m', h.d > 0) && ReaderOk(s.r, m')
    ensures Inv(s.(m := m', w := w'), h)
  {
    assert Pending(s.(m := m', w := w')) == Pending(s);
  }

  lemma WriterFrees(s: State, h: History, node: Addr)
    requires Inv(s, h) && s.w == Free(node)
    ensures Inv(s.(m := Release(s.m, node), w := CompareFirst), h)
  {
    assert Private(s.w) == {node} && Private(CompareFirst) == {};
    NodeIsReleased(s.m, node, h.chain, h.d);
    WriterGoesOn(s, h, Release(s.m, node), CompareFirst);
  }

  lemma WriterFills(s: State, h: History, c: Cell, w': Writer)
    requires Inv(s, h) && !s.w.WIdle? && !w'.WIdle? && Private(w') == Private(s.w)
    requires WriterOk(w', s.arg, Store(s.m, s.m.last, c), h.d > 0)
    ensures Inv(s.(m := Store(s.m, s.m.last, c), w := w'), h)
  {
    LastIsFilled(s.m, c, Private(s.w), h.chain, h.d);
    WriterGoesOn(s, h, Store(s.m, s.m.last, c), w');
  }

  lemma AllocateKnows(s: State, ahead: bool, a: Addr, c: Cell)
    requires WriterOk(s.w, s.arg, s.m, ahead) && s.w.Allocate? && a !in s.m.heap
    ensures Load(s.m, s.m.last).value == s.arg && Private(s.w) == {}
    ensures WriterStep(s, a, c) == s.(m := Obtain(s.m, a, c), w := SetNext(s.m.last, a))
  {
  }

  lemma WriterAllocates(s: State, h: History, a: Addr, c: Cell)
    requires Inv(s, h) && s.w.Allocate? && a !in s.m.heap
    ensures Inv(s.(m := Obtain(s.m, a, c), w := SetNext(s.m.last, a)), h)
  {
    AllocateKnows(s, h.d > 0, a, c);
    assert Private(SetNext(s.m.last, a)) == {a};
    NodeIsObtained(s.m, a, c, h.chain, h.d);
    WriterGoesOn(s, h, Obtain(s.m, a, c), SetNext(s.m.last, a));
  }

  /** The exchange on `last` succeeds. */
  lemma LastExchanges(s: State, ahead: bool, a: Addr, c: Cell)
    requires WriterOk(s.w, s.arg, s.m, ahead) && s.w.ForwardLast? && s.w.f.Exchange? && !s.m.fault
    ensures s.w.f.seen == s.m.last && Load(s.m, s.m.last) == Cell(s.arg, s.w.link) && Private(s.w) == {s.w.link}
    ensures WriterStep(s, a, c) == s.(m := s.m.(last := s.w.link), w := WIdle)
  {
  }

  lemma WriterEnqueues(s: State, h: History, link: Addr)
    requires Inv(s, h) && !s.w.WIdle? && Private(s.w) == {link} && Load(s.m, s.m.last) == Cell(s.arg, link)
    ensures var m' := s.m.(last := link);
      var h' := h.(chain := h.chain + [link], written := h.written + [s.arg]);
      Inv(s.(m := m', w := WIdle), h') && Contents(m', h'.chain, h'.d) == Contents(s.m, h.chain, h.d) + [s.arg]
  {
    var m' := s.m.(last := link);
    var s', h' := s.(m := m', w := WIdle), h.(chain := h.chain + [link], written := h.written + [s.arg]);
    assert Private(s'.w) == {} && Pending(s) == [s.arg] && Pending(s') == [];
    LastMovesOn(s.m, link, h.chain, h.d);
    ValueIsPutIn(h, link, s.arg, Contents(s.m, h.chain, h.d), Held(s.r));
    assert InOrder(h', Pending(s'), Contents(m', h'.chain, h'.d), Held(s'.r));
  }

  lemma ReaderLearns(s: State)
    requires ReaderOk(s.r, s.m) && !s.m.fault && s.m.div in s.m.heap && !Dequeues(s, Reads)
    ensures var s' := ReaderStep(s); s' == s.(r := s'.r) && ReaderOk(s'.r, s.m) && !s'.r.Return?
  {
    match s.r
    case ForwardDiv(_, f) => ForwardingGoesOn(f, s.m.div, s.m);
    case _ =>
  }

  lemma ReaderReads(s: State, h: History)
    requires Inv(s, h) && !Dequeues(s, Reads) && !s.r.Return?
    ensures Inv(ReaderStep(s), h)
  {
    ReaderLearns(s);
  }

  lemma ReaderReturns(s: State, h: History)
    requires Inv(s, h) && s.r.Return?
    ensures Inv(ReaderStep(s), Record(s, h, Reads))
  {
    ValueIsReturned(h, s.r.value, Pending(s), Contents(s.m, h.chain, h.d));
  }

  /** The exchange on `div` succeeds. */
  lemma DivExchanges(s: State, v: Value, f: Forward)
    requires ReaderOk(s.r, s.m) && s.r == ForwardDiv(v, f) && f.Exchange?
    ensures s.m.div == f.seen && s.m.div != s.m.last && Held(s.r) == []
    ensures v == Load(s.m, s.m.div).value && f.next == Load(s.m, s.m.div).next
  {
  }

  lemma DivIsMoved(m: Memory, own: set<Addr>, chain: seq<Addr>, d: nat, m': Memory, v: Value)
    requires Shape(m, own, chain, d) && m.div != m.last
    requires m' == m.(div := Load(m, m.div).next) && v == Load(m, m.div).value
    ensures Shape(m', own, chain, d + 1) && Contents(m, chain, d) == [v] + Contents(m', chain, d + 1)
  {
    DivMovesOn(m, own, chain, d);
  }

  /** A read that has taken the oldest value out. */
  lemma DequeueKeeps(s: State, h: History, v: Value, m': Memory, rest: seq<Value>)
    requires Shape(m', Private(s.w), h.chain, h.d + 1) && Contents(m', h.chain, h.d + 1) == rest
    requires WriterOk(s.w, s.arg, m', h.d + 1 > 0) && InOrder(h, Pending(s), [v] + rest, [])
    ensures Inv(s.(m := m', r := Return(v)), h.(d := h.d + 1, taken := h.taken + [v]))
  {
    var s' := s.(m := m', r := Return(v));
    assert Pending(s') == Pending(s) && Held(s'.r) == [v];
    ValueIsTakenOut(h, v, Pending(s), rest);
  }

  lemma WriterIgnoresDiv(w: Writer, arg: Value, m: Memory, div: Addr, ahead: bool)
    requires WriterOk(w, arg, m, ahead)
    ensures WriterOk(w, arg, m.(div := div), true)
  {
  }

  lemma ReaderDequeues(s: State, h: History, v: Value, f: Forward)
    requires Inv(s, h) && s.r == ForwardDiv(v, f) && f.Exchange?
    ensures s.m.div == f.seen
    ensures var s' := s.(m := s.m.(div := f.next), r := Return(v));
      var h' := h.(d := h.d + 1, taken := h.taken + [v]);
      Inv(s', h') && Contents(s.m, h.chain, h.d) == [v] + Contents(s'.m, h'.chain, h'.d)
  {
    var m' := s.m.(div := f.next);
    DivExchanges(s, v, f);
    DivIsMoved(s.m, Private(s.w), h.chain, h.d, m', v);
    WriterIgnoresDiv(s.w, s.arg, s.m, f.next, h.d > 0);
    DequeueKeeps(s, h, v, m', Contents(m', h.chain, h.d + 1));
  }

  lemma WriteBegins(s: State, h: History, v: Value)
    requires Inv(s, h) && s.w.WIdle?
    ensures Inv(s.(w := CompareFirst, arg := v), h.(begun := h.begun + [v]))
  {
    var s' := s.(w := CompareFirst, arg := v);
    assert s'.m == s.m && s'.r == s.r && Private(s'.w) == Private(s.w) && Pending(s) == [] && Pending(s') == [v];
    WriteIsBegun(h, v, Contents(s.m, h.chain, h.d), Held(s.r));
  }

  lemma ReadBegins(s: State, h: History)
    requires Inv(s, h) && s.r.RIdle?
    ensures Inv(s.(r := ReadDiv), h)
  {
  }

  lemma SetValueKnows(s: State, ahead: bool, a: Addr, c: Cell)
    requires WriterOk(s.w, s.arg, s.m, ahead) && s.w.SetValue?
    ensures Private(s.w) == Private(GetLastAgain)
    ensures var m' := Store(s.m, s.m.last, Load(s.m, s.m.last).(value := s.arg));
      WriterOk(GetLastAgain, s.arg, m', ahead) && WriterStep(s, a, c) == s.(m := m', w := GetLastAgain)
  {
  }

  lemma SetNextKnows(s: State, ahead: bool, a: Addr, c: Cell)
    requires WriterOk(s.w, s.arg, s.m, ahead) && s.w.SetNext?
    ensures Private(s.w) == Private(ForwardLast(s.w.link, Expect))
    ensures var m' := Store(s.m, s.m.last, Load(s.m, s.m.last).(next := s.w.link));
      var w' := ForwardLast(s.w.link, Expect);
      WriterOk(w', s.arg, m', ahead) && WriterStep(s, a, c) == s.(m := m', w := w')
  {
  }

  lemma WriterStepKeeps(s: State, h: History, a: Addr, c: Cell)
    requires Inv(s, h) && !Enqueues(s, Writes(a, c)) && !(s.w.ForwardFirst? && s.w.f.Exchange?)
    ensures Inv(WriterStep(s, a, c), h)
  {
    if OnlyReads(s.w) {
      WriterReads(s, h, a, c);
    } else if s.w.SetValue? {
      SetValueKnows(s, h.d > 0, a, c);
      WriterFills(s, h, Load(s.m, s.m.last).(value := s.arg), GetLastAgain);
    } else if s.w.SetNext? {
      SetNextKnows(s, h.d > 0, a, c);
      WriterFills(s, h, Load(s.m, s.m.last).(next := s.w.link), ForwardLast(s.w.link, Expect));
    } else if s.w.Free? {
      WriterFrees(s, h, s.w.node);
    } else if a !in s.m.heap {
      AllocateKnows(s, h.d > 0, a, c);
      WriterAllocates(s, h, a, c);
    }
  }

  lemma UnlinkIsRecorded(s: State, h: History, a: Addr, c: Cell)
    requires s.w.ForwardFirst? && s.w.f.Exchange? && 0 < h.d < |h.chain|
    ensures Record(s, h, Writes(a, c)) == h.(chain := h.chain[1..], d := h.d - 1)
  {
  }

  lemma UnlinkKeeps(s: State, h: History, a: Addr, c: Cell)
    requires Inv(s, h) && s.w.ForwardFirst? && s.w.f.Exchange?
    ensures Inv(WriterStep(s, a, c), Record(s, h, Writes(a, c)))
  {
    FirstExchanges(s, h.d > 0, a, c);
    WriterUnlinks(s, h);
    UnlinkIsRecorded(s, h, a, c);
  }

  lemma EnqueueKeeps(s: State, h: History, a: Addr, c: Cell)
    requires Inv(s, h) && Enqueues(s, Writes(a, c))
    ensures var s', h' := WriterStep(s, a, c), Record(s, h, Writes(a, c));
      Inv(s', h') && Contents(s'.m, h'.chain, h'.d) == Contents(s.m, h.chain, h.d) + [s.arg]
  {
    LastExchanges(s, h.d > 0, a, c);
    WriterEnqueues(s, h, s.w.link);
  }

  lemma WriterKeeps(s: State, h: History, a: Addr, c: Cell)
    requires Inv(s, h)
    ensures Inv(WriterStep(s, a, c), Record(s, h, Writes(a, c)))
  {
    if Enqueues(s, Writes(a, c)) {
      EnqueueKeeps(s, h, a, c);
    } else if s.w.ForwardFirst? && s.w.f.Exchange? {
      UnlinkKeeps(s, h, a, c);
    } else {
      WriterStepKeeps(s, h, a, c);
    }
  }

  lemma DequeueIsRecorded(s: State, h: History)
    requires Dequeues(s, Reads) && s.m.div == s.r.f.seen && !s.m.fault
    ensures ReaderStep(s) == s.(m := s.m.(div := s.r.f.next), r := Return(s.r.value))
    ensures Record(s, h, Reads) == h.(d := h.d + 1, taken := h.taken + [s.r.value])
  {
  }

  lemma ReadIsRecorded(s: State, h: History)
    requires !Dequeues(s, Reads) && !s.r.Return?
    ensures Record(s, h, Reads) == h
  {
  }

  lemma ReaderKeeps(s: State, h: History)
    requires Inv(s, h)
    ensures Inv(ReaderStep(s), Record(s, h, Reads))
  {
    if Dequeues(s, Reads) {
      ReaderDequeues(s, h, s.r.value, s.r.f);
      DequeueIsRecorded(s, h);
    } else if s.r.Return? {
      ReaderReturns(s, h);
    } else {
      ReaderReads(s, h);
      ReadIsRecorded(s, h);
    }
  }

  lemma StepKeepsInv(s: State, h: History, l: Label)
    requires Inv(s, h)
    ensures Inv(Next(s, l), Record(s, h, l))
  {
    match l
    case BeginWrite(v) => if s.w.WIdle? && v != 0 { WriteBegins(s, h, v); }
    case Writes(a, c) => WriterKeeps(s, h, a, c);
    case BeginRead => if s.r.RIdle? { ReadBegins(s, h); }
    case Reads => ReaderKeeps(s, h);
  }

  // ----- Whole runs -----

  /** The state after a run of the two threads. */
  function Run(s: State, ls: seq<Label>): State
    decreases |ls|
  {
    if ls == [] then s else Run(Next(s, ls[0]), ls[1..])
  }

  function Recorded(s: State, h: History, ls: seq<Label>): History
    decreases |ls|
  {
    if ls == [] then h else Recorded(Next(s, ls[0]), Record(s, h, ls[0]), ls[1..])
  }

  lemma {:induction false} RunKeepsInv(s: State, h: History, ls: seq<Label>)
    requires Inv(s, h)
    ensures Inv(Run(s, ls), Recorded(s, h, ls))
    decreases |ls|
  {
    if ls != [] {
      StepKeepsInv(s, h, ls[0]);
      RunKeepsInv(Next(s, ls[0]), Record(s, h, ls[0]), ls[1..]);
    }
  }

  lemma StartsRight(a: Addr, c: Cell)
    ensures Inv(Init(a, c), Start(a))
  {
    assert Elements([a]) == {a} && Private(WIdle) == {};
    assert Shape(Init(a, c).m, {}, [a], 0);
    assert Pending(Init(a, c)) == [] && Contents(Init(a, c).m, [a], 0) == [];
  }

  /** In every reachable state of every interleaving: no node is used after it is freed or freed twice,
      every exchange in `forward_node` has succeeded, and the nodes that are allocated are those from
      `first` through `div` to `last` and at most one that the writer holds alone. */
  lemma SafeReclamation(a: Addr, c: Cell, ls: seq<Label>)
    ensures var s, h := Run(Init(a, c), ls), Recorded(Init(a, c), Start(a), ls);
      && !s.m.fault
      && OnChain(s.m, h.chain, h.d) && Linked(s.m, h.chain)
      && s.m.heap.Keys == Elements(h.chain) + Private(s.w)
      && s.m.allocs - s.m.frees == |h.chain| + |Private(s.w)|
  {
    StartsRight(a, c);
    RunKeepsInv(Init(a, c), Start(a), ls);
  }

  /** What has been returned is the beginning of what has been put in, and that is the beginning of
      what was passed to `write`, lacking at most the value of a write in progress. */
  lemma ValuesComeOutInOrder(a: Addr, c: Cell, ls: seq<Label>)
    ensures var s, h := Run(Init(a, c), ls), Recorded(Init(a, c), Start(a), ls);
      && h.returned <= h.taken <= h.written <= h.begun
      && h.written == h.taken + Contents(s.m, h.chain, h.d)
      && (s.w.WIdle? ==> h.written == h.begun)
      && (!s.r.Return? ==> h.returned == h.taken)
  {
    StartsRight(a, c);
    RunKeepsInv(Init(a, c), Start(a), ls);
  }

  // ----- Linearizability -----

  lemma PointIsRecorded(s: State, h: History, l: Label)
    ensures var h' := Record(s, h, l);
      match Point(s, l)
      case Enqueue(v) => h'.written == h.written + [v] && h'.taken == h.taken
      case Dequeue(v) => h'.written == h.written && h'.taken == h.taken + [v]
      case Empty => h' == h
      case Silent => h'.written == h.written && h'.taken == h.taken
  {
  }

  lemma Cancel(a: seq<Value>, b: seq<Value>, c: seq<Value>)
    requires a + b == a + c
    ensures b == c
  {
    assert b == (a + b)[|a|..] && c == (a + c)[|a|..];
  }

  lemma ContentsFollow(h: History, h': History, e: Event, q: seq<Value>, q': seq<Value>)
    requires h.written == h.taken + q && h'.written == h'.taken + q'
    requires e.Enqueue? ==> h'.written == h.written + [e.v] && h'.taken == h.taken
    requires e.Dequeue? ==> h'.written == h.written && h'.taken == h.taken + [e.v]
    requires e.Empty? ==> h' == h && q == []
    requires e.Silent? ==> h'.written == h.written && h'.taken == h.taken
    ensures Fifo(q, e, q')
  {
    match e
    case Enqueue(v) =>
      assert h.taken + q + [v] == h.taken + (q + [v]);
      Cancel(h.taken, q + [v], q');
    case Dequeue(v) =>
      assert h.taken + [v] + q' == h.taken + ([v] + q');
      Cancel(h.taken, q, [v] + q');
    case _ => Cancel(h.taken, q, q');
  }

  /** What the invariant says about values. */
  lemma ContentsAreRecorded(s: State, h: History)
    requires Inv(s, h)
    ensures h.written == h.taken + Contents(s.m, h.chain, h.d)
  {
  }

  lemma EmptyWhenNull(s: State, h: History)
    requires Inv(s, h) && Point(s, Reads).Empty?
    ensures Contents(s.m, h.chain, h.d) == []
  {
    EmptyAtEnd(s.m, h.chain, h.d);
  }

  /** Every step of either thread does to the queue's contents what its linearization point says: in
      particular a read returns null only when the queue is empty as it gets `last`. */
  lemma StepIsFifo(s: State, h: History, l: Label)
    requires Inv(s, h)
    ensures Fifo(Contents(s.m, h.chain, h.d), Point(s, l),
                 Contents(Next(s, l).m, Record(s, h, l).chain, Record(s, h, l).d))
  {
    var s', h' := Next(s, l), Record(s, h, l);
    StepKeepsInv(s, h, l);
    PointIsRecorded(s, h, l);
    ContentsAreRecorded(s, h);
    ContentsAreRecorded(s', h');
    if Point(s, l).Empty? { EmptyWhenNull(s, h); }
    ContentsFollow(h, h', Point(s, l), Contents(s.m, h.chain, h.d), Contents(s'.m, h'.chain, h'.d));
  }

  /** The linearization points of a run, in order. */
  function Points(s: State, ls: seq<Label>): seq<Event>
    decreases |ls|
  {
    if ls == [] then [] else [Point(s, ls[0])] + Points(Next(s, ls[0]), ls[1..])
  }

  /** Whether a first-in first-out queue can do these operations one after another. */
  predicate Legal(q: seq<Value>, es: seq<Event>)
    decreases |es|
  {
    es == [] ||
    match es[0]
    case Enqueue(v) => Legal(q + [v], es[1..])
    case Dequeue(v) => |q| > 0 && q[0] == v && Legal(q[1..], es[1..])
    case Empty => q == [] && Legal(q, es[1..])
    case Silent => Legal(q, es[1..])
  }

  lemma FifoIsLegal(q: seq<Value>, e: Event, q': seq<Value>, es: seq<Event>)
    requires Fifo(q, e, q') && Legal(q', es)
    ensures Legal(q, [e] + es)
  {
    assert ([e] + es)[1..] == es;
    if e.Dequeue? { assert q[1..] == q'; }
  }

  lemma {:induction false} RunIsLegal(s: State, h: History, ls: seq<Label>)
    requires Inv(s, h)
    ensures Legal(Contents(s.m, h.chain, h.d), Points(s, ls))
    decreases |ls|
  {
    if ls != [] {
      var s', h' := Next(s, ls[0]), Record(s, h, ls[0]);
      StepKeepsInv(s, h, ls[0]);
      StepIsFifo(s, h, ls[0]);
      RunIsLegal(s', h', ls[1..]);
      FifoIsLegal(Contents(s.m, h.chain, h.d), Point(s, ls[0]), Contents(s'.m, h'.chain, h'.d), Points(s', ls[1..]));
    }
  }

  /** Every interleaving of one writer and one reader is linearizable to a first-in first-out queue. */
  lemma Linearizable(a: Addr, c: Cell, ls: seq<Label>)
    ensures Legal([], Points(Init(a, c), ls))
  {
    StartsRight(a, c);
    assert Contents(Init(a, c).m, [a], 0) == [];
    RunIsLegal(Init(a, c), Start(a), ls);
  }

  // ----- One point in each read -----

  datatype Result = Null | Got(v: Value)

  /** What a step decides about the read in progress. */
  function Decided(s: State, l: Label): seq<Result> {
    match Point(s, l)
    case Dequeue(v) => [Got(v)]
    case Empty => [Null]
    case _ => []
  }

  /** What the read returns, if the step ends it. */
  function Ended(s: State, l: Label): seq<Result> {
    if !l.Reads? then []
    else
      match s.r
      case ReadLast(d) => if d == s.m.last then [Null] else []
      case Return(v) => [Got(v)]
      case _ => []
  }

  /** What has been decided about a read that has not ended. */
  function Open(r: Reader): seq<Result> { if r.Return? then [Got(r.value)] else [] }

  function AllDecided(s: State, ls: seq<Label>): seq<Result>
    decreases |ls|
  {
    if ls == [] then [] else Decided(s, ls[0]) + AllDecided(Next(s, ls[0]), ls[1..])
  }

  function AllEnded(s: State, ls: seq<Label>): seq<Result>
    decreases |ls|
  {
    if ls == [] then [] else Ended(s, ls[0]) + AllEnded(Next(s, ls[0]), ls[1..])
  }

  lemma StepDecides(s: State, l: Label)
    ensures Open(s.r) + Decided(s, l) == Ended(s, l) + Open(Next(s, l).r)
  {
  }

  lemma {:induction false} ReadsAreDecided(s: State, ls: seq<Label>)
    ensures Open(s.r) + AllDecided(s, ls) == AllEnded(s, ls) + Open(Run(s, ls).r)
    decreases |ls|
  {
    if ls != [] {
      var s', rest := Next(s, ls[0]), ls[1..];
      StepDecides(s, ls[0]);
      ReadsAreDecided(s', rest);
      Regroup(Open(s.r), Decided(s, ls[0]), Ended(s, ls[0]), Open(s'.r), AllDecided(s', rest), AllEnded(s', rest),
              Open(Run(s', rest).r));
    }
  }

  /** How many reads begin. */
  function Begun(s: State, ls: seq<Label>): nat
    decreases |ls|
  {
    if ls == [] then 0
    else (if ls[0].BeginRead? && s.r.RIdle? then 1 else 0) + Begun(Next(s, ls[0]), ls[1..])
  }

  function InProgress(r: Reader): nat { if r.RIdle? then 0 else 1 }

  lemma {:induction false} ReadsAreCounted(s: State, ls: seq<Label>)
    ensures InProgress(s.r) + Begun(s, ls) == |AllEnded(s, ls)| + InProgress(Run(s, ls).r)
    decreases |ls|
  {
    if ls != [] {
      assert InProgress(s.r) + (if ls[0].BeginRead? && s.r.RIdle? then 1 else 0) ==
        |Ended(s, ls[0])| + InProgress(Next(s, ls[0]).r);
      ReadsAreCounted(Next(s, ls[0]), ls[1..]);
    }
  }

  /** After any run, the reads that have ended returned what their linearization points decided, null or a
      value, in order; there is at most one point more, that of a read about to return.  Every read that has
      begun has ended once, but for one in progress. */
  lemma EachReadHasOnePoint(a: Addr, c: Cell, ls: seq<Label>)
    ensures var s := Init(a, c);
      && AllDecided(s, ls) == AllEnded(s, ls) + Open(Run(s, ls).r)
      && (Run(s, ls).r.RIdle? ==> AllDecided(s, ls) == AllEnded(s, ls))
      && Begun(s, ls) == |AllEnded(s, ls)| + InProgress(Run(s, ls).r)
  {
    ReadsAreDecided(Init(a, c), ls);
    ReadsAreCounted(Init(a, c), ls);
    assert [] + AllDecided(Init(a, c), ls) == AllDecided(Init(a, c), ls);
  }

  // ----- Reads end -----

  /** The steps a read has to take yet if it finds a value. */
  function StepsToReturn(r: Reader): nat {
    match r
    case RIdle => 0
    case ReadDiv => 9
    case ReadLast(_) => 8
    case GetDiv => 7
    case GetValue(_) => 6
    case ForwardDiv(_, Expect) => 5
    case ForwardDiv(_, Dereference(_)) => 4
    case ForwardDiv(_, Follow(_, _)) => 3
    case ForwardDiv(_, Exchange(_, _)) => 2
    case Return(_) => 1
  }

  /** How many steps the reader takes. */
  function Turns(ls: seq<Label>): nat {
    if ls == [] then 0 else (if ls[0].Reads? then 1 else 0) + Turns(ls[1..])
  }

  /** What the read in progress is going to return: what is first in the queue, once it is taken the value held. */
  ghost predicate Getting(s: State, h: History, v: Value) {
    match s.r
    case RIdle => false
    case Return(x) => x == v
    case _ => Contents(s.m, h.chain, h.d) != [] && Contents(s.m, h.chain, h.d)[0] == v
  }

  lemma WriterLeavesFirst(s: State, h: History, l: Label, v: Value)
    requires Inv(s, h) && Getting(s, h, v) && !l.Reads?
    ensures Next(s, l).r == s.r && Getting(Next(s, l), Record(s, h, l), v)
  {
    hide Inv;
    StepIsFifo(s, h, l);
    var q := Contents(s.m, h.chain, h.d);
    if q != [] && Point(s, l).Enqueue? { assert (q + [Point(s, l).v])[0] == q[0]; }
  }

  lemma ReaderGoesOn(s: State, h: History, v: Value)
    requires Inv(s, h) && Getting(s, h, v) && !s.r.Return?
    ensures StepsToReturn(ReaderStep(s).r) == StepsToReturn(s.r) - 1 && Ended(s, Reads) == []
    ensures Getting(ReaderStep(s), Record(s, h, Reads), v)
  {
    EmptyAtEnd(s.m, h.chain, h.d);
    StepIsFifo(s, h, Reads);
    if s.r.ForwardDiv? {
      match s.r.f
      case Expect =>
      case Dereference(_) =>
      case Follow(_, _) =>
      case Exchange(_, _) =>
    }
  }

  lemma GettingGoesOn(s: State, h: History, l: Label, v: Value)
    requires Inv(s, h) && Getting(s, h, v) && !(l.Reads? && s.r.Return?)
    ensures Inv(Next(s, l), Record(s, h, l)) && Getting(Next(s, l), Record(s, h, l), v) && Ended(s, l) == []
    ensures StepsToReturn(Next(s, l).r) == StepsToReturn(s.r) - if l.Reads? then 1 else 0
  {
    hide Inv;
    StepKeepsInv(s, h, l);
    if l.Reads? { ReaderGoesOn(s, h, v); } else { WriterLeavesFirst(s, h, l, v); }
  }

  lemma {:induction false} NoTurnsNoEnd(s: State, ls: seq<Label>)
    requires Turns(ls) == 0
    ensures AllEnded(s, ls) == []
    decreases |ls|
  {
    if ls != [] { NoTurnsNoEnd(Next(s, ls[0]), ls[1..]); }
  }

  /** However the writer's steps lie between them, these are the steps of the read, and this is what it returns. */
  lemma {:induction false} ReadReturns(s: State, h: History, ls: seq<Label>, v: Value)
    requires Inv(s, h) && Getting(s, h, v) && Turns(ls) <= StepsToReturn(s.r)
    ensures AllEnded(s, ls) == if Turns(ls) < StepsToReturn(s.r) then [] else [Got(v)]
    decreases |ls|
  {
    if ls == [] {
    } else if ls[0].Reads? && s.r.Return? {
      NoTurnsNoEnd(Next(s, ls[0]), ls[1..]);
    } else {
      GettingGoesOn(s, h, ls[0], v);
      ReadReturns(Next(s, ls[0]), Record(s, h, ls[0]), ls[1..], v);
    }
  }

  /** In every reachable state in which no read is in progress and the queue is not empty, a read returns what is
      first in it with its ninth step and not before, whatever the writer does meanwhile. */
  lemma ReadOfValues(a: Addr, c: Cell, before: seq<Label>, ls: seq<Label>)
    requires Run(Init(a, c), before).r.RIdle? && Turns(ls) <= 9
    ensures var s, h := Run(Init(a, c), before), Recorded(Init(a, c), Start(a), before);
      var q := Contents(s.m, h.chain, h.d);
      q != [] ==> AllEnded(s, [BeginRead] + ls) == if Turns(ls) < 9 then [] else [Got(q[0])]
  {
    StartsRight(a, c);
    RunKeepsInv(Init(a, c), Start(a), before);
    var s, h := Run(Init(a, c), before), Recorded(Init(a, c), Start(a), before);
    var q := Contents(s.m, h.chain, h.d);
    assert ([BeginRead] + ls)[1..] == ls;
    if q != [] {
      ReadBegins(s, h);
      ReadReturns(s.(r := ReadDiv), h, ls, q[0]);
    }
  }

  /** Nothing is put in. */
  predicate Quiet(s: State, ls: seq<Label>)
    decreases |ls|
  {
    ls == [] || (!Enqueues(s, ls[0]) && Quiet(Next(s, ls[0]), ls[1..]))
  }

  lemma StaysEmpty(s: State, h: History, l: Label)
    requires Inv(s, h) && Contents(s.m, h.chain, h.d) == [] && !Enqueues(s, l)
    ensures Contents(Next(s, l).m, Record(s, h, l).chain, Record(s, h, l).d) == []
  {
    StepIsFifo(s, h, l);
  }

  lemma DivIsLast(s: State, h: History)
    requires Inv(s, h) && s.r.ReadLast? && Contents(s.m, h.chain, h.d) == []
    ensures s.r.d == s.m.last && Ended(s, Reads) == [Null]
  {
    EmptyAtEnd(s.m, h.chain, h.d);
  }

  lemma ReaderLooks(s: State, l: Label)
    requires s.r.ReadDiv? || (s.r.ReadLast? && !l.Reads?)
    ensures Ended(s, l) == [] && if l.Reads? then Next(s, l).r.ReadLast? else Next(s, l).r == s.r
  {
  }

  lemma {:induction false} ReadFindsNothing(s: State, h: History, ls: seq<Label>)
    requires Inv(s, h) && (s.r.ReadDiv? || s.r.ReadLast?) && Contents(s.m, h.chain, h.d) == [] && Quiet(s, ls)
    requires Turns(ls) == if s.r.ReadDiv? then 2 else 1
    ensures AllEnded(s, ls) == [Null]
    decreases |ls|
  {
    if ls[0].Reads? && s.r.ReadLast? {
      DivIsLast(s, h);
      NoTurnsNoEnd(Next(s, ls[0]), ls[1..]);
    } else {
      StepKeepsInv(s, h, ls[0]);
      StaysEmpty(s, h, ls[0]);
      ReaderLooks(s, ls[0]);
      ReadFindsNothing(Next(s, ls[0]), Record(s, h, ls[0]), ls[1..]);
    }
  }

  /** And if the queue is empty and nothing is put in, it returns null with its second step. */
  lemma ReadOfNothing(a: Addr, c: Cell, before: seq<Label>, ls: seq<Label>)
    requires Run(Init(a, c), before).r.RIdle? && Turns(ls) == 2
    requires Quiet(Run(Init(a, c), before).(r := ReadDiv), ls)
    ensures var s, h := Run(Init(a, c), before), Recorded(Init(a, c), Start(a), before);
      Contents(s.m, h.chain, h.d) == [] ==> AllEnded(s, [BeginRead] + ls) == [Null]
  {
    StartsRight(a, c);
    RunKeepsInv(Init(a, c), Start(a), before);
    var s, h := Run(Init(a, c), before), Recorded(Init(a, c), Start(a), before);
    assert ([BeginRead] + ls)[1..] == ls;
    if Contents(s.m, h.chain, h.d) == [] {
      ReadBegins(s, h);
      ReadFindsNothing(s.(r := ReadDiv), h, ls);
    }
  }

  // ----- Writes end, and free what has been read -----

  /** The most steps a write has to take yet with `d` nodes before `div`: eight for each of these, and what
      comes before and after. */
  function StepsToEnd(w: Writer, d: nat): nat {
    match w
    case WIdle => 0
    case CompareFirst => 8 * d + 11
    case CompareDiv(_) => 8 * d + 10
    case GetNode => 8 * d + 9
    case ForwardFirst(_, Expect) => 8 * d + 8
    case ForwardFirst(_, Dereference(_)) => 8 * d + 7
    case ForwardFirst(_, Follow(_, _)) => 8 * d + 6
    case ForwardFirst(_, Exchange(_, _)) => 8 * d + 5
    case Free(_) => 8 * d + 12
    case GetLast => 9
    case SetValue(_) => 8
    case GetLastAgain => 7
    case Allocate(_) => 6
    case SetNext(_, _) => 5
    case ForwardLast(_, Expect) => 4
    case ForwardLast(_, Dereference(_)) => 3
    case ForwardLast(_, Follow(_, _)) => 2
    case ForwardLast(_, Exchange(_, _)) => 1
  }

  /** A step of the writer; to allocate an address that is in use is none. */
  predicate Advances(s: State, l: Label) { l.Writes? && !(s.w.Allocate? && l.addr in s.m.heap) }

  function Advanced(s: State, ls: seq<Label>): nat
    decreases |ls|
  {
    if ls == [] then 0 else (if Advances(s, ls[0]) then 1 else 0) + Advanced(Next(s, ls[0]), ls[1..])
  }

  /** How many values are taken out. */
  function Dequeued(s: State, ls: seq<Label>): nat
    decreases |ls|
  {
    if ls == [] then 0 else (if Dequeues(s, ls[0]) then 1 else 0) + Dequeued(Next(s, ls[0]), ls[1..])
  }

  /** A write that is in progress ends. */
  predicate WriteEnds(s: State, ls: seq<Label>)
    decreases |ls|
  {
    ls != [] && ((!s.w.WIdle? && Next(s, ls[0]).w.WIdle?) || WriteEnds(Next(s, ls[0]), ls[1..]))
  }

  /** Whether there are nodes before `div`, where the writer looks at it. */
  ghost predicate Ahead(s: State, h: History) {
    && h.chain != []
    && (s.w.CompareDiv? ==> (s.w.begin == s.m.div <==> h.d == 0))
    && (s.w.ForwardFirst? ==> h.d > 0)
  }

  lemma LooksAhead(s: State, h: History)
    requires Inv(s, h)
    ensures Ahead(s, h)
  {
    assert s.m.first == s.m.div <==> h.d == 0;
  }

  lemma WriterAdvances(s: State, h: History, a: Addr, c: Cell)
    requires Ahead(s, h) && !s.w.WIdle? && Advances(s, Writes(a, c))
    ensures StepsToEnd(WriterStep(s, a, c).w, Record(s, h, Writes(a, c)).d) == StepsToEnd(s.w, h.d) - 1
  {
    if s.w.ForwardFirst? || s.w.ForwardLast? {
      match s.w.f
      case Expect =>
      case Dereference(_) =>
      case Follow(_, _) =>
      case Exchange(_, _) =>
    }
  }

  lemma ReaderAddsEight(s: State, h: History, l: Label)
    requires !Advances(s, l) && (l.BeginWrite? ==> !s.w.WIdle?)
    ensures Next(s, l).w == s.w
    ensures StepsToEnd(s.w, Record(s, h, l).d) <= StepsToEnd(s.w, h.d) + if Dequeues(s, l) then 8 else 0
  {
    if l.Writes? && s.w.Allocate? { assert WriterStep(s, l.addr, l.cell) == s; }
  }

  lemma {:induction false} WriterGetsThere(s: State, h: History, ls: seq<Label>)
    requires Inv(s, h) && !s.w.WIdle? && Advanced(s, ls) >= StepsToEnd(s.w, h.d) + 8 * Dequeued(s, ls)
    ensures WriteEnds(s, ls)
    decreases |ls|
  {
    hide Inv;
    var s', h' := Next(s, ls[0]), Record(s, h, ls[0]);
    StepKeepsInv(s, h, ls[0]);
    LooksAhead(s, h);
    if Advances(s, ls[0]) {
      WriterAdvances(s, h, ls[0].addr, ls[0].cell);
    } else {
      ReaderAddsEight(s, h, ls[0]);
    }
    if !s'.w.WIdle? { WriterGetsThere(s', h', ls[1..]); }
  }

  /** In every reachable state, a write ends within eleven steps of the writer, and eight for each node before
      `div` and for each value that is taken out meanwhile. */
  lemma WritesEnd(a: Addr, c: Cell, before: seq<Label>, v: Value, ls: seq<Label>)
    requires v != 0
    ensures var s, h := Run(Init(a, c), before), Recorded(Init(a, c), Start(a), before);
      var s' := Next(s, BeginWrite(v));
      s.w.WIdle? && Advanced(s', ls) >= 11 + 8 * h.d + 8 * Dequeued(s', ls) ==> WriteEnds(s', ls)
  {
    StartsRight(a, c);
    RunKeepsInv(Init(a, c), Start(a), before);
    var s, h := Run(Init(a, c), before), Recorded(Init(a, c), Start(a), before);
    var s' := Next(s, BeginWrite(v));
    if s.w.WIdle? && Advanced(s', ls) >= 11 + 8 * h.d + 8 * Dequeued(s', ls) {
      StepKeepsInv(s, h, BeginWrite(v));
      WriterGetsThere(s', Record(s, h, BeginWrite(v)), ls);
    }
  }

  /** The nodes of the values taken out are freed, but for those before `div` and one about to be. */
  ghost predicate FreesLag(s: State, h: History) {
    s.m.frees + h.d + (if s.w.Free? then 1 else 0) == |h.taken|
  }

  lemma FreesGoOn(s: State, h: History, l: Label)
    requires Ahead(s, h) && FreesLag(s, h)
    ensures FreesLag(Next(s, l), Record(s, h, l))
  {
  }

  /** The writer has freed `n` nodes, or is at it. */
  predicate Cleans(s: State, n: nat) {
    || s.m.frees >= n
    || s.w.CompareFirst? || s.w.CompareDiv? || s.w.GetNode? || s.w.ForwardFirst? || s.w.Free?
  }

  lemma CleansFurther(s: State, h: History, l: Label, n: nat)
    requires Ahead(s, h) && FreesLag(s, h) && n <= |h.taken| && Cleans(s, n)
    ensures Cleans(Next(s, l), n) && n <= |Record(s, h, l).taken|
  {
  }

  lemma {:induction false} RunCleans(s: State, h: History, ls: seq<Label>, n: nat)
    requires Inv(s, h) && FreesLag(s, h) && n <= |h.taken| && Cleans(s, n)
    ensures Cleans(Run(s, ls), n)
    decreases |ls|
  {
    if ls != [] {
      StepKeepsInv(s, h, ls[0]);
      LooksAhead(s, h);
      FreesGoOn(s, h, ls[0]);
      CleansFurther(s, h, ls[0], n);
      RunCleans(Next(s, ls[0]), Record(s, h, ls[0]), ls[1..], n);
    }
  }

  lemma {:induction false} FreesLagAlways(s: State, h: History, ls: seq<Label>)
    requires Inv(s, h) && FreesLag(s, h)
    ensures FreesLag(Run(s, ls), Recorded(s, h, ls))
    decreases |ls|
  {
    if ls != [] {
      StepKeepsInv(s, h, ls[0]);
      LooksAhead(s, h);
      FreesGoOn(s, h, ls[0]);
      FreesLagAlways(Next(s, ls[0]), Record(s, h, ls[0]), ls[1..]);
    }
  }

  /** In every reachable state: when a write has ended, a node is freed for each value that had been taken out
      before it began. */
  lemma WritesFree(a: Addr, c: Cell, before: seq<Label>, v: Value, ls: seq<Label>)
    requires v != 0 && Run(Init(a, c), before).w.WIdle?
    ensures var s, h := Run(Init(a, c), before), Recorded(Init(a, c), Start(a), before);
      var s' := Run(Next(s, BeginWrite(v)), ls);
      s'.w.WIdle? ==> s'.m.frees >= |h.taken|
  {
    StartsRight(a, c);
    RunKeepsInv(Init(a, c), Start(a), before);
    FreesLagAlways(Init(a, c), Start(a), before);
    var s, h := Run(Init(a, c), before), Recorded(Init(a, c), Start(a), before);
    StepKeepsInv(s, h, BeginWrite(v));
    RunCleans(Next(s, BeginWrite(v)), Record(s, h, BeginWrite(v)), ls, |h.taken|);
  }

  // ----- Destruction -----

  /** Unlink the first node and free it. */
  function DeleteFirst(m: Memory): Memory {
    Release(Check(m, m.first in m.heap).(first := Load(m, m.first).next), m.first)
  }

  /** The nodes from `first` to `last` are all that is allocated, wherever `div` is. */
  ghost predicate OnlyChain(m: Memory) {
    exists chain, d :: Shape(m.(div := m.last), {}, chain, d)
  }

  lemma DivIsForgotten(m: Memory, chain: seq<Addr>, d: nat)
    requires Shape(m, {}, chain, d)
    ensures OnlyChain(m)
  {
    assert Shape(m.(div := m.last), {}, chain, |chain| - 1);
  }

  lemma FirstIsDeleted(m: Memory, chain: seq<Addr>, d: nat)
    requires Shape(m, {}, chain, d) && m.first != m.div
    ensures d > 0 && m.first in m.heap
    ensures Shape(DeleteFirst(m), {}, chain[1..], d - 1)
  {
    FirstMovesOn(m, chain, d);
    NodeIsReleased(m.(first := Load(m, m.first).next), m.first, chain[1..], d - 1);
  }

  lemma DeleteFirstIgnoresDiv(m: Memory)
    ensures DeleteFirst(m.(div := m.last)) == DeleteFirst(m).(div := DeleteFirst(m).last)
  {
  }

  lemma DeletionGoesOn(m: Memory)
    requires OnlyChain(m) && m.first != m.last
    ensures m.first in m.heap && OnlyChain(DeleteFirst(m))
  {
    DeleteFirstIgnoresDiv(m);
    var m1 := m.(div := m.last);
    var chain, d :| Shape(m1, {}, chain, d);
    FirstIsDeleted(m1, chain, d);
  }

  lemma DeletionEnds(m: Memory)
    requires OnlyChain(m) && m.first == m.last
    ensures m.heap.Keys == {m.last} && m.allocs == m.frees + 1 && !m.fault
  {
    var chain, d :| Shape(m.(div := m.last), {}, chain, d);
    assert chain == [m.last];
  }

  /** `fa_atomic_queue_destroy`, once both threads are done: delete_range_end(first, last) frees
      everything, and nothing twice. */
  method Destroy(s: State, ghost h: History) returns (m: Memory)
    requires Shape(s.m, {}, h.chain, h.d)
    ensures m.heap == map[] && !m.fault
    ensures m.frees == m.allocs == s.m.allocs
  {
    DivIsForgotten(s.m, h.chain, h.d);
    m := s.m;
    while m.first != m.last
      invariant m.allocs == s.m.allocs && OnlyChain(m)
      decreases |m.heap.Keys|
    {
      DeletionGoesOn(m);
      m := DeleteFirst(m);
    }
    DeletionEnds(m);
    m := Release(m, m.last);
  }
}
