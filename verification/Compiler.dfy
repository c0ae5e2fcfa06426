/** `simplify` of shared/signal.c: loops and delays become reads and writes of numbered buses,
    and a partition of the bus numbers keeps the sub-programs apart.
 */
module Compiler {
  import opened Basics
  import opened Signals

  /** The bus numbers o, o+d, o+2d, ... still free for a sub-program. */
  datatype Part = Part(o: int, d: int) {
    predicate Valid() { 0 <= o && 0 < d }

    ghost predicate Has(c: int) {
      exists k: nat :: c == Nth(k)
    }

    function Nth(k: int): int { o + k * d }
  }

  const INIT_PART := Part(0, 1)

  /** Where `split_part` starts the right half: the code as shipped, or one step inside the parent. */
  datatype Split = Shipped | Inside

  function RunPart(p: Part): (int, Part) {
    (p.o, Part(p.o + p.d, p.d))
  }

  function SplitPart(sp: Split, p: Part): (Part, Part) {
    (Part(p.o, p.d * 2), Part(if sp.Shipped? then p.d else p.o + p.d, p.d * 2))
  }

  /** Maps bus numbers to negative channels and back. */
  function NegBus(x: int): int { (x + 1) * (-1) }

  // ----- Applying a loop's function to an input signal -----

  /** The body `s` with its `k`-th free variable replaced by `Input(c)`. */
  function Subst(s: Signal, k: nat, c: int): (r: Signal)
    ensures Size(r) == Size(s)
  {
    match s
    case Var(i) => if i == k then Input(c) else if i > k then Var(i - 1) else s
    case Lift(f, a) => Lift(f, Subst(a, k, c))
    case Lift2(g, a, b) => Lift2(g, Subst(a, k, c), Subst(b, k, c))
    case Loop(b) => Loop(Subst(b, k + 1, c))
    case Delay(n, a) => Delay(n, Subst(a, k, c))
    case Output(n, o, a) => Output(n, o, Subst(a, k, c))
    case Time => s
    case Constant(_) => s
    case Input(_) => s
  }

  function Size(s: Signal): nat {
    match s
    case Lift(_, a) => 1 + Size(a)
    case Lift2(_, a, b) => 1 + Size(a) + Size(b)
    case Loop(b) => 1 + Size(b)
    case Delay(_, a) => 1 + Size(a)
    case Output(_, _, a) => 1 + Size(a)
    case Time => 1
    case Constant(_) => 1
    case Input(_) => 1
    case Var(_) => 1
  }

  // ----- The compiler -----

  function Simplify(sp: Split, p: Part, s: Signal): Signal
    decreases Size(s)
  {
    match s
    case Loop(b) =>
      var (bus, p1) := RunPart(p);
      var channel := NegBus(bus);
      Output(1, channel, Simplify(sp, p1, Subst(b, 0, channel)))
    case Delay(n, a) =>
      var (bus, p1) := RunPart(p);
      var channel := NegBus(bus);
      Former(Input(channel), Output(n, channel, Simplify(sp, p1, a)))
    case Lift(f, a) => Lift(f, Simplify(sp, p, a))
    case Lift2(g, a, b) =>
      var (p1, p2) := SplitPart(sp, p);
      Lift2(g, Simplify(sp, p1, a), Simplify(sp, p2, b))
    case Output(n, c, a) => Output(n, c, Simplify(sp, p, a))
    case Time => s
    case Constant(_) => s
    case Input(_) => s
    case Var(_) => s
  }

  /** The buses handed out while compiling `s`, in order of allocation. */
  function Buses(sp: Split, p: Part, s: Signal): seq<int>
    decreases s
  {
    match s
    case Loop(b) => [RunPart(p).0] + Buses(sp, RunPart(p).1, b)
    case Delay(_, a) => [RunPart(p).0] + Buses(sp, RunPart(p).1, a)
    case Lift(_, a) => Buses(sp, p, a)
    case Lift2(_, a, b) => Buses(sp, SplitPart(sp, p).0, a) + Buses(sp, SplitPart(sp, p).1, b)
    case Output(_, _, a) => Buses(sp, p, a)
    case Time => []
    case Constant(_) => []
    case Input(_) => []
    case Var(_) => []
  }

  /** The buses a compiled program reads or writes. */
  function Touched(s: Signal): set<int> {
    match s
    case Input(c) => if c < 0 then {NegBus(c)} else {}
    case Output(_, c, a) => (if c < 0 then {NegBus(c)} else {}) + Touched(a)
    case Lift(_, a) => Touched(a)
    case Lift2(_, a, b) => Touched(a) + Touched(b)
    case Loop(b) => Touched(b)
    case Delay(_, a) => Touched(a)
    case Time => {}
    case Constant(_) => {}
    case Var(_) => {}
  }

  lemma {:induction false} SubstKeepsBuses(sp: Split, p: Part, s: Signal, k: nat, c: int)
    ensures Buses(sp, p, Subst(s, k, c)) == Buses(sp, p, s)
    decreases s
  {
    match s
    case Loop(b) => SubstKeepsBuses(sp, RunPart(p).1, b, k + 1, c);
    case Delay(_, a) => SubstKeepsBuses(sp, RunPart(p).1, a, k, c);
    case Lift(_, a) => SubstKeepsBuses(sp, p, a, k, c);
    case Lift2(_, a, b) =>
      SubstKeepsBuses(sp, SplitPart(sp, p).0, a, k, c);
      SubstKeepsBuses(sp, SplitPart(sp, p).1, b, k, c);
    case Output(_, _, a) => SubstKeepsBuses(sp, p, a, k, c);
    case _ =>
  }

  lemma {:induction false} SubstTouches(s: Signal, k: nat, c: int)
    ensures Touched(s) <= Touched(Subst(s, k, c)) <= Touched(s) + (if c < 0 then {NegBus(c)} else {})
  {
    match s
    case Loop(b) => SubstTouches(b, k + 1, c);
    case Delay(_, a) => SubstTouches(a, k, c);
    case Lift(_, a) => SubstTouches(a, k, c);
    case Lift2(_, a, b) => SubstTouches(a, k, c); SubstTouches(b, k, c);
    case Output(_, _, a) => SubstTouches(a, k, c);
    case _ =>
  }

  /** `Buses` is the compiler's own account: besides the buses the source names itself,
      the compiled program touches exactly the allocated ones. */
  lemma {:induction false} CompiledTouchesItsBuses(sp: Split, p: Part, s: Signal)
    requires p.Valid()
    ensures Touched(Simplify(sp, p, s)) == Touched(s) + (set c | c in Buses(sp, p, s))
    decreases Size(s)
  {
    match s
    case Loop(b) =>
      var (bus, p1) := RunPart(p);
      var b' := Subst(b, 0, NegBus(bus));
      CompiledTouchesItsBuses(sp, p1, b');
      SubstKeepsBuses(sp, p1, b, 0, NegBus(bus));
      SubstTouches(b, 0, NegBus(bus));
    case Delay(_, a) => CompiledTouchesItsBuses(sp, RunPart(p).1, a);
    case Lift(_, a) => CompiledTouchesItsBuses(sp, p, a);
    case Lift2(_, a, b) =>
      CompiledTouchesItsBuses(sp, SplitPart(sp, p).0, a);
      CompiledTouchesItsBuses(sp, SplitPart(sp, p).1, b);
    case Output(_, _, a) => CompiledTouchesItsBuses(sp, p, a);
    case _ =>
  }

  // ----- The allocator keeps sub-programs apart -----

  ghost predicate Disjoint(p: Part, q: Part) {
    forall c :: !(p.Has(c) && q.Has(c))
  }

  ghost predicate Within(p: Part, q: Part) {
    forall c :: p.Has(c) ==> q.Has(c)
  }

  ghost predicate Splits(p: Part, l: Part, r: Part) {
    Disjoint(l, r) && (forall c :: p.Has(c) <==> l.Has(c) || r.Has(c))
  }

  /** Starting the right half one step inside the parent divides any partition in two. */
  lemma InsideSplits(p: Part)
    requires p.Valid()
    ensures Splits(p, SplitPart(Inside, p).0, SplitPart(Inside, p).1)
  {
    var (l, r) := SplitPart(Inside, p);
    forall c ensures p.Has(c) <==> l.Has(c) || r.Has(c) {
      if p.Has(c) {
        var k: nat :| c == p.Nth(k);
        var h: nat := k / 2;
        assert k == 2 * h || k == 2 * h + 1;
        assert if k == 2 * h then c == l.Nth(h) else c == r.Nth(h);
      }
      if l.Has(c) {
        var k: nat :| c == l.Nth(k);
        assert c == p.Nth(2 * k);
      }
      if r.Has(c) {
        var k: nat :| c == r.Nth(k);
        assert c == p.Nth(2 * k + 1);
      }
    }
    forall c ensures !(l.Has(c) && r.Has(c)) {
      if l.Has(c) {
        var k: nat :| c == l.Nth(k);
        forall j: nat ensures c != r.Nth(j) {
          assert l.Nth(k) == p.o + p.d * (2 * k) && r.Nth(j) == p.o + p.d * (2 * j + 1);
          if k <= j { ScaleStrictly(p.d, 2 * k, 2 * j + 1); } else { ScaleStrictly(p.d, 2 * j + 1, 2 * k); }
        }
      }
    }
  }

  lemma ScaleStrictly(d: int, x: int, y: int)
    requires d > 0 && x < y
    ensures d * x < d * y
  {
    assert d * (y - x) > 0;
  }

  /** The shipped offset divides its parent in two exactly when the parent starts at bus 0. */
  lemma ShippedSplitsIff(p: Part)
    requires p.Valid()
    ensures Splits(p, SplitPart(Shipped, p).0, SplitPart(Shipped, p).1) <==> p.o == 0
  {
    var (l, r) := SplitPart(Shipped, p);
    if p.o == 0 {
      InsideSplits(p);
    } else {
      assert r.Nth(0) == p.d && r.Has(p.d);
      if p.Has(p.d) {
        var k: nat :| p.d == p.Nth(k);
        assert p.o == p.d * (1 - k);
        if k > 0 { ScaleStrictly(p.d, 0, k); }
        assert k == 0 && l.Nth(0) == p.d && l.Has(p.d);
      }
    }
  }

  lemma {:induction false} BusesStayInPart(p: Part, s: Signal)
    requires p.Valid()
    ensures forall i :: 0 <= i < |Buses(Inside, p, s)| ==> p.Has(Buses(Inside, p, s)[i])
    decreases s
  {
    match s
    case Loop(b) => RunStaysInPart(p); BusesStayInPart(RunPart(p).1, b);
    case Delay(_, a) => RunStaysInPart(p); BusesStayInPart(RunPart(p).1, a);
    case Lift(_, a) => BusesStayInPart(p, a);
    case Lift2(_, a, b) =>
      InsideSplits(p);
      BusesStayInPart(SplitPart(Inside, p).0, a);
      BusesStayInPart(SplitPart(Inside, p).1, b);
    case Output(_, _, a) => BusesStayInPart(p, a);
    case _ =>
  }

  lemma RunStaysInPart(p: Part)
    requires p.Valid()
    ensures p.Has(p.o) && Within(RunPart(p).1, p) && !RunPart(p).1.Has(p.o)
  {
    var q := RunPart(p).1;
    assert p.o == p.Nth(0);
    forall c | q.Has(c) ensures p.Has(c) && c != p.o {
      var k: nat :| c == q.Nth(k);
      assert c == p.Nth(k + 1);
      assert k * p.d >= 0;
    }
  }

  /** With the inside split, no bus is handed out twice while one signal is compiled. */
  lemma {:induction false} AllocatedBusesAreDistinct(p: Part, s: Signal)
    requires p.Valid()
    ensures Distinct(Buses(Inside, p, s))
    decreases s
  {
    match s
    case Loop(b) => RunStaysInPart(p); BusesStayInPart(RunPart(p).1, b); AllocatedBusesAreDistinct(RunPart(p).1, b);
    case Delay(_, a) => RunStaysInPart(p); BusesStayInPart(RunPart(p).1, a); AllocatedBusesAreDistinct(RunPart(p).1, a);
    case Lift(_, a) => AllocatedBusesAreDistinct(p, a);
    case Lift2(_, a, b) =>
      var (l, r) := SplitPart(Inside, p);
      InsideSplits(p);
      BusesStayInPart(l, a); AllocatedBusesAreDistinct(l, a);
      BusesStayInPart(r, b); AllocatedBusesAreDistinct(r, b);
    case Output(_, _, a) => AllocatedBusesAreDistinct(p, a);
    case _ =>
  }

  // ----- How many buses a signal needs -----

  function Max(x: nat, y: nat): nat { if x < y then y else x }

  /** The most loop and delay nodes on a path from the root. */
  function BusDepth(s: Signal): nat {
    match s
    case Loop(b) => 1 + BusDepth(b)
    case Delay(_, a) => 1 + BusDepth(a)
    case Lift(_, a) => BusDepth(a)
    case Lift2(_, a, b) => Max(BusDepth(a), BusDepth(b))
    case Output(_, _, a) => BusDepth(a)
    case _ => 0
  }

  /** The most binary nodes on a path from the root. */
  function SplitDepth(s: Signal): nat {
    match s
    case Loop(b) => SplitDepth(b)
    case Delay(_, a) => SplitDepth(a)
    case Lift(_, a) => SplitDepth(a)
    case Lift2(_, a, b) => 1 + Max(SplitDepth(a), SplitDepth(b))
    case Output(_, _, a) => SplitDepth(a)
    case _ => 0
  }

  lemma Scale(d: int, x: int, y: int)
    requires d >= 0 && x <= y
    ensures d * x <= d * y
  {
  }

  /** Every bus allocated from `p` lies below the `k * 2^l`-th element of `p`. */
  lemma {:induction false} BusBoundIn(sp: Split, p: Part, s: Signal, k: nat, l: nat)
    requires p.Valid() && BusDepth(s) <= k && SplitDepth(s) <= l
    ensures forall i :: 0 <= i < |Buses(sp, p, s)| ==> 0 <= Buses(sp, p, s)[i] <= p.o + p.d * (k * Pow2(l) - 1)
    decreases s
  {
    match s
    case Loop(b) => RunBound(p, k, l); BusBoundIn(sp, RunPart(p).1, b, k - 1, l);
    case Delay(_, a) => RunBound(p, k, l); BusBoundIn(sp, RunPart(p).1, a, k - 1, l);
    case Lift(_, a) => BusBoundIn(sp, p, a, k, l);
    case Lift2(_, a, b) =>
      var (p1, p2) := SplitPart(sp, p);
      BusBoundIn(sp, p1, a, k, l - 1);
      BusBoundIn(sp, p2, b, k, l - 1);
      SplitBound(sp, p, k, l);
    case Output(_, _, a) => BusBoundIn(sp, p, a, k, l);
    case _ =>
  }

  lemma SplitBound(sp: Split, p: Part, k: nat, l: nat)
    requires p.Valid() && l > 0
    ensures var bound := p.o + p.d * (k * Pow2(l) - 1); var (q, r) := SplitPart(sp, p);
            q.o + q.d * (k * Pow2(l - 1) - 1) <= bound && r.o + r.d * (k * Pow2(l - 1) - 1) <= bound
  {
    var x := k * Pow2(l - 1);
    assert k * Pow2(l) == 2 * x;
    assert p.d * 2 * (x - 1) == p.d * (2 * x - 1) - p.d;
  }

  lemma RunBound(p: Part, k: nat, l: nat)
    requires p.Valid() && k > 0
    ensures p.o <= p.o + p.d * (k * Pow2(l) - 1)
    ensures var q := RunPart(p).1; q.o + q.d * ((k - 1) * Pow2(l) - 1) <= p.o + p.d * (k * Pow2(l) - 1)
  {
    var x := Pow2(l);
    assert k * x >= 1 by { Scale(x, 1, k); }
    Scale(p.d, 0, k * x - 1);
    assert (k - 1) * x == k * x - x;
    var q := RunPart(p).1;
    assert q.o + q.d * ((k - 1) * x - 1) == p.o + p.d * ((k - 1) * x);
    Scale(p.d, (k - 1) * x, k * x - 1);
  }

  /** Compiling from the initial partition uses only buses below K * 2^L, whichever split is used. */
  lemma BusBound(sp: Split, s: Signal)
    ensures forall i :: 0 <= i < |Buses(sp, INIT_PART, s)| ==>
              0 <= Buses(sp, INIT_PART, s)[i] < BusDepth(s) * Pow2(SplitDepth(s))
  {
    BusBoundIn(sp, INIT_PART, s, BusDepth(s), SplitDepth(s));
  }
}
