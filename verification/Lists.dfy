/** The lists of shared/list.c: immutable nodes shared between lists, with one reference count each.

    The operations work on the whole heap of nodes and lists, so that their contracts can say what
    they do to every other list: `View` gives the elements of each list there is.  An allocation may
    return any address that is not in use.
 */
module Lists {
  import opened Basics

  import opened RefCounts
  import MergeSort

  lemma {:induction false} SomethingIsBigger(s: set<nat>) returns (bound: nat)
    ensures forall x :: x in s ==> x < bound
  {
    if s == {} {
      bound := 0;
    } else {
      var x :| x in s;
      bound := SomethingIsBigger(s - {x});
      assert s == (s - {x}) + {x};
      if x >= bound { bound := x + 1; }
    }
  }

  lemma SomethingIsFree(s: set<nat>)
    ensures exists x: nat :: x != NULL && x !in s
  {
    var bound := SomethingIsBigger(s);
    assert bound + 1 !in s;
  }

  /** What a list's reference says about the node it refers to. */
  lemma NodeOfList<T>(nodes: map<Addr, Node<T>>, handles: map<Handle, Addr>, g: Shadow<T>, h: Handle)
    requires Consistent(nodes, handles, g) && h in handles && h !in g.spent
    ensures handles[h] !in g.building
    ensures handles[h] != NULL ==>
      && Alive(nodes, handles[h])
      && From(g.elems, handles[h]) == [nodes[handles[h]].value] + From(g.elems, nodes[handles[h]].next)
    ensures handles[h] == NULL <==> From(g.elems, handles[h]) == []
  {
    assert ByHandle(h) in g.refs;
    if handles[h] != NULL { ReferredIsAlive(nodes, handles, g, ByHandle(h)); }
  }

  /** What a node's reference says about the next node. */
  lemma NodeAfterNode<T>(nodes: map<Addr, Node<T>>, handles: map<Handle, Addr>, g: Shadow<T>, a: Addr)
    requires Consistent(nodes, handles, g) && Alive(nodes, a) && a !in g.building
    ensures nodes[a].next !in g.building
    ensures nodes[a].next != NULL ==>
      && Alive(nodes, nodes[a].next)
      && From(g.elems, nodes[a].next) == [nodes[nodes[a].next].value] + From(g.elems, nodes[nodes[a].next].next)
    ensures nodes[a].next == NULL <==> From(g.elems, nodes[a].next) == []
  {
    assert ByNode(a) in g.refs && g.refs[ByNode(a)] == nodes[a].next;
    if nodes[a].next != NULL { ReferredIsAlive(nodes, handles, g, ByNode(a)); }
  }

  /** All there is to know about the heap. */
  datatype Heap<T> = Heap(nodes: map<Addr, Node<T>>, handles: map<Handle, Addr>, g: Shadow<T>)

  ghost predicate Ok<T>(s: Heap<T>) { Consistent(s.nodes, s.handles, s.g) }

  /** The elements of every list. */
  ghost function View<T>(s: Heap<T>): map<Handle, seq<T>> {
    map h | h in s.handles && h !in s.g.spent :: From(s.g.elems, s.handles[h])
  }

  /** The reference in passing, and the elements from it on. */
  ghost function Owes<T>(s: Heap<T>): Addr { if Owed in s.g.refs then s.g.refs[Owed] else NULL }

  ghost function Passing<T>(s: Heap<T>): seq<T> { From(s.g.elems, Owes(s)) }

  /** The elements of the list that is being built. */
  ghost function Growing<T>(s: Heap<T>): seq<T> {
    if Built in s.g.refs then From(s.g.elems, s.g.refs[Built]) else []
  }

  /** Where it is being built: its first and last node, and all of them. */
  ghost function Root<T>(s: Heap<T>): Addr { if Built in s.g.refs then s.g.refs[Built] else NULL }

  datatype Site = Site(first: Addr, last: Addr, nodes: set<Addr>)

  ghost function SiteOf<T>(s: Heap<T>): Site { Site(Root(s), s.g.tail, s.g.building) }

  /** Nothing but the reference in passing is different. */
  ghost predicate Same<T>(s: Heap<T>, s': Heap<T>) {
    && View(s') == View(s) && Growing(s') == Growing(s)
    && s'.g.spent == s.g.spent && SiteOf(s') == SiteOf(s) && s'.g.dying == s.g.dying
  }

  // ----- Pieces of operations -----

  /** take_node */
  ghost function Hold<T>(s: Heap<T>, node: Addr): Heap<T>
    requires node == NULL || node in s.nodes
  {
    if node == NULL then s
    else s.(nodes := Taken(s.nodes, node), g := s.g.(refs := s.g.refs[Owed := node]))
  }

  lemma HoldIsSame<T>(s: Heap<T>, node: Addr)
    requires Owes(s) == NULL && (node == NULL || Alive(s.nodes, node))
    ensures Owes(Hold(s, node)) == node && Same(s, Hold(s, node)) && Passing(Hold(s, node)) == From(s.g.elems, node)
  {
  }

  lemma HoldIsRight<T>(s: Heap<T>, node: Addr)
    requires Ok(s) && Owes(s) == NULL && (node == NULL || (Alive(s.nodes, node) && node !in s.g.building))
    ensures Ok(Hold(s, node))
    ensures Owes(Hold(s, node)) == node && Same(s, Hold(s, node)) && Passing(Hold(s, node)) == From(s.g.elems, node)
  {
    if node != NULL { TakeIsConsistent(s.nodes, s.handles, s.g, node); }
    HoldIsSame(s, node);
  }

  /** new_node */
  ghost function New<T>(s: Heap<T>, value: T, node: Addr): Heap<T>
    requires Owed in s.g.refs
  {
    s.(nodes := s.nodes[node := Node(1, Owes(s), value)], g := Linked(s.g, node, value))
  }

  lemma NewIsSame<T>(s: Heap<T>, value: T, node: Addr)
    requires Owed in s.g.refs && Built in s.g.refs && node !in s.nodes && node != NULL && node != s.g.refs[Built]
    requires forall h :: h in s.handles && h !in s.g.spent ==> s.handles[h] != node
    ensures var s' := New(s, value, node);
      Owes(s') == node && Passing(s') == [value] + Passing(s) && Same(s, s')
  {
  }

  lemma NewIsRight<T>(s: Heap<T>, value: T, node: Addr)
    requires Ok(s) && node != NULL && node !in s.nodes
    ensures var s' := New(s, value, node);
      Ok(s') && node !in s.g.building && Owes(s') == node && Passing(s') == [value] + Passing(s) && Same(s, s')
  {
    NewNodeIsConsistent(s.nodes, s.handles, s.g, node, value);
    forall h | h in s.handles && h !in s.g.spent ensures s.handles[h] != node { assert ByHandle(h) in s.g.refs; }
    NewIsSame(s, value, node);
  }

  /** new_list */
  ghost function Put<T>(s: Heap<T>, h: Handle): Heap<T>
    requires Owed in s.g.refs
  {
    s.(handles := s.handles[h := Owes(s)], g := s.g.(refs := Stored(s.g.refs, h)))
  }

  lemma PutIsSame<T>(s: Heap<T>, h: Handle)
    requires Owed in s.g.refs && h !in s.handles && s.g.spent <= s.handles.Keys
    ensures var s' := Put(s, h);
      && Owes(s') == NULL
      && View(s') == View(s)[h := Passing(s)] && Growing(s') == Growing(s)
      && s'.g.spent == s.g.spent && SiteOf(s') == SiteOf(s) && s'.g.dying == s.g.dying
  {
  }

  lemma PutIsRight<T>(s: Heap<T>, h: Handle)
    requires Ok(s) && h !in s.handles
    ensures Ok(Put(s, h))
  {
    NewListIsConsistent(s.nodes, s.handles, s.g, h);
  }

  /** The reference of a list is passed on, before delete_list. */
  ghost function Pass<T>(s: Heap<T>, h: Handle): Heap<T>
    requires h in s.handles
  {
    s.(g := Passed(s.handles, s.g, h))
  }

  lemma PassIsSame<T>(s: Heap<T>, h: Handle)
    requires h in s.handles && h !in s.g.spent && Owes(s) == NULL && Built in s.g.refs
    ensures var s' := Pass(s, h);
      && Owes(s') == s.handles[h] && Passing(s') == View(s)[h]
      && View(s') == View(s) - {h} && Growing(s') == Growing(s)
      && s'.g.spent == s.g.spent + {h} && SiteOf(s') == SiteOf(s) && s'.g.dying == s.g.dying
  {
  }

  lemma PassIsRight<T>(s: Heap<T>, h: Handle)
    requires Ok(s) && h in s.handles && h !in s.g.spent && Owes(s) == NULL
    ensures Ok(Pass(s, h)) && s.handles[h] !in s.g.building
  {
    PassIsConsistent(s.nodes, s.handles, s.g, h);
    NodeOfList(s.nodes, s.handles, s.g, h);
  }

  /** delete_list */
  ghost function Remove<T>(s: Heap<T>, h: Handle): Heap<T> {
    s.(handles := s.handles - {h}, g := s.g.(spent := s.g.spent - {h}))
  }

  lemma RemoveIsSame<T>(s: Heap<T>, h: Handle)
    requires h in s.g.spent
    ensures var s' := Remove(s, h);
      && Owes(s') == Owes(s) && Passing(s') == Passing(s)
      && View(s') == View(s) && Growing(s') == Growing(s)
      && s'.g.spent == s.g.spent - {h} && SiteOf(s') == SiteOf(s) && s'.g.dying == s.g.dying
  {
  }

  lemma RemoveIsRight<T>(s: Heap<T>, h: Handle)
    requires Ok(s) && h in s.g.spent
    ensures Ok(Remove(s, h))
  {
    DeleteIsConsistent(s.nodes, s.handles, s.g, h);
  }

  /** release_node up to the recursive call */
  ghost function GiveUp<T>(s: Heap<T>): Heap<T>
    requires Alive(s.nodes, Owes(s)) && Owed in s.g.refs
  {
    s.(nodes := Less(s.nodes, Owes(s)), g := GivenUp(s.nodes, s.g, Owes(s)))
  }

  lemma GiveUpIsSame<T>(s: Heap<T>)
    requires Alive(s.nodes, Owes(s)) && Owed in s.g.refs && Built in s.g.refs
    ensures var s', a := GiveUp(s), Owes(s);
      && Owes(s') == (if s.nodes[a].count == 1 then s.nodes[a].next else NULL)
      && View(s') == View(s) && Growing(s') == Growing(s)
      && s'.g.spent == s.g.spent && SiteOf(s') == SiteOf(s)
      && s'.g.dying == s.g.dying + (if s.nodes[a].count == 1 then {a} else {})
  {
  }

  lemma GiveUpIsRight<T>(s: Heap<T>)
    requires Ok(s) && Owes(s) != NULL
    ensures Alive(s.nodes, Owes(s)) && Owed in s.g.refs && Built in s.g.refs
    ensures From(s.g.elems, Owes(s)) == [s.nodes[Owes(s)].value] + From(s.g.elems, s.nodes[Owes(s)].next)
    ensures Ok(GiveUp(s))
  {
    DropIsConsistent(s.nodes, s.handles, s.g);
  }

  /** the end of release_node */
  ghost function Free<T>(s: Heap<T>, a: Addr): Heap<T> { s.(nodes := s.nodes - {a},
                         g := s.g.(dying := s.g.dying - {a})) }

  lemma FreeIsSame<T>(s: Heap<T>, a: Addr)
    ensures var s' := Free(s, a);
      && View(s') == View(s) && Growing(s') == Growing(s) && Owes(s') == Owes(s)
      && s'.g.spent == s.g.spent && SiteOf(s') == SiteOf(s) && s'.g.dying == s.g.dying - {a}
  {
  }

  lemma FreeIsRight<T>(s: Heap<T>, a: Addr)
    requires Ok(s) && a in s.g.dying
    ensures Ok(Free(s, a))
  {
    FreeIsConsistent(s.nodes, s.handles, s.g, a);
  }

  lemma ReleaseIsSame<T>(s: Heap<T>, s': Heap<T>, a: Addr)
    requires Alive(s.nodes, a) && s.nodes[a].count == 1 && a == Owes(s) && Owed in s.g.refs && Built in s.g.refs
    requires Same(GiveUp(s), s') && a !in s.g.dying
    ensures Same(s, Free(s', a))
  {
    GiveUpIsSame(s);
    FreeIsSame(s', a);
  }

  lemma OnlyReachedRemain<T>(s: Heap<T>, before: map<Addr, Node<T>>)
    requires Ok(s) && Owes(s) == NULL && s.g.building == {} && s.g.spent == {} && s.g.dying == {}
    requires Shrinks(before, s.nodes) && NULL !in before
    ensures forall a :: a in s.nodes <==> Reached(before, s.handles, a)
  {
    forall a ensures a in s.nodes <==> Reached(before, s.handles, a) {
      RemainingIsReached(before, s.nodes, s.handles, s.g, a);
    }
  }

  /** append_node, after new_node */
  ghost function Attach<T>(s: Heap<T>, a: Addr): Heap<T>
    requires a in s.nodes && (s.g.building != {} ==> s.g.tail in s.nodes)
  {
    s.(nodes := Attached(s.nodes, s.g.building, s.g.tail, a), g := Grown(s.g, a, s.nodes[a].value))
  }

  lemma AttachIsSame<T>(s: Heap<T>, a: Addr)
    requires a in s.nodes && s.nodes[a].next == NULL && (s.g.building != {} ==> Alive(s.nodes, s.g.tail))
    requires a in s.g.elems && s.g.elems[a] == [s.nodes[a].value] && a != NULL && a !in s.g.building
    requires Built in s.g.refs && Owed in s.g.refs
    requires forall h :: h in s.handles && h !in s.g.spent ==> s.handles[h] !in s.g.building
    requires if s.g.building == {} then s.g.refs[Built] == NULL
             else s.g.refs[Built] in s.g.building && s.g.refs[Built] in s.g.elems && NULL !in s.g.building
    ensures var s' := Attach(s, a);
      && Owes(s') == NULL
      && View(s') == View(s) && Growing(s') == Growing(s) + [s.nodes[a].value]
      && s'.g.spent == s.g.spent && s'.g.dying == s.g.dying
  {
  }

  lemma AttachIsRight<T>(s: Heap<T>, a: Addr)
    requires Ok(s) && Owes(s) == a && Alive(s.nodes, a) && a !in s.g.building
    requires s.nodes[a].next == NULL && s.nodes[a].count == 1
    ensures (s.g.building != {} ==> s.g.tail in s.nodes) && Ok(Attach(s, a))
    ensures var s' := Attach(s, a);
      && Owes(s') == NULL
      && View(s') == View(s) && Growing(s') == Growing(s) + [s.nodes[a].value]
      && s'.g.spent == s.g.spent && s'.g.dying == s.g.dying
  {
    AttachIsConsistent(s.nodes, s.handles, s.g, a);
    forall h | h in s.handles && h !in s.g.spent ensures s.handles[h] !in s.g.building {
      NodeOfList(s.nodes, s.handles, s.g, h);
    }
    assert s.g.elems[a] == [s.nodes[a].value] + [];
    AttachIsSame(s, a);
  }

  lemma AttachPlaces<T>(s: Heap<T>, a: Addr)
    requires a in s.nodes && (s.g.building != {} ==> s.g.tail in s.nodes) && Built in s.g.refs
    ensures Attach(s, a).nodes ==
      if s.g.building == {} then s.nodes else s.nodes[s.g.tail := s.nodes[s.g.tail].(next := a)]
    ensures Built in Attach(s, a).g.refs && Attach(s, a).g.tail == a
    ensures Attach(s, a).g.refs[Built] == if s.g.building == {} then a else s.g.refs[Built]
  {
  }

  lemma PlaceIsKnown<T>(s: Heap<T>)
    requires Ok(s)
    ensures Built in s.g.refs && (s.g.refs[Built] == NULL <==> s.g.building == {})
    ensures s.g.building != {} ==> s.g.tail in s.nodes
  {
  }

  ghost function Finish<T>(s: Heap<T>): Heap<T>
    requires Built in s.g.refs
  {
    s.(g := Finished(s.g))
  }

  lemma FinishIsRight<T>(s: Heap<T>)
    requires Ok(s) && Owes(s) == NULL
    ensures Ok(Finish(s))
  {
    FinishIsConsistent(s.nodes, s.handles, s.g);
  }

  lemma FinishIsSame<T>(s: Heap<T>)
    requires Built in s.g.refs
    ensures var s' := Finish(s);
      && Owes(s') == s.g.refs[Built] && Passing(s') == Growing(s)
      && View(s') == View(s) && s'.g.spent == s.g.spent && s'.g.building == {} && s'.g.dying == s.g.dying
  {
  }

  // ----- What the operations compute -----

  function LastOf<T>(s: seq<T>): T
    requires s != []
  {
    s[|s| - 1]
  }

  lemma LastAfter<T>(x: T, s: seq<T>)
    requires s != []
    ensures LastOf([x] + s) == LastOf(s)
  {
  }

  function FirstOf<T>(n: int, s: seq<T>): seq<T> { if n <= 0 then [] else if n >= |s| then s else s[..n] }

  function Without<T>(n: int, s: seq<T>): seq<T> { if n < 0 || n >= |s| then [] else s[n..] }

  /** Unlike what is taken, what is dropped by a negative number is not counted from the front. */
  lemma TakenAndDropped<T>(n: int, s: seq<T>)
    ensures n >= 0 ==> FirstOf(n, s) + Without(n, s) == s && |FirstOf(n, s)| == if n < |s| then n else |s|
    ensures n < 0 ==> FirstOf(n, s) == [] && Without(n, s) == []
  {
  }

  lemma AppendOne<T>(xs: seq<T>, ys: seq<T>)
    requires xs != []
    ensures [xs[0]] + (xs[1..] + ys) == xs + ys
  {
  }

  lemma ReverseOne<T>(xs: seq<T>, ys: seq<T>)
    requires xs != []
    ensures Reversed(xs[1..]) + ([xs[0]] + ys) == Reversed(xs) + ys
  {
  }

  lemma TakeOne<T>(n: int, xs: seq<T>)
    requires n > 0 && xs != []
    ensures [xs[0]] + FirstOf(n - 1, xs[1..]) == FirstOf(n, xs)
  {
  }

  // ----- Intermediate lists come and go -----

  lemma OnlyResult<V>(m: map<Handle, V>, a: Handle, u: V, b: Handle, v: V, c: Handle, w: V)
    requires a !in m && b !in m[a := u] && c !in m[a := u][b := v]
    ensures (m[a := u][b := v] - {b})[c := w] - {a} == m[c := w]
  {
  }

  lemma OnlyLast<V>(m: map<Handle, V>, a: Handle, u: V, b: Handle, v: V, c: Handle, w: V)
    requires a !in m && b !in m[a := u] && c !in m[a := u][b := v]
    ensures m[a := u][b := v][c := w] - {a} - {b} == m[c := w]
  {
  }

  lemma OnlyJoined<V>(m: map<Handle, V>, a: Handle, b: Handle, c: Handle, w: V)
    requires a in m && b in m && c !in m
    ensures m[c := w] - {a} - {b} == (m - {a, b})[c := w]
  {
  }

  lemma OnlyNew<V>(m: map<Handle, V>, a: Handle, u: V, b: Handle, v: V, c: Handle, w: V)
    requires a !in m && b !in m
    ensures ((m[a := u] - {a})[b := v] - {b})[c := w] == m[c := w]
  {
  }

  lemma SizeOfMore<V>(m: map<Handle, V>, h: Handle, v: V)
    requires h !in m
    ensures |m[h := v]| == |m| + 1
  {
    assert m[h := v].Keys == m.Keys + {h};
  }

  lemma SizeOfLess<V>(m: map<Handle, V>, h: Handle)
    requires h in m
    ensures |m - {h}| == |m| - 1
  {
    assert (m - {h}).Keys == m.Keys - {h};
  }

  /** Two lists are destroyed and a new one stays. */
  lemma TwoLess<V>(m: map<Handle, V>, m': map<Handle, V>, a: Handle, b: Handle, c: Handle)
    requires a in m && b in m && a != b && c !in m && c in m' && Keeps(m, m')
    ensures var m2 := m' - {a} - {b};
            Keeps(m - {a, b}, m2) && c in m2 && m2[c] == m'[c] && |m2| == |m'| - 2
    ensures b in m' - {a} && a in m'
  {
    SizeOfLess(m', a);
    SizeOfLess(m' - {a}, b);
  }

  lemma SizeOfJoined<V>(m: map<Handle, V>, a: Handle, b: Handle, c: Handle, w: V)
    requires a in m && b in m && a != b && c !in m
    ensures |(m - {a, b})[c := w]| == |m| - 1
  {
    SizeOfLess(m, a);
    SizeOfLess(m - {a}, b);
    assert m - {a, b} == m - {a} - {b};
    assert (m - {a, b})[c := w].Keys == (m - {a, b}).Keys + {c};
  }

  /** Every list of `m` is still there and has the same elements. */
  ghost predicate Keeps<V>(m: map<Handle, V>, m': map<Handle, V>) {
    forall h :: h in m ==> h in m' && m'[h] == m[h]
  }

  lemma KeepsOn<V>(m: map<Handle, V>, m1: map<Handle, V>, h: Handle, v: V, m2: map<Handle, V>)
    requires Keeps(m, m1) && h !in m1 && Keeps(m1[h := v] - {h}, m2)
    ensures Keeps(m, m2)
  {
    assert m1[h := v] - {h} == m1;
  }

  lemma MergedIn<V>(m: map<Handle, V>, m1: map<Handle, V>, h: Handle, v: V, m2: map<Handle, V>, z: Handle)
    requires Keeps(m, m1) && h !in m1 && Keeps(m1[h := v] - {h}, m2) && z !in m1[h := v] - {h}
    ensures Keeps(m, m2) && z !in m && |m1[h := v]| == |m1| + 1
  {
    KeepsOn(m, m1, h, v, m2);
    SizeOfMore(m1, h, v);
  }

  /** Sorting one half after the other disturbs no other list, nor the half sorted first. */
  lemma StillThere<V>(m: map<Handle, V>, xs: Handle, m1: map<Handle, V>, left: Handle, right: Handle,
                      m2: map<Handle, V>, left': Handle, m3: map<Handle, V>, right': Handle)
    requires Keeps(m - {xs}, m1) && left !in m && right !in m && left != right && left in m1 && right in m1
    requires Keeps(m1 - {left}, m2) && left' in m2 && left' !in m1 - {left}
    requires Keeps(m2 - {right}, m3) && right' in m3 && right' !in m2 - {right}
    ensures right in m2 && m2[right] == m1[right]
    ensures left' in m3 && m3[left'] == m2[left'] && left' != right'
    ensures Keeps(m - {xs}, m3 - {left', right'})
  {
    assert right in m1 - {left} && left' != right;
    assert left' in m2 - {right};
    forall h | h in m - {xs} ensures h in m3 - {left', right'} && m3[h] == m[h] {
      assert h in m1 - {left} && h in m2 - {right};
    }
  }

  class ListHeap<T> {

    /** What `fa_less_than` compares. */
    const rank: T -> real

    var nodes: map<Addr, Node<T>>
    var handles: map<Handle, Addr>
    ghost var g: Shadow<T>

    ghost function Now(): Heap<T>
      reads this
    {
      Heap(nodes, handles, g)
    }

    /** The elements of every list there is. */
    ghost function All(): map<Handle, seq<T>>
      reads this
    {
      View(Now())
    }

    /** The elements of the list that is being built. */
    ghost function Making(): seq<T>
      reads this
    {
      Growing(Now())
    }

    /** The counts are right, and nothing is in passing or about to be freed; a list may be in the
        making. */
    ghost predicate Ready()
      reads this
    {
      Ok(Now()) && Owes(Now()) == NULL && g.spent == {} && g.dying == {}
    }

    /** The state between two calls of the library. */
    ghost predicate Valid()
      reads this
    {
      Ready() && g.building == {}
    }

    constructor (rank: T -> real)
      ensures Valid() && All() == map[] && nodes == map[] && this.rank == rank
    {
      this.rank := rank;
      nodes := map[];
      handles := map[];
      g := Shadow(map[Owed := NULL, Built := NULL], map[], {}, NULL, {}, {});
    }

    // ----- Nodes -----

    method TakeNode(node: Addr) returns (same: Addr)
      requires Ok(Now()) && Owes(Now()) == NULL
      requires node == NULL || (Alive(nodes, node) && node !in g.building)
      modifies this`nodes, this`g
      ensures Ok(Now()) && same == node == Owes(Now()) && Passing(Now()) == old(From(g.elems, node))
      ensures Same(old(Now()), Now())
    {
      ghost var s := Now();
      HoldIsRight(s, node);
      if node != NULL {
        nodes := nodes[node := nodes[node].(count := nodes[node].count + 1)];
        g := g.(refs := g.refs[Owed := node]);
      }
      assert Now() == Hold(s, node);
      same := node;
    }

    /** Takes over a reference to `next`. */
    method NewNode(value: T, next: Addr) returns (node: Addr)
      requires Ok(Now()) && Owes(Now()) == next
      modifies this`nodes, this`g
      ensures Ok(Now()) && node == Owes(Now()) && node != NULL && node !in g.building
      ensures node in nodes && nodes[node] == Node(1, next, value)
      ensures Passing(Now()) == [value] + old(Passing(Now()))
      ensures Same(old(Now()), Now())
    {
      SomethingIsFree(nodes.Keys);
      node :| node != NULL && node !in nodes;
      NewIsRight(Now(), value, node);
      nodes := nodes[node := Node(1, next, value)];
      g := Linked(g, node, value);
    }

    /** Gives up a reference to `node`; if it was the last one, the node is freed after its own
        reference to the next node has been given up. */
    method ReleaseNode(node: Addr)
      requires Ok(Now()) && Owes(Now()) == node
      modifies this`nodes, this`g
      ensures Ok(Now()) && Owes(Now()) == NULL && Same(old(Now()), Now())
      ensures Shrinks(old(nodes), nodes)
      decreases |From(g.elems, node)|
    {
      if node != NULL {
        ghost var s := Now();
        GiveUpIsRight(s);
        GiveUpIsSame(s);
        var next := nodes[node].next;
        g := GivenUp(nodes, g, node);
        nodes := nodes[node := nodes[node].(count := nodes[node].count - 1)];
        assert nodes == Less(s.nodes, node);
        assert Now() == GiveUp(s);
        if nodes[node].count == 0 {
          ReleaseNode(next);
          ghost var s' := Now();
          assert node in s'.g.dying;
          FreeIsSame(s', node);
          FreeIsRight(s', node);
          ReleaseIsSame(s, s', node);
          nodes := nodes - {node};
          g := g.(dying := g.dying - {node});
          assert Now() == Free(s', node);
        }
      }
    }

    /** Takes over a reference to `node`. */
    method NewList(node: Addr) returns (xs: Handle)
      requires Ok(Now()) && Owes(Now()) == node
      modifies this`handles, this`g
      ensures Ok(Now()) && Owes(Now()) == NULL
      ensures xs !in old(All()) && xs !in old(g.spent) && All() == old(All()[xs := Passing(Now())])
      ensures Making() == old(Making())
      ensures g.spent == old(g.spent) && SiteOf(Now()) == old(SiteOf(Now())) && g.dying == old(g.dying)
    {
      SomethingIsFree(handles.Keys);
      xs :| xs !in handles;
      PutIsRight(Now(), xs);
      PutIsSame(Now(), xs);
      handles := handles[xs := node];
      g := g.(refs := Stored(g.refs, xs));
    }

    /** The list gives away its reference. */
    ghost method PassOn(xs: Handle)
      requires Ok(Now()) && Owes(Now()) == NULL && xs in handles && xs !in g.spent
      modifies this`g
      ensures Ok(Now()) && Owes(Now()) == handles[xs] && Passing(Now()) == old(All()[xs])
      ensures All() == old(All()) - {xs} && Making() == old(Making())
      ensures g.spent == old(g.spent) + {xs} && SiteOf(Now()) == old(SiteOf(Now())) && g.dying == old(g.dying)
    {
      PassIsRight(Now(), xs);
      PassIsSame(Now(), xs);
      g := Passed(handles, g, xs);
    }

    method DeleteList(xs: Handle)
      requires Ok(Now()) && xs in g.spent
      modifies this`handles, this`g
      ensures Ok(Now()) && Owes(Now()) == old(Owes(Now())) && Passing(Now()) == old(Passing(Now()))
      ensures All() == old(All()) && Making() == old(Making()) && handles == old(handles) - {xs}
      ensures g.spent == old(g.spent) - {xs} && SiteOf(Now()) == old(SiteOf(Now())) && g.dying == old(g.dying)
    {
      RemoveIsRight(Now(), xs);
      RemoveIsSame(Now(), xs);
      handles := handles - {xs};
      g := g.(spent := g.spent - {xs});
    }

    // ----- Construction and destruction -----

    method Empty() returns (xs: Handle)
      requires Ready()
      modifies this
      ensures Ready() && Making() == old(Making()) && SiteOf(Now()) == old(SiteOf(Now()))
      ensures xs !in old(All()) && All() == old(All())[xs := []]
    {
      xs := NewList(NULL);
    }

    method Single(x: T) returns (xs: Handle)
      requires Ready()
      modifies this
      ensures Ready() && Making() == old(Making()) && SiteOf(Now()) == old(SiteOf(Now()))
      ensures xs !in old(All()) && All() == old(All())[xs := [x]]
    {
      assert Passing(Now()) == [];
      var node := NewNode(x, NULL);
      assert Passing(Now()) == [x];
      xs := NewList(node);
    }

    method Copy(xs: Handle) returns (ys: Handle)
      requires Ready() && xs in All()
      modifies this
      ensures Ready() && Making() == old(Making()) && SiteOf(Now()) == old(SiteOf(Now()))
      ensures ys !in old(All()) && All() == old(All()[ys := All()[xs]])
    {
      NodeOfList(nodes, handles, g, xs);
      var node := TakeNode(handles[xs]);
      ys := NewList(node);
    }

    method Cons(x: T, xs: Handle) returns (ys: Handle)
      requires Ready() && xs in All()
      modifies this
      ensures Ready() && Making() == old(Making()) && SiteOf(Now()) == old(SiteOf(Now()))
      ensures ys !in old(All()) && All() == old(All()[ys := [x] + All()[xs]])
    {
      NodeOfList(nodes, handles, g, xs);
      var next := TakeNode(handles[xs]);
      var node := NewNode(x, next);
      ys := NewList(node);
    }

    /** The letter d: the argument is used up. */
    method DCons(x: T, xs: Handle) returns (ys: Handle)
      requires Ready() && xs in All()
      modifies this
      ensures Ready() && Making() == old(Making()) && SiteOf(Now()) == old(SiteOf(Now()))
      ensures ys !in old(All()) && All() == old((All() - {xs})[ys := [x] + All()[xs]])
    {
      PassOn(xs);
      var node := NewNode(x, handles[xs]);
      assert Passing(Now()) == [x] + old(All()[xs]);
      ys := NewList(node);
      DeleteList(xs);
    }

    method Destroy(xs: Handle)
      requires Ready() && xs in All()
      modifies this
      ensures Ready() && Making() == old(Making()) && SiteOf(Now()) == old(SiteOf(Now()))
      ensures All() == old(All()) - {xs}
      ensures handles == old(handles) - {xs} && Shrinks(old(nodes), nodes)
    {
      PassOn(xs);
      ReleaseNode(handles[xs]);
      DeleteList(xs);
    }

    /** Between two calls of the library, destroying a list frees exactly the nodes that no other list
        leads to. */
    method DestroyAtRest(xs: Handle)
      requires Valid() && xs in All()
      modifies this
      ensures Valid() && All() == old(All()) - {xs}
      ensures forall a :: a in nodes <==> old(Reached(nodes, handles - {xs}, a))
    {
      ghost var before := nodes;
      Destroy(xs);
      OnlyReachedRemain(Now(), before);
    }

    // ----- Access -----

    predicate IsEmpty(xs: Handle)
      requires Ready() && xs in All()
      reads this
      ensures IsEmpty(xs) <==> All()[xs] == []
    {
      NodeOfList(nodes, handles, g, xs);
      handles[xs] == NULL
    }

    function Head(xs: Handle): (x: T)
      requires Ready() && xs in All() && All()[xs] != []
      reads this
      ensures x == All()[xs][0]
    {
      NodeOfList(nodes, handles, g, xs);
      nodes[handles[xs]].value
    }

    method Tail(xs: Handle) returns (ys: Handle)
      requires Ready() && xs in All() && All()[xs] != []
      modifies this
      ensures Ready() && Making() == old(Making()) && SiteOf(Now()) == old(SiteOf(Now()))
      ensures ys !in old(All()) && All() == old(All()[ys := All()[xs][1..]])
    {
      NodeOfList(nodes, handles, g, xs);
      NodeAfterNode(nodes, handles, g, handles[xs]);
      var node := TakeNode(nodes[handles[xs]].next);
      ys := NewList(node);
    }

    method Length(xs: Handle) returns (count: nat)
      requires Ready() && xs in All()
      ensures count == |All()[xs]|
    {
      NodeOfList(nodes, handles, g, xs);
      var node := handles[xs];
      count := 0;
      while node != NULL
        invariant node == NULL || (Alive(nodes, node) && node !in g.building)
        invariant count + |From(g.elems, node)| == |All()[xs]|
        decreases |From(g.elems, node)|
      {
        assert From(g.elems, node) == [nodes[node].value] + From(g.elems, nodes[node].next);
        NodeAfterNode(nodes, handles, g, node);
        node, count := nodes[node].next, count + 1;
      }
    }

    method Last(xs: Handle) returns (x: T)
      requires Ready() && xs in All() && All()[xs] != []
      ensures x == LastOf(All()[xs])
    {
      NodeOfList(nodes, handles, g, xs);
      var node := handles[xs];
      ghost var rest := All()[xs];
      while nodes[node].next != NULL
        invariant Alive(nodes, node) && node !in g.building
        invariant rest == [nodes[node].value] + From(g.elems, nodes[node].next)
        invariant LastOf(rest) == LastOf(All()[xs])
        decreases |rest|
      {
        NodeAfterNode(nodes, handles, g, node);
        rest := From(g.elems, nodes[node].next);
        LastAfter(nodes[node].value, rest);
        node := nodes[node].next;
      }
      NodeAfterNode(nodes, handles, g, node);
      x := nodes[node].value;
    }

    // ----- Appending, taking and dropping -----

    method Append(xs: Handle, ys: Handle) returns (zs: Handle)
      requires Ready() && xs in All() && ys in All()
      modifies this
      ensures Ready() && Making() == old(Making()) && SiteOf(Now()) == old(SiteOf(Now()))
      ensures zs !in old(All()) && All() == old(All()[zs := All()[xs] + All()[ys]])
      decreases |All()[xs]|
    {
      ghost var before := All();
      if IsEmpty(xs) {
        assert [] + before[ys] == before[ys];
        zs := Copy(ys);
      } else {
        var x := Head(xs);
        var xst := Tail(xs);
        var rest := Append(xst, ys);
        zs := DCons(x, rest);
        Destroy(xst);
        AppendOne(before[xs], before[ys]);
        OnlyResult(before, xst, before[xs][1..], rest, before[xs][1..] + before[ys], zs, before[xs] + before[ys]);
      }
    }

    method RevAppend(xs: Handle, ys: Handle) returns (zs: Handle)
      requires Ready() && xs in All() && ys in All()
      modifies this
      ensures Ready() && Making() == old(Making()) && SiteOf(Now()) == old(SiteOf(Now()))
      ensures zs !in old(All()) && All() == old(All()[zs := Reversed(All()[xs]) + All()[ys]])
      decreases |All()[xs]|
    {
      ghost var before := All();
      if IsEmpty(xs) {
        assert [] + before[ys] == before[ys];
        zs := Copy(ys);
      } else {
        var x := Head(xs);
        var xst := Tail(xs);
        var con := Cons(x, ys);
        zs := RevAppend(xst, con);
        Destroy(xst);
        Destroy(con);
        ReverseOne(before[xs], before[ys]);
        OnlyLast(before, xst, before[xs][1..], con, [x] + before[ys], zs, Reversed(before[xs]) + before[ys]);
      }
    }

    method DAppend(xs: Handle, ys: Handle) returns (zs: Handle)
      requires Ready() && xs in All() && ys in All() && xs != ys
      modifies this
      ensures Ready() && Making() == old(Making()) && SiteOf(Now()) == old(SiteOf(Now()))
      ensures zs !in old(All()) && All() == old((All() - {xs, ys})[zs := All()[xs] + All()[ys]])
    {
      ghost var before := All();
      zs := Append(xs, ys);
      Destroy(xs);
      Destroy(ys);
      OnlyJoined(before, xs, ys, zs, before[xs] + before[ys]);
    }

    /** Returns the empty list that the result is built on as well, since it is never destroyed. */
    method Reverse(xs: Handle) returns (ys: Handle, ghost e: Handle)
      requires Ready() && xs in All()
      modifies this
      ensures Ready() && Making() == old(Making()) && SiteOf(Now()) == old(SiteOf(Now()))
      ensures e !in old(All()) && ys !in old(All()) && e != ys
      ensures All() == old(All()[e := []][ys := Reversed(All()[xs])])
    {
      ghost var before := All();
      var empty := Empty();
      e := empty;
      ys := RevAppend(xs, empty);
      assert Reversed(before[xs]) + [] == Reversed(before[xs]);
    }

    method Take(n: int, xs: Handle) returns (ys: Handle)
      requires Ready() && xs in All()
      modifies this
      ensures Ready() && Making() == old(Making()) && SiteOf(Now()) == old(SiteOf(Now()))
      ensures ys !in old(All()) && All() == old(All()[ys := FirstOf(n, All()[xs])])
      decreases |All()[xs]|, 0
    {
      if n <= 0 || IsEmpty(xs) {
        ys := Empty();
      } else {
        ghost var before := All();
        var x := Head(xs);
        var xst := Tail(xs);
        var rest := DTake(n - 1, xst);
        assert All() == (before[xst := before[xs][1..]] - {xst})[rest := FirstOf(n - 1, before[xs][1..])];
        ys := DCons(x, rest);
        TakeOne(n, before[xs]);
        OnlyNew(before, xst, before[xs][1..], rest, FirstOf(n - 1, before[xs][1..]), ys, FirstOf(n, before[xs]));
      }
    }

    method DTake(n: int, xs: Handle) returns (ys: Handle)
      requires Ready() && xs in All()
      modifies this
      ensures Ready() && Making() == old(Making()) && SiteOf(Now()) == old(SiteOf(Now()))
      ensures ys !in old(All()) && All() == old((All() - {xs})[ys := FirstOf(n, All()[xs])])
      decreases |All()[xs]|, 1
    {
      ys := Take(n, xs);
      Destroy(xs);
    }

    /** Unlike for `Take`, a negative number gives the empty list rather than the whole. */
    method Drop(n: int, xs: Handle) returns (ys: Handle)
      requires Ready() && xs in All()
      modifies this
      ensures Ready() && Making() == old(Making()) && SiteOf(Now()) == old(SiteOf(Now()))
      ensures ys !in old(All()) && All() == old(All()[ys := Without(n, All()[xs])])
      decreases |All()[xs]|, 0
    {
      if n < 0 || IsEmpty(xs) {
        ys := Empty();
      } else if n == 0 {
        ys := Copy(xs);
      } else {
        var xst := Tail(xs);
        ys := DDrop(n - 1, xst);
      }
    }

    method DDrop(n: int, xs: Handle) returns (ys: Handle)
      requires Ready() && xs in All()
      modifies this
      ensures Ready() && Making() == old(Making()) && SiteOf(Now()) == old(SiteOf(Now()))
      ensures ys !in old(All()) && All() == old((All() - {xs})[ys := Without(n, All()[xs])])
      decreases |All()[xs]|, 1
    {
      ys := Drop(n, xs);
      Destroy(xs);
    }

    // ----- Building in place -----

    /** begin_node declares an empty place; `AppendNode` fills the place with a node holding `value`, and
        the place becomes the `next` of that node.  `first` and `last` are the node in the variable
        that the place began as, and the node whose `next` the place is now. */
    method AppendNode(value: T, first: Addr, last: Addr) returns (first': Addr, last': Addr)
      requires Ready() && first == Root(Now()) && (first != NULL ==> last == g.tail)
      modifies this
      ensures Ready() && All() == old(All()) && Making() == old(Making()) + [value]
      ensures first' == Root(Now()) != NULL && last' == g.tail
    {
      assert Passing(Now()) == [];
      var node := NewNode(value, NULL);
      ghost var s := Now();
      AttachIsRight(s, node);
      AttachPlaces(s, node);
      PlaceIsKnown(s);
      if first == NULL {
        first' := node;
      } else {
        first' := first;
        nodes := nodes[last := nodes[last].(next := node)];
      }
      g := Grown(g, node, value);
      last' := node;
      assert Now() == Attach(s, node);
    }

    /** The list that was built. */
    method EndNode(first: Addr) returns (xs: Handle)
      requires Ready() && first == Root(Now())
      modifies this
      ensures Valid() && Making() == []
      ensures xs !in old(All()) && All() == old(All())[xs := old(Making())]
    {
      FinishIsRight(Now());
      FinishIsSame(Now());
      g := Finished(g);
      xs := NewList(first);
    }

    // ----- Sorting -----

    /** Appends the head of a list to the list being built, and goes on to its tail. */
    method MoveHead(xs: Handle, first: Addr, last: Addr) returns (xs': Handle, first': Addr, last': Addr)
      requires Ready() && xs in All() && All()[xs] != []
      requires first == Root(Now()) && (first != NULL ==> last == g.tail)
      modifies this
      ensures Ready() && first' == Root(Now()) && last' == g.tail
      ensures xs' !in old(All()) && All() == old(All()[xs' := All()[xs][1..]])
      ensures Making() == old(Making() + [All()[xs][0]]) && |All()| == old(|All()|) + 1
    {
      ghost var before := All();
      var x := Head(xs);
      first', last' := AppendNode(x, first, last);
      xs' := Tail(xs);
      SizeOfMore(before, xs', before[xs][1..]);
    }

    /** One round of the loop of `merge`: the head that comes first is appended to the list being built. */
    method MergeHead(xs: Handle, ys: Handle, first: Addr, last: Addr)
      returns (xs': Handle, ys': Handle, first': Addr, last': Addr)
      requires Ready() && xs in All() && ys in All() && All()[xs] != [] && All()[ys] != []
      requires first == Root(Now()) && (first != NULL ==> last == g.tail)
      modifies this
      ensures Ready() && Keeps(old(All()), All()) && xs' in All() && ys' in All()
      ensures first' == Root(Now()) && last' == g.tail
      ensures Making() + MergeSort.Merged(rank, All()[xs'], All()[ys']) ==
        old(Making() + MergeSort.Merged(rank, All()[xs], All()[ys]))
      ensures |All()[xs']| + |All()[ys']| < old(|All()[xs]| + |All()[ys]|)
      ensures |All()| == old(|All()|) + 1 && (All()[xs'] != [] || All()[ys'] != [])
      ensures 1 + MergeSort.Rounds(rank, All()[xs'], All()[ys']) == old(MergeSort.Rounds(rank, All()[xs], All()[ys]))
    {
      MergeSort.MergedGoesOn(rank, Making(), All()[xs], All()[ys]);
      xs', ys' := xs, ys;
      if rank(Head(xs)) < rank(Head(ys)) {
        xs', first', last' := MoveHead(xs, first, last);
      } else {
        ys', first', last' := MoveHead(ys, first, last);
      }
    }

    /** What is left of one of the lists is appended to the list that was built. */
    method MergeRest(node: Handle, xs: Handle, ys: Handle) returns (zs: Handle)
      requires Valid() && node in All() && xs in All() && ys in All() && (All()[xs] == [] || All()[ys] == [])
      modifies this
      ensures Valid() && Keeps(old(All()) - {node}, All()) && zs in All() && zs !in old(All()) - {node}
      ensures All()[zs] == old(All()[node] + MergeSort.Merged(rank, All()[xs], All()[ys]))
      ensures |All()| == old(|All()| + if All()[xs] == [] && All()[ys] == [] then 0 else 1)
    {
      ghost var before := All();
      if !IsEmpty(xs) {
        zs := Append(node, xs);
        SizeOfMore(before, zs, before[node] + before[xs]);
      } else if !IsEmpty(ys) {
        zs := Append(node, ys);
        SizeOfMore(before, zs, before[node] + before[ys]);
      } else {
        zs := node;
      }
    }

    method MergeHeads(xs: Handle, ys: Handle) returns (xt: Handle, yt: Handle, first: Addr)
      requires Valid() && xs in All() && ys in All()
      modifies this
      ensures Ready() && Keeps(old(All()), All()) && xt in All() && yt in All() && first == Root(Now())
      ensures All()[xt] == [] || All()[yt] == []
      ensures Making() + MergeSort.Merged(rank, All()[xt], All()[yt]) ==
        old(MergeSort.Merged(rank, All()[xs], All()[ys]))
      ensures |All()| == old(|All()| + MergeSort.Rounds(rank, All()[xs], All()[ys]))
      ensures All()[xt] == [] && All()[yt] == [] <==> old(All()[xs] == [] && All()[ys] == [])
    {
      ghost var before, merged := All(), MergeSort.Merged(rank, All()[xs], All()[ys]);
      ghost var rounds := MergeSort.Rounds(rank, All()[xs], All()[ys]);
      var last := NULL;
      xt, yt, first := xs, ys, NULL;
      PlaceIsKnown(Now());
      assert Making() == [] && [] + merged == merged;
      while !IsEmpty(xt) && !IsEmpty(yt)
        invariant xt in All() && yt in All() && Ready() && Keeps(before, All())
        invariant first == Root(Now()) && (first != NULL ==> last == g.tail)
        invariant Making() + MergeSort.Merged(rank, All()[xt], All()[yt]) == merged
        invariant |All()| + MergeSort.Rounds(rank, All()[xt], All()[yt]) == |before| + rounds
        invariant All()[xt] == [] && All()[yt] == [] <==> before[xs] == [] && before[ys] == []
        decreases |All()[xt]| + |All()[yt]|
      {
        xt, yt, first, last := MergeHead(xt, yt, first, last);
      }
    }

    /** The tails it goes through, and the list it builds when something is left to append to it, are
        never destroyed. */
    method Merge(xs: Handle, ys: Handle) returns (zs: Handle)
      requires Valid() && xs in All() && ys in All()
      modifies this
      ensures Valid() && Keeps(old(All()), All())
      ensures zs !in old(All()) && zs in All()
      ensures All()[zs] == old(MergeSort.Merged(rank, All()[xs], All()[ys]))
      ensures |All()| == old(|All()| + 1 + MergeSort.MergeLeaks(rank, All()[xs], All()[ys]))
    {
      ghost var before, s, t := All(), All()[xs], All()[ys];
      var xt, yt, first := MergeHeads(xs, ys);
      ghost var during, made := All(), Making();
      var node := EndNode(first);
      zs := MergeRest(node, xt, yt);
      MergedIn(before, during, node, made, All(), zs);
      assert |All()| == |before| + 1 + MergeSort.MergeLeaks(rank, s, t);
    }

    method DMerge(xs: Handle, ys: Handle) returns (zs: Handle)
      requires Valid() && xs in All() && ys in All() && xs != ys
      modifies this
      ensures Valid() && Keeps(old(All()) - {xs, ys}, All())
      ensures zs !in old(All()) && zs in All()
      ensures All()[zs] == old(MergeSort.Merged(rank, All()[xs], All()[ys]))
      ensures |All()| + 1 == old(|All()| + MergeSort.MergeLeaks(rank, All()[xs], All()[ys]))
    {
      ghost var before := All();
      zs := Merge(xs, ys);
      TwoLess(before, All(), xs, ys, zs);
      Destroy(xs);
      Destroy(ys);
    }

    /** Halves that are in order already are appended, others are merged. */
    method DGlue(xs: Handle, ys: Handle) returns (zs: Handle)
      requires Valid() && xs in All() && ys in All() && xs != ys && All()[xs] != [] && All()[ys] != []
      modifies this
      ensures Valid() && Keeps(old(All()) - {xs, ys}, All())
      ensures zs !in old(All()) && zs in All()
      ensures All()[zs] == old(MergeSort.Glued(rank, All()[xs], All()[ys]))
      ensures |All()| + 1 == old(|All()| + MergeSort.GlueLeaks(rank, All()[xs], All()[ys]))
    {
      ghost var before, s, t := All(), All()[xs], All()[ys];
      var x := Last(xs);
      if rank(x) < rank(Head(ys)) {
        assert MergeSort.GlueLeaks(rank, s, t) == 0;
        zs := DAppend(xs, ys);
        SizeOfJoined(before, xs, ys, zs, before[xs] + before[ys]);
      } else {
        zs := DMerge(xs, ys);
      }
    }

    method Halve(mid: nat, xs: Handle) returns (left: Handle, right: Handle)
      requires Valid() && xs in All() && 0 < mid < |All()[xs]|
      modifies this
      ensures Valid() && Keeps(old(All()) - {xs}, All())
      ensures left !in old(All()) && right !in old(All()) && left != right && left in All() && right in All()
      ensures All()[left] == old(All()[xs][..mid]) && All()[right] == old(All()[xs][mid..])
      ensures |All()| == old(|All()|) + 1
    {
      ghost var before := All();
      left := Take(mid, xs);
      ghost var during := All();
      SizeOfMore(before, left, before[xs][..mid]);
      right := DDrop(mid, xs);
      SizeOfLess(during, xs);
      SizeOfMore(during - {xs}, right, before[xs][mid..]);
    }

    method DMergeSort(xs: Handle) returns (ys: Handle)
      requires Valid() && xs in All()
      modifies this
      ensures Valid() && Keeps(old(All()) - {xs}, All())
      ensures ys !in old(All()) - {xs} && ys in All()
      ensures All()[ys] == old(MergeSort.Sort(rank, All()[xs]))
      ensures |All()| == old(|All()| + MergeSort.SortLeaks(rank, All()[xs]))
      decreases |All()[xs]|
    {
      var len := Length(xs);
      var mid := len / 2;
      if len <= 1 {
        return xs;
      }
      ghost var before := All();
      var left, right := Halve(mid, xs);
      ghost var halved := All();
      var left' := DMergeSort(left);
      ghost var sorted := All();
      var right' := DMergeSort(right);
      StillThere(before, xs, halved, left, right, sorted, left', All(), right');
      ys := DGlue(left', right');
    }

    /** The list itself stays as it is. */
    method Sort(xs: Handle) returns (ys: Handle)
      requires Valid() && xs in All()
      modifies this
      ensures Valid() && Keeps(old(All()), All())
      ensures ys !in old(All()) && ys in All()
      ensures Sorted(rank, All()[ys]) && multiset(All()[ys]) == old(multiset(All()[xs]))
      ensures |All()| == old(|All()| + 1 + MergeSort.SortLeaks(rank, All()[xs]))
    {
      ghost var before := All();
      MergeSort.SortIsSorted(rank, All()[xs]);
      MergeSort.SortIsPermutation(rank, All()[xs]);
      var copy := Copy(xs);
      SizeOfMore(before, copy, before[xs]);
      ys := DMergeSort(copy);
      KeepsOn(before, before, copy, before[xs], All());
    }
  }
}
