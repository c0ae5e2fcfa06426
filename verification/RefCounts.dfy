/** The node heap of shared/list.c as values: nodes with one reference count each, shared between
    lists, and what it means for the counts to be right. */
module RefCounts {

  type Addr = nat

  const NULL: Addr := 0

  /** A list is a handle that refers to a node, or to nothing. */
  type Handle = nat

  datatype Node<T> = Node(count: nat, next: Addr, value: T)

  /** Whatever may refer to a node: a list, another node, a reference in passing between two calls
      (taken and not yet stored, or dropped from a list and not yet released), and the list that is
      being built in place. */
  datatype Ref = ByHandle(h: Handle) | ByNode(a: Addr) | Owed | Built

  /** What the counts stand for: the references there are, and the elements from each node on.
      `building` are the nodes of the list being built and `tail` is the last of them; `spent` are the
      lists whose reference has been passed on and which are about to be deleted, and `dying` the nodes
      without references, which are about to be freed. */
  datatype Shadow<T> = Shadow(refs: map<Ref, Addr>, elems: map<Addr, seq<T>>,
                              building: set<Addr>, tail: Addr, spent: set<Handle>, dying: set<Addr>)

  // ----- Counting references -----

  ghost function Referrers(refs: map<Ref, Addr>, a: Addr): set<Ref> {
    set r | r in refs && refs[r] == a
  }

  function One(b: bool): nat { if b then 1 else 0 }

  lemma AddRef(refs: map<Ref, Addr>, r: Ref, v: Addr, a: Addr)
    requires r !in refs
    ensures |Referrers(refs[r := v], a)| == |Referrers(refs, a)| + One(v == a)
  {
    assert Referrers(refs[r := v], a) == Referrers(refs, a) + (if v == a then {r} else {});
  }

  lemma DropRef(refs: map<Ref, Addr>, r: Ref, a: Addr)
    requires r in refs
    ensures |Referrers(refs - {r}, a)| + One(refs[r] == a) == |Referrers(refs, a)|
  {
    assert Referrers(refs, a) == Referrers(refs - {r}, a) + (if refs[r] == a then {r} else {});
  }

  lemma SetRef(refs: map<Ref, Addr>, r: Ref, v: Addr, a: Addr)
    requires r in refs
    ensures |Referrers(refs[r := v], a)| + One(refs[r] == a) == |Referrers(refs, a)| + One(v == a)
  {
    assert refs[r := v] == (refs - {r})[r := v];
    DropRef(refs, r, a);
    AddRef(refs - {r}, r, v, a);
  }

  // ----- Invariant -----

  /** A node without references stays until what follows it has been released. */
  predicate Alive<T>(nodes: map<Addr, Node<T>>, a: Addr) { a in nodes && nodes[a].count > 0 }

  /** Every list and every live node is a reference, and every reference is to a live node or null. */
  ghost predicate Wired<T>(nodes: map<Addr, Node<T>>, handles: map<Handle, Addr>, refs: map<Ref, Addr>,
                           spent: set<Handle>) {
    && NULL !in nodes && Owed in refs && Built in refs && spent <= handles.Keys
    && (forall h {:trigger ByHandle(h)} :: ByHandle(h) in refs <==> h in handles && h !in spent)
    && (forall h {:trigger ByHandle(h)} :: h in handles && h !in spent ==> refs[ByHandle(h)] == handles[h])
    && (forall a {:trigger ByNode(a)} :: ByNode(a) in refs <==> Alive(nodes, a))
    && (forall a {:trigger ByNode(a)} :: Alive(nodes, a) ==> refs[ByNode(a)] == nodes[a].next)
    && (forall r {:trigger refs[r]} :: r in refs ==> refs[r] == NULL || refs[r] in nodes)
  }

  /** The count of a node is the number of references to it. */
  ghost predicate Counted<T>(nodes: map<Addr, Node<T>>, refs: map<Ref, Addr>) {
    forall a :: a in nodes ==> nodes[a].count == |Referrers(refs, a)|
  }

  /** The elements from a node on. */
  function From<T>(elems: map<Addr, seq<T>>, a: Addr): seq<T> {
    if a != NULL && a in elems then elems[a] else []
  }

  ghost predicate Spelled<T>(nodes: map<Addr, Node<T>>, elems: map<Addr, seq<T>>) {
    forall a {:trigger Alive(nodes, a)} :: Alive(nodes, a) ==>
      a in elems && elems[a] == [nodes[a].value] + From(elems, nodes[a].next)
  }

  /** The list being built is reached from nowhere else and ends at `tail`. */
  ghost predicate Apart<T>(nodes: map<Addr, Node<T>>, refs: map<Ref, Addr>, building: set<Addr>, tail: Addr) {
    && Built in refs
    && (refs[Built] == NULL <==> building == {})
    && (refs[Built] != NULL ==> refs[Built] in building && tail in building)
    && (forall a :: a in building ==> Alive(nodes, a))
    && (forall a :: a in building ==> if a == tail then nodes[a].next == NULL else nodes[a].next in building)
    && (forall r {:trigger refs[r]} :: r in refs && refs[r] in building ==>
          r == Built || (r.ByNode? && r.a in building))
  }

  ghost predicate Noted<T>(nodes: map<Addr, Node<T>>, dying: set<Addr>) {
    forall a {:trigger a in dying} :: a in dying <==> a in nodes && nodes[a].count == 0
  }

  ghost predicate Consistent<T>(nodes: map<Addr, Node<T>>, handles: map<Handle, Addr>, g: Shadow<T>) {
    && Wired(nodes, handles, g.refs, g.spent)
    && Counted(nodes, g.refs)
    && Spelled(nodes, g.elems)
    && Noted(nodes, g.dying)
    && Apart(nodes, g.refs, g.building, g.tail)
  }

  lemma ReferredIsAlive<T>(nodes: map<Addr, Node<T>>, handles: map<Handle, Addr>, g: Shadow<T>, r: Ref)
    requires Consistent(nodes, handles, g) && r in g.refs && g.refs[r] != NULL
    ensures Alive(nodes, g.refs[r])
  {
    assert r in Referrers(g.refs, g.refs[r]);
  }

  // ----- take_node -----

  function Taken<T>(nodes: map<Addr, Node<T>>, a: Addr): map<Addr, Node<T>>
    requires a in nodes
  {
    nodes[a := nodes[a].(count := nodes[a].count + 1)]
  }

  lemma TakeIsWired<T>(nodes: map<Addr, Node<T>>, handles: map<Handle, Addr>, refs: map<Ref, Addr>,
                       spent: set<Handle>, a: Addr)
    requires Wired(nodes, handles, refs, spent) && Alive(nodes, a)
    ensures Wired(Taken(nodes, a), handles, refs[Owed := a], spent)
  {
  }

  lemma TakeIsCounted<T>(nodes: map<Addr, Node<T>>, refs: map<Ref, Addr>, a: Addr)
    requires Counted(nodes, refs) && a in nodes && NULL !in nodes && Owed in refs && refs[Owed] == NULL
    ensures Counted(Taken(nodes, a), refs[Owed := a])
  {
    forall b ensures |Referrers(refs[Owed := a], b)| + One(NULL == b) == |Referrers(refs, b)| + One(a == b) {
      SetRef(refs, Owed, a, b);
    }
  }

  lemma TakeIsSpelled<T>(nodes: map<Addr, Node<T>>, elems: map<Addr, seq<T>>, a: Addr)
    requires Spelled(nodes, elems) && Alive(nodes, a)
    ensures Spelled(Taken(nodes, a), elems)
  {
    forall b ensures Alive(Taken(nodes, a), b) ==> Alive(nodes, b) {}
  }

  lemma TakeIsApart<T>(nodes: map<Addr, Node<T>>, refs: map<Ref, Addr>, building: set<Addr>, tail: Addr, a: Addr)
    requires Apart(nodes, refs, building, tail) && Alive(nodes, a) && a !in building
    ensures Apart(Taken(nodes, a), refs[Owed := a], building, tail)
  {
  }

  lemma TakeIsConsistent<T>(nodes: map<Addr, Node<T>>, handles: map<Handle, Addr>, g: Shadow<T>, a: Addr)
    requires Consistent(nodes, handles, g) && Alive(nodes, a) && a !in g.building && g.refs[Owed] == NULL
    ensures Consistent(Taken(nodes, a), handles, g.(refs := g.refs[Owed := a]))
  {
    TakeIsWired(nodes, handles, g.refs, g.spent, a);
    TakeIsCounted(nodes, g.refs, a);
    TakeIsSpelled(nodes, g.elems, a);
    TakeIsApart(nodes, g.refs, g.building, g.tail, a);
  }

  // ----- new_node -----

  /** A new node takes over the reference in passing, and is itself the reference in passing. */
  ghost function Relinked(refs: map<Ref, Addr>, a: Addr): map<Ref, Addr>
    requires Owed in refs
  {
    refs[ByNode(a) := refs[Owed]][Owed := a]
  }

  lemma NewNodeIsWired<T>(nodes: map<Addr, Node<T>>, handles: map<Handle, Addr>, refs: map<Ref, Addr>,
                          spent: set<Handle>, a: Addr, v: T)
    requires Wired(nodes, handles, refs, spent) && a != NULL && a !in nodes
    ensures Wired(nodes[a := Node(1, refs[Owed], v)], handles, Relinked(refs, a), spent)
  {
  }

  lemma NewNodeIsCounted<T>(nodes: map<Addr, Node<T>>, refs: map<Ref, Addr>, a: Addr, v: T)
    requires Counted(nodes, refs) && a !in nodes && Owed in refs && ByNode(a) !in refs
    requires forall r :: r in refs ==> refs[r] != a
    ensures Counted(nodes[a := Node(1, refs[Owed], v)], Relinked(refs, a))
  {
    forall b ensures |Referrers(Relinked(refs, a), b)| == |Referrers(refs, b)| + One(b == a) {
      AddRef(refs, ByNode(a), refs[Owed], b);
      SetRef(refs[ByNode(a) := refs[Owed]], Owed, a, b);
    }
    assert Referrers(refs, a) == {};
  }

  lemma NewNodeIsSpelled<T>(nodes: map<Addr, Node<T>>, elems: map<Addr, seq<T>>, a: Addr, next: Addr, v: T)
    requires Spelled(nodes, elems) && a !in nodes && a != next
    requires forall b :: Alive(nodes, b) ==> nodes[b].next != a
    ensures Spelled(nodes[a := Node(1, next, v)], elems[a := [v] + From(elems, next)])
  {
    var nodes', elems' := nodes[a := Node(1, next, v)], elems[a := [v] + From(elems, next)];
    forall b | Alive(nodes', b)
      ensures b in elems' && elems'[b] == [nodes'[b].value] + From(elems', nodes'[b].next)
    {
      assert b == a || Alive(nodes, b);
    }
  }

  lemma NewNodeIsApart<T>(nodes: map<Addr, Node<T>>, refs: map<Ref, Addr>, building: set<Addr>, tail: Addr,
                          a: Addr, v: T)
    requires Apart(nodes, refs, building, tail) && a !in nodes && Owed in refs && ByNode(a) !in refs
    ensures Apart(nodes[a := Node(1, refs[Owed], v)], Relinked(refs, a), building, tail)
  {
  }

  ghost function Linked<T>(g: Shadow<T>, a: Addr, v: T): Shadow<T>
    requires Owed in g.refs
  {
    g.(refs := Relinked(g.refs, a), elems := g.elems[a := [v] + From(g.elems, g.refs[Owed])])
  }

  lemma NewNodeIsConsistent<T>(nodes: map<Addr, Node<T>>, handles: map<Handle, Addr>, g: Shadow<T>, a: Addr, v: T)
    requires Consistent(nodes, handles, g) && a != NULL && a !in nodes
    ensures Consistent(nodes[a := Node(1, g.refs[Owed], v)], handles, Linked(g, a, v))
  {
    assert !Alive(nodes, a);
    NewNodeIsWired(nodes, handles, g.refs, g.spent, a, v);
    NewNodeIsCounted(nodes, g.refs, a, v);
    forall b | Alive(nodes, b) ensures nodes[b].next != a { assert ByNode(b) in g.refs; }
    NewNodeIsSpelled(nodes, g.elems, a, g.refs[Owed], v);
    NewNodeIsApart(nodes, g.refs, g.building, g.tail, a, v);
  }

  // ----- new_list -----

  /** The reference in passing is stored in a list. */
  ghost function Stored(refs: map<Ref, Addr>, h: Handle): map<Ref, Addr>
    requires Owed in refs
  {
    refs[ByHandle(h) := refs[Owed]][Owed := NULL]
  }

  lemma NewListIsWired<T>(nodes: map<Addr, Node<T>>, handles: map<Handle, Addr>, refs: map<Ref, Addr>,
                          spent: set<Handle>, h: Handle)
    requires Wired(nodes, handles, refs, spent) && h !in handles
    ensures Wired(nodes, handles[h := refs[Owed]], Stored(refs, h), spent)
  {
  }

  lemma NewListIsCounted<T>(nodes: map<Addr, Node<T>>, refs: map<Ref, Addr>, h: Handle)
    requires Counted(nodes, refs) && NULL !in nodes && Owed in refs && ByHandle(h) !in refs
    ensures Counted(nodes, Stored(refs, h))
  {
    forall b ensures |Referrers(Stored(refs, h), b)| == |Referrers(refs, b)| + One(NULL == b) {
      AddRef(refs, ByHandle(h), refs[Owed], b);
      SetRef(refs[ByHandle(h) := refs[Owed]], Owed, NULL, b);
    }
  }

  lemma NewListIsApart<T>(nodes: map<Addr, Node<T>>, refs: map<Ref, Addr>, building: set<Addr>, tail: Addr, h: Handle)
    requires Apart(nodes, refs, building, tail) && Owed in refs && refs[Owed] !in building && NULL !in nodes
    ensures Apart(nodes, Stored(refs, h), building, tail)
  {
  }

  lemma NewListIsConsistent<T>(nodes: map<Addr, Node<T>>, handles: map<Handle, Addr>, g: Shadow<T>, h: Handle)
    requires Consistent(nodes, handles, g) && h !in handles
    ensures Consistent(nodes, handles[h := g.refs[Owed]], g.(refs := Stored(g.refs, h)))
  {
    NewListIsWired(nodes, handles, g.refs, g.spent, h);
    NewListIsCounted(nodes, g.refs, h);
    NewListIsApart(nodes, g.refs, g.building, g.tail, h);
  }

  // ----- delete_list -----

  /** The reference of a list is passed on; the list itself is deleted later. */
  ghost function Passed<T>(handles: map<Handle, Addr>, g: Shadow<T>, h: Handle): Shadow<T>
    requires h in handles
  {
    g.(refs := (g.refs - {ByHandle(h)})[Owed := handles[h]], spent := g.spent + {h})
  }

  lemma PassIsWired<T>(nodes: map<Addr, Node<T>>, handles: map<Handle, Addr>, g: Shadow<T>, h: Handle)
    requires Wired(nodes, handles, g.refs, g.spent) && h in handles && h !in g.spent
    ensures Wired(nodes, handles, Passed(handles, g, h).refs, g.spent + {h})
  {
  }

  lemma PassIsCounted<T>(nodes: map<Addr, Node<T>>, handles: map<Handle, Addr>, g: Shadow<T>, h: Handle)
    requires Counted(nodes, g.refs) && NULL !in nodes && Owed in g.refs && g.refs[Owed] == NULL
    requires ByHandle(h) in g.refs && h in handles && g.refs[ByHandle(h)] == handles[h]
    ensures Counted(nodes, Passed(handles, g, h).refs)
  {
    forall b ensures |Referrers(Passed(handles, g, h).refs, b)| + One(NULL == b) == |Referrers(g.refs, b)| {
      DropRef(g.refs, ByHandle(h), b);
      SetRef(g.refs - {ByHandle(h)}, Owed, handles[h], b);
    }
  }

  lemma PassIsApart<T>(nodes: map<Addr, Node<T>>, handles: map<Handle, Addr>, g: Shadow<T>, h: Handle)
    requires Apart(nodes, g.refs, g.building, g.tail)
    requires ByHandle(h) in g.refs && h in handles && g.refs[ByHandle(h)] == handles[h]
    ensures Apart(nodes, Passed(handles, g, h).refs, g.building, g.tail)
  {
  }

  lemma PassIsConsistent<T>(nodes: map<Addr, Node<T>>, handles: map<Handle, Addr>, g: Shadow<T>, h: Handle)
    requires Consistent(nodes, handles, g) && h in handles && h !in g.spent && g.refs[Owed] == NULL
    ensures Consistent(nodes, handles, Passed(handles, g, h))
  {
    PassIsWired(nodes, handles, g, h);
    PassIsCounted(nodes, handles, g, h);
    PassIsApart(nodes, handles, g, h);
  }

  lemma DeleteIsConsistent<T>(nodes: map<Addr, Node<T>>, handles: map<Handle, Addr>, g: Shadow<T>, h: Handle)
    requires Consistent(nodes, handles, g) && h in g.spent
    ensures Consistent(nodes, handles - {h}, g.(spent := g.spent - {h}))
  {
  }

  // ----- release_node -----

  function Less<T>(nodes: map<Addr, Node<T>>, a: Addr): map<Addr, Node<T>>
    requires Alive(nodes, a)
  {
    nodes[a := nodes[a].(count := nodes[a].count - 1)]
  }

  /** The reference in passing is dropped; if it was the last one, the node's own reference to the next
      node is the one to drop after it. */
  ghost function Dropped<T>(nodes: map<Addr, Node<T>>, refs: map<Ref, Addr>, a: Addr): map<Ref, Addr>
    requires Alive(nodes, a) && Owed in refs
  {
    if nodes[a].count > 1 then refs[Owed := NULL] else (refs - {ByNode(a)})[Owed := nodes[a].next]
  }

  lemma DropIsWired<T>(nodes: map<Addr, Node<T>>, handles: map<Handle, Addr>, refs: map<Ref, Addr>,
                       spent: set<Handle>, a: Addr)
    requires Wired(nodes, handles, refs, spent) && Alive(nodes, a)
    ensures Wired(Less(nodes, a), handles, Dropped(nodes, refs, a), spent)
  {
    assert refs[ByNode(a)] == nodes[a].next;
  }

  lemma DropIsCounted<T>(nodes: map<Addr, Node<T>>, refs: map<Ref, Addr>, a: Addr)
    requires Counted(nodes, refs) && Alive(nodes, a) && NULL !in nodes
    requires Owed in refs && refs[Owed] == a && ByNode(a) in refs && refs[ByNode(a)] == nodes[a].next
    ensures Counted(Less(nodes, a), Dropped(nodes, refs, a))
  {
    var refs' := Dropped(nodes, refs, a);
    forall b | b in nodes ensures |Referrers(refs', b)| + One(a == b) == |Referrers(refs, b)| {
      if nodes[a].count > 1 {
        SetRef(refs, Owed, NULL, b);
      } else {
        DropRef(refs, ByNode(a), b);
        SetRef(refs - {ByNode(a)}, Owed, nodes[a].next, b);
      }
    }
  }

  lemma DropIsSpelled<T>(nodes: map<Addr, Node<T>>, elems: map<Addr, seq<T>>, a: Addr)
    requires Spelled(nodes, elems) && Alive(nodes, a)
    ensures Spelled(Less(nodes, a), elems)
  {
    forall b ensures Alive(Less(nodes, a), b) ==> Alive(nodes, b) {}
  }

  lemma DropIsApart<T>(nodes: map<Addr, Node<T>>, refs: map<Ref, Addr>, building: set<Addr>, tail: Addr, a: Addr)
    requires Apart(nodes, refs, building, tail) && Alive(nodes, a) && a !in building
    requires Owed in refs && ByNode(a) in refs && refs[ByNode(a)] == nodes[a].next && NULL !in nodes
    ensures Apart(Less(nodes, a), Dropped(nodes, refs, a), building, tail)
  {
  }

  lemma DropIsNoted<T>(nodes: map<Addr, Node<T>>, dying: set<Addr>, a: Addr)
    requires Noted(nodes, dying) && Alive(nodes, a)
    ensures Noted(Less(nodes, a), if nodes[a].count > 1 then dying else dying + {a})
  {
  }

  ghost function GivenUp<T>(nodes: map<Addr, Node<T>>, g: Shadow<T>, a: Addr): Shadow<T>
    requires Alive(nodes, a) && Owed in g.refs
  {
    g.(refs := Dropped(nodes, g.refs, a), dying := if nodes[a].count > 1 then g.dying else g.dying + {a})
  }

  lemma DropIsConsistent<T>(nodes: map<Addr, Node<T>>, handles: map<Handle, Addr>, g: Shadow<T>)
    requires Consistent(nodes, handles, g) && g.refs[Owed] != NULL
    ensures Alive(nodes, g.refs[Owed])
    ensures Consistent(Less(nodes, g.refs[Owed]), handles, GivenUp(nodes, g, g.refs[Owed]))
  {
    var a := g.refs[Owed];
    ReferredIsAlive(nodes, handles, g, Owed);
    DropIsWired(nodes, handles, g.refs, g.spent, a);
    DropIsCounted(nodes, g.refs, a);
    DropIsSpelled(nodes, g.elems, a);
    DropIsApart(nodes, g.refs, g.building, g.tail, a);
    DropIsNoted(nodes, g.dying, a);
  }

  lemma NobodyRefers(refs: map<Ref, Addr>, a: Addr)
    requires |Referrers(refs, a)| == 0
    ensures forall r :: r in refs ==> refs[r] != a
  {
    forall r | r in refs ensures refs[r] != a { assert refs[r] == a ==> r in Referrers(refs, a); }
  }

  lemma FreeIsWired<T>(nodes: map<Addr, Node<T>>, handles: map<Handle, Addr>, refs: map<Ref, Addr>,
                       spent: set<Handle>, a: Addr)
    requires Wired(nodes, handles, refs, spent) && !Alive(nodes, a)
    requires forall r :: r in refs ==> refs[r] != a
    ensures Wired(nodes - {a}, handles, refs, spent)
  {
  }

  lemma FreeIsSpelled<T>(nodes: map<Addr, Node<T>>, elems: map<Addr, seq<T>>, a: Addr)
    requires Spelled(nodes, elems)
    ensures Spelled(nodes - {a}, elems)
  {
    forall b ensures Alive(nodes - {a}, b) ==> Alive(nodes, b) {}
  }

  lemma FreeIsApart<T>(nodes: map<Addr, Node<T>>, refs: map<Ref, Addr>, building: set<Addr>, tail: Addr, a: Addr)
    requires Apart(nodes, refs, building, tail) && !Alive(nodes, a)
    ensures Apart(nodes - {a}, refs, building, tail)
  {
  }

  lemma FreeIsConsistent<T>(nodes: map<Addr, Node<T>>, handles: map<Handle, Addr>, g: Shadow<T>, a: Addr)
    requires Consistent(nodes, handles, g) && a in nodes && nodes[a].count == 0
    ensures Consistent(nodes - {a}, handles, g.(dying := g.dying - {a}))
  {
    NobodyRefers(g.refs, a);
    FreeIsWired(nodes, handles, g.refs, g.spent, a);
    FreeIsSpelled(nodes, g.elems, a);
    FreeIsApart(nodes, g.refs, g.building, g.tail, a);
  }

  // ----- begin_node and append_node -----

  lemma OnlyReferrer(refs: map<Ref, Addr>, a: Addr, r: Ref)
    requires r in refs && refs[r] == a && |Referrers(refs, a)| == 1
    ensures forall q :: q in refs && refs[q] == a ==> q == r
  {
    forall q | q in refs && refs[q] == a ensures q == r {
      if q != r {
        assert {q, r} <= Referrers(refs, a) && |{q, r}| == 2;
        SubsetIsSmaller({q, r}, Referrers(refs, a));
        assert false;
      }
    }
  }

  lemma SubsetIsSmaller(s: set<Ref>, t: set<Ref>)
    requires s <= t
    ensures |s| <= |t|
  {
    assert t == s + (t - s);
  }

  /** The place that `append_node` fills: the variable it began with, or the `next` of the last node. */
  ghost function Place<T>(g: Shadow<T>): Ref { if g.building == {} then Built else ByNode(g.tail) }

  function Attached<T>(nodes: map<Addr, Node<T>>, building: set<Addr>, tail: Addr, a: Addr): map<Addr, Node<T>>
    requires building != {} ==> tail in nodes
  {
    if building == {} then nodes else nodes[tail := nodes[tail].(next := a)]
  }

  ghost function Extended<T>(elems: map<Addr, seq<T>>, building: set<Addr>, v: T): map<Addr, seq<T>> {
    map b | b in elems :: if b in building then elems[b] + [v] else elems[b]
  }

  ghost function Grown<T>(g: Shadow<T>, a: Addr, v: T): Shadow<T> {
    g.(refs := g.refs[Place(g) := a][Owed := NULL], elems := Extended(g.elems, g.building, v),
       building := g.building + {a}, tail := a)
  }

  lemma AttachIsWired<T>(nodes: map<Addr, Node<T>>, handles: map<Handle, Addr>, g: Shadow<T>, a: Addr)
    requires Wired(nodes, handles, g.refs, g.spent) && a in nodes
    requires g.building != {} ==> Alive(nodes, g.tail)
    ensures Wired(Attached(nodes, g.building, g.tail, a), handles, g.refs[Place(g) := a][Owed := NULL], g.spent)
  {
  }

  lemma AttachIsCounted<T>(nodes: map<Addr, Node<T>>, g: Shadow<T>, a: Addr)
    requires Counted(nodes, g.refs) && NULL !in nodes && (g.building != {} ==> g.tail in nodes)
    requires Owed in g.refs && g.refs[Owed] == a && Place(g) in g.refs && g.refs[Place(g)] == NULL
    ensures Counted(Attached(nodes, g.building, g.tail, a), g.refs[Place(g) := a][Owed := NULL])
  {
    forall b ensures |Referrers(g.refs[Place(g) := a][Owed := NULL], b)| == |Referrers(g.refs, b)| {
      SetRef(g.refs, Place(g), a, b);
      SetRef(g.refs[Place(g) := a], Owed, NULL, b);
    }
  }

  /** Nodes outside the list being built do not lead into it. */
  lemma BuildingIsClosed<T>(nodes: map<Addr, Node<T>>, handles: map<Handle, Addr>, g: Shadow<T>, b: Addr)
    requires Consistent(nodes, handles, g) && Alive(nodes, b) && b !in g.building
    ensures nodes[b].next !in g.building
  {
    assert ByNode(b) in g.refs && g.refs[ByNode(b)] == nodes[b].next;
  }

  lemma ExtendedWithin<T>(elems: map<Addr, seq<T>>, building: set<Addr>, v: T, b: Addr, value: T, next: Addr)
    requires b in elems && next in elems && b in building && next in building && next != NULL
    requires elems[b] == [value] + From(elems, next)
    ensures Extended(elems, building, v)[b] == [value] + From(Extended(elems, building, v), next)
  {
    assert [value] + elems[next] + [v] == [value] + (elems[next] + [v]);
  }

  lemma ExtendedOutside<T>(elems: map<Addr, seq<T>>, building: set<Addr>, v: T, next: Addr)
    requires next !in building
    ensures From(Extended(elems, building, v), next) == From(elems, next)
  {
  }

  lemma AttachIsSpelled<T>(nodes: map<Addr, Node<T>>, elems: map<Addr, seq<T>>, building: set<Addr>, tail: Addr,
                           a: Addr)
    requires Spelled(nodes, elems) && NULL !in nodes && (building != {} ==> tail in building)
    requires forall b :: b in building ==>
      Alive(nodes, b) && if b == tail then nodes[b].next == NULL else nodes[b].next in building
    requires forall b :: Alive(nodes, b) && b !in building ==> nodes[b].next !in building
    requires Alive(nodes, a) && a !in building && nodes[a].next == NULL
    ensures Spelled(Attached(nodes, building, tail, a), Extended(elems, building, nodes[a].value))
  {
    var v := nodes[a].value;
    var nodes', elems' := Attached(nodes, building, tail, a), Extended(elems, building, v);
    forall b | Alive(nodes', b) ensures b in elems' && elems'[b] == [nodes'[b].value] + From(elems', nodes'[b].next) {
      assert Alive(nodes, b);
      var next := nodes[b].next;
      if b !in building {
        ExtendedOutside(elems, building, v, next);
      } else if b == tail {
        ExtendedOutside(elems, building, v, a);
        assert elems'[b] == [nodes[b].value] + [v];
      } else {
        assert Alive(nodes, next);
        ExtendedWithin(elems, building, v, b, nodes[b].value, next);
      }
    }
  }

  lemma AttachIsApart<T>(nodes: map<Addr, Node<T>>, g: Shadow<T>, a: Addr)
    requires Apart(nodes, g.refs, g.building, g.tail) && Alive(nodes, a) && a !in g.building && NULL !in nodes
    requires nodes[a].next == NULL && Owed in g.refs && g.refs[Owed] == a && a != NULL
    requires forall r :: r in g.refs && g.refs[r] == a ==> r == Owed
    ensures Apart(Attached(nodes, g.building, g.tail, a), g.refs[Place(g) := a][Owed := NULL], g.building + {a}, a)
  {
  }

  lemma AttachIsNoted<T>(nodes: map<Addr, Node<T>>, building: set<Addr>, tail: Addr, a: Addr, dying: set<Addr>)
    requires Noted(nodes, dying) && (building != {} ==> tail in nodes)
    ensures Noted(Attached(nodes, building, tail, a), dying)
  {
  }

  lemma AttachIsConsistent<T>(nodes: map<Addr, Node<T>>, handles: map<Handle, Addr>, g: Shadow<T>, a: Addr)
    requires Consistent(nodes, handles, g) && g.refs[Owed] == a && Alive(nodes, a) && a !in g.building
    requires nodes[a].next == NULL && nodes[a].count == 1
    ensures g.building != {} ==> g.tail in nodes
    ensures Consistent(Attached(nodes, g.building, g.tail, a), handles, Grown(g, a, nodes[a].value))
  {
    OnlyReferrer(g.refs, a, Owed);
    forall b | Alive(nodes, b) && b !in g.building ensures nodes[b].next !in g.building {
      BuildingIsClosed(nodes, handles, g, b);
    }
    if g.building == {} { assert g.refs[Built] == NULL; } else { assert g.refs[ByNode(g.tail)] == nodes[g.tail].next; }
    AttachIsWired(nodes, handles, g, a);
    AttachIsCounted(nodes, g, a);
    AttachIsSpelled(nodes, g.elems, g.building, g.tail, a);
    AttachIsApart(nodes, g, a);
    AttachIsNoted(nodes, g.building, g.tail, a, g.dying);
  }

  /** The list that was built is handed over. */
  ghost function Finished<T>(g: Shadow<T>): Shadow<T>
    requires Built in g.refs
  {
    g.(refs := g.refs[Owed := g.refs[Built]][Built := NULL], building := {})
  }

  lemma FinishIsCounted<T>(nodes: map<Addr, Node<T>>, refs: map<Ref, Addr>)
    requires Counted(nodes, refs) && Owed in refs && Built in refs && refs[Owed] == NULL && NULL !in nodes
    ensures Counted(nodes, refs[Owed := refs[Built]][Built := NULL])
  {
    forall b ensures |Referrers(refs[Owed := refs[Built]][Built := NULL], b)| == |Referrers(refs, b)| {
      SetRef(refs, Owed, refs[Built], b);
      SetRef(refs[Owed := refs[Built]], Built, NULL, b);
    }
  }

  lemma FinishIsWired<T>(nodes: map<Addr, Node<T>>, handles: map<Handle, Addr>, refs: map<Ref, Addr>,
                         spent: set<Handle>)
    requires Wired(nodes, handles, refs, spent)
    ensures Wired(nodes, handles, refs[Owed := refs[Built]][Built := NULL], spent)
  {
  }

  lemma FinishIsConsistent<T>(nodes: map<Addr, Node<T>>, handles: map<Handle, Addr>, g: Shadow<T>)
    requires Consistent(nodes, handles, g) && g.refs[Owed] == NULL
    ensures Consistent(nodes, handles, Finished(g))
  {
    FinishIsCounted(nodes, g.refs);
    FinishIsWired(nodes, handles, g.refs, g.spent);
  }

  // ----- A node is allocated exactly as long as a list leads to it -----

  /** The address `k` steps on from `a`. */
  function Walk<T>(nodes: map<Addr, Node<T>>, a: Addr, k: nat): Addr
    decreases k
  {
    if k == 0 || a !in nodes then a else Walk(nodes, nodes[a].next, k - 1)
  }

  ghost predicate Reached<T>(nodes: map<Addr, Node<T>>, handles: map<Handle, Addr>, a: Addr) {
    a != NULL && exists h, k: nat :: h in handles && Walk(nodes, handles[h], k) == a
  }

  /** Nothing is being built, in passing or about to be freed or deleted. */
  ghost predicate AtRest<T>(nodes: map<Addr, Node<T>>, handles: map<Handle, Addr>, g: Shadow<T>) {
    Consistent(nodes, handles, g) && g.refs[Owed] == NULL && g.building == {} && g.spent == {} && g.dying == {}
  }

  lemma {:induction false} WalkOn<T>(nodes: map<Addr, Node<T>>, a: Addr, k: nat)
    requires Walk(nodes, a, k) in nodes
    ensures Walk(nodes, a, k + 1) == nodes[Walk(nodes, a, k)].next
    decreases k
  {
    if k > 0 && a in nodes { WalkOn(nodes, nodes[a].next, k - 1); }
  }

  lemma NextIsAlive<T>(nodes: map<Addr, Node<T>>, handles: map<Handle, Addr>, g: Shadow<T>, a: Addr)
    requires AtRest(nodes, handles, g) && a in nodes
    ensures Alive(nodes, a) && (nodes[a].next == NULL || nodes[a].next in nodes)
  {
    assert a !in g.dying;
    assert ByNode(a) in g.refs && g.refs[ByNode(a)] == nodes[a].next;
  }

  lemma {:induction false} WalkStaysAlive<T>(nodes: map<Addr, Node<T>>, handles: map<Handle, Addr>, g: Shadow<T>,
                                              a: Addr, k: nat)
    requires AtRest(nodes, handles, g) && (a == NULL || a in nodes)
    ensures Walk(nodes, a, k) == NULL || Walk(nodes, a, k) in nodes
    decreases k
  {
    if k > 0 && a in nodes {
      NextIsAlive(nodes, handles, g, a);
      WalkStaysAlive(nodes, handles, g, nodes[a].next, k - 1);
    }
  }

  lemma {:induction false} SomeLengthIsEnough<T>(elems: map<Addr, seq<T>>, s: set<Addr>) returns (bound: nat)
    ensures forall a :: a in s ==> |From(elems, a)| <= bound
  {
    if s == {} {
      bound := 0;
    } else {
      var x :| x in s;
      bound := SomeLengthIsEnough(elems, s - {x});
      assert s == (s - {x}) + {x};
      if bound < |From(elems, x)| { bound := |From(elems, x)|; }
    }
  }

  /** Going backwards from a live node, the elements get more, until there is a list. */
  lemma {:induction false} LiveIsReached<T>(nodes: map<Addr, Node<T>>, handles: map<Handle, Addr>, g: Shadow<T>,
                                             a: Addr, bound: nat)
    requires AtRest(nodes, handles, g) && a in nodes
    requires forall b :: b in nodes ==> |From(g.elems, b)| <= bound
    ensures Reached(nodes, handles, a)
    decreases bound - |From(g.elems, a)|
  {
    NextIsAlive(nodes, handles, g, a);
    assert |Referrers(g.refs, a)| > 0;
    var r :| r in Referrers(g.refs, a);
    if r.ByHandle? {
      assert Walk(nodes, handles[r.h], 0) == a;
    } else {
      assert r.ByNode? && nodes[r.a].next == a && Alive(nodes, r.a);
      LiveIsReached(nodes, handles, g, r.a, bound);
      var h, k: nat :| h in handles && Walk(nodes, handles[h], k) == r.a;
      WalkOn(nodes, handles[h], k);
    }
  }

  /** Between two calls of the library, the nodes are exactly those that some list leads to. */
  lemma AllocatedIffReached<T>(nodes: map<Addr, Node<T>>, handles: map<Handle, Addr>, g: Shadow<T>, a: Addr)
    requires AtRest(nodes, handles, g)
    ensures a in nodes <==> Reached(nodes, handles, a)
  {
    if a in nodes {
      var bound := SomeLengthIsEnough(g.elems, nodes.Keys);
      LiveIsReached(nodes, handles, g, a, bound);
    }
    if Reached(nodes, handles, a) {
      var h, k: nat :| h in handles && Walk(nodes, handles[h], k) == a;
      assert ByHandle(h) in g.refs && g.refs[ByHandle(h)] == handles[h];
      WalkStaysAlive(nodes, handles, g, handles[h], k);
    }
  }

  /** Nodes have been freed, and the others still have their values and successors. */
  ghost predicate Shrinks<T>(nodes: map<Addr, Node<T>>, nodes': map<Addr, Node<T>>) {
    forall a {:trigger nodes'[a]} :: a in nodes' ==>
      a in nodes && nodes'[a].next == nodes[a].next && nodes'[a].value == nodes[a].value
  }

  lemma {:induction false} WalkAgrees<T>(nodes: map<Addr, Node<T>>, nodes': map<Addr, Node<T>>,
                                          handles: map<Handle, Addr>, g: Shadow<T>, a: Addr, k: nat)
    requires AtRest(nodes', handles, g) && Shrinks(nodes, nodes') && NULL !in nodes && (a == NULL || a in nodes')
    ensures Walk(nodes, a, k) == Walk(nodes', a, k)
    decreases k
  {
    if k > 0 && a in nodes' {
      NextIsAlive(nodes', handles, g, a);
      WalkAgrees(nodes, nodes', handles, g, nodes'[a].next, k - 1);
    }
  }

  /** What remains is what the remaining lists led to before. */
  lemma RemainingIsReached<T>(nodes: map<Addr, Node<T>>, nodes': map<Addr, Node<T>>, handles: map<Handle, Addr>,
                              g: Shadow<T>, a: Addr)
    requires AtRest(nodes', handles, g) && Shrinks(nodes, nodes') && NULL !in nodes
    ensures a in nodes' <==> Reached(nodes, handles, a)
  {
    AllocatedIffReached(nodes', handles, g, a);
    forall h, k: nat | h in handles ensures Walk(nodes, handles[h], k) == Walk(nodes', handles[h], k) {
      assert ByHandle(h) in g.refs && g.refs[ByHandle(h)] == handles[h];
      WalkAgrees(nodes, nodes', handles, g, handles[h], k);
    }
  }

  // ----- What the counts count -----

  ghost function HandleRefs(s: set<Handle>): set<Ref> { set h | h in s :: ByHandle(h) }

  ghost function NodeRefs(s: set<Addr>): set<Ref> { set a | a in s :: ByNode(a) }

  lemma {:induction false} HandleRefsCount(s: set<Handle>)
    ensures |HandleRefs(s)| == |s|
    decreases |s|
  {
    if s != {} {
      var h :| h in s;
      HandleRefsCount(s - {h});
      assert HandleRefs(s) == HandleRefs(s - {h}) + {ByHandle(h)};
    }
  }

  lemma {:induction false} NodeRefsCount(s: set<Addr>)
    ensures |NodeRefs(s)| == |s|
    decreases |s|
  {
    if s != {} {
      var a :| a in s;
      NodeRefsCount(s - {a});
      assert NodeRefs(s) == NodeRefs(s - {a}) + {ByNode(a)};
    }
  }

  ghost function ListsAt(handles: map<Handle, Addr>, a: Addr): set<Handle> { set h | h in handles && handles[h] == a }

  ghost function NodesBefore<T>(nodes: map<Addr, Node<T>>, a: Addr): set<Addr> {
    set b | b in nodes && nodes[b].next == a
  }

  lemma ReferrersAtRest<T>(nodes: map<Addr, Node<T>>, handles: map<Handle, Addr>, g: Shadow<T>, a: Addr, r: Ref)
    requires AtRest(nodes, handles, g) && a in nodes
    ensures r in Referrers(g.refs, a) <==> r in HandleRefs(ListsAt(handles, a)) + NodeRefs(NodesBefore(nodes, a))
  {
    match r
    case ByHandle(h) => assert r in HandleRefs(ListsAt(handles, a)) <==> h in ListsAt(handles, a);
    case ByNode(b) =>
      assert r in NodeRefs(NodesBefore(nodes, a)) <==> b in NodesBefore(nodes, a);
      if b in nodes { NextIsAlive(nodes, handles, g, b); }
    case _ =>
  }

  /** Between two calls of the library, the count of a node is the number of lists that begin with it
      plus the number of nodes that come before it. */
  lemma CountIsListsPlusNodes<T>(nodes: map<Addr, Node<T>>, handles: map<Handle, Addr>, g: Shadow<T>, a: Addr)
    requires AtRest(nodes, handles, g) && a in nodes
    ensures nodes[a].count == |ListsAt(handles, a)| + |NodesBefore(nodes, a)|
  {
    var hs, bs := HandleRefs(ListsAt(handles, a)), NodeRefs(NodesBefore(nodes, a));
    HandleRefsCount(ListsAt(handles, a));
    NodeRefsCount(NodesBefore(nodes, a));
    forall r ensures r in Referrers(g.refs, a) <==> r in hs + bs { ReferrersAtRest(nodes, handles, g, a, r); }
    assert Referrers(g.refs, a) == hs + bs && hs !! bs;
  }
}
