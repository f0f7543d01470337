/** The keys of table entries, of empty entries too: after a collection no table but one that is weak both
    ways has a key that refers to an object that is gone. */
module GcKeys {
  import opened GcHeap
  import opened GcMark
  import opened GcPropagate
  import opened GcTricolor
  import opened GcAtomic
  import opened GcCycle
  import opened GcSafety
  import opened GcWeak
  import opened GcProgram
  import opened GcFull
  import opened GcExact

  predicate WeakBoth(b: Body) { b.Table? && b.mode.weakKey && b.mode.weakValue }

  /** No empty entry has a collectable key. */
  predicate NoStaleKeys(b: Body) {
    b.Table? ==> forall i :: 0 <= i < |b.nodes| && b.nodes[i].val.Nil? ==> !b.nodes[i].key.Ref?
  }

  /** Every object that is a key of an entry of o, empty or not, is there and marked. */
  predicate KeysMarked(h: Heap, o: Id)
    requires o in h
  {
    var b := h[o].body;
    b.Table? ==> forall i :: 0 <= i < |b.nodes| && b.nodes[i].key.Ref? ==> b.nodes[i].key.id in h && !White(h, b.nodes[i].key.id)
  }

  /** References lead to what is there. */
  ghost predicate RefsIn(h: Heap) { forall o, id :: o in h && id in Refs(h[o].body) ==> id in h }

  // ---------- one traversal ----------

  lemma CleanNodesStale(ns: seq<Node>)
    ensures |CleanNodes(ns)| == |ns| && forall i :: 0 <= i < |ns| && CleanNodes(ns)[i].val.Nil? ==> !CleanNodes(ns)[i].key.Ref?
  {
  }

  lemma PartsClean(g: Gc, o: Id)
    requires o in g.heap && g.heap[o].body.Table? && !White(g.heap, o) && ColorsOk(g.heap)
    ensures var r, b := TraverseParts(g, o), g.heap[o].body;
      o in r.heap && if WeakBoth(b) then r.heap[o].body == b else NoStaleKeys(r.heap[o].body)
  {
    hide MarkEach, Marked, CleanNodes;
    var b := g.heap[o].body;
    var m := b.mode;
    if !WeakBoth(b) {
      var g1 := if IsWeak(m)
                then g.(heap := SetMark(g.heap, o, g.heap[o].mark.(bit3 := m.weakKey, bit4 := m.weakValue)), weak := [o] + g.weak)
                else g;
      var g2 := g1.(heap := SetBody(g1.heap, o, b.(nodes := CleanNodes(b.nodes))));
      MarkEachMarks(g2, PartIds(b, m));
      MarkedKeeps(g2, TraverseParts(g, o), o);
      CleanNodesStale(b.nodes);
    }
  }

  /** propagatemark removes the empty entries of a table, unless it is weak both ways. */
  lemma PropagateClean(g: Gc)
    requires QueueOk(g) && g.gray != []
    ensures var r, o := PropagateMark(g), Head(g); var b := g.heap[o].body;
      o in r.heap && (b.Table? ==> if WeakBoth(b) then r.heap[o].body == b else NoStaleKeys(r.heap[o].body))
  {
    hide MarkEach, Marked, TraverseParts, NoStaleKeys, Visited;
    PropagateFacts(g);
    var o := Head(g);
    if g.heap[o].body.Table? {
      var g1 := g.(heap := SetMark(g.heap, o, GrayToBlack(g.heap[o].mark)), gray := g.gray[1..]);
      ColorsSet(g.heap, o, GrayToBlack(g.heap[o].mark));
      var ids := OptIds(g.heap[o].body.metatable);
      MarkEachMarks(g1, ids);
      MarkedColors(g1, MarkEach(g1, ids));
      MarkedKeeps(g1, MarkEach(g1, ids), o);
      PartsClean(MarkEach(g1, ids), o);
      TraverseKeeps(g1, o);
    }
  }

  // ---------- black tables ----------

  /** The keys of black tables are marked. */
  ghost predicate BlackKeys(h: Heap) { forall o :: o in h && IsBlack(h[o].mark) ==> KeysMarked(h, o) }

  /** Black tables have no stale keys. */
  ghost predicate BlackClean(h: Heap) { forall o :: o in h && IsBlack(h[o].mark) ==> NoStaleKeys(h[o].body) }

  /** What is so of the black tables of h is so of those of k. */
  ghost predicate BlackKept(h: Heap, k: Heap) { (BlackKeys(h) ==> BlackKeys(k)) && (BlackClean(h) ==> BlackClean(k)) }

  lemma NotStaleMarked(h: Heap, o: Id)
    requires o in h && NoStaleKeys(h[o].body) && NoWhiteRefs(h, o) && RefsIn(h)
    ensures KeysMarked(h, o)
  {
    var b := h[o].body;
    if b.Table? {
      forall i | 0 <= i < |b.nodes| && b.nodes[i].key.Ref?
        ensures b.nodes[i].key.id in h && !White(h, b.nodes[i].key.id)
      {
        NodeRefs(b, i);
      }
    }
  }

  lemma KeysLater(h: Heap, k: Heap, o: Id)
    requires o in h && KeysMarked(h, o) && o in k && k[o].body == h[o].body && forall x :: x in h && !White(h, x) ==> x in k && !White(k, x)
    ensures KeysMarked(k, o)
  {
  }

  lemma NewTableGray(g: Gc, r: Gc, o: Id)
    requires Marked(g, r) && o in r.heap && r.heap[o].body.Table? && White(g.heap, o) && !White(r.heap, o)
    ensures IsGray(r.heap[o].mark)
  {
    assert Shaded(r.heap, Fresh(g, r), o);
  }

  /** Marking turns no table black. */
  lemma MarkedTables(g: Gc, r: Gc, o: Id)
    requires Marked(g, r) && o in r.heap && r.heap[o].body.Table? && IsBlack(r.heap[o].mark) && ColorsOk(r.heap)
    ensures o in g.heap && r.heap[o] == g.heap[o]
  {
    if White(g.heap, o) && !White(r.heap, o) { NewTableGray(g, r, o); }
  }

  lemma MarkedBlackKeys(g: Gc, r: Gc)
    requires Marked(g, r) && ColorsOk(g.heap)
    ensures BlackKept(g.heap, r.heap)
  {
    hide KeysMarked, NoStaleKeys, Marked;
    MarkedColors(g, r);
    MarkedHeap(g, r);
    forall o | o in r.heap && IsBlack(r.heap[o].mark)
      ensures BlackKeys(g.heap) ==> KeysMarked(r.heap, o)
      ensures BlackClean(g.heap) ==> NoStaleKeys(r.heap[o].body)
    {
      if r.heap[o].body.Table? {
        MarkedTables(g, r, o);
        if BlackKeys(g.heap) { GrownKeysLater(g.heap, r.heap, o); }
      } else {
        NoTableNoKeys(r.heap, o);
      }
    }
  }

  lemma NoTableNoKeys(h: Heap, o: Id)
    requires o in h && !h[o].body.Table?
    ensures KeysMarked(h, o) && NoStaleKeys(h[o].body)
  {
  }

  lemma GrownKeysLater(h: Heap, k: Heap, o: Id)
    requires HeapGrown(h, k) && o in h && KeysMarked(h, o) && k[o].body == h[o].body
    ensures KeysMarked(k, o)
  {
    KeysLater(h, k, o);
  }

  lemma RefsInGrown(h: Heap, k: Heap)
    requires RefsIn(h) && HeapGrown(h, k)
    ensures RefsIn(k)
  {
    forall o, id | o in k && id in Refs(k[o].body)
      ensures id in k
    {
      CleanedRefs(h[o].body, k[o].body);
    }
  }

  /** One step of the marking. */
  lemma PropagateBlack(g: Gc)
    requires Tricolor(g) && g.gray != [] && RefsIn(g.heap)
    ensures QueueOk(g)
    ensures BlackKept(g.heap, PropagateMark(g).heap) && RefsIn(PropagateMark(g).heap)
  {
    hide KeysMarked, NoStaleKeys, Marked, PropagateMark, Exposed, RefsIn, Settled, Grown;
    TricolorQueue(g);
    var r, o := PropagateMark(g), Head(g);
    PropagateFacts(g);
    PropagateQueue(g);
    PropagateGrown(g);
    GrownHeap(g, r);
    RefsInGrown(g.heap, r.heap);
    PropagateTricolor(g);
    forall x | x in r.heap && IsBlack(r.heap[x].mark)
      ensures BlackKeys(g.heap) ==> KeysMarked(r.heap, x)
      ensures BlackClean(g.heap) ==> NoStaleKeys(r.heap[x].body)
    {
      if x == o { VisitedKeys(g); } else { OtherKeys(g, x); }
    }
  }

  lemma VisitedKeys(g: Gc)
    requires Tricolor(g) && g.gray != [] && QueueOk(g)
    ensures var r, o := PropagateMark(g), Head(g);
      o in r.heap && (RefsIn(r.heap) && IsBlack(r.heap[o].mark) ==> KeysMarked(r.heap, o) && NoStaleKeys(r.heap[o].body))
  {
    hide KeysMarked, NoStaleKeys, Marked, PropagateMark, QueueOk, RefsIn, Settled;
    var r, o := PropagateMark(g), Head(g);
    PropagateFacts(g);
    PropagateClean(g);
    PropagateTricolor(g);
    if RefsIn(r.heap) && IsBlack(r.heap[o].mark) {
      if g.heap[o].body.Table? {
        NotExposedClean(r.heap, o);
        NotStaleMarked(r.heap, o);
      } else {
        NoTableNoKeys(r.heap, o);
      }
    }
  }

  lemma NotExposedClean(h: Heap, o: Id)
    requires o in h && IsBlack(h[o].mark) && BlackOk(h, {})
    ensures NoWhiteRefs(h, o)
  {
    assert !Exposed(h, o);
  }

  lemma OtherKeys(g: Gc, x: Id)
    requires QueueOk(g) && g.gray != [] && x != Head(g)
    ensures var r := PropagateMark(g);
      x in r.heap && IsBlack(r.heap[x].mark) ==>
        (BlackKeys(g.heap) ==> KeysMarked(r.heap, x)) && (BlackClean(g.heap) ==> NoStaleKeys(r.heap[x].body))
  {
    hide KeysMarked, NoStaleKeys, Marked, PropagateMark, Visited, Grown;
    var r, o := PropagateMark(g), Head(g);
    PropagateFacts(g);
    PropagateQueue(g);
    PropagateGrown(g);
    GrownHeap(g, r);
    if x in r.heap && IsBlack(r.heap[x].mark) {
      if r.heap[x].body.Table? {
        MarkedTables(Taken(g, r, o), r, x);
        if BlackKeys(g.heap) { GrownKeysLater(g.heap, r.heap, x); }
      } else {
        NoTableNoKeys(r.heap, x);
      }
    }
  }

  lemma {:induction false} PropagateAllBlack(g: Gc)
    requires Tricolor(g) && RefsIn(g.heap)
    ensures QueueOk(g) && BlackKept(g.heap, PropagateAll(g).heap) && RefsIn(PropagateAll(g).heap)
    decreases Whites(g.heap), |g.gray|
  {
    hide Tricolor, RefsIn, PropagateMark, BlackKeys, BlackClean, QueueOk;
    TricolorQueue(g);
    if g.gray != [] {
      PropagateBlack(g);
      PropagateTricolor(g);
      PropagateQueue(g);
      PropagateShrinks(g);
      PropagateAllBlack(PropagateMark(g));
    }
  }

  // ---------- the weak list ----------

  /** The listed tables have no stale keys, but those that are weak both ways. */
  ghost predicate WeakClean(g: Gc) {
    forall t :: t in g.weak ==> t in g.heap && g.heap[t].body.Table? && (!WeakBoth(g.heap[t].body) ==> NoStaleKeys(g.heap[t].body))
  }

  lemma PropagateWeakClean(g: Gc)
    requires QueueOk(g) && g.gray != [] && WeakClean(g)
    ensures WeakClean(PropagateMark(g))
  {
    hide NoStaleKeys, PropagateMark, Settled, Marked;
    var r, o := PropagateMark(g), Head(g);
    PropagateFacts(g);
    PropagateClean(g);
    forall t | t in r.weak
      ensures t in r.heap && r.heap[t].body.Table? && (!WeakBoth(r.heap[t].body) ==> NoStaleKeys(r.heap[t].body))
    {
      if t in g.weak {
        assert ListsWell(g.heap, t);
        PropagateOthers(g, t);
      } else {
        assert t == o;
      }
    }
  }

  lemma {:induction false} PropagateAllWeakClean(g: Gc)
    requires QueueOk(g) && WeakClean(g)
    ensures WeakClean(PropagateAll(g))
    decreases Whites(g.heap), |g.gray|
  {
    hide WeakClean, PropagateMark;
    if g.gray != [] {
      PropagateQueue(g);
      PropagateWeakClean(g);
      PropagateShrinks(g);
      PropagateAllWeakClean(PropagateMark(g));
    }
  }

  /** The whole of the marking: what was so of black tables is still so, and the weak list is clean. */
  lemma AtomicMarkKeys(g: Gc)
    requires Tricolor(g) && RefsIn(g.heap)
    ensures QueueOk(g)
    ensures var m := AtomicMark(g); BlackKept(g.heap, m.heap) && RefsIn(m.heap) && WeakClean(m)
  {
    hide Tricolor, QueueOk, RefsIn, BlackKeys, BlackClean, Marked, PropagateAll;
    TricolorQueue(g);
    var g1 := PropagateAll(g);
    PropagateAllTricolor(g);
    PropagateAllBlack(g);
    RequeueTricolor(g1);
    var g2 := g1.(gray := g1.weak, weak := []);
    var ids := [g.running] + OptsIds(g.mt);
    var g3 := MarkEach(g2, ids);
    TricolorQueue(g2);
    QueueColors(g2);
    MarkEachMarks(g2, ids);
    MarkedTricolor(g2, g3);
    MarkedBlackKeys(g2, g3);
    MarkedHeap(g2, g3);
    RefsInGrown(g2.heap, g3.heap);
    MarkEachFields(g2, ids);
    TricolorQueue(g3);
    var g4 := PropagateAll(g3);
    PropagateAllTricolor(g3);
    PropagateAllBlack(g3);
    PropagateAllWeakClean(g3);
    RequeueTricolor(g4);
    var g5 := g4.(gray := g4.grayagain, grayagain := []);
    TricolorQueue(g5);
    PropagateAllBlack(g5);
    PropagateAllWeakClean(g5);
  }

  // ---------- the atomic phase ----------

  /** A table that has been cleared: what stays has marked keys, what goes has no key. */
  lemma ClearedKeys(h: Heap, weak: bool, b: Body, k: Heap, t: Id)
    requires t in k && NoStaleKeys(b) && TableKept(h, weak, b, k[t].body) && NoWhiteRefs(k, t) && RefsIn(k)
    ensures KeysMarked(k, t) && NoStaleKeys(k[t].body)
  {
    hide ItemKept, IsCleared, NoWhiteRefs, RefsIn, KeysMarked;
    forall i | 0 <= i < |b.nodes| && k[t].body.nodes[i].val.Nil?
      ensures !k[t].body.nodes[i].key.Ref?
    {
      assert EntryKept(h, b.nodes, k[t].body.nodes, i);
    }
    NotStaleMarked(k, t);
  }

  lemma RefsInShrunk(h: Heap, k: Heap)
    requires RefsIn(h) && HeapShrunk(h, k)
    ensures RefsIn(k)
  {
    forall o, id | o in k && id in Refs(k[o].body)
      ensures id in k
    {
      assert Shrunk(h[o].body, k[o].body);
    }
  }

  /** A marked table that is on no list is black. */
  lemma UnlistedBlack(m: Gc, t: Id)
    requires Tricolor(m) && m.gray == [] && AgainSettled(m) && t in m.heap && m.heap[t].body.Table? && !White(m.heap, t)
    ensures IsBlack(m.heap[t].mark) || t in m.weak
  {
    if !IsBlack(m.heap[t].mark) { assert Listed(m, t); }
  }

  /** What the end of the atomic phase leaves of the mark and the contents of a table. */
  lemma AtomicTable(g: Gc, t: Id)
    requires Tricolor(g) && QueueOk(g) && t in Atomic(g).heap && Atomic(g).heap[t].body.Table?
    ensures var m, r := AtomicMark(g), Atomic(g);
      && t in m.heap && m.heap[t].body.Table? && r.heap[t].body.mode == m.heap[t].body.mode
      && (White(r.heap, t) <==> White(m.heap, t))
      && (t !in m.weak ==> r.heap[t].body == m.heap[t].body)
      && (t in m.weak ==> IsWeak(m.heap[t].body.mode) && exists h :: TableKept(h, m.heap[t].body.mode.weakValue, m.heap[t].body, r.heap[t].body))
    ensures forall x :: x in AtomicMark(g).heap && !White(AtomicMark(g).heap, x) ==> x in Atomic(g).heap && !White(Atomic(g).heap, x)
  {
    hide Tricolor, QueueOk, AtomicMark, ClearTables, SeparateUdata, SameVerdicts, WeakReady, Pruned, TableKept;
    var m, r := AtomicMark(g), Atomic(g);
    AtomicMarkTricolor(g);
    var list := After(m.rootgc, m.mainthread);
    var h := SeparateUdata(m.heap, list);
    SeparateDone(m.heap, list);
    forall u | u in m.weak
      ensures WeakReady(h, u)
    {
      WeakIsReady(m, u);
      SeparatedReady(m.heap, h, u);
    }
    AllClearedAll(h, m.weak);
    SameTableKind(h, r.heap, m.weak, t);
    TablesKept(h, m.weak, t);
    if t in m.weak {
      WeakTable(m, t);
      TableKeptMode(h, h[t].mark.bit4, h[t].body, r.heap[t].body);
    }
  }

  lemma WeakTable(m: Gc, t: Id)
    requires WeakSettled(m) && t in m.weak
    ensures t in m.heap && m.heap[t].body.Table? && IsWeak(m.heap[t].body.mode) && m.heap[t].mark.bit4 == m.heap[t].body.mode.weakValue
  {
  }

  lemma SameTableKind(h: Heap, k: Heap, ts: seq<Id>, t: Id)
    requires ClearedAll(h, k, ts) && t in k && k[t].body.Table?
    ensures t in h && h[t].body.Table?
  {
  }

  lemma TableKeptMode(h: Heap, weak: bool, b: Body, c: Body)
    requires TableKept(h, weak, b, c)
    ensures b.Table? && c.Table? && c.mode == b.mode
  {
  }

  /** After the atomic phase no marked table has a key that is not marked, of an empty entry either, unless
      it is weak both ways. */
  lemma AtomicKeys(g: Gc, t: Id)
    requires Tricolor(g) && QueueOk(g) && RefsIn(g.heap) && t in Atomic(g).heap && !White(Atomic(g).heap, t)
    requires Atomic(g).heap[t].body.Table? && !WeakBoth(Atomic(g).heap[t].body)
    ensures BlackKeys(g.heap) ==> KeysMarked(Atomic(g).heap, t)
    ensures BlackClean(g.heap) ==> KeysMarked(Atomic(g).heap, t) && NoStaleKeys(Atomic(g).heap[t].body)
  {
    hide Tricolor, QueueOk, AtomicMark, Atomic, KeysMarked, NoStaleKeys, RefsIn, AgainSettled, WeakSettled, NoWhiteRefs, TableKept, HeapShrunk;
    var m, r := AtomicMark(g), Atomic(g);
    AtomicMarkTricolor(g);
    AtomicMarkKeys(g);
    AtomicTable(g, t);
    AtomicClosed(g);
    AtomicHeap(g);
    RefsInShrunk(g.heap, r.heap);
    if t in m.weak {
      var weak := m.heap[t].body.mode.weakValue;
      var h :| TableKept(h, weak, m.heap[t].body, r.heap[t].body);
      ClearedKeys(h, weak, m.heap[t].body, r.heap, t);
    } else {
      UnlistedBlack(m, t);
      if BlackKeys(m.heap) { KeysLater(m.heap, r.heap, t); }
      if BlackClean(m.heap) { NotStaleMarked(r.heap, t); }
    }
  }

  // ---------- while a program runs ----------

  predicate IsKey(b: Body, id: Id) { b.Table? && exists i :: 0 <= i < |b.nodes| && b.nodes[i].key == Ref(id) }

  /** A program puts into a table only keys that it gets hold of, with a barrier; a key stays behind when its
      value is set to nil. */
  ghost predicate KeysPaid(g: Gc, e: Event) {
    match e
    case Store(o, body, added) => o in g.heap && forall id :: IsKey(body, id) ==> IsKey(g.heap[o].body, id) || id in added
    case _ => true
  }

  /** While the collector marks, the keys of black tables are marked. */
  ghost predicate KeysInv(g: Gc) { g.phase == Propagate ==> BlackKeys(g.heap) }

  lemma KeysMarkedIs(h: Heap, o: Id)
    requires o in h
    ensures KeysMarked(h, o) <==> forall id :: IsKey(h[o].body, id) ==> id in h && !White(h, id)
  {
    var b := h[o].body;
    if KeysMarked(h, o) {
      forall id | IsKey(b, id) ensures id in h && !White(h, id) { var i :| 0 <= i < |b.nodes| && b.nodes[i].key == Ref(id); }
    } else {
      var i :| 0 <= i < |b.nodes| && b.nodes[i].key.Ref? && !(b.nodes[i].key.id in h && !White(h, b.nodes[i].key.id));
      assert IsKey(b, b.nodes[i].key.id);
    }
  }

  lemma RefsInClosed(g: Gc)
    requires Closed(g) && NoneDead(g)
    ensures RefsIn(g.heap)
  {
    forall o, id | o in g.heap && id in Refs(g.heap[o].body)
      ensures id in g.heap
    {
      assert Alive(g, o) && Alive(g, id);
    }
  }

  lemma NoneBlack(h: Heap)
    requires forall o :: o in h ==> MarkOk(h[o]) && IsWhite(h[o].mark)
    ensures BlackKeys(h) && BlackClean(h)
  {
  }

  lemma RootKeys(g: Gc)
    requires Inv(g) && AllWhite(g)
    ensures BlackKeys(MarkRoot(g).heap) && BlackClean(MarkRoot(g).heap)
  {
    hide Closed, RootsAlive, ListsOk, ThreadsOk, Tricolor, Marked, BlackKeys, BlackClean, AllWhite;
    var g0 := g.(gray := [], grayagain := [], weak := []);
    AllWhiteAlive(g);
    TricolorQueue(g0);
    QueueColors(g0);
    NoneMarked(g);
    NoneBlack(g.heap);
    MarkEachMarks(g0, MarkedRoots(g));
    MarkedBlackKeys(g0, MarkEach(g0, MarkedRoots(g)));
  }

  lemma StepKeys(g: Gc)
    requires Inv(g) && KeysInv(g)
    ensures StepOk(g) && KeysInv(SingleStep(g))
  {
    hide HeapOk, Closed, RootsAlive, ListsOk, ThreadsOk, Tricolor, BlackKeys, MarkRoot, PropagateMark, Atomic, SweepBucket, SweepSome, QueueOk, AllWhite, NoneDead, BlackClean, RefsIn;
    InvStepOk(g);
    match g.phase
    case Pause => RootKeys(g);
    case Propagate =>
      if g.gray != [] {
        RefsInClosed(g);
        PropagateBlack(g);
      } else {
        AtomicPhase(g);
      }
    case SweepString => SweepPhases(g);
    case Sweep => SweepPhases(g);
    case Finalize =>
  }

  /** The black tables of k are those of h, with the same contents, and what is marked in h is marked in k. */
  ghost predicate SameBlack(h: Heap, k: Heap) {
    && (forall o :: o in k && k[o].body.Table? && IsBlack(k[o].mark) ==> o in h && IsBlack(h[o].mark) && k[o].body == h[o].body)
    && (forall x :: x in h && !White(h, x) ==> x in k && !White(k, x))
  }

  lemma SameBlackKeys(h: Heap, k: Heap)
    requires SameBlack(h, k) && BlackKeys(h)
    ensures BlackKeys(k)
  {
    hide KeysMarked;
    forall o | o in k && IsBlack(k[o].mark)
      ensures KeysMarked(k, o)
    {
      if k[o].body.Table? { KeysLater(h, k, o); } else { NoTableNoKeys(k, o); }
    }
  }

  /** After a store: only the table that was written to may have a key that is not marked. */
  ghost predicate BlackKeysBut(h: Heap, t: Id) { forall o :: o in h && IsBlack(h[o].mark) && o != t ==> KeysMarked(h, o) }

  lemma StoredKeys(h: Heap, t: Id, b: Body)
    requires BlackKeys(h) && t in h
    ensures BlackKeysBut(SetBody(h, t, b), t)
  {
    hide KeysMarked;
    var k := SetBody(h, t, b);
    forall o | o in k && IsBlack(k[o].mark) && o != t
      ensures KeysMarked(k, o)
    {
      KeysLater(h, k, o);
    }
  }

  /** What a barrier leaves of the object that was written to. */
  ghost predicate Paid(g: Gc, r: Gc, t: Id) {
    && t in g.heap && t in r.heap && r.heap[t].body == g.heap[t].body && (IsBlack(r.heap[t].mark) ==> IsBlack(g.heap[t].mark))
    && r.phase == g.phase && (forall x :: x in g.heap && !White(g.heap, x) ==> x in r.heap && !White(r.heap, x))
  }

  lemma BarrierKeys(g: Gc, t: Id, v: Id)
    requires InvBut(g, {t}) && Alive(g, t) && Alive(g, v) && g.phase == Propagate && BlackKeysBut(g.heap, t) && g.heap[t].body.Table?
    ensures var r := Barrier(g, t, v); BlackKeysBut(r.heap, t) && Paid(g, r, t) && (White(r.heap, v) ==> !IsBlack(r.heap[t].mark))
  {
    hide KeysMarked, Closed, RootsAlive, ListsOk, ThreadsOk, TricolorBut;
    var r := Barrier(g, t, v);
    forall o | o in r.heap && IsBlack(r.heap[o].mark) && o != t
      ensures KeysMarked(r.heap, o)
    {
      KeysLater(g.heap, r.heap, o);
    }
  }

  lemma {:induction false} BarriersKeys(g: Gc, t: Id, vs: seq<Id>)
    requires InvBut(g, {t}) && Alive(g, t) && g.phase == Propagate && BlackKeysBut(g.heap, t) && g.heap[t].body.Table?
    requires forall v :: v in vs ==> Alive(g, v)
    ensures var r := Barriers(g, t, vs); BlackKeysBut(r.heap, t) && Paid(g, r, t) && (forall v :: v in vs && IsBlack(r.heap[t].mark) ==> v in r.heap && !White(r.heap, v))
    decreases |vs|
  {
    hide InvBut, Barrier, BlackKeysBut;
    if vs != [] {
      BarrierStep(g, t, vs[0]);
      BarrierKeys(g, t, vs[0]);
      BarriersKeys(Barrier(g, t, vs[0]), t, vs[1..]);
    }
  }

  /** No barrier of an object that is not a table concerns the keys of tables. */
  lemma {:induction false} OtherBarriersKeys(g: Gc, o: Id, vs: seq<Id>)
    requires InvBut(g, {o}) && Alive(g, o) && g.phase == Propagate && BlackKeys(g.heap) && !g.heap[o].body.Table?
    requires forall v :: v in vs ==> Alive(g, v)
    ensures BlackKeys(Barriers(g, o, vs).heap)
    decreases |vs|
  {
    hide InvBut, BlackKeys, ReallyMark;
    if vs != [] {
      BarrierStep(g, o, vs[0]);
      ForwardKeys(g, o, vs[0]);
      OtherBarriersKeys(Barrier(g, o, vs[0]), o, vs[1..]);
    }
  }

  lemma ForwardKeys(g: Gc, o: Id, v: Id)
    requires InvBut(g, {o}) && g.phase == Propagate && BlackKeys(g.heap) && o in g.heap && !g.heap[o].body.Table?
    ensures BlackKeys(Barrier(g, o, v).heap)
  {
    hide BlackKeys, ReallyMark, Closed, RootsAlive, ListsOk, ThreadsOk, BlackOk, GrayOk, KindsOk, Marked, BlackClean;
    if White(g.heap, v) && IsBlack(g.heap[o].mark) {
      QueueColors(g);
      ReallyMarkMarks(g, v);
      MarkedBlackKeys(g, ReallyMark(g, v));
    }
  }

  lemma PaidKeys(h: Heap, k: Heap, t: Id, b: Body, added: seq<Id>)
    requires t in h && t in k && k[t].body == b && BlackKeysBut(k, t) && (IsBlack(k[t].mark) ==> KeysMarked(h, t))
    requires forall x :: x in h && !White(h, x) ==> x in k && !White(k, x)
    requires forall v :: v in added && IsBlack(k[t].mark) ==> v in k && !White(k, v)
    requires forall id :: IsKey(b, id) ==> IsKey(h[t].body, id) || id in added
    ensures BlackKeys(k)
  {
    hide KeysMarked, IsKey;
    KeysMarkedIs(h, t);
    KeysMarkedIs(k, t);
  }

  lemma StoreKeys(g: Gc, o: Id, b: Body, added: seq<Id>)
    requires Inv(g) && Enabled(g, Store(o, b, added)) && KeysPaid(g, Store(o, b, added)) && g.phase == Propagate && BlackKeys(g.heap)
    ensures BlackKeys(Barriers(g.(heap := SetBody(g.heap, o, b)), o, added).heap)
  {
    hide Inv, InvBut, BlackKeys, BlackKeysBut, Barriers, KeysMarked, IsKey, Reachable;
    var s := g.(heap := SetBody(g.heap, o, b));
    InvAlive(g, o);
    forall r | r in added
      ensures Alive(g, r)
    {
      InvAlive(g, r);
    }
    StoredBut(g, o, b, added);
    if b.Table? {
      StoredKeys(g.heap, o, b);
      BarriersKeys(s, o, added);
      assert g.heap.Keys == s.heap.Keys && forall x :: White(s.heap, x) <==> White(g.heap, x);
      OneBlack(g.heap, o);
      PaidKeys(g.heap, Barriers(s, o, added).heap, o, b, added);
    } else {
      OtherStored(g.heap, o, b);
      OtherBarriersKeys(s, o, added);
    }
  }

  lemma OneBlack(h: Heap, o: Id)
    requires BlackKeys(h) && o in h
    ensures IsBlack(h[o].mark) ==> KeysMarked(h, o)
  {
  }

  lemma OtherStored(h: Heap, o: Id, b: Body)
    requires BlackKeys(h) && o in h && !b.Table?
    ensures BlackKeys(SetBody(h, o, b))
  {
    SameBlackKeys(h, SetBody(h, o, b));
  }

  lemma StoredBut(g: Gc, o: Id, b: Body, added: seq<Id>)
    requires Inv(g) && Enabled(g, Store(o, b, added)) && Alive(g, o) && forall r :: r in added ==> Alive(g, r)
    ensures var s := g.(heap := SetBody(g.heap, o, b)); InvBut(s, {o}) && forall x :: Alive(s, x) <==> Alive(g, x)
  {
    hide Closed, RootsAlive, ListsOk, ThreadsOk, QueueOk, BlackOk, GrayOk, KindsOk, HeapOk, Reachable, CurrentOk;
    OldRefsAlive(g, o);
    StoredSound(g, o, b);
    StoredPhase(g, o, b);
    InvIsInvBut(g);
  }

  /** Every step and every action keeps the keys of black tables marked. */
  lemma DoKeys(g: Gc, e: Event)
    requires Inv(g) && Enabled(g, e) && KeysPaid(g, e) && KeysInv(g)
    ensures StepOk(g) && KeysInv(Do(g, e))
  {
    hide Inv, BlackKeys, SingleStep, Barriers, Reachable, IsKey;
    InvStepOk(g);
    match e
    case Step => StepKeys(g);
    case StartFull =>
    case Store(o, body, added) =>
      StorePhase(g, o, body, added);
      if g.phase == Propagate { StoreKeys(g, o, body, added); }
    case _ =>
      OtherPhase(g, e);
      if g.phase == Propagate {
        InvNoneDead(g);
        OtherBlack(g, e);
        SameBlackKeys(g.heap, Do(g, e).heap);
      }
  }

  lemma StorePhase(g: Gc, o: Id, b: Body, added: seq<Id>)
    requires Inv(g) && Enabled(g, Store(o, b, added))
    ensures Barriers(g.(heap := SetBody(g.heap, o, b)), o, added).phase == g.phase
  {
    hide Inv, InvBut, Barriers, Reachable;
    InvAlive(g, o);
    forall r | r in added
      ensures Alive(g, r)
    {
      InvAlive(g, r);
    }
    StoredBut(g, o, b, added);
    BarriersPhase(g.(heap := SetBody(g.heap, o, b)), o, added);
  }

  lemma {:induction false} BarriersPhase(g: Gc, o: Id, vs: seq<Id>)
    requires InvBut(g, {o}) && Alive(g, o) && forall v :: v in vs ==> Alive(g, v)
    ensures Barriers(g, o, vs).phase == g.phase
    decreases |vs|
  {
    hide InvBut, Barrier;
    if vs != [] {
      BarrierStep(g, o, vs[0]);
      BarriersPhase(Barrier(g, o, vs[0]), o, vs[1..]);
    }
  }

  lemma InvNoneDead(g: Gc)
    requires Inv(g) && g.phase == Propagate
    ensures NoneDead(g)
  {
  }

  predicate Quiet(e: Event) { !e.Step? && !e.StartFull? && !e.Store? }

  lemma OtherPhase(g: Gc, e: Event)
    requires StepOk(g) && Enabled(g, e) && Quiet(e)
    ensures Do(g, e).phase == g.phase
  {
  }

  lemma SetBlack(h: Heap, o: Id, x: Object)
    requires !(x.body.Table? && IsBlack(x.mark)) && (o in h && !White(h, o) ==> !IsWhite(x.mark))
    ensures SameBlack(h, h[o := x])
  {
  }

  lemma SameBlackTrans(h: Heap, k: Heap, l: Heap)
    requires SameBlack(h, k) && SameBlack(k, l)
    ensures SameBlack(h, l)
  {
    hide White;
  }

  lemma PushBlack(g: Gc, v: Id)
    ensures SameBlack(g.heap, Push(g, v).heap)
  {
    if g.running in g.heap && g.heap[g.running].body.Thread? {
      SetBlack(g.heap, g.running, Push(g, v).heap[g.running]);
    }
  }

  lemma OtherBlack(g: Gc, e: Event)
    requires StepOk(g) && Enabled(g, e) && Quiet(e) && NoneDead(g)
    ensures SameBlack(g.heap, Do(g, e).heap)
  {
    hide Reachable, After, StepOk, SameBlack, SameStrings, Push, NoneDead;
    SameBlackRefl(g.heap);
    match e
    case New(id, body) =>
      var s := LinkObject(g, id, body);
      SetBlack(g.heap, id, Object(NewMark(g.currentwhite), body));
      PushBlack(s, id);
      SameBlackTrans(g.heap, s.heap, Push(s, id).heap);
    case NewString(id, bucket) =>
      var s := g.(heap := g.heap[id := Object(NewMark(g.currentwhite), Str)], strt := g.strt[bucket := [id] + g.strt[bucket]]);
      SetBlack(g.heap, id, Object(NewMark(g.currentwhite), Str));
      PushBlack(s, id);
      SameBlackTrans(g.heap, s.heap, Push(s, id).heap);
    case Intern(bucket, index) =>
      NotDead(g, g.strt[bucket][index]);
      PushBlack(g, g.strt[bucket][index]);
    case Fix(o) => SetBlack(g.heap, o, g.heap[o].(mark := g.heap[o].mark.(fixed := true)));
    case _ =>
  }

  lemma SameBlackRefl(h: Heap)
    ensures SameBlack(h, h)
  {
  }

  lemma NotDead(g: Gc, o: Id)
    requires NoneDead(g)
    ensures o in g.heap ==> Alive(g, o)
  {
  }

  // ---------- every run ----------

  /** The program pays for its keys in every event of the run. */
  ghost predicate KeysPaidAll(g: Gc, es: seq<Event>)
    decreases |es|
  {
    es != [] && StepOk(g) && Enabled(g, es[0]) ==> KeysPaid(g, es[0]) && KeysPaidAll(Do(g, es[0]), es[1..])
  }

  lemma {:induction false} RunsKeys(g: Gc, es: seq<Event>, r: Gc)
    requires Inv(g) && KeysInv(g) && Runs(g, es, r) && KeysPaidAll(g, es)
    ensures Inv(r) && KeysInv(r)
    decreases |es|
  {
    hide Inv, KeysInv, Enabled, StepOk, Do, KeysPaid;
    if es != [] {
      DoInv(g, es[0]);
      DoKeys(g, es[0]);
      RunsKeys(Do(g, es[0]), es[1..], r);
    }
  }

  /** Whatever a program did and however it was interleaved with the collector: when the marking of a cycle
      is over, no table that stays has a key that goes, of an empty entry either, unless it is weak both ways. */
  lemma NoKeyDangles(buckets: nat, es: seq<Event>, g: Gc, t: Id, id: Id)
    requires buckets > 0 && Runs(Initial(buckets), es, g) && KeysPaidAll(Initial(buckets), es) && g.phase == Propagate && g.gray == []
    ensures StepOk(g)
    ensures var r := SingleStep(g); Alive(r, t) && IsKey(r.heap[t].body, id) && !WeakBoth(r.heap[t].body) ==> Alive(r, id)
  {
    hide Inv, Runs, Initial, KeysPaidAll, KeysInv, QueueOk, Tricolor, BlackKeys, BlackClean, Atomic, AtomicMark, KeysMarked, IsKey, WeakBoth, RefsIn;
    InitialInv(buckets);
    InitialPhase(buckets);
    RunsKeys(Initial(buckets), es, g);
    MarkingOver(g, t, id);
  }

  lemma InitialPhase(buckets: nat)
    ensures KeysInv(Initial(buckets))
  {
  }

  lemma MarkingOver(g: Gc, t: Id, id: Id)
    requires Inv(g) && KeysInv(g) && g.phase == Propagate && g.gray == []
    ensures StepOk(g)
    ensures var r := SingleStep(g); Alive(r, t) && IsKey(r.heap[t].body, id) && !WeakBoth(r.heap[t].body) ==> Alive(r, id)
  {
    hide HeapOk, Closed, RootsAlive, ListsOk, ThreadsOk, NoneDead, QueueOk, Tricolor, BlackKeys, BlackClean, Atomic, KeysMarked, IsKey, RefsIn, IsDead;
    InvStepOk(g);
    var r := SingleStep(g);
    assert r == Atomic(g);
    if Alive(r, t) && IsKey(r.heap[t].body, id) && !WeakBoth(r.heap[t].body) {
      RefsInClosed(g);
      FlipOf(g, r, t);
      KeyTable(r.heap[t].body, id);
      AtomicKeys(g, t);
      KeysMarkedIs(r.heap, t);
      FlipOf(g, r, id);
    }
  }

  lemma KeyTable(b: Body, id: Id)
    requires IsKey(b, id)
    ensures b.Table?
  {
  }

  // ---------- a full collection ----------

  /** What a collection may do to an entry of a table. */
  predicate EntryLeft(mode: Mode, n: Node, m: Node) {
    if n.val.Nil? then m == if mode.weakKey && mode.weakValue then n else Emptied(n)
    else m == n || (IsWeak(mode) && m == Emptied(n))
  }

  /** A table before and after a collection. */
  predicate TableLeft(b: Body, c: Body) {
    && b.Table? && c.Table? && c.metatable == b.metatable && c.mode == b.mode && |c.items| == |b.items| && |c.nodes| == |b.nodes|
    && (forall i :: 0 <= i < |b.items| ==> c.items[i] == b.items[i] || (b.mode.weakValue && c.items[i] == Nil))
    && (forall i :: 0 <= i < |b.nodes| ==> EntryLeft(b.mode, b.nodes[i], c.nodes[i]))
  }

  /** Tables that are weak both ways stay as they are. */
  ghost predicate BothSame(h: Heap, k: Heap) {
    k.Keys == h.Keys && forall o :: o in h && WeakBoth(h[o].body) ==> k[o].body == h[o].body
  }

  lemma BothSameTrans(h: Heap, k: Heap, l: Heap)
    requires BothSame(h, k) && BothSame(k, l)
    ensures BothSame(h, l)
  {
  }

  lemma MarkedBoth(g: Gc, r: Gc)
    requires Marked(g, r)
    ensures BothSame(g.heap, r.heap)
  {
  }

  lemma PropagateBoth(g: Gc)
    requires QueueOk(g) && g.gray != []
    ensures BothSame(g.heap, PropagateMark(g).heap)
  {
    hide PropagateMark, Settled, NoStaleKeys, FreshOk, AllShaded;
    PropagateFacts(g);
    PropagateClean(g);
  }

  lemma {:induction false} PropagateAllBoth(g: Gc)
    requires QueueOk(g)
    ensures BothSame(g.heap, PropagateAll(g).heap)
    decreases Whites(g.heap), |g.gray|
  {
    hide BothSame, PropagateMark;
    if g.gray == [] {
      BothSameRefl(g.heap);
    } else {
      PropagateQueue(g);
      PropagateBoth(g);
      PropagateShrinks(g);
      PropagateAllBoth(PropagateMark(g));
      BothSameTrans(g.heap, PropagateMark(g).heap, PropagateAll(g).heap);
    }
  }

  lemma BothSameRefl(h: Heap)
    ensures BothSame(h, h)
  {
  }

  lemma AtomicMarkBoth(g: Gc)
    requires QueueOk(g)
    ensures BothSame(g.heap, AtomicMark(g).heap)
  {
    hide QueueOk, BothSame, Marked, PropagateAll;
    var g1 := PropagateAll(g);
    PropagateAllBoth(g);
    Requeue(g1);
    var g2 := g1.(gray := g1.weak, weak := []);
    var ids := [g.running] + OptsIds(g.mt);
    var g3 := MarkEach(g2, ids);
    QueueColors(g2);
    MarkEachMarks(g2, ids);
    MarkedQueue(g2, g3);
    MarkedBoth(g2, g3);
    var g4 := PropagateAll(g3);
    PropagateAllBoth(g3);
    Requeue(g4);
    var g5 := g4.(gray := g4.grayagain, grayagain := []);
    PropagateAllBoth(g5);
    BothSameTrans(g.heap, g1.heap, g3.heap);
    BothSameTrans(g.heap, g3.heap, g4.heap);
    BothSameTrans(g.heap, g4.heap, PropagateAll(g5).heap);
  }

  /** From the start of a cycle, over the marked table, to what the clearing leaves. */
  lemma TableSteps(b: Body, m: Body, h: Heap, weak: bool, c: Body)
    requires b.Table? && Cleaned(b, m) && (WeakBoth(b) ==> m == b) && weak == b.mode.weakValue
    requires c == m || (IsWeak(b.mode) && TableKept(h, weak, m, c))
    requires WeakBoth(b) || NoStaleKeys(c)
    ensures TableLeft(b, c)
  {
    hide IsCleared;
    forall i | 0 <= i < |b.nodes|
      ensures |c.nodes| == |b.nodes| && EntryLeft(b.mode, b.nodes[i], c.nodes[i])
    {
      assert m.nodes[i] == b.nodes[i] || m.nodes[i] == CleanNode(b.nodes[i]);
      if c != m { assert EntryKept(h, m.nodes, c.nodes, i); }
    }
    forall i | 0 <= i < |b.items|
      ensures |c.items| == |b.items| && (c.items[i] == b.items[i] || (b.mode.weakValue && c.items[i] == Nil))
    {
      if c != m { assert ItemKept(h, weak, m.items, c.items, i); }
    }
  }

  lemma AtomicLeft(g: Gc, p: Gc, q: Gc, t: Id)
    requires Inv(g) && AllWhite(g) && p == MarkRoot(g) && Inv(p) && p.phase == Propagate && QueueOk(p) && q == PropagateAll(p)
    requires Inv(q) && q.phase == Propagate && QueueOk(q) && t in g.heap && g.heap[t].body.Table? && t in Atomic(q).heap && !White(Atomic(q).heap, t)
    ensures TableLeft(g.heap[t].body, Atomic(q).heap[t].body)
    ensures !WeakBoth(g.heap[t].body) ==> KeysMarked(Atomic(q).heap, t)
  {
    hide Inv, AllWhite, QueueOk, PropagateAll, AtomicMark, Atomic, MarkRoot, BlackClean, BlackKeys, RefsIn, KeysMarked, NoStaleKeys, BothSame, Tricolor, HeapGrown, TableKept, TableLeft, WeakSettled, AgainSettled;
    var m, f := AtomicMark(q), Atomic(q);
    RootLeft(g, t);
    RootKeys(g);
    InvRefs(p);
    PropagateAllBlack(p);
    PropagateAllHeap(p);
    PropagateAllBoth(p);
    InvTricolor(q);
    AtomicMarkHeap(q);
    AtomicMarkBoth(q);
    HeapGrownTrans(p.heap, q.heap, m.heap);
    BothSameTrans(p.heap, q.heap, m.heap);
    var b, c := g.heap[t].body, m.heap[t].body;
    GrownTable(p.heap, m.heap, t);
    AtomicIsTable(q, t, c);
    AtomicTable(q, t);
    if !WeakBoth(b) { AtomicKeys(q, t); }
    if t in m.weak {
      var h :| TableKept(h, c.mode.weakValue, c, f.heap[t].body);
      TableSteps(b, c, h, c.mode.weakValue, f.heap[t].body);
    } else {
      TableSteps(b, c, f.heap, c.mode.weakValue, f.heap[t].body);
    }
  }

  lemma AtomicIsTable(q: Gc, t: Id, b: Body)
    requires Tricolor(q) && QueueOk(q) && t in AtomicMark(q).heap && AtomicMark(q).heap[t].body.Table?
    ensures t in Atomic(q).heap && Atomic(q).heap[t].body.Table?
  {
    hide Tricolor, QueueOk, AtomicMark, HeapGrown;
    AtomicHeap(q);
    AtomicMarkHeap(q);
    TableStays(q.heap, AtomicMark(q).heap, Atomic(q).heap, t);
  }

  lemma TableStays(h: Heap, m: Heap, k: Heap, t: Id)
    requires HeapGrown(h, m) && HeapShrunk(h, k) && t in m && m[t].body.Table?
    ensures t in k && k[t].body.Table?
  {
    assert Cleaned(h[t].body, m[t].body) && Shrunk(h[t].body, k[t].body);
  }

  lemma GrownTable(h: Heap, k: Heap, t: Id)
    requires HeapGrown(h, k) && BothSame(h, k) && t in h && h[t].body.Table?
    ensures t in k && k[t].body.Table? && Cleaned(h[t].body, k[t].body) && k[t].body.mode == h[t].body.mode && (WeakBoth(h[t].body) ==> k[t].body == h[t].body)
  {
  }

  lemma RootLeft(g: Gc, t: Id)
    requires Inv(g) && AllWhite(g) && t in g.heap
    ensures t in MarkRoot(g).heap && MarkRoot(g).heap[t].body == g.heap[t].body
  {
    hide Closed, RootsAlive, ListsOk, ThreadsOk, Tricolor, AllWhite, FreshOk, AllShaded;
    var g0 := g.(gray := [], grayagain := [], weak := []);
    AllWhiteAlive(g);
    TricolorQueue(g0);
    QueueColors(g0);
    MarkEachMarks(g0, MarkedRoots(g));
  }

  lemma InvRefs(g: Gc)
    requires Inv(g) && g.phase == Propagate
    ensures RefsIn(g.heap) && Tricolor(g)
  {
    hide Tricolor, RefsIn;
    RefsInClosed(g);
  }

  /** A table that a collection leaves was alive at the flip. */
  lemma LeftAlive(f: Gc, z: Gc, t: Id)
    requires SweptDown(f, z) && Inv(z) && z.phase == Finalize && t in z.heap && z.heap[t].body.Table?
    ensures t in f.heap && f.heap[t].body == z.heap[t].body && Alive(f, t)
  {
    hide SweptDown, Closed, RootsAlive, ListsOk, Tricolor;
    CycleResult(f, z, t);
    DownObject(f, z, t);
  }

  lemma CycleLeft(g: Gc, t: Id)
    requires Inv(g) && AllWhite(g)
    ensures Inv(MarkRoot(g))
    ensures var r := FinishCycle(MarkRoot(g));
      t in r.heap && r.heap[t].body.Table? ==>
        && t in g.heap && TableLeft(g.heap[t].body, r.heap[t].body)
        && (!WeakBoth(g.heap[t].body) ==> forall id :: IsKey(r.heap[t].body, id) ==> id in r.heap)
  {
    hide Inv, AllWhite, Tricolor, QueueOk, AtomicMark, PropagateAll, FinishSweep, FinishCycle, SweptDown, MarkRoot, Atomic, KeysMarked, TableLeft, IsKey;
    MarkRootInv(g);
    RootMarkPhase(g);
    var p := MarkRoot(g);
    CycleEnds(p);
    CycleMarks(p);
    var q := PropagateAll(p);
    var f := Atomic(q);
    FinishSweepDown(f);
    var z := FinishSweep(f);
    if t in z.heap && z.heap[t].body.Table? {
      LeftAlive(f, z, t);
      FlipAll(g, p, q, f, t);
      SameTables(g, p, q, t);
      AtomicLeft(g, p, q, t);
      if !WeakBoth(g.heap[t].body) {
        KeysMarkedIs(f.heap, t);
        forall id | IsKey(f.heap[t].body, id)
          ensures id in z.heap
        {
          FlipAll(g, p, q, f, id);
          CycleResult(f, z, id);
        }
      }
    }
  }

  /** What is a table at the flip was one before, and the other way round. */
  lemma SameTables(g: Gc, p: Gc, q: Gc, t: Id)
    requires Inv(g) && AllWhite(g) && p == MarkRoot(g) && Inv(p) && p.phase == Propagate && QueueOk(p) && q == PropagateAll(p)
    requires Inv(q) && q.phase == Propagate && QueueOk(q) && t in Atomic(q).heap
    ensures t in g.heap && (g.heap[t].body.Table? <==> Atomic(q).heap[t].body.Table?)
  {
    hide Inv, AllWhite, QueueOk, PropagateAll, AtomicMark, Atomic, MarkRoot, Tricolor, HeapGrown;
    MarkRootInv(g);
    PropagateAllHeap(p);
    GrownShrunk(p.heap, q.heap);
    InvTricolor(q);
    AtomicHeap(q);
    assert HeapShrunk(g.heap, p.heap) && HeapShrunk(p.heap, q.heap) && HeapShrunk(q.heap, Atomic(q).heap);
    assert Shrunk(g.heap[t].body, p.heap[t].body) && Shrunk(p.heap[t].body, q.heap[t].body) && Shrunk(q.heap[t].body, Atomic(q).heap[t].body);
  }

  /** A full collection, from whatever state it is called in: a table that is left has lost entries of its
      weak parts only; an empty entry has lost its collectable key, if the table is not weak both ways, and no
      key that such a table still has refers to an object that is gone. */
  lemma FullGcKeys(g: Gc, t: Id)
    requires Inv(g)
    ensures var r := FullGc(g);
      t in r.heap && r.heap[t].body.Table? ==>
        && t in g.heap && TableLeft(g.heap[t].body, r.heap[t].body)
        && (!WeakBoth(g.heap[t].body) ==> forall id :: IsKey(r.heap[t].body, id) ==> id in r.heap)
  {
    hide Tricolor, FinishSweep, FinishCycle, SweptDown, MarkRoot, HeapOk, ListsOk, ThreadsOk, Closed, RootsAlive, TableLeft, IsKey;
    AbandonInv(g);
    var a := Abandon(g);
    var g1 := FinishSweep(a);
    FinishSweepDown(a);
    MarkRootInv(g1);
    CycleLeft(g1, t);
    AbandonSame(g, t);
    if t in g1.heap { DownObject(a, g1, t); }
  }

  /** An object that is left is of the kind that it was. */
  lemma FullGcKind(g: Gc, t: Id)
    requires Inv(g)
    ensures t in FullGc(g).heap ==> t in g.heap && (FullGc(g).heap[t].body.Table? <==> g.heap[t].body.Table?)
  {
    hide Inv, AllWhite, Tricolor, QueueOk, PropagateAll, FinishSweep, FinishCycle, SweptDown, MarkRoot, Atomic;
    AbandonInv(g);
    var a := Abandon(g);
    var g1 := FinishSweep(a);
    FinishSweepDown(a);
    PauseWhite(g1);
    MarkRootInv(g1);
    RootMarkPhase(g1);
    var p := MarkRoot(g1);
    CycleEnds(p);
    CycleMarks(p);
    var q := PropagateAll(p);
    FinishSweepDown(Atomic(q));
    if t in FullGc(g).heap {
      DownObject(Atomic(q), FinishSweep(Atomic(q)), t);
      SameTables(g1, p, q, t);
      AbandonSame(g, t);
      DownObject(a, g1, t);
    }
  }

  lemma PauseWhite(g: Gc)
    requires Inv(g) && g.phase == Finalize
    ensures AllWhite(g)
  {
  }

  // ---------- a table that is weak both ways ----------

  /** In table 1, weak both ways, entry 0 has lost its value; its key is the only reference to table 3. */
  function StaleState(): Gc {
    var white := Mark(true, false, false, false, false, false, false);
    var b := Table(None, STRONG, [], []);
    Gc(map[0 := Object(white.(fixed := true, superFixed := true), Thread(Ref(1), [])),
           1 := Object(white, Table(None, Mode(true, true), [], [Node(Ref(3), Nil)])), 2 := Object(white, b), 3 := Object(white, b)],
       [], [], [], [3, 2, 1, 0], 0, [[]], 0, white.(fixed := true), Pause, 0, 2, [], 0)
  }

  lemma StaleRefs()
    ensures var g := StaleState();
      && (forall o, id :: o in g.heap && id in Refs(g.heap[o].body) ==> id == 1)
      && (forall id :: id in Roots(g) ==> id == 0 || id == 2)
      && 1 in StrongRefs(g.heap[0].body)
  {
    assert ValuesIds([]) == [] && NodesIds([], true, true) == [];
    assert NodesIds([Node(Ref(3), Nil)], true, true) == NodeIds(Node(Ref(3), Nil), true, true) + NodesIds([], true, true);
  }

  lemma StaleInv()
    ensures Inv(StaleState())
  {
    hide Refs, Roots, ListsOk, Closed, RootsAlive, HeapOk, AllWhite, ThreadsOk;
    StaleSound();
    StaleLists();
    StaleColors();
  }

  lemma StaleColors()
    ensures var g := StaleState(); HeapOk(g.heap) && AllWhite(g) && ThreadsOk(g)
  {
    hide HeapOk, AllWhite;
    StaleMarks();
    StaleWhites();
  }

  lemma StaleMarks()
    ensures HeapOk(StaleState().heap)
  {
  }

  lemma StaleWhites()
    ensures AllWhite(StaleState())
  {
  }

  lemma StaleSound()
    ensures Closed(StaleState()) && RootsAlive(StaleState())
  {
    hide Refs, Roots;
    StaleRefs();
    assert forall o :: Alive(StaleState(), o) <==> o == 0 || o == 1 || o == 2 || o == 3;
  }

  lemma StaleLists()
    ensures ListsOk(StaleState())
  {
    hide Refs, Roots, MarkOk;
  }

  lemma StaleUnreached(path: seq<Id>)
    ensures !PathFrom(StaleState().heap, Roots(StaleState()), path, 3, true)
  {
    hide PathFrom, Refs, Roots;
    var g := StaleState();
    StaleRefs();
    var s := iset{0, 1, 2};
    forall o, r | o in s && Link(g.heap, o, r, true)
      ensures r in s
    {
      StrongIsPart(g.heap[o].body, r);
    }
    if PathFrom(g.heap, Roots(g), path, 3, true) { PathStays(g.heap, Roots(g), path, 3, true, s); }
  }

  /** The condition is needed: a table that is weak both ways may be left with a key that refers to an object
      that is gone. */
  lemma StaleKeyStays()
    ensures var g := StaleState(); Inv(g) && var r := FullGc(g);
      1 in r.heap && r.heap[1].body == g.heap[1].body && WeakBoth(r.heap[1].body) && IsKey(r.heap[1].body, 3) && 3 !in r.heap
  {
    hide Inv, FullGc, Roots, Refs, PathFrom;
    var g := StaleState();
    StaleInv();
    StaleReached();
    forall path ensures !PathFrom(g.heap, Roots(g), path, 3, true) { StaleUnreached(path); }
    FullGcExact(g, 1);
    FullGcExact(g, 3);
    FullGcKind(g, 1);
    FullGcKeys(g, 1);
    var b, c := g.heap[1].body, FullGc(g).heap[1].body;
    assert EntryLeft(b.mode, b.nodes[0], c.nodes[0]);
    assert c.items == b.items && c.nodes == b.nodes;
  }

  lemma StaleReached()
    ensures StrongReachable(StaleState(), 1)
  {
    hide Refs;
    var g := StaleState();
    StaleRefs();
    RootReachable(g, 0);
    StrongStep(g, 0, 1);
  }
}
