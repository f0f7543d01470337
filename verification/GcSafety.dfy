/** Every step of the collector keeps the invariant, and frees nothing that can be reached. */
module GcSafety {
  import opened GcHeap
  import opened GcMark
  import opened GcPropagate
  import opened GcTricolor
  import opened GcAtomic
  import opened GcCycle

  /** The part of the invariant that does not depend on the phase. */
  ghost predicate Sound(g: Gc) {
    && CurrentOk(g.currentwhite) && HeapOk(g.heap) && Closed(g) && RootsAlive(g) && ListsOk(g) && ThreadsOk(g)
  }

  // ---------- the mark phase ----------

  lemma AliveLater(g: Gc, r: Gc, o: Id)
    requires HeapShrunk(g.heap, r.heap) && r.currentwhite == g.currentwhite && Alive(g, o)
    ensures Alive(r, o)
  {
    hide Shrunk;
    if White(r.heap, o) { assert r.heap[o].mark.white0 == g.heap[o].mark.white0; }
  }

  lemma MarkedHeapOk(g: Gc, r: Gc)
    requires HeapOk(g.heap) && HeapShrunk(g.heap, r.heap) && ColorsOk(r.heap) && KindsOk(r.heap)
    ensures HeapOk(r.heap)
  {
    hide Shrunk;
    forall o | o in r.heap
      ensures MarkOk(r.heap[o])
    {
      assert MarkOk(g.heap[o]) && KindOk(r.heap[o]);
      if White(r.heap, o) { assert r.heap[o].mark.white0 == g.heap[o].mark.white0; }
    }
  }

  lemma ShrunkClosed(g: Gc, r: Gc)
    requires Closed(g) && NoneDead(g) && HeapShrunk(g.heap, r.heap) && r.currentwhite == g.currentwhite
    ensures Closed(r) && NoneDead(r)
  {
    forall o | o in r.heap
      ensures Alive(r, o)
    {
      AliveLater(g, r, o);
    }
    forall o, id | Alive(r, o) && id in Refs(r.heap[o].body)
      ensures Alive(r, id)
    {
      assert Shrunk(g.heap[o].body, r.heap[o].body) && Alive(g, o);
      AliveLater(g, r, id);
    }
  }

  /** The lists and the threads depend on the kinds of objects only. */
  lemma SameLists(g: Gc, r: Gc)
    requires ListsOk(g) && ThreadsOk(g) && HeapShrunk(g.heap, r.heap)
    requires r.rootgc == g.rootgc && r.strt == g.strt && r.mainthread == g.mainthread && r.running == g.running
    ensures ListsOk(r) && ThreadsOk(r)
  {
    forall o | o in g.heap
      ensures o in r.heap && (r.heap[o].body.Str? <==> g.heap[o].body.Str?) && (r.heap[o].body.Thread? <==> g.heap[o].body.Thread?)
    {
      assert Shrunk(g.heap[o].body, r.heap[o].body);
    }
    SameKindsLists(g, r);
  }

  lemma SameKindsLists(g: Gc, r: Gc)
    requires ListsOk(g) && r.rootgc == g.rootgc && r.strt == g.strt && r.heap.Keys == g.heap.Keys
    requires forall o :: o in g.heap ==> (r.heap[o].body.Str? <==> g.heap[o].body.Str?)
    ensures ListsOk(r)
  {
    hide NoDup, Apart;
    forall i | 0 <= i < |r.strt|
      ensures BucketOk(r.heap, r.strt[i])
    {
      assert BucketOk(g.heap, g.strt[i]);
    }
  }

  /** While marking goes on nothing is dead. */
  lemma MarkingKeeps(g: Gc, r: Gc)
    requires Sound(g) && NoneDead(g) && HeapShrunk(g.heap, r.heap) && SameOthers(g, r) && Tricolor(r)
    ensures Sound(r) && NoneDead(r)
  {
    hide Exposed, HeapShrunk, ListsOk, ThreadsOk, Closed, NoneDead, HeapOk;
    TricolorQueue(r);
    MarkedHeapOk(g, r);
    ShrunkClosed(g, r);
    SameLists(g, r);
    forall o | o in Roots(r)
      ensures Alive(r, o)
    {
      AliveLater(g, r, o);
    }
  }

  lemma AllWhiteAlive(g: Gc)
    requires CurrentOk(g.currentwhite) && HeapOk(g.heap) && AllWhite(g)
    ensures NoneDead(g) && Tricolor(g.(gray := [], grayagain := [], weak := []))
  {
    var s := g.(gray := [], grayagain := [], weak := []);
    forall o | o in g.heap
      ensures Alive(g, o) && !Exposed(g.heap, o) && KindOk(g.heap[o]) && !IsGray(g.heap[o].mark)
    {
      assert MarkOk(g.heap[o]);
      AliveIs(g, o);
    }
  }

  lemma MarkRootSound(g: Gc)
    requires Sound(g) && AllWhite(g)
    ensures var t := MarkEach(g.(gray := [], grayagain := [], weak := []), MarkedRoots(g));
      && Sound(t) && NoneDead(t) && Tricolor(t) && HeapShrunk(g.heap, t.heap) && SameOthers(g, t)
      && (forall o :: o in MarkedRoots(g) ==> !White(t.heap, o))
  {
    hide HeapOk, Closed, ListsOk, ThreadsOk, RootsAlive, NoneDead, Tricolor, Marked, HeapShrunk, AllWhite;
    var s := g.(gray := [], grayagain := [], weak := []);
    AllWhiteAlive(g);
    TricolorQueue(s);
    QueueColors(s);
    var ids := MarkedRoots(g);
    var t := MarkEach(s, ids);
    MarkEachMarks(s, ids);
    MarkedTricolor(s, t);
    MarkedHeap(s, t);
    GrownShrunk(g.heap, t.heap);
    SoundLists(g, s);
    MarkingKeeps(s, t);
  }

  lemma MarkRootInv(g: Gc)
    requires Inv(g) && AllWhite(g)
    ensures Inv(MarkRoot(g)) && HeapShrunk(g.heap, MarkRoot(g).heap)
  {
    hide HeapOk, Closed, ListsOk, ThreadsOk, RootsAlive, NoneDead, Tricolor, HeapShrunk, AllWhite;
    var t := MarkEach(g.(gray := [], grayagain := [], weak := []), MarkedRoots(g));
    MarkRootSound(g);
    TricolorPhase(t, Propagate);
    SoundPhase(t, Propagate);
    assert g.mainthread in MarkedRoots(g) && g.registry in MarkedRoots(g);
  }

  lemma SoundLists(g: Gc, s: Gc)
    requires Sound(g) && AllWhite(g) && NoneDead(g) && s == g.(gray := [], grayagain := [], weak := [])
    ensures Sound(s) && NoneDead(s)
  {
    hide ListsOk;
    assert forall o :: Alive(s, o) <==> Alive(g, o);
    assert ListsOk(s) by { ListsSame(g, s); }
  }

  lemma ListsSame(g: Gc, s: Gc)
    requires ListsOk(g) && s.heap == g.heap && s.rootgc == g.rootgc && s.strt == g.strt
    ensures ListsOk(s)
  {
  }

  lemma TricolorPhase(g: Gc, p: Phase)
    requires Tricolor(g)
    ensures Tricolor(g.(phase := p))
  {
    hide Exposed;
    var s := g.(phase := p);
    forall o | o in s.heap && IsGray(s.heap[o].mark) && Queued(s.heap[o].body)
      ensures Listed(s, o)
    {
      assert Listed(g, o);
    }
  }

  lemma SoundPhase(g: Gc, p: Phase)
    requires Sound(g)
    ensures Sound(g.(phase := p)) && (NoneDead(g) ==> NoneDead(g.(phase := p)))
  {
    hide ListsOk;
    var s := g.(phase := p);
    assert forall o :: Alive(s, o) <==> Alive(g, o);
    assert ListsOk(s) by { ListsSame(g, s); }
  }

  lemma PropagateInv(g: Gc)
    requires Inv(g) && g.phase == Propagate && g.gray != []
    ensures Inv(PropagateMark(g)) && HeapGrown(g.heap, PropagateMark(g).heap)
  {
    hide HeapOk, Closed, ListsOk, RootsAlive, NoneDead, Tricolor, HeapGrown;
    TricolorQueue(g);
    var r := PropagateMark(g);
    PropagateTricolor(g);
    PropagateGrown(g);
    GrownHeap(g, r);
    GrownShrunk(g.heap, r.heap);
    MarkingKeeps(g, r);
    ShrunkNotWhite(g.heap, r.heap, g.mainthread);
    ShrunkNotWhite(g.heap, r.heap, g.registry);
  }

  lemma GrownHeap(g: Gc, r: Gc)
    requires Grown(g, r)
    ensures HeapGrown(g.heap, r.heap) && SameOthers(g, r)
  {
  }

  // ---------- the flip ----------

  lemma FlipAlive(g: Gc, r: Gc, o: Id)
    requires CurrentOk(g.currentwhite) && HeapOk(g.heap) && NoneDead(g) && HeapShrunk(g.heap, r.heap)
    requires r.currentwhite == OtherWhite(g.currentwhite) && o in r.heap
    ensures Alive(r, o) <==> !White(r.heap, o)
  {
    hide Shrunk;
    assert MarkOk(g.heap[o]) && Alive(g, o);
    if White(r.heap, o) { assert r.heap[o].mark.white0 == g.heap[o].mark.white0; }
  }

  lemma AtomicColors(g: Gc)
    requires Tricolor(g) && HeapOk(g.heap)
    ensures HeapOk(Atomic(g).heap)
  {
    hide Tricolor, QueueOk, WeakSettled, AgainSettled, WeakReady, HeapGrown;
    TricolorQueue(g);
    var m := AtomicMark(g);
    AtomicMarkTricolor(g);
    AtomicMarkHeap(g);
    GrownShrunk(g.heap, m.heap);
    TricolorQueue(m);
    QueueColors(m);
    assert KindsOk(m.heap) by { TricolorKinds(m); }
    MarkedHeapOk(g, m);
    var list := After(m.rootgc, m.mainthread);
    var h := SeparateUdata(m.heap, list);
    SeparateDone(m.heap, list);
    forall t | t in m.weak
      ensures WeakReady(h, t)
    {
      WeakIsReady(m, t);
      SeparatedReady(m.heap, h, t);
    }
    AllClearedAll(h, m.weak);
    ClearedHeapOk(m.heap, h, ClearTables(h, m.weak), m.weak);
  }

  lemma TricolorKinds(g: Gc)
    requires Tricolor(g)
    ensures KindsOk(g.heap)
  {
  }

  lemma ClearedHeapOk(m: Heap, h: Heap, k: Heap, ts: seq<Id>)
    requires HeapOk(m) && Separated(m, h) && ClearedAll(h, k, ts)
    ensures HeapOk(k)
  {
    hide Pruned;
    forall o | o in k
      ensures MarkOk(k[o])
    {
      assert MarkOk(m[o]) && StringsOnly(h[o], k[o]);
      PrunedKind(h[o].body, k[o].body);
    }
  }

  lemma AtomicRootsAlive(g: Gc)
    requires Inv(g) && g.phase == Propagate
    ensures RootsAlive(Atomic(g))
  {
    hide HeapOk, Closed, ListsOk, NoneDead, Tricolor, QueueOk, HeapShrunk, HeapGrown, AtomicMark, ClearTables;
    TricolorQueue(g);
    var r := Atomic(g);
    AtomicHeap(g);
    AtomicMarkHeap(g);
    forall o | o in Roots(r)
      ensures Alive(r, o)
    {
      assert o in Roots(g) && Alive(g, o);
      assert o == g.mainthread || o == g.registry || o in [g.running] + OptsIds(g.mt);
      assert o in r.heap by { SameKeys(g.heap, r.heap); }
      FlipAlive(g, r, o);
    }
  }

  lemma SameKeys(h: Heap, k: Heap)
    requires HeapShrunk(h, k)
    ensures k.Keys == h.Keys
  {
  }

  lemma AtomicAllClosed(g: Gc)
    requires Inv(g) && g.phase == Propagate
    ensures Closed(Atomic(g))
  {
    hide HeapOk, ListsOk, NoneDead, Tricolor, HeapShrunk;
    TricolorQueue(g);
    var r := Atomic(g);
    AtomicHeap(g);
    AtomicClosed(g);
    AtomicMarkHeap(g);
    forall o, id | Alive(r, o) && id in Refs(r.heap[o].body)
      ensures Alive(r, id)
    {
      FlipAlive(g, r, o);
      assert NoWhiteRefs(r.heap, o);
      RefStaysInHeap(g, r, o, id);
      FlipAlive(g, r, id);
    }
  }

  lemma RefStaysInHeap(g: Gc, r: Gc, o: Id, id: Id)
    requires Closed(g) && NoneDead(g) && HeapShrunk(g.heap, r.heap) && o in r.heap && id in Refs(r.heap[o].body)
    ensures id in r.heap
  {
    assert Shrunk(g.heap[o].body, r.heap[o].body) && Alive(g, o);
    assert Alive(g, id);
  }

  /** atomic keeps the invariant: from here on dead means not marked. */
  lemma AtomicInv(g: Gc)
    requires Inv(g) && g.phase == Propagate
    ensures StepOk(g) && Inv(Atomic(g))
  {
    hide HeapOk, Closed, ListsOk, ThreadsOk, NoneDead, Tricolor, QueueOk, HeapShrunk, RootsAlive, HeapGrown, AtomicMark, ClearTables;
    TricolorQueue(g);
    var r := Atomic(g);
    AtomicHeap(g);
    AtomicMarkHeap(g);
    AtomicColors(g);
    AtomicRootsAlive(g);
    AtomicAllClosed(g);
    SameLists(g, r);
    TableNotEmpty(r);
  }

  lemma TableNotEmpty(g: Gc)
    requires ListsOk(g)
    ensures |g.strt| > 0
  {
  }
}
