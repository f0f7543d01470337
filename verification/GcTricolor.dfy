/** The tri-colour invariant, and that marking, propagation and the barriers keep it. */
module GcTricolor {
  import opened GcHeap
  import opened GcMark
  import opened GcPropagate

  /** o is black and yet may refer to something white. */
  predicate Exposed(h: Heap, o: Id)
    requires o in h
  {
    IsBlack(h[o].mark) && exists r :: r in Refs(h[o].body) && White(h, r)
  }

  /** No black object but the exceptions refers to a white one. */
  ghost predicate BlackOk(h: Heap, except: set<Id>) { forall o :: o in h && o !in except ==> !Exposed(h, o) }

  /** Every gray object waits on one of the lists. */
  ghost predicate GrayOk(g: Gc) { forall o :: o in g.heap && IsGray(g.heap[o].mark) && Queued(g.heap[o].body) ==> Listed(g, o) }

  /** Threads and strings are never black; userdata and closed upvalues are never gray. */
  predicate KindOk(x: Object) {
    && (x.body.Thread? || x.body.Str? ==> !IsBlack(x.mark))
    && (x.body.Userdata? || x.body.UpVal? ==> !IsGray(x.mark))
  }

  predicate KindsOk(h: Heap) { forall o :: o in h ==> KindOk(h[o]) }

  ghost predicate Tricolor(g: Gc) { QueueOk(g) && BlackOk(g.heap, {}) && GrayOk(g) && KindsOk(g.heap) }

  // ---------- marking ----------

  lemma MarkedBlack(g: Gc, r: Gc, except: set<Id>)
    requires Marked(g, r) && BlackOk(g.heap, except)
    ensures BlackOk(r.heap, except)
  {
    forall o | o in r.heap && o !in except
      ensures !Exposed(r.heap, o)
    {
      if White(g.heap, o) && !White(r.heap, o) { assert Shaded(r.heap, Fresh(g, r), o); }
      else { assert r.heap[o] == g.heap[o] && !Exposed(g.heap, o); }
    }
  }

  lemma MarkedGray(g: Gc, r: Gc)
    requires Marked(g, r) && GrayOk(g)
    ensures GrayOk(r)
  {
    forall o | o in r.heap && IsGray(r.heap[o].mark) && Queued(r.heap[o].body)
      ensures Listed(r, o)
    {
      if White(g.heap, o) { assert Shaded(r.heap, Fresh(g, r), o); } else { assert Listed(g, o); }
    }
  }

  lemma MarkedKinds(g: Gc, r: Gc)
    requires Marked(g, r) && KindsOk(g.heap)
    ensures KindsOk(r.heap)
  {
    forall o | o in r.heap
      ensures KindOk(r.heap[o])
    {
      if White(g.heap, o) && !White(r.heap, o) { assert Shaded(r.heap, Fresh(g, r), o); }
      else { assert KindOk(g.heap[o]); }
    }
  }

  /** Marking keeps the invariant. */
  lemma MarkedTricolor(g: Gc, r: Gc)
    requires Tricolor(g) && Marked(g, r)
    ensures Tricolor(r)
  {
    MarkedQueue(g, r);
    MarkedBlack(g, r, {});
    MarkedGray(g, r);
    MarkedKinds(g, r);
  }

  // ---------- propagation ----------

  lemma SettledNotExposed(b: Body, h: Heap, o: Id)
    requires o in h && Cleaned(b, h[o].body) && Settled(h, o) && (b.Table? ==> !IsWeak(b.mode))
    ensures !Exposed(h, o)
  {
    if b.Table? { assert b.mode == STRONG; }
    CleanedRefs(b, h[o].body);
  }

  lemma TakenOk(g: Gc, r: Gc, o: Id)
    requires Tricolor(g) && g.gray != [] && o == Head(g) && r.heap.Keys == g.heap.Keys && Visited(g, r, o)
    ensures var t := Taken(g, r, o); BlackOk(t.heap, {o}) && GrayOk(t) && KindsOk(t.heap)
  {
    hide Settled;
    var t := Taken(g, r, o);
    forall x | x in t.heap && x != o
      ensures !Exposed(t.heap, x) && KindOk(t.heap[x])
    {
      assert !Exposed(g.heap, x) && KindOk(g.heap[x]);
      assert forall y :: White(t.heap, y) ==> White(g.heap, y);
    }
    assert KindOk(g.heap[o]);
    forall x | x in t.heap && IsGray(t.heap[x].mark) && Queued(t.heap[x].body)
      ensures Listed(t, x)
    {
      if x != o { assert Listed(g, x); }
    }
  }

  /** propagatemark keeps the invariant. */
  lemma PropagateTricolor(g: Gc)
    requires Tricolor(g) && g.gray != []
    ensures Tricolor(PropagateMark(g))
  {
    var r, o := PropagateMark(g), Head(g);
    PropagateFacts(g);
    PropagateQueue(g);
    var t := Taken(g, r, o);
    TakenOk(g, r, o);
    MarkedBlack(t, r, {o});
    MarkedGray(t, r);
    MarkedKinds(t, r);
    VisitedNotExposed(g, r, o);
  }

  lemma VisitedNotExposed(g: Gc, r: Gc, o: Id)
    requires o in g.heap && o in r.heap && Visited(g, r, o)
    ensures !Exposed(r.heap, o)
  {
    if IsBlack(r.heap[o].mark) { SettledNotExposed(g.heap[o].body, r.heap, o); }
  }

  lemma {:induction false} PropagateAllTricolor(g: Gc)
    requires Tricolor(g)
    ensures Tricolor(PropagateAll(g)) && PropagateAll(g).gray == []
    decreases Whites(g.heap), |g.gray|
  {
    if g.gray != [] {
      PropagateTricolor(g);
      PropagateShrinks(g);
      PropagateAllTricolor(PropagateMark(g));
    }
  }

  // ---------- what is left on the other two lists ----------

  /** Every table on the weak list has been traversed since anything it holds strongly could have
      changed, and its bits say how weak it was then. */
  ghost predicate WeakSettled(g: Gc) {
    forall t :: t in g.weak ==>
      t in g.heap && g.heap[t].body.Table? && IsWeak(g.heap[t].body.mode) && Settled(g.heap, t)
      && g.heap[t].mark.bit3 == g.heap[t].body.mode.weakKey && g.heap[t].mark.bit4 == g.heap[t].body.mode.weakValue
  }

  ghost predicate AgainSettled(g: Gc) {
    forall t :: t in g.grayagain ==> t in g.heap && g.heap[t].body.Thread? && Settled(g.heap, t)
  }

  lemma SettledLater(h: Heap, k: Heap, o: Id)
    requires o in h && o in k && Settled(h, o) && Cleaned(h[o].body, k[o].body) && forall x :: White(k, x) ==> White(h, x)
    ensures Settled(k, o)
  {
    CleanedRefs(h[o].body, k[o].body);
  }

  lemma PropagateOthers(g: Gc, x: Id)
    requires QueueOk(g) && g.gray != [] && x in g.heap && !White(g.heap, x) && x != Head(g)
    ensures var r := PropagateMark(g); x in r.heap && r.heap[x] == g.heap[x] && forall y :: White(r.heap, y) ==> White(g.heap, y)
  {
    hide Settled;
    PropagateFacts(g);
    var r, o := PropagateMark(g), Head(g);
    var t := Taken(g, r, o);
    assert t.heap[x] == g.heap[x];
  }

  lemma PropagateWeak(g: Gc)
    requires QueueOk(g) && g.gray != [] && WeakSettled(g)
    ensures WeakSettled(PropagateMark(g))
  {
    var r, o := PropagateMark(g), Head(g);
    PropagateFacts(g);
    forall t | t in r.weak
      ensures t in r.heap && r.heap[t].body.Table? && IsWeak(r.heap[t].body.mode) && Settled(r.heap, t)
      ensures r.heap[t].mark.bit3 == r.heap[t].body.mode.weakKey && r.heap[t].mark.bit4 == r.heap[t].body.mode.weakValue
    {
      if t in g.weak {
        assert ListsWell(g.heap, t);
        PropagateOthers(g, t);
        SettledLater(g.heap, r.heap, t);
      } else {
        assert t == o;
      }
    }
  }

  lemma PropagateAgain(g: Gc)
    requires QueueOk(g) && g.gray != [] && AgainSettled(g)
    ensures AgainSettled(PropagateMark(g))
  {
    var r, o := PropagateMark(g), Head(g);
    PropagateFacts(g);
    forall t | t in r.grayagain
      ensures t in r.heap && r.heap[t].body.Thread? && Settled(r.heap, t)
    {
      if t in g.grayagain {
        assert ListsWell(g.heap, t);
        PropagateOthers(g, t);
        SettledLater(g.heap, r.heap, t);
      } else {
        assert t == o;
      }
    }
  }

  lemma {:induction false} PropagateAllWeak(g: Gc)
    requires QueueOk(g) && WeakSettled(g)
    ensures WeakSettled(PropagateAll(g))
    decreases Whites(g.heap), |g.gray|
  {
    if g.gray != [] {
      PropagateQueue(g);
      PropagateWeak(g);
      PropagateShrinks(g);
      PropagateAllWeak(PropagateMark(g));
    }
  }

  lemma {:induction false} PropagateAllAgain(g: Gc)
    requires QueueOk(g) && AgainSettled(g)
    ensures AgainSettled(PropagateAll(g))
    decreases Whites(g.heap), |g.gray|
  {
    if g.gray != [] {
      PropagateQueue(g);
      PropagateAgain(g);
      PropagateShrinks(g);
      PropagateAllAgain(PropagateMark(g));
    }
  }

  // ---------- what propagation leaves alone ----------

  /** r comes from g by marking, and by removing empty entries: nothing that is not white turns white. */
  ghost predicate Grown(g: Gc, r: Gc) {
    && r == g.(heap := r.heap, gray := r.gray, grayagain := r.grayagain, weak := r.weak)
    && r.heap.Keys == g.heap.Keys
    && (forall o :: o in g.heap ==> Cleaned(g.heap[o].body, r.heap[o].body))
    && (forall o :: White(r.heap, o) ==> r.heap[o] == g.heap[o])
    && (forall o :: o in g.heap ==> SameRest(g.heap[o].mark, r.heap[o].mark))
  }

  predicate SameRest(m: Mark, n: Mark) { n.fixed == m.fixed && n.superFixed == m.superFixed }

  lemma CleanedTrans(a: Body, b: Body, c: Body)
    requires Cleaned(a, b) && Cleaned(b, c)
    ensures Cleaned(a, c)
  {
    if a.Table? { assert CleanNodes(CleanNodes(a.nodes)) == CleanNodes(a.nodes); }
  }

  lemma GrownTrans(a: Gc, b: Gc, c: Gc)
    requires Grown(a, b) && Grown(b, c)
    ensures Grown(a, c)
  {
    hide Cleaned;
    forall o | o in a.heap
      ensures Cleaned(a.heap[o].body, c.heap[o].body)
    {
      CleanedTrans(a.heap[o].body, b.heap[o].body, c.heap[o].body);
    }
  }

  lemma MarkedGrown(g: Gc, r: Gc)
    requires Marked(g, r)
    ensures Grown(g, r)
  {
  }

  lemma TakenGrown(g: Gc, r: Gc, o: Id)
    requires o in g.heap && g.gray != [] && !White(g.heap, o) && r.heap.Keys == g.heap.Keys
    requires Marked(Taken(g, r, o), r) && Visited(g, r, o)
    ensures Grown(g, Taken(g, r, o))
  {
    hide Settled, Shaded, HeapMarked, FreshOk, AllShaded;
  }

  lemma PropagateGrown(g: Gc)
    requires QueueOk(g) && g.gray != []
    ensures Grown(g, PropagateMark(g))
  {
    hide Visited, Marked, Grown, PropagateMark, Taken, NoDup, Apart, ColorsOk;
    var r, o := PropagateMark(g), Head(g);
    PropagateFacts(g);
    TakenGrown(g, r, o);
    MarkedGrown(Taken(g, r, o), r);
    GrownTrans(g, Taken(g, r, o), r);
  }

  lemma {:induction false} PropagateAllGrown(g: Gc)
    requires QueueOk(g)
    ensures Grown(g, PropagateAll(g))
    decreases Whites(g.heap), |g.gray|
  {
    if g.gray != [] {
      PropagateQueue(g);
      PropagateGrown(g);
      PropagateShrinks(g);
      PropagateAllGrown(PropagateMark(g));
      GrownTrans(g, PropagateMark(g), PropagateAll(g));
    }
  }
}
