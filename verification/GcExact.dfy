/** What a full collection leaves: everything kept alive from the roots, and nothing else but fixed
    objects and the strings that reachable weak tables hold. */
module GcExact {
  import opened GcHeap
  import opened GcMark
  import opened GcPropagate
  import opened GcTricolor
  import opened GcAtomic
  import opened GcCycle
  import opened GcSafety
  import opened GcSweep
  import opened GcProgram
  import opened GcFull

  // ---------- only what must be is marked ----------

  ghost predicate NonwhiteIn(h: Heap, s: iset<Id>) { forall o :: o in h && !White(h, o) ==> o in s }

  lemma ClosedGrown(h: Heap, k: Heap, s: iset<Id>)
    requires ClosedUnder(h, s) && HeapGrown(h, k)
    ensures ClosedUnder(k, s)
  {
    forall o, r | o in s && Link(k, o, r, true)
      ensures r in s
    {
      assert Cleaned(h[o].body, k[o].body);
      CleanedRefs(h[o].body, k[o].body);
      assert Link(h, o, r, true);
    }
  }

  lemma OnlyInTrans(h: Heap, k: Heap, l: Heap, s: iset<Id>)
    requires OnlyIn(h, k, s) && OnlyIn(k, l, s)
    ensures OnlyIn(h, l, s)
  {
  }

  lemma OnlyInNonwhite(h: Heap, k: Heap, s: iset<Id>)
    requires NonwhiteIn(h, s) && OnlyIn(h, k, s) && k.Keys == h.Keys
    ensures NonwhiteIn(k, s)
  {
  }

  /** Changing an object that is not white and stays so changes nobody's whiteness. */
  lemma SameWhites(h: Heap, o: Id, x: Object)
    requires o in h && !White(h, o) && !IsWhite(x.mark)
    ensures forall p :: White(h[o := x], p) <==> White(h, p)
  {
  }

  lemma ClosedRecord(h: Heap, o: Id, x: Object, s: iset<Id>)
    requires o in h && ClosedUnder(h, s) && Cleaned(h[o].body, x.body)
    ensures ClosedUnder(h[o := x], s)
  {
    CleanedRefs(h[o].body, x.body);
    forall p, r | p in s && Link(h[o := x], p, r, true)
      ensures r in s
    {
      assert Link(h, p, r, true);
    }
  }

  lemma StrongInside(h: Heap, o: Id, s: iset<Id>)
    requires o in h && o in s && ClosedUnder(h, s)
    ensures forall id :: id in StrongRefs(h[o].body) ==> id in s
  {
    forall id | id in StrongRefs(h[o].body)
      ensures id in s
    {
      assert Link(h, o, id, true);
    }
  }

  lemma PartsOnlyIn(g: Gc, o: Id, s: iset<Id>)
    requires o in g.heap && g.heap[o].body.Table? && !White(g.heap, o) && ColorsOk(g.heap) && ClosedUnder(g.heap, s) && o in s
    ensures OnlyIn(g.heap, TraverseParts(g, o).heap, s)
  {
    hide ClosedUnder, MarkEach;
    var b := g.heap[o].body;
    var m := b.mode;
    StrongInside(g.heap, o, s);
    if !(m.weakKey && m.weakValue) {
      var x := Object(if IsWeak(m) then g.heap[o].mark.(bit3 := m.weakKey, bit4 := m.weakValue) else g.heap[o].mark,
                      b.(nodes := CleanNodes(b.nodes)));
      var g2 := g.(heap := g.heap[o := x], weak := if IsWeak(m) then [o] + g.weak else g.weak);
      assert TraverseParts(g, o) == MarkEach(g2, PartIds(b, m)) by { PartsAre(g, o, g2); }
      ClosedRecord(g.heap, o, x, s);
      SameWhites(g.heap, o, x);
      MarkEachOnlyIn(g2, PartIds(b, m), s);
    } else {
      SameWhites(g.heap, o, g.heap[o].(mark := g.heap[o].mark.(bit3 := m.weakKey, bit4 := m.weakValue)));
    }
  }

  lemma PartsAre(g: Gc, o: Id, g2: Gc)
    requires o in g.heap && g.heap[o].body.Table? && !(g.heap[o].body.mode.weakKey && g.heap[o].body.mode.weakValue)
    requires var b := g.heap[o].body; var m := b.mode;
      g2 == g.(heap := g.heap[o := Object(if IsWeak(m) then g.heap[o].mark.(bit3 := m.weakKey, bit4 := m.weakValue) else g.heap[o].mark,
                                          b.(nodes := CleanNodes(b.nodes)))],
               weak := if IsWeak(m) then [o] + g.weak else g.weak)
    ensures TraverseParts(g, o) == MarkEach(g2, PartIds(g.heap[o].body, g.heap[o].body.mode))
  {
    var b := g.heap[o].body;
    var m := b.mode;
    var g1 := if IsWeak(m)
              then g.(heap := SetMark(g.heap, o, g.heap[o].mark.(bit3 := m.weakKey, bit4 := m.weakValue)), weak := [o] + g.weak)
              else g;
    assert g1.(heap := SetBody(g1.heap, o, b.(nodes := CleanNodes(b.nodes)))) == g2;
  }

  lemma TableOnlyIn(g: Gc, o: Id, s: iset<Id>)
    requires o in g.heap && g.heap[o].body.Table? && !White(g.heap, o) && ColorsOk(g.heap) && ClosedUnder(g.heap, s) && o in s
    ensures OnlyIn(g.heap, TraverseTable(g, o).heap, s)
  {
    hide ClosedUnder, MarkEach, OnlyIn, TraverseParts;
    StrongInside(g.heap, o, s);
    var ids := OptIds(g.heap[o].body.metatable);
    var g1 := MarkEach(g, ids);
    MarkEachMarks(g, ids);
    MarkedColors(g, g1);
    MarkedKeeps(g, g1, o);
    ClosedUnderMarked(g, g1, s);
    MarkEachOnlyIn(g, ids, s);
    PartsOnlyIn(g1, o, s);
    OnlyInTrans(g.heap, g1.heap, TraverseParts(g1, o).heap, s);
  }

  lemma OnlyInSame(h: Heap, h1: Heap, k1: Heap, k: Heap, s: iset<Id>)
    requires OnlyIn(h1, k1, s)
    requires forall p :: White(h1, p) <==> White(h, p)
    requires forall p :: White(k1, p) <==> White(k, p)
    ensures OnlyIn(h, k, s)
  {
  }

  /** Traversing an object of a closed set marks nothing outside it. */
  lemma PropagateOnlyIn(g: Gc, s: iset<Id>)
    requires QueueOk(g) && g.gray != [] && ClosedUnder(g.heap, s) && Head(g) in s
    ensures OnlyIn(g.heap, PropagateMark(g).heap, s)
  {
    hide ClosedUnder, MarkEach, OnlyIn, TraverseTable, Settled;
    var o := Head(g);
    var b := g.heap[o].body;
    var x := g.heap[o].(mark := if b.Thread? then BlackToGray(GrayToBlack(g.heap[o].mark)) else GrayToBlack(g.heap[o].mark));
    var h1 := g.heap[o := x];
    ColorsSet(g.heap, o, x.mark);
    assert h1 == SetMark(g.heap, o, x.mark);
    ClosedRecord(g.heap, o, x, s);
    StrongInside(g.heap, o, s);
    SameWhites(g.heap, o, x);
    var r := PropagateMark(g);
    if b.Table? {
      var g1 := g.(heap := h1, gray := g.gray[1..]);
      var g2 := TraverseTable(g1, o);
      TableOnlyIn(g1, o, s);
      TraverseTableFacts(g1, o);
      if IsWeak(b.mode) { SameWhites(g2.heap, o, r.heap[o]); }
      OnlyInSame(g.heap, h1, g2.heap, r.heap, s);
    } else {
      var h0 := SetMark(g.heap, o, GrayToBlack(g.heap[o].mark));
      var g1 := if b.Thread?
                then g.(heap := SetMark(h0, o, BlackToGray(h0[o].mark)), gray := g.gray[1..], grayagain := [o] + g.grayagain)
                else g.(heap := h0, gray := g.gray[1..]);
      assert g1.heap == h1;
      MarkEachOnlyIn(g1, Refs(b), s);
      assert r == MarkEach(g1, Refs(b));
      OnlyInSame(g.heap, h1, r.heap, r.heap, s);
    }
  }

  lemma {:induction false} PropagateAllIn(g: Gc, s: iset<Id>)
    requires QueueOk(g) && ClosedUnder(g.heap, s) && NonwhiteIn(g.heap, s)
    ensures ClosedUnder(PropagateAll(g).heap, s) && NonwhiteIn(PropagateAll(g).heap, s)
    decreases Whites(g.heap), |g.gray|
  {
    if g.gray != [] {
      PropagateIn(g, s);
      PropagateQueue(g);
      PropagateShrinks(g);
      PropagateAllIn(PropagateMark(g), s);
    }
  }

  lemma PropagateIn(g: Gc, s: iset<Id>)
    requires QueueOk(g) && g.gray != [] && ClosedUnder(g.heap, s) && NonwhiteIn(g.heap, s)
    ensures ClosedUnder(PropagateMark(g).heap, s) && NonwhiteIn(PropagateMark(g).heap, s)
  {
    hide ClosedUnder, QueueOk;
    PropagateGrown(g);
    GrownHeap(g, PropagateMark(g));
    ClosedGrown(g.heap, PropagateMark(g).heap, s);
    assert Head(g) in s;
    PropagateOnlyIn(g, s);
    OnlyInNonwhite(g.heap, PropagateMark(g).heap, s);
  }

  lemma MarkEachIn(g: Gc, ids: seq<Id>, s: iset<Id>)
    requires ColorsOk(g.heap) && ClosedUnder(g.heap, s) && NonwhiteIn(g.heap, s) && forall id :: id in ids ==> id in s
    ensures ClosedUnder(MarkEach(g, ids).heap, s) && NonwhiteIn(MarkEach(g, ids).heap, s)
  {
    MarkEachMarks(g, ids);
    ClosedUnderMarked(g, MarkEach(g, ids), s);
    MarkEachOnlyIn(g, ids, s);
    OnlyInNonwhite(g.heap, MarkEach(g, ids).heap, s);
  }

  lemma AtomicMarkIn(g: Gc, s: iset<Id>)
    requires QueueOk(g) && ClosedUnder(g.heap, s) && NonwhiteIn(g.heap, s)
    requires forall id :: id in [g.running] + OptsIds(g.mt) ==> id in s
    ensures ClosedUnder(AtomicMark(g).heap, s) && NonwhiteIn(AtomicMark(g).heap, s)
  {
    hide ClosedUnder, NonwhiteIn, QueueOk;
    var g1 := PropagateAll(g);
    PropagateAllIn(g, s);
    PropagateAllHeap(g);
    Requeue(g1);
    var g2 := g1.(gray := g1.weak, weak := []);
    var ids := [g.running] + OptsIds(g.mt);
    var g3 := MarkEach(g2, ids);
    QueueColors(g2);
    MarkEachIn(g2, ids, s);
    MarkEachMarks(g2, ids);
    MarkedQueue(g2, g3);
    PropagateAllIn(g3, s);
    var g4 := PropagateAll(g3);
    Requeue(g4);
    PropagateAllIn(g4.(gray := g4.grayagain, grayagain := []), s);
  }

  // ---------- everything kept alive is marked ----------

  /** When the marking is over, what is not white keeps alive only what is not white. */
  lemma MarkedStrong(g: Gc, o: Id, id: Id)
    requires Tricolor(g) && g.gray == [] && AgainSettled(g) && WeakSettled(g) && !White(g.heap, o) && Link(g.heap, o, id, true)
    ensures !White(g.heap, id)
  {
    hide Tricolor;
    if o in g.weak {
      assert Settled(g.heap, o);
    } else {
      MarkedOut(g, o);
      StrongIsPart(g.heap[o].body, id);
    }
  }

  /** When the marking is over, everything kept alive by something marked is marked. */
  lemma StrongMarked(g: Gc, from: seq<Id>, path: seq<Id>, o: Id)
    requires Tricolor(g) && g.gray == [] && AgainSettled(g) && WeakSettled(g)
    requires (forall id :: id in from ==> !White(g.heap, id)) && PathFrom(g.heap, from, path, o, true)
    ensures !White(g.heap, o)
  {
    var s := iset x: Id | !White(g.heap, x);
    forall x, r | x in s && Link(g.heap, x, r, true)
      ensures r in s
    {
      MarkedStrong(g, x, r);
    }
    PathStays(g.heap, from, path, o, true, s);
  }

  // ---------- strings marked by the clearing ----------

  /** What clearing t marks is referred to by t. */
  ghost predicate MarksRefs(h: Heap, k: Heap, t: Id)
    requires t in h
  {
    forall o :: White(h, o) && !White(k, o) && o in k ==> o in Refs(h[t].body) && h[o].body.Str?
  }

  lemma StringMarkRefs(h: Heap, v: Value, t: Id)
    requires t in h && (v.Ref? ==> v.id in Refs(h[t].body))
    ensures MarksRefs(h, StringMark(h, v), t)
  {
  }

  lemma MarksRefsTrans(h: Heap, k: Heap, l: Heap, t: Id)
    requires t in h && Cleared(h, k, t) && Cleared(k, l, t) && MarksRefs(h, k, t) && MarksRefs(k, l, t)
    ensures MarksRefs(h, l, t)
  {
    forall o | White(h, o) && !White(l, o) && o in l
      ensures o in Refs(h[t].body) && h[o].body.Str?
    {
      if White(k, o) {
        PrunedRefs(h[t].body, k[t].body, o);
        PrunedKind(h[t].body, k[t].body);
      }
    }
  }

  lemma ItemRefs(b: Body, i: nat)
    requires b.Table? && i < |b.items| && b.items[i].Ref?
    ensures b.items[i].id in Refs(b)
  {
    ValuesIdsAre(b.items, b.items[i].id);
  }

  lemma NodeRefs(b: Body, i: nat)
    requires b.Table? && i < |b.nodes| && !b.nodes[i].val.Nil?
    ensures b.nodes[i].key.Ref? ==> b.nodes[i].key.id in Refs(b)
    ensures b.nodes[i].val.Ref? ==> b.nodes[i].val.id in Refs(b)
  {
    if b.nodes[i].key.Ref? { assert b.nodes[i].key.id in NodeIds(b.nodes[i], true, true); NodesIdsAre(b.nodes, true, true, b.nodes[i].key.id); }
    if b.nodes[i].val.Ref? { assert b.nodes[i].val.id in NodeIds(b.nodes[i], true, true); NodesIdsAre(b.nodes, true, true, b.nodes[i].val.id); }
  }

  lemma SetBodyRefs(h: Heap, k: Heap, t: Id, b: Body)
    requires t in h && t in k && MarksRefs(h, k, t)
    ensures MarksRefs(h, SetBody(k, t, b), t)
  {
  }

  lemma ClearItemRefs(h: Heap, t: Id, i: nat)
    requires t in h && h[t].body.Table? && i < |h[t].body.items|
    ensures MarksRefs(h, ClearItem(h, t, i), t)
  {
    hide StringMark, IsCleared, MarksRefs, Refs;
    var v := h[t].body.items[i];
    if v.Ref? { ItemRefs(h[t].body, i); }
    StringMarkRefs(h, v, t);
    SetBodyRefs(h, StringMark(h, v), t, h[t].body.(items := h[t].body.items[i := Nil]));
  }

  lemma SelfRefs(h: Heap, t: Id)
    requires t in h
    ensures MarksRefs(h, h, t)
  {
  }

  lemma ClearNodeRefs(h: Heap, t: Id, i: nat)
    requires t in h && h[t].body.Table? && i < |h[t].body.nodes|
    ensures MarksRefs(h, ClearNode(h, t, i), t)
  {
    hide StringMark, IsCleared, MarksRefs, Refs, Cleared;
    var b := h[t].body;
    var n := b.nodes[i];
    SelfRefs(h, t);
    if !n.val.Nil? {
      NodeRefs(b, i);
      var h1 := StringMark(h, n.key);
      var h2 := StringMark(h1, n.val);
      var c := b.(nodes := b.nodes[i := CleanNode(Node(n.key, Nil))]);
      StringMarkCleared(h, n.key, t);
      StringMarkCleared(h1, n.val, t);
      StringMarkRefs(h, n.key, t);
      StringMarkRefs(h1, n.val, t);
      MarksRefsTrans(h, h1, h2, t);
      SetBodyRefs(h, h1, t, c);
      SetBodyRefs(h, h2, t, c);
    }
  }

  lemma {:induction false} ClearItemsRefs(h: Heap, t: Id, n: nat)
    requires t in h && h[t].body.Table? && n <= |h[t].body.items|
    ensures MarksRefs(h, ClearItems(h, t, n), t)
    decreases n
  {
    hide Cleared, ClearItem, MarksRefs;
    if n == 0 {
      SelfRefs(h, t);
    } else {
      var k := ClearItem(h, t, n - 1);
      ClearItemShape(h, t, n - 1);
      ClearItemCleared(h, t, n - 1);
      ClearItemRefs(h, t, n - 1);
      ClearItemsDone(k, t, n - 1);
      ClearItemsRefs(k, t, n - 1);
      MarksRefsTrans(h, k, ClearItems(k, t, n - 1), t);
    }
  }

  lemma {:induction false} ClearNodesRefs(h: Heap, t: Id, n: nat)
    requires t in h && h[t].body.Table? && n <= |h[t].body.nodes|
    ensures MarksRefs(h, ClearNodes(h, t, n), t)
    decreases n
  {
    hide Cleared, ClearNode, MarksRefs;
    if n == 0 {
      SelfRefs(h, t);
    } else {
      var k := ClearNode(h, t, n - 1);
      ClearNodeShape(h, t, n - 1);
      ClearNodeCleared(h, t, n - 1);
      ClearNodeRefs(h, t, n - 1);
      ClearNodesDone(k, t, n - 1);
      ClearNodesRefs(k, t, n - 1);
      MarksRefsTrans(h, k, ClearNodes(k, t, n - 1), t);
    }
  }

  lemma ClearTableRefs(h: Heap, t: Id)
    requires t in h && h[t].body.Table?
    ensures MarksRefs(h, ClearTable(h, t), t)
  {
    hide Cleared, MarksRefs;
    var b := h[t].body;
    ClearItemsDone(h, t, |b.items|);
    ClearItemsRefs(h, t, |b.items|);
    SelfRefs(h, t);
    ClearedRefl(h, t);
    var k := if h[t].mark.bit4 then ClearItems(h, t, |b.items|) else h;
    ClearNodesDone(k, t, |k[t].body.nodes|);
    ClearNodesRefs(k, t, |k[t].body.nodes|);
    MarksRefsTrans(h, k, ClearTable(h, t), t);
  }

  /** o is a string that one of the tables refers to. */
  predicate HeldBy(h: Heap, ts: seq<Id>, o: Id) {
    o in h && h[o].body.Str? && exists t :: t in ts && t in h && o in Refs(h[t].body)
  }

  lemma HeldEarlier(h: Heap, k: Heap, t: Id, ts: seq<Id>, o: Id)
    requires Cleared(h, k, t) && HeldBy(k, ts, o)
    ensures HeldBy(h, ts, o)
  {
    var u :| u in ts && u in k && o in Refs(k[u].body);
    PrunedKind(h[t].body, k[t].body);
    PrunedSelf(h[u].body);
    PrunedRefs(h[u].body, k[u].body, o);
    assert u in ts && u in h && o in Refs(h[u].body);
  }

  /** What clearing the weak tables marks is strings that they hold. */
  lemma {:induction false} ClearTablesRefs(h: Heap, ts: seq<Id>, o: Id)
    requires forall t :: t in ts ==> WeakReady(h, t)
    requires White(h, o) && !White(ClearTables(h, ts), o)
    ensures HeldBy(h, ts, o)
    decreases |ts|
  {
    hide Cleared, MarksRefs, Refs;
    if ts != [] {
      var t := ts[0];
      assert WeakReady(h, t);
      var k := ClearTable(h, t);
      ClearTableDone(h, t);
      ClearTableRefs(h, t);
      if White(k, o) {
        forall u | u in ts[1..]
          ensures WeakReady(k, u)
        {
          ReadyLater(h, k, t, u);
        }
        ClearTablesRefs(k, ts[1..], o);
        HeldEarlier(h, k, t, ts[1..], o);
        HeldMore(h, ts, o);
      } else {
        OneHeld(h, k, t, ts, o);
      }
    }
  }

  lemma HeldMore(h: Heap, ts: seq<Id>, o: Id)
    requires ts != [] && HeldBy(h, ts[1..], o)
    ensures HeldBy(h, ts, o)
  {
    var u :| u in ts[1..] && u in h && o in Refs(h[u].body);
    assert u in ts;
  }

  lemma OneHeld(h: Heap, k: Heap, t: Id, ts: seq<Id>, o: Id)
    requires t in h && MarksRefs(h, k, t) && k.Keys == h.Keys && White(h, o) && !White(k, o) && t in ts
    ensures HeldBy(h, ts, o)
  {
  }

  // ---------- the cycle of luaC_fullgc ----------

  lemma {:induction false} CycleMarks(p: Gc)
    requires Inv(p) && p.phase == Propagate
    ensures var q := PropagateAll(p); QueueOk(p) && Inv(q) && q.phase == Propagate && q.gray == [] && FinishCycle(p) == FinishCycle(q)
    decreases Whites(p.heap), |p.gray|
  {
    hide HeapOk, Closed, RootsAlive, ListsOk, ThreadsOk, Tricolor, NoneDead, QueueOk, PropagateMark;
    TricolorQueue(p);
    if p.gray != [] {
      SingleStepInv(p);
      PropagateShrinks(p);
      PropagatePhase(p);
      CycleMarks(PropagateMark(p));
    }
  }

  lemma {:induction false} CycleSweeps(f: Gc)
    requires Inv(f) && Rank(f.phase) in {1, 2, 3}
    ensures FinishCycle(f) == FinishSweep(f).(phase := Pause)
    decreases Rank(f.phase), Unmarked(f), Left(f)
  {
    hide Inv, StepOk;
    SingleStepInv(f);
    if f.phase == Finalize {
      assert SingleStep(f) == f.(phase := Pause);
    } else {
      StepAdvances(f);
      SweepPhases(f);
      CycleSweeps(SingleStep(f));
    }
  }

  lemma CycleEnds(p: Gc)
    requires Inv(p) && p.phase == Propagate
    ensures QueueOk(p) && Inv(Atomic(PropagateAll(p))) && Atomic(PropagateAll(p)).phase == SweepString
    ensures FinishCycle(p) == FinishSweep(Atomic(PropagateAll(p))).(phase := Pause)
  {
    hide Inv, Atomic, PropagateAll;
    CycleMarks(p);
    var q := PropagateAll(p);
    AtomicInv(q);
    AtomicPhase(q);
    SingleStepInv(q);
    assert SingleStep(q) == Atomic(q);
    CycleSweeps(Atomic(q));
  }

  /** A string that a weak table kept alive from the roots refers to. */
  ghost predicate HeldString(g: Gc, o: Id) {
    o in g.heap && g.heap[o].body.Str?
    && exists t :: StrongReachable(g, t) && t in g.heap && g.heap[t].body.Table? && IsWeak(g.heap[t].body.mode) && o in Refs(g.heap[t].body)
  }

  /** What the marking of a cycle leaves not white is kept alive from the roots. */
  lemma MarkedIsStrong(g: Gc, p: Gc)
    requires Inv(g) && AllWhite(g) && p == MarkRoot(g) && Inv(p) && p.phase == Propagate
    ensures QueueOk(p) && QueueOk(PropagateAll(p))
    ensures NonwhiteIn(AtomicMark(PropagateAll(p)).heap, iset o | StrongReachable(g, o))
    ensures HeapGrown(g.heap, AtomicMark(PropagateAll(p)).heap)
  {
    hide Closed, RootsAlive, ListsOk, ThreadsOk, Tricolor, QueueOk, StrongReachable, AtomicMark, PropagateAll, HeapMarked;
    var s := iset o | StrongReachable(g, o);
    forall o, r | o in s && Link(g.heap, o, r, true)
      ensures r in s
    {
      StrongStep(g, o, r);
    }
    var g0 := g.(gray := [], grayagain := [], weak := []);
    AllWhiteAlive(g);
    TricolorQueue(g0);
    QueueColors(g0);
    forall id | id in MarkedRoots(g)
      ensures id in s
    {
      RootsStrong(g, id);
    }
    assert NonwhiteIn(g.heap, s) by { NoneMarked(g); }
    MarkEachIn(g0, MarkedRoots(g), s);
    MarkEachMarks(g0, MarkedRoots(g));
    MarkedHeap(g0, MarkEach(g0, MarkedRoots(g)));
    assert p.heap == MarkEach(g0, MarkedRoots(g)).heap;
    TricolorQueue(p);
    PropagateAllIn(p, s);
    PropagateAllHeap(p);
    var q := PropagateAll(p);
    forall id | id in [q.running] + OptsIds(q.mt)
      ensures id in s
    {
      RootReachable(g, id);
    }
    AtomicMarkIn(q, s);
    AtomicMarkHeap(q);
    HeapGrownTrans(g.heap, p.heap, q.heap);
    HeapGrownTrans(g.heap, q.heap, AtomicMark(q).heap);
  }

  lemma NoneMarked(g: Gc)
    requires CurrentOk(g.currentwhite) && HeapOk(g.heap) && AllWhite(g)
    ensures forall o :: o in g.heap ==> White(g.heap, o)
  {
    forall o | o in g.heap
      ensures White(g.heap, o)
    {
      assert MarkOk(g.heap[o]);
      AliveIs(g, o);
    }
  }

  lemma RootsStrong(g: Gc, id: Id)
    requires id in MarkedRoots(g) && ThreadsOk(g)
    ensures StrongReachable(g, id)
  {
    if id in Globals(g) {
      RootReachable(g, g.mainthread);
      assert id in StrongRefs(g.heap[g.mainthread].body);
      StrongStep(g, g.mainthread, id);
    } else {
      RootReachable(g, id);
    }
  }

  lemma GrownLink(h: Heap, k: Heap, from: seq<Id>, path: seq<Id>, o: Id)
    requires HeapGrown(h, k) && PathFrom(h, from, path, o, true)
    ensures PathFrom(k, from, path, o, true)
    decreases |path|
  {
    if |path| > 1 {
      GrownLink(h, k, from, path[..|path| - 1], path[|path| - 2]);
      CleanedRefs(h[path[|path| - 2]].body, k[path[|path| - 2]].body);
    }
  }

  /** At the flip of a cycle: alive is what is kept alive from the roots, and strings held by weak tables. */
  lemma FlipExact(g: Gc, p: Gc, o: Id)
    requires Inv(g) && AllWhite(g) && p == MarkRoot(g) && Inv(p) && p.phase == Propagate
    ensures QueueOk(p) && QueueOk(PropagateAll(p))
    ensures var f := Atomic(PropagateAll(p));
      && (o in f.heap && !White(f.heap, o) ==> StrongReachable(g, o) || HeldString(g, o))
      && (StrongReachable(g, o) && o in g.heap ==> o in f.heap && !White(f.heap, o))
  {
    hide Inv, AllWhite, Tricolor, QueueOk, StrongReachable, HeldString, AtomicMark, PropagateAll, HeapGrown, Separated, ClearTables, WeakSettled, AgainSettled, MarkRoot;
    MarkedIsStrong(g, p);
    var q := PropagateAll(p);
    CycleMarks(p);
    assert Tricolor(q) by { InvTricolor(q); }
    var m := AtomicMark(q);
    AtomicMarkTricolor(q);
    AtomicMarkHeap(q);
    var list := After(m.rootgc, m.mainthread);
    var h := SeparateUdata(m.heap, list);
    SeparateDone(m.heap, list);
    AtomicHeap(q);
    var f := Atomic(q);
    assert f.heap == ClearTables(h, m.weak);
    if o in f.heap && !White(f.heap, o) {
      FlipUpper(g, m, h, o);
    }
    if StrongReachable(g, o) && o in g.heap {
      SameRootsMarked(g, p, q, m);
      FlipLower(g, m, h, f.heap, o);
    }
  }

  lemma InvTricolor(g: Gc)
    requires Inv(g) && g.phase == Propagate
    ensures Tricolor(g)
  {
  }

  lemma FlipUpper(g: Gc, m: Gc, h: Heap, o: Id)
    requires HeapGrown(g.heap, m.heap) && NonwhiteIn(m.heap, iset x | StrongReachable(g, x))
    requires Tricolor(m) && WeakSettled(m) && Separated(m.heap, h)
    requires o in h && !White(ClearTables(h, m.weak), o)
    ensures StrongReachable(g, o) || HeldString(g, o)
  {
    hide StrongReachable, Tricolor, Refs, Settled;
    forall t | t in m.weak
      ensures WeakReady(h, t)
    {
      WeakIsReady(m, t);
      SeparatedReady(m.heap, h, t);
    }
    if White(h, o) {
      ClearTablesRefs(h, m.weak, o);
      var t :| t in m.weak && t in h && o in Refs(h[t].body);
      WeakIsReady(m, t);
      assert StrongReachable(g, t);
      assert Cleaned(g.heap[t].body, m.heap[t].body) && Cleaned(g.heap[o].body, m.heap[o].body);
      CleanedRefs(g.heap[t].body, m.heap[t].body);
      assert HeldString(g, o);
    }
  }

  lemma SameRootsMarked(g: Gc, p: Gc, q: Gc, m: Gc)
    requires p == MarkRoot(g) && QueueOk(p) && q == PropagateAll(p) && QueueOk(q) && m == AtomicMark(q) && Inv(q) && q.phase == Propagate
    ensures forall id :: id in Roots(g) ==> !White(m.heap, id)
  {
    hide Closed, RootsAlive, ListsOk, ThreadsOk, Tricolor, QueueOk, AtomicMark, HeapGrown, Marked;
    PropagateAllHeap(p);
    AtomicMarkHeap(q);
    RootMarkFields(g);
    StaysNotWhite(q.heap, m.heap, g.mainthread);
    StaysNotWhite(q.heap, m.heap, g.registry);
    forall id | id in Roots(g)
      ensures !White(m.heap, id)
    {
      assert id == g.mainthread || id == g.registry || id in [q.running] + OptsIds(q.mt);
    }
  }

  lemma RootMarkFields(g: Gc)
    ensures var p := MarkRoot(g); p.mainthread == g.mainthread && p.registry == g.registry && p.running == g.running && p.mt == g.mt
  {
    MarkEachFields(g.(gray := [], grayagain := [], weak := []), MarkedRoots(g));
  }

  lemma {:induction false} ReallyMarkFields(g: Gc, o: Id)
    requires White(g.heap, o)
    ensures ReallyMark(g, o) == g.(heap := ReallyMark(g, o).heap, gray := ReallyMark(g, o).gray)
    decreases Whites(g.heap), 0
  {
    var m := WhiteToGray(g.heap[o].mark);
    var h1 := SetMark(g.heap, o, m);
    WhitesSetMark(g.heap, o, m);
    WhitesSetMark(g.heap, o, GrayToBlack(m));
    match g.heap[o].body
    case Userdata(mt, env) => MarkEachFields(g.(heap := SetMark(h1, o, GrayToBlack(m))), OptIds(mt) + [env]);
    case UpVal(v) => MarkEachFields(g.(heap := h1), ValueIds(v));
    case _ =>
  }

  lemma {:induction false} MarkEachFields(g: Gc, ids: seq<Id>)
    ensures MarkEach(g, ids) == g.(heap := MarkEach(g, ids).heap, gray := MarkEach(g, ids).gray)
    decreases Whites(g.heap), |ids| + 1
  {
    if ids != [] {
      if White(g.heap, ids[0]) { ReallyMarkFields(g, ids[0]); }
      MarkEachFields(if White(g.heap, ids[0]) then ReallyMark(g, ids[0]) else g, ids[1..]);
    }
  }

  lemma FlipLower(g: Gc, m: Gc, h: Heap, k: Heap, o: Id)
    requires HeapGrown(g.heap, m.heap) && Tricolor(m) && m.gray == [] && AgainSettled(m) && WeakSettled(m)
    requires forall id :: id in Roots(g) ==> !White(m.heap, id)
    requires Separated(m.heap, h) && k == ClearTables(h, m.weak)
    requires StrongReachable(g, o) && o in g.heap
    ensures o in k && !White(k, o)
  {
    hide Tricolor, WeakSettled, AgainSettled, Roots, HeapGrown;
    var path :| PathFrom(g.heap, Roots(g), path, o, true);
    GrownLink(g.heap, m.heap, Roots(g), path, o);
    StrongMarked(m, Roots(g), path, o);
    forall t | t in m.weak
      ensures WeakReady(h, t)
    {
      WeakIsReady(m, t);
      SeparatedReady(m.heap, h, t);
    }
    AllClearedAll(h, m.weak);
    KeptNotWhite(g.heap, m.heap, h, k, m.weak, o);
  }

  lemma KeptNotWhite(g: Heap, m: Heap, h: Heap, k: Heap, ts: seq<Id>, o: Id)
    requires HeapGrown(g, m) && Separated(m, h) && ClearedAll(h, k, ts) && o in g && !White(m, o)
    ensures o in k && !White(k, o)
  {
  }

  // ---------- from the call to the result ----------

  lemma {:induction false} DownPath(g: Gc, r: Gc, path: seq<Id>, o: Id)
    requires SweptDown(g, r) && PathFrom(r.heap, Roots(g), path, o, true)
    ensures PathFrom(g.heap, Roots(g), path, o, true)
    decreases |path|
  {
    if |path| > 1 { DownPath(g, r, path[..|path| - 1], path[|path| - 2]); }
  }

  lemma {:induction false} UpPath(g: Gc, r: Gc, path: seq<Id>, o: Id)
    requires SweptDown(g, r) && Closed(g) && RootsAlive(g) && PathFrom(g.heap, Roots(g), path, o, true)
    ensures PathFrom(r.heap, Roots(g), path, o, true) && Alive(g, o)
    decreases |path|
  {
    if |path| > 1 {
      UpPath(g, r, path[..|path| - 1], path[|path| - 2]);
      StrongIsPart(g.heap[path[|path| - 2]].body, o);
    }
  }

  /** Sweeping neither adds nor removes anything that is kept alive. */
  lemma DownSame(g: Gc, r: Gc, o: Id)
    requires SweptDown(g, r) && Closed(g) && RootsAlive(g)
    ensures StrongReachable(r, o) <==> StrongReachable(g, o)
    ensures HeldString(r, o) ==> HeldString(g, o)
  {
    hide SweptDown, Closed, RootsAlive;
    assert Roots(r) == Roots(g) by { DownRoots(g, r); }
    if StrongReachable(r, o) { DownStrong(g, r, o); }
    UpStrong(g, r, o);
    if HeldString(r, o) {
      var t :| StrongReachable(r, t) && t in r.heap && r.heap[t].body.Table? && IsWeak(r.heap[t].body.mode) && o in Refs(r.heap[t].body);
      DownStrong(g, r, t);
      DownObject(g, r, t);
      DownObject(g, r, o);
      assert HeldString(g, o);
    }
  }

  lemma DownRoots(g: Gc, r: Gc)
    requires SweptDown(g, r)
    ensures Roots(r) == Roots(g)
  {
  }

  lemma DownObject(g: Gc, r: Gc, o: Id)
    requires SweptDown(g, r) && o in r.heap
    ensures o in g.heap && r.heap[o].body == g.heap[o].body && r.heap[o].mark.fixed == g.heap[o].mark.fixed
  {
  }

  lemma DownStrong(g: Gc, r: Gc, o: Id)
    requires SweptDown(g, r) && StrongReachable(r, o)
    ensures StrongReachable(g, o)
  {
    DownRoots(g, r);
    var path :| PathFrom(r.heap, Roots(r), path, o, true);
    DownPath(g, r, path, o);
  }

  lemma UpStrong(g: Gc, r: Gc, o: Id)
    requires SweptDown(g, r) && Closed(g) && RootsAlive(g)
    ensures StrongReachable(g, o) ==> StrongReachable(r, o)
  {
    if StrongReachable(g, o) {
      DownRoots(g, r);
      var path :| PathFrom(g.heap, Roots(g), path, o, true);
      UpPath(g, r, path, o);
    }
  }

  lemma FixedKept(g: Gc, f: Gc, o: Id)
    requires HeapShrunk(g.heap, f.heap) && o in f.heap
    ensures o in g.heap && f.heap[o].mark.fixed == g.heap[o].mark.fixed
  {
    assert SameRest(g.heap[o].mark, f.heap[o].mark);
  }

  /** One cycle from a state in which nothing is marked. */
  lemma CycleExact(g: Gc, o: Id)
    requires Inv(g) && AllWhite(g)
    ensures Inv(MarkRoot(g)) && MarkRoot(g).phase == Propagate
    ensures var r := FinishCycle(MarkRoot(g));
      && (o in r.heap ==> o in g.heap && (StrongReachable(g, o) || HeldString(g, o) || g.heap[o].mark.fixed))
      && (StrongReachable(g, o) && o in g.heap ==> o in r.heap)
  {
    hide Inv, AllWhite, Tricolor, QueueOk, StrongReachable, HeldString, AtomicMark, PropagateAll, FinishSweep, FinishCycle, SweptDown, MarkRoot, HeapShrunk, Atomic;
    MarkRootInv(g);
    RootMarkPhase(g);
    var p := MarkRoot(g);
    CycleEnds(p);
    var q := PropagateAll(p);
    var f := Atomic(q);
    FlipExact(g, p, o);
    FlipAll(g, p, q, f, o);
    FinishSweepDown(f);
    var z := FinishSweep(f);
    CycleResult(f, z, o);
  }

  lemma RootMarkPhase(g: Gc)
    ensures MarkRoot(g).phase == Propagate
  {
  }

  /** The heap at the flip: what is alive in it is what is not white. */
  lemma FlipAll(g: Gc, p: Gc, q: Gc, f: Gc, o: Id)
    requires Inv(g) && AllWhite(g) && p == MarkRoot(g) && Inv(p) && p.phase == Propagate && QueueOk(p) && q == PropagateAll(p) && QueueOk(q) && f == Atomic(q)
    ensures (o in f.heap <==> o in g.heap) && (o in f.heap ==> f.heap[o].mark.fixed == g.heap[o].mark.fixed)
    ensures Alive(f, o) <==> o in f.heap && !White(f.heap, o)
  {
    hide Inv, AllWhite, Tricolor, QueueOk, AtomicMark, PropagateAll, Atomic, MarkRoot, HeapGrown, HeapShrunk;
    MarkRootInv(g);
    CycleMarks(p);
    PropagateAllHeap(p);
    GrownShrunk(p.heap, q.heap);
    InvTricolor(q);
    AtomicHeap(q);
    HeapShrunkTrans(g.heap, p.heap, q.heap);
    HeapShrunkTrans(g.heap, q.heap, f.heap);
    SameKeys(g.heap, f.heap);
    if o in f.heap {
      FixedKept(g, f, o);
      FlipOf(q, f, o);
    }
  }

  lemma FlipOf(q: Gc, f: Gc, o: Id)
    requires Inv(q) && q.phase == Propagate && QueueOk(q) && f == Atomic(q) && o in f.heap
    ensures Alive(f, o) <==> !White(f.heap, o)
  {
    hide Closed, RootsAlive, ListsOk, ThreadsOk, Tricolor, QueueOk, HeapShrunk, HeapOk, NoneDead, AtomicMark;
    AtomicHeap(q);
    AtomicCurrent(q);
    FlipAlive(q, f, o);
  }

  lemma AtomicCurrent(q: Gc)
    requires QueueOk(q)
    ensures Atomic(q).currentwhite == OtherWhite(q.currentwhite)
  {
    hide QueueOk, HeapGrown;
    AtomicMarkHeap(q);
  }

  lemma CycleResult(f: Gc, z: Gc, o: Id)
    requires SweptDown(f, z) && Inv(z) && z.phase == Finalize
    ensures o in z.heap ==> o in f.heap && (Alive(f, o) || f.heap[o].mark.fixed)
    ensures Alive(f, o) ==> o in z.heap
  {
    NotSweeping(z);
  }

  /** What a full collection leaves, from whatever state it is called in: every object kept alive
      from the roots at the call is still there; and whatever is still there was kept alive, or is a
      string held by a weak table that was, or is fixed. */
  lemma FullGcExact(g: Gc, o: Id)
    requires Inv(g)
    ensures var r := FullGc(g);
      && (o in r.heap ==> o in g.heap && (StrongReachable(g, o) || HeldString(g, o) || g.heap[o].mark.fixed))
      && (StrongReachable(g, o) ==> o in r.heap)
  {
    hide Tricolor, StrongReachable, HeldString, FinishSweep, FinishCycle, SweptDown, MarkRoot, HeapOk, ListsOk, ThreadsOk, Closed, RootsAlive;
    AbandonInv(g);
    var a := Abandon(g);
    var g1 := FinishSweep(a);
    FinishSweepDown(a);
    MarkRootInv(g1);
    CycleExact(g1, o);
    DownSame(a, g1, o);
    AbandonSame(g, o);
    if o in g1.heap { DownObject(a, g1, o); }
    if StrongReachable(g, o) {
      StrongIsReachable(g1, o);
      InvAlive(g1, o);
    }
  }

  lemma AbandonSame(g: Gc, o: Id)
    ensures var a := Abandon(g); a.heap == g.heap && (StrongReachable(a, o) <==> StrongReachable(g, o)) && (HeldString(a, o) <==> HeldString(g, o))
  {
    var a := Abandon(g);
    assert Roots(a) == Roots(g);
    assert forall x :: StrongReachable(a, x) <==> StrongReachable(g, x);
  }
}
