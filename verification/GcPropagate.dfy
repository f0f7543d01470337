/** Traversing gray objects: propagatemark and propagateall. */
module GcPropagate {
  import opened GcHeap
  import opened GcMark

  // ---------- traversals ----------

  /** removeentry: an empty entry gives up its collectable key. */
  function CleanNode(n: Node): Node {
    if n.val.Nil? && n.key.Ref? then Node(DeadKey, Nil) else n
  }

  function CleanNodes(ns: seq<Node>): (r: seq<Node>) {
    seq(|ns|, i requires 0 <= i < |ns| => CleanNode(ns[i]))
  }

  predicate IsWeak(m: Mode) { m.weakKey || m.weakValue }

  /** traversetable, without the metatable: a weak table notes its mode and joins the weak list; one
      that is weak both ways is left alone; of any other the strong parts are marked and the empty
      entries removed. */
  function TraverseParts(g: Gc, o: Id): (r: Gc)
    requires o in g.heap && g.heap[o].body.Table?
  {
    var b := g.heap[o].body;
    var m := b.mode;
    var g1 := if IsWeak(m)
              then g.(heap := SetMark(g.heap, o, g.heap[o].mark.(bit3 := m.weakKey, bit4 := m.weakValue)), weak := [o] + g.weak)
              else g;
    if m.weakKey && m.weakValue then g1
    else
      MarkEach(g1.(heap := SetBody(g1.heap, o, b.(nodes := CleanNodes(b.nodes)))), PartIds(b, m))
  }

  function TraverseTable(g: Gc, o: Id): (r: Gc)
    requires o in g.heap && g.heap[o].body.Table? && !White(g.heap, o) && ColorsOk(g.heap)
  {
    MarkEachMarks(g, OptIds(g.heap[o].body.metatable));
    TraverseParts(MarkEach(g, OptIds(g.heap[o].body.metatable)), o)
  }

  predicate Apart(a: seq<Id>, b: seq<Id>) { forall x :: x in a ==> x !in b }

  predicate Listed(g: Gc, o: Id) { o in g.gray || o in g.grayagain || o in g.weak }

  /** Every object on the three lists is a gray object of a kind that is traversed, listed once. */
  predicate QueueOk(g: Gc) {
    && ColorsOk(g.heap)
    && NoDup(g.gray) && NoDup(g.grayagain) && NoDup(g.weak)
    && Apart(g.gray, g.grayagain) && Apart(g.gray, g.weak) && Apart(g.grayagain, g.weak)
    && (forall o :: o in g.gray ==> ListsWell(g.heap, o))
    && (forall o :: o in g.grayagain ==> ListsWell(g.heap, o))
    && (forall o :: o in g.weak ==> ListsWell(g.heap, o))
  }

  predicate ListsWell(h: Heap, o: Id) { o in h && IsGray(h[o].mark) && Queued(h[o].body) }

  /** The object to be traversed next. */
  function Head(g: Gc): (o: Id)
    requires QueueOk(g) && g.gray != []
    ensures o in g.gray && ListsWell(g.heap, o)
  {
    assert g.gray[0] in g.gray;
    g.gray[0]
  }

  /** propagatemark: the first gray object turns black and what it refers to is marked; a weak table
      and a thread turn gray again, the thread to be traversed once more at the end. */
  function PropagateMark(g: Gc): (r: Gc)
    requires QueueOk(g) && g.gray != []
  {
    var o := Head(g);
    var g1 := g.(heap := SetMark(g.heap, o, GrayToBlack(g.heap[o].mark)), gray := g.gray[1..]);
    match g.heap[o].body
    case Table(_, mode, _, _) =>
      TraverseKeeps(g1, o);
      var g2 := TraverseTable(g1, o);
      if IsWeak(mode) then g2.(heap := SetMark(g2.heap, o, BlackToGray(g2.heap[o].mark))) else g2
    case Thread(_, _) =>
      MarkEach(g1.(heap := SetMark(g1.heap, o, BlackToGray(g1.heap[o].mark)), grayagain := [o] + g.grayagain),
               Refs(g.heap[o].body))
    case _ => MarkEach(g1, Refs(g.heap[o].body))
  }

  // ---------- what a traversal does ----------

  lemma {:induction false} CleanIds(ns: seq<Node>, keys: bool, vals: bool)
    ensures NodesIds(CleanNodes(ns), keys, vals) == NodesIds(ns, keys, vals)
    decreases |ns|
  {
    if ns != [] {
      CleanIds(ns[..|ns| - 1], keys, vals);
      assert CleanNodes(ns)[..|ns| - 1] == CleanNodes(ns[..|ns| - 1]);
    }
  }

  /** A body before and after its empty entries are removed. */
  predicate Cleaned(b: Body, c: Body) {
    c == b || (b.Table? && c == b.(nodes := CleanNodes(b.nodes)))
  }

  lemma CleanedRefs(b: Body, c: Body)
    requires Cleaned(b, c)
    ensures Refs(c) == Refs(b) && StrongRefs(c) == StrongRefs(b)
  {
    if b.Table? {
      CleanIds(b.nodes, true, true);
      CleanIds(b.nodes, !b.mode.weakKey, !b.mode.weakValue);
    }
  }

  /** What o keeps alive has been marked. */
  predicate Settled(h: Heap, o: Id)
    requires o in h
  {
    forall id :: id in StrongRefs(h[o].body) ==> !White(h, id)
  }

  lemma TraverseKeeps(g: Gc, o: Id)
    requires o in g.heap && g.heap[o].body.Table? && !White(g.heap, o) && ColorsOk(g.heap)
    ensures TraverseTable(g, o).heap.Keys == g.heap.Keys
  {
    MarkEachMarks(g, OptIds(g.heap[o].body.metatable));
  }

  lemma ShadedOver(h: Heap, gray: seq<Id>, p: Id, o: Id, x: Object)
    requires p in h && o in h && p != o && Shaded(h, gray, p) && !White(h, o) && !IsWhite(x.mark)
    ensures Shaded(h[o := x], gray, p)
  {
  }

  lemma ShadedOverAll(h: Heap, k: Heap, added: seq<Id>, o: Id, x: Object)
    requires HeapMarked(h, k) && AllShaded(h, k, added) && o in h && !White(h, o) && !IsWhite(x.mark)
    ensures AllShaded(h[o := x], k[o := x], added)
  {
    hide Shaded;
    forall p | p in k && White(h[o := x], p) && !White(k[o := x], p)
      ensures Shaded(k[o := x], added, p)
    {
      ShadedOver(k, added, p, o, x);
    }
  }

  lemma HeapOver(h: Heap, k: Heap, added: seq<Id>, o: Id, x: Object)
    requires HeapMarked(h, k) && FreshOk(h, k, added) && o in h && !White(h, o) && !IsWhite(x.mark)
    ensures HeapMarked(h[o := x], k[o := x]) && FreshOk(h[o := x], k[o := x], added)
  {
  }

  /** Marking does not look at an object that is not white. */
  lemma MarkedOver(g: Gc, r: Gc, o: Id, x: Object, weak: seq<Id>)
    requires Marked(g, r) && o in g.heap && !White(g.heap, o) && !IsWhite(x.mark)
    ensures Marked(g.(heap := g.heap[o := x], weak := weak), r.(heap := r.heap[o := x], weak := weak))
  {
    hide HeapMarked, FreshOk, AllShaded;
    var g1, r1 := g.(heap := g.heap[o := x], weak := weak), r.(heap := r.heap[o := x], weak := weak);
    assert Fresh(g1, r1) == Fresh(g, r);
    HeapOver(g.heap, r.heap, Fresh(g, r), o, x);
    ShadedOverAll(g.heap, r.heap, Fresh(g, r), o, x);
  }

  /** The state before a traversal with what the traversal did to o itself. */
  function Before(g: Gc, r: Gc, o: Id): Gc
    requires o in r.heap
  {
    g.(heap := g.heap[o := r.heap[o]], grayagain := r.grayagain, weak := r.weak)
  }

  lemma MarkedKeeps(g: Gc, r: Gc, o: Id)
    requires Marked(g, r) && o in g.heap && !White(g.heap, o)
    ensures r.heap.Keys == g.heap.Keys && r.heap[o] == g.heap[o] && r == g.(heap := r.heap, gray := r.gray)
  {
  }

  /** What a traversal leaves of the table itself. */
  predicate TableDone(g: Gc, r: Gc, o: Id)
    requires o in g.heap && o in r.heap && g.heap[o].body.Table?
  {
    var b := g.heap[o].body;
    && Cleaned(b, r.heap[o].body) && r.grayagain == g.grayagain
    && (if IsWeak(b.mode) then r.weak == [o] + g.weak && r.heap[o].mark == g.heap[o].mark.(bit3 := b.mode.weakKey, bit4 := b.mode.weakValue)
        else r.weak == g.weak && r.heap[o].mark == g.heap[o].mark)
  }

  lemma TraversePartsFacts(g: Gc, o: Id)
    requires o in g.heap && g.heap[o].body.Table? && !White(g.heap, o) && ColorsOk(g.heap)
    ensures var r := TraverseParts(g, o);
      && r.heap.Keys == g.heap.Keys && Marked(Before(g, r, o), r) && TableDone(g, r, o)
      && (forall id :: id in PartIds(g.heap[o].body, g.heap[o].body.mode) ==> !White(r.heap, id))
  {
    hide Marked, MarkEach, NodesIds, ValuesIds;
    var b := g.heap[o].body;
    var m := b.mode;
    var r := TraverseParts(g, o);
    var g1 := if IsWeak(m)
              then g.(heap := SetMark(g.heap, o, g.heap[o].mark.(bit3 := m.weakKey, bit4 := m.weakValue)), weak := [o] + g.weak)
              else g;
    if m.weakKey && m.weakValue {
      MarkedRefl(g1);
      assert Before(g, r, o) == g1;
      NoIds(b.nodes);
    } else {
      var g2 := g1.(heap := SetBody(g1.heap, o, b.(nodes := CleanNodes(b.nodes))));
      MarkEachMarks(g2, PartIds(b, m));
      MarkedKeeps(g2, r, o);
      assert Before(g, r, o) == g2;
    }
  }

  lemma {:induction false} NoIds(ns: seq<Node>)
    ensures NodesIds(ns, false, false) == []
    decreases |ns|
  {
    if ns != [] { NoIds(ns[..|ns| - 1]); }
  }

  lemma TraverseTableFacts(g: Gc, o: Id)
    requires o in g.heap && g.heap[o].body.Table? && !White(g.heap, o) && ColorsOk(g.heap)
    ensures var r := TraverseTable(g, o);
      && r.heap.Keys == g.heap.Keys && Marked(Before(g, r, o), r) && TableDone(g, r, o) && Settled(r.heap, o)
  {
    hide Marked, MarkEach, NodesIds, ValuesIds, TraverseParts;
    var b := g.heap[o].body;
    var g1 := MarkEach(g, OptIds(b.metatable));
    MarkEachMarks(g, OptIds(b.metatable));
    MarkedColors(g, g1);
    MarkedKeeps(g, g1, o);
    var r := TraverseParts(g1, o);
    TraversePartsFacts(g1, o);
    MarkedOver(g, g1, o, r.heap[o], r.weak);
    assert Before(g1, r, o) == g1.(heap := g1.heap[o := r.heap[o]], weak := r.weak);
    assert Before(g, r, o) == g.(heap := g.heap[o := r.heap[o]], weak := r.weak);
    MarkedTrans(Before(g, r, o), Before(g1, r, o), r);
    StaysMarked(g1, r, o, OptIds(b.metatable));
    TableSettled(b, r.heap, o);
  }

  lemma StaysMarked(g: Gc, r: Gc, o: Id, ids: seq<Id>)
    requires o in r.heap && Marked(Before(g, r, o), r) && !IsWhite(r.heap[o].mark)
    requires forall id :: id in ids ==> !White(g.heap, id)
    ensures forall id :: id in ids ==> !White(r.heap, id)
  {
  }

  lemma TableSettled(b: Body, h: Heap, o: Id)
    requires b.Table? && o in h && Cleaned(b, h[o].body)
    requires forall id :: id in OptIds(b.metatable) ==> !White(h, id)
    requires forall id :: id in PartIds(b, b.mode) ==> !White(h, id)
    ensures Settled(h, o)
  {
    hide PartIds;
    CleanedRefs(b, h[o].body);
    assert StrongRefs(b) == OptIds(b.metatable) + PartIds(b, b.mode);
  }

  // ---------- propagatemark ----------

  /** How propagatemark leaves the object it has traversed. */
  predicate Visited(g: Gc, r: Gc, o: Id)
    requires o in g.heap && o in r.heap
  {
    var b, m := g.heap[o].body, r.heap[o].mark;
    && Cleaned(b, r.heap[o].body) && !IsWhite(m) && Settled(r.heap, o)
    && m.fixed == g.heap[o].mark.fixed && m.superFixed == g.heap[o].mark.superFixed
    && (if b.Thread? then IsGray(m) && r.grayagain == [o] + g.grayagain && r.weak == g.weak
        else if b.Table? && IsWeak(b.mode) then
          IsGray(m) && m.bit3 == b.mode.weakKey && m.bit4 == b.mode.weakValue && r.weak == [o] + g.weak && r.grayagain == g.grayagain
        else IsBlack(m) && r.grayagain == g.grayagain && r.weak == g.weak)
  }

  /** The state before propagatemark with the traversed object as it ends up, off the gray list. */
  function Taken(g: Gc, r: Gc, o: Id): Gc
    requires o in r.heap && g.gray != []
  {
    g.(heap := g.heap[o := r.heap[o]], gray := g.gray[1..], grayagain := r.grayagain, weak := r.weak)
  }

  lemma ColorsSet(h: Heap, o: Id, m: Mark)
    requires ColorsOk(h) && o in h && !IsWhite(m)
    ensures ColorsOk(SetMark(h, o, m))
  {
  }

  lemma PropagateTable(g: Gc)
    requires QueueOk(g) && g.gray != [] && g.heap[Head(g)].body.Table?
    ensures var r, o := PropagateMark(g), Head(g);
      r.heap.Keys == g.heap.Keys && Marked(Taken(g, r, o), r) && Visited(g, r, o)
  {
    hide Marked, TraverseTable, Settled;
    var o := Head(g);
    var g1 := g.(heap := SetMark(g.heap, o, GrayToBlack(g.heap[o].mark)), gray := g.gray[1..]);
    ColorsSet(g.heap, o, GrayToBlack(g.heap[o].mark));
    var g2, r := TraverseTable(g1, o), PropagateMark(g);
    TraverseTableFacts(g1, o);
    if IsWeak(g.heap[o].body.mode) {
      var x := r.heap[o];
      MarkedOver(Before(g1, g2, o), g2, o, x, g2.weak);
      assert Taken(g, r, o) == Before(g1, g2, o).(heap := Before(g1, g2, o).heap[o := x], weak := g2.weak);
      assert r == g2.(heap := g2.heap[o := x], weak := g2.weak);
      SettledOver(g2.heap, o, x);
    } else {
      assert Taken(g, r, o) == Before(g1, g2, o);
    }
  }

  lemma SettledOver(h: Heap, o: Id, x: Object)
    requires o in h && Settled(h, o) && x.body == h[o].body && !IsWhite(x.mark)
    ensures Settled(h[o := x], o)
  {
  }

  lemma PropagateOther(g: Gc)
    requires QueueOk(g) && g.gray != [] && !g.heap[Head(g)].body.Table?
    ensures var r, o := PropagateMark(g), Head(g);
      r.heap.Keys == g.heap.Keys && Marked(Taken(g, r, o), r) && Visited(g, r, o)
  {
    hide Marked, MarkEach;
    var o := Head(g);
    var r := PropagateMark(g);
    var b := g.heap[o].body;
    var h1 := SetMark(g.heap, o, GrayToBlack(g.heap[o].mark));
    var g1 := if b.Thread?
              then g.(heap := SetMark(h1, o, BlackToGray(h1[o].mark)), gray := g.gray[1..], grayagain := [o] + g.grayagain)
              else g.(heap := h1, gray := g.gray[1..]);
    ColorsSet(g.heap, o, g1.heap[o].mark);
    assert g1.heap == SetMark(g.heap, o, g1.heap[o].mark);
    MarkEachMarks(g1, Refs(b));
    MarkedKeeps(g1, r, o);
    assert Taken(g, r, o) == g1;
  }

  /** What propagatemark does: the first gray object is dealt with, and what it keeps alive marked. */
  lemma PropagateFacts(g: Gc)
    requires QueueOk(g) && g.gray != []
    ensures var r, o := PropagateMark(g), Head(g);
      r.heap.Keys == g.heap.Keys && Marked(Taken(g, r, o), r) && Visited(g, r, o)
  {
    if g.heap[Head(g)].body.Table? { PropagateTable(g); } else { PropagateOther(g); }
  }

  lemma TakenQueue(g: Gc, r: Gc, o: Id)
    requires QueueOk(g) && g.gray != [] && o == Head(g) && o in r.heap && Visited(g, r, o)
    ensures QueueOk(Taken(g, r, o))
  {
    hide Settled;
    var t := Taken(g, r, o);
    assert ListsWell(g.heap, o);
    assert o !in t.gray;
    forall x | Listed(t, x)
      ensures ListsWell(t.heap, x)
    {
      if x != o { assert Listed(g, x); }
    }
  }

  lemma MarkedQueue(g: Gc, r: Gc)
    requires QueueOk(g) && Marked(g, r)
    ensures QueueOk(r)
  {
    MarkedColors(g, r);
    forall x | Listed(g, x)
      ensures ListsWell(r.heap, x) && x !in Fresh(g, r)
    {
      assert ListsWell(g.heap, x);
    }
    forall x | x in Fresh(g, r)
      ensures ListsWell(r.heap, x)
    {
      assert Shaded(r.heap, Fresh(g, r), x);
    }
    NoDupJoin(Fresh(g, r), g.gray);
  }

  lemma NoDupJoin(a: seq<Id>, b: seq<Id>)
    requires NoDup(a) && NoDup(b) && Apart(a, b)
    ensures NoDup(a + b)
  {
    forall i, j | 0 <= i < j < |a + b|
      ensures (a + b)[i] != (a + b)[j]
    {
      if i < |a| <= j { assert a[i] in a && b[j - |a|] in b; }
    }
  }

  lemma PropagateQueue(g: Gc)
    requires QueueOk(g) && g.gray != []
    ensures QueueOk(PropagateMark(g))
  {
    var r, o := PropagateMark(g), Head(g);
    PropagateFacts(g);
    TakenQueue(g, r, o);
    MarkedQueue(Taken(g, r, o), r);
  }

  lemma PropagateShrinks(g: Gc)
    requires QueueOk(g) && g.gray != []
    ensures var r := PropagateMark(g);
      Whites(r.heap) <= Whites(g.heap) && (Whites(r.heap) == Whites(g.heap) ==> |r.gray| < |g.gray|)
  {
    hide Visited, Shaded;
    var r, o := PropagateMark(g), Head(g);
    PropagateFacts(g);
    var t := Taken(g, r, o);
    assert ListsWell(g.heap, o) && !White(t.heap, o) by { VisitedNotWhite(g, r, o); }
    assert Whites(t.heap) == Whites(g.heap);
    if Fresh(t, r) != [] { FreshWasWhite(t, r); }
  }

  lemma FreshWasWhite(g: Gc, r: Gc)
    requires Marked(g, r) && Fresh(g, r) != []
    ensures Whites(r.heap) != Whites(g.heap)
  {
    var x := Fresh(g, r)[0];
    assert x in Fresh(g, r) && White(g.heap, x) && !White(r.heap, x);
    assert x in Whites(g.heap) && x !in Whites(r.heap);
  }

  lemma VisitedNotWhite(g: Gc, r: Gc, o: Id)
    requires o in g.heap && o in r.heap && Visited(g, r, o)
    ensures !White(r.heap, o)
  {
  }

  /** propagateall: until no object is gray. */
  function PropagateAll(g: Gc): (r: Gc)
    requires QueueOk(g)
    ensures QueueOk(r) && r.gray == []
    decreases Whites(g.heap), |g.gray|
  {
    if g.gray == [] then g
    else
      PropagateQueue(g);
      PropagateShrinks(g);
      PropagateAll(PropagateMark(g))
  }
}
