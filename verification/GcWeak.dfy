/** What the atomic phase takes out of a weak table, and what it leaves: an entry goes exactly if one
    of its parts is dead. */
module GcWeak {
  import opened GcHeap
  import opened GcPropagate
  import opened GcTricolor
  import opened GcAtomic
  import opened GcCycle
  import opened GcSafety

  // ---------- one table ----------

  /** Slot i of the array part, before and after. */
  predicate ItemKept(h: Heap, weak: bool, b: seq<Value>, c: seq<Value>, i: nat) {
    i < |b| == |c| && c[i] == if weak && IsCleared(h, b[i], false) then Nil else b[i]
  }

  /** An entry without its value and, if it is collectable, without its key. */
  function Emptied(n: Node): Node { Node(if n.key.Ref? then DeadKey else n.key, Nil) }

  /** Entry i of the hash part, before and after. */
  predicate EntryKept(h: Heap, b: seq<Node>, c: seq<Node>, i: nat) {
    i < |b| == |c| &&
    var n := b[i];
    c[i] == if !n.val.Nil? && (IsCleared(h, n.key, true) || IsCleared(h, n.val, false)) then Emptied(n) else n
  }

  /** Clearing changes nothing that decides what is cleared. */
  ghost predicate SameVerdicts(h: Heap, k: Heap) { forall v, isKey :: IsCleared(k, v, isKey) == IsCleared(h, v, isKey) }

  lemma ClearedVerdicts(h: Heap, k: Heap, t: Id)
    requires Cleared(h, k, t)
    ensures SameVerdicts(h, k)
  {
    PrunedKind(h[t].body, k[t].body);
    hide Pruned;
    forall v, isKey ensures IsCleared(k, v, isKey) == IsCleared(h, v, isKey) {
      if v.Ref? && v.id in h { assert StringsOnly(h[v.id], k[v.id]); }
    }
  }

  lemma StringVerdicts(h: Heap, v: Value)
    ensures SameVerdicts(h, StringMark(h, v))
  {
  }

  lemma {:induction false} ItemsKept(h: Heap, t: Id, n: nat, i: nat)
    requires t in h && h[t].body.Table? && n <= |h[t].body.items| && i < |h[t].body.items|
    ensures ClearItems(h, t, n)[t].body.Table? && ItemKept(h, i < n, h[t].body.items, ClearItems(h, t, n)[t].body.items, i)
    decreases n
  {
    hide Cleared, SameVerdicts, IsCleared;
    ClearItemsDone(h, t, n);
    if n > 0 {
      var k := ClearItem(h, t, n - 1);
      ClearItemShape(h, t, n - 1);
      ClearItemCleared(h, t, n - 1);
      ClearedVerdicts(h, k, t);
      ItemsKept(k, t, n - 1, i);
      if i < n - 1 { OneVerdict(h, k, h[t].body.items[i], false); }
      if i == n - 1 { ItemCleared(h, t, i); ClearItemsDone(k, t, n - 1); }
    }
  }

  lemma OneVerdict(h: Heap, k: Heap, v: Value, isKey: bool)
    requires SameVerdicts(h, k)
    ensures IsCleared(k, v, isKey) == IsCleared(h, v, isKey)
  {
  }

  lemma ItemCleared(h: Heap, t: Id, i: nat)
    requires t in h && h[t].body.Table? && i < |h[t].body.items|
    ensures ItemKept(h, true, h[t].body.items, ClearItem(h, t, i)[t].body.items, i)
  {
    hide IsCleared;
  }

  lemma EntryCleared(h: Heap, t: Id, i: nat)
    requires t in h && h[t].body.Table? && i < |h[t].body.nodes|
    ensures EntryKept(h, h[t].body.nodes, ClearNode(h, t, i)[t].body.nodes, i)
  {
    hide IsCleared, SameVerdicts;
    var n := h[t].body.nodes[i];
    StringVerdicts(h, n.key);
    OneVerdict(h, StringMark(h, n.key), n.val, false);
  }

  lemma {:induction false} EntriesKept(h: Heap, t: Id, n: nat, i: nat)
    requires t in h && h[t].body.Table? && n <= |h[t].body.nodes| && i < |h[t].body.nodes|
    ensures ClearNodes(h, t, n)[t].body.Table?
    ensures var b, c := h[t].body.nodes, ClearNodes(h, t, n)[t].body.nodes;
      if i < n then EntryKept(h, b, c, i) else |c| == |b| && c[i] == b[i]
    decreases n
  {
    hide Cleared, SameVerdicts, IsCleared, Emptied;
    ClearNodesDone(h, t, n);
    if n > 0 {
      var k := ClearNode(h, t, n - 1);
      ClearNodeShape(h, t, n - 1);
      ClearNodeCleared(h, t, n - 1);
      ClearedVerdicts(h, k, t);
      EntriesKept(k, t, n - 1, i);
      var m := h[t].body.nodes[i];
      if i < n - 1 { OneVerdict(h, k, m.key, true); OneVerdict(h, k, m.val, false); }
      if i == n - 1 { EntryCleared(h, t, i); }
    }
  }

  /** One table, before and after it has been cleared: the array part only if its values are weak. */
  ghost predicate TableKept(h: Heap, weak: bool, b: Body, c: Body) {
    && b.Table? && c.Table? && c.metatable == b.metatable && c.mode == b.mode && |c.items| == |b.items| && |c.nodes| == |b.nodes|
    && (forall i :: 0 <= i < |b.items| ==> ItemKept(h, weak, b.items, c.items, i))
    && (forall i :: 0 <= i < |b.nodes| ==> EntryKept(h, b.nodes, c.nodes, i))
  }

  lemma ClearTableKept(h: Heap, t: Id)
    requires t in h && h[t].body.Table?
    ensures Cleared(h, ClearTable(h, t), t) && TableKept(h, h[t].mark.bit4, h[t].body, ClearTable(h, t)[t].body)
  {
    hide Cleared, SameVerdicts, IsCleared, Emptied;
    var b := h[t].body;
    ClearItemsDone(h, t, |b.items|);
    ClearedRefl(h, t);
    var k := if h[t].mark.bit4 then ClearItems(h, t, |b.items|) else h;
    var l := ClearTable(h, t);
    ClearNodesDone(k, t, |b.nodes|);
    ClearedTrans(h, k, l, t);
    ClearedVerdicts(h, k, t);
    ClearedPruned(h, l, t);
    forall i | 0 <= i < |b.items| ensures ItemKept(h, h[t].mark.bit4, b.items, l[t].body.items, i) { ItemsKept(h, t, |b.items|, i); }
    forall i | 0 <= i < |b.nodes| ensures EntryKept(h, b.nodes, l[t].body.nodes, i) {
      EntriesKept(k, t, |b.nodes|, i);
      OneVerdict(h, k, b.nodes[i].key, true);
      OneVerdict(h, k, b.nodes[i].val, false);
    }
  }

  lemma ClearedPruned(h: Heap, k: Heap, t: Id)
    requires Cleared(h, k, t)
    ensures t in k && Pruned(h[t].body, k[t].body)
  {
  }

  // ---------- all weak tables ----------

  /** Clearing a table again changes nothing more. */
  lemma KeptTwice(h: Heap, k: Heap, weak: bool, b: Body, c: Body, d: Body)
    requires SameVerdicts(h, k) && TableKept(h, weak, b, c) && TableKept(k, weak, c, d)
    ensures TableKept(h, weak, b, d)
  {
    hide SameVerdicts, IsCleared;
    forall i | 0 <= i < |b.items| ensures ItemKept(h, weak, b.items, d.items, i) {
      assert ItemKept(h, weak, b.items, c.items, i) && ItemKept(k, weak, c.items, d.items, i);
      OneVerdict(h, k, b.items[i], false);
      NothingCleared(k);
    }
    forall i | 0 <= i < |b.nodes| ensures EntryKept(h, b.nodes, d.nodes, i) {
      assert EntryKept(h, b.nodes, c.nodes, i) && EntryKept(k, c.nodes, d.nodes, i);
      OneVerdict(h, k, b.nodes[i].key, true);
      OneVerdict(h, k, b.nodes[i].val, false);
    }
  }

  lemma NothingCleared(h: Heap)
    ensures !IsCleared(h, Nil, false)
  {
  }

  lemma KeptVerdicts(h: Heap, k: Heap, weak: bool, b: Body, c: Body)
    requires SameVerdicts(h, k) && TableKept(k, weak, b, c)
    ensures TableKept(h, weak, b, c)
  {
    hide SameVerdicts, IsCleared;
    forall i | 0 <= i < |b.items| ensures ItemKept(h, weak, b.items, c.items, i) {
      assert ItemKept(k, weak, b.items, c.items, i);
      OneVerdict(h, k, b.items[i], false);
    }
    forall i | 0 <= i < |b.nodes| ensures EntryKept(h, b.nodes, c.nodes, i) {
      assert EntryKept(k, b.nodes, c.nodes, i);
      OneVerdict(h, k, b.nodes[i].key, true);
      OneVerdict(h, k, b.nodes[i].val, false);
    }
  }

  lemma VerdictsTrans(h: Heap, k: Heap, l: Heap)
    requires SameVerdicts(h, k) && SameVerdicts(k, l)
    ensures SameVerdicts(h, l)
  {
  }

  /** What clearing one table leaves of any object. */
  lemma ClearedObject(h: Heap, k: Heap, t: Id, o: Id)
    requires Cleared(h, k, t) && o in h && h[o].body.Table?
    ensures o in k && k[o].body.Table? && k[o].mark == h[o].mark && (o != t ==> k[o].body == h[o].body)
  {
    PrunedKind(h[t].body, k[t].body);
    assert StringsOnly(h[o], k[o]);
  }

  /** Clearing the listed tables: each loses exactly its entries with a dead part, any other table
      nothing. */
  lemma {:induction false} TablesKept(h: Heap, ts: seq<Id>, t: Id)
    requires t in h && h[t].body.Table?
    ensures SameVerdicts(h, ClearTables(h, ts))
    ensures if t in ts then TableKept(h, h[t].mark.bit4, h[t].body, ClearTables(h, ts)[t].body) else ClearTables(h, ts)[t].body == h[t].body
    decreases |ts|
  {
    hide Cleared, SameVerdicts, TableKept, ClearTable;
    if ts == [] {
      NoVerdictChanges(h);
    } else {
      var u := ts[0];
      if u in h && h[u].body.Table? {
        var k := ClearTable(h, u);
        ClearTableKept(h, u);
        ClearedVerdicts(h, k, u);
        ClearedObject(h, k, u, t);
        TablesKept(k, ts[1..], t);
        VerdictsTrans(h, k, ClearTables(h, ts));
        var b, c, d := h[t].body, k[t].body, ClearTables(h, ts)[t].body;
        if t in ts[1..] {
          if t == u { KeptTwice(h, k, h[t].mark.bit4, b, c, d); } else { KeptVerdicts(h, k, h[t].mark.bit4, b, d); }
        }
      } else {
        TablesKept(h, ts[1..], t);
      }
    }
  }

  lemma NoVerdictChanges(h: Heap)
    ensures SameVerdicts(h, h)
  {
  }

  // ---------- the atomic phase ----------

  /** A part of an entry that is gone after the atomic phase: it is dead, or a userdata value whose
      finalizer has been called for; strings never are. */
  predicate Gone(r: Gc, v: Value, isKey: bool) {
    v.Ref? && v.id in r.heap && !r.heap[v.id].body.Str?
    && (!Alive(r, v.id) || (r.heap[v.id].body.Userdata? && !isKey && r.heap[v.id].mark.bit3))
  }

  /** What becomes of a weak table with contents b: c. */
  ghost predicate Weeded(r: Gc, weakValues: bool, b: Body, c: Body) {
    && b.Table? && c.Table? && c.metatable == b.metatable && c.mode == b.mode && |c.items| == |b.items| && |c.nodes| == |b.nodes|
    && (forall i :: 0 <= i < |b.items| ==> c.items[i] == if weakValues && Gone(r, b.items[i], false) then Nil else b.items[i])
    && (forall i :: 0 <= i < |b.nodes| ==> var n := b.nodes[i];
          c.nodes[i] == if !n.val.Nil? && (Gone(r, n.key, true) || Gone(r, n.val, false)) then Emptied(n) else n)
  }

  /** What clearing takes for cleared is gone after the flip. */
  lemma GoneIs(g: Gc, v: Value, isKey: bool)
    requires Inv(g) && g.phase == Propagate && QueueOk(g)
    ensures IsCleared(Atomic(g).heap, v, isKey) == Gone(Atomic(g), v, isKey)
  {
    hide Tricolor, QueueOk, HeapShrunk, Atomic, Closed, ListsOk, ThreadsOk, RootsAlive;
    TricolorQueue(g);
    AtomicHeap(g);
    var r := Atomic(g);
    if v.Ref? && v.id in r.heap { AtomicMarkHeap(g); AtomicFlips(g); FlipAlive(g, r, v.id); }
  }

  lemma AtomicFlips(g: Gc)
    requires QueueOk(g)
    ensures Atomic(g).currentwhite == OtherWhite(AtomicMark(g).currentwhite)
  {
  }

  /** The mark of a table in the weak list says whether its values are weak. */
  lemma WeakBit(g: Gc, t: Id)
    requires Inv(g) && g.phase == Propagate && QueueOk(g) && t in AtomicMark(g).weak
    ensures t in AtomicMark(g).heap && AtomicMark(g).heap[t].body.Table? && AtomicMark(g).heap[t].mark.bit4 == AtomicMark(g).heap[t].body.mode.weakValue
  {
    hide Tricolor, Closed, ListsOk, ThreadsOk, RootsAlive, NoneDead, HeapOk, WeakSettled, AtomicMark;
    AtomicMarkTricolor(g);
    WeakIsReady(AtomicMark(g), t);
  }

  /** A table in the weak list of the finished mark phase loses, in the atomic phase, exactly the entries
      with a part that is gone; the other tables lose nothing. */
  lemma WeakExact(g: Gc, t: Id)
    requires Inv(g) && g.phase == Propagate && QueueOk(g)
    requires t in AtomicMark(g).heap && AtomicMark(g).heap[t].body.Table?
    ensures t in Atomic(g).heap
    ensures var m, r := AtomicMark(g), Atomic(g);
      if t in m.weak then Weeded(r, m.heap[t].body.mode.weakValue, m.heap[t].body, r.heap[t].body) else r.heap[t].body == m.heap[t].body
  {
    hide Inv, Tricolor, QueueOk, AtomicMark, ClearTables, Gone, IsCleared, SeparateUdata, SameVerdicts;
    var m, r := AtomicMark(g), Atomic(g);
    var list := After(m.rootgc, m.mainthread);
    var h := SeparateUdata(m.heap, list);
    SeparateDone(m.heap, list);
    assert Separated(m.heap, h) && h[t].body == m.heap[t].body && h[t].mark == m.heap[t].mark;
    TablesKept(h, m.weak, t);
    if t in m.weak {
      WeakBit(g, t);
      var b, c := m.heap[t].body, r.heap[t].body;
      forall i | 0 <= i < |b.items| ensures c.items[i] == if m.heap[t].mark.bit4 && Gone(r, b.items[i], false) then Nil else b.items[i] {
        assert ItemKept(h, m.heap[t].mark.bit4, b.items, c.items, i);
        OneVerdict(h, r.heap, b.items[i], false);
        GoneIs(g, b.items[i], false);
      }
      forall i | 0 <= i < |b.nodes|
        ensures var n := b.nodes[i]; c.nodes[i] == if !n.val.Nil? && (Gone(r, n.key, true) || Gone(r, n.val, false)) then Emptied(n) else n
      {
        assert EntryKept(h, b.nodes, c.nodes, i);
        var n := b.nodes[i];
        OneVerdict(h, r.heap, n.key, true);
        OneVerdict(h, r.heap, n.val, false);
        GoneIs(g, n.key, true);
        GoneIs(g, n.val, false);
      }
    }
  }
}
