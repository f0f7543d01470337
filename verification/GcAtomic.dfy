/** The end of the mark phase: the weak and the regrayed objects once more, the weak tables cleared,
    the white flipped. */
module GcAtomic {
  import opened GcHeap
  import opened GcMark
  import opened GcPropagate
  import opened GcTricolor

  // ---------- clearing weak tables ----------

  /** iscleared: a string is never removed; anything else goes when it is white, and a userdata
      already finalized goes from the values. */
  predicate IsCleared(h: Heap, v: Value, isKey: bool) {
    v.Ref? && v.id in h && !h[v.id].body.Str?
    && (IsWhite(h[v.id].mark) || (h[v.id].body.Userdata? && !isKey && h[v.id].mark.bit3))
  }

  /** iscleared marks the strings it is asked about. */
  function StringMark(h: Heap, v: Value): (r: Heap)
    ensures r.Keys == h.Keys
  {
    if v.Ref? && v.id in h && h[v.id].body.Str? then SetMark(h, v.id, WhiteToGray(h[v.id].mark)) else h
  }

  /** One slot of the array part. */
  function ClearItem(h: Heap, t: Id, i: nat): (r: Heap)
    requires t in h && h[t].body.Table? && i < |h[t].body.items|
    ensures r.Keys == h.Keys
  {
    var v := h[t].body.items[i];
    var h1 := StringMark(h, v);
    if IsCleared(h, v, false) then SetBody(h1, t, h[t].body.(items := h[t].body.items[i := Nil])) else h1
  }

  /** One entry of the hash part: the key is looked at first, the value only when the key stays. */
  function ClearNode(h: Heap, t: Id, i: nat): (r: Heap)
    requires t in h && h[t].body.Table? && i < |h[t].body.nodes|
    ensures r.Keys == h.Keys
  {
    var b := h[t].body;
    var n := b.nodes[i];
    if n.val.Nil? then h
    else
      var h1 := StringMark(h, n.key);
      var removed := SetBody(h1, t, b.(nodes := b.nodes[i := CleanNode(Node(n.key, Nil))]));
      if IsCleared(h, n.key, true) then removed
      else
        var h2 := StringMark(h1, n.val);
        if IsCleared(h1, n.val, false) then SetBody(h2, t, b.(nodes := b.nodes[i := CleanNode(Node(n.key, Nil))])) else h2
  }

  lemma ClearItemShape(h: Heap, t: Id, i: nat)
    requires t in h && h[t].body.Table? && i < |h[t].body.items|
    ensures var b, c := h[t].body, ClearItem(h, t, i)[t].body; c.Table? && |c.items| == |b.items| && c.nodes == b.nodes
  {
  }

  lemma ClearNodeShape(h: Heap, t: Id, i: nat)
    requires t in h && h[t].body.Table? && i < |h[t].body.nodes|
    ensures var b, c := h[t].body, ClearNode(h, t, i)[t].body; c.Table? && c.items == b.items && |c.nodes| == |b.nodes|
  {
  }

  function ClearItems(h: Heap, t: Id, i: nat): (r: Heap)
    requires t in h && h[t].body.Table? && i <= |h[t].body.items|
    ensures r.Keys == h.Keys
    decreases i
  {
    if i == 0 then h
    else
      ClearItemShape(h, t, i - 1);
      ClearItems(ClearItem(h, t, i - 1), t, i - 1)
  }

  function ClearNodes(h: Heap, t: Id, i: nat): (r: Heap)
    requires t in h && h[t].body.Table? && i <= |h[t].body.nodes|
    ensures r.Keys == h.Keys
    decreases i
  {
    if i == 0 then h
    else
      ClearNodeShape(h, t, i - 1);
      ClearNodes(ClearNode(h, t, i - 1), t, i - 1)
  }

  /** One weak table: the array part only if its values are weak, then the hash part. */
  function ClearTable(h: Heap, t: Id): (r: Heap)
    requires t in h && h[t].body.Table?
    ensures r.Keys == h.Keys
  {
    var h1 := if h[t].mark.bit4 then ClearItems(h, t, |h[t].body.items|) else h;
    ClearItemsDone(h, t, |h[t].body.items|);
    ClearNodes(h1, t, |h1[t].body.nodes|)
  }

  // ---------- what clearing does ----------

  /** A table before and after some of its values are dropped. */
  predicate Pruned(b: Body, c: Body) {
    c == b ||
    (b.Table? && c.Table? && c.metatable == b.metatable && c.mode == b.mode
     && |c.items| == |b.items| && |c.nodes| == |b.nodes|
     && (forall i :: 0 <= i < |b.items| ==> c.items[i] == b.items[i] || c.items[i] == Nil)
     && (forall i :: 0 <= i < |b.nodes| ==> c.nodes[i] == b.nodes[i] || c.nodes[i].val == Nil))
  }

  lemma PrunedTrans(a: Body, b: Body, c: Body)
    requires Pruned(a, b) && Pruned(b, c)
    ensures Pruned(a, c)
  {
  }

  /** Pruning adds no reference. */
  lemma PrunedRefs(b: Body, c: Body, id: Id)
    requires Pruned(b, c)
    ensures id in Refs(c) ==> id in Refs(b)
    ensures id in StrongRefs(c) ==> id in StrongRefs(b)
  {
    if b.Table? && c != b {
      PrunedPart(b, c, STRONG, id);
      PrunedPart(b, c, b.mode, id);
    }
  }

  lemma PrunedPart(b: Body, c: Body, m: Mode, id: Id)
    requires Pruned(b, c) && b.Table? && c != b
    ensures id in PartIds(c, m) ==> id in PartIds(b, m)
  {
    ValuesIdsAre(b.items, id);
    ValuesIdsAre(c.items, id);
    NodesIdsAre(b.nodes, !m.weakKey, !m.weakValue, id);
    NodesIdsAre(c.nodes, !m.weakKey, !m.weakValue, id);
    if Ref(id) in c.items {
      var i :| 0 <= i < |c.items| && c.items[i] == Ref(id);
      assert b.items[i] == Ref(id);
    }
    if i :| 0 <= i < |c.nodes| && id in NodeIds(c.nodes[i], !m.weakKey, !m.weakValue) {
      assert id in NodeIds(b.nodes[i], !m.weakKey, !m.weakValue);
    }
  }

  /** Only a string is marked. */
  predicate StringsOnly(x: Object, y: Object) {
    y.mark == x.mark || (x.body.Str? && y.mark == WhiteToGray(x.mark))
  }

  /** k comes from h by dropping values of t and marking strings. */
  ghost predicate Cleared(h: Heap, k: Heap, t: Id) {
    && k.Keys == h.Keys && t in h
    && (forall o :: o in h && o != t ==> k[o].body == h[o].body)
    && Pruned(h[t].body, k[t].body)
    && (forall o :: o in h ==> StringsOnly(h[o], k[o]))
  }

  lemma ClearedRefl(h: Heap, t: Id)
    requires t in h
    ensures Cleared(h, h, t)
  {
  }

  lemma ClearedTrans(h: Heap, k: Heap, l: Heap, t: Id)
    requires Cleared(h, k, t) && Cleared(k, l, t)
    ensures Cleared(h, l, t)
  {
    hide Pruned;
    PrunedTrans(h[t].body, k[t].body, l[t].body);
    PrunedKind(h[t].body, k[t].body);
  }

  lemma PrunedKind(b: Body, c: Body)
    requires Pruned(b, c)
    ensures (c.Str? <==> b.Str?) && (c.Table? <==> b.Table?) && (c.Thread? <==> b.Thread?) && (Queued(c) <==> Queued(b))
    ensures (c.Userdata? <==> b.Userdata?) && (c.UpVal? <==> b.UpVal?)
  {
  }

  lemma StringMarkCleared(h: Heap, v: Value, t: Id)
    requires t in h
    ensures Cleared(h, StringMark(h, v), t) && StringMark(h, v)[t].body == h[t].body
    ensures v.Ref? && !IsCleared(h, v, false) ==> !White(StringMark(h, v), v.id)
    ensures v.Ref? && !IsCleared(h, v, true) ==> !White(StringMark(h, v), v.id)
  {
  }

  lemma SetBodyCleared(h: Heap, t: Id, b: Body)
    requires t in h && Pruned(h[t].body, b)
    ensures Cleared(h, SetBody(h, t, b), t)
  {
  }

  lemma ClearItemCleared(h: Heap, t: Id, i: nat)
    requires t in h && h[t].body.Table? && i < |h[t].body.items|
    ensures Cleared(h, ClearItem(h, t, i), t)
    ensures var v := ClearItem(h, t, i)[t].body.items[i]; v.Ref? ==> !White(ClearItem(h, t, i), v.id)
    ensures forall j :: 0 <= j < |h[t].body.items| && j != i ==> ClearItem(h, t, i)[t].body.items[j] == h[t].body.items[j]
  {
    hide Cleared, StringMark, IsCleared;
    var v := h[t].body.items[i];
    var h1 := StringMark(h, v);
    StringMarkCleared(h, v, t);
    if IsCleared(h, v, false) {
      var b := h[t].body.(items := h[t].body.items[i := Nil]);
      SetBodyCleared(h1, t, b);
      ClearedTrans(h, h1, SetBody(h1, t, b), t);
    }
  }

  predicate NodeKept(h: Heap, n: Node) {
    !n.val.Nil? ==> (n.key.Ref? ==> !White(h, n.key.id)) && (n.val.Ref? ==> !White(h, n.val.id))
  }

  lemma ClearNodeCleared(h: Heap, t: Id, i: nat)
    requires t in h && h[t].body.Table? && i < |h[t].body.nodes|
    ensures Cleared(h, ClearNode(h, t, i), t) && NodeKept(ClearNode(h, t, i), ClearNode(h, t, i)[t].body.nodes[i])
    ensures forall j :: 0 <= j < |h[t].body.nodes| && j != i ==> ClearNode(h, t, i)[t].body.nodes[j] == h[t].body.nodes[j]
  {
    hide Cleared, StringMark, IsCleared;
    var b := h[t].body;
    var n := b.nodes[i];
    if n.val.Nil? {
      ClearedRefl(h, t);
    } else {
      var h1 := StringMark(h, n.key);
      var h2 := StringMark(h1, n.val);
      var c := b.(nodes := b.nodes[i := CleanNode(Node(n.key, Nil))]);
      StringMarkCleared(h, n.key, t);
      StringMarkCleared(h1, n.val, t);
      SetBodyCleared(h1, t, c);
      SetBodyCleared(h2, t, c);
      ClearedTrans(h, h1, h2, t);
      ClearedTrans(h, h1, SetBody(h1, t, c), t);
      ClearedTrans(h, h2, SetBody(h2, t, c), t);
      if n.key.Ref? && White(h2, n.key.id) { ClearedWhites(h1, h2, t, n.key.id); }
    }
  }

  /** Clearing whitens nothing. */
  lemma ClearedWhites(h: Heap, k: Heap, t: Id, o: Id)
    requires Cleared(h, k, t) && White(k, o)
    ensures White(h, o)
  {
  }

  lemma {:induction false} ClearItemsDone(h: Heap, t: Id, n: nat)
    requires t in h && h[t].body.Table? && n <= |h[t].body.items|
    ensures var k := ClearItems(h, t, n); var b, c := h[t].body, k[t].body;
      && Cleared(h, k, t) && c.Table? && |c.items| == |b.items| && c.nodes == b.nodes
      && (forall i :: 0 <= i < n && c.items[i].Ref? ==> !White(k, c.items[i].id))
      && (forall i :: n <= i < |b.items| ==> c.items[i] == b.items[i])
    decreases n
  {
    hide Cleared, Pruned, ClearItem;
    if n == 0 {
      ClearedRefl(h, t);
    } else {
      var k := ClearItem(h, t, n - 1);
      ClearItemShape(h, t, n - 1);
      ClearItemCleared(h, t, n - 1);
      ClearItemsDone(k, t, n - 1);
      var l := ClearItems(k, t, n - 1);
      ClearedTrans(h, k, l, t);
      var v := k[t].body.items[n - 1];
      assert l[t].body.items[n - 1] == v;
      if v.Ref? && White(l, v.id) { ClearedWhites(k, l, t, v.id); }
    }
  }

  lemma {:induction false} ClearNodesDone(h: Heap, t: Id, n: nat)
    requires t in h && h[t].body.Table? && n <= |h[t].body.nodes|
    ensures var k := ClearNodes(h, t, n); var b, c := h[t].body, k[t].body;
      && Cleared(h, k, t) && c.Table? && c.items == b.items && |c.nodes| == |b.nodes|
      && (forall i :: 0 <= i < n ==> NodeKept(k, c.nodes[i]))
      && (forall i :: n <= i < |b.nodes| ==> c.nodes[i] == b.nodes[i])
    decreases n
  {
    hide Cleared, Pruned, ClearNode;
    if n == 0 {
      ClearedRefl(h, t);
    } else {
      var k := ClearNode(h, t, n - 1);
      ClearNodeShape(h, t, n - 1);
      ClearNodeCleared(h, t, n - 1);
      ClearNodesDone(k, t, n - 1);
      var l := ClearNodes(k, t, n - 1);
      ClearedTrans(h, k, l, t);
      var v := k[t].body.nodes[n - 1];
      assert l[t].body.nodes[n - 1] == v;
      forall o | White(l, o)
        ensures White(k, o)
      {
        ClearedWhites(k, l, t, o);
      }
      assert NodeKept(l, v);
    }
  }

  /** No value the program can see in t refers to a white object. */
  predicate NoWhiteRefs(h: Heap, t: Id)
    requires t in h
  {
    forall id :: id in Refs(h[t].body) ==> !White(h, id)
  }

  lemma CleanTable(h: Heap, t: Id)
    requires t in h && h[t].body.Table?
    requires forall id :: id in OptIds(h[t].body.metatable) ==> !White(h, id)
    requires forall i :: 0 <= i < |h[t].body.items| && h[t].body.items[i].Ref? ==> !White(h, h[t].body.items[i].id)
    requires forall i :: 0 <= i < |h[t].body.nodes| ==> NodeKept(h, h[t].body.nodes[i])
    ensures NoWhiteRefs(h, t)
  {
    var b := h[t].body;
    forall id | id in Refs(b)
      ensures !White(h, id)
    {
      ValuesIdsAre(b.items, id);
      NodesIdsAre(b.nodes, true, true, id);
      if id in ValuesIds(b.items) {
        var i :| 0 <= i < |b.items| && b.items[i] == Ref(id);
      } else if id in NodesIds(b.nodes, true, true) {
        var i :| 0 <= i < |b.nodes| && id in NodeIds(b.nodes[i], true, true);
        assert NodeKept(h, b.nodes[i]);
      }
    }
  }

  /** Clearing a table whose strong parts are marked leaves nothing white in it. */
  lemma ClearTableDone(h: Heap, t: Id)
    requires t in h && h[t].body.Table? && Settled(h, t)
    requires h[t].mark.bit4 == h[t].body.mode.weakValue
    ensures Cleared(h, ClearTable(h, t), t) && NoWhiteRefs(ClearTable(h, t), t)
  {
    hide StringMark, IsCleared;
    var b := h[t].body;
    ClearItemsDone(h, t, |b.items|);
    var k := if h[t].mark.bit4 then ClearItems(h, t, |b.items|) else h;
    ClearedRefl(h, t);
    ClearNodesDone(k, t, |k[t].body.nodes|);
    var l := ClearTable(h, t);
    ClearedTrans(h, k, l, t);
    forall o | White(l, o)
      ensures White(k, o) && White(h, o)
    {
      ClearedWhites(k, l, t, o);
      ClearedWhites(h, k, t, o);
    }
    var c := l[t].body;
    assert c.metatable == b.metatable;
    forall i | 0 <= i < |c.items| && c.items[i].Ref?
      ensures !White(l, c.items[i].id)
    {
      if !h[t].mark.bit4 {
        assert c.items[i] == b.items[i];
        ValuesIdsAre(b.items, b.items[i].id);
      }
    }
    CleanTable(l, t);
  }

  // ---------- all weak tables ----------

  function ClearTables(h: Heap, ts: seq<Id>): (r: Heap)
    ensures r.Keys == h.Keys
    decreases |ts|
  {
    if ts == [] then h
    else ClearTables(if ts[0] in h && h[ts[0]].body.Table? then ClearTable(h, ts[0]) else h, ts[1..])
  }

  /** k comes from h by dropping values of tables in ts and marking strings. */
  ghost predicate ClearedAll(h: Heap, k: Heap, ts: seq<Id>) {
    && k.Keys == h.Keys
    && (forall o :: o in h ==> Pruned(h[o].body, k[o].body) && (o !in ts ==> k[o].body == h[o].body))
    && (forall o :: o in h ==> StringsOnly(h[o], k[o]))
  }

  ghost predicate WeakReady(h: Heap, t: Id) {
    && t in h && h[t].body.Table? && Settled(h, t)
    && h[t].mark.bit4 == h[t].body.mode.weakValue && !White(h, t)
  }

  lemma ReadyLater(h: Heap, k: Heap, t: Id, u: Id)
    requires Cleared(h, k, t) && WeakReady(h, u)
    ensures WeakReady(k, u)
  {
    PrunedKind(h[u].body, k[u].body);
    assert Pruned(h[u].body, k[u].body);
    forall id | id in StrongRefs(k[u].body)
      ensures !White(k, id)
    {
      PrunedRefs(h[u].body, k[u].body, id);
    }
  }

  lemma CleanLater(h: Heap, k: Heap, t: Id, u: Id)
    requires Cleared(h, k, t) && u in h && NoWhiteRefs(h, u)
    ensures NoWhiteRefs(k, u)
  {
    forall id | id in Refs(k[u].body)
      ensures !White(k, id)
    {
      PrunedRefs(h[u].body, k[u].body, id);
    }
  }

  lemma ClearedAllTrans(h: Heap, k: Heap, l: Heap, t: Id, ts: seq<Id>)
    requires ts != [] && t == ts[0] && Cleared(h, k, t) && ClearedAll(k, l, ts[1..])
    ensures ClearedAll(h, l, ts)
  {
    hide Pruned;
    forall o | o in h
      ensures Pruned(h[o].body, l[o].body) && (o !in ts ==> l[o].body == h[o].body)
      ensures k[o].body.Str? <==> h[o].body.Str?
    {
      assert Pruned(h[o].body, k[o].body) by { PrunedSelf(h[o].body); }
      PrunedTrans(h[o].body, k[o].body, l[o].body);
      PrunedKind(h[o].body, k[o].body);
    }
  }

  lemma PrunedSelf(b: Body)
    ensures Pruned(b, b)
  {
  }

  /** Clearing the weak tables: afterwards none of them, nor any object that was clean before,
      refers to a white object. */
  lemma {:induction false} ClearTablesDone(h: Heap, ts: seq<Id>, clean: iset<Id>)
    requires forall t :: t in ts ==> WeakReady(h, t)
    requires forall o :: o in clean ==> o in h && NoWhiteRefs(h, o)
    ensures var k := ClearTables(h, ts);
      && ClearedAll(h, k, ts)
      && (forall t :: t in ts ==> t in k && NoWhiteRefs(k, t)) && (forall o :: o in clean ==> NoWhiteRefs(k, o))
    decreases |ts|
  {
    hide Pruned, NoWhiteRefs, Settled;
    if ts == [] {
      forall o | o in h
        ensures Pruned(h[o].body, h[o].body)
      {
        PrunedSelf(h[o].body);
      }
    } else {
      var t := ts[0];
      assert WeakReady(h, t);
      var k := ClearTable(h, t);
      ClearTableDone(h, t);
      forall u | u in ts[1..]
        ensures WeakReady(k, u)
      {
        ReadyLater(h, k, t, u);
      }
      forall o | o in clean + iset{t}
        ensures o in k && NoWhiteRefs(k, o)
      {
        if o != t { CleanLater(h, k, t, o); }
      }
      ClearTablesDone(k, ts[1..], clean + iset{t});
      ClearedAllTrans(h, k, ClearTables(h, ts), t, ts);
    }
  }

  // ---------- the last marks ----------

  lemma Requeue(g: Gc)
    requires QueueOk(g) && g.gray == []
    ensures QueueOk(g.(gray := g.weak, weak := [])) && QueueOk(g.(gray := g.grayagain, grayagain := []))
  {
  }

  /** The second half of the mark phase: the weak tables once more, with the running thread and the
      basic metatables; then the threads and the tables caught by the barrier. */
  function AtomicMark(g: Gc): (r: Gc)
    requires QueueOk(g)
  {
    var g1 := PropagateAll(g);
    Requeue(g1);
    var g2 := g1.(gray := g1.weak, weak := []);
    var g3 := MarkEach(g2, [g.running] + OptsIds(g.mt));
    MarkEachMarks(g2, [g.running] + OptsIds(g.mt));
    MarkedQueue(g2, g3);
    var g4 := PropagateAll(g3);
    Requeue(g4);
    PropagateAll(g4.(gray := g4.grayagain, grayagain := []))
  }

  lemma RequeueTricolor(g: Gc)
    requires Tricolor(g) && g.gray == []
    ensures Tricolor(g.(gray := g.weak, weak := [])) && Tricolor(g.(gray := g.grayagain, grayagain := []))
  {
    hide Exposed;
    Requeue(g);
    var a, b := g.(gray := g.weak, weak := []), g.(gray := g.grayagain, grayagain := []);
    forall o | o in g.heap && IsGray(g.heap[o].mark) && Queued(g.heap[o].body)
      ensures Listed(a, o) && Listed(b, o)
    {
      assert Listed(g, o);
    }
  }

  /** r comes from g by marking and by removing empty entries, whatever the lists do. */
  ghost predicate HeapGrown(h: Heap, k: Heap) {
    && k.Keys == h.Keys
    && (forall o :: o in h ==> Cleaned(h[o].body, k[o].body) && SameRest(h[o].mark, k[o].mark))
    && (forall o :: White(k, o) ==> k[o] == h[o])
  }

  lemma HeapGrownTrans(h: Heap, k: Heap, l: Heap)
    requires HeapGrown(h, k) && HeapGrown(k, l)
    ensures HeapGrown(h, l)
  {
    hide Cleaned;
    forall o | o in h
      ensures Cleaned(h[o].body, l[o].body)
    {
      CleanedTrans(h[o].body, k[o].body, l[o].body);
    }
  }

  /** What marks what is left to mark: nothing but the roots, the lists and the heap matter. */
  predicate SameOthers(g: Gc, r: Gc) {
    r == g.(heap := r.heap, gray := r.gray, grayagain := r.grayagain, weak := r.weak)
  }

  lemma PropagateAllHeap(g: Gc)
    requires QueueOk(g)
    ensures HeapGrown(g.heap, PropagateAll(g).heap) && SameOthers(g, PropagateAll(g))
  {
    PropagateAllGrown(g);
  }

  lemma AtomicMarkTricolor(g: Gc)
    requires Tricolor(g)
    ensures var r := AtomicMark(g); Tricolor(r) && r.gray == [] && WeakSettled(r) && AgainSettled(r)
  {
    hide Tricolor, QueueOk;
    assert QueueOk(g) by { TricolorQueue(g); }
    var g1 := PropagateAll(g);
    PropagateAllTricolor(g);
    RequeueTricolor(g1);
    var g2 := g1.(gray := g1.weak, weak := []);
    var ids := [g.running] + OptsIds(g.mt);
    var g3 := MarkEach(g2, ids);
    TricolorQueue(g2);
    QueueColors(g2);
    MarkEachMarks(g2, ids);
    MarkedTricolor(g2, g3);
    TricolorQueue(g3);
    var g4 := PropagateAll(g3);
    PropagateAllTricolor(g3);
    PropagateAllWeak(g3);
    RequeueTricolor(g4);
    var g5 := g4.(gray := g4.grayagain, grayagain := []);
    TricolorQueue(g5);
    PropagateAllTricolor(g5);
    PropagateAllWeak(g5);
    PropagateAllAgain(g5);
  }

  lemma TricolorQueue(g: Gc)
    requires Tricolor(g)
    ensures QueueOk(g)
  {
  }

  lemma QueueColors(g: Gc)
    requires QueueOk(g)
    ensures ColorsOk(g.heap)
  {
  }

  lemma AtomicMarkHeap(g: Gc)
    requires QueueOk(g)
    ensures var r := AtomicMark(g); HeapGrown(g.heap, r.heap) && SameOthers(g, r)
    ensures forall o :: o in [g.running] + OptsIds(g.mt) ==> !White(AtomicMark(g).heap, o)
  {
    hide QueueOk, Cleaned, HeapGrown, Marked;
    var g1 := PropagateAll(g);
    PropagateAllHeap(g);
    Requeue(g1);
    var g2 := g1.(gray := g1.weak, weak := []);
    var ids := [g.running] + OptsIds(g.mt);
    var g3 := MarkEach(g2, ids);
    QueueColors(g2);
    MarkEachMarks(g2, ids);
    MarkedQueue(g2, g3);
    MarkedHeap(g2, g3);
    HeapGrownTrans(g.heap, g1.heap, g3.heap);
    var g4 := PropagateAll(g3);
    PropagateAllHeap(g3);
    HeapGrownTrans(g.heap, g3.heap, g4.heap);
    Requeue(g4);
    var g5 := g4.(gray := g4.grayagain, grayagain := []);
    var r := PropagateAll(g5);
    PropagateAllHeap(g5);
    HeapGrownTrans(g3.heap, g4.heap, r.heap);
    HeapGrownTrans(g.heap, g3.heap, r.heap);
    forall o | o in ids
      ensures !White(r.heap, o)
    {
      StaysNotWhite(g3.heap, r.heap, o);
    }
  }

  lemma MarkedHeap(g: Gc, r: Gc)
    requires Marked(g, r)
    ensures HeapGrown(g.heap, r.heap) && SameOthers(g, r)
  {
  }

  lemma StaysNotWhite(h: Heap, k: Heap, o: Id)
    requires HeapGrown(h, k) && !White(h, o)
    ensures !White(k, o)
  {
  }

  // ---------- the whole atomic step ----------

  /** The part of the list after an object: the userdata are those after the main thread. */
  function After(list: seq<Id>, o: Id): (r: seq<Id>)
    ensures |r| <= |list|
  {
    if list == [] then [] else if list[0] == o then list[1..] else After(list[1..], o)
  }

  /** luaC_separateudata when no userdata has a finalizer: a white one is noted as finalized. */
  function SeparateUdata(h: Heap, udata: seq<Id>): (r: Heap)
    ensures r.Keys == h.Keys
    decreases |udata|
  {
    if udata == [] then h
    else
      var o := udata[0];
      SeparateUdata(if White(h, o) && h[o].body.Userdata? then SetMark(h, o, h[o].mark.(bit3 := true)) else h, udata[1..])
  }

  /** Only the finalized bit of white userdata changes. */
  ghost predicate Separated(h: Heap, k: Heap) {
    && k.Keys == h.Keys
    && (forall o :: o in h ==> k[o].body == h[o].body)
    && (forall o :: o in h ==> k[o] == h[o] || (White(h, o) && h[o].body.Userdata? && k[o].mark == h[o].mark.(bit3 := true)))
  }

  lemma {:induction false} SeparateDone(h: Heap, udata: seq<Id>)
    ensures Separated(h, SeparateUdata(h, udata))
    decreases |udata|
  {
    if udata != [] {
      var o := udata[0];
      SeparateDone(if White(h, o) && h[o].body.Userdata? then SetMark(h, o, h[o].mark.(bit3 := true)) else h, udata[1..]);
    }
  }

  /** Exactly the white userdata of the list are noted. */
  lemma {:induction false} SeparateExact(h: Heap, udata: seq<Id>, o: Id)
    requires o in h && h[o].body.Userdata?
    ensures SeparateUdata(h, udata)[o].mark.bit3 <==> h[o].mark.bit3 || (o in udata && White(h, o))
    decreases |udata|
  {
    if udata != [] {
      var u := udata[0];
      var k := if White(h, u) && h[u].body.Userdata? then SetMark(h, u, h[u].mark.(bit3 := true)) else h;
      SeparateExact(k, udata[1..], o);
    }
  }

  /** atomic: mark what is left, clear the weak tables, flip the white, start to sweep. */
  function Atomic(g: Gc): (r: Gc)
    requires QueueOk(g)
  {
    var g1 := AtomicMark(g);
    var h := SeparateUdata(g1.heap, After(g1.rootgc, g1.mainthread));
    g1.(heap := ClearTables(h, g1.weak), currentwhite := OtherWhite(g1.currentwhite),
        sweepstrgc := 0, sweepgc := 0, phase := SweepString)
  }

  /** A body before and after the collector has dropped references from it. */
  ghost predicate Shrunk(b: Body, c: Body) {
    && (c.Str? <==> b.Str?) && (c.Thread? <==> b.Thread?) && (c.Userdata? <==> b.Userdata?) && (c.UpVal? <==> b.UpVal?) && (c.Table? <==> b.Table?)
    && (Queued(c) <==> Queued(b)) && (!b.Table? ==> c == b)
    && (forall id :: id in Refs(c) ==> id in Refs(b)) && (forall id :: id in StrongRefs(c) ==> id in StrongRefs(b))
  }

  lemma CleanedShrunk(b: Body, c: Body)
    requires Cleaned(b, c)
    ensures Shrunk(b, c)
  {
    CleanedRefs(b, c);
  }

  lemma PrunedShrunk(b: Body, c: Body)
    requires Pruned(b, c)
    ensures Shrunk(b, c)
  {
    forall id
      ensures (id in Refs(c) ==> id in Refs(b)) && (id in StrongRefs(c) ==> id in StrongRefs(b))
    {
      PrunedRefs(b, c, id);
    }
  }

  lemma ShrunkTrans(a: Body, b: Body, c: Body)
    requires Shrunk(a, b) && Shrunk(b, c)
    ensures Shrunk(a, c)
  {
  }

  /** An object that lies on no list has no white reference once the marking is over. */
  lemma MarkedOut(g: Gc, o: Id)
    requires Tricolor(g) && g.gray == [] && AgainSettled(g) && o in g.heap && !White(g.heap, o) && o !in g.weak
    ensures NoWhiteRefs(g.heap, o)
  {
    var x := g.heap[o];
    assert KindOk(x) && !Exposed(g.heap, o);
    if !IsBlack(x.mark) && Queued(x.body) {
      assert Listed(g, o);
      assert o in g.grayagain;
    }
  }

  lemma SeparatedNoWhite(h: Heap, k: Heap, o: Id)
    requires Separated(h, k) && o in h && NoWhiteRefs(h, o)
    ensures NoWhiteRefs(k, o)
  {
  }

  lemma SeparatedReady(h: Heap, k: Heap, t: Id)
    requires Separated(h, k) && WeakReady(h, t)
    ensures WeakReady(k, t)
  {
  }

  lemma WeakIsReady(g: Gc, t: Id)
    requires Tricolor(g) && WeakSettled(g) && t in g.weak
    ensures WeakReady(g.heap, t)
  {
    assert ListsWell(g.heap, t);
  }

  /** A string or an object without references is clean, whatever its colour. */
  lemma NoRefsClean(h: Heap, o: Id)
    requires o in h && h[o].body.Str?
    ensures NoWhiteRefs(h, o)
  {
  }

  /** After atomic no object that is not white refers to a white one, by any reference at all. */
  lemma AtomicClosed(g: Gc)
    requires Tricolor(g)
    ensures Atomic(g).heap.Keys == g.heap.Keys
    ensures forall o :: o in Atomic(g).heap && !White(Atomic(g).heap, o) ==> NoWhiteRefs(Atomic(g).heap, o)
  {
    hide Tricolor, QueueOk, WeakSettled, AgainSettled, NoWhiteRefs, Separated, ClearedAll, WeakReady;
    TricolorQueue(g);
    var m := AtomicMark(g);
    AtomicMarkTricolor(g);
    AtomicMarkHeap(g);
    var list := After(m.rootgc, m.mainthread);
    var h := SeparateUdata(m.heap, list);
    SeparateDone(m.heap, list);
    forall t | t in m.weak
      ensures WeakReady(h, t)
    {
      WeakIsReady(m, t);
      SeparatedReady(m.heap, h, t);
    }
    var clean := iset o | o in m.heap && o !in m.weak && (m.heap[o].body.Str? || !White(m.heap, o));
    forall o | o in clean
      ensures o in h && NoWhiteRefs(h, o)
    {
      if m.heap[o].body.Str? { NoRefsClean(m.heap, o); } else { MarkedOut(m, o); }
      SeparatedNoWhite(m.heap, h, o);
    }
    ClearTablesDone(h, m.weak, clean);
    var k := ClearTables(h, m.weak);
    forall o | o in k && !White(k, o)
      ensures NoWhiteRefs(k, o)
    {
      if o !in m.weak { NotWhiteBefore(m.heap, h, k, m.weak, o); }
    }
  }

  lemma NotWhiteBefore(m: Heap, h: Heap, k: Heap, ts: seq<Id>, o: Id)
    requires Separated(m, h) && ClearedAll(h, k, ts) && o in m && !White(k, o)
    ensures m[o].body.Str? || !White(m, o)
  {
  }

  /** What atomic does to the heap: references are dropped, marks added. */
  ghost predicate HeapShrunk(h: Heap, k: Heap) {
    && k.Keys == h.Keys
    && (forall o :: o in h ==> Shrunk(h[o].body, k[o].body) && SameRest(h[o].mark, k[o].mark))
    && (forall o :: White(k, o) ==> k[o].mark.white0 == h[o].mark.white0 && k[o].mark.white1 == h[o].mark.white1
                                    && k[o].mark.black == h[o].mark.black)
  }

  lemma GrownShrunk(h: Heap, k: Heap)
    requires HeapGrown(h, k)
    ensures HeapShrunk(h, k)
  {
    forall o | o in h
      ensures Shrunk(h[o].body, k[o].body)
    {
      CleanedShrunk(h[o].body, k[o].body);
    }
  }

  lemma ClearedShrunk(h: Heap, k: Heap, ts: seq<Id>)
    requires ClearedAll(h, k, ts)
    ensures HeapShrunk(h, k)
  {
    hide Pruned, Shrunk;
    forall o | o in h
      ensures Shrunk(h[o].body, k[o].body)
    {
      PrunedShrunk(h[o].body, k[o].body);
    }
  }

  lemma SeparatedShrunk(h: Heap, k: Heap)
    requires Separated(h, k)
    ensures HeapShrunk(h, k)
  {
  }

  lemma HeapShrunkTrans(h: Heap, k: Heap, l: Heap)
    requires HeapShrunk(h, k) && HeapShrunk(k, l)
    ensures HeapShrunk(h, l)
  {
    hide Shrunk;
    forall o | o in h
      ensures Shrunk(h[o].body, l[o].body)
    {
      ShrunkTrans(h[o].body, k[o].body, l[o].body);
    }
  }

  lemma AllClearedAll(h: Heap, ts: seq<Id>)
    requires forall t :: t in ts ==> WeakReady(h, t)
    ensures ClearedAll(h, ClearTables(h, ts), ts)
  {
    ClearTablesDone(h, ts, iset{});
  }

  lemma AtomicHeap(g: Gc)
    requires Tricolor(g)
    ensures var r := Atomic(g); HeapShrunk(g.heap, r.heap)
    ensures forall o :: o in [g.running] + OptsIds(g.mt) ==> !White(Atomic(g).heap, o)
    ensures forall o :: o in g.heap && !White(g.heap, o) ==> !White(Atomic(g).heap, o)
  {
    hide Tricolor, QueueOk, WeakSettled, AgainSettled, Separated, ClearedAll, WeakReady, HeapGrown, HeapShrunk;
    TricolorQueue(g);
    var m := AtomicMark(g);
    AtomicMarkTricolor(g);
    AtomicMarkHeap(g);
    var list := After(m.rootgc, m.mainthread);
    var h := SeparateUdata(m.heap, list);
    SeparateDone(m.heap, list);
    forall t | t in m.weak
      ensures WeakReady(h, t)
    {
      WeakIsReady(m, t);
      SeparatedReady(m.heap, h, t);
    }
    var k := ClearTables(h, m.weak);
    AllClearedAll(h, m.weak);
    GrownShrunk(g.heap, m.heap);
    SeparatedShrunk(m.heap, h);
    ClearedShrunk(h, k, m.weak);
    HeapShrunkTrans(g.heap, m.heap, h);
    HeapShrunkTrans(g.heap, h, k);
    HeapShrunkTrans(m.heap, h, k);
    forall o | !White(m.heap, o)
      ensures !White(k, o)
    {
      ShrunkNotWhite(m.heap, k, o);
    }
    forall o | !White(g.heap, o)
      ensures !White(k, o)
    {
      ShrunkNotWhite(g.heap, k, o);
    }
  }

  lemma ShrunkNotWhite(h: Heap, k: Heap, o: Id)
    requires HeapShrunk(h, k) && !White(h, o)
    ensures !White(k, o)
  {
  }
}
