/** The collector as the source runs it: one object whose mark bits, lists and phase are updated step
    by step.  Each method is proved to do what its specification says. */
module GcCollector {
  import opened GcHeap
  import opened GcMark
  import opened GcPropagate
  import opened GcAtomic
  import opened GcCycle
  import opened GcSafety
  import opened GcSweep
  import opened GcFull
  import GcProgram
  import opened GcExact

  // ---------- marking leaves what is not white alone ----------

  function Put(g: Gc, o: Id, x: Object): Gc { g.(heap := g.heap[o := x]) }

  lemma PutTwice(g: Gc, o: Id, p: Id, x: Object, y: Object)
    requires o != p
    ensures Put(Put(g, o, x), p, y) == Put(Put(g, p, y), o, x)
  {
  }

  lemma {:induction false} ReallyMarkCommutes(g: Gc, p: Id, o: Id, x: Object)
    requires White(g.heap, p) && o in g.heap && !White(g.heap, o) && !IsWhite(x.mark)
    ensures White(Put(g, o, x).heap, p) && ReallyMark(Put(g, o, x), p) == Put(ReallyMark(g, p), o, x)
    decreases Whites(g.heap), 0
  {
    hide Whites, OptIds, ValueIds;
    var m := WhiteToGray(g.heap[p].mark);
    var h1 := SetMark(g.heap, p, m);
    WhitesSetMark(g.heap, p, m);
    WhitesSetMark(g.heap, p, GrayToBlack(m));
    PutTwice(g, o, p, x, g.heap[p].(mark := m));
    match g.heap[p].body
    case Userdata(mt, env) =>
      var y := g.heap[p].(mark := GrayToBlack(m));
      assert Put(g, p, y).heap == SetMark(h1, p, GrayToBlack(m));
      assert Put(Put(g, o, x), p, y).heap == SetMark(SetMark(Put(g, o, x).heap, p, m), p, GrayToBlack(m));
      PutTwice(g, o, p, x, y);
      MarkEachCommutes(Put(g, p, y), OptIds(mt) + [env], o, x);
    case UpVal(v) =>
      var g1 := g.(heap := h1);
      assert g1 == Put(g, p, g.heap[p].(mark := m));
      MarkEachCommutes(g1, ValueIds(v), o, x);
      var g2 := MarkEach(g1, ValueIds(v));
      PutTwice(g2, o, p, x, g2.heap[p].(mark := GrayToBlack(g2.heap[p].mark)));
    case _ =>
  }

  lemma {:induction false} MarkEachCommutes(g: Gc, ids: seq<Id>, o: Id, x: Object)
    requires o in g.heap && !White(g.heap, o) && !IsWhite(x.mark)
    ensures MarkEach(Put(g, o, x), ids) == Put(MarkEach(g, ids), o, x)
    decreases Whites(g.heap), |ids| + 1
  {
    if ids != [] {
      var p := ids[0];
      assert White(Put(g, o, x).heap, p) <==> White(g.heap, p);
      if White(g.heap, p) {
        ReallyMarkCommutes(g, p, o, x);
        StaysGray(g, p, o);
        MarkEachCommutes(ReallyMark(g, p), ids[1..], o, x);
      } else {
        MarkEachCommutes(g, ids[1..], o, x);
      }
    }
  }

  lemma {:induction false} StaysGray(g: Gc, p: Id, o: Id)
    requires White(g.heap, p) && o in g.heap && !White(g.heap, o)
    ensures !White(ReallyMark(g, p).heap, o)
  {
    assert o !in Whites(g.heap) && o !in Whites(ReallyMark(g, p).heap);
  }

  // ---------- the parts of a traversal, one entry at a time ----------

  lemma ValuesFrom(vs: seq<Value>, i: nat)
    requires 0 < i <= |vs|
    ensures ValuesIds(vs[..i]) == ValueIds(vs[i - 1]) + ValuesIds(vs[..i - 1])
  {
    assert vs[..i][..i - 1] == vs[..i - 1];
  }

  lemma NoValues(vs: seq<Value>)
    requires vs == []
    ensures ValuesIds(vs) == []
  {
  }

  lemma NodesFrom(ns: seq<Node>, i: nat, keys: bool, vals: bool)
    requires 0 < i <= |ns|
    ensures NodesIds(ns[..i], keys, vals) == NodeIds(ns[i - 1], keys, vals) + NodesIds(ns[..i - 1], keys, vals)
  {
    assert ns[..i][..i - 1] == ns[..i - 1];
  }

  /** The entries from index i on cleaned, those before as they were. */
  predicate CleanedFrom(ns: seq<Node>, i: nat, cs: seq<Node>) {
    |cs| == |ns| && forall j :: 0 <= j < |ns| ==> cs[j] == if i <= j then CleanNode(ns[j]) else ns[j]
  }

  // ---------- the loop over the hash part ----------

  function AllClean(g: Gc, o: Id): Object
    requires o in g.heap && g.heap[o].body.Table?
  {
    g.heap[o].(body := g.heap[o].body.(nodes := CleanNodes(g.heap[o].body.nodes)))
  }

  /** s is g with the entries from i on dealt with: dealing with the others gives the outcome wanted. */
  ghost predicate NodesLeft(g: Gc, s: Gc, o: Id, i: nat, keys: bool, vals: bool) {
    && o in g.heap && g.heap[o].body.Table? && !White(g.heap, o) && i <= |g.heap[o].body.nodes|
    && o in s.heap && s.heap[o].mark == g.heap[o].mark && s.heap[o].body.Table?
    && s.heap[o].body == g.heap[o].body.(nodes := s.heap[o].body.nodes)
    && CleanedFrom(g.heap[o].body.nodes, i, s.heap[o].body.nodes)
    && Put(MarkEach(s, NodesIds(g.heap[o].body.nodes[..i], keys, vals)), o, AllClean(g, o))
       == Put(MarkEach(g, NodesIds(g.heap[o].body.nodes, keys, vals)), o, AllClean(g, o))
  }

  lemma NodesStart(g: Gc, o: Id, keys: bool, vals: bool)
    requires o in g.heap && g.heap[o].body.Table? && !White(g.heap, o)
    ensures NodesLeft(g, g, o, |g.heap[o].body.nodes|, keys, vals)
  {
    var ns := g.heap[o].body.nodes;
    assert ns[..|ns|] == ns;
  }

  /** What dealing with one entry leaves to do. */
  lemma NodesGoal(s: Gc, r: Gc, o: Id, x: Object, ns: seq<Node>, i: nat, keys: bool, vals: bool)
    requires o in s.heap && o in r.heap && !White(s.heap, o) && !White(r.heap, o) && i < |ns|
    requires r == if ns[i].val.Nil? then Put(s, o, r.heap[o]) else MarkEach(s, NodeIds(ns[i], keys, vals))
    ensures Put(MarkEach(r, NodesIds(ns[..i], keys, vals)), o, x) == Put(MarkEach(s, NodesIds(ns[..i + 1], keys, vals)), o, x)
  {
    hide MarkEach, NodesIds, NodeIds;
    NodesFrom(ns, i + 1, keys, vals);
    MarkEachAppend(s, NodeIds(ns[i], keys, vals), NodesIds(ns[..i], keys, vals));
    if ns[i].val.Nil? {
      NilIds(ns[i], keys, vals);
      MarkNothing(s);
      MarkEachCommutes(s, NodesIds(ns[..i], keys, vals), o, r.heap[o]);
      PutOver(MarkEach(s, NodesIds(ns[..i], keys, vals)), o, r.heap[o], x);
    }
  }

  lemma PutOver(g: Gc, o: Id, x: Object, y: Object)
    ensures Put(Put(g, o, x), o, y) == Put(g, o, y)
  {
    assert g.heap[o := x][o := y] == g.heap[o := y];
  }

  lemma NodesStep(g: Gc, s: Gc, r: Gc, o: Id, i: nat, keys: bool, vals: bool)
    requires NodesLeft(g, s, o, i + 1, keys, vals)
    requires i < |s.heap[o].body.nodes|
    requires var n := s.heap[o].body.nodes[i];
      r == if n.val.Nil? then Put(s, o, s.heap[o].(body := s.heap[o].body.(nodes := s.heap[o].body.nodes[i := CleanNode(n)])))
           else MarkEach(s, NodeIds(n, keys, vals))
    ensures NodesLeft(g, r, o, i, keys, vals)
  {
    hide MarkEach, NodesIds, NodeIds;
    var ns := g.heap[o].body.nodes;
    var n := s.heap[o].body.nodes[i];
    assert n == ns[i];
    NodeDone(s, r, o, n, i, keys, vals);
    NodesGoal(s, r, o, AllClean(g, o), ns, i, keys, vals);
  }

  lemma NilIds(n: Node, keys: bool, vals: bool)
    requires n.val.Nil?
    ensures NodeIds(n, keys, vals) == []
  {
  }

  lemma MarkNothing(g: Gc)
    ensures MarkEach(g, []) == g
  {
  }

  lemma NodesEnd(g: Gc, s: Gc, o: Id, keys: bool, vals: bool)
    requires NodesLeft(g, s, o, 0, keys, vals)
    ensures s == MarkEach(Put(g, o, AllClean(g, o)), NodesIds(g.heap[o].body.nodes, keys, vals))
  {
    var ns := g.heap[o].body.nodes;
    assert ns[..0] == [];
    MarkNothing(s);
    assert s.heap[o].body.nodes == CleanNodes(ns);
    assert s.heap[o] == AllClean(g, o);
    SelfPut(s, o);
    MarkEachCommutes(g, NodesIds(ns, keys, vals), o, AllClean(g, o));
  }

  /** Marking leaves the record of the table that is being traversed alone. */
  lemma NodeDone(s: Gc, r: Gc, o: Id, n: Node, i: nat, keys: bool, vals: bool)
    requires o in s.heap && s.heap[o].body.Table? && i < |s.heap[o].body.nodes| && !White(s.heap, o) && n == s.heap[o].body.nodes[i]
    requires r == if n.val.Nil? then Put(s, o, s.heap[o].(body := s.heap[o].body.(nodes := s.heap[o].body.nodes[i := CleanNode(n)])))
                  else MarkEach(s, NodeIds(n, keys, vals))
    ensures o in r.heap && r.heap[o].mark == s.heap[o].mark
    ensures r.heap[o].body == s.heap[o].body.(nodes := s.heap[o].body.nodes[i := CleanNode(n)])
  {
    if !n.val.Nil? {
      SelfPut(s, o);
      MarkEachCommutes(s, NodeIds(n, keys, vals), o, s.heap[o]);
      assert CleanNode(n) == n && s.heap[o].body.nodes[i := n] == s.heap[o].body.nodes;
    }
  }

  lemma SelfPut(g: Gc, o: Id)
    requires o in g.heap
    ensures Put(g, o, g.heap[o]) == g
  {
    assert g.heap[o := g.heap[o]] == g.heap;
  }

  lemma FinalizeWhite(g: Gc)
    requires Inv(g) && g.phase == Finalize
    ensures AllWhite(g)
  {
  }

  function GlobalsOf(g: Gc): Value {
    if g.mainthread in g.heap && g.heap[g.mainthread].body.Thread? then g.heap[g.mainthread].body.globals else Nil
  }

  /** markroot, one root after the other. */
  lemma RootsInTurn(g: Gc, a: Gc, b: Gc, c: Gc, d: Gc)
    requires a == MarkEach(g.(gray := [], grayagain := [], weak := []), [g.mainthread]) && b == MarkEach(a, ValueIds(GlobalsOf(g)))
    requires c == MarkEach(b, [g.registry]) && d == MarkEach(c, OptsIds(g.mt))
    ensures MarkRoot(g) == d.(phase := Propagate)
    ensures b.registry == g.registry && c.mt == g.mt
  {
    hide OptsIds, ValueIds;
    var s := g.(gray := [], grayagain := [], weak := []);
    MarkEachAppend(s, [g.mainthread], ValueIds(GlobalsOf(g)));
    MarkEachAppend(s, [g.mainthread] + ValueIds(GlobalsOf(g)), [g.registry]);
    MarkEachAppend(s, [g.mainthread] + ValueIds(GlobalsOf(g)) + [g.registry], OptsIds(g.mt));
    MarkEachFields(s, [g.mainthread]);
    MarkEachFields(a, ValueIds(GlobalsOf(g)));
    MarkEachFields(b, [g.registry]);
    assert Globals(g) == ValueIds(GlobalsOf(g)) by { NilHasNoIds(); }
  }

  lemma NilHasNoIds()
    ensures ValueIds(Nil) == []
  {
  }

  /** The weak bits and the weak list of a table about to be traversed. */
  function Noted(g: Gc, o: Id): Gc
    requires o in g.heap && g.heap[o].body.Table?
  {
    var m := g.heap[o].body.mode;
    if IsWeak(m)
    then g.(heap := SetMark(g.heap, o, g.heap[o].mark.(bit3 := m.weakKey, bit4 := m.weakValue)), weak := [o] + g.weak)
    else g
  }

  lemma NotedParts(g: Gc, o: Id)
    requires o in g.heap && g.heap[o].body.Table? && !White(g.heap, o)
    requires !(g.heap[o].body.mode.weakKey && g.heap[o].body.mode.weakValue)
    ensures var b, n := g.heap[o].body, Noted(g, o); var ids := if b.mode.weakValue then [] else ValuesIds(b.items);
      TraverseParts(g, o) == MarkEach(Put(MarkEach(n, ids), o, AllClean(n, o)), NodesIds(b.nodes, !b.mode.weakKey, !b.mode.weakValue))
  {
    hide MarkEach, ValuesIds, NodesIds;
    var b, n := g.heap[o].body, Noted(g, o);
    var ids := if b.mode.weakValue then [] else ValuesIds(b.items);
    MarkEachCommutes(n, ids, o, AllClean(n, o));
    MarkEachAppend(Put(n, o, AllClean(n, o)), ids, NodesIds(b.nodes, !b.mode.weakKey, !b.mode.weakValue));
    assert SetBody(n.heap, o, b.(nodes := CleanNodes(b.nodes))) == n.heap[o := AllClean(n, o)];
  }

  class Collector {
    var heap: Heap
    var gray: seq<Id>
    var grayagain: seq<Id>
    var weak: seq<Id>
    var rootgc: seq<Id>
    var sweepgc: nat
    var strt: seq<seq<Id>>
    var sweepstrgc: nat
    var currentwhite: Mark
    var phase: Phase
    var mainthread: Id
    var registry: Id
    var mt: seq<Option<Id>>
    var running: Id

    function State(): Gc
      reads this
    {
      Gc(heap, gray, grayagain, weak, rootgc, sweepgc, strt, sweepstrgc, currentwhite, phase, mainthread, registry, mt, running)
    }

    /** lua_newstate. */
    constructor (buckets: nat)
      ensures State() == GcProgram.Initial(buckets)
    {
      var g := GcProgram.Initial(buckets);
      heap, gray, grayagain, weak, rootgc, sweepgc := g.heap, [], [], [], g.rootgc, 0;
      strt, sweepstrgc, currentwhite, phase := g.strt, 0, g.currentwhite, Pause;
      mainthread, registry, mt, running := g.mainthread, g.registry, g.mt, g.running;
    }

    // ---------- marking ----------

    method ReallyMarkObject(o: Id)
      requires White(heap, o)
      modifies this
      ensures State() == ReallyMark(old(State()), o)
      decreases Whites(heap), 0
    {
      hide Whites;
      ghost var g := State();
      var body := heap[o].body;
      WhitesSetMark(heap, o, WhiteToGray(heap[o].mark));
      WhitesSetMark(heap, o, GrayToBlack(WhiteToGray(heap[o].mark)));
      heap := SetMark(heap, o, WhiteToGray(heap[o].mark));
      match body
      case Str =>
      case Userdata(meta, env) =>
        heap := SetMark(heap, o, GrayToBlack(heap[o].mark));
        assert heap == SetMark(g.heap, o, GrayToBlack(WhiteToGray(g.heap[o].mark)));
        ghost var g1 := State();
        if meta.Some? { MarkObject(meta.value); }
        MarkObject(env);
        MarkEachAppend(g1, OptIds(meta), [env]);
      case UpVal(v) =>
        MarkValue(v);
        heap := SetMark(heap, o, GrayToBlack(heap[o].mark));
      case _ => gray := [o] + gray;
    }

    method MarkObject(o: Id)
      modifies this
      ensures State() == MarkEach(old(State()), [o])
      decreases Whites(heap), 1
    {
      MarkOne(State(), o);
      if White(heap, o) { ReallyMarkObject(o); }
    }

    method MarkValue(v: Value)
      modifies this
      ensures State() == MarkEach(old(State()), ValueIds(v))
      decreases Whites(heap), 2
    {
      if v.Ref? { MarkObject(v.id); }
    }

    method MarkOpt(o: Option<Id>)
      modifies this
      ensures State() == MarkEach(old(State()), OptIds(o))
    {
      if o.Some? { MarkObject(o.value); }
    }

    method MarkIds(ids: seq<Id>)
      modifies this
      ensures State() == MarkEach(old(State()), ids)
    {
      var i := 0;
      while i < |ids|
        invariant i <= |ids|
        invariant MarkEach(old(State()), ids) == MarkEach(State(), ids[i..])
      {
        MarkEachAppend(State(), [ids[i]], ids[i + 1..]);
        assert [ids[i]] + ids[i + 1..] == ids[i..];
        MarkObject(ids[i]);
        i := i + 1;
      }
    }

    /** From the end, as the loops of the traversals do. */
    method MarkValues(vs: seq<Value>)
      modifies this
      ensures State() == MarkEach(old(State()), ValuesIds(vs))
    {
      hide MarkEach, ValuesIds, ValueIds;
      var i := |vs|;
      assert vs[..i] == vs;
      while i > 0
        invariant i <= |vs|
        invariant MarkEach(old(State()), ValuesIds(vs)) == MarkEach(State(), ValuesIds(vs[..i]))
      {
        ValuesFrom(vs, i);
        MarkEachAppend(State(), ValueIds(vs[i - 1]), ValuesIds(vs[..i - 1]));
        i := i - 1;
        MarkValue(vs[i]);
      }
      NoValues(vs[..0]);
      MarkNothing(State());
    }

    // ---------- traversals ----------

    /** One entry of the hash part of a table. */
    method TraverseNode(o: Id, i: nat, keys: bool, vals: bool)
      requires o in heap && heap[o].body.Table? && i < |heap[o].body.nodes| && !White(heap, o)
      modifies this
      ensures var n := old(heap[o].body.nodes[i]);
        State() == if n.val.Nil? then Put(old(State()), o, old(heap[o]).(body := old(heap[o].body).(nodes := old(heap[o].body.nodes)[i := CleanNode(n)])))
                   else MarkEach(old(State()), NodeIds(n, keys, vals))
    {
      var b := heap[o].body;
      var n := b.nodes[i];
      if n.val.Nil? {
        heap := SetBody(heap, o, b.(nodes := b.nodes[i := CleanNode(n)]));
      } else {
        MarkEachAppend(State(), if keys then ValueIds(n.key) else [], if vals then ValueIds(n.val) else []);
        if keys { MarkValue(n.key); }
        if vals { MarkValue(n.val); }
      }
    }

    /** The hash part of a table: whatever the order in which entries are removed and marked, the
        outcome is that of removing the empty ones first. */
    method TraverseNodes(o: Id, keys: bool, vals: bool)
      requires o in heap && heap[o].body.Table? && !White(heap, o)
      modifies this
      ensures var b := old(heap[o].body); var g := Put(old(State()), o, old(heap[o]).(body := b.(nodes := CleanNodes(b.nodes))));
        State() == MarkEach(g, NodesIds(b.nodes, keys, vals))
    {
      ghost var g := State();
      var i: nat := |heap[o].body.nodes|;
      NodesStart(g, o, keys, vals);
      while i > 0
        invariant NodesLeft(g, State(), o, i, keys, vals)
      {
        ghost var s := State();
        i := i - 1;
        TraverseNode(o, i, keys, vals);
        NodesStep(g, s, State(), o, i, keys, vals);
      }
      NodesEnd(g, State(), o, keys, vals);
    }

    /** traversetable: says whether the table is weak. */
    method TraverseTableAt(o: Id) returns (isWeak: bool)
      requires o in heap && heap[o].body.Table? && !White(heap, o) && ColorsOk(heap)
      modifies this
      ensures State() == TraverseTable(old(State()), o) && isWeak == IsWeak(old(heap[o].body.mode))
    {
      hide MarkEach, Marked, ValuesIds, NodesIds, NodeIds, ColorsOk;
      ghost var g := State();
      var b := heap[o].body;
      MarkEachMarks(State(), OptIds(b.metatable));
      MarkedKeeps(State(), MarkEach(State(), OptIds(b.metatable)), o);
      MarkOpt(b.metatable);
      ghost var g1 := State();
      var mode := b.mode;
      isWeak := IsWeak(mode);
      if isWeak {
        heap := SetMark(heap, o, heap[o].mark.(bit3 := mode.weakKey, bit4 := mode.weakValue));
        weak := [o] + weak;
      }
      assert State() == Noted(g1, o);
      if mode.weakKey && mode.weakValue { return; }
      NotedParts(g1, o);
      ghost var n := State();
      ghost var ids := if mode.weakValue then [] else ValuesIds(b.items);
      SelfPut(n, o);
      MarkEachCommutes(n, ids, o, n.heap[o]);
      if !mode.weakValue { MarkValues(b.items); } else { MarkNothing(n); }
      TraverseNodes(o, !mode.weakKey, !mode.weakValue);
    }

    method TraverseClosure(o: Id)
      requires o in heap && heap[o].body.Closure?
      modifies this
      ensures State() == MarkEach(old(State()), Refs(old(heap[o].body)))
    {
      var b := heap[o].body;
      MarkEachAppend(State(), [b.env], OptIds(b.proto));
      MarkEachAppend(State(), [b.env] + OptIds(b.proto), ValuesIds(b.upvals));
      MarkObject(b.env);
      MarkOpt(b.proto);
      MarkValues(b.upvals);
    }

    method TraverseProto(o: Id)
      requires o in heap && heap[o].body.Proto?
      modifies this
      ensures State() == MarkEach(old(State()), Refs(old(heap[o].body)))
    {
      var b := heap[o].body;
      MarkEachAppend(State(), b.names, ValuesIds(b.constants));
      MarkEachAppend(State(), b.names + ValuesIds(b.constants), b.protos);
      MarkIds(b.names);
      MarkValues(b.constants);
      MarkIds(b.protos);
    }

    method TraverseStack(o: Id)
      requires o in heap && heap[o].body.Thread?
      modifies this
      ensures State() == MarkEach(old(State()), Refs(old(heap[o].body)))
    {
      var b := heap[o].body;
      MarkEachAppend(State(), ValueIds(b.globals), ValuesIds(b.stack));
      MarkValue(b.globals);
      MarkValues(b.stack);
    }

    /** propagatemark. */
    method PropagateMarkStep()
      requires QueueOk(State()) && gray != []
      modifies this
      ensures State() == PropagateMark(old(State()))
    {
      hide TraverseTable, MarkEach, Refs, NoDup, Apart;
      ghost var g := State();
      var o := gray[0];
      assert o == Head(g);
      ColorsSet(heap, o, GrayToBlack(heap[o].mark));
      heap := SetMark(heap, o, GrayToBlack(heap[o].mark));
      gray := gray[1..];
      if heap[o].body.Table? {
        TraverseKeeps(State(), o);
        var isWeak := TraverseTableAt(o);
        if isWeak { heap := SetMark(heap, o, BlackToGray(heap[o].mark)); }
      } else if heap[o].body.Thread? {
        grayagain := [o] + grayagain;
        heap := SetMark(heap, o, BlackToGray(heap[o].mark));
        TraverseStack(o);
      } else if heap[o].body.Closure? {
        TraverseClosure(o);
      } else {
        TraverseProto(o);
      }
    }

    /** propagateall. */
    method PropagateAllLoop()
      requires QueueOk(State())
      modifies this
      ensures State() == PropagateAll(old(State()))
    {
      while gray != []
        invariant QueueOk(State()) && PropagateAll(State()) == PropagateAll(old(State()))
        decreases Whites(heap), |gray|
      {
        PropagateQueue(State());
        PropagateShrinks(State());
        PropagateMarkStep();
      }
    }

    // ---------- clearing weak tables ----------

    /** iscleared, with its side effect on strings. */
    method Iscleared(v: Value, isKey: bool) returns (cleared: bool)
      modifies this
      ensures State() == old(State()).(heap := StringMark(old(heap), v)) && cleared == IsCleared(old(heap), v, isKey)
    {
      cleared := false;
      if v.Ref? && v.id in heap {
        if heap[v.id].body.Str? {
          heap := SetMark(heap, v.id, WhiteToGray(heap[v.id].mark));
        } else {
          cleared := IsWhite(heap[v.id].mark) || (heap[v.id].body.Userdata? && !isKey && heap[v.id].mark.bit3);
        }
      }
    }

    method ClearItemAt(t: Id, i: nat)
      requires t in heap && heap[t].body.Table? && i < |heap[t].body.items|
      modifies this
      ensures State() == old(State()).(heap := ClearItem(old(heap), t, i))
    {
      var b := heap[t].body;
      StringMarkCleared(heap, b.items[i], t);
      var cleared := Iscleared(b.items[i], false);
      if cleared { heap := SetBody(heap, t, b.(items := b.items[i := Nil])); }
    }

    method ClearNodeAt(t: Id, i: nat)
      requires t in heap && heap[t].body.Table? && i < |heap[t].body.nodes|
      modifies this
      ensures State() == old(State()).(heap := ClearNode(old(heap), t, i))
    {
      var b := heap[t].body;
      var n := b.nodes[i];
      if !n.val.Nil? {
        StringMarkCleared(heap, n.key, t);
        var cleared := Iscleared(n.key, true);
        if !cleared {
          StringMarkCleared(heap, n.val, t);
          cleared := Iscleared(n.val, false);
        }
        if cleared { heap := SetBody(heap, t, b.(nodes := b.nodes[i := CleanNode(Node(n.key, Nil))])); }
      }
    }

    method ClearItemsLoop(t: Id)
      requires t in heap && heap[t].body.Table?
      modifies this
      ensures State() == old(State()).(heap := ClearItems(old(heap), t, |old(heap)[t].body.items|))
    {
      var i: nat := |heap[t].body.items|;
      while i > 0
        invariant t in heap && heap[t].body.Table? && i <= |heap[t].body.items|
        invariant State() == old(State()).(heap := heap)
        invariant ClearItems(heap, t, i) == ClearItems(old(heap), t, |old(heap)[t].body.items|)
      {
        i := i - 1;
        ClearItemShape(heap, t, i);
        ClearItemAt(t, i);
      }
    }

    method ClearNodesLoop(t: Id)
      requires t in heap && heap[t].body.Table?
      modifies this
      ensures State() == old(State()).(heap := ClearNodes(old(heap), t, |old(heap)[t].body.nodes|))
    {
      var i: nat := |heap[t].body.nodes|;
      while i > 0
        invariant t in heap && heap[t].body.Table? && i <= |heap[t].body.nodes|
        invariant State() == old(State()).(heap := heap)
        invariant ClearNodes(heap, t, i) == ClearNodes(old(heap), t, |old(heap)[t].body.nodes|)
      {
        i := i - 1;
        ClearNodeShape(heap, t, i);
        ClearNodeAt(t, i);
      }
    }

    method ClearTableAt(t: Id)
      requires t in heap && heap[t].body.Table?
      modifies this
      ensures State() == old(State()).(heap := ClearTable(old(heap), t))
    {
      hide Cleared, ClearItems, ClearNodes;
      ClearItemsDone(heap, t, |heap[t].body.items|);
      if heap[t].mark.bit4 { ClearItemsLoop(t); }
      ClearNodesLoop(t);
    }

    method ClearTablesLoop(l: seq<Id>)
      modifies this
      ensures State() == old(State()).(heap := ClearTables(old(heap), l))
    {
      var i := 0;
      while i < |l|
        invariant i <= |l| && State() == old(State()).(heap := heap)
        invariant ClearTables(heap, l[i..]) == ClearTables(old(heap), l)
      {
        assert l[i..][1..] == l[i + 1..];
        if l[i] in heap && heap[l[i]].body.Table? { ClearTableAt(l[i]); }
        i := i + 1;
      }
    }

    // ---------- atomic ----------

    method SeparateUdataLoop()
      modifies this
      ensures State() == old(State()).(heap := SeparateUdata(old(heap), After(rootgc, mainthread)))
    {
      var l := After(rootgc, mainthread);
      while l != []
        invariant State() == old(State()).(heap := heap)
        invariant SeparateUdata(heap, l) == SeparateUdata(old(heap), After(rootgc, mainthread))
        decreases |l|
      {
        var o := l[0];
        if White(heap, o) && heap[o].body.Userdata? { heap := SetMark(heap, o, heap[o].mark.(bit3 := true)); }
        l := l[1..];
      }
    }

    method AtomicMarkLoop()
      requires QueueOk(State())
      modifies this
      ensures State() == AtomicMark(old(State()))
    {
      hide QueueOk, MarkEach, PropagateAll, OptsIds, Marked;
      ghost var g := State();
      PropagateAllLoop();
      Requeue(State());
      gray := weak;
      weak := [];
      ghost var g2 := State();
      ghost var ids := OptsIds(mt);
      PropagateAllHeap(g);
      assert g2.running == g.running && g2.mt == g.mt;
      QueueColors(g2);
      MarkEachMarks(g2, [running] + ids);
      MarkedQueue(g2, MarkEach(g2, [running] + ids));
      MarkEachAppend(g2, [running], ids);
      MarkEachFields(g2, [running]);
      MarkObject(running);
      MarkBasicMetatables(ids);
      PropagateAllLoop();
      Requeue(State());
      gray := grayagain;
      grayagain := [];
      PropagateAllLoop();
    }

    method AtomicStep()
      requires QueueOk(State())
      modifies this
      ensures State() == Atomic(old(State()))
    {
      hide QueueOk, AtomicMark, After, SeparateUdata, ClearTables;
      AtomicMarkLoop();
      SeparateUdataLoop();
      ClearTablesLoop(weak);
      currentwhite := OtherWhite(currentwhite);
      sweepstrgc := 0;
      sweepgc := 0;
      phase := SweepString;
    }

    /** markmt. */
    method MarkBasicMetatables(ghost ids: seq<Id>)
      requires ids == OptsIds(mt)
      modifies this
      ensures State() == MarkEach(old(State()), ids)
    {
      hide MarkEach;
      var i := 0;
      var tags := mt;
      assert tags[0..] == tags;
      while i < |tags|
        invariant i <= |tags| && MarkEach(State(), OptsIds(tags[i..])) == MarkEach(old(State()), ids)
      {
        assert tags[i..][1..] == tags[i + 1..];
        MarkEachAppend(State(), OptIds(tags[i]), OptsIds(tags[i + 1..]));
        MarkOpt(tags[i]);
        i := i + 1;
      }
      assert tags[|tags|..] == [];
      MarkNothing(State());
    }

    /** markroot. */
    method MarkRootStep()
      modifies this
      ensures State() == MarkRoot(old(State()))
    {
      hide MarkEach, OptsIds, ValueIds, MarkRoot;
      ghost var g := State();
      var globals := GlobalsOf(State());
      gray, grayagain, weak := [], [], [];
      MarkObject(mainthread);
      ghost var a := State();
      MarkValue(globals);
      ghost var b := State();
      RootsInTurn(g, a, b, MarkEach(b, [g.registry]), MarkEach(MarkEach(b, [g.registry]), OptsIds(g.mt)));
      MarkObject(registry);
      MarkBasicMetatables(OptsIds(mt));
      phase := Propagate;
    }

    // ---------- sweeping ----------

    /** sweeplist: works on a list and gives back what it kept and what it did not reach. */
    method SweepListLoop(list: seq<Id>, count: nat) returns (kept: seq<Id>, rest: seq<Id>)
      modifies this`heap
      ensures var s := SweepList(old(heap), list, count, currentwhite); heap == s.heap && kept == s.kept && rest == s.rest
    {
      kept, rest := [], list;
      var left := count;
      while rest != [] && left > 0
        invariant var s, t := SweepList(old(heap), list, count, currentwhite), SweepList(heap, rest, left, currentwhite);
          s.heap == t.heap && s.kept == kept + t.kept && s.rest == t.rest
        decreases |rest|
      {
        var o := rest[0];
        if Stays(heap, o, currentwhite) {
          heap := SetMark(heap, o, MakeWhite(currentwhite, heap[o].mark));
          kept := kept + [o];
        } else {
          heap := heap - {o};
        }
        rest, left := rest[1..], left - 1;
      }
    }

    /** singlestep. */
    method Singlestep()
      requires StepOk(State())
      modifies this
      ensures State() == SingleStep(old(State()))
    {
      hide QueueOk, SweepList, MarkRoot, PropagateMark, Atomic;
      match phase
      case Pause => MarkRootStep();
      case Propagate => if gray != [] { PropagateMarkStep(); } else { AtomicStep(); }
      case SweepString =>
        var kept, rest := SweepListLoop(strt[sweepstrgc], |strt[sweepstrgc]|);
        strt := strt[sweepstrgc := kept];
        sweepstrgc := sweepstrgc + 1;
        if sweepstrgc >= |strt| { phase := Sweep; }
      case Sweep =>
        var kept, rest := SweepListLoop(rootgc[sweepgc..], GCSWEEPMAX);
        rootgc := rootgc[..sweepgc] + kept + rest;
        sweepgc := sweepgc + |kept|;
        if rest == [] { phase := Finalize; }
      case Finalize => phase := Pause;
    }

    method FinishSweepLoop()
      requires Inv(State()) && Rank(phase) in {1, 2, 3}
      modifies this
      ensures Inv(old(State())) && State() == FinishSweep(old(State()))
    {
      hide Inv, SingleStep, StepOk;
      while phase != Finalize
        invariant Inv(State()) && Rank(phase) in {1, 2, 3}
        invariant FinishSweep(State()) == FinishSweep(old(State()))
        decreases Rank(phase), Unmarked(State()), Left(State())
      {
        SingleStepInv(State());
        StepAdvances(State());
        SweepPhases(State());
        Singlestep();
      }
    }

    method FinishCycleLoop()
      requires Inv(State())
      modifies this
      ensures Inv(old(State())) && State() == FinishCycle(old(State()))
    {
      hide Inv, SingleStep, StepOk;
      while phase != Pause
        invariant Inv(State()) && FinishCycle(State()) == FinishCycle(old(State()))
        decreases Rank(phase), Unmarked(State()), Left(State())
      {
        SingleStepInv(State());
        StepAdvances(State());
        Singlestep();
      }
    }

    /** luaC_fullgc. */
    method Fullgc()
      requires Inv(State())
      modifies this
      ensures Inv(old(State())) && State() == FullGc(old(State()))
    {
      hide Inv, FinishSweep, FinishCycle, AllWhite, MarkRoot;
      AbandonInv(State());
      if phase == Pause || phase == Propagate {
        sweepstrgc := 0;
        sweepgc := 0;
        gray, grayagain, weak := [], [], [];
        phase := SweepString;
      }
      FinishSweepLoop();
      FinalizeWhite(State());
      MarkRootInv(State());
      MarkRootStep();
      FinishCycleLoop();
    }

    // ---------- what the program calls ----------

    /** luaC_barrierf: the invariant, broken for o at most, holds on, and the reference from o to v is
        paid for: while marking v is not white any more, else o is not black. */
    method Barrierf(o: Id, v: Id)
      requires GcProgram.InvBut(State(), {o}) && Alive(State(), o) && Alive(State(), v)
      requires IsBlack(heap[o].mark) && White(heap, v) && !heap[o].body.Table?
      modifies this
      ensures GcProgram.BarrierDone(old(State()), State(), o, v)
      ensures if old(phase) == Propagate then !White(heap, v) && heap[o] == old(heap[o]) else !IsBlack(heap[o].mark) && heap[v] == old(heap[v])
      ensures State() == GcProgram.BarrierForward(old(State()), o, v)
    {
      hide GcProgram.InvBut, GcProgram.BarrierDone, ReallyMark;
      BarrierPays(State(), o, v);
      if phase == Propagate { ReallyMarkObject(v); }
      else { heap := SetMark(heap, o, MakeWhite(currentwhite, heap[o].mark)); }
    }

    /** luaC_barrierback: the table is gray and waits to be traversed again, and the invariant, broken for
        it at most, is whole again, whatever was stored in the table. */
    method Barrierback(t: Id)
      requires GcProgram.InvBut(State(), {t}) && Alive(State(), t) && IsBlack(heap[t].mark) && heap[t].body.Table?
      modifies this
      ensures Inv(State()) && t in heap && IsGray(heap[t].mark) && t in grayagain
      ensures forall o :: Alive(old(State()), o) ==> Alive(State(), o) && heap[o].body == old(heap)[o].body
      ensures State() == GcProgram.BarrierBack(old(State()), t)
    {
      hide Inv, GcProgram.InvBut;
      GcProgram.BackInv(State(), t);
      BlackIs(State(), t);
      heap := SetMark(heap, t, BlackToGray(heap[t].mark));
      grayagain := [t] + grayagain;
    }

    /** luaC_link, and the way luaS_newudata links a userdata: the new object is alive and listed, where no
        sweep under way takes it for dead, and everything else stays as it was. */
    method Link(id: Id, body: Body)
      requires Inv(State()) && GcProgram.Enabled(State(), GcProgram.New(id, body))
      modifies this
      ensures Inv(State()) && Alive(State(), id) && id in rootgc && heap[id].body == body
      ensures forall o :: Alive(old(State()), o) ==> Alive(State(), o) && heap[o] == old(heap)[o]
      ensures State() == GcProgram.LinkObject(old(State()), id, body)
    {
      hide Inv, GcProgram.Enabled;
      GcProgram.LinkInv(State(), id, body);
      heap := heap[id := Object(NewMark(currentwhite), body)];
      var at := if body.Userdata? then |rootgc| - |After(rootgc, mainthread)| else 0;
      rootgc := rootgc[..at] + [id] + rootgc[at..];
      if sweepgc > at { sweepgc := sweepgc + 1; }
    }
  }

  lemma BlackIs(g: Gc, o: Id)
    requires GcProgram.InvBut(g, {o}) && o in g.heap && IsBlack(g.heap[o].mark)
    ensures !White(g.heap, o)
  {
    hide Closed, RootsAlive, ListsOk, ThreadsOk;
    assert MarkOk(g.heap[o]);
  }

  /** What a barrier forward gives. */
  lemma BarrierPays(g: Gc, o: Id, v: Id)
    requires GcProgram.InvBut(g, {o}) && Alive(g, o) && Alive(g, v) && IsBlack(g.heap[o].mark) && White(g.heap, v) && !g.heap[o].body.Table?
    ensures var r := GcProgram.BarrierForward(g, o, v);
      && GcProgram.BarrierDone(g, r, o, v)
      && (if g.phase == Propagate then !White(r.heap, v) && o in r.heap && r.heap[o] == g.heap[o] else !IsBlack(r.heap[o].mark) && v in r.heap && r.heap[v] == g.heap[v])
  {
    hide GcProgram.InvBut, GcProgram.BarrierDone;
    BlackIs(g, o);
    if g.phase == Propagate {
      GcProgram.ForwardMarks(g, o, v);
      GcProgram.BarrierMarks(g, v, {o});
    } else {
      GcProgram.ForwardWhitens(g, o, v);
    }
  }
}
