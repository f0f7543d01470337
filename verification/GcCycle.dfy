/** One collection: markroot, the sweep and singlestep; and the invariant every step keeps. */
module GcCycle {
  import opened GcHeap
  import opened GcMark
  import opened GcPropagate
  import opened GcTricolor
  import opened GcAtomic

  const GCSWEEPMAX: nat := 40

  // ---------- the steps ----------

  function Globals(g: Gc): seq<Id> {
    if g.mainthread in g.heap && g.heap[g.mainthread].body.Thread? then ValueIds(g.heap[g.mainthread].body.globals) else []
  }

  /** What markroot marks, in its order. */
  function MarkedRoots(g: Gc): seq<Id> { [g.mainthread] + Globals(g) + [g.registry] + OptsIds(g.mt) }

  function MarkRoot(g: Gc): (r: Gc)
    ensures r.heap.Keys == g.heap.Keys
  {
    MarkEach(g.(gray := [], grayagain := [], weak := []), MarkedRoots(g)).(phase := Propagate)
  }

  /** What a sweep leaves: the heap, the objects it kept, the part of the list it did not reach. */
  datatype Swept = Swept(heap: Heap, kept: seq<Id>, rest: seq<Id>)

  predicate Stays(h: Heap, o: Id, current: Mark) { o in h && Survives(OtherWhite(current), h[o].mark) }

  function SweepOne(h: Heap, o: Id, current: Mark): Heap {
    if Stays(h, o, current) then SetMark(h, o, MakeWhite(current, h[o].mark)) else h - {o}
  }

  /** sweeplist: at most count objects of the list; the dead ones are freed, the others turn white. */
  function SweepList(h: Heap, list: seq<Id>, count: nat, current: Mark): (r: Swept)
    decreases |list|
  {
    if list == [] || count == 0 then Swept(h, [], list)
    else
      var s := SweepList(SweepOne(h, list[0], current), list[1..], count - 1, current);
      if Stays(h, list[0], current) then s.(kept := [list[0]] + s.kept) else s
  }

  function SweepBucket(g: Gc): Gc
    requires g.sweepstrgc < |g.strt|
  {
    var i := g.sweepstrgc;
    var s := SweepList(g.heap, g.strt[i], |g.strt[i]|, g.currentwhite);
    g.(heap := s.heap, strt := g.strt[i := s.kept], sweepstrgc := i + 1,
       phase := if i + 1 >= |g.strt| then Sweep else SweepString)
  }

  function SweepSome(g: Gc): Gc
    requires g.sweepgc <= |g.rootgc|
  {
    var s := SweepList(g.heap, g.rootgc[g.sweepgc..], GCSWEEPMAX, g.currentwhite);
    g.(heap := s.heap, rootgc := g.rootgc[..g.sweepgc] + s.kept + s.rest, sweepgc := g.sweepgc + |s.kept|,
       phase := if s.rest == [] then Finalize else Sweep)
  }

  /** What a step asks of the state. */
  predicate StepOk(g: Gc) {
    match g.phase
    case Propagate => QueueOk(g)
    case SweepString => g.sweepstrgc < |g.strt|
    case Sweep => g.sweepgc <= |g.rootgc|
    case _ => true
  }

  /** singlestep (no userdata ever waits for its finalizer here). */
  function SingleStep(g: Gc): Gc
    requires StepOk(g)
  {
    match g.phase
    case Pause => MarkRoot(g)
    case Propagate => if g.gray != [] then PropagateMark(g) else Atomic(g)
    case SweepString => SweepBucket(g)
    case Sweep => SweepSome(g)
    case Finalize => g.(phase := Pause)
  }

  /** The first thing luaC_fullgc does: a cycle that has not come to its sweep is abandoned, and
      everything is to be swept. */
  function Abandon(g: Gc): Gc {
    if g.phase == Pause || g.phase == Propagate then
      g.(sweepstrgc := 0, sweepgc := 0, gray := [], grayagain := [], weak := [], phase := SweepString)
    else g
  }

  // ---------- the invariant ----------

  predicate CurrentOk(c: Mark) { c == Mark(c.white0, !c.white0, false, false, false, true, false) }

  predicate MarkOk(x: Object) {
    && !(x.mark.white0 && x.mark.white1) && !(IsWhite(x.mark) && IsBlack(x.mark)) && KindOk(x)
  }

  ghost predicate HeapOk(h: Heap) { forall o :: o in h ==> MarkOk(h[o]) }

  /** What is alive refers only to what is alive. */
  ghost predicate Closed(g: Gc) { forall o, id :: Alive(g, o) && id in Refs(g.heap[o].body) ==> Alive(g, id) }

  ghost predicate RootsAlive(g: Gc) { forall o :: o in Roots(g) ==> Alive(g, o) }

  ghost predicate NoneDead(g: Gc) { forall o :: o in g.heap ==> Alive(g, o) }

  /** Of the current white, ready for the next cycle. */
  predicate CurrentWhite(g: Gc, o: Id) {
    o in g.heap && g.heap[o].mark.white0 == g.currentwhite.white0 && g.heap[o].mark.white1 == g.currentwhite.white1
  }

  ghost predicate AllWhite(g: Gc) { forall o :: o in g.heap ==> CurrentWhite(g, o) }

  predicate InTable(strt: seq<seq<Id>>, o: Id) { exists i :: 0 <= i < |strt| && o in strt[i] }

  predicate BucketOk(h: Heap, b: seq<Id>) { NoDup(b) && forall o :: o in b ==> o in h && h[o].body.Str? }

  /** Every object is on exactly one list: the strings in the string table, the others on rootgc. */
  ghost predicate ListsOk(g: Gc) {
    && NoDup(g.rootgc) && (forall o :: o in g.rootgc ==> o in g.heap && !g.heap[o].body.Str?)
    && |g.strt| > 0
    && (forall i :: 0 <= i < |g.strt| ==> BucketOk(g.heap, g.strt[i]))
    && (forall i, j :: 0 <= i < j < |g.strt| ==> Apart(g.strt[i], g.strt[j]))
    && (forall o :: o in g.heap ==> o in g.rootgc || InTable(g.strt, o))
  }

  /** Only strings and the main thread are fixed. */
  ghost predicate FixedOk(g: Gc) { forall o :: o in g.heap && g.heap[o].mark.fixed ==> g.heap[o].body.Str? || o == g.mainthread }

  ghost predicate ThreadsOk(g: Gc) {
    && FixedOk(g)
    && g.mainthread in g.rootgc && g.mainthread in g.heap && g.heap[g.mainthread].body.Thread?
    && g.running in g.heap && g.heap[g.running].body.Thread?
  }

  ghost predicate PhaseOk(g: Gc) {
    match g.phase
    case Pause => AllWhite(g)
    case Propagate => NoneDead(g) && Tricolor(g) && !White(g.heap, g.mainthread) && !White(g.heap, g.registry)
    case SweepString =>
      g.sweepgc == 0 && g.sweepstrgc < |g.strt|
      && forall i, o :: 0 <= i < g.sweepstrgc && o in g.strt[i] ==> CurrentWhite(g, o)
    case Sweep =>
      g.sweepgc <= |g.rootgc|
      && (forall i, o :: 0 <= i < |g.strt| && o in g.strt[i] ==> CurrentWhite(g, o))
      && (forall o :: o in g.rootgc[..g.sweepgc] ==> CurrentWhite(g, o))
    case Finalize => AllWhite(g)
  }

  /** What every step of the collector and every action of the program keeps. */
  ghost predicate Inv(g: Gc) {
    && CurrentOk(g.currentwhite) && HeapOk(g.heap) && Closed(g) && RootsAlive(g) && ListsOk(g) && ThreadsOk(g) && PhaseOk(g)
  }

  lemma InvStepOk(g: Gc)
    requires Inv(g)
    ensures StepOk(g)
  {
    hide Tricolor, Closed, ListsOk;
    if g.phase == Propagate { TricolorQueue(g); }
  }

  /** What a program can reach is alive. */
  lemma ReachableAlive(g: Gc, o: Id)
    requires Closed(g) && RootsAlive(g) && Reachable(g, o)
    ensures Alive(g, o)
  {
    var path :| PathFrom(g.heap, Roots(g), path, o, false);
    PathStays(g.heap, Roots(g), path, o, false, iset x | Alive(g, x));
  }

  // ---------- colours and death ----------

  /** An object that is not white is alive; a white one is alive if it has the current white. */
  lemma AliveIs(g: Gc, o: Id)
    requires CurrentOk(g.currentwhite) && o in g.heap && MarkOk(g.heap[o])
    ensures Alive(g, o) <==> !IsWhite(g.heap[o].mark) || CurrentWhite(g, o)
    ensures Alive(g, o) <==> Survives(OtherWhite(g.currentwhite), g.heap[o].mark) && !(g.heap[o].mark.fixed && IsDead(g.currentwhite, g.heap[o].mark))
    ensures CurrentWhite(g, o) ==> IsWhite(g.heap[o].mark)
  {
  }
}
