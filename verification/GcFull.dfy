/** A full collection: it ends, and what it leaves is what is kept alive from the roots. */
module GcFull {
  import opened GcHeap
  import opened GcMark
  import opened GcPropagate
  import opened GcTricolor
  import opened GcAtomic
  import opened GcCycle
  import opened GcSafety
  import opened GcSweep

  // ---------- steps to go ----------

  function Rank(p: Phase): nat {
    match p case Propagate => 4 case SweepString => 3 case Sweep => 2 case Finalize => 1 case Pause => 0
  }

  function Unmarked(g: Gc): set<Id> { if g.phase == Propagate then Whites(g.heap) else {} }

  /** What is left to do in the present phase. */
  function Left(g: Gc): int {
    match g.phase
    case Propagate => |g.gray|
    case SweepString => |g.strt| - g.sweepstrgc
    case Sweep => |g.rootgc| - g.sweepgc
    case _ => 0
  }

  /** Every step but the first of a cycle brings the cycle nearer to its end. */
  lemma StepAdvances(g: Gc)
    requires Inv(g) && g.phase != Pause
    ensures StepOk(g)
    ensures var r := SingleStep(g);
      Rank(r.phase) < Rank(g.phase)
      || (Rank(r.phase) == Rank(g.phase) && (Unmarked(r) < Unmarked(g) || (Unmarked(r) == Unmarked(g) && 0 <= Left(r) < Left(g))))
  {
    hide HeapOk, Closed, RootsAlive, ListsOk, ThreadsOk, Tricolor, NoneDead, AllWhite;
    InvStepOk(g);
    match g.phase
    case Propagate =>
      if g.gray != [] { PropagateShrinks(g); PropagatePhase(g); } else { AtomicPhase(g); }
    case SweepString => BucketSwept(g);
    case Sweep =>
      SomeSwept(g);
      var r, list := SweepSome(g), g.rootgc[g.sweepgc..];
      var n := Reached(list, GCSWEEPMAX);
      var kept :| r.rootgc == g.rootgc[..g.sweepgc] + kept + list[n..] && r.sweepgc == g.sweepgc + |kept|
                  && r.phase == (if n == |list| then Finalize else Sweep);
    case Finalize =>
  }

  lemma PropagatePhase(g: Gc)
    requires QueueOk(g) && g.gray != []
    ensures PropagateMark(g).phase == g.phase
  {
    hide QueueOk, Head;
    PropagateGrown(g);
  }

  lemma AtomicPhase(g: Gc)
    requires QueueOk(g)
    ensures Atomic(g).phase == SweepString
  {
  }

  // ---------- the loops of luaC_fullgc ----------

  /** Until the sweep is over. */
  ghost function FinishSweep(g: Gc): (r: Gc)
    requires Inv(g) && Rank(g.phase) in {1, 2, 3}
    ensures Inv(r) && r.phase == Finalize
    decreases Rank(g.phase), Unmarked(g), Left(g)
  {
    if g.phase == Finalize then g
    else
      SingleStepInv(g);
      StepAdvances(g);
      SweepPhases(g);
      FinishSweep(SingleStep(g))
  }

  lemma SweepPhases(g: Gc)
    requires Inv(g) && (g.phase == SweepString || g.phase == Sweep)
    ensures StepOk(g) && Rank(SingleStep(g).phase) in {1, 2, 3}
  {
    hide HeapOk, Closed, RootsAlive, ListsOk, ThreadsOk;
  }

  /** Until the cycle is over. */
  ghost function FinishCycle(g: Gc): (r: Gc)
    requires Inv(g)
    ensures Inv(r) && r.phase == Pause
    decreases Rank(g.phase), Unmarked(g), Left(g)
  {
    if g.phase == Pause then g
    else
      SingleStepInv(g);
      StepAdvances(g);
      FinishCycle(SingleStep(g))
  }

  lemma AbandonInv(g: Gc)
    requires Inv(g)
    ensures Inv(Abandon(g)) && Rank(Abandon(g).phase) in {1, 2, 3}
  {
    hide ListsOk, Tricolor;
    var s := Abandon(g);
    assert forall x :: Alive(s, x) <==> Alive(g, x);
    ListsSame(g, s);
    TableNotEmpty(g);
  }

  /** luaC_fullgc. */
  ghost function FullGc(g: Gc): (r: Gc)
    requires Inv(g)
    ensures Inv(r) && r.phase == Pause
  {
    AbandonInv(g);
    var g1 := FinishSweep(Abandon(g));
    MarkRootInv(g1);
    FinishCycle(MarkRoot(g1))
  }

  // ---------- what a sweep leaves ----------

  /** From g to r only dead objects have gone, and only fixed ones have come back to life. */
  ghost predicate SweptDown(g: Gc, r: Gc) {
    && Roots(r) == Roots(g) && r.mainthread == g.mainthread && r.registry == g.registry && r.running == g.running && r.mt == g.mt
    && r.currentwhite == g.currentwhite
    && (forall o :: o in r.heap ==> o in g.heap && r.heap[o].body == g.heap[o].body && r.heap[o].mark.fixed == g.heap[o].mark.fixed)
    && (forall o :: Alive(r, o) ==> Alive(g, o) || (o in g.heap && g.heap[o].mark.fixed))
    && (forall o :: Alive(g, o) ==> Alive(r, o))
  }

  lemma SweptDownTrans(a: Gc, b: Gc, c: Gc)
    requires SweptDown(a, b) && SweptDown(b, c)
    ensures SweptDown(a, c)
  {
  }

  lemma SweptFromDown(g: Gc, r: Gc, list: seq<Id>, n: nat, kept: seq<Id>)
    requires n <= |list| && SweptFrom(g, r, list, n, kept) && CurrentOk(g.currentwhite) && HeapOk(g.heap)
    ensures SweptDown(g, r)
  {
    hide HeapOk, SweptOk;
    forall o | o in r.heap
      ensures o in g.heap && r.heap[o].body == g.heap[o].body && r.heap[o].mark.fixed == g.heap[o].mark.fixed
      ensures Alive(r, o) ==> Alive(g, o) || g.heap[o].mark.fixed
    {
      SweptObject(g, r, list, n, kept, o);
      FixedBefore(g, r, list, n, kept, o);
    }
    forall o | Alive(g, o)
      ensures Alive(r, o)
    {
      AliveStays(g, r, list, n, kept, o);
    }
  }

  lemma SweepStepDown(g: Gc)
    requires Inv(g) && (g.phase == SweepString || g.phase == Sweep)
    ensures StepOk(g) && SweptDown(g, SingleStep(g))
  {
    hide SweptFrom, HeapOk, Closed, RootsAlive, ListsOk, ThreadsOk, SweptDown;
    if g.phase == SweepString {
      BucketSwept(g);
      var r, i := SweepBucket(g), g.sweepstrgc;
      SweptFromDown(g, r, g.strt[i], |g.strt[i]|, r.strt[i]);
    } else {
      SomeSwept(g);
      var r, list := SweepSome(g), g.rootgc[g.sweepgc..];
      var n := Reached(list, GCSWEEPMAX);
      var kept :| SweptFrom(g, r, list, n, kept);
      SweptFromDown(g, r, list, n, kept);
    }
  }

  lemma {:induction false} FinishSweepDown(g: Gc)
    requires Inv(g) && Rank(g.phase) in {1, 2, 3}
    ensures SweptDown(g, FinishSweep(g))
    decreases Rank(g.phase), Unmarked(g), Left(g)
  {
    hide Inv, SingleStep, StepOk;
    if g.phase != Finalize {
      SingleStepInv(g);
      StepAdvances(g);
      SweepPhases(g);
      SweepStepDown(g);
      FinishSweepDown(SingleStep(g));
      SweptDownTrans(g, SingleStep(g), FinishSweep(g));
    }
  }

  /** An abandoned mark phase frees nothing and changes nothing but colours. */
  lemma AbandonedFreesNothing(g: Gc)
    requires Inv(g) && (g.phase == Pause || g.phase == Propagate)
    ensures Inv(Abandon(g)) && Rank(Abandon(g).phase) in {1, 2, 3}
    ensures var r := FinishSweep(Abandon(g)); r.heap.Keys == g.heap.Keys && forall o :: o in g.heap ==> r.heap[o].body == g.heap[o].body
  {
    hide HeapOk, Closed, RootsAlive, ListsOk, ThreadsOk, Tricolor, FinishSweep;
    AbandonInv(g);
    var s := Abandon(g);
    FinishSweepDown(s);
    var r := FinishSweep(s);
    assert NoneDead(g) by { NotSweeping(g); }
    forall o | o in g.heap
      ensures o in r.heap
    {
      assert Alive(g, o) && Alive(s, o);
    }
  }

  lemma NotSweeping(g: Gc)
    requires Inv(g) && g.phase != SweepString && g.phase != Sweep
    ensures NoneDead(g)
  {
    hide Closed, RootsAlive, ListsOk, ThreadsOk, Tricolor;
    if g.phase != Propagate {
      AllWhiteAlive(g);
    }
  }
}
