/** The program that runs between the steps of the collector: what it may do, with the barriers it
    owes, and safety over every interleaving. */
module GcProgram {
  import opened GcHeap
  import opened GcMark
  import opened GcPropagate
  import opened GcTricolor
  import opened GcAtomic
  import opened GcCycle
  import opened GcSafety
  import opened GcSweep
  import opened GcFull

  // ---------- barriers ----------

  /** luaC_barrierf: while marking, mark the new value; while sweeping, whiten the black object. */
  function BarrierForward(g: Gc, o: Id, v: Id): Gc
    requires o in g.heap && White(g.heap, v)
  {
    if g.phase == Propagate then ReallyMark(g, v)
    else g.(heap := SetMark(g.heap, o, MakeWhite(g.currentwhite, g.heap[o].mark)))
  }

  /** luaC_barrierback: make a table gray again, to be traversed at the end of the mark phase. */
  function BarrierBack(g: Gc, t: Id): Gc
    requires t in g.heap
  {
    g.(heap := SetMark(g.heap, t, BlackToGray(g.heap[t].mark)), grayagain := [t] + g.grayagain)
  }

  /** The barrier macros: needed only when a black object comes to refer to a white one. */
  function Barrier(g: Gc, o: Id, v: Id): Gc {
    if o in g.heap && White(g.heap, v) && IsBlack(g.heap[o].mark) then
      if g.heap[o].body.Table? then BarrierBack(g, o) else BarrierForward(g, o, v)
    else g
  }

  function Barriers(g: Gc, o: Id, vs: seq<Id>): Gc
    decreases |vs|
  {
    if vs == [] then g else Barriers(Barrier(g, o, vs[0]), o, vs[1..])
  }

  // ---------- what a program does ----------

  /** Step and StartFull are the collector's (a full collection is StartFull and enough steps); the others
      are the program's.  New makes an object and leaves
      it on the stack of the running thread; Store replaces the contents of an object (a table store,
      a rehash, a write to an upvalue or to a stack slot, a new metatable or environment, ...) by
      something that refers to the added objects besides; Intern finds an existing string. */
  datatype Event =
    | Step
    | StartFull
    | New(id: Id, body: Body)
    | NewString(id: Id, bucket: nat)
    | Intern(bucket: nat, index: nat)
    | Store(o: Id, body: Body, added: seq<Id>)
    | SetBasicMetatable(tag: nat, metatable: Option<Id>)
    | Switch(thread: Id)
    | Fix(o: Id)
    | ResizeStrings(strt: seq<seq<Id>>)

  predicate SameKind(b: Body, c: Body) {
    && (b.Str? <==> c.Str?) && (b.Userdata? <==> c.Userdata?) && (b.Table? <==> c.Table?) && (b.Closure? <==> c.Closure?)
    && (b.Proto? <==> c.Proto?) && (b.UpVal? <==> c.UpVal?) && (b.Thread? <==> c.Thread?)
  }

  /** The two string tables hold the same strings. */
  ghost predicate SameStrings(a: seq<seq<Id>>, b: seq<seq<Id>>) {
    && |b| > 0
    && (forall o :: InTable(a, o) <==> InTable(b, o))
    && (forall i :: 0 <= i < |b| ==> NoDup(b[i]))
    && (forall i, j :: 0 <= i < j < |b| ==> Apart(b[i], b[j]))
  }

  /** What the program may do: it uses only what it can reach. */
  ghost predicate Enabled(g: Gc, e: Event) {
    match e
    case Step => true
    case StartFull => true
    case New(id, body) => id !in g.heap && !body.Str? && forall r :: r in Refs(body) ==> Reachable(g, r)
    case NewString(id, bucket) => id !in g.heap && bucket < |g.strt|
    case Intern(bucket, index) => bucket < |g.strt| && index < |g.strt[bucket]|
    case Store(o, body, added) =>
      && Reachable(g, o) && o in g.heap && SameKind(g.heap[o].body, body)
      && (forall r :: r in added ==> Reachable(g, r))
      && (forall r :: r in Refs(body) ==> r in Refs(g.heap[o].body) || r in added)
    case SetBasicMetatable(tag, mt) => tag < |g.mt| && (mt.Some? ==> Reachable(g, mt.value))
    case Switch(t) => Reachable(g, t) && t in g.heap && g.heap[t].body.Thread?
    case Fix(o) => Reachable(g, o) && o in g.heap && g.heap[o].body.Str?
    case ResizeStrings(strt) => g.phase != SweepString && SameStrings(g.strt, strt)
  }

  /** Leave a value on the stack of the running thread. */
  function Push(g: Gc, v: Id): Gc {
    if g.running in g.heap && g.heap[g.running].body.Thread? then
      var b := g.heap[g.running].body;
      g.(heap := SetBody(g.heap, g.running, b.(stack := b.stack + [Ref(v)])))
    else g
  }

  /** A new object enters rootgc at a place; the sweep pointer stays with the object it points at. */
  function InsertAt(g: Gc, id: Id, body: Body, at: nat): Gc
    requires at <= |g.rootgc|
  {
    g.(heap := g.heap[id := Object(NewMark(g.currentwhite), body)],
       rootgc := g.rootgc[..at] + [id] + g.rootgc[at..],
       sweepgc := if g.sweepgc <= at then g.sweepgc else g.sweepgc + 1)
  }

  /** luaC_link puts a new object in front of rootgc, luaS_newudata a userdata behind the main thread. */
  function LinkObject(g: Gc, id: Id, body: Body): Gc {
    InsertAt(g, id, body, if body.Userdata? then |g.rootgc| - |After(g.rootgc, g.mainthread)| else 0)
  }

  function Do(g: Gc, e: Event): Gc
    requires StepOk(g) && Enabled(g, e)
  {
    match e
    case Step => SingleStep(g)
    case StartFull => Abandon(g)
    case New(id, body) => Push(LinkObject(g, id, body), id)
    case NewString(id, bucket) =>
      Push(g.(heap := g.heap[id := Object(NewMark(g.currentwhite), Str)], strt := g.strt[bucket := [id] + g.strt[bucket]]), id)
    case Intern(bucket, index) =>
      var o := g.strt[bucket][index];
      Push(if o in g.heap && !Alive(g, o) then g.(heap := SetMark(g.heap, o, ChangeWhite(g.heap[o].mark))) else g, o)
    case Store(o, body, added) => Barriers(g.(heap := SetBody(g.heap, o, body)), o, added)
    case SetBasicMetatable(tag, mt) => g.(mt := g.mt[tag := mt])
    case Switch(t) => g.(running := t)
    case Fix(o) => g.(heap := SetMark(g.heap, o, g.heap[o].mark.(fixed := true)))
    case ResizeStrings(strt) => g.(strt := strt)
  }

  // ---------- the invariant but for one object ----------

  ghost predicate TricolorBut(g: Gc, except: set<Id>) {
    QueueOk(g) && BlackOk(g.heap, except) && GrayOk(g) && KindsOk(g.heap)
  }

  ghost predicate PhaseBut(g: Gc, except: set<Id>) {
    if g.phase == Propagate
    then NoneDead(g) && TricolorBut(g, except) && !White(g.heap, g.mainthread) && !White(g.heap, g.registry)
    else PhaseOk(g)
  }

  ghost predicate InvBut(g: Gc, except: set<Id>) { Sound(g) && PhaseBut(g, except) }

  lemma InvIsInvBut(g: Gc)
    ensures Inv(g) <==> InvBut(g, {})
  {
    hide QueueOk, BlackOk, GrayOk, ListsOk, Closed;
  }

  /** After a store: o may refer to something white, everything else is as it was. */
  lemma StoredSound(g: Gc, o: Id, b: Body)
    requires Sound(g) && o in g.heap && SameKind(g.heap[o].body, b)
    requires forall r :: r in Refs(b) ==> Alive(g, r)
    ensures Sound(g.(heap := SetBody(g.heap, o, b)))
  {
    hide ListsOk;
    var s := g.(heap := SetBody(g.heap, o, b));
    assert forall x :: Alive(s, x) <==> Alive(g, x);
    forall x | x in s.heap
      ensures MarkOk(s.heap[x])
    {
      assert MarkOk(g.heap[x]);
    }
    SameKindsLists(g, s);
  }

  lemma StoredTricolor(g: Gc, o: Id, b: Body)
    requires TricolorBut(g, {}) && o in g.heap && SameKind(g.heap[o].body, b)
    ensures TricolorBut(g.(heap := SetBody(g.heap, o, b)), {o})
  {
    var s := g.(heap := SetBody(g.heap, o, b));
    forall x | Listed(s, x)
      ensures ListsWell(s.heap, x)
    {
      assert ListsWell(g.heap, x);
    }
    assert forall x :: White(s.heap, x) <==> White(g.heap, x);
    forall x | x in s.heap && x != o
      ensures !Exposed(s.heap, x)
    {
      assert !Exposed(g.heap, x);
    }
    forall x | x in s.heap
      ensures KindOk(s.heap[x])
    {
      assert KindOk(g.heap[x]);
    }
    forall x | x in s.heap && IsGray(s.heap[x].mark) && Queued(s.heap[x].body)
      ensures Listed(s, x)
    {
      assert Listed(g, x);
    }
  }

  lemma StoredPhase(g: Gc, o: Id, b: Body)
    requires PhaseBut(g, {}) && o in g.heap && SameKind(g.heap[o].body, b)
    ensures PhaseBut(g.(heap := SetBody(g.heap, o, b)), {o})
  {
    hide TricolorBut;
    var s := g.(heap := SetBody(g.heap, o, b));
    assert forall x :: CurrentWhite(s, x) <==> CurrentWhite(g, x);
    if g.phase == Propagate {
      StoredTricolor(g, o, b);
      assert forall x :: Alive(s, x) <==> Alive(g, x);
    }
  }

  // ---------- barriers ----------

  /** The reference from o to v does not break the invariant. */
  predicate Covered(g: Gc, o: Id, v: Id)
    requires o in g.heap
  {
    !White(g.heap, v) || !IsBlack(g.heap[o].mark)
  }

  /** Changing a mark without killing the object. */
  lemma RemarkedSound(g: Gc, o: Id, m: Mark)
    requires Sound(g) && Alive(g, o) && !IsDead(g.currentwhite, m)
    requires MarkOk(g.heap[o].(mark := m)) && m.fixed == g.heap[o].mark.fixed
    ensures Sound(g.(heap := SetMark(g.heap, o, m)))
  {
    hide ListsOk;
    var s := g.(heap := SetMark(g.heap, o, m));
    assert forall x :: Alive(s, x) <==> Alive(g, x);
    SameKindsLists(g, s);
  }

  lemma SoundAgain(g: Gc, again: seq<Id>)
    requires Sound(g)
    ensures Sound(g.(grayagain := again))
  {
    hide ListsOk;
    var s := g.(grayagain := again);
    assert forall x :: Alive(s, x) <==> Alive(g, x);
    ListsSame(g, s);
  }

  lemma BlackNotListed(g: Gc, o: Id)
    requires QueueOk(g) && o in g.heap && IsBlack(g.heap[o].mark)
    ensures !Listed(g, o) && !White(g.heap, o)
  {
  }

  lemma BackTricolor(g: Gc, o: Id)
    requires TricolorBut(g, {o}) && o in g.heap && IsBlack(g.heap[o].mark) && g.heap[o].body.Table?
    ensures TricolorBut(BarrierBack(g, o), {o})
  {
    var s := BarrierBack(g, o);
    BlackNotListed(g, o);
    forall x | Listed(s, x)
      ensures ListsWell(s.heap, x)
    {
      if x != o { assert ListsWell(g.heap, x); }
    }
    assert forall x :: White(s.heap, x) <==> White(g.heap, x);
    forall x | x in s.heap && x != o
      ensures !Exposed(s.heap, x)
    {
      assert !Exposed(g.heap, x);
    }
    forall x | x in s.heap && IsGray(s.heap[x].mark) && Queued(s.heap[x].body)
      ensures Listed(s, x)
    {
      if x != o { assert Listed(g, x); }
    }
  }

  lemma MarkedBut(g: Gc, r: Gc, except: set<Id>)
    requires TricolorBut(g, except) && Marked(g, r)
    ensures TricolorBut(r, except)
  {
    MarkedQueue(g, r);
    MarkedBlack(g, r, except);
    MarkedGray(g, r);
    MarkedKinds(g, r);
  }

  /** The assertions of the barrier hold: the object is black, nothing is dead, and the collector is
      not between two cycles. */
  lemma BarrierAllowed(g: Gc, o: Id, v: Id)
    requires Sound(g) && PhaseBut(g, {o}) && Alive(g, o) && Alive(g, v) && IsBlack(g.heap[o].mark)
    ensures g.phase != Pause && g.phase != Finalize
  {
    hide TricolorBut;
    assert MarkOk(g.heap[o]);
    AliveIs(g, o);
  }

  /** What a marking leaves as it was. */
  ghost predicate MarksOnly(g: Gc, r: Gc) {
    && (forall x :: White(r.heap, x) ==> White(g.heap, x))
    && (forall x :: x in g.heap && !White(g.heap, x) ==> x in r.heap && r.heap[x] == g.heap[x])
    && (forall x :: Alive(g, x) ==> Alive(r, x))
  }

  lemma MarkedOnly(g: Gc, r: Gc)
    requires Marked(g, r)
    ensures MarksOnly(g, r)
  {
    MarkedHeap(g, r);
    GrownShrunk(g.heap, r.heap);
    forall x | Alive(g, x)
      ensures Alive(r, x)
    {
      AliveLater(g, r, x);
    }
  }

  lemma BarrierMarks(g: Gc, v: Id, except: set<Id>)
    requires InvBut(g, except) && White(g.heap, v) && g.phase == Propagate
    ensures var r := ReallyMark(g, v); InvBut(r, except) && r.phase == g.phase && !White(r.heap, v) && MarksOnly(g, r)
  {
    hide QueueOk, GrayOk, BlackOk, ListsOk, ThreadsOk, HeapShrunk, Marked, MarksOnly, ReallyMark, Closed, RootsAlive, HeapOk;
    var r := ReallyMark(g, v);
    QueueColors(g);
    ReallyMarkMarks(g, v);
    MarkedBut(g, r, except);
    MarkedHeap(g, r);
    GrownShrunk(g.heap, r.heap);
    QueueColors(r);
    BarrierSound(g, r);
    MarkedOnly(g, r);
    ShrunkNotWhite(g.heap, r.heap, g.mainthread);
    ShrunkNotWhite(g.heap, r.heap, g.registry);
  }

  lemma BarrierSound(g: Gc, r: Gc)
    requires Sound(g) && NoneDead(g) && HeapShrunk(g.heap, r.heap) && SameOthers(g, r) && ColorsOk(r.heap) && KindsOk(r.heap)
    ensures Sound(r) && NoneDead(r)
  {
    hide HeapShrunk, ListsOk, ThreadsOk, Closed, NoneDead, HeapOk;
    MarkedHeapOk(g, r);
    ShrunkClosed(g, r);
    SameLists(g, r);
    forall o | o in Roots(r)
      ensures Alive(r, o)
    {
      AliveLater(g, r, o);
    }
  }

  /** After a barrier: the invariant but for o holds on, and nothing gets worse. */
  ghost predicate BarrierDone(g: Gc, r: Gc, o: Id, v: Id)
    requires o in g.heap
  {
    && InvBut(r, {o}) && Alive(r, o) && r.heap[o].body == g.heap[o].body && Covered(r, o, v) && r.phase == g.phase
    && (forall x :: Alive(g, x) ==> Alive(r, x))
    && (forall x :: Covered(g, o, x) ==> Covered(r, o, x))
  }

  lemma ForwardMarks(g: Gc, o: Id, v: Id)
    requires InvBut(g, {o}) && Alive(g, o) && White(g.heap, v) && IsBlack(g.heap[o].mark) && g.phase == Propagate
    ensures BarrierDone(g, ReallyMark(g, v), o, v)
  {
    hide ReallyMark, Closed, RootsAlive, ListsOk, ThreadsOk, PhaseBut;
    assert MarkOk(g.heap[o]);
    BarrierMarks(g, v, {o});
  }

  /** Changing the mark of an object while sweeping: what the sweep pointer has passed stays white. */
  lemma RemarkedPhase(g: Gc, o: Id, m: Mark)
    requires PhaseOk(g) && o in g.heap && g.phase != Propagate
    requires CurrentWhite(g, o) ==> CurrentWhite(g.(heap := SetMark(g.heap, o, m)), o)
    ensures PhaseOk(g.(heap := SetMark(g.heap, o, m)))
  {
    var s := g.(heap := SetMark(g.heap, o, m));
    assert forall x :: CurrentWhite(g, x) ==> CurrentWhite(s, x);
  }

  lemma ForwardWhitens(g: Gc, o: Id, v: Id)
    requires InvBut(g, {o}) && Alive(g, o) && Alive(g, v) && White(g.heap, v) && IsBlack(g.heap[o].mark)
    requires g.phase != Propagate && !g.heap[o].body.Table?
    ensures BarrierDone(g, BarrierForward(g, o, v), o, v)
  {
    hide Closed, RootsAlive, ListsOk, ThreadsOk, PhaseOk;
    assert MarkOk(g.heap[o]);
    var m := MakeWhite(g.currentwhite, g.heap[o].mark);
    RemarkedSound(g, o, m);
    RemarkedPhase(g, o, m);
  }

  lemma SamePhase(g: Gc, again: seq<Id>)
    requires PhaseOk(g) && g.phase != Propagate
    ensures PhaseOk(g.(grayagain := again))
  {
    var s := g.(grayagain := again);
    assert forall x :: CurrentWhite(s, x) <==> CurrentWhite(g, x);
  }

  lemma BackAlive(g: Gc, o: Id)
    requires HeapOk(g.heap) && Alive(g, o) && IsBlack(g.heap[o].mark) && g.heap[o].body.Table?
    ensures var m := BlackToGray(g.heap[o].mark); !IsDead(g.currentwhite, m) && MarkOk(g.heap[o].(mark := m))
    ensures forall x :: Alive(BarrierBack(g, o), x) <==> Alive(g, x)
  {
    assert MarkOk(g.heap[o]);
  }

  lemma BackDone(g: Gc, o: Id, v: Id)
    requires InvBut(g, {o}) && Alive(g, o) && Alive(g, v) && White(g.heap, v) && IsBlack(g.heap[o].mark) && g.heap[o].body.Table?
    ensures BarrierDone(g, BarrierBack(g, o), o, v)
  {
    hide Closed, RootsAlive, ListsOk, ThreadsOk, PhaseOk, TricolorBut, IsDead, MarkOk;
    BarrierAllowed(g, o, v);
    BackAlive(g, o);
    var m := BlackToGray(g.heap[o].mark);
    var s := g.(heap := SetMark(g.heap, o, m));
    RemarkedSound(g, o, m);
    SoundAgain(s, [o] + g.grayagain);
    var r := BarrierBack(g, o);
    assert r == s.(grayagain := [o] + g.grayagain);
    if g.phase == Propagate {
      BackTricolor(g, o);
    } else {
      AliveIs(g, o);
      RemarkedPhase(g, o, m);
      SamePhase(s, [o] + g.grayagain);
    }
  }

  /** A barrier back pays for everything that a table comes to refer to, at once. */
  lemma BackInv(g: Gc, o: Id)
    requires InvBut(g, {o}) && Alive(g, o) && IsBlack(g.heap[o].mark) && g.heap[o].body.Table?
    ensures Inv(BarrierBack(g, o))
  {
    hide Closed, RootsAlive, ListsOk, ThreadsOk, PhaseOk, TricolorBut;
    assert MarkOk(g.heap[o]);
    var m := BlackToGray(g.heap[o].mark);
    var s := g.(heap := SetMark(g.heap, o, m));
    RemarkedSound(g, o, m);
    SoundAgain(s, [o] + g.grayagain);
    var r := BarrierBack(g, o);
    assert r == s.(grayagain := [o] + g.grayagain);
    if g.phase == Propagate {
      BackTricolor(g, o);
    } else {
      AliveIs(g, o);
      RemarkedPhase(g, o, m);
      SamePhase(s, [o] + g.grayagain);
    }
    CoveredInv(r, o);
  }

  lemma BarrierStep(g: Gc, o: Id, v: Id)
    requires InvBut(g, {o}) && Alive(g, o) && Alive(g, v)
    ensures BarrierDone(g, Barrier(g, o, v), o, v)
  {
    hide InvBut, ReallyMark;
    if White(g.heap, v) && IsBlack(g.heap[o].mark) {
      if g.heap[o].body.Table? {
        BackDone(g, o, v);
      } else if g.phase == Propagate {
        ForwardMarks(g, o, v);
      } else {
        ForwardWhitens(g, o, v);
      }
    }
  }

  lemma {:induction false} BarriersInv(g: Gc, o: Id, vs: seq<Id>)
    requires InvBut(g, {o}) && Alive(g, o) && forall v :: v in vs ==> Alive(g, v)
    requires g.phase == Propagate ==> forall v :: v in Refs(g.heap[o].body) ==> Covered(g, o, v) || v in vs
    ensures Inv(Barriers(g, o, vs))
    decreases |vs|
  {
    hide InvBut, Barrier, Inv;
    if vs == [] {
      CoveredInv(g, o);
    } else {
      BarrierStep(g, o, vs[0]);
      var r := Barrier(g, o, vs[0]);
      forall v | g.phase == Propagate && v in Refs(r.heap[o].body)
        ensures Covered(r, o, v) || v in vs[1..]
      {
        if !Covered(g, o, v) && v != vs[0] { assert v in vs[1..]; }
      }
      BarriersInv(r, o, vs[1..]);
    }
  }

  lemma CoveredInv(g: Gc, o: Id)
    requires InvBut(g, {o}) && o in g.heap
    requires g.phase == Propagate ==> forall v :: v in Refs(g.heap[o].body) ==> Covered(g, o, v)
    ensures Inv(g)
  {
    hide Closed, RootsAlive, ListsOk, ThreadsOk, QueueOk, GrayOk;
    if g.phase == Propagate { assert !Exposed(g.heap, o); }
  }

  /** A store with its barrier keeps the invariant, in every phase. */
  lemma StoreInv(g: Gc, o: Id, b: Body, added: seq<Id>)
    requires Inv(g) && Enabled(g, Store(o, b, added))
    ensures Inv(Do(g, Store(o, b, added)))
  {
    hide Closed, ListsOk, ThreadsOk, Tricolor, QueueOk;
    ReachableAlive(g, o);
    forall r | r in added
      ensures Alive(g, r)
    {
      ReachableAlive(g, r);
    }
    OldRefsAlive(g, o);
    var s := g.(heap := SetBody(g.heap, o, b));
    InvIsInvBut(g);
    StoredSound(g, o, b);
    StoredPhase(g, o, b);
    assert forall x :: Alive(s, x) <==> Alive(g, x);
    forall v | g.phase == Propagate && v in Refs(b)
      ensures Covered(s, o, v) || v in added
    {
      if v !in added { OldCovered(g, o, v); }
    }
    BarriersInv(s, o, added);
  }

  lemma OldCovered(g: Gc, o: Id, v: Id)
    requires Inv(g) && Alive(g, o) && v in Refs(g.heap[o].body)
    ensures g.phase == Propagate ==> Covered(g, o, v)
  {
    hide ListsOk, ThreadsOk;
    if g.phase == Propagate { assert !Exposed(g.heap, o); }
  }

  lemma OldRefsAlive(g: Gc, o: Id)
    requires Closed(g) && Alive(g, o)
    ensures forall r :: r in Refs(g.heap[o].body) ==> Alive(g, r)
  {
  }

  // ---------- the other actions ----------

  lemma PushRefs(b: Body, v: Id)
    requires b.Thread?
    ensures forall id :: id in Refs(b.(stack := b.stack + [Ref(v)])) ==> id in Refs(b) || id == v
  {
    var c := b.(stack := b.stack + [Ref(v)]);
    forall id | id in Refs(c)
      ensures id in Refs(b) || id == v
    {
      ValuesIdsAre(b.stack, id);
      ValuesIdsAre(c.stack, id);
    }
  }

  /** Threads are never black, so a push needs no barrier. */
  lemma PushInv(g: Gc, v: Id)
    requires Inv(g) && Alive(g, v)
    ensures Inv(Push(g, v))
  {
    hide Closed, ListsOk, Tricolor, TricolorBut, QueueOk, HeapOk, RootsAlive;
    var o := g.running;
    var b := g.heap[o].body;
    var c := b.(stack := b.stack + [Ref(v)]);
    PushRefs(b, v);
    assert Alive(g, o) by { RunningAlive(g); }
    OldRefsAlive(g, o);
    InvIsInvBut(g);
    StoredSound(g, o, c);
    StoredPhase(g, o, c);
    NotBlackThread(g, o);
    CoveredInv(Push(g, v), o);
  }

  lemma RunningAlive(g: Gc)
    requires RootsAlive(g)
    ensures Alive(g, g.running)
  {
  }

  lemma NotBlackThread(g: Gc, o: Id)
    requires HeapOk(g.heap) && o in g.heap && g.heap[o].body.Thread?
    ensures !IsBlack(g.heap[o].mark)
  {
    assert MarkOk(g.heap[o]);
  }

  /** g with a new object, not yet on any list. */
  function Grow(h: Heap, id: Id, current: Mark, body: Body): Heap { h[id := Object(NewMark(current), body)] }

  lemma GrowAlive(g: Gc, r: Gc, id: Id, body: Body)
    requires CurrentOk(g.currentwhite) && id !in g.heap && r.heap == Grow(g.heap, id, g.currentwhite, body) && r.currentwhite == g.currentwhite
    ensures forall x :: Alive(r, x) <==> x == id || Alive(g, x)
    ensures forall x :: CurrentWhite(r, x) <==> x == id || CurrentWhite(g, x)
    ensures forall x :: White(r.heap, x) <==> x == id || White(g.heap, x)
  {
  }

  lemma GrowSound(g: Gc, r: Gc, id: Id, body: Body)
    requires Sound(g) && id !in g.heap && r.heap == Grow(g.heap, id, g.currentwhite, body)
    requires r.currentwhite == g.currentwhite && Roots(r) == Roots(g) && r.mainthread == g.mainthread
    requires forall v :: v in Refs(body) ==> Alive(g, v)
    ensures HeapOk(r.heap) && Closed(r) && RootsAlive(r) && FixedOk(r)
  {
    hide ListsOk;
    GrowAlive(g, r, id, body);
    forall o | o in r.heap
      ensures MarkOk(r.heap[o])
    {
      if o != id { assert MarkOk(g.heap[o]); }
    }
  }

  lemma GrowTricolor(g: Gc, r: Gc, id: Id, body: Body)
    requires Closed(g) && NoneDead(g) && Tricolor(g) && CurrentOk(g.currentwhite) && id !in g.heap
    requires r.heap == Grow(g.heap, id, g.currentwhite, body) && r.currentwhite == g.currentwhite
    requires r.gray == g.gray && r.grayagain == g.grayagain && r.weak == g.weak
    ensures Tricolor(r) && NoneDead(r)
  {
    GrowAlive(g, r, id, body);
    forall x | Listed(r, x)
      ensures ListsWell(r.heap, x)
    {
      assert Listed(g, x) && ListsWell(g.heap, x);
    }
    forall x | x in r.heap
      ensures !Exposed(r.heap, x) && KindOk(r.heap[x])
    {
      if x != id {
        assert !Exposed(g.heap, x) && KindOk(g.heap[x]) && Alive(g, x);
        assert id !in Refs(g.heap[x].body) by { NotReferred(g, x, id); }
      }
    }
    forall x | x in r.heap && IsGray(r.heap[x].mark) && Queued(r.heap[x].body)
      ensures Listed(r, x)
    {
      assert Listed(g, x);
    }
  }

  lemma NotReferred(g: Gc, x: Id, id: Id)
    requires Closed(g) && Alive(g, x) && id !in g.heap
    ensures id !in Refs(g.heap[x].body)
  {
    assert !Alive(g, id);
  }

  lemma InsertLists(g: Gc, id: Id, body: Body, at: nat)
    requires ListsOk(g) && id !in g.heap && at <= |g.rootgc| && !body.Str?
    ensures ListsOk(InsertAt(g, id, body, at))
  {
    hide Apart;
    var r := InsertAt(g, id, body, at);
    assert g.rootgc == g.rootgc[..at] + g.rootgc[at..];
    assert forall x :: x in r.rootgc <==> x == id || x in g.rootgc;
    InsertNoDup(g.rootgc, id, at);
    forall i | 0 <= i < |r.strt|
      ensures BucketOk(r.heap, r.strt[i])
    {
      BucketParts(g, i);
    }
  }

  lemma InsertNoDup(s: seq<Id>, id: Id, at: nat)
    requires NoDup(s) && id !in s && at <= |s|
    ensures NoDup(s[..at] + [id] + s[at..])
  {
    var r := s[..at] + [id] + s[at..];
    forall i, j | 0 <= i < j < |r|
      ensures r[i] != r[j]
    {
      if i == at { assert r[j] == s[j - 1] && s[j - 1] in s; }
      if j == at { assert r[i] == s[i] && s[i] in s; }
    }
  }

  /** Whatever is listed before the sweep pointer has the current white, the new object too. */
  lemma InsertPassed(g: Gc, id: Id, body: Body, at: nat, x: Id)
    requires at <= |g.rootgc| && g.sweepgc <= |g.rootgc|
    ensures var r := InsertAt(g, id, body, at);
      r.sweepgc <= |r.rootgc| && (x in r.rootgc[..r.sweepgc] ==> x == id || x in g.rootgc[..g.sweepgc])
  {
    var r := InsertAt(g, id, body, at);
    if g.sweepgc <= at {
      assert r.rootgc[..r.sweepgc] == g.rootgc[..g.sweepgc];
    } else {
      assert r.rootgc[..r.sweepgc] == g.rootgc[..at] + [id] + g.rootgc[at..g.sweepgc];
      assert g.rootgc[..g.sweepgc] == g.rootgc[..at] + g.rootgc[at..g.sweepgc];
    }
  }

  lemma InsertPhase(g: Gc, id: Id, body: Body, at: nat)
    requires Inv(g) && id !in g.heap && at <= |g.rootgc| && !body.Str?
    ensures PhaseOk(InsertAt(g, id, body, at))
  {
    hide HeapOk, RootsAlive, ListsOk, Tricolor;
    var r := InsertAt(g, id, body, at);
    GrowAlive(g, r, id, body);
    match g.phase
    case Propagate => GrowTricolor(g, r, id, body); MainNotNew(g, id);
    case Sweep =>
      forall x | x in r.rootgc[..r.sweepgc]
        ensures CurrentWhite(r, x)
      {
        InsertPassed(g, id, body, at, x);
      }
      InsertPassed(g, id, body, at, 0);
    case _ =>
  }

  lemma MainNotNew(g: Gc, id: Id)
    requires RootsAlive(g) && id !in g.heap
    ensures g.mainthread != id && g.registry != id
  {
    assert g.mainthread in Roots(g) && g.registry in Roots(g);
  }

  lemma InsertThreads(g: Gc, id: Id, body: Body, at: nat)
    requires Inv(g) && id !in g.heap && at <= |g.rootgc|
    ensures ThreadsOk(InsertAt(g, id, body, at))
  {
    hide HeapOk, Closed, ListsOk, PhaseOk;
    var r := InsertAt(g, id, body, at);
    assert g.rootgc == g.rootgc[..at] + g.rootgc[at..];
    assert forall x :: x in r.rootgc <==> x == id || x in g.rootgc;
  }

  /** A new object is linked where the sweep cannot take it for dead. */
  lemma LinkInv(g: Gc, id: Id, body: Body)
    requires Inv(g) && Enabled(g, New(id, body))
    ensures var r := LinkObject(g, id, body); Inv(r) && Alive(r, id) && id in r.rootgc && forall o :: Alive(g, o) ==> Alive(r, o) && r.heap[o] == g.heap[o]
  {
    hide HeapOk, Closed, RootsAlive, ListsOk, ThreadsOk, PhaseOk, After;
    var at := if body.Userdata? then |g.rootgc| - |After(g.rootgc, g.mainthread)| else 0;
    var r := InsertAt(g, id, body, at);
    forall v | v in Refs(body)
      ensures Alive(g, v)
    {
      ReachableAlive(g, v);
    }
    GrowSound(g, r, id, body);
    InsertLists(g, id, body, at);
    InsertThreads(g, id, body, at);
    InsertPhase(g, id, body, at);
    GrowAlive(g, r, id, body);
  }

  /** Making an object and leaving it on the stack keeps the invariant. */
  lemma NewInv(g: Gc, id: Id, body: Body)
    requires Inv(g) && Enabled(g, New(id, body))
    ensures StepOk(g) && Inv(Do(g, New(id, body)))
  {
    hide Inv, LinkObject, Push;
    InvStepOk(g);
    LinkInv(g, id, body);
    PushInv(LinkObject(g, id, body), id);
  }

  // ---------- strings ----------

  lemma StringLists(g: Gc, id: Id, bucket: nat)
    requires ListsOk(g) && id !in g.heap && bucket < |g.strt|
    ensures ListsOk(g.(heap := Grow(g.heap, id, g.currentwhite, Str), strt := g.strt[bucket := [id] + g.strt[bucket]]))
  {
    hide NoDup, Apart;
    var r := g.(heap := Grow(g.heap, id, g.currentwhite, Str), strt := g.strt[bucket := [id] + g.strt[bucket]]);
    forall i | 0 <= i < |g.strt|
      ensures id !in g.strt[i]
    {
      BucketParts(g, i);
    }
    BucketParts(g, bucket);
    InsertNoDup(g.strt[bucket], id, 0);
    assert g.strt[bucket][..0] + [id] + g.strt[bucket][0..] == [id] + g.strt[bucket];
    forall i | 0 <= i < |r.strt|
      ensures BucketOk(r.heap, r.strt[i])
    {
      BucketParts(g, i);
    }
    forall i, j | 0 <= i < j < |r.strt|
      ensures Apart(r.strt[i], r.strt[j])
    {
      assert Apart(g.strt[i], g.strt[j]);
      NowApart(g.strt[i], g.strt[j], id);
    }
    forall o | o in r.heap
      ensures o in r.rootgc || InTable(r.strt, o)
    {
      if o == id { assert o in r.strt[bucket]; }
      else if o !in g.rootgc { StillInTable(g.strt, r.strt, o); }
    }
  }

  lemma NowApart(a: seq<Id>, b: seq<Id>, id: Id)
    requires Apart(a, b) && id !in a && id !in b
    ensures Apart([id] + a, b) && Apart(a, [id] + b)
  {
  }

  lemma StillInTable(a: seq<seq<Id>>, b: seq<seq<Id>>, o: Id)
    requires InTable(a, o) && |b| == |a| && forall i, x :: 0 <= i < |a| && x in a[i] ==> x in b[i]
    ensures InTable(b, o)
  {
    var i :| 0 <= i < |a| && o in a[i];
    assert o in b[i];
  }

  lemma NewStringInv(g: Gc, id: Id, bucket: nat)
    requires Inv(g) && Enabled(g, NewString(id, bucket))
    ensures StepOk(g) && Inv(Do(g, NewString(id, bucket)))
  {
    hide HeapOk, Closed, RootsAlive, ListsOk, Tricolor;
    InvStepOk(g);
    var r := g.(heap := Grow(g.heap, id, g.currentwhite, Str), strt := g.strt[bucket := [id] + g.strt[bucket]]);
    GrowSound(g, r, id, Str);
    GrowAlive(g, r, id, Str);
    StringLists(g, id, bucket);
    if g.phase == Propagate {
      GrowTricolor(g, r, id, Str);
      MainNotNew(g, id);
    }
    PushInv(r, id);
  }

  /** A change of mark that concerns no traversed object keeps the tri-colour invariant. */
  lemma RemarkedString(g: Gc, o: Id, m: Mark)
    requires Tricolor(g) && o in g.heap && g.heap[o].body.Str? && IsWhite(m) == IsWhite(g.heap[o].mark) && !IsBlack(m)
    ensures Tricolor(g.(heap := SetMark(g.heap, o, m)))
  {
    var s := g.(heap := SetMark(g.heap, o, m));
    assert forall x :: White(s.heap, x) <==> White(g.heap, x);
    forall x | Listed(s, x)
      ensures ListsWell(s.heap, x)
    {
      assert Listed(g, x) && ListsWell(g.heap, x);
    }
    forall x | x in s.heap
      ensures !Exposed(s.heap, x) && KindOk(s.heap[x])
    {
      assert !Exposed(g.heap, x) && KindOk(g.heap[x]);
    }
    forall x | x in s.heap && IsGray(s.heap[x].mark) && Queued(s.heap[x].body)
      ensures Listed(s, x)
    {
      assert Listed(g, x);
    }
  }

  lemma ResurrectClosed(g: Gc, s: Gc, o: Id)
    requires HeapOk(g.heap) && Closed(g) && RootsAlive(g) && CurrentOk(g.currentwhite) && o in g.heap && g.heap[o].body.Str? && !Alive(g, o)
    requires s == g.(heap := SetMark(g.heap, o, ChangeWhite(g.heap[o].mark)))
    ensures HeapOk(s.heap) && Closed(s) && RootsAlive(s)
  {
    assert MarkOk(g.heap[o]);
    AliveIs(g, o);
    assert forall x :: Alive(s, x) <==> x == o || Alive(g, x);
    forall x | x in s.heap
      ensures MarkOk(s.heap[x])
    {
      assert MarkOk(g.heap[x]);
    }
  }

  /** An existing string found dead is brought back to life; nothing else can change, for it refers
      to nothing. */
  lemma ResurrectInv(g: Gc, o: Id)
    requires Inv(g) && o in g.heap && g.heap[o].body.Str? && !Alive(g, o)
    ensures var s := g.(heap := SetMark(g.heap, o, ChangeWhite(g.heap[o].mark))); Inv(s) && Alive(s, o)
  {
    hide ListsOk, Tricolor, Closed, RootsAlive;
    var s := g.(heap := SetMark(g.heap, o, ChangeWhite(g.heap[o].mark)));
    assert MarkOk(g.heap[o]);
    AliveIs(g, o);
    ResurrectClosed(g, s, o);
    SameKindsLists(g, s);
    assert g.phase != Propagate && g.phase != Pause && g.phase != Finalize by { NotBetween(g, o); }
    assert CurrentWhite(s, o);
    RemarkedPhase(g, o, s.heap[o].mark);
  }

  lemma NotBetween(g: Gc, o: Id)
    requires Inv(g) && o in g.heap && !Alive(g, o)
    ensures g.phase == SweepString || g.phase == Sweep
  {
    hide Closed, RootsAlive, ListsOk, ThreadsOk, Tricolor;
    assert MarkOk(g.heap[o]);
    AliveIs(g, o);
  }

  lemma InternInv(g: Gc, bucket: nat, index: nat)
    requires Inv(g) && Enabled(g, Intern(bucket, index))
    ensures StepOk(g) && Inv(Do(g, Intern(bucket, index)))
  {
    hide HeapOk, Closed, RootsAlive, ListsOk, ThreadsOk, PhaseOk;
    InvStepOk(g);
    var o := g.strt[bucket][index];
    assert o in g.strt[bucket];
    BucketParts(g, bucket);
    if Alive(g, o) {
      PushInv(g, o);
    } else {
      ResurrectInv(g, o);
      PushInv(g.(heap := SetMark(g.heap, o, ChangeWhite(g.heap[o].mark))), o);
    }
  }

  lemma SameBodies(g: Gc, s: Gc)
    requires Closed(g) && RootsAlive(g) && Roots(s) == Roots(g) && s.heap.Keys == g.heap.Keys
    requires forall x :: x in g.heap ==> s.heap[x].body == g.heap[x].body
    requires forall x :: Alive(s, x) <==> Alive(g, x)
    ensures Closed(s) && RootsAlive(s)
  {
  }

  lemma FixMarks(g: Gc, o: Id)
    requires HeapOk(g.heap) && ThreadsOk(g) && o in g.heap && g.heap[o].body.Str?
    ensures var s := g.(heap := SetMark(g.heap, o, g.heap[o].mark.(fixed := true)));
      HeapOk(s.heap) && ThreadsOk(s) && forall x :: Alive(s, x) <==> Alive(g, x)
  {
    assert MarkOk(g.heap[o]);
  }

  lemma FixInv(g: Gc, o: Id)
    requires Inv(g) && Enabled(g, Fix(o))
    ensures StepOk(g) && Inv(Do(g, Fix(o)))
  {
    hide ListsOk, PhaseOk, Closed, RootsAlive, Reachable, HeapOk, ThreadsOk;
    InvStepOk(g);
    var s := g.(heap := SetMark(g.heap, o, g.heap[o].mark.(fixed := true)));
    FixMarks(g, o);
    SameBodies(g, s);
    SameKindsLists(g, s);
    FixPhase(g, o);
  }

  lemma FixMarking(g: Gc, o: Id)
    requires g.phase == Propagate && PhaseOk(g) && o in g.heap && g.heap[o].body.Str? && !IsBlack(g.heap[o].mark)
    ensures PhaseOk(g.(heap := SetMark(g.heap, o, g.heap[o].mark.(fixed := true))))
  {
    hide Tricolor;
    var s := g.(heap := SetMark(g.heap, o, g.heap[o].mark.(fixed := true)));
    RemarkedString(g, o, s.heap[o].mark);
    assert forall x :: Alive(s, x) <==> Alive(g, x);
  }

  lemma FixPhase(g: Gc, o: Id)
    requires PhaseOk(g) && o in g.heap && g.heap[o].body.Str? && HeapOk(g.heap)
    ensures PhaseOk(g.(heap := SetMark(g.heap, o, g.heap[o].mark.(fixed := true))))
  {
    hide PhaseOk;
    assert MarkOk(g.heap[o]);
    if g.phase == Propagate { FixMarking(g, o); }
    else { RemarkedPhase(g, o, g.heap[o].mark.(fixed := true)); }
  }

  lemma ResizeInv(g: Gc, strt: seq<seq<Id>>)
    requires Inv(g) && Enabled(g, ResizeStrings(strt))
    ensures StepOk(g) && Inv(Do(g, ResizeStrings(strt)))
  {
    hide HeapOk, Closed, RootsAlive, NoDup, Apart, Tricolor;
    InvStepOk(g);
    var s := g.(strt := strt);
    assert forall x :: Alive(s, x) <==> Alive(g, x);
    assert forall x :: CurrentWhite(s, x) <==> CurrentWhite(g, x);
    forall i, o | 0 <= i < |strt| && o in strt[i]
      ensures o in g.heap && g.heap[o].body.Str? && (g.phase == Sweep ==> CurrentWhite(s, o))
    {
      assert InTable(strt, o) && InTable(g.strt, o);
      var j :| 0 <= j < |g.strt| && o in g.strt[j];
      BucketParts(g, j);
      if g.phase == Sweep { assert CurrentWhite(g, o); }
    }
    ResizeLists(g, s);
    assert Closed(s) && RootsAlive(s) by { SameAlive(g, s); }
    if g.phase == Propagate { TricolorTable(g, strt); }
  }

  lemma SameAlive(g: Gc, s: Gc)
    requires Closed(g) && RootsAlive(g) && s.heap == g.heap && s.currentwhite == g.currentwhite && Roots(s) == Roots(g)
    ensures Closed(s) && RootsAlive(s)
  {
    assert forall x :: Alive(s, x) <==> Alive(g, x);
  }

  lemma TricolorTable(g: Gc, strt: seq<seq<Id>>)
    requires Tricolor(g)
    ensures Tricolor(g.(strt := strt))
  {
    hide Exposed;
    var s := g.(strt := strt);
    assert forall x :: Listed(s, x) <==> Listed(g, x);
  }

  lemma ResizeLists(g: Gc, s: Gc)
    requires ListsOk(g) && s == g.(strt := s.strt) && SameStrings(g.strt, s.strt)
    requires forall i, o :: 0 <= i < |s.strt| && o in s.strt[i] ==> o in g.heap && g.heap[o].body.Str?
    ensures ListsOk(s)
  {
    hide NoDup, Apart;
    forall o | o in s.heap && o !in s.rootgc
      ensures InTable(s.strt, o)
    {
      assert InTable(g.strt, o);
    }
  }

  // ---------- roots ----------

  lemma {:induction false} OptsIdsAre(s: seq<Option<Id>>, id: Id)
    ensures id in OptsIds(s) <==> Some(id) in s
    decreases |s|
  {
    if s != [] {
      OptsIdsAre(s[1..], id);
      assert s == [s[0]] + s[1..];
    }
  }

  /** Neither the basic metatables nor the running thread need a barrier: both are marked again at the end. */
  lemma RootsInv(g: Gc, s: Gc)
    requires Inv(g) && s == g.(mt := s.mt, running := s.running)
    requires s.running in g.heap && g.heap[s.running].body.Thread?
    requires forall o :: o in Roots(s) ==> Alive(g, o)
    ensures Inv(s)
  {
    hide ListsOk, Exposed, Roots;
    assert forall x :: Alive(s, x) <==> Alive(g, x);
    assert forall x :: CurrentWhite(s, x) <==> CurrentWhite(g, x);
    ListsSame(g, s);
    if g.phase == Propagate { assert forall x :: Listed(s, x) <==> Listed(g, x); }
  }

  lemma SetBasicInv(g: Gc, tag: nat, mt: Option<Id>)
    requires Inv(g) && Enabled(g, SetBasicMetatable(tag, mt))
    ensures StepOk(g) && Inv(Do(g, SetBasicMetatable(tag, mt)))
  {
    hide HeapOk, Closed, ListsOk, PhaseOk;
    InvStepOk(g);
    var s := g.(mt := g.mt[tag := mt]);
    if mt.Some? { ReachableAlive(g, mt.value); }
    forall o | o in Roots(s)
      ensures Alive(g, o)
    {
      OptsIdsAre(s.mt, o);
      OptsIdsAre(g.mt, o);
    }
    RootsInv(g, s);
  }

  lemma SwitchInv(g: Gc, t: Id)
    requires Inv(g) && Enabled(g, Switch(t))
    ensures StepOk(g) && Inv(Do(g, Switch(t)))
  {
    hide HeapOk, Closed, ListsOk, PhaseOk;
    InvStepOk(g);
    ReachableAlive(g, t);
    RootsInv(g, g.(running := t));
  }

  // ---------- every run ----------

  /** Every step of the collector and every action of the program keeps the invariant. */
  lemma DoInv(g: Gc, e: Event)
    requires Inv(g) && Enabled(g, e)
    ensures StepOk(g) && Inv(Do(g, e))
  {
    hide Inv, Enabled, StepOk, Do;
    match e
    case Step => StepIsDo(g); SingleStepInv(g);
    case StartFull => StartFullIsDo(g); AbandonInv(g);
    case New(id, body) => NewInv(g, id, body);
    case NewString(id, bucket) => NewStringInv(g, id, bucket);
    case Intern(bucket, index) => InternInv(g, bucket, index);
    case Store(o, body, added) => InvStepOk(g); StoreInv(g, o, body, added);
    case SetBasicMetatable(tag, mt) => SetBasicInv(g, tag, mt);
    case Switch(t) => SwitchInv(g, t);
    case Fix(o) => FixInv(g, o);
    case ResizeStrings(strt) => ResizeInv(g, strt);
  }

  lemma StepIsDo(g: Gc)
    requires Inv(g)
    ensures StepOk(g) && Do(g, Step) == SingleStep(g)
  {
    InvStepOk(g);
  }

  lemma StartFullIsDo(g: Gc)
    requires Inv(g)
    ensures StepOk(g) && Do(g, StartFull) == Abandon(g)
  {
    InvStepOk(g);
  }

  /** r is reached from g by the events es, each allowed where it happens. */
  ghost predicate Runs(g: Gc, es: seq<Event>, r: Gc)
    decreases |es|
  {
    if es == [] then r == g
    else StepOk(g) && Enabled(g, es[0]) && Runs(Do(g, es[0]), es[1..], r)
  }

  lemma {:induction false} RunsInv(g: Gc, es: seq<Event>, r: Gc)
    requires Inv(g) && Runs(g, es, r)
    ensures Inv(r)
    decreases |es|
  {
    hide Inv, Enabled, StepOk, Do;
    if es != [] {
      DoInv(g, es[0]);
      RunsInv(Do(g, es[0]), es[1..], r);
    }
  }

  /** A new state: the main thread with its table of globals, the registry, an empty string table. */
  function Initial(buckets: nat): Gc {
    var white := Mark(true, false, false, false, false, false, false);
    var t := Table(None, STRONG, [], []);
    Gc(map[0 := Object(white.(fixed := true, superFixed := true), Thread(Ref(1), [])), 1 := Object(white, t), 2 := Object(white, t)],
       [], [], [], [2, 1, 0], 0, seq(buckets, i => []), 0, white.(fixed := true), Pause, 0, 2, seq(9, i => None), 0)
  }

  lemma InitialRefs(buckets: nat)
    ensures var g := Initial(buckets);
      && (forall o, id :: o in g.heap && id in Refs(g.heap[o].body) ==> id == 1)
      && (forall id :: id in Roots(g) ==> id == 0 || id == 2)
  {
    var g := Initial(buckets);
    assert ValuesIds([]) == [] && NodesIds([], true, true) == [];
    forall id
      ensures id !in OptsIds(g.mt)
    {
      OptsIdsAre(g.mt, id);
    }
  }

  lemma InitialSound(buckets: nat)
    ensures var g := Initial(buckets); Closed(g) && RootsAlive(g)
  {
    hide Refs, Roots;
    var g := Initial(buckets);
    InitialRefs(buckets);
    assert forall o :: Alive(g, o) <==> o == 0 || o == 1 || o == 2;
  }

  lemma InitialLists(buckets: nat)
    requires buckets > 0
    ensures ListsOk(Initial(buckets))
  {
    hide Refs, Roots, MarkOk;
  }

  lemma InitialInv(buckets: nat)
    requires buckets > 0
    ensures Inv(Initial(buckets))
  {
    hide Refs, Roots, ListsOk, Closed, RootsAlive;
    var g := Initial(buckets);
    InitialSound(buckets);
    InitialLists(buckets);
  }

  /** Safety of the collector: in every state a program can come to, whatever it did and however its
      actions and the steps of the collector were interleaved, every object it can reach is there and
      not taken for dead. */
  lemma NothingReachableIsFreed(buckets: nat, es: seq<Event>, g: Gc, o: Id)
    requires buckets > 0 && Runs(Initial(buckets), es, g) && Reachable(g, o)
    ensures Alive(g, o)
  {
    hide Inv, Runs, Initial;
    InitialInv(buckets);
    RunsInv(Initial(buckets), es, g);
    InvAlive(g, o);
  }

  lemma InvAlive(g: Gc, o: Id)
    requires Inv(g) && Reachable(g, o)
    ensures Alive(g, o)
  {
    hide Tricolor, ListsOk;
    ReachableAlive(g, o);
  }

  /** While the collector marks or sweeps nothing changes for the program: what it can reach is the
      same before and after, and has the same references. */
  lemma SweepIsInvisible(g: Gc, o: Id)
    requires Inv(g) && (g.phase == SweepString || g.phase == Sweep) && Reachable(g, o)
    ensures StepOk(g) && Alive(g, o) && Alive(SingleStep(g), o) && SingleStep(g).heap[o].body == g.heap[o].body
  {
    hide Inv;
    InvAlive(g, o);
    SweepKeepsAlive(g, o);
  }
}
