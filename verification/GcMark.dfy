/** Marking objects: reallymarkobject and what it keeps. */
module GcMark {
  import opened GcHeap

  function Whites(h: Heap): set<Id> { set o | o in h && IsWhite(h[o].mark) }

  lemma WhitesSetMark(h: Heap, o: Id, m: Mark)
    requires White(h, o) && !IsWhite(m)
    ensures Whites(SetMark(h, o, m)) < Whites(h)
  {
    assert o in Whites(h) && o !in Whites(SetMark(h, o, m));
  }

  /** Mark a white object: a string turns gray, a userdata or closed upvalue black at once with
      what it refers to marked, everything else goes to the front of the gray list. */
  function ReallyMark(g: Gc, o: Id): (r: Gc)
    requires White(g.heap, o)
    ensures r.heap.Keys == g.heap.Keys && Whites(r.heap) < Whites(g.heap)
    decreases Whites(g.heap), 0
  {
    var m := WhiteToGray(g.heap[o].mark);
    var h1 := SetMark(g.heap, o, m);
    WhitesSetMark(g.heap, o, m);
    WhitesSetMark(g.heap, o, GrayToBlack(m));
    match g.heap[o].body
    case Str => g.(heap := h1)
    case Userdata(mt, env) => MarkEach(g.(heap := SetMark(h1, o, GrayToBlack(m))), OptIds(mt) + [env])
    case UpVal(v) =>
      var g2 := MarkEach(g.(heap := h1), ValueIds(v));
      var r := g2.(heap := SetMark(g2.heap, o, GrayToBlack(g2.heap[o].mark)));
      assert Whites(r.heap) <= Whites(g2.heap);
      r
    case _ => g.(heap := h1, gray := [o] + g.gray)
  }

  /** markobject and markvalue, one after the other.  (An id that is not in the heap is passed
      over; that never happens to an object that is alive, see `GcCycle.Closed`.) */
  function MarkEach(g: Gc, ids: seq<Id>): (r: Gc)
    ensures r.heap.Keys == g.heap.Keys && Whites(r.heap) <= Whites(g.heap)
    decreases Whites(g.heap), |ids| + 1
  {
    if ids == [] then g
    else MarkEach(if White(g.heap, ids[0]) then ReallyMark(g, ids[0]) else g, ids[1..])
  }

  lemma MarkOne(g: Gc, o: Id)
    ensures MarkEach(g, [o]) == if White(g.heap, o) then ReallyMark(g, o) else g
  {
    assert MarkEach(if White(g.heap, o) then ReallyMark(g, o) else g, []) == MarkEach(g, [o]);
  }

  // ---------- what marking does ----------

  predicate NoDup(s: seq<Id>) { forall i, j :: 0 <= i < j < |s| ==> s[i] != s[j] }

  /** The new front part of the gray list. */
  function Fresh(g: Gc, r: Gc): seq<Id>
    requires |g.gray| <= |r.gray|
  {
    r.gray[..|r.gray| - |g.gray|]
  }

  /** Properly marked: nothing left to do for o but what the gray list holds. */
  predicate Shaded(h: Heap, gray: seq<Id>, o: Id)
    requires o in h
  {
    match h[o].body
    case Str => IsGray(h[o].mark)
    case Userdata(_, _) => IsBlack(h[o].mark) && !IsWhite(h[o].mark) && forall id :: id in Refs(h[o].body) ==> !White(h, id)
    case UpVal(_) => IsBlack(h[o].mark) && !IsWhite(h[o].mark) && forall id :: id in Refs(h[o].body) ==> !White(h, id)
    case _ => IsGray(h[o].mark) && o in gray
  }

  /** The bits that are not colours. */
  predicate SameFlags(m: Mark, n: Mark) {
    m.bit3 == n.bit3 && m.bit4 == n.bit4 && m.fixed == n.fixed && m.superFixed == n.superFixed
  }

  /** Only white objects change, by losing their whiteness. */
  ghost predicate HeapMarked(h: Heap, k: Heap) {
    && k.Keys == h.Keys
    && (forall o :: o in h ==> k[o].body == h[o].body && SameFlags(h[o].mark, k[o].mark))
    && (forall o :: o in h && (White(k, o) || !White(h, o)) ==> k[o] == h[o])
  }

  /** What joined the gray list is what turned gray and is traversed later. */
  ghost predicate FreshOk(h: Heap, k: Heap, added: seq<Id>) {
    NoDup(added) && forall o :: o in added ==> White(h, o) && Queued(h[o].body) && !White(k, o)
  }

  ghost predicate AllShaded(h: Heap, k: Heap, added: seq<Id>) {
    forall o :: o in k && White(h, o) && !White(k, o) ==> Shaded(k, added, o)
  }

  /** r comes from g by marking some objects. */
  ghost predicate Marked(g: Gc, r: Gc) {
    && r == g.(heap := r.heap, gray := r.gray)
    && |g.gray| <= |r.gray| && r.gray == Fresh(g, r) + g.gray
    && HeapMarked(g.heap, r.heap) && FreshOk(g.heap, r.heap, Fresh(g, r)) && AllShaded(g.heap, r.heap, Fresh(g, r))
  }

  /** No object of the heap is both white and black. */
  predicate ColorsOk(h: Heap) { forall o :: o in h ==> !(IsWhite(h[o].mark) && IsBlack(h[o].mark)) }

  lemma MarkedColors(g: Gc, r: Gc)
    requires Marked(g, r) && ColorsOk(g.heap)
    ensures ColorsOk(r.heap)
  {
  }

  lemma MarkedRefl(g: Gc)
    ensures Marked(g, g)
  {
  }

  lemma FreshTrans(h: Heap, k: Heap, l: Heap, f: seq<Id>, f2: seq<Id>)
    requires HeapMarked(h, k) && HeapMarked(k, l) && FreshOk(h, k, f) && FreshOk(k, l, f2)
    ensures FreshOk(h, l, f2 + f)
  {
    forall o | o in f2 + f
      ensures White(h, o) && Queued(h[o].body) && !White(l, o)
    {
      if o in f2 { assert White(k, o); } else { assert !White(k, o); }
    }
    forall i, j | 0 <= i < j < |f2 + f|
      ensures (f2 + f)[i] != (f2 + f)[j]
    {
      if i < |f2| && |f2| <= j { assert White(k, f2[i]) && !White(k, f[j - |f2|]); }
    }
  }

  /** Properly marked stays properly marked while others are marked. */
  lemma ShadedLater(h: Heap, k: Heap, gray: seq<Id>, more: seq<Id>, o: Id)
    requires o in h && o in k && k[o] == h[o] && Shaded(h, gray, o)
    requires forall x :: White(k, x) ==> White(h, x)
    requires forall x :: x in gray ==> x in more
    ensures Shaded(k, more, o)
  {
  }

  lemma ShadedTrans(h: Heap, k: Heap, l: Heap, f: seq<Id>, f2: seq<Id>)
    requires HeapMarked(h, k) && HeapMarked(k, l) && AllShaded(h, k, f) && AllShaded(k, l, f2)
    ensures AllShaded(h, l, f2 + f)
  {
    hide Shaded;
    forall o | o in l && White(h, o) && !White(l, o)
      ensures Shaded(l, f2 + f, o)
    {
      if White(k, o) { ShadedLater(l, l, f2, f2 + f, o); } else { ShadedLater(k, l, f, f2 + f, o); }
    }
  }

  lemma HeapTrans(h: Heap, k: Heap, l: Heap)
    requires HeapMarked(h, k) && HeapMarked(k, l)
    ensures HeapMarked(h, l)
  {
  }

  lemma MarkedTrans(a: Gc, b: Gc, c: Gc)
    requires Marked(a, b) && Marked(b, c)
    ensures Marked(a, c)
  {
    hide HeapMarked, FreshOk, AllShaded;
    assert Fresh(a, c) == Fresh(b, c) + Fresh(a, b);
    HeapTrans(a.heap, b.heap, c.heap);
    FreshTrans(a.heap, b.heap, c.heap, Fresh(a, b), Fresh(b, c));
    ShadedTrans(a.heap, b.heap, c.heap, Fresh(a, b), Fresh(b, c));
  }

  lemma MarkedQueued(g: Gc, o: Id)
    requires White(g.heap, o) && ColorsOk(g.heap) && Queued(g.heap[o].body)
    ensures Marked(g, ReallyMark(g, o)) && !White(ReallyMark(g, o).heap, o)
  {
    hide HeapMarked, FreshOk, AllShaded;
    var r := ReallyMark(g, o);
    assert Fresh(g, r) == [o];
    HeapQueued(g.heap, o);
  }

  lemma HeapQueued(h: Heap, o: Id)
    requires White(h, o) && !IsBlack(h[o].mark) && Queued(h[o].body)
    ensures var k := SetMark(h, o, WhiteToGray(h[o].mark)); HeapMarked(h, k) && FreshOk(h, k, [o]) && AllShaded(h, k, [o]) && !White(k, o)
  {
  }

  lemma MarkedString(g: Gc, o: Id)
    requires White(g.heap, o) && ColorsOk(g.heap) && g.heap[o].body.Str?
    ensures Marked(g, ReallyMark(g, o)) && !White(ReallyMark(g, o).heap, o)
  {
    assert Fresh(g, ReallyMark(g, o)) == [];
  }

  lemma FirstMark(h: Heap, o: Id, m: Mark)
    requires White(h, o) && ColorsOk(h) && !IsWhite(m)
    ensures Whites(SetMark(h, o, m)) < Whites(h) && ColorsOk(SetMark(h, o, m))
  {
    WhitesSetMark(h, o, m);
  }

  /** Userdata: black first, then what it refers to. */
  lemma MarkedUserdata(g: Gc, o: Id, g1: Gc, r: Gc)
    requires White(g.heap, o) && ColorsOk(g.heap) && g.heap[o].body.Userdata?
    requires g1 == g.(heap := SetMark(g.heap, o, GrayToBlack(WhiteToGray(g.heap[o].mark))))
    requires Marked(g1, r) && forall id :: id in Refs(g.heap[o].body) ==> !White(r.heap, id)
    ensures Marked(g, r) && !White(r.heap, o)
  {
    assert Fresh(g, r) == Fresh(g1, r);
    assert r.heap[o] == g1.heap[o];
  }

  lemma HeapUpVal(h: Heap, o: Id, h1: Heap, h2: Heap, added: seq<Id>)
    requires White(h, o) && !IsBlack(h[o].mark) && h1 == SetMark(h, o, WhiteToGray(h[o].mark))
    requires HeapMarked(h1, h2) && FreshOk(h1, h2, added)
    ensures var k := SetMark(h2, o, GrayToBlack(h2[o].mark)); HeapMarked(h, k) && FreshOk(h, k, added) && !White(k, o)
  {
    assert h2[o] == h1[o];
  }

  lemma ShadedUpVal(h: Heap, o: Id, h1: Heap, h2: Heap, added: seq<Id>)
    requires White(h, o) && h[o].body.UpVal? && h1 == SetMark(h, o, WhiteToGray(h[o].mark))
    requires HeapMarked(h1, h2) && AllShaded(h1, h2, added) && forall id :: id in Refs(h[o].body) ==> !White(h2, id)
    ensures AllShaded(h, SetMark(h2, o, GrayToBlack(h2[o].mark)), added)
  {
    var k := SetMark(h2, o, GrayToBlack(h2[o].mark));
    forall x | x in k && White(h, x) && !White(k, x)
      ensures Shaded(k, added, x)
    {
      if x != o { ShadedLater(h2, k, added, added, x); }
    }
  }

  /** A closed upvalue: what it refers to first, then black. */
  lemma MarkedUpVal(g: Gc, o: Id, g1: Gc, g2: Gc, r: Gc)
    requires White(g.heap, o) && ColorsOk(g.heap) && g.heap[o].body.UpVal?
    requires g1 == g.(heap := SetMark(g.heap, o, WhiteToGray(g.heap[o].mark)))
    requires Marked(g1, g2) && forall id :: id in Refs(g.heap[o].body) ==> !White(g2.heap, id)
    requires r == g2.(heap := SetMark(g2.heap, o, GrayToBlack(g2.heap[o].mark)))
    ensures Marked(g, r) && !White(r.heap, o)
  {
    hide HeapMarked, FreshOk, AllShaded;
    assert Fresh(g, r) == Fresh(g1, g2);
    HeapUpVal(g.heap, o, g1.heap, g2.heap, Fresh(g1, g2));
    ShadedUpVal(g.heap, o, g1.heap, g2.heap, Fresh(g1, g2));
  }

  lemma {:induction false} ReallyMarkMarks(g: Gc, o: Id)
    requires White(g.heap, o) && ColorsOk(g.heap)
    ensures var r := ReallyMark(g, o); Marked(g, r) && !White(r.heap, o)
    decreases Whites(g.heap), 0
  {
    hide Marked, ColorsOk, Whites;
    var m := WhiteToGray(g.heap[o].mark);
    var h1 := SetMark(g.heap, o, m);
    FirstMark(g.heap, o, m);
    FirstMark(g.heap, o, GrayToBlack(m));
    match g.heap[o].body
    case Str => MarkedString(g, o);
    case Userdata(mt, env) =>
      var g1 := g.(heap := SetMark(h1, o, GrayToBlack(m)));
      assert g1.heap == SetMark(g.heap, o, GrayToBlack(m));
      MarkEachMarks(g1, OptIds(mt) + [env]);
      MarkedUserdata(g, o, g1, ReallyMark(g, o));
    case UpVal(v) =>
      var g1 := g.(heap := h1);
      MarkEachMarks(g1, ValueIds(v));
      MarkedUpVal(g, o, g1, MarkEach(g1, ValueIds(v)), ReallyMark(g, o));
    case _ => MarkedQueued(g, o);
  }

  /** Marking a list of objects leaves none of them white. */
  lemma {:induction false} MarkEachMarks(g: Gc, ids: seq<Id>)
    requires ColorsOk(g.heap)
    ensures var r := MarkEach(g, ids); Marked(g, r) && forall id :: id in ids ==> !White(r.heap, id)
    decreases Whites(g.heap), |ids| + 1
  {
    if ids == [] {
      MarkedRefl(g);
    } else {
      var g1 := if White(g.heap, ids[0]) then ReallyMark(g, ids[0]) else g;
      if White(g.heap, ids[0]) { ReallyMarkMarks(g, ids[0]); } else { MarkedRefl(g); }
      MarkedColors(g, g1);
      MarkEachMarks(g1, ids[1..]);
      MarkedTrans(g, g1, MarkEach(g, ids));
    }
  }

  lemma {:induction false} MarkEachAppend(g: Gc, a: seq<Id>, b: seq<Id>)
    ensures MarkEach(g, a + b) == MarkEach(MarkEach(g, a), b)
    decreases |a|
  {
    if a == [] {
      assert a + b == b;
    } else {
      assert (a + b)[1..] == a[1..] + b;
      MarkEachAppend(if White(g.heap, a[0]) then ReallyMark(g, a[0]) else g, a[1..], b);
    }
  }

  // ---------- marking marks no more than it must ----------

  /** s contains what its members keep alive. */
  ghost predicate ClosedUnder(h: Heap, s: iset<Id>) { forall o, r :: o in s && Link(h, o, r, true) ==> r in s }

  ghost predicate OnlyIn(h: Heap, k: Heap, s: iset<Id>) { forall o :: White(h, o) && !White(k, o) ==> o in s }

  lemma ClosedUnderMarked(g: Gc, r: Gc, s: iset<Id>)
    requires Marked(g, r) && ClosedUnder(g.heap, s)
    ensures ClosedUnder(r.heap, s)
  {
    forall o, x | o in s && Link(r.heap, o, x, true)
      ensures x in s
    {
      assert Link(g.heap, o, x, true);
    }
  }

  lemma StrongIn(h: Heap, o: Id, s: iset<Id>)
    requires ClosedUnder(h, s) && o in h && o in s
    ensures forall id :: id in StrongRefs(h[o].body) ==> id in s
  {
    assert forall id :: id in StrongRefs(h[o].body) ==> Link(h, o, id, true);
  }

  lemma {:induction false} ReallyMarkOnlyIn(g: Gc, o: Id, s: iset<Id>)
    requires White(g.heap, o) && ColorsOk(g.heap) && ClosedUnder(g.heap, s) && o in s
    ensures OnlyIn(g.heap, ReallyMark(g, o).heap, s)
    decreases Whites(g.heap), 0
  {
    hide ClosedUnder, ColorsOk, Whites;
    var m := WhiteToGray(g.heap[o].mark);
    var h1 := SetMark(g.heap, o, m);
    FirstMark(g.heap, o, m);
    FirstMark(g.heap, o, GrayToBlack(m));
    StrongIn(g.heap, o, s);
    match g.heap[o].body
    case Userdata(mt, env) =>
      var g1 := g.(heap := SetMark(h1, o, GrayToBlack(m)));
      assert g1.heap == SetMark(g.heap, o, GrayToBlack(m));
      SameLinks(g.heap, g1.heap, s);
      MarkEachOnlyIn(g1, OptIds(mt) + [env], s);
    case UpVal(v) =>
      var g1 := g.(heap := h1);
      SameLinks(g.heap, g1.heap, s);
      MarkEachOnlyIn(g1, ValueIds(v), s);
    case _ =>
  }

  lemma SameLinks(h: Heap, k: Heap, s: iset<Id>)
    requires ClosedUnder(h, s) && k.Keys == h.Keys && forall o :: o in h ==> k[o].body == h[o].body
    ensures ClosedUnder(k, s)
  {
    forall o, x | o in s && Link(k, o, x, true)
      ensures x in s
    {
      assert Link(h, o, x, true);
    }
  }

  /** Marking objects of a closed set marks nothing outside it. */
  lemma {:induction false} MarkEachOnlyIn(g: Gc, ids: seq<Id>, s: iset<Id>)
    requires ColorsOk(g.heap) && ClosedUnder(g.heap, s) && forall id :: id in ids ==> id in s
    ensures OnlyIn(g.heap, MarkEach(g, ids).heap, s)
    decreases Whites(g.heap), |ids| + 1
  {
    if ids != [] {
      var g1 := if White(g.heap, ids[0]) then ReallyMark(g, ids[0]) else g;
      if White(g.heap, ids[0]) {
        ReallyMarkMarks(g, ids[0]);
        MarkedColors(g, g1);
        ClosedUnderMarked(g, g1, s);
        ReallyMarkOnlyIn(g, ids[0], s);
      }
      MarkEachOnlyIn(g1, ids[1..], s);
    }
  }
}
