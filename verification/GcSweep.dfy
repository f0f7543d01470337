/** Sweeping keeps the invariant and frees only the dead. */
module GcSweep {
  import opened GcHeap
  import opened GcMark
  import opened GcPropagate
  import opened GcTricolor
  import opened GcAtomic
  import opened GcCycle
  import opened GcSafety

  /** What a sweep of the first n objects of a list does: of those, the dead are gone and the others
      have the current white; nothing else changes. */
  ghost predicate SweptOk(h: Heap, list: seq<Id>, n: nat, current: Mark, k: Heap, kept: seq<Id>)
    requires n <= |list|
  {
    && NoDup(kept)
    && (forall o :: o in list[..n] ==> o in h && (o in k <==> Stays(h, o, current)) && (o in kept <==> Stays(h, o, current)))
    && (forall o :: o in kept ==> o in list[..n] && o in k && k[o] == h[o].(mark := MakeWhite(current, h[o].mark)))
    && (forall o :: o !in list[..n] ==> (o in k <==> o in h) && (o in h ==> k[o] == h[o]))
  }

  lemma SweptCons(h: Heap, list: seq<Id>, n: nat, current: Mark, h1: Heap, k: Heap, kept: seq<Id>, all: seq<Id>)
    requires 0 < n <= |list| && NoDup(list) && list[0] in h
    requires h1 == SweepOne(h, list[0], current)
    requires SweptOk(h1, list[1..], n - 1, current, k, kept)
    requires all == if Stays(h, list[0], current) then [list[0]] + kept else kept
    ensures SweptOk(h, list, n, current, k, all)
  {
    var o, rest := list[0], list[1..];
    assert list[..n] == [o] + rest[..n - 1];
    assert o !in rest[..n - 1];
    assert forall x :: x in rest[..n - 1] ==> x in list[..n];
    forall x | x in list[..n]
      ensures x in h && (x in k <==> Stays(h, x, current)) && (x in all <==> Stays(h, x, current))
    {
      if x != o { assert x in rest[..n - 1]; }
    }
  }

  lemma SweepOneRest(h: Heap, list: seq<Id>, current: Mark)
    requires list != [] && NoDup(list) && forall o :: o in list ==> o in h
    ensures NoDup(list[1..]) && forall x :: x in list[1..] ==> x in SweepOne(h, list[0], current)
  {
    assert list[0] !in list[1..];
    assert forall x :: x in list[1..] ==> x in list;
  }

  function Reached(list: seq<Id>, count: nat): (n: nat)
    ensures n <= |list|
  {
    if count < |list| then count else |list|
  }

  lemma SweepListStops(h: Heap, list: seq<Id>, count: nat, current: Mark)
    requires list == [] || count == 0
    ensures SweepList(h, list, count, current) == Swept(h, [], list) && list[Reached(list, count)..] == list
    ensures SweptOk(h, list, Reached(list, count), current, h, [])
  {
    assert list[..0] == [];
  }

  lemma SweepListStep(h: Heap, list: seq<Id>, count: nat, current: Mark)
    requires list != [] && count > 0
    ensures var s1, s := SweepList(SweepOne(h, list[0], current), list[1..], count - 1, current), SweepList(h, list, count, current);
      && s.heap == s1.heap && s.rest == s1.rest
      && s.kept == (if Stays(h, list[0], current) then [list[0]] + s1.kept else s1.kept)
    ensures var n := Reached(list, count); n > 0 && Reached(list[1..], count - 1) == n - 1 && list[1..][n - 1..] == list[n..]
  {
  }

  lemma {:induction false} SweepListDone(h: Heap, list: seq<Id>, count: nat, current: Mark)
    requires NoDup(list) && forall o :: o in list ==> o in h
    ensures SweepList(h, list, count, current).rest == list[Reached(list, count)..]
    ensures var s := SweepList(h, list, count, current); SweptOk(h, list, Reached(list, count), current, s.heap, s.kept)
    decreases |list|
  {
    hide SweptOk, NoDup, Stays, SweepOne, SweepList, Reached;
    if list == [] || count == 0 {
      SweepListStops(h, list, count, current);
    } else {
      assert list[0] in list;
      SweepOneRest(h, list, current);
      SweepListStep(h, list, count, current);
      var h1 := SweepOne(h, list[0], current);
      SweepListDone(h1, list[1..], count - 1, current);
      SweptCons(h, list, Reached(list, count), current, h1, SweepList(h1, list[1..], count - 1, current).heap,
                SweepList(h1, list[1..], count - 1, current).kept, SweepList(h, list, count, current).kept);
    }
  }

  // ---------- what survives ----------

  /** What is alive survives the sweep; what is swept and survives has the current white. */
  ghost predicate SweptFrom(g: Gc, r: Gc, list: seq<Id>, n: nat, kept: seq<Id>)
    requires n <= |list|
  {
    && SweptOk(g.heap, list, n, g.currentwhite, r.heap, kept)
    && r.currentwhite == g.currentwhite && r.mainthread == g.mainthread && r.registry == g.registry
    && r.running == g.running && r.mt == g.mt
  }

  lemma AliveStays(g: Gc, r: Gc, list: seq<Id>, n: nat, kept: seq<Id>, o: Id)
    requires n <= |list| && SweptFrom(g, r, list, n, kept) && CurrentOk(g.currentwhite) && HeapOk(g.heap) && Alive(g, o)
    ensures Alive(r, o) && r.heap[o].body == g.heap[o].body
  {
    assert MarkOk(g.heap[o]);
    AliveIs(g, o);
    if o in list[..n] { assert o in kept; }
  }

  lemma SweptObject(g: Gc, r: Gc, list: seq<Id>, n: nat, kept: seq<Id>, o: Id)
    requires n <= |list| && SweptFrom(g, r, list, n, kept) && CurrentOk(g.currentwhite) && HeapOk(g.heap) && o in r.heap
    ensures o in g.heap && r.heap[o].body == g.heap[o].body && MarkOk(r.heap[o])
    ensures Alive(r, o) ==> Alive(g, o) || g.heap[o].mark.fixed
    ensures o in list[..n] ==> o in kept && CurrentWhite(r, o)
    ensures o !in list[..n] ==> r.heap[o] == g.heap[o]
  {
    assert o in g.heap by { if o in list[..n] {} }
    assert MarkOk(g.heap[o]);
    AliveIs(g, o);
  }

  lemma SweptClosed(g: Gc, r: Gc, list: seq<Id>, n: nat, kept: seq<Id>)
    requires n <= |list| && SweptFrom(g, r, list, n, kept) && CurrentOk(g.currentwhite) && HeapOk(g.heap)
    requires Closed(g) && RootsAlive(g) && FixedOk(g)
    ensures HeapOk(r.heap) && Closed(r) && RootsAlive(r) && FixedOk(r)
  {
    hide SweptFrom, HeapOk;
    forall o | o in r.heap
      ensures MarkOk(r.heap[o]) && (r.heap[o].mark.fixed ==> r.heap[o].body.Str? || o == r.mainthread)
    {
      SweptObject(g, r, list, n, kept, o);
      FixedBefore(g, r, list, n, kept, o);
      SameRoots(g, r, list, n, kept);
    }
    assert g.mainthread in Roots(g);
    forall o, id | Alive(r, o) && id in Refs(r.heap[o].body)
      ensures Alive(r, id)
    {
      SweptObject(g, r, list, n, kept, o);
      assert Alive(g, o);
      AliveStays(g, r, list, n, kept, id);
    }
    forall o | o in Roots(r)
      ensures Alive(r, o)
    {
      assert o in Roots(g) by { SameRoots(g, r, list, n, kept); }
      AliveStays(g, r, list, n, kept, o);
    }
    assert HeapOk(r.heap) by { IsHeapOk(r.heap); }
  }

  lemma IsHeapOk(h: Heap)
    requires forall o :: o in h ==> MarkOk(h[o])
    ensures HeapOk(h)
  {
  }

  lemma SameRoots(g: Gc, r: Gc, list: seq<Id>, n: nat, kept: seq<Id>)
    requires n <= |list| && SweptFrom(g, r, list, n, kept)
    ensures Roots(r) == Roots(g) && r.mainthread == g.mainthread && r.running == g.running
  {
  }

  lemma FixedBefore(g: Gc, r: Gc, list: seq<Id>, n: nat, kept: seq<Id>, o: Id)
    requires n <= |list| && SweptFrom(g, r, list, n, kept) && o in r.heap && o in g.heap
    ensures r.heap[o].mark.fixed == g.heap[o].mark.fixed
  {
    if o in list[..n] { assert o in kept; }
  }

  // ---------- one bucket of the string table ----------

  lemma BucketParts(g: Gc, i: nat)
    requires ListsOk(g) && i < |g.strt|
    ensures NoDup(g.strt[i]) && (forall o :: o in g.strt[i] ==> o in g.heap && g.heap[o].body.Str?)
    ensures forall o :: o in g.strt[i] ==> o !in g.rootgc && forall j :: 0 <= j < |g.strt| && j != i ==> o !in g.strt[j]
  {
    assert BucketOk(g.heap, g.strt[i]);
    forall o, j | o in g.strt[i] && 0 <= j < |g.strt| && j != i
      ensures o !in g.strt[j]
    {
      if j < i { assert Apart(g.strt[j], g.strt[i]); } else { assert Apart(g.strt[i], g.strt[j]); }
    }
  }

  lemma WholeList(list: seq<Id>)
    ensures list[..|list|] == list && Reached(list, |list|) == |list|
  {
  }

  lemma BucketSwept(g: Gc)
    requires ListsOk(g) && g.sweepstrgc < |g.strt|
    ensures var r, list := SweepBucket(g), g.strt[g.sweepstrgc];
      SweptFrom(g, r, list, |list|, r.strt[g.sweepstrgc]) && r.rootgc == g.rootgc && |r.strt| == |g.strt|
      && forall j :: 0 <= j < |g.strt| && j != g.sweepstrgc ==> r.strt[j] == g.strt[j]
  {
    hide SweptOk;
    var i := g.sweepstrgc;
    BucketParts(g, i);
    SweepListDone(g.heap, g.strt[i], |g.strt[i]|, g.currentwhite);
    WholeList(g.strt[i]);
  }

  lemma BucketKeeps(g: Gc, r: Gc, i: nat, o: Id)
    requires ListsOk(g) && i < |g.strt| && |r.strt| == |g.strt|
    requires SweptFrom(g, r, g.strt[i], |g.strt[i]|, r.strt[i])
    ensures o !in g.strt[i] ==> (o in r.heap <==> o in g.heap) && (o in g.heap ==> r.heap[o] == g.heap[o])
    ensures o in r.strt[i] ==> o in g.strt[i] && o in r.heap && r.heap[o].body == g.heap[o].body && CurrentWhite(r, o)
    ensures o in g.strt[i] && o in r.heap ==> o in r.strt[i]
    ensures NoDup(r.strt[i])
  {
    WholeList(g.strt[i]);
  }

  lemma BucketLists(g: Gc)
    requires ListsOk(g) && ThreadsOk(g) && g.sweepstrgc < |g.strt|
    ensures ListsOk(SweepBucket(g)) && ThreadsOk(SweepBucket(g))
  {
    hide SweptOk, NoDup, SweptFrom, SweepList;
    var r, i := SweepBucket(g), g.sweepstrgc;
    BucketSwept(g);
    BucketParts(g, i);
    forall o
      ensures o !in g.strt[i] ==> (o in r.heap <==> o in g.heap) && (o in g.heap ==> r.heap[o] == g.heap[o])
      ensures o in r.strt[i] ==> o in g.strt[i] && o in r.heap && r.heap[o].body == g.heap[o].body
      ensures o in g.strt[i] && o in r.heap ==> o in r.strt[i]
      ensures NoDup(r.strt[i])
    {
      BucketKeeps(g, r, i, o);
    }
    forall j | 0 <= j < |r.strt|
      ensures BucketOk(r.heap, r.strt[j])
    {
      BucketParts(g, j);
    }
    forall j, k | 0 <= j < k < |r.strt|
      ensures Apart(r.strt[j], r.strt[k])
    {
      assert Apart(g.strt[j], g.strt[k]);
    }
    forall o | o in r.heap
      ensures o in r.rootgc || InTable(r.strt, o)
    {
      if o !in g.rootgc { InTableLater(g, r, i, o); }
    }
    forall o | o in r.rootgc
      ensures o in r.heap && !r.heap[o].body.Str?
    {
      assert o !in g.strt[i];
    }
    BucketThreads(g, r, i);
  }

  lemma InTableLater(g: Gc, r: Gc, i: nat, o: Id)
    requires InTable(g.strt, o) && i < |g.strt| && |r.strt| == |g.strt| && o in r.heap
    requires forall j :: 0 <= j < |g.strt| && j != i ==> r.strt[j] == g.strt[j]
    requires o in g.strt[i] ==> o in r.strt[i]
    ensures InTable(r.strt, o)
  {
    var j :| 0 <= j < |g.strt| && o in g.strt[j];
    assert o in r.strt[j];
  }

  lemma BucketThreads(g: Gc, r: Gc, i: nat)
    requires ListsOk(g) && ThreadsOk(g) && i < |g.strt| && |r.strt| == |g.strt| && r.rootgc == g.rootgc
    requires SweptFrom(g, r, g.strt[i], |g.strt[i]|, r.strt[i])
    ensures ThreadsOk(r)
  {
    hide SweptOk, NoDup, SweptFrom;
    BucketParts(g, i);
    BucketKeeps(g, r, i, g.mainthread);
    BucketKeeps(g, r, i, g.running);
    SameRoots(g, r, g.strt[i], |g.strt[i]|, r.strt[i]);
    forall o | o in r.heap && r.heap[o].mark.fixed
      ensures r.heap[o].body.Str? || o == r.mainthread
    {
      BucketKeeps(g, r, i, o);
      if o in g.strt[i] { assert g.heap[o].body.Str?; }
    }
  }

  lemma BucketInv(g: Gc)
    requires Inv(g) && g.phase == SweepString
    ensures Inv(SweepBucket(g))
  {
    hide SweptOk, NoDup, SweptFrom, SweepList, HeapOk, Closed, RootsAlive, ListsOk, ThreadsOk;
    var r, i := SweepBucket(g), g.sweepstrgc;
    BucketSwept(g);
    BucketLists(g);
    assert FixedOk(g) by { ThreadsFixed(g); }
    SweptClosed(g, r, g.strt[i], |g.strt[i]|, r.strt[i]);
    forall j, o | 0 <= j <= i && o in r.strt[j]
      ensures CurrentWhite(r, o)
    {
      BucketKeeps(g, r, i, o);
      if j != i {
        BucketParts(g, i);
        assert CurrentWhite(g, o) && o !in g.strt[i];
        SweptSame(g, r, g.strt[i], |g.strt[i]|, r.strt[i]);
      }
    }
    SweptSame(g, r, g.strt[i], |g.strt[i]|, r.strt[i]);
  }

  lemma ThreadsFixed(g: Gc)
    requires ThreadsOk(g)
    ensures FixedOk(g)
  {
  }

  lemma SweptSame(g: Gc, r: Gc, list: seq<Id>, n: nat, kept: seq<Id>)
    requires n <= |list| && SweptFrom(g, r, list, n, kept)
    ensures r.currentwhite == g.currentwhite
  {
  }

  // ---------- a stretch of rootgc ----------

  lemma SomeSwept(g: Gc)
    requires ListsOk(g) && g.sweepgc <= |g.rootgc|
    ensures var r, list := SweepSome(g), g.rootgc[g.sweepgc..]; var n := Reached(list, GCSWEEPMAX);
      exists kept :: SweptFrom(g, r, list, n, kept) && r.rootgc == g.rootgc[..g.sweepgc] + kept + list[n..]
                     && r.sweepgc == g.sweepgc + |kept| && r.strt == g.strt && r.phase == (if n == |list| then Finalize else Sweep)
  {
    hide SweptOk, SweepList;
    var list := g.rootgc[g.sweepgc..];
    assert NoDup(list);
    forall o | o in list
      ensures o in g.heap
    {
      assert o in g.rootgc;
    }
    SweepListDone(g.heap, list, GCSWEEPMAX, g.currentwhite);
    var s := SweepList(g.heap, list, GCSWEEPMAX, g.currentwhite);
    assert SweptFrom(g, SweepSome(g), list, Reached(list, GCSWEEPMAX), s.kept);
  }

  lemma Cut(s: seq<Id>, i: nat, n: nat, o: Id)
    requires i + n <= |s| && NoDup(s)
    ensures s == s[..i] + s[i..][..n] + s[i..][n..]
    ensures o in s <==> o in s[..i] || o in s[i..][..n] || o in s[i..][n..]
    ensures NoDup(s[..i]) && NoDup(s[i..][n..])
    ensures Apart(s[..i], s[i..][..n]) && Apart(s[..i], s[i..][n..]) && Apart(s[i..][..n], s[i..][n..])
  {
    assert s == s[..i] + s[i..][..n] + s[i..][n..];
    assert s[i..][n..] == s[i + n..] && s[i..][..n] == s[i..i + n];
  }

  lemma NoDup3(a: seq<Id>, b: seq<Id>, c: seq<Id>)
    requires NoDup(a) && NoDup(b) && NoDup(c) && Apart(a, b) && Apart(a, c) && Apart(b, c)
    ensures NoDup(a + b + c)
  {
    NoDupJoin(a, b);
    NoDupJoin(a + b, c);
  }

  lemma SomeKeeps(g: Gc, r: Gc, list: seq<Id>, n: nat, kept: seq<Id>, o: Id)
    requires n <= |list| && SweptFrom(g, r, list, n, kept)
    ensures o !in list[..n] ==> (o in r.heap <==> o in g.heap) && (o in g.heap ==> r.heap[o] == g.heap[o])
    ensures o in kept ==> o in list[..n] && o in r.heap && o in g.heap && r.heap[o].body == g.heap[o].body && CurrentWhite(r, o)
                          && r.heap[o].mark.fixed == g.heap[o].mark.fixed
    ensures o in list[..n] && o in r.heap ==> o in kept
    ensures NoDup(kept) && r.currentwhite == g.currentwhite
  {
  }

  lemma SomeLists(g: Gc, r: Gc, n: nat, kept: seq<Id>)
    requires ListsOk(g) && g.sweepgc + n <= |g.rootgc|
    requires SweptFrom(g, r, g.rootgc[g.sweepgc..], n, kept) && r.strt == g.strt
    requires r.rootgc == g.rootgc[..g.sweepgc] + kept + g.rootgc[g.sweepgc..][n..]
    ensures ListsOk(r)
  {
    hide SweptFrom, BucketOk, NoDup;
    var a, list := g.rootgc[..g.sweepgc], g.rootgc[g.sweepgc..];
    var b, c := list[..n], list[n..];
    Cut(g.rootgc, g.sweepgc, n, 0);
    SomeKeeps(g, r, list, n, kept, 0);
    assert Apart(a, kept) && Apart(kept, c) by { KeptApart(g, r, list, n, kept, a, b, c); }
    forall o
      ensures o in g.rootgc <==> o in a || o in b || o in c
      ensures o !in b ==> (o in r.heap <==> o in g.heap) && (o in g.heap ==> r.heap[o] == g.heap[o])
      ensures o in kept ==> o in b && o in r.heap && o in g.heap && r.heap[o].body == g.heap[o].body
      ensures o in b && o in r.heap ==> o in kept
    {
      Cut(g.rootgc, g.sweepgc, n, o);
      SomeKeeps(g, r, list, n, kept, o);
    }
    NoDup3(a, kept, c);
    SomeTable(g, r, b);
    forall o | o in r.rootgc
      ensures o in r.heap && !r.heap[o].body.Str?
    {
      assert o in a || o in kept || o in c;
      assert o in g.rootgc;
    }
    forall o | o in r.heap
      ensures o in r.rootgc || InTable(r.strt, o)
    {
      if o in g.rootgc { assert o in a || o in kept || o in c; }
    }
  }

  lemma KeptApart(g: Gc, r: Gc, list: seq<Id>, n: nat, kept: seq<Id>, a: seq<Id>, b: seq<Id>, c: seq<Id>)
    requires n <= |list| && SweptFrom(g, r, list, n, kept) && b == list[..n] && Apart(a, b) && Apart(b, c)
    ensures Apart(a, kept) && Apart(kept, c)
  {
  }

  lemma SomeTable(g: Gc, r: Gc, b: seq<Id>)
    requires ListsOk(g) && r.strt == g.strt && (forall o :: o in b ==> o in g.rootgc)
    requires forall o :: o !in b ==> (o in r.heap <==> o in g.heap) && (o in g.heap ==> r.heap[o] == g.heap[o])
    ensures forall i :: 0 <= i < |r.strt| ==> BucketOk(r.heap, r.strt[i])
  {
    forall i | 0 <= i < |r.strt|
      ensures BucketOk(r.heap, r.strt[i])
    {
      BucketParts(g, i);
    }
  }

  lemma SomeInv(g: Gc)
    requires Inv(g) && g.phase == Sweep
    ensures Inv(SweepSome(g))
  {
    hide SweptOk, NoDup, SweptFrom, SweepList, HeapOk, Closed, RootsAlive, ListsOk, ThreadsOk;
    var r, list := SweepSome(g), g.rootgc[g.sweepgc..];
    var n := Reached(list, GCSWEEPMAX);
    SomeSwept(g);
    var kept :| SweptFrom(g, r, list, n, kept) && r.rootgc == g.rootgc[..g.sweepgc] + kept + list[n..]
                && r.sweepgc == g.sweepgc + |kept| && r.strt == g.strt && r.phase == (if n == |list| then Finalize else Sweep);
    SomeLists(g, r, n, kept);
    assert FixedOk(g) by { ThreadsFixed(g); }
    SweptClosed(g, r, list, n, kept);
    SomeThreads(g, r, list, n, kept);
    SomeColors(g, r, n, kept);
    assert r.rootgc[..r.sweepgc] == g.rootgc[..g.sweepgc] + kept;
    if n == |list| {
      assert r.rootgc == g.rootgc[..g.sweepgc] + kept;
      AllSwept(r);
    }
  }

  lemma SomeThreads(g: Gc, r: Gc, list: seq<Id>, n: nat, kept: seq<Id>)
    requires n <= |list| && SweptFrom(g, r, list, n, kept)
    requires CurrentOk(g.currentwhite) && HeapOk(g.heap) && RootsAlive(g) && ThreadsOk(g) && ListsOk(r)
    ensures ThreadsOk(r)
  {
    hide SweptFrom;
    SameRoots(g, r, list, n, kept);
    assert g.mainthread in Roots(g) && g.running in Roots(g);
    AliveStays(g, r, list, n, kept, g.mainthread);
    AliveStays(g, r, list, n, kept, g.running);
    forall o | o in r.heap && r.heap[o].mark.fixed
      ensures r.heap[o].body.Str? || o == r.mainthread
    {
      SweptObject(g, r, list, n, kept, o);
      FixedBefore(g, r, list, n, kept, o);
    }
    ThreadListed(r);
  }

  lemma ThreadListed(r: Gc)
    requires ListsOk(r) && r.mainthread in r.heap && r.heap[r.mainthread].body.Thread?
    ensures r.mainthread in r.rootgc
  {
    if InTable(r.strt, r.mainthread) {
      var i :| 0 <= i < |r.strt| && r.mainthread in r.strt[i];
      BucketParts(r, i);
    }
  }

  /** What lies before the sweep pointer has the current white. */
  lemma SomeColors(g: Gc, r: Gc, n: nat, kept: seq<Id>)
    requires Inv(g) && g.phase == Sweep && g.sweepgc + n <= |g.rootgc|
    requires SweptFrom(g, r, g.rootgc[g.sweepgc..], n, kept) && r.strt == g.strt
    ensures forall i, o :: 0 <= i < |r.strt| && o in r.strt[i] ==> CurrentWhite(r, o)
    ensures forall o :: o in g.rootgc[..g.sweepgc] + kept ==> CurrentWhite(r, o)
  {
    hide SweptFrom, HeapOk, Closed, RootsAlive, ThreadsOk;
    var list := g.rootgc[g.sweepgc..];
    forall i, o | 0 <= i < |r.strt| && o in r.strt[i]
      ensures CurrentWhite(r, o)
    {
      assert CurrentWhite(g, o);
      BucketParts(g, i);
      Cut(g.rootgc, g.sweepgc, n, o);
      SomeKeeps(g, r, list, n, kept, o);
    }
    forall o | o in g.rootgc[..g.sweepgc] + kept
      ensures CurrentWhite(r, o)
    {
      Cut(g.rootgc, g.sweepgc, n, o);
      SomeKeeps(g, r, list, n, kept, o);
    }
  }

  lemma AllSwept(r: Gc)
    requires ListsOk(r)
    requires forall i, o :: 0 <= i < |r.strt| && o in r.strt[i] ==> CurrentWhite(r, o)
    requires forall o :: o in r.rootgc ==> CurrentWhite(r, o)
    ensures AllWhite(r)
  {
    forall o | o in r.heap
      ensures CurrentWhite(r, o)
    {
      if o !in r.rootgc {
        var i :| 0 <= i < |r.strt| && o in r.strt[i];
      }
    }
  }

  // ---------- every step ----------

  /** singlestep keeps the invariant in every phase. */
  lemma SingleStepInv(g: Gc)
    requires Inv(g)
    ensures StepOk(g) && Inv(SingleStep(g))
  {
    hide HeapOk, Closed, RootsAlive, ListsOk, ThreadsOk, Tricolor, AllWhite, NoneDead, MarkRoot, PropagateMark, Atomic, SweepBucket, SweepSome;
    InvStepOk(g);
    match g.phase
    case Pause => MarkRootInv(g);
    case Propagate => if g.gray != [] { PropagateInv(g); } else { AtomicInv(g); }
    case SweepString => BucketInv(g);
    case Sweep => SomeInv(g);
    case Finalize => PauseInv(g);
  }

  lemma PauseInv(g: Gc)
    requires Inv(g) && g.phase == Finalize
    ensures Inv(g.(phase := Pause))
  {
    hide ListsOk;
    var s := g.(phase := Pause);
    assert forall o :: Alive(s, o) <==> Alive(g, o);
    assert ListsOk(s) by { ListsSame(g, s); }
  }

  /** Whatever is alive is still there after a sweep step, with the same contents. */
  lemma SweepKeepsAlive(g: Gc, o: Id)
    requires Inv(g) && (g.phase == SweepString || g.phase == Sweep) && Alive(g, o)
    ensures StepOk(g) && Alive(SingleStep(g), o) && SingleStep(g).heap[o].body == g.heap[o].body
  {
    hide SweptFrom, Closed, RootsAlive, ListsOk, ThreadsOk;
    if g.phase == SweepString {
      BucketSwept(g);
      var r, i := SweepBucket(g), g.sweepstrgc;
      AliveStays(g, r, g.strt[i], |g.strt[i]|, r.strt[i], o);
    } else {
      SomeSwept(g);
      var r, list := SweepSome(g), g.rootgc[g.sweepgc..];
      var n := Reached(list, GCSWEEPMAX);
      var kept :| SweptFrom(g, r, list, n, kept);
      AliveStays(g, r, list, n, kept, o);
    }
  }
}
