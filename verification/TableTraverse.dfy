/** A whole traversal with luaH_next, while values are changed or cleared and the collector kills keys:
    every key that keeps a value is visited exactly once. */
module TableTraverse {
  import opened TableNodes
  import opened TableMap
  import opened TableRehash
  import opened TableClass
  import opened TableObserve

  /** A table at one moment of a traversal. */
  datatype Snap = Snap(items: seq<Value>, ns: seq<Node>)

  ghost predicate SnapOk(hash: Hash, s: Snap) { ChainsOk(hash, s.ns) && KeysOk(s.ns, |s.items|) }

  /** Nothing has been moved: only values and dead marks differ. */
  predicate SameShape(a: Snap, b: Snap) {
    |a.items| == |b.items| && |a.ns| == |b.ns|
    && forall i :: 0 <= i < |a.ns| ==> a.ns[i].key == b.ns[i].key && a.ns[i].next == b.ns[i].next
  }

  lemma SameShapeVia(a: Snap, b: Snap, c: Snap)
    requires SameShape(a, b) && SameShape(a, c)
    ensures SameShape(b, c)
  {
  }

  // ---------- the slot of a key that has been visited ----------

  lemma {:induction false} RankFalls(ns: seq<Node>, rank: seq<nat>, i: int, k: nat)
    requires LinksOk(ns) && Ranked(ns, rank) && 0 <= i < |ns| && k > 0 && Walk(ns, i, k) != NONE
    ensures rank[Walk(ns, i, k)] < rank[i]
    decreases k
  {
    if k == 1 {
      assert Walk(ns, i, 1) == Walk(ns, ns[i].next, 0);
    } else {
      RankFalls(ns, rank, ns[i].next, k - 1);
    }
  }

  lemma NoWayBack(ns: seq<Node>, a: int, b: int)
    requires LinksOk(ns) && Acyclic(ns) && 0 <= a < |ns| && 0 <= b < |ns| && Reaches(ns, a, b) && Reaches(ns, b, a)
    ensures a == b
  {
    var rank :| Ranked(ns, rank);
    var k: nat :| Walk(ns, a, k) == b;
    var m: nat :| Walk(ns, b, m) == a;
    if a != b {
      RankFalls(ns, rank, a, k);
      RankFalls(ns, rank, b, m);
      assert false;
    }
  }

  /** The first node with key k among the first m + 1 of a chain that has one at m. */
  lemma {:induction false} FindsFirst(ns: seq<Node>, start: int, k: Key, m: nat, from: nat) returns (f: nat)
    requires LinksOk(ns) && NONE <= start < |ns| && Walk(ns, start, m) != NONE && ns[Walk(ns, start, m)].key == k
    requires from <= m && forall j: nat :: j < from ==> Passed(ns, start, k, j)
    ensures f <= m && Walk(ns, start, f) != NONE && FirstAt(ns, start, k, f, Walk(ns, start, f))
    decreases m - from
  {
    WalkAdd(ns, start, from, m - from);
    if ns[Walk(ns, start, from)].key == k {
      f := from;
      FoundFirst(ns, start, k, f, Walk(ns, start, f));
    } else {
      assert Passed(ns, start, k, from);
      f := FindsFirst(ns, start, k, m, from + 1);
    }
  }

  /** A live key is the first with that key in its chain, whatever dead copies there are. */
  lemma LiveIsFirst(hash: Hash, ns: seq<Node>, i: nat) returns (f: nat)
    requires ChainsOk(hash, ns) && i < |ns| && Live(ns[i])
    ensures FirstAt(ns, Main(hash, ns, i), ns[i].key, f, i)
  {
    hide Walk, Apart;
    var start, k := Main(hash, ns, i), ns[i].key;
    assert HomeOk(hash, ns, i);
    var m: nat :| Walk(ns, start, m) == i;
    f := FindsFirst(ns, start, k, m, 0);
    var r := Walk(ns, start, f);
    if r != i {
      WalkAdd(ns, start, f, m - f);
      assert Reaches(ns, r, i);
      assert SameDead(ns, i, r);
      NoWayBack(ns, i, r);
      assert false;
    }
  }

  /** A key that has a value has its own slot as index. */
  lemma OwnIndex(hash: Hash, s: Snap, i: nat)
    requires SnapOk(hash, s) && i < Slots(s.items, s.ns) && ValAt(s.items, s.ns, i) != Nil
    ensures KeyAt(s.items, s.ns, i) != NilKey && IsIndex(hash, s.items, s.ns, KeyAt(s.items, s.ns, i), i)
  {
    hide FirstAt;
    if i >= |s.items| {
      var f := LiveIsFirst(hash, s.ns, i - |s.items|);
      assert FirstAt(s.ns, MainPosition(hash, KeyAt(s.items, s.ns, i), |s.ns|), KeyAt(s.items, s.ns, i), f, i - |s.items|);
    }
  }

  lemma OneIndex(hash: Hash, s: Snap, k: Key, i: int, j: int)
    requires SnapOk(hash, s) && IsIndex(hash, s.items, s.ns, k, i) && IsIndex(hash, s.items, s.ns, k, j)
    ensures i == j
  {
    hide FirstAt;
    if k != NilKey && !InArray(k, |s.items|) {
      var start := MainPosition(hash, k, |s.ns|);
      var m: nat, r :| FirstAt(s.ns, start, k, m, r) && i == r + |s.items|;
      var m2: nat, r2 :| FirstAt(s.ns, start, k, m2, r2) && j == r2 + |s.items|;
      FirstIsUnique(s.ns, start, k, m, r, m2, r2);
    }
  }

  lemma SameFirst(a: seq<Node>, b: seq<Node>, start: int, k: Key, m: nat, r: int)
    requires LinksOk(a) && |b| == |a| && NONE <= start < |a| && FirstAt(a, start, k, m, r)
    requires forall i :: 0 <= i < |a| ==> b[i].key == a[i].key && b[i].next == a[i].next
    ensures LinksOk(b) && FirstAt(b, start, k, m, r)
  {
    SameLinks(a, b, start, m);
    forall j: nat | j < m
      ensures Passed(b, start, k, j)
    {
      assert Passed(a, start, k, j);
      SameLinks(a, b, start, j);
    }
  }

  /** The index of a key does not change while nothing is moved. */
  lemma IndexStays(hash: Hash, a: Snap, b: Snap, k: Key, i: int)
    requires SnapOk(hash, a) && SnapOk(hash, b) && SameShape(a, b) && IsIndex(hash, a.items, a.ns, k, i)
    ensures IsIndex(hash, b.items, b.ns, k, i)
  {
    hide FirstAt;
    if k != NilKey && !InArray(k, |a.items|) {
      var start := MainPosition(hash, k, |a.ns|);
      var m: nat, r :| FirstAt(a.ns, start, k, m, r) && i == r + |a.items|;
      SameFirst(a.ns, b.ns, start, k, m, r);
    }
  }

  // ---------- a traversal ----------

  /** What luaH_next answers to key k. */
  ghost predicate Answers(hash: Hash, s: Snap, k: Key, r: Next)
    requires SnapOk(hash, s)
  {
    exists i :: -1 <= i < Slots(s.items, s.ns) && IsIndex(hash, s.items, s.ns, k, i) && r == EntryAfter(s.items, s.ns, i)
  }

  function Asked(keys: seq<Key>, j: nat): Key
    requires j <= |keys|
  {
    if j == 0 then NilKey else keys[j - 1]
  }

  /** From nil to the end: each answer is the next question; between two questions values may change. */
  ghost predicate Traversal(hash: Hash, snaps: seq<Snap>, keys: seq<Key>, vals: seq<Value>) {
    && |snaps| == |keys| + 1 && |vals| == |keys|
    && (forall j :: 0 <= j < |snaps| ==> SnapOk(hash, snaps[j]) && SameShape(snaps[0], snaps[j]))
    && (forall j :: 0 <= j < |keys| ==> Answers(hash, snaps[j], Asked(keys, j), Entry(keys[j], vals[j])))
    && Answers(hash, snaps[|keys|], Asked(keys, |keys|), NoMore)
  }

  function Last(slots: seq<nat>, j: nat): int
    requires j <= |slots|
  {
    if j == 0 then -1 else slots[j - 1]
  }

  /** The slots visited: each the next one after the last, in the table as it then was. */
  ghost predicate Visits(snaps: seq<Snap>, keys: seq<Key>, slots: seq<nat>) {
    && |slots| <= |keys| && |snaps| == |keys| + 1
    && forall j :: 0 <= j < |slots| ==> VisitAt(snaps, keys, slots, j)
  }

  predicate VisitAt(snaps: seq<Snap>, keys: seq<Key>, slots: seq<nat>, j: nat)
    requires j < |snaps| && j < |keys| && j < |slots|
  {
    Visited(snaps[j], keys[j], Last(slots, j), slots[j])
  }

  predicate Visited(s: Snap, k: Key, last: int, slot: nat) {
    && -1 <= last < Slots(s.items, s.ns) && slot == NextSlot(s.items, s.ns, last) < Slots(s.items, s.ns)
    && k == KeyAt(s.items, s.ns, slot)
  }

  /** The slot that luaH_next starts from is the one it has visited last. */
  lemma LastSlot(hash: Hash, snaps: seq<Snap>, keys: seq<Key>, vals: seq<Value>, slots: seq<nat>, j: nat)
    requires Traversal(hash, snaps, keys, vals) && Visits(snaps, keys, slots) && |slots| == j <= |keys|
    ensures IsIndex(hash, snaps[j].items, snaps[j].ns, Asked(keys, j), Last(slots, j))
  {
    hide IsIndex, SnapOk, SameShape, Answers;
    if j == 0 {
      NilIndex(hash, snaps[0]);
    } else {
      var s := snaps[j - 1];
      assert VisitAt(snaps, keys, slots, j - 1);
      OwnIndex(hash, s, slots[j - 1]);
      SameShapeVia(snaps[0], s, snaps[j]);
      IndexStays(hash, s, snaps[j], keys[j - 1], slots[j - 1]);
    }
  }

  lemma NilIndex(hash: Hash, s: Snap)
    requires SnapOk(hash, s)
    ensures IsIndex(hash, s.items, s.ns, NilKey, -1)
  {
  }

  lemma AnswerIs(hash: Hash, s: Snap, k: Key, r: Next, i: int)
    requires SnapOk(hash, s) && Answers(hash, s, k, r) && IsIndex(hash, s.items, s.ns, k, i)
    ensures -1 <= i < Slots(s.items, s.ns) && r == EntryAfter(s.items, s.ns, i)
  {
    hide IsIndex, EntryAfter;
    var i2 :| -1 <= i2 < Slots(s.items, s.ns) && IsIndex(hash, s.items, s.ns, k, i2) && r == EntryAfter(s.items, s.ns, i2);
    OneIndex(hash, s, k, i, i2);
  }

  lemma {:induction false} SlotsOf(hash: Hash, snaps: seq<Snap>, keys: seq<Key>, vals: seq<Value>, j: nat) returns (slots: seq<nat>)
    requires Traversal(hash, snaps, keys, vals) && j <= |keys|
    ensures |slots| == j && Visits(snaps, keys, slots)
    decreases j
  {
    hide IsIndex, Answers, SnapOk;
    slots := [];
    if j > 0 {
      var before := SlotsOf(hash, snaps, keys, vals, j - 1);
      LastSlot(hash, snaps, keys, vals, before, j - 1);
      var last := Last(before, j - 1);
      var s := snaps[j - 1];
      AnswerIs(hash, s, Asked(keys, j - 1), Entry(keys[j - 1], vals[j - 1]), last);
      slots := before + [NextSlot(s.items, s.ns, last)];
      forall i | 0 <= i < |slots|
        ensures VisitAt(snaps, keys, slots, i)
      {
        assert Last(slots, i) == Last(before, i);
        if i < j - 1 { assert VisitAt(snaps, keys, before, i); }
      }
    }
  }

  /** Slots are visited in order. */
  lemma {:induction false} SlotsRise(snaps: seq<Snap>, keys: seq<Key>, slots: seq<nat>, i: nat, j: nat)
    requires Visits(snaps, keys, slots) && i < j < |slots|
    ensures slots[i] < slots[j]
    decreases j
  {
    assert VisitAt(snaps, keys, slots, j);
    if i < j - 1 { SlotsRise(snaps, keys, slots, i, j - 1); }
  }

  /** A slot that always has a value is not passed over. */
  lemma {:induction false} NotMissed(snaps: seq<Snap>, keys: seq<Key>, slots: seq<nat>, x: nat, j: nat)
    requires Visits(snaps, keys, slots) && j <= |slots|
    requires forall s :: s in snaps ==> x < Slots(s.items, s.ns) && ValAt(s.items, s.ns, x) != Nil
    requires forall i :: 0 <= i < j ==> slots[i] != x
    ensures j > 0 ==> slots[j - 1] < x
    decreases j
  {
    if j > 0 {
      NotMissed(snaps, keys, slots, x, j - 1);
      assert VisitAt(snaps, keys, slots, j - 1);
      assert snaps[j - 1] in snaps;
    }
  }

  lemma KeysDiffer(hash: Hash, a: Snap, b: Snap, x: nat, y: nat)
    requires SnapOk(hash, a) && SnapOk(hash, b) && SameShape(a, b)
    requires x < Slots(a.items, a.ns) && y < Slots(b.items, b.ns) && x != y
    requires ValAt(a.items, a.ns, x) != Nil && ValAt(b.items, b.ns, y) != Nil
    ensures KeyAt(a.items, a.ns, x) != KeyAt(b.items, b.ns, y)
  {
    hide IsIndex, SnapOk;
    if KeyAt(a.items, a.ns, x) == KeyAt(b.items, b.ns, y) {
      OwnIndex(hash, a, x);
      OwnIndex(hash, b, y);
      IndexStays(hash, a, b, KeyAt(a.items, a.ns, x), x);
      OneIndex(hash, b, KeyAt(a.items, a.ns, x), x, y);
      assert false;
    }
  }

  /** The slot of a key that has a value. */
  lemma SlotOf(s: Snap, k: Key) returns (x: nat)
    requires KeysOk(s.ns, |s.items|) && ValueOf(s.items, s.ns, k) != Nil
    ensures x < Slots(s.items, s.ns) && KeyAt(s.items, s.ns, x) == k && ValAt(s.items, s.ns, x) != Nil
  {
    if InArray(k, |s.items|) {
      x := k.n - 1;
    } else {
      var v: Value :| v != Nil && HasVal(s.ns, k, v);
      var i :| 0 <= i < |s.ns| && Live(s.ns[i]) && s.ns[i].key == k && s.ns[i].val == v;
      x := i + |s.items|;
    }
  }

  /** No key is visited twice. */
  lemma VisitedOnce(hash: Hash, snaps: seq<Snap>, keys: seq<Key>, vals: seq<Value>, i: nat, j: nat)
    requires Traversal(hash, snaps, keys, vals) && i < j < |keys|
    ensures keys[i] != keys[j]
  {
    hide Answers, SnapOk;
    var slots := SlotsOf(hash, snaps, keys, vals, |keys|);
    SlotsRise(snaps, keys, slots, i, j);
    assert VisitAt(snaps, keys, slots, i);
    assert VisitAt(snaps, keys, slots, j);
    SameShapeVia(snaps[0], snaps[i], snaps[j]);
    KeysDiffer(hash, snaps[i], snaps[j], slots[i], slots[j]);
  }

  /** Every key that has a value throughout is visited. */
  lemma AllVisited(hash: Hash, snaps: seq<Snap>, keys: seq<Key>, vals: seq<Value>, k: Key)
    requires Traversal(hash, snaps, keys, vals)
    requires forall s :: s in snaps ==> ValueOf(s.items, s.ns, k) != Nil
    ensures k in keys
  {
    hide Answers, SnapOk, ValueOf, KeysOk;
    var slots := SlotsOf(hash, snaps, keys, vals, |keys|);
    assert snaps[0] in snaps && KeysOk(snaps[0].ns, |snaps[0].items|) by { SnapKeys(hash, snaps[0]); }
    var x := SlotOf(snaps[0], k);
    forall s | s in snaps
      ensures x < Slots(s.items, s.ns) && KeyAt(s.items, s.ns, x) == k && ValAt(s.items, s.ns, x) != Nil
    {
      SlotStays(hash, snaps[0], s, k, x);
    }
    if forall i :: 0 <= i < |slots| ==> slots[i] != x {
      NotMissed(snaps, keys, slots, x, |slots|);
      NothingLeft(hash, snaps, keys, vals, slots, x);
      assert false;
    }
    var i :| 0 <= i < |slots| && slots[i] == x;
    assert VisitAt(snaps, keys, slots, i);
    assert snaps[i] in snaps;
  }

  lemma SnapKeys(hash: Hash, s: Snap)
    requires SnapOk(hash, s)
    ensures KeysOk(s.ns, |s.items|)
  {
  }

  lemma SlotStays(hash: Hash, a: Snap, b: Snap, k: Key, x: nat)
    requires SnapOk(hash, a) && SnapOk(hash, b) && SameShape(a, b)
    requires x < Slots(a.items, a.ns) && KeyAt(a.items, a.ns, x) == k && ValAt(a.items, a.ns, x) != Nil && ValueOf(b.items, b.ns, k) != Nil
    ensures x < Slots(b.items, b.ns) && KeyAt(b.items, b.ns, x) == k && ValAt(b.items, b.ns, x) != Nil
  {
    hide ChainsOk;
    var y := SlotOf(b, k);
    if x != y { KeysDiffer(hash, a, b, x, y); }
  }

  /** When the traversal ends there is no value after the last slot. */
  lemma NothingLeft(hash: Hash, snaps: seq<Snap>, keys: seq<Key>, vals: seq<Value>, slots: seq<nat>, x: nat)
    requires Traversal(hash, snaps, keys, vals) && Visits(snaps, keys, slots) && |slots| == |keys|
    ensures var s := snaps[|keys|]; (|slots| > 0 ==> slots[|slots| - 1] < x) && x < Slots(s.items, s.ns) ==> ValAt(s.items, s.ns, x) == Nil
  {
    hide Answers, SnapOk, IsIndex;
    var n := |keys|;
    var s := snaps[n];
    var last := Last(slots, n);
    LastSlot(hash, snaps, keys, vals, slots, n);
    AnswerIs(hash, s, Asked(keys, n), NoMore, last);
  }
}
