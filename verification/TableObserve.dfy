/** What can be seen of a table from outside: a border of its integer keys (luaH_getn), and traversal
    (luaH_next). */
module TableObserve {
  import opened TableNodes
  import opened TableMap
  import opened TableClass

  const MAX_INT: int := 0x7fff_fffd

  // ---------- borders ----------

  /** n is 0 or an index with a value, and the next index has none. */
  ghost predicate Border(items: seq<Value>, ns: seq<Node>, n: int) {
    n >= 0 && (n == 0 || ValueOf(items, ns, IntKey(n)) != Nil) && ValueOf(items, ns, IntKey(n + 1)) == Nil
  }

  /** Above some index there is no value. */
  ghost predicate Bounded(items: seq<Value>, ns: seq<Node>, top: nat) { forall n :: n > top ==> ValueOf(items, ns, IntKey(n)) == Nil }

  lemma {:induction false} KeysBounded(ns: seq<Node>, m: nat) returns (top: nat)
    requires m <= |ns|
    ensures forall i, n :: 0 <= i < m && ns[i].key == IntKey(n) ==> n <= top
    decreases m
  {
    top := 0;
    if m > 0 {
      top := KeysBounded(ns, m - 1);
      if ns[m - 1].key.IntKey? && ns[m - 1].key.n > top { top := ns[m - 1].key.n; }
    }
  }

  /** A table has finitely many integer keys. */
  lemma TableBounded(items: seq<Value>, ns: seq<Node>) returns (top: nat)
    ensures Bounded(items, ns, top)
  {
    top := KeysBounded(ns, |ns|);
    if |items| > top { top := |items|; }
    forall n | n > top
      ensures ValueOf(items, ns, IntKey(n)) == Nil
    {
      NodeValAbsent(ns, IntKey(n));
    }
  }

  method UnboundSearch(t: Table, from: nat) returns (n: nat)
    requires t.Valid() && (from == 0 || t.At(IntKey(from)) != Nil)
    ensures Border(t.items, t.node[..], n)
  {
    ghost var top := TableBounded(t.items, t.node[..]);
    var i, j: nat := from, from + 1;
    var v := t.Get(IntKey(j));
    while v != Nil
      invariant 0 <= i < j && (i == 0 || t.At(IntKey(i)) != Nil) && v == t.At(IntKey(j))
      decreases if j <= top then top + 1 - j else 0
    {
      i := j;
      j := j * 2;
      if j > MAX_INT {
        n := LinearSearch(t);
        return;
      }
      v := t.Get(IntKey(j));
    }
    n := BinarySearch(t, i, j);
  }

  /** The resort for a table built with bad purposes. */
  method LinearSearch(t: Table) returns (n: nat)
    requires t.Valid()
    ensures Border(t.items, t.node[..], n)
  {
    ghost var top := TableBounded(t.items, t.node[..]);
    var i := 1;
    var v := t.Get(IntKey(i));
    while v != Nil
      invariant i >= 1 && v == t.At(IntKey(i)) && (i == 1 || t.At(IntKey(i - 1)) != Nil)
      decreases if i <= top then top + 1 - i else 0
    {
      i := i + 1;
      v := t.Get(IntKey(i));
    }
    n := i - 1;
  }

  method BinarySearch(t: Table, lo: nat, hi: nat) returns (n: nat)
    requires t.Valid() && lo < hi && (lo == 0 || t.At(IntKey(lo)) != Nil) && t.At(IntKey(hi)) == Nil
    ensures Border(t.items, t.node[..], n)
  {
    var i, j := lo, hi;
    while j - i > 1
      invariant i < j && (i == 0 || t.At(IntKey(i)) != Nil) && t.At(IntKey(j)) == Nil
    {
      var m := (i + j) / 2;
      var v := t.Get(IntKey(m));
      if v == Nil { j := m; } else { i := m; }
    }
    n := i;
  }

  /** luaH_getn. */
  method GetN(t: Table) returns (n: nat)
    requires t.Valid()
    ensures Border(t.items, t.node[..], n)
  {
    var j := |t.items|;
    if j > 0 && t.items[j - 1] == Nil {
      var i := 0;
      while j - i > 1
        invariant 0 <= i < j <= |t.items| && (i == 0 || t.items[i - 1] != Nil) && t.items[j - 1] == Nil
      {
        var m := (i + j) / 2;
        if t.items[m - 1] == Nil { j := m; } else { i := m; }
      }
      n := i;
    } else if t.dummy {
      NodeValAbsent(t.node[..], IntKey(j + 1));
      n := j;
    } else {
      n := UnboundSearch(t, j);
    }
  }

  // ---------- the order of traversal ----------

  /** The number of slots: first the array part, then the nodes. */
  function Slots(items: seq<Value>, ns: seq<Node>): nat { |items| + |ns| }

  function KeyAt(items: seq<Value>, ns: seq<Node>, i: nat): Key
    requires i < Slots(items, ns)
  {
    if i < |items| then IntKey(i + 1) else ns[i - |items|].key
  }

  function ValAt(items: seq<Value>, ns: seq<Node>, i: nat): Value
    requires i < Slots(items, ns)
  {
    if i < |items| then items[i] else ns[i - |items|].val
  }

  /** The first slot after i that has a value, or the number of slots. */
  function NextSlot(items: seq<Value>, ns: seq<Node>, i: int): (j: nat)
    requires -1 <= i < Slots(items, ns)
    ensures i < j <= Slots(items, ns)
    ensures j < Slots(items, ns) ==> ValAt(items, ns, j) != Nil
    ensures forall k :: i < k < j ==> ValAt(items, ns, k) == Nil
    decreases Slots(items, ns) - i
  {
    if i + 1 == Slots(items, ns) || ValAt(items, ns, i + 1) != Nil then i + 1 else NextSlot(items, ns, i + 1)
  }

  /** The node j steps down the chain exists and does not have key k. */
  predicate Passed(ns: seq<Node>, start: int, k: Key, j: nat)
    requires LinksOk(ns) && NONE <= start < |ns|
  {
    var n := Walk(ns, start, j); n != NONE && ns[n].key != k
  }

  /** r is the first node with key k, dead or alive, down the chain from start: m steps down. */
  ghost predicate FirstAt(ns: seq<Node>, start: int, k: Key, m: nat, r: int)
    requires LinksOk(ns) && NONE <= start < |ns|
  {
    0 <= r < |ns| && Walk(ns, start, m) == r && ns[r].key == k && forall j: nat :: j < m ==> Passed(ns, start, k, j)
  }

  /** The slot of a key in a traversal. */
  ghost predicate IsIndex(hash: Hash, items: seq<Value>, ns: seq<Node>, k: Key, i: int)
    requires |ns| > 0 && LinksOk(ns)
  {
    if k == NilKey then i == -1
    else if InArray(k, |items|) then i == k.n - 1
    else exists m: nat, r :: FirstAt(ns, MainPosition(hash, k, |ns|), k, m, r) && i == r + |items|
  }

  lemma FirstIsUnique(ns: seq<Node>, start: int, k: Key, m: nat, r: int, m2: nat, r2: int)
    requires LinksOk(ns) && NONE <= start < |ns| && FirstAt(ns, start, k, m, r) && FirstAt(ns, start, k, m2, r2)
    ensures r == r2
  {
    assert !Passed(ns, start, k, m) && !Passed(ns, start, k, m2);
  }

  datatype Next = Entry(key: Key, val: Value) | NoMore | InvalidKey

  /** The loop of findindex: a dead key is as good as a live one. */
  method FindFirst(t: Table, k: Key) returns (n: int, ghost m: nat)
    requires t.Valid()
    ensures var start := MainPosition(t.hash, k, t.node.Length);
      if n == NONE then forall j: nat, r :: !FirstAt(t.node[..], start, k, j, r) else FirstAt(t.node[..], start, k, m, n)
  {
    ghost var ns := t.node[..];
    ghost var rank :| Ranked(ns, rank);
    n := MainPosition(t.hash, k, t.node.Length);
    ghost var start := n;
    m := 0;
    assert |ns| > 0 && LinksOk(ns) && forall i :: 0 <= i < |ns| && ns[i].dead ==> ns[i].key.OtherKey?;
    hide Walk, FirstAt, TableOk;
    WalkStart(ns, start);
    while n != NONE
      invariant NONE <= n < |ns| && Walk(ns, start, m) == n
      invariant forall j: nat :: j < m ==> Passed(ns, start, k, j)
      decreases if n == NONE then 0 else rank[n] + 1
    {
      if (t.node[n].key == k && !t.node[n].dead) || (t.node[n].dead && k.OtherKey? && t.node[n].key == k) {
        FoundFirst(ns, start, k, m, n);
        return;
      }
      WalkOne(ns, start, m);
      n := t.node[n].next;
      m := m + 1;
    }
    NotInChain(ns, start, k, m);
  }

  lemma FoundFirst(ns: seq<Node>, start: int, k: Key, m: nat, n: int)
    requires LinksOk(ns) && NONE <= start < |ns| && Walk(ns, start, m) == n && 0 <= n < |ns| && ns[n].key == k
    requires forall j: nat :: j < m ==> Passed(ns, start, k, j)
    ensures FirstAt(ns, start, k, m, n)
  {
  }

  /** findindex: -1 for nil; not found is the error "invalid key to 'next'". */
  method FindIndex(t: Table, k: Key) returns (found: bool, i: int)
    requires t.Valid()
    ensures found ==> -1 <= i < Slots(t.items, t.node[..]) && IsIndex(t.hash, t.items, t.node[..], k, i)
    ensures !found ==> forall j :: !IsIndex(t.hash, t.items, t.node[..], k, j)
  {
    if k == NilKey { return true, -1; }
    if InArray(k, |t.items|) { return true, k.n - 1; }
    var n, m := FindFirst(t, k);
    found := n != NONE;
    i := n + |t.items|;
  }

  lemma WalkStart(ns: seq<Node>, start: int)
    requires LinksOk(ns) && NONE <= start < |ns|
    ensures Walk(ns, start, 0) == start
  {
  }

  lemma WalkOne(ns: seq<Node>, start: int, m: nat)
    requires LinksOk(ns) && NONE <= start < |ns| && Walk(ns, start, m) != NONE
    ensures Walk(ns, start, m + 1) == ns[Walk(ns, start, m)].next
  {
    WalkAdd(ns, start, m, 1);
    assert Walk(ns, Walk(ns, start, m), 1) == Walk(ns, ns[Walk(ns, start, m)].next, 0);
  }

  lemma NotInChain(ns: seq<Node>, start: int, k: Key, m: nat)
    requires LinksOk(ns) && NONE <= start < |ns| && Walk(ns, start, m) == NONE
    requires forall j: nat :: j < m ==> Passed(ns, start, k, j)
    ensures forall j: nat, r :: !FirstAt(ns, start, k, j, r)
  {
    forall j: nat, r
      ensures !FirstAt(ns, start, k, j, r)
    {
      if j >= m { WalkAdd(ns, start, m, j - m); } else { assert Passed(ns, start, k, j); }
    }
  }

  /** What luaH_next says of the entry after slot i. */
  function EntryAfter(items: seq<Value>, ns: seq<Node>, i: int): Next
    requires -1 <= i < Slots(items, ns)
  {
    var j := NextSlot(items, ns, i);
    if j == Slots(items, ns) then NoMore else Entry(KeyAt(items, ns, j), ValAt(items, ns, j))
  }

  /** The scanning loops of luaH_next. */
  method ScanFrom(t: Table, i: int) returns (r: Next)
    requires t.Valid() && -1 <= i < Slots(t.items, t.node[..])
    ensures r == EntryAfter(t.items, t.node[..], i)
  {
    hide TableOk, IsIndex;
    ghost var ns := t.node[..];
    var j := i + 1;
    while j < |t.items|
      invariant i < j <= Slots(t.items, ns) && NextSlot(t.items, ns, i) == NextSlot(t.items, ns, j - 1)
    {
      if t.items[j] != Nil { return Entry(IntKey(j + 1), t.items[j]); }
      j := j + 1;
    }
    j := j - |t.items|;
    while j < t.node.Length
      invariant 0 <= j <= |ns| && i < j + |t.items| && NextSlot(t.items, ns, i) == NextSlot(t.items, ns, j + |t.items| - 1)
    {
      if t.node[j].val != Nil { return Entry(t.node[j].key, t.node[j].val); }
      j := j + 1;
    }
    r := NoMore;
  }

  /** luaH_next. */
  method NextEntry(t: Table, k: Key) returns (r: Next)
    requires t.Valid()
    ensures r == InvalidKey ==> forall i :: !IsIndex(t.hash, t.items, t.node[..], k, i)
    ensures r != InvalidKey ==>
      (exists i :: -1 <= i < Slots(t.items, t.node[..]) && IsIndex(t.hash, t.items, t.node[..], k, i) && r == EntryAfter(t.items, t.node[..], i))
  {
    var found, i := FindIndex(t, k);
    if !found { return InvalidKey; }
    r := ScanFrom(t, i);
  }
}
