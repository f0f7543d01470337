/** Lua tables as the source keeps them: an array part and a hash part that is changed in place, and
    grown when it is full.  Every operation agrees with a plain map from keys to values. */
module TableClass {
  import opened TableNodes
  import opened TableMap
  import opened TableRehash

  /** Where the value of a key is kept. */
  datatype Slot = ItemSlot(i: nat) | NodeSlot(i: nat)

  datatype SetResult = Ok(slot: Slot) | IndexIsNil | IndexIsNaN

  /** Every key but these two can be stored. */
  predicate Proper(k: Key) { k != NilKey && k != NaNKey }

  ghost predicate PowerOfTwo(n: nat) { exists l: nat :: n == TwoTo(l) }

  /** All nodes from lastfree up are in use. */
  predicate UsedFrom(ns: seq<Node>, lastfree: int) { forall i :: 0 <= i < |ns| && lastfree <= i ==> !Free(ns[i]) }

  ghost predicate TableOk(hash: Hash, items: seq<Value>, ns: seq<Node>, dummy: bool, lastfree: int) {
    && ChainsOk(hash, ns) && KeysOk(ns, |items|) && |items| <= TwoTo(MAXBITS) && PowerOfTwo(|ns|)
    && lastfree <= |ns|
    && (if dummy then |ns| == 1 && ns[0] == EMPTY && lastfree <= 0 else UsedFrom(ns, lastfree))
  }

  /** No key can be put in without growing the table. */
  predicate Full(ns: seq<Node>, dummy: bool) { dummy || forall i :: 0 <= i < |ns| ==> !Free(ns[i]) }

  lemma NotFull(ns: seq<Node>, dummy: bool)
    requires !dummy && UsedCount(ns, |ns|) < |ns|
    ensures !Full(ns, dummy)
  {
    if Full(ns, dummy) {
      AllUsed(ns, |ns|);
    }
  }

  /** A key that is not found in the chain of its main position is not there. */
  lemma StartOfSearch(hash: Hash, ns: seq<Node>, k: Key, j: nat)
    requires ChainsOk(hash, ns) && j < |ns| && Live(ns[j]) && ns[j].key == k
    ensures Reaches(ns, MainPosition(hash, k, |ns|), j)
  {
    assert HomeOk(hash, ns, j);
  }

  lemma NothingFromNone(ns: seq<Node>)
    requires LinksOk(ns)
    ensures forall j :: !Reaches(ns, NONE, j)
  {
    assert forall k: nat :: Walk(ns, NONE, k) == NONE;
  }

  /** The entry of node i of r comes from ns. */
  predicate Carried(ns: seq<Node>, r: seq<Node>, i: nat)
    requires i < |r|
  {
    exists j :: 0 <= j < |ns| && Carries(ns, j, r, i)
  }

  /** What putting a key in leaves: the values of all keys, and a named slot for the new one. */
  lemma PutIn(hash: Hash, items: seq<Value>, ns: seq<Node>, r: seq<Node>, k: Key, p: nat)
    requires KeysOk(ns, |items|) && Unique(r) && Proper(k) && !InArray(k, |items|) && |r| == |ns| && p < |r|
    requires r[p].key == k && !r[p].dead && r[p].val == Nil
    requires forall i :: 0 <= i < |r| && i != p ==> Carried(ns, r, i)
    ensures KeysOk(r, |items|)
  {
    forall i | 0 <= i < |r|
      ensures (r[i].val != Nil ==> Live(r[i])) && (Live(r[i]) ==> !InArray(r[i].key, |items|) && r[i].key != NaNKey)
      ensures r[i].dead ==> r[i].key.OtherKey?
    {
      if i != p {
        assert Carried(ns, r, i);
        var j :| 0 <= j < |ns| && Carries(ns, j, r, i);
      }
    }
  }

  lemma TakePlaceDone(hash: Hash, items: seq<Value>, ns: seq<Node>, k: Key)
    requires ChainsOk(hash, ns) && KeysOk(ns, |items|) && NotPresent(ns, k) && Proper(k) && !InArray(k, |items|)
    requires ns[MainPosition(hash, k, |ns|)].val == Nil
    ensures var r := TakePlace(ns, MainPosition(hash, k, |ns|), k);
      ChainsOk(hash, r) && KeysOk(r, |items|) && forall x :: ValueOf(items, r, x) == ValueOf(items, ns, x)
  {
    hide HomeOk, Acyclic;
    var mp := MainPosition(hash, k, |ns|);
    var r := TakePlace(ns, mp, k);
    TakePlaceOk(hash, ns, k);
    forall i | 0 <= i < |r| && i != mp
      ensures Carried(ns, r, i)
    {
      assert Carries(ns, i, r, i);
    }
    PutIn(hash, items, ns, r, k, mp);
    forall x ensures ValueOf(items, r, x) == ValueOf(items, ns, x) { TakePlaceKeeps(ns, mp, k, x); }
  }

  lemma ChainInDone(hash: Hash, items: seq<Value>, ns: seq<Node>, n: nat, k: Key)
    requires ChainsOk(hash, ns) && KeysOk(ns, |items|) && NotPresent(ns, k) && Proper(k) && !InArray(k, |items|)
    requires var mp := MainPosition(hash, k, |ns|); n < |ns| && Free(ns[n]) && ns[mp].val != Nil && Main(hash, ns, mp) == mp
    ensures var r := ChainIn(ns, MainPosition(hash, k, |ns|), n, k);
      ChainsOk(hash, r) && KeysOk(r, |items|) && forall x :: ValueOf(items, r, x) == ValueOf(items, ns, x)
  {
    hide HomeOk, Acyclic;
    var mp := MainPosition(hash, k, |ns|);
    var r := ChainIn(ns, mp, n, k);
    ChainInOk(hash, ns, n, k);
    forall i | 0 <= i < |r| && i != n
      ensures Carried(ns, r, i)
    {
      assert Carries(ns, i, r, i);
    }
    PutIn(hash, items, ns, r, k, n);
    forall x ensures ValueOf(items, r, x) == ValueOf(items, ns, x) { ChainInKeeps(ns, mp, n, k, x); }
  }

  lemma MoveOutDone(hash: Hash, items: seq<Value>, ns: seq<Node>, n: nat, prev: nat, k: Key)
    requires ChainsOk(hash, ns) && KeysOk(ns, |items|) && NotPresent(ns, k) && Proper(k) && !InArray(k, |items|)
    requires var mp := MainPosition(hash, k, |ns|);
      n < |ns| && prev < |ns| && Free(ns[n]) && ns[mp].val != Nil && Main(hash, ns, mp) != mp && ns[prev].next == mp && prev != mp
    ensures var r := MoveOut(ns, MainPosition(hash, k, |ns|), n, prev, k);
      ChainsOk(hash, r) && KeysOk(r, |items|) && forall x :: ValueOf(items, r, x) == ValueOf(items, ns, x)
  {
    hide HomeOk, Acyclic;
    var mp := MainPosition(hash, k, |ns|);
    var r := MoveOut(ns, mp, n, prev, k);
    MoveOutOk(hash, ns, n, prev, k);
    forall i | 0 <= i < |r| && i != mp
      ensures Carried(ns, r, i)
    {
      assert Carries(ns, if i == n then mp else i, r, i);
    }
    PutIn(hash, items, ns, r, k, mp);
    forall x ensures ValueOf(items, r, x) == ValueOf(items, ns, x) { MoveOutKeeps(ns, mp, n, prev, k, x); }
  }

  // ---------- growing: what has been moved so far ----------

  /** The values of a table of which only the array slots up to m and up to a, and the nodes from h on,
      have been moved to the new one. */
  ghost function Partial(items: seq<Value>, ns: seq<Node>, m: nat, a: nat, h: nat, k: Key): Value
    requires h <= |ns|
  {
    if InArray(k, |items|) then (if k.n <= m || k.n <= a then items[k.n - 1] else Nil) else NodeVal(ns[h..], k)
  }

  lemma PartialStart(items: seq<Value>, ns: seq<Node>, m: nat, k: Key)
    ensures Partial(items, ns, m, m, |ns|, k) == if InArray(k, Min(m, |items|)) then items[k.n - 1] else Nil
  {
    assert ns[|ns|..] == [];
  }

  lemma PartialEnd(items: seq<Value>, ns: seq<Node>, m: nat, a: nat, k: Key)
    requires |items| <= m || |items| <= a
    ensures Partial(items, ns, m, a, 0, k) == ValueOf(items, ns, k)
  {
    assert ns[0..] == ns;
  }

  /** Moving one array slot. */
  lemma PartialItem(items: seq<Value>, ns: seq<Node>, m: nat, a: nat, h: nat, k: Key)
    requires h <= |ns| && m <= a < |items|
    ensures Partial(items, ns, m, a + 1, h, k) == if k == IntKey(a + 1) then items[a] else Partial(items, ns, m, a, h, k)
    ensures Partial(items, ns, m, a, h, IntKey(a + 1)) == Nil
  {
  }

  lemma UniqueSuffix(ns: seq<Node>, h: nat)
    requires Unique(ns) && h <= |ns|
    ensures Unique(ns[h..])
  {
  }

  /** Moving one node. */
  lemma PartialNode(items: seq<Value>, ns: seq<Node>, m: nat, a: nat, h: nat, k: Key)
    requires KeysOk(ns, |items|) && h < |ns|
    ensures Partial(items, ns, m, a, h, k)
         == if ns[h].val != Nil && k == ns[h].key then ns[h].val else Partial(items, ns, m, a, h + 1, k)
    ensures ns[h].val != Nil ==> Partial(items, ns, m, a, h + 1, ns[h].key) == Nil
  {
    var more, rest := ns[h..], ns[h + 1..];
    UniqueSuffix(ns, h);
    UniqueSuffix(ns, h + 1);
    assert more == [ns[h]] + rest;
    if ns[h].val != Nil {
      assert Live(ns[h]);
      NodeValIs(more, 0);
      assert NotPresent(rest, ns[h].key);
      NodeValAbsent(rest, ns[h].key);
    }
    if !InArray(k, |items|) && !(ns[h].val != Nil && k == ns[h].key) {
      forall v | v != Nil
        ensures HasVal(more, k, v) <==> HasVal(rest, k, v)
      {
        if HasVal(rest, k, v) {
          var i :| 0 <= i < |rest| && Live(rest[i]) && rest[i].key == k && rest[i].val == v;
          assert more[i + 1] == rest[i];
        }
        if HasVal(more, k, v) {
          var i :| 0 <= i < |more| && Live(more[i]) && more[i].key == k && more[i].val == v;
          assert i > 0 && rest[i - 1] == more[i];
        }
      }
      SameEntries(more, rest, k);
    }
  }

  // ---------- growing: room for everything ----------

  /** How many entries still have to go to the new hash part. */
  function ToMove(items: seq<Value>, ns: seq<Node>, m: nat, a: nat, h: nat): int
    requires h <= |ns|
  {
    (if |items| <= m then 0 else ItemCount(items, |items|) - ItemsUpTo(items, a)) + NodeCount(ns, h) - NodeInts(ns, h, m)
  }

  lemma ToMoveItem(items: seq<Value>, ns: seq<Node>, m: nat, a: nat, h: nat)
    requires m <= a < |items| && h <= |ns|
    ensures ToMove(items, ns, m, a, h) == ToMove(items, ns, m, a + 1, h) + if items[a] == Nil then 0 else 1
    ensures ToMove(items, ns, m, a + 1, h) >= 0
  {
    ItemCountMonotone(items, a + 1, |items|);
    NodeIntsMonotone(ns, h, m, m);
  }

  lemma ToMoveNode(items: seq<Value>, ns: seq<Node>, m: nat, a: nat, h: nat)
    requires h < |ns|
    ensures ToMove(items, ns, m, a, h + 1) == ToMove(items, ns, m, a, h) + if ns[h].val != Nil && !InArray(ns[h].key, m) then 1 else 0
    ensures ToMove(items, ns, m, a, h) >= 0
  {
    ItemCountMonotone(items, Min(a, |items|), |items|);
    NodeIntsMonotone(ns, h, m, m);
  }

  /** The size that rehash computes leaves room for everything, and for the extra key. */
  lemma RoomForAll(items: seq<Value>, ns: seq<Node>, ek: Key, n: nat)
    ensures ToMove(items, ns, n, n, |ns|) + 1 == ItemCount(items, |items|) + NodeCount(ns, |ns|) + 1 - InUse(items, ns, ek, n) + One(ek, n)
    ensures ToMove(items, ns, n, n, |ns|) >= 0
  {
    NodeIntsMonotone(ns, |ns|, n, n);
    ItemCountMonotone(items, Min(n, |items|), |items|);
  }

  lemma FreshNodes(hash: Hash, n: nat, asize: nat)
    requires n > 0
    ensures var ns := seq(n, i => EMPTY); ChainsOk(hash, ns) && KeysOk(ns, asize) && UsedCount(ns, n) == 0
  {
    var ns := seq(n, i => EMPTY);
    assert Ranked(ns, seq(n, i => 0));
    NoneUsed(n, n);
  }

  /** Before anything is moved the new table has what stays in the array part. */
  lemma ResizeStart(hash: Hash, was: seq<Value>, ns: seq<Node>, items: seq<Value>, r: seq<Node>, n: nat)
    requires ChainsOk(hash, r) && forall i :: 0 <= i < |r| ==> r[i] == EMPTY
    requires items == if n > |was| then was + seq(n - |was|, i => Nil) else was[..n]
    ensures KeysOk(r, n) && forall x :: ValueOf(items, r, x) == Partial(was, ns, n, n, |ns|, x)
  {
    forall x
      ensures ValueOf(items, r, x) == Partial(was, ns, n, n, |ns|, x)
    {
      PartialStart(was, ns, n, x);
      NodeValAbsent(r, x);
    }
  }

  lemma BelowIs(l: nat)
    ensures Below(l + 1) == TwoTo(l)
  {
  }

  /** What the counting loops have put into nums. */
  lemma RehashCounts(nums: seq<nat>, items: seq<Value>, ns: seq<Node>, ek: Key)
    requires |nums| == MAXBITS + 1 && forall l :: 0 <= l <= MAXBITS ==> nums[l] == ItemSlice(items, l) + NodeSlice(ns, |ns|, l) + OneSlice(ek, l)
    requires KeysOk(ns, |items|) && NotPresent(ns, ek) && !InArray(ek, |items|) && |items| <= TwoTo(MAXBITS)
    ensures Counted(nums, items, ns, ek)
    ensures Sum(nums, MAXBITS + 1) == ItemCount(items, |items|) + NodeInts(ns, |ns|, TwoTo(MAXBITS)) + One(ek, TwoTo(MAXBITS))
    ensures forall j :: 0 <= j <= MAXBITS ==> Sum(nums, j + 1) <= TwoTo(j)
  {
    hide ItemSlice, NodeSlice, OneSlice, KeysOk, NotPresent, NodeInts, ItemCount;
    SumsAreUse(nums, items, ns, ek, MAXBITS + 1);
    BelowIs(MAXBITS);
    forall j | 0 <= j <= MAXBITS
      ensures Sum(nums, j + 1) <= TwoTo(j)
    {
      SumsAreUse(nums, items, ns, ek, j + 1);
      BelowIs(j);
      InUseBound(items, ns, ek, TwoTo(j));
    }
  }

  /** No more than half of the slots 1..2^j are in use. */
  predicate Sparse(items: seq<Value>, ns: seq<Node>, ek: Key, j: nat) { InUse(items, ns, ek, TwoTo(j)) <= TwoTo(j) / 2 }

  /** n is the size rehash is meant to choose: the largest power of two such that more than half of
      the slots 1..n are in use (the extra key counted), or 0 if there is none. */
  ghost predicate Optimal(items: seq<Value>, ns: seq<Node>, ek: Key, n: nat) {
    if n == 0 then forall j :: 0 <= j <= MAXBITS ==> Sparse(items, ns, ek, j)
    else exists i :: 0 <= i <= MAXBITS && n == TwoTo(i) && !Sparse(items, ns, ek, i)
                     && (forall j :: i < j <= MAXBITS ==> Sparse(items, ns, ek, j))
  }

  lemma SumIsUse(nums: seq<nat>, items: seq<Value>, ns: seq<Node>, ek: Key, j: nat)
    requires Counted(nums, items, ns, ek) && |nums| == MAXBITS + 1 && j <= MAXBITS
    ensures Sum(nums, j + 1) == InUse(items, ns, ek, TwoTo(j))
    ensures Sparse(items, ns, ek, j) <==> Sum(nums, j + 1) <= TwoTo(j) / 2
  {
    hide Counted, Sum, InUse;
    SumsAreUse(nums, items, ns, ek, j + 1);
    BelowIs(j);
  }

  /** The size chosen is the optimal one, and na the number of its slots in use. */
  lemma BestIsUse(nums: seq<nat>, items: seq<Value>, ns: seq<Node>, ek: Key, n: nat, na: nat)
    requires Counted(nums, items, ns, ek) && |nums| == MAXBITS + 1 && Best(nums, n, na)
    ensures na == InUse(items, ns, ek, n) && n <= TwoTo(MAXBITS) && Optimal(items, ns, ek, n)
  {
    hide Counted, Sum, InUse, Sparse, TwoTo;
    forall j | 0 <= j <= MAXBITS
      ensures Sum(nums, j + 1) == InUse(items, ns, ek, TwoTo(j))
      ensures Sparse(items, ns, ek, j) <==> Sum(nums, j + 1) <= TwoTo(j) / 2
    {
      SumIsUse(nums, items, ns, ek, j);
    }
    if n == 0 {
      NoneInUse(items, ns, ek);
    } else {
      var i :| 0 <= i <= MAXBITS && n == TwoTo(i) && na == Sum(nums, i + 1) && na > TwoTo(i) / 2
               && forall j :: i < j <= MAXBITS ==> Sum(nums, j + 1) <= TwoTo(j) / 2;
      TwoToMonotone(i, MAXBITS);
    }
  }

  lemma UseIsPart(items: seq<Value>, ns: seq<Node>, ek: Key, n: nat)
    ensures InUse(items, ns, ek, n) <= ItemCount(items, |items|) + NodeCount(ns, |ns|) + 1
  {
    NodeIntsMonotone(ns, |ns|, n, n);
    ItemCountMonotone(items, Min(n, |items|), |items|);
  }

  /** When everything is moved every key has its old value, and nothing is left to move. */
  lemma ResizeEnd(was: seq<Value>, ns: seq<Node>, n: nat)
    ensures var a := if n < |was| then |was| else n;
      (forall x :: Partial(was, ns, n, a, 0, x) == ValueOf(was, ns, x)) && ToMove(was, ns, n, a, 0) == 0
  {
    forall x { PartialEnd(was, ns, n, if n < |was| then |was| else n, x); }
  }

  /** A dead key stays in its chain. */
  lemma SomeNode(hash: Hash, ns: seq<Node>)
    requires ChainsOk(hash, ns)
    ensures |ns| > 0
  {
  }

  lemma DeadRanked(ns: seq<Node>, i: nat)
    requires i < |ns| && Acyclic(ns)
    ensures Acyclic(ns[i := ns[i].(dead := true)])
  {
    var rank :| Ranked(ns, rank);
    assert Ranked(ns[i := ns[i].(dead := true)], rank);
  }

  lemma DeadHome(hash: Hash, ns: seq<Node>, i: nat, j: nat)
    requires LinksOk(ns) && i < |ns| && j < |ns| && !Free(ns[i]) && HomeOk(hash, ns, j)
    ensures var r := ns[i := ns[i].(dead := true)]; LinksOk(r) && HomeOk(hash, r, j)
  {
    hide Reaches;
    var r := ns[i := ns[i].(dead := true)];
    if !Free(ns[j]) { SameReaches(ns, r, Main(hash, ns, j), j); }
  }

  lemma DeadFirst(ns: seq<Node>, i: nat)
    requires LinksOk(ns) && i < |ns| && LiveFirst(ns) && Unique(ns)
    ensures var r := ns[i := ns[i].(dead := true)]; LinksOk(r) && LiveFirst(r)
  {
    hide Reaches;
    var r := ns[i := ns[i].(dead := true)];
    forall a, b | 0 <= a < |r| && 0 <= b < |r| && SameDead(r, a, b)
      ensures Reaches(r, a, b)
    {
      assert SameDead(ns, a, b);
      SameReaches(ns, r, a, b);
    }
  }

  lemma DeadChains(hash: Hash, ns: seq<Node>, i: nat)
    requires ChainsOk(hash, ns) && i < |ns| && !Free(ns[i])
    ensures ChainsOk(hash, ns[i := ns[i].(dead := true)])
  {
    hide Acyclic, HomeOk, LiveFirst;
    var r := ns[i := ns[i].(dead := true)];
    DeadRanked(ns, i);
    forall j | 0 <= j < |r|
      ensures HomeOk(hash, r, j)
    {
      DeadHome(hash, ns, i, j);
    }
    DeadFirst(ns, i);
  }

  lemma DeadValues(ns: seq<Node>, i: nat, x: Key)
    requires Unique(ns) && i < |ns| && ns[i].val == Nil
    ensures NodeVal(ns[i := ns[i].(dead := true)], x) == NodeVal(ns, x)
  {
    var r := ns[i := ns[i].(dead := true)];
    forall v | v != Nil
      ensures HasVal(ns, x, v) <==> HasVal(r, x, v)
    {
      if HasVal(ns, x, v) {
        var j :| 0 <= j < |ns| && Live(ns[j]) && ns[j].key == x && ns[j].val == v;
        assert r[j] == ns[j];
      }
      if HasVal(r, x, v) {
        var j :| 0 <= j < |r| && Live(r[j]) && r[j].key == x && r[j].val == v;
        assert r[j] == ns[j];
      }
    }
    SameEntries(ns, r, x);
  }

  class Table {
    const hash: Hash
    var items: seq<Value>
    var node: array<Node>
    var dummy: bool
    var lastfree: int

    /** luaH_new. */
    constructor (h: Hash, narray: nat, nhash: nat)
      requires narray <= TwoTo(MAXBITS)
      ensures Valid() && fresh(node) && hash == h && |items| == narray && node.Length >= nhash
      ensures forall k :: At(k) == Nil
    {
      hide ChainsOk, KeysOk, PowerOfTwo, NodeVal, TwoTo, Partial, UsedCount;
      hash := h;
      items := seq(narray, i => Nil);
      node := new Node[1](_ => EMPTY);
      dummy := true;
      lastfree := 0;
      new;
      SetNodeVector(nhash);
      ResizeStart(hash, [], [], items, node[..], narray);
      forall k ensures At(k) == Nil { NodeValAbsent(node[..], k); }
    }

    ghost predicate Valid()
      reads this, node
    {
      TableOk(hash, items, node[..], dummy, lastfree)
    }

    /** The value of a key. */
    ghost function At(k: Key): Value
      reads this, node
    {
      ValueOf(items, node[..], k)
    }

    ghost predicate Names(s: Slot, k: Key)
      reads this, node
    {
      match s
      case ItemSlot(i) => InArray(k, |items|) && i == k.n - 1
      case NodeSlot(i) => i < node.Length && Live(node[i]) && node[i].key == k && !InArray(k, |items|)
    }

    // ---------- search ----------

    /** The loop of luaH_get and its variants: down the chain of the main position. */
    method FindNode(k: Key) returns (n: int)
      requires Valid() && k != NilKey
      ensures n == NONE ==> NotPresent(node[..], k)
      ensures n != NONE ==> 0 <= n < node.Length && Live(node[n]) && node[n].key == k
    {
      hide Reaches;
      ghost var ns := node[..];
      n := MainPosition(hash, k, node.Length);
      ghost var rank :| Ranked(ns, rank);
      forall j | 0 <= j < |ns| && Live(ns[j]) && ns[j].key == k
        ensures Reaches(ns, n, j)
      {
        StartOfSearch(hash, ns, k, j);
      }
      while n != NONE
        invariant NONE <= n < |ns|
        invariant forall j :: 0 <= j < |ns| && Live(ns[j]) && ns[j].key == k ==> Reaches(ns, n, j)
        decreases if n == NONE then 0 else rank[n] + 1
      {
        if node[n].key == k && !node[n].dead { return; }
        forall j | 0 <= j < |ns| && Live(ns[j]) && ns[j].key == k
          ensures Reaches(ns, ns[n].next, j)
        {
          ReachesOn(ns, n, j);
        }
        n := node[n].next;
      }
      NothingFromNone(ns);
    }

    /** luaH_get. */
    method Get(k: Key) returns (v: Value)
      requires Valid()
      ensures v == At(k)
    {
      if k == NilKey {
        NodeValAbsent(node[..], k);
        return Nil;
      }
      if InArray(k, |items|) { return items[k.n - 1]; }
      var n := FindNode(k);
      if n == NONE {
        NodeValAbsent(node[..], k);
        v := Nil;
      } else {
        NodeValIs(node[..], n);
        v := node[n].val;
      }
    }

    // ---------- a new key ----------

    /** getfreepos: downwards from the last node given out. */
    method GetFreePos() returns (n: int)
      requires Valid()
      modifies this`lastfree
      ensures n == NONE ==> Valid() && Full(node[..], dummy)
      ensures n != NONE ==> 0 <= n < node.Length && Free(node[n]) && !dummy && lastfree == n && UsedFrom(node[..], n + 1)
    {
      hide ChainsOk, KeysOk;
      while lastfree > 0
        invariant Valid()
        decreases lastfree
      {
        lastfree := lastfree - 1;
        if Free(node[lastfree]) { return lastfree; }
      }
      lastfree := lastfree - 1;
      n := NONE;
    }

    /** The node before mp in the chain that leads to it. */
    method FindPrevious(start: nat, mp: nat) returns (prev: nat)
      requires ChainsOk(hash, node[..]) && start < node.Length && mp < node.Length && start != mp && Reaches(node[..], start, mp)
      ensures prev < node.Length && prev != mp && node[prev].next == mp
    {
      hide Reaches;
      ghost var ns := node[..];
      ghost var rank :| Ranked(ns, rank);
      prev := start;
      ReachesOn(ns, prev, mp);
      while node[prev].next != mp
        invariant 0 <= prev < |ns| && prev != mp && 0 <= ns[prev].next < |ns| && Reaches(ns, ns[prev].next, mp)
        decreases rank[prev]
      {
        prev := node[prev].next;
        ReachesOn(ns, prev, mp);
      }
    }

    /** newkey, once a free node has been found (n), or when none is needed (NONE). */
    method Place(k: Key, n: int) returns (p: nat)
      requires ChainsOk(hash, node[..]) && KeysOk(node[..], |items|) && NotPresent(node[..], k) && Proper(k) && !InArray(k, |items|)
      requires var mp := MainPosition(hash, k, node.Length); if n == NONE then node[mp].val == Nil else 0 <= n < node.Length && Free(node[n]) && node[mp].val != Nil
      modifies node
      ensures ChainsOk(hash, node[..]) && KeysOk(node[..], |items|)
      ensures Names(NodeSlot(p), k) && forall x :: At(x) == old(At(x))
      ensures forall i :: 0 <= i < node.Length && i != (if n == NONE then p else n) ==> (Free(node[i]) <==> Free(old(node[..])[i]))
      ensures n != NONE ==> !Free(node[n])
    {
      ghost var ns := node[..];
      var mp := MainPosition(hash, k, node.Length);
      if n == NONE {
        p := mp;
        node[p] := node[p].(key := k, dead := false);
        assert node[..] == TakePlace(ns, mp, k);
        TakePlaceDone(hash, items, ns, k);
        return;
      }
      var other := MainPosition(hash, node[mp].key, node.Length);
      if other != mp {
        assert HomeOk(hash, ns, mp);
        var prev := FindPrevious(other, mp);
        node[prev] := node[prev].(next := n);
        node[n] := node[mp];
        node[mp] := Node(k, false, Nil, NONE);
        assert node[..] == MoveOut(ns, mp, n, prev, k);
        MoveOutDone(hash, items, ns, n, prev, k);
        p := mp;
      } else {
        node[n] := Node(k, false, Nil, node[mp].next);
        node[mp] := node[mp].(next := n);
        assert node[..] == ChainIn(ns, mp, n, k);
        ChainInDone(hash, items, ns, n, k);
        p := n;
      }
    }

    /** newkey. */
    method NewKey(k: Key) returns (s: Slot)
      requires Valid() && Proper(k) && !InArray(k, |items|) && NotPresent(node[..], k)
      modifies this, node
      ensures Valid() && Names(s, k) && (forall x :: At(x) == old(At(x)))
      ensures node == old(node) || fresh(node)
      ensures !old(Full(node[..], dummy)) ==>
        (node == old(node) && items == old(items) && dummy == old(dummy)
         && UsedCount(node[..], node.Length) <= old(UsedCount(node[..], node.Length)) + 1)
      decreases if Full(node[..], dummy) then 5 else 0
    {
      hide ChainsOk, KeysOk, UsedCount, NodeVal, PowerOfTwo, TwoTo, ValueOf, Optimal, NotPresent;
      ghost var ns := node[..];
      SomeNode(hash, ns);
      var mp := MainPosition(hash, k, node.Length);
      var n := NONE;
      if node[mp].val != Nil || dummy {
        n := GetFreePos();
        if n == NONE {
          Rehash(k);
          var r := SlotFor(k);
          s := r.slot;
          return;
        }
      }
      var p := Place(k, n);
      UsedMore(ns, node[..], if n == NONE then p else n, node.Length);
      s := NodeSlot(p);
    }

    /** luaH_set, luaH_setnum and luaH_setstr: the slot of a key, made if it is not there. */
    method SlotFor(k: Key) returns (r: SetResult)
      requires Valid()
      modifies this, node
      ensures Valid() && (forall x :: At(x) == old(At(x)))
      ensures match r
              case Ok(s) => Proper(k) && Names(s, k)
              case IndexIsNil => k == NilKey
              case IndexIsNaN => k == NaNKey
      ensures node == old(node) || fresh(node)
      ensures !old(Full(node[..], dummy)) ==>
        (node == old(node) && items == old(items) && dummy == old(dummy)
         && UsedCount(node[..], node.Length) <= old(UsedCount(node[..], node.Length)) + 1)
      ensures InArray(k, |old(items)|) ==> node == old(node) && items == old(items) && dummy == old(dummy) && node[..] == old(node[..])
      decreases if InArray(k, |items|) then 0 else if Full(node[..], dummy) then 6 else 1
    {
      if InArray(k, |items|) { return Ok(ItemSlot(k.n - 1)); }
      if k == NilKey { return IndexIsNil; }
      var n := FindNode(k);
      if n != NONE { return Ok(NodeSlot(n)); }
      if k == NaNKey { return IndexIsNaN; }
      var s := NewKey(k);
      r := Ok(s);
    }

    /** Store into a slot. */
    method Store(s: Slot, ghost k: Key, v: Value)
      requires Valid() && Names(s, k) && Proper(k)
      modifies this`items, node
      ensures Valid() && (forall x :: At(x) == if x == k then v else old(At(x)))
      ensures |items| == |old(items)| && UsedCount(node[..], node.Length) == old(UsedCount(node[..], node.Length))
    {
      hide UsedCount, PowerOfTwo, TwoTo, NodeVal, HomeOk, LiveFirst, Acyclic;
      match s
      case ItemSlot(i) =>
        items := items[i := v];
      case NodeSlot(i) =>
        ghost var ns := node[..];
        node[i] := node[i].(val := v);
        assert node[..] == ns[i := ns[i].(val := v)];
        StoreChains(hash, ns, i, v);
        forall x ensures At(x) == if x == k then v else old(At(x)) { StoreVal(ns, i, v, x); }
        UsedMore(ns, node[..], i, node.Length);
        UsedMore(node[..], ns, i, node.Length);
    }

    /** t[k] = v: the map changes at k alone, or the key is refused and nothing changes. */
    method Set(k: Key, v: Value) returns (r: SetResult)
      requires Valid()
      modifies this, node
      ensures Valid() && (r.Ok? <==> Proper(k))
      ensures forall x :: At(x) == if r.Ok? && x == k then v else old(At(x))
      ensures k == NilKey ==> r == IndexIsNil
      ensures k == NaNKey ==> r == IndexIsNaN
    {
      r := SlotFor(k);
      if r.Ok? { Store(r.slot, k, v); }
    }

    /** removeentry: the collector kills the key of an empty entry. */
    method RemoveEntry(i: nat)
      requires Valid() && i < node.Length && node[i].val == Nil
      modifies node
      ensures Valid() && (forall x :: At(x) == old(At(x)))
      ensures forall j :: 0 <= j < node.Length ==> node[j].key == old(node[j].key) && node[j].next == old(node[j].next) && node[j].val == old(node[j].val)
    {
      if node[i].key.OtherKey? {
        ghost var ns := node[..];
        DeadChains(hash, ns, i);
        node[i] := node[i].(dead := true);
        assert node[..] == ns[i := ns[i].(dead := true)];
        forall x ensures At(x) == old(At(x)) { DeadValues(ns, i, x); }
      }
    }

    // ---------- rehash ----------

    /** setnodevector. */
    method SetNodeVector(size: nat)
      modifies this`node, this`dummy, this`lastfree
      ensures fresh(node) && ChainsOk(hash, node[..]) && PowerOfTwo(node.Length) && node.Length >= size
      ensures (forall i :: 0 <= i < node.Length ==> node[i] == EMPTY) && UsedCount(node[..], node.Length) == 0
      ensures dummy == (size == 0) && (dummy ==> node.Length == 1) && lastfree == if dummy then 0 else node.Length
    {
      var n := 1;
      if size > 0 {
        n := TwoTo(CeilLog2(size));
        CeilLog2Is(size);
      } else {
        assert TwoTo(0) == 1;
      }
      node := new Node[n](_ => EMPTY);
      assert node[..] == seq(n, i => EMPTY);
      FreshNodes(hash, n, 0);
      dummy := size == 0;
      lastfree := if size == 0 then 0 else n;
    }

    /** setobjt2t(L, luaH_set(L, t, k), v): move one entry into the table. */
    method MoveEntry(k: Key, v: Value)
      requires Valid() && Proper(k) && (InArray(k, |items|) || !Full(node[..], dummy))
      modifies this, node
      ensures Valid() && node == old(node) && |items| == |old(items)| && dummy == old(dummy)
      ensures forall x :: At(x) == if x == k then v else old(At(x))
      ensures UsedCount(node[..], node.Length) <= old(UsedCount(node[..], node.Length)) + if InArray(k, |items|) then 0 else 1
      decreases 2
    {
      hide TableOk, UsedCount;
      var r := SlotFor(k);
      Store(r.slot, k, v);
    }

    /** The entries outside the first a slots and the nodes from h on have still to be moved, and there is room. */
    ghost predicate Moving(was: seq<Value>, ns: seq<Node>, n: nat, a: nat, h: nat, nhsize: nat, room: int)
      requires h <= |ns|
      reads this, node
    {
      && Valid() && |items| == n && node.Length >= nhsize && dummy == (nhsize == 0) && room <= nhsize
      && (forall x :: At(x) == Partial(was, ns, n, a, h, x))
      && UsedCount(node[..], node.Length) + ToMove(was, ns, n, a, h) <= room
    }

    /** Re-insert the elements of the vanishing slice of the array part. */
    method MoveItems(was: seq<Value>, ghost ns: seq<Node>, n: nat, nhsize: nat, ghost room: int)
      requires Moving(was, ns, n, n, |ns|, nhsize, room) && KeysOk(ns, |was|)
      modifies this, node
      ensures node == old(node) && Moving(was, ns, n, if n < |was| then |was| else n, |ns|, nhsize, room)
      decreases 3, 0
    {
      hide TableOk, UsedCount, ItemCount, NodeCount, NodeInts;
      var i := n;
      while i < |was|
        invariant n <= i && (n < |was| ==> i <= |was|) && (n >= |was| ==> i == n)
        invariant node == old(node) && Moving(was, ns, n, i, |ns|, nhsize, room)
      {
        ToMoveItem(was, ns, n, i, |ns|);
        forall x ensures Partial(was, ns, n, i + 1, |ns|, x) == if x == IntKey(i + 1) then was[i] else Partial(was, ns, n, i, |ns|, x)
        {
          PartialItem(was, ns, n, i, |ns|, x);
        }
        PartialItem(was, ns, n, i, |ns|, NilKey);
        if was[i] != Nil {
          NotFull(node[..], dummy);
          MoveEntry(IntKey(i + 1), was[i]);
        }
        i := i + 1;
      }
    }

    /** Re-insert the elements of the old hash part. */
    method MoveNodes(was: seq<Value>, nold: array<Node>, n: nat, a: nat, nhsize: nat, ghost room: int)
      requires nold != node && Moving(was, nold[..], n, a, nold.Length, nhsize, room) && KeysOk(nold[..], |was|)
      modifies this, node
      ensures node == old(node) && Moving(was, nold[..], n, a, 0, nhsize, room)
      decreases 3, 0
    {
      hide TableOk, UsedCount, ItemCount, NodeCount, NodeInts;
      ghost var ns := nold[..];
      var h := nold.Length;
      while h > 0
        invariant 0 <= h <= |ns| && nold[..] == ns
        invariant node == old(node) && Moving(was, ns, n, a, h, nhsize, room)
      {
        h := h - 1;
        ToMoveNode(was, ns, n, a, h);
        forall x ensures Partial(was, ns, n, a, h, x)
                      == if ns[h].val != Nil && x == ns[h].key then ns[h].val else Partial(was, ns, n, a, h + 1, x)
        {
          PartialNode(was, ns, n, a, h, x);
        }
        if nold[h].val != Nil {
          var k := nold[h].key;
          assert Live(ns[h]) && Proper(k);
          if !InArray(k, |items|) { NotFull(node[..], dummy); }
          MoveEntry(k, nold[h].val);
        }
      }
    }

    /** resize. */
    method Resize(nasize: nat, nhsize: nat)
      requires Valid() && nasize <= TwoTo(MAXBITS) && ToMove(items, node[..], nasize, nasize, node.Length) <= nhsize
      modifies this, node
      ensures Valid() && fresh(node) && |items| == nasize && (forall x :: At(x) == old(At(x)))
      ensures node.Length >= nhsize && dummy == (nhsize == 0)
      ensures UsedCount(node[..], node.Length) <= old(ToMove(items, node[..], nasize, nasize, node.Length))
      decreases 3, 1
    {
      hide UsedCount, ItemCount, NodeCount, NodeInts, ChainsOk, Partial, ToMove, KeysOk, PowerOfTwo, NodeVal, TwoTo, ValueOf;
      var was, nold := items, node;
      ghost var ns := node[..];
      ghost var room := ToMove(was, ns, nasize, nasize, |ns|);
      items := if nasize > |items| then items + seq(nasize - |items|, i => Nil) else items[..nasize];
      SetNodeVector(nhsize);
      ResizeStart(hash, was, ns, items, node[..], nasize);
      MoveItems(was, ns, nasize, nhsize, room);
      MoveNodes(was, nold, nasize, if nasize < |was| then |was| else nasize, nhsize, room);
      ResizeEnd(was, ns, nasize);
    }

    /** rehash. */
    method Rehash(ek: Key)
      requires Valid() && Proper(ek) && !InArray(ek, |items|) && NotPresent(node[..], ek)
      modifies this, node
      ensures Valid() && fresh(node) && (forall x :: At(x) == old(At(x)))
      ensures InArray(ek, |items|) || !Full(node[..], dummy)
      ensures Optimal(old(items), old(node[..]), ek, |items|)
      decreases 4
    {
      hide Optimal, UsedCount, ItemCount, NodeCount, NodeInts, ChainsOk, Sum, Counted, Best, InUse, ToMove;
      ghost var ns := node[..];
      var nums := new nat[MAXBITS + 1](_ => 0);
      var nasize := NumUseArray(items, nums);
      var totaluse := nasize;
      var total, ause := NumUseHash(node, nums);
      totaluse, nasize := totaluse + total, nasize + ause;
      var c := CountInt(ek, nums);
      nasize := nasize + c;
      totaluse := totaluse + 1;
      RehashCounts(nums[..], items, ns, ek);
      var size, na := ComputeSizes(nums, nasize);
      BestIsUse(nums[..], items, ns, ek, size, na);
      UseIsPart(items, ns, ek, size);
      RoomForAll(items, ns, ek, size);
      Resize(size, totaluse - na);
      if !InArray(ek, |items|) { NotFull(node[..], dummy); }
    }
  }
}
