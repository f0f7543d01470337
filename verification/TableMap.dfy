/** What a table means: the value of every key; and that putting a key in changes no value. */
module TableMap {
  import opened TableNodes

  /** An integer key that lives in an array part of n slots. */
  predicate InArray(k: Key, n: nat) { k.IntKey? && 1 <= k.n <= n }

  /** k has value v in the hash part. */
  predicate HasVal(ns: seq<Node>, k: Key, v: Value) { exists i :: 0 <= i < |ns| && Live(ns[i]) && ns[i].key == k && ns[i].val == v }

  ghost function NodeVal(ns: seq<Node>, k: Key): Value {
    if v: Value :| v != Nil && HasVal(ns, k, v) then v else Nil
  }

  /** The value of a key: in the array part, in the hash part, or nil. */
  ghost function ValueOf(items: seq<Value>, ns: seq<Node>, k: Key): Value {
    if InArray(k, |items|) then items[k.n - 1] else NodeVal(ns, k)
  }

  lemma NodeValIs(ns: seq<Node>, i: nat)
    requires Unique(ns) && i < |ns| && Live(ns[i])
    ensures NodeVal(ns, ns[i].key) == ns[i].val
  {
    assert HasVal(ns, ns[i].key, ns[i].val);
  }

  lemma NodeValAbsent(ns: seq<Node>, k: Key)
    requires NotPresent(ns, k)
    ensures NodeVal(ns, k) == Nil
  {
  }

  /** Two hash parts with the same live, non-nil entries give every key the same value. */
  lemma SameEntries(a: seq<Node>, b: seq<Node>, k: Key)
    requires Unique(a) && Unique(b)
    requires forall v :: v != Nil ==> (HasVal(a, k, v) <==> HasVal(b, k, v))
    ensures NodeVal(a, k) == NodeVal(b, k)
  {
    if v: Value :| v != Nil && HasVal(a, k, v) {
      OnlyVal(a, k, v);
      OnlyVal(b, k, v);
    }
  }

  lemma OnlyVal(ns: seq<Node>, k: Key, v: Value)
    requires Unique(ns) && v != Nil && HasVal(ns, k, v)
    ensures NodeVal(ns, k) == v
  {
    var i :| 0 <= i < |ns| && Live(ns[i]) && ns[i].key == k && ns[i].val == v;
    NodeValIs(ns, i);
  }

  // ---------- putting a key in changes no value ----------

  /** Node j of r carries the entry of node i of ns. */
  predicate Carries(ns: seq<Node>, i: nat, r: seq<Node>, j: nat)
    requires i < |ns| && j < |r|
  {
    r[j].key == ns[i].key && r[j].dead == ns[i].dead && r[j].val == ns[i].val
  }

  lemma TakePlaceKeeps(ns: seq<Node>, mp: nat, k: Key, x: Key)
    requires Unique(ns) && mp < |ns| && ns[mp].val == Nil && Unique(TakePlace(ns, mp, k))
    ensures NodeVal(TakePlace(ns, mp, k), x) == NodeVal(ns, x)
  {
    var r := TakePlace(ns, mp, k);
    forall v | v != Nil
      ensures HasVal(ns, x, v) <==> HasVal(r, x, v)
    {
      if HasVal(ns, x, v) {
        var i :| 0 <= i < |ns| && Live(ns[i]) && ns[i].key == x && ns[i].val == v;
        assert r[i] == ns[i];
      }
      if HasVal(r, x, v) {
        var i :| 0 <= i < |r| && Live(r[i]) && r[i].key == x && r[i].val == v;
        assert r[i] == ns[i];
      }
    }
    SameEntries(ns, r, x);
  }

  lemma ChainInKeeps(ns: seq<Node>, mp: nat, n: nat, k: Key, x: Key)
    requires Unique(ns) && mp < |ns| && n < |ns| && mp != n && Free(ns[n]) && Unique(ChainIn(ns, mp, n, k))
    ensures NodeVal(ChainIn(ns, mp, n, k), x) == NodeVal(ns, x)
  {
    var r := ChainIn(ns, mp, n, k);
    forall v | v != Nil
      ensures HasVal(ns, x, v) <==> HasVal(r, x, v)
    {
      if HasVal(ns, x, v) {
        var i :| 0 <= i < |ns| && Live(ns[i]) && ns[i].key == x && ns[i].val == v;
        assert Carries(ns, i, r, i);
      }
      if HasVal(r, x, v) {
        var i :| 0 <= i < |r| && Live(r[i]) && r[i].key == x && r[i].val == v;
        assert Carries(ns, i, r, i);
      }
    }
    SameEntries(ns, r, x);
  }

  lemma MoveOutHas(ns: seq<Node>, mp: nat, n: nat, prev: nat, k: Key, x: Key, v: Value)
    requires mp < |ns| && n < |ns| && prev < |ns| && mp != n && prev != n && prev != mp && Free(ns[n]) && v != Nil
    ensures HasVal(ns, x, v) <==> HasVal(MoveOut(ns, mp, n, prev, k), x, v)
  {
    var r := MoveOut(ns, mp, n, prev, k);
    if HasVal(ns, x, v) {
      var i :| 0 <= i < |ns| && Live(ns[i]) && ns[i].key == x && ns[i].val == v;
      assert Carries(ns, i, r, if i == mp then n else i);
    }
    if HasVal(r, x, v) {
      var i :| 0 <= i < |r| && Live(r[i]) && r[i].key == x && r[i].val == v;
      assert Carries(ns, if i == n then mp else i, r, i);
    }
  }

  lemma MoveOutKeeps(ns: seq<Node>, mp: nat, n: nat, prev: nat, k: Key, x: Key)
    requires Unique(ns) && mp < |ns| && n < |ns| && prev < |ns| && mp != n && prev != n && prev != mp && Free(ns[n])
    requires Unique(MoveOut(ns, mp, n, prev, k))
    ensures NodeVal(MoveOut(ns, mp, n, prev, k), x) == NodeVal(ns, x)
  {
    hide HasVal, NodeVal, MoveOut, Unique;
    forall v | v != Nil
      ensures HasVal(ns, x, v) <==> HasVal(MoveOut(ns, mp, n, prev, k), x, v)
    {
      MoveOutHas(ns, mp, n, prev, k, x, v);
    }
    SameEntries(ns, MoveOut(ns, mp, n, prev, k), x);
  }

  /** Storing into the entry of a key changes the value of that key alone. */
  lemma StoreVal(ns: seq<Node>, i: nat, v: Value, x: Key)
    requires Unique(ns) && i < |ns| && Live(ns[i])
    ensures var r := ns[i := ns[i].(val := v)]; Unique(r) && NodeVal(r, x) == if x == ns[i].key then v else NodeVal(ns, x)
  {
    var r := ns[i := ns[i].(val := v)];
    if x == ns[i].key {
      NodeValIs(r, i);
    } else {
      forall w | w != Nil
        ensures HasVal(ns, x, w) <==> HasVal(r, x, w)
      {
        if HasVal(ns, x, w) {
          var j :| 0 <= j < |ns| && Live(ns[j]) && ns[j].key == x && ns[j].val == w;
          assert r[j] == ns[j];
        }
        if HasVal(r, x, w) {
          var j :| 0 <= j < |r| && Live(r[j]) && r[j].key == x && r[j].val == w;
          assert r[j] == ns[j];
        }
      }
      SameEntries(ns, r, x);
    }
  }

  lemma StoreHome(hash: Hash, ns: seq<Node>, i: nat, v: Value, j: nat)
    requires LinksOk(ns) && i < |ns| && j < |ns| && HomeOk(hash, ns, j)
    ensures var r := ns[i := ns[i].(val := v)]; LinksOk(r) && HomeOk(hash, r, j)
  {
    hide Reaches;
    var r := ns[i := ns[i].(val := v)];
    if !Free(ns[j]) { SameReaches(ns, r, Main(hash, ns, j), j); }
  }

  lemma StoreApart(ns: seq<Node>, i: nat, v: Value)
    requires Apart(ns) && i < |ns| && Live(ns[i])
    ensures Apart(ns[i := ns[i].(val := v)])
  {
  }

  lemma StoreFirst(ns: seq<Node>, i: nat, v: Value)
    requires LinksOk(ns) && LiveFirst(ns) && i < |ns|
    ensures var r := ns[i := ns[i].(val := v)]; LinksOk(r) && LiveFirst(r)
  {
    hide Reaches;
    var r := ns[i := ns[i].(val := v)];
    forall a, b | 0 <= a < |r| && 0 <= b < |r| && SameDead(r, a, b)
      ensures Reaches(r, a, b)
    {
      assert SameDead(ns, a, b);
      SameReaches(ns, r, a, b);
    }
  }

  lemma StoreChains(hash: Hash, ns: seq<Node>, i: nat, v: Value)
    requires ChainsOk(hash, ns) && i < |ns| && Live(ns[i])
    ensures ChainsOk(hash, ns[i := ns[i].(val := v)])
  {
    hide HomeOk, Acyclic, Apart, LiveFirst;
    StoreFirst(ns, i, v);
    StoreRanked(ns, i, v);
    StoreApart(ns, i, v);
    var r := ns[i := ns[i].(val := v)];
    forall j | 0 <= j < |r|
      ensures HomeOk(hash, r, j)
    {
      StoreHome(hash, ns, i, v, j);
    }
  }

  lemma StoreRanked(ns: seq<Node>, i: nat, v: Value)
    requires Acyclic(ns) && i < |ns|
    ensures Acyclic(ns[i := ns[i].(val := v)])
  {
    var rank :| Ranked(ns, rank);
    assert Ranked(ns[i := ns[i].(val := v)], rank);
  }

  // ---------- counting ----------

  /** Nodes in use among the first n. */
  function UsedCount(ns: seq<Node>, n: nat): (c: nat)
    requires n <= |ns|
    ensures c <= n
    decreases n
  {
    if n == 0 then 0 else UsedCount(ns, n - 1) + if Free(ns[n - 1]) then 0 else 1
  }

  lemma {:induction false} AllUsed(ns: seq<Node>, n: nat)
    requires n <= |ns| && forall i :: 0 <= i < n ==> !Free(ns[i])
    ensures UsedCount(ns, n) == n
    decreases n
  {
    if n > 0 { AllUsed(ns, n - 1); }
  }

  /** One more node in use at most counts one more. */
  lemma {:induction false} UsedMore(a: seq<Node>, b: seq<Node>, p: nat, n: nat)
    requires n <= |a| && |b| == |a| && p < |a|
    requires forall i :: 0 <= i < |a| && i != p ==> (Free(b[i]) <==> Free(a[i]))
    ensures UsedCount(b, n) <= UsedCount(a, n) + (if p < n && Free(a[p]) && !Free(b[p]) then 1 else 0)
    decreases n
  {
    if n > 0 { UsedMore(a, b, p, n - 1); }
  }

  lemma {:induction false} NoneUsed(n: nat, m: nat)
    requires m <= n
    ensures UsedCount(seq(n, i => EMPTY), m) == 0
    decreases m
  {
    if m > 0 { NoneUsed(n, m - 1); }
  }
}
