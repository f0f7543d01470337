/** The hash part of a table: nodes in chains, and the three ways a new key is put into it. */
module TableNodes {
  /** Integer keys are the candidates for the array part; every other key is only compared. */
  datatype Key = NilKey | NaNKey | IntKey(n: int) | OtherKey(id: nat)

  datatype Value = Nil | Val(v: int)

  /** next is the index of the next node of the chain, NONE at its end.  A dead key is one the collector
      has removed: it is no longer found, but still part of its chain. */
  datatype Node = Node(key: Key, dead: bool, val: Value, next: int)

  const NONE: int := -1

  const EMPTY := Node(NilKey, false, Nil, NONE)

  /** An arbitrary hash function; the main position of a key depends on it and on the number of nodes. */
  type Hash = (Key, nat) -> nat

  function MainPosition(hash: Hash, k: Key, size: nat): (p: nat)
    requires size > 0
    ensures p < size
  {
    hash(k, size) % size
  }

  predicate Free(n: Node) { n.key == NilKey }

  // ---------- chains ----------

  predicate LinksOk(ns: seq<Node>) { forall i :: 0 <= i < |ns| ==> NONE <= ns[i].next < |ns| }

  /** The node k steps down the chain from i, or NONE. */
  function Walk(ns: seq<Node>, i: int, k: nat): (r: int)
    requires LinksOk(ns) && NONE <= i < |ns|
    ensures NONE <= r < |ns|
    decreases k
  {
    if i == NONE || k == 0 then i else Walk(ns, ns[i].next, k - 1)
  }

  ghost predicate Reaches(ns: seq<Node>, i: int, j: int)
    requires LinksOk(ns) && NONE <= i < |ns|
  {
    j != NONE && exists k: nat :: Walk(ns, i, k) == j
  }

  /** The ranks fall along every chain. */
  predicate Ranked(ns: seq<Node>, rank: seq<nat>) {
    |rank| == |ns| && forall i :: 0 <= i < |ns| && 0 <= ns[i].next < |ns| ==> rank[ns[i].next] < rank[i]
  }

  ghost predicate Acyclic(ns: seq<Node>) { exists rank :: Ranked(ns, rank) }

  /** No two nodes have the same next, and nothing leads to or from a free node. */
  predicate Apart(ns: seq<Node>) {
    OnePrevious(ns) && FreeAlone(ns) && LeadsToUsed(ns)
  }

  predicate OnePrevious(ns: seq<Node>) {
    forall i, j :: 0 <= i < j < |ns| && ns[i].next == ns[j].next ==> ns[i].next == NONE
  }

  predicate FreeAlone(ns: seq<Node>) {
    forall i :: 0 <= i < |ns| && Free(ns[i]) ==> ns[i].next == NONE && ns[i].val == Nil && !ns[i].dead
  }

  predicate LeadsToUsed(ns: seq<Node>) { forall i :: 0 <= i < |ns| && 0 <= ns[i].next < |ns| ==> !Free(ns[ns[i].next]) }

  function Main(hash: Hash, ns: seq<Node>, i: int): (p: nat)
    requires 0 <= i < |ns|
    ensures p < |ns|
  {
    MainPosition(hash, ns[i].key, |ns|)
  }

  /** Node i is in its main position, or else the node there is in its own main position. */
  predicate Brent(hash: Hash, ns: seq<Node>, i: int)
    requires 0 <= i < |ns|
  {
    var p := Main(hash, ns, i);
    p == i || (!Free(ns[p]) && Main(hash, ns, p) == p)
  }

  predicate Live(n: Node) { !Free(n) && !n.dead }

  /** What every operation keeps of the hash part. */
  ghost predicate ChainsOk(hash: Hash, ns: seq<Node>) {
    && |ns| > 0 && LinksOk(ns) && Acyclic(ns) && Apart(ns)
    && (forall i :: 0 <= i < |ns| ==> HomeOk(hash, ns, i))
    && Unique(ns) && LiveFirst(ns)
  }

  /** A live key comes before every dead copy of it that is left in the chain. */
  ghost predicate LiveFirst(ns: seq<Node>)
    requires LinksOk(ns)
  {
    forall i, j :: 0 <= i < |ns| && 0 <= j < |ns| && SameDead(ns, i, j) ==> Reaches(ns, i, j)
  }

  predicate SameDead(ns: seq<Node>, i: int, j: int)
    requires 0 <= i < |ns| && 0 <= j < |ns|
  {
    Live(ns[i]) && ns[j].dead && ns[j].key == ns[i].key
  }

  /** A key in use is found from its main position. */
  ghost predicate HomeOk(hash: Hash, ns: seq<Node>, i: int)
    requires LinksOk(ns) && 0 <= i < |ns|
  {
    !Free(ns[i]) ==> Reaches(ns, Main(hash, ns, i), i) && Brent(hash, ns, i)
  }

  predicate Unique(ns: seq<Node>) {
    forall i, j :: 0 <= i < j < |ns| && Live(ns[i]) && Live(ns[j]) ==> ns[i].key != ns[j].key
  }

  lemma WalkAdd(ns: seq<Node>, i: int, k: nat, m: nat)
    requires LinksOk(ns) && NONE <= i < |ns|
    ensures Walk(ns, i, k + m) == Walk(ns, Walk(ns, i, k), m)
    decreases k
  {
    if i != NONE && k > 0 { WalkAdd(ns, ns[i].next, k - 1, m); }
  }

  lemma ReachesSelf(ns: seq<Node>, i: int)
    requires LinksOk(ns) && 0 <= i < |ns|
    ensures Reaches(ns, i, i)
  {
    assert Walk(ns, i, 0) == i;
  }

  lemma ReachesNext(ns: seq<Node>, i: int, j: int)
    requires LinksOk(ns) && 0 <= i < |ns| && NONE <= j
    requires Reaches(ns, ns[i].next, j)
    ensures Reaches(ns, i, j)
  {
    var k: nat :| Walk(ns, ns[i].next, k) == j;
    assert Walk(ns, i, k + 1) == j;
  }

  /** A node down the chain is reached through the next one. */
  lemma ReachesOn(ns: seq<Node>, i: int, j: int)
    requires LinksOk(ns) && 0 <= i < |ns| && Reaches(ns, i, j) && i != j
    ensures ns[i].next != NONE && Reaches(ns, ns[i].next, j)
  {
    var k: nat :| Walk(ns, i, k) == j;
    assert Walk(ns, i, k) == Walk(ns, ns[i].next, k - 1);
  }

  // ---------- the three ways in ----------

  /** The key's main position is free, or its entry empty: the key takes it, whatever chain it is in. */
  function TakePlace(ns: seq<Node>, mp: nat, k: Key): (r: seq<Node>)
    requires mp < |ns|
    ensures |r| == |ns|
  {
    ns[mp := ns[mp].(key := k, dead := false)]
  }

  /** The colliding node is in its main position: the key goes to the free node n, next in the chain. */
  function ChainIn(ns: seq<Node>, mp: nat, n: nat, k: Key): (r: seq<Node>)
    requires mp < |ns| && n < |ns|
    ensures |r| == |ns|
  {
    ns[n := Node(k, false, Nil, ns[mp].next)][mp := ns[mp].(next := n)]
  }

  /** The colliding node is out of its main position: it moves to the free node n, and the key takes its place. */
  function MoveOut(ns: seq<Node>, mp: nat, n: nat, prev: nat, k: Key): (r: seq<Node>)
    requires mp < |ns| && n < |ns| && prev < |ns|
    ensures |r| == |ns|
  {
    ns[prev := ns[prev].(next := n)][n := ns[mp]][mp := Node(k, false, Nil, NONE)]
  }

  // ---------- taking the place ----------

  lemma {:induction false} SameLinks(a: seq<Node>, b: seq<Node>, i: int, k: nat)
    requires LinksOk(a) && |b| == |a| && NONE <= i < |a| && forall j :: 0 <= j < |a| ==> b[j].next == a[j].next
    ensures LinksOk(b) && Walk(b, i, k) == Walk(a, i, k)
    decreases k
  {
    if i != NONE && k > 0 { SameLinks(a, b, a[i].next, k - 1); }
  }

  lemma SameReaches(a: seq<Node>, b: seq<Node>, i: int, j: int)
    requires LinksOk(a) && |b| == |a| && NONE <= i < |a| && forall x :: 0 <= x < |a| ==> b[x].next == a[x].next
    requires Reaches(a, i, j)
    ensures LinksOk(b) && Reaches(b, i, j)
  {
    var k: nat :| Walk(a, i, k) == j;
    SameLinks(a, b, i, k);
  }

  ghost predicate NotPresent(ns: seq<Node>, k: Key) { forall i :: 0 <= i < |ns| && Live(ns[i]) ==> ns[i].key != k }

  /** k can be put in: it is a key and not there yet. */
  ghost predicate CanInsert(hash: Hash, ns: seq<Node>, k: Key) { ChainsOk(hash, ns) && k != NilKey && NotPresent(ns, k) }

  lemma TakePlaceHome(hash: Hash, ns: seq<Node>, k: Key, i: nat)
    requires ChainsOk(hash, ns) && k != NilKey && i < |ns|
    ensures var r := TakePlace(ns, MainPosition(hash, k, |ns|), k); LinksOk(r) && HomeOk(hash, r, i)
  {
    hide Reaches, Acyclic, Unique;
    var mp := MainPosition(hash, k, |ns|);
    var r := TakePlace(ns, mp, k);
    assert HomeOk(hash, ns, i);
    if i == mp {
      ReachesSelf(r, i);
    } else if !Free(ns[i]) {
      SameReaches(ns, r, Main(hash, ns, i), i);
    }
  }

  lemma TakePlaceApart(ns: seq<Node>, mp: nat, k: Key)
    requires LinksOk(ns) && Apart(ns) && Acyclic(ns) && mp < |ns| && k != NilKey
    ensures LinksOk(TakePlace(ns, mp, k)) && Apart(TakePlace(ns, mp, k)) && Acyclic(TakePlace(ns, mp, k))
  {
    var rank :| Ranked(ns, rank);
    assert Ranked(TakePlace(ns, mp, k), rank);
  }

  lemma TakePlaceFirst(hash: Hash, ns: seq<Node>, k: Key)
    requires ChainsOk(hash, ns) && k != NilKey
    ensures var r := TakePlace(ns, MainPosition(hash, k, |ns|), k); LinksOk(r) && LiveFirst(r)
  {
    hide Reaches, Acyclic, Unique;
    var mp := MainPosition(hash, k, |ns|);
    var r := TakePlace(ns, mp, k);
    forall i, j | 0 <= i < |r| && 0 <= j < |r| && SameDead(r, i, j)
      ensures Reaches(r, i, j)
    {
      if i == mp { assert HomeOk(hash, ns, j); } else { assert SameDead(ns, i, j); }
      SameReaches(ns, r, i, j);
    }
  }

  lemma TakePlaceOk(hash: Hash, ns: seq<Node>, k: Key)
    requires CanInsert(hash, ns, k) && ns[MainPosition(hash, k, |ns|)].val == Nil
    ensures ChainsOk(hash, TakePlace(ns, MainPosition(hash, k, |ns|), k))
  {
    hide HomeOk, Apart, Acyclic, LiveFirst;
    var mp := MainPosition(hash, k, |ns|);
    TakePlaceApart(ns, mp, k);
    TakePlaceFirst(hash, ns, k);
    forall i | 0 <= i < |ns|
      ensures HomeOk(hash, TakePlace(ns, mp, k), i)
    {
      TakePlaceHome(hash, ns, k, i);
    }
  }

  // ---------- chaining in ----------

  lemma ChainInWalks(ns: seq<Node>, mp: nat, n: nat, key: Key, i: int, k: nat)
    requires LinksOk(ns) && Apart(ns) && mp < |ns| && n < |ns| && mp != n && Free(ns[n]) && NONE <= i < |ns| && i != n
    ensures var r := ChainIn(ns, mp, n, key);
      LinksOk(r) && (Walk(ns, i, k) != NONE ==> Reaches(r, i, Walk(ns, i, k)))
    decreases k
  {
    var r := ChainIn(ns, mp, n, key);
    if i == NONE {
    } else if k == 0 {
      ReachesSelf(r, i);
    } else {
      var j := ns[i].next;
      ChainInWalks(ns, mp, n, key, j, k - 1);
      var target := Walk(ns, j, k - 1);
      if target != NONE {
        if i == mp { ReachesNext(r, n, target); }
        ReachesNext(r, i, target);
      }
    }
  }

  lemma ChainInReaches(ns: seq<Node>, mp: nat, n: nat, key: Key, i: int, j: int)
    requires LinksOk(ns) && Apart(ns) && mp < |ns| && n < |ns| && mp != n && Free(ns[n]) && NONE <= i < |ns| && i != n
    requires Reaches(ns, i, j)
    ensures LinksOk(ChainIn(ns, mp, n, key)) && Reaches(ChainIn(ns, mp, n, key), i, j)
  {
    var k: nat :| Walk(ns, i, k) == j;
    ChainInWalks(ns, mp, n, key, i, k);
  }

  lemma ChainInRanked(ns: seq<Node>, mp: nat, n: nat, key: Key)
    requires LinksOk(ns) && Apart(ns) && Acyclic(ns) && mp < |ns| && n < |ns| && mp != n && Free(ns[n])
    ensures Acyclic(ChainIn(ns, mp, n, key))
  {
    var rank :| Ranked(ns, rank);
    var r := ChainIn(ns, mp, n, key);
    var ranks := seq(|ns|, i requires 0 <= i < |ns| => if i == n then 2 * rank[mp] + 1 else 2 * rank[i] + 2);
    assert Ranked(r, ranks);
  }

  lemma ChainInPrevious(ns: seq<Node>, mp: nat, n: nat, key: Key)
    requires LinksOk(ns) && OnePrevious(ns) && mp < |ns| && n < |ns| && mp != n && ns[n].next == NONE
    requires forall i :: 0 <= i < |ns| ==> ns[i].next != n
    ensures OnePrevious(ChainIn(ns, mp, n, key))
  {
  }

  lemma ChainInApart(ns: seq<Node>, mp: nat, n: nat, key: Key)
    requires LinksOk(ns) && Apart(ns) && mp < |ns| && n < |ns| && mp != n && Free(ns[n]) && !Free(ns[mp]) && key != NilKey
    ensures Apart(ChainIn(ns, mp, n, key))
  {
    hide OnePrevious;
    ChainInPrevious(ns, mp, n, key);
  }

  lemma ChainInHome(hash: Hash, ns: seq<Node>, n: nat, k: Key, i: nat)
    requires ChainsOk(hash, ns) && n < |ns| && Free(ns[n]) && i < |ns|
    requires var mp := MainPosition(hash, k, |ns|); !Free(ns[mp]) && Main(hash, ns, mp) == mp
    ensures var r := ChainIn(ns, MainPosition(hash, k, |ns|), n, k); LinksOk(r) && HomeOk(hash, r, i)
  {
    hide Reaches, Acyclic, Unique;
    var mp := MainPosition(hash, k, |ns|);
    var r := ChainIn(ns, mp, n, k);
    assert HomeOk(hash, ns, i);
    if i == n {
      ReachesSelf(r, n);
      ReachesNext(r, mp, n);
    } else if !Free(r[i]) {
      assert Main(hash, ns, i) != n;
      ChainInReaches(ns, mp, n, k, Main(hash, ns, i), i);
    }
  }

  lemma ChainInUnique(ns: seq<Node>, mp: nat, n: nat, k: Key)
    requires Unique(ns) && NotPresent(ns, k) && mp < |ns| && n < |ns|
    ensures Unique(ChainIn(ns, mp, n, k))
  {
  }

  lemma ChainInFirst(hash: Hash, ns: seq<Node>, n: nat, k: Key)
    requires ChainsOk(hash, ns) && k != NilKey && n < |ns| && Free(ns[n])
    requires var mp := MainPosition(hash, k, |ns|); Live(ns[mp]) && Main(hash, ns, mp) == mp
    ensures var r := ChainIn(ns, MainPosition(hash, k, |ns|), n, k); LinksOk(r) && LiveFirst(r)
  {
    hide Reaches, Acyclic, Unique;
    var mp := MainPosition(hash, k, |ns|);
    var r := ChainIn(ns, mp, n, k);
    ChainInWalks(ns, mp, n, k, NONE, 0);
    forall i, j | 0 <= i < |r| && 0 <= j < |r| && SameDead(r, i, j)
      ensures Reaches(r, i, j)
    {
      if i == n {
        assert HomeOk(hash, ns, j);
        ReachesOn(ns, mp, j);
        ChainInReaches(ns, mp, n, k, ns[mp].next, j);
        ReachesNext(r, n, j);
      } else {
        assert SameDead(ns, i, j);
        ChainInReaches(ns, mp, n, k, i, j);
      }
    }
  }

  lemma ChainInOk(hash: Hash, ns: seq<Node>, n: nat, k: Key)
    requires CanInsert(hash, ns, k) && n < |ns| && Free(ns[n])
    requires var mp := MainPosition(hash, k, |ns|); Live(ns[mp]) && Main(hash, ns, mp) == mp
    ensures ChainsOk(hash, ChainIn(ns, MainPosition(hash, k, |ns|), n, k))
  {
    hide HomeOk, Apart, Acyclic, Unique, NotPresent, LiveFirst;
    ChainInFirst(hash, ns, n, k);
    var mp := MainPosition(hash, k, |ns|);
    ChainInRanked(ns, mp, n, k);
    ChainInApart(ns, mp, n, k);
    ChainInUnique(ns, mp, n, k);
    forall i | 0 <= i < |ns|
      ensures HomeOk(hash, ChainIn(ns, mp, n, k), i)
    {
      ChainInHome(hash, ns, n, k, i);
    }
  }

  // ---------- moving out ----------

  function Moved(mp: nat, n: nat, i: int): int { if i == mp then n else i }

  lemma MoveOutWalks(ns: seq<Node>, mp: nat, n: nat, prev: nat, key: Key, i: int, k: nat)
    requires LinksOk(ns) && Apart(ns) && mp < |ns| && n < |ns| && prev < |ns| && mp != n && prev != mp && Free(ns[n])
    requires ns[prev].next == mp && NONE <= i < |ns| && i != n
    ensures var r := MoveOut(ns, mp, n, prev, key);
      LinksOk(r) && Walk(r, Moved(mp, n, i), k) == Moved(mp, n, Walk(ns, i, k))
    decreases k
  {
    var r := MoveOut(ns, mp, n, prev, key);
    if i != NONE && k > 0 {
      MoveOutWalks(ns, mp, n, prev, key, ns[i].next, k - 1);
      assert r[Moved(mp, n, i)].next == Moved(mp, n, ns[i].next);
    }
  }

  lemma MoveOutReaches(ns: seq<Node>, mp: nat, n: nat, prev: nat, key: Key, i: int, j: int)
    requires LinksOk(ns) && Apart(ns) && mp < |ns| && n < |ns| && prev < |ns| && mp != n && prev != mp && Free(ns[n])
    requires ns[prev].next == mp && NONE <= i < |ns| && i != n && Reaches(ns, i, j)
    ensures var r := MoveOut(ns, mp, n, prev, key); LinksOk(r) && Reaches(r, Moved(mp, n, i), Moved(mp, n, j))
  {
    var k: nat :| Walk(ns, i, k) == j;
    MoveOutWalks(ns, mp, n, prev, key, i, k);
  }

  lemma MoveOutRanked(ns: seq<Node>, mp: nat, n: nat, prev: nat, key: Key)
    requires LinksOk(ns) && Apart(ns) && Acyclic(ns) && mp < |ns| && n < |ns| && prev < |ns| && mp != n && prev != mp && Free(ns[n])
    requires ns[prev].next == mp
    ensures Acyclic(MoveOut(ns, mp, n, prev, key))
  {
    var rank :| Ranked(ns, rank);
    var r := MoveOut(ns, mp, n, prev, key);
    var ranks := rank[n := rank[mp]][mp := 0];
    forall i | 0 <= i < |r| && 0 <= r[i].next < |r|
      ensures ranks[r[i].next] < ranks[i]
    {
      if i != n && i != mp && i != prev { assert r[i] == ns[i] && ns[i].next != mp; }
    }
    assert Ranked(r, ranks);
  }

  lemma MoveOutApart(ns: seq<Node>, mp: nat, n: nat, prev: nat, key: Key)
    requires LinksOk(ns) && Apart(ns) && mp < |ns| && n < |ns| && prev < |ns| && mp != n && prev != mp && Free(ns[n]) && !Free(ns[mp])
    requires ns[prev].next == mp && key != NilKey
    ensures Apart(MoveOut(ns, mp, n, prev, key))
  {
    hide OnePrevious;
    MoveOutPrevious(ns, mp, n, prev, key);
    MoveOutLeads(ns, mp, n, prev, key);
  }

  lemma MoveOutLeads(ns: seq<Node>, mp: nat, n: nat, prev: nat, key: Key)
    requires LinksOk(ns) && LeadsToUsed(ns) && mp < |ns| && n < |ns| && prev < |ns| && mp != n && prev != mp && key != NilKey && !Free(ns[mp])
    ensures LeadsToUsed(MoveOut(ns, mp, n, prev, key))
  {
  }

  lemma MoveOutPrevious(ns: seq<Node>, mp: nat, n: nat, prev: nat, key: Key)
    requires LinksOk(ns) && OnePrevious(ns) && mp < |ns| && n < |ns| && prev < |ns| && mp != n && prev != mp && ns[n].next == NONE
    requires ns[prev].next == mp && forall i :: 0 <= i < |ns| ==> ns[i].next != n
    ensures OnePrevious(MoveOut(ns, mp, n, prev, key))
  {
  }

  lemma MoveOutHome(hash: Hash, ns: seq<Node>, n: nat, prev: nat, k: Key, i: nat)
    requires ChainsOk(hash, ns) && n < |ns| && Free(ns[n]) && prev < |ns| && i < |ns|
    requires var mp := MainPosition(hash, k, |ns|); !Free(ns[mp]) && Main(hash, ns, mp) != mp && ns[prev].next == mp && prev != mp
    ensures var r := MoveOut(ns, MainPosition(hash, k, |ns|), n, prev, k); LinksOk(r) && HomeOk(hash, r, i)
  {
    hide Reaches, Acyclic, Unique;
    var mp := MainPosition(hash, k, |ns|);
    var r := MoveOut(ns, mp, n, prev, k);
    assert LinksOk(r) by { MoveOutWalks(ns, mp, n, prev, k, NONE, 0); }
    if i == mp {
      ReachesSelf(r, mp);
    } else if !Free(r[i]) {
      var j := if i == n then mp else i;
      assert HomeOk(hash, ns, j);
      assert Main(hash, ns, j) != mp && Main(hash, ns, j) != n;
      MoveOutReaches(ns, mp, n, prev, k, Main(hash, ns, j), j);
    }
  }

  lemma MoveOutUnique(ns: seq<Node>, mp: nat, n: nat, prev: nat, k: Key)
    requires Unique(ns) && NotPresent(ns, k) && mp < |ns| && n < |ns| && prev < |ns| && mp != n && prev != n
    ensures Unique(MoveOut(ns, mp, n, prev, k))
  {
  }

  lemma MoveOutFirst(hash: Hash, ns: seq<Node>, n: nat, prev: nat, k: Key)
    requires ChainsOk(hash, ns) && k != NilKey && n < |ns| && Free(ns[n]) && prev < |ns|
    requires var mp := MainPosition(hash, k, |ns|); Live(ns[mp]) && Main(hash, ns, mp) != mp && ns[prev].next == mp && prev != mp
    ensures var r := MoveOut(ns, MainPosition(hash, k, |ns|), n, prev, k); LinksOk(r) && LiveFirst(r)
  {
    hide Reaches, Acyclic, Unique;
    var mp := MainPosition(hash, k, |ns|);
    var r := MoveOut(ns, mp, n, prev, k);
    MoveOutWalks(ns, mp, n, prev, k, NONE, 0);
    forall i, j | 0 <= i < |r| && 0 <= j < |r| && SameDead(r, i, j)
      ensures Reaches(r, i, j)
    {
      var a, b := if i == n then mp else i, if j == n then mp else j;
      assert b != mp && b == j;
      assert HomeOk(hash, ns, b);
      assert SameDead(ns, a, b);
      MoveOutReaches(ns, mp, n, prev, k, a, b);
    }
  }

  lemma MoveOutOk(hash: Hash, ns: seq<Node>, n: nat, prev: nat, k: Key)
    requires CanInsert(hash, ns, k) && n < |ns| && Free(ns[n]) && prev < |ns|
    requires var mp := MainPosition(hash, k, |ns|); Live(ns[mp]) && Main(hash, ns, mp) != mp && ns[prev].next == mp && prev != mp
    ensures ChainsOk(hash, MoveOut(ns, MainPosition(hash, k, |ns|), n, prev, k))
  {
    hide HomeOk, Acyclic, Unique, NotPresent, LiveFirst;
    MoveOutFirst(hash, ns, n, prev, k);
    var mp := MainPosition(hash, k, |ns|);
    MoveOutRanked(ns, mp, n, prev, k);
    MoveOutApart(ns, mp, n, prev, k);
    MoveOutUnique(ns, mp, n, prev, k);
    MoveOutHome(hash, ns, n, prev, k, mp);
    forall i | 0 <= i < |ns|
      ensures HomeOk(hash, MoveOut(ns, mp, n, prev, k), i)
    {
      MoveOutHome(hash, ns, n, prev, k, i);
    }
  }
}
