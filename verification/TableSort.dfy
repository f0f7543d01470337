/** table.sort: the quicksort of the table library, for any order function. */
module TableSort {
  /** Done, or the error "invalid order function for sorting". */
  datatype Outcome = Done | InvalidOrder

  type Order<!T> = (T, T) -> bool

  ghost predicate StrictWeak<T(!new)>(lt: Order<T>) {
    && (forall x :: !lt(x, x))
    && (forall x, y, z :: lt(x, y) && lt(y, z) ==> lt(x, z))
    && (forall x, y, z :: !lt(x, y) && !lt(y, z) ==> !lt(x, z))
  }

  predicate Le<T>(lt: Order<T>, x: T, y: T) { !lt(y, x) }

  lemma LeTrans<T(!new)>(lt: Order<T>, x: T, y: T, z: T)
    requires StrictWeak(lt) && Le(lt, x, y) && Le(lt, y, z)
    ensures Le(lt, x, z)
  {
  }

  lemma LtIsLe<T(!new)>(lt: Order<T>, x: T, y: T)
    requires StrictWeak(lt) && lt(x, y)
    ensures Le(lt, x, y)
  {
  }

  /** The slots l..u of s are in order. */
  predicate Sorted<T>(lt: Order<T>, s: seq<T>, l: int, u: int) {
    forall i, j :: 0 <= l <= i < j <= u < |s| ==> Le(lt, s[i], s[j])
  }

  /** t is s with the slots l..u permuted. */
  ghost predicate PermutedIn<T>(s: seq<T>, t: seq<T>, l: int, u: int) {
    && |t| == |s| && multiset(t) == multiset(s)
    && forall k :: 0 <= k < |s| && !(l <= k <= u) ==> t[k] == s[k]
  }

  lemma PermutedTrans<T>(r: seq<T>, s: seq<T>, t: seq<T>, l: int, u: int, l2: int, u2: int)
    requires PermutedIn(r, s, l2, u2) && PermutedIn(s, t, l, u) && l2 <= l && u <= u2
    ensures PermutedIn(r, t, l2, u2)
  {
  }

  lemma Cancel<T>(a: multiset<T>, b: multiset<T>, c: multiset<T>, d: multiset<T>)
    requires a + b + d == a + c + d
    ensures b == c
  {
    forall x
      ensures b[x] == c[x]
    {
      assert (a + b + d)[x] == (a + c + d)[x];
    }
  }

  /** What a permutation inside a range says of the range itself. */
  lemma ThreeParts<T>(s: seq<T>, l: nat, u: nat)
    requires l <= u <= |s|
    ensures multiset(s) == multiset(s[..l]) + multiset(s[l..u]) + multiset(s[u..])
  {
    assert s == s[..l] + s[l..u] + s[u..];
  }

  lemma RangePermuted<T>(s: seq<T>, t: seq<T>, l: int, u: int)
    requires PermutedIn(s, t, l, u) && 0 <= l <= u + 1 <= |s|
    ensures multiset(t[l..u + 1]) == multiset(s[l..u + 1])
  {
    assert t[..l] == s[..l] && t[u + 1..] == s[u + 1..];
    ThreeParts(s, l, u + 1);
    ThreeParts(t, l, u + 1);
    Cancel(multiset(s[..l]), multiset(s[l..u + 1]), multiset(t[l..u + 1]), multiset(s[u + 1..]));
  }

  /** What holds of every element of a range holds of every element after the range is permuted. */
  lemma StillAll<T>(s: seq<T>, t: seq<T>, l: int, u: int, p: T -> bool)
    requires PermutedIn(s, t, l, u) && 0 <= l <= u + 1 <= |s|
    requires forall k :: l <= k <= u ==> p(s[k])
    ensures forall k :: l <= k <= u ==> p(t[k])
  {
    RangePermuted(s, t, l, u);
    forall k | l <= k <= u
      ensures p(t[k])
    {
      assert t[l..u + 1][k - l] == t[k];
      assert t[k] in multiset(s[l..u + 1]);
      var i :| 0 <= i < u + 1 - l && s[l..u + 1][i] == t[k];
      assert s[l + i] == t[k];
    }
  }

  function SwapAt<T>(s: seq<T>, i: nat, j: nat): (t: seq<T>)
    requires i < |s| && j < |s|
    ensures |t| == |s|
  {
    s[i := s[j]][j := s[i]]
  }

  lemma Swapped<T>(s: seq<T>, i: nat, j: nat)
    requires i < |s| && j < |s|
    ensures forall k :: 0 <= k < |s| ==> SwapAt(s, i, j)[k] == if k == i then s[j] else if k == j then s[i] else s[k]
  {
  }

  /** set2: swap two slots of a range. */
  method Swap<T>(a: array<T>, i: nat, j: nat, ghost l: int, ghost u: int)
    requires i < a.Length && j < a.Length && l <= i <= u && l <= j <= u
    modifies a
    ensures a[..] == SwapAt(old(a[..]), i, j) && PermutedIn(old(a[..]), a[..], l, u)
  {
    a[i], a[j] := a[j], a[i];
    assert a[..] == SwapAt(old(a[..]), i, j);
  }

  function Ends<T>(lt: Order<T>, s: seq<T>, l: nat, u: nat): (t: seq<T>)
    requires l < u < |s|
    ensures |t| == |s|
  {
    if lt(s[u], s[l]) then SwapAt(s, l, u) else s
  }

  function Middle<T>(lt: Order<T>, s: seq<T>, l: nat, i: nat, u: nat): (t: seq<T>)
    requires l < i < u < |s|
    ensures |t| == |s|
  {
    if lt(s[i], s[l]) then SwapAt(s, i, l) else if lt(s[u], s[i]) then SwapAt(s, i, u) else s
  }

  /** A range of more than three slots with its pivot in place. */
  function Pivoted<T>(lt: Order<T>, s: seq<T>, l: nat, u: nat): (t: seq<T>)
    requires l + 3 <= u < |s|
    ensures |t| == |s|
  {
    var i := (l + u) / 2;
    SwapAt(Middle(lt, Ends(lt, s, l, u), l, i, u), i, u - 1)
  }

  /** Order a[l] and a[u]. */
  method OrderEnds<T(!new)>(a: array<T>, l: int, u: int, lt: Order<T>)
    requires 1 <= l < u < a.Length
    modifies a
    ensures a[..] == Ends(lt, old(a[..]), l, u)
    ensures PermutedIn(old(a[..]), a[..], l, u) && (StrictWeak(lt) ==> Le(lt, a[l], a[u]))
  {
    if lt(a[u], a[l]) { Swap(a, l, u, l, u); }
  }

  /** Put a[i] in its place between a[l] and a[u]. */
  method OrderMiddle<T(!new)>(a: array<T>, l: int, i: int, u: int, lt: Order<T>)
    requires 1 <= l < i < u < a.Length
    modifies a
    ensures a[..] == Middle(lt, old(a[..]), l, i, u)
    ensures PermutedIn(old(a[..]), a[..], l, u)
    ensures StrictWeak(lt) && old(Le(lt, a[l], a[u])) ==> Le(lt, a[l], a[i]) && Le(lt, a[i], a[u])
  {
    if lt(a[i], a[l]) {
      Swap(a, i, l, l, u);
    } else if lt(a[u], a[i]) {
      Swap(a, i, u, l, u);
    }
  }

  lemma TwoSorted<T>(lt: Order<T>, s: seq<T>, l: int)
    requires 0 <= l && l + 1 < |s| && Le(lt, s[l], s[l + 1])
    ensures Sorted(lt, s, l, l + 1)
  {
  }

  lemma ThreeSorted<T(!new)>(lt: Order<T>, s: seq<T>, l: int)
    requires StrictWeak(lt) && 0 <= l && l + 2 < |s| && Le(lt, s[l], s[l + 1]) && Le(lt, s[l + 1], s[l + 2])
    ensures Sorted(lt, s, l, l + 2)
  {
    LeTrans(lt, s[l], s[l + 1], s[l + 2]);
  }

  /** The first part of a round: order a[l], a[(l+u)/2] and a[u]; with more than three slots, leave
      the pivot in a[u-1]. */
  method MedianOfThree<T(!new)>(a: array<T>, l: int, u: int, lt: Order<T>) returns (done: bool)
    requires 1 <= l < u < a.Length
    modifies a
    ensures PermutedIn(old(a[..]), a[..], l, u) && done == (u - l <= 2) && (!done ==> a[..] == Pivoted(lt, old(a[..]), l, u))
    ensures StrictWeak(lt) && done ==> Sorted(lt, a[..], l, u)
    ensures StrictWeak(lt) && !done ==> Le(lt, a[l], a[u - 1]) && Le(lt, a[u - 1], a[u])
  {
    hide PermutedIn, StrictWeak, Le, Sorted, SwapAt, Ends, Middle;
    ghost var s0 := a[..];
    OrderEnds(a, l, u, lt);
    if u - l == 1 {
      if StrictWeak(lt) { TwoSorted(lt, a[..], l); }
      return true;
    }
    ghost var s1 := a[..];
    var i := (l + u) / 2;
    OrderMiddle(a, l, i, u, lt);
    ghost var s2 := a[..];
    PermutedTrans(s0, s1, s2, l, u, l, u);
    if u - l == 2 {
      if StrictWeak(lt) { ThreeSorted(lt, a[..], l); }
      return true;
    }
    Swap(a, i, u - 1, l, u);
    Swapped(s2, i, u - 1);
    assert a[l] == a[..][l] && a[u - 1] == a[..][u - 1] && a[u] == a[..][u] && s2[l] == a[..][l] && s2[i] == a[..][u - 1] && s2[u] == a[..][u];
    PermutedTrans(s0, s2, a[..], l, u, l, u);
    done := false;
  }

  // ---------- partition ----------

  /** The slots from..to are not above p; not below p. */
  predicate NotAbove<T>(lt: Order<T>, s: seq<T>, from: int, to: int, p: T) { forall k :: 0 <= from <= k <= to < |s| ==> Le(lt, s[k], p) }
  predicate NotBelow<T>(lt: Order<T>, s: seq<T>, from: int, to: int, p: T) { forall k :: 0 <= from <= k <= to < |s| ==> Le(lt, p, s[k]) }

  /** The upward scan: to the first slot above i that is not below the pivot. */
  method ScanUp<T(!new)>(a: array<T>, u: int, i0: int, p: T, lt: Order<T>) returns (i: int, ok: bool)
    requires 0 <= i0 < u && u + 1 < a.Length
    ensures i0 < i <= u + 1 && (if ok then !lt(a[i], p) else i == u + 1 && lt(a[i], p)) && forall k :: i0 < k < i ==> lt(a[k], p)
  {
    i := i0 + 1;
    while lt(a[i], p)
      invariant i0 < i <= u + 1 && forall k :: i0 < k < i ==> lt(a[k], p)
      decreases u + 1 - i
    {
      if i > u { return i, false; }
      i := i + 1;
    }
    ok := true;
  }

  /** The downward scan: to the first slot below j that is not above the pivot. */
  method ScanDown<T(!new)>(a: array<T>, l: int, j0: int, p: T, lt: Order<T>) returns (j: int, ok: bool)
    requires 1 <= l <= j0 < a.Length
    ensures l - 1 <= j < j0 && (if ok then !lt(p, a[j]) else j == l - 1 && lt(p, a[j])) && forall k :: j < k < j0 ==> lt(p, a[k])
  {
    j := j0 - 1;
    while lt(p, a[j])
      invariant l - 1 <= j < j0 && forall k :: j < k < j0 ==> lt(p, a[k])
      decreases j
    {
      if j < l { return j, false; }
      j := j - 1;
    }
    ok := true;
  }

  /** What the rounds of a partition keep: up to i not above the pivot, from j on not below it. */
  ghost predicate Parting<T(!new)>(lt: Order<T>, s: seq<T>, l: int, u: int, i: int, j: int, p: T) {
    StrictWeak(lt) ==> NotAbove(lt, s, l, i, p) && NotBelow(lt, s, j, u, p)
  }

  lemma SwapParts<T(!new)>(lt: Order<T>, s: seq<T>, l: int, u: int, i0: int, j0: int, i: int, j: int, p: T)
    requires Parting(lt, s, l, u, i0, j0, p) && 1 <= l && u < |s| - 1 && l <= i0 < i <= j < j0 <= u
    requires !lt(s[i], p) && (forall k :: i0 < k < i ==> lt(s[k], p))
    requires !lt(p, s[j]) && (forall k :: j < k < j0 ==> lt(p, s[k]))
    ensures Parting(lt, SwapAt(s, i, j), l, u, i, j, p)
    ensures j < u - 1 ==> SwapAt(s, i, j)[u - 1] == s[u - 1]
  {
  }

  /** For a strict weak order the scans stop within the range, at the pivot and at a[l] at the latest. */
  lemma UpStops<T(!new)>(lt: Order<T>, s: seq<T>, u: int, i0: int, i: int, p: T)
    requires StrictWeak(lt) && 0 <= i0 < u - 1 && u < |s| && i <= u + 1 && s[u - 1] == p
    requires forall k :: i0 < k < i ==> lt(s[k], p)
    ensures i <= u - 1
  {
    assert !lt(s[u - 1], p);
  }

  lemma DownStops<T(!new)>(lt: Order<T>, s: seq<T>, l: int, i0: int, j0: int, j: int, p: T)
    requires StrictWeak(lt) && NotAbove(lt, s, l, i0, p) && 1 <= l <= i0 < |s| && l < j0 <= |s| && l - 1 <= j
    requires forall k :: j < k < j0 ==> lt(p, s[k])
    ensures j >= l
  {
    assert Le(lt, s[l], p);
  }

  /** When the scans have crossed, the range is parted. */
  lemma Crossed<T(!new)>(lt: Order<T>, s: seq<T>, l: int, u: int, i0: int, j0: int, i: int, j: int, p: T)
    requires Parting(lt, s, l, u, i0, j0, p) && 1 <= l && u + 1 < |s| && l <= i0 < i <= u + 1 && l - 1 <= j < j0 <= u && j < i
    requires (forall k :: i0 < k < i ==> lt(s[k], p)) && (forall k :: j < k < j0 ==> lt(p, s[k]))
    ensures Parted(lt, s, l, u, i, p)
  {
    if StrictWeak(lt) {
      forall k | l <= k <= i - 1
        ensures Le(lt, s[k], p)
      {
        if k > i0 { LtIsLe(lt, s[k], p); }
      }
      forall k | i <= k <= u
        ensures Le(lt, p, s[k])
      {
        if k < j0 { LtIsLe(lt, p, s[k]); }
      }
    }
  }

  lemma PivotBetween<T(!new)>(lt: Order<T>, s: seq<T>, l: int, u: int, i: int, p: T)
    requires StrictWeak(lt) && Parted(lt, s, l, u, i, p) && 1 <= l < i < u < |s| && s[u - 1] == p
    ensures var t := SwapAt(s, u - 1, i); t[i] == p && NotAbove(lt, t, l, i - 1, p) && NotBelow(lt, t, i + 1, u, p)
  {
  }

  /** One round of scans. */
  method Scans<T(!new)>(a: array<T>, l: int, u: int, i0: int, j0: int, p: T, lt: Order<T>) returns (i: int, j: int, ok: bool)
    requires 1 <= l && l + 3 <= u && u + 1 < a.Length && l <= i0 < u - 1 && l < j0 <= u - 1 && a[u - 1] == p
    requires Parting(lt, a[..], l, u, i0, j0, p)
    ensures i0 < i <= u + 1 && (ok ==> l - 1 <= j < j0) && (StrictWeak(lt) ==> ok && i < u && l <= j)
    ensures ok ==> !lt(a[i], p) && (forall k :: i0 < k < i ==> lt(a[k], p)) && !lt(p, a[j]) && (forall k :: j < k < j0 ==> lt(p, a[k]))
    ensures (forall k :: i0 < k <= u ==> lt(a[k], p)) && !lt(a[u + 1], p) && !lt(p, a[j0 - 1]) ==> ok && i == u + 1 && j == j0 - 1
  {
    hide StrictWeak;
    j := j0;
    i, ok := ScanUp(a, u, i0, p, lt);
    if StrictWeak(lt) { UpStops(lt, a[..], u, i0, i, p); }
    if !ok { return; }
    j, ok := ScanDown(a, l, j0, p, lt);
    if StrictWeak(lt) { DownStops(lt, a[..], l, i0, j0, j, p); }
  }

  /** What the scans of the last round have found: below i nothing above the pivot, from i on nothing below. */
  ghost predicate Parted<T(!new)>(lt: Order<T>, s: seq<T>, l: int, u: int, i: int, p: T) {
    StrictWeak(lt) ==> NotAbove(lt, s, l, i - 1, p) && NotBelow(lt, s, i, u, p)
  }

  /** The slots l+1..u are all below p, the next one is not, and p is not below slot u-2. */
  predicate AllBelow<T>(lt: Order<T>, s: seq<T>, l: int, u: int, p: T)
    requires 0 <= l && l + 3 <= u && u + 1 < |s|
  {
    (forall k :: l < k <= u ==> lt(s[k], p)) && !lt(s[u + 1], p) && !lt(p, s[u - 2])
  }

  /** The rounds: swap what the scans find until they cross. */
  method Rounds<T(!new)>(a: array<T>, l: int, u: int, p: T, lt: Order<T>) returns (i: int, ok: bool)
    requires 1 <= l && l + 3 <= u && u + 1 < a.Length && a[u - 1] == p && Parting(lt, a[..], l, u, l, u - 1, p)
    modifies a
    ensures PermutedIn(old(a[..]), a[..], l, u) && a[u - 1] == p
    ensures ok ==> l < i <= u + 1 && Parted(lt, a[..], l, u, i, p)
    ensures StrictWeak(lt) ==> ok && i < u
    ensures a[l] == old(a[l]) && a[u] == old(a[u]) && a[u + 1] == old(a[u + 1])
    ensures ok && i == u + 1 ==> lt(a[u], p) && !lt(a[u + 1], p)
    ensures old(AllBelow(lt, a[..], l, u, p)) ==> ok && i == u + 1 && a[..] == old(a[..])
  {
    hide StrictWeak, PermutedIn, NotAbove, NotBelow, Parting, Parted;
    ghost var s0 := a[..];
    i := l;
    var j := u - 1;
    PermutedRefl(s0, l, u);
    while true
      invariant l <= i <= j <= u - 1 && i < u - 1 && l < j && a[u - 1] == p
      invariant PermutedIn(s0, a[..], l, u) && Parting(lt, a[..], l, u, i, j, p)
      invariant a[l] == s0[l] && a[u] == s0[u] && a[u + 1] == s0[u + 1]
      invariant AllBelow(lt, s0, l, u, p) ==> a[..] == s0 && i == l && j == u - 1
      decreases j - i
    {
      ghost var s, i0, j0 := a[..], i, j;
      i, j, ok := Scans(a, l, u, i, j, p, lt);
      if !ok { return; }
      if j < i {
        Crossed(lt, s, l, u, i0, j0, i, j, p);
        return;
      }
      SwapParts(lt, s, l, u, i0, j0, i, j, p);
      Swap(a, i, j, l, u);
      PermutedTrans(s0, s, a[..], l, u, l, u);
    }
  }

  /** Partition the slots l+1..u-2 around the pivot in a[u-1], and put the pivot between. */
  method Partition<T(!new)>(a: array<T>, l: int, u: int, lt: Order<T>) returns (i: int, ok: bool)
    requires 1 <= l && l + 3 <= u && u + 1 < a.Length
    requires StrictWeak(lt) ==> Le(lt, a[l], a[u - 1]) && Le(lt, a[u - 1], a[u])
    modifies a
    ensures PermutedIn(old(a[..]), a[..], l, u + 1) && (ok ==> l < i <= u + 1)
    ensures StrictWeak(lt) ==> ok && i < u && PermutedIn(old(a[..]), a[..], l, u)
    ensures StrictWeak(lt) ==> NotAbove(lt, a[..], l, i - 1, a[i]) && NotBelow(lt, a[..], i + 1, u, a[i])
    ensures ok && i == u + 1 ==> old(lt(a[u], a[u - 1]) && !lt(a[u + 1], a[u - 1]))
    ensures ok && i == u + 1 ==> a[l] == old(a[l]) && a[u] == old(a[u]) && a[u + 1] == old(a[u - 1])
    ensures old(AllBelow(lt, a[..], l, u, a[u - 1])) ==> ok && i == u + 1 && a[..] == SwapAt(old(a[..]), u - 1, u + 1)
  {
    hide StrictWeak, PermutedIn, NotAbove, NotBelow, Parting, AllBelow, SwapAt, Parted, Le;
    var p := a[u - 1];
    ghost var s0 := a[..];
    PartingStart(lt, s0, l, u, p);
    i, ok := Rounds(a, l, u, p, lt);
    ghost var s := a[..];
    PermutedWider(s0, s, l, u);
    if !ok { return; }
    Swap(a, u - 1, i, l, u + 1);
    Swapped(s, u - 1, i);
    assert a[i] == a[..][i] && a[l] == a[..][l] && a[u] == a[..][u] && a[u + 1] == a[..][u + 1];
    PermutedTrans(s0, s, a[..], l, u + 1, l, u + 1);
    if StrictWeak(lt) {
      PivotBetween(lt, s, l, u, i, p);
      PermutedMultiset(s0, a[..], l, u + 1);
      PermutedNarrower(s0, a[..], s, i, l, u);
    }
  }

  lemma PermutedMultiset<T>(s: seq<T>, t: seq<T>, l: int, u: int)
    requires PermutedIn(s, t, l, u)
    ensures multiset(t) == multiset(s)
  {
  }

  lemma PartingStart<T(!new)>(lt: Order<T>, s: seq<T>, l: int, u: int, p: T)
    requires 1 <= l && l + 3 <= u < |s| && p == s[u - 1] && (StrictWeak(lt) ==> Le(lt, s[l], p) && Le(lt, p, s[u]))
    ensures Parting(lt, s, l, u, l, u - 1, p)
  {
  }

  lemma PermutedRefl<T>(s: seq<T>, l: int, u: int)
    ensures PermutedIn(s, s, l, u)
  {
  }

  lemma PermutedWider<T>(s: seq<T>, t: seq<T>, l: int, u: int)
    requires PermutedIn(s, t, l, u)
    ensures PermutedIn(s, t, l, u + 1)
  {
  }

  lemma PermutedNarrower<T>(s0: seq<T>, t: seq<T>, s: seq<T>, i: int, l: int, u: int)
    requires PermutedIn(s0, s, l, u) && l <= i < u && 1 <= l && l + 3 <= u < |s| && t == SwapAt(s, u - 1, i) && multiset(t) == multiset(s0)
    ensures PermutedIn(s0, t, l, u)
  {
  }

  // ---------- the whole sort ----------

  /** Of the slots l0..u0 only l..u may still be out of order. */
  predicate OnlyInside<T>(lt: Order<T>, s: seq<T>, l0: int, u0: int, l: int, u: int) {
    forall x, y :: 0 <= l0 <= x < y <= u0 < |s| && !(l <= x && y <= u) ==> Le(lt, s[x], s[y])
  }

  lemma InsideDone<T>(lt: Order<T>, s: seq<T>, l0: int, u0: int, l: int, u: int)
    requires OnlyInside(lt, s, l0, u0, l, u) && (l < u ==> Sorted(lt, s, l, u)) && 0 <= l0 <= l && u <= u0
    ensures Sorted(lt, s, l0, u0)
  {
    forall x, y | 0 <= l0 <= x < y <= u0 < |s|
      ensures Le(lt, s[x], s[y])
    {
      if l <= x && y <= u { assert Sorted(lt, s, l, u); }
    }
  }

  /** What is inside may be permuted. */
  lemma InsidePermuted<T>(lt: Order<T>, s: seq<T>, t: seq<T>, l0: int, u0: int, l: int, u: int)
    requires OnlyInside(lt, s, l0, u0, l, u) && PermutedIn(s, t, l, u) && 0 <= l0 <= l <= u <= u0 < |s|
    ensures OnlyInside(lt, t, l0, u0, l, u)
  {
    forall x, y | l0 <= x < y <= u0 && !(l <= x && y <= u)
      ensures Le(lt, t[x], t[y])
    {
      if x < l && l <= y <= u {
        StillAll(s, t, l, u, z => Le(lt, s[x], z));
      } else if l <= x <= u && u < y {
        StillAll(s, t, l, u, z => Le(lt, z, s[y]));
      }
    }
  }

  /** With the pivot in place and one side sorted, only the other side is left. */
  lemma OneSideLeft<T(!new)>(lt: Order<T>, s: seq<T>, l0: int, u0: int, l: int, u: int, i: int, left: bool)
    requires StrictWeak(lt) && OnlyInside(lt, s, l0, u0, l, u) && 0 <= l0 <= l <= i <= u <= u0 < |s|
    requires NotAbove(lt, s, l, i - 1, s[i]) && NotBelow(lt, s, i + 1, u, s[i])
    requires if left then Sorted(lt, s, l, i - 1) else Sorted(lt, s, i + 1, u)
    ensures if left then OnlyInside(lt, s, l0, u0, i + 1, u) else OnlyInside(lt, s, l0, u0, l, i - 1)
  {
    forall x, y | l <= x < y <= u && (x <= i <= y || (left && y < i) || (!left && x > i))
      ensures Le(lt, s[x], s[y])
    {
      if x < i < y { LeTrans(lt, s[x], s[i], s[y]); }
    }
  }

  /** Sorting one side keeps the pivot between the sides. */
  lemma PivotStays<T>(lt: Order<T>, s: seq<T>, t: seq<T>, l: int, u: int, i: int, j: int, k: int)
    requires PermutedIn(s, t, j, k) && 0 <= l < i && i <= u < |s| && ((j == l && k == i - 1) || (j == i + 1 && k == u))
    requires NotAbove(lt, s, l, i - 1, s[i]) && NotBelow(lt, s, i + 1, u, s[i])
    ensures t[i] == s[i] && NotAbove(lt, t, l, i - 1, t[i]) && NotBelow(lt, t, i + 1, u, t[i])
  {
    if j <= k {
      if j == l { StillAll(s, t, j, k, z => Le(lt, z, s[i])); } else { StillAll(s, t, j, k, z => Le(lt, s[i], z)); }
    }
  }

  function Log2(n: nat): (l: nat) { if n <= 1 then 0 else 1 + Log2(n / 2) }

  lemma {:induction false} Log2Monotone(a: nat, b: nat)
    requires a <= b
    ensures Log2(a) <= Log2(b)
    decreases b
  {
    if a > 1 { Log2Monotone(a / 2, b / 2); }
  }

  /** The smaller half, sorted one level deeper, is at most half as long. */
  lemma DeeperIsSmaller(small: nat, all: nat)
    requires 2 * small <= all - 1 && all >= 2
    ensures 1 + Log2(small) <= Log2(all)
  {
    Log2Monotone(small, all / 2);
  }

  function Size(l: int, u: int): nat { if l <= u then u - l + 1 else 0 }

  /** What a round does to a range: it permutes it, and leaves less to sort, or the same range with the
      ends and the slot behind it further on. */
  ghost predicate RoundDone<T(!new)>(lt: Order<T>, s: seq<T>, t: seq<T>, l: int, u: int, l2: int, u2: int) {
    && l <= l2 && u2 <= u && PermutedIn(s, t, l, u + 1)
    && (Size(l2, u2) < Size(l, u) || (l2 == l && u2 == u && RankOf(lt, t, l, u) < RankOf(lt, s, l, u)))
    && (StrictWeak(lt) ==> PermutedIn(s, t, l, u) && OnlyInside(lt, t, l, u, l2, u2) && Size(l2, u2) < Size(l, u))
  }

  // ---------- why the loop ends ----------

  /** The ends of a range and its pivot, once the three have been ordered. */
  function Median<T>(lt: Order<T>, x: T, m: T, y: T): (T, T, T) {
    var (a, u) := if lt(y, x) then (y, x) else (x, y);
    if lt(m, a) then (m, a, u) else if lt(u, m) then (a, u, m) else (a, m, u)
  }

  /** How many rounds in a row may still take in the slot b behind the range that starts with x and ends
      with y. */
  function Rank<T>(lt: Order<T>, x: T, y: T, b: T): nat { if lt(b, y) then if lt(y, x) then 1 else 0 else 2 }

  function RankOf<T>(lt: Order<T>, s: seq<T>, l: int, u: int): nat {
    if 0 <= l < u && u + 1 < |s| then Rank(lt, s[l], s[u], s[u + 1]) else 0
  }

  /** A round whose scan runs into the slot b behind the range leaves the range as it is, but for its
      pivot and that slot; whatever the order function says, it can do so twice in a row at most. */
  lemma RankDown<T>(lt: Order<T>, x: T, m: T, y: T, b: T)
    requires var (x2, p, y2) := Median(lt, x, m, y); lt(y2, p) && !lt(b, p)
    ensures var (x2, p, y2) := Median(lt, x, m, y); Rank(lt, x2, y2, p) < Rank(lt, x, y, b)
  {
  }

  lemma PivotedEnds<T>(lt: Order<T>, s: seq<T>, l: nat, u: nat)
    requires l + 3 <= u && u + 1 < |s|
    ensures var t := Pivoted(lt, s, l, u);
      (t[l], t[u - 1], t[u]) == Median(lt, s[l], s[(l + u) / 2], s[u]) && t[u + 1] == s[u + 1]
  {
  }

  /** The round that takes in the slot behind the range. */
  lemma BesideDown<T>(lt: Order<T>, s: seq<T>, t: seq<T>, l: nat, u: nat)
    requires l + 3 <= u && u + 1 < |s| == |t|
    requires var q := Pivoted(lt, s, l, u); lt(q[u], q[u - 1]) && !lt(q[u + 1], q[u - 1]) && t[l] == q[l] && t[u] == q[u] && t[u + 1] == q[u - 1]
    ensures RankOf(lt, t, l, u) < RankOf(lt, s, l, u)
  {
    hide Pivoted;
    PivotedEnds(lt, s, l, u);
    RankDown(lt, s[l], s[(l + u) / 2], s[u], s[u + 1]);
  }

  /** Sorting an empty range changes nothing. */
  lemma EmptyRange<T>(s: seq<T>, t: seq<T>, l: int, u: int)
    requires PermutedIn(s, t, l, u) && u < l
    ensures t == s
  {
  }

  lemma RoundInside<T(!new)>(lt: Order<T>, s0: seq<T>, s: seq<T>, t: seq<T>, l0: int, u0: int, l: int, u: int, l2: int, u2: int)
    requires RoundDone(lt, s, t, l, u, l2, u2) && 1 <= l0 <= l < u <= u0 && u0 + 1 < |s|
    requires PermutedIn(s0, s, l0, u0 + 1)
    requires StrictWeak(lt) ==> PermutedIn(s0, s, l0, u0) && OnlyInside(lt, s, l0, u0, l, u)
    ensures PermutedIn(s0, t, l0, u0 + 1)
    ensures StrictWeak(lt) ==> PermutedIn(s0, t, l0, u0) && OnlyInside(lt, t, l0, u0, l2, u2)
  {
    PermutedTrans(s0, s, t, l, u + 1, l0, u0 + 1);
    if StrictWeak(lt) {
      PermutedTrans(s0, s, t, l, u, l0, u0);
      InsidePermuted(lt, s, t, l0, u0, l, u);
    }
  }

  lemma SortedInside<T(!new)>(lt: Order<T>, s: seq<T>, l: int, u: int)
    requires Sorted(lt, s, l, u)
    ensures OnlyInside(lt, s, l, u, u, u)
  {
  }

  lemma WholeInside<T(!new)>(lt: Order<T>, s: seq<T>, l: int, u: int)
    ensures OnlyInside(lt, s, l, u, l, u)
  {
  }

  /** The smaller half j..k and the larger one l2..u2 around the pivot in slot i. */
  datatype Halves = Halves(j: int, k: int, l2: int, u2: int)

  function HalvesOf(l: int, u: int, i: int): Halves {
    if i - l < u - i then Halves(l, i - 1, i + 1, u) else Halves(i + 1, u, l, i - 1)
  }

  /** What is known once the pivot is in place and the smaller half sorted. */
  lemma RoundLeaves<T(!new)>(lt: Order<T>, s0: seq<T>, s: seq<T>, t: seq<T>, l: int, u: int, i: int)
    requires 1 <= l && l + 3 <= u && u + 1 < |s0| == |s| == |t| && l < i <= u + 1
    requires PermutedIn(s0, s, l, u + 1) && var h := HalvesOf(l, u, i); PermutedIn(s, t, h.j, h.k + 1)
    requires StrictWeak(lt) ==> i < u && PermutedIn(s0, s, l, u) && NotAbove(lt, s, l, i - 1, s[i]) && NotBelow(lt, s, i + 1, u, s[i])
    requires StrictWeak(lt) ==> var h := HalvesOf(l, u, i); PermutedIn(s, t, h.j, h.k) && Sorted(lt, t, h.j, h.k)
    requires i == u + 1 ==> var q := Pivoted(lt, s0, l, u); lt(q[u], q[u - 1]) && !lt(q[u + 1], q[u - 1]) && s[l] == q[l] && s[u] == q[u] && s[u + 1] == q[u - 1]
    ensures var h := HalvesOf(l, u, i); RoundDone(lt, s0, t, l, u, h.l2, h.u2)
  {
    hide StrictWeak, PermutedIn, Sorted, OnlyInside, NotAbove, NotBelow, Pivoted, RankOf, Le;
    var h := HalvesOf(l, u, i);
    PermutedTrans(s0, s, t, h.j, h.k + 1, l, u + 1);
    if i == u + 1 {
      EmptyRange(s, t, h.j, h.k + 1);
      BesideDown(lt, s0, s, l, u);
    }
    if StrictWeak(lt) {
      PermutedTrans(s0, s, t, h.j, h.k, l, u);
      PivotStays(lt, s, t, l, u, i, h.j, h.k);
      WholeInside(lt, t, l, u);
      OneSideLeft(lt, t, l, u, l, u, i, i - l < u - i);
    }
  }

  /** One round of auxsort: order three, partition, sort the smaller half by a recursive call. */
  method SortRound<T(!new)>(a: array<T>, l: int, u: int, lt: Order<T>) returns (l2: int, u2: int, r: Outcome, d: nat)
    requires 1 <= l < u && u + 1 < a.Length
    modifies a
    ensures PermutedIn(old(a[..]), a[..], l, u + 1) && (StrictWeak(lt) ==> PermutedIn(old(a[..]), a[..], l, u))
    ensures r == Done ==> RoundDone(lt, old(a[..]), a[..], l, u, l2, u2)
    ensures d <= Log2(Size(l, u)) && (StrictWeak(lt) ==> r == Done)
    decreases Size(l, u), 0
  {
    hide StrictWeak, PermutedIn, Sorted, OnlyInside, NotAbove, NotBelow, Log2, Pivoted, RankOf, AllBelow, SwapAt, Le;
    ghost var s0 := a[..];
    l2, u2, r, d := u, u, Done, 0;
    var done := MedianOfThree(a, l, u, lt);
    PermutedWider(s0, a[..], l, u);
    if done {
      if StrictWeak(lt) { SortedInside(lt, a[..], l, u); }
      return;
    }
    ghost var s1 := a[..];
    var i, ok := Partition(a, l, u, lt);
    ghost var s2 := a[..];
    PermutedTrans(s0, s1, s2, l, u + 1, l, u + 1);
    if StrictWeak(lt) { PermutedTrans(s0, s1, s2, l, u, l, u); }
    if !ok { return l2, u2, InvalidOrder, d; }
    r, d := SmallerHalf(a, l, u, i, lt);
    if StrictWeak(lt) { HalfInside(s0, s2, a[..], l, u, i); }
    HalfWider(s0, s2, a[..], l, u, i);
    var h := HalvesOf(l, u, i);
    l2, u2 := h.l2, h.u2;
    if r == Done { RoundLeaves(lt, s0, s2, a[..], l, u, i); }
  }

  lemma HalfInside<T>(s0: seq<T>, s: seq<T>, t: seq<T>, l: int, u: int, i: int)
    requires PermutedIn(s0, s, l, u) && l < i <= u + 1 && var h := HalvesOf(l, u, i); PermutedIn(s, t, h.j, h.k)
    ensures PermutedIn(s0, t, l, u)
  {
    var h := HalvesOf(l, u, i);
    PermutedTrans(s0, s, t, h.j, h.k, l, u);
  }

  lemma HalfWider<T>(s0: seq<T>, s: seq<T>, t: seq<T>, l: int, u: int, i: int)
    requires PermutedIn(s0, s, l, u + 1) && l < i <= u + 1 && var h := HalvesOf(l, u, i); PermutedIn(s, t, h.j, h.k + 1)
    ensures PermutedIn(s0, t, l, u + 1)
  {
    var h := HalvesOf(l, u, i);
    PermutedTrans(s0, s, t, h.j, h.k + 1, l, u + 1);
  }

  /** The recursive call, one level deeper. */
  method SmallerHalf<T(!new)>(a: array<T>, l: int, u: int, i: int, lt: Order<T>) returns (r: Outcome, d: nat)
    requires 1 <= l && l + 3 <= u && u + 1 < a.Length && l < i <= u + 1
    modifies a
    ensures var h := HalvesOf(l, u, i); PermutedIn(old(a[..]), a[..], h.j, h.k + 1) && d <= Log2(Size(l, u))
    ensures StrictWeak(lt) ==> var h := HalvesOf(l, u, i); r == Done && PermutedIn(old(a[..]), a[..], h.j, h.k) && Sorted(lt, a[..], h.j, h.k)
    decreases Size(l, u) - 1, 2
  {
    hide StrictWeak, PermutedIn, Sorted, Log2;
    var h := HalvesOf(l, u, i);
    DeeperIsSmaller(Size(h.j, h.k), Size(l, u));
    r, d := AuxSort(a, h.j, h.k, lt);
    d := d + 1;
  }

  /** auxsort.  The loop deals with the larger half, a recursive call with the smaller one; depth is
      the number of calls below this one at the deepest.  It ends for every order function. */
  method AuxSort<T(!new)>(a: array<T>, l0: int, u0: int, lt: Order<T>) returns (r: Outcome, depth: nat)
    requires 1 <= l0 && u0 + 1 < a.Length
    modifies a
    ensures PermutedIn(old(a[..]), a[..], l0, u0 + 1) && depth <= Log2(Size(l0, u0))
    ensures StrictWeak(lt) ==> r == Done && PermutedIn(old(a[..]), a[..], l0, u0) && Sorted(lt, a[..], l0, u0)
    decreases Size(l0, u0), 1
  {
    hide StrictWeak, PermutedIn, Sorted, OnlyInside, NotAbove, NotBelow, Log2, RankOf;
    var l, u := l0, u0;
    depth := 0;
    r := Done;
    ghost var s0 := a[..];
    Untouched(lt, s0, l0, u0);
    while l < u
      invariant l0 <= l && u <= u0 && depth <= Log2(Size(l0, u0)) && r == Done
      invariant PermutedIn(s0, a[..], l0, u0 + 1) && (StrictWeak(lt) ==> PermutedIn(s0, a[..], l0, u0))
      invariant StrictWeak(lt) ==> OnlyInside(lt, a[..], l0, u0, l, u)
      decreases Size(l, u), RankOf(lt, a[..], l, u)
    {
      ghost var s, l1, u1 := a[..], l, u;
      var d;
      l, u, r, d := SortRound(a, l, u, lt);
      Log2Monotone(Size(l1, u1), Size(l0, u0));
      if d > depth { depth := d; }
      if r != Done {
        PermutedTrans(s0, s, a[..], l1, u1 + 1, l0, u0 + 1);
        return;
      }
      RoundInside(lt, s0, s, a[..], l0, u0, l1, u1, l, u);
    }
    if StrictWeak(lt) { InsideDone(lt, a[..], l0, u0, l, u); }
  }

  lemma Untouched<T>(lt: Order<T>, s: seq<T>, l: int, u: int)
    ensures PermutedIn(s, s, l, u) && PermutedIn(s, s, l, u + 1) && OnlyInside(lt, s, l, u, l, u)
  {
  }

  /** table.sort on the slots 1..n. */
  method Sort<T(!new)>(a: array<T>, n: nat, lt: Order<T>) returns (r: Outcome)
    requires n + 1 < a.Length
    modifies a
    ensures multiset(a[..]) == multiset(old(a[..]))
    ensures StrictWeak(lt) ==> r == Done && Sorted(lt, a[..], 1, n)
    ensures StrictWeak(lt) ==> forall k :: n < k < a.Length ==> a[k] == old(a[k])
  {
    hide StrictWeak, Sorted;
    var depth;
    r, depth := AuxSort(a, 1, n, lt);
  }

  /** An order function that contradicts itself: 2, 3 and 4 come before 4, and 4 before 2. */
  function Contradictory(): Order<int> { (x, y) => (2 <= x <= 4 && y == 4) || (x == 4 && y == 2) }

  lemma ContradictoryRound()
    ensures Pivoted(Contradictory(), [0, 1, 2, 3, 4, 5], 1, 4) == [0, 1, 3, 4, 2, 5]
    ensures AllBelow(Contradictory(), [0, 1, 3, 4, 2, 5], 1, 4, 4) && !StrictWeak(Contradictory())
    ensures SwapAt([0, 1, 3, 4, 2, 5], 3, 5) == [0, 1, 3, 5, 2, 4]
  {
    var lt, s := Contradictory(), [0, 1, 2, 3, 4, 5];
    assert Ends(lt, s, 1, 4) == s;
    assert Middle(lt, s, 1, 2, 4) == [0, 1, 4, 3, 2, 5];
    assert lt(4, 4);
  }

  /** With such a function a round on the slots 1..4 exchanges slot 3 with slot 5, beside the range. */
  method SlotBeside() returns (a: array<int>)
    ensures fresh(a) && a[..] == [0, 1, 3, 5, 2, 4]
  {
    hide StrictWeak, PermutedIn, AllBelow, Pivoted, SwapAt, Contradictory, NotAbove, NotBelow, Sorted;
    a := new int[6](i => i);
    ContradictoryRound();
    assert a[..] == [0, 1, 2, 3, 4, 5];
    var done := MedianOfThree(a, 1, 4, Contradictory());
    assert a[..] == [0, 1, 3, 4, 2, 5];
    assert a[3] == a[..][3] == 4;
    var i, ok := Partition(a, 1, 4, Contradictory());
  }
}
