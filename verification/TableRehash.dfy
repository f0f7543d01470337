/** Sizing a table: counting its integer keys by powers of two, and choosing the size of the array part. */
module TableRehash {
  import opened TableNodes
  import opened TableMap

  const MAXBITS: nat := 26

  function TwoTo(l: nat): (r: nat)
    ensures r > 0
  {
    if l == 0 then 1 else 2 * TwoTo(l - 1)
  }

  lemma {:induction false} TwoToMonotone(a: nat, b: nat)
    requires a <= b
    ensures TwoTo(a) <= TwoTo(b)
    decreases b
  {
    if a < b { TwoToMonotone(a, b - 1); }
  }

  /** ceillog2: the least l with 2^l >= x. */
  function CeilLog2(x: nat): (l: nat)
    requires x > 0
    decreases x
  {
    if x == 1 then 0 else 1 + CeilLog2((x + 1) / 2)
  }

  lemma {:induction false} CeilLog2Is(x: nat)
    requires x > 0
    ensures x <= TwoTo(CeilLog2(x)) && (CeilLog2(x) > 0 ==> TwoTo(CeilLog2(x) - 1) < x)
    decreases x
  {
    if x > 1 {
      CeilLog2Is((x + 1) / 2);
      var l := CeilLog2((x + 1) / 2);
      if l > 0 { assert TwoTo(l) == 2 * TwoTo(l - 1); }
    }
  }

  /** The slots of slice l: above 2^(l-1), up to 2^l. */
  function Below(l: nat): nat { if l == 0 then 0 else TwoTo(l - 1) }

  predicate InSlice(k: Key, l: nat) { InArray(k, TwoTo(l)) && !InArray(k, Below(l)) }

  /** An integer key from 1 to 2^l is in exactly the slice of its logarithm. */
  lemma SliceOf(k: Key, l: nat)
    requires k.IntKey? && k.n > 0
    ensures InSlice(k, l) <==> l == CeilLog2(k.n)
  {
    CeilLog2Is(k.n);
    var c := CeilLog2(k.n);
    if l < c { TwoToMonotone(l, c - 1); }
    if c < l { TwoToMonotone(c, l - 1); }
  }

  // ---------- counts ----------

  /** Non-nil values among the first n. */
  function ItemCount(items: seq<Value>, n: nat): (c: nat)
    requires n <= |items|
    ensures c <= n
    decreases n
  {
    if n == 0 then 0 else ItemCount(items, n - 1) + if items[n - 1] == Nil then 0 else 1
  }

  function Min(a: nat, b: nat): nat { if a < b then a else b }

  function ItemsUpTo(items: seq<Value>, hi: nat): (c: nat)
    ensures c <= hi
  {
    ItemCount(items, Min(hi, |items|))
  }

  /** Entries with a value among the first n nodes whose key is an integer from 1 to hi. */
  function NodeInts(ns: seq<Node>, n: nat, hi: nat): (c: nat)
    requires n <= |ns|
    decreases n
  {
    if n == 0 then 0 else NodeInts(ns, n - 1, hi) + if ns[n - 1].val != Nil && InArray(ns[n - 1].key, hi) then 1 else 0
  }

  /** Entries with a value among the first n nodes. */
  function NodeCount(ns: seq<Node>, n: nat): (c: nat)
    requires n <= |ns|
    decreases n
  {
    if n == 0 then 0 else NodeCount(ns, n - 1) + if ns[n - 1].val != Nil then 1 else 0
  }

  function One(k: Key, hi: nat): nat { if InArray(k, hi) then 1 else 0 }

  /** How many of the slots 1..hi would be in use, counting the extra key. */
  function InUse(items: seq<Value>, ns: seq<Node>, ek: Key, hi: nat): nat {
    ItemsUpTo(items, hi) + NodeInts(ns, |ns|, hi) + One(ek, hi)
  }

  lemma {:induction false} NodeIntsMonotone(ns: seq<Node>, n: nat, a: nat, b: nat)
    requires n <= |ns| && a <= b
    ensures NodeInts(ns, n, a) <= NodeInts(ns, n, b) <= NodeCount(ns, n)
    decreases n
  {
    if n > 0 { NodeIntsMonotone(ns, n - 1, a, b); }
  }

  lemma {:induction false} ItemCountMonotone(items: seq<Value>, a: nat, b: nat)
    requires a <= b <= |items|
    ensures ItemCount(items, a) <= ItemCount(items, b)
    decreases b
  {
    if a < b { ItemCountMonotone(items, a, b - 1); }
  }

  // ---------- no slot is used twice ----------

  /** The integers above lo, up to hi. */
  function Range(lo: int, hi: int): (s: set<int>)
    ensures forall x :: x in s <==> lo < x <= hi
    decreases hi - lo
  {
    if lo >= hi then {} else Range(lo, hi - 1) + {hi}
  }

  lemma {:induction false} RangeSize(lo: int, hi: int)
    requires lo <= hi
    ensures |Range(lo, hi)| == hi - lo
    decreases hi - lo
  {
    if lo < hi { RangeSize(lo, hi - 1); }
  }

  lemma SubsetSize<T>(a: set<T>, b: set<T>)
    requires a <= b
    ensures |a| <= |b|
    decreases |a|
  {
    if x :| x in a {
      SubsetSize(a - {x}, b - {x});
    }
  }

  /** The integer keys that NodeInts counts. */
  function IntsOf(ns: seq<Node>, n: nat, hi: nat): set<int>
    requires n <= |ns|
    decreases n
  {
    if n == 0 then {} else IntsOf(ns, n - 1, hi) + if ns[n - 1].val != Nil && InArray(ns[n - 1].key, hi) then {ns[n - 1].key.n} else {}
  }

  /** The keys of the entries are distinct, alive, and not in the array part. */
  predicate KeysOk(ns: seq<Node>, asize: nat) {
    && Unique(ns)
    && (forall i :: 0 <= i < |ns| && ns[i].val != Nil ==> Live(ns[i]))
    && (forall i :: 0 <= i < |ns| && ns[i].dead ==> ns[i].key.OtherKey?)
    && (forall i :: 0 <= i < |ns| && Live(ns[i]) ==> !InArray(ns[i].key, asize) && ns[i].key != NaNKey)
  }

  lemma {:induction false} IntsAre(ns: seq<Node>, n: nat, hi: nat, x: int)
    requires n <= |ns| && x in IntsOf(ns, n, hi)
    ensures x <= hi && exists i :: 0 <= i < n && ns[i].val != Nil && ns[i].key == IntKey(x) && InArray(ns[i].key, hi)
    decreases n
  {
    if x in IntsOf(ns, n - 1, hi) { IntsAre(ns, n - 1, hi, x); } else { assert ns[n - 1].key == IntKey(x); }
  }

  lemma {:induction false} IntsOfSize(ns: seq<Node>, n: nat, hi: nat, asize: nat)
    requires n <= |ns| && KeysOk(ns, asize)
    ensures |IntsOf(ns, n, hi)| == NodeInts(ns, n, hi)
    decreases n
  {
    if n > 0 {
      IntsOfSize(ns, n - 1, hi, asize);
      var d := ns[n - 1];
      if d.val != Nil && InArray(d.key, hi) { NewInt(ns, n - 1, hi, asize); }
    }
  }

  lemma NewInt(ns: seq<Node>, n: nat, hi: nat, asize: nat)
    requires n < |ns| && KeysOk(ns, asize) && ns[n].val != Nil && InArray(ns[n].key, hi)
    ensures ns[n].key.n !in IntsOf(ns, n, hi)
  {
    if ns[n].key.n in IntsOf(ns, n, hi) {
      IntsAre(ns, n, hi, ns[n].key.n);
      assert false;
    }
  }

  /** The integer keys of the hash part lie above the array part. */
  lemma IntsInRange(ns: seq<Node>, hi: nat, asize: nat)
    requires KeysOk(ns, asize)
    ensures IntsOf(ns, |ns|, hi) <= Range(asize, hi)
  {
    forall x | x in IntsOf(ns, |ns|, hi)
      ensures x in Range(asize, hi)
    {
      IntsAre(ns, |ns|, hi, x);
    }
  }

  lemma ExtraIsNew(ns: seq<Node>, hi: nat, asize: nat, ek: Key)
    requires KeysOk(ns, asize) && NotPresent(ns, ek) && InArray(ek, hi)
    ensures ek.n !in IntsOf(ns, |ns|, hi)
  {
    if ek.n in IntsOf(ns, |ns|, hi) {
      IntsAre(ns, |ns|, hi, ek.n);
      assert false;
    }
  }

  /** No more slots are in use than there are. */
  lemma InUseBound(items: seq<Value>, ns: seq<Node>, ek: Key, hi: nat)
    requires KeysOk(ns, |items|) && NotPresent(ns, ek) && !InArray(ek, |items|)
    ensures InUse(items, ns, ek, hi) <= hi
  {
    var s := IntsOf(ns, |ns|, hi);
    IntsOfSize(ns, |ns|, hi, |items|);
    IntsInRange(ns, hi, |items|);
    if |items| <= hi {
      var all := Range(|items|, hi);
      RangeSize(|items|, hi);
      if InArray(ek, hi) {
        ExtraIsNew(ns, hi, |items|, ek);
        SubsetSize(s + {ek.n}, all);
      } else {
        SubsetSize(s, all);
      }
    } else {
      assert Range(|items|, hi) == {};
      assert s == {};
    }
  }

  // ---------- computesizes ----------

  /** The sum of the first n numbers. */
  function Sum(nums: seq<nat>, n: nat): (s: nat)
    requires n <= |nums|
    decreases n
  {
    if n == 0 then 0 else Sum(nums, n - 1) + nums[n - 1]
  }

  /** n is the largest power of two such that more than half of the slots 1..n are in use, or 0. */
  predicate Best(nums: seq<nat>, n: nat, na: nat)
    requires |nums| == MAXBITS + 1
  {
    if n == 0 then na == 0 && forall j :: 0 <= j <= MAXBITS ==> Sum(nums, j + 1) <= TwoTo(j) / 2
    else exists i :: 0 <= i <= MAXBITS && n == TwoTo(i) && na == Sum(nums, i + 1) && na > TwoTo(i) / 2
                     && forall j :: i < j <= MAXBITS ==> Sum(nums, j + 1) <= TwoTo(j) / 2
  }

  /** Best, of the slices below i alone. */
  predicate BestBelow(nums: seq<nat>, i: nat, n: nat, na: nat)
    requires i <= |nums|
  {
    if n == 0 then na == 0 && forall j :: 0 <= j < i ==> Sum(nums, j + 1) <= TwoTo(j) / 2
    else exists b :: 0 <= b < i && n == TwoTo(b) && na == Sum(nums, b + 1) && na > TwoTo(b) / 2
                     && forall j :: b < j < i ==> Sum(nums, j + 1) <= TwoTo(j) / 2
  }

  lemma {:induction false} SumMonotone(nums: seq<nat>, a: nat, b: nat)
    requires a <= b <= |nums|
    ensures Sum(nums, a) <= Sum(nums, b)
    decreases b
  {
    if a < b { SumMonotone(nums, a, b - 1); }
  }

  /** The slices that the loop does not look at cannot be better. */
  lemma RestIsWorse(nums: seq<nat>, i: nat, n: nat, na: nat)
    requires |nums| == MAXBITS + 1 && i <= |nums| && BestBelow(nums, i, n, na)
    requires forall j :: 0 <= j <= MAXBITS ==> Sum(nums, j + 1) <= TwoTo(j)
    requires (i <= MAXBITS && TwoTo(i) / 2 >= Sum(nums, |nums|)) || (i > 0 && Sum(nums, i) == Sum(nums, |nums|)) || Sum(nums, |nums|) == 0
    ensures Best(nums, n, na)
  {
    hide Sum, TwoTo;
    forall j | i <= j <= MAXBITS
      ensures Sum(nums, j + 1) <= TwoTo(j) / 2
    {
      WorseAt(nums, i, j);
    }
  }

  lemma WorseAt(nums: seq<nat>, i: nat, j: nat)
    requires i <= j < |nums| && (i > 0 ==> Sum(nums, i) <= TwoTo(i - 1))
    requires TwoTo(i) / 2 >= Sum(nums, |nums|) || (i > 0 && Sum(nums, i) == Sum(nums, |nums|)) || Sum(nums, |nums|) == 0
    ensures Sum(nums, j + 1) <= TwoTo(j) / 2
  {
    hide Sum;
    SumMonotone(nums, j + 1, |nums|);
    if i > 0 && Sum(nums, i) == Sum(nums, |nums|) { TwoToMonotone(i - 1, j - 1); }
    else if TwoTo(i) / 2 >= Sum(nums, |nums|) { TwoToMonotone(i, j); }
  }

  lemma NoSum(s: seq<nat>)
    ensures Sum(s, 0) == 0
  {
  }

  lemma SumNext(s: seq<nat>, i: nat)
    requires i < |s|
    ensures Sum(s, i + 1) == Sum(s, i) + s[i]
  {
  }

  method ComputeSizes(nums: array<nat>, narray: nat) returns (n: nat, na: nat)
    requires nums.Length == MAXBITS + 1 && narray == Sum(nums[..], MAXBITS + 1)
    requires forall j :: 0 <= j <= MAXBITS ==> Sum(nums[..], j + 1) <= TwoTo(j)
    ensures Best(nums[..], n, na)
  {
    hide Best, BestBelow, Sum, TwoTo, Below;
    ghost var s := nums[..];
    FirstSlice();
    NoSum(s);
    var i, twotoi, a := 0, 1, 0;
    n, na := 0, 0;
    NoneBelow(s);
    while twotoi / 2 < narray
      invariant 0 <= i <= MAXBITS && twotoi == TwoTo(i) && a == Sum(s, i) && BestBelow(s, i, n, na)
      invariant nums[..] == s
      decreases MAXBITS + 1 - i
    {
      SumNext(s, i);
      BelowGrows(i);
      if nums[i] > 0 {
        a := a + nums[i];
        if a > twotoi / 2 {
          n := twotoi;
          na := a;
        }
      }
      BestStep(s, i, n, na);
      if a == narray {
        RestIsWorse(s, i + 1, n, na);
        return;
      }
      i, twotoi := i + 1, twotoi * 2;
    }
    RestIsWorse(s, i, n, na);
  }

  lemma NoneBelow(nums: seq<nat>)
    ensures BestBelow(nums, 0, 0, 0)
  {
  }

  lemma BestStep(nums: seq<nat>, i: nat, n: nat, na: nat)
    requires |nums| == MAXBITS + 1 && i <= MAXBITS
    requires i > 0 ==> Sum(nums, i) <= TwoTo(i - 1)
    requires if nums[i] > 0 && Sum(nums, i + 1) > TwoTo(i) / 2 then n == TwoTo(i) && na == Sum(nums, i + 1) else BestBelow(nums, i, n, na)
    ensures BestBelow(nums, i + 1, n, na)
  {
    hide Sum, TwoTo;
    SumNext(nums, i);
    NoSum(nums);
    if i > 0 { BelowGrows(i - 1); }
  }

  // ---------- the counting loops ----------

  /** Entries with a value among the first n nodes whose key is in slice l. */
  function NodeSlice(ns: seq<Node>, n: nat, l: nat): (c: nat)
    requires n <= |ns|
    decreases n
  {
    if n == 0 then 0 else NodeSlice(ns, n - 1, l) + if ns[n - 1].val != Nil && InSlice(ns[n - 1].key, l) then 1 else 0
  }

  function OneSlice(k: Key, l: nat): nat { if InSlice(k, l) then 1 else 0 }

  /** What nums holds once everything is counted. */
  ghost predicate Counted(nums: seq<nat>, items: seq<Value>, ns: seq<Node>, ek: Key) {
    |nums| == MAXBITS + 1 && forall l :: 0 <= l <= MAXBITS ==>
      nums[l] == ItemSlice(items, l) + NodeSlice(ns, |ns|, l) + OneSlice(ek, l)
  }

  lemma SliceSplit(k: Key, l: nat)
    ensures One(k, TwoTo(l)) == One(k, Below(l)) + OneSlice(k, l)
  {
    if l > 0 { TwoToMonotone(l - 1, l); }
  }

  lemma {:induction false} NodeSplit(ns: seq<Node>, n: nat, l: nat)
    requires n <= |ns|
    ensures NodeInts(ns, n, TwoTo(l)) == NodeInts(ns, n, Below(l)) + NodeSlice(ns, n, l)
    decreases n
  {
    if n > 0 {
      NodeSplit(ns, n - 1, l);
      SliceSplit(ns[n - 1].key, l);
    }
  }

  lemma {:induction false} NoNodeInts(ns: seq<Node>, n: nat)
    requires n <= |ns|
    ensures NodeInts(ns, n, 0) == 0
    decreases n
  {
    if n > 0 { NoNodeInts(ns, n - 1); }
  }

  /** One slice more. */
  lemma UseSplit(nums: seq<nat>, items: seq<Value>, ns: seq<Node>, ek: Key, l: nat)
    requires Counted(nums, items, ns, ek) && l <= MAXBITS
    ensures InUse(items, ns, ek, TwoTo(l)) == InUse(items, ns, ek, Below(l)) + nums[l]
  {
    NodeSplit(ns, |ns|, l);
    SliceSplit(ek, l);
  }

  /** The sums of nums are the numbers of slots in use. */
  lemma {:induction false} SumsAreUse(nums: seq<nat>, items: seq<Value>, ns: seq<Node>, ek: Key, n: nat)
    requires Counted(nums, items, ns, ek) && n <= |nums|
    ensures Sum(nums, n) == InUse(items, ns, ek, Below(n))
    decreases n
  {
    hide Counted, InUse;
    if n > 0 {
      assert n - 1 <= MAXBITS by { CountedSize(nums, items, ns, ek); }
      SumsAreUse(nums, items, ns, ek, n - 1);
      UseSplit(nums, items, ns, ek, n - 1);
    } else {
      NoneInUse(items, ns, ek);
    }
  }

  lemma CountedSize(nums: seq<nat>, items: seq<Value>, ns: seq<Node>, ek: Key)
    requires Counted(nums, items, ns, ek)
    ensures |nums| == MAXBITS + 1
  {
  }

  lemma NoneInUse(items: seq<Value>, ns: seq<Node>, ek: Key)
    ensures InUse(items, ns, ek, 0) == 0
  {
    NoNodeInts(ns, |ns|);
  }

  lemma LogFits(n: nat, b: nat)
    requires 0 < n <= TwoTo(b)
    ensures CeilLog2(n) <= b
  {
    hide TwoTo, CeilLog2;
    CeilLog2Is(n);
    if CeilLog2(n) > b { TwoToMonotone(b, CeilLog2(n) - 1); }
  }

  lemma NoSlice(k: Key, l: nat)
    requires !InArray(k, TwoTo(MAXBITS)) && l <= MAXBITS
    ensures !InSlice(k, l)
  {
    TwoToMonotone(l, MAXBITS);
  }

  method CountInt(key: Key, nums: array<nat>) returns (c: nat)
    requires nums.Length == MAXBITS + 1
    modifies nums
    ensures forall l :: 0 <= l <= MAXBITS ==> nums[l] == old(nums[l]) + OneSlice(key, l)
    ensures c == One(key, TwoTo(MAXBITS))
  {
    hide TwoTo, CeilLog2, InSlice;
    c := 0;
    if key.IntKey? && 0 < key.n <= TwoTo(MAXBITS) {
      forall l: nat ensures InSlice(key, l) <==> l == CeilLog2(key.n) { SliceOf(key, l); }
      LogFits(key.n, MAXBITS);
      nums[CeilLog2(key.n)] := nums[CeilLog2(key.n)] + 1;
      c := 1;
    } else {
      forall l | 0 <= l <= MAXBITS ensures !InSlice(key, l) { NoSlice(key, l); }
    }
  }

  /** Non-nil items in slice l. */
  function ItemSlice(items: seq<Value>, l: nat): int { ItemsUpTo(items, TwoTo(l)) - ItemsUpTo(items, Below(l)) }

  /** Non-nil items from i to lim. */
  method CountItems(items: seq<Value>, i: nat, lim: nat) returns (lc: nat)
    requires 1 <= i && i - 1 <= lim <= |items|
    ensures lc == ItemCount(items, lim) - ItemCount(items, i - 1)
  {
    var k := i;
    lc := 0;
    while k <= lim
      invariant i <= k <= lim + 1 && lc == ItemCount(items, k - 1) - ItemCount(items, i - 1)
    {
      if items[k - 1] != Nil { lc := lc + 1; }
      k := k + 1;
    }
  }

  /** numusearray: slice by slice. */
  method NumUseArray(items: seq<Value>, nums: array<nat>) returns (ause: nat)
    requires nums.Length == MAXBITS + 1 && |items| <= TwoTo(MAXBITS)
    modifies nums
    ensures forall l :: 0 <= l <= MAXBITS ==> nums[l] == old(nums[l]) + ItemSlice(items, l)
    ensures ause == ItemCount(items, |items|)
  {
    hide ItemCount, ItemSlice, InArray, TwoTo, Below;
    ghost var before := nums[..];
    FirstSlice();
    BelowGrows(MAXBITS);
    var lg, ttlg, i := 0, 1, 1;
    ause := 0;
    NoItems(items);
    while lg <= MAXBITS
      invariant lg <= MAXBITS + 1 && ttlg == TwoTo(lg) && 1 <= i && i - 1 == Min(Below(lg), |items|)
      invariant ause == ItemCount(items, i - 1)
      invariant forall l :: lg <= l <= MAXBITS ==> nums[l] == before[l]
      invariant forall l :: 0 <= l < lg ==> nums[l] == before[l] + ItemSlice(items, l)
      decreases MAXBITS + 1 - lg
    {
      var lim := ttlg;
      if lim > |items| {
        lim := |items|;
        if i > lim {
          SlicesAbove(items, lg);
          return;
        }
      }
      BelowGrows(lg);
      ItemSliceIs(items, lg, i - 1, lim);
      var lc := CountItems(items, i, lim);
      i := lim + 1;
      nums[lg] := nums[lg] + lc;
      ause := ause + lc;
      lg, ttlg := lg + 1, ttlg * 2;
    }
  }

  lemma NoItems(items: seq<Value>)
    ensures ItemCount(items, 0) == 0
  {
  }

  lemma ItemSliceIs(items: seq<Value>, l: nat, from: nat, lim: nat)
    requires from == Min(Below(l), |items|) && lim == Min(TwoTo(l), |items|)
    ensures ItemSlice(items, l) == ItemCount(items, lim) - ItemCount(items, from)
  {
  }

  lemma FirstSlice()
    ensures Below(0) == 0 && TwoTo(0) == 1
  {
  }

  lemma BelowGrows(l: nat)
    ensures Below(l) <= TwoTo(l) && Below(l + 1) == TwoTo(l) && TwoTo(l + 1) == 2 * TwoTo(l)
  {
  }

  /** No item lies in the slices above the array part. */
  lemma SlicesAbove(items: seq<Value>, lg: nat)
    requires |items| <= Below(lg)
    ensures forall l :: lg <= l ==> ItemSlice(items, l) == 0
  {
    forall l | lg <= l
      ensures ItemSlice(items, l) == 0
    {
      if lg > 0 { TwoToMonotone(lg - 1, l); if l > 0 { TwoToMonotone(lg - 1, l - 1); } }
    }
  }

  /** numusehash: how many entries, and how many of them are candidates for the array part. */
  method NumUseHash(ns: array<Node>, nums: array<nat>) returns (totaluse: nat, ause: nat)
    requires nums.Length == MAXBITS + 1
    modifies nums
    ensures forall l :: 0 <= l <= MAXBITS ==> nums[l] == old(nums[l]) + NodeSlice(ns[..], |ns[..]|, l)
    ensures totaluse == NodeCount(ns[..], |ns[..]|) && ause == NodeInts(ns[..], |ns[..]|, TwoTo(MAXBITS))
  {
    hide TwoTo, InSlice, InArray;
    ghost var before, s := nums[..], ns[..];
    var i := ns.Length;
    totaluse, ause := 0, 0;
    while i > 0
      invariant 0 <= i <= |s| && ns[..] == s
      invariant forall l :: 0 <= l <= MAXBITS ==> nums[l] + NodeSlice(s, i, l) == before[l] + NodeSlice(s, |s|, l)
      invariant totaluse + NodeCount(s, i) == NodeCount(s, |s|)
      invariant ause + NodeInts(s, i, TwoTo(MAXBITS)) == NodeInts(s, |s|, TwoTo(MAXBITS))
    {
      i := i - 1;
      if ns[i].val != Nil {
        var c := CountInt(ns[i].key, nums);
        ause := ause + c;
        totaluse := totaluse + 1;
      }
    }
  }

  // ---------- what the counts mean ----------

  function ItemSet(items: seq<Value>, n: nat): (s: set<int>)
    requires n <= |items|
    ensures forall i :: i in s <==> 1 <= i <= n && items[i - 1] != Nil
    ensures |s| == ItemCount(items, n)
    decreases n
  {
    if n == 0 then {} else ItemSet(items, n - 1) + if items[n - 1] == Nil then {} else {n}
  }

  /** The slots 1..hi that have a value, or are the extra key's. */
  ghost function Occupied(items: seq<Value>, ns: seq<Node>, ek: Key, hi: nat): set<int> {
    set i | i in Range(0, hi) && (ValueOf(items, ns, IntKey(i)) != Nil || ek == IntKey(i))
  }

  lemma {:induction false} IntsAreAll(ns: seq<Node>, n: nat, hi: nat, i: nat)
    requires i < n <= |ns| && ns[i].val != Nil && InArray(ns[i].key, hi)
    ensures ns[i].key.n in IntsOf(ns, n, hi)
    decreases n
  {
    if i < n - 1 { IntsAreAll(ns, n - 1, hi, i); }
  }

  function OneSet(ek: Key, hi: nat): set<int> { if InArray(ek, hi) then {ek.n} else {} }

  lemma HasValueIs(items: seq<Value>, ns: seq<Node>, hi: nat, i: int)
    requires KeysOk(ns, |items|) && 0 < i <= hi
    ensures ValueOf(items, ns, IntKey(i)) != Nil <==> i in ItemSet(items, Min(hi, |items|)) || i in IntsOf(ns, |ns|, hi)
  {
    hide KeysOk, IntsOf, NodeVal, TwoTo, ItemSet, ItemCount;
    IntsInRange(ns, hi, |items|);
    if !InArray(IntKey(i), |items|) { InHash(ns, hi, |items|, i); }
  }

  lemma OccupiedIs(items: seq<Value>, ns: seq<Node>, ek: Key, hi: nat)
    requires KeysOk(ns, |items|)
    ensures Occupied(items, ns, ek, hi) == ItemSet(items, Min(hi, |items|)) + IntsOf(ns, |ns|, hi) + OneSet(ek, hi)
  {
    hide KeysOk, IntsOf, ItemSet, Occupied, OneSet;
    forall i
      ensures i in Occupied(items, ns, ek, hi) <==> i in ItemSet(items, Min(hi, |items|)) || i in IntsOf(ns, |ns|, hi) || i in OneSet(ek, hi)
    {
      OccupiedHas(items, ns, ek, hi, i);
    }
  }

  lemma OccupiedHas(items: seq<Value>, ns: seq<Node>, ek: Key, hi: nat, i: int)
    requires KeysOk(ns, |items|)
    ensures i in Occupied(items, ns, ek, hi) <==> i in ItemSet(items, Min(hi, |items|)) || i in IntsOf(ns, |ns|, hi) || i in OneSet(ek, hi)
  {
    hide KeysOk, IntsOf, ValueOf;
    IntsInRange(ns, hi, |items|);
    if 0 < i <= hi { HasValueIs(items, ns, hi, i); }
  }

  lemma UnionSize(a: set<int>, b: set<int>, c: set<int>)
    requires a !! b && a !! c && b !! c
    ensures |a + b + c| == |a| + |b| + |c|
  {
    assert |a + b| == |a| + |b| && (a + b) !! c;
  }

  /** InUse is the number of slots 1..hi that have a value in the table, the extra key counted. */
  lemma InUseCounts(items: seq<Value>, ns: seq<Node>, ek: Key, hi: nat)
    requires KeysOk(ns, |items|) && NotPresent(ns, ek) && !InArray(ek, |items|)
    ensures |Occupied(items, ns, ek, hi)| == InUse(items, ns, ek, hi)
  {
    hide KeysOk, ItemSet, IntsOf, Occupied;
    OccupiedIs(items, ns, ek, hi);
    IntsOfSize(ns, |ns|, hi, |items|);
    IntsInRange(ns, hi, |items|);
    if InArray(ek, hi) { ExtraIsNew(ns, hi, |items|, ek); }
    UnionSize(ItemSet(items, Min(hi, |items|)), IntsOf(ns, |ns|, hi), OneSet(ek, hi));
  }

  lemma InHash(ns: seq<Node>, hi: nat, asize: nat, i: int)
    requires KeysOk(ns, asize) && 0 < i <= hi
    ensures NodeVal(ns, IntKey(i)) != Nil <==> i in IntsOf(ns, |ns|, hi)
  {
    if v: Value :| v != Nil && HasVal(ns, IntKey(i), v) {
      var j :| 0 <= j < |ns| && Live(ns[j]) && ns[j].key == IntKey(i) && ns[j].val == v;
      IntsAreAll(ns, |ns|, hi, j);
    }
    if i in IntsOf(ns, |ns|, hi) {
      IntsAre(ns, |ns|, hi, i);
      var j :| 0 <= j < |ns| && ns[j].val != Nil && ns[j].key == IntKey(i);
      NodeValIs(ns, j);
    }
  }
}
