/** Jump lists: the jumps that wait for one target are threaded through their own offset fields. */
module CodeJumps {
  const NO_JUMP: int := -1
  const NO_REG: nat := 255
  const MAXARG_SBX: int := 131071

  /** Jumps, the instructions that control the jump after them, and the others. */
  datatype Instr =
    | Jmp(offset: int)
    | Test(b: nat, c: bool)
    | TestSet(a: nat, b: nat, c: bool)
    | Compare(op: nat, cond: bool, left: nat, right: nat)
    | TForLoop(base: nat, n: nat)
    | Other(word: nat)

  /** testTMode. */
  predicate IsTest(i: Instr) { i.Test? || i.TestSet? || i.Compare? || i.TForLoop? }

  /** A jump, to a position that is not negative. */
  predicate IsJump(code: seq<Instr>, pc: int) { 0 <= pc < |code| && code[pc].Jmp? && code[pc].offset + pc + 1 >= 0 }

  /** getjump: the next jump of a list.  A jump to itself marks the end. */
  function GetJump(code: seq<Instr>, pc: int): int
    requires IsJump(code, pc)
  {
    if code[pc].offset == NO_JUMP then NO_JUMP else pc + 1 + code[pc].offset
  }

  /** getjumpcontrol: the instruction that decides about a jump. */
  function Control(code: seq<Instr>, pc: nat): nat
    requires pc < |code|
    ensures Control(code, pc) <= pc
  {
    if pc >= 1 && IsTest(code[pc - 1]) then pc - 1 else pc
  }

  /** The jump list l has exactly the members xs, in this order. */
  ghost predicate IsList(code: seq<Instr>, l: int, xs: seq<nat>)
    decreases |xs|
  {
    if xs == [] then l == NO_JUMP else l == xs[0] && IsJump(code, l) && IsList(code, GetJump(code, l), xs[1..])
  }

  predicate Distinct(xs: seq<nat>) { forall i, j :: 0 <= i < j < |xs| ==> xs[i] != xs[j] }

  predicate Disjoint(xs: seq<nat>, ys: seq<nat>) { forall x :: x in xs ==> x !in ys }

  // ---------- lists ----------

  lemma {:induction false} ListSuffix(code: seq<Instr>, l: int, xs: seq<nat>, n: nat)
    requires IsList(code, l, xs) && n < |xs|
    ensures IsList(code, xs[n], xs[n..]) && IsJump(code, xs[n])
    ensures GetJump(code, xs[n]) == if n + 1 < |xs| then xs[n + 1] else NO_JUMP
    decreases n
  {
    if n == 0 { assert xs[0..] == xs; } else {
      ListSuffix(code, GetJump(code, l), xs[1..], n - 1);
      assert xs[1..][n - 1..] == xs[n..];
    }
  }

  lemma {:induction false} OneList(code: seq<Instr>, l: int, xs: seq<nat>, ys: seq<nat>)
    requires IsList(code, l, xs) && IsList(code, l, ys)
    ensures xs == ys
    decreases |xs|
  {
    if xs != [] && ys != [] { OneList(code, GetJump(code, l), xs[1..], ys[1..]); }
  }

  /** Lists have no cycles, and no link leads to its own position. */
  lemma {:induction false} ListDistinct(code: seq<Instr>, l: int, xs: seq<nat>)
    requires IsList(code, l, xs)
    ensures Distinct(xs)
    ensures forall i :: 0 <= i < |xs| ==> IsJump(code, xs[i]) && (code[xs[i]].offset == NO_JUMP <==> i == |xs| - 1)
  {
    forall i, j | 0 <= i < j < |xs| ensures xs[i] != xs[j] {
      ListSuffix(code, l, xs, i);
      ListSuffix(code, l, xs, j);
      if xs[i] == xs[j] { OneList(code, xs[i], xs[i..], xs[j..]); }
    }
    forall i | 0 <= i < |xs|
      ensures IsJump(code, xs[i]) && (code[xs[i]].offset == NO_JUMP <==> i == |xs| - 1)
    {
      ListSuffix(code, l, xs, i);
    }
  }

  lemma {:induction false} ListKept(code: seq<Instr>, code2: seq<Instr>, l: int, xs: seq<nat>)
    requires IsList(code, l, xs) && forall x :: x in xs ==> x < |code| && x < |code2| && code2[x] == code[x]
    ensures IsList(code2, l, xs)
    decreases |xs|
  {
    if xs != [] { assert forall x :: x in xs[1..] ==> x in xs; assert xs[0] in xs; ListKept(code, code2, GetJump(code, l), xs[1..]); }
  }

  /** Linking the last member of one list to the head of another one. */
  lemma {:induction false} LinkedLists(code: seq<Instr>, l: int, xs: seq<nat>, l2: int, ys: seq<nat>)
    requires IsList(code, l, xs) && IsList(code, l2, ys) && xs != [] && ys != [] && Disjoint(xs, ys) && Distinct(xs)
    ensures xs[|xs| - 1] < |code|
    ensures IsList(code[xs[|xs| - 1] := Jmp(l2 - (xs[|xs| - 1] + 1))], l, xs + ys)
    decreases |xs|
  {
    ListSuffix(code, l, xs, |xs| - 1);
    var last := xs[|xs| - 1];
    var code2 := code[last := Jmp(l2 - (last + 1))];
    assert last in xs;
    if |xs| == 1 {
      ListMembers(code, l2, ys);
      ListKept(code, code2, l2, ys);
      assert (xs + ys)[1..] == ys;
    } else {
      LinkedLists(code, GetJump(code, l), xs[1..], l2, ys);
      assert (xs + ys)[1..] == xs[1..] + ys;
    }
  }

  lemma {:induction false} ListMembers(code: seq<Instr>, l: int, xs: seq<nat>)
    requires IsList(code, l, xs)
    ensures forall i :: 0 <= i < |xs| ==> IsJump(code, xs[i])
    decreases |xs|
  {
    if xs != [] { ListMembers(code, GetJump(code, l), xs[1..]); }
  }

  // ---------- patching ----------

  /** patchtestreg, on the controlling instruction. */
  function PatchedTest(i: Instr, reg: nat): Instr {
    if i.TestSet? then (if reg != NO_REG && reg != i.b then i.(a := reg) else Test(i.b, i.c)) else i
  }

  /** Does the jump at pc produce a value? */
  predicate Produces(code: seq<Instr>, pc: nat) { 0 < pc < |code| && code[pc - 1].TestSet? }

  predicate Fits(offset: int) { -MAXARG_SBX <= offset <= MAXARG_SBX }

  function TargetOf(code: seq<Instr>, x: nat, vtarget: nat, dtarget: nat): nat { if Produces(code, x) then vtarget else dtarget }

  /** An instruction after the list xs has been patched: members jump to their target, tests that
      produced a value for a member are changed, and nothing else is. */
  function PatchedAt(code: seq<Instr>, xs: seq<nat>, vtarget: nat, reg: nat, dtarget: nat, i: nat): Instr
    requires i < |code|
  {
    if i in xs then Jmp(TargetOf(code, i, vtarget, dtarget) as int - (i + 1))
    else if i + 1 in xs then PatchedTest(code[i], reg)
    else code[i]
  }

  function Patched(code: seq<Instr>, xs: seq<nat>, vtarget: nat, reg: nat, dtarget: nat): (r: seq<Instr>)
    ensures |r| == |code|
  {
    seq(|code|, i requires 0 <= i < |code| => PatchedAt(code, xs, vtarget, reg, dtarget, i))
  }

  /** All members of xs reach their targets. */
  predicate AllFit(code: seq<Instr>, xs: seq<nat>, vtarget: nat, dtarget: nat) {
    forall x :: x in xs ==> Fits(TargetOf(code, x, vtarget, dtarget) as int - (x + 1))
  }

  /** A list that shares no member with the patched one stays as it is. */
  lemma PatchedKeepsLists(code: seq<Instr>, xs: seq<nat>, vtarget: nat, reg: nat, dtarget: nat, l: int, ys: seq<nat>)
    requires IsList(code, l, ys) && Disjoint(ys, xs)
    ensures IsList(Patched(code, xs, vtarget, reg, dtarget), l, ys)
  {
    ListMembers(code, l, ys);
    ListKept(code, Patched(code, xs, vtarget, reg, dtarget), l, ys);
  }

  /** Every jump of the list reaches its target, and any other instruction that differs is a test that
      produced the value of a member; it still tests the same register for the same outcome. */
  lemma PatchedExactly(code: seq<Instr>, l: int, xs: seq<nat>, vtarget: nat, reg: nat, dtarget: nat)
    requires IsList(code, l, xs)
    ensures forall i :: 0 <= i < |xs| ==> IsJump(code, xs[i]) && Reaches(Patched(code, xs, vtarget, reg, dtarget), xs[i], TargetOf(code, xs[i], vtarget, dtarget))
    ensures forall i: nat :: i < |code| && i !in xs && Patched(code, xs, vtarget, reg, dtarget)[i] != code[i] ==> i + 1 in xs && code[i].TestSet? && SameTest(code[i], Patched(code, xs, vtarget, reg, dtarget)[i])
  {
    ListMembers(code, l, xs);
    forall i | 0 <= i < |xs|
      ensures Reaches(Patched(code, xs, vtarget, reg, dtarget), xs[i], TargetOf(code, xs[i], vtarget, dtarget))
    {
      assert IsJump(code, xs[i]) && xs[i] in xs;
    }
  }

  // ---------- what the machine does at a patched jump ----------

  type Regs = nat -> int

  function Put(regs: Regs, a: nat, v: int): Regs { (r: nat) => if r == a then v else regs(r) }

  /** A position and the registers. */
  datatype State = State(pc: int, regs: Regs)

  /** The machine at a jump or at a test: a test whose register has the wanted truth value lets the jump
      behind it be taken, and any other test passes it over. */
  function Step(truth: int -> bool, code: seq<Instr>, s: State): State
    requires 0 <= s.pc < |code| && (code[s.pc].Jmp? || code[s.pc].Test? || code[s.pc].TestSet?)
  {
    match code[s.pc]
    case Jmp(offset) => s.(pc := s.pc + 1 + offset)
    case Test(b, c) => s.(pc := if truth(s.regs(b)) == c then s.pc + 1 else s.pc + 2)
    case TestSet(a, b, c) => if truth(s.regs(b)) == c then State(s.pc + 1, Put(s.regs, a, s.regs(b))) else s.(pc := s.pc + 2)
  }

  /** Two registers that hold the same values. */
  ghost predicate SameRegs(p: Regs, q: Regs) { forall r: nat :: p(r) == q(r) }

  /** The test before the jump at x decides about register b as i did: if it passes, the jump leads to vtarget
      with the value of b in reg, if there is one, and everything else as it was; if not, nothing happens. */
  ghost predicate PassesValue(truth: int -> bool, d: seq<Instr>, i: Instr, x: nat, vtarget: nat, reg: nat, regs: Regs)
    requires 0 < x < |d| && i.TestSet? && (d[x - 1].Test? || d[x - 1].TestSet?) && d[x].Jmp?
  {
    var s := Step(truth, d, State(x - 1, regs));
    if truth(regs(i.b)) == i.c then
      s.pc == x && Step(truth, d, s).pc == vtarget && SameRegs(Step(truth, d, s).regs, if reg == NO_REG then regs else Put(regs, reg, regs(i.b)))
    else
      s.pc == x + 1 && SameRegs(s.regs, regs)
  }

  /** What a jump of the list does once the list has been patched: one that produces a value passes it on to
      vtarget; any other leads to dtarget, and what decides about it is as it was. */
  lemma ValueReaches(code: seq<Instr>, l: int, xs: seq<nat>, vtarget: nat, reg: nat, dtarget: nat, x: nat, truth: int -> bool, regs: Regs)
    requires IsList(code, l, xs) && x in xs
    ensures IsJump(code, x) && IsJump(Patched(code, xs, vtarget, reg, dtarget), x)
    ensures var d := Patched(code, xs, vtarget, reg, dtarget);
      Produces(code, x) ==> x > 0 && code[x - 1].TestSet? && (d[x - 1].Test? || d[x - 1].TestSet?) && PassesValue(truth, d, code[x - 1], x, vtarget, reg, regs)
    ensures var d := Patched(code, xs, vtarget, reg, dtarget);
      !Produces(code, x) ==> Step(truth, d, State(x, regs)) == State(dtarget, regs) && (x > 0 && x - 1 !in xs ==> d[x - 1] == code[x - 1])
  {
    ListDistinct(code, l, xs);
    assert IsJump(code, x);
    if Produces(code, x) { NoListed(code, l, xs, x - 1); }
  }

  lemma NoListed(code: seq<Instr>, l: int, xs: seq<nat>, y: nat)
    requires IsList(code, l, xs) && y < |code| && !code[y].Jmp?
    ensures y !in xs
  {
    ListDistinct(code, l, xs);
  }

  /** Once the values are removed the test decides as before, and writes nothing. */
  lemma NoValueReaches(code: seq<Instr>, l: int, xs: seq<nat>, x: nat, truth: int -> bool, regs: Regs)
    requires IsList(code, l, xs) && x in xs && Produces(code, x)
    ensures 0 < x < |code| && code[x - 1].TestSet? && Unvalued(code, xs)[x] == code[x] && Unvalued(code, xs)[x - 1].Test?
    ensures Step(truth, Unvalued(code, xs), State(x - 1, regs)) == State(if truth(regs(code[x - 1].b)) == code[x - 1].c then x else x + 1, regs)
  {
    ListDistinct(code, l, xs);
    assert IsJump(code, x);
  }

  predicate Reaches(code: seq<Instr>, x: nat, target: nat) { IsJump(code, x) && x + 1 + code[x].offset == target }

  predicate SameTest(i: Instr, j: Instr) { i.TestSet? && ((j.Test? && j.b == i.b && j.c == i.c) || (j.TestSet? && j.b == i.b && j.c == i.c)) }

  /** Patching the first members and then the next one. */
  lemma PatchedNext(code: seq<Instr>, xs: seq<nat>, n: nat, vtarget: nat, reg: nat, dtarget: nat)
    requires n < |xs| && Distinct(xs) && forall i :: 0 <= i < |xs| ==> IsJump(code, xs[i])
    ensures IsJump(code, xs[n]) && |Patched(code, xs[..n], vtarget, reg, dtarget)| == |code|
    ensures
      var c := Patched(code, xs[..n], vtarget, reg, dtarget);
      var x := xs[n];
      c[x] == code[x] && Control(c, x) == Control(code, x) && c[Control(code, x)] == code[Control(code, x)]
    ensures
      var c := Patched(code, xs[..n], vtarget, reg, dtarget);
      var x := xs[n];
      var y := Control(code, x);
      c[y := PatchedTest(code[y], reg)][x := Jmp(TargetOf(code, x, vtarget, dtarget) as int - (x + 1))] == Patched(code, xs[..n + 1], vtarget, reg, dtarget)
  {
    var x := xs[n];
    var c, d := Patched(code, xs[..n], vtarget, reg, dtarget), Patched(code, xs[..n + 1], vtarget, reg, dtarget);
    var y := Control(code, x);
    assert x !in xs[..n];
    assert xs[..n + 1] == xs[..n] + [x];
    assert x in xs && IsJump(code, x);
    assert forall z :: z in xs[..n] ==> IsJump(code, z);
    assert x + 1 in xs[..n] ==> PatchedTest(code[x], reg) == code[x];
    forall i: nat | i < |code|
      ensures c[y := PatchedTest(code[y], reg)][x := Jmp(TargetOf(code, x, vtarget, dtarget) as int - (x + 1))][i] == d[i]
    {
      assert i in xs[..n + 1] <==> i in xs[..n] || i == x;
      assert i + 1 in xs[..n + 1] <==> i + 1 in xs[..n] || i + 1 == x;
      if i + 1 == x && i !in xs[..n] { assert y == i || code[i] == PatchedTest(code[i], reg); }
    }
  }

  // ---------- the functions ----------

  class JumpState {
    var code: seq<Instr>
    /** The list of jumps to the next instruction, and (ghost) its members. */
    var jpc: int
    var lasttarget: nat
    ghost var pending: seq<nat>

    ghost predicate Valid()
      reads this
    {
      IsList(code, jpc, pending)
    }

    /** fixjump. */
    method FixJump(pc: nat, dest: nat) returns (ok: bool)
      requires IsJump(code, pc)
      modifies this`code
      ensures ok == Fits(dest as int - (pc + 1))
      ensures code == if ok then old(code)[pc := Jmp(dest as int - (pc + 1))] else old(code)
    {
      var offset := dest as int - (pc + 1);
      ok := -MAXARG_SBX <= offset <= MAXARG_SBX;
      if ok { code := code[pc := Jmp(offset)]; }
    }

    /** luaK_concat. */
    method Concat(l1: int, l2: int, ghost xs: seq<nat>, ghost ys: seq<nat>) returns (ok: bool, l: int)
      requires IsList(code, l1, xs) && IsList(code, l2, ys) && Disjoint(xs, ys)
      modifies this`code
      ensures ok ==> IsList(code, l, xs + ys) && |code| == |old(code)|
      ensures ok ==> forall i: nat :: i < |code| && (xs == [] || i != xs[|xs| - 1]) ==> code[i] == old(code)[i]
      ensures ok == (xs == [] || ys == [] || Fits(ys[0] as int - (xs[|xs| - 1] + 1)))
      ensures !ok ==> code == old(code)
    {
      ok, l := true, l1;
      if l2 == NO_JUMP {
        assert ys == [] && xs + ys == xs;
      } else if l1 == NO_JUMP {
        assert xs == [] && xs + ys == ys;
        l := l2;
      } else {
        ListDistinct(code, l1, xs);
        var list := l1;
        ghost var n := 0;
        ListSuffix(code, l1, xs, 0);
        var next := GetJump(code, list);
        while next != NO_JUMP
          invariant code == old(code) && 0 <= n < |xs| && list == xs[n] && IsJump(code, list) && next == GetJump(code, list)
          decreases |xs| - n
        {
          ListSuffix(code, l1, xs, n);
          n := n + 1;
          ListSuffix(code, l1, xs, n);
          list := next;
          next := GetJump(code, list);
        }
        ListSuffix(code, l1, xs, n);
        LinkedLists(code, l1, xs, l2, ys);
        ok := FixJump(list, l2);
      }
    }

    /** patchtestreg. */
    method PatchTestReg(node: nat, reg: nat) returns (r: bool)
      requires IsJump(code, node)
      modifies this`code
      ensures r == Produces(old(code), node) && (!r ==> code == old(code))
      ensures r ==> var y := Control(old(code), node); var i := old(code)[y];
        code == old(code)[y := if reg == NO_REG || reg == i.b then Test(i.b, i.c) else TestSet(reg, i.b, i.c)]
      ensures code == old(code)[Control(old(code), node) := PatchedTest(old(code)[Control(old(code), node)], reg)]
    {
      var i := Control(code, node);
      if !code[i].TestSet? { return false; }
      if reg != NO_REG && reg != code[i].b { code := code[i := code[i].(a := reg)]; }
      else { code := code[i := Test(code[i].b, code[i].c)]; }
      r := true;
    }

    /** patchtestreg and fixjump for one jump. */
    method PatchOne(x: nat, vtarget: nat, reg: nat, dtarget: nat) returns (ok: bool)
      requires IsJump(code, x)
      modifies this`code
      ensures ok == Fits(TargetOf(old(code), x, vtarget, dtarget) as int - (x + 1))
      ensures ok ==> code == old(code)[Control(old(code), x) := PatchedTest(old(code)[Control(old(code), x)], reg)][x := Jmp(TargetOf(old(code), x, vtarget, dtarget) as int - (x + 1))]
    {
      var v := PatchTestReg(x, reg);
      if v { ok := FixJump(x, vtarget); } else { ok := FixJump(x, dtarget); }
    }

    /** One turn of patchlistaux, for member n of the list. */
    method PatchNth(list: nat, vtarget: nat, reg: nat, dtarget: nat, ghost c0: seq<Instr>, ghost l: int, ghost xs: seq<nat>, ghost n: nat) returns (ok: bool, next: int)
      requires IsList(c0, l, xs) && n < |xs| && list == xs[n] && code == Patched(c0, xs[..n], vtarget, reg, dtarget)
      modifies this`code
      ensures ok == Fits(TargetOf(c0, list, vtarget, dtarget) as int - (list + 1))
      ensures ok ==> code == Patched(c0, xs[..n + 1], vtarget, reg, dtarget)
      ensures next == if n + 1 < |xs| then xs[n + 1] else NO_JUMP
    {
      ListDistinct(c0, l, xs);
      ListMembers(c0, l, xs);
      ListSuffix(c0, l, xs, n);
      PatchedNext(c0, xs, n, vtarget, reg, dtarget);
      hide Patched, PatchedTest, IsList, Distinct;
      next := GetJump(code, list);
      ok := PatchOne(list, vtarget, reg, dtarget);
    }

    /** patchlistaux. */
    method PatchListAux(l: int, vtarget: nat, reg: nat, dtarget: nat, ghost xs: seq<nat>) returns (ok: bool)
      requires IsList(code, l, xs)
      modifies this`code
      ensures ok == AllFit(old(code), xs, vtarget, dtarget)
      ensures ok ==> code == Patched(old(code), xs, vtarget, reg, dtarget)
    {
      ghost var c0 := code;
      ghost var n := 0;
      var list := l;
      assert Patched(c0, xs[..0], vtarget, reg, dtarget) == c0;
      assert xs != [] ==> xs[0] == list;
      hide Patched, IsList;
      while list != NO_JUMP
        invariant 0 <= n <= |xs| && list == (if n < |xs| then xs[n] else NO_JUMP)
        invariant code == Patched(c0, xs[..n], vtarget, reg, dtarget)
        invariant forall i :: 0 <= i < n ==> Fits(TargetOf(c0, xs[i], vtarget, dtarget) as int - (xs[i] + 1))
        decreases |xs| - n
      {
        assert xs[n] in xs;
        ok, list := PatchNth(list, vtarget, reg, dtarget, c0, l, xs, n);
        if !ok { return; }
        n := n + 1;
      }
      assert xs[..n] == xs;
      ok := true;
    }

    /** need_value: does some jump of the list not produce a value? */
    method NeedValue(l: int, ghost xs: seq<nat>) returns (r: bool)
      requires IsList(code, l, xs)
      ensures r <==> exists x :: x in xs && !Produces(code, x)
    {
      ListMembers(code, l, xs);
      assert xs != [] ==> xs[0] == l;
      var list := l;
      ghost var n := 0;
      while list != NO_JUMP
        invariant 0 <= n <= |xs| && list == (if n < |xs| then xs[n] else NO_JUMP)
        invariant forall i :: 0 <= i < n ==> Produces(code, xs[i])
        decreases |xs| - n
      {
        ListSuffix(code, l, xs, n);
        if !code[Control(code, list)].TestSet? { assert xs[n] in xs; return true; }
        list := GetJump(code, list);
        n := n + 1;
      }
      r := false;
    }

    /** removevalues. */
    method RemoveValues(l: int, ghost xs: seq<nat>)
      requires IsList(code, l, xs)
      modifies this`code
      ensures code == Unvalued(old(code), xs) && IsList(code, l, xs)
      ensures forall x :: x in xs ==> !Produces(code, x)
    {
      ghost var c0 := code;
      ListMembers(c0, l, xs);
      assert xs != [] ==> xs[0] == l;
      var list := l;
      ghost var n := 0;
      assert Unvalued(c0, xs[..0]) == c0;
      while list != NO_JUMP
        invariant 0 <= n <= |xs| && list == (if n < |xs| then xs[n] else NO_JUMP)
        invariant code == Unvalued(c0, xs[..n])
        decreases |xs| - n
      {
        ListSuffix(c0, l, xs, n);
        UnvaluedNext(c0, xs, n);
        var _ := PatchTestReg(list, NO_REG);
        list := GetJump(code, list);
        n := n + 1;
      }
      assert xs[..n] == xs;
      ListKept(c0, code, l, xs) by { assert forall x :: x in xs ==> IsJump(c0, x); }
      forall x | x in xs ensures !Produces(code, x) { assert IsJump(c0, x); }
    }

    // ---------- emitting code ----------

    /** luaK_getlabel. */
    method GetLabel() returns (pc: nat)
      modifies this`lasttarget
      ensures pc == lasttarget == |code|
    {
      lasttarget := |code|;
      pc := |code|;
    }

    /** dischargejpc. */
    method DischargeJpc() returns (ok: bool)
      requires Valid()
      modifies this`code, this`jpc, this`pending
      ensures ok == AllFit(old(code), old(pending), |old(code)|, |old(code)|)
      ensures ok ==> Valid() && pending == [] && code == Patched(old(code), old(pending), |old(code)|, NO_REG, |old(code)|)
    {
      ok := PatchListAux(jpc, |code|, NO_REG, |code|, pending);
      if ok { jpc, pending := NO_JUMP, []; }
    }

    /** luaK_code: jumps to here get the position of the new instruction. */
    method Code(i: Instr) returns (ok: bool)
      requires Valid()
      modifies this`code, this`jpc, this`pending
      ensures ok == AllFit(old(code), old(pending), |old(code)|, |old(code)|)
      ensures ok ==> Valid() && pending == [] && code == Patched(old(code), old(pending), |old(code)|, NO_REG, |old(code)|) + [i]
    {
      ok := DischargeJpc();
      if ok { code := code + [i]; }
    }

    /** luaK_jump: the new jump, and with it the jumps that would have led to it. */
    method Jump() returns (ok: bool, l: int)
      requires Valid()
      modifies this`code, this`jpc, this`pending
      ensures ok ==> Valid() && pending == [] && IsList(code, l, [|old(code)|] + old(pending)) && |code| == |old(code)| + 1
      ensures ok ==> code[..|old(code)|] == old(code)
      ensures !ok ==> old(pending) != [] && !Fits(old(pending)[0] as int - (|old(code)| + 1))
    {
      ghost var held := pending;
      var list := jpc;
      assert IsList(code, list, held);
      ListMembers(code, list, held);
      jpc, pending := NO_JUMP, [];
      ok := Code(Jmp(NO_JUMP));
      assert code == old(code) + [Jmp(NO_JUMP)];
      ListKept(old(code), code, list, held) by { assert forall x :: x in held ==> IsJump(old(code), x); }
      l := |code| - 1;
      assert IsList(code, l, [l]) by { assert IsJump(code, l) && [l][1..] == []; }
      ok, l := Concat(l, list, [|old(code)|], held);
    }

    /** luaK_patchtohere. */
    method PatchToHere(l: int, ghost xs: seq<nat>) returns (ok: bool)
      requires Valid() && IsList(code, l, xs) && Disjoint(pending, xs)
      modifies this`code, this`jpc, this`pending, this`lasttarget
      ensures ok ==> Valid() && pending == old(pending) + xs && lasttarget == |code| == |old(code)|
      ensures ok ==> forall i: nat :: i < |code| && (old(pending) == [] || i != old(pending)[|old(pending)| - 1]) ==> code[i] == old(code)[i]
    {
      var _ := GetLabel();
      ok, jpc := Concat(jpc, l, pending, xs);
      pending := pending + xs;
    }

    /** luaK_patchlist. */
    method PatchList(l: int, target: nat, ghost xs: seq<nat>) returns (ok: bool)
      requires Valid() && IsList(code, l, xs) && Disjoint(pending, xs) && target <= |code|
      modifies this`code, this`jpc, this`pending, this`lasttarget
      ensures ok && target < |code| ==> pending == old(pending) && jpc == old(jpc) && code == Patched(old(code), xs, target, NO_REG, target)
      ensures ok && target == |code| ==> pending == old(pending) + xs
      ensures ok ==> Valid() && |code| == |old(code)|
    {
      if target == |code| {
        ok := PatchToHere(l, xs);
      } else {
        ok := PatchListAux(l, target, NO_REG, target, xs);
        if ok {
          assert Disjoint(pending, xs);
          PatchedKeepsLists(old(code), xs, target, NO_REG, target, jpc, pending);
        }
      }
    }
  }

  /** The code once the tests that control members of xs produce no value. */
  function Unvalued(code: seq<Instr>, xs: seq<nat>): (r: seq<Instr>)
    ensures |r| == |code|
  {
    seq(|code|, i requires 0 <= i < |code| => if i + 1 in xs then PatchedTest(code[i], NO_REG) else code[i])
  }

  lemma UnvaluedNext(code: seq<Instr>, xs: seq<nat>, n: nat)
    requires n < |xs| && forall i :: 0 <= i < |xs| ==> IsJump(code, xs[i])
    ensures IsJump(code, xs[n])
    ensures var c, x := Unvalued(code, xs[..n]), xs[n];
            && |c| == |code| && c[x] == code[x] && Control(c, x) == Control(code, x)
            && c[Control(c, x) := PatchedTest(c[Control(c, x)], NO_REG)] == Unvalued(code, xs[..n + 1])
  {
    var x := xs[n];
    var c, d := Unvalued(code, xs[..n]), Unvalued(code, xs[..n + 1]);
    assert xs[..n + 1] == xs[..n] + [x];
    assert IsJump(code, x);
    assert c[x] == code[x];
    var y := Control(c, x);
    forall i: nat | i < |code|
      ensures c[y := PatchedTest(c[y], NO_REG)][i] == d[i]
    {
      assert i + 1 in xs[..n + 1] <==> i + 1 in xs[..n] || i + 1 == x;
    }
  }
}
