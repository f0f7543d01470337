/** The code generator for arithmetic, driven by the parser: what it emits computes the value of the
    expression it has parsed. */
module CodeGen {
  import opened CodeParse
  import opened CodeMachine

  datatype Outcome = Done | SyntaxError | TooComplex

  /** The folder never produces a NaN, and the negation of a number that is not NaN is none. */
  ghost predicate NumbersOk(ops: Ops) { forall n :: !ops.isNaN(n) ==> !ops.isNaN(ops.neg(n)) }

  class FuncState {
    const ops: Ops
    const nactvar: nat
    var input: seq<Token>
    var code: seq<Instr>
    var k: seq<int>
    var freereg: nat
    var maxstacksize: nat

    ghost predicate Valid()
      reads this
    {
      nactvar <= freereg <= maxstacksize <= MAXSTACK && NumbersOk(ops)
    }

    /** The code from base on is settled but for what e waits for, computes ast into e, writes
        registers from lo on only, and takes at most one register, the one at lo. */
    ghost predicate Compiled(base: nat, lo: nat, e: Exp, ast: Expr)
      reads this
    {
      && Valid() && base <= |code|
      && Placed(code[base..], |k|, e, lo, nactvar, freereg)
      && Safe(Settled(code[base..], e), lo, maxstacksize, |k|)
      && Computes(ops, k, code[base..], e, ast)
      && (e.Reloc? ==> e.pc + 1 == |code|) && (e.KNum? ==> !ops.isNaN(e.n)) && LocalsBelow(ast, nactvar)
    }

    /** Numerals are not NaN, and names are those of active locals. */
    predicate InputOk(ts: seq<Token>) {
      forall j :: 0 <= j < |ts| ==> (ts[j].TNum? ==> !ops.isNaN(ts[j].n)) && (ts[j].TName? ==> ts[j].r < nactvar)
    }

    // ---------- registers and constants ----------

    /** luaK_reserveregs, luaK_checkstack. */
    method ReserveReg() returns (ok: bool)
      requires Valid()
      modifies this`freereg, this`maxstacksize
      ensures maxstacksize >= old(maxstacksize) && (ok ==> Valid() && freereg == old(freereg) + 1)
      ensures !ok ==> old(freereg) + 1 >= MAXSTACK
    {
      var newstack := freereg + 1;
      if newstack > maxstacksize {
        if newstack >= MAXSTACK { return false; }
        maxstacksize := newstack;
      }
      freereg := freereg + 1;
      ok := true;
    }

    /** freeexp, freereg: registers are given back in the opposite order. */
    method FreeExp(e: Exp)
      requires Valid() && (e.NonReloc? && e.r >= nactvar ==> e.r + 1 == freereg)
      modifies this`freereg
      ensures Valid() && freereg == old(freereg) - (if e.NonReloc? && e.r >= nactvar then 1 else 0)
    {
      if e.NonReloc? && e.r >= nactvar { freereg := freereg - 1; }
    }

    /** luaK_numberK: an equal constant is used again. */
    method NumberK(n: int) returns (i: nat)
      modifies this`k
      ensures i < |k| && k[i] == n && n !in k[..i]
      ensures k == if n in old(k) then old(k) else old(k) + [n]
    {
      i := 0;
      while i < |k|
        invariant i <= |k| && n !in k[..i]
      {
        if k[i] == n { return; }
        i := i + 1;
      }
      k := k + [n];
    }

    // ---------- moving an expression ----------

    /** discharge2reg, for an expression that is not waiting for a register. */
    method LoadInto(e: Exp, reg: nat, ghost base: nat, ghost ast: Expr) returns (r: Exp)
      requires !e.Reloc? && base <= |code| && Computes(ops, k, code[base..], e, ast) && Safe(code[base..], 0, MAXSTACK, |k|)
      requires (e.K? ==> e.i < |k|) && !(e.NonReloc? && e.r == reg)
      modifies this`code, this`k
      ensures r == NonReloc(reg) && old(k) <= k
      ensures |code| == |old(code)| + 1 && old(code) <= code && code[|code| - 1].a == reg && ConstsBelow(code[|code| - 1], |k|)
      ensures Computes(ops, k, code[base..], r, ast)
    {
      ghost var c0, k0 := code[base..], k;
      var i: Instr;
      if e.KNum? {
        var c := NumberK(e.n);
        i := LoadK(reg, c);
      } else if e.K? {
        i := LoadK(reg, e.i);
      } else {
        i := Move(reg, e.r);
      }
      assert ConstsBelow(i, |k|) && i.a == reg;
      code := code + [i];
      assert code[base..] == c0 + [i];
      ComputesLoaded(ops, k0, k, c0, e, ast, i, MAXSTACK);
      r := NonReloc(reg);
    }

    /** luaK_exp2nextreg: the value goes to the register on top of the active ones. */
    method Exp2NextReg(e: Exp, ghost base: nat, ghost lo: nat, ghost ast: Expr) returns (ok: bool, r: Exp)
      requires Compiled(base, lo, e, ast)
      modifies this`code, this`k, this`freereg, this`maxstacksize
      ensures ok ==> Compiled(base, lo, r, ast) && r == NonReloc(lo) && old(k) <= k && Kept(old(code), code, base)
      ensures maxstacksize >= old(maxstacksize) && (!ok ==> lo + 1 >= MAXSTACK)
    {
      hide Computes;
      ghost var c0 := code[base..];
      r := e;
      FreeExp(e);
      ok := ReserveReg();
      if !ok { return; }
      if e.Reloc? {
        ComputesPatched(ops, k, c0, e, ast, lo);
        code := code[|code| - 1 := SetA(code[|code| - 1], freereg - 1)];
        assert code[base..] == c0[|c0| - 1 := SetA(c0[|c0| - 1], lo)];
        r := NonReloc(freereg - 1);
      } else if !(e.NonReloc? && e.r == freereg - 1) {
        r := LoadInto(e, freereg - 1, base, ast);
        assert code[base..][..|c0|] == c0;
      }
    }

    /** luaK_exp2anyreg. */
    method Exp2AnyReg(e: Exp, ghost base: nat, ghost lo: nat, ghost ast: Expr) returns (ok: bool, r: Exp)
      requires Compiled(base, lo, e, ast)
      modifies this`code, this`k, this`freereg, this`maxstacksize
      ensures ok ==> Compiled(base, lo, r, ast) && r.NonReloc? && old(k) <= k && Kept(old(code), code, base)
      ensures maxstacksize >= old(maxstacksize) && (!ok ==> lo + 1 >= MAXSTACK)
    {
      if e.LocalVar? {
        ok, r := true, NonReloc(e.r);
      } else if e.NonReloc? {
        ok, r := true, e;
      } else {
        ok, r := Exp2NextReg(e, base, lo, ast);
      }
    }

    /** luaK_exp2RK.  What luaK_infix has settled already stays as it is. */
    method Exp2RK(e: Exp, ghost base: nat, ghost lo: nat, ghost ast: Expr) returns (ok: bool, r: Exp, o: RK)
      requires Valid() && base <= |code| && (IsSettled(e) || Compiled(base, lo, e, ast))
      modifies this`code, this`k, this`freereg, this`maxstacksize
      ensures ok && !IsSettled(e) ==> Compiled(base, lo, r, ast)
      ensures IsSettled(e) ==> ok && r == e && unchanged(this)
      ensures ok ==> Valid() && IsOperand(r, o) && IsSettled(r) && Kept(old(code), code, base) && old(k) <= k
      ensures maxstacksize >= old(maxstacksize) && (!ok ==> lo + 1 >= MAXSTACK)
    {
      r := e;
      if e.KNum? && |k| <= MAXINDEXRK {
        var i := NumberK(e.n);
        r := K(i);
        ConstantFound(ops, old(k), k, code[base..], e, ast, i);
      }
      if r.K? && r.i <= MAXINDEXRK { ok, o := true, Const(r.i); return; }
      if r.NonReloc? { ok, o := true, Reg(r.r); return; }
      ok, r := Exp2AnyReg(r, base, lo, ast);
      o := if ok then Reg(r.r) else Reg(0);
    }

    // ---------- operators ----------

    /** The left operand as luaK_infix leaves it: a numeral, or something that later code can use as it is. */
    ghost predicate Held(base: nat, mid: nat, lo: nat, e: Exp, ast: Expr)
      reads this
    {
      && Valid() && nactvar <= lo && base <= mid <= |code|
      && Safe(code[base..mid], lo, maxstacksize, |k|) && Computes(ops, k, code[base..mid], e, ast) && LocalsBelow(ast, nactvar)
      && (IsSettled(e) || (e.KNum? && !ops.isNaN(e.n)))
      && (e.K? ==> e.i < |k|) && (e.NonReloc? ==> e.r < nactvar || e.r == lo)
    }

    /** The first register above a held operand. */
    function Above(e: Exp, lo: nat): nat { if e.NonReloc? && e.r >= nactvar then lo + 1 else lo }

    /** luaK_infix, for an arithmetic operator. */
    method Infix(e: Exp, ghost base: nat, ghost lo: nat, ghost ast: Expr) returns (ok: bool, r: Exp)
      requires Compiled(base, lo, e, ast)
      modifies this`code, this`k, this`freereg, this`maxstacksize
      ensures ok ==> Held(base, |code|, lo, r, ast) && freereg == Above(r, lo) && Kept(old(code), code, base) && old(k) <= k
      ensures maxstacksize >= old(maxstacksize) && (!ok ==> lo + 1 >= MAXSTACK)
    {
      ok, r := true, e;
      assert code[base..|code|] == code[base..];
      if !e.KNum? && !IsSettled(e) {
        var o;
        ok, r, o := Exp2RK(e, base, lo, ast);
      }
      assert ok ==> code[base..|code|] == code[base..];
    }

    /** Both operands have their values after the code from base on, and hold at most the registers
        lo and lo + 1, the last one taken on top. */
    ghost predicate Ready(base: nat, lo: nat, r1: Exp, r2: Exp, a1: Expr, a2: Expr)
      reads this
    {
      && Valid() && nactvar <= lo && base <= |code| && Safe(code[base..], lo, maxstacksize, |k|)
      && Computes(ops, k, code[base..], r1, a1) && Computes(ops, k, code[base..], r2, a2)
      && IsSettled(r1) && IsSettled(r2) && (r1.K? ==> r1.i < |k|) && (r2.K? ==> r2.i < |k|)
      && TwoPlaced(r1, r2, lo, nactvar, freereg)
    }

    /** The operands of codearith: the right one is settled first. */
    method Operands(e1: Exp, e2: Exp, ghost base: nat, ghost mid: nat, ghost lo: nat, ghost a1: Expr, ghost a2: Expr) returns (ok: bool, r1: Exp, o1: RK, r2: Exp, o2: RK)
      requires Held(base, mid, lo, e1, a1) && Compiled(mid, Above(e1, lo), e2, a2)
      modifies this`code, this`k, this`freereg, this`maxstacksize
      ensures ok ==> Ready(base, lo, r1, r2, a1, a2) && IsOperand(r1, o1) && IsOperand(r2, o2) && Kept(old(code), code, base) && old(k) <= k
      ensures maxstacksize >= old(maxstacksize) && (!ok ==> lo + 2 >= MAXSTACK)
    {
      hide Computes, Safe;
      ghost var k1, c1, hi1, lo2 := k, code[base..mid], maxstacksize, Above(e1, lo);
      r1, o1 := e1, Reg(0);
      ok, r2, o2 := Exp2RK(e2, mid, lo2, a2);
      if !ok { return; }
      ghost var k2, was, top, hi2 := k, code, freereg, maxstacksize;
      assert Compiled(mid, lo2, r2, a2);
      assert was[base..mid] == c1 by { assert was[..mid][base..] == c1; }
      if e1.KNum? { NumeralIsCompiled(k1, c1, e1, a1); }
      ok, r1, o1 := Exp2RK(e1, |was|, freereg, a1);
      if !ok { return; }
      assert e1.KNum? ==> Compiled(|was|, top, r1, a1);
      assert code[..|was|] == was;
      assert code[..base] == was[..mid][..base] == old(code)[..mid][..base];
      OperandsReady(k1, k2, hi1, hi2, was, base, mid, lo, lo2, top, e1, r1, r2, a1, a2);
    }

    /** The state once both operands are settled: was is the code before the left one is looked at again. */
    lemma OperandsReady(k1: seq<int>, k2: seq<int>, hi1: nat, hi2: nat, was: seq<Instr>, base: nat, mid: nat, lo: nat, lo2: nat, top: nat, e1: Exp, r1: Exp, r2: Exp, a1: Expr, a2: Expr)
      requires Valid() && nactvar <= lo && lo2 == Above(e1, lo) && base <= mid <= |was| <= |code| && code[..|was|] == was
      requires k1 <= k2 <= k && hi1 <= hi2 <= maxstacksize && LocalsBelow(a1, nactvar) && LocalsBelow(a2, nactvar)
      requires Safe(was[base..mid], lo, hi1, |k1|) && Safe(was[mid..], lo2, hi2, |k2|) && Computes(ops, k2, was[mid..], r2, a2)
      requires Placed(was[mid..], |k2|, r2, lo2, nactvar, top) && IsSettled(r1) && IsSettled(r2)
      requires if e1.KNum? then Compiled(|was|, top, r1, a1)
               else r1 == e1 && code == was && freereg == top && Computes(ops, k1, was[base..mid], e1, a1) && (e1.K? ==> e1.i < |k1|) && (e1.NonReloc? ==> e1.r < nactvar || e1.r == lo)
      ensures Ready(base, lo, r1, r2, a1, a2)
    {
      hide Computes, Safe;
      var c1, c2, c3 := was[base..mid], was[mid..], code[|was|..];
      assert was == code[..|was|] && was[base..] == c1 + c2;
      assert code[base..] == c1 + c2 + c3;
      SafeMore(c1, lo, hi1, maxstacksize, |k1|, |k1|);
      SafeMore(c2, lo2, hi2, maxstacksize, |k2|, |k2|);
      if e1.KNum? { assert Settled(c3, r1) == c3; } else { assert c3 == []; SafeNone(top, maxstacksize, |k|); }
      OperandsJoined(ops, k1, k2, k, c1, c2, c3, e1, r1, r2, a1, a2, nactvar, lo, lo2, top, maxstacksize);
    }

    lemma NumeralIsCompiled(k1: seq<int>, c1: seq<Instr>, e: Exp, ast: Expr)
      requires Valid() && e.KNum? && Computes(ops, k1, c1, e, ast) && !ops.isNaN(e.n) && LocalsBelow(ast, nactvar)
      ensures Compiled(|code|, freereg, e, ast)
    {
      NumeralAnywhere(ops, k1, k, c1, code[|code|..], e, ast);
    }

    /** Registers are given back from the top. */
    method FreeOperands(r1: Exp, o1: RK, r2: Exp, o2: RK, ghost lo: nat)
      requires Valid() && nactvar <= lo && IsOperand(r1, o1) && IsOperand(r2, o2) && TwoPlaced(r1, r2, lo, nactvar, freereg)
      modifies this`freereg
      ensures Valid() && freereg == lo
    {
      if RKNumber(o1) > RKNumber(o2) {
        FreeExp(r1);
        FreeExp(r2);
      } else {
        FreeExp(r2);
        FreeExp(r1);
      }
    }

    /** Two numerals are folded unless the machine would divide by zero or the result would be no number. */
    predicate Folds(op: BinOp, e1: Exp, e2: Exp) {
      e1.KNum? && e2.KNum? && !((op == Div || op == Mod) && e2.n == 0) && !ops.isNaN(ops.bin(op, e1.n, e2.n))
    }

    lemma FoldsIs(op: BinOp, e1: Exp, e2: Exp)
      ensures ConstFolding(ops, op, e1, e2) == if Folds(op, e1, e2) then Some(ops.bin(op, e1.n, e2.n)) else None
    {
    }

    lemma HeldOperands(base: nat, mid: nat, lo: nat, e1: Exp, e2: Exp, a1: Expr, a2: Expr)
      requires Held(base, mid, lo, e1, a1) && Compiled(mid, Above(e1, lo), e2, a2)
      ensures LocalsBelow(a1, nactvar) && LocalsBelow(a2, nactvar) && nactvar <= lo && base <= mid <= |code|
    {
    }

    /** codearith, for a binary operator. */
    method CodeArith(op: BinOp, e1: Exp, e2: Exp, ghost base: nat, ghost mid: nat, ghost lo: nat, ghost a1: Expr, ghost a2: Expr) returns (ok: bool, r: Exp)
      requires Held(base, mid, lo, e1, a1) && Compiled(mid, Above(e1, lo), e2, a2)
      modifies this`code, this`k, this`freereg, this`maxstacksize
      ensures ok ==> Compiled(base, lo, r, Bin(op, a1, a2)) && Kept(old(code), code, base) && old(k) <= k
      ensures if Folds(op, e1, e2) then ok && r == KNum(ops.bin(op, e1.n, e2.n)) && unchanged(this) else ok ==> r.Reloc? && |code| > |old(code)|
      ensures maxstacksize >= old(maxstacksize) && (!ok ==> lo + 2 >= MAXSTACK)
    {
      hide Computes, Safe, ConstFolding, Folds, Placed, TwoPlaced, IsOperand;
      FoldsIs(op, e1, e2);
      HeldOperands(base, mid, lo, e1, e2, a1, a2);
      var f := ConstFolding(ops, op, e1, e2);
      if f.Some? {
        FoldedIsCompiled(op, e1, e2, f.value, base, mid, lo, a1, a2);
        return true, KNum(f.value);
      }
      var r1, o1, r2, o2;
      ok, r1, o1, r2, o2 := Operands(e1, e2, base, mid, lo, a1, a2);
      if !ok { return false, e1; }
      FreeOperands(r1, o1, r2, o2, lo);
      code := code + [Arith(op, 0, o1, o2)];
      r := Reloc(|code| - 1);
      ArithIsCompiled(code[..|code| - 1], base, lo, r1, r2, a1, a2, op, o1, o2);
    }

    /** luaK_prefix, for unary minus, and codearith with its one operand. */
    method Prefix(e: Exp, ghost base: nat, ghost lo: nat, ghost ast: Expr) returns (ok: bool, r: Exp)
      requires Compiled(base, lo, e, ast)
      modifies this`code, this`k, this`freereg, this`maxstacksize
      ensures ok ==> Compiled(base, lo, r, Neg(ast)) && Kept(old(code), code, base) && old(k) <= k
      ensures if e.KNum? then ok && r == KNum(ops.neg(e.n)) && unchanged(this) else ok ==> r.Reloc? && |code| > |old(code)|
      ensures maxstacksize >= old(maxstacksize) && (!ok ==> lo + 1 >= MAXSTACK)
    {
      hide Computes, Safe;
      ok, r := true, e;
      if !e.KNum? {
        ok, r := Exp2AnyReg(e, base, lo, ast);
        if !ok { return; }
      }
      if r.KNum? && !ops.isNaN(ops.neg(r.n)) {
        NegatedComputes(ops, k, code[base..], r, ast);
        return true, KNum(ops.neg(r.n));
      }
      var o;
      ok, r, o := Exp2RK(r, base, lo, ast);
      FreeExp(r);
      code := code + [Unm(0, o)];
      UnmIsCompiled(code[..|code| - 1], base, lo, r, ast);
      r := Reloc(|code| - 1);
    }

    lemma UnmIsCompiled(c0: seq<Instr>, base: nat, lo: nat, r: Exp, ast: Expr)
      requires Valid() && nactvar <= lo == freereg && base <= |c0| && Safe(c0[base..], lo, maxstacksize, |k|) && LocalsBelow(ast, nactvar)
      requires Computes(ops, k, c0[base..], r, ast) && r.NonReloc? && code == c0 + [Unm(0, Reg(r.r))]
      ensures Compiled(base, lo, Reloc(|c0|), Neg(ast))
    {
      hide Computes;
      var c := c0[base..];
      assert code[base..] == c + [Unm(0, Reg(r.r))];
      ComputesNeg(ops, k, c, r, ast);
      WaitingAnywhere(ops, k, code[base..], |c|, |c0|, Neg(ast));
      assert Settled(code[base..], Reloc(|c0|)) == c;
    }

    // ---------- the parser ----------

    /** expr, with its value put on top of the registers: the tokens taken are an expression of the
        grammar, and the code puts its value into the next register and leaves all lower ones alone. */
    method Expression() returns (res: Outcome, ghost ast: Expr)
      requires Valid() && InputOk(input)
      modifies this
      ensures res == Done ==> Valid() && freereg == old(freereg) + 1 && old(code) <= code && old(k) <= k
      ensures res == Done ==> ReadAs(Sum, old(input), Parsed(ast, input)) && Next(input) == 0
      ensures res == Done ==> forall regs: Regs :: PutsValue(ops, k, code[|old(code)|..], regs, old(freereg), ast)
      ensures res == SyntaxError ==> forall e: Expr, n: nat :: n <= |old(input)| && Derives(Sum, old(input)[..n], e) ==> Next(old(input)[n..]) > 0
      ensures res == TooComplex ==> old(freereg) + |old(input)| >= MAXSTACK
    {
      ghost var base, lo := |code|, freereg;
      var e, ok;
      res, e, ast := ParseSubExpr(0);
      if res == SyntaxError { NothingDerived(old(input)); }
      if res != Done { return; }
      ParsedIsDerived(old(input), 0);
      ok, e := Exp2NextReg(e, base, lo, ast);
      if !ok { res := TooComplex; return; }
      CompiledPutsValue(base, lo, ast);
    }

    lemma CompiledPutsValue(base: nat, lo: nat, ast: Expr)
      requires Compiled(base, lo, NonReloc(lo), ast)
      ensures forall regs: Regs :: PutsValue(ops, k, code[base..], regs, lo, ast)
    {
      forall regs: Regs
        ensures PutsValue(ops, k, code[base..], regs, lo, ast)
      {
        assert ValueIn(ops, k, code[base..], NonReloc(lo), Run(ops, k, Settled(code[base..], NonReloc(lo)), regs)) == Eval(ops, ast, regs);
        forall r: nat | r < lo ensures Run(ops, k, code[base..], regs)(r) == regs(r) { RunKeeps(ops, k, code[base..], regs, lo, maxstacksize, r); }
      }
    }

    /** simpleexp, for numerals, local names and parentheses. */
    method ParseSimple() returns (res: Outcome, e: Exp, ghost ast: Expr)
      requires Valid() && InputOk(input)
      modifies this
      ensures res == Done ==> Compiled(|old(code)|, old(freereg), e, ast) && SimpleExp(old(input)) == Some(Parsed(ast, input))
      ensures res == Done ==> InputOk(input) && old(code) <= code && old(k) <= k
      ensures res == SyntaxError ==> SimpleExp(old(input)) == None
      ensures res == TooComplex ==> old(freereg) + |old(input)| >= MAXSTACK
      ensures maxstacksize >= old(maxstacksize)
      decreases |input|, 0
    {
      hide Computes;
      res, e, ast := SyntaxError, KNum(0), Num(0);
      if input == [] { return; }
      match input[0]
      case TNum(n) =>
        res, e, ast := Done, KNum(n), Num(n);
        NumeralMeans(ops, k, code[|code|..], n);
        input := input[1..];
      case TName(x) =>
        res, e, ast := Done, LocalVar(x), Local(x);
        NameMeans(ops, k, code[|code|..], x);
        input := input[1..];
      case TOpen =>
        input := input[1..];
        res, e, ast := ParseSubExpr(0);
        if res != Done { return; }
        if input == [] || input[0] != TClose { res := SyntaxError; return; }
        input := input[1..];
      case _ =>
    }

    /** subexpr. */
    method ParseSubExpr(limit: nat) returns (res: Outcome, e: Exp, ghost ast: Expr)
      requires Valid() && InputOk(input)
      modifies this
      ensures res == Done ==> Compiled(|old(code)|, old(freereg), e, ast) && SubExpr(old(input), limit) == Some(Parsed(ast, input))
      ensures res == Done ==> InputOk(input) && old(code) <= code && old(k) <= k
      ensures res == SyntaxError ==> SubExpr(old(input), limit) == None
      ensures res == TooComplex ==> old(freereg) + |old(input)| >= MAXSTACK
      ensures maxstacksize >= old(maxstacksize)
      decreases |input|, 2
    {
      hide Computes, Safe, Operators, Placed;
      ghost var base, lo := |code|, freereg;
      res, e, ast := ParseOperand();
      if res != Done { return; }
      SubExprStarts(old(input), limit);
      while input != [] && GetBinOp(input[0]).Some? && LeftPriority(GetBinOp(input[0]).value) > limit
        invariant res == Done && Compiled(base, lo, e, ast) && SubExpr(old(input), limit) == Operators(ast, input, limit)
        invariant InputOk(input) && |input| < |old(input)| && old(code) <= code && old(k) <= k && maxstacksize >= old(maxstacksize)
        decreases |input|
      {
        res, e, ast := ParseOperator(limit, e, base, lo, ast);
        if res != Done { return; }
      }
      StopsAt(ast, input, limit);
    }

    /** The start of subexpr: a simple expression, or a unary minus with its operand. */
    method ParseOperand() returns (res: Outcome, e: Exp, ghost ast: Expr)
      requires Valid() && InputOk(input)
      modifies this
      ensures res == Done ==> Compiled(|old(code)|, old(freereg), e, ast) && FirstOperand(old(input)) == Some(Parsed(ast, input))
      ensures res == Done ==> InputOk(input) && old(code) <= code && old(k) <= k
      ensures res == SyntaxError ==> FirstOperand(old(input)) == None
      ensures res == TooComplex ==> old(freereg) + |old(input)| >= MAXSTACK
      ensures maxstacksize >= old(maxstacksize)
      decreases |input|, 1
    {
      hide Computes, Safe, SubExpr;
      ghost var base, lo := |code|, freereg;
      if input != [] && input[0] == TMinus {
        input := input[1..];
        res, e, ast := ParseSubExpr(UNARY_PRIORITY);
        if res != Done { return; }
        var ok;
        ok, e := Prefix(e, base, lo, ast);
        if !ok { res := TooComplex; return; }
        ast := Neg(ast);
      } else {
        res, e, ast := ParseSimple();
      }
    }

    /** One turn of the loop in subexpr: an operator and its right operand. */
    method ParseOperator(limit: nat, e1: Exp, ghost base: nat, ghost lo: nat, ghost ast1: Expr) returns (res: Outcome, e: Exp, ghost ast: Expr)
      requires Compiled(base, lo, e1, ast1) && InputOk(input) && input != [] && GetBinOp(input[0]).Some? && LeftPriority(GetBinOp(input[0]).value) > limit
      modifies this
      ensures res == Done ==> Compiled(base, lo, e, ast) && Operators(ast1, old(input), limit) == Operators(ast, input, limit) && |input| < |old(input)|
      ensures res == Done ==> InputOk(input) && Kept(old(code), code, base) && old(k) <= k
      ensures res == SyntaxError ==> Operators(ast1, old(input), limit) == None
      ensures res == TooComplex ==> lo + 1 + |old(input)| >= MAXSTACK
      ensures maxstacksize >= old(maxstacksize)
      decreases |input|, 0
    {
      hide Computes, Safe, SubExpr;
      var op := GetBinOp(input[0]).value;
      ast := ast1;
      input := input[1..];
      var ok;
      ok, e := Infix(e1, base, lo, ast1);
      if !ok { res := TooComplex; return; }
      ghost var was, k1, hi1 := code, k, maxstacksize;
      var e2;
      ghost var ast2;
      res, e2, ast2 := ParseSubExpr(RightPriority(op));
      if res != Done { return; }
      HeldStill(was, k1, hi1, base, |was|, lo, e, ast1);
      ok, e := CodeArith(op, e, e2, base, |was|, lo, ast1, ast2);
      if !ok { res := TooComplex; return; }
      ast := Bin(op, ast1, ast2);
    }

    /** An operand is held while the other one is compiled. */
    lemma HeldStill(was: seq<Instr>, k1: seq<int>, hi1: nat, base: nat, mid: nat, lo: nat, e: Exp, ast: Expr)
      requires Valid() && nactvar <= lo && base <= mid == |was| && was <= code && k1 <= k && hi1 <= maxstacksize
      requires Safe(was[base..mid], lo, hi1, |k1|) && Computes(ops, k1, was[base..mid], e, ast) && LocalsBelow(ast, nactvar)
      requires (IsSettled(e) || (e.KNum? && !ops.isNaN(e.n))) && (e.K? ==> e.i < |k1|) && (e.NonReloc? ==> e.r < nactvar || e.r == lo)
      ensures Held(base, mid, lo, e, ast)
    {
      assert code[base..mid] == was[base..mid];
      var c := was[base..mid];
      assert c + [] == c;
      ComputesLater(ops, k1, k, c, [], e, ast, lo + nactvar + 1, hi1);
    }

    lemma FoldedIsCompiled(op: BinOp, e1: Exp, e2: Exp, v: int, base: nat, mid: nat, lo: nat, a1: Expr, a2: Expr)
      requires Held(base, mid, lo, e1, a1) && Compiled(mid, Above(e1, lo), e2, a2) && ConstFolding(ops, op, e1, e2) == Some(v)
      ensures Compiled(base, lo, KNum(v), Bin(op, a1, a2))
    {
      FoldedComputes(ops, k, code[base..mid], code[mid..], code[base..], op, e1, e2, a1, a2, v);
      hide Computes;
      assert code[base..] == code[base..mid] + code[mid..];
    }

    /** The instruction, once its operands are ready. */
    lemma ArithIsCompiled(c0: seq<Instr>, base: nat, lo: nat, r1: Exp, r2: Exp, a1: Expr, a2: Expr, op: BinOp, o1: RK, o2: RK)
      requires Valid() && nactvar <= lo == freereg && base <= |c0| && Safe(c0[base..], lo, maxstacksize, |k|) && LocalsBelow(a1, nactvar) && LocalsBelow(a2, nactvar)
      requires Computes(ops, k, c0[base..], r1, a1) && Computes(ops, k, c0[base..], r2, a2) && IsOperand(r1, o1) && IsOperand(r2, o2)
      requires (r1.K? ==> r1.i < |k|) && (r2.K? ==> r2.i < |k|) && code == c0 + [Arith(op, 0, o1, o2)]
      ensures Compiled(base, lo, Reloc(|c0|), Bin(op, a1, a2))
    {
      hide Computes;
      var c := c0[base..];
      assert code[base..] == c + [Arith(op, 0, o1, o2)];
      ComputesBin(ops, k, c, r1, r2, a1, a2, op, o1, o2);
      WaitingAnywhere(ops, k, code[base..], |c|, |c0|, Bin(op, a1, a2));
      assert Settled(code[base..], Reloc(|c0|)) == c;
    }
  }

  /** constfolding. */
  function ConstFolding(ops: Ops, op: BinOp, e1: Exp, e2: Exp): Option<int> {
    if !e1.KNum? || !e2.KNum? || ((op == Div || op == Mod) && e2.n == 0) || ops.isNaN(ops.bin(op, e1.n, e2.n)) then None
    else Some(ops.bin(op, e1.n, e2.n))
  }

  /** A register or a constant that fits into an instruction. */
  predicate IsSettled(e: Exp) { e.NonReloc? || (e.K? && e.i <= MAXINDEXRK) }

  predicate IsTemp(e: Exp, nactvar: nat) { e.NonReloc? && e.r >= nactvar }

  /** The temporaries among two operands are lo, or lo and lo + 1 in some order, and nothing else is taken. */
  predicate TwoPlaced(r1: Exp, r2: Exp, lo: nat, nactvar: nat, freereg: nat) {
    if IsTemp(r1, nactvar) && IsTemp(r2, nactvar) then freereg == lo + 2 && (if r1.r > r2.r then r1.r == lo + 1 && r2.r == lo else r1.r == lo && r2.r == lo + 1)
    else if IsTemp(r1, nactvar) then freereg == lo + 1 && r1.r == lo
    else if IsTemp(r2, nactvar) then freereg == lo + 1 && r2.r == lo
    else freereg == lo
  }

  /** The code up to base is what it was, and nothing is taken away from it. */
  predicate Kept(was: seq<Instr>, code: seq<Instr>, base: nat) { base <= |was| <= |code| && code[..base] == was[..base] }

  lemma SafeMore(c: seq<Instr>, lo: nat, hi: nat, hi2: nat, nk: nat, nk2: nat)
    requires Safe(c, lo, hi, nk) && hi <= hi2 && nk <= nk2
    ensures Safe(c, lo, hi2, nk2)
  {
  }

  lemma SafeNone(lo: nat, hi: nat, nk: nat)
    ensures Safe([], lo, hi, nk)
  {
  }

  lemma NegatedComputes(ops: Ops, k: seq<int>, c: seq<Instr>, e: Exp, ast: Expr)
    requires Computes(ops, k, c, e, ast) && e.KNum?
    ensures Computes(ops, k, c, KNum(ops.neg(e.n)), Neg(ast))
  {
    forall regs: Regs
      ensures ValueIn(ops, k, c, KNum(ops.neg(e.n)), Run(ops, k, Settled(c, KNum(ops.neg(e.n))), regs)) == Eval(ops, Neg(ast), regs)
    {
      assert ValueIn(ops, k, c, e, Run(ops, k, Settled(c, e), regs)) == Eval(ops, ast, regs);
    }
  }

  /** The code puts the value into register lo, and leaves the registers below alone. */
  ghost predicate PutsValue(ops: Ops, k: seq<int>, code: seq<Instr>, regs: Regs, lo: nat, ast: Expr) {
    var after := Run(ops, k, code, regs);
    after(lo) == Eval(ops, ast, regs) && forall r: nat :: r < lo ==> after(r) == regs(r)
  }

  /** If the parser gives up, every expression that the tokens start with is followed by an operator. */
  lemma NothingDerived(ts: seq<Token>)
    requires SubExpr(ts, 0) == None
    ensures forall e: Expr, n: nat :: n <= |ts| && Derives(Sum, ts[..n], e) ==> Next(ts[n..]) > 0
  {
    hide Derives, SubExpr, Operators;
    forall e: Expr, n: nat | n <= |ts| && Derives(Sum, ts[..n], e)
      ensures Next(ts[n..]) > 0
    {
      if Next(ts[n..]) == 0 {
        assert ts[..n] + ts[n..] == ts;
        DerivedIsParsed(Sum, ts[..n], e, ts[n..], 0);
        StopsAt(e, ts[n..], 0);
        assert false;
      }
    }
  }

  /** What subexpr reads before its operators. */
  function FirstOperand(ts: seq<Token>): Option<Parsed> {
    if ts != [] && ts[0] == TMinus then
      match SubExpr(ts[1..], UNARY_PRIORITY)
      case Some(Parsed(e, rest)) => Some(Parsed(Neg(e), rest))
      case None => None
    else SimpleExp(ts)
  }

  lemma SubExprStarts(ts: seq<Token>, limit: nat)
    ensures SubExpr(ts, limit) == (match FirstOperand(ts) case Some(Parsed(e, rest)) => Operators(e, rest, limit) case None => None)
    ensures FirstOperand(ts).Some? ==> |FirstOperand(ts).value.rest| < |ts|
  {
  }

  lemma NumeralMeans(ops: Ops, k: seq<int>, c: seq<Instr>, n: int)
    ensures Computes(ops, k, c, KNum(n), Num(n))
  {
  }

  lemma NameMeans(ops: Ops, k: seq<int>, c: seq<Instr>, x: nat)
    requires c == []
    ensures Computes(ops, k, c, LocalVar(x), Local(x))
  {
  }

  lemma FoldedComputes(ops: Ops, k: seq<int>, c1: seq<Instr>, c2: seq<Instr>, c: seq<Instr>, op: BinOp, e1: Exp, e2: Exp, a1: Expr, a2: Expr, v: int)
    requires Computes(ops, k, c1, e1, a1) && Computes(ops, k, c2, e2, a2) && ConstFolding(ops, op, e1, e2) == Some(v)
    ensures Computes(ops, k, c, KNum(v), Bin(op, a1, a2))
  {
    forall regs: Regs
      ensures ValueIn(ops, k, c, KNum(v), Run(ops, k, Settled(c, KNum(v)), regs)) == Eval(ops, Bin(op, a1, a2), regs)
    {
      assert ValueIn(ops, k, c1, e1, Run(ops, k, Settled(c1, e1), regs)) == Eval(ops, a1, regs);
      assert ValueIn(ops, k, c2, e2, Run(ops, k, Settled(c2, e2), regs)) == Eval(ops, a2, regs);
    }
  }

  /** A numeral has its value wherever it is taken up. */
  lemma NumeralAnywhere(ops: Ops, k: seq<int>, k2: seq<int>, c: seq<Instr>, c2: seq<Instr>, e: Exp, ast: Expr)
    requires e.KNum? && Computes(ops, k, c, e, ast)
    ensures Computes(ops, k2, c2, e, ast)
  {
    forall regs: Regs
      ensures ValueIn(ops, k2, c2, e, Run(ops, k2, Settled(c2, e), regs)) == Eval(ops, ast, regs)
    {
      assert ValueIn(ops, k, c, e, Run(ops, k, Settled(c, e), regs)) == Eval(ops, ast, regs);
    }
  }

  lemma WaitingAnywhere(ops: Ops, k: seq<int>, c: seq<Instr>, pc: nat, pc2: nat, ast: Expr)
    requires Computes(ops, k, c, Reloc(pc), ast)
    ensures Computes(ops, k, c, Reloc(pc2), ast)
  {
    forall regs: Regs
      ensures ValueIn(ops, k, c, Reloc(pc2), Run(ops, k, Settled(c, Reloc(pc2)), regs)) == Eval(ops, ast, regs)
    {
      assert ValueIn(ops, k, c, Reloc(pc), Run(ops, k, Settled(c, Reloc(pc)), regs)) == Eval(ops, ast, regs);
    }
  }

  /** A register below lo, or a constant. */
  predicate SettledBelow(e: Exp, lo: nat, nk: nat) { (e.NonReloc? && e.r < lo) || (e.K? && e.i < nk) }

  /** The left operand computed by c1 (or, a numeral, by c3) and the right one by c2 both have their
      values after all three. */
  lemma OperandsJoined(ops: Ops, k1: seq<int>, k2: seq<int>, k3: seq<int>, c1: seq<Instr>, c2: seq<Instr>, c3: seq<Instr>, e1: Exp, r1: Exp, r2: Exp, a1: Expr, a2: Expr,
                       n: nat, lo: nat, lo2: nat, top: nat, hi: nat)
    requires k1 <= k2 <= k3 && n <= lo <= lo2 <= top && LocalsBelow(a1, n) && LocalsBelow(a2, n)
    requires Safe(c1, lo, hi, |k1|) && Safe(c2, lo2, hi, |k2|) && Safe(c3, top, hi, |k3|)
    requires Computes(ops, k2, c2, r2, a2) && SettledBelow(r2, top, |k2|)
    requires if e1.KNum? then Computes(ops, k3, c3, r1, a1) && !r1.Reloc?
             else r1 == e1 && Computes(ops, k1, c1, e1, a1) && SettledBelow(e1, lo2, |k1|)
    ensures Safe(c1 + c2 + c3, lo, hi, |k3|)
    ensures Computes(ops, k3, c1 + c2 + c3, r1, a1) && Computes(ops, k3, c1 + c2 + c3, r2, a2)
  {
    hide Computes;
    assert Safe(c1, n, hi, |k3|) && Safe(c2, lo2, hi, |k3|) && Safe(c1 + c2, n, hi, |k3|) && Safe(c2 + c3, lo2, hi, |k3|) && Safe(c2, 0, hi, |k2|) && Safe(c1, 0, hi, |k1|);
    assert c1 + c2 + c3 == c1 + (c2 + c3);
    ComputesLater(ops, k2, k3, c2, c3, r2, a2, top, hi);
    ComputesAfter(ops, k3, c1, c2 + c3, r2, a2, n, hi);
    if e1.KNum? { ComputesAfter(ops, k3, c1 + c2, c3, r1, a1, n, hi); }
    else { ComputesLater(ops, k1, k3, c1, c2 + c3, e1, a1, lo2, hi); }
  }

  /** A numeral that has become a constant. */
  lemma ConstantFound(ops: Ops, k: seq<int>, k2: seq<int>, code: seq<Instr>, e: Exp, ast: Expr, i: nat)
    requires e.KNum? && Computes(ops, k, code, e, ast) && k <= k2 && i < |k2| && k2[i] == e.n
    ensures Computes(ops, k2, code, K(i), ast)
  {
    forall regs: Regs
      ensures ValueIn(ops, k2, code, K(i), Run(ops, k2, Settled(code, K(i)), regs)) == Eval(ops, ast, regs)
    {
      assert ValueIn(ops, k, code, e, Run(ops, k, Settled(code, e), regs)) == Eval(ops, ast, regs);
    }
  }
}
