/** The register machine that arithmetic is compiled for, and what a piece of generated code means. */
module CodeMachine {
  import opened CodeParse

  const MAXSTACK: nat := 250
  const BITRK: nat := 256
  const MAXINDEXRK: nat := 255

  /** The number operations, shared by the folder and the machine. */
  datatype Ops = Ops(bin: (BinOp, int, int) -> int, neg: int -> int, isNaN: int -> bool)

  /** An operand: a register or a constant. */
  datatype RK = Reg(r: nat) | Const(i: nat)

  /** The number that stands for an operand in an instruction. */
  function RKNumber(o: RK): nat { match o case Reg(r) => r case Const(i) => i + BITRK }

  datatype Instr = LoadK(a: nat, i: nat) | Move(a: nat, from: nat) | Arith(op: BinOp, a: nat, b: RK, c: RK) | Unm(a: nat, b: RK)

  /** The registers. */
  type Regs = nat -> int

  function Put(regs: Regs, a: nat, v: int): Regs { (r: nat) => if r == a then v else regs(r) }

  function Constant(k: seq<int>, i: nat): int { if i < |k| then k[i] else 0 }

  function Operand(k: seq<int>, o: RK, regs: Regs): int {
    match o case Reg(r) => regs(r) case Const(i) => Constant(k, i)
  }

  /** What an instruction puts into its register.  (Unary minus reads a register, whatever the operand says.) */
  function Result(ops: Ops, k: seq<int>, i: Instr, regs: Regs): int {
    match i
    case LoadK(_, c) => Constant(k, c)
    case Move(_, b) => regs(b)
    case Arith(op, _, b, c) => ops.bin(op, Operand(k, b, regs), Operand(k, c, regs))
    case Unm(_, b) => ops.neg(regs(RKNumber(b)))
  }

  function SetA(i: Instr, a: nat): Instr { i.(a := a) }

  function Run(ops: Ops, k: seq<int>, code: seq<Instr>, regs: Regs): Regs
    decreases |code|
  {
    if code == [] then regs
    else
      var before := Run(ops, k, code[..|code| - 1], regs);
      var i := code[|code| - 1];
      Put(before, i.a, Result(ops, k, i, before))
  }

  function Eval(ops: Ops, e: Expr, regs: Regs): int {
    match e
    case Num(n) => n
    case Local(r) => regs(r)
    case Neg(x) => ops.neg(Eval(ops, x, regs))
    case Bin(op, l, r) => ops.bin(op, Eval(ops, l, regs), Eval(ops, r, regs))
  }

  // ---------- running ----------

  /** The instructions write registers from lo on, and use constants below nk. */
  predicate Safe(code: seq<Instr>, lo: nat, hi: nat, nk: nat) {
    forall j :: 0 <= j < |code| ==> lo <= code[j].a < hi && ConstsBelow(code[j], nk)
  }

  predicate RKBelow(o: RK, nk: nat) { o.Const? ==> o.i < nk }

  predicate ConstsBelow(i: Instr, nk: nat) {
    match i case LoadK(_, c) => c < nk case Move(_, _) => true case Arith(_, _, b, c) => RKBelow(b, nk) && RKBelow(c, nk) case Unm(_, _) => true
  }

  /** Registers below lo keep their values. */
  lemma {:induction false} RunKeeps(ops: Ops, k: seq<int>, code: seq<Instr>, regs: Regs, lo: nat, hi: nat, r: nat)
    requires Safe(code, lo, hi, |k|) && r < lo
    ensures Run(ops, k, code, regs)(r) == regs(r)
    decreases |code|
  {
    if code != [] { RunKeeps(ops, k, code[..|code| - 1], regs, lo, hi, r); }
  }

  lemma ResultMoreK(ops: Ops, k: seq<int>, k2: seq<int>, i: Instr, regs: Regs)
    requires k <= k2 && ConstsBelow(i, |k|)
    ensures Result(ops, k2, i, regs) == Result(ops, k, i, regs)
  {
  }

  /** More constants change nothing. */
  lemma {:induction false} RunMoreK(ops: Ops, k: seq<int>, k2: seq<int>, code: seq<Instr>, regs: Regs, lo: nat, hi: nat)
    requires Safe(code, lo, hi, |k|) && k <= k2
    ensures Run(ops, k2, code, regs) == Run(ops, k, code, regs)
    decreases |code|
  {
    if code != [] {
      RunMoreK(ops, k, k2, code[..|code| - 1], regs, lo, hi);
      ResultMoreK(ops, k, k2, code[|code| - 1], Run(ops, k, code[..|code| - 1], regs));
    }
  }

  lemma {:induction false} RunAppend(ops: Ops, k: seq<int>, c1: seq<Instr>, c2: seq<Instr>, regs: Regs)
    ensures Run(ops, k, c1 + c2, regs) == Run(ops, k, c2, Run(ops, k, c1, regs))
    decreases |c2|
  {
    if c2 == [] {
      assert c1 + c2 == c1;
    } else {
      assert (c1 + c2)[..|c1 + c2| - 1] == c1 + c2[..|c2| - 1];
      RunAppend(ops, k, c1, c2[..|c2| - 1], regs);
    }
  }

  lemma RunOne(ops: Ops, k: seq<int>, i: Instr, regs: Regs)
    ensures Run(ops, k, [i], regs) == Put(regs, i.a, Result(ops, k, i, regs))
  {
    assert [i][..0] == [];
  }

  /** The locals of an expression. */
  predicate LocalsBelow(e: Expr, n: nat) {
    match e case Num(_) => true case Local(r) => r < n case Neg(x) => LocalsBelow(x, n) case Bin(_, l, r) => LocalsBelow(l, n) && LocalsBelow(r, n)
  }

  lemma {:induction false} EvalLocals(ops: Ops, e: Expr, n: nat, a: Regs, b: Regs)
    requires LocalsBelow(e, n) && forall r: nat :: r < n ==> a(r) == b(r)
    ensures Eval(ops, e, a) == Eval(ops, e, b)
  {
    match e
    case Neg(x) => EvalLocals(ops, x, n, a, b);
    case Bin(_, l, r) => EvalLocals(ops, l, n, a, b); EvalLocals(ops, r, n, a, b);
    case _ =>
  }

  // ---------- expression descriptors ----------

  /** expdesc, for the kinds that arithmetic gives rise to. */
  datatype Exp = KNum(n: int) | K(i: nat) | LocalVar(r: nat) | NonReloc(r: nat) | Reloc(pc: nat)

  /** All of the code but an instruction that has not got its register yet. */
  function Settled(code: seq<Instr>, e: Exp): seq<Instr> {
    if e.Reloc? && |code| > 0 then code[..|code| - 1] else code
  }

  /** The value of an expression once the settled code has run. */
  function ValueIn(ops: Ops, k: seq<int>, code: seq<Instr>, e: Exp, regs: Regs): int {
    match e
    case KNum(n) => n
    case K(i) => Constant(k, i)
    case LocalVar(r) => regs(r)
    case NonReloc(r) => regs(r)
    case Reloc(_) => if |code| > 0 then Result(ops, k, code[|code| - 1], regs) else 0
  }

  /** code (the part generated for e) computes ast: whatever the registers hold at first. */
  ghost predicate Computes(ops: Ops, k: seq<int>, code: seq<Instr>, e: Exp, ast: Expr) {
    forall regs: Regs :: ValueIn(ops, k, code, e, Run(ops, k, Settled(code, e), regs)) == Eval(ops, ast, regs)
  }

  /** Where e may be: a temporary is the first register from lo on, and is the only one taken. */
  predicate Placed(code: seq<Instr>, nk: nat, e: Exp, lo: nat, nactvar: nat, freereg: nat) {
    && nactvar <= lo
    && freereg == lo + (if e.NonReloc? && e.r >= nactvar then 1 else 0)
    && match e
       case KNum(_) => true
       case K(i) => i < nk
       case LocalVar(r) => r < nactvar
       case NonReloc(r) => r < nactvar || r == lo
       case Reloc(_) => |code| > 0 && ConstsBelow(code[|code| - 1], nk)
  }

  // ---------- what later code leaves alone ----------

  /** A value in a constant or below lo survives code that writes from lo on. */
  lemma ComputesLater(ops: Ops, k: seq<int>, k2: seq<int>, code: seq<Instr>, more: seq<Instr>, e: Exp, ast: Expr, lo: nat, hi: nat)
    requires Computes(ops, k, code, e, ast) && !e.Reloc? && k <= k2 && Safe(code, 0, hi, |k|) && Safe(more, lo, hi, |k2|)
    requires match e case K(i) => i < |k| case LocalVar(r) => r < lo case NonReloc(r) => r < lo case _ => true
    ensures Computes(ops, k2, code + more, e, ast)
  {
    forall regs: Regs
      ensures ValueIn(ops, k2, code + more, e, Run(ops, k2, Settled(code + more, e), regs)) == Eval(ops, ast, regs)
    {
      RunAppend(ops, k2, code, more, regs);
      RunMoreK(ops, k, k2, code, regs, 0, hi);
      var mid := Run(ops, k, code, regs);
      assert ValueIn(ops, k, code, e, mid) == Eval(ops, ast, regs);
      if e.LocalVar? || e.NonReloc? { RunKeeps(ops, k2, more, mid, lo, hi, e.r); }
    }
  }

  /** Code that computes ast from the start of its own part computes it after earlier code too,
      which leaves the locals alone. */
  lemma ComputesAfter(ops: Ops, k: seq<int>, before: seq<Instr>, code: seq<Instr>, e: Exp, ast: Expr, n: nat, hi: nat)
    requires Computes(ops, k, code, e, ast) && Safe(before, n, hi, |k|) && LocalsBelow(ast, n) && (e.Reloc? ==> |code| > 0)
    ensures Computes(ops, k, before + code, e, ast)
  {
    forall regs: Regs
      ensures ValueIn(ops, k, before + code, e, Run(ops, k, Settled(before + code, e), regs)) == Eval(ops, ast, regs)
    {
      assert Settled(before + code, e) == before + Settled(code, e);
      RunAppend(ops, k, before, Settled(code, e), regs);
      var mid := Run(ops, k, before, regs);
      assert ValueIn(ops, k, code, e, Run(ops, k, Settled(code, e), mid)) == Eval(ops, ast, mid);
      forall r: nat | r < n ensures mid(r) == regs(r) { RunKeeps(ops, k, before, regs, n, hi, r); }
      EvalLocals(ops, ast, n, mid, regs);
    }
  }

  /** Putting the value into a register by one more instruction. */
  lemma ComputesLoaded(ops: Ops, k: seq<int>, k2: seq<int>, code: seq<Instr>, e: Exp, ast: Expr, i: Instr, hi: nat)
    requires Computes(ops, k, code, e, ast) && !e.Reloc? && k <= k2 && Safe(code, 0, hi, |k|) && (e.K? ==> e.i < |k|)
    requires forall regs: Regs :: Result(ops, k2, i, regs) == ValueIn(ops, k, code, e, regs)
    ensures Computes(ops, k2, code + [i], NonReloc(i.a), ast)
  {
    forall regs: Regs
      ensures ValueIn(ops, k2, code + [i], NonReloc(i.a), Run(ops, k2, code + [i], regs)) == Eval(ops, ast, regs)
    {
      RunAppend(ops, k2, code, [i], regs);
      RunMoreK(ops, k, k2, code, regs, 0, hi);
      RunOne(ops, k2, i, Run(ops, k2, code, regs));
      assert ValueIn(ops, k, code, e, Run(ops, k, Settled(code, e), regs)) == Eval(ops, ast, regs);
    }
  }

  /** Giving a register to the instruction that was waiting for one. */
  lemma ComputesPatched(ops: Ops, k: seq<int>, code: seq<Instr>, e: Exp, ast: Expr, reg: nat)
    requires Computes(ops, k, code, e, ast) && e.Reloc? && |code| > 0
    ensures Computes(ops, k, code[|code| - 1 := SetA(code[|code| - 1], reg)], NonReloc(reg), ast)
  {
    var c2 := code[|code| - 1 := SetA(code[|code| - 1], reg)];
    forall regs: Regs
      ensures ValueIn(ops, k, c2, NonReloc(reg), Run(ops, k, c2, regs)) == Eval(ops, ast, regs)
    {
      assert c2[..|c2| - 1] == Settled(code, e);
      assert ValueIn(ops, k, code, e, Run(ops, k, Settled(code, e), regs)) == Eval(ops, ast, regs);
    }
  }

  /** Two operands that compute their parts make an instruction that computes the whole. */
  lemma ComputesBin(ops: Ops, k: seq<int>, code: seq<Instr>, e1: Exp, e2: Exp, a1: Expr, a2: Expr, op: BinOp, o1: RK, o2: RK)
    requires Computes(ops, k, code, e1, a1) && Computes(ops, k, code, e2, a2) && IsOperand(e1, o1) && IsOperand(e2, o2)
    ensures Computes(ops, k, code + [Arith(op, 0, o1, o2)], Reloc(|code|), Bin(op, a1, a2))
  {
    var c2 := code + [Arith(op, 0, o1, o2)];
    forall regs: Regs
      ensures ValueIn(ops, k, c2, Reloc(|code|), Run(ops, k, Settled(c2, Reloc(|code|)), regs)) == Eval(ops, Bin(op, a1, a2), regs)
    {
      assert Settled(c2, Reloc(|code|)) == code && Settled(code, e1) == code && Settled(code, e2) == code;
      var r := Run(ops, k, code, regs);
      assert ValueIn(ops, k, code, e1, r) == Eval(ops, a1, regs) && ValueIn(ops, k, code, e2, r) == Eval(ops, a2, regs);
    }
  }

  lemma ComputesNeg(ops: Ops, k: seq<int>, code: seq<Instr>, e: Exp, a: Expr)
    requires Computes(ops, k, code, e, a) && e.NonReloc?
    ensures Computes(ops, k, code + [Unm(0, Reg(e.r))], Reloc(|code|), Neg(a))
  {
    var c2 := code + [Unm(0, Reg(e.r))];
    forall regs: Regs
      ensures ValueIn(ops, k, c2, Reloc(|code|), Run(ops, k, Settled(c2, Reloc(|code|)), regs)) == Eval(ops, Neg(a), regs)
    {
      assert Settled(c2, Reloc(|code|)) == code && Settled(code, e) == code;
      assert ValueIn(ops, k, code, e, Run(ops, k, code, regs)) == Eval(ops, a, regs);
    }
  }

  /** e is what o stands for. */
  predicate IsOperand(e: Exp, o: RK) {
    match o case Reg(r) => e == NonReloc(r) case Const(i) => e == K(i)
  }
}
