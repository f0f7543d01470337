/** Arithmetic expressions: operator-precedence parsing by the priority table, and the layered grammar
    that it implements. */
module CodeParse {
  datatype Option<T> = None | Some(value: T)

  /** A numeral, the name of a local variable (its register), an operator, a parenthesis, anything else. */
  datatype Token = TNum(n: int) | TName(r: nat) | TPlus | TMinus | TStar | TSlash | TPercent | TCaret | TOpen | TClose | TOther

  datatype BinOp = Add | Sub | Mul | Div | Mod | Pow

  datatype Expr = Num(n: int) | Local(r: nat) | Neg(e: Expr) | Bin(op: BinOp, left: Expr, right: Expr)

  /** getbinopr. */
  function GetBinOp(t: Token): Option<BinOp> {
    match t
    case TPlus => Some(Add)
    case TMinus => Some(Sub)
    case TStar => Some(Mul)
    case TSlash => Some(Div)
    case TPercent => Some(Mod)
    case TCaret => Some(Pow)
    case _ => None
  }

  /** The priority table. */
  function LeftPriority(op: BinOp): nat {
    match op case Add => 6 case Sub => 6 case Mul => 7 case Div => 7 case Mod => 7 case Pow => 10
  }

  function RightPriority(op: BinOp): nat {
    match op case Add => 6 case Sub => 6 case Mul => 7 case Div => 7 case Mod => 7 case Pow => 9
  }

  const UNARY_PRIORITY: nat := 8

  /** An expression and the tokens that are left. */
  datatype Parsed = Parsed(e: Expr, rest: seq<Token>)

  // ---------- the parser ----------

  function SimpleExp(ts: seq<Token>): (r: Option<Parsed>)
    ensures r.Some? ==> |r.value.rest| < |ts|
    decreases |ts|, 0
  {
    if ts == [] then None
    else match ts[0]
      case TNum(n) => Some(Parsed(Num(n), ts[1..]))
      case TName(x) => Some(Parsed(Local(x), ts[1..]))
      case TOpen =>
        (match SubExpr(ts[1..], 0)
         case Some(Parsed(e, rest)) => if rest != [] && rest[0] == TClose then Some(Parsed(e, rest[1..])) else None
         case None => None)
      case _ => None
  }

  /** subexpr: a simple expression or a unary minus with its operand, and then every operator whose
      left priority is above the limit. */
  function SubExpr(ts: seq<Token>, limit: nat): (r: Option<Parsed>)
    ensures r.Some? ==> |r.value.rest| < |ts|
    decreases |ts|, 2
  {
    if ts != [] && ts[0] == TMinus then
      match SubExpr(ts[1..], UNARY_PRIORITY)
      case Some(Parsed(e, rest)) => Operators(Neg(e), rest, limit)
      case None => None
    else
      match SimpleExp(ts)
      case Some(Parsed(e, rest)) => Operators(e, rest, limit)
      case None => None
  }

  function Operators(e: Expr, ts: seq<Token>, limit: nat): (r: Option<Parsed>)
    ensures r.Some? ==> |r.value.rest| <= |ts|
    decreases |ts|, 1
  {
    if ts != [] && GetBinOp(ts[0]).Some? && LeftPriority(GetBinOp(ts[0]).value) > limit then
      var op := GetBinOp(ts[0]).value;
      match SubExpr(ts[1..], RightPriority(op))
      case Some(Parsed(e2, rest)) => Operators(Bin(op, e, e2), rest, limit)
      case None => None
    else Some(Parsed(e, ts))
  }

  // ---------- the grammar ----------

  datatype Level = Sum | Term | Unary | Power | Simple

  function Rank(g: Level): nat { match g case Sum => 4 case Term => 3 case Unary => 2 case Power => 1 case Simple => 0 }

  predicate IsSumOp(op: BinOp) { op == Add || op == Sub }
  predicate IsTermOp(op: BinOp) { op == Mul || op == Div || op == Mod }

  /** The layered grammar:
        Sum    = Term | Sum (+|-) Term          (left associative)
        Term   = Unary | Term (*|/|%) Unary     (left associative)
        Unary  = Power | - Unary
        Power  = Simple | Simple ^ Unary        (right associative, and binds tighter than - on its left)
        Simple = numeral | local | ( Sum )  */
  ghost predicate Derives(g: Level, ts: seq<Token>, e: Expr)
    decreases |ts|, Rank(g)
  {
    match g
    case Sum => Derives(Term, ts, e) || (e.Bin? && IsSumOp(e.op) && exists i :: Splits(ts, i, e.op) && Derives(Sum, ts[..i], e.left) && Derives(Term, ts[i + 1..], e.right))
    case Term => Derives(Unary, ts, e) || (e.Bin? && IsTermOp(e.op) && exists i :: Splits(ts, i, e.op) && Derives(Term, ts[..i], e.left) && Derives(Unary, ts[i + 1..], e.right))
    case Unary => Derives(Power, ts, e) || (e.Neg? && ts != [] && ts[0] == TMinus && Derives(Unary, ts[1..], e.e))
    case Power => Derives(Simple, ts, e) || (e.Bin? && e.op == Pow && exists i :: Splits(ts, i, Pow) && Derives(Simple, ts[..i], e.left) && Derives(Unary, ts[i + 1..], e.right))
    case Simple =>
      || (e.Num? && ts == [TNum(e.n)])
      || (e.Local? && ts == [TName(e.r)])
      || (|ts| >= 2 && ts[0] == TOpen && ts[|ts| - 1] == TClose && Derives(Sum, ts[1..|ts| - 1], e))
  }

  /** How an operator is written. */
  function Sign(op: BinOp): Token {
    match op case Add => TPlus case Sub => TMinus case Mul => TStar case Div => TSlash case Mod => TPercent case Pow => TCaret
  }

  predicate Splits(ts: seq<Token>, i: int, op: BinOp) { 0 <= i < |ts| && ts[i] == Sign(op) }

  /** The parser takes for an operator exactly the sign of that operator. */
  lemma SignIs(t: Token, op: BinOp)
    ensures GetBinOp(t) == Some(op) <==> t == Sign(op)
  {
  }

  /** The left priority of the operator that comes next, 0 if none does. */
  function Next(ts: seq<Token>): nat {
    if ts != [] && GetBinOp(ts[0]).Some? then LeftPriority(GetBinOp(ts[0]).value) else 0
  }

  /** The highest priority that may follow an expression of a level without becoming part of it. */
  function Follow(g: Level): nat { match g case Sum => 6 case Term => 7 case Unary => 7 case Power => 7 case Simple => 10 }

  /** The limits under which an expression of a level is read as a whole. */
  predicate Within(g: Level, limit: nat) {
    match g case Sum => limit < 6 case Term => limit < 7 case Unary => limit < 10 case Power => limit < 10 case Simple => true
  }

  // ---------- everything the grammar derives is parsed ----------

  lemma {:induction false} StopsAt(e: Expr, ts: seq<Token>, limit: nat)
    requires Next(ts) <= limit
    ensures Operators(e, ts, limit) == Some(Parsed(e, ts))
  {
  }

  lemma TakesOperator(e: Expr, ts: seq<Token>, limit: nat, op: BinOp, e2: Expr, rest: seq<Token>)
    requires ts != [] && GetBinOp(ts[0]) == Some(op) && LeftPriority(op) > limit
    requires SubExpr(ts[1..], RightPriority(op)) == Some(Parsed(e2, rest))
    ensures Operators(e, ts, limit) == Operators(Bin(op, e, e2), rest, limit)
  {
  }

  lemma NegIsParsed(ts: seq<Token>, e: Expr, rest: seq<Token>, limit: nat)
    requires ts != [] && ts[0] == TMinus && SubExpr(ts[1..] + rest, UNARY_PRIORITY) == Some(Parsed(e, rest))
    ensures SubExpr(ts + rest, limit) == Operators(Neg(e), rest, limit)
  {
    hide Operators;
    assert (ts + rest)[1..] == ts[1..] + rest;
  }

  lemma LeafIsParsed(ts: seq<Token>, e: Expr, rest: seq<Token>)
    requires (e.Num? && ts == [TNum(e.n)]) || (e.Local? && ts == [TName(e.r)])
    ensures SimpleExp(ts + rest) == Some(Parsed(e, rest)) && (ts + rest)[0] != TMinus
  {
    assert (ts + rest)[1..] == rest;
  }

  lemma SimpleIsParsed(ts: seq<Token>, e: Expr, rest: seq<Token>, limit: nat)
    requires ts != [] && ts[0] != TMinus && SimpleExp(ts) == Some(Parsed(e, rest))
    ensures SubExpr(ts, limit) == Operators(e, rest, limit)
  {
    hide SimpleExp, Operators;
  }

  /** Reading an expression of level g, and then what follows it. */
  lemma {:induction false} DerivedIsParsed(g: Level, ts: seq<Token>, e: Expr, rest: seq<Token>, limit: nat)
    requires Derives(g, ts, e) && Next(rest) <= Follow(g) && Within(g, limit)
    ensures SubExpr(ts + rest, limit) == Operators(e, rest, limit)
    ensures g == Simple ==> SimpleExp(ts + rest) == Some(Parsed(e, rest)) && (ts + rest)[0] != TMinus
    decreases |ts|, Rank(g) + 1
  {
    hide SubExpr, SimpleExp, Operators;
    match g
    case Sum =>
      if Derives(Term, ts, e) { DerivedIsParsed(Term, ts, e, rest, limit); }
      else {
        var i :| Splits(ts, i, e.op) && Derives(Sum, ts[..i], e.left) && Derives(Term, ts[i + 1..], e.right);
        BinaryIsParsed(Sum, Term, ts, i, e, rest, limit);
      }
    case Term =>
      if Derives(Unary, ts, e) { DerivedIsParsed(Unary, ts, e, rest, limit); }
      else {
        var i :| Splits(ts, i, e.op) && Derives(Term, ts[..i], e.left) && Derives(Unary, ts[i + 1..], e.right);
        BinaryIsParsed(Term, Unary, ts, i, e, rest, limit);
      }
    case Unary =>
      if Derives(Power, ts, e) { DerivedIsParsed(Power, ts, e, rest, limit); }
      else {
        DerivedIsParsed(Unary, ts[1..], e.e, rest, UNARY_PRIORITY);
        StopsAt(e.e, rest, UNARY_PRIORITY);
        NegIsParsed(ts, e.e, rest, limit);
      }
    case Power =>
      if Derives(Simple, ts, e) { DerivedIsParsed(Simple, ts, e, rest, limit); }
      else {
        var i :| Splits(ts, i, Pow) && Derives(Simple, ts[..i], e.left) && Derives(Unary, ts[i + 1..], e.right);
        BinaryIsParsed(Simple, Unary, ts, i, e, rest, limit);
      }
    case Simple =>
      if |ts| >= 2 { ParenIsParsed(ts, e, rest); } else { LeafIsParsed(ts, e, rest); }
      SimpleIsParsed(ts + rest, e, rest, limit);
  }

  lemma {:induction false} ParenIsParsed(ts: seq<Token>, e: Expr, rest: seq<Token>)
    requires |ts| >= 2 && ts[0] == TOpen && ts[|ts| - 1] == TClose && Derives(Sum, ts[1..|ts| - 1], e)
    ensures SimpleExp(ts + rest) == Some(Parsed(e, rest)) && (ts + rest)[0] != TMinus
    decreases |ts|, 0
  {
    hide Derives, SubExpr, Operators, SimpleExp;
    var inner, after := ts[1..|ts| - 1], [TClose] + rest;
    assert (ts + rest)[1..] == inner + after;
    DerivedIsParsed(Sum, inner, e, after, 0);
    StopsAt(e, after, 0);
    ParenReads(ts + rest, e, rest);
  }

  lemma ParenReads(ts: seq<Token>, e: Expr, rest: seq<Token>)
    requires ts != [] && ts[0] == TOpen && SubExpr(ts[1..], 0) == Some(Parsed(e, [TClose] + rest))
    ensures SimpleExp(ts) == Some(Parsed(e, rest))
  {
    hide SubExpr;
    assert ([TClose] + rest)[1..] == rest;
  }

  lemma {:induction false} BinaryIsParsed(gl: Level, gr: Level, ts: seq<Token>, i: nat, e: Expr, rest: seq<Token>, limit: nat)
    requires e.Bin? && Splits(ts, i, e.op) && Derives(gl, ts[..i], e.left) && Derives(gr, ts[i + 1..], e.right)
    requires LeftPriority(e.op) <= Follow(gl) && Within(gl, limit) && LeftPriority(e.op) > limit
    requires Within(gr, RightPriority(e.op)) && Next(rest) <= Follow(gr) && Next(rest) <= RightPriority(e.op)
    ensures SubExpr(ts + rest, limit) == Operators(e, rest, limit)
    decreases |ts|, 0
  {
    hide Derives, SubExpr, Operators;
    var after := ts[i..] + rest;
    assert after[1..] == ts[i + 1..] + rest && after[0] == ts[i];
    SignIs(ts[i], e.op);
    DerivedIsParsed(gl, ts[..i], e.left, after, limit);
    DerivedIsParsed(gr, ts[i + 1..], e.right, rest, RightPriority(e.op));
    StopsAt(e.right, rest, RightPriority(e.op));
    assert ts[..i] + after == ts + rest;
    TakesOperator(e.left, after, limit, e.op, e.right, rest);
  }

  // ---------- everything that is parsed is derived ----------

  /** The level of what is read under a limit. */
  function LevelOf(limit: nat): Level { if limit < 6 then Sum else if limit < 7 then Term else Unary }

  predicate IsLimit(limit: nat) { limit == 0 || limit == 6 || limit == 7 || limit == 8 || limit == 9 }

  /** An expression of a level is one of every looser level. */
  lemma {:induction false} Loosen(g: Level, h: Level, ts: seq<Token>, e: Expr)
    requires Derives(g, ts, e) && Rank(g) <= Rank(h)
    ensures Derives(h, ts, e)
    decreases Rank(h)
  {
    if g != h {
      var k := match h case Sum => Term case Term => Unary case Unary => Power case Power => Simple case Simple => Simple;
      Loosen(g, k, ts, e);
    }
  }

  function Before(ts: seq<Token>, rest: seq<Token>): seq<Token>
    requires |rest| <= |ts|
  {
    ts[..|ts| - |rest|]
  }

  /** What has been read, and what may come next. */
  ghost predicate ReadAs(g: Level, ts: seq<Token>, p: Parsed) {
    |p.rest| <= |ts| && ts == Before(ts, p.rest) + p.rest && Derives(g, Before(ts, p.rest), p.e)
  }

  lemma {:induction false} SimpleIsDerived(ts: seq<Token>)
    requires SimpleExp(ts).Some?
    ensures ReadAs(Simple, ts, SimpleExp(ts).value)
    decreases |ts|, 0
  {
    hide SubExpr, ReadAs, Derives;
    if ts[0] == TOpen {
      ParsedIsDerived(ts[1..], 0);
      ParenDerived(ts, SubExpr(ts[1..], 0).value);
    } else {
      LeafDerived(ts, SimpleExp(ts).value.e);
    }
  }

  lemma ParenDerived(ts: seq<Token>, q: Parsed)
    requires ts != [] && ts[0] == TOpen && ReadAs(Sum, ts[1..], q) && q.rest != [] && q.rest[0] == TClose
    ensures ReadAs(Simple, ts, Parsed(q.e, q.rest[1..]))
  {
    hide Derives;
    var b, inner := Before(ts, q.rest[1..]), Before(ts[1..], q.rest);
    assert q.rest == [TClose] + q.rest[1..];
    assert ts == [TOpen] + inner + [TClose] + q.rest[1..];
    assert b == [TOpen] + inner + [TClose];
    ParenDerives(inner, q.e);
  }

  lemma ParenDerives(inner: seq<Token>, e: Expr)
    requires Derives(Sum, inner, e)
    ensures Derives(Simple, [TOpen] + inner + [TClose], e)
  {
    assert ([TOpen] + inner + [TClose])[1..|inner| + 1] == inner;
  }

  lemma LeafDerived(ts: seq<Token>, e: Expr)
    requires ts != [] && ((e.Num? && ts[0] == TNum(e.n)) || (e.Local? && ts[0] == TName(e.r)))
    ensures ReadAs(Simple, ts, Parsed(e, ts[1..]))
  {
    assert Before(ts, ts[1..]) == [ts[0]];
    assert ts == [ts[0]] + ts[1..];
  }

  lemma {:induction false} ParsedIsDerived(ts: seq<Token>, limit: nat)
    requires SubExpr(ts, limit).Some? && IsLimit(limit)
    ensures ReadAs(LevelOf(limit), ts, SubExpr(ts, limit).value) && Next(SubExpr(ts, limit).value.rest) <= limit
    decreases |ts|, 2
  {
    if ts[0] == TMinus {
      ParsedIsDerived(ts[1..], UNARY_PRIORITY);
      var p := SubExpr(ts[1..], UNARY_PRIORITY).value;
      var b := Before(ts, p.rest);
      assert b[1..] == Before(ts[1..], p.rest);
      NextIsLow(p.rest);
      assert Derives(Unary, b, Neg(p.e));
      OperatorsAreDerived(Unary, ts, Neg(p.e), p.rest, limit);
    } else {
      SimpleIsDerived(ts);
      var p := SimpleExp(ts).value;
      OperatorsAreDerived(Simple, ts, p.e, p.rest, limit);
    }
  }

  lemma NextIsLow(ts: seq<Token>)
    requires Next(ts) <= 9
    ensures Next(ts) <= 7
  {
  }

  /** The loop over the operators: what has been read is of level g, and nothing that binds tighter follows. */
  lemma {:induction false} OperatorsAreDerived(g: Level, ts: seq<Token>, e: Expr, rest: seq<Token>, limit: nat)
    requires ReadAs(g, ts, Parsed(e, rest)) && Next(rest) <= Follow(g) && IsLimit(limit) && |rest| < |ts|
    requires Operators(e, rest, limit).Some? && Rank(g) <= Rank(LevelOf(limit))
    ensures ReadAs(LevelOf(limit), ts, Operators(e, rest, limit).value) && Next(Operators(e, rest, limit).value.rest) <= limit
    decreases |rest|, 1
  {
    hide Derives, SubExpr, ReadAs;
    if Next(rest) > limit {
      var op := GetBinOp(rest[0]).value;
      assert SubExpr(rest[1..], RightPriority(op)).Some?;
      ParsedIsDerived(rest[1..], RightPriority(op));
      var p := SubExpr(rest[1..], RightPriority(op)).value;
      var h := OperatorStep(g, ts, e, rest, limit, op, p);
      TakesOperator(e, rest, limit, op, p.e, p.rest);
      OperatorsAreDerived(h, ts, Bin(op, e, p.e), p.rest, limit);
    } else {
      StopsAt(e, rest, limit);
      LoosenRead(g, LevelOf(limit), ts, Parsed(e, rest));
    }
  }

  lemma LoosenRead(g: Level, h: Level, ts: seq<Token>, p: Parsed)
    requires ReadAs(g, ts, p) && Rank(g) <= Rank(h)
    ensures ReadAs(h, ts, p)
  {
    Loosen(g, h, Before(ts, p.rest), p.e);
  }

  lemma ReadLength(g: Level, ts: seq<Token>, p: Parsed)
    requires ReadAs(g, ts, p)
    ensures |p.rest| <= |ts|
  {
  }

  lemma PriorityFits(rest: seq<Token>, op: BinOp)
    requires rest != [] && GetBinOp(rest[0]) == Some(op)
    ensures Next(rest) == LeftPriority(op)
  {
  }

  /** One operator and its right operand: the levels fit together. */
  lemma OperatorStep(g: Level, ts: seq<Token>, e: Expr, rest: seq<Token>, limit: nat, op: BinOp, p: Parsed) returns (h: Level)
    requires ReadAs(g, ts, Parsed(e, rest)) && Next(rest) <= Follow(g) && IsLimit(limit) && Next(rest) > limit
    requires rest != [] && GetBinOp(rest[0]) == Some(op) && Rank(g) <= Rank(LevelOf(limit))
    requires ReadAs(LevelOf(RightPriority(op)), rest[1..], p) && Next(p.rest) <= RightPriority(op)
    ensures ReadAs(h, ts, Parsed(Bin(op, e, p.e), p.rest)) && Next(p.rest) <= Follow(h) && Rank(h) <= Rank(LevelOf(limit))
    ensures |p.rest| < |rest| <= |ts|
  {
    hide Derives, ReadAs, Next;
    ReadLength(g, ts, Parsed(e, rest));
    ReadLength(LevelOf(RightPriority(op)), rest[1..], p);
    PriorityFits(rest, op);
    NextIsLow(p.rest);
    var gl := if IsSumOp(op) then Sum else if IsTermOp(op) then Term else Simple;
    h := if IsSumOp(op) then Sum else if IsTermOp(op) then Term else Power;
    LoosenRead(g, gl, ts, Parsed(e, rest));
    OperatorDerived(gl, LevelOf(RightPriority(op)), h, ts, e, rest, op, p);
  }

  lemma OperatorDerived(gl: Level, gr: Level, h: Level, ts: seq<Token>, e: Expr, rest: seq<Token>, op: BinOp, p: Parsed)
    requires ReadAs(gl, ts, Parsed(e, rest)) && rest != [] && GetBinOp(rest[0]) == Some(op) && ReadAs(gr, rest[1..], p)
    requires if IsSumOp(op) then gl == Sum && gr == Term && h == Sum
             else if IsTermOp(op) then gl == Term && gr == Unary && h == Term
             else gl == Simple && gr == Unary && h == Power
    ensures ReadAs(h, ts, Parsed(Bin(op, e, p.e), p.rest))
  {
    hide LeftPriority, Next, Derives;
    var b := Before(ts, p.rest);
    var i := |ts| - |rest|;
    assert b[..i] == Before(ts, rest);
    assert b[i + 1..] == Before(rest[1..], p.rest);
    SignIs(rest[0], op);
    assert Splits(b, i, op);
    assert ts == b + p.rest;
    BinDerives(gl, gr, h, b, i, op, e, p.e);
  }

  lemma BinDerives(gl: Level, gr: Level, h: Level, ts: seq<Token>, i: nat, op: BinOp, e1: Expr, e2: Expr)
    requires Splits(ts, i, op) && Derives(gl, ts[..i], e1) && Derives(gr, ts[i + 1..], e2)
    requires if IsSumOp(op) then gl == Sum && gr == Term && h == Sum
             else if IsTermOp(op) then gl == Term && gr == Unary && h == Term
             else gl == Simple && gr == Unary && h == Power
    ensures Derives(h, ts, Bin(op, e1, e2))
  {
  }

  /** The parser reads a whole token sequence as e exactly when the grammar derives it so. */
  lemma ParserIsGrammar(ts: seq<Token>, e: Expr)
    ensures SubExpr(ts, 0) == Some(Parsed(e, [])) <==> Derives(Sum, ts, e)
  {
    if Derives(Sum, ts, e) {
      DerivedIsParsed(Sum, ts, e, [], 0);
      StopsAt(e, [], 0);
      assert ts + [] == ts;
    }
    if SubExpr(ts, 0) == Some(Parsed(e, [])) {
      ParsedIsDerived(ts, 0);
      assert Before(ts, []) == ts;
    }
  }

  /** The grammar is not ambiguous. */
  lemma OneMeaning(ts: seq<Token>, e: Expr, f: Expr)
    requires Derives(Sum, ts, e) && Derives(Sum, ts, f)
    ensures e == f
  {
    ParserIsGrammar(ts, e);
    ParserIsGrammar(ts, f);
  }
}
