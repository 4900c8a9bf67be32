// The ahead-of-time optimizer (compiler/optimizer.go): what each pass yields, as
// functions, and its loops, which are proved to compute them.
module Optimizer {
  import opened Options
  import opened GoInt
  import opened Ast
  import opened Semantics

  // ---- Constant folding ----

  function FoldIntegers(l: int64, r: int64, op: InfixOp): Option<Expr> {
    match op
    case Add => Some(IntLit(Wrap(l + r)))
    case Sub => Some(IntLit(Wrap(l - r)))
    case Mul => Some(IntLit(Wrap(l * r)))
    case Div => if r != 0 then Some(IntLit(Wrap(TruncDiv(l, r)))) else None
    case Rem => if r != 0 then Some(IntLit(Wrap(TruncMod(l, r)))) else None
    case Eq => Some(BoolLit(l == r))
    case Neq => Some(BoolLit(l != r))
    case Lt => Some(BoolLit(l < r))
    case Gt => Some(BoolLit(l > r))
    case Le => Some(BoolLit(l <= r))
    case Ge => Some(BoolLit(l >= r))
    case _ => None
  }

  function FoldFloats(fo: FloatOps, l: Float, r: Float, op: InfixOp): Option<Expr> {
    match op
    case Add => Some(FloatLit(fo.add(l, r)))
    case Sub => Some(FloatLit(fo.sub(l, r)))
    case Mul => Some(FloatLit(fo.mul(l, r)))
    case Div => if !fo.IsZero(r) then Some(FloatLit(fo.div(l, r))) else None
    case Eq => Some(BoolLit(fo.eq(l, r)))
    case Neq => Some(BoolLit(!fo.eq(l, r)))
    case Lt => Some(BoolLit(fo.lt(l, r)))
    case Gt => Some(BoolLit(fo.lt(r, l)))
    case Le => Some(BoolLit(fo.le(l, r)))
    case Ge => Some(BoolLit(fo.le(r, l)))
    case _ => None
  }

  function FoldStrings(l: string, r: string, op: InfixOp): Option<Expr> {
    match op
    case Add => Some(StrLit(l + r))
    case Eq => Some(BoolLit(l == r))
    case Neq => Some(BoolLit(l != r))
    case Lt => Some(BoolLit(StrLess(l, r)))
    case Gt => Some(BoolLit(StrLess(r, l)))
    case Le => Some(BoolLit(!StrLess(r, l)))
    case Ge => Some(BoolLit(!StrLess(l, r)))
    case _ => None
  }

  function FoldBooleans(l: bool, r: bool, op: InfixOp): Option<Expr> {
    match op
    case And => Some(BoolLit(l && r))
    case Or => Some(BoolLit(l || r))
    case Eq => Some(BoolLit(l == r))
    case Neq => Some(BoolLit(l != r))
    case _ => None
  }

  function FoldInfix(fo: FloatOps, l: Expr, op: InfixOp, r: Expr): Option<Expr> {
    match (l, r)
    case (IntLit(a), IntLit(b)) => FoldIntegers(a, b, op)
    case (IntLit(a), FloatLit(b)) => FoldFloats(fo, fo.ofInt(a), b, op)
    case (FloatLit(a), FloatLit(b)) => FoldFloats(fo, a, b, op)
    case (FloatLit(a), IntLit(b)) => FoldFloats(fo, a, fo.ofInt(b), op)
    case (StrLit(a), StrLit(b)) => FoldStrings(a, b, op)
    case (BoolLit(a), BoolLit(b)) => FoldBooleans(a, b, op)
    case _ => None
  }

  function FoldPrefix(fo: FloatOps, op: PrefixOp, r: Expr): Option<Expr> {
    if op == Minus && r.IntLit? then Some(IntLit(Wrap(-(r.i as int))))
    else if op == Minus && r.FloatLit? then Some(FloatLit(fo.neg(r.f)))
    else if op == Not && r.BoolLit? then Some(BoolLit(!r.b))
    else None
  }

  // ---- The passes ----

  function OptExpr(fo: FloatOps, e: Expr): Expr {
    match e
    case Infix(l, op, r) =>
      var l1, r1 := OptExpr(fo, l), OptExpr(fo, r);
      var folded := FoldInfix(fo, l1, op, r1);
      if folded.Some? then folded.value else Infix(l1, op, r1)
    case Prefix(op, r) =>
      var r1 := OptExpr(fo, r);
      var folded := FoldPrefix(fo, op, r1);
      if folded.Some? then folded.value else Prefix(op, r1)
    case Call(fn, typeArgs, args) => Call(OptExpr(fo, fn), typeArgs, OptExprs(fo, args))
    case ArrayLit(elems) => ArrayLit(OptExprs(fo, elems))
    case MapLit(keys, vals, positions, spreads) => MapLit(keys, OptExprs(fo, vals), positions, OptExprs(fo, spreads))
    case StructLit(typeName, keys, vals) => StructLit(typeName, keys, OptExprs(fo, vals))
    case Member(obj, field) => Member(OptExpr(fo, obj), field)
    case Index(left, index) => Index(OptExpr(fo, left), OptExpr(fo, index))
    case Slice(left, start, end) => Slice(OptExpr(fo, left), OptOption(fo, start), OptOption(fo, end))
    case Await(v) => Await(OptExpr(fo, v))
    case ErrorProp(v) => ErrorProp(OptExpr(fo, v))
    case FnLit(params, body) => FnLit(params, OptStmts(fo, body))
    case Arrow(params, v) => Arrow(params, OptExpr(fo, v))
    case Assert(v) => Assert(OptExpr(fo, v))
    case _ => e
  }

  function OptOption(fo: FloatOps, e: Option<Expr>): Option<Expr> {
    if e.Some? then Some(OptExpr(fo, e.value)) else None
  }

  function OptExprs(fo: FloatOps, es: seq<Expr>): (r: seq<Expr>)
    ensures |r| == |es|
  {
    if es == [] then [] else [OptExpr(fo, es[0])] + OptExprs(fo, es[1..])
  }

  /** None: the statement disappears. */
  function OptStmt(fo: FloatOps, s: Stmt): Option<Stmt> {
    match s
    case Block(body) => Some(Block(OptStmts(fo, body)))
    case Let(name, v) => Some(Let(name, OptExpr(fo, v)))
    case ExprStmt(v) => Some(ExprStmt(OptExpr(fo, v)))
    case Return(v) => Some(Return(OptOption(fo, v)))
    case If(cond, body, els) =>
      var c := OptExpr(fo, cond);
      if c.BoolLit? then
        if c.b then Some(Block(OptStmts(fo, body)))
        else if els.Else? then Some(Block(OptStmts(fo, els.body)))
        else None
      else Some(If(c, OptStmts(fo, body), if els.Else? then Else(OptStmts(fo, els.body)) else NoElse))
    case ForCond(cond, body) => Some(ForCond(OptExpr(fo, cond), OptStmts(fo, body)))
    case ForIn(k, v, iterable, body) => Some(ForIn(k, v, OptExpr(fo, iterable), OptStmts(fo, body)))
    case TryCatch(t, param, c) => Some(TryCatch(OptStmts(fo, t), param, OptStmts(fo, c)))
    case FnDecl(name, params, body) => Some(FnDecl(name, params, OptStmts(fo, body)))
    case Handler(kind, operands, params, body) =>
      if kind.Unvisited? then Some(s)
      else Some(Handler(kind, OptExprs(fo, operands), params, OptStmts(fo, body)))
    case Publish(topic, v) => Some(Publish(OptExpr(fo, topic), OptExpr(fo, v)))
    case Spawn(call, limit) => Some(Spawn(OptExpr(fo, call), OptOption(fo, limit)))
    case _ => Some(s)
  }

  /** The statements of a block: vanished ones skipped, nothing after a terminator. */
  function OptStmts(fo: FloatOps, ss: seq<Stmt>): seq<Stmt> {
    if ss == [] then []
    else
      match OptStmt(fo, ss[0])
      case None => OptStmts(fo, ss[1..])
      case Some(t) => if IsTerminator(t) then [t] else [t] + OptStmts(fo, ss[1..])
  }

  /** The statements of a program, which are not truncated. */
  function OptProgram(fo: FloatOps, ss: seq<Stmt>): seq<Stmt> {
    if ss == [] then [] else OptionSeq(OptStmt(fo, ss[0])) + OptProgram(fo, ss[1..])
  }

  // ---- The loops of the original ----

  lemma {:induction false} OptExprsAt(fo: FloatOps, es: seq<Expr>, i: nat)
    requires i < |es|
    ensures OptExprs(fo, es)[i] == OptExpr(fo, es[i])
  {
    if i > 0 { OptExprsAt(fo, es[1..], i - 1); }
  }

  lemma {:induction false} SizeAt(es: seq<Expr>, i: nat)
    requires i < |es|
    ensures SizeExpr(es[i]) <= SizeExprs(es)
  {
    if i > 0 { SizeAt(es[1..], i - 1); }
  }

  lemma {:induction false} SizeStmtAt(ss: seq<Stmt>, i: nat)
    requires i < |ss|
    ensures SizeStmt(ss[i]) <= SizeStmts(ss)
  {
    if i > 0 { SizeStmtAt(ss[1..], i - 1); }
  }

  lemma OptProgramStep(fo: FloatOps, program: seq<Stmt>, i: nat)
    requires i < |program|
    ensures OptProgram(fo, program[i..]) == OptionSeq(OptStmt(fo, program[i])) + OptProgram(fo, program[i + 1..])
  {
    assert program[i..][0] == program[i] && program[i..][1..] == program[i + 1..];
  }

  /** Program.Statements: append every statement that survives. */
  method Optimize(fo: FloatOps, program: seq<Stmt>) returns (optimized: seq<Stmt>)
    ensures optimized == OptProgram(fo, program)
  {
    optimized := [];
    for i := 0 to |program|
      invariant optimized + OptProgram(fo, program[i..]) == OptProgram(fo, program)
    {
      var opt := OptimizeStatement(fo, program[i]);
      OptProgramStep(fo, program, i);
      AppendAssoc(optimized, OptionSeq(opt), OptProgram(fo, program[i + 1..]));
      optimized := optimized + OptionSeq(opt);
    }
  }

  lemma AppendAssoc<T>(a: seq<T>, b: seq<T>, c: seq<T>)
    ensures a + (b + c) == (a + b) + c
  {}

  lemma OptStmtsStep(fo: FloatOps, body: seq<Stmt>, i: nat)
    requires i < |body|
    ensures OptStmts(fo, body[i..]) ==
            match OptStmt(fo, body[i])
            case None => OptStmts(fo, body[i + 1..])
            case Some(t) => if IsTerminator(t) then [t] else [t] + OptStmts(fo, body[i + 1..])
  {
    assert body[i..][0] == body[i] && body[i..][1..] == body[i + 1..];
  }

  /** The BlockStmt case: append, and leave the loop after a terminator. */
  method OptimizeBlock(fo: FloatOps, body: seq<Stmt>) returns (optimized: seq<Stmt>)
    ensures optimized == OptStmts(fo, body)
    decreases SizeStmts(body), 2
  {
    optimized := [];
    for i := 0 to |body|
      invariant optimized + OptStmts(fo, body[i..]) == OptStmts(fo, body)
    {
      SizeStmtAt(body, i);
      OptStmtsStep(fo, body, i);
      var opt := OptimizeStatement(fo, body[i]);
      if opt.Some? {
        AppendAssoc(optimized, [opt.value], OptStmts(fo, body[i + 1..]));
        optimized := optimized + [opt.value];
        if IsTerminator(opt.value) {
          return;
        }
      }
    }
  }

  /** e.Arguments[i] = optimizeExpression(arg), and the like. */
  method OptimizeAll(fo: FloatOps, es: seq<Expr>) returns (optimized: seq<Expr>)
    ensures optimized == OptExprs(fo, es)
    decreases SizeExprs(es), 2
  {
    optimized := es;
    for i := 0 to |es|
      invariant |optimized| == |es|
      invariant forall j :: 0 <= j < i ==> optimized[j] == OptExpr(fo, es[j])
      invariant forall j :: i <= j < |es| ==> optimized[j] == es[j]
    {
      SizeAt(es, i);
      var opt := OptimizeExpression(fo, es[i]);
      optimized := optimized[i := opt];
    }
    forall j | 0 <= j < |es| ensures optimized[j] == OptExprs(fo, es)[j] { OptExprsAt(fo, es, j); }
  }

  method OptimizeOption(fo: FloatOps, e: Option<Expr>) returns (r: Option<Expr>)
    ensures r == OptOption(fo, e)
    decreases SizeOption(e), 2
  {
    r := None;
    if e.Some? {
      var v := OptimizeExpression(fo, e.value);
      r := Some(v);
    }
  }

  method OptimizeStatement(fo: FloatOps, s: Stmt) returns (r: Option<Stmt>)
    ensures r == OptStmt(fo, s)
    decreases SizeStmt(s), 1
  {
    match s {
      case Block(body) =>
        var b := OptimizeBlock(fo, body);
        r := Some(Block(b));
      case Let(name, v) =>
        var v1 := OptimizeExpression(fo, v);
        r := Some(Let(name, v1));
      case ExprStmt(v) =>
        var v1 := OptimizeExpression(fo, v);
        r := Some(ExprStmt(v1));
      case Return(v) =>
        var v1 := OptimizeOption(fo, v);
        r := Some(Return(v1));
      case If(cond, body, els) =>
        var c := OptimizeExpression(fo, cond);
        if c.BoolLit? {
          if c.b {
            var b := OptimizeBlock(fo, body);
            return Some(Block(b));
          } else if els.Else? {
            var b := OptimizeBlock(fo, els.body);
            return Some(Block(b));
          } else {
            return None;
          }
        }
        var b := OptimizeBlock(fo, body);
        var els1 := NoElse;
        if els.Else? {
          var eb := OptimizeBlock(fo, els.body);
          els1 := Else(eb);
        }
        r := Some(If(c, b, els1));
      case ForCond(cond, body) =>
        var c := OptimizeExpression(fo, cond);
        var b := OptimizeBlock(fo, body);
        r := Some(ForCond(c, b));
      case ForIn(k, v, iterable, body) =>
        var it := OptimizeExpression(fo, iterable);
        var b := OptimizeBlock(fo, body);
        r := Some(ForIn(k, v, it, b));
      case TryCatch(t, param, c) =>
        var t1 := OptimizeBlock(fo, t);
        var c1 := OptimizeBlock(fo, c);
        r := Some(TryCatch(t1, param, c1));
      case FnDecl(name, params, body) =>
        var b := OptimizeBlock(fo, body);
        r := Some(FnDecl(name, params, b));
      case Handler(kind, operands, params, body) =>
        if kind.Unvisited? {
          return Some(s);
        }
        var o := OptimizeAll(fo, operands);
        var b := OptimizeBlock(fo, body);
        r := Some(Handler(kind, o, params, b));
      case Publish(topic, v) =>
        var t := OptimizeExpression(fo, topic);
        var v1 := OptimizeExpression(fo, v);
        r := Some(Publish(t, v1));
      case Spawn(call, limit) =>
        var c := OptimizeExpression(fo, call);
        var l := OptimizeOption(fo, limit);
        r := Some(Spawn(c, l));
      case _ =>
        r := Some(s);
    }
  }

  method OptimizeExpression(fo: FloatOps, e: Expr) returns (r: Expr)
    ensures r == OptExpr(fo, e)
    decreases SizeExpr(e), 1
  {
    match e {
      case Infix(l, op, right) =>
        var l1 := OptimizeExpression(fo, l);
        var r1 := OptimizeExpression(fo, right);
        var folded := FoldInfix(fo, l1, op, r1);
        r := if folded.Some? then folded.value else Infix(l1, op, r1);
      case Prefix(op, right) =>
        var r1 := OptimizeExpression(fo, right);
        var folded := FoldPrefix(fo, op, r1);
        r := if folded.Some? then folded.value else Prefix(op, r1);
      case Call(fn, typeArgs, args) =>
        var f := OptimizeExpression(fo, fn);
        var a := OptimizeAll(fo, args);
        r := Call(f, typeArgs, a);
      case _ =>
        r := OptimizeNode(fo, e);
    }
  }

  method OptimizeNode(fo: FloatOps, e: Expr) returns (r: Expr)
    requires !e.Infix? && !e.Prefix? && !e.Call?
    ensures r == OptExpr(fo, e)
    decreases SizeExpr(e), 0
  {
    match e {
      case ArrayLit(elems) =>
        var a := OptimizeAll(fo, elems);
        r := ArrayLit(a);
      case MapLit(keys, vals, positions, spreads) =>
        var v := OptimizeAll(fo, vals);
        var s := OptimizeAll(fo, spreads);
        r := MapLit(keys, v, positions, s);
      case StructLit(typeName, keys, vals) =>
        var v := OptimizeAll(fo, vals);
        r := StructLit(typeName, keys, v);
      case Member(obj, field) =>
        var o := OptimizeExpression(fo, obj);
        r := Member(o, field);
      case Index(left, index) =>
        var l := OptimizeExpression(fo, left);
        var i := OptimizeExpression(fo, index);
        r := Index(l, i);
      case Slice(left, start, end) =>
        var l := OptimizeExpression(fo, left);
        var s := OptimizeOption(fo, start);
        var t := OptimizeOption(fo, end);
        r := Slice(l, s, t);
      case Await(v) =>
        var v1 := OptimizeExpression(fo, v);
        r := Await(v1);
      case ErrorProp(v) =>
        var v1 := OptimizeExpression(fo, v);
        r := ErrorProp(v1);
      case FnLit(params, body) =>
        var b := OptimizeBlock(fo, body);
        r := FnLit(params, b);
      case Arrow(params, v) =>
        var v1 := OptimizeExpression(fo, v);
        r := Arrow(params, v1);
      case Assert(v) =>
        var v1 := OptimizeExpression(fo, v);
        r := Assert(v1);
      case _ =>
        r := e;
    }
  }
}
