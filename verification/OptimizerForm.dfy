// What optimized programs look like: the normal form that one pass reaches,
// that further passes keep, and that is never larger than the program given.
// In normal form nothing stands behind a terminator, no condition is a constant
// and no operator folds. A pass leaves a program alone exactly when it is in
// that form, so that a second pass does nothing more.
module OptimizerForm {
  import opened Options
  import opened Ast
  import opened Semantics
  import opened Optimizer

  /** No operator on literals that could have been folded, in any visited place. */
  predicate NormalExpr(fo: FloatOps, e: Expr) {
    var normal :=
      match e
      case Infix(l, op, r) => NormalExpr(fo, l) && NormalExpr(fo, r) && FoldInfix(fo, l, op, r).None?
      case Prefix(op, r) => NormalExpr(fo, r) && FoldPrefix(fo, op, r).None?
      case Call(fn, _, args) => NormalExpr(fo, fn) && NormalExprs(fo, args)
      case ArrayLit(elems) => NormalExprs(fo, elems)
      case MapLit(_, vals, _, spreads) => NormalExprs(fo, vals) && NormalExprs(fo, spreads)
      case StructLit(_, _, vals) => NormalExprs(fo, vals)
      case Member(obj, _) => NormalExpr(fo, obj)
      case Index(l, i) => NormalExpr(fo, l) && NormalExpr(fo, i)
      case Slice(l, s, t) => NormalExpr(fo, l) && NormalOption(fo, s) && NormalOption(fo, t)
      case Await(v) => NormalExpr(fo, v)
      case ErrorProp(v) => NormalExpr(fo, v)
      case FnLit(_, body) => NormalBlock(fo, body)
      case Arrow(_, v) => NormalExpr(fo, v)
      case Assert(v) => NormalExpr(fo, v)
      case _ => true;
    normal
  }

  predicate NormalOption(fo: FloatOps, e: Option<Expr>) {
    e.Some? ==> NormalExpr(fo, e.value)
  }

  predicate NormalExprs(fo: FloatOps, es: seq<Expr>) {
    es == [] || (NormalExpr(fo, es[0]) && NormalExprs(fo, es[1..]))
  }

  /** No `if` on a literal boolean, and every inner block normal. */
  predicate NormalStmt(fo: FloatOps, s: Stmt) {
    var normal :=
      match s
      case Block(body) => NormalBlock(fo, body)
      case Let(_, v) => NormalExpr(fo, v)
      case ExprStmt(v) => NormalExpr(fo, v)
      case Return(v) => NormalOption(fo, v)
      case If(c, body, els) =>
        NormalExpr(fo, c) && !c.BoolLit? && NormalBlock(fo, body) && (els.Else? ==> NormalBlock(fo, els.body))
      case ForCond(c, body) => NormalExpr(fo, c) && NormalBlock(fo, body)
      case ForIn(_, _, it, body) => NormalExpr(fo, it) && NormalBlock(fo, body)
      case TryCatch(t, _, c) => NormalBlock(fo, t) && NormalBlock(fo, c)
      case FnDecl(_, _, body) => NormalBlock(fo, body)
      case Handler(kind, operands, _, body) => kind.Unvisited? || (NormalExprs(fo, operands) && NormalBlock(fo, body))
      case Publish(t, v) => NormalExpr(fo, t) && NormalExpr(fo, v)
      case Spawn(c, l) => NormalExpr(fo, c) && NormalOption(fo, l)
      case _ => true;
    normal
  }

  /** Nothing stands after a return, break or continue. */
  predicate NormalBlock(fo: FloatOps, ss: seq<Stmt>) {
    ss == [] || (NormalStmt(fo, ss[0]) && (IsTerminator(ss[0]) ==> |ss| == 1) && NormalBlock(fo, ss[1..]))
  }

  predicate NormalProgram(fo: FloatOps, ss: seq<Stmt>) {
    ss == [] || (NormalStmt(fo, ss[0]) && NormalProgram(fo, ss[1..]))
  }

  // ---- One pass reaches the normal form ----

  lemma FoldsToLiteral(fo: FloatOps, l: Expr, op: InfixOp, r: Expr)
    requires FoldInfix(fo, l, op, r).Some?
    ensures NormalExpr(fo, FoldInfix(fo, l, op, r).value) && SizeExpr(FoldInfix(fo, l, op, r).value) == 1
  {}

  lemma FoldNormal(fo: FloatOps, l: Expr, op: InfixOp, r: Expr)
    requires NormalExpr(fo, l) && NormalExpr(fo, r)
    ensures var folded := FoldInfix(fo, l, op, r);
            NormalExpr(fo, if folded.Some? then folded.value else Infix(l, op, r))
  {
    if FoldInfix(fo, l, op, r).Some? { FoldsToLiteral(fo, l, op, r); }
  }

  lemma {:induction false} OptExprNormal(fo: FloatOps, e: Expr)
    ensures NormalExpr(fo, OptExpr(fo, e))
    decreases e, 2
  {
    if e.Infix? {
      OptExprNormal(fo, e.left);
      OptExprNormal(fo, e.right);
      FoldNormal(fo, OptExpr(fo, e.left), e.op, OptExpr(fo, e.right));
    } else if e.Prefix? {
      OptExprNormal(fo, e.right);
    } else {
      OptNodeNormal(fo, e);
    }
  }

  lemma {:induction false} OptNodeNormal(fo: FloatOps, e: Expr)
    requires !e.Infix? && !e.Prefix?
    ensures NormalExpr(fo, OptExpr(fo, e))
    decreases e, 1
  {
    if e.Call? {
      OptExprNormal(fo, e.fn);
      OptExprsNormal(fo, e.args);
    } else if e.ArrayLit? {
      OptExprsNormal(fo, e.elems);
    } else if e.MapLit? {
      OptExprsNormal(fo, e.vals);
      OptExprsNormal(fo, e.spreads);
    } else if e.StructLit? {
      OptExprsNormal(fo, e.vals);
    } else if e.Slice? {
      OptExprNormal(fo, e.left);
      OptOptionNormal(fo, e.start);
      OptOptionNormal(fo, e.end);
    } else if e.FnLit? {
      OptStmtsNormal(fo, e.body);
    } else {
      OptUnaryNormal(fo, e);
    }
  }

  lemma {:induction false} OptUnaryNormal(fo: FloatOps, e: Expr)
    requires !(e.Infix? || e.Prefix? || e.Call? || e.ArrayLit? || e.MapLit? || e.StructLit? || e.Slice? || e.FnLit?)
    ensures NormalExpr(fo, OptExpr(fo, e))
    decreases e, 0
  {
    if e.Member? {
      OptExprNormal(fo, e.obj);
    } else if e.Index? {
      OptExprNormal(fo, e.left);
      OptExprNormal(fo, e.index);
    } else if e.Await? || e.ErrorProp? || e.Arrow? || e.Assert? {
      OptExprNormal(fo, e.value);
    }
  }

  lemma {:induction false} OptOptionNormal(fo: FloatOps, e: Option<Expr>)
    ensures NormalOption(fo, OptOption(fo, e))
    decreases e, 0
  {
    if e.Some? { OptExprNormal(fo, e.value); }
  }

  lemma {:induction false} OptExprsNormal(fo: FloatOps, es: seq<Expr>)
    ensures NormalExprs(fo, OptExprs(fo, es))
    decreases es, 0
  {
    if es != [] {
      OptExprNormal(fo, es[0]);
      OptExprsNormal(fo, es[1..]);
      assert OptExprs(fo, es)[1..] == OptExprs(fo, es[1..]);
    }
  }

  lemma {:induction false} OptStmtNormal(fo: FloatOps, s: Stmt)
    ensures var t := OptStmt(fo, s); t.Some? ==> NormalStmt(fo, t.value)
    decreases s, 1
  {
    match s
    case Block(body) => OptStmtsNormal(fo, body);
    case Let(_, v) => OptExprNormal(fo, v);
    case ExprStmt(v) => OptExprNormal(fo, v);
    case Return(v) => OptOptionNormal(fo, v);
    case If(c, body, els) =>
      OptExprNormal(fo, c); OptStmtsNormal(fo, body);
      if els.Else? { OptStmtsNormal(fo, els.body); }
    case ForCond(c, body) => OptExprNormal(fo, c); OptStmtsNormal(fo, body);
    case ForIn(_, _, it, body) => OptExprNormal(fo, it); OptStmtsNormal(fo, body);
    case TryCatch(t, _, c) => OptStmtsNormal(fo, t); OptStmtsNormal(fo, c);
    case FnDecl(_, _, body) => OptStmtsNormal(fo, body);
    case Handler(_, operands, _, body) => OptExprsNormal(fo, operands); OptStmtsNormal(fo, body);
    case Publish(t, v) => OptExprNormal(fo, t); OptExprNormal(fo, v);
    case Spawn(c, l) => OptExprNormal(fo, c); OptOptionNormal(fo, l);
    case _ =>
  }

  lemma {:induction false} OptStmtsNormal(fo: FloatOps, ss: seq<Stmt>)
    ensures NormalBlock(fo, OptStmts(fo, ss))
    decreases ss, 0
  {
    if ss != [] {
      OptStmtNormal(fo, ss[0]);
      OptStmtsNormal(fo, ss[1..]);
      var t := OptStmt(fo, ss[0]);
      if t.Some? {
        if IsTerminator(t.value) {
          assert OptStmts(fo, ss) == [t.value];
        } else {
          assert OptStmts(fo, ss) == [t.value] + OptStmts(fo, ss[1..]);
        }
        assert OptStmts(fo, ss)[0] == t.value;
      }
    }
  }

  // ---- The normal form is fixed ----

  lemma {:induction false} NormalExprFixed(fo: FloatOps, e: Expr)
    requires NormalExpr(fo, e)
    ensures OptExpr(fo, e) == e
    decreases e, 1
  {
    match e
    case Infix(l, op, r) => NormalExprFixed(fo, l); NormalExprFixed(fo, r);
    case Prefix(op, r) => NormalExprFixed(fo, r);
    case Call(fn, _, args) => NormalExprFixed(fo, fn); NormalExprsFixed(fo, args);
    case ArrayLit(elems) => NormalExprsFixed(fo, elems);
    case MapLit(_, vals, _, spreads) => NormalExprsFixed(fo, vals); NormalExprsFixed(fo, spreads);
    case StructLit(_, _, vals) => NormalExprsFixed(fo, vals);
    case Member(obj, _) => NormalExprFixed(fo, obj);
    case Index(l, i) => NormalExprFixed(fo, l); NormalExprFixed(fo, i);
    case Slice(l, s, t) => NormalExprFixed(fo, l); NormalOptionFixed(fo, s); NormalOptionFixed(fo, t);
    case Await(v) => NormalExprFixed(fo, v);
    case ErrorProp(v) => NormalExprFixed(fo, v);
    case FnLit(_, body) => NormalBlockFixed(fo, body);
    case Arrow(_, v) => NormalExprFixed(fo, v);
    case Assert(v) => NormalExprFixed(fo, v);
    case _ =>
  }

  lemma {:induction false} NormalOptionFixed(fo: FloatOps, e: Option<Expr>)
    requires NormalOption(fo, e)
    ensures OptOption(fo, e) == e
    decreases e, 0
  {
    if e.Some? { NormalExprFixed(fo, e.value); }
  }

  lemma {:induction false} NormalExprsFixed(fo: FloatOps, es: seq<Expr>)
    requires NormalExprs(fo, es)
    ensures OptExprs(fo, es) == es
    decreases es, 0
  {
    if es != [] {
      NormalExprFixed(fo, es[0]);
      NormalExprsFixed(fo, es[1..]);
    }
  }

  lemma {:induction false} NormalStmtFixed(fo: FloatOps, s: Stmt)
    requires NormalStmt(fo, s)
    ensures OptStmt(fo, s) == Some(s)
    decreases s, 1
  {
    match s
    case Block(body) => NormalBlockFixed(fo, body);
    case Let(_, v) => NormalExprFixed(fo, v);
    case ExprStmt(v) => NormalExprFixed(fo, v);
    case Return(v) => NormalOptionFixed(fo, v);
    case If(c, body, els) =>
      NormalExprFixed(fo, c); NormalBlockFixed(fo, body);
      if els.Else? { NormalBlockFixed(fo, els.body); }
    case ForCond(c, body) => NormalExprFixed(fo, c); NormalBlockFixed(fo, body);
    case ForIn(_, _, it, body) => NormalExprFixed(fo, it); NormalBlockFixed(fo, body);
    case TryCatch(t, _, c) => NormalBlockFixed(fo, t); NormalBlockFixed(fo, c);
    case FnDecl(_, _, body) => NormalBlockFixed(fo, body);
    case Handler(kind, operands, _, body) =>
      if !kind.Unvisited? { NormalExprsFixed(fo, operands); NormalBlockFixed(fo, body); }
    case Publish(t, v) => NormalExprFixed(fo, t); NormalExprFixed(fo, v);
    case Spawn(c, l) => NormalExprFixed(fo, c); NormalOptionFixed(fo, l);
    case _ =>
  }

  lemma {:induction false} NormalBlockFixed(fo: FloatOps, ss: seq<Stmt>)
    requires NormalBlock(fo, ss)
    ensures OptStmts(fo, ss) == ss
    decreases ss, 0
  {
    if ss != [] {
      NormalStmtFixed(fo, ss[0]);
      NormalBlockFixed(fo, ss[1..]);
      assert ss == [ss[0]] + ss[1..];
    }
  }

  // ---- A pass never enlarges ----

  lemma {:induction false} OptExprSize(fo: FloatOps, e: Expr)
    ensures SizeExpr(OptExpr(fo, e)) <= SizeExpr(e)
    decreases e, 1
  {
    if e.Infix? {
      OptExprSize(fo, e.left);
      OptExprSize(fo, e.right);
      var l, r := OptExpr(fo, e.left), OptExpr(fo, e.right);
      if FoldInfix(fo, l, e.op, r).Some? { FoldsToLiteral(fo, l, e.op, r); }
    } else if e.Prefix? {
      OptExprSize(fo, e.right);
    } else {
      OptNodeSize(fo, e);
    }
  }

  lemma {:induction false} OptNodeSize(fo: FloatOps, e: Expr)
    requires !e.Infix? && !e.Prefix?
    ensures SizeExpr(OptExpr(fo, e)) <= SizeExpr(e)
    decreases e, 0
  {
    if e.Call? {
      OptExprSize(fo, e.fn);
      OptExprsSize(fo, e.args);
    } else if e.ArrayLit? {
      OptExprsSize(fo, e.elems);
    } else if e.MapLit? {
      OptExprsSize(fo, e.vals);
      OptExprsSize(fo, e.spreads);
    } else if e.StructLit? {
      OptExprsSize(fo, e.vals);
    } else if e.Member? {
      OptExprSize(fo, e.obj);
    } else if e.Index? {
      OptExprSize(fo, e.left);
      OptExprSize(fo, e.index);
    } else if e.Slice? {
      OptExprSize(fo, e.left);
      OptOptionSize(fo, e.start);
      OptOptionSize(fo, e.end);
    } else if e.Await? || e.ErrorProp? || e.Arrow? || e.Assert? {
      OptExprSize(fo, e.value);
    } else if e.FnLit? {
      OptStmtsSize(fo, e.body);
    }
  }

  lemma {:induction false} OptOptionSize(fo: FloatOps, e: Option<Expr>)
    ensures SizeOption(OptOption(fo, e)) <= SizeOption(e)
    decreases e, 0
  {
    if e.Some? { OptExprSize(fo, e.value); }
  }

  lemma {:induction false} OptExprsSize(fo: FloatOps, es: seq<Expr>)
    ensures SizeExprs(OptExprs(fo, es)) <= SizeExprs(es)
    decreases es, 0
  {
    if es != [] {
      OptExprSize(fo, es[0]);
      OptExprsSize(fo, es[1..]);
      assert OptExprs(fo, es)[1..] == OptExprs(fo, es[1..]);
    }
  }

  lemma {:induction false} OptStmtSize(fo: FloatOps, s: Stmt)
    ensures var t := OptStmt(fo, s); t.Some? ==> SizeStmt(t.value) <= SizeStmt(s)
    decreases s, 1
  {
    if s.Block? || s.FnDecl? {
      OptStmtsSize(fo, s.body);
    } else if s.Let? || s.ExprStmt? {
      OptExprSize(fo, s.value);
    } else if s.Return? {
      OptOptionSize(fo, s.result);
    } else if s.If? {
      OptExprSize(fo, s.cond);
      OptStmtsSize(fo, s.body);
      if s.els.Else? { OptStmtsSize(fo, s.els.body); }
      OptIfSize(fo, s.cond, s.body, s.els);
    } else if s.ForCond? {
      OptExprSize(fo, s.cond);
      OptStmtsSize(fo, s.body);
    } else if s.ForIn? {
      OptExprSize(fo, s.iterable);
      OptStmtsSize(fo, s.body);
    } else if s.TryCatch? {
      OptStmtsSize(fo, s.tryBody);
      OptStmtsSize(fo, s.catchBody);
    } else if s.Handler? {
      OptExprsSize(fo, s.operands);
      OptStmtsSize(fo, s.body);
    } else if s.Publish? {
      OptExprSize(fo, s.topic);
      OptExprSize(fo, s.value);
    } else if s.Spawn? {
      OptExprSize(fo, s.call);
      OptOptionSize(fo, s.limit);
    }
  }

  lemma OptIfSize(fo: FloatOps, c: Expr, body: seq<Stmt>, els: Else)
    requires SizeExpr(OptExpr(fo, c)) <= SizeExpr(c) && SizeStmts(OptStmts(fo, body)) <= SizeStmts(body)
    requires els.Else? ==> SizeStmts(OptStmts(fo, els.body)) <= SizeStmts(els.body)
    ensures var t := OptStmt(fo, If(c, body, els)); t.Some? ==> SizeStmt(t.value) <= SizeStmt(If(c, body, els))
  {}

  lemma {:induction false} OptStmtsSize(fo: FloatOps, ss: seq<Stmt>)
    ensures SizeStmts(OptStmts(fo, ss)) <= SizeStmts(ss)
    decreases ss, 0
  {
    if ss != [] {
      OptStmtSize(fo, ss[0]);
      OptStmtsSize(fo, ss[1..]);
      var t := OptStmt(fo, ss[0]);
      if t.Some? { SizeCons(t.value, OptStmts(fo, ss[1..])); SizeCons(t.value, []); }
    }
  }

  lemma SizeCons(s: Stmt, ss: seq<Stmt>)
    ensures SizeStmts([s] + ss) == SizeStmt(s) + SizeStmts(ss)
    ensures SizeStmts([s]) == SizeStmt(s)
  {
    assert ([s] + ss)[1..] == ss;
    assert [s][1..] == [];
  }

  // ---- Whole programs ----

  /** Optimize ends in normal form, and leaves exactly the normal programs alone;
      so a second pass finds nothing to do. */
  lemma {:induction false} OptimizeReachesNormalForm(fo: FloatOps, program: seq<Stmt>)
    ensures NormalProgram(fo, OptProgram(fo, program))
    ensures OptProgram(fo, program) == program <==> NormalProgram(fo, program)
    ensures OptProgram(fo, OptProgram(fo, program)) == OptProgram(fo, program)
  {
    OptProgramNormal(fo, program);
    NormalProgramFixed(fo, OptProgram(fo, program));
    if NormalProgram(fo, program) { NormalProgramFixed(fo, program); }
  }

  lemma {:induction false} OptProgramNormal(fo: FloatOps, program: seq<Stmt>)
    ensures NormalProgram(fo, OptProgram(fo, program))
  {
    if program != [] {
      OptStmtNormal(fo, program[0]);
      OptProgramNormal(fo, program[1..]);
      var t, rest := OptStmt(fo, program[0]), OptProgram(fo, program[1..]);
      if t.Some? {
        assert ([t.value] + rest)[1..] == rest;
      } else {
        assert OptProgram(fo, program) == rest;
      }
    }
  }

  lemma {:induction false} NormalProgramFixed(fo: FloatOps, program: seq<Stmt>)
    requires NormalProgram(fo, program)
    ensures OptProgram(fo, program) == program
  {
    if program != [] {
      NormalStmtFixed(fo, program[0]);
      NormalProgramFixed(fo, program[1..]);
    }
  }

  /** Optimize never enlarges a program. */
  lemma {:induction false} OptimizeNeverEnlarges(fo: FloatOps, program: seq<Stmt>)
    ensures SizeStmts(OptProgram(fo, program)) <= SizeStmts(program)
  {
    if program != [] {
      OptStmtSize(fo, program[0]);
      OptimizeNeverEnlarges(fo, program[1..]);
      var t, rest := OptStmt(fo, program[0]), OptProgram(fo, program[1..]);
      if t.Some? {
        SizeCons(t.value, rest);
      } else {
        assert OptProgram(fo, program) == rest;
      }
    }
  }
}
