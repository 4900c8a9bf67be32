// The part of the Serv abstract syntax tree (compiler/ast.go) that the
// optimizer, the flow analysis and the workflow analysis look at. Nodes are
// values; source tokens are dropped.
module Ast {
  import opened Options
  import opened GoInt

  /** A float64, known only by its bits. */
  datatype Float = Float(bits: nat)

  /** The binary operator tokens; a compound assignment `op=` carries its `op`. */
  datatype InfixOp =
    | Add | Sub | Mul | Div | Rem | Eq | Neq | Lt | Gt | Le | Ge | And | Or
    | BitAnd | BitOr | BitXor | Shl | Shr

  datatype PrefixOp = Minus | Not

  datatype Expr =
    | Ident(name: string)
    | IntLit(i: int64)
    | FloatLit(f: Float)
    | StrLit(s: string)
    | BoolLit(b: bool)
    | NilLit
    | DurationLit(text: string)
    | SelfExpr
    | Infix(left: Expr, op: InfixOp, right: Expr)
    | Prefix(sign: PrefixOp, right: Expr)
    | Call(fn: Expr, typeArgs: seq<string>, args: seq<Expr>)
    | ArrayLit(elems: seq<Expr>)
    | MapLit(keys: seq<string>, vals: seq<Expr>, positions: seq<nat>, spreads: seq<Expr>)
    | StructLit(typeName: string, keys: seq<string>, vals: seq<Expr>)
    | Member(obj: Expr, field: string)
    | Index(left: Expr, index: Expr)
    | Slice(left: Expr, start: Option<Expr>, end: Option<Expr>)
    | Await(value: Expr)
    | ErrorProp(value: Expr)
    | FnLit(params: seq<string>, body: seq<Stmt>)
    | Arrow(params: seq<string>, value: Expr)
    | Assert(value: Expr)
      // expressions the optimizer returns untouched
    | Assign(name: string, value: Expr)
    | CompoundAssign(name: string, op: InfixOp, value: Expr)
    | MemberAssign(obj: Expr, field: string, value: Expr)
    | IndexAssign(left: Expr, index: Expr, value: Expr)
    | OptionalMember(obj: Expr, field: string)
    | Spread(value: Expr)
    | FString(parts: seq<string>, exprs: seq<Expr>)

  /** The declarations that register a body to be run later. The optimizer visits
      the first eight and leaves every other kind (middleware, ws, actor, ...) alone. */
  datatype HandlerKind = Route | Tool | Migration | Every | Cron | Subscribe | Mock | Test | Unvisited(keyword: string)

  datatype Case = Case(value: Option<Expr>, body: seq<Stmt>)  // no value: the `_` case

  datatype Stmt =
    | Block(body: seq<Stmt>)
    | Let(name: string, value: Expr)
    | ExprStmt(value: Expr)
    | Return(result: Option<Expr>)
    | Break
    | Continue
    | If(cond: Expr, body: seq<Stmt>, els: Else)
    | ForCond(cond: Expr, body: seq<Stmt>)
    | ForIn(keyVar: Option<string>, variable: string, iterable: Expr, body: seq<Stmt>)
    | Match(value: Expr, cases: seq<Case>)
    | TryCatch(tryBody: seq<Stmt>, param: string, catchBody: seq<Stmt>)
    | FnDecl(name: string, params: seq<string>, body: seq<Stmt>)
    | Handler(kind: HandlerKind, operands: seq<Expr>, params: seq<string>, body: seq<Stmt>)
    | Publish(topic: Expr, value: Expr)
    | Spawn(call: Expr, limit: Option<Expr>)
    | Export(inner: Stmt)

  datatype Else = NoElse | Else(body: seq<Stmt>)

  /** The compiler's isTerminator. */
  predicate IsTerminator(s: Stmt) {
    s.Return? || s.Break? || s.Continue?
  }

  function OptionSeq<T>(o: Option<T>): seq<T> {
    if o.Some? then [o.value] else []
  }

  predicate IsComparison(op: InfixOp) {
    op == Eq || op == Neq || op == Lt || op == Gt || op == Le || op == Ge
  }

  /** `assert` of a comparison compares the two operands itself. */
  predicate AssertsComparison(e: Expr) {
    e.Assert? && e.value.Infix? && IsComparison(e.value.op)
  }

  /** The operands of a node that evaluates them all, left to right. */
  function Children(e: Expr): seq<Expr> {
    match e
    case Call(fn, _, args) => [fn] + args
    case ArrayLit(elems) => elems
    case MapLit(_, vals, _, spreads) => vals + spreads
    case StructLit(_, _, vals) => vals
    case Member(obj, _) => [obj]
    case Index(left, index) => [left, index]
    case Slice(left, start, end) => [left] + (OptionSeq(start) + OptionSeq(end))
    case Await(v) => [v]
    case ErrorProp(v) => [v]
    case Assert(v) => if AssertsComparison(e) then [v.left, v.right] else [v]
    case MemberAssign(obj, _, v) => [obj, v]
    case IndexAssign(left, index, v) => [left, index, v]
    case OptionalMember(obj, _) => [obj]
    case Spread(v) => [v]
    case FString(_, exprs) => exprs
    case _ => []
  }

  // Number of nodes.

  function SizeExpr(e: Expr): (n: nat)
    ensures n >= 1
  {
    match e
    case Infix(l, _, r) => 1 + SizeExpr(l) + SizeExpr(r)
    case Prefix(_, r) => 1 + SizeExpr(r)
    case Call(fn, _, args) => 1 + SizeExpr(fn) + SizeExprs(args)
    case ArrayLit(elems) => 1 + SizeExprs(elems)
    case MapLit(_, vals, _, spreads) => 1 + SizeExprs(vals) + SizeExprs(spreads)
    case StructLit(_, _, vals) => 1 + SizeExprs(vals)
    case Member(obj, _) => 1 + SizeExpr(obj)
    case Index(l, i) => 1 + SizeExpr(l) + SizeExpr(i)
    case Slice(l, s, t) => 1 + SizeExpr(l) + SizeOption(s) + SizeOption(t)
    case Await(v) => 1 + SizeExpr(v)
    case ErrorProp(v) => 1 + SizeExpr(v)
    case FnLit(_, body) => 1 + SizeStmts(body)
    case Arrow(_, v) => 1 + SizeExpr(v)
    case Assert(v) => 1 + SizeExpr(v)
    case Assign(_, v) => 1 + SizeExpr(v)
    case CompoundAssign(_, _, v) => 1 + SizeExpr(v)
    case MemberAssign(obj, _, v) => 1 + SizeExpr(obj) + SizeExpr(v)
    case IndexAssign(l, i, v) => 1 + SizeExpr(l) + SizeExpr(i) + SizeExpr(v)
    case OptionalMember(obj, _) => 1 + SizeExpr(obj)
    case Spread(v) => 1 + SizeExpr(v)
    case FString(_, exprs) => 1 + SizeExprs(exprs)
    case _ => 1
  }

  function SizeOption(e: Option<Expr>): nat {
    if e.Some? then SizeExpr(e.value) else 0
  }

  function SizeExprs(es: seq<Expr>): nat {
    if es == [] then 0 else SizeExpr(es[0]) + SizeExprs(es[1..])
  }

  function SizeStmt(s: Stmt): (n: nat)
    ensures n >= 1
  {
    match s
    case Block(body) => 1 + SizeStmts(body)
    case Let(_, v) => 1 + SizeExpr(v)
    case ExprStmt(v) => 1 + SizeExpr(v)
    case Return(v) => 1 + SizeOption(v)
    case Break => 1
    case Continue => 1
    case If(c, body, els) => 1 + SizeExpr(c) + SizeStmts(body) + if els.Else? then SizeStmts(els.body) else 0
    case ForCond(c, body) => 1 + SizeExpr(c) + SizeStmts(body)
    case ForIn(_, _, it, body) => 1 + SizeExpr(it) + SizeStmts(body)
    case Match(v, cases) => 1 + SizeExpr(v) + SizeCases(cases)
    case TryCatch(t, _, c) => 1 + SizeStmts(t) + SizeStmts(c)
    case FnDecl(_, _, body) => 1 + SizeStmts(body)
    case Handler(_, operands, _, body) => 1 + SizeExprs(operands) + SizeStmts(body)
    case Publish(t, v) => 1 + SizeExpr(t) + SizeExpr(v)
    case Spawn(c, l) => 1 + SizeExpr(c) + SizeOption(l)
    case Export(inner) => 1 + SizeStmt(inner)
  }

  function SizeStmts(ss: seq<Stmt>): nat {
    if ss == [] then 0 else SizeStmt(ss[0]) + SizeStmts(ss[1..])
  }

  function SizeCases(cs: seq<Case>): nat {
    if cs == [] then 0
    else 1 + SizeOption(cs[0].value) + SizeStmts(cs[0].body) + SizeCases(cs[1..])
  }

  lemma {:induction false} SizeConcat(a: seq<Expr>, b: seq<Expr>)
    ensures SizeExprs(a + b) == SizeExprs(a) + SizeExprs(b)
  {
    if a == [] {
      assert a + b == b;
    } else {
      assert (a + b)[1..] == a[1..] + b;
      SizeConcat(a[1..], b);
    }
  }

  lemma SizeSlice(left: Expr, start: Option<Expr>, end: Option<Expr>)
    ensures SizeExprs([left] + (OptionSeq(start) + OptionSeq(end))) == SizeExpr(left) + SizeOption(start) + SizeOption(end)
  {
    SizeOptionSeq(start);
    SizeOptionSeq(end);
    SizeConcat(OptionSeq(start), OptionSeq(end));
    SizeSingle(left);
    SizeConcat([left], OptionSeq(start) + OptionSeq(end));
  }

  lemma SizeTriple(a: Expr, b: Expr, c: Expr)
    ensures SizeExprs([a, b, c]) == SizeExpr(a) + SizeExpr(b) + SizeExpr(c)
  {
    assert [a, b, c][1..] == [b, c];
    SizePair(b, c);
  }

  lemma SizeChildren(e: Expr)
    ensures SizeExprs(Children(e)) < SizeExpr(e)
  {
    if e.Call? {
      assert ([e.fn] + e.args)[1..] == e.args;
    } else if e.MapLit? {
      SizeConcat(e.vals, e.spreads);
    } else if e.Slice? {
      SizeSlice(e.left, e.start, e.end);
    } else if e.IndexAssign? {
      SizeTriple(e.left, e.index, e.value);
    } else if e.Index? {
      SizePair(e.left, e.index);
    } else if e.MemberAssign? {
      SizePair(e.obj, e.value);
    } else if AssertsComparison(e) {
      SizePair(e.value.left, e.value.right);
    } else if e.Member? || e.OptionalMember? {
      SizeSingle(e.obj);
    } else if e.Await? || e.ErrorProp? || e.Assert? || e.Spread? {
      SizeSingle(e.value);
    }
  }

  lemma SizeSingle(e: Expr)
    ensures SizeExprs([e]) == SizeExpr(e)
  {
    assert [e][1..] == [];
  }

  lemma SizePair(a: Expr, b: Expr)
    ensures SizeExprs([a, b]) == SizeExpr(a) + SizeExpr(b)
  {
    assert [a, b][1..] == [b];
    SizeSingle(b);
  }

  lemma SizeOptionSeq(o: Option<Expr>)
    ensures SizeExprs(OptionSeq(o)) == SizeOption(o)
  {
    if o.Some? { SizeSingle(o.value); }
  }
}
