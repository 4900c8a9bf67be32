// When two values, stores and outcomes are the same up to optimization: the code of
// closures may be the optimized form of the original code, nothing else differs. Each
// elementary step takes related operands to related results, and folding two literals
// is what the operator does at run time. The lemmas here are about single steps, with
// whatever their operands came to as an assumption; the induction over whole runs is in
// the module OptimizerSimulation, which uses them.
module OptimizerRelation {
  import opened Options
  import opened Ast
  import opened Semantics
  import opened Optimizer

  // ---- Asserts that fold ----

  // An `assert` of a comparison compares its operands by functions of the run time, and
  // says what they were. If the optimizer folds the comparison, it tests a literal
  // instead, which is something else. What follows is about programs in which no such
  // comparison folds, in any place that the optimizer visits.

  predicate KeepsHere(fo: FloatOps, e: Expr) {
    AssertsComparison(e) ==> FoldInfix(fo, OptExpr(fo, e.value.left), e.value.op, OptExpr(fo, e.value.right)).None?
  }

  predicate KeepsExpr(fo: FloatOps, e: Expr)
    decreases SizeExpr(e), 0
  {
    if e.FnLit? then KeepsStmts(fo, e.body)
    else if e.Arrow? then KeepsExpr(fo, e.value)
    else if Leaf(e) || e.Assign? || e.CompoundAssign? || !Visited(e) then true
    else if e.Infix? then KeepsExpr(fo, e.left) && KeepsExpr(fo, e.right)
    else if e.Prefix? then KeepsExpr(fo, e.right)
    else
      SizeChildren(e);
      KeepsHere(fo, e) && KeepsExprs(fo, Children(e))
  }

  predicate KeepsExprs(fo: FloatOps, es: seq<Expr>)
    decreases SizeExprs(es), 1
  {
    es == [] || (KeepsExpr(fo, es[0]) && KeepsExprs(fo, es[1..]))
  }

  predicate KeepsOption(fo: FloatOps, e: Option<Expr>)
    decreases SizeOption(e), 1
  {
    e.Some? ==> KeepsExpr(fo, e.value)
  }

  predicate KeepsStmt(fo: FloatOps, s: Stmt)
    decreases SizeStmt(s), 0
  {
    match s
    case Block(body) => KeepsStmts(fo, body)
    case Let(_, v) => KeepsExpr(fo, v)
    case ExprStmt(v) => KeepsExpr(fo, v)
    case Return(v) => KeepsOption(fo, v)
    case If(c, body, els) => KeepsExpr(fo, c) && KeepsStmts(fo, body) && (els.Else? ==> KeepsStmts(fo, els.body))
    case ForCond(c, body) => KeepsExpr(fo, c) && KeepsStmts(fo, body)
    case ForIn(_, _, it, body) => KeepsExpr(fo, it) && KeepsStmts(fo, body)
    case TryCatch(t, _, c) => KeepsStmts(fo, t) && KeepsStmts(fo, c)
    case FnDecl(_, _, body) => KeepsStmts(fo, body)
    case Handler(kind, operands, _, body) => kind.Unvisited? || (KeepsExprs(fo, operands) && KeepsStmts(fo, body))
    case Publish(topic, v) => KeepsExpr(fo, topic) && KeepsExpr(fo, v)
    case Spawn(call, limit) => KeepsExpr(fo, call) && KeepsOption(fo, limit)
    case _ => true
  }

  predicate KeepsStmts(fo: FloatOps, ss: seq<Stmt>)
    decreases SizeStmts(ss), 1
  {
    ss == [] || (KeepsStmt(fo, ss[0]) && KeepsStmts(fo, ss[1..]))
  }

  lemma KeepsSingle(fo: FloatOps, s: Stmt)
    ensures KeepsStmts(fo, [s]) == KeepsStmt(fo, s)
  {
    assert [s][1..] == [];
  }

  lemma KeepsFew(fo: FloatOps, a: Expr, b: Expr)
    ensures KeepsExprs(fo, [a]) == KeepsExpr(fo, a)
    ensures KeepsExprs(fo, [a, b]) == (KeepsExpr(fo, a) && KeepsExpr(fo, b))
  {
    assert [a][1..] == [];
    assert [b][1..] == [];
    assert [a, b][1..] == [b];
    assert KeepsExprs(fo, [b]) == KeepsExpr(fo, b);
  }

  lemma KeepsOptionSeq(fo: FloatOps, x: Option<Expr>)
    ensures KeepsExprs(fo, OptionSeq(x)) == KeepsOption(fo, x)
  {
    if x.Some? { KeepsFew(fo, x.value, x.value); }
  }

  // ---- Related values ----

  predicate RelCode(fo: FloatOps, c: seq<Stmt>, c': seq<Stmt>) {
    c' == c || (KeepsStmts(fo, c) && c' == OptStmts(fo, c))
  }

  predicate Rel(fo: FloatOps, v: Value, v': Value) {
    if v.Closure? && v'.Closure? then
      v.params == v'.params && v.env == v'.env && RelCode(fo, v.code, v'.code)
    else v == v'
  }

  predicate RelVals(fo: FloatOps, vs: seq<Value>, vs': seq<Value>) {
    |vs| == |vs'| && forall i :: 0 <= i < |vs| ==> Rel(fo, vs[i], vs'[i])
  }

  predicate RelHeap(fo: FloatOps, h: seq<seq<Value>>, h': seq<seq<Value>>) {
    |h| == |h'| && forall i :: 0 <= i < |h| ==> RelVals(fo, h[i], h'[i])
  }

  predicate RelStore(fo: FloatOps, st: Store, st': Store) {
    RelVals(fo, st.cells, st'.cells) && RelHeap(fo, st.heap, st'.heap) && RelVals(fo, st.log, st'.log)
  }

  predicate RelJump(fo: FloatOps, j: Jump, j': Jump) {
    match (j, j')
    case (ReturnJ(v), ReturnJ(v')) => Rel(fo, v, v')
    case (PanicJ(v), PanicJ(v')) => Rel(fo, v, v')
    case _ => j == j'
  }

  predicate RelOut(fo: FloatOps, o: ExprOut, o': ExprOut) {
    match (o, o')
    case (Val(v), Val(v')) => Rel(fo, v, v')
    case (Stop(j), Stop(j')) => RelJump(fo, j, j')
    case _ => false
  }

  predicate RelAnswers(fo: FloatOps, os: seq<ExprOut>, os': seq<ExprOut>) {
    |os| == |os'| && forall i :: 0 <= i < |os| ==> RelOut(fo, os[i], os'[i])
  }

  predicate RelLib(fo: FloatOps, l: LibStep, l': LibStep) {
    var alike :=
      match (l, l')
      case (Done(o, st), Done(o', st')) => RelExprOut(fo, (o, st), (o', st'))
      case (CallBack(f, vs, st), CallBack(f', vs', st')) => Rel(fo, f, f') && RelVals(fo, vs, vs') && RelStore(fo, st, st')
      case _ => false;
    alike
  }

  predicate RelExprOut(fo: FloatOps, r: (ExprOut, Store), r': (ExprOut, Store)) {
    var alike := RelStore(fo, r.1, r'.1) && RelOut(fo, r.0, r'.0);
    alike
  }

  predicate RelListOut(fo: FloatOps, r: (ListOut, Store), r': (ListOut, Store)) {
    var alike := RelStore(fo, r.1, r'.1) &&
      match (r.0, r'.0)
      case (Vals(vs), Vals(vs')) => RelVals(fo, vs, vs')
      case (StopList(j), StopList(j')) => RelJump(fo, j, j')
      case _ => false;
    alike
  }

  predicate RelStmtOut(fo: FloatOps, o: StmtOut, o': StmtOut) {
    match (o, o')
    case (Normal, Normal) => true
    case (Abrupt(j), Abrupt(j')) => RelJump(fo, j, j')
    case _ => false
  }

  predicate RelItems(fo: FloatOps, xs: seq<(Value, Value)>, xs': seq<(Value, Value)>) {
    |xs| == |xs'| && forall i :: 0 <= i < |xs| ==> Rel(fo, xs[i].0, xs'[i].0) && Rel(fo, xs[i].1, xs'[i].1)
  }

  datatype Query = Query(op: PrimOp, vs: seq<Value>, vs': seq<Value>, answers: seq<ExprOut>, answers': seq<ExprOut>,
                         st: Store, st': Store)

  predicate Respects(w: World, q: Query) {
    RelVals(w.flo, q.vs, q.vs') && RelStore(w.flo, q.st, q.st') ==>
      && RelExprOut(w.flo, w.prim(q.op, q.vs, q.st), w.prim(q.op, q.vs', q.st'))
      && (RelAnswers(w.flo, q.answers, q.answers') ==>
           RelLib(w.flo, w.lib(q.op, q.vs, q.answers, q.st), w.lib(q.op, q.vs', q.answers', q.st')))
      && (|q.vs| == 1 ==> RelItems(w.flo, w.items(q.vs[0], q.st), w.items(q.vs'[0], q.st')))
  }

  /** The world cannot read the code inside a closure. */
  ghost predicate Parametric(w: World) {
    forall q :: Respects(w, q)
  }

  // The second run executes either the original code or its optimized form.

  function ExprForm(fo: FloatOps, o: bool, e: Expr): Expr { if o then OptExpr(fo, e) else e }

  function ExprsForm(fo: FloatOps, o: bool, es: seq<Expr>): seq<Expr> { if o then OptExprs(fo, es) else es }

  function StmtForm(fo: FloatOps, o: bool, s: Stmt): Option<Stmt> { if o then OptStmt(fo, s) else Some(s) }

  function StmtsForm(fo: FloatOps, o: bool, ss: seq<Stmt>): seq<Stmt> { if o then OptStmts(fo, ss) else ss }

  /** The nodes whose children optimizeExpression rewrites. */
  predicate Visited(e: Expr) {
    !(e.MemberAssign? || e.IndexAssign? || e.OptionalMember? || e.Spread? || e.FString?)
  }

  /** The nodes that evaluate all their children and then act on the values. */
  predicate Strict(e: Expr) {
    !(Leaf(e) || e.Infix? || e.Prefix? || e.Assign? || e.CompoundAssign?)
  }

  lemma {:induction false} OptExprsConcat(fo: FloatOps, a: seq<Expr>, b: seq<Expr>)
    ensures OptExprs(fo, a + b) == OptExprs(fo, a) + OptExprs(fo, b)
  {
    if a == [] {
      assert a + b == b;
    } else {
      assert (a + b)[1..] == a[1..] + b;
      OptExprsConcat(fo, a[1..], b);
    }
  }

  lemma OptExprsSmall(fo: FloatOps, a: Expr, b: Expr)
    ensures OptExprs(fo, [a]) == [OptExpr(fo, a)]
    ensures OptExprs(fo, [a, b]) == [OptExpr(fo, a), OptExpr(fo, b)]
  {
    assert [a][1..] == [];
    assert [b][1..] == [];
    assert [a, b][1..] == [b];
    assert OptExprs(fo, [b]) == [OptExpr(fo, b)];
  }

  lemma OptionForm(fo: FloatOps, x: Option<Expr>)
    ensures OptExprs(fo, OptionSeq(x)) == OptionSeq(OptOption(fo, x))
  {
    match x
    case None =>
    case Some(e) => OptExprsSmall(fo, e, e);
  }

  lemma SliceForm(fo: FloatOps, l: Expr, s: Option<Expr>, t: Option<Expr>)
    ensures Children(OptExpr(fo, Slice(l, s, t))) == OptExprs(fo, Children(Slice(l, s, t)))
  {
    OptExprsSmall(fo, l, l);
    OptionForm(fo, s);
    OptionForm(fo, t);
    OptExprsConcat(fo, OptionSeq(s), OptionSeq(t));
    OptExprsConcat(fo, [l], OptionSeq(s) + OptionSeq(t));
  }

  lemma CallForm(fo: FloatOps, fn: Expr, typeArgs: seq<string>, args: seq<Expr>)
    ensures Children(OptExpr(fo, Call(fn, typeArgs, args))) == OptExprs(fo, Children(Call(fn, typeArgs, args)))
  {
    OptExprsConcat(fo, [fn], args);
    OptExprsSmall(fo, fn, fn);
  }

  lemma MapForm(fo: FloatOps, keys: seq<string>, vals: seq<Expr>, positions: seq<nat>, spreads: seq<Expr>)
    ensures Children(OptExpr(fo, MapLit(keys, vals, positions, spreads))) ==
            OptExprs(fo, Children(MapLit(keys, vals, positions, spreads)))
  {
    OptExprsConcat(fo, vals, spreads);
  }

  lemma IndexForm(fo: FloatOps, l: Expr, i: Expr)
    ensures Children(OptExpr(fo, Index(l, i))) == OptExprs(fo, Children(Index(l, i)))
  {
    OptExprsSmall(fo, l, i);
  }

  /** The optimizer makes no comparison of what was none. */
  lemma ComparisonForm(fo: FloatOps, e: Expr)
    requires e.Assert? && KeepsHere(fo, e)
    ensures AssertsComparison(OptExpr(fo, e)) == AssertsComparison(e) && HeadOp(OptExpr(fo, e)) == HeadOp(e)
  {
    var v := OptExpr(fo, e.value);
    assert v.Infix? ==> e.value.Infix? && v.op == e.value.op;
  }

  lemma AssertForm(fo: FloatOps, e: Expr)
    requires e.Assert? && KeepsHere(fo, e)
    ensures Children(OptExpr(fo, e)) == OptExprs(fo, Children(e))
  {
    ComparisonForm(fo, e);
    if AssertsComparison(e) {
      OptExprsSmall(fo, e.value.left, e.value.right);
    } else {
      OptExprsSmall(fo, e.value, e.value);
    }
  }

  lemma OperandForm(fo: FloatOps, e: Expr)
    requires e.Member? || e.Await? || e.ErrorProp?
    ensures Children(OptExpr(fo, e)) == OptExprs(fo, Children(e))
  {
    var x := if e.Member? then e.obj else e.value;
    OptExprsSmall(fo, x, x);
  }

  lemma StrictChildren(fo: FloatOps, e: Expr)
    requires Strict(e) && Visited(e) && KeepsHere(fo, e)
    ensures Children(OptExpr(fo, e)) == OptExprs(fo, Children(e)) && HeadOp(OptExpr(fo, e)) == HeadOp(e)
  {
    if e.Call? {
      CallForm(fo, e.fn, e.typeArgs, e.args);
    } else if e.MapLit? {
      MapForm(fo, e.keys, e.vals, e.positions, e.spreads);
    } else if e.Index? {
      IndexForm(fo, e.left, e.index);
    } else if e.Slice? {
      SliceForm(fo, e.left, e.start, e.end);
    } else if e.Assert? {
      AssertForm(fo, e);
      ComparisonForm(fo, e);
    } else if e.Member? || e.Await? || e.ErrorProp? {
      OperandForm(fo, e);
    }
  }

  lemma StrictForm(fo: FloatOps, o: bool, e: Expr)
    requires Strict(e) && (o && Visited(e) ==> KeepsHere(fo, e))
    ensures Strict(ExprForm(fo, o, e)) && HeadOp(ExprForm(fo, o, e)) == HeadOp(e)
    ensures ExprForm(fo, o, e).Call? == e.Call?
    ensures Children(ExprForm(fo, o, e)) == ExprsForm(fo, o && Visited(e), Children(e))
  {
    if o && Visited(e) { StrictChildren(fo, e); }
  }

  lemma SingleForm(fo: FloatOps, s: Stmt)
    ensures OptStmts(fo, [s]) == OptionSeq(OptStmt(fo, s))
  {
    assert [s][1..] == [];
    assert OptStmts(fo, []) == [];
  }

  lemma ReturnForm(fo: FloatOps, o: bool, value: Expr)
    ensures StmtForm(fo, o, Return(Some(value))) == Some(Return(Some(ExprForm(fo, o, value))))
    ensures OptStmts(fo, [Return(Some(value))]) == [Return(Some(OptExpr(fo, value)))]
  {
    assert OptOption(fo, Some(value)) == Some(OptExpr(fo, value));
    SingleForm(fo, Return(Some(value)));
  }

  // ---- Related steps ----

  lemma RelWrite(fo: FloatOps, st: Store, st': Store, loc: nat, v: Value, v': Value)
    requires RelStore(fo, st, st') && Rel(fo, v, v')
    ensures RelStore(fo, Write(st, loc, v), Write(st', loc, v'))
  {}

  /** The same bindings, in related stores. */
  predicate RelBound(fo: FloatOps, r: (Env, Store), r': (Env, Store)) {
    var alike := r.0 == r'.0 && RelStore(fo, r.1, r'.1);
    alike
  }

  lemma RelBind(fo: FloatOps, env: Env, st: Store, st': Store, name: string, v: Value, v': Value)
    requires RelStore(fo, st, st') && Rel(fo, v, v')
    ensures RelBound(fo, Bind(env, st, name, v), Bind(env, st', name, v'))
  {}

  lemma RelDeclare(fo: FloatOps, env: Env, st: Store, st': Store, name: string, v: Value, v': Value)
    requires RelStore(fo, st, st') && Rel(fo, v, v')
    ensures RelBound(fo, Declare(env, st, name, v), Declare(env, st', name, v'))
  {
    RelBind(fo, env, st, st', name, v, v');
    if name in env.vars { RelWrite(fo, st, st', env.vars[name], v, v'); }
  }

  lemma {:induction false} RelBindParams(fo: FloatOps, env: Env, st: Store, st': Store, params: seq<string>, vs: seq<Value>, vs': seq<Value>)
    requires RelStore(fo, st, st') && RelVals(fo, vs, vs')
    ensures RelBound(fo, BindParams(env, st, params, vs), BindParams(env, st', params, vs'))
    decreases |params|
  {
    if params != [] {
      var v, v' := if vs == [] then NilV else vs[0], if vs' == [] then NilV else vs'[0];
      RelBind(fo, env, st, st', params[0], v, v');
      var (env1, st1) := Bind(env, st, params[0], v);
      var (env1', st1') := Bind(env, st', params[0], v');
      RelBindParams(fo, env1, st1, st1', params[1..], if vs == [] then [] else vs[1..], if vs' == [] then [] else vs'[1..]);
    }
  }

  lemma RelPrim(w: World, op: PrimOp, vs: seq<Value>, vs': seq<Value>, st: Store, st': Store)
    requires Parametric(w) && RelVals(w.flo, vs, vs') && RelStore(w.flo, st, st')
    ensures RelExprOut(w.flo, w.prim(op, vs, st), w.prim(op, vs', st'))
  {
    assert Respects(w, Query(op, vs, vs', [], [], st, st'));
  }

  lemma RelLibrary(w: World, op: PrimOp, vs: seq<Value>, vs': seq<Value>, os: seq<ExprOut>, os': seq<ExprOut>, st: Store, st': Store)
    requires Parametric(w) && RelVals(w.flo, vs, vs') && RelAnswers(w.flo, os, os') && RelStore(w.flo, st, st')
    ensures RelLib(w.flo, w.lib(op, vs, os, st), w.lib(op, vs', os', st'))
  {
    assert Respects(w, Query(op, vs, vs', os, os', st, st'));
  }

  lemma RelIterate(w: World, v: Value, v': Value, st: Store, st': Store)
    requires Parametric(w) && Rel(w.flo, v, v') && RelStore(w.flo, st, st')
    ensures RelItems(w.flo, w.items(v, st), w.items(v', st'))
  {
    assert RelVals(w.flo, [v], [v']);
    assert Respects(w, Query(OpSelf, [v], [v'], [], [], st, st'));
  }

  lemma RelAppend(fo: FloatOps, vs: seq<Value>, vs': seq<Value>, v: Value, v': Value)
    requires RelVals(fo, vs, vs') && Rel(fo, v, v')
    ensures RelVals(fo, vs + [v], vs' + [v'])
  {}

  /** What a declaration hands to the world: its operands and the body as a closure. */
  lemma RelRegister(w: World, op: PrimOp, vs: seq<Value>, vs': seq<Value>, params: seq<string>,
                    code: seq<Stmt>, code': seq<Stmt>, env: Env, st: Store, st': Store)
    requires Parametric(w) && RelVals(w.flo, vs, vs') && RelStore(w.flo, st, st') && RelCode(w.flo, code, code')
    ensures RelExprOut(w.flo, w.prim(op, vs + [Closure(params, code, env)], st), w.prim(op, vs' + [Closure(params, code', env)], st'))
  {
    RelAppend(w.flo, vs, vs', Closure(params, code, env), Closure(params, code', env));
    RelPrim(w, op, vs + [Closure(params, code, env)], vs' + [Closure(params, code', env)], st, st');
  }

  lemma RelBinOp(w: World, op: InfixOp, l: Value, l': Value, r: Value, r': Value, st: Store, st': Store)
    requires Parametric(w) && Rel(w.flo, l, l') && Rel(w.flo, r, r') && RelStore(w.flo, st, st')
    ensures RelExprOut(w.flo, BinOp(w, op, l, r, st), BinOp(w, op, l', r', st'))
  {
    assert RelVals(w.flo, [l, r], [l', r']);
    RelPrim(w, OpInfix(op), [l, r], [l', r'], st, st');
    assert NativeOp(w, op, l, r) == NativeOp(w, op, l', r');
  }

  lemma RelUnOp(w: World, op: PrefixOp, v: Value, v': Value, st: Store, st': Store)
    requires Parametric(w) && Rel(w.flo, v, v') && RelStore(w.flo, st, st')
    ensures RelExprOut(w.flo, UnOp(w, op, v, st), UnOp(w, op, v', st'))
  {
    assert RelVals(w.flo, [v], [v']);
    RelPrim(w, OpPrefix(op), [v], [v'], st, st');
  }

  predicate Literal(e: Expr) {
    e.IntLit? || e.FloatLit? || e.StrLit? || e.BoolLit?
  }

  function LiteralValue(e: Expr): Value
    requires Literal(e)
  {
    match e
    case IntLit(i) => IntV(i)
    case FloatLit(f) => FloatV(f)
    case StrLit(s) => StrV(s)
    case BoolLit(b) => BoolV(b)
  }

  lemma LiteralEval(w: World, fuel: nat, e: Expr, env: Env, st: Store)
    requires Literal(e)
    ensures EvalExpr(w, fuel, e, env, st) == (Val(LiteralValue(e)), st)
  {}

  /** The compile-time operator on two literals is the run-time one on their values. */
  lemma FoldIsNative(w: World, l: Expr, op: InfixOp, r: Expr)
    requires FoldInfix(w.flo, l, op, r).Some?
    ensures Literal(l) && Literal(r) && Literal(FoldInfix(w.flo, l, op, r).value)
    ensures var v := LiteralValue(FoldInfix(w.flo, l, op, r).value);
            if op == And || op == Or then
              l.BoolLit? && r.BoolLit? && v == BoolV(if op == And then l.b && r.b else l.b || r.b)
            else NativeOp(w, op, LiteralValue(l), LiteralValue(r)) == Some(v)
  {}

  /** Folding two literals gives the literal of the operator's value. */
  lemma FoldInfixSound(w: World, fuel: nat, l: Expr, op: InfixOp, r: Expr, env: Env, st: Store)
    requires FoldInfix(w.flo, l, op, r).Some?
    ensures EvalExpr(w, fuel, FoldInfix(w.flo, l, op, r).value, env, st) == EvalExpr(w, fuel, Infix(l, op, r), env, st)
  {
    FoldIsNative(w, l, op, r);
    LiteralEval(w, fuel, l, env, st);
    LiteralEval(w, fuel, r, env, st);
    LiteralEval(w, fuel, FoldInfix(w.flo, l, op, r).value, env, st);
    assert EvalExpr(w, fuel, Infix(l, op, r), env, st) == EvalInfix(w, fuel, l, op, r, env, st);
  }

  lemma FoldPrefixSound(w: World, fuel: nat, op: PrefixOp, r: Expr, env: Env, st: Store)
    requires FoldPrefix(w.flo, op, r).Some?
    ensures EvalExpr(w, fuel, FoldPrefix(w.flo, op, r).value, env, st) == EvalExpr(w, fuel, Prefix(op, r), env, st)
  {
    LiteralEval(w, fuel, r, env, st);
    LiteralEval(w, fuel, FoldPrefix(w.flo, op, r).value, env, st);
  }

  // ---- Operators ----

  lemma InfixEval(w: World, fuel: nat, l: Expr, op: InfixOp, r: Expr, env: Env, st: Store)
    ensures EvalExpr(w, fuel, Infix(l, op, r), env, st) == EvalInfix(w, fuel, l, op, r, env, st)
  {}

  /** An infix expression in terms of what its operands come to; `b` matters only when
      the left one comes to a value that does not decide. */
  function InfixOf(w: World, op: InfixOp, a: (ExprOut, Store), b: (ExprOut, Store)): (ExprOut, Store) {
    if a.0.Stop? then a
    else if Decided(w, op, a.0.v).Some? then (Val(BoolV(Decided(w, op, a.0.v).value)), a.1)
    else Combine(w, op, a.0.v, b.0, b.1)
  }

  lemma InfixMeaning(w: World, fuel: nat, l: Expr, op: InfixOp, r: Expr, env: Env, st: Store, a: (ExprOut, Store), b: (ExprOut, Store))
    requires a == EvalExpr(w, fuel, l, env, st) && (a.0.Val? ==> b == EvalExpr(w, fuel, r, env, a.1))
    ensures EvalInfix(w, fuel, l, op, r, env, st) == InfixOf(w, op, a, b)
  {
  }

  lemma RelInfix(w: World, fuel: nat, l: Expr, l': Expr, op: InfixOp, r: Expr, r': Expr, env: Env, st: Store, st': Store,
                 a: (ExprOut, Store), a': (ExprOut, Store))
    requires Parametric(w) && RelExprOut(w.flo, a, a')
    requires a == EvalExpr(w, fuel, l, env, st) && a' == EvalExpr(w, fuel, l', env, st')
    requires a.0.Val? ==> RelExprOut(w.flo, EvalExpr(w, fuel, r, env, a.1), EvalExpr(w, fuel, r', env, a'.1))
    ensures RelExprOut(w.flo, EvalInfix(w, fuel, l, op, r, env, st), EvalInfix(w, fuel, l', op, r', env, st'))
  {
    var b, b' := EvalExpr(w, fuel, r, env, a.1), EvalExpr(w, fuel, r', env, a'.1);
    InfixMeaning(w, fuel, l, op, r, env, st, a, b);
    InfixMeaning(w, fuel, l', op, r', env, st', a', b');
    RelInfixOf(w, op, a, a', b, b');
  }

  /** Related operands give related applications. */
  lemma RelInfixOf(w: World, op: InfixOp, a: (ExprOut, Store), a': (ExprOut, Store), b: (ExprOut, Store), b': (ExprOut, Store))
    requires Parametric(w) && RelExprOut(w.flo, a, a') && (a.0.Val? ==> RelExprOut(w.flo, b, b'))
    ensures RelExprOut(w.flo, InfixOf(w, op, a, b), InfixOf(w, op, a', b'))
  {
    if a.0.Val? {
      assert Decided(w, op, a.0.v) == Decided(w, op, a'.0.v);
      RelCombine(w, op, a.0.v, a'.0.v, b.0, b'.0, b.1, b'.1);
    }
  }

  lemma RelCombine(w: World, op: InfixOp, l: Value, l': Value, r: ExprOut, r': ExprOut, st: Store, st': Store)
    requires Parametric(w) && Rel(w.flo, l, l') && RelExprOut(w.flo, (r, st), (r', st'))
    ensures RelExprOut(w.flo, Combine(w, op, l, r, st), Combine(w, op, l', r', st'))
  {
    if r.Val? { RelBinOp(w, op, l, l', r.v, r'.v, st, st'); }
  }
}
