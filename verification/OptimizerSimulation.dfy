// A run of a program and a run of its optimized form, given the same fuel and related
// stores, end in related outcomes: by induction over fuel and syntax, one lemma for
// every kind of expression and statement. An operator that folds runs as its literal, a
// branch that is decided as its body, and what stands behind a terminator not at all;
// everywhere else both sides take the same steps.
module OptimizerSimulation {
  import opened Options
  import opened Ast
  import opened Semantics
  import opened Optimizer
  import opened OptimizerRelation

  lemma {:induction false} SimExpr(w: World, fuel: nat, e: Expr, o: bool, env: Env, st: Store, st': Store)
    requires Parametric(w) && RelStore(w.flo, st, st')
    requires o ==> KeepsExpr(w.flo, e)
    ensures RelExprOut(w.flo, EvalExpr(w, fuel, e, env, st), EvalExpr(w, fuel, ExprForm(w.flo, o, e), env, st'))
    decreases fuel, 1, SizeExpr(e), 0
  {
    if Leaf(e) {
      SimLeaf(w, fuel, e, o, env, st, st');
    } else if e.Infix? {
      SimFoldInfix(w, fuel, e.left, e.op, e.right, o, env, st, st');
    } else if e.Prefix? {
      SimPrefix(w, fuel, e.sign, e.right, o, env, st, st');
    } else if e.Assign? {
      SimAssign(w, fuel, e.name, e.value, env, st, st');
    } else if e.CompoundAssign? {
      SimCompound(w, fuel, e.name, e.op, e.value, env, st, st');
    } else {
      SizeChildren(e);
      SimStrict(w, fuel, e, o, env, st, st');
    }
  }

  lemma SimLeaf(w: World, fuel: nat, e: Expr, o: bool, env: Env, st: Store, st': Store)
    requires Parametric(w) && RelStore(w.flo, st, st') && Leaf(e)
    requires o ==> KeepsExpr(w.flo, e)
    ensures RelExprOut(w.flo, EvalExpr(w, fuel, e, env, st), EvalExpr(w, fuel, ExprForm(w.flo, o, e), env, st'))
  {
    match e
    case Ident(name) => RelPrim(w, OpName(name), [], [], st, st');
    case SelfExpr => RelPrim(w, OpSelf, [], [], st, st');
    case Arrow(params, value) =>
      ReturnForm(w.flo, true, value);
      KeepsSingle(w.flo, Return(Some(value)));
    case _ =>
  }

  lemma {:induction false} SimPrefix(w: World, fuel: nat, op: PrefixOp, r: Expr, o: bool, env: Env, st: Store, st': Store)
    requires Parametric(w) && RelStore(w.flo, st, st')
    requires o ==> KeepsExpr(w.flo, r)
    ensures RelExprOut(w.flo, EvalExpr(w, fuel, Prefix(op, r), env, st), EvalExpr(w, fuel, ExprForm(w.flo, o, Prefix(op, r)), env, st'))
    decreases fuel, 1, SizeExpr(r), 4
  {
    SimExpr(w, fuel, r, o, env, st, st');
    RelPrefix(w, fuel, op, r, ExprForm(w.flo, o, r), env, st, st');
    var e' := FormPrefix(w.flo, o, op, r);
    if e' != Prefix(op, ExprForm(w.flo, o, r)) { FoldPrefixSound(w, fuel, op, OptExpr(w.flo, r), env, st'); }
  }

  lemma RelPrefix(w: World, fuel: nat, op: PrefixOp, r: Expr, r': Expr, env: Env, st: Store, st': Store)
    requires Parametric(w) && RelExprOut(w.flo, EvalExpr(w, fuel, r, env, st), EvalExpr(w, fuel, r', env, st'))
    ensures RelExprOut(w.flo, EvalExpr(w, fuel, Prefix(op, r), env, st), EvalExpr(w, fuel, Prefix(op, r'), env, st'))
  {
    var (v, s) := EvalExpr(w, fuel, r, env, st);
    var (v', s') := EvalExpr(w, fuel, r', env, st');
    if v.Val? { RelUnOp(w, op, v.v, v'.v, s, s'); }
  }

  lemma FormPrefix(fo: FloatOps, o: bool, op: PrefixOp, r: Expr) returns (e': Expr)
    ensures e' == ExprForm(fo, o, Prefix(op, r))
    ensures e' == Prefix(op, ExprForm(fo, o, r)) ||
            (FoldPrefix(fo, op, OptExpr(fo, r)).Some? && o && e' == FoldPrefix(fo, op, OptExpr(fo, r)).value)
  {
    e' := ExprForm(fo, o, Prefix(op, r));
  }

  lemma FormInfix(fo: FloatOps, o: bool, l: Expr, op: InfixOp, r: Expr) returns (e': Expr)
    ensures e' == ExprForm(fo, o, Infix(l, op, r))
    ensures e' == Infix(ExprForm(fo, o, l), op, ExprForm(fo, o, r)) ||
            (o && FoldInfix(fo, OptExpr(fo, l), op, OptExpr(fo, r)).Some? && e' == FoldInfix(fo, OptExpr(fo, l), op, OptExpr(fo, r)).value)
  {
    e' := ExprForm(fo, o, Infix(l, op, r));
  }

  lemma {:induction false} SimAssign(w: World, fuel: nat, name: string, value: Expr, env: Env, st: Store, st': Store)
    requires Parametric(w) && RelStore(w.flo, st, st')
    ensures RelExprOut(w.flo, EvalExpr(w, fuel, Assign(name, value), env, st), EvalExpr(w, fuel, Assign(name, value), env, st'))
    decreases fuel, 1, SizeExpr(value), 4
  {
    SimExpr(w, fuel, value, false, env, st, st');
    var (v, s) := EvalExpr(w, fuel, value, env, st);
    var (v', s') := EvalExpr(w, fuel, value, env, st');
    if v.Val? {
      RelPrim(w, OpName(name), [v.v], [v'.v], s, s');
      if name in env.vars { RelWrite(w.flo, s, s', env.vars[name], v.v, v'.v); }
    }
  }

  lemma {:induction false} SimFoldInfix(w: World, fuel: nat, l: Expr, op: InfixOp, r: Expr, o: bool, env: Env, st: Store, st': Store)
    requires Parametric(w) && RelStore(w.flo, st, st')
    requires o ==> KeepsExpr(w.flo, l) && KeepsExpr(w.flo, r)
    ensures RelExprOut(w.flo, EvalExpr(w, fuel, Infix(l, op, r), env, st), EvalExpr(w, fuel, ExprForm(w.flo, o, Infix(l, op, r)), env, st'))
    decreases fuel, 1, SizeExpr(l) + SizeExpr(r), 2
  {
    SimInfix(w, fuel, l, op, r, o, env, st, st');
    var l', r' := ExprForm(w.flo, o, l), ExprForm(w.flo, o, r);
    InfixEval(w, fuel, l, op, r, env, st);
    InfixEval(w, fuel, l', op, r', env, st');
    var e' := FormInfix(w.flo, o, l, op, r);
    if e' != Infix(l', op, r') { FoldInfixSound(w, fuel, l', op, r', env, st'); }
  }

  lemma {:induction false} SimInfix(w: World, fuel: nat, l: Expr, op: InfixOp, r: Expr, o: bool, env: Env, st: Store, st': Store)
    requires Parametric(w) && RelStore(w.flo, st, st')
    requires o ==> KeepsExpr(w.flo, l) && KeepsExpr(w.flo, r)
    ensures RelExprOut(w.flo, EvalInfix(w, fuel, l, op, r, env, st),
                       EvalInfix(w, fuel, ExprForm(w.flo, o, l), op, ExprForm(w.flo, o, r), env, st'))
    decreases fuel, 1, SizeExpr(l) + SizeExpr(r), 1
  {
    var l', r' := ExprForm(w.flo, o, l), ExprForm(w.flo, o, r);
    SimExpr(w, fuel, l, o, env, st, st');
    var a, a' := EvalExpr(w, fuel, l, env, st), EvalExpr(w, fuel, l', env, st');
    if a.0.Val? { SimExpr(w, fuel, r, o, env, a.1, a'.1); }
    RelInfix(w, fuel, l, l', op, r, r', env, st, st', a, a');
  }

  lemma {:induction false} SimCompound(w: World, fuel: nat, name: string, op: InfixOp, value: Expr, env: Env, st: Store, st': Store)
    requires Parametric(w) && RelStore(w.flo, st, st')
    ensures RelExprOut(w.flo, EvalCompound(w, fuel, name, op, value, env, st), EvalCompound(w, fuel, name, op, value, env, st'))
    decreases fuel, 1, SizeExpr(value), 1
  {
    SimExpr(w, fuel, value, false, env, st, st');
    var (v, s) := EvalExpr(w, fuel, value, env, st);
    var (v', s') := EvalExpr(w, fuel, value, env, st');
    if v.Val? {
      RelPrim(w, OpName(name), [v.v], [v'.v], s, s');
      if name in env.vars {
        var loc := env.vars[name];
        RelBinOp(w, op, Read(s, loc), Read(s', loc), v.v, v'.v, s, s');
        var (x, t) := BinOp(w, op, Read(s, loc), v.v, s);
        var (x', t') := BinOp(w, op, Read(s', loc), v'.v, s');
        if x.Val? { RelWrite(w.flo, t, t', loc, x.v, x'.v); }
      }
    }
  }

  lemma {:induction false} SimStrict(w: World, fuel: nat, e: Expr, o: bool, env: Env, st: Store, st': Store)
    requires Parametric(w) && RelStore(w.flo, st, st') && Strict(e)
    requires o ==> KeepsExpr(w.flo, e)
    ensures RelExprOut(w.flo, EvalExpr(w, fuel, e, env, st), EvalExpr(w, fuel, ExprForm(w.flo, o, e), env, st'))
    decreases fuel, 1, SizeExprs(Children(e)), 3
  {
    var e' := ExprForm(w.flo, o, e);
    StrictForm(w.flo, o, e);
    SimExprs(w, fuel, Children(e), o && Visited(e), env, st, st');
    var (rs, s) := EvalExprs(w, fuel, Children(e), env, st);
    var (rs', s') := EvalExprs(w, fuel, Children(e'), env, st');
    StrictEval(w, fuel, e, env, st);
    StrictEval(w, fuel, e', env, st');
    if rs.Vals? { SimPerform(w, fuel, e, e', rs.vs, rs'.vs, s, s'); }
  }

  lemma {:induction false} SimPerform(w: World, fuel: nat, e: Expr, e': Expr, vs: seq<Value>, vs': seq<Value>, st: Store, st': Store)
    requires Parametric(w) && RelVals(w.flo, vs, vs') && RelStore(w.flo, st, st') && HeadOp(e') == HeadOp(e) && e'.Call? == e.Call?
    ensures RelExprOut(w.flo, Perform(w, fuel, e, vs, st), Perform(w, fuel, e', vs', st'))
    decreases fuel, 0, 2
  {
    if e.Call? && vs != [] && vs[0].Closure? {
      SimApply(w, fuel, vs[0], vs'[0], vs[1..], vs'[1..], st, st');
    } else {
      SimLibrary(w, fuel, HeadOp(e), vs, vs', [], [], st, st');
    }
  }

  lemma StrictEval(w: World, fuel: nat, e: Expr, env: Env, st: Store)
    requires Strict(e)
    ensures EvalExpr(w, fuel, e, env, st) ==
            var (r, st1) := EvalExprs(w, fuel, Children(e), env, st);
            if r.StopList? then (Stop(r.j), st1) else Perform(w, fuel, e, r.vs, st1)
  {}

  lemma {:induction false} SimExprs(w: World, fuel: nat, es: seq<Expr>, o: bool, env: Env, st: Store, st': Store)
    requires Parametric(w) && RelStore(w.flo, st, st')
    requires o ==> KeepsExprs(w.flo, es)
    ensures RelListOut(w.flo, EvalExprs(w, fuel, es, env, st), EvalExprs(w, fuel, ExprsForm(w.flo, o, es), env, st'))
    decreases fuel, 1, SizeExprs(es), 2
  {
    if es != [] {
      var x, x', rest' := es[0], ExprForm(w.flo, o, es[0]), ExprsForm(w.flo, o, es[1..]);
      SimHead(w, fuel, es, o, env, st, st');
      var a, a' := EvalExpr(w, fuel, x, env, st), EvalExpr(w, fuel, x', env, st');
      if a.0.Val? { SimExprs(w, fuel, es[1..], o, env, a.1, a'.1); }
      RelCons(w.flo, a, a', EvalExprs(w, fuel, es[1..], env, a.1), EvalExprs(w, fuel, rest', env, a'.1));
      assert es == [x] + es[1..] && ExprsForm(w.flo, o, es) == [x'] + rest';
      EvalCons(w, fuel, x, es[1..], env, st);
      EvalCons(w, fuel, x', rest', env, st');
    }
  }

  /** A list from what its head and, unless that stops, its rest come to. */
  function ConsOut(a: (ExprOut, Store), b: (ListOut, Store)): (ListOut, Store) {
    if a.0.Stop? then (StopList(a.0.j), a.1)
    else if b.0.StopList? then b
    else (Vals([a.0.v] + b.0.vs), b.1)
  }

  lemma RelCons(fo: FloatOps, a: (ExprOut, Store), a': (ExprOut, Store), b: (ListOut, Store), b': (ListOut, Store))
    requires RelExprOut(fo, a, a') && (a.0.Val? ==> RelListOut(fo, b, b'))
    ensures RelListOut(fo, ConsOut(a, b), ConsOut(a', b'))
  {}

  lemma EvalCons(w: World, fuel: nat, e: Expr, es: seq<Expr>, env: Env, st: Store)
    ensures EvalExprs(w, fuel, [e] + es, env, st) ==
            ConsOut(EvalExpr(w, fuel, e, env, st), EvalExprs(w, fuel, es, env, EvalExpr(w, fuel, e, env, st).1))
  {
    assert ([e] + es)[1..] == es;
  }

  lemma {:induction false} SimHead(w: World, fuel: nat, es: seq<Expr>, o: bool, env: Env, st: Store, st': Store)
    requires Parametric(w) && RelStore(w.flo, st, st') && es != []
    requires o ==> KeepsExpr(w.flo, es[0])
    ensures RelExprOut(w.flo, EvalExpr(w, fuel, es[0], env, st), EvalExpr(w, fuel, ExprForm(w.flo, o, es[0]), env, st'))
    decreases fuel, 1, SizeExpr(es[0]), 1
  {
    SimExpr(w, fuel, es[0], o, env, st, st');
  }

  lemma {:induction false} SimApply(w: World, fuel: nat, f: Value, f': Value, vs: seq<Value>, vs': seq<Value>, st: Store, st': Store)
    requires Parametric(w) && RelStore(w.flo, st, st') && RelVals(w.flo, vs, vs')
    requires f.Closure? && f'.Closure? && Rel(w.flo, f, f')
    ensures RelExprOut(w.flo, Apply(w, fuel, f, vs, st), Apply(w, fuel, f', vs', st'))
    decreases fuel, 0, 0
  {
    if fuel > 0 {
      RelBindParams(w.flo, f.env, st, st', f.params, vs, vs');
      var (env1, s) := BindParams(f.env, st, f.params, vs);
      var (_, s') := BindParams(f.env, st', f.params, vs');
      SimSeq(w, fuel - 1, f.code, f'.code != f.code, env1, s, s');
    }
  }

  /** A library routine makes related calls, gets related answers, and ends alike. */
  lemma {:induction false} SimLibrary(w: World, fuel: nat, op: PrimOp, vs: seq<Value>, vs': seq<Value>,
                                      os: seq<ExprOut>, os': seq<ExprOut>, st: Store, st': Store)
    requires Parametric(w) && RelVals(w.flo, vs, vs') && RelAnswers(w.flo, os, os') && RelStore(w.flo, st, st')
    ensures RelExprOut(w.flo, Library(w, fuel, op, vs, os, st), Library(w, fuel, op, vs', os', st'))
    decreases fuel, 0, 1
  {
    RelLibrary(w, op, vs, vs', os, os', st, st');
    var l, l' := w.lib(op, vs, os, st), w.lib(op, vs', os', st');
    if l.CallBack? && fuel > 0 {
      if l.f.Closure? { SimApply(w, fuel, l.f, l'.f, l.args, l'.args, l.store, l'.store); }
      var (r, s) := if l.f.Closure? then Apply(w, fuel, l.f, l.args, l.store) else (Val(NilV), l.store);
      var (r', s') := if l'.f.Closure? then Apply(w, fuel, l'.f, l'.args, l'.store) else (Val(NilV), l'.store);
      if r != Stop(OutOfFuel) { SimLibrary(w, fuel - 1, op, vs, vs', os + [r], os' + [r'], s, s'); }
    }
  }

  /** Related endings, the same bindings, related stores. */
  predicate RelExec(fo: FloatOps, r: (StmtOut, Env, Store), r': (StmtOut, Env, Store)) {
    var alike := RelStmtOut(fo, r.0, r'.0) && r.1 == r'.1 && RelStore(fo, r.2, r'.2);
    alike
  }

  predicate RelSeqOut(fo: FloatOps, r: (StmtOut, Store), r': (StmtOut, Store)) {
    var alike := RelStmtOut(fo, r.0, r'.0) && RelStore(fo, r.1, r'.1);
    alike
  }

  /** A statement that vanished did nothing. */
  predicate RelForm(w: World, fuel: nat, s: Stmt, s': Option<Stmt>, env: Env, st: Store, st': Store) {
    var r' := if s'.Some? then Exec(w, fuel, s'.value, env, st') else (Normal, env, st');
    RelExec(w.flo, Exec(w, fuel, s, env, st), r')
  }

  lemma {:induction false} SimSeq(w: World, fuel: nat, ss: seq<Stmt>, o: bool, env: Env, st: Store, st': Store)
    requires Parametric(w) && RelStore(w.flo, st, st')
    requires o ==> KeepsStmts(w.flo, ss)
    ensures RelSeqOut(w.flo, ExecSeq(w, fuel, ss, env, st), ExecSeq(w, fuel, StmtsForm(w.flo, o, ss), env, st'))
    decreases fuel, 2, SizeStmts(ss), 2
  {
    if ss != [] {
      var form := StmtForm(w.flo, o, ss[0]);
      assert ss == [ss[0]] + ss[1..];
      ExecCons(w, fuel, ss[0], ss[1..], env, st);
      SimFirst(w, fuel, ss, o, env, st, st');
      var (r, env1, s) := Exec(w, fuel, ss[0], env, st);
      if form.None? {
        assert StmtsForm(w.flo, o, ss) == StmtsForm(w.flo, o, ss[1..]);
        SimSeq(w, fuel, ss[1..], o, env, s, st');
      } else {
        var (r', _, s') := Exec(w, fuel, form.value, env, st');
        if o && IsTerminator(form.value) {
          assert StmtsForm(w.flo, o, ss) == [form.value];
          ExecSingle(w, fuel, form.value, env, st');
        } else {
          ExecCons(w, fuel, form.value, StmtsForm(w.flo, o, ss[1..]), env, st');
          assert StmtsForm(w.flo, o, ss) == [form.value] + StmtsForm(w.flo, o, ss[1..]);
          if r.Normal? { SimSeq(w, fuel, ss[1..], o, env1, s, s'); }
        }
      }
    }
  }

  lemma ExecCons(w: World, fuel: nat, s: Stmt, ss: seq<Stmt>, env: Env, st: Store)
    ensures ExecSeq(w, fuel, [s] + ss, env, st) ==
            var (o, env1, st1) := Exec(w, fuel, s, env, st);
            if o.Abrupt? then (o, st1) else ExecSeq(w, fuel, ss, env1, st1)
  {
    assert ([s] + ss)[1..] == ss;
  }

  /** A terminator never lets its block go on. */
  lemma ExecSingle(w: World, fuel: nat, s: Stmt, env: Env, st: Store)
    requires IsTerminator(s)
    ensures Exec(w, fuel, s, env, st).0.Abrupt?
    ensures ExecSeq(w, fuel, [s], env, st) == (Exec(w, fuel, s, env, st).0, Exec(w, fuel, s, env, st).2)
  {}

  lemma {:induction false} SimFirst(w: World, fuel: nat, ss: seq<Stmt>, o: bool, env: Env, st: Store, st': Store)
    requires Parametric(w) && RelStore(w.flo, st, st') && ss != []
    requires o ==> KeepsStmt(w.flo, ss[0])
    ensures RelForm(w, fuel, ss[0], StmtForm(w.flo, o, ss[0]), env, st, st')
    decreases fuel, 2, SizeStmt(ss[0]), 1
  {
    SimStmt(w, fuel, ss[0], o, env, st, st');
  }

  lemma {:induction false} SimStmt(w: World, fuel: nat, s: Stmt, o: bool, env: Env, st: Store, st': Store)
    requires Parametric(w) && RelStore(w.flo, st, st')
    requires o ==> KeepsStmt(w.flo, s)
    ensures RelForm(w, fuel, s, StmtForm(w.flo, o, s), env, st, st')
    decreases fuel, 2, SizeStmt(s), 0
  {
    match s
    case Block(body) => SimSeq(w, fuel, body, o, env, st, st');
    case Let(name, value) => SimLet(w, fuel, name, value, o, env, st, st');
    case ExprStmt(value) => SimExpr(w, fuel, value, o, env, st, st');
    case Return(value) => SimReturn(w, fuel, value, o, env, st, st');
    case Break =>
    case Continue =>
    case If(cond, body, els) => SimIf(w, fuel, cond, body, els, o, env, st, st');
    case ForCond(cond, body) => SimLoopCond(w, fuel, cond, body, o, env, st, st');
    case ForIn(keyVar, variable, iterable, body) => SimForIn(w, fuel, keyVar, variable, iterable, body, o, env, st, st');
    case Match(value, cases) => SimMatch(w, fuel, value, cases, o, env, st, st');
    case TryCatch(tryBody, param, catchBody) => SimTry(w, fuel, tryBody, param, catchBody, o, env, st, st');
    case FnDecl(name, params, body) => SimFnDecl(w, fuel, name, params, body, o, env, st, st');
    case Handler(kind, operands, params, body) => SimHandler(w, fuel, kind, operands, params, body, o, env, st, st');
    case Publish(topic, value) => SimPublish(w, fuel, topic, value, o, env, st, st');
    case Spawn(call, limit) => SimSpawn(w, fuel, call, limit, o, env, st, st');
    case Export(inner) => SimStmt(w, fuel, inner, false, env, st, st');
  }

  lemma {:induction false} SimLet(w: World, fuel: nat, name: string, value: Expr, o: bool, env: Env, st: Store, st': Store)
    requires Parametric(w) && RelStore(w.flo, st, st')
    requires o ==> KeepsExpr(w.flo, value)
    ensures RelForm(w, fuel, Let(name, value), StmtForm(w.flo, o, Let(name, value)), env, st, st')
    decreases fuel, 2, SizeExpr(value), 5
  {
    var value' := ExprForm(w.flo, o, value);
    assert StmtForm(w.flo, o, Let(name, value)) == Some(Let(name, value'));
    SimExpr(w, fuel, value, o, env, st, st');
    LetEval(w, fuel, name, value, env, st);
    LetEval(w, fuel, name, value', env, st');
    var (v, t) := EvalExpr(w, fuel, value, env, st);
    var (v', t') := EvalExpr(w, fuel, value', env, st');
    if v.Val? { RelDeclare(w.flo, env, t, t', name, v.v, v'.v); }
  }

  lemma LetEval(w: World, fuel: nat, name: string, value: Expr, env: Env, st: Store)
    ensures Exec(w, fuel, Let(name, value), env, st) ==
            var (r, st1) := EvalExpr(w, fuel, value, env, st);
            if r.Stop? then (Abrupt(r.j), env, st1)
            else (Normal, Declare(env, st1, name, r.v).0, Declare(env, st1, name, r.v).1)
  {}

  lemma {:induction false} SimReturn(w: World, fuel: nat, value: Option<Expr>, o: bool, env: Env, st: Store, st': Store)
    requires Parametric(w) && RelStore(w.flo, st, st')
    requires o ==> KeepsOption(w.flo, value)
    ensures RelForm(w, fuel, Return(value), StmtForm(w.flo, o, Return(value)), env, st, st')
    decreases fuel, 2, SizeOption(value), 5
  {
    match value
    case None => assert OptOption(w.flo, None) == None;
    case Some(v) =>
      SimExpr(w, fuel, v, o, env, st, st');
      ReturnForm(w.flo, o, v);
  }

  lemma {:induction false} SimForIn(w: World, fuel: nat, keyVar: Option<string>, variable: string, iterable: Expr, body: seq<Stmt>, o: bool, env: Env, st: Store, st': Store)
    requires Parametric(w) && RelStore(w.flo, st, st')
    requires o ==> KeepsExpr(w.flo, iterable) && KeepsStmts(w.flo, body)
    ensures RelForm(w, fuel, ForIn(keyVar, variable, iterable, body), StmtForm(w.flo, o, ForIn(keyVar, variable, iterable, body)), env, st, st')
    decreases fuel, 2, SizeExpr(iterable), 5
  {
    var iterable', body' := ExprForm(w.flo, o, iterable), StmtsForm(w.flo, o, body);
    assert StmtForm(w.flo, o, ForIn(keyVar, variable, iterable, body)) == Some(ForIn(keyVar, variable, iterable', body'));
    SimExpr(w, fuel, iterable, o, env, st, st');
    ForInEval(w, fuel, keyVar, variable, iterable, body, env, st);
    ForInEval(w, fuel, keyVar, variable, iterable', body', env, st');
    var (v, t) := EvalExpr(w, fuel, iterable, env, st);
    var (v', t') := EvalExpr(w, fuel, iterable', env, st');
    if v.Val? {
      RelIterate(w, v.v, v'.v, t, t');
      SimLoopIn(w, fuel, OptionSeq(keyVar) + [variable], w.items(v.v, t), w.items(v'.v, t'), body, o, env, t, t');
    }
  }

  lemma ForInEval(w: World, fuel: nat, keyVar: Option<string>, variable: string, iterable: Expr, body: seq<Stmt>, env: Env, st: Store)
    ensures Exec(w, fuel, ForIn(keyVar, variable, iterable, body), env, st) ==
            var (r, st1) := EvalExpr(w, fuel, iterable, env, st);
            if r.Stop? then (Abrupt(r.j), env, st1)
            else
              var (o, st2) := LoopIn(w, fuel, OptionSeq(keyVar) + [variable], w.items(r.v, st1), body, env, st1);
              (o, env, st2)
  {}

  lemma {:induction false} SimMatch(w: World, fuel: nat, value: Expr, cases: seq<Case>, o: bool, env: Env, st: Store, st': Store)
    requires Parametric(w) && RelStore(w.flo, st, st')
    ensures RelForm(w, fuel, Match(value, cases), StmtForm(w.flo, o, Match(value, cases)), env, st, st')
    decreases fuel, 2, SizeExpr(value) + SizeCases(cases), 5
  {
    SimExpr(w, fuel, value, false, env, st, st');
    var (v, t) := EvalExpr(w, fuel, value, env, st);
    var (v', t') := EvalExpr(w, fuel, value, env, st');
    if v.Val? { SimCases(w, fuel, v.v, v'.v, cases, NoElse, env, t, t'); }
  }

  lemma {:induction false} SimFnDecl(w: World, fuel: nat, name: string, params: seq<string>, body: seq<Stmt>, o: bool, env: Env, st: Store, st': Store)
    requires Parametric(w) && RelStore(w.flo, st, st')
    requires o ==> KeepsStmts(w.flo, body)
    ensures RelForm(w, fuel, FnDecl(name, params, body), StmtForm(w.flo, o, FnDecl(name, params, body)), env, st, st')
    decreases fuel, 2, SizeStmts(body), 5
  {
    RelBind(w.flo, env, st, st', name, NilV, NilV);
    var (env1, t) := if name in env.vars then (env, st) else Bind(env, st, name, NilV);
    var (_, t') := if name in env.vars then (env, st') else Bind(env, st', name, NilV);
    var e1 := env1.(local := {});
    RelWrite(w.flo, t, t', env1.vars[name], Closure(params, body, e1), Closure(params, StmtsForm(w.flo, o, body), e1));
  }

  lemma {:induction false} SimHandler(w: World, fuel: nat, kind: HandlerKind, operands: seq<Expr>, params: seq<string>, body: seq<Stmt>, o: bool, env: Env, st: Store, st': Store)
    requires Parametric(w) && RelStore(w.flo, st, st')
    requires o ==> kind.Unvisited? || (KeepsExprs(w.flo, operands) && KeepsStmts(w.flo, body))
    ensures RelForm(w, fuel, Handler(kind, operands, params, body), StmtForm(w.flo, o, Handler(kind, operands, params, body)), env, st, st')
    decreases fuel, 2, SizeExprs(operands), 5
  {
    var o1 := o && !kind.Unvisited?;
    var operands', body' := ExprsForm(w.flo, o1, operands), StmtsForm(w.flo, o1, body);
    assert StmtForm(w.flo, o, Handler(kind, operands, params, body)) == Some(Handler(kind, operands', params, body'));
    SimExprs(w, fuel, operands, o1, env, st, st');
    HandlerEval(w, fuel, kind, operands, params, body, env, st);
    HandlerEval(w, fuel, kind, operands', params, body', env, st');
    RelEffect(w, OpHandler(kind), EvalExprs(w, fuel, operands, env, st), EvalExprs(w, fuel, operands', env, st'),
              [Closure(params, body, env)], [Closure(params, body', env)], env);
  }

  lemma HandlerEval(w: World, fuel: nat, kind: HandlerKind, operands: seq<Expr>, params: seq<string>, body: seq<Stmt>, env: Env, st: Store)
    ensures Exec(w, fuel, Handler(kind, operands, params, body), env, st) ==
            Effect(w, OpHandler(kind), EvalExprs(w, fuel, operands, env, st), [Closure(params, body, env)], env)
  {}

  lemma {:induction false} SimPublish(w: World, fuel: nat, topic: Expr, value: Expr, o: bool, env: Env, st: Store, st': Store)
    requires Parametric(w) && RelStore(w.flo, st, st')
    requires o ==> KeepsExpr(w.flo, topic) && KeepsExpr(w.flo, value)
    ensures RelForm(w, fuel, Publish(topic, value), StmtForm(w.flo, o, Publish(topic, value)), env, st, st')
    decreases fuel, 2, SizeExpr(topic) + SizeExpr(value), 5
  {
    var topic', value' := ExprForm(w.flo, o, topic), ExprForm(w.flo, o, value);
    assert StmtForm(w.flo, o, Publish(topic, value)) == Some(Publish(topic', value'));
    SizePair(topic, value);
    if o { OptExprsSmall(w.flo, topic, value); }
    SimExprs(w, fuel, [topic, value], o, env, st, st');
    PublishEval(w, fuel, topic, value, env, st);
    PublishEval(w, fuel, topic', value', env, st');
    RelEffect(w, OpPublish, EvalExprs(w, fuel, [topic, value], env, st), EvalExprs(w, fuel, [topic', value'], env, st'),
              [], [], env);
  }

  lemma PublishEval(w: World, fuel: nat, topic: Expr, value: Expr, env: Env, st: Store)
    ensures Exec(w, fuel, Publish(topic, value), env, st) ==
            Effect(w, OpPublish, EvalExprs(w, fuel, [topic, value], env, st), [], env)
  {
    var r := EvalExprs(w, fuel, [topic, value], env, st).0;
    if r.Vals? { assert r.vs + [] == r.vs; }
  }

  /** A statement that hands its operands, and `extra`, to the world. */
  function Effect(w: World, op: PrimOp, r: (ListOut, Store), extra: seq<Value>, env: Env): (StmtOut, Env, Store) {
    if r.0.StopList? then (Abrupt(r.0.j), env, r.1)
    else
      var (o, st) := w.prim(op, r.0.vs + extra, r.1);
      (if o.Stop? then Abrupt(o.j) else Normal, env, st)
  }

  lemma RelEffect(w: World, op: PrimOp, r: (ListOut, Store), r': (ListOut, Store), extra: seq<Value>, extra': seq<Value>, env: Env)
    requires Parametric(w) && RelListOut(w.flo, r, r') && RelVals(w.flo, extra, extra')
    ensures RelExec(w.flo, Effect(w, op, r, extra, env), Effect(w, op, r', extra', env))
  {
    if r.0.Vals? { RelPrim(w, op, r.0.vs + extra, r'.0.vs + extra', r.1, r'.1); }
  }

  lemma {:induction false} SimIf(w: World, fuel: nat, cond: Expr, body: seq<Stmt>, els: Else, o: bool, env: Env, st: Store, st': Store)
    requires Parametric(w) && RelStore(w.flo, st, st')
    requires o ==> KeepsExpr(w.flo, cond) && KeepsStmts(w.flo, body) && (els.Else? ==> KeepsStmts(w.flo, els.body))
    ensures RelForm(w, fuel, If(cond, body, els), StmtForm(w.flo, o, If(cond, body, els)), env, st, st')
    decreases fuel, 2, SizeExpr(cond) + SizeStmts(body) + (if els.Else? then SizeStmts(els.body) else 0), 5
  {
    SimExpr(w, fuel, cond, o, env, st, st');
    var (v, t) := EvalExpr(w, fuel, cond, env, st);
    var (v', t') := EvalExpr(w, fuel, ExprForm(w.flo, o, cond), env, st');
    if v.Val? {
      SimSeq(w, fuel, body, o, env, t, t');
      if els.Else? { SimSeq(w, fuel, els.body, o, env, t, t'); }
    }
    RelIf(w, fuel, cond, body, els, o, env, st, st', v, v', t, t');
  }

  /** Related conditions and branches give related ifs; a literal condition, its branch. */
  lemma RelIf(w: World, fuel: nat, cond: Expr, body: seq<Stmt>, els: Else, o: bool, env: Env, st: Store, st': Store,
              v: ExprOut, v': ExprOut, t: Store, t': Store)
    requires (v, t) == EvalExpr(w, fuel, cond, env, st) && (v', t') == EvalExpr(w, fuel, ExprForm(w.flo, o, cond), env, st')
    requires RelExprOut(w.flo, (v, t), (v', t'))
    requires v.Val? ==> RelSeqOut(w.flo, ExecSeq(w, fuel, body, env, t), ExecSeq(w, fuel, StmtsForm(w.flo, o, body), env, t'))
    requires v.Val? && els.Else? ==>
               RelSeqOut(w.flo, ExecSeq(w, fuel, els.body, env, t), ExecSeq(w, fuel, StmtsForm(w.flo, o, els.body), env, t'))
    ensures RelForm(w, fuel, If(cond, body, els), StmtForm(w.flo, o, If(cond, body, els)), env, st, st')
  {
    var cond' := ExprForm(w.flo, o, cond);
    if v.Val? { assert Truthy(w, v.v) == Truthy(w, v'.v); }
    IfStep(w, fuel, cond, body, els, env, st);
    if o && cond'.BoolLit? {
      LiteralEval(w, fuel, cond', env, st');
    } else {
      IfStep(w, fuel, cond', StmtsForm(w.flo, o, body), ElseForm(w.flo, o, els), env, st');
    }
  }

  function ElseForm(fo: FloatOps, o: bool, els: Else): Else {
    if els.Else? then Else(StmtsForm(fo, o, els.body)) else NoElse
  }

  lemma IfStep(w: World, fuel: nat, cond: Expr, body: seq<Stmt>, els: Else, env: Env, st: Store)
    ensures Exec(w, fuel, If(cond, body, els), env, st) ==
            var (r, st1) := EvalExpr(w, fuel, cond, env, st);
            if r.Stop? then (Abrupt(r.j), env, st1)
            else if Truthy(w, r.v) then (ExecSeq(w, fuel, body, env, st1).0, env, ExecSeq(w, fuel, body, env, st1).1)
            else if els.Else? then (ExecSeq(w, fuel, els.body, env, st1).0, env, ExecSeq(w, fuel, els.body, env, st1).1)
            else (Normal, env, st1)
  {}

  lemma {:induction false} SimTry(w: World, fuel: nat, tryBody: seq<Stmt>, param: string, catchBody: seq<Stmt>, o: bool, env: Env, st: Store, st': Store)
    requires Parametric(w) && RelStore(w.flo, st, st')
    requires o ==> KeepsStmts(w.flo, tryBody) && KeepsStmts(w.flo, catchBody)
    ensures RelForm(w, fuel, TryCatch(tryBody, param, catchBody), StmtForm(w.flo, o, TryCatch(tryBody, param, catchBody)), env, st, st')
    decreases fuel, 2, SizeStmts(tryBody) + SizeStmts(catchBody), 5
  {
    SimSeq(w, fuel, tryBody, o, env, st, st');
    var (r, t) := ExecSeq(w, fuel, tryBody, env, st);
    var (r', t') := ExecSeq(w, fuel, StmtsForm(w.flo, o, tryBody), env, st');
    if r.Abrupt? && r.j.PanicJ? {
      RelBind(w.flo, env, t, t', param, r.j.v, r'.j.v);
      var (env2, u) := Bind(env, t, param, r.j.v);
      var (_, u') := Bind(env, t', param, r'.j.v);
      SimSeq(w, fuel, catchBody, o, env2, u, u');
    }
  }

  lemma {:induction false} SimSpawn(w: World, fuel: nat, call: Expr, limit: Option<Expr>, o: bool, env: Env, st: Store, st': Store)
    requires Parametric(w) && RelStore(w.flo, st, st')
    requires o ==> KeepsExpr(w.flo, call) && KeepsOption(w.flo, limit)
    ensures RelForm(w, fuel, Spawn(call, limit), StmtForm(w.flo, o, Spawn(call, limit)), env, st, st')
    decreases fuel, 2, SizeOption(limit), 5
  {
    SizeOptionSeq(limit);
    SpawnForm(w.flo, o, call, limit);
    var s' := StmtForm(w.flo, o, Spawn(call, limit)).value;
    SimExprs(w, fuel, OptionSeq(limit), o, env, st, st');
    var (rs, t) := EvalExprs(w, fuel, OptionSeq(limit), env, st);
    var (rs', t') := EvalExprs(w, fuel, OptionSeq(s'.limit), env, st');
    if rs.Vals? {
      RelRegister(w, OpSpawn, rs.vs, rs'.vs, [], [ExprStmt(call)], [ExprStmt(s'.call)], env, t, t');
    }
    SpawnEval(w, fuel, call, limit, env, st);
    SpawnEval(w, fuel, s'.call, s'.limit, env, st');
  }

  lemma SpawnForm(fo: FloatOps, o: bool, call: Expr, limit: Option<Expr>)
    requires o ==> KeepsExpr(fo, call)
    ensures var s' := StmtForm(fo, o, Spawn(call, limit));
            && s'.Some? && s'.value.Spawn?
            && OptionSeq(s'.value.limit) == ExprsForm(fo, o, OptionSeq(limit))
            && RelCode(fo, [ExprStmt(call)], [ExprStmt(s'.value.call)])
  {
    if o { OptionForm(fo, limit); }
    SingleForm(fo, ExprStmt(call));
    KeepsSingle(fo, ExprStmt(call));
  }

  lemma SpawnEval(w: World, fuel: nat, call: Expr, limit: Option<Expr>, env: Env, st: Store)
    ensures Exec(w, fuel, Spawn(call, limit), env, st) ==
            var (r, st1) := EvalExprs(w, fuel, OptionSeq(limit), env, st);
            if r.StopList? then (Abrupt(r.j), env, st1)
            else
              var (o, st2) := w.prim(OpSpawn, r.vs + [Closure([], [ExprStmt(call)], env)], st1);
              (if o.Stop? then Abrupt(o.j) else Normal, env, st2)
  {}

  lemma {:induction false} SimLoopCond(w: World, fuel: nat, cond: Expr, body: seq<Stmt>, o: bool, env: Env, st: Store, st': Store)
    requires Parametric(w) && RelStore(w.flo, st, st')
    requires o ==> KeepsExpr(w.flo, cond) && KeepsStmts(w.flo, body)
    ensures RelSeqOut(w.flo, LoopCond(w, fuel, cond, body, env, st),
                      LoopCond(w, fuel, ExprForm(w.flo, o, cond), StmtsForm(w.flo, o, body), env, st'))
    decreases fuel, 0
  {
    if fuel > 0 {
      var cond', body' := ExprForm(w.flo, o, cond), StmtsForm(w.flo, o, body);
      SimExpr(w, fuel - 1, cond, o, env, st, st');
      var a, a' := EvalExpr(w, fuel - 1, cond, env, st), EvalExpr(w, fuel - 1, cond', env, st');
      LoopCondEval(w, fuel, cond, body, env, st);
      LoopCondEval(w, fuel, cond', body', env, st');
      var r, r' := ExecSeq(w, fuel - 1, body, env, a.1), ExecSeq(w, fuel - 1, body', env, a'.1);
      if a.0.Val? {
        SimSeq(w, fuel - 1, body, o, env, a.1, a'.1);
        SimLoopCond(w, fuel - 1, cond, body, o, env, r.1, r'.1);
      }
      RelCondTurn(w, a, a', r, r', LoopCond(w, fuel - 1, cond, body, env, r.1), LoopCond(w, fuel - 1, cond', body', env, r'.1));
    }
  }

  /** A turn of a loop: its body, and unless that ends the loop, the rest of the loop. */
  function Turn(body: (StmtOut, Store), rest: (StmtOut, Store)): (StmtOut, Store) {
    if body.0 == Abrupt(BreakJ) then (Normal, body.1)
    else if body.0 == Normal || body.0 == Abrupt(ContinueJ) then rest
    else body
  }

  lemma RelTurn(fo: FloatOps, r: (StmtOut, Store), r': (StmtOut, Store), q: (StmtOut, Store), q': (StmtOut, Store))
    requires RelSeqOut(fo, r, r') && RelSeqOut(fo, q, q')
    ensures RelSeqOut(fo, Turn(r, q), Turn(r', q'))
  {}

  /** The same behind a condition. */
  function CondTurn(w: World, a: (ExprOut, Store), body: (StmtOut, Store), rest: (StmtOut, Store)): (StmtOut, Store) {
    if a.0.Stop? then (Abrupt(a.0.j), a.1)
    else if !Truthy(w, a.0.v) then (Normal, a.1)
    else Turn(body, rest)
  }

  lemma RelCondTurn(w: World, a: (ExprOut, Store), a': (ExprOut, Store), r: (StmtOut, Store), r': (StmtOut, Store),
                    q: (StmtOut, Store), q': (StmtOut, Store))
    requires RelExprOut(w.flo, a, a') && (a.0.Val? ==> RelSeqOut(w.flo, r, r') && RelSeqOut(w.flo, q, q'))
    ensures RelSeqOut(w.flo, CondTurn(w, a, r, q), CondTurn(w, a', r', q'))
  {
    if a.0.Val? { RelTurn(w.flo, r, r', q, q'); }
  }

  lemma LoopCondEval(w: World, fuel: nat, cond: Expr, body: seq<Stmt>, env: Env, st: Store)
    requires fuel > 0
    ensures LoopCond(w, fuel, cond, body, env, st) ==
            var a := EvalExpr(w, fuel - 1, cond, env, st);
            var r := ExecSeq(w, fuel - 1, body, env, a.1);
            CondTurn(w, a, r, LoopCond(w, fuel - 1, cond, body, env, r.1))
  {}

  lemma {:induction false} SimLoopIn(w: World, fuel: nat, names: seq<string>, items: seq<(Value, Value)>, items': seq<(Value, Value)>,
                                     body: seq<Stmt>, o: bool, env: Env, st: Store, st': Store)
    requires Parametric(w) && RelStore(w.flo, st, st') && RelItems(w.flo, items, items')
    requires o ==> KeepsStmts(w.flo, body)
    ensures RelSeqOut(w.flo, LoopIn(w, fuel, names, items, body, env, st),
                      LoopIn(w, fuel, names, items', StmtsForm(w.flo, o, body), env, st'))
    decreases fuel, 0
  {
    if items != [] && fuel > 0 {
      var vs, vs' := ItemArgs(names, items[0]), ItemArgs(names, items'[0]);
      RelBindParams(w.flo, env, st, st', names, vs, vs');
      var (env1, t) := BindParams(env, st, names, vs);
      var (_, t') := BindParams(env, st', names, vs');
      SimSeq(w, fuel - 1, body, o, env1, t, t');
      var (r, u) := ExecSeq(w, fuel - 1, body, env1, t);
      var (r', u') := ExecSeq(w, fuel - 1, StmtsForm(w.flo, o, body), env1, t');
      SimLoopIn(w, fuel - 1, names, items[1..], items'[1..], body, o, env, u, u');
    }
  }

  lemma DefaultCase(w: World, fuel: nat, v: Value, dflt: Else, env: Env, st: Store)
    requires dflt.Else?
    ensures ExecCases(w, fuel, v, [], dflt, env, st) == ExecSeq(w, fuel, dflt.body, env, st)
  {
    assert ExecDefault(w, fuel, dflt.body, env, st) == ExecSeq(w, fuel, dflt.body, env, st);
  }

  lemma {:induction false} SimCases(w: World, fuel: nat, v: Value, v': Value, cases: seq<Case>, dflt: Else, env: Env, st: Store, st': Store)
    requires Parametric(w) && RelStore(w.flo, st, st') && Rel(w.flo, v, v')
    ensures RelSeqOut(w.flo, ExecCases(w, fuel, v, cases, dflt, env, st), ExecCases(w, fuel, v', cases, dflt, env, st'))
    decreases fuel, 2, SizeCases(cases) + (if dflt.Else? then SizeStmts(dflt.body) else 0), 4
  {
    if cases == [] {
      if dflt.Else? {
        SimSeq(w, fuel, dflt.body, false, env, st, st');
        DefaultCase(w, fuel, v, dflt, env, st);
        DefaultCase(w, fuel, v', dflt, env, st');
      }
    } else if cases[0].value.None? {
      SimCases(w, fuel, v, v', cases[1..], Else(cases[0].body), env, st, st');
    } else {
      var c := cases[0].value.value;
      SimExpr(w, fuel, c, false, env, st, st');
      CaseEval(w, fuel, v, cases, dflt, env, st);
      CaseEval(w, fuel, v', cases, dflt, env, st');
      var (r, t) := EvalExpr(w, fuel, c, env, st);
      var (r', t') := EvalExpr(w, fuel, c, env, st');
      if r.Val? {
        RelBinOp(w, Eq, v, v', r.v, r'.v, t, t');
        var q, q' := BinOp(w, Eq, v, r.v, t), BinOp(w, Eq, v', r'.v, t');
        SimSeq(w, fuel, cases[0].body, false, env, q.1, q'.1);
        SimCases(w, fuel, v, v', cases[1..], dflt, env, q.1, q'.1);
        RelChosen(w, q, q', ExecSeq(w, fuel, cases[0].body, env, q.1), ExecSeq(w, fuel, cases[0].body, env, q'.1),
                  ExecCases(w, fuel, v, cases[1..], dflt, env, q.1), ExecCases(w, fuel, v', cases[1..], dflt, env, q'.1));
      }
    }
  }

  /** A case, by whether its value is the one matched: its body, or the cases behind it. */
  function Chosen(w: World, q: (ExprOut, Store), body: (StmtOut, Store), rest: (StmtOut, Store)): (StmtOut, Store) {
    if q.0.Stop? then (Abrupt(q.0.j), q.1) else if Truthy(w, q.0.v) then body else rest
  }

  lemma RelChosen(w: World, q: (ExprOut, Store), q': (ExprOut, Store), b: (StmtOut, Store), b': (StmtOut, Store),
                  c: (StmtOut, Store), c': (StmtOut, Store))
    requires RelExprOut(w.flo, q, q') && RelSeqOut(w.flo, b, b') && RelSeqOut(w.flo, c, c')
    ensures RelSeqOut(w.flo, Chosen(w, q, b, c), Chosen(w, q', b', c'))
  {}

  lemma CaseEval(w: World, fuel: nat, v: Value, cases: seq<Case>, dflt: Else, env: Env, st: Store)
    requires cases != [] && cases[0].value.Some?
    ensures ExecCases(w, fuel, v, cases, dflt, env, st) ==
            var (r, t) := EvalExpr(w, fuel, cases[0].value.value, env, st);
            if r.Stop? then (Abrupt(r.j), t)
            else
              var q := BinOp(w, Eq, v, r.v, t);
              Chosen(w, q, ExecSeq(w, fuel, cases[0].body, env, q.1), ExecCases(w, fuel, v, cases[1..], dflt, env, q.1))
  {}
}
