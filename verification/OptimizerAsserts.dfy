// What the optimizer does to an `assert` whose comparison folds. The emitted code of an
// `assert` of a comparison compares the operands itself and reports them; once the
// comparison is a literal, it tests that (compiler/codegen_expr.go). So the two differ
// wherever the run time compares in another way than the compiler does, and are alike
// exactly if the comparison does not fold.
module OptimizerAsserts {
  import opened GoInt
  import opened Options
  import opened Ast
  import opened Semantics
  import opened Optimizer
  import opened OptimizerRelation
  import opened OptimizerSimulation
  import opened OptimizerMeaning

  /** What the optimizer makes a literal evaluates to it, and does nothing else. */
  lemma {:induction false} FoldedEval(w: World, fuel: nat, e: Expr, env: Env, st: Store)
    requires Literal(OptExpr(w.flo, e))
    ensures EvalExpr(w, fuel, e, env, st) == (Val(LiteralValue(OptExpr(w.flo, e))), st)
    decreases e
  {
    if e.Infix? {
      FoldedInfixEval(w, fuel, e, env, st);
    } else if e.Prefix? {
      var r := OptExpr(w.flo, e.right);
      FoldedEval(w, fuel, e.right, env, st);
      LiteralEval(w, fuel, r, env, st);
      FoldPrefixSound(w, fuel, e.sign, r, env, st);
      LiteralEval(w, fuel, OptExpr(w.flo, e), env, st);
    }
  }

  lemma {:induction false} FoldedInfixEval(w: World, fuel: nat, e: Expr, env: Env, st: Store)
    requires e.Infix? && Literal(OptExpr(w.flo, e))
    ensures EvalExpr(w, fuel, e, env, st) == (Val(LiteralValue(OptExpr(w.flo, e))), st)
    decreases e, 0
  {
    var l, r := OptExpr(w.flo, e.left), OptExpr(w.flo, e.right);
    FoldIsNative(w, l, e.op, r);
    FoldedEval(w, fuel, e.left, env, st);
    FoldedEval(w, fuel, e.right, env, st);
    LiteralEval(w, fuel, l, env, st);
    LiteralEval(w, fuel, r, env, st);
    InfixEval(w, fuel, e.left, e.op, e.right, env, st);
    InfixEval(w, fuel, l, e.op, r, env, st);
    FoldInfixSound(w, fuel, l, e.op, r, env, st);
    LiteralEval(w, fuel, OptExpr(w.flo, e), env, st);
  }

  /** A program that is one `assert` of a comparison. */
  function AssertOf(l: Expr, op: InfixOp, r: Expr): seq<Stmt> {
    [ExprStmt(Assert(Infix(l, op, r)))]
  }

  /** How it starts up: the world is asked to compare the two values. */
  lemma AssertRuns(w: World, l: Expr, op: InfixOp, r: Expr)
    requires IsComparison(op) && Literal(OptExpr(w.flo, l)) && Literal(OptExpr(w.flo, r))
    ensures var vs := [LiteralValue(OptExpr(w.flo, l)), LiteralValue(OptExpr(w.flo, r))];
      Run(w, 1, AssertOf(l, op, r)) == Started(Library(w, 1, OpAssertThat(op), vs, [], Store([], [], [])))
  {
    var env, st := Env(map[], {}), Store([], [], []);
    FoldedEval(w, 1, l, env, st);
    FoldedEval(w, 1, r, env, st);
    AssertEval(w, l, op, r, LiteralValue(OptExpr(w.flo, l)), LiteralValue(OptExpr(w.flo, r)), env, st);
    RunsOne(w, Assert(Infix(l, op, r)));
  }

  lemma AssertEval(w: World, l: Expr, op: InfixOp, r: Expr, a: Value, b: Value, env: Env, st: Store)
    requires IsComparison(op) && EvalExpr(w, 1, l, env, st) == (Val(a), st) && EvalExpr(w, 1, r, env, st) == (Val(b), st)
    ensures EvalExpr(w, 1, Assert(Infix(l, op, r)), env, st) == Library(w, 1, OpAssertThat(op), [a, b], [], st)
  {
    TwoValues(w, l, r, a, b, env, st);
    StrictEval(w, 1, Assert(Infix(l, op, r)), env, st);
  }

  lemma OneValue(w: World, e: Expr, v: Value, env: Env, st: Store)
    requires EvalExpr(w, 1, e, env, st) == (Val(v), st)
    ensures EvalExprs(w, 1, [e], env, st) == (Vals([v]), st)
  {
    assert EvalExprs(w, 1, [], env, st) == (Vals([]), st);
    EvalCons(w, 1, e, [], env, st);
    assert [e] + [] == [e] && [v] + [] == [v];
  }

  lemma TwoValues(w: World, l: Expr, r: Expr, a: Value, b: Value, env: Env, st: Store)
    requires EvalExpr(w, 1, l, env, st) == (Val(a), st) && EvalExpr(w, 1, r, env, st) == (Val(b), st)
    ensures EvalExprs(w, 1, [l, r], env, st) == (Vals([a, b]), st)
  {
    OneValue(w, r, b, env, st);
    EvalCons(w, 1, l, [r], env, st);
    assert [l] + [r] == [l, r] && [a] + [b] == [a, b];
  }

  /** How it starts up with the comparison folded: the world is asked to test a literal. */
  lemma FoldedAssertRuns(w: World, b: bool)
    ensures Run(w, 1, [ExprStmt(Assert(BoolLit(b)))]) == Started(Library(w, 1, OpAssert, [BoolV(b)], [], Store([], [], [])))
  {
    var e, env, st := Assert(BoolLit(b)), Env(map[], {}), Store([], [], []);
    LiteralEval(w, 1, BoolLit(b), env, st);
    OneValue(w, BoolLit(b), BoolV(b), env, st);
    StrictEval(w, 1, e, env, st);
    RunsOne(w, e);
  }

  function Started(r: (ExprOut, Store)): (StmtOut, Store) {
    (if r.0.Stop? then Abrupt(r.0.j) else Normal, r.1)
  }

  lemma RunsOne(w: World, e: Expr)
    ensures Run(w, 1, [ExprStmt(e)]) == Started(EvalExpr(w, 1, e, Env(map[], {}), Store([], [], [])))
  {
    var program: seq<Stmt> := [ExprStmt(e)];
    assert program[1..] == [];
    assert FnNames([]) == [] && FnNames(program) == [];
    assert program == [ExprStmt(e)] + [];
    ExecCons(w, 1, ExprStmt(e), [], Env(map[], {}), Store([], [], []));
  }

  lemma AssertFolds(fo: FloatOps, l: Expr, op: InfixOp, r: Expr) returns (b: bool)
    requires IsComparison(op) && FoldInfix(fo, OptExpr(fo, l), op, OptExpr(fo, r)).Some?
    ensures FoldInfix(fo, OptExpr(fo, l), op, OptExpr(fo, r)) == Some(BoolLit(b))
    ensures OptProgram(fo, AssertOf(l, op, r)) == [ExprStmt(Assert(BoolLit(b)))]
  {
    ComparisonFolds(fo, OptExpr(fo, l), op, OptExpr(fo, r));
    b := FoldInfix(fo, OptExpr(fo, l), op, OptExpr(fo, r)).value.b;
    assert OptExpr(fo, Infix(l, op, r)) == BoolLit(b);
    OptOne(fo, Infix(l, op, r), BoolLit(b));
  }

  lemma OptOne(fo: FloatOps, e: Expr, e': Expr)
    requires OptExpr(fo, e) == e'
    ensures OptProgram(fo, [ExprStmt(Assert(e))]) == [ExprStmt(Assert(e'))]
  {
    var program: seq<Stmt> := [ExprStmt(Assert(e))];
    assert OptStmt(fo, program[0]) == Some(ExprStmt(Assert(e')));
    assert program[1..] == [] && OptProgram(fo, []) == [];
  }

  lemma ComparisonFolds(fo: FloatOps, l: Expr, op: InfixOp, r: Expr)
    requires IsComparison(op) && FoldInfix(fo, l, op, r).Some?
    ensures Literal(l) && Literal(r) && FoldInfix(fo, l, op, r).value.BoolLit?
  {
  }

  /** Some run of the program and of its optimized form look different. */
  ghost predicate Distinguishes(w: World, program: seq<Stmt>) {
    exists fuel, requests :: Observe(w, fuel, OptProgram(w.flo, program), requests) != Observe(w, fuel, program, requests)
  }

  /** Every such fold shows: a world that logs what it is asked sees the difference. */
  lemma FoldedAssertShows(fo: FloatOps, l: Expr, op: InfixOp, r: Expr)
    requires IsComparison(op) && FoldInfix(fo, OptExpr(fo, l), op, OptExpr(fo, r)).Some?
    ensures exists w: World :: w.flo == fo && Parametric(w) && Distinguishes(w, AssertOf(l, op, r))
  {
    LoggingWorldIsParametric(fo);
    LoggingDistinguishes(fo, l, op, r);
  }

  lemma LoggingDistinguishes(fo: FloatOps, l: Expr, op: InfixOp, r: Expr)
    requires IsComparison(op) && FoldInfix(fo, OptExpr(fo, l), op, OptExpr(fo, r)).Some?
    ensures LoggingWorld(fo).flo == fo && Distinguishes(LoggingWorld(fo), AssertOf(l, op, r))
  {
    var w := LoggingWorld(fo);
    ComparisonFolds(fo, OptExpr(fo, l), op, OptExpr(fo, r));
    var b := AssertFolds(fo, l, op, r);
    AssertLogs(fo, l, op, r);
    FoldedAssertLogs(fo, b);
    assert Observe(w, 1, OptProgram(fo, AssertOf(l, op, r)), []) != Observe(w, 1, AssertOf(l, op, r), []);
  }

  lemma AssertLogs(fo: FloatOps, l: Expr, op: InfixOp, r: Expr)
    requires IsComparison(op) && Literal(OptExpr(fo, l)) && Literal(OptExpr(fo, r))
    ensures |Observe(LoggingWorld(fo), 1, AssertOf(l, op, r), []).effects| == 2
  {
    AssertRuns(LoggingWorld(fo), l, op, r);
    TwoLogged(fo, op, LiteralValue(OptExpr(fo, l)), LiteralValue(OptExpr(fo, r)));
    EffectsAreLog(LoggingWorld(fo), AssertOf(l, op, r));
  }

  lemma FoldedAssertLogs(fo: FloatOps, b: bool)
    ensures |Observe(LoggingWorld(fo), 1, [ExprStmt(Assert(BoolLit(b)))], []).effects| == 1
  {
    FoldedAssertRuns(LoggingWorld(fo), b);
    EffectsAreLog(LoggingWorld(fo), [ExprStmt(Assert(BoolLit(b)))]);
  }

  lemma EffectsAreLog(w: World, program: seq<Stmt>)
    ensures |Observe(w, 1, program, []).effects| == |Run(w, 1, program).1.log|
  {
  }

  lemma TwoLogged(fo: FloatOps, op: InfixOp, a: Value, b: Value)
    requires !b.Closure?
    ensures |Library(LoggingWorld(fo), 1, OpAssertThat(op), [a, b], [], Store([], [], [])).1.log| == 2
  {
  }

  /** An `assert` of a comparison is safe from the optimizer exactly when it does not fold. */
  lemma AssertSafeIff(fo: FloatOps, l: Expr, op: InfixOp, r: Expr)
    requires IsComparison(op) && KeepsExpr(fo, l) && KeepsExpr(fo, r)
    ensures (forall w: World :: w.flo == fo && Parametric(w) ==> !Distinguishes(w, AssertOf(l, op, r)))
       <==> FoldInfix(fo, OptExpr(fo, l), op, OptExpr(fo, r)).None?
  {
    if FoldInfix(fo, OptExpr(fo, l), op, OptExpr(fo, r)).None? {
      KeepsAssert(fo, l, op, r);
      forall w: World, fuel, requests | w.flo == fo && Parametric(w)
        ensures Observe(w, fuel, OptProgram(fo, AssertOf(l, op, r)), requests) == Observe(w, fuel, AssertOf(l, op, r), requests)
      {
        OptimizePreservesBehaviour(w, fuel, AssertOf(l, op, r), requests);
      }
    } else {
      FoldedAssertShows(fo, l, op, r);
    }
  }

  lemma KeepsAssert(fo: FloatOps, l: Expr, op: InfixOp, r: Expr)
    requires IsComparison(op) && KeepsExpr(fo, l) && KeepsExpr(fo, r)
    requires FoldInfix(fo, OptExpr(fo, l), op, OptExpr(fo, r)).None?
    ensures KeepsStmts(fo, AssertOf(l, op, r))
  {
    KeepsFew(fo, l, r);
    KeepsSingle(fo, ExprStmt(Assert(Infix(l, op, r))));
  }

  // ----- The outcome changes, too -----

  function Verdict(passes: bool): ExprOut {
    if passes then Val(NilV) else Stop(PanicJ(StrV("assertion failed")))
  }

  /** runtime.Equal and runtime.Compare on two integers: order goes by float64. */
  predicate Compares(fo: FloatOps, op: InfixOp, a: int64, b: int64) {
    if op == Eq then a == b
    else if op == Neq then a != b
    else FloatOp(fo, op, fo.ofInt(a), fo.ofInt(b)) == Some(BoolV(true))
  }

  /** A world that asserts as the run time does, and does nothing else. */
  function AssertingWorld(fo: FloatOps): World {
    World(fo,
          (op: PrimOp, vs: seq<Value>, st: Store) => (Val(NilV), st),
          (op: PrimOp, vs: seq<Value>, answers: seq<ExprOut>, st: Store) =>
            if op.OpAssertThat? && |vs| == 2 && vs[0].IntV? && vs[1].IntV?
            then Done(Verdict(Compares(fo, op.comparison, vs[0].i, vs[1].i)), st)
            else if op.OpAssert? && |vs| == 1 && vs[0].BoolV? then Done(Verdict(vs[0].b), st)
            else Done(Val(NilV), st),
          (v: Value, st: Store) => [])
  }

  lemma AssertingWorldIsParametric(fo: FloatOps)
    ensures Parametric(AssertingWorld(fo))
  {
    forall q ensures Respects(AssertingWorld(fo), q) {
      assert RelVals(fo, q.vs, q.vs') ==> forall i :: 0 <= i < |q.vs| ==> Rel(fo, q.vs[i], q.vs'[i]);
    }
  }

  /** `assert 9007199254740993 > 9007199254740992` fails, as float64 cannot tell the two
      apart, and passes when it is optimized. */
  lemma HugeAssertPasses(fo: FloatOps)
    requires fo.ofInt(9007199254740993) == fo.ofInt(9007199254740992)
    requires !fo.lt(fo.ofInt(9007199254740992), fo.ofInt(9007199254740992))
    ensures var program := AssertOf(IntLit(9007199254740993), Gt, IntLit(9007199254740992)); var w := AssertingWorld(fo);
      && Parametric(w)
      && Observe(w, 1, program, []).start == Abrupt(PanicJ(StrV("assertion failed")))
      && Observe(w, 1, OptProgram(fo, program), []).start == Normal
  {
    var l, r, w := IntLit(9007199254740993), IntLit(9007199254740992), AssertingWorld(fo);
    AssertingWorldIsParametric(fo);
    AssertRuns(w, l, Gt, r);
    HugeFails(fo);
    StartIsRun(w, AssertOf(l, Gt, r));
    HugeFolds(fo);
    FoldedAssertRuns(w, true);
    StartIsRun(w, [ExprStmt(Assert(BoolLit(true)))]);
  }

  lemma HugeFolds(fo: FloatOps)
    ensures OptProgram(fo, AssertOf(IntLit(9007199254740993), Gt, IntLit(9007199254740992))) == [ExprStmt(Assert(BoolLit(true)))]
  {
    var b := AssertFolds(fo, IntLit(9007199254740993), Gt, IntLit(9007199254740992));
  }

  lemma StartIsRun(w: World, program: seq<Stmt>)
    ensures Run(w, 1, program).0 == Normal ==> Observe(w, 1, program, []).start == Normal
    ensures forall s :: Run(w, 1, program).0 == Abrupt(PanicJ(StrV(s))) ==> Observe(w, 1, program, []).start == Abrupt(PanicJ(StrV(s)))
  {
  }

  lemma HugeFails(fo: FloatOps)
    requires fo.ofInt(9007199254740993) == fo.ofInt(9007199254740992)
    requires !fo.lt(fo.ofInt(9007199254740992), fo.ofInt(9007199254740992))
    ensures var w := AssertingWorld(fo); var st := Store([], [], []);
      && Library(w, 1, OpAssertThat(Gt), [IntV(9007199254740993), IntV(9007199254740992)], [], st) == (Verdict(false), st)
      && Library(w, 1, OpAssert, [BoolV(true)], [], st) == (Verdict(true), st)
  {
    assert !Compares(fo, Gt, 9007199254740993, 9007199254740992);
  }
}
