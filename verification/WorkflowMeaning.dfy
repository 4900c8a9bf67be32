// What the workflow check's dependencies mean. The identifiers in evaluated positions
// of an initialiser are what its value depends on; findReferencedIdents
// (compiler/analyze.go) looks for them in some node kinds only. The ones it finds
// decide the value exactly when they are all of them, as a world that counts unbound
// names can tell.
module WorkflowMeaning {
  import opened GoInt
  import opened Ast
  import opened Semantics
  import opened Workflow
  import opened OptimizerRelation
  import opened OptimizerSimulation

  // ----- Evaluated identifiers -----

  /** The identifiers that evaluating `e` reads or assigns, in the order of evaluation;
      the bodies of function literals are not evaluated with it. */
  function Evaluated(e: Expr): seq<string>
    decreases SizeExpr(e), 0
  {
    if e.Ident? then [e.name]
    else if Leaf(e) then []
    else if e.Infix? then Evaluated(e.left) + Evaluated(e.right)
    else if e.Prefix? then Evaluated(e.right)
    else if e.Assign? || e.CompoundAssign? then Evaluated(e.value) + [e.name]
    else
      SizeChildren(e);
      EvaluatedInAll(Children(e))
  }

  function EvaluatedInAll(es: seq<Expr>): seq<string>
    decreases SizeExprs(es), 1
  {
    if es == [] then [] else Evaluated(es[0]) + EvaluatedInAll(es[1..])
  }

  /** No function literal among the evaluated nodes. A function literal captures the whole
      environment. */
  predicate ClosureFree(e: Expr)
    decreases SizeExpr(e), 0
  {
    var free :=
      if Leaf(e) then !e.FnLit? && !e.Arrow?
      else if e.Infix? then ClosureFree(e.left) && ClosureFree(e.right)
      else if e.Prefix? then ClosureFree(e.right)
      else if e.Assign? || e.CompoundAssign? then ClosureFree(e.value)
      else (SizeChildren(e); AllClosureFree(Children(e)));
    free
  }

  predicate AllClosureFree(es: seq<Expr>)
    decreases SizeExprs(es), 1
  {
    es == [] || (ClosureFree(es[0]) && AllClosureFree(es[1..]))
  }

  /** No `&&` or `||` either, so that every node is evaluated. */
  predicate Straight(e: Expr)
    decreases SizeExpr(e), 0
  {
    if Leaf(e) then !e.FnLit? && !e.Arrow?
    else if e.Infix? then e.op != And && e.op != Or && Straight(e.left) && Straight(e.right)
    else if e.Prefix? then Straight(e.right)
    else if e.Assign? || e.CompoundAssign? then Straight(e.value)
    else
      SizeChildren(e);
      AllStraight(Children(e))
  }

  predicate AllStraight(es: seq<Expr>)
    decreases SizeExprs(es), 1
  {
    es == [] || (Straight(es[0]) && AllStraight(es[1..]))
  }

  lemma {:induction false} StraightIsClosureFree(e: Expr)
    requires Straight(e)
    ensures ClosureFree(e)
    decreases SizeExpr(e), 0
  {
    if e.Infix? {
      StraightIsClosureFree(e.left);
      StraightIsClosureFree(e.right);
    } else if e.Prefix? {
      StraightIsClosureFree(e.right);
    } else if e.Assign? || e.CompoundAssign? {
      StraightIsClosureFree(e.value);
    } else if !Leaf(e) {
      SizeChildren(e);
      AllStraightClosureFree(Children(e));
    }
  }

  lemma {:induction false} AllStraightClosureFree(es: seq<Expr>)
    requires AllStraight(es)
    ensures AllClosureFree(es)
    decreases SizeExprs(es), 1
  {
    if es != [] {
      StraightIsClosureFree(es[0]);
      AllStraightClosureFree(es[1..]);
    }
  }

  /** The two environments bind these names alike. */
  predicate Agree(env: Env, env': Env, names: seq<string>) {
    forall n :: n in names ==> (n in env.vars <==> n in env'.vars) && (n in env.vars ==> env.vars[n] == env'.vars[n])
  }

  /** Whatever the world, the names decide what the expression does. */
  ghost predicate Decide(names: seq<string>, e: Expr) {
    forall w, fuel, env, env', st :: Agree(env, env', names) ==>
      EvalExpr(w, fuel, e, env, st) == EvalExpr(w, fuel, e, env', st)
  }

  // ----- The evaluated identifiers decide -----

  lemma {:induction false} EvaluatedDecide(w: World, fuel: nat, e: Expr, env: Env, env': Env, st: Store)
    requires ClosureFree(e) && Agree(env, env', Evaluated(e))
    ensures EvalExpr(w, fuel, e, env, st) == EvalExpr(w, fuel, e, env', st)
    decreases SizeExpr(e), 1
  {
    if e.Infix? {
      InfixDecided(w, fuel, e, env, env', st);
    } else if e.Prefix? {
      EvaluatedDecide(w, fuel, e.right, env, env', st);
    } else if e.Assign? || e.CompoundAssign? {
      EvaluatedDecide(w, fuel, e.value, env, env', st);
      assert e.name in Evaluated(e);
    } else if !Leaf(e) {
      SizeChildren(e);
      EvaluatedInAllDecide(w, fuel, Children(e), env, env', st);
      StrictEval(w, fuel, e, env, st);
      StrictEval(w, fuel, e, env', st);
    }
  }

  lemma {:induction false} InfixDecided(w: World, fuel: nat, e: Expr, env: Env, env': Env, st: Store)
    requires e.Infix? && ClosureFree(e) && Agree(env, env', Evaluated(e))
    ensures EvalExpr(w, fuel, e, env, st) == EvalExpr(w, fuel, e, env', st)
    decreases SizeExpr(e), 0
  {
    EvaluatedDecide(w, fuel, e.left, env, env', st);
    InfixEval(w, fuel, e.left, e.op, e.right, env, st);
    InfixEval(w, fuel, e.left, e.op, e.right, env', st);
    var a := EvalExpr(w, fuel, e.left, env, st);
    var b := EvalExpr(w, fuel, e.right, env, a.1);
    if a.0.Val? { EvaluatedDecide(w, fuel, e.right, env, env', a.1); }
    InfixMeaning(w, fuel, e.left, e.op, e.right, env, st, a, b);
    InfixMeaning(w, fuel, e.left, e.op, e.right, env', st, a, b);
  }

  lemma {:induction false} EvaluatedInAllDecide(w: World, fuel: nat, es: seq<Expr>, env: Env, env': Env, st: Store)
    requires AllClosureFree(es) && Agree(env, env', EvaluatedInAll(es))
    ensures EvalExprs(w, fuel, es, env, st) == EvalExprs(w, fuel, es, env', st)
    decreases SizeExprs(es), 2
  {
    if es != [] {
      assert es == [es[0]] + es[1..];
      EvalCons(w, fuel, es[0], es[1..], env, st);
      EvalCons(w, fuel, es[0], es[1..], env', st);
      EvaluatedDecide(w, fuel, es[0], env, env', st);
      EvaluatedInAllDecide(w, fuel, es[1..], env, env', EvalExpr(w, fuel, es[0], env, st).1);
    }
  }

  // ----- Every one of them matters -----

  /** A world that logs the unbound identifiers it is asked about, and does nothing else. */
  function CountingWorld(): World {
    World(NoFloats(),
          (op: PrimOp, vs: seq<Value>, st: Store) =>
            (Val(NilV), if op.OpName? then st.(log := st.log + [StrV(op.name)]) else st),
          (op: PrimOp, vs: seq<Value>, answers: seq<ExprOut>, st: Store) => Done(Val(NilV), st),
          (v: Value, st: Store) => [])
  }

  /** Some floating-point operations. */
  function NoFloats(): FloatOps {
    FloatOps((x: Float, y: Float) => x, (x: Float, y: Float) => x, (x: Float, y: Float) => x, (x: Float, y: Float) => x,
             (x: Float) => x, (x: Float, y: Float) => x == y, (x: Float, y: Float) => false,
             (x: Float, y: Float) => false, (i: int64) => Float(0))
  }

  /** How many of the names are unbound. */
  function Unbound(names: seq<string>, env: Env): nat {
    if names == [] then 0 else (if names[0] in env.vars then 0 else 1) + Unbound(names[1..], env)
  }

  lemma {:induction false} UnboundConcat(a: seq<string>, b: seq<string>, env: Env)
    ensures Unbound(a + b, env) == Unbound(a, env) + Unbound(b, env)
  {
    if a == [] {
      assert a + b == b;
    } else {
      assert (a + b)[1..] == a[1..] + b;
      UnboundConcat(a[1..], b, env);
    }
  }

  predicate NoClosures(vs: seq<Value>) {
    forall i :: 0 <= i < |vs| ==> !vs[i].Closure?
  }

  /** The run came to a plain value and logged `n` names. */
  predicate Counted(r: (ExprOut, Store), st: Store, n: nat) {
    var counted := r.0.Val? && !r.0.v.Closure? && NoClosures(r.1.cells) && |r.1.log| == |st.log| + n;
    counted
  }

  predicate AllCounted(r: (ListOut, Store), st: Store, n: nat) {
    var counted := r.0.Vals? && NoClosures(r.0.vs) && NoClosures(r.1.cells) && |r.1.log| == |st.log| + n;
    counted
  }

  /** In the counting world every evaluation of an unbound identifier leaves its mark. */
  lemma {:induction false} MarksCounted(e: Expr, env: Env, st: Store)
    requires Straight(e) && NoClosures(st.cells)
    ensures Counted(EvalExpr(CountingWorld(), 0, e, env, st), st, Unbound(Evaluated(e), env))
    decreases SizeExpr(e), 1
  {
    var w := CountingWorld();
    if e.Infix? {
      MarksOfInfix(e, env, st);
    } else if e.Prefix? {
      MarksCounted(e.right, env, st);
    } else if e.Assign? || e.CompoundAssign? {
      MarksOfAssignment(e, env, st);
    } else if !Leaf(e) {
      SizeChildren(e);
      AllMarksCounted(Children(e), env, st);
      StrictEval(w, 0, e, env, st);
    } else if e.Ident? {
      UnboundOne(e.name, env);
    }
  }

  lemma UnboundOne(name: string, env: Env)
    ensures Unbound([name], env) == if name in env.vars then 0 else 1
  {
    assert [name][1..] == [];
  }

  lemma {:induction false} MarksOfInfix(e: Expr, env: Env, st: Store)
    requires e.Infix? && Straight(e) && NoClosures(st.cells)
    ensures Counted(EvalExpr(CountingWorld(), 0, e, env, st), st, Unbound(Evaluated(e), env))
    decreases SizeExpr(e), 0
  {
    var w := CountingWorld();
    UnboundConcat(Evaluated(e.left), Evaluated(e.right), env);
    MarksCounted(e.left, env, st);
    var a := EvalExpr(w, 0, e.left, env, st);
    MarksCounted(e.right, env, a.1);
    var b := EvalExpr(w, 0, e.right, env, a.1);
    InfixEval(w, 0, e.left, e.op, e.right, env, st);
    InfixMeaning(w, 0, e.left, e.op, e.right, env, st, a, b);
    CountingBinOp(e.op, a.0.v, b.0.v, b.1);
  }

  lemma CountingBinOp(op: InfixOp, l: Value, r: Value, st: Store)
    requires NoClosures(st.cells)
    ensures Counted(BinOp(CountingWorld(), op, l, r, st), st, 0) && BinOp(CountingWorld(), op, l, r, st).1 == st
  {
  }

  lemma {:induction false} MarksOfAssignment(e: Expr, env: Env, st: Store)
    requires (e.Assign? || e.CompoundAssign?) && Straight(e) && NoClosures(st.cells)
    ensures Counted(EvalExpr(CountingWorld(), 0, e, env, st), st, Unbound(Evaluated(e), env))
    decreases SizeExpr(e), 0
  {
    UnboundConcat(Evaluated(e.value), [e.name], env);
    UnboundOne(e.name, env);
    MarksCounted(e.value, env, st);
    var a := EvalExpr(CountingWorld(), 0, e.value, env, st);
    if e.CompoundAssign? && e.name in env.vars {
      CountingBinOp(e.op, Read(a.1, env.vars[e.name]), a.0.v, a.1);
    }
  }

  lemma {:induction false} AllMarksCounted(es: seq<Expr>, env: Env, st: Store)
    requires AllStraight(es) && NoClosures(st.cells)
    ensures AllCounted(EvalExprs(CountingWorld(), 0, es, env, st), st, Unbound(EvaluatedInAll(es), env))
    decreases SizeExprs(es), 2
  {
    if es != [] {
      assert es == [es[0]] + es[1..];
      EvalCons(CountingWorld(), 0, es[0], es[1..], env, st);
      MarksCounted(es[0], env, st);
      AllMarksCounted(es[1..], env, EvalExpr(CountingWorld(), 0, es[0], env, st).1);
      UnboundConcat(Evaluated(es[0]), EvaluatedInAll(es[1..]), env);
    }
  }

  /** Binding a name that occurs leaves fewer unbound. */
  lemma {:induction false} BindingOne(names: seq<string>, name: string)
    requires name in names
    ensures Unbound(names, Env(map[name := 0], {})) < Unbound(names, Env(map[], {})) == |names|
  {
    if name in names[1..] {
      BindingOne(names[1..], name);
    } else {
      BindingOthers(names[1..], name);
    }
  }

  lemma {:induction false} BindingOthers(names: seq<string>, name: string)
    ensures Unbound(names, Env(map[name := 0], {})) <= Unbound(names, Env(map[], {})) == |names|
  {
    if names != [] {
      BindingOthers(names[1..], name);
    }
  }

  /** Whether a name is bound shows, if it is evaluated. */
  lemma EvaluatedShows(e: Expr, name: string)
    requires Straight(e) && name in Evaluated(e)
    ensures exists w, env, env', st ::
      && (forall names :: name !in names ==> Agree(env, env', names))
      && EvalExpr(w, 0, e, env, st) != EvalExpr(w, 0, e, env', st)
  {
    var env, env' := Env(map[name := 0], {}), Env(map[], {});
    var st := Store([NilV], [], []);
    MarksCounted(e, env, st);
    MarksCounted(e, env', st);
    BindingOne(Evaluated(e), name);
    assert EvalExpr(CountingWorld(), 0, e, env, st) != EvalExpr(CountingWorld(), 0, e, env', st);
    forall names | name !in names ensures Agree(env, env', names) {
    }
  }

  // ----- What the analyser finds -----

  /** It finds evaluated identifiers only. */
  lemma {:induction false} ReferencedAreEvaluated(e: Expr, name: string)
    requires name in ReferencedIdents(e)
    ensures name in Evaluated(e)
    decreases SizeExpr(e), 0
  {
    if e.Infix? {
      if name in ReferencedIdents(e.left) { ReferencedAreEvaluated(e.left, name); } else { ReferencedAreEvaluated(e.right, name); }
    } else if e.Prefix? {
      ReferencedAreEvaluated(e.right, name);
    } else if !Leaf(e) {
      SizeChildren(e);
      ReferencedInChildren(e);
      ReferencedInAllEvaluated(Children(e), name);
    }
  }

  lemma {:induction false} ReferencedInAllEvaluated(es: seq<Expr>, name: string)
    requires name in ReferencedInAll(es)
    ensures name in EvaluatedInAll(es)
    decreases SizeExprs(es), 1
  {
    if name in ReferencedIdents(es[0]) { ReferencedAreEvaluated(es[0], name); } else { ReferencedInAllEvaluated(es[1..], name); }
  }

  lemma ReferencedInChildren(e: Expr)
    requires e.Call? || e.Index? || e.Await? || e.Member?
    ensures ReferencedInAll(Children(e)) == ReferencedIdents(e)
  {
    if e.Call? {
      assert ([e.fn] + e.args)[1..] == e.args;
    } else if e.Index? {
      FoundInOne(e.index);
      assert [e.left, e.index][1..] == [e.index];
    } else if e.Await? {
      FoundInOne(e.value);
    } else {
      FoundInOne(e.obj);
    }
  }

  lemma FoundInOne(e: Expr)
    ensures ReferencedInAll([e]) == ReferencedIdents(e)
  {
    assert [e][1..] == [];
  }

  /** The analyser finds every evaluated identifier. */
  predicate FindsAll(e: Expr) {
    forall n :: n in Evaluated(e) ==> n in ReferencedIdents(e)
  }

  /** Then what it finds decides the value. */
  lemma FindingAllSuffices(e: Expr)
    requires ClosureFree(e) && FindsAll(e)
    ensures Decide(ReferencedIdents(e), e)
  {
    forall w, fuel, env, env', st | Agree(env, env', ReferencedIdents(e))
      ensures EvalExpr(w, fuel, e, env, st) == EvalExpr(w, fuel, e, env', st)
    {
      EvaluatedDecide(w, fuel, e, env, env', st);
    }
  }

  /** Exactly when the dependencies found decide an initialiser's value: when every
      identifier in an evaluated position is under node kinds the analyser looks into. */
  lemma ReferencesDecideIff(e: Expr)
    requires Straight(e)
    ensures Decide(ReferencedIdents(e), e) <==> FindsAll(e)
  {
    StraightIsClosureFree(e);
    if FindsAll(e) {
      FindingAllSuffices(e);
    } else {
      var name :| name in Evaluated(e) && name !in ReferencedIdents(e);
      EvaluatedShows(e, name);
      var w, env, env', st :|
        && (forall names :: name !in names ==> Agree(env, env', names))
        && EvalExpr(w, 0, e, env, st) != EvalExpr(w, 0, e, env', st);
      assert Agree(env, env', ReferencedIdents(e));
    }
  }
}
