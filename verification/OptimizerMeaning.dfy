// The optimizer preserves meaning: runs of a program and of its optimized form, given
// the same fuel, look the same from outside.
module OptimizerMeaning {
  import opened Ast
  import opened Semantics
  import opened Optimizer
  import opened OptimizerRelation
  import opened OptimizerSimulation

  /** The functions a program declares are all visible from the start. */
  function FnNames(program: seq<Stmt>): seq<string> {
    if program == [] then []
    else (if program[0].FnDecl? then [program[0].name] else []) + FnNames(program[1..])
  }

  function Run(w: World, fuel: nat, program: seq<Stmt>): (StmtOut, Store) {
    var (env, st) := BindParams(Env(map[], {}), Store([], [], []), FnNames(program), []);
    ExecSeq(w, fuel, program, env, st)
  }

  /** Requests arriving after start-up: each one calls a handler that the run logged. */
  function Serve(w: World, fuel: nat, requests: seq<(nat, seq<Value>)>, st: Store): (seq<ExprOut>, Store) {
    if requests == [] then ([], st)
    else
      var (h, args) := requests[0];
      var (r, st1) := if h < |st.log| && st.log[h].Closure? then Apply(w, fuel, st.log[h], args, st) else (Val(NilV), st);
      var (rs, st2) := Serve(w, fuel, requests[1..], st1);
      ([r] + rs, st2)
  }

  // The one difference allowed is inside closures, whose code may be the optimized form of
  // the original code; observations erase it.

  /** A value as an outside observer sees it: the code of a closure is invisible. */
  function Erase(v: Value): Value {
    if v.Closure? then Closure(v.params, [], v.env) else v
  }

  function EraseAll(vs: seq<Value>): seq<Value> {
    seq(|vs|, i requires 0 <= i < |vs| => Erase(vs[i]))
  }

  function EraseHeap(h: seq<seq<Value>>): seq<seq<Value>> {
    seq(|h|, i requires 0 <= i < |h| => EraseAll(h[i]))
  }

  function EraseJump(j: Jump): Jump {
    match j
    case ReturnJ(v) => ReturnJ(Erase(v))
    case PanicJ(v) => PanicJ(Erase(v))
    case _ => j
  }

  function EraseOut(r: ExprOut): ExprOut {
    if r.Val? then Val(Erase(r.v)) else Stop(EraseJump(r.j))
  }

  datatype Behaviour = Behaviour(start: StmtOut, answers: seq<ExprOut>, variables: seq<Value>, objects: seq<seq<Value>>,
                                 effects: seq<Value>)

  /** How start-up ended, the answer to every request, the variables, the arrays, maps and
      structs, and all effects. */
  function Observe(w: World, fuel: nat, program: seq<Stmt>, requests: seq<(nat, seq<Value>)>): Behaviour {
    ObserveAfter(w, fuel, requests, Run(w, fuel, program))
  }

  function ObserveAfter(w: World, fuel: nat, requests: seq<(nat, seq<Value>)>, started: (StmtOut, Store)): Behaviour {
    var (o, st) := started;
    var (rs, st1) := Serve(w, fuel, requests, st);
    Behaviour(if o.Abrupt? then Abrupt(EraseJump(o.j)) else o,
              seq(|rs|, i requires 0 <= i < |rs| => EraseOut(rs[i])), EraseAll(st1.cells), EraseHeap(st1.heap), EraseAll(st1.log))
  }

  lemma {:induction false} FnNamesKept(fo: FloatOps, program: seq<Stmt>)
    ensures FnNames(OptProgram(fo, program)) == FnNames(program)
  {
    if program != [] {
      FnNamesKept(fo, program[1..]);
      var rest := OptProgram(fo, program[1..]);
      var first := OptStmt(fo, program[0]);
      if first.Some? {
        assert OptProgram(fo, program) == [first.value] + rest;
        assert ([first.value] + rest)[1..] == rest;
      } else {
        assert OptProgram(fo, program) == rest;
      }
    }
  }

  lemma {:induction false} SimProgram(w: World, fuel: nat, program: seq<Stmt>, env: Env, st: Store, st': Store)
    requires Parametric(w) && RelStore(w.flo, st, st') && KeepsStmts(w.flo, program)
    ensures RelSeqOut(w.flo, ExecSeq(w, fuel, program, env, st), ExecSeq(w, fuel, OptProgram(w.flo, program), env, st'))
    decreases |program|
  {
    if program != [] {
      var form, rest := OptStmt(w.flo, program[0]), OptProgram(w.flo, program[1..]);
      assert program == [program[0]] + program[1..];
      ExecCons(w, fuel, program[0], program[1..], env, st);
      SimStmt(w, fuel, program[0], true, env, st, st');
      var (r, env1, s) := Exec(w, fuel, program[0], env, st);
      if form.None? {
        assert OptProgram(w.flo, program) == rest;
        SimProgram(w, fuel, program[1..], env, s, st');
      } else {
        assert OptProgram(w.flo, program) == [form.value] + rest;
        ExecCons(w, fuel, form.value, rest, env, st');
        var (r', _, s') := Exec(w, fuel, form.value, env, st');
        if r.Normal? { SimProgram(w, fuel, program[1..], env1, s, s'); }
      }
    }
  }

  lemma {:induction false} SimServe(w: World, fuel: nat, requests: seq<(nat, seq<Value>)>, st: Store, st': Store)
    requires Parametric(w) && RelStore(w.flo, st, st')
    ensures var (rs, s) := Serve(w, fuel, requests, st);
            var (rs', s') := Serve(w, fuel, requests, st');
            var sameStore := RelStore(w.flo, s, s');
            |rs| == |rs'| && (forall i :: 0 <= i < |rs| ==> EraseOut(rs[i]) == EraseOut(rs'[i])) && sameStore
  {
    if requests != [] {
      var (h, args) := requests[0];
      var called := h < |st.log| && st.log[h].Closure?;
      if called { SimApply(w, fuel, st.log[h], st'.log[h], args, args, st, st'); }
      var (r, s) := if called then Apply(w, fuel, st.log[h], args, st) else (Val(NilV), st);
      var (r', s') := if called then Apply(w, fuel, st'.log[h], args, st') else (Val(NilV), st');
      assert EraseOut(r) == EraseOut(r');
      SimServe(w, fuel, requests[1..], s, s');
    }
  }

  lemma RelErase(fo: FloatOps, vs: seq<Value>, vs': seq<Value>)
    requires RelVals(fo, vs, vs')
    ensures EraseAll(vs) == EraseAll(vs')
  {}

  lemma RelHeapErase(fo: FloatOps, h: seq<seq<Value>>, h': seq<seq<Value>>)
    requires RelHeap(fo, h, h')
    ensures EraseHeap(h) == EraseHeap(h')
  {
    forall i | 0 <= i < |h| ensures EraseAll(h[i]) == EraseAll(h'[i]) {
      RelErase(fo, h[i], h'[i]);
    }
  }

  lemma SimRun(w: World, fuel: nat, program: seq<Stmt>)
    requires Parametric(w) && KeepsStmts(w.flo, program)
    ensures RelSeqOut(w.flo, Run(w, fuel, program), Run(w, fuel, OptProgram(w.flo, program)))
  {
    FnNamesKept(w.flo, program);
    var (env, st) := BindParams(Env(map[], {}), Store([], [], []), FnNames(program), []);
    SimProgram(w, fuel, program, env, st, st);
  }

  /** Related ends of start-up serve and look alike. */
  lemma ServedAlike(w: World, fuel: nat, requests: seq<(nat, seq<Value>)>, r: (StmtOut, Store), r': (StmtOut, Store))
    requires Parametric(w) && RelSeqOut(w.flo, r, r')
    ensures ObserveAfter(w, fuel, requests, r) == ObserveAfter(w, fuel, requests, r')
  {
    SimServe(w, fuel, requests, r.1, r'.1);
    var s, s' := Serve(w, fuel, requests, r.1).1, Serve(w, fuel, requests, r'.1).1;
    RelErase(w.flo, s.cells, s'.cells);
    RelHeapErase(w.flo, s.heap, s'.heap);
    RelErase(w.flo, s.log, s'.log);
  }

  /** Optimize changes nothing an observer can see, at any fuel, whatever the
      program, the world outside it, and the requests it later serves, provided that no
      comparison under an `assert` folds. */
  lemma OptimizePreservesBehaviour(w: World, fuel: nat, program: seq<Stmt>, requests: seq<(nat, seq<Value>)>)
    requires Parametric(w) && KeepsStmts(w.flo, program)
    ensures Observe(w, fuel, OptProgram(w.flo, program), requests) == Observe(w, fuel, program, requests)
  {
    SimRun(w, fuel, program);
    ServedAlike(w, fuel, requests, Run(w, fuel, program), Run(w, fuel, OptProgram(w.flo, program)));
  }

  /** The premise is met by real worlds: this one logs every operand, keeps arrays in the
      heap, calls a function it is handed last once and answers what that does, returns
      the last operand otherwise, and panics on division by zero. */
  function LoggingWorld(flo: FloatOps): World {
    World(flo,
          (op: PrimOp, vs: seq<Value>, st: Store) =>
            if op == OpInfix(Div) then (Stop(PanicJ(StrV("division"))), st)
            else (LastOf(vs), st.(log := st.log + vs)),
          (op: PrimOp, vs: seq<Value>, answers: seq<ExprOut>, st: Store) =>
            if op == OpArray then Done(Val(Ref(|st.heap|)), st.(heap := st.heap + [vs]))
            else if answers != [] then Done(answers[|answers| - 1], st)
            else if vs != [] && vs[|vs| - 1].Closure? then CallBack(vs[|vs| - 1], vs[..|vs| - 1], st.(log := st.log + vs))
            else Done(LastOf(vs), st.(log := st.log + vs)),
          (v: Value, st: Store) => if v.Ref? && v.id < |st.heap| then ListItems(st.heap[v.id]) else [])
  }

  function LastOf(vs: seq<Value>): ExprOut {
    if vs == [] then Val(NilV) else Val(vs[|vs| - 1])
  }

  function ListItems(vs: seq<Value>): seq<(Value, Value)> {
    seq(|vs|, i requires 0 <= i < |vs| => (NilV, vs[i]))
  }

  lemma LoggingWorldIsParametric(flo: FloatOps)
    ensures Parametric(LoggingWorld(flo))
  {
    forall q ensures Respects(LoggingWorld(flo), q) {
      if RelVals(flo, q.vs, q.vs') && RelStore(flo, q.st, q.st') {
        LoggingPrim(flo, q);
        LoggingItems(flo, q);
        if RelAnswers(flo, q.answers, q.answers') { LoggingLib(flo, q); }
      }
    }
  }

  lemma LastAlike(flo: FloatOps, vs: seq<Value>, vs': seq<Value>)
    requires RelVals(flo, vs, vs')
    ensures RelOut(flo, LastOf(vs), LastOf(vs'))
  {
    assert vs != [] ==> Rel(flo, vs[|vs| - 1], vs'[|vs| - 1]);
  }

  lemma LoggedAlike(flo: FloatOps, q: Query)
    requires RelVals(flo, q.vs, q.vs') && RelStore(flo, q.st, q.st')
    ensures RelStore(flo, q.st.(log := q.st.log + q.vs), q.st'.(log := q.st'.log + q.vs'))
  {
    assert RelVals(flo, q.st.log + q.vs, q.st'.log + q.vs');
  }

  lemma LoggingPrim(flo: FloatOps, q: Query)
    requires RelVals(flo, q.vs, q.vs') && RelStore(flo, q.st, q.st')
    ensures var w := LoggingWorld(flo); RelExprOut(flo, w.prim(q.op, q.vs, q.st), w.prim(q.op, q.vs', q.st'))
  {
    LastAlike(flo, q.vs, q.vs');
    LoggedAlike(flo, q);
  }

  lemma LoggingItems(flo: FloatOps, q: Query)
    requires RelVals(flo, q.vs, q.vs') && RelStore(flo, q.st, q.st')
    ensures var w := LoggingWorld(flo);
      |q.vs| == 1 ==> RelItems(flo, w.items(q.vs[0], q.st), w.items(q.vs'[0], q.st'))
  {
    if |q.vs| == 1 {
      var v, v' := q.vs[0], q.vs'[0];
      if v.Ref? && v.id < |q.st.heap| { assert RelVals(flo, q.st.heap[v.id], q.st'.heap[v.id]); }
    }
  }

  lemma LoggingLib(flo: FloatOps, q: Query)
    requires RelVals(flo, q.vs, q.vs') && RelStore(flo, q.st, q.st') && RelAnswers(flo, q.answers, q.answers')
    ensures var w := LoggingWorld(flo);
      RelLib(flo, w.lib(q.op, q.vs, q.answers, q.st), w.lib(q.op, q.vs', q.answers', q.st'))
  {
    LastAlike(flo, q.vs, q.vs');
    LoggedAlike(flo, q);
    assert RelHeap(flo, q.st.heap + [q.vs], q.st'.heap + [q.vs']);
    assert q.answers != [] ==> RelOut(flo, q.answers[|q.answers| - 1], q.answers'[|q.answers| - 1]);
  }
}
