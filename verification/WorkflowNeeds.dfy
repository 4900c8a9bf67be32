// What the workflow check (compiler/analyze.go) sees of the needs of a workflow's
// steps. The needs are read off the workflow itself.
module WorkflowNeeds {
  import opened GoInt
  import opened Options
  import opened Ast
  import opened Graphs
  import opened Semantics
  import opened Workflow
  import opened WorkflowMeaning
  import opened OptimizerSimulation

  // ----- Free identifiers -----

  /** The identifiers that evaluating `e`, or calling a function written in it, may read or
      assign outside. */
  function Free(e: Expr): set<string>
    decreases SizeExpr(e), 0
  {
    if e.Ident? then {e.name}
    else if e.FnLit? then FreeInBody(e.body) - Names(e.params)
    else if e.Arrow? then Free(e.value) - Names(e.params)
    else if Leaf(e) then {}
    else if e.Infix? then Free(e.left) + Free(e.right)
    else if e.Prefix? then Free(e.right)
    else if e.Assign? || e.CompoundAssign? then Free(e.value) + {e.name}
    else
      SizeChildren(e);
      FreeInAll(Children(e))
  }

  function FreeInAll(es: seq<Expr>): set<string>
    decreases SizeExprs(es), 1
  {
    if es == [] then {} else Free(es[0]) + FreeInAll(es[1..])
  }

  function FreeInOption(e: Option<Expr>): set<string>
    decreases SizeOption(e), 1
  {
    if e.Some? then Free(e.value) else {}
  }

  /** What a statement declares is not free behind it. */
  function FreeInBody(body: seq<Stmt>): set<string>
    decreases SizeStmts(body), 1
  {
    if body == [] then {} else FreeInStmt(body[0]) + (FreeInBody(body[1..]) - Declared(body[0]))
  }

  function Declared(s: Stmt): set<string> {
    if s.Let? || s.FnDecl? then {s.name} else if s.Export? then Declared(s.inner) else {}
  }

  function FreeInStmt(s: Stmt): set<string>
    decreases SizeStmt(s), 0
  {
    match s
    case Block(body) => FreeInBody(body)
    case Let(_, v) => Free(v)
    case ExprStmt(v) => Free(v)
    case Return(v) => FreeInOption(v)
    case Break => {}
    case Continue => {}
    case If(c, body, els) => Free(c) + FreeInBody(body) + (if els.Else? then FreeInBody(els.body) else {})
    case ForCond(c, body) => Free(c) + FreeInBody(body)
    case ForIn(keyVar, x, it, body) => Free(it) + (FreeInBody(body) - {x} - Names(OptionSeq(keyVar)))
    case Match(v, cases) => Free(v) + FreeInCases(cases)
    case TryCatch(t, param, c) => FreeInBody(t) + (FreeInBody(c) - {param})
    case FnDecl(name, params, body) => FreeInBody(body) - Names(params) - {name}
    case Handler(_, operands, params, body) => FreeInAll(operands) + (FreeInBody(body) - Names(params))
    case Publish(topic, v) => Free(topic) + Free(v)
    case Spawn(call, limit) => Free(call) + FreeInOption(limit)
    case Export(inner) => FreeInStmt(inner)
  }

  function FreeInCases(cases: seq<Case>): set<string>
    decreases SizeCases(cases), 0
  {
    if cases == [] then {}
    else FreeInOption(cases[0].value) + FreeInBody(cases[0].body) + FreeInCases(cases[1..])
  }

  function Names(names: seq<string>): set<string> {
    set n | n in names
  }

  /** What is evaluated is free; without function literals nothing else is. */
  lemma {:induction false} FreeAreEvaluated(e: Expr, name: string)
    ensures name in Evaluated(e) ==> name in Free(e)
    ensures ClosureFree(e) && name in Free(e) ==> name in Evaluated(e)
    decreases SizeExpr(e), 0
  {
    if e.Infix? {
      FreeAreEvaluated(e.left, name);
      FreeAreEvaluated(e.right, name);
    } else if e.Prefix? {
      FreeAreEvaluated(e.right, name);
    } else if e.Assign? || e.CompoundAssign? {
      FreeAreEvaluated(e.value, name);
    } else if !Leaf(e) {
      SizeChildren(e);
      FreeInAllAreEvaluated(Children(e), name);
    }
  }

  lemma {:induction false} FreeInAllAreEvaluated(es: seq<Expr>, name: string)
    ensures name in EvaluatedInAll(es) ==> name in FreeInAll(es)
    ensures AllClosureFree(es) && name in FreeInAll(es) ==> name in EvaluatedInAll(es)
    decreases SizeExprs(es), 1
  {
    if es != [] {
      FreeAreEvaluated(es[0], name);
      FreeInAllAreEvaluated(es[1..], name);
    }
  }

  // ----- The needs -----

  // Every `let` and function, wherever it stands, needs the identifiers that are free in
  // it. The check builds its graph from the `let`s of some statement kinds and the
  // identifiers of some node kinds, and keeps the last `let` of a name.

  /** Every `let` and every function of a body, at any depth, with what it evaluates. The
      bodies of functions and handlers are not part of the workflow's own run. */
  function Definitions(body: seq<Stmt>): seq<(string, Expr)>
    decreases SizeStmts(body), 1
  {
    if body == [] then [] else DefinitionsOf(body[0]) + Definitions(body[1..])
  }

  function DefinitionsOf(s: Stmt): seq<(string, Expr)>
    decreases SizeStmt(s), 0
  {
    if s.Let? then [(s.name, s.value)]
    else if s.FnDecl? then [(s.name, FnLit([s.name] + s.params, s.body))]
    else if s.Block? || s.ForCond? || s.ForIn? then Definitions(s.body)
    else if s.If? then Definitions(s.body) + (if s.els.Else? then Definitions(s.els.body) else [])
    else if s.TryCatch? then Definitions(s.tryBody) + Definitions(s.catchBody)
    else if s.Match? then DefinitionsInCases(s.cases)
    else if s.Export? then DefinitionsOf(s.inner)
    else []
  }

  function DefinitionsInCases(cases: seq<Case>): seq<(string, Expr)>
    decreases SizeCases(cases), 0
  {
    if cases == [] then [] else Definitions(cases[0].body) + DefinitionsInCases(cases[1..])
  }

  /** Some definition of `u` needs `v`. */
  predicate Needs(wf: WorkflowDecl, u: string, v: string) {
    exists i :: 0 <= i < |Definitions(wf.body)| && NeedsAt(wf.body, i, u, v)
  }

  predicate NeedsAt(body: seq<Stmt>, i: nat, u: string, v: string)
    requires i < |Definitions(body)|
  {
    Definitions(body)[i].0 == u && v in Free(Definitions(body)[i].1)
  }

  /** Steps that need each other in a circle. */
  ghost predicate NeedsCycle(wf: WorkflowDecl) {
    exists p :: NeedsWalk(wf, p)
  }

  predicate NeedsWalk(wf: WorkflowDecl, p: seq<string>) {
    |p| >= 2 && p[0] == p[|p| - 1] && forall i :: 0 < i < |p| ==> Needs(wf, p[i - 1], p[i])
  }

  /** Every need is among the dependencies that the check collects. */
  predicate SeesAll(wf: WorkflowDecl) {
    forall i: nat, v :: i < |Definitions(wf.body)| && v in Free(Definitions(wf.body)[i].1) ==>
      Edge(DependenciesOf(wf), Definitions(wf.body)[i].0, v)
  }

  // ----- The lets that the check walks over -----

  /** With their initialisers. */
  function LetValues(body: seq<Stmt>): seq<(string, Expr)>
    decreases body
  {
    if body == [] then [] else LetValuesOf(body[0]) + LetValues(body[1..])
  }

  function LetValuesOf(s: Stmt): seq<(string, Expr)>
    decreases s
  {
    if s.Let? then [(s.name, s.value)]
    else if s.Block? || s.ForCond? || s.ForIn? then LetValues(s.body)
    else if s.If? then LetValues(s.body) + (if s.els.Else? then LetValues(s.els.body) else [])
    else []
  }

  function Referenced(lets: seq<(string, Expr)>): seq<(string, seq<string>)> {
    seq(|lets|, i requires 0 <= i < |lets| => (lets[i].0, ReferencedIdents(lets[i].1)))
  }

  lemma ReferencedConcat(a: seq<(string, Expr)>, b: seq<(string, Expr)>)
    ensures Referenced(a + b) == Referenced(a) + Referenced(b)
  {
  }

  lemma {:induction false} LetsAreLetValues(body: seq<Stmt>)
    ensures Lets(body) == Referenced(LetValues(body))
    decreases body, 0
  {
    if body != [] {
      LetsOfAreLetValues(body[0]);
      LetsAreLetValues(body[1..]);
      ReferencedConcat(LetValuesOf(body[0]), LetValues(body[1..]));
    }
  }

  lemma {:induction false} LetsOfAreLetValues(s: Stmt)
    ensures LetsOf(s) == Referenced(LetValuesOf(s))
    decreases s, 0
  {
    if s.Block? || s.ForCond? || s.ForIn? {
      LetsAreLetValues(s.body);
    } else if s.If? {
      LetsAreLetValues(s.body);
      if s.els.Else? {
        LetsAreLetValues(s.els.body);
        ReferencedConcat(LetValues(s.body), LetValues(s.els.body));
      }
    }
  }

  /** They are definitions of the workflow. */
  lemma {:induction false} LetValuesAreDefinitions(body: seq<Stmt>, d: (string, Expr))
    requires d in LetValues(body)
    ensures d in Definitions(body)
    decreases body, 0
  {
    if d in LetValuesOf(body[0]) { LetValuesOfAreDefinitions(body[0], d); } else { LetValuesAreDefinitions(body[1..], d); }
  }

  lemma {:induction false} LetValuesOfAreDefinitions(s: Stmt, d: (string, Expr))
    requires d in LetValuesOf(s)
    ensures d in DefinitionsOf(s)
    decreases s, 0
  {
    if s.Block? || s.ForCond? || s.ForIn? {
      LetValuesAreDefinitions(s.body, d);
    } else if s.If? {
      if d in LetValues(s.body) { LetValuesAreDefinitions(s.body, d); } else { LetValuesAreDefinitions(s.els.body, d); }
    }
  }

  // ----- What the check reports is real -----

  /** A dependency is a need. */
  lemma DependencyIsNeed(wf: WorkflowDecl, u: string, v: string)
    requires Edge(DependenciesOf(wf), u, v)
    ensures Needs(wf, u, v)
  {
    var lets := LetValues(wf.body);
    LetsAreLetValues(wf.body);
    var i := EdgeOfLet(Referenced(lets), u, v);
    assert lets[i] in LetValues(wf.body);
    LetValuesAreDefinitions(wf.body, lets[i]);
    ReferencedAreEvaluated(lets[i].1, v);
    FreeAreEvaluated(lets[i].1, v);
    var j: nat :| j < |Definitions(wf.body)| && Definitions(wf.body)[j] == lets[i];
    assert NeedsAt(wf.body, j, u, v);
  }

  lemma {:induction false} EdgeOfLet(lets: seq<(string, seq<string>)>, u: string, v: string) returns (i: nat)
    requires Edge(GraphOf(lets), u, v)
    ensures i < |lets| && lets[i].0 == u && v in lets[i].1
  {
    var n := |lets| - 1;
    if lets[n].0 == u { i := n; } else { i := EdgeOfLet(lets[..n], u, v); }
  }

  /** Every cycle that is reported is a cycle of needs. If the check sees every need, it
      misses none. */
  lemma CheckAgainstNeeds(wf: WorkflowDecl)
    ensures HasCycle(DependenciesOf(wf)) ==> NeedsCycle(wf)
    ensures SeesAll(wf) ==> (HasCycle(DependenciesOf(wf)) <==> NeedsCycle(wf))
  {
    var g := DependenciesOf(wf);
    if p :| ClosedWalk(g, p) {
      forall i | 0 < i < |p| ensures Needs(wf, p[i - 1], p[i]) {
        DependencyIsNeed(wf, p[i - 1], p[i]);
      }
      assert NeedsWalk(wf, p);
    }
    if SeesAll(wf) && NeedsCycle(wf) {
      var p :| NeedsWalk(wf, p);
      assert ClosedWalk(g, p);
    }
  }

  // ----- When it sees every need -----

  /** The check finds every free identifier of an initialiser. */
  predicate FindsFree(e: Expr) {
    forall n :: n in Free(e) ==> n in ReferencedIdents(e)
  }

  /** Without function literals these are the evaluated ones, which decide its value. */
  lemma FindsFreeIsFindsAll(e: Expr)
    requires ClosureFree(e)
    ensures FindsFree(e) <==> FindsAll(e)
  {
    forall n ensures n in Free(e) <==> n in Evaluated(e) {
      FreeAreEvaluated(e, n);
    }
  }

  /** The check looks at every definition: it stands where the check walks, is the only one
      of its name, and all that is free in it is found. */
  predicate InFullView(wf: WorkflowDecl) {
    && Definitions(wf.body) == LetValues(wf.body)
    && (forall i, j :: 0 <= i < j < |LetValues(wf.body)| ==> LetValues(wf.body)[i].0 != LetValues(wf.body)[j].0)
    && (forall i :: 0 <= i < |LetValues(wf.body)| ==> FindsFree(LetValues(wf.body)[i].1))
  }

  /** Then no cycle of needs goes unreported. */
  lemma NoCycleMissed(wf: WorkflowDecl)
    requires InFullView(wf)
    ensures SeesAll(wf)
    ensures HasCycle(DependenciesOf(wf)) <==> NeedsCycle(wf)
  {
    var lets := LetValues(wf.body);
    LetsAreLetValues(wf.body);
    forall i: nat, v | i < |lets| && v in Free(lets[i].1) ensures Edge(DependenciesOf(wf), lets[i].0, v) {
      LastLetDecides(Referenced(lets), lets[i].0);
      assert Referenced(lets)[i] == (lets[i].0, ReferencedIdents(lets[i].1));
    }
    CheckAgainstNeeds(wf);
  }

  // ----- When it does not -----

  /** The workflow with more steps behind it. */
  function Extended(wf: WorkflowDecl, more: seq<Stmt>): WorkflowDecl {
    wf.(body := wf.body + more)
  }

  /** The needs make a cycle and nothing is reported. */
  ghost predicate MissesCycle(wf: WorkflowDecl) {
    var misses := NeedsCycle(wf) && !HasCycle(DependenciesOf(wf));
    misses
  }

  /** Any need that the check does not see can be completed to a cycle that it misses: with
      a step that needs the first one back, and with steps that hide every other. */
  lemma UnseenNeedMissesCycle(wf: WorkflowDecl, u: string, n: string)
    requires Needs(wf, u, n) && !Edge(DependenciesOf(wf), u, n) && !HasCycle(DependenciesOf(wf))
    ensures exists more :: MissesCycle(Extended(wf, more))
  {
    if u == n {
      assert NeedsWalk(wf, [u, u]);
      assert wf.body + [] == wf.body;
      assert MissesCycle(Extended(wf, []));
    } else {
      var g := DependenciesOf(wf);
      var hiding := Hide(wf, g.Keys - {u, n});
      var more := hiding + [Let(n, Ident(u))];
      AddStep(Extended(wf, hiding), n, Ident(u));
      assert wf.body + more == wf.body + hiding + [Let(n, Ident(u))];
      NeedKept(wf, more, u, n);
      assert NeedsWalk(Extended(wf, more), [u, n, u]);
      OneWayLeft(g, DependenciesOf(Extended(wf, more)), u, n);
      assert MissesCycle(Extended(wf, more));
    }
  }

  /** The graph once steps of these names depend on nothing. */
  function Hidden(g: Graph, names: set<string>): Graph {
    map k | k in g :: if k in names then [] else g[k]
  }

  lemma {:induction false} Hide(wf: WorkflowDecl, names: set<string>) returns (more: seq<Stmt>)
    requires names <= DependenciesOf(wf).Keys
    ensures DependenciesOf(Extended(wf, more)) == Hidden(DependenciesOf(wf), names)
  {
    if names == {} {
      more := [];
      assert wf.body + more == wf.body;
    } else {
      var k :| k in names;
      var before := Hide(wf, names - {k});
      more := before + [Let(k, NilLit)];
      AddStep(Extended(wf, before), k, NilLit);
      assert wf.body + more == wf.body + before + [Let(k, NilLit)];
    }
  }

  lemma AddStep(wf: WorkflowDecl, name: string, value: Expr)
    ensures DependenciesOf(Extended(wf, [Let(name, value)])) == DependenciesOf(wf)[name := ReferencedIdents(value)]
    ensures forall v :: v in Free(value) ==> Needs(Extended(wf, [Let(name, value)]), name, v)
  {
    var last: seq<Stmt> := [Let(name, value)];
    LetsConcat(wf.body, last);
    DefinitionsConcat(wf.body, last);
    assert last[1..] == [];
    assert Lets(last) == [(name, ReferencedIdents(value))] && Definitions(last) == [(name, value)];
    var lets := Lets(wf.body) + Lets(last);
    assert lets[..|lets| - 1] == Lets(wf.body);
    forall v | v in Free(value) ensures Needs(Extended(wf, last), name, v) {
      assert NeedsAt(wf.body + last, |Definitions(wf.body)|, name, v);
    }
  }

  lemma {:induction false} LetsConcat(a: seq<Stmt>, b: seq<Stmt>)
    ensures Lets(a + b) == Lets(a) + Lets(b)
  {
    if a == [] {
      assert a + b == b;
    } else {
      assert (a + b)[1..] == a[1..] + b;
      LetsConcat(a[1..], b);
    }
  }

  lemma {:induction false} DefinitionsConcat(a: seq<Stmt>, b: seq<Stmt>)
    ensures Definitions(a + b) == Definitions(a) + Definitions(b)
  {
    if a == [] {
      assert a + b == b;
    } else {
      assert (a + b)[1..] == a[1..] + b;
      DefinitionsConcat(a[1..], b);
    }
  }

  lemma NeedKept(wf: WorkflowDecl, more: seq<Stmt>, u: string, v: string)
    requires Needs(wf, u, v)
    ensures Needs(Extended(wf, more), u, v)
  {
    DefinitionsConcat(wf.body, more);
    var i: nat :| i < |Definitions(wf.body)| && NeedsAt(wf.body, i, u, v);
    assert NeedsAt(wf.body + more, i, u, v);
  }

  lemma OneWayLeft(g: Graph, h: Graph, u: string, n: string)
    requires u != n && !Edge(g, u, n) && !HasCycle(g) && h == Hidden(g, g.Keys - {u, n})[n := [u]]
    ensures !HasCycle(h)
  {
    forall p ensures !ClosedWalk(h, p) {
      NoWayRound(g, h, u, n, p);
    }
  }

  /** Nothing leads back to `u` or `n` from what `u` leads to. */
  lemma NoWayRound(g: Graph, h: Graph, u: string, n: string, p: seq<string>)
    requires u != n && !Edge(g, u, n) && !HasCycle(g)
    requires forall x, y :: Edge(h, x, y) ==> (x == u && Edge(g, u, y)) || (x == n && y == u)
    ensures !ClosedWalk(h, p)
  {
    assert Edge(g, u, u) ==> ClosedWalk(g, [u, u]);
    Hops(h, p);
    assert !(Hop(h, p, 0) && Hop(h, p, 1) && Hop(h, p, 2));
  }

  predicate Hop(g: Graph, p: seq<string>, i: nat) {
    i + 1 < |p| && Edge(g, p[i], p[i + 1])
  }

  lemma Hops(g: Graph, p: seq<string>)
    ensures Walk(g, p) <==> forall i: nat :: i + 1 < |p| ==> Hop(g, p, i)
  {
    if forall i: nat :: i + 1 < |p| ==> Hop(g, p, i) {
      forall i | 0 < i < |p| ensures Edge(g, p[i - 1], p[i]) {
        assert Hop(g, p, i - 1);
      }
    }
  }

  // Each of the three conditions matters, for every initialiser.

  /** A free name that is not found: a second step of that name is enough. */
  lemma UnfoundNameMissesCycle(name: string, u: string, e: Expr, n: string, line: int, col: int)
    requires n in Free(e) && n !in ReferencedIdents(e) && u !in ReferencedIdents(e) && u != n
    ensures MissesCycle(WorkflowDecl(name, [Let(u, e), Let(n, Ident(u))], line, col))
  {
    var none := WorkflowDecl(name, [], line, col);
    var first := Extended(none, [Let(u, e)]);
    var both := Extended(first, [Let(n, Ident(u))]);
    AddStep(none, u, e);
    AddStep(first, n, Ident(u));
    NeedKept(first, [Let(n, Ident(u))], u, n);
    assert both == WorkflowDecl(name, [Let(u, e), Let(n, Ident(u))], line, col);
    assert NeedsWalk(both, [u, n, u]);
    OnlyOneWay(DependenciesOf(both), u, n);
  }

  /** An initialiser is safe with every second step exactly when all that is free in it is
      found. */
  lemma SafeIff(name: string, u: string, e: Expr, line: int, col: int)
    requires u !in Free(e)
    ensures FindsFree(e) <==> forall n :: n != u ==> !MissesCycle(WorkflowDecl(name, [Let(u, e), Let(n, Ident(u))], line, col))
  {
    if FindsFree(e) {
      forall n | n != u ensures !MissesCycle(WorkflowDecl(name, [Let(u, e), Let(n, Ident(u))], line, col)) {
        var wf := WorkflowDecl(name, [Let(u, e), Let(n, Ident(u))], line, col);
        TwoSteps(u, e, n, Ident(u));
        NoCycleMissed(wf);
      }
    } else {
      var n :| n in Free(e) && n !in ReferencedIdents(e);
      if u in ReferencedIdents(e) {
        ReferencedAreEvaluated(e, u);
        FreeAreEvaluated(e, u);
      }
      UnfoundNameMissesCycle(name, u, e, n, line, col);
    }
  }

  lemma TwoSteps(u: string, e: Expr, n: string, f: Expr)
    ensures var body := [Let(u, e), Let(n, f)]; Definitions(body) == LetValues(body) == [(u, e), (n, f)]
  {
    var body, last: seq<Stmt> := [Let(u, e), Let(n, f)], [Let(n, f)];
    assert body[1..] == last && last[1..] == [];
    assert Definitions(last) == LetValues(last) == [(n, f)];
  }

  /** A definition that stands where the check does not walk. */
  lemma HiddenPlaceMissesCycle(name: string, s: Stmt, d: (string, Expr), n: string, line: int, col: int)
    requires d in DefinitionsOf(s) && LetsOf(s) == [] && n in Free(d.1) && d.0 != n
    ensures MissesCycle(WorkflowDecl(name, [s, Let(n, Ident(d.0))], line, col))
  {
    var u := d.0;
    var first := WorkflowDecl(name, [s], line, col);
    var both := Extended(first, [Let(n, Ident(u))]);
    OneStatement(s);
    var i: nat :| i < |DefinitionsOf(s)| && DefinitionsOf(s)[i] == d;
    assert NeedsAt([s], i, u, n);
    AddStep(first, n, Ident(u));
    NeedKept(first, [Let(n, Ident(u))], u, n);
    assert both == WorkflowDecl(name, [s, Let(n, Ident(u))], line, col);
    assert NeedsWalk(both, [u, n, u]);
    OnlyOneWay(DependenciesOf(both), u, n);
  }

  /** A step whose name a later step has. */
  lemma OverwrittenStepMissesCycle(name: string, u: string, e: Expr, later: Expr, n: string, line: int, col: int)
    requires n in Free(e) && u != n && n !in ReferencedIdents(later) && u !in ReferencedIdents(later)
    ensures MissesCycle(WorkflowDecl(name, [Let(u, e), Let(n, Ident(u)), Let(u, later)], line, col))
  {
    var none := WorkflowDecl(name, [], line, col);
    var first := Extended(none, [Let(u, e)]);
    var both := Extended(first, [Let(n, Ident(u))]);
    var all := Extended(both, [Let(u, later)]);
    AddStep(none, u, e);
    AddStep(first, n, Ident(u));
    AddStep(both, u, later);
    NeedKept(first, [Let(n, Ident(u))], u, n);
    NeedKept(both, [Let(u, later)], u, n);
    NeedKept(both, [Let(u, later)], n, u);
    assert all == WorkflowDecl(name, [Let(u, e), Let(n, Ident(u)), Let(u, later)], line, col);
    assert NeedsWalk(all, [u, n, u]);
    OnlyOneWay(DependenciesOf(all), u, n);
  }

  /** Where only `n` has dependencies in `u` or `n`, they lie on no cycle. */
  lemma OnlyOneWay(g: Graph, u: string, n: string)
    requires u != n && g.Keys <= {u, n} && n in g && g[n] == [u]
    requires !Edge(g, u, n) && !Edge(g, u, u)
    ensures !HasCycle(g)
  {
    forall p ensures !ClosedWalk(g, p) {
      Hops(g, p);
      assert !(Hop(g, p, 0) && Hop(g, p, 1) && Hop(g, p, 2));
    }
  }

  // Programs that a user may write.

  /** `let a = [b]` and `let b = [a]`. */
  lemma ArrayCycleMissed(name: string, a: string, b: string, line: int, col: int)
    requires a != b
    ensures MissesCycle(WorkflowDecl(name, [Let(a, ArrayLit([Ident(b)])), Let(b, Ident(a))], line, col))
  {
    FreeInOne(Ident(b));
    UnfoundNameMissesCycle(name, a, ArrayLit([Ident(b)]), b, line, col);
  }

  lemma FreeInOne(e: Expr)
    ensures FreeInAll([e]) == Free(e)
  {
    assert [e][1..] == [];
  }

  /** `let a = xs.map(x => b)` and `let b = a`. */
  lemma CallbackCycleMissed(name: string, a: string, b: string, xs: string, x: string, line: int, col: int)
    requires a != b && a != xs && b != xs && x != b
    ensures MissesCycle(WorkflowDecl(name, [Let(a, MapOver(xs, x, b)), Let(b, Ident(a))], line, col))
  {
    var e := MapOver(xs, x, b);
    assert Children(e)[1..] == [Arrow([x], Ident(b))];
    FreeInOne(Arrow([x], Ident(b)));
    ReferencedInMap(xs, x, b);
    UnfoundNameMissesCycle(name, a, e, b, line, col);
  }

  function MapOver(xs: string, x: string, b: string): Expr {
    Call(Member(Ident(xs), "map"), [], [Arrow([x], Ident(b))])
  }

  lemma ReferencedInMap(xs: string, x: string, b: string)
    ensures ReferencedIdents(MapOver(xs, x, b)) == [xs]
  {
    var args: seq<Expr> := [Arrow([x], Ident(b))];
    assert args[1..] == [];
    assert ReferencedInAll(args) == [];
    assert ReferencedIdents(Member(Ident(xs), "map")) == [xs];
  }

  /** Another value in variable `b`, and nothing else changed, makes a difference. */
  predicate ReadsVariable(w: World, e: Expr, b: string, env: Env, st: Store, v: Value) {
    b in env.vars && EvalExpr(w, 2, e, env, st).0 != EvalExpr(w, 2, e, env, Write(st, env.vars[b], v)).0
  }

  /** The callback does read `b`: with another value in that variable, and nothing else
      changed, `xs.map(x => b)` may evaluate to something else. */
  lemma CallbackReads(xs: string, x: string, b: string)
    requires xs != b && x != b
    ensures exists w, env, st, v :: ReadsVariable(w, MapOver(xs, x, b), b, env, st, v)
  {
    var env := Env(map[b := 0, xs := 1], {});
    var st := Store([IntV(1), NilV], [], []);
    CallbackAnswers(xs, x, b, 1);
    CallbackAnswers(xs, x, b, 2);
    assert Write(st, env.vars[b], IntV(2)) == Store([IntV(2), NilV], [], []);
    assert ReadsVariable(CallingWorld(), MapOver(xs, x, b), b, env, st, IntV(2));
  }

  /** A library that calls a function it is handed last, and answers what that does. */
  function CallingWorld(): World {
    World(NoFloats(),
          (op: PrimOp, vs: seq<Value>, st: Store) => (Val(NilV), st),
          (op: PrimOp, vs: seq<Value>, answers: seq<ExprOut>, st: Store) =>
            if answers != [] then Done(answers[0], st)
            else if vs != [] && vs[|vs| - 1].Closure? then CallBack(vs[|vs| - 1], [], st)
            else Done(Val(NilV), st),
          (v: Value, st: Store) => [])
  }

  lemma CallbackAnswers(xs: string, x: string, b: string, i: int64)
    requires xs != b && x != b
    ensures EvalExpr(CallingWorld(), 2, MapOver(xs, x, b), Env(map[b := 0, xs := 1], {}), Store([IntV(i), NilV], [], [])).0
      == Val(IntV(i))
  {
    var env, st := Env(map[b := 0, xs := 1], {}), Store([IntV(i), NilV], [], []);
    MappingIsNil(xs, env, st);
    MapCalls(xs, x, b, env, st);
    CallbackCalled(x, b, i, env, st);
  }

  lemma MapCalls(xs: string, x: string, b: string, env: Env, st: Store)
    requires EvalExpr(CallingWorld(), 2, Member(Ident(xs), "map"), env, st) == (Val(NilV), st)
    ensures EvalExpr(CallingWorld(), 2, MapOver(xs, x, b), env, st)
      == Library(CallingWorld(), 2, OpCall([]), [NilV, Closure([x], [Return(Some(Ident(b)))], env)], [], st)
  {
    var w, mapping, callback := CallingWorld(), Member(Ident(xs), "map"), Arrow([x], Ident(b));
    assert EvalExpr(w, 2, callback, env, st) == (Val(Closure([x], [Return(Some(Ident(b)))], env)), st);
    EvalCons(w, 2, callback, [], env, st);
    EvalCons(w, 2, mapping, [callback], env, st);
    StrictEval(w, 2, MapOver(xs, x, b), env, st);
  }

  lemma MappingIsNil(xs: string, env: Env, st: Store)
    requires xs in env.vars && Read(st, env.vars[xs]) == NilV
    ensures EvalExpr(CallingWorld(), 2, Member(Ident(xs), "map"), env, st) == (Val(NilV), st)
  {
    EvalCons(CallingWorld(), 2, Ident(xs), [], env, st);
    StrictEval(CallingWorld(), 2, Member(Ident(xs), "map"), env, st);
  }

  lemma CallbackCalled(x: string, b: string, i: int64, env: Env, st: Store)
    requires x != b && b in env.vars && env.vars[b] < |st.cells| && st.cells[env.vars[b]] == IntV(i)
    ensures Library(CallingWorld(), 2, OpCall([]), [NilV, Closure([x], [Return(Some(Ident(b)))], env)], [], st).0 == Val(IntV(i))
  {
    CallbackReturns(x, b, i, env, st);
  }

  lemma CallbackReturns(x: string, b: string, i: int64, env: Env, st: Store)
    requires x != b && b in env.vars && env.vars[b] < |st.cells| && st.cells[env.vars[b]] == IntV(i)
    ensures Apply(CallingWorld(), 2, Closure([x], [Return(Some(Ident(b)))], env), [], st).0 == Val(IntV(i))
  {
    var w, s := CallingWorld(), Return(Some(Ident(b)));
    var (env1, st1) := BindParams(env, st, [x], []);
    BindOne(env, st, x);
    assert EvalExpr(w, 1, Ident(b), env1, st1) == EvalLeaf(w, Ident(b), env1, st1) == (Val(IntV(i)), st1);
    assert Exec(w, 1, s, env1, st1) == (Abrupt(ReturnJ(IntV(i))), env1, st1);
    ExecSingle(w, 1, s, env1, st1);
  }

  lemma BindOne(env: Env, st: Store, x: string)
    ensures BindParams(env, st, [x], []) == Bind(env, st, x, NilV)
  {
    var (env1, st1) := Bind(env, st, x, NilV);
    assert [x][1..] == [];
    assert BindParams(env1, st1, [], []) == (env1, st1);
  }

  /** `try { let a = await b; let b = await a } catch e {}`. */
  lemma TryCycleMissed(name: string, a: string, b: string, e: string, line: int, col: int)
    ensures MissesCycle(WorkflowDecl(name, [TryCatch([Let(a, Await(Ident(b))), Let(b, Await(Ident(a)))], e, [])], line, col))
  {
    var first, second := Let(a, Await(Ident(b))), Let(b, Await(Ident(a)));
    var s := TryCatch([first, second], e, []);
    var wf := WorkflowDecl(name, [s], line, col);
    OneStatement(s);
    OneStatement(second);
    assert [first, second][1..] == [second];
    assert Definitions([first, second]) == DefinitionsOf(first) + Definitions([second]);
    assert DefinitionsOf(s) == Definitions([first, second]) + [];
    assert Definitions(wf.body) == [(a, Await(Ident(b))), (b, Await(Ident(a)))];
    FreeInOne(Ident(a));
    FreeInOne(Ident(b));
    assert NeedsAt(wf.body, 0, a, b) && NeedsAt(wf.body, 1, b, a);
    assert NeedsWalk(wf, [a, b, a]);
    forall p ensures !ClosedWalk(DependenciesOf(wf), p) {
      Hops(DependenciesOf(wf), p);
      assert !Hop(DependenciesOf(wf), p, 0);
    }
  }

  lemma OneStatement(s: Stmt)
    ensures Definitions([s]) == DefinitionsOf(s) && Lets([s]) == LetsOf(s)
  {
    assert [s][1..] == [];
  }

  /** `let a = f(b)`, `let b = g(a)` and `let a = 1`. */
  lemma OverwrittenCycleMissed(name: string, a: string, b: string, f: string, line: int, col: int)
    requires a != b
    ensures MissesCycle(WorkflowDecl(name, [Let(a, Call(Ident(f), [], [Ident(b)])), Let(b, Ident(a)), Let(a, IntLit(1))], line, col))
  {
    var e := Call(Ident(f), [], [Ident(b)]);
    assert Children(e)[1..] == [Ident(b)];
    FreeInOne(Ident(b));
    OverwrittenStepMissesCycle(name, a, e, IntLit(1), b, line, col);
  }
}
