// The workflow check as a whole, against the needs of the steps.
module WorkflowCheck {
  import opened Ast
  import opened Graphs
  import opened GoStrings
  import opened Workflow
  import opened WorkflowNeeds

  datatype Diagnostic = Diagnostic(line: int, col: int, severity: string, message: string)

  // ----- Workflows in which every need is seen -----

  /** Names, literals, operators, calls, indexing, fields and `await`. */
  predicate Plain(e: Expr)
    decreases e
  {
    match e
    case Infix(left, _, right) => Plain(left) && Plain(right)
    case Prefix(_, right) => Plain(right)
    case Call(fn, _, args) => Plain(fn) && AllPlain(args)
    case Index(left, index) => Plain(left) && Plain(index)
    case Member(obj, _) => Plain(obj)
    case Await(value) => Plain(value)
    case _ =>
      e.Ident? || e.IntLit? || e.FloatLit? || e.StrLit? || e.BoolLit? || e.NilLit? || e.DurationLit? || e.SelfExpr?
  }

  predicate AllPlain(es: seq<Expr>)
    decreases es
  {
    es == [] || (Plain(es[0]) && AllPlain(es[1..]))
  }

  /** Steps with plain initialisers in blocks, branches and loops, and statements that
      define nothing. */
  predicate PlainBody(body: seq<Stmt>)
    decreases body
  {
    body == [] || (PlainStmt(body[0]) && PlainBody(body[1..]))
  }

  predicate PlainStmt(s: Stmt)
    decreases s
  {
    if s.Let? then Plain(s.value)
    else if s.Block? || s.ForCond? || s.ForIn? then PlainBody(s.body)
    else if s.If? then PlainBody(s.body) && (s.els.Else? ==> PlainBody(s.els.body))
    else DefinitionsOf(s) == []
  }

  /** ... each step with a name of its own. */
  predicate PlainWorkflow(wf: WorkflowDecl) {
    var steps := Definitions(wf.body);
    PlainBody(wf.body) && forall i, j :: 0 <= i < j < |steps| ==> steps[i].0 != steps[j].0
  }

  /** Exactly the free identifiers of a plain expression are found. */
  lemma {:induction false} FindsPlain(e: Expr, name: string)
    requires Plain(e)
    ensures name in Free(e) <==> name in ReferencedIdents(e)
    decreases e, 0
  {
    match e
    case Infix(left, _, right) => FindsPlain(left, name); FindsPlain(right, name);
    case Prefix(_, right) => FindsPlain(right, name);
    case Call(fn, _, args) =>
      FindsPlain(fn, name);
      FindsAllPlain(args, name);
      assert ([fn] + args)[1..] == args;
    case Index(left, index) =>
      FindsPlain(left, name); FindsPlain(index, name);
      FreeInTwo(left, index);
    case Member(obj, _) => FindsPlain(obj, name); FreeInOne(obj);
    case Await(value) => FindsPlain(value, name); FreeInOne(value);
    case _ =>
  }

  lemma {:induction false} FindsAllPlain(es: seq<Expr>, name: string)
    requires AllPlain(es)
    ensures name in FreeInAll(es) <==> name in ReferencedInAll(es)
    decreases es, 0
  {
    if es != [] {
      FindsPlain(es[0], name);
      FindsAllPlain(es[1..], name);
    }
  }

  lemma FreeInOne(e: Expr)
    ensures FreeInAll([e]) == Free(e)
  {
    assert [e][1..] == [];
  }

  lemma FreeInTwo(a: Expr, b: Expr)
    ensures FreeInAll([a, b]) == Free(a) + Free(b)
  {
    assert [a, b][1..] == [b];
    FreeInOne(b);
  }

  /** The check walks over every definition of a plain body. */
  lemma {:induction false} WalksPlain(body: seq<Stmt>)
    requires PlainBody(body)
    ensures Definitions(body) == LetValues(body) && forall i :: 0 <= i < |LetValues(body)| ==> Plain(LetValues(body)[i].1)
    decreases body, 0
  {
    if body != [] {
      WalksPlainStmt(body[0]);
      WalksPlain(body[1..]);
    }
  }

  lemma {:induction false} WalksPlainStmt(s: Stmt)
    requires PlainStmt(s)
    ensures DefinitionsOf(s) == LetValuesOf(s)
    ensures forall i :: 0 <= i < |LetValuesOf(s)| ==> Plain(LetValuesOf(s)[i].1)
    decreases s, 0
  {
    if s.Block? || s.ForCond? || s.ForIn? {
      WalksPlain(s.body);
    } else if s.If? {
      WalksPlain(s.body);
      if s.els.Else? { WalksPlain(s.els.body); }
    }
  }

  /** So it finds exactly the cycles of needs. */
  lemma PlainIsInFullView(wf: WorkflowDecl)
    requires PlainWorkflow(wf)
    ensures InFullView(wf)
    ensures HasCycle(DependenciesOf(wf)) <==> NeedsCycle(wf)
  {
    WalksPlain(wf.body);
    var lets := LetValues(wf.body);
    forall i | 0 <= i < |lets| ensures FindsFree(lets[i].1) {
      forall n | n in Free(lets[i].1) ensures n in ReferencedIdents(lets[i].1) { FindsPlain(lets[i].1, n); }
    }
    NoCycleMissed(wf);
  }

  // ----- The check -----

  /** Reports a cyclic dependency exactly when there is one, whichever order the map is
      walked in; without a report the steps can be scheduled. What is reported is a
      circle of steps that need each other, and in a plain workflow every such circle
      leads to a report. */
  method AnalyzeWorkflowDAG(wf: WorkflowDecl) returns (diags: seq<Diagnostic>)
    ensures diags != [] <==> HasCycle(DependenciesOf(wf))
    ensures diags == [] <==> HasSchedule(DependenciesOf(wf))
    ensures diags != [] ==> exists cycle ::
      && ClosedWalk(DependenciesOf(wf), cycle) && NeedsWalk(wf, cycle)
      && diags == [Diagnostic(wf.line, wf.col, "error",
                              "Workflow '" + wf.name + "' contains cyclic step dependency: " + Join(cycle, " -> "))]
    ensures PlainWorkflow(wf) ==> (diags != [] <==> NeedsCycle(wf))
  {
    SchedulableIsAcyclic(DependenciesOf(wf));
    if PlainWorkflow(wf) { PlainIsInFullView(wf); }
    var analyzer := new Analyzer();
    analyzer.AddLets(wf.body, []);
    assert [] + Lets(wf.body) == Lets(wf.body);
    var cycle := analyzer.FindCycle();
    if cycle != [] {
      CycleIsNeeds(wf, cycle);
      return [CycleError(wf, cycle)];
    }
    return [];
  }

  lemma CycleIsNeeds(wf: WorkflowDecl, cycle: seq<string>)
    requires ClosedWalk(DependenciesOf(wf), cycle)
    ensures NeedsWalk(wf, cycle)
  {
    forall i | 0 < i < |cycle| ensures Needs(wf, cycle[i - 1], cycle[i]) {
      DependencyIsNeed(wf, cycle[i - 1], cycle[i]);
    }
  }

  function CycleError(wf: WorkflowDecl, cycle: seq<string>): Diagnostic {
    Diagnostic(wf.line, wf.col, "error",
               "Workflow '" + wf.name + "' contains cyclic step dependency: " + Join(cycle, " -> "))
  }
}
