// Pipes and assignments around runs of operators.
module Pipes {
  import opened Options
  import opened Syntax
  import opened Parsing
  import opened RoundTrip
  import opened Terms
  import opened Precedence

  /** Tokens that end a chain of pipes. */
  predicate EndsChain(ts: seq<Token>) {
    var t := At(ts, 0);
    Ends(ts) || t.ASSIGN? || t.COMPOUND_ASSIGN? || t.ARROW?
  }

  /** `|> run` for each run, in front of `ts`. */
  function Stages(runs: seq<Run>, ts: seq<Token>): seq<Token> {
    if runs == [] then ts else [PIPE_ARROW] + runs[0].Before(Stages(runs[1..], ts))
  }

  predicate Groupings(runs: seq<Run>, trees: seq<Node>) {
    |trees| == |runs| && forall i :: 0 <= i < |runs| ==> runs[i].Valid() && Grouping(runs[i], trees[i])
  }

  /** A stage is called with what comes before it as its first argument. */
  function Piped1(left: Node, f: Node): Node {
    if f.Call? then Call(f.fn, f.typeArgs, [left] + f.args) else Call(f, [], [left])
  }

  function Piped(left: Node, stages: seq<Node>): Node
    decreases |stages|
  {
    if stages == [] then left else Piped(Piped1(left, stages[0]), stages[1..])
  }

  lemma GroupingIsThere(r: Run, tree: Node)
    requires r.Valid() && Grouping(r, tree)
    ensures tree != Missing
  {
    assert !tree.Infix? ==> tree == Tree(r.first);
  }

  lemma StagesEndRun(runs: seq<Run>, ts: seq<Token>)
    requires EndsChain(ts)
    ensures EndsRun(Stages(runs, ts))
  {}

  /** The loop, in front of a chain of pipes. */
  lemma {:induction false} LoopPipes(left: Node, t: Token, runs: seq<Run>, trees: seq<Node>, ts: seq<Token>, errs: seq<Error>)
    returns (t': Token)
    requires Groupings(runs, trees) && EndsChain(ts)
    ensures Loop(left, State([t] + Stages(runs, ts), errs), LOWEST) == Loop(Piped(left, trees), State([t'] + ts, errs), LOWEST)
    decreases |runs|
  {
    if runs == [] {
      t' := t;
    } else {
      var rest := Stages(runs[1..], ts);
      StagesEndRun(runs[1..], ts);
      var t1 := StageStep(left, t, runs[0], trees[0], rest, errs);
      t' := LoopPipes(Piped1(left, trees[0]), t1, runs[1..], trees[1..], ts, errs);
    }
  }

  lemma StageStep(left: Node, t: Token, r: Run, f: Node, rest: seq<Token>, errs: seq<Error>) returns (t': Token)
    requires r.Valid() && Grouping(r, f) && EndsRun(rest)
    ensures Loop(left, State([t] + ([PIPE_ARROW] + r.Before(rest)), errs), LOWEST)
         == Loop(Piped1(left, f), State([t'] + rest, errs), LOWEST)
  {
    var found;
    found, t' := RunGroups(r, rest, errs, PIPE_P);
    ShapedIsUnique(found, f);
    GroupingIsThere(r, f);
    EndsIff(rest);
    LoopStops(f, t', rest, errs, PIPE_P);
    LoopInfix(left, t, [PIPE_ARROW] + r.Before(rest), errs, LOWEST);
    Step(PIPE_ARROW, r.Before(rest), errs);
  }

  /** Pipes bind looser than every operator and group to the left. */
  lemma PipesGroupLeft(first: Run, tree: Node, runs: seq<Run>, trees: seq<Node>, ts: seq<Token>, errs: seq<Error>)
    requires first.Valid() && Grouping(first, tree) && Groupings(runs, trees) && Ends(ts)
    ensures var parsed := Expression(State(first.Before(Stages(runs, ts)), errs), LOWEST);
            parsed.0 == Piped(tree, trees) && parsed.1.toks != [] && parsed.1.toks[1..] == ts && parsed.1.errs == errs
  {
    StagesEndRun(runs, ts);
    var found, t := RunGroups(first, Stages(runs, ts), errs, LOWEST);
    ShapedIsUnique(found, tree);
    t := LoopPipes(tree, t, runs, trees, ts, errs);
    EndsIff(ts);
    LoopStops(Piped(tree, trees), t, ts, errs, LOWEST);
  }

  /** Where the loop has stopped, it stops again. */
  lemma {:induction false} LoopEnds(left: Node, n: Node, s: State, prec: int)
    ensures var s1 := Loop(left, s, prec).1; Loop(n, s1, prec) == (n, s1)
    decreases |s.toks|
  {
    if s.Peek() != EOF && prec < PeekPrecedence(s) {
      var (left1, s1) := InfixForm(left, s.Next());
      LoopEnds(left1, n, s1, prec);
    }
  }

  /** What an assignment, a compound assignment or an arrow makes of its two sides. */
  function Assigned(target: Node, t: Token, value: Node): Option<Node> {
    match t
    case ASSIGN =>
      if target.Name? || target.Index? || (target.Member? && !target.optional) then Some(Assign(target, None, value)) else None
    case COMPOUND_ASSIGN(op) => if target.Name? then Some(Assign(target, Some(op), value)) else None
    case ARROW => Some(Arrow(if target.Name? then [target.id] else [], value))
    case _ => None
  }

  lemma AssignStep(target: Node, t: Token, rhs: seq<Token>, errs: seq<Error>)
    requires t == ASSIGN || t.COMPOUND_ASSIGN? || t == ARROW
    ensures var (value, s1) := Expression(State(rhs, errs), LOWEST);
            InfixForm(target, State([t] + rhs, errs)) ==
            match Assigned(target, t, value)
            case Some(n) => (n, s1)
            case None => (Missing, State([t] + rhs, errs + [BadTarget]))
  {
    Step(t, rhs, errs);
  }

  /** They bind looser than anything: the left side is the whole run before them, the
      value whatever expression comes behind, further assignments included. A left
      side that cannot be assigned is an error, and nothing behind it is read. */
  lemma AssignmentTakesAll(first: Run, target: Node, t: Token, rhs: seq<Token>, errs: seq<Error>)
    requires first.Valid() && Grouping(first, target)
    requires t == ASSIGN || t.COMPOUND_ASSIGN? || t == ARROW
    requires Expression(State(rhs, errs), LOWEST).0 != Missing
    ensures var (value, s1) := Expression(State(rhs, errs), LOWEST);
            Expression(State(first.Before([t] + rhs), errs), LOWEST) ==
            match Assigned(target, t, value)
            case Some(n) => (n, s1)
            case None => Loop(Missing, State([t] + rhs, errs + [BadTarget]), LOWEST)
  {
    var (value, s1) := Expression(State(rhs, errs), LOWEST);
    var found, last := RunGroups(first, [t] + rhs, errs, LOWEST);
    ShapedIsUnique(found, target);
    LoopInfix(target, last, [t] + rhs, errs, LOWEST);
    AssignStep(target, t, rhs, errs);
    var n := Assigned(target, t, value);
    if n.Some? { ExpressionEnds(rhs, n.value, errs); }
  }

  lemma ExpressionEnds(rhs: seq<Token>, n: Node, errs: seq<Error>)
    requires Expression(State(rhs, errs), LOWEST).0 != Missing
    ensures var s1 := Expression(State(rhs, errs), LOWEST).1; Loop(n, s1, LOWEST) == (n, s1)
  {
    var (ok, left, s1) := Prefix(State(rhs, errs));
    LoopEnds(left, n, s1, LOWEST);
  }

  /** `target = a op b |> f ...`: operators first, then the pipes, then the assignment. */
  lemma AssignsPiped(first: Run, target: Node, value: Run, tree: Node, runs: seq<Run>, trees: seq<Node>, ts: seq<Token>, errs: seq<Error>)
    requires first.Valid() && Grouping(first, target) && Assigned(target, ASSIGN, tree).Some?
    requires value.Valid() && Grouping(value, tree) && Groupings(runs, trees) && Ends(ts)
    ensures var parsed := Expression(State(first.Before([ASSIGN] + value.Before(Stages(runs, ts))), errs), LOWEST);
            parsed.0 == Assign(target, None, Piped(tree, trees)) && parsed.1.toks != [] && parsed.1.toks[1..] == ts && parsed.1.errs == errs
  {
    PipesGroupLeft(value, tree, runs, trees, ts, errs);
    GroupingIsThere(value, tree);
    PipedIsThere(tree, trees);
    AssignmentTakesAll(first, target, ASSIGN, value.Before(Stages(runs, ts)), errs);
  }

  lemma {:induction false} PipedIsThere(left: Node, stages: seq<Node>)
    requires left != Missing
    ensures Piped(left, stages) != Missing
    decreases |stages|
  {
    if stages != [] {
      PipedIsThere(Piped1(left, stages[0]), stages[1..]);
    }
  }
}
