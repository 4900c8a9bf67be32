// The flow analysis (compiler/analyze_flow.go), proved sound for the semantics,
// and its agreement with the place where the optimizer truncates a block.
module Flow {
  import opened Ast
  import opened Semantics
  import opened Optimizer
  import OptimizerSimulation

  // ---- blockHasReturn ----

  predicate HasReturn(ss: seq<Stmt>) {
    exists i :: 0 <= i < |ss| && ss[i].Return?
  }

  /** What blockHasReturn answers: look at the last statement; only when it is not an
      `if` or a `match` does an earlier return count. */
  predicate Returns(ss: seq<Stmt>)
    decreases SizeStmts(ss), 1
  {
    ss != [] && (
      var last := ss[|ss| - 1];
      SizeStmtAt(ss, |ss| - 1);
      match last
      case Return(_) => true
      case If(_, body, els) => els.Else? && Returns(body) && Returns(els.body)
      case Match(_, cases) => AllReturn(cases) && exists i :: 0 <= i < |cases| && cases[i].value.None?
      case _ => HasReturn(ss)
    )
  }

  predicate AllReturn(cases: seq<Case>)
    decreases SizeCases(cases), 0
  {
    cases == [] || (Returns(cases[0].body) && AllReturn(cases[1..]))
  }

  /** A way through a block that falls off its end, as far as the last statements tell: at
      an `if` with two branches or a `match` it chooses one, by number. */
  predicate FallsOff(ss: seq<Stmt>, choices: seq<nat>)
    decreases |choices|
  {
    var falls :=
      if ss == [] then choices == []
      else
        var last := ss[|ss| - 1];
        if last.If? && last.els.Else? then
          choices != [] && choices[0] < 2 && FallsOff(if choices[0] == 0 then last.body else last.els.body, choices[1..])
        else if last.Match? && choices != [] then
          choices[0] < |last.cases| && FallsOff(last.cases[choices[0]].body, choices[1..])
        else
          choices == []
          && (last.If? || (last.Match? && forall i :: 0 <= i < |last.cases| ==> last.cases[i].value.Some?)
              || (!last.Match? && forall i :: 0 <= i < |ss| ==> !ss[i].Return?));
    falls
  }

  /** blockHasReturn accepts a block exactly when there is no such way. */
  lemma ReturnsIff(ss: seq<Stmt>)
    ensures Returns(ss) <==> !exists choices: seq<nat> :: FallsOff(ss, choices)
  {
    if Returns(ss) {
      forall choices: seq<nat> ensures !FallsOff(ss, choices) { NoWayOff(ss, choices); }
    } else {
      var choices := WayOff(ss);
      assert FallsOff(ss, choices);
    }
  }

  lemma {:induction false} NoWayOff(ss: seq<Stmt>, choices: seq<nat>)
    requires Returns(ss)
    ensures !FallsOff(ss, choices)
    decreases |choices|
  {
    var last := ss[|ss| - 1];
    if choices != [] && last.If? {
      NoWayOff(if choices[0] == 0 then last.body else last.els.body, choices[1..]);
    } else if choices != [] && last.Match? && choices[0] < |last.cases| {
      AllReturnAt(last.cases, choices[0]);
      NoWayOff(last.cases[choices[0]].body, choices[1..]);
    }
  }

  lemma {:induction false} AllReturnAt(cases: seq<Case>, i: nat)
    requires AllReturn(cases) && i < |cases|
    ensures Returns(cases[i].body)
  {
    if i > 0 { AllReturnAt(cases[1..], i - 1); }
  }

  lemma {:induction false} WayOff(ss: seq<Stmt>) returns (choices: seq<nat>)
    requires !Returns(ss)
    ensures FallsOff(ss, choices)
    decreases SizeStmts(ss), 1
  {
    choices := [];
    if ss != [] {
      var last := ss[|ss| - 1];
      SizeStmtAt(ss, |ss| - 1);
      if last.If? && last.els.Else? {
        var i := if Returns(last.body) then 1 else 0;
        choices := WayOff(if i == 0 then last.body else last.els.body);
        choices := FallsOn(ss, i, choices);
      } else if last.Match? && !AllReturn(last.cases) {
        var i;
        i, choices := CaseOff(last.cases);
        choices := FallsOn(ss, i, choices);
      }
    }
  }

  lemma FallsOn(ss: seq<Stmt>, i: nat, choices: seq<nat>) returns (more: seq<nat>)
    requires ss != []
    requires var last := ss[|ss| - 1];
      || (last.If? && last.els.Else? && i < 2 && FallsOff(if i == 0 then last.body else last.els.body, choices))
      || (last.Match? && i < |last.cases| && FallsOff(last.cases[i].body, choices))
    ensures FallsOff(ss, more)
  {
    more := [i] + choices;
    assert more[1..] == choices;
  }

  lemma {:induction false} CaseOff(cases: seq<Case>) returns (i: nat, choices: seq<nat>)
    requires !AllReturn(cases)
    ensures i < |cases| && FallsOff(cases[i].body, choices)
    decreases SizeCases(cases), 0
  {
    if Returns(cases[0].body) {
      i, choices := CaseOff(cases[1..]);
      i := i + 1;
    } else {
      i := 0;
      choices := WayOff(cases[0].body);
    }
  }

  method BlockHasReturn(ss: seq<Stmt>) returns (r: bool)
    ensures r == Returns(ss)
    decreases SizeStmts(ss), 1
  {
    if ss == [] {
      return false;
    }
    var last := ss[|ss| - 1];
    SizeStmtAt(ss, |ss| - 1);
    if last.Return? {
      return true;
    }
    if last.If? {
      if last.els.NoElse? {
        return false;
      }
      var a := BlockHasReturn(last.body);
      if !a {
        return false;
      }
      r := BlockHasReturn(last.els.body);
      return;
    }
    if last.Match? {
      var hasDefault := false;
      for i := 0 to |last.cases|
        invariant hasDefault <==> exists j :: 0 <= j < i && last.cases[j].value.None?
        invariant AllReturn(last.cases) == AllReturn(last.cases[i..])
      {
        assert last.cases[i..][0] == last.cases[i] && last.cases[i..][1..] == last.cases[i + 1..];
        SizeCaseAt(last.cases, i);
        if last.cases[i].value.None? {
          hasDefault := true;
        }
        var c := BlockHasReturn(last.cases[i].body);
        if !c {
          return false;
        }
      }
      return hasDefault;
    }
    for i := 0 to |ss|
      invariant forall j :: 0 <= j < i ==> !ss[j].Return?
    {
      if ss[i].Return? {
        return true;
      }
    }
    return false;
  }

  lemma {:induction false} SizeCaseAt(cs: seq<Case>, i: nat)
    requires i < |cs|
    ensures SizeStmts(cs[i].body) < SizeCases(cs)
  {
    if i > 0 { SizeCaseAt(cs[1..], i - 1); }
  }

  /** A block that cannot end normally once it gets to statement `i`. */
  lemma {:induction false} StopsAt(w: World, fuel: nat, ss: seq<Stmt>, i: nat, env: Env, st: Store)
    requires i < |ss|
    requires forall e, s :: Exec(w, fuel, ss[i], e, s).0.Abrupt?
    ensures ExecSeq(w, fuel, ss, env, st).0.Abrupt?
    decreases |ss|
  {
    var (o, env1, st1) := Exec(w, fuel, ss[0], env, st);
    assert ss == [ss[0]] + ss[1..];
    OptimizerSimulation.ExecCons(w, fuel, ss[0], ss[1..], env, st);
    if i > 0 && o.Normal? {
      StopsAt(w, fuel, ss[1..], i - 1, env1, st1);
    }
  }

  /** A block that blockHasReturn accepts never completes normally. */
  lemma {:induction false} ReturnsIsSound(w: World, fuel: nat, ss: seq<Stmt>, env: Env, st: Store)
    requires Returns(ss)
    ensures ExecSeq(w, fuel, ss, env, st).0.Abrupt?
    decreases SizeStmts(ss), 1
  {
    var n := |ss| - 1;
    var last := ss[n];
    SizeStmtAt(ss, n);
    if last.If? {
      forall e, s ensures Exec(w, fuel, last, e, s).0.Abrupt? {
        var (r, s1) := EvalExpr(w, fuel, last.cond, e, s);
        if r.Val? {
          ReturnsIsSound(w, fuel, last.body, e, s1);
          ReturnsIsSound(w, fuel, last.els.body, e, s1);
        }
      }
      StopsAt(w, fuel, ss, n, env, st);
    } else if last.Match? {
      forall e, s ensures Exec(w, fuel, last, e, s).0.Abrupt? {
        var (r, s1) := EvalExpr(w, fuel, last.value, e, s);
        if r.Val? { CasesAbrupt(w, fuel, r.v, last.cases, NoElse, e, s1); }
      }
      StopsAt(w, fuel, ss, n, env, st);
    } else {
      var i :| 0 <= i < |ss| && ss[i].Return?;
      StopsAt(w, fuel, ss, i, env, st);
    }
  }

  lemma {:induction false} CasesAbrupt(w: World, fuel: nat, v: Value, cases: seq<Case>, dflt: Else, env: Env, st: Store)
    requires AllReturn(cases) && (dflt.Else? ==> Returns(dflt.body))
    requires dflt.Else? || exists i :: 0 <= i < |cases| && cases[i].value.None?
    ensures ExecCases(w, fuel, v, cases, dflt, env, st).0.Abrupt?
    decreases SizeCases(cases) + (if dflt.Else? then SizeStmts(dflt.body) else 0), 2
  {
    if cases == [] {
      ReturnsIsSound(w, fuel, dflt.body, env, st);
      OptimizerSimulation.DefaultCase(w, fuel, v, dflt, env, st);
    } else if cases[0].value.None? {
      CasesAbrupt(w, fuel, v, cases[1..], Else(cases[0].body), env, st);
    } else {
      if dflt.NoElse? {
        var i :| 0 <= i < |cases| && cases[i].value.None?;
        assert cases[1..][i - 1] == cases[i];
      }
      var (r, s1) := EvalExpr(w, fuel, cases[0].value.value, env, st);
      if r.Val? {
        var (q, s2) := BinOp(w, Eq, v, r.v, s1);
        if q.Val? {
          ReturnsIsSound(w, fuel, cases[0].body, env, s2);
          CasesAbrupt(w, fuel, v, cases[1..], dflt, env, s2);
        }
      }
    }
  }

  // ---- analyzeUnreachableCode ----

  datatype Token = Token(line: int, col: int)

  /** Position of the first direct terminator, or the length when there is none. */
  function Cut(ss: seq<Stmt>): (k: nat)
    ensures k <= |ss| && (k < |ss| ==> IsTerminator(ss[k]))
    ensures forall i :: 0 <= i < k ==> !IsTerminator(ss[i])
  {
    if ss == [] then 0 else if IsTerminator(ss[0]) then 0 else 1 + Cut(ss[1..])
  }

  /** The one statement reported for a block: the one right after its cut. */
  function Report(tok: Stmt -> Token, ss: seq<Stmt>): seq<Token> {
    var k := Cut(ss);
    if k + 1 < |ss| && tok(ss[k + 1]).line > 0 then [tok(ss[k + 1])] else []
  }

  /** The blocks the analysis enters, innermost first: never one past a cut. */
  function Entered(ss: seq<Stmt>): seq<seq<Stmt>>
    decreases SizeStmts(ss), 2
  {
    Inside(ss) + [ss]
  }

  function Inside(ss: seq<Stmt>): seq<seq<Stmt>>
    decreases SizeStmts(ss), 1
  {
    if ss == [] || IsTerminator(ss[0]) then []
    else EnteredBy(ss[0]) + Inside(ss[1..])
  }

  function EnteredBy(s: Stmt): seq<seq<Stmt>>
    decreases SizeStmt(s), 0
  {
    match s
    case If(_, body, els) => Entered(body) + if els.Else? then Entered(els.body) else []
    case ForCond(_, body) => Entered(body)
    case ForIn(_, _, _, body) => Entered(body)
    case TryCatch(t, _, c) => Entered(t) + Entered(c)
    case Match(_, cases) => EnteredCases(cases)
    case _ => []
  }

  function EnteredCases(cases: seq<Case>): seq<seq<Stmt>>
    decreases SizeCases(cases), 0
  {
    if cases == [] then [] else Entered(cases[0].body) + EnteredCases(cases[1..])
  }

  /** The blocks directly inside a statement that the analysis may enter. */
  function Branches(s: Stmt): seq<seq<Stmt>> {
    match s
    case If(_, body, els) => if els.Else? then [body, els.body] else [body]
    case ForCond(_, body) => [body]
    case ForIn(_, _, _, body) => [body]
    case TryCatch(t, _, c) => [t, c]
    case Match(_, cases) => Bodies(cases)
    case _ => []
  }

  function Bodies(cases: seq<Case>): (r: seq<seq<Stmt>>)
    ensures |r| == |cases| && forall i :: 0 <= i < |cases| ==> r[i] == cases[i].body
  {
    if cases == [] then [] else [cases[0].body] + Bodies(cases[1..])
  }

  /** `path` goes from `ss` to `b` by statements and their branches, none of them behind a
      return, break or continue of its block. */
  predicate Leads(ss: seq<Stmt>, path: seq<(nat, nat)>, b: seq<Stmt>)
    decreases |path|
  {
    if path == [] then b == ss
    else
      var (i, c) := path[0];
      i < |ss| && c < |Branches(ss[i])| && Leads(Branches(ss[i])[c], path[1..], b)
      && forall j :: 0 <= j < i ==> !ss[j].Return? && !ss[j].Break? && !ss[j].Continue?
  }

  /** Exactly such blocks are entered. */
  lemma {:induction false} EnteredIff(ss: seq<Stmt>, b: seq<Stmt>)
    ensures b in Entered(ss) <==> exists path :: Leads(ss, path, b)
    decreases SizeStmts(ss), 2
  {
    InsideIff(ss, b);
    assert Leads(ss, [], b) <==> b == ss;
    if b in Inside(ss) {
      var i: nat, c: nat, rest :| Enters(ss, i, c, rest, b);
      assert ([(i, c)] + rest)[1..] == rest;
      assert Leads(ss, [(i, c)] + rest, b);
    }
    forall path: seq<(nat, nat)> | Leads(ss, path, b) && path != [] ensures b in Inside(ss) {
      assert Enters(ss, path[0].0, path[0].1, path[1..], b);
    }
  }

  predicate Enters(ss: seq<Stmt>, i: nat, c: nat, rest: seq<(nat, nat)>, b: seq<Stmt>) {
    i < |ss| && c < |Branches(ss[i])| && Leads(Branches(ss[i])[c], rest, b)
    && forall j :: 0 <= j < i ==> !ss[j].Return? && !ss[j].Break? && !ss[j].Continue?
  }

  lemma {:induction false} InsideIff(ss: seq<Stmt>, b: seq<Stmt>)
    ensures b in Inside(ss) <==> exists i: nat, c: nat, rest :: Enters(ss, i, c, rest, b)
    decreases SizeStmts(ss), 1
  {
    if ss != [] {
      EnteredByIff(ss[0], b);
      InsideIff(ss[1..], b);
      assert IsTerminator(ss[0]) ==> Branches(ss[0]) == [];
      forall c: nat, rest | Enters(ss, 0, c, rest, b) ensures b in Inside(ss) {
        assert Leads(Branches(ss[0])[c], rest, b);
      }
      if c: nat, rest :| c < |Branches(ss[0])| && Leads(Branches(ss[0])[c], rest, b) { assert Enters(ss, 0, c, rest, b); }
      forall i: nat, c: nat, rest | Enters(ss[1..], i, c, rest, b) && !IsTerminator(ss[0]) ensures Enters(ss, i + 1, c, rest, b) {
        assert ss[i + 1] == ss[1..][i];
        forall j | 0 < j < i + 1 ensures !ss[j].Return? && !ss[j].Break? && !ss[j].Continue? { assert ss[j] == ss[1..][j - 1]; }
      }
      forall i: nat, c: nat, rest | Enters(ss, i, c, rest, b) && i > 0 ensures Enters(ss[1..], i - 1, c, rest, b) {
        assert ss[i] == ss[1..][i - 1];
        forall j | 0 <= j < i - 1 ensures !ss[1..][j].Return? && !ss[1..][j].Break? && !ss[1..][j].Continue? {
          assert ss[j + 1] == ss[1..][j];
        }
      }
    }
  }

  lemma {:induction false} EnteredByIff(s: Stmt, b: seq<Stmt>)
    ensures b in EnteredBy(s) <==> exists c: nat, rest :: c < |Branches(s)| && Leads(Branches(s)[c], rest, b)
    decreases SizeStmt(s), 0
  {
    match s
    case If(_, body, els) =>
      EnteredIff(body, b);
      if els.Else? { EnteredIff(els.body, b); }
      assert Branches(s)[0] == body && (els.Else? ==> Branches(s)[1] == els.body);
    case ForCond(_, body) => EnteredIff(body, b); assert Branches(s)[0] == body;
    case ForIn(_, _, _, body) => EnteredIff(body, b); assert Branches(s)[0] == body;
    case TryCatch(t, _, c) =>
      EnteredIff(t, b);
      EnteredIff(c, b);
      assert Branches(s)[0] == t && Branches(s)[1] == c;
    case Match(_, cases) => EnteredCasesIff(cases, b); assert Branches(s) == Bodies(cases);
    case _ =>
  }

  lemma {:induction false} EnteredCasesIff(cases: seq<Case>, b: seq<Stmt>)
    ensures b in EnteredCases(cases) <==> exists c: nat, rest :: c < |Bodies(cases)| && Leads(Bodies(cases)[c], rest, b)
    decreases SizeCases(cases), 0
  {
    if cases != [] {
      EnteredIff(cases[0].body, b);
      EnteredCasesIff(cases[1..], b);
      var bodies, more := Bodies(cases), Bodies(cases[1..]);
      assert bodies[0] == cases[0].body;
      forall c, rest | 0 <= c < |more| && Leads(more[c], rest, b) ensures Leads(bodies[c + 1], rest, b) {}
      forall c, rest | 0 < c < |bodies| && Leads(bodies[c], rest, b) ensures Leads(more[c - 1], rest, b) {}
    }
  }

  function Reports(tok: Stmt -> Token, blocks: seq<seq<Stmt>>): seq<Token> {
    if blocks == [] then [] else Report(tok, blocks[0]) + Reports(tok, blocks[1..])
  }

  lemma {:induction false} ReportsConcat(tok: Stmt -> Token, a: seq<seq<Stmt>>, b: seq<seq<Stmt>>)
    ensures Reports(tok, a + b) == Reports(tok, a) + Reports(tok, b)
  {
    if a == [] {
      assert a + b == b;
    } else {
      assert (a + b)[1..] == a[1..] + b;
      ReportsConcat(tok, a[1..], b);
    }
  }

  lemma ReportsSingle(tok: Stmt -> Token, ss: seq<Stmt>)
    ensures Reports(tok, [ss]) == Report(tok, ss)
  {
    assert [ss][1..] == [];
  }

  lemma InsideStep(ss: seq<Stmt>, i: nat)
    requires i < |ss|
    ensures Inside(ss[i..]) == if IsTerminator(ss[i]) then [] else EnteredBy(ss[i]) + Inside(ss[i + 1..])
  {
    assert ss[i..][0] == ss[i] && ss[i..][1..] == ss[i + 1..];
  }

  lemma {:induction false} CutIs(ss: seq<Stmt>, k: nat)
    requires k < |ss| && IsTerminator(ss[k]) && forall i :: 0 <= i < k ==> !IsTerminator(ss[i])
    ensures Cut(ss) == k
  {
    if k > 0 { CutIs(ss[1..], k - 1); }
  }

  lemma CutIff(ss: seq<Stmt>, k: nat)
    requires k < |ss|
    ensures Cut(ss) == k <==>
      && (ss[k].Return? || ss[k].Break? || ss[k].Continue?)
      && forall i :: 0 <= i < k ==> !ss[i].Return? && !ss[i].Break? && !ss[i].Continue?
  {
    if IsTerminator(ss[k]) && forall i :: 0 <= i < k ==> !IsTerminator(ss[i]) { CutIs(ss, k); }
  }

  /** The diagnostics are one report for every block entered, in order. */
  method AnalyzeUnreachableCode(tok: Stmt -> Token, ss: seq<Stmt>) returns (diags: seq<Token>)
    ensures diags == Reports(tok, Entered(ss))
    decreases SizeStmts(ss), 2
  {
    diags := [];
    var terminated := false;
    for i := 0 to |ss|
      invariant terminated ==> i > 0 && Cut(ss) == i - 1 && diags == Reports(tok, Inside(ss))
      invariant !terminated ==> forall j :: 0 <= j < i ==> !IsTerminator(ss[j])
      invariant !terminated ==> diags + Reports(tok, Inside(ss[i..])) == Reports(tok, Inside(ss))
    {
      if terminated {
        if tok(ss[i]).line > 0 {
          diags := diags + [tok(ss[i])];
        }
        ReportsConcat(tok, Inside(ss), [ss]);
        ReportsSingle(tok, ss);
        return;
      }
      SizeStmtAt(ss, i);
      InsideStep(ss, i);
      if IsTerminator(ss[i]) {
        terminated := true;
        CutIs(ss, i);
      } else {
        ghost var rest := Reports(tok, Inside(ss[i + 1..]));
        ReportsConcat(tok, EnteredBy(ss[i]), Inside(ss[i + 1..]));
        var inner := AnalyzeNested(tok, ss[i]);
        AppendAssoc(diags, inner, rest);
        diags := diags + inner;
      }
    }
    ReportsConcat(tok, Inside(ss), [ss]);
    ReportsSingle(tok, ss);
  }

  method AnalyzeNested(tok: Stmt -> Token, s: Stmt) returns (diags: seq<Token>)
    ensures diags == Reports(tok, EnteredBy(s))
    decreases SizeStmt(s), 0
  {
    diags := [];
    match s {
      case If(_, body, els) =>
        diags := AnalyzeUnreachableCode(tok, body);
        if els.Else? {
          var more := AnalyzeUnreachableCode(tok, els.body);
          ReportsConcat(tok, Entered(body), Entered(els.body));
          diags := diags + more;
        } else {
          assert Entered(body) + [] == Entered(body);
        }
      case ForCond(_, body) =>
        diags := AnalyzeUnreachableCode(tok, body);
      case ForIn(_, _, _, body) =>
        diags := AnalyzeUnreachableCode(tok, body);
      case TryCatch(t, _, c) =>
        diags := AnalyzeUnreachableCode(tok, t);
        var more := AnalyzeUnreachableCode(tok, c);
        ReportsConcat(tok, Entered(t), Entered(c));
        diags := diags + more;
      case Match(_, cases) =>
        for i := 0 to |cases|
          invariant diags + Reports(tok, EnteredCases(cases[i..])) == Reports(tok, EnteredCases(cases))
        {
          assert cases[i..][0] == cases[i] && cases[i..][1..] == cases[i + 1..];
          SizeCaseAt(cases, i);
          var more := AnalyzeUnreachableCode(tok, cases[i].body);
          ReportsConcat(tok, Entered(cases[i].body), EnteredCases(cases[i + 1..]));
          AppendAssoc(diags, more, Reports(tok, EnteredCases(cases[i + 1..])));
          diags := diags + more;
        }
      case _ =>
    }
  }

  /** Every diagnostic points right after the cut of an entered block, and every
      such place with a source position is pointed at. */
  lemma {:induction false} DiagnosticsAreCuts(tok: Stmt -> Token, blocks: seq<seq<Stmt>>, d: Token)
    ensures d in Reports(tok, blocks) <==>
            exists b :: b in blocks && Cut(b) + 1 < |b| && d == tok(b[Cut(b) + 1]) && d.line > 0
  {
    if blocks != [] {
      DiagnosticsAreCuts(tok, blocks[1..], d);
      assert blocks == [blocks[0]] + blocks[1..];
      if d in Report(tok, blocks[0]) { assert blocks[0] in blocks; }
    }
  }

  /** What follows the cut is never executed: any other tail gives the same run,
      whatever the world, the fuel and the store. */
  lemma {:induction false} NothingRunsAfterCut(w: World, fuel: nat, ss: seq<Stmt>, tail: seq<Stmt>, env: Env, st: Store)
    requires Cut(ss) < |ss|
    ensures ExecSeq(w, fuel, ss[..Cut(ss) + 1] + tail, env, st) == ExecSeq(w, fuel, ss, env, st)
    decreases |ss|
  {
    var other := ss[..Cut(ss) + 1] + tail;
    assert ss == [ss[0]] + ss[1..] && other == [ss[0]] + other[1..];
    OptimizerSimulation.ExecCons(w, fuel, ss[0], ss[1..], env, st);
    OptimizerSimulation.ExecCons(w, fuel, ss[0], other[1..], env, st);
    if IsTerminator(ss[0]) {
      OptimizerSimulation.ExecSingle(w, fuel, ss[0], env, st);
    } else {
      var (o, env1, st1) := Exec(w, fuel, ss[0], env, st);
      assert other[1..] == ss[1..][..Cut(ss[1..]) + 1] + tail;
      NothingRunsAfterCut(w, fuel, ss[1..], tail, env1, st1);
    }
  }

  /** The optimizer truncates the block at the same place: it keeps the terminator,
      last, and looks at nothing behind it. */
  lemma {:induction false} OptimizerCutsThere(fo: FloatOps, ss: seq<Stmt>, tail: seq<Stmt>)
    requires Cut(ss) < |ss|
    ensures OptStmts(fo, ss[..Cut(ss) + 1] + tail) == OptStmts(fo, ss)
    ensures OptStmts(fo, ss) == OptStmts(fo, ss[..Cut(ss)]) + OptionSeq(OptStmt(fo, ss[Cut(ss)]))
    ensures OptStmt(fo, ss[Cut(ss)]).Some? && IsTerminator(OptStmt(fo, ss[Cut(ss)]).value)
    decreases |ss|
  {
    var other := ss[..Cut(ss) + 1] + tail;
    assert other[0] == ss[0];
    if IsTerminator(ss[0]) {
      assert ss[..0] == [];
    } else {
      NotTerminatorKept(fo, ss[0]);
      assert other[1..] == ss[1..][..Cut(ss[1..]) + 1] + tail;
      OptimizerCutsThere(fo, ss[1..], tail);
      assert ss[..Cut(ss)][0] == ss[0] && ss[..Cut(ss)][1..] == ss[1..][..Cut(ss[1..])];
    }
  }

  /** Optimizing never turns another statement into a terminator. */
  lemma NotTerminatorKept(fo: FloatOps, s: Stmt)
    requires !IsTerminator(s)
    ensures var t := OptStmt(fo, s); t.Some? ==> !IsTerminator(t.value)
  {}
}
