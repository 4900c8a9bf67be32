// Small programs that tell how the statements of Serv behave, in any world.
module Laws {
  import opened Options
  import opened GoInt
  import opened Ast
  import opened Semantics

  lemma Single(w: World, fuel: nat, s: Stmt, env: Env, st: Store)
    ensures var r := Exec(w, fuel, s, env, st); ExecSeq(w, fuel, [s], env, st) == (r.0, r.2)
  {
    assert [s][1..] == [];
  }

  lemma Cons(w: World, fuel: nat, s: Stmt, ss: seq<Stmt>, env: Env, st: Store)
    ensures var r := Exec(w, fuel, s, env, st);
      ExecSeq(w, fuel, [s] + ss, env, st) == if r.0.Abrupt? then (r.0, r.2) else ExecSeq(w, fuel, ss, r.1, r.2)
  {
    assert ([s] + ss)[1..] == ss;
  }

  lemma LeafIs(w: World, fuel: nat, e: Expr, env: Env, st: Store)
    requires Leaf(e)
    ensures EvalExpr(w, fuel, e, env, st) == EvalLeaf(w, e, env, st)
  {}

  lemma ReturnIs(w: World, fuel: nat, e: Expr, env: Env, st: Store)
    requires Leaf(e)
    ensures var (r, st1) := EvalLeaf(w, e, env, st);
      ExecSeq(w, fuel, [Return(Some(e))], env, st) == (if r.Stop? then Abrupt(r.j) else Abrupt(ReturnJ(r.v)), st1)
  {
    LeafIs(w, fuel, e, env, st);
    Single(w, fuel, Return(Some(e)), env, st);
  }

  // ----- Conditions -----

  /** 0, the empty string, false and nil are false; every other literal is true. */
  lemma Conditions(w: World, fuel: nat, i: int64, s: string, env: Env, st: Store)
    ensures Holds(w, fuel, IntLit(i), env, st) <==> i != 0
    ensures Holds(w, fuel, StrLit(s), env, st) <==> s != ""
    ensures Holds(w, fuel, BoolLit(true), env, st) && !Holds(w, fuel, BoolLit(false), env, st) && !Holds(w, fuel, NilLit, env, st)
  {
    ReturnIs(w, fuel, BoolLit(true), env, st);
    LeafIs(w, fuel, IntLit(i), env, st);
    LeafIs(w, fuel, StrLit(s), env, st);
    LeafIs(w, fuel, BoolLit(true), env, st);
    LeafIs(w, fuel, BoolLit(false), env, st);
    LeafIs(w, fuel, NilLit, env, st);
  }

  /** An `if` on this expression goes into its first branch. */
  predicate Holds(w: World, fuel: nat, c: Expr, env: Env, st: Store) {
    Exec(w, fuel, If(c, [Return(Some(BoolLit(true)))], NoElse), env, st).0 == Abrupt(ReturnJ(BoolV(true)))
  }

  /** A negated condition swaps the branches. */
  lemma NotSwaps(w: World, fuel: nat, c: Expr, a: seq<Stmt>, b: seq<Stmt>, env: Env, st: Store)
    ensures Exec(w, fuel, If(Prefix(Not, c), a, Else(b)), env, st) == Exec(w, fuel, If(c, b, Else(a)), env, st)
  {}

  /** `&&` and `||` leave their right side alone when the left one decides, and come to a
      boolean otherwise. */
  lemma ShortCircuit(w: World, fuel: nat, l: bool, r: Expr, env: Env, st: Store)
    ensures !l ==> EvalExpr(w, fuel, Infix(BoolLit(l), And, r), env, st) == (Val(BoolV(false)), st)
    ensures l ==> EvalExpr(w, fuel, Infix(BoolLit(l), Or, r), env, st) == (Val(BoolV(true)), st)
    ensures var rest := EvalExpr(w, fuel, r, env, st); rest.0.Val? && (rest.0.v.BoolV?) ==>
      && (l ==> EvalExpr(w, fuel, Infix(BoolLit(l), And, r), env, st) == rest)
      && (!l ==> EvalExpr(w, fuel, Infix(BoolLit(l), Or, r), env, st) == rest)
  {
    LeafIs(w, fuel, BoolLit(l), env, st);
  }

  // ----- Loops -----

  /** A `break` ends the loop alone, a `return` what is around it, and a `continue` in the
      end of the body does nothing. */
  lemma Leaving(w: World, fuel: nat, v: int64, env: Env, st: Store)
    ensures Exec(w, fuel + 1, ForCond(BoolLit(true), [Break]), env, st) == (Normal, env, st)
    ensures Exec(w, fuel + 1, ForCond(BoolLit(true), [Return(Some(IntLit(v)))]), env, st) == (Abrupt(ReturnJ(IntV(v))), env, st)
  {
    LeafIs(w, fuel, BoolLit(true), env, st);
    Single(w, fuel, Break, env, st);
    ReturnIs(w, fuel, IntLit(v), env, st);
  }

  lemma {:induction false} ContinueGoesOn(w: World, fuel: nat, c: Expr, env: Env, st: Store)
    ensures LoopCond(w, fuel, c, [Continue], env, st) == LoopCond(w, fuel, c, [], env, st)
    decreases fuel
  {
    if fuel > 0 {
      var (r, st1) := EvalExpr(w, fuel - 1, c, env, st);
      Single(w, fuel - 1, Continue, env, st1);
      IdleTurn(w, fuel, c, [Continue], env, st);
      IdleTurn(w, fuel, c, [], env, st);
      if r.Val? && Truthy(w, r.v) { ContinueGoesOn(w, fuel - 1, c, env, st1); }
    }
  }

  lemma IdleTurn(w: World, fuel: nat, c: Expr, body: seq<Stmt>, env: Env, st: Store)
    requires fuel > 0
    requires var (r, st1) := EvalExpr(w, fuel - 1, c, env, st);
      ExecSeq(w, fuel - 1, body, env, st1) == (Normal, st1) || ExecSeq(w, fuel - 1, body, env, st1) == (Abrupt(ContinueJ), st1)
    ensures var (r, st1) := EvalExpr(w, fuel - 1, c, env, st);
      LoopCond(w, fuel, c, body, env, st) ==
      if r.Stop? then (Abrupt(r.j), st1)
      else if Truthy(w, r.v) then LoopCond(w, fuel - 1, c, body, env, st1) else (Normal, st1)
  {}

  /** A false condition ends the loop; one that stays true never does. */
  lemma {:induction false} WhileTrue(w: World, fuel: nat, env: Env, st: Store)
    ensures LoopCond(w, fuel, BoolLit(true), [], env, st) == (Abrupt(OutOfFuel), st)
    ensures LoopCond(w, fuel + 1, BoolLit(false), [], env, st) == (Normal, st)
    decreases fuel
  {
    if fuel > 0 { WhileTrue(w, fuel - 1, env, st); }
  }

  /** In a loop over values as well a `break` ends it, and a `continue` goes on. */
  lemma LeavingItems(w: World, fuel: nat, names: seq<string>, items: seq<(Value, Value)>, env: Env, st: Store)
    ensures LoopIn(w, fuel + 1, names, items, [Break], env, st).0 == Normal
  {
    if items != [] {
      var (env1, st1) := BindParams(env, st, names, ItemArgs(names, items[0]));
      Single(w, fuel, Break, env1, st1);
    }
  }

  lemma {:induction false} ContinueItems(w: World, fuel: nat, names: seq<string>, items: seq<(Value, Value)>, env: Env, st: Store)
    ensures LoopIn(w, fuel, names, items, [Continue], env, st) == LoopIn(w, fuel, names, items, [], env, st)
    ensures LoopIn(w, fuel, names, items, [], env, st).0 == if |items| <= fuel then Normal else Abrupt(OutOfFuel)
    decreases fuel
  {
    if items != [] && fuel > 0 {
      var (env1, st1) := BindParams(env, st, names, ItemArgs(names, items[0]));
      Single(w, fuel - 1, Continue, env1, st1);
      ContinueItems(w, fuel - 1, names, items[1..], env, st1);
    }
  }

  /** `for x in xs` sees the first value first, `for k, x in xs` also its key. */
  lemma FirstItem(w: World, fuel: nat, xs: Expr, k: Option<string>, x: string, name: string, env: Env, st: Store)
    requires k != Some(x) && (name == x || k == Some(name))
    ensures var (r, st1) := EvalExpr(w, fuel + 1, xs, env, st); r.Val? && w.items(r.v, st1) != [] ==>
      var item := w.items(r.v, st1)[0];
      Exec(w, fuel + 1, ForIn(k, x, xs, [Return(Some(Ident(name)))]), env, st).0 == Abrupt(ReturnJ(if name == x then item.1 else item.0))
  {
    var (r, st1) := EvalExpr(w, fuel + 1, xs, env, st);
    ForInIs(w, fuel + 1, k, x, xs, [Return(Some(Ident(name)))], env, st);
    if r.Val? && w.items(r.v, st1) != [] {
      FirstTurn(w, fuel, OptionSeq(k) + [x], w.items(r.v, st1)[0], w.items(r.v, st1), name, env, st1);
    }
  }

  lemma ForInIs(w: World, fuel: nat, k: Option<string>, x: string, xs: Expr, body: seq<Stmt>, env: Env, st: Store)
    ensures var (r, st1) := EvalExpr(w, fuel, xs, env, st); r.Val? ==>
      Exec(w, fuel, ForIn(k, x, xs, body), env, st).0 == LoopIn(w, fuel, OptionSeq(k) + [x], w.items(r.v, st1), body, env, st1).0
  {}

  lemma FirstTurn(w: World, fuel: nat, names: seq<string>, item: (Value, Value), items: seq<(Value, Value)>, name: string, env: Env, st: Store)
    requires items != [] && items[0] == item
    requires names == [name] || (|names| == 2 && names[0] != names[1] && name in names)
    ensures LoopIn(w, fuel + 1, names, items, [Return(Some(Ident(name)))], env, st).0
         == Abrupt(ReturnJ(if |names| == 2 && name == names[0] then item.0 else item.1))
  {
    var (env1, st1) := BindParams(env, st, names, ItemArgs(names, item));
    if |names| == 1 { BindOne(env, st, name, item.1); } else { BindTwo(env, st, names[0], names[1], item.0, item.1); }
    assert |names| == 2 ==> names == [names[0], names[1]];
    ReturnIs(w, fuel, Ident(name), env1, st1);
  }

  lemma BindOne(env: Env, st: Store, x: string, v: Value)
    ensures var (env1, st1) := BindParams(env, st, [x], [v]); x in env1.vars && Read(st1, env1.vars[x]) == v
  {
    var (env1, st1) := Bind(env, st, x, v);
    assert [x][1..] == [] && BindParams(env1, st1, [], [v][1..]) == (env1, st1);
  }

  lemma BindTwo(env: Env, st: Store, x: string, y: string, v: Value, u: Value)
    requires x != y
    ensures var (env2, st2) := BindParams(env, st, [x, y], [v, u]);
      x in env2.vars && y in env2.vars && Read(st2, env2.vars[x]) == v && Read(st2, env2.vars[y]) == u
  {
    var (env1, st1) := Bind(env, st, x, v);
    assert [x, y][1..] == [y] && [v, u][1..] == [u];
    var (env2, st2) := Bind(env1, st1, y, u);
    assert [y][1..] == [] && BindParams(env2, st2, [], [u][1..]) == (env2, st2);
    assert BindParams(env1, st1, [y], [u]) == (env2, st2);
  }

  // ----- Exceptions -----

  /** A `catch` sees what was thrown; whatever else ends the `try`, a return included, goes by. */
  lemma Catching(w: World, fuel: nat, body: seq<Stmt>, param: string, env: Env, st: Store)
    ensures var (o, st1) := ExecSeq(w, fuel, body, env, st);
      var r := Exec(w, fuel, TryCatch(body, param, [Return(Some(Ident(param)))]), env, st);
      if o.Abrupt? && o.j.PanicJ? then r.0 == Abrupt(ReturnJ(o.j.v)) else r == (o, env, st1)
  {
    var (o, st1) := ExecSeq(w, fuel, body, env, st);
    if o.Abrupt? && o.j.PanicJ? {
      var (env2, st2) := Bind(env, st1, param, o.j.v);
      Single(w, fuel, Return(Some(Ident(param))), env2, st2);
    }
  }

  // ----- Names -----

  /** A second `let` of a name in one function assigns: a function made before it sees the
      new value. */
  lemma LetAgain(w: World, fuel: nat, x: string, f: string, a: int64, b: int64, env: Env, st: Store)
    requires x != f && x !in env.local && f !in env.local
    ensures ExecSeq(w, fuel + 1, [Let(x, IntLit(a))] + ([Let(f, FnLit([], [Return(Some(Ident(x)))]))]
              + ([Let(x, IntLit(b))] + [Return(Some(Call(Ident(f), [], [])))])), env, st).0 == Abrupt(ReturnJ(IntV(b)))
  {
    var body := [Return(Some(Ident(x)))];
    var s1, s2, s3, s4 := Let(x, IntLit(a)), Let(f, FnLit([], body)), Let(x, IntLit(b)), Return(Some(Call(Ident(f), [], [])));
    Cons(w, fuel + 1, s1, [s2] + ([s3] + [s4]), env, st);
    LeafIs(w, fuel + 1, IntLit(a), env, st);
    var (o1, env1, st1) := Exec(w, fuel + 1, s1, env, st);
    Cons(w, fuel + 1, s2, [s3] + [s4], env1, st1);
    LeafIs(w, fuel + 1, FnLit([], body), env1, st1);
    var (o2, env2, st2) := Exec(w, fuel + 1, s2, env1, st1);
    Cons(w, fuel + 1, s3, [s4], env2, st2);
    LeafIs(w, fuel + 1, IntLit(b), env2, st2);
    var (o3, env3, st3) := Exec(w, fuel + 1, s3, env2, st2);
    Single(w, fuel + 1, s4, env3, st3);
    CallsThunk(w, fuel, f, x, env3, st3);
  }

  /** A call of a function without parameters that returns a variable of its environment. */
  lemma CallsThunk(w: World, fuel: nat, f: string, x: string, env: Env, st: Store)
    requires f in env.vars && Read(st, env.vars[f]).Closure?
    requires var c := Read(st, env.vars[f]);
      c.params == [] && c.code == [Return(Some(Ident(x)))] && x in c.env.vars
    ensures var c := Read(st, env.vars[f]);
      EvalExpr(w, fuel + 1, Call(Ident(f), [], []), env, st) == (Val(Read(st, c.env.vars[x])), st)
  {
    var c := Read(st, env.vars[f]);
    assert [Ident(f)] + [] == [Ident(f)];
    assert [Ident(f)][1..] == [];
    LeafIs(w, fuel + 1, Ident(f), env, st);
    assert EvalExprs(w, fuel + 1, [], env, st) == (Vals([]), st);
    assert EvalHead(w, fuel + 1, [Ident(f)], env, st) == (Val(c), st);
    assert [c] + [] == [c];
    assert EvalExprs(w, fuel + 1, [Ident(f)], env, st) == (Vals([c]), st);
    assert [c][1..] == [];
    ReturnIs(w, fuel, Ident(x), c.env, st);
    assert BindParams(c.env, st, [], []) == (c.env, st);
    assert Apply(w, fuel + 1, c, [], st) == (Val(Read(st, c.env.vars[x])), st);
    assert Children(Call(Ident(f), [], [])) == [Ident(f)];
    assert Perform(w, fuel + 1, Call(Ident(f), [], []), [c], st) == Apply(w, fuel + 1, c, [], st);
  }

  /** A declared function sees itself. */
  lemma FunctionsSeeThemselves(w: World, fuel: nat, f: string, env: Env, st: Store)
    requires f !in env.vars
    ensures var (o, st1) := ExecSeq(w, fuel + 1, [FnDecl(f, [], [Return(Some(Ident(f)))])] + [Return(Some(Call(Ident(f), [], [])))], env, st);
      o.Abrupt? && o.j.ReturnJ? && o.j.v.Closure? && o.j.v.code == [Return(Some(Ident(f)))]
  {
    var s1, s2 := FnDecl(f, [], [Return(Some(Ident(f)))]), Return(Some(Call(Ident(f), [], [])));
    Cons(w, fuel + 1, s1, [s2], env, st);
    var (o1, env1, st1) := Exec(w, fuel + 1, s1, env, st);
    assert Read(st1, env1.vars[f]).Closure?;
    Single(w, fuel + 1, s2, env1, st1);
    CallsThunk(w, fuel, f, f, env1, st1);
  }

  /** `x = v` and `x += v` leave the new value in the variable, and are it. */
  lemma Assigning(w: World, fuel: nat, x: string, a: int64, b: int64, env: Env, st: Store)
    requires x in env.vars && env.vars[x] < |st.cells| && Read(st, env.vars[x]) == IntV(a)
    ensures EvalExpr(w, fuel, Assign(x, IntLit(b)), env, st) == (Val(IntV(b)), st.(cells := st.cells[env.vars[x] := IntV(b)]))
    ensures EvalExpr(w, fuel, CompoundAssign(x, Sub, IntLit(b)), env, st)
         == (Val(IntV(Wrap(a - b))), st.(cells := st.cells[env.vars[x] := IntV(Wrap(a - b))]))
  {
    LeafIs(w, fuel, IntLit(b), env, st);
  }

  /** What a block declares is gone behind it. */
  lemma BlocksHide(w: World, fuel: nat, body: seq<Stmt>, env: Env, st: Store)
    ensures Exec(w, fuel, Block(body), env, st).1 == env
  {}

  // ----- Match -----

  /** The case that is equal runs, even behind the default; without one the default does. */
  lemma DefaultIsLast(w: World, fuel: nat, v: int64, n: int64, env: Env, st: Store)
    ensures Exec(w, fuel, Match(IntLit(v), [Case(None, [Return(Some(IntLit(0)))])] + [Case(Some(IntLit(n)), [Return(Some(IntLit(1)))])]), env, st)
         == (Abrupt(ReturnJ(IntV(if v == n then 1 else 0))), env, st)
  {
    var dflt, other := Case(None, [Return(Some(IntLit(0)))]), Case(Some(IntLit(n)), [Return(Some(IntLit(1)))]);
    assert ([dflt] + [other])[1..] == [other] && [other][1..] == [];
    ReturnIs(w, fuel, IntLit(0), env, st);
    ReturnIs(w, fuel, IntLit(1), env, st);
    LeafIs(w, fuel, IntLit(n), env, st);
    LeafIs(w, fuel, IntLit(v), env, st);
    assert ExecCases(w, fuel, IntV(v), [], Else(dflt.body), env, st) == (Abrupt(ReturnJ(IntV(0))), st);
    assert ExecCases(w, fuel, IntV(v), [other], Else(dflt.body), env, st)
        == (Abrupt(ReturnJ(IntV(if v == n then 1 else 0))), st);
  }
}
