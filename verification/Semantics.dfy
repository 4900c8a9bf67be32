// A big-step semantics of Serv programs, following the Go code that
// compiler/codegen_stmt.go and compiler/codegen_expr.go emit. Fuel is spent
// only on loop iterations and calls, so straight-line rewriting never changes
// how far a run gets. Everything outside the language (library calls, network,
// time) is up to one arbitrary world, which may call functions that it is handed.
module Semantics {
  import opened Options
  import opened GoInt
  import opened Ast

  // ---- Values and stores ----

  /** `vars` maps a visible name to its cell; `local` holds the names declared in the
      current function, which a further `let` assigns instead of declaring. */
  datatype Env = Env(vars: map<string, nat>, local: set<string>)

  datatype Value =
    | IntV(i: int64)
    | FloatV(f: Float)
    | StrV(s: string)
    | BoolV(b: bool)
    | NilV
    | Closure(params: seq<string>, code: seq<Stmt>, env: Env)
    | Ref(id: nat)

  /** `cells` are the variables, `heap` the arrays, maps and structs, `log` every
      observable effect so far (registered handlers, published messages, output). */
  datatype Store = Store(cells: seq<Value>, heap: seq<seq<Value>>, log: seq<Value>)

  datatype Jump = BreakJ | ContinueJ | ReturnJ(v: Value) | PanicJ(v: Value) | OutOfFuel

  datatype ExprOut = Val(v: Value) | Stop(j: Jump)
  datatype ListOut = Vals(vs: seq<Value>) | StopList(j: Jump)
  datatype StmtOut = Normal | Abrupt(j: Jump)

  // ---- The world outside the language ----

  datatype FloatOps = FloatOps(
    add: (Float, Float) -> Float, sub: (Float, Float) -> Float,
    mul: (Float, Float) -> Float, div: (Float, Float) -> Float, neg: Float -> Float,
    eq: (Float, Float) -> bool, lt: (Float, Float) -> bool, le: (Float, Float) -> bool,
    ofInt: int64 -> Float)
  {
    predicate IsZero(x: Float) { eq(x, ofInt(0)) }
  }

  datatype PrimOp =
    | OpInfix(infix: InfixOp) | OpPrefix(prefix: PrefixOp) | OpName(name: string) | OpSelf
    | OpCall(typeArgs: seq<string>) | OpArray | OpMap(keys: seq<string>, positions: seq<nat>)
    | OpStruct(typeName: string, keys: seq<string>) | OpMember(field: string) | OpIndex
    | OpSlice(start: bool, end: bool) | OpAwait | OpErrorProp | OpAssert
    | OpAssertThat(comparison: InfixOp)
    | OpMemberAssign(field: string) | OpIndexAssign | OpOptionalMember(field: string) | OpSpread
    | OpFString(parts: seq<string>) | OpHandler(kind: HandlerKind) | OpPublish | OpSpawn

  /** What a library routine does next: it is done, or it calls a function it was handed. */
  datatype LibStep = Done(out: ExprOut, store: Store) | CallBack(f: Value, args: seq<Value>, store: Store)

  /** `prim` answers at once. `lib` is asked again with the outcomes of the calls it has
      made so far, until it is done. */
  datatype World = World(
    flo: FloatOps,
    prim: (PrimOp, seq<Value>, Store) -> (ExprOut, Store),
    lib: (PrimOp, seq<Value>, seq<ExprOut>, Store) -> LibStep,
    items: (Value, Store) -> seq<(Value, Value)>)

  function Read(st: Store, loc: nat): Value {
    if loc < |st.cells| then st.cells[loc] else NilV
  }

  function Write(st: Store, loc: nat, v: Value): Store {
    if loc < |st.cells| then st.(cells := st.cells[loc := v]) else st
  }

  /** A new variable, in a new cell. */
  function Bind(env: Env, st: Store, name: string, v: Value): (Env, Store) {
    (Env(env.vars[name := |st.cells|], env.local + {name}), st.(cells := st.cells + [v]))
  }

  /** `let`: assign when the function has already declared the name, else declare. */
  function Declare(env: Env, st: Store, name: string, v: Value): (Env, Store) {
    if name in env.local && name in env.vars then (env, Write(st, env.vars[name], v))
    else Bind(env, st, name, v)
  }

  /** Missing arguments are nil and extra ones are dropped. */
  function BindParams(env: Env, st: Store, params: seq<string>, args: seq<Value>): (Env, Store)
    decreases |params|
  {
    if params == [] then (env, st)
    else
      var (env1, st1) := Bind(env, st, params[0], if args == [] then NilV else args[0]);
      BindParams(env1, st1, params[1..], if args == [] then [] else args[1..])
  }

  function Truthy(w: World, v: Value): bool {
    match v
    case NilV => false
    case BoolV(b) => b
    case IntV(i) => i != 0
    case FloatV(f) => !w.flo.IsZero(f)
    case StrV(s) => s != ""
    case _ => true
  }

  // ---- Operators ----

  function IntOp(op: InfixOp, l: int64, r: int64): (v: Option<Value>)
    ensures v.Some? ==> !v.value.Closure?
  {
    match op
    case Add => Some(IntV(Wrap(l + r)))
    case Sub => Some(IntV(Wrap(l - r)))
    case Mul => Some(IntV(Wrap(l * r)))
    case Div => if r == 0 then None else Some(IntV(Wrap(TruncDiv(l, r))))
    case Rem => if r == 0 then None else Some(IntV(Wrap(TruncMod(l, r))))
    case Eq => Some(BoolV(l == r))
    case Neq => Some(BoolV(l != r))
    case Lt => Some(BoolV(l < r))
    case Gt => Some(BoolV(r < l))
    case Le => Some(BoolV(l <= r))
    case Ge => Some(BoolV(r <= l))
    case _ => None
  }

  function FloatOp(fo: FloatOps, op: InfixOp, l: Float, r: Float): (v: Option<Value>)
    ensures v.Some? ==> !v.value.Closure?
  {
    match op
    case Add => Some(FloatV(fo.add(l, r)))
    case Sub => Some(FloatV(fo.sub(l, r)))
    case Mul => Some(FloatV(fo.mul(l, r)))
    case Div => if fo.IsZero(r) then None else Some(FloatV(fo.div(l, r)))
    case Eq => Some(BoolV(fo.eq(l, r)))
    case Neq => Some(BoolV(!fo.eq(l, r)))
    case Lt => Some(BoolV(fo.lt(l, r)))
    case Gt => Some(BoolV(fo.lt(r, l)))
    case Le => Some(BoolV(fo.le(l, r)))
    case Ge => Some(BoolV(fo.le(r, l)))
    case _ => None
  }

  function StrOp(op: InfixOp, l: string, r: string): (v: Option<Value>)
    ensures v.Some? ==> !v.value.Closure?
  {
    match op
    case Add => Some(StrV(l + r))
    case Eq => Some(BoolV(l == r))
    case Neq => Some(BoolV(l != r))
    case Lt => Some(BoolV(StrLess(l, r)))
    case Gt => Some(BoolV(StrLess(r, l)))
    case Le => Some(BoolV(!StrLess(r, l)))
    case Ge => Some(BoolV(!StrLess(l, r)))
    case _ => None
  }

  /** The operators the language itself defines; None leaves the pair to the world
      (division by zero, bit operators, operands of unlike kinds, references). */
  function NativeOp(w: World, op: InfixOp, l: Value, r: Value): (v: Option<Value>)
    ensures v.Some? ==> !v.value.Closure?
  {
    match (l, r)
    case (IntV(a), IntV(b)) => IntOp(op, a, b)
    case (IntV(a), FloatV(b)) => FloatOp(w.flo, op, w.flo.ofInt(a), b)
    case (FloatV(a), FloatV(b)) => FloatOp(w.flo, op, a, b)
    case (FloatV(a), IntV(b)) => FloatOp(w.flo, op, a, w.flo.ofInt(b))
    case (StrV(a), StrV(b)) => StrOp(op, a, b)
    case (BoolV(a), BoolV(b)) =>
      if op == Eq then Some(BoolV(a == b)) else if op == Neq then Some(BoolV(a != b)) else None
    case _ => None
  }

  function BinOp(w: World, op: InfixOp, l: Value, r: Value, st: Store): (ExprOut, Store) {
    match NativeOp(w, op, l, r)
    case Some(v) => (Val(v), st)
    case None => w.prim(OpInfix(op), [l, r], st)
  }

  function UnOp(w: World, op: PrefixOp, v: Value, st: Store): (ExprOut, Store) {
    if op == Not then (Val(BoolV(!Truthy(w, v))), st)
    else if op == Minus && v.IntV? then (Val(IntV(Wrap(-(v.i as int)))), st)
    else if op == Minus && v.FloatV? then (Val(FloatV(w.flo.neg(v.f))), st)
    else w.prim(OpPrefix(op), [v], st)
  }

  /** What a node does to the values of its children. */
  function HeadOp(e: Expr): PrimOp {
    match e
    case Call(_, typeArgs, _) => OpCall(typeArgs)
    case ArrayLit(_) => OpArray
    case MapLit(keys, _, positions, _) => OpMap(keys, positions)
    case StructLit(typeName, keys, _) => OpStruct(typeName, keys)
    case Member(_, field) => OpMember(field)
    case Index(_, _) => OpIndex
    case Slice(_, start, end) => OpSlice(start.Some?, end.Some?)
    case Await(_) => OpAwait
    case ErrorProp(_) => OpErrorProp
    case Assert(v) => if AssertsComparison(e) then OpAssertThat(v.op) else OpAssert
    case MemberAssign(_, field, _) => OpMemberAssign(field)
    case IndexAssign(_, _, _) => OpIndexAssign
    case OptionalMember(_, field) => OpOptionalMember(field)
    case Spread(_) => OpSpread
    case FString(parts, _) => OpFString(parts)
    case _ => OpSelf
  }

  // ---- Evaluation ----

  /** Identifiers, literals and function literals: no operand to evaluate. */
  predicate Leaf(e: Expr) {
    e.Ident? || e.IntLit? || e.FloatLit? || e.StrLit? || e.BoolLit? || e.NilLit? || e.DurationLit? || e.SelfExpr?
    || e.FnLit? || e.Arrow?
  }

  function EvalLeaf(w: World, e: Expr, env: Env, st: Store): (ExprOut, Store)
    requires Leaf(e)
  {
    match e
    case Ident(name) =>
      if name in env.vars then (Val(Read(st, env.vars[name])), st) else w.prim(OpName(name), [], st)
    case IntLit(i) => (Val(IntV(i)), st)
    case FloatLit(f) => (Val(FloatV(f)), st)
    case StrLit(s) => (Val(StrV(s)), st)
    case BoolLit(b) => (Val(BoolV(b)), st)
    case NilLit => (Val(NilV), st)
    case DurationLit(text) => (Val(StrV(text)), st)
    case SelfExpr => w.prim(OpSelf, [], st)
    case FnLit(params, body) => (Val(Closure(params, body, env)), st)
    case Arrow(params, value) => (Val(Closure(params, [Return(Some(value))], env)), st)
  }

  function EvalExpr(w: World, fuel: nat, e: Expr, env: Env, st: Store): (ExprOut, Store)
    decreases fuel, 1, SizeExpr(e), 0
  {
    if Leaf(e) then EvalLeaf(w, e, env, st)
    else if e.Infix? then EvalInfix(w, fuel, e.left, e.op, e.right, env, st)
    else if e.Prefix? then
      var (r, st1) := EvalExpr(w, fuel, e.right, env, st);
      if r.Stop? then (r, st1) else UnOp(w, e.sign, r.v, st1)
    else if e.Assign? then
      var (r, st1) := EvalExpr(w, fuel, e.value, env, st);
      if r.Stop? then (r, st1)
      else if e.name in env.vars then (r, Write(st1, env.vars[e.name], r.v))
      else w.prim(OpName(e.name), [r.v], st1)
    else if e.CompoundAssign? then EvalCompound(w, fuel, e.name, e.op, e.value, env, st)
    else
      SizeChildren(e);
      var (r, st1) := EvalExprs(w, fuel, Children(e), env, st);
      if r.StopList? then (Stop(r.j), st1) else Perform(w, fuel, e, r.vs, st1)
  }

  /** `&&` and `||` skip the right operand when the left one decides. */
  function Decided(w: World, op: InfixOp, l: Value): Option<bool> {
    if op == And && !Truthy(w, l) then Some(false)
    else if op == Or && Truthy(w, l) then Some(true)
    else None
  }

  function Combine(w: World, op: InfixOp, l: Value, r: ExprOut, st: Store): (ExprOut, Store) {
    if r.Stop? then (r, st)
    else if op == And || op == Or then (Val(BoolV(Truthy(w, r.v))), st)
    else BinOp(w, op, l, r.v, st)
  }

  function EvalInfix(w: World, fuel: nat, left: Expr, op: InfixOp, right: Expr, env: Env, st: Store): (ExprOut, Store)
    decreases fuel, 1, SizeExpr(left) + SizeExpr(right), 1
  {
    var (l, st1) := EvalExpr(w, fuel, left, env, st);
    if l.Stop? then (l, st1)
    else if Decided(w, op, l.v).Some? then (Val(BoolV(Decided(w, op, l.v).value)), st1)
    else
      var (r, st2) := EvalExpr(w, fuel, right, env, st1);
      Combine(w, op, l.v, r, st2)
  }

  function EvalCompound(w: World, fuel: nat, name: string, op: InfixOp, value: Expr, env: Env, st: Store): (ExprOut, Store)
    decreases fuel, 1, SizeExpr(value), 1
  {
    var (r, st1) := EvalExpr(w, fuel, value, env, st);
    if r.Stop? then (r, st1)
    else if name !in env.vars then w.prim(OpName(name), [r.v], st1)
    else
      var (x, st2) := BinOp(w, op, Read(st1, env.vars[name]), r.v, st1);
      if x.Stop? then (x, st2) else (x, Write(st2, env.vars[name], x.v))
  }

  /** Calls of closures run their code; everything else is up to the world. */
  function Perform(w: World, fuel: nat, e: Expr, vs: seq<Value>, st: Store): (ExprOut, Store)
    decreases fuel, 0, 2
  {
    if e.Call? && vs != [] && vs[0].Closure? then Apply(w, fuel, vs[0], vs[1..], st)
    else Library(w, fuel, HeadOp(e), vs, [], st)
  }

  /** A library routine, with the calls it makes of functions it was handed (`map`,
      `filter`, `reduce`, ...). It sees a panic of theirs and may recover from it. */
  function Library(w: World, fuel: nat, op: PrimOp, vs: seq<Value>, answers: seq<ExprOut>, st: Store): (ExprOut, Store)
    decreases fuel, 0, 1
  {
    match w.lib(op, vs, answers, st)
    case Done(out, st1) => (out, st1)
    case CallBack(f, args, st1) =>
      if fuel == 0 then (Stop(OutOfFuel), st1)
      else
        var (r, st2) := if f.Closure? then Apply(w, fuel, f, args, st1) else (Val(NilV), st1);
        if r == Stop(OutOfFuel) then (r, st2) else Library(w, fuel - 1, op, vs, answers + [r], st2)
  }

  function EvalExprs(w: World, fuel: nat, es: seq<Expr>, env: Env, st: Store): (ListOut, Store)
    decreases fuel, 1, SizeExprs(es), 2
  {
    if es == [] then (Vals([]), st)
    else
      var (r, st1) := EvalHead(w, fuel, es, env, st);
      if r.Stop? then (StopList(r.j), st1)
      else
        var (rs, st2) := EvalExprs(w, fuel, es[1..], env, st1);
        if rs.StopList? then (rs, st2) else (Vals([r.v] + rs.vs), st2)
  }

  function EvalHead(w: World, fuel: nat, es: seq<Expr>, env: Env, st: Store): (ExprOut, Store)
    requires es != []
    decreases fuel, 1, SizeExpr(es[0]), 1
  {
    EvalExpr(w, fuel, es[0], env, st)
  }

  function Apply(w: World, fuel: nat, f: Value, args: seq<Value>, st: Store): (ExprOut, Store)
    requires f.Closure?
    decreases fuel, 0, 0
  {
    if fuel == 0 then (Stop(OutOfFuel), st)
    else
      var (env1, st1) := BindParams(f.env, st, f.params, args);
      var (o, st2) := ExecSeq(w, fuel - 1, f.code, env1, st1);
      match o
      case Abrupt(ReturnJ(v)) => (Val(v), st2)
      case Abrupt(PanicJ(v)) => (Stop(PanicJ(v)), st2)
      case Abrupt(OutOfFuel) => (Stop(OutOfFuel), st2)
      case _ => (Val(NilV), st2)
  }

  /** One statement: how it ends, and the bindings the rest of its block sees. */
  function Exec(w: World, fuel: nat, s: Stmt, env: Env, st: Store): (StmtOut, Env, Store)
    decreases fuel, 2, SizeStmt(s), 0
  {
    match s
    case Block(body) =>
      var (o, st1) := ExecSeq(w, fuel, body, env, st);
      (o, env, st1)
    case Let(name, value) =>
      var (r, st1) := EvalExpr(w, fuel, value, env, st);
      if r.Stop? then (Abrupt(r.j), env, st1)
      else
        var (env2, st2) := Declare(env, st1, name, r.v);
        (Normal, env2, st2)
    case ExprStmt(value) =>
      var (r, st1) := EvalExpr(w, fuel, value, env, st);
      (if r.Stop? then Abrupt(r.j) else Normal, env, st1)
    case Return(None) => (Abrupt(ReturnJ(NilV)), env, st)
    case Return(Some(value)) =>
      var (r, st1) := EvalExpr(w, fuel, value, env, st);
      (if r.Stop? then Abrupt(r.j) else Abrupt(ReturnJ(r.v)), env, st1)
    case Break => (Abrupt(BreakJ), env, st)
    case Continue => (Abrupt(ContinueJ), env, st)
    case If(cond, body, els) =>
      var (r, st1) := EvalExpr(w, fuel, cond, env, st);
      if r.Stop? then (Abrupt(r.j), env, st1)
      else if Truthy(w, r.v) then
        var (o, st2) := ExecSeq(w, fuel, body, env, st1);
        (o, env, st2)
      else if els.Else? then
        var (o, st2) := ExecSeq(w, fuel, els.body, env, st1);
        (o, env, st2)
      else (Normal, env, st1)
    case ForCond(cond, body) =>
      var (o, st1) := LoopCond(w, fuel, cond, body, env, st);
      (o, env, st1)
    case ForIn(keyVar, variable, iterable, body) =>
      var (r, st1) := EvalExpr(w, fuel, iterable, env, st);
      if r.Stop? then (Abrupt(r.j), env, st1)
      else
        var (o, st2) := LoopIn(w, fuel, OptionSeq(keyVar) + [variable], w.items(r.v, st1), body, env, st1);
        (o, env, st2)
    case Match(value, cases) =>
      var (r, st1) := EvalExpr(w, fuel, value, env, st);
      if r.Stop? then (Abrupt(r.j), env, st1)
      else
        var (o, st2) := ExecCases(w, fuel, r.v, cases, NoElse, env, st1);
        (o, env, st2)
    case TryCatch(tryBody, param, catchBody) =>
      var (o, st1) := ExecSeq(w, fuel, tryBody, env, st);
      if o.Abrupt? && o.j.PanicJ? then
        var (env2, st2) := Bind(env, st1, param, o.j.v);
        var (o3, st3) := ExecSeq(w, fuel, catchBody, env2, st2);
        (o3, env, st3)
      else (o, env, st1)
    case FnDecl(name, params, body) =>
      // the cell comes first, so that the function can call itself
      var (env1, st1) := if name in env.vars then (env, st) else Bind(env, st, name, NilV);
      (Normal, env1, Write(st1, env1.vars[name], Closure(params, body, env1.(local := {}))))
    case Handler(kind, operands, params, body) =>
      var (r, st1) := EvalExprs(w, fuel, operands, env, st);
      if r.StopList? then (Abrupt(r.j), env, st1)
      else
        var (o, st2) := w.prim(OpHandler(kind), r.vs + [Closure(params, body, env)], st1);
        (if o.Stop? then Abrupt(o.j) else Normal, env, st2)
    case Publish(topic, value) =>
      SizePair(topic, value);
      var (r, st1) := EvalExprs(w, fuel, [topic, value], env, st);
      if r.StopList? then (Abrupt(r.j), env, st1)
      else
        var (o, st2) := w.prim(OpPublish, r.vs, st1);
        (if o.Stop? then Abrupt(o.j) else Normal, env, st2)
    case Spawn(call, limit) =>
      // the call itself runs later, on its own goroutine
      SizeOptionSeq(limit);
      var (r, st1) := EvalExprs(w, fuel, OptionSeq(limit), env, st);
      if r.StopList? then (Abrupt(r.j), env, st1)
      else
        var (o, st2) := w.prim(OpSpawn, r.vs + [Closure([], [ExprStmt(call)], env)], st1);
        (if o.Stop? then Abrupt(o.j) else Normal, env, st2)
    case Export(inner) => Exec(w, fuel, inner, env, st)
  }

  /** A block: bindings made inside do not outlive it. */
  function ExecSeq(w: World, fuel: nat, ss: seq<Stmt>, env: Env, st: Store): (StmtOut, Store)
    decreases fuel, 2, SizeStmts(ss), 2
  {
    if ss == [] then (Normal, st)
    else
      var (o, env1, st1) := ExecHead(w, fuel, ss, env, st);
      if o.Abrupt? then (o, st1) else ExecSeq(w, fuel, ss[1..], env1, st1)
  }

  function ExecHead(w: World, fuel: nat, ss: seq<Stmt>, env: Env, st: Store): (StmtOut, Env, Store)
    requires ss != []
    decreases fuel, 2, SizeStmt(ss[0]), 1
  {
    Exec(w, fuel, ss[0], env, st)
  }

  function LoopCond(w: World, fuel: nat, cond: Expr, body: seq<Stmt>, env: Env, st: Store): (StmtOut, Store)
    decreases fuel, 0
  {
    if fuel == 0 then (Abrupt(OutOfFuel), st)
    else
      var (r, st1) := EvalExpr(w, fuel - 1, cond, env, st);
      if r.Stop? then (Abrupt(r.j), st1)
      else if !Truthy(w, r.v) then (Normal, st1)
      else
        var (o, st2) := ExecSeq(w, fuel - 1, body, env, st1);
        if o == Abrupt(BreakJ) then (Normal, st2)
        else if o == Normal || o == Abrupt(ContinueJ) then LoopCond(w, fuel - 1, cond, body, env, st2)
        else (o, st2)
  }

  /** The loop variables of `for x in c` and `for k, x in c`. */
  function ItemArgs(names: seq<string>, item: (Value, Value)): seq<Value> {
    if |names| == 1 then [item.1] else [item.0, item.1]
  }

  function LoopIn(w: World, fuel: nat, names: seq<string>, items: seq<(Value, Value)>, body: seq<Stmt>,
                  env: Env, st: Store): (StmtOut, Store)
    decreases fuel, 0
  {
    if items == [] then (Normal, st)
    else if fuel == 0 then (Abrupt(OutOfFuel), st)
    else
      var (env1, st1) := BindParams(env, st, names, ItemArgs(names, items[0]));
      var (o, st2) := ExecSeq(w, fuel - 1, body, env1, st1);
      if o == Abrupt(BreakJ) then (Normal, st2)
      else if o == Normal || o == Abrupt(ContinueJ) then LoopIn(w, fuel - 1, names, items[1..], body, env, st2)
      else (o, st2)
  }

  /** The first case equal to `v`, else the default, wherever it stands. */
  function ExecCases(w: World, fuel: nat, v: Value, cases: seq<Case>, dflt: Else, env: Env, st: Store): (StmtOut, Store)
    decreases fuel, 2, SizeCases(cases) + (if dflt.Else? then SizeStmts(dflt.body) else 0), 4
  {
    if cases == [] then
      if dflt.Else? then ExecDefault(w, fuel, dflt.body, env, st) else (Normal, st)
    else if cases[0].value.None? then
      ExecCases(w, fuel, v, cases[1..], Else(cases[0].body), env, st)
    else
      var (r, st1) := EvalExpr(w, fuel, cases[0].value.value, env, st);
      if r.Stop? then (Abrupt(r.j), st1)
      else
        var (q, st2) := BinOp(w, Eq, v, r.v, st1);
        if q.Stop? then (Abrupt(q.j), st2)
        else if Truthy(w, q.v) then ExecSeq(w, fuel, cases[0].body, env, st2)
        else ExecCases(w, fuel, v, cases[1..], dflt, env, st2)
  }

  function ExecDefault(w: World, fuel: nat, body: seq<Stmt>, env: Env, st: Store): (StmtOut, Store)
    decreases fuel, 2, SizeStmts(body), 3
  {
    ExecSeq(w, fuel, body, env, st)
  }
}
