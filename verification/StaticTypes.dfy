// The type inference that steers code generation (getExpressionType in
// compiler/codegen_types.go), and that the optimizer does not disturb it.
module StaticTypes {
  import opened GoInt
  import opened Ast
  import opened Semantics
  import opened Optimizer

  datatype Ty = IntT | FloatT | StringT | BoolT | AnyT | ArrayT(elem: Ty) | NamedT(name: string)

  /** What the receiver of a member access looks like to the inference. */
  datatype Receiver = Variable(name: string) | Self | Other

  /** The tables of the code generator: variables, functions, methods and fields. */
  datatype Context = Context(
    varTypes: map<string, Ty>,
    functions: string -> Ty,
    methods: (Receiver, string) -> Ty,
    members: (Receiver, string) -> Ty)

  function ReceiverOf(e: Expr): Receiver {
    if e.Ident? then Variable(e.name) else if e.SelfExpr? then Self else Other
  }

  predicate Comparison(op: InfixOp) {
    op == Eq || op == Neq || op == Lt || op == Gt || op == Le || op == Ge
  }

  function InfixType(op: InfixOp, l: Ty, r: Ty): Ty {
    if Comparison(op) then BoolT
    else if op == BitAnd || op == BitOr || op == BitXor || op == Shl || op == Shr || op == Rem then IntT
    else if l == r && (l == IntT || l == FloatT || l == StringT || l == BoolT) then l
    else if l == AnyT && (r == IntT || r == FloatT || r == StringT) then r
    else if r == AnyT && (l == IntT || l == FloatT || l == StringT) then l
    else if (l == IntT && r == FloatT) || (l == FloatT && r == IntT) then FloatT
    else AnyT
  }

  /** getExpressionType. */
  function TypeOf(c: Context, e: Expr): Ty {
    match e
    case Ident(name) => if name in c.varTypes then c.varTypes[name] else AnyT
    case IntLit(_) => IntT
    case FloatLit(_) => FloatT
    case StrLit(_) => StringT
    case FString(_, _) => StringT
    case DurationLit(_) => StringT
    case BoolLit(_) => BoolT
    case ArrayLit(elems) =>
      if elems == [] || TypeOf(c, elems[0]) == AnyT || !AllOfType(c, elems[1..], TypeOf(c, elems[0])) then ArrayT(AnyT)
      else ArrayT(TypeOf(c, elems[0]))
    case StructLit(typeName, _, _) => NamedT(typeName)
    case SelfExpr => if "self" in c.varTypes then c.varTypes["self"] else AnyT
    case Call(fn, _, _) =>
      if fn.Ident? then c.functions(fn.name)
      else if fn.Member? then c.methods(ReceiverOf(fn.obj), fn.field)
      else AnyT
    case Member(obj, field) => c.members(ReceiverOf(obj), field)
    case Infix(l, op, r) => InfixType(op, TypeOf(c, l), TypeOf(c, r))
    case Index(left, _) =>
      if left.Ident? && left.name in c.varTypes && c.varTypes[left.name].ArrayT? then c.varTypes[left.name].elem else AnyT
    case Slice(left, _, _) =>
      if left.Ident? && left.name in c.varTypes && (c.varTypes[left.name].ArrayT? || c.varTypes[left.name].StringT?)
      then c.varTypes[left.name] else AnyT
    case CompoundAssign(name, _, _) => if name in c.varTypes then c.varTypes[name] else AnyT
    case Prefix(sign, r) => if sign == Not then BoolT else TypeOf(c, r)
    case ErrorProp(v) => TypeOf(c, v)
    case _ => AnyT
  }

  predicate AllOfType(c: Context, es: seq<Expr>, t: Ty) {
    es == [] || (TypeOf(c, es[0]) == t && AllOfType(c, es[1..], t))
  }

  /** Folding is typed as the operator it replaces. */
  lemma FoldType(c: Context, fo: FloatOps, l: Expr, op: InfixOp, r: Expr)
    requires FoldInfix(fo, l, op, r).Some?
    ensures TypeOf(c, FoldInfix(fo, l, op, r).value) == InfixType(op, TypeOf(c, l), TypeOf(c, r))
  {}

  /** Names and receivers survive optimization as they are. */
  lemma NamesKept(fo: FloatOps, e: Expr)
    ensures ReceiverOf(OptExpr(fo, e)) == ReceiverOf(e)
    ensures OptExpr(fo, e).Ident? <==> e.Ident?
    ensures OptExpr(fo, e).Member? <==> e.Member?
    ensures e.Member? ==> OptExpr(fo, e).field == e.field
  {}

  /** The optimizer keeps the static type of every expression. */
  lemma {:induction false} OptimizeKeepsType(c: Context, fo: FloatOps, e: Expr)
    ensures TypeOf(c, OptExpr(fo, e)) == TypeOf(c, e)
    decreases e, 1
  {
    if e.Infix? {
      OptimizeKeepsType(c, fo, e.left);
      OptimizeKeepsType(c, fo, e.right);
      var l, r := OptExpr(fo, e.left), OptExpr(fo, e.right);
      if FoldInfix(fo, l, e.op, r).Some? { FoldType(c, fo, l, e.op, r); }
    } else if e.Prefix? {
      OptimizeKeepsType(c, fo, e.right);
    } else if e.ErrorProp? {
      OptimizeKeepsType(c, fo, e.value);
    } else if e.ArrayLit? {
      if e.elems != [] {
        OptimizeKeepsType(c, fo, e.elems[0]);
        OptimizeKeepsAll(c, fo, e.elems[1..], TypeOf(c, e.elems[0]));
        assert OptExprs(fo, e.elems)[1..] == OptExprs(fo, e.elems[1..]);
      }
    } else if e.Call? {
      NamesKept(fo, e.fn);
      if e.fn.Member? { NamesKept(fo, e.fn.obj); }
    } else if e.Member? {
      NamesKept(fo, e.obj);
    } else if e.Index? {
      NamesKept(fo, e.left);
    } else if e.Slice? {
      NamesKept(fo, e.left);
    }
  }

  lemma {:induction false} OptimizeKeepsAll(c: Context, fo: FloatOps, es: seq<Expr>, t: Ty)
    ensures AllOfType(c, OptExprs(fo, es), t) == AllOfType(c, es, t)
    decreases es, 0
  {
    if es != [] {
      OptimizeKeepsType(c, fo, es[0]);
      OptimizeKeepsAll(c, fo, es[1..], t);
      assert OptExprs(fo, es)[1..] == OptExprs(fo, es[1..]);
    }
  }

  /** The type of a value that is no reference and no function. */
  function ValueType(v: Value): Ty {
    match v
    case IntV(_) => IntT
    case FloatV(_) => FloatT
    case StrV(_) => StringT
    case BoolV(_) => BoolT
    case _ => AnyT
  }

  /** Wherever the language defines an operator, the inference is right about its result. */
  lemma InfixTypeIsRight(w: World, op: InfixOp, l: Value, r: Value)
    requires NativeOp(w, op, l, r).Some?
    ensures InfixType(op, ValueType(l), ValueType(r)) == ValueType(NativeOp(w, op, l, r).value)
  {}

  /** A value that an expression of this type may have. */
  predicate MayBe(t: Ty, v: Value) {
    t == AnyT || ValueType(v) == t
  }

  /** The inference is right about an operator on any operands of these types, or says nothing. */
  ghost predicate RightAbout(w: World, op: InfixOp, l: Ty, r: Ty) {
    forall x, y :: MayBe(l, x) && MayBe(r, y) && NativeOp(w, op, x, y).Some? ==>
      InfixType(op, l, r) == AnyT || InfixType(op, l, r) == ValueType(NativeOp(w, op, x, y).value)
  }

  /** Beside an integer an operand of unknown type is guessed to be one, and may be a float. */
  ghost predicate Guesses(w: World, op: InfixOp, l: Ty, r: Ty) {
    || ((op == Add || op == Sub || op == Mul) && ((l == AnyT && r == IntT) || (l == IntT && r == AnyT)))
    || (op == Div && l == AnyT && r == IntT && exists i: int64 :: !w.flo.IsZero(w.flo.ofInt(i)))
    || (op == Div && l == IntT && r == AnyT && exists x: Float :: !w.flo.IsZero(x))
  }

  /** It is right exactly where it does not guess in this way. */
  lemma InferenceRightIff(w: World, op: InfixOp, l: Ty, r: Ty)
    ensures RightAbout(w, op, l, r) <==> !Guesses(w, op, l, r)
  {
    if Guesses(w, op, l, r) {
      var x: Float, i: int64 := Float(0), 0;
      if op == Div && l == AnyT { i :| !w.flo.IsZero(w.flo.ofInt(i)); }
      if op == Div && r == AnyT { x :| !w.flo.IsZero(x); }
      GuessCanBeWrong(w, op, x, i, l, r);
    } else {
      forall x, y | MayBe(l, x) && MayBe(r, y) && NativeOp(w, op, x, y).Some?
        ensures InfixType(op, l, r) == AnyT || InfixType(op, l, r) == ValueType(NativeOp(w, op, x, y).value)
      {
        RightWithoutGuess(w, op, l, r, x, y);
      }
    }
  }

  lemma RightWithoutGuess(w: World, op: InfixOp, l: Ty, r: Ty, x: Value, y: Value)
    requires !Guesses(w, op, l, r) && MayBe(l, x) && MayBe(r, y) && NativeOp(w, op, x, y).Some?
    ensures InfixType(op, l, r) == AnyT || InfixType(op, l, r) == ValueType(NativeOp(w, op, x, y).value)
  {
    InfixTypeIsRight(w, op, x, y);
    if op == Div && x.FloatV? && y.IntV? { assert !w.flo.IsZero(w.flo.ofInt(y.i)); }
    if op == Div && x.IntV? && y.FloatV? { assert !w.flo.IsZero(y.f); }
  }

  /** A float in such a place proves it wrong. */
  lemma GuessCanBeWrong(w: World, op: InfixOp, x: Float, i: int64, l: Ty, r: Ty)
    requires op == Add || op == Sub || op == Mul
      || (op == Div && (if l == AnyT then !w.flo.IsZero(w.flo.ofInt(i)) else !w.flo.IsZero(x)))
    requires (l == AnyT && r == IntT) || (l == IntT && r == AnyT)
    ensures InfixType(op, l, r) == IntT && !RightAbout(w, op, l, r)
  {
    var a, b := if l == AnyT then FloatV(x) else IntV(i), if r == AnyT then FloatV(x) else IntV(i);
    assert MayBe(l, a) && MayBe(r, b) && NativeOp(w, op, a, b).Some? && ValueType(NativeOp(w, op, a, b).value) == FloatT;
  }

  /** A literal is typed as what it evaluates to. */
  lemma LiteralTypeIsRight(c: Context, w: World, fuel: nat, e: Expr, env: Env, st: Store)
    requires e.IntLit? || e.FloatLit? || e.StrLit? || e.BoolLit? || e.DurationLit? || e.NilLit?
    ensures var out := EvalExpr(w, fuel, e, env, st).0; out.Val? && TypeOf(c, e) == ValueType(out.v)
  {}

  /** `!` gives a boolean, and minus keeps the type of a number. */
  lemma PrefixTypeIsRight(c: Context, w: World, op: PrefixOp, e: Expr, v: Value, st: Store)
    requires ValueType(v) == TypeOf(c, e) && (op == Minus ==> v.IntV? || v.FloatV?)
    ensures var (out, st1) := UnOp(w, op, v, st); out.Val? && ValueType(out.v) == TypeOf(c, Prefix(op, e)) && st1 == st
  {}

  /** An array has a known element type exactly when all its elements are of that type. */
  lemma ArrayTypeIff(c: Context, elems: seq<Expr>, t: Ty)
    requires t != AnyT
    ensures TypeOf(c, ArrayLit(elems)) == ArrayT(t) <==> elems != [] && forall i :: 0 <= i < |elems| ==> TypeOf(c, elems[i]) == t
  {
    if elems != [] {
      AllOfTypeIff(c, elems[1..], TypeOf(c, elems[0]));
      assert elems == [elems[0]] + elems[1..];
    }
  }

  lemma {:induction false} AllOfTypeIff(c: Context, es: seq<Expr>, t: Ty)
    ensures AllOfType(c, es, t) <==> forall i :: 0 <= i < |es| ==> TypeOf(c, es[i]) == t
  {
    if es != [] {
      AllOfTypeIff(c, es[1..], t);
      assert es == [es[0]] + es[1..];
    }
  }
}
