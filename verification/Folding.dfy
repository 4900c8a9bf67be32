// What the folds of the optimizer come to, operator by operator.
module Folding {
  import opened Options
  import opened GoInt
  import opened Ast
  import opened Semantics
  import opened Optimizer

  /** A proper prefix, or the smaller byte where the strings first differ. */
  ghost predicate Before(a: string, b: string) {
    a < b || exists k :: 0 <= k < |a| && k < |b| && a[..k] == b[..k] && a[k] < b[k]
  }

  lemma StrLessIsBefore(a: string, b: string)
    ensures StrLess(a, b) <==> Before(a, b)
  {
    StrLessIff(a, b);
    if k :| 0 <= k < |a| && k < |b| && a[..k] == b[..k] && a[k] < b[k] { assert SmallerAt(a, b, k); }
  }

  lemma StringsFold(fo: FloatOps, a: string, op: InfixOp, b: string)
    ensures OptExpr(fo, Infix(StrLit(a), op, StrLit(b))) ==
            match op
            case Add => StrLit(a + b)
            case Eq => BoolLit(a == b)
            case Neq => BoolLit(a != b)
            case Lt => BoolLit(Before(a, b))
            case Gt => BoolLit(Before(b, a))
            case Le => BoolLit(a == b || Before(a, b))
            case Ge => BoolLit(a == b || Before(b, a))
            case _ => Infix(StrLit(a), op, StrLit(b))
  {
    StrLessIsBefore(a, b);
    StrLessIsBefore(b, a);
    StrLessTotal(a, b);
  }

  /** Sums, differences and products are the int64 congruent to the exact result. */
  lemma SumsFold(fo: FloatOps, a: int64, op: InfixOp, b: int64, r: int64)
    requires op == Add || op == Sub || op == Mul
    ensures OptExpr(fo, Infix(IntLit(a), op, IntLit(b))) == IntLit(r) <==>
            ((if op == Add then a + b else if op == Sub then a - b else a * b as int) - r as int) % TWO_64 == 0
  {
    WrapIsCongruent(if op == Add then a + b else if op == Sub then a - b else a * b as int, r);
  }

  /** Quotient and remainder: rounded toward zero, except that the one quotient that
      is no int64 is the smallest int64. */
  lemma QuotientsFold(fo: FloatOps, a: int64, b: int64, q: int, m: int)
    requires b != 0 && a == q * b + m && Abs(m) < Abs(b) && (m != 0 ==> (m < 0 <==> a < 0))
    ensures OptExpr(fo, Infix(IntLit(a), Div, IntLit(b))) == IntLit(if a == -TWO_63 && b == -1 then -TWO_63 else q)
    ensures OptExpr(fo, Infix(IntLit(a), Rem, IntLit(b))) == IntLit(m)
  {
    TruncIsUnique(a, b, q, m);
    QuotientFits(a, b);
    var r := if a == -TWO_63 && b == -1 then -TWO_63 else q;
    WrapIsCongruent(q, r);
    WrapIsCongruent(m, m);
    assert FoldInfix(fo, IntLit(a), Div, IntLit(b)) == Some(IntLit(r));
    assert FoldInfix(fo, IntLit(a), Rem, IntLit(b)) == Some(IntLit(m));
  }

  /** Comparisons of integers; a division by zero and the bit operators are left alone. */
  lemma ComparisonsFold(fo: FloatOps, a: int64, op: InfixOp, b: int64)
    requires op != Add && op != Sub && op != Mul && (op == Div || op == Rem ==> b == 0)
    ensures OptExpr(fo, Infix(IntLit(a), op, IntLit(b))) ==
            match op
            case Eq => BoolLit(a == b)
            case Neq => BoolLit(a != b)
            case Lt => BoolLit(a < b)
            case Gt => BoolLit(a > b)
            case Le => BoolLit(a <= b)
            case Ge => BoolLit(a >= b)
            case _ => Infix(IntLit(a), op, IntLit(b))
  {}

  predicate Number(e: Expr) {
    e.IntLit? || e.FloatLit?
  }

  function AsFloat(fo: FloatOps, e: Expr): Float
    requires Number(e)
  {
    if e.IntLit? then fo.ofInt(e.i) else e.f
  }

  /** An integer beside a float is converted first. */
  lemma FloatsFold(fo: FloatOps, l: Expr, op: InfixOp, r: Expr)
    requires Number(l) && Number(r) && (l.FloatLit? || r.FloatLit?)
    ensures OptExpr(fo, Infix(l, op, r)) ==
            var a, b := AsFloat(fo, l), AsFloat(fo, r);
            match op
            case Add => FloatLit(fo.add(a, b))
            case Sub => FloatLit(fo.sub(a, b))
            case Mul => FloatLit(fo.mul(a, b))
            case Div => if fo.eq(b, fo.ofInt(0)) then Infix(l, op, r) else FloatLit(fo.div(a, b))
            case Eq => BoolLit(fo.eq(a, b))
            case Neq => BoolLit(!fo.eq(a, b))
            case Lt => BoolLit(fo.lt(a, b))
            case Gt => BoolLit(fo.lt(b, a))
            case Le => BoolLit(fo.le(a, b))
            case Ge => BoolLit(fo.le(b, a))
            case _ => Infix(l, op, r)
  {}

  lemma BooleansFold(fo: FloatOps, a: bool, op: InfixOp, b: bool)
    ensures OptExpr(fo, Infix(BoolLit(a), op, BoolLit(b))) ==
            match op
            case And => BoolLit(a && b)
            case Or => BoolLit(a || b)
            case Eq => BoolLit(a == b)
            case Neq => BoolLit(a != b)
            case _ => Infix(BoolLit(a), op, BoolLit(b))
  {}

  /** Minus of a number, and `!` of a boolean; nothing else. */
  lemma PrefixesFold(fo: FloatOps, op: PrefixOp, v: Expr, r: int64)
    requires Number(v) || v.StrLit? || v.BoolLit? || v.NilLit? || v.Ident?
    ensures op == Minus && v.IntLit? ==> (OptExpr(fo, Prefix(op, v)) == IntLit(r) <==> (-(v.i as int) - r as int) % TWO_64 == 0)
    ensures op == Minus && v.FloatLit? ==> OptExpr(fo, Prefix(op, v)) == FloatLit(fo.neg(v.f))
    ensures op == Not && v.BoolLit? ==> OptExpr(fo, Prefix(op, v)) == BoolLit(!v.b)
    ensures (if op == Minus then !Number(v) else !v.BoolLit?) ==> OptExpr(fo, Prefix(op, v)) == Prefix(op, v)
  {
    if v.IntLit? { WrapIsCongruent(-(v.i as int), r); }
  }

  /** The pairs of literals that an operator folds. */
  predicate Foldable(fo: FloatOps, l: Expr, op: InfixOp, r: Expr) {
    var comparison := op in {Eq, Neq, Lt, Gt, Le, Ge};
    if l.IntLit? && r.IntLit? then op in {Add, Sub, Mul} || comparison || (op in {Div, Rem} && r.i != 0)
    else if Number(l) && Number(r) then
      op in {Add, Sub, Mul} || comparison || (op == Div && !fo.eq(AsFloat(fo, r), fo.ofInt(0)))
    else if l.StrLit? && r.StrLit? then op == Add || comparison
    else l.BoolLit? && r.BoolLit? && op in {And, Or, Eq, Neq}
  }

  lemma FoldableIff(fo: FloatOps, l: Expr, op: InfixOp, r: Expr)
    ensures var folded := FoldInfix(fo, l, op, r);
      if Foldable(fo, l, op, r) then folded.Some? && (Number(folded.value) || folded.value.StrLit? || folded.value.BoolLit?)
      else folded.None?
  {}

  /** An infix node goes away exactly when its optimized operands are such literals. */
  lemma FoldsIff(fo: FloatOps, l: Expr, op: InfixOp, r: Expr)
    ensures var e, l1, r1 := OptExpr(fo, Infix(l, op, r)), OptExpr(fo, l), OptExpr(fo, r);
      if Foldable(fo, l1, op, r1) then Number(e) || e.StrLit? || e.BoolLit? else e == Infix(l1, op, r1)
  {
    FoldableIff(fo, OptExpr(fo, l), op, OptExpr(fo, r));
  }
}
