// A run of operands and binary operators, pipes and assignments, as it is written
// without parentheses: the one tree its precedences allow.
module Precedence {
  import opened Options
  import opened Syntax
  import opened Parsing
  import opened RoundTrip
  import opened Terms

  // ---- How tightly operators bind ----

  /** Products, then sums, then comparisons, then `&&` and `||`. */
  function Strength(op: BinOp): nat {
    if op in {ASTERISK, SLASH, PERCENT, AMPERSAND, SHL, SHR} then 3
    else if op in {PLUS, MINUS, PIPE, CARET} then 2
    else if op in {EQ, NEQ, LT, GT, LTE, GTE} then 1
    else 0
  }

  predicate Tighter(p: BinOp, q: BinOp) {
    Strength(p) > Strength(q)
  }

  lemma TighterIff(p: BinOp, q: BinOp)
    ensures OpPrecedence(p) > OpPrecedence(q) <==> Tighter(p, q)
    ensures PIPE_P < OpPrecedence(p) <= PRODUCT
  {}

  /** Tokens that end an expression, whatever comes before them. */
  predicate Ends(ts: seq<Token>) {
    var t := At(ts, 0);
    !(t.OP? || t.PIPE_ARROW? || t.ASSIGN? || t.COMPOUND_ASSIGN? || t.ARROW? || t.LPAREN? || t.QUESTION? || t.DOT?
      || t.QUESTION_DOT? || t.LBRACKET? || t.LBRACE?)
  }

  /** Tokens that end a run of operators. */
  predicate EndsRun(ts: seq<Token>) {
    var t := At(ts, 0);
    Ends(ts) || t.PIPE_ARROW? || t.ASSIGN? || t.COMPOUND_ASSIGN? || t.ARROW?
  }

  lemma EndsIff(ts: seq<Token>)
    ensures Ends(ts) <==> Safe(ts) && Stops(ts, LOWEST)
    ensures EndsRun(ts) <==> Safe(ts) && Stops(ts, PIPE_P)
  {}

  // ---- Runs and trees ----

  type Item = (BinOp, Term)

  /** An operand, and `op operand` as often as there are items. */
  datatype Run = Run(first: Term, items: seq<Item>) {
    predicate Valid() {
      Operand(first) && Operands(items)
    }

    /** The run as tokens, in front of `ts`. */
    function Before(ts: seq<Token>): seq<Token> {
      Text(first) + (FlatTail(items) + ts)
    }
  }

  function FlatTail(items: seq<Item>): seq<Token> {
    if items == [] then [] else [OP(items[0].0)] + (Text(items[0].1) + FlatTail(items[1..]))
  }

  predicate Operands(items: seq<Item>) {
    forall i :: 0 <= i < |items| ==> Operand(items[i].1)
  }

  function Nodes(items: seq<Item>): (r: seq<(BinOp, Node)>)
    ensures |r| == |items|
  {
    if items == [] then [] else [(items[0].0, Tree(items[0].1))] + Nodes(items[1..])
  }

  /** The operands and operators of a tree from left to right. */
  function InOrder(n: Node): (Node, seq<(BinOp, Node)>) {
    if n.Infix? then
      var (first, ls) := InOrder(n.left);
      var (r, rs) := InOrder(n.right);
      (first, ls + ([(n.op, r)] + rs))
    else (n, [])
  }

  /** No child binds looser than its parent, and the right child binds tighter. */
  predicate Shaped(n: Node) {
    n.Infix? ==>
      && Shaped(n.left) && Shaped(n.right)
      && (n.left.Infix? ==> !Tighter(n.op, n.left.op))
      && (n.right.Infix? ==> Tighter(n.right.op, n.op))
  }

  /** The grouping of a run by precedence, to the left among equals. */
  predicate Grouping(r: Run, tree: Node) {
    var groups := Shaped(tree) && InOrder(tree) == (Tree(r.first), Nodes(r.items));
    groups
  }

  // ---- The parser builds a shaped tree ----

  lemma IsLeaf(t: Term)
    requires Operand(t)
    ensures !Tree(t).Infix? && InOrder(Tree(t)) == (Tree(t), [])
  {}

  lemma FlatTailCons(items: seq<Item>, ts: seq<Token>)
    requires items != []
    ensures FlatTail(items) + ts == [OP(items[0].0)] + (Text(items[0].1) + (FlatTail(items[1..]) + ts))
  {
    Assoc([OP(items[0].0)], Text(items[0].1) + FlatTail(items[1..]), ts);
    Assoc(Text(items[0].1), FlatTail(items[1..]), ts);
  }

  /** What is behind an operand in a run. */
  lemma FlatTailBehind(t: Term, items: seq<Item>, ts: seq<Token>, prec: int)
    requires EndsRun(ts)
    ensures Behind(t, FlatTail(items) + ts)
    ensures prec >= PIPE_P && (items != [] ==> OpPrecedence(items[0].0) <= prec) ==> Stops(FlatTail(items) + ts, prec)
  {
    EndsIff(ts);
    if items == [] { assert FlatTail(items) + ts == ts; }
  }

  /** What the loop at precedence `prec` makes of `left` and the items behind it:
      it takes them while they bind tighter, and leaves `rest`. */
  predicate Climbed(left: Node, items: seq<(BinOp, Node)>, prec: int, tree: Node, rest: seq<(BinOp, Node)>) {
    var climbed :=
      && |rest| <= |items| && rest == items[|items| - |rest|..]
      && Shaped(tree) && (tree.Infix? ==> OpPrecedence(tree.op) > prec)
      && InOrder(tree) == (InOrder(left).0, InOrder(left).1 + items[..|items| - |rest|])
      && (rest != [] ==> OpPrecedence(rest[0].0) <= prec);
    climbed
  }

  lemma {:induction false} LoopClimbs(left: Node, items: seq<Item>, t: Token, ts: seq<Token>, errs: seq<Error>, prec: int)
    returns (tree: Node, rest: seq<Item>, t': Token)
    requires Operands(items) && EndsRun(ts) && LOWEST <= prec < CALL
    requires Shaped(left) && (left.Infix? ==> OpPrecedence(left.op) > prec)
    requires left.Infix? && items != [] ==> OpPrecedence(items[0].0) <= OpPrecedence(left.op)
    ensures Loop(left, State([t] + (FlatTail(items) + ts), errs), prec) == Loop(tree, State([t'] + (FlatTail(rest) + ts), errs), prec)
    ensures |rest| <= |items| && Operands(rest)
    ensures Climbed(left, Nodes(items), prec, tree, Nodes(rest))
    decreases |items|, 1
  {
    if items == [] || OpPrecedence(items[0].0) <= prec {
      tree, rest, t' := left, items, t;
      ClimbsNothing(left, Nodes(items), prec);
    } else {
      var node, rest1, t1 := TakeItem(left, items, t, ts, errs, prec);
      ShapedStep(node);
      tree, rest, t' := LoopClimbs(node, rest1, t1, ts, errs, prec);
      IsLeaf(items[0].1);
      Consumed(left, Nodes(items), node.right, Nodes(rest1), tree, Nodes(rest), prec);
    }
  }

  lemma ClimbsNothing(left: Node, items: seq<(BinOp, Node)>, prec: int)
    requires Shaped(left) && (left.Infix? ==> OpPrecedence(left.op) > prec)
    requires items != [] ==> OpPrecedence(items[0].0) <= prec
    ensures Climbed(left, items, prec, left, items)
  {
    assert InOrder(left).1 + [] == InOrder(left).1;
  }

  lemma ShapedStep(n: Node)
    requires n.Infix? && Shaped(n.left) && Shaped(n.right)
    requires n.left.Infix? ==> OpPrecedence(n.op) <= OpPrecedence(n.left.op)
    requires n.right.Infix? ==> OpPrecedence(n.right.op) > OpPrecedence(n.op)
    ensures Shaped(n)
  {
    if n.left.Infix? { TighterIff(n.op, n.left.op); }
    if n.right.Infix? { TighterIff(n.right.op, n.op); }
  }

  /** One turn: an operator and its right operand. */
  lemma {:induction false} TakeItem(left: Node, items: seq<Item>, t: Token, ts: seq<Token>, errs: seq<Error>, prec: int)
    returns (node: Node, rest: seq<Item>, t': Token)
    requires Operands(items) && EndsRun(ts) && items != [] && prec < OpPrecedence(items[0].0)
    ensures Loop(left, State([t] + (FlatTail(items) + ts), errs), prec) == Loop(node, State([t'] + (FlatTail(rest) + ts), errs), prec)
    ensures node.Infix? && node.left == left && node.op == items[0].0
    ensures |rest| < |items| && Operands(rest)
    ensures Climbed(Tree(items[0].1), Nodes(items[1..]), OpPrecedence(items[0].0), node.right, Nodes(rest))
    decreases |items|, 0
  {
    var op, x, more := items[0].0, items[0].1, items[1..];
    TighterIff(op, op);
    FlatTailCons(items, ts);
    FlatTailBehind(x, more, ts, LOWEST);
    var last := ReadsTerm(x, FlatTail(more) + ts, errs, OpPrecedence(op));
    IsLeaf(x);
    var right, rest1, t1 := LoopClimbs(Tree(x), more, last, ts, errs, OpPrecedence(op));
    FlatTailBehind(x, rest1, ts, OpPrecedence(op));
    LoopStops(right, t1, FlatTail(rest1) + ts, errs, OpPrecedence(op));
    OperatorStep(left, op, right, t, t1, Text(x) + (FlatTail(more) + ts), FlatTail(rest1) + ts, errs, prec);
    node, rest, t' := Infix(left, op, right), rest1, t1;
  }

  lemma OperatorStep(l: Node, op: BinOp, r: Node, t: Token, t': Token, inner: seq<Token>, rest: seq<Token>, errs: seq<Error>, prec: int)
    requires Expression(State(inner, errs), OpPrecedence(op)) == (r, State([t'] + rest, errs)) && prec < OpPrecedence(op)
    ensures Loop(l, State([t] + ([OP(op)] + inner), errs), prec) == Loop(Infix(l, op, r), State([t'] + rest, errs), prec)
  {
    LoopInfix(l, t, [OP(op)] + inner, errs, prec);
    Step(OP(op), inner, errs);
  }

  /** What two turns of the loop consumed, put together. */
  lemma Consumed(left: Node, items: seq<(BinOp, Node)>, right: Node, rest1: seq<(BinOp, Node)>, tree: Node, rest: seq<(BinOp, Node)>, prec: int)
    requires items != [] && Climbed(items[0].1, items[1..], OpPrecedence(items[0].0), right, rest1) && !items[0].1.Infix?
    requires Climbed(Infix(left, items[0].0, right), rest1, prec, tree, rest)
    ensures Climbed(left, items, prec, tree, rest)
  {
    var l, rs, n, k := InOrder(left).1, InOrder(right).1, |items| - |rest1|, |items| - |rest|;
    assert items[0] == (items[0].0, items[0].1);
    assert rs == items[1..n];
    assert rest1[..|rest1| - |rest|] == items[n..k];
    assert InOrder(Infix(left, items[0].0, right)) == (InOrder(left).0, l + ([items[0]] + rs));
    Splice(l, items, n, k);
  }

  lemma Splice<T>(l: seq<T>, items: seq<T>, n: nat, k: nat)
    requires 1 <= n <= k <= |items|
    ensures (l + ([items[0]] + items[1..n])) + items[n..k] == l + items[..k]
  {}

  /** The parser takes the whole run in, and its loop goes on with the grouping of it. */
  lemma RunGroups(r: Run, ts: seq<Token>, errs: seq<Error>, prec: int) returns (tree: Node, t: Token)
    requires r.Valid() && EndsRun(ts) && LOWEST <= prec <= PIPE_P
    ensures Expression(State(r.Before(ts), errs), prec) == Loop(tree, State([t] + ts, errs), prec)
    ensures Grouping(r, tree)
  {
    FlatTailBehind(r.first, r.items, ts, prec);
    var last := ReadsTerm(r.first, FlatTail(r.items) + ts, errs, prec);
    IsLeaf(r.first);
    var rest;
    tree, rest, t := LoopClimbs(Tree(r.first), r.items, last, ts, errs, prec);
    if rest != [] { TighterIff(rest[0].0, rest[0].0); }
    assert FlatTail(rest) + ts == ts;
    assert Nodes(r.items)[..|r.items|] == Nodes(r.items) && [] + Nodes(r.items) == Nodes(r.items);
  }

  // ---- Only one tree is shaped that way ----

  /** In a shaped tree the root is the last of its loosest operators. */
  lemma {:induction false} RootIsLoosest(n: Node, i: nat)
    requires Shaped(n) && n.Infix? && i < |InOrder(n).1|
    ensures |InOrder(n).1| == |InOrder(n.left).1| + 1 + |InOrder(n.right).1|
    ensures InOrder(n).1[|InOrder(n.left).1|].0 == n.op
    ensures !Tighter(n.op, InOrder(n).1[i].0)
    ensures i > |InOrder(n.left).1| ==> Tighter(InOrder(n).1[i].0, n.op)
    decreases n
  {
    var ls, rs := InOrder(n.left).1, InOrder(n.right).1;
    if i < |ls| {
      assert InOrder(n).1[i] == ls[i];
      RootIsLoosest(n.left, i);
    } else if i > |ls| {
      assert InOrder(n).1[i] == rs[i - |ls| - 1];
      RootIsLoosest(n.right, i - |ls| - 1);
    }
  }

  lemma {:induction false} ShapedIsUnique(a: Node, b: Node)
    requires Shaped(a) && Shaped(b) && InOrder(a) == InOrder(b)
    ensures a == b
    decreases a
  {
    if a.Infix? {
      assert b.Infix?;
      var k, m := |InOrder(a.left).1|, |InOrder(b.left).1|;
      RootIsLoosest(a, k); RootIsLoosest(b, m);
      RootIsLoosest(a, m); RootIsLoosest(b, k);
      assert k == m;
      var items := InOrder(a).1;
      assert items[..k] == InOrder(a.left).1 && items[k + 1..] == InOrder(a.right).1;
      assert items[..k] == InOrder(b.left).1 && items[k + 1..] == InOrder(b.right).1;
      ShapedIsUnique(a.left, b.left);
      ShapedIsUnique(a.right, b.right);
    }
  }

  /** parseExpression(LOWEST) reads the whole run, without an error, and answers the
      one tree that groups it. */
  lemma ParsesByPrecedence(r: Run, ts: seq<Token>, errs: seq<Error>, tree: Node)
    requires r.Valid() && Ends(ts)
    ensures var parsed := Expression(State(r.Before(ts), errs), LOWEST);
            && (parsed.0 == tree <==> Grouping(r, tree))
            && parsed.1.toks != [] && parsed.1.toks[1..] == ts && parsed.1.errs == errs
  {
    EndsIff(ts);
    var found, t := RunGroups(r, ts, errs, LOWEST);
    LoopStops(found, t, ts, errs, LOWEST);
    if Grouping(r, tree) { ShapedIsUnique(found, tree); }
  }

  /** `x q y p z` is `x q (y p z)` when `p` binds tighter than `q`, else `(x q y) p z`. */
  lemma TwoOperators(x: Term, q: BinOp, y: Term, p: BinOp, z: Term, ts: seq<Token>, errs: seq<Error>)
    requires Operand(x) && Operand(y) && Operand(z) && Ends(ts)
    ensures Expression(State(Text(x) + ([OP(q)] + (Text(y) + ([OP(p)] + (Text(z) + ts)))), errs), LOWEST).0 ==
            if Tighter(p, q) then Infix(Tree(x), q, Infix(Tree(y), p, Tree(z)))
            else Infix(Infix(Tree(x), q, Tree(y)), p, Tree(z))
  {
    var r := Run(x, [(q, y), (p, z)]);
    FlatTailCons(r.items, ts);
    assert r.items[1..] == [(p, z)];
    OneItem(p, z, ts);
    IsLeaf(x); IsLeaf(y); IsLeaf(z);
    var tree := GroupTwo(Tree(x), q, Tree(y), p, Tree(z));
    assert Nodes(r.items) == [(q, Tree(y)), (p, Tree(z))];
    ParsesByPrecedence(r, ts, errs, tree);
  }

  lemma OneItem(p: BinOp, z: Term, ts: seq<Token>)
    ensures FlatTail([(p, z)]) + ts == [OP(p)] + (Text(z) + ts)
    ensures Nodes([(p, z)]) == [(p, Tree(z))]
  {
    FlatTailCons([(p, z)], ts);
    assert [(p, z)][1..] == [] && FlatTail([]) + ts == ts;
  }

  lemma GroupTwo(x: Node, q: BinOp, y: Node, p: BinOp, z: Node) returns (tree: Node)
    requires !x.Infix? && !y.Infix? && !z.Infix?
    ensures tree == if Tighter(p, q) then Infix(x, q, Infix(y, p, z)) else Infix(Infix(x, q, y), p, z)
    ensures Shaped(tree) && InOrder(tree) == (x, [(q, y), (p, z)])
  {
    GroupOne(x, q, y);
    GroupOne(y, p, z);
    if Tighter(p, q) {
      tree := Infix(x, q, Infix(y, p, z));
      assert [] + ([(q, y)] + [(p, z)]) == [(q, y), (p, z)];
    } else {
      tree := Infix(Infix(x, q, y), p, z);
      assert [(q, y)] + ([(p, z)] + []) == [(q, y), (p, z)];
    }
  }

  lemma GroupOne(x: Node, q: BinOp, y: Node)
    requires !x.Infix? && !y.Infix?
    ensures Shaped(Infix(x, q, y)) && InOrder(Infix(x, q, y)) == (x, [(q, y)])
  {
    assert [] + ([(q, y)] + []) == [(q, y)];
  }

  /** A sign in front of an operand is applied before any operator. */
  lemma SignsBindFirst(sign: Token, x: Term, p: BinOp, y: Term, ts: seq<Token>, errs: seq<Error>)
    requires Operand(x) && Operand(y) && Ends(ts) && (sign == OP(MINUS) || sign == BANG)
    ensures Expression(State([sign] + (Text(x) + ([OP(p)] + (Text(y) + ts))), errs), LOWEST).0 ==
            Infix(if sign == BANG then Not(Tree(x)) else Negate(Tree(x)), p, Tree(y))
  {
    var r := Run(Signed(sign, x), [(p, y)]);
    OneItem(p, y, ts);
    Assoc([sign], Text(x), FlatTail(r.items) + ts);
    IsLeaf(y);
    GroupOne(Tree(r.first), p, Tree(y));
    ParsesByPrecedence(r, ts, errs, Infix(Tree(r.first), p, Tree(y)));
  }
}
