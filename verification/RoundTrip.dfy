// Printing an expression and parsing the result gives the expression back, from inside
// any text that does not continue it. The parser guesses by looking ahead: at type
// arguments behind a name, at a struct literal behind a brace, at a parameter list
// behind a parenthesis. No guess goes wrong on printed text; the rest of the proof
// follows the shape of the tree.
module RoundTrip {
  import opened Syntax
  import opened Parsing

  // ---- Token sequences ----

  lemma Assoc(a: seq<Token>, b: seq<Token>, c: seq<Token>)
    ensures (a + b) + c == a + (b + c)
  {}

  lemma Step(t: Token, ts: seq<Token>, errs: seq<Error>)
    ensures State([t] + ts, errs).Cur() == t
    ensures State([t] + ts, errs).Peek() == At(ts, 0)
    ensures State([t] + ts, errs).Next() == State(ts, errs)
    ensures ts != [] ==> State([t] + ts, errs).Ahead() == ts[1..]
  {
    assert ([t] + ts)[1..] == ts;
    if ts != [] { assert ([t] + ts)[2..] == ts[1..]; }
  }

  // ---- Printed text ----

  predicate PrintableAny(n: Node) {
    Printable(n) || (n.Spread? && Printable(n.value))
  }

  lemma ElementPrintable(ns: seq<Node>, spreads: bool)
    requires AllPrintable(ns, spreads) && ns != []
    ensures PrintableAny(ns[0]) && AllPrintable(ns[1..], spreads)
  {}

  /** A printed expression starts with the token of an operand and holds no brace. */
  lemma {:induction false} PrintedShape(n: Node)
    requires PrintableAny(n)
    ensures Print(n) != [] && LBRACE !in Print(n)
    ensures var t := Print(n)[0]; t.IDENT? || t.LIT? || t.KEYWORD? || t.LPAREN? || t.LBRACKET? || t.SPREAD?
    ensures Printable(n) ==> !Print(n)[0].SPREAD?
    decreases n, 0
  {
    match n
    case Infix(l, _, r) => PrintedShape(l); PrintedShape(r);
    case Negate(r) => PrintedShape(r);
    case Not(r) => PrintedShape(r);
    case Index(l, i) => PrintedShape(l); PrintedShape(i);
    case Member(obj, _, _) => PrintedShape(obj);
    case Call(fn, _, args) => PrintedShape(fn); ListNoBrace(args, false);
    case Array(elems) => ListNoBrace(elems, true);
    case Spread(v) => PrintedShape(v);
    case _ =>
  }

  lemma {:induction false} ListNoBrace(ns: seq<Node>, spreads: bool)
    requires AllPrintable(ns, spreads)
    ensures LBRACE !in PrintList(ns) && LBRACE !in PrintTail(ns)
    decreases ns, 0
  {
    if ns != [] {
      ElementPrintable(ns, spreads);
      PrintedShape(ns[0]);
      ListNoBrace(ns[1..], spreads);
    }
  }

  // ---- No lookahead fires on printed text ----

  /** Reading past a printed expression, the type-argument lookahead either gives up
      or is where it was, some tokens later. */
  lemma {:induction false} AheadPasses(n: Node, ts: seq<Token>, depth: nat, seen: nat, follow: Token) returns (seen': nat)
    requires PrintableAny(n) && TypeArgsAhead(Print(n) + ts, depth, seen, follow)
    ensures seen <= seen' && TypeArgsAhead(ts, depth, seen', follow)
    decreases n, 0
  {
    PrintedShape(n);
    var all := Print(n) + ts;
    assert all[0] == Print(n)[0];
    if n.Name? {
      assert all[1..] == ts;
      seen' := seen + 1;
    } else if n.Array? {
      assert all[1..] == (PrintList(n.elems) + [RBRACKET]) + ts;
      Assoc(PrintList(n.elems), [RBRACKET], ts);
      var s1 := ListPasses(n.elems, [RBRACKET] + ts, depth + 1, seen + 1, follow);
      assert ([RBRACKET] + ts)[1..] == ts;
      seen' := s1 + 1;
    } else if n.Member? {
      var tail := [if n.optional then QUESTION_DOT else DOT, Word(n.field)];
      Assoc(Print(n.obj), tail, ts);
      var s1 := AheadPasses(n.obj, tail + ts, depth, seen, follow);
      assert false;
    } else if n.Call? {
      var tail := [LPAREN] + (PrintList(n.args) + [RPAREN]);
      Assoc(Print(n.fn), tail, ts);
      var s1 := AheadPasses(n.fn, tail + ts, depth, seen, follow);
      assert false;
    } else {
      assert false;
    }
  }

  lemma {:induction false} ListPasses(ns: seq<Node>, ts: seq<Token>, depth: nat, seen: nat, follow: Token) returns (seen': nat)
    requires AllPrintable(ns, true) && TypeArgsAhead(PrintList(ns) + ts, depth, seen, follow)
    ensures seen <= seen' && TypeArgsAhead(ts, depth, seen', follow)
    decreases ns, 1
  {
    if ns == [] {
      assert PrintList(ns) + ts == ts;
      seen' := seen;
    } else {
      ElementPrintable(ns, true);
      Assoc(Print(ns[0]), PrintTail(ns[1..]), ts);
      var s1 := AheadPasses(ns[0], PrintTail(ns[1..]) + ts, depth, seen, follow);
      seen' := TailPasses(ns[1..], ts, depth, s1, follow);
    }
  }

  lemma {:induction false} TailPasses(ns: seq<Node>, ts: seq<Token>, depth: nat, seen: nat, follow: Token) returns (seen': nat)
    requires AllPrintable(ns, true) && TypeArgsAhead(PrintTail(ns) + ts, depth, seen, follow)
    ensures seen <= seen' && TypeArgsAhead(ts, depth, seen', follow)
    decreases ns, 0
  {
    if ns == [] {
      assert PrintTail(ns) + ts == ts;
      seen' := seen;
    } else {
      ElementPrintable(ns, true);
      var rest := Print(ns[0]) + PrintTail(ns[1..]);
      assert (PrintTail(ns) + ts)[1..] == rest + ts;
      Assoc(Print(ns[0]), PrintTail(ns[1..]), ts);
      var s1 := AheadPasses(ns[0], PrintTail(ns[1..]) + ts, depth, seen + 1, follow);
      seen' := TailPasses(ns[1..], ts, depth, s1, follow);
    }
  }

  /** What follows a printed expression must not turn its last name into a struct
      literal or a generic call. */
  predicate Safe(ts: seq<Token>) {
    !At(ts, 0).LBRACE? &&
    (At(ts, 0).LBRACKET? ==> !TypeArgsAhead(ts[1..], 0, 0, LPAREN) && !TypeArgsAhead(ts[1..], 0, 0, LBRACE))
  }

  /** A printed index is safe after its operand: the bracket closes onto `)`. */
  lemma IndexIsSafe(i: Node, ts: seq<Token>)
    requires Printable(i)
    ensures Safe([LBRACKET] + (Print(i) + ([RBRACKET, RPAREN] + ts)))
  {
    assert [RBRACKET, RPAREN] + ts == [RBRACKET] + ([RPAREN] + ts);
    BracketIsSafe(i, [RBRACKET] + ([RPAREN] + ts));
  }

  /** So is one whose bracket closes in front of anything but `(` and `{`, and the
      start of a slice. */
  lemma BracketIsSafe(i: Node, close: seq<Token>)
    requires Printable(i)
    requires At(close, 0).COLON? || (At(close, 0).RBRACKET? && !At(close, 1).LPAREN? && !At(close, 1).LBRACE?)
    ensures Safe([LBRACKET] + (Print(i) + close))
  {
    var all := [LBRACKET] + (Print(i) + close);
    assert all[1..] == Print(i) + close;
    forall follow | follow == LPAREN || follow == LBRACE
      ensures !TypeArgsAhead(all[1..], 0, 0, follow)
    {
      if TypeArgsAhead(all[1..], 0, 0, follow) {
        var seen := AheadPasses(i, close, 0, 0, follow);
      }
    }
  }

  /** Printed arguments are never taken for a parameter list. */
  lemma ArgsAreNotParams(args: seq<Node>, ts: seq<Token>)
    requires AllPrintable(args, false) && !At(ts, 0).LBRACE?
    ensures !ParamListAhead(PrintList(args) + ([RPAREN] + ts))
  {
    ListNoBrace(args, false);
    var all := PrintList(args) + ([RPAREN] + ts);
    if |PrintList(args)| == 0 {
      assert all[0] == RPAREN;
    } else if |PrintList(args)| == 1 {
      assert At(all, 2) == At(ts, 0);
    } else if |PrintList(args)| == 2 {
      assert all[2] == RPAREN;
    } else {
      assert all[2] == PrintList(args)[2];
    }
  }

  // ---- The round trip ----

  /** The current token once a printed expression has been read; a field name is
      always retagged as an identifier. */
  function Last(n: Node): Token {
    match n
    case Name(id) => IDENT(id)
    case Literal(kind, text) => LIT(kind, text)
    case Bool(b) => KEYWORD(if b then "true" else "false")
    case Nil => KEYWORD("nil")
    case Self => KEYWORD("self")
    case Member(_, field, _) => IDENT(field)
    case Array(_) => RBRACKET
    case Spread(v) => Last(v)
    case _ => RPAREN
  }

  /** The loop stops in front of `ts`. */
  predicate Stops(ts: seq<Token>, prec: int) {
    Precedence(At(ts, 0)) <= prec
  }

  lemma LoopStops(n: Node, t: Token, ts: seq<Token>, errs: seq<Error>, prec: int)
    requires Stops(ts, prec) && prec >= LOWEST
    ensures Loop(n, State([t] + ts, errs), prec) == (n, State([t] + ts, errs))
  {
    Step(t, ts, errs);
  }

  /** A printed operand is read whole, and the loop goes on from there. */
  lemma {:induction false} ReadsOperand(n: Node, ts: seq<Token>, errs: seq<Error>, prec: int)
    requires Printable(n) && Safe(ts) && prec < CALL
    ensures Print(n) != []
    ensures Expression(State(Print(n) + ts, errs), prec) == Loop(n, State([Last(n)] + ts, errs), prec)
    decreases n, 2
  {
    PrintedShape(n);
    match n
    case Name(id) => ReadsName(id, ts, errs, prec);
    case Literal(kind, text) => Step(LIT(kind, text), ts, errs);
    case Bool(b) => ReadsKeyword(n, if b then "true" else "false", ts, errs, prec);
    case Nil => ReadsKeyword(n, "nil", ts, errs, prec);
    case Self => ReadsKeyword(n, "self", ts, errs, prec);
    case Infix(_, _, _) => ReadsInfix(n, ts, errs, prec);
    case Negate(r) => ReadsPrefix(n, r, OP(MINUS), ts, errs, prec);
    case Not(r) => ReadsPrefix(n, r, BANG, ts, errs, prec);
    case Index(_, _) => ReadsIndex(n, ts, errs, prec);
    case Member(_, _, _) => ReadsMember(n, ts, errs, prec);
    case Call(_, _, _) => ReadsCall(n, ts, errs, prec);
    case Array(_) => ReadsArray(n, ts, errs, prec);
  }

  lemma ReadsName(id: string, ts: seq<Token>, errs: seq<Error>, prec: int)
    requires id !in KEYWORDS && Safe(ts)
    ensures Expression(State([Word(id)] + ts, errs), prec) == Loop(Name(id), State([Word(id)] + ts, errs), prec)
  {
    Step(IDENT(id), ts, errs);
    assert Identifier(id, State([IDENT(id)] + ts, errs)) == (Name(id), State([IDENT(id)] + ts, errs));
  }

  lemma ReadsKeyword(n: Node, word: string, ts: seq<Token>, errs: seq<Error>, prec: int)
    requires KeywordForm(word, State([KEYWORD(word)] + ts, errs)) == (n, State([KEYWORD(word)] + ts, errs))
    ensures Expression(State([KEYWORD(word)] + ts, errs), prec) == Loop(n, State([KEYWORD(word)] + ts, errs), prec)
  {
    Step(KEYWORD(word), ts, errs);
  }

  /** ... and when nothing after it binds, it is the whole expression. */
  lemma {:induction false} ReadsExpression(n: Node, ts: seq<Token>, errs: seq<Error>, prec: int)
    requires Printable(n) && Safe(ts) && LOWEST <= prec < CALL && Stops(ts, prec)
    ensures Print(n) != []
    ensures Expression(State(Print(n) + ts, errs), prec) == (n, State([Last(n)] + ts, errs))
    decreases n, 3
  {
    ReadsOperand(n, ts, errs, prec);
    LoopStops(n, Last(n), ts, errs, prec);
  }

  /** A parenthesised expression, up to and including the closing parenthesis. */
  lemma Parenthesised(inner: seq<Token>, n: Node, t: Token, ts: seq<Token>, errs: seq<Error>, prec: int)
    requires Expression(State(inner, errs), LOWEST) == (n, State([t] + ([RPAREN] + ts), errs))
    ensures Expression(State([LPAREN] + inner, errs), prec) == Loop(n, State([RPAREN] + ts, errs), prec)
  {
    Step(LPAREN, inner, errs);
    Step(t, [RPAREN] + ts, errs);
    Step(RPAREN, ts, errs);
  }

  lemma {:induction false} ReadsInfix(n: Node, ts: seq<Token>, errs: seq<Error>, prec: int)
    requires Printable(n) && n.Infix?
    ensures Expression(State(Print(n) + ts, errs), prec) == Loop(n, State([RPAREN] + ts, errs), prec)
    decreases n, 0
  {
    var Infix(l, op, r) := n;
    var close := [RPAREN] + ts;
    var right := [OP(op)] + (Print(r) + close);
    var inner := Print(l) + right;
    InfixText(l, op, r, ts);
    ReadsOperand(l, right, errs, LOWEST);
    ReadsExpression(r, close, errs, OpPrecedence(op));
    InfixStep(l, op, r, Last(l), Last(r), Print(r) + close, close, errs);
    LoopStops(n, Last(r), close, errs, LOWEST);
    Parenthesised(inner, n, Last(r), ts, errs, prec);
  }

  lemma InfixText(l: Node, op: BinOp, r: Node, ts: seq<Token>)
    ensures Print(Infix(l, op, r)) + ts == [LPAREN] + (Print(l) + ([OP(op)] + (Print(r) + ([RPAREN] + ts))))
  {
    Assoc(Print(r), [RPAREN], ts);
    Assoc([OP(op)], Print(r) + [RPAREN], ts);
    Assoc(Print(l), [OP(op)] + (Print(r) + [RPAREN]), ts);
    Assoc([LPAREN], Print(l) + ([OP(op)] + (Print(r) + [RPAREN])), ts);
  }

  /** The loop, in front of an operator whose right operand is known. */
  lemma InfixStep(l: Node, op: BinOp, r: Node, t: Token, t': Token, inner: seq<Token>, rest: seq<Token>, errs: seq<Error>)
    requires Expression(State(inner, errs), OpPrecedence(op)) == (r, State([t'] + rest, errs))
    ensures Loop(l, State([t] + ([OP(op)] + inner), errs), LOWEST) == Loop(Infix(l, op, r), State([t'] + rest, errs), LOWEST)
  {
    Step(t, [OP(op)] + inner, errs);
    Step(OP(op), inner, errs);
  }

  lemma {:induction false} ReadsPrefix(n: Node, r: Node, sign: Token, ts: seq<Token>, errs: seq<Error>, prec: int)
    requires Printable(r) && ((n == Negate(r) && sign == OP(MINUS)) || (n == Not(r) && sign == BANG))
    ensures Expression(State(Print(n) + ts, errs), prec) == Loop(n, State([RPAREN] + ts, errs), prec)
    decreases n, 0
  {
    var close := [RPAREN] + ts;
    var inner := [sign] + (Print(r) + close);
    assert Print(n) + ts == [LPAREN] + inner;
    ReadsExpression(r, close, errs, PRODUCT);
    PrefixStep(n, r, sign, Last(r), Print(r) + close, close, errs, LOWEST);
    LoopStops(n, Last(r), close, errs, LOWEST);
    Parenthesised(inner, n, Last(r), ts, errs, prec);
  }

  lemma PrefixStep(n: Node, r: Node, sign: Token, t: Token, inner: seq<Token>, rest: seq<Token>, errs: seq<Error>, prec: int)
    requires (n == Negate(r) && sign == OP(MINUS)) || (n == Not(r) && sign == BANG)
    requires Expression(State(inner, errs), PRODUCT) == (r, State([t] + rest, errs))
    ensures Expression(State([sign] + inner, errs), prec) == Loop(n, State([t] + rest, errs), prec)
  {
    Step(sign, inner, errs);
    assert Prefix(State([sign] + inner, errs)) == (true, n, State([t] + rest, errs));
  }

  lemma {:induction false} ReadsIndex(n: Node, ts: seq<Token>, errs: seq<Error>, prec: int)
    requires Printable(n) && n.Index?
    ensures Expression(State(Print(n) + ts, errs), prec) == Loop(n, State([RPAREN] + ts, errs), prec)
    decreases n, 1
  {
    var close := [RBRACKET] + ([RPAREN] + ts);
    var inner := Print(n.left) + ([LBRACKET] + (Print(n.index) + close));
    IndexText(n.left, n.index, ts);
    ReadsBracket(n, ts, errs);
    LoopStops(n, RBRACKET, [RPAREN] + ts, errs, LOWEST);
    Parenthesised(inner, n, RBRACKET, ts, errs, prec);
  }

  /** The part between the parentheses. */
  lemma {:induction false} ReadsBracket(n: Node, ts: seq<Token>, errs: seq<Error>)
    requires Printable(n) && n.Index?
    ensures var close := [RBRACKET] + ([RPAREN] + ts);
            Expression(State(Print(n.left) + ([LBRACKET] + (Print(n.index) + close)), errs), LOWEST)
            == Loop(n, State(close, errs), LOWEST)
    decreases n, 0
  {
    var Index(l, i) := n;
    var close := [RBRACKET] + ([RPAREN] + ts);
    var right := [LBRACKET] + (Print(i) + close);
    IndexText(l, i, ts);
    IndexIsSafe(i, ts);
    ReadsOperand(l, right, errs, LOWEST);
    PrintedShape(i);
    ReadsExpression(i, close, errs, LOWEST);
    IndexStep(l, i, Last(l), Last(i), Print(i) + close, [RPAREN] + ts, errs, LOWEST);
  }

  lemma IndexText(l: Node, i: Node, ts: seq<Token>)
    ensures [RBRACKET] + ([RPAREN] + ts) == [RBRACKET, RPAREN] + ts
    ensures Print(Index(l, i)) + ts == [LPAREN] + (Print(l) + ([LBRACKET] + (Print(i) + ([RBRACKET, RPAREN] + ts))))
  {
    Assoc(Print(i), [RBRACKET, RPAREN], ts);
    Assoc([LBRACKET], Print(i) + [RBRACKET, RPAREN], ts);
    Assoc(Print(l), [LBRACKET] + (Print(i) + [RBRACKET, RPAREN]), ts);
    Assoc([LPAREN], Print(l) + ([LBRACKET] + (Print(i) + [RBRACKET, RPAREN])), ts);
  }

  lemma IndexStep(l: Node, i: Node, t: Token, t': Token, inner: seq<Token>, rest: seq<Token>, errs: seq<Error>, prec: int)
    requires inner != [] && !inner[0].COLON? && prec < CALL
    requires Expression(State(inner, errs), LOWEST) == (i, State([t'] + ([RBRACKET] + rest), errs))
    ensures Loop(l, State([t] + ([LBRACKET] + inner), errs), prec) == Loop(Index(l, i), State([RBRACKET] + rest, errs), prec)
  {
    Step(t, [LBRACKET] + inner, errs);
    Step(LBRACKET, inner, errs);
    Step(t', [RBRACKET] + rest, errs);
    assert IndexForm(l, State([LBRACKET] + inner, errs)) == (Index(l, i), State([RBRACKET] + rest, errs));
    LoopInfix(l, t, [LBRACKET] + inner, errs, prec);
  }

  /** One turn of the loop, in front of a token that binds. */
  lemma LoopInfix(l: Node, t: Token, ts: seq<Token>, errs: seq<Error>, prec: int)
    requires ts != [] && ts[0] != EOF && prec < Precedence(ts[0]) && !(ts[0].LPAREN? && ParamListAhead(ts[1..]))
    ensures var (l1, s1) := InfixForm(l, State(ts, errs)); Loop(l, State([t] + ts, errs), prec) == Loop(l1, s1, prec)
  {
    Step(t, ts, errs);
  }

  lemma {:induction false} ReadsMember(n: Node, ts: seq<Token>, errs: seq<Error>, prec: int)
    requires Printable(n) && n.Member? && prec < CALL
    ensures Expression(State(Print(n) + ts, errs), prec) == Loop(n, State([IDENT(n.field)] + ts, errs), prec)
    decreases n, 0
  {
    var dot := if n.optional then QUESTION_DOT else DOT;
    var right := [dot] + ([Word(n.field)] + ts);
    assert Print(n) + ts == Print(n.obj) + right;
    ReadsOperand(n.obj, right, errs, prec);
    MemberStep(n.obj, n.field, n.optional, Last(n.obj), ts, errs, prec);
  }

  lemma MemberStep(obj: Node, field: string, optional: bool, t: Token, ts: seq<Token>, errs: seq<Error>, prec: int)
    requires prec < CALL
    ensures Loop(obj, State([t] + ([if optional then QUESTION_DOT else DOT] + ([Word(field)] + ts)), errs), prec)
         == Loop(Member(obj, field, optional), State([IDENT(field)] + ts, errs), prec)
  {
    var dot := if optional then QUESTION_DOT else DOT;
    Step(t, [dot] + ([Word(field)] + ts), errs);
    Step(dot, [Word(field)] + ts, errs);
    Step(Word(field), ts, errs);
    assert ([Word(field)] + ts)[0 := IDENT(field)] == [IDENT(field)] + ts;
    LoopInfix(obj, t, [dot] + ([Word(field)] + ts), errs, prec);
  }

  lemma {:induction false} ReadsCall(n: Node, ts: seq<Token>, errs: seq<Error>, prec: int)
    requires Printable(n) && n.Call? && Safe(ts) && prec < CALL
    ensures Expression(State(Print(n) + ts, errs), prec) == Loop(n, State([RPAREN] + ts, errs), prec)
    decreases n, 0
  {
    var Call(fn, _, args) := n;
    var close := [RPAREN] + ts;
    var right := [LPAREN] + (PrintList(args) + close);
    Assoc(PrintList(args), [RPAREN], ts);
    Assoc([LPAREN], PrintList(args) + [RPAREN], ts);
    Assoc(Print(fn), [LPAREN] + (PrintList(args) + [RPAREN]), ts);
    ReadsOperand(fn, right, errs, prec);
    ArgsAreNotParams(args, ts);
    assert right[1..] == PrintList(args) + close;
    ReadsArgs(args, ts, errs);
    CallStep(fn, args, Last(fn), right, close, errs, prec);
  }

  lemma CallStep(fn: Node, args: seq<Node>, t: Token, right: seq<Token>, close: seq<Token>, errs: seq<Error>, prec: int)
    requires right != [] && right[0].LPAREN? && !ParamListAhead(right[1..]) && prec < CALL
    requires List(State(right, errs), RPAREN) == (args, State(close, errs))
    ensures Loop(fn, State([t] + right, errs), prec) == Loop(Call(fn, [], args), State(close, errs), prec)
  {
    LoopInfix(fn, t, right, errs, prec);
  }

  lemma {:induction false} ReadsArgs(args: seq<Node>, ts: seq<Token>, errs: seq<Error>)
    requires AllPrintable(args, false)
    ensures List(State([LPAREN] + (PrintList(args) + ([RPAREN] + ts)), errs), RPAREN) == (args, State([RPAREN] + ts, errs))
    decreases args, 2
  {
    var close := [RPAREN] + ts;
    if args == [] {
      assert PrintList(args) + close == close;
      Step(LPAREN, close, errs);
    } else {
      ElementPrintable(args, false);
      PrintedShape(args[0]);
      var tail := PrintTail(args[1..]) + close;
      Assoc(Print(args[0]), PrintTail(args[1..]), close);
      TailIsSafe(args[1..], RPAREN, ts);
      ReadsExpression(args[0], tail, errs, LOWEST);
      var t' := ReadsTail([args[0]], args[1..], Last(args[0]), ts, errs);
      ListStep(args, Last(args[0]), t', Print(args[0]) + tail, tail, ts, errs);
    }
  }

  lemma ListStep(args: seq<Node>, t: Token, t': Token, inner: seq<Token>, tail: seq<Token>, ts: seq<Token>, errs: seq<Error>)
    requires args != [] && inner != [] && !inner[0].RPAREN?
    requires Expression(State(inner, errs), LOWEST) == (args[0], State([t] + tail, errs))
    requires ListTail([args[0]], State([t] + tail, errs)) == ([args[0]] + args[1..], State([t'] + ([RPAREN] + ts), errs))
    ensures List(State([LPAREN] + inner, errs), RPAREN) == (args, State([RPAREN] + ts, errs))
  {
    Step(LPAREN, inner, errs);
    Step(t', [RPAREN] + ts, errs);
    assert [args[0]] + args[1..] == args;
  }

  lemma PrintTailCons(ns: seq<Node>, ts: seq<Token>)
    requires ns != []
    ensures PrintTail(ns) + ts == [COMMA] + (Print(ns[0]) + (PrintTail(ns[1..]) + ts))
  {
    Assoc([COMMA], Print(ns[0]) + PrintTail(ns[1..]), ts);
    Assoc(Print(ns[0]), PrintTail(ns[1..]), ts);
  }

  /** After an element comes a comma or the closing token. */
  lemma TailIsSafe(ns: seq<Node>, end: Token, ts: seq<Token>)
    requires end == RPAREN || end == RBRACKET
    ensures Safe(PrintTail(ns) + ([end] + ts)) && Stops(PrintTail(ns) + ([end] + ts), LOWEST)
    ensures At(PrintTail(ns) + ([end] + ts), 0) == if ns == [] then end else COMMA
  {
    if ns == [] { assert PrintTail(ns) + ([end] + ts) == [end] + ts; }
  }

  lemma {:induction false} ReadsTail(done: seq<Node>, ns: seq<Node>, t: Token, ts: seq<Token>, errs: seq<Error>) returns (t': Token)
    requires AllPrintable(ns, false)
    ensures ListTail(done, State([t] + (PrintTail(ns) + ([RPAREN] + ts)), errs)) == (done + ns, State([t'] + ([RPAREN] + ts), errs))
    decreases ns, 2
  {
    var close := [RPAREN] + ts;
    TailIsSafe(ns, RPAREN, ts);
    if ns == [] {
      assert PrintTail(ns) + close == close && done + ns == done;
      Step(t, close, errs);
      t' := t;
    } else {
      ElementPrintable(ns, false);
      var tail := PrintTail(ns[1..]) + close;
      PrintTailCons(ns, close);
      TailIsSafe(ns[1..], RPAREN, ts);
      ReadsExpression(ns[0], tail, errs, LOWEST);
      ListTailStep(done, ns[0], t, Last(ns[0]), Print(ns[0]) + tail, tail, errs);
      t' := ReadsTail(done + [ns[0]], ns[1..], Last(ns[0]), ts, errs);
      assert (done + [ns[0]]) + ns[1..] == done + ns;
    }
  }

  lemma ListTailStep(done: seq<Node>, n: Node, t: Token, t': Token, inner: seq<Token>, rest: seq<Token>, errs: seq<Error>)
    requires Expression(State(inner, errs), LOWEST) == (n, State([t'] + rest, errs))
    ensures ListTail(done, State([t] + ([COMMA] + inner), errs)) == ListTail(done + [n], State([t'] + rest, errs))
  {
    Step(t, [COMMA] + inner, errs);
    Step(COMMA, inner, errs);
  }

  lemma {:induction false} ReadsElement(n: Node, ts: seq<Token>, errs: seq<Error>)
    requires PrintableElement(n, true) && Safe(ts) && Stops(ts, LOWEST)
    ensures Print(n) != []
    ensures Element(State(Print(n) + ts, errs)) == (n, State([Last(n)] + ts, errs))
    decreases n, 4
  {
    PrintedShape(n);
    assert (Print(n) + ts)[0] == Print(n)[0];
    if n.Spread? {
      var v := n.value;
      PrintedShape(v);
      assert Print(n) + ts == [SPREAD] + (Print(v) + ts);
      Step(SPREAD, Print(v) + ts, errs);
      ReadsExpression(v, ts, errs, LOWEST);
    } else {
      ReadsExpression(n, ts, errs, LOWEST);
    }
  }

  lemma {:induction false} ReadsArray(n: Node, ts: seq<Token>, errs: seq<Error>, prec: int)
    requires Printable(n) && n.Array?
    ensures Expression(State(Print(n) + ts, errs), prec) == Loop(n, State([RBRACKET] + ts, errs), prec)
    decreases n, 0
  {
    var elems, close := n.elems, [RBRACKET] + ts;
    assert Print(n) + ts == [LBRACKET] + (PrintList(elems) + close);
    if elems == [] {
      assert PrintList(elems) + close == close;
      Step(LBRACKET, close, errs);
      assert ArrayForm(State([LBRACKET] + close, errs)) == (n, State(close, errs));
    } else {
      ElementPrintable(elems, true);
      PrintedShape(elems[0]);
      var tail := PrintTail(elems[1..]) + close;
      Assoc(Print(elems[0]), PrintTail(elems[1..]), close);
      TailIsSafe(elems[1..], RBRACKET, ts);
      ReadsElement(elems[0], tail, errs);
      var t' := ReadsArrayTail([elems[0]], elems[1..], Last(elems[0]), ts, errs);
      ArrayStep(elems, Last(elems[0]), t', Print(elems[0]) + tail, tail, ts, errs);
    }
    ArrayPrefix(PrintList(elems) + close, errs, prec);
  }

  lemma ArrayPrefix(inner: seq<Token>, errs: seq<Error>, prec: int)
    ensures var (n, s) := ArrayForm(State([LBRACKET] + inner, errs));
            Expression(State([LBRACKET] + inner, errs), prec) == Loop(n, s, prec)
  {
    Step(LBRACKET, inner, errs);
  }

  lemma ArrayStep(elems: seq<Node>, t: Token, t': Token, inner: seq<Token>, tail: seq<Token>, ts: seq<Token>, errs: seq<Error>)
    requires elems != [] && inner != [] && !inner[0].RBRACKET?
    requires Element(State(inner, errs)) == (elems[0], State([t] + tail, errs))
    requires ArrayTail([elems[0]], State([t] + tail, errs)) == ([elems[0]] + elems[1..], State([t'] + ([RBRACKET] + ts), errs))
    ensures ArrayForm(State([LBRACKET] + inner, errs)) == (Array(elems), State([RBRACKET] + ts, errs))
  {
    Step(LBRACKET, inner, errs);
    Step(t', [RBRACKET] + ts, errs);
    assert [elems[0]] + elems[1..] == elems;
  }

  lemma {:induction false} ReadsArrayTail(done: seq<Node>, ns: seq<Node>, t: Token, ts: seq<Token>, errs: seq<Error>) returns (t': Token)
    requires AllPrintable(ns, true)
    ensures ArrayTail(done, State([t] + (PrintTail(ns) + ([RBRACKET] + ts)), errs)) == (done + ns, State([t'] + ([RBRACKET] + ts), errs))
    decreases ns, 2
  {
    var close := [RBRACKET] + ts;
    TailIsSafe(ns, RBRACKET, ts);
    if ns == [] {
      assert PrintTail(ns) + close == close && done + ns == done;
      Step(t, close, errs);
      t' := t;
    } else {
      ElementPrintable(ns, true);
      var tail := PrintTail(ns[1..]) + close;
      PrintTailCons(ns, close);
      TailIsSafe(ns[1..], RBRACKET, ts);
      ReadsElement(ns[0], tail, errs);
      ArrayTailStep(done, ns[0], t, Last(ns[0]), Print(ns[0]) + tail, tail, errs);
      t' := ReadsArrayTail(done + [ns[0]], ns[1..], Last(ns[0]), ts, errs);
      assert (done + [ns[0]]) + ns[1..] == done + ns;
    }
  }

  lemma ArrayTailStep(done: seq<Node>, n: Node, t: Token, t': Token, inner: seq<Token>, rest: seq<Token>, errs: seq<Error>)
    requires Element(State(inner, errs)) == (n, State([t'] + rest, errs))
    ensures ArrayTail(done, State([t] + ([COMMA] + inner), errs)) == ArrayTail(done + [n], State([t'] + rest, errs))
  {
    Step(t, [COMMA] + inner, errs);
    Step(COMMA, inner, errs);
  }

  /** Parsing what the String methods print gives the printed tree back, with nothing
      read beyond it and no error. */
  lemma PrintParseRoundTrip(n: Node)
    requires Printable(n)
    ensures Expression(State(Print(n), []), LOWEST).0 == n
    ensures Expression(State(Print(n), []), LOWEST).1.errs == []
    ensures |Expression(State(Print(n), []), LOWEST).1.toks| == 1
  {
    assert Print(n) + [] == Print(n);
    ReadsExpression(n, [], [], LOWEST);
  }
}
