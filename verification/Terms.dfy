// Operands as they are written, without the parentheses that printing adds.
module Terms {
  import opened Options
  import opened Syntax
  import opened Parsing
  import opened RoundTrip

  datatype Term =
    | Printed(n: Node)
    | Signed(sign: Token, t: Term)
    | Indexed(t: Term, index: Node)
    | Sliced(t: Term, start: Option<Node>, end: Option<Node>)
    | Dotted(t: Term, field: string, optional: bool)
    | Called(t: Term, args: seq<Node>)
    | Propagated(t: Term)

  function PrintOption(n: Option<Node>): seq<Token> {
    if n.Some? then Print(n.value) else []
  }

  function Text(t: Term): seq<Token> {
    match t
    case Printed(n) => Print(n)
    case Signed(sign, t1) => [sign] + Text(t1)
    case Indexed(t1, i) => Text(t1) + ([LBRACKET] + (Print(i) + [RBRACKET]))
    case Sliced(t1, start, end) => Text(t1) + ([LBRACKET] + (PrintOption(start) + ([COLON] + (PrintOption(end) + [RBRACKET]))))
    case Dotted(t1, field, optional) => Text(t1) + [if optional then QUESTION_DOT else DOT, Word(field)]
    case Called(t1, args) => Text(t1) + ([LPAREN] + (PrintList(args) + [RPAREN]))
    case Propagated(t1) => Text(t1) + [QUESTION]
  }

  /** What it means: postfix forms apply before a sign in front of them. */
  function Tree(t: Term): Node {
    match t
    case Printed(n) => n
    case Signed(sign, t1) => if sign == BANG then Not(Tree(t1)) else Negate(Tree(t1))
    case Indexed(t1, i) => Index(Tree(t1), i)
    case Sliced(t1, start, end) => Slice(Tree(t1), if start.Some? then start.value else Missing, if end.Some? then end.value else Missing)
    case Dotted(t1, field, optional) => Member(Tree(t1), field, optional)
    case Called(t1, args) => Call(Tree(t1), [], args)
    case Propagated(t1) => ErrorProp(Tree(t1))
  }

  /** Signs stand outermost. A call directly behind an index would read as one with
      type arguments, and a slice needs an end. */
  predicate Operand(t: Term) {
    match t
    case Printed(n) => Printable(n) && !n.Infix?
    case Signed(sign, t1) => (sign == OP(MINUS) || sign == BANG) && Operand(t1)
    case Indexed(t1, i) => Operand(t1) && !t1.Signed? && Printable(i)
    case Sliced(t1, start, end) =>
      && Operand(t1) && !t1.Signed? && (start.Some? || end.Some?)
      && (start.Some? ==> Printable(start.value)) && (end.Some? ==> Printable(end.value))
    case Dotted(t1, _, _) => Operand(t1) && !t1.Signed?
    case Called(t1, args) => Operand(t1) && !t1.Signed? && !t1.Indexed? && AllPrintable(args, false)
    case Propagated(t1) => Operand(t1) && !t1.Signed?
  }

  /** What may come behind: nothing that would be read as part of the operand. */
  predicate Behind(t: Term, ts: seq<Token>) {
    && Safe(ts)
    && (t.Signed? ==> Stops(ts, PRODUCT))
    && (t.Indexed? ==> !At(ts, 0).LPAREN?)
  }

  /** An operand is read whole, and the loop goes on from there. */
  lemma {:induction false} ReadsTerm(t: Term, ts: seq<Token>, errs: seq<Error>, prec: int) returns (last: Token)
    requires Operand(t) && Behind(t, ts) && prec < CALL
    ensures Expression(State(Text(t) + ts, errs), prec) == Loop(Tree(t), State([last] + ts, errs), prec)
    decreases t, 1
  {
    match t
    case Printed(n) =>
      ReadsOperand(n, ts, errs, prec);
      last := Last(n);
    case Signed(sign, t1) =>
      last := ReadsTerm(t1, ts, errs, PRODUCT);
      LoopStops(Tree(t1), last, ts, errs, PRODUCT);
      PrefixStep(Tree(t), Tree(t1), sign, last, Text(t1) + ts, ts, errs, prec);
      Assoc([sign], Text(t1), ts);
    case Indexed(t1, i) =>
      last := ReadsIndexed(t1, i, ts, errs, prec);
    case Sliced(_, _, _) =>
      last := ReadsSliced(t, ts, errs, prec);
    case Dotted(t1, field, optional) =>
      var dot := if optional then QUESTION_DOT else DOT;
      var right := [dot] + ([Word(field)] + ts);
      assert Text(t) + ts == Text(t1) + right;
      var l := ReadsTerm(t1, right, errs, prec);
      MemberStep(Tree(t1), field, optional, l, ts, errs, prec);
      last := IDENT(field);
    case Called(t1, args) =>
      last := ReadsCalled(t1, args, ts, errs, prec);
    case Propagated(t1) =>
      assert Text(t) + ts == Text(t1) + ([QUESTION] + ts);
      var l := ReadsTerm(t1, [QUESTION] + ts, errs, prec);
      LoopInfix(Tree(t1), l, [QUESTION] + ts, errs, prec);
      last := QUESTION;
  }

  lemma {:induction false} ReadsIndexed(t: Term, i: Node, ts: seq<Token>, errs: seq<Error>, prec: int) returns (last: Token)
    requires Operand(Indexed(t, i)) && Safe(ts) && !At(ts, 0).LPAREN? && prec < CALL
    ensures Expression(State(Text(Indexed(t, i)) + ts, errs), prec) == Loop(Tree(Indexed(t, i)), State([last] + ts, errs), prec)
    decreases t, 2
  {
    var close := [RBRACKET] + ts;
    var right := [LBRACKET] + (Print(i) + close);
    assert Text(Indexed(t, i)) + ts == Text(t) + right;
    BracketIsSafe(i, close);
    var l := ReadsTerm(t, right, errs, prec);
    PrintedShape(i);
    ReadsExpression(i, close, errs, LOWEST);
    IndexStep(Tree(t), i, l, Last(i), Print(i) + close, ts, errs, prec);
    last := RBRACKET;
  }

  lemma {:induction false} ReadsCalled(t: Term, args: seq<Node>, ts: seq<Token>, errs: seq<Error>, prec: int) returns (last: Token)
    requires Operand(Called(t, args)) && Safe(ts) && prec < CALL
    ensures Expression(State(Text(Called(t, args)) + ts, errs), prec) == Loop(Tree(Called(t, args)), State([last] + ts, errs), prec)
    decreases t, 2
  {
    var close := [RPAREN] + ts;
    var right := [LPAREN] + (PrintList(args) + close);
    assert Text(Called(t, args)) + ts == Text(t) + right;
    var l := ReadsTerm(t, right, errs, prec);
    ArgsAreNotParams(args, ts);
    assert right[1..] == PrintList(args) + close;
    ReadsArgs(args, ts, errs);
    CallStep(Tree(t), args, l, right, close, errs, prec);
    last := RPAREN;
  }

  // ---- Slices ----

  lemma {:induction false} ReadsSliced(t: Term, ts: seq<Token>, errs: seq<Error>, prec: int) returns (last: Token)
    requires Operand(t) && t.Sliced? && Safe(ts) && prec < CALL
    ensures Expression(State(Text(t) + ts, errs), prec) == Loop(Tree(t), State([last] + ts, errs), prec)
    decreases t, 0
  {
    var Sliced(t1, start, end) := t;
    var close := PrintOption(end) + ([RBRACKET] + ts);
    var inner := PrintOption(start) + ([COLON] + close);
    SliceText(t, ts);
    SliceIsSafe(start, close);
    var l := ReadsTerm(t1, [LBRACKET] + inner, errs, prec);
    ReadsSlice(Tree(t1), start, end, ts, errs);
    LoopInfix(Tree(t1), l, [LBRACKET] + inner, errs, prec);
    Step(LBRACKET, inner, errs);
    last := RBRACKET;
  }

  lemma SliceText(t: Term, ts: seq<Token>)
    requires t.Sliced?
    ensures Text(t) + ts ==
            Text(t.t) + ([LBRACKET] + (PrintOption(t.start) + ([COLON] + (PrintOption(t.end) + ([RBRACKET] + ts)))))
  {
    var e := PrintOption(t.end) + [RBRACKET];
    Assoc(PrintOption(t.end), [RBRACKET], ts);
    Assoc([COLON], e, ts);
    Assoc(PrintOption(t.start), [COLON] + e, ts);
    Assoc([LBRACKET], PrintOption(t.start) + ([COLON] + e), ts);
    Assoc(Text(t.t), [LBRACKET] + (PrintOption(t.start) + ([COLON] + e)), ts);
  }

  lemma SliceIsSafe(start: Option<Node>, close: seq<Token>)
    requires start.Some? ==> Printable(start.value)
    ensures Safe([LBRACKET] + (PrintOption(start) + ([COLON] + close)))
  {
    var all := [LBRACKET] + (PrintOption(start) + ([COLON] + close));
    assert all[1..] == PrintOption(start) + ([COLON] + close);
    if start.Some? { BracketIsSafe(start.value, [COLON] + close); }
  }

  /** parseIndexExpression reads each of `[a:b]`, `[a:]` and `[:b]`. */
  lemma ReadsSlice(left: Node, start: Option<Node>, end: Option<Node>, ts: seq<Token>, errs: seq<Error>)
    requires start.Some? || end.Some?
    requires (start.Some? ==> Printable(start.value)) && (end.Some? ==> Printable(end.value))
    ensures IndexForm(left, State([LBRACKET] + (PrintOption(start) + ([COLON] + (PrintOption(end) + ([RBRACKET] + ts)))), errs))
            == (Slice(left, if start.Some? then start.value else Missing, if end.Some? then end.value else Missing),
                State([RBRACKET] + ts, errs))
  {
    var tail := PrintOption(end) + ([RBRACKET] + ts);
    if end.Some? { ReadsEnd(left, if start.Some? then start.value else Missing, end.value, ts, errs); }
    if start.Some? {
      ReadsStart(left, start.value, tail, errs);
      if end.None? { assert tail == [RBRACKET] + ts; }
    } else {
      assert PrintOption(start) + ([COLON] + tail) == [COLON] + tail;
      Step(LBRACKET, [COLON] + tail, errs);
      Step(COLON, tail, errs);
    }
  }

  lemma ReadsStart(left: Node, start: Node, tail: seq<Token>, errs: seq<Error>)
    requires Printable(start) && tail != []
    ensures IndexForm(left, State([LBRACKET] + (Print(start) + ([COLON] + tail)), errs)) ==
            if tail[0].RBRACKET? then (Slice(left, start, Missing), State(tail, errs))
            else SliceEnd(left, start, State(tail, errs), false)
  {
    var inner := Print(start) + ([COLON] + tail);
    PrintedShape(start);
    Step(LBRACKET, inner, errs);
    ReadsExpression(start, [COLON] + tail, errs, LOWEST);
    Step(Last(start), [COLON] + tail, errs);
    Step(COLON, tail, errs);
  }

  lemma ReadsEnd(left: Node, start: Node, end: Node, ts: seq<Token>, errs: seq<Error>)
    requires Printable(end)
    ensures Print(end) != [] && !Print(end)[0].RBRACKET?
    ensures SliceEnd(left, start, State(Print(end) + ([RBRACKET] + ts), errs), false)
            == (Slice(left, start, end), State([RBRACKET] + ts, errs))
  {
    PrintedShape(end);
    ReadsExpression(end, [RBRACKET] + ts, errs, LOWEST);
    Step(Last(end), [RBRACKET] + ts, errs);
    Step(RBRACKET, ts, errs);
  }

  /** `x[:]` is refused: the parser has gone past the bracket when it asks for it. */
  lemma BareSliceRefused(x: Node, ts: seq<Token>, errs: seq<Error>)
    requires !At(ts, 0).RBRACKET?
    ensures IndexForm(x, State([LBRACKET, COLON, RBRACKET] + ts, errs))
            == (Missing, State([RBRACKET] + ts, errs + [Expected(RBRACKET, At(ts, 0))]))
  {
    assert [LBRACKET, COLON, RBRACKET] + ts == [LBRACKET] + ([COLON] + ([RBRACKET] + ts));
    Step(LBRACKET, [COLON] + ([RBRACKET] + ts), errs);
    Step(COLON, [RBRACKET] + ts, errs);
    Step(RBRACKET, ts, errs);
  }
}
