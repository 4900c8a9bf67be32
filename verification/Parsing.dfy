// What the expression parser computes (compiler/parser_expr.go), as functions on
// the tokens still to be read. The first token is the parser's curToken, the
// second its peekToken, and past the end both are EOF. On return the current
// token is the last one of the expression, as in the original.
module Parsing {
  import opened Options
  import opened Syntax

  datatype Error = NoPrefix(tok: Token) | Expected(want: Token, got: Token) | BadInteger(text: string)
                 | BadTarget | NotModelled(tok: Token)

  datatype State = State(toks: seq<Token>, errs: seq<Error>) {
    function Cur(): Token { if toks == [] then EOF else toks[0] }
    function Peek(): Token { if |toks| < 2 then EOF else toks[1] }
    function Next(): State { if toks == [] then this else this.(toks := toks[1..]) }
    /** curToken.Type = TOKEN_IDENT. */
    function Retag(word: string): State { if toks == [] then this else this.(toks := toks[0 := IDENT(word)]) }
    function Fail(e: Error): State { this.(errs := errs + [e]) }
    /** What the lexer has not been asked for yet: everything after peekToken. */
    function Ahead(): seq<Token> { if |toks| < 2 then [] else toks[2..] }
  }

  // ---- Precedences ----

  const LOWEST := 1
  const ASSIGN_P := 2
  const PIPE_P := 3
  const LOGICAL := 4
  const COMPARE := 5
  const SUM := 6
  const PRODUCT := 7
  const CALL := 8
  const MEMBER := 9
  const INDEX := 10

  function OpPrecedence(op: BinOp): int {
    match op
    case AND => LOGICAL
    case OR => LOGICAL
    case EQ => COMPARE
    case NEQ => COMPARE
    case LT => COMPARE
    case GT => COMPARE
    case LTE => COMPARE
    case GTE => COMPARE
    case PLUS => SUM
    case MINUS => SUM
    case PIPE => SUM
    case CARET => SUM
    case _ => PRODUCT
  }

  function Precedence(t: Token): int {
    match t
    case OP(op) => OpPrecedence(op)
    case PIPE_ARROW => PIPE_P
    case ASSIGN => ASSIGN_P
    case COMPOUND_ASSIGN(_) => ASSIGN_P
    case ARROW => ASSIGN_P
    case LPAREN => CALL
    case QUESTION => CALL
    case DOT => MEMBER
    case QUESTION_DOT => MEMBER
    case LBRACKET => INDEX
    case _ => LOWEST
  }

  // ---- Lookahead on a copy of the lexer ----

  function At(ts: seq<Token>, i: nat): Token {
    if i < |ts| then ts[i] else EOF
  }

  /** isParamListFollowedByBrace: `(ident) {`. */
  predicate ParamListAhead(ahead: seq<Token>) {
    At(ahead, 0).IDENT? && At(ahead, 1).RPAREN? && At(ahead, 2).LBRACE?
  }

  /** isStructLiteralAhead, after the brace: `}` or `ident :`. */
  predicate StructLiteralAhead(ahead: seq<Token>) {
    At(ahead, 0).RBRACE? || (At(ahead, 0).IDENT? && At(ahead, 1).COLON?)
  }

  /** isGenericCallAhead and isGenericStructLiteralAhead: identifiers and commas up to
      the matching bracket and then `follow`, within twenty tokens. */
  predicate TypeArgsAhead(ahead: seq<Token>, depth: nat, seen: nat, follow: Token)
    decreases 20 - seen
  {
    seen < 20 &&
    match At(ahead, 0)
    case LBRACKET => TypeArgsAhead(ahead[1..], depth + 1, seen + 1, follow)
    case RBRACKET =>
      if depth > 0 then TypeArgsAhead(ahead[1..], depth - 1, seen + 1, follow) else At(ahead, 1) == follow
    case IDENT(_) => TypeArgsAhead(ahead[1..], depth, seen + 1, follow)
    case COMMA => TypeArgsAhead(ahead[1..], depth, seen + 1, follow)
    case _ => false
  }

  function PeekPrecedence(s: State): int {
    if s.Peek().LPAREN? && ParamListAhead(s.Ahead()) then LOWEST else Precedence(s.Peek())
  }

  /** The token types agree; identifiers do whatever their text. */
  predicate SameType(t: Token, want: Token) {
    t == want || (t.IDENT? && want.IDENT?)
  }

  /** expectPeek: a keyword passes for an identifier. */
  function Expect(s: State, want: Token): (bool, State) {
    if SameType(s.Peek(), want) then (true, s.Next())
    else if want.IDENT? && s.Peek().KEYWORD? then (true, s.Next().Retag(s.Peek().text))
    else (false, s.Fail(Expected(want, s.Peek())))
  }

  // ---- The parser ----

  /** parseExpression: a prefix form, then as many infix forms as bind tighter than `prec`. */
  function Expression(s: State, prec: int): (r: (Node, State))
    ensures |r.1.toks| <= |s.toks|
    decreases |s.toks|, 3
  {
    var (ok, left, s1) := Prefix(s);
    if ok then Loop(left, s1, prec) else (Missing, s1)
  }

  function Loop(left: Node, s: State, prec: int): (r: (Node, State))
    ensures |r.1.toks| <= |s.toks|
    decreases |s.toks|, 1
  {
    if s.Peek() == EOF || prec >= PeekPrecedence(s) then (left, s)
    else
      var (left1, s1) := InfixForm(left, s.Next());
      Loop(left1, s1, prec)
  }

  /** The prefix function of the current token; false when there is none. */
  function Prefix(s: State): (r: (bool, Node, State))
    ensures |r.2.toks| <= |s.toks|
    decreases |s.toks|, 2
  {
    match s.Cur()
    case IDENT(id) =>
      var (n, s1) := Identifier(id, s);
      (true, n, s1)
    case LIT(kind, text) =>
      if kind == Int && IntValue(text).None? then (true, Missing, s.Fail(BadInteger(text)))
      else (true, Literal(kind, text), s)
    case KEYWORD(word) =>
      var (n, s1) := KeywordForm(word, s);
      (true, n, s1)
    case LPAREN =>
      var (n, s1) := Expression(s.Next(), LOWEST);
      var (ok, s2) := Expect(s1, RPAREN);
      (true, if ok then n else Missing, s2)
    case LBRACKET =>
      var (n, s1) := ArrayForm(s);
      (true, n, s1)
    case LBRACE => (true, Missing, s.Fail(NotModelled(LBRACE)))
    case BANG =>
      var (n, s1) := Expression(s.Next(), PRODUCT);
      (true, Not(n), s1)
    case OP(op) =>
      if op == MINUS then
        var (n, s1) := Expression(s.Next(), PRODUCT);
        (true, Negate(n), s1)
      else (false, Missing, s.Fail(NoPrefix(s.Cur())))
    case t => (false, Missing, s.Fail(NoPrefix(t)))
  }

  /** Keywords that name a builtin object stand for themselves; a keyword without a
      prefix function is taken for an identifier. */
  function KeywordForm(word: string, s: State): (r: (Node, State))
    requires s.toks != []
    ensures |r.1.toks| <= |s.toks|
    decreases |s.toks|, 1
  {
    if word == "true" then (Bool(true), s)
    else if word == "false" then (Bool(false), s)
    else if word == "nil" then (Nil, s)
    else if word == "self" then (Self, s)
    else if word in {"cache", "workflow", "ai", "mail", "store", "search", "auth", "validate"} then (Name(word), s)
    else if word in {"stream", "assert", "await", "spawn", "fn"} then (Missing, s.Fail(NotModelled(s.Cur())))
    else Identifier(word, s.Retag(word))
  }

  /** parseIdentifier: a name, unless the lookahead says generic call or struct literal. */
  function Identifier(id: string, s: State): (r: (Node, State))
    requires s.toks != []
    ensures |r.1.toks| <= |s.toks|
    decreases |s.toks|, 0
  {
    if s.Peek().LBRACKET? && TypeArgsAhead(s.Ahead(), 0, 0, LPAREN) then
      var (typeArgs, s1) := TypeArgs(s.Next(), []);
      var s2 := s1.Next();
      if s2.Peek().LPAREN? then
        var (args, s3) := List(s2.Next(), RPAREN);
        (Call(Name(id), typeArgs, args), s3)
      else StructOrName(id, s2)
    else if s.Peek().LBRACKET? && TypeArgsAhead(s.Ahead(), 0, 0, LBRACE) then
      var (_, s1) := TypeArgs(s.Next(), []);
      var s2 := s1.Next();
      if s2.Peek().LBRACE? then (Missing, s2.Next().Fail(NotModelled(LBRACE))) else StructOrName(id, s2)
    else StructOrName(id, s)
  }

  function StructOrName(id: string, s: State): (r: (Node, State))
    ensures |r.1.toks| <= |s.toks|
  {
    if s.Peek().LBRACE? && StructLiteralAhead(s.Ahead()) then (Missing, s.Next().Fail(NotModelled(LBRACE)))
    else (Name(id), s)
  }

  function TypeArgs(s: State, found: seq<string>): (r: (seq<string>, State))
    ensures |r.1.toks| <= |s.toks|
    decreases |s.toks|
  {
    if s.Peek().RBRACKET? || s.Peek() == EOF then (found, s)
    else
      var s1 := s.Next();
      var found1 := if s1.Cur().IDENT? then found + [s1.Cur().text] else found;
      TypeArgs(if s1.Peek().COMMA? then s1.Next() else s1, found1)
  }

  /** The infix function of the current token. */
  function InfixForm(left: Node, s: State): (r: (Node, State))
    ensures |r.1.toks| <= |s.toks|
    decreases |s.toks|, 2
  {
    match s.Cur()
    case OP(op) =>
      var (right, s1) := Expression(s.Next(), OpPrecedence(op));
      (Infix(left, op, right), s1)
    case PIPE_ARROW =>
      var (right, s1) := Expression(s.Next(), PIPE_P);
      (PipeInto(left, right), s1)
    case LPAREN =>
      var (args, s1) := List(s, RPAREN);
      (Call(left, [], args), s1)
    case LBRACKET => IndexForm(left, s)
    case DOT => MemberForm(left, s, false)
    case QUESTION_DOT => MemberForm(left, s, true)
    case QUESTION => (ErrorProp(left), s)
    case ASSIGN => AssignForm(left, None, left.Name? || (left.Member? && !left.optional) || left.Index?, s)
    case COMPOUND_ASSIGN(op) => AssignForm(left, Some(op), left.Name?, s)
    case ARROW =>
      var (v, s1) := Expression(s.Next(), LOWEST);
      (Arrow(if left.Name? then [left.id] else [], v), s1)
    case _ => (left, s)
  }

  /** Both kinds of assignment; an illegal target is an error and nothing is read. */
  function AssignForm(left: Node, compound: Option<BinOp>, legal: bool, s: State): (r: (Node, State))
    requires s.toks != []
    ensures |r.1.toks| <= |s.toks|
    decreases |s.toks|, 0
  {
    if legal then
      var (v, s1) := Expression(s.Next(), LOWEST);
      (Assign(left, compound, v), s1)
    else (Missing, s.Fail(BadTarget))
  }

  /** `x |> f(a)` is `f(x, a)`, and `x |> f` is `f(x)`. */
  function PipeInto(left: Node, right: Node): Node {
    if right.Missing? then Missing
    else if right.Call? then Call(right.fn, right.typeArgs, [left] + right.args)
    else Call(right, [], [left])
  }

  function MemberForm(left: Node, s: State, optional: bool): (r: (Node, State))
    ensures |r.1.toks| <= |s.toks|
  {
    if s.Peek().IDENT? || s.Peek().KEYWORD? then (Member(left, s.Peek().text, optional), s.Next().Retag(s.Peek().text))
    else (Missing, s.Fail(Expected(IDENT(""), s.Peek())))
  }

  function IndexForm(left: Node, s: State): (r: (Node, State))
    requires s.Cur().LBRACKET?
    ensures |r.1.toks| <= |s.toks|
    decreases |s.toks|, 0
  {
    var s1 := s.Next();
    if s1.Cur().COLON? then SliceEnd(left, Missing, s1.Next(), s1.Next().Cur().RBRACKET?)
    else
      var (index, s2) := Expression(s1, LOWEST);
      if s2.Peek().COLON? then
        var s3 := s2.Next().Next();
        if s3.Cur().RBRACKET? then (Slice(left, index, Missing), s3) else SliceEnd(left, index, s3, false)
      else
        var (ok, s3) := Expect(s2, RBRACKET);
        (if ok then Index(left, index) else Missing, s3)
  }

  /** The rest of a slice after its colon. */
  function SliceEnd(left: Node, start: Node, s: State, open: bool): (r: (Node, State))
    ensures |r.1.toks| <= |s.toks|
    decreases |s.toks|, 4
  {
    var (end, s1) := if open then (Missing, s) else Expression(s, LOWEST);
    var (ok, s2) := Expect(s1, RBRACKET);
    (if ok then Slice(left, start, end) else Missing, s2)
  }

  /** parseExpressionList, from the opening token on. */
  function List(s: State, end: Token): (r: (seq<Node>, State))
    ensures |r.1.toks| <= |s.toks|
    decreases |s.toks|, 1
  {
    if s.Peek() == end then ([], s.Next())
    else if s.toks == [] then ([], s.Fail(NoPrefix(EOF)).Fail(Expected(end, EOF)))
    else
      var (n, s1) := Expression(s.Next(), LOWEST);
      var (ns, s2) := ListTail([n], s1);
      var (ok, s3) := Expect(s2, end);
      (if ok then ns else [], s3)
  }

  function ListTail(ns: seq<Node>, s: State): (r: (seq<Node>, State))
    ensures |r.1.toks| <= |s.toks|
    decreases |s.toks|, 4
  {
    if s.Peek().COMMA? then
      var (n, s1) := Expression(s.Next().Next(), LOWEST);
      ListTail(ns + [n], s1)
    else (ns, s)
  }

  /** parseArrayLiteral: elements may be spreads. */
  function ArrayForm(s: State): (r: (Node, State))
    requires s.Cur().LBRACKET?
    ensures |r.1.toks| <= |s.toks|
    decreases |s.toks|, 1
  {
    if s.Peek().RBRACKET? then (Array([]), s.Next())
    else
      var (n, s1) := Element(s.Next());
      var (ns, s2) := ArrayTail([n], s1);
      var (ok, s3) := Expect(s2, RBRACKET);
      (if ok then Array(ns) else Missing, s3)
  }

  function ArrayTail(ns: seq<Node>, s: State): (r: (seq<Node>, State))
    ensures |r.1.toks| <= |s.toks|
    decreases |s.toks|, 5
  {
    if s.Peek().COMMA? then
      var (n, s1) := Element(s.Next().Next());
      ArrayTail(ns + [n], s1)
    else (ns, s)
  }

  function Element(s: State): (r: (Node, State))
    ensures |r.1.toks| <= |s.toks|
    decreases |s.toks|, 4
  {
    if s.Cur().SPREAD? then
      var (n, s1) := Expression(s.Next(), LOWEST);
      (Spread(n), s1)
    else Expression(s, LOWEST)
  }
}
