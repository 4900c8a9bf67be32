// Tokens and the syntax tree of expressions as the parser sees them
// (compiler/lexer.go token kinds, compiler/ast.go nodes with their token text),
// and the printer: the String methods of the nodes, as the tokens they spell.
module Syntax {
  import opened Options
  import opened GoInt

  datatype BinOp =
    | PLUS | MINUS | ASTERISK | SLASH | PERCENT | EQ | NEQ | LT | GT | LTE | GTE | AND | OR
    | AMPERSAND | PIPE | CARET | SHL | SHR

  datatype Kind = Int | Float | Str | Duration | FStr

  datatype Token =
    | IDENT(text: string)
    | LIT(kind: Kind, text: string)
    | KEYWORD(text: string)
    | OP(op: BinOp)
    | BANG | LPAREN | RPAREN | LBRACKET | RBRACKET | LBRACE | RBRACE
    | DOT | QUESTION_DOT | QUESTION | COMMA | COLON | SPREAD
    | ASSIGN | COMPOUND_ASSIGN(op: BinOp) | ARROW | PIPE_ARROW
    | OTHER(text: string)
    | EOF

  datatype Node =
    | Name(id: string)
    | Literal(kind: Kind, text: string)
    | Bool(b: bool)
    | Nil
    | Self
    | Infix(left: Node, op: BinOp, right: Node)
    | Negate(right: Node)
    | Not(right: Node)
    | Index(left: Node, index: Node)
    | Slice(left: Node, start: Node, end: Node)
    | Member(obj: Node, field: string, optional: bool)
    | Call(fn: Node, typeArgs: seq<string>, args: seq<Node>)
    | Array(elems: seq<Node>)
    | Spread(value: Node)
    | ErrorProp(value: Node)
    | Assign(target: Node, compound: Option<BinOp>, value: Node)
    | Arrow(params: seq<string>, body: Node)
    | Missing  // Go's nil

  /** The words lookupIdent does not turn into identifiers. */
  const KEYWORDS: set<string> := {
    "auth", "mail", "search", "broker", "ai", "server", "route", "every", "cron", "subscribe", "publish", "spawn",
    "fn", "let", "return", "import", "extern", "from", "try", "catch", "database", "cache", "match", "test", "assert",
    "enum", "tool", "limit", "migration", "if", "else", "for", "in", "true", "false", "nil", "struct", "self", "export",
    "interface", "middleware", "use", "await", "declare", "module", "as", "ws", "type", "validate", "break", "continue",
    "beforeEach", "afterEach", "timeout", "cors", "rate_limit", "mock", "actor", "workflow", "inject", "graphql",
    "stream", "yield", "store", "version", "resilient", "retries", "circuit_breaker", "notify", "app", "agent", "table",
    "mesh", "on", "lock", "unlock", "bucket", "gate", "job", "rag", "event_store", "command", "emit", "cached"
  }

  /** lookupIdent. */
  function Word(s: string): Token {
    if s in KEYWORDS then KEYWORD(s) else IDENT(s)
  }

  /** The value strconv.ParseInt(text, 0, 64) finds in a run of decimal digits;
      a leading zero makes it octal. */
  function IntValue(text: string): Option<int> {
    var base := if |text| > 1 && text[0] == '0' then 8 else 10;
    if text != [] && forall i :: 0 <= i < |text| ==> 0 <= DigitValue(text[i]) < base then
      var v := Digits(text, base);
      if v < TWO_63 then Some(v) else None
    else None
  }

  function DigitValue(c: char): int {
    c as int - '0' as int
  }

  function Digits(text: string, base: int): int {
    if text == [] then 0 else Digits(text[..|text| - 1], base) * base + DigitValue(text[|text| - 1])
  }

  // ---- The printer ----

  function Print(n: Node): seq<Token> {
    match n
    case Name(id) => [Word(id)]
    case Literal(kind, text) => [LIT(kind, text)]
    case Bool(b) => [KEYWORD(if b then "true" else "false")]
    case Nil => [KEYWORD("nil")]
    case Self => [KEYWORD("self")]
    case Infix(l, op, r) => [LPAREN] + (Print(l) + ([OP(op)] + (Print(r) + [RPAREN])))
    case Negate(r) => [LPAREN, OP(MINUS)] + (Print(r) + [RPAREN])
    case Not(r) => [LPAREN, BANG] + (Print(r) + [RPAREN])
    case Index(l, i) => [LPAREN] + (Print(l) + ([LBRACKET] + (Print(i) + [RBRACKET, RPAREN])))
    case Member(obj, field, optional) => Print(obj) + [if optional then QUESTION_DOT else DOT, Word(field)]
    case Call(fn, _, args) => Print(fn) + ([LPAREN] + (PrintList(args) + [RPAREN]))
    case Array(elems) => [LBRACKET] + (PrintList(elems) + [RBRACKET])
    case Spread(v) => [SPREAD] + Print(v)
    case _ => []
  }

  /** Elements joined by commas. */
  function PrintList(ns: seq<Node>): seq<Token> {
    if ns == [] then [] else Print(ns[0]) + PrintTail(ns[1..])
  }

  function PrintTail(ns: seq<Node>): seq<Token> {
    if ns == [] then [] else [COMMA] + (Print(ns[0]) + PrintTail(ns[1..]))
  }

  /** Trees the parser can produce and the printer spells out in full: names that are
      not keywords, literals with a value, calls without type arguments, spreads only
      as array elements. */
  predicate Printable(n: Node)
    decreases n, 0
  {
    match n
    case Name(id) => id !in KEYWORDS
    case Literal(kind, text) => kind == Int ==> IntValue(text).Some?
    case Bool(_) => true
    case Nil => true
    case Self => true
    case Infix(l, _, r) => Printable(l) && Printable(r)
    case Negate(r) => Printable(r)
    case Not(r) => Printable(r)
    case Index(l, i) => Printable(l) && Printable(i)
    case Member(obj, _, _) => Printable(obj)
    case Call(fn, typeArgs, args) => typeArgs == [] && Printable(fn) && AllPrintable(args, false)
    case Array(elems) => AllPrintable(elems, true)
    case _ => false
  }

  predicate AllPrintable(ns: seq<Node>, spreads: bool)
    decreases ns, 0
  {
    ns == [] || (PrintableElement(ns[0], spreads) && AllPrintable(ns[1..], spreads))
  }

  predicate PrintableElement(n: Node, spreads: bool)
    decreases n, 1
  {
    if spreads && n.Spread? then Printable(n.value) else Printable(n)
  }
}
