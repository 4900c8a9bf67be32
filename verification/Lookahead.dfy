// What the parser decides by looking ahead: type arguments, parameter lists, blocks.
module Lookahead {
  import opened Options
  import opened GoInt
  import opened GoStrings
  import opened Syntax
  import opened Parsing
  import opened RoundTrip
  import opened Terms

  /** The names of types with commas between them. */
  function Names(types: seq<string>): seq<Token> {
    if types == [] then []
    else if |types| == 1 then [IDENT(types[0])]
    else [IDENT(types[0])] + ([COMMA] + Names(types[1..]))
  }

  lemma NamesCons(types: seq<string>, ts: seq<Token>)
    requires |types| > 1
    ensures Names(types) + ts == [IDENT(types[0])] + ([COMMA] + (Names(types[1..]) + ts))
  {
    Assoc([COMMA], Names(types[1..]), ts);
    Assoc([IDENT(types[0])], [COMMA] + Names(types[1..]), ts);
  }

  /** The lookahead sees twenty tokens: ten type arguments and the bracket that closes them. */
  lemma {:induction false} TypeArgsFit(types: seq<string>, seen: nat, rest: seq<Token>, follow: Token)
    requires types != []
    ensures TypeArgsAhead(Names(types) + ([RBRACKET] + rest), 0, seen, follow)
            <==> seen + 2 * |types| <= 20 && At(rest, 0) == follow
    decreases |types|
  {
    var close := [RBRACKET] + rest;
    var all := Names(types) + close;
    if |types| == 1 {
      assert all[1..] == close;
    } else {
      var more := Names(types[1..]) + close;
      NamesCons(types, close);
      assert all[1..] == [COMMA] + more;
      assert all[1..][1..] == more;
      if seen < 19 { TypeArgsFit(types[1..], seen + 2, rest, follow); }
    }
  }

  lemma {:induction false} ReadsTypeArgs(t: Token, found: seq<string>, types: seq<string>, rest: seq<Token>, errs: seq<Error>)
    returns (t': Token)
    requires types != []
    ensures TypeArgs(State([t] + (Names(types) + ([RBRACKET] + rest)), errs), found)
            == (found + types, State([t'] + ([RBRACKET] + rest), errs))
    decreases |types|
  {
    var close := [RBRACKET] + rest;
    Step(t, Names(types) + close, errs);
    if |types| == 1 {
      t' := IDENT(types[0]);
      assert Names(types) + close == [t'] + close && found + types == found + [types[0]];
      Step(t', close, errs);
    } else {
      var more := Names(types[1..]) + close;
      NamesCons(types, close);
      Step(IDENT(types[0]), [COMMA] + more, errs);
      t' := ReadsTypeArgs(COMMA, found + [types[0]], types[1..], rest, errs);
      assert (found + [types[0]]) + types[1..] == found + types;
    }
  }

  /** `id[A, B](args)` is a call with type arguments, for up to ten of them. */
  lemma GenericCall(id: string, types: seq<string>, args: seq<Node>, ts: seq<Token>, errs: seq<Error>, prec: int)
    requires 1 <= |types| <= 10 && AllPrintable(args, false)
    ensures Expression(State([IDENT(id)] + ([LBRACKET] + (Names(types) + ([RBRACKET] + ([LPAREN] + (PrintList(args) + ([RPAREN] + ts)))))), errs), prec)
            == Loop(Call(Name(id), types, args), State([RPAREN] + ts, errs), prec)
  {
    var call := [LPAREN] + (PrintList(args) + ([RPAREN] + ts));
    var inner := Names(types) + ([RBRACKET] + call);
    TypeArgsFit(types, 0, call, LPAREN);
    Step(IDENT(id), [LBRACKET] + inner, errs);
    assert ([LBRACKET] + inner)[1..] == inner;
    var t := ReadsTypeArgs(LBRACKET, [], types, call, errs);
    assert [] + types == types;
    ReadsArgs(args, ts, errs);
    CallAfterTypes(id, State([IDENT(id)] + ([LBRACKET] + inner), errs), t, types, call);
  }

  lemma CallAfterTypes(id: string, s: State, t: Token, types: seq<string>, call: seq<Token>)
    requires s.Cur() == IDENT(id) && s.Peek().LBRACKET? && TypeArgsAhead(s.Ahead(), 0, 0, LPAREN)
    requires TypeArgs(s.Next(), []) == (types, State([t] + ([RBRACKET] + call), s.errs)) && At(call, 0).LPAREN?
    ensures var (args, s1) := List(State(call, s.errs), RPAREN); Prefix(s) == (true, Call(Name(id), types, args), s1)
  {
    Step(t, [RBRACKET] + call, s.errs);
    Step(RBRACKET, call, s.errs);
  }

  /** `(x) {` behind an expression is a parameter list and no call. */
  lemma ParamsAreNoCall(n: Node, t: Token, x: string, ts: seq<Token>, errs: seq<Error>, prec: int)
    requires prec >= LOWEST
    ensures Loop(n, State([t] + ([LPAREN, IDENT(x), RPAREN, LBRACE] + ts), errs), prec)
            == (n, State([t] + ([LPAREN, IDENT(x), RPAREN, LBRACE] + ts), errs))
  {
    Step(t, [LPAREN, IDENT(x), RPAREN, LBRACE] + ts, errs);
  }

  /** A brace behind a name opens a struct literal when `}` or a field comes next, else
      it is the block of the statement that the expression stands in. */
  lemma BlockOrStruct(id: string, ts: seq<Token>, errs: seq<Error>, prec: int)
    requires prec >= LOWEST
    ensures var s := State([IDENT(id)] + ([LBRACE] + ts), errs);
            if ts != [] && (ts[0] == RBRACE || (|ts| > 1 && ts[0].IDENT? && ts[1] == COLON))
            then Prefix(s) == (true, Missing, State([LBRACE] + ts, errs + [NotModelled(LBRACE)]))
            else Expression(s, prec) == (Name(id), s)
  {
    Step(IDENT(id), [LBRACE] + ts, errs);
    assert ([LBRACE] + ts)[1..] == ts;
    assert StructLiteralAhead(ts) <==> ts != [] && (ts[0] == RBRACE || (|ts| > 1 && ts[0].IDENT? && ts[1] == COLON));
    var s := State([IDENT(id)] + ([LBRACE] + ts), errs);
    if !StructLiteralAhead(ts) {
      assert Prefix(s) == (true, Name(id), s);
      LoopStops(Name(id), IDENT(id), [LBRACE] + ts, errs, prec);
    }
  }

  /** Any other keyword without a form of its own is read as a name. */
  lemma KeywordsAreNames(word: string, ts: seq<Token>, errs: seq<Error>, prec: int) returns (t: Token)
    requires Safe(ts) && word !in {"true", "false", "nil", "self", "stream", "assert", "await", "spawn", "fn"}
    ensures Expression(State([KEYWORD(word)] + ts, errs), prec) == Loop(Name(word), State([t] + ts, errs), prec)
    ensures t == KEYWORD(word) || t == IDENT(word)
  {
    Step(KEYWORD(word), ts, errs);
    var s := State([IDENT(word)] + ts, errs);
    Step(IDENT(word), ts, errs);
    assert State([KEYWORD(word)] + ts, errs).Retag(word) == s;
    assert Identifier(word, s) == (Name(word), s);
    t := if KeywordForm(word, State([KEYWORD(word)] + ts, errs)).1 == s then IDENT(word) else KEYWORD(word);
  }

  /** The names of builtin objects stand for themselves, whatever comes behind. */
  lemma BuiltinsAreNames(word: string, ts: seq<Token>, errs: seq<Error>)
    requires word in {"cache", "workflow", "ai", "mail", "store", "search", "auth", "validate"}
    ensures Prefix(State([KEYWORD(word)] + ts, errs)) == (true, Name(word), State([KEYWORD(word)] + ts, errs))
  {
    Step(KEYWORD(word), ts, errs);
  }

  /** Where a name is wanted, a keyword will do and becomes one; any other token of the
      wrong type is reported and stays. */
  lemma ExpectedName(t: Token, next: Token, ts: seq<Token>, errs: seq<Error>, name: string)
    ensures var r := Expect(State([t] + ([next] + ts), errs), IDENT(name));
      if next.IDENT? then r == (true, State([next] + ts, errs))
      else if next.KEYWORD? then r == (true, State([IDENT(next.text)] + ts, errs))
      else r == (false, State([t] + ([next] + ts), errs + [Expected(IDENT(name), next)]))
  {
    Step(t, [next] + ts, errs);
    if next.KEYWORD? { assert ([next] + ts)[0 := IDENT(next.text)] == [IDENT(next.text)] + ts; }
  }

  // ----- Integer literals -----

  /** A number below 2^63 is an integer literal, and no greater one. */
  lemma NumberIsLiteral(n: nat)
    ensures IntValue(Decimal(n)) == if n < 0x8000_0000_0000_0000 then Some(n) else None
  {
    AtoiUndoesDecimal(n);
    DigitsAreValue(Decimal(n));
    if n >= 10 { NoLeadingZero(n); }
    forall i | 0 <= i < |Decimal(n)| ensures 0 <= DigitValue(Decimal(n)[i]) < 10 { assert IsDigit(Decimal(n)[i]); }
  }

  lemma {:induction false} DigitsAreValue(text: string)
    requires AllDigits(text)
    ensures Digits(text, 10) == DigitsValue(text)
  {
    if text != [] { DigitsAreValue(text[..|text| - 1]); }
  }

  lemma {:induction false} NoLeadingZero(n: nat)
    requires n >= 1
    ensures Decimal(n)[0] != '0'
  {
    if n >= 10 { NoLeadingZero(n / 10); }
  }

  /** Behind a leading zero only the digits up to 7 are allowed. */
  lemma LeadingZero(digits: string)
    requires digits != ""
    ensures (exists i :: 0 <= i < |digits| && !('0' <= digits[i] <= '7')) ==> IntValue("0" + digits).None?
    ensures (forall i :: 0 <= i < |digits| ==> '0' <= digits[i] <= '7') ==>
      IntValue("0" + digits) == if Octal(digits) < 0x8000_0000_0000_0000 then Some(Octal(digits)) else None
  {
    var text := "0" + digits;
    if i :| 0 <= i < |digits| && !('0' <= digits[i] <= '7') { assert text[i + 1] == digits[i]; }
    if forall i :: 0 <= i < |digits| ==> '0' <= digits[i] <= '7' { OctalDigits(digits); }
  }

  /** Each place counts eight times the place behind it. */
  function Octal(digits: string): nat
    requires forall i :: 0 <= i < |digits| ==> '0' <= digits[i] <= '7'
  {
    if digits == "" then 0 else 8 * Octal(digits[..|digits| - 1]) + (digits[|digits| - 1] - '0') as int
  }

  lemma {:induction false} OctalDigits(digits: string)
    requires forall i :: 0 <= i < |digits| ==> '0' <= digits[i] <= '7'
    ensures Digits("0" + digits, 8) == Octal(digits)
  {
    if digits == "" {
      assert "0"[..0] == "";
    } else {
      assert ("0" + digits)[..|digits|] == "0" + digits[..|digits| - 1];
      OctalDigits(digits[..|digits| - 1]);
    }
  }
}
