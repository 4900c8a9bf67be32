// The expression parser itself: an object that advances curToken and peekToken
// over the lexer's output (compiler/parser.go, compiler/parser_expr.go). Every
// method is proved to do to the tokens what the functions of Parsing say.
module Parser {
  import opened Options
  import opened Syntax
  import opened Parsing

  lemma SliceEndStep(left: Node, start: Node, s: State, open: bool, end: Node, s1: State)
    requires (end, s1) == if open then (Missing, s) else Expression(s, LOWEST)
    ensures SliceEnd(left, start, s, open) ==
            (if Expect(s1, RBRACKET).0 then Slice(left, start, end) else Missing, Expect(s1, RBRACKET).1)
  {}

  lemma IndexFormStep(left: Node, s: State)
    requires s.Cur().LBRACKET?
    ensures var s1 := s.Next();
            var (index, s2) := Expression(s1, LOWEST);
            IndexForm(left, s) ==
            if s1.Cur().COLON? then SliceEnd(left, Missing, s1.Next(), s1.Next().Cur().RBRACKET?)
            else if s2.Peek().COLON? then
              var s3 := s2.Next().Next();
              if s3.Cur().RBRACKET? then (Slice(left, index, Missing), s3) else SliceEnd(left, index, s3, false)
            else
              var (ok, s3) := Expect(s2, RBRACKET);
              (if ok then Index(left, index) else Missing, s3)
  {}

  lemma PrefixCases(s: State)
    ensures s.Cur().IDENT? ==> Prefix(s) == (true, Identifier(s.Cur().text, s).0, Identifier(s.Cur().text, s).1)
    ensures s.Cur().KEYWORD? ==> Prefix(s) == (true, KeywordForm(s.Cur().text, s).0, KeywordForm(s.Cur().text, s).1)
    ensures s.Cur().LBRACKET? ==> Prefix(s) == (true, ArrayForm(s).0, ArrayForm(s).1)
    ensures s.Cur().LBRACE? ==> Prefix(s) == (true, Missing, s.Fail(NotModelled(LBRACE)))
  {}

  lemma InfixCases(left: Node, s: State)
    ensures s.Cur().LBRACKET? ==> InfixForm(left, s) == IndexForm(left, s)
    ensures s.Cur().LPAREN? ==> InfixForm(left, s) == (Call(left, [], List(s, RPAREN).0), List(s, RPAREN).1)
    ensures s.Cur().DOT? ==> InfixForm(left, s) == MemberForm(left, s, false)
    ensures s.Cur().QUESTION_DOT? ==> InfixForm(left, s) == MemberForm(left, s, true)
    ensures s.Cur().QUESTION? ==> InfixForm(left, s) == (ErrorProp(left), s)
    ensures s.Cur().ASSIGN? ==>
              InfixForm(left, s) == AssignForm(left, None, left.Name? || (left.Member? && !left.optional) || left.Index?, s)
    ensures s.Cur().COMPOUND_ASSIGN? ==> InfixForm(left, s) == AssignForm(left, Some(s.Cur().op), left.Name?, s)
  {}

  lemma OperatorCases(left: Node, s: State)
    ensures s.Cur().OP? ==>
      var r := Expression(s.Next(), OpPrecedence(s.Cur().op)); InfixForm(left, s) == (Infix(left, s.Cur().op, r.0), r.1)
    ensures s.Cur().PIPE_ARROW? ==>
      var r := Expression(s.Next(), PIPE_P); InfixForm(left, s) == (PipeInto(left, r.0), r.1)
    ensures s.Cur().ARROW? ==>
      var r := Expression(s.Next(), LOWEST); InfixForm(left, s) == (Arrow(if left.Name? then [left.id] else [], r.0), r.1)
  {}

  class ExpressionParser {
    var curToken: Token
    var peekToken: Token
    var input: seq<Token>  // what the lexer still holds
    var errors: seq<Error>

    predicate Valid()
      reads this
    {
      EOF !in input && (peekToken == EOF ==> input == []) && (curToken == EOF ==> peekToken == EOF)
    }

    function Contents(): (s: State)
      reads this
      requires Valid()
      ensures s.Cur() == curToken && s.Peek() == peekToken && s.Ahead() == input && s.errs == errors
    {
      State(if curToken == EOF then [] else if peekToken == EOF then [curToken] else [curToken, peekToken] + input, errors)
    }

    /** NewParser reads two tokens. */
    constructor (tokens: seq<Token>)
      requires EOF !in tokens
      ensures Valid() && Contents() == State(tokens, [])
    {
      curToken, peekToken := At(tokens, 0), At(tokens, 1);
      input := if |tokens| < 2 then [] else tokens[2..];
      errors := [];
    }

    method NextToken()
      requires Valid()
      modifies this
      ensures Valid() && Contents() == old(Contents()).Next()
    {
      curToken := peekToken;
      if input == [] {
        peekToken := EOF;
      } else {
        peekToken, input := input[0], input[1..];
      }
    }

    method AddError(e: Error)
      requires Valid()
      modifies this`errors
      ensures Valid() && Contents() == old(Contents()).Fail(e)
    {
      errors := errors + [e];
    }

    method Retag(word: string)
      requires Valid() && curToken != EOF
      modifies this`curToken
      ensures Valid() && Contents() == old(Contents()).Retag(word)
    {
      curToken := IDENT(word);
    }

    method ExpectPeek(want: Token) returns (ok: bool)
      requires Valid()
      modifies this
      ensures Valid() && (ok, Contents()) == Expect(old(Contents()), want)
    {
      if SameType(peekToken, want) {
        NextToken();
        return true;
      }
      if want.IDENT? && peekToken.KEYWORD? {
        NextToken();
        Retag(curToken.text);
        return true;
      }
      AddError(Expected(want, peekToken));
      return false;
    }

    /** isGenericCallAhead and isGenericStructLiteralAhead: at most twenty tokens of a
        copy of the lexer. */
    method IsTypeArgsAhead(follow: Token) returns (r: bool)
      requires Valid()
      ensures r == TypeArgsAhead(input, 0, 0, follow)
    {
      var copy, depth := input, 0;
      for i := 0 to 20
        invariant depth >= 0 && TypeArgsAhead(copy, depth, i, follow) == TypeArgsAhead(input, 0, 0, follow)
      {
        var t := At(copy, 0);
        if t.LBRACKET? {
          depth := depth + 1;
        } else if t.RBRACKET? {
          if depth > 0 {
            depth := depth - 1;
          } else {
            return At(copy, 1) == follow;
          }
        } else if t == EOF {
          return false;
        } else if !t.IDENT? && !t.COMMA? {
          return false;
        }
        copy := copy[1..];
      }
      return false;
    }

    method ParseExpression(prec: int) returns (n: Node)
      requires Valid()
      modifies this
      ensures Valid() && (n, Contents()) == Expression(old(Contents()), prec)
      decreases |Contents().toks|, 3
    {
      var ok, left := ParsePrefix();
      if !ok {
        return Missing;
      }
      n := left;
      ghost var goal := Loop(left, Contents(), prec);
      ghost var start := |Contents().toks|;
      while peekToken != EOF && prec < PeekPrecedence(Contents())
        invariant Valid() && Loop(n, Contents(), prec) == goal && |Contents().toks| <= start
        decreases |Contents().toks|
      {
        NextToken();
        n := ParseInfix(n);
      }
    }

    method ParsePrefix() returns (ok: bool, n: Node)
      requires Valid()
      modifies this
      ensures Valid() && (ok, n, Contents()) == Prefix(old(Contents()))
      decreases |Contents().toks|, 2
    {
      ok, n := true, Missing;
      PrefixCases(Contents());
      match curToken {
        case IDENT(id) => n := ParseIdentifier(id);
        case LIT(kind, text) =>
          if kind == Int && IntValue(text).None? {
            AddError(BadInteger(text));
          } else {
            n := Literal(kind, text);
          }
        case KEYWORD(word) => n := ParseKeyword(word);
        case LPAREN => n := ParseGroupedExpression();
        case LBRACKET => n := ParseArrayLiteral();
        case LBRACE => AddError(NotModelled(LBRACE));
        case BANG => n := ParsePrefixExpression();
        case OP(op) =>
          if op == MINUS {
            n := ParsePrefixExpression();
          } else {
            AddError(NoPrefix(curToken));
            ok := false;
          }
        case _ =>
          AddError(NoPrefix(curToken));
          ok := false;
      }
    }

    method ParsePrefixExpression() returns (n: Node)
      requires Valid() && (curToken == OP(MINUS) || curToken == BANG)
      modifies this
      ensures Valid() && (true, n, Contents()) == Prefix(old(Contents()))
      decreases |Contents().toks|, 1
    {
      var sign := curToken;
      NextToken();
      var right := ParseExpression(PRODUCT);
      n := if sign == BANG then Not(right) else Negate(right);
    }

    method ParseGroupedExpression() returns (n: Node)
      requires Valid() && curToken.LPAREN?
      modifies this
      ensures Valid() && (true, n, Contents()) == Prefix(old(Contents()))
      decreases |Contents().toks|, 1
    {
      NextToken();
      n := ParseExpression(LOWEST);
      var closed := ExpectPeek(RPAREN);
      if !closed {
        n := Missing;
      }
    }

    method ParseKeyword(word: string) returns (n: Node)
      requires Valid() && curToken != EOF
      modifies this
      ensures Valid() && (n, Contents()) == KeywordForm(word, old(Contents()))
      decreases |Contents().toks|, 1
    {
      if word == "true" {
        n := Bool(true);
      } else if word == "false" {
        n := Bool(false);
      } else if word == "nil" {
        n := Nil;
      } else if word == "self" {
        n := Self;
      } else if word in {"cache", "workflow", "ai", "mail", "store", "search", "auth", "validate"} {
        n := Name(word);
      } else if word in {"stream", "assert", "await", "spawn", "fn"} {
        AddError(NotModelled(curToken));
        n := Missing;
      } else {
        Retag(word);
        n := ParseIdentifier(word);
      }
    }

    method ParseIdentifier(id: string) returns (n: Node)
      requires Valid() && curToken != EOF
      modifies this
      ensures Valid() && (n, Contents()) == Identifier(id, old(Contents()))
      decreases |Contents().toks|, 0
    {
      if peekToken.LBRACKET? {
        var generic := IsTypeArgsAhead(LPAREN);
        var struct_ := IsTypeArgsAhead(LBRACE);
        if generic {
          NextToken();
          var typeArgs := ParseTypeArgs();
          NextToken();
          if peekToken.LPAREN? {
            NextToken();
            var args := ParseExpressionList(RPAREN);
            return Call(Name(id), typeArgs, args);
          }
        } else if struct_ {
          NextToken();
          var typeArgs := ParseTypeArgs();
          NextToken();
          if peekToken.LBRACE? {
            NextToken();
            AddError(NotModelled(LBRACE));
            return Missing;
          }
        }
      }
      if peekToken.LBRACE? && StructLiteralAhead(input) {
        NextToken();
        AddError(NotModelled(LBRACE));
        return Missing;
      }
      n := Name(id);
    }

    method ParseTypeArgs() returns (found: seq<string>)
      requires Valid()
      modifies this
      ensures Valid() && (found, Contents()) == TypeArgs(old(Contents()), [])
      ensures |Contents().toks| <= |old(Contents()).toks|
    {
      found := [];
      while !peekToken.RBRACKET? && peekToken != EOF
        invariant Valid() && TypeArgs(Contents(), found) == TypeArgs(old(Contents()), [])
        decreases |Contents().toks|
      {
        NextToken();
        if curToken.IDENT? {
          found := found + [curToken.text];
        }
        if peekToken.COMMA? {
          NextToken();
        }
      }
    }

    method ParseInfix(left: Node) returns (n: Node)
      requires Valid()
      modifies this
      ensures Valid() && (n, Contents()) == InfixForm(left, old(Contents()))
      decreases |Contents().toks|, 2
    {
      InfixCases(left, Contents());
      match curToken {
        case OP(op) => n := ParseInfixExpression(left, op);
        case PIPE_ARROW => n := ParsePipeExpression(left);
        case LPAREN =>
          var args := ParseExpressionList(RPAREN);
          n := Call(left, [], args);
        case LBRACKET => n := ParseIndexExpression(left);
        case DOT => n := ParseMemberExpression(left, false);
        case QUESTION_DOT => n := ParseMemberExpression(left, true);
        case QUESTION => n := ErrorProp(left);
        case ASSIGN => n := ParseAssignment(left, None, left.Name? || (left.Member? && !left.optional) || left.Index?);
        case COMPOUND_ASSIGN(op) => n := ParseAssignment(left, Some(op), left.Name?);
        case ARROW => n := ParseArrowFunction(left);
        case _ => n := left;
      }
    }

    method ParseInfixExpression(left: Node, op: BinOp) returns (n: Node)
      requires Valid() && curToken == OP(op)
      modifies this
      ensures Valid() && (n, Contents()) == InfixForm(left, old(Contents()))
      decreases |Contents().toks|, 1
    {
      OperatorCases(left, Contents());
      NextToken();
      var right := ParseExpression(OpPrecedence(op));
      n := Infix(left, op, right);
    }

    method ParsePipeExpression(left: Node) returns (n: Node)
      requires Valid() && curToken.PIPE_ARROW?
      modifies this
      ensures Valid() && (n, Contents()) == InfixForm(left, old(Contents()))
      decreases |Contents().toks|, 1
    {
      OperatorCases(left, Contents());
      NextToken();
      var right := ParseExpression(PIPE_P);
      n := PipeInto(left, right);
    }

    method ParseArrowFunction(left: Node) returns (n: Node)
      requires Valid() && curToken.ARROW?
      modifies this
      ensures Valid() && (n, Contents()) == InfixForm(left, old(Contents()))
      decreases |Contents().toks|, 1
    {
      OperatorCases(left, Contents());
      NextToken();
      var v := ParseExpression(LOWEST);
      n := Arrow(if left.Name? then [left.id] else [], v);
    }

    /** parseAssignmentExpression and parseCompoundAssignExpression. */
    method ParseAssignment(left: Node, compound: Option<BinOp>, legal: bool) returns (n: Node)
      requires Valid() && curToken != EOF
      modifies this
      ensures Valid() && (n, Contents()) == AssignForm(left, compound, legal, old(Contents()))
      decreases |Contents().toks|, 0
    {
      if legal {
        NextToken();
        var v := ParseExpression(LOWEST);
        n := Assign(left, compound, v);
      } else {
        AddError(BadTarget);
        n := Missing;
      }
    }

    method ParseMemberExpression(left: Node, optional: bool) returns (n: Node)
      requires Valid()
      modifies this
      ensures Valid() && (n, Contents()) == MemberForm(left, old(Contents()), optional)
    {
      if peekToken.IDENT? || peekToken.KEYWORD? {
        NextToken();
        var field := curToken.text;
        Retag(field);
        n := Member(left, field, optional);
      } else {
        AddError(Expected(IDENT(""), peekToken));
        n := Missing;
      }
    }

    method ParseIndexExpression(left: Node) returns (n: Node)
      requires Valid() && curToken.LBRACKET?
      modifies this
      ensures Valid() && (n, Contents()) == IndexForm(left, old(Contents()))
      decreases |Contents().toks|, 0
    {
      IndexFormStep(left, Contents());
      NextToken();
      if curToken.COLON? {
        NextToken();
        n := ParseSliceEnd(left, Missing, curToken.RBRACKET?);
        return;
      }
      var index := ParseExpression(LOWEST);
      if peekToken.COLON? {
        NextToken();
        NextToken();
        if curToken.RBRACKET? {
          return Slice(left, index, Missing);
        }
        n := ParseSliceEnd(left, index, false);
        return;
      }
      var ok := ExpectPeek(RBRACKET);
      n := if ok then Index(left, index) else Missing;
    }

    method ParseSliceEnd(left: Node, start: Node, open: bool) returns (n: Node)
      requires Valid()
      modifies this
      ensures Valid() && (n, Contents()) == SliceEnd(left, start, old(Contents()), open)
      decreases |Contents().toks|, 4
    {
      var end := Missing;
      if !open {
        end := ParseExpression(LOWEST);
      }
      SliceEndStep(left, start, old(Contents()), open, end, Contents());
      var ok := ExpectPeek(RBRACKET);
      n := if ok then Slice(left, start, end) else Missing;
    }

    method ParseExpressionList(end: Token) returns (list: seq<Node>)
      requires Valid() && curToken != EOF
      modifies this
      ensures Valid() && (list, Contents()) == List(old(Contents()), end)
      decreases |Contents().toks|, 1
    {
      if peekToken == end {
        NextToken();
        return [];
      }
      NextToken();
      var n := ParseExpression(LOWEST);
      list := [n];
      ghost var goal := ListTail(list, Contents());
      ghost var start := |Contents().toks|;
      while peekToken.COMMA?
        invariant Valid() && ListTail(list, Contents()) == goal && |Contents().toks| <= start
        decreases |Contents().toks|
      {
        NextToken();
        NextToken();
        n := ParseExpression(LOWEST);
        list := list + [n];
      }
      var ok := ExpectPeek(end);
      if !ok {
        list := [];
      }
    }

    method ParseArrayLiteral() returns (n: Node)
      requires Valid() && curToken.LBRACKET?
      modifies this
      ensures Valid() && (n, Contents()) == ArrayForm(old(Contents()))
      decreases |Contents().toks|, 1
    {
      if peekToken.RBRACKET? {
        NextToken();
        return Array([]);
      }
      NextToken();
      var e := ParseElement();
      var elements := [e];
      ghost var goal := ArrayTail(elements, Contents());
      ghost var start := |Contents().toks|;
      while peekToken.COMMA?
        invariant Valid() && ArrayTail(elements, Contents()) == goal && |Contents().toks| <= start
        decreases |Contents().toks|
      {
        NextToken();
        NextToken();
        e := ParseElement();
        elements := elements + [e];
      }
      var ok := ExpectPeek(RBRACKET);
      n := if ok then Array(elements) else Missing;
    }

    method ParseElement() returns (n: Node)
      requires Valid()
      modifies this
      ensures Valid() && (n, Contents()) == Element(old(Contents()))
      decreases |Contents().toks|, 4
    {
      if curToken.SPREAD? {
        NextToken();
        var v := ParseExpression(LOWEST);
        n := Spread(v);
      } else {
        n := ParseExpression(LOWEST);
      }
    }
  }
}
