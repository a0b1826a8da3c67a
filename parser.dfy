/** analizador.py's `Parser`: a cursor `pos` over a fixed token list, advanced one token at
    a time. Every method is proved to agree with the grammar function of the same name in
    ParserSpec: on success it returns that function's node and leaves the cursor where the
    function says; on failure it returns the same error. The cursor never moves back. */
module Parser {
  import opened Tokens
  import opened Ast
  import S = ParserSpec

  /** The method's result `r` and cursor `pos` are what the grammar function computed. */
  predicate Agrees<T(==)>(r: Result<T>, spec: S.Parsed<T>, pos: nat)
  {
    match spec
    case Ok(v) => r == Ok(v.0) && pos == v.1
    case Err(e) => r == Err(e)
  }

  /** What remains to be parsed, with `xs` already collected in front of it. */
  function Prepend<T>(xs: seq<T>, rest: S.Parsed<seq<T>>): S.Parsed<seq<T>>
  {
    match rest
    case Ok(v) => Ok((xs + v.0, v.1))
    case Err(e) => Err(e)
  }

  function PrependList<T>(xs: seq<T>, rest: Result<seq<T>>): Result<seq<T>>
  {
    match rest
    case Ok(v) => Ok(xs + v)
    case Err(e) => Err(e)
  }

  function PrependElseIfs(xs: seq<ElseIf>, rest: S.Parsed<(seq<ElseIf>, ElseBody)>)
    : S.Parsed<(seq<ElseIf>, ElseBody)>
  {
    match rest
    case Ok(v) => Ok(((xs + v.0.0, v.0.1), v.1))
    case Err(e) => Err(e)
  }

  lemma PrependNothing<T>(rest: S.Parsed<seq<T>>)
    ensures Prepend([], rest) == rest
  {
    if rest.Ok? { assert [] + rest.value.0 == rest.value.0; }
  }

  lemma PrependListNothing<T>(rest: Result<seq<T>>)
    ensures PrependList([], rest) == rest
  {
    if rest.Ok? { assert [] + rest.value == rest.value; }
  }

  lemma PrependListAssoc<T>(xs: seq<T>, ys: seq<T>, rest: Result<seq<T>>)
    ensures PrependList(xs, PrependList(ys, rest)) == PrependList(xs + ys, rest)
  {
    if rest.Ok? { assert xs + (ys + rest.value) == (xs + ys) + rest.value; }
  }

  lemma PrependElseIfsNothing(rest: S.Parsed<(seq<ElseIf>, ElseBody)>)
    ensures PrependElseIfs([], rest) == rest
  {
    if rest.Ok? { assert [] + rest.value.0.0 == rest.value.0.0; }
  }

  lemma PrependElseIfsAssoc(xs: seq<ElseIf>, ys: seq<ElseIf>,
                            rest: S.Parsed<(seq<ElseIf>, ElseBody)>)
    ensures PrependElseIfs(xs, PrependElseIfs(ys, rest)) == PrependElseIfs(xs + ys, rest)
  {
    if rest.Ok? { assert xs + (ys + rest.value.0.0) == (xs + ys) + rest.value.0.0; }
  }

  lemma PrependAssoc<T>(xs: seq<T>, ys: seq<T>, rest: S.Parsed<seq<T>>)
    ensures Prepend(xs, Prepend(ys, rest)) == Prepend(xs + ys, rest)
  {
    if rest.Ok? { assert xs + (ys + rest.value.0) == (xs + ys) + rest.value.0; }
  }

  class Parser {
    const tokens: seq<Token>
    var pos: nat
    /** `self.funciones`: set by the constructor and never used afterwards. */
    var functions: seq<Node>

    ghost predicate Valid()
      reads this
    {
      pos <= |tokens|
    }

    constructor (ts: seq<Token>)
      ensures Valid() && tokens == ts && pos == 0 && functions == []
    {
      tokens := ts;
      pos := 0;
      functions := [];
    }

    /** `obtener_token_actual` */
    method CurrentToken() returns (t: Option<Token>)
      requires Valid()
      ensures t == None <==> pos >= |tokens|
      ensures t.Some? ==> t.value == tokens[pos]
    {
      t := if pos < |tokens| then Some(tokens[pos]) else None;
    }

    /** `coincidir`: consume the current token if its kind is `k`, else fail and stay. */
    method Match(k: Kind) returns (r: Result<Token>)
      requires Valid()
      modifies this
      ensures Valid()
      ensures r.Ok? <==> old(pos) < |tokens| && tokens[old(pos)].kind == k
      ensures r.Ok? ==> r.value == tokens[old(pos)] && pos == old(pos) + 1
      ensures r.Err? ==> pos == old(pos) && r.error == Mismatch(k, Current(tokens, pos))
      ensures Agrees(r, S.MatchKind(tokens, old(pos), k), pos)
    {
      var t := CurrentToken();
      if t.Some? && t.value.kind == k {
        pos := pos + 1;
        return Ok(t.value);
      } else {
        return Err(Mismatch(k, t));
      }
    }

    /** `termino` */
    method Term() returns (r: Result<Node>)
      requires Valid()
      modifies this
      ensures Valid() && old(pos) <= pos
      ensures Agrees(r, S.Term(tokens, old(pos)), pos)
    {
      var t := CurrentToken();
      if t.None? { return Err(NoneToken); }
      var token := t.value;
      if token.kind == Operator && token.lexeme == "-" {
        var minus := Match(Operator);
        var n :- Match(Number);
        return Ok(Num(Token(Number, "-" + n.lexeme)));
      }
      if token.kind == Number {
        var n := Match(Number);
        return Ok(Num(n.value));
      } else if token.kind == Identifier {
        var id := Match(Identifier);
        return Ok(Ident(id.value));
      } else if token.kind == StringLit {
        var s := Match(StringLit);
        return Ok(Str(s.value));
      } else {
        return Err(Unexpected("termino", Some(token)));
      }
    }

    /** `expresion_ing`: the left operand is rebuilt with each further operator and term. */
    method Expression() returns (r: Result<Node>)
      requires Valid()
      modifies this
      ensures Valid() && old(pos) <= pos
      ensures Agrees(r, S.Expr(tokens, old(pos)), pos)
    {
      var left :- Term();
      while pos < |tokens| && tokens[pos].kind == Operator
        invariant Valid() && old(pos) < pos
        invariant S.Expr(tokens, old(pos)) == S.ExprRest(tokens, pos, left)
        decreases |tokens| - pos
      {
        var op := Match(Operator);
        var right :- Term();
        left := BinOp(left, op.value.lexeme, right);
      }
      return Ok(left);
    }

    /** `expresion`: the operands of the extra `print` arguments are checked, not kept. */
    method PrintArg() returns (r: Result<()>)
      requires Valid()
      modifies this
      ensures Valid() && old(pos) <= pos
      ensures Agrees(r, S.PrintArg(tokens, old(pos)), pos)
    {
      var t := CurrentToken();
      if t.None? { return Err(NoneToken); }
      if !S.IsPrintOperandKind(t.value.kind) {
        return Err(Unexpected("expresion", t));
      }
      var first := Match(t.value.kind);
      while pos < |tokens| && tokens[pos].kind == Operator
        invariant Valid() && old(pos) < pos
        invariant S.PrintArg(tokens, old(pos)) == S.PrintArgRest(tokens, pos)
        decreases |tokens| - pos
      {
        var op := Match(Operator);
        var next := CurrentToken();
        if next.None? { return Err(NoneToken); }
        if S.IsPrintOperandKind(next.value.kind) {
          var operand := Match(next.value.kind);
        } else {
          // the message of this SyntaxError calls a method the class does not have
          return Err(AttributeFailure("obtener_token_anterior"));
        }
      }
      return Ok(());
    }

    /** `argumentos` */
    method Arguments() returns (r: Result<seq<Node>>)
      requires Valid()
      modifies this
      ensures Valid() && old(pos) <= pos
      ensures Agrees(r, S.Arguments(tokens, old(pos)), pos)
    {
      var args: seq<Node> := [];
      PrependNothing(S.Arguments(tokens, pos));
      while pos < |tokens| && tokens[pos].lexeme != ")"
        invariant Valid() && old(pos) <= pos
        invariant S.Arguments(tokens, old(pos)) == Prepend(args, S.Arguments(tokens, pos))
        decreases |tokens| - pos
      {
        ghost var before := pos;
        var e :- Expression();
        if pos < |tokens| && tokens[pos].lexeme == "," {
          var comma :- Match(Delimiter);
        }
        PrependAssoc(args, [e], S.Arguments(tokens, pos));
        args := args + [e];
      }
      assert S.Arguments(tokens, pos) == Ok(([], pos));
      assert args + [] == args;
      return Ok(args);
    }

    /** `llamada_funcion` */
    method FunctionCall() returns (r: Result<Node>)
      requires Valid()
      modifies this
      ensures Valid() && old(pos) <= pos
      ensures Agrees(r, S.FunctionCall(tokens, old(pos)), pos)
    {
      var t := CurrentToken();
      if t.None? { return Err(NoneToken); }
      if t.value.kind != Identifier && t.value.kind != LibFunction {
        return Err(Unexpected("llamada_funcion", t));
      }
      var name := Match(t.value.kind);
      var open :- Match(Delimiter);
      var args :- Arguments();
      var close :- Match(Delimiter);
      return Ok(Call(name.value.lexeme, args));
    }

    /** `parametros` */
    method Parameters() returns (r: Result<seq<Param>>)
      requires Valid()
      modifies this
      ensures Valid() && old(pos) <= pos
      ensures Agrees(r, S.Parameters(tokens, old(pos)), pos)
    {
      var params: seq<Param> := [];
      PrependNothing(S.Parameters(tokens, pos));
      while pos < |tokens| && tokens[pos].lexeme != ")"
        invariant Valid() && old(pos) <= pos
        invariant S.Parameters(tokens, old(pos)) == Prepend(params, S.Parameters(tokens, pos))
        decreases |tokens| - pos
      {
        var tipo :- Match(Keyword);
        var name :- Match(Identifier);
        if pos < |tokens| && tokens[pos].lexeme == "," {
          var comma :- Match(Delimiter);
        }
        PrependAssoc(params, [Param(tipo.lexeme, name.lexeme)], S.Parameters(tokens, pos));
        params := params + [Param(tipo.lexeme, name.lexeme)];
      }
      assert S.Parameters(tokens, pos) == Ok(([], pos));
      assert params + [] == params;
      return Ok(params);
    }

    /** `declaracion` */
    method Declaration() returns (r: Result<Node>)
      requires Valid()
      modifies this
      ensures Valid() && old(pos) <= pos
      ensures Agrees(r, S.Declaration(tokens, old(pos)), pos)
    {
      var tipo :- Match(Keyword);
      var name :- Match(Identifier);
      var node: Node;
      if pos < |tokens| && tokens[pos].lexeme == "=" {
        var eq :- Match(Operator);
        var t := CurrentToken();
        if t.None? { return Err(NoneToken); }
        var init: Node;
        if t.value.kind == Identifier {
          // `self.tokens[self.pos + 1]` is read without a bounds check
          if pos + 1 >= |tokens| { return Err(PastEnd); }
          if tokens[pos + 1].lexeme == "(" {
            init :- FunctionCall();
          } else {
            init :- Expression();
          }
        } else {
          init :- Expression();
        }
        node := Assign(name, init);
      } else {
        node := Decl(tipo.lexeme, name.lexeme);
      }
      var semi :- Match(Delimiter);
      return Ok(node);
    }

    /** `asignacion` */
    method Assignment() returns (r: Result<Node>)
      requires Valid()
      modifies this
      ensures Valid() && old(pos) <= pos
      ensures Agrees(r, S.Assignment(tokens, old(pos)), pos)
    {
      var tipo :- Match(Keyword);
      var name :- Match(Identifier);
      var op :- Match(Operator);
      var e :- Expression();
      var semi :- Match(Delimiter);
      return Ok(Assign(name, e));
    }

    /** `incremento` */
    method Increment() returns (r: Result<Node>)
      requires Valid()
      modifies this
      ensures Valid() && old(pos) <= pos
      ensures Agrees(r, S.Increment(tokens, old(pos)), pos)
    {
      var v :- Match(Identifier);
      var o1 :- Match(Operator);
      var o2 :- Match(Operator);
      if o1.lexeme + o2.lexeme != "++" && o1.lexeme + o2.lexeme != "--" {
        return Err(Unexpected("incremento", Some(o2)));
      }
      return Ok(Ast.Increment(v.lexeme, o1.lexeme + o2.lexeme));
    }

    /** `retorno` */
    method ReturnStmt() returns (r: Result<Node>)
      requires Valid()
      modifies this
      ensures Valid() && old(pos) <= pos
      ensures Agrees(r, S.ReturnStmt(tokens, old(pos)), pos)
    {
      var kw :- Match(Keyword);
      var e :- Expression();
      var semi :- Match(Delimiter);
      return Ok(Return(e));
    }

    /** `declaracion_constante` */
    method ConstDeclaration() returns (r: Result<Node>)
      requires Valid()
      modifies this
      ensures Valid() && old(pos) <= pos
      ensures Agrees(r, S.ConstDeclaration(tokens, old(pos)), pos)
    {
      var kw :- Match(Keyword);
      var tipo :- Match(Keyword);
      var name :- Match(Identifier);
      var eq :- Match(Operator);
      var t := CurrentToken();
      if t.None? { return Err(NoneToken); }
      var value: Result<Token>;
      if t.value.kind == Number {
        value := Match(Number);
      } else if t.value.kind == Identifier {
        value := Match(Identifier);
      } else {
        return Err(Unexpected("declaracion_constante", t));
      }
      var semi :- Match(Delimiter);
      return Ok(Const(tipo.lexeme, name.lexeme, value.value));
    }

    /** The optional `-` before each operand of `expresion_logica`. */
    method Sign() returns (r: Result<bool>)
      requires Valid()
      modifies this
      ensures Valid() && old(pos) <= pos
      ensures Agrees(r, S.Sign(tokens, old(pos)), pos)
    {
      var t := CurrentToken();
      if t.None? { return Err(NoneToken); }
      if t.value.kind == Operator && t.value.lexeme == "-" {
        var minus := Match(Operator);
        return Ok(true);
      }
      return Ok(false);
    }

    /** Each operand of `expresion_logica`: an identifier, or a number carrying the sign. */
    method Operand(negative: bool) returns (r: Result<Node>)
      requires Valid()
      modifies this
      ensures Valid() && old(pos) <= pos
      ensures Agrees(r, S.Operand(tokens, old(pos), negative), pos)
    {
      var t := CurrentToken();
      if t.None? { return Err(NoneToken); }
      if t.value.kind == Identifier {
        var id := Match(Identifier);
        return Ok(Ident(id.value));
      } else if t.value.kind == Number {
        var num := Match(Number);
        return Ok(Num(Token(Number, if negative then "-" + num.value.lexeme else num.value.lexeme)));
      } else {
        return Err(Unexpected("expresion_logica", t));
      }
    }

    /** `expresion_logica` */
    method Comparison() returns (r: Result<Node>)
      requires Valid()
      modifies this
      ensures Valid() && old(pos) <= pos
      ensures Agrees(r, S.Comparison(tokens, old(pos)), pos)
    {
      var negativeLeft :- Sign();
      var left :- Operand(negativeLeft);
      var first :- Match(Operator);
      var op := first.lexeme;
      var t := CurrentToken();
      if t.None? { return Err(NoneToken); }
      if t.value.kind == Operator && S.IsCompoundRelOp(op + t.value.lexeme) {
        var second := Match(Operator);
        op := op + second.value.lexeme;
      }
      var negativeRight :- Sign();
      var right :- Operand(negativeRight);
      if !IsRelOp(op) {
        return Err(Unexpected("expresion_logica", None));
      }
      return Ok(Compare(left, op, right));
    }

    /** `printf_llamada`: returns the `None` the body appends. */
    method PrintCall() returns (r: Result<Node>)
      requires Valid()
      modifies this
      ensures Valid() && old(pos) <= pos
      ensures Agrees(r, S.PrintCall(tokens, old(pos)), pos)
    {
      var kw :- Match(Keyword);
      var open :- Match(Delimiter);
      var t := CurrentToken();
      if t.None? { return Err(NoneToken); }
      if t.value.kind != StringLit && t.value.kind != Identifier {
        return Err(Unexpected("printf_llamada", t));
      }
      var first := Match(t.value.kind);
      ghost var argsStart := pos;
      while pos < |tokens| && tokens[pos].lexeme == ","
        invariant Valid() && argsStart <= pos
        invariant S.PrintArgs(tokens, argsStart) == S.PrintArgs(tokens, pos)
        decreases |tokens| - pos
      {
        var comma :- Match(Delimiter);
        var arg :- PrintArg();
      }
      var close :- Match(Delimiter);
      var semi :- Match(Delimiter);
      return Ok(NoneNode);
    }

    /** `( expresion_logica )`, the condition of `if`, `else if` and `while`. */
    method Condition() returns (r: Result<Node>)
      requires Valid()
      modifies this
      ensures Valid() && old(pos) <= pos
      ensures Agrees(r, S.Condition(tokens, old(pos)), pos)
    {
      var open :- Match(Delimiter);
      var c :- Comparison();
      var close :- Match(Delimiter);
      return Ok(c);
    }

    /** `{ cuerpo }`, the braces around every body. */
    method Block() returns (r: Result<seq<Node>>)
      requires Valid()
      modifies this
      ensures Valid() && old(pos) <= pos
      ensures Agrees(r, S.Block(tokens, old(pos)), pos)
      decreases |tokens| - pos, 4
    {
      var open :- Match(Delimiter);
      var body :- Body();
      var close :- Match(Delimiter);
      return Ok(body);
    }

    /** `cuerpo` */
    method Body() returns (r: Result<seq<Node>>)
      requires Valid()
      modifies this
      ensures Valid() && old(pos) <= pos
      ensures Agrees(r, S.Body(tokens, old(pos)), pos)
      decreases |tokens| - pos, 3
    {
      var stmts: seq<Node> := [];
      PrependNothing(S.Body(tokens, pos));
      while pos < |tokens| && tokens[pos].lexeme != "}"
        invariant Valid() && old(pos) <= pos
        invariant S.Body(tokens, old(pos)) == Prepend(stmts, S.Body(tokens, pos))
        decreases |tokens| - pos
      {
        if tokens[pos].kind == Delimiter && tokens[pos].lexeme == ";" {
          var semi := Match(Delimiter);
          continue;
        }
        var st :- Statement();
        PrependAssoc(stmts, [st], S.Body(tokens, pos));
        stmts := stmts + [st];
      }
      assert S.Body(tokens, pos) == Ok(([], pos));
      assert stmts + [] == stmts;
      return Ok(stmts);
    }

    /** The dispatch inside the loop of `cuerpo`, on the current token and the one after it. */
    method Statement() returns (r: Result<Node>)
      requires Valid() && pos < |tokens|
      modifies this
      ensures Valid() && old(pos) <= pos
      ensures Agrees(r, S.Statement(tokens, old(pos)), pos)
      decreases |tokens| - pos, 2
    {
      var t := tokens[pos];
      if t.kind == Keyword {
        if t.lexeme == "if" {
          r := IfChain();
        } else if t.lexeme == "const" {
          r := ConstDeclaration();
        } else if t.lexeme == "print" {
          r := PrintCall();
        } else if t.lexeme == "return" {
          r := ReturnStmt();
        } else if t.lexeme == "while" {
          r := WhileLoop();
        } else if t.lexeme == "for" {
          r := ForLoop();
        } else if S.IsTypeKeyword(t.lexeme) {
          r := Declaration();
        } else {
          r := Err(Unexpected("cuerpo", Some(t)));
        }
      } else if t.kind == Identifier {
        var next := if pos + 1 < |tokens| then Some(tokens[pos + 1]) else None;
        if next.Some? && next.value.lexeme == "(" {
          var call :- FunctionCall();
          if pos < |tokens| && tokens[pos].lexeme == "=" {
            var eq :- Match(Operator);
            r := Ok(Assign(t, call));
          } else {
            r := Ok(call);
          }
        } else if next.Some? && next.value.lexeme == "=" {
          var name := Match(Identifier);
          var op :- Match(Operator);
          var e :- Expression();
          var semi :- Match(Delimiter);
          r := Ok(Assign(name.value, e));
        } else {
          r := Err(Unexpected("cuerpo", Some(t)));
        }
      } else if t.kind == Number || t.kind == StringLit {
        var e :- Expression();
        var semi :- Match(Delimiter);
        r := Ok(e);
      } else if t.kind == LibFunction {
        r := FunctionCall();
      } else {
        r := Err(Unexpected("cuerpo", Some(t)));
      }
    }

    /** `bucle_if` */
    method IfChain() returns (r: Result<Node>)
      requires Valid()
      modifies this
      ensures Valid() && old(pos) <= pos
      ensures Agrees(r, S.IfChain(tokens, old(pos)), pos)
      decreases |tokens| - pos, 1
    {
      var kw :- Match(Keyword);
      var cond :- Condition();
      var body :- Block();
      var elseIfs: seq<ElseIf> := [];
      var elseBody: ElseBody := NoElse;
      ghost var chainStart := pos;
      PrependElseIfsNothing(S.ElseChain(tokens, pos));
      while pos < |tokens| && tokens[pos].lexeme == "else"
        invariant Valid() && chainStart <= pos
        invariant S.ElseChain(tokens, chainStart) == PrependElseIfs(elseIfs, S.ElseChain(tokens, pos))
        invariant elseBody.NoElse?
        decreases |tokens| - pos
      {
        ghost var here := pos;
        var kwElse :- Match(Keyword);
        if pos < |tokens| && tokens[pos].lexeme == "if" {
          var kwIf :- Match(Keyword);
          var c :- Condition();
          var b :- Block();
          assert S.ElseChain(tokens, here) == PrependElseIfs([ElseIf(c, b)], S.ElseChain(tokens, pos));
          PrependElseIfsAssoc(elseIfs, [ElseIf(c, b)], S.ElseChain(tokens, pos));
          elseIfs := elseIfs + [ElseIf(c, b)];
        } else {
          var b :- Block();
          assert S.ElseChain(tokens, here) == Ok((([], Else(b)), pos));
          assert elseIfs + [] == elseIfs;
          elseBody := Else(b);
          break;
        }
      }
      if elseBody.NoElse? {
        assert S.ElseChain(tokens, pos) == Ok((([], NoElse), pos));
        assert elseIfs + [] == elseIfs;
      }
      return Ok(If(cond, body, elseBody, elseIfs));
    }

    /** `bucle_while` */
    method WhileLoop() returns (r: Result<Node>)
      requires Valid()
      modifies this
      ensures Valid() && old(pos) <= pos
      ensures Agrees(r, S.WhileLoop(tokens, old(pos)), pos)
      decreases |tokens| - pos, 1
    {
      var kw :- Match(Keyword);
      var cond :- Condition();
      var body :- Block();
      return Ok(While(cond, body));
    }

    /** `bucle_for` */
    method ForLoop() returns (r: Result<Node>)
      requires Valid()
      modifies this
      ensures Valid() && old(pos) <= pos
      ensures Agrees(r, S.ForLoop(tokens, old(pos)), pos)
      decreases |tokens| - pos, 1
    {
      var kw :- Match(Keyword);
      var open :- Match(Delimiter);
      var init :- Assignment();
      var cond :- Comparison();
      var semi :- Match(Delimiter);
      var inc :- Increment();
      var close :- Match(Delimiter);
      var body :- Block();
      return Ok(For(init, cond, inc, body));
    }

    /** `funcion` */
    method FunctionDef() returns (r: Result<Node>)
      requires Valid()
      modifies this
      ensures Valid() && old(pos) <= pos
      ensures Agrees(r, S.FunctionDef(tokens, old(pos)), pos)
    {
      var ret :- Match(Keyword);
      var name :- Match(Identifier);
      var open :- Match(Delimiter);
      var params :- Parameters();
      var close :- Match(Delimiter);
      var body :- Block();
      return Ok(Function(name.lexeme, params, body));
    }

    /** `parsear`: functions until the end of input, then the two checks on `main`. */
    method Parse() returns (r: Result<Node>)
      requires Valid()
      modifies this
      ensures Valid() && old(pos) <= pos
      ensures r == S.ParseProgram(tokens, old(pos))
      ensures r.Ok? ==> pos == |tokens|
    {
      var funcs: seq<Node> := [];
      PrependListNothing(S.Functions(tokens, pos));
      while pos < |tokens|
        invariant Valid() && old(pos) <= pos
        invariant S.Functions(tokens, old(pos)) == PrependList(funcs, S.Functions(tokens, pos))
        decreases |tokens| - pos
      {
        var t := CurrentToken();
        if t.value.kind == Preprocessor {
          pos := pos + 1;
          var header :- Match(Header);
          continue;
        }
        ghost var here := pos;
        var f :- FunctionDef();
        assert S.Functions(tokens, here) == PrependList([f], S.Functions(tokens, pos));
        PrependListAssoc(funcs, [f], S.Functions(tokens, pos));
        funcs := funcs + [f];
      }
      assert funcs + [] == funcs;
      if !S.HasMain(funcs) {
        return Err(NoMain);
      }
      if funcs[|funcs| - 1].name != "main" {
        return Err(MainNotLast);
      }
      return Ok(Program(funcs));
    }
  }
}
