/** The recursive-descent grammar of analizador.py's `Parser`, written as functions of the
    token list and a cursor position. Each `ParseX(ts, p)` returns the node and the cursor
    after it, or the error the method raises. The `Parser` class is proved against these. */
module ParserSpec {
  import opened Tokens
  import opened Ast

  /** A parsed value and the cursor after it. */
  type Parsed<T> = Result<(T, nat)>

  /** The type keywords that start a declaration inside a body. */
  predicate IsTypeKeyword(s: string)
  {
    s == "int" || s == "float" || s == "void" || s == "double" || s == "char"
  }

  /** The two-character operators that `expresion_logica` builds from two tokens. */
  predicate IsCompoundRelOp(s: string)
  {
    s == "==" || s == "!=" || s == ">=" || s == "<="
  }

  /** `coincidir`: consume the current token when its kind is `k`. */
  function MatchKind(ts: seq<Token>, p: nat, k: Kind): (r: Parsed<Token>)
    ensures r.Ok? <==> p < |ts| && ts[p].kind == k
    ensures r.Ok? ==> r.value == (ts[p], p + 1)
    ensures r.Err? ==> r.error == Mismatch(k, Current(ts, p))
  {
    if p < |ts| && ts[p].kind == k then Ok((ts[p], p + 1)) else Err(Mismatch(k, Current(ts, p)))
  }

  /** Consume a `,` delimiter if one is next (the comma step of the list loops). */
  function OptionalComma(ts: seq<Token>, p: nat): (r: Parsed<()>)
    requires p <= |ts|
    ensures r.Ok? ==> p <= r.value.1 <= |ts|
    ensures r.Ok? ==> (r.value.1 == p <==> !AtLexeme(ts, p, ","))
  {
    if AtLexeme(ts, p, ",") then
      var m :- MatchKind(ts, p, Delimiter);
      Ok(((), m.1))
    else Ok(((), p))
  }

  /** `termino`: a number, a `-` followed by a number, an identifier or a string. */
  function Term(ts: seq<Token>, p: nat): (r: Parsed<Node>)
    requires p <= |ts|
    ensures r.Ok? ==> p < r.value.1 <= |ts| && IsTerm(r.value.0)
  {
    if p >= |ts| then Err(NoneToken)
    else
      var t := ts[p];
      if t.kind == Operator && t.lexeme == "-" then
        var n :- MatchKind(ts, p + 1, Number);
        Ok((Num(Token(Number, "-" + n.0.lexeme)), n.1))
      else if t.kind == Number then Ok((Num(t), p + 1))
      else if t.kind == Identifier then Ok((Ident(t), p + 1))
      else if t.kind == StringLit then Ok((Str(t), p + 1))
      else Err(Unexpected("termino", Some(t)))
  }

  /** The loop of `expresion_ing`: while an operator follows, fold one more term in on the right. */
  function ExprRest(ts: seq<Token>, p: nat, acc: Node): (r: Parsed<Node>)
    requires p <= |ts|
    ensures r.Ok? ==> p <= r.value.1 <= |ts|
    ensures r.Ok? ==> !(r.value.1 < |ts| && ts[r.value.1].kind == Operator)
    ensures r.Ok? && LeftAssoc(acc) ==> LeftAssoc(r.value.0)
    ensures r.Ok? && PureExpr(acc) ==> PureExpr(r.value.0)
    decreases |ts| - p
  {
    if p < |ts| && ts[p].kind == Operator then
      var rhs :- Term(ts, p + 1);
      assert PureExpr(rhs.0);
      ExprRest(ts, rhs.1, BinOp(acc, ts[p].lexeme, rhs.0))
    else Ok((acc, p))
  }

  /** `expresion_ing`: `Term (OPERATOR Term)*`, left-associative with one precedence level. */
  function Expr(ts: seq<Token>, p: nat): (r: Parsed<Node>)
    requires p <= |ts|
    ensures r.Ok? ==> p < r.value.1 <= |ts|
    ensures r.Ok? ==> LeftAssoc(r.value.0) && PureExpr(r.value.0)
  {
    var first :- Term(ts, p);
    ExprRest(ts, first.1, first.0)
  }

  /** True for the kinds `expresion` accepts as an operand. */
  predicate IsPrintOperandKind(k: Kind)
  {
    k == Identifier || k == Number || k == StringLit
  }

  /** The loop of `expresion`: operator, operand, repeated; nothing is kept. */
  function PrintArgRest(ts: seq<Token>, p: nat): (r: Parsed<()>)
    requires p <= |ts|
    ensures r.Ok? ==> p <= r.value.1 <= |ts|
    decreases |ts| - p
  {
    if p < |ts| && ts[p].kind == Operator then
      if p + 1 >= |ts| then Err(NoneToken)
      else if IsPrintOperandKind(ts[p + 1].kind) then PrintArgRest(ts, p + 2)
      // the error message calls `obtener_token_anterior`, which the class does not define
      else Err(AttributeFailure("obtener_token_anterior"))
    else Ok(((), p))
  }

  /** `expresion`: the extra arguments of `print`, checked and discarded. */
  function PrintArg(ts: seq<Token>, p: nat): (r: Parsed<()>)
    requires p <= |ts|
    ensures r.Ok? ==> p < r.value.1 <= |ts|
  {
    if p >= |ts| then Err(NoneToken)
    else if IsPrintOperandKind(ts[p].kind) then PrintArgRest(ts, p + 1)
    else Err(Unexpected("expresion", Some(ts[p])))
  }

  /** `argumentos`: expressions up to a `)`, each optionally followed by a comma. */
  function Arguments(ts: seq<Token>, p: nat): (r: Parsed<seq<Node>>)
    requires p <= |ts|
    ensures r.Ok? ==> p <= r.value.1 <= |ts|
    ensures r.Ok? ==> forall i :: 0 <= i < |r.value.0| ==> PureExpr(r.value.0[i])
    decreases |ts| - p
  {
    if p < |ts| && ts[p].lexeme != ")" then
      var e :- Expr(ts, p);
      var c :- OptionalComma(ts, e.1);
      var rest :- Arguments(ts, c.1);
      Ok(([e.0] + rest.0, rest.1))
    else Ok(([], p))
  }

  /** `llamada_funcion`: a call of an identifier or of `printf`/`scanf`. The parentheses
      are matched by kind only, as `coincidir('DELIMITER')` does. */
  function FunctionCall(ts: seq<Token>, p: nat): (r: Parsed<Node>)
    requires p <= |ts|
    ensures r.Ok? ==> p < r.value.1 <= |ts|
    ensures r.Ok? ==> r.value.0.Call? && r.value.0.callee == ts[p].lexeme
  {
    if p >= |ts| then Err(NoneToken)
    else if ts[p].kind == Identifier || ts[p].kind == LibFunction then
      var open :- MatchKind(ts, p + 1, Delimiter);
      var args :- Arguments(ts, open.1);
      var close :- MatchKind(ts, args.1, Delimiter);
      Ok((Call(ts[p].lexeme, args.0), close.1))
    else Err(Unexpected("llamada_funcion", Some(ts[p])))
  }

  /** `parametros`: `KEYWORD IDENTIFIER` pairs up to a `)`, each optionally followed by a comma. */
  function Parameters(ts: seq<Token>, p: nat): (r: Parsed<seq<Param>>)
    requires p <= |ts|
    ensures r.Ok? ==> p <= r.value.1 <= |ts|
    decreases |ts| - p
  {
    if p < |ts| && ts[p].lexeme != ")" then
      var tipo :- MatchKind(ts, p, Keyword);
      var name :- MatchKind(ts, tipo.1, Identifier);
      var c :- OptionalComma(ts, name.1);
      var rest :- Parameters(ts, c.1);
      Ok(([Param(tipo.0.lexeme, name.0.lexeme)] + rest.0, rest.1))
    else Ok(([], p))
  }

  /** The initializer of `declaracion`: a call when an identifier is followed by `(`, else an
      expression. Looking at the token after the identifier reads past the end unchecked. */
  function Initializer(ts: seq<Token>, p: nat): (r: Parsed<Node>)
    requires p <= |ts|
    ensures r.Ok? ==> p < r.value.1 <= |ts|
  {
    if p >= |ts| then Err(NoneToken)
    else if ts[p].kind == Identifier then
      if p + 1 >= |ts| then Err(PastEnd)
      else if ts[p + 1].lexeme == "(" then FunctionCall(ts, p)
      else Expr(ts, p)
    else Expr(ts, p)
  }

  /** `declaracion`: `type name ;` or `type name = init ;`. Only the initialized form keeps
      the name token; the declared type is then dropped. */
  function Declaration(ts: seq<Token>, p: nat): (r: Parsed<Node>)
    requires p <= |ts|
    ensures r.Ok? ==> p < r.value.1 <= |ts|
    ensures r.Ok? ==> r.value.0.Assign? || r.value.0.Decl?
  {
    var tipo :- MatchKind(ts, p, Keyword);
    var name :- MatchKind(ts, tipo.1, Identifier);
    var node :- if AtLexeme(ts, name.1, "=") then
                  var eq :- MatchKind(ts, name.1, Operator);
                  var init :- Initializer(ts, eq.1);
                  Ok((Assign(name.0, init.0), init.1))
                else Ok((Decl(tipo.0.lexeme, name.0.lexeme), name.1));
    var semi :- MatchKind(ts, node.1, Delimiter);
    Ok((node.0, semi.1))
  }

  /** `asignacion`, the initializer of a `for`: `type name OPERATOR expr ;`. */
  function Assignment(ts: seq<Token>, p: nat): (r: Parsed<Node>)
    requires p <= |ts|
    ensures r.Ok? ==> p < r.value.1 <= |ts|
    ensures r.Ok? ==> r.value.0.Assign?
  {
    var tipo :- MatchKind(ts, p, Keyword);
    var name :- MatchKind(ts, tipo.1, Identifier);
    var op :- MatchKind(ts, name.1, Operator);
    var e :- Expr(ts, op.1);
    var semi :- MatchKind(ts, e.1, Delimiter);
    Ok((Assign(name.0, e.0), semi.1))
  }

  /** `incremento`: an identifier and two operator tokens that must spell `++` or `--`. */
  function Increment(ts: seq<Token>, p: nat): (r: Parsed<Node>)
    requires p <= |ts|
    ensures r.Ok? ==> r.value.1 == p + 3 <= |ts|
    ensures r.Ok? <==>
      p + 3 <= |ts| && ts[p].kind == Identifier && ts[p + 1].kind == Operator
      && ts[p + 2].kind == Operator
      && (ts[p + 1].lexeme + ts[p + 2].lexeme == "++" || ts[p + 1].lexeme + ts[p + 2].lexeme == "--")
    ensures r.Ok? ==> r.value.0 == Ast.Increment(ts[p].lexeme, ts[p + 1].lexeme + ts[p + 2].lexeme)
  {
    var v :- MatchKind(ts, p, Identifier);
    var o1 :- MatchKind(ts, v.1, Operator);
    var o2 :- MatchKind(ts, o1.1, Operator);
    var op := o1.0.lexeme + o2.0.lexeme;
    if op != "++" && op != "--" then Err(Unexpected("incremento", Some(o2.0)))
    else Ok((Ast.Increment(v.0.lexeme, op), o2.1))
  }

  /** `retorno`: `KEYWORD expr ;`. */
  function ReturnStmt(ts: seq<Token>, p: nat): (r: Parsed<Node>)
    requires p <= |ts|
    ensures r.Ok? ==> p < r.value.1 <= |ts|
    ensures r.Ok? ==> r.value.0.Return?
  {
    var kw :- MatchKind(ts, p, Keyword);
    var e :- Expr(ts, kw.1);
    var semi :- MatchKind(ts, e.1, Delimiter);
    Ok((Return(e.0), semi.1))
  }

  /** `declaracion_constante`: `const type name OPERATOR (NUMBER | IDENTIFIER) ;`. */
  function ConstDeclaration(ts: seq<Token>, p: nat): (r: Parsed<Node>)
    requires p <= |ts|
    ensures r.Ok? ==> p < r.value.1 <= |ts|
    ensures r.Ok? ==> r.value.0.Const?
  {
    var kw :- MatchKind(ts, p, Keyword);
    var tipo :- MatchKind(ts, kw.1, Keyword);
    var name :- MatchKind(ts, tipo.1, Identifier);
    var eq :- MatchKind(ts, name.1, Operator);
    var value :- if eq.1 >= |ts| then Err(NoneToken)
                 else if ts[eq.1].kind == Number then MatchKind(ts, eq.1, Number)
                 else if ts[eq.1].kind == Identifier then MatchKind(ts, eq.1, Identifier)
                 else Err(Unexpected("declaracion_constante", Some(ts[eq.1])));
    var semi :- MatchKind(ts, value.1, Delimiter);
    Ok((Const(tipo.0.lexeme, name.0.lexeme, value.0), semi.1))
  }

  /** One side of a comparison: an identifier (a preceding `-` is dropped) or a number (a
      preceding `-` is prefixed to its lexeme). */
  function Operand(ts: seq<Token>, p: nat, negative: bool): (r: Parsed<Node>)
    requires p <= |ts|
    ensures r.Ok? ==> r.value.1 == p + 1 <= |ts|
    ensures r.Ok? ==> r.value.0.Ident? || r.value.0.Num?
  {
    if p >= |ts| then Err(NoneToken)
    else if ts[p].kind == Identifier then Ok((Ident(ts[p]), p + 1))
    else if ts[p].kind == Number then
      Ok((Num(Token(Number, if negative then "-" + ts[p].lexeme else ts[p].lexeme)), p + 1))
    else Err(Unexpected("expresion_logica", Some(ts[p])))
  }

  /** An optional `-` in front of a comparison operand. */
  function Sign(ts: seq<Token>, p: nat): (r: Parsed<bool>)
    requires p <= |ts|
    ensures r.Ok? <==> p < |ts|
    ensures r.Ok? ==> r.value.0 == (ts[p].kind == Operator && ts[p].lexeme == "-")
    ensures r.Ok? ==> r.value.1 == if r.value.0 then p + 1 else p
  {
    if p >= |ts| then Err(NoneToken)
    else if ts[p].kind == Operator && ts[p].lexeme == "-" then Ok((true, p + 1))
    else Ok((false, p))
  }

  /** `expresion_logica`: `[-] operand OPERATOR [OPERATOR] [-] operand`. The second operator
      token is taken only when the two spell `==`, `!=`, `>=` or `<=`; the operator is
      validated after both operands are parsed. */
  function Comparison(ts: seq<Token>, p: nat): (r: Parsed<Node>)
    requires p <= |ts|
    ensures r.Ok? ==> p < r.value.1 <= |ts|
    ensures r.Ok? ==> r.value.0.Compare? && IsRelOp(r.value.0.op)
  {
    var negL :- Sign(ts, p);
    var left :- Operand(ts, negL.1, negL.0);
    var op :- MatchKind(ts, left.1, Operator);
    var q := op.1;
    if q >= |ts| then Err(NoneToken)
    else
      var compound := ts[q].kind == Operator && IsCompoundRelOp(op.0.lexeme + ts[q].lexeme);
      var opStr := if compound then op.0.lexeme + ts[q].lexeme else op.0.lexeme;
      var negR :- Sign(ts, if compound then q + 1 else q);
      var right :- Operand(ts, negR.1, negR.0);
      if !IsRelOp(opStr) then Err(Unexpected("expresion_logica", None))
      else Ok((Compare(left.0, opStr, right.0), right.1))
  }

  /** The `, expresion` loop of `printf_llamada`. */
  function PrintArgs(ts: seq<Token>, p: nat): (r: Parsed<()>)
    requires p <= |ts|
    ensures r.Ok? ==> p <= r.value.1 <= |ts|
    decreases |ts| - p
  {
    if AtLexeme(ts, p, ",") then
      var c :- MatchKind(ts, p, Delimiter);
      var a :- PrintArg(ts, c.1);
      PrintArgs(ts, a.1)
    else Ok(((), p))
  }

  /** `printf_llamada`: `print ( (STRING | IDENTIFIER) (, expresion)* ) ;`. It returns
      `None`, which the body appends as a statement. */
  function PrintCall(ts: seq<Token>, p: nat): (r: Parsed<Node>)
    requires p <= |ts|
    ensures r.Ok? ==> p < r.value.1 <= |ts|
    ensures r.Ok? ==> r.value.0 == NoneNode
  {
    var kw :- MatchKind(ts, p, Keyword);
    var open :- MatchKind(ts, kw.1, Delimiter);
    var q := open.1;
    if q >= |ts| then Err(NoneToken)
    else if ts[q].kind == StringLit || ts[q].kind == Identifier then
      var rest :- PrintArgs(ts, q + 1);
      var close :- MatchKind(ts, rest.1, Delimiter);
      var semi :- MatchKind(ts, close.1, Delimiter);
      Ok((NoneNode, semi.1))
    else Err(Unexpected("printf_llamada", Some(ts[q])))
  }

  /** `cuerpo`: statements up to a `}` (not consumed) or the end of input; a stray `;` is
      skipped. */
  function Body(ts: seq<Token>, p: nat): (r: Parsed<seq<Node>>)
    requires p <= |ts|
    ensures r.Ok? ==> p <= r.value.1 <= |ts|
    ensures r.Ok? ==> r.value.1 == |ts| || ts[r.value.1].lexeme == "}"
    decreases |ts| - p, 3
  {
    if p >= |ts| || ts[p].lexeme == "}" then Ok(([], p))
    else if ts[p].kind == Delimiter && ts[p].lexeme == ";" then Body(ts, p + 1)
    else
      var st :- Statement(ts, p);
      var rest :- Body(ts, st.1);
      Ok(([st.0] + rest.0, rest.1))
  }

  /** One statement of `cuerpo`, chosen by the current token (and, for an identifier, by the
      token after it). */
  function Statement(ts: seq<Token>, p: nat): (r: Parsed<Node>)
    requires p < |ts|
    ensures r.Ok? ==> p < r.value.1 <= |ts|
    decreases |ts| - p, 2
  {
    var t := ts[p];
    if t.kind == Keyword then
      if t.lexeme == "if" then IfChain(ts, p)
      else if t.lexeme == "const" then ConstDeclaration(ts, p)
      else if t.lexeme == "print" then PrintCall(ts, p)
      else if t.lexeme == "return" then ReturnStmt(ts, p)
      else if t.lexeme == "while" then WhileLoop(ts, p)
      else if t.lexeme == "for" then ForLoop(ts, p)
      else if IsTypeKeyword(t.lexeme) then Declaration(ts, p)
      else Err(Unexpected("cuerpo", Some(t)))
    else if t.kind == Identifier then
      if AtLexeme(ts, p + 1, "(") then
        var call :- FunctionCall(ts, p);
        if AtLexeme(ts, call.1, "=") then
          // `x(...) = ...`: the `=` is consumed and the call is assigned to the identifier
          var eq :- MatchKind(ts, call.1, Operator);
          Ok((Assign(t, call.0), eq.1))
        else Ok(call)
      else if AtLexeme(ts, p + 1, "=") then
        var op :- MatchKind(ts, p + 1, Operator);
        var e :- Expr(ts, op.1);
        var semi :- MatchKind(ts, e.1, Delimiter);
        Ok((Assign(t, e.0), semi.1))
      else Err(Unexpected("cuerpo", Some(t)))
    else if t.kind == Number || t.kind == StringLit then
      var e :- Expr(ts, p);
      var semi :- MatchKind(ts, e.1, Delimiter);
      Ok((e.0, semi.1))
    else if t.kind == LibFunction then FunctionCall(ts, p)
    else Err(Unexpected("cuerpo", Some(t)))
  }

  /** `{ cuerpo }` */
  function Block(ts: seq<Token>, p: nat): (r: Parsed<seq<Node>>)
    requires p <= |ts|
    ensures r.Ok? ==> p < r.value.1 <= |ts|
    decreases |ts| - p, 4
  {
    var open :- MatchKind(ts, p, Delimiter);
    var body :- Body(ts, open.1);
    var close :- MatchKind(ts, body.1, Delimiter);
    Ok((body.0, close.1))
  }

  /** `( comparison )` */
  function Condition(ts: seq<Token>, p: nat): (r: Parsed<Node>)
    requires p <= |ts|
    ensures r.Ok? ==> p < r.value.1 <= |ts|
    ensures r.Ok? ==> r.value.0.Compare? && IsRelOp(r.value.0.op)
  {
    var open :- MatchKind(ts, p, Delimiter);
    var c :- Comparison(ts, open.1);
    var close :- MatchKind(ts, c.1, Delimiter);
    Ok((c.0, close.1))
  }

  /** `bucle_if`: `if (c) {..}` followed by the `else` chain. */
  function IfChain(ts: seq<Token>, p: nat): (r: Parsed<Node>)
    requires p <= |ts|
    ensures r.Ok? ==> p < r.value.1 <= |ts|
    ensures r.Ok? ==> r.value.0.If?
    ensures r.Ok? && r.value.0.elseBody.NoElse? ==> !AtLexeme(ts, r.value.1, "else")
    decreases |ts| - p, 1
  {
    var kw :- MatchKind(ts, p, Keyword);
    var cond :- Condition(ts, kw.1);
    var body :- Block(ts, cond.1);
    var chain :- ElseChain(ts, body.1);
    Ok((If(cond.0, body.0, chain.0.1, chain.0.0), chain.1))
  }

  /** The `while` loop of `bucle_if`: `else if (c) {..}` branches in source order, ended by
      a token other than `else` or by one plain `else {..}`, after which nothing more is read. */
  function ElseChain(ts: seq<Token>, p: nat): (r: Parsed<(seq<ElseIf>, ElseBody)>)
    requires p <= |ts|
    ensures r.Ok? ==> p <= r.value.1 <= |ts|
    ensures r.Ok? && r.value.0.1.NoElse? ==> !AtLexeme(ts, r.value.1, "else")
    ensures r.Ok? && p < |ts| && ts[p].lexeme != "else" ==> r.value == (([], NoElse), p)
    decreases |ts| - p, 1
  {
    if AtLexeme(ts, p, "else") then
      var kw :- MatchKind(ts, p, Keyword);
      if AtLexeme(ts, kw.1, "if") then
        var kwIf :- MatchKind(ts, kw.1, Keyword);
        var cond :- Condition(ts, kwIf.1);
        var body :- Block(ts, cond.1);
        var rest :- ElseChain(ts, body.1);
        Ok((([ElseIf(cond.0, body.0)] + rest.0.0, rest.0.1), rest.1))
      else
        var body :- Block(ts, kw.1);
        Ok((([], Else(body.0)), body.1))
    else Ok((([], NoElse), p))
  }

  /** `bucle_while`: `while (c) {..}`. */
  function WhileLoop(ts: seq<Token>, p: nat): (r: Parsed<Node>)
    requires p <= |ts|
    ensures r.Ok? ==> p < r.value.1 <= |ts|
    ensures r.Ok? ==> r.value.0.While?
    decreases |ts| - p, 1
  {
    var kw :- MatchKind(ts, p, Keyword);
    var cond :- Condition(ts, kw.1);
    var body :- Block(ts, cond.1);
    Ok((While(cond.0, body.0), body.1))
  }

  /** `bucle_for`: `for ( asignacion comparison ; incremento ) {..}`; the initializer brings
      its own `;`. */
  function ForLoop(ts: seq<Token>, p: nat): (r: Parsed<Node>)
    requires p <= |ts|
    ensures r.Ok? ==> p < r.value.1 <= |ts|
    ensures r.Ok? ==> r.value.0.For?
    decreases |ts| - p, 1
  {
    var kw :- MatchKind(ts, p, Keyword);
    var open :- MatchKind(ts, kw.1, Delimiter);
    var init :- Assignment(ts, open.1);
    var cond :- Comparison(ts, init.1);
    var semi :- MatchKind(ts, cond.1, Delimiter);
    var inc :- Increment(ts, semi.1);
    var close :- MatchKind(ts, inc.1, Delimiter);
    var body :- Block(ts, close.1);
    Ok((For(init.0, cond.0, inc.0, body.0), body.1))
  }

  /** `funcion`: `KEYWORD IDENTIFIER ( parametros ) { cuerpo }`; the return type is read and
      dropped. */
  function FunctionDef(ts: seq<Token>, p: nat): (r: Parsed<Node>)
    requires p <= |ts|
    ensures r.Ok? ==> p < r.value.1 <= |ts|
    ensures r.Ok? ==> r.value.0.Function?
  {
    var ret :- MatchKind(ts, p, Keyword);
    var name :- MatchKind(ts, ret.1, Identifier);
    var open :- MatchKind(ts, name.1, Delimiter);
    var params :- Parameters(ts, open.1);
    var close :- MatchKind(ts, params.1, Delimiter);
    var body :- Block(ts, close.1);
    Ok((Function(name.0.lexeme, params.0, body.0), body.1))
  }

  /** The loop of `parsear`: skip `#include <header>` pairs, parse functions, until the end. */
  function Functions(ts: seq<Token>, p: nat): (r: Result<seq<Node>>)
    requires p <= |ts|
    ensures r.Ok? ==> forall i :: 0 <= i < |r.value| ==> r.value[i].Function?
    decreases |ts| - p
  {
    if p >= |ts| then Ok([])
    else if ts[p].kind == Preprocessor then
      var h :- MatchKind(ts, p + 1, Header);
      Functions(ts, h.1)
    else
      var f :- FunctionDef(ts, p);
      var rest :- Functions(ts, f.1);
      Ok([f.0] + rest)
  }

  /** Some function of the list is named `main`. */
  predicate HasMain(fs: seq<Node>)
  {
    exists i :: 0 <= i < |fs| && fs[i].Function? && fs[i].name == "main"
  }

  /** `parsear` from cursor `p`: the rest of the token list as a program whose last function
      is `main`. Both checks run only after every function has been parsed. */
  function ParseProgram(ts: seq<Token>, p: nat): (r: Result<Node>)
    requires p <= |ts|
    ensures r.Ok? <==>
      Functions(ts, p).Ok? && |Functions(ts, p).value| > 0
      && Functions(ts, p).value[|Functions(ts, p).value| - 1].name == "main"
    ensures r.Ok? ==> r.value == Program(Functions(ts, p).value)
  {
    var fs :- Functions(ts, p);
    if !HasMain(fs) then Err(NoMain)
    else if fs[|fs| - 1].name != "main" then Err(MainNotLast)
    else Ok(Program(fs))
  }
}
