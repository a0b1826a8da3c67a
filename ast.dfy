/** The abstract syntax tree of nodos.py: one variant per node class. */
module Ast {
  import opened Tokens

  /** `NodoParametro`: type and name lexemes of a parameter. */
  datatype Param = Param(tipo: string, name: string)

  /** One `else if` branch, the `(condicion, cuerpo)` pair of `NodoIf.else_ifs`. */
  datatype ElseIf = ElseIf(cond: Node, body: seq<Node>)

  /** `NodoIf.cuerpo_else`: `None`, or the statements of the plain `else`. */
  datatype ElseBody = NoElse | Else(stmts: seq<Node>)

  datatype Node =
    /** `NodoPrograma` */
    | Program(functions: seq<Node>)
    /** `NodoFuncion`; the parsed return type is not kept by the parser. */
    | Function(name: string, params: seq<Param>, body: seq<Node>)
    /** `NodoAsignacion`: keeps the whole name token. */
    | Assign(target: Token, expr: Node)
    /** `NodoOperacion`: an arithmetic operator lexeme between two operands. */
    | BinOp(left: Node, op: string, right: Node)
    /** `NodoRetorno` */
    | Return(expr: Node)
    /** `NodoIdentificador`: keeps the whole token. */
    | Ident(token: Token)
    /** `NodoNumero`: keeps a `NUMBER` token. */
    | Num(token: Token)
    /** `NodoLlamadaFuncion` */
    | Call(callee: string, args: seq<Node>)
    /** `NodoString`: keeps the whole token. */
    | Str(token: Token)
    /** `NodoDeclaracion`: keeps only the lexemes. */
    | Decl(tipo: string, name: string)
    /** `NodoWhile` */
    | While(cond: Node, body: seq<Node>)
    /** `NodoFor` */
    | For(init: Node, cond: Node, incr: Node, body: seq<Node>)
    /** `NodoIf`: `elseBody` is `NoElse` when there is no plain `else`. */
    | If(cond: Node, thenBody: seq<Node>, elseBody: ElseBody, elseIfs: seq<ElseIf>)
    /** `NodoIncremento`: `kind` is the concatenated operator, `++` or `--` from the parser. */
    | Increment(variable: string, kind: string)
    /** `NodoComparacion` */
    | Compare(left: Node, op: string, right: Node)
    /** `NodoConstante` */
    | Const(tipo: string, name: string, value: Token)
    /** The `None` that the parser appends for a `print(...)` statement. */
    | NoneNode

  /** An expression built only from operations and leaves, as `expresion_ing` builds them. */
  predicate PureExpr(e: Node)
  {
    match e
    case BinOp(l, _, r) => PureExpr(l) && PureExpr(r)
    case Num(_) => true
    case Ident(_) => true
    case Str(_) => true
    case _ => false
  }

  /** A leaf that `termino` returns. */
  predicate IsTerm(e: Node)
  {
    e.Num? || e.Ident? || e.Str?
  }

  /** A left-leaning chain: every right operand is a single term (flat precedence). */
  predicate LeftAssoc(e: Node)
  {
    match e
    case BinOp(l, _, r) => IsTerm(r) && LeftAssoc(l)
    case _ => IsTerm(e)
  }

  /** The six relational operators that `expresion_logica` accepts. */
  predicate IsRelOp(op: string)
  {
    op == ">" || op == "<" || op == ">=" || op == "<=" || op == "==" || op == "!="
  }

  /** A node that can stand in a function body: no program or function node occurs in it. */
  predicate InBody(n: Node)
    decreases n
  {
    match n
    case Program(_) => false
    case Function(_, _, _) => false
    case Assign(_, e) => InBody(e)
    case BinOp(l, _, r) => InBody(l) && InBody(r)
    case Compare(l, _, r) => InBody(l) && InBody(r)
    case Return(e) => InBody(e)
    case Call(_, args) => forall a <- args :: InBody(a)
    case While(c, body) => InBody(c) && (forall s <- body :: InBody(s))
    case For(i, c, inc, body) => InBody(i) && InBody(c) && InBody(inc) && (forall s <- body :: InBody(s))
    case If(c, thenBody, elseBody, elseIfs) =>
      InBody(c) && (forall s <- thenBody :: InBody(s))
      && (forall ei <- elseIfs :: InBody(ei.cond) && forall s <- ei.body :: InBody(s))
      && (elseBody.Else? ==> forall s <- elseBody.stmts :: InBody(s))
    case _ => true
  }

  predicate AllInBody(ns: seq<Node>)
  {
    forall s <- ns :: InBody(s)
  }
}
