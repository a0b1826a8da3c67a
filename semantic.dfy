/** semantico.py's `AnalizadorSemantico.analizar`, first as functions of a context (the
    symbol table and the two fields `funcion_actual` and `tipo_retorno_actual`), then as the
    class whose recursive method updates those fields and the table in place and is proved
    to agree with the functions. The first error ends the analysis. */
module Semantic {
  import opened Tokens
  import opened Ast
  import opened Symbols

  /** The analyzer's state: its symbol table, `funcion_actual` and `tipo_retorno_actual`. */
  datatype Context = Context(table: Table, current: Option<string>, expected: Ty)

  /** What `analizar` returns for a node (its type, or `None`) and the state after it. */
  type Analysis = Result<(Ty, Context)>

  /** `AnalizadorSemantico()`: an empty table and no current function. */
  function Initial(): (c: Context)
    ensures c.table.WellFormed() && c.current.None? && c.expected.None?
  {
    Context(EmptyTable(), None, None)
  }

  const IntType: Ty := Some("int")

  /** A number literal is `float` when its lexeme has a `.`, and `int` otherwise. */
  function LiteralType(lexeme: string): (t: Ty)
    ensures t == Some("float") <==> '.' in lexeme
    ensures t == IntType <==> '.' !in lexeme
  {
    if '.' in lexeme then Some("float") else IntType
  }

  /** The type a function's `return` must have: its first parameter's type, or `void` when it
      has none. The declared return type is not available (the parser drops it). */
  function ExpectedReturn(params: seq<Param>): (t: string)
    ensures |params| > 0 ==> t == params[0].tipo
    ensures |params| == 0 ==> t == "void"
  {
    if |params| > 0 then params[0].tipo else "void"
  }

  function ParamTypes(params: seq<Param>): (ts: seq<string>)
    ensures |ts| == |params|
    ensures forall i :: 0 <= i < |params| ==> ts[i] == params[i].tipo
  {
    if params == [] then [] else [params[0].tipo] + ParamTypes(params[1..])
  }

  /** Nothing declared in `a` is removed or changed in `b`. */
  ghost predicate Extends(a: Table, b: Table)
  {
    (forall x :: x in a.vars ==> x in b.vars && b.vars[x] == a.vars[x])
    && (forall x :: x in a.funcs ==> x in b.funcs && b.funcs[x] == a.funcs[x])
  }

  /** The parameters become variables of their declared types, in order. */
  function DeclareParams(t: Table, params: seq<Param>): (r: Result<Table>)
    ensures r.Ok? ==> Extends(t, r.value) && r.value.funcs == t.funcs
    ensures r.Ok? ==> forall i :: 0 <= i < |params| ==>
      params[i].name in r.value.vars && r.value.vars[params[i].name] == VarInfo(Some(params[i].tipo), false)
    ensures r.Err? ==> exists i :: 0 <= i < |params| && r.error == Semantic(DuplicateVariable(params[i].name))
    decreases |params|
  {
    if params == [] then Ok(t)
    else
      var t1 :- AddVariable(t, params[0].name, Some(params[0].tipo));
      var t2 := DeclareParams(t1, params[1..]);
      assert t2.Err? ==> exists i :: 1 <= i < |params| && t2.error == Semantic(DuplicateVariable(params[i].name));
      t2
  }

  /** `analizar(nodo)`: one test per node class, in the order of the `if`/`elif` chain. */
  function Visit(n: Node, c: Context): (r: Analysis)
    ensures r.Ok? ==> Extends(c.table, r.value.1.table)
    ensures r.Ok? && n.Compare? ==> r.value.0 == IntType
    ensures r.Ok? && n.Function? ==> r.value.1.current.None? && r.value.1.expected.None?
    ensures r.Ok? && InBody(n) ==> r.value.1.current == c.current && r.value.1.expected == c.expected
    decreases n, 3
  {
    match n
    case Program(fs) =>
      var c1 :- VisitAll(fs, c);
      Ok((None, c1))
    case Function(name, params, body) => VisitFunction(name, params, body, c)
    case Compare(left, op, right) => VisitCompare(left, op, right, c)
    case Assign(target, e) => VisitAssign(target, e, c)
    case Ident(t) =>
      var ty :- LookupVariable(c.table, t.lexeme);
      Ok((ty, c))
    case Num(t) => Ok((LiteralType(t.lexeme), c))
    case BinOp(left, op, right) => VisitOperands(left, right, c, BinOp(left, op, right), OperandMismatch)
    case Call(callee, args) => VisitCall(callee, args, c)
    case Return(e) =>
      var x :- Visit(e, c);
      if x.0 != x.1.expected then Err(Semantic(ReturnMismatch)) else Ok(x)
    case While(cond, body) => VisitWhile(cond, body, c)
    case For(init, cond, incr, body) => VisitFor(init, cond, incr, body, c)
    case If(cond, thenBody, elseBody, elseIfs) => VisitIf(cond, thenBody, elseBody, elseIfs, c)
    // NodoDeclaracion, NodoConstante, NodoIncremento, NodoString and the `None` of a
    // `print` fall through every test and yield `None` without touching anything
    case Decl(_, _) => Ok((None, c))
    case Const(_, _, _) => Ok((None, c))
    case Increment(_, _) => Ok((None, c))
    case Str(_) => Ok((None, c))
    case NoneNode => Ok((None, c))
  }

  /** The `NodoFuncion` test: register the function with its parameter types, then its
      parameters as variables, analyse the body in the function's context, leave it. */
  function VisitFunction(name: string, params: seq<Param>, body: seq<Node>, c: Context): (r: Analysis)
    ensures r.Ok? ==> Extends(c.table, r.value.1.table)
    ensures r.Ok? ==> r.value.1.current.None? && r.value.1.expected.None?
    ensures r.Ok? ==>
      name in r.value.1.table.funcs
      && r.value.1.table.funcs[name] == FunInfo(ExpectedReturn(params), ParamTypes(params))
    ensures r.Ok? ==> forall i :: 0 <= i < |params| ==>
      params[i].name in r.value.1.table.vars
      && r.value.1.table.vars[params[i].name] == VarInfo(Some(params[i].tipo), false)
    ensures name in c.table.funcs ==> r == Err(Semantic(DuplicateFunction(name)))
    decreases Function(name, params, body), 1
  {
    var expected := ExpectedReturn(params);
    var t1 :- AddFunction(c.table, name, FunInfo(expected, ParamTypes(params)));
    var t2 :- DeclareParams(t1, params);
    var c3 :- VisitAll(body, Context(t2, Some(name), Some(expected)));
    Ok((None, Context(c3.table, None, None)))
  }

  /** The `NodoOperacion` and `NodoComparacion` tests: both operands, left to right, must
      have the same type, which an operation then has. `whole` is the node tested. */
  function VisitOperands(left: Node, right: Node, c: Context, whole: Node, mismatch: SemanticReason)
    : (r: Analysis)
    requires left < whole && right < whole
    ensures r.Ok? ==> Extends(c.table, r.value.1.table)
    ensures r.Ok? && InBody(left) && InBody(right) ==>
      r.value.1.current == c.current && r.value.1.expected == c.expected
    decreases whole, 1
  {
    var a :- Visit(left, c);
    var b :- Visit(right, a.1);
    if a.0 != b.0 then Err(Semantic(mismatch)) else Ok((a.0, b.1))
  }

  /** The `NodoComparacion` test: a comparison of two operands of one type has type `int`. */
  function VisitCompare(left: Node, op: string, right: Node, c: Context): (r: Analysis)
    ensures r.Ok? ==> Extends(c.table, r.value.1.table) && r.value.0 == IntType
    ensures r.Ok? && InBody(left) && InBody(right) ==>
      r.value.1.current == c.current && r.value.1.expected == c.expected
    decreases Compare(left, op, right), 2
  {
    var t :- VisitOperands(left, right, c, Compare(left, op, right), ComparisonMismatch);
    Ok((IntType, t.1))
  }

  /** The `NodoAsignacion` test: a new name is declared with the value's type; a known one
      must already have it. */
  function VisitAssign(target: Token, e: Node, c: Context): (r: Analysis)
    ensures r.Ok? ==> Extends(c.table, r.value.1.table)
    ensures r.Ok? && InBody(e) ==> r.value.1.current == c.current && r.value.1.expected == c.expected
    decreases Assign(target, e), 1
  {
    var x :- Visit(e, c);
    var name := target.lexeme;
    if name in x.1.table.vars then
      if x.1.table.vars[name].tipo != x.0 then Err(Semantic(AssignmentMismatch(name)))
      else Ok((None, x.1))
    else
      // the name is fresh here, so declaring it cannot fail
      Ok((None, x.1.(table := AddVariable(x.1.table, name, x.0).value)))
  }

  /** The `NodoLlamadaFuncion` test. */
  function VisitCall(callee: string, args: seq<Node>, c: Context): (r: Analysis)
    ensures r.Ok? ==> Extends(c.table, r.value.1.table)
    ensures r.Ok? && AllInBody(args) ==> r.value.1.current == c.current && r.value.1.expected == c.expected
    decreases Call(callee, args), 1
  {
    var info :- LookupFunction(c.table, callee);
    if |args| != |info.params| then Err(Semantic(ArityMismatch(callee)))
    else
      var c1 :- VisitArgs(callee, args, info.params, 1, c);
      Ok((Some(info.ret), c1))
  }

  /** The `NodoWhile` test: the condition, then the body. */
  function VisitWhile(cond: Node, body: seq<Node>, c: Context): (r: Analysis)
    ensures r.Ok? ==> Extends(c.table, r.value.1.table)
    ensures r.Ok? && InBody(While(cond, body)) ==>
      r.value.1.current == c.current && r.value.1.expected == c.expected
    decreases While(cond, body), 1
  {
    var c1 :- CheckCondition(cond, c);
    var c2 :- VisitAll(body, c1);
    Ok((None, c2))
  }

  /** The `NodoFor` test: initializer, condition, increment, body. */
  function VisitFor(init: Node, cond: Node, incr: Node, body: seq<Node>, c: Context): (r: Analysis)
    ensures r.Ok? ==> Extends(c.table, r.value.1.table)
    ensures r.Ok? && InBody(For(init, cond, incr, body)) ==>
      r.value.1.current == c.current && r.value.1.expected == c.expected
    decreases For(init, cond, incr, body), 1
  {
    var x :- Visit(init, c);
    var c1 :- CheckCondition(cond, x.1);
    var y :- Visit(incr, c1);
    var c2 :- VisitAll(body, y.1);
    Ok((None, c2))
  }

  /** The `NodoIf` test: condition, body, each `else if`, then the `else`. */
  function VisitIf(cond: Node, thenBody: seq<Node>, elseBody: ElseBody, elseIfs: seq<ElseIf>, c: Context)
    : (r: Analysis)
    ensures r.Ok? ==> Extends(c.table, r.value.1.table)
    ensures r.Ok? && InBody(If(cond, thenBody, elseBody, elseIfs)) ==>
      r.value.1.current == c.current && r.value.1.expected == c.expected
    decreases If(cond, thenBody, elseBody, elseIfs), 1
  {
    var c1 :- CheckCondition(cond, c);
    var c2 :- VisitAll(thenBody, c1);
    var c3 :- VisitElseIfs(elseIfs, c2);
    var c4 :- match elseBody
              case Else(stmts) => VisitAll(stmts, c3)
              case NoElse => Ok(c3);
    Ok((None, c4))
  }

  /** A condition of `while`, `for`, `if` or `else if` must have type `int`. */
  function CheckCondition(cond: Node, c: Context): (r: Result<Context>)
    ensures r.Ok? ==> Extends(c.table, r.value.table)
    ensures r.Ok? && InBody(cond) ==> r.value.current == c.current && r.value.expected == c.expected
    decreases cond, 4
  {
    var x :- Visit(cond, c);
    if x.0 != IntType then Err(Semantic(ConditionNotInt)) else Ok(x.1)
  }

  /** The `for ... in ...: self.analizar(...)` loops over a list of nodes. */
  function VisitAll(ns: seq<Node>, c: Context): (r: Result<Context>)
    ensures r.Ok? ==> Extends(c.table, r.value.table)
    ensures r.Ok? && AllInBody(ns) ==> r.value.current == c.current && r.value.expected == c.expected
    decreases ns, 1
  {
    if ns == [] then Ok(c)
    else
      var x :- Visit(ns[0], c);
      VisitAll(ns[1..], x.1)
  }

  /** The arguments of a call, matched by position with the parameter types; `index` counts
      from 1, as the error message does. */
  function VisitArgs(callee: string, args: seq<Node>, params: seq<string>, index: nat, c: Context)
    : (r: Result<Context>)
    requires |args| == |params|
    ensures r.Ok? ==> Extends(c.table, r.value.table)
    ensures r.Ok? && AllInBody(args) ==> r.value.current == c.current && r.value.expected == c.expected
    decreases args, 1
  {
    if args == [] then Ok(c)
    else
      var x :- Visit(args[0], c);
      if x.0 != Some(params[0]) then Err(Semantic(ArgumentMismatch(callee, index)))
      else VisitArgs(callee, args[1..], params[1..], index + 1, x.1)
  }

  /** The `else if` branches in order: each condition, then its body. */
  function VisitElseIfs(eis: seq<ElseIf>, c: Context): (r: Result<Context>)
    ensures r.Ok? ==> Extends(c.table, r.value.table)
    ensures r.Ok? && (forall ei <- eis :: InBody(ei.cond) && AllInBody(ei.body))
            ==> r.value.current == c.current && r.value.expected == c.expected
    decreases eis, 1
  {
    if eis == [] then Ok(c)
    else
      var c1 :- CheckCondition(eis[0].cond, c);
      var c2 :- VisitAll(eis[0].body, c1);
      VisitElseIfs(eis[1..], c2)
  }

  /** The method result `r` and the analyzer's state `now` are what the function computed. */
  predicate Agrees<T(==)>(r: Result<T>, spec: Result<(T, Context)>, now: Context)
  {
    match spec
    case Ok(v) => r == Ok(v.0) && now == v.1
    case Err(e) => r == Err(e)
  }

  /** The same for the loops, which return nothing but the state. */
  predicate AgreesState(r: Result<()>, spec: Result<Context>, now: Context)
  {
    match spec
    case Ok(v) => r == Ok(()) && now == v
    case Err(e) => r == Err(e)
  }

  /** `VisitFor` in terms of what its four steps gave: the first failure, or the body's
      final context. */
  lemma ForAgrees(init: Node, cond: Node, incr: Node, body: seq<Node>, c0: Context, c1: Context, c2: Context,
                  c3: Context, c4: Context, ri: Result<Ty>, rc: Result<()>, rn: Result<Ty>, rb: Result<()>)
    requires Agrees(ri, Visit(init, c0), c1)
    requires ri.Ok? ==> AgreesState(rc, CheckCondition(cond, c1), c2)
    requires ri.Ok? && rc.Ok? ==> Agrees(rn, Visit(incr, c2), c3)
    requires ri.Ok? && rc.Ok? && rn.Ok? ==> AgreesState(rb, VisitAll(body, c3), c4)
    ensures ri.Err? ==> VisitFor(init, cond, incr, body, c0) == Err(ri.error)
    ensures ri.Ok? && rc.Err? ==> VisitFor(init, cond, incr, body, c0) == Err(rc.error)
    ensures ri.Ok? && rc.Ok? && rn.Err? ==> VisitFor(init, cond, incr, body, c0) == Err(rn.error)
    ensures ri.Ok? && rc.Ok? && rn.Ok? && rb.Err? ==> VisitFor(init, cond, incr, body, c0) == Err(rb.error)
    ensures ri.Ok? && rc.Ok? && rn.Ok? && rb.Ok? ==> VisitFor(init, cond, incr, body, c0) == Ok((None, c4))
    ensures Agrees(FirstFailure(ri, rc, rn, rb), VisitFor(init, cond, incr, body, c0), c4)
  {
    if ri.Err? {
      ForStepFails(init, cond, incr, body, c0, Visit(init, c0).error);
    } else {
      ForInitDone(init, cond, incr, body, c0, ri.value, c1);
      if rc.Err? {
        ForCondFails(cond, incr, body, c1, rc.error);
      } else {
        ForCondDone(cond, incr, body, c1, c2);
        if rn.Err? {
          ForIncrFails(incr, body, c2, rn.error);
        } else {
          ForIncrDone(incr, body, c2, rn.value, c3);
        }
      }
    }
  }

  /** The first of the four steps' errors, or `None` when they all succeeded. */
  function FirstFailure(ri: Result<Ty>, rc: Result<()>, rn: Result<Ty>, rb: Result<()>): Result<Ty>
  {
    if ri.Err? then Err(ri.error) else if rc.Err? then Err(rc.error)
    else if rn.Err? then Err(rn.error) else if rb.Err? then Err(rb.error) else Ok(None)
  }

  /** The first step of `VisitFor`: the initializer fails, or the rest runs from its context. */
  lemma ForStepFails(init: Node, cond: Node, incr: Node, body: seq<Node>, c0: Context, e: Error)
    requires Visit(init, c0) == Err(e)
    ensures VisitFor(init, cond, incr, body, c0) == Err(e)
  {
  }

  lemma ForInitDone(init: Node, cond: Node, incr: Node, body: seq<Node>, c0: Context, t: Ty, c1: Context)
    requires Visit(init, c0) == Ok((t, c1))
    ensures VisitFor(init, cond, incr, body, c0) == ForFrom(cond, incr, body, c1)
  {
  }

  /** `VisitFor` after its initializer, from the context `c1` it left. */
  function ForFrom(cond: Node, incr: Node, body: seq<Node>, c1: Context): Analysis
  {
    match CheckCondition(cond, c1)
    case Err(e) => Err(e)
    case Ok(c2) => IncrFrom(incr, body, c2)
  }

  function IncrFrom(incr: Node, body: seq<Node>, c2: Context): Analysis
  {
    match Visit(incr, c2)
    case Err(e) => Err(e)
    case Ok(y) => (match VisitAll(body, y.1) case Err(e) => Err(e) case Ok(c4) => Ok((None, c4)))
  }

  lemma ForCondFails(cond: Node, incr: Node, body: seq<Node>, c1: Context, e: Error)
    requires CheckCondition(cond, c1) == Err(e)
    ensures ForFrom(cond, incr, body, c1) == Err(e)
  {
  }

  lemma ForCondDone(cond: Node, incr: Node, body: seq<Node>, c1: Context, c2: Context)
    requires CheckCondition(cond, c1) == Ok(c2)
    ensures ForFrom(cond, incr, body, c1) == IncrFrom(incr, body, c2)
  {
  }

  lemma ForIncrFails(incr: Node, body: seq<Node>, c2: Context, e: Error)
    requires Visit(incr, c2) == Err(e)
    ensures IncrFrom(incr, body, c2) == Err(e)
  {
  }

  lemma ForIncrDone(incr: Node, body: seq<Node>, c2: Context, t: Ty, c3: Context)
    requires Visit(incr, c2) == Ok((t, c3))
    ensures IncrFrom(incr, body, c2) == match VisitAll(body, c3) case Err(e) => Err(e) case Ok(c4) => Ok((None, c4))
  {
  }

  /** `AnalizadorSemantico` */
  class Analyzer {
    const table: SymbolTable
    /** `funcion_actual` */
    var currentFunction: Option<string>
    /** `tipo_retorno_actual` */
    var expectedReturn: Ty

    function Model(): Context
      reads this, table
    {
      Context(table.Model(), currentFunction, expectedReturn)
    }

    ghost predicate Valid()
      reads this, table
    {
      table.Valid()
    }

    constructor ()
      ensures Valid() && fresh(table) && Model() == Initial()
    {
      table := new SymbolTable();
      currentFunction := None;
      expectedReturn := None;
    }

    /** `analizar(nodo)` */
    method Analyze(n: Node) returns (r: Result<Ty>)
      requires Valid()
      modifies this, table
      ensures Valid()
      ensures Agrees(r, Visit(n, old(Model())), Model())
      decreases n, 2
    {
      match n
      case Program(fs) =>
        var done :- AnalyzeAll(fs);
        return Ok(None);
      case Function(name, params, body) =>
        r := AnalyzeFunction(name, params, body);
      case Compare(left, op, right) =>
        var t :- AnalyzeOperands(left, right, Compare(left, op, right), ComparisonMismatch);
        return Ok(IntType);
      case Assign(target, e) =>
        r := AnalyzeAssign(target, e);
      case Ident(t) =>
        r := table.GetVariableType(t.lexeme);
      case Num(t) =>
        return Ok(if '.' !in t.lexeme then IntType else Some("float"));
      case BinOp(left, op, right) =>
        r := AnalyzeOperands(left, right, BinOp(left, op, right), OperandMismatch);
      case Call(callee, args) =>
        r := AnalyzeCall(callee, args);
      case Return(e) =>
        var ty :- Analyze(e);
        if ty != expectedReturn {
          return Err(Semantic(ReturnMismatch));
        }
        return Ok(ty);
      case While(cond, body) =>
        var c :- Condition(cond);
        var b :- AnalyzeAll(body);
        return Ok(None);
      case For(init, cond, incr, body) =>
        r := AnalyzeFor(init, cond, incr, body);
      case If(cond, thenBody, elseBody, elseIfs) =>
        r := AnalyzeIf(cond, thenBody, elseBody, elseIfs);
      case Decl(_, _) => return Ok(None);
      case Const(_, _, _) => return Ok(None);
      case Increment(_, _) => return Ok(None);
      case Str(_) => return Ok(None);
      case NoneNode => return Ok(None);
    }

    /** The `NodoOperacion` and `NodoComparacion` branches. */
    method AnalyzeOperands(left: Node, right: Node, ghost whole: Node, mismatch: SemanticReason)
      returns (r: Result<Ty>)
      requires Valid() && left < whole && right < whole
      modifies this, table
      ensures Valid()
      ensures Agrees(r, VisitOperands(left, right, old(Model()), whole, mismatch), Model())
      decreases whole, 1
    {
      ghost var c0 := Model();
      var ra := Analyze(left);
      if ra.Err? {
        assert VisitOperands(left, right, c0, whole, mismatch) == Err(ra.error);
        return Err(ra.error);
      }
      ghost var c1 := Model();
      var rb := Analyze(right);
      if rb.Err? {
        assert VisitOperands(left, right, c0, whole, mismatch) == Err(rb.error);
        return Err(rb.error);
      }
      assert VisitOperands(left, right, c0, whole, mismatch)
          == if ra.value != rb.value then Err(Semantic(mismatch)) else Ok((ra.value, Model()));
      if ra.value != rb.value {
        return Err(Semantic(mismatch));
      }
      return Ok(ra.value);
    }

    /** The `NodoAsignacion` branch. */
    method AnalyzeAssign(target: Token, e: Node) returns (r: Result<Ty>)
      requires Valid()
      modifies this, table
      ensures Valid()
      ensures Agrees(r, VisitAssign(target, e, old(Model())), Model())
      decreases Assign(target, e), 1
    {
      var ty :- Analyze(e);
      var name := target.lexeme;
      if name in table.variables {
        var existing := table.GetVariableType(name);
        if existing.value != ty {
          return Err(Semantic(AssignmentMismatch(name)));
        }
      } else {
        var declared := table.DeclareVariable(name, ty);
      }
      return Ok(None);
    }

    /** The `NodoFor` branch. */
    method AnalyzeFor(init: Node, cond: Node, incr: Node, body: seq<Node>) returns (r: Result<Ty>)
      requires Valid()
      modifies this, table
      ensures Valid()
      ensures Agrees(r, VisitFor(init, cond, incr, body, old(Model())), Model())
      decreases For(init, cond, incr, body), 1
    {
      ghost var c0 := Model();
      var ri := Analyze(init);
      ghost var c1 := Model();
      var rc: Result<()> := Ok(());
      if ri.Ok? {
        rc := Condition(cond);
      }
      ghost var c2 := Model();
      var rn: Result<Ty> := Ok(None);
      if ri.Ok? && rc.Ok? {
        rn := Analyze(incr);
      }
      ghost var c3 := Model();
      var rb: Result<()> := Ok(());
      if ri.Ok? && rc.Ok? && rn.Ok? {
        rb := AnalyzeAll(body);
      }
      ForAgrees(init, cond, incr, body, c0, c1, c2, c3, Model(), ri, rc, rn, rb);
      r := FirstFailure(ri, rc, rn, rb);
    }

    /** The `NodoFuncion` branch: set the context, register the function and its
        parameters, analyse the body, then clear the context. */
    method AnalyzeFunction(name: string, params: seq<Param>, body: seq<Node>) returns (r: Result<Ty>)
      requires Valid()
      modifies this, table
      ensures Valid()
      ensures Agrees(r, VisitFunction(name, params, body, old(Model())), Model())
      decreases Function(name, params, body), 1
    {
      currentFunction := Some(name);
      expectedReturn := Some(ExpectedReturn(params));
      ghost var t0 := table.Model();
      var declared :- table.DeclareFunction(name, FunInfo(ExpectedReturn(params), ParamTypes(params)));
      ghost var t1 := table.Model();
      for i := 0 to |params|
        invariant Valid()
        invariant DeclareParams(t1, params) == DeclareParams(table.Model(), params[i..])
        invariant currentFunction == Some(name) && expectedReturn == Some(ExpectedReturn(params))
      {
        assert params[i..][1..] == params[i + 1..];
        var p :- table.DeclareVariable(params[i].name, Some(params[i].tipo));
      }
      var done :- AnalyzeAll(body);
      currentFunction := None;
      expectedReturn := None;
      return Ok(None);
    }

    /** The `NodoLlamadaFuncion` branch: the callee must be known and take as many
        arguments as given; then each argument must have its parameter's type. */
    method AnalyzeCall(callee: string, args: seq<Node>) returns (r: Result<Ty>)
      requires Valid()
      modifies this, table
      ensures Valid()
      ensures Agrees(r, VisitCall(callee, args, old(Model())), Model())
      decreases Call(callee, args), 1
    {
      var info :- table.GetFunctionInfo(callee);
      if |args| != |info.params| {
        return Err(Semantic(ArityMismatch(callee)));
      }
      for i := 0 to |args|
        invariant Valid()
        invariant VisitArgs(callee, args, info.params, 1, old(Model()))
                  == VisitArgs(callee, args[i..], info.params[i..], i + 1, Model())
      {
        assert args[i..][1..] == args[i + 1..] && info.params[i..][1..] == info.params[i + 1..];
        var ty :- Analyze(args[i]);
        if ty != Some(info.params[i]) {
          return Err(Semantic(ArgumentMismatch(callee, i + 1)));
        }
      }
      return Ok(Some(info.ret));
    }

    /** The `NodoIf` branch. */
    method AnalyzeIf(cond: Node, thenBody: seq<Node>, elseBody: ElseBody, elseIfs: seq<ElseIf>)
      returns (r: Result<Ty>)
      requires Valid()
      modifies this, table
      ensures Valid()
      ensures Agrees(r, VisitIf(cond, thenBody, elseBody, elseIfs, old(Model())), Model())
      decreases If(cond, thenBody, elseBody, elseIfs), 1
    {
      var c :- Condition(cond);
      var t :- AnalyzeAll(thenBody);
      ghost var afterThen := Model();
      for i := 0 to |elseIfs|
        invariant Valid()
        invariant VisitElseIfs(elseIfs, afterThen) == VisitElseIfs(elseIfs[i..], Model())
      {
        assert elseIfs[i..][1..] == elseIfs[i + 1..];
        var ci :- Condition(elseIfs[i].cond);
        var bi :- AnalyzeAll(elseIfs[i].body);
      }
      if elseBody.Else? && |elseBody.stmts| > 0 {
        var e :- AnalyzeAll(elseBody.stmts);
      }
      return Ok(None);
    }

    /** A condition, which must have type `int`. */
    method Condition(cond: Node) returns (r: Result<()>)
      requires Valid()
      modifies this, table
      ensures Valid()
      ensures AgreesState(r, CheckCondition(cond, old(Model())), Model())
      decreases cond, 3
    {
      var ty :- Analyze(cond);
      if ty != IntType {
        return Err(Semantic(ConditionNotInt));
      }
      return Ok(());
    }

    /** `for instruccion in ...: self.analizar(instruccion)` */
    method AnalyzeAll(ns: seq<Node>) returns (r: Result<()>)
      requires Valid()
      modifies this, table
      ensures Valid()
      ensures AgreesState(r, VisitAll(ns, old(Model())), Model())
      decreases ns, 1
    {
      for i := 0 to |ns|
        invariant Valid()
        invariant VisitAll(ns, old(Model())) == VisitAll(ns[i..], Model())
      {
        assert ns[i..][1..] == ns[i + 1..];
        var ty :- Analyze(ns[i]);
      }
      return Ok(());
    }
  }
}
