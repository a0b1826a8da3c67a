/** What semantico.py's analyzer promises, proved about the functions of `Semantic`. */
module SemanticLemmas {
  import opened Tokens
  import opened Ast
  import opened Symbols
  import opened Semantic

  /** A number literal with a `.` is a `float`; any other, `5f` included, is an `int`. */
  lemma LiteralTyping(t: Token, c: Context)
    ensures Visit(Num(t), c) == Ok((if '.' in t.lexeme then Some("float") else IntType, c))
    ensures Visit(Num(Token(Number, "5f")), c).value.0 == IntType
    ensures Visit(Num(Token(Number, "2.5")), c).value.0 == Some("float")
  {
    assert '.' !in "5f";
    assert "2.5"[1] == '.';
  }

  /** Declarations, constants, increments, string literals and the `None` of a `print` are
      not analysed: they yield no type and change nothing. */
  lemma FallThroughNodes(n: Node, c: Context)
    requires n.Decl? || n.Const? || n.Increment? || n.Str? || n.NoneNode?
    ensures Visit(n, c) == Ok((None, c))
  {
  }

  /** An identifier has the type it was declared with and is an error when undeclared. */
  lemma IdentifierTyping(t: Token, c: Context)
    ensures Visit(Ident(t), c).Ok? <==> t.lexeme in c.table.vars
    ensures Visit(Ident(t), c).Ok? ==> Visit(Ident(t), c).value == (c.table.vars[t.lexeme].tipo, c)
    ensures Visit(Ident(t), c).Err? ==> Visit(Ident(t), c).error == Semantic(UndeclaredVariable(t.lexeme))
  {
  }

  /** Both operands of an operation or a comparison are analysed left to right and must have
      the same type; an operation has that type and a comparison is an `int`. */
  lemma OperandsAgree(l: Node, op: string, r: Node, c: Context)
    requires Visit(l, c).Ok? && Visit(r, Visit(l, c).value.1).Ok?
    ensures var a := Visit(l, c).value; var b := Visit(r, a.1).value;
      && (a.0 != b.0 ==> Visit(BinOp(l, op, r), c) == Err(Semantic(OperandMismatch)))
      && (a.0 != b.0 ==> Visit(Compare(l, op, r), c) == Err(Semantic(ComparisonMismatch)))
      && (a.0 == b.0 ==> Visit(BinOp(l, op, r), c) == Ok((a.0, b.1)))
      && (a.0 == b.0 ==> Visit(Compare(l, op, r), c) == Ok((IntType, b.1)))
  {
    BinOpAgrees(l, op, r, c);
    CompareAgrees(l, op, r, c);
    CompareDispatch(l, op, r, c);
  }

  lemma BinOpAgrees(l: Node, op: string, r: Node, c: Context)
    requires Visit(l, c).Ok? && Visit(r, Visit(l, c).value.1).Ok?
    ensures var a := Visit(l, c).value; var b := Visit(r, a.1).value;
      Visit(BinOp(l, op, r), c) == if a.0 != b.0 then Err(Semantic(OperandMismatch)) else Ok((a.0, b.1))
  {
    OperandsResult(l, r, c, BinOp(l, op, r), OperandMismatch);
    assert Visit(BinOp(l, op, r), c) == VisitOperands(l, r, c, BinOp(l, op, r), OperandMismatch);
  }

  lemma CompareAgrees(l: Node, op: string, r: Node, c: Context)
    requires Visit(l, c).Ok? && Visit(r, Visit(l, c).value.1).Ok?
    ensures var a := Visit(l, c).value; var b := Visit(r, a.1).value;
      VisitCompare(l, op, r, c) == if a.0 != b.0 then Err(Semantic(ComparisonMismatch)) else Ok((IntType, b.1))
  {
    OperandsResult(l, r, c, Compare(l, op, r), ComparisonMismatch);
  }

  lemma CompareDispatch(l: Node, op: string, r: Node, c: Context)
    ensures Visit(Compare(l, op, r), c) == VisitCompare(l, op, r, c)
  {
  }

  lemma OperandsResult(l: Node, r: Node, c: Context, whole: Node, mismatch: SemanticReason)
    requires l < whole && r < whole
    requires Visit(l, c).Ok? && Visit(r, Visit(l, c).value.1).Ok?
    ensures var a := Visit(l, c).value; var b := Visit(r, a.1).value;
      VisitOperands(l, r, c, whole, mismatch) == if a.0 != b.0 then Err(Semantic(mismatch)) else Ok((a.0, b.1))
  {
  }

  /** An expression of operations and leaves only reads the table: it leaves the context as
      it was, and can fail only on an undeclared name or an operand mismatch. */
  lemma {:induction false} PureExprReadsOnly(e: Node, c: Context)
    requires PureExpr(e)
    ensures Visit(e, c).Ok? ==> Visit(e, c).value.1 == c
    ensures Visit(e, c).Err? ==> Visit(e, c).error.Semantic?
    ensures Visit(e, c).Err? ==>
      Visit(e, c).error.reason.UndeclaredVariable? || Visit(e, c).error.reason == OperandMismatch
    decreases e
  {
    match e
    case BinOp(l, _, r) =>
      PureExprReadsOnly(l, c);
      if Visit(l, c).Ok? {
        PureExprReadsOnly(r, c);
      }
    case _ =>
  }

  /** An assignment analyses its right-hand side first; an undeclared target is then
      declared with that type, and a declared one must already have it. */
  lemma AssignmentRule(target: Token, e: Node, c: Context)
    requires Visit(e, c).Ok?
    ensures var x := Visit(e, c).value; var name := target.lexeme;
      && (name !in x.1.table.vars ==>
            Visit(Assign(target, e), c).Ok?
            && Visit(Assign(target, e), c).value.1.table.vars == x.1.table.vars[name := VarInfo(x.0, false)])
      && (name in x.1.table.vars && x.1.table.vars[name].tipo != x.0 ==>
            Visit(Assign(target, e), c) == Err(Semantic(AssignmentMismatch(name))))
      && (name in x.1.table.vars && x.1.table.vars[name].tipo == x.0 ==>
            Visit(Assign(target, e), c) == Ok((None, x.1)))
  {
  }

  /** A call of an undeclared function fails, and so does one with the wrong number of
      arguments, before any argument is analysed (whatever the arguments are). */
  lemma CallChecksCalleeAndArity(callee: string, args: seq<Node>, c: Context)
    ensures callee !in c.table.funcs ==> Visit(Call(callee, args), c) == Err(Semantic(UndeclaredFunction(callee)))
    ensures callee in c.table.funcs && |args| != |c.table.funcs[callee].params| ==>
      Visit(Call(callee, args), c) == Err(Semantic(ArityMismatch(callee)))
  {
  }

  /** The first `n` arguments are well typed, have their parameter's type and leave the
      context as it was. */
  ghost predicate MatchUpTo(args: seq<Node>, params: seq<string>, c: Context, n: nat)
    requires |args| == |params| && n <= |args|
  {
    forall j :: 0 <= j < n ==> Visit(args[j], c) == Ok((Some(params[j]), c))
  }

  /** Every argument before position `i` has its parameter's type; argument `i` is
      well typed but has another type. */
  ghost predicate FirstMismatchAt(args: seq<Node>, params: seq<string>, c: Context, i: nat)
    requires |args| == |params| && i < |args|
  {
    MatchUpTo(args, params, c, i) && Visit(args[i], c).Ok? && Visit(args[i], c).value.0 != Some(params[i])
  }

  /** The arguments after the first match exactly when all but the first do. */
  lemma MatchUpToTail(args: seq<Node>, params: seq<string>, c: Context, n: nat)
    requires |args| == |params| && 0 < n <= |args|
    requires Visit(args[0], c) == Ok((Some(params[0]), c))
    ensures MatchUpTo(args, params, c, n) <==> MatchUpTo(args[1..], params[1..], c, n - 1)
  {
    if MatchUpTo(args[1..], params[1..], c, n - 1) {
      forall j | 0 < j < n ensures Visit(args[j], c) == Ok((Some(params[j]), c)) {
        assert args[1..][j - 1] == args[j];
      }
    }
    if MatchUpTo(args, params, c, n) {
      forall j | 0 <= j < n - 1 ensures Visit(args[1..][j], c) == Ok((Some(params[1..][j]), c)) {
        assert args[1..][j] == args[j + 1];
      }
    }
  }

  /** An argument-type error names a position of the list, counted from `k`. */
  lemma {:induction false} ArgumentErrorInRange(callee: string, args: seq<Node>, params: seq<string>, k: nat, c: Context)
    requires |args| == |params|
    requires forall j :: 0 <= j < |args| ==> PureExpr(args[j])
    ensures var r := VisitArgs(callee, args, params, k, c);
      r.Err? && r.error.Semantic? && r.error.reason.ArgumentMismatch? ==>
        k <= r.error.reason.index < k + |args|
    decreases args
  {
    if args != [] {
      PureExprReadsOnly(args[0], c);
      ArgumentErrorInRange(callee, args[1..], params[1..], k + 1, c);
    }
  }

  /** For arguments that are expressions (as the parser builds them), the arguments pass
      exactly when each has its parameter's type, and they then leave the context as it was. */
  lemma {:induction false} ArgumentsPass(callee: string, args: seq<Node>, params: seq<string>, k: nat, c: Context)
    requires |args| == |params|
    requires forall j :: 0 <= j < |args| ==> PureExpr(args[j])
    ensures VisitArgs(callee, args, params, k, c).Ok? <==> MatchUpTo(args, params, c, |args|)
    ensures VisitArgs(callee, args, params, k, c).Ok? ==> VisitArgs(callee, args, params, k, c).value == c
    decreases args
  {
    if args != [] {
      PureExprReadsOnly(args[0], c);
      ArgumentsPass(callee, args[1..], params[1..], k + 1, c);
      if Visit(args[0], c) == Ok((Some(params[0]), c)) {
        MatchUpToTail(args, params, c, |args|);
      }
    }
  }

  /** The error of a call's arguments names the FIRST argument whose type differs from its
      parameter's, and only that one (positions counted from `k`). */
  lemma {:induction false} ArgumentMismatchIsFirst(callee: string, args: seq<Node>, params: seq<string>,
                                                   k: nat, c: Context, i: nat)
    requires |args| == |params| && i < |args|
    requires forall j :: 0 <= j < |args| ==> PureExpr(args[j])
    ensures VisitArgs(callee, args, params, k, c) == Err(Semantic(ArgumentMismatch(callee, k + i)))
            <==> FirstMismatchAt(args, params, c, i)
    decreases i
  {
    PureExprReadsOnly(args[0], c);
    var x := Visit(args[0], c);
    if x.Err? {
      assert VisitArgs(callee, args, params, k, c) == Err(x.error);
      assert !FirstMismatchAt(args, params, c, i) by {
        if i > 0 {
          assert !MatchUpTo(args, params, c, i) by { assert Visit(args[0], c) != Ok((Some(params[0]), c)); }
        }
      }
    } else if x.value.0 != Some(params[0]) {
      assert VisitArgs(callee, args, params, k, c) == Err(Semantic(ArgumentMismatch(callee, k)));
      if i > 0 {
        assert !MatchUpTo(args, params, c, i) by { assert Visit(args[0], c) != Ok((Some(params[0]), c)); }
      }
    } else {
      assert x.value.1 == c;
      assert VisitArgs(callee, args, params, k, c) == VisitArgs(callee, args[1..], params[1..], k + 1, c);
      ArgumentErrorInRange(callee, args[1..], params[1..], k + 1, c);
      if i > 0 {
        ArgumentMismatchIsFirst(callee, args[1..], params[1..], k + 1, c, i - 1);
        MatchUpToTail(args, params, c, i);
        assert args[1..][i - 1] == args[i];
        assert k + 1 + (i - 1) == k + i;
      }
    }
  }

  /** A call whose callee is declared with as many parameters as there are arguments has
      the declared return type when every argument has its parameter's type. */
  lemma CallReturnsDeclaredType(callee: string, args: seq<Node>, c: Context)
    requires callee in c.table.funcs && |args| == |c.table.funcs[callee].params|
    requires forall j :: 0 <= j < |args| ==> PureExpr(args[j])
    requires MatchUpTo(args, c.table.funcs[callee].params, c, |args|)
    ensures Visit(Call(callee, args), c) == Ok((Some(c.table.funcs[callee].ret), c))
  {
    ArgumentsPass(callee, args, c.table.funcs[callee].params, 1, c);
  }

  /** The condition of a `while` or an `if` must be an `int`; any other type is an error.
      So must the condition of a `for`, in the context its initializer leaves. */
  lemma NonIntConditionRejected(cond: Node, body: seq<Node>, elseBody: ElseBody, elseIfs: seq<ElseIf>,
                                init: Node, incr: Node, c: Context)
    ensures Visit(cond, c).Ok? && Visit(cond, c).value.0 != IntType ==>
      Visit(While(cond, body), c) == Err(Semantic(ConditionNotInt))
      && Visit(If(cond, body, elseBody, elseIfs), c) == Err(Semantic(ConditionNotInt))
    ensures Visit(init, c).Ok? && Visit(cond, Visit(init, c).value.1).Ok?
            && Visit(cond, Visit(init, c).value.1).value.0 != IntType ==>
      Visit(For(init, cond, incr, body), c) == Err(Semantic(ConditionNotInt))
  {
    if Visit(cond, c).Ok? && Visit(cond, c).value.0 != IntType {
      assert CheckCondition(cond, c) == Err(Semantic(ConditionNotInt));
      assert Visit(While(cond, body), c) == VisitWhile(cond, body, c);
      assert Visit(If(cond, body, elseBody, elseIfs), c) == VisitIf(cond, body, elseBody, elseIfs, c);
    }
    ForIsInitThenWhile(init, cond, incr, body, c);
    if Visit(init, c).Ok? {
      var c1 := Visit(init, c).value.1;
      if Visit(cond, c1).Ok? && Visit(cond, c1).value.0 != IntType {
        assert CheckCondition(cond, c1) == Err(Semantic(ConditionNotInt));
        assert Visit(While(cond, [incr] + body), c1) == VisitWhile(cond, [incr] + body, c1);
      }
    }
  }

  /** An `else if` condition that is not an `int` is an error too. */
  lemma NonIntElseIfRejected(ei: ElseIf, rest: seq<ElseIf>, c: Context)
    requires Visit(ei.cond, c).Ok? && Visit(ei.cond, c).value.0 != IntType
    ensures VisitElseIfs([ei] + rest, c) == Err(Semantic(ConditionNotInt))
  {
    assert ([ei] + rest)[0] == ei;
  }

  /** `for` is analysed as its initializer followed by a `while` over the same condition
      whose body starts with the increment: initializer, condition, increment, body. */
  lemma ForIsInitThenWhile(init: Node, cond: Node, incr: Node, body: seq<Node>, c: Context)
    ensures Visit(For(init, cond, incr, body), c) ==
      match Visit(init, c)
      case Err(e) => Err(e)
      case Ok(x) => Visit(While(cond, [incr] + body), x.1)
  {
    var b := [incr] + body;
    assert b[0] == incr && b[1..] == body;
    assert Visit(For(init, cond, incr, body), c) == VisitFor(init, cond, incr, body, c);
    if Visit(init, c).Ok? {
      var x := Visit(init, c).value;
      assert Visit(While(cond, b), x.1) == VisitWhile(cond, b, x.1);
      if CheckCondition(cond, x.1).Ok? {
        var c1 := CheckCondition(cond, x.1).value;
        if Visit(incr, c1).Ok? {
          assert VisitAll(b, c1) == VisitAll(body, Visit(incr, c1).value.1);
        } else {
          assert VisitAll(b, c1) == Err(Visit(incr, c1).error);
        }
      }
    }
  }

  /** The statements before position `i` succeed and statement `i` is then analysed
      successfully, when the whole list is. */
  lemma {:induction false} VisitAllPrefix(ns: seq<Node>, c: Context, i: nat)
    requires VisitAll(ns, c).Ok? && i < |ns|
    ensures VisitAll(ns[..i], c).Ok? && Visit(ns[i], VisitAll(ns[..i], c).value).Ok?
    decreases i
  {
    if i > 0 {
      var c1 := Visit(ns[0], c).value.1;
      VisitAllPrefix(ns[1..], c1, i - 1);
      assert ns[1..][..i - 1] == ns[..i][1..];
      assert ns[1..][i - 1] == ns[i];
    }
  }

  /** `return e`: the value is analysed first; then its type must be the context's
      `tipo_retorno_actual`, or the return is a `ReturnMismatch`. */
  lemma ReturnRule(e: Node, c: Context)
    ensures Visit(e, c).Err? ==> Visit(Return(e), c) == Err(Visit(e, c).error)
    ensures Visit(e, c).Ok? && InBody(e) ==>
      (Visit(Return(e), c).Ok? <==> Visit(e, c).value.0 == c.expected)
    ensures Visit(e, c).Ok? && InBody(e) && Visit(e, c).value.0 != c.expected ==>
      Visit(Return(e), c) == Err(Semantic(ReturnMismatch))
    ensures Visit(Return(e), c).Ok? ==> Visit(Return(e), c) == Visit(e, c)
  {
  }

  /** In a function that passes the analysis, the `return` at position `i` of its body has,
      in the context the statements before it leave, the type of the function's FIRST
      PARAMETER (`void` without parameters), not the declared return type. */
  lemma ReturnTypeIsFirstParameterType(name: string, params: seq<Param>, body: seq<Node>, c: Context, i: nat)
    requires Visit(Function(name, params, body), c).Ok?
    requires AllInBody(body)
    requires i < |body| && body[i].Return?
    ensures AddFunction(c.table, name, FunInfo(ExpectedReturn(params), ParamTypes(params))).Ok?
    ensures DeclareParams(AddFunction(c.table, name, FunInfo(ExpectedReturn(params), ParamTypes(params))).value,
                          params).Ok?
    ensures
      var t1 := AddFunction(c.table, name, FunInfo(ExpectedReturn(params), ParamTypes(params))).value;
      var start := Context(DeclareParams(t1, params).value, Some(name), Some(ExpectedReturn(params)));
      VisitAll(body[..i], start).Ok?
      && Visit(body[i].expr, VisitAll(body[..i], start).value).Ok?
      && Visit(body[i].expr, VisitAll(body[..i], start).value).value.0 == Some(ExpectedReturn(params))
  {
    assert Visit(Function(name, params, body), c) == VisitFunction(name, params, body, c);
    var t1 := AddFunction(c.table, name, FunInfo(ExpectedReturn(params), ParamTypes(params))).value;
    var t2 := DeclareParams(t1, params).value;
    var start := Context(t2, Some(name), Some(ExpectedReturn(params)));
    assert VisitAll(body, start).Ok?;
    VisitAllPrefix(body, start, i);
    var c1 := VisitAll(body[..i], start).value;
    assert AllInBody(body[..i]) by {
      forall s <- body[..i] ensures InBody(s) {
        assert s in body;
      }
    }
    assert c1.expected == Some(ExpectedReturn(params));
    assert InBody(body[i]);
    ReturnRule(body[i].expr, c1);
  }

  /** A parameter named like a variable already in the table cannot be declared. */
  lemma {:induction false} DeclareParamsRejectsDeclared(t: Table, params: seq<Param>, i: nat)
    requires i < |params| && params[i].name in t.vars
    ensures DeclareParams(t, params).Err?
    decreases i
  {
    if i > 0 {
      var t1 := AddVariable(t, params[0].name, Some(params[0].tipo));
      if t1.Ok? {
        assert params[1..][i - 1] == params[i];
        DeclareParamsRejectsDeclared(t1.value, params[1..], i - 1);
      }
    }
  }

  /** The variable table is never cleared between functions: a parameter name used by one
      function cannot be a parameter of a later one. */
  lemma ReusedParameterRejected(f1: Node, f2: Node, i1: nat, i2: nat, c: Context)
    requires f1.Function? && f2.Function?
    requires i1 < |f1.params| && i2 < |f2.params| && f1.params[i1].name == f2.params[i2].name
    ensures Visit(Program([f1, f2]), c).Err?
  {
    var fs := [f1, f2];
    assert fs[0] == f1 && fs[1..] == [f2] && [f2][0] == f2 && [f2][1..] == [];
    var r1 := Visit(f1, c);
    assert r1 == VisitFunction(f1.name, f1.params, f1.body, c);
    if r1.Ok? {
      var c1 := r1.value.1;
      assert Visit(f2, c1) == VisitFunction(f2.name, f2.params, f2.body, c1);
      var t1 := AddFunction(c.table, f1.name, FunInfo(ExpectedReturn(f1.params), ParamTypes(f1.params))).value;
      var t2 := DeclareParams(t1, f1.params).value;
      assert f1.params[i1].name in t2.vars;
      assert f1.params[i1].name in c1.table.vars;
      var u1 := AddFunction(c1.table, f2.name, FunInfo(ExpectedReturn(f2.params), ParamTypes(f2.params)));
      if u1.Ok? {
        assert u1.value.vars == c1.table.vars;
        DeclareParamsRejectsDeclared(u1.value, f2.params, i2);
      }
      assert Visit(f2, c1).Err?;
      assert VisitAll([f2], c1).Err?;
      assert VisitAll(fs, c) == VisitAll([f2], c1);
    }
  }

  /** `int main() { int x = 2 + 3; return x; }` is rejected: without parameters a function
      must return `void`, whatever return type it was declared with. */
  lemma IntMainReturningIntRejected()
    ensures
      var x := Token(Identifier, "x");
      var body := [Assign(x, BinOp(Num(Token(Number, "2")), "+", Num(Token(Number, "3")))), Return(Ident(x))];
      Visit(Program([Function("main", [], body)]), Initial()) == Err(Semantic(ReturnMismatch))
  {
    var x := Token(Identifier, "x");
    var e := BinOp(Num(Token(Number, "2")), "+", Num(Token(Number, "3")));
    var ret := Return(Ident(x));
    var body := [Assign(x, e), ret];
    var f := Function("main", [], body);
    var t1 := AddFunction(EmptyTable(), "main", FunInfo("void", [])).value;
    var start := Context(t1, Some("main"), Some("void"));
    assert '.' !in "2" && '.' !in "3";
    assert Visit(Num(Token(Number, "2")), start) == Ok((IntType, start));
    assert Visit(Num(Token(Number, "3")), start) == Ok((IntType, start));
    assert Visit(e, start) == Ok((IntType, start));
    var c1 := start.(table := AddVariable(t1, "x", IntType).value);
    assert Visit(Assign(x, e), start) == Ok((None, c1));
    assert Visit(Ident(x), c1) == Ok((IntType, c1));
    assert Visit(ret, c1) == Err(Semantic(ReturnMismatch));
    assert VisitAll([ret], c1) == Err(Semantic(ReturnMismatch));
    assert body[0] == Assign(x, e) && body[1..] == [ret];
    assert VisitAll(body, start) == Err(Semantic(ReturnMismatch));
    assert DeclareParams(t1, []) == Ok(t1);
    assert Visit(f, Initial()) == Err(Semantic(ReturnMismatch));
    assert [f][0] == f;
    assert VisitAll([f], Initial()) == Err(Semantic(ReturnMismatch));
  }

  /** `const float pi = 3.14159;` declares nothing, so a later use of `pi` is an undeclared
      variable rather than a type mismatch. */
  lemma ConstantIsNotDeclared()
    ensures
      var pi := Token(Identifier, "pi");
      var body := [Const("float", "pi", Token(Number, "3.14159")), Assign(Token(Identifier, "x"), Ident(pi))];
      Visit(Function("main", [], body), Initial()) == Err(Semantic(UndeclaredVariable("pi")))
  {
    var pi := Token(Identifier, "pi");
    var k := Const("float", "pi", Token(Number, "3.14159"));
    var a := Assign(Token(Identifier, "x"), Ident(pi));
    var body := [k, a];
    var t1 := AddFunction(EmptyTable(), "main", FunInfo("void", [])).value;
    var start := Context(t1, Some("main"), Some("void"));
    assert "pi" !in t1.vars;
    assert Visit(k, start) == Ok((None, start));
    assert Visit(Ident(pi), start) == Err(Semantic(UndeclaredVariable("pi")));
    assert Visit(a, start) == Err(Semantic(UndeclaredVariable("pi")));
    assert VisitAll([a], start) == Err(Semantic(UndeclaredVariable("pi")));
    assert body[0] == k && body[1..] == [a];
    assert VisitAll(body, start) == Err(Semantic(UndeclaredVariable("pi")));
    assert DeclareParams(t1, []) == Ok(t1);
  }
}
