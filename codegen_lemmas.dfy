/** What the assembly of nodos.py's `generar_codigo` looks like, proved about `CodeGen.Gen`:
    the text is the one the Python string operations build, expressions leave the stack as
    they found it, `printf`/`scanf` push their arguments last to first, and a plain `if`
    jumps to a label it never defines. */
module CodeGenLemmas {
  import opened Tokens
  import opened Ast
  import opened CodeGen
  import opened CodeGenLabels

  // ---------------------------------------------------------------------------------------
  // Text: segments and "\n".join

  /** Joining two non-empty lists of segments puts one "\n" between their texts. */
  lemma {:induction false} TextAppend(a: seq<string>, b: seq<string>)
    requires |a| > 0 && |b| > 0
    ensures Text(a + b) == Text(a) + "\n" + Text(b)
    decreases |b|
  {
    var ab := a + b;
    assert ab[..|ab| - 1] == a + b[..|b| - 1];
    if |b| == 1 {
      assert ab[..|ab| - 1] == a;
    } else {
      TextAppend(a, b[..|b| - 1]);
    }
  }

  /** The text of a list ending in `x` is the text of the rest, a "\n" and `x`. */
  lemma TextSnoc(init: seq<string>, x: string)
    ensures init == [] ==> Text(init + [x]) == x
    ensures init != [] ==> Text(init + [x]) == Text(init) + "\n" + x
  {
    assert (init + [x])[..|init|] == init;
  }

  /** Appending to the last segment appends to the text. */
  lemma TextJoinLast(init: seq<string>, x: string, y: string)
    ensures Text(init + [x + y]) == Text(init + [x]) + y
  {
    TextSnoc(init, x);
    TextSnoc(init, x + y);
  }

  /** `Concat` is string concatenation of the two texts. */
  lemma TextConcat(a: seq<string>, b: seq<string>)
    requires |a| > 0 && |b| > 0
    ensures Text(Concat(a, b)) == Text(a) + Text(b)
  {
    var init, x := a[..|a| - 1], a[|a| - 1];
    var y, rest := b[0], b[1..];
    TextJoinLast(init, x, y);
    assert init + [x] == a;
    var m := init + [x + y];
    if rest == [] {
      assert b == [y];
      assert Concat(a, b) == m;
    } else {
      assert [y] + rest == b;
      TextAppend([y], rest);
      assert Concat(a, b) == m + rest;
      TextAppend(m, rest);
    }
  }

  /** The code of a body is its statements' code joined by "\n", as `"\n".join(...)` does. */
  lemma GenSeqText(ns: seq<Node>, k: nat)
    requires |ns| > 1 && GenSeq(ns, k).Ok?
    ensures var head := Gen(ns[0], k).value;
      Text(GenSeq(ns, k).value.code) == Text(head.code) + "\n" + Text(GenSeq(ns[1..], head.next).value.code)
  {
    var head := Gen(ns[0], k).value;
    var tail := GenSeq(ns[1..], head.next).value;
    assert ns[1..][0] == ns[1];
    TextAppend(head.code, tail.code);
  }

  /** `NodoFuncion`: the label, the prologue, the body, the epilogue and a final newline,
      the same string as the Python concatenation builds. */
  lemma FunctionText(name: string, params: seq<Param>, body: seq<Node>, k: nat)
    requires GenSeq(body, k).Ok?
    ensures GenFunction(name, params, body, k).Ok?
    ensures Text(GenFunction(name, params, body, k).value.code) ==
      name + ":" + "\n" + "    push ebp" + "\n" + "    mov ebp, esp" + "\n" + Text(GenSeq(body, k).value.code)
      + "\n" + "    mov esp, ebp" + "\n" + "    pop ebp" + "\n" + "    ret" + "\n"
  {
    var b := GenSeq(body, k).value;
    var joined := if |b.code| == 0 then [""] else b.code;
    assert Text(joined) == Text(b.code);
    var pro := [name + ":", "    push ebp", "    mov ebp, esp"];
    var code := GenFunction(name, params, body, k).value.code;
    var s0 := pro + joined;
    var s1 := s0 + ["    mov esp, ebp"];
    var s2 := s1 + ["    pop ebp"];
    var s3 := s2 + ["    ret"];
    assert code == s3 + [""];
    TextSnoc([], name + ":");
    TextSnoc([name + ":"], "    push ebp");
    TextSnoc([name + ":", "    push ebp"], "    mov ebp, esp");
    assert [] + [name + ":"] == [name + ":"];
    assert [name + ":"] + ["    push ebp"] == [name + ":", "    push ebp"];
    assert [name + ":", "    push ebp"] + ["    mov ebp, esp"] == pro;
    TextAppend(pro, joined);
    TextSnoc(s0, "    mov esp, ebp");
    TextSnoc(s1, "    pop ebp");
    TextSnoc(s2, "    ret");
    TextSnoc(s3, "");
    var t3 := Text(s3) + "\n";
    assert t3 + "" == t3;
  }

  /** `NodoPrograma`: each function's text followed by "\n\n", and nothing for no functions. */
  lemma ProgramText(fs: seq<Node>, k: nat)
    requires GenProgram(fs, k).Ok?
    ensures fs == [] ==> Text(GenProgram(fs, k).value.code) == ""
    ensures fs != [] ==>
      var f := Gen(fs[0], k).value;
      Text(GenProgram(fs, k).value.code) == Text(f.code) + "\n\n" + Text(GenProgram(fs[1..], f.next).value.code)
  {
    if fs != [] {
      var f := Gen(fs[0], k).value;
      var rest := GenProgram(fs[1..], f.next).value;
      var pad := ["", "", ""];
      TextConcat(f.code, pad);
      assert Text(pad) == "\n\n" by {
        assert pad[..2] == ["", ""] && pad[..2][..1] == [""];
      }
      TextConcat(Concat(f.code, pad), rest.code);
    }
  }

  // ---------------------------------------------------------------------------------------
  // The stack

  /** What a line does to the stack: `push eax` adds a value, `pop ebx` removes one. */
  function Effect(line: string): (d: int)
    ensures -1 <= d <= 1
    ensures d == 1 <==> line == PushEax || line == OpPush
  {
    if line == PushEax || line == OpPush then 1
    else if line == PopEbx || line == OpPop then -1
    else 0
  }

  /** The values a run of lines leaves on the stack. */
  function Depth(ls: seq<string>): int
  {
    if ls == [] then 0 else Effect(ls[0]) + Depth(ls[1..])
  }

  /** Starting with `d` values on the stack, no line pops a value that is not there. */
  predicate Safe(ls: seq<string>, d: int)
    decreases |ls|
  {
    d >= 0 && (ls == [] || Safe(ls[1..], d + Effect(ls[0])))
  }

  lemma {:induction false} DepthAppend(a: seq<string>, b: seq<string>)
    ensures Depth(a + b) == Depth(a) + Depth(b)
    decreases |a|
  {
    if a != [] {
      assert (a + b)[0] == a[0];
      assert (a + b)[1..] == a[1..] + b;
      DepthAppend(a[1..], b);
    } else {
      assert a + b == b;
    }
  }

  lemma {:induction false} SafeAppend(a: seq<string>, b: seq<string>, d: int)
    ensures Safe(a + b, d) <==> Safe(a, d) && Safe(b, d + Depth(a))
    decreases |a|
  {
    if a != [] {
      assert (a + b)[0] == a[0];
      assert (a + b)[1..] == a[1..] + b;
      SafeAppend(a[1..], b, d + Effect(a[0]));
    } else {
      assert a + b == b;
    }
  }

  /** The lines leave `n` more values on the stack, and from any depth they never pop a
      value that is not there. */
  ghost predicate Raises(ls: seq<string>, n: int)
  {
    Depth(ls) == n && forall d: int :: d >= 0 ==> Safe(ls, d)
  }

  lemma RaisesAppend(a: seq<string>, b: seq<string>, m: int, n: int)
    requires m >= 0 && Raises(a, m) && Raises(b, n)
    ensures Raises(a + b, m + n)
  {
    DepthAppend(a, b);
    forall d: int | d >= 0 ensures Safe(a + b, d) {
      SafeAppend(a, b, d);
    }
  }

  /** A balanced run between a push and a pop is balanced. */
  lemma RaisesWrap(push: string, a: seq<string>, pop: string)
    requires Effect(push) == 1 && Effect(pop) == -1 && Raises(a, 0)
    ensures Raises([push] + a + [pop], 0)
  {
    assert Raises([push], 1) by {
      assert [push][1..] == [];
    }
    RaisesAppend([push], a, 1, 0);
    DepthAppend([push] + a, [pop]);
    assert [pop][1..] == [];
    forall d: int | d >= 0 ensures Safe([push] + a + [pop], d) {
      SafeAppend([push] + a, [pop], d);
      assert Safe([pop], d + 1);
    }
  }

  /** A balanced run, a push, a balanced run, a pop and a balanced run: balanced. */
  lemma RaisesOperands(lc: seq<string>, push: string, rc: seq<string>, pop: string, rest: seq<string>)
    requires Effect(push) == 1 && Effect(pop) == -1
    requires Raises(lc, 0) && Raises(rc, 0) && Raises(rest, 0)
    ensures Raises(lc + [push] + rc + [pop] + rest, 0)
  {
    RaisesWrap(push, rc, pop);
    RaisesAppend(lc, [push] + rc + [pop], 0, 0);
    RaisesAppend(lc + ([push] + rc + [pop]), rest, 0, 0);
    assert lc + [push] + rc + [pop] + rest == lc + ([push] + rc + [pop]) + rest;
  }

  /** A line whose fifth character is not a `p` neither pushes nor pops. */
  lemma NeutralLine(line: string)
    requires |line| > 4 && line[4] != 'p'
    ensures Effect(line) == 0
  {
    assert PushEax[4] == 'p' && OpPush[4] == 'p' && PopEbx[4] == 'p' && OpPop[4] == 'p';
  }

  /** Lines none of which pushes or pops. */
  lemma {:induction false} NeutralRun(ls: seq<string>)
    requires forall i | 0 <= i < |ls| :: |ls[i]| > 4 && ls[i][4] != 'p'
    ensures Raises(ls, 0)
    decreases |ls|
  {
    if ls != [] {
      NeutralLine(ls[0]);
      NeutralRun(ls[1..]);
    }
  }

  /** A line of the form "    m..." (a `mov`): indented and neither a push nor a pop. */
  predicate MovLine(line: string)
  {
    |line| > 4 && line[0] == ' ' && line[4] == 'm'
  }

  /** A leaf loads one value with a single `mov`. */
  lemma LeafCode(e: Node, k: nat)
    requires e.Ident? || e.Num? || e.Str?
    ensures Gen(e, k).Ok? && |Gen(e, k).value.code| == 1 && Gen(e, k).value.next == k
    ensures MovLine(Gen(e, k).value.code[0])
  {
    match e
    case Ident(t) =>
    case Num(t) =>
    case Str(t) =>
  }

  /** An expression pushes its left operand before computing the right one and pops it
      back after: it leaves the stack as it found it and never pops a value it did not push.
      It also uses no label number. */
  lemma {:induction false} ExprStackBalanced(e: Node, k: nat)
    requires PureExpr(e)
    ensures Gen(e, k).Ok? && Gen(e, k).value.next == k
    ensures Raises(Gen(e, k).value.code, 0)
    decreases e
  {
    match e
    case BinOp(l, op, r) =>
      ExprStackBalanced(l, k);
      ExprStackBalanced(r, k);
      var lc := Gen(l, k).value.code;
      var rc := Gen(r, k).value.code;
      var tail := OperatorTail(op);
      assert Gen(e, k) == GenBinOp(l, op, r, k);
      NeutralRun(tail);
      RaisesOperands(lc, OpPush, rc, OpPop, tail);
    case Ident(_) | Num(_) | Str(_) =>
      LeafCode(e, k);
      NeutralRun(Gen(e, k).value.code);
    case _ =>
  }

  lemma CompareTailNeutral(op: string)
    ensures Raises(CompareTail(op), 0)
  {
    var t := CompareTail(op);
    assert forall i | 0 <= i < |t| :: |t[i]| > 4 && t[i][4] != 'p';
    NeutralRun(t);
  }

  /** A comparison of two expressions is balanced in the same way. */
  lemma CompareStackBalanced(l: Node, op: string, r: Node, k: nat)
    requires PureExpr(l) && PureExpr(r)
    ensures GenCompare(l, op, r, k).Ok? && GenCompare(l, op, r, k).value.next == k
    ensures Raises(GenCompare(l, op, r, k).value.code, 0)
  {
    ExprStackBalanced(l, k);
    ExprStackBalanced(r, k);
    var lc := Gen(l, k).value.code;
    var rc := Gen(r, k).value.code;
    CompareTailNeutral(op);
    RaisesOperands(lc, PushEax, rc, PopEbx, CompareTail(op));
  }

  /** The code of an expression does not depend on the label counter. */
  lemma {:induction false} ExprIgnoresCounter(e: Node, k: nat, j: nat)
    requires PureExpr(e)
    ensures Gen(e, k).Ok? && Gen(e, j).Ok? && Gen(e, k).value.code == Gen(e, j).value.code
    decreases e
  {
    ExprStackBalanced(e, k);
    ExprStackBalanced(e, j);
    match e
    case BinOp(l, op, r) =>
      ExprStackBalanced(l, k);
      ExprStackBalanced(l, j);
      ExprIgnoresCounter(l, k, j);
      ExprIgnoresCounter(r, k, j);
    case _ =>
  }

  // ---------------------------------------------------------------------------------------
  // printf and scanf

  /** `printf`/`scanf` push one value per argument (and never pop more than they pushed). */
  lemma {:induction false} PushesOnePerArgument(args: seq<Node>, k: nat)
    requires forall j | 0 <= j < |args| :: PureExpr(args[j])
    ensures GenPushes(args, k).Ok? && GenPushes(args, k).value.next == k
    ensures Raises(GenPushes(args, k).value.code, |args|)
    decreases |args|
  {
    if args != [] {
      var last := args[|args| - 1];
      var init := args[..|args| - 1];
      ExprStackBalanced(last, k);
      PushesOnePerArgument(init, k);
      var lc := Gen(last, k).value.code;
      var rc := GenPushes(init, k).value.code;
      assert GenPushes(args, k).value.code == lc + [PushEax] + rc;
      assert Raises([PushEax], 1) by {
        assert [PushEax][1..] == [];
      }
      RaisesAppend(lc, [PushEax], 0, 1);
      RaisesAppend(lc + [PushEax], rc, 1, |init|);
    } else {
      assert GenPushes(args, k).value.code == [];
    }
  }

  lemma {:induction false} PushesOk(args: seq<Node>, k: nat)
    requires forall j | 0 <= j < |args| :: PureExpr(args[j])
    ensures GenPushes(args, k).Ok? && GenPushes(args, k).value.next == k
    decreases |args|
  {
    if args != [] {
      ExprStackBalanced(args[|args| - 1], k);
      PushesOk(args[..|args| - 1], k);
    }
  }

  /** The arguments are pushed from last to first: the first argument is evaluated and
      pushed last, right before the call. */
  lemma {:induction false} FirstArgumentPushedLast(args: seq<Node>, k: nat)
    requires |args| > 0
    requires forall j | 0 <= j < |args| :: PureExpr(args[j])
    ensures GenPushes(args, k).Ok? && GenPushes(args[1..], k).Ok? && Gen(args[0], k).Ok?
    ensures GenPushes(args, k).value.code ==
      GenPushes(args[1..], k).value.code + Gen(args[0], k).value.code + [PushEax]
    decreases |args|
  {
    var last := args[|args| - 1];
    var init := args[..|args| - 1];
    PushesUnfold(args, k);
    PushesOk(args[1..], k);
    ExprStackBalanced(args[0], k);
    var lc := Gen(last, k).value.code;
    var a0 := Gen(args[0], k).value.code;
    if |args| > 1 {
      var mid := args[1..];
      assert mid[|mid| - 1] == last && mid[..|mid| - 1] == init[1..] && init[0] == args[0];
      FirstArgumentPushedLast(init, k);
      PushesUnfold(mid, k);
      var rest := GenPushes(init[1..], k).value.code;
      Regroup(lc + [PushEax], rest, a0 + [PushEax]);
    } else {
      assert init == [] && args[1..] == [] && last == args[0];
      assert GenPushes([], k).value.code == [];
    }
  }

  lemma Regroup(x: seq<string>, y: seq<string>, z: seq<string>)
    ensures x + (y + z) == x + y + z
  {
  }

  /** One step of `GenPushes`: the last argument, its push, then the others. */
  lemma PushesUnfold(args: seq<Node>, k: nat)
    requires |args| > 0
    requires forall j | 0 <= j < |args| :: PureExpr(args[j])
    ensures GenPushes(args, k).Ok? && Gen(args[|args| - 1], k).Ok? && GenPushes(args[..|args| - 1], k).Ok?
    ensures GenPushes(args, k).value.code ==
      Gen(args[|args| - 1], k).value.code + [PushEax] + GenPushes(args[..|args| - 1], k).value.code
  {
    PushesOk(args, k);
    PushesOk(args[..|args| - 1], k);
    ExprStackBalanced(args[|args| - 1], k);
  }

  /** The whole call: the pushes, `call _<name>` and, when there are arguments, the
      cleanup of four bytes per pushed value, so that the stack is left as it was found.
      Any other callee produces an empty line. */
  lemma CallCode(callee: string, args: seq<Node>, k: nat)
    requires forall j | 0 <= j < |args| :: PureExpr(args[j])
    ensures GenCall(callee, args, k).Ok? && GenPushes(args, k).Ok?
    ensures callee == "printf" || callee == "scanf" ==>
      var code := GenCall(callee, args, k).value.code;
      var pushes := GenPushes(args, k).value.code;
      && Depth(pushes) == |args|
      && |code| == |pushes| + (if |args| > 0 then 2 else 1)
      && code[..|pushes|] == pushes
      && code[|pushes|] == "    call _" + callee
      && (|args| > 0 ==> code[|pushes| + 1] == "    add esp, " + NatStr(4 * Depth(pushes)))
    ensures callee != "printf" && callee != "scanf" ==> GenCall(callee, args, k).value.code == [""]
  {
    PushesOnePerArgument(args, k);
  }

  // ---------------------------------------------------------------------------------------
  // Individual nodes

  /** `*` and `/` add no instruction after `pop ebx`: they compile to the same code, which
      leaves the right operand in `eax`. */
  lemma MultiplyAndDivideEmitNothing(l: Node, r: Node, k: nat)
    requires PureExpr(l) && PureExpr(r)
    ensures Gen(l, k).Ok? && Gen(r, k).Ok? && GenBinOp(l, "*", r, k).Ok?
    ensures GenBinOp(l, "*", r, k) == GenBinOp(l, "/", r, k)
    ensures GenBinOp(l, "*", r, k).value.code ==
      Gen(l, k).value.code + [OpPush] + Gen(r, k).value.code + [OpPop]
  {
    ExprStackBalanced(l, k);
    ExprStackBalanced(r, k);
  }

  /** A number is loaded into `xmm0` exactly when its lexeme has a `.` or an `f`/`F`, and into
      `eax` otherwise. */
  lemma NumberLoad(lexeme: string)
    ensures var line := NumberLine(lexeme);
      |line| >= 13
      && (IsFloatLexeme(lexeme) <==> line[..9] == "    movss")
      && (!IsFloatLexeme(lexeme) <==> line[..13] == "    mov eax, ")
  {
    var line := NumberLine(lexeme);
    if IsFloatLexeme(lexeme) {
      var head := "    movss xmm0, [";
      assert line == head + (lexeme + "] ; cargar flotante " + lexeme);
      assert line[..9] == head[..9];
      assert line[7] == 's';
    } else {
      var head := "    mov eax, ";
      assert line == head + (lexeme + " ; cargar entero " + lexeme);
      assert line[..13] == head;
      assert line[7] == ' ';
    }
  }

  /** A comparison ends with one `set<cc> al` and `movzx eax, al` when its operator is one of
      the six, and with `movzx` alone otherwise. */
  lemma CompareSetsFlag(l: Node, op: string, r: Node, k: nat)
    requires PureExpr(l) && PureExpr(r)
    ensures GenCompare(l, op, r, k).Ok? && |GenCompare(l, op, r, k).value.code| >= 3
    ensures var code := GenCompare(l, op, r, k).value.code;
      && code[|code| - 1] == "    movzx eax, al"
      && (IsRelOp(op) ==> |SetInstruction(op)| == 1 && code[|code| - 2] == SetInstruction(op)[0])
      && (!IsRelOp(op) ==> SetInstruction(op) == [] && code[|code| - 2] == "    cmp ebx, eax")
  {
    ExprStackBalanced(l, k);
    ExprStackBalanced(r, k);
  }

  // ---------------------------------------------------------------------------------------
  // Labels of loops and conditionals

  lemma SingleStatement(n: Node, k: nat)
    requires Gen(n, k).Ok?
    ensures GenSeq([n], k) == Gen(n, k)
  {
    assert [n][0] == n && [n][1..] == [];
    assert Gen(n, k).value.code + [] == Gen(n, k).value.code;
  }

  /** For instance `if (x > 0) { y = 1; }` inside any function jumps to `L<k>_next`, which
      its code never defines. */
  lemma IfWithoutElseExample(k: nat)
    ensures
      var c := Compare(Ident(Token(Identifier, "x")), ">", Num(Token(Number, "0")));
      var s := Assign(Token(Identifier, "y"), Num(Token(Number, "1")));
      GenIf(c, [s], NoElse, [], k).Ok?
      && "    je " + Label(k) + "_next" in GenIf(c, [s], NoElse, [], k).value.code
      && Label(k) + "_next:" !in GenIf(c, [s], NoElse, [], k).value.code
  {
    var x, zero, one := Ident(Token(Identifier, "x")), Num(Token(Number, "0")), Num(Token(Number, "1"));
    var c := Compare(x, ">", zero);
    var s := Assign(Token(Identifier, "y"), one);
    CompareStackBalanced(x, ">", zero, k + 1);
    LeafCode(one, k + 1);
    SingleStatement(s, k + 1);
    assert AllInBody([s]);
    PendingLabelUndefined(c, [s], NoElse, [], k);
    assert "    je " + NextLabel(k, 0) == "    je " + Label(k) + "_next";
    assert NextLabel(k, 0) + ":" == Label(k) + "_next:";
  }

  /** A `while` starts with its start label, tests the condition right after it, and ends
      by jumping back to the start just before its end label. */
  lemma WhileShape(c: Node, body: seq<Node>, k: nat)
    requires GenWhile(c, body, k).Ok?
    ensures Gen(c, k + 1).Ok? && GenSeq(body, Gen(c, k + 1).value.next).Ok?
    ensures var code := GenWhile(c, body, k).value.code;
      var cond := Gen(c, k + 1).value.code;
      var b := GenSeq(body, Gen(c, k + 1).value.next).value.code;
      && |code| == |cond| + |b| + 5
      && code[0] == Label(k) + "_start: ; inicio de bucle while"
      && code[1..1 + |cond|] == cond
      && code[|cond| + 1] == WhileTest
      && code[|cond| + 2] == "    je " + Label(k) + "_end ; terninar el bucle si la condicion es falsa"
      && code[|cond| + 3..|cond| + 3 + |b|] == b
      && code[|code| - 2] == "    jmp " + Label(k) + "_start ; volvar al inicio del bucle while"
      && code[|code| - 1] == Label(k) + "_end: ; fin de bucle while"
  {
  }

  /** A `for` runs its initializer once, before the start label; right after the label it
      computes the condition, tests it and leaves the loop when it is false; then come the
      body and, after it, the increment. */
  lemma ForShape(init: Node, c: Node, incr: Node, body: seq<Node>, k: nat, i: Emit, cond: Emit, b: Emit, inc: Emit)
    requires Gen(init, k + 1) == Ok(i) && Gen(c, i.next) == Ok(cond)
    requires GenSeq(body, cond.next) == Ok(b) && Gen(incr, b.next) == Ok(inc)
    ensures GenFor(init, c, incr, body, k).Ok?
    ensures var code := GenFor(init, c, incr, body, k).value.code;
      var n := |i.code| + 1 + |cond.code|;
      && |code| == |i.code| + |cond.code| + |b.code| + |inc.code| + 5
      && code[..|i.code|] == i.code
      && code[|i.code|] == Label(k) + "_start: ; inicio del bucle for"
      && code[|i.code| + 1..n] == cond.code
      && code[n] == ForTest
      && code[n + 1] == "    je " + Label(k) + "_end ; salir del bucle si la condicion es falsa"
      && code[n + 2..n + 2 + |b.code|] == b.code
      && code[n + 2 + |b.code|..n + 2 + |b.code| + |inc.code|] == inc.code
  {
    var start, je := Label(k) + "_start: ; inicio del bucle for",
                     "    je " + Label(k) + "_end ; salir del bucle si la condicion es falsa";
    var back, end := "    jmp " + Label(k) + "_start ; volver al inicio del bucle for", Label(k) + "_end: ; fin del bucle for";
    assert GenFor(init, c, incr, body, k).value.code == i.code + [start] + cond.code + [ForTest, je] + b.code + inc.code + [back, end];
    ForLayout(i.code, start, cond.code, ForTest, je, b.code, inc.code, back, end);
  }

  /** A `for` compiles exactly when its four parts do, in the order initializer, condition,
      body, increment, each numbering its labels from where the previous one stopped. */
  lemma ForParts(init: Node, c: Node, incr: Node, body: seq<Node>, k: nat)
    ensures GenFor(init, c, incr, body, k).Ok? <==>
      && Gen(init, k + 1).Ok?
      && Gen(c, Gen(init, k + 1).value.next).Ok?
      && GenSeq(body, Gen(c, Gen(init, k + 1).value.next).value.next).Ok?
      && Gen(incr, GenSeq(body, Gen(c, Gen(init, k + 1).value.next).value.next).value.next).Ok?
  {
  }

  /** Where each piece of a `for` sits in its code. */
  lemma ForLayout(i: seq<string>, start: string, cond: seq<string>, test: string, je: string, b: seq<string>,
                  inc: seq<string>, back: string, end: string)
    ensures var code := i + [start] + cond + [test, je] + b + inc + [back, end];
      var n := |i| + 1 + |cond|;
      && |code| == |i| + |cond| + |b| + |inc| + 5
      && code[..|i|] == i
      && code[|i|] == start
      && code[|i| + 1..n] == cond
      && code[n] == test
      && code[n + 1] == je
      && code[n + 2..n + 2 + |b|] == b
      && code[n + 2 + |b|..n + 2 + |b| + |inc|] == inc
  {
  }

  /** A `for` runs its increment after the body, right before jumping back to the start. */
  lemma ForIncrementLast(init: Node, c: Node, incr: Node, body: seq<Node>, k: nat)
    requires GenFor(init, c, incr, body, k).Ok?
    ensures Gen(init, k + 1).Ok?
    ensures Gen(c, Gen(init, k + 1).value.next).Ok?
    ensures GenSeq(body, Gen(c, Gen(init, k + 1).value.next).value.next).Ok?
    ensures Gen(incr, GenSeq(body, Gen(c, Gen(init, k + 1).value.next).value.next).value.next).Ok?
    ensures var code := GenFor(init, c, incr, body, k).value.code;
      var b := GenSeq(body, Gen(c, Gen(init, k + 1).value.next).value.next).value;
      var inc := Gen(incr, b.next).value.code;
      && |code| >= |inc| + 2
      && code[|code| - 2 - |inc|..|code| - 2] == inc
      && code[|code| - 2] == "    jmp " + Label(k) + "_start ; volver al inicio del bucle for"
      && code[|code| - 1] == Label(k) + "_end: ; fin del bucle for"
  {
  }

  /** An `if` tests its condition right after computing it, jumps to `_next` when it is
      false, and ends with its end label. */
  lemma IfShape(c: Node, thenBody: seq<Node>, elseBody: ElseBody, elseIfs: seq<ElseIf>, k: nat)
    requires GenIf(c, thenBody, elseBody, elseIfs, k).Ok?
    ensures Gen(c, k + 1).Ok?
    ensures var code := GenIf(c, thenBody, elseBody, elseIfs, k).value.code;
      var cond := Gen(c, k + 1).value.code;
      && |code| >= |cond| + 4
      && code[..|cond|] == cond
      && code[|cond|] == "    cmp eax, 0"
      && code[|cond| + 1] == "    je " + Label(k) + "_next"
      && code[|code| - 1] == Label(k) + "_end:"
  {
  }

  /** The `else if` branch number `i` defines the label the previous test jumps to, tests its
      own condition and jumps to `_next_<i>` when it is false. */
  lemma ElseIfBranchShape(eis: seq<ElseIf>, k: nat, i: nat, pending: string, c: nat)
    requires |eis| > 0 && GenElseIfs(eis, k, i, pending, c).Ok?
    ensures Gen(eis[0].cond, c).Ok?
    ensures var code := GenElseIfs(eis, k, i, pending, c).value.0.code;
      var cond := Gen(eis[0].cond, c).value.code;
      && |code| >= |cond| + 4
      && code[0] == pending + ":"
      && code[1..|cond| + 1] == cond
      && code[|cond| + 1] == "    cmp eax, 0"
      && code[|cond| + 2] == "    je " + Label(k) + "_next_" + NatStr(i)
  {
  }
}
