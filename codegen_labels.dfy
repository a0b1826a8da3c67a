/** The labels of nodos.py's `generar_codigo`. The source names the labels of a `while`, a
    `for` or an `if` after `id(self)`, so no two constructs share a label; `CodeGen.Gen`
    numbers them with a counter instead, and this module proves that the counter gives the
    same guarantee: every label line of a statement's code carries a number in the range the
    statement was handed. On top of that it states exactly which labels an `if` defines. */
module CodeGenLabels {
  import opened Tokens
  import opened Ast
  import opened CodeGen

  // ---------------------------------------------------------------------------------------
  // Which construct a line belongs to

  /** The number of decimal digits `s` starts with. */
  function DigitRun(s: string): (d: nat)
    ensures d <= |s|
    ensures forall i :: 0 <= i < d ==> IsDigit(s[i])
    ensures d < |s| ==> !IsDigit(s[d])
  {
    if s == [] || !IsDigit(s[0]) then 0 else 1 + DigitRun(s[1..])
  }

  /** The construct a line belongs to: a line `L<j>_...` is a label line of the construct
      numbered `j`. Every other line the generator writes for a statement starts with a
      space or a `;`, or is empty. */
  function Owner(line: string): Option<nat>
  {
    if |line| == 0 || line[0] != 'L' then None
    else
      var d := DigitRun(line[1..]);
      if 0 < d && d + 1 < |line| && line[d + 1] == '_' then Some(DigitsValue(line[1..d + 1])) else None
  }

  lemma {:induction false} DigitRunOfDigits(a: string, s: string)
    requires forall i :: 0 <= i < |a| ==> IsDigit(a[i])
    requires |s| > 0 && !IsDigit(s[0])
    ensures DigitRun(a + s) == |a|
    decreases |a|
  {
    if a != [] {
      assert (a + s)[1..] == a[1..] + s;
      DigitRunOfDigits(a[1..], s);
    } else {
      assert a + s == s;
    }
  }

  /** `L<k>` followed by `_...` is a line of construct `k`. */
  lemma OwnerOfLabel(k: nat, s: string)
    requires |s| > 0 && s[0] == '_'
    ensures Owner(Label(k) + s) == Some(k)
  {
    var a := NatStr(k);
    NatStrDigits(k);
    var line := Label(k) + s;
    assert line[1..] == a + s;
    DigitRunOfDigits(a, s);
    assert line[1..|a| + 1] == a;
  }

  /** Every label line of `code` belongs to a construct numbered in `[lo, hi)`. */
  ghost predicate Within(code: seq<string>, lo: nat, hi: nat)
  {
    forall line <- code :: Owner(line).Some? ==> lo <= Owner(line).value < hi
  }

  lemma WithinCat(a: seq<string>, b: seq<string>, lo: nat, hi: nat)
    requires Within(a, lo, hi) && Within(b, lo, hi)
    ensures Within(a + b, lo, hi)
  {
  }

  lemma WithinWiden(a: seq<string>, lo: nat, hi: nat, lo2: nat, hi2: nat)
    requires Within(a, lo, hi) && lo2 <= lo && hi <= hi2
    ensures Within(a, lo2, hi2)
  {
  }

  /** Lines that start with a space or a `;`, or are empty, belong to no construct. */
  lemma PlainLines(code: seq<string>, lo: nat, hi: nat)
    requires forall line <- code :: |line| == 0 || line[0] == ' ' || line[0] == ';'
    ensures Within(code, lo, hi)
  {
  }

  lemma TailsPlain(op: string, lo: nat, hi: nat)
    ensures Within(OperatorTail(op), lo, hi) && Within(CompareTail(op), lo, hi)
  {
    OperatorTailPlain(op, lo, hi);
    CompareTailPlain(op, lo, hi);
  }

  lemma OperatorTailPlain(op: string, lo: nat, hi: nat)
    ensures Within(OperatorTail(op), lo, hi)
  {
    PlainLines(OperatorTail(op), lo, hi);
  }

  lemma CompareTailPlain(op: string, lo: nat, hi: nat)
    ensures Within(CompareTail(op), lo, hi)
  {
    assert forall line <- SetInstruction(op) :: line[0] == ' ';
    PlainLines(CompareTail(op), lo, hi);
  }

  // ---------------------------------------------------------------------------------------
  // The counter keeps the constructs apart

  /** The code of a statement (or of anything inside a function body) handed the counter `k`
      has its label lines numbered in `[k, next)`: the constructs inside it take numbers the
      ones before it have not used, as `id(self)` is different for different nodes. */
  lemma {:induction false} GenWithin(n: Node, k: nat)
    requires InBody(n) && Gen(n, k).Ok?
    ensures Within(Gen(n, k).value.code, k, Gen(n, k).value.next)
    decreases n, 2
  {
    match n
    case Assign(_, _) => StoreWithin(n, k);
    case Return(_) => StoreWithin(n, k);
    case BinOp(_, _, _) => OperationWithin(n, k);
    case Compare(_, _, _) => OperationWithin(n, k);
    case Call(_, _) => CallWithin(n, k);
    case While(c, body) =>
      assert Gen(n, k) == GenWhile(c, body, k);
      WhileWithin(c, body, k);
    case For(init, c, incr, body) =>
      assert Gen(n, k) == GenFor(init, c, incr, body, k);
      ForWithin(init, c, incr, body, k);
    case If(c, thenBody, elseBody, elseIfs) =>
      assert Gen(n, k) == GenIf(c, thenBody, elseBody, elseIfs, k);
      IfWithin(c, thenBody, elseBody, elseIfs, k);
    case _ => LeafWithin(n, k);
  }

  /** An assignment or a `return`: the value's code, then one instruction. */
  lemma {:induction false} StoreWithin(n: Node, k: nat)
    requires (n.Assign? || n.Return?) && InBody(n) && Gen(n, k).Ok?
    ensures Within(Gen(n, k).value.code, k, Gen(n, k).value.next)
    decreases n, 1
  {
    var e := n.expr;
    var v := Gen(e, k).value;
    GenWithin(e, k);
    var last := if n.Assign? then "    mov [" + n.target.lexeme + "], eax ; asignar a " + n.target.lexeme
                else "    ret ; retorno desde la subrutina";
    PlainLines([last], k, v.next);
    assert Gen(n, k).value == Emit(v.code + [last], v.next);
  }

  /** A call: the pushed arguments, the call and the stack cleanup, or an empty line. */
  lemma {:induction false} CallWithin(n: Node, k: nat)
    requires n.Call? && InBody(n) && Gen(n, k).Ok?
    ensures Within(Gen(n, k).value.code, k, Gen(n, k).value.next)
    decreases n, 1
  {
    var r := Gen(n, k).value;
    assert Gen(n, k) == GenCall(n.callee, n.args, k);
    if n.callee == "printf" || n.callee == "scanf" {
      var pushes := GenPushes(n.args, k).value;
      PushesWithin(n.args, k);
      var call := ["    call _" + n.callee];
      var cleanup := if |n.args| > 0 then ["    add esp, " + NatStr(4 * |n.args|)] else [];
      PlainLines(call, k, r.next);
      PlainLines(cleanup, k, r.next);
      assert r.code == pushes.code + call + cleanup;
      WithinCat(pushes.code, call, k, r.next);
      WithinCat(pushes.code + call, cleanup, k, r.next);
    } else {
      PlainLines([""], k, r.next);
    }
  }

  /** Loads, declarations, constants and increments write no label. */
  lemma LeafWithin(n: Node, k: nat)
    requires n.Ident? || n.Num? || n.Str? || n.Decl? || n.Const? || n.Increment?
    requires Gen(n, k).Ok?
    ensures Within(Gen(n, k).value.code, k, Gen(n, k).value.next)
  {
    PlainLines(Gen(n, k).value.code, k, Gen(n, k).value.next);
  }

  /** An operation or a comparison: left operand, push, right operand, pop, and the
      instructions of the operator. */
  lemma {:induction false} OperationWithin(n: Node, k: nat)
    requires (n.BinOp? || n.Compare?) && InBody(n) && Gen(n, k).Ok?
    ensures Within(Gen(n, k).value.code, k, Gen(n, k).value.next)
    decreases n, 1
  {
    var r := Gen(n, k).value;
    var left := Gen(n.left, k).value;
    var right := Gen(n.right, left.next).value;
    GenWithin(n.left, k);
    GenWithin(n.right, left.next);
    var push, pop, tail := if n.BinOp? then OpPush else PushEax, if n.BinOp? then OpPop else PopEbx,
                           if n.BinOp? then OperatorTail(n.op) else CompareTail(n.op);
    assert r.code == left.code + [push] + right.code + [pop] + tail;
    TailsPlain(n.op, k, r.next);
    PlainLines([push], k, r.next);
    PlainLines([pop], k, r.next);
    WithinWiden(left.code, k, left.next, k, r.next);
    WithinWiden(right.code, left.next, r.next, k, r.next);
    WithinCat(left.code, [push], k, r.next);
    WithinCat(left.code + [push], right.code, k, r.next);
    WithinCat(left.code + [push] + right.code, [pop], k, r.next);
    WithinCat(left.code + [push] + right.code + [pop], tail, k, r.next);
  }

  lemma {:induction false} SeqWithin(ns: seq<Node>, k: nat)
    requires AllInBody(ns) && GenSeq(ns, k).Ok?
    ensures Within(GenSeq(ns, k).value.code, k, GenSeq(ns, k).value.next)
    decreases ns, 0
  {
    if ns != [] {
      var head := Gen(ns[0], k).value;
      assert ns[0] in ns;
      GenWithin(ns[0], k);
      assert AllInBody(ns[1..]) by {
        forall s <- ns[1..] ensures InBody(s) {
          assert s in ns;
        }
      }
      SeqWithin(ns[1..], head.next);
      var tail := GenSeq(ns[1..], head.next).value;
      WithinWiden(head.code, k, head.next, k, tail.next);
      WithinWiden(tail.code, head.next, tail.next, k, tail.next);
      WithinCat(head.code, tail.code, k, tail.next);
    }
  }

  lemma {:induction false} PushesWithin(args: seq<Node>, k: nat)
    requires (forall a <- args :: InBody(a)) && GenPushes(args, k).Ok?
    ensures Within(GenPushes(args, k).value.code, k, GenPushes(args, k).value.next)
    decreases args, 0
  {
    if args != [] {
      var last := Gen(args[|args| - 1], k).value;
      assert args[|args| - 1] in args;
      GenWithin(args[|args| - 1], k);
      assert forall a <- args[..|args| - 1] :: InBody(a) by {
        forall a <- args[..|args| - 1] ensures InBody(a) {
          assert a in args;
        }
      }
      PushesWithin(args[..|args| - 1], last.next);
      var rest := GenPushes(args[..|args| - 1], last.next).value;
      PlainLines([PushEax], k, rest.next);
      WithinWiden(last.code, k, last.next, k, rest.next);
      WithinWiden(rest.code, last.next, rest.next, k, rest.next);
      WithinCat(last.code, [PushEax], k, rest.next);
      WithinCat(last.code + [PushEax], rest.code, k, rest.next);
    }
  }

  /** The layout of a `while`: label lines of construct `k` around parts that use `k + 1`
      onwards, one after the other. */
  lemma WhileLayoutWithin(start: string, cond: seq<string>, test: seq<string>, b: seq<string>,
                          back: string, end: string, k: nat, n2: nat, n: nat)
    requires k + 1 <= n2 <= n
    requires Within(cond, k + 1, n2) && Within(b, n2, n)
    requires Owner(start) == Some(k) && Owner(end) == Some(k)
    requires Within(test, k, n) && Within([back], k, n)
    ensures Within([start] + cond + test + b + [back, end], k, n)
  {
  }

  /** The layout of a `for`, with its initializer first and its increment after the body. */
  lemma LoopLayoutWithin(i: seq<string>, start: string, cond: seq<string>, test: seq<string>,
                         b: seq<string>, inc: seq<string>, back: string, end: string,
                         k: nat, n1: nat, n2: nat, n3: nat, n: nat)
    requires k + 1 <= n1 <= n2 <= n3 <= n
    requires Within(i, k + 1, n1) && Within(cond, n1, n2) && Within(b, n2, n3) && Within(inc, n3, n)
    requires Owner(start) == Some(k) && Owner(end) == Some(k)
    requires Within(test, k, n) && Within([back], k, n)
    ensures Within(i + [start] + cond + test + b + inc + [back, end], k, n)
  {
  }

  lemma {:induction false} WhileWithin(c: Node, body: seq<Node>, k: nat)
    requires InBody(c) && AllInBody(body) && GenWhile(c, body, k).Ok?
    ensures Within(GenWhile(c, body, k).value.code, k, GenWhile(c, body, k).value.next)
    decreases While(c, body), 1
  {
    var cond := Gen(c, k + 1).value;
    var b := GenSeq(body, cond.next).value;
    GenWithin(c, k + 1);
    SeqWithin(body, cond.next);
    var start := Label(k) + "_start: ; inicio de bucle while";
    var end := Label(k) + "_end: ; fin de bucle while";
    OwnerOfLabel(k, "_start: ; inicio de bucle while");
    OwnerOfLabel(k, "_end: ; fin de bucle while");
    var test := [WhileTest, "    je " + Label(k) + "_end ; terninar el bucle si la condicion es falsa"];
    var back := "    jmp " + Label(k) + "_start ; volvar al inicio del bucle while";
    PlainLines(test, k, b.next);
    PlainLines([back], k, b.next);
    WhileLayoutWithin(start, cond.code, test, b.code, back, end, k, cond.next, b.next);
    assert GenWhile(c, body, k).value.code == [start] + cond.code + test + b.code + [back, end];
  }

  lemma {:induction false} ForWithin(init: Node, c: Node, incr: Node, body: seq<Node>, k: nat)
    requires InBody(init) && InBody(c) && InBody(incr) && AllInBody(body)
    requires GenFor(init, c, incr, body, k).Ok?
    ensures Within(GenFor(init, c, incr, body, k).value.code, k, GenFor(init, c, incr, body, k).value.next)
    decreases For(init, c, incr, body), 1
  {
    var i := Gen(init, k + 1).value;
    var cond := Gen(c, i.next).value;
    var b := GenSeq(body, cond.next).value;
    var inc := Gen(incr, b.next).value;
    GenWithin(init, k + 1);
    GenWithin(c, i.next);
    SeqWithin(body, cond.next);
    GenWithin(incr, b.next);
    var start := Label(k) + "_start: ; inicio del bucle for";
    var end := Label(k) + "_end: ; fin del bucle for";
    OwnerOfLabel(k, "_start: ; inicio del bucle for");
    OwnerOfLabel(k, "_end: ; fin del bucle for");
    var test := [ForTest, "    je " + Label(k) + "_end ; salir del bucle si la condicion es falsa"];
    var back := "    jmp " + Label(k) + "_start ; volver al inicio del bucle for";
    PlainLines(test, k, inc.next);
    PlainLines([back], k, inc.next);
    LoopLayoutWithin(i.code, start, cond.code, test, b.code, inc.code, back, end, k, i.next, cond.next, b.next, inc.next);
    assert GenFor(init, c, incr, body, k).value.code == i.code + [start] + cond.code + test + b.code + inc.code + [back, end];
  }

  /** The label the test before `else if` branch `i` jumps to when it is false: `L<k>_next`
      for the first, `L<k>_next_<i-1>` after it (nodos.py renames it in each branch). */
  function NextLabel(k: nat, i: nat): string
  {
    if i == 0 then Label(k) + "_next" else Label(k) + "_next_" + NatStr(i - 1)
  }

  lemma OwnerOfNext(k: nat, i: nat)
    ensures Owner(NextLabel(k, i) + ":") == Some(k)
  {
    if i == 0 {
      assert NextLabel(k, i) + ":" == Label(k) + "_next:";
      OwnerOfLabel(k, "_next:");
    } else {
      var s := "_next_" + NatStr(i - 1) + ":";
      assert NextLabel(k, i) + ":" == Label(k) + s;
      OwnerOfLabel(k, s);
    }
  }

  /** The lines of `code` that belong to construct `k`, in order. */
  function LabelLines(code: seq<string>, k: nat): seq<string>
  {
    if code == [] then [] else (if Owner(code[0]) == Some(k) then [code[0]] else []) + LabelLines(code[1..], k)
  }

  lemma {:induction false} LabelLinesCat(a: seq<string>, b: seq<string>, k: nat)
    ensures LabelLines(a + b, k) == LabelLines(a, k) + LabelLines(b, k)
    decreases |a|
  {
    if a != [] {
      assert (a + b)[1..] == a[1..] + b;
      LabelLinesCat(a[1..], b, k);
    } else {
      assert a + b == b;
    }
  }

  lemma {:induction false} LabelLinesNone(code: seq<string>, k: nat, lo: nat, hi: nat)
    requires Within(code, lo, hi) && (k < lo || hi <= k)
    ensures LabelLines(code, k) == []
    decreases |code|
  {
    if code != [] {
      assert code[0] in code;
      assert Within(code[1..], lo, hi) by {
        forall line <- code[1..] ensures Owner(line).Some? ==> lo <= Owner(line).value < hi {
          assert line in code;
        }
      }
      LabelLinesNone(code[1..], k, lo, hi);
    }
  }

  /** A line of construct `k` occurs in its label lines as often as in the code. */
  lemma {:induction false} LabelLinesCount(code: seq<string>, k: nat, line: string)
    requires Owner(line) == Some(k)
    ensures multiset(LabelLines(code, k))[line] == multiset(code)[line]
    decreases |code|
  {
    if code != [] {
      assert code == [code[0]] + code[1..];
      LabelLinesCount(code[1..], k, line);
    }
  }

  /** The code of a statement handed a counter above `k` has no label line of `k`. */
  lemma GenLabelsNone(n: Node, c: nat, k: nat)
    requires InBody(n) && Gen(n, c).Ok? && k < c
    ensures LabelLines(Gen(n, c).value.code, k) == []
  {
    GenWithin(n, c);
    LabelLinesNone(Gen(n, c).value.code, k, c, Gen(n, c).value.next);
  }

  lemma SeqLabelsNone(ns: seq<Node>, c: nat, k: nat)
    requires AllInBody(ns) && GenSeq(ns, c).Ok? && k < c
    ensures LabelLines(GenSeq(ns, c).value.code, k) == []
  {
    SeqWithin(ns, c);
    LabelLinesNone(GenSeq(ns, c).value.code, k, c, GenSeq(ns, c).value.next);
  }

  /** The test of a condition writes no label line. */
  lemma TestLabelsNone(je: string, k: nat)
    requires |je| > 0 && je[0] == ' '
    ensures LabelLines(["    cmp eax, 0", je], k) == []
  {
    var test := ["    cmp eax, 0", je];
    assert [je][1..] == [] && Owner(je) == None;
    assert LabelLines([je], k) == [];
    assert test[1..] == [je] && Owner(test[0]) == None;
  }

  /** The lines `f(i)`, `f(i + 1)`, ..., `f(i + m - 1)`. */
  function Defs(f: nat -> string, i: nat, m: nat): seq<string>
    decreases m
  {
    if m == 0 then [] else [f(i)] + Defs(f, i + 1, m - 1)
  }

  /** The definition line of each `_next` label of construct `k`. */
  function NextLine(k: nat): nat -> string
  {
    (j: nat) => NextLabel(k, j) + ":"
  }

  /** The `_next` labels the `else if` branches `i` to `i + m - 1` define, in order. */
  function NextDefs(k: nat, i: nat, m: nat): seq<string>
  {
    Defs(NextLine(k), i, m)
  }

  /** Every label line of `code` belongs to construct `k` or to one numbered in `[lo, hi)`. */
  ghost predicate WithinOr(code: seq<string>, k: nat, lo: nat, hi: nat)
  {
    forall line <- code :: Owner(line).Some? ==> Owner(line).value == k || lo <= Owner(line).value < hi
  }

  /** One `else if` branch: its label, its test and body, the jump to the end, the rest. */
  lemma ElseIfLayout(def: string, cond: seq<string>, test: seq<string>, body: seq<string>, jmp: string,
                     rest: seq<string>, k: nat, c: nat, n1: nat, n2: nat, n: nat)
    requires k < c <= n1 <= n2 <= n
    requires Owner(def) == Some(k)
    requires Within(cond, c, n1) && Within(body, n1, n2) && WithinOr(rest, k, n2, n)
    requires Within(test, c, c) && Within([jmp], c, c)
    ensures WithinOr([def] + cond + test + body + [jmp] + rest, k, c, n)
  {
  }

  /** The label lines of `k` in the head of one `else if` branch: its own label only. */
  lemma ElseIfHeadLabels(def: string, cond: seq<string>, test: seq<string>, body: seq<string>, jmp: string,
                         k: nat)
    requires Owner(def) == Some(k) && Owner(jmp) == None
    requires LabelLines(cond, k) == [] && LabelLines(test, k) == [] && LabelLines(body, k) == []
    ensures LabelLines([def] + cond + test + body + [jmp], k) == [def]
  {
    var x1 := [def] + cond;
    LabelLinesCat([def], cond, k);
    var x2 := x1 + test;
    LabelLinesCat(x1, test, k);
    var x3 := x2 + body;
    LabelLinesCat(x2, body, k);
    LabelLinesCat(x3, [jmp], k);
  }

  /** One step of the `else if` chain of construct `k`: branch `i` defines its pending
      label, tests its condition, jumps to the label of branch `i + 1` when it is false,
      runs its body and jumps to the end; the rest of the chain follows. */
  lemma ElseIfsCons(eis: seq<ElseIf>, k: nat, i: nat, c: nat)
    requires eis != [] && GenElseIfs(eis, k, i, NextLabel(k, i), c).Ok?
    ensures Gen(eis[0].cond, c).Ok?
    ensures var cond := Gen(eis[0].cond, c).value;
      GenSeq(eis[0].body, cond.next).Ok?
      && var body := GenSeq(eis[0].body, cond.next).value;
      GenElseIfs(eis[1..], k, i + 1, NextLabel(k, i + 1), body.next).Ok?
      && var rest := GenElseIfs(eis[1..], k, i + 1, NextLabel(k, i + 1), body.next).value;
      var r := GenElseIfs(eis, k, i, NextLabel(k, i), c).value;
      && r.0.code == [NextLabel(k, i) + ":"] + cond.code + ["    cmp eax, 0", "    je " + NextLabel(k, i + 1)]
                     + body.code + ["    jmp " + Label(k) + "_end"] + rest.0.code
      && r.0.next == rest.0.next
      && r.1 == rest.1
  {
    assert NextLabel(k, i + 1) == Label(k) + "_next_" + NatStr(i);
  }

  /** The label the `else if` chain leaves pending is the one after its last branch. */
  lemma {:induction false} ElseIfsPending(eis: seq<ElseIf>, k: nat, i: nat, c: nat)
    requires GenElseIfs(eis, k, i, NextLabel(k, i), c).Ok?
    ensures GenElseIfs(eis, k, i, NextLabel(k, i), c).value.1 == NextLabel(k, i + |eis|)
    decreases eis
  {
    if eis != [] {
      ElseIfsCons(eis, k, i, c);
      var cond := Gen(eis[0].cond, c).value;
      var body := GenSeq(eis[0].body, cond.next).value;
      ElseIfsPending(eis[1..], k, i + 1, body.next);
      assert i + 1 + |eis[1..]| == i + |eis|;
    }
  }

  /** The label lines of the `else if` chain handed the counter `c` belong to construct `k`
      or to a construct numbered in `[c, next)`. */
  lemma {:induction false} ElseIfsWithinOr(eis: seq<ElseIf>, k: nat, i: nat, c: nat)
    requires k < c
    requires forall ei <- eis :: InBody(ei.cond) && AllInBody(ei.body)
    requires GenElseIfs(eis, k, i, NextLabel(k, i), c).Ok?
    ensures WithinOr(GenElseIfs(eis, k, i, NextLabel(k, i), c).value.0.code, k, c,
                     GenElseIfs(eis, k, i, NextLabel(k, i), c).value.0.next)
    decreases eis
  {
    if eis != [] {
      ElseIfsCons(eis, k, i, c);
      var cond := Gen(eis[0].cond, c).value;
      var body := GenSeq(eis[0].body, cond.next).value;
      assert eis[0] in eis;
      GenWithin(eis[0].cond, c);
      SeqWithin(eis[0].body, cond.next);
      TailInBody(eis);
      ElseIfsWithinOr(eis[1..], k, i + 1, body.next);
      var rest := GenElseIfs(eis[1..], k, i + 1, NextLabel(k, i + 1), body.next).value;
      var test := ["    cmp eax, 0", "    je " + NextLabel(k, i + 1)];
      var jmp := "    jmp " + Label(k) + "_end";
      OwnerOfNext(k, i);
      PlainLines(test, c, c);
      PlainLines([jmp], c, c);
      ElseIfLayout(NextLabel(k, i) + ":", cond.code, test, body.code, jmp, rest.0.code, k, c, cond.next, body.next,
                   rest.0.next);
    }
  }

  lemma TailInBody(eis: seq<ElseIf>)
    requires eis != [] && forall ei <- eis :: InBody(ei.cond) && AllInBody(ei.body)
    ensures forall ei <- eis[1..] :: InBody(ei.cond) && AllInBody(ei.body)
  {
    forall ei <- eis[1..] ensures InBody(ei.cond) && AllInBody(ei.body) {
      assert ei in eis;
    }
  }

  /** The label lines of construct `k` in its `else if` chain are the `_next` labels of the
      branches, in order. */
  lemma {:induction false} ElseIfsLabelLines(eis: seq<ElseIf>, k: nat, i: nat, c: nat)
    requires k < c
    requires forall ei <- eis :: InBody(ei.cond) && AllInBody(ei.body)
    requires GenElseIfs(eis, k, i, NextLabel(k, i), c).Ok?
    ensures LabelLines(GenElseIfs(eis, k, i, NextLabel(k, i), c).value.0.code, k) == NextDefs(k, i, |eis|)
    decreases eis
  {
    var r := GenElseIfs(eis, k, i, NextLabel(k, i), c).value;
    if eis == [] {
      assert r.0.code == [];
    } else {
      ElseIfsCons(eis, k, i, c);
      var cond := Gen(eis[0].cond, c).value;
      var body := GenSeq(eis[0].body, cond.next).value;
      assert eis[0] in eis;
      GenLabelsNone(eis[0].cond, c, k);
      SeqLabelsNone(eis[0].body, cond.next, k);
      TailInBody(eis);
      ElseIfsLabelLines(eis[1..], k, i + 1, body.next);
      var rest := GenElseIfs(eis[1..], k, i + 1, NextLabel(k, i + 1), body.next).value;
      var def := NextLabel(k, i) + ":";
      var test := ["    cmp eax, 0", "    je " + NextLabel(k, i + 1)];
      OwnerOfNext(k, i);
      TestLabelsNone("    je " + NextLabel(k, i + 1), k);
      var jmp := "    jmp " + Label(k) + "_end";
      ElseIfHeadLabels(def, cond.code, test, body.code, jmp, k);
      LabelLinesCat([def] + cond.code + test + body.code + [jmp], rest.0.code, k);
      assert NextDefs(k, i, |eis|) == [def] + NextDefs(k, i + 1, |eis[1..]|);
    }
  }

  /** Branch `d - 1` of the `else if` chain, for each `d` past `i`, jumps to `_next` label `d`
      when its condition is false. */
  lemma {:induction false} ElseIfsJumps(eis: seq<ElseIf>, k: nat, i: nat, c: nat)
    requires GenElseIfs(eis, k, i, NextLabel(k, i), c).Ok?
    ensures forall d :: i < d <= i + |eis| ==>
      "    je " + NextLabel(k, d) in GenElseIfs(eis, k, i, NextLabel(k, i), c).value.0.code
    decreases eis
  {
    if eis != [] {
      ElseIfsCons(eis, k, i, c);
      var r := GenElseIfs(eis, k, i, NextLabel(k, i), c).value;
      var cond := Gen(eis[0].cond, c).value;
      var body := GenSeq(eis[0].body, cond.next).value;
      ElseIfsJumps(eis[1..], k, i + 1, body.next);
      var rest := GenElseIfs(eis[1..], k, i + 1, NextLabel(k, i + 1), body.next).value;
      assert r.0.code[1 + |cond.code| + 1] == "    je " + NextLabel(k, i + 1);
      forall d | i + 1 < d <= i + |eis|
        ensures "    je " + NextLabel(k, d) in r.0.code
      {
        assert "    je " + NextLabel(k, d) in rest.0.code;
      }
    }
  }

  /** The layout of an `if`. */
  lemma IfLayout(cond: seq<string>, test: seq<string>, t: seq<string>, jmp: string, chain: seq<string>,
                 elsePart: seq<string>, end: string, k: nat, n1: nat, n2: nat, n3: nat, n: nat)
    requires k + 1 <= n1 <= n2 <= n3 <= n
    requires Within(cond, k + 1, n1) && Within(t, n1, n2) && WithinOr(chain, k, n2, n3)
    requires WithinOr(elsePart, k, n3, n) && Owner(end) == Some(k)
    requires Within(test, k + 1, k + 1) && Within([jmp], k + 1, k + 1)
    ensures Within(cond + test + t + [jmp] + chain + elsePart + [end], k, n)
  {
  }

  /** The head of an `if` (condition, test, then-branch, jump to the end) has no label line
      of `k`. */
  lemma IfHeadLabels(cond: seq<string>, test: seq<string>, t: seq<string>, jmp: string, k: nat)
    requires Owner(jmp) == None
    requires LabelLines(cond, k) == [] && LabelLines(test, k) == [] && LabelLines(t, k) == []
    ensures LabelLines(cond + test + t + [jmp], k) == []
  {
    var x1 := cond + test;
    LabelLinesCat(cond, test, k);
    var x2 := x1 + t;
    LabelLinesCat(x1, t, k);
    LabelLinesCat(x2, [jmp], k);
  }

  /** The label lines of `k` in an `if`: those of its `else if` chain and of its `else`
      part, then its end label. */
  lemma IfLabelLayout(head: seq<string>, chain: seq<string>, elsePart: seq<string>, end: string, k: nat)
    requires LabelLines(head, k) == [] && Owner(end) == Some(k)
    ensures LabelLines(head + chain + elsePart + [end], k) == LabelLines(chain, k) + LabelLines(elsePart, k) + [end]
  {
    var x1 := head + chain;
    LabelLinesCat(head, chain, k);
    var x2 := x1 + elsePart;
    LabelLinesCat(x1, elsePart, k);
    LabelLinesCat(x2, [end], k);
  }

  /** The `else` part of an `if`: the pending `_next` label and the `else` code, when there
      is code to run. */
  function ElsePart(elseBody: ElseBody, pending: string, c: nat): seq<string>
    requires HasElseCode(elseBody) ==> GenSeq(elseBody.stmts, c).Ok?
  {
    if HasElseCode(elseBody) then [pending + ":"] + GenSeq(elseBody.stmts, c).value.code else []
  }

  /** The code of `if` number `k` from its pieces: the condition, the test that jumps to
      `_next` when it is false, the then-branch, the jump to the end, the `else if` chain,
      the `else` part and the end label. */
  function IfCode(cond: seq<string>, t: seq<string>, chain: seq<string>, elsePart: seq<string>, k: nat): seq<string>
  {
    cond + ["    cmp eax, 0", "    je " + NextLabel(k, 0)] + t + ["    jmp " + Label(k) + "_end"]
    + chain + elsePart + [Label(k) + "_end:"]
  }

  /** The pieces of the code of an `if`: its condition, the test that jumps to `_next` when
      it is false, the then-branch, the jump to the end, the `else if` chain, the `else`
      part and the end label. */
  lemma IfParts(c: Node, thenBody: seq<Node>, elseBody: ElseBody, elseIfs: seq<ElseIf>, k: nat)
    requires GenIf(c, thenBody, elseBody, elseIfs, k).Ok?
    ensures Gen(c, k + 1).Ok?
    ensures var cond := Gen(c, k + 1).value;
      GenSeq(thenBody, cond.next).Ok?
      && var t := GenSeq(thenBody, cond.next).value;
      GenElseIfs(elseIfs, k, 0, NextLabel(k, 0), t.next).Ok?
      && var chain := GenElseIfs(elseIfs, k, 0, NextLabel(k, 0), t.next).value;
      (HasElseCode(elseBody) ==> GenSeq(elseBody.stmts, chain.0.next).Ok?)
      && var r := GenIf(c, thenBody, elseBody, elseIfs, k).value;
      && r.code == IfCode(cond.code, t.code, chain.0.code, ElsePart(elseBody, chain.1, chain.0.next), k)
      && r.next == if HasElseCode(elseBody) then GenSeq(elseBody.stmts, chain.0.next).value.next else chain.0.next
  {
    assert "    je " + Label(k) + "_next" == "    je " + NextLabel(k, 0);
  }

  /** The label lines of an `if` handed the counter `k` are numbered in `[k, next)`. */
  lemma {:induction false} IfCodeWithin(c: Node, thenBody: seq<Node>, elseBody: ElseBody, elseIfs: seq<ElseIf>,
                                        k: nat)
    requires InBody(c) && AllInBody(thenBody)
    requires forall ei <- elseIfs :: InBody(ei.cond) && AllInBody(ei.body)
    requires elseBody.Else? ==> AllInBody(elseBody.stmts)
    requires GenIf(c, thenBody, elseBody, elseIfs, k).Ok?
    ensures Within(GenIf(c, thenBody, elseBody, elseIfs, k).value.code, k,
                   GenIf(c, thenBody, elseBody, elseIfs, k).value.next)
    decreases If(c, thenBody, elseBody, elseIfs), 0
  {
    IfParts(c, thenBody, elseBody, elseIfs, k);
    var cond := Gen(c, k + 1).value;
    var t := GenSeq(thenBody, cond.next).value;
    var chain := GenElseIfs(elseIfs, k, 0, NextLabel(k, 0), t.next).value;
    GenWithin(c, k + 1);
    SeqWithin(thenBody, cond.next);
    ElseIfsWithinOr(elseIfs, k, 0, t.next);
    ElseIfsPending(elseIfs, k, 0, t.next);
    ElsePartWithin(elseBody, k, |elseIfs|, chain.0.next);
    IfWithinOf(cond.code, t.code, chain.0.code, ElsePart(elseBody, chain.1, chain.0.next),
               GenIf(c, thenBody, elseBody, elseIfs, k).value.code, k, cond.next, t.next, chain.0.next,
               GenIf(c, thenBody, elseBody, elseIfs, k).value.next);
  }

  /** The `else` part of an `if` defines at most the pending `_next` label of construct `k`
      and the labels of the constructs of its body. */
  lemma ElsePartWithin(elseBody: ElseBody, k: nat, m: nat, c: nat)
    requires elseBody.Else? ==> AllInBody(elseBody.stmts)
    requires HasElseCode(elseBody) ==> GenSeq(elseBody.stmts, c).Ok?
    ensures WithinOr(ElsePart(elseBody, NextLabel(k, m), c), k, c,
                     if HasElseCode(elseBody) then GenSeq(elseBody.stmts, c).value.next else c)
  {
    if HasElseCode(elseBody) {
      SeqWithin(elseBody.stmts, c);
      OwnerOfNext(k, m);
    }
  }

  /** The code of an `if`, assembled from pieces whose label lines are numbered in
      consecutive ranges, has its label lines numbered from `k` to the last range's end. */
  lemma IfWithinOf(cond: seq<string>, t: seq<string>, chain: seq<string>, elsePart: seq<string>,
                   code: seq<string>, k: nat, n1: nat, n2: nat, n3: nat, n: nat)
    requires code == IfCode(cond, t, chain, elsePart, k)
    requires k + 1 <= n1 <= n2 <= n3 <= n
    requires Within(cond, k + 1, n1) && Within(t, n1, n2) && WithinOr(chain, k, n2, n3)
    requires WithinOr(elsePart, k, n3, n)
    ensures Within(code, k, n)
  {
    var test := ["    cmp eax, 0", "    je " + NextLabel(k, 0)];
    var jmp := "    jmp " + Label(k) + "_end";
    OwnerOfLabel(k, "_end:");
    PlainLines(test, k + 1, k + 1);
    PlainLines([jmp], k + 1, k + 1);
    IfLayout(cond, test, t, jmp, chain, elsePart, Label(k) + "_end:", k, n1, n2, n3, n);
  }

  /** The label lines of construct `k` in the code of an `if`: the `_next` label of each
      `else if` branch, then the pending `_next` label when (and only when) a non-empty
      `else` follows, then `L<k>_end:`. */
  lemma IfLabelLines(c: Node, thenBody: seq<Node>, elseBody: ElseBody, elseIfs: seq<ElseIf>, k: nat)
    requires InBody(c) && AllInBody(thenBody)
    requires forall ei <- elseIfs :: InBody(ei.cond) && AllInBody(ei.body)
    requires elseBody.Else? ==> AllInBody(elseBody.stmts)
    requires GenIf(c, thenBody, elseBody, elseIfs, k).Ok?
    ensures LabelLines(GenIf(c, thenBody, elseBody, elseIfs, k).value.code, k)
            == NextDefs(k, 0, |elseIfs|)
               + (if HasElseCode(elseBody) then [NextLabel(k, |elseIfs|) + ":"] else [])
               + [Label(k) + "_end:"]
  {
    IfParts(c, thenBody, elseBody, elseIfs, k);
    var cond := Gen(c, k + 1).value;
    var t := GenSeq(thenBody, cond.next).value;
    var chain := GenElseIfs(elseIfs, k, 0, NextLabel(k, 0), t.next).value;
    GenLabelsNone(c, k + 1, k);
    SeqLabelsNone(thenBody, cond.next, k);
    ElseIfsLabelLines(elseIfs, k, 0, t.next);
    ElseIfsPending(elseIfs, k, 0, t.next);
    ElsePartLabels(elseBody, k, |elseIfs|, chain.0.next);
    IfLabelsOf(cond.code, t.code, chain.0.code, ElsePart(elseBody, chain.1, chain.0.next),
               GenIf(c, thenBody, elseBody, elseIfs, k).value.code, k, NextDefs(k, 0, |elseIfs|),
               if HasElseCode(elseBody) then [NextLabel(k, |elseIfs|) + ":"] else []);
  }

  /** The label line of construct `k` in the `else` part of an `if` is the pending `_next`
      label, when there is an `else` part. */
  lemma ElsePartLabels(elseBody: ElseBody, k: nat, m: nat, c: nat)
    requires k < c
    requires elseBody.Else? ==> AllInBody(elseBody.stmts)
    requires HasElseCode(elseBody) ==> GenSeq(elseBody.stmts, c).Ok?
    ensures LabelLines(ElsePart(elseBody, NextLabel(k, m), c), k)
            == if HasElseCode(elseBody) then [NextLabel(k, m) + ":"] else []
  {
    if HasElseCode(elseBody) {
      var e := GenSeq(elseBody.stmts, c).value;
      SeqLabelsNone(elseBody.stmts, c, k);
      OwnerOfNext(k, m);
      LabelLinesCat([NextLabel(k, m) + ":"], e.code, k);
    }
  }

  /** The label lines of construct `k` in the code of an `if` assembled from its pieces:
      those of the `else if` chain, those of the `else` part, then the end label. */
  lemma IfLabelsOf(cond: seq<string>, t: seq<string>, chain: seq<string>, elsePart: seq<string>,
                   code: seq<string>, k: nat, chainLabels: seq<string>, elseLabels: seq<string>)
    requires code == IfCode(cond, t, chain, elsePart, k)
    requires LabelLines(cond, k) == [] && LabelLines(t, k) == []
    requires LabelLines(chain, k) == chainLabels && LabelLines(elsePart, k) == elseLabels
    ensures LabelLines(code, k) == chainLabels + elseLabels + [Label(k) + "_end:"]
  {
    var test := ["    cmp eax, 0", "    je " + NextLabel(k, 0)];
    var jmp, end := "    jmp " + Label(k) + "_end", Label(k) + "_end:";
    OwnerOfLabel(k, "_end:");
    TestLabelsNone("    je " + NextLabel(k, 0), k);
    JumpToEndPlain(k);
    IfHeadLabels(cond, test, t, jmp, k);
    var head := cond + test + t + [jmp];
    assert code == head + chain + elsePart + [end];
    IfLabelLayout(head, chain, elsePart, end, k);
  }

  /** The jump to the end of construct `k` is no label line. */
  lemma JumpToEndPlain(k: nat)
    ensures Owner("    jmp " + Label(k) + "_end") == None
  {
    var line := "    jmp " + Label(k) + "_end";
    assert line[0] == ' ';
  }

  /** The test of the `if` jumps to `_next` label 0 and that of `else if` branch `d - 1` to
      `_next` label `d`. */
  lemma IfJumps(c: Node, thenBody: seq<Node>, elseBody: ElseBody, elseIfs: seq<ElseIf>, k: nat)
    requires GenIf(c, thenBody, elseBody, elseIfs, k).Ok?
    ensures forall d :: 0 <= d <= |elseIfs| ==>
      "    je " + NextLabel(k, d) in GenIf(c, thenBody, elseBody, elseIfs, k).value.code
  {
    IfParts(c, thenBody, elseBody, elseIfs, k);
    var r := GenIf(c, thenBody, elseBody, elseIfs, k).value;
    var cond := Gen(c, k + 1).value;
    var t := GenSeq(thenBody, cond.next).value;
    var chain := GenElseIfs(elseIfs, k, 0, NextLabel(k, 0), t.next).value;
    ElseIfsJumps(elseIfs, k, 0, t.next);
    assert r.code[|cond.code| + 1] == "    je " + NextLabel(k, 0);
    forall d | 0 < d <= |elseIfs|
      ensures "    je " + NextLabel(k, d) in r.code
    {
      assert "    je " + NextLabel(k, d) in chain.0.code;
    }
  }

  lemma {:induction false} IfWithin(c: Node, thenBody: seq<Node>, elseBody: ElseBody, elseIfs: seq<ElseIf>, k: nat)
    requires InBody(If(c, thenBody, elseBody, elseIfs)) && GenIf(c, thenBody, elseBody, elseIfs, k).Ok?
    ensures Within(GenIf(c, thenBody, elseBody, elseIfs, k).value.code, k,
                   GenIf(c, thenBody, elseBody, elseIfs, k).value.next)
    decreases If(c, thenBody, elseBody, elseIfs), 1
  {
    IfCodeWithin(c, thenBody, elseBody, elseIfs, k);
  }

  // ---------------------------------------------------------------------------------------
  // Which labels an `if` defines, and how often

  /** Different `_next` labels of one construct are different lines. */
  lemma NextLabelInjective(k: nat, d1: nat, d2: nat)
    ensures NextLabel(k, d1) + ":" == NextLabel(k, d2) + ":" ==> d1 == d2
  {
    if d1 != d2 {
      if d1 == 0 {
        NextFirstDiffers(k, d2);
      } else if d2 == 0 {
        NextFirstDiffers(k, d1);
      } else {
        NextLaterDiffer(k, d1 - 1, d2 - 1);
      }
    }
  }

  /** `L<k>_next` is shorter than every `L<k>_next_<j>`. */
  lemma NextFirstDiffers(k: nat, d: nat)
    requires d > 0
    ensures NextLabel(k, 0) + ":" != NextLabel(k, d) + ":"
  {
    NatStrDigits(d - 1);
    assert |NextLabel(k, 0) + ":"| < |NextLabel(k, d) + ":"|;
  }

  /** `L<k>_next_<a>` and `L<k>_next_<b>` differ for different `a` and `b`. */
  lemma NextLaterDiffer(k: nat, a: nat, b: nat)
    requires a != b
    ensures Label(k) + "_next_" + NatStr(a) + ":" != Label(k) + "_next_" + NatStr(b) + ":"
  {
    var pre := Label(k) + "_next_";
    var x, y := NatStr(a), NatStr(b);
    if pre + x + ":" == pre + y + ":" {
      assert |x| == |y|;
      assert (pre + x + ":")[|pre|..|pre| + |x|] == x;
      assert (pre + y + ":")[|pre|..|pre| + |y|] == y;
      NatStrDigits(a);
      NatStrDigits(b);
      assert false;
    }
  }

  /** A `_next` label is never the end label of the same construct. */
  lemma NextNotEnd(k: nat, d: nat)
    ensures NextLabel(k, d) + ":" != Label(k) + "_end:"
  {
    var n := |Label(k)| + 1;
    assert (Label(k) + "_end:")[n] == 'e';
    if d == 0 {
      assert NextLabel(k, d) + ":" == Label(k) + "_next:";
      assert (Label(k) + "_next:")[n] == 'n';
    } else {
      var s := "_next_" + NatStr(d - 1) + ":";
      assert NextLabel(k, d) + ":" == Label(k) + s;
      assert (Label(k) + s)[n] == 'n';
    }
  }

  ghost predicate Injective(f: nat -> string)
  {
    forall a, b :: f(a) == f(b) ==> a == b
  }

  lemma {:induction false} DefsLength(f: nat -> string, i: nat, m: nat)
    ensures |Defs(f, i, m)| == m
    decreases m
  {
    if m > 0 {
      DefsLength(f, i + 1, m - 1);
    }
  }

  /** Entry `j` of `Defs(f, i, m)` is `f(i + j)`. */
  lemma {:induction false} DefsAt(f: nat -> string, i: nat, m: nat, j: nat)
    requires j < m
    ensures j < |Defs(f, i, m)| && Defs(f, i, m)[j] == f(i + j)
    decreases j
  {
    DefsLength(f, i, m);
    if j > 0 {
      DefsAt(f, i + 1, m - 1, j - 1);
    }
  }

  /** For an injective `f`, the line `f(d)` occurs once in `Defs(f, i, m)` when `d` is one of
      `i`, ..., `i + m - 1`, and not at all otherwise. */
  lemma DefsCount(f: nat -> string, i: nat, m: nat, d: nat)
    requires Injective(f)
    ensures multiset(Defs(f, i, m))[f(d)] == if i <= d < i + m then 1 else 0
  {
    var defs := Defs(f, i, m);
    DefsLength(f, i, m);
    forall a, b | 0 <= a < b < |defs|
      ensures defs[a] != defs[b]
    {
      DefsAt(f, i, m, a);
      DefsAt(f, i, m, b);
    }
    DistinctCount(defs, f(d));
    if i <= d < i + m {
      DefsAt(f, i, m, d - i);
    } else if f(d) in defs {
      var j :| 0 <= j < m && defs[j] == f(d);
      DefsAt(f, i, m, j);
    }
  }

  /** A line that `f` never yields is not among its lines. */
  lemma {:induction false} DefsAvoid(f: nat -> string, i: nat, m: nat, x: string)
    requires forall j :: f(j) != x
    ensures x !in Defs(f, i, m)
    decreases m
  {
    if m > 0 {
      DefsAvoid(f, i + 1, m - 1, x);
    }
  }

  lemma NextLineInjective(k: nat)
    ensures Injective(NextLine(k))
  {
    forall a, b | NextLine(k)(a) == NextLine(k)(b)
      ensures a == b
    {
      NextLabelInjective(k, a, b);
    }
  }

  /** The `_next` labels of branches `i` to `i + m - 1` each occur once in `NextDefs`, the
      others not at all. */
  lemma NextDefsCount(k: nat, i: nat, m: nat, d: nat)
    ensures multiset(NextDefs(k, i, m))[NextLabel(k, d) + ":"] == if i <= d < i + m then 1 else 0
  {
    NextLineInjective(k);
    DefsCount(NextLine(k), i, m, d);
  }

  /** `NextDefs` holds no end label. */
  lemma NextDefsNoEnd(k: nat, i: nat, m: nat)
    ensures Label(k) + "_end:" !in NextDefs(k, i, m)
  {
    forall j: nat
      ensures NextLine(k)(j) != Label(k) + "_end:"
    {
      NextNotEnd(k, j);
    }
    DefsAvoid(NextLine(k), i, m, Label(k) + "_end:");
  }

  /** In a sequence without repetitions every element occurs once. */
  lemma {:induction false} DistinctCount<T>(s: seq<T>, x: T)
    requires forall a, b :: 0 <= a < b < |s| ==> s[a] != s[b]
    ensures multiset(s)[x] == if x in s then 1 else 0
    decreases |s|
  {
    if s != [] {
      assert s == [s[0]] + s[1..];
      assert s[0] !in s[1..] by {
        forall j | 0 <= j < |s[1..]| ensures s[1..][j] != s[0] {
          assert s[1..][j] == s[j + 1];
        }
      }
      assert forall a, b :: 0 <= a < b < |s[1..]| ==> s[1..][a] != s[1..][b] by {
        forall a, b | 0 <= a < b < |s[1..]| ensures s[1..][a] != s[1..][b] {
          assert s[1..][a] == s[a + 1] && s[1..][b] == s[b + 1];
        }
      }
      DistinctCount(s[1..], x);
    }
  }

  /** The end label `L<k>_end:` of an `if` is its last line and occurs in its code exactly
      once: whatever the branches, no other line defines it. */
  lemma IfEndOnce(c: Node, thenBody: seq<Node>, elseBody: ElseBody, elseIfs: seq<ElseIf>, k: nat)
    requires InBody(c) && AllInBody(thenBody)
    requires forall ei <- elseIfs :: InBody(ei.cond) && AllInBody(ei.body)
    requires elseBody.Else? ==> AllInBody(elseBody.stmts)
    requires GenIf(c, thenBody, elseBody, elseIfs, k).Ok?
    ensures var code := GenIf(c, thenBody, elseBody, elseIfs, k).value.code;
      && code[|code| - 1] == Label(k) + "_end:"
      && multiset(code)[Label(k) + "_end:"] == 1
  {
    var code := GenIf(c, thenBody, elseBody, elseIfs, k).value.code;
    var end := Label(k) + "_end:";
    IfParts(c, thenBody, elseBody, elseIfs, k);
    IfLabelLines(c, thenBody, elseBody, elseIfs, k);
    OwnerOfLabel(k, "_end:");
    LabelLinesCount(code, k, end);
    NextDefsNoEnd(k, 0, |elseIfs|);
    NextNotEnd(k, |elseIfs|);
  }

  /** The `_next` labels an `if` defines: label `d` occurs once when it belongs to an `else if`
      branch (`d < |elseIfs|`) or is the pending label in front of a non-empty `else`, and
      not at all otherwise. */
  lemma IfNextDefined(c: Node, thenBody: seq<Node>, elseBody: ElseBody, elseIfs: seq<ElseIf>, k: nat, d: nat)
    requires InBody(c) && AllInBody(thenBody)
    requires forall ei <- elseIfs :: InBody(ei.cond) && AllInBody(ei.body)
    requires elseBody.Else? ==> AllInBody(elseBody.stmts)
    requires GenIf(c, thenBody, elseBody, elseIfs, k).Ok?
    ensures multiset(GenIf(c, thenBody, elseBody, elseIfs, k).value.code)[NextLabel(k, d) + ":"]
            == if d < |elseIfs| || (d == |elseIfs| && HasElseCode(elseBody)) then 1 else 0
  {
    var code := GenIf(c, thenBody, elseBody, elseIfs, k).value.code;
    var line := NextLabel(k, d) + ":";
    IfLabelLines(c, thenBody, elseBody, elseIfs, k);
    OwnerOfNext(k, d);
    LabelLinesCount(code, k, line);
    NextDefsCount(k, 0, |elseIfs|, d);
    NextLabelInjective(k, d, |elseIfs|);
    NextNotEnd(k, d);
  }

  /** Without a non-empty `else`, the last test of an `if` (that of the `if` itself when
      there is no `else if`, that of the last `else if` branch otherwise) jumps to a label
      the code never defines: `L<k>_next` or `L<k>_next_<n-1>` for `n` branches. */
  lemma PendingLabelUndefined(c: Node, thenBody: seq<Node>, elseBody: ElseBody, elseIfs: seq<ElseIf>, k: nat)
    requires InBody(c) && AllInBody(thenBody)
    requires forall ei <- elseIfs :: InBody(ei.cond) && AllInBody(ei.body)
    requires elseBody.Else? ==> AllInBody(elseBody.stmts)
    requires GenIf(c, thenBody, elseBody, elseIfs, k).Ok?
    requires !HasElseCode(elseBody)
    ensures var code := GenIf(c, thenBody, elseBody, elseIfs, k).value.code;
      && "    je " + NextLabel(k, |elseIfs|) in code
      && NextLabel(k, |elseIfs|) + ":" !in code
  {
    IfJumps(c, thenBody, elseBody, elseIfs, k);
    IfNextDefined(c, thenBody, elseBody, elseIfs, k, |elseIfs|);
  }
}
