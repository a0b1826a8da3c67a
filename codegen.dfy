/** The `generar_codigo` methods of nodos.py as one function over the tree.

    Code is a sequence of segments; the emitted text is the segments joined with "\n"
    (`Text`), which is how every `generar_codigo` assembles its parts. Python's
    `id(self)`, which names the labels of `while`, `for` and `if`, is replaced by a counter:
    `Gen(n, k)` numbers the labels of `n`'s own construct `k` and hands `k + 1` and up to the
    constructs inside it, and returns the next unused number with the code. */
module CodeGen {
  import opened Tokens
  import opened Ast

  datatype Emit = Emit(code: seq<string>, next: nat)

  /** The label prefix `L<id>` of the construct numbered `k`. */
  function Label(k: nat): string
  {
    "L" + NatStr(k)
  }

  const PushEax := "    push eax"
  const PopEbx := "    pop ebx"
  const OpPush := "    push eax; guardar en la pila"
  const OpPop := "    pop ebx; recuperar el primer operando"
  /** The lines that test the loop condition of `NodoWhile` and `NodoFor`. */
  const WhileTest := "    cmp eax, 0" + " ; comparar la condicion de bucle while"
  const ForTest := "    cmp eax, 0" + " ; comparar la condicion del for"

  /** The text a sequence of segments stands for: the segments joined by "\n". */
  function Text(segs: seq<string>): string
  {
    if |segs| == 0 then ""
    else if |segs| == 1 then segs[0]
    else Text(segs[..|segs| - 1]) + "\n" + segs[|segs| - 1]
  }

  /** String concatenation expressed on segments: the last segment of `a` and the first of
      `b` become one. */
  function Concat(a: seq<string>, b: seq<string>): seq<string>
    requires |a| > 0 && |b| > 0
  {
    a[..|a| - 1] + [a[|a| - 1] + b[0]] + b[1..]
  }

  /** `NodoNumero` treats a lexeme as a float when it contains `.`, or `f` in any case. */
  predicate IsFloatLexeme(s: string)
  {
    '.' in s || 'f' in s || 'F' in s
  }

  /** The instructions `NodoOperacion` adds after `pop ebx`: `*` and `/` add none. */
  function OperatorTail(op: string): seq<string>
  {
    if op == "+" then ["    add eax, ebx ; eax = eax + ebx"]
    else if op == "-" then ["    sub ebx, eax; ebx = ebx - eax", "    mov eax, ebx; eax = ebx"]
    else []
  }

  /** The `set<cc> al` of `NodoComparacion`; an operator outside the six adds nothing. */
  function SetInstruction(op: string): seq<string>
  {
    if op == ">" then ["    setg al"]
    else if op == "<" then ["    setl al"]
    else if op == ">=" then ["    setge al"]
    else if op == "<=" then ["    setle al"]
    else if op == "==" then ["    sete al"]
    else if op == "!=" then ["    setne al"]
    else []
  }

  /** What `NodoComparacion` emits after `pop ebx`: the comparison, the flag, and the flag
      widened into `eax`. */
  function CompareTail(op: string): seq<string>
  {
    ["    cmp ebx, eax"] + SetInstruction(op) + ["    movzx eax, al"]
  }

  /** `if self.cuerpo_else:` holds for a plain `else` with at least one statement. */
  predicate HasElseCode(e: ElseBody)
  {
    e.Else? && |e.stmts| > 0
  }

  /** `generar_codigo`, dispatched to the node's class. */
  function Gen(n: Node, k: nat): (r: Result<Emit>)
    ensures r.Ok? ==> |r.value.code| > 0 && k <= r.value.next
    decreases n, 2
  {
    match n
    case Program(fs) => GenProgram(fs, k)
    case Function(name, params, body) => GenFunction(name, params, body, k)
    case Assign(target, e) => GenAssign(target, e, k)
    case BinOp(l, op, r) => GenBinOp(l, op, r, k)
    case Return(e) => GenReturn(e, k)
    case Ident(t) => Ok(Emit(["    mov eax, [" + t.lexeme + "] ; cargar variable " + t.lexeme], k))
    case Num(t) => Ok(Emit([NumberLine(t.lexeme)], k))
    case Call(callee, args) => GenCall(callee, args, k)
    case Str(t) => Ok(Emit(["    mov eax, " + t.lexeme + " ; cargar string"], k))
    case Decl(tipo, name) => Ok(Emit(["; Declaracion de variable: " + tipo + " " + name], k))
    case While(c, body) => GenWhile(c, body, k)
    case For(init, c, incr, body) => GenFor(init, c, incr, body, k)
    case If(c, thenBody, elseBody, elseIfs) => GenIf(c, thenBody, elseBody, elseIfs, k)
    case Increment(v, kind) => GenIncrement(v, kind, k)
    case Compare(l, op, r) => GenCompare(l, op, r, k)
    case Const(tipo, name, value) =>
      Ok(Emit(["    " + name + " dd " + value.lexeme + " ; constante " + tipo], k))
    case NoneNode =>
      // the `None` that a `print(...)` statement leaves in a body has no `generar_codigo`
      Err(AttributeFailure("generar_codigo"))
  }

  /** `NodoFuncion`: label, prologue, the body's code joined by "\n", epilogue. */
  function GenFunction(name: string, params: seq<Param>, body: seq<Node>, k: nat): (r: Result<Emit>)
    ensures r.Ok? ==> |r.value.code| > 0 && k <= r.value.next
    decreases Function(name, params, body), 1
  {
    var b :- GenSeq(body, k);
    var joined := if |b.code| == 0 then [""] else b.code;
    Ok(Emit([name + ":", "    push ebp", "    mov ebp, esp"] + joined
            + ["    mov esp, ebp", "    pop ebp", "    ret", ""], b.next))
  }

  /** `NodoAsignacion`: the value, then a store of `eax`. */
  function GenAssign(target: Token, e: Node, k: nat): (r: Result<Emit>)
    ensures r.Ok? ==> |r.value.code| > 0 && k <= r.value.next
    decreases Assign(target, e), 1
  {
    var c :- Gen(e, k);
    Ok(Emit(c.code + ["    mov [" + target.lexeme + "], eax ; asignar a " + target.lexeme], c.next))
  }

  /** `NodoOperacion`: left operand, push, right operand, pop, the operator's instructions. */
  function GenBinOp(l: Node, op: string, r: Node, k: nat): (res: Result<Emit>)
    ensures res.Ok? ==> |res.value.code| > 0 && k <= res.value.next
    decreases BinOp(l, op, r), 1
  {
    var left :- Gen(l, k);
    var right :- Gen(r, left.next);
    Ok(Emit(left.code + [OpPush] + right.code + [OpPop] + OperatorTail(op), right.next))
  }

  /** `NodoRetorno` */
  function GenReturn(e: Node, k: nat): (r: Result<Emit>)
    ensures r.Ok? ==> |r.value.code| > 0 && k <= r.value.next
    decreases Return(e), 1
  {
    var c :- Gen(e, k);
    Ok(Emit(c.code + ["    ret ; retorno desde la subrutina"], c.next))
  }

  /** `NodoNumero`: a float goes to `xmm0`, an integer to `eax`. */
  function NumberLine(lexeme: string): string
  {
    if IsFloatLexeme(lexeme) then "    movss xmm0, [" + lexeme + "] ; cargar flotante " + lexeme
    else "    mov eax, " + lexeme + " ; cargar entero " + lexeme
  }

  /** `NodoLlamadaFuncion`: only `printf` and `scanf` produce code. */
  function GenCall(callee: string, args: seq<Node>, k: nat): (r: Result<Emit>)
    ensures r.Ok? ==> |r.value.code| > 0 && k <= r.value.next
    decreases Call(callee, args), 1
  {
    if callee == "printf" || callee == "scanf" then
      var pushes :- GenPushes(args, k);
      var cleanup := if |args| > 0 then ["    add esp, " + NatStr(4 * |args|)] else [];
      Ok(Emit(pushes.code + ["    call _" + callee] + cleanup, pushes.next))
    else Ok(Emit([""], k))
  }

  /** `NodoWhile` */
  function GenWhile(c: Node, body: seq<Node>, k: nat): (r: Result<Emit>)
    ensures r.Ok? ==> |r.value.code| > 0 && k < r.value.next
    decreases While(c, body), 1
  {
    var cond :- Gen(c, k + 1);
    var b :- GenSeq(body, cond.next);
    Ok(Emit([Label(k) + "_start: ; inicio de bucle while"] + cond.code
            + [WhileTest,
               "    je " + Label(k) + "_end ; terninar el bucle si la condicion es falsa"]
            + b.code
            + ["    jmp " + Label(k) + "_start ; volvar al inicio del bucle while",
               Label(k) + "_end: ; fin de bucle while"], b.next))
  }

  /** `NodoFor` */
  function GenFor(init: Node, c: Node, incr: Node, body: seq<Node>, k: nat): (r: Result<Emit>)
    ensures r.Ok? ==> |r.value.code| > 0 && k < r.value.next
    decreases For(init, c, incr, body), 1
  {
    var i :- Gen(init, k + 1);
    var cond :- Gen(c, i.next);
    var b :- GenSeq(body, cond.next);
    var inc :- Gen(incr, b.next);
    Ok(Emit(i.code + [Label(k) + "_start: ; inicio del bucle for"] + cond.code
            + [ForTest,
               "    je " + Label(k) + "_end ; salir del bucle si la condicion es falsa"]
            + b.code + inc.code
            + ["    jmp " + Label(k) + "_start ; volver al inicio del bucle for",
               Label(k) + "_end: ; fin del bucle for"], inc.next))
  }

  /** `NodoIf` */
  function GenIf(c: Node, thenBody: seq<Node>, elseBody: ElseBody, elseIfs: seq<ElseIf>, k: nat)
    : (r: Result<Emit>)
    ensures r.Ok? ==> |r.value.code| > 0 && k < r.value.next
    decreases If(c, thenBody, elseBody, elseIfs), 1
  {
    var cond :- Gen(c, k + 1);
    var t :- GenSeq(thenBody, cond.next);
    var chain :- GenElseIfs(elseIfs, k, 0, Label(k) + "_next", t.next);
    // `if self.cuerpo_else:` is false for a missing else and for an empty one alike
    var e :- match elseBody
             case Else(eb) => if |eb| > 0 then GenSeq(eb, chain.0.next) else Ok(Emit([], chain.0.next))
             case NoElse => Ok(Emit([], chain.0.next));
    var elsePart := if HasElseCode(elseBody) then [chain.1 + ":"] + e.code else [];
    Ok(Emit(cond.code + ["    cmp eax, 0", "    je " + Label(k) + "_next"] + t.code
            + ["    jmp " + Label(k) + "_end"] + chain.0.code + elsePart
            + [Label(k) + "_end:"], e.next))
  }

  /** `NodoIncremento` */
  function GenIncrement(v: string, kind: string, k: nat): (r: Result<Emit>)
    ensures r.Ok? ==> |r.value.code| > 0 && k <= r.value.next
  {
    if kind == "++" then
      Ok(Emit(["    mov eax, [" + v + "]", "    add eax, 1", "    mov [" + v + "], eax  ; " + v + "++"], k))
    else if kind == "--" then
      Ok(Emit(["    mov eax, [" + v + "]", "    sub eax, 1", "    mov [" + v + "], eax  ; " + v + "--"], k))
    // any other kind would call `generar_codigo` on its `None` value
    else Err(AttributeFailure("generar_codigo"))
  }

  /** `NodoComparacion` */
  function GenCompare(l: Node, op: string, r: Node, k: nat): (res: Result<Emit>)
    ensures res.Ok? ==> |res.value.code| > 0 && k <= res.value.next
    decreases Compare(l, op, r), 1
  {
    var left :- Gen(l, k);
    var right :- Gen(r, left.next);
    Ok(Emit(left.code + [PushEax] + right.code + [PopEbx] + CompareTail(op), right.next))
  }

  /** The children of a body, one after the other (the `for instruccion in cuerpo` loops). */
  function GenSeq(ns: seq<Node>, k: nat): (r: Result<Emit>)
    ensures r.Ok? ==> k <= r.value.next
    decreases ns, 0
  {
    if ns == [] then Ok(Emit([], k))
    else
      var head :- Gen(ns[0], k);
      var tail :- GenSeq(ns[1..], head.next);
      Ok(Emit(head.code + tail.code, tail.next))
  }

  /** The arguments of `printf`/`scanf` from last to first, each followed by `push eax`. */
  function GenPushes(args: seq<Node>, k: nat): (r: Result<Emit>)
    ensures r.Ok? ==> k <= r.value.next
    decreases args, 0
  {
    if args == [] then Ok(Emit([], k))
    else
      var last :- Gen(args[|args| - 1], k);
      var rest :- GenPushes(args[..|args| - 1], last.next);
      Ok(Emit(last.code + [PushEax] + rest.code, rest.next))
  }

  /** The `else if` branches of `NodoIf` number `i` onwards. `pending` is the label the
      previous test jumps to when false; each branch defines it, then tests and jumps to
      `L<k>_next_<i>`, which becomes the next pending label. Returns the last pending label. */
  function GenElseIfs(eis: seq<ElseIf>, k: nat, i: nat, pending: string, c: nat)
    : (r: Result<(Emit, string)>)
    ensures r.Ok? ==> c <= r.value.0.next
    decreases eis, 0
  {
    if eis == [] then Ok((Emit([], c), pending))
    else
      var cond :- Gen(eis[0].cond, c);
      var body :- GenSeq(eis[0].body, cond.next);
      var nextLabel := Label(k) + "_next_" + NatStr(i);
      var rest :- GenElseIfs(eis[1..], k, i + 1, nextLabel, body.next);
      Ok((Emit([pending + ":"] + cond.code + ["    cmp eax, 0", "    je " + nextLabel] + body.code
               + ["    jmp " + Label(k) + "_end"] + rest.0.code, rest.0.next), rest.1))
  }

  /** `NodoPrograma`: each function's code followed by "\n\n". */
  function GenProgram(fs: seq<Node>, k: nat): (r: Result<Emit>)
    ensures r.Ok? ==> |r.value.code| > 0 && k <= r.value.next
    decreases fs, 1
  {
    if fs == [] then Ok(Emit([""], k))
    else
      var f :- Gen(fs[0], k);
      var rest :- GenProgram(fs[1..], f.next);
      Ok(Emit(Concat(Concat(f.code, ["", "", ""]), rest.code), rest.next))
  }
}
