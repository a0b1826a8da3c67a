# A verified model of a small C-to-x86 compiler

The compiler reads a small C-like language and emits x86 assembly in four stages.

1. A tokenizer turns the source into `(kind, lexeme)` pairs.
2. A recursive-descent `Parser` (analizador.py) builds an abstract syntax tree. It checks
   that a function named `main` exists and is the last function.
3. `AnalizadorSemantico` (semantico.py) walks the tree with a `TablaSimbolos`. The table
   maps variable names and function names to their types. The walk rejects ill-typed
   programs at the first problem.
4. The `generar_codigo` methods of the node classes (nodos.py) emit stack-based assembly.
   Labels and jumps implement `if`, `while` and `for`.

This project models stages 2 to 4 in Dafny and proves properties of them. It has one
module per stage, plus modules for shared types and for lemmas:

- `Tokens` holds tokens, errors and the `Result` type that carries the first error.
- `Ast` holds the tree: one datatype variant per node class.
- `ParserSpec` holds the grammar as functions of the token list and a cursor position.
- `Parser` holds the `Parser` class. Its `pos` field moves one token at a time. Every
  method is proved to return what the grammar function of the same name computes, and to
  leave the cursor where that function says.
- `ParserLemmas` holds properties of the grammar.
- `CodeGen` holds `generar_codigo` as one function `Gen(node, k)` over the tree. The
  result is a list of text segments; the emitted text is those segments joined by newlines.
- `CodeGenLemmas` holds what the emitted assembly looks like.
- `Symbols` holds `TablaSimbolos`:
  - `Table` is the two dictionaries as a value, with functions on it;
  - `SymbolTable` is a class whose methods update the dictionaries in place.
- `Semantic` holds `analizar` in two forms:
  - `Visit` is a function of a `Context`: the table, `funcion_actual` and
    `tipo_retorno_actual`;
  - `Analyzer` is a class whose recursive `Analyze` method updates those fields and the
    table in place. It is proved to agree with `Visit`.
- `SemanticLemmas` holds what the analysis accepts and rejects.

Python exceptions become `Err` results. Where an exception comes from Python itself rather
than from a `raise`, it has its own error:

- `NoneToken`: subscripting the `None` returned at the end of input.
- `PastEnd`: `self.tokens[self.pos + 1]` read past the end of the list.
- `AttributeFailure`: calling a method that does not exist. This covers the undefined
  `obtener_token_anterior`, and `generar_codigo` on the `None` that `print(...)` leaves
  in a body.

`id(self)` is not deterministic, so it is replaced by a counter `k`. The labels of a
construct are `L<k>_start`, `L<k>_end`, `L<k>_next` and `L<k>_next_<i>`. The constructs
nested inside it get `k + 1` and up.

Where the compiler's design description and its code disagree, the model follows the code:

- The type a `return` must have is the type of the function's first parameter, or `void`
  without parameters (semantico.py:18). The parser drops the declared return type.
  - So `int main(){ int x = 2 + 3; return x; }` is rejected
    (`SemanticLemmas.IntMainReturningIntRejected`).
- A `const` declaration never enters the symbol table (semantico.py:136). A later use of
  the constant is an undeclared variable (`SemanticLemmas.ConstantIsNotDeclared`).
- `5f` types as `int`, because only a `.` makes a `float` (semantico.py:63). Yet its code
  loads it with `movss` (nodos.py:205-209).
- `*` and `/` emit no instruction after `pop ebx` (nodos.py:83-87). Division by a literal
  zero is not detected.
- An `if` without a non-empty `else` jumps, when its last condition is false, to a label
  it never emits (`CodeGenLabels.PendingLabelUndefined`). With no `else if` this is
  `L<k>_next`, the target of the `if`'s own test. After `n` `else if` branches it is
  `L<k>_next_<n-1>`, the target of the last branch's test.
- The token after an identifier is read unchecked in `declaracion` (analizador.py:132).
- `print(...)` leaves a `None` in the statement list (analizador.py:184).
- A call of anything but `printf` or `scanf` emits the empty string (nodos.py:236).

## Model

| member | source | states |
|---|---|---|
| Tokens.Current | analizador.py:41-42 | `None` exactly when the cursor is at or past the end; otherwise the token under the cursor |
| Tokens.NatStrDigits | nodos.py:233-234 | the decimal rendering of `4 * n` in `add esp, ...` is a non-empty string of digits that reads back as the number |
| ParserSpec.MatchKind | analizador.py:44-50 | succeeds iff a current token exists with the expected kind; it then returns that token and advances by one; otherwise the error names the kind and the token found |
| ParserSpec.OptionalComma | analizador.py:96-97 | the cursor moves past a `,` exactly when one is current |
| ParserSpec.Term | analizador.py:258-275 | on success the cursor advances and the node is a number, identifier or string leaf |
| ParserSpec.ExprRest | analizador.py:252-255 | the loop stops only where no operator follows; it keeps left association and operation-only form |
| ParserSpec.Expr | analizador.py:250-256 | on success the cursor advances and the tree leans left, with a single term as every right operand, built only from operations and leaves |
| ParserSpec.PrintArgRest | analizador.py:288-293 | the cursor never moves back |
| ParserSpec.PrintArg | analizador.py:277-293 | on success at least one token is consumed |
| ParserSpec.Arguments | analizador.py:89-98 | the cursor never moves back, and every argument is an arithmetic expression |
| ParserSpec.FunctionCall | analizador.py:76-87 | on success the cursor advances and the node is a call named by the first token |
| ParserSpec.Parameters | analizador.py:112-121 | the cursor never moves back |
| ParserSpec.Initializer | analizador.py:130-135 | on success the cursor advances |
| ParserSpec.Declaration | analizador.py:123-141 | on success the cursor advances; an initialized declaration gives an assignment, an uninitialized one a declaration |
| ParserSpec.Assignment | analizador.py:143-150 | on success the cursor advances and the node is an assignment |
| ParserSpec.Increment | analizador.py:152-159 | succeeds iff an identifier is followed by two operator tokens spelling `++` or `--`; consumes exactly three tokens; stores the spelled operator |
| ParserSpec.ReturnStmt | analizador.py:163-167 | on success the cursor advances and the node is a return |
| ParserSpec.ConstDeclaration | analizador.py:231-248 | on success the cursor advances and the node is a constant |
| ParserSpec.Operand | analizador.py:357-366 | on success consumes one token and yields an identifier or number |
| ParserSpec.Sign | analizador.py:351-354 | a `-` is consumed exactly when it is current; it fails only at the end of input |
| ParserSpec.Comparison | analizador.py:342-403 | on success the cursor advances and the operator is one of the six relational operators |
| ParserSpec.PrintArgs | analizador.py:422-424 | the cursor never moves back |
| ParserSpec.PrintCall | analizador.py:405-427 | on success the cursor advances and the statement is `None` |
| ParserSpec.Body | analizador.py:169-229 | the cursor never moves back, and it stops at the end of input or at a `}` that it does not consume |
| ParserSpec.Statement | analizador.py:172-227 | on success the cursor advances |
| ParserSpec.Block | analizador.py:305-309 | on success the cursor advances |
| ParserSpec.Condition | analizador.py:300-304 | on success the node is a comparison with a relational operator |
| ParserSpec.IfChain | analizador.py:295-339 | on success the node is an `if`; without a plain `else`, no `else` token follows it |
| ParserSpec.ElseChain | analizador.py:311-339 | without a plain `else` no `else` follows; if the next token is not `else`, the chain is empty and consumes nothing |
| ParserSpec.WhileLoop | analizador.py:476-493 | on success the cursor advances and the node is a `while` |
| ParserSpec.ForLoop | analizador.py:429-451 | on success the cursor advances and the node is a `for` |
| ParserSpec.FunctionDef | analizador.py:100-110 | on success the cursor advances and the node is a function |
| ParserSpec.Functions | analizador.py:54-63 | every element of the parsed list is a function |
| ParserSpec.ParseProgram | analizador.py:52-74 | succeeds iff all functions parse, there is at least one, and the last is `main`; the program holds them in order |
| Parser.Parser.constructor | analizador.py:36-39 | the cursor starts at 0 over the given tokens |
| Parser.Parser.CurrentToken | analizador.py:41-42 | `None` exactly at or past the end; otherwise the token under the cursor |
| Parser.Parser.Match | analizador.py:44-50 | succeeds iff the current token has the expected kind, then returns it and advances by one; on failure the cursor stays |
| Parser.Parser.Term | analizador.py:258-275 | agrees with `ParserSpec.Term`; the cursor never moves back |
| Parser.Parser.Expression | analizador.py:250-256 | the loop agrees with `ParserSpec.Expr` (result and cursor) |
| Parser.Parser.PrintArg | analizador.py:277-293 | the loop agrees with `ParserSpec.PrintArg` |
| Parser.Parser.Arguments | analizador.py:89-98 | the loop builds the list `ParserSpec.Arguments` computes |
| Parser.Parser.FunctionCall | analizador.py:76-87 | agrees with `ParserSpec.FunctionCall` |
| Parser.Parser.Parameters | analizador.py:112-121 | the loop builds the list `ParserSpec.Parameters` computes |
| Parser.Parser.Declaration | analizador.py:123-141 | agrees with `ParserSpec.Declaration`, including the unchecked look-ahead |
| Parser.Parser.Assignment | analizador.py:143-150 | agrees with `ParserSpec.Assignment` |
| Parser.Parser.Increment | analizador.py:152-159 | agrees with `ParserSpec.Increment` |
| Parser.Parser.ReturnStmt | analizador.py:163-167 | agrees with `ParserSpec.ReturnStmt` |
| Parser.Parser.ConstDeclaration | analizador.py:231-248 | agrees with `ParserSpec.ConstDeclaration` |
| Parser.Parser.Sign | analizador.py:351-354 | agrees with `ParserSpec.Sign` |
| Parser.Parser.Operand | analizador.py:357-366 | agrees with `ParserSpec.Operand` |
| Parser.Parser.Comparison | analizador.py:342-403 | agrees with `ParserSpec.Comparison` |
| Parser.Parser.PrintCall | analizador.py:405-427 | the loop agrees with `ParserSpec.PrintCall` |
| Parser.Parser.Condition | analizador.py:300-304 | agrees with `ParserSpec.Condition` |
| Parser.Parser.Block | analizador.py:305-309 | agrees with `ParserSpec.Block` |
| Parser.Parser.Body | analizador.py:169-229 | the loop builds the statement list `ParserSpec.Body` computes |
| Parser.Parser.Statement | analizador.py:172-227 | agrees with `ParserSpec.Statement` |
| Parser.Parser.IfChain | analizador.py:295-339 | the else-if loop builds the branches `ParserSpec.IfChain` computes, in order |
| Parser.Parser.WhileLoop | analizador.py:476-493 | agrees with `ParserSpec.WhileLoop` |
| Parser.Parser.ForLoop | analizador.py:429-451 | agrees with `ParserSpec.ForLoop` |
| Parser.Parser.FunctionDef | analizador.py:100-110 | agrees with `ParserSpec.FunctionDef` |
| Parser.Parser.Parse | analizador.py:52-74 | returns `ParserSpec.ParseProgram` of the tokens; on success every token has been consumed |
| ParserLemmas.TermAccepts | analizador.py:258-275 | `termino` succeeds iff the token is a number, identifier or string, or a `-` followed by a number; a `-` is glued to the number's lexeme |
| ParserLemmas.ExprGroupsLeft | analizador.py:250-256 | `a o1 b o2 c` parses as `(a o1 b) o2 c` |
| ParserLemmas.ComparisonMergesEquals | analizador.py:369-375 | `x = = 1` is the comparison `x == 1` |
| ParserLemmas.ComparisonLeavesMinusToOperand | analizador.py:372-388 | in `x < - 1`, `<-` is not merged; the right operand is the number `-1` |
| ParserLemmas.ComparisonOperatorRule | analizador.py:342-403 | for every token list: a comparison parses iff both operands are an identifier or number (after an optional `-`), an operator follows the left one, and the operator, merged with the next operator token when the two spell `==`, `!=`, `>=` or `<=`, is one of the six relational ones; the node then carries the merged operator and the cursor stops after the right operand; any other operator is a syntax error after the right operand is read |
| ParserLemmas.ComparisonRejectsAssignment | analizador.py:395-401 | `x = 1` is rejected after both operands are read |
| ParserLemmas.BodySkipsSemicolonStopsAtBrace | analizador.py:171-176 | a stray `;` is skipped, and a `}` ends the body unconsumed |
| ParserLemmas.PlainElseEndsChain | analizador.py:332-337 | after a plain `else` block the chain ends, with no else-if branch after it |
| ParserLemmas.ElseIfKeptInOrder | analizador.py:314-331 | an `else if` branch is put before the branches parsed after it |
| ParserLemmas.IncludeSkipped | analizador.py:58-61 | an `#include <header>` pair is skipped |
| ParserLemmas.ProgramNeedsMainLast | analizador.py:65-72 | no `main` gives the "missing main" error before the "main not last" check; an empty token list has no `main` |
| CodeGen.Gen | nodos.py:7-8 | the code is never empty, and the label counter only grows |
| CodeGen.GenFunction | nodos.py:21-29 | non-empty code; the counter only grows |
| CodeGen.GenAssign | nodos.py:53-56 | non-empty code; the counter only grows |
| CodeGen.GenBinOp | nodos.py:68-89 | non-empty code; the counter only grows |
| CodeGen.GenReturn | nodos.py:185-186 | non-empty code; the counter only grows |
| CodeGen.GenCall | nodos.py:221-237 | non-empty code; the counter only grows |
| CodeGen.GenWhile | nodos.py:285-300 | non-empty code; the counter moves past the construct's own number `k` |
| CodeGen.GenFor | nodos.py:315-334 | non-empty code; the counter moves past the construct's own number `k` |
| CodeGen.GenIf | nodos.py:356-392 | non-empty code; the counter moves past the construct's own number `k` |
| CodeGen.GenIncrement | nodos.py:407-413 | non-empty code; the counter only grows |
| CodeGen.GenCompare | nodos.py:425-453 | non-empty code; the counter only grows |
| CodeGen.GenSeq | nodos.py:25 | the counter only grows |
| CodeGen.GenPushes | nodos.py:225-227 | the counter only grows |
| CodeGen.GenElseIfs | nodos.py:373-383 | the counter only grows |
| CodeGen.GenProgram | nodos.py:250-254 | non-empty code; the counter only grows |
| CodeGenLemmas.GenSeqText | nodos.py:25 | the body's text is its statements' texts joined by newlines |
| CodeGenLemmas.FunctionText | nodos.py:21-29 | the text is `name:`, `push ebp`, `mov ebp, esp`, the body, `mov esp, ebp`, `pop ebp`, `ret` and a final newline |
| CodeGenLemmas.ProgramText | nodos.py:250-254 | each function's text is followed by a blank line, in order; no functions give the empty text |
| CodeGenLemmas.LeafCode | nodos.py:195-209 | an identifier, number or string loads its value with exactly one `mov` line |
| CodeGenLemmas.ExprStackBalanced | nodos.py:68-89 | an expression of operations and leaves pushes as often as it pops, and never pops what it did not push |
| CodeGenLemmas.CompareStackBalanced | nodos.py:425-453 | a comparison of such expressions is stack-balanced too |
| CodeGenLemmas.ExprIgnoresCounter | nodos.py:68-89 | an expression's code does not depend on the label counter |
| CodeGenLemmas.PushesOnePerArgument | nodos.py:225-227 | the argument code leaves exactly one value per argument on the stack |
| CodeGenLemmas.FirstArgumentPushedLast | nodos.py:225-227 | the arguments are emitted in reverse: the first argument's code and its `push eax` come last |
| CodeGenLemmas.CallCode | nodos.py:221-237 | `printf`/`scanf` give the pushes, `call _name`, then `add esp, 4n` only when n > 0; any other callee gives the empty string |
| CodeGenLemmas.MultiplyAndDivideEmitNothing | nodos.py:83-87 | `*` and `/` give the same code: left operand, push, right operand, `pop ebx`, and nothing after |
| CodeGenLemmas.NumberLoad | nodos.py:205-209 | a lexeme with `.`, `f` or `F` loads with `movss xmm0`, any other with `mov eax` |
| CodeGenLemmas.CompareSetsFlag | nodos.py:425-453 | a comparison ends with `cmp ebx, eax`, the `set<cc> al` its operator selects, and `movzx eax, al` |
| CodeGenLemmas.IfWithoutElseExample | nodos.py:356-392 | `if (x > 0) { y = 1; }` contains `je L<k>_next` but no line `L<k>_next:` |
| CodeGenLemmas.WhileShape | nodos.py:285-300 | the start label, then the condition, `cmp eax, 0` and `je end`; then the body; `jmp start` and the end label last; five lines besides the condition and the body |
| CodeGenLemmas.ForShape | nodos.py:315-334 | the initializer, then the start label, the condition, `cmp eax, 0`, `je end`, the body and the increment, in that order; five lines besides the four parts |
| CodeGenLemmas.ForParts | nodos.py:315-334 | a `for` compiles iff its initializer, condition, body and increment do, each numbering labels from where the previous one stopped |
| CodeGenLemmas.ForIncrementLast | nodos.py:315-334 | the increment comes right before `jmp start`, and the end label is the last line |
| CodeGenLemmas.IfShape | nodos.py:356-392 | the condition is followed by `cmp eax, 0` and `je L<k>_next`; the end label is the last line |
| CodeGenLemmas.ElseIfBranchShape | nodos.py:373-379 | else-if branch `i` defines the pending label, tests its condition and jumps to `L<k>_next_<i>` when it is false |
| CodeGenLabels.GenWithin | nodos.py:285-392 | every label line `L<j>_...` in a statement's code generated from counter `k` has `k <= j < next`: constructs numbered apart never share a label |
| CodeGenLabels.SeqWithin | nodos.py:25 | the same for a statement list: its statements take disjoint label ranges, in order |
| CodeGenLabels.CallWithin | nodos.py:221-237 | a call emits no label line outside its range |
| CodeGenLabels.WhileWithin | nodos.py:285-300 | a `while` defines only its own labels and those of the constructs in its condition and body |
| CodeGenLabels.ForWithin | nodos.py:315-334 | a `for` defines only its own labels and those of the constructs in its four parts |
| CodeGenLabels.IfWithin | nodos.py:356-392 | an `if` defines only its own labels and those of the constructs in its branches |
| CodeGenLabels.ElseIfsLabelLines | nodos.py:373-383 | the labels of construct `k` that the `else if` chain defines are `L<k>_next`, `L<k>_next_0`, ..., one per branch, in order |
| CodeGenLabels.ElseIfsPending | nodos.py:373-383 | after `n` branches the pending label is the `_next` label number `n` |
| CodeGenLabels.ElseIfsJumps | nodos.py:377-378 | branch `d - 1` of the chain jumps to `_next` label `d` |
| CodeGenLabels.IfLabelLines | nodos.py:356-392 | the labels of construct `k` in an `if`: the chain's `_next` labels, the pending one iff a non-empty `else` follows, then `L<k>_end:` |
| CodeGenLabels.IfJumps | nodos.py:356-392 | the `if` jumps to `_next` label 0, and each `else if` test to the following `_next` label |
| CodeGenLabels.IfEndOnce | nodos.py:356-392 | `L<k>_end:` is the last line of an `if` and occurs in its code exactly once |
| CodeGenLabels.IfNextDefined | nodos.py:356-392 | `_next` label `d` is defined exactly once when it opens an `else if` branch or a non-empty `else`, and never otherwise |
| CodeGenLabels.PendingLabelUndefined | nodos.py:356-392 | without a non-empty `else`, the last test jumps to `_next` label `n` (`n` = number of `else if` branches), which the code never defines |
| Symbols.EmptyTable | semantico.py:139-141 | the new table has no variables and no functions |
| Symbols.AddVariable | semantico.py:143-146 | succeeds iff the name is new; it appends the name in insertion order, leaves the functions alone, and reports a duplicate otherwise |
| Symbols.AddFunction | semantico.py:153-156 | succeeds iff the name is new; it leaves the variables alone, and reports a duplicate otherwise |
| Symbols.LookupVariable | semantico.py:148-151 | fails iff the name is absent; otherwise gives the stored type |
| Symbols.LookupFunction | semantico.py:158-161 | fails iff the name is absent; otherwise gives the stored return and parameter types |
| Symbols.Keys | semantico.py:164-167 | holds exactly the names in the two insertion orders |
| Symbols.KeysCoverTable | semantico.py:164-167 | lists every declared name, and is as long as both dictionaries together |
| Symbols.Get | semantico.py:170-176 | a variable entry shadows a function entry; `None` iff the key is in neither |
| Symbols.AddVariableThenLookup | semantico.py:143-151 | declaring keeps the table well formed; the new name then looks up to its type and other names are unaffected |
| Symbols.AddFunctionThenLookup | semantico.py:153-161 | the same for functions |
| Symbols.SymbolTable.constructor | semantico.py:139-141 | starts as the empty table |
| Symbols.SymbolTable.DeclareVariable | semantico.py:143-146 | the dictionary update `AddVariable` describes; a duplicate leaves the table unchanged |
| Symbols.SymbolTable.DeclareFunction | semantico.py:153-156 | the dictionary update `AddFunction` describes; a duplicate leaves the table unchanged |
| Symbols.SymbolTable.GetVariableType | semantico.py:148-151 | fails iff the name is absent; otherwise the stored type |
| Symbols.SymbolTable.GetFunctionInfo | semantico.py:158-161 | fails iff the name is absent; otherwise the stored info |
| Symbols.SymbolTable.AllKeys | semantico.py:164-167 | exactly the declared names, variables first |
| Symbols.SymbolTable.GetEntry | semantico.py:170-176 | `Get` of the table |
| Semantic.Initial | semantico.py:4-7 | an empty table and no current function or return type |
| Semantic.LiteralType | semantico.py:62-63 | `float` iff the lexeme has a `.`, `int` otherwise |
| Semantic.ExpectedReturn | semantico.py:18 | the first parameter's type, or `void` without parameters |
| Semantic.ParamTypes | semantico.py:20 | the parameter types, position by position |
| Semantic.DeclareParams | semantico.py:24-25 | every parameter becomes an uninitialised variable of its own type and nothing declared is lost; the functions are untouched; a failure is a duplicate of a parameter's name |
| Semantic.Visit | semantico.py:9-136 | declarations are never lost; a comparison is `int`; a function resets the two fields; a statement keeps them |
| Semantic.VisitFunction | semantico.py:15-33 | declarations are kept; the function is registered with the return type of its first parameter and its parameter types; every parameter is a variable of its type; both fields are `None` afterwards; an already declared name is a duplicate-function error |
| Semantic.VisitOperands | semantico.py:65-70 | declarations are kept; operands inside a body keep the two fields |
| Semantic.VisitCompare | semantico.py:35-45 | the result is `int` |
| Semantic.VisitAssign | semantico.py:47-56 | declarations are kept; the two fields are kept |
| Semantic.VisitCall | semantico.py:72-86 | declarations are kept; the two fields are kept |
| Semantic.VisitWhile | semantico.py:94-100 | declarations are kept; the two fields are kept |
| Semantic.VisitFor | semantico.py:102-112 | declarations are kept; the two fields are kept |
| Semantic.VisitIf | semantico.py:114-134 | declarations are kept; the two fields are kept |
| Semantic.CheckCondition | semantico.py:95-97 | declarations are kept; the two fields are kept |
| Semantic.VisitAll | semantico.py:28-29 | declarations are kept; statements keep the two fields |
| Semantic.VisitArgs | semantico.py:81-84 | declarations are kept; the two fields are kept |
| Semantic.VisitElseIfs | semantico.py:124-129 | declarations are kept; the two fields are kept |
| Semantic.ForAgrees | semantico.py:102-112 | the four steps of a `for`, in order, give the result of `VisitFor`: the first failure, or the body's state |
| Semantic.Analyzer.constructor | semantico.py:4-7 | starts in the `Initial` context |
| Semantic.Analyzer.Analyze | semantico.py:9-136 | the returned type and the new table and fields are those `Visit` computes |
| Semantic.Analyzer.AnalyzeOperands | semantico.py:65-70 | agrees with `VisitOperands` |
| Semantic.Analyzer.AnalyzeAssign | semantico.py:47-56 | agrees with `VisitAssign` |
| Semantic.Analyzer.AnalyzeFor | semantico.py:102-112 | agrees with `VisitFor` |
| Semantic.Analyzer.AnalyzeFunction | semantico.py:15-33 | agrees with `VisitFunction`: fields set, function and parameters declared, body analysed, fields reset |
| Semantic.Analyzer.AnalyzeCall | semantico.py:72-86 | agrees with `VisitCall` |
| Semantic.Analyzer.AnalyzeIf | semantico.py:114-134 | agrees with `VisitIf` |
| Semantic.Analyzer.Condition | semantico.py:95-97 | agrees with `CheckCondition` |
| Semantic.Analyzer.AnalyzeAll | semantico.py:28-29 | the loop agrees with `VisitAll` |
| SemanticLemmas.LiteralTyping | semantico.py:62-63 | a number with a `.` is `float`, any other is `int` (`5f` included) |
| SemanticLemmas.FallThroughNodes | semantico.py:136 | declarations, constants, increments, strings and `None` give `None` and change nothing |
| SemanticLemmas.IdentifierTyping | semantico.py:58-60 | an identifier has its declared type, and is an error iff undeclared |
| SemanticLemmas.OperandsAgree | semantico.py:35-70 | operand types that differ are an error; otherwise an operation has the shared type and a comparison is `int` |
| SemanticLemmas.PureExprReadsOnly | semantico.py:58-70 | an expression leaves the state as it was; it can fail only on an undeclared name or an operand mismatch |
| SemanticLemmas.AssignmentRule | semantico.py:47-56 | the value is typed first; a new target is declared with that type; a declared one must already have it |
| SemanticLemmas.CallChecksCalleeAndArity | semantico.py:72-78 | an unknown callee, then a wrong arity, fail before any argument is analysed |
| SemanticLemmas.ArgumentErrorInRange | semantico.py:81-84 | an argument error names a position inside the argument list |
| SemanticLemmas.ArgumentsPass | semantico.py:81-84 | the arguments pass iff every one has its parameter's type, and then nothing changes |
| SemanticLemmas.ArgumentMismatchIsFirst | semantico.py:81-84 | the error names the first argument whose type differs |
| SemanticLemmas.CallReturnsDeclaredType | semantico.py:72-86 | a call whose arguments match has the declared return type |
| SemanticLemmas.NonIntConditionRejected | semantico.py:94-117 | a non-`int` condition of a `while` or `if` is an error; so is a non-`int` `for` condition, in the context its initializer leaves |
| SemanticLemmas.ReturnRule | semantico.py:88-92 | a `return` fails with its value's error; otherwise it passes iff the value's type is the context's expected return type, and is a return mismatch when not |
| SemanticLemmas.NonIntElseIfRejected | semantico.py:124-127 | a non-`int` `else if` condition is an error |
| SemanticLemmas.ForIsInitThenWhile | semantico.py:102-112 | a `for` is analysed as its initializer, then a `while` over the condition whose body is the increment then the body |
| SemanticLemmas.VisitAllPrefix | semantico.py:28-29 | statement `i` is analysed in the state the statements before it leave |
| SemanticLemmas.ReturnTypeIsFirstParameterType | semantico.py:88-92 | in an accepted function, the `return` at each position of the body has, in the context the statements before it leave, the type of the first parameter (or `void`), as set at semantico.py:18 |
| SemanticLemmas.DeclareParamsRejectsDeclared | semantico.py:24-25 | a parameter named like an existing variable cannot be declared |
| SemanticLemmas.ReusedParameterRejected | semantico.py:24-25 | the table is never cleared: two functions sharing a parameter name are rejected |
| SemanticLemmas.IntMainReturningIntRejected | semantico.py:88-92 | `int main(){ int x = 2 + 3; return x; }` fails with a return-type mismatch |
| SemanticLemmas.ConstantIsNotDeclared | semantico.py:136 | a use of a `const` is an undeclared variable |

## Left out

- The tokenizer `identificar_tokens` (analizador.py:10-32): the model takes the token list
  as its input. The tokenizer silently skips characters that match no pattern.
- `seleccionar_archivo`, `guardar_archivo` and the top-level script
  (analizador.py:495-537, 639-717): a file dialog, file writes and console output.
- `imprimir_ast` (analizador.py:539-637): rendering for human inspection.
- `return_statement`, `break_statement` and `operador_abreviado` (analizador.py:453-474):
  nothing calls them.
- The `traducir` methods of nodos.py: their only call is commented out.
- `NodoParametro.generar_codigo` (nodos.py:40-43): never called.
- `NodoOperacion.optimizar` (nodos.py:91-175): dead code.
- analizar.py: a broken duplicate of the parser. optimizacion.py does not parse.
  principal.py is an unrelated drawing program.
- `TablaSimbolos.__str__`: printing only.
- The values of `id(self)` are not modelled: labels use a counter.
- Floating-point values are not modelled. Only the `.`/`f` test on a number's lexeme
  matters.
- Parser.Parser.Parse: after a syntax error, this method and every other method of the
  class state only the error, not where the cursor was left. No caller resumes after an
  error.
- Semantic.Analyzer.Analyze: after a semantic error, this method and the other methods of
  the class state only the error, not the partly updated table and fields. The analysis
  ends at the first error.
- Parser.Parser.Parse: the `funciones` attribute set by the constructor is never read. It
  is modelled as a field that stays empty.
- SemanticLemmas.ReturnTypeIsFirstParameterType: speaks of the `return` statements at the
  top level of a function body. A `return` nested in a `while`, `for` or `if` is checked by
  the same rule, `SemanticLemmas.ReturnRule`, in the context its enclosing statements pass
  on unchanged; the lemma does not follow the nesting.
