/** Tokens, errors and the result type shared by every stage of the compiler. */
module Tokens {

  /** The token kinds of analizador.py's `token_patron` (WHITESPACE never reaches the parser). */
  datatype Kind =
    | Preprocessor | Header | Keyword | LibFunction | Identifier
    | Number | Operator | Delimiter | StringLit

  /** A `(kind, lexeme)` pair as produced by the tokenizer. */
  datatype Token = Token(kind: Kind, lexeme: string)

  /** Every way a stage of the pipeline can stop. */
  datatype Error =
    /** `coincidir` found no token, or a token of another kind. */
    | Mismatch(expected: Kind, found: Option<Token>)
    /** Any other `SyntaxError` the parser raises; `rule` names the grammar rule. */
    | Unexpected(rule: string, found: Option<Token>)
    /** `parsear`: no function is named `main`. */
    | NoMain
    /** `parsear`: `main` exists but is not the last function. */
    | MainNotLast
    /** Subscripting the `None` that `obtener_token_actual` returns at the end of input. */
    | NoneToken
    /** `self.tokens[self.pos + 1]` read past the end of the token list. */
    | PastEnd
    /** A call of something that does not exist (an undefined method, a method of `None`). */
    | AttributeFailure(name: string)
    /** A semantic error of the analyzer. */
    | Semantic(reason: SemanticReason)

  datatype SemanticReason =
    | DuplicateVariable(name: string)
    | UndeclaredVariable(name: string)
    | DuplicateFunction(name: string)
    | UndeclaredFunction(name: string)
    | OperandMismatch
    | ComparisonMismatch
    | AssignmentMismatch(name: string)
    | ArityMismatch(name: string)
    | ArgumentMismatch(name: string, index: nat)
    | ReturnMismatch
    | ConditionNotInt

  datatype Option<+T> = None | Some(value: T)

  /** The outcome of every stage: a value or the first error met. */
  datatype Result<+T> = Ok(value: T) | Err(error: Error) {
    predicate IsFailure() { Err? }
    function PropagateFailure<U>(): Result<U> requires Err? { Err(error) }
    function Extract(): T requires Ok? { value }
  }

  /** The token at the cursor, or `None` past the end (`obtener_token_actual`). */
  function Current(ts: seq<Token>, p: nat): (t: Option<Token>)
    ensures t == None <==> p >= |ts|
    ensures t.Some? ==> t.value == ts[p]
  {
    if p < |ts| then Some(ts[p]) else None
  }

  /** True when there is a current token and its lexeme is `s`. */
  predicate AtLexeme(ts: seq<Token>, p: nat, s: string)
  {
    p < |ts| && ts[p].lexeme == s
  }

  /** Decimal rendering of a natural number, as Python's `str` of a non-negative int. */
  function NatStr(n: nat): (s: string)
    decreases n
  {
    if n < 10 then [Digit(n)] else NatStr(n / 10) + [Digit(n % 10)]
  }

  function Digit(d: nat): (c: char)
    requires d < 10
    ensures '0' <= c <= '9'
    ensures c as int - '0' as int == d
  {
    ('0' as int + d) as char
  }

  predicate IsDigit(c: char) { '0' <= c <= '9' }

  /** Value of a string of decimal digits. */
  function DigitsValue(s: string): nat
    requires forall i :: 0 <= i < |s| ==> IsDigit(s[i])
  {
    if s == [] then 0
    else
      assert IsDigit(s[|s| - 1]);
      DigitsValue(s[..|s| - 1]) * 10 + (s[|s| - 1] as int - '0' as int)
  }

  /** `NatStr` yields a non-empty string of digits that reads back as the number. */
  lemma {:induction false} NatStrDigits(n: nat)
    ensures |NatStr(n)| > 0
    ensures forall i :: 0 <= i < |NatStr(n)| ==> IsDigit(NatStr(n)[i])
    ensures DigitsValue(NatStr(n)) == n
  {
    if n >= 10 {
      NatStrDigits(n / 10);
      var s := NatStr(n);
      assert s == NatStr(n / 10) + [Digit(n % 10)];
      assert s[..|s| - 1] == NatStr(n / 10);
    }
  }
}
