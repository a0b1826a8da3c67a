/** Properties of the grammar of analizador.py's `Parser`, stated on the ParserSpec
    functions the `Parser` class is proved against. */
module ParserLemmas {
  import opened Tokens
  import opened Ast
  import opened ParserSpec

  /** The leaf `termino` builds from a number, identifier or string token. */
  function Leaf(t: Token): (n: Node)
    requires IsPrintOperandKind(t.kind)
    ensures IsTerm(n) && n.token == t
  {
    if t.kind == Number then Num(t) else if t.kind == Identifier then Ident(t) else Str(t)
  }

  /** `termino` succeeds exactly on a number, an identifier, a string, or a `-` directly
      followed by a number; the `-` is then glued to the number's lexeme. */
  lemma TermAccepts(ts: seq<Token>, p: nat)
    requires p <= |ts|
    ensures Term(ts, p).Ok? <==>
      p < |ts| && (IsPrintOperandKind(ts[p].kind)
                   || (ts[p] == Token(Operator, "-") && p + 1 < |ts| && ts[p + 1].kind == Number))
    ensures p < |ts| && IsPrintOperandKind(ts[p].kind) ==> Term(ts, p) == Ok((Leaf(ts[p]), p + 1))
    ensures p + 1 < |ts| && ts[p] == Token(Operator, "-") && ts[p + 1].kind == Number ==>
      Term(ts, p) == Ok((Num(Token(Number, "-" + ts[p + 1].lexeme)), p + 2))
  {
  }

  /** `expresion_ing` on `a o1 b o2 c` (and no operator after it) builds `(a o1 b) o2 c`:
      one precedence level, grouped to the left. */
  lemma ExprGroupsLeft(ts: seq<Token>, p: nat)
    requires p + 5 <= |ts|
    requires IsPrintOperandKind(ts[p].kind) && IsPrintOperandKind(ts[p + 2].kind)
             && IsPrintOperandKind(ts[p + 4].kind)
    requires ts[p + 1].kind == Operator && ts[p + 3].kind == Operator
    requires p + 5 == |ts| || ts[p + 5].kind != Operator
    ensures Expr(ts, p) ==
      Ok((BinOp(BinOp(Leaf(ts[p]), ts[p + 1].lexeme, Leaf(ts[p + 2])), ts[p + 3].lexeme, Leaf(ts[p + 4])), p + 5))
  {
    TermAccepts(ts, p);
    TermAccepts(ts, p + 2);
    TermAccepts(ts, p + 4);
    var ab := BinOp(Leaf(ts[p]), ts[p + 1].lexeme, Leaf(ts[p + 2]));
    assert ExprRest(ts, p + 5, BinOp(ab, ts[p + 3].lexeme, Leaf(ts[p + 4])))
        == Ok((BinOp(ab, ts[p + 3].lexeme, Leaf(ts[p + 4])), p + 5));
    assert ExprRest(ts, p + 3, ab) == ExprRest(ts, p + 5, BinOp(ab, ts[p + 3].lexeme, Leaf(ts[p + 4])));
    assert ExprRest(ts, p + 1, Leaf(ts[p])) == ExprRest(ts, p + 3, ab);
  }

  /** Where `expresion_logica` expects its first operator token: after the left operand and
      the `-` in front of it, if any. */
  function OperatorPos(ts: seq<Token>, p: nat): nat
  {
    if p < |ts| && ts[p] == Token(Operator, "-") then p + 2 else p + 1
  }

  /** The operator token at `q - 1` takes the one at `q` with it when that is an operator
      token too and the two spell `==`, `!=`, `>=` or `<=`. */
  predicate Merges(ts: seq<Token>, q: nat)
    requires 0 < q < |ts|
  {
    ts[q].kind == Operator && IsCompoundRelOp(ts[q - 1].lexeme + ts[q].lexeme)
  }

  /** The operator read with the operator token at `q - 1`. */
  function MergedOperator(ts: seq<Token>, q: nat): string
    requires 0 < q < |ts|
  {
    if Merges(ts, q) then ts[q - 1].lexeme + ts[q].lexeme else ts[q - 1].lexeme
  }

  /** Where the right operand is read: after the operator and an optional `-`. */
  function RightOperandPos(ts: seq<Token>, q: nat): nat
    requires 0 < q < |ts|
  {
    var s := if Merges(ts, q) then q + 1 else q;
    if s < |ts| && ts[s] == Token(Operator, "-") then s + 1 else s
  }

  predicate IsOperandKind(k: Kind)
  {
    k == Identifier || k == Number
  }

  /** `expresion_logica` over any tokens: it succeeds exactly when both operands are an
      identifier or a number at their places, an operator token follows the left one, and
      the (possibly merged) operator is one of the six relational ones; the operator is then
      the merged one. With both operands in place and any other operator, it fails with
      `SyntaxError` after reading the right operand. */
  lemma ComparisonOperatorRule(ts: seq<Token>, p: nat)
    requires p <= |ts|
    ensures
      var o := OperatorPos(ts, p);
      var shaped := o + 1 < |ts| && IsOperandKind(ts[o - 1].kind) && ts[o].kind == Operator
                    && RightOperandPos(ts, o + 1) < |ts| && IsOperandKind(ts[RightOperandPos(ts, o + 1)].kind);
      && (Comparison(ts, p).Ok? <==> shaped && IsRelOp(MergedOperator(ts, o + 1)))
      && (Comparison(ts, p).Ok? ==>
            Comparison(ts, p).value.0.op == MergedOperator(ts, o + 1)
            && Comparison(ts, p).value.1 == RightOperandPos(ts, o + 1) + 1)
      && (shaped && !IsRelOp(MergedOperator(ts, o + 1)) ==>
            Comparison(ts, p) == Err(Unexpected("expresion_logica", None)))
  {
    var o := OperatorPos(ts, p);
    if p < |ts| {
      assert Sign(ts, p).value.1 == o - 1;
    }
  }

  /** `x = = 1`: two operator tokens that spell `==` are merged into one operator. */
  lemma ComparisonMergesEquals()
    ensures
      var x := Token(Identifier, "x");
      var one := Token(Number, "1");
      Comparison([x, Token(Operator, "="), Token(Operator, "="), one], 0)
        == Ok((Compare(Ident(x), "==", Num(one)), 4))
  {
    var ts := [Token(Identifier, "x"), Token(Operator, "="), Token(Operator, "="), Token(Number, "1")];
    assert "=" + "=" == "==";
    assert Sign(ts, 3) == Ok((false, 3));
  }

  /** `x < - 1`: `<-` is not a two-character operator, so the `-` is left to the right operand,
      which becomes the number `-1`. */
  lemma ComparisonLeavesMinusToOperand()
    ensures
      var x := Token(Identifier, "x");
      Comparison([x, Token(Operator, "<"), Token(Operator, "-"), Token(Number, "1")], 0)
        == Ok((Compare(Ident(x), "<", Num(Token(Number, "-1"))), 4))
  {
    var ts := [Token(Identifier, "x"), Token(Operator, "<"), Token(Operator, "-"), Token(Number, "1")];
    assert "<" + "-" == "<-";
    assert Sign(ts, 2) == Ok((true, 3));
    assert "-" + "1" == "-1";
  }

  /** `x = 1`: an assignment operator is parsed as a comparison operator and rejected only
      after the right operand has been read. */
  lemma ComparisonRejectsAssignment()
    ensures
      Comparison([Token(Identifier, "x"), Token(Operator, "="), Token(Number, "1")], 0)
        == Err(Unexpected("expresion_logica", None))
  {
    var ts := [Token(Identifier, "x"), Token(Operator, "="), Token(Number, "1")];
    assert Sign(ts, 2) == Ok((false, 2));
  }

  /** `cuerpo` skips a stray `;` and stops, without consuming it, at a `}`. */
  lemma BodySkipsSemicolonStopsAtBrace(ts: seq<Token>, p: nat)
    requires p < |ts|
    ensures ts[p] == Token(Delimiter, ";") ==> Body(ts, p) == Body(ts, p + 1)
    ensures ts[p].lexeme == "}" ==> Body(ts, p) == Ok(([], p))
  {
  }

  /** A plain `else` ends the chain: its block is the last thing `bucle_if` reads. */
  lemma PlainElseEndsChain(ts: seq<Token>, p: nat)
    requires p + 1 < |ts| && ts[p] == Token(Keyword, "else") && ts[p + 1].lexeme != "if"
    ensures Block(ts, p + 1).Ok? ==>
      ElseChain(ts, p) == Ok((([], Else(Block(ts, p + 1).value.0)), Block(ts, p + 1).value.1))
    ensures Block(ts, p + 1).Err? ==> ElseChain(ts, p) == Err(Block(ts, p + 1).error)
  {
  }

  /** An `else if` branch comes before every branch that follows it in the source. */
  lemma ElseIfKeptInOrder(ts: seq<Token>, p: nat)
    requires p + 2 <= |ts| && ts[p] == Token(Keyword, "else") && ts[p + 1] == Token(Keyword, "if")
    requires ElseChain(ts, p).Ok?
    ensures Condition(ts, p + 2).Ok?
    ensures Block(ts, Condition(ts, p + 2).value.1).Ok?
    ensures
      var c := Condition(ts, p + 2).value;
      var b := Block(ts, c.1).value;
      ElseChain(ts, b.1).Ok?
      && ElseChain(ts, p).value == (([ElseIf(c.0, b.0)] + ElseChain(ts, b.1).value.0.0,
                                     ElseChain(ts, b.1).value.0.1), ElseChain(ts, b.1).value.1)
  {
  }

  /** `#include <header>` pairs are skipped between functions. */
  lemma IncludeSkipped(ts: seq<Token>, p: nat)
    requires p + 1 < |ts| && ts[p].kind == Preprocessor && ts[p + 1].kind == Header
    ensures Functions(ts, p) == Functions(ts, p + 2)
  {
  }

  /** `parsear`: a program without `main` fails first, then one whose `main` is not last;
      an empty token list has no `main`. */
  lemma ProgramNeedsMainLast(ts: seq<Token>, p: nat)
    requires p <= |ts| && Functions(ts, p).Ok?
    ensures !HasMain(Functions(ts, p).value) ==> ParseProgram(ts, p) == Err(NoMain)
    ensures HasMain(Functions(ts, p).value) && Functions(ts, p).value[|Functions(ts, p).value| - 1].name != "main"
            ==> ParseProgram(ts, p) == Err(MainNotLast)
    ensures ParseProgram([], 0) == Err(NoMain)
  {
  }
}
